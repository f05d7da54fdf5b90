/** Little-endian integers and writes into a byte buffer. */
module Bytes {

  type byte = x: int | 0 <= x < 0x100
  type uint16 = x: int | 0 <= x < 0x1_0000
  type uint32 = x: int | 0 <= x < 0x1_0000_0000
  type uint64 = x: int | 0 <= x < 0x1_0000_0000_0000_0000

  function Uint16(x: int): uint16 {
    x % 0x1_0000
  }

  function Pow256(n: nat): nat {
    if n == 0 then 1 else 256 * Pow256(n - 1)
  }

  lemma Widths()
    ensures Pow256(2) == 0x1_0000 && Pow256(4) == 0x1_0000_0000 && Pow256(8) == 0x1_0000_0000_0000_0000
  {
    assert Pow256(1) == 256;
    assert Pow256(2) == 256 * Pow256(1);
    assert Pow256(3) == 256 * Pow256(2);
    assert Pow256(4) == 256 * Pow256(3);
    assert Pow256(5) == 256 * Pow256(4);
    assert Pow256(6) == 256 * Pow256(5);
    assert Pow256(7) == 256 * Pow256(6);
    assert Pow256(8) == 256 * Pow256(7);
  }

  // The n low bytes of v, lowest first.
  function Put(v: nat, n: nat): (s: seq<byte>)
    ensures |s| == n
  {
    if n == 0 then [] else [v % 256] + Put(v / 256, n - 1)
  }

  function Get(s: seq<byte>): nat {
    if s == [] then 0 else s[0] + 256 * Get(s[1..])
  }

  lemma {:induction false} GetOfPut(v: nat, n: nat)
    requires v < Pow256(n)
    ensures Get(Put(v, n)) == v
  {
    if n > 0 {
      GetOfPut(v / 256, n - 1);
      assert Put(v, n)[1..] == Put(v / 256, n - 1);
    }
  }

  lemma {:induction false} PutOfGet(s: seq<byte>)
    ensures Put(Get(s), |s|) == s && Get(s) < Pow256(|s|)
  {
    if s != [] {
      PutOfGet(s[1..]);
      assert Get(s) % 256 == s[0] && Get(s) / 256 == Get(s[1..]);
      assert s == [s[0]] + s[1..];
    }
  }

  function Get16(s: seq<byte>): uint16
    requires |s| == 2
  {
    PutOfGet(s);
    Widths();
    Get(s)
  }

  function Get32(s: seq<byte>): uint32
    requires |s| == 4
  {
    PutOfGet(s);
    Widths();
    Get(s)
  }

  function Get64(s: seq<byte>): uint64
    requires |s| == 8
  {
    PutOfGet(s);
    Widths();
    Get(s)
  }

  // A write of `data` at `offset`.
  function Overwrite(s: seq<byte>, offset: nat, data: seq<byte>): (r: seq<byte>)
    requires offset + |data| <= |s|
    ensures |r| == |s|
  {
    seq(|s|, i requires 0 <= i < |s| => if offset <= i < offset + |data| then data[i - offset] else s[i])
  }

  method Write(b: array<byte>, offset: nat, data: seq<byte>)
    requires offset + |data| <= b.Length
    modifies b
    ensures b[..] == Overwrite(old(b[..]), offset, data)
  {
    for i := 0 to |data|
      invariant forall k :: 0 <= k < b.Length ==>
        b[k] == if offset <= k < offset + i then data[k - offset] else old(b[k])
    {
      b[offset + i] := data[i];
    }
  }

  function Zeros(n: nat): (s: seq<byte>)
    ensures |s| == n
  {
    seq(n, i => 0)
  }

  // Writing in front of untouched zeros.
  lemma WriteNext(done: seq<byte>, data: seq<byte>, n: nat)
    requires |data| <= n
    ensures Overwrite(done + Zeros(n), |done|, data) == done + data + Zeros(n - |data|)
  {
  }
}
