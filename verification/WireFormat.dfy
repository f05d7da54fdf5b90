/**
 Where each field of an encoded packet lies, byte by byte. Numbers are
 little-endian; the last 58 bytes hold the fixed fields behind one unused byte.
 */
module WireFormat {
  import opened Bytes
  import opened VoicePacket
  import opened PacketLaws

  // The number written in the bytes from `lo` up to `hi`, the lowest first.
  function NumberIn(b: seq<byte>, lo: int, hi: int): nat
    requires 0 <= lo <= hi <= |b|
    decreases hi - lo
  {
    if lo == hi then 0 else b[lo] + 256 * NumberIn(b, lo + 1, hi)
  }

  lemma {:induction false} NumberIsRead(b: seq<byte>, lo: int, hi: int)
    requires 0 <= lo <= hi <= |b|
    ensures NumberIn(b, lo, hi) == Get(b[lo..hi])
    decreases hi - lo
  {
    if lo < hi {
      NumberIsRead(b, lo + 1, hi);
      assert b[lo..hi][1..] == b[lo + 1..hi];
    }
  }

  lemma NumberIsPut(b: seq<byte>, lo: nat, hi: nat, v: nat, width: nat)
    requires lo <= hi <= |b| && b[lo..hi] == Put(v, width) && v < Pow256(width)
    ensures NumberIn(b, lo, hi) == v
  {
    NumberIsRead(b, lo, hi);
    GetOfPut(v, width);
  }

  // ---- The segments ---------------------------------------------------------------------

  predicate HeaderIs(p: Packet, b: seq<byte>) {
    && |b| == 6 + |p.audioBytes| + 10 * |p.frequencies| + 58
    && NumberIn(b, 0, 2) == |b| && NumberIn(b, 2, 4) == |p.audioBytes| && NumberIn(b, 4, 6) == 10 * |p.frequencies|
  }

  predicate FixedIs(p: Packet, b: seq<byte>) {
    var n := |b|;
    && n >= 58 && b[n - 58] == 0
    && NumberIn(b, n - 57, n - 53) == p.unitID && NumberIn(b, n - 53, n - 45) == p.packetID
    && b[n - 45] == p.hops && b[n - 44..n - 22] == p.relayGUID && b[n - 22..] == p.originGUID
  }

  predicate FrequencyIs(f: Frequency, b: seq<byte>, at: nat) {
    && at + 10 <= |b| && NumberIn(b, at, at + 8) == f.bits && b[at + 8] == f.modulation && b[at + 9] == f.encryption
  }

  lemma HeaderPieces(p: Packet, rest: seq<byte>)
    ensures var b := HeaderBytes(p) + rest;
      && b[0..2] == Put(p.packetLength, 2) && b[2..4] == Put(p.audioSegmentLength, 2)
      && b[4..6] == Put(p.frequenciesSegmentLength, 2)
  {
  }

  lemma HeaderFields(p: Packet, b: seq<byte>)
    requires Consistent(p) && b == Layout(p)
    ensures HeaderIs(p, b)
  {
    var rest := p.audioBytes + FrequenciesBytes(p.frequencies) + [0] + FixedBytes(p);
    assert b == HeaderBytes(p) + rest;
    LayoutHeader(p);
    HeaderPieces(p, rest);
    Widths();
    NumberIsPut(b, 0, 2, p.packetLength, 2);
    NumberIsPut(b, 2, 4, p.audioSegmentLength, 2);
    NumberIsPut(b, 4, 6, p.frequenciesSegmentLength, 2);
  }

  lemma Padding(p: Packet, b: seq<byte>)
    requires Consistent(p) && b == Layout(p)
    ensures |b| >= 58 && b[|b| - 58] == 0
  {
    FixedReadsBack(p);
    var front := HeaderBytes(p) + p.audioBytes + FrequenciesBytes(p.frequencies);
    assert b == front + [0] + FixedBytes(p);
  }

  lemma FixedPieces(p: Packet)
    requires |p.relayGUID| == |p.originGUID| == GUID_LENGTH
    ensures var s := FixedBytes(p);
      && |s| == 57 && s[..4] == Put(p.unitID, 4) && s[4..12] == Put(p.packetID, 8) && s[12] == p.hops
      && s[13..35] == p.relayGUID && s[35..57] == p.originGUID
  {
  }

  lemma FixedSlicesOf(p: Packet, b: seq<byte>)
    requires Consistent(p) && b == Layout(p) && |b| >= 58
    ensures var n := |b|;
      && b[n - 57..n - 53] == Put(p.unitID, 4) && b[n - 53..n - 45] == Put(p.packetID, 8)
      && b[n - 45] == p.hops && b[n - 44..n - 22] == p.relayGUID && b[n - 22..n] == p.originGUID
  {
    LayoutSegments(p);
    FixedSlices(b);
    FixedPieces(p);
  }

  lemma FixedFields(p: Packet, b: seq<byte>)
    requires Consistent(p) && b == Layout(p)
    ensures FixedIs(p, b)
  {
    var n := |b|;
    Padding(p, b);
    FixedSlicesOf(p, b);
    FixedNumbers(b, p.unitID, p.packetID);
    assert b[n - 22..] == b[n - 22..n];
  }

  lemma FixedNumbers(b: seq<byte>, unitID: uint32, packetID: uint64)
    requires |b| >= 58 && b[|b| - 57..|b| - 53] == Put(unitID, 4) && b[|b| - 53..|b| - 45] == Put(packetID, 8)
    ensures NumberIn(b, |b| - 57, |b| - 53) == unitID && NumberIn(b, |b| - 53, |b| - 45) == packetID
  {
    Widths();
    NumberIsPut(b, |b| - 57, |b| - 53, unitID, 4);
    NumberIsPut(b, |b| - 53, |b| - 45, packetID, 8);
  }

  lemma {:induction false} FrequencyPieces(fs: seq<Frequency>, k: nat)
    requires k < |fs|
    ensures FrequenciesBytes(fs)[10 * k..10 * k + 10] == FrequencyBytes(fs[k])
  {
    var s := FrequenciesBytes(fs);
    if k == 0 {
      assert s[0..10] == FrequencyBytes(fs[0]);
    } else {
      FrequencyPieces(fs[1..], k - 1);
      assert s[10 * k..10 * k + 10] == FrequenciesBytes(fs[1..])[10 * (k - 1)..10 * (k - 1) + 10];
    }
  }

  lemma Within(b: seq<byte>, lo: nat, hi: nat, at: nat, n: nat)
    requires lo <= hi <= |b| && at + n <= hi - lo
    ensures b[lo..hi][at..at + n] == b[lo + at..lo + at + n]
  {
    var x, y := b[lo..hi][at..at + n], b[lo + at..lo + at + n];
    assert |x| == |y|;
    forall i | 0 <= i < n ensures x[i] == y[i] {
      assert x[i] == b[lo..hi][at + i] == b[lo + at + i];
    }
    assert x == y;
  }

  lemma FrequencyBits(f: Frequency)
    ensures FrequencyBytes(f)[..8] == Put(f.bits, 8)
    ensures FrequencyBytes(f)[8] == f.modulation && FrequencyBytes(f)[9] == f.encryption
  {
    assert FrequencyBytes(f)[..8] == Put(f.bits, 8);
  }

  lemma OneFrequency(b: seq<byte>, at: nat, f: Frequency)
    requires at + 10 <= |b| && b[at..at + 10] == FrequencyBytes(f)
    ensures FrequencyIs(f, b, at)
  {
    var s := b[at..at + 10];
    FrequencyBits(f);
    assert b[at..at + 8] == s[..8] && b[at + 8] == s[8] && b[at + 9] == s[9];
    Widths();
    NumberIsPut(b, at, at + 8, f.bits, 8);
  }

  lemma FrequencyFields(p: Packet, b: seq<byte>, k: nat)
    requires Consistent(p) && b == Layout(p) && k < |p.frequencies|
    ensures FrequencyIs(p.frequencies[k], b, 6 + |p.audioBytes| + 10 * k)
  {
    var start := 6 + |p.audioBytes|;
    LayoutSegments(p);
    FrequencyPieces(p.frequencies, k);
    Within(b, start, |b| - 58, 10 * k, 10);
    OneFrequency(b, start + 10 * k, p.frequencies[k]);
  }

  // ---- The whole packet -------------------------------------------------------------------

  // The datagram of every consistent packet: every decoded packet is one, and so
  // is every new one that fits.
  lemma EncodedFields(p: Packet)
    requires Consistent(p)
    ensures Encodable(p)
    ensures var b := Encoding(p);
      && HeaderIs(p, b) && b[6..6 + |p.audioBytes|] == p.audioBytes && FixedIs(p, b)
      && forall k :: 0 <= k < |p.frequencies| ==> FrequencyIs(p.frequencies[k], b, 6 + |p.audioBytes| + 10 * k)
  {
    EncodingIsLayout(p);
    LayoutFields(p, Encoding(p));
  }

  lemma LayoutFields(p: Packet, b: seq<byte>)
    requires Consistent(p) && b == Layout(p)
    ensures HeaderIs(p, b) && b[6..6 + |p.audioBytes|] == p.audioBytes && FixedIs(p, b)
    ensures forall k :: 0 <= k < |p.frequencies| ==> FrequencyIs(p.frequencies[k], b, 6 + |p.audioBytes| + 10 * k)
  {
    LayoutSegments(p);
    HeaderFields(p, b);
    FixedFields(p, b);
    forall k | 0 <= k < |p.frequencies| ensures FrequencyIs(p.frequencies[k], b, 6 + |p.audioBytes| + 10 * k) {
      FrequencyFields(p, b, k);
    }
  }

  // ---- What is accepted -------------------------------------------------------------------

  predicate HasLengths(b: seq<byte>, packet: nat, audio: nat, frequencies: nat) {
    |b| >= 6 && NumberIn(b, 0, 2) == packet && NumberIn(b, 2, 4) == audio && NumberIn(b, 4, 6) == frequencies
  }

  // A datagram is accepted exactly when it has the length it announces, its segments
  // make up that length, and its frequencies come in tens of bytes; otherwise the
  // first of these that fails is the error.
  lemma AcceptedIff(b: seq<byte>)
    ensures Decoding(b) == Err(TooShort) <==> |b| < 6
    ensures forall packet: nat, audio: nat, frequencies: nat :: HasLengths(b, packet, audio, frequencies) ==>
      && (Decoding(b).Ok? <==> packet == |b| == 6 + audio + frequencies + 58 && frequencies % 10 == 0)
      && (Decoding(b) == Err(LengthMismatch) <==> packet != |b|)
      && (Decoding(b) == Err(SegmentMismatch) <==> packet == |b| != 6 + audio + frequencies + 58)
  {
    if |b| >= 6 {
      NumberIsRead(b, 0, 2);
      NumberIsRead(b, 2, 4);
      NumberIsRead(b, 4, 6);
    }
  }
}
