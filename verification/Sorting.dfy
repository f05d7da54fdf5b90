/**
 Sorting under a total order: the arrangement that a library sort and an
 ordered map both produce, and the fact that there is only one.
 */
module Sorting {

  ghost predicate TotalOrder<T(!new)>(leq: (T, T) -> bool) {
    && (forall x, y :: leq(x, y) || leq(y, x))
    && (forall x, y :: leq(x, y) && leq(y, x) ==> x == y)
    && (forall x, y, z :: leq(x, y) && leq(y, z) ==> leq(x, z))
  }

  ghost predicate Ordered<T>(s: seq<T>, leq: (T, T) -> bool) {
    forall i, j :: 0 <= i <= j < |s| ==> leq(s[i], s[j])
  }

  function Insert<T>(x: T, s: seq<T>, leq: (T, T) -> bool): (r: seq<T>)
    ensures |r| == |s| + 1
  {
    if s == [] then [x]
    else if leq(x, s[0]) then [x] + s
    else [s[0]] + Insert(x, s[1..], leq)
  }

  function Sorted<T>(s: seq<T>, leq: (T, T) -> bool): (r: seq<T>)
    ensures |r| == |s|
  {
    if s == [] then [] else Insert(s[0], Sorted(s[1..], leq), leq)
  }

  lemma {:induction false} InsertKeepsElements<T>(x: T, s: seq<T>, leq: (T, T) -> bool)
    ensures multiset(Insert(x, s, leq)) == multiset{x} + multiset(s)
  {
    if s != [] {
      assert s == [s[0]] + s[1..];
      InsertKeepsElements(x, s[1..], leq);
    }
  }

  lemma {:induction false} InsertKeepsOrder<T(!new)>(x: T, s: seq<T>, leq: (T, T) -> bool)
    requires TotalOrder(leq) && Ordered(s, leq)
    ensures Ordered(Insert(x, s, leq), leq)
    ensures s != [] ==> Insert(x, s, leq)[0] == if leq(x, s[0]) then x else s[0]
  {
    if s == [] || leq(x, s[0]) {
    } else {
      InsertKeepsOrder(x, s[1..], leq);
      var rest := Insert(x, s[1..], leq);
      assert Insert(x, s, leq) == [s[0]] + rest;
      assert leq(s[0], rest[0]);
    }
  }

  lemma {:induction false} SortedKeepsElements<T(!new)>(s: seq<T>, leq: (T, T) -> bool)
    ensures multiset(Sorted(s, leq)) == multiset(s)
    ensures forall x :: x in Sorted(s, leq) <==> x in s
  {
    if s != [] {
      assert s == [s[0]] + s[1..];
      SortedKeepsElements(s[1..], leq);
      InsertKeepsElements(s[0], Sorted(s[1..], leq), leq);
    }
    SameElements(Sorted(s, leq), s);
  }

  lemma {:induction false} SortedIsArrangement<T(!new)>(s: seq<T>, leq: (T, T) -> bool)
    requires TotalOrder(leq)
    ensures Ordered(Sorted(s, leq), leq) && multiset(Sorted(s, leq)) == multiset(s)
    ensures forall x :: x in Sorted(s, leq) <==> x in s
  {
    SortedKeepsElements(s, leq);
    if s != [] {
      SortedIsArrangement(s[1..], leq);
      InsertKeepsOrder(s[0], Sorted(s[1..], leq), leq);
    }
  }

  lemma SameElements<T(!new)>(s: seq<T>, t: seq<T>)
    requires multiset(s) == multiset(t)
    ensures forall x :: x in s <==> x in t
  {
    forall x ensures x in s <==> x in t {
      assert x in s <==> x in multiset(s);
      assert x in t <==> x in multiset(t);
    }
  }

  lemma TailElements<T>(s: seq<T>)
    requires s != []
    ensures multiset(s[1..]) == multiset(s) - multiset{s[0]}
  {
    assert s == [s[0]] + s[1..];
  }

  lemma OrderedStartsAlike<T(!new)>(s: seq<T>, t: seq<T>, leq: (T, T) -> bool)
    requires TotalOrder(leq)
    requires s != [] && t != [] && Ordered(s, leq) && Ordered(t, leq) && multiset(s) == multiset(t)
    ensures s[0] == t[0]
  {
    assert s[0] in multiset(t) && t[0] in multiset(s);
  }

  // Two ordered lists of the same elements are equal.
  lemma {:induction false} OrderedIsUnique<T(!new)>(s: seq<T>, t: seq<T>, leq: (T, T) -> bool)
    requires TotalOrder(leq)
    requires Ordered(s, leq) && Ordered(t, leq) && multiset(s) == multiset(t)
    ensures s == t
  {
    assert |s| == |multiset(s)| && |t| == |multiset(t)|;
    if s != [] {
      OrderedStartsAlike(s, t, leq);
      TailElements(s);
      TailElements(t);
      OrderedIsUnique(s[1..], t[1..], leq);
      assert s == [s[0]] + s[1..] && t == [t[0]] + t[1..];
    }
  }

  // The order in which an ordered map visits its keys.
  ghost predicate InOrder<T>(ks: seq<T>, keys: set<T>, leq: (T, T) -> bool) {
    Ordered(ks, leq) && multiset(ks) == multiset(keys)
  }

  lemma InsertNewKey<T(!new)>(k: T, ks: seq<T>, keys: set<T>, leq: (T, T) -> bool)
    requires TotalOrder(leq) && InOrder(ks, keys, leq) && k !in keys
    ensures InOrder(Insert(k, ks, leq), keys + {k}, leq)
  {
    InsertKeepsElements(k, ks, leq);
    InsertKeepsOrder(k, ks, leq);
    assert multiset(keys + {k}) == multiset(keys) + multiset{k};
  }

  ghost function KeysInOrder<T(!new)>(keys: set<T>, leq: (T, T) -> bool): (ks: seq<T>)
    requires TotalOrder(leq)
    ensures InOrder(ks, keys, leq)
  {
    if keys == {} then []
    else
      var k :| k in keys;
      var rest := KeysInOrder(keys - {k}, leq);
      InsertNewKey(k, rest, keys - {k}, leq);
      assert keys - {k} + {k} == keys;
      Insert(k, rest, leq)
  }

  method SortKeys<T(==, !new)>(keys: set<T>, leq: (T, T) -> bool) returns (ks: seq<T>)
    requires TotalOrder(leq)
    ensures ks == KeysInOrder(keys, leq)
  {
    ks := [];
    var remaining := keys;
    while remaining != {}
      invariant remaining <= keys
      invariant InOrder(ks, keys - remaining, leq)
    {
      var k :| k in remaining;
      InsertNewKey(k, ks, keys - remaining, leq);
      ks := Insert(k, ks, leq);
      assert keys - (remaining - {k}) == keys - remaining + {k};
      remaining := remaining - {k};
    }
    assert keys - remaining == keys;
    OrderedIsUnique(ks, KeysInOrder(keys, leq), leq);
  }

  // Keys in order list each key once and nothing else.
  lemma KeysInOrderAreTheKeys<T(!new)>(keys: set<T>, leq: (T, T) -> bool)
    requires TotalOrder(leq)
    ensures forall k :: k in KeysInOrder(keys, leq) <==> k in keys
    ensures forall i, j :: 0 <= i < j < |KeysInOrder(keys, leq)| ==> KeysInOrder(keys, leq)[i] != KeysInOrder(keys, leq)[j]
  {
    var ks := KeysInOrder(keys, leq);
    forall k ensures k in ks <==> k in keys {
      assert k in ks <==> k in multiset(ks);
    }
    forall i, j | 0 <= i < j < |ks| ensures ks[i] != ks[j] {
      DistinctPositions(ks, i, j);
    }
  }

  lemma DistinctPositions<T>(ks: seq<T>, i: nat, j: nat)
    requires i < j < |ks| && multiset(ks)[ks[i]] <= 1
    ensures ks[i] != ks[j]
  {
    assert ks == ks[..i] + ([ks[i]] + (ks[i + 1..j] + ([ks[j]] + ks[j + 1..])));
  }

  // ---- Orders -----------------------------------------------------------------

  const BY_REAL: (real, real) -> bool := (x, y) => x <= y
  const BY_INT: (int, int) -> bool := (x, y) => x <= y

  // strings.Compare(a, b) <= 0
  predicate Lexicographic(a: string, b: string) {
    if a == "" then true
    else if b == "" then false
    else if a[0] != b[0] then a[0] < b[0]
    else Lexicographic(a[1..], b[1..])
  }

  const BY_STRING: (string, string) -> bool := (a, b) => Lexicographic(a, b)

  lemma {:induction false} LexicographicTotal(a: string, b: string)
    ensures Lexicographic(a, b) || Lexicographic(b, a)
    ensures Lexicographic(a, b) && Lexicographic(b, a) ==> a == b
  {
    if a != "" && b != "" && a[0] == b[0] {
      LexicographicTotal(a[1..], b[1..]);
      assert a == [a[0]] + a[1..] && b == [b[0]] + b[1..];
    }
  }

  lemma {:induction false} LexicographicTransitive(a: string, b: string, c: string)
    requires Lexicographic(a, b) && Lexicographic(b, c)
    ensures Lexicographic(a, c)
  {
    if a != "" && b != "" && c != "" && a[0] == b[0] == c[0] {
      LexicographicTransitive(a[1..], b[1..], c[1..]);
    }
  }

  lemma StringOrderIsTotal()
    ensures TotalOrder(BY_STRING)
  {
    forall x: string, y: string
      ensures BY_STRING(x, y) || BY_STRING(y, x)
      ensures BY_STRING(x, y) && BY_STRING(y, x) ==> x == y
    {
      LexicographicTotal(x, y);
    }
    forall x: string, y: string, z: string | BY_STRING(x, y) && BY_STRING(y, z) ensures BY_STRING(x, z) {
      LexicographicTransitive(x, y, z);
    }
  }

  // ---- Ordered maps keyed by integers and by strings ------------------------------

  ghost function IntKeys(keys: set<int>): (ks: seq<int>)
    ensures |ks| == |keys| && forall k :: k in ks <==> k in keys
    ensures forall i, j :: 0 <= i < j < |ks| ==> ks[i] < ks[j]
  {
    KeysInOrderAreTheKeys(keys, BY_INT);
    var ks := KeysInOrder(keys, BY_INT);
    assert forall i, j :: 0 <= i < j < |ks| ==> BY_INT(ks[i], ks[j]);
    assert |ks| == |multiset(ks)| == |multiset(keys)|;
    ks
  }

  method SortIntKeys(keys: set<int>) returns (ks: seq<int>)
    ensures ks == IntKeys(keys)
  {
    ks := SortKeys(keys, BY_INT);
  }

  ghost function StringKeys(keys: set<string>): (ks: seq<string>)
    ensures forall k :: k in ks <==> k in keys
    ensures forall i, j :: 0 <= i < j < |ks| ==> ks[i] != ks[j] && Lexicographic(ks[i], ks[j])
  {
    StringOrderIsTotal();
    KeysInOrderAreTheKeys(keys, BY_STRING);
    var ks := KeysInOrder(keys, BY_STRING);
    assert forall i, j :: 0 <= i < j < |ks| ==> BY_STRING(ks[i], ks[j]);
    ks
  }

  method SortStringKeys(keys: set<string>) returns (ks: seq<string>)
    ensures ks == StringKeys(keys)
  {
    StringOrderIsTotal();
    ks := SortKeys(keys, BY_STRING);
  }
}
