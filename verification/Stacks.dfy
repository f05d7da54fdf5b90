/**
 Altitude STACKS: a greedy cover of a group's altitudes by layers, each named
 by its highest member. The lemmas show what the greedy pass achieves: nothing
 is lost, every altitude has one layer, and no cover needs fewer layers.
 */
module AltitudeStacks {
  import opened Sorting
  import opened Altitudes

  datatype Stack = Stack(altitude: real, count: int)

  // A layer reaches less than 9,900 ft below its top.
  const DEPTH: real := 9900.0

  predicate InLayer(x: real, top: real) {
    x != 0.0 && top - DEPTH < x <= top
  }

  // ---- The greedy pass ----------------------------------------------------

  // One step of the descending pass over the sorted altitudes.
  function Place(stacks: seq<Stack>, x: real): seq<Stack> {
    if x == 0.0 then stacks
    else if |stacks| == 0 then [Stack(x, 1)]
    else
      var j := |stacks| - 1;
      if x <= stacks[j].altitude - DEPTH then stacks + [Stack(x, 1)]
      else stacks[j := stacks[j].(count := stacks[j].count + 1)]
  }

  // The layers of an ascending list, built from its highest element down.
  function Buckets(s: seq<real>): seq<Stack> {
    if s == [] then [] else Place(Buckets(s[1..]), s[0])
  }

  // The normalised altitudes in ascending order.
  function Arranged(altitudes: seq<real>): seq<real> {
    Sorted(Normalizations(altitudes), BY_REAL)
  }

  function StacksOf(altitudes: seq<real>): seq<Stack> {
    Buckets(Arranged(altitudes))
  }

  // Normalises and sorts the caller's slice in place, then builds the layers.
  method Stacks(a: array<real>) returns (stacks: seq<Stack>)
    modifies a
    ensures stacks == StacksOf(old(a[..]))
    ensures a[..] == Arranged(old(a[..]))
  {
    NormalizeAll(a);
    SortAscending(a);
    stacks := BuildStacks(a);
  }

  method NormalizeAll(a: array<real>)
    modifies a
    ensures a[..] == Normalizations(old(a[..]))
  {
    for i := 0 to a.Length
      invariant forall k :: 0 <= k < i ==> a[k] == NormalizeAltitude(old(a[k]))
      invariant forall k :: i <= k < a.Length ==> a[k] == old(a[k])
    {
      a[i] := NormalizeAltitude(a[i]);
    }
  }

  // The pass over the sorted slice, from its last element to its first.
  method BuildStacks(a: array<real>) returns (stacks: seq<Stack>)
    ensures stacks == Buckets(a[..])
  {
    stacks := [];
    var i := a.Length;
    while i > 0
      invariant 0 <= i <= a.Length
      invariant stacks == Buckets(a[i..])
    {
      i := i - 1;
      assert a[i..][1..] == a[i + 1..];
      if a[i] != 0.0 {
        if |stacks| == 0 {
          stacks := stacks + [Stack(a[i], 1)];
        } else {
          var j := |stacks| - 1;
          var highest := stacks[j].altitude;
          if a[i] <= highest - DEPTH {
            stacks := stacks + [Stack(a[i], 1)];
          } else {
            stacks := stacks[j := stacks[j].(count := stacks[j].count + 1)];
          }
        }
      }
    }
    assert a[0..] == a[..];
  }

  // ---- What the layers describe -------------------------------------------

  function CountIn(s: seq<real>, top: real): nat {
    if s == [] then 0 else (if InLayer(s[0], top) then 1 else 0) + CountIn(s[1..], top)
  }

  // Tops are spaced so that layers cannot overlap.
  ghost predicate Spaced(stacks: seq<Stack>) {
    forall i, j :: 0 <= i < j < |stacks| ==> stacks[j].altitude <= stacks[i].altitude - DEPTH
  }

  ghost predicate Counted(stacks: seq<Stack>, s: seq<real>) {
    forall j :: 0 <= j < |stacks| ==> stacks[j].count == CountIn(s, stacks[j].altitude)
  }

  ghost predicate TopsOccur(stacks: seq<Stack>, s: seq<real>) {
    forall j :: 0 <= j < |stacks| ==> stacks[j].altitude != 0.0 && stacks[j].altitude in s
  }

  ghost predicate LayerOf(stacks: seq<Stack>, j: int, x: real) {
    0 <= j < |stacks| && InLayer(x, stacks[j].altitude)
  }

  ghost predicate Covered(stacks: seq<Stack>, s: seq<real>) {
    forall x :: x in s && x != 0.0 ==> exists j :: LayerOf(stacks, j, x)
  }

  ghost predicate Describes(stacks: seq<Stack>, s: seq<real>) {
    Spaced(stacks) && Counted(stacks, s) && TopsOccur(stacks, s) && Covered(stacks, s)
  }

  ghost predicate Below(x: real, s: seq<real>) {
    x > 0.0 && forall y :: y in s ==> x <= y
  }

  // An altitude at or below everything placed so far opens a layer of its own
  // or joins the lowest one.
  predicate Opens(stacks: seq<Stack>, x: real) {
    |stacks| == 0 || x <= stacks[|stacks| - 1].altitude - DEPTH
  }

  lemma PlaceSpaces(stacks: seq<Stack>, s: seq<real>, x: real)
    requires Spaced(stacks) && TopsOccur(stacks, s) && Below(x, s)
    ensures Spaced(Place(stacks, x)) && TopsOccur(Place(stacks, x), [x] + s)
  {
    var p := Place(stacks, x);
    if Opens(stacks, x) {
      forall i | 0 <= i < |stacks| ensures x <= stacks[i].altitude - DEPTH {
        if i < |stacks| - 1 {
          assert stacks[|stacks| - 1].altitude <= stacks[i].altitude - DEPTH;
        }
      }
    } else {
      assert forall i :: 0 <= i < |p| ==> p[i].altitude == stacks[i].altitude;
    }
  }

  // Placing keeps every top where it was.
  lemma PlaceKeepsTops(stacks: seq<Stack>, x: real)
    ensures |stacks| <= |Place(stacks, x)|
    ensures forall i :: 0 <= i < |stacks| ==> Place(stacks, x)[i].altitude == stacks[i].altitude
  {
  }

  lemma PlaceCoversNewest(stacks: seq<Stack>, s: seq<real>, x: real)
    requires TopsOccur(stacks, s) && Below(x, s)
    ensures LayerOf(Place(stacks, x), |Place(stacks, x)| - 1, x)
  {
    if !Opens(stacks, x) {
      assert stacks[|stacks| - 1].altitude in s;
    }
  }

  lemma PlaceStillCovers(stacks: seq<Stack>, s: seq<real>, x: real, y: real)
    requires Covered(stacks, s) && y in s && y != 0.0
    ensures exists j :: LayerOf(Place(stacks, x), j, y)
  {
    PlaceKeepsTops(stacks, x);
    var j :| LayerOf(stacks, j, y);
    assert LayerOf(Place(stacks, x), j, y);
  }

  lemma PlaceCovers(stacks: seq<Stack>, s: seq<real>, x: real)
    requires Covered(stacks, s) && LayerOf(Place(stacks, x), |Place(stacks, x)| - 1, x)
    ensures Covered(Place(stacks, x), [x] + s)
  {
    forall y | y in [x] + s && y != 0.0 ensures exists j :: LayerOf(Place(stacks, x), j, y) {
      if y != x {
        PlaceStillCovers(stacks, s, x, y);
      }
    }
  }

  lemma {:induction false} NoneIn(s: seq<real>, top: real)
    requires forall y :: y in s ==> !InLayer(y, top)
    ensures CountIn(s, top) == 0
  {
    if s != [] {
      NoneIn(s[1..], top);
    }
  }

  lemma CountCons(s: seq<real>, x: real, top: real)
    ensures CountIn([x] + s, top) == CountIn(s, top) + if InLayer(x, top) then 1 else 0
  {
    assert ([x] + s)[1..] == s;
  }

  lemma OpenCounts(stacks: seq<Stack>, s: seq<real>, x: real)
    requires Spaced(stacks) && Counted(stacks, s) && Covered(stacks, s) && Below(x, s) && Opens(stacks, x)
    ensures Counted(Place(stacks, x), [x] + s)
  {
    forall i | 0 <= i < |stacks|
      ensures stacks[i].count == CountIn([x] + s, stacks[i].altitude) && x <= stacks[i].altitude - DEPTH
    {
      assert i < |stacks| - 1 ==> stacks[|stacks| - 1].altitude <= stacks[i].altitude - DEPTH;
      CountCons(s, x, stacks[i].altitude);
    }
    forall y | y in s ensures !InLayer(y, x) {
      assert x <= y;
      var j :| LayerOf(stacks, j, y);
    }
    NoneIn(s, x);
    CountCons(s, x, x);
  }

  lemma JoinCounts(stacks: seq<Stack>, s: seq<real>, x: real)
    requires Spaced(stacks) && TopsOccur(stacks, s) && Counted(stacks, s) && Below(x, s) && !Opens(stacks, x)
    ensures Counted(Place(stacks, x), [x] + s)
  {
    var n := |stacks| - 1;
    forall i | 0 <= i <= n
      ensures CountIn([x] + s, stacks[i].altitude) == stacks[i].count + if i == n then 1 else 0
    {
      CountCons(s, x, stacks[i].altitude);
      assert i < n ==> stacks[n].altitude <= stacks[i].altitude - DEPTH;
      assert stacks[n].altitude in s;
    }
  }

  lemma PlaceDescribes(stacks: seq<Stack>, s: seq<real>, x: real)
    requires Describes(stacks, s) && Below(x, s)
    ensures Describes(Place(stacks, x), [x] + s)
  {
    PlaceSpaces(stacks, s, x);
    PlaceCoversNewest(stacks, s, x);
    PlaceCovers(stacks, s, x);
    if Opens(stacks, x) {
      OpenCounts(stacks, s, x);
    } else {
      JoinCounts(stacks, s, x);
    }
  }

  lemma HeadIsBelow(s: seq<real>)
    requires Ordered(s, BY_REAL) && s != [] && s[0] > 0.0
    ensures Below(s[0], s[1..])
  {
    forall y | y in s[1..] ensures s[0] <= y {
      var k :| 0 <= k < |s| - 1 && s[1..][k] == y;
      assert BY_REAL(s[0], s[k + 1]);
    }
  }

  lemma TailIsOrdered(s: seq<real>)
    requires s != [] && Ordered(s, BY_REAL) && forall y :: y in s ==> y >= 0.0
    ensures Ordered(s[1..], BY_REAL) && forall y :: y in s[1..] ==> y >= 0.0
    ensures s[0] >= 0.0
  {
    assert s[0] in s;
    assert forall y :: y in s[1..] ==> y in s;
  }

  lemma {:induction false} BucketsDescribe(s: seq<real>)
    requires Ordered(s, BY_REAL) && forall y :: y in s ==> y >= 0.0
    ensures Describes(Buckets(s), s)
  {
    if s != [] {
      TailIsOrdered(s);
      BucketsDescribe(s[1..]);
      assert s == [s[0]] + s[1..];
      if s[0] != 0.0 {
        HeadIsBelow(s);
        PlaceDescribes(Buckets(s[1..]), s[1..], s[0]);
      } else {
        ZeroDescribes(Buckets(s[1..]), s[1..]);
      }
    }
  }

  lemma ZeroDescribes(stacks: seq<Stack>, s: seq<real>)
    requires Describes(stacks, s)
    ensures Describes(stacks, [0.0] + s)
  {
    forall j | 0 <= j < |stacks| ensures stacks[j].count == CountIn([0.0] + s, stacks[j].altitude) {
      CountCons(s, 0.0, stacks[j].altitude);
    }
  }

  function TotalCount(stacks: seq<Stack>): int {
    if stacks == [] then 0 else TotalCount(stacks[..|stacks| - 1]) + stacks[|stacks| - 1].count
  }

  lemma {:induction false} BucketsConserve(s: seq<real>)
    ensures TotalCount(Buckets(s)) == |s| - multiset(s)[0.0]
  {
    if s != [] {
      assert s == [s[0]] + s[1..];
      BucketsConserve(s[1..]);
      var b, p := Buckets(s[1..]), Place(Buckets(s[1..]), s[0]);
      if b != [] {
        assert p[..|p| - 1] == b[..|b| - 1] || p[..|p| - 1] == b;
      }
    }
  }

  // ---- Main results ---------------------------------------------------------

  lemma SortedAltitudes(a: seq<real>)
    ensures Ordered(Arranged(a), BY_REAL)
    ensures multiset(Arranged(a)) == multiset(Normalizations(a))
    ensures forall x :: x in Arranged(a) <==> x in Normalizations(a)
    ensures Describes(StacksOf(a), Arranged(a))
  {
    var n, s := Normalizations(a), Arranged(a);
    SortedIsArrangement(n, BY_REAL);
    assert forall x :: x in n ==> x >= 0.0;
    BucketsDescribe(s);
  }

  // The result does not depend on the order of the contacts.
  lemma StacksIgnoreOrder(a: seq<real>, b: seq<real>)
    requires multiset(Normalizations(a)) == multiset(Normalizations(b))
    ensures StacksOf(a) == StacksOf(b)
  {
    SortedAltitudes(a);
    SortedAltitudes(b);
    OrderedIsUnique(Arranged(a), Arranged(b), BY_REAL);
  }

  // No altitude is lost: the counts add up to the non-zero altitudes.
  lemma StacksConserve(a: seq<real>)
    ensures TotalCount(StacksOf(a)) == |a| - multiset(Normalizations(a))[0.0]
  {
    SortedAltitudes(a);
    BucketsConserve(Arranged(a));
  }

  lemma {:induction false} CountAppend(s: seq<real>, t: seq<real>, top: real)
    ensures CountIn(s + t, top) == CountIn(s, top) + CountIn(t, top)
  {
    if s == [] {
      assert s + t == t;
    } else {
      assert (s + t)[1..] == s[1..] + t;
      CountAppend(s[1..], t, top);
    }
  }

  // Removing one occurrence from the middle of a list.
  lemma Without(t: seq<real>, k: nat, top: real)
    requires k < |t|
    ensures multiset(t[..k] + t[k + 1..]) == multiset(t) - multiset{t[k]}
    ensures CountIn(t, top) == CountIn(t[..k] + t[k + 1..], top) + if InLayer(t[k], top) then 1 else 0
  {
    var front, back := t[..k], t[k + 1..];
    assert t == front + ([t[k]] + back);
    CountAppend(front, [t[k]] + back, top);
    CountAppend(front, back, top);
    CountCons(back, t[k], top);
  }

  lemma {:induction false} CountIgnoresOrder(s: seq<real>, t: seq<real>, top: real)
    requires multiset(s) == multiset(t)
    ensures CountIn(s, top) == CountIn(t, top)
  {
    if s == [] {
      assert |t| == |multiset(t)|;
    } else {
      assert s[0] in multiset(t);
      var k :| 0 <= k < |t| && t[k] == s[0];
      Without(t, k, top);
      TailElements(s);
      CountIgnoresOrder(s[1..], t[..k] + t[k + 1..], top);
    }
  }

  // Each non-zero altitude lies in exactly one layer, and each layer counts
  // exactly the altitudes that lie in it.
  lemma StacksPartition(a: seq<real>)
    ensures forall i :: 0 <= i < |a| && NormalizeAltitude(a[i]) != 0.0 ==>
      exists j :: LayerOf(StacksOf(a), j, NormalizeAltitude(a[i]))
    ensures forall x, i, j :: LayerOf(StacksOf(a), i, x) && LayerOf(StacksOf(a), j, x) ==> i == j
    ensures forall j :: 0 <= j < |StacksOf(a)| ==>
      StacksOf(a)[j].count == CountIn(Normalizations(a), StacksOf(a)[j].altitude)
  {
    var n, s, st := Normalizations(a), Arranged(a), StacksOf(a);
    SortedAltitudes(a);
    forall i | 0 <= i < |a| && NormalizeAltitude(a[i]) != 0.0
      ensures exists j :: LayerOf(st, j, NormalizeAltitude(a[i]))
    {
      assert n[i] in n;
    }
    forall j | 0 <= j < |st| ensures st[j].count == CountIn(n, st[j].altitude) {
      CountIgnoresOrder(s, n, st[j].altitude);
    }
  }

  // The first layer is named by the highest altitude.
  lemma FirstTopIsHighest(a: seq<real>)
    ensures StacksOf(a) == [] <==> forall i :: 0 <= i < |a| ==> NormalizeAltitude(a[i]) == 0.0
    ensures StacksOf(a) != [] ==> StacksOf(a)[0].altitude in Normalizations(a)
    ensures StacksOf(a) != [] ==> forall i :: 0 <= i < |a| ==> NormalizeAltitude(a[i]) <= StacksOf(a)[0].altitude
  {
    var st := StacksOf(a);
    SortedAltitudes(a);
    StacksPartition(a);
    assert st != [] ==> st[0].altitude != 0.0 && st[0].altitude in Normalizations(a);
    if st != [] {
      assert exists i :: 0 <= i < |a| && NormalizeAltitude(a[i]) == st[0].altitude;
      assert st[0].altitude >= 0.0;
    }
    forall i | 0 <= i < |a| && st != [] ensures NormalizeAltitude(a[i]) <= st[0].altitude {
      if NormalizeAltitude(a[i]) != 0.0 {
        var j :| LayerOf(st, j, NormalizeAltitude(a[i]));
        assert j != 0 ==> st[j].altitude <= st[0].altitude - DEPTH;
      }
    }
  }

  // Tops are reported 10,000 ft or more apart, with one exception: a layer at
  // 100 ft directly below one at 10,000 ft.
  lemma TopsAreSpaced(a: seq<real>, j: nat)
    requires j + 1 < |StacksOf(a)|
    ensures StacksOf(a)[j + 1].altitude <= StacksOf(a)[j].altitude - 10000.0
       <==> !(StacksOf(a)[j].altitude == 10000.0 && StacksOf(a)[j + 1].altitude == 100.0)
  {
    var high, low := StacksOf(a)[j].altitude, StacksOf(a)[j + 1].altitude;
    TopFacts(a, j);
    TopFacts(a, j + 1);
    var m: nat :| high == Hundreds(m) && (m <= 10 || m % 10 == 0);
    var n: nat :| low == Hundreds(n) && (n <= 10 || n % 10 == 0);
    RungGap(m, n);
  }

  lemma TopFacts(a: seq<real>, j: nat)
    requires j < |StacksOf(a)|
    ensures Speakable(StacksOf(a)[j].altitude) && StacksOf(a)[j].altitude != 0.0
    ensures j > 0 ==> StacksOf(a)[j].altitude <= StacksOf(a)[j - 1].altitude - DEPTH
  {
    SortedAltitudes(a);
    TopIsSpeakable(a, StacksOf(a)[j].altitude);
  }

  lemma RungGap(m: nat, n: nat)
    requires (m <= 10 || m % 10 == 0) && (n <= 10 || n % 10 == 0) && n >= 1
    requires Hundreds(n) <= Hundreds(m) - DEPTH
    ensures Hundreds(n) <= Hundreds(m) - 10000.0 <==> !(m == 100 && n == 1)
  {
    assert 100 * n <= 100 * m - 9900;
  }

  lemma TopIsSpeakable(a: seq<real>, x: real)
    requires x in Normalizations(a)
    ensures Speakable(x)
  {
    var i :| 0 <= i < |a| && x == NormalizeAltitude(a[i]);
    NormalizeIsSpeakable(a[i]);
  }

  // ---- Optimality -------------------------------------------------------------

  ghost predicate CoversTops(windows: seq<real>, tops: seq<real>) {
    forall t :: t in tops ==> exists k :: 0 <= k < |windows| && InLayer(t, windows[k])
  }

  ghost predicate FarApart(tops: seq<real>) {
    forall i, j :: 0 <= i < j < |tops| ==> tops[j] <= tops[i] - DEPTH
  }

  // Two tops never share a window, so a cover has a window for each.
  lemma {:induction false} EachTopNeedsAWindow(windows: seq<real>, tops: seq<real>)
    requires FarApart(tops) && CoversTops(windows, tops)
    ensures |tops| <= |windows|
  {
    if tops != [] {
      var t, rest := tops[0], tops[1..];
      assert t in tops;
      var k :| 0 <= k < |windows| && InLayer(t, windows[k]);
      var others := windows[..k] + windows[k + 1..];
      forall r | r in rest ensures exists m :: 0 <= m < |others| && InLayer(r, others[m]) {
        assert r in tops && r <= t - DEPTH;
        var m :| 0 <= m < |windows| && InLayer(r, windows[m]);
        assert m != k;
        assert others[if m < k then m else m - 1] == windows[m];
      }
      EachTopNeedsAWindow(others, rest);
    }
  }

  // However a set of windows of the same depth is chosen, covering every
  // non-zero altitude takes at least as many windows as there are STACKS.
  lemma StacksAreFewest(a: seq<real>, windows: seq<real>)
    requires forall i :: 0 <= i < |a| && NormalizeAltitude(a[i]) != 0.0 ==>
      exists k :: 0 <= k < |windows| && InLayer(NormalizeAltitude(a[i]), windows[k])
    ensures |StacksOf(a)| <= |windows|
  {
    var st := StacksOf(a);
    var tops := Tops(st);
    SortedAltitudes(a);
    forall t | t in tops ensures exists k :: 0 <= k < |windows| && InLayer(t, windows[k]) {
      assert t != 0.0 && t in Normalizations(a);
      var i :| 0 <= i < |a| && t == NormalizeAltitude(a[i]);
    }
    EachTopNeedsAWindow(windows, tops);
  }

  // ---- Groups and BRAA --------------------------------------------------------

  function Tops(stacks: seq<Stack>): (tops: seq<real>)
    ensures |tops| == |stacks|
    ensures forall i :: 0 <= i < |stacks| ==> tops[i] == stacks[i].altitude
  {
    seq(|stacks|, i requires 0 <= i < |stacks| => stacks[i].altitude)
  }

  // The highest altitude of a group of contacts at the given altitudes.
  function GroupAltitude(contacts: seq<real>): real {
    var stacks := StacksOf(contacts);
    if |stacks| == 0 then 0.0 else stacks[0].altitude
  }

  function GroupAltitudes(contacts: seq<real>): seq<real> {
    Tops(StacksOf(contacts))
  }

  // The altitude part of a BRAA; its bearing, range and aspect are carried along.
  datatype BRA = BRA(stacks: seq<Stack>) {
    function Altitude(): real {
      if |stacks| == 0 then 0.0 else NormalizeAltitude(stacks[0].altitude)
    }
  }

  function NewBRA(altitudes: seq<real>): BRA {
    BRA(StacksOf(altitudes))
  }

  function Singles(tops: seq<real>): (stacks: seq<Stack>)
    ensures |stacks| == |tops|
    ensures forall i :: 0 <= i < |tops| ==> stacks[i] == Stack(tops[i], 1)
  {
    seq(|tops|, i requires 0 <= i < |tops| => Stack(tops[i], 1))
  }

  function Reverse(s: seq<real>): (r: seq<real>)
    ensures |r| == |s|
    ensures forall i :: 0 <= i < |s| ==> r[i] == s[|s| - 1 - i]
  {
    seq(|s|, i requires 0 <= i < |s| => s[|s| - 1 - i])
  }

  lemma {:induction false} ReverseKeepsElements(s: seq<real>)
    ensures multiset(Reverse(s)) == multiset(s)
  {
    if s != [] {
      var n := |s| - 1;
      ReverseKeepsElements(s[..n]);
      assert s == s[..n] + [s[n]];
      assert Reverse(s) == [s[n]] + Reverse(s[..n]);
    }
  }

  lemma AppendSingle(tops: seq<real>)
    requires tops != [] && FarApart(tops) && tops[|tops| - 1] != 0.0
    ensures Place(Singles(tops[..|tops| - 1]), tops[|tops| - 1]) == Singles(tops)
  {
  }

  lemma {:induction false} BucketsOfTops(tops: seq<real>)
    requires FarApart(tops) && forall t :: t in tops ==> t != 0.0
    ensures Buckets(Reverse(tops)) == Singles(tops)
  {
    if tops != [] {
      var n := |tops| - 1;
      assert forall t :: t in tops[..n] ==> t in tops;
      BucketsOfTops(tops[..n]);
      assert Reverse(tops)[1..] == Reverse(tops[..n]);
      assert Reverse(tops)[0] == tops[n] && tops[n] in tops;
      AppendSingle(tops);
    } else {
      assert Reverse(tops) == [];
    }
  }

  // A BRAA built from a group's layers repeats their tops in order, one contact
  // each, and reports the group's altitude.
  lemma RestackingIsAFixedPoint(contacts: seq<real>)
    ensures NewBRA(GroupAltitudes(contacts)).stacks == Singles(GroupAltitudes(contacts))
    ensures NewBRA(GroupAltitudes(contacts)).Altitude() == GroupAltitude(contacts)
  {
    var tops := GroupAltitudes(contacts);
    TopsAreFixed(contacts);
    SortedIsArrangement(tops, BY_REAL);
    ReverseKeepsElements(tops);
    assert Ordered(Reverse(tops), BY_REAL);
    OrderedIsUnique(Sorted(tops, BY_REAL), Reverse(tops), BY_REAL);
    BucketsOfTops(tops);
    assert tops != [] ==> NormalizeAltitude(tops[0]) == tops[0];
  }

  lemma TopsAreFixed(contacts: seq<real>)
    ensures Normalizations(GroupAltitudes(contacts)) == GroupAltitudes(contacts)
    ensures FarApart(GroupAltitudes(contacts)) && forall t :: t in GroupAltitudes(contacts) ==> t != 0.0
  {
    var st, tops := StacksOf(contacts), GroupAltitudes(contacts);
    SortedAltitudes(contacts);
    forall i | 0 <= i < |tops| ensures NormalizeAltitude(tops[i]) == tops[i] {
      assert st[i].altitude in Arranged(contacts);
      TopIsSpeakable(contacts, tops[i]);
      NormalizeFixesSpeakable(tops[i]);
    }
    assert Normalizations(tops) == tops;
  }
}
