/**
 The order in which a PICTURE ranks groups. Distances are in nautical miles. The
 comparison tolerates small differences, which makes it intransitive; what it
 does guarantee is stated by tiers.
 */
module ThreatOrder {
  import opened Basics
  import opened Trackfiles
  import opened Encyclopedias
  import opened Sorting

  // ---- Facts about a group's contacts -----------------------------------------------------

  function RadiusOf(data: Encyclopedia, t: Trackfile): real {
    match data(t.contact.acmiName)
    case Some(aircraft) => aircraft.ThreatRadius()
    case None => SAR2_AR1_THREAT
  }

  // Without an entry in the table, the radius is by role: none for the unarmed, 3 NM
  // for helicopters, 15 for attack aircraft, and 25 for all others, known or not.
  lemma RadiusByRole(data: Encyclopedia, t: Trackfile)
    requires data(t.contact.acmiName).Some? ==> data(t.contact.acmiName).value.threatRadius == 0.0
    ensures var tags := if data(t.contact.acmiName).Some? then data(t.contact.acmiName).value.tags else {};
      && (RadiusOf(data, t) == 0.0 <==> Unarmed in tags)
      && (RadiusOf(data, t) == 3.0 <==> RotaryWingTag in tags && Unarmed !in tags)
      && (RadiusOf(data, t) == 15.0 <==> Attack in tags && RotaryWingTag !in tags && Unarmed !in tags)
      && (RadiusOf(data, t) == 25.0 <==> Attack !in tags && RotaryWingTag !in tags && Unarmed !in tags)
  {
  }

  // The highest threat radius of the contacts, and never below zero.
  method ThreatRadius(data: Encyclopedia, contacts: seq<Trackfile>) returns (highest: real)
    ensures highest >= 0.0
    ensures forall t :: t in contacts ==> RadiusOf(data, t) <= highest
    ensures highest == 0.0 || exists t :: t in contacts && RadiusOf(data, t) == highest
  {
    highest := 0.0;
    for i := 0 to |contacts|
      invariant highest >= 0.0
      invariant forall k :: 0 <= k < i ==> RadiusOf(data, contacts[k]) <= highest
      invariant highest == 0.0 || exists t :: t in contacts && RadiusOf(data, t) == highest
    {
      var radius := RadiusOf(data, contacts[i]);
      if radius > highest {
        assert contacts[i] in contacts;
        highest := radius;
      }
    }
  }

  predicate IsFighterType(data: Encyclopedia, t: Trackfile) {
    match data(t.contact.acmiName)
    case Some(aircraft) => Fighter in aircraft.tags
    case None => false
  }

  method IsFighter(data: Encyclopedia, contacts: seq<Trackfile>) returns (result: bool)
    ensures result <==> exists t :: t in contacts && data(t.contact.acmiName).Some?
                                  && Fighter in data(t.contact.acmiName).value.tags
  {
    result := false;
    for i := 0 to |contacts|
      invariant !result && forall k :: 0 <= k < i ==> !IsFighterType(data, contacts[k])
    {
      if IsFighterType(data, contacts[i]) {
        assert contacts[i] in contacts;
        return true;
      }
    }
  }

  // ---- The comparison ---------------------------------------------------------------------

  // What the comparison looks at: the distance is that of the group's centre
  // from the centre of the picture.
  datatype Ranked = Ranked(isHelo: bool, distance: real, threatRadius: real, isFighter: bool, altitude: real)

  // Ranks a group by its contacts; the first of them gives its category.
  method Rank(data: Encyclopedia, contacts: seq<Trackfile>, distance: real, altitude: real) returns (g: Ranked)
    requires contacts != []
    ensures g.isHelo <==>
      data(contacts[0].contact.acmiName).Some? && data(contacts[0].contact.acmiName).value.Category() == RotaryWing
    ensures g.isFighter <==> exists t :: t in contacts && data(t.contact.acmiName).Some?
                                      && Fighter in data(t.contact.acmiName).value.tags
    ensures (forall t :: t in contacts ==> RadiusOf(data, t) <= g.threatRadius)
    ensures g.threatRadius == 0.0 || exists t :: t in contacts && RadiusOf(data, t) == g.threatRadius
    ensures g.distance == distance && g.altitude == altitude && (distance >= 0.0 ==> Sane(g))
  {
    var aircraft := data(contacts[0].contact.acmiName);
    var isHelo := aircraft.Some? && aircraft.value.Category() == RotaryWing;
    var threatRadius := ThreatRadius(data, contacts);
    var isFighter := IsFighter(data, contacts);
    g := Ranked(isHelo, distance, threatRadius, isFighter, altitude);
  }

  predicate Sane(g: Ranked) {
    g.distance >= 0.0 && g.threatRadius >= 0.0
  }

  // None stands for NaN: a zero radius divides zero by zero.
  function WeightedDistance(distance: real, threatRadius: real): Option<real>
    requires distance >= 0.0 && threatRadius >= 0.0
  {
    var d := if distance > threatRadius then threatRadius else distance;
    if threatRadius == 0.0 then None else Some(InProportion(d, threatRadius))
  }

  function InProportion(d: real, r: real): real
    requires r > 0.0
  {
    (d / r) * d
  }

  function AbsDifference(x: real, y: real): real {
    if x < y then y - x else x - y
  }

  // Every comparison with NaN is false.
  predicate DifferByMoreThan3(x: Option<real>, y: Option<real>) {
    x.Some? && y.Some? && AbsDifference(x.value, y.value) > 3.0
  }

  predicate IsThreat(g: Ranked) {
    g.distance < g.threatRadius
  }

  // Negative when a is the higher threat.
  function CompareThreat(a: Ranked, b: Ranked): int
    requires Sane(a) && Sane(b)
  {
    var weightedA := WeightedDistance(a.distance, a.threatRadius);
    var weightedB := WeightedDistance(b.distance, b.threatRadius);
    if !a.isHelo && b.isHelo then -1
    else if a.isHelo && !b.isHelo then 1
    else if IsThreat(a) && !IsThreat(b) then -1
    else if !IsThreat(a) && IsThreat(b) then 1
    else if IsThreat(a) && IsThreat(b) && a.isFighter && !b.isFighter then -1
    else if IsThreat(a) && IsThreat(b) && !a.isFighter && b.isFighter then 1
    else if DifferByMoreThan3(weightedA, weightedB) then (if weightedA.value < weightedB.value then -1 else 1)
    else if AbsDifference(a.distance, b.distance) > 3.0 then (if a.distance < b.distance then -1 else 1)
    else if a.altitude > b.altitude then -1
    else if a.altitude < b.altitude then 1
    else 0
  }

  // Swapping the arguments flips the verdict, zero radii included.
  lemma CompareIsAntisymmetric(a: Ranked, b: Ranked)
    requires Sane(a) && Sane(b)
    ensures CompareThreat(a, b) == -CompareThreat(b, a)
  {
    var x := WeightedDistance(a.distance, a.threatRadius);
    var y := WeightedDistance(b.distance, b.threatRadius);
    assert DifferByMoreThan3(x, y) == DifferByMoreThan3(y, x);
  }

  ghost predicate IsCircle(a: Ranked, b: Ranked, c: Ranked) {
    && Sane(a) && Sane(b) && Sane(c)
    && CompareThreat(a, b) < 0 && CompareThreat(b, c) < 0 && CompareThreat(c, a) < 0
  }

  // Three groups in a circle: each is the higher threat of the next.
  lemma CompareIsNotTransitive()
    ensures exists a, b, c :: IsCircle(a, b, c)
  {
    var a := Ranked(false, 34.0, 25.0, true, 30000.0);
    var b := Ranked(false, 32.0, 25.0, true, 20000.0);
    var c := Ranked(false, 30.0, 25.0, true, 10000.0);
    assert CompareThreat(a, b) < 0;
    assert CompareThreat(b, c) < 0;
    assert CompareThreat(c, a) < 0;
    assert IsCircle(a, b, c);
  }

  // ---- Tiers -------------------------------------------------------------------------------

  // Airplanes before helicopters; within each, fighters inside their threat
  // radius, others inside it, and everyone outside it.
  function Tier(g: Ranked): nat {
    (if g.isHelo then 3 else 0) + if g.distance >= g.threatRadius then 2 else if g.isFighter then 0 else 1
  }

  // A strictly higher tier always wins, so the comparison never prefers a
  // lower one.
  lemma CompareRespectsTiers(a: Ranked, b: Ranked)
    requires Sane(a) && Sane(b)
    ensures Tier(a) < Tier(b) ==> CompareThreat(a, b) < 0
    ensures CompareThreat(a, b) <= 0 ==> Tier(a) <= Tier(b)
  {
  }

  // ---- Within a tier ------------------------------------------------------------------------

  lemma SquareGrows(x: real, y: real, r: real)
    requires 0.0 <= x <= y && r > 0.0
    ensures InProportion(x, r) <= InProportion(y, r)
  {
    var p, q := x / r, y / r;
    assert x == p * r && y == q * r;
    assert q - p == (y - x) / r >= 0.0;
    assert q * y - p * x == q * (y - x) + (q - p) * x;
    assert q * (y - x) >= 0.0 && (q - p) * x >= 0.0;
  }

  // Of groups of one tier and threat radius, the nearer by more than 3 NM is the
  // higher threat.
  lemma NearerIsHigher(a: Ranked, b: Ranked)
    requires Sane(a) && Sane(b) && Tier(a) == Tier(b) && a.threatRadius == b.threatRadius
    requires a.distance + 3.0 < b.distance
    ensures CompareThreat(a, b) < 0
  {
    if a.threatRadius > 0.0 && IsThreat(a) {
      SquareGrows(a.distance, b.distance, a.threatRadius);
    }
  }

  // At one distance, the altitude decides, the higher first.
  lemma HigherAltitudeIsHigher(a: Ranked, b: Ranked)
    requires Sane(a) && Sane(b) && Tier(a) == Tier(b) && a.threatRadius == b.threatRadius && a.distance == b.distance
    ensures CompareThreat(a, b) < 0 <==> a.altitude > b.altitude
    ensures CompareThreat(a, b) == 0 <==> a.altitude == b.altitude
  {
  }

  function SquareOver(d: real, r: real): real
    requires r > 0.0
  {
    d * d / r
  }

  // The square of the distance over the radius inside it, the radius outside.
  function Weight(g: Ranked): real
    requires g.threatRadius > 0.0
  {
    if g.distance < g.threatRadius then SquareOver(g.distance, g.threatRadius) else g.threatRadius
  }

  lemma Squared(d: real, r: real)
    requires r > 0.0
    ensures InProportion(d, r) == SquareOver(d, r)
  {
    var p := d / r;
    assert d == p * r;
    assert d * d == p * d * r;
  }

  lemma Whole(r: real)
    requires r > 0.0
    ensures InProportion(r, r) == r
  {
    assert r / r == 1.0;
  }

  lemma WeightedIsWeight(g: Ranked)
    requires Sane(g) && g.threatRadius > 0.0
    ensures WeightedDistance(g.distance, g.threatRadius) == Some(Weight(g))
  {
    Squared(g.distance, g.threatRadius);
    Whole(g.threatRadius);
  }

  lemma ByWeight(a: Ranked, b: Ranked, x: Option<real>, y: Option<real>)
    requires Sane(a) && Sane(b) && Tier(a) == Tier(b)
    requires x == WeightedDistance(a.distance, a.threatRadius) && y == WeightedDistance(b.distance, b.threatRadius)
    ensures x.Some? && y.Some? && x.value + 3.0 < y.value ==> CompareThreat(a, b) < 0
    ensures (x.None? || y.None? || -3.0 <= x.value - y.value <= 3.0) && a.distance + 3.0 < b.distance ==> CompareThreat(a, b) < 0
    ensures (x.None? || y.None? || -3.0 <= x.value - y.value <= 3.0) && -3.0 <= a.distance - b.distance <= 3.0 ==>
      (CompareThreat(a, b) < 0 <==> a.altitude > b.altitude) && (CompareThreat(a, b) == 0 <==> a.altitude == b.altitude)
  {
  }

  // Inside their threat radii, what counts first is the distance in proportion to
  // the radius: the square of the distance over the radius.
  lemma DeeperIsHigher(a: Ranked, b: Ranked)
    requires Sane(a) && Sane(b) && Tier(a) == Tier(b) && a.distance < a.threatRadius && b.distance < b.threatRadius
    requires SquareOver(a.distance, a.threatRadius) + 3.0 < SquareOver(b.distance, b.threatRadius)
    ensures CompareThreat(a, b) < 0
  {
    WeightedIsWeight(a);
    WeightedIsWeight(b);
    ByWeight(a, b, Some(Weight(a)), Some(Weight(b)));
  }

  // Outside them, what counts first is the radius: the smaller by more than 3 NM
  // is the higher threat, be it nearer or not.
  lemma SmallerRadiusIsHigher(a: Ranked, b: Ranked)
    requires Sane(a) && Sane(b) && Tier(a) == Tier(b) && a.distance >= a.threatRadius && b.distance >= b.threatRadius
    requires 0.0 < a.threatRadius && a.threatRadius + 3.0 < b.threatRadius
    ensures CompareThreat(a, b) < 0
  {
    WeightedIsWeight(a);
    WeightedIsWeight(b);
    ByWeight(a, b, Some(a.threatRadius), Some(b.threatRadius));
  }

  // When those are within 3 NM of each other, or a radius is zero, the nearer by
  // more than 3 NM is the higher threat, and else the one higher up.
  lemma CloseCallsByDistance(a: Ranked, b: Ranked)
    requires Sane(a) && Sane(b) && Tier(a) == Tier(b)
    requires a.threatRadius == 0.0 || b.threatRadius == 0.0 || -3.0 <= Weight(a) - Weight(b) <= 3.0
    ensures a.distance + 3.0 < b.distance ==> CompareThreat(a, b) < 0
    ensures -3.0 <= a.distance - b.distance <= 3.0 ==>
      (CompareThreat(a, b) < 0 <==> a.altitude > b.altitude) && (CompareThreat(a, b) == 0 <==> a.altitude == b.altitude)
  {
    if a.threatRadius > 0.0 {
      WeightedIsWeight(a);
    }
    if b.threatRadius > 0.0 {
      WeightedIsWeight(b);
    }
    ByWeight(a, b, WeightedDistance(a.distance, a.threatRadius), WeightedDistance(b.distance, b.threatRadius));
  }

  // No group is directly followed by a higher threat.
  ghost predicate NoInversion(groups: seq<Ranked>) {
    && (forall i :: 0 <= i < |groups| ==> Sane(groups[i]))
    && forall i :: 0 <= i < |groups| - 1 ==> CompareThreat(groups[i], groups[i + 1]) <= 0
  }

  lemma {:induction false} TiersAreMonotone(groups: seq<Ranked>, i: nat, j: nat)
    requires NoInversion(groups) && i <= j < |groups|
    ensures Tier(groups[i]) <= Tier(groups[j])
  {
    if i < j {
      TiersAreMonotone(groups, i, j - 1);
      assert CompareThreat(groups[j - 1], groups[j - 1 + 1]) <= 0;
      CompareRespectsTiers(groups[j - 1], groups[j]);
    }
  }

  // Nor by one of its tier and radius that is more than 3 NM nearer, or as near
  // and higher up.
  lemma NeighboursAreNearest(groups: seq<Ranked>, i: nat)
    requires NoInversion(groups) && i + 1 < |groups|
    requires Tier(groups[i]) == Tier(groups[i + 1]) && groups[i].threatRadius == groups[i + 1].threatRadius
    ensures groups[i].distance <= groups[i + 1].distance + 3.0
    ensures groups[i].distance == groups[i + 1].distance ==> groups[i].altitude >= groups[i + 1].altitude
  {
    var a, b := groups[i], groups[i + 1];
    assert CompareThreat(a, b) <= 0;
    CompareIsAntisymmetric(a, b);
    if b.distance + 3.0 < a.distance {
      NearerIsHigher(b, a);
    }
    if a.distance == b.distance {
      HigherAltitudeIsHigher(a, b);
    }
  }

  // The total and the first three.
  method TopOfPicture(groups: seq<Ranked>) returns (count: nat, top: seq<Ranked>)
    requires NoInversion(groups)
    ensures count == |groups| && top == groups[..if |groups| < 3 then |groups| else 3]
    ensures forall i, j :: 0 <= i < |top| <= j < |groups| ==> Tier(top[i]) <= Tier(groups[j])
  {
    var capacity := if |groups| < 3 then |groups| else 3;
    top := [];
    for i := 0 to capacity
      invariant top == groups[..i]
    {
      top := top + [groups[i]];
    }
    count := |groups|;
    forall i, j | 0 <= i < |top| <= j < |groups| ensures Tier(top[i]) <= Tier(groups[j]) {
      TiersAreMonotone(groups, i, j);
    }
  }

  // ---- Such an order exists --------------------------------------------------------------------

  const BY_THREAT: (Ranked, Ranked) -> bool := (a, b) => Sane(a) && Sane(b) && CompareThreat(a, b) <= 0

  lemma {:induction false} InsertKeepsNoInversion(x: Ranked, groups: seq<Ranked>)
    requires Sane(x) && NoInversion(groups)
    ensures NoInversion(Insert(x, groups, BY_THREAT))
    ensures groups != [] ==> Insert(x, groups, BY_THREAT)[0] == if BY_THREAT(x, groups[0]) then x else groups[0]
  {
    if groups != [] {
      CompareIsAntisymmetric(x, groups[0]);
      if !BY_THREAT(x, groups[0]) {
        InsertKeepsNoInversion(x, groups[1..]);
        HeadFits(groups, Insert(x, groups[1..], BY_THREAT));
      } else {
        HeadFits([x] + groups, groups);
      }
    }
  }

  lemma HeadFits(groups: seq<Ranked>, rest: seq<Ranked>)
    requires groups != [] && Sane(groups[0]) && rest != [] && NoInversion(rest)
    requires CompareThreat(groups[0], rest[0]) <= 0
    ensures NoInversion([groups[0]] + rest)
  {
    var all := [groups[0]] + rest;
    forall i | 0 <= i < |all| - 1 ensures CompareThreat(all[i], all[i + 1]) <= 0 {
      if i > 0 {
        assert all[i] == rest[i - 1] && all[i + 1] == rest[i - 1 + 1];
      }
    }
  }

  // Although the comparison is intransitive, insertion sort arranges any groups
  // without an inversion.
  lemma {:induction false} InsertionSortLeavesNoInversion(groups: seq<Ranked>)
    requires forall i :: 0 <= i < |groups| ==> Sane(groups[i])
    ensures NoInversion(Sorted(groups, BY_THREAT))
    ensures multiset(Sorted(groups, BY_THREAT)) == multiset(groups)
  {
    SortedKeepsElements(groups, BY_THREAT);
    if groups != [] {
      InsertionSortLeavesNoInversion(groups[1..]);
      InsertKeepsNoInversion(groups[0], Sorted(groups[1..], BY_THREAT));
    }
  }
}
