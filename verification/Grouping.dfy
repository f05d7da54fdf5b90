/**
 Grouping of contacts: a depth-first search that appends to one growing list and
 scans the live contacts anew at every step, in any order.
 */
module Grouping {
  import opened Basics
  import opened Trackfiles
  import opened Encyclopedias

  // The live contacts and what is needed to compare them. Distances are in
  // nautical miles, speeds in knots, heights in metres.
  datatype Airspace = Airspace(
    contacts: map<ID, Trackfile>,
    data: Encyclopedia,
    dist: (Point, Point) -> real,
    speed: Trackfile -> real)

  const SPREAD: real := 5.0

  predicate IsLive(w: Airspace, t: Trackfile) {
    t.contact.id in w.contacts && w.contacts[t.contact.id] == t
  }

  predicate IsValidTrack(w: Airspace, t: Trackfile) {
    !t.IsLastKnownPointZero()
    && match t.LastKnown().agl
       case Some(agl) => agl > 10.0
       case None => w.speed(t) > 50.0
  }

  function CategoryOf(w: Airspace, t: Trackfile): Category {
    match w.data(t.contact.acmiName)
    case Some(aircraft) => aircraft.Category()
    case None => FixedWing
  }

  predicate IsMatch(w: Airspace, t: Trackfile, coalition: Coalition, filter: Category) {
    && t.contact.coalition == coalition
    && IsValidTrack(w, t)
    && match w.data(t.contact.acmiName)
       case Some(aircraft) => aircraft.Category() == filter || filter == AnyAircraft
       case None => true
  }

  function RoleTag(w: Airspace, t: Trackfile): Option<Tag> {
    match w.data(t.contact.acmiName)
    case Some(aircraft) =>
      if Fighter in aircraft.tags then Some(Fighter)
      else if Attack in aircraft.tags then Some(Attack)
      else if Unarmed in aircraft.tags then Some(Unarmed)
      else None
    case None => None
  }

  predicate PassesRole(w: Airspace, role: Option<Tag>, other: Trackfile) {
    match role
    case Some(tag) => w.data(other.contact.acmiName).Some? && tag in w.data(other.contact.acmiName).value.tags
    case None => true
  }

  // `other` may join a group of this category next to `this`. The relation has
  // a direction.
  predicate Linked(w: Airspace, category: Category, lead: Trackfile, other: Trackfile) {
    && IsMatch(w, other, lead.contact.coalition, category)
    && PassesRole(w, RoleTag(w, lead), other)
    && w.dist(other.LastKnown().point, lead.LastKnown().point) < SPREAD
  }

  // ---- Specification: chains of links --------------------------------------------------------

  // p leads from a to b: each next contact is live and linked to the one before.
  ghost predicate IsChain(w: Airspace, category: Category, p: seq<Trackfile>, a: Trackfile, b: Trackfile) {
    if p == [] then a == b
    else IsLive(w, p[0]) && Linked(w, category, a, p[0]) && IsChain(w, category, p[1..], p[0], b)
  }

  ghost predicate Reaches(w: Airspace, category: Category, a: Trackfile, b: Trackfile) {
    exists p :: IsChain(w, category, p, a, b)
  }

  // The group of a seed: the seed first, then what chains of links reach, each
  // once. A seed without a position is alone.
  ghost predicate IsGroupOf(w: Airspace, seed: Trackfile, ts: seq<Trackfile>) {
    && ts != [] && ts[0] == seed && DistinctIDs(ts)
    && (seed.IsLastKnownPointZero() ==> ts == [seed])
    && (!seed.IsLastKnownPointZero() ==> forall t :: t in ts <==> Reaches(w, CategoryOf(w, seed), seed, t))
  }

  lemma ReachesItself(w: Airspace, category: Category, a: Trackfile)
    ensures Reaches(w, category, a, a)
  {
    assert IsChain(w, category, [], a, a);
  }

  lemma ReachesThrough(w: Airspace, category: Category, a: Trackfile, b: Trackfile, c: Trackfile)
    requires IsLive(w, b) && Linked(w, category, a, b) && Reaches(w, category, b, c)
    ensures Reaches(w, category, a, c)
  {
    var p :| IsChain(w, category, p, b, c);
    assert ([b] + p)[1..] == p;
    assert IsChain(w, category, [b] + p, a, c);
  }

  // ---- The search ---------------------------------------------------------------------------

  class Group {
    var contacts: seq<Trackfile>

    constructor (seed: Trackfile)
      ensures contacts == [seed]
    {
      contacts := [seed];
    }
  }

  function IDsOf(ts: seq<Trackfile>): set<ID> {
    set t | t in ts :: t.contact.id
  }

  // No two members share an ID, and none is an outdated copy of a live contact.
  predicate Proper(w: Airspace, ts: seq<Trackfile>) {
    DistinctIDs(ts) && forall t :: t in ts && t.contact.id in w.contacts ==> IsLive(w, t)
  }

  // Every live contact linked to t is a member.
  predicate Explored(w: Airspace, category: Category, ts: seq<Trackfile>, t: Trackfile) {
    forall id :: id in w.contacts && Linked(w, category, t, w.contacts[id]) ==> w.contacts[id] in ts
  }

  lemma ProperAppend(w: Airspace, ts: seq<Trackfile>, t: Trackfile)
    requires Proper(w, ts) && IsLive(w, t) && t.contact.id !in IDsOf(ts)
    ensures Proper(w, ts + [t]) && IDsOf(ts + [t]) == IDsOf(ts) + {t.contact.id}
  {
    forall i | 0 <= i < |ts| ensures ts[i].contact.id != t.contact.id {
      assert ts[i] in ts;
    }
  }

  lemma AlreadyMember(w: Airspace, ts: seq<Trackfile>, t: Trackfile)
    requires Proper(w, ts) && IsLive(w, t) && t.contact.id in IDsOf(ts)
    ensures t in ts
  {
  }

  lemma FewerOutside(w: Airspace, before: set<ID>, after: set<ID>, id: ID)
    requires before <= after && id in w.contacts && id !in before && id in after
    ensures |w.contacts.Keys - after| < |w.contacts.Keys - before|
  {
    var outside, left := w.contacts.Keys - before, w.contacts.Keys - after;
    assert left <= outside - {id};
    SubsetSize(left, outside - {id});
  }

  lemma {:induction false} SubsetSize(a: set<ID>, b: set<ID>)
    requires a <= b
    ensures |a| <= |b|
  {
    if a != {} {
      var x :| x in a;
      SubsetSize(a - {x}, b - {x});
    }
  }

  // What the search from `origin` has added to `start` is reached and explored.
  ghost predicate Found(w: Airspace, category: Category, origin: Trackfile, start: seq<Trackfile>, ts: seq<Trackfile>) {
    && start <= ts && Proper(w, ts)
    && forall k :: |start| <= k < |ts| ==> Explored(w, category, ts, ts[k]) && Reaches(w, category, origin, ts[k])
  }

  // The links of `origin` among the contacts scanned so far are members.
  predicate Scanned(w: Airspace, category: Category, origin: Trackfile, ts: seq<Trackfile>, remaining: set<ID>) {
    forall id :: id in w.contacts && id !in remaining && Linked(w, category, origin, w.contacts[id]) ==> w.contacts[id] in ts
  }

  // Adds to the group everything that chains of links reach from a member, as
  // far as it is not in the group already.
  method AddNearbyAircraftToGroup(w: Airspace, lead: Trackfile, grp: Group)
    requires KeyedByID(w.contacts) && grp.contacts != [] && Proper(w, grp.contacts) && lead in grp.contacts
    modifies grp
    ensures Found(w, CategoryOf(w, old(grp.contacts)[0]), lead, old(grp.contacts), grp.contacts)
    ensures Explored(w, CategoryOf(w, old(grp.contacts)[0]), grp.contacts, lead)
    decreases |w.contacts.Keys - IDsOf(grp.contacts)|
  {
    ghost var start, category := grp.contacts, CategoryOf(w, grp.contacts[0]);
    var tag := RoleTag(w, lead);
    var remaining := w.contacts.Keys;
    while remaining != {}
      invariant remaining <= w.contacts.Keys
      invariant Found(w, category, lead, start, grp.contacts)
      invariant Scanned(w, category, lead, grp.contacts, remaining)
      decreases |remaining|
    {
      var id :| id in remaining;
      ghost var unscanned, before := remaining, grp.contacts;
      remaining := remaining - {id};
      var other := w.contacts[id];
      if other.contact.id in IDsOf(grp.contacts) {
        AlreadyMember(w, grp.contacts, other);
        continue;
      }
      if !IsMatch(w, other, lead.contact.coalition, CategoryOf(w, grp.contacts[0]))
         || !PassesRole(w, tag, other)
         || !(w.dist(other.LastKnown().point, lead.LastKnown().point) < SPREAD) {
        assert !Linked(w, category, lead, other);
        continue;
      }
      ProperAppend(w, grp.contacts, other);
      GrownIDs(start, before);
      grp.contacts := grp.contacts + [other];
      FewerOutside(w, IDsOf(start), IDsOf(grp.contacts), id);
      AddNearbyAircraftToGroup(w, other, grp);
      SearchStep(w, category, lead, other, start, before, grp.contacts, unscanned);
    }
  }

  lemma GrownIDs(ts: seq<Trackfile>, us: seq<Trackfile>)
    requires ts <= us
    ensures IDsOf(ts) <= IDsOf(us)
  {
    forall t | t in ts ensures t in us {
      var k :| 0 <= k < |ts| && ts[k] == t;
      assert us[k] == t;
    }
  }

  lemma StillMember(ts: seq<Trackfile>, us: seq<Trackfile>)
    requires ts <= us
    ensures forall t :: t in ts ==> t in us
  {
    forall t | t in ts ensures t in us {
      var k :| 0 <= k < |ts| && ts[k] == t;
      assert us[k] == t;
    }
  }

  lemma StillExplored(w: Airspace, category: Category, ts: seq<Trackfile>, us: seq<Trackfile>, t: Trackfile)
    requires ts <= us && Explored(w, category, ts, t)
    ensures Explored(w, category, us, t)
  {
    StillMember(ts, us);
  }

  // After the recursive call everything new since `before` is explored and
  // reached, and what was explored before still is.
  lemma SearchStep(w: Airspace, category: Category, lead: Trackfile, other: Trackfile,
                   start: seq<Trackfile>, before: seq<Trackfile>, after: seq<Trackfile>, unscanned: set<ID>)
    requires IsLive(w, other) && Linked(w, category, lead, other)
    requires Found(w, category, lead, start, before)
    requires Found(w, category, other, before + [other], after) && Explored(w, category, after, other)
    requires Scanned(w, category, lead, before, unscanned)
    ensures Found(w, category, lead, start, after)
    ensures Scanned(w, category, lead, after, unscanned - {other.contact.id})
  {
    assert after[|before|] == other && before <= after;
    StillMember(before, after);
    forall k | |start| <= k < |after|
      ensures Explored(w, category, after, after[k]) && Reaches(w, category, lead, after[k])
    {
      if k < |before| {
        assert after[k] == before[k];
        StillExplored(w, category, before, after, before[k]);
      } else {
        if k == |before| {
          ReachesItself(w, category, other);
        }
        ReachesThrough(w, category, lead, other, after[k]);
      }
    }
    forall id | id in w.contacts && id !in unscanned - {other.contact.id} && Linked(w, category, lead, w.contacts[id])
      ensures w.contacts[id] in after
    {
      if id == other.contact.id {
        assert w.contacts[id] == other;
      }
    }
  }

  // A list that is explored everywhere holds everything reachable from it.
  lemma {:induction false} ExploredHoldsChain(w: Airspace, category: Category, ts: seq<Trackfile>, p: seq<Trackfile>, a: Trackfile, b: Trackfile)
    requires forall t :: t in ts ==> Explored(w, category, ts, t)
    requires a in ts && IsChain(w, category, p, a, b)
    ensures b in ts
    decreases |p|
  {
    if p != [] {
      assert p[0] == w.contacts[p[0].contact.id];
      ExploredHoldsChain(w, category, ts, p[1..], p[0], b);
    }
  }

  // The group of a trackfile is exactly what chains of links reach from it.
  method FindGroupForAircraft(w: Airspace, trackfile: Trackfile) returns (grp: Group)
    requires KeyedByID(w.contacts) && (trackfile.contact.id in w.contacts ==> IsLive(w, trackfile))
    ensures IsGroupOf(w, trackfile, grp.contacts)
  {
    grp := new Group(trackfile);
    if trackfile.IsLastKnownPointZero() {
      return;
    }
    AddNearbyAircraftToGroup(w, trackfile, grp);
    SearchIsReachability(w, trackfile, grp.contacts);
  }

  lemma SearchIsReachability(w: Airspace, seed: Trackfile, ts: seq<Trackfile>)
    requires Found(w, CategoryOf(w, seed), seed, [seed], ts) && Explored(w, CategoryOf(w, seed), ts, seed)
    ensures forall t :: t in ts <==> Reaches(w, CategoryOf(w, seed), seed, t)
  {
    var category := CategoryOf(w, seed);
    assert ts[0] == seed;
    forall t | t in ts ensures Explored(w, category, ts, t) {
      var k :| 0 <= k < |ts| && ts[k] == t;
    }
    forall t ensures t in ts <==> Reaches(w, category, seed, t) {
      if t in ts {
        var k :| 0 <= k < |ts| && ts[k] == t;
        ReachesItself(w, category, seed);
      }
      if Reaches(w, category, seed, t) {
        var p :| IsChain(w, category, p, seed, t);
        ExploredHoldsChain(w, category, ts, p, seed, t);
      }
    }
  }
}
