/**
 The hostile groups near friendlies, as the radar hands them to the merge sweep,
 and what the sweep makes of them.
 */
module RadarMerges {
  import opened Basics
  import opened Trackfiles
  import opened Encyclopedias
  import opened Sorting
  import opened Grouping
  import opened Enumeration
  import opened GroupMembers
  import opened MergeTrackers
  import opened MergeSweeps

  const BY_ID: (ID, ID) -> bool := (a, b) => a <= b

  // coalitions.Coalition.Opposite
  function Opposite(coalition: Coalition): Coalition {
    match coalition
    case Red => Blue
    case Blue => Red
    case Neutrals => Neutrals
  }

  // ---- Specification ---------------------------------------------------------------------

  // A contact that may seed a hostile group: helicopters may not.
  predicate IsSeed(w: Airspace, t: Trackfile, hostile: Coalition) {
    && IsCandidate(w, t, hostile)
    && !(w.data(t.contact.acmiName).Some? && w.data(t.contact.acmiName).value.Category() == RotaryWing)
  }

  predicate IsClose(w: Airspace, t: Trackfile, other: Trackfile) {
    && !t.IsLastKnownPointZero() && !other.IsLastKnownPointZero()
    && t.contact.coalition != other.contact.coalition
    && w.dist(t.LastKnown().point, other.LastKnown().point) < MERGE_EXIT_DISTANCE
  }

  ghost predicate IsNearGroup(w: Airspace, ts: seq<Trackfile>, other: Trackfile) {
    exists t :: t in ts && IsClose(w, t, other)
  }

  function IDSeq(ts: seq<Trackfile>): (ids: seq<ID>)
    ensures |ids| == |ts| && forall k :: 0 <= k < |ts| ==> ids[k] == ts[k].contact.id
  {
    seq(|ts|, k requires 0 <= k < |ts| => ts[k].contact.id)
  }

  // A group's IDs and the contacts of other coalitions near it, if there are any.
  ghost predicate IsEncounter(w: Airspace, ts: seq<Trackfile>, e: Encounter) {
    && e.hostileIDs == Sorted(IDSeq(ts), BY_ID)
    && e.friendlies != [] && DistinctIDs(e.friendlies)
    && forall t :: t in e.friendlies <==> IsLive(w, t) && IsNearGroup(w, ts, t)
  }

  // The contact is in one of the groups, or has nobody to merge with.
  ghost predicate IsAccounted(w: Airspace, groups: seq<seq<Trackfile>>, t: Trackfile) {
    InSome(groups, t) || forall other :: IsLive(w, other) ==> !IsClose(w, t, other)
  }

  // Each encounter is that of the group of a seed.
  ghost predicate AreEncounters(w: Airspace, hostile: Coalition, groups: seq<seq<Trackfile>>, encounters: seq<Encounter>) {
    && |groups| == |encounters|
    && forall k :: 0 <= k < |groups| ==>
         && groups[k] != [] && IsLive(w, groups[k][0]) && IsSeed(w, groups[k][0], hostile)
         && IsGroupOf(w, groups[k][0], groups[k]) && IsEncounter(w, groups[k], encounters[k])
  }

  // And every seed that is near somebody is in one of them.
  ghost predicate AreMerges(w: Airspace, hostile: Coalition, groups: seq<seq<Trackfile>>, encounters: seq<Encounter>) {
    && AreEncounters(w, hostile, groups, encounters)
    && forall t :: IsLive(w, t) && IsSeed(w, t, hostile) ==> IsAccounted(w, groups, t)
  }

  ghost predicate IsFound(encounters: seq<Encounter>, h: Trackfile, f: Trackfile) {
    exists k :: 0 <= k < |encounters| && h.contact.id in encounters[k].hostileIDs && f in encounters[k].friendlies
  }

  // ---- The radar's search -------------------------------------------------------------------

  method Merges(w: Airspace, snapshot: seq<Trackfile>, coalition: Coalition)
    returns (encounters: seq<Encounter>, ghost groups: seq<seq<Trackfile>>)
    requires KeyedByID(w.contacts) && IsSnapshot(w, snapshot)
    ensures AreMerges(w, Opposite(coalition), groups, encounters)
    ensures forall e :: e in encounters ==> e.friendlies != []
    ensures forall h, f :: IsLive(w, h) && IsSeed(w, h, Opposite(coalition)) && IsLive(w, f) && IsClose(w, h, f) ==>
      IsFound(encounters, h, f)
  {
    var hostile := Opposite(coalition);
    var visited: set<ID> := {};
    encounters, groups := [], [];
    for i := 0 to |snapshot|
      invariant AreEncounters(w, hostile, groups, encounters)
      invariant forall t :: IsLive(w, t) && t.contact.id in visited ==> IsAccounted(w, groups, t)
      invariant forall t :: t in snapshot[..i] && IsSeed(w, t, hostile) ==> IsAccounted(w, groups, t)
    {
      var contact := snapshot[i];
      assert snapshot[..i + 1] == snapshot[..i] + [contact] && contact in snapshot;
      if contact.contact.id in visited || !IsSeed(w, contact, hostile) {
        continue;
      }
      var grp := FindGroupForAircraft(w, contact);
      var mergedWith := MergesForGroup(w, grp.contacts);
      visited := visited + IDsOf(grp.contacts);
      SeedIsMember(w, contact, grp.contacts);
      MembersByID(w, contact, grp.contacts);
      ghost var before := groups;
      if mergedWith != [] {
        var ids := ObjectIDs(grp.contacts);
        OneMoreEncounter(w, hostile, groups, encounters, contact, grp.contacts, Encounter(ids, mergedWith));
        encounters, groups := encounters + [Encounter(ids, mergedWith)], groups + [grp.contacts];
        AccountedGrows(w, before, grp.contacts);
      } else {
        NobodyNear(w, grp.contacts);
      }
    }
    assert snapshot[..|snapshot|] == snapshot;
    MergesAreFound(w, hostile, groups, encounters);
  }

  lemma MergesAreFound(w: Airspace, hostile: Coalition, groups: seq<seq<Trackfile>>, encounters: seq<Encounter>)
    requires AreMerges(w, hostile, groups, encounters)
    ensures forall e :: e in encounters ==> e.friendlies != []
    ensures forall h, f :: IsLive(w, h) && IsSeed(w, h, hostile) && IsLive(w, f) && IsClose(w, h, f) ==>
      IsFound(encounters, h, f)
  {
    forall h, f | IsLive(w, h) && IsSeed(w, h, hostile) && IsLive(w, f) && IsClose(w, h, f) ensures IsFound(encounters, h, f) {
      CloseIsFound(w, hostile, groups, encounters, h, f);
    }
  }

  // Everybody near a member, collected by ID.
  method MergesForGroup(w: Airspace, ts: seq<Trackfile>) returns (near: seq<Trackfile>)
    requires KeyedByID(w.contacts)
    ensures DistinctIDs(near) && forall t :: t in near <==> IsLive(w, t) && IsNearGroup(w, ts, t)
  {
    var mergedWith: map<ID, Trackfile> := map[];
    for i := 0 to |ts|
      invariant forall id :: id in mergedWith <==> id in w.contacts && IsNearGroup(w, ts[..i], w.contacts[id])
      invariant forall id :: id in mergedWith ==> mergedWith[id] == w.contacts[id]
    {
      ghost var before := mergedWith;
      mergedWith := MergesForContact(w, ts[i], mergedWith);
      assert ts[..i + 1] == ts[..i] + [ts[i]];
      forall id ensures id in mergedWith <==> id in w.contacts && IsNearGroup(w, ts[..i + 1], w.contacts[id]) {
        if id in w.contacts && IsClose(w, ts[i], w.contacts[id]) {
          assert ts[i] in ts[..i + 1];
        }
      }
    }
    assert ts[..|ts|] == ts;
    near := Values(w, mergedWith);
  }

  // The values of a map of live contacts, in any order.
  method Values(w: Airspace, m: map<ID, Trackfile>) returns (ts: seq<Trackfile>)
    requires KeyedByID(w.contacts)
    requires forall id :: id in m ==> id in w.contacts && m[id] == w.contacts[id]
    ensures DistinctIDs(ts) && forall t :: t in ts <==> IsLive(w, t) && t.contact.id in m
  {
    ts := [];
    var remaining := m.Keys;
    while remaining != {}
      invariant remaining <= m.Keys && DistinctIDs(ts)
      invariant forall t :: t in ts <==> IsLive(w, t) && t.contact.id in m.Keys - remaining
    {
      var id :| id in remaining;
      remaining := remaining - {id};
      ts := ts + [m[id]];
    }
  }

  // Adds the contacts of other coalitions near one contact.
  method MergesForContact(w: Airspace, t: Trackfile, mergedWith: map<ID, Trackfile>) returns (more: map<ID, Trackfile>)
    requires KeyedByID(w.contacts)
    requires forall id :: id in mergedWith ==> id in w.contacts && mergedWith[id] == w.contacts[id]
    ensures forall id :: id in more <==> id in mergedWith || (id in w.contacts && IsClose(w, t, w.contacts[id]))
    ensures forall id :: id in more ==> more[id] == w.contacts[id]
  {
    more := mergedWith;
    if t.IsLastKnownPointZero() {
      return;
    }
    var remaining := w.contacts.Keys;
    while remaining != {}
      invariant remaining <= w.contacts.Keys
      invariant forall id :: id in more <==>
        id in mergedWith || (id in w.contacts && id !in remaining && IsClose(w, t, w.contacts[id]))
      invariant forall id :: id in more ==> more[id] == w.contacts[id]
    {
      var id :| id in remaining;
      remaining := remaining - {id};
      var other := w.contacts[id];
      if t.contact.coalition == other.contact.coalition || other.IsLastKnownPointZero() {
        continue;
      }
      var distance := w.dist(t.LastKnown().point, other.LastKnown().point);
      if distance < MERGE_EXIT_DISTANCE {
        more := more[id := other];
      }
    }
  }

  // The IDs of a group, sorted.
  method ObjectIDs(ts: seq<Trackfile>) returns (ids: seq<ID>)
    ensures ids == Sorted(IDSeq(ts), BY_ID)
    ensures multiset(ids) == multiset(IDSeq(ts)) && forall i, j :: 0 <= i <= j < |ids| ==> ids[i] <= ids[j]
  {
    var unsorted: seq<ID> := [];
    for i := 0 to |ts|
      invariant |unsorted| == i && forall k :: 0 <= k < i ==> unsorted[k] == ts[k].contact.id
    {
      unsorted := unsorted + [ts[i].contact.id];
    }
    assert unsorted == IDSeq(ts);
    ids := Sorted(unsorted, BY_ID);
    SortedIsArrangement(unsorted, BY_ID);
    assert forall i, j :: 0 <= i <= j < |ids| ==> BY_ID(ids[i], ids[j]);
  }

  // A live contact with the ID of a member is that member.
  lemma MembersByID(w: Airspace, seed: Trackfile, ts: seq<Trackfile>)
    requires IsGroupOf(w, seed, ts) && IsLive(w, seed)
    ensures forall t :: IsLive(w, t) && t.contact.id in IDsOf(ts) ==> t in ts
  {
    forall t | IsLive(w, t) && t.contact.id in IDsOf(ts) ensures t in ts {
      var u :| u in ts && u.contact.id == t.contact.id;
      MemberIsLive(w, seed, ts, u);
    }
  }

  lemma OneMoreEncounter(w: Airspace, hostile: Coalition, groups: seq<seq<Trackfile>>, encounters: seq<Encounter>,
                         seed: Trackfile, ts: seq<Trackfile>, e: Encounter)
    requires AreEncounters(w, hostile, groups, encounters)
    requires IsLive(w, seed) && IsSeed(w, seed, hostile) && IsGroupOf(w, seed, ts) && IsEncounter(w, ts, e)
    ensures AreEncounters(w, hostile, groups + [ts], encounters + [e])
  {
    var gs, es := groups + [ts], encounters + [e];
    forall k | 0 <= k < |gs|
      ensures gs[k] != [] && IsLive(w, gs[k][0]) && IsSeed(w, gs[k][0], hostile)
      ensures IsGroupOf(w, gs[k][0], gs[k]) && IsEncounter(w, gs[k], es[k])
    {
      if k < |groups| {
        assert gs[k] == groups[k] && es[k] == encounters[k];
      }
    }
  }

  lemma AccountedGrows(w: Airspace, groups: seq<seq<Trackfile>>, ts: seq<Trackfile>)
    ensures forall t :: IsAccounted(w, groups, t) || t in ts ==> IsAccounted(w, groups + [ts], t)
  {
    forall t | IsAccounted(w, groups, t) || t in ts ensures IsAccounted(w, groups + [ts], t) {
      InSomeOneMore(groups, ts, t);
    }
  }

  lemma NobodyNear(w: Airspace, ts: seq<Trackfile>)
    requires forall t :: IsLive(w, t) ==> !IsNearGroup(w, ts, t)
    ensures forall t, other :: t in ts && IsLive(w, other) ==> !IsClose(w, t, other)
  {
    forall t, other | t in ts && IsLive(w, other) ensures !IsClose(w, t, other) {
      assert !IsNearGroup(w, ts, other);
    }
  }

  // ---- The sweep of what the radar finds ------------------------------------------------------

  // The IDs of an encounter are those of its group, each once.
  lemma HostilesOfGroup(ts: seq<Trackfile>)
    requires DistinctIDs(ts)
    ensures Distinct(Sorted(IDSeq(ts), BY_ID))
    ensures forall id :: id in Sorted(IDSeq(ts), BY_ID) <==> id in IDsOf(ts)
  {
    SortedKeepsElements(IDSeq(ts), BY_ID);
    DistinctByCount(IDSeq(ts), Sorted(IDSeq(ts), BY_ID));
    forall id | id in IDsOf(ts) ensures id in IDSeq(ts) {
      var t :| t in ts && t.contact.id == id;
      var k :| 0 <= k < |ts| && ts[k] == t;
      assert IDSeq(ts)[k] == id;
    }
    forall id | id in IDSeq(ts) ensures id in IDsOf(ts) {
      var k :| 0 <= k < |ts| && IDSeq(ts)[k] == id;
      assert ts[k] in ts;
    }
  }

  lemma {:induction false} CountOfDistinct(s: seq<ID>)
    requires Distinct(s)
    ensures forall x :: x in s ==> multiset(s)[x] == 1
  {
    if s != [] {
      assert s == Init(s) + [Last(s)];
      CountOfDistinct(Init(s));
      assert Last(s) !in Init(s);
    }
  }

  lemma {:induction false} DistinctOfCount(s: seq<ID>)
    requires forall x :: x in s ==> multiset(s)[x] == 1
    ensures Distinct(s)
  {
    if s != [] {
      var init, last := Init(s), Last(s);
      assert s == init + [last];
      assert last in s && multiset(s)[last] == multiset(init)[last] + 1;
      assert last !in init;
      forall x | x in init ensures multiset(init)[x] == 1 {
        assert x in s && multiset(s)[x] == multiset(init)[x];
      }
      DistinctOfCount(init);
      forall i | 0 <= i < |init| ensures init[i] != last {
        assert init[i] in init;
      }
    }
  }

  lemma DistinctByCount(s: seq<ID>, t: seq<ID>)
    requires multiset(s) == multiset(t) && Distinct(s)
    ensures Distinct(t)
  {
    CountOfDistinct(s);
    SameElements(s, t);
    DistinctOfCount(t);
  }

  // Every hostile is a live member of its group and of the hostile coalition.
  lemma HostileIsMember(w: Airspace, hostile: Coalition, groups: seq<seq<Trackfile>>, encounters: seq<Encounter>, k: nat, h: ID)
    requires AreEncounters(w, hostile, groups, encounters) && k < |encounters| && h in encounters[k].hostileIDs
    ensures h in w.contacts && w.contacts[h] in groups[k] && IsCandidate(w, w.contacts[h], hostile)
  {
    var ts := groups[k];
    HostilesOfGroup(ts);
    var t :| t in ts && t.contact.id == h;
    MemberIsLive(w, ts[0], ts, t);
    MemberIsCandidate(w, ts[0], ts, hostile, t);
  }

  // Every listed contact is live, of another coalition, and has a position.
  lemma FriendlyIsOpposed(w: Airspace, hostile: Coalition, groups: seq<seq<Trackfile>>, encounters: seq<Encounter>, k: nat, t: Trackfile)
    requires AreEncounters(w, hostile, groups, encounters) && k < |encounters| && t in encounters[k].friendlies
    ensures IsLive(w, t) && t.contact.coalition != hostile && !t.IsLastKnownPointZero()
  {
    var m :| m in groups[k] && IsClose(w, m, t);
    MemberIsCandidate(w, groups[k][0], groups[k], hostile, m);
  }

  // What the radar hands over is what the sweep needs, though groups may share
  // hostiles: it lists everybody within the exit distance of any member.
  lemma MergesAreCoherent(w: Airspace, hostile: Coalition, groups: seq<seq<Trackfile>>, encounters: seq<Encounter>)
    requires AreEncounters(w, hostile, groups, encounters)
    requires forall a, b :: w.dist(a, b) == w.dist(b, a)
    ensures Sided(encounters, w.contacts) && Coherent(encounters, w.contacts, w.dist)
    ensures forall h :: HostileAmong(encounters, h) ==> h in w.contacts
  {
    forall k, h | 0 <= k < |encounters| && h in encounters[k].hostileIDs ensures h in w.contacts {
      HostileIsMember(w, hostile, groups, encounters, k, h);
    }
    forall k | 0 <= k < |encounters| ensures Distinct(encounters[k].hostileIDs) {
      HostilesOfGroup(groups[k]);
    }
    forall i, j, h, t |
      0 <= i < |encounters| && 0 <= j < |encounters| && h in encounters[i].hostileIDs && h in encounters[j].hostileIDs
      && t in encounters[i].friendlies
      ensures forall u :: u in encounters[j].friendlies && u.contact.id == t.contact.id ==> u == t
      ensures IsNear(h, t, w.contacts, w.dist) ==> t in encounters[j].friendlies
    {
      FriendlyIsOpposed(w, hostile, groups, encounters, i, t);
      HostileIsMember(w, hostile, groups, encounters, j, h);
      if IsNear(h, t, w.contacts, w.dist) {
        assert IsClose(w, w.contacts[h], t) && IsNearGroup(w, groups[j], t);
      }
    }
  }

  // Merged before, they stay so below the exit distance, and at it as long as
  // the friendly is listed with every group of the hostile.
  ghost predicate Stays(h: Trackfile, f: Trackfile, encounters: seq<Encounter>, dist: Metric) {
    || Apart(f, h, dist) < MERGE_EXIT_DISTANCE
    || (Apart(f, h, dist) == MERGE_EXIT_DISTANCE
        && HostileAmong(encounters, h.contact.id) && ListedByAll(encounters, h.contact.id, f.contact.id))
  }

  // After a sweep of what the radar finds, a valid hostile that is no helicopter
  // and a contact of another coalition with a position are merged by the 3 and
  // 5 NM rule, whatever the groups are; only at exactly 5 NM do these matter.
  lemma SweptByDistance(w: Airspace, hostile: Coalition, groups: seq<seq<Trackfile>>, encounters: seq<Encounter>,
                        was: Merged, m: Merged, h: Trackfile, f: Trackfile)
    requires AreMerges(w, hostile, groups, encounters) && Swept(was, m, encounters, w.contacts, w.dist)
    requires forall a, b :: w.dist(a, b) == w.dist(b, a)
    requires IsLive(w, h) && IsSeed(w, h, hostile)
    requires IsLive(w, f) && f.contact.coalition != hostile && !f.IsLastKnownPointZero()
    ensures Pair(m, h.contact.id, f.contact.id) <==>
      Apart(f, h, w.dist) < MERGE_ENTRY_DISTANCE
      || (Pair(was, h.contact.id, f.contact.id) && Stays(h, f, encounters, w.dist))
  {
    var hID, fID := h.contact.id, f.contact.id;
    if NowMerged(was, hID, fID, encounters, w.contacts, w.dist) {
      MergedIsInReach(w, hostile, groups, encounters, was, h, f);
    }
    if Apart(f, h, w.dist) < MERGE_ENTRY_DISTANCE || (Pair(was, hID, fID) && Stays(h, f, encounters, w.dist)) {
      if Apart(f, h, w.dist) < MERGE_EXIT_DISTANCE {
        CloseIsListed(w, hostile, groups, encounters, h, f);
      }
      var k :| 0 <= k < |encounters| && hID in encounters[k].hostileIDs;
      var t :| t in encounters[k].friendlies && t.contact.id == fID;
      FriendlyIsOpposed(w, hostile, groups, encounters, k, t);
      assert Keeps(was, hID, fID, encounters[k].friendlies, w.contacts, w.dist);
      assert NowMerged(was, hID, fID, encounters, w.contacts, w.dist);
    }
  }

  lemma MergedIsInReach(w: Airspace, hostile: Coalition, groups: seq<seq<Trackfile>>, encounters: seq<Encounter>,
                        was: Merged, h: Trackfile, f: Trackfile)
    requires AreEncounters(w, hostile, groups, encounters) && IsLive(w, h) && IsLive(w, f)
    requires NowMerged(was, h.contact.id, f.contact.id, encounters, w.contacts, w.dist)
    ensures Apart(f, h, w.dist) < MERGE_ENTRY_DISTANCE
         || (Pair(was, h.contact.id, f.contact.id) && Stays(h, f, encounters, w.dist))
  {
    var hID, fID := h.contact.id, f.contact.id;
    var k :| 0 <= k < |encounters| && hID in encounters[k].hostileIDs
             && Keeps(was, hID, fID, encounters[k].friendlies, w.contacts, w.dist);
    var t :| t in encounters[k].friendlies && t.contact.id == fID && InMerge(Pair(was, hID, fID), h, t, w.dist);
    FriendlyIsOpposed(w, hostile, groups, encounters, k, t);
    assert t == f;
  }

  lemma CloseIsFound(w: Airspace, hostile: Coalition, groups: seq<seq<Trackfile>>, encounters: seq<Encounter>,
                     h: Trackfile, f: Trackfile)
    requires AreMerges(w, hostile, groups, encounters)
    requires IsLive(w, h) && IsSeed(w, h, hostile) && IsLive(w, f) && IsClose(w, h, f)
    ensures IsFound(encounters, h, f)
  {
    var k :| 0 <= k < |groups| && h in groups[k];
    HostilesOfGroup(groups[k]);
    assert h.contact.id in encounters[k].hostileIDs && IsNearGroup(w, groups[k], f);
  }

  // A contact within the exit distance of a seed is listed with every group of it.
  lemma CloseIsListed(w: Airspace, hostile: Coalition, groups: seq<seq<Trackfile>>, encounters: seq<Encounter>,
                      h: Trackfile, f: Trackfile)
    requires AreMerges(w, hostile, groups, encounters)
    requires forall a, b :: w.dist(a, b) == w.dist(b, a)
    requires IsLive(w, h) && IsSeed(w, h, hostile) && IsLive(w, f) && f.contact.coalition != hostile
    requires !f.IsLastKnownPointZero() && Apart(f, h, w.dist) < MERGE_EXIT_DISTANCE
    ensures IsFound(encounters, h, f) && ListedByAll(encounters, h.contact.id, f.contact.id)
  {
    assert IsClose(w, h, f);
    CloseIsFound(w, hostile, groups, encounters, h, f);
    forall j | 0 <= j < |encounters| && h.contact.id in encounters[j].hostileIDs ensures Lists(encounters[j].friendlies, f.contact.id) {
      HostileIsMember(w, hostile, groups, encounters, j, h.contact.id);
      assert IsNearGroup(w, groups[j], f) && f in encounters[j].friendlies;
    }
  }

  // Whatever is merged after such a sweep is a live hostile and a live contact
  // of another coalition, both with a position.
  lemma MergedAreOpposed(w: Airspace, hostile: Coalition, groups: seq<seq<Trackfile>>, encounters: seq<Encounter>,
                         was: Merged, m: Merged, h: ID, f: ID)
    requires AreEncounters(w, hostile, groups, encounters) && Swept(was, m, encounters, w.contacts, w.dist) && Pair(m, h, f)
    ensures h in w.contacts && IsCandidate(w, w.contacts[h], hostile)
    ensures f in w.contacts && w.contacts[f].contact.coalition != hostile && !w.contacts[f].IsLastKnownPointZero()
  {
    assert NowMerged(was, h, f, encounters, w.contacts, w.dist);
    var k :| 0 <= k < |encounters| && h in encounters[k].hostileIDs
             && Keeps(was, h, f, encounters[k].friendlies, w.contacts, w.dist);
    var t :| t in encounters[k].friendlies && t.contact.id == f;
    HostileIsMember(w, hostile, groups, encounters, k, h);
    FriendlyIsOpposed(w, hostile, groups, encounters, k, t);
  }

  // The two sides.
  predicate AreSides(friendly: Coalition, hostile: Coalition) {
    (friendly == Blue && hostile == Red) || (friendly == Red && hostile == Blue)
  }

  // For a bot of either side: after a sweep of what the radar finds, an airborne
  // contact of the other side that is not known as a helicopter is merged with
  // any positioned contact of another coalition below 3 NM and with none above 5,
  // and in between as it was before.
  lemma OpposedAircraftMerge(w: Airspace, coalition: Coalition, groups: seq<seq<Trackfile>>, encounters: seq<Encounter>,
                             was: Merged, m: Merged, h: Trackfile, f: Trackfile)
    requires AreMerges(w, Opposite(coalition), groups, encounters) && Swept(was, m, encounters, w.contacts, w.dist)
    requires forall a, b :: w.dist(a, b) == w.dist(b, a)
    requires IsLive(w, h) && AreSides(coalition, h.contact.coalition) && IsAirborne(w, h)
    requires RotaryWingTag !in KnownTags(w, h) || FixedWingTag in KnownTags(w, h)
    requires IsLive(w, f) && f.contact.coalition != h.contact.coalition && f.LastKnown().point != Point(0.0, 0.0)
    ensures var d := w.dist(f.LastKnown().point, h.LastKnown().point);
      var before, now := Pair(was, h.contact.id, f.contact.id), Pair(m, h.contact.id, f.contact.id);
      && (d < 3.0 ==> now) && (3.0 <= d < 5.0 ==> now == before) && (d == 5.0 && now ==> before) && (d > 5.0 ==> !now)
  {
    SweptByDistance(w, Opposite(coalition), groups, encounters, was, m, h, f);
  }

  // Where every contact has one wing tag and one role tag, no helicopter of the
  // other side is merged with anybody.
  lemma HelicoptersDoNotMerge(w: Airspace, hostile: Coalition, groups: seq<seq<Trackfile>>, encounters: seq<Encounter>,
                              was: Merged, m: Merged, h: ID, f: ID)
    requires PlainlyTagged(w) && AreEncounters(w, hostile, groups, encounters)
    requires Swept(was, m, encounters, w.contacts, w.dist) && Pair(m, h, f)
    ensures h in w.contacts && RotaryWingTag !in KnownTags(w, w.contacts[h])
  {
    assert NowMerged(was, h, f, encounters, w.contacts, w.dist);
    var k :| 0 <= k < |encounters| && h in encounters[k].hostileIDs
             && Keeps(was, h, f, encounters[k].friendlies, w.contacts, w.dist);
    HostileIsMember(w, hostile, groups, encounters, k, h);
    GroupIsOfOneKind(w, groups[k][0], groups[k], w.contacts[h]);
    OneOfEach(w, groups[k][0]);
    assert SameTag(w, groups[k][0], w.contacts[h], RotaryWingTag);
  }
}
