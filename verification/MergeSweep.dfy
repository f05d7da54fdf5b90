/**
 The periodic sweep over hostile groups: which pairs enter the merge, which stay
 in it and which leave it. Entry is below 3 NM, exit is above 5 NM.
 */
module MergeSweeps {
  import opened Basics
  import opened Trackfiles
  import opened MergeTrackers

  const MERGE_ENTRY_DISTANCE: real := 3.0
  const MERGE_EXIT_DISTANCE: real := 5.0

  // Distance in nautical miles.
  type Metric = (Point, Point) -> real

  // A hostile group with the friendlies near it, as the radar reports them.
  datatype Encounter = Encounter(hostileIDs: seq<ID>, friendlies: seq<Trackfile>)

  // All live trackfiles.
  type Scope = map<ID, Trackfile>

  // ---- Specification ---------------------------------------------------------------------

  // Both have a position and are close, or were merged and are not yet far.
  predicate InMerge(wasMerged: bool, hostile: Trackfile, friendly: Trackfile, dist: Metric) {
    && !friendly.IsLastKnownPointZero() && !hostile.IsLastKnownPointZero()
    && var d := dist(friendly.LastKnown().point, hostile.LastKnown().point);
       d < MERGE_ENTRY_DISTANCE || (wasMerged && d <= MERGE_EXIT_DISTANCE)
  }

  predicate Lists(friendlies: seq<Trackfile>, f: ID) {
    exists t :: t in friendlies && t.contact.id == f
  }

  // What the sweep of one encounter should make of the pair (h, f).
  predicate Keeps(was: Merged, h: ID, f: ID, friendlies: seq<Trackfile>, scope: Scope, dist: Metric) {
    h in scope && exists t :: t in friendlies && t.contact.id == f && InMerge(Pair(was, h, f), scope[h], t, dist)
  }

  // ---- The sweep -------------------------------------------------------------------------

  class Sweeper {
    const merges: MergeTracker
    const dist: Metric

    constructor (dist: Metric)
      ensures fresh(merges) && merges.Valid() && merges.merged == map[] && this.dist == dist
    {
      this.dist := dist;
      merges := new MergeTracker();
    }

    method UpdateMergesForContact(hostile: Trackfile, friendly: Trackfile) returns (isNewMerge: bool)
      requires merges.Valid()
      modifies merges
      ensures merges.Valid()
      ensures var h: ID := hostile.contact.id; var f: ID := friendly.contact.id;
        && (Pair(merges.merged, h, f) <==> InMerge(Pair(old(merges.merged), h, f), hostile, friendly, dist))
        && (isNewMerge <==> Pair(merges.merged, h, f) && !Pair(old(merges.merged), h, f))
      ensures forall h, f :: h != hostile.contact.id || f != friendly.contact.id ==>
        (Pair(merges.merged, h, f) <==> Pair(old(merges.merged), h, f))
    {
      var isMerged := merges.IsMerged(hostile.contact.id, friendly.contact.id);
      if friendly.IsLastKnownPointZero() || hostile.IsLastKnownPointZero() {
        merges.Separate(hostile.contact.id, friendly.contact.id);
        return false;
      }
      var distance := dist(friendly.LastKnown().point, hostile.LastKnown().point);
      var enteredMerge := distance < MERGE_ENTRY_DISTANCE;
      var exitedMerge := distance > MERGE_EXIT_DISTANCE;
      if !isMerged && enteredMerge {
        merges.Merge(hostile.contact.id, friendly.contact.id);
        return true;
      } else if isMerged && exitedMerge {
        merges.Separate(hostile.contact.id, friendly.contact.id);
      }
      return false;
    }

    // Friendlies that are no longer near the hostile leave its merge.
    method SeparateUnlisted(hostileID: ID, friendlies: seq<Trackfile>)
      requires merges.Valid()
      modifies merges
      ensures merges.Valid()
      ensures forall h, f :: Pair(merges.merged, h, f) <==>
        Pair(old(merges.merged), h, f) && (h != hostileID || Lists(friendlies, f))
    {
      var friendIDs := set t | t in friendlies :: t.contact.id;
      assert forall f :: f in friendIDs <==> Lists(friendlies, f);
      var remaining := merges.FriendliesMergedWith([hostileID]);
      assert forall f :: f in remaining <==> Pair(merges.merged, hostileID, f) by {
        assert hostileID in [hostileID];
      }
      while remaining != {}
        invariant merges.Valid()
        invariant forall f :: f in remaining ==> Pair(merges.merged, hostileID, f)
        invariant forall h, f :: Pair(merges.merged, h, f) <==>
          Pair(old(merges.merged), h, f) && (h != hostileID || f in remaining || f in friendIDs)
      {
        var oldMergedFriendly :| oldMergedFriendly in remaining;
        if oldMergedFriendly !in friendIDs {
          merges.Separate(hostileID, oldMergedFriendly);
        }
        remaining := remaining - {oldMergedFriendly};
      }
    }

    // One hostile of a group against the group's friendlies. Returned are the
    // friendlies that it newly merged with.
    method UpdateMergesForHostile(hostileID: ID, friendlies: seq<Trackfile>, scope: Scope)
      returns (newlyMerged: seq<Trackfile>)
      requires merges.Valid() && KeyedByID(scope) && DistinctIDs(friendlies)
      requires hostileID !in scope ==> forall h :: !Pair(merges.merged, h, hostileID)
      modifies merges
      ensures merges.Valid()
      ensures forall f :: Pair(merges.merged, hostileID, f) <==>
        Keeps(old(merges.merged), hostileID, f, friendlies, scope, dist)
      ensures forall h, f :: h != hostileID ==> (Pair(merges.merged, h, f) <==> Pair(old(merges.merged), h, f))
      ensures forall t :: t in newlyMerged <==>
        t in friendlies && Pair(merges.merged, hostileID, t.contact.id) && !Pair(old(merges.merged), hostileID, t.contact.id)
      ensures DistinctIDs(newlyMerged)
    {
      newlyMerged := [];
      SeparateUnlisted(hostileID, friendlies);
      ghost var listed := merges.merged;
      if hostileID !in scope {
        merges.Remove(hostileID);
        forall h, f ensures Pair(merges.merged, h, f) <==> h != hostileID && Pair(listed, h, f) {
          if h != hostileID && f != hostileID {
            RemoveKeepsOthers(listed, hostileID, h, f);
          }
        }
        return;
      }
      var hostile := scope[hostileID];
      for j := 0 to |friendlies|
        invariant merges.Valid()
        invariant forall h, f :: h != hostileID ==> (Pair(merges.merged, h, f) <==> Pair(old(merges.merged), h, f))
        invariant forall k :: 0 <= k < j ==>
          (Pair(merges.merged, hostileID, friendlies[k].contact.id) <==>
           InMerge(Pair(old(merges.merged), hostileID, friendlies[k].contact.id), hostile, friendlies[k], dist))
        invariant forall k :: j <= k < |friendlies| ==>
          (Pair(merges.merged, hostileID, friendlies[k].contact.id) <==>
           Pair(old(merges.merged), hostileID, friendlies[k].contact.id))
        invariant forall f :: Pair(merges.merged, hostileID, f) ==> Lists(friendlies, f)
        invariant NewAmong(newlyMerged, friendlies[..j], old(merges.merged), merges.merged, hostileID)
      {
        ghost var before, earlier := merges.merged, newlyMerged;
        var friendly := friendlies[j];
        var isNewMerge := UpdateMergesForContact(hostile, friendly);
        if isNewMerge {
          newlyMerged := newlyMerged + [friendly];
        }
        NewAmongStep(earlier, friendlies, j, old(merges.merged), before, merges.merged, hostileID, isNewMerge);
      }
      assert friendlies[..|friendlies|] == friendlies;
      KeptExactly(old(merges.merged), merges.merged, hostileID, friendlies, scope, dist);
    }

    // One hostile group. `whose` names the hostile behind each new merge.
    method UpdateMergesForGroup(e: Encounter, scope: Scope)
      returns (newlyMerged: seq<Trackfile>, ghost whose: seq<ID>)
      requires merges.Valid() && KeyedByID(scope) && Sides(e, merges.merged, scope)
      modifies merges
      ensures merges.Valid()
      ensures forall h, f :: h in e.hostileIDs ==>
        (Pair(merges.merged, h, f) <==> Keeps(old(merges.merged), h, f, e.friendlies, scope, dist))
      ensures forall h, f :: h !in e.hostileIDs ==> (Pair(merges.merged, h, f) <==> Pair(old(merges.merged), h, f))
      ensures Reports(newlyMerged, whose, e.hostileIDs, e.friendlies, old(merges.merged), merges.merged)
    {
      newlyMerged, whose := [], [];
      for i := 0 to |e.hostileIDs|
        invariant merges.Valid() && Sides(e, merges.merged, scope)
        invariant forall h, f :: h in e.hostileIDs[..i] ==>
          (Pair(merges.merged, h, f) <==> Keeps(old(merges.merged), h, f, e.friendlies, scope, dist))
        invariant forall h, f :: h !in e.hostileIDs[..i] ==> (Pair(merges.merged, h, f) <==> Pair(old(merges.merged), h, f))
        invariant Reports(newlyMerged, whose, e.hostileIDs[..i], e.friendlies, old(merges.merged), merges.merged)
      {
        ghost var before, news, names := merges.merged, newlyMerged, whose;
        var h := e.hostileIDs[i];
        var more := UpdateMergesForHostile(h, e.friendlies, scope);
        newlyMerged := newlyMerged + more;
        whose := whose + seq(|more|, _ => h);
        NotSeenBefore(e.hostileIDs, i);
        ReportsStep(news, names, more, e.hostileIDs, i, e.friendlies, old(merges.merged), before, merges.merged);
        KeepsAlike(old(merges.merged), before, h, e.friendlies, scope, dist);
      }
      assert e.hostileIDs[..|e.hostileIDs|] == e.hostileIDs;
    }

    // The whole sweep, up to the merged calls: one list of new merges per group.
    method Sweep(encounters: seq<Encounter>, scope: Scope) returns (reports: seq<seq<Trackfile>>, ghost whose: seq<seq<ID>>)
      requires merges.Valid() && KeyedByID(scope) && Sided(encounters, scope) && Coherent(encounters, scope, dist)
      requires forall g, h :: HostileAmong(encounters, h) && h !in scope ==> !Pair(merges.merged, g, h)
      modifies merges
      ensures merges.Valid() && Swept(old(merges.merged), merges.merged, encounters, scope, dist)
      ensures ReportsOf(reports, whose, encounters, old(merges.merged), merges.merged)
    {
      var hostileIDs := HostilesOf(encounters);
      merges.Keep(hostileIDs);
      ghost var kept := merges.merged;
      reports, whose := SweepGroups(encounters, scope);
      SweptExactly(old(merges.merged), kept, merges.merged, encounters, scope, dist);
    }

    // The groups one after the other. A hostile may be in several of them.
    method SweepGroups(encounters: seq<Encounter>, scope: Scope)
      returns (reports: seq<seq<Trackfile>>, ghost whose: seq<seq<ID>>)
      requires merges.Valid() && KeyedByID(scope) && Sided(encounters, scope) && Coherent(encounters, scope, dist)
      requires forall g, h :: HostileAmong(encounters, h) && h !in scope ==> !Pair(merges.merged, g, h)
      modifies merges
      ensures merges.Valid() && SweptSoFar(old(merges.merged), merges.merged, encounters, scope, dist)
      ensures ReportsOf(reports, whose, encounters, old(merges.merged), merges.merged)
    {
      ghost var kept := merges.merged;
      reports, whose := [], [];
      for i := 0 to |encounters|
        invariant merges.Valid()
        invariant SweptSoFar(kept, merges.merged, encounters[..i], scope, dist)
        invariant ReportsOf(reports, whose, encounters[..i], kept, merges.merged)
      {
        ghost var before, earlier, names := merges.merged, reports, whose;
        SidesOfNext(encounters, i, kept, before, scope, dist);
        var newlyMerged; ghost var theirs;
        newlyMerged, theirs := UpdateMergesForGroup(encounters[i], scope);
        reports, whose := reports + [newlyMerged], whose + [theirs];
        GroupStep(encounters, i, kept, before, merges.merged, scope, dist);
        ReportsOneMore(encounters, i, kept, before, merges.merged, scope, dist, earlier, names, newlyMerged, theirs);
      }
      assert encounters[..|encounters|] == encounters;
    }

    method HostilesOf(encounters: seq<Encounter>) returns (ids: seq<ID>)
      ensures forall h :: h in ids <==> HostileAmong(encounters, h)
    {
      ids := [];
      for i := 0 to |encounters|
        invariant forall h :: h in ids <==> HostileAmong(encounters[..i], h)
      {
        ids := ids + encounters[i].hostileIDs;
        OthersUntouched(encounters, i);
      }
      assert encounters[..|encounters|] == encounters;
    }
  }

  ghost predicate HostileAmong(encounters: seq<Encounter>, h: ID) {
    exists k :: 0 <= k < |encounters| && h in encounters[k].hostileIDs
  }

  // No group lists a contact twice, and hostiles that are gone are not friendlies.
  ghost predicate Sided(encounters: seq<Encounter>, scope: Scope) {
    && (forall i :: 0 <= i < |encounters| ==> Distinct(encounters[i].hostileIDs) && DistinctIDs(encounters[i].friendlies))
    && (forall i, h :: 0 <= i < |encounters| && HostileAmong(encounters, h) && h !in scope ==>
          !Lists(encounters[i].friendlies, h))
  }

  // Groups that share a hostile list the same friendlies within the exit
  // distance of it; what else they list may differ.
  ghost predicate Coherent(encounters: seq<Encounter>, scope: Scope, dist: Metric) {
    forall i, j, h, t ::
      0 <= i < |encounters| && 0 <= j < |encounters| && h in encounters[i].hostileIDs && h in encounters[j].hostileIDs
      && t in encounters[i].friendlies ==>
        && (forall u :: u in encounters[j].friendlies && u.contact.id == t.contact.id ==> u == t)
        && (IsNear(h, t, scope, dist) ==> t in encounters[j].friendlies)
  }

  predicate IsNear(h: ID, t: Trackfile, scope: Scope, dist: Metric) {
    h in scope && !scope[h].IsLastKnownPointZero() && !t.IsLastKnownPointZero()
    && Apart(t, scope[h], dist) < MERGE_EXIT_DISTANCE
  }

  function Apart(t: Trackfile, hostile: Trackfile, dist: Metric): real {
    dist(t.LastKnown().point, hostile.LastKnown().point)
  }

  ghost predicate KeptBySome(was: Merged, h: ID, f: ID, encounters: seq<Encounter>, scope: Scope, dist: Metric) {
    exists k :: 0 <= k < |encounters| && h in encounters[k].hostileIDs
                && Keeps(was, h, f, encounters[k].friendlies, scope, dist)
  }

  ghost predicate ListedByAll(encounters: seq<Encounter>, h: ID, f: ID) {
    forall k :: 0 <= k < |encounters| && h in encounters[k].hostileIDs ==> Lists(encounters[k].friendlies, f)
  }

  // After a sweep a pair is merged exactly when its hostile is live and in a
  // reported group, its friendly is in the list of every such group, both have a
  // position, and they are below 3 NM, or were merged and are not above 5 NM.
  ghost predicate NowMerged(was: Merged, h: ID, f: ID, encounters: seq<Encounter>, scope: Scope, dist: Metric) {
    KeptBySome(was, h, f, encounters, scope, dist) && ListedByAll(encounters, h, f)
  }

  ghost predicate Swept(was: Merged, m: Merged, encounters: seq<Encounter>, scope: Scope, dist: Metric) {
    forall h, f :: Pair(m, h, f) <==> NowMerged(was, h, f, encounters, scope, dist)
  }

  // The same with the pairs of all other hostiles as they were.
  ghost predicate SweptSoFar(kept: Merged, m: Merged, encounters: seq<Encounter>, scope: Scope, dist: Metric) {
    forall h, f :: Pair(m, h, f) <==>
      if HostileAmong(encounters, h) then NowMerged(kept, h, f, encounters, scope, dist) else Pair(kept, h, f)
  }

  // Which groups list a friendly matters only at exactly the exit distance.
  lemma ListsMatterAtTheExitOnly(was: Merged, h: ID, f: ID, encounters: seq<Encounter>, scope: Scope, dist: Metric)
    requires Coherent(encounters, scope, dist) && KeptBySome(was, h, f, encounters, scope, dist)
    ensures NowMerged(was, h, f, encounters, scope, dist)
         || (Pair(was, h, f) && exists t :: ListedWith(encounters, h, f, t) && Apart(t, scope[h], dist) == MERGE_EXIT_DISTANCE)
  {
    var i :| 0 <= i < |encounters| && h in encounters[i].hostileIDs
             && Keeps(was, h, f, encounters[i].friendlies, scope, dist);
    var t :| t in encounters[i].friendlies && t.contact.id == f && InMerge(Pair(was, h, f), scope[h], t, dist);
    assert ListedWith(encounters, h, f, t);
    if Apart(t, scope[h], dist) != MERGE_EXIT_DISTANCE {
      assert IsNear(h, t, scope, dist);
    }
  }

  lemma OthersUntouched(encounters: seq<Encounter>, i: nat)
    requires i < |encounters|
    ensures forall h :: HostileAmong(encounters[..i + 1], h) <==>
      HostileAmong(encounters[..i], h) || h in encounters[i].hostileIDs
  {
    forall h ensures HostileAmong(encounters[..i + 1], h) <==>
      HostileAmong(encounters[..i], h) || h in encounters[i].hostileIDs
    {
      if h in encounters[i].hostileIDs {
        assert encounters[..i + 1][i] == encounters[i];
      } else if HostileAmong(encounters[..i], h) {
        var k :| 0 <= k < i && h in encounters[..i][k].hostileIDs;
        assert encounters[..i + 1][k] == encounters[k];
      }
    }
  }

  lemma SidesOfNext(encounters: seq<Encounter>, i: nat, kept: Merged, m: Merged, scope: Scope, dist: Metric)
    requires i < |encounters| && Sided(encounters, scope)
    requires forall g, h :: HostileAmong(encounters, h) && h !in scope ==> !Pair(kept, g, h)
    requires SweptSoFar(kept, m, encounters[..i], scope, dist)
    ensures Sides(encounters[i], m, scope)
  {
    assert forall h :: h in encounters[i].hostileIDs ==> HostileAmong(encounters, h);
    forall g, h | h in encounters[i].hostileIDs && h !in scope ensures !Pair(m, g, h) {
      if HostileAmong(encounters[..i], g) {
        var k :| 0 <= k < i && g in encounters[..i][k].hostileIDs;
        assert !Lists(encounters[k].friendlies, h);
      }
    }
  }

  // A hostile that no group so far had: the group at hand decides.
  lemma FirstVisit(encounters: seq<Encounter>, e: Encounter, kept: Merged, before: Merged, h: ID, f: ID, scope: Scope, dist: Metric)
    requires h in e.hostileIDs && !HostileAmong(encounters, h) && (Pair(before, h, f) <==> Pair(kept, h, f))
    ensures Keeps(before, h, f, e.friendlies, scope, dist) <==> NowMerged(kept, h, f, encounters + [e], scope, dist)
  {
    var all := encounters + [e];
    assert all[|encounters|] == e;
    assert forall k :: 0 <= k < |encounters| ==> h !in encounters[k].hostileIDs;
    assert forall k :: 0 <= k < |all| && h in all[k].hostileIDs ==> all[k] == e;
    assert KeptBySome(kept, h, f, all, scope, dist) <==> Keeps(kept, h, f, e.friendlies, scope, dist);
    assert ListedByAll(all, h, f) <==> Lists(e.friendlies, f);
    assert Keeps(before, h, f, e.friendlies, scope, dist) <==> Keeps(kept, h, f, e.friendlies, scope, dist);
  }

  lemma OneMoreList(encounters: seq<Encounter>, e: Encounter, h: ID, f: ID)
    requires h in e.hostileIDs
    ensures ListedByAll(encounters + [e], h, f) <==> ListedByAll(encounters, h, f) && Lists(e.friendlies, f)
  {
    var all := encounters + [e];
    assert all[|encounters|] == e;
    if ListedByAll(all, h, f) {
      forall k | 0 <= k < |encounters| && h in encounters[k].hostileIDs ensures Lists(encounters[k].friendlies, f) {
        assert all[k] == encounters[k];
      }
    }
  }

  // Groups that share a hostile and list a friendly agree on keeping it.
  lemma KeepsElsewhere(encounters: seq<Encounter>, i: nat, j: nat, m: Merged, h: ID, f: ID, scope: Scope, dist: Metric)
    requires Coherent(encounters, scope, dist) && i < |encounters| && j < |encounters|
    requires h in encounters[i].hostileIDs && h in encounters[j].hostileIDs
    requires Keeps(m, h, f, encounters[i].friendlies, scope, dist)
    ensures Lists(encounters[j].friendlies, f) ==> Keeps(m, h, f, encounters[j].friendlies, scope, dist)
    ensures !Pair(m, h, f) ==> Lists(encounters[j].friendlies, f)
  {
    var t :| t in encounters[i].friendlies && t.contact.id == f && InMerge(Pair(m, h, f), scope[h], t, dist);
    if !Pair(m, h, f) {
      assert IsNear(h, t, scope, dist);
    }
    if Lists(encounters[j].friendlies, f) {
      var u :| u in encounters[j].friendlies && u.contact.id == f;
      assert u == t;
    }
  }

  // A new pair is listed, and kept, by every group with its hostile.
  lemma NewIsKeptByAll(encounters: seq<Encounter>, i: nat, m: Merged, h: ID, f: ID, scope: Scope, dist: Metric)
    requires Coherent(encounters, scope, dist) && i < |encounters| && h in encounters[i].hostileIDs
    requires Keeps(m, h, f, encounters[i].friendlies, scope, dist) && !Pair(m, h, f)
    ensures ListedByAll(encounters, h, f)
    ensures forall k :: 0 <= k < |encounters| && h in encounters[k].hostileIDs ==> Keeps(m, h, f, encounters[k].friendlies, scope, dist)
  {
    forall k | 0 <= k < |encounters| && h in encounters[k].hostileIDs
      ensures Lists(encounters[k].friendlies, f) && Keeps(m, h, f, encounters[k].friendlies, scope, dist)
    {
      KeepsElsewhere(encounters, i, k, m, h, f, scope, dist);
    }
  }

  // What is new is kept whatever was merged before.
  lemma NewIsKeptAnyway(m: Merged, m': Merged, h: ID, f: ID, friendlies: seq<Trackfile>, scope: Scope, dist: Metric)
    requires Keeps(m, h, f, friendlies, scope, dist) && (Pair(m, h, f) ==> Pair(m', h, f))
    ensures Keeps(m', h, f, friendlies, scope, dist)
  {
    var t :| t in friendlies && t.contact.id == f && InMerge(Pair(m, h, f), scope[h], t, dist);
    assert InMerge(Pair(m', h, f), scope[h], t, dist);
  }

  // What would be new in a later visit was merged in an earlier one.
  lemma NewWasMerged(encounters: seq<Encounter>, e: Encounter, m: Merged, kept: Merged, h: ID, f: ID, scope: Scope, dist: Metric)
    requires h in e.hostileIDs && HostileAmong(encounters, h) && Coherent(encounters + [e], scope, dist)
    requires Keeps(m, h, f, e.friendlies, scope, dist) && !Pair(m, h, f)
    ensures NowMerged(kept, h, f, encounters, scope, dist)
  {
    var all, n := encounters + [e], |encounters|;
    assert all[n] == e && forall k :: 0 <= k < n ==> all[k] == encounters[k];
    NewIsKeptByAll(all, n, m, h, f, scope, dist);
    OneMoreList(encounters, e, h, f);
    var j :| 0 <= j < n && h in encounters[j].hostileIDs;
    assert h in all[j].hostileIDs;
    NewIsKeptAnyway(m, kept, h, f, encounters[j].friendlies, scope, dist);
  }

  // A hostile that an earlier group had. The group at hand can only end its
  // merges, and only those of friendlies it does not list.
  lemma LaterVisit(encounters: seq<Encounter>, e: Encounter, kept: Merged, before: Merged, h: ID, f: ID, scope: Scope, dist: Metric)
    requires h in e.hostileIDs && HostileAmong(encounters, h) && Coherent(encounters + [e], scope, dist)
    requires Pair(before, h, f) <==> NowMerged(kept, h, f, encounters, scope, dist)
    ensures Keeps(before, h, f, e.friendlies, scope, dist) <==> Pair(before, h, f) && Lists(e.friendlies, f)
    ensures Pair(before, h, f) && !Pair(kept, h, f) ==> Lists(e.friendlies, f)
  {
    var all, n := encounters + [e], |encounters|;
    assert all[n] == e && forall k :: 0 <= k < n ==> all[k] == encounters[k];
    if Pair(before, h, f) {
      var k :| 0 <= k < n && h in encounters[k].hostileIDs && Keeps(kept, h, f, encounters[k].friendlies, scope, dist);
      KeepsElsewhere(all, k, n, kept, h, f, scope, dist);
      if Lists(e.friendlies, f) {
        NewIsKeptAnyway(kept, before, h, f, e.friendlies, scope, dist);
      }
    } else if Keeps(before, h, f, e.friendlies, scope, dist) {
      NewWasMerged(encounters, e, before, kept, h, f, scope, dist);
    }
  }

  // What that makes of the pair in the sweep so far.
  lemma LaterMerged(encounters: seq<Encounter>, e: Encounter, kept: Merged, h: ID, f: ID, scope: Scope, dist: Metric)
    requires h in e.hostileIDs && HostileAmong(encounters, h) && Coherent(encounters + [e], scope, dist)
    ensures NowMerged(kept, h, f, encounters + [e], scope, dist) <==>
      NowMerged(kept, h, f, encounters, scope, dist) && Lists(e.friendlies, f)
  {
    var all, n := encounters + [e], |encounters|;
    assert all[n] == e && forall k :: 0 <= k < n ==> all[k] == encounters[k];
    OneMoreList(encounters, e, h, f);
    if NowMerged(kept, h, f, all, scope, dist) {
      var k :| 0 <= k < |all| && h in all[k].hostileIDs && Keeps(kept, h, f, all[k].friendlies, scope, dist);
      var j :| 0 <= j < n && h in encounters[j].hostileIDs;
      assert h in all[j].hostileIDs;
      KeepsElsewhere(all, k, j, kept, h, f, scope, dist);
      assert Keeps(kept, h, f, encounters[j].friendlies, scope, dist);
    }
    if NowMerged(kept, h, f, encounters, scope, dist) {
      var k :| 0 <= k < n && h in encounters[k].hostileIDs && Keeps(kept, h, f, encounters[k].friendlies, scope, dist);
      assert h in all[k].hostileIDs && Keeps(kept, h, f, all[k].friendlies, scope, dist);
    }
  }

  lemma CoherentPrefix(encounters: seq<Encounter>, i: nat, scope: Scope, dist: Metric)
    requires i < |encounters| && Coherent(encounters, scope, dist)
    ensures encounters[..i + 1] == encounters[..i] + [encounters[i]]
    ensures Coherent(encounters[..i] + [encounters[i]], scope, dist)
  {
  }

  // What one group does to the pairs of its hostiles.
  ghost predicate Visited(before: Merged, after: Merged, e: Encounter, scope: Scope, dist: Metric) {
    && (forall h, f :: h in e.hostileIDs ==> (Pair(after, h, f) <==> Keeps(before, h, f, e.friendlies, scope, dist)))
    && (forall h, f :: h !in e.hostileIDs ==> (Pair(after, h, f) <==> Pair(before, h, f)))
  }

  lemma GroupStep(encounters: seq<Encounter>, i: nat, kept: Merged, before: Merged, after: Merged, scope: Scope, dist: Metric)
    requires i < |encounters| && Coherent(encounters, scope, dist)
    requires SweptSoFar(kept, before, encounters[..i], scope, dist) && Visited(before, after, encounters[i], scope, dist)
    ensures SweptSoFar(kept, after, encounters[..i + 1], scope, dist)
  {
    var es, e := encounters[..i], encounters[i];
    CoherentPrefix(encounters, i, scope, dist);
    OthersUntouched(encounters, i);
    forall h, f
      ensures Pair(after, h, f) <==>
        if HostileAmong(es + [e], h) then NowMerged(kept, h, f, es + [e], scope, dist) else Pair(kept, h, f)
    {
      if h !in e.hostileIDs {
        OtherGroup(es, e, kept, h, f, scope, dist);
      } else if HostileAmong(es, h) {
        LaterVisit(es, e, kept, before, h, f, scope, dist);
        LaterMerged(es, e, kept, h, f, scope, dist);
      } else {
        FirstVisit(es, e, kept, before, h, f, scope, dist);
      }
    }
  }

  lemma OtherGroup(encounters: seq<Encounter>, e: Encounter, kept: Merged, h: ID, f: ID, scope: Scope, dist: Metric)
    requires h !in e.hostileIDs
    ensures NowMerged(kept, h, f, encounters + [e], scope, dist) <==> NowMerged(kept, h, f, encounters, scope, dist)
  {
    var all := encounters + [e];
    assert forall k :: 0 <= k < |encounters| ==> all[k] == encounters[k];
    assert forall k :: 0 <= k < |all| && h in all[k].hostileIDs ==> k < |encounters|;
  }

  // Only a first visit brings a new pair in, and later visits keep it.
  lemma NewPairsLast(encounters: seq<Encounter>, i: nat, kept: Merged, before: Merged, after: Merged, scope: Scope, dist: Metric,
                     h: ID, f: ID)
    requires i < |encounters| && Coherent(encounters, scope, dist)
    requires SweptSoFar(kept, before, encounters[..i], scope, dist) && Visited(before, after, encounters[i], scope, dist)
    ensures Pair(after, h, f) && !Pair(before, h, f) ==> h in encounters[i].hostileIDs && !Pair(kept, h, f)
    ensures Pair(before, h, f) && !Pair(kept, h, f) ==> Pair(after, h, f)
  {
    var es, e := encounters[..i], encounters[i];
    CoherentPrefix(encounters, i, scope, dist);
    if h in e.hostileIDs && HostileAmong(es, h) {
      LaterVisit(es, e, kept, before, h, f, scope, dist);
    }
  }

  lemma SweptExactly(was: Merged, kept: Merged, m: Merged, encounters: seq<Encounter>, scope: Scope, dist: Metric)
    requires forall h, f :: Pair(kept, h, f) <==> Pair(was, h, f) && HostileAmong(encounters, h)
    requires SweptSoFar(kept, m, encounters, scope, dist)
    ensures Swept(was, m, encounters, scope, dist)
    ensures forall h, f :: Pair(m, h, f) ==> (Pair(kept, h, f) <==> Pair(was, h, f))
  {
    forall h, f ensures Pair(m, h, f) <==> NowMerged(was, h, f, encounters, scope, dist) {
      if HostileAmong(encounters, h) {
        forall k | 0 <= k < |encounters|
          ensures Keeps(kept, h, f, encounters[k].friendlies, scope, dist) <==> Keeps(was, h, f, encounters[k].friendlies, scope, dist)
        {
          KeepsAlike(kept, was, h, encounters[k].friendlies, scope, dist);
        }
      }
    }
  }

  // ---- What is reported -------------------------------------------------------------------

  // The pair (h, f) is among the new merges of a group.
  ghost predicate Tells(news: seq<Trackfile>, whose: seq<ID>, h: ID, f: ID) {
    exists n :: 0 <= n < |news| && n < |whose| && whose[n] == h && news[n].contact.id == f
  }

  ghost predicate ToldBySome(reports: seq<seq<Trackfile>>, whose: seq<seq<ID>>, h: ID, f: ID)
    requires |reports| == |whose|
  {
    exists k :: 0 <= k < |reports| && Tells(reports[k], whose[k], h, f)
  }

  // No pair is reported twice, by one group or by two.
  ghost predicate ToldOnce(reports: seq<seq<Trackfile>>, whose: seq<seq<ID>>)
    requires |reports| == |whose|
  {
    && (forall k :: 0 <= k < |reports| ==> |whose[k]| == |reports[k]| && EachOnce(reports[k], whose[k]))
    && (forall j, k, h, f :: 0 <= j < k < |reports| && Tells(reports[j], whose[j], h, f) ==> !Tells(reports[k], whose[k], h, f))
  }

  ghost predicate EachOnce(news: seq<Trackfile>, whose: seq<ID>)
    requires |news| == |whose|
  {
    forall a, b :: 0 <= a < b < |news| ==> (whose[a], news[a].contact.id) != (whose[b], news[b].contact.id)
  }

  // A group reports friendlies in its list that merged with one of its hostiles.
  ghost predicate FromEncounter(news: seq<Trackfile>, whose: seq<ID>, e: Encounter) {
    |whose| == |news| && forall n :: 0 <= n < |news| ==> whose[n] in e.hostileIDs && news[n] in e.friendlies
  }

  // Reported are exactly the pairs that are merged now and were not before,
  // each once, by a group that has both.
  ghost predicate ReportsOf(reports: seq<seq<Trackfile>>, whose: seq<seq<ID>>, encounters: seq<Encounter>, was: Merged, m: Merged) {
    && |reports| == |whose| == |encounters|
    && (forall h, f :: ToldBySome(reports, whose, h, f) <==> Pair(m, h, f) && !Pair(was, h, f))
    && ToldOnce(reports, whose)
    && forall k :: 0 <= k < |reports| ==> FromEncounter(reports[k], whose[k], encounters[k])
  }

  // A group tells its new pairs.
  lemma TellsNewPairs(news: seq<Trackfile>, whose: seq<ID>, e: Encounter, before: Merged, after: Merged, scope: Scope, dist: Metric)
    requires Reports(news, whose, e.hostileIDs, e.friendlies, before, after) && Visited(before, after, e, scope, dist)
    ensures forall h, f :: Tells(news, whose, h, f) <==> Pair(after, h, f) && !Pair(before, h, f)
  {
    forall h, f | Pair(after, h, f) && !Pair(before, h, f) ensures Tells(news, whose, h, f) {
      var t :| t in e.friendlies && t.contact.id == f;
      assert Reported(news, whose, h, t);
    }
  }

  lemma ReportsOneMore(encounters: seq<Encounter>, i: nat, kept: Merged, before: Merged, after: Merged, scope: Scope, dist: Metric,
                       reports: seq<seq<Trackfile>>, whose: seq<seq<ID>>, news: seq<Trackfile>, theirs: seq<ID>)
    requires i < |encounters| && Coherent(encounters, scope, dist)
    requires SweptSoFar(kept, before, encounters[..i], scope, dist) && Visited(before, after, encounters[i], scope, dist)
    requires ReportsOf(reports, whose, encounters[..i], kept, before)
    requires Reports(news, theirs, encounters[i].hostileIDs, encounters[i].friendlies, before, after)
    ensures ReportsOf(reports + [news], whose + [theirs], encounters[..i + 1], kept, after)
  {
    TellsNewPairs(news, theirs, encounters[i], before, after, scope, dist);
    forall h, f ensures ToldBySome(reports + [news], whose + [theirs], h, f) <==> Pair(after, h, f) && !Pair(kept, h, f) {
      NewPairsLast(encounters, i, kept, before, after, scope, dist, h, f);
      ToldOneMore(reports, whose, news, theirs, h, f);
    }
    StillOnce(reports, whose, news, theirs);
    AllFromEncounters(reports, whose, news, theirs, encounters, i);
  }

  lemma AllFromEncounters(reports: seq<seq<Trackfile>>, whose: seq<seq<ID>>, news: seq<Trackfile>, theirs: seq<ID>,
                          encounters: seq<Encounter>, i: nat)
    requires |reports| == |whose| == i < |encounters| && FromEncounter(news, theirs, encounters[i])
    requires forall k :: 0 <= k < i ==> FromEncounter(reports[k], whose[k], encounters[k])
    ensures forall k :: 0 <= k <= i ==> FromEncounter((reports + [news])[k], (whose + [theirs])[k], encounters[k])
  {
  }

  lemma ToldOneMore(reports: seq<seq<Trackfile>>, whose: seq<seq<ID>>, news: seq<Trackfile>, theirs: seq<ID>, h: ID, f: ID)
    requires |reports| == |whose|
    ensures ToldBySome(reports + [news], whose + [theirs], h, f) <==> ToldBySome(reports, whose, h, f) || Tells(news, theirs, h, f)
  {
    var all, names := reports + [news], whose + [theirs];
    assert all[|reports|] == news && names[|reports|] == theirs;
    if ToldBySome(reports, whose, h, f) {
      var k :| 0 <= k < |reports| && Tells(reports[k], whose[k], h, f);
      assert Tells(all[k], names[k], h, f);
    }
  }

  lemma StillOnce(reports: seq<seq<Trackfile>>, whose: seq<seq<ID>>, news: seq<Trackfile>, theirs: seq<ID>)
    requires |reports| == |whose| && ToldOnce(reports, whose) && |theirs| == |news| && EachOnce(news, theirs)
    requires forall h, f :: Tells(news, theirs, h, f) ==> !ToldBySome(reports, whose, h, f)
    ensures ToldOnce(reports + [news], whose + [theirs])
  {
  }

  // Contacts are listed once, and no hostile that is gone is taken for a friendly.
  ghost predicate Sides(e: Encounter, m: Merged, scope: Scope) {
    && Distinct(e.hostileIDs) && DistinctIDs(e.friendlies)
    && (forall h :: h in e.hostileIDs && h !in scope ==> !Lists(e.friendlies, h))
    && (forall g, h :: h in e.hostileIDs && h !in scope ==> !Pair(m, g, h))
  }

  // The reported friendlies, each with its hostile: every new merge once.
  ghost predicate Reports(news: seq<Trackfile>, whose: seq<ID>, hostileIDs: seq<ID>, friendlies: seq<Trackfile>,
                          was: Merged, m: Merged) {
    && |whose| == |news|
    && (forall k :: 0 <= k < |news| ==>
          whose[k] in hostileIDs && news[k] in friendlies
          && Pair(m, whose[k], news[k].contact.id) && !Pair(was, whose[k], news[k].contact.id))
    && (forall h, t :: h in hostileIDs && t in friendlies && Pair(m, h, t.contact.id) && !Pair(was, h, t.contact.id) ==>
          Reported(news, whose, h, t))
    && (forall j, k :: 0 <= j < k < |news| ==> (whose[j], news[j].contact.id) != (whose[k], news[k].contact.id))
  }

  ghost predicate Reported(news: seq<Trackfile>, whose: seq<ID>, h: ID, t: Trackfile)
    requires |whose| == |news|
  {
    exists k :: 0 <= k < |news| && whose[k] == h && news[k] == t
  }

  lemma NotSeenBefore(ids: seq<ID>, i: nat)
    requires i < |ids| && Distinct(ids)
    ensures ids[i] !in ids[..i] && ids[i] in ids && ids[..i + 1] == ids[..i] + [ids[i]]
  {
  }

  lemma KeepsAlike(m: Merged, m': Merged, h: ID, friendlies: seq<Trackfile>, scope: Scope, dist: Metric)
    requires forall f :: Pair(m, h, f) <==> Pair(m', h, f)
    ensures forall f :: Keeps(m, h, f, friendlies, scope, dist) <==> Keeps(m', h, f, friendlies, scope, dist)
  {
  }

  lemma ReportsStep(news: seq<Trackfile>, whose: seq<ID>, more: seq<Trackfile>, ids: seq<ID>, i: nat,
                    friendlies: seq<Trackfile>, was: Merged, before: Merged, after: Merged)
    requires i < |ids| && ids[i] !in ids[..i]
    requires Reports(news, whose, ids[..i], friendlies, was, before)
    requires forall t :: t in more <==>
      t in friendlies && Pair(after, ids[i], t.contact.id) && !Pair(before, ids[i], t.contact.id)
    requires DistinctIDs(more)
    requires forall f :: Pair(before, ids[i], f) <==> Pair(was, ids[i], f)
    requires forall h, f :: h != ids[i] ==> (Pair(after, h, f) <==> Pair(before, h, f))
    ensures Reports(news + more, whose + seq(|more|, _ => ids[i]), ids[..i + 1], friendlies, was, after)
  {
    var all, names, h0 := news + more, whose + seq(|more|, _ => ids[i]), ids[i];
    assert ids[..i + 1] == ids[..i] + [h0];
    forall k | 0 <= k < |all|
      ensures names[k] in ids[..i + 1] && all[k] in friendlies
      ensures Pair(after, names[k], all[k].contact.id) && !Pair(was, names[k], all[k].contact.id)
    {
      if k >= |news| {
        assert all[k] == more[k - |news|] && all[k] in more && names[k] == h0;
      } else {
        assert all[k] == news[k] && names[k] == whose[k];
      }
    }
    forall h, t | h in ids[..i + 1] && t in friendlies && Pair(after, h, t.contact.id) && !Pair(was, h, t.contact.id)
      ensures Reported(all, names, h, t)
    {
      if h == h0 {
        assert t in more;
        var k :| 0 <= k < |more| && more[k] == t;
        assert all[|news| + k] == t && names[|news| + k] == h0;
      } else {
        assert Reported(news, whose, h, t);
        var k :| 0 <= k < |news| && whose[k] == h && news[k] == t;
        assert all[k] == t && names[k] == h;
      }
    }
  }

  // The new merges of a hostile among the friendlies seen so far.
  ghost predicate NewAmong(news: seq<Trackfile>, seen: seq<Trackfile>, was: Merged, m: Merged, h: ID) {
    && (forall t :: t in news <==> t in seen && Pair(m, h, t.contact.id) && !Pair(was, h, t.contact.id))
    && DistinctIDs(news)
  }

  lemma NewAmongStep(news: seq<Trackfile>, friendlies: seq<Trackfile>, j: nat, was: Merged, before: Merged, after: Merged,
                     h: ID, isNew: bool)
    requires j < |friendlies| && DistinctIDs(friendlies)
    requires NewAmong(news, friendlies[..j], was, before, h)
    requires isNew <==> Pair(after, h, friendlies[j].contact.id) && !Pair(before, h, friendlies[j].contact.id)
    requires Pair(before, h, friendlies[j].contact.id) <==> Pair(was, h, friendlies[j].contact.id)
    requires forall f :: f != friendlies[j].contact.id ==> (Pair(after, h, f) <==> Pair(before, h, f))
    ensures NewAmong(if isNew then news + [friendlies[j]] else news, friendlies[..j + 1], was, after, h)
  {
    var t := friendlies[j];
    assert friendlies[..j + 1] == friendlies[..j] + [t];
    forall u | u in friendlies[..j] ensures u.contact.id != t.contact.id {
      var k :| 0 <= k < j && friendlies[k] == u;
    }
  }

  lemma KeptExactly(was: Merged, m: Merged, h: ID, friendlies: seq<Trackfile>, scope: Scope, dist: Metric)
    requires h in scope
    requires forall k :: 0 <= k < |friendlies| ==>
      (Pair(m, h, friendlies[k].contact.id) <==>
       InMerge(Pair(was, h, friendlies[k].contact.id), scope[h], friendlies[k], dist))
    requires forall f :: Pair(m, h, f) ==> Lists(friendlies, f)
    ensures forall f :: Pair(m, h, f) <==> Keeps(was, h, f, friendlies, scope, dist)
  {
    forall f ensures Pair(m, h, f) <==> Keeps(was, h, f, friendlies, scope, dist) {
      if Pair(m, h, f) {
        var t :| t in friendlies && t.contact.id == f;
        var k :| 0 <= k < |friendlies| && friendlies[k] == t;
      }
    }
  }

  // ---- Runs --------------------------------------------------------------------------------

  // Sweeps, removed contacts and mission restarts.
  datatype Event = SweepDone(encounters: seq<Encounter>, scope: Scope) | Forgotten(id: ID) | Restarted

  ghost predicate Step(m: Merged, e: Event, m': Merged, dist: Metric) {
    match e
    case SweepDone(encounters, scope) => Coherent(encounters, scope, dist) && Swept(m, m', encounters, scope, dist)
    case Forgotten(id) => m' == Removed(m, id)
    case Restarted => m' == map[]
  }

  ghost predicate Run(states: seq<Merged>, events: seq<Event>, dist: Metric) {
    && |states| == |events| + 1
    && forall i :: 0 <= i < |events| ==> Step(states[i], events[i], states[i + 1], dist)
  }

  // A merged call is due: the pair is merged now and was not before.
  predicate Enters(states: seq<Merged>, events: seq<Event>, i: nat, h: ID, f: ID)
    requires |states| == |events| + 1 && i < |events|
  {
    events[i].SweepDone? && !Pair(states[i], h, f) && Pair(states[i + 1], h, f)
  }

  predicate Leaves(states: seq<Merged>, i: nat, h: ID, f: ID)
    requires i + 1 < |states|
  {
    Pair(states[i], h, f) && !Pair(states[i + 1], h, f)
  }

  // The friendly t is listed as f with the group of h.
  ghost predicate ListedWith(encounters: seq<Encounter>, h: ID, f: ID, t: Trackfile) {
    exists k :: 0 <= k < |encounters| && h in encounters[k].hostileIDs && t in encounters[k].friendlies && t.contact.id == f
  }

  // Why a step separates a pair: it is forgotten, the hostile is gone or has no
  // position, no group of the hostile lists the friendly, or the friendly has no
  // position, or is above the exit distance, or at it and not listed by all.
  ghost predicate Separates(e: Event, h: ID, f: ID, dist: Metric) {
    match e
    case Restarted => true
    case Forgotten(id) => id == h || id == f
    case SweepDone(es, scope) =>
      || h !in scope || scope[h].IsLastKnownPointZero()
      || (forall t :: !ListedWith(es, h, f, t))
      || exists t :: ListedWith(es, h, f, t) && IsOutOfReach(es, h, f, t, scope[h], dist)
  }

  ghost predicate IsOutOfReach(es: seq<Encounter>, h: ID, f: ID, t: Trackfile, hostile: Trackfile, dist: Metric) {
    || t.IsLastKnownPointZero() || Apart(t, hostile, dist) > MERGE_EXIT_DISTANCE
    || (Apart(t, hostile, dist) == MERGE_EXIT_DISTANCE && !ListedByAll(es, h, f))
  }

  // A pair enters when it is listed, both have a position, and they are below
  // the entry distance.
  ghost predicate Closes(e: Event, h: ID, f: ID, dist: Metric) {
    e.SweepDone? && h in e.scope && !e.scope[h].IsLastKnownPointZero()
    && exists t :: ListedWith(e.encounters, h, f, t) && !t.IsLastKnownPointZero()
                   && Apart(t, e.scope[h], dist) < MERGE_ENTRY_DISTANCE
  }

  // What a step makes of a pair. Of a sweep it is known exactly.
  lemma HysteresisOfStep(m: Merged, e: Event, m': Merged, dist: Metric, h: ID, f: ID)
    requires Step(m, e, m', dist)
    ensures !Pair(m, h, f) && Pair(m', h, f) ==> Closes(e, h, f, dist)
    ensures Pair(m, h, f) && !Pair(m', h, f) ==> Separates(e, h, f, dist)
    ensures e.SweepDone? ==> (Pair(m', h, f) <==> if Pair(m, h, f) then !Separates(e, h, f, dist) else Closes(e, h, f, dist))
  {
    match e
    case Restarted =>
    case Forgotten(id) =>
      if id != h && id != f {
        RemoveKeepsOthers(m, id, h, f);
      }
    case SweepDone(es, scope) =>
      if Pair(m, h, f) {
        if NowMerged(m, h, f, es, scope, dist) {
          MergedIsInReach(m, es, scope, dist, h, f);
        } else {
          LeavingIsFar(m, es, scope, dist, h, f);
        }
      } else if NowMerged(m, h, f, es, scope, dist) {
        EnteringIsClose(m, es, scope, dist, h, f);
      } else if Closes(e, h, f, dist) {
        CloseEnters(m, es, scope, dist, h, f);
      }
  }

  lemma EnteringIsClose(m: Merged, es: seq<Encounter>, scope: Scope, dist: Metric, h: ID, f: ID)
    requires !Pair(m, h, f) && NowMerged(m, h, f, es, scope, dist)
    ensures Closes(SweepDone(es, scope), h, f, dist)
  {
    var k :| 0 <= k < |es| && h in es[k].hostileIDs && Keeps(m, h, f, es[k].friendlies, scope, dist);
    var t :| t in es[k].friendlies && t.contact.id == f && InMerge(false, scope[h], t, dist);
    assert ListedWith(es, h, f, t);
  }

  lemma CloseEnters(m: Merged, es: seq<Encounter>, scope: Scope, dist: Metric, h: ID, f: ID)
    requires Coherent(es, scope, dist) && !Pair(m, h, f) && Closes(SweepDone(es, scope), h, f, dist)
    ensures NowMerged(m, h, f, es, scope, dist)
  {
    var t :| ListedWith(es, h, f, t) && !t.IsLastKnownPointZero() && Apart(t, scope[h], dist) < MERGE_ENTRY_DISTANCE;
    var k: nat :| k < |es| && h in es[k].hostileIDs && t in es[k].friendlies && t.contact.id == f;
    assert Keeps(m, h, f, es[k].friendlies, scope, dist);
    NewIsKeptByAll(es, k, m, h, f, scope, dist);
  }

  lemma MergedIsInReach(m: Merged, es: seq<Encounter>, scope: Scope, dist: Metric, h: ID, f: ID)
    requires Coherent(es, scope, dist) && NowMerged(m, h, f, es, scope, dist)
    ensures !Separates(SweepDone(es, scope), h, f, dist)
  {
    var k :| 0 <= k < |es| && h in es[k].hostileIDs && Keeps(m, h, f, es[k].friendlies, scope, dist);
    var t :| t in es[k].friendlies && t.contact.id == f && InMerge(Pair(m, h, f), scope[h], t, dist);
    assert ListedWith(es, h, f, t);
    forall u | ListedWith(es, h, f, u) ensures !IsOutOfReach(es, h, f, u, scope[h], dist) {
      ListedAlike(es, k, scope, dist, h, t, u);
    }
  }

  lemma ListedAlike(es: seq<Encounter>, k: nat, scope: Scope, dist: Metric, h: ID, t: Trackfile, u: Trackfile)
    requires Coherent(es, scope, dist) && k < |es| && h in es[k].hostileIDs && t in es[k].friendlies
    requires ListedWith(es, h, t.contact.id, u)
    ensures u == t
  {
    var j :| 0 <= j < |es| && h in es[j].hostileIDs && u in es[j].friendlies && u.contact.id == t.contact.id;
  }

  lemma UnlistedIsNotNear(es: seq<Encounter>, scope: Scope, dist: Metric, h: ID, f: ID, t: Trackfile)
    requires Coherent(es, scope, dist) && ListedWith(es, h, f, t) && !ListedByAll(es, h, f)
    ensures !IsNear(h, t, scope, dist)
  {
    var k :| 0 <= k < |es| && h in es[k].hostileIDs && t in es[k].friendlies && t.contact.id == f;
    var j :| 0 <= j < |es| && h in es[j].hostileIDs && !Lists(es[j].friendlies, f);
    assert t !in es[j].friendlies;
  }

  lemma KeptWhenInReach(m: Merged, es: seq<Encounter>, scope: Scope, dist: Metric, h: ID, f: ID, t: Trackfile)
    requires Pair(m, h, f) && ListedWith(es, h, f, t) && h in scope && InMerge(true, scope[h], t, dist)
    ensures KeptBySome(m, h, f, es, scope, dist)
  {
    var k :| 0 <= k < |es| && h in es[k].hostileIDs && t in es[k].friendlies && t.contact.id == f;
    assert Keeps(m, h, f, es[k].friendlies, scope, dist);
  }

  lemma LeavingIsFar(m: Merged, es: seq<Encounter>, scope: Scope, dist: Metric, h: ID, f: ID)
    requires Coherent(es, scope, dist) && Pair(m, h, f) && !NowMerged(m, h, f, es, scope, dist)
    ensures Separates(SweepDone(es, scope), h, f, dist)
  {
    if h in scope && !scope[h].IsLastKnownPointZero() {
      forall t | ListedWith(es, h, f, t) ensures IsOutOfReach(es, h, f, t, scope[h], dist) {
        if InMerge(true, scope[h], t, dist) {
          KeptWhenInReach(m, es, scope, dist, h, f, t);
          UnlistedIsNotNear(es, scope, dist, h, f, t);
        }
      }
    }
  }

  lemma LeavesBetween(states: seq<Merged>, i: nat, j: nat, h: ID, f: ID) returns (k: nat)
    requires i < j < |states| && Pair(states[i + 1], h, f) && !Pair(states[j], h, f)
    ensures i < k < j && Leaves(states, k, h, f)
  {
    k := i + 1;
    while Pair(states[k + 1], h, f)
      invariant i < k < j && Pair(states[k], h, f)
      decreases j - k
    {
      k := k + 1;
    }
  }

  // Over any run, a pair is reported again only when it is close again, after a
  // step that separated it for one of those reasons.
  lemma ReportedAgainOnlyAfterSeparation(states: seq<Merged>, events: seq<Event>, dist: Metric, i: nat, j: nat, h: ID, f: ID)
    returns (k: nat)
    requires Run(states, events, dist) && i < j < |events|
    requires Enters(states, events, i, h, f) && Enters(states, events, j, h, f)
    ensures i < k < j && Leaves(states, k, h, f) && Separates(events[k], h, f, dist) && Closes(events[j], h, f, dist)
  {
    k := LeavesBetween(states, i, j, h, f);
    HysteresisOfStep(states[k], events[k], states[k + 1], dist, h, f);
    HysteresisOfStep(states[j], events[j], states[j + 1], dist, h, f);
  }
}
