/**
 Enumerating the groups of a coalition: every valid contact is in one, and when
 links work both ways no two groups overlap.
 */
module Enumeration {
  import opened Basics
  import opened Trackfiles
  import opened Encyclopedias
  import opened Grouping

  // The live contacts in the order in which one iteration happens to visit them.
  ghost predicate IsSnapshot(w: Airspace, snapshot: seq<Trackfile>) {
    DistinctIDs(snapshot) && forall t :: t in snapshot <==> IsLive(w, t)
  }

  // A contact that may seed a group.
  predicate IsCandidate(w: Airspace, t: Trackfile, coalition: Coalition) {
    t.contact.coalition == coalition && IsValidTrack(w, t)
  }

  ghost predicate InSome(ms: seq<seq<Trackfile>>, t: Trackfile) {
    exists g :: 0 <= g < |ms| && t in ms[g]
  }

  // Each is the group of a candidate, and no seed is in an earlier group.
  ghost predicate GroupsOf(w: Airspace, ms: seq<seq<Trackfile>>, coalition: Coalition) {
    && (forall g :: 0 <= g < |ms| ==>
          ms[g] != [] && IsLive(w, ms[g][0]) && IsCandidate(w, ms[g][0], coalition) && IsGroupOf(w, ms[g][0], ms[g]))
    && (forall g, h :: 0 <= g < h < |ms| ==> ms[h][0] !in ms[g])
  }

  // An enumeration: such groups, and every candidate in one of them.
  ghost predicate Enumerates(w: Airspace, ms: seq<seq<Trackfile>>, coalition: Coalition) {
    GroupsOf(w, ms, coalition) && forall t :: IsLive(w, t) && IsCandidate(w, t, coalition) ==> InSome(ms, t)
  }

  // What an iteration in this order can yield: a candidate that is in no group so
  // far seeds the next one, whatever the order of its members.
  ghost predicate Yields(w: Airspace, seen: seq<Trackfile>, coalition: Coalition, ms: seq<seq<Trackfile>>)
    decreases |seen|
  {
    if seen == [] then ms == []
    else
      var t := Last(seen);
      || (Yields(w, Init(seen), coalition, ms) && (IsCandidate(w, t, coalition) ==> InSome(ms, t)))
      || (ms != [] && Yields(w, Init(seen), coalition, Init(ms))
          && IsCandidate(w, t, coalition) && !InSome(Init(ms), t) && IsGroupOf(w, t, Last(ms)))
  }

  lemma YieldsNoGroup(w: Airspace, seen: seq<Trackfile>, coalition: Coalition, ms: seq<seq<Trackfile>>, t: Trackfile)
    requires Yields(w, seen, coalition, ms) && (IsCandidate(w, t, coalition) ==> InSome(ms, t))
    ensures Yields(w, seen + [t], coalition, ms)
  {
    assert Init(seen + [t]) == seen;
  }

  lemma YieldsGroup(w: Airspace, seen: seq<Trackfile>, coalition: Coalition, ms: seq<seq<Trackfile>>, t: Trackfile, ts: seq<Trackfile>)
    requires Yields(w, seen, coalition, ms) && IsCandidate(w, t, coalition) && !InSome(ms, t) && IsGroupOf(w, t, ts)
    ensures Yields(w, seen + [t], coalition, ms + [ts])
  {
    assert Init(seen + [t]) == seen && Init(ms + [ts]) == ms;
  }

  function MemberIDs(ms: seq<seq<Trackfile>>): set<ID> {
    if ms == [] then {} else MemberIDs(ms[..|ms| - 1]) + IDsOf(ms[|ms| - 1])
  }

  // The contacts seen so far are in a group or are no candidates, and what was
  // visited are they and all members.
  ghost predicate Seen(w: Airspace, ms: seq<seq<Trackfile>>, coalition: Coalition, visited: set<ID>, seen: seq<Trackfile>) {
    && (forall t :: t in seen && IsCandidate(w, t, coalition) ==> InSome(ms, t))
    && visited == IDsOf(seen) + MemberIDs(ms)
  }

  // A group is given by its contacts.
  method EnumerateGroups(w: Airspace, snapshot: seq<Trackfile>, coalition: Coalition) returns (groups: seq<seq<Trackfile>>)
    requires KeyedByID(w.contacts) && IsSnapshot(w, snapshot)
    ensures Enumerates(w, groups, coalition) && Yields(w, snapshot, coalition, groups)
  {
    var visited := {};
    groups := [];
    for i := 0 to |snapshot|
      invariant GroupsOf(w, groups, coalition) && Seen(w, groups, coalition, visited, snapshot[..i])
      invariant Yields(w, snapshot[..i], coalition, groups)
    {
      var trackfile := snapshot[i];
      assert snapshot[..i + 1] == snapshot[..i] + [trackfile] && trackfile in snapshot;
      if trackfile.contact.id in visited {
        VisitedIsCovered(w, groups, coalition, visited, snapshot, i);
        SeenOneMore(w, groups, coalition, visited, snapshot[..i], trackfile);
        YieldsNoGroup(w, snapshot[..i], coalition, groups, trackfile);
        continue;
      }
      if trackfile.contact.coalition != coalition || !IsValidTrack(w, trackfile) {
        SeenOneMore(w, groups, coalition, visited, snapshot[..i], trackfile);
        YieldsNoGroup(w, snapshot[..i], coalition, groups, trackfile);
        visited := visited + {trackfile.contact.id};
        continue;
      }
      var grp := FindGroupForAircraft(w, trackfile);
      NewGroup(w, groups, coalition, visited, snapshot[..i], trackfile, grp.contacts);
      visited := visited + {trackfile.contact.id} + IDsOf(grp.contacts);
      YieldsGroup(w, snapshot[..i], coalition, groups, trackfile, grp.contacts);
      groups := groups + [grp.contacts];
    }
    assert snapshot[..|snapshot|] == snapshot;
  }

  lemma SeedIsMember(w: Airspace, t: Trackfile, ts: seq<Trackfile>)
    requires IsGroupOf(w, t, ts)
    ensures t in ts
  {
    assert ts[0] in ts;
  }

  // A member of a group of a live seed is live.
  lemma {:induction false} ChainEndsLive(w: Airspace, category: Category, p: seq<Trackfile>, a: Trackfile, b: Trackfile)
    requires IsChain(w, category, p, a, b) && IsLive(w, a)
    ensures IsLive(w, b)
    decreases |p|
  {
    if p != [] {
      ChainEndsLive(w, category, p[1..], p[0], b);
    }
  }

  lemma MemberIsLive(w: Airspace, seed: Trackfile, ts: seq<Trackfile>, t: Trackfile)
    requires IsGroupOf(w, seed, ts) && IsLive(w, seed) && t in ts
    ensures IsLive(w, t)
  {
    if !seed.IsLastKnownPointZero() {
      var p :| IsChain(w, CategoryOf(w, seed), p, seed, t);
      ChainEndsLive(w, CategoryOf(w, seed), p, seed, t);
    }
  }

  lemma {:induction false} MemberWithID(ms: seq<seq<Trackfile>>, id: ID) returns (t: Trackfile)
    requires id in MemberIDs(ms)
    ensures InSome(ms, t) && t.contact.id == id
  {
    var n := |ms| - 1;
    if id in IDsOf(ms[n]) {
      t :| t in ms[n] && t.contact.id == id;
    } else {
      t := MemberWithID(ms[..n], id);
      var g :| 0 <= g < n && t in ms[..n][g];
      assert t in ms[g];
    }
  }

  lemma NotAmongEarlier(ts: seq<Trackfile>, i: nat)
    requires DistinctIDs(ts) && i < |ts|
    ensures ts[i].contact.id !in IDsOf(ts[..i])
  {
  }

  // A visited contact that was not seen yet is a member of a group.
  lemma VisitedIsCovered(w: Airspace, ms: seq<seq<Trackfile>>, coalition: Coalition, visited: set<ID>, snapshot: seq<Trackfile>, i: nat)
    requires i < |snapshot| && DistinctIDs(snapshot) && IsLive(w, snapshot[i]) && snapshot[i].contact.id in visited
    requires GroupsOf(w, ms, coalition) && Seen(w, ms, coalition, visited, snapshot[..i])
    ensures InSome(ms, snapshot[i])
  {
    NotAmongEarlier(snapshot, i);
    var u := MemberWithID(ms, snapshot[i].contact.id);
    var g :| 0 <= g < |ms| && u in ms[g];
    MemberIsLive(w, ms[g][0], ms[g], u);
  }

  lemma IDsOneMore(ts: seq<Trackfile>, t: Trackfile)
    ensures IDsOf(ts + [t]) == IDsOf(ts) + {t.contact.id}
  {
    assert t in ts + [t];
    assert forall u :: u in ts ==> u in ts + [t];
  }

  lemma SeenOneMore(w: Airspace, ms: seq<seq<Trackfile>>, coalition: Coalition, visited: set<ID>, seen: seq<Trackfile>, t: Trackfile)
    requires Seen(w, ms, coalition, visited, seen)
    requires IsCandidate(w, t, coalition) ==> InSome(ms, t)
    ensures Seen(w, ms, coalition, visited + {t.contact.id}, seen + [t])
    ensures t.contact.id in visited ==> visited + {t.contact.id} == visited
  {
    IDsOneMore(seen, t);
  }

  lemma InSomeOneMore(ms: seq<seq<Trackfile>>, ts: seq<Trackfile>, t: Trackfile)
    ensures InSome(ms + [ts], t) <==> InSome(ms, t) || t in ts
  {
    var all := ms + [ts];
    assert all[|ms|] == ts;
    if InSome(ms, t) {
      var g :| 0 <= g < |ms| && t in ms[g];
      assert t in all[g];
    }
  }

  lemma NewGroup(w: Airspace, ms: seq<seq<Trackfile>>, coalition: Coalition, visited: set<ID>, seen: seq<Trackfile>,
                 t: Trackfile, ts: seq<Trackfile>)
    requires GroupsOf(w, ms, coalition) && Seen(w, ms, coalition, visited, seen)
    requires t.contact.id !in visited && IsLive(w, t) && IsCandidate(w, t, coalition) && IsGroupOf(w, t, ts)
    ensures GroupsOf(w, ms + [ts], coalition)
    ensures Seen(w, ms + [ts], coalition, visited + {t.contact.id} + IDsOf(ts), seen + [t])
    ensures !InSome(ms, t)
  {
    SeedIsMember(w, t, ts);
    NewSeedIsNoMember(ms, t);
    IDsOneMore(seen, t);
    assert (ms + [ts])[..|ms|] == ms;
    forall u | u in seen + [t] && IsCandidate(w, u, coalition) ensures InSome(ms + [ts], u) {
      InSomeOneMore(ms, ts, u);
    }
  }

  lemma {:induction false} NewSeedIsNoMember(ms: seq<seq<Trackfile>>, t: Trackfile)
    requires t.contact.id !in MemberIDs(ms)
    ensures forall g :: 0 <= g < |ms| ==> t !in ms[g]
  {
    if ms != [] {
      NewSeedIsNoMember(ms[..|ms| - 1], t);
      assert forall g :: 0 <= g < |ms| - 1 ==> ms[g] == ms[..|ms| - 1][g];
    }
  }

  // ---- Every member is valid and of the coalition ---------------------------------------------

  lemma {:induction false} ChainStaysInCoalition(w: Airspace, category: Category, p: seq<Trackfile>, a: Trackfile, b: Trackfile)
    requires IsChain(w, category, p, a, b) && IsValidTrack(w, a)
    ensures IsCandidate(w, b, a.contact.coalition)
    decreases |p|
  {
    if p != [] {
      ChainStaysInCoalition(w, category, p[1..], p[0], b);
    }
  }

  lemma MemberIsCandidate(w: Airspace, seed: Trackfile, ts: seq<Trackfile>, coalition: Coalition, t: Trackfile)
    requires IsGroupOf(w, seed, ts) && IsCandidate(w, seed, coalition) && t in ts
    ensures IsCandidate(w, t, coalition)
  {
    var p :| IsChain(w, CategoryOf(w, seed), p, seed, t);
    ChainStaysInCoalition(w, CategoryOf(w, seed), p, seed, t);
  }

  lemma MembersAreCandidates(w: Airspace, ms: seq<seq<Trackfile>>, coalition: Coalition, t: Trackfile)
    requires GroupsOf(w, ms, coalition) && InSome(ms, t)
    ensures IsCandidate(w, t, coalition) && IsLive(w, t)
  {
    var g :| 0 <= g < |ms| && t in ms[g];
    MemberIsLive(w, ms[g][0], ms[g], t);
    MemberIsCandidate(w, ms[g][0], ms[g], coalition, t);
  }

  // ---- Links that work both ways ----------------------------------------------------------------

  predicate HasOneOf(tags: set<Tag>, options: set<Tag>) {
    exists tag :: tag in options && tags * options == {tag}
  }

  // Every live contact is in the encyclopedia with one wing tag and one role
  // tag, and distance does not depend on the direction.
  ghost predicate PlainlyTagged(w: Airspace) {
    && (forall id :: id in w.contacts ==>
          var data := w.data(w.contacts[id].contact.acmiName);
          data.Some? && HasOneOf(data.value.tags, {FixedWingTag, RotaryWingTag})
          && HasOneOf(data.value.tags, {Fighter, Attack, Unarmed}))
    && (forall a, b :: w.dist(a, b) == w.dist(b, a))
  }

  lemma TagsOf(w: Airspace, t: Trackfile)
    requires PlainlyTagged(w) && IsLive(w, t)
    ensures w.data(t.contact.acmiName).Some?
    ensures var tags := w.data(t.contact.acmiName).value.tags;
      && CategoryOf(w, t) == (if FixedWingTag in tags then FixedWing else RotaryWing)
      && RoleTag(w, t).Some?
      && forall tag :: tag in {Fighter, Attack, Unarmed} ==> (tag in tags <==> RoleTag(w, t) == Some(tag))
  {
    var id := t.contact.id;
    var tags := w.data(w.contacts[id].contact.acmiName).value.tags;
    var wing :| wing in {FixedWingTag, RotaryWingTag} && tags * {FixedWingTag, RotaryWingTag} == {wing};
    assert wing in tags * {FixedWingTag, RotaryWingTag};
    var role :| role in {Fighter, Attack, Unarmed} && tags * {Fighter, Attack, Unarmed} == {role};
    forall tag | tag in {Fighter, Attack, Unarmed} ensures tag in tags <==> tag == role {
      assert tag in tags <==> tag in tags * {Fighter, Attack, Unarmed};
    }
  }

  // Between candidates of one category a link can be followed backwards.
  lemma LinkIsSymmetric(w: Airspace, category: Category, a: Trackfile, b: Trackfile)
    requires PlainlyTagged(w) && IsLive(w, a) && IsLive(w, b) && IsValidTrack(w, a)
    requires CategoryOf(w, a) == category && Linked(w, category, a, b)
    ensures CategoryOf(w, b) == category && Linked(w, category, b, a)
  {
    TagsOf(w, a);
    TagsOf(w, b);
  }

  lemma {:induction false} ReachesOneMore(w: Airspace, category: Category, p: seq<Trackfile>, a: Trackfile, b: Trackfile, c: Trackfile)
    requires IsChain(w, category, p, a, b) && IsLive(w, c) && Linked(w, category, b, c)
    ensures Reaches(w, category, a, c)
    decreases |p|
  {
    if p == [] {
      ReachesItself(w, category, c);
      ReachesThrough(w, category, a, c, c);
    } else {
      ReachesOneMore(w, category, p[1..], p[0], b, c);
      ReachesThrough(w, category, a, p[0], c);
    }
  }

  // Reachability is symmetric, and everything reached has the seed's category.
  lemma {:induction false} ReachesBack(w: Airspace, category: Category, p: seq<Trackfile>, a: Trackfile, b: Trackfile)
    requires PlainlyTagged(w) && IsChain(w, category, p, a, b)
    requires IsLive(w, a) && IsValidTrack(w, a) && CategoryOf(w, a) == category
    ensures Reaches(w, category, b, a) && CategoryOf(w, b) == category
    decreases |p|
  {
    if p == [] {
      ReachesItself(w, category, a);
    } else {
      LinkIsSymmetric(w, category, a, p[0]);
      ReachesBack(w, category, p[1..], p[0], b);
      var q :| IsChain(w, category, q, b, p[0]);
      ReachesOneMore(w, category, q, b, p[0], a);
    }
  }

  lemma {:induction false} ReachesOn(w: Airspace, category: Category, p: seq<Trackfile>, a: Trackfile, b: Trackfile, c: Trackfile)
    requires IsChain(w, category, p, a, b) && Reaches(w, category, b, c)
    ensures Reaches(w, category, a, c)
    decreases |p|
  {
    if p != [] {
      ReachesOn(w, category, p[1..], p[0], b, c);
      ReachesThrough(w, category, a, p[0], c);
    }
  }

  // ---- When groups are disjoint -----------------------------------------------------------------

  // Whatever a candidate's links reach, its own links reach that candidate.
  ghost predicate Mutual(w: Airspace, coalition: Coalition) {
    forall a, b :: IsLive(w, a) && IsCandidate(w, a, coalition) && Reaches(w, CategoryOf(w, a), a, b) ==>
      Reaches(w, CategoryOf(w, b), b, a)
  }

  ghost predicate Disjoint(ms: seq<seq<Trackfile>>) {
    forall g, h, t :: 0 <= g < h < |ms| && t in ms[g] ==> t !in ms[h]
  }

  // A chain to another contact ends in a link that this contact matches.
  lemma {:induction false} ReachedMatches(w: Airspace, category: Category, p: seq<Trackfile>, a: Trackfile, b: Trackfile)
    requires IsChain(w, category, p, a, b)
    ensures a == b || exists c :: Linked(w, category, c, b)
    decreases |p|
  {
    if p != [] {
      ReachedMatches(w, category, p[1..], p[0], b);
    }
  }

  // Contacts that reach each other have one category.
  lemma MutualsMatch(w: Airspace, a: Trackfile, b: Trackfile)
    requires Reaches(w, CategoryOf(w, a), a, b) && Reaches(w, CategoryOf(w, b), b, a)
    ensures CategoryOf(w, a) == CategoryOf(w, b)
  {
    if a != b {
      var p :| IsChain(w, CategoryOf(w, a), p, a, b);
      var q :| IsChain(w, CategoryOf(w, b), q, b, a);
      ReachedMatches(w, CategoryOf(w, a), p, a, b);
      ReachedMatches(w, CategoryOf(w, b), q, b, a);
    }
  }

  // Two groups that share a contact have each other's seed.
  lemma SharedMember(w: Airspace, coalition: Coalition, a: Trackfile, as_: seq<Trackfile>, b: Trackfile, bs: seq<Trackfile>, t: Trackfile)
    requires Mutual(w, coalition) && IsGroupOf(w, a, as_) && IsGroupOf(w, b, bs) && t in as_ && t in bs
    requires IsLive(w, a) && IsLive(w, b) && IsCandidate(w, a, coalition) && IsCandidate(w, b, coalition)
    ensures b in as_
  {
    MutualsMatch(w, a, t);
    MutualsMatch(w, b, t);
    var p :| IsChain(w, CategoryOf(w, a), p, a, t);
    ReachesOn(w, CategoryOf(w, a), p, a, t, b);
  }

  lemma MutualsAreDisjoint(w: Airspace, ms: seq<seq<Trackfile>>, coalition: Coalition)
    requires Mutual(w, coalition) && GroupsOf(w, ms, coalition)
    ensures Disjoint(ms)
  {
    forall g, h, t | 0 <= g < h < |ms| && t in ms[g] ensures t !in ms[h] {
      if t in ms[h] {
        SharedMember(w, coalition, ms[g][0], ms[g], ms[h][0], ms[h], t);
      }
    }
  }

  // Every seed has a group.
  lemma GroupExists(w: Airspace, seed: Trackfile) returns (ts: seq<Trackfile>)
    requires KeyedByID(w.contacts) && IsLive(w, seed) && IsValidTrack(w, seed)
    ensures IsGroupOf(w, seed, ts)
  {
    var others := set id | id in w.contacts && id != seed.contact.id && Reaches(w, CategoryOf(w, seed), seed, w.contacts[id]);
    var rest := InAnyOrder(w, others);
    ts := [seed] + rest;
    forall t ensures t in ts <==> Reaches(w, CategoryOf(w, seed), seed, t) {
      if Reaches(w, CategoryOf(w, seed), seed, t) {
        var p :| IsChain(w, CategoryOf(w, seed), p, seed, t);
        ChainEndsLive(w, CategoryOf(w, seed), p, seed, t);
      }
      ReachesItself(w, CategoryOf(w, seed), seed);
    }
  }

  lemma InAnyOrder(w: Airspace, ids: set<ID>) returns (ts: seq<Trackfile>)
    requires KeyedByID(w.contacts) && ids <= w.contacts.Keys
    ensures DistinctIDs(ts) && forall t :: t in ts <==> IsLive(w, t) && t.contact.id in ids
  {
    ts := [];
    var remaining := ids;
    while remaining != {}
      invariant remaining <= ids
      invariant DistinctIDs(ts) && forall t :: t in ts <==> IsLive(w, t) && t.contact.id in ids - remaining
    {
      var id :| id in remaining;
      remaining := remaining - {id};
      ts := ts + [w.contacts[id]];
    }
  }

  // What an iteration yields are groups of candidates.
  lemma {:induction false} YieldsGroups(w: Airspace, seen: seq<Trackfile>, coalition: Coalition, ms: seq<seq<Trackfile>>)
    requires Yields(w, seen, coalition, ms) && forall t :: t in seen ==> IsLive(w, t)
    ensures GroupsOf(w, ms, coalition)
    decreases |seen|
  {
    if seen != [] {
      assert forall t :: t in Init(seen) ==> t in seen;
      if Yields(w, Init(seen), coalition, ms) {
        YieldsGroups(w, Init(seen), coalition, ms);
      } else {
        YieldsGroups(w, Init(seen), coalition, Init(ms));
        OneMoreGroup(w, Init(ms), coalition, Last(seen), Last(ms));
        assert ms == Init(ms) + [Last(ms)];
      }
    }
  }

  lemma OneMoreGroup(w: Airspace, ms: seq<seq<Trackfile>>, coalition: Coalition, t: Trackfile, ts: seq<Trackfile>)
    requires GroupsOf(w, ms, coalition) && IsLive(w, t) && IsCandidate(w, t, coalition) && !InSome(ms, t) && IsGroupOf(w, t, ts)
    ensures GroupsOf(w, ms + [ts], coalition)
  {
    var all := ms + [ts];
    assert forall g :: 0 <= g < |ms| ==> all[g] == ms[g];
  }

  // Every iteration can go on.
  lemma {:induction false} GoesOn(w: Airspace, seen: seq<Trackfile>, more: seq<Trackfile>, coalition: Coalition, ms: seq<seq<Trackfile>>)
    returns (all: seq<seq<Trackfile>>)
    requires KeyedByID(w.contacts) && Yields(w, seen, coalition, ms) && forall t :: t in more ==> IsLive(w, t)
    ensures ms <= all && Yields(w, seen + more, coalition, all)
    decreases |more|
  {
    if more == [] {
      assert seen + more == seen;
      all := ms;
    } else {
      var t := more[0];
      var next := ms;
      if IsCandidate(w, t, coalition) && !InSome(ms, t) {
        var ts := GroupExists(w, t);
        next := ms + [ts];
        YieldsGroup(w, seen, coalition, ms, t, ts);
      } else {
        YieldsNoGroup(w, seen, coalition, ms, t);
      }
      assert (seen + [t]) + more[1..] == seen + more;
      all := GoesOn(w, seen + [t], more[1..], coalition, next);
    }
  }

  // If one candidate reaches another that does not reach it, an iteration that
  // meets the second one first lists it in both their groups.
  lemma OneWayOverlaps(w: Airspace, coalition: Coalition, a: Trackfile, b: Trackfile)
    returns (snapshot: seq<Trackfile>, ms: seq<seq<Trackfile>>)
    requires KeyedByID(w.contacts) && IsLive(w, a) && IsCandidate(w, a, coalition)
    requires Reaches(w, CategoryOf(w, a), a, b) && !Reaches(w, CategoryOf(w, b), b, a)
    ensures IsSnapshot(w, snapshot) && Yields(w, snapshot, coalition, ms) && !Disjoint(ms)
  {
    var p :| IsChain(w, CategoryOf(w, a), p, a, b);
    ChainEndsLive(w, CategoryOf(w, a), p, a, b);
    ChainStaysInCoalition(w, CategoryOf(w, a), p, a, b);
    ReachesItself(w, CategoryOf(w, b), b);
    var as_ := GroupExists(w, a);
    var bs := GroupExists(w, b);
    YieldsBoth(w, coalition, a, as_, b, bs);
    var rest := InAnyOrder(w, w.contacts.Keys - {a.contact.id, b.contact.id});
    snapshot := [b, a] + rest;
    ms := GoesOn(w, [b, a], rest, coalition, [bs, as_]);
    assert ms[0] == bs && ms[1] == as_;
  }

  lemma YieldsBoth(w: Airspace, coalition: Coalition, a: Trackfile, as_: seq<Trackfile>, b: Trackfile, bs: seq<Trackfile>)
    requires IsCandidate(w, a, coalition) && IsCandidate(w, b, coalition)
    requires IsGroupOf(w, a, as_) && IsGroupOf(w, b, bs) && a !in bs
    ensures Yields(w, [b, a], coalition, [bs, as_])
  {
    assert Init([b]) == [] && Init([bs]) == [];
    assert Yields(w, [], coalition, []);
    assert Yields(w, [b], coalition, [bs]);
    assert Init([b, a]) == [b] && Init([bs, as_]) == [bs];
  }

  // In whatever order the contacts are visited, no contact is in two groups:
  // exactly when reaching is mutual.
  lemma GroupsAreDisjointIff(w: Airspace, coalition: Coalition)
    requires KeyedByID(w.contacts)
    ensures (forall snapshot, ms :: IsSnapshot(w, snapshot) && Yields(w, snapshot, coalition, ms) ==> Disjoint(ms))
       <==> Mutual(w, coalition)
  {
    if Mutual(w, coalition) {
      forall snapshot, ms | IsSnapshot(w, snapshot) && Yields(w, snapshot, coalition, ms) ensures Disjoint(ms) {
        YieldsGroups(w, snapshot, coalition, ms);
        MutualsAreDisjoint(w, ms, coalition);
      }
    } else {
      var a, b :| IsLive(w, a) && IsCandidate(w, a, coalition) && Reaches(w, CategoryOf(w, a), a, b)
                  && !Reaches(w, CategoryOf(w, b), b, a);
      var snapshot, ms := OneWayOverlaps(w, coalition, a, b);
    }
  }

  // It is when every contact is plainly tagged.
  lemma PlainlyTaggedAreMutual(w: Airspace, coalition: Coalition)
    requires PlainlyTagged(w)
    ensures Mutual(w, coalition)
  {
    forall a, b | IsLive(w, a) && IsCandidate(w, a, coalition) && Reaches(w, CategoryOf(w, a), a, b)
      ensures Reaches(w, CategoryOf(w, b), b, a)
    {
      var p :| IsChain(w, CategoryOf(w, a), p, a, b);
      ReachesBack(w, CategoryOf(w, a), p, a, b);
    }
  }

  // Otherwise groups may overlap: an unknown aircraft accepts a fighter as
  // its wingman, but the fighter accepts only fighters.
  lemma UnknownAircraftMakesGroupsOverlap(w: Airspace, fighter: Trackfile, unknown: Trackfile)
    requires w.contacts == map[fighter.contact.id := fighter, unknown.contact.id := unknown]
    requires fighter.contact.id != unknown.contact.id && fighter.contact.coalition == unknown.contact.coalition
    requires IsValidTrack(w, fighter) && IsValidTrack(w, unknown)
    requires w.data(unknown.contact.acmiName) == None
    requires w.data(fighter.contact.acmiName) == Some(Aircraft({FixedWingTag, Fighter}, 0.0))
    requires forall a, b :: w.dist(a, b) == 0.0
    ensures IsGroupOf(w, fighter, [fighter]) && IsGroupOf(w, unknown, [unknown, fighter])
    ensures GroupsOf(w, [[fighter], [unknown, fighter]], fighter.contact.coalition)
  {
    assert !Linked(w, FixedWing, fighter, unknown);
    assert Linked(w, FixedWing, unknown, fighter);
    ReachesItself(w, FixedWing, unknown);
    ReachesItself(w, FixedWing, fighter);
    ReachesThrough(w, FixedWing, unknown, fighter, fighter);
    forall t | Reaches(w, FixedWing, fighter, t) ensures t == fighter {
      var p :| IsChain(w, FixedWing, p, fighter, t);
      ExploredHoldsChain(w, FixedWing, [fighter], p, fighter, t);
    }
    forall t | Reaches(w, FixedWing, unknown, t) ensures t in [unknown, fighter] {
      var p :| IsChain(w, FixedWing, p, unknown, t);
      ExploredHoldsChain(w, FixedWing, [unknown, fighter], p, unknown, t);
    }
  }
}
