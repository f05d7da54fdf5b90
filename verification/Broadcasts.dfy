/**
 Which friendlies a merged call notifies and when a threat call goes out.
 */
module Broadcasts {
  import opened Basics
  import opened Trackfiles
  import opened Callsigns
  import opened Grouping
  import opened Enumeration
  import opened MergeTrackers
  import opened MergeSweeps
  import opened RadarMerges
  import opened Cooldowns
  import opened Collation
  import opened CollationMeaning
  import opened Calls

  const MERGE_COOLDOWN: Time := 30_000

  // ---- Merged calls ---------------------------------------------------------------------

  // The calls of one pass: one per notified friendly, with the expiries and the
  // clock around each.
  ghost predicate Pass(notified: seq<Trackfile>, ms: seq<Expiries>, ops: seq<Op>, clock: seq<Time>, cooldown: Time) {
    && Cooldowns.Run(ms, ops, clock, cooldown)
    && |ops| == |notified|
    && forall k :: 0 <= k < |ops| ==>
         ops[k].Call? && ops[k].ids == [notified[k].contact.id] && ops[k].checked == ops[k].published
  }

  ghost predicate NotifiedID(notified: seq<Trackfile>, id: ID) {
    exists k :: 0 <= k < |notified| && notified[k].contact.id == id
  }

  ghost predicate WasOnCooldown(m: Expiries, id: ID, from: Time, until: Time) {
    exists t: Time :: from <= t <= until && OnCooldown(m, id, t)
  }

  predicate SameExpiry(m: Expiries, m': Expiries, id: ID) {
    (id in m <==> id in m') && (id in m ==> m[id] == m'[id])
  }

  // Friendlies that newly merged are notified unless they are on cooldown.
  // Each one notified goes on cooldown at once, so a friendly that merged with
  // several hostiles is not notified for each.
  method NotifyNewMerges(newlyMerged: seq<Trackfile>, cooldowns: CooldownTracker, clock: Clock)
    returns (toNotify: seq<Trackfile>, ghost ms: seq<Expiries>, ghost ops: seq<Op>, ghost times: seq<Time>)
    modifies cooldowns, clock
    ensures Pass(toNotify, ms, ops, times, cooldowns.cooldown)
    ensures ms[0] == old(cooldowns.cooldowns) && ms[|ops|] == cooldowns.cooldowns
    ensures times[0] == old(clock.now) && times[|ops|] <= clock.now && old(clock.now) <= clock.now
    ensures forall t :: t in toNotify ==> t in newlyMerged
    ensures forall i :: 0 <= i < |newlyMerged| ==>
      NotifiedID(toNotify, newlyMerged[i].contact.id)
      || WasOnCooldown(old(cooldowns.cooldowns), newlyMerged[i].contact.id, old(clock.now), clock.now)
    ensures forall id :: NotifiedID(toNotify, id) || SameExpiry(cooldowns.cooldowns, old(cooldowns.cooldowns), id)
  {
    toNotify := [];
    ms, ops, times := [cooldowns.cooldowns], [], [clock.now];
    for i := 0 to |newlyMerged|
      invariant Pass(toNotify, ms, ops, times, cooldowns.cooldown)
      invariant ms[0] == old(cooldowns.cooldowns) && ms[|ops|] == cooldowns.cooldowns
      invariant times[0] == old(clock.now) && times[|ops|] <= clock.now && old(clock.now) <= clock.now
      invariant forall t :: t in toNotify ==> t in newlyMerged
      invariant forall id :: NotifiedID(toNotify, id) || SameExpiry(cooldowns.cooldowns, old(cooldowns.cooldowns), id)
      invariant forall k :: 0 <= k < i ==>
        NotifiedID(toNotify, newlyMerged[k].contact.id)
        || WasOnCooldown(old(cooldowns.cooldowns), newlyMerged[k].contact.id, old(clock.now), clock.now)
    {
      ghost var before := toNotify;
      var friendly := newlyMerged[i];
      var id := friendly.contact.id;
      ghost var start := clock.now;
      var on := cooldowns.IsOnCooldown(id, clock);
      ghost var checked := clock.now;
      StillWas(old(cooldowns.cooldowns), old(clock.now), start, checked);
      if on {
        assert NotifiedID(toNotify, id) || OnCooldown(old(cooldowns.cooldowns), id, checked);
        continue;
      }
      toNotify := toNotify + [friendly];
      ghost var at := cooldowns.ExtendCooldown(id, clock);
      ghost var op := Call([id], checked, checked, [at]);
      PassStep(before, friendly, ms, ops, times, cooldowns.cooldown, op, cooldowns.cooldowns, clock.now);
      ms, ops, times := ms + [cooldowns.cooldowns], ops + [op], times + [clock.now];
      NotifiedGrows(before, friendly);
      StillWas(old(cooldowns.cooldowns), old(clock.now), checked, clock.now);
    }
  }

  lemma StillWas(m: Expiries, from: Time, until: Time, until': Time)
    requires until <= until'
    ensures forall id :: WasOnCooldown(m, id, from, until) ==> WasOnCooldown(m, id, from, until')
  {
    forall id | WasOnCooldown(m, id, from, until) ensures WasOnCooldown(m, id, from, until') {
      var t: Time :| from <= t <= until && OnCooldown(m, id, t);
    }
  }

  lemma NotifiedGrows(notified: seq<Trackfile>, friendly: Trackfile)
    ensures forall id :: NotifiedID(notified, id) ==> NotifiedID(notified + [friendly], id)
    ensures NotifiedID(notified + [friendly], friendly.contact.id)
  {
    var more := notified + [friendly];
    assert more[|notified|] == friendly;
    forall id | NotifiedID(notified, id) ensures NotifiedID(more, id) {
      var k :| 0 <= k < |notified| && notified[k].contact.id == id;
      assert more[k] == notified[k];
    }
  }

  lemma PassStep(notified: seq<Trackfile>, friendly: Trackfile, ms: seq<Expiries>, ops: seq<Op>, times: seq<Time>,
                 cooldown: Time, op: Op, m: Expiries, now: Time)
    requires Pass(notified, ms, ops, times, cooldown)
    requires op.Call? && op.ids == [friendly.contact.id] && |op.extended| == 1
    requires times[|ops|] <= op.checked == op.published <= op.extended[0] <= now
    requires !OnCooldown(ms[|ops|], friendly.contact.id, op.checked)
    requires m == ms[|ops|][friendly.contact.id := op.extended[0] + cooldown]
    ensures Pass(notified + [friendly], ms + [m], ops + [op], times + [now], cooldown)
  {
    var id := friendly.contact.id;
    assert op.ids[..0] == [] && op.extended[..0] == [];
    assert Extend(ms[|ops|], op.ids[..0], op.extended[..0], cooldown) == ms[|ops|];
    assert After(ms[|ops|], op, cooldown) == m;
    assert id in op.ids;
    assert Allowed(ms[|ops|], op);
  }

  // ---- The whole broadcast --------------------------------------------------------------

  function Flat<T>(lists: seq<seq<T>>): seq<T> {
    if lists == [] then [] else Flat(Init(lists)) + Last(lists)
  }

  // One list of friendlies per reported group.
  ghost predicate NewlyMergedAt(reports: seq<seq<Trackfile>>, f: ID) {
    exists i :: 0 <= i < |reports| && NotifiedID(reports[i], f)
  }

  // The contact just merged with a hostile of the encounter that lists it.
  ghost predicate IsNewWith(was: Merged, m: Merged, e: Encounter, t: Trackfile) {
    t in e.friendlies && exists h :: h in e.hostileIDs && Pair(m, h, t.contact.id) && !Pair(was, h, t.contact.id)
  }

  // Sweeps what the radar finds, notifies the contacts of every new merge, and
  // composes one call for each hostile group; an empty one is not sent. A call is
  // for contacts that just merged with its group, and whoever has just merged is
  // notified by this very broadcast or was on cooldown from an earlier one.
  method BroadcastMerges(sweeper: Sweeper, w: Airspace, snapshot: seq<Trackfile>, coalition: Coalition, policy: Policy,
                         parse: CallsignParser, cooldowns: CooldownTracker, clock: Clock)
    returns (calls: seq<seq<Entry>>, ghost notified: seq<seq<Trackfile>>,
             ghost groups: seq<seq<Trackfile>>, ghost encounters: seq<Encounter>,
             ghost ms: seq<Expiries>, ghost ops: seq<Op>, ghost times: seq<Time>)
    requires sweeper.merges.Valid() && KeyedByID(w.contacts) && IsSnapshot(w, snapshot)
    requires sweeper.dist == w.dist && forall a, b :: w.dist(a, b) == w.dist(b, a)
    modifies sweeper.merges, cooldowns, clock
    ensures sweeper.merges.Valid() && |calls| == |notified| == |encounters|
    ensures AreMerges(w, Opposite(coalition), groups, encounters) && Coherent(encounters, w.contacts, w.dist)
    ensures Swept(old(sweeper.merges.merged), sweeper.merges.merged, encounters, w.contacts, w.dist)
    ensures Pass(Flat(notified), ms, ops, times, cooldowns.cooldown)
    ensures ms[0] == old(cooldowns.cooldowns) && ms[|ops|] == cooldowns.cooldowns
    ensures old(clock.now) <= times[0] && times[|ops|] <= clock.now
    ensures forall k :: 0 <= k < |calls| ==> calls[k] == MergedCall(notified[k], snapshot, coalition, policy, parse)
    ensures forall k, t :: 0 <= k < |notified| && t in notified[k] ==>
      IsNewWith(old(sweeper.merges.merged), sweeper.merges.merged, encounters[k], t)
    ensures forall f :: JustMerged(old(sweeper.merges.merged), sweeper.merges.merged, f) ==>
      NotifiedID(Flat(notified), f) || WasOnCooldown(old(cooldowns.cooldowns), f, old(clock.now), clock.now)
  {
    ghost var was := sweeper.merges.merged;
    var found; var reports; var toNotify; ghost var whose;
    found, groups := Merges(w, snapshot, coalition);
    encounters := found;
    MergesAreCoherent(w, Opposite(coalition), groups, found);
    reports, whose := sweeper.Sweep(found, w.contacts);
    ReportedIffJustMerged(reports, whose, found, was, sweeper.merges.merged);
    toNotify, ms, ops, times := NotifyAll(reports, cooldowns, clock);
    notified := toNotify;
    forall k, t | 0 <= k < |toNotify| && t in toNotify[k] ensures IsNewWith(was, sweeper.merges.merged, found[k], t) {
      ReportedIsNew(reports, whose, found, was, sweeper.merges.merged, k, t);
    }
    calls := ComposeAll(toNotify, snapshot, coalition, policy, parse);
  }

  lemma ReportedIsNew(reports: seq<seq<Trackfile>>, whose: seq<seq<ID>>, encounters: seq<Encounter>, was: Merged, m: Merged,
                      k: nat, t: Trackfile)
    requires ReportsOf(reports, whose, encounters, was, m) && k < |reports| && t in reports[k]
    ensures IsNewWith(was, m, encounters[k], t)
  {
    assert FromEncounter(reports[k], whose[k], encounters[k]);
    var n :| 0 <= n < |reports[k]| && reports[k][n] == t;
    assert Tells(reports[k], whose[k], whose[k][n], t.contact.id);
    assert ToldBySome(reports, whose, whose[k][n], t.contact.id);
  }

  method ComposeAll(notified: seq<seq<Trackfile>>, contacts: seq<Trackfile>, coalition: Coalition, policy: Policy, parse: CallsignParser)
    returns (calls: seq<seq<Entry>>)
    ensures |calls| == |notified|
    ensures forall k :: 0 <= k < |calls| ==> calls[k] == MergedCall(notified[k], contacts, coalition, policy, parse)
  {
    calls := [];
    for i := 0 to |notified|
      invariant |calls| == i
      invariant forall k :: 0 <= k < i ==> calls[k] == MergedCall(notified[k], contacts, coalition, policy, parse)
    {
      var call := CreateMergedCall(notified[i], contacts, coalition, policy, parse);
      calls := calls + [call];
    }
  }

  // Group by group; the cooldowns set for one group hold for the next.
  method NotifyAll(reports: seq<seq<Trackfile>>, cooldowns: CooldownTracker, clock: Clock)
    returns (notified: seq<seq<Trackfile>>, ghost ms: seq<Expiries>, ghost ops: seq<Op>, ghost times: seq<Time>)
    modifies cooldowns, clock
    ensures |notified| == |reports| && Pass(Flat(notified), ms, ops, times, cooldowns.cooldown)
    ensures forall k, t :: 0 <= k < |notified| && t in notified[k] ==> t in reports[k]
    ensures ms[0] == old(cooldowns.cooldowns) && ms[|ops|] == cooldowns.cooldowns
    ensures old(clock.now) <= times[0] && times[|ops|] <= clock.now
    ensures forall f :: NewlyMergedAt(reports, f) ==>
      NotifiedID(Flat(notified), f) || WasOnCooldown(old(cooldowns.cooldowns), f, old(clock.now), clock.now)
  {
    notified := [];
    ms, ops, times := [cooldowns.cooldowns], [], [clock.now];
    for i := 0 to |reports|
      invariant |notified| == i && Pass(Flat(notified), ms, ops, times, cooldowns.cooldown)
      invariant ms[0] == old(cooldowns.cooldowns) && ms[|ops|] == cooldowns.cooldowns
      invariant old(clock.now) <= times[0] && times[|ops|] <= clock.now && old(clock.now) <= clock.now
      invariant forall k, t :: 0 <= k < i && t in notified[k] ==> t in reports[k]
      invariant forall id :: NotifiedID(Flat(notified), id) || SameExpiry(cooldowns.cooldowns, old(cooldowns.cooldowns), id)
      invariant forall k, f :: 0 <= k < i && NotifiedID(reports[k], f) ==>
        NotifiedID(Flat(notified), f) || WasOnCooldown(old(cooldowns.cooldowns), f, old(clock.now), clock.now)
    {
      ghost var before, middle, start := Flat(notified), cooldowns.cooldowns, clock.now;
      var toNotify; ghost var ms', ops', times';
      toNotify, ms', ops', times' := NotifyNewMerges(reports[i], cooldowns, clock);
      PassesJoin(before, ms, ops, times, toNotify, ms', ops', times', cooldowns.cooldown);
      ms, ops, times := ms + ms'[1..], ops + ops', times[..|ops|] + times';
      assert Init(notified + [toNotify]) == notified;
      notified := notified + [toNotify];
      NotifiedInBoth(before, toNotify);
      StillWas(old(cooldowns.cooldowns), old(clock.now), start, clock.now);
      CoveredNext(reports[i], before, toNotify, old(cooldowns.cooldowns), middle, old(clock.now), start, clock.now);
    }
  }

  lemma NotifiedInBoth(first: seq<Trackfile>, second: seq<Trackfile>)
    ensures forall id :: NotifiedID(first + second, id) <==> NotifiedID(first, id) || NotifiedID(second, id)
  {
    var both := first + second;
    forall id | NotifiedID(first, id) || NotifiedID(second, id) ensures NotifiedID(both, id) {
      if NotifiedID(first, id) {
        var k :| 0 <= k < |first| && first[k].contact.id == id;
        assert both[k] == first[k];
      } else {
        var k :| 0 <= k < |second| && second[k].contact.id == id;
        assert both[|first| + k] == second[k];
      }
    }
  }

  // Whoever was on cooldown in the middle was so at first or has been notified since.
  lemma CoveredNext(news: seq<Trackfile>, before: seq<Trackfile>, toNotify: seq<Trackfile>, first: Expiries, middle: Expiries,
                    from: Time, start: Time, until: Time)
    requires from <= start <= until
    requires forall id :: NotifiedID(before, id) || SameExpiry(middle, first, id)
    requires forall k :: 0 <= k < |news| ==>
      NotifiedID(toNotify, news[k].contact.id) || WasOnCooldown(middle, news[k].contact.id, start, until)
    ensures forall f :: NotifiedID(news, f) ==> NotifiedID(before + toNotify, f) || WasOnCooldown(first, f, from, until)
  {
    NotifiedInBoth(before, toNotify);
    forall f | NotifiedID(news, f) ensures NotifiedID(before + toNotify, f) || WasOnCooldown(first, f, from, until) {
      if !NotifiedID(before, f) && !NotifiedID(toNotify, f) {
        var t: Time :| start <= t <= until && OnCooldown(middle, f, t);
        assert SameExpiry(middle, first, f) && OnCooldown(first, f, t);
      }
    }
  }

  lemma PassesJoin(first: seq<Trackfile>, ms: seq<Expiries>, ops: seq<Op>, clock: seq<Time>,
                   second: seq<Trackfile>, ms': seq<Expiries>, ops': seq<Op>, clock': seq<Time>, cooldown: Time)
    requires Pass(first, ms, ops, clock, cooldown) && Pass(second, ms', ops', clock', cooldown)
    requires ms[|ops|] == ms'[0] && clock[|ops|] <= clock'[0]
    ensures Pass(first + second, ms + ms'[1..], ops + ops', clock[..|ops|] + clock', cooldown)
    ensures (ms + ms'[1..])[0] == ms[0] && (ms + ms'[1..])[|ops + ops'|] == ms'[|ops'|]
    ensures (clock[..|ops|] + clock')[|ops + ops'|] == clock'[|ops'|]
    ensures clock[0] <= (clock[..|ops|] + clock')[0]
  {
    RunsJoin(ms, ops, clock, ms', ops', clock', cooldown);
  }

  // A friendly is in a pair that is merged now and was not before.
  ghost predicate JustMerged(was: Merged, m: Merged, f: ID) {
    exists h :: Pair(m, h, f) && !Pair(was, h, f)
  }

  lemma ReportedIffJustMerged(reports: seq<seq<Trackfile>>, whose: seq<seq<ID>>, encounters: seq<Encounter>, was: Merged, m: Merged)
    requires ReportsOf(reports, whose, encounters, was, m)
    ensures forall f :: NewlyMergedAt(reports, f) <==> JustMerged(was, m, f)
  {
    forall f | NewlyMergedAt(reports, f) ensures JustMerged(was, m, f) {
      var i :| 0 <= i < |reports| && NotifiedID(reports[i], f);
      var n :| 0 <= n < |reports[i]| && reports[i][n].contact.id == f;
      assert Tells(reports[i], whose[i], whose[i][n], f);
      assert ToldBySome(reports, whose, whose[i][n], f);
    }
    forall f | JustMerged(was, m, f) ensures NewlyMergedAt(reports, f) {
      var h :| Pair(m, h, f) && !Pair(was, h, f);
      assert ToldBySome(reports, whose, h, f);
      var i :| 0 <= i < |reports| && Tells(reports[i], whose[i], h, f);
      assert NotifiedID(reports[i], f);
    }
  }

  // Contacts of a third coalition are merged and notified like friendlies, but
  // they are not on the roster that calls are collated against.
  lemma NeutralIsMergedButUnheard(w: Airspace, coalition: Coalition, groups: seq<seq<Trackfile>>, encounters: seq<Encounter>,
                                  was: Merged, m: Merged, h: Trackfile, t: Trackfile, friendlies: seq<Trackfile>,
                                  contacts: seq<Trackfile>, policy: Policy, parse: CallsignParser, word: Option<string>)
    requires AreMerges(w, Opposite(coalition), groups, encounters) && Swept(was, m, encounters, w.contacts, w.dist)
    requires forall a, b :: w.dist(a, b) == w.dist(b, a)
    requires IsLive(w, h) && IsSeed(w, h, Opposite(coalition))
    requires IsLive(w, t) && t.contact.coalition == Neutrals && coalition != Neutrals && !t.IsLastKnownPointZero()
    requires Apart(t, h, w.dist) < MERGE_ENTRY_DISTANCE
    requires Tidy(parse) && t in friendlies && MayBeNamed(t, policy, parse) && |CallNames(friendlies, policy, parse)| > 1
    requires Parse(parse(t.contact.name).value).Some?
    requires !IsFriendlyName(contacts, coalition, parse, parse(t.contact.name).value)
    ensures Pair(m, h.contact.id, t.contact.id)
    ensures !IsHeard(parse(t.contact.name).value, MergedCall(friendlies, contacts, coalition, policy, parse), word,
                     RosterNames(contacts, coalition, parse))
  {
    SweptByDistance(w, Opposite(coalition), groups, encounters, was, m, h, t);
    NotifiedIsHeardIff(friendlies, contacts, coalition, policy, parse, word, t);
  }

  // ---- Threat calls ------------------------------------------------------------------------

  predicate GroupMergedWith(m: Merged, hostileIDs: seq<ID>, friend: ID) {
    exists h :: h in hostileIDs && Pair(m, h, friend)
  }

  // The callsign a friendly is addressed by, if it is a receiver at all.
  function ReceiverName(f: ID, hostileIDs: seq<ID>, m: Merged, scope: Scope, parse: CallsignParser): Option<string> {
    if GroupMergedWith(m, hostileIDs, f) || f !in scope then None else parse(scope[f].contact.name)
  }

  function ReceiverNames(friendIDs: seq<ID>, hostileIDs: seq<ID>, m: Merged, scope: Scope, parse: CallsignParser): seq<Option<string>> {
    seq(|friendIDs|, k requires 0 <= k < |friendIDs| => ReceiverName(friendIDs[k], hostileIDs, m, scope, parse))
  }

  function ThreatReceivers(friendIDs: seq<ID>, hostileIDs: seq<ID>, m: Merged, scope: Scope, parse: CallsignParser): seq<string> {
    Deduplicated(ReceiverNames(friendIDs, hostileIDs, m, scope, parse))
  }

  // It is the callsign of one of the friendlies, which is live and merged with no
  // hostile of the group.
  ghost predicate Addressed(name: string, friendIDs: seq<ID>, hostileIDs: seq<ID>, m: Merged, scope: Scope, parse: CallsignParser) {
    exists f :: f in friendIDs && f in scope && parse(scope[f].contact.name) == Some(name)
                && forall h :: h in hostileIDs ==> !Pair(m, h, f)
  }

  // A threat call addresses each receiver once, and exactly the live friendlies
  // with a callsign that the group is not already merged with.
  lemma ThreatReceiversExactly(friendIDs: seq<ID>, hostileIDs: seq<ID>, m: Merged, scope: Scope, parse: CallsignParser)
    ensures var names := ThreatReceivers(friendIDs, hostileIDs, m, scope, parse);
      && Distinct(names)
      && (forall name :: name in names <==> Addressed(name, friendIDs, hostileIDs, m, scope, parse))
  {
    var names := ReceiverNames(friendIDs, hostileIDs, m, scope, parse);
    DeduplicatedExactly(names);
    forall name ensures Some(name) in names <==> Addressed(name, friendIDs, hostileIDs, m, scope, parse) {
      if Some(name) in names {
        var k :| 0 <= k < |names| && names[k] == Some(name);
        assert friendIDs[k] in friendIDs;
      }
      if Addressed(name, friendIDs, hostileIDs, m, scope, parse) {
        var f :| f in friendIDs && f in scope && parse(scope[f].contact.name) == Some(name)
                 && forall h :: h in hostileIDs ==> !Pair(m, h, f);
        var k :| 0 <= k < |friendIDs| && friendIDs[k] == f;
        assert names[k] == Some(name);
      }
    }
  }

  // Friendlies that are of the bot's own coalition all hear a threat call.
  lemma ThreatCallIsHeard(friendIDs: seq<ID>, hostileIDs: seq<ID>, m: Merged, scope: Scope, contacts: seq<Trackfile>,
                          coalition: Coalition, parse: CallsignParser, word: Option<string>, name: string)
    requires Tidy(parse) && name in ThreatReceivers(friendIDs, hostileIDs, m, scope, parse)
    requires forall f :: f in friendIDs && f in scope ==> scope[f] in contacts && scope[f].contact.coalition == coalition
    ensures var roster := RosterNames(contacts, coalition, parse);
      IsHeard(name, Collated(ThreatReceivers(friendIDs, hostileIDs, m, scope, parse), roster), word, roster)
  {
    ThreatReceiversExactly(friendIDs, hostileIDs, m, scope, parse);
    var f :| f in friendIDs && f in scope && parse(scope[f].contact.name) == Some(name);
    HeardIff(ThreatReceivers(friendIDs, hostileIDs, m, scope, parse), contacts, coalition, parse, word, name);
  }

  method CollectReceivers(friendIDs: seq<ID>, hostileIDs: seq<ID>, merges: MergeTracker, scope: Scope, parse: CallsignParser)
    returns (callsigns: seq<string>)
    ensures callsigns == ThreatReceivers(friendIDs, hostileIDs, merges.merged, scope, parse)
  {
    callsigns := [];
    for i := 0 to |friendIDs|
      invariant callsigns == ThreatReceivers(friendIDs[..i], hostileIDs, merges.merged, scope, parse)
    {
      assert Init(ReceiverNames(friendIDs[..i + 1], hostileIDs, merges.merged, scope, parse))
          == ReceiverNames(friendIDs[..i], hostileIDs, merges.merged, scope, parse);
      var friendID := friendIDs[i];
      var isMerged := IsGroupMergedWithFriendly(merges, hostileIDs, friendID);
      if isMerged || friendID !in scope {
        continue;
      }
      match parse(scope[friendID].contact.name) {
        case Some(callsign) =>
          if callsign !in callsigns {
            callsigns := callsigns + [callsign];
          }
        case None =>
      }
    }
    assert friendIDs[..|friendIDs|] == friendIDs;
  }

  method IsGroupMergedWithFriendly(merges: MergeTracker, hostileIDs: seq<ID>, friendID: ID) returns (yes: bool)
    ensures yes == GroupMergedWith(merges.merged, hostileIDs, friendID)
  {
    for i := 0 to |hostileIDs|
      invariant forall k :: 0 <= k < i ==> !Pair(merges.merged, hostileIDs[k], friendID)
    {
      if merges.IsMerged(hostileIDs[i], friendID) {
        assert hostileIDs[i] in hostileIDs;
        return true;
      }
    }
    return false;
  }

  // Is every contact of the group on cooldown? Checked one by one until one is not.
  method RecentlyNotified(hostileIDs: seq<ID>, cooldowns: CooldownTracker, clock: Clock) returns (yes: bool)
    modifies clock
    ensures old(clock.now) <= clock.now
    ensures !yes ==> exists id :: id in hostileIDs && !OnCooldown(cooldowns.cooldowns, id, clock.now)
    ensures yes ==> forall id :: id in hostileIDs ==> WasOnCooldown(cooldowns.cooldowns, id, old(clock.now), clock.now)
  {
    for i := 0 to |hostileIDs|
      invariant old(clock.now) <= clock.now
      invariant forall k :: 0 <= k < i ==>
        WasOnCooldown(cooldowns.cooldowns, hostileIDs[k], old(clock.now), clock.now)
    {
      ghost var start := clock.now;
      var on := cooldowns.IsOnCooldown(hostileIDs[i], clock);
      StillWas(cooldowns.cooldowns, old(clock.now), start, clock.now);
      if !on {
        assert hostileIDs[i] in hostileIDs;
        return false;
      }
    }
    return true;
  }

  // A threat call goes out unless every hostile is on cooldown or nobody is to
  // be told; only then are the cooldowns touched.
  method BroadcastThreat(hostileIDs: seq<ID>, friendIDs: seq<ID>, merges: MergeTracker, scope: Scope, contacts: seq<Trackfile>,
                         coalition: Coalition, parse: CallsignParser, cooldowns: CooldownTracker, clock: Clock)
    returns (call: Option<seq<Entry>>, ghost op: Op)
    modifies cooldowns, clock
    ensures old(clock.now) <= clock.now
    ensures forall name :: name in ThreatReceivers(friendIDs, hostileIDs, merges.merged, scope, parse) <==>
      Addressed(name, friendIDs, hostileIDs, merges.merged, scope, parse)
    ensures call.Some? ==>
      && ThreatReceivers(friendIDs, hostileIDs, merges.merged, scope, parse) != []
      && call.value == Collated(ThreatReceivers(friendIDs, hostileIDs, merges.merged, scope, parse),
                                RosterNames(contacts, coalition, parse))
      && op.Call? && op.ids == hostileIDs && Allowed(old(cooldowns.cooldowns), op)
      && Within(op, old(clock.now), clock.now)
      && cooldowns.cooldowns == After(old(cooldowns.cooldowns), op, cooldowns.cooldown)
    ensures call.None? ==>
      && cooldowns.cooldowns == old(cooldowns.cooldowns)
      && (ThreatReceivers(friendIDs, hostileIDs, merges.merged, scope, parse) == []
          || forall id :: id in hostileIDs ==>
               WasOnCooldown(old(cooldowns.cooldowns), id, old(clock.now), clock.now))
  {
    op := ForgetAll;
    ThreatReceiversExactly(friendIDs, hostileIDs, merges.merged, scope, parse);
    var recentlyNotified := RecentlyNotified(hostileIDs, cooldowns, clock);
    if recentlyNotified {
      return None, op;
    }
    var names := CollectReceivers(friendIDs, hostileIDs, merges, scope, parse);
    if |names| == 0 {
      return None, op;
    }
    var roster := GetFriendlyCallsigns(contacts, coalition, parse);
    var collated := Compose(names, roster);
    call := Some(collated);
    ghost var published := clock.now;
    ghost var extended := ExtendAll(hostileIDs, cooldowns, clock);
    op := Call(hostileIDs, published, published, extended);
  }

  method ExtendAll(ids: seq<ID>, cooldowns: CooldownTracker, clock: Clock) returns (ghost extended: seq<Time>)
    modifies cooldowns, clock
    ensures |extended| == |ids| && old(clock.now) <= clock.now
    ensures forall k :: 0 <= k < |ids| ==> old(clock.now) <= extended[k] <= clock.now
    ensures cooldowns.cooldowns == Extend(old(cooldowns.cooldowns), ids, extended, cooldowns.cooldown)
  {
    extended := [];
    for i := 0 to |ids|
      invariant |extended| == i && old(clock.now) <= clock.now
      invariant forall k :: 0 <= k < i ==> old(clock.now) <= extended[k] <= clock.now
      invariant cooldowns.cooldowns == Extend(old(cooldowns.cooldowns), ids[..i], extended, cooldowns.cooldown)
    {
      ghost var at := cooldowns.ExtendCooldown(ids[i], clock);
      assert ids[..i + 1][..i] == ids[..i] && (extended + [at])[..i] == extended;
      extended := extended + [at];
    }
    assert ids[..|ids|] == ids;
  }

  // ---- Spacing ----------------------------------------------------------------------------------

  // Passes and threat calls of one tracker join to longer runs, so the spacing
  // of calls holds across all of them.
  lemma RunsJoin(ms: seq<Expiries>, ops: seq<Op>, clock: seq<Time>,
                 ms': seq<Expiries>, ops': seq<Op>, clock': seq<Time>, cooldown: Time)
    requires Cooldowns.Run(ms, ops, clock, cooldown) && Cooldowns.Run(ms', ops', clock', cooldown)
    requires ms[|ops|] == ms'[0] && clock[|ops|] <= clock'[0]
    ensures Cooldowns.Run(ms + ms'[1..], ops + ops', clock[..|ops|] + clock', cooldown)
  {
    var all, opsAll, times := ms + ms'[1..], ops + ops', clock[..|ops|] + clock';
    forall i | 0 <= i < |opsAll|
      ensures Allowed(all[i], opsAll[i]) && all[i + 1] == After(all[i], opsAll[i], cooldown)
      ensures times[i] <= times[i + 1] && Within(opsAll[i], times[i], times[i + 1])
    {
      if i < |ops| {
        assert all[i] == ms[i] && all[i + 1] == ms[i + 1];
        assert Within(ops[i], clock[i], clock[i + 1]);
      } else {
        var k := i - |ops|;
        assert all[i] == ms'[k] && all[i + 1] == ms'[k + 1];
        assert times[i] == clock'[k] && times[i + 1] == clock'[k + 1];
      }
    }
  }

  // Over any run of merged calls, a friendly that is not forgotten in between
  // is notified at most once per cooldown.
  lemma NoticesAreSpaced(ms: seq<Expiries>, ops: seq<Op>, clock: seq<Time>, i: nat, j: nat, friend: ID)
    requires Cooldowns.Run(ms, ops, clock, MERGE_COOLDOWN) && i < j < |ops|
    requires ops[i].Call? && ops[i].ids == [friend] && ops[j].Call? && ops[j].ids == [friend]
    requires forall k :: i < k < j ==> !Forgets(ops[k], friend)
    ensures ops[j].checked >= ops[i].checked + 30_000
  {
    CallsAreSpaced(ms, ops, clock, MERGE_COOLDOWN, i, j);
    assert Allowed(ms[i], ops[i]);
  }
}
