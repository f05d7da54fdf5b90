/**
 Runs of merge sweeps over what the radar finds: when a pair of contacts is
 reported as merged again.
 */
module MergeRuns {
  import opened Trackfiles
  import opened Grouping
  import opened MergeTrackers
  import opened RadarMerges
  import MergeSweeps

  datatype Event =
    | Sweep(w: Airspace, groups: seq<seq<Trackfile>>, encounters: seq<MergeSweeps.Encounter>)
    | Forgotten(id: ID)
    | Restarted

  // A sweep of everything the radar finds, a removed contact, or a restart.
  ghost predicate Step(m: Merged, e: Event, m': Merged, hostile: Coalition, dist: MergeSweeps.Metric) {
    match e
    case Sweep(w, groups, encounters) =>
      && KeyedByID(w.contacts) && w.dist == dist && AreMerges(w, hostile, groups, encounters)
      && MergeSweeps.Swept(m, m', encounters, w.contacts, dist)
    case Forgotten(id) => m' == Removed(m, id)
    case Restarted => m' == map[]
  }

  ghost predicate Run(states: seq<Merged>, events: seq<Event>, hostile: Coalition, dist: MergeSweeps.Metric) {
    && |states| == |events| + 1
    && (forall a, b :: dist(a, b) == dist(b, a))
    && forall i :: 0 <= i < |events| ==> Step(states[i], events[i], states[i + 1], hostile, dist)
  }

  // A merged call is due for the pair.
  predicate Enters(states: seq<Merged>, events: seq<Event>, i: nat, h: ID, f: ID)
    requires |states| == |events| + 1 && i < |events|
  {
    events[i].Sweep? && !Pair(states[i], h, f) && Pair(states[i + 1], h, f)
  }

  // A live contact of another coalition with a position.
  predicate IsOpposed(w: Airspace, f: ID, hostile: Coalition) {
    f in w.contacts && w.contacts[f].contact.coalition != hostile && !w.contacts[f].IsLastKnownPointZero()
  }

  // The two part: one is removed, the hostile may not seed a group any more, the
  // other is gone, changes sides or loses its position, or they are apart. At
  // exactly the exit distance it depends on the lists of the hostile's groups.
  ghost predicate Parts(e: Event, h: ID, f: ID, hostile: Coalition) {
    match e
    case Restarted => true
    case Forgotten(id) => id == h || id == f
    case Sweep(w, _, encounters) =>
      || h !in w.contacts || !IsSeed(w, w.contacts[h], hostile) || !IsOpposed(w, f, hostile)
      || !Stays(w.contacts[h], w.contacts[f], encounters, w.dist)
  }

  // The two meet: both are live, on opposed sides, and below the entry distance.
  ghost predicate Meets(e: Event, h: ID, f: ID, hostile: Coalition) {
    && e.Sweep? && h in e.w.contacts && IsValidTrack(e.w, e.w.contacts[h]) && e.w.contacts[h].contact.coalition == hostile
    && IsOpposed(e.w, f, hostile)
    && MergeSweeps.Apart(e.w.contacts[f], e.w.contacts[h], e.w.dist) < MergeSweeps.MERGE_ENTRY_DISTANCE
  }

  lemma LeavingParts(m: Merged, e: Event, m': Merged, hostile: Coalition, dist: MergeSweeps.Metric, h: ID, f: ID)
    requires Step(m, e, m', hostile, dist) && forall a, b :: dist(a, b) == dist(b, a)
    requires Pair(m, h, f) && !Pair(m', h, f)
    ensures Parts(e, h, f, hostile)
  {
    match e
    case Restarted =>
    case Forgotten(id) =>
      if id != h && id != f {
        RemoveKeepsOthers(m, id, h, f);
      }
    case Sweep(w, groups, encounters) =>
      if h in w.contacts && IsSeed(w, w.contacts[h], hostile) && IsOpposed(w, f, hostile) {
        SweptByDistance(w, hostile, groups, encounters, m, m', w.contacts[h], w.contacts[f]);
      }
  }

  lemma EnteringMeets(m: Merged, e: Event, m': Merged, hostile: Coalition, dist: MergeSweeps.Metric, h: ID, f: ID)
    requires Step(m, e, m', hostile, dist) && e.Sweep?
    requires !Pair(m, h, f) && Pair(m', h, f)
    ensures Meets(e, h, f, hostile)
  {
    var w := e.w;
    MergedAreOpposed(w, hostile, e.groups, e.encounters, m, m', h, f);
    assert MergeSweeps.NowMerged(m, h, f, e.encounters, w.contacts, dist);
    MergedIsInReach(w, hostile, e.groups, e.encounters, m, w.contacts[h], w.contacts[f]);
  }

  lemma EachStep(states: seq<Merged>, events: seq<Event>, hostile: Coalition, dist: MergeSweeps.Metric, k: nat, h: ID, f: ID)
    requires Run(states, events, hostile, dist) && k < |events|
    ensures Pair(states[k], h, f) && !Pair(states[k + 1], h, f) ==> Parts(events[k], h, f, hostile)
    ensures Enters(states, events, k, h, f) ==> Meets(events[k], h, f, hostile)
  {
    assert Step(states[k], events[k], states[k + 1], hostile, dist);
    if Pair(states[k], h, f) && !Pair(states[k + 1], h, f) {
      LeavingParts(states[k], events[k], states[k + 1], hostile, dist, h, f);
    }
    if Enters(states, events, k, h, f) {
      EnteringMeets(states[k], events[k], states[k + 1], hostile, dist, h, f);
    }
  }

  // Over any run, a pair is reported again only after a step at which the two
  // parted, and each report finds them met.
  lemma MergedAgainOnlyAfterParting(states: seq<Merged>, events: seq<Event>, hostile: Coalition, dist: MergeSweeps.Metric,
                                    i: nat, j: nat, h: ID, f: ID) returns (k: nat)
    requires Run(states, events, hostile, dist) && i < j < |events|
    requires Enters(states, events, i, h, f) && Enters(states, events, j, h, f)
    ensures i < k < j && Parts(events[k], h, f, hostile)
    ensures Meets(events[i], h, f, hostile) && Meets(events[j], h, f, hostile)
  {
    k := MergeSweeps.LeavesBetween(states, i, j, h, f);
    EachStep(states, events, hostile, dist, k, h, f);
    EachStep(states, events, hostile, dist, i, h, f);
    EachStep(states, events, hostile, dist, j, h, f);
  }
}
