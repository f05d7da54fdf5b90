/**
 Runs of the radar: the callsign index after any sequence of updates, fades,
 expiries and restarts, and how often a contact is reported faded.
 */
module RadarRuns {
  import opened Basics
  import opened Trackfiles
  import opened ContactDatabases
  import opened RadarScopes

  datatype Event =
    | Update(labels: Labels, frame: Frame)
    | Fade(ids: seq<ID>)
    | Expire(missionTime: Time)
    | Restart

  function After(db: Db, e: Event): Db
    requires WellKeyed(db)
  {
    match e
    case Update(labels, frame) => Updated(db, labels, frame)
    case Fade(ids) => DeleteFrom(db, IDSet(ids))
    case Expire(missionTime) => DeleteFrom(db, ExpiredIDs(db.contacts, missionTime))
    case Restart => EMPTY
  }

  lemma StepKeepsSound(db: Db, e: Event)
    requires WellKeyed(db) && IndexSound(db)
    ensures WellKeyed(After(db, e)) && IndexSound(After(db, e))
  {
    match e
    case Update(labels, frame) =>
      if labels.id !in db.contacts {
        SetKeepsSoundIff(db, NewTrackfile(labels));
      } else {
        FrameKeepsLabels(db, labels, frame);
      }
    case Fade(ids) => DeleteKeepsSound(db, IDSet(ids));
    case Expire(missionTime) => DeleteKeepsSound(db, ExpiredIDs(db.contacts, missionTime));
    case Restart => EmptyIsSound();
  }

  // A frame changes no labels, so the index is not concerned.
  lemma FrameKeepsLabels(db: Db, labels: Labels, frame: Frame)
    requires WellKeyed(db) && labels.id in db.contacts
    ensures var db' := Updated(db, labels, frame);
      && db'.index == db.index && db'.contacts.Keys == db.contacts.Keys
      && forall id :: id in db.contacts ==> db'.contacts[id].contact == db.contacts[id].contact
  {
  }

  ghost function StateAfter(run: seq<Event>): (db: Db)
    ensures WellKeyed(db) && IndexSound(db)
  {
    if run == [] then
      EmptyIsSound();
      EMPTY
    else
      StepKeepsSound(StateAfter(run[..|run| - 1]), run[|run| - 1]);
      After(StateAfter(run[..|run| - 1]), run[|run| - 1])
  }

  // After any run, whatever the index names is live and so named: a lookup
  // never finds an entry without its contact.
  lemma IndexedContactsAreLive(run: seq<Event>, c: Coalition, name: string)
    requires Indexed(StateAfter(run), c, name)
    ensures var db := StateAfter(run); var id := db.index[c][name];
      && id in db.contacts && db.contacts[id].contact.id == id
      && db.contacts[id].contact.coalition == c && db.contacts[id].contact.name == name
  {
    assert IndexSound(StateAfter(run));
  }

  // A step brings in a second live contact of one coalition with one name.
  predicate DuplicatesName(db: Db, e: Event) {
    e.Update? && e.labels.id !in db.contacts && NameIsLive(db, e.labels.coalition, e.labels.name)
  }

  // While index and contacts are inverse, one step leaves them so exactly when
  // it does not bring in a second live contact of that name.
  lemma StepKeepsInverseIff(db: Db, e: Event)
    requires WellKeyed(db) && IndexIsInverse(db)
    ensures IndexIsInverse(After(db, e)) <==> !DuplicatesName(db, e)
  {
    match e
    case Update(labels, frame) =>
      if labels.id !in db.contacts {
        InsertKeepsInverseIff(db, NewTrackfile(labels));
      } else {
        FrameKeepsLabels(db, labels, frame);
        FrameKeepsInverse(db, labels, frame);
      }
    case Fade(ids) => DeleteKeepsInverse(db, IDSet(ids));
    case Expire(missionTime) => DeleteKeepsInverse(db, ExpiredIDs(db.contacts, missionTime));
    case Restart => EmptyIsSound();
  }

  lemma FrameKeepsInverse(db: Db, labels: Labels, frame: Frame)
    requires WellKeyed(db) && IndexIsInverse(db) && labels.id in db.contacts
    ensures IndexIsInverse(Updated(db, labels, frame))
  {
    var db' := Updated(db, labels, frame);
    FrameKeepsLabels(db, labels, frame);
    StepKeepsSound(db, Update(labels, frame));
    forall id | id in db'.contacts ensures IsIndexed(db', db'.contacts[id]) {
      assert IsIndexed(db, db.contacts[id]);
    }
  }

  // ---- Exactly when the index is the inverse -------------------------------------------------

  predicate IsNamesake(t: Trackfile, u: Labels) {
    u.id != t.contact.id && u.coalition == t.contact.coalition && u.name == t.contact.name
  }

  predicate RemovesNamesake(db: Db, ids: set<ID>, t: Trackfile) {
    exists id :: id in ids && id in db.contacts && IsNamesake(t, db.contacts[id].contact)
  }

  // The step brings in or removes a contact of the same coalition and name.
  predicate Disturbs(db: Db, e: Event, t: Trackfile) {
    match e
    case Update(labels, _) => labels.id !in db.contacts && IsNamesake(t, labels)
    case Fade(ids) => RemovesNamesake(db, IDSet(ids), t)
    case Expire(missionTime) => RemovesNamesake(db, ExpiredIDs(db.contacts, missionTime), t)
    case Restart => false
  }

  // Since the event that brought the contact in, no namesake has come or gone.
  ghost predicate Undisturbed(run: seq<Event>, id: ID) {
    run != []
    && var db, e := StateAfter(run[..|run| - 1]), run[|run| - 1];
       (id !in db.contacts || (Undisturbed(run[..|run| - 1], id) && !Disturbs(db, e, db.contacts[id])))
  }

  // One step on a contact that stays.
  lemma StepKeepsIndexedIff(db: Db, e: Event, id: ID)
    requires WellKeyed(db) && id in db.contacts && id in After(db, e).contacts
    ensures IsIndexed(After(db, e), After(db, e).contacts[id]) <==> IsIndexed(db, db.contacts[id]) && !Disturbs(db, e, db.contacts[id])
  {
    match e
    case Update(labels, frame) =>
      if labels.id in db.contacts {
        FrameKeepsLabels(db, labels, frame);
      }
    case Fade(ids) => DeleteKeepsIndexedIff(db, IDSet(ids), id);
    case Expire(missionTime) => DeleteKeepsIndexedIff(db, ExpiredIDs(db.contacts, missionTime), id);
    case Restart =>
  }

  lemma DeleteKeepsIndexedIff(db: Db, ids: set<ID>, id: ID)
    requires WellKeyed(db) && id in db.contacts && id !in ids
    ensures IsIndexed(DeleteFrom(db, ids), db.contacts[id]) <==>
      IsIndexed(db, db.contacts[id]) && !RemovesNamesake(db, ids, db.contacts[id])
  {
    var t := db.contacts[id].contact;
    assert t.name in NamesOf(db, ids, t.coalition) <==> RemovesNamesake(db, ids, db.contacts[id]);
  }

  // A contact that a step brings in is indexed.
  lemma NewcomerIsIndexed(db: Db, e: Event, id: ID)
    requires WellKeyed(db) && id !in db.contacts && id in After(db, e).contacts
    ensures IsIndexed(After(db, e), After(db, e).contacts[id])
  {
    assert e.Update? && e.labels.id == id;
  }

  // After any run, a live contact is found under its name exactly when it has
  // been undisturbed.
  lemma {:induction false} IsIndexedIff(run: seq<Event>, id: ID)
    requires id in StateAfter(run).contacts
    ensures IsIndexed(StateAfter(run), StateAfter(run).contacts[id]) <==> Undisturbed(run, id)
  {
    var db, e := StateAfter(run[..|run| - 1]), run[|run| - 1];
    if id in db.contacts {
      IsIndexedIff(run[..|run| - 1], id);
      StepKeepsIndexedIff(db, e, id);
    } else {
      NewcomerIsIndexed(db, e, id);
    }
  }

  // After any run, the index is the exact inverse of the contacts exactly when
  // every live contact has been undisturbed.
  lemma IndexIsInverseIff(run: seq<Event>)
    ensures IndexIsInverse(StateAfter(run)) <==> forall id :: id in StateAfter(run).contacts ==> Undisturbed(run, id)
  {
    forall id | id in StateAfter(run).contacts
      ensures IsIndexed(StateAfter(run), StateAfter(run).contacts[id]) <==> Undisturbed(run, id)
    {
      IsIndexedIff(run, id);
    }
  }

  ghost predicate NamesStayUnique(run: seq<Event>) {
    run == [] || (NamesStayUnique(run[..|run| - 1]) && !DuplicatesName(StateAfter(run[..|run| - 1]), run[|run| - 1]))
  }

  // With names that stay unique, nobody ever has a namesake.
  lemma {:induction false} UniqueNamesAreUndisturbed(run: seq<Event>, id: ID)
    requires NamesStayUnique(run) && id in StateAfter(run).contacts
    ensures Undisturbed(run, id)
    decreases |run|, 0
  {
    var db := StateAfter(run[..|run| - 1]);
    if id in db.contacts {
      IndexIsInverseAfter(run[..|run| - 1]);
      UniqueNamesAreUndisturbed(run[..|run| - 1], id);
      forall other | other in db.contacts ensures !IsNamesake(db.contacts[id], db.contacts[other].contact) {
        assert IsIndexed(db, db.contacts[other]) && IsIndexed(db, db.contacts[id]);
      }
    }
  }

  // In particular, if no two live contacts of a coalition ever shared a name, the
  // index is the exact inverse of the contacts.
  lemma {:induction false} IndexIsInverseAfter(run: seq<Event>)
    requires NamesStayUnique(run)
    ensures IndexIsInverse(StateAfter(run))
    decreases |run|, 1
  {
    forall id | id in StateAfter(run).contacts ensures Undisturbed(run, id) {
      UniqueNamesAreUndisturbed(run, id);
    }
    IndexIsInverseIff(run);
  }

  // Unique names now are not enough: two contacts of one name, one of which
  // fades, leave the other live but not indexed.
  lemma PastDuplicateLeavesNoIndex(a: Labels, b: Labels, frame: Frame)
    requires a.id != b.id && a.name == b.name && a.coalition == b.coalition
    ensures var db := StateAfter([Update(a, frame), Update(b, frame), Fade([a.id])]);
      db.contacts == map[b.id := NewTrackfile(b)] && !Indexed(db, b.coalition, b.name)
  {
    var run := [Update(a, frame), Update(b, frame), Fade([a.id])];
    assert run[..2] == [Update(a, frame), Update(b, frame)] && run[..2][..1] == [Update(a, frame)];
    assert run[..2][..1][..0] == [];
    EmptyIsSound();
    assert StateAfter([]) == EMPTY;
    var one := SetIn(EMPTY, NewTrackfile(a));
    assert StateAfter(run[..2][..1]) == one;
    SetKeepsSoundIff(EMPTY, NewTrackfile(a));
    assert StateAfter(run[..2]) == SetIn(one, NewTrackfile(b));
    assert IDSet([a.id]) == {a.id};
    NamesakesLoseTheirIndex(one, a, b);
  }

  lemma NamesakesLoseTheirIndex(db: Db, a: Labels, b: Labels)
    requires a.id != b.id && a.name == b.name && a.coalition == b.coalition
    requires WellKeyed(EMPTY) && WellKeyed(db) && db == SetIn(EMPTY, NewTrackfile(a))
    ensures var after := DeleteFrom(SetIn(db, NewTrackfile(b)), {a.id});
      after.contacts == map[b.id := NewTrackfile(b)] && !Indexed(after, b.coalition, b.name)
  {
    DeleteOne(SetIn(db, NewTrackfile(b)), a.id);
  }

  // ---- How often a fade is handled ------------------------------------------------------------

  // Batches, clean-ups and restarts, with the time of each.
  datatype FadeOp = Batch(fades: seq<ID>) | CleanUp | Forgotten

  function Next(completed: Completed, op: FadeOp, now: Time): Completed {
    match op
    case Batch(fades) => Recorded(completed, fades, now)
    case CleanUp => Recent(completed, now)
    case Forgotten => map[]
  }

  ghost predicate FadeRun(cs: seq<Completed>, ops: seq<FadeOp>, times: seq<Time>) {
    && |cs| == |ops| + 1 && |times| == |ops|
    && (forall i :: 0 <= i < |ops| ==> cs[i + 1] == Next(cs[i], ops[i], times[i]))
    && (forall i, j :: 0 <= i <= j < |times| ==> times[i] <= times[j])
  }

  // The batch passes the ID on to be grouped.
  predicate Handles(cs: seq<Completed>, ops: seq<FadeOp>, i: nat, id: ID)
    requires i < |ops| < |cs|
  {
    ops[i].Batch? && id in ops[i].fades && id !in cs[i]
  }

  lemma {:induction false} RecordLasts(cs: seq<Completed>, ops: seq<FadeOp>, times: seq<Time>, i: nat, j: nat, id: ID)
    requires FadeRun(cs, ops, times) && i < j < |ops| && Handles(cs, ops, i, id)
    requires forall k :: i < k < j ==> !ops[k].Forgotten?
    requires times[j] - times[i] <= HISTORY
    ensures id in cs[j] && cs[j][id] == times[i]
  {
    assert cs[j] == Next(cs[j - 1], ops[j - 1], times[j - 1]);
    if j - 1 > i {
      RecordLasts(cs, ops, times, i, j - 1, id);
    }
  }

  // Over any run, a contact is handled as faded again only after more than
  // five minutes or a mission restart.
  lemma HandledAgainOnlyMuchLater(cs: seq<Completed>, ops: seq<FadeOp>, times: seq<Time>, i: nat, j: nat, id: ID)
    requires FadeRun(cs, ops, times) && i < j < |ops|
    requires Handles(cs, ops, i, id) && Handles(cs, ops, j, id)
    ensures times[j] - times[i] > 300_000 || exists k :: i < k < j && ops[k].Forgotten?
  {
    if times[j] - times[i] <= HISTORY && !(exists k :: i < k < j && ops[k].Forgotten?) {
      RecordLasts(cs, ops, times, i, j, id);
    }
  }

  // A record that is still there is that of the last handling.
  lemma {:induction false} RecordIs(cs: seq<Completed>, ops: seq<FadeOp>, times: seq<Time>, i: nat, j: nat, id: ID)
    requires FadeRun(cs, ops, times) && i < j <= |ops| && Handles(cs, ops, i, id)
    requires forall k :: i < k < j ==> !Handles(cs, ops, k, id)
    ensures id in cs[j] ==> cs[j][id] == times[i]
  {
    assert cs[j] == Next(cs[j - 1], ops[j - 1], times[j - 1]);
    if j - 1 > i {
      RecordIs(cs, ops, times, i, j - 1, id);
      assert !Handles(cs, ops, j - 1, id);
    }
  }

  // And once more than five minutes have passed, a clean-up lets it be handled again.
  lemma ForgottenAfterFiveMinutes(cs: seq<Completed>, ops: seq<FadeOp>, times: seq<Time>, i: nat, j: nat, id: ID)
    requires FadeRun(cs, ops, times) && i < j < |ops| && Handles(cs, ops, i, id)
    requires forall k :: i < k < j ==> !Handles(cs, ops, k, id)
    requires ops[j].CleanUp? && times[j] - times[i] > 300_000
    ensures id !in cs[j + 1]
  {
    RecordIs(cs, ops, times, i, j, id);
    assert cs[j + 1] == Next(cs[j], ops[j], times[j]);
  }

  // ---- What is known of a contact --------------------------------------------------------------

  // The frames a live contact got since it was brought in, by an update whose own
  // frame is not kept.
  ghost function FramesSince(run: seq<Event>, id: ID): seq<Frame> {
    if run == [] || id !in StateAfter(run[..|run| - 1]).contacts then []
    else
      var before, e := FramesSince(run[..|run| - 1], id), run[|run| - 1];
      if e.Update? && e.labels.id == id then before + [e.frame] else before
  }

  lemma {:induction false} TrackIsHistory(run: seq<Event>, id: ID)
    requires id in StateAfter(run).contacts
    ensures var t := StateAfter(run).contacts[id]; t == AfterFrames(NewTrackfile(t.contact), FramesSince(run, id))
  {
    var init, e := run[..|run| - 1], run[|run| - 1];
    var db := StateAfter(init);
    if id in db.contacts {
      TrackIsHistory(init, id);
      StepKeepsTrack(db, e, id);
      if e.Update? && e.labels.id == id {
        OneFrameMore(NewTrackfile(db.contacts[id].contact), FramesSince(init, id), e.frame);
      }
    } else {
      assert e.Update? && e.labels.id == id;
    }
  }

  lemma StepKeepsTrack(db: Db, e: Event, id: ID)
    requires WellKeyed(db) && id in db.contacts && id in After(db, e).contacts
    ensures After(db, e).contacts[id] ==
      if e.Update? && e.labels.id == id then db.contacts[id].Update(e.frame) else db.contacts[id]
  {
  }

  // After any run, an expiry removes exactly the contacts whose newest frame is
  // more than a minute older than the mission time; one without frames stays.
  lemma SurvivesExpiryIff(run: seq<Event>, missionTime: Time, id: ID)
    requires id in StateAfter(run).contacts
    ensures var frames := FramesSince(run, id);
      && (frames == [] ==> id in StateAfter(run + [Expire(missionTime)]).contacts)
      && forall k :: IsNewest(frames, k) ==>
           (id in StateAfter(run + [Expire(missionTime)]).contacts <==>
              frames[k].time == 0 || frames[k].time >= missionTime - 60_000)
  {
    assert (run + [Expire(missionTime)])[..|run|] == run;
    var frames, t := FramesSince(run, id), StateAfter(run).contacts[id];
    TrackIsHistory(run, id);
    if frames != [] {
      var n := LastKnownIsNewest(t.contact, frames);
      forall k | IsNewest(frames, k) ensures k == n {
        OneNewest(frames, k, n);
      }
    }
  }
}
