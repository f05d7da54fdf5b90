/**
 The radar's own state: trackfiles created, updated, faded and expired, and the
 batches in which faded contacts are reported. Times are milliseconds.
 */
module RadarScopes {
  import opened Basics
  import opened Trackfiles
  import opened Encyclopedias
  import opened Grouping
  import opened Enumeration
  import ContactDatabases

  const SHORT_EXTENSION: Time := 5_000
  const LONG_EXTENSION: Time := 15_000
  const MAX_LONG_EXTENSIONS: nat := 2
  const HISTORY: Time := 300_000
  const MAX_AGE: Time := 60_000

  // ID -> the time its fade was handled
  type Completed = map<ID, Time>

  // ---- Specification of the steps on the database ---------------------------------------------

  // A live contact gets a new frame; an unknown one a new, empty trackfile.
  function Updated(db: ContactDatabases.Db, labels: Labels, frame: Frame): ContactDatabases.Db
    requires ContactDatabases.WellKeyed(db)
  {
    if labels.id in db.contacts
    then db.(contacts := db.contacts[labels.id := db.contacts[labels.id].Update(frame)])
    else ContactDatabases.SetIn(db, NewTrackfile(labels))
  }

  predicate IsExpired(t: Trackfile, missionTime: Time) {
    t.LastKnown().time != 0 && t.LastKnown().time < missionTime - MAX_AGE
  }

  function ExpiredIDs(contacts: map<ID, Trackfile>, missionTime: Time): set<ID> {
    set id | id in contacts && IsExpired(contacts[id], missionTime)
  }

  function IDSet(ids: seq<ID>): set<ID> {
    set id | id in ids
  }

  // ---- Specification of a fade batch -----------------------------------------------------------

  function Recorded(completed: Completed, fades: seq<ID>, now: Time): Completed {
    map id | id in completed.Keys + IDSet(fades) :: if id in completed then completed[id] else now
  }

  function Recent(completed: Completed, now: Time): Completed {
    map id | id in completed && now - completed[id] <= HISTORY :: completed[id]
  }

  // A fade that is to be reported: of a live contact, and not handled before.
  predicate IsNews(w: Airspace, completed: Completed, id: ID) {
    id in w.contacts && id !in completed
  }

  // Every group is that of a faded live contact not handled before, and no
  // seed shares its ID with a member of an earlier group.
  ghost predicate FadedGroups(w: Airspace, completed: Completed, fades: seq<ID>, groups: seq<seq<Trackfile>>) {
    && (forall g :: 0 <= g < |groups| ==>
          && groups[g] != [] && IsGroupOf(w, groups[g][0], groups[g]) && IsLive(w, groups[g][0])
          && groups[g][0].contact.id in fades && groups[g][0].contact.id !in completed)
    && (forall g, h :: 0 <= g < h < |groups| ==> groups[h][0].contact.id !in IDsOf(groups[g]))
  }

  // Every fade that is news is a member of a reported group.
  ghost predicate AllReported(w: Airspace, completed: Completed, fades: seq<ID>, groups: seq<seq<Trackfile>>) {
    forall id :: id in fades && IsNews(w, completed, id) ==> InSome(groups, w.contacts[id])
  }

  class Radar {
    const contacts: ContactDatabases.ContactDatabase
    const data: Encyclopedia
    const dist: (Point, Point) -> real
    const speed: Trackfile -> real
    var pendingFades: seq<ID>
    var completedFades: Completed
    var deadline: Time
    var extensions: nat

    constructor (data: Encyclopedia, dist: (Point, Point) -> real, speed: Trackfile -> real)
      ensures fresh(contacts) && Valid() && contacts.State() == ContactDatabases.EMPTY
      ensures pendingFades == [] && completedFades == map[]
    {
      this.data, this.dist, this.speed := data, dist, speed;
      contacts := new ContactDatabases.ContactDatabase();
      pendingFades, completedFades, deadline, extensions := [], map[], 0, 0;
      new;
      ContactDatabases.EmptyIsSound();
    }

    function Scope(): Airspace
      reads this, contacts
    {
      Airspace(contacts.contacts, data, dist, speed)
    }

    ghost predicate Valid()
      reads this, contacts
    {
      ContactDatabases.WellKeyed(contacts.State()) && ContactDatabases.IndexSound(contacts.State())
    }

    method HandleUpdate(labels: Labels, frame: Frame)
      requires Valid()
      modifies contacts
      ensures Valid() && contacts.State() == Updated(old(contacts.State()), labels, frame)
    {
      var known := contacts.GetByID(labels.id);
      if known.Some? {
        contacts.UpdateTrack(labels.id, frame);
      } else {
        ContactDatabases.SetKeepsSoundIff(contacts.State(), NewTrackfile(labels));
        contacts.Set(NewTrackfile(labels));
      }
    }

    // Nothing expires while fades are pending.
    method HandleGarbageCollection(missionTime: Time) returns (removed: seq<ID>)
      requires Valid()
      modifies contacts
      ensures Valid()
      ensures pendingFades != [] ==> removed == [] && contacts.State() == old(contacts.State())
      ensures pendingFades == [] ==>
        && IDSet(removed) == ExpiredIDs(old(contacts.contacts), missionTime)
        && contacts.State() == ContactDatabases.DeleteFrom(old(contacts.State()), ExpiredIDs(old(contacts.contacts), missionTime))
    {
      removed := [];
      if |pendingFades| > 0 {
        return;
      }
      var expired := ExpiredIDs(contacts.contacts, missionTime);
      while expired != {}
        invariant Valid() && contacts.State() == old(contacts.State())
        invariant expired <= ExpiredIDs(old(contacts.contacts), missionTime)
        invariant IDSet(removed) == ExpiredIDs(old(contacts.contacts), missionTime) - expired
      {
        var id :| id in expired;
        expired := expired - {id};
        IDSetOneMore(removed, id);
        removed := removed + [id];
      }
      DeleteAll(removed);
    }

    method DeleteAll(ids: seq<ID>)
      requires Valid()
      modifies contacts
      ensures Valid() && contacts.State() == ContactDatabases.DeleteFrom(old(contacts.State()), IDSet(ids))
    {
      ghost var start := contacts.State();
      ContactDatabases.DeleteNothing(start);
      assert IDSet(ids[..0]) == {};
      for i := 0 to |ids|
        invariant contacts.State() == ContactDatabases.DeleteFrom(start, IDSet(ids[..i]))
        invariant Valid()
      {
        ContactDatabases.DeleteKeepsSound(contacts.State(), {ids[i]});
        ContactDatabases.DeleteJoins(start, IDSet(ids[..i]), {ids[i]});
        assert ids[..i + 1] == ids[..i] + [ids[i]];
        IDSetOneMore(ids[..i], ids[i]);
        var _ := contacts.Delete(ids[i]);
      }
      assert ids[..|ids|] == ids;
    }

    method HandleStarted()
      modifies this, contacts
      ensures Valid() && contacts.State() == ContactDatabases.EMPTY
      ensures pendingFades == [] && completedFades == map[]
    {
      ContactDatabases.EmptyIsSound();
      contacts.Reset();
      pendingFades := [];
      completedFades := map[];
    }

    // ---- Fades ---------------------------------------------------------------------------

    method CollectFadedGroups(fades: seq<ID>, now: Time) returns (groups: seq<seq<Trackfile>>)
      requires Valid()
      modifies this`completedFades
      ensures completedFades == Recorded(old(completedFades), fades, now)
      ensures FadedGroups(Scope(), old(completedFades), fades, groups)
      ensures AllReported(Scope(), old(completedFades), fades, groups)
    {
      groups := [];
      for i := 0 to |fades|
        invariant completedFades == Recorded(old(completedFades), fades[..i], now)
        invariant FadedGroups(Scope(), old(completedFades), fades[..i], groups)
        invariant AllReported(Scope(), old(completedFades), fades[..i], groups)
      {
        var id := fades[i];
        assert fades[..i + 1] == fades[..i] + [id];
        RecordedOneMore(old(completedFades), fades[..i], id, now);
        MoreFades(Scope(), old(completedFades), fades[..i], id, groups);
        if id in completedFades {
          continue;
        }
        completedFades := completedFades[id := now];
        var known := contacts.GetByID(id);
        if known.None? {
          continue;
        }
        var trackfile := known.value;
        var isGrouped := IsGrouped(trackfile, groups);
        if isGrouped {
          ghost var g :| 0 <= g < |groups| && id in IDsOf(groups[g]);
          GroupedByID(Scope(), groups, g, trackfile);
        } else {
          var grp := FindGroupForAircraft(Scope(), trackfile);
          NewFadedGroup(Scope(), old(completedFades), fades[..i], groups, trackfile, grp.contacts);
          groups := groups + [grp.contacts];
        }
      }
      assert fades[..|fades|] == fades;
    }

    method IsGrouped(candidate: Trackfile, groups: seq<seq<Trackfile>>) returns (yes: bool)
      ensures yes <==> exists g :: 0 <= g < |groups| && candidate.contact.id in IDsOf(groups[g])
    {
      for g := 0 to |groups|
        invariant forall h :: 0 <= h < g ==> candidate.contact.id !in IDsOf(groups[h])
      {
        if candidate.contact.id in IDsOf(groups[g]) {
          return true;
        }
      }
      return false;
    }

    // The batch is grouped, then deleted; the groups go to the callback, if any.
    method HandleFaded(fades: seq<ID>, now: Time, hasCallback: bool) returns (reported: seq<seq<Trackfile>>)
      requires Valid()
      modifies this`completedFades, contacts
      ensures Valid() && contacts.State() == ContactDatabases.DeleteFrom(old(contacts.State()), IDSet(fades))
      ensures forall id :: id in fades ==> id !in contacts.contacts
      ensures completedFades == Recorded(old(completedFades), fades, now)
      ensures hasCallback ==>
        FadedGroups(old(Scope()), old(completedFades), fades, reported) && AllReported(old(Scope()), old(completedFades), fades, reported)
      ensures !hasCallback ==> reported == []
    {
      var groups := CollectFadedGroups(fades, now);
      DeleteAll(fades);
      reported := if hasCallback then groups else [];
    }

    // A fade notification waits for more, for longer at first.
    method FadeReceived(id: ID, now: Time)
      modifies this`pendingFades, this`deadline, this`extensions
      ensures id !in contacts.contacts ==>
        pendingFades == old(pendingFades) && deadline == old(deadline) && extensions == old(extensions)
      ensures id in contacts.contacts ==>
        && pendingFades == old(pendingFades) + [id] && extensions == old(extensions) + 1
        && deadline == now + if old(extensions) < 2 then 15_000 else 5_000
    {
      var known := contacts.GetByID(id);
      if known.None? {
        return;
      }
      var extension := SHORT_EXTENSION;
      if extensions < MAX_LONG_EXTENSIONS {
        extension := LONG_EXTENSION;
      }
      deadline := now + extension;
      extensions := extensions + 1;
      pendingFades := pendingFades + [id];
    }

    // The regular check: a batch whose deadline has passed is handled, and
    // records older than five minutes are dropped.
    method Tick(now: Time, hasCallback: bool) returns (reported: seq<seq<Trackfile>>)
      requires Valid()
      modifies this, contacts
      ensures Valid()
      ensures var due := old(pendingFades) != [] && now > old(deadline);
        && pendingFades == (if due then [] else old(pendingFades)) && extensions == 0 && deadline == old(deadline)
        && completedFades == Recent(if due then Recorded(old(completedFades), old(pendingFades), now) else old(completedFades), now)
        && contacts.State() == (if due then ContactDatabases.DeleteFrom(old(contacts.State()), IDSet(old(pendingFades)))
                                else old(contacts.State()))
        && (due && hasCallback ==>
              FadedGroups(old(Scope()), old(completedFades), old(pendingFades), reported)
              && AllReported(old(Scope()), old(completedFades), old(pendingFades), reported))
        && (!(due && hasCallback) ==> reported == [])
    {
      reported := [];
      if |pendingFades| > 0 && now > deadline {
        reported := HandleFaded(pendingFades, now, hasCallback);
        pendingFades := [];
      }
      completedFades := map id | id in completedFades && !(now - completedFades[id] > HISTORY) :: completedFades[id];
      extensions := 0;
    }
  }

  // ---- Lemmas for the batch ------------------------------------------------------------------

  lemma IDSetOneMore(ids: seq<ID>, id: ID)
    ensures IDSet(ids + [id]) == IDSet(ids) + {id}
  {
  }

  lemma RecordedOneMore(completed: Completed, fades: seq<ID>, id: ID, now: Time)
    ensures Recorded(completed, fades + [id], now)
         == if id in Recorded(completed, fades, now) then Recorded(completed, fades, now)
            else Recorded(completed, fades, now)[id := now]
  {
    IDSetOneMore(fades, id);
  }

  // An ID that is recorded already, or not live, needs no new group.
  lemma MoreFades(w: Airspace, completed: Completed, fades: seq<ID>, id: ID, groups: seq<seq<Trackfile>>)
    requires FadedGroups(w, completed, fades, groups) && AllReported(w, completed, fades, groups)
    ensures FadedGroups(w, completed, fades + [id], groups)
    ensures id in fades || !IsNews(w, completed, id) || InSome(groups, w.contacts[id]) ==>
      AllReported(w, completed, fades + [id], groups)
  {
  }

  // Group members with a live contact's ID are that contact.
  lemma GroupedByID(w: Airspace, groups: seq<seq<Trackfile>>, g: nat, t: Trackfile)
    requires g < |groups| && groups[g] != [] && IsGroupOf(w, groups[g][0], groups[g]) && IsLive(w, groups[g][0])
    requires IsLive(w, t) && t.contact.id in IDsOf(groups[g])
    ensures InSome(groups, t)
  {
    var u :| u in groups[g] && u.contact.id == t.contact.id;
    MemberIsLive(w, groups[g][0], groups[g], u);
  }

  lemma NewFadedGroup(w: Airspace, completed: Completed, fades: seq<ID>, groups: seq<seq<Trackfile>>, t: Trackfile, ts: seq<Trackfile>)
    requires FadedGroups(w, completed, fades, groups) && AllReported(w, completed, fades, groups)
    requires IsGroupOf(w, t, ts) && IsLive(w, t) && t.contact.id !in completed
    requires forall g :: 0 <= g < |groups| ==> t.contact.id !in IDsOf(groups[g])
    ensures FadedGroups(w, completed, fades + [t.contact.id], groups + [ts])
    ensures AllReported(w, completed, fades + [t.contact.id], groups + [ts])
  {
    NewSeedIsNew(w, completed, fades, groups, t, ts);
    NewFadeIsReported(w, completed, fades, groups, t, ts);
  }

  lemma NewSeedIsNew(w: Airspace, completed: Completed, fades: seq<ID>, groups: seq<seq<Trackfile>>, t: Trackfile, ts: seq<Trackfile>)
    requires FadedGroups(w, completed, fades, groups)
    requires IsGroupOf(w, t, ts) && IsLive(w, t) && t.contact.id !in completed
    requires forall g :: 0 <= g < |groups| ==> t.contact.id !in IDsOf(groups[g])
    ensures FadedGroups(w, completed, fades + [t.contact.id], groups + [ts])
  {
    var all: seq<seq<Trackfile>> := groups + [ts];
    var more := fades + [t.contact.id];
    assert ts[0] == t && t.contact.id in more;
    forall g: int | 0 <= g < |all|
      ensures all[g] != [] && IsGroupOf(w, all[g][0], all[g]) && IsLive(w, all[g][0])
      ensures all[g][0].contact.id in more && all[g][0].contact.id !in completed
    {
      if g < |groups| {
        assert all[g] == groups[g];
      }
    }
  }

  lemma NewFadeIsReported(w: Airspace, completed: Completed, fades: seq<ID>, groups: seq<seq<Trackfile>>, t: Trackfile, ts: seq<Trackfile>)
    requires AllReported(w, completed, fades, groups)
    requires IsGroupOf(w, t, ts) && IsLive(w, t)
    ensures AllReported(w, completed, fades + [t.contact.id], groups + [ts])
  {
    SeedIsMember(w, t, ts);
    forall other | other in fades + [t.contact.id] && IsNews(w, completed, other)
      ensures InSome(groups + [ts], w.contacts[other])
    {
      InSomeOneMore(groups, ts, w.contacts[other]);
    }
  }
}
