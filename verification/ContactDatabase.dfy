/**
 The contact database: live trackfiles by ID, and an index from callsigns to IDs
 that every step must keep in agreement with them. Times are milliseconds.
 */
module ContactDatabases {
  import opened Basics
  import opened Trackfiles
  import opened Callsigns

  type Contacts = map<ID, Trackfile>
  type Index = map<Coalition, map<string, ID>>

  datatype Db = Db(contacts: Contacts, index: Index)

  const NO_NAMES: map<string, ID> := map[]
  const EMPTY: Db := Db(map[], map[Red := NO_NAMES, Blue := NO_NAMES, Neutrals := NO_NAMES])

  predicate WellKeyed(db: Db) {
    KeyedByID(db.contacts) && forall c: Coalition :: c in db.index
  }

  predicate Indexed(db: Db, c: Coalition, name: string) {
    c in db.index && name in db.index[c]
  }

  // Every index entry points to a live contact of that coalition and name.
  ghost predicate IndexSound(db: Db) {
    forall c: Coalition, name: string :: Indexed(db, c, name) ==>
      var id := db.index[c][name];
      id in db.contacts && db.contacts[id].contact.coalition == c && db.contacts[id].contact.name == name
  }

  predicate IsIndexed(db: Db, t: Trackfile) {
    Indexed(db, t.contact.coalition, t.contact.name) && db.index[t.contact.coalition][t.contact.name] == t.contact.id
  }

  // And every live contact is found under its name.
  ghost predicate IndexIsInverse(db: Db) {
    IndexSound(db) && forall id :: id in db.contacts ==> IsIndexed(db, db.contacts[id])
  }

  // ---- Operations -------------------------------------------------------------------------

  function SetIn(db: Db, t: Trackfile): Db
    requires WellKeyed(db)
  {
    var c := t.contact.coalition;
    var names: map<string, ID> := db.index[c][t.contact.name := t.contact.id];
    Db(db.contacts[t.contact.id := t], db.index[c := names])
  }

  // The names of some of the contacts of a coalition.
  function NamesOf(db: Db, ids: set<ID>, c: Coalition): set<string> {
    set id | id in ids && id in db.contacts && db.contacts[id].contact.coalition == c :: db.contacts[id].contact.name
  }

  // Deleting contacts, each with the index entry of its name.
  function DeleteFrom(db: Db, ids: set<ID>): Db {
    Db(db.contacts - ids, map c | c in db.index :: db.index[c] - NamesOf(db, ids, c))
  }

  class ContactDatabase {
    var contacts: Contacts
    var callsignIdx: Index

    constructor ()
      ensures State() == EMPTY
    {
      contacts := map[];
      callsignIdx := EMPTY.index;
    }

    function State(): Db
      reads this
    {
      Db(contacts, callsignIdx)
    }

    function GetByID(id: ID): Option<Trackfile>
      reads this
    {
      if id in contacts then Some(contacts[id]) else None
    }

    method Set(trackfile: Trackfile)
      requires WellKeyed(State())
      modifies this
      ensures State() == SetIn(old(State()), trackfile)
    {
      var c := trackfile.contact.coalition;
      var names: map<string, ID> := callsignIdx[c][trackfile.contact.name := trackfile.contact.id];
      callsignIdx := callsignIdx[c := names];
      contacts := contacts[trackfile.contact.id := trackfile];
    }

    method Delete(id: ID) returns (ok: bool)
      requires WellKeyed(State())
      modifies this
      ensures State() == DeleteFrom(old(State()), {id})
      ensures ok == (id in old(contacts))
    {
      ghost var before := State();
      ok := id in contacts;
      if ok {
        var contact := contacts[id].contact;
        callsignIdx := callsignIdx[contact.coalition := callsignIdx[contact.coalition] - {contact.name}];
      }
      contacts := contacts - {id};
      DeleteOne(before, id);
    }

    method Reset()
      modifies this
      ensures State() == EMPTY
    {
      contacts := map[];
      callsignIdx := EMPTY.index;
    }

    // A new frame of a live contact; its labels do not change.
    method UpdateTrack(id: ID, f: Frame)
      requires id in contacts
      modifies this`contacts
      ensures contacts == old(contacts)[id := old(contacts)[id].Update(f)]
    {
      contacts := contacts[id := contacts[id].Update(f)];
    }
  }

  lemma DeleteJoins(db: Db, a: set<ID>, b: set<ID>)
    ensures DeleteFrom(DeleteFrom(db, a), b) == DeleteFrom(db, a + b)
  {
    var one, both := DeleteFrom(DeleteFrom(db, a), b), DeleteFrom(db, a + b);
    assert one.contacts == both.contacts;
    forall c | c in db.index ensures one.index[c] == both.index[c] {
      assert NamesOf(db, a + b, c) == NamesOf(db, a, c) + NamesOf(DeleteFrom(db, a), b, c);
    }
    assert one.index == both.index;
  }

  lemma DeleteNothing(db: Db)
    ensures DeleteFrom(db, {}) == db
  {
    forall c | c in db.index ensures DeleteFrom(db, {}).index[c] == db.index[c] {
      assert NamesOf(db, {}, c) == {};
    }
    assert DeleteFrom(db, {}).index == db.index;
  }

  // What deleting one contact does to the index.
  lemma DeleteOne(db: Db, id: ID)
    requires WellKeyed(db)
    ensures DeleteFrom(db, {id}).index ==
      if id !in db.contacts then db.index
      else
        var contact := db.contacts[id].contact;
        db.index[contact.coalition := db.index[contact.coalition] - {contact.name}]
  {
    forall c | c in db.index
      ensures DeleteFrom(db, {id}).index[c] ==
        if id in db.contacts && c == db.contacts[id].contact.coalition
        then db.index[c] - {db.contacts[id].contact.name} else db.index[c]
    {
      assert NamesOf(db, {id}, c) ==
        if id in db.contacts && c == db.contacts[id].contact.coalition then {db.contacts[id].contact.name} else {};
    }
  }

  // ---- What keeps the index in agreement ----------------------------------------------------

  lemma EmptyIsSound()
    ensures WellKeyed(EMPTY) && IndexIsInverse(EMPTY)
  {
    forall c: Coalition ensures c in EMPTY.index && EMPTY.index[c] == map[] {
      match c
      case Red =>
      case Blue =>
      case Neutrals =>
    }
  }

  // Setting keeps the index sound exactly when it does not rename a contact
  // that is live and found under its old name.
  lemma SetKeepsSoundIff(db: Db, t: Trackfile)
    requires WellKeyed(db) && IndexSound(db)
    ensures WellKeyed(SetIn(db, t))
    ensures IndexSound(SetIn(db, t)) <==>
      var id := t.contact.id;
      !(id in db.contacts && IsIndexed(db, db.contacts[id])
        && (db.contacts[id].contact.coalition != t.contact.coalition || db.contacts[id].contact.name != t.contact.name))
  {
    var id, db' := t.contact.id, SetIn(db, t);
    if id in db.contacts && IsIndexed(db, db.contacts[id])
       && (db.contacts[id].contact.coalition != t.contact.coalition || db.contacts[id].contact.name != t.contact.name) {
      var was := db.contacts[id].contact;
      assert Indexed(db', was.coalition, was.name) && db'.index[was.coalition][was.name] == id;
    } else {
      forall c: Coalition, name: string | Indexed(db', c, name)
        ensures var i := db'.index[c][name];
          i in db'.contacts && db'.contacts[i].contact.coalition == c && db'.contacts[i].contact.name == name
      {
        if c != t.contact.coalition || name != t.contact.name {
          assert Indexed(db, c, name);
        }
      }
    }
  }

  lemma DeleteKeepsSound(db: Db, ids: set<ID>)
    requires WellKeyed(db) && IndexSound(db)
    ensures WellKeyed(DeleteFrom(db, ids)) && IndexSound(DeleteFrom(db, ids))
  {
    var db' := DeleteFrom(db, ids);
    forall c: Coalition, name: string | Indexed(db', c, name)
      ensures var id := db'.index[c][name];
        id in db'.contacts && db'.contacts[id].contact.coalition == c && db'.contacts[id].contact.name == name
    {
      assert Indexed(db, c, name);
    }
  }

  predicate NameIsLive(db: Db, c: Coalition, name: string) {
    exists id :: id in db.contacts && db.contacts[id].contact.coalition == c && db.contacts[id].contact.name == name
  }

  // A new contact keeps the index the exact inverse of the contacts exactly
  // when no live contact of its coalition has its name.
  lemma InsertKeepsInverseIff(db: Db, t: Trackfile)
    requires WellKeyed(db) && IndexIsInverse(db) && t.contact.id !in db.contacts
    ensures IndexIsInverse(SetIn(db, t)) <==> !NameIsLive(db, t.contact.coalition, t.contact.name)
  {
    var db' := SetIn(db, t);
    SetKeepsSoundIff(db, t);
    if NameIsLive(db, t.contact.coalition, t.contact.name) {
      var id :| id in db.contacts && db.contacts[id].contact.coalition == t.contact.coalition
                && db.contacts[id].contact.name == t.contact.name;
      assert db'.contacts[id] == db.contacts[id] && !IsIndexed(db', db'.contacts[id]);
    } else {
      forall id | id in db'.contacts ensures IsIndexed(db', db'.contacts[id]) {
        if id != t.contact.id {
          assert IsIndexed(db, db.contacts[id]);
        }
      }
    }
  }

  // Deletion keeps the exact inverse.
  lemma DeleteKeepsInverse(db: Db, ids: set<ID>)
    requires WellKeyed(db) && IndexIsInverse(db)
    ensures IndexIsInverse(DeleteFrom(db, ids))
  {
    var db' := DeleteFrom(db, ids);
    DeleteKeepsSound(db, ids);
    forall id | id in db'.contacts ensures IsIndexed(db', db'.contacts[id]) {
      var t := db.contacts[id];
      assert IsIndexed(db, t);
      forall other | other in ids && other in db.contacts && db.contacts[other].contact.coalition == t.contact.coalition
        ensures db.contacts[other].contact.name != t.contact.name
      {
        assert IsIndexed(db, db.contacts[other]);
      }
      assert t.contact.name !in NamesOf(db, ids, t.contact.coalition);
    }
  }

  // ---- Lookup by callsign ---------------------------------------------------------------------

  // A name that does not parse stands for itself.
  function Normal(parse: CallsignParser, rawName: string): string {
    match parse(rawName)
    case Some(parsed) => parsed
    case None => rawName
  }

  // The edit-distance search: a close key, or none.
  type FuzzySearch = (string, set<string>) -> Option<string>

  ghost predicate PicksKeys(fuzzy: FuzzySearch) {
    forall s, keys :: fuzzy(s, keys).Some? ==> fuzzy(s, keys).value in keys
  }

  // The callsign that the raw name parses to, or the raw name if it does not parse.
  predicate IsCalled(rawName: string, parse: CallsignParser, called: string) {
    parse(rawName) == Some(called) || (parse(rawName).None? && rawName == called)
  }

  ghost predicate CanBeCalled(db: Db, c: Coalition, parse: CallsignParser, called: string) {
    exists name :: Indexed(db, c, name) && IsCalled(name, parse, called)
  }

  // An exact match wins; otherwise the fuzzy search decides. Either way the
  // contact that is found is live, of the coalition, and called as returned.
  method GetByCallsignAndCoalition(db: ContactDatabase, callsign: string, coalition: Coalition,
                                   parse: CallsignParser, fuzzy: FuzzySearch)
    returns (found: Option<(string, Trackfile)>)
    requires WellKeyed(db.State()) && IndexSound(db.State()) && PicksKeys(fuzzy)
    ensures found.Some? ==>
      var (called, t) := found.value;
      && t.contact.id in db.contacts && db.contacts[t.contact.id] == t
      && t.contact.coalition == coalition && IsCalled(t.contact.name, parse, called)
    ensures CanBeCalled(db.State(), coalition, parse, callsign) ==> found.Some? && found.value.0 == callsign
    ensures !CanBeCalled(db.State(), coalition, parse, callsign) ==>
      exists keys :: (forall k :: k in keys <==> CanBeCalled(db.State(), coalition, parse, k))
                     && (if fuzzy(callsign, keys).Some? then found.Some? && found.value.0 == fuzzy(callsign, keys).value
                         else found.None?)
  {
    var normalized := NormalizedIndex(db, coalition, parse);
    var foundCallsign: string;
    if callsign in normalized {
      foundCallsign := callsign;
    } else {
      var closest := fuzzy(callsign, normalized.Keys);
      if closest.None? {
        return None;
      }
      foundCallsign := closest.value;
    }
    var id := normalized[foundCallsign];
    // An indexed contact is always live.
    found := Some((foundCallsign, db.contacts[id]));
  }

  // When several raw names normalise alike, any of them may win.
  method NormalizedIndex(db: ContactDatabase, coalition: Coalition, parse: CallsignParser) returns (normalized: map<string, ID>)
    requires WellKeyed(db.State()) && IndexSound(db.State())
    ensures forall k :: k in normalized <==> CanBeCalled(db.State(), coalition, parse, k)
    ensures forall k :: k in normalized ==>
      && normalized[k] in db.contacts && db.contacts[normalized[k]].contact.coalition == coalition
      && IsCalled(db.contacts[normalized[k]].contact.name, parse, k)
  {
    normalized := map[];
    var index := db.callsignIdx[coalition];
    var remaining := index.Keys;
    while remaining != {}
      invariant remaining <= index.Keys
      invariant forall k :: k in normalized <==>
        exists name :: name in index && name !in remaining && IsCalled(name, parse, k)
      invariant forall k :: k in normalized ==>
        && normalized[k] in db.contacts && db.contacts[normalized[k]].contact.coalition == coalition
        && IsCalled(db.contacts[normalized[k]].contact.name, parse, k)
    {
      var rawName :| rawName in remaining;
      assert Indexed(db.State(), coalition, rawName);
      var parsed := Normal(parse, rawName);
      ghost var before, unseen := normalized, remaining;
      normalized := normalized[parsed := index[rawName]];
      remaining := remaining - {rawName};
      forall k ensures k in normalized <==> exists name :: name in index && name !in remaining && IsCalled(name, parse, k) {
        if k in before {
          var name :| name in index && name !in unseen && IsCalled(name, parse, k);
          assert name !in remaining;
        }
      }
    }
    forall k ensures k in normalized <==> CanBeCalled(db.State(), coalition, parse, k) {
      if name :| name in index && IsCalled(name, parse, k) {
        assert Indexed(db.State(), coalition, name);
      }
    }
  }
}
