/**
 What a listener hears. A collated call is read from left to right: a flight
 call means everyone in that flight, a short form borrows the codeword of the
 full form before it, and anything else means itself.
 */
module CollationMeaning {
  import opened Basics
  import opened Words
  import opened Sorting
  import opened Callsigns
  import opened Collation

  // Who a name stands for.
  datatype Pilot = Strict(callsign: StrictCallsign) | Other(name: string)

  function Identity(name: string): Pilot {
    match Parse(name)
    case Some(c) => Strict(c)
    case None => Other(name)
  }

  // The strict callsigns among a list of names.
  function Roster(everyone: seq<string>): set<StrictCallsign> {
    set name | name in everyone && Parse(name).Some? :: Parse(name).value
  }

  function FlightMembers(w: string, f: nat, roster: set<StrictCallsign>): set<Pilot> {
    set c | c in roster && c.codeword == w && c.flight == f :: Strict(c)
  }

  function HeardOne(e: Entry, word: Option<string>, roster: set<StrictCallsign>): multiset<Pilot> {
    match e
    case FlightCall(w, f) => multiset(FlightMembers(w, f, roster))
    case Full(c) => multiset{Strict(c)}
    case Short(f, p) => if word.Some? then multiset{Strict(StrictCallsign(word.value, f, p))} else multiset{}
    case Loose(name) => multiset{Identity(name)}
  }

  // The codeword a following short form borrows.
  function WordAfter(es: seq<Entry>, word: Option<string>): Option<string> {
    if es == [] then word
    else
      var last := es[|es| - 1];
      if last.Full? then Some(last.callsign.codeword) else WordAfter(es[..|es| - 1], word)
  }

  function Heard(es: seq<Entry>, word: Option<string>, roster: set<StrictCallsign>): multiset<Pilot> {
    if es == [] then multiset{}
    else
      var init := es[..|es| - 1];
      Heard(init, word, roster) + HeardOne(es[|es| - 1], WordAfter(init, word), roster)
  }

  lemma {:induction false} WordAfterAppend(a: seq<Entry>, b: seq<Entry>, word: Option<string>)
    ensures WordAfter(a + b, word) == WordAfter(b, WordAfter(a, word))
  {
    if b == [] {
      assert a + b == a;
    } else {
      assert (a + b)[..|a + b| - 1] == a + b[..|b| - 1];
      WordAfterAppend(a, b[..|b| - 1], word);
    }
  }

  lemma {:induction false} HeardAppend(a: seq<Entry>, b: seq<Entry>, word: Option<string>, roster: set<StrictCallsign>)
    ensures Heard(a + b, word, roster) == Heard(a, word, roster) + Heard(b, WordAfter(a, word), roster)
  {
    if b == [] {
      assert a + b == a;
    } else {
      assert (a + b)[..|a + b| - 1] == a + b[..|b| - 1];
      HeardAppend(a, b[..|b| - 1], word, roster);
      WordAfterAppend(a, b[..|b| - 1], word);
    }
  }

  lemma HeardOneMore(es: seq<Entry>, e: Entry, word: Option<string>, roster: set<StrictCallsign>)
    ensures Heard(es + [e], word, roster) == Heard(es, word, roster) + HeardOne(e, WordAfter(es, word), roster)
  {
    assert (es + [e])[..|es + [e]| - 1] == es;
  }

  // ---- The trie holds exactly the roster -------------------------------------------

  predicate InTrie(t: Trie, c: StrictCallsign) {
    c.codeword in t && c.flight in t[c.codeword] && c.position in t[c.codeword][c.flight]
  }

  predicate Marked(t: Trie, c: StrictCallsign) {
    InTrie(t, c) && t[c.codeword][c.flight][c.position]
  }

  lemma {:induction false} TrieHoldsRoster(strict: seq<StrictCallsign>, receivers: seq<string>, c: StrictCallsign)
    ensures InTrie(BuildTrie(strict, receivers), c) <==> c in strict
    ensures Marked(BuildTrie(strict, receivers), c) <==> c in strict && c.Print() in receivers
  {
    if strict != [] {
      var n := |strict| - 1;
      TrieHoldsRoster(strict[..n], receivers, c);
      SetMemberHolds(BuildTrie(strict[..n], receivers), strict[n], strict[n].Print() in receivers, c);
      assert strict == strict[..n] + [strict[n]];
    }
  }

  lemma SetMemberHolds(t: Trie, c: StrictCallsign, isReceiver: bool, d: StrictCallsign)
    ensures InTrie(SetMember(t, c, isReceiver), d) <==> d == c || InTrie(t, d)
    ensures Marked(SetMember(t, c, isReceiver), d) <==> if d == c then isReceiver else Marked(t, d)
  {
  }

  lemma {:induction false} StrictOfIsRoster(names: seq<string>)
    ensures forall c :: c in StrictOf(names) <==> c in Roster(names)
  {
    if names != [] {
      var n := |names| - 1;
      StrictOfIsRoster(names[..n]);
      assert names == names[..n] + [names[n]];
      forall c ensures c in StrictOf(names) <==> c in Roster(names) {
        assert c in Roster(names) <==> c in Roster(names[..n]) || Parse(names[n]) == Some(c);
      }
    }
  }

  // ---- One flight, one codeword, the whole walk --------------------------------------

  function Once(b: bool): nat {
    if b then 1 else 0
  }

  predicate At(x: Pilot, w: string, f: int) {
    x.Strict? && x.callsign.codeword == w && x.callsign.flight == f
  }

  lemma PositionOneMore(es: seq<Entry>, w: string, f: nat, p: nat, word: Option<string>, roster: set<StrictCallsign>, x: Pilot)
    requires es != [] ==> WordAfter(es, word) == Some(w)
    ensures var more := es + [if es == [] then Full(StrictCallsign(w, f, p)) else Short(f, p)];
      && Heard(more, word, roster)[x] == Heard(es, word, roster)[x] + Once(At(x, w, f) && x.callsign.position == p)
      && WordAfter(more, word) == Some(w)
  {
    var e := if es == [] then Full(StrictCallsign(w, f, p)) else Short(f, p);
    HeardOneMore(es, e, word, roster);
    assert HeardOne(e, WordAfter(es, word), roster) == multiset{Strict(StrictCallsign(w, f, p))};
    assert (es + [e])[..|es|] == es;
  }

  lemma {:induction false} PositionsHeard(w: string, f: nat, positions: Positions, ps: seq<int>,
                                          word: Option<string>, roster: set<StrictCallsign>, x: Pilot)
    requires ValidPositions(positions) && Distinct(ps) && forall p :: p in ps ==> p in positions
    ensures Heard(PositionEntries(w, f, positions, ps), word, roster)[x]
         == Once(At(x, w, f) && x.callsign.position in ps && positions[x.callsign.position])
    ensures PositionEntries(w, f, positions, ps) != [] ==>
      WordAfter(PositionEntries(w, f, positions, ps), word) == Some(w)
  {
    if ps != [] {
      var n := |ps| - 1;
      var p, init := ps[n], PositionEntries(w, f, positions, ps[..n]);
      PositionsHeard(w, f, positions, ps[..n], word, roster, x);
      assert ps == ps[..n] + [p] && p in ps && p !in ps[..n];
      if positions[p] {
        PositionOneMore(init, w, f, p, word, roster, x);
      }
    }
  }

  // The trie below a flight agrees with the roster.
  ghost predicate Agrees(positions: Positions, w: string, f: int, roster: set<StrictCallsign>) {
    forall c: StrictCallsign :: c.codeword == w && c.flight == f ==> (c in roster <==> c.position in positions)
  }

  lemma FlightHeard(w: string, f: nat, positions: Positions, word: Option<string>, roster: set<StrictCallsign>, x: Pilot)
    requires ValidPositions(positions) && Agrees(positions, w, f, roster)
    ensures Heard(FlightEntries(w, f, positions), word, roster)[x]
         == Once(At(x, w, f) && x.callsign.position in positions && positions[x.callsign.position])
  {
    var ps := IntKeys(positions.Keys);
    if AllReceivers(positions) && |positions| > 1 {
      var members := FlightMembers(w, f, roster);
      var es := [FlightCall(w, f)];
      assert es[..0] == [];
      assert Heard(es, word, roster) == Heard([], word, roster) + multiset(members);
      assert x in members <==> At(x, w, f) && x.callsign in roster;
    } else {
      PositionsHeard(w, f, positions, ps, word, roster, x);
    }
  }

  lemma {:induction false} FlightsHeard(w: string, flights: Flights, fs: seq<int>,
                                        word: Option<string>, roster: set<StrictCallsign>, x: Pilot)
    requires ValidFlights(flights) && Distinct(fs)
    requires forall f :: f in fs ==> f in flights && Agrees(flights[f], w, f, roster)
    ensures Heard(FlightsEntries(w, flights, fs), word, roster)[x]
         == Once(x.Strict? && x.callsign.codeword == w && x.callsign.flight in fs
                 && x.callsign.position in flights[x.callsign.flight]
                 && flights[x.callsign.flight][x.callsign.position])
  {
    if fs != [] {
      var n := |fs| - 1;
      var f, before := fs[n], FlightsEntries(w, flights, fs[..n]);
      FlightsHeard(w, flights, fs[..n], word, roster, x);
      assert fs == fs[..n] + [f] && f in fs && f !in fs[..n];
      HeardAppend(before, FlightEntries(w, f, flights[f]), word, roster);
      FlightHeard(w, f, flights[f], WordAfter(before, word), roster, x);
    }
  }

  lemma CodewordHeard(t: Trie, w: string, word: Option<string>, roster: set<StrictCallsign>, x: Pilot)
    requires ValidTrie(t) && w in t
    requires forall c :: InTrie(t, c) <==> c in roster
    ensures Heard(CodewordEntries(w, t[w]), word, roster)[x]
         == Once(x.Strict? && x.callsign.codeword == w && Marked(t, x.callsign))
  {
    forall f | f in t[w] ensures Agrees(t[w][f], w, f, roster) {
      forall c: StrictCallsign | c.codeword == w && c.flight == f
        ensures c in roster <==> c.position in t[w][f]
      {
        assert InTrie(t, c) <==> c in roster;
      }
    }
    FlightsHeard(w, t[w], IntKeys(t[w].Keys), word, roster, x);
  }

  predicate HeardAmong(t: Trie, ws: seq<string>, x: Pilot) {
    x.Strict? && x.callsign.codeword in ws && Marked(t, x.callsign)
  }

  lemma HeardAmongStep(t: Trie, ws: seq<string>, x: Pilot)
    requires ws != [] && Distinct(ws)
    ensures Once(HeardAmong(t, ws, x))
         == Once(HeardAmong(t, ws[..|ws| - 1], x))
          + Once(x.Strict? && x.callsign.codeword == ws[|ws| - 1] && Marked(t, x.callsign))
  {
    var n := |ws| - 1;
    assert ws == ws[..n] + [ws[n]] && ws[n] !in ws[..n];
  }

  lemma CodewordsEntriesStep(t: Trie, ws: seq<string>)
    requires ws != [] && ValidTrie(t) && forall w :: w in ws ==> w in t
    ensures ws[|ws| - 1] in t && (forall w :: w in ws[..|ws| - 1] ==> w in t)
    ensures CodewordsEntries(t, ws)
         == CodewordsEntries(t, ws[..|ws| - 1]) + CodewordEntries(ws[|ws| - 1], t[ws[|ws| - 1]])
  {
    assert ws[|ws| - 1] in ws;
  }

  lemma {:induction false} CodewordsHeard(t: Trie, ws: seq<string>, word: Option<string>, roster: set<StrictCallsign>, x: Pilot)
    requires ValidTrie(t) && Distinct(ws) && forall w :: w in ws ==> w in t
    requires forall c :: InTrie(t, c) <==> c in roster
    ensures Heard(CodewordsEntries(t, ws), word, roster)[x] == Once(HeardAmong(t, ws, x))
  {
    if ws != [] {
      CodewordsEntriesStep(t, ws);
      HeardAmongStep(t, ws, x);
      var before, w := ws[..|ws| - 1], ws[|ws| - 1];
      CodewordsHeard(t, before, word, roster, x);
      CodewordHeard(t, w, WordAfter(CodewordsEntries(t, before), word), roster, x);
      HeardAppend(CodewordsEntries(t, before), CodewordEntries(w, t[w]), word, roster);
    }
  }

  function CountLoose(names: seq<string>, x: Pilot): nat {
    if x.Other? && Parse(x.name).None? then multiset(names)[x.name] else 0
  }

  lemma CountLooseStep(names: seq<string>, name: string, x: Pilot)
    ensures CountLoose(names + [name], x)
         == CountLoose(names, x) + Once(Parse(name).None? && x == Other(name))
  {
  }

  lemma LooseOneMore(es: seq<Entry>, name: string, word: Option<string>, roster: set<StrictCallsign>, x: Pilot)
    requires Parse(name).None?
    ensures Heard(es + [Loose(name)], word, roster)[x] == Heard(es, word, roster)[x] + Once(x == Other(name))
  {
    HeardOneMore(es, Loose(name), word, roster);
  }

  lemma LooseEntriesStep(names: seq<string>, name: string)
    ensures LooseEntries(names + [name])
         == LooseEntries(names) + if Parse(name).None? then [Loose(name)] else []
  {
    assert (names + [name])[..|names|] == names;
  }

  lemma {:induction false} LooseHeard(names: seq<string>, word: Option<string>, roster: set<StrictCallsign>, x: Pilot)
    ensures Heard(LooseEntries(names), word, roster)[x] == CountLoose(names, x)
  {
    if names != [] {
      var init, name := names[..|names| - 1], names[|names| - 1];
      assert names == init + [name];
      LooseHeard(init, word, roster, x);
      CountLooseStep(init, name, x);
      LooseEntriesStep(init, name);
      if Parse(name).None? {
        LooseOneMore(LooseEntries(init), name, word, roster, x);
      }
    }
  }

  // ---- Main results --------------------------------------------------------------------

  // Exactly what is heard, for all receivers and rosters: every rostered
  // callsign whose printed form is a receiver once, and every other receiver
  // as often as it was given.
  lemma CollationIsHeardAs(receivers: seq<string>, everyone: seq<string>, word: Option<string>, x: Pilot)
    requires |receivers| > 1
    ensures Heard(Collated(receivers, everyone), word, Roster(everyone))[x]
         == match x {
              case Strict(c) => Once(c in Roster(everyone) && c.Print() in receivers)
              case Other(_) => CountLoose(receivers, x)
            }
  {
    var sorted, everyone' := Sorted(receivers, BY_STRING), Sorted(everyone, BY_STRING);
    var strict := Sorted(StrictOf(everyone'), BY_CALLSIGN);
    var t, roster := BuildTrie(strict, sorted), Roster(everyone);
    SortedKeepsElements(receivers, BY_STRING);
    SortedKeepsElements(everyone, BY_STRING);
    SortedKeepsElements(StrictOf(everyone'), BY_CALLSIGN);
    StrictOfIsRoster(everyone');
    assert forall c :: c in Roster(everyone') <==> c in roster;
    TrieIsValid(strict, sorted);
    forall c ensures InTrie(t, c) <==> c in roster {
      TrieHoldsRoster(strict, sorted, c);
    }
    if x.Strict? {
      TrieHoldsRoster(strict, sorted, x.callsign);
    }
    CodewordsHeard(t, StringKeys(t.Keys), word, roster, x);
    HeardAppend(Walk(t), LooseEntries(sorted), word, roster);
    LooseHeard(sorted, WordAfter(Walk(t), word), roster, x);
  }

  // A single receiver is passed through unread.
  lemma ShortListIsHeardAs(receivers: seq<string>, everyone: seq<string>, word: Option<string>)
    requires |receivers| <= 1
    ensures Heard(Collated(receivers, everyone), word, Roster(everyone)) == Identities(receivers)
  {
    var es := Collated(receivers, everyone);
    if |receivers| == 1 {
      assert es[..0] == [] && receivers[..0] == [];
    }
  }

  function Identities(names: seq<string>): multiset<Pilot> {
    if names == [] then multiset{}
    else Identities(names[..|names| - 1]) + multiset{Identity(names[|names| - 1])}
  }

  lemma {:induction false} NamedInIdentities(names: seq<string>, name: string)
    requires name in names
    ensures Identity(name) in Identities(names)
  {
    var n := |names| - 1;
    assert names == names[..n] + [names[n]];
    if name != names[n] {
      NamedInIdentities(names[..n], name);
    }
  }

  // Nobody is named who is not a receiver.
  lemma NobodyElseIsNamed(receivers: seq<string>, everyone: seq<string>, word: Option<string>, x: Pilot)
    requires x in Heard(Collated(receivers, everyone), word, Roster(everyone))
    ensures x in Identities(receivers)
  {
    if |receivers| <= 1 {
      ShortListIsHeardAs(receivers, everyone, word);
    } else {
      CollationIsHeardAs(receivers, everyone, word, x);
      match x
      case Strict(c) => PrintedReceiverIsNamed(receivers, everyone, c);
      case Other(name) => NamedInIdentities(receivers, name);
    }
  }

  lemma PrintedReceiverIsNamed(receivers: seq<string>, everyone: seq<string>, c: StrictCallsign)
    requires c in Roster(everyone) && c.Print() in receivers
    ensures Strict(c) in Identities(receivers)
  {
    RosterReadsBack(everyone, c);
    NamedInIdentities(receivers, c.Print());
  }

  lemma RosterReadsBack(everyone: seq<string>, c: StrictCallsign)
    requires c in Roster(everyone)
    ensures Parse(c.Print()) == Some(c)
  {
    var name :| name in everyone && Parse(name) == Some(c);
    ParsedIsWellFormed(name);
    ParseOfPrint(c);
  }

  // What a caller must check: a strict receiver is on the roster, and its
  // printed form is among the receivers (it is, when names are canonical).
  predicate Findable(r: string, receivers: seq<string>, everyone: seq<string>) {
    match Parse(r)
    case Some(c) => c in Roster(everyone) && c.Print() in receivers
    case None => true
  }

  predicate Collatable(receivers: seq<string>, everyone: seq<string>) {
    forall r :: r in receivers ==> Findable(r, receivers, everyone)
  }

  predicate IsHeard(r: string, call: seq<Entry>, word: Option<string>, everyone: seq<string>) {
    Identity(r) in Heard(call, word, Roster(everyone))
  }

  lemma ReceiverIsHeardIff(receivers: seq<string>, everyone: seq<string>, word: Option<string>, r: string)
    requires |receivers| > 1 && r in receivers
    ensures IsHeard(r, Collated(receivers, everyone), word, everyone) <==> Findable(r, receivers, everyone)
  {
    CollationIsHeardAs(receivers, everyone, word, Identity(r));
  }

  // Every receiver is heard exactly when the list can be collated.
  lemma EveryReceiverIsHeardIff(receivers: seq<string>, everyone: seq<string>, word: Option<string>)
    ensures (forall r :: r in receivers ==> IsHeard(r, Collated(receivers, everyone), word, everyone))
       <==> |receivers| <= 1 || Collatable(receivers, everyone)
  {
    var call := Collated(receivers, everyone);
    if |receivers| <= 1 {
      ShortListIsHeardAs(receivers, everyone, word);
      forall r | r in receivers ensures IsHeard(r, call, word, everyone) {
        NamedInIdentities(receivers, r);
      }
    } else {
      forall r | r in receivers
        ensures IsHeard(r, call, word, everyone) <==> Findable(r, receivers, everyone)
      {
        ReceiverIsHeardIff(receivers, everyone, word, r);
      }
    }
  }

  // The names that fail: a flight number written with a leading zero parses,
  // but is looked up in its printed form. Such a receiver is not heard unless
  // the printed form is a receiver too.
  lemma PaddedReceiverIsLost(ws: seq<string>, f: nat, p: nat, receivers: seq<string>, everyone: seq<string>, word: Option<string>)
    requires ws != [] && AllWords(ws) && !HasDigits(Join(ws)) && f <= MAX_INT && p <= MAX_INT
    requires |receivers| > 1 && Join(ws + ["0" + Itoa(f), Itoa(p)]) in receivers
    requires StrictCallsign(Join(ws), f, p).Print() !in receivers
    ensures !IsHeard(Join(ws + ["0" + Itoa(f), Itoa(p)]), Collated(receivers, everyone), word, everyone)
  {
    PaddedNameParses(ws, f, p);
    ReceiverIsHeardIff(receivers, everyone, word, Join(ws + ["0" + Itoa(f), Itoa(p)]));
  }

  lemma AtoiOfPadded(f: nat)
    requires f <= MAX_INT
    ensures Atoi("0" + Itoa(f)) == Some(f) && IsWord("0" + Itoa(f))
  {
    LeadingZero(Itoa(f));
    ReadItoa(f);
  }

  lemma PaddedNameParses(ws: seq<string>, f: nat, p: nat)
    requires ws != [] && AllWords(ws) && !HasDigits(Join(ws)) && f <= MAX_INT && p <= MAX_INT
    ensures Parse(Join(ws + ["0" + Itoa(f), Itoa(p)])) == Some(StrictCallsign(Join(ws), f, p))
  {
    var words := ws + ["0" + Itoa(f), Itoa(p)];
    AtoiOfPadded(f);
    AtoiOfItoa(p);
    FieldsOfJoin(words);
    assert words[..|words| - 2] == ws;
    JoinIsNonempty(ws);
  }

  // ---- Canonical names: the receivers, each exactly once ----------------------------------

  predicate Canonical(names: seq<string>) {
    forall name :: name in names && Parse(name).Some? ==> Parse(name).value.Print() == name
  }

  // A name as ParsePilotCallsign leaves it: single spaces between the words, and
  // every digit a word of its own.
  predicate Spaced(name: string) {
    var words := Fields(name);
    name == Join(words) && forall k :: 0 <= k < |words| && HasDigits(words[k]) ==> |words[k]| == 1
  }

  // Such names are canonical, so the names that fail above do not arise from them.
  lemma SpacedIsCanonical(name: string)
    requires Spaced(name) && Parse(name).Some?
    ensures Parse(name).value.Print() == name
  {
    var words := Fields(name);
    var n := |words| - 2;
    FieldsAreWords(name);
    OneDigitPrints(words[n]);
    OneDigitPrints(words[n + 1]);
    assert words == words[..n] + [words[n], words[n + 1]];
    JoinTwoMore(words[..n], words[n], words[n + 1]);
  }

  lemma OneDigitPrints(w: string)
    requires Atoi(w).Some? && (HasDigits(w) ==> |w| == 1)
    ensures Atoi(w).value >= 0 && Itoa(Atoi(w).value) == w
  {
    assert w != "" && IsDigit(w[|w| - 1]);
    assert w == [w[0]];
    ReadFromOne(0, w[0]);
  }

  lemma {:induction false} CanonicalIdentities(names: seq<string>, x: Pilot)
    requires Canonical(names)
    ensures Identities(names)[x] == CountIdentity(names, x)
  {
    if names != [] {
      var n := |names| - 1;
      assert names == names[..n] + [names[n]];
      assert names[n] in names && forall name :: name in names[..n] ==> name in names;
      CanonicalIdentities(names[..n], x);
      CountIdentityStep(names[..n], names[n], x);
    }
  }

  function CountIdentity(names: seq<string>, x: Pilot): nat {
    match x
    case Strict(c) => if Parse(c.Print()) == Some(c) then multiset(names)[c.Print()] else 0
    case Other(_) => CountLoose(names, x)
  }

  lemma CountIdentityStep(names: seq<string>, name: string, x: Pilot)
    requires Parse(name).Some? ==> Parse(name).value.Print() == name
    ensures CountIdentity(names + [name], x) == CountIdentity(names, x) + Once(Identity(name) == x)
  {
    CountLooseStep(names, name, x);
  }

  // With canonical names and no repeats, a collated call is heard as its
  // receivers, every one of them exactly once and nobody else.
  lemma CollationPreservesMeaning(receivers: seq<string>, everyone: seq<string>, word: Option<string>)
    requires Canonical(receivers) && Distinct(receivers)
    requires forall r :: r in receivers ==> r in everyone
    ensures Heard(Collated(receivers, everyone), word, Roster(everyone)) == Identities(receivers)
  {
    if |receivers| <= 1 {
      ShortListIsHeardAs(receivers, everyone, word);
    } else {
      forall x ensures Heard(Collated(receivers, everyone), word, Roster(everyone))[x] == Identities(receivers)[x] {
        CollationIsHeardAs(receivers, everyone, word, x);
        CanonicalIdentities(receivers, x);
        if x.Strict? {
          StrictReceiversCountOnce(receivers, everyone, x.callsign);
        }
      }
    }
  }

  lemma StrictReceiversCountOnce(receivers: seq<string>, everyone: seq<string>, c: StrictCallsign)
    requires Canonical(receivers) && Distinct(receivers)
    requires forall r :: r in receivers ==> r in everyone
    ensures Once(c in Roster(everyone) && c.Print() in receivers)
         == if Parse(c.Print()) == Some(c) then multiset(receivers)[c.Print()] else 0
  {
    DistinctCount(receivers, c.Print());
    if c in Roster(everyone) {
      RosterReadsBack(everyone, c);
    }
  }

  lemma {:induction false} DistinctCount(names: seq<string>, name: string)
    requires Distinct(names)
    ensures multiset(names)[name] == Once(name in names)
  {
    if names != [] {
      var n := |names| - 1;
      DistinctCount(names[..n], name);
      assert names == names[..n] + [names[n]];
      assert multiset(names) == multiset(names[..n]) + multiset{names[n]};
    }
  }

  // ---- The spoken text ----------------------------------------------------------------------

  ghost predicate IsCodeword(w: string, ws: seq<string>) {
    ws != [] && AllWords(ws) && Join(ws) == w
  }

  ghost predicate Speakable(e: Entry) {
    match e
    case FlightCall(w, _) => exists ws :: IsCodeword(w, ws)
    case Full(c) => exists ws :: IsCodeword(c.codeword, ws)
    case Short(_, _) => true
    case Loose(_) => false
  }

  // The words of a flight, element or short call: codeword, flight, and either
  // a position or the word "flight".
  lemma SpokenWords(e: Entry) returns (ws: seq<string>, f: nat, last: string)
    requires Speakable(e)
    ensures Fields(Render(e)) == ws + [Itoa(f), last]
    ensures AllWords(ws) && match e
      case FlightCall(w, g) => IsCodeword(w, ws) && f == g && last == "flight"
      case Full(c) => IsCodeword(c.codeword, ws) && f == c.flight && last == Itoa(c.position)
      case Short(g, p) => ws == [] && f == g && last == Itoa(p)
      case Loose(_) => false
  {
    match e
    case FlightCall(w, g) =>
      ws := PickCodeword(w);
      f, last := g, "flight";
      TwoMoreWords(ws, Itoa(f), last);
      assert Render(e) == w + " " + Itoa(g) + " " + "flight";
    case Full(c) =>
      ws := PickCodeword(c.codeword);
      f, last := c.flight, Itoa(c.position);
      TwoMoreWords(ws, Itoa(f), last);
    case Short(g, p) =>
      ws, f, last := [], g, Itoa(p);
      FieldsOfWordThenRest(Itoa(g), last);
      FieldsOfWordThenRest(last, "");
  }

  lemma PickCodeword(w: string) returns (ws: seq<string>)
    requires exists ws :: IsCodeword(w, ws)
    ensures IsCodeword(w, ws)
  {
    ws :| IsCodeword(w, ws);
  }

  lemma TwoMoreWords(ws: seq<string>, a: string, b: string)
    requires ws != [] && AllWords(ws) && IsWord(a) && IsWord(b)
    ensures Fields(Join(ws) + " " + a + " " + b) == ws + [a, b]
  {
    FieldsOfJoin(ws + [a, b]);
    JoinTwoMore(ws, a, b);
  }

  lemma JoinTwoMore(ws: seq<string>, a: string, b: string)
    requires ws != []
    ensures Join(ws + [a, b]) == Join(ws) + " " + a + " " + b
  {
    assert [a, b][1..] == [b];
    assert Join([a, b]) == a + " " + b;
    JoinAppends(ws, [a, b]);
    assert Join(ws) + " " + a + " " + b == Join(ws) + " " + (a + " " + b);
  }

  // Flight, element and short calls never sound alike.
  lemma SpokenFormsAreDistinct(d: Entry, e: Entry)
    requires Speakable(d) && Speakable(e) && Render(d) == Render(e)
    ensures d == e
  {
    var ws, f, last := SpokenWords(d);
    var vs, g, final := SpokenWords(e);
    SameEnding(ws, Itoa(f), last, vs, Itoa(g), final);
    ReadItoa(f);
    ReadItoa(g);
    NumbersAreNotFlight(d);
    NumbersAreNotFlight(e);
  }

  lemma SameEnding(ws: seq<string>, a: string, b: string, vs: seq<string>, c: string, d: string)
    requires ws + [a, b] == vs + [c, d]
    ensures ws == vs && a == c && b == d
  {
    var s := ws + [a, b];
    assert |ws| == |vs|;
    assert s[..|ws|] == ws && s[..|ws|] == vs;
    assert s[|ws|] == a && s[|ws| + 1] == b && s[|ws|] == c && s[|ws| + 1] == d;
  }

  // A position never reads "flight", and it reads back as itself.
  lemma NumbersAreNotFlight(e: Entry)
    ensures match e
      case Full(c) => Itoa(c.position) != "flight" && ReadDigits(Itoa(c.position)) == c.position
      case Short(_, p) => Itoa(p) != "flight" && ReadDigits(Itoa(p)) == p
      case _ => true
  {
    assert !IsDigit("flight"[0]);
    match e
    case Full(c) => ReadItoa(c.position);
    case Short(_, p) => ReadItoa(p);
    case _ =>
  }

  // But a receiver may be called like a short form, so text alone is ambiguous:
  // two calls of the same words that are heard differently.
  lemma LooseNamesMaySoundShort(c: StrictCallsign, f: nat, p: nat, word: Option<string>, roster: set<StrictCallsign>)
    returns (name: string)
    ensures Parse(name).None? && Render(Loose(name)) == Render(Short(f, p))
    ensures Heard([Full(c), Short(f, p)], word, roster) != Heard([Full(c), Loose(name)], word, roster)
  {
    name := Render(Short(f, p));
    FieldsOfWordThenRest(Itoa(f), Itoa(p));
    FieldsOfWordThenRest(Itoa(p), "");
    assert Fields(name) == [Itoa(f), Itoa(p)];
    HeardAfterFull(c, Short(f, p), word, roster);
    HeardAfterFull(c, Loose(name), word, roster);
    assert Other(name) in Heard([Full(c), Loose(name)], word, roster);
    assert Other(name) !in Heard([Full(c), Short(f, p)], word, roster);
  }

  lemma HeardAfterFull(c: StrictCallsign, e: Entry, word: Option<string>, roster: set<StrictCallsign>)
    ensures Heard([Full(c), e], word, roster) == multiset{Strict(c)} + HeardOne(e, Some(c.codeword), roster)
  {
    assert [Full(c), e][..1] == [Full(c)] && [Full(c)][..0] == [];
    assert Heard([], word, roster) == multiset{};
    assert Heard([Full(c)], word, roster) == multiset{Strict(c)} && WordAfter([Full(c)], word) == Some(c.codeword);
  }
}
