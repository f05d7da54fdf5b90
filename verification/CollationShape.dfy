/**
 What a collated call looks like: which flights are called as one, which
 receivers are called in full and which in short, and in what order.
 */
module CollationShape {
  import opened Basics
  import opened Sorting
  import opened Callsigns
  import opened Collation
  import opened CollationMeaning

  // What an entry refers to, once short forms have borrowed their codeword.
  datatype Key =
    | Flight(codeword: string, flight: nat)
    | Member(codeword: string, flight: nat, position: nat)
    | Name(name: string)

  function KeyOf(e: Entry, word: Option<string>): Key {
    match e
    case FlightCall(w, f) => Flight(w, f)
    case Full(c) => Member(c.codeword, c.flight, c.position)
    case Short(f, p) => Member(if word.Some? then word.value else "", f, p)
    case Loose(name) => Name(name)
  }

  function Keys(es: seq<Entry>, word: Option<string>): (ks: seq<Key>)
    ensures |ks| == |es|
  {
    if es == [] then []
    else
      var init := es[..|es| - 1];
      Keys(init, word) + [KeyOf(es[|es| - 1], WordAfter(init, word))]
  }

  lemma {:induction false} KeysAppend(a: seq<Entry>, b: seq<Entry>, word: Option<string>)
    ensures Keys(a + b, word) == Keys(a, word) + Keys(b, WordAfter(a, word))
  {
    if b == [] {
      assert a + b == a;
    } else {
      assert (a + b)[..|a + b| - 1] == a + b[..|b| - 1];
      KeysAppend(a, b[..|b| - 1], word);
      WordAfterAppend(a, b[..|b| - 1], word);
    }
  }

  // ---- Order and form ---------------------------------------------------------------------

  predicate SameFlight(a: Key, b: Key) {
    a.Member? && b.Member? && a.codeword == b.codeword && a.flight == b.flight
  }

  // By codeword, flight and position, each at most once; loose names last.
  predicate Below(a: Key, b: Key) {
    if b.Name? then (a.Name? ==> Lexicographic(a.name, b.name))
    else if a.Name? then false
    else if a.codeword != b.codeword then Precedes(a.codeword, b.codeword)
    else if a.flight != b.flight then a.flight < b.flight
    else a.Member? && b.Member? && a.position < b.position
  }

  predicate Precedes(v: string, w: string) {
    v != w && Lexicographic(v, w)
  }

  predicate Increasing(ks: seq<Key>) {
    forall i, j :: 0 <= i < j < |ks| ==> Below(ks[i], ks[j])
  }

  // A member is called in short directly behind another of its flight, and in
  // full otherwise.
  predicate WellFormed(es: seq<Entry>, ks: seq<Key>)
    requires |es| == |ks|
  {
    forall i :: 0 <= i < |es| ==>
      (es[i].Short? <==> Continues(ks, i)) && (es[i].Full? <==> ks[i].Member? && !Continues(ks, i))
  }

  predicate Continues(ks: seq<Key>, i: int)
    requires 0 <= i < |ks|
  {
    i > 0 && SameFlight(ks[i - 1], ks[i])
  }

  predicate WellShaped(es: seq<Entry>, word: Option<string>) {
    Increasing(Keys(es, word)) && WellFormed(es, Keys(es, word))
  }

  predicate Apart(ks: seq<Key>, ls: seq<Key>) {
    forall k, l :: k in ks && l in ls ==> Below(k, l) && !SameFlight(k, l)
  }

  // Blocks in order, with no flight in both.
  lemma ShapedAppend(a: seq<Entry>, b: seq<Entry>, word: Option<string>)
    requires WellShaped(a, word) && WellShaped(b, WordAfter(a, word))
    requires Apart(Keys(a, word), Keys(b, WordAfter(a, word)))
    ensures WellShaped(a + b, word)
  {
    KeysAppend(a, b, word);
    BlocksIncrease(Keys(a, word), Keys(b, WordAfter(a, word)));
    BlocksWellFormed(a, b, Keys(a, word), Keys(b, WordAfter(a, word)));
  }

  lemma BlocksIncrease(ks: seq<Key>, ls: seq<Key>)
    requires Increasing(ks) && Increasing(ls) && forall k, l :: k in ks && l in ls ==> Below(k, l)
    ensures Increasing(ks + ls)
  {
    var all := ks + ls;
    forall i, j | 0 <= i < j < |all| ensures Below(all[i], all[j]) {
      if i >= |ks| {
        assert all[i] == ls[i - |ks|] && all[j] == ls[j - |ks|];
      } else if j >= |ks| {
        assert all[i] in ks && all[j] in ls;
      }
    }
  }

  lemma BlocksWellFormed(a: seq<Entry>, b: seq<Entry>, ks: seq<Key>, ls: seq<Key>)
    requires |a| == |ks| && |b| == |ls| && WellFormed(a, ks) && WellFormed(b, ls)
    requires forall k, l :: k in ks && l in ls ==> !SameFlight(k, l)
    ensures WellFormed(a + b, ks + ls)
  {
    var es, all := a + b, ks + ls;
    forall i | 0 <= i < |es|
      ensures es[i].Short? <==> Continues(all, i)
      ensures es[i].Full? <==> all[i].Member? && !Continues(all, i)
    {
      if i < |a| {
        assert es[i] == a[i] && Continues(all, i) == Continues(ks, i);
      } else {
        assert es[i] == b[i - |a|];
        if i == |a| > 0 {
          assert all[i - 1] in ks && all[i] in ls;
        }
        assert Continues(all, i) == Continues(ls, i - |a|);
      }
    }
  }

  // ---- One flight ----------------------------------------------------------------------------

  // The flight is called as one: several positions, all of them receivers.
  predicate IsEntire(positions: Positions) {
    |positions| > 1 && forall p :: p in positions ==> positions[p]
  }

  predicate IsReceiving(positions: Positions, p: int) {
    p in positions && positions[p]
  }

  lemma OneEntryMore(es: seq<Entry>, e: Entry, word: Option<string>)
    ensures Keys(es + [e], word) == Keys(es, word) + [KeyOf(e, WordAfter(es, word))]
    ensures WordAfter(es + [e], word) == if e.Full? then Some(e.callsign.codeword) else WordAfter(es, word)
  {
    assert (es + [e])[..|es|] == es;
  }

  lemma OneKeyMore(es: seq<Entry>, e: Entry, ks: seq<Key>, k: Key)
    requires |es| == |ks| && Increasing(ks) && WellFormed(es, ks) && forall l :: l in ks ==> Below(l, k)
    requires (e.Short? <==> ks != [] && SameFlight(ks[|ks| - 1], k))
    requires (e.Full? <==> k.Member? && !(ks != [] && SameFlight(ks[|ks| - 1], k)))
    ensures Increasing(ks + [k]) && WellFormed(es + [e], ks + [k])
  {
    var more, all := es + [e], ks + [k];
    BlocksIncrease(ks, [k]);
    forall i | 0 <= i < |more|
      ensures more[i].Short? <==> Continues(all, i)
      ensures more[i].Full? <==> all[i].Member? && !Continues(all, i)
    {
      if i < |es| {
        assert more[i] == es[i] && Continues(all, i) == Continues(ks, i);
      }
    }
  }

  lemma PositionKeysStep(w: string, f: nat, p: nat, es: seq<Entry>, word: Option<string>)
    requires WellShaped(es, word) && (es != [] ==> WordAfter(es, word) == Some(w))
    requires forall k :: k in Keys(es, word) ==> k.Member? && k.codeword == w && k.flight == f && k.position < p
    ensures var more := es + [if es == [] then Full(StrictCallsign(w, f, p)) else Short(f, p)];
      && WellShaped(more, word) && Keys(more, word) == Keys(es, word) + [Member(w, f, p)]
      && WordAfter(more, word) == Some(w)
  {
    var e := if es == [] then Full(StrictCallsign(w, f, p)) else Short(f, p);
    var ks := Keys(es, word);
    OneEntryMore(es, e, word);
    assert ks != [] ==> ks[|ks| - 1] in ks;
    OneKeyMore(es, e, ks, Member(w, f, p));
  }

  predicate IsPositionKey(k: Key, w: string, f: nat, positions: Positions, ps: seq<int>)
    requires forall p :: p in ps ==> p in positions
  {
    k.Member? && k.codeword == w && k.flight == f && k.position in ps && positions[k.position]
  }

  // What the keys of the entries are, key by key.
  lemma {:induction false} PositionKeys(w: string, f: nat, positions: Positions, ps: seq<int>, word: Option<string>, k: Key)
    requires ValidPositions(positions) && forall p :: p in ps ==> p in positions
    ensures var es := PositionEntries(w, f, positions, ps);
      && (es != [] ==> WordAfter(es, word) == Some(w))
      && (k in Keys(es, word) <==> IsPositionKey(k, w, f, positions, ps))
  {
    if ps == [] {
      assert Keys([], word) == [];
    } else {
      var n := |ps| - 1;
      var init, p := PositionEntries(w, f, positions, ps[..n]), ps[n];
      LastPosition(k, w, f, positions, ps);
      PositionKeys(w, f, positions, ps[..n], word, k);
      if positions[p] {
        OneMemberMore(w, f, p, init, word, k);
      }
    }
  }

  lemma LastPosition(k: Key, w: string, f: nat, positions: Positions, ps: seq<int>)
    requires ps != [] && forall p :: p in ps ==> p in positions
    ensures ps[|ps| - 1] in ps && forall p :: p in ps[..|ps| - 1] ==> p in positions
    ensures IsPositionKey(k, w, f, positions, ps) <==>
      IsPositionKey(k, w, f, positions, ps[..|ps| - 1])
      || (k.Member? && k.codeword == w && k.flight == f && k.position == ps[|ps| - 1] && positions[k.position])
  {
    assert ps == ps[..|ps| - 1] + [ps[|ps| - 1]];
  }

  lemma OneMemberMore(w: string, f: nat, p: nat, es: seq<Entry>, word: Option<string>, k: Key)
    requires es != [] ==> WordAfter(es, word) == Some(w)
    ensures var more := es + [if es == [] then Full(StrictCallsign(w, f, p)) else Short(f, p)];
      WordAfter(more, word) == Some(w) && (k in Keys(more, word) <==> k in Keys(es, word) || k == Member(w, f, p))
  {
    OneEntryMore(es, if es == [] then Full(StrictCallsign(w, f, p)) else Short(f, p), word);
  }

  lemma {:induction false} PositionsShaped(w: string, f: nat, positions: Positions, ps: seq<int>, word: Option<string>)
    requires ValidPositions(positions) && forall p :: p in ps ==> p in positions
    requires forall i, j :: 0 <= i < j < |ps| ==> ps[i] < ps[j]
    ensures WellShaped(PositionEntries(w, f, positions, ps), word)
  {
    if ps != [] {
      var n := |ps| - 1;
      var init, p := PositionEntries(w, f, positions, ps[..n]), ps[n];
      assert p in ps;
      PositionsShaped(w, f, positions, ps[..n], word);
      if positions[p] {
        PositionsBefore(w, f, positions, ps[..n], p, word);
        PositionKeysStep(w, f, p, init, word);
      }
    }
  }

  lemma PositionsBefore(w: string, f: nat, positions: Positions, ps: seq<int>, p: int, word: Option<string>)
    requires ValidPositions(positions) && forall q :: q in ps ==> q in positions && q < p
    ensures var es := PositionEntries(w, f, positions, ps);
      && (es != [] ==> WordAfter(es, word) == Some(w))
      && forall k :: k in Keys(es, word) ==> k.Member? && k.codeword == w && k.flight == f && k.position < p
  {
    var es := PositionEntries(w, f, positions, ps);
    PositionKeys(w, f, positions, ps, word, Name(""));
    forall k | k in Keys(es, word) ensures k.Member? && k.codeword == w && k.flight == f && k.position < p {
      PositionKeys(w, f, positions, ps, word, k);
    }
  }

  // The keys of a flight.
  predicate IsKeyOf(k: Key, positions: Positions) {
    match k
    case Flight(_, _) => IsEntire(positions)
    case Member(_, _, p) => !IsEntire(positions) && IsReceiving(positions, p)
    case Name(_) => false
  }

  predicate IsFlightKey(k: Key, w: string, f: nat, positions: Positions) {
    !k.Name? && k.codeword == w && k.flight == f && IsKeyOf(k, positions)
  }

  lemma FlightKeys(w: string, f: nat, positions: Positions, word: Option<string>, k: Key)
    requires ValidPositions(positions)
    ensures k in Keys(FlightEntries(w, f, positions), word) <==> IsFlightKey(k, w, f, positions)
  {
    if IsEntire(positions) {
      OneFlightCall(w, f, word);
    } else {
      PartialKeys(w, f, positions, word, k);
    }
  }

  lemma OneFlightCall(w: string, f: nat, word: Option<string>)
    ensures Keys([FlightCall(w, f)], word) == [Flight(w, f)]
  {
    OneEntryMore([], FlightCall(w, f), word);
    assert [] + [FlightCall(w, f)] == [FlightCall(w, f)];
  }

  lemma PartialKeys(w: string, f: nat, positions: Positions, word: Option<string>, k: Key)
    requires ValidPositions(positions) && !IsEntire(positions)
    ensures k in Keys(PositionEntries(w, f, positions, IntKeys(positions.Keys)), word) <==> IsFlightKey(k, w, f, positions)
  {
    PositionKeys(w, f, positions, IntKeys(positions.Keys), word, k);
  }

  lemma FlightShaped(w: string, f: nat, positions: Positions, word: Option<string>)
    requires ValidPositions(positions)
    ensures WellShaped(FlightEntries(w, f, positions), word)
  {
    if IsEntire(positions) {
      assert FlightEntries(w, f, positions) == [FlightCall(w, f)];
      assert WellShaped([FlightCall(w, f)], word);
    } else {
      PositionsShaped(w, f, positions, IntKeys(positions.Keys), word);
    }
  }

  // ---- All flights -------------------------------------------------------------------------

  predicate IsKeyAmong(k: Key, w: string, flights: Flights, fs: seq<int>)
    requires forall f :: f in fs ==> f in flights
  {
    !k.Name? && k.codeword == w && k.flight in fs && IsKeyOf(k, flights[k.flight])
  }

  lemma {:induction false} FlightsKeys(w: string, flights: Flights, fs: seq<int>, word: Option<string>, k: Key)
    requires ValidFlights(flights) && forall f :: f in fs ==> f in flights
    ensures k in Keys(FlightsEntries(w, flights, fs), word) <==> IsKeyAmong(k, w, flights, fs)
  {
    if fs != [] {
      var n := |fs| - 1;
      var before := FlightsEntries(w, flights, fs[..n]);
      assert fs == fs[..n] + [fs[n]] && fs[n] in fs;
      FlightsKeys(w, flights, fs[..n], word, k);
      FlightKeys(w, fs[n], flights[fs[n]], WordAfter(before, word), k);
      KeysAppend(before, FlightEntries(w, fs[n], flights[fs[n]]), word);
    }
  }

  lemma FlightsApart(w: string, flights: Flights, fs: seq<int>, f: int, word: Option<string>)
    requires ValidFlights(flights) && f in flights && forall g :: g in fs ==> g in flights && g < f
    ensures var before := FlightsEntries(w, flights, fs);
      Apart(Keys(before, word), Keys(FlightEntries(w, f, flights[f]), WordAfter(before, word)))
  {
    var before := FlightsEntries(w, flights, fs);
    var ks, ls := Keys(before, word), Keys(FlightEntries(w, f, flights[f]), WordAfter(before, word));
    forall k, l | k in ks && l in ls ensures Below(k, l) && !SameFlight(k, l) {
      FlightsKeys(w, flights, fs, word, k);
      FlightKeys(w, f, flights[f], WordAfter(before, word), l);
    }
  }

  lemma {:induction false} FlightsShaped(w: string, flights: Flights, fs: seq<int>, word: Option<string>)
    requires ValidFlights(flights) && forall f :: f in fs ==> f in flights
    requires forall i, j :: 0 <= i < j < |fs| ==> fs[i] < fs[j]
    ensures WellShaped(FlightsEntries(w, flights, fs), word)
  {
    if fs != [] {
      var n := |fs| - 1;
      var before := FlightsEntries(w, flights, fs[..n]);
      assert fs[n] in fs;
      FlightsShaped(w, flights, fs[..n], word);
      FlightsApart(w, flights, fs[..n], fs[n], word);
      FlightShaped(w, fs[n], flights[fs[n]], WordAfter(before, word));
      ShapedAppend(before, FlightEntries(w, fs[n], flights[fs[n]]), word);
    }
  }

  predicate IsKeyIn(k: Key, t: Trie, ws: seq<string>)
    requires forall w :: w in ws ==> w in t
  {
    !k.Name? && k.codeword in ws && k.flight in t[k.codeword] && IsKeyOf(k, t[k.codeword][k.flight])
  }

  // The keys of the flights of one codeword.
  predicate IsCodewordKey(k: Key, t: Trie, w: string)
    requires w in t
  {
    !k.Name? && k.codeword == w && k.flight in t[w] && IsKeyOf(k, t[w][k.flight])
  }

  lemma CodewordKeys(t: Trie, w: string, word: Option<string>, k: Key)
    requires ValidTrie(t) && w in t
    ensures k in Keys(CodewordEntries(w, t[w]), word) <==> IsCodewordKey(k, t, w)
  {
    FlightsKeys(w, t[w], IntKeys(t[w].Keys), word, k);
  }

  predicate AllPrecede(ws: seq<string>, w: string) {
    forall v :: v in ws ==> Precedes(v, w)
  }

  lemma StillAlphabetic(ws: seq<string>)
    requires ws != [] && Alphabetic(ws)
    ensures Alphabetic(ws[..|ws| - 1]) && AllPrecede(ws[..|ws| - 1], ws[|ws| - 1])
  {
    assert ws == ws[..|ws| - 1] + [ws[|ws| - 1]];
    AlphabeticFront(ws[..|ws| - 1], ws[|ws| - 1]);
  }

  predicate Alphabetic(ws: seq<string>) {
    forall i, j :: 0 <= i < j < |ws| ==> Precedes(ws[i], ws[j])
  }

  lemma AlphabeticFront(ws: seq<string>, w: string)
    requires Alphabetic(ws + [w])
    ensures Alphabetic(ws) && AllPrecede(ws, w)
  {
    var all := ws + [w];
    forall i, j | 0 <= i < j < |ws| ensures Precedes(ws[i], ws[j]) {
      assert Precedes(all[i], all[j]);
    }
    forall i | 0 <= i < |ws| ensures Precedes(ws[i], w) {
      assert Precedes(all[i], all[|ws|]);
    }
  }

  lemma CodewordShaped(t: Trie, w: string, word: Option<string>)
    requires ValidTrie(t) && w in t
    ensures WellShaped(CodewordEntries(w, t[w]), word)
  {
    FlightsShaped(w, t[w], IntKeys(t[w].Keys), word);
  }

  lemma KeysOfBoth(es: seq<Entry>, before: seq<Entry>, block: seq<Entry>, word: Option<string>, k: Key)
    requires es == before + block
    ensures k in Keys(es, word) <==> k in Keys(before, word) || k in Keys(block, WordAfter(before, word))
  {
    KeysAppend(before, block, word);
  }

  lemma OneCodewordMore(t: Trie, ws: seq<string>, w: string, word: Option<string>, k: Key)
    requires ValidTrie(t) && w in t && forall v :: v in ws ==> v in t
    ensures var before := CodewordsEntries(t, ws);
      k in Keys(before + CodewordEntries(w, t[w]), word) <==> k in Keys(before, word) || IsCodewordKey(k, t, w)
  {
    var before := CodewordsEntries(t, ws);
    KeysOfBoth(before + CodewordEntries(w, t[w]), before, CodewordEntries(w, t[w]), word, k);
    CodewordKeys(t, w, WordAfter(before, word), k);
  }

  lemma IsKeyInFront(k: Key, t: Trie, ws: seq<string>)
    requires ws != [] && ws[|ws| - 1] in t && (forall v :: v in ws ==> v in t) && forall v :: v in ws[..|ws| - 1] ==> v in t
    ensures IsKeyIn(k, t, ws) <==> IsKeyIn(k, t, ws[..|ws| - 1]) || IsCodewordKey(k, t, ws[|ws| - 1])
  {
    assert ws == ws[..|ws| - 1] + [ws[|ws| - 1]];
  }

  lemma {:induction false} CodewordsKeys(t: Trie, ws: seq<string>, word: Option<string>, k: Key)
    requires ValidTrie(t) && forall w :: w in ws ==> w in t
    ensures k in Keys(CodewordsEntries(t, ws), word) <==> IsKeyIn(k, t, ws)
  {
    if ws == [] {
      assert Keys([], word) == [];
    } else {
      var n := |ws| - 1;
      CodewordsEntriesStep(t, ws);
      CodewordsKeys(t, ws[..n], word, k);
      OneCodewordMore(t, ws[..n], ws[n], word, k);
      IsKeyInFront(k, t, ws);
    }
  }

  lemma CodewordsApart(t: Trie, ws: seq<string>, w: string, word: Option<string>)
    requires ValidTrie(t) && w in t && (forall v :: v in ws ==> v in t) && AllPrecede(ws, w)
    ensures var before := CodewordsEntries(t, ws);
      Apart(Keys(before, word), Keys(CodewordEntries(w, t[w]), WordAfter(before, word)))
  {
    var before := CodewordsEntries(t, ws);
    var ks, ls := Keys(before, word), Keys(CodewordEntries(w, t[w]), WordAfter(before, word));
    forall k, l | k in ks && l in ls ensures Below(k, l) && !SameFlight(k, l) {
      CodewordsKeys(t, ws, word, k);
      CodewordKeys(t, w, WordAfter(before, word), l);
    }
  }

  lemma OneCodewordShaped(t: Trie, ws: seq<string>, w: string, word: Option<string>)
    requires ValidTrie(t) && w in t && (forall v :: v in ws ==> v in t) && AllPrecede(ws, w)
    requires WellShaped(CodewordsEntries(t, ws), word)
    ensures WellShaped(CodewordsEntries(t, ws) + CodewordEntries(w, t[w]), word)
  {
    var before := CodewordsEntries(t, ws);
    CodewordsApart(t, ws, w, word);
    CodewordShaped(t, w, WordAfter(before, word));
    ShapedAppend(before, CodewordEntries(w, t[w]), word);
  }

  lemma LastCodewordShaped(t: Trie, ws: seq<string>, word: Option<string>)
    requires ws != [] && ValidTrie(t) && (forall w :: w in ws ==> w in t) && Alphabetic(ws)
    requires forall w :: w in ws[..|ws| - 1] ==> w in t
    requires WellShaped(CodewordsEntries(t, ws[..|ws| - 1]), word)
    ensures WellShaped(CodewordsEntries(t, ws), word)
  {
    CodewordsEntriesStep(t, ws);
    StillAlphabetic(ws);
    OneCodewordShaped(t, ws[..|ws| - 1], ws[|ws| - 1], word);
  }

  lemma {:induction false} CodewordsShaped(t: Trie, ws: seq<string>, word: Option<string>)
    requires ValidTrie(t) && (forall w :: w in ws ==> w in t) && Alphabetic(ws)
    ensures WellShaped(CodewordsEntries(t, ws), word)
  {
    if ws != [] {
      StillAlphabetic(ws);
      CodewordsShaped(t, ws[..|ws| - 1], word);
      LastCodewordShaped(t, ws, word);
    }
  }

  // ---- Loose names ---------------------------------------------------------------------------

  lemma OrderedFront(names: seq<string>, last: string)
    requires Ordered(names + [last], BY_STRING)
    ensures Ordered(names, BY_STRING) && forall m :: m in names ==> Lexicographic(m, last)
  {
    var all := names + [last];
    forall i, j | 0 <= i <= j < |names| ensures BY_STRING(names[i], names[j]) {
      assert BY_STRING(all[i], all[j]);
    }
    forall i | 0 <= i < |names| ensures Lexicographic(names[i], last) {
      assert BY_STRING(all[i], all[|names|]);
    }
  }

  predicate IsLooseKey(k: Key, names: seq<string>) {
    k.Name? && k.name in names && Parse(k.name).None?
  }

  lemma LastName(k: Key, names: seq<string>)
    requires names != []
    ensures IsLooseKey(k, names) <==>
      IsLooseKey(k, names[..|names| - 1]) || (k == Name(names[|names| - 1]) && Parse(names[|names| - 1]).None?)
  {
    assert names == names[..|names| - 1] + [names[|names| - 1]];
  }

  lemma {:induction false} LooseKeys(names: seq<string>, word: Option<string>, k: Key)
    ensures k in Keys(LooseEntries(names), word) <==> IsLooseKey(k, names)
  {
    if names == [] {
      assert Keys([], word) == [];
    } else {
      var n := |names| - 1;
      LastName(k, names);
      LooseKeys(names[..n], word, k);
      OneEntryMore(LooseEntries(names[..n]), Loose(names[n]), word);
    }
  }

  lemma LooseApart(names: seq<string>, last: string, word: Option<string>)
    requires Ordered(names + [last], BY_STRING)
    ensures forall k :: k in Keys(LooseEntries(names), word) ==> Below(k, Name(last))
  {
    OrderedFront(names, last);
    forall k | k in Keys(LooseEntries(names), word) ensures Below(k, Name(last)) {
      LooseKeys(names, word, k);
    }
  }

  lemma {:induction false} LooseShaped(names: seq<string>, word: Option<string>)
    requires Ordered(names, BY_STRING)
    ensures WellShaped(LooseEntries(names), word)
  {
    if names != [] {
      var n := |names| - 1;
      var before, last := LooseEntries(names[..n]), names[n];
      assert names == names[..n] + [last];
      OrderedFront(names[..n], last);
      LooseShaped(names[..n], word);
      if Parse(last).None? {
        LooseApart(names[..n], last, word);
        OneEntryMore(before, Loose(last), word);
        OneKeyMore(before, Loose(last), Keys(before, word), Name(last));
      }
    }
  }

  // ---- The whole call ------------------------------------------------------------------------

  predicate IsOf(c: StrictCallsign, w: string, f: nat) {
    c.codeword == w && c.flight == f
  }

  predicate Receives(c: StrictCallsign, receivers: seq<string>) {
    c.Print() in receivers
  }

  // At least two rostered callsigns are of the flight, and all of them receive.
  ghost predicate IsWholeFlight(w: string, f: nat, receivers: seq<string>, everyone: seq<string>) {
    && (exists c, d :: c in Roster(everyone) && d in Roster(everyone) && c != d && IsOf(c, w, f) && IsOf(d, w, f))
    && (forall c :: c in Roster(everyone) && IsOf(c, w, f) ==> Receives(c, receivers))
  }

  // The trie against the roster.
  ghost predicate Holds(t: Trie, receivers: seq<string>, everyone: seq<string>) {
    && (forall c :: InTrie(t, c) <==> c in Roster(everyone))
    && (forall c :: Marked(t, c) <==> c in Roster(everyone) && Receives(c, receivers))
  }

  lemma WholeIsEntire(t: Trie, receivers: seq<string>, everyone: seq<string>, w: string, f: nat)
    requires ValidTrie(t) && Holds(t, receivers, everyone) && IsWholeFlight(w, f, receivers, everyone)
    ensures w in t && f in t[w] && IsEntire(t[w][f])
  {
    var c, d :| c in Roster(everyone) && d in Roster(everyone) && c != d && IsOf(c, w, f) && IsOf(d, w, f);
    assert InTrie(t, c) && InTrie(t, d);
    TwoKeys(t[w][f], c.position, d.position);
    forall p | p in t[w][f] ensures t[w][f][p] {
      MemberIsMarked(t, receivers, everyone, StrictCallsign(w, f, p));
    }
  }

  lemma MemberIsMarked(t: Trie, receivers: seq<string>, everyone: seq<string>, c: StrictCallsign)
    requires Holds(t, receivers, everyone) && InTrie(t, c) && IsWholeFlight(c.codeword, c.flight, receivers, everyone)
    ensures Marked(t, c)
  {
    assert c in Roster(everyone) && IsOf(c, c.codeword, c.flight);
    assert Receives(c, receivers);
  }

  lemma EntireIsWhole(t: Trie, receivers: seq<string>, everyone: seq<string>, w: string, f: nat)
    requires ValidTrie(t) && Holds(t, receivers, everyone)
    requires w in t && f in t[w] && IsEntire(t[w][f])
    ensures IsWholeFlight(w, f, receivers, everyone)
  {
    var p, q := PickTwo(t[w][f]);
    var c, d := StrictCallsign(w, f, p), StrictCallsign(w, f, q);
    assert InTrie(t, c) && InTrie(t, d) && IsOf(c, w, f) && IsOf(d, w, f);
    forall e | e in Roster(everyone) && IsOf(e, w, f) ensures Receives(e, receivers) {
      assert InTrie(t, e);
      assert Marked(t, e);
    }
  }

  lemma TwoKeys(m: Positions, p: int, q: int)
    requires p in m && q in m && p != q
    ensures |m| > 1
  {
    assert {p, q} <= m.Keys;
    assert |m.Keys - {p}| == |m| - 1 && q in m.Keys - {p};
  }

  lemma PickTwo(m: Positions) returns (p: int, q: int)
    requires |m| > 1
    ensures p in m && q in m && p != q
  {
    var ks := IntKeys(m.Keys);
    p, q := ks[0], ks[1];
    assert p in ks && q in ks;
  }

  // What the keys of a call are.
  ghost predicate IsKeyOfCall(k: Key, receivers: seq<string>, everyone: seq<string>) {
    match k
    case Flight(w, f) => IsWholeFlight(w, f, receivers, everyone)
    case Member(w, f, p) =>
      && StrictCallsign(w, f, p) in Roster(everyone) && Receives(StrictCallsign(w, f, p), receivers)
      && !IsWholeFlight(w, f, receivers, everyone)
    case Name(name) => name in receivers && Parse(name).None?
  }

  lemma WalkKeys(t: Trie, receivers: seq<string>, everyone: seq<string>, word: Option<string>, k: Key)
    requires ValidTrie(t) && Holds(t, receivers, everyone)
    ensures k in Keys(Walk(t), word) <==> !k.Name? && IsKeyOfCall(k, receivers, everyone)
  {
    CodewordsKeys(t, StringKeys(t.Keys), word, k);
    if !k.Name? {
      if IsWholeFlight(k.codeword, k.flight, receivers, everyone) {
        WholeIsEntire(t, receivers, everyone, k.codeword, k.flight);
      } else if k.codeword in t && k.flight in t[k.codeword] && IsEntire(t[k.codeword][k.flight]) {
        EntireIsWhole(t, receivers, everyone, k.codeword, k.flight);
      }
      if k.Member? {
        var c := StrictCallsign(k.codeword, k.flight, k.position);
        assert Marked(t, c) <==> c in Roster(everyone) && Receives(c, receivers);
      }
    }
  }

  lemma WalkShaped(t: Trie, word: Option<string>)
    requires ValidTrie(t)
    ensures WellShaped(Walk(t), word)
  {
    CodewordsShaped(t, StringKeys(t.Keys), word);
  }

  lemma TrieOfCall(receivers: seq<string>, everyone: seq<string>) returns (t: Trie)
    requires |receivers| > 1
    ensures ValidTrie(t) && Holds(t, receivers, everyone)
    ensures Collated(receivers, everyone) == Walk(t) + LooseEntries(Sorted(receivers, BY_STRING))
  {
    var sorted, everyone' := Sorted(receivers, BY_STRING), Sorted(everyone, BY_STRING);
    var strict := Sorted(StrictOf(everyone'), BY_CALLSIGN);
    SortedKeepsElements(receivers, BY_STRING);
    SortedKeepsElements(everyone, BY_STRING);
    SortedKeepsElements(StrictOf(everyone'), BY_CALLSIGN);
    StrictOfIsRoster(everyone');
    assert forall c :: c in Roster(everyone') <==> c in Roster(everyone);
    TrieIsValid(strict, sorted);
    t := BuildTrie(strict, sorted);
    forall c
      ensures InTrie(t, c) <==> c in Roster(everyone)
      ensures Marked(t, c) <==> c in Roster(everyone) && Receives(c, receivers)
    {
      TrieHoldsRoster(strict, sorted, c);
    }
  }

  // What a call refers to, key by key.
  lemma CallKeys(receivers: seq<string>, everyone: seq<string>, word: Option<string>, k: Key)
    requires |receivers| > 1
    ensures k in Keys(Collated(receivers, everyone), word) <==> IsKeyOfCall(k, receivers, everyone)
  {
    var t := TrieOfCall(receivers, everyone);
    var sorted := Sorted(receivers, BY_STRING);
    StringOrderIsTotal();
    SortedIsArrangement(receivers, BY_STRING);
    WalkKeys(t, receivers, everyone, word, k);
    LooseKeys(sorted, WordAfter(Walk(t), word), k);
    KeysAppend(Walk(t), LooseEntries(sorted), word);
  }

  lemma LooseComeLast(t: Trie, receivers: seq<string>, everyone: seq<string>, sorted: seq<string>, word: Option<string>)
    requires ValidTrie(t) && Holds(t, receivers, everyone)
    ensures Apart(Keys(Walk(t), word), Keys(LooseEntries(sorted), WordAfter(Walk(t), word)))
  {
    var ks, ls := Keys(Walk(t), word), Keys(LooseEntries(sorted), WordAfter(Walk(t), word));
    forall k, l | k in ks && l in ls ensures Below(k, l) && !SameFlight(k, l) {
      WalkKeys(t, receivers, everyone, word, k);
      LooseKeys(sorted, WordAfter(Walk(t), word), l);
    }
  }

  lemma CallIsShaped(receivers: seq<string>, everyone: seq<string>, word: Option<string>)
    requires |receivers| > 1
    ensures WellShaped(Collated(receivers, everyone), word)
  {
    var t := TrieOfCall(receivers, everyone);
    var sorted := Sorted(receivers, BY_STRING);
    StringOrderIsTotal();
    SortedIsArrangement(receivers, BY_STRING);
    WalkShaped(t, word);
    LooseShaped(sorted, WordAfter(Walk(t), word));
    LooseComeLast(t, receivers, everyone, sorted, word);
    ShapedAppend(Walk(t), LooseEntries(sorted), word);
  }

  // For all receivers and rosters: a flight is called as one exactly when it has
  // several members and all receive; every other strict receiver is called by
  // itself, in short exactly when directly behind another of its flight; the
  // names that are not strict come last; and all are in order, strict ones once.
  lemma CollationIsShaped(receivers: seq<string>, everyone: seq<string>, word: Option<string>)
    requires |receivers| > 1
    ensures var call := Collated(receivers, everyone); var ks := Keys(call, word);
      && Increasing(ks) && WellFormed(call, ks)
      && forall k :: k in ks <==> IsKeyOfCall(k, receivers, everyone)
  {
    CallIsShaped(receivers, everyone, word);
    forall k ensures k in Keys(Collated(receivers, everyone), word) <==> IsKeyOfCall(k, receivers, everyone) {
      CallKeys(receivers, everyone, word, k);
    }
  }

  lemma {:induction false} EntryHasKey(es: seq<Entry>, word: Option<string>, w: string, f: nat)
    ensures FlightCall(w, f) in es <==> Flight(w, f) in Keys(es, word)
  {
    if es != [] {
      var n := |es| - 1;
      assert es == es[..n] + [es[n]];
      EntryHasKey(es[..n], word, w, f);
    }
  }

  // A flight call is made exactly for the flights that receive as a whole.
  lemma FlightCallIff(receivers: seq<string>, everyone: seq<string>, w: string, f: nat)
    requires |receivers| > 1
    ensures FlightCall(w, f) in Collated(receivers, everyone) <==> IsWholeFlight(w, f, receivers, everyone)
  {
    CallKeys(receivers, everyone, None, Flight(w, f));
    EntryHasKey(Collated(receivers, everyone), None, w, f);
  }
}
