/**
 Collation of broadcast receivers into flights and elements: an ordered trie of
 every strict callsign, walked in order, with the other receivers appended.
 */
module Collation {
  import opened Words
  import opened Sorting
  import opened Callsigns

  // ---- Collation: what is computed ----------------------------------------------

  // The elements of a collated call. Speech renders them as text.
  datatype Entry =
    | FlightCall(codeword: string, flight: nat)
    | Full(callsign: StrictCallsign)
    | Short(flight: nat, position: nat)
    | Loose(name: string)

  function Render(e: Entry): string {
    match e
    case FlightCall(codeword, flight) => codeword + " " + Itoa(flight) + " flight"
    case Full(callsign) => callsign.Print()
    case Short(flight, position) => Itoa(flight) + " " + Itoa(position)
    case Loose(name) => name
  }

  // codeword -> flight -> position -> is it a receiver?
  type Positions = map<int, bool>
  type Flights = map<int, Positions>
  type Trie = map<string, Flights>

  function SetMember(t: Trie, c: StrictCallsign, isReceiver: bool): Trie {
    var flights := if c.codeword in t then t[c.codeword] else map[];
    var positions := if c.flight in flights then flights[c.flight] else map[];
    t[c.codeword := flights[c.flight := positions[c.position := isReceiver]]]
  }

  function BuildTrie(strict: seq<StrictCallsign>, receivers: seq<string>): Trie {
    if strict == [] then map[]
    else
      var c := strict[|strict| - 1];
      SetMember(BuildTrie(strict[..|strict| - 1], receivers), c, c.Print() in receivers)
  }

  function StrictOf(names: seq<string>): seq<StrictCallsign> {
    if names == [] then []
    else
      var init := StrictOf(names[..|names| - 1]);
      match Parse(names[|names| - 1])
      case Some(c) => init + [c]
      case None => init
  }

  predicate CallsignOrder(a: StrictCallsign, b: StrictCallsign) {
    if a.codeword != b.codeword then Lexicographic(a.codeword, b.codeword)
    else if a.flight != b.flight then a.flight < b.flight
    else a.position <= b.position
  }

  const BY_CALLSIGN: (StrictCallsign, StrictCallsign) -> bool := (a, b) => CallsignOrder(a, b)

  // The receivers among the positions, the first of them in full.
  function PositionEntries(w: string, f: nat, positions: Positions, ps: seq<int>): seq<Entry>
    requires ValidPositions(positions) && forall p :: p in ps ==> p in positions
  {
    if ps == [] then []
    else
      var p := ps[|ps| - 1];
      var init := PositionEntries(w, f, positions, ps[..|ps| - 1]);
      if !positions[p] then init
      else init + [if init == [] then Full(StrictCallsign(w, f, p)) else Short(f, p)]
  }

  predicate AllReceivers(positions: Positions) {
    forall p :: p in positions ==> positions[p]
  }

  predicate ValidPositions(positions: Positions) {
    forall p :: p in positions ==> p >= 0
  }

  predicate ValidFlights(flights: Flights) {
    forall f :: f in flights ==> f >= 0 && ValidPositions(flights[f])
  }

  predicate ValidTrie(t: Trie) {
    forall w :: w in t ==> ValidFlights(t[w])
  }

  ghost function FlightEntries(w: string, f: int, positions: Positions): seq<Entry>
    requires f >= 0 && ValidPositions(positions)
  {
    if AllReceivers(positions) && |positions| > 1 then [FlightCall(w, f)]
    else PositionEntries(w, f, positions, IntKeys(positions.Keys))
  }

  ghost function FlightsEntries(w: string, flights: Flights, fs: seq<int>): seq<Entry>
    requires ValidFlights(flights) && forall f :: f in fs ==> f in flights
  {
    if fs == [] then []
    else
      var n := |fs| - 1;
      FlightsEntries(w, flights, fs[..n]) + FlightEntries(w, fs[n], flights[fs[n]])
  }

  ghost function CodewordEntries(w: string, flights: Flights): seq<Entry>
    requires ValidFlights(flights)
  {
    FlightsEntries(w, flights, IntKeys(flights.Keys))
  }

  ghost function CodewordsEntries(t: Trie, ws: seq<string>): seq<Entry>
    requires ValidTrie(t) && forall w :: w in ws ==> w in t
  {
    if ws == [] then []
    else
      var n := |ws| - 1;
      CodewordsEntries(t, ws[..n]) + CodewordEntries(ws[n], t[ws[n]])
  }

  ghost function Walk(t: Trie): seq<Entry>
    requires ValidTrie(t)
  {
    CodewordsEntries(t, StringKeys(t.Keys))
  }

  function LooseEntries(names: seq<string>): seq<Entry> {
    if names == [] then []
    else
      var init := LooseEntries(names[..|names| - 1]);
      var name := names[|names| - 1];
      if Parse(name).Some? then init else init + [Loose(name)]
  }

  lemma {:induction false} TrieIsValid(strict: seq<StrictCallsign>, receivers: seq<string>)
    ensures ValidTrie(BuildTrie(strict, receivers))
  {
    if strict != [] {
      TrieIsValid(strict[..|strict| - 1], receivers);
    }
  }

  ghost function Collated(receivers: seq<string>, everyone: seq<string>): seq<Entry> {
    if |receivers| <= 1 then seq(|receivers|, i requires 0 <= i < |receivers| => Loose(receivers[i]))
    else
      var sorted := Sorted(receivers, BY_STRING);
      var strict := Sorted(StrictOf(Sorted(everyone, BY_STRING)), BY_CALLSIGN);
      TrieIsValid(strict, sorted);
      Walk(BuildTrie(strict, sorted)) + LooseEntries(sorted)
  }

  // ---- The collation itself -----------------------------------------------------

  method SortStrings(a: array<string>)
    modifies a
    ensures a[..] == Sorted(old(a[..]), BY_STRING)
  {
    var sorted := Sorted(a[..], BY_STRING);
    forall i | 0 <= i < a.Length {
      a[i] := sorted[i];
    }
  }

  method ParseEveryone(names: seq<string>) returns (strict: seq<StrictCallsign>)
    ensures strict == StrictOf(names)
  {
    strict := [];
    for i := 0 to |names|
      invariant strict == StrictOf(names[..i])
    {
      assert names[..i + 1][..i] == names[..i];
      match Parse(names[i])
      case Some(c) => strict := strict + [c];
      case None =>
    }
    assert names[..|names|] == names;
  }

  method FillTrie(strict: seq<StrictCallsign>, receivers: seq<string>) returns (members: Trie)
    ensures members == BuildTrie(strict, receivers)
  {
    members := map[];
    for i := 0 to |strict|
      invariant members == BuildTrie(strict[..i], receivers)
    {
      assert strict[..i + 1][..i] == strict[..i];
      var c := strict[i];
      var flights: Flights := map[];
      if c.codeword in members {
        flights := members[c.codeword];
      }
      var positions: Positions := map[];
      if c.flight in flights {
        positions := flights[c.flight];
      }
      var isReceiver := c.Print() in receivers;
      positions := positions[c.position := isReceiver];
      flights := flights[c.flight := positions];
      members := members[c.codeword := flights];
    }
    assert strict[..|strict|] == strict;
  }

  method IsEntireFlightReceiver(positions: Positions, ps: seq<int>) returns (all: bool)
    requires forall p :: p in ps <==> p in positions
    ensures all == AllReceivers(positions)
  {
    for i := 0 to |ps|
      invariant forall p :: p in ps[..i] ==> positions[p]
    {
      var p := ps[i];
      assert p in ps && ps[..i + 1] == ps[..i] + [p];
      if !positions[p] {
        return false;
      }
    }
    assert ps[..|ps|] == ps;
    return true;
  }

  method WalkPositions(w: string, f: nat, positions: Positions, ps: seq<int>) returns (entries: seq<Entry>)
    requires ValidPositions(positions) && forall p :: p in ps ==> p in positions
    ensures entries == PositionEntries(w, f, positions, ps)
  {
    entries := [];
    var isFirstReceiverInFlight := true;
    for i := 0 to |ps|
      invariant entries == PositionEntries(w, f, positions, ps[..i])
      invariant isFirstReceiverInFlight == (entries == [])
    {
      var p := ps[i];
      assert ps[..i + 1][..i] == ps[..i] && p in ps;
      if positions[p] {
        if isFirstReceiverInFlight {
          entries := entries + [Full(StrictCallsign(w, f, p))];
          isFirstReceiverInFlight := false;
        } else {
          entries := entries + [Short(f, p)];
        }
      }
    }
    assert ps[..|ps|] == ps;
  }

  method WalkFlight(w: string, f: nat, positions: Positions) returns (entries: seq<Entry>)
    requires ValidPositions(positions)
    ensures entries == FlightEntries(w, f, positions)
  {
    var ps := SortIntKeys(positions.Keys);
    var isEntireFlightReceiver := IsEntireFlightReceiver(positions, ps);
    if isEntireFlightReceiver && |positions| > 1 {
      entries := [FlightCall(w, f)];
    } else {
      entries := WalkPositions(w, f, positions, ps);
    }
  }

  method WalkFlights(w: string, flights: Flights, fs: seq<int>) returns (entries: seq<Entry>)
    requires ValidFlights(flights) && forall f :: f in fs ==> f in flights
    ensures entries == FlightsEntries(w, flights, fs)
  {
    entries := [];
    for i := 0 to |fs|
      invariant entries == FlightsEntries(w, flights, fs[..i])
    {
      assert fs[..i + 1][..i] == fs[..i] && fs[i] in fs;
      var flightEntries := WalkFlight(w, fs[i], flights[fs[i]]);
      entries := entries + flightEntries;
    }
    assert fs[..|fs|] == fs;
  }

  method WalkCodewords(t: Trie, ws: seq<string>) returns (entries: seq<Entry>)
    requires ValidTrie(t) && forall w :: w in ws ==> w in t
    ensures entries == CodewordsEntries(t, ws)
  {
    entries := [];
    for i := 0 to |ws|
      invariant entries == CodewordsEntries(t, ws[..i])
    {
      assert ws[..i + 1][..i] == ws[..i];
      var fs := SortIntKeys(t[ws[i]].Keys);
      var codewordEntries := WalkFlights(ws[i], t[ws[i]], fs);
      entries := entries + codewordEntries;
    }
    assert ws[..|ws|] == ws;
  }

  method WalkTrie(t: Trie) returns (entries: seq<Entry>)
    requires ValidTrie(t)
    ensures entries == Walk(t)
  {
    var ws := SortStringKeys(t.Keys);
    entries := WalkCodewords(t, ws);
  }

  method AppendLoose(walked: seq<Entry>, names: seq<string>) returns (entries: seq<Entry>)
    ensures entries == walked + LooseEntries(names)
  {
    entries := walked;
    for i := 0 to |names|
      invariant entries == walked + LooseEntries(names[..i])
    {
      assert names[..i + 1][..i] == names[..i];
      if Parse(names[i]).None? {
        entries := entries + [Loose(names[i])];
      }
    }
    assert names[..|names|] == names;
  }

  // Both slices are sorted in place unless there is at most one receiver.
  method CollateCallsigns(receivers: array<string>, everyone: array<string>) returns (collated: seq<Entry>)
    requires receivers != everyone
    modifies receivers, everyone
    ensures collated == Collated(old(receivers[..]), old(everyone[..]))
    ensures receivers.Length <= 1 ==> receivers[..] == old(receivers[..]) && everyone[..] == old(everyone[..])
    ensures receivers.Length > 1 ==> receivers[..] == Sorted(old(receivers[..]), BY_STRING)
    ensures receivers.Length > 1 ==> everyone[..] == Sorted(old(everyone[..]), BY_STRING)
  {
    if receivers.Length <= 1 {
      return seq(receivers.Length, i requires 0 <= i < receivers.Length reads receivers => Loose(receivers[i]));
    }
    SortStrings(receivers);
    SortStrings(everyone);
    var parsed := ParseEveryone(everyone[..]);
    var strict := Sorted(parsed, BY_CALLSIGN);
    var members := FillTrie(strict, receivers[..]);
    TrieIsValid(strict, receivers[..]);
    var walked := WalkTrie(members);
    collated := AppendLoose(walked, receivers[..]);
  }
}
