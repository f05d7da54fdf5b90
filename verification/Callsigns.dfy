/**
 Strict callsigns: a codeword and two numbers, parsed from free text.
 */
module Callsigns {
  import opened Basics
  import opened Words

  // ParsePilotCallsign: the name by which a contact is called, if it has one.
  type CallsignParser = string -> Option<string>

  // ---- Strict callsigns -------------------------------------------------------

  datatype StrictCallsign = StrictCallsign(codeword: string, flight: nat, position: nat) {
    function Print(): string {
      codeword + " " + Itoa(flight) + " " + Itoa(position)
    }
  }

  function Parse(s: string): Option<StrictCallsign> {
    var words := Fields(s);
    if |words| < 3 then None
    else
      match (Atoi(words[|words| - 2]), Atoi(words[|words| - 1]))
      case (Some(flight), Some(element)) =>
        var codeword := Join(words[..|words| - 2]);
        if flight < 0 || element < 0 || codeword == "" || HasDigits(codeword) then None
        else Some(StrictCallsign(codeword, flight, element))
      case _ => None
  }

  // What every parsed callsign looks like.
  ghost predicate WellFormed(c: StrictCallsign) {
    && (exists ws: seq<string> :: ws != [] && AllWords(ws) && Join(ws) == c.codeword)
    && !HasDigits(c.codeword)
    && c.flight <= MAX_INT && c.position <= MAX_INT
  }

  lemma ParsedIsWellFormed(s: string)
    requires Parse(s).Some?
    ensures WellFormed(Parse(s).value)
  {
    var words := Fields(s);
    FieldsAreWords(s);
    var ws := words[..|words| - 2];
    assert AllWords(ws) && ws != [] && Join(ws) == Parse(s).value.codeword;
  }

  lemma PrintedWords(ws: seq<string>, f: nat, p: nat)
    requires ws != [] && AllWords(ws)
    ensures Fields(Join(ws) + " " + Itoa(f) + " " + Itoa(p)) == ws + [Itoa(f), Itoa(p)]
  {
    var tail := [Itoa(f), Itoa(p)];
    assert tail[1..] == [Itoa(p)];
    JoinAppends(ws, tail);
    FieldsOfJoin(ws + tail);
    assert Join(ws) + " " + Itoa(f) + " " + Itoa(p) == Join(ws) + " " + (Itoa(f) + " " + Itoa(p));
  }

  // Printing is undone by parsing.
  lemma ParseOfPrint(c: StrictCallsign)
    requires WellFormed(c)
    ensures Parse(c.Print()) == Some(c)
  {
    var ws: seq<string> :| ws != [] && AllWords(ws) && Join(ws) == c.codeword;
    PrintedWords(ws, c.flight, c.position);
    var words := ws + [Itoa(c.flight), Itoa(c.position)];
    assert words[..|words| - 2] == ws;
    AtoiOfItoa(c.flight);
    AtoiOfItoa(c.position);
    JoinIsNonempty(ws);
  }

  lemma JoinIsNonempty(ws: seq<string>)
    requires ws != [] && AllWords(ws)
    ensures Join(ws) != ""
  {
  }
}
