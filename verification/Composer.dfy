/**
 Pronouncing numbers and bearings digit by digit, and the proof that the parser
 undoes it.
 */
module Composer {
  import opened Bearings
  import opened Words
  import opened BearingParser

  function PronounceInt(d: int): string
    decreases d < 0, if d < 0 then -d else d
  {
    if d < 0 then "minus " + PronounceInt(-d)
    else if d >= 10 then PronounceInt(d / 10) + " " + PronounceInt(d % 10)
    else Itoa(d)
  }

  function PronounceBearing(bearing: Magnetic): string {
    var theta := bearing.RoundedDegrees();
    var s := PronounceInt(theta);
    var s' := if theta < 10 then "0 " + s else s;
    if theta < 100 then "0 " + s' else s'
  }

  // One word per digit.
  function Spell(digits: string): (ws: seq<string>)
    ensures |ws| == |digits|
    ensures forall i :: 0 <= i < |digits| ==> ws[i] == [digits[i]]
  {
    seq(|digits|, i requires 0 <= i < |digits| => [digits[i]])
  }

  lemma SpelledWords(digits: string)
    requires AllDigits(digits)
    ensures AllWords(Spell(digits)) && Clean(Spell(digits))
    ensures forall i :: 0 <= i < |digits| ==> HasDigits(Spell(digits)[i])
  {
    forall i | 0 <= i < |digits| ensures HasDigits(Spell(digits)[i]) {
      assert IsDigit(Spell(digits)[i][0]);
    }
  }

  lemma {:induction false} PronounceSpells(n: nat)
    ensures PronounceInt(n) == Join(Spell(Itoa(n)))
  {
    if n >= 10 {
      PronounceSpells(n / 10);
      PronounceSpells(n % 10);
      JoinAppends(Spell(Itoa(n / 10)), Spell(Itoa(n % 10)));
      assert Spell(Itoa(n)) == Spell(Itoa(n / 10)) + Spell(Itoa(n % 10));
    }
  }

  lemma {:induction false} SpelledDigits(digits: string)
    requires AllDigits(digits)
    ensures Clean(Spell(digits)) && DigitStream(Spell(digits)) == digits
  {
    SpelledWords(digits);
    if digits != "" {
      SpelledDigits(digits[1..]);
      assert Spell(digits)[1..] == Spell(digits[1..]);
      assert digits == [digits[0]] + digits[1..];
    }
  }

  lemma NaturalReadsBack(n: nat)
    ensures Fields(PronounceInt(n)) == Spell(Itoa(n))
    ensures Clean(Spell(Itoa(n))) && ReadDigits(DigitStream(Spell(Itoa(n)))) == n
  {
    PronounceSpells(n);
    SpelledWords(Itoa(n));
    FieldsOfJoin(Spell(Itoa(n)));
    SpelledDigits(Itoa(n));
    ReadItoa(n);
  }

  // A pronounced number is the digits of its magnitude, behind the word "minus" if
  // it is negative; and reading the digits gives the magnitude back.
  lemma PronounceIntReadsBack(d: int)
    ensures var n := if d < 0 then -d else d; var words := Fields(PronounceInt(d));
      && words == (if d < 0 then ["minus"] else []) + Spell(Itoa(n))
      && Clean(words) && ReadDigits(DigitStream(words)) == n
  {
    if d < 0 {
      NaturalReadsBack(-d);
      FieldsOfWordThenRest("minus", PronounceInt(-d));
      assert PronounceInt(d) == "minus" + " " + PronounceInt(-d);
      MinusHasNoDigits(Spell(Itoa(-d)));
    } else {
      NaturalReadsBack(d);
    }
  }

  lemma MinusHasNoDigits(words: seq<string>)
    requires Clean(words)
    ensures Clean(["minus"] + words) && DigitStream(["minus"] + words) == DigitStream(words)
  {
    var all := ["minus"] + words;
    assert !HasDigits("minus");
    assert forall i :: 0 < i < |all| ==> all[i] == words[i - 1];
    assert all[1..] == words;
  }

  // Zeroes in front, three digits in all.
  function ThreeDigits(theta: nat): string {
    var s := if theta < 10 then "0" + Itoa(theta) else Itoa(theta);
    if theta < 100 then "0" + s else s
  }

  lemma ThreeDigitsRead(theta: nat)
    requires theta < 1000
    ensures AllDigits(ThreeDigits(theta)) && |ThreeDigits(theta)| == 3
    ensures ReadDigits(ThreeDigits(theta)) == theta
  {
    var s := Itoa(theta);
    ReadItoa(theta);
    LeadingZero(s);
    LeadingZero("0" + s);
    ItoaLength(theta);
  }

  lemma ItoaLength(n: nat)
    requires n < 1000
    ensures |Itoa(n)| == if n < 10 then 1 else if n < 100 then 2 else 3
  {
    if n >= 100 {
      assert |Itoa(n / 10 / 10)| == 1;
      assert |Itoa(n / 10)| == 2;
    }
  }

  lemma BearingIsSpelled(bearing: Magnetic)
    ensures PronounceBearing(bearing) == Join(Spell(ThreeDigits(bearing.RoundedDegrees())))
  {
    var theta := bearing.RoundedDegrees();
    var s := Itoa(theta);
    PronounceSpells(theta);
    ZeroInFront(s);
    ZeroInFront("0" + s);
  }

  lemma BearingFields(bearing: Magnetic)
    ensures Fields(PronounceBearing(bearing)) == Spell(ThreeDigits(bearing.RoundedDegrees()))
  {
    var three := ThreeDigits(bearing.RoundedDegrees());
    ThreeDigitsRead(bearing.RoundedDegrees());
    BearingIsSpelled(bearing);
    SpelledWords(three);
    FieldsOfJoin(Spell(three));
  }

  lemma ZeroInFront(s: string)
    requires s != ""
    ensures Join(Spell("0" + s)) == "0 " + Join(Spell(s))
  {
    assert Spell("0" + s) == ["0"] + Spell(s);
    JoinAppends(["0"], Spell(s));
  }

  // ---- The round trip ---------------------------------------------------------------------

  predicate DigitFree(words: seq<string>) {
    forall i :: 0 <= i < |words| ==> !HasDigits(words[i])
  }

  lemma {:induction false} SkipsDigitFree(parse: CharParser, words: seq<string>, more: seq<string>)
    requires DigitFree(words)
    ensures Scan(parse, words + more, 0, 0) == Scan(parse, more, 0, 0)
  {
    if words == [] {
      assert words + more == more;
    } else {
      assert (words + more)[1..] == words[1..] + more;
      SkipsDigitFree(parse, words[1..], more);
    }
  }

  lemma ScanOneDigit(parse: CharParser, c: char, more: seq<string>, v: int, n: nat)
    requires Lawful(parse) && n < 3 && IsDigit(c)
    ensures Scan(parse, [[c]] + more, v, n)
         == if n == 2 then Scanned(ReadFrom(v, [c]), 3, more) else Scan(parse, more, ReadFrom(v, [c]), n + 1)
  {
    assert HasDigits([c]) by { assert IsDigit([c][0]); }
    ScanNumeral(parse, [c], v, n);
    assert [c][..1] == [c];
    assert ([[c]] + more)[1..] == more;
  }

  lemma ScanThreeDigits(parse: CharParser, a: char, b: char, c: char, tail: seq<string>)
    requires Lawful(parse) && IsDigit(a) && IsDigit(b) && IsDigit(c)
    ensures Scan(parse, [[a]] + ([[b]] + ([[c]] + tail)), 0, 0)
         == Scanned(ReadFrom(ReadFrom(ReadFrom(0, [a]), [b]), [c]), 3, tail)
  {
    ScanOneDigit(parse, a, [[b]] + ([[c]] + tail), 0, 0);
    ScanOneDigit(parse, b, [[c]] + tail, ReadFrom(0, [a]), 1);
    ScanOneDigit(parse, c, tail, ReadFrom(ReadFrom(0, [a]), [b]), 2);
  }

  lemma ScanThreeWords(parse: CharParser, digits: string, tail: seq<string>)
    requires Lawful(parse) && AllDigits(digits) && |digits| == 3
    ensures Scan(parse, Spell(digits) + tail, 0, 0) == Scanned(ReadDigits(digits), 3, tail)
  {
    var a, b, c := digits[0], digits[1], digits[2];
    ScanThreeDigits(parse, a, b, c, tail);
    assert Spell(digits) + tail == [[a]] + ([[b]] + ([[c]] + tail));
    ReadFromAppend(0, [a], [b]);
    ReadFromAppend(0, [a] + [b], [c]);
    assert digits == [a] + [b] + [c];
  }

  // Scanning a spoken bearing behind digit-free words.
  lemma ScanSpokenBearing(parse: CharParser, before: seq<string>, bearing: Magnetic, after: seq<string>)
    requires Lawful(parse) && DigitFree(before)
    ensures Scan(parse, before + Fields(PronounceBearing(bearing)) + after, 0, 0)
         == Scanned(bearing.RoundedDegrees(), 3, after)
  {
    var three := ThreeDigits(bearing.RoundedDegrees());
    ThreeDigitsRead(bearing.RoundedDegrees());
    BearingFields(bearing);
    assert before + Spell(three) + after == before + (Spell(three) + after);
    SkipsDigitFree(parse, before, Spell(three) + after);
    ScanThreeWords(parse, three, after);
  }

  // After any digit-free words a pronounced bearing is parsed as its rounded
  // value, 0 being read as 360, and the words behind it are left untouched.
  lemma ParserUndoesPrinter(parse: CharParser, before: seq<string>, bearing: Magnetic, after: seq<string>, text: string)
    requires Lawful(parse) && DigitFree(before)
    requires Fields(text) == before + Fields(PronounceBearing(bearing)) + after
    ensures var scan := Scan(parse, Fields(text), 0, 0);
      && scan == Scanned(bearing.RoundedDegrees(), 3, after)
      && NewMagneticBearing(scan.value as real).Value()
         == if bearing.RoundedDegrees() == 0 then 360.0 else bearing.RoundedDegrees() as real
  {
    ScanSpokenBearing(parse, before, bearing, after);
    DegreesNormalize(bearing.RoundedDegrees());
  }

  lemma DegreesNormalize(theta: nat)
    requires theta <= 360
    ensures NewMagneticBearing(theta as real).Value() == if theta == 0 then 360.0 else theta as real
  {
    var v := if theta == 0 then 360.0 else theta as real;
    assert v == Turned(theta as real, if theta == 0 then 1 else 0);
    ValueOfNew(theta as real);
    NormalizedIsTheRepresentative(theta as real, v);
  }
}
