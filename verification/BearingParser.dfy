/**
 Reading a three-digit bearing from a stream of words, and pronouncing one.
 A word may hold several digits, so the third digit can end inside a word.
 */
module BearingParser {
  import opened Bearings
  import opened Basics
  import opened Words
  import opened TokenStream

  // numwords.ParseInt on a single character.
  type CharParser = char -> Option<int>

  // It reads digits as digits. Nothing is assumed about other characters.
  ghost predicate Lawful(parse: CharParser) {
    forall c :: IsDigit(c) ==> parse(c) == Some(DigitValue(c))
  }

  // ---- What the parser computes, for any words ------------------------------------

  // Within one word: either the third digit was found, at `index` and as the
  // `consumed`-th digit of the word, or more words are needed.
  datatype TokenScan =
    | Third(value: int, consumed: nat, index: nat)
    | More(value: int, count: nat)

  function ScanToken(parse: CharParser, text: string, i: nat, value: int, n: nat, consumed: nat): (t: TokenScan)
    requires i <= |text| && n < 3 && consumed <= i
    ensures t.Third? ==> consumed < t.consumed <= t.index + 1 <= |text|
    ensures t.More? ==> t.count < 3
    decreases |text| - i
  {
    if i == |text| then More(value, n)
    else
      match parse(text[i])
      case None => ScanToken(parse, text, i + 1, value, n, consumed)
      case Some(d) =>
        if n + 1 == 3 then Third(value * 10 + d, consumed + 1, i)
        else ScanToken(parse, text, i + 1, value * 10 + d, n + 1, consumed + 1)
  }

  datatype Scanned = Scanned(value: int, count: nat, rest: seq<string>)

  function Leftover(text: string, consumed: nat): seq<string>
    requires consumed <= |text|
  {
    if consumed < |text| then [text[consumed..]] else []
  }

  function Scan(parse: CharParser, words: seq<string>, value: int, n: nat): Scanned
    requires n < 3
  {
    if words == [] then Scanned(value, n, [])
    else if !HasDigits(words[0]) then Scan(parse, words[1..], value, n)
    else
      match ScanToken(parse, words[0], 0, value, n, 0)
      case Third(v, consumed, _) => Scanned(v, 3, Leftover(words[0], consumed) + words[1..])
      case More(v, m) => Scan(parse, words[1..], v, m)
  }

  method ParseBearing(stream: Stream, parse: CharParser) returns (bearing: Magnetic, ok: bool)
    requires stream.Valid()
    modifies stream
    ensures stream.Valid()
    ensures var scan := Scan(parse, old(stream.Remaining()), 0, 0);
      bearing == NewMagneticBearing(scan.value as real) && ok == (scan.count == 3) && stream.Remaining() == scan.rest
  {
    var value: int, n: nat := 0, 0;
    ghost var words := stream.Remaining();
    while n < 3 && !stream.AtEnd()
      invariant stream.Valid() && n < 3
      invariant Scan(parse, words, 0, 0) == Scan(parse, stream.Remaining(), value, n)
      decreases |stream.Remaining()|
    {
      var tokenText := stream.Text();
      if tokenText == "" {
        var _ := stream.Advance();
        continue;
      }
      if !HasDigits(tokenText) {
        var _ := stream.Advance();
        continue;
      }
      var found: bool, consumed: nat;
      value, n, consumed, found := ReadToken(parse, tokenText, value, n);
      if found {
        if consumed < |tokenText| {
          stream.SetPartialToken(tokenText[consumed..]);
        } else {
          var _ := stream.Advance();
        }
        return NewMagneticBearing(value as real), true;
      }
      var _ := stream.Advance();
    }
    return NewMagneticBearing(value as real), n == 3;
  }

  // The loop over the characters of one word.
  method ReadToken(parse: CharParser, text: string, value0: int, n0: nat)
    returns (value: int, n: nat, consumed: nat, found: bool)
    requires n0 < 3
    ensures consumed <= |text|
    ensures var t := ScanToken(parse, text, 0, value0, n0, 0);
      if found then t.Third? && t.value == value && t.consumed == consumed && n == 3
      else t == More(value, n) && n < 3
  {
    value, n, consumed := value0, n0, 0;
    for i := 0 to |text|
      invariant n < 3 && consumed <= i
      invariant ScanToken(parse, text, 0, value0, n0, 0) == ScanToken(parse, text, i, value, n, consumed)
    {
      match parse(text[i]) {
        case Some(d) =>
          value := value * 10 + d;
          n := n + 1;
          consumed := consumed + 1;
          if n == 3 {
            return value, n, consumed, true;
          }
        case None =>
      }
    }
    found := false;
  }

  // ---- Clean streams: every word is a numeral or has no digits ----------------------

  predicate Clean(words: seq<string>) {
    forall i :: 0 <= i < |words| ==> !HasDigits(words[i]) || AllDigits(words[i])
  }

  // All digits of the stream, in order.
  function DigitStream(words: seq<string>): (s: string)
    requires Clean(words)
    ensures AllDigits(s)
  {
    if words == [] then ""
    else (if HasDigits(words[0]) then words[0] else "") + DigitStream(words[1..])
  }

  // `rest` is what follows the n-th digit of `words`, end of its word included.
  ghost predicate Follows(words: seq<string>, n: nat, rest: seq<string>)
    requires Clean(words)
  {
    exists k, j: nat :: FollowsAt(words, n, rest, k, j)
  }

  ghost predicate FollowsAt(words: seq<string>, n: nat, rest: seq<string>, k: int, j: nat)
    requires Clean(words)
  {
    && 0 <= k < |words| && HasDigits(words[k]) && 1 <= j <= |words[k]|
    && |DigitStream(words[..k])| + j == n
    && rest == Leftover(words[k], j) + words[k + 1..]
  }

  lemma ReadFromSlice(v: int, text: string, i: nat, end: nat)
    requires i < end <= |text|
    ensures ReadFrom(v, text[i..end]) == ReadFrom(10 * v + DigitValue(text[i]), text[i + 1..end])
  {
    assert text[i..end] == [text[i]] + text[i + 1..end];
    ReadFromOne(v, text[i]);
    ReadFromAppend(v, [text[i]], text[i + 1..end]);
  }

  // A numeral that completes the three digits, and one that does not.
  lemma {:induction false} ScanLongNumeral(parse: CharParser, text: string, i: nat, v: int, n: nat, consumed: nat)
    requires Lawful(parse) && AllDigits(text) && i <= |text| && n < 3 && consumed <= i && n + |text| - i >= 3
    ensures ScanToken(parse, text, i, v, n, consumed)
         == Third(ReadFrom(v, text[i..i + 3 - n]), consumed + 3 - n, i + 2 - n)
    decreases |text| - i
  {
    ReadFromSlice(v, text, i, i + 3 - n);
    if n < 2 {
      ScanLongNumeral(parse, text, i + 1, 10 * v + DigitValue(text[i]), n + 1, consumed + 1);
    }
  }

  lemma {:induction false} ScanShortNumeral(parse: CharParser, text: string, i: nat, v: int, n: nat, consumed: nat)
    requires Lawful(parse) && AllDigits(text) && i <= |text| && n < 3 && consumed <= i && n + |text| - i < 3
    ensures ScanToken(parse, text, i, v, n, consumed) == More(ReadFrom(v, text[i..]), n + |text| - i)
    decreases |text| - i
  {
    if i < |text| {
      ReadFromSlice(v, text, i, |text|);
      ScanShortNumeral(parse, text, i + 1, 10 * v + DigitValue(text[i]), n + 1, consumed + 1);
    }
  }

  lemma ScanNumeral(parse: CharParser, text: string, v: int, n: nat)
    requires Lawful(parse) && AllDigits(text) && n < 3
    ensures ScanToken(parse, text, 0, v, n, 0)
         == if n + |text| >= 3 then Third(ReadFrom(v, text[..3 - n]), 3 - n, 2 - n)
            else More(ReadFrom(v, text), n + |text|)
  {
    assert text[0..] == text && (n + |text| >= 3 ==> text[0..3 - n] == text[..3 - n]);
    if n + |text| >= 3 {
      ScanLongNumeral(parse, text, 0, v, n, 0);
    } else {
      ScanShortNumeral(parse, text, 0, v, n, 0);
    }
  }

  lemma CleanTail(words: seq<string>)
    requires words != [] && Clean(words)
    ensures Clean(words[1..])
    ensures !HasDigits(words[0]) ==> DigitStream(words) == DigitStream(words[1..])
    ensures HasDigits(words[0]) ==> AllDigits(words[0]) && DigitStream(words) == words[0] + DigitStream(words[1..])
  {
  }

  lemma FollowsInTail(words: seq<string>, n: nat, rest: seq<string>)
    requires words != [] && Clean(words) && Follows(words[1..], n, rest)
    ensures Follows(words, n + (if HasDigits(words[0]) then |words[0]| else 0), rest)
  {
    var k, j: nat :| FollowsAt(words[1..], n, rest, k, j);
    assert words[..k + 1][1..] == words[1..][..k];
    CleanTail(words[..k + 1]);
    assert words[1..][k + 1..] == words[k + 2..];
    assert FollowsAt(words, n + (if HasDigits(words[0]) then |words[0]| else 0), rest, k + 1, j);
  }

  // With `n` digits read so far, the scan reads as many more of the stream as
  // make three and leaves what follows them; or the stream runs out.
  ghost predicate ReadsDigits(scan: Scanned, words: seq<string>, v: int, n: nat)
    requires Clean(words) && n < 3
  {
    var digits := DigitStream(words);
    if n + |digits| >= 3
    then scan.count == 3 && scan.value == ReadFrom(v, digits[..3 - n]) && Follows(words, 3 - n, scan.rest)
    else scan == Scanned(ReadFrom(v, digits), n + |digits|, [])
  }

  lemma SkippedWord(scan: Scanned, words: seq<string>, v: int, n: nat)
    requires Clean(words) && n < 3 && words != [] && !HasDigits(words[0])
    requires ReadsDigits(scan, words[1..], v, n)
    ensures ReadsDigits(scan, words, v, n)
  {
    CleanTail(words);
    if n + |DigitStream(words)| >= 3 {
      FollowsInTail(words, 3 - n, scan.rest);
    }
  }

  lemma ThirdDigitInWord(words: seq<string>, v: int, n: nat)
    requires Clean(words) && n < 3 && words != [] && HasDigits(words[0]) && n + |words[0]| >= 3
    ensures ReadsDigits(Scanned(ReadFrom(v, words[0][..3 - n]), 3, Leftover(words[0], 3 - n) + words[1..]), words, v, n)
  {
    CleanTail(words);
    assert DigitStream(words)[..3 - n] == words[0][..3 - n];
    assert words[..0] == [];
    assert FollowsAt(words, 3 - n, Leftover(words[0], 3 - n) + words[1..], 0, 3 - n);
  }

  lemma ReadPast(v: int, word: string, tail: string, k: nat)
    requires AllDigits(word) && AllDigits(tail) && k <= |tail|
    ensures ReadFrom(v, (word + tail)[..|word| + k]) == ReadFrom(ReadFrom(v, word), tail[..k])
  {
    assert (word + tail)[..|word| + k] == word + tail[..k];
    ReadFromAppend(v, word, tail[..k]);
  }

  lemma ShortWordValue(words: seq<string>, v: int, n: nat)
    requires Clean(words) && words != [] && HasDigits(words[0]) && Clean(words[1..])
    ensures var word, tail := words[0], DigitStream(words[1..]);
      && DigitStream(words) == word + tail && ReadFrom(v, word + tail) == ReadFrom(ReadFrom(v, word), tail)
      && (n + |word| < 3 <= n + |word| + |tail| ==>
            ReadFrom(v, (word + tail)[..3 - n]) == ReadFrom(ReadFrom(v, word), tail[..3 - n - |word|]))
  {
    var word, tail := words[0], DigitStream(words[1..]);
    CleanTail(words);
    ReadFromAppend(v, word, tail);
    if n + |word| < 3 <= n + |word| + |tail| {
      ReadPast(v, word, tail, 3 - n - |word|);
    }
  }

  lemma ShortWord(scan: Scanned, words: seq<string>, v: int, n: nat)
    requires Clean(words) && words != [] && HasDigits(words[0]) && n + |words[0]| < 3
    requires ReadsDigits(scan, words[1..], ReadFrom(v, words[0]), n + |words[0]|)
    ensures ReadsDigits(scan, words, v, n)
  {
    ShortWordValue(words, v, n);
    if n + |words[0]| + |DigitStream(words[1..])| >= 3 {
      FollowsInTail(words, 3 - n - |words[0]|, scan.rest);
    }
  }

  lemma ScanOneWord(parse: CharParser, words: seq<string>, v: int, n: nat)
    requires Lawful(parse) && n < 3 && words != [] && (!HasDigits(words[0]) || AllDigits(words[0]))
    ensures Scan(parse, words, v, n) ==
      if !HasDigits(words[0]) then Scan(parse, words[1..], v, n)
      else if n + |words[0]| >= 3 then
        Scanned(ReadFrom(v, words[0][..3 - n]), 3, Leftover(words[0], 3 - n) + words[1..])
      else Scan(parse, words[1..], ReadFrom(v, words[0]), n + |words[0]|)
  {
    var word := words[0];
    if HasDigits(word) {
      ScanNumeral(parse, word, v, n);
    }
  }

  // One word of a clean stream, the rest of which is read as it should be.
  lemma ScanCleanWord(parse: CharParser, words: seq<string>, v: int, n: nat)
    requires Lawful(parse) && Clean(words) && n < 3 && words != []
    requires !HasDigits(words[0]) ==>
      ReadsDigits(Scan(parse, words[1..], v, n), words[1..], v, n)
    requires HasDigits(words[0]) && n + |words[0]| < 3 ==>
      ReadsDigits(Scan(parse, words[1..], ReadFrom(v, words[0]), n + |words[0]|), words[1..],
                  ReadFrom(v, words[0]), n + |words[0]|)
    ensures ReadsDigits(Scan(parse, words, v, n), words, v, n)
  {
    var word, scan := words[0], Scan(parse, words, v, n);
    ScanOneWord(parse, words, v, n);
    if !HasDigits(word) {
      SkippedWord(scan, words, v, n);
    } else if n + |word| >= 3 {
      ThirdDigitInWord(words, v, n);
    } else {
      ShortWord(scan, words, v, n);
    }
  }

  // On a clean stream the scan reads the first three digits of the digit
  // stream, wherever the word boundaries fall.
  lemma {:induction false} ScanClean(parse: CharParser, words: seq<string>, v: int, n: nat)
    requires Lawful(parse) && Clean(words) && n < 3
    ensures ReadsDigits(Scan(parse, words, v, n), words, v, n)
  {
    if words != [] {
      if !HasDigits(words[0]) {
        ScanClean(parse, words[1..], v, n);
      } else if n + |words[0]| < 3 {
        ScanClean(parse, words[1..], ReadFrom(v, words[0]), n + |words[0]|);
      }
      ScanCleanWord(parse, words, v, n);
    }
  }

  // Parsing a clean stream succeeds exactly when it has three digits, and then
  // yields the number they write.
  lemma ParsesFirstThreeDigits(parse: CharParser, words: seq<string>)
    requires Lawful(parse) && Clean(words)
    ensures var scan, digits := Scan(parse, words, 0, 0), DigitStream(words);
      && (scan.count == 3 <==> |digits| >= 3)
      && (|digits| >= 3 ==> scan.value == ReadDigits(digits[..3]) && Follows(words, 3, scan.rest))
      && (|digits| < 3 ==> scan.rest == [])
  {
    ScanClean(parse, words, 0, 0);
  }

  // ---- Words that mix digits and other characters ------------------------------------

  // How many characters of a word are read as digits.
  function CountRead(parse: CharParser, text: string): nat {
    if text == "" then 0 else (if parse(text[0]).Some? then 1 else 0) + CountRead(parse, text[1..])
  }

  // The end of the m-th of them.
  function EndOf(parse: CharParser, text: string, m: nat): (end: nat)
    requires m <= CountRead(parse, text)
    ensures m <= end <= |text|
  {
    if m == 0 then 0 else 1 + EndOf(parse, text[1..], if parse(text[0]).Some? then m - 1 else m)
  }

  lemma {:induction false} ScanTokenCounts(parse: CharParser, text: string, i: nat, value: int, n: nat, consumed: nat)
    requires i <= |text| && n < 3 && consumed <= i
    ensures var t := ScanToken(parse, text, i, value, n, consumed);
      match t
      case Third(_, c, index) =>
        && n + CountRead(parse, text[i..]) >= 3 && c == consumed + 3 - n
        && index + 1 == i + EndOf(parse, text[i..], 3 - n)
      case More(_, count) => count == n + CountRead(parse, text[i..])
    decreases |text| - i
  {
    if i < |text| {
      assert text[i..][1..] == text[i + 1..] && text[i..][0] == text[i];
      match parse(text[i])
      case None => ScanTokenCounts(parse, text, i + 1, value, n, consumed);
      case Some(d) =>
        if n + 1 < 3 {
          ScanTokenCounts(parse, text, i + 1, value * 10 + d, n + 1, consumed + 1);
        }
    }
  }

  // The m-th is the m-th character when no other character comes before it.
  lemma {:induction false} EndOfIff(parse: CharParser, text: string, m: nat)
    requires m <= CountRead(parse, text)
    ensures m <= |text|
    ensures EndOf(parse, text, m) == m <==> forall k :: 0 <= k < m ==> parse(text[k]).Some?
  {
    if m > 0 {
      if parse(text[0]).Some? {
        EndOfIff(parse, text[1..], m - 1);
        assert forall k :: 1 <= k < m ==> text[k] == text[1..][k - 1];
        assert forall k :: 0 <= k < m - 1 ==> text[1..][k] == text[k + 1];
      } else {
        assert EndOf(parse, text, m) >= m + 1;
      }
    }
  }

  // What follows the third digit, with n read before.
  function AfterThird(parse: CharParser, words: seq<string>, n: nat): seq<string>
    requires n < 3
  {
    if words == [] then []
    else if !HasDigits(words[0]) then AfterThird(parse, words[1..], n)
    else
      var count := n + CountRead(parse, words[0]);
      if count < 3 then AfterThird(parse, words[1..], count)
      else Leftover(words[0], EndOf(parse, words[0], 3 - n)) + words[1..]
  }

  // The word that completes three digits begins with the digits it is read for.
  predicate ThirdInFront(parse: CharParser, words: seq<string>, n: nat)
    requires n < 3
  {
    if words == [] then true
    else if !HasDigits(words[0]) then ThirdInFront(parse, words[1..], n)
    else
      var count := n + CountRead(parse, words[0]);
      if count < 3 then ThirdInFront(parse, words[1..], count)
      else forall k :: 0 <= k < 3 - n && k < |words[0]| ==> parse(words[0][k]).Some?
  }

  lemma LeftoversDiffer(text: string, i: nat, j: nat, tail: seq<string>)
    requires i <= j <= |text|
    ensures Leftover(text, i) + tail == Leftover(text, j) + tail <==> i == j
  {
    var one, other := Leftover(text, i) + tail, Leftover(text, j) + tail;
    if i < j {
      assert one[0] == text[i..] && |one| == 1 + |tail|;
      assert j < |text| ==> other[0] == text[j..];
    }
  }

  // On any words: the code resumes after as many characters of the word as it
  // read digits in it. That is right behind the third digit exactly when the
  // word begins with those digits.
  lemma {:induction false} LeftoverIsExactIff(parse: CharParser, words: seq<string>, value: int, n: nat)
    requires n < 3
    ensures var scan := Scan(parse, words, value, n);
      scan.rest == AfterThird(parse, words, n) <==> ThirdInFront(parse, words, n)
  {
    if words != [] {
      if !HasDigits(words[0]) {
        LeftoverIsExactIff(parse, words[1..], value, n);
      } else {
        ScanTokenCounts(parse, words[0], 0, value, n, 0);
        assert words[0][0..] == words[0];
        match ScanToken(parse, words[0], 0, value, n, 0)
        case More(v, m) => LeftoverIsExactIff(parse, words[1..], v, m);
        case Third(v, c, index) =>
          EndOfIff(parse, words[0], 3 - n);
          LeftoversDiffer(words[0], 3 - n, EndOf(parse, words[0], 3 - n), words[1..]);
      }
    }
  }

  // For example, when letters are not numbers, "x123" is read as 123 but its
  // last digit is left to be read again.
  lemma MixedWordIsReadTwice(parse: CharParser)
    requires Lawful(parse) && parse('x') == None
    ensures Scan(parse, ["x123"], 0, 0) == Scanned(123, 3, ["3"])
  {
    var text := "x123";
    assert IsDigit(text[1]) && IsDigit(text[2]) && IsDigit(text[3]);
    assert ScanToken(parse, text, 3, 12, 2, 2) == Third(123, 3, 3);
    assert ScanToken(parse, text, 1, 0, 0, 0) == Third(123, 3, 3);
    assert ["x123"][1..] == [] && text[3..] == "3";
  }
}
