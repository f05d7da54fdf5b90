/**
 Splitting text into words and joining it again, and decimal numerals: the
 behaviour of strings.Fields, strings.Join, strconv.Itoa and strconv.Atoi.
 Letters and digits are single characters; only the ASCII digits are digits.
 */
module Words {

  import opened Basics

  predicate IsDigit(c: char) {
    '0' <= c <= '9'
  }

  // unicode.IsSpace
  predicate IsSpace(c: char) {
    var n := c as int;
    || 9 <= n <= 13 || n == 32 || n == 0x85 || n == 0xA0 || n == 0x1680
    || 0x2000 <= n <= 0x200A || n == 0x2028 || n == 0x2029 || n == 0x202F
    || n == 0x205F || n == 0x3000
  }

  predicate NoSpace(s: string) {
    forall i :: 0 <= i < |s| ==> !IsSpace(s[i])
  }

  // A word: what Fields can return.
  predicate IsWord(s: string) {
    s != "" && NoSpace(s)
  }

  predicate AllWords(ws: seq<string>) {
    forall i :: 0 <= i < |ws| ==> IsWord(ws[i])
  }

  predicate AllDigits(s: string) {
    forall i :: 0 <= i < |s| ==> IsDigit(s[i])
  }

  predicate HasDigits(s: string) {
    exists i :: 0 <= i < |s| && IsDigit(s[i])
  }

  // The length of the word at the front of `s`.
  function WordLength(s: string): (n: nat)
    ensures n <= |s|
    ensures forall i :: 0 <= i < n ==> !IsSpace(s[i])
    ensures n < |s| ==> IsSpace(s[n])
  {
    if s == "" || IsSpace(s[0]) then 0 else 1 + WordLength(s[1..])
  }

  // strings.Fields
  function Fields(s: string): (ws: seq<string>)
    decreases |s|
  {
    if s == "" then []
    else if IsSpace(s[0]) then Fields(s[1..])
    else
      var n := WordLength(s);
      [s[..n]] + Fields(s[n..])
  }

  // strings.Join(ws, " ")
  function Join(ws: seq<string>): string {
    if |ws| == 0 then ""
    else if |ws| == 1 then ws[0]
    else ws[0] + " " + Join(ws[1..])
  }

  lemma {:induction false} FieldsAreWords(s: string)
    ensures AllWords(Fields(s))
    decreases |s|
  {
    if s != "" {
      if IsSpace(s[0]) {
        FieldsAreWords(s[1..]);
      } else {
        FieldsAreWords(s[WordLength(s)..]);
      }
    }
  }

  lemma {:induction false} WordLengthOfPrefix(w: string, rest: string)
    requires NoSpace(w) && (rest != "" ==> IsSpace(rest[0]))
    ensures WordLength(w + rest) == |w|
  {
    if w == "" {
      assert w + rest == rest;
    } else {
      assert (w + rest)[1..] == w[1..] + rest;
      WordLengthOfPrefix(w[1..], rest);
    }
  }

  // A word in front, a space, then anything.
  lemma FieldsOfWordThenRest(w: string, rest: string)
    requires IsWord(w)
    ensures Fields(w + " " + rest) == [w] + Fields(rest)
    ensures Fields(w) == [w]
  {
    var s := w + " " + rest;
    assert s == w + (" " + rest);
    WordLengthOfPrefix(w, " " + rest);
    assert s[..|w|] == w && s[|w|..] == " " + rest;
    assert (" " + rest)[1..] == rest;
    WordLengthOfPrefix(w, "");
    assert w + "" == w && w[..|w|] == w && w[|w|..] == "";
  }

  // Splitting undoes joining.
  lemma {:induction false} FieldsOfJoin(ws: seq<string>)
    requires AllWords(ws)
    ensures Fields(Join(ws)) == ws
  {
    if |ws| == 1 {
      FieldsOfWordThenRest(ws[0], "");
    } else if |ws| > 1 {
      FieldsOfJoin(ws[1..]);
      FieldsOfWordThenRest(ws[0], Join(ws[1..]));
    }
  }

  lemma {:induction false} JoinAppends(ws: seq<string>, vs: seq<string>)
    requires ws != [] && vs != []
    ensures Join(ws + vs) == Join(ws) + " " + Join(vs)
  {
    if |ws| == 1 {
      assert (ws + vs)[1..] == vs;
    } else {
      assert (ws + vs)[1..] == ws[1..] + vs;
      JoinAppends(ws[1..], vs);
      assert Join(ws + vs) == ws[0] + " " + (Join(ws[1..]) + " " + Join(vs));
    }
  }

  // ---- Numerals -------------------------------------------------------------

  function DigitValue(c: char): int {
    c as int - '0' as int
  }

  function DigitChar(d: nat): (c: char)
    requires d < 10
    ensures IsDigit(c) && DigitValue(c) == d
  {
    '0' + d as char
  }

  // Reading on: the digits of `s` behind a number already read.
  function ReadFrom(n: int, s: string): (r: int)
    ensures n >= 0 && AllDigits(s) ==> r >= 0
  {
    if s == "" then n else 10 * ReadFrom(n, s[..|s| - 1]) + DigitValue(s[|s| - 1])
  }

  // The number written by a string of digits; "" reads as 0.
  function ReadDigits(s: string): int {
    ReadFrom(0, s)
  }

  lemma {:induction false} ReadFromAppend(n: int, s: string, t: string)
    ensures ReadFrom(n, s + t) == ReadFrom(ReadFrom(n, s), t)
  {
    if t == "" {
      assert s + t == s;
    } else {
      assert (s + t)[..|s + t| - 1] == s + t[..|t| - 1];
      ReadFromAppend(n, s, t[..|t| - 1]);
    }
  }

  lemma ReadFromOne(n: int, c: char)
    ensures ReadFrom(n, [c]) == 10 * n + DigitValue(c)
  {
    assert [c][..0] == "";
  }

  // strconv.Itoa for a non-negative number.
  function Itoa(n: nat): (s: string)
    ensures s != "" && AllDigits(s) && NoSpace(s)
  {
    if n < 10 then [DigitChar(n)] else Itoa(n / 10) + [DigitChar(n % 10)]
  }

  lemma {:induction false} ReadItoa(n: nat)
    ensures ReadDigits(Itoa(n)) == n
  {
    if n < 10 {
      ReadFromOne(0, DigitChar(n));
    } else {
      ReadItoa(n / 10);
      ReadFromAppend(0, Itoa(n / 10), [DigitChar(n % 10)]);
      ReadFromOne(n / 10, DigitChar(n % 10));
    }
  }

  lemma LeadingZero(s: string)
    requires AllDigits(s)
    ensures AllDigits("0" + s) && ReadDigits("0" + s) == ReadDigits(s)
  {
    ReadFromOne(0, '0');
    ReadFromAppend(0, "0", s);
  }

  const MAX_INT: int := 0x7FFF_FFFF_FFFF_FFFF

  // strconv.Atoi: an optional sign and digits, within 64 bits.
  function Atoi(s: string): (r: Option<int>)
    ensures r.Some? ==> -MAX_INT - 1 <= r.value <= MAX_INT
  {
    var digits := if s != "" && (s[0] == '+' || s[0] == '-') then s[1..] else s;
    if digits == "" || !AllDigits(digits) then None
    else
      var n: int := ReadDigits(digits);
      if s[0] == '-' then (if n <= MAX_INT + 1 then Some(-n) else None)
      else if n <= MAX_INT then Some(n) else None
  }

  lemma AtoiOfItoa(n: nat)
    ensures Atoi(Itoa(n)) == if n <= MAX_INT then Some(n) else None
  {
    ReadItoa(n);
    assert IsDigit(Itoa(n)[0]);
  }
}
