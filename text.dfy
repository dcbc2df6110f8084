/**
 * The text primitives the input parser relies on: Rust's `str::lines`,
 * `str::split_whitespace` and `str::parse::<f32>`, the last one read over
 * exact decimals.
 */
module Text {
  import opened Wrappers

  // ---------------------------------------------------------------------
  // Characters
  // ---------------------------------------------------------------------

  /** Rust's `char::is_whitespace`: the characters with the Unicode White_Space property. */
  predicate IsWhitespace(ch: char) {
    ('\t' <= ch <= '\r') || ch == ' ' || ch == '\U{0085}' || ch == '\U{00A0}' ||
    ch == '\U{1680}' || ('\U{2000}' <= ch <= '\U{200A}') || ch == '\U{2028}' ||
    ch == '\U{2029}' || ch == '\U{202F}' || ch == '\U{205F}' || ch == '\U{3000}'
  }

  predicate IsDigit(ch: char) {
    '0' <= ch <= '9'
  }

  predicate AllDigits(s: string) {
    forall i :: 0 <= i < |s| ==> IsDigit(s[i])
  }

  /** Index of the first character of `s` that lies in `stops`, or `|s|` when there is none. */
  function FirstIndexIn(s: string, stops: set<char>): (k: nat)
    ensures k <= |s|
    ensures forall i :: 0 <= i < k ==> s[i] !in stops
    ensures k < |s| ==> s[k] in stops
  {
    if s == [] || s[0] in stops then 0 else 1 + FirstIndexIn(s[1..], stops)
  }

  // ---------------------------------------------------------------------
  // str::lines
  // ---------------------------------------------------------------------

  function StripCarriageReturn(line: string): string {
    if |line| > 0 && line[|line| - 1] == '\r' then line[..|line| - 1] else line
  }

  /**
   * `str::lines`: the text is cut at every "\n"; a "\r" just before it
   * is dropped with it; the final line needs no terminator, so a trailing
   * "\n" adds no empty line, while "\n\n" in the middle does give one.
   */
  function Lines(s: string): seq<string>
    decreases |s|
  {
    if s == [] then []
    else
      var k := FirstIndexIn(s, {'\n'});
      if k == |s| then [s] else [StripCarriageReturn(s[..k])] + Lines(s[k + 1..])
  }

  /** Every line followed by its own "\n": the text `Lines` reads back. */
  function Unlines(lines: seq<string>): string {
    if lines == [] then "" else lines[0] + "\n" + Unlines(lines[1..])
  }

  predicate IsLine(line: string) {
    '\n' !in line && (|line| > 0 ==> line[|line| - 1] != '\r')
  }

  lemma {:induction false} LinesUnlines(lines: seq<string>)
    requires forall i :: 0 <= i < |lines| ==> IsLine(lines[i])
    ensures Lines(Unlines(lines)) == lines
  {
    if lines != [] {
      var l, rest := lines[0], Unlines(lines[1..]);
      var s := l + "\n" + rest;
      assert s == Unlines(lines);
      assert s[..|l|] == l;
      FirstIndexInPrefix(s, |l|, {'\n'});
      assert s[|l| + 1..] == rest;
      LinesAt(s, |l|);
      LinesUnlines(lines[1..]);
      assert lines == [lines[0]] + lines[1..];
    }
  }

  /** When the first line feed is at `k`, the first line ends there and the rest follows it. */
  lemma LinesAt(s: string, k: nat)
    requires k < |s| && FirstIndexIn(s, {'\n'}) == k
    ensures Lines(s) == [StripCarriageReturn(s[..k])] + Lines(s[k + 1..])
  {
  }

  /** `FirstIndexIn` finds the first stop character: the one at `k` when none comes earlier. */
  lemma {:induction false} FirstIndexInPrefix(s: string, k: nat, stops: set<char>)
    requires k < |s| && s[k] in stops
    requires forall i :: 0 <= i < k ==> s[i] !in stops
    ensures FirstIndexIn(s, stops) == k
  {
    if k > 0 {
      FirstIndexInPrefix(s[1..], k - 1, stops);
    }
  }

  /** No line that `Lines` returns holds a line feed. */
  lemma {:induction false} LinesHaveNoLineFeed(s: string)
    ensures forall i :: 0 <= i < |Lines(s)| ==> '\n' !in Lines(s)[i]
    decreases |s|
  {
    if s != [] {
      var k := FirstIndexIn(s, {'\n'});
      if k < |s| {
        LinesHaveNoLineFeed(s[k + 1..]);
        var head := StripCarriageReturn(s[..k]);
        assert forall i :: 0 <= i < |head| ==> head[i] == s[i];
      } else {
        assert forall i :: 0 <= i < |s| ==> s[i] != '\n';
      }
    }
  }

  // ---------------------------------------------------------------------
  // str::split_whitespace
  // ---------------------------------------------------------------------

  /** Length of the run of whitespace that `s` starts with. */
  function WhitespaceRun(s: string): (n: nat)
    ensures n <= |s|
    ensures forall i :: 0 <= i < n ==> IsWhitespace(s[i])
    ensures n < |s| ==> !IsWhitespace(s[n])
  {
    if s == [] || !IsWhitespace(s[0]) then 0 else 1 + WhitespaceRun(s[1..])
  }

  /** Length of the run of non-whitespace characters that `s` starts with. */
  function WordRun(s: string): (n: nat)
    ensures n <= |s|
    ensures forall i :: 0 <= i < n ==> !IsWhitespace(s[i])
    ensures n < |s| ==> IsWhitespace(s[n])
  {
    if s == [] || IsWhitespace(s[0]) then 0 else 1 + WordRun(s[1..])
  }

  /** `str::split_whitespace`: the maximal runs of non-whitespace characters, in order. */
  function Tokens(s: string): seq<string>
    decreases |s|
  {
    var a := WhitespaceRun(s);
    if a == |s| then []
    else
      var b := a + WordRun(s[a..]);
      [s[a..b]] + Tokens(s[b..])
  }

  predicate IsWord(w: string) {
    |w| > 0 && forall i :: 0 <= i < |w| ==> !IsWhitespace(w[i])
  }

  /** The words with one space between each two. */
  function Unwords(words: seq<string>): string {
    if words == [] then ""
    else if |words| == 1 then words[0]
    else words[0] + " " + Unwords(words[1..])
  }

  /** Every token is non-empty and holds no whitespace. */
  lemma {:induction false} TokensAreWords(s: string)
    ensures forall i :: 0 <= i < |Tokens(s)| ==> IsWord(Tokens(s)[i])
    decreases |s|
  {
    var a := WhitespaceRun(s);
    if a < |s| {
      var b := a + WordRun(s[a..]);
      TokensAreWords(s[b..]);
      assert forall i :: 0 <= i < b - a ==> s[a..b][i] == s[a..][i];
    }
  }

  /** A leading space does not change the tokens. */
  lemma TokensAfterSpace(rest: string)
    ensures Tokens(" " + rest) == Tokens(rest)
  {
    var s := " " + rest;
    assert s[1..] == rest;
    var a := WhitespaceRun(s);
    assert a == 1 + WhitespaceRun(rest);
    assert s[a..] == rest[a - 1..];
    TokensShift(s, rest, a);
  }

  /** Two texts that agree after their leading whitespace have the same tokens. */
  lemma TokensShift(s: string, t: string, a: nat)
    requires a == WhitespaceRun(s) && a >= 1 && a - 1 == WhitespaceRun(t)
    requires |t| == |s| - 1 && s[a..] == t[a - 1..]
    ensures Tokens(s) == Tokens(t)
  {
    if a < |s| {
      var b := a + WordRun(s[a..]);
      assert s[a..b] == t[a - 1..b - 1];
      assert s[b..] == t[b - 1..];
    }
  }

  lemma {:induction false} WordRunOfWord(w: string, rest: string)
    requires IsWord(w)
    ensures WordRun(w + " " + rest) == |w|
    decreases |w|
  {
    var s := w + " " + rest;
    if |w| > 1 {
      assert s[1..] == w[1..] + " " + rest;
      WordRunOfWord(w[1..], rest);
    } else {
      assert s[1..] == " " + rest;
    }
  }

  lemma {:induction false} WordRunOfWholeWord(w: string)
    requires IsWord(w)
    ensures WordRun(w) == |w|
    decreases |w|
  {
    if |w| > 1 {
      WordRunOfWholeWord(w[1..]);
    }
  }

  lemma TokensOfWord(w: string)
    requires IsWord(w)
    ensures Tokens(w) == [w]
  {
    assert WhitespaceRun(w) == 0;
    WordRunOfWholeWord(w);
    assert w[0..|w|] == w;
    assert Tokens(w[|w|..]) == [];
  }

  lemma TokensOfWordThenRest(w: string, rest: string)
    requires IsWord(w)
    ensures Tokens(w + " " + rest) == [w] + Tokens(rest)
  {
    var s := w + " " + rest;
    assert WhitespaceRun(s) == 0;
    WordRunOfWord(w, rest);
    assert s[..|w|] == w;
    assert s[|w|..] == " " + rest;
    TokensOfFirstWord(s, |w|);
    TokensAfterSpace(rest);
  }

  /** A text that starts with a word of length `k` has that word as its first token. */
  lemma TokensOfFirstWord(s: string, k: nat)
    requires WhitespaceRun(s) == 0 && 0 < k <= |s| && WordRun(s) == k
    ensures Tokens(s) == [s[..k]] + Tokens(s[k..])
  {
    assert s[0..] == s;
  }

  /** Round trip: words separated by single spaces split back into the same words. */
  lemma {:induction false} TokensUnwords(words: seq<string>)
    requires forall i :: 0 <= i < |words| ==> IsWord(words[i])
    ensures Tokens(Unwords(words)) == words
  {
    if |words| == 1 {
      TokensOfWord(words[0]);
    } else if words != [] {
      TokensOfWordThenRest(words[0], Unwords(words[1..]));
      TokensUnwords(words[1..]);
      assert words == [words[0]] + words[1..];
    }
  }

  // ---------------------------------------------------------------------
  // str::parse::<f32>, over exact decimals
  // ---------------------------------------------------------------------

  /** The value of a decimal digit (0 for any other character, which callers rule out). */
  function DigitValue(ch: char): nat {
    if IsDigit(ch) then ch as int - '0' as int else 0
  }

  /** The value of a string of decimal digits; the empty string reads as 0. */
  function DigitsValue(s: string): nat
    decreases |s|
  {
    if s == [] then 0 else 10 * DigitsValue(s[..|s| - 1]) + DigitValue(s[|s| - 1])
  }

  /** The value of the digits after a decimal point: "25" reads as 0.25. */
  function FractionValue(digits: string): real
    decreases |digits|
  {
    if digits == [] then 0.0 else (DigitValue(digits[0]) as real + FractionValue(digits[1..])) / 10.0
  }

  /** 10 raised to a possibly negative exponent. */
  function Scale(e: int): real
    decreases if e < 0 then -e else e
  {
    if e == 0 then 1.0 else if e > 0 then 10.0 * Scale(e - 1) else Scale(e + 1) / 10.0
  }

  /** Digits with an optional '.': "12", "12.", ".5" and "12.5", but not "." alone. */
  function ParseMantissa(m: string): Option<real> {
    var p := FirstIndexIn(m, {'.'});
    if p < |m| then DecimalParts(m[..p], m[p + 1..]) else DecimalParts(m, "")
  }

  /** The digits before and after the point; at least one of the two must be present. */
  function DecimalParts(whole: string, fraction: string): Option<real> {
    if AllDigits(whole) && AllDigits(fraction) && |whole| + |fraction| > 0 then
      Some(DigitsValue(whole) as real + FractionValue(fraction))
    else
      None
  }

  /** An exponent: an optional sign followed by at least one digit. */
  function ParseExponent(x: string): Option<int> {
    if |x| > 0 && (x[0] == '+' || x[0] == '-') then
      var digits := x[1..];
      if |digits| > 0 && AllDigits(digits) then
        var magnitude: int := DigitsValue(digits);
        Some(if x[0] == '-' then -magnitude else magnitude)
      else
        None
    else if |x| > 0 && AllDigits(x) then
      Some(DigitsValue(x))
    else
      None
  }

  function ParseUnsigned(u: string): Option<real> {
    var e := FirstIndexIn(u, {'e', 'E'});
    match ParseMantissa(u[..e])
    case None => None
    case Some(m) =>
      if e == |u| then Some(m)
      else
        match ParseExponent(u[e + 1..])
        case None => None
        case Some(x) => Some(m * Scale(x))
  }

  /**
   * The decimal part of `str::parse::<f32>`: an optional sign, a mantissa
   * and an optional exponent ("-12.5", "+3", ".5", "1e3", "2.5E-2"),
   * read exactly.
   */
  function ParseNumber(token: string): Option<real> {
    if |token| > 0 && (token[0] == '+' || token[0] == '-') then
      match ParseUnsigned(token[1..])
      case None => None
      case Some(v) => Some(if token[0] == '-' then -v else v)
    else
      ParseUnsigned(token)
  }

  function DigitChar(d: nat): (ch: char)
    requires d < 10
    ensures IsDigit(ch) && DigitValue(ch) == d
  {
    ('0' as int + d) as char
  }

  /** The decimal numeral of `n`, without leading zeros. */
  function Numeral(n: nat): string
    decreases n
  {
    if n < 10 then [DigitChar(n)] else Numeral(n / 10) + [DigitChar(n % 10)]
  }

  lemma {:induction false} NumeralDigits(n: nat)
    ensures |Numeral(n)| > 0 && AllDigits(Numeral(n))
    ensures DigitsValue(Numeral(n)) == n
    decreases n
  {
    if n >= 10 {
      NumeralDigits(n / 10);
      var s := Numeral(n);
      assert s[..|s| - 1] == Numeral(n / 10);
    }
  }

  lemma {:induction false} NoStopsFound(s: string, stops: set<char>)
    requires forall i :: 0 <= i < |s| ==> s[i] !in stops
    ensures FirstIndexIn(s, stops) == |s|
  {
    if s != [] {
      NoStopsFound(s[1..], stops);
    }
  }

  /** Without an 'e' or 'E', a token is read as its mantissa alone. */
  lemma WithoutExponent(u: string)
    requires forall i :: 0 <= i < |u| ==> u[i] != 'e' && u[i] != 'E'
    ensures ParseUnsigned(u) == ParseMantissa(u)
  {
    NoStopsFound(u, {'e', 'E'});
    assert u[..|u|] == u;
  }

  /** A token that starts with a digit carries no sign. */
  lemma UnsignedToken(token: string)
    requires |token| > 0 && IsDigit(token[0])
    ensures ParseNumber(token) == ParseUnsigned(token)
  {
  }

  lemma MantissaWithPoint(whole: string, fraction: string)
    requires AllDigits(whole) && AllDigits(fraction) && |whole| > 0
    ensures ParseMantissa(whole + "." + fraction)
         == Some(DigitsValue(whole) as real + FractionValue(fraction))
  {
    var m, p := whole + "." + fraction, |whole|;
    assert m[..p] == whole;
    assert m[p + 1..] == fraction;
    FirstIndexInPrefix(m, p, {'.'});
    assert ParseMantissa(m) == DecimalParts(whole, fraction);
  }

  lemma MantissaWithoutPoint(whole: string)
    requires AllDigits(whole) && |whole| > 0
    ensures ParseMantissa(whole) == Some(DigitsValue(whole) as real)
  {
    NoStopsFound(whole, {'.'});
    assert whole[..|whole|] == whole;
  }

  /** A numeral with a decimal point reads as its whole part plus its fraction. */
  lemma DecimalValue(whole: string, fraction: string)
    requires AllDigits(whole) && AllDigits(fraction) && |whole| > 0
    ensures ParseNumber(whole + "." + fraction)
         == Some(DigitsValue(whole) as real + FractionValue(fraction))
  {
    var s := whole + "." + fraction;
    assert s[0] == whole[0];
    UnsignedToken(s);
    assert forall i :: 0 <= i < |s| ==> s[i] == '.' || IsDigit(s[i]);
    WithoutExponent(s);
    MantissaWithPoint(whole, fraction);
  }

  /** Round trip: the decimal numeral of a natural number reads back as that number. */
  lemma NumeralParses(n: nat)
    ensures ParseNumber(Numeral(n)) == Some(n as real)
    ensures ParseNumber("-" + Numeral(n)) == Some(-(n as real))
  {
    NumeralDigits(n);
    var s := Numeral(n);
    UnsignedToken(s);
    WithoutExponent(s);
    MantissaWithoutPoint(s);
    assert ParseUnsigned(s) == Some(n as real);
    assert ("-" + s)[1..] == s;
  }
}
