/**
 * The input parser (expense_calculator.rs lines 45-63): one contribution
 * per line, `name amount`, stopping at the first line that is not of
 * that form.
 */
module Input {
  import opened Wrappers
  import opened Text
  import opened Ledger

  datatype ParseError = IncompleteData | NotANumber

  /**
   * The outcome of reading the lines: all of them, or the contributions
   * read before the first bad line, that line's index and what was wrong.
   */
  datatype ParseOutcome =
    | Parsed(entries: seq<Contribution>)
    | Failed(partial: seq<Contribution>, line: nat, error: ParseError)

  /** One line: exactly two whitespace-separated tokens, the second a number. */
  function ParseLine(line: string): Result<Contribution, ParseError> {
    var parts := Tokens(line);
    if |parts| != 2 then Err(IncompleteData)
    else
      match ParseNumber(parts[1])
      case None => Err(NotANumber)
      case Some(n) => Ok(Contribution(parts[0], n))
  }

  /** The results of the lines in order; the first error ends the reading. */
  function Collect(rs: seq<Result<Contribution, ParseError>>): ParseOutcome
    decreases |rs|
  {
    if rs == [] then Parsed([])
    else
      match Collect(rs[..|rs| - 1])
      case Failed(partial, k, e) => Failed(partial, k, e)
      case Parsed(cs) =>
        match rs[|rs| - 1]
        case Ok(c) => Parsed(cs + [c])
        case Err(e) => Failed(cs, |rs| - 1, e)
  }

  /** What each line reads as, line by line. */
  function LineResults(lines: seq<string>): (rs: seq<Result<Contribution, ParseError>>)
    ensures |rs| == |lines|
    ensures forall i :: 0 <= i < |lines| ==> rs[i] == ParseLine(lines[i])
  {
    seq(|lines|, i requires 0 <= i < |lines| => ParseLine(lines[i]))
  }

  /** `lines` read one by one; the first bad line ends the reading. */
  function ParseLines(lines: seq<string>): ParseOutcome {
    Collect(LineResults(lines))
  }

  function ParseInput(text: string): ParseOutcome {
    ParseLines(Lines(text))
  }

  /**
   * Collecting succeeds exactly when every result is good, and then gives
   * one contribution per result, in order.
   */
  lemma {:induction false} CollectedExactly(rs: seq<Result<Contribution, ParseError>>)
    ensures Collect(rs).Parsed? <==> forall i :: 0 <= i < |rs| ==> rs[i].Ok?
    ensures Collect(rs).Parsed? ==>
      |Collect(rs).entries| == |rs| &&
      forall i :: 0 <= i < |rs| ==> Collect(rs).entries[i] == rs[i].value
    decreases |rs|
  {
    if rs != [] {
      var init := rs[..|rs| - 1];
      CollectedExactly(init);
      assert forall i :: 0 <= i < |init| ==> init[i] == rs[i];
    }
  }

  /** A failure names the first error and keeps the contributions before it. */
  lemma {:induction false} FailedAtFirstError(rs: seq<Result<Contribution, ParseError>>)
    ensures Collect(rs).Failed? ==>
      var f := Collect(rs);
      f.line < |rs| &&
      rs[f.line] == Err(f.error) &&
      (forall i :: 0 <= i < f.line ==> rs[i].Ok?) &&
      |f.partial| == f.line &&
      (forall i :: 0 <= i < f.line ==> f.partial[i] == rs[i].value)
    decreases |rs|
  {
    if rs != [] {
      var init := rs[..|rs| - 1];
      FailedAtFirstError(init);
      CollectedExactly(init);
      assert forall i :: 0 <= i < |init| ==> init[i] == rs[i];
    }
  }

  /**
   * Reading succeeds exactly when every line has two tokens and a numeric
   * second token, and then gives one contribution per line, in line order.
   */
  lemma ParsedExactly(lines: seq<string>)
    ensures ParseLines(lines).Parsed? <==> forall i :: 0 <= i < |lines| ==> ParseLine(lines[i]).Ok?
    ensures ParseLines(lines).Parsed? ==>
      |ParseLines(lines).entries| == |lines| &&
      forall i :: 0 <= i < |lines| ==> ParseLines(lines).entries[i] == ParseLine(lines[i]).value
  {
    var rs := LineResults(lines);
    CollectedExactly(rs);
    assert (forall i :: 0 <= i < |rs| ==> rs[i].Ok?) <==>
      (forall i :: 0 <= i < |lines| ==> ParseLine(lines[i]).Ok?);
  }

  /**
   * A failure names the first bad line and what was wrong with it, and
   * keeps the contributions of all the lines before it.
   */
  lemma FailedAtFirstBadLine(lines: seq<string>)
    ensures ParseLines(lines).Failed? ==>
      var f := ParseLines(lines);
      f.line < |lines| &&
      ParseLine(lines[f.line]) == Err(f.error) &&
      (forall i :: 0 <= i < f.line ==> ParseLine(lines[i]).Ok?) &&
      |f.partial| == f.line &&
      (forall i :: 0 <= i < f.line ==> f.partial[i] == ParseLine(lines[i]).value)
  {
    var rs := LineResults(lines);
    FailedAtFirstError(rs);
  }

  /** Once a prefix of the results fails, the whole reading fails the same way. */
  lemma {:induction false} FailureIsFinal(rs: seq<Result<Contribution, ParseError>>, k: nat)
    requires k <= |rs| && Collect(rs[..k]).Failed?
    ensures Collect(rs) == Collect(rs[..k])
    decreases |rs| - k
  {
    if k < |rs| {
      assert rs[..k + 1][..k] == rs[..k];
      FailureIsFinal(rs, k + 1);
    } else {
      assert rs[..k] == rs;
    }
  }

  /** Reading one more line: a good line adds its contribution, a bad one ends the reading there. */
  lemma ParseLinesStep(lines: seq<string>, i: nat)
    requires i < |lines| && ParseLines(lines[..i]).Parsed?
    ensures ParseLine(lines[i]).Ok? ==>
      ParseLines(lines[..i + 1]) == Parsed(ParseLines(lines[..i]).entries + [ParseLine(lines[i]).value])
    ensures ParseLine(lines[i]).Err? ==>
      ParseLines(lines[..i + 1]) == Failed(ParseLines(lines[..i]).entries, i, ParseLine(lines[i]).error)
  {
    var rs := LineResults(lines[..i + 1]);
    assert rs[..i] == LineResults(lines[..i]);
  }

  /** After the first bad line the rest of the text is not read. */
  lemma ParseLinesStopsAt(lines: seq<string>, k: nat)
    requires k <= |lines| && ParseLines(lines[..k]).Failed?
    ensures ParseLines(lines) == ParseLines(lines[..k])
  {
    var rs := LineResults(lines);
    assert rs[..k] == LineResults(lines[..k]);
    FailureIsFinal(rs, k);
  }

  /** A line that is empty, or only whitespace, is incomplete data. */
  lemma BlankLineIsIncomplete(line: string)
    requires forall i :: 0 <= i < |line| ==> IsWhitespace(line[i])
    ensures ParseLine(line) == Err(IncompleteData)
  {
    assert WhitespaceRun(line) == |line|;
  }

  /** Round trip: a name and a numeral with a space between read back as that contribution. */
  lemma ParseLineRoundTrip(name: string, token: string, amount: real)
    requires IsWord(name) && IsWord(token) && ParseNumber(token) == Some(amount)
    ensures ParseLine(name + " " + token) == Ok(Contribution(name, amount))
  {
    TokensUnwords([name, token]);
    assert Unwords([name, token]) == name + " " + token;
  }

  /** The line `name amount` for a whole amount. */
  function EntryLine(name: string, amount: nat): string {
    name + " " + Numeral(amount)
  }

  function EntryLines(names: seq<string>, amounts: seq<nat>): seq<string>
    requires |names| == |amounts|
    decreases |names|
  {
    if names == [] then [] else [EntryLine(names[0], amounts[0])] + EntryLines(names[1..], amounts[1..])
  }

  function Entries(names: seq<string>, amounts: seq<nat>): seq<Contribution>
    requires |names| == |amounts|
    decreases |names|
  {
    if names == [] then [] else [Contribution(names[0], amounts[0] as real)] + Entries(names[1..], amounts[1..])
  }

  /** Round trip: whole amounts written one `name amount` line each read back as those contributions. */
  lemma ParseInputRoundTrip(names: seq<string>, amounts: seq<nat>)
    requires |names| == |amounts|
    requires forall i :: 0 <= i < |names| ==> IsWord(names[i])
    ensures ParseInput(Unlines(EntryLines(names, amounts))) == Parsed(Entries(names, amounts))
  {
    var lines := EntryLines(names, amounts);
    var es := Entries(names, amounts);
    EntryLinesAt(names, amounts);
    forall i | 0 <= i < |lines| ensures IsLine(lines[i]) && ParseLine(lines[i]) == Ok(es[i]) {
      EntryLineReads(names[i], amounts[i]);
    }
    LinesUnlines(lines);
    ParsedExactly(lines);
  }

  /** One written line is a line, and reads back as its contribution. */
  lemma EntryLineReads(name: string, amount: nat)
    requires IsWord(name)
    ensures IsLine(EntryLine(name, amount))
    ensures ParseLine(EntryLine(name, amount)) == Ok(Contribution(name, amount as real))
  {
    EntryLineIsLine(name, amount);
    NumeralParses(amount);
    NumeralDigits(amount);
    ParseLineRoundTrip(name, Numeral(amount), amount as real);
  }

  lemma {:induction false} EntryLinesAt(names: seq<string>, amounts: seq<nat>)
    requires |names| == |amounts|
    ensures |EntryLines(names, amounts)| == |Entries(names, amounts)| == |names|
    ensures forall i :: 0 <= i < |names| ==>
      EntryLines(names, amounts)[i] == EntryLine(names[i], amounts[i]) &&
      Entries(names, amounts)[i] == Contribution(names[i], amounts[i] as real)
    decreases |names|
  {
    if names != [] {
      EntryLinesAt(names[1..], amounts[1..]);
    }
  }

  lemma EntryLineIsLine(name: string, amount: nat)
    requires IsWord(name)
    ensures IsLine(EntryLine(name, amount))
  {
    NumeralDigits(amount);
    var line := EntryLine(name, amount);
    assert forall i :: 0 <= i < |line| ==> line[i] != '\n' by {
      forall i | 0 <= i < |line| ensures line[i] != '\n' {
        if i < |name| {
          assert line[i] == name[i];
        } else if i > |name| {
          assert line[i] == Numeral(amount)[i - |name| - 1];
        }
      }
    }
    assert line[|line| - 1] == Numeral(amount)[|Numeral(amount)| - 1];
  }
}
