/**
 What the report parser does with each kind of line, and with whole runs
 of lines, stated over the step function that the parsing loop is proved
 to follow.
 */
module MutmutToJsonProperties {
  import opened Wrappers
  import opened Strings
  import opened IntLiteral
  import opened HeaderPattern
  import opened MutmutToJson

  // Which branch of the step a stripped line takes.

  lemma StepOnSection(st: ParserState, raw: string)
    requires Valid(st) && SectionOf(Strip(raw)).Some?
    ensures StepLine(st, raw) == Ok(st.(section := SectionOf(Strip(raw))))
  {
  }

  lemma StepOnDashes(st: ParserState, raw: string)
    requires Valid(st) && SectionOf(Strip(raw)).None? && "----" <= Strip(raw)
    ensures StepLine(st, raw) == HeaderStep(st, Strip(raw))
  {
  }

  lemma StepOnOther(st: ParserState, raw: string)
    requires Valid(st) && Strip(raw) != [] && SectionOf(Strip(raw)).None? && !("----" <= Strip(raw))
    ensures StepLine(st, raw) == MutationStep(st, Strip(raw))
  {
  }

  /** A line that is empty after stripping changes nothing. */
  lemma BlankLineChangesNothing(st: ParserState, raw: string)
    requires Valid(st) && AllSpace(raw)
    ensures StepLine(st, raw) == Ok(st)
  {
    assert raw + [] + [] == raw;
    StripPadded(raw, [], []);
  }

  lemma TitleIsWord(key: string)
    requires key in SectionKeys
    ensures var w := SectionTitle(key); w != [] && !IsSpace(w[0]) && !IsSpace(w[|w| - 1])
  {
  }

  lemma SectionOfTitle(key: string, line: string)
    requires key in SectionKeys && SectionTitle(key) <= line
    ensures SectionOf(line) == Some(key)
  {
    var title := SectionTitle(key);
    assert line[..|title|] == title;
    if key == "survived" {
    } else if key == "killed" {
      assert line[0] == 'K';
    } else if key == "timeout" {
      assert line[0] == 'T';
    } else {
      assert line[0] == 'S' && line[1] == 'k';
    }
  }

  /**
   A line whose stripped text starts with a section title only switches the
   current section: no entry is added or extended and the current file stays
   what it was. This check comes before the file-header and mutation checks.
   */
  lemma SectionHeaderOnlySwitches(st: ParserState, key: string, pad: string, rest: string)
    requires Valid(st) && key in SectionKeys && AllSpace(pad)
    ensures StepLine(st, pad + SectionTitle(key) + rest) == Ok(ParserState(st.data, Some(key), st.current))
  {
    var title := SectionTitle(key);
    TitleIsWord(key);
    StripKeepsWord(pad, title, rest);
    SectionOfTitle(key, Strip(pad + title + rest));
    StepOnSection(st, pad + title + rest);
  }

  /** The header line `---- F (N) ----`. */
  function HeaderLine(file: string, count: string): (line: string)
    ensures |line| >= 4 && line[0] == '-' && line[|line| - 1] == '-' && line[..4] == "----"
  {
    var line := Lead + file + Mid + count + Tail;
    assert line == Lead + (file + Mid + count + Tail);
    assert line == (Lead + file + Mid + count) + Tail;
    line
  }

  lemma DashLineIsStripped(line: string)
    requires |line| >= 4 && line[0] == '-' && line[|line| - 1] == '-'
    ensures Strip(line) == line
  {
    StripUnpadded(line);
  }

  lemma DashLineIsNoSection(line: string)
    requires |line| >= 4 && line[0] == '-' && line[..4] == "----"
    ensures SectionOf(line).None? && "----" <= line
  {
  }

  lemma StepOnHeaderLine(st: ParserState, file: string, count: string)
    requires Valid(st)
    ensures StepLine(st, HeaderLine(file, count)) == HeaderStep(st, HeaderLine(file, count))
  {
    var line := HeaderLine(file, count);
    DashLineIsStripped(line);
    DashLineIsNoSection(line);
    StepOnDashes(st, line);
  }

  lemma SearchHeaderLine(file: string, count: string)
    requires forall k: nat :: !Occurs(file, Mid, k)
    requires forall k: nat :: !Occurs(count, Tail, k)
    ensures Search(HeaderLine(file, count)) == Some(HeaderMatch(0, file, count))
  {
    SearchExactHeader(file, count);
  }

  /**
   A header `---- F (N) ----` (F without " (", N without ") ----") under a
   section appends exactly one entry `{file: F, count: int(N), mutations: []}`
   at the end of that section's list and makes it the current file.
   */
  lemma FileHeaderAppendsEntry(st: ParserState, file: string, count: string, c: int)
    requires Valid(st) && st.section.Some?
    requires forall k: nat :: !Occurs(file, Mid, k)
    requires forall k: nat :: !Occurs(count, Tail, k)
    requires ParseInt(count) == Some(c)
    ensures var s := st.section.value;
      StepLine(st, HeaderLine(file, count))
        == Ok(ParserState(st.data[s := st.data[s] + [Entry(file, c, [])]], st.section, Some(FileRef(s, |st.data[s]|))))
  {
    StepOnHeaderLine(st, file, count);
    SearchHeaderLine(file, count);
  }

  /** The same header before any section header raises `KeyError` (`data[None]`). */
  lemma FileHeaderBeforeSectionFails(st: ParserState, file: string, count: string)
    requires Valid(st) && st.section.None?
    requires forall k: nat :: !Occurs(file, Mid, k)
    requires forall k: nat :: !Occurs(count, Tail, k)
    requires ParseInt(count).Some?
    ensures StepLine(st, HeaderLine(file, count)) == Err(KeyError)
  {
    StepOnHeaderLine(st, file, count);
    SearchHeaderLine(file, count);
  }

  /** A header whose count `int()` refuses raises `ValueError`, with or without a section. */
  lemma FileHeaderBadCountFails(st: ParserState, file: string, count: string)
    requires Valid(st)
    requires forall k: nat :: !Occurs(file, Mid, k)
    requires forall k: nat :: !Occurs(count, Tail, k)
    requires ParseInt(count).None?
    ensures StepLine(st, HeaderLine(file, count)) == Err(ValueError)
  {
    StepOnHeaderLine(st, file, count);
    SearchHeaderLine(file, count);
  }

  /** A `----` line that the header pattern does not match changes nothing. */
  lemma UnmatchedDashLineChangesNothing(st: ParserState, raw: string)
    requires Valid(st)
    requires "----" <= Strip(raw) && Search(Strip(raw)).None?
    ensures StepLine(st, raw) == Ok(st)
  {
    DashLineIsNoSection(Strip(raw));
    StepOnDashes(st, raw);
  }

  /** Mutation lines before any file header are ignored. */
  lemma MutationLineWithoutFileIgnored(st: ParserState, raw: string)
    requires Valid(st) && st.current.None?
    requires SectionOf(Strip(raw)).None? && !("----" <= Strip(raw))
    ensures StepLine(st, raw) == Ok(st)
  {
  }

  /**
   A mutation line extends the current file entry by the line numbers its
   tokens give, in order, and leaves every other entry, every list length
   and both the current section and the current file as they were.
   */
  lemma MutationLineExtendsCurrentOnly(st: ParserState, raw: string)
    requires Valid(st) && st.current.Some?
    requires Strip(raw) != [] && SectionOf(Strip(raw)).None? && !("----" <= Strip(raw))
    ensures var ref := st.current.value;
      match LineValues(Split(Strip(raw), ','))
      case Err(e) => StepLine(st, raw) == Err(e)
      case Ok(values) =>
        StepLine(st, raw).Ok? &&
        var next := StepLine(st, raw).value;
        && next.section == st.section && next.current == st.current
        && next.data.Keys == st.data.Keys
        && (forall s :: s in st.data ==> |next.data[s]| == |st.data[s]|)
        && (forall s, i :: s in st.data && 0 <= i < |st.data[s]| && (s, i) != (ref.section, ref.index)
              ==> next.data[s][i] == st.data[s][i])
        && var e := st.data[ref.section][ref.index];
           next.data[ref.section][ref.index] == Entry(e.file, e.count, e.mutations + values)
  {
    StepOnOther(st, raw);
  }

  lemma DecimalIsPlain(x: string)
    requires IsDecimal(x)
    ensures '-' !in x && ',' !in x && !IsSpace(x[0]) && !IsSpace(x[|x| - 1])
  {
    assert forall k :: 0 <= k < |x| ==> IsDigit(x[k]);
  }

  /** A single number token appends that number; whitespace around it is ignored. */
  lemma SingleNumberToken(n: nat, pad: string, pad': string)
    requires AllSpace(pad) && AllSpace(pad')
    ensures TokenValues(pad + ShowNat(n) + pad') == Ok([n as int])
  {
    var s := ShowNat(n);
    DecimalIsPlain(s);
    StripPadded(pad, s, pad');
    ShowNatReadsBack(n);
    TokenIsNumber(pad + s + pad', n);
  }

  lemma DecimalRangeParts(x: string, y: string)
    requires IsDecimal(x) && IsDecimal(y)
    ensures var t := x + "-" + y; '-' in Strip(t) && Split(Strip(t), '-') == [x, y]
  {
    var t := x + "-" + y;
    DecimalIsPlain(x);
    DecimalIsPlain(y);
    assert t[0] == x[0] && t[|t| - 1] == y[|y| - 1] && t[|x|] == '-';
    StripUnpadded(t);
    SplitJoin([x, y], '-');
    assert Join([x, y], '-') == t;
  }

  /** A range token `a-b` appends `a, a + 1, ..., b`: `b - a + 1` numbers, none when `b < a`. */
  lemma RangeToken(a: nat, b: nat)
    ensures var r := TokenValues(ShowNat(a) + "-" + ShowNat(b));
      && r.Ok?
      && |r.value| == (if b < a then 0 else b - a + 1)
      && forall k :: 0 <= k < |r.value| ==> r.value[k] == a + k
  {
    DecimalRangeParts(ShowNat(a), ShowNat(b));
    ShowNatReadsBack(a);
    ShowNatReadsBack(b);
    TokenIsRange(ShowNat(a) + "-" + ShowNat(b), a, b);
  }

  /** A token without digits and without `-` (the empty token of `1,,2` too) is skipped. */
  lemma NonNumericTokenSkipped(token: string)
    requires forall k :: 0 <= k < |token| ==> !IsDigit(token[k]) && token[k] != '-'
    ensures TokenValues(token) == Ok([])
  {
    var t := Strip(token);
    StripKeepsChars(token);
    assert forall k :: 0 <= k < |t| ==> !IsDigit(t[k]) && t[k] != '-';
    NoDigitNoInt(t);
    TokenIsSkipped(token);
  }

  lemma DecimalTripleParts(x: string, y: string, z: string)
    requires IsDecimal(x) && IsDecimal(y) && IsDecimal(z)
    ensures var t := x + "-" + y + "-" + z; '-' in Strip(t) && Split(Strip(t), '-') == [x, y, z]
  {
    var t := x + "-" + y + "-" + z;
    DecimalIsPlain(x);
    DecimalIsPlain(y);
    DecimalIsPlain(z);
    assert t[0] == x[0] && t[|t| - 1] == z[|z| - 1] && t[|x|] == '-';
    StripUnpadded(t);
    assert [x, y, z][1..] == [y, z] && [y, z][1..] == [z];
    assert Join([y, z], '-') == y + "-" + z;
    assert x + "-" + (y + "-" + z) == t;
    SplitJoin([x, y, z], '-');
  }

  /** A token `a-b-c`, three numbers and two dashes, has three parts, not two: `ValueError`. */
  lemma ThreePartTokenFails(a: nat, b: nat, c: nat)
    ensures TokenValues(ShowNat(a) + "-" + ShowNat(b) + "-" + ShowNat(c)) == Err(ValueError)
  {
    DecimalTripleParts(ShowNat(a), ShowNat(b), ShowNat(c));
    TokenIsBadRange(ShowNat(a) + "-" + ShowNat(b) + "-" + ShowNat(c));
  }

  /** A token `x-y` whose first part has no digit is not a range: `ValueError`. */
  lemma NonNumericRangeFails(x: string, y: string)
    requires forall k :: 0 <= k < |x| ==> !IsDigit(x[k]) && x[k] != '-' && !IsSpace(x[k])
    requires forall k :: 0 <= k < |y| ==> y[k] != '-' && !IsSpace(y[k])
    ensures TokenValues(x + "-" + y) == Err(ValueError)
  {
    var t := x + "-" + y;
    assert t[|x|] == '-';
    assert t[0] == (if x == [] then '-' else x[0]);
    assert t[|t| - 1] == (if y == [] then '-' else y[|y| - 1]);
    StripUnpadded(t);
    SplitJoin([x, y], '-');
    assert Join([x, y], '-') == t;
    NoDigitNoInt(x);
    TokenIsBadRange(t);
  }

  lemma NegatedDecimalSplits(x: string)
    requires '-' !in x
    ensures '-' in "-" + x && Split("-" + x, '-') == ["", x]
  {
    var t := "-" + x;
    assert t[0] == '-' && t[1..] == x;
    SplitSeparatorFree(x, '-');
  }

  lemma NegatedDecimalParts(x: string)
    requires IsDecimal(x)
    ensures var t := "-" + x; '-' in Strip(t) && Split(Strip(t), '-') == ["", x]
  {
    var t := "-" + x;
    DecimalIsPlain(x);
    assert t[0] == '-' && t[|t| - 1] == x[|x| - 1];
    StripUnpadded(t);
    NegatedDecimalSplits(x);
  }

  /**
   A negative single number `-n` is read as a range whose start is empty,
   and `int("")` fails: `ValueError`.
   */
  lemma NegativeNumberFails(n: nat)
    ensures TokenValues("-" + ShowNat(n)) == Err(ValueError)
  {
    NegatedDecimalParts(ShowNat(n));
    NoDigitNoInt("");
    TokenIsBadRange("-" + ShowNat(n));
  }

  lemma {:induction false} TokenResultsAppend(ts: seq<string>, us: seq<string>)
    ensures TokenResults(ts + us) == TokenResults(ts) + TokenResults(us)
    decreases |ts|
  {
    if ts != [] {
      assert (ts + us)[0] == ts[0] && (ts + us)[1..] == ts[1..] + us;
      TokenResultsAppend(ts[1..], us);
    } else {
      assert ts + us == us;
    }
  }

  lemma {:induction false} CollectAppend(rs: seq<Result<seq<int>, ParseError>>, qs: seq<Result<seq<int>, ParseError>>)
    ensures Collect(rs + qs) == match Collect(rs)
                                case Err(e) => Err(e)
                                case Ok(v) => AfterPrefix(v, Collect(qs))
    decreases |rs|
  {
    if rs == [] {
      assert rs + qs == qs;
      AfterPrefixNothing(Collect(qs));
    } else {
      assert (rs + qs)[0] == rs[0] && (rs + qs)[1..] == rs[1..] + qs;
      CollectAppend(rs[1..], qs);
      if rs[0].Ok? && Collect(rs[1..]).Ok? {
        AfterPrefixTwice(rs[0].value, Collect(rs[1..]).value, Collect(qs));
      }
    }
  }

  /**
   Tokens are handled left to right: the numbers of a line are those of its
   first tokens followed by those of the rest, and an error in the first
   tokens is the line's error.
   */
  lemma LineValuesInOrder(ts: seq<string>, us: seq<string>)
    ensures LineValues(ts + us) == match LineValues(ts)
                                   case Err(e) => Err(e)
                                   case Ok(v) => AfterPrefix(v, LineValues(us))
  {
    TokenResultsAppend(ts, us);
    CollectAppend(TokenResults(ts), TokenResults(us));
  }

  /** Lines are handled one after the other: a run over `ls + ms` is a run over `ls`, then over `ms`. */
  lemma {:induction false} RunInOrder(st: ParserState, ls: seq<string>, ms: seq<string>)
    requires Valid(st)
    ensures Run(st, ls + ms) == match Run(st, ls)
                                case Err(e) => Err(e)
                                case Ok(mid) => Run(mid, ms)
    decreases |ls|
  {
    if ls == [] {
      assert ls + ms == ms;
    } else {
      assert (ls + ms)[0] == ls[0] && (ls + ms)[1..] == ls[1..] + ms;
      match StepLine(st, ls[0])
      case Err(e) =>
      case Ok(next) => RunInOrder(next, ls[1..], ms);
    }
  }

  lemma CollectSingle(r: Result<seq<int>, ParseError>)
    ensures Collect([r]) == r
  {
    assert [r][1..] == [];
    if r.Ok? {
      assert r.value + [] == r.value;
    }
  }

  lemma LineValuesSingle(token: string)
    ensures LineValues([token]) == TokenValues(token)
  {
    assert TokenResults([token]) == [TokenValues(token)];
    CollectSingle(TokenValues(token));
  }

  lemma NumberLineValues(n: nat)
    ensures LineValues(Split(ShowNat(n), ',')) == Ok([n as int])
  {
    var s := ShowNat(n);
    DecimalIsPlain(s);
    SplitSeparatorFree(s, ',');
    assert [] + s + [] == s;
    SingleNumberToken(n, [], []);
    LineValuesSingle(s);
  }

  lemma NumberLineIsOther(n: nat)
    ensures var s := ShowNat(n);
      Strip(s) != [] && SectionOf(Strip(s)).None? && !("----" <= Strip(s))
  {
    var s := ShowNat(n);
    ShowNatReadsBack(n);
    assert IsDigit(s[0]);
  }

  /** A line holding one number extends the current entry by that number. */
  lemma NumberLineExtends(st: ParserState, n: nat)
    requires Valid(st) && st.current.Some?
    ensures StepLine(st, ShowNat(n)) == Ok(st.(data := ExtendAt(st.data, st.current.value, [n as int])))
  {
    NumberLineIsOther(n);
    StepOnOther(st, ShowNat(n));
    ShowNatReadsBack(n);
    NumberLineValues(n);
  }

  /**
   The current file survives a section header: a number on the line after
   a section title still goes to the entry of the previous section's file.
   */
  lemma CurrentFileSurvivesSectionSwitch(st: ParserState, key: string, n: nat)
    requires Valid(st) && st.current.Some? && key in SectionKeys
    ensures Run(st, [SectionTitle(key), ShowNat(n)])
      == Ok(ParserState(ExtendAt(st.data, st.current.value, [n as int]), Some(key), st.current))
  {
    var title := SectionTitle(key);
    assert [] + title + [] == title;
    SectionHeaderOnlySwitches(st, key, [], []);
    var mid := ParserState(st.data, Some(key), st.current);
    NumberLineExtends(mid, n);
    RunFirstLine(st, [title, ShowNat(n)]);
    assert [title, ShowNat(n)][1..] == [ShowNat(n)];
    RunFirstLine(mid, [ShowNat(n)]);
  }

  /**
   Until a file header is seen no entry exists and nothing can be appended:
   lines that are not file headers, such as `----` lines the header
   pattern does not match, leave the dictionary as it was, whatever section
   headers they switch through.
   */
  lemma {:induction false} RunWithoutHeaders(st: ParserState, lines: seq<string>)
    requires Valid(st) && st.current.None?
    requires forall k :: 0 <= k < |lines| ==> "----" <= Strip(lines[k]) ==> Search(Strip(lines[k])).None?
    ensures Run(st, lines).Ok?
    ensures Run(st, lines).value.data == st.data && Run(st, lines).value.current.None?
    decreases |lines|
  {
    if lines != [] {
      RunFirstLine(st, lines);
      var raw := lines[0];
      if "----" <= Strip(raw) {
        UnmatchedDashLineChangesNothing(st, raw);
      }
      var next := StepLine(st, raw).value;
      assert next.data == st.data && next.current.None?;
      assert forall k :: 0 <= k < |lines[1..]| ==> lines[1..][k] == lines[k + 1];
      RunWithoutHeaders(next, lines[1..]);
    }
  }

  /** `output.split("\n")` gives back the lines `output` was joined from. */
  lemma ReportOfLines(lines: seq<string>)
    requires |lines| >= 1 && forall k :: 0 <= k < |lines| ==> '\n' !in lines[k]
    ensures ParseReport(Join(lines, '\n')) == match Run(InitialState(), lines)
                                             case Ok(st) => Ok(st.data)
                                             case Err(e) => Err(e)
  {
    SplitJoin(lines, '\n');
  }

  /** Output in which no `----` line matches the header pattern gives the four empty lists. */
  lemma ReportWithoutHeadersIsEmpty(lines: seq<string>)
    requires |lines| >= 1 && forall k :: 0 <= k < |lines| ==> '\n' !in lines[k]
    requires forall k :: 0 <= k < |lines| ==> "----" <= Strip(lines[k]) ==> Search(Strip(lines[k])).None?
    ensures ParseReport(Join(lines, '\n')) == Ok(InitialReport())
  {
    ReportOfLines(lines);
    RunWithoutHeaders(InitialState(), lines);
  }
}
