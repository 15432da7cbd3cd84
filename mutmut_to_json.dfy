/**
 The report parser of the mutation-testing helper script: the text printed
 by `mutmut results` is read line by line and turned into a mapping from
 status section ("survived", "killed", "timeout", "skipped") to the list of
 file entries of that section, each with the file name, the mutation count
 of its header and the line numbers listed under it.

 The text is a parameter; running `mutmut` itself is not modelled.
 */
module MutmutToJson {
  import opened Wrappers
  import opened Strings
  import opened IntLiteral
  import HeaderPattern

  /** One file entry: `{"file": ..., "count": ..., "mutations": [...]}`. */
  datatype Entry = Entry(file: string, count: int, mutations: seq<int>)

  /** The result dictionary: section name to its list of entries. */
  type Report = map<string, seq<Entry>>

  /** The exceptions that escape the parser. */
  datatype ParseError =
    | KeyError    // a file header before any section header: `data[None]`
    | ValueError  // `int()` refused the header count or a range bound

  const SectionKeys: set<string> := {"survived", "killed", "timeout", "skipped"}

  /** The dictionary the parser starts from: the four sections, all empty. */
  function InitialReport(): (d: Report)
    ensures d.Keys == SectionKeys
    ensures forall s :: s in d ==> d[s] == []
  {
    map["survived" := [], "killed" := [], "timeout" := [], "skipped" := []]
  }

  /**
   The current file entry, which the parser appends to a section's list and
   keeps extending afterwards: a reference to position `index` of the list
   of `section`, not a copy.
   */
  datatype FileRef = FileRef(section: string, index: nat)

  /** The parser's variables: `data`, `current_section`, `current_file`. */
  datatype ParserState = ParserState(data: Report, section: Option<string>, current: Option<FileRef>)

  predicate RefersInto(data: Report, ref: FileRef) {
    ref.section in data && ref.index < |data[ref.section]|
  }

  /** What holds of the parser's variables between any two lines. */
  predicate Valid(st: ParserState) {
    && st.data.Keys == SectionKeys
    && (st.section.Some? ==> st.section.value in SectionKeys)
    && (st.current.Some? ==> RefersInto(st.data, st.current.value))
  }

  function InitialState(): (st: ParserState)
    ensures Valid(st)
  {
    ParserState(InitialReport(), None, None)
  }

  /** `e2` is `e1`, possibly with more line numbers at the end. */
  predicate EntryExtends(e1: Entry, e2: Entry) {
    e1.file == e2.file && e1.count == e2.count && e1.mutations <= e2.mutations
  }

  /**
   `d2` is `d1` after appends only: the same sections, every list at least
   as long, and every entry of `d1` still in place, extended at most.
   */
  predicate Grows(d1: Report, d2: Report) {
    && d1.Keys == d2.Keys
    && forall s :: s in d1 ==>
         && |d1[s]| <= |d2[s]|
         && forall i :: 0 <= i < |d1[s]| ==> EntryExtends(d1[s][i], d2[s][i])
  }

  lemma GrowsTransitive(d1: Report, d2: Report, d3: Report)
    requires Grows(d1, d2) && Grows(d2, d3)
    ensures Grows(d1, d3)
  {
    forall s, i | s in d1 && 0 <= i < |d1[s]|
      ensures EntryExtends(d1[s][i], d3[s][i])
    {
      assert EntryExtends(d1[s][i], d2[s][i]) && EntryExtends(d2[s][i], d3[s][i]);
    }
  }

  /**
   `current_file["mutations"].extend(values)` through the reference: the
   entry `ref` points at gains `values` at its end; nothing else changes.
   */
  function ExtendAt(data: Report, ref: FileRef, values: seq<int>): (r: Report)
    requires RefersInto(data, ref)
    ensures r.Keys == data.Keys
    ensures forall s :: s in data ==> |r[s]| == |data[s]|
    ensures forall s, i :: s in data && 0 <= i < |data[s]| && (s, i) != (ref.section, ref.index) ==> r[s][i] == data[s][i]
    ensures var e := data[ref.section][ref.index];
      r[ref.section][ref.index] == Entry(e.file, e.count, e.mutations + values)
    ensures Grows(data, r)
  {
    var e := data[ref.section][ref.index];
    data[ref.section := data[ref.section][ref.index := e.(mutations := e.mutations + values)]]
  }

  lemma ExtendAtTwice(data: Report, ref: FileRef, xs: seq<int>, ys: seq<int>)
    requires RefersInto(data, ref)
    ensures ExtendAt(ExtendAt(data, ref, xs), ref, ys) == ExtendAt(data, ref, xs + ys)
  {
    var e := data[ref.section][ref.index];
    var once := ExtendAt(data, ref, xs);
    assert once[ref.section][ref.index] == e.(mutations := e.mutations + xs);
    assert e.mutations + xs + ys == e.mutations + (xs + ys);
    assert once[ref.section][ref.index := e.(mutations := e.mutations + xs + ys)]
        == data[ref.section][ref.index := e.(mutations := e.mutations + (xs + ys))];
  }

  lemma ExtendAtNothing(data: Report, ref: FileRef)
    requires RefersInto(data, ref)
    ensures ExtendAt(data, ref, []) == data
  {
    var e := data[ref.section][ref.index];
    assert e.mutations + [] == e.mutations;
    assert data[ref.section][ref.index := e] == data[ref.section];
  }

  /** `data[section].append(entry)`: one more entry at the end of one list. */
  function AppendEntry(data: Report, section: string, entry: Entry): (r: Report)
    requires section in data
    ensures r.Keys == data.Keys
    ensures r[section] == data[section] + [entry]
    ensures forall s :: s in data && s != section ==> r[s] == data[s]
    ensures Grows(data, r)
  {
    var r := data[section := data[section] + [entry]];
    assert forall i :: 0 <= i < |data[section]| ==> r[section][i] == data[section][i];
    r
  }

  /** The word a section header line starts with. */
  function SectionTitle(key: string): (title: string)
    requires key in SectionKeys
  {
    match key
    case "survived" => "Survived"
    case "killed" => "Killed"
    case "timeout" => "Timeout"
    case _ => "Skipped"
  }

  /**
   The section a (stripped) line switches to. The titles are tried in the
   order Survived, Killed, Timeout, Skipped.
   */
  function SectionOf(line: string): (r: Option<string>)
    ensures r.Some? ==> r.value in SectionKeys
    ensures r.None? <==> !("Survived" <= line || "Killed" <= line || "Timeout" <= line || "Skipped" <= line)
  {
    if "Survived" <= line then Some("survived")
    else if "Killed" <= line then Some("killed")
    else if "Timeout" <= line then Some("timeout")
    else if "Skipped" <= line then Some("skipped")
    else None
  }

  /** `range(a, b + 1)` as a list: `a, a + 1, ..., b`, empty when `b < a`. */
  function Range(a: int, b: int): (r: seq<int>)
    ensures |r| == if b < a then 0 else b - a + 1
    ensures forall k :: 0 <= k < |r| ==> r[k] == a + k
    decreases b - a
  {
    if b < a then [] else Range(a, b - 1) + [b]
  }

  /**
   The line numbers one comma-separated token appends. A token holding `-`
   must be two integers around one `-`, else `ValueError`; any other token
   is one integer, or is skipped when `int()` refuses it.
   */
  function TokenValues(token: string): (r: Result<seq<int>, ParseError>)
    ensures r.Err? ==> r.error == ValueError && '-' in Strip(token)
    ensures '-' !in Strip(token) ==> r.Ok? && |r.value| <= 1
  {
    var t := Strip(token);
    if '-' in t then
      var parts := Split(t, '-');
      if |parts| != 2 then Err(ValueError)
      else match (ParseInt(parts[0]), ParseInt(parts[1]))
        case (Some(a), Some(b)) => Ok(Range(a, b))
        case _ => Err(ValueError)
    else match ParseInt(t)
      case Some(n) => Ok([n])
      case None => Ok([])
  }

  // The four outcomes of a token, each stated over its stripped text.

  lemma TokenIsRange(token: string, a: int, b: int)
    requires '-' in Strip(token) && |Split(Strip(token), '-')| == 2
    requires ParseInt(Split(Strip(token), '-')[0]) == Some(a)
    requires ParseInt(Split(Strip(token), '-')[1]) == Some(b)
    ensures TokenValues(token) == Ok(Range(a, b))
  {
  }

  lemma TokenIsBadRange(token: string)
    requires '-' in Strip(token)
    requires var parts := Split(Strip(token), '-');
      |parts| != 2 || ParseInt(parts[0]).None? || ParseInt(parts[1]).None?
    ensures TokenValues(token) == Err(ValueError)
  {
  }

  lemma TokenIsNumber(token: string, n: int)
    requires '-' !in Strip(token) && ParseInt(Strip(token)) == Some(n)
    ensures TokenValues(token) == Ok([n])
  {
  }

  lemma TokenIsSkipped(token: string)
    requires '-' !in Strip(token) && ParseInt(Strip(token)).None?
    ensures TokenValues(token) == Ok([])
  {
  }

  /** The outcome of each token of a list, in order. */
  function TokenResults(tokens: seq<string>): (rs: seq<Result<seq<int>, ParseError>>)
    ensures |rs| == |tokens|
    ensures forall k :: 0 <= k < |rs| && rs[k].Err? ==> rs[k].error == ValueError
    decreases |tokens|
  {
    if tokens == [] then [] else [TokenValues(tokens[0])] + TokenResults(tokens[1..])
  }

  lemma {:induction false} TokenResultsAt(tokens: seq<string>, k: nat)
    requires k < |tokens|
    ensures TokenResults(tokens)[k] == TokenValues(tokens[k])
    decreases k
  {
    if k > 0 {
      TokenResultsAt(tokens[1..], k - 1);
    }
  }

  /** Token outcomes taken left to right: the first error wins, else the concatenation. */
  function Collect(rs: seq<Result<seq<int>, ParseError>>): (r: Result<seq<int>, ParseError>)
    ensures r.Ok? <==> forall k :: 0 <= k < |rs| ==> rs[k].Ok?
    ensures r.Err? ==> exists k :: 0 <= k < |rs| && rs[k] == Err(r.error)
    decreases |rs|
  {
    if rs == [] then Ok([])
    else match rs[0]
      case Err(e) => Err(e)
      case Ok(v) => AfterPrefix(v, Collect(rs[1..]))
  }

  /** The line numbers a list of tokens appends; a mutation line can only raise `ValueError`. */
  function LineValues(tokens: seq<string>): (r: Result<seq<int>, ParseError>)
    ensures r.Err? ==> r.error == ValueError
  {
    Collect(TokenResults(tokens))
  }

  /** A result with `prefix` put in front of its line numbers. */
  function AfterPrefix(prefix: seq<int>, r: Result<seq<int>, ParseError>): (r': Result<seq<int>, ParseError>) {
    match r
    case Ok(values) => Ok(prefix + values)
    case Err(e) => Err(e)
  }

  lemma AfterPrefixNothing(r: Result<seq<int>, ParseError>)
    ensures AfterPrefix([], r) == r
  {
    if r.Ok? {
      assert [] + r.value == r.value;
    }
  }

  lemma AfterPrefixTwice(xs: seq<int>, ys: seq<int>, r: Result<seq<int>, ParseError>)
    ensures AfterPrefix(xs, AfterPrefix(ys, r)) == AfterPrefix(xs + ys, r)
  {
    if r.Ok? {
      assert xs + (ys + r.value) == xs + ys + r.value;
    }
  }

  lemma CollectNext(rs: seq<Result<seq<int>, ParseError>>, j: nat, appended: seq<int>)
    requires j < |rs| && rs[j].Ok?
    requires Collect(rs) == AfterPrefix(appended, Collect(rs[j..]))
    ensures Collect(rs) == AfterPrefix(appended + rs[j].value, Collect(rs[j + 1..]))
  {
    assert rs[j..][0] == rs[j] && rs[j..][1..] == rs[j + 1..];
    AfterPrefixTwice(appended, rs[j].value, Collect(rs[j + 1..]));
  }

  lemma CollectFailed(rs: seq<Result<seq<int>, ParseError>>, j: nat, appended: seq<int>)
    requires j < |rs| && rs[j].Err?
    requires Collect(rs) == AfterPrefix(appended, Collect(rs[j..]))
    ensures Collect(rs) == Err(rs[j].error)
  {
    assert rs[j..][0] == rs[j];
  }

  /** A line starting with "----": a new current entry when the header pattern matches. */
  function HeaderStep(st: ParserState, line: string): (r: Result<ParserState, ParseError>)
    requires Valid(st)
    ensures r.Ok? ==> Valid(r.value) && Grows(st.data, r.value.data)
  {
    match HeaderPattern.Search(line)
    case None => Ok(st)
    case Some(m) =>
      match ParseInt(m.count)
      case None => Err(ValueError)
      case Some(c) =>
        match st.section
        case None => Err(KeyError)
        case Some(s) =>
          Ok(ParserState(AppendEntry(st.data, s, Entry(m.file, c, [])), st.section, Some(FileRef(s, |st.data[s]|))))
  }

  /** Any other line: the line numbers it lists extend the current entry, if there is one. */
  function MutationStep(st: ParserState, line: string): (r: Result<ParserState, ParseError>)
    requires Valid(st)
    ensures r.Ok? ==> Valid(r.value) && Grows(st.data, r.value.data)
  {
    match st.current
    case None => Ok(st)
    case Some(ref) =>
      match LineValues(Split(line, ','))
      case Err(e) => Err(e)
      case Ok(values) => Ok(st.(data := ExtendAt(st.data, ref, values)))
  }

  /** The effect of one line of the report on the parser's variables. */
  function StepLine(st: ParserState, raw: string): (r: Result<ParserState, ParseError>)
    requires Valid(st)
    ensures r.Ok? ==> Valid(r.value) && Grows(st.data, r.value.data)
  {
    var line := Strip(raw);
    if line == [] then Ok(st)
    else if SectionOf(line).Some? then Ok(st.(section := SectionOf(line)))
    else if "----" <= line then HeaderStep(st, line)
    else MutationStep(st, line)
  }

  /** The effect of a sequence of lines, stopping at the first exception. */
  function Run(st: ParserState, lines: seq<string>): (r: Result<ParserState, ParseError>)
    requires Valid(st)
    ensures r.Ok? ==> Valid(r.value) && Grows(st.data, r.value.data)
    decreases |lines|
  {
    if lines == [] then Ok(st)
    else match StepLine(st, lines[0])
      case Err(e) => Err(e)
      case Ok(next) =>
        var r := Run(next, lines[1..]);
        if r.Ok? then GrowsTransitive(st.data, next.data, r.value.data); r else r
  }

  lemma RunFirstLine(st: ParserState, lines: seq<string>)
    requires Valid(st) && lines != []
    ensures Run(st, lines) == match StepLine(st, lines[0])
                              case Err(e) => Err(e)
                              case Ok(next) => Run(next, lines[1..])
  {
  }

  /** What `parse_mutmut_results` returns, or the exception it raises. */
  function ParseReport(output: string): (r: Result<Report, ParseError>)
    ensures r.Ok? ==> r.value.Keys == SectionKeys
  {
    match Run(InitialState(), Split(output, '\n'))
    case Ok(st) => Ok(st.data)
    case Err(e) => Err(e)
  }

  /**
   The parsing loop, updating the dictionary in place: each header appends
   a new entry, and each line number is appended to the current entry
   through its reference.
   */
  method ParseMutmutResults(output: string) returns (r: Result<Report, ParseError>)
    ensures r == ParseReport(output)
  {
    var data := InitialReport();
    var currentSection: Option<string> := None;
    var currentFile: Option<FileRef> := None;
    var lines := Split(output, '\n');
    for i := 0 to |lines|
      invariant Valid(ParserState(data, currentSection, currentFile))
      invariant Run(InitialState(), lines) == Run(ParserState(data, currentSection, currentFile), lines[i..])
    {
      RunFirstLine(ParserState(data, currentSection, currentFile), lines[i..]);
      assert lines[i..][0] == lines[i] && lines[i..][1..] == lines[i + 1..];
      var next := ProcessLine(data, currentSection, currentFile, lines[i]);
      if next.Err? {
        return Err(next.error);
      }
      data, currentSection, currentFile := next.value.data, next.value.section, next.value.current;
    }
    assert lines[|lines|..] == [];
    return Ok(data);
  }

  /**
   The body of the parsing loop for one line. It tests, in this order, for a
   blank line, a section title, a `----` line and a mutation line.
   */
  method ProcessLine(data: Report, currentSection: Option<string>, currentFile: Option<FileRef>, raw: string)
    returns (r: Result<ParserState, ParseError>)
    requires Valid(ParserState(data, currentSection, currentFile))
    ensures r == StepLine(ParserState(data, currentSection, currentFile), raw)
  {
    var line := Strip(raw);
    if line == [] {
      return Ok(ParserState(data, currentSection, currentFile));
    }
    if "Survived" <= line {
      return Ok(ParserState(data, Some("survived"), currentFile));
    } else if "Killed" <= line {
      return Ok(ParserState(data, Some("killed"), currentFile));
    } else if "Timeout" <= line {
      return Ok(ParserState(data, Some("timeout"), currentFile));
    } else if "Skipped" <= line {
      return Ok(ParserState(data, Some("skipped"), currentFile));
    }
    if "----" <= line {
      var m := HeaderPattern.Search(line);
      if m.None? {
        return Ok(ParserState(data, currentSection, currentFile));
      }
      var count := ParseInt(m.value.count);
      if count.None? {
        return Err(ValueError);
      }
      if currentSection.None? {
        return Err(KeyError);
      }
      var s := currentSection.value;
      var entry := Entry(m.value.file, count.value, []);
      return Ok(ParserState(AppendEntry(data, s, entry), currentSection, Some(FileRef(s, |data[s]|))));
    }
    if currentFile.None? {
      return Ok(ParserState(data, currentSection, currentFile));
    }
    var extended := ExtendCurrentFile(data, currentFile.value, line);
    if extended.Err? {
      return Err(extended.error);
    }
    return Ok(ParserState(extended.value, currentSection, currentFile));
  }

  /**
   One mutation line: split at commas, each stripped token appended to the
   current entry in place, left to right; a malformed range raises.
   */
  method ExtendCurrentFile(data: Report, ref: FileRef, line: string) returns (r: Result<Report, ParseError>)
    requires RefersInto(data, ref)
    ensures r == match LineValues(Split(line, ','))
                 case Ok(values) => Ok(ExtendAt(data, ref, values))
                 case Err(e) => Err(e)
  {
    var tokens := Split(line, ',');
    ghost var results := TokenResults(tokens);
    var current := data;
    ExtendAtNothing(data, ref);
    ghost var appended: seq<int> := [];
    assert results[0..] == results;
    AfterPrefixNothing(Collect(results));
    for j := 0 to |tokens|
      invariant current == ExtendAt(data, ref, appended)
      invariant Collect(results) == AfterPrefix(appended, Collect(results[j..]))
    {
      var step := AppendToken(current, ref, tokens, j);
      if step.Err? {
        CollectFailed(results, j, appended);
        return Err(step.error);
      }
      CollectNext(results, j, appended);
      ExtendAtTwice(data, ref, appended, results[j].value);
      current := step.value;
      appended := appended + results[j].value;
    }
    assert results[|tokens|..] == [];
    assert appended + [] == appended;
    return Ok(current);
  }

  /** One comma-separated token of a mutation line, appended in place. */
  method AppendToken(data: Report, ref: FileRef, tokens: seq<string>, j: nat) returns (r: Result<Report, ParseError>)
    requires RefersInto(data, ref) && j < |tokens|
    ensures r == match TokenResults(tokens)[j]
                 case Ok(values) => Ok(ExtendAt(data, ref, values))
                 case Err(e) => Err(e)
  {
    TokenResultsAt(tokens, j);
    var token := Strip(tokens[j]);
    if '-' in token {
      var parts := Split(token, '-');
      if |parts| != 2 {
        return Err(ValueError);
      }
      var start, end := ParseInt(parts[0]), ParseInt(parts[1]);
      if start.None? || end.None? {
        return Err(ValueError);
      }
      var extended := AppendRange(data, ref, start.value, end.value);
      return Ok(extended);
    }
    var value := ParseInt(token);
    if value.Some? {
      return Ok(ExtendAt(data, ref, [value.value]));
    }
    ExtendAtNothing(data, ref);
    return Ok(data);
  }

  /** The numbers `start` to `end`, appended one at a time to the current entry. */
  method AppendRange(data: Report, ref: FileRef, start: int, end: int) returns (r: Report)
    requires RefersInto(data, ref)
    ensures r == ExtendAt(data, ref, Range(start, end))
  {
    r := data;
    ExtendAtNothing(data, ref);
    var n := start;
    while n <= end
      invariant start <= n <= if end < start then start else end + 1
      invariant r == ExtendAt(data, ref, Range(start, n - 1))
      decreases end - n
    {
      ExtendAtTwice(data, ref, Range(start, n - 1), [n]);
      r := ExtendAt(r, ref, [n]);
      n := n + 1;
    }
  }
}
