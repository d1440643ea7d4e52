/** One host's JSONL file as text: appending a record, splitting into lines and
    reading them back. */
module HistoryFile {
  import opened Prelude
  import opened Regex
  import opened Yaml
  import opened History

  // The json module and Python's classes of characters: what `splitlines` ends a
  // line at, and what `strip` takes away.
  datatype Text = Text(parse: string -> Parsed, dumps: Value -> string, breaks: char -> bool, blank: char -> bool)

  // A record as the program makes them: its summary is a mapping, of counts that
  // can be written.
  predicate Recordable(r: RunRecord) {
    UniqueKeys(r.summary) && forall i :: 0 <= i < |r.summary| ==> Short(r.summary[i].1)
  }

  // What `json.dumps` writes of a record is one line of text that is not blank,
  // and reads back.
  ghost predicate JsonReadsBack(py: Text) {
    && py.breaks('\n') && py.breaks('\r')
    && forall r: RunRecord :: Recordable(r) ==>
         var line := py.dumps(RecordToDict(r));
         OneLine(py, line) && !AllBlank(py, line) && py.parse(line) == Parsed(RecordToDict(r))
  }

  predicate OneLine(py: Text, s: string) {
    s != "" && forall c :: c in s ==> !py.breaks(c)
  }

  predicate AllBlank(py: Text, s: string) {
    forall c :: c in s ==> py.blank(c)
  }

  function Inside(py: Text): char -> bool {
    c => !py.breaks(c)
  }

  // What follows the line end at the start of s; CR LF is one line end.
  function AfterBreak(s: string): (r: string)
    ensures |r| <= |s| && (s != "" ==> |r| < |s|)
  {
    if s == "" then "" else if "\r\n" <= s then s[2..] else s[1..]
  }

  // `text.splitlines()`
  function SplitLines(py: Text, text: string): seq<string> {
    if text == "" then []
    else
      var n := Run(Inside(py), text);
      [text[..n]] + if n == |text| then [] else SplitLines(py, AfterBreak(text[n..]))
  }

  function LineOf(py: Text, s: string): Line {
    if AllBlank(py, s) then Blank
    else match py.parse(s) case SyntaxError => BadJson case OtherError => JsonRaises case Parsed(data) => Line.Json(data)
  }

  function LinesOf(py: Text, text: string): seq<Line> {
    Map(SplitLines(py, text), s => LineOf(py, s))
  }

  // ConfigError, UnicodeDecodeError, or an error on a line.
  datatype FileError = CannotRead | NotUtf8 | BadLine(error: HistoryError)

  // `read_host_history` of a file
  method ReadFile(py: Text, co: Coercions, file: FileText) returns (r: Result<seq<RunRecord>, FileError>)
    ensures r == Err(CannotRead) <==> file.Unreadable?
    ensures r == Err(NotUtf8) <==> file.Undecodable?
    ensures file.Decoded? ==>
              var lines := LinesOf(py, file.text);
              && (r.Ok? <==> forall line :: line in lines ==> !Bad(co, line))
              && (r.Ok? ==> r.value == Sort(RecordsOf(co, lines), TimeLe))
              && (r.Err? ==> FirstBad(co, lines, r.error))
  {
    hide Bad, Raises, RecordsOf, LinesOf;
    match file {
      case Unreadable =>
        return Err(CannotRead);
      case Undecodable =>
        return Err(NotUtf8);
      case Decoded(_) =>
    }
    var lines := LinesOf(py, file.text);
    var read := ReadHostHistory(co, lines);
    match read {
      case Ok(records) =>
        r := Ok(records);
      case Err(e) =>
        assert Bad(co, lines[e.lineno - 1]);
        r := Err(BadLine(e));
    }
  }

  // The error names the first bad line, counted from one, and what is wrong with it.
  predicate FirstBad(co: Coercions, lines: seq<Line>, error: FileError) {
    && error.BadLine?
    && var k := error.error.lineno - 1;
       && 0 <= k < |lines| && Bad(co, lines[k]) && (forall j | 0 <= j < k :: !Bad(co, lines[j]))
       && (error.error.InvalidJson? <==> lines[k].BadJson?)
       && (error.error.Uncaught? <==> Raises(co, lines[k]))
  }

  // `write_record`: append the record's JSON and a line feed.
  function Append(py: Text, text: string, r: RunRecord): string {
    text + (py.dumps(RecordToDict(r)) + "\n")
  }

  predicate EndsLine(py: Text, text: string) {
    text == "" || py.breaks(text[|text| - 1])
  }

  lemma {:induction false} RunStops(chars: char -> bool, s: string, more: string)
    requires Run(chars, s) < |s|
    ensures Run(chars, s + more) == Run(chars, s)
  {
    assert (s + more)[0] == s[0];
    if chars(s[0]) {
      assert (s + more)[1..] == s[1..] + more;
      RunStops(chars, s[1..], more);
    }
  }

  lemma {:induction false} RunOfAll(chars: char -> bool, s: string, more: string)
    requires forall c :: c in s ==> chars(c)
    ensures Run(chars, s + more) == |s| + Run(chars, more)
  {
    if s == "" {
      assert s + more == more;
    } else {
      assert (s + more)[1..] == s[1..] + more && s[0] in s;
      RunOfAll(chars, s[1..], more);
    }
  }

  lemma BreakWithin(rest: string, more: string)
    requires rest != "" && more != "" && more[0] != '\n'
    ensures AfterBreak(rest + more) == AfterBreak(rest) + more
  {
    var all := rest + more;
    assert all[0] == rest[0] && all[1..] == rest[1..] + more;
    if |rest| == 1 {
      assert all[1] == more[0];
    } else {
      assert all[1] == rest[1] && all[2..] == rest[2..] + more;
    }
  }

  lemma SplitStep(py: Text, text: string, n: nat)
    requires Run(Inside(py), text) == n && n < |text|
    ensures SplitLines(py, text) == [text[..n]] + SplitLines(py, AfterBreak(text[n..]))
  {
  }

  // Where a line ends has no say in whether the last one does.
  lemma RestEnds(py: Text, text: string, n: nat)
    requires py.breaks('\n') && n < |text| && py.breaks(text[n])
    ensures EndsLine(py, text) <==> EndsLine(py, AfterBreak(text[n..]))
    ensures AfterBreak(text[n..]) == "" ==> EndsLine(py, text)
  {
    var rest := text[n..];
    var after := AfterBreak(rest);
    assert rest[0] == text[n] && rest[|rest| - 1] == text[|text| - 1];
    if "\r\n" <= rest {
      assert rest[1] == '\n';
    }
    assert after != "" ==> after[|after| - 1] == text[|text| - 1];
  }

  // The first line of a text that has a line end.
  lemma FirstLine(py: Text, text: string, line: string)
    requires py.breaks('\n') && OneLine(py, line) && Run(Inside(py), text) < |text|
    ensures var n := Run(Inside(py), text);
      && SplitLines(py, text) == [text[..n]] + SplitLines(py, AfterBreak(text[n..]))
      && SplitLines(py, text + (line + "\n"))
      == [text[..n]] + SplitLines(py, AfterBreak(text[n..]) + (line + "\n"))
      && |AfterBreak(text[n..])| < |text|
      && (EndsLine(py, text) <==> EndsLine(py, AfterBreak(text[n..])))
  {
    hide SplitLines, AfterBreak, EndsLine;
    var n, more := Run(Inside(py), text), line + "\n";
    RunStops(Inside(py), text, more);
    var all, rest := text + more, text[n..];
    assert all[..n] == text[..n] && all[n..] == rest + more;
    assert more[0] == line[0] && line[0] in line && line[0] != '\n';
    BreakWithin(rest, more);
    SplitStep(py, text, n);
    SplitStep(py, all, n);
    RestEnds(py, text, n);
  }

  // Appending to a text that ends its last line adds one line.
  lemma {:induction false} AppendAdds(py: Text, text: string, line: string)
    requires py.breaks('\n') && OneLine(py, line) && EndsLine(py, text)
    ensures SplitLines(py, text + (line + "\n")) == SplitLines(py, text) + [line]
    decreases |text|
  {
    if text == "" {
      assert text + (line + "\n") == line + "\n";
      RunOfAll(Inside(py), line, "\n");
      assert (line + "\n")[..|line|] == line && (line + "\n")[|line|..] == "\n";
      assert AfterBreak("\n") == "";
      assert SplitLines(py, "") == [];
    } else {
      FirstLine(py, text, line);
      hide SplitLines, AfterBreak;
      AppendAdds(py, AfterBreak(text[Run(Inside(py), text)..]), line);
    }
  }

  // To any other it adds none: the record runs on at the end of the last line.
  lemma {:induction false} AppendMerges(py: Text, text: string, line: string)
    requires py.breaks('\n') && OneLine(py, line) && !EndsLine(py, text)
    ensures |SplitLines(py, text + (line + "\n"))| == |SplitLines(py, text)|
    decreases |text|
  {
    if Run(Inside(py), text) == |text| {
      var s := text + line;
      assert text + (line + "\n") == s + "\n";
      assert forall c :: c in s ==> c in text || c in line;
      assert forall c :: c in text ==> !py.breaks(c);
      RunOfAll(Inside(py), s, "\n");
      assert (s + "\n")[|s|..] == "\n";
      assert AfterBreak("\n") == "";
    } else {
      FirstLine(py, text, line);
      hide SplitLines, AfterBreak;
      AppendMerges(py, AfterBreak(text[Run(Inside(py), text)..]), line);
    }
  }

  // A recorded run becomes one more line of the file, and the others stay,
  // exactly when the file was empty or ended with a line end.
  lemma AppendIff(py: Text, text: string, r: RunRecord)
    requires JsonReadsBack(py) && Recordable(r)
    ensures LinesOf(py, Append(py, text, r)) == WriteRecord(LinesOf(py, text), r) <==> EndsLine(py, text)
  {
    var data := RecordToDict(r);
    var line := py.dumps(data);
    hide SplitLines, RecordToDict;
    if EndsLine(py, text) {
      AppendAdds(py, text, line);
      assert LineOf(py, line) == Line.Json(data);
      assert LinesOf(py, Append(py, text, r)) == LinesOf(py, text) + [Line.Json(data)];
    } else {
      AppendMerges(py, text, line);
      assert |LinesOf(py, Append(py, text, r))| == |LinesOf(py, text)|;
    }
  }

  function AppendAll(py: Text, records: seq<RunRecord>): string {
    if records == [] then "" else Append(py, AppendAll(py, records[..|records| - 1]), records[|records| - 1])
  }

  lemma {:induction false} AppendAllLines(py: Text, records: seq<RunRecord>)
    requires JsonReadsBack(py) && forall r :: r in records ==> Recordable(r)
    ensures EndsLine(py, AppendAll(py, records))
    ensures LinesOf(py, AppendAll(py, records)) == WriteAll([], records)
  {
    hide RecordToDict;
    if records == [] {
      assert SplitLines(py, "") == [];
    } else {
      hide LinesOf;
      AppendAllLines(py, records[..|records| - 1]);
      AppendIff(py, AppendAll(py, records[..|records| - 1]), records[|records| - 1]);
    }
  }

  // A file made by appending runs in time order reads back as those runs.
  lemma FileReadsBack(py: Text, co: Coercions, records: seq<RunRecord>)
    requires JsonReadsBack(py) && CoercesBack(co) && SortedBy(records, TimeLe)
    requires forall r :: r in records ==> Recordable(r)
    ensures var lines := LinesOf(py, AppendAll(py, records));
      (forall line :: line in lines ==> !Bad(co, line)) && Sort(RecordsOf(co, lines), TimeLe) == records
  {
    hide *;
    AppendAllLines(py, records);
    HistoryReadsBack(co, records);
  }

  // A file whose only line lost its line end swallows the next run.
  lemma OpenLineSwallows(py: Text, first: RunRecord, second: RunRecord)
    requires JsonReadsBack(py) && Recordable(first) && Recordable(second)
    ensures |LinesOf(py, Append(py, py.dumps(RecordToDict(first)), second))| == 1
  {
    hide RecordToDict;
    var text, line := py.dumps(RecordToDict(first)), py.dumps(RecordToDict(second));
    assert text[|text| - 1] in text;
    AppendMerges(py, text, line);
    RunOfAll(Inside(py), text, "");
    assert text + "" == text;
    assert |SplitLines(py, text)| == 1;
  }
}
