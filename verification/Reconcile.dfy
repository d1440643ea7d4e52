/** Reconciling a scan with host.yaml, and the exceptions verify suggests. */
module Reconcile {
  import opened Prelude
  import opened Rules

  // An XCCDF rule result; `Other` is any string the program does not know.
  datatype ScanResult =
    | Pass | Fixed | NotApplicable | NotSelected | Informational
    | Error | NotChecked | Unknown
    | Fail | Other(text: string)

  datatype Category = Clean | ExpectedFail | NewFail | Regression | Incomplete

  predicate CleanState(s: ScanResult) {
    s.Pass? || s.Fixed? || s.NotApplicable? || s.NotSelected? || s.Informational?
  }

  predicate IncompleteState(s: ScanResult) {
    s.Error? || s.NotChecked? || s.Unknown?
  }

  function Categorize(current: ScanResult, install: Option<ScanResult>, expected: bool): Category {
    if CleanState(current) then Clean
    else if IncompleteState(current) then Incomplete
    else if expected then ExpectedFail
    else if install == None || IncompleteState(install.value) then NewFail
    else if CleanState(install.value) then Regression
    else NewFail
  }

  datatype Row = Row(ruleId: string, current: ScanResult, install: Option<ScanResult>, expected: bool, category: Category)

  datatype Report = Report(host: string, timestampUtc: string, rows: seq<Row>)

  type Results = map<string, ScanResult>

  // ----- the report

  function RowOf(id: string, current: Results, install: Option<Results>, expected: set<string>): Row
    requires id in current
  {
    var before := if install.Some? && id in install.value then Some(install.value[id]) else None;
    Row(id, current[id], before, id in expected, Categorize(current[id], before, id in expected))
  }

  function RowsOf(ids: seq<string>, current: Results, install: Option<Results>, expected: set<string>): (rows: seq<Row>)
    requires forall id :: id in ids ==> id in current
    ensures |rows| == |ids| && forall k :: 0 <= k < |ids| ==> rows[k] == RowOf(ids[k], current, install, expected)
  {
    if ids == [] then []
    else
      var init, last := ids[..|ids| - 1], ids[|ids| - 1];
      RowsOf(init, current, install, expected) + [RowOf(last, current, install, expected)]
  }

  function ReportRows(current: Results, install: Option<Results>, expected: set<string>): seq<Row> {
    RowsOf(SortedIds(current.Keys), current, install, expected)
  }

  method BuildReport(
    current: Results, install: Option<Results>, expected: set<string>, host: string, timestampUtc: string)
    returns (report: Report)
    ensures report == Report(host, timestampUtc, ReportRows(current, install, expected))
  {
    hide RowOf, StrLe;
    var ids := SortedIds(current.Keys);
    var rows: seq<Row> := [];
    var i := 0;
    while i < |ids|
      invariant 0 <= i <= |ids|
      invariant rows == RowsOf(ids[..i], current, install, expected)
    {
      assert ids[..i + 1][..i] == ids[..i];
      rows := rows + [RowOf(ids[i], current, install, expected)];
      i := i + 1;
    }
    assert ids[..i] == ids;
    report := Report(host, timestampUtc, rows);
  }

  predicate Suggestable(row: Row) {
    row.category == NewFail || row.category == Regression
  }

  predicate IsClean(report: Report) {
    forall row :: row in report.rows ==> !Suggestable(row)
  }

  // ----- suggestions

  datatype Suggestion = Suggestion(decl: ExceptionDecl, category: Category)

  type ManagedIds = map<string, RuleName>

  function CategoryText(c: Category): string {
    match c
    case Clean => "clean"
    case ExpectedFail => "expected_fail"
    case NewFail => "new_fail"
    case Regression => "regression"
    case Incomplete => "incomplete"
  }

  function ResultText(s: ScanResult): string {
    match s
    case Pass => "pass" case Fixed => "fixed" case NotApplicable => "notapplicable" case NotSelected => "notselected"
    case Informational => "informational" case Error => "error" case NotChecked => "notchecked"
    case Unknown => "unknown" case Fail => "fail" case Other(text) => text
  }

  // `timestamp.split("T", 1)[0]`
  function DateOf(timestamp: string): string {
    if timestamp == "" || timestamp[0] == 'T' then "" else [timestamp[0]] + DateOf(timestamp[1..])
  }

  function ReasonFor(host: string, date: string, row: Row): string {
    "TODO: explain why \U{2014} auto-suggested " + date + " from " + host
    + " (current=" + ResultText(row.current)
    + ", install=" + (if row.install == None then "-" else ResultText(row.install.value))
    + ", category=" + CategoryText(row.category) + ")"
  }

  function DeclId(row: Row): string {
    "auto-" + CategoryText(row.category) + "-" + row.ruleId
  }

  function SuggestionFor(host: string, date: string, row: Row): Suggestion {
    Suggestion(ExceptionDecl(DeclId(row), ReasonFor(host, date, row), [row.ruleId]), row.category)
  }

  function Suggestions(host: string, date: string, rows: seq<Row>, managed: set<string>): (r: seq<Suggestion>)
    ensures forall s :: s in r <==> exists row :: row in rows && Suggestable(row) && row.ruleId !in managed
                                               && s == SuggestionFor(host, date, row)
  {
    if rows == [] then []
    else
      var init, last := rows[..|rows| - 1], rows[|rows| - 1];
      assert rows == init + [last];
      Suggestions(host, date, init, managed)
      + (if Suggestable(last) && last.ruleId !in managed then [SuggestionFor(host, date, last)] else [])
  }

  method BuildSuggestions(report: Report, managed: ManagedIds) returns (suggestions: seq<Suggestion>)
    ensures suggestions == Suggestions(report.host, DateOf(report.timestampUtc), report.rows, managed.Keys)
  {
    var date := DateOf(report.timestampUtc);
    suggestions := [];
    var i := 0;
    while i < |report.rows|
      invariant 0 <= i <= |report.rows|
      invariant suggestions == Suggestions(report.host, date, report.rows[..i], managed.Keys)
    {
      var row := report.rows[i];
      assert report.rows[..i + 1][..i] == report.rows[..i];
      if Suggestable(row) && row.ruleId !in managed {
        suggestions := suggestions + [SuggestionFor(report.host, date, row)];
      }
      i := i + 1;
    }
    assert report.rows[..i] == report.rows;
  }

  function Withheld(rows: seq<Row>, managed: ManagedIds): (r: seq<(string, RuleName)>)
    ensures forall p :: p in r <==> exists row :: row in rows && Suggestable(row) && row.ruleId in managed
                                               && p == (row.ruleId, managed[row.ruleId])
  {
    if rows == [] then []
    else
      var init, last := rows[..|rows| - 1], rows[|rows| - 1];
      assert rows == init + [last];
      Withheld(init, managed)
      + (if Suggestable(last) && last.ruleId in managed then [(last.ruleId, managed[last.ruleId])] else [])
  }

  function FailingIds(rows: seq<Row>): seq<string> {
    if rows == [] then []
    else FailingIds(rows[..|rows| - 1]) + (if Suggestable(rows[|rows| - 1]) then [rows[|rows| - 1].ruleId] else [])
  }

  // Each failing rule is either suggested or withheld, never both, and none is lost.
  lemma {:induction false} SuggestedOrWithheld(host: string, date: string, rows: seq<Row>, managed: ManagedIds)
    ensures |Suggestions(host, date, rows, managed.Keys)| + |Withheld(rows, managed)| == |FailingIds(rows)|
    ensures forall row :: row in rows && Suggestable(row) ==>
              if row.ruleId in managed then (row.ruleId, managed[row.ruleId]) in Withheld(rows, managed)
              else SuggestionFor(host, date, row) in Suggestions(host, date, rows, managed.Keys)
    ensures forall s, id :: s in Suggestions(host, date, rows, managed.Keys) && id in s.decl.stigRulesDisabled
                        ==> id !in managed
  {
    if rows != [] {
      SuggestedOrWithheld(host, date, rows[..|rows| - 1], managed);
    }
  }

  // ----- reconciling again with more expected failures

  // Growing the expected set by `added` turns exactly the failing rows it
  // names into expected failures and leaves every other category alone.
  lemma ReconcileAgain(current: Results, install: Option<Results>, expected: set<string>, added: set<string>)
    ensures |ReportRows(current, install, expected + added)| == |ReportRows(current, install, expected)|
    ensures forall k :: 0 <= k < |ReportRows(current, install, expected)| ==>
              var before, after := ReportRows(current, install, expected)[k], ReportRows(current, install, expected + added)[k];
              && after.ruleId == before.ruleId && after.current == before.current && after.install == before.install
              && after.category == if before.ruleId in added && Suggestable(before) then ExpectedFail else before.category
  {
    hide SortedIds, RowOf;
    var ids, before, after :=
      SortedIds(current.Keys), ReportRows(current, install, expected), ReportRows(current, install, expected + added);
    forall k | 0 <= k < |before|
      ensures before[k] == RowOf(ids[k], current, install, expected)
      ensures after[k] == RowOf(ids[k], current, install, expected + added)
      ensures ids[k] in current
    {
      assert ids[k] in ids;
    }
    AgainByRow(ids, current, install, expected, added);
  }

  lemma AgainByRow(ids: seq<string>, current: Results, install: Option<Results>, expected: set<string>, added: set<string>)
    requires forall id :: id in ids ==> id in current
    ensures forall id :: id in ids ==>
              var before, after := RowOf(id, current, install, expected), RowOf(id, current, install, expected + added);
              && after.ruleId == before.ruleId && after.current == before.current && after.install == before.install
              && after.category == if before.ruleId in added && Suggestable(before) then ExpectedFail else before.category
  {
  }

  lemma RowsAreKeys(current: Results, install: Option<Results>, expected: set<string>)
    ensures forall id :: id in current <==> exists k :: 0 <= k < |ReportRows(current, install, expected)|
                                                     && ReportRows(current, install, expected)[k].ruleId == id
    ensures SortedBy(ReportRows(current, install, expected), (a: Row, b: Row) => StrLe(a.ruleId, b.ruleId))
  {
    var ids, rows := SortedIds(current.Keys), ReportRows(current, install, expected);
    assert forall k :: 0 <= k < |rows| ==> rows[k].ruleId == ids[k];
    forall id | id in current
      ensures exists k :: 0 <= k < |rows| && rows[k].ruleId == id
    {
      assert id in ids;
      var k :| 0 <= k < |ids| && ids[k] == id;
      assert rows[k].ruleId == id;
    }
  }

  // ----- what each category means

  predicate PassesNow(s: ScanResult) {
    s == Pass || s == Fixed || s == NotApplicable || s == NotSelected || s == Informational
  }

  predicate NotDone(s: ScanResult) {
    s == Error || s == NotChecked || s == Unknown
  }

  // The rule did pass when the host was installed.
  predicate PassedAtInstall(install: Option<Results>, id: string) {
    install.Some? && id in install.value && PassesNow(install.value[id])
  }

  lemma RowIs(current: Results, install: Option<Results>, expected: set<string>, row: Row)
    requires row in ReportRows(current, install, expected)
    ensures row.ruleId in current && row == RowOf(row.ruleId, current, install, expected)
  {
    hide SortedIds;
    var ids, rows := SortedIds(current.Keys), ReportRows(current, install, expected);
    var k :| 0 <= k < |rows| && rows[k] == row;
    assert rows[k] == RowOf(ids[k], current, install, expected) && ids[k] in ids;
  }

  // A failure that nothing expects is a regression exactly when the rule passed
  // at install; every other category is decided without the baseline.
  lemma CategoriesIff(current: Results, install: Option<Results>, expected: set<string>, row: Row)
    requires row in ReportRows(current, install, expected)
    ensures row.ruleId in current && row.current == current[row.ruleId]
    ensures var now, id := current[row.ruleId], row.ruleId;
      && (row.category == Clean <==> PassesNow(now))
      && (row.category == Incomplete <==> NotDone(now))
      && (row.category == ExpectedFail <==> !PassesNow(now) && !NotDone(now) && id in expected)
      && (row.category == Regression <==>
            !PassesNow(now) && !NotDone(now) && id !in expected && PassedAtInstall(install, id))
      && (row.category == NewFail <==>
            !PassesNow(now) && !NotDone(now) && id !in expected && !PassedAtInstall(install, id))
  {
    RowIs(current, install, expected, row);
    hide ReportRows;
  }

  // Without the baseline exactly the regressions become new failures.
  lemma WithoutBaseline(current: Results, install: Option<Results>, expected: set<string>)
    ensures |ReportRows(current, None, expected)| == |ReportRows(current, install, expected)|
    ensures forall k :: 0 <= k < |ReportRows(current, install, expected)| ==>
              var with, without := ReportRows(current, install, expected)[k], ReportRows(current, None, expected)[k];
              && without.ruleId == with.ruleId && without.current == with.current
              && without.category == if with.category == Regression then NewFail else with.category
  {
    var ids, with, without :=
      SortedIds(current.Keys), ReportRows(current, install, expected), ReportRows(current, None, expected);
    hide SortedIds;
    forall k | 0 <= k < |with|
      ensures without[k].ruleId == with[k].ruleId && without[k].current == with[k].current
      ensures without[k].category == if with[k].category == Regression then NewFail else with[k].category
    {
      assert with[k] == RowOf(ids[k], current, install, expected);
      assert without[k] == RowOf(ids[k], current, None, expected);
    }
  }

  // A host is clean exactly when every rule that fails is expected to.
  lemma CleanIff(
    current: Results, install: Option<Results>, expected: set<string>, host: string, timestampUtc: string)
    ensures IsClean(Report(host, timestampUtc, ReportRows(current, install, expected)))
       <==> forall id :: id in current ==> PassesNow(current[id]) || NotDone(current[id]) || id in expected
  {
    var rows := ReportRows(current, install, expected);
    forall row | row in rows
      ensures Suggestable(row) <==>
                row.ruleId in current && !PassesNow(current[row.ruleId]) && !NotDone(current[row.ruleId]) && row.ruleId !in expected
    {
      CategoriesIff(current, install, expected, row);
    }
    hide ReportRows, PassesNow, NotDone, Suggestable;
    RowsAreKeys(current, install, expected);
    forall id | id in current
      ensures exists row :: row in rows && row.ruleId == id
    {
      var k :| 0 <= k < |rows| && rows[k].ruleId == id;
      assert rows[k] in rows;
    }
  }

  // ----- what a suggestion says

  lemma {:induction false} DateBefore(date: string, rest: string)
    requires 'T' !in date
    ensures DateOf(date + "T" + rest) == date && DateOf(date) == date
  {
    if date == "" {
      assert (date + "T" + rest)[0] == 'T';
    } else {
      assert date[0] in date && (date + "T" + rest)[1..] == date[1..] + "T" + rest;
      DateBefore(date[1..], rest);
    }
  }

  // It waives exactly the failing rule, under an id that tells a regression.
  lemma SuggestionSays(host: string, date: string, row: Row)
    requires Suggestable(row)
    ensures var s := SuggestionFor(host, date, row);
      && s.category == row.category && s.decl.stigRulesDisabled == [row.ruleId]
      && s.decl.id == (if row.category == Regression then "auto-regression-" else "auto-new_fail-") + row.ruleId
  {
    hide ReasonFor;
    assert "auto-" + "regression" + "-" == "auto-regression-";
    assert "auto-" + "new_fail" + "-" == "auto-new_fail-";
  }

  // `parse_arf`: a state outside the vocabulary reads as unknown.
  function ReadResult(text: string): ScanResult {
    if text == "pass" then Pass else if text == "fail" then Fail else if text == "fixed" then Fixed
    else if text == "notapplicable" then NotApplicable else if text == "notselected" then NotSelected
    else if text == "informational" then Informational else if text == "error" then Error
    else if text == "notchecked" then NotChecked else Unknown
  }

  // A reason names a scan's result as the scan did.
  lemma ResultReads(s: ScanResult)
    requires !s.Other?
    ensures ReadResult(ResultText(s)) == s
    ensures ResultText(s) in {"pass", "fail", "notapplicable", "notchecked", "notselected", "error", "unknown", "fixed", "informational"}
  {
  }

  lemma RegressionTexts()
    ensures ResultText(Fail) == "fail" && ResultText(Pass) == "pass" && CategoryText(Regression) == "regression"
    ensures CategoryText(NewFail) == "new_fail"
  {
  }

  lemma ReasonParts(host: string, date: string, row: Row, now: string, before: string, category: string)
    requires now == ResultText(row.current) && category == CategoryText(row.category)
    requires before == if row.install.Some? then ResultText(row.install.value) else "-"
    ensures ReasonFor(host, date, row)
         == "TODO: explain why \U{2014} auto-suggested " + date + " from " + host + " (current=" + now
            + ", install=" + before + ", category=" + category + ")"
  {
    hide ResultText, CategoryText;
  }

  // The rule r was not scanned when web1 was installed and fails now.
  lemma NewFailureSuggested()
    ensures var row := Row("r", Fail, None, false, NewFail);
      SuggestionFor("web1", DateOf("2024-05-01" + "T" + "08:30:00Z"), row).decl.reason
      == "TODO: explain why \U{2014} auto-suggested " + "2024-05-01" + " from " + "web1" + " (current=" + "fail"
         + ", install=" + "-" + ", category=" + "new_fail" + ")"
  {
    var row := Row("r", Fail, None, false, NewFail);
    assert 'T' !in "2024-05-01";
    hide DateOf, ReasonFor, ResultText, CategoryText, DeclId;
    DateBefore("2024-05-01", "08:30:00Z");
    RegressionTexts();
    ReasonParts("web1", "2024-05-01", row, "fail", "-", "new_fail");
  }

  // The rule r passed when web1 was installed and fails on the first of May.
  lemma RegressionSuggested()
    ensures var row := Row("r", Fail, Some(Pass), false, Regression);
      var s := SuggestionFor("web1", DateOf("2024-05-01" + "T" + "08:30:00Z"), row);
      s.decl.reason
      == "TODO: explain why \U{2014} auto-suggested " + "2024-05-01" + " from " + "web1" + " (current=" + "fail"
         + ", install=" + "pass" + ", category=" + "regression" + ")"
  {
    var row := Row("r", Fail, Some(Pass), false, Regression);
    assert 'T' !in "2024-05-01";
    hide DateOf, ReasonFor, ResultText, CategoryText, DeclId;
    DateBefore("2024-05-01", "08:30:00Z");
    RegressionTexts();
    ReasonParts("web1", "2024-05-01", row, "fail", "pass", "regression");
  }
}
