/** Verify run history: slim records, the JSONL store and trend analysis. */
module History {
  import opened Prelude
  import opened Yaml
  import Reconcile

  datatype RunRecord = RunRecord(
    host: string, user: string, timestampUtc: string,
    summary: seq<(string, int)>, isClean: bool, drift: bool, rows: seq<(string, string)>)

  predicate FailingCategory(category: string) {
    category == "new_fail" || category == "regression"
  }

  predicate FailingRow(row: (string, string)) {
    FailingCategory(row.1)
  }

  function RuleIdOf(row: (string, string)): string {
    row.0
  }

  function FailingRows(r: RunRecord): seq<(string, string)> {
    Filter(r.rows, FailingRow)
  }

  // `failing_rule_ids`
  function FailingRuleIds(r: RunRecord): set<string> {
    set row | row in FailingRows(r) :: row.0
  }

  // `dict(r.failing_rows)`: a later row of the same rule wins.
  function CategoryOf(r: RunRecord): map<string, (string, string)> {
    DictBy(FailingRows(r), RuleIdOf)
  }

  lemma CategoriesOfFailing(r: RunRecord)
    ensures CategoryOf(r).Keys == FailingRuleIds(r)
    ensures forall id :: id in CategoryOf(r) ==>
      CategoryOf(r)[id] in r.rows && CategoryOf(r)[id].0 == id && FailingCategory(CategoryOf(r)[id].1)
  {
    forall id | id in FailingRuleIds(r)
      ensures id in CategoryOf(r)
    {
      var row :| row in FailingRows(r) && row.0 == id;
      assert RuleIdOf(row) in CategoryOf(r);
    }
  }

  // ----- streaks

  datatype Streak = Streak(ruleId: string, category: string, length: nat)

  // How many of the most recent records in a row fail the rule.
  function StreakLength(records: seq<RunRecord>, id: string): (n: nat)
    ensures n <= |records|
  {
    if records == [] || id !in FailingRuleIds(records[|records| - 1]) then 0
    else 1 + StreakLength(records[..|records| - 1], id)
  }

  // It is the longest run of most-recent records that all fail the rule.
  lemma {:induction false} StreakIsLongest(records: seq<RunRecord>, id: string, n: nat)
    requires n <= |records|
    ensures n <= StreakLength(records, id) <==>
      forall k | |records| - n <= k < |records| :: id in FailingRuleIds(records[k])
  {
    if records != [] && n > 0 {
      var init := records[..|records| - 1];
      StreakIsLongest(init, id, n - 1);
      if id in FailingRuleIds(records[|init|]) {
        assert forall k | |init| - (n - 1) <= k < |init| :: init[k] == records[k];
      }
    }
  }

  predicate StreakLe(a: Streak, b: Streak) {
    a.length > b.length || (a.length == b.length && StrLe(a.ruleId, b.ruleId))
  }

  function LatestFailing(records: seq<RunRecord>): set<string> {
    if records == [] then {} else FailingRuleIds(records[|records| - 1])
  }

  // The streak of a rule that fails in the latest record.
  function StreakFor(records: seq<RunRecord>, id: string): Streak
    requires id in LatestFailing(records)
  {
    CategoriesOfFailing(records[|records| - 1]);
    Streak(id, CategoryOf(records[|records| - 1])[id].1, StreakLength(records, id))
  }

  function StreakSet(records: seq<RunRecord>, ids: set<string>): set<Streak>
    requires ids <= LatestFailing(records)
  {
    set id | id in ids :: StreakFor(records, id)
  }

  // One streak for every rule failing in the latest record, longest first.
  ghost predicate IsStreaks(records: seq<RunRecord>, result: seq<Streak>) {
    SortedBy(result, StreakLe) && multiset(result) == multiset(StreakSet(records, LatestFailing(records)))
  }

  lemma StreakOrder()
    ensures TotalPreorder(StreakLe)
  {
    forall a: Streak, b: Streak
      ensures StreakLe(a, b) || StreakLe(b, a)
    {
      StrLeTotal(a.ruleId, b.ruleId);
    }
    forall a: Streak, b: Streak, c: Streak | StreakLe(a, b) && StreakLe(b, c)
      ensures StreakLe(a, c)
    {
      if a.length == c.length {
        StrLeTransitive(a.ruleId, b.ruleId, c.ruleId);
      }
    }
  }

  // The inner walk, newest to oldest.
  method CountStreak(records: seq<RunRecord>, id: string) returns (length: nat)
    ensures length == StreakLength(records, id)
  {
    hide FailingRuleIds;
    length := 0;
    var i := |records|;
    assert records[..i] == records;
    while i > 0
      invariant 0 <= i <= |records|
      invariant length + StreakLength(records[..i], id) == StreakLength(records, id)
    {
      assert records[..i][..i - 1] == records[..i - 1];
      if id !in FailingRuleIds(records[i - 1]) {
        break;
      }
      length := length + 1;
      i := i - 1;
    }
  }

  lemma OneMore(records: seq<RunRecord>, ids: set<string>, id: string)
    requires ids <= LatestFailing(records) && id in LatestFailing(records) && id !in ids
    ensures multiset(StreakSet(records, ids + {id}))
         == multiset(StreakSet(records, ids)) + multiset{StreakFor(records, id)}
  {
    var s := StreakFor(records, id);
    assert StreakSet(records, ids + {id}) == StreakSet(records, ids) + {s};
    assert s !in StreakSet(records, ids);
  }

  // `streaks`; the set of failing rules is walked in any order.
  method Streaks(records: seq<RunRecord>) returns (result: seq<Streak>)
    ensures IsStreaks(records, result)
    ensures forall i, j :: 0 <= i < j < |result| ==>
      result[i].length > result[j].length
      || (result[i].length == result[j].length && StrLe(result[i].ruleId, result[j].ruleId))
  {
    hide StreakSet, StreakFor, FailingRuleIds, CategoryOf, StreakLe;
    result := [];
    if records == [] {
      assert StreakSet(records, {}) == {} by { NoStreaks(records); }
      return;
    }
    var latest := records[|records| - 1];
    var latestCat := CategoryOf(latest);
    CategoriesOfFailing(latest);
    var failing := FailingRuleIds(latest);
    var todo := failing;
    NoStreaks(records);
    assert failing - todo == {};
    while todo != {}
      invariant todo <= failing
      invariant multiset(result) == multiset(StreakSet(records, failing - todo))
      decreases |todo|
    {
      var id :| id in todo;
      OneMore(records, failing - todo, id);
      assert failing - (todo - {id}) == failing - todo + {id};
      todo := todo - {id};
      var length := CountStreak(records, id);
      StreakIs(records, id);
      result := result + [Streak(id, latestCat[id].1, length)];
    }
    assert failing - todo == failing;
    StreakOrder();
    SortSorted(result, StreakLe);
    SortMultiset(result, StreakLe);
    result := Sort(result, StreakLe);
    LongestFirst(result);
  }

  lemma LongestFirst(result: seq<Streak>)
    requires SortedBy(result, StreakLe)
    ensures forall i, j :: 0 <= i < j < |result| ==>
      result[i].length > result[j].length
      || (result[i].length == result[j].length && StrLe(result[i].ruleId, result[j].ruleId))
  {
    forall i, j | 0 <= i < j < |result|
      ensures StreakLe(result[i], result[j])
    {
    }
  }

  // Every streak is of a rule that fails now, under the category it fails with,
  // and as long as all of its most recent records fail it and the one before, if
  // there is one, does not.
  lemma StreakSays(records: seq<RunRecord>, result: seq<Streak>, s: Streak)
    requires IsStreaks(records, result) && s in result
    ensures records != [] && s.ruleId in FailingRuleIds(records[|records| - 1])
    ensures (s.ruleId, s.category) in records[|records| - 1].rows
            && (s.category == "new_fail" || s.category == "regression")
    ensures 0 < s.length <= |records|
    ensures forall k | |records| - s.length <= k < |records| :: s.ruleId in FailingRuleIds(records[k])
    ensures s.length < |records| ==> s.ruleId !in FailingRuleIds(records[|records| - s.length - 1])
  {
    StreakOfResult(records, result, s);
    CategoryNow(records, s.ruleId);
    hide FailingRuleIds, CategoryOf, StreakSet, IsStreaks, StreakLength;
    StreakIs(records, s.ruleId);
    StreakBounds(records, s.ruleId);
  }

  lemma CategoryNow(records: seq<RunRecord>, id: string)
    requires id in LatestFailing(records)
    ensures (id, StreakFor(records, id).category) in records[|records| - 1].rows
    ensures FailingCategory(StreakFor(records, id).category)
  {
    CategoriesOfFailing(records[|records| - 1]);
    hide FailingRuleIds, StreakLength;
    StreakIs(records, id);
    var row := CategoryOf(records[|records| - 1])[id];
    assert row == (row.0, row.1);
  }

  lemma StreakBounds(records: seq<RunRecord>, id: string)
    requires id in LatestFailing(records)
    ensures var n := StreakLength(records, id);
      && 0 < n <= |records|
      && (forall k | |records| - n <= k < |records| :: id in FailingRuleIds(records[k]))
      && (n < |records| ==> id !in FailingRuleIds(records[|records| - n - 1]))
  {
    hide FailingRuleIds, StreakLength;
    var n := StreakLength(records, id);
    StreakIsLongest(records, id, n);
    StreakIsLongest(records, id, 1);
    if n < |records| {
      StreakIsLongest(records, id, n + 1);
    }
  }

  lemma StreakOfResult(records: seq<RunRecord>, result: seq<Streak>, s: Streak)
    requires IsStreaks(records, result) && s in result
    ensures s.ruleId in LatestFailing(records) && s == StreakFor(records, s.ruleId)
  {
    var all := StreakSet(records, LatestFailing(records));
    assert s in multiset(result) && s in multiset(all);
    hide FailingRuleIds, CategoryOf, StreakFor;
    var id :| id in LatestFailing(records) && s == StreakFor(records, id);
    StreakIs(records, id);
  }

  lemma NoStreaks(records: seq<RunRecord>)
    ensures StreakSet(records, {}) == {}
  {
  }

  lemma StreakIs(records: seq<RunRecord>, id: string)
    requires id in LatestFailing(records)
    ensures id in CategoryOf(records[|records| - 1])
    ensures StreakFor(records, id) == Streak(id, CategoryOf(records[|records| - 1])[id].1, StreakLength(records, id))
  {
    CategoriesOfFailing(records[|records| - 1]);
  }

  // The result is the same whatever order the set was walked in.
  lemma StreaksAreUnique(records: seq<RunRecord>, a: seq<Streak>, b: seq<Streak>)
    requires IsStreaks(records, a) && IsStreaks(records, b)
    ensures a == b
  {
    var streaks := StreakSet(records, LatestFailing(records));
    forall x, y | x in a && y in a && StreakLe(x, y) && StreakLe(y, x)
      ensures x == y
    {
      assert x in multiset(a) && y in multiset(a);
      assert x in streaks && y in streaks;
      StrLeAntisymmetric(x.ruleId, y.ruleId);
    }
    SortedUnique(a, b, StreakLe);
  }

  // ----- what changed since the run before

  datatype Delta = Delta(sinceUtc: Option<string>, added: seq<(string, string)>, recovered: seq<(string, string)>)

  predicate PairLe(a: (string, string), b: (string, string)) {
    if a.0 == b.0 then StrLe(a.1, b.1) else StrLe(a.0, b.0)
  }

  // sorted((rid, cat) for rid, cat in now.items() if rid not in before)
  function NotIn(now: RunRecord, before: RunRecord): seq<(string, string)> {
    Sort(Filter(ValuesBy(FailingRows(now), RuleIdOf), (row: (string, string)) => row.0 !in CategoryOf(before)), PairLe)
  }

  // `delta`
  function DeltaOf(records: seq<RunRecord>): Delta {
    if |records| < 2 then Delta(None, [], [])
    else
      var prev, latest := records[|records| - 2], records[|records| - 1];
      Delta(Some(prev.timestampUtc), NotIn(latest, prev), NotIn(prev, latest))
  }

  function IdsOf(rows: seq<(string, string)>): set<string> {
    set row | row in rows :: row.0
  }

  lemma NotInIs(now: RunRecord, before: RunRecord, row: (string, string))
    ensures row in NotIn(now, before) <==>
      row.0 !in FailingRuleIds(before) && row.0 in FailingRuleIds(now) && CategoryOf(now)[row.0] == row
  {
    CategoriesOfFailing(now);
    CategoriesOfFailing(before);
    ValuesByIn(FailingRows(now), RuleIdOf, row);
    SortElements(Filter(ValuesBy(FailingRows(now), RuleIdOf), (r: (string, string)) => r.0 !in CategoryOf(before)), PairLe);
  }

  lemma NotInIds(now: RunRecord, before: RunRecord)
    ensures IdsOf(NotIn(now, before)) == FailingRuleIds(now) - FailingRuleIds(before)
  {
    hide NotIn, FailingRuleIds;
    CategoriesOfFailing(now);
    forall id | id in FailingRuleIds(now) - FailingRuleIds(before)
      ensures id in IdsOf(NotIn(now, before))
    {
      NotInIs(now, before, CategoryOf(now)[id]);
    }
    forall row | row in NotIn(now, before)
      ensures row.0 in FailingRuleIds(now) - FailingRuleIds(before)
    {
      NotInIs(now, before, row);
    }
  }

  lemma StreakOfOne(records: seq<RunRecord>, id: string)
    requires |records| >= 2
    ensures StreakLength(records, id) == 1 <==>
      id in FailingRuleIds(records[|records| - 1]) && id !in FailingRuleIds(records[|records| - 2])
  {
    hide FailingRuleIds;
    var init := records[..|records| - 1];
    assert init != [] && init[|init| - 1] == records[|records| - 2];
  }

  // The latest failures are the previous ones, minus the recovered, plus the added.
  lemma DeltaAccounts(records: seq<RunRecord>)
    requires |records| >= 2
    ensures var prev, latest, d := records[|records| - 2], records[|records| - 1], DeltaOf(records);
      && FailingRuleIds(latest) == FailingRuleIds(prev) - IdsOf(d.recovered) + IdsOf(d.added)
      && IdsOf(d.recovered) <= FailingRuleIds(prev)
      && IdsOf(d.added) * FailingRuleIds(prev) == {}
      && d.sinceUtc == Some(prev.timestampUtc)
  {
    var prev, latest := records[|records| - 2], records[|records| - 1];
    NotInIds(latest, prev);
    NotInIds(prev, latest);
    hide NotIn, FailingRuleIds, IdsOf;
    var now, before := FailingRuleIds(latest), FailingRuleIds(prev);
    assert now == before - (before - now) + (now - before);
  }

  // With two runs or more, the added rules are those with a streak of 1.
  lemma AddedIsStreakOne(records: seq<RunRecord>, streaks: seq<Streak>, id: string)
    requires IsStreaks(records, streaks)
    ensures |records| >= 2 ==>
      (id in IdsOf(DeltaOf(records).added) <==> exists s :: s in streaks && s.ruleId == id && s.length == 1)
    ensures |records| < 2 ==> DeltaOf(records) == Delta(None, [], [])
  {
    if |records| >= 2 {
      var prev, latest := records[|records| - 2], records[|records| - 1];
      NotInIds(latest, prev);
      StreakOfOne(records, id);
      hide NotIn, FailingRuleIds, IdsOf, StreakFor, StreakLe, StreakLength;
      StreakListed(records, streaks, id);
    }
  }

  lemma StreakListed(records: seq<RunRecord>, streaks: seq<Streak>, id: string)
    requires IsStreaks(records, streaks)
    ensures id in LatestFailing(records) <==> exists s :: s in streaks && s.ruleId == id
    ensures forall s :: s in streaks ==> s.length == StreakLength(records, s.ruleId)
  {
    var all := StreakSet(records, LatestFailing(records));
    forall s: Streak
      ensures s in streaks <==> s in all
    {
      assert s in multiset(streaks) <==> s in multiset(all);
    }
    if id in LatestFailing(records) {
      assert StreakFor(records, id) in all;
    }
  }

  lemma PairOrder()
    ensures TotalPreorder(PairLe)
  {
    forall a: (string, string), b: (string, string)
      ensures PairLe(a, b) || PairLe(b, a)
    {
      StrLeTotal(a.0, b.0);
      StrLeTotal(a.1, b.1);
    }
    forall a: (string, string), b: (string, string), c: (string, string) | PairLe(a, b) && PairLe(b, c)
      ensures PairLe(a, c)
    {
      if a.0 == b.0 == c.0 {
        StrLeTransitive(a.1, b.1, c.1);
      } else if a.0 != b.0 && b.0 != c.0 {
        StrLeTransitive(a.0, b.0, c.0);
        if a.0 == c.0 {
          StrLeAntisymmetric(a.0, b.0);
        }
      }
    }
  }

  lemma ByRuleFirst(rows: seq<(string, string)>)
    ensures SortedBy(rows, PairLe) ==> forall i, j :: 0 <= i < j < |rows| ==> StrLe(rows[i].0, rows[j].0)
  {
    if SortedBy(rows, PairLe) {
      forall i, j | 0 <= i < j < |rows|
        ensures StrLe(rows[i].0, rows[j].0)
      {
        assert PairLe(rows[i], rows[j]);
        StrLeTotal(rows[i].0, rows[i].0);
      }
    }
  }

  lemma DeltaRows(records: seq<RunRecord>)
    ensures forall row :: row in DeltaOf(records).added ==> |records| >= 2 && row in records[|records| - 1].rows
    ensures forall row :: row in DeltaOf(records).recovered ==> |records| >= 2 && row in records[|records| - 2].rows
  {
    if |records| >= 2 {
      var prev, latest := records[|records| - 2], records[|records| - 1];
      CategoriesOfFailing(prev);
      CategoriesOfFailing(latest);
      hide NotIn, FailingRuleIds;
      forall row | row in NotIn(latest, prev)
        ensures row in latest.rows
      {
        NotInIs(latest, prev, row);
      }
      forall row | row in NotIn(prev, latest)
        ensures row in prev.rows
      {
        NotInIs(prev, latest, row);
      }
    }
  }

  lemma DeltaIsSorted(records: seq<RunRecord>)
    ensures forall i, j :: 0 <= i < j < |DeltaOf(records).added| ==>
              StrLe(DeltaOf(records).added[i].0, DeltaOf(records).added[j].0)
    ensures forall i, j :: 0 <= i < j < |DeltaOf(records).recovered| ==>
              StrLe(DeltaOf(records).recovered[i].0, DeltaOf(records).recovered[j].0)
    ensures forall row :: row in DeltaOf(records).added ==> row in records[|records| - 1].rows
    ensures forall row :: row in DeltaOf(records).recovered ==> row in records[|records| - 2].rows
  {
    PairOrder();
    ByRuleFirst(DeltaOf(records).added);
    ByRuleFirst(DeltaOf(records).recovered);
    DeltaRows(records);
    hide StrLe;
    if |records| >= 2 {
      var prev, latest := records[|records| - 2], records[|records| - 1];
      SortSorted(Filter(ValuesBy(FailingRows(latest), RuleIdOf), (r: (string, string)) => r.0 !in CategoryOf(prev)), PairLe);
      SortSorted(Filter(ValuesBy(FailingRows(prev), RuleIdOf), (r: (string, string)) => r.0 !in CategoryOf(latest)), PairLe);
    }
  }

  // ----- the record of a report

  function RecordRows(rows: seq<Reconcile.Row>): seq<(string, string)> {
    if rows == [] then []
    else
      (if rows[0].category == Reconcile.Clean then []
       else [(rows[0].ruleId, Reconcile.CategoryText(rows[0].category))]) + RecordRows(rows[1..])
  }

  function CountOf(rows: seq<Reconcile.Row>, category: Reconcile.Category): nat {
    if rows == [] then 0 else (if rows[0].category == category then 1 else 0) + CountOf(rows[1..], category)
  }

  function SummaryOf(rows: seq<Reconcile.Row>): seq<(string, int)> {
    [("clean", CountOf(rows, Reconcile.Clean)), ("expected_fail", CountOf(rows, Reconcile.ExpectedFail)),
     ("new_fail", CountOf(rows, Reconcile.NewFail)), ("regression", CountOf(rows, Reconcile.Regression)),
     ("incomplete", CountOf(rows, Reconcile.Incomplete))]
  }

  // `record_from_report`; drift is `has_tailoring_drift`.
  function RecordFromReport(report: Reconcile.Report, user: string, drift: bool): RunRecord {
    RunRecord(report.host, user, report.timestampUtc, SummaryOf(report.rows), Reconcile.IsClean(report), drift,
              RecordRows(report.rows))
  }

  function SumOf(summary: seq<(string, int)>): int {
    if summary == [] then 0 else summary[0].1 + SumOf(summary[1..])
  }

  lemma CategoryTextFails(c: Reconcile.Category)
    ensures FailingCategory(Reconcile.CategoryText(c)) <==> c == Reconcile.NewFail || c == Reconcile.Regression
  {
  }

  lemma {:induction false} RecordedRows(rows: seq<Reconcile.Row>, id: string)
    ensures (exists row :: row in RecordRows(rows) && row.0 == id && FailingCategory(row.1)) <==>
      exists row :: row in rows && row.ruleId == id && Reconcile.Suggestable(row)
    ensures CountOf(rows, Reconcile.Clean) + |RecordRows(rows)| == |rows|
    ensures CountOf(rows, Reconcile.Clean) + CountOf(rows, Reconcile.ExpectedFail) + CountOf(rows, Reconcile.NewFail)
      + CountOf(rows, Reconcile.Regression) + CountOf(rows, Reconcile.Incomplete) == |rows|
  {
    if rows != [] {
      RecordedRows(rows[1..], id);
      CategoryTextFails(rows[0].category);
      assert rows == [rows[0]] + rows[1..];
    }
  }

  lemma {:induction false} CountIs(rows: seq<Reconcile.Row>, category: Reconcile.Category)
    ensures CountOf(rows, category) == |Filter(rows, (r: Reconcile.Row) => r.category == category)|
  {
    if rows != [] {
      CountIs(rows[1..], category);
    }
  }

  // A kept row, its category named as the summary names it.
  function KeptRow(row: Reconcile.Row): (string, string) {
    (row.ruleId,
     if row.category == Reconcile.ExpectedFail then "expected_fail" else if row.category == Reconcile.NewFail then "new_fail"
     else if row.category == Reconcile.Regression then "regression" else "incomplete")
  }

  lemma {:induction false} RecordRowsAre(rows: seq<Reconcile.Row>)
    ensures RecordRows(rows)
         == Map(Filter(rows, (r: Reconcile.Row) => r.category != Reconcile.Clean), (r: Reconcile.Row) => KeptRow(r))
  {
    if rows != [] {
      RecordRowsAre(rows[1..]);
    }
  }

  // What is recorded: who and when, how many rows of each category, and the rows
  // that are not clean, in their order.
  lemma RecordSays(report: Reconcile.Report, user: string, drift: bool)
    ensures var r := RecordFromReport(report, user, drift);
      var count := (c: Reconcile.Category) => |Filter(report.rows, (row: Reconcile.Row) => row.category == c)|;
      && r.host == report.host && r.user == user && r.timestampUtc == report.timestampUtc && r.drift == drift
      && r.summary
         == [("clean", count(Reconcile.Clean)), ("expected_fail", count(Reconcile.ExpectedFail)),
             ("new_fail", count(Reconcile.NewFail)), ("regression", count(Reconcile.Regression)),
             ("incomplete", count(Reconcile.Incomplete))]
      && r.rows
         == Map(Filter(report.rows, (row: Reconcile.Row) => row.category != Reconcile.Clean),
                (row: Reconcile.Row) => KeptRow(row))
  {
    RecordRowsAre(report.rows);
    forall c
      ensures CountOf(report.rows, c) == |Filter(report.rows, (row: Reconcile.Row) => row.category == c)|
    {
      CountIs(report.rows, c);
    }
  }

  // The record keeps the report's failing rules and its verdict; the rows it
  // drops are the clean ones, which the summary still counts.
  lemma RecordKeepsVerdict(report: Reconcile.Report, user: string, drift: bool)
    ensures var r := RecordFromReport(report, user, drift);
      && (forall id :: id in FailingRuleIds(r) <==>
            exists row :: row in report.rows && row.ruleId == id && Reconcile.Suggestable(row))
      && (r.isClean <==> FailingRuleIds(r) == {})
      && r.summary[0].1 == |report.rows| - |r.rows|
      && SumOf(r.summary) == |report.rows|
  {
    var r := RecordFromReport(report, user, drift);
    forall id
      ensures id in FailingRuleIds(r) <==>
        exists row :: row in report.rows && row.ruleId == id && Reconcile.Suggestable(row)
    {
      RecordedRows(report.rows, id);
      assert id in FailingRuleIds(r) <==> exists row :: row in r.rows && row.0 == id && FailingCategory(row.1);
    }
    if !r.isClean {
      var row :| row in report.rows && Reconcile.Suggestable(row);
      assert row.ruleId in FailingRuleIds(r);
    }
    RecordedRows(report.rows, "");
    SumOfFive(r.summary);
  }

  lemma SumOfFive(summary: seq<(string, int)>)
    requires |summary| == 5
    ensures SumOf(summary) == summary[0].1 + summary[1].1 + summary[2].1 + summary[3].1 + summary[4].1
  {
    assert SumOf(summary[1..]) == summary[1].1 + SumOf(summary[1..][1..]);
    assert SumOf(summary[1..][1..]) == summary[2].1 + SumOf(summary[1..][1..][1..]);
    assert SumOf(summary[1..][1..][1..]) == summary[3].1 + SumOf(summary[1..][1..][1..][1..]);
    assert SumOf(summary[1..][1..][1..][1..]) == summary[4].1 + SumOf(summary[1..][1..][1..][1..][1..]);
  }

  // ----- the store

  // `int(...)`: refused with a ValueError or TypeError, which the reader
  // catches, or with an OverflowError, which it does not.
  datatype ToInt = Int(number: int) | Refused | Overflows

  // Python's `str(...)` and `int(...)` on a parsed value.
  datatype Coercions = Coercions(toStr: Value -> string, toInt: Value -> ToInt)

  ghost predicate CoercesBack(py: Coercions) {
    && (forall s :: py.toStr(Text(s)) == s)
    && (forall n :: py.toInt(Number(n)) == Int(n))
  }

  function RowValue(row: (string, string)): Value {
    List([Text(row.0), Text(row.1)])
  }

  function CountEntry(entry: (string, int)): (string, Value) {
    (entry.0, Number(entry.1))
  }

  // `_record_to_dict`
  function RecordToDict(r: RunRecord): Value {
    Dict([("host", Text(r.host)), ("user", Text(r.user)), ("timestamp_utc", Text(r.timestampUtc)),
          ("summary", Dict(Map(r.summary, CountEntry))), ("is_clean", Flag(r.isClean)), ("drift", Flag(r.drift)),
          ("rows", List(Map(r.rows, RowValue)))])
  }

  // Iterating a parsed value: a mapping gives its keys, a text its characters.
  function Items(v: Value): Option<seq<Value>> {
    match v
    case List(items) => Some(items)
    case Dict(entries) => Some(Map(entries, (e: (string, Value)) => Text(e.0)))
    case Text(s) => Some(Map(s, (c: char) => Text([c])))
    case _ => None
  }

  // v[i]
  function Item(v: Value, i: nat): Option<Value> {
    match v
    case List(items) => if i < |items| then Some(items[i]) else None
    case Text(s) => if i < |s| then Some(Text([s[i]])) else None
    case _ => None
  }

  function ReadRows(py: Coercions, items: seq<Value>): Option<seq<(string, string)>> {
    if items == [] then Some([])
    else
      match (Item(items[0], 0), Item(items[0], 1), ReadRows(py, items[1..]))
      case (Some(a), Some(b), Some(rest)) => Some([(py.toStr(a), py.toStr(b))] + rest)
      case _ => None
  }

  // What reading comes to: a value, ConfigError, or an error of another kind.
  datatype Reading<T> = Got(value: T) | Rejected | Raised

  // {str(k): int(v) for k, v in ...}: the first number that cannot be read decides.
  function ReadSummary(py: Coercions, entries: seq<(string, Value)>): Reading<seq<(string, int)>> {
    if entries == [] then Got([])
    else
      match py.toInt(entries[0].1)
      case Refused => Rejected
      case Overflows => Raised
      case Int(n) =>
        match ReadSummary(py, entries[1..])
        case Got(rest) => Got([(entries[0].0, n)] + rest)
        case Rejected => Rejected
        case Raised => Raised
  }

  // `_record_from_dict`
  function RecordFromDict(py: Coercions, data: Value): Reading<RunRecord> {
    if !data.Dict? then Rejected
    else
      var es := data.entries;
      var rows := match Get(es, "rows")
                  case Some(v) => (match Items(v) case Some(items) => ReadRows(py, items) case None => None)
                  case None => None;
      var summary := match Get(es, "summary")
                     case Some(Dict(entries)) => ReadSummary(py, entries)
                     case _ => Rejected;
      if rows == None then Rejected
      else if summary == Raised then Raised
      else
        match (summary, Get(es, "host"), Get(es, "user"), Get(es, "timestamp_utc"), Get(es, "is_clean"), Get(es, "drift"))
        case (Got(s), Some(h), Some(u), Some(t), Some(c), Some(d)) =>
          Got(RunRecord(py.toStr(h), py.toStr(u), py.toStr(t), s, Truthy(c), Truthy(d), rows.value))
        case _ => Rejected
  }

  lemma {:induction false} RowsReadBack(py: Coercions, rows: seq<(string, string)>)
    requires CoercesBack(py)
    ensures ReadRows(py, Map(rows, RowValue)) == Some(rows)
  {
    if rows != [] {
      RowsReadBack(py, rows[1..]);
      assert Map(rows, RowValue)[1..] == Map(rows[1..], RowValue);
      assert rows == [rows[0]] + rows[1..];
    }
  }

  lemma {:induction false} SummaryReadBack(py: Coercions, summary: seq<(string, int)>)
    requires CoercesBack(py)
    ensures ReadSummary(py, Map(summary, CountEntry)) == Got(summary)
  {
    if summary != [] {
      SummaryReadBack(py, summary[1..]);
      assert Map(summary, CountEntry)[1..] == Map(summary[1..], CountEntry);
      assert summary == [summary[0]] + summary[1..];
    }
  }

  lemma {:induction false} GetAt(entries: seq<(string, Value)>, i: nat)
    requires i < |entries| && DistinctBy(entries, (e: (string, Value)) => e.0)
    ensures Get(entries, entries[i].0) == Some(entries[i].1)
  {
    var key := (e: (string, Value)) => e.0;
    if i > 0 {
      assert key(entries[0]) != key(entries[i]);
      forall a, b | 0 <= a < b < |entries[1..]|
        ensures key(entries[1..][a]) != key(entries[1..][b])
      {
        assert key(entries[a + 1]) != key(entries[b + 1]);
      }
      GetAt(entries[1..], i - 1);
    }
  }

  lemma RecordKeys(r: RunRecord)
    ensures DistinctBy(RecordToDict(r).entries, (e: (string, Value)) => e.0)
  {
    hide Map;
    assert |"host"| == 4 && |"user"| == 4 && |"rows"| == 4 && |"drift"| == 5 && |"summary"| == 7 && |"is_clean"| == 8;
    assert |"timestamp_utc"| == 13;
  }

  // Every field that is written is found under its name.
  lemma RecordFields(r: RunRecord)
    ensures var es := RecordToDict(r).entries;
      && Get(es, "host") == Some(Text(r.host)) && Get(es, "user") == Some(Text(r.user))
      && Get(es, "timestamp_utc") == Some(Text(r.timestampUtc))
      && Get(es, "summary") == Some(Dict(Map(r.summary, CountEntry)))
      && Get(es, "is_clean") == Some(Flag(r.isClean)) && Get(es, "drift") == Some(Flag(r.drift))
      && Get(es, "rows") == Some(List(Map(r.rows, RowValue)))
  {
    RecordKeys(r);
    hide Map, Get;
    var es := RecordToDict(r).entries;
    GetAt(es, 0);
    GetAt(es, 1);
    GetAt(es, 2);
    GetAt(es, 3);
    GetAt(es, 4);
    GetAt(es, 5);
    GetAt(es, 6);
  }

  // What is written is read back.
  lemma RecordReadsBack(py: Coercions, r: RunRecord)
    requires CoercesBack(py)
    ensures RecordFromDict(py, RecordToDict(r)) == Got(r)
  {
    RecordFields(r);
    RowsReadBack(py, r.rows);
    SummaryReadBack(py, r.summary);
    hide Map, Get, ReadRows, ReadSummary, RecordToDict;
    assert RecordToDict(r).Dict?;
  }

  ghost predicate RowsOf(py: Coercions, items: seq<Value>, rows: seq<(string, string)>) {
    |rows| == |items| && forall k :: 0 <= k < |items| ==> RowOf(py, items[k], rows[k])
  }

  predicate RowOf(py: Coercions, item: Value, row: (string, string)) {
    && Item(item, 0).Some? && Item(item, 1).Some?
    && row.0 == py.toStr(Item(item, 0).value) && row.1 == py.toStr(Item(item, 1).value)
  }

  lemma {:induction false} RowsReadIff(py: Coercions, items: seq<Value>, rows: seq<(string, string)>)
    ensures ReadRows(py, items) == Some(rows) <==> RowsOf(py, items, rows)
  {
    if items != [] && rows != [] {
      RowsReadIff(py, items[1..], rows[1..]);
      assert rows == [rows[0]] + rows[1..];
      assert RowsOf(py, items, rows) <==> RowOf(py, items[0], rows[0]) && RowsOf(py, items[1..], rows[1..]) by {
        if RowOf(py, items[0], rows[0]) && RowsOf(py, items[1..], rows[1..]) {
          forall k | 0 < k < |items|
            ensures RowOf(py, items[k], rows[k])
          {
            assert RowOf(py, items[1..][k - 1], rows[1..][k - 1]);
          }
        }
      }
    }
  }

  ghost predicate CountsOf(py: Coercions, counts: seq<(string, Value)>, summary: seq<(string, int)>) {
    |summary| == |counts|
    && forall k :: 0 <= k < |counts| ==> summary[k].0 == counts[k].0 && py.toInt(counts[k].1) == Int(summary[k].1)
  }

  lemma {:induction false} SummaryReadIff(py: Coercions, counts: seq<(string, Value)>, summary: seq<(string, int)>)
    ensures ReadSummary(py, counts) == Got(summary) <==> CountsOf(py, counts, summary)
  {
    if counts != [] && summary != [] {
      SummaryReadIff(py, counts[1..], summary[1..]);
      assert summary == [summary[0]] + summary[1..];
      if CountsOf(py, counts[1..], summary[1..]) {
        forall k | 0 < k < |counts|
          ensures summary[k].0 == counts[k].0 && py.toInt(counts[k].1) == Int(summary[k].1)
        {
          assert summary[1..][k - 1].0 == counts[1..][k - 1].0;
        }
      }
    }
  }

  // Which parsed mappings are records: all seven keys, rows of two items at least,
  // and a summary of numbers; and what they read as.
  lemma RecordReadIff(py: Coercions, es: seq<(string, Value)>, r: RunRecord)
    ensures RecordFromDict(py, Dict(es)) == Got(r) <==>
      && Get(es, "rows").Some? && Items(Get(es, "rows").value).Some? && RowsOf(py, Items(Get(es, "rows").value).value, r.rows)
      && Get(es, "summary").Some? && Get(es, "summary").value.Dict?
      && CountsOf(py, Get(es, "summary").value.entries, r.summary)
      && Get(es, "host").Some? && r.host == py.toStr(Get(es, "host").value)
      && Get(es, "user").Some? && r.user == py.toStr(Get(es, "user").value)
      && Get(es, "timestamp_utc").Some? && r.timestampUtc == py.toStr(Get(es, "timestamp_utc").value)
      && Get(es, "is_clean").Some? && r.isClean == Truthy(Get(es, "is_clean").value)
      && Get(es, "drift").Some? && r.drift == Truthy(Get(es, "drift").value)
  {
    hide Get, Items, ReadRows, ReadSummary, RowsOf, CountsOf, Truthy;
    if Get(es, "rows").Some? && Items(Get(es, "rows").value).Some? {
      RowsReadIff(py, Items(Get(es, "rows").value).value, r.rows);
    }
    if Get(es, "summary").Some? && Get(es, "summary").value.Dict? {
      SummaryReadIff(py, Get(es, "summary").value.entries, r.summary);
    }
  }

  // A record ends in an error that is no ConfigError exactly when its rows can be
  // read and some count overflows with none before it refused.
  lemma RecordRaisesIff(py: Coercions, entries: seq<(string, Value)>)
    ensures RecordFromDict(py, Dict(entries)).Raised? <==>
      && RowsReadable(py, entries)
      && Get(entries, "summary").Some? && Get(entries, "summary").value.Dict?
      && exists k :: Overflow(py, Get(entries, "summary").value.entries, k)
  {
    if Get(entries, "summary").Some? && Get(entries, "summary").value.Dict? {
      SummaryRaisesIff(py, Get(entries, "summary").value.entries);
    }
  }

  predicate RowsReadable(py: Coercions, entries: seq<(string, Value)>) {
    && Get(entries, "rows").Some?
    && Items(Get(entries, "rows").value).Some?
    && ReadRows(py, Items(Get(entries, "rows").value).value).Some?
  }

  // The k-th count overflows, and those before it are numbers.
  predicate Overflow(py: Coercions, counts: seq<(string, Value)>, k: int) {
    0 <= k < |counts| && py.toInt(counts[k].1) == Overflows && forall j :: 0 <= j < k ==> py.toInt(counts[j].1).Int?
  }

  lemma {:induction false} SummaryRaisesIff(py: Coercions, counts: seq<(string, Value)>)
    ensures ReadSummary(py, counts).Raised? <==> exists k :: Overflow(py, counts, k)
  {
    if counts != [] {
      var rest := counts[1..];
      SummaryRaisesIff(py, rest);
      if k :| Overflow(py, rest, k) && py.toInt(counts[0].1).Int? {
        assert forall j :: 0 < j < |counts| ==> counts[j] == rest[j - 1];
        assert Overflow(py, counts, k + 1);
      }
      if k :| Overflow(py, counts, k) {
        if k > 0 {
          assert forall j :: 0 < j < |counts| ==> counts[j] == rest[j - 1];
          assert Overflow(py, rest, k - 1);
        } else {
          assert ReadSummary(py, counts).Raised?;
        }
      } else if py.toInt(counts[0].1) == Overflows {
        assert Overflow(py, counts, 0);
      }
    }
  }

  // {"rows": [], "summary": {"clean": Infinity}}
  lemma InfiniteCountRaises(py: Coercions)
    requires py.toInt(Float(Infinite(false))) == Overflows
    ensures RecordFromDict(py, Dict([("rows", List([])), ("summary", Dict([("clean", Float(Infinite(false)))]))])).Raised?
  {
    var entries := [("rows", List([])), ("summary", Dict([("clean", Float(Infinite(false)))]))];
    assert Get(entries, "summary") == Get(entries[1..], "summary") == Some(Dict([("clean", Float(Infinite(false)))]));
    assert ReadSummary(py, [("clean", Float(Infinite(false)))]) == Raised;
  }

  // ----- reading a host's file

  // A line of the file: white space only, no JSON, one on which the parser raises
  // an error of another kind (an integer of too many digits), or a parsed value.
  datatype Line = Blank | BadJson | JsonRaises | Json(data: Value)

  // Two ConfigErrors, and an error that is none.
  datatype HistoryError = InvalidJson(lineno: nat) | Malformed(lineno: nat) | Uncaught(lineno: nat)

  predicate TimeLe(a: RunRecord, b: RunRecord) {
    StrLe(a.timestampUtc, b.timestampUtc)
  }

  predicate Bad(py: Coercions, line: Line) {
    line.BadJson? || line.JsonRaises? || (line.Json? && !RecordFromDict(py, line.data).Got?)
  }

  predicate Raises(py: Coercions, line: Line) {
    line.JsonRaises? || (line.Json? && RecordFromDict(py, line.data).Raised?)
  }

  // The records of the lines, none of them bad, in file order.
  function RecordsOf(py: Coercions, lines: seq<Line>): seq<RunRecord> {
    if lines == [] then []
    else
      RecordsOf(py, lines[..|lines| - 1])
      + (match lines[|lines| - 1]
         case Json(data) => (match RecordFromDict(py, data) case Got(r) => [r] case _ => [])
         case _ => [])
  }

  // `read_host_history`
  method ReadHostHistory(py: Coercions, lines: seq<Line>) returns (r: Result<seq<RunRecord>, HistoryError>)
    ensures r.Ok? ==> (forall k | 0 <= k < |lines| :: !Bad(py, lines[k])) && r.value == Sort(RecordsOf(py, lines), TimeLe)
    ensures r.Err? ==>
      var k := r.error.lineno - 1;
      0 <= k < |lines| && Bad(py, lines[k]) && (forall j | 0 <= j < k :: !Bad(py, lines[j]))
      && (r.error.InvalidJson? <==> lines[k].BadJson?)
      && (r.error.Uncaught? <==> Raises(py, lines[k]))
  {
    hide RecordFromDict;
    var records := [];
    var i := 0;
    while i < |lines|
      invariant 0 <= i <= |lines|
      invariant records == RecordsOf(py, lines[..i])
      invariant forall k | 0 <= k < i :: !Bad(py, lines[k])
    {
      assert lines[..i + 1][..i] == lines[..i];
      match lines[i] {
        case Blank =>
        case BadJson =>
          return Err(InvalidJson(i + 1));
        case JsonRaises =>
          return Err(Uncaught(i + 1));
        case Json(data) =>
          match RecordFromDict(py, data) {
            case Rejected =>
              return Err(Malformed(i + 1));
            case Raised =>
              return Err(Uncaught(i + 1));
            case Got(record) =>
              records := records + [record];
          }
      }
      i := i + 1;
    }
    assert lines[..i] == lines;
    r := Ok(Sort(records, TimeLe));
  }

  lemma TimeOrder()
    ensures TotalPreorder(TimeLe)
  {
    forall a: RunRecord, b: RunRecord
      ensures TimeLe(a, b) || TimeLe(b, a)
    {
      StrLeTotal(a.timestampUtc, b.timestampUtc);
    }
    forall a: RunRecord, b: RunRecord, c: RunRecord | TimeLe(a, b) && TimeLe(b, c)
      ensures TimeLe(a, c)
    {
      StrLeTransitive(a.timestampUtc, b.timestampUtc, c.timestampUtc);
    }
  }

  predicate At(t: string, r: RunRecord) {
    r.timestampUtc == t
  }

  lemma {:induction false} InsertKeepsTies(x: RunRecord, rs: seq<RunRecord>, t: string)
    requires SortedBy(rs, TimeLe)
    ensures Filter(Insert(x, rs, TimeLe), (r: RunRecord) => At(t, r)) == Filter([x] + rs, (r: RunRecord) => At(t, r))
  {
    var p := (r: RunRecord) => At(t, r);
    assert ([x] + rs)[1..] == rs;
    if rs != [] && !TimeLe(x, rs[0]) {
      InsertKeepsTies(x, rs[1..], t);
      assert ([x] + rs[1..])[1..] == rs[1..];
      var tail := Insert(x, rs[1..], TimeLe);
      assert ([rs[0]] + tail)[1..] == tail;
      if x.timestampUtc == rs[0].timestampUtc {
        StrLeTotal(x.timestampUtc, x.timestampUtc);
      }
    }
  }

  lemma OldestFirst(rs: seq<RunRecord>)
    requires SortedBy(rs, TimeLe)
    ensures forall i, j :: 0 <= i < j < |rs| ==> StrLe(rs[i].timestampUtc, rs[j].timestampUtc)
  {
    hide StrLe;
    forall i, j | 0 <= i < j < |rs|
      ensures StrLe(rs[i].timestampUtc, rs[j].timestampUtc)
    {
      assert TimeLe(rs[i], rs[j]);
    }
  }

  // The history is oldest first; runs with one timestamp keep the file's order.
  lemma {:induction false} HistoryOrder(records: seq<RunRecord>, t: string)
    ensures forall i, j :: 0 <= i < j < |records| ==>
              |Sort(records, TimeLe)| == |records|
              && StrLe(Sort(records, TimeLe)[i].timestampUtc, Sort(records, TimeLe)[j].timestampUtc)
    ensures multiset(Sort(records, TimeLe)) == multiset(records)
    ensures Filter(Sort(records, TimeLe), (r: RunRecord) => At(t, r)) == Filter(records, (r: RunRecord) => At(t, r))
  {
    TimeOrder();
    SortSorted(records, TimeLe);
    SortElements(records, TimeLe);
    OldestFirst(Sort(records, TimeLe));
    SortMultiset(records, TimeLe);
    if records != [] {
      HistoryOrder(records[1..], t);
      var tail := Sort(records[1..], TimeLe);
      InsertKeepsTies(records[0], tail, t);
      assert ([records[0]] + tail)[1..] == tail;
      assert Sort(records, TimeLe) == Insert(records[0], tail, TimeLe);
    }
  }

  // `write_record`: one more line at the end of the file.
  function WriteRecord(lines: seq<Line>, r: RunRecord): seq<Line> {
    lines + [Json(RecordToDict(r))]
  }

  function WriteAll(lines: seq<Line>, records: seq<RunRecord>): seq<Line> {
    if records == [] then lines else WriteRecord(WriteAll(lines, records[..|records| - 1]), records[|records| - 1])
  }

  lemma {:induction false} SortedStays(records: seq<RunRecord>)
    requires SortedBy(records, TimeLe)
    ensures Sort(records, TimeLe) == records
  {
    if records != [] {
      SortedStays(records[1..]);
      if |records| > 1 {
        assert TimeLe(records[0], records[1]);
      }
      assert records == [records[0]] + records[1..];
    }
  }

  lemma LineReadsBack(py: Coercions, lines: seq<Line>, r: RunRecord)
    requires CoercesBack(py)
    ensures RecordsOf(py, WriteRecord(lines, r)) == RecordsOf(py, lines) + [r]
    ensures !Bad(py, Json(RecordToDict(r)))
  {
    RecordReadsBack(py, r);
    hide RecordFromDict, RecordToDict;
    var more := WriteRecord(lines, r);
    assert more[..|more| - 1] == lines;
  }

  lemma {:induction false} LinesReadBack(py: Coercions, records: seq<RunRecord>)
    requires CoercesBack(py)
    ensures var lines := WriteAll([], records);
      RecordsOf(py, lines) == records && forall line :: line in lines ==> !Bad(py, line)
  {
    hide RecordFromDict, RecordToDict, Bad, RecordsOf, CoercesBack;
    if records == [] {
      NoRecords(py);
    } else {
      var n := |records| - 1;
      LinesReadBack(py, records[..n]);
      LineReadsBack(py, WriteAll([], records[..n]), records[n]);
      assert records == records[..n] + [records[n]];
    }
  }

  lemma NoRecords(py: Coercions)
    ensures RecordsOf(py, []) == []
  {
  }

  // Runs recorded one after the other, in time order, are the history read back.
  lemma HistoryReadsBack(py: Coercions, records: seq<RunRecord>)
    requires CoercesBack(py)
    ensures var lines := WriteAll([], records);
      && (forall line :: line in lines ==> !Bad(py, line))
      && (SortedBy(records, TimeLe) ==> Sort(RecordsOf(py, lines), TimeLe) == records)
  {
    hide *;
    LinesReadBack(py, records);
    if SortedBy(records, TimeLe) {
      SortedStays(records);
    }
  }
}
