/** verify, suggest, apply, verify again: what accepting exceptions does to the
    expected failures, the report and the next suggestions. */
module VerifyLoop {
  import opened Prelude
  import opened Rules
  import opened RunOrder
  import opened Render
  import opened Reconcile
  import opened Yaml
  import opened ApplyExceptions

  function WithExceptions(cfg: Config, decls: seq<ExceptionDecl>): Config {
    cfg.(exceptions := cfg.exceptions + decls)
  }

  lemma {:induction false} DeclaredConcat(a: seq<ExceptionDecl>, b: seq<ExceptionDecl>)
    ensures DeclaredIds(a + b) == DeclaredIds(a) + DeclaredIds(b)
  {
    if b == [] {
      assert a + b == a;
    } else {
      assert (a + b)[..|a + b| - 1] == a + b[..|b| - 1];
      DeclaredConcat(a, b[..|b| - 1]);
    }
  }

  // A rule's own entry ignores the operator's exceptions, except that
  // time_servers drops its entry once the operator declares the NTS rule.
  lemma EntryAfter(n: RuleName, cfg: Config, decls: seq<ExceptionDecl>, id: string)
    ensures Applies(n, WithExceptions(cfg, decls)) == Applies(n, cfg)
    ensures Affected(n, WithExceptions(cfg, decls)) == Affected(n, cfg)
    ensures id in EntryIds(n, WithExceptions(cfg, decls)) ==> id in EntryIds(n, cfg)
    ensures id in EntryIds(n, cfg)
        ==> id in EntryIds(n, WithExceptions(cfg, decls)) || (n == TimeServers && id in DeclaredIds(decls))
  {
    hide CryptoTailored, BannerTailored, UsbguardRules, DenyRootRule, NtsRule, AuditDisabled, AuditAffected, ChronyRules;
    hide SsgRule, SsgRules, DeclaredIds;
    DeclaredConcat(cfg.exceptions, decls);
    assert Settings(WithExceptions(cfg, decls)) == Settings(cfg);
  }

  // The expected failures grow by exactly the accepted ids.
  lemma ExpectedGrows(order: seq<RuleName>, cfg: Config, decls: seq<ExceptionDecl>)
    requires IsRunOrder(order)
    ensures ExpectedIds(order, WithExceptions(cfg, decls)) == ExpectedIds(order, cfg) + ToSet(DeclaredIds(decls))
  {
    hide Applies, EntryIds, DeclaredIds, ExpectedIds;
    var cfg' := WithExceptions(cfg, decls);
    forall id
      ensures id in ExpectedIds(order, cfg') <==> id in ExpectedIds(order, cfg) || id in DeclaredIds(decls)
    {
      ExpectedIsAnyOrder(order, cfg, id);
      ExpectedIsAnyOrder(order, cfg', id);
      DeclaredConcat(cfg.exceptions, decls);
      forall n
        ensures Applies(n, cfg') == Applies(n, cfg)
        ensures id in EntryIds(n, cfg') ==> id in EntryIds(n, cfg)
        ensures id in EntryIds(n, cfg) ==> id in EntryIds(n, cfg') || id in DeclaredIds(decls)
      {
        EntryAfter(n, cfg, decls, id);
      }
    }
  }

  // What stays managed is what was managed and is not accepted now.
  lemma ManagedAfter(order: seq<RuleName>, cfg: Config, decls: seq<ExceptionDecl>, expected: set<string>, added: set<string>)
    ensures Managed(order, WithExceptions(cfg, decls), expected + added).Keys
         == Managed(order, cfg, expected).Keys - added
  {
    hide Applies, Affected, Managed;
    var cfg' := WithExceptions(cfg, decls);
    forall id
      ensures id in Managed(order, cfg', expected + added) <==> id in Managed(order, cfg, expected) && id !in added
    {
      ManagedIff(order, cfg, expected, id);
      ManagedIff(order, cfg', expected + added, id);
      forall n
        ensures Enforces(n, cfg', id) == Enforces(n, cfg, id)
      {
        EntryAfter(n, cfg, decls, id);
      }
    }
  }

  function Decls(applied: seq<Suggestion>): seq<ExceptionDecl> {
    if applied == [] then [] else [applied[0].decl] + Decls(applied[1..])
  }

  // One verify run of a config against fixed scan results.
  function Rows(order: seq<RuleName>, cfg: Config, current: Results, install: Option<Results>): seq<Row> {
    ReportRows(current, install, ExpectedIds(order, cfg))
  }

  function SuggestedBy(
    order: seq<RuleName>, cfg: Config, current: Results, install: Option<Results>, host: string, date: string): seq<Suggestion>
  {
    Suggestions(host, date, Rows(order, cfg, current, install), Managed(order, cfg, ExpectedIds(order, cfg)).Keys)
  }

  predicate Accepts(applied: seq<Suggestion>, id: string) {
    exists s :: s in applied && id in s.decl.stigRulesDisabled
  }

  lemma {:induction false} AcceptedIds(applied: seq<Suggestion>, id: string)
    ensures id in DeclaredIds(Decls(applied)) <==> Accepts(applied, id)
  {
    if applied != [] {
      AcceptedIds(applied[1..], id);
      DeclaredConcat([applied[0].decl], Decls(applied[1..]));
      assert [applied[0].decl][..0] == [];
      assert DeclaredIds([applied[0].decl]) == applied[0].decl.stigRulesDisabled;
      assert forall s :: s in applied <==> s == applied[0] || s in applied[1..];
    }
  }

  // The report after accepting `applied`: exactly the rows it names become
  // expected failures, and no other row changes at all but for its flag.
  ghost predicate RowsShift(before: seq<Row>, after: seq<Row>, applied: seq<Suggestion>) {
    && |after| == |before|
    && forall k :: 0 <= k < |before| ==>
         && after[k].ruleId == before[k].ruleId
         && after[k].current == before[k].current
         && after[k].install == before[k].install
         && after[k].category == if Accepts(applied, before[k].ruleId) then ExpectedFail else before[k].category
  }

  predicate OneRowEach(rows: seq<Row>) {
    forall a, b :: a in rows && b in rows && a.ruleId == b.ruleId ==> a == b
  }

  lemma ReportRowsOneEach(current: Results, install: Option<Results>, expected: set<string>)
    ensures OneRowEach(ReportRows(current, install, expected))
  {
  }

  lemma AcceptedFails(host: string, date: string, rows: seq<Row>, managed: set<string>, applied: seq<Suggestion>, row: Row)
    requires OneRowEach(rows) && row in rows && Accepts(applied, row.ruleId)
    requires forall s :: s in applied ==> s in Suggestions(host, date, rows, managed)
    ensures Suggestable(row) && SuggestionFor(host, date, row) in applied
  {
    var s :| s in applied && row.ruleId in s.decl.stigRulesDisabled;
    var other :| other in rows && Suggestable(other) && other.ruleId !in managed && s == SuggestionFor(host, date, other);
    assert other.ruleId == row.ruleId;
  }

  lemma StillSuggested(
    host: string, date: string, before: seq<Row>, after: seq<Row>, managed: set<string>, managed': set<string>,
    applied: seq<Suggestion>, row: Row)
    requires RowsShift(before, after, applied) && row in after && Suggestable(row) && row.ruleId !in managed'
    requires forall id :: id in managed && !Accepts(applied, id) ==> id in managed'
    ensures var s := SuggestionFor(host, date, row);
            s in Suggestions(host, date, before, managed) && s !in applied
  {
    hide SuggestionFor;
    var k :| 0 <= k < |after| && after[k] == row;
    assert !Accepts(applied, before[k].ruleId);
    SameSuggestion(host, date, before[k], row);
    assert before[k] in before;
    NamesItsRow(host, date, row);
  }

  lemma NamesItsRow(host: string, date: string, row: Row)
    ensures row.ruleId in SuggestionFor(host, date, row).decl.stigRulesDisabled
  {
  }

  lemma SameSuggestion(host: string, date: string, a: Row, b: Row)
    requires a.ruleId == b.ruleId && a.current == b.current && a.install == b.install && a.category == b.category
    ensures SuggestionFor(host, date, a) == SuggestionFor(host, date, b)
  {
  }

  lemma SuggestedStill(
    host: string, date: string, before: seq<Row>, after: seq<Row>, managed: set<string>, managed': set<string>,
    applied: seq<Suggestion>, row: Row)
    requires OneRowEach(before) && RowsShift(before, after, applied)
    requires row in before && Suggestable(row) && row.ruleId !in managed && managed' <= managed
    requires forall x :: x in applied ==> x in Suggestions(host, date, before, managed)
    requires SuggestionFor(host, date, row) !in applied
    ensures SuggestionFor(host, date, row) in Suggestions(host, date, after, managed')
  {
    hide SuggestionFor;
    var k :| 0 <= k < |before| && before[k] == row;
    if Accepts(applied, row.ruleId) {
      AcceptedFails(host, date, before, managed, applied, row);
      assert false;
    }
    SameSuggestion(host, date, after[k], row);
    assert after[k] in after;
  }

  lemma SuggestionsShift(
    host: string, date: string, before: seq<Row>, after: seq<Row>, managed: set<string>, managed': set<string>,
    applied: seq<Suggestion>, s: Suggestion)
    requires OneRowEach(before) && RowsShift(before, after, applied)
    requires forall id :: id in managed' <==> id in managed && !Accepts(applied, id)
    requires forall x :: x in applied ==> x in Suggestions(host, date, before, managed)
    ensures s in Suggestions(host, date, after, managed') <==> s in Suggestions(host, date, before, managed) && s !in applied
  {
    hide SuggestionFor, RowsShift, OneRowEach, Accepts;
    if s in Suggestions(host, date, after, managed') {
      var row :| row in after && Suggestable(row) && row.ruleId !in managed' && s == SuggestionFor(host, date, row);
      StillSuggested(host, date, before, after, managed, managed', applied, row);
    }
    if s in Suggestions(host, date, before, managed) && s !in applied {
      var row :| row in before && Suggestable(row) && row.ruleId !in managed && s == SuggestionFor(host, date, row);
      SuggestedStill(host, date, before, after, managed, managed', applied, row);
    }
  }

  // Accepting any of the suggestions and verifying the same scan again moves
  // exactly the rows they name to expected_fail, and the next run suggests
  // exactly what was suggested and not accepted.
  lemma VerifyAgain(
    order: seq<RuleName>, cfg: Config, current: Results, install: Option<Results>, host: string, date: string,
    applied: seq<Suggestion>)
    requires IsRunOrder(order)
    requires forall s :: s in applied ==> s in SuggestedBy(order, cfg, current, install, host, date)
    ensures var cfg' := WithExceptions(cfg, Decls(applied));
            && RowsShift(Rows(order, cfg, current, install), Rows(order, cfg', current, install), applied)
            && forall s :: s in SuggestedBy(order, cfg', current, install, host, date)
                      <==> s in SuggestedBy(order, cfg, current, install, host, date) && s !in applied
  {
    hide ExpectedIds, ReportRows, Managed, Suggestions, Suggestable, DeclaredIds, Decls;
    var cfg' := WithExceptions(cfg, Decls(applied));
    var expected, added := ExpectedIds(order, cfg), ToSet(DeclaredIds(Decls(applied)));
    var managed, managed' := Managed(order, cfg, expected).Keys, Managed(order, cfg', expected + added).Keys;
    ExpectedGrows(order, cfg, Decls(applied));
    ManagedAfter(order, cfg, Decls(applied), expected, added);
    ReportRowsOneEach(current, install, expected);
    forall id
      ensures id in added <==> Accepts(applied, id)
    {
      AcceptedIds(applied, id);
    }
    var before, after := Rows(order, cfg, current, install), Rows(order, cfg', current, install);
    ReconcileAgain(current, install, expected, added);
    forall k | 0 <= k < |before|
      ensures Accepts(applied, before[k].ruleId) ==> Suggestable(before[k])
    {
      assert before[k] in before;
      if Accepts(applied, before[k].ruleId) {
        AcceptedFails(host, date, before, managed, applied, before[k]);
      }
    }
    forall s
      ensures s in SuggestedBy(order, cfg', current, install, host, date)
         <==> s in SuggestedBy(order, cfg, current, install, host, date) && s !in applied
    {
      SuggestionsShift(host, date, before, after, managed, managed', applied, s);
    }
  }

  // Once everything suggested is accepted, verify has nothing left to suggest:
  // what still fails is what ks-gen manages itself.
  lemma NothingLeftToSuggest(
    order: seq<RuleName>, cfg: Config, current: Results, install: Option<Results>, host: string, date: string)
    requires IsRunOrder(order)
    ensures var applied := SuggestedBy(order, cfg, current, install, host, date);
            SuggestedBy(order, WithExceptions(cfg, Decls(applied)), current, install, host, date) == []
  {
    hide SuggestedBy, Rows;
    var applied := SuggestedBy(order, cfg, current, install, host, date);
    VerifyAgain(order, cfg, current, install, host, date, applied);
    var next := SuggestedBy(order, WithExceptions(cfg, Decls(applied)), current, install, host, date);
    HasMember(next);
  }

  // ----- from the written file to the next config

  function ReadTexts(items: seq<Value>): Option<seq<string>> {
    if items == [] then Some([])
    else
      match ReadTexts(items[1..])
      case None => None
      case Some(texts) => if items[0].Text? then Some([items[0].text] + texts) else None
  }

  // `ExceptionDecl.model_validate`
  function ReadDecl(v: Value): Option<ExceptionDecl> {
    if !v.Dict? || (exists e :: e in v.entries && e.0 != "id" && e.0 != "reason" && e.0 != "stig_rules_disabled") then None
    else
      match (Get(v.entries, "id"), Get(v.entries, "reason"), Get(v.entries, "stig_rules_disabled"))
      case (Some(Text(id)), Some(Text(reason)), Some(List(items))) =>
        (match ReadTexts(items)
         case None => None
         case Some(ids) => if ids == [] then None else Some(ExceptionDecl(id, reason, ids)))
      case _ => None
  }

  function ReadDecls(items: seq<Value>): Option<seq<ExceptionDecl>> {
    if items == [] then Some([])
    else
      match (ReadDecl(items[0]), ReadDecls(items[1..]))
      case (Some(d), Some(more)) => Some([d] + more)
      case _ => None
  }

  lemma {:induction false} ReadTextList(texts: seq<string>)
    ensures ReadTexts(TextList(texts)) == Some(texts)
  {
    if texts != [] {
      ReadTextList(texts[1..]);
      assert texts == [texts[0]] + texts[1..];
    }
  }

  lemma ReadDeclValue(d: ExceptionDecl)
    requires d.stigRulesDisabled != []
    ensures ReadDecl(DeclValue(d)) == Some(d)
  {
    ReadTextList(d.stigRulesDisabled);
    var entries := DeclValue(d).entries;
    assert entries[0].0 == "id" && entries[1..][0].0 == "reason" && entries[1..][1..][0].0 == "stig_rules_disabled";
    assert Get(entries, "id") == Some(Text(d.id));
    assert Get(entries, "reason") == Get(entries[1..], "reason") == Some(Text(d.reason));
    assert Get(entries, "stig_rules_disabled") == Get(entries[1..], "stig_rules_disabled")
        == Get(entries[1..][1..], "stig_rules_disabled") == Some(List(TextList(d.stigRulesDisabled)));
  }

  lemma {:induction false} ReadApplied(applied: seq<Suggestion>)
    requires forall s :: s in applied ==> s.decl.stigRulesDisabled != []
    ensures ReadDecls(DeclValues(applied)) == Some(Decls(applied))
  {
    hide ReadDecl, DeclValue;
    if applied != [] {
      assert applied[0] in applied;
      ReadDeclValue(applied[0].decl);
      ReadApplied(applied[1..]);
      assert DeclValues(applied)[1..] == DeclValues(applied[1..]);
    }
  }

  lemma {:induction false} ReadConcat(a: seq<Value>, b: seq<Value>)
    requires ReadDecls(a).Some? && ReadDecls(b).Some?
    ensures ReadDecls(a + b) == Some(ReadDecls(a).value + ReadDecls(b).value)
  {
    hide ReadDecl;
    if a == [] {
      assert a + b == b;
      assert ReadDecls(a).value + ReadDecls(b).value == ReadDecls(b).value;
    } else {
      assert (a + b)[1..] == a[1..] + b;
      ReadConcat(a[1..], b);
      var d, x, y := ReadDecl(a[0]).value, ReadDecls(a[1..]).value, ReadDecls(b).value;
      assert [d] + (x + y) == ([d] + x) + y;
      assert (a + b)[0] == a[0];
    }
  }

  // When host.yaml's exceptions were the config's, the file apply writes holds
  // the config's exceptions followed by the accepted ones.
  lemma WrittenConfig(lib: Library, raw: string, considered: seq<Suggestion>, cfg: Config)
    requires PlanFor(lib, raw, considered).Append? && NewContent(lib, PlanFor(lib, raw, considered)).Some?
    requires WrittenReadsBack(lib, PlanFor(lib, raw, considered))
    requires ReadDecls(PlanFor(lib, raw, considered).items) == Some(cfg.exceptions)
    requires forall s :: s in considered ==> s.decl.stigRulesDisabled != []
    ensures var p := PlanFor(lib, raw, considered);
            var written := lib.parse(NewContent(lib, p).value);
            && written.Parsed? && written.value.Dict?
            && exists items :: Get(written.value.entries, "exceptions") == Some(List(items))
                               && ReadDecls(items) == Some(WithExceptions(cfg, Decls(p.toApply)).exceptions)
  {
    hide ReadDecls, NewContent, Decls, DeclValues;
    var p := PlanFor(lib, raw, considered);
    ExceptionsGrow(lib, raw, considered);
    PlanParts(lib, raw, considered);
    NewOnesMembers(considered, ExistingIds(p.items).value);
    ReadApplied(p.toApply);
    ReadConcat(p.items, DeclValues(p.toApply));
  }
}
