/** Which suggestions an apply writes, skips and holds back, and which step of it
    fails when. */
module ApplyOutcome {
  import opened Prelude
  import opened Reconcile
  import opened Yaml
  import opened ApplyExceptions
  import opened ApplyCrash

  // ----- the suggestions

  // No gate holds it back and host.yaml has no exception of its id.
  ghost predicate IsNew(s: Suggestion, items: seq<Value>, allowRegression: bool) {
    (allowRegression || s.category != Regression) && !HasId(items, s.decl.id)
  }

  ghost predicate IsOld(s: Suggestion, items: seq<Value>, allowRegression: bool) {
    (allowRegression || s.category != Regression) && HasId(items, s.decl.id)
  }

  lemma HasIdIff(items: seq<Value>, id: string)
    requires ExistingIds(items).Some?
    ensures Text(id) in ExistingIds(items).value <==> HasId(items, id)
  {
    ExistingIdsAre(items);
  }

  lemma {:induction false} SameFilter<T(!new)>(xs: seq<T>, p: T -> bool, q: T -> bool)
    requires forall x :: p(x) <==> q(x)
    ensures Filter(xs, p) == Filter(xs, q)
  {
    if xs != [] {
      SameFilter(xs[1..], p, q);
    }
  }

  // Every suggestion is written, skipped as already there, or held back as a
  // regression; each list keeps their order.
  lemma PlanIs(lib: Library, raw: string, suggestions: seq<Suggestion>, allowRegression: bool)
    requires PlanFor(lib, raw, Considered(suggestions, allowRegression)).Append?
    ensures var p := PlanFor(lib, raw, Considered(suggestions, allowRegression));
      && p.toApply == Filter(suggestions, s => IsNew(s, p.items, allowRegression))
      && p.skipped == IdsOf(Filter(suggestions, s => IsOld(s, p.items, allowRegression)))
      && |p.toApply| + |p.skipped| + |GatedIds(suggestions, allowRegression)| == |suggestions|
  {
    var considered := Considered(suggestions, allowRegression);
    var p := PlanFor(lib, raw, considered);
    PlanSplit(lib, raw, considered);
    hide PlanFor, Considered, GatedIds, ExistingIds, NewOnes, OldIds, HasId;
    var existing := ExistingIds(p.items).value;
    var pass := (s: Suggestion) => LetThrough(s, allowRegression);
    var absent, present := (s: Suggestion) => Text(s.decl.id) !in existing, (s: Suggestion) => Text(s.decl.id) in existing;
    ConsideredIs(suggestions, allowRegression);
    ConsideredCount(suggestions, allowRegression);
    NewOnesAre(considered, existing);
    FilterSplits(considered, absent, present);
    forall s: Suggestion
      ensures Text(s.decl.id) in existing <==> HasId(p.items, s.decl.id)
    {
      HasIdIff(p.items, s.decl.id);
    }
    FilterTwice(suggestions, pass, absent, s => IsNew(s, p.items, allowRegression));
    FilterTwice(suggestions, pass, present, s => IsOld(s, p.items, allowRegression));
  }

  lemma ConsideredCount(suggestions: seq<Suggestion>, allowRegression: bool)
    ensures |Considered(suggestions, allowRegression)| + |GatedIds(suggestions, allowRegression)| == |suggestions|
  {
    ConsideredIs(suggestions, allowRegression);
    FilterSplits(suggestions, (x: Suggestion) => LetThrough(x, allowRegression), (x: Suggestion) => !LetThrough(x, allowRegression));
  }

  lemma PlanSplit(lib: Library, raw: string, considered: seq<Suggestion>)
    requires PlanFor(lib, raw, considered).Append?
    ensures var p := PlanFor(lib, raw, considered);
      && ExistingIds(p.items).Some?
      && p.toApply == NewOnes(considered, ExistingIds(p.items).value)
      && p.skipped == OldIds(considered, ExistingIds(p.items).value)
  {
    hide Iterate, ExistingIds, NewOnes, OldIds;
  }

  lemma {:induction false} DeclIdsAre(suggestions: seq<Suggestion>)
    ensures DeclIds(suggestions) == IdsOf(suggestions)
  {
    if suggestions != [] {
      DeclIdsAre(suggestions[1..]);
      assert IdsOf(suggestions) == [suggestions[0].decl.id] + IdsOf(suggestions[1..]);
    }
  }

  lemma GatedAre(suggestions: seq<Suggestion>, allowRegression: bool)
    ensures GatedIds(suggestions, allowRegression)
         == IdsOf(Filter(suggestions, (s: Suggestion) => s.category == Regression && !allowRegression))
  {
    ConsideredIs(suggestions, allowRegression);
    SameFilter(suggestions, (s: Suggestion) => !LetThrough(s, allowRegression),
               (s: Suggestion) => s.category == Regression && !allowRegression);
  }

  lemma ResultIs(lib: Library, faults: Faults, p: Plan, gated: seq<string>, r: AppendResult)
    requires p.Append? && OutcomeOf(lib, faults, p, gated) == Applied(r)
    ensures r == AppendResult(IdsOf(p.toApply), p.skipped, gated)
  {
    hide NewContent, Candidate;
    DeclIdsAre(p.toApply);
  }

  // What a call that succeeds reports: which ids it added, which were there, and
  // which it held back.
  lemma AppliedNames(
    lib: Library, faults: Faults, raw: string, suggestions: seq<Suggestion>, allowRegression: bool, r: AppendResult)
    requires var p := PlanFor(lib, raw, Considered(suggestions, allowRegression));
      p.Append? && OutcomeOf(lib, faults, p, GatedIds(suggestions, allowRegression)) == Applied(r)
    ensures var items := PlanFor(lib, raw, Considered(suggestions, allowRegression)).items;
      && r.added == IdsOf(Filter(suggestions, s => IsNew(s, items, allowRegression)))
      && r.skippedExisting == IdsOf(Filter(suggestions, s => IsOld(s, items, allowRegression)))
      && r.skippedRegression == IdsOf(Filter(suggestions, (s: Suggestion) => s.category == Regression && !allowRegression))
  {
    hide *;
    PlanIs(lib, raw, suggestions, allowRegression);
    GatedAre(suggestions, allowRegression);
    ResultIs(lib, faults, PlanFor(lib, raw, Considered(suggestions, allowRegression)),
             GatedIds(suggestions, allowRegression), r);
  }

  // ----- the steps

  // Which of its own errors a call that could read the file ends in: the first
  // step that cannot be done names it.
  lemma StepsFail(lib: Library, faults: Faults, raw: string, considered: seq<Suggestion>, gated: seq<string>)
    ensures var p := PlanFor(lib, raw, considered);
      var outcome := OutcomeOf(lib, faults, p, gated);
      var writes := p.Append? && SomethingNew(p.items, considered);
      && (outcome == Failed(ParseStep) <==> lib.parse(raw).SyntaxError?)
      && (outcome == Failed(MappingStep) <==> lib.parse(raw).Parsed? && !IsMapping(lib.parse(raw).value))
      && (outcome == Failed(ValidateStep) <==> writes && !lib.accepts(Dict(Candidate(p))))
      && (outcome == Failed(BackupStep) <==> writes && lib.accepts(Dict(Candidate(p))) && !faults.copy.NoFault?)
      && (outcome == Failed(WriteStep) <==>
            && writes && lib.accepts(Dict(Candidate(p))) && faults.copy.NoFault? && NewContent(lib, p).Some?
            && (!faults.write.NoFault? || faults.replace))
      && outcome != Failed(ReadStep)
  {
    hide Iterate, ExistingIds, NewOnes, OldIds, Candidate, NewContent, SomethingNew;
    var p := PlanFor(lib, raw, considered);
    if p.Append? {
      PlanSplit(lib, raw, considered);
      SomethingNewIff(p.items, considered);
    }
  }

  // The exceptions that a call starts from: those of the list, none for an absent
  // or an empty one.
  lemma PlanItems(lib: Library, raw: string, considered: seq<Suggestion>, data: seq<(string, Value)>)
    requires lib.parse(raw) == Parsed(Dict(data)) && PlanFor(lib, raw, considered).Append?
    ensures var p := PlanFor(lib, raw, considered);
      && p.data == data
      && (Get(data, "exceptions") == None || Get(data, "exceptions") == Some(Null) ==> p.items == [])
      && (forall items :: Get(data, "exceptions") == Some(List(items)) ==> p.items == items)
  {
    hide ExistingIds, NewOnes, OldIds;
  }
}
