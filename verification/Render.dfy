/** What one config generates: the tailoring operations, the expected-failure
    and managed ids, the %post order and the packages. */
module Render {
  import opened Prelude
  import opened TailoringXml
  import opened TailoringDrift
  import opened Rules
  import opened RunOrder

  // ----- tailoring operations

  function Emitted(n: RuleName, cfg: Config): seq<TailoringOp> {
    if Applies(n, cfg) then EmitTailoring(n, cfg) else []
  }

  function RuleOps(order: seq<RuleName>, cfg: Config): seq<TailoringOp> {
    if order == [] then []
    else RuleOps(order[..|order| - 1], cfg) + Emitted(order[|order| - 1], cfg)
  }

  // Each id once, in order of first occurrence.
  function Dedup(ids: seq<string>): (r: seq<string>)
    ensures Distinct(r) && forall id :: id in r <==> id in ids
  {
    if ids == [] then []
    else
      var init, last := ids[..|ids| - 1], ids[|ids| - 1];
      assert ids == init + [last];
      if last in init then Dedup(init) else Dedup(init) + [last]
  }

  function ExceptionOps(exceptions: seq<ExceptionDecl>): seq<TailoringOp> {
    DisableAll(Dedup(DeclaredIds(exceptions)))
  }

  function TailoringOps(order: seq<RuleName>, cfg: Config): seq<TailoringOp> {
    RuleOps(order, cfg) + ExceptionOps(cfg.exceptions)
  }

  lemma {:induction false} DisableAllConcat(a: seq<string>, b: seq<string>)
    ensures DisableAll(a + b) == DisableAll(a) + DisableAll(b)
  {
    if a == [] {
      assert a + b == b;
    } else {
      assert (a + b)[1..] == a[1..] + b;
      DisableAllConcat(a[1..], b);
    }
  }

  // The loop's state once it has looked at `ids`.
  ghost predicate Collected(ids: seq<string>, seen: set<string>, ops: seq<TailoringOp>) {
    seen == ToSet(ids) && ops == DisableAll(Dedup(ids))
  }

  lemma CollectStep(ids: seq<string>, id: string, seen: set<string>, ops: seq<TailoringOp>)
    requires Collected(ids, seen, ops)
    ensures if id in seen then Collected(ids + [id], seen, ops)
            else Collected(ids + [id], seen + {id}, ops + [TailoringOp(id, Disable, None)])
  {
    assert (ids + [id])[..|ids|] == ids;
    assert ToSet(ids + [id]) == ToSet(ids) + {id};
    if id !in seen {
      DisableAllConcat(Dedup(ids), [id]);
      assert DisableAll([id]) == [TailoringOp(id, Disable, None)];
    }
  }

  method ExceptionTailoringOps(exceptions: seq<ExceptionDecl>) returns (ops: seq<TailoringOp>)
    ensures ops == ExceptionOps(exceptions)
  {
    ops := [];
    var seen: set<string> := {};
    var i := 0;
    while i < |exceptions|
      invariant 0 <= i <= |exceptions|
      invariant Collected(DeclaredIds(exceptions[..i]), seen, ops)
    {
      hide Collected;
      assert exceptions[..i + 1][..i] == exceptions[..i];
      seen, ops := CollectIds(exceptions[i].stigRulesDisabled, DeclaredIds(exceptions[..i]), seen, ops);
      i := i + 1;
    }
    assert exceptions[..i] == exceptions;
  }

  // The inner loop: one exception's ids.
  method CollectIds(ids: seq<string>, ghost before: seq<string>, seen0: set<string>, ops0: seq<TailoringOp>)
    returns (seen: set<string>, ops: seq<TailoringOp>)
    requires Collected(before, seen0, ops0)
    ensures Collected(before + ids, seen, ops)
  {
    hide Collected;
    seen, ops := seen0, ops0;
    assert before + ids[..0] == before;
    var j := 0;
    while j < |ids|
      invariant 0 <= j <= |ids|
      invariant Collected(before + ids[..j], seen, ops)
    {
      CollectStep(before + ids[..j], ids[j], seen, ops);
      assert before + ids[..j + 1] == before + ids[..j] + [ids[j]];
      if ids[j] !in seen {
        seen := seen + {ids[j]};
        ops := ops + [TailoringOp(ids[j], Disable, None)];
      }
      j := j + 1;
    }
    assert ids[..j] == ids;
  }

  method RenderOps(order: seq<RuleName>, cfg: Config) returns (ops: seq<TailoringOp>)
    ensures ops == TailoringOps(order, cfg)
  {
    ops := [];
    var i := 0;
    while i < |order|
      invariant 0 <= i <= |order|
      invariant ops == RuleOps(order[..i], cfg)
    {
      assert order[..i + 1][..i] == order[..i];
      if Applies(order[i], cfg) {
        ops := ops + EmitTailoring(order[i], cfg);
      }
      i := i + 1;
    }
    assert order[..i] == order;
    var exceptionOps := ExceptionTailoringOps(cfg.exceptions);
    ops := ops + exceptionOps;
  }

  // ----- expected failures

  ghost predicate DeclaredByRule(order: seq<RuleName>, cfg: Config, id: string) {
    exists n :: n in order && Applies(n, cfg) && id in EntryIds(n, cfg)
  }

  function RuleIds(order: seq<RuleName>, cfg: Config): (ids: set<string>)
    ensures forall id :: id in ids <==> DeclaredByRule(order, cfg, id)
  {
    if order == [] then {}
    else
      var init, last := order[..|order| - 1], order[|order| - 1];
      assert order == init + [last];
      RuleIds(init, cfg) + (if Applies(last, cfg) then ToSet(EntryIds(last, cfg)) else {})
  }

  function ExpectedIds(order: seq<RuleName>, cfg: Config): set<string> {
    RuleIds(order, cfg) + ToSet(DeclaredIds(cfg.exceptions))
  }

  method ExpectedFailureRuleIds(order: seq<RuleName>, cfg: Config) returns (ids: set<string>)
    ensures ids == ExpectedIds(order, cfg)
  {
    hide ExceptionEntry, Applies, DeclaredByRule;
    ids := {};
    var i := 0;
    while i < |order|
      invariant 0 <= i <= |order|
      invariant ids == RuleIds(order[..i], cfg)
    {
      assert order[..i + 1][..i] == order[..i];
      var entry := if Applies(order[i], cfg) then ExceptionEntry(order[i], cfg) else None;
      if entry.Some? {
        ids := ids + ToSet(entry.value);
      }
      i := i + 1;
    }
    assert order[..i] == order;
    i := 0;
    while i < |cfg.exceptions|
      invariant 0 <= i <= |cfg.exceptions|
      invariant ids == RuleIds(order, cfg) + ToSet(DeclaredIds(cfg.exceptions[..i]))
    {
      assert cfg.exceptions[..i + 1][..i] == cfg.exceptions[..i];
      ids := ids + ToSet(cfg.exceptions[i].stigRulesDisabled);
      i := i + 1;
    }
    assert cfg.exceptions[..i] == cfg.exceptions;
  }

  // The same set for the whole catalogue, whatever order it runs in.
  ghost predicate Expected(cfg: Config, id: string) {
    (exists n :: Applies(n, cfg) && id in EntryIds(n, cfg)) || id in DeclaredIds(cfg.exceptions)
  }

  lemma ExpectedIsAnyOrder(order: seq<RuleName>, cfg: Config, id: string)
    requires IsRunOrder(order)
    ensures DeclaredByRule(order, cfg, id) || id in DeclaredIds(cfg.exceptions) <==> Expected(cfg, id)
    ensures id in ExpectedIds(order, cfg) <==> Expected(cfg, id)
  {
    if n :| Applies(n, cfg) && id in EntryIds(n, cfg) {
      assert n in order;
    }
  }

  // ----- what tailoring deselects is what verify expects to fail

  lemma {:induction false} RuleOpsActions(order: seq<RuleName>, cfg: Config, id: string)
    ensures id in WithAction(RuleOps(order, cfg), Disable) <==> DeclaredByRule(order, cfg, id)
    ensures id in WithAction(RuleOps(order, cfg), Select)
       <==> Usbguard in order && cfg.usbguard && id in UsbguardRules()
  {
    hide EmitTailoring, EntryIds, UsbguardRules, WithAction;
    if order == [] {
      EmptyActions(id);
    } else {
      var init, last := order[..|order| - 1], order[|order| - 1];
      assert order == init + [last];
      RuleOpsActions(init, cfg, id);
      RuleContract(last, cfg);
      WithActionConcat(RuleOps(init, cfg), Emitted(last, cfg));
      EmptyActions(id);
    }
  }

  lemma EmptyActions(id: string)
    ensures forall action :: WithAction([], action) == {}
  {
  }

  // When no id is both selected and disabled, any disabling operation decides.
  lemma {:induction false} UnmixedLast(ops: seq<TailoringOp>, id: string)
    requires !(id in WithAction(ops, Select) && id in WithAction(ops, Disable))
    ensures LastSelection(ops, id) == Some(Disable) <==> id in WithAction(ops, Disable)
  {
    if ops != [] {
      var init, last := ops[..|ops| - 1], ops[|ops| - 1];
      assert ops == init + [last];
      WithActionConcat(init, [last]);
      UnmixedLast(init, id);
    }
  }

  lemma {:induction false} DisablesWin(ops: seq<TailoringOp>, ids: seq<string>, id: string)
    ensures LastSelection(ops + DisableAll(ids), id) == if id in ids then Some(Disable) else LastSelection(ops, id)
  {
    if ids == [] {
      assert ops + DisableAll(ids) == ops;
    } else {
      var init, last := ids[..|ids| - 1], ids[|ids| - 1];
      assert ids == init + [last];
      DisableAllConcat(init, [last]);
      var op := TailoringOp(last, Disable, None);
      assert DisableAll([last]) == [op];
      assert (ops + DisableAll(ids))[..|ops + DisableAll(init)|] == ops + DisableAll(init);
      DisablesWin(ops, init, id);
    }
  }

  // For every distro and config, the ids the rendered tailoring leaves
  // deselected are exactly the expected failures; an operator's exception
  // wins even over usbguard's own select.
  lemma DeselectedAreExpected(order: seq<RuleName>, cfg: Config, id: string)
    requires IsRunOrder(order)
    ensures LastSelection(TailoringOps(order, cfg), id) == Some(Disable) <==> Expected(cfg, id)
  {
    hide LastSelection, EmitTailoring, EntryIds, UsbguardRules, WithAction, Applies;
    ExpectedIsAnyOrder(order, cfg, id);
    DisablesWin(RuleOps(order, cfg), Dedup(DeclaredIds(cfg.exceptions)), id);
    RuleOpsActions(order, cfg, id);
    if cfg.usbguard && id in UsbguardRules() {
      SelectedNeverDeclared(order, cfg, id);
    }
    UnmixedLast(RuleOps(order, cfg), id);
  }

  // A disabling operation anywhere in a rendered tailoring is the last word.
  lemma AnyDisableDecides(order: seq<RuleName>, cfg: Config, id: string)
    requires IsRunOrder(order)
    ensures Key(Disable, id) in View(TailoringOps(order, cfg)) <==> LastSelection(TailoringOps(order, cfg), id) == Some(Disable)
  {
    hide LastSelection, EmitTailoring, EntryIds, Applies, Expected;
    var ops := TailoringOps(order, cfg);
    LastByView(ops, id);
    DeselectedAreExpected(order, cfg, id);
    ExpectedIsAnyOrder(order, cfg, id);
    RuleOpsActions(order, cfg, id);
    if Key(Disable, id) in View(ops) {
      var op := OpMap(ops)[Key(Disable, id)];
      assert op in ops && KeyOf(op) == Key(Disable, id);
      if op in RuleOps(order, cfg) {
        assert id in WithAction(RuleOps(order, cfg), Disable);
      } else {
        DisablesDeclared(Dedup(DeclaredIds(cfg.exceptions)));
      }
    }
  }

  lemma {:induction false} DisablesDeclared(ids: seq<string>)
    ensures forall op :: op in DisableAll(ids) ==> op.ruleId in ids
  {
    if ids != [] {
      DisablesDeclared(ids[1..]);
    }
  }

  // Between two tailorings that were both rendered from a config, an empty
  // report does mean the same scan, even when an id is selected and disabled.
  lemma RenderedNoDriftSameEffect(
    order: seq<RuleName>, cfg: Config, order': seq<RuleName>, cfg': Config, profile: string, profile': string)
    requires IsRunOrder(order) && IsRunOrder(order')
    requires var expected := ParsedTailoring(profile, TailoringOps(order, cfg));
             var deployed := ParsedTailoring(profile', TailoringOps(order', cfg'));
             !HasAnyDrift(Compare(expected, deployed))
    ensures SameEffect(TailoringOps(order, cfg), TailoringOps(order', cfg'))
  {
    hide LastSelection, LastValue, View, TailoringOps, HasAnyDrift, Compare;
    var a, b := TailoringOps(order, cfg), TailoringOps(order', cfg');
    NoDriftIff(ParsedTailoring(profile, a), ParsedTailoring(profile', b));
    forall id
      ensures LastSelection(a, id) == LastSelection(b, id) && LastValue(a, id) == LastValue(b, id)
    {
      LastByView(a, id);
      LastByView(b, id);
      AnyDisableDecides(order, cfg, id);
      AnyDisableDecides(order', cfg', id);
    }
  }

  lemma SelectedNeverDeclared(order: seq<RuleName>, cfg: Config, id: string)
    requires cfg.usbguard && id in UsbguardRules()
    ensures !DeclaredByRule(order, cfg, id)
  {
    hide UsbguardRules;
    forall n | n in order && Applies(n, cfg)
      ensures id !in EntryIds(n, cfg)
    {
      if n != Usbguard && id in EntryIds(n, cfg) {
        UsbguardAlone(n, cfg, id);
      }
    }
  }

  // ----- managed ids: what the applicable rules enforce, minus the expected failures

  predicate Enforces(n: RuleName, cfg: Config, id: string) {
    Applies(n, cfg) && id in Affected(n, cfg)
  }

  // `setdefault` for every id of one rule.
  function Claim(managed: map<string, RuleName>, n: RuleName, ids: seq<string>, expected: set<string>): (r: map<string, RuleName>)
    ensures forall id :: id in r <==> id in managed || (id in ids && id !in expected)
    ensures forall id :: id in r ==> r[id] == if id in managed then managed[id] else n
  {
    if ids == [] then managed
    else
      var init, last := ids[..|ids| - 1], ids[|ids| - 1];
      assert ids == init + [last];
      var claimed := Claim(managed, n, init, expected);
      if last in expected || last in claimed then claimed else claimed[last := n]
  }

  function Managed(order: seq<RuleName>, cfg: Config, expected: set<string>): map<string, RuleName> {
    if order == [] then map[]
    else
      var last := order[|order| - 1];
      var before := Managed(order[..|order| - 1], cfg, expected);
      if Applies(last, cfg) then Claim(before, last, Affected(last, cfg), expected) else before
  }

  method ManagedRuleIds(order: seq<RuleName>, cfg: Config, expected: set<string>) returns (managed: map<string, RuleName>)
    ensures managed == Managed(order, cfg, expected)
  {
    managed := map[];
    var i := 0;
    while i < |order|
      invariant 0 <= i <= |order|
      invariant managed == Managed(order[..i], cfg, expected)
    {
      assert order[..i + 1][..i] == order[..i];
      if Applies(order[i], cfg) {
        managed := ClaimAll(managed, order[i], Affected(order[i], cfg), expected);
      }
      i := i + 1;
    }
    assert order[..i] == order;
  }

  method ClaimAll(before: map<string, RuleName>, n: RuleName, ids: seq<string>, expected: set<string>)
    returns (managed: map<string, RuleName>)
    ensures managed == Claim(before, n, ids, expected)
  {
    managed := before;
    var j := 0;
    while j < |ids|
      invariant 0 <= j <= |ids|
      invariant managed == Claim(before, n, ids[..j], expected)
    {
      assert ids[..j + 1][..j] == ids[..j];
      if ids[j] !in expected && ids[j] !in managed {
        managed := managed[ids[j] := n];
      }
      j := j + 1;
    }
    assert ids[..j] == ids;
  }

  ghost predicate FirstOwner(order: seq<RuleName>, cfg: Config, id: string, n: RuleName) {
    exists k :: 0 <= k < |order| && order[k] == n && Enforces(n, cfg, id)
                && forall j :: 0 <= j < k ==> !Enforces(order[j], cfg, id)
  }

  // An id is managed exactly when an applicable rule enforces it and it is no
  // expected failure; its owner is the first such rule in run order.
  lemma {:induction false} ManagedIff(order: seq<RuleName>, cfg: Config, expected: set<string>, id: string)
    ensures id in Managed(order, cfg, expected) <==> id !in expected && exists n :: n in order && Enforces(n, cfg, id)
    ensures id in Managed(order, cfg, expected) ==> FirstOwner(order, cfg, id, Managed(order, cfg, expected)[id])
  {
    hide Applies, Affected;
    if order != [] {
      var init, last := order[..|order| - 1], order[|order| - 1];
      assert order == init + [last];
      ManagedIff(init, cfg, expected, id);
      assert forall n :: n in order <==> n in init || n == last;
      var before := Managed(init, cfg, expected);
      assert id in Managed(order, cfg, expected)
        <==> id in before || (Enforces(last, cfg, id) && id !in expected);
      if id in before {
        var k :| 0 <= k < |init| && init[k] == before[id] && Enforces(before[id], cfg, id)
                 && forall j :: 0 <= j < k ==> !Enforces(init[j], cfg, id);
        assert order[k] == before[id];
      } else if id in Managed(order, cfg, expected) {
        assert forall j :: 0 <= j < |init| ==> init[j] in init;
        assert order[|init|] == last;
      }
    }
  }

  // ----- %post blocks and packages

  predicate HasPost(n: RuleName, cfg: Config) {
    Applies(n, cfg) && EmitsPost(n, cfg)
  }

  function PostBlocks(order: seq<RuleName>, cfg: Config): seq<RuleName> {
    if order == [] then []
    else
      var last := order[|order| - 1];
      PostBlocks(order[..|order| - 1], cfg) + (if HasPost(last, cfg) then [last] else [])
  }

  // The packages rules add beyond the config's own, each once.
  function NewPackages(required: seq<string>, emitted: seq<string>): seq<string> {
    if emitted == [] then []
    else
      var init, last := emitted[..|emitted| - 1], emitted[|emitted| - 1];
      NewPackages(required, init) + (if last in required || last in init then [] else [last])
  }

  function EmittedPackages(order: seq<RuleName>, cfg: Config): seq<string> {
    if order == [] then []
    else
      var last := order[|order| - 1];
      EmittedPackages(order[..|order| - 1], cfg) + (if Applies(last, cfg) then EmitPackages(last, cfg) else [])
  }

  // The lists `build_bundle` hands to the kickstart and tailoring renderers.
  method BuildBundle(order: seq<RuleName>, cfg: Config)
    returns (postBlocks: seq<RuleName>, ops: seq<TailoringOp>, rulePackages: seq<string>)
    ensures postBlocks == PostBlocks(order, cfg)
    ensures ops == TailoringOps(order, cfg)
    ensures rulePackages == NewPackages(cfg.requiredPackages, EmittedPackages(order, cfg))
  {
    postBlocks, ops, rulePackages := [], [], [];
    var already := ToSet(cfg.requiredPackages);
    var i := 0;
    while i < |order|
      invariant 0 <= i <= |order|
      invariant postBlocks == PostBlocks(order[..i], cfg)
      invariant ops == RuleOps(order[..i], cfg)
      invariant Packed(cfg.requiredPackages, EmittedPackages(order[..i], cfg), already, rulePackages)
    {
      hide EmitTailoring, EmitPackages, EmitsPost, Applies, Packed;
      var r := order[i];
      assert order[..i + 1][..i] == order[..i];
      assert EmittedPackages(order[..i], cfg) + [] == EmittedPackages(order[..i], cfg);
      if Applies(r, cfg) {
        if EmitsPost(r, cfg) {
          postBlocks := postBlocks + [r];
        }
        ops := ops + EmitTailoring(r, cfg);
        already, rulePackages := AddPackages(cfg.requiredPackages, EmittedPackages(order[..i], cfg), EmitPackages(r, cfg),
                                             already, rulePackages);
      }
      i := i + 1;
    }
    assert order[..i] == order;
    var exceptionOps := ExceptionTailoringOps(cfg.exceptions);
    ops := ops + exceptionOps;
  }

  // The inner loop: one rule's packages.
  method AddPackages(
    ghost required: seq<string>, ghost before: seq<string>, pkgs: seq<string>, already0: set<string>, added0: seq<string>)
    returns (already: set<string>, added: seq<string>)
    requires Packed(required, before, already0, added0)
    ensures Packed(required, before + pkgs, already, added)
  {
    hide Packed;
    already, added := already0, added0;
    assert before + pkgs[..0] == before;
    var j := 0;
    while j < |pkgs|
      invariant 0 <= j <= |pkgs|
      invariant Packed(required, before + pkgs[..j], already, added)
    {
      PackStep(required, before + pkgs[..j], pkgs[j], already, added);
      assert before + pkgs[..j + 1] == before + pkgs[..j] + [pkgs[j]];
      if pkgs[j] !in already {
        added := added + [pkgs[j]];
        already := already + {pkgs[j]};
      }
      j := j + 1;
    }
    assert pkgs[..j] == pkgs;
  }

  ghost predicate Packed(required: seq<string>, emitted: seq<string>, already: set<string>, pkgs: seq<string>) {
    already == ToSet(required) + ToSet(emitted) && pkgs == NewPackages(required, emitted)
  }

  lemma PackStep(required: seq<string>, emitted: seq<string>, p: string, already: set<string>, pkgs: seq<string>)
    requires Packed(required, emitted, already, pkgs)
    ensures if p in already then Packed(required, emitted + [p], already, pkgs)
            else Packed(required, emitted + [p], already + {p}, pkgs + [p])
  {
    assert (emitted + [p])[..|emitted|] == emitted;
    assert ToSet(emitted + [p]) == ToSet(emitted) + {p};
  }

  // No package is listed twice or repeats one the config already installs, and
  // none a rule asks for is lost.
  lemma {:induction false} PackagesOnce(required: seq<string>, emitted: seq<string>)
    ensures Distinct(NewPackages(required, emitted))
    ensures forall p :: p in NewPackages(required, emitted) <==> p in emitted && p !in required
  {
    if emitted != [] {
      var init, last := emitted[..|emitted| - 1], emitted[|emitted| - 1];
      assert emitted == init + [last];
      PackagesOnce(required, init);
    }
  }

  ghost predicate Precedes(order: seq<RuleName>, a: RuleName, b: RuleName) {
    exists i, j :: 0 <= i < j < |order| && order[i] == a && order[j] == b
  }

  // The blocks keep the run order.
  lemma {:induction false} PostKeepsOrder(order: seq<RuleName>, cfg: Config, a: RuleName, b: RuleName)
    requires Precedes(order, a, b) && HasPost(a, cfg) && HasPost(b, cfg)
    ensures Precedes(PostBlocks(order, cfg), a, b)
  {
    hide HasPost;
    var init, last := order[..|order| - 1], order[|order| - 1];
    var blocks := PostBlocks(init, cfg);
    var i, j :| 0 <= i < j < |order| && order[i] == a && order[j] == b;
    if j < |init| {
      assert init[i] == a && init[j] == b;
      PostKeepsOrder(init, cfg, a, b);
      var x, y :| 0 <= x < y < |blocks| && blocks[x] == a && blocks[y] == b;
      assert PostBlocks(order, cfg)[x] == a && PostBlocks(order, cfg)[y] == b;
    } else {
      assert init[i] == a;
      PostMembers(init, cfg, a);
      var x :| 0 <= x < |blocks| && blocks[x] == a;
      assert PostBlocks(order, cfg)[x] == a && PostBlocks(order, cfg)[|blocks|] == b;
    }
  }

  lemma {:induction false} PostMembers(order: seq<RuleName>, cfg: Config, n: RuleName)
    ensures n in PostBlocks(order, cfg) <==> n in order && HasPost(n, cfg)
  {
    hide HasPost;
    if order != [] {
      assert order == order[..|order| - 1] + [order[|order| - 1]];
      PostMembers(order[..|order| - 1], cfg, n);
    }
  }

  // Every block comes after the blocks of the rules it depends on.
  lemma DependenciesPostFirst(order: seq<RuleName>, cfg: Config, n: RuleName, d: RuleName)
    requires IsRunOrder(order) && d in DependsOn(n) && HasPost(n, cfg) && HasPost(d, cfg)
    ensures Precedes(PostBlocks(order, cfg), d, n)
  {
    hide HasPost, DependsOn;
    assert n in order;
    var k :| 0 <= k < |order| && order[k] == n;
    assert d in order[..k];
    var j :| 0 <= j < k && order[..k][j] == d;
    assert order[j] == d;
    PostKeepsOrder(order, cfg, d, n);
  }

  // What lint demands of every kickstart: both blocks, the admin user first.
  lemma AdminBeforeSshd(order: seq<RuleName>, cfg: Config)
    requires IsRunOrder(order)
    ensures Precedes(PostBlocks(order, cfg), AdminUserAndKeys, SshConfigApply)
  {
    DependenciesPostFirst(order, cfg, SshConfigApply, AdminUserAndKeys);
  }
}
