/** Tailoring drift: the keyed diff `compare_tailorings`, what patching with it
    gives, and how far an empty report tells two tailorings are the same. */
module TailoringDrift {
  import opened Prelude
  import opened TailoringXml

  datatype Key = Key(action: Action, ruleId: string)

  datatype OpChange = OpChange(ruleId: string, expectedValue: string, deployedValue: string)

  datatype Report = Report(
    expectedProfile: string,
    deployedProfile: string,
    added: seq<TailoringOp>,
    removed: seq<TailoringOp>,
    changed: seq<OpChange>)

  function KeyOf(op: TailoringOp): Key {
    Key(op.action, op.ruleId)
  }

  function OpMap(ops: seq<TailoringOp>): map<Key, TailoringOp> {
    DictBy(ops, KeyOf)
  }

  predicate Differs(op: TailoringOp, other: TailoringOp) {
    op.action == SetValue && ValueOf(op) != ValueOf(other)
  }

  function ChangeOf(op: TailoringOp, other: TailoringOp): OpChange {
    OpChange(op.ruleId, ValueOf(op), ValueOf(other))
  }

  function OpRuleLe(a: TailoringOp, b: TailoringOp): bool {
    StrLe(a.ruleId, b.ruleId)
  }

  function ChangeRuleLe(a: OpChange, b: OpChange): bool {
    StrLe(a.ruleId, b.ruleId)
  }

  // Both dicts as the loops see them: items in insertion order.
  function Items(ops: seq<TailoringOp>): seq<TailoringOp> {
    ValuesBy(ops, KeyOf)
  }

  function MissingFrom(ops: seq<TailoringOp>, m: map<Key, TailoringOp>): (r: seq<TailoringOp>)
    ensures forall op :: op in r <==> op in ops && KeyOf(op) !in m
  {
    if ops == [] then []
    else
      var init, last := ops[..|ops| - 1], ops[|ops| - 1];
      assert ops == init + [last];
      MissingFrom(init, m) + (if KeyOf(last) !in m then [last] else [])
  }

  function Changes(ops: seq<TailoringOp>, m: map<Key, TailoringOp>): (r: seq<OpChange>)
    ensures forall c :: c in r <==> exists op :: op in ops && KeyOf(op) in m && Differs(op, m[KeyOf(op)])
                                                 && c == ChangeOf(op, m[KeyOf(op)])
  {
    if ops == [] then []
    else
      var init, last := ops[..|ops| - 1], ops[|ops| - 1];
      assert ops == init + [last];
      Changes(init, m) + (if KeyOf(last) in m && Differs(last, m[KeyOf(last)]) then [ChangeOf(last, m[KeyOf(last)])] else [])
  }

  function Compare(expected: ParsedTailoring, deployed: ParsedTailoring): Report {
    Report(
      expected.profileId,
      deployed.profileId,
      Sort(MissingFrom(Items(expected.ops), OpMap(deployed.ops)), OpRuleLe),
      Sort(MissingFrom(Items(deployed.ops), OpMap(expected.ops)), OpRuleLe),
      Sort(Changes(Items(expected.ops), OpMap(deployed.ops)), ChangeRuleLe))
  }

  method CompareTailorings(expected: ParsedTailoring, deployed: ParsedTailoring) returns (r: Report)
    ensures r == Compare(expected, deployed)
  {
    var expectedMap, deployedMap := OpMap(expected.ops), OpMap(deployed.ops);
    var added, changed := ExpectedSide(Items(expected.ops), deployedMap);
    var removed := DeployedSide(Items(deployed.ops), expectedMap);
    r := Report(expected.profileId, deployed.profileId,
                Sort(added, OpRuleLe), Sort(removed, OpRuleLe), Sort(changed, ChangeRuleLe));
  }

  method ExpectedSide(items: seq<TailoringOp>, deployedMap: map<Key, TailoringOp>)
    returns (added: seq<TailoringOp>, changed: seq<OpChange>)
    ensures added == MissingFrom(items, deployedMap) && changed == Changes(items, deployedMap)
  {
    added, changed := [], [];
    var i := 0;
    while i < |items|
      invariant 0 <= i <= |items|
      invariant added == MissingFrom(items[..i], deployedMap) && changed == Changes(items[..i], deployedMap)
    {
      assert items[..i + 1][..i] == items[..i];
      var op := items[i];
      if KeyOf(op) !in deployedMap {
        added := added + [op];
      } else {
        var other := deployedMap[KeyOf(op)];
        if Differs(op, other) {
          changed := changed + [ChangeOf(op, other)];
        }
      }
      i := i + 1;
    }
    assert items[..i] == items;
  }

  method DeployedSide(items: seq<TailoringOp>, expectedMap: map<Key, TailoringOp>) returns (removed: seq<TailoringOp>)
    ensures removed == MissingFrom(items, expectedMap)
  {
    removed := [];
    var i := 0;
    while i < |items|
      invariant 0 <= i <= |items|
      invariant removed == MissingFrom(items[..i], expectedMap)
    {
      assert items[..i + 1][..i] == items[..i];
      if KeyOf(items[i]) !in expectedMap {
        removed := removed + [items[i]];
      }
      i := i + 1;
    }
    assert items[..i] == items;
  }

  predicate HasAnyDrift(r: Report) {
    (r.added != [] || r.removed != [] || r.changed != []) || r.expectedProfile != r.deployedProfile
  }

  // ----- a true diff

  // What a tailoring says under each key: the last operation's value for
  // set_value, nothing more for select and disable.
  function Shown(op: TailoringOp): string {
    if op.action == SetValue then ValueOf(op) else ""
  }

  function ViewOf(m: map<Key, TailoringOp>): map<Key, string> {
    map k | k in m :: Shown(m[k])
  }

  function View(ops: seq<TailoringOp>): map<Key, string> {
    ViewOf(OpMap(ops))
  }

  function AddedAs(added: seq<TailoringOp>, k: Key): string {
    if added == [] then "" else if KeyOf(added[0]) == k then Shown(added[0]) else AddedAs(added[1..], k)
  }

  function ChangedTo(changed: seq<OpChange>, ruleId: string): string {
    if changed == [] then ""
    else if changed[0].ruleId == ruleId then changed[0].expectedValue
    else ChangedTo(changed[1..], ruleId)
  }

  function AddedKeys(r: Report): set<Key> {
    set op | op in r.added :: KeyOf(op)
  }

  function RemovedKeys(r: Report): set<Key> {
    set op | op in r.removed :: KeyOf(op)
  }

  function ChangedKeys(r: Report): set<Key> {
    set c | c in r.changed :: Key(SetValue, c.ruleId)
  }

  // Applies a report to what a tailoring says.
  function Patch(m: map<Key, string>, r: Report): map<Key, string> {
    (m - RemovedKeys(r))
    + (map k | k in AddedKeys(r) :: AddedAs(r.added, k))
    + (map k | k in ChangedKeys(r) :: ChangedTo(r.changed, k.ruleId))
  }

  predicate ChangeBetween(c: OpChange, em: map<Key, TailoringOp>, dm: map<Key, TailoringOp>) {
    var k := Key(SetValue, c.ruleId);
    k in em && k in dm && c == ChangeOf(em[k], dm[k]) && Differs(em[k], dm[k])
  }

  // The lists hold exactly the operations on one side only and the values that differ.
  ghost predicate IsDiff(em: map<Key, TailoringOp>, dm: map<Key, TailoringOp>, r: Report) {
    && (forall op :: op in r.added <==> KeyOf(op) in em && em[KeyOf(op)] == op && KeyOf(op) !in dm)
    && (forall op :: op in r.removed <==> KeyOf(op) in dm && dm[KeyOf(op)] == op && KeyOf(op) !in em)
    && (forall c :: c in r.changed <==> ChangeBetween(c, em, dm))
  }

  predicate Keyed(m: map<Key, TailoringOp>) {
    forall k :: k in m ==> KeyOf(m[k]) == k
  }

  lemma ItemsOf(ops: seq<TailoringOp>)
    ensures Keyed(OpMap(ops))
    ensures forall op :: op in Items(ops) <==> KeyOf(op) in OpMap(ops) && OpMap(ops)[KeyOf(op)] == op
  {
    forall op
      ensures op in Items(ops) <==> KeyOf(op) in OpMap(ops) && OpMap(ops)[KeyOf(op)] == op
    {
      ValuesByIn(ops, KeyOf, op);
    }
  }

  function ChangeIdOf(c: OpChange): string {
    c.ruleId
  }

  // The three lists come sorted, and name nothing twice.
  ghost predicate IsTidy(r: Report) {
    && (forall i, j :: 0 <= i < j < |r.added| ==> StrLe(r.added[i].ruleId, r.added[j].ruleId))
    && (forall i, j :: 0 <= i < j < |r.removed| ==> StrLe(r.removed[i].ruleId, r.removed[j].ruleId))
    && (forall i, j :: 0 <= i < j < |r.changed| ==> StrLe(r.changed[i].ruleId, r.changed[j].ruleId))
    && DistinctBy(r.added, KeyOf) && DistinctBy(r.removed, KeyOf) && DistinctBy(r.changed, ChangeIdOf)
  }

  lemma RuleOrders()
    ensures TotalPreorder(OpRuleLe) && TotalPreorder(ChangeRuleLe)
  {
    hide StrLe;
    forall x, y
      ensures StrLe(x, y) || StrLe(y, x)
    {
      StrLeTotal(x, y);
    }
    forall x, y, z | StrLe(x, y) && StrLe(y, z)
      ensures StrLe(x, z)
    {
      StrLeTransitive(x, y, z);
    }
  }

  lemma ItemsDistinct(ops: seq<TailoringOp>)
    ensures DistinctBy(Items(ops), KeyOf)
  {
    hide DictBy, KeysBy, ValuesBy;
    var keys, items := KeysBy(ops, KeyOf), Items(ops);
    assert forall k :: 0 <= k < |items| ==> KeyOf(items[k]) == keys[k];
  }

  lemma {:induction false} MissingDistinct(ops: seq<TailoringOp>, m: map<Key, TailoringOp>)
    requires DistinctBy(ops, KeyOf)
    ensures DistinctBy(MissingFrom(ops, m), KeyOf)
  {
    if ops != [] {
      MissingDistinct(ops[..|ops| - 1], m);
    }
  }

  lemma {:induction false} ChangesDistinct(ops: seq<TailoringOp>, m: map<Key, TailoringOp>)
    requires DistinctBy(ops, KeyOf)
    ensures DistinctBy(Changes(ops, m), ChangeIdOf)
  {
    if ops != [] {
      var init, last := ops[..|ops| - 1], ops[|ops| - 1];
      ChangesDistinct(init, m);
      forall c | c in Changes(init, m)
        ensures last.action == SetValue ==> c.ruleId != last.ruleId
      {
        var op :| op in init && KeyOf(op) in m && Differs(op, m[KeyOf(op)]) && c == ChangeOf(op, m[KeyOf(op)]);
        var k :| 0 <= k < |init| && init[k] == op;
        assert ops[k] == op;
      }
    }
  }

  // The report holds exactly the differences, in rule order, each once.
  lemma CompareIsDiff(e: ParsedTailoring, d: ParsedTailoring)
    ensures IsDiff(OpMap(e.ops), OpMap(d.ops), Compare(e, d))
    ensures IsTidy(Compare(e, d))
  {
    hide OpMap, Items, Sort, DistinctBy, SortedBy, TotalPreorder, KeyOf, OpRuleLe, ChangeRuleLe;
    CompareHolds(e, d);
    var em, dm := OpMap(e.ops), OpMap(d.ops);
    RuleOrders();
    ItemsDistinct(e.ops);
    ItemsDistinct(d.ops);
    MissingDistinct(Items(e.ops), dm);
    MissingDistinct(Items(d.ops), em);
    ChangesDistinct(Items(e.ops), dm);
    SortSorted(MissingFrom(Items(e.ops), dm), OpRuleLe);
    SortSorted(MissingFrom(Items(d.ops), em), OpRuleLe);
    SortSorted(Changes(Items(e.ops), dm), ChangeRuleLe);
    SortDistinctBy(MissingFrom(Items(e.ops), dm), OpRuleLe, KeyOf);
    SortDistinctBy(MissingFrom(Items(d.ops), em), OpRuleLe, KeyOf);
    SortDistinctBy(Changes(Items(e.ops), dm), ChangeRuleLe, ChangeIdOf);
    ByRule(Compare(e, d));
  }

  lemma ByRule(r: Report)
    requires SortedBy(r.added, OpRuleLe) && SortedBy(r.removed, OpRuleLe) && SortedBy(r.changed, ChangeRuleLe)
    ensures forall i, j :: 0 <= i < j < |r.added| ==> StrLe(r.added[i].ruleId, r.added[j].ruleId)
    ensures forall i, j :: 0 <= i < j < |r.removed| ==> StrLe(r.removed[i].ruleId, r.removed[j].ruleId)
    ensures forall i, j :: 0 <= i < j < |r.changed| ==> StrLe(r.changed[i].ruleId, r.changed[j].ruleId)
  {
    hide StrLe;
    forall i, j | 0 <= i < j < |r.added|
      ensures StrLe(r.added[i].ruleId, r.added[j].ruleId)
    {
      assert OpRuleLe(r.added[i], r.added[j]);
    }
    forall i, j | 0 <= i < j < |r.removed|
      ensures StrLe(r.removed[i].ruleId, r.removed[j].ruleId)
    {
      assert OpRuleLe(r.removed[i], r.removed[j]);
    }
    forall i, j | 0 <= i < j < |r.changed|
      ensures StrLe(r.changed[i].ruleId, r.changed[j].ruleId)
    {
      assert ChangeRuleLe(r.changed[i], r.changed[j]);
    }
  }

  lemma CompareHolds(e: ParsedTailoring, d: ParsedTailoring)
    ensures IsDiff(OpMap(e.ops), OpMap(d.ops), Compare(e, d))
  {
    hide OpMap, Items, Sort;
    var em, dm := OpMap(e.ops), OpMap(d.ops);
    ItemsOf(e.ops);
    ItemsOf(d.ops);
    SortElements(MissingFrom(Items(e.ops), dm), OpRuleLe);
    SortElements(MissingFrom(Items(d.ops), em), OpRuleLe);
    SortElements(Changes(Items(e.ops), dm), ChangeRuleLe);
    forall c | ChangeBetween(c, em, dm)
      ensures c in Changes(Items(e.ops), dm)
    {
      var op := em[Key(SetValue, c.ruleId)];
      assert op in Items(e.ops) && KeyOf(op) in dm;
    }
  }

  lemma {:induction false} ChangedToIn(changed: seq<OpChange>, c: OpChange)
    requires c in changed
    requires forall x :: x in changed && x.ruleId == c.ruleId ==> x == c
    ensures ChangedTo(changed, c.ruleId) == c.expectedValue
  {
    if changed[0].ruleId == c.ruleId {
      assert changed[0] in changed;
    } else {
      ChangedToIn(changed[1..], c);
    }
  }

  lemma {:induction false} AddedAsIn(added: seq<TailoringOp>, op: TailoringOp)
    requires op in added
    requires forall x :: x in added && KeyOf(x) == KeyOf(op) ==> x == op
    ensures AddedAs(added, KeyOf(op)) == Shown(op)
  {
    if KeyOf(added[0]) == KeyOf(op) {
      assert added[0] in added;
    } else {
      AddedAsIn(added[1..], op);
    }
  }

  lemma PatchAt(em: map<Key, TailoringOp>, dm: map<Key, TailoringOp>, r: Report, k: Key)
    requires Keyed(em) && Keyed(dm) && IsDiff(em, dm, r)
    ensures var p := Patch(ViewOf(dm), r); (k in p <==> k in em) && (k in p ==> p[k] == Shown(em[k]))
  {
    if k in em && k !in dm {
      assert em[k] in r.added;
      AddedAsIn(r.added, em[k]);
    } else if k in dm && k !in em {
      assert dm[k] in r.removed;
    } else if k in em && k.action == SetValue && Differs(em[k], dm[k]) {
      var c := ChangeOf(em[k], dm[k]);
      assert ChangeBetween(c, em, dm) && c in r.changed;
      ChangedToIn(r.changed, c);
    }
  }

  lemma PatchIs(em: map<Key, TailoringOp>, dm: map<Key, TailoringOp>, r: Report)
    requires Keyed(em) && Keyed(dm) && IsDiff(em, dm, r)
    ensures Patch(ViewOf(dm), r) == ViewOf(em)
  {
    forall k
      ensures var p := Patch(ViewOf(dm), r); (k in p <==> k in em) && (k in p ==> p[k] == Shown(em[k]))
    {
      PatchAt(em, dm, r, k);
    }
    assert Patch(ViewOf(dm), r).Keys == ViewOf(em).Keys;
  }

  // Patching what is deployed with the report gives what is expected.
  lemma PatchGivesExpected(e: ParsedTailoring, d: ParsedTailoring)
    ensures Patch(View(d.ops), Compare(e, d)) == View(e.ops)
  {
    hide OpMap, Compare, Patch, ViewOf;
    CompareIsDiff(e, d);
    ItemsOf(e.ops);
    ItemsOf(d.ops);
    PatchIs(OpMap(e.ops), OpMap(d.ops), Compare(e, d));
  }

  lemma EmptyDiffIff(em: map<Key, TailoringOp>, dm: map<Key, TailoringOp>, r: Report)
    requires Keyed(em) && Keyed(dm) && IsDiff(em, dm, r)
    ensures r.added == [] && r.removed == [] && r.changed == [] <==> ViewOf(em) == ViewOf(dm)
  {
    HasMember(r.added);
    HasMember(r.removed);
    HasMember(r.changed);
    if r.added == [] && r.removed == [] && r.changed == [] {
      PatchIs(em, dm, r);
      assert Patch(ViewOf(dm), r) == ViewOf(dm);
    }
    if ViewOf(em) == ViewOf(dm) {
      assert em.Keys == ViewOf(em).Keys == ViewOf(dm).Keys == dm.Keys;
      forall c
        ensures !ChangeBetween(c, em, dm)
      {
        var k := Key(SetValue, c.ruleId);
        assert k in em && k in dm ==> ViewOf(em)[k] == ViewOf(dm)[k];
      }
      assert forall op :: op !in r.added && op !in r.removed;
    }
  }

  // The report is empty exactly when both sides say the same thing.
  lemma NoDriftIff(e: ParsedTailoring, d: ParsedTailoring)
    ensures !HasAnyDrift(Compare(e, d)) <==> e.profileId == d.profileId && View(e.ops) == View(d.ops)
  {
    hide OpMap, Sort, Items, ViewOf;
    CompareIsDiff(e, d);
    ItemsOf(e.ops);
    ItemsOf(d.ops);
    EmptyDiffIff(OpMap(e.ops), OpMap(d.ops), Compare(e, d));
  }

  // ----- what an empty report does not say

  // What the scanner does with a tailoring: the last select or disable of an
  // id decides whether it runs, the last set_value of a Value decides it.
  function LastSelection(ops: seq<TailoringOp>, id: string): Option<Action> {
    if ops == [] then None
    else
      var last := ops[|ops| - 1];
      if last.ruleId == id && last.action != SetValue then Some(last.action)
      else LastSelection(ops[..|ops| - 1], id)
  }

  function LastValue(ops: seq<TailoringOp>, id: string): Option<string> {
    if ops == [] then None
    else
      var last := ops[|ops| - 1];
      if last.ruleId == id && last.action == SetValue then Some(ValueOf(last))
      else LastValue(ops[..|ops| - 1], id)
  }

  ghost predicate SameEffect(a: seq<TailoringOp>, b: seq<TailoringOp>) {
    forall id :: LastSelection(a, id) == LastSelection(b, id) && LastValue(a, id) == LastValue(b, id)
  }

  // Some id is both selected and disabled.
  ghost predicate Mixed(ops: seq<TailoringOp>) {
    exists id :: Key(Select, id) in View(ops) && Key(Disable, id) in View(ops)
  }

  lemma {:induction false} LastByView(ops: seq<TailoringOp>, id: string)
    ensures LastValue(ops, id)
         == if Key(SetValue, id) in View(ops) then Some(View(ops)[Key(SetValue, id)]) else None
    ensures LastSelection(ops, id) == Some(Select) ==> Key(Select, id) in View(ops)
    ensures LastSelection(ops, id) == Some(Disable) ==> Key(Disable, id) in View(ops)
    ensures LastSelection(ops, id) == None ==> Key(Select, id) !in View(ops) && Key(Disable, id) !in View(ops)
    ensures LastSelection(ops, id) in [None, Some(Select), Some(Disable)]
  {
    if ops != [] {
      LastByView(ops[..|ops| - 1], id);
    }
  }

  lemma UnmixedSameEffect(a: seq<TailoringOp>, b: seq<TailoringOp>)
    requires View(a) == View(b) && !Mixed(b)
    ensures SameEffect(a, b)
  {
    hide View, LastSelection, LastValue;
    forall id
      ensures LastSelection(a, id) == LastSelection(b, id) && LastValue(a, id) == LastValue(b, id)
    {
      LastByView(a, id);
      LastByView(b, id);
    }
  }

  lemma RepeatKeepsView(ops: seq<TailoringOp>, op: TailoringOp)
    requires KeyOf(op) in View(ops) && op.action != SetValue
    ensures View(ops + [op]) == View(ops)
    ensures LastSelection(ops + [op], op.ruleId) == Some(op.action)
  {
    assert (ops + [op])[..|ops|] == ops;
  }

  // An empty report guarantees the same scan whatever the other side is, if
  // and only if no id of the deployed file is both selected and disabled.
  lemma EmptyReportMeansSameEffect(d: ParsedTailoring)
    ensures (forall e: ParsedTailoring :: !HasAnyDrift(Compare(e, d)) ==> SameEffect(e.ops, d.ops)) <==> !Mixed(d.ops)
  {
    hide View, Compare, LastSelection, LastValue, HasAnyDrift;
    if !Mixed(d.ops) {
      forall e: ParsedTailoring | !HasAnyDrift(Compare(e, d))
        ensures SameEffect(e.ops, d.ops)
      {
        NoDriftIff(e, d);
        UnmixedSameEffect(e.ops, d.ops);
      }
    } else {
      var id :| Key(Select, id) in View(d.ops) && Key(Disable, id) in View(d.ops);
      LastByView(d.ops, id);
      var other := if LastSelection(d.ops, id) == Some(Select) then Disable else Select;
      var e := ParsedTailoring(d.profileId, d.ops + [TailoringOp(id, other, None)]);
      RepeatKeepsView(d.ops, TailoringOp(id, other, None));
      NoDriftIff(e, d);
      assert LastSelection(e.ops, id) != LastSelection(d.ops, id);
      assert !SameEffect(e.ops, d.ops);
    }
  }

  lemma TwoSelections(id: string, first: Action, second: Action)
    requires first != SetValue && second != SetValue && first != second
    ensures var ops := [TailoringOp(id, first, None), TailoringOp(id, second, None)];
            && View(ops) == map[Key(first, id) := "", Key(second, id) := ""]
            && LastSelection(ops, id) == Some(second)
  {
    var a, b := TailoringOp(id, first, None), TailoringOp(id, second, None);
    assert [a, b][..1] == [a] && [a][..0] == [];
    assert OpMap([a]) == map[Key(first, id) := a];
    assert OpMap([a, b]) == map[Key(first, id) := a, Key(second, id) := b];
  }

  // Two operations are enough: the file selects an id and then disables it, the
  // config asks for the reverse, and no drift is reported.
  lemma OrderIsNoDrift(profile: string, id: string)
    ensures var deployed := ParsedTailoring(profile, [TailoringOp(id, Select, None), TailoringOp(id, Disable, None)]);
            var expected := ParsedTailoring(profile, [TailoringOp(id, Disable, None), TailoringOp(id, Select, None)]);
            && !HasAnyDrift(Compare(expected, deployed))
            && LastSelection(deployed.ops, id) == Some(Disable)
            && LastSelection(expected.ops, id) == Some(Select)
            && !SameEffect(expected.ops, deployed.ops)
  {
    hide Compare, HasAnyDrift, View, LastSelection;
    var d := [TailoringOp(id, Select, None), TailoringOp(id, Disable, None)];
    var e := [TailoringOp(id, Disable, None), TailoringOp(id, Select, None)];
    TwoSelections(id, Select, Disable);
    TwoSelections(id, Disable, Select);
    assert View(d) == View(e);
    NoDriftIff(ParsedTailoring(profile, e), ParsedTailoring(profile, d));
  }
}
