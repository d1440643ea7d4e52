/** The walk over possibly cyclic OVAL definitions that follows
    `extend_definition`. */
module OvalWalk {
  import opened Prelude

  type Id = string

  // A criterion or extend_definition node of a definition, in document order;
  // nodes of any other tag contribute nothing.
  datatype Node =
    | Extend(definitionRef: Id)
    | Criterion(comment: string, testRef: Id)

  // One child of a test: the object and state it refers to ("" when absent).
  datatype TestRef = TestRef(objectRef: Id, stateRef: Id)

  datatype Test = Test(comment: string, refs: seq<TestRef>)

  // An object or state: its serialized text and, for each node in it, the
  // variable that node defers its value to ("" when none).
  datatype Item = Item(text: string, varRefs: seq<Id>)

  datatype Index = Index(
    defs: map<Id, seq<Node>>,
    tests: map<Id, Test>,
    objects: map<Id, Item>,
    states: map<Id, Item>,
    variables: map<Id, string>)

  // ----- the text a definition contributes by itself

  function VariableText(ix: Index, refs: seq<Id>): seq<string> {
    if refs == [] then []
    else (if refs[0] in ix.variables then [ix.variables[refs[0]]] else []) + VariableText(ix, refs[1..])
  }

  function NodeText(ix: Index, item: Item): seq<string> {
    [item.text] + VariableText(ix, item.varRefs)
  }

  function Target(ref: TestRef): Id {
    if ref.objectRef != "" then ref.objectRef else ref.stateRef
  }

  function RefText(ix: Index, refs: seq<TestRef>): seq<string> {
    if refs == [] then []
    else
      var target := Target(refs[0]);
      (if target in ix.objects then NodeText(ix, ix.objects[target])
       else if target in ix.states then NodeText(ix, ix.states[target])
       else []) + RefText(ix, refs[1..])
  }

  function CriterionText(ix: Index, comment: string, testRef: Id): seq<string> {
    if testRef !in ix.tests then [comment]
    else [comment, ix.tests[testRef].comment] + RefText(ix, ix.tests[testRef].refs)
  }

  function OwnText(ix: Index, nodes: seq<Node>): seq<string> {
    if nodes == [] then []
    else (match nodes[0]
          case Extend(_) => []
          case Criterion(comment, testRef) => CriterionText(ix, comment, testRef)) + OwnText(ix, nodes[1..])
  }

  // Some child of the test refers to the item: to the object it names, or to what
  // it names as a state when it names no object; an object before a state.
  ghost predicate RefersTo(ix: Index, test: Test, item: Item) {
    exists ref :: ref in test.refs
      && var id := if ref.objectRef == "" then ref.stateRef else ref.objectRef;
         if id in ix.objects then ix.objects[id] == item else id in ix.states && ix.states[id] == item
  }

  // The item's own text, or that of a variable it defers to.
  ghost predicate ItemSays(ix: Index, item: Item, part: string) {
    part == item.text || exists v :: v in item.varRefs && v in ix.variables && ix.variables[v] == part
  }

  // A criterion's comment, its test's, or what an item its test refers to says.
  ghost predicate CriterionSays(ix: Index, comment: string, testRef: Id, part: string) {
    || part == comment
    || (testRef in ix.tests
        && (part == ix.tests[testRef].comment
            || exists item :: RefersTo(ix, ix.tests[testRef], item) && ItemSays(ix, item, part)))
  }

  ghost predicate Says(ix: Index, nodes: seq<Node>, part: string) {
    exists comment, testRef :: Criterion(comment, testRef) in nodes && CriterionSays(ix, comment, testRef, part)
  }

  lemma {:induction false} VariableTextIff(ix: Index, refs: seq<Id>, part: string)
    ensures part in VariableText(ix, refs) <==> exists v :: v in refs && v in ix.variables && ix.variables[v] == part
  {
    if refs != [] {
      assert forall v :: v in refs <==> v == refs[0] || v in refs[1..];
      VariableTextIff(ix, refs[1..], part);
    }
  }

  lemma NodeTextIff(ix: Index, item: Item, part: string)
    ensures part in NodeText(ix, item) <==> ItemSays(ix, item, part)
  {
    VariableTextIff(ix, item.varRefs, part);
  }

  lemma {:induction false} RefTextIff(ix: Index, comment: string, refs: seq<TestRef>, part: string)
    ensures part in RefText(ix, refs) <==> exists item :: RefersTo(ix, Test(comment, refs), item) && ItemSays(ix, item, part)
  {
    hide NodeText, ItemSays;
    if refs != [] {
      var ref, rest := refs[0], Test(comment, refs[1..]);
      assert forall r :: r in refs <==> r == ref || r in refs[1..];
      RefTextIff(ix, comment, refs[1..], part);
      assert forall item :: RefersTo(ix, rest, item) ==> RefersTo(ix, Test(comment, refs), item);
      var id := if ref.objectRef == "" then ref.stateRef else ref.objectRef;
      if id in ix.objects {
        NodeTextIff(ix, ix.objects[id], part);
        assert RefersTo(ix, Test(comment, refs), ix.objects[id]);
      } else if id in ix.states {
        NodeTextIff(ix, ix.states[id], part);
        assert RefersTo(ix, Test(comment, refs), ix.states[id]);
      }
    }
  }

  lemma CriterionTextIff(ix: Index, comment: string, testRef: Id, part: string)
    ensures part in CriterionText(ix, comment, testRef) <==> CriterionSays(ix, comment, testRef, part)
  {
    hide RefText, RefersTo, ItemSays;
    if testRef in ix.tests {
      RefTextIff(ix, ix.tests[testRef].comment, ix.tests[testRef].refs, part);
    }
  }

  // What a definition's own text holds: exactly what its criteria say.
  lemma {:induction false} OwnTextIff(ix: Index, nodes: seq<Node>, part: string)
    ensures part in OwnText(ix, nodes) <==> Says(ix, nodes, part)
  {
    hide CriterionText, CriterionSays;
    if nodes != [] {
      assert forall n :: n in nodes <==> n == nodes[0] || n in nodes[1..];
      OwnTextIff(ix, nodes[1..], part);
      if nodes[0].Criterion? {
        CriterionTextIff(ix, nodes[0].comment, nodes[0].testRef, part);
      }
      if Says(ix, nodes, part) {
        var c, t :| Criterion(c, t) in nodes && CriterionSays(ix, c, t, part);
        assert Criterion(c, t) == nodes[0] || Criterion(c, t) in nodes[1..];
      }
    }
  }

  function OwnTexts(ix: Index, ids: seq<Id>): seq<string>
    requires forall id :: id in ids ==> id in ix.defs
  {
    if ids == [] then [] else OwnText(ix, ix.defs[ids[0]]) + OwnTexts(ix, ids[1..])
  }

  lemma {:induction false} OwnTextsConcat(ix: Index, a: seq<Id>, b: seq<Id>)
    requires forall id :: id in a + b ==> id in ix.defs
    ensures forall id :: id in a || id in b ==> id in ix.defs
    ensures OwnTexts(ix, a + b) == OwnTexts(ix, a) + OwnTexts(ix, b)
  {
    assert forall id :: id in a || id in b ==> id in a + b;
    if a == [] {
      assert a + b == b;
    } else {
      assert (a + b)[1..] == a[1..] + b;
      OwnTextsConcat(ix, a[1..], b);
    }
  }

  lemma {:induction false} OwnTextConcat(ix: Index, a: seq<Node>, b: seq<Node>)
    ensures OwnText(ix, a + b) == OwnText(ix, a) + OwnText(ix, b)
  {
    if a == [] {
      assert a + b == b;
    } else {
      assert (a + b)[1..] == a[1..] + b;
      OwnTextConcat(ix, a[1..], b);
    }
  }

  // ----- reachability by extend_definition, cycles allowed

  predicate Extends(ix: Index, a: Id, b: Id) {
    a in ix.defs && b in ix.defs && Extend(b) in ix.defs[a]
  }

  ghost predicate Path(ix: Index, p: seq<Id>) {
    p != [] && p[0] in ix.defs && forall i :: 0 <= i < |p| - 1 ==> Extends(ix, p[i], p[i + 1])
  }

  ghost predicate PathBetween(ix: Index, p: seq<Id>, a: Id, b: Id) {
    Path(ix, p) && p[0] == a && p[|p| - 1] == b
  }

  ghost predicate Reaches(ix: Index, a: Id, b: Id) {
    exists p :: PathBetween(ix, p, a, b)
  }

  ghost predicate ReachedFrom(ix: Index, roots: seq<Id>, id: Id) {
    exists r :: r in roots && Reaches(ix, r, id)
  }

  lemma ReachesSelf(ix: Index, a: Id)
    requires a in ix.defs
    ensures Reaches(ix, a, a)
  {
    assert PathBetween(ix, [a], a, a);
  }

  lemma ReachesStep(ix: Index, a: Id, b: Id, c: Id)
    requires Extends(ix, a, b) && Reaches(ix, b, c)
    ensures Reaches(ix, a, c)
  {
    var p :| PathBetween(ix, p, b, c);
    var q := [a] + p;
    forall i | 0 <= i < |q| - 1
      ensures Extends(ix, q[i], q[i + 1])
    {
      if i > 0 {
        assert Extends(ix, p[i - 1], p[i]);
      }
    }
    assert PathBetween(ix, q, a, c);
  }

  // A set closed under extend_definition holds every definition reachable from it.
  lemma {:induction false} ClosedHolds(ix: Index, s: set<Id>, p: seq<Id>)
    requires Path(ix, p) && p[0] in s
    requires forall a, b :: a in s && Extends(ix, a, b) ==> b in s
    ensures p[|p| - 1] in s
  {
    if |p| > 1 {
      assert Extends(ix, p[0], p[1]);
      assert Path(ix, p[1..]) by {
        forall i | 0 <= i < |p[1..]| - 1
          ensures Extends(ix, p[1..][i], p[1..][i + 1])
        {
          assert Extends(ix, p[i + 1], p[i + 2]);
        }
      }
      ClosedHolds(ix, s, p[1..]);
    }
  }

  // ----- the walk; `seen` is shared by every call made for one rule

  // Everything `a` extends has been seen.
  ghost predicate Finished(ix: Index, seen: set<Id>, a: Id) {
    forall b :: Extends(ix, a, b) ==> b in seen
  }

  // What one call adds: `ids` are the definitions it visited, each once.
  ghost predicate Visited(ix: Index, root: Id, before: set<Id>, after: set<Id>, ids: seq<Id>, parts: seq<string>) {
    && Distinct(ids)
    && after == before + ToSet(ids)
    && (forall id :: id in ids ==> id in ix.defs && id !in before && Reaches(ix, root, id) && Finished(ix, after, id))
    && multiset(parts) == multiset(OwnTexts(ix, ids))
  }

  // The state of one call after the first i nodes of its definition.
  ghost predicate InProgress(ix: Index, root: Id, before: set<Id>, seen: set<Id>, ids: seq<Id>, parts: seq<string>, i: nat) {
    && root in ix.defs && i <= |ix.defs[root]|
    && Distinct(ids) && ids != [] && ids[0] == root
    && seen == before + ToSet(ids)
    && (forall id :: id in ids ==> id in ix.defs && id !in before && Reaches(ix, root, id))
    && (forall id :: id in ids[1..] ==> Finished(ix, seen, id))
    && (forall j, b :: 0 <= j < i && ix.defs[root][j] == Extend(b) && b in ix.defs ==> b in seen)
    && multiset(parts) == multiset(OwnText(ix, ix.defs[root][..i])) + multiset(OwnTexts(ix, ids[1..]))
  }

  lemma Snoc(ix: Index, root: Id, i: nat)
    requires root in ix.defs && i < |ix.defs[root]|
    ensures OwnText(ix, ix.defs[root][..i + 1]) == OwnText(ix, ix.defs[root][..i]) + OwnText(ix, [ix.defs[root][i]])
  {
    assert ix.defs[root][..i + 1] == ix.defs[root][..i] + [ix.defs[root][i]];
    OwnTextConcat(ix, ix.defs[root][..i], [ix.defs[root][i]]);
  }

  lemma StepOver(ix: Index, root: Id, before: set<Id>, seen: set<Id>, ids: seq<Id>, parts: seq<string>, i: nat)
    requires InProgress(ix, root, before, seen, ids, parts, i)
    requires i < |ix.defs[root]| && ix.defs[root][i].Criterion?
    ensures var n := ix.defs[root][i];
            InProgress(ix, root, before, seen, ids, parts + CriterionText(ix, n.comment, n.testRef), i + 1)
  {
    Snoc(ix, root, i);
    var n := ix.defs[root][i];
    assert OwnText(ix, [n]) == CriterionText(ix, n.comment, n.testRef) + OwnText(ix, []);
    assert OwnText(ix, [n]) == CriterionText(ix, n.comment, n.testRef);
  }

  // What an extended definition reaches, the one that extends it does.
  lemma ReachesThrough(ix: Index, root: Id, i: nat, id: Id)
    requires root in ix.defs && i < |ix.defs[root]| && ix.defs[root][i].Extend?
    requires id in ix.defs && Reaches(ix, ix.defs[root][i].definitionRef, id)
    ensures Reaches(ix, root, id)
  {
    var ref := ix.defs[root][i].definitionRef;
    var p :| PathBetween(ix, p, ref, id);
    ReachesStep(ix, root, ref, id);
  }

  lemma StepInto(
    ix: Index, root: Id, before: set<Id>, seen: set<Id>, ids: seq<Id>, parts: seq<string>, i: nat,
    after: set<Id>, moreIds: seq<Id>, more: seq<string>)
    requires InProgress(ix, root, before, seen, ids, parts, i)
    requires i < |ix.defs[root]| && ix.defs[root][i].Extend?
    requires Visited(ix, ix.defs[root][i].definitionRef, seen, after, moreIds, more)
    requires ix.defs[root][i].definitionRef in ix.defs ==> ix.defs[root][i].definitionRef in after
    ensures InProgress(ix, root, before, after, ids + moreIds, parts + more, i + 1)
  {
    hide Reaches, OwnText, OwnTexts;
    assert (ids + moreIds)[1..] == ids[1..] + moreIds;
    StepIntoText(ix, root, ids[1..], parts, i, moreIds, more);
    DistinctConcat(ids, moreIds);
    assert ToSet(ids) <= seen;
    forall id | id in moreIds
      ensures Reaches(ix, root, id)
    {
      ReachesThrough(ix, root, i, id);
    }
    forall id | id in (ids + moreIds)[1..]
      ensures Finished(ix, after, id)
    {
      assert id in ids[1..] || id in moreIds;
    }
  }

  lemma StepIntoText(
    ix: Index, root: Id, ids: seq<Id>, parts: seq<string>, i: nat, moreIds: seq<Id>, more: seq<string>)
    requires root in ix.defs && i < |ix.defs[root]| && ix.defs[root][i].Extend?
    requires forall id :: id in ids + moreIds ==> id in ix.defs
    requires forall id :: id in ids ==> id in ix.defs
    requires forall id :: id in moreIds ==> id in ix.defs
    requires multiset(parts) == multiset(OwnText(ix, ix.defs[root][..i])) + multiset(OwnTexts(ix, ids))
    requires multiset(more) == multiset(OwnTexts(ix, moreIds))
    ensures multiset(parts + more)
         == multiset(OwnText(ix, ix.defs[root][..i + 1])) + multiset(OwnTexts(ix, ids + moreIds))
  {
    Snoc(ix, root, i);
    var node := ix.defs[root][i];
    assert OwnText(ix, [node]) == [] by {
      assert [node][1..] == [];
    }
    OwnTextsConcat(ix, ids, moreIds);
  }

  lemma Finish(ix: Index, root: Id, before: set<Id>, seen: set<Id>, ids: seq<Id>, parts: seq<string>)
    requires root in ix.defs && InProgress(ix, root, before, seen, ids, parts, |ix.defs[root]|)
    ensures Visited(ix, root, before, seen, ids, parts) && root in seen
  {
    var nodes := ix.defs[root];
    assert nodes[..|nodes|] == nodes;
    assert ids == [root] + ids[1..];
    assert Finished(ix, seen, root);
  }

  lemma NothingVisited(ix: Index, root: Id, seen: set<Id>)
    ensures Visited(ix, root, seen, seen, [], [])
  {
  }

  lemma Start(ix: Index, root: Id, before: set<Id>)
    requires root in ix.defs && root !in before
    ensures InProgress(ix, root, before, before + {root}, [root], [], 0)
  {
    ReachesSelf(ix, root);
    assert ix.defs[root][..0] == [] && [root][1..] == [];
  }

  lemma SeenSoFar(ix: Index, root: Id, before: set<Id>, seen: set<Id>, ids: seq<Id>, parts: seq<string>, i: nat)
    requires InProgress(ix, root, before, seen, ids, parts, i)
    ensures before + {root} <= seen
  {
    assert ids[0] in ids;
  }

  class Walker {
    const index: Index
    var seen: set<Id>

    constructor (ix: Index)
      ensures index == ix && seen == {}
    {
      index, seen := ix, {};
    }

    method DefinitionText(id: Id) returns (parts: seq<string>, ghost ids: seq<Id>)
      modifies this
      ensures Visited(index, id, old(seen), seen, ids, parts)
      ensures id in index.defs ==> id in seen
      decreases index.defs.Keys - seen
    {
      hide Visited, InProgress;
      if id !in index.defs || id in seen {
        NothingVisited(index, id, seen);
        return [], [];
      }
      Start(index, id, seen);
      seen := seen + {id};
      var nodes := index.defs[id];
      parts, ids := [], [id];
      var i := 0;
      while i < |nodes|
        invariant 0 <= i <= |nodes|
        invariant InProgress(index, id, old(seen), seen, ids, parts, i)
      {
        SeenSoFar(index, id, old(seen), seen, ids, parts, i);
        match nodes[i] {
          case Extend(ref) =>
            ghost var mid := seen;
            var more, moreIds := DefinitionText(ref);
            StepInto(index, id, old(seen), mid, ids, parts, i, seen, moreIds, more);
            parts, ids := parts + more, ids + moreIds;
          case Criterion(comment, testRef) =>
            StepOver(index, id, old(seen), seen, ids, parts, i);
            parts := parts + CriterionText(index, comment, testRef);
        }
        i := i + 1;
      }
      Finish(index, id, old(seen), seen, ids, parts);
    }
  }

  // ----- one rule: every `oval:` check reference, with one shared `seen`

  // The visited definitions are exactly the reachable ones.
  ghost predicate CollectedExactly(ix: Index, refs: seq<Id>, ids: seq<Id>, parts: seq<string>) {
    && Distinct(ids)
    && (forall id :: id in ids <==> id in ix.defs && ReachedFrom(ix, refs, id))
    && multiset(parts) == multiset(OwnTexts(ix, ids))
  }

  method OvalCheckParts(ix: Index, refs: seq<Id>) returns (parts: seq<string>, ghost ids: seq<Id>)
    ensures CollectedExactly(ix, refs, ids, parts)
    ensures exists order :: CollectedExactly(ix, refs, order, parts)
  {
    var walker := new Walker(ix);
    parts, ids := [], [];
    var i := 0;
    while i < |refs|
      invariant 0 <= i <= |refs|
      invariant walker.index == ix
      invariant RefsDone(ix, refs, i, walker.seen, ids, parts)
    {
      ghost var before := walker.seen;
      var more, moreIds := walker.DefinitionText(refs[i]);
      NextRef(ix, refs, i, before, ids, parts, walker.seen, moreIds, more);
      parts, ids := parts + more, ids + moreIds;
      i := i + 1;
    }
    ExactlyReachable(ix, refs, walker.seen, ids, parts);
  }

  ghost predicate RefsDone(ix: Index, refs: seq<Id>, i: nat, seen: set<Id>, ids: seq<Id>, parts: seq<string>) {
    && i <= |refs|
    && Distinct(ids) && seen == ToSet(ids)
    && (forall id :: id in ids ==> id in ix.defs && ReachedFrom(ix, refs, id) && Finished(ix, seen, id))
    && (forall j :: 0 <= j < i && refs[j] in ix.defs ==> refs[j] in seen)
    && multiset(parts) == multiset(OwnTexts(ix, ids))
  }

  lemma NextRef(
    ix: Index, refs: seq<Id>, i: nat, seen: set<Id>, ids: seq<Id>, parts: seq<string>,
    after: set<Id>, moreIds: seq<Id>, more: seq<string>)
    requires RefsDone(ix, refs, i, seen, ids, parts) && i < |refs|
    requires Visited(ix, refs[i], seen, after, moreIds, more)
    requires refs[i] in ix.defs ==> refs[i] in after
    ensures RefsDone(ix, refs, i + 1, after, ids + moreIds, parts + more)
  {
    assert multiset(parts + more) == multiset(OwnTexts(ix, ids + moreIds)) by {
      OwnTextsConcat(ix, ids, moreIds);
    }
    DistinctConcat(ids, moreIds);
    forall id | id in ids + moreIds
      ensures ReachedFrom(ix, refs, id) && Finished(ix, after, id)
    {
      assert id in moreIds ==> refs[i] in refs && Reaches(ix, refs[i], id);
    }
  }

  lemma ExactlyReachable(ix: Index, refs: seq<Id>, seen: set<Id>, ids: seq<Id>, parts: seq<string>)
    requires RefsDone(ix, refs, |refs|, seen, ids, parts)
    ensures CollectedExactly(ix, refs, ids, parts)
  {
    forall id | id in ix.defs && ReachedFrom(ix, refs, id)
      ensures id in ids
    {
      var r :| r in refs && Reaches(ix, r, id);
      var p :| PathBetween(ix, p, r, id);
      assert forall a, b :: a in seen && Extends(ix, a, b) ==> a in ids;
      ClosedHolds(ix, seen, p);
    }
  }
}
