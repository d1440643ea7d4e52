/** `topo_sort`: a recursive depth-first sort with three-state marking. */
module TopoSort {
  import opened Prelude

  type Id = string

  datatype Rule = Rule(id: Id, dependsOn: seq<Id>)

  // The value of `visited` for an id; an absent id has not been reached.
  datatype Mark = In | Done

  datatype Outcome = Sorted(order: seq<Rule>) | CycleError(id: Id) | KeyError(id: Id)

  type Graph = map<Id, Rule>

  function IdOf(r: Rule): Id {
    r.id
  }

  // `by_id` and `by_id.values()`
  function ById(rules: seq<Rule>): Graph {
    DictBy(rules, IdOf)
  }

  function Values(rules: seq<Rule>): seq<Rule> {
    ValuesBy(rules, IdOf)
  }

  // ----- graph vocabulary

  predicate Edge(g: Graph, a: Id, b: Id) {
    a in g && b in g[a].dependsOn
  }

  ghost predicate Walk(g: Graph, p: seq<Id>) {
    forall i :: 0 <= i < |p| - 1 ==> Edge(g, p[i], p[i + 1])
  }

  ghost predicate ClosedWalk(g: Graph, p: seq<Id>, id: Id) {
    |p| >= 2 && p[0] == id && p[|p| - 1] == id && Walk(g, p)
  }

  // id depends on itself through one or more dependencies.
  ghost predicate OnCycle(g: Graph, id: Id) {
    exists p :: ClosedWalk(g, p, id)
  }

  ghost predicate Acyclic(g: Graph) {
    forall id :: !OnCycle(g, id)
  }

  ghost predicate UnknownDependency(g: Graph, id: Id) {
    id !in g && exists a :: Edge(g, a, id)
  }

  ghost predicate AllKnown(g: Graph) {
    forall a, b :: Edge(g, a, b) ==> b in g
  }

  ghost predicate Before(order: seq<Rule>, k: nat, id: Id) {
    exists j :: 0 <= j < k && j < |order| && order[j].id == id
  }

  // Every rule comes after all its dependencies.
  ghost predicate DependenciesFirst(order: seq<Rule>) {
    forall k, d :: 0 <= k < |order| && d in order[k].dependsOn ==> Before(order, k, d)
  }

  ghost predicate Enumerates(g: Graph, order: seq<Rule>, ids: set<Id>) {
    && Distinct(order)
    && (forall k :: 0 <= k < |order| ==> order[k].id in g && order[k] == g[order[k].id])
    && (forall id :: id in ids <==> Before(order, |order|, id))
  }

  // ----- the state of the walk

  ghost function DoneIds(visited: map<Id, Mark>): set<Id> {
    set id | id in visited && visited[id] == Done
  }

  // The `in` ids are exactly the current path, and the finished ids are in
  // `order` with everything they depend on before them.
  ghost predicate Consistent(g: Graph, visited: map<Id, Mark>, order: seq<Rule>, path: seq<Id>) {
    && (forall id :: id in g ==> g[id].id == id)
    && visited.Keys <= g.Keys
    && (forall id :: id in path <==> id in visited && visited[id] == In)
    && Walk(g, path)
    && Enumerates(g, order, DoneIds(visited))
    && DependenciesFirst(order)
  }

  // Later states of one run of the walk.
  ghost predicate Grows(visited0: map<Id, Mark>, order0: seq<Rule>, visited: map<Id, Mark>, order: seq<Rule>) {
    && visited0.Keys <= visited.Keys
    && DoneIds(visited0) <= DoneIds(visited)
    && order0 <= order
  }

  ghost predicate DependenciesDone(g: Graph, visited: map<Id, Mark>, id: Id) {
    id in g && forall d :: d in g[id].dependsOn ==> d in DoneIds(visited)
  }

  lemma EnterKeeps(g: Graph, visited: map<Id, Mark>, order: seq<Rule>, path: seq<Id>, id: Id)
    requires Consistent(g, visited, order, path) && id in g && id !in visited
    requires path != [] ==> Edge(g, path[|path| - 1], id)
    ensures Consistent(g, visited[id := In], order, path + [id])
    ensures DoneIds(visited[id := In]) == DoneIds(visited)
    ensures id !in path
  {
    assert DoneIds(visited[id := In]) == DoneIds(visited);
    var here := path + [id];
    forall x
      ensures x in here <==> x in visited[id := In] && visited[id := In][x] == In
    {
      assert x in here <==> x in path || x == id;
    }
    forall i | 0 <= i < |here| - 1
      ensures Edge(g, here[i], here[i + 1])
    {
      if i < |path| - 1 {
        assert Edge(g, path[i], path[i + 1]);
      }
    }
  }

  lemma LeaveKeeps(g: Graph, visited: map<Id, Mark>, order: seq<Rule>, path: seq<Id>, id: Id)
    requires Consistent(g, visited, order, path + [id]) && id !in path
    requires DependenciesDone(g, visited, id)
    ensures Consistent(g, visited[id := Done], order + [g[id]], path)
    ensures DoneIds(visited[id := Done]) == DoneIds(visited) + {id}
  {
    var here := path + [id];
    assert forall x :: x in here <==> x in path || x == id;
    assert id in here;
    AppendKeeps(g, order, g[id], DoneIds(visited));
    assert DoneIds(visited[id := Done]) == DoneIds(visited) + {id};
    forall i | 0 <= i < |path| - 1
      ensures Edge(g, path[i], path[i + 1])
    {
      assert Edge(g, here[i], here[i + 1]);
    }
  }

  ghost predicate RealError(g: Graph, e: Outcome) {
    match e
    case CycleError(c) => OnCycle(g, c)
    case KeyError(u) => UnknownDependency(g, u)
    case Sorted(_) => false
  }

  // ----- the sorter: `visited` and `order` are the closure's shared variables

  class Sorter {
    const byId: Graph
    var visited: map<Id, Mark>
    var order: seq<Rule>

    constructor (g: Graph)
      ensures byId == g && visited == map[] && order == []
    {
      byId, visited, order := g, map[], [];
    }

    method Visit(id: Id, ghost path: seq<Id>) returns (error: Option<Outcome>)
      requires Consistent(byId, visited, order, path)
      requires if path == [] then id in byId else Edge(byId, path[|path| - 1], id)
      modifies this
      ensures error == None ==> Consistent(byId, visited, order, path) && id in DoneIds(visited)
      ensures error == None ==> Grows(old(visited), old(order), visited, order)
      ensures error != None ==> RealError(byId, error.value)
      // a finished rule stays as it is; one whose dependencies are finished is appended at once
      ensures id in DoneIds(old(visited)) ==> error == None && visited == old(visited) && order == old(order)
      ensures id !in old(visited) && DependenciesDone(byId, old(visited), id)
              ==> error == None && visited == old(visited)[id := Done] && order == old(order) + [byId[id]]
      decreases byId.Keys - visited.Keys
    {
      hide Consistent;
      if id in visited && visited[id] == Done {
        return None;
      }
      if id in visited && visited[id] == In {
        ReentryIsCycle(byId, visited, order, path, id);
        return Some(CycleError(id));
      }
      if id !in byId {
        assert Edge(byId, path[|path| - 1], id);
        return Some(KeyError(id));
      }
      EnterKeeps(byId, visited, order, path, id);
      visited := visited[id := In];
      label Entered:
      var deps := byId[id].dependsOn;
      var i := 0;
      while i < |deps|
        invariant 0 <= i <= |deps|
        invariant Consistent(byId, visited, order, path + [id])
        invariant Grows(old@Entered(visited), old(order), visited, order)
        invariant forall k :: 0 <= k < i ==> deps[k] in DoneIds(visited)
        invariant DependenciesDone(byId, old(visited), id) ==> visited == old@Entered(visited) && order == old(order)
      {
        assert Edge(byId, id, deps[i]);
        assert id in visited.Keys && id !in old(visited.Keys);
        error := Visit(deps[i], path + [id]);
        if error != None {
          return;
        }
        i := i + 1;
      }
      LeaveKeeps(byId, visited, order, path, id);
      visited := visited[id := Done];
      order := order + [byId[id]];
      return None;
    }

    method VisitAll(values: seq<Rule>) returns (error: Option<Outcome>)
      requires Enumerates(byId, values, byId.Keys)
      requires visited == map[] && order == []
      modifies this
      ensures error == None ==> AllKnown(byId) && Acyclic(byId)
      ensures error == None ==> multiset(order) == multiset(values) && DependenciesFirst(order)
      ensures error != None ==> RealError(byId, error.value)
      ensures DependenciesFirst(values) ==> error == None && order == values
    {
      ghost var inOrder := DependenciesFirst(values);
      var i := 0;
      while i < |values|
        invariant 0 <= i <= |values|
        invariant Consistent(byId, visited, order, [])
        invariant AllDone(values[..i], visited)
        invariant inOrder ==> order == values[..i]
      {
        ghost var before := visited;
        if inOrder {
          NextInOrder(byId, values, i, visited, order);
        }
        assert values[i].id in byId && byId[values[i].id] == values[i];
        error := Visit(values[i].id, []);
        if error != None {
          return;
        }
        AllDoneGrows(values, i, before, visited);
        i := i + 1;
      }
      assert values[..i] == values;
      FinishedOrder(byId, values, visited, order);
      return None;
    }
  }

  // The last id of a path that re-enters the path closes a cycle.
  lemma PathCloses(g: Graph, path: seq<Id>, id: Id)
    requires Walk(g, path) && id in path && Edge(g, path[|path| - 1], id)
    ensures OnCycle(g, id)
  {
    var k :| 0 <= k < |path| && path[k] == id;
    var p := path[k..] + [id];
    forall i | 0 <= i < |p| - 1
      ensures Edge(g, p[i], p[i + 1])
    {
      if i + 1 < |p| - 1 {
        assert p[i] == path[k + i] && p[i + 1] == path[k + i + 1];
        assert Edge(g, path[k + i], path[k + i + 1]);
      }
    }
    assert ClosedWalk(g, p, id);
  }

  lemma ReentryIsCycle(g: Graph, visited: map<Id, Mark>, order: seq<Rule>, path: seq<Id>, id: Id)
    requires Consistent(g, visited, order, path) && id in visited && visited[id] == In
    requires if path == [] then id in g else Edge(g, path[|path| - 1], id)
    ensures OnCycle(g, id)
  {
    assert id in path;
    PathCloses(g, path, id);
  }

  // Appending a rule whose dependencies are all finished.
  lemma AppendKeeps(g: Graph, order: seq<Rule>, r: Rule, ids: set<Id>)
    requires Enumerates(g, order, ids) && DependenciesFirst(order)
    requires r.id in g && g[r.id] == r && r.id !in ids
    requires forall d :: d in r.dependsOn ==> d in ids
    ensures Enumerates(g, order + [r], ids + {r.id}) && DependenciesFirst(order + [r])
  {
    var longer := order + [r];
    forall id
      ensures id in ids + {r.id} <==> Before(longer, |longer|, id)
    {
      if Before(order, |order|, id) {
        var j :| 0 <= j < |order| && order[j].id == id;
        assert longer[j].id == id;
      }
      assert longer[|order|] == r;
    }
    assert Distinct(longer) by {
      forall k | 0 <= k < |order|
        ensures order[k] != r
      {
        assert Before(order, |order|, order[k].id);
      }
    }
    forall k, d | 0 <= k < |longer| && d in longer[k].dependsOn
      ensures Before(longer, k, d)
    {
      var bound := if k < |order| then k else |order|;
      assert Before(order, bound, d);
      var j :| 0 <= j < bound && order[j].id == d;
      assert longer[j].id == d;
    }
  }

  // An order with dependencies first leaves no room for a cycle: along a walk
  // positions only go down.
  lemma {:induction false} WalkDescends(g: Graph, order: seq<Rule>, p: seq<Id>, k: nat)
    requires Enumerates(g, order, g.Keys) && DependenciesFirst(order)
    requires Walk(g, p) && |p| >= 2
    requires k < |order| && order[k].id == p[0]
    ensures Before(order, k, p[|p| - 1])
  {
    assert Edge(g, p[0], p[1]);
    assert Before(order, k, p[1]);
    if |p| > 2 {
      var j :| 0 <= j < k && order[j].id == p[1];
      assert Walk(g, p[1..]) by {
        forall i | 0 <= i < |p[1..]| - 1
          ensures Edge(g, p[1..][i], p[1..][i + 1])
        {
          assert Edge(g, p[i + 1], p[i + 2]);
        }
      }
      WalkDescends(g, order, p[1..], j);
    }
  }

  lemma OnlyOnce(order: seq<Rule>, k: nat)
    requires k < |order| && Distinct(order)
    requires forall j :: 0 <= j < |order| && order[j].id == order[k].id ==> order[j] == order[k]
    ensures !Before(order, k, order[k].id)
  {
    forall j | 0 <= j < k
      ensures order[j].id != order[k].id
    {
      assert order[j] != order[k];
    }
  }

  lemma DependenciesFirstIsAcyclic(g: Graph, order: seq<Rule>)
    requires Enumerates(g, order, g.Keys) && DependenciesFirst(order)
    ensures AllKnown(g) && Acyclic(g)
  {
    forall a, b | Edge(g, a, b)
      ensures b in g
    {
      assert Before(order, |order|, a);
      var k :| 0 <= k < |order| && order[k].id == a;
      assert Before(order, k, b);
    }
    forall id
      ensures !OnCycle(g, id)
    {
      if OnCycle(g, id) {
        var p :| ClosedWalk(g, p, id);
        assert Edge(g, p[0], p[1]);
        assert Before(order, |order|, id);
        var k :| 0 <= k < |order| && order[k].id == id;
        OnlyOnce(order, k);
        WalkDescends(g, order, p, k);
        assert false;
      }
    }
  }

  lemma EnumerationsPermute(g: Graph, a: seq<Rule>, b: seq<Rule>)
    requires Enumerates(g, a, g.Keys) && Enumerates(g, b, g.Keys)
    ensures multiset(a) == multiset(b)
  {
    forall x
      ensures multiset(a)[x] == multiset(b)[x]
    {
      DistinctCount(a, x);
      DistinctCount(b, x);
      EnumeratesIn(g, a, x);
      EnumeratesIn(g, b, x);
    }
  }

  lemma EnumeratesIn(g: Graph, a: seq<Rule>, x: Rule)
    requires Enumerates(g, a, g.Keys)
    ensures x in a <==> x.id in g && g[x.id] == x
  {
    if x.id in g && g[x.id] == x {
      assert Before(a, |a|, x.id);
    }
  }

  lemma {:induction false} DistinctCount<T>(a: seq<T>, x: T)
    requires Distinct(a)
    ensures multiset(a)[x] == if x in a then 1 else 0
  {
    if a != [] {
      DistinctCount(a[1..], x);
      assert a == [a[0]] + a[1..];
    }
  }

  lemma ValuesEnumerate(rules: seq<Rule>)
    ensures Enumerates(ById(rules), Values(rules), ById(rules).Keys)
  {
    var g, vs, ks := ById(rules), Values(rules), KeysBy(rules, IdOf);
    assert forall k :: 0 <= k < |vs| ==> vs[k].id == IdOf(vs[k]) == ks[k];
    forall id
      ensures id in g.Keys <==> Before(vs, |vs|, id)
    {
      if id in g {
        var k :| 0 <= k < |ks| && ks[k] == id;
        assert vs[k].id == id;
      }
    }
  }

  // The sort succeeds exactly on known, acyclic dependencies; its result is
  // then a permutation of the rules with every dependency first. Rules that
  // already come in such an order are returned as they are.
  method TopoSort(rules: seq<Rule>) returns (r: Outcome)
    ensures r.Sorted? <==> AllKnown(ById(rules)) && Acyclic(ById(rules))
    ensures r.Sorted? ==> multiset(r.order) == multiset(Values(rules)) && DependenciesFirst(r.order)
    ensures r.CycleError? ==> OnCycle(ById(rules), r.id)
    ensures r.KeyError? ==> UnknownDependency(ById(rules), r.id)
    ensures DependenciesFirst(Values(rules)) ==> r == Sorted(Values(rules))
  {
    var g, values := ById(rules), Values(rules);
    ValuesEnumerate(rules);
    var sorter := new Sorter(g);
    var error := sorter.VisitAll(values);
    r := if error == None then Sorted(sorter.order) else error.value;
    if error != None {
      RealErrorRefutes(g, error.value);
    }
  }

  lemma RealErrorRefutes(g: Graph, e: Outcome)
    requires RealError(g, e)
    ensures !(AllKnown(g) && Acyclic(g))
  {
    match e
    case CycleError(_) =>
    case KeyError(u) =>
      var a :| Edge(g, a, u);
  }

  ghost predicate AllDone(rules: seq<Rule>, visited: map<Id, Mark>) {
    forall r :: r in rules ==> r.id in DoneIds(visited)
  }

  lemma AllDoneGrows(values: seq<Rule>, i: nat, before: map<Id, Mark>, visited: map<Id, Mark>)
    requires i < |values| && AllDone(values[..i], before)
    requires DoneIds(before) <= DoneIds(visited) && values[i].id in DoneIds(visited)
    ensures AllDone(values[..i + 1], visited)
  {
    assert values[..i + 1] == values[..i] + [values[i]];
  }

  lemma FinishedOrder(g: Graph, values: seq<Rule>, visited: map<Id, Mark>, order: seq<Rule>)
    requires Enumerates(g, values, g.Keys) && Consistent(g, visited, order, [])
    requires AllDone(values, visited)
    ensures AllKnown(g) && Acyclic(g) && multiset(order) == multiset(values) && DependenciesFirst(order)
  {
    forall id | id in g
      ensures id in DoneIds(visited)
    {
      assert Before(values, |values|, id);
    }
    assert DoneIds(visited) == g.Keys;
    DependenciesFirstIsAcyclic(g, order);
    EnumerationsPermute(g, order, values);
  }

  // On input already in order, the next rule is new and its dependencies are done.
  lemma NextInOrder(g: Graph, values: seq<Rule>, i: nat, visited: map<Id, Mark>, order: seq<Rule>)
    requires i < |values| && order == values[..i]
    requires Enumerates(g, values, g.Keys) && DependenciesFirst(values)
    requires Consistent(g, visited, order, [])
    ensures values[i].id !in visited && DependenciesDone(g, visited, values[i].id)
  {
    var id := values[i].id;
    assert Before(order, |order|, id) ==> Before(values, i, id);
    OnlyOnce(values, i);
    assert id !in DoneIds(visited);
    assert id in visited ==> visited[id] == Done by {
      assert id !in [];
    }
    forall d | d in g[id].dependsOn
      ensures d in DoneIds(visited)
    {
      assert Before(values, i, d);
      var j :| 0 <= j < i && values[j].id == d;
      assert order[j].id == d;
      assert Before(order, |order|, d);
    }
  }

  // Sorting a sorted list changes nothing.
  method SortTwice(rules: seq<Rule>) returns (once: Outcome, twice: Outcome)
    requires DistinctBy(rules, IdOf)
    ensures once.Sorted? ==> multiset(once.order) == multiset(rules) && twice == once
  {
    ValuesOfDistinct(rules, IdOf);
    once := TopoSort(rules);
    twice := once;
    if once.Sorted? {
      SameIdsDistinct(rules, once.order);
      ValuesOfDistinct(once.order, IdOf);
      twice := TopoSort(once.order);
    }
  }

  lemma SameIdsDistinct(a: seq<Rule>, b: seq<Rule>)
    requires multiset(a) == multiset(b)
    requires DistinctBy(a, IdOf)
    ensures DistinctBy(b, IdOf)
  {
    SameElements(a, b);
    forall i, j | 0 <= i < j < |b|
      ensures IdOf(b[i]) != IdOf(b[j])
    {
      if b[i].id == b[j].id {
        assert b[i] in a && b[j] in a;
        assert b[i] == b[j];
        assert Distinct(a);
        DistinctCount(a, b[i]);
        TwiceCount(b, i, j);
        assert false;
      }
    }
  }

  lemma TwiceCount<T>(b: seq<T>, i: nat, j: nat)
    requires i < j < |b| && b[i] == b[j]
    ensures multiset(b)[b[i]] >= 2
  {
    assert b == b[..i + 1] + b[i + 1..];
    assert b[i] in b[..i + 1] && b[j] in b[i + 1..] by {
      assert b[..i + 1][i] == b[i] && b[i + 1..][j - i - 1] == b[j];
    }
    assert multiset(b) == multiset(b[..i + 1]) + multiset(b[i + 1..]);
  }
}
