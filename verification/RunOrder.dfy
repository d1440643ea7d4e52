/** The order the catalogue is run in: `topo_sort(load_rules(distro))`, the
    same rules for every distro. */
module RunOrder {
  import opened Prelude
  import opened Rules
  import TopoSort

  function Spec(n: RuleName): TopoSort.Rule {
    TopoSort.Rule(IdText(n), IdTexts(DependsOn(n)))
  }

  function IdTexts(ns: seq<RuleName>): seq<string> {
    if ns == [] then [] else [IdText(ns[0])] + IdTexts(ns[1..])
  }

  function Specs(ns: seq<RuleName>): seq<TopoSort.Rule> {
    Map(ns, Spec)
  }

  // Each rule runs once, after every rule it depends on.
  ghost predicate IsRunOrder(order: seq<RuleName>) {
    && (forall n :: n in order)
    && Distinct(order)
    && (forall k, d :: 0 <= k < |order| && d in DependsOn(order[k]) ==> d in order[..k])
  }

  // ----- ids tell rules apart: by length and first character

  function Length(n: RuleName): nat {
    match n
    case AdminUserAndKeys => 19
    case DataDisksPreserve => 19
    case AuditdActions => 14
    case ContainerHost => 14
    case BannerText => 11
    case DodRootCa => 11
    case CryptoPolicyRule => 13
    case PackagePurge => 13
    case SshKeepOpen => 13
    case FaillockSafety => 15
    case SkelInitFiles => 15
    case KernelModuleBlacklist => 23
    case RngdEntropy => 12
    case TimeServers => 12
    case SshConfigApply => 16
    case UnattendedUpdates => 18
    case Usbguard => 8
  }

  lemma IdShape(n: RuleName)
    ensures |IdText(n)| == Length(n)
    ensures IdText(n)[0] == match n
                            case AdminUserAndKeys => 'a'
                            case AuditdActions => 'a'
                            case BannerText => 'b'
                            case ContainerHost => 'c'
                            case CryptoPolicyRule => 'c'
                            case DataDisksPreserve => 'd'
                            case DodRootCa => 'd'
                            case FaillockSafety => 'f'
                            case KernelModuleBlacklist => 'k'
                            case PackagePurge => 'p'
                            case RngdEntropy => 'r'
                            case SkelInitFiles => 's'
                            case SshConfigApply => 's'
                            case SshKeepOpen => 's'
                            case TimeServers => 't'
                            case UnattendedUpdates => 'u'
                            case Usbguard => 'u'
  {
  }

  lemma IdsDiffer(a: RuleName, b: RuleName)
    requires IdText(a) == IdText(b)
    ensures a == b
  {
    IdShape(a);
    IdShape(b);
  }

  function Find(id: string, ns: seq<RuleName>): (r: Option<RuleName>)
    ensures r.Some? ==> IdText(r.value) == id && r.value in ns
    ensures r == None ==> forall n :: n in ns ==> IdText(n) != id
  {
    if ns == [] then None else if IdText(ns[0]) == id then Some(ns[0]) else Find(id, ns[1..])
  }

  lemma {:induction false} InIdTexts(ns: seq<RuleName>, id: string)
    ensures id in IdTexts(ns) <==> exists n :: n in ns && IdText(n) == id
  {
    if ns != [] {
      InIdTexts(ns[1..], id);
    }
  }

  lemma CatalogueIsAll(n: RuleName)
    ensures n in CATALOGUE
  {
    var k := match n
      case AdminUserAndKeys => 0 case AuditdActions => 1 case BannerText => 2 case ContainerHost => 3
      case CryptoPolicyRule => 4 case DataDisksPreserve => 5 case DodRootCa => 6 case FaillockSafety => 7
      case KernelModuleBlacklist => 8 case PackagePurge => 9 case RngdEntropy => 10 case SkelInitFiles => 11
      case SshConfigApply => 12 case SshKeepOpen => 13 case TimeServers => 14 case UnattendedUpdates => 15
      case Usbguard => 16;
    assert CATALOGUE[k] == n;
  }

  lemma CatalogueIdsDistinct()
    ensures DistinctBy(Specs(CATALOGUE), TopoSort.IdOf)
  {
    var specs := Specs(CATALOGUE);
    forall i, j | 0 <= i < j < |specs|
      ensures TopoSort.IdOf(specs[i]) != TopoSort.IdOf(specs[j])
    {
      assert CATALOGUE[i] != CATALOGUE[j];
      if IdText(CATALOGUE[i]) == IdText(CATALOGUE[j]) {
        IdsDiffer(CATALOGUE[i], CATALOGUE[j]);
      }
    }
  }

  // ----- the sort succeeds: dependencies have a lower rank

  function Rank(n: RuleName): nat {
    match n
    case SshConfigApply => 2
    case AdminUserAndKeys => 1
    case ContainerHost => 1
    case _ => 0
  }

  // The dict of the catalogue holds exactly the catalogue's rules.
  ghost predicate CatalogueGraph(g: TopoSort.Graph) {
    forall id :: id in g ==> exists n :: IdText(n) == id && g[id] == Spec(n)
  }

  lemma EdgeIsDependency(g: TopoSort.Graph, a: string, b: string) returns (x: RuleName, y: RuleName)
    requires CatalogueGraph(g) && TopoSort.Edge(g, a, b)
    ensures IdText(x) == a && IdText(y) == b && y in DependsOn(x) && Rank(y) < Rank(x)
  {
    hide IdText, DependsOn, Rank, IdTexts;
    x :| IdText(x) == a && g[a] == Spec(x);
    InIdTexts(DependsOn(x), b);
    y :| y in DependsOn(x) && IdText(y) == b;
    DependencyLowersRank(x, y);
  }

  lemma DependencyLowersRank(x: RuleName, y: RuleName)
    requires y in DependsOn(x)
    ensures Rank(y) < Rank(x)
  {
  }

  lemma {:induction false} WalkLowersRank(g: TopoSort.Graph, p: seq<string>, x: RuleName) returns (y: RuleName)
    requires CatalogueGraph(g) && TopoSort.Walk(g, p) && |p| >= 2 && IdText(x) == p[0]
    ensures IdText(y) == p[|p| - 1] && Rank(y) < Rank(x)
  {
    assert TopoSort.Edge(g, p[0], p[1]);
    var x', z := EdgeIsDependency(g, p[0], p[1]);
    IdsDiffer(x, x');
    if |p| == 2 {
      y := z;
    } else {
      forall i | 0 <= i < |p[1..]| - 1
        ensures TopoSort.Edge(g, p[1..][i], p[1..][i + 1])
      {
        assert TopoSort.Edge(g, p[i + 1], p[i + 2]);
      }
      y := WalkLowersRank(g, p[1..], z);
    }
  }

  lemma CatalogueSorts(g: TopoSort.Graph)
    requires CatalogueGraph(g) && forall n :: IdText(n) in g
    ensures TopoSort.AllKnown(g) && TopoSort.Acyclic(g)
  {
    forall a, b | TopoSort.Edge(g, a, b)
      ensures b in g
    {
      var x, y := EdgeIsDependency(g, a, b);
    }
    forall id
      ensures !TopoSort.OnCycle(g, id)
    {
      forall p
        ensures !TopoSort.ClosedWalk(g, p, id)
      {
        if TopoSort.ClosedWalk(g, p, id) {
          assert TopoSort.Edge(g, p[0], p[1]);
          var x, z := EdgeIsDependency(g, p[0], p[1]);
          var y := WalkLowersRank(g, p, x);
          IdsDiffer(x, y);
          assert false;
        }
      }
    }
  }

  lemma CatalogueIsGraph()
    ensures CatalogueGraph(TopoSort.ById(Specs(CATALOGUE)))
    ensures forall n :: IdText(n) in TopoSort.ById(Specs(CATALOGUE))
  {
    var specs := Specs(CATALOGUE);
    var g := TopoSort.ById(specs);
    forall id | id in g
      ensures exists n :: IdText(n) == id && g[id] == Spec(n)
    {
      assert g[id] in specs && TopoSort.IdOf(g[id]) == id;
      var k :| 0 <= k < |specs| && specs[k] == g[id];
      assert g[id] == Spec(CATALOGUE[k]);
    }
    forall n
      ensures IdText(n) in g
    {
      CatalogueIsAll(n);
      var k :| 0 <= k < |CATALOGUE| && CATALOGUE[k] == n;
      assert specs[k] == Spec(n) && specs[k] in specs;
    }
  }

  // ----- the order

  ghost predicate IsSpec(r: TopoSort.Rule) {
    exists n :: r == Spec(n)
  }

  // The names behind a sorted list of specs.
  function Names(specs: seq<TopoSort.Rule>): (ns: seq<RuleName>)
    requires forall r :: r in specs ==> IsSpec(r)
    ensures |ns| == |specs| && forall k :: 0 <= k < |ns| ==> Spec(ns[k]) == specs[k]
  {
    hide IsSpec, Spec, Find;
    if specs == [] then []
    else
      assert specs[0] in specs;
      FoundIs(specs[0]);
      [Find(specs[0].id, CATALOGUE).value] + Names(specs[1..])
  }

  lemma FoundIs(r: TopoSort.Rule)
    requires IsSpec(r)
    ensures Find(r.id, CATALOGUE).Some? && Spec(Find(r.id, CATALOGUE).value) == r
  {
    hide IdText;
    var n :| r == Spec(n);
    CatalogueIsAll(n);
    IdsDiffer(n, Find(r.id, CATALOGUE).value);
  }

  lemma SortedAreSpecs(specs: seq<TopoSort.Rule>)
    requires multiset(specs) == multiset(Specs(CATALOGUE))
    ensures forall r :: r in specs ==> IsSpec(r)
  {
    hide Spec;
    SameElements(specs, Specs(CATALOGUE));
    forall r | r in specs
      ensures IsSpec(r)
    {
      var k :| 0 <= k < |CATALOGUE| && Specs(CATALOGUE)[k] == r;
      assert r == Spec(CATALOGUE[k]);
    }
  }

  lemma NamesAreAll(specs: seq<TopoSort.Rule>)
    requires multiset(specs) == multiset(Specs(CATALOGUE)) && forall r :: r in specs ==> IsSpec(r)
    ensures forall n :: n in Names(specs)
    ensures Distinct(Names(specs))
  {
    hide IdText, DependsOn, IsSpec;
    SameElements(specs, Specs(CATALOGUE));
    var ns := Names(specs);
    forall n
      ensures n in ns
    {
      CatalogueIsAll(n);
      var j :| 0 <= j < |CATALOGUE| && CATALOGUE[j] == n;
      assert Specs(CATALOGUE)[j] in specs;
      var k :| 0 <= k < |specs| && specs[k] == Spec(n);
      IdsDiffer(ns[k], n);
    }
    CatalogueIdsDistinct();
    TopoSort.SameIdsDistinct(Specs(CATALOGUE), specs);
    forall i, j | 0 <= i < j < |ns|
      ensures ns[i] != ns[j]
    {
      assert TopoSort.IdOf(specs[i]) != TopoSort.IdOf(specs[j]);
    }
  }

  lemma NamesInOrder(specs: seq<TopoSort.Rule>, k: nat, d: RuleName)
    requires (forall r :: r in specs ==> IsSpec(r)) && TopoSort.DependenciesFirst(specs)
    requires k < |specs| && d in DependsOn(Names(specs)[k])
    ensures d in Names(specs)[..k]
  {
    hide IdText, DependsOn, IsSpec, IdTexts, Names;
    var ns := Names(specs);
    var n := ns[k];
    assert specs[k] == Spec(n);
    InIdTexts(DependsOn(n), IdText(d));
    assert TopoSort.Before(specs, k, IdText(d));
    var j :| 0 <= j < k && specs[j].id == IdText(d);
    assert specs[j] == Spec(ns[j]);
    IdsDiffer(ns[j], d);
    assert ns[..k][j] == d;
  }

  lemma SortedIsRunOrder(specs: seq<TopoSort.Rule>)
    requires multiset(specs) == multiset(Specs(CATALOGUE)) && TopoSort.DependenciesFirst(specs)
    ensures forall r :: r in specs ==> IsSpec(r)
    ensures IsRunOrder(Names(specs))
  {
    hide IdText, DependsOn, IsSpec, Spec;
    SortedAreSpecs(specs);
    NamesAreAll(specs);
    forall k, d | 0 <= k < |Names(specs)| && d in DependsOn(Names(specs)[k])
      ensures d in Names(specs)[..k]
    {
      NamesInOrder(specs, k, d);
    }
  }

  // The catalogue always sorts, into a run order.
  method Ordered() returns (order: seq<RuleName>)
    ensures IsRunOrder(order)
  {
    var r := TopoSort.TopoSort(Specs(CATALOGUE));
    CatalogueIsGraph();
    CatalogueSorts(TopoSort.ById(Specs(CATALOGUE)));
    CatalogueIdsDistinct();
    ValuesOfDistinct(Specs(CATALOGUE), TopoSort.IdOf);
    SortedIsRunOrder(r.order);
    order := Names(r.order);
  }
}
