/** `_apply_set` and the fold over `--set` expressions: nested dicts updated in
    place through a cursor. */
module ApplySet {
  import opened Prelude
  import opened Yaml

  type Path = seq<string>

  // What a key of a dict holds: another dict, or anything else.
  datatype Node<+A> = Leaf(value: Value) | Sub(dict: A)

  class Dict {
    var entries: map<string, Node<Dict>>

    constructor ()
      ensures entries == map[]
    {
      entries := map[];
    }
  }

  // ----- dicts as a store: each dict with its entries

  type Store<A> = map<A, map<string, Node<A>>>

  ghost function Snapshot(objects: set<Dict>): Store<Dict>
    reads objects
  {
    map d | d in objects :: d.entries
  }

  ghost predicate Closed<A>(st: Store<A>) {
    forall a, k :: a in st && k in st[a] && st[a][k].Sub? ==> st[a][k].dict in st
  }

  // What a path leads to.
  ghost function At<A>(st: Store<A>, root: A, path: Path): (r: Option<Node<A>>)
    requires Closed(st) && root in st
    ensures r.Some? && r.value.Sub? ==> r.value.dict in st
    decreases |path|
  {
    if path == [] then Some(Sub(root))
    else if path[0] !in st[root] then None
    else
      match st[root][path[0]]
      case Leaf(v) => if |path| == 1 then Some(Leaf(v)) else None
      case Sub(d) => At(st, d, path[1..])
  }

  // Tree-shaped: no dict is reached twice.
  ghost predicate Tree<A>(st: Store<A>, root: A)
    requires Closed(st) && root in st
  {
    forall p, q :: At(st, root, p).Some? && At(st, root, p).value.Sub? && At(st, root, p) == At(st, root, q) ==> p == q
  }

  // What a reader sees at a path.
  datatype Seen = Missing | Mapping | Is(value: Value)

  ghost function See<A>(st: Store<A>, root: A, path: Path): Seen
    requires Closed(st) && root in st
  {
    match At(st, root, path)
    case None => Missing
    case Some(Leaf(v)) => Is(v)
    case Some(Sub(_)) => Mapping
  }

  // ----- walking a path in two steps

  ghost function From<A>(st: Store<A>, start: Option<Node<A>>, q: Path): Option<Node<A>>
    requires Closed(st)
    requires start.Some? && start.value.Sub? ==> start.value.dict in st
  {
    match start
    case None => None
    case Some(Leaf(v)) => if q == [] then start else None
    case Some(Sub(d)) => At(st, d, q)
  }

  lemma {:induction false} AtConcat<A>(st: Store<A>, root: A, p: Path, q: Path)
    requires Closed(st) && root in st
    ensures At(st, root, p + q) == From(st, At(st, root, p), q)
    decreases |p|
  {
    if p == [] {
      assert p + q == q;
    } else {
      assert (p + q)[1..] == p[1..] + q && (p + q)[0] == p[0];
      if p[0] in st[root] && st[root][p[0]].Sub? {
        AtConcat(st, st[root][p[0]].dict, p[1..], q);
      }
    }
  }

  // ----- one entry changes

  // st' is st with key k of dict a set to n, where n is a leaf or a new empty dict.
  ghost predicate Sets<A>(st: Store<A>, st': Store<A>, a: A, k: string, n: Node<A>) {
    && a in st
    && st' == (if n.Sub? then st[n.dict := map[]] else st)[a := st[a][k := n]]
    && (n.Sub? ==> n.dict !in st)
  }

  lemma SetsClosed<A>(st: Store<A>, st': Store<A>, a: A, k: string, n: Node<A>)
    requires Closed(st) && Sets(st, st', a, k, n)
    ensures Closed(st')
  {
  }

  lemma StartsWith(p: Path, k: string, q: Path)
    ensures q != [] && q[0] == k ==> p + [k] <= p + q
  {
  }

  // Paths that do not run through the changed entry lead where they did.
  lemma {:induction false} ElsewhereSame<A>(st: Store<A>, st': Store<A>, root: A, p: Path, a: A, k: string,
                                                  n: Node<A>, pre: Path, r: A, q: Path)
    requires Closed(st) && Closed(st') && root in st && Tree(st, root) && Sets(st, st', a, k, n)
    requires At(st, root, p) == Some(Sub(a))
    requires r in st && At(st, root, pre) == Some(Sub(r)) && !(p + [k] <= pre + q)
    ensures At(st', r, q) == At(st, r, q)
    decreases |q|
  {
    if q != [] {
      if r == a {
        assert pre == p;
        StartsWith(p, k, q);
      }
      if q[0] in st[r] && st[r][q[0]].Sub? {
        var d := st[r][q[0]].dict;
        assert pre + [q[0]] + q[1..] == pre + q;
        AtConcat(st, root, pre, [q[0]]);
        assert At(st, r, [q[0]]) == Some(Sub(d));
        ElsewhereSame(st, st', root, p, a, k, n, pre + [q[0]], d, q[1..]);
      }
    }
  }

  lemma Elsewhere<A>(st: Store<A>, st': Store<A>, root: A, p: Path, a: A, k: string, n: Node<A>, q: Path)
    requires Closed(st) && Closed(st') && root in st && Tree(st, root) && Sets(st, st', a, k, n)
    requires At(st, root, p) == Some(Sub(a)) && !(p + [k] <= q)
    ensures At(st', root, q) == At(st, root, q)
  {
    assert [] + q == q;
    ElsewhereSame(st, st', root, p, a, k, n, [], root, q);
  }

  // Below the changed entry there is the new node and nothing more.
  lemma Through<A>(st: Store<A>, st': Store<A>, root: A, p: Path, a: A, k: string, n: Node<A>, q: Path)
    requires Closed(st) && Closed(st') && root in st && Tree(st, root) && Sets(st, st', a, k, n)
    requires At(st, root, p) == Some(Sub(a)) && p + [k] <= q
    ensures At(st', root, q) == if q == p + [k] then Some(n) else None
  {
    Elsewhere(st, st', root, p, a, k, n, p);
    var rest := q[|p|..];
    assert q == p + rest && rest[0] == k;
    AtConcat(st', root, p, rest);
    assert q == p + [k] <==> |q| == |p| + 1;
    assert |rest| == 1 <==> rest[1..] == [];
    assert At(st', root, q) == At(st', a, rest) && st'[a][k] == n;
    if n.Sub? {
      assert n.dict != a && st'[n.dict] == map[];
      assert At(st', a, rest) == At(st', n.dict, rest[1..]);
    }
  }

  lemma Reaches<A>(st: Store<A>, st': Store<A>, root: A, p: Path, a: A, k: string, n: Node<A>, q: Path)
    requires Closed(st) && Closed(st') && root in st && Tree(st, root) && Sets(st, st', a, k, n)
    requires At(st, root, p) == Some(Sub(a))
    ensures At(st', root, q) ==
      if !(p + [k] <= q) then At(st, root, q) else if q == p + [k] then Some(n) else None
  {
    hide At, Tree, Sets;
    if p + [k] <= q {
      Through(st, st', root, p, a, k, n, q);
    } else {
      Elsewhere(st, st', root, p, a, k, n, q);
    }
  }

  lemma StaysTree<A>(st: Store<A>, st': Store<A>, root: A, p: Path, a: A, k: string, n: Node<A>)
    requires Closed(st) && Closed(st') && root in st && Tree(st, root) && Sets(st, st', a, k, n)
    requires At(st, root, p) == Some(Sub(a))
    ensures Tree(st', root)
  {
    forall x, y | At(st', root, x).Some? && At(st', root, x).value.Sub? && At(st', root, x) == At(st', root, y)
      ensures x == y
    {
      hide At;
      Reaches(st, st', root, p, a, k, n, x);
      Reaches(st, st', root, p, a, k, n, y);
    }
  }

  // ----- what one expression does to what is seen

  // The view of the document after `path` is set to `v`.
  ghost function Written(view: Path -> Seen, path: Path, v: Value): Path -> Seen {
    (q: Path) => if q == path then Is(v) else if q <= path then Mapping else if path <= q then Missing else view(q)
  }

  // `key.split(".")`
  function SplitDots(key: string): (r: seq<string>)
    ensures r != []
  {
    if key == "" then [""]
    else
      var rest := SplitDots(key[1..]);
      if key[0] == '.' then [""] + rest else [[key[0]] + rest[0]] + rest[1..]
  }

  // [p for p in key.split(".") if p]
  function Segments(key: string): Path {
    Filter(SplitDots(key), (p: string) => p != "")
  }

  datatype SetError = NoEquals | EmptyKey

  // `expr.partition("=")`, the left part as a path.
  function ParseSet(expr: string): Result<(Path, string), SetError> {
    match FindEquals(expr)
    case None => Err(NoEquals)
    case Some(i) =>
      var path := Segments(expr[..i]);
      if path == [] then Err(EmptyKey) else Ok((path, expr[i + 1..]))
  }

  function FindEquals(s: string): (r: Option<nat>)
    ensures r.Some? ==> r.value < |s| && s[r.value] == '=' && '=' !in s[..r.value]
    ensures r.None? ==> '=' !in s
  {
    if s == "" then None
    else if s[0] == '=' then Some(0)
    else
      match FindEquals(s[1..])
      case None => None
      case Some(i) => assert s[..i + 1] == [s[0]] + s[1..][..i]; Some(i + 1)
  }

  // ----- the walk

  // After some steps of the walk the path is open: mappings all the way.
  ghost predicate Opened<A>(view: Path -> Seen, st: Store<A>, root: A, path: Path)
    requires Closed(st) && root in st
  {
    forall q :: See(st, root, q) == if q <= path then Mapping else view(q)
  }

  lemma SeeIsSound<A>(st: Store<A>, root: A, p: Path, q: Path)
    requires Closed(st) && root in st && p < q && See(st, root, p) != Mapping
    ensures See(st, root, q) == Missing
  {
    var rest := q[|p|..];
    assert q == p + rest && rest != [];
    AtConcat(st, root, p, rest);
  }

  lemma PrefixStep(p: Path, k: string, q: Path)
    ensures q <= p + [k] <==> q <= p || q == p + [k]
  {
    if q <= p + [k] && q != p + [k] {
      assert |q| <= |p| && (p + [k])[..|q|] == p[..|q|];
    }
  }

  lemma AtNext<A>(st: Store<A>, root: A, at: Path, cursor: A, k: string)
    requires Closed(st) && root in st && At(st, root, at) == Some(Sub(cursor))
    ensures At(st, root, at + [k]) == if k in st[cursor] then Some(st[cursor][k]) else None
  {
    var one := [k];
    AtConcat(st, root, at, one);
    assert one[0] == k && one[1..] == [];
    if k in st[cursor] && st[cursor][k].Sub? {
      assert At(st, cursor, one) == At(st, st[cursor][k].dict, []);
    }
  }

  lemma OpensNew<A>(view: Path -> Seen, st: Store<A>, st': Store<A>, root: A, at: Path, cursor: A, k: string, next: A)
    requires Closed(st) && root in st && Tree(st, root) && At(st, root, at) == Some(Sub(cursor))
    requires Sets(st, st', cursor, k, Sub(next)) && !(k in st[cursor] && st[cursor][k].Sub?)
    requires Opened(view, st, root, at)
    ensures Closed(st') && root in st' && Tree(st', root) && At(st', root, at + [k]) == Some(Sub(next))
    ensures Opened(view, st', root, at + [k])
  {
    SetsClosed(st, st', cursor, k, Sub(next));
    StaysTree(st, st', root, at, cursor, k, Sub(next));
    AtNext(st, root, at, cursor, k);
    var to := at + [k];
    assert See(st, root, to) != Mapping;
    hide At, Sets, Tree;
    assert to <= to;
    Reaches(st, st', root, at, cursor, k, Sub(next), to);
    forall q
      ensures See(st', root, q) == if q <= to then Mapping else view(q)
    {
      Reaches(st, st', root, at, cursor, k, Sub(next), q);
      PrefixStep(at, k, q);
      assert See(st, root, q) == if q <= at then Mapping else view(q);
      if to <= q && q != to {
        assert to < q;
        SeeIsSound(st, root, to, q);
      }
    }
  }

  lemma OpensOld<A>(view: Path -> Seen, st: Store<A>, root: A, at: Path, cursor: A, k: string)
    requires Closed(st) && root in st && At(st, root, at) == Some(Sub(cursor))
    requires k in st[cursor] && st[cursor][k].Sub?
    requires Opened(view, st, root, at)
    ensures At(st, root, at + [k]) == Some(st[cursor][k]) && Opened(view, st, root, at + [k])
  {
    AtNext(st, root, at, cursor, k);
    hide At;
    var to := at + [k];
    assert See(st, root, to) == Mapping;
    forall q
      ensures See(st, root, q) == if q <= to then Mapping else view(q)
    {
      PrefixStep(at, k, q);
    }
  }

  ghost predicate Document(objects: set<Dict>, root: Dict)
    reads objects
  {
    root in objects && Closed(Snapshot(objects)) && Tree(Snapshot(objects), root)
  }

  // One step: the dict under `segment`, made if it is not there.
  method Descend(root: Dict, ghost objects: set<Dict>, cursor: Dict, segment: string, ghost at: Path, ghost view: Path -> Seen)
    returns (next: Dict, ghost objects': set<Dict>)
    requires Document(objects, root) && At(Snapshot(objects), root, at) == Some(Sub(cursor))
    requires Opened(view, Snapshot(objects), root, at)
    modifies objects
    ensures objects <= objects' && fresh(objects' - objects)
    ensures Document(objects', root) && At(Snapshot(objects'), root, at + [segment]) == Some(Sub(next))
    ensures Opened(view, Snapshot(objects'), root, at + [segment])
  {
    hide At, Opened, Tree;
    ghost var st := Snapshot(objects);
    objects' := objects;
    if segment !in cursor.entries || !cursor.entries[segment].Sub? {
      next := new Dict();
      cursor.entries := cursor.entries[segment := Sub(next)];
      objects' := objects + {next};
      OpensNew(view, st, Snapshot(objects'), root, at, cursor, segment, next);
    } else {
      next := cursor.entries[segment].dict;
      OpensOld(view, st, root, at, cursor, segment);
    }
  }

  // Does the expression name a path, and which.
  ghost function Effect(view: Path -> Seen, expr: string, parse: string -> Value): Path -> Seen {
    match ParseSet(expr) case Ok((path, raw)) => Written(view, path, parse(raw)) case Err(_) => view
  }

  lemma LeafWritten<A>(view: Path -> Seen, st: Store<A>, st': Store<A>, root: A, at: Path, cursor: A, k: string, v: Value)
    requires Closed(st) && root in st && Tree(st, root) && At(st, root, at) == Some(Sub(cursor))
    requires Sets(st, st', cursor, k, Leaf(v)) && Opened(view, st, root, at)
    ensures Closed(st') && root in st' && Tree(st', root)
    ensures forall q :: See(st', root, q) == Written(view, at + [k], v)(q)
  {
    SetsClosed(st, st', cursor, k, Leaf(v));
    StaysTree(st, st', root, at, cursor, k, Leaf(v));
    var to := at + [k];
    hide At, Sets, Tree;
    forall q
      ensures See(st', root, q) == Written(view, to, v)(q)
    {
      Reaches(st, st', root, at, cursor, k, Leaf(v), q);
      PrefixStep(at, k, q);
      assert See(st, root, q) == if q <= at then Mapping else view(q);
    }
  }

  ghost predicate Shows(objects: set<Dict>, root: Dict, view: Path -> Seen)
    requires Document(objects, root)
    reads objects
  {
    forall q :: See(Snapshot(objects), root, q) == view(q)
  }

  // `_apply_set`; `parse` is `_parse_scalar`.
  method ApplySet(root: Dict, ghost objects: set<Dict>, expr: string, parse: string -> Value, ghost view: Path -> Seen)
    returns (r: Result<(), SetError>, ghost objects': set<Dict>)
    requires Document(objects, root) && Shows(objects, root, view)
    modifies objects
    ensures objects <= objects' && fresh(objects' - objects)
    ensures Document(objects', root)
    ensures r.Ok? <==> ParseSet(expr).Ok?
    ensures r.Err? ==> r.error == ParseSet(expr).error && objects' == objects && Snapshot(objects) == old(Snapshot(objects))
    ensures Shows(objects', root, Effect(view, expr, parse))
  {
    hide At, Tree;
    objects' := objects;
    match ParseSet(expr) {
      case Err(e) =>
        r := Err(e);
      case Ok((path, raw)) =>
        var cursor := root;
        var i := 0;
        OpenedAtRoot(view, Snapshot(objects), root);
        while i < |path| - 1
          invariant 0 <= i <= |path| - 1
          invariant objects <= objects' && fresh(objects' - objects)
          invariant Document(objects', root) && At(Snapshot(objects'), root, path[..i]) == Some(Sub(cursor))
          invariant Opened(view, Snapshot(objects'), root, path[..i])
        {
          cursor, objects' := Descend(root, objects', cursor, path[i], path[..i], view);
          assert path[..i + 1] == path[..i] + [path[i]];
          i := i + 1;
        }
        ghost var st := Snapshot(objects');
        cursor.entries := cursor.entries[path[i] := Leaf(parse(raw))];
        LeafWritten(view, st, Snapshot(objects'), root, path[..i], cursor, path[i], parse(raw));
        assert path == path[..i] + [path[i]];
        r := Ok(());
    }
  }

  lemma OpenedAtRoot<A>(view: Path -> Seen, st: Store<A>, root: A)
    requires Closed(st) && root in st && forall q :: See(st, root, q) == view(q)
    ensures At(st, root, []) == Some(Sub(root)) && Opened(view, st, root, [])
  {
    forall q
      ensures See(st, root, q) == if q <= [] then Mapping else view(q)
    {
      if q <= [] {
        assert q == [];
      }
    }
  }

  // ----- the fold over all expressions

  ghost function Effects(view: Path -> Seen, sets: seq<string>, parse: string -> Value): Path -> Seen {
    if sets == [] then view
    else Effect(Effects(view, sets[..|sets| - 1], parse), sets[|sets| - 1], parse)
  }

  // The loop of `load_host_config`; a bad expression ends the load.
  method ApplySets(root: Dict, ghost objects: set<Dict>, sets: seq<string>, parse: string -> Value, ghost view: Path -> Seen)
    returns (r: Result<(), SetError>, ghost objects': set<Dict>)
    requires Document(objects, root) && Shows(objects, root, view)
    modifies objects
    ensures objects <= objects' && fresh(objects' - objects)
    ensures Document(objects', root)
    ensures r.Ok? <==> forall i | 0 <= i < |sets| :: ParseSet(sets[i]).Ok?
    ensures r.Ok? ==> Shows(objects', root, Effects(view, sets, parse))
  {
    hide *;
    objects' := objects;
    var i := 0;
    NoEffects(view, sets[..0], parse);
    while i < |sets|
      invariant 0 <= i <= |sets|
      invariant objects <= objects' && fresh(objects' - objects)
      invariant Document(objects', root) && Shows(objects', root, Effects(view, sets[..i], parse))
      invariant forall j | 0 <= j < i :: ParseSet(sets[j]).Ok?
    {
      r, objects' := ApplySet(root, objects', sets[i], parse, Effects(view, sets[..i], parse));
      if r.Err? {
        return;
      }
      EffectsStep(view, sets, i, parse);
      i := i + 1;
    }
    assert sets[..i] == sets;
    r := Ok(());
  }

  lemma NoEffects(view: Path -> Seen, sets: seq<string>, parse: string -> Value)
    requires sets == []
    ensures Effects(view, sets, parse) == view
  {
  }

  lemma EffectsStep(view: Path -> Seen, sets: seq<string>, i: nat, parse: string -> Value)
    requires i < |sets|
    ensures Effects(view, sets[..i + 1], parse) == Effect(Effects(view, sets[..i], parse), sets[i], parse)
  {
    assert sets[..i + 1][..i] == sets[..i];
  }

  // ----- laws of the whole fold

  predicate Comparable(p: Path, q: Path) {
    p <= q || q <= p
  }

  // The expression writes at, above or below q.
  predicate Touches(expr: string, q: Path) {
    ParseSet(expr).Ok? && Comparable(ParseSet(expr).value.0, q)
  }

  function LastTouch(sets: seq<string>, q: Path): (r: Option<nat>)
    ensures r.Some? ==> r.value < |sets|
    ensures r.Some? ==> ParseSet(sets[r.value]).Ok?
  {
    if sets == [] then None
    else if Touches(sets[|sets| - 1], q) then Some(|sets| - 1)
    else LastTouch(sets[..|sets| - 1], q)
  }

  lemma {:induction false} LastTouchIsLast(sets: seq<string>, q: Path)
    ensures var r := LastTouch(sets, q);
      && (r.Some? ==> Touches(sets[r.value], q))
      && (forall j | (if r.Some? then r.value + 1 else 0) <= j < |sets| :: !Touches(sets[j], q))
  {
    hide Touches, ParseSet;
    if sets != [] && !Touches(sets[|sets| - 1], q) {
      LastTouchIsLast(sets[..|sets| - 1], q);
    }
  }

  function SeenBelow(path: Path, v: Value, q: Path): Seen {
    if q == path then Is(v) else if q <= path then Mapping else Missing
  }

  // The last expression that touches a path decides what is seen there; a
  // path that none touches reads as before.
  lemma {:induction false} LastTouchDecides(view: Path -> Seen, sets: seq<string>, parse: string -> Value, q: Path)
    ensures Effects(view, sets, parse)(q) ==
      match LastTouch(sets, q)
      case None => view(q)
      case Some(i) => SeenBelow(ParseSet(sets[i]).value.0, parse(ParseSet(sets[i]).value.1), q)
  {
    hide ParseSet;
    if sets != [] {
      var n := |sets| - 1;
      LastTouchDecides(view, sets[..n], parse, q);
    }
  }

  // Two expressions on incomparable paths may trade places anywhere.
  lemma {:induction false} IncomparableCommute(view: Path -> Seen, front: seq<string>, a: string, b: string,
                                               back: seq<string>, parse: string -> Value, q: Path)
    requires ParseSet(a).Ok? && ParseSet(b).Ok? && !Comparable(ParseSet(a).value.0, ParseSet(b).value.0)
    ensures Effects(view, front + [a, b] + back, parse)(q) == Effects(view, front + [b, a] + back, parse)(q)
  {
    var ab, ba := front + [a, b] + back, front + [b, a] + back;
    hide ParseSet;
    if back == [] {
      assert ab[..|ab| - 1] == front + [a] && ba[..|ba| - 1] == front + [b];
      assert (front + [a])[..|front|] == front && (front + [b])[..|front|] == front;
      var view' := Effects(view, front, parse);
      assert Effects(view, ab, parse) == Effect(Effect(view', a, parse), b, parse);
      assert Effects(view, ba, parse) == Effect(Effect(view', b, parse), a, parse);
      PrefixesCompare(ParseSet(a).value.0, ParseSet(b).value.0, q);
    } else {
      var n := |back| - 1;
      assert ab[..|ab| - 1] == front + [a, b] + back[..n] && ba[..|ba| - 1] == front + [b, a] + back[..n];
      IncomparableCommute(view, front, a, b, back[..n], parse, q);
    }
  }

  // Of two prefixes of one path, one is a prefix of the other.
  lemma PrefixesCompare(a: Path, b: Path, q: Path)
    ensures a <= q && b <= q ==> Comparable(a, b)
    ensures a <= q <= b || b <= q <= a ==> Comparable(a, b)
  {
    if a <= q && b <= q {
      if |a| <= |b| {
        assert b[..|a|] == q[..|a|] == a;
      } else {
        assert a[..|b|] == q[..|b|] == b;
      }
    }
    if a <= q <= b {
      assert b[..|a|] == q[..|a|] == a;
    }
    if b <= q <= a {
      assert a[..|b|] == q[..|b|] == b;
    }
  }

  // A second write to the same path replaces the first.
  lemma LastWriteWins(view: Path -> Seen, sets: seq<string>, a: string, b: string, parse: string -> Value, q: Path)
    requires ParseSet(a).Ok? && ParseSet(b).Ok? && ParseSet(a).value.0 == ParseSet(b).value.0
    ensures Effects(view, sets + [a, b], parse)(q) == Effects(view, sets + [b], parse)(q)
  {
    hide ParseSet;
    var ab, b' := sets + [a, b], sets + [b];
    assert ab[..|ab| - 1] == sets + [a] && (sets + [a])[..|sets|] == sets && b'[..|sets|] == sets;
  }

  // ----- naming a path

  predicate PlainSegment(s: string) {
    s != "" && '.' !in s && '=' !in s
  }

  lemma {:induction false} SplitOne(s: string)
    requires '.' !in s
    ensures SplitDots(s) == [s]
  {
    if s != "" {
      SplitOne(s[1..]);
      assert [s[0]] + s[1..] == s;
    }
  }

  lemma {:induction false} SplitFirst(s: string, rest: string)
    requires '.' !in s
    ensures SplitDots(s + "." + rest) == [s] + SplitDots(rest)
  {
    var whole := s + "." + rest;
    if s == "" {
      assert whole[1..] == rest;
    } else {
      assert whole[0] == s[0] && whole[1..] == s[1..] + "." + rest;
      SplitFirst(s[1..], rest);
      assert [s[0]] + s[1..] == s;
    }
  }

  lemma {:induction false} SplitJoin(path: Path)
    requires path != [] && forall s :: s in path ==> PlainSegment(s)
    ensures SplitDots(Join(path, ".")) == path && '=' !in Join(path, ".")
  {
    assert path[0] in path;
    if |path| == 1 {
      SplitOne(path[0]);
    } else {
      SplitJoin(path[1..]);
      SplitFirst(path[0], Join(path[1..], "."));
    }
  }

  lemma {:induction false} EqualsFound(key: string, raw: string)
    requires '=' !in key
    ensures FindEquals(key + "=" + raw) == Some(|key|)
  {
    var s := key + "=" + raw;
    if key != "" {
      assert s[0] == key[0] && s[1..] == key[1..] + "=" + raw;
      EqualsFound(key[1..], raw);
    }
  }

  // a.b.c=raw names the path [a, b, c], whatever raw holds.
  lemma PathNamed(path: Path, raw: string)
    requires path != [] && forall s :: s in path ==> PlainSegment(s)
    ensures ParseSet(Join(path, ".") + "=" + raw) == Ok((path, raw))
  {
    var key := Join(path, ".");
    SplitJoin(path);
    EqualsFound(key, raw);
    FilterKeepsAll(path, (p: string) => p != "");
    var s := key + "=" + raw;
    assert s[..|key|] == key && s[|key| + 1..] == raw;
  }

  // The two usage errors: no `=`, and nothing but dots in front of the first.
  lemma ParseErrors(expr: string)
    ensures ParseSet(expr) == Err(NoEquals) <==> '=' !in expr
    ensures ParseSet(expr) == Err(EmptyKey) <==>
      exists key, raw :: expr == key + "=" + raw && forall c :: c in key ==> c == '.'
  {
    if '=' in expr {
      var i := FindEquals(expr).value;
      var key := expr[..i];
      SegmentsEmpty(key);
      assert expr == key + "=" + expr[i + 1..];
      if k, raw :| expr == k + "=" + raw && forall c :: c in k ==> c == '.' {
        EqualsFound(k, raw);
        assert expr[..|k|] == k;
      }
    }
  }

  lemma {:induction false} SegmentsEmpty(key: string)
    ensures Segments(key) == [] <==> forall c :: c in key ==> c == '.'
  {
    SplitEmpty(key);
    if Segments(key) == [] {
      assert forall s :: s in SplitDots(key) ==> s == "";
    } else {
      assert Segments(key)[0] in Segments(key);
    }
  }

  lemma {:induction false} SplitEmpty(key: string)
    ensures (forall s :: s in SplitDots(key) ==> s == "") <==> forall c :: c in key ==> c == '.'
  {
    if key != "" {
      SplitEmpty(key[1..]);
      var rest := SplitDots(key[1..]);
      assert forall c :: c in key <==> c == key[0] || c in key[1..];
      if key[0] == '.' {
        assert forall s :: s in SplitDots(key) <==> s == "" || s in rest;
      } else {
        assert key[0] in key && SplitDots(key)[0] in SplitDots(key) && SplitDots(key)[0] != "";
      }
    }
  }

  function Concat(parts: seq<string>): string {
    if parts == [] then "" else parts[0] + Concat(parts[1..])
  }

  function Undotted(key: string): string {
    if key == "" then "" else (if key[0] == '.' then "" else [key[0]]) + Undotted(key[1..])
  }

  // A path holds no empty key and no dot, and drops nothing else of what names it.
  lemma SegmentsAre(key: string)
    ensures forall s :: s in Segments(key) ==> s != "" && '.' !in s
    ensures Concat(Segments(key)) == Undotted(key)
  {
    SplitIs(key);
    NoneDropped(SplitDots(key));
  }

  lemma {:induction false} SplitIs(key: string)
    ensures forall s :: s in SplitDots(key) ==> '.' !in s
    ensures Concat(SplitDots(key)) == Undotted(key)
  {
    if key != "" {
      var rest := SplitDots(key[1..]);
      SplitIs(key[1..]);
      assert rest[0] in rest;
      if key[0] == '.' {
        assert ([""] + rest)[1..] == rest;
        assert "" + Concat(rest) == Concat(rest);
      } else {
        var first := [key[0]] + rest[0];
        assert ([first] + rest[1..])[1..] == rest[1..];
        assert first + Concat(rest[1..]) == [key[0]] + Concat(rest);
      }
    }
  }

  lemma {:induction false} NoneDropped(parts: seq<string>)
    ensures Concat(Filter(parts, (p: string) => p != "")) == Concat(parts)
  {
    if parts != [] {
      NoneDropped(parts[1..]);
      if parts[0] != "" {
        var kept := Filter(parts[1..], (p: string) => p != "");
        assert ([parts[0]] + kept)[1..] == kept;
      } else {
        assert "" + Concat(parts[1..]) == Concat(parts[1..]);
      }
    }
  }
}
