/** Shared value types, and the two orders the program sorts by: Python's
    code-point order on strings and the stable `sort(key=...)`. */
module Prelude {
  datatype Option<+T> = None | Some(value: T)

  datatype Result<+T, +E> = Ok(value: T) | Err(error: E)

  // How many digits CPython converts between text and `int`.
  const MAX_INT_DIGITS := 4300

  // What reading a file as text gives: an OSError, bytes that are no UTF-8, or text.
  datatype FileText = Unreadable | Undecodable | Decoded(text: string)

  function Max(a: int, b: int): int {
    if a < b then b else a
  }

  predicate Distinct<T(==)>(xs: seq<T>) {
    forall i, j :: 0 <= i < j < |xs| ==> xs[i] != xs[j]
  }

  function ToSet<T>(xs: seq<T>): set<T> {
    set x | x in xs
  }

  lemma HasMember<T>(xs: seq<T>)
    ensures xs != [] ==> exists x :: x in xs
  {
    if xs != [] {
      assert xs[0] in xs;
    }
  }

  lemma DistinctConcat<T>(a: seq<T>, b: seq<T>)
    requires Distinct(a) && Distinct(b)
    requires forall x :: x in b ==> x !in a
    ensures Distinct(a + b)
    ensures ToSet(a + b) == ToSet(a) + ToSet(b)
  {
    var ab := a + b;
    forall i, j | 0 <= i < j < |ab|
      ensures ab[i] != ab[j]
    {
      if i < |a| <= j {
        assert ab[i] in a && ab[j] in b;
      }
    }
  }

  function Filter<T(!new)>(xs: seq<T>, p: T -> bool): (r: seq<T>)
    ensures forall x :: x in r <==> x in xs && p(x)
  {
    if xs == [] then []
    else if p(xs[0]) then [xs[0]] + Filter(xs[1..], p)
    else Filter(xs[1..], p)
  }

  lemma {:induction false} FilterKeepsAll<T(!new)>(xs: seq<T>, p: T -> bool)
    requires forall x :: x in xs ==> p(x)
    ensures Filter(xs, p) == xs
  {
    if xs != [] {
      assert xs[0] in xs;
      FilterKeepsAll(xs[1..], p);
    }
  }

  lemma {:induction false} FilterConcat<T(!new)>(a: seq<T>, b: seq<T>, p: T -> bool)
    ensures Filter(a + b, p) == Filter(a, p) + Filter(b, p)
  {
    if a == [] {
      assert a + b == b;
    } else {
      assert (a + b)[1..] == a[1..] + b;
      FilterConcat(a[1..], b, p);
    }
  }

  // Filtering twice is filtering once by both.
  lemma {:induction false} FilterTwice<T(!new)>(xs: seq<T>, p: T -> bool, q: T -> bool, both: T -> bool)
    requires forall x :: both(x) <==> p(x) && q(x)
    ensures Filter(Filter(xs, p), q) == Filter(xs, both)
  {
    if xs != [] {
      FilterTwice(xs[1..], p, q, both);
      if p(xs[0]) {
        assert ([xs[0]] + Filter(xs[1..], p))[1..] == Filter(xs[1..], p);
      }
    }
  }

  // What is kept and what is dropped are all there is.
  lemma {:induction false} FilterSplits<T(!new)>(xs: seq<T>, p: T -> bool, q: T -> bool)
    requires forall x :: q(x) <==> !p(x)
    ensures |Filter(xs, p)| + |Filter(xs, q)| == |xs|
  {
    if xs != [] {
      FilterSplits(xs[1..], p, q);
    }
  }

  lemma {:induction false} FilterDropsAll<T(!new)>(xs: seq<T>, p: T -> bool)
    requires forall x :: x in xs ==> !p(x)
    ensures Filter(xs, p) == []
  {
    if xs != [] {
      assert xs[0] in xs;
      FilterDropsAll(xs[1..], p);
    }
  }

  function Map<A, B>(xs: seq<A>, f: A -> B): (r: seq<B>)
    ensures |r| == |xs|
    ensures forall i :: 0 <= i < |xs| ==> r[i] == f(xs[i])
  {
    seq(|xs|, i requires 0 <= i < |xs| => f(xs[i]))
  }

  // `sep.join(parts)`
  function Join(parts: seq<string>, sep: string): string {
    if parts == [] then ""
    else if |parts| == 1 then parts[0]
    else parts[0] + sep + Join(parts[1..], sep)
  }

  // ----- code-point order on strings

  predicate StrLe(a: string, b: string) {
    if a == [] then true
    else if b == [] then false
    else if a[0] != b[0] then a[0] < b[0]
    else StrLe(a[1..], b[1..])
  }

  // The first place where they differ decides, and a text comes before what it
  // begins.
  lemma {:induction false} StrLeIff(a: string, b: string)
    ensures StrLe(a, b) <==>
      a <= b || exists k :: 0 <= k < |a| && k < |b| && a[..k] == b[..k] && (a[k] as int) < (b[k] as int)
  {
    if a != [] && b != [] && a[0] == b[0] {
      StrLeIff(a[1..], b[1..]);
      if k :| 0 <= k < |a[1..]| && k < |b[1..]| && a[1..][..k] == b[1..][..k] && (a[1..][k] as int) < (b[1..][k] as int) {
        assert a[..k + 1] == [a[0]] + a[1..][..k] && b[..k + 1] == [b[0]] + b[1..][..k];
        assert a[k + 1] == a[1..][k] && b[k + 1] == b[1..][k];
      }
      if k :| 0 <= k < |a| && k < |b| && a[..k] == b[..k] && (a[k] as int) < (b[k] as int) {
        assert a[1..][..k - 1] == a[..k][1..] && b[1..][..k - 1] == b[..k][1..];
        assert a[1..][k - 1] == a[k] && b[1..][k - 1] == b[k];
      }
      assert a <= b <==> a[1..] <= b[1..];
    } else if a != [] && b != [] {
      assert a[..0] == b[..0];
    }
  }

  lemma {:induction false} StrLeTotal(a: string, b: string)
    ensures StrLe(a, b) || StrLe(b, a)
  {
    if a != [] && b != [] && a[0] == b[0] {
      StrLeTotal(a[1..], b[1..]);
    }
  }

  lemma {:induction false} StrLeAntisymmetric(a: string, b: string)
    requires StrLe(a, b) && StrLe(b, a)
    ensures a == b
  {
    if a != [] {
      StrLeAntisymmetric(a[1..], b[1..]);
      assert a == [a[0]] + a[1..] && b == [b[0]] + b[1..];
    }
  }

  lemma {:induction false} StrLeTransitive(a: string, b: string, c: string)
    requires StrLe(a, b) && StrLe(b, c)
    ensures StrLe(a, c)
  {
    if a != [] && a[0] == b[0] && b[0] == c[0] {
      StrLeTransitive(a[1..], b[1..], c[1..]);
    }
  }

  // ----- stable sorting

  ghost predicate TotalPreorder<T(!new)>(le: (T, T) -> bool) {
    && (forall x, y :: le(x, y) || le(y, x))
    && (forall x, y, z :: le(x, y) && le(y, z) ==> le(x, z))
  }

  ghost predicate SortedBy<T>(xs: seq<T>, le: (T, T) -> bool) {
    forall i, j :: 0 <= i < j < |xs| ==> le(xs[i], xs[j])
  }

  // x comes from the left of xs, so it goes before equal keys: the sort is stable.
  function Insert<T>(x: T, xs: seq<T>, le: (T, T) -> bool): seq<T> {
    if xs == [] then [x]
    else if le(x, xs[0]) then [x] + xs
    else [xs[0]] + Insert(x, xs[1..], le)
  }

  function Sort<T>(xs: seq<T>, le: (T, T) -> bool): seq<T> {
    if xs == [] then [] else Insert(xs[0], Sort(xs[1..], le), le)
  }

  lemma {:induction false} InsertMultiset<T>(x: T, xs: seq<T>, le: (T, T) -> bool)
    ensures multiset(Insert(x, xs, le)) == multiset{x} + multiset(xs)
  {
    if xs != [] && !le(x, xs[0]) {
      InsertMultiset(x, xs[1..], le);
      assert xs == [xs[0]] + xs[1..];
    }
  }

  lemma {:induction false} SortMultiset<T>(xs: seq<T>, le: (T, T) -> bool)
    ensures multiset(Sort(xs, le)) == multiset(xs)
  {
    if xs != [] {
      SortMultiset(xs[1..], le);
      InsertMultiset(xs[0], Sort(xs[1..], le), le);
      assert xs == [xs[0]] + xs[1..];
    }
  }

  // Sorting keeps the same elements.
  lemma SortElements<T>(xs: seq<T>, le: (T, T) -> bool)
    ensures |Sort(xs, le)| == |xs|
    ensures forall x :: x in Sort(xs, le) <==> x in xs
  {
    SortMultiset(xs, le);
    assert |multiset(Sort(xs, le))| == |Sort(xs, le)| && |multiset(xs)| == |xs|;
    forall x
      ensures x in Sort(xs, le) <==> x in xs
    {
      assert x in multiset(xs) <==> x in xs;
      assert x in multiset(Sort(xs, le)) <==> x in Sort(xs, le);
    }
  }

  lemma {:induction false} InsertSorted<T(!new)>(x: T, xs: seq<T>, le: (T, T) -> bool)
    requires TotalPreorder(le) && SortedBy(xs, le)
    ensures SortedBy(Insert(x, xs, le), le)
  {
    if xs != [] && !le(x, xs[0]) {
      InsertSorted(x, xs[1..], le);
      InsertMultiset(x, xs[1..], le);
      var tail := Insert(x, xs[1..], le);
      forall j | 0 <= j < |tail|
        ensures le(xs[0], tail[j])
      {
        assert tail[j] in multiset(tail);
        assert tail[j] == x || tail[j] in xs[1..];
      }
    }
  }

  lemma {:induction false} SortSorted<T(!new)>(xs: seq<T>, le: (T, T) -> bool)
    requires TotalPreorder(le)
    ensures SortedBy(Sort(xs, le), le)
  {
    if xs != [] {
      SortSorted(xs[1..], le);
      InsertSorted(xs[0], Sort(xs[1..], le), le);
    }
  }

  // Removing the same head from two arrangements of the same elements.
  lemma TailMultiset<T>(a: seq<T>, b: seq<T>)
    requires a != [] && b != [] && a[0] == b[0] && multiset(a) == multiset(b)
    ensures multiset(a[1..]) == multiset(b[1..])
  {
    assert a == [a[0]] + a[1..] && b == [b[0]] + b[1..];
    assert multiset(a[1..]) == multiset(a) - multiset{a[0]};
    assert multiset(b[1..]) == multiset(b) - multiset{b[0]};
  }

  lemma HeadIsLeast<T>(a: seq<T>, x: T, le: (T, T) -> bool)
    requires SortedBy(a, le) && x in a && x != a[0]
    ensures le(a[0], x)
  {
    var k :| 0 <= k < |a| && a[k] == x;
  }

  lemma SameElements<T>(a: seq<T>, b: seq<T>)
    requires multiset(a) == multiset(b)
    ensures |a| == |b|
    ensures forall x :: x in a <==> x in b
  {
    assert |multiset(a)| == |a| && |multiset(b)| == |b|;
    forall x
      ensures x in a <==> x in b
    {
      assert x in multiset(a) <==> x in a;
      assert x in multiset(b) <==> x in b;
    }
  }

  // Two sorted arrangements of the same elements agree when the order tells
  // those elements apart: the result does not depend on the input order.
  lemma {:induction false} SortedUnique<T>(a: seq<T>, b: seq<T>, le: (T, T) -> bool)
    requires SortedBy(a, le) && SortedBy(b, le)
    requires multiset(a) == multiset(b)
    requires forall x, y :: x in a && y in a && le(x, y) && le(y, x) ==> x == y
    ensures a == b
  {
    SameElements(a, b);
    if a != [] {
      if a[0] != b[0] {
        HeadIsLeast(a, b[0], le);
        HeadIsLeast(b, a[0], le);
        assert false;
      }
      TailMultiset(a, b);
      SortedUnique(a[1..], b[1..], le);
    }
  }

  // ----- `sorted` of a set of strings

  ghost predicate IsLeast(s: set<string>, m: string) {
    m in s && forall x :: x in s ==> StrLe(m, x)
  }

  lemma {:induction false} LeastExists(s: set<string>) returns (m: string)
    requires s != {}
    ensures IsLeast(s, m)
    decreases |s|
  {
    hide StrLe;
    var x :| x in s;
    StrLeTotal(x, x);
    var rest := s - {x};
    assert |rest| < |s|;
    if rest == {} {
      m := x;
    } else {
      var n := LeastExists(rest);
      StrLeTotal(x, n);
      m := if StrLe(x, n) then x else n;
      forall y | y in s
        ensures StrLe(m, y)
      {
        if y != x && m == x {
          StrLeTransitive(x, n, y);
        }
      }
    }
  }

  lemma LeastUnique(s: set<string>)
    requires s != {}
    ensures exists m :: m in s && forall x :: x in s ==> StrLe(m, x)
    ensures forall a, b :: StrLe(a, b) && StrLe(b, a) ==> a == b
  {
    hide StrLe;
    var m := LeastExists(s);
    forall a, b | StrLe(a, b) && StrLe(b, a)
      ensures a == b
    {
      StrLeAntisymmetric(a, b);
    }
  }

  function Least(s: set<string>): (m: string)
    requires s != {}
    ensures m in s && forall x :: x in s ==> StrLe(m, x)
  {
    LeastUnique(s);
    var m :| m in s && forall x :: x in s ==> StrLe(m, x);
    m
  }

  function SortedIds(s: set<string>): (ids: seq<string>)
    ensures forall id :: id in ids <==> id in s
    ensures Distinct(ids) && SortedBy(ids, StrLe)
    decreases |s|
  {
    if s == {} then []
    else
      var m := Least(s);
      assert |s - {m}| < |s|;
      [m] + SortedIds(s - {m})
  }

  // ----- the dict {key(x): x for x in xs}: a later x replaces an earlier one
  // with the same key, in the earlier one's position

  function DictBy<T(!new), K(!new)>(xs: seq<T>, key: T -> K): (m: map<K, T>)
    ensures forall k :: k in m ==> key(m[k]) == k && m[k] in xs
    ensures forall x :: x in xs ==> key(x) in m
  {
    if xs == [] then map[]
    else var last := xs[|xs| - 1]; DictBy(xs[..|xs| - 1], key)[key(last) := last]
  }

  function KeysBy<T(!new), K(==,!new)>(xs: seq<T>, key: T -> K): (ks: seq<K>)
    ensures forall k :: k in ks <==> k in DictBy(xs, key)
    ensures Distinct(ks)
  {
    if xs == [] then []
    else
      var last := xs[|xs| - 1];
      var ks := KeysBy(xs[..|xs| - 1], key);
      if key(last) in ks then ks else ks + [key(last)]
  }

  // `dict.values()`, in insertion order.
  function ValuesBy<T(!new), K(==,!new)>(xs: seq<T>, key: T -> K): (vs: seq<T>)
    ensures |vs| == |KeysBy(xs, key)|
    ensures forall k :: 0 <= k < |vs| ==> vs[k] == DictBy(xs, key)[KeysBy(xs, key)[k]]
  {
    var ks, m := KeysBy(xs, key), DictBy(xs, key);
    seq(|ks|, k requires 0 <= k < |ks| => m[ks[k]])
  }

  lemma ValuesByIn<T(!new), K(!new)>(xs: seq<T>, key: T -> K, x: T)
    ensures x in ValuesBy(xs, key) <==> key(x) in DictBy(xs, key) && DictBy(xs, key)[key(x)] == x
  {
    var ks := KeysBy(xs, key);
    if key(x) in DictBy(xs, key) && DictBy(xs, key)[key(x)] == x {
      var k :| 0 <= k < |ks| && ks[k] == key(x);
      assert ValuesBy(xs, key)[k] == x;
    }
  }

  ghost predicate DistinctBy<T, K>(xs: seq<T>, key: T -> K) {
    forall i, j :: 0 <= i < j < |xs| ==> key(xs[i]) != key(xs[j])
  }

  lemma {:induction false} InsertDistinctBy<T(!new), K>(x: T, xs: seq<T>, le: (T, T) -> bool, key: T -> K)
    requires DistinctBy(xs, key) && forall y :: y in xs ==> key(y) != key(x)
    ensures DistinctBy(Insert(x, xs, le), key)
  {
    if xs != [] && !le(x, xs[0]) {
      var rest := xs[1..];
      InsertDistinctBy(x, rest, le, key);
      InsertMultiset(x, rest, le);
      var tail := Insert(x, rest, le);
      forall j | 0 <= j < |tail|
        ensures key(tail[j]) != key(xs[0])
      {
        assert tail[j] in multiset(tail);
        assert tail[j] == x || tail[j] in rest;
      }
    }
  }

  // Sorting keeps keys apart.
  lemma {:induction false} SortDistinctBy<T(!new), K>(xs: seq<T>, le: (T, T) -> bool, key: T -> K)
    requires DistinctBy(xs, key)
    ensures DistinctBy(Sort(xs, le), key)
  {
    if xs != [] {
      SortDistinctBy(xs[1..], le, key);
      SortElements(xs[1..], le);
      forall y | y in Sort(xs[1..], le)
        ensures key(y) != key(xs[0])
      {
        assert y in xs[1..];
        var k :| 0 < k < |xs| && xs[k] == y;
      }
      InsertDistinctBy(xs[0], Sort(xs[1..], le), le, key);
    }
  }

  // With distinct keys the dict holds exactly the elements, in their order.
  lemma {:induction false} KeysOfDistinct<T(!new), K(!new)>(xs: seq<T>, key: T -> K)
    requires DistinctBy(xs, key)
    ensures |KeysBy(xs, key)| == |xs|
    ensures forall k :: 0 <= k < |xs| ==> KeysBy(xs, key)[k] == key(xs[k])
    ensures forall k :: 0 <= k < |xs| ==> DictBy(xs, key)[key(xs[k])] == xs[k]
  {
    if xs != [] {
      var init, last := xs[..|xs| - 1], xs[|xs| - 1];
      KeysOfDistinct(init, key);
      forall k | 0 <= k < |init|
        ensures init[k] == xs[k] && KeysBy(init, key)[k] == key(xs[k]) != key(last)
        ensures DictBy(init, key)[key(xs[k])] == xs[k]
      {
        assert DictBy(init, key)[key(init[k])] == init[k];
      }
      KeysStep(xs, key);
    }
  }

  lemma KeysStep<T(!new), K(!new)>(xs: seq<T>, key: T -> K)
    requires xs != [] && key(xs[|xs| - 1]) !in KeysBy(xs[..|xs| - 1], key)
    ensures KeysBy(xs, key) == KeysBy(xs[..|xs| - 1], key) + [key(xs[|xs| - 1])]
    ensures DictBy(xs, key) == DictBy(xs[..|xs| - 1], key)[key(xs[|xs| - 1]) := xs[|xs| - 1]]
  {
  }

  lemma ValuesOfDistinct<T(!new), K(!new)>(xs: seq<T>, key: T -> K)
    requires DistinctBy(xs, key)
    ensures ValuesBy(xs, key) == xs
  {
    KeysOfDistinct(xs, key);
  }
}
