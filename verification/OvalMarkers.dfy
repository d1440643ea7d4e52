/** The FIPS candidate queue: the marker search over the text of the definitions
    a rule reaches, and what it says definition by definition. */
module OvalMarkers {
  import opened Prelude
  import opened OvalWalk

  // ----- marker search over the joined text

  // `fold` is the regular expression engine's case folding.
  predicate SameFolded(fold: char -> char, a: string, b: string) {
    |a| == |b| && forall k :: 0 <= k < |a| ==> fold(a[k]) == fold(b[k])
  }

  predicate MatchAt(fold: char -> char, text: string, i: nat, marker: string) {
    i + |marker| <= |text| && SameFolded(fold, text[i..i + |marker|], marker)
  }

  ghost predicate Occurs(fold: char -> char, text: string, marker: string) {
    exists i: nat :: MatchAt(fold, text, i, marker)
  }

  // The alternatives at position i, tried in order.
  function FirstMatch(fold: char -> char, text: string, i: nat, markers: seq<string>): Option<string> {
    if markers == [] then None
    else if MatchAt(fold, text, i, markers[0]) then Some(text[i..i + |markers[0]|])
    else FirstMatch(fold, text, i, markers[1..])
  }

  // `finditer`: non-overlapping matches from the left.
  function FindAll(fold: char -> char, text: string, i: nat, markers: seq<string>): seq<string>
    requires forall m :: m in markers ==> m != ""
    decreases |text| - i
  {
    if i >= |text| then []
    else
      match FirstMatch(fold, text, i, markers)
      case None => FindAll(fold, text, i + 1, markers)
      case Some(hit) => if hit == "" then [] else [hit] + FindAll(fold, text, i + |hit|, markers)
  }

  ghost predicate AnyAt(fold: char -> char, text: string, i: nat, markers: seq<string>) {
    exists m :: m in markers && MatchAt(fold, text, i, m)
  }

  lemma {:induction false} FirstMatchIff(fold: char -> char, text: string, i: nat, markers: seq<string>)
    requires forall m :: m in markers ==> m != ""
    ensures FirstMatch(fold, text, i, markers).Some? <==> AnyAt(fold, text, i, markers)
    ensures FirstMatch(fold, text, i, markers).Some? ==> FirstMatch(fold, text, i, markers).value != ""
  {
    if markers != [] {
      assert forall m :: m in markers <==> m == markers[0] || m in markers[1..];
      FirstMatchIff(fold, text, i, markers[1..]);
    }
  }

  lemma {:induction false} FindAllFrom(fold: char -> char, text: string, i: nat, markers: seq<string>)
    requires forall m :: m in markers ==> m != ""
    ensures FindAll(fold, text, i, markers) != [] <==> exists j :: i <= j < |text| && AnyAt(fold, text, j, markers)
    decreases |text| - i
  {
    if i < |text| {
      FirstMatchIff(fold, text, i, markers);
      if FirstMatch(fold, text, i, markers) == None {
        FindAllFrom(fold, text, i + 1, markers);
      }
    }
  }

  // A space-joined text holds a marker exactly when one of its parts does,
  // because no marker matches across the joining space.
  lemma {:induction false} OccursInJoin(fold: char -> char, parts: seq<string>, marker: string)
    requires marker != "" && forall k :: 0 <= k < |marker| ==> fold(marker[k]) != fold(' ')
    ensures Occurs(fold, Join(parts, " "), marker) <==> exists p :: p in parts && Occurs(fold, p, marker)
  {
    if |parts| > 1 {
      var rest := Join(parts[1..], " ");
      OccursInJoin(fold, parts[1..], marker);
      OccursAround(fold, parts[0], rest, marker);
      assert parts[0] + " " + rest == Join(parts, " ");
      assert forall p :: p in parts <==> p == parts[0] || p in parts[1..];
    } else if |parts| == 1 {
      assert parts[0] in parts;
    }
  }

  // Where a window of a + " " + b comes from.
  lemma Window(a: string, b: string, i: nat, n: nat)
    requires i + n <= |a| + 1 + |b|
    ensures i + n <= |a| ==> (a + " " + b)[i..i + n] == a[i..i + n]
    ensures i <= |a| < i + n ==> (a + " " + b)[i..i + n][|a| - i] == ' '
    ensures |a| < i ==> (a + " " + b)[i..i + n] == b[i - |a| - 1..i - |a| - 1 + n]
  {
  }

  lemma NoMatchAcross(fold: char -> char, a: string, b: string, marker: string, i: nat)
    requires forall k :: 0 <= k < |marker| ==> fold(marker[k]) != fold(' ')
    requires i <= |a| < i + |marker| <= |a| + 1 + |b|
    ensures !MatchAt(fold, a + " " + b, i, marker)
  {
    Window(a, b, i, |marker|);
    var hit, k := (a + " " + b)[i..i + |marker|], |a| - i;
    assert fold(hit[k]) != fold(marker[k]);
  }

  lemma OccursAround(fold: char -> char, a: string, b: string, marker: string)
    requires marker != "" && forall k :: 0 <= k < |marker| ==> fold(marker[k]) != fold(' ')
    ensures Occurs(fold, a + " " + b, marker) <==> Occurs(fold, a, marker) || Occurs(fold, b, marker)
  {
    var s, n, off := a + " " + b, |marker|, |a| + 1;
    if Occurs(fold, s, marker) {
      var i: nat :| MatchAt(fold, s, i, marker);
      Window(a, b, i, n);
      if i <= |a| < i + n {
        NoMatchAcross(fold, a, b, marker, i);
      }
      if i + n <= |a| {
        assert MatchAt(fold, a, i, marker);
      } else {
        assert MatchAt(fold, b, i - off, marker);
      }
    }
    if Occurs(fold, a, marker) {
      var i: nat :| MatchAt(fold, a, i, marker);
      Window(a, b, i, n);
      assert MatchAt(fold, s, i, marker);
    }
    if Occurs(fold, b, marker) {
      var i: nat :| MatchAt(fold, b, i, marker);
      Window(a, b, off + i, n);
      assert MatchAt(fold, s, off + i, marker);
    }
  }

  // ----- the candidate queue

  const CHECK_MARKERS: seq<string> := ["fips", "/proc/sys/crypto", "crypto-policies/config"]
  const FIX_MARKERS: seq<string> := ["fips-mode-setup", "update-crypto-policies", "fips=1", "40-fips"]

  lemma MarkersAre()
    ensures CHECK_MARKERS == ["fips", "/proc/sys/crypto", "crypto-policies/config"]
    ensures FIX_MARKERS == ["fips-mode-setup", "update-crypto-policies", "fips=1", "40-fips"]
  {
  }

  // A benchmark rule: the names its check-content-ref nodes carry, in document
  // order, and the text of its shell fixes.
  datatype BenchmarkRule = BenchmarkRule(id: string, checkNames: seq<string>, shellFix: string)

  function OvalRefs(r: BenchmarkRule): seq<Id> {
    Filter(r.checkNames, (name: string) => "oval:" <= name)
  }

  ghost predicate TextHolds(fold: char -> char, text: string, markers: seq<string>) {
    exists m :: m in markers && Occurs(fold, text, m)
  }

  ghost predicate DefinitionHolds(ix: Index, d: Id, fold: char -> char)
    requires d in ix.defs
  {
    exists part :: Says(ix, ix.defs[d], part) && TextHolds(fold, part, CHECK_MARKERS)
  }

  // One of the rule's OVAL checks reaches the definition.
  ghost predicate Checks(ix: Index, r: BenchmarkRule, d: Id) {
    d in ix.defs && exists name :: name in r.checkNames && "oval:" <= name && Reaches(ix, name, d)
  }

  lemma ChecksIff(ix: Index, r: BenchmarkRule, d: Id)
    ensures Checks(ix, r, d) <==> d in ix.defs && ReachedFrom(ix, OvalRefs(r), d)
  {
    hide Reaches;
  }

  // Some definition reachable from the rule's checks says something with a check
  // marker, or the rule's own shell fix holds a fix marker.
  ghost predicate TouchesFips(ix: Index, r: BenchmarkRule, fold: char -> char) {
    || (exists d :: Checks(ix, r, d) && DefinitionHolds(ix, d, fold))
    || TextHolds(c => c, r.shellFix, FIX_MARKERS)
  }

  lemma FindAllIff(fold: char -> char, text: string, markers: seq<string>)
    requires forall m :: m in markers ==> m != ""
    ensures FindAll(fold, text, 0, markers) != [] <==> TextHolds(fold, text, markers)
  {
    FindAllFrom(fold, text, 0, markers);
    if TextHolds(fold, text, markers) {
      var m :| m in markers && Occurs(fold, text, m);
      var i: nat :| MatchAt(fold, text, i, m);
      assert AnyAt(fold, text, i, markers);
    }
    if FindAll(fold, text, 0, markers) != [] {
      var j :| 0 <= j < |text| && AnyAt(fold, text, j, markers);
      var m :| m in markers && MatchAt(fold, text, j, m);
      assert Occurs(fold, text, m);
    }
  }

  lemma {:induction false} PartOfOwnTexts(ix: Index, ids: seq<Id>, part: string)
    requires forall id :: id in ids ==> id in ix.defs
    ensures part in OwnTexts(ix, ids) <==> exists d :: d in ids && Says(ix, ix.defs[d], part)
  {
    hide Says, OwnText;
    if ids != [] {
      OwnTextIff(ix, ix.defs[ids[0]], part);
      assert forall d :: d in ids <==> d == ids[0] || d in ids[1..];
      PartOfOwnTexts(ix, ids[1..], part);
    }
  }

  // No marker holds a space, so none can match across a join.
  lemma MarkersHoldNoSpace(m: string, k: nat)
    requires (m in CHECK_MARKERS || m in FIX_MARKERS) && k < |m|
    ensures m[k] != ' '
  {
  }

  // Searching the joined text decides the property definition by definition.
  lemma JoinedSearch(ix: Index, refs: seq<Id>, ids: seq<Id>, parts: seq<string>, fold: char -> char)
    requires CollectedExactly(ix, refs, ids, parts)
    requires forall c :: fold(c) == fold(' ') ==> c == ' '
    ensures TextHolds(fold, Join(parts, " "), CHECK_MARKERS)
       <==> exists d :: d in ix.defs && ReachedFrom(ix, refs, d) && DefinitionHolds(ix, d, fold)
  {
    SameElements(parts, OwnTexts(ix, ids));
    forall m | m in CHECK_MARKERS
      ensures Occurs(fold, Join(parts, " "), m) <==> exists p :: p in parts && Occurs(fold, p, m)
    {
      forall k | 0 <= k < |m|
        ensures fold(m[k]) != fold(' ')
      {
        MarkersHoldNoSpace(m, k);
      }
      OccursInJoin(fold, parts, m);
    }
    forall p
      ensures p in parts <==> exists d :: d in ids && Says(ix, ix.defs[d], p)
    {
      PartOfOwnTexts(ix, ids, p);
    }
    if TextHolds(fold, Join(parts, " "), CHECK_MARKERS) {
      var m :| m in CHECK_MARKERS && Occurs(fold, Join(parts, " "), m);
      var p :| p in parts && Occurs(fold, p, m);
      assert TextHolds(fold, p, CHECK_MARKERS);
      var d :| d in ids && Says(ix, ix.defs[d], p);
      assert DefinitionHolds(ix, d, fold);
    }
    if d :| d in ix.defs && ReachedFrom(ix, refs, d) && DefinitionHolds(ix, d, fold) {
      var p :| Says(ix, ix.defs[d], p) && TextHolds(fold, p, CHECK_MARKERS);
      var m :| m in CHECK_MARKERS && Occurs(fold, p, m);
      assert p in parts;
    }
  }

  // ----- which markers were found

  // Two stretches of a text that share a position.
  predicate Overlap(i: nat, m: nat, j: nat, n: nat) {
    i < j + n && j < i + m
  }

  // A hit is a stretch that matches some marker.
  ghost predicate HitAt(fold: char -> char, text: string, k: nat, m: string, markers: seq<string>) {
    m in markers && MatchAt(fold, text, k, m)
  }

  lemma {:induction false} FirstMatchIs(fold: char -> char, text: string, i: nat, markers: seq<string>) returns (m: string)
    requires FirstMatch(fold, text, i, markers).Some?
    ensures HitAt(fold, text, i, m, markers) && FirstMatch(fold, text, i, markers).value == text[i..i + |m|]
  {
    if MatchAt(fold, text, i, markers[0]) {
      m := markers[0];
    } else {
      m := FirstMatchIs(fold, text, i, markers[1..]);
    }
  }

  // One step of the scan.
  lemma ScanStep(fold: char -> char, text: string, i: nat, markers: seq<string>) returns (m: string)
    requires i < |text| && forall m :: m in markers ==> m != ""
    ensures AnyAt(fold, text, i, markers) ==>
      && m != "" && HitAt(fold, text, i, m, markers)
      && i + |m| <= |text| && FindAll(fold, text, i, markers) == [text[i..i + |m|]] + FindAll(fold, text, i + |m|, markers)
    ensures !AnyAt(fold, text, i, markers) ==> FindAll(fold, text, i, markers) == FindAll(fold, text, i + 1, markers)
  {
    FirstMatchIff(fold, text, i, markers);
    if FirstMatch(fold, text, i, markers).Some? {
      m := FirstMatchIs(fold, text, i, markers);
    } else {
      m := "";
    }
  }

  lemma HitIs(fold: char -> char, text: string, j: nat, x: string, markers: seq<string>)
    requires HitAt(fold, text, j, x, markers) && forall m :: m in markers ==> m != ""
    ensures x != "" && AnyAt(fold, text, j, markers) && j + |x| <= |text|
  {
  }

  lemma Overlaps(i: nat, m: nat, j: nat, n: nat)
    requires i <= j < i + m && n > 0
    ensures Overlap(j, n, i, m)
  {
  }

  // The scan finds nothing but matches.
  lemma {:induction false} HitsAreMatches(fold: char -> char, text: string, i: nat, markers: seq<string>, h: string)
    returns (k: nat, m: string)
    requires (forall m :: m in markers ==> m != "") && h in FindAll(fold, text, i, markers)
    ensures i <= k && HitAt(fold, text, k, m, markers) && k + |m| <= |text| && h == text[k..k + |m|]
    decreases |text| - i
  {
    hide HitAt, AnyAt, FirstMatch, MatchAt;
    var first := ScanStep(fold, text, i, markers);
    if !AnyAt(fold, text, i, markers) {
      k, m := HitsAreMatches(fold, text, i + 1, markers, h);
    } else if h == text[i..i + |first|] {
      k, m := i, first;
    } else {
      k, m := HitsAreMatches(fold, text, i + |first|, markers, h);
    }
  }

  // It passes over no match that lies apart from those it finds.
  lemma {:induction false} MatchesAreHit(fold: char -> char, text: string, i: nat, markers: seq<string>, j: nat, x: string)
    returns (k: nat, m: string)
    requires i <= j < |text| && HitAt(fold, text, j, x, markers) && forall m :: m in markers ==> m != ""
    ensures HitAt(fold, text, k, m, markers) && Overlap(j, |x|, k, |m|)
    ensures k + |m| <= |text| && text[k..k + |m|] in FindAll(fold, text, i, markers)
    decreases |text| - i
  {
    hide *;
    HitIs(fold, text, j, x, markers);
    var first := ScanStep(fold, text, i, markers);
    if !AnyAt(fold, text, i, markers) {
      assert i < j;
      k, m := MatchesAreHit(fold, text, i + 1, markers, j, x);
    } else if j < i + |first| {
      Overlaps(i, |first|, j, |x|);
      k, m := i, first;
    } else {
      k, m := MatchesAreHit(fold, text, i + |first|, markers, j, x);
    }
  }

  ghost predicate SpaceFree(fold: char -> char, markers: seq<string>) {
    forall m :: m in markers ==> m != "" && forall k :: 0 <= k < |m| ==> fold(m[k]) != fold(' ')
  }

  lemma MatchLeft(fold: char -> char, a: string, b: string, i: nat, m: string)
    requires SpaceFree(fold, [m]) && i <= |a|
    ensures MatchAt(fold, a + " " + b, i, m) <==> MatchAt(fold, a, i, m)
  {
    assert m in [m];
    if i + |m| <= |a| + 1 + |b| {
      Window(a, b, i, |m|);
      if |a| < i + |m| {
        NoMatchAcross(fold, a, b, m, i);
      }
    }
  }

  lemma MatchRight(fold: char -> char, a: string, b: string, j: nat, m: string)
    ensures MatchAt(fold, a + " " + b, |a| + 1 + j, m) <==> MatchAt(fold, b, j, m)
  {
    if j + |m| <= |b| {
      Window(a, b, |a| + 1 + j, |m|);
    }
  }

  lemma {:induction false} FirstLeft(fold: char -> char, a: string, b: string, i: nat, markers: seq<string>)
    requires SpaceFree(fold, markers) && i <= |a|
    ensures FirstMatch(fold, a + " " + b, i, markers) == FirstMatch(fold, a, i, markers)
    ensures FirstMatch(fold, a, i, markers).Some? ==> 0 < |FirstMatch(fold, a, i, markers).value| <= |a| - i
  {
    if markers != [] {
      var m := markers[0];
      assert m in markers;
      assert forall x :: x in markers[1..] ==> x in markers;
      MatchLeft(fold, a, b, i, m);
      if MatchAt(fold, a, i, m) {
        Window(a, b, i, |m|);
      } else {
        FirstLeft(fold, a, b, i, markers[1..]);
      }
    }
  }

  lemma {:induction false} FirstRight(fold: char -> char, a: string, b: string, j: nat, markers: seq<string>)
    ensures FirstMatch(fold, a + " " + b, |a| + 1 + j, markers) == FirstMatch(fold, b, j, markers)
  {
    if markers != [] {
      var m := markers[0];
      MatchRight(fold, a, b, j, m);
      if MatchAt(fold, b, j, m) {
        Window(a, b, |a| + 1 + j, |m|);
      } else {
        FirstRight(fold, a, b, j, markers[1..]);
      }
    }
  }

  lemma {:induction false} FindAllRight(fold: char -> char, a: string, b: string, j: nat, markers: seq<string>)
    requires forall m :: m in markers ==> m != ""
    ensures FindAll(fold, a + " " + b, |a| + 1 + j, markers) == FindAll(fold, b, j, markers)
    decreases |b| - j
  {
    if j < |b| {
      FirstRight(fold, a, b, j, markers);
      FirstMatchIff(fold, b, j, markers);
      var hit := FirstMatch(fold, b, j, markers);
      FindAllRight(fold, a, b, j + (if hit == None then 1 else |hit.value|), markers);
    }
  }

  // Scanning two texts joined by a space finds what scanning each finds.
  lemma {:induction false} FindAllJoined(fold: char -> char, a: string, b: string, i: nat, markers: seq<string>)
    requires SpaceFree(fold, markers) && i <= |a|
    ensures FindAll(fold, a + " " + b, i, markers) == FindAll(fold, a, i, markers) + FindAll(fold, b, 0, markers)
    decreases |a| - i
  {
    FirstLeft(fold, a, b, i, markers);
    var hit := FirstMatch(fold, a, i, markers);
    if i == |a| {
      FindAllRight(fold, a, b, 0, markers);
    } else if hit == None {
      FindAllJoined(fold, a, b, i + 1, markers);
    } else {
      FindAllJoined(fold, a, b, i + |hit.value|, markers);
    }
  }

  lemma {:induction false} HitsOfJoin(fold: char -> char, parts: seq<string>, markers: seq<string>, h: string)
    requires SpaceFree(fold, markers)
    ensures h in FindAll(fold, Join(parts, " "), 0, markers) <==> exists p :: p in parts && h in FindAll(fold, p, 0, markers)
  {
    if |parts| > 1 {
      var rest := Join(parts[1..], " ");
      HitsOfJoin(fold, parts[1..], markers, h);
      FindAllJoined(fold, parts[0], rest, 0, markers);
      assert parts[0] + " " + rest == Join(parts, " ");
      assert forall p :: p in parts <==> p == parts[0] || p in parts[1..];
    } else if |parts| == 1 {
      assert parts[0] in parts;
    }
  }

  lemma MarkersAreNoBlank(m: string)
    requires m in CHECK_MARKERS
    ensures m != ""
  {
  }

  lemma CheckMarkersSpaceFree(fold: char -> char)
    requires forall c :: fold(c) == fold(' ') ==> c == ' '
    ensures SpaceFree(fold, CHECK_MARKERS)
  {
    hide CHECK_MARKERS, FIX_MARKERS;
    forall m | m in CHECK_MARKERS
      ensures m != "" && forall k :: 0 <= k < |m| ==> fold(m[k]) != fold(' ')
    {
      MarkersAreNoBlank(m);
      forall k | 0 <= k < |m|
        ensures fold(m[k]) != fold(' ')
      {
        MarkersHoldNoSpace(m, k);
      }
    }
  }

  // Scanning the own text of some definition reachable from the rule's checks,
  // alone, finds the marker h.
  ghost predicate CheckHit(ix: Index, r: BenchmarkRule, fold: char -> char, h: string) {
    exists d, part ::
      && Checks(ix, r, d)
      && Says(ix, ix.defs[d], part)
      && h in FindAll(fold, part, 0, CHECK_MARKERS)
  }

  // The parts collected for a rule are exactly what the definitions its checks
  // reach say.
  lemma PartsSaid(ix: Index, r: BenchmarkRule, ids: seq<Id>, parts: seq<string>, part: string)
    requires CollectedExactly(ix, OvalRefs(r), ids, parts)
    ensures part in parts <==> exists d :: Checks(ix, r, d) && Says(ix, ix.defs[d], part)
  {
    hide Says, Reaches, OwnTexts, ReachedFrom;
    SameElements(parts, OwnTexts(ix, ids));
    PartOfOwnTexts(ix, ids, part);
    forall d
      ensures d in ids <==> Checks(ix, r, d)
    {
      ChecksIff(ix, r, d);
    }
  }

  lemma JoinedHits(ix: Index, r: BenchmarkRule, ids: seq<Id>, parts: seq<string>, fold: char -> char, h: string)
    requires CollectedExactly(ix, OvalRefs(r), ids, parts)
    requires forall c :: fold(c) == fold(' ') ==> c == ' '
    ensures h in FindAll(fold, Join(parts, " "), 0, CHECK_MARKERS) <==> CheckHit(ix, r, fold, h)
  {
    hide FindAll, Join, ReachedFrom, CollectedExactly, Says, Reaches, CHECK_MARKERS;
    CheckMarkersSpaceFree(fold);
    HitsOfJoin(fold, parts, CHECK_MARKERS, h);
    forall p
      ensures p in parts <==> exists d :: Checks(ix, r, d) && Says(ix, ix.defs[d], p)
    {
      PartsSaid(ix, r, ids, parts, p);
    }
    if p :| p in parts && h in FindAll(fold, p, 0, CHECK_MARKERS) {
      var d :| Checks(ix, r, d) && Says(ix, ix.defs[d], p);
      assert CheckHit(ix, r, fold, h);
    }
    if CheckHit(ix, r, fold, h) {
      var d, p :| Checks(ix, r, d) && Says(ix, ix.defs[d], p) && h in FindAll(fold, p, 0, CHECK_MARKERS);
      assert p in parts;
    }
  }

  // `check:` and `fix:` markers, each kind sorted and named once.
  function Listed(checks: set<string>, fixes: set<string>): string {
    Join(Map(SortedIds(checks), h => "check:" + h) + Map(SortedIds(fixes), h => "fix:" + h), " ")
  }

  function FixHits(r: BenchmarkRule): set<string> {
    ToSet(FindAll(c => c, r.shellFix, 0, FIX_MARKERS))
  }

  ghost predicate Ordered(texts: seq<string>) {
    Distinct(texts) && SortedBy(texts, StrLe)
  }

  // The text names exactly the markers found in a reachable definition, in lower
  // case and each as a check, and then those found in the shell fix, each as a fix.
  ghost predicate Explains(ix: Index, r: BenchmarkRule, fold: char -> char, lower: string -> string, text: string) {
    exists checks, fixes ::
      && Ordered(checks) && Ordered(fixes) && text == Join(checks + fixes, " ")
      && (forall t :: t in checks <==> exists h :: CheckHit(ix, r, fold, h) && t == "check:" + lower(h))
      && (forall t :: t in fixes <==> exists h :: h in FindAll(c => c, r.shellFix, 0, FIX_MARKERS) && t == "fix:" + h)
  }

  lemma {:induction false} StrLePrefix(prefix: string, a: string, b: string)
    requires StrLe(a, b)
    ensures StrLe(prefix + a, prefix + b)
  {
    if prefix == "" {
      assert prefix + a == a && prefix + b == b;
    } else {
      StrLePrefix(prefix[1..], a, b);
      assert (prefix + a)[1..] == prefix[1..] + a && (prefix + b)[1..] == prefix[1..] + b;
    }
  }

  lemma Prefixed(texts: set<string>, prefix: string) returns (named: seq<string>)
    ensures named == Map(SortedIds(texts), h => prefix + h) && Ordered(named)
    ensures forall t :: t in named <==> exists h :: h in texts && t == prefix + h
  {
    hide StrLe;
    var ids := SortedIds(texts);
    named := Map(ids, h => prefix + h);
    forall i, j | 0 <= i < j < |named|
      ensures named[i] != named[j] && StrLe(named[i], named[j])
    {
      StrLePrefix(prefix, ids[i], ids[j]);
      assert named[i][|prefix|..] == ids[i] && named[j][|prefix|..] == ids[j];
    }
    forall t
      ensures t in named <==> exists h :: h in texts && t == prefix + h
    {
      if h :| h in texts && t == prefix + h {
        assert h in ids;
        var k :| 0 <= k < |ids| && ids[k] == h;
        assert named[k] == t;
      }
    }
  }

  lemma HitsExplain(
    ix: Index, r: BenchmarkRule, ids: seq<Id>, parts: seq<string>, fold: char -> char, lower: string -> string,
    checks: set<string>)
    requires CollectedExactly(ix, OvalRefs(r), ids, parts)
    requires forall c :: fold(c) == fold(' ') ==> c == ' '
    requires checks == set h | h in FindAll(fold, Join(parts, " "), 0, CHECK_MARKERS) :: lower(h)
    ensures Explains(ix, r, fold, lower, Listed(checks, FixHits(r)))
  {
    hide FindAll, Join, CollectedExactly, CheckHit, Ordered;
    var cs := Prefixed(checks, "check:");
    var fs := Prefixed(FixHits(r), "fix:");
    forall h
      ensures h in FindAll(fold, Join(parts, " "), 0, CHECK_MARKERS) <==> CheckHit(ix, r, fold, h)
    {
      JoinedHits(ix, r, ids, parts, fold, h);
    }
  }

  // Of the rules with this id, the last that touches FIPS is the k-th.
  ghost predicate LastTouching(ix: Index, rules: seq<BenchmarkRule>, fold: char -> char, id: string, k: nat) {
    && k < |rules| && rules[k].id == id && TouchesFips(ix, rules[k], fold)
    && forall j :: k < j < |rules| && rules[j].id == id ==> !TouchesFips(ix, rules[j], fold)
  }

  // A rule is queued exactly when it is selected and some rule of its id touches
  // FIPS, with the markers of the last that does.
  ghost predicate Queue(
    ix: Index, rules: seq<BenchmarkRule>, selected: set<string>, fold: char -> char, lower: string -> string,
    candidates: map<string, string>)
  {
    && (forall id :: id in candidates <==>
          id != "" && id in selected && exists r :: r in rules && r.id == id && TouchesFips(ix, r, fold))
    && (forall id :: id in candidates ==>
          exists k: nat :: LastTouching(ix, rules, fold, id, k) && Explains(ix, rules[k], fold, lower, candidates[id]))
  }

  // An entry stays explained by the rules before one that does not touch it.
  lemma StillLast(
    ix: Index, before: seq<BenchmarkRule>, rule: BenchmarkRule, fold: char -> char, lower: string -> string,
    id: string, text: string)
    requires exists k: nat :: LastTouching(ix, before, fold, id, k) && Explains(ix, before[k], fold, lower, text)
    requires id != rule.id || !TouchesFips(ix, rule, fold)
    ensures exists k: nat :: LastTouching(ix, before + [rule], fold, id, k)
                             && Explains(ix, (before + [rule])[k], fold, lower, text)
  {
    hide TouchesFips, Explains;
    var k: nat :| LastTouching(ix, before, fold, id, k) && Explains(ix, before[k], fold, lower, text);
    assert LastTouching(ix, before + [rule], fold, id, k);
    assert (before + [rule])[k] == before[k];
  }

  lemma QueueStays(
    ix: Index, before: seq<BenchmarkRule>, rule: BenchmarkRule, selected: set<string>, fold: char -> char,
    lower: string -> string, candidates: map<string, string>)
    requires Queue(ix, before, selected, fold, lower, candidates)
    requires rule.id == "" || rule.id !in selected || !TouchesFips(ix, rule, fold)
    ensures Queue(ix, before + [rule], selected, fold, lower, candidates)
  {
    hide TouchesFips, Explains;
    assert forall r :: r in before + [rule] <==> r in before || r == rule;
    forall id | id in candidates
      ensures exists k: nat :: LastTouching(ix, before + [rule], fold, id, k)
                               && Explains(ix, (before + [rule])[k], fold, lower, candidates[id])
    {
      StillLast(ix, before, rule, fold, lower, id, candidates[id]);
    }
  }

  lemma QueueGrows(
    ix: Index, before: seq<BenchmarkRule>, rule: BenchmarkRule, selected: set<string>, fold: char -> char,
    lower: string -> string, candidates: map<string, string>, text: string)
    requires Queue(ix, before, selected, fold, lower, candidates)
    requires rule.id != "" && rule.id in selected && TouchesFips(ix, rule, fold) && Explains(ix, rule, fold, lower, text)
    ensures Queue(ix, before + [rule], selected, fold, lower, candidates[rule.id := text])
  {
    hide TouchesFips, Explains;
    var after := candidates[rule.id := text];
    assert (before + [rule])[|before|] == rule;
    assert LastTouching(ix, before + [rule], fold, rule.id, |before|);
    assert forall r :: r in before + [rule] <==> r in before || r == rule;
    forall id | id in after
      ensures exists k: nat :: LastTouching(ix, before + [rule], fold, id, k)
                               && Explains(ix, (before + [rule])[k], fold, lower, after[id])
    {
      if id == rule.id {
        assert (before + [rule])[|before|] == rule;
      } else {
        StillLast(ix, before, rule, fold, lower, id, candidates[id]);
      }
    }
  }

  // The markers one rule is listed with; None when it holds none.
  method RuleMarkers(ix: Index, rule: BenchmarkRule, fold: char -> char, lower: string -> string)
    returns (text: Option<string>)
    requires forall c :: fold(c) == fold(' ') ==> c == ' '
    ensures text.Some? <==> TouchesFips(ix, rule, fold)
    ensures text.Some? ==> Explains(ix, rule, fold, lower, text.value)
  {
    hide Explains, Listed;
    var parts, ids := OvalCheckParts(ix, OvalRefs(rule));
    var found := FindAll(fold, Join(parts, " "), 0, CHECK_MARKERS);
    var checkHits := set h | h in found :: lower(h);
    var fixHits := FindAll(c => c, rule.shellFix, 0, FIX_MARKERS);
    FindAllIff(fold, Join(parts, " "), CHECK_MARKERS);
    FindAllIff(c => c, rule.shellFix, FIX_MARKERS);
    JoinedSearch(ix, OvalRefs(rule), ids, parts, fold);
    assert TouchesFips(ix, rule, fold) <==> found != [] || fixHits != [];
    if found == [] && fixHits == [] {
      return None;
    }
    HitsExplain(ix, rule, ids, parts, fold, lower, checkHits);
    return Some(Listed(checkHits, FixHits(rule)));
  }

  // `fold` is the engine's case folding, which maps only a space to a space.
  method ExtractFipsCandidates(
    ix: Index, rules: seq<BenchmarkRule>, selected: set<string>, fold: char -> char, lower: string -> string)
    returns (candidates: map<string, string>)
    requires forall c :: fold(c) == fold(' ') ==> c == ' '
    ensures forall id :: id in candidates <==>
              id != "" && id in selected && exists r :: r in rules && r.id == id && TouchesFips(ix, r, fold)
    ensures forall id :: id in candidates ==>
              exists k: nat :: LastTouching(ix, rules, fold, id, k) && Explains(ix, rules[k], fold, lower, candidates[id])
  {
    hide TouchesFips, Explains;
    candidates := map[];
    assert rules[..0] == [];
    var i := 0;
    while i < |rules|
      invariant 0 <= i <= |rules|
      invariant Queue(ix, rules[..i], selected, fold, lower, candidates)
    {
      hide Queue;
      var rule := rules[i];
      ghost var before := rules[..i];
      assert rules[..i + 1] == before + [rule];
      i := i + 1;
      if rule.id == "" || rule.id !in selected {
        QueueStays(ix, before, rule, selected, fold, lower, candidates);
        continue;
      }
      var text := RuleMarkers(ix, rule, fold, lower);
      if text == None {
        QueueStays(ix, before, rule, selected, fold, lower, candidates);
        continue;
      }
      QueueGrows(ix, before, rule, selected, fold, lower, candidates, text.value);
      candidates := candidates[rule.id := text.value];
    }
    assert rules[..i] == rules;
  }
}
