/** When `rewrite_isolinux` fails the assertion after its edits: what the words
    behind the first label must be. */
module KeywordLost {
  import opened Prelude
  import opened Relabel
  import opened Regex
  import opened Bootloader
  import opened BootTokens
  import opened BootAgree
  import opened BootRewrite
  import opened Rebuild
  import opened RebuildLaw
  import opened RebuildIff
  import opened KeywordKept

  // ----- `menu default` lines and nothing else

  predicate AllSpace(cls: Classes, ts: seq<Token>) {
    forall k :: 0 <= k < |ts| ==> SpaceToken(cls, ts[k])
  }

  // White space up to the line feed at n.
  predicate FeedAt(cls: Classes, ts: seq<Token>, n: nat) {
    n < |ts| && ts[n] == NL && AllSpace(cls, ts[..n])
  }

  // `menu` at m, with blanks and tabs before it, and `default` at d, with white
  // space between them.
  predicate MenuPair(cls: Classes, ts: seq<Token>, m: nat, d: nat) {
    && m + 1 < d < |ts|
    && (forall k :: 0 <= k < m ==> ts[k] == Other(' ') || ts[k] == Other('\t'))
    && ts[m] == Word("menu")
    && AllSpace(cls, ts[m + 1..d])
    && ts[d] == Word("default")
  }

  // White space to the end, or to a line feed after which a line of the kind
  // starts.
  ghost predicate MenusFollow(cls: Classes, ts: seq<Token>)
    decreases |ts|
  {
    AllSpace(cls, ts) || exists n: nat :: FeedAt(cls, ts, n) && MenuLines(cls, ts[n + 1..])
  }

  // From the start of a line: a pair, and `default` is the last word on its line.
  ghost predicate MenuLines(cls: Classes, ts: seq<Token>)
    decreases |ts|
  {
    exists m: nat, d: nat :: MenuPair(cls, ts, m, d) && MenusFollow(cls, ts[d + 1..])
  }

  // ----- the grammar, token by token

  lemma AllSpaceCons(cls: Classes, t: Token, ts: seq<Token>)
    ensures AllSpace(cls, [t] + ts) <==> SpaceToken(cls, t) && AllSpace(cls, ts)
  {
    var us := [t] + ts;
    if AllSpace(cls, us) {
      assert us[0] == t;
      assert forall k :: 0 <= k < |ts| ==> ts[k] == us[k + 1];
    }
  }

  lemma AllSpaceSplit(cls: Classes, ts: seq<Token>, n: nat)
    requires n <= |ts|
    ensures AllSpace(cls, ts) <==> AllSpace(cls, ts[..n]) && AllSpace(cls, ts[n..])
  {
    if AllSpace(cls, ts[..n]) && AllSpace(cls, ts[n..]) {
      forall k | 0 <= k < |ts|
        ensures SpaceToken(cls, ts[k])
      {
        if k < n {
          assert ts[..n][k] == ts[k];
        } else {
          assert ts[n..][k - n] == ts[k];
        }
      }
    }
  }

  // A line feed is passed by only after white space.
  lemma FeedShift(cls: Classes, ts: seq<Token>, j: nat, n: nat)
    requires j <= n < |ts| && AllSpace(cls, ts[..j])
    ensures FeedAt(cls, ts, n) <==> FeedAt(cls, ts[j..], n - j)
  {
    AllSpaceSplit(cls, ts[..n], j);
    assert ts[..n][..j] == ts[..j] && ts[..n][j..] == ts[j..][..n - j];
  }

  lemma FeedParts(cls: Classes, ts: seq<Token>, n: nat)
    requires FeedAt(cls, ts, n)
    ensures n < |ts| && ts[n] == NL && forall k :: 0 <= k < n ==> SpaceToken(cls, ts[k])
  {
    forall k | 0 <= k < n
      ensures SpaceToken(cls, ts[k])
    {
      assert ts[..n][k] == ts[k];
    }
  }

  // No pair starts on a line that ends before its first word.
  lemma NoPairBefore(cls: Classes, ts: seq<Token>, n: nat)
    requires FeedAt(cls, ts, n)
    ensures !MenuLines(cls, ts)
  {
    hide FeedAt, MenusFollow;
    FeedParts(cls, ts, n);
    assert NL == Other('\n');
    forall m: nat, d: nat
      ensures !MenuPair(cls, ts, m, d)
    {
    }
  }

  lemma TailByFeed(cls: Classes, ts: seq<Token>, n: nat)
    requires FeedAt(cls, ts, n) && MenuLines(cls, ts[n + 1..])
    ensures MenusFollow(cls, ts)
  {
    hide FeedAt, MenuLines, AllSpace;
  }

  lemma TailParts(cls: Classes, ts: seq<Token>) returns (n: nat)
    requires MenusFollow(cls, ts) && !AllSpace(cls, ts)
    ensures FeedAt(cls, ts, n) && MenuLines(cls, ts[n + 1..])
  {
    hide MenuLines, AllSpace;
    n :| 0 <= n && FeedAt(cls, ts, n) && MenuLines(cls, ts[n + 1..]);
  }

  lemma TailOfSpace(cls: Classes, ts: seq<Token>)
    requires AllSpace(cls, ts)
    ensures MenusFollow(cls, ts)
  {
  }

  lemma Drop(ts: seq<Token>, a: nat, b: nat)
    requires a + b <= |ts|
    ensures ts[a..][b..] == ts[a + b..]
  {
  }

  lemma SpaceThroughFeed(cls: Classes, ts: seq<Token>, j: nat)
    requires Sensible(cls) && FeedAt(cls, ts, j)
    ensures AllSpace(cls, ts[..j + 1])
    ensures AllSpace(cls, ts) <==> AllSpace(cls, ts[j + 1..])
  {
    FeedParts(cls, ts, j);
    AllSpaceSplit(cls, ts, j + 1);
    assert NL == Other('\n');
    assert forall k :: 0 <= k < j + 1 ==> ts[..j + 1][k] == ts[k];
  }

  lemma TailGoesOn(cls: Classes, ts: seq<Token>, j: nat)
    requires Sensible(cls) && FeedAt(cls, ts, j) && MenusFollow(cls, ts)
    ensures MenusFollow(cls, ts[j + 1..]) || MenuLines(cls, ts[j + 1..])
  {
    hide *;
    SpaceThroughFeed(cls, ts, j);
    FeedParts(cls, ts, j);
    var v := ts[j + 1..];
    if AllSpace(cls, ts) {
      TailOfSpace(cls, v);
    } else {
      var n := TailParts(cls, ts);
      FeedParts(cls, ts, n);
      if n < j {
        SpaceThroughFeed(cls, ts, n);
        FeedShift(cls, ts, n + 1, j);
        NoPairBefore(cls, ts[n + 1..], j - (n + 1));
      } else if n > j {
        FeedShift(cls, ts, j + 1, n);
        Drop(ts, j + 1, n - (j + 1) + 1);
        TailByFeed(cls, v, n - (j + 1));
      }
    }
  }

  lemma TailGoesBack(cls: Classes, ts: seq<Token>, j: nat)
    requires Sensible(cls) && FeedAt(cls, ts, j)
    requires MenusFollow(cls, ts[j + 1..]) || MenuLines(cls, ts[j + 1..])
    ensures MenusFollow(cls, ts)
  {
    hide *;
    SpaceThroughFeed(cls, ts, j);
    FeedParts(cls, ts, j);
    var v := ts[j + 1..];
    if AllSpace(cls, v) {
      TailOfSpace(cls, ts);
    } else if MenuLines(cls, v) {
      TailByFeed(cls, ts, j);
    } else {
      var n := TailParts(cls, v);
      FeedParts(cls, v, n);
      FeedShift(cls, ts, j + 1, j + 1 + n);
      Drop(ts, j + 1, n + 1);
      TailByFeed(cls, ts, j + 1 + n);
    }
  }

  lemma HeadSpace(cls: Classes, ts: seq<Token>)
    requires ts != []
    ensures AllSpace(cls, ts) <==> SpaceToken(cls, ts[0]) && AllSpace(cls, ts[1..])
    ensures AllSpace(cls, ts[..1]) <==> SpaceToken(cls, ts[0])
  {
    AllSpaceCons(cls, ts[0], ts[1..]);
    assert [ts[0]] + ts[1..] == ts;
    assert ts[..1][0] == ts[0];
  }

  lemma TailAfterOther(cls: Classes, ts: seq<Token>)
    requires ts != [] && ts[0] != NL
    ensures MenusFollow(cls, ts) <==> SpaceToken(cls, ts[0]) && MenusFollow(cls, ts[1..])
  {
    hide *;
    var v := ts[1..];
    HeadSpace(cls, ts);
    if AllSpace(cls, ts) {
      TailOfSpace(cls, ts);
      TailOfSpace(cls, v);
    } else {
      if MenusFollow(cls, ts) {
        var n := TailParts(cls, ts);
        FeedParts(cls, ts, n);
        FeedShift(cls, ts, 1, n);
        Drop(ts, 1, n);
        TailByFeed(cls, v, n - 1);
      }
      if SpaceToken(cls, ts[0]) && MenusFollow(cls, v) {
        var n := TailParts(cls, v);
        FeedParts(cls, v, n);
        FeedShift(cls, ts, 1, n + 1);
        Drop(ts, 1, n + 1);
        TailByFeed(cls, ts, n + 1);
      }
    }
  }

  // ----- what removal leaves behind the label

  lemma PairWords(cls: Classes, ts: seq<Token>, m: nat, d: nat)
    requires Sensible(cls) && MenuPair(cls, ts, m, d)
    ensures Blanks(ts) == m && WordSpace(cls, "menu", ts[m..]) == Some(d - m) && ts[m..][d - m] == Word("default")
  {
    BlanksAre(cls, ts, m);
    var us := ts[m..];
    assert us[0] == Word("menu") && us[1..] == ts[m + 1..];
    assert forall k :: 0 <= k < d - m - 1 ==> us[1..][k] == ts[m + 1..d][k];
    SpacesOf(cls, us[1..], d - m - 1);
    assert us[1..][d - m - 1] == ts[d];
  }

  lemma PairMenu(cls: Classes, us: seq<Token>, k: nat)
    requires WordSpace(cls, "menu", us) == Some(k) && k < |us| && us[k] == Word("default")
    ensures MatchMenu(cls, us) == Plus1(k + 1, EolTokens(cls, us[k + 1..]))
  {
    hide WordSpace, EolTokens, MatchMenu;
    MenuIs(cls, us);
    assert us[k..][0] == us[k] && us[k..][1..] == us[k + 1..];
  }

  // A pair at a line start is removed up to the end of its line.
  lemma PairMatches(cls: Classes, ts: seq<Token>, m: nat, d: nat)
    requires Sensible(cls) && MenuPair(cls, ts, m, d)
    ensures MatchLen(cls, MenuDefault, ts) == Plus1(d + 1, EolTokens(cls, ts[d + 1..]))
  {
    hide *;
    PairWords(cls, ts, m, d);
    PairBound(cls, ts, m, d);
    MenuDefaultIs(cls, ts);
    PairMenu(cls, ts[m..], d - m);
    Drop(ts, m, d - m + 1);
    PlusPlus(m, d - m + 1, EolTokens(cls, ts[d + 1..]));
  }

  lemma PlusPlus(a: nat, b: nat, r: Option<nat>)
    ensures Plus1(a, Plus1(b, r)) == Plus1(a + b, r)
  {
  }

  lemma {:induction false} BlanksAre(cls: Classes, ts: seq<Token>, m: nat)
    requires m < |ts| && ts[m].Word?
    requires forall k :: 0 <= k < m ==> ts[k] == Other(' ') || ts[k] == Other('\t')
    ensures Blanks(ts) == m
  {
    if m > 0 {
      BlanksAre(cls, ts[1..], m - 1);
    }
  }

  // A match is a pair and what follows it to the end of its line.
  lemma MatchIsPair(cls: Classes, ts: seq<Token>) returns (m: nat, d: nat)
    requires MatchLen(cls, MenuDefault, ts).Some?
    ensures MenuPair(cls, ts, m, d)
  {
    m := Blanks(ts);
    BlanksBlank(ts);
    var us := ts[m..];
    var c := Spaces(cls, us[1..]);
    d := m + 1 + c;
    assert us[0] == ts[m] && us[1 + c] == ts[d];
    var between := ts[m + 1..d];
    forall k | 0 <= k < |between|
      ensures SpaceToken(cls, between[k])
    {
      SpacesAreSpaces(cls, us[1..], k);
      assert us[1..][k] == between[k];
    }
  }

  lemma {:induction false} BlanksBlank(ts: seq<Token>)
    ensures forall k :: 0 <= k < Blanks(ts) ==> ts[k] == Other(' ') || ts[k] == Other('\t')
  {
    if ts != [] && (ts[0] == Other(' ') || ts[0] == Other('\t')) {
      BlanksBlank(ts[1..]);
      assert forall k :: 0 < k < Blanks(ts) ==> ts[k] == ts[1..][k - 1];
    }
  }

  lemma {:induction false} LastFeedFound(ts: seq<Token>, n: nat, k: nat)
    requires n < k <= |ts| && ts[n] == NL
    ensures LastFeed(ts, k).Some?
  {
    if n < k - 1 {
      LastFeedFound(ts, n, k - 1);
    }
  }

  lemma SpacesThrough(cls: Classes, ts: seq<Token>, k: nat)
    requires k <= Spaces(cls, ts)
    ensures AllSpace(cls, ts[..k])
  {
    forall j | 0 <= j < k
      ensures SpaceToken(cls, ts[..k][j])
    {
      SpacesAreSpaces(cls, ts, j);
    }
  }

  // What is removed behind a pair ends the text, or its last line feed.
  lemma RestEnds(cls: Classes, ts: seq<Token>)
    requires EolTokens(cls, ts).Some?
    ensures var n := EolTokens(cls, ts).value;
      (n == |ts| && AllSpace(cls, ts)) || (0 < n && FeedAt(cls, ts, n - 1))
  {
    var k := Spaces(cls, ts);
    hide Spaces;
    if k == |ts| {
      SpacesThrough(cls, ts, k);
      assert ts[..k] == ts;
    } else {
      SpacesThrough(cls, ts, LastFeed(ts, k).value);
    }
  }

  // Behind a pair that is one of a tail, the line does end.
  lemma RestFound(cls: Classes, ts: seq<Token>)
    requires Sensible(cls) && MenusFollow(cls, ts)
    ensures EolTokens(cls, ts).Some?
  {
    if AllSpace(cls, ts) {
      SpacesOf(cls, ts, |ts|);
    } else {
      var n := TailParts(cls, ts);
      FeedParts(cls, ts, n);
      assert NL == Other('\n');
      hide MenusFollow, MenuLines, FeedAt, AllSpace;
      SpacesOf(cls, ts, n + 1);
      if Spaces(cls, ts) < |ts| {
        LastFeedFound(ts, n, Spaces(cls, ts));
      }
    }
  }

  lemma PairBound(cls: Classes, ts: seq<Token>, m: nat, d: nat)
    requires MenuPair(cls, ts, m, d)
    ensures m + 1 < d < |ts|
  {
  }

  lemma LinesParts(cls: Classes, ts: seq<Token>) returns (m: nat, d: nat)
    requires MenuLines(cls, ts)
    ensures MenuPair(cls, ts, m, d) && d < |ts| && MenusFollow(cls, ts[d + 1..])
  {
    hide MenusFollow;
    m, d :| 0 <= m && 0 <= d && MenuPair(cls, ts, m, d) && MenusFollow(cls, ts[d + 1..]);
  }

  lemma LinesByPair(cls: Classes, ts: seq<Token>, m: nat, d: nat)
    requires MenuPair(cls, ts, m, d) && d < |ts| && MenusFollow(cls, ts[d + 1..])
    ensures MenuLines(cls, ts)
  {
    hide MenusFollow, MenuPair;
  }

  lemma LinesAtPair(cls: Classes, ts: seq<Token>, m: nat, d: nat)
    requires Sensible(cls) && MenuPair(cls, ts, m, d)
    ensures d < |ts| && (MenuLines(cls, ts) <==> MenusFollow(cls, ts[d + 1..]))
  {
    hide *;
    PairWords(cls, ts, m, d);
    PairBound(cls, ts, m, d);
    if MenuLines(cls, ts) {
      var m', d' := LinesParts(cls, ts);
      PairWords(cls, ts, m', d');
      PairBound(cls, ts, m', d');
    }
    if MenusFollow(cls, ts[d + 1..]) {
      LinesByPair(cls, ts, m, d);
    }
  }

  lemma PairIsNoTail(cls: Classes, ts: seq<Token>, m: nat, d: nat)
    requires MenuPair(cls, ts, m, d)
    ensures !MenusFollow(cls, ts)
  {
    hide MenuLines;
    assert !AllSpace(cls, ts) by {
      assert !SpaceToken(cls, ts[m]);
    }
    forall n: nat
      ensures !FeedAt(cls, ts, n)
    {
      if FeedAt(cls, ts, n) {
        FeedParts(cls, ts, n);
      }
      assert NL == Other('\n');
    }
  }

  lemma LinesMatch(cls: Classes, ts: seq<Token>)
    requires Sensible(cls) && MenuLines(cls, ts)
    ensures MatchLen(cls, MenuDefault, ts).Some?
  {
    hide *;
    var m, d := LinesParts(cls, ts);
    PairMatches(cls, ts, m, d);
    RestFound(cls, ts[d + 1..]);
    Plus1Is(d + 1, EolTokens(cls, ts[d + 1..]));
  }

  lemma CutSpace(cls: Classes, ts: seq<Token>)
    requires Sensible(cls) && ts != [] && MatchLen(cls, MenuDefault, ts).Some?
    ensures var n := MatchLen(cls, MenuDefault, ts).value;
      && 0 < n <= |ts|
      && !MenusFollow(cls, ts)
      && (MenuLines(cls, ts) <==> MenusFollow(cls, ts[n..]) || (ts[n - 1] == NL && MenuLines(cls, ts[n..])))
  {
    hide *;
    var m, d := MatchIsPair(cls, ts);
    PairMatches(cls, ts, m, d);
    PairIsNoTail(cls, ts, m, d);
    LinesAtPair(cls, ts, m, d);
    var u := ts[d + 1..];
    Plus1Is(d + 1, EolTokens(cls, u));
    var r := EolTokens(cls, u).value;
    RestEnds(cls, u);
    Drop(ts, d + 1, r);
    TailPastEnd(cls, u, r);
    NoLines(cls);
    if r > 0 {
      assert u[r - 1] == ts[d + 1 + r - 1];
    } else {
      assert u[r..] == [];
    }
  }

  // What a tail is past its first line end.
  lemma TailPastEnd(cls: Classes, u: seq<Token>, r: nat)
    requires Sensible(cls) && r <= |u|
    requires (r == |u| && AllSpace(cls, u)) || (0 < r && FeedAt(cls, u, r - 1))
    ensures MenusFollow(cls, u) <==> MenusFollow(cls, u[r..]) || (0 < r && u[r - 1] == NL && MenuLines(cls, u[r..]))
  {
    hide *;
    if r == |u| && AllSpace(cls, u) {
      TailOfSpace(cls, u);
      assert u[r..] == [];
      NothingIsSpace(cls);
      TailOfSpace(cls, []);
    } else {
      FeedParts(cls, u, r - 1);
      if MenusFollow(cls, u) {
        TailGoesOn(cls, u, r - 1);
      }
      if MenusFollow(cls, u[r..]) || MenuLines(cls, u[r..]) {
        TailGoesBack(cls, u, r - 1);
      }
    }
  }

  lemma NoLines(cls: Classes)
    ensures !MenuLines(cls, [])
  {
  }

  lemma NothingIsSpace(cls: Classes)
    ensures AllSpace(cls, [])
  {
  }

  lemma FeedFirst(cls: Classes, ts: seq<Token>)
    requires ts != [] && ts[0] == NL
    ensures FeedAt(cls, ts, 0)
  {
  }

  lemma FeedIsSpace(cls: Classes)
    requires Sensible(cls)
    ensures SpaceToken(cls, NL)
  {
  }

  // Removing the `menu default` lines leaves white space only, exactly of texts
  // that are such lines and white space.
  lemma {:induction false} RemovedToSpace(cls: Classes, ts: seq<Token>, atLine: bool)
    requires Sensible(cls)
    ensures AllSpace(cls, RemoveMenuDefault(cls, ts, atLine)) <==> MenusFollow(cls, ts) || (atLine && MenuLines(cls, ts))
    decreases |ts|
  {
    hide *;
    if ts == [] {
      RemoveNothing(cls, atLine);
      NothingIsSpace(cls);
      TailOfSpace(cls, []);
    } else if atLine && MatchLen(cls, MenuDefault, ts).Some? {
      CutSpace(cls, ts);
      var n := MatchLen(cls, MenuDefault, ts).value;
      RemoveCut(cls, ts);
      RemovedToSpace(cls, ts[n..], ts[n - 1] == NL);
    } else {
      RemoveStep(cls, ts, atLine);
      RemovedToSpace(cls, ts[1..], ts[0] == NL);
      AllSpaceCons(cls, ts[0], RemoveMenuDefault(cls, ts[1..], ts[0] == NL));
      if atLine && MenuLines(cls, ts) {
        LinesMatch(cls, ts);
      }
      if ts[0] == NL {
        FeedFirst(cls, ts);
        FeedIsSpace(cls);
        if MenusFollow(cls, ts) {
          TailGoesOn(cls, ts, 0);
        }
        if MenusFollow(cls, ts[1..]) || MenuLines(cls, ts[1..]) {
          TailGoesBack(cls, ts, 0);
        }
      } else {
        TailAfterOther(cls, ts);
      }
    }
  }

  // ----- the first label and what is left behind it

  lemma {:induction false} FindSkip(cls: Classes, ts: seq<Token>, atLine: bool, i: nat, n: nat)
    requires FindFirst(cls, LabelLine, ts, atLine) == Some(i) && 0 < n <= i
    ensures n <= |ts| && FindFirst(cls, LabelLine, ts[n..], ts[n - 1] == NL) == Some(i - n)
  {
    hide MatchLen;
    if n > 1 {
      FindSkip(cls, ts[1..], ts[0] == NL, i - 1, n - 1);
      assert ts[1..][n - 1..] == ts[n..] && ts[1..][n - 2] == ts[n - 1];
    }
  }

  lemma FoundStarts(cls: Classes, ts: seq<Token>, atLine: bool, i: nat)
    requires FindFirst(cls, LabelLine, ts, atLine) == Some(i)
    ensures i < |ts| && ts[i] == Word("label") && MatchLen(cls, LabelLine, ts[i..]).Some?
  {
    assert ts[i..][0] == ts[i];
  }

  lemma LabelMatchIs(cls: Classes, more: seq<Token>)
    ensures MatchLen(cls, LabelLine, [Word("label")] + more).Some? <==> 0 < Spaces(cls, more) < |more|
  {
    assert ([Word("label")] + more)[1..] == more;
    hide Spaces, NonSpaces;
  }

  lemma SpacesAll(cls: Classes, ts: seq<Token>)
    ensures Spaces(cls, ts) == |ts| <==> AllSpace(cls, ts)
  {
    if AllSpace(cls, ts) {
      SpacesOf(cls, ts, |ts|);
    }
    if Spaces(cls, ts) == |ts| {
      SpacesThrough(cls, ts, |ts|);
      assert ts[..|ts|] == ts;
    }
  }

  lemma SpacesSome(cls: Classes, ts: seq<Token>)
    ensures Spaces(cls, ts) > 0 <==> ts != [] && SpaceToken(cls, ts[0])
  {
  }

  lemma SpaceHasNoWord(cls: Classes, ts: seq<Token>, w: string)
    requires AllSpace(cls, ts)
    ensures Word(w) !in ts
  {
  }

  // A label whose line is left with white space only is not found again.
  lemma LabelLeft(cls: Classes, more: seq<Token>)
    requires more != [] && SpaceToken(cls, more[0])
    ensures FindFirst(cls, LabelLine, [Word("label")] + more, true).None? <==> AllSpace(cls, more)
  {
    LabelMatchIs(cls, more);
    SpacesAll(cls, more);
    SpacesSome(cls, more);
    var ts := [Word("label")] + more;
    assert ts[1..] == more;
    if AllSpace(cls, more) {
      SpaceHasNoWord(cls, more, "label");
      hide MatchLen, AllSpace;
      FindNeedsKey(cls, LabelLine, more, false);
      FirstStep(cls, LabelLine, ts, true);
    } else {
      hide MatchLen;
    }
  }

  lemma CutEnds(cls: Classes, ts: seq<Token>)
    requires Sensible(cls) && MatchLen(cls, MenuDefault, ts).Some?
    ensures var n := MatchLen(cls, MenuDefault, ts).value;
      0 < n <= |ts| && (n == |ts| || ts[n - 1] == NL)
  {
    hide *;
    var m, d := MatchIsPair(cls, ts);
    PairMatches(cls, ts, m, d);
    PairBound(cls, ts, m, d);
    var u := ts[d + 1..];
    Plus1Is(d + 1, EolTokens(cls, u));
    RestEnds(cls, u);
    var r := EolTokens(cls, u).value;
    if r < |u| || !AllSpace(cls, u) {
      FeedParts(cls, u, r - 1);
      assert u[r - 1] == ts[d + 1 + r - 1];
    }
  }

  lemma NotFirst(cls: Classes, ts: seq<Token>, atLine: bool, i: nat)
    requires FindFirst(cls, LabelLine, ts, atLine) == Some(i)
    ensures i == 0 ==> atLine
    ensures i > 0 ==> !(atLine && MatchLen(cls, LabelLine, ts).Some?)
  {
    hide MatchLen;
  }

  lemma LabelNeedsWord(cls: Classes, ts: seq<Token>)
    requires MatchLen(cls, LabelLine, ts).Some?
    ensures ts != [] && ts[0] == Word("label")
  {
  }

  // Removal keeps the first token of a text that does not start a line.
  lemma FirstStays(cls: Classes, ts: seq<Token>)
    requires ts != []
    ensures RemoveMenuDefault(cls, ts, false) != [] && RemoveMenuDefault(cls, ts, false)[0] == ts[0]
  {
    hide *;
    RemoveStep(cls, ts, false);
  }

  // Removal makes no label of one that had no name to begin with.
  lemma NoneMade(cls: Classes, ts: seq<Token>, i: nat)
    requires 0 < i < |ts| && ts[i] == Word("label") && MatchLen(cls, LabelLine, ts).None?
    ensures MatchLen(cls, LabelLine, [ts[0]] + RemoveMenuDefault(cls, ts[1..], ts[0] == NL)).None?
  {
    hide *;
    var more, left := ts[1..], RemoveMenuDefault(cls, ts[1..], ts[0] == NL);
    var after := [ts[0]] + left;
    assert more[i - 1] == ts[i] && [ts[0]] + more == ts;
    if MatchLen(cls, LabelLine, after).Some? {
      LabelNeedsWord(cls, after);
      FeedIsNoLabel();
      LabelMatchIs(cls, more);
      LabelMatchIs(cls, left);
      if AllSpace(cls, more) {
        SpaceHasNoWord(cls, more, "label");
      }
      SpacesAll(cls, more);
      SpacesSome(cls, more);
      SpacesSome(cls, left);
      FirstStays(cls, more);
      assert false;
    }
  }

  lemma LabelStep(cls: Classes, ts: seq<Token>, atLine: bool, i: nat)
    requires FindFirst(cls, LabelLine, ts, atLine) == Some(i) && i > 0
    requires RemoveMenuDefault(cls, ts, atLine) == [ts[0]] + RemoveMenuDefault(cls, ts[1..], ts[0] == NL)
    ensures FindFirst(cls, LabelLine, RemoveMenuDefault(cls, ts, atLine), atLine).None?
       <==> FindFirst(cls, LabelLine, RemoveMenuDefault(cls, ts[1..], ts[0] == NL), ts[0] == NL).None?
  {
    hide *;
    FoundStarts(cls, ts, atLine, i);
    NotFirst(cls, ts, atLine, i);
    var left := RemoveMenuDefault(cls, ts[1..], ts[0] == NL);
    var after := [ts[0]] + left;
    if atLine {
      NoneMade(cls, ts, i);
    }
    FirstStep(cls, LabelLine, after, atLine);
    Plus1Is(1, FindFirst(cls, LabelLine, after[1..], ts[0] == NL));
    assert after[1..] == left;
  }

  // The label that is found first is gone after the removal exactly when white
  // space only is left behind it.
  lemma {:induction false} LabelGoneIff(cls: Classes, ts: seq<Token>, atLine: bool, i: nat)
    requires Sensible(cls) && Key(cls, "label") && FindFirst(cls, LabelLine, ts, atLine) == Some(i)
    ensures i < |ts|
    ensures FindFirst(cls, LabelLine, RemoveMenuDefault(cls, ts, atLine), atLine).None?
       <==> AllSpace(cls, RemoveMenuDefault(cls, ts[i + 1..], false))
    decreases |ts|
  {
    hide *;
    FoundStarts(cls, ts, atLine, i);
    if atLine && MatchLen(cls, MenuDefault, ts).Some? {
      var m := MatchLen(cls, MenuDefault, ts).value;
      MenuCut(cls, ts, i);
      CutEnds(cls, ts);
      RemoveCut(cls, ts);
      FindSkip(cls, ts, atLine, i, m);
      LabelGoneIff(cls, ts[m..], true, i - m);
      Drop(ts, m, i - m + 1);
    } else if i == 0 {
      NotFirst(cls, ts, atLine, 0);
      RemoveStep(cls, ts, atLine);
      FeedIsNoLabel();
      var more := ts[1..];
      assert ts[0..] == ts && ts == [Word("label")] + more;
      LabelMatchIs(cls, more);
      SpacesSome(cls, more);
      FirstStays(cls, more);
      LabelLeft(cls, RemoveMenuDefault(cls, more, false));
    } else {
      RemoveStep(cls, ts, atLine);
      FindSkip(cls, ts, atLine, i, 1);
      LabelGoneIff(cls, ts[1..], ts[0] == NL, i - 1);
      Drop(ts, 1, i);
      LabelStep(cls, ts, atLine, i);
    }
  }

  // ----- on texts

  const LABEL := "label"

  // Behind the first `label` that has a name, the text is white space and
  // `menu default` pairs: each `menu` with nothing but blanks and tabs before it
  // on its line, each `default` the last word on its line.
  ghost predicate OnlyMenuDefaults(cls: Classes, text: string) {
    match FindText(cls, LabelLine, text, true)
    case None => false
    case Some(i) => i + |LABEL| <= |text| && MenusFollow(cls, Tokens(cls, text[i + |LABEL|..]))
  }

  lemma OnlyMenuDefaultsIs(cls: Classes, text: string, i: nat)
    requires FindText(cls, LabelLine, text, true) == Some(i) && i + 5 <= |text|
    ensures OnlyMenuDefaults(cls, text) <==> MenusFollow(cls, Tokens(cls, text[i + 5..]))
  {
    hide MenusFollow, Tokens, FindText;
  }

  lemma BehindLabel(cls: Classes, text: string, i: nat, k: nat)
    requires Sensible(cls) && Aligned(cls, text, i, k) && k < |Tokens(cls, text)| && Tokens(cls, text)[k] == Word("label")
    ensures i + 5 <= |text| && Tokens(cls, text[i + 5..]) == Tokens(cls, text)[k + 1..]
  {
    hide *;
    AlignedBound(cls, text, i, k);
    var ts, rest := Tokens(cls, text), text[i..];
    assert Tokens(cls, rest)[0] == ts[k];
    WordsAreLabels(cls);
    WordHead(cls, "label", rest);
    AlignedStep(cls, text, i, k, 5, 1);
    AlignedBound(cls, text, i + 5, k + 1);
  }

  // `rewrite_isolinux` fails the assertion after its edits exactly on the texts
  // that hold no marker and nothing but `menu default` lines behind their first
  // label.
  lemma KeywordLostTextIff(cls: Classes, text: string, volid: string, network: bool)
    requires Sensible(cls) && LettersAreNoDigits(cls)
    ensures RewriteCfg(cls, Isolinux, text, volid, network) == Err(KeywordLost)
       <==> !Contains(text, MARKER) && OnlyMenuDefaults(cls, text)
  {
    hide *;
    if Contains(text, MARKER) {
      MarkedStays(cls, Isolinux, text, volid, network);
    } else {
      var ts, entry := Tokens(cls, text), Tokens(cls, EntryText(Isolinux, volid, network));
      RewriteIs(cls, Isolinux, text, volid, network);
      KeywordLostIff(cls, ts, entry);
      WrittenRelabels(RewriteTokens(cls, Isolinux, ts, entry), "", "");
      FindAgrees(cls, LabelLine, text, true);
      var i, k := FindText(cls, LabelLine, text, true), FindFirst(cls, LabelLine, ts, true);
      AgreeParts(cls, text, i, k);
      if k.None? {
        NoLabelText(cls, text);
      } else {
        FoundStarts(cls, ts, true, k.value);
        BehindLabel(cls, text, i.value, k.value);
        OnlyMenuDefaultsIs(cls, text, i.value);
        KeysAreKeys(cls);
        LabelGoneIff(cls, ts, true, k.value);
        RemovedToSpace(cls, ts[k.value + 1..], false);
      }
    }
  }

  lemma NoLabelText(cls: Classes, text: string)
    requires FindText(cls, LabelLine, text, true).None?
    ensures !OnlyMenuDefaults(cls, text)
  {
    hide MenusFollow, Tokens, FindText;
  }
}
