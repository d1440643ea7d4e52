/** The entry keyword found before the edits is still there after them: always
    for grub, and for isolinux whenever a label has its name on its own line. */
module KeywordKept {
  import opened Prelude
  import opened Relabel
  import opened Bootloader
  import opened BootTokens
  import opened BootAgree
  import opened BootRewrite
  import opened Rebuild
  import opened RebuildLaw
  import opened RebuildIff

  // A line that starts with the keyword: n tokens that the pattern needs, none
  // of them a line feed before the last.
  predicate Anchored(cls: Classes, kind: Kind, ts: seq<Token>, atLine: bool, i: nat, n: nat) {
    && 1 < n && i + n <= |ts|
    && (if i == 0 then atLine else ts[i - 1] == NL)
    && ts[i] == Word(KeywordOf(kind))
    && Window(cls, kind, ts[i..i + n])
  }

  predicate Window(cls: Classes, kind: Kind, w: seq<Token>)
    requires |w| > 1
  {
    && (forall k | 0 <= k < |w| - 1 :: w[k] != NL)
    && (if kind == Isolinux then
          (forall k | 1 <= k < |w| - 1 :: SpaceToken(cls, w[k])) && |w| > 2 && !SpaceToken(cls, w[|w| - 1])
        else |w| == 2 && SpaceToken(cls, w[1]))
  }

  lemma {:induction false} SpacesOf(cls: Classes, ts: seq<Token>, k: nat)
    requires k <= |ts| && forall j | 0 <= j < k :: SpaceToken(cls, ts[j])
    ensures Spaces(cls, ts) >= k
    ensures k < |ts| && !SpaceToken(cls, ts[k]) ==> Spaces(cls, ts) == k
  {
    if k > 0 {
      SpacesOf(cls, ts[1..], k - 1);
    }
  }

  lemma AnchoredMatches(cls: Classes, kind: Kind, ts: seq<Token>, atLine: bool, i: nat, n: nat)
    requires Anchored(cls, kind, ts, atLine, i, n)
    ensures FindFirst(cls, Keyword(kind), ts, atLine).Some?
  {
    var us, w := ts[i..], ts[i..i + n];
    assert forall k | 0 <= k < n :: us[k] == w[k];
    assert forall k | 0 <= k < n - 1 :: us[1..][k] == w[k + 1];
    if kind == Isolinux {
      assert forall k | 0 <= k < n - 2 :: us[1..][k] == w[k + 1];
      SpacesOf(cls, us[1..], n - 2);
    } else {
      SpacesOf(cls, us[1..], 1);
    }
    FoundByLine(cls, Keyword(kind), ts, atLine, i);
  }

  // ----- no edit reaches over the start of a keyword line

  lemma {:induction false} SpacesAreSpaces(cls: Classes, ts: seq<Token>, k: nat)
    requires k < Spaces(cls, ts)
    ensures SpaceToken(cls, ts[k])
  {
    if k > 0 {
      SpacesAreSpaces(cls, ts[1..], k - 1);
      assert ts[1..][k - 1] == ts[k];
    }
  }

  lemma {:induction false} NoFeedInLine(ts: seq<Token>, k: nat)
    requires k < LineLen(ts)
    ensures ts[k] != NL
  {
    if k > 0 {
      NoFeedInLine(ts[1..], k - 1);
      assert ts[1..][k - 1] == ts[k];
    }
  }

  lemma NoFeedFrom(ts: seq<Token>, from: nat, k: nat)
    requires from <= |ts| && from <= k < from + LineLen(ts[from..])
    ensures ts[k] != NL
  {
    NoFeedInLine(ts[from..], k - from);
    assert ts[from..][k - from] == ts[k];
  }

  lemma {:induction false} BlanksAreBlank(ts: seq<Token>, k: nat)
    requires k < Blanks(ts)
    ensures ts[k].Other? && ts[k] != NL
  {
    if k > 0 {
      BlanksAreBlank(ts[1..], k - 1);
      assert ts[1..][k - 1] == ts[k];
    }
  }

  lemma InWordSpace(cls: Classes, word: string, ts: seq<Token>, d: nat)
    requires WordSpace(cls, word, ts).Some? && 0 < d < WordSpace(cls, word, ts).value
    ensures ts[d].Other?
  {
    SpacesAreSpaces(cls, ts[1..], d - 1);
    assert ts[1..][d - 1] == ts[d];
  }

  lemma InToEol(cls: Classes, ts: seq<Token>, from: nat, d: nat)
    requires from <= d && from <= |ts| && SpaceToEol(cls, ts[from..]).Some? && d < from + SpaceToEol(cls, ts[from..]).value
    ensures ts[d].Other?
  {
    var us := ts[from..];
    EolInSpaces(cls, us);
    SpacesAreSpaces(cls, us, d - from);
    assert us[d - from] == ts[d];
  }

  lemma EolInSpaces(cls: Classes, ts: seq<Token>)
    requires SpaceToEol(cls, ts).Some?
    ensures SpaceToEol(cls, ts).value <= Spaces(cls, ts)
  {
  }

  // ----- inside a match, what follows a line feed is no keyword

  predicate Key(cls: Classes, key: string) {
    (key == "label" || key == "menuentry") && !AllDigits(cls, key)
  }

  lemma TimeoutAvoids(cls: Classes, ts: seq<Token>, d: nat, key: string)
    requires MatchTimeout(cls, ts).Some? && 0 < d < MatchTimeout(cls, ts).value && Key(cls, key)
    ensures ts[d] != Word(key)
  {
    hide WordSpace, SpaceToEol;
    var k := WordSpace(cls, "timeout", ts).value;
    if d < k {
      InWordSpace(cls, "timeout", ts, d);
    } else if d > k {
      InToEol(cls, ts, k + 1, d);
    }
  }

  lemma SetTimeoutAvoids(cls: Classes, ts: seq<Token>, d: nat, key: string)
    requires MatchSetTimeout(cls, ts).Some? && 0 < d < MatchSetTimeout(cls, ts).value && Key(cls, key)
    ensures ts[d] != Word(key)
  {
    hide WordSpace, SpaceToEol;
    var k := WordSpace(cls, "set", ts).value;
    if d < k {
      InWordSpace(cls, "set", ts, d);
    } else if d > k + 2 {
      InToEol(cls, ts, k + 3, d);
    } else {
      assert |"timeout"| == 7;
    }
  }

  lemma SetDefaultAvoids(cls: Classes, ts: seq<Token>, d: nat, key: string)
    requires MatchSetDefault(cls, ts).Some? && 0 < d < MatchSetDefault(cls, ts).value && Key(cls, key)
    requires ts[d - 1] == NL
    ensures ts[d] != Word(key)
  {
    hide WordSpace, LineLen;
    var k := WordSpace(cls, "set", ts).value;
    if d < k {
      InWordSpace(cls, "set", ts, d);
    } else if d > k + 2 {
      NoFeedFrom(ts, k + 2, d - 1);
    } else {
      assert |"default"| == 7;
    }
  }

  lemma MenuAvoids(cls: Classes, ts: seq<Token>, d: nat, key: string)
    requires MatchMenu(cls, ts).Some? && d < MatchMenu(cls, ts).value && Key(cls, key)
    ensures ts[d] != Word(key)
  {
    hide SpaceToEol;
    var k := WordSpace(cls, "menu", ts).value;
    assert |"menu"| == 4 && |"default"| == 7 && |"label"| == 5;
    if 0 < d < k {
      InWordSpace(cls, "menu", ts, d);
    } else if d > k {
      hide WordSpace;
      var j := SpaceToEol(cls, ts[k + 1..]).value;
      if d < k + 1 + j {
        InToEol(cls, ts, k + 1, d);
      }
    }
  }

  lemma MenuDefaultAvoids(cls: Classes, ts: seq<Token>, d: nat, key: string)
    requires MatchMenuDefault(cls, ts).Some? && d < MatchMenuDefault(cls, ts).value && Key(cls, key)
    ensures ts[d] != Word(key)
  {
    hide MatchMenu;
    var b := Blanks(ts);
    if d < b {
      BlanksAreBlank(ts, d);
    } else {
      MenuAvoids(cls, ts[b..], d - b, key);
      assert ts[b..][d - b] == ts[d];
    }
  }

  lemma MatchAvoids(cls: Classes, p: Pattern, ts: seq<Token>, d: nat, key: string)
    requires p == TimeoutLine || p == SetTimeout || p == SetDefault
    requires MatchLen(cls, p, ts).Some? && d < MatchLen(cls, p, ts).value && Key(cls, key)
    requires d > 0 ==> ts[d - 1] == NL
    ensures ts[d] != Word(key)
  {
    hide MatchTimeout, MatchSetTimeout, MatchSetDefault;
    if d == 0 {
      StartsOtherwise(cls, p, ts, key);
    } else {
      match p
      case TimeoutLine => TimeoutAvoids(cls, ts, d, key);
      case SetTimeout => SetTimeoutAvoids(cls, ts, d, key);
      case SetDefault => SetDefaultAvoids(cls, ts, d, key);
    }
  }

  lemma StartsOtherwise(cls: Classes, p: Pattern, ts: seq<Token>, key: string)
    requires p == TimeoutLine || p == SetTimeout || p == SetDefault
    requires MatchLen(cls, p, ts).Some? && Key(cls, key)
    ensures ts[0] != Word(key)
  {
    assert |"timeout"| == 7 && |"set"| == 3;
  }

  // ----- the edits keep a keyword line

  lemma AnchoredShift(cls: Classes, kind: Kind, ts: seq<Token>, atLine: bool, i: nat, n: nat,
                      us: seq<Token>, atLine': bool, j: nat)
    requires Anchored(cls, kind, ts, atLine, i, n) && j + n <= |us| && us[j..j + n] == ts[i..i + n]
    requires if j == 0 then atLine' else us[j - 1] == NL
    ensures Anchored(cls, kind, us, atLine', j, n)
  {
    hide Window;
    assert us[j] == us[j..j + n][0] && ts[i] == ts[i..i + n][0];
  }

  lemma AnchoredParts(cls: Classes, kind: Kind, ts: seq<Token>, atLine: bool, i: nat, n: nat)
    requires Anchored(cls, kind, ts, atLine, i, n)
    ensures 1 < n && i + n <= |ts| && ts[i] == Word(KeywordOf(kind)) && (if i == 0 then atLine else ts[i - 1] == NL)
    ensures forall k | i <= k < i + n - 1 :: ts[k] != NL
  {
    forall k | i <= k < i + n - 1
      ensures ts[k] != NL
    {
      assert ts[i..i + n][k - i] == ts[k];
    }
  }

  // Text cut out before or after a line leaves it whole.
  lemma KeptAfter(cls: Classes, kind: Kind, ts: seq<Token>, i: nat, n: nat, front: seq<Token>, e: nat)
    requires Anchored(cls, kind, ts, true, i, n) && e <= i
    requires if e < i then true else front == [] || front[|front| - 1] == NL
    ensures Anchored(cls, kind, front + ts[e..], true, |front| + i - e, n)
  {
    AnchoredParts(cls, kind, ts, true, i, n);
    hide Anchored;
    var us, j := front + ts[e..], |front| + i - e;
    assert us[j..j + n] == ts[i..i + n];
    assert j > 0 && e < i ==> us[j - 1] == ts[i - 1];
    AnchoredShift(cls, kind, ts, true, i, n, us, true, j);
  }

  lemma KeptBefore(cls: Classes, kind: Kind, ts: seq<Token>, i: nat, n: nat, m: nat, back: seq<Token>)
    requires Anchored(cls, kind, ts, true, i, n) && i + n <= m <= |ts|
    ensures Anchored(cls, kind, ts[..m] + back, true, i, n)
  {
    AnchoredParts(cls, kind, ts, true, i, n);
    hide Anchored;
    var us := ts[..m] + back;
    assert us[i..i + n] == ts[i..i + n];
    AnchoredShift(cls, kind, ts, true, i, n, us, true, i);
  }

  lemma CutAround(cls: Classes, kind: Kind, ts: seq<Token>, i: nat, n: nat, m: nat, e: nat, line: seq<Token>) returns (j: nat)
    requires Anchored(cls, kind, ts, true, i, n) && m <= e <= |ts| && (i < m ==> i + n <= m) && (m <= i ==> e < i)
    ensures Anchored(cls, kind, ts[..m] + line + ts[e..], true, j, n)
  {
    hide *;
    if i < m {
      j := i;
      KeptBefore(cls, kind, ts, i, n, m, line + ts[e..]);
      assert ts[..m] + (line + ts[e..]) == ts[..m] + line + ts[e..];
    } else {
      j := |ts[..m] + line| + i - e;
      KeptAfter(cls, kind, ts, i, n, ts[..m] + line, e);
    }
  }

  lemma LineAdded(cls: Classes, kind: Kind, ts: seq<Token>, i: nat, n: nat, line: seq<Token>) returns (j: nat)
    requires Anchored(cls, kind, ts, true, i, n)
    ensures Anchored(cls, kind, line + [NL] + ts, true, j, n)
  {
    hide *;
    j := |line + [NL]| + i - 0;
    assert ts[0..] == ts;
    KeptAfter(cls, kind, ts, i, n, line + [NL], 0);
  }

  // Where the line that is replaced lies.
  lemma FoundApart(cls: Classes, kind: Kind, p: Pattern, ts: seq<Token>, i: nat, n: nat)
    requires p == TimeoutLine || p == SetTimeout || p == SetDefault
    requires Anchored(cls, kind, ts, true, i, n) && Key(cls, KeywordOf(kind)) && FindFirst(cls, p, ts, true).Some?
    ensures var m := FindFirst(cls, p, ts, true).value;
      (i < m ==> i + n <= m) && (m <= i ==> m + MatchLen(cls, p, ts[m..]).value < i)
  {
    AnchoredParts(cls, kind, ts, true, i, n);
    hide *;
    var m := FindFirst(cls, p, ts, true).value;
    if m <= i {
      Beyond(cls, p, ts, m, i, KeywordOf(kind));
    }
  }

  lemma SetLineKeeps(cls: Classes, kind: Kind, p: Pattern, ts: seq<Token>, line: seq<Token>, i: nat, n: nat) returns (j: nat)
    requires p == TimeoutLine || p == SetTimeout || p == SetDefault
    requires Anchored(cls, kind, ts, true, i, n) && Key(cls, KeywordOf(kind))
    ensures Anchored(cls, kind, SetLine(cls, p, ts, line), true, j, n)
  {
    hide *;
    SetLineIs(cls, p, ts, line);
    if FindFirst(cls, p, ts, true).None? {
      j := LineAdded(cls, kind, ts, i, n, line);
    } else {
      var m := FindFirst(cls, p, ts, true).value;
      FoundApart(cls, kind, p, ts, i, n);
      j := CutAround(cls, kind, ts, i, n, m, m + MatchLen(cls, p, ts[m..]).value, line);
    }
  }

  // A line edit ends before the keyword line that starts after it.
  lemma Beyond(cls: Classes, p: Pattern, ts: seq<Token>, m: nat, i: nat, key: string)
    requires p == TimeoutLine || p == SetTimeout || p == SetDefault
    requires m <= i < |ts| && ts[i] == Word(key) && Key(cls, key) && (i > 0 ==> ts[i - 1] == NL)
    requires MatchLen(cls, p, ts[m..]).Some?
    ensures i > m + MatchLen(cls, p, ts[m..]).value
  {
    var rest := ts[m..];
    assert rest[i - m] == ts[i] && (i > m ==> rest[i - m - 1] == ts[i - 1]);
    hide MatchLen;
    if i - m < MatchLen(cls, p, rest).value {
      MatchAvoids(cls, p, rest, i - m, key);
    }
  }

  // What follows on a line that is not at its start stays.
  lemma {:induction false} RestOfLineStays(cls: Classes, ts: seq<Token>, n: nat)
    requires n <= |ts| && forall k | 0 <= k < n - 1 :: ts[k] != NL
    ensures |RemoveMenuDefault(cls, ts, false)| >= n && RemoveMenuDefault(cls, ts, false)[..n] == ts[..n]
  {
    hide MatchLen;
    if n > 0 {
      if n > 1 {
        RestOfLineStays(cls, ts[1..], n - 1);
      }
      var rest := RemoveMenuDefault(cls, ts[1..], ts[0] == NL);
      if n > 1 {
        assert rest[..n - 1] == ts[1..][..n - 1];
      }
      assert ([ts[0]] + rest)[..n] == [ts[0]] + rest[..n - 1];
      assert ts[..n] == [ts[0]] + ts[1..][..n - 1];
    }
  }

  lemma AnchoredFrom(cls: Classes, kind: Kind, ts: seq<Token>, atLine: bool, i: nat, n: nat, m: nat)
    requires Anchored(cls, kind, ts, atLine, i, n) && 0 < m <= i
    ensures Anchored(cls, kind, ts[m..], ts[m - 1] == NL, i - m, n)
  {
    AnchoredParts(cls, kind, ts, atLine, i, n);
    hide Anchored;
    var us := ts[m..];
    assert us[i - m..i - m + n] == ts[i..i + n];
    assert i > m ==> us[i - m - 1] == ts[i - 1];
    AnchoredShift(cls, kind, ts, atLine, i, n, us, ts[m - 1] == NL, i - m);
  }

  lemma AnchoredOnto(cls: Classes, kind: Kind, t: Token, rest: seq<Token>, atLine: bool, j: nat, n: nat)
    requires Anchored(cls, kind, rest, t == NL, j, n)
    ensures Anchored(cls, kind, [t] + rest, atLine, j + 1, n)
  {
    AnchoredParts(cls, kind, rest, t == NL, j, n);
    hide Anchored;
    var us := [t] + rest;
    assert us[j + 1..j + 1 + n] == rest[j..j + n];
    AnchoredShift(cls, kind, rest, t == NL, j, n, us, atLine, j + 1);
  }

  lemma HeadPlus(t: Token, a: seq<Token>, b: seq<Token>, n: nat)
    requires 0 < n <= |a| + 1 && n <= |b| + 1 && a[..n - 1] == b[..n - 1]
    ensures ([t] + a)[0..n] == ([t] + b)[0..n]
  {
    assert ([t] + a)[0..n] == [t] + a[..n - 1];
    assert ([t] + b)[0..n] == [t] + b[..n - 1];
  }

  lemma HeadSame(cls: Classes, ts: seq<Token>, n: nat)
    requires 1 < n <= |ts| && forall k | 0 <= k < n - 1 :: ts[k] != NL
    ensures var us := [ts[0]] + RemoveMenuDefault(cls, ts[1..], false);
      n <= |us| && us[0..0 + n] == ts[0..0 + n]
  {
    hide *;
    var tail := ts[1..];
    assert forall k | 0 <= k < n - 2 :: tail[k] == ts[k + 1];
    RestOfLineStays(cls, tail, n - 1);
    HeadPlus(ts[0], RemoveMenuDefault(cls, tail, false), tail, n);
    assert [ts[0]] + tail == ts;
  }

  lemma HeadLineStays(cls: Classes, ts: seq<Token>, atLine: bool, n: nat)
    requires Anchored(cls, Isolinux, ts, atLine, 0, n)
    requires RemoveMenuDefault(cls, ts, atLine) == [ts[0]] + RemoveMenuDefault(cls, ts[1..], ts[0] == NL)
    ensures Anchored(cls, Isolinux, RemoveMenuDefault(cls, ts, atLine), atLine, 0, n)
  {
    hide *;
    AnchoredParts(cls, Isolinux, ts, atLine, 0, n);
    assert ts[0] != NL;
    HeadSame(cls, ts, n);
    AnchoredShift(cls, Isolinux, ts, atLine, 0, n, RemoveMenuDefault(cls, ts, atLine), atLine, 0);
  }

  lemma Reflag(cls: Classes, us: seq<Token>, atLine: bool, j: nat, n: nat)
    requires Anchored(cls, Isolinux, us, atLine, j, n)
    ensures Anchored(cls, Isolinux, us, true, j, n)
  {
    hide Window;
  }

  lemma CutKeeps(cls: Classes, ts: seq<Token>, j: nat, n: nat)
    requires ts != [] && MatchLen(cls, MenuDefault, ts).Some?
    requires var m := MatchLen(cls, MenuDefault, ts).value;
      0 < m <= |ts| && Anchored(cls, Isolinux, RemoveMenuDefault(cls, ts[m..], ts[m - 1] == NL), ts[m - 1] == NL, j, n)
    ensures Anchored(cls, Isolinux, RemoveMenuDefault(cls, ts, true), true, j, n)
  {
    hide *;
    RemoveCut(cls, ts);
    Reflag(cls, RemoveMenuDefault(cls, ts, true), ts[MatchLen(cls, MenuDefault, ts).value - 1] == NL, j, n);
  }

  lemma StepKeeps(cls: Classes, ts: seq<Token>, atLine: bool, j: nat, n: nat)
    requires ts != [] && !(atLine && MatchLen(cls, MenuDefault, ts).Some?)
    requires Anchored(cls, Isolinux, RemoveMenuDefault(cls, ts[1..], ts[0] == NL), ts[0] == NL, j, n)
    ensures Anchored(cls, Isolinux, RemoveMenuDefault(cls, ts, atLine), atLine, j + 1, n)
  {
    hide *;
    RemoveStep(cls, ts, atLine);
    AnchoredOnto(cls, Isolinux, ts[0], RemoveMenuDefault(cls, ts[1..], ts[0] == NL), atLine, j, n);
  }

  lemma {:induction false} RemoveKeeps(cls: Classes, ts: seq<Token>, atLine: bool, i: nat, n: nat) returns (j: nat)
    requires Anchored(cls, Isolinux, ts, atLine, i, n) && Key(cls, "label")
    ensures Anchored(cls, Isolinux, RemoveMenuDefault(cls, ts, atLine), atLine, j, n)
    decreases |ts|
  {
    AnchoredParts(cls, Isolinux, ts, atLine, i, n);
    assert ts[i] == Word("label");
    hide *;
    if atLine && MatchLen(cls, MenuDefault, ts).Some? {
      var m := MatchLen(cls, MenuDefault, ts).value;
      RemoveCut(cls, ts);
      MenuCut(cls, ts, i);
      AnchoredFrom(cls, Isolinux, ts, atLine, i, n, m);
      j := RemoveKeeps(cls, ts[m..], ts[m - 1] == NL, i - m, n);
      CutKeeps(cls, ts, j, n);
    } else if i == 0 {
      j := 0;
      RemoveStep(cls, ts, atLine);
      HeadLineStays(cls, ts, atLine, n);
    } else {
      AnchoredFrom(cls, Isolinux, ts, atLine, i, n, 1);
      j := RemoveKeeps(cls, ts[1..], ts[0] == NL, i - 1, n);
      StepKeeps(cls, ts, atLine, j, n);
      j := j + 1;
    }
  }

  // A removed line ends before the next keyword line.
  lemma MenuCut(cls: Classes, ts: seq<Token>, i: nat)
    requires MatchLen(cls, MenuDefault, ts).Some? && Key(cls, "label") && i < |ts| && ts[i] == Word("label")
    ensures i >= MatchLen(cls, MenuDefault, ts).value
  {
    if i < MatchLen(cls, MenuDefault, ts).value {
      MenuDefaultAvoids(cls, ts, i, "label");
    }
  }

  // ----- the assertion after the edits

  // "menuentry" at a line start and white space: what makes grub's keyword.
  lemma MenuEntryAnchored(cls: Classes, ts: seq<Token>, kind: Kind) returns (i: nat)
    requires kind != Isolinux && FindFirst(cls, MenuEntry, ts, true).Some?
    ensures Anchored(cls, kind, ts, true, i, 2)
  {
    i := FindFirst(cls, MenuEntry, ts, true).value;
    var us := ts[i..];
    SpacesAreSpaces(cls, us[1..], 0);
    assert us[1..][0] == us[1] == ts[i + 1] && us[0] == ts[i];
  }

  ghost predicate LettersAreNoDigits(cls: Classes) {
    forall c :: 'a' <= c <= 'z' ==> !cls.digit(c)
  }

  lemma KeysAreKeys(cls: Classes)
    requires LettersAreNoDigits(cls)
    ensures Key(cls, "label") && Key(cls, "menuentry")
  {
    assert "label"[0] in "label" && "menuentry"[0] in "menuentry";
  }

  // For grub the assertion after the edits never fails.
  lemma GrubKeepsKeyword(cls: Classes, kind: Kind, ts: seq<Token>, entry: seq<Token>)
    requires kind != Isolinux && LettersAreNoDigits(cls)
    ensures RewriteTokens(cls, kind, ts, entry) != Err(KeywordLost)
  {
    if FindFirst(cls, MenuEntry, ts, true).Some? {
      KeysAreKeys(cls);
      var one := SetLine(cls, SetTimeout, ts, SET_TIMEOUT);
      var two := SetLine(cls, SetDefault, one, SET_DEFAULT);
      assert Edits(cls, kind, ts) == two;
      hide SetLine, FindFirst, SET_TIMEOUT, SET_DEFAULT, Anchored, Key;
      var i := MenuEntryAnchored(cls, ts, kind);
      i := SetLineKeeps(cls, kind, SetTimeout, ts, SET_TIMEOUT, i, 2);
      i := SetLineKeeps(cls, kind, SetDefault, one, SET_DEFAULT, i, 2);
      AnchoredMatches(cls, kind, two, true, i, 2);
    }
  }

  // For isolinux it does not fail when some label has its name on its line.
  lemma NamedLabelKeepsKeyword(cls: Classes, ts: seq<Token>, entry: seq<Token>, i: nat, n: nat)
    requires LettersAreNoDigits(cls) && Anchored(cls, Isolinux, ts, true, i, n)
    ensures RewriteTokens(cls, Isolinux, ts, entry).Ok?
  {
    KeysAreKeys(cls);
    AnchoredMatches(cls, Isolinux, ts, true, i, n);
    var one := RemoveMenuDefault(cls, ts, true);
    var two := SetLine(cls, TimeoutLine, one, TIMEOUT);
    assert Edits(cls, Isolinux, ts) == two;
    hide SetLine, FindFirst, TIMEOUT, RemoveMenuDefault, Anchored, Key;
    var j := RemoveKeeps(cls, ts, true, i, n);
    j := SetLineKeeps(cls, Isolinux, TimeoutLine, one, TIMEOUT, j, n);
    AnchoredMatches(cls, Isolinux, two, true, j, n);
  }

  lemma LoneLabel(cls: Classes)
    requires Sensible(cls)
    ensures FindFirst(cls, LabelLine, [Word("label"), NL], true) == None
  {
    var ts := [Word("label"), NL];
    assert ts[1..] == [NL] && ts[1..][1..] == [];
    assert Spaces(cls, []) == 0;
    assert Spaces(cls, [NL]) == 1;
    assert MatchLabel(cls, ts) == None;
  }

  lemma MenuFound(cls: Classes, ts: seq<Token>)
    requires Sensible(cls) && ts == [Word("menu"), Other(' '), Word("default")]
    ensures MatchMenu(cls, ts) == Some(3)
  {
    OneSpace(cls, [Word("default")]);
    assert ts[1..] == [Other(' ')] + [Word("default")];
    assert WordSpace(cls, "menu", ts) == Some(2);
    hide WordSpace;
    assert ts[3..] == [];
    assert Spaces(cls, []) == 0;
    assert SpaceToEol(cls, []) == Some(0);
  }

  lemma MenuMatches(cls: Classes, ts: seq<Token>)
    requires Sensible(cls) && ts == [Word("menu"), Other(' '), Word("default")]
    ensures MatchLen(cls, MenuDefault, ts) == Some(3)
  {
    MenuFound(cls, ts);
    hide MatchMenu, Sensible;
    assert Blanks(ts) == 0;
    assert ts[0..] == ts;
  }

  lemma LabelFirst(cls: Classes, more: seq<Token>)
    requires Sensible(cls) && more != [] && more[0].Word?
    ensures var ts := [Word("label"), NL] + more;
      FindFirst(cls, LabelLine, ts, true).Some? && MatchLen(cls, MenuDefault, ts) == None
  {
    var ts := [Word("label"), NL] + more;
    assert ts[1..] == [NL] + more && ts[1..][1..] == more && ts[0..] == ts;
    assert Spaces(cls, more) == 0;
    assert Spaces(cls, ts[1..]) == 1;
    assert |"label"| == 5 && |"menu"| == 4;
  }

  lemma LabelAlone(cls: Classes)
    requires Sensible(cls)
    ensures FindFirst(cls, LabelLine, SetLine(cls, TimeoutLine, [Word("label"), NL], TIMEOUT), true) == None
  {
    var lone := [Word("label"), NL];
    assert |"label"| == 5 && |"timeout"| == 7;
    FindNeedsKey(cls, TimeoutLine, lone, true);
    var ts := TIMEOUT + [NL] + lone;
    assert SetLine(cls, TimeoutLine, lone, TIMEOUT) == ts;
    assert ts == [Word("timeout"), Other(' '), Word("50"), NL, Word("label"), NL];
    assert ts[1..] == [Other(' '), Word("50"), NL, Word("label"), NL];
    assert ts[1..][1..] == [Word("50"), NL, Word("label"), NL];
    assert ts[1..][1..][1..] == [NL, Word("label"), NL];
    assert ts[1..][1..][1..][1..] == lone;
    LoneLabel(cls);
  }

  lemma RewriteLoses(cls: Classes, kind: Kind, ts: seq<Token>, entry: seq<Token>)
    requires FindFirst(cls, Keyword(kind), ts, true).Some? && FindFirst(cls, Keyword(kind), Edits(cls, kind, ts), true).None?
    ensures RewriteTokens(cls, kind, ts, entry) == Err(KeywordLost)
  {
    hide FindFirst, Edits;
  }

  lemma IsolinuxEditsAre(cls: Classes, ts: seq<Token>)
    ensures Edits(cls, Isolinux, ts) == SetLine(cls, TimeoutLine, RemoveMenuDefault(cls, ts, true), TIMEOUT)
    ensures Keyword(Isolinux) == LabelLine && RemoveMenuDefault(cls, [], false) == [] && NL == Other('\n')
  {
  }

  // ----- for isolinux: exactly when

  // A label at a line start, white space, and the name.
  predicate Labelled(cls: Classes, ts: seq<Token>, i: nat, k: nat) {
    && i + 1 < k < |ts| && (i == 0 || ts[i - 1] == NL) && ts[i] == Word("label")
    && (forall j | i < j < k :: SpaceToken(cls, ts[j])) && !SpaceToken(cls, ts[k])
  }

  lemma LabelledFound(cls: Classes, ts: seq<Token>, i: nat, k: nat)
    requires Labelled(cls, ts, i, k)
    ensures FindFirst(cls, LabelLine, ts, true).Some?
  {
    var us := ts[i..];
    assert us[0] == ts[i];
    assert forall j | 0 <= j < k - i - 1 :: us[1..][j] == ts[i + 1 + j];
    assert us[1..][k - i - 1] == ts[k];
    SpacesOf(cls, us[1..], k - i - 1);
    FoundByLine(cls, LabelLine, ts, true, i);
  }

  lemma {:induction false} SpacesEnd(cls: Classes, ts: seq<Token>)
    requires Spaces(cls, ts) < |ts|
    ensures !SpaceToken(cls, ts[Spaces(cls, ts)])
  {
    if SpaceToken(cls, ts[0]) {
      SpacesEnd(cls, ts[1..]);
    }
  }

  lemma FoundLabelled(cls: Classes, ts: seq<Token>) returns (i: nat, k: nat)
    requires FindFirst(cls, LabelLine, ts, true).Some?
    ensures Labelled(cls, ts, i, k)
  {
    i := FindFirst(cls, LabelLine, ts, true).value;
    var us := ts[i..];
    var n := Spaces(cls, us[1..]);
    k := i + 1 + n;
    assert us[0] == ts[i];
    forall j | i < j < k
      ensures SpaceToken(cls, ts[j])
    {
      SpacesAreSpaces(cls, us[1..], j - i - 1);
      assert us[1..][j - i - 1] == ts[j];
    }
    SpacesEnd(cls, us[1..]);
    assert us[1..][n] == ts[k];
  }

  lemma LabelledParts(cls: Classes, ts: seq<Token>, i: nat, k: nat)
    requires Labelled(cls, ts, i, k)
    ensures i + 1 < k < |ts| && (i == 0 || ts[i - 1] == NL) && ts[i] == Word("label")
    ensures !SpaceToken(cls, ts[k]) && forall j | i < j < k :: SpaceToken(cls, ts[j])
  {
  }

  lemma LabelledFrom(cls: Classes, ts: seq<Token>, i: nat, k: nat)
    requires i + 1 < k < |ts| && (i == 0 || ts[i - 1] == NL) && ts[i] == Word("label")
    requires !SpaceToken(cls, ts[k]) && forall j | i < j < k :: SpaceToken(cls, ts[j])
    ensures Labelled(cls, ts, i, k)
  {
  }

  // Where the timeout line is: what it starts with and where it ends.
  lemma TimeoutAt(cls: Classes, ts: seq<Token>)
    requires FindFirst(cls, TimeoutLine, ts, true).Some?
    ensures var m := FindFirst(cls, TimeoutLine, ts, true).value;
      var e := m + MatchLen(cls, TimeoutLine, ts[m..]).value;
      && m < e <= |ts| && ts[m] == Word("timeout") && (e == |ts| || ts[e] == NL)
  {
    var m := FindFirst(cls, TimeoutLine, ts, true).value;
    var us := ts[m..];
    var n := MatchLen(cls, TimeoutLine, us).value;
    assert us[0] == ts[m];
    assert n < |us| ==> us[n] == ts[m + n];
  }

  // us is ts with the stretch from m to e replaced by one from m to f. A label
  // line before it ends there at the latest, one after it moves.
  lemma SwapKeeps(cls: Classes, ts: seq<Token>, us: seq<Token>, m: nat, e: nat, f: nat, i: nat, k: nat) returns (i': nat, k': nat)
    requires Labelled(cls, ts, i, k) && m < e <= |ts| && m < f && (m <= i ==> e < i)
    requires ts[m].Word? && |us| == f + |ts| - e && us[m].Word?
    requires forall j | 0 <= j < m :: us[j] == ts[j]
    requires forall j | e <= j < |ts| :: us[f + j - e] == ts[j]
    ensures Labelled(cls, us, i', k')
  {
    LabelledParts(cls, ts, i, k);
    hide Labelled;
    if i < m {
      assert k <= m;
      i', k' := i, k;
      assert forall j | i < j < k :: us[j] == ts[j];
    } else {
      i', k' := i - e + f, k - e + f;
      assert us[i'] == ts[i] && us[k'] == ts[k] && us[i' - 1] == ts[i - 1];
      forall j | i' < j < k'
        ensures SpaceToken(cls, us[j])
      {
        assert us[j] == ts[j - f + e];
      }
    }
    LabelledFrom(cls, us, i', k');
  }

  lemma TimeoutHasNoLabel()
    ensures |TIMEOUT| == 3 && TIMEOUT[0].Word? && forall t :: t in TIMEOUT ==> t != Word("label") && t != NL
  {
    assert |"timeout"| == 7 && |"50"| == 2 && |"label"| == 5;
  }

  lemma SwapIsNeutral(cls: Classes, ts: seq<Token>, m: nat, e: nat)
    requires m < e <= |ts| && ts[m] == Word("timeout") && (e == |ts| || ts[e] == NL)
    requires forall i, k :: Labelled(cls, ts, i, k) && m <= i ==> e < i
    ensures (exists i: nat, k: nat :: Labelled(cls, ts[..m] + TIMEOUT + ts[e..], i, k))
       <==> exists i: nat, k: nat :: Labelled(cls, ts, i, k)
  {
    TimeoutHasNoLabel();
    hide TIMEOUT;
    var us, f := ts[..m] + TIMEOUT + ts[e..], m + 3;
    forall j | m <= j < f
      ensures us[j] != Word("label")
    {
      assert us[j] == TIMEOUT[j - m] && TIMEOUT[j - m] in TIMEOUT;
    }
    assert us[m] == TIMEOUT[0];
    assert forall j | e <= j < |ts| :: us[f + j - e] == ts[j];
    if i: nat, k: nat :| Labelled(cls, ts, i, k) {
      var i', k' := SwapKeeps(cls, ts, us, m, e, f, i, k);
    }
    if i: nat, k: nat :| Labelled(cls, us, i, k) {
      LabelledParts(cls, us, i, k);
      assert e < |ts| ==> us[f] == ts[e];
      hide Labelled;
      var i', k' := SwapKeeps(cls, us, ts, m, f, e, i, k);
    }
  }

  // Text put before a line start neither makes nor loses a label.
  lemma FrontKeeps(cls: Classes, front: seq<Token>, ts: seq<Token>, i: nat, k: nat)
    requires Labelled(cls, ts, i, k) && front != [] && front[|front| - 1] == NL
    ensures Labelled(cls, front + ts, i + |front|, k + |front|)
  {
    LabelledParts(cls, ts, i, k);
    hide *;
    var us, n := front + ts, |front|;
    forall j | i + n < j < k + n
      ensures SpaceToken(cls, us[j])
    {
      assert us[j] == ts[j - n];
    }
    assert us[i + n] == ts[i] && us[k + n] == ts[k] && us[i + n - 1] == if i == 0 then front[n - 1] else ts[i - 1];
    LabelledFrom(cls, us, i + n, k + n);
  }

  lemma InFront(front: seq<Token>, ts: seq<Token>, i: nat)
    ensures i < |front| ==> (front + ts)[i] in front
  {
    assert i < |front| ==> (front + ts)[i] == front[i];
  }

  lemma FrontAddsNone(cls: Classes, front: seq<Token>, ts: seq<Token>, i: nat, k: nat)
    requires Labelled(cls, front + ts, i, k) && Word("label") !in front
    ensures |front| <= i < k && Labelled(cls, ts, i - |front|, k - |front|)
  {
    LabelledParts(cls, front + ts, i, k);
    hide *;
    var us, n := front + ts, |front|;
    InFront(front, ts, i);
    forall j | i - n < j < k - n
      ensures SpaceToken(cls, ts[j])
    {
      assert us[j + n] == ts[j];
    }
    assert us[i] == ts[i - n] && us[k] == ts[k - n] && (i > n ==> us[i - 1] == ts[i - n - 1]);
    LabelledFrom(cls, ts, i - n, k - n);
  }

  lemma PrefixIsNeutral(cls: Classes, ts: seq<Token>)
    ensures (exists i: nat, k: nat :: Labelled(cls, TIMEOUT + [NL] + ts, i, k)) <==> exists i: nat, k: nat :: Labelled(cls, ts, i, k)
  {
    TimeoutHasNoLabel();
    hide *;
    var front := TIMEOUT + [NL];
    if i: nat, k: nat :| Labelled(cls, ts, i, k) {
      FrontKeeps(cls, front, ts, i, k);
      assert Labelled(cls, TIMEOUT + [NL] + ts, i + |front|, k + |front|);
    }
    if i: nat, k: nat :| Labelled(cls, front + ts, i, k) {
      FeedIsNoLabel();
      FrontAddsNone(cls, front, ts, i, k);
      var i', k' := i - |front|, k - |front|;
      assert Labelled(cls, ts, i', k');
    }
  }

  lemma FeedIsNoLabel()
    ensures NL != Word("label")
  {
  }

  lemma FoundIff(cls: Classes, ts: seq<Token>)
    ensures FindFirst(cls, LabelLine, ts, true).Some? <==> exists i: nat, k: nat :: Labelled(cls, ts, i, k)
  {
    hide *;
    if FindFirst(cls, LabelLine, ts, true).Some? {
      var i, k := FoundLabelled(cls, ts);
    }
    if i: nat, k: nat :| Labelled(cls, ts, i, k) {
      LabelledFound(cls, ts, i, k);
    }
  }

  // Setting the timeout neither makes nor loses a label.
  lemma TimeoutIsNeutral(cls: Classes, ts: seq<Token>)
    requires Key(cls, "label")
    ensures FindFirst(cls, LabelLine, SetLine(cls, TimeoutLine, ts, TIMEOUT), true).Some?
       <==> FindFirst(cls, LabelLine, ts, true).Some?
  {
    hide *;
    SetLineIs(cls, TimeoutLine, ts, TIMEOUT);
    FoundIff(cls, ts);
    FoundIff(cls, SetLine(cls, TimeoutLine, ts, TIMEOUT));
    if FindFirst(cls, TimeoutLine, ts, true).None? {
      PrefixIsNeutral(cls, ts);
    } else {
      var m := FindFirst(cls, TimeoutLine, ts, true).value;
      var e := m + MatchLen(cls, TimeoutLine, ts[m..]).value;
      TimeoutAt(cls, ts);
      forall i, k | Labelled(cls, ts, i, k) && m <= i
        ensures e < i
      {
        LabelledParts(cls, ts, i, k);
        Beyond(cls, TimeoutLine, ts, m, i, "label");
      }
      SwapIsNeutral(cls, ts, m, e);
    }
  }

  // The assertion fails exactly when a label was found at first and removing
  // the `menu default` lines leaves none.
  lemma KeywordLostIff(cls: Classes, ts: seq<Token>, entry: seq<Token>)
    requires LettersAreNoDigits(cls)
    ensures RewriteTokens(cls, Isolinux, ts, entry) == Err(KeywordLost) <==>
      FindFirst(cls, LabelLine, ts, true).Some?
      && FindFirst(cls, LabelLine, RemoveMenuDefault(cls, ts, true), true).None?
  {
    hide *;
    KeysAreKeys(cls);
    IsolinuxEditsAre(cls, ts);
    RewriteTokensIs(cls, Isolinux, ts, entry);
    TimeoutIsNeutral(cls, RemoveMenuDefault(cls, ts, true));
    InsertedIs(Edits(cls, Isolinux, ts), entry, FindFirst(cls, LabelLine, Edits(cls, Isolinux, ts), true));
  }

  lemma InsertedIs(s: seq<Token>, entry: seq<Token>, i: Option<nat>)
    ensures i.None? ==> Inserted(s, entry, i) == Err(KeywordLost)
    ensures i.Some? && i.value <= |s| ==> Inserted(s, entry, i).Ok?
  {
  }

  // It does fail on a label whose only "name" is a `menu default` line.
  lemma LabelLost(cls: Classes, entry: seq<Token>)
    requires Sensible(cls)
    ensures RewriteTokens(cls, Isolinux, [Word("label"), NL, Word("menu"), Other(' '), Word("default")], entry)
         == Err(KeywordLost)
  {
    hide *;
    var menu := [Word("menu"), Other(' '), Word("default")];
    var tail := [NL] + menu;
    var ts := [Word("label")] + tail;
    assert ts == [Word("label"), NL] + menu == [Word("label"), NL, Word("menu"), Other(' '), Word("default")];
    assert ts[1..] == tail && tail[1..] == menu && menu[3..] == [];
    IsolinuxEditsAre(cls, ts);
    LabelFirst(cls, menu);
    MenuMatches(cls, menu);
    RemoveCut(cls, menu);
    RemoveStep(cls, tail, false);
    RemoveStep(cls, ts, true);
    assert RemoveMenuDefault(cls, ts, true) == [Word("label"), NL];
    LabelAlone(cls);
    RewriteLoses(cls, Isolinux, ts, entry);
  }

  // ----- the same on texts

  lemma GrubRewriteKeepsKeyword(cls: Classes, kind: Kind, text: string, volid: string, network: bool)
    requires Sensible(cls) && kind != Isolinux && LettersAreNoDigits(cls)
    ensures RewriteCfg(cls, kind, text, volid, network) != Err(KeywordLost)
  {
    hide *;
    if Contains(text, MARKER) {
      MarkedStays(cls, kind, text, volid, network);
    } else {
      var ts, entry := Tokens(cls, text), Tokens(cls, EntryText(kind, volid, network));
      RewriteIs(cls, kind, text, volid, network);
      GrubKeepsKeyword(cls, kind, ts, entry);
      WrittenRelabels(RewriteTokens(cls, kind, ts, entry), "", "");
    }
  }

  lemma LostText(cls: Classes)
    requires Sensible(cls)
    ensures var ts := [Word("label"), NL, Word("menu"), Other(' '), Word("default")];
      Detok(ts) == "label\nmenu default" && Valid(cls, ts) && Other('#') !in ts
  {
    WordsAreLabels(cls);
    var tail := [Word("menu")] + ([Other(' ')] + [Word("default")]);
    assert [Word("label"), NL, Word("menu"), Other(' '), Word("default")] == [Word("label")] + ([NL] + tail);
    TokenThen(Word("label"), [NL] + tail);
    TokenThen(NL, tail);
    TokenThen(Word("menu"), [Other(' ')] + [Word("default")]);
    TokenThen(Other(' '), [Word("default")]);
    OneTokenText(Word("default"));
    LostLiteral();
    hide IsLabel, Detok;
  }

  lemma LostLiteral()
    ensures "label" + ("\n" + ("menu" + (" " + "default"))) == "label\nmenu default"
  {
    assert "menu" + (" " + "default") == "menu default";
    assert "label" + ("\n" + "menu default") == "label\nmenu default";
  }

  // The isolinux.cfg of two lines on which the assertion fails.
  lemma LabelLostText(cls: Classes, volid: string, network: bool)
    requires Sensible(cls)
    ensures RewriteCfg(cls, Isolinux, "label\nmenu default", volid, network) == Err(KeywordLost)
  {
    hide *;
    var text, ts := "label\nmenu default", [Word("label"), NL, Word("menu"), Other(' '), Word("default")];
    LostText(cls);
    TokensDetok(cls, ts);
    NoHashNoMarker(cls, ts);
    RewriteIs(cls, Isolinux, text, volid, network);
    LabelLost(cls, Tokens(cls, EntryText(Isolinux, volid, network)));
    WrittenRelabels(RewriteTokens(cls, Isolinux, ts, Tokens(cls, EntryText(Isolinux, volid, network))), "", "");
  }
}
