/** The token matcher agrees with the regular expressions: what Python's `re`
    finds and replaces in a text is what the matcher does to its tokens. */
module BootAgree {
  import opened Prelude
  import opened Relabel
  import opened Regex
  import opened Bootloader
  import opened BootTokens

  // ----- walking a text and its tokens side by side

  // The first c characters of s are its first k tokens.
  ghost predicate Aligned(cls: Classes, s: string, c: nat, k: nat) {
    c <= |s| && k <= |Tokens(cls, s)| && Tokens(cls, s[c..]) == Tokens(cls, s)[k..]
  }

  lemma AlignedLen(cls: Classes, s: string, c: nat, k: nat)
    requires Aligned(cls, s, c, k)
    ensures Detok(Tokens(cls, s)[..k]) == s[..c]
  {
    hide Tokens, Detok;
    var ts := Tokens(cls, s);
    DetokTokens(cls, s);
    DetokTokens(cls, s[c..]);
    DetokConcat(ts[..k], ts[k..]);
    assert ts == ts[..k] + ts[k..] && s == s[..c] + s[c..];
    var front := Detok(ts[..k]);
    assert front + s[c..] == s[..c] + s[c..];
    assert |front| == |s[..c]|;
    assert front == (front + s[c..])[..|front|];
    assert s[..c] == (s[..c] + s[c..])[..|front|];
  }

  lemma AlignedStep(cls: Classes, s: string, c: nat, k: nat, d: nat, j: nat)
    requires Aligned(cls, s, c, k) && Aligned(cls, s[c..], d, j)
    ensures Aligned(cls, s, c + d, k + j)
  {
    hide Tokens;
    assert s[c..][d..] == s[c + d..];
    assert Tokens(cls, s)[k..][j..] == Tokens(cls, s)[k + j..];
  }

  lemma OtherHead(cls: Classes, s: string)
    requires s != "" && !cls.inLabel(s[0])
    ensures Tokens(cls, s) == [Other(s[0])] + Tokens(cls, s[1..]) && Aligned(cls, s, 1, 1)
  {
  }

  lemma {:induction false} OthersAligned(cls: Classes, s: string, k: nat)
    requires k <= |s| && forall j | 0 <= j < k :: !cls.inLabel(s[j])
    ensures Aligned(cls, s, k, k)
    ensures forall j | 0 <= j < k :: Tokens(cls, s)[j] == Other(s[j])
  {
    hide Tokens;
    if k == 0 {
      assert s[0..] == s && Tokens(cls, s)[0..] == Tokens(cls, s);
    } else {
      OtherHead(cls, s);
      OthersAligned(cls, s[1..], k - 1);
      AlignedStep(cls, s, 1, 1, k - 1, k - 1);
    }
  }

  // s starts with the whole word w.
  predicate WordAt(cls: Classes, w: string, s: string) {
    w <= s && (|s| == |w| || !cls.inLabel(s[|w|]))
  }

  lemma WordHead(cls: Classes, w: string, s: string)
    requires IsLabel(cls, w)
    ensures WordAt(cls, w, s) <==> Tokens(cls, s) != [] && Tokens(cls, s)[0] == Word(w)
    ensures WordAt(cls, w, s) ==> Aligned(cls, s, |w|, 1)
  {
    if WordAt(cls, w, s) {
      var rest := s[|w|..];
      assert s == w + rest && (rest == "" || rest[0] == s[|w|]);
      assert forall c :: c in w ==> cls.inLabel(c);
      RunOf(cls, w, rest);
      assert s[..|w|] == w;
    } else if s != "" && Run(cls.inLabel, s) > 0 {
      var n := Run(cls.inLabel, s);
      assert s[..n] == w ==> WordAt(cls, w, s);
    }
  }

  // ----- \s*, [ \t]* and .*

  lemma {:induction false} SpacesRun(cls: Classes, s: string)
    requires Sensible(cls)
    ensures Spaces(cls, Tokens(cls, s)) == Run(cls.space, s)
    ensures Aligned(cls, s, Run(cls.space, s), Run(cls.space, s))
  {
    var r := Run(cls.space, s);
    OthersAligned(cls, s, r);
    if s != "" && cls.space(s[0]) {
      OtherHead(cls, s);
      SpacesRun(cls, s[1..]);
      assert Tokens(cls, s)[1..] == Tokens(cls, s[1..]);
    } else if s != "" {
      TokensValid(cls, s);
      if cls.inLabel(s[0]) {
        assert Tokens(cls, s)[0].Word?;
      } else {
        OtherHead(cls, s);
      }
    }
  }

  lemma {:induction false} BlanksRun(cls: Classes, s: string)
    requires Sensible(cls)
    ensures Blanks(Tokens(cls, s)) == Run(BlankChar, s)
    ensures Aligned(cls, s, Run(BlankChar, s), Run(BlankChar, s))
  {
    var r := Run(BlankChar, s);
    OthersAligned(cls, s, r);
    if s != "" && BlankChar(s[0]) {
      OtherHead(cls, s);
      BlanksRun(cls, s[1..]);
      assert Tokens(cls, s)[1..] == Tokens(cls, s[1..]);
    } else if s != "" {
      TokensValid(cls, s);
      if cls.inLabel(s[0]) {
        assert Tokens(cls, s)[0].Word?;
      } else {
        OtherHead(cls, s);
      }
    }
  }

  // ----- \s*$

  // The rest always matches.
  ghost predicate Total(re: seq<Item>) {
    forall t :: Match(re, t).Some?
  }

  lemma EolMatch(re: seq<Item>, s: string)
    ensures Match([Eol] + re, s) == if AtEol(s) then Match(re, s) else None
  {
    assert ([Eol] + re)[1..] == re;
  }

  // The last of the first k characters that is a line feed.
  function LastFeedText(s: string, k: nat): (r: Option<nat>)
    requires k <= |s|
    ensures r.Some? ==> r.value < k && s[r.value] == '\n'
  {
    if k == 0 then None else if s[k - 1] == '\n' then Some(k - 1) else LastFeedText(s, k - 1)
  }

  // Where \s*$ ends.
  function EolText(cls: Classes, s: string): (r: Option<nat>)
    ensures r.Some? ==> r.value <= Run(cls.space, s) && AtEol(s[r.value..])
  {
    var k := Run(cls.space, s);
    if k == |s| then Some(k) else LastFeedText(s, k)
  }

  lemma {:induction false} EolGivesBack(cls: Classes, re: seq<Item>, s: string, k: nat)
    requires Total(re) && k <= |s|
    ensures Back([Eol] + re, s, 0, k) ==
      if AtEol(s[k..]) then Plus1(k, Match(re, s[k..]))
      else match LastFeedText(s, k) case None => None case Some(j) => Plus1(j, Match(re, s[j..]))
  {
    EolMatch(re, s[k..]);
    assert Match(re, s[k..]).Some?;
    if k > 0 && !AtEol(s[k..]) {
      EolGivesBack(cls, re, s, k - 1);
      assert s[k - 1..][0] == s[k - 1];
    }
  }

  lemma {:induction false} SameFeed(cls: Classes, s: string, k: nat)
    requires Sensible(cls) && k <= Run(cls.space, s)
    ensures k <= |Tokens(cls, s)| && LastFeed(Tokens(cls, s), k) == LastFeedText(s, k)
  {
    OthersAligned(cls, s, k);
    hide Tokens;
    if k > 0 {
      SameFeed(cls, s, k - 1);
      assert Tokens(cls, s)[k - 1] == Other(s[k - 1]);
    }
  }

  lemma SpaceEolMatch(cls: Classes, re: seq<Item>, s: string)
    requires Sensible(cls) && Total(re)
    ensures Match(SpaceEol(cls, re), s) == match EolText(cls, s) case None => None case Some(j) => Plus1(j, Match(re, s[j..]))
  {
    var rest := [Eol] + re;
    var k := Run(cls.space, s);
    assert SpaceEol(cls, re)[1..] == rest;
    EolGivesBack(cls, re, s, k);
    assert Match(SpaceEol(cls, re), s) == Back(rest, s, 0, k);
    if k < |s| {
      assert s[k..][0] == s[k];
    }
  }

  lemma SpaceEolTokens(cls: Classes, s: string)
    requires Sensible(cls)
    ensures SpaceToEol(cls, Tokens(cls, s)) == EolText(cls, s)
    ensures EolText(cls, s).Some? ==> Aligned(cls, s, EolText(cls, s).value, EolText(cls, s).value)
  {
    var k := Run(cls.space, s);
    SpacesRun(cls, s);
    SameFeed(cls, s, k);
    DetokTokens(cls, s[k..]);
    hide Tokens;
    assert Tokens(cls, s)[k..] == Tokens(cls, s[k..]);
    NoTokensIff(cls, s[k..]);
    if EolText(cls, s).Some? {
      OthersAligned(cls, s, EolText(cls, s).value);
    }
  }

  lemma NoTokensIff(cls: Classes, s: string)
    ensures Tokens(cls, s) == [] <==> s == ""
  {
  }

  // A text that goes on with a label character is not at \s*$.
  lemma NotEol(cls: Classes, re: seq<Item>, s: string)
    requires Sensible(cls) && Total(re) && s != "" && cls.inLabel(s[0])
    ensures Match(SpaceEol(cls, re), s) == None
  {
    SpaceEolMatch(cls, re, s);
  }

  // ----- \d+\s*$

  lemma DigitHead(cls: Classes, s: string)
    requires Sensible(cls) && s != "" && cls.inLabel(s[0])
    ensures Tokens(cls, s) != [] && Tokens(cls, s)[0] == Word(s[..Run(cls.inLabel, s)])
    ensures Run(cls.digit, s) <= Run(cls.inLabel, s)
    ensures DigitsToken(cls, Tokens(cls, s)[0]) <==> Run(cls.digit, s) == Run(cls.inLabel, s)
  {
    var n, d := Run(cls.inLabel, s), Run(cls.digit, s);
    assert n < |s| ==> !cls.digit(s[n]);
    if d < n {
      assert s[..n][d] == s[d];
      assert s[d] in s[..n];
    } else {
      assert forall c :: c in s[..n] ==> exists k :: 0 <= k < n && s[k] == c;
    }
  }

  // Where \d+\s*$ ends, and how many tokens that is.
  function DigitsText(cls: Classes, s: string): (r: Option<nat>)
    ensures r.Some? ==> r.value <= |s|
  {
    var d := Run(cls.digit, s);
    if d == 0 || d < Run(cls.inLabel, s) then None
    else match EolText(cls, s[d..]) case None => None case Some(j) => Some(d + j)
  }

  lemma EmptyMatch(s: string)
    ensures Match([], s) == Some(0)
  {
  }

  lemma EmptyIsTotal()
    ensures Total([])
  {
  }

  // With k digits taken something is wrong with \s*$ unless k is all of a word.
  lemma DigitsLeft(cls: Classes, s: string, k: nat)
    requires Sensible(cls) && 1 <= k <= Run(cls.digit, s) && k < Run(cls.inLabel, s)
    ensures Match(SpaceEol(cls, []), s[k..]).None?
  {
    EmptyIsTotal();
    assert s[k..][0] == s[k];
    NotEol(cls, [], s[k..]);
  }

  lemma DigitsEnd(cls: Classes, s: string)
    requires Sensible(cls)
    ensures Match(SpaceEol(cls, []), s) == EolText(cls, s)
  {
    EmptyIsTotal();
    SpaceEolMatch(cls, [], s);
    hide SpaceEol, EolText, Total;
    var e := EolText(cls, s);
    if e.Some? {
      EmptyMatch(s[e.value..]);
    }
  }

  lemma DigitsMatch(cls: Classes, s: string)
    requires Sensible(cls)
    ensures Match(DigitsEol(cls), s) == DigitsText(cls, s)
  {
    var rest, d := SpaceEol(cls, []), Run(cls.digit, s);
    PlusMatch(cls.digit, rest, s);
    hide Match, SpaceEol, EolText, Sensible;
    if d > 0 {
      DigitsInRun(cls, s);
      forall k | 1 <= k < d
        ensures Match(rest, s[k..]).None?
      {
        DigitsLeft(cls, s, k);
      }
      NoGivingBack(rest, s, 1, d);
      if d < Run(cls.inLabel, s) {
        DigitsLeft(cls, s, d);
      } else {
        DigitsEnd(cls, s[d..]);
      }
    }
  }

  lemma DigitsInRun(cls: Classes, s: string)
    requires Sensible(cls)
    ensures Run(cls.digit, s) <= Run(cls.inLabel, s)
  {
    var n := Run(cls.inLabel, s);
    assert n < |s| ==> !cls.digit(s[n]);
  }

  // ----- word\s+

  // Where word\s+ ends.
  function WordText(cls: Classes, w: string, s: string): (r: Option<nat>)
    ensures r.Some? ==> |w| < r.value <= |s|
  {
    if w <= s && Run(cls.space, s[|w|..]) > 0 then Some(|w| + Run(cls.space, s[|w|..])) else None
  }

  lemma WordSpaceIs(cls: Classes, w: string, ts: seq<Token>)
    ensures WordSpace(cls, w, ts) ==
      if ts == [] || ts[0] != Word(w) || Spaces(cls, ts[1..]) == 0 then None else Some(1 + Spaces(cls, ts[1..]))
  {
    hide Spaces;
  }

  lemma WordTextIs(cls: Classes, w: string, s: string)
    ensures WordText(cls, w, s) ==
      if w <= s && Run(cls.space, s[|w|..]) > 0 then Some(|w| + Run(cls.space, s[|w|..])) else None
  {
    hide Run;
  }

  lemma SpaceAfterWord(cls: Classes, w: string, s: string)
    requires Sensible(cls) && w <= s && Run(cls.space, s[|w|..]) > 0
    ensures WordAt(cls, w, s)
  {
    assert s[|w|..][0] == s[|w|];
  }

  lemma WordTextTokens(cls: Classes, w: string, s: string)
    requires Sensible(cls) && IsLabel(cls, w)
    ensures WordText(cls, w, s).None? <==> WordSpace(cls, w, Tokens(cls, s)).None?
    ensures WordText(cls, w, s).Some? ==> Aligned(cls, s, WordText(cls, w, s).value, WordSpace(cls, w, Tokens(cls, s)).value)
  {
    hide *;
    WordHead(cls, w, s);
    WordTextIs(cls, w, s);
    WordSpaceIs(cls, w, Tokens(cls, s));
    if w <= s && Run(cls.space, s[|w|..]) > 0 {
      SpaceAfterWord(cls, w, s);
    }
    if WordAt(cls, w, s) {
      WordAtIs(cls, w, s);
      var rest := s[|w|..];
      SpacesRun(cls, rest);
      AlignedBound(cls, s, |w|, 1);
      AlignedStep(cls, s, |w|, 1, Run(cls.space, rest), Run(cls.space, rest));
    }
  }

  lemma WordAtIs(cls: Classes, w: string, s: string)
    ensures WordAt(cls, w, s) <==> w <= s && (|s| == |w| || !cls.inLabel(s[|w|]))
  {
  }

  // The rest does not start with white space.
  ghost predicate Refuses(cls: Classes, re: seq<Item>) {
    forall t :: t != "" && cls.space(t[0]) ==> Match(re, t).None?
  }

  lemma RefusedBack(cls: Classes, re: seq<Item>, s: string)
    requires Refuses(cls, re) || Total(re)
    ensures var d := Run(cls.space, s);
      Back(re, s, 1, d) == if d == 0 then None else Plus1(d, Match(re, s[d..]))
  {
    var d := Run(cls.space, s);
    if Total(re) {
      assert Match(re, s[d..]).Some?;
    } else {
      forall k | 1 <= k < d
        ensures Match(re, s[k..]).None?
      {
        assert s[k..][0] == s[k];
      }
      NoGivingBack(re, s, 1, d);
    }
  }

  lemma WordThenMatch(cls: Classes, w: string, re: seq<Item>, s: string)
    requires Refuses(cls, re) || Total(re)
    ensures Match(WordThen(cls, w, re), s) ==
      match WordText(cls, w, s) case None => None case Some(c) => Plus1(c, Match(re, s[c..]))
  {
    hide Match, Back, Refuses, Total, Run;
    var more := [Plus(cls.space)] + re;
    LitMatch(w, more, s);
    if w <= s {
      var rest := s[|w|..];
      PlusMatch(cls.space, re, rest);
      RefusedBack(cls, re, rest);
      var d := Run(cls.space, rest);
      assert rest[d..] == s[|w| + d..];
    }
  }

  lemma LitRefuses(cls: Classes, w: string, re: seq<Item>)
    requires Sensible(cls) && IsLabel(cls, w)
    ensures Refuses(cls, Lit(w) + re)
  {
    assert w[0] in w;
    forall t | t != "" && cls.space(t[0])
      ensures Match(Lit(w) + re, t).None?
    {
      LitMatch(w, re, t);
    }
  }

  lemma PlusRefuses(cls: Classes, chars: char -> bool, re: seq<Item>)
    requires forall c :: chars(c) ==> !cls.space(c)
    ensures Refuses(cls, [Plus(chars)] + re)
  {
    forall t | t != "" && cls.space(t[0])
      ensures Match([Plus(chars)] + re, t).None?
    {
      assert Run(chars, t) == 0;
    }
  }

  // ----- pattern by pattern

  // A match of the text and a match of its tokens end at the same place.
  ghost predicate Agrees(cls: Classes, s: string, m: Option<nat>, t: Option<nat>) {
    (m.None? <==> t.None?) && (m.Some? ==> Aligned(cls, s, m.value, t.value))
  }

  lemma WordsAreLabels(cls: Classes)
    requires Sensible(cls)
    ensures IsLabel(cls, "label") && IsLabel(cls, "menu") && IsLabel(cls, "default")
    ensures IsLabel(cls, "timeout") && IsLabel(cls, "set") && IsLabel(cls, "menuentry")
  {
  }

  lemma AgreeNone(cls: Classes, s: string, m: Option<nat>, t: Option<nat>)
    requires m.None? && t.None?
    ensures Agrees(cls, s, m, t)
  {
    hide Aligned;
  }

  lemma AgreeSome(cls: Classes, s: string, m: Option<nat>, t: Option<nat>)
    requires m.Some? && t.Some? && Aligned(cls, s, m.value, t.value)
    ensures Agrees(cls, s, m, t)
  {
    hide Aligned;
  }

  lemma AgreeParts(cls: Classes, s: string, m: Option<nat>, t: Option<nat>)
    requires Agrees(cls, s, m, t)
    ensures m.None? <==> t.None?
    ensures m.Some? ==> Aligned(cls, s, m.value, t.value)
  {
    hide Aligned;
  }

  // The rest of a match, after c characters or k tokens.
  lemma AgreeAfter(cls: Classes, s: string, c: nat, k: nat, m: Option<nat>, t: Option<nat>)
    requires Aligned(cls, s, c, k) && Agrees(cls, s[c..], m, t)
    ensures Agrees(cls, s, Plus1(c, m), Plus1(k, t))
  {
    hide Aligned, Tokens;
    AlignedBound(cls, s, c, k);
    if m.Some? {
      AlignedStep(cls, s, c, k, m.value, t.value);
    }
  }

  lemma AlignedBound(cls: Classes, s: string, c: nat, k: nat)
    requires Aligned(cls, s, c, k)
    ensures c <= |s| && k <= |Tokens(cls, s)| && Tokens(cls, s[c..]) == Tokens(cls, s)[k..]
  {
  }

  // word\s+ and a rest that agrees.
  lemma WordThenAgrees(cls: Classes, w: string, re: seq<Item>, s: string, tail: seq<Token> -> Option<nat>)
    requires Sensible(cls) && IsLabel(cls, w) && (Refuses(cls, re) || Total(re))
    requires forall u :: Agrees(cls, u, Match(re, u), tail(Tokens(cls, u)))
    ensures Agrees(cls, s, Match(WordThen(cls, w, re), s),
      match WordSpace(cls, w, Tokens(cls, s)) case None => None case Some(k) => Plus1(k, tail(Tokens(cls, s)[k..])))
  {
    hide *;
    WordThenMatch(cls, w, re, s);
    WordTextTokens(cls, w, s);
    var c, k := WordText(cls, w, s), WordSpace(cls, w, Tokens(cls, s));
    if c.None? {
      AgreeNone(cls, s, None, None);
    } else {
      AlignedBound(cls, s, c.value, k.value);
      AgreeAfter(cls, s, c.value, k.value, Match(re, s[c.value..]), tail(Tokens(cls, s[c.value..])));
    }
  }

  // ----- menuentry\s+

  lemma NothingAgrees(cls: Classes, s: string)
    ensures Agrees(cls, s, Match([], s), Some(0))
  {
    assert s[0..] == s && Tokens(cls, s)[0..] == Tokens(cls, s);
  }

  lemma MenuEntryIs(cls: Classes, ts: seq<Token>)
    ensures RegexOf(cls, MenuEntry) == WordThen(cls, "menuentry", [])
    ensures MatchLen(cls, MenuEntry, ts) ==
      match WordSpace(cls, "menuentry", ts) case None => None case Some(k) => Plus1(k, Some(0))
  {
    hide WordThen, WordSpace;
  }

  lemma MenuEntryAgrees(cls: Classes, s: string)
    requires Sensible(cls)
    ensures Agrees(cls, s, Match(RegexOf(cls, MenuEntry), s), MatchLen(cls, MenuEntry, Tokens(cls, s)))
  {
    hide *;
    MenuEntryIs(cls, Tokens(cls, s));
    WordsAreLabels(cls);
    EmptyIsTotal();
    forall u
      ensures Agrees(cls, u, Match([], u), Some(0))
    {
      NothingAgrees(cls, u);
    }
    WordThenAgrees(cls, "menuentry", [], s, _ => Some(0));
  }

  // ----- greedy runs of a class that holds every label character

  lemma {:induction false} RunAppend(chars: char -> bool, a: string, b: string)
    requires forall c :: c in a ==> chars(c)
    ensures Run(chars, a + b) == |a| + Run(chars, b)
  {
    if a == "" {
      assert a + b == b;
    } else {
      assert (a + b)[1..] == a[1..] + b;
      RunAppend(chars, a[1..], b);
    }
  }

  predicate Covers(cls: Classes, chars: char -> bool, w: string) {
    forall c :: c in w && cls.inLabel(c) ==> chars(c)
  }

  ghost predicate RunOk(cls: Classes, chars: char -> bool, s: string) {
    Aligned(cls, s, Run(chars, s), TokenRun(chars, Tokens(cls, s)))
  }

  // The first word of a text, and what follows it.
  lemma SplitWord(cls: Classes, s: string)
    requires s != "" && cls.inLabel(s[0])
    ensures var n := Run(cls.inLabel, s);
      0 < n && IsLabel(cls, s[..n]) && WordAt(cls, s[..n], s) && s == s[..n] + s[n..]
      && Aligned(cls, s, n, 1) && Tokens(cls, s) != [] && Tokens(cls, s)[0] == Word(s[..n])
  {
    hide Tokens, Aligned, WordAt;
    var n := Run(cls.inLabel, s);
    assert IsLabel(cls, s[..n]);
    WordAtIs(cls, s[..n], s);
    WordHead(cls, s[..n], s);
  }

  lemma RunOkIs(cls: Classes, chars: char -> bool, s: string)
    ensures RunOk(cls, chars, s) <==> Aligned(cls, s, Run(chars, s), TokenRun(chars, Tokens(cls, s)))
  {
    hide Aligned, Tokens;
  }

  lemma RunOverWord(cls: Classes, chars: char -> bool, s: string)
    requires s != "" && cls.inLabel(s[0]) && Covers(cls, chars, s) && RunOk(cls, chars, s[Run(cls.inLabel, s)..])
    ensures RunOk(cls, chars, s)
  {
    hide *;
    SplitWord(cls, s);
    var n := Run(cls.inLabel, s);
    var w, rest := s[..n], s[n..];
    LabelCovered(cls, chars, s, w);
    RunAppend(chars, w, rest);
    WordRun(chars, Tokens(cls, s), w);
    AlignedBound(cls, s, n, 1);
    RunOkIs(cls, chars, rest);
    RunOkIs(cls, chars, s);
    AlignedStep(cls, s, n, 1, Run(chars, rest), TokenRun(chars, Tokens(cls, rest)));
  }

  lemma LabelCovered(cls: Classes, chars: char -> bool, s: string, w: string)
    requires Covers(cls, chars, s) && IsLabel(cls, w) && w <= s
    ensures forall c :: c in w ==> chars(c)
  {
    assert forall c :: c in w ==> c in s;
  }

  lemma RunOverOther(cls: Classes, chars: char -> bool, s: string)
    requires s != "" && !cls.inLabel(s[0]) && (chars(s[0]) ==> RunOk(cls, chars, s[1..]))
    ensures RunOk(cls, chars, s)
  {
    OtherHead(cls, s);
    hide Tokens, Aligned;
    if chars(s[0]) {
      assert Tokens(cls, s)[1..] == Tokens(cls, s[1..]);
      AlignedStep(cls, s, 1, 1, Run(chars, s[1..]), TokenRun(chars, Tokens(cls, s[1..])));
    } else {
      StartAligned(cls, s);
    }
  }

  lemma StartAligned(cls: Classes, s: string)
    ensures Aligned(cls, s, 0, 0)
  {
    assert s[0..] == s && Tokens(cls, s)[0..] == Tokens(cls, s);
  }

  lemma CoversRest(cls: Classes, chars: char -> bool, s: string, n: nat)
    requires Covers(cls, chars, s) && n <= |s|
    ensures Covers(cls, chars, s[n..])
  {
  }

  lemma {:induction false} RunAligned(cls: Classes, chars: char -> bool, s: string)
    requires Covers(cls, chars, s)
    ensures RunOk(cls, chars, s)
    decreases |s|
  {
    if s == "" {
      StartAligned(cls, s);
    } else if cls.inLabel(s[0]) {
      SplitWord(cls, s);
      hide *;
      CoversRest(cls, chars, s, Run(cls.inLabel, s));
      RunAligned(cls, chars, s[Run(cls.inLabel, s)..]);
      RunOverWord(cls, chars, s);
    } else {
      hide *;
      CoversRest(cls, chars, s, 1);
      RunAligned(cls, chars, s[1..]);
      RunOverOther(cls, chars, s);
    }
  }

  lemma WordRun(chars: char -> bool, ts: seq<Token>, w: string)
    requires ts != [] && ts[0] == Word(w)
    ensures TokenRun(chars, ts) == 1 + TokenRun(chars, ts[1..])
  {
  }

  // ----- label\s+\S+

  lemma NonSpaceAgrees(cls: Classes, s: string)
    requires Sensible(cls)
    ensures Agrees(cls, s, Match([Plus(NonSpace(cls))], s), NonSpaces(cls, Tokens(cls, s)))
  {
    var p := NonSpace(cls);
    NonSpaceMatch(cls, s);
    RunAligned(cls, p, s);
    hide Match, Tokens;
    NoTokensIff(cls, s);
    assert Run(p, s) == 0 <==> NonSpaces(cls, Tokens(cls, s)) == None by {
      NonSpaceStart(cls, s);
    }
  }

  lemma NonSpaceStart(cls: Classes, s: string)
    requires Sensible(cls)
    ensures Run(NonSpace(cls), s) == 0 <==> NonSpaces(cls, Tokens(cls, s)) == None
  {
    if s != "" && !cls.inLabel(s[0]) {
      OtherHead(cls, s);
    }
  }

  lemma NonSpaceMatch(cls: Classes, s: string)
    ensures var d := Run(NonSpace(cls), s); Match([Plus(NonSpace(cls))], s) == if d == 0 then None else Some(d)
  {
    var p := NonSpace(cls);
    assert [Plus(p)] + [] == [Plus(p)];
    PlusMatch(p, [], s);
    var d := Run(p, s);
    if d > 0 {
      EmptyMatch(s[d..]);
    }
  }

  lemma LabelIs(cls: Classes, ts: seq<Token>)
    ensures RegexOf(cls, LabelLine) == WordThen(cls, "label", [Plus(NonSpace(cls))])
    ensures var k := WordSpace(cls, "label", ts);
      MatchLen(cls, LabelLine, ts) == if k == None then None else Plus1(k.value, NonSpaces(cls, ts[k.value..]))
  {
    hide WordThen, WordSpace, NonSpaces;
  }

  lemma Plus1Is(n: nat, r: Option<nat>)
    ensures Plus1(n, r) == match r case None => None case Some(m) => Some(n + m)
  {
  }

  lemma NonSpaceRefuses(cls: Classes)
    ensures Refuses(cls, [Plus(NonSpace(cls))])
  {
    PlusRefuses(cls, NonSpace(cls), []);
    assert [Plus(NonSpace(cls))] + [] == [Plus(NonSpace(cls))];
  }

  lemma LabelAgrees(cls: Classes, s: string)
    requires Sensible(cls)
    ensures Agrees(cls, s, Match(RegexOf(cls, LabelLine), s), MatchLen(cls, LabelLine, Tokens(cls, s)))
  {
    hide *;
    LabelIs(cls, Tokens(cls, s));
    WordsAreLabels(cls);
    NonSpaceRefuses(cls);
    var tail := (ts: seq<Token>) => NonSpaces(cls, ts);
    forall u
      ensures Agrees(cls, u, Match([Plus(NonSpace(cls))], u), tail(Tokens(cls, u)))
    {
      NonSpaceAgrees(cls, u);
    }
    WordThenAgrees(cls, "label", [Plus(NonSpace(cls))], s, tail);
  }

  // ----- timeout\s+\d+\s*$

  // \d+\s*$ on tokens.
  function DigitsTokens(cls: Classes, ts: seq<Token>): (r: Option<nat>)
    ensures r.Some? ==> r.value <= |ts|
  {
    if ts == [] || !DigitsToken(cls, ts[0]) then None else Plus1(1, SpaceToEol(cls, ts[1..]))
  }

  lemma NoDigits(cls: Classes, s: string)
    requires Sensible(cls) && (s == "" || !cls.inLabel(s[0]) || Run(cls.digit, s) != Run(cls.inLabel, s) || Run(cls.digit, s) == 0)
    ensures DigitsText(cls, s) == None && DigitsTokens(cls, Tokens(cls, s)) == None
  {
    hide EolText, SpaceToEol;
    if s != "" && cls.inLabel(s[0]) {
      DigitHead(cls, s);
      DigitsInRun(cls, s);
    } else if s != "" {
      OtherHead(cls, s);
    }
  }

  lemma DigitsAgree(cls: Classes, s: string)
    requires Sensible(cls)
    ensures Agrees(cls, s, Match(DigitsEol(cls), s), DigitsTokens(cls, Tokens(cls, s)))
  {
    DigitsMatch(cls, s);
    var d := Run(cls.digit, s);
    if s == "" || !cls.inLabel(s[0]) || d != Run(cls.inLabel, s) || d == 0 {
      NoDigits(cls, s);
    } else {
      var w := s[..d];
      DigitHead(cls, s);
      DigitsText1(cls, s);
      assert IsLabel(cls, w) && WordAt(cls, w, s);
      hide *;
      WordHead(cls, w, s);
      SpaceEolTokens(cls, s[d..]);
      AlignedBound(cls, s, d, 1);
      DigitsTokens1(cls, Tokens(cls, s));
      var e := EolText(cls, s[d..]);
      if e.None? {
        AgreeNone(cls, s[d..], e, e);
      } else {
        AgreeSome(cls, s[d..], e, e);
      }
      AgreeAfter(cls, s, d, 1, e, e);
    }
  }

  lemma DigitsText1(cls: Classes, s: string)
    requires var d := Run(cls.digit, s); d > 0 && d == Run(cls.inLabel, s)
    ensures DigitsText(cls, s) == Plus1(Run(cls.digit, s), EolText(cls, s[Run(cls.digit, s)..]))
  {
    hide EolText;
  }

  lemma DigitsTokens1(cls: Classes, ts: seq<Token>)
    requires ts != [] && DigitsToken(cls, ts[0])
    ensures DigitsTokens(cls, ts) == Plus1(1, SpaceToEol(cls, ts[1..]))
  {
    hide SpaceToEol, DigitsToken;
  }

  lemma DigitsRefuse(cls: Classes)
    requires Sensible(cls)
    ensures Refuses(cls, DigitsEol(cls))
  {
    PlusRefuses(cls, cls.digit, SpaceEol(cls, []));
  }

  lemma TimeoutIs(cls: Classes, ts: seq<Token>)
    ensures RegexOf(cls, TimeoutLine) == WordThen(cls, "timeout", DigitsEol(cls))
    ensures MatchLen(cls, TimeoutLine, ts) ==
      match WordSpace(cls, "timeout", ts) case None => None case Some(k) => Plus1(k, DigitsTokens(cls, ts[k..]))
  {
    hide WordThen, WordSpace, SpaceToEol, DigitsToken;
    var k := WordSpace(cls, "timeout", ts);
    if k.Some? && k.value < |ts| {
      assert ts[k.value..][0] == ts[k.value] && ts[k.value..][1..] == ts[k.value + 1..];
    }
  }

  lemma TimeoutAgrees(cls: Classes, s: string)
    requires Sensible(cls)
    ensures Agrees(cls, s, Match(RegexOf(cls, TimeoutLine), s), MatchLen(cls, TimeoutLine, Tokens(cls, s)))
  {
    hide *;
    TimeoutIs(cls, Tokens(cls, s));
    WordsAreLabels(cls);
    DigitsRefuse(cls);
    forall u
      ensures Agrees(cls, u, Match(DigitsEol(cls), u), DigitsTokens(cls, Tokens(cls, u)))
    {
      DigitsAgree(cls, u);
    }
    WordThenAgrees(cls, "timeout", DigitsEol(cls), s, ts => DigitsTokens(cls, ts));
  }

  // ----- word=

  lemma DropTwice(s: string, n: nat)
    requires n < |s|
    ensures s[n..] != "" && s[n..][0] == s[n] && s[n..][1..] == s[n + 1..]
  {
  }

  lemma Plus1Sum(a: nat, b: nat, r: Option<nat>)
    ensures Plus1(a, Plus1(b, r)) == Plus1(a + b, r) && Plus1(a, None) == None
  {
  }

  lemma EqText(cls: Classes, w: string, re: seq<Item>, s: string)
    ensures Match(Lit(w) + ([One('=')] + re), s) ==
      if w <= s && |w| < |s| && s[|w|] == '=' then Plus1(|w| + 1, Match(re, s[|w| + 1..])) else None
  {
    hide *;
    LitMatch(w, [One('=')] + re, s);
    if w <= s {
      OneMatch('=', re, s[|w|..]);
      if |w| < |s| {
        DropTwice(s, |w|);
        Plus1Sum(|w|, 1, Match(re, s[|w| + 1..]));
      } else {
        assert s[|w|..] == "";
        Plus1Sum(|w|, 1, None);
      }
    }
  }

  lemma EqTokensHere(cls: Classes, w: string, s: string)
    requires Sensible(cls) && IsLabel(cls, w)
    ensures var ts := Tokens(cls, s);
      |ts| >= 2 && ts[0] == Word(w) && ts[1] == Other('=') <==> w <= s && |w| < |s| && s[|w|] == '='
    ensures w <= s && |w| < |s| && s[|w|] == '=' ==> Aligned(cls, s, |w| + 1, 2)
  {
    assert !cls.inLabel('=');
    hide *;
    WordHead(cls, w, s);
    WordAtIs(cls, w, s);
    if WordAt(cls, w, s) {
      var rest := s[|w|..];
      AlignedBound(cls, s, |w|, 1);
      FirstToken(cls, rest);
      assert rest != "" ==> rest[0] == s[|w|];
      if rest != "" && rest[0] == '=' {
        OtherHead(cls, rest);
        AlignedStep(cls, s, |w|, 1, 1, 1);
      } else if rest != "" {
        NotThisToken(cls, rest);
      }
    }
  }

  lemma NotThisToken(cls: Classes, s: string)
    requires Sensible(cls) && s != "" && s[0] != '='
    ensures Tokens(cls, s) != [] && Tokens(cls, s)[0] != Other('=')
  {
    TokensValid(cls, s);
  }

  lemma EqAfterWord(cls: Classes, w: string, re: seq<Item>, s: string)
    requires Sensible(cls) && IsLabel(cls, w)
    ensures var ts := Tokens(cls, s);
      if |ts| >= 2 && ts[0] == Word(w) && ts[1] == Other('=') then
        && |w| + 1 <= |s| && Aligned(cls, s, |w| + 1, 2)
        && Match(Lit(w) + ([One('=')] + re), s) == Plus1(|w| + 1, Match(re, s[|w| + 1..]))
      else Match(Lit(w) + ([One('=')] + re), s) == None
  {
    hide *;
    EqText(cls, w, re, s);
    EqTokensHere(cls, w, s);
  }

  lemma FirstToken(cls: Classes, s: string)
    ensures s == "" <==> Tokens(cls, s) == []
    ensures s != "" ==> (Tokens(cls, s)[0] == Other(s[0]) <==> !cls.inLabel(s[0]))
  {
    TokensValid(cls, s);
  }

  // ----- set\s+timeout=\d+\s*$

  function EqTokens(w: string, ts: seq<Token>, tail: seq<Token> -> Option<nat>): Option<nat> {
    if |ts| >= 2 && ts[0] == Word(w) && ts[1] == Other('=') then Plus1(2, tail(ts[2..])) else None
  }

  lemma EqTokensAgree(cls: Classes, w: string, re: seq<Item>, tail: seq<Token> -> Option<nat>, s: string)
    requires Sensible(cls) && IsLabel(cls, w)
    requires forall u :: Agrees(cls, u, Match(re, u), tail(Tokens(cls, u)))
    ensures Agrees(cls, s, Match(Lit(w) + ([One('=')] + re), s), EqTokens(w, Tokens(cls, s), tail))
  {
    hide *;
    EqAfterWord(cls, w, re, s);
    EqTokensIs(w, Tokens(cls, s), tail);
    var ts := Tokens(cls, s);
    if |ts| >= 2 && ts[0] == Word(w) && ts[1] == Other('=') {
      AlignedBound(cls, s, |w| + 1, 2);
      AgreeAfter(cls, s, |w| + 1, 2, Match(re, s[|w| + 1..]), tail(ts[2..]));
    } else {
      AgreeNone(cls, s, None, None);
    }
  }

  lemma EqTokensIs(w: string, ts: seq<Token>, tail: seq<Token> -> Option<nat>)
    ensures EqTokens(w, ts, tail) ==
      if |ts| >= 2 && ts[0] == Word(w) && ts[1] == Other('=') then Plus1(2, tail(ts[2..])) else None
  {
  }

  lemma SetTimeoutIs(cls: Classes, ts: seq<Token>)
    ensures RegexOf(cls, SetTimeout) == WordThen(cls, "set", Lit("timeout") + ([One('=')] + DigitsEol(cls)))
    ensures MatchLen(cls, SetTimeout, ts) ==
      match WordSpace(cls, "set", ts)
      case None => None
      case Some(k) => Plus1(k, EqTokens("timeout", ts[k..], us => DigitsTokens(cls, us)))
  {
    hide WordThen, WordSpace, SpaceToEol, DigitsToken;
    var k := WordSpace(cls, "set", ts);
    if k.Some? {
      var us := ts[k.value..];
      if |us| >= 2 {
        assert us[0] == ts[k.value] && us[1] == ts[k.value + 1];
        if |us| >= 3 {
          assert us[2..][0] == ts[k.value + 2] && us[2..][1..] == ts[k.value + 3..];
        }
      }
    }
  }

  lemma SetTimeoutAgrees(cls: Classes, s: string)
    requires Sensible(cls)
    ensures Agrees(cls, s, Match(RegexOf(cls, SetTimeout), s), MatchLen(cls, SetTimeout, Tokens(cls, s)))
  {
    hide *;
    SetTimeoutIs(cls, Tokens(cls, s));
    WordsAreLabels(cls);
    var re := Lit("timeout") + ([One('=')] + DigitsEol(cls));
    LitRefuses(cls, "timeout", [One('=')] + DigitsEol(cls));
    var digits := (ts: seq<Token>) => DigitsTokens(cls, ts);
    forall u
      ensures Agrees(cls, u, Match(DigitsEol(cls), u), digits(Tokens(cls, u)))
    {
      DigitsAgree(cls, u);
    }
    forall u
      ensures Agrees(cls, u, Match(re, u), EqTokens("timeout", Tokens(cls, u), digits))
    {
      EqTokensAgree(cls, "timeout", DigitsEol(cls), digits, u);
    }
    WordThenAgrees(cls, "set", re, s, ts => EqTokens("timeout", ts, digits));
  }

  // ----- set\s+default=.*$

  lemma LineAgrees(cls: Classes, s: string)
    requires Sensible(cls)
    ensures Agrees(cls, s, Match([Star(NoFeed)] + [Eol], s), Some(LineLen(Tokens(cls, s))))
  {
    var n := Run(NoFeed, s);
    StarMatch(NoFeed, [Eol], s);
    EolMatch([], s[n..]);
    assert [Eol] + [] == [Eol];
    EmptyMatch(s[n..]);
    assert n < |s| ==> s[n..][0] == s[n];
    assert AtEol(s[n..]);
    assert Back([Eol], s, 0, n) == Some(n);
    RunAligned(cls, NoFeed, s);
    hide Match, Tokens, Aligned;
    AgreeSome(cls, s, Some(n), Some(LineLen(Tokens(cls, s))));
  }

  lemma SetDefaultIs(cls: Classes, ts: seq<Token>)
    ensures RegexOf(cls, SetDefault) == WordThen(cls, "set", Lit("default") + ([One('=')] + ([Star(NoFeed)] + [Eol])))
    ensures MatchLen(cls, SetDefault, ts) ==
      match WordSpace(cls, "set", ts)
      case None => None
      case Some(k) => Plus1(k, EqTokens("default", ts[k..], us => Some(LineLen(us))))
  {
    hide WordThen, WordSpace, TokenRun;
    var k := WordSpace(cls, "set", ts);
    if k.Some? {
      var us := ts[k.value..];
      if |us| >= 2 {
        assert us[0] == ts[k.value] && us[1] == ts[k.value + 1] && us[2..] == ts[k.value + 2..];
      }
    }
  }

  lemma SetDefaultAgrees(cls: Classes, s: string)
    requires Sensible(cls)
    ensures Agrees(cls, s, Match(RegexOf(cls, SetDefault), s), MatchLen(cls, SetDefault, Tokens(cls, s)))
  {
    hide *;
    SetDefaultIs(cls, Tokens(cls, s));
    WordsAreLabels(cls);
    var line := [Star(NoFeed)] + [Eol];
    var re := Lit("default") + ([One('=')] + line);
    LitRefuses(cls, "default", [One('=')] + line);
    var tail := (ts: seq<Token>) => Some(LineLen(ts) as nat);
    forall u
      ensures Agrees(cls, u, Match(line, u), tail(Tokens(cls, u)))
    {
      LineAgrees(cls, u);
    }
    forall u
      ensures Agrees(cls, u, Match(re, u), EqTokens("default", Tokens(cls, u), tail))
    {
      EqTokensAgree(cls, "default", line, tail, u);
    }
    WordThenAgrees(cls, "set", re, s, ts => EqTokens("default", ts, tail));
  }

  // ----- [ \t]*menu\s+default\s*$\r?\n?

  const LINE_END := [Opt('\r')] + [Opt('\n')]

  lemma OptMatch(c: char, re: seq<Item>, s: string)
    requires Total(re)
    ensures Match([Opt(c)] + re, s) == if s != "" && s[0] == c then Plus1(1, Match(re, s[1..])) else Match(re, s)
  {
    var all := [Opt(c)] + re;
    assert all[1..] == re;
    var p := (x: char) => x == c;
    assert Match(re, s).Some? && s[0..] == s;
    if s != "" && s[0] == c {
      assert Match(re, s[1..]).Some?;
      assert Run(p, s) >= 1;
      assert Back(re, s, 0, 1) == Plus1(1, Match(re, s[1..]));
    } else {
      assert Run(p, s) == 0;
      assert Back(re, s, 0, 0) == Plus1(0, Match(re, s));
    }
  }

  lemma OneOptTotal(c: char)
    ensures Total([Opt(c)])
    ensures forall s :: Match([Opt(c)], s) == Some(if s != "" && s[0] == c then 1 else 0)
  {
    EmptyIsTotal();
    assert [Opt(c)] + [] == [Opt(c)];
    forall s
      ensures Match([Opt(c)], s) == Some(if s != "" && s[0] == c then 1 else 0)
    {
      OptMatch(c, [], s);
      EmptyMatch(s);
      if s != "" {
        EmptyMatch(s[1..]);
      }
    }
  }

  // At \s*$ there is no carriage return left, only perhaps the line feed.
  lemma LineEndMatch(s: string)
    ensures Total(LINE_END)
    ensures AtEol(s) ==> Match(LINE_END, s) == Some(if s == "" then 0 else 1)
  {
    OneOptTotal('\n');
    hide Match;
    forall t
      ensures Match(LINE_END, t).Some?
    {
      OptMatch('\r', [Opt('\n')], t);
    }
    OptMatch('\r', [Opt('\n')], s);
  }

  // \s*$\r?\n? on tokens.
  function EolTokens(cls: Classes, ts: seq<Token>): (r: Option<nat>)
    ensures r.Some? ==> r.value <= |ts|
  {
    match SpaceToEol(cls, ts) case None => None case Some(j) => Some(LineEnd(ts, j))
  }

  lemma EolTokensIs(cls: Classes, ts: seq<Token>)
    ensures EolTokens(cls, ts) == match SpaceToEol(cls, ts) case None => None case Some(j) => Some(LineEnd(ts, j))
  {
    hide SpaceToEol;
  }

  // The line feed that \s*$ may leave.
  lemma FeedLeft(cls: Classes, s: string, e: nat)
    requires Sensible(cls) && Aligned(cls, s, e, e) && AtEol(s[e..])
    ensures var n := if s[e..] == "" then 0 else 1;
      e <= |Tokens(cls, s)| && Aligned(cls, s, e + n, e + n) && LineEnd(Tokens(cls, s), e) == e + n
  {
    AlignedBound(cls, s, e, e);
    var rest := s[e..];
    FirstToken(cls, rest);
    assert NL == Other('\n');
    hide Tokens;
    if rest != "" {
      OtherHead(cls, rest);
      AlignedStep(cls, s, e, e, 1, 1);
      assert Tokens(cls, s)[e] == Tokens(cls, rest)[0] == NL;
    }
  }

  lemma EolAgrees(cls: Classes, s: string)
    requires Sensible(cls)
    ensures Agrees(cls, s, Match(SpaceEol(cls, LINE_END), s), EolTokens(cls, Tokens(cls, s)))
  {
    hide *;
    LineEndMatch("");
    SpaceEolMatch(cls, LINE_END, s);
    SpaceEolTokens(cls, s);
    EolTokensIs(cls, Tokens(cls, s));
    var e := EolText(cls, s);
    if e.Some? {
      LineEndMatch(s[e.value..]);
      FeedLeft(cls, s, e.value);
      var n := if s[e.value..] == "" then 0 else 1;
      Plus1Is(e.value, Some(n));
      AgreeSome(cls, s, Some(e.value + n), Some(e.value + n));
    } else {
      AgreeNone(cls, s, None, None);
    }
  }

  lemma DefaultEolAgrees(cls: Classes, s: string)
    requires Sensible(cls)
    ensures var ts := Tokens(cls, s);
      Agrees(cls, s, Match(Lit("default") + SpaceEol(cls, LINE_END), s),
        if ts == [] || ts[0] != Word("default") then None else Plus1(1, EolTokens(cls, ts[1..])))
  {
    var w := "default";
    WordsAreLabels(cls);
    LineEndMatch("");
    LitMatch(w, SpaceEol(cls, LINE_END), s);
    WordHead(cls, w, s);
    var rest := if w <= s then s[|w|..] else "";
    hide SpaceEol, LINE_END, Tokens, IsLabel, Match, Total, EolTokens;
    if WordAt(cls, w, s) {
      EolAgrees(cls, rest);
      AlignedBound(cls, s, |w|, 1);
      hide Aligned, Sensible;
      AgreeAfter(cls, s, |w|, 1, Match(SpaceEol(cls, LINE_END), rest), EolTokens(cls, Tokens(cls, s)[1..]));
    } else if w <= s {
      assert rest[0] == s[|w|];
      NotEol(cls, LINE_END, rest);
    }
  }

  function MenuTail(cls: Classes, ts: seq<Token>): Option<nat> {
    if ts == [] || ts[0] != Word("default") then None else Plus1(1, EolTokens(cls, ts[1..]))
  }

  function MenuRegex(cls: Classes): seq<Item> {
    WordThen(cls, "menu", Lit("default") + SpaceEol(cls, LINE_END))
  }

  lemma MenuIs(cls: Classes, ts: seq<Token>)
    ensures MatchMenu(cls, ts) ==
      match WordSpace(cls, "menu", ts) case None => None case Some(k) => Plus1(k, MenuTail(cls, ts[k..]))
  {
    hide WordSpace, SpaceToEol;
    var k := WordSpace(cls, "menu", ts);
    if k.Some? && k.value < |ts| {
      var us := ts[k.value..];
      assert us[0] == ts[k.value] && us[1..] == ts[k.value + 1..];
      LineEndShift(ts, us[1..], k.value + 1);
    }
  }

  lemma LineEndShift(ts: seq<Token>, us: seq<Token>, k: nat)
    requires k <= |ts| && us == ts[k..]
    ensures forall j | 0 <= j <= |us| :: LineEnd(ts, k + j) == k + LineEnd(us, j)
  {
  }

  lemma MenuAgrees(cls: Classes, s: string)
    requires Sensible(cls)
    ensures Agrees(cls, s, Match(MenuRegex(cls), s), MatchMenu(cls, Tokens(cls, s)))
  {
    var re := Lit("default") + SpaceEol(cls, LINE_END);
    assert MenuRegex(cls) == WordThen(cls, "menu", re) by { hide WordThen, SpaceEol, LINE_END; }
    hide *;
    MenuIs(cls, Tokens(cls, s));
    WordsAreLabels(cls);
    LitRefuses(cls, "default", SpaceEol(cls, LINE_END));
    forall u
      ensures Agrees(cls, u, Match(re, u), MenuTail(cls, Tokens(cls, u)))
    {
      DefaultEolAgrees(cls, u);
      MenuTailIs(cls, Tokens(cls, u));
    }
    WordThenAgrees(cls, "menu", re, s, ts => MenuTail(cls, ts));
  }

  lemma MenuTailIs(cls: Classes, ts: seq<Token>)
    ensures MenuTail(cls, ts) == if ts == [] || ts[0] != Word("default") then None else Plus1(1, EolTokens(cls, ts[1..]))
  {
    hide EolTokens;
  }

  // Blanks are never given back: "menu" does not start with one.
  lemma BlankStart(cls: Classes, s: string)
    ensures var b := Run(BlankChar, s);
      Match([Star(BlankChar)] + MenuRegex(cls), s) == Plus1(b, Match(MenuRegex(cls), s[b..]))
  {
    var b := Run(BlankChar, s);
    var re := MenuRegex(cls);
    StarMatch(BlankChar, re, s);
    hide MenuRegex;
    forall k | 0 <= k < b
      ensures Match(re, s[k..]).None?
    {
      assert s[k..][0] == s[k];
      NotMenu(cls, s[k..]);
    }
    NoGivingBack(re, s, 0, b);
  }

  lemma NotMenu(cls: Classes, s: string)
    requires s != "" && BlankChar(s[0])
    ensures Match(MenuRegex(cls), s).None?
  {
    assert "menu"[0] == 'm';
    LitMatch("menu", [Plus(cls.space)] + (Lit("default") + SpaceEol(cls, LINE_END)), s);
    hide Match, SpaceEol, LINE_END;
  }

  lemma MenuDefaultIs(cls: Classes, ts: seq<Token>)
    ensures RegexOf(cls, MenuDefault) == [Star(BlankChar)] + MenuRegex(cls)
    ensures MatchLen(cls, MenuDefault, ts) == Plus1(Blanks(ts), MatchMenu(cls, ts[Blanks(ts)..]))
  {
    hide WordThen, SpaceEol, MatchMenu, Blanks;
  }

  lemma MenuDefaultAgrees(cls: Classes, s: string)
    requires Sensible(cls)
    ensures Agrees(cls, s, Match(RegexOf(cls, MenuDefault), s), MatchLen(cls, MenuDefault, Tokens(cls, s)))
  {
    hide *;
    MenuDefaultIs(cls, Tokens(cls, s));
    BlankStart(cls, s);
    BlanksRun(cls, s);
    var b := Run(BlankChar, s);
    AlignedBound(cls, s, b, b);
    MenuAgrees(cls, s[b..]);
    AgreeAfter(cls, s, b, b, Match(MenuRegex(cls), s[b..]), MatchMenu(cls, Tokens(cls, s[b..])));
  }

  // Every pattern matches a text exactly when the matcher accepts its tokens,
  // up to the same place.
  lemma MatchAgrees(cls: Classes, p: Pattern, s: string)
    requires Sensible(cls)
    ensures Agrees(cls, s, Match(RegexOf(cls, p), s), MatchLen(cls, p, Tokens(cls, s)))
  {
    hide *;
    match p
    case LabelLine => LabelAgrees(cls, s);
    case MenuEntry => MenuEntryAgrees(cls, s);
    case TimeoutLine => TimeoutAgrees(cls, s);
    case SetTimeout => SetTimeoutAgrees(cls, s);
    case SetDefault => SetDefaultAgrees(cls, s);
    case MenuDefault => MenuDefaultAgrees(cls, s);
  }
}
