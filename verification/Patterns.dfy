/** What the boot rewriters' regular expressions match, without the matcher. */
module Patterns {
  import opened Prelude
  import opened Relabel
  import opened Regex
  import opened Bootloader

  // ----- stretches of a text

  // s[i..j] consists of characters of the class.
  ghost predicate All(chars: char -> bool, s: string, i: nat, j: nat) {
    i <= j <= |s| && forall x :: i <= x < j ==> chars(s[x])
  }

  ghost predicate WordAt(word: string, s: string, i: nat) {
    i + |word| <= |s| && s[i..i + |word|] == word
  }

  // A line ends behind these characters of s.
  ghost predicate LineEnds(s: string, i: nat) {
    i == |s| || (i < |s| && s[i] == '\n')
  }

  ghost predicate LineStarts(s: string, i: nat) {
    i == 0 || (i <= |s| && s[i - 1] == '\n')
  }

  // ----- one construct at a time

  ghost predicate From(re: seq<Item>, s: string, i: nat) {
    i <= |s| && Matches(re, s[i..])
  }

  lemma LitFrom(word: string, re: seq<Item>, s: string, i: nat)
    ensures From(Lit(word) + re, s, i) <==> WordAt(word, s, i) && From(re, s, i + |word|)
  {
    hide Matches, Match;
    if i <= |s| {
      MatchIff(Lit(word) + re, s[i..]);
      LitMatch(word, re, s[i..]);
      if word <= s[i..] {
        assert s[i..][|word|..] == s[i + |word|..];
        assert s[i..][..|word|] == s[i..i + |word|];
        MatchIff(re, s[i + |word|..]);
      } else if i + |word| <= |s| {
        assert s[i..][..|word|] == s[i..i + |word|];
      }
    }
  }

  lemma CharFrom(c: char, re: seq<Item>, s: string, i: nat)
    ensures From([One(c)] + re, s, i) <==> i < |s| && s[i] == c && From(re, s, i + 1)
  {
    assert Lit([c]) == [One(c)];
    LitFrom([c], re, s, i);
  }

  lemma RepFrom(chars: char -> bool, min: nat, max: Option<nat>, re: seq<Item>, s: string, i: nat)
    ensures From([Rep(chars, min, max)] + re, s, i)
       <==> exists j :: i + min <= j && (max.Some? ==> j <= i + max.value) && All(chars, s, i, j) && From(re, s, j)
  {
    var all := [Rep(chars, min, max)] + re;
    assert all[1..] == re;
    if From(all, s, i) {
      var k: nat :| min <= k <= |s[i..]| && (max.Some? ==> k <= max.value)
                    && (forall x :: 0 <= x < k ==> chars(s[i..][x])) && Matches(re, s[i..][k..]);
      assert s[i..][k..] == s[i + k..];
      forall x | i <= x < i + k
        ensures chars(s[x])
      {
        assert s[i..][x - i] == s[x];
      }
      assert All(chars, s, i, i + k);
    }
    if j :| i + min <= j && (max.Some? ==> j <= i + max.value) && All(chars, s, i, j) && From(re, s, j) {
      assert s[i..][j - i..] == s[j..];
      assert min <= j - i <= |s[i..]|;
    }
  }

  lemma EolFrom(re: seq<Item>, s: string, i: nat)
    ensures From([Eol] + re, s, i) <==> LineEnds(s, i) && From(re, s, i)
  {
    assert ([Eol] + re)[1..] == re;
  }

  lemma EndFrom(s: string, i: nat)
    ensures From([], s, i) <==> i <= |s|
  {
  }

  lemma Here(re: seq<Item>, s: string)
    ensures Match(re, s).Some? <==> From(re, s, 0)
  {
    hide Match, Matches;
    assert s[0..] == s;
    MatchIff(re, s);
  }

  // ----- the patterns

  // word\s+ and what follows it
  lemma WordThenFrom(cls: Classes, word: string, re: seq<Item>, s: string, i: nat)
    ensures From(WordThen(cls, word, re), s, i)
       <==> WordAt(word, s, i) && exists j :: i + |word| < j && All(cls.space, s, i + |word|, j) && From(re, s, j)
  {
    hide From, Lit;
    LitFrom(word, [Plus(cls.space)] + re, s, i);
    RepFrom(cls.space, 1, None, re, s, i + |word|);
  }

  // \d+\s*$
  lemma DigitsEolFrom(cls: Classes, s: string, i: nat)
    ensures From(DigitsEol(cls), s, i)
       <==> exists j, k :: i < j <= k && All(cls.digit, s, i, j) && All(cls.space, s, j, k) && LineEnds(s, k)
  {
    hide From;
    RepFrom(cls.digit, 1, None, SpaceEol(cls, []), s, i);
    forall j: nat
      ensures From(SpaceEol(cls, []), s, j) <==> exists k :: j <= k && All(cls.space, s, j, k) && LineEnds(s, k)
    {
      RepFrom(cls.space, 0, None, [Eol] + [], s, j);
      forall k: nat
        ensures From([Eol] + [], s, k) <==> LineEnds(s, k)
      {
        EolFrom([], s, k);
        EndFrom(s, k);
      }
    }
  }

  // The keywords in front of which the entry goes: `label` and a name, which may
  // stand on a later line; `menuentry` and one white space.
  lemma LabelSays(cls: Classes, s: string)
    ensures Match(RegexOf(cls, LabelLine), s).Some?
       <==> WordAt("label", s, 0) && exists j :: 5 < j < |s| && All(cls.space, s, 5, j) && !cls.space(s[j])
  {
    Here(RegexOf(cls, LabelLine), s);
    hide From, Matches, Match, Lit, WordAt;
    WordThenFrom(cls, "label", [Plus(NonSpace(cls))], s, 0);
    forall j: nat
      ensures From([Plus(NonSpace(cls))], s, j) <==> j < |s| && !cls.space(s[j])
    {
      NamedFrom(cls, s, j);
    }
  }

  lemma MenuEntrySays(cls: Classes, s: string)
    ensures Match(RegexOf(cls, MenuEntry), s).Some? <==> WordAt("menuentry", s, 0) && 9 < |s| && cls.space(s[9])
  {
    Here(RegexOf(cls, MenuEntry), s);
    hide From, Matches, Match, Lit, WordAt;
    WordThenFrom(cls, "menuentry", [], s, 0);
    forall j: nat
      ensures From([], s, j) <==> j <= |s|
    {
      EndFrom(s, j);
    }
    if 9 < |s| && cls.space(s[9]) {
      assert All(cls.space, s, 0 + |"menuentry"|, 10) && From([], s, 10);
    }
  }

  lemma NamedFrom(cls: Classes, s: string, j: nat)
    ensures From([Plus(NonSpace(cls))], s, j) <==> j < |s| && !cls.space(s[j])
  {
    RepFrom(NonSpace(cls), 1, None, [], s, j);
    assert [Plus(NonSpace(cls))] == [Rep(NonSpace(cls), 1, None)] + [];
    if j < |s| && !cls.space(s[j]) {
      assert All(NonSpace(cls), s, j, j + 1);
      EndFrom(s, j + 1);
    }
  }

  // A number and the end of its line, over any white space.
  ghost predicate NumberLine(cls: Classes, s: string, i: nat) {
    exists j, k :: i < j <= k && All(cls.digit, s, i, j) && All(cls.space, s, j, k) && LineEnds(s, k)
  }

  lemma TimeoutSays(cls: Classes, s: string)
    ensures Match(RegexOf(cls, TimeoutLine), s).Some?
       <==> WordAt("timeout", s, 0) && exists i :: 7 < i && All(cls.space, s, 7, i) && NumberLine(cls, s, i)
  {
    Here(RegexOf(cls, TimeoutLine), s);
    hide From, Matches, Match;
    WordThenFrom(cls, "timeout", DigitsEol(cls), s, 0);
    forall i: nat
      ensures From(DigitsEol(cls), s, i) <==> NumberLine(cls, s, i)
    {
      DigitsEolFrom(cls, s, i);
    }
  }

  lemma SetTimeoutSays(cls: Classes, s: string)
    ensures Match(RegexOf(cls, SetTimeout), s).Some?
       <==> WordAt("set", s, 0)
            && exists i :: 3 < i && All(cls.space, s, 3, i) && WordAt("timeout", s, i)
                           && i + 7 < |s| && s[i + 7] == '=' && NumberLine(cls, s, i + 8)
  {
    Here(RegexOf(cls, SetTimeout), s);
    hide From, Matches, Match;
    var number := [One('=')] + DigitsEol(cls);
    WordThenFrom(cls, "set", Lit("timeout") + number, s, 0);
    forall i: nat
      ensures From(Lit("timeout") + number, s, i)
         <==> WordAt("timeout", s, i) && i + 7 < |s| && s[i + 7] == '=' && NumberLine(cls, s, i + 8)
    {
      LitFrom("timeout", number, s, i);
      CharFrom('=', DigitsEol(cls), s, i + 7);
      DigitsEolFrom(cls, s, i + 8);
    }
  }

  // Whatever follows the `=` on its line.
  lemma SetDefaultSays(cls: Classes, s: string)
    ensures Match(RegexOf(cls, SetDefault), s).Some?
       <==> WordAt("set", s, 0)
            && exists i :: 3 < i && All(cls.space, s, 3, i) && WordAt("default", s, i) && i + 7 < |s| && s[i + 7] == '='
  {
    Here(RegexOf(cls, SetDefault), s);
    hide From, Matches, Match, Lit, WordAt;
    var tail := [Star(NoFeed)] + [Eol];
    WordThenFrom(cls, "set", Lit("default") + ([One('=')] + tail), s, 0);
    forall i: nat
      ensures From(Lit("default") + ([One('=')] + tail), s, i)
         <==> WordAt("default", s, i) && i + 7 < |s| && s[i + 7] == '='
    {
      LitFrom("default", [One('=')] + tail, s, i);
      CharFrom('=', tail, s, i + 7);
      if i + 8 <= |s| {
        RestOfLine(s, i + 8);
      }
    }
  }

  lemma RestOfLine(s: string, i: nat)
    requires i <= |s|
    ensures From([Star(NoFeed)] + [Eol], s, i)
  {
    var n := Run(NoFeed, s[i..]);
    forall x | i <= x < i + n
      ensures NoFeed(s[x])
    {
      assert s[i..][x - i] == s[x];
    }
    assert n < |s[i..]| ==> s[i..][n] == s[i + n];
    assert All(NoFeed, s, i, i + n) && LineEnds(s, i + n);
    RepFrom(NoFeed, 0, None, [Eol], s, i);
    EolFrom([], s, i + n);
    EndFrom(s, i + n);
    assert [Eol] + [] == [Eol];
  }

  // The two words, first and last on their line; white space between and behind
  // them may hold line ends.
  lemma MenuDefaultSays(cls: Classes, s: string)
    ensures Match(RegexOf(cls, MenuDefault), s).Some?
       <==> exists i: nat, j: nat, k: nat :: All(BlankChar, s, 0, i) && WordAt("menu", s, i) && i + 4 < j && All(cls.space, s, i + 4, j)
                              && WordAt("default", s, j) && All(cls.space, s, j + 7, k) && LineEnds(s, k)
  {
    Here(RegexOf(cls, MenuDefault), s);
    hide From, Matches, Match;
    var ends := [Opt('\r')] + [Opt('\n')];
    var last := Lit("default") + SpaceEol(cls, ends);
    RepFrom(BlankChar, 0, None, WordThen(cls, "menu", last), s, 0);
    forall i: nat
      ensures From(WordThen(cls, "menu", last), s, i)
         <==> WordAt("menu", s, i) && exists j :: i + 4 < j && All(cls.space, s, i + 4, j) && From(last, s, j)
    {
      WordThenFrom(cls, "menu", last, s, i);
    }
    forall j: nat
      ensures From(last, s, j)
         <==> WordAt("default", s, j) && exists k :: j + 7 <= k && All(cls.space, s, j + 7, k) && LineEnds(s, k)
    {
      LitFrom("default", SpaceEol(cls, ends), s, j);
      RepFrom(cls.space, 0, None, [Eol] + ends, s, j + 7);
      forall k: nat
        ensures From([Eol] + ends, s, k) <==> LineEnds(s, k)
      {
        EolFrom(ends, s, k);
        if k <= |s| {
          NothingMore(s, k);
        }
      }
    }
  }

  lemma NothingMore(s: string, k: nat)
    requires k <= |s|
    ensures From([Opt('\r')] + [Opt('\n')], s, k)
  {
    OptSkipped('\n', [], s, k);
    assert [Opt('\n')] + [] == [Opt('\n')];
    OptSkipped('\r', [Opt('\n')], s, k);
  }

  lemma OptSkipped(c: char, re: seq<Item>, s: string, k: nat)
    requires k <= |s| && From(re, s, k)
    ensures From([Opt(c)] + re, s, k)
  {
    var o := Opt(c);
    RepFrom(o.chars, o.min, o.max, re, s, k);
    assert All(o.chars, s, k, k);
  }

  // ----- the search

  ghost predicate Begins(s: string, i: nat, atLine: bool) {
    if i == 0 then atLine else i <= |s| && s[i - 1] == '\n'
  }

  lemma {:induction false} FindFrom(cls: Classes, p: Pattern, s: string, atLine: bool)
    ensures var r := FindText(cls, p, s, atLine);
      && (r.Some? ==> Begins(s, r.value, atLine))
      && forall j :: 0 <= j < (if r.Some? then r.value else |s| + 1) && Begins(s, j, atLine) ==>
           Match(RegexOf(cls, p), s[j..]).None?
  {
    hide Match, RegexOf;
    assert s[0..] == s;
    if s != "" && !(atLine && Match(RegexOf(cls, p), s).Some?) {
      FindFrom(cls, p, s[1..], s[0] == '\n');
      var r := FindText(cls, p, s[1..], s[0] == '\n');
      forall j | 0 < j < (if r.Some? then r.value else |s|) + 1 && Begins(s, j, atLine)
        ensures Match(RegexOf(cls, p), s[j..]).None?
      {
        BeginsLater(s, j, atLine);
      }
      if r.Some? {
        assert FindText(cls, p, s, atLine) == Some(r.value + 1);
      }
    }
  }

  lemma BeginsLater(s: string, j: nat, atLine: bool)
    requires 0 < j <= |s|
    ensures s[1..][j - 1..] == s[j..]
    ensures Begins(s, j, atLine) <==> Begins(s[1..], j - 1, s[0] == '\n')
  {
  }

  // The first line start at which the pattern matches, and nothing if there is
  // none.
  lemma FindIff(cls: Classes, p: Pattern, s: string, i: nat)
    ensures FindText(cls, p, s, true) == Some(i)
       <==> && LineStarts(s, i) && i <= |s| && Match(RegexOf(cls, p), s[i..]).Some?
            && forall j :: 0 <= j < i && LineStarts(s, j) ==> Match(RegexOf(cls, p), s[j..]).None?
  {
    hide Match, RegexOf;
    FindFrom(cls, p, s, true);
    assert forall j :: 0 <= j <= |s| ==> (LineStarts(s, j) <==> Begins(s, j, true));
  }
}
