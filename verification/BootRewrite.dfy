/** Rewriting a boot config, done on its text by the regular expressions, is
    rewriting its tokens. */
module BootRewrite {
  import opened Prelude
  import opened Relabel
  import opened Regex
  import opened Bootloader
  import opened BootTokens
  import opened BootAgree
  import opened Rebuild

  // ----- searching

  lemma {:induction false} FindOverChars(cls: Classes, p: Pattern, w: string, rest: string)
    requires forall c :: c in w ==> NoFeed(c)
    ensures FindText(cls, p, w + rest, false) == Plus1(|w|, FindText(cls, p, rest, false))
  {
    hide Match, RegexOf;
    if w == "" {
      assert w + rest == rest;
    } else {
      assert (w + rest)[1..] == w[1..] + rest && w[0] in w;
      FindOverChars(cls, p, w[1..], rest);
    }
  }

  lemma FindStep(cls: Classes, p: Pattern, s: string, atLine: bool)
    requires s != "" && !(atLine && Match(RegexOf(cls, p), s).Some?)
    ensures FindText(cls, p, s, atLine) == Plus1(1, FindText(cls, p, s[1..], s[0] == '\n'))
  {
    hide Match, RegexOf;
  }

  lemma FirstStep(cls: Classes, p: Pattern, ts: seq<Token>, atLine: bool)
    requires ts != [] && !(atLine && MatchLen(cls, p, ts).Some?)
    ensures FindFirst(cls, p, ts, atLine) == Plus1(1, FindFirst(cls, p, ts[1..], ts[0] == NL))
  {
    hide MatchLen;
  }

  lemma FindHere(cls: Classes, p: Pattern, s: string)
    requires Match(RegexOf(cls, p), s).Some?
    ensures FindText(cls, p, s, true) == Some(0)
  {
    hide Match, RegexOf;
  }

  lemma FirstHere(cls: Classes, p: Pattern, ts: seq<Token>)
    requires MatchLen(cls, p, ts).Some?
    ensures FindFirst(cls, p, ts, true) == Some(0)
  {
    hide MatchLen;
  }

  lemma FindNowhere(cls: Classes, p: Pattern, atLine: bool)
    requires !(atLine && Match(RegexOf(cls, p), "").Some?)
    ensures FindText(cls, p, "", atLine) == None && FindFirst(cls, p, [], atLine) == None
  {
    hide Match, RegexOf, MatchLen;
  }

  lemma LabelHasNoFeed(cls: Classes, w: string)
    requires Sensible(cls) && IsLabel(cls, w)
    ensures forall c :: c in w ==> NoFeed(c)
  {
  }

  // The search over a whole word, no match at its start.
  lemma FindOverWord(cls: Classes, p: Pattern, s: string, atLine: bool)
    requires Sensible(cls) && s != "" && cls.inLabel(s[0]) && !(atLine && Match(RegexOf(cls, p), s).Some?)
    ensures Run(cls.inLabel, s) > 0
    ensures FindText(cls, p, s, atLine) == Plus1(Run(cls.inLabel, s), FindText(cls, p, s[Run(cls.inLabel, s)..], false))
  {
    hide *;
    SplitWord(cls, s);
    var n := Run(cls.inLabel, s);
    var w, rest := s[..n], s[n..];
    LabelHasNoFeed(cls, w);
    TailHasNoFeed(w);
    FeedIs(w[0]);
    FindStep(cls, p, s, atLine);
    Rejoin(w, rest);
    FindOverChars(cls, p, w[1..], rest);
    Plus1Sum(1, n - 1, FindText(cls, p, rest, false));
  }

  lemma FeedIs(c: char)
    ensures NoFeed(c) <==> c != '\n'
  {
  }

  // The search finds the same line start in a text and in its tokens.
  lemma {:induction false} FindAgrees(cls: Classes, p: Pattern, s: string, atLine: bool)
    requires Sensible(cls)
    ensures Agrees(cls, s, FindText(cls, p, s, atLine), FindFirst(cls, p, Tokens(cls, s), atLine))
    decreases |s|
  {
    MatchAgrees(cls, p, s);
    NoTokensIff(cls, s);
    var ts := Tokens(cls, s);
    if atLine && Match(RegexOf(cls, p), s).Some? {
      hide *;
      FindHere(cls, p, s);
      FirstHere(cls, p, ts);
      StartAligned(cls, s);
      AgreeSome(cls, s, Some(0), Some(0));
    } else if s == "" {
      hide *;
      FindNowhere(cls, p, atLine);
      AgreeNone(cls, s, None, None);
    } else if cls.inLabel(s[0]) {
      SplitWord(cls, s);
      assert NL == Other('\n');
      hide *;
      var n := Run(cls.inLabel, s);
      FindOverWord(cls, p, s, atLine);
      FirstStep(cls, p, ts, atLine);
      AlignedBound(cls, s, n, 1);
      FindAgrees(cls, p, s[n..], false);
      AgreeAfter(cls, s, n, 1, FindText(cls, p, s[n..], false), FindFirst(cls, p, ts[1..], false));
    } else {
      OtherHead(cls, s);
      assert NL == Other('\n');
      hide *;
      FindStep(cls, p, s, atLine);
      FirstStep(cls, p, ts, atLine);
      AlignedBound(cls, s, 1, 1);
      FindAgrees(cls, p, s[1..], s[0] == '\n');
      AgreeAfter(cls, s, 1, 1, FindText(cls, p, s[1..], s[0] == '\n'), FindFirst(cls, p, ts[1..], s[0] == '\n'));
    }
  }

  // ----- replacing a line

  lemma AlignedTexts(cls: Classes, s: string, c: nat, k: nat)
    requires Aligned(cls, s, c, k)
    ensures c <= |s| && k <= |Tokens(cls, s)|
    ensures Detok(Tokens(cls, s)[..k]) == s[..c] && Detok(Tokens(cls, s)[k..]) == s[c..]
  {
    AlignedLen(cls, s, c, k);
    DetokTokens(cls, s[c..]);
    hide Tokens, Detok;
  }

  lemma Detok3(a: seq<Token>, b: seq<Token>, c: seq<Token>)
    ensures Detok(a + b + c) == Detok(a) + Detok(b) + Detok(c)
  {
    DetokConcat(a + b, c);
    DetokConcat(a, b);
    hide Detok;
  }

  lemma FeedText()
    ensures Detok([NL]) == "\n"
  {
    assert [NL][1..] == [] && Detok([]) == "";
  }

  lemma SetTextIs(cls: Classes, p: Pattern, s: string, line: string)
    ensures SetText(cls, p, s, line) ==
      match FindText(cls, p, s, true)
      case None => line + "\n" + s
      case Some(i) => s[..i] + line + s[i + Match(RegexOf(cls, p), s[i..]).value..]
  {
    hide FindText, Match, RegexOf;
  }

  lemma SetLineIs(cls: Classes, p: Pattern, ts: seq<Token>, line: seq<Token>)
    ensures SetLine(cls, p, ts, line) ==
      match FindFirst(cls, p, ts, true)
      case None => line + [NL] + ts
      case Some(i) => ts[..i] + line + ts[i + MatchLen(cls, p, ts[i..]).value..]
  {
    hide FindFirst, MatchLen;
  }

  lemma SetFoundAgrees(cls: Classes, p: Pattern, s: string, line: seq<Token>, c: nat, k: nat)
    requires Sensible(cls) && Aligned(cls, s, c, k)
    requires c <= |s| && k <= |Tokens(cls, s)|
    requires Match(RegexOf(cls, p), s[c..]).Some? && MatchLen(cls, p, Tokens(cls, s)[k..]).Some?
    ensures s[..c] + Detok(line) + s[c + Match(RegexOf(cls, p), s[c..]).value..]
         == Detok(Tokens(cls, s)[..k] + line + Tokens(cls, s)[k + MatchLen(cls, p, Tokens(cls, s)[k..]).value..])
  {
    hide *;
    var ts := Tokens(cls, s);
    AlignedTexts(cls, s, c, k);
    AlignedBound(cls, s, c, k);
    MatchAgrees(cls, p, s[c..]);
    var m, n := Match(RegexOf(cls, p), s[c..]).value, MatchLen(cls, p, ts[k..]).value;
    AgreeParts(cls, s[c..], Match(RegexOf(cls, p), s[c..]), MatchLen(cls, p, ts[k..]));
    AlignedStep(cls, s, c, k, m, n);
    AlignedTexts(cls, s, c + m, k + n);
    Detok3(ts[..k], line, ts[k + n..]);
  }

  lemma SetNoneAgrees(s: string, ts: seq<Token>, line: seq<Token>)
    requires Detok(ts) == s
    ensures Detok(line) + "\n" + s == Detok(line + [NL] + ts)
  {
    hide *;
    Detok3(line, [NL], ts);
    FeedText();
  }

  // Replacing a line of the text is replacing it among the tokens.
  lemma SetAgrees(cls: Classes, p: Pattern, s: string, line: seq<Token>)
    requires Sensible(cls)
    ensures SetText(cls, p, s, Detok(line)) == Detok(SetLine(cls, p, Tokens(cls, s), line))
  {
    hide *;
    var ts := Tokens(cls, s);
    SetTextIs(cls, p, s, Detok(line));
    SetLineIs(cls, p, ts, line);
    FindAgrees(cls, p, s, true);
    var c, k := FindText(cls, p, s, true), FindFirst(cls, p, ts, true);
    AgreeParts(cls, s, c, k);
    if c.None? {
      DetokTokens(cls, s);
      SetNoneAgrees(s, ts, line);
    } else {
      SetFoundAgrees(cls, p, s, line, c.value, k.value);
    }
  }

  // ----- removing lines

  lemma {:induction false} RemoveOverChars(cls: Classes, w: string, rest: string)
    requires forall c :: c in w ==> NoFeed(c)
    ensures RemoveText(cls, w + rest, false) == w + RemoveText(cls, rest, false)
  {
    hide Match, RegexOf;
    if w == "" {
      assert w + rest == rest;
    } else {
      assert (w + rest)[1..] == w[1..] + rest && w[0] in w;
      RemoveOverChars(cls, w[1..], rest);
    }
  }

  lemma RemoveTextStep(cls: Classes, s: string, atLine: bool)
    requires s != "" && !(atLine && Match(RegexOf(cls, MenuDefault), s).Some?)
    ensures RemoveText(cls, s, atLine) == [s[0]] + RemoveText(cls, s[1..], s[0] == '\n')
  {
    hide Match, RegexOf;
  }

  lemma RemoveTextCut(cls: Classes, s: string, n: nat)
    requires s != "" && Match(RegexOf(cls, MenuDefault), s) == Some(n) && 0 < n <= |s|
    ensures RemoveText(cls, s, true) == RemoveText(cls, s[n..], s[n - 1] == '\n')
  {
    hide Match, RegexOf;
  }

  lemma RemoveStep(cls: Classes, ts: seq<Token>, atLine: bool)
    requires ts != [] && !(atLine && MatchLen(cls, MenuDefault, ts).Some?)
    ensures RemoveMenuDefault(cls, ts, atLine) == [ts[0]] + RemoveMenuDefault(cls, ts[1..], ts[0] == NL)
  {
    hide MatchLen;
  }

  lemma RemoveCut(cls: Classes, ts: seq<Token>)
    requires ts != [] && MatchLen(cls, MenuDefault, ts).Some?
    ensures var m := MatchLen(cls, MenuDefault, ts).value;
      0 < m <= |ts| && RemoveMenuDefault(cls, ts, true) == RemoveMenuDefault(cls, ts[m..], ts[m - 1] == NL)
  {
    hide MatchLen;
  }

  lemma RemoveNothing(cls: Classes, atLine: bool)
    ensures RemoveText(cls, "", atLine) == "" && RemoveMenuDefault(cls, [], atLine) == [] && Detok([]) == ""
  {
  }

  lemma Rejoin(w: string, more: string)
    requires w != ""
    ensures [w[0]] + (w[1..] + more) == w + more && (w + more)[0] == w[0] && (w + more)[1..] == w[1..] + more
  {
    assert w == [w[0]] + w[1..];
  }

  lemma TailHasNoFeed(w: string)
    requires w != "" && forall c :: c in w ==> NoFeed(c)
    ensures NoFeed(w[0]) && forall c :: c in w[1..] ==> NoFeed(c)
  {
    hide NoFeed;
    assert w[0] in w;
  }

  lemma RemoveOverWord(cls: Classes, s: string, atLine: bool)
    requires Sensible(cls) && s != "" && cls.inLabel(s[0]) && !(atLine && Match(RegexOf(cls, MenuDefault), s).Some?)
    ensures Run(cls.inLabel, s) > 0
    ensures RemoveText(cls, s, atLine) == s[..Run(cls.inLabel, s)] + RemoveText(cls, s[Run(cls.inLabel, s)..], false)
  {
    hide *;
    SplitWord(cls, s);
    var n := Run(cls.inLabel, s);
    var w, rest := s[..n], s[n..];
    LabelHasNoFeed(cls, w);
    TailHasNoFeed(w);
    FeedIs(w[0]);
    RemoveTextStep(cls, s, atLine);
    Rejoin(w, rest);
    RemoveOverChars(cls, w[1..], rest);
    Rejoin(w, RemoveText(cls, rest, false));
  }

  // After a cut both sides agree on whether a line starts.
  lemma SameLineStart(cls: Classes, s: string, n: nat, m: nat)
    requires Sensible(cls) && Aligned(cls, s, n, m) && 0 < m
    ensures 0 < n && (s[n - 1] == '\n' <==> Tokens(cls, s)[m - 1] == NL)
  {
    var ts := Tokens(cls, s);
    TokensValid(cls, s);
    assert WellFormed(cls, ts[m - 1]) by { assert ts[m - 1] in ts; }
    hide Tokens, Valid;
    AlignedLen(cls, s, n, m);
    var last := TextOf(ts[m - 1]);
    assert ts[..m] == ts[..m - 1] + [ts[m - 1]];
    DetokConcat(ts[..m - 1], [ts[m - 1]]);
    OneTokenText(ts[m - 1]);
    assert s[..n] == Detok(ts[..m - 1]) + last && last != "";
    assert s[n - 1] == s[..n][n - 1] == last[|last| - 1];
    assert last[|last| - 1] in last;
  }

  lemma OneTokenText(t: Token)
    ensures Detok([t]) == TextOf(t)
  {
    assert [t][1..] == [] && Detok([]) == "";
    assert TextOf(t) + "" == TextOf(t);
  }

  lemma TokenThen(t: Token, ts: seq<Token>)
    ensures Detok([t] + ts) == TextOf(t) + Detok(ts)
  {
    assert ([t] + ts)[1..] == ts;
  }

  lemma TextIs(t: Token)
    ensures t.Word? ==> TextOf(t) == t.text
    ensures t.Other? ==> TextOf(t) == [t.c]
  {
  }

  lemma MatchIsSome(cls: Classes, ts: seq<Token>)
    ensures var r := MatchLen(cls, MenuDefault, ts); r.Some? ==> 0 < r.value <= |ts|
  {
    hide MatchMenuDefault;
  }

  // Removing `menu default` lines from a text is removing them from its tokens.
  lemma {:induction false} RemoveAgrees(cls: Classes, s: string, atLine: bool)
    requires Sensible(cls)
    ensures RemoveText(cls, s, atLine) == Detok(RemoveMenuDefault(cls, Tokens(cls, s), atLine))
    decreases |s|
  {
    MatchAgrees(cls, MenuDefault, s);
    NoTokensIff(cls, s);
    var ts := Tokens(cls, s);
    var m, n := Match(RegexOf(cls, MenuDefault), s), MatchLen(cls, MenuDefault, ts);
    if s == "" {
      hide *;
      RemoveNothing(cls, atLine);
    } else if atLine && m.Some? {
      hide *;
      MatchIsSome(cls, ts);
      AgreeParts(cls, s, m, n);
      AlignedBound(cls, s, m.value, n.value);
      SameLineStart(cls, s, m.value, n.value);
      RemoveTextCut(cls, s, m.value);
      RemoveCut(cls, ts);
      RemoveAgrees(cls, s[m.value..], s[m.value - 1] == '\n');
    } else if cls.inLabel(s[0]) {
      SplitWord(cls, s);
      assert NL == Other('\n');
      hide *;
      var k := Run(cls.inLabel, s);
      RemoveOverWord(cls, s, atLine);
      RemoveStep(cls, ts, atLine);
      AlignedBound(cls, s, k, 1);
      RemoveAgrees(cls, s[k..], false);
      TokenThen(ts[0], RemoveMenuDefault(cls, ts[1..], false));
      TextIs(ts[0]);
    } else {
      OtherHead(cls, s);
      assert NL == Other('\n');
      hide *;
      RemoveTextStep(cls, s, atLine);
      RemoveStep(cls, ts, atLine);
      AlignedBound(cls, s, 1, 1);
      RemoveAgrees(cls, s[1..], s[0] == '\n');
      TokenThen(ts[0], RemoveMenuDefault(cls, ts[1..], s[0] == '\n'));
      TextIs(ts[0]);
    }
  }

  // ----- the texts of the constants

  lemma SpaceThen(w: string, ts: seq<Token>)
    ensures Detok([Word(w), Other(' ')] + ts) == w + " " + Detok(ts)
  {
    assert [Word(w), Other(' ')] + ts == [Word(w)] + ([Other(' ')] + ts);
    TokenThen(Word(w), [Other(' ')] + ts);
    TokenThen(Other(' '), ts);
  }

  lemma MarkerStart(ts: seq<Token>)
    ensures Detok([Other('#'), Other(' ')] + ts) == "# " + Detok(ts)
  {
    assert [Other('#'), Other(' ')] + ts == [Other('#')] + ([Other(' ')] + ts);
    TokenThen(Other('#'), [Other(' ')] + ts);
    TokenThen(Other(' '), ts);
    assert "#" + (" " + Detok(ts)) == "# " + Detok(ts);
  }

  lemma MarkerDash(ts: seq<Token>)
    ensures Detok([Other('\U{2014}'), Other(' ')] + ts) == "\U{2014} " + Detok(ts)
  {
    assert [Other('\U{2014}'), Other(' ')] + ts == [Other('\U{2014}')] + ([Other(' ')] + ts);
    TokenThen(Other('\U{2014}'), [Other(' ')] + ts);
    TokenThen(Other(' '), ts);
    assert "\U{2014}" + (" " + Detok(ts)) == "\U{2014} " + Detok(ts);
  }

  lemma MarkerTail()
    ensures Detok([Word("do"), Other(' ')] + ([Word("not"), Other(' ')] + [])) + "edit" == "do not edit"
  {
    SpaceThen("not", []);
    SpaceThen("do", [Word("not"), Other(' ')] + []);
    assert Detok([]) == "";
    assert "not" + " " + "" == "not ";
    assert "do" + " " + "not " == "do not ";
    assert "do not " + "edit" == "do not edit";
  }

  // The marker is the text of `IDEMPOTENCY_MARKER`.
  lemma MarkerText()
    ensures MARKER == "# ks-gen " + ("unattended " + ("entry " + ("\U{2014} " + "do not edit")))
  {
    var tail := [Word("do"), Other(' ')] + ([Word("not"), Other(' ')] + []);
    var dash := [Other('\U{2014}'), Other(' ')] + tail;
    var entry := [Word("entry"), Other(' ')] + dash;
    var unattended := [Word("unattended"), Other(' ')] + entry;
    var ksgen := [Word("ks-gen"), Other(' ')] + unattended;
    assert MARKER_HEAD == [Other('#'), Other(' ')] + ksgen;
    hide MARKER_HEAD, Detok;
    MarkerTail();
    MarkerDash(tail);
    SpaceThen("entry", dash);
    SpaceThen("unattended", entry);
    SpaceThen("ks-gen", unattended);
    MarkerStart(ksgen);
    MarkerPieces(Detok(tail));
  }

  lemma MarkerPieces(tail: string)
    requires tail + "edit" == "do not edit"
    ensures "# " + ("ks-gen" + " " + ("unattended" + " " + ("entry" + " " + ("\U{2014} " + tail)))) + "edit"
         == "# ks-gen " + ("unattended " + ("entry " + ("\U{2014} " + "do not edit")))
  {
    assert "ks-gen" + " " == "ks-gen " && "unattended" + " " == "unattended " && "entry" + " " == "entry ";
    assert "# " + "ks-gen " == "# ks-gen ";
    var e := "\U{2014} " + tail;
    assert e + "edit" == "\U{2014} " + (tail + "edit");
    assert ("entry " + e) + "edit" == "entry " + (e + "edit");
    assert ("unattended " + ("entry " + e)) + "edit" == "unattended " + (("entry " + e) + "edit");
    var u := "unattended " + ("entry " + e);
    assert "# " + ("ks-gen " + u) + "edit" == "# ks-gen " + (u + "edit");
  }

  lemma TimeoutText()
    ensures Detok(TIMEOUT) == TIMEOUT_TEXT
  {
    assert TIMEOUT == [Word("timeout")] + ([Other(' ')] + [Word("50")]);
    hide Detok, TIMEOUT;
    TokenThen(Word("timeout"), [Other(' ')] + [Word("50")]);
    TokenThen(Other(' '), [Word("50")]);
    OneTokenText(Word("50"));
  }

  lemma TimeoutLiteral()
    ensures "set" + (" " + ("timeout" + ("=" + "5"))) == SET_TIMEOUT_TEXT
  {
    assert "timeout" + ("=" + "5") == "timeout=5";
    assert "set" + (" " + "timeout=5") == "set timeout=5";
  }

  lemma DefaultLiteral()
    ensures "set" + (" " + ("default" + ("=" + "\"0\""))) == SET_DEFAULT_TEXT
  {
    assert "default" + ("=" + "\"0\"") == "default=\"0\"";
    assert "set" + (" " + "default=\"0\"") == "set default=\"0\"";
  }

  lemma SetTimeoutText()
    ensures Detok(SET_TIMEOUT) == SET_TIMEOUT_TEXT
  {
    var five := [Other('=')] + [Word("5")];
    assert SET_TIMEOUT == [Word("set")] + ([Other(' ')] + ([Word("timeout")] + five));
    hide Detok, SET_TIMEOUT;
    TokenThen(Word("set"), [Other(' ')] + ([Word("timeout")] + five));
    TokenThen(Other(' '), [Word("timeout")] + five);
    TokenThen(Word("timeout"), five);
    TokenThen(Other('='), [Word("5")]);
    OneTokenText(Word("5"));
    TimeoutLiteral();
  }

  lemma ZeroText()
    ensures Detok([Other('"')] + ([Word("0")] + [Other('"')])) == "\"0\""
  {
    TokenThen(Other('"'), [Word("0")] + [Other('"')]);
    TokenThen(Word("0"), [Other('"')]);
    OneTokenText(Other('"'));
  }

  lemma SetDefaultText()
    ensures Detok(SET_DEFAULT) == SET_DEFAULT_TEXT
  {
    var zero := [Other('"')] + ([Word("0")] + [Other('"')]);
    assert SET_DEFAULT == [Word("set")] + ([Other(' ')] + ([Word("default")] + ([Other('=')] + zero)));
    hide Detok, SET_DEFAULT;
    ZeroText();
    TokenThen(Word("set"), [Other(' ')] + ([Word("default")] + ([Other('=')] + zero)));
    TokenThen(Other(' '), [Word("default")] + ([Other('=')] + zero));
    TokenThen(Word("default"), [Other('=')] + zero);
    TokenThen(Other('='), zero);
    DefaultLiteral();
  }

  lemma LineTexts()
    ensures Detok(TIMEOUT) == TIMEOUT_TEXT && Detok(SET_TIMEOUT) == SET_TIMEOUT_TEXT && Detok(SET_DEFAULT) == SET_DEFAULT_TEXT
  {
    hide *;
    TimeoutText();
    SetTimeoutText();
    SetDefaultText();
  }

  lemma EditTextIs(cls: Classes, kind: Kind, s: string)
    ensures EditText(cls, kind, s) ==
      if kind == Isolinux then SetText(cls, TimeoutLine, RemoveText(cls, s, true), TIMEOUT_TEXT)
      else SetText(cls, SetDefault, SetText(cls, SetTimeout, s, SET_TIMEOUT_TEXT), SET_DEFAULT_TEXT)
  {
    hide SetText, RemoveText;
  }

  lemma EditsIs(cls: Classes, kind: Kind, ts: seq<Token>)
    ensures Edits(cls, kind, ts) ==
      if kind == Isolinux then SetLine(cls, TimeoutLine, RemoveMenuDefault(cls, ts, true), TIMEOUT)
      else SetLine(cls, SetDefault, SetLine(cls, SetTimeout, ts, SET_TIMEOUT), SET_DEFAULT)
  {
    hide SetLine, RemoveMenuDefault;
  }

  lemma LineEditsAre()
    ensures LineEdit(TimeoutLine) && LineEdit(SetTimeout) && LineEdit(SetDefault)
  {
  }

  // The edits of a text are the edits of its tokens.
  lemma EditsAgree(cls: Classes, kind: Kind, s: string)
    requires Sensible(cls)
    ensures Tokens(cls, EditText(cls, kind, s)) == Edits(cls, kind, Tokens(cls, s))
  {
    hide *;
    var ts := Tokens(cls, s);
    TokensValid(cls, s);
    LinesValid(cls);
    LineTexts();
    LineEditsAre();
    EditTextIs(cls, kind, s);
    EditsIs(cls, kind, ts);
    EditsValid(cls, kind, ts);
    if kind == Isolinux {
      var removed := RemoveMenuDefault(cls, ts, true);
      RemoveAgrees(cls, s, true);
      RemoveValid(cls, ts, true);
      TokensDetok(cls, removed);
      SetAgrees(cls, TimeoutLine, RemoveText(cls, s, true), TIMEOUT);
    } else {
      var one := SetLine(cls, SetTimeout, ts, SET_TIMEOUT);
      SetAgrees(cls, SetTimeout, s, SET_TIMEOUT);
      SetLineValid(cls, SetTimeout, ts, SET_TIMEOUT);
      TokensDetok(cls, one);
      SetAgrees(cls, SetDefault, SetText(cls, SetTimeout, s, SET_TIMEOUT_TEXT), SET_DEFAULT);
    }
    TokensDetok(cls, Edits(cls, kind, ts));
  }

  // The rewrite as one search, the edits, and a second search.
  lemma RewriteTextIs(cls: Classes, kind: Kind, s: string, entry: string)
    ensures RewriteText(cls, kind, s, entry) ==
      if FindText(cls, Keyword(kind), s, true).None? then Err(NoKeyword)
      else Inserted(EditText(cls, kind, s), entry, FindText(cls, Keyword(kind), EditText(cls, kind, s), true))
  {
    hide FindText, EditText;
  }

  lemma RewriteTokensIs(cls: Classes, kind: Kind, ts: seq<Token>, entry: seq<Token>)
    ensures RewriteTokens(cls, kind, ts, entry) ==
      if FindFirst(cls, Keyword(kind), ts, true).None? then Err(NoKeyword)
      else Inserted(Edits(cls, kind, ts), entry, FindFirst(cls, Keyword(kind), Edits(cls, kind, ts), true))
  {
    hide FindFirst, Edits;
  }

  function Inserted<T>(s: seq<T>, entry: seq<T>, i: Option<nat>): Result<seq<T>, RewriteError> {
    if i.None? || i.value > |s| then Err(KeywordLost) else Ok(s[..i.value] + entry + s[i.value..])
  }

  lemma InsertedAgrees(cls: Classes, s: string, entry: string, c: Option<nat>, k: Option<nat>)
    requires Agrees(cls, s, c, k)
    ensures Inserted(s, entry, c) == Written(Inserted(Tokens(cls, s), Tokens(cls, entry), k))
  {
    AgreeParts(cls, s, c, k);
    hide Tokens, Detok, Aligned, Agrees;
    if c.Some? {
      AlignedTexts(cls, s, c.value, k.value);
      DetokTokens(cls, entry);
      Detok3(Tokens(cls, s)[..k.value], Tokens(cls, entry), Tokens(cls, s)[k.value..]);
    }
  }

  // Rewriting the text with Python's regular expressions gives the text of the
  // rewritten tokens, and the same errors.
  lemma RewriteAgrees(cls: Classes, kind: Kind, text: string, entry: string)
    requires Sensible(cls)
    ensures RewriteText(cls, kind, text, entry)
         == Written(RewriteTokens(cls, kind, Tokens(cls, text), Tokens(cls, entry)))
  {
    hide *;
    var ts, edited := Tokens(cls, text), EditText(cls, kind, text);
    RewriteTextIs(cls, kind, text, entry);
    RewriteTokensIs(cls, kind, ts, Tokens(cls, entry));
    FindAgrees(cls, Keyword(kind), text, true);
    AgreeParts(cls, text, FindText(cls, Keyword(kind), text, true), FindFirst(cls, Keyword(kind), ts, true));
    EditsAgree(cls, kind, text);
    FindAgrees(cls, Keyword(kind), edited, true);
    InsertedAgrees(cls, edited, entry, FindText(cls, Keyword(kind), edited, true),
                   FindFirst(cls, Keyword(kind), Tokens(cls, edited), true));
    WrittenErr();
  }

  lemma WrittenErr()
    ensures Written(Err(NoKeyword)) == Err(NoKeyword)
  {
  }
}
