/** Building a boot config commutes with relabelling it, so a rebuild of a
    build is a direct build. */
module Rebuild {
  import opened Prelude
  import opened Relabel
  import opened Regex
  import opened Bootloader
  import opened BootTokens

  // ----- labels

  // The words the patterns and the marker are made of.
  predicate Reserved(cls: Classes, l: string) {
    || l == "label" || l == "menu" || l == "default" || l == "timeout" || l == "set" || l == "menuentry"
    || Word(l) in MARKER_HEAD
  }

  predicate PlainLabel(cls: Classes, l: string) {
    IsLabel(cls, l) && !Reserved(cls, l)
  }

  // A timeout line reads its digits as a number.
  predicate SameDigits(cls: Classes, w: string, x: string) {
    AllDigits(cls, w) <==> AllDigits(cls, x)
  }

  // The label is no whole word of the texts put in.
  predicate NotInTemplates(cls: Classes, kind: Kind, network: bool, w: string) {
    && (forall p :: p in Pieces(kind, network) ==> Word(w) !in Tokens(cls, p))
    && Word(w) !in TIMEOUT && Word(w) !in SET_TIMEOUT && Word(w) !in SET_DEFAULT
  }

  // ----- relabelling distributes over slices and concatenation

  lemma RelabelConcat(a: seq<Token>, b: seq<Token>, w: string, x: string)
    ensures RelabelTokens(a + b, w, x) == RelabelTokens(a, w, x) + RelabelTokens(b, w, x)
  {
  }

  lemma RelabelFrom(ts: seq<Token>, k: nat, w: string, x: string)
    requires k <= |ts|
    ensures RelabelTokens(ts[k..], w, x) == RelabelTokens(ts, w, x)[k..]
  {
  }

  lemma RelabelUpto(ts: seq<Token>, k: nat, w: string, x: string)
    requires k <= |ts|
    ensures RelabelTokens(ts[..k], w, x) == RelabelTokens(ts, w, x)[..k]
  {
  }

  lemma RelabelAbsent(ts: seq<Token>, w: string, x: string)
    requires Word(w) !in ts
    ensures RelabelTokens(ts, w, x) == ts
  {
  }

  // ----- the patterns see no difference between two labels

  lemma {:induction false} SameSpaces(cls: Classes, ts: seq<Token>, w: string, x: string)
    ensures Spaces(cls, RelabelTokens(ts, w, x)) == Spaces(cls, ts)
  {
    if ts != [] {
      RelabelFrom(ts, 1, w, x);
      SameSpaces(cls, ts[1..], w, x);
    }
  }

  lemma {:induction false} SameBlanks(ts: seq<Token>, w: string, x: string)
    ensures Blanks(RelabelTokens(ts, w, x)) == Blanks(ts)
  {
    if ts != [] {
      RelabelFrom(ts, 1, w, x);
      SameBlanks(ts[1..], w, x);
    }
  }

  lemma {:induction false} SameLastFeed(ts: seq<Token>, n: nat, w: string, x: string)
    requires n <= |ts|
    ensures LastFeed(RelabelTokens(ts, w, x), n) == LastFeed(ts, n)
  {
    if n > 0 {
      SameLastFeed(ts, n - 1, w, x);
    }
  }

  lemma {:induction false} SameTokenRun(chars: char -> bool, ts: seq<Token>, w: string, x: string)
    ensures TokenRun(chars, RelabelTokens(ts, w, x)) == TokenRun(chars, ts)
  {
    if ts != [] {
      RelabelFrom(ts, 1, w, x);
      SameTokenRun(chars, ts[1..], w, x);
    }
  }

  lemma SameToEol(cls: Classes, ts: seq<Token>, w: string, x: string)
    ensures SpaceToEol(cls, RelabelTokens(ts, w, x)) == SpaceToEol(cls, ts)
  {
    SameSpaces(cls, ts, w, x);
    SameLastFeed(ts, Spaces(cls, ts), w, x);
  }

  lemma SameWordSpace(cls: Classes, word: string, ts: seq<Token>, w: string, x: string)
    requires word != w && word != x
    ensures WordSpace(cls, word, RelabelTokens(ts, w, x)) == WordSpace(cls, word, ts)
  {
    hide Spaces, RelabelTokens, SpaceToken;
    if ts != [] {
      RelabelFrom(ts, 1, w, x);
      SameSpaces(cls, ts[1..], w, x);
    }
  }

  // What the patterns need of the two labels.
  predicate Unseen(cls: Classes, w: string) {
    w != "label" && w != "menu" && w != "default" && w != "timeout" && w != "set" && w != "menuentry"
  }

  lemma SameToken(cls: Classes, ts: seq<Token>, k: nat, w: string, x: string)
    requires k < |ts| && Unseen(cls, w) && Unseen(cls, x) && SameDigits(cls, w, x)
    ensures var us := RelabelTokens(ts, w, x);
      && (us[k] == Word("timeout") <==> ts[k] == Word("timeout"))
      && (us[k] == Word("default") <==> ts[k] == Word("default"))
      && (DigitsToken(cls, us[k]) <==> DigitsToken(cls, ts[k]))
      && (us[k].Other? || ts[k].Other? ==> us[k] == ts[k])
  {
  }

  lemma SameTimeout(cls: Classes, ts: seq<Token>, w: string, x: string)
    requires Unseen(cls, w) && Unseen(cls, x) && SameDigits(cls, w, x)
    ensures MatchTimeout(cls, RelabelTokens(ts, w, x)) == MatchTimeout(cls, ts)
  {
    hide SpaceToEol, RelabelTokens, WordSpace, SameDigits, DigitsToken;
    SameWordSpace(cls, "timeout", ts, w, x) by { hide SameDigits; }
    var r := WordSpace(cls, "timeout", ts);
    if r.Some? && r.value < |ts| {
      hide Unseen;
      SameToken(cls, ts, r.value, w, x);
      RelabelFrom(ts, r.value + 1, w, x);
      SameToEol(cls, ts[r.value + 1..], w, x);
    }
  }

  lemma SameSetTimeout(cls: Classes, ts: seq<Token>, w: string, x: string)
    requires Unseen(cls, w) && Unseen(cls, x) && SameDigits(cls, w, x)
    ensures MatchSetTimeout(cls, RelabelTokens(ts, w, x)) == MatchSetTimeout(cls, ts)
  {
    hide SpaceToEol, RelabelTokens, WordSpace, SameDigits, DigitsToken;
    SameWordSpace(cls, "set", ts, w, x);
    var r := WordSpace(cls, "set", ts);
    if r.Some? && r.value + 3 <= |ts| {
      hide Unseen;
      SameToken(cls, ts, r.value, w, x);
      SameToken(cls, ts, r.value + 1, w, x);
      SameToken(cls, ts, r.value + 2, w, x);
      RelabelFrom(ts, r.value + 3, w, x);
      SameToEol(cls, ts[r.value + 3..], w, x);
    }
  }

  lemma SameSetDefault(cls: Classes, ts: seq<Token>, w: string, x: string)
    requires Unseen(cls, w) && Unseen(cls, x) && SameDigits(cls, w, x)
    ensures MatchSetDefault(cls, RelabelTokens(ts, w, x)) == MatchSetDefault(cls, ts)
  {
    hide TokenRun, RelabelTokens, WordSpace, SameDigits, DigitsToken;
    SameWordSpace(cls, "set", ts, w, x);
    var r := WordSpace(cls, "set", ts);
    if r.Some? && r.value + 2 <= |ts| {
      hide Unseen;
      SameToken(cls, ts, r.value, w, x);
      SameToken(cls, ts, r.value + 1, w, x);
      RelabelFrom(ts, r.value + 2, w, x);
      SameTokenRun(NoFeed, ts[r.value + 2..], w, x);
    }
  }

  lemma SameLabel(cls: Classes, ts: seq<Token>, w: string, x: string)
    requires Unseen(cls, w) && Unseen(cls, x) && SameDigits(cls, w, x)
    ensures MatchLabel(cls, RelabelTokens(ts, w, x)) == MatchLabel(cls, ts)
  {
    hide TokenRun, RelabelTokens, WordSpace, SameDigits, DigitsToken;
    SameWordSpace(cls, "label", ts, w, x);
    var r := WordSpace(cls, "label", ts);
    if r.Some? {
      RelabelFrom(ts, r.value, w, x);
      SameTokenRun(NonSpace(cls), ts[r.value..], w, x);
    }
  }

  lemma SameLineEnd(ts: seq<Token>, e: nat, w: string, x: string)
    requires e <= |ts|
    ensures LineEnd(RelabelTokens(ts, w, x), e) == LineEnd(ts, e)
  {
  }

  lemma SameMenu(cls: Classes, ts: seq<Token>, w: string, x: string)
    requires Unseen(cls, w) && Unseen(cls, x) && SameDigits(cls, w, x)
    ensures MatchMenu(cls, RelabelTokens(ts, w, x)) == MatchMenu(cls, ts)
  {
    hide SpaceToEol, RelabelTokens, WordSpace, SameDigits, DigitsToken, LineEnd;
    SameWordSpace(cls, "menu", ts, w, x);
    var r := WordSpace(cls, "menu", ts);
    if r.Some? && r.value < |ts| {
      hide Unseen;
      SameToken(cls, ts, r.value, w, x);
      RelabelFrom(ts, r.value + 1, w, x);
      SameToEol(cls, ts[r.value + 1..], w, x);
      var j := SpaceToEol(cls, ts[r.value + 1..]);
      if j.Some? {
        SameLineEnd(ts, r.value + 1 + j.value, w, x);
      }
    }
  }

  lemma SameMenuDefault(cls: Classes, ts: seq<Token>, w: string, x: string)
    requires Unseen(cls, w) && Unseen(cls, x) && SameDigits(cls, w, x)
    ensures MatchMenuDefault(cls, RelabelTokens(ts, w, x)) == MatchMenuDefault(cls, ts)
  {
    hide MatchMenu, Unseen, SameDigits, Blanks, RelabelTokens;
    SameBlanks(ts, w, x);
    RelabelFrom(ts, Blanks(ts), w, x);
    SameMenu(cls, ts[Blanks(ts)..], w, x);
  }

  lemma SameMatch(cls: Classes, p: Pattern, ts: seq<Token>, w: string, x: string)
    requires PlainLabel(cls, w) && PlainLabel(cls, x) && SameDigits(cls, w, x)
    ensures MatchLen(cls, p, RelabelTokens(ts, w, x)) == MatchLen(cls, p, ts)
  {
    hide RelabelTokens, Tokens, WordSpace, SameDigits, IsLabel;
    hide MatchLabel, MatchTimeout, MatchSetTimeout, MatchSetDefault, MatchMenuDefault;
    assert Unseen(cls, w) && Unseen(cls, x);
    match p
    case LabelLine => SameLabel(cls, ts, w, x);
    case MenuEntry => SameWordSpace(cls, "menuentry", ts, w, x);
    case TimeoutLine => SameTimeout(cls, ts, w, x);
    case SetTimeout => SameSetTimeout(cls, ts, w, x);
    case SetDefault => SameSetDefault(cls, ts, w, x);
    case MenuDefault => SameMenuDefault(cls, ts, w, x);
  }

  lemma {:induction false} SameFind(cls: Classes, p: Pattern, ts: seq<Token>, atLine: bool, w: string, x: string)
    requires PlainLabel(cls, w) && PlainLabel(cls, x) && SameDigits(cls, w, x)
    ensures FindFirst(cls, p, RelabelTokens(ts, w, x), atLine) == FindFirst(cls, p, ts, atLine)
  {
    hide MatchLen, PlainLabel, SameDigits, RelabelTokens;
    if ts != [] {
      SameMatch(cls, p, ts, w, x);
      RelabelFrom(ts, 1, w, x);
      SameFind(cls, p, ts[1..], ts[0] == NL, w, x);
    }
  }

  lemma SetLineCommutes(cls: Classes, p: Pattern, ts: seq<Token>, line: seq<Token>, w: string, x: string)
    requires PlainLabel(cls, w) && PlainLabel(cls, x) && SameDigits(cls, w, x)
    requires Word(w) !in line
    ensures RelabelTokens(SetLine(cls, p, ts, line), w, x) == SetLine(cls, p, RelabelTokens(ts, w, x), line)
  {
    hide MatchLen, PlainLabel, SameDigits, RelabelTokens, FindFirst;
    SameFind(cls, p, ts, true, w, x);
    RelabelAbsent(line, w, x);
    match FindFirst(cls, p, ts, true)
    case None =>
      RelabelConcat(line + [NL], ts, w, x);
      RelabelConcat(line, [NL], w, x);
      RelabelAbsent([NL], w, x);
    case Some(i) =>
      RelabelFrom(ts, i, w, x);
      SameMatch(cls, p, ts[i..], w, x);
      var j := i + MatchLen(cls, p, ts[i..]).value;
      RelabelFrom(ts, j, w, x);
      RelabelUpto(ts, i, w, x);
      RelabelConcat(ts[..i] + line, ts[j..], w, x);
      RelabelConcat(ts[..i], line, w, x);
  }

  lemma {:induction false} RemoveCommutes(cls: Classes, ts: seq<Token>, atLine: bool, w: string, x: string)
    requires PlainLabel(cls, w) && PlainLabel(cls, x) && SameDigits(cls, w, x)
    ensures RelabelTokens(RemoveMenuDefault(cls, ts, atLine), w, x)
         == RemoveMenuDefault(cls, RelabelTokens(ts, w, x), atLine)
    decreases |ts|
  {
    hide MatchLen, PlainLabel, SameDigits, RelabelTokens;
    if ts != [] {
      SameMatch(cls, MenuDefault, ts, w, x);
      var m := if atLine then MatchLen(cls, MenuDefault, ts) else None;
      if m.Some? {
        RelabelFrom(ts, m.value, w, x);
        RemoveCommutes(cls, ts[m.value..], ts[m.value - 1] == NL, w, x);
      } else {
        RelabelFrom(ts, 1, w, x);
        RemoveCommutes(cls, ts[1..], ts[0] == NL, w, x);
        RelabelConcat([ts[0]], RemoveMenuDefault(cls, ts[1..], ts[0] == NL), w, x);
        RelabelUpto(ts, 1, w, x);
        assert ts[..1] == [ts[0]];
        assert RelabelTokens(ts, w, x)[..1] == [RelabelTokens(ts, w, x)[0]];
      }
    } else {
      assert RelabelTokens(ts, w, x) == [];
    }
  }

  lemma EditsCommute(cls: Classes, kind: Kind, network: bool, ts: seq<Token>, w: string, x: string)
    requires PlainLabel(cls, w) && PlainLabel(cls, x) && SameDigits(cls, w, x) && NotInTemplates(cls, kind, network, w)
    ensures RelabelTokens(Edits(cls, kind, ts), w, x) == Edits(cls, kind, RelabelTokens(ts, w, x))
  {
    hide PlainLabel, SameDigits, RelabelTokens, SetLine, RemoveMenuDefault, Tokens, Pieces;
    if kind == Isolinux {
      RemoveCommutes(cls, ts, true, w, x);
      SetLineCommutes(cls, TimeoutLine, RemoveMenuDefault(cls, ts, true), TIMEOUT, w, x);
    } else {
      SetLineCommutes(cls, SetTimeout, ts, SET_TIMEOUT, w, x);
      SetLineCommutes(cls, SetDefault, SetLine(cls, SetTimeout, ts, SET_TIMEOUT),
                      SET_DEFAULT, w, x);
    }
  }

  function RelabelResult(r: Result<seq<Token>, RewriteError>, w: string, x: string): Result<seq<Token>, RewriteError> {
    match r case Ok(ts) => Ok(RelabelTokens(ts, w, x)) case Err(e) => Err(e)
  }

  lemma RewriteCommutes(cls: Classes, kind: Kind, network: bool, ts: seq<Token>, entry: seq<Token>, w: string, x: string)
    requires PlainLabel(cls, w) && PlainLabel(cls, x) && SameDigits(cls, w, x) && NotInTemplates(cls, kind, network, w)
    ensures RelabelResult(RewriteTokens(cls, kind, ts, entry), w, x)
         == RewriteTokens(cls, kind, RelabelTokens(ts, w, x), RelabelTokens(entry, w, x))
  {
    hide PlainLabel, SameDigits, RelabelTokens, NotInTemplates, FindFirst, Edits;
    SameFind(cls, Keyword(kind), ts, true, w, x);
    EditsCommute(cls, kind, network, ts, w, x);
    var es := Edits(cls, kind, ts);
    SameFind(cls, Keyword(kind), es, true, w, x);
    match FindFirst(cls, Keyword(kind), es, true)
    case None =>
    case Some(i) =>
      RelabelUpto(es, i, w, x);
      RelabelFrom(es, i, w, x);
      RelabelConcat(es[..i] + entry, es[i..], w, x);
      RelabelConcat(es[..i], entry, w, x);
  }

  // ----- the edits keep words maximal

  lemma ValidConcat(cls: Classes, a: seq<Token>, b: seq<Token>)
    requires Valid(cls, a) && Valid(cls, b)
    requires a == [] || b == [] || a[|a| - 1].Other? || b[0].Other?
    ensures Valid(cls, a + b)
  {
  }

  lemma ValidSlice(cls: Classes, ts: seq<Token>, i: nat, j: nat)
    requires Valid(cls, ts) && i <= j <= |ts|
    ensures Valid(cls, ts[i..j])
  {
    var r := ts[i..j];
    forall k | 0 <= k < |r| - 1
      ensures !(r[k].Word? && r[k + 1].Word?)
    {
      assert r[k] == ts[i + k] && r[k + 1] == ts[i + k + 1];
    }
  }

  lemma ValidFeed(cls: Classes)
    requires Sensible(cls)
    ensures Valid(cls, [NL])
  {
  }

  predicate LineEdit(p: Pattern) {
    p == TimeoutLine || p == SetTimeout || p == SetDefault
  }

  lemma SetLineValid(cls: Classes, p: Pattern, ts: seq<Token>, line: seq<Token>)
    requires Sensible(cls) && Valid(cls, ts) && Valid(cls, line) && LineEdit(p)
    ensures Valid(cls, SetLine(cls, p, ts, line))
  {
    hide Valid, Sensible, MatchLen, FindFirst;
    match FindFirst(cls, p, ts, true)
    case None =>
      ValidFeed(cls);
      ValidConcat(cls, line, [NL]);
      ValidConcat(cls, line + [NL], ts);
    case Some(i) =>
      var n := MatchLen(cls, p, ts[i..]).value;
      var rest := ts[i..];
      assert n <= |rest| && (n == |rest| || rest[n] == NL);
      assert n < |rest| ==> ts[i + n] == rest[n];
      ValidSlice(cls, ts, 0, i);
      ValidSlice(cls, ts, i + n, |ts|);
      assert ts[i + n..] == ts[i + n..|ts|] && ts[..i] == ts[0..i];
      ValidConcat(cls, ts[..i], line);
      ValidConcat(cls, ts[..i] + line, ts[i + n..]);
  }

  lemma {:induction false} RemoveValid(cls: Classes, ts: seq<Token>, atLine: bool)
    requires Valid(cls, ts)
    ensures Valid(cls, RemoveMenuDefault(cls, ts, atLine))
    ensures !atLine && ts != [] ==>
      RemoveMenuDefault(cls, ts, atLine) != [] && RemoveMenuDefault(cls, ts, atLine)[0] == ts[0]
    decreases |ts|
  {
    hide Valid, MatchLen;
    if ts != [] {
      var m := if atLine then MatchLen(cls, MenuDefault, ts) else None;
      if m.Some? {
        ValidSlice(cls, ts, m.value, |ts|);
        assert ts[m.value..] == ts[m.value..|ts|];
        RemoveValid(cls, ts[m.value..], ts[m.value - 1] == NL);
      } else {
        ValidTail(cls, ts);
        ValidSlice(cls, ts, 0, 1);
        assert ts[0..1] == [ts[0]];
        RemoveValid(cls, ts[1..], ts[0] == NL);
        ValidConcat(cls, [ts[0]], RemoveMenuDefault(cls, ts[1..], ts[0] == NL));
      }
    }
  }

  lemma LinesValid(cls: Classes)
    requires Sensible(cls)
    ensures Valid(cls, TIMEOUT) && Valid(cls, SET_TIMEOUT) && Valid(cls, SET_DEFAULT)
  {
    assert IsLabel(cls, "timeout") && IsLabel(cls, "set") && IsLabel(cls, "default");
    assert IsLabel(cls, "50") && IsLabel(cls, "5") && IsLabel(cls, "0");
  }

  lemma EditsValid(cls: Classes, kind: Kind, ts: seq<Token>)
    requires Sensible(cls) && Valid(cls, ts)
    ensures Valid(cls, Edits(cls, kind, ts))
  {
    LinesValid(cls);
    hide Sensible, Valid, SetLine, RemoveMenuDefault, Tokens;
    if kind == Isolinux {
      RemoveValid(cls, ts, true);
      SetLineValid(cls, TimeoutLine, RemoveMenuDefault(cls, ts, true), TIMEOUT);
    } else {
      SetLineValid(cls, SetTimeout, ts, SET_TIMEOUT);
      SetLineValid(cls, SetDefault, SetLine(cls, SetTimeout, ts, SET_TIMEOUT), SET_DEFAULT);
    }
  }

  lemma RewriteValid(cls: Classes, kind: Kind, ts: seq<Token>, entry: seq<Token>)
    requires Sensible(cls) && Valid(cls, ts) && Valid(cls, entry) && entry != [] && entry[|entry| - 1] == NL
    requires RewriteTokens(cls, kind, ts, entry).Ok?
    ensures var r := RewriteTokens(cls, kind, ts, entry).value;
      Valid(cls, r) && exists a, b :: r == a + entry + b
  {
    hide Sensible, Valid, FindFirst, Edits;
    EditsValid(cls, kind, ts);
    var es := Edits(cls, kind, ts);
    var i := FindFirst(cls, Keyword(kind), es, true).value;
    var a, b := es[..i], es[i..];
    ValidSlice(cls, es, 0, i);
    ValidSlice(cls, es, i, |es|);
    assert a == es[0..i] && b == es[i..|es|];
    ValidConcat(cls, a, entry);
    ValidConcat(cls, a + entry, b);
    assert RewriteTokens(cls, kind, ts, entry).value == a + entry + b;
  }

  // ----- the entry for another label is the relabelled entry

  // Every cut of a template lies between characters that no label has.
  predicate Cut(cls: Classes, pieces: seq<string>) {
    |pieces| > 1 ==>
      && pieces[0] != "" && !cls.inLabel(pieces[0][|pieces[0]| - 1])
      && pieces[1] != "" && !cls.inLabel(pieces[1][0])
      && Cut(cls, pieces[1..])
  }

  lemma {:induction false} TokensAround(cls: Classes, before: string, word: string, after: string)
    requires before == "" || !cls.inLabel(before[|before| - 1])
    requires after == "" || !cls.inLabel(after[0])
    requires IsLabel(cls, word)
    ensures Tokens(cls, before + word + after) == Tokens(cls, before) + [Word(word)] + Tokens(cls, after)
  {
    hide IsLabel, Tokens, Valid;
    var a, b, m := Tokens(cls, before), Tokens(cls, after), [Word(word)];
    TokensValid(cls, before);
    TokensValid(cls, after);
    DetokTokens(cls, before);
    DetokTokens(cls, after);
    EndsLike(cls, before);
    DetokStart(cls, b);
    WordValid(cls, word);
    ValidConcat(cls, a, m);
    ValidConcat(cls, a + m, b);
    DetokConcat(a + m, b);
    DetokConcat(a, m);
    assert Detok(m) == word by { assert m[1..] == []; assert word + "" == word; }
    TokensDetok(cls, a + m + b);
  }

  lemma WordValid(cls: Classes, word: string)
    requires IsLabel(cls, word)
    ensures Valid(cls, [Word(word)])
  {
  }

  // A text that ends outside a label ends in a token of one character.
  lemma {:induction false} EndsLike(cls: Classes, s: string)
    requires s != "" ==> !cls.inLabel(s[|s| - 1])
    ensures s == "" <==> Tokens(cls, s) == []
    ensures s != "" ==> Tokens(cls, s)[|Tokens(cls, s)| - 1] == Other(s[|s| - 1])
  {
    if s != "" {
      var n := Run(cls.inLabel, s);
      var rest := if n == 0 then s[1..] else s[n..];
      EndsLike(cls, rest);
      assert Tokens(cls, s)[1..] == Tokens(cls, rest);
    }
  }

  lemma NoTokens(cls: Classes)
    ensures Tokens(cls, "") == []
  {
  }

  lemma OneWordRelabels(w: string, x: string)
    ensures RelabelTokens([Word(w)], w, x) == [Word(x)]
  {
  }

  lemma {:induction false} FillRelabels(cls: Classes, pieces: seq<string>, w: string, x: string)
    requires Cut(cls, pieces) && IsLabel(cls, w) && IsLabel(cls, x)
    requires forall p :: p in pieces ==> Word(w) !in Tokens(cls, p)
    ensures RelabelTokens(Tokens(cls, Fill(pieces, w)), w, x) == Tokens(cls, Fill(pieces, x))
  {
    hide IsLabel, Tokens, RelabelTokens;
    if pieces == [] {
      NoTokens(cls);
      RelabelAbsent([], w, x);
    } else if |pieces| == 1 {
      RelabelAbsent(Tokens(cls, pieces[0]), w, x);
    } else {
      var rest := pieces[1..];
      FillRelabels(cls, rest, w, x);
      assert rest[0] == pieces[1];
      FillStart(rest, w);
      FillStart(rest, x);
      TokensAround(cls, pieces[0], w, Fill(rest, w));
      TokensAround(cls, pieces[0], x, Fill(rest, x));
      var a, b := Tokens(cls, pieces[0]), Tokens(cls, Fill(rest, w));
      RelabelConcat(a + [Word(w)], b, w, x);
      RelabelConcat(a, [Word(w)], w, x);
      RelabelAbsent(a, w, x);
      OneWordRelabels(w, x);
    }
  }

  lemma FillStart(pieces: seq<string>, w: string)
    requires pieces != [] && pieces[0] != ""
    ensures Fill(pieces, w) != "" && Fill(pieces, w)[0] == pieces[0][0] && pieces[0] <= Fill(pieces, w)
  {
  }
}
