/** What a rewritten boot config holds: the edited text with the entry in front of
    its first keyword line, and the lines that the edits set. */
module BootOutput {
  import opened Prelude
  import opened Relabel
  import opened Regex
  import opened Bootloader
  import opened BootEntry

  // ----- lines

  // `line` is a whole line of the text, at position i.
  predicate LineAt(text: string, line: string, i: nat) {
    && i + |line| <= |text|
    && text[i..i + |line|] == line
    && (i == 0 || text[i - 1] == '\n')
    && AtEol(text[i + |line|..])
  }

  ghost predicate HasLine(text: string, line: string) {
    exists i: nat :: LineAt(text, line, i)
  }

  lemma {:induction false} FoundAtLine(cls: Classes, p: Pattern, s: string, atLine: bool)
    requires FindText(cls, p, s, atLine).Some?
    ensures var i := FindText(cls, p, s, atLine).value; if i == 0 then atLine else s[i - 1] == '\n'
  {
    hide Match, RegexOf;
    if !(atLine && Match(RegexOf(cls, p), s).Some?) {
      FoundAtLine(cls, p, s[1..], s[0] == '\n');
    }
  }

  predicate EndsWithEol(re: seq<Item>) {
    re != [] && re[|re| - 1] == Eol
  }

  // A pattern that ends in `$` ends where a line does.
  lemma {:induction false} MatchEndsLine(re: seq<Item>, s: string)
    requires EndsWithEol(re) && Match(re, s).Some?
    ensures AtEol(s[Match(re, s).value..])
    decreases |re|, |s| + 1
  {
    match re[0]
    case Eol =>
      assert s[0..] == s;
      if |re| > 1 {
        MatchEndsLine(re[1..], s);
      }
    case Rep(chars, min, max) =>
      var run := Run(chars, s);
      BackEndsLine(re[1..], s, min, if max.Some? && max.value < run then max.value else run);
  }

  lemma {:induction false} BackEndsLine(rest: seq<Item>, s: string, min: nat, k: nat)
    requires k <= |s| && EndsWithEol(rest) && Back(rest, s, min, k).Some?
    ensures AtEol(s[Back(rest, s, min, k).value..])
    decreases |rest| + 1, k
  {
    if Match(rest, s[k..]).Some? {
      MatchEndsLine(rest, s[k..]);
      var n := Match(rest, s[k..]).value;
      assert s[k..][n..] == s[k + n..];
    } else {
      BackEndsLine(rest, s, min, k - 1);
    }
  }

  predicate SettingLine(p: Pattern) {
    p == TimeoutLine || p == SetTimeout || p == SetDefault
  }

  lemma SettingLines()
    ensures SettingLine(TimeoutLine) && SettingLine(SetTimeout) && SettingLine(SetDefault)
  {
  }

  lemma SettingsEndLines(cls: Classes, p: Pattern)
    requires SettingLine(p)
    ensures EndsWithEol(RegexOf(cls, p))
  {
    hide Lit;
  }

  lemma LineReplaced(s: string, i: nat, n: nat, line: string)
    requires i + n <= |s| && (i == 0 || s[i - 1] == '\n') && AtEol(s[i + n..])
    ensures HasLine(s[..i] + line + s[i + n..], line)
  {
    var out := s[..i] + line + s[i + n..];
    assert out[i + |line|..] == s[i + n..] && out[i..i + |line|] == line;
    assert LineAt(out, line, i);
  }

  lemma LinePrepended(s: string, line: string)
    ensures HasLine(line + "\n" + s, line)
  {
    var out := line + "\n" + s;
    assert out[..|line|] == line && out[|line|..] == "\n" + s;
    assert LineAt(out, line, 0);
  }

  lemma SetTextParts(cls: Classes, p: Pattern, s: string, line: string)
    ensures FindText(cls, p, s, true) == None ==> SetText(cls, p, s, line) == line + "\n" + s
    ensures FindText(cls, p, s, true).Some? ==>
      var i := FindText(cls, p, s, true).value;
      && i <= |s| && Match(RegexOf(cls, p), s[i..]).Some?
      && i + Match(RegexOf(cls, p), s[i..]).value <= |s|
      && SetText(cls, p, s, line) == s[..i] + line + s[i + Match(RegexOf(cls, p), s[i..]).value..]
  {
    hide RegexOf, Match, FindText;
  }

  // What an edit replaces, when its pattern is found: whole lines.
  lemma SetTextIs(cls: Classes, p: Pattern, s: string, line: string)
    requires SettingLine(p) && FindText(cls, p, s, true).Some?
    ensures var i := FindText(cls, p, s, true).value;
      && i <= |s| && (i == 0 || s[i - 1] == '\n') && Match(RegexOf(cls, p), s[i..]).Some?
      && i + Match(RegexOf(cls, p), s[i..]).value <= |s| && AtEol(s[i + Match(RegexOf(cls, p), s[i..]).value..])
  {
    hide *;
    SettingsEndLines(cls, p);
    SetTextParts(cls, p, s, "");
    FoundAtLine(cls, p, s, true);
    var i := FindText(cls, p, s, true).value;
    MatchEndsLine(RegexOf(cls, p), s[i..]);
    var n := Match(RegexOf(cls, p), s[i..]).value;
    assert s[i..][n..] == s[i + n..];
  }

  // After an edit its line is in the text.
  lemma SetLineIn(cls: Classes, p: Pattern, s: string, line: string)
    requires SettingLine(p)
    ensures HasLine(SetText(cls, p, s, line), line)
  {
    hide *;
    SetTextParts(cls, p, s, line);
    if FindText(cls, p, s, true).Some? {
      var i := FindText(cls, p, s, true).value;
      SetTextIs(cls, p, s, line);
      LineReplaced(s, i, Match(RegexOf(cls, p), s[i..]).value, line);
    } else {
      LinePrepended(s, line);
    }
  }

  // ----- the second grub edit keeps the line of the first

  lemma {:induction false} BackTakes(rest: seq<Item>, s: string, min: nat, k: nat) returns (j: nat)
    requires k <= |s| && Back(rest, s, min, k).Some?
    ensures min <= j <= k && Match(rest, s[j..]).Some? && Back(rest, s, min, k).value == j + Match(rest, s[j..]).value
    decreases k
  {
    if Match(rest, s[k..]).Some? {
      return k;
    }
    j := BackTakes(rest, s, min, k - 1);
  }

  // `default=` and the rest of the line, without a line feed.
  lemma DefaultShape(v: string)
    requires Match(Lit("default") + ([One('=')] + ([Star(NoFeed)] + [Eol])), v).Some?
    ensures var n := Match(Lit("default") + ([One('=')] + ([Star(NoFeed)] + [Eol])), v).value;
      8 <= n <= |v| && v[0] == 'd' && forall x :: 0 <= x < n ==> v[x] != '\n'
  {
    var tail := [Star(NoFeed)] + [Eol];
    hide Match, Lit, Back, One;
    LitMatch("default", [One('=')] + tail, v);
    var w := v[7..];
    OneMatch('=', tail, w);
    var y := w[1..];
    StarMatch(NoFeed, [Eol], y);
    var m := BackTakes([Eol], y, 0, Run(NoFeed, y));
    EolTakesNothing(y[m..]);
    assert forall x :: 8 <= x < 8 + m ==> v[x] == y[x - 8] && NoFeed(y[x - 8]);
    assert v[..7] == "default" && v[7] == '=';
  }

  lemma EolTakesNothing(s: string)
    ensures Match([Eol], s).Some? ==> Match([Eol], s).value == 0
  {
    assert [Eol][1..] == [];
  }

  // `set`, k white-space characters, then `default=` and the rest of the line: a
  // line feed only among the white space.
  lemma SetDefaultShape(cls: Classes, t: string) returns (k: nat)
    requires Match(RegexOf(cls, SetDefault), t).Some?
    ensures var n := Match(RegexOf(cls, SetDefault), t).value;
      && k > 0 && 3 + k + 8 <= n <= |t|
      && t[..3] == "set" && (forall x :: 3 <= x < 3 + k ==> cls.space(t[x])) && t[3 + k] == 'd'
      && (forall x :: 0 <= x < n && t[x] == '\n' ==> 3 <= x < 3 + k)
  {
    hide *;
    var value := Lit("default") + ([One('=')] + ([Star(NoFeed)] + [Eol]));
    var rest := [Plus(cls.space)] + value;
    DefaultRegex(cls);
    LitMatch("set", rest, t);
    SetTail(t, Match(rest, t[|"set"|..]));
    var u := t[3..];
    PlusMatch(cls.space, value, u);
    k := BackTakes(value, u, 1, Run(cls.space, u));
    var v := u[k..];
    DefaultShape(v);
    assert forall x :: 3 <= x < 3 + k ==> t[x] == u[x - 3];
    assert forall x :: 3 + k <= x < |t| ==> t[x] == v[x - 3 - k];
  }

  lemma DefaultRegex(cls: Classes)
    ensures RegexOf(cls, SetDefault)
         == Lit("set") + ([Plus(cls.space)] + (Lit("default") + ([One('=')] + ([Star(NoFeed)] + [Eol]))))
  {
    hide Lit, One;
  }

  lemma SetTail(t: string, r: Option<nat>)
    ensures |"set"| == 3
    ensures "set" <= t ==> t[..3] == "set" && t[0] == 's' && t[1] == 'e' && t[2] == 't'
    ensures Plus1(3, r).Some? <==> r.Some?
    ensures r.Some? ==> Plus1(3, r).value == 3 + r.value
  {
  }

  lemma LineBefore(s: string, line: string, i: nat, j: nat, more: string)
    requires LineAt(s, line, i) && i + |line| < j <= |s|
    ensures HasLine(s[..j] + more, line)
  {
    var out := s[..j] + more;
    assert out[i..i + |line|] == s[i..i + |line|] && out[i + |line|] == s[i + |line|];
    assert s[i + |line|..][0] == s[i + |line|];
    assert LineAt(out, line, i);
  }

  lemma LineAfter(s: string, line: string, i: nat, e: nat, before: string)
    requires LineAt(s, line, i) && e < i
    ensures HasLine(before + s[e..], line)
  {
    var out, k := before + s[e..], |before| + (i - e);
    assert out[k..] == s[i..] && out[k - 1] == s[i - 1];
    assert out[k + |line|..] == s[i + |line|..];
    assert out[k..k + |line|] == s[i..i + |line|];
    assert LineAt(out, line, k);
  }

  lemma LineAtStart(s: string, line: string, before: string)
    requires LineAt(s, line, 0)
    ensures HasLine(before + "\n" + s, line)
  {
    var out, k := before + "\n" + s, |before| + 1;
    assert out[k..] == s && out[k + |line|..] == s[|line|..] && out[k..k + |line|] == s[..|line|];
    assert LineAt(out, line, k);
  }

  // A line that starts with an `s`, and goes on with no line feed and a `t` at its
  // fifth place, lies before or behind a text of the shape of the default line.
  lemma ShapesApart(space: char -> bool, s: string, length: nat, i: nat, j: nat, k: nat, n: nat)
    requires !space('s') && !space('t') && k > 0 && 11 + k <= n && j + n <= |s| && 5 <= length && i + length <= |s|
    requires s[i] == 's' && s[i + 4] == 't' && forall x :: i <= x < i + length ==> s[x] != '\n'
    requires forall x :: j + 3 <= x < j + 3 + k ==> space(s[x])
    requires s[j + 3 + k] == 'd' && forall x :: j <= x < j + n && s[x] == '\n' ==> j + 3 <= x < j + 3 + k
    requires (i == 0 || s[i - 1] == '\n') && (j == 0 || s[j - 1] == '\n')
    ensures i + length < j || j + n < i
  {
  }

  lemma TimeoutChars(s: string, i: nat)
    requires LineAt(s, SET_TIMEOUT_TEXT, i)
    ensures |SET_TIMEOUT_TEXT| == 13 && i + 13 <= |s| && (i == 0 || s[i - 1] == '\n')
    ensures s[i] == 's' && s[i + 4] == 't' && forall x :: i <= x < i + 13 ==> s[x] != '\n'
  {
    var line := s[i..i + 13];
    assert line[0] == 's' && line[4] == 't' && '\n' !in line;
    assert forall x :: i <= x < i + 13 ==> s[x] == line[x - i] && line[x - i] in line;
  }

  lemma LettersAreNoSpace(cls: Classes)
    requires Sensible(cls)
    ensures !cls.space('s') && !cls.space('t')
  {
  }

  // The default line lies before or behind the timeout line.
  lemma DefaultApart(cls: Classes, s: string, i: nat, j: nat)
    requires Sensible(cls) && LineAt(s, SET_TIMEOUT_TEXT, i)
    requires j <= |s| && (j == 0 || s[j - 1] == '\n') && Match(RegexOf(cls, SetDefault), s[j..]).Some?
    ensures var n := Match(RegexOf(cls, SetDefault), s[j..]).value;
      j + n <= |s| && (i + |SET_TIMEOUT_TEXT| < j || j + n < i)
  {
    hide *;
    var t := s[j..];
    var n := Match(RegexOf(cls, SetDefault), t).value;
    var k := SetDefaultShape(cls, t);
    assert forall x :: j <= x < |s| ==> s[x] == t[x - j];
    TimeoutChars(s, i);
    LettersAreNoSpace(cls);
    ShapesApart(cls.space, s, 13, i, j, k, n);
  }

  lemma LineOf(s: string, line: string) returns (i: nat)
    requires HasLine(s, line)
    ensures LineAt(s, line, i)
  {
    i :| LineAt(s, line, i);
  }

  lemma TimeoutKept(cls: Classes, s: string, line: string)
    requires Sensible(cls) && HasLine(s, SET_TIMEOUT_TEXT)
    ensures HasLine(SetText(cls, SetDefault, s, line), SET_TIMEOUT_TEXT)
  {
    hide *;
    var i := LineOf(s, SET_TIMEOUT_TEXT);
    SetTextParts(cls, SetDefault, s, line);
    if FindText(cls, SetDefault, s, true) == None {
      if i == 0 {
        LineAtStart(s, SET_TIMEOUT_TEXT, line);
      } else {
        LineAfter(s, SET_TIMEOUT_TEXT, i, 0, line + "\n");
        assert s[0..] == s;
      }
    } else {
      SettingLines();
      SetTextIs(cls, SetDefault, s, line);
      var j := FindText(cls, SetDefault, s, true).value;
      var n := Match(RegexOf(cls, SetDefault), s[j..]).value;
      DefaultApart(cls, s, i, j);
      if i < j {
        LineBefore(s, SET_TIMEOUT_TEXT, i, j, line + s[j + n..]);
        assert s[..j] + line + s[j + n..] == s[..j] + (line + s[j + n..]);
      } else {
        LineAfter(s, SET_TIMEOUT_TEXT, i, j + n, s[..j] + line);
      }
    }
  }

  // The edited text boots into the entry after the timeout, whatever the vendor's
  // config said.
  lemma EditedHolds(cls: Classes, kind: Kind, s: string)
    requires Sensible(cls)
    ensures kind == Isolinux ==> HasLine(EditText(cls, kind, s), "timeout 50")
    ensures kind != Isolinux ==>
      HasLine(EditText(cls, kind, s), "set timeout=5") && HasLine(EditText(cls, kind, s), "set default=\"0\"")
  {
    hide SetText, RemoveText, HasLine, Sensible;
    if kind == Isolinux {
      SetLineIn(cls, TimeoutLine, RemoveText(cls, s, true), TIMEOUT_TEXT);
    } else {
      SetLineIn(cls, SetTimeout, s, SET_TIMEOUT_TEXT);
      var once := SetText(cls, SetTimeout, s, SET_TIMEOUT_TEXT);
      TimeoutKept(cls, once, SET_DEFAULT_TEXT);
      SetLineIn(cls, SetDefault, once, SET_DEFAULT_TEXT);
    }
  }

  // ----- the rewritten config

  // The entry is put once, in front of the first keyword line of the edited text.
  lemma EntryInserted(cls: Classes, kind: Kind, text: string, volid: string, network: bool) returns (i: nat)
    requires !Contains(text, MARKER) && RewriteCfg(cls, kind, text, volid, network).Ok?
    ensures var edited := EditText(cls, kind, text);
      && FindText(cls, Keyword(kind), edited, true) == Some(i) && i <= |edited|
      && RewriteCfg(cls, kind, text, volid, network)
         == Ok(edited[..i] + EntryText(kind, volid, network) + edited[i..])
  {
    hide MARKER, Contains, EntryText, EditText;
    i := FindText(cls, Keyword(kind), EditText(cls, kind, text), true).value;
  }

  // What a config that was not rewritten before says once it is: it boots from the
  // kickstart on the disc, takes its packages from the disc unless the install is
  // from the network, and loads as its firmware does.
  lemma RewrittenBoots(cls: Classes, kind: Kind, text: string, volid: string, network: bool)
    requires Sensible(cls) && IsLabel(cls, volid)
    requires !Contains(text, MARKER) && RewriteCfg(cls, kind, text, volid, network).Ok?
    ensures var out := RewriteCfg(cls, kind, text, volid, network).value;
      && Contains(out, " inst.ks=hd:LABEL=" + volid + ":/ks.cfg")
      && (!network ==> Contains(out, " inst.repo=hd:LABEL=" + volid))
      && (kind == GrubEfi ==> Contains(out, " linuxefi" + " /images") && Contains(out, " initrdefi" + " /images"))
  {
    hide *;
    var i := EntryInserted(cls, kind, text, volid, network);
    var edited, entry := EditText(cls, kind, text), EntryText(kind, volid, network);
    RepoIff(cls, kind, volid, network);
    LoaderIff(cls, kind, volid, network);
    KickstartNamed(kind, volid, network);
    HoldsMore(edited[..i], entry, edited[i..], " inst.ks=hd:LABEL=" + volid + ":/ks.cfg");
    if !network {
      HoldsMore(edited[..i], entry, edited[i..], " inst.repo=hd:LABEL=" + volid);
    }
    if kind == GrubEfi {
      HoldsMore(edited[..i], entry, edited[i..], " linuxefi" + " /images");
      HoldsMore(edited[..i], entry, edited[i..], " initrdefi" + " /images");
    }
  }
}
