/** The condition of the rebuild law is exact: for two labels the patterns can
    tell apart there is a boot config on which the law fails. */
module RebuildIff {
  import opened Prelude
  import opened Relabel
  import opened Bootloader
  import opened BootTokens
  import opened Rebuild
  import opened RebuildLaw

  // ----- two probes: a timeout line and a near-marker, each with a label for a word

  function KeywordOf(kind: Kind): string {
    if kind == Isolinux then "label" else "menuentry"
  }

  function Suffix(kind: Kind): seq<Token> {
    [NL, Word(KeywordOf(kind)), Other(' '), Word(KeywordOf(kind))]
  }

  function TimeoutHead(kind: Kind): seq<Token> {
    if kind == Isolinux then [Word("timeout"), Other(' ')]
    else [Word("set"), Other(' '), Word("timeout"), Other('=')]
  }

  function TimeoutProbe(kind: Kind, l: string): seq<Token> {
    TimeoutHead(kind) + [Word(l)] + Suffix(kind)
  }

  function MarkProbe(kind: Kind, l: string): seq<Token> {
    MARKER_HEAD + [Word(l)] + Suffix(kind)
  }

  // ----- searching

  function KeyOf(p: Pattern): string {
    match p
    case LabelLine => "label"
    case MenuEntry => "menuentry"
    case TimeoutLine => "timeout"
    case SetTimeout => "set"
    case SetDefault => "default"
    case MenuDefault => "menu"
  }

  lemma MatchNeedsKey(cls: Classes, p: Pattern, ts: seq<Token>)
    requires MatchLen(cls, p, ts).Some?
    ensures Word(KeyOf(p)) in ts
  {
    if p == MenuDefault {
      assert ts[Blanks(ts)..][0] == ts[Blanks(ts)];
    }
  }

  lemma {:induction false} FindNeedsKey(cls: Classes, p: Pattern, ts: seq<Token>, atLine: bool)
    requires Word(KeyOf(p)) !in ts
    ensures FindFirst(cls, p, ts, atLine) == None
  {
    hide MatchLen, KeyOf;
    if ts != [] {
      if MatchLen(cls, p, ts).Some? {
        MatchNeedsKey(cls, p, ts);
      }
      assert forall t :: t in ts[1..] ==> t in ts;
      FindNeedsKey(cls, p, ts[1..], ts[0] == NL);
    }
  }

  lemma {:induction false} RemoveNeedsKey(cls: Classes, ts: seq<Token>, atLine: bool)
    requires Word("menu") !in ts
    ensures RemoveMenuDefault(cls, ts, atLine) == ts
  {
    hide MatchLen;
    if ts != [] {
      if MatchLen(cls, MenuDefault, ts).Some? {
        MatchNeedsKey(cls, MenuDefault, ts);
      }
      assert forall t :: t in ts[1..] ==> t in ts;
      RemoveNeedsKey(cls, ts[1..], ts[0] == NL);
    }
  }

  lemma {:induction false} FoundByLine(cls: Classes, p: Pattern, ts: seq<Token>, atLine: bool, i: nat)
    requires i < |ts| && MatchLen(cls, p, ts[i..]).Some?
    requires if i == 0 then atLine else ts[i - 1] == NL
    ensures FindFirst(cls, p, ts, atLine).Some?
  {
    hide MatchLen;
    if i == 0 {
      assert ts[0..] == ts;
    } else {
      assert ts[1..][i - 1..] == ts[i..];
      assert i > 1 ==> ts[1..][i - 2] == ts[i - 1];
      FoundByLine(cls, p, ts[1..], ts[0] == NL, i - 1);
    }
  }

  lemma KeywordMatches(cls: Classes, kind: Kind)
    requires Sensible(cls)
    ensures MatchLen(cls, Keyword(kind), Suffix(kind)[1..]).Some?
  {
    var ts := Suffix(kind)[1..];
    assert ts == [Word(KeywordOf(kind)), Other(' '), Word(KeywordOf(kind))];
    assert ts[1..] == [Other(' '), Word(KeywordOf(kind))];
    assert ts[1..][1..] == [Word(KeywordOf(kind))];
    assert Spaces(cls, [Word(KeywordOf(kind))]) == 0;
    assert Spaces(cls, ts[1..]) == 1;
  }

  lemma KeywordAtEnd(cls: Classes, kind: Kind, front: seq<Token>)
    requires Sensible(cls)
    ensures FindFirst(cls, Keyword(kind), front + Suffix(kind), true).Some?
  {
    KeywordMatches(cls, kind);
    hide MatchLen, FindFirst;
    var ts := front + Suffix(kind);
    assert ts[|front| + 1..] == Suffix(kind)[1..];
    FoundByLine(cls, Keyword(kind), ts, true, |front| + 1);
  }

  // ----- what the edits make of the probes

  function SetFront(kind: Kind): seq<Token> {
    if kind == Isolinux then TIMEOUT else SET_DEFAULT + [NL] + SET_TIMEOUT
  }

  predicate Quiet(ts: seq<Token>) {
    Word("menu") !in ts && Word("timeout") !in ts && Word("set") !in ts && Word("default") !in ts
  }

  lemma HeadQuiet()
    ensures Quiet(MARKER_HEAD)
  {
    assert "not"[0] != "set"[0];
  }

  lemma SuffixQuiet(kind: Kind)
    ensures Quiet(Suffix(kind))
  {
  }

  lemma QuietConcat(a: seq<Token>, b: seq<Token>)
    requires Quiet(a) && Quiet(b)
    ensures Quiet(a + b)
  {
  }

  lemma NoDefaultFirst()
    ensures Word("default") !in SET_TIMEOUT + [NL]
  {
  }

  lemma MarkProbeQuiet(cls: Classes, kind: Kind, l: string)
    requires Unseen(cls, l)
    ensures Quiet(MarkProbe(kind, l))
  {
    HeadQuiet();
    SuffixQuiet(kind);
    assert Quiet([Word(l)]);
    hide Quiet, MARKER_HEAD, Suffix;
    QuietConcat(MARKER_HEAD, [Word(l)]);
    QuietConcat(MARKER_HEAD + [Word(l)], Suffix(kind));
  }

  lemma MarkEdits(cls: Classes, kind: Kind, l: string)
    requires Unseen(cls, l)
    ensures Edits(cls, kind, MarkProbe(kind, l)) == SetFront(kind) + [NL] + MarkProbe(kind, l)
  {
    MarkProbeQuiet(cls, kind, l);
    NoDefaultFirst();
    hide MarkProbe, FindFirst, RemoveMenuDefault, Unseen, TIMEOUT, SET_TIMEOUT, SET_DEFAULT;
    var ts := MarkProbe(kind, l);
    if kind == Isolinux {
      RemoveNeedsKey(cls, ts, true);
      FindNeedsKey(cls, TimeoutLine, ts, true);
    } else {
      FindNeedsKey(cls, SetTimeout, ts, true);
      FindNeedsKey(cls, SetDefault, SET_TIMEOUT + [NL] + ts, true);
    }
  }

  // The timeout line of the other probe is matched exactly when l is a number.
  lemma TimeoutMatch(cls: Classes, kind: Kind, l: string)
    requires Sensible(cls) && IsLabel(cls, l)
    ensures var p, n := if kind == Isolinux then TimeoutLine else SetTimeout, |TimeoutHead(kind)| + 1;
      MatchLen(cls, p, TimeoutProbe(kind, l)) == if AllDigits(cls, l) then Some(n) else None
  {
    var suffix, ts := Suffix(kind), TimeoutProbe(kind, l);
    assert suffix[0] == NL && suffix[1].Word?;
    FeedEnds(cls, suffix);
    if kind == Isolinux {
      assert ts[1..] == [Other(' ')] + ([Word(l)] + suffix);
      OneSpace(cls, [Word(l)] + suffix);
      assert ts[3..] == suffix;
    } else {
      assert ts[1..] == [Other(' ')] + ([Word("timeout"), Other('='), Word(l)] + suffix);
      OneSpace(cls, [Word("timeout"), Other('='), Word(l)] + suffix);
      assert ts[5..] == suffix;
    }
  }

  lemma OneSpace(cls: Classes, ts: seq<Token>)
    requires Sensible(cls) && ts != [] && ts[0].Word?
    ensures Spaces(cls, [Other(' ')] + ts) == 1
  {
    assert ([Other(' ')] + ts)[1..] == ts;
  }

  lemma FeedEnds(cls: Classes, ts: seq<Token>)
    requires Sensible(cls) && |ts| > 1 && ts[0] == NL && ts[1].Word?
    ensures SpaceToEol(cls, ts) == Some(0)
  {
    assert Spaces(cls, ts[1..]) == 0;
    assert LastFeed(ts, 1) == Some(0);
  }

  lemma TimeoutProbeWords(cls: Classes, kind: Kind, l: string)
    requires Unseen(cls, l)
    ensures var ts := TimeoutProbe(kind, l);
      && Word("menu") !in ts && Word("default") !in ts
      && Word(if kind == Isolinux then "timeout" else "set") !in ts[1..]
  {
    SuffixQuiet(kind);
    var ts := TimeoutProbe(kind, l);
    if kind == Isolinux {
      assert ts[1..] == [Other(' '), Word(l)] + Suffix(kind);
    } else {
      assert ts[1..] == [Other(' '), Word("timeout"), Other('='), Word(l)] + Suffix(kind);
    }
  }

  function TimeoutLineOf(kind: Kind): seq<Token> {
    if kind == Isolinux then TIMEOUT else SET_TIMEOUT
  }

  lemma TimeoutSet(cls: Classes, kind: Kind, l: string)
    requires Sensible(cls) && IsLabel(cls, l) && Unseen(cls, l)
    ensures var p := if kind == Isolinux then TimeoutLine else SetTimeout;
      SetLine(cls, p, TimeoutProbe(kind, l), TimeoutLineOf(kind)) ==
        TimeoutLineOf(kind) + if AllDigits(cls, l) then Suffix(kind) else [NL] + TimeoutProbe(kind, l)
  {
    var p := if kind == Isolinux then TimeoutLine else SetTimeout;
    var ts := TimeoutProbe(kind, l);
    TimeoutMatch(cls, kind, l);
    TimeoutProbeWords(cls, kind, l);
    assert ts[|TimeoutHead(kind)| + 1..] == Suffix(kind);
    assert ts != [] && KeyOf(TimeoutLine) == "timeout" && KeyOf(SetTimeout) == "set";
    hide *;
    if AllDigits(cls, l) {
      SetAtStart(cls, p, ts, TimeoutLineOf(kind));
    } else {
      FindNeedsKey(cls, p, ts[1..], ts[0] == NL);
      SetNowhere(cls, p, ts, TimeoutLineOf(kind));
    }
  }

  lemma SetAtStart(cls: Classes, p: Pattern, ts: seq<Token>, line: seq<Token>)
    requires MatchLen(cls, p, ts).Some?
    ensures SetLine(cls, p, ts, line) == line + ts[MatchLen(cls, p, ts).value..]
  {
    hide MatchLen;
    assert ts[0..] == ts && ts[..0] == [];
  }

  lemma SetNowhere(cls: Classes, p: Pattern, ts: seq<Token>, line: seq<Token>)
    requires MatchLen(cls, p, ts).None? && ts != [] && FindFirst(cls, p, ts[1..], ts[0] == NL).None?
    ensures SetLine(cls, p, ts, line) == line + [NL] + ts
  {
    hide MatchLen;
  }

  function TimeoutEdited(cls: Classes, kind: Kind, l: string): seq<Token> {
    SetFront(kind) + if AllDigits(cls, l) then Suffix(kind) else [NL] + TimeoutProbe(kind, l)
  }

  lemma IsolinuxTimeoutEdits(cls: Classes, l: string)
    requires Sensible(cls) && IsLabel(cls, l) && Unseen(cls, l)
    ensures Edits(cls, Isolinux, TimeoutProbe(Isolinux, l)) == TimeoutEdited(cls, Isolinux, l)
  {
    TimeoutSet(cls, Isolinux, l);
    TimeoutProbeWords(cls, Isolinux, l);
    hide SetLine, RemoveMenuDefault, Unseen, AllDigits, TIMEOUT, TimeoutProbe, Suffix;
    RemoveNeedsKey(cls, TimeoutProbe(Isolinux, l), true);
  }

  lemma NoDefaultAfter(cls: Classes, kind: Kind, l: string)
    requires Unseen(cls, l) && kind != Isolinux
    ensures Word("default") !in SET_TIMEOUT + if AllDigits(cls, l) then Suffix(kind) else [NL] + TimeoutProbe(kind, l)
  {
    TimeoutProbeWords(cls, kind, l);
    SuffixQuiet(kind);
    NoDefaultFirst();
    assert forall t :: t in SET_TIMEOUT ==> t in SET_TIMEOUT + [NL];
    hide Unseen, AllDigits, SET_TIMEOUT, TimeoutProbe, Suffix;
  }

  lemma SetDefaultAdds(cls: Classes, ts: seq<Token>)
    requires Word("default") !in ts
    ensures SetLine(cls, SetDefault, ts, SET_DEFAULT) == SET_DEFAULT + [NL] + ts
  {
    FindNeedsKey(cls, SetDefault, ts, true);
    hide SET_DEFAULT;
  }

  lemma Grouped<T>(a: seq<T>, b: seq<T>, c: seq<T>, d: seq<T>)
    ensures a + b + (c + d) == a + b + c + d
  {
  }

  lemma GrubTimeoutEdits(cls: Classes, kind: Kind, l: string)
    requires Sensible(cls) && IsLabel(cls, l) && Unseen(cls, l) && kind != Isolinux
    ensures Edits(cls, kind, TimeoutProbe(kind, l)) == TimeoutEdited(cls, kind, l)
  {
    TimeoutSet(cls, kind, l);
    NoDefaultAfter(cls, kind, l);
    hide SetLine, Unseen, AllDigits, SET_TIMEOUT, SET_DEFAULT, TimeoutProbe, Suffix, IsLabel, Sensible;
    var rest := if AllDigits(cls, l) then Suffix(kind) else [NL] + TimeoutProbe(kind, l);
    SetDefaultAdds(cls, SET_TIMEOUT + rest);
    Grouped(SET_DEFAULT, [NL], SET_TIMEOUT, rest);
  }

  lemma TimeoutEdits(cls: Classes, kind: Kind, l: string)
    requires Sensible(cls) && IsLabel(cls, l) && Unseen(cls, l)
    ensures Edits(cls, kind, TimeoutProbe(kind, l)) == TimeoutEdited(cls, kind, l)
  {
    hide *;
    if kind == Isolinux {
      IsolinuxTimeoutEdits(cls, l);
    } else {
      GrubTimeoutEdits(cls, kind, l);
    }
  }

  // ----- the probes as texts

  lemma ProbeValid(cls: Classes, kind: Kind, head: seq<Token>, l: string)
    requires Sensible(cls) && IsLabel(cls, l) && Valid(cls, head) && head != [] && head[|head| - 1].Other?
    ensures Valid(cls, head + [Word(l)] + Suffix(kind))
  {
    SuffixValid(cls, kind);
    WordValid(cls, l);
    assert Suffix(kind)[0].Other?;
    hide Valid, Suffix, Sensible, IsLabel;
    ValidConcat(cls, head, [Word(l)]);
    ValidConcat(cls, head + [Word(l)], Suffix(kind));
  }

  lemma SuffixValid(cls: Classes, kind: Kind)
    requires Sensible(cls)
    ensures Valid(cls, Suffix(kind))
  {
    assert IsLabel(cls, "label") && IsLabel(cls, "menuentry");
  }

  lemma HeadsValid(cls: Classes, kind: Kind)
    requires Sensible(cls)
    ensures Valid(cls, TimeoutHead(kind)) && TimeoutHead(kind)[|TimeoutHead(kind)| - 1].Other?
    ensures Valid(cls, MARKER_HEAD) && MARKER_HEAD[|MARKER_HEAD| - 1].Other?
  {
    HeadValid(cls);
    assert IsLabel(cls, "timeout") && IsLabel(cls, "set");
  }

  // The probe with v, retargeted from v to l, is the probe with l.
  lemma ProbeRetargets(cls: Classes, kind: Kind, head: seq<Token>, v: string, l: string)
    requires Sensible(cls) && IsLabel(cls, v) && IsLabel(cls, l)
    requires Valid(cls, head) && head != [] && head[|head| - 1].Other?
    requires Word(v) !in head && Word(v) !in Suffix(kind)
    ensures var text := Detok(head + [Word(v)] + Suffix(kind));
      && Tokens(cls, text) == head + [Word(v)] + Suffix(kind)
      && Retarget(cls, text, v, l) == Detok(head + [Word(l)] + Suffix(kind))
      && Tokens(cls, Retarget(cls, text, v, l)) == head + [Word(l)] + Suffix(kind)
  {
    var vs, ls := head + [Word(v)] + Suffix(kind), head + [Word(l)] + Suffix(kind);
    ProbeValid(cls, kind, head, v);
    ProbeValid(cls, kind, head, l);
    TokensDetok(cls, vs);
    TokensDetok(cls, ls);
    assert v != "";
    RetargetIsRelabel(cls, Detok(vs), v, l);
    hide Valid, Suffix, Sensible, IsLabel, Tokens, Detok, RelabelTokens;
    RelabelConcat(head + [Word(v)], Suffix(kind), v, l);
    RelabelConcat(head, [Word(v)], v, l);
    RelabelAbsent(head, v, l);
    RelabelAbsent(Suffix(kind), v, l);
    OneWordRelabels(v, l);
  }

  lemma HeadIsHash()
    ensures |MARKER_HEAD| > 0 && MARKER_HEAD[0] == Other('#')
  {
  }

  // The marker is a head that starts and ends outside labels, then "edit".
  lemma MarkerShape(cls: Classes)
    requires Sensible(cls)
    ensures MARKER == Detok(MARKER_HEAD) + "edit" && Valid(cls, MARKER_HEAD) && IsLabel(cls, "edit")
    ensures var h := Detok(MARKER_HEAD); h != "" && !cls.inLabel(h[0]) && !cls.inLabel(h[|h| - 1])
  {
    MarkerIs();
    HeadEnds();
    HeadValid(cls);
    HeadWords(cls);
    NotLabels(cls);
    hide *;
  }

  lemma NoHashNoMarker(cls: Classes, ts: seq<Token>)
    requires Sensible(cls) && Valid(cls, ts) && Other('#') !in ts
    ensures !Contains(Detok(ts), MARKER)
  {
    hide *;
    MarkerShape(cls);
    HeadIsHash();
    if Contains(Detok(ts), MARKER) {
      var j := PartInTokens(cls, ts, MARKER_HEAD, "edit");
      OccursFirst(ts, j, MARKER_HEAD, "edit");
    }
  }

  lemma OccursIs(ts: seq<Token>, j: nat, head: seq<Token>, part: string)
    ensures OccursAt(ts, j, head, part) <==>
      (var k := j + |head|; k < |ts| && ts[j..k] == head && ts[k].Word? && part <= ts[k].text)
  {
  }

  lemma OccursFirst(ts: seq<Token>, j: nat, head: seq<Token>, part: string)
    requires OccursAt(ts, j, head, part) && head != []
    ensures head[0] in ts
  {
    assert ts[j] == ts[j..j + |head|][0];
  }

  lemma MarkProbeMarked(cls: Classes, kind: Kind, l: string)
    requires Sensible(cls) && IsLabel(cls, l)
    ensures Contains(Detok(MarkProbe(kind, l)), MARKER) <==> "edit" <= l
  {
    hide *;
    MarkerShape(cls);
    HeadsValid(cls, kind);
    HeadIsHash();
    ProbeValid(cls, kind, MARKER_HEAD, l);
    SuffixNoEdit(kind);
    MarkProbeIs(kind, l);
    var n, ts := |MARKER_HEAD|, MarkProbe(kind, l);
    assert ts[n] == Word(l) && ts[0..n] == MARKER_HEAD;
    if Contains(Detok(ts), MARKER) {
      var j := PartInTokens(cls, ts, MARKER_HEAD, "edit");
      OccursIs(ts, j, MARKER_HEAD, "edit");
    }
    if "edit" <= l {
      OccursIs(ts, 0, MARKER_HEAD, "edit");
      PartInText(ts, 0, MARKER_HEAD, "edit");
    }
  }

  lemma MarkProbeIs(kind: Kind, l: string)
    ensures MarkProbe(kind, l) == MARKER_HEAD + [Word(l)] + Suffix(kind) && |Suffix(kind)| == 4
  {
  }

  lemma TimeoutProbeIs(kind: Kind, l: string)
    ensures TimeoutProbe(kind, l) == TimeoutHead(kind) + [Word(l)] + Suffix(kind)
    ensures Other('#') !in TimeoutProbe(kind, l) && TimeoutHead(kind) != []
  {
  }

  lemma SuffixNoEdit(kind: Kind)
    ensures forall t :: t in Suffix(kind) ==> !(t.Word? && "edit" <= t.text)
  {
    assert "label"[0] != "edit"[0] && "menuentry"[0] != "edit"[0];
  }

  // ----- what a probe is built into

  lemma ProbeBuilds(cls: Classes, kind: Kind, front: seq<Token>, edited: seq<Token>, l: string, network: bool)
    requires Sensible(cls)
    requires var ts := front + Suffix(kind);
      Tokens(cls, Detok(ts)) == ts && !Contains(Detok(ts), MARKER) && Edits(cls, kind, ts) == edited + Suffix(kind)
    ensures var r := RewriteCfg(cls, kind, Detok(front + Suffix(kind)), l, network);
      && r.Ok?
      && |Tokens(cls, r.value)| == |edited| + |Suffix(kind)| + |Tokens(cls, EntryText(kind, l, network))|
  {
    var text := Detok(front + Suffix(kind));
    KeywordAtEnd(cls, kind, front);
    KeywordAtEnd(cls, kind, edited);
    RewriteIs(cls, kind, text, l, network);
    hide Sensible, Tokens, Detok, Contains, MARKER, Suffix, Edits, FindFirst, EntryText, RewriteCfg;
    var entry := Tokens(cls, EntryText(kind, l, network));
    assert RewriteTokens(cls, kind, front + Suffix(kind), entry).Ok?;
    assert |RewriteTokens(cls, kind, front + Suffix(kind), entry).value| == |edited + Suffix(kind)| + |entry|;
    BuildOutput(cls, kind, text, l, network);
  }

  // The relabelled output of a build still holds the marker.
  lemma RelabelledMarked(cls: Classes, kind: Kind, text: string, w: string, x: string, network: bool)
    requires Sensible(cls) && IsLabel(cls, w) && IsLabel(cls, x) && NotInTemplates(cls, kind, network, w)
    requires !Contains(text, MARKER) && RewriteCfg(cls, kind, text, w, network).Ok?
    ensures w != "" && Contains(Retarget(cls, RewriteCfg(cls, kind, text, w, network).value, w, x), MARKER)
  {
    assert w != "";
    var built := RewriteCfg(cls, kind, text, w, network).value;
    TokensValid(cls, text);
    EntryFacts(cls, kind, network, w);
    EntryFacts(cls, kind, network, x);
    EntryRelabels(cls, kind, network, w, x);
    BuildOutput(cls, kind, text, w, network);
    RetargetIsRelabel(cls, built, w, x);
    hide *;
    var ts, entry := Tokens(cls, text), Tokens(cls, EntryText(kind, w, network));
    RewriteValid(cls, kind, ts, entry);
    var r := RewriteTokens(cls, kind, ts, entry).value;
    var a, b :| r == a + entry + b;
    RelabelConcat(a + entry, b, w, x);
    RelabelConcat(a, entry, w, x);
    MarkerInside(RelabelTokens(a, w, x), RelabelTokens(entry, w, x), RelabelTokens(b, w, x), MARKER);
  }

  // Where the law holds, both sides have the length of the first build.
  lemma LawKeepsLength(cls: Classes, kind: Kind, text: string, v: string, w: string, x: string, network: bool)
    requires Sensible(cls) && IsLabel(cls, v) && IsLabel(cls, w) && IsLabel(cls, x)
    requires NotInTemplates(cls, kind, network, w) && RebuildHolds(cls, kind, text, v, w, x, network)
    requires !Contains(Retarget(cls, text, v, w), MARKER)
    requires RewriteCfg(cls, kind, Retarget(cls, text, v, w), w, network).Ok?
    ensures var one, two := RewriteCfg(cls, kind, Retarget(cls, text, v, w), w, network),
                            RewriteCfg(cls, kind, Retarget(cls, text, v, x), x, network);
      two.Ok? && |Tokens(cls, two.value)| == |Tokens(cls, one.value)|
  {
    var mid := Retarget(cls, text, v, w);
    var one := RewriteCfg(cls, kind, mid, w, network);
    RelabelledMarked(cls, kind, mid, w, x, network);
    RetargetTokens(cls, one.value, w, x);
    hide Sensible, Tokens, Retarget, Contains, MARKER, RelabelTokens, EntryText, RewriteTokens, NotInTemplates;
    assert Build(cls, kind, one.value, w, x, network) == Ok(Retarget(cls, one.value, w, x));
  }

  lemma TimeoutProbeBuilds(cls: Classes, kind: Kind, v: string, l: string, network: bool)
    requires Sensible(cls) && PlainLabel(cls, v) && PlainLabel(cls, l)
    ensures v != ""
    ensures var text := Detok(TimeoutProbe(kind, v));
      var mid := Retarget(cls, text, v, l);
      var built := RewriteCfg(cls, kind, mid, l, network);
      && Tokens(cls, text) == TimeoutProbe(kind, v) && !Contains(mid, MARKER)
      && built.Ok? && |Tokens(cls, built.value)|
          == |TimeoutEdited(cls, kind, l)| + |Tokens(cls, EntryText(kind, l, network))|
  {
    SuffixQuietFor(cls, kind, v);
    SuffixQuietFor(cls, kind, l);
    var front := TimeoutHead(kind) + [Word(l)];
    var edited := SetFront(kind) + if AllDigits(cls, l) then [] else [NL] + front;
    assert TimeoutEdited(cls, kind, l) == edited + Suffix(kind);
    hide *;
    TimeoutProbeIs(kind, v);
    TimeoutProbeIs(kind, l);
    PlainIsLabel(cls, v);
    PlainIsLabel(cls, l);
    HeadsValid(cls, kind);
    ProbeRetargets(cls, kind, TimeoutHead(kind), v, l);
    ProbeValid(cls, kind, TimeoutHead(kind), l);
    TimeoutEdits(cls, kind, l);
    NoHashNoMarker(cls, TimeoutProbe(kind, l));
    ProbeBuilds(cls, kind, front, edited, l, network);
  }

  lemma MarkProbeBuilds(cls: Classes, kind: Kind, v: string, l: string, network: bool)
    requires Sensible(cls) && PlainLabel(cls, v) && PlainLabel(cls, l)
    ensures v != ""
    ensures var text := Detok(MarkProbe(kind, v));
      var mid := Retarget(cls, text, v, l);
      var built := RewriteCfg(cls, kind, mid, l, network);
      && Tokens(cls, text) == MarkProbe(kind, v) && |Tokens(cls, mid)| == |MarkProbe(kind, v)|
      && (Contains(mid, MARKER) <==> "edit" <= l)
      && (!("edit" <= l) ==> built.Ok? && |Tokens(cls, built.value)| > |MarkProbe(kind, v)|)
  {
    hide *;
    SuffixQuietFor(cls, kind, v);
    SuffixQuietFor(cls, kind, l);
    MarkProbeIs(kind, v);
    MarkProbeIs(kind, l);
    PlainIsLabel(cls, v);
    PlainIsLabel(cls, l);
    HeadsValid(cls, kind);
    HeadIsHash();
    ProbeRetargets(cls, kind, MARKER_HEAD, v, l);
    MarkProbeMarked(cls, kind, l);
    MarkEdits(cls, kind, l);
    var front := MARKER_HEAD + [Word(l)];
    var edited := SetFront(kind) + [NL] + front;
    assert SetFront(kind) + [NL] + MarkProbe(kind, l) == edited + Suffix(kind);
    if !("edit" <= l) {
      ProbeBuilds(cls, kind, front, edited, l, network);
    }
  }

  lemma SuffixQuietFor(cls: Classes, kind: Kind, v: string)
    requires PlainLabel(cls, v)
    ensures Word(v) !in Suffix(kind) && Word(v) !in MARKER_HEAD && Word(v) !in TimeoutHead(kind) && Unseen(cls, v)
  {
    hide MARKER_HEAD;
  }

  // ----- exactness

  lemma ProbeLengths(cls: Classes, kind: Kind, w: string, x: string)
    requires !SameDigits(cls, w, x)
    ensures |TimeoutEdited(cls, kind, w)| != |TimeoutEdited(cls, kind, x)|
  {
    hide TIMEOUT, SET_TIMEOUT, SET_DEFAULT, AllDigits;
  }

  lemma ProbeLacks(cls: Classes, kind: Kind, v: string, w: string)
    requires PlainLabel(cls, w) && v != w
    ensures Word(w) !in TimeoutProbe(kind, v) && Word(w) !in MarkProbe(kind, v)
  {
    SuffixQuietFor(cls, kind, w);
    hide MARKER_HEAD;
  }

  // One label is a number and the other is not: a timeout line tells.
  lemma NumbersTellApart(cls: Classes, kind: Kind, v: string, w: string, x: string, network: bool) returns (text: string)
    requires Sensible(cls) && PlainLabel(cls, v) && PlainLabel(cls, w) && PlainLabel(cls, x) && NotInTemplates(cls, kind, network, w)
    requires !SameDigits(cls, w, x)
    ensures v == w || Word(w) !in Tokens(cls, text)
    ensures v != "" && w != "" && !RebuildHolds(cls, kind, text, v, w, x, network)
  {
    text := Detok(TimeoutProbe(kind, v));
    if v != w {
      ProbeLacks(cls, kind, v, w);
    }
    PlainIsLabel(cls, v);
    PlainIsLabel(cls, w);
    PlainIsLabel(cls, x);
    hide *;
    TimeoutProbeBuilds(cls, kind, v, w, network);
    TimeoutProbeBuilds(cls, kind, v, x, network);
    EntryRelabels(cls, kind, network, w, x);
    ProbeLengths(cls, kind, w, x);
    if RebuildHolds(cls, kind, text, v, w, x, network) {
      LawKeepsLength(cls, kind, text, v, w, x, network);
    }
  }

  // Only the second label completes a cut-off marker.
  lemma MarkersTellApart(cls: Classes, kind: Kind, v: string, w: string, x: string, network: bool) returns (text: string)
    requires Sensible(cls) && PlainLabel(cls, v) && PlainLabel(cls, w) && PlainLabel(cls, x) && NotInTemplates(cls, kind, network, w)
    requires "edit" <= x && !("edit" <= w)
    ensures v == w || Word(w) !in Tokens(cls, text)
    ensures v != "" && w != "" && !RebuildHolds(cls, kind, text, v, w, x, network)
  {
    text := Detok(MarkProbe(kind, v));
    if v != w {
      ProbeLacks(cls, kind, v, w);
    }
    PlainIsLabel(cls, v);
    PlainIsLabel(cls, w);
    PlainIsLabel(cls, x);
    hide *;
    MarkProbeBuilds(cls, kind, v, w, network);
    MarkProbeBuilds(cls, kind, v, x, network);
    MarkedStays(cls, kind, Retarget(cls, text, v, x), x, network);
    if RebuildHolds(cls, kind, text, v, w, x, network) {
      LawKeepsLength(cls, kind, text, v, w, x, network);
    }
  }

  // The law holds on every text exactly when the patterns cannot tell the two
  // labels apart.
  lemma RebuildIff(cls: Classes, kind: Kind, v: string, w: string, x: string, network: bool)
    requires Sensible(cls) && PlainLabel(cls, v) && PlainLabel(cls, w) && PlainLabel(cls, x) && NotInTemplates(cls, kind, network, w)
    ensures v != "" && w != ""
    ensures (forall text | v == w || Word(w) !in Tokens(cls, text) :: RebuildHolds(cls, kind, text, v, w, x, network))
       <==> Alike(cls, w, x)
  {
    PlainIsLabel(cls, v);
    PlainIsLabel(cls, w);
    AlikeIs(cls, w, x);
    hide *;
    if Alike(cls, w, x) {
      forall text | v == w || Word(w) !in Tokens(cls, text)
        ensures RebuildHolds(cls, kind, text, v, w, x, network)
      {
        RebuildIsBuild(cls, kind, text, v, w, x, network);
      }
    } else if SameDigits(cls, w, x) {
      var text := MarkersTellApart(cls, kind, v, w, x, network);
    } else {
      var text := NumbersTellApart(cls, kind, v, w, x, network);
    }
  }

  lemma AlikeIs(cls: Classes, w: string, x: string)
    ensures Alike(cls, w, x) <==> SameDigits(cls, w, x) && ("edit" <= x ==> "edit" <= w)
  {
  }
}
