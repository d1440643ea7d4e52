/** The rebuild law: building for one label and rebuilding the output for
    another is building directly for the other, exactly when the two labels
    look alike to the patterns. */
module RebuildLaw {
  import opened Prelude
  import opened Relabel
  import opened Bootloader
  import opened BootTokens
  import opened Rebuild
  import opened BootRewrite

  // ----- the marker, seen in the tokens

  // The tokens head, then a word that starts with part.
  ghost predicate OccursAt(ts: seq<Token>, j: nat, head: seq<Token>, part: string) {
    var k := j + |head|;
    k < |ts| && ts[j..k] == head && ts[k].Word? && part <= ts[k].text
  }

  // A character outside labels is a token of its own.
  lemma {:induction false} TokenAt(cls: Classes, ts: seq<Token>, i: nat) returns (j: nat)
    requires Valid(cls, ts) && i < |Detok(ts)| && !cls.inLabel(Detok(ts)[i])
    ensures j < |ts| && ts[j] == Other(Detok(ts)[i])
    ensures Detok(ts[..j]) == Detok(ts)[..i] && Detok(ts[j..]) == Detok(ts)[i..]
  {
    ValidTail(cls, ts);
    var head, more, s := TextOf(ts[0]), Detok(ts[1..]), Detok(ts);
    assert ts[..0] == [] && ts[0..] == ts;
    assert s == head + more;
    if i < |head| {
      assert s[i] == head[i] && head[i] in head;
      j := 0;
    } else {
      hide Valid;
      var i' := i - |head|;
      AppendText(head, more, i);
      var j' := TokenAt(cls, ts[1..], i');
      j := j' + 1;
      var front := ts[1..][..j'];
      assert ts[..j] == [ts[0]] + front && ts[j..] == ts[1..][j'..];
      DetokStep(ts[0], front);
    }
  }

  lemma AppendText(head: string, more: string, i: nat)
    requires |head| <= i < |head| + |more|
    ensures var s, i' := head + more, i - |head|;
      s[i] == more[i'] && s[..i] == head + more[..i'] && s[i..] == more[i'..]
  {
  }

  lemma DetokStep(t: Token, ts: seq<Token>)
    ensures Detok([t] + ts) == TextOf(t) + Detok(ts)
  {
    assert ([t] + ts)[1..] == ts;
  }

  lemma MarkerIs()
    ensures MARKER == Detok(MARKER_HEAD) + "edit"
  {
  }

  lemma HeadWords(cls: Classes)
    requires Sensible(cls)
    ensures IsLabel(cls, "ks-gen") && IsLabel(cls, "unattended") && IsLabel(cls, "entry")
    ensures IsLabel(cls, "do") && IsLabel(cls, "not") && IsLabel(cls, "edit")
  {
  }

  lemma {:induction false} HeadValid(cls: Classes)
    requires Sensible(cls)
    ensures Valid(cls, MARKER_HEAD)
  {
    HeadWords(cls);
    hide IsLabel;
  }

  lemma HeadEnds()
    ensures var h := Detok(MARKER_HEAD);
      h != "" && h[0] == '#' && h[|h| - 1] == ' '
  {
    var n := |MARKER_HEAD| - 1;
    var front, last := MARKER_HEAD[..n], [Other(' ')];
    assert MARKER_HEAD == front + last && MARKER_HEAD == [MARKER_HEAD[0]] + MARKER_HEAD[1..];
    assert MARKER_HEAD[0] == Other('#');
    DetokConcat([Other('#')], MARKER_HEAD[1..]);
    OneText('#');
    DetokConcat(front, last);
    OneText(' ');
  }

  // A text that starts with the tokens of a text ending outside labels.
  lemma PrefixTokens(cls: Classes, ts: seq<Token>, head: seq<Token>, more: string)
    requires Valid(cls, ts) && Valid(cls, head) && Detok(head) != ""
    requires !cls.inLabel(Detok(head)[|Detok(head)| - 1])
    requires Detok(head) + more <= Detok(ts)
    ensures |head| <= |ts| && ts[..|head|] == head && more <= Detok(ts[|head|..])
  {
    hide Valid, Detok;
    var s, h := Detok(ts), Detok(head);
    var i := |h| - 1;
    CutText(s, h, more);
    var j := TokenAt(cls, ts, i);
    var front, back := ts[..j + 1], ts[j + 1..];
    assert front == ts[..j] + [ts[j]];
    DetokConcat(ts[..j], [ts[j]]);
    OneText(s[i]);
    ValidSlice(cls, ts, 0, j + 1);
    assert front == ts[0..j + 1];
    TokensDetok(cls, front);
    TokensDetok(cls, head);
    assert front == head;
    assert ts == front + back;
    DetokConcat(front, back);
    assert s[|h|..] == Detok(back);
  }

  lemma CutText(s: string, h: string, more: string)
    requires h != "" && h + more <= s
    ensures s[|h| - 1] == h[|h| - 1] && s[..|h| - 1] + [s[|h| - 1]] == h && more <= s[|h|..]
  {
    assert h <= h + more;
    assert s[|h| - 1] == (h + more)[|h| - 1];
    assert s[..|h|] == h;
  }

  lemma OneText(c: char)
    ensures Detok([Other(c)]) == [c]
  {
    assert [Other(c)][1..] == [];
    assert Detok([]) == "";
  }

  lemma LabelAt(cls: Classes, part: string, k: nat)
    requires IsLabel(cls, part) && k < |part|
    ensures cls.inLabel(part[k])
  {
  }

  // A word ends where the label characters do.
  lemma BeyondWord(cls: Classes, ts: seq<Token>)
    requires Valid(cls, ts) && ts != [] && ts[0].Word? && |ts[0].text| < |Detok(ts)|
    ensures !cls.inLabel(Detok(ts)[|ts[0].text|])
  {
    ValidTail(cls, ts);
    DetokStart(cls, ts[1..]);
    assert Detok(ts) == ts[0].text + Detok(ts[1..]);
  }

  // A text that starts with label characters starts with a word that does.
  lemma StartsWithWord(cls: Classes, ts: seq<Token>, part: string)
    requires Valid(cls, ts) && IsLabel(cls, part) && part <= Detok(ts)
    ensures ts != [] && ts[0].Word? && part <= ts[0].text
  {
    LabelAt(cls, part, 0);
    DetokStart(cls, ts);
    hide IsLabel, Valid;
    var text := ts[0].text;
    assert Detok(ts) == text + Detok(ts[1..]);
    if |text| < |part| {
      LabelAt(cls, part, |text|);
      BeyondWord(cls, ts);
      assert false;
    }
  }

  // A text cut off inside a word is found at a token.
  lemma PartInTokens(cls: Classes, ts: seq<Token>, head: seq<Token>, part: string) returns (j: nat)
    requires Valid(cls, ts) && Valid(cls, head) && IsLabel(cls, part)
    requires var h := Detok(head); h != "" && !cls.inLabel(h[0]) && !cls.inLabel(h[|h| - 1])
    requires Contains(Detok(ts), Detok(head) + part)
    ensures OccursAt(ts, j, head, part)
  {
    hide Valid, IsLabel, Detok;
    var s, h := Detok(ts), Detok(head);
    var i: nat :| i <= |s| && h + part <= s[i..];
    assert s[i] == s[i..][0] == (h + part)[0] == h[0];
    j := TokenAt(cls, ts, i);
    var us := ts[j..];
    ValidSlice(cls, ts, j, |ts|);
    assert us == ts[j..|ts|];
    PrefixTokens(cls, us, head, part);
    var k := |head|;
    ValidSlice(cls, us, k, |us|);
    assert us[k..] == us[k..|us|];
    StartsWithWord(cls, us[k..], part);
    assert ts[j..j + k] == us[..k] && us[k..][0] == ts[j + k];
  }

  lemma NotLabels(cls: Classes)
    requires Sensible(cls)
    ensures !cls.inLabel('#') && !cls.inLabel(' ') && !cls.inLabel('\n')
  {
  }

  lemma PartInText(ts: seq<Token>, j: nat, head: seq<Token>, part: string)
    requires OccursAt(ts, j, head, part)
    ensures Contains(Detok(ts), Detok(head) + part)
  {
    hide Detok;
    var k := j + |head|;
    assert ts == ts[..j] + (head + ts[k..]);
    DetokConcat(ts[..j], head + ts[k..]);
    DetokConcat(head, ts[k..]);
    FirstText(ts[k..]);
    PartFound(Detok(ts[..j]), Detok(head) + Detok(ts[k..]), Detok(head) + part);
  }

  lemma FirstText(ts: seq<Token>)
    requires ts != []
    ensures TextOf(ts[0]) <= Detok(ts)
  {
  }

  lemma PartFound(before: string, after: string, part: string)
    requires part <= after
    ensures Contains(before + after, part)
  {
    assert (before + after)[|before|..] == after;
  }

  // A relabelled text holds a mark only if the text did.
  lemma NoNewPart(cls: Classes, ts: seq<Token>, head: seq<Token>, part: string, w: string, x: string)
    requires Valid(cls, ts) && Valid(cls, head) && IsLabel(cls, part) && IsLabel(cls, x)
    requires var h := Detok(head); h != "" && !cls.inLabel(h[0]) && !cls.inLabel(h[|h| - 1])
    requires Word(x) !in head && (part <= x ==> part <= w)
    requires Contains(Detok(RelabelTokens(ts, w, x)), Detok(head) + part)
    ensures Contains(Detok(ts), Detok(head) + part)
  {
    var us := RelabelTokens(ts, w, x);
    RelabelValid(cls, ts, w, x);
    hide Valid, IsLabel, Detok, Contains;
    var j := PartInTokens(cls, us, head, part);
    var k := j + |head|;
    forall i | j <= i < k
      ensures ts[i] == us[i]
    {
      assert us[i] == us[j..k][i - j] == head[i - j];
    }
    assert ts[j..k] == us[j..k];
    PartInText(ts, j, head, part);
  }

  lemma NoNewMarker(cls: Classes, text: string, w: string, x: string)
    requires Sensible(cls) && IsLabel(cls, w) && PlainLabel(cls, x) && ("edit" <= x ==> "edit" <= w)
    requires Contains(Retarget(cls, text, w, x), MARKER)
    ensures Contains(text, MARKER)
  {
    MarkerIs();
    HeadEnds();
    HeadValid(cls);
    HeadWords(cls);
    NotLabels(cls);
    TokensValid(cls, text);
    DetokTokens(cls, text);
    RetargetIsRelabel(cls, text, w, x);
    hide Tokens, Retarget, RelabelTokens, Valid, Sensible, Detok, IsLabel, Contains;
    NoNewPart(cls, Tokens(cls, text), MARKER_HEAD, "edit", w, x);
  }

  // ----- the entry

  predicate StartsOutside(cls: Classes, s: string) {
    s != "" && !cls.inLabel(s[0])
  }

  predicate EndsOutside(cls: Classes, s: string) {
    s != "" && !cls.inLabel(s[|s| - 1])
  }

  lemma CutMore(cls: Classes, piece: string, pieces: seq<string>)
    requires Cut(cls, pieces) && pieces != [] && StartsOutside(cls, pieces[0]) && EndsOutside(cls, piece)
    ensures Cut(cls, [piece] + pieces)
  {
    assert ([piece] + pieces)[1..] == pieces;
  }

  lemma BootCut(cls: Classes, network: bool, repo: string, ks: string, tail: string)
    requires StartsOutside(cls, repo) && EndsOutside(cls, repo) && StartsOutside(cls, ks) && EndsOutside(cls, ks)
    requires StartsOutside(cls, tail)
    ensures var ps := Boot(network, repo, ks, tail); Cut(cls, ps) && StartsOutside(cls, ps[0])
  {
    hide StartsOutside, EndsOutside;
    CutMore(cls, ks, [tail]);
    if network {
      assert [] + ([ks] + [tail]) == [ks] + [tail];
    } else {
      CutMore(cls, repo, [ks] + [tail]);
    }
  }

  lemma LineEnds(cls: Classes)
    requires Sensible(cls)
    ensures StartsOutside(cls, REPO) && EndsOutside(cls, REPO) && StartsOutside(cls, KS) && EndsOutside(cls, KS)
  {
  }

  lemma IsolinuxEnds(cls: Classes)
    requires Sensible(cls)
    ensures EndsOutside(cls, ISOLINUX_HEAD) && MARKER <= ISOLINUX_HEAD && StartsOutside(cls, ISOLINUX_TAIL)
  {
    hide MARKER, Detok;
  }

  lemma GrubEnds(cls: Classes, kind: Kind)
    requires Sensible(cls)
    ensures EndsOutside(cls, GRUB_HEAD) && MARKER <= GRUB_HEAD
    ensures StartsOutside(cls, GrubBoot(kind)) && EndsOutside(cls, GrubBoot(kind)) && StartsOutside(cls, GrubTail(kind))
  {
    hide MARKER;
  }

  lemma PiecesCut(cls: Classes, kind: Kind, network: bool)
    requires Sensible(cls)
    ensures Cut(cls, Pieces(kind, network)) && MARKER <= Pieces(kind, network)[0]
  {
    LineEnds(cls);
    IsolinuxEnds(cls);
    GrubEnds(cls, kind);
    hide *;
    PiecesAre(kind, network);
    if kind == Isolinux {
      var rest := Boot(network, REPO, KS, ISOLINUX_TAIL);
      BootCut(cls, network, REPO, KS, ISOLINUX_TAIL);
      CutMore(cls, ISOLINUX_HEAD, rest);
    } else {
      var rest := Boot(network, REPO, KS, GrubTail(kind));
      BootCut(cls, network, REPO, KS, GrubTail(kind));
      CutMore(cls, GrubBoot(kind), rest);
      CutMore(cls, GRUB_HEAD, [GrubBoot(kind)] + rest);
    }
  }

  lemma PiecesAre(kind: Kind, network: bool)
    ensures Pieces(kind, network) ==
      if kind == Isolinux then [ISOLINUX_HEAD] + Boot(network, REPO, KS, ISOLINUX_TAIL)
      else [GRUB_HEAD] + ([GrubBoot(kind)] + Boot(network, REPO, KS, GrubTail(kind)))
  {
  }

  lemma FeedAfter(cls: Classes, s: string)
    requires Sensible(cls)
    ensures Tokens(cls, s + "\n") == Tokens(cls, s) + [NL]
  {
    TokensValid(cls, s);
    DetokTokens(cls, s);
    ValidFeed(cls);
    hide Valid, Tokens, Sensible;
    var ts := Tokens(cls, s);
    ValidConcat(cls, ts, [NL]);
    DetokConcat(ts, [NL]);
    OneText('\n');
    TokensDetok(cls, ts + [NL]);
  }

  lemma EntryRelabels(cls: Classes, kind: Kind, network: bool, w: string, x: string)
    requires Sensible(cls) && IsLabel(cls, w) && IsLabel(cls, x) && NotInTemplates(cls, kind, network, w)
    ensures RelabelTokens(Tokens(cls, EntryText(kind, w, network)), w, x) == Tokens(cls, EntryText(kind, x, network))
  {
    var pieces := Pieces(kind, network);
    assert forall p :: p in pieces ==> Word(w) !in Tokens(cls, p);
    PiecesCut(cls, kind, network);
    FeedAfter(cls, Fill(pieces, w));
    FeedAfter(cls, Fill(pieces, x));
    hide Pieces, Tokens, RelabelTokens, Sensible, IsLabel, Cut, MARKER;
    FillRelabels(cls, pieces, w, x);
    RelabelConcat(Tokens(cls, Fill(pieces, w)), [NL], w, x);
    RelabelAbsent([NL], w, x);
  }

  lemma EntryHasMark(pieces: seq<string>, l: string, mark: string)
    requires pieces != [] && mark <= pieces[0]
    ensures mark <= Fill(pieces, l) + "\n"
  {
  }

  lemma EntryFacts(cls: Classes, kind: Kind, network: bool, l: string)
    requires Sensible(cls)
    ensures var e := Tokens(cls, EntryText(kind, l, network));
      Valid(cls, e) && e != [] && e[|e| - 1] == NL && Detok(e) == EntryText(kind, l, network)
    ensures MARKER <= EntryText(kind, l, network)
  {
    PiecesCut(cls, kind, network);
    PiecesAre(kind, network);
    TokensValid(cls, EntryText(kind, l, network));
    DetokTokens(cls, EntryText(kind, l, network));
    EntryIs(kind, l, network);
    hide *;
    FeedAfter(cls, Fill(Pieces(kind, network), l));
    EntryHasMark(Pieces(kind, network), l, MARKER);
  }

  lemma EntryIs(kind: Kind, l: string, network: bool)
    ensures EntryText(kind, l, network) == Fill(Pieces(kind, network), l) + "\n"
  {
  }

  // A text the entry was put into holds the marker.
  lemma MarkerInside(a: seq<Token>, entry: seq<Token>, b: seq<Token>, mark: string)
    requires mark <= Detok(entry)
    ensures Contains(Detok(a + entry + b), mark)
  {
    hide Detok;
    DetokConcat(a + entry, b);
    DetokConcat(a, entry);
    assert Detok(a) + Detok(entry) + Detok(b) == Detok(a) + (Detok(entry) + Detok(b));
    PartFound(Detok(a), Detok(entry) + Detok(b), mark);
  }

  // ----- the laws

  lemma MarkedStays(cls: Classes, kind: Kind, text: string, volid: string, network: bool)
    requires Contains(text, MARKER)
    ensures RewriteCfg(cls, kind, text, volid, network) == Ok(text)
  {
    hide MARKER, Contains, RewriteText, EntryText;
  }

  lemma RewriteIs(cls: Classes, kind: Kind, text: string, volid: string, network: bool)
    requires Sensible(cls) && !Contains(text, MARKER)
    ensures RewriteCfg(cls, kind, text, volid, network) ==
      Written(RewriteTokens(cls, kind, Tokens(cls, text), Tokens(cls, EntryText(kind, volid, network))))
  {
    RewriteAgrees(cls, kind, text, EntryText(kind, volid, network));
    hide RewriteTokens, RewriteText, EntryText, Contains, MARKER, Sensible;
  }

  // An output of a build holds the marker and splits into its tokens.
  lemma BuildOutput(cls: Classes, kind: Kind, text: string, volid: string, network: bool)
    requires Sensible(cls) && RewriteCfg(cls, kind, text, volid, network).Ok?
    ensures Contains(RewriteCfg(cls, kind, text, volid, network).value, MARKER)
    ensures !Contains(text, MARKER) ==>
      RewriteTokens(cls, kind, Tokens(cls, text), Tokens(cls, EntryText(kind, volid, network)))
        == Ok(Tokens(cls, RewriteCfg(cls, kind, text, volid, network).value))
  {
    hide *;
    TokensValid(cls, text);
    EntryFacts(cls, kind, network, volid);
    if Contains(text, MARKER) {
      MarkedStays(cls, kind, text, volid, network);
    } else {
      RewriteIs(cls, kind, text, volid, network);
      var ts, entry := Tokens(cls, text), Tokens(cls, EntryText(kind, volid, network));
      WrittenRelabels(RewriteTokens(cls, kind, ts, entry), "", "");
      RewriteValid(cls, kind, ts, entry);
      var r := RewriteTokens(cls, kind, ts, entry).value;
      var a, b :| r == a + entry + b;
      MarkerInside(a, entry, b, MARKER);
      TokensDetok(cls, r);
    }
  }

  // Building a build again for its own label changes nothing.
  lemma BuildAgain(cls: Classes, kind: Kind, text: string, vendor: string, volid: string, network: bool)
    requires Sensible(cls) && vendor != "" && volid != ""
    requires Build(cls, kind, text, vendor, volid, network).Ok?
    ensures var built := Build(cls, kind, text, vendor, volid, network).value;
      Build(cls, kind, built, volid, volid, network) == Ok(built)
  {
    hide Sensible, Substitute, MARKER, RewriteTokens;
    BuildOutput(cls, kind, Retarget(cls, text, vendor, volid), volid, network);
  }

  // Two labels the patterns cannot tell apart.
  predicate Alike(cls: Classes, w: string, x: string) {
    SameDigits(cls, w, x) && ("edit" <= x ==> "edit" <= w)
  }

  lemma StaysUnmarked(cls: Classes, text: string, w: string, x: string)
    requires Sensible(cls) && IsLabel(cls, w) && PlainLabel(cls, x) && ("edit" <= x ==> "edit" <= w)
    requires !Contains(text, MARKER)
    ensures !Contains(Retarget(cls, text, w, x), MARKER)
  {
    assert w != "";
    hide *;
    if Contains(Retarget(cls, text, w, x), MARKER) {
      NoNewMarker(cls, text, w, x);
    }
  }

  lemma RewriteRetargets(cls: Classes, kind: Kind, text: string, w: string, x: string, network: bool)
    requires Sensible(cls) && PlainLabel(cls, w) && PlainLabel(cls, x) && NotInTemplates(cls, kind, network, w) && Alike(cls, w, x)
    requires !Contains(text, MARKER)
    ensures !Contains(Retarget(cls, text, w, x), MARKER)
    ensures var one, two := RewriteCfg(cls, kind, text, w, network),
                            RewriteCfg(cls, kind, Retarget(cls, text, w, x), x, network);
      match one
      case Err(e) => two == Err(e)
      case Ok(built) => two == Ok(Retarget(cls, built, w, x))
  {
    PlainIsLabel(cls, w);
    PlainIsLabel(cls, x);
    assert Alike(cls, w, x);
    hide *;
    hide Sensible, NotInTemplates;
    AlikeParts(cls, w, x);
    StaysUnmarked(cls, text, w, x);
    var text' := Retarget(cls, text, w, x);
    RetargetTokens(cls, text, w, x);
    EntryRelabels(cls, kind, network, w, x);
    var ts, entry := Tokens(cls, text), Tokens(cls, EntryText(kind, w, network));
    RewriteCommutes(cls, kind, network, ts, entry, w, x);
    RewriteIs(cls, kind, text, w, network);
    RewriteIs(cls, kind, text', x, network);
    WrittenRelabels(RewriteTokens(cls, kind, ts, entry), w, x);
    var one := RewriteCfg(cls, kind, text, w, network);
    if one.Ok? {
      BuildOutput(cls, kind, text, w, network);
      RetargetIsRelabel(cls, one.value, w, x);
    }
  }

  lemma PlainIsLabel(cls: Classes, l: string)
    requires PlainLabel(cls, l)
    ensures IsLabel(cls, l) && l != ""
  {
  }

  lemma AlikeParts(cls: Classes, w: string, x: string)
    requires Alike(cls, w, x)
    ensures SameDigits(cls, w, x) && ("edit" <= x ==> "edit" <= w)
  {
  }

  lemma WrittenRelabels(r: Result<seq<Token>, RewriteError>, w: string, x: string)
    ensures r.Err? ==> Written(RelabelResult(r, w, x)) == Written(r) == Err(r.error)
    ensures r.Ok? ==> Written(r) == Ok(Detok(r.value))
    ensures r.Ok? ==> Written(RelabelResult(r, w, x)) == Ok(Detok(RelabelTokens(r.value, w, x)))
  {
  }

  // Building for w and rebuilding for x is building for x, errors included.
  lemma RebuildIsBuild(cls: Classes, kind: Kind, text: string, vendor: string, w: string, x: string, network: bool)
    requires Sensible(cls) && IsLabel(cls, vendor) && PlainLabel(cls, w) && PlainLabel(cls, x)
    requires NotInTemplates(cls, kind, network, w) && (vendor == w || Word(w) !in Tokens(cls, text))
    requires Alike(cls, w, x)
    ensures RebuildHolds(cls, kind, text, vendor, w, x, network)
  {
    var mid := Retarget(cls, text, vendor, w);
    RetargetComposesIff(cls, text, vendor, w, x);
    var first := Build(cls, kind, text, vendor, w, network);
    if !Contains(mid, MARKER) {
      RewriteRetargets(cls, kind, mid, w, x, network);
      if first.Ok? {
        var second := Retarget(cls, first.value, w, x);
        BuildOutput(cls, kind, Retarget(cls, mid, w, x), x, network);
      }
    }
  }

  ghost predicate RebuildHolds(cls: Classes, kind: Kind, text: string, vendor: string, w: string, x: string, network: bool)
    requires vendor != "" && w != ""
  {
    match Build(cls, kind, text, vendor, w, network)
    case Err(e) => Build(cls, kind, text, vendor, x, network) == Err(e)
    case Ok(built) => Build(cls, kind, built, w, x, network) == Build(cls, kind, text, vendor, x, network)
  }
}
