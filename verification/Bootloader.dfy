/** `rewrite_isolinux` and `rewrite_grub`: the unattended boot entry, inserted
    once. */
module Bootloader {
  import opened Prelude
  import opened Relabel
  import opened Regex

  datatype Kind = Isolinux | GrubEfi | GrubBios

  // NoKeyword is BootloaderRewriteError; KeywordLost is the failed assertion
  // that the keyword found at first is still there after the edits.
  datatype RewriteError = NoKeyword | KeywordLost

  // What every pattern and template relies on: true of Python's \w, \s and \d.
  ghost predicate Sensible(cls: Classes) {
    && (forall c :: cls.space(c) ==> !cls.inLabel(c))
    && (forall c :: cls.digit(c) ==> cls.inLabel(c))
    && (forall c :: 'a' <= c <= 'z' || '0' <= c <= '9' || c == '-' ==> cls.inLabel(c))
    && (forall c :: '0' <= c <= '9' ==> cls.digit(c))
    && !cls.inLabel(' ') && !cls.inLabel('\n') && !cls.inLabel('\r') && !cls.inLabel('\t')
    && !cls.inLabel('=') && !cls.inLabel(':') && !cls.inLabel('\'') && !cls.inLabel('"') && !cls.inLabel('#')
    && !cls.inLabel('\U{2014}')
    && cls.space('\n') && cls.space(' ')
  }

  // The classes restricted to ASCII.
  const ASCII := Classes(
    c => 'a' <= c <= 'z' || 'A' <= c <= 'Z' || '0' <= c <= '9' || c == '_' || c == '.' || c == '-',
    c => c == ' ' || c == '\t' || c == '\n' || c == '\r',
    c => '0' <= c <= '9')

  lemma AsciiIsSensible()
    ensures Sensible(ASCII)
  {
  }

  // ----- texts

  // "# ks-gen unattended entry \U{2014} do not "
  const MARKER_HEAD := [
    Other('#'), Other(' '), Word("ks-gen"), Other(' '), Word("unattended"), Other(' '), Word("entry"), Other(' '),
    Other('\U{2014}'), Other(' '), Word("do"), Other(' '), Word("not"), Other(' ')]
  const MARKER := Detok(MARKER_HEAD) + "edit"

  // The entry's template, cut where the volume label goes and at each `=`.
  const REPO := " inst.repo" + "=" + "hd:LABEL" + "="
  const KS := " inst.ks" + "=" + "hd:LABEL" + "="
  const ISOLINUX_HEAD :=
    MARKER + "\nlabel ksgen-unattended\n" + "  menu label ^Unattended STIG" + " install (ks-gen)\n" + "  menu default\n"
    + "  kernel vmlinuz\n  append initrd" + "=" + "initrd.img inst.stage2" + "=" + "hd:LABEL" + "="
  const ISOLINUX_TAIL := ":" + "/ks.cfg quiet\n"
  const GRUB_HEAD :=
    MARKER + "\nmenuentry 'Unattended STIG" + " install (ks-gen)' " + "--class fedora --class gnu-linux"
    + " --class gnu --class os {\n" + "  search --no-floppy --set" + "=" + "root -l " + "'"

  function GrubBoot(kind: Kind): string {
    "'" + "\n  " + (if kind == GrubEfi then "linuxefi" else "linux")
    + " /images/pxeboot/vmlinuz" + " inst.stage2" + "=" + "hd:LABEL" + "="
  }

  function GrubTail(kind: Kind): string {
    ":" + "/ks.cfg quiet\n  " + (if kind == GrubEfi then "initrdefi" else "initrd") + " /images/pxeboot/initrd.img\n}\n"
  }

  function Boot(network: bool, repo: string, ks: string, tail: string): seq<string> {
    (if network then [] else [repo]) + ([ks] + [tail])
  }

  function Pieces(kind: Kind, network: bool): seq<string> {
    if kind == Isolinux then [ISOLINUX_HEAD] + Boot(network, REPO, KS, ISOLINUX_TAIL)
    else [GRUB_HEAD] + ([GrubBoot(kind)] + Boot(network, REPO, KS, GrubTail(kind)))
  }

  function Fill(pieces: seq<string>, volid: string): string {
    if pieces == [] then ""
    else if |pieces| == 1 then pieces[0]
    else pieces[0] + volid + Fill(pieces[1..], volid)
  }

  // The entry and the line end inserted after it.
  function EntryText(kind: Kind, volid: string, network: bool): string {
    Fill(Pieces(kind, network), volid) + "\n"
  }

  const TIMEOUT_TEXT := "timeout 50"
  const SET_TIMEOUT_TEXT := "set timeout=5"
  const SET_DEFAULT_TEXT := "set default=\"0\""

  // ----- the patterns, each anchored at a line start

  datatype Pattern = LabelLine | MenuDefault | TimeoutLine | MenuEntry | SetTimeout | SetDefault

  // \s*$ and what follows it
  function SpaceEol(cls: Classes, re: seq<Item>): seq<Item> {
    [Star(cls.space)] + ([Eol] + re)
  }

  // \d+\s*$
  function DigitsEol(cls: Classes): seq<Item> {
    [Plus(cls.digit)] + SpaceEol(cls, [])
  }

  // word\s+ and what follows it
  function WordThen(cls: Classes, word: string, re: seq<Item>): seq<Item> {
    Lit(word) + ([Plus(cls.space)] + re)
  }

  function NonSpace(cls: Classes): char -> bool {
    c => !cls.space(c)
  }

  function BlankChar(c: char): bool {
    c == ' ' || c == '\t'
  }

  function NoFeed(c: char): bool {
    c != '\n'
  }

  function RegexOf(cls: Classes, p: Pattern): seq<Item> {
    match p
    case LabelLine => WordThen(cls, "label", [Plus(NonSpace(cls))])
    case MenuEntry => WordThen(cls, "menuentry", [])
    case TimeoutLine => WordThen(cls, "timeout", DigitsEol(cls))
    case SetTimeout => WordThen(cls, "set", Lit("timeout") + ([One('=')] + DigitsEol(cls)))
    case SetDefault => WordThen(cls, "set", Lit("default") + ([One('=')] + ([Star(NoFeed)] + [Eol])))
    case MenuDefault =>
      [Star(BlankChar)]
      + WordThen(cls, "menu", Lit("default") + SpaceEol(cls, [Opt('\r')] + [Opt('\n')]))
  }

  // ----- search and substitution

  // `re.search`: the first line start where the pattern matches.
  function FindText(cls: Classes, p: Pattern, s: string, atLine: bool): (r: Option<nat>)
    ensures r.Some? ==> r.value <= |s| && Match(RegexOf(cls, p), s[r.value..]).Some?
  {
    if atLine && Match(RegexOf(cls, p), s).Some? then assert s[0..] == s; Some(0)
    else if s == "" then None
    else
      match FindText(cls, p, s[1..], s[0] == '\n')
      case None => None
      case Some(i) => assert s[1..][i..] == s[i + 1..]; Some(i + 1)
  }

  // `re.subn(..., count=1)`, or the replacement line put first when nothing matched.
  function SetText(cls: Classes, p: Pattern, s: string, line: string): string {
    match FindText(cls, p, s, true)
    case None => line + "\n" + s
    case Some(i) => s[..i] + line + s[i + Match(RegexOf(cls, p), s[i..]).value..]
  }

  // `re.sub` of `menu default` lines by nothing; no match of them is empty.
  function RemoveText(cls: Classes, s: string, atLine: bool): string
    decreases |s|
  {
    if s == "" then ""
    else
      match (if atLine then Match(RegexOf(cls, MenuDefault), s) else None)
      case Some(n) => if n == 0 then s else RemoveText(cls, s[n..], s[n - 1] == '\n')
      case None => [s[0]] + RemoveText(cls, s[1..], s[0] == '\n')
  }

  function Keyword(kind: Kind): Pattern {
    if kind == Isolinux then LabelLine else MenuEntry
  }

  // The edits before the entry goes in.
  function EditText(cls: Classes, kind: Kind, s: string): string {
    if kind == Isolinux then SetText(cls, TimeoutLine, RemoveText(cls, s, true), TIMEOUT_TEXT)
    else SetText(cls, SetDefault, SetText(cls, SetTimeout, s, SET_TIMEOUT_TEXT), SET_DEFAULT_TEXT)
  }

  function InsertText(cls: Classes, p: Pattern, s: string, entry: string): Result<string, RewriteError> {
    match FindText(cls, p, s, true)
    case None => Err(KeywordLost)
    case Some(i) => Ok(s[..i] + entry + s[i..])
  }

  function RewriteText(cls: Classes, kind: Kind, text: string, entry: string): Result<string, RewriteError> {
    if FindText(cls, Keyword(kind), text, true) == None then Err(NoKeyword)
    else InsertText(cls, Keyword(kind), EditText(cls, kind, text), entry)
  }

  ghost predicate Contains(text: string, part: string) {
    exists i: nat :: i <= |text| && part <= text[i..]
  }

  // `rewrite_isolinux` and `rewrite_grub`: a text holding the marker is left alone.
  ghost function RewriteCfg(cls: Classes, kind: Kind, text: string, volid: string, network: bool): Result<string, RewriteError> {
    if Contains(text, MARKER) then Ok(text)
    else RewriteText(cls, kind, text, EntryText(kind, volid, network))
  }

  // `_rewrite_cfg`: retarget the vendor's entries, then add ours.
  ghost function Build(cls: Classes, kind: Kind, text: string, vendor: string, volid: string, network: bool)
    : Result<string, RewriteError>
    requires vendor != ""
  {
    RewriteCfg(cls, kind, Retarget(cls, text, vendor, volid), volid, network)
  }
}
