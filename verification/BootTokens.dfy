/** The boot rewriters on tokens: their patterns decided on whole label runs,
    which is where the literal words of the patterns always end. */
module BootTokens {
  import opened Prelude
  import opened Relabel
  import opened Bootloader

  // timeout 50, set timeout=5, set default="0"
  const TIMEOUT := [Word("timeout"), Other(' '), Word("50")]
  const SET_TIMEOUT := [Word("set"), Other(' '), Word("timeout"), Other('='), Word("5")]
  const SET_DEFAULT := [Word("set"), Other(' '), Word("default"), Other('='), Other('"'), Word("0"), Other('"')]

  // ----- the patterns at a line start

  const NL := Other('\n')

  predicate SpaceToken(cls: Classes, t: Token) {
    t.Other? && cls.space(t.c)
  }

  // \s*
  function Spaces(cls: Classes, ts: seq<Token>): (n: nat)
    ensures n <= |ts| && (n < |ts| ==> !SpaceToken(cls, ts[n]))
  {
    if ts == [] || !SpaceToken(cls, ts[0]) then 0 else 1 + Spaces(cls, ts[1..])
  }

  // [ \t]*
  function Blanks(ts: seq<Token>): (n: nat)
    ensures n <= |ts|
  {
    if ts == [] || (ts[0] != Other(' ') && ts[0] != Other('\t')) then 0 else 1 + Blanks(ts[1..])
  }

  // The last of the first n tokens that is a line feed.
  function LastFeed(ts: seq<Token>, n: nat): (r: Option<nat>)
    requires n <= |ts|
    ensures r.Some? ==> r.value < n && ts[r.value] == NL
  {
    if n == 0 then None else if ts[n - 1] == NL then Some(n - 1) else LastFeed(ts, n - 1)
  }

  // \s*$ with backtracking: all the space to the end of the text, or as much
  // as leaves a line feed next.
  function SpaceToEol(cls: Classes, ts: seq<Token>): (r: Option<nat>)
    ensures r.Some? ==> r.value <= |ts| && (r.value == |ts| || ts[r.value] == NL)
  {
    var k := Spaces(cls, ts);
    if k == |ts| then Some(k) else LastFeed(ts, k)
  }

  // A greedy run of a class that holds every label character.
  function TokenRun(chars: char -> bool, ts: seq<Token>): (n: nat)
    ensures n <= |ts| && (n < |ts| ==> ts[n].Other? && !chars(ts[n].c))
  {
    if ts == [] || (ts[0].Other? && !chars(ts[0].c)) then 0 else 1 + TokenRun(chars, ts[1..])
  }

  // .*
  function LineLen(ts: seq<Token>): (n: nat)
    ensures n <= |ts| && (n == |ts| || ts[n] == NL)
  {
    TokenRun(NoFeed, ts)
  }

  // \S+
  function NonSpaces(cls: Classes, ts: seq<Token>): (r: Option<nat>)
    ensures r.Some? ==> 0 < r.value <= |ts|
    ensures r.Some? <==> ts != [] && !SpaceToken(cls, ts[0])
  {
    var n := TokenRun(NonSpace(cls), ts);
    if n == 0 then None else Some(n)
  }

  predicate AllDigits(cls: Classes, s: string) {
    forall c :: c in s ==> cls.digit(c)
  }

  predicate DigitsToken(cls: Classes, t: Token) {
    t.Word? && AllDigits(cls, t.text)
  }

  // word\s+
  function WordSpace(cls: Classes, word: string, ts: seq<Token>): (r: Option<nat>)
    ensures r.Some? ==> 1 < r.value <= |ts|
  {
    if ts == [] || ts[0] != Word(word) || Spaces(cls, ts[1..]) == 0 then None else Some(1 + Spaces(cls, ts[1..]))
  }

  // ^timeout\s+\d+\s*$
  function MatchTimeout(cls: Classes, ts: seq<Token>): (r: Option<nat>)
    ensures r.Some? ==> 0 < r.value <= |ts| && (r.value == |ts| || ts[r.value] == NL)
  {
    match WordSpace(cls, "timeout", ts)
    case None => None
    case Some(k) =>
      if k == |ts| || !DigitsToken(cls, ts[k]) then None
      else match SpaceToEol(cls, ts[k + 1..]) case None => None case Some(j) => Some(k + 1 + j)
  }

  // ^set\s+timeout=\d+\s*$
  function MatchSetTimeout(cls: Classes, ts: seq<Token>): (r: Option<nat>)
    ensures r.Some? ==> 0 < r.value <= |ts| && (r.value == |ts| || ts[r.value] == NL)
  {
    match WordSpace(cls, "set", ts)
    case None => None
    case Some(k) =>
      if k + 3 > |ts| || ts[k] != Word("timeout") || ts[k + 1] != Other('=') || !DigitsToken(cls, ts[k + 2]) then None
      else match SpaceToEol(cls, ts[k + 3..]) case None => None case Some(j) => Some(k + 3 + j)
  }

  // ^set\s+default=.*$
  function MatchSetDefault(cls: Classes, ts: seq<Token>): (r: Option<nat>)
    ensures r.Some? ==> 0 < r.value <= |ts| && (r.value == |ts| || ts[r.value] == NL)
  {
    match WordSpace(cls, "set", ts)
    case None => None
    case Some(k) =>
      if k + 2 > |ts| || ts[k] != Word("default") || ts[k + 1] != Other('=') then None
      else Some(k + 2 + LineLen(ts[k + 2..]))
  }

  // \r?\n? from position e on
  function LineEnd(ts: seq<Token>, e: nat): (r: nat)
    requires e <= |ts|
    ensures e <= r <= |ts|
  {
    var e' := if e < |ts| && ts[e] == Other('\r') then e + 1 else e;
    if e' < |ts| && ts[e'] == NL then e' + 1 else e'
  }

  // menu\s+default\s*$\r?\n?
  function MatchMenu(cls: Classes, ts: seq<Token>): (r: Option<nat>)
    ensures r.Some? ==> 0 < r.value <= |ts|
  {
    match WordSpace(cls, "menu", ts)
    case None => None
    case Some(k) =>
      if k == |ts| || ts[k] != Word("default") then None
      else match SpaceToEol(cls, ts[k + 1..]) case None => None case Some(j) => Some(LineEnd(ts, k + 1 + j))
  }

  // ^[ \t]*menu\s+default\s*$\r?\n?
  function MatchMenuDefault(cls: Classes, ts: seq<Token>): (r: Option<nat>)
    ensures r.Some? ==> 0 < r.value <= |ts|
  {
    var b := Blanks(ts);
    match MatchMenu(cls, ts[b..]) case None => None case Some(k) => Some(b + k)
  }

  // ^label\s+\S+
  function MatchLabel(cls: Classes, ts: seq<Token>): (r: Option<nat>)
    ensures r.Some? ==> 0 < r.value <= |ts|
    ensures r.Some? <==> WordSpace(cls, "label", ts).Some? && WordSpace(cls, "label", ts).value < |ts|
  {
    match WordSpace(cls, "label", ts)
    case None => None
    case Some(k) => match NonSpaces(cls, ts[k..]) case None => None case Some(n) => Some(k + n)
  }

  // How many tokens a pattern takes at the start of ts.
  function MatchLen(cls: Classes, p: Pattern, ts: seq<Token>): (r: Option<nat>)
    ensures r.Some? ==> 0 < r.value <= |ts|
    ensures r.Some? && (p == TimeoutLine || p == SetTimeout || p == SetDefault) ==> r.value == |ts| || ts[r.value] == NL
  {
    match p
    case LabelLine => MatchLabel(cls, ts)
    case MenuEntry => WordSpace(cls, "menuentry", ts)
    case TimeoutLine => MatchTimeout(cls, ts)
    case SetTimeout => MatchSetTimeout(cls, ts)
    case SetDefault => MatchSetDefault(cls, ts)
    case MenuDefault => MatchMenuDefault(cls, ts)
  }

  // The first line start where the pattern matches.
  function FindFirst(cls: Classes, p: Pattern, ts: seq<Token>, atLine: bool): (r: Option<nat>)
    ensures r.Some? ==> r.value < |ts| && MatchLen(cls, p, ts[r.value..]).Some?
    ensures r.Some? ==> if r.value == 0 then atLine else ts[r.value - 1] == NL
  {
    if ts == [] then None
    else if atLine && MatchLen(cls, p, ts).Some? then assert ts[0..] == ts; Some(0)
    else
      match FindFirst(cls, p, ts[1..], ts[0] == NL)
      case None => None
      case Some(i) => assert ts[1..][i..] == ts[i + 1..]; Some(i + 1)
  }

  // re.subn(..., count=1), or the replacement line put first when nothing matched.
  function SetLine(cls: Classes, p: Pattern, ts: seq<Token>, line: seq<Token>): seq<Token> {
    match FindFirst(cls, p, ts, true)
    case None => line + [NL] + ts
    case Some(i) => ts[..i] + line + ts[i + MatchLen(cls, p, ts[i..]).value..]
  }

  // re.sub of `menu default` lines by nothing.
  function RemoveMenuDefault(cls: Classes, ts: seq<Token>, atLine: bool): seq<Token> {
    if ts == [] then []
    else
      match (if atLine then MatchLen(cls, MenuDefault, ts) else None)
      case Some(n) => RemoveMenuDefault(cls, ts[n..], ts[n - 1] == NL)
      case None => [ts[0]] + RemoveMenuDefault(cls, ts[1..], ts[0] == NL)
  }

  function InsertBefore(cls: Classes, p: Pattern, ts: seq<Token>, entry: seq<Token>): Result<seq<Token>, RewriteError> {
    match FindFirst(cls, p, ts, true)
    case None => Err(KeywordLost)
    case Some(i) => Ok(ts[..i] + entry + ts[i..])
  }

  // The edits before the entry goes in.
  function Edits(cls: Classes, kind: Kind, ts: seq<Token>): seq<Token> {
    if kind == Isolinux then
      SetLine(cls, TimeoutLine, RemoveMenuDefault(cls, ts, true), TIMEOUT)
    else
      SetLine(cls, SetDefault, SetLine(cls, SetTimeout, ts, SET_TIMEOUT), SET_DEFAULT)
  }

  function RewriteTokens(cls: Classes, kind: Kind, ts: seq<Token>, entry: seq<Token>): Result<seq<Token>, RewriteError> {
    if FindFirst(cls, Keyword(kind), ts, true) == None then Err(NoKeyword)
    else InsertBefore(cls, Keyword(kind), Edits(cls, kind, ts), entry)
  }

  function Written(r: Result<seq<Token>, RewriteError>): Result<string, RewriteError> {
    match r case Ok(ts) => Ok(Detok(ts)) case Err(e) => Err(e)
  }
}
