/** `_tokens`, `key_type`, `has_fips_usable_key`: which algorithm an
    authorized_keys line names. `space` is Python's `str.isspace`. */
module SshKeys {
  import opened Prelude

  const FIPS_USABLE := [
    "ssh-rsa", "rsa-sha2-512", "rsa-sha2-256", "ecdsa-sha2-nistp521", "ecdsa-sha2-nistp384", "ecdsa-sha2-nistp256"]
  const FIPS_STRIPPED := [
    "ssh-ed25519", "sk-ssh-ed25519@openssh.com", "sk-ecdsa-sha2-nistp256@openssh.com", "ssh-dss"]

  predicate Known(token: string) {
    token in FIPS_USABLE || token in FIPS_STRIPPED
  }

  // The names that can stand for a key's type, and those a FIPS policy leaves.
  lemma KnownIff(token: string)
    ensures token in FIPS_USABLE <==>
      token in {"ssh-rsa", "rsa-sha2-512", "rsa-sha2-256", "ecdsa-sha2-nistp521", "ecdsa-sha2-nistp384", "ecdsa-sha2-nistp256"}
    ensures Known(token) <==>
      token in FIPS_USABLE
      || token in {"ssh-ed25519", "sk-ssh-ed25519@openssh.com", "sk-ecdsa-sha2-nistp256@openssh.com", "ssh-dss"}
  {
  }

  // ----- which positions are inside a quoted value

  datatype Mode = Plain | Quoted | Escaped

  function Next(mode: Mode, c: char): Mode {
    match mode
    case Escaped => Quoted
    case Quoted => if c == '\\' then Escaped else if c == '"' then Plain else Quoted
    case Plain => if c == '"' then Quoted else Plain
  }

  // The mode after the text s, read from the start of a line.
  function ModeAfter(s: string): Mode {
    if s == "" then Plain else Next(ModeAfter(s[..|s| - 1]), s[|s| - 1])
  }

  // ----- what the modes mean

  // A character of a quoted value, or a backslash and the character it escapes.
  datatype Atom = Raw(c: char) | Escape(c: char)

  // A character outside quotes, or a whole quoted value.
  datatype Piece = Char(c: char) | Value(body: seq<Atom>)

  predicate GoodBody(body: seq<Atom>) {
    forall a :: a in body && a.Raw? ==> a.c != '"' && a.c != '\\'
  }

  predicate GoodPieces(ps: seq<Piece>) {
    forall p :: p in ps ==> if p.Char? then p.c != '"' else GoodBody(p.body)
  }

  function BodyText(body: seq<Atom>): string {
    if body == [] then ""
    else
      BodyText(body[..|body| - 1])
      + (match body[|body| - 1] case Raw(c) => [c] case Escape(c) => ['\\', c])
  }

  function PiecesText(ps: seq<Piece>): string {
    if ps == [] then ""
    else
      PiecesText(ps[..|ps| - 1])
      + (match ps[|ps| - 1] case Char(c) => [c] case Value(body) => "\"" + BodyText(body) + "\"")
  }

  // The text is bare characters and whole quoted values.
  ghost predicate AllClosed(s: string) {
    exists ps :: GoodPieces(ps) && PiecesText(ps) == s
  }

  // After that a quote has opened, and some of its value has been read.
  ghost predicate QuoteOpen(s: string) {
    exists ps, body :: GoodPieces(ps) && GoodBody(body) && s == PiecesText(ps) + "\"" + BodyText(body)
  }

  // And then a backslash.
  ghost predicate EscapeOpen(s: string) {
    s != "" && s[|s| - 1] == '\\' && QuoteOpen(s[..|s| - 1])
  }

  lemma {:induction false} ModeMeans(s: string)
    ensures match ModeAfter(s) case Plain => AllClosed(s) case Quoted => QuoteOpen(s) case Escaped => EscapeOpen(s)
  {
    if s == "" {
      assert GoodPieces([]) && PiecesText([]) == s;
    } else {
      var t, c := s[..|s| - 1], s[|s| - 1];
      assert s == t + [c];
      ModeMeans(t);
      match ModeAfter(t)
      case Plain => AfterClosed(t, c);
      case Quoted => AfterQuote(t, c);
      case Escaped => AfterEscape(t, c);
    }
  }

  lemma AfterClosed(t: string, c: char)
    requires AllClosed(t)
    ensures c == '"' ==> QuoteOpen(t + [c])
    ensures c != '"' ==> AllClosed(t + [c])
  {
    var ps :| GoodPieces(ps) && PiecesText(ps) == t;
    if c == '"' {
      assert GoodBody([]) && BodyText([]) == "";
      assert t + [c] == PiecesText(ps) + "\"" + BodyText([]);
    } else {
      var more := ps + [Char(c)];
      assert more[..|more| - 1] == ps;
      assert PiecesText(more) == t + [c];
    }
  }

  lemma OneMoreAtom(body: seq<Atom>, a: Atom)
    ensures BodyText(body + [a]) == BodyText(body) + (match a case Raw(c) => [c] case Escape(c) => ['\\', c])
  {
    assert (body + [a])[..|body|] == body;
  }

  lemma OneMorePiece(ps: seq<Piece>, body: seq<Atom>)
    ensures PiecesText(ps + [Value(body)]) == PiecesText(ps) + ("\"" + BodyText(body) + "\"")
  {
    assert (ps + [Value(body)])[..|ps|] == ps;
  }

  lemma OpenParts(s: string) returns (ps: seq<Piece>, body: seq<Atom>)
    requires QuoteOpen(s)
    ensures GoodPieces(ps) && GoodBody(body) && s == PiecesText(ps) + "\"" + BodyText(body)
  {
    ps, body :| GoodPieces(ps) && GoodBody(body) && s == PiecesText(ps) + "\"" + BodyText(body);
  }

  // Inside a value, one more atom of it.
  lemma AtomRead(s: string, ps: seq<Piece>, body: seq<Atom>, a: Atom)
    requires GoodPieces(ps) && GoodBody(body) && (a.Raw? ==> a.c != '"' && a.c != '\\')
    requires s == PiecesText(ps) + "\"" + BodyText(body) + (match a case Raw(c) => [c] case Escape(c) => ['\\', c])
    ensures QuoteOpen(s)
  {
    OneMoreAtom(body, a);
    hide PiecesText, BodyText;
    var more := body + [a];
    assert GoodBody(more);
    assert s == PiecesText(ps) + "\"" + BodyText(more);
  }

  lemma ValueRead(s: string, ps: seq<Piece>, body: seq<Atom>)
    requires GoodPieces(ps) && GoodBody(body) && s == PiecesText(ps) + "\"" + BodyText(body) + "\""
    ensures AllClosed(s)
  {
    OneMorePiece(ps, body);
    hide PiecesText, BodyText;
    var more := ps + [Value(body)];
    assert GoodPieces(more);
    assert PiecesText(more) == s;
  }

  lemma AfterQuote(t: string, c: char)
    requires QuoteOpen(t)
    ensures c == '\\' ==> EscapeOpen(t + [c])
    ensures c == '"' ==> AllClosed(t + [c])
    ensures c != '\\' && c != '"' ==> QuoteOpen(t + [c])
  {
    hide QuoteOpen, AllClosed, PiecesText, BodyText, GoodPieces, GoodBody;
    var ps, body := OpenParts(t);
    if c == '\\' {
      assert (t + [c])[..|t + [c]| - 1] == t;
    } else if c == '"' {
      ValueRead(t + [c], ps, body);
    } else {
      AtomRead(t + [c], ps, body, Raw(c));
    }
  }

  lemma AfterEscape(t: string, c: char)
    requires EscapeOpen(t)
    ensures QuoteOpen(t + [c])
  {
    hide QuoteOpen, PiecesText, BodyText, GoodPieces, GoodBody;
    var u := t[..|t| - 1];
    var ps, body := OpenParts(u);
    assert t == u + ['\\'];
    assert t + [c] == u + ['\\', c];
    AtomRead(t + [c], ps, body, Escape(c));
  }

  lemma ModeSnoc(s: string, c: char)
    ensures ModeAfter(s + [c]) == Next(ModeAfter(s), c)
  {
    assert (s + [c])[..|s|] == s;
  }

  lemma {:induction false} InBody(p: string, body: seq<Atom>)
    requires ModeAfter(p) == Plain && GoodBody(body)
    ensures ModeAfter(p + "\"" + BodyText(body)) == Quoted
  {
    if body == [] {
      ModeSnoc(p, '"');
      assert p + "\"" + "" == p + ['"'];
    } else {
      var init, last := body[..|body| - 1], body[|body| - 1];
      assert last in body;
      InBody(p, init);
      var t := p + "\"" + BodyText(init);
      match last
      case Raw(c) =>
        ModeSnoc(t, c);
        assert p + "\"" + (BodyText(init) + [c]) == t + [c];
      case Escape(c) =>
        ModeSnoc(t, '\\');
        ModeSnoc(t + ['\\'], c);
        assert p + "\"" + (BodyText(init) + ['\\', c]) == t + ['\\'] + [c];
    }
  }

  lemma {:induction false} AfterPieces(ps: seq<Piece>)
    requires GoodPieces(ps)
    ensures ModeAfter(PiecesText(ps)) == Plain
  {
    if ps != [] {
      var init, last := ps[..|ps| - 1], ps[|ps| - 1];
      assert last in ps;
      AfterPieces(init);
      var t := PiecesText(init);
      match last
      case Char(c) => ModeSnoc(t, c);
      case Value(body) =>
        InBody(t, body);
        ModeSnoc(t + "\"" + BodyText(body), '"');
        assert t + ("\"" + BodyText(body) + "\"") == t + "\"" + BodyText(body) + ['"'];
    }
  }

  // The loop's two flags say where in this grammar a position stands: between bare
  // characters and whole quoted values, inside a value, or behind its backslash.
  lemma ModeIff(s: string)
    ensures ModeAfter(s) == Plain <==> AllClosed(s)
    ensures ModeAfter(s) == Quoted <==> QuoteOpen(s)
    ensures ModeAfter(s) == Escaped <==> EscapeOpen(s)
  {
    hide ModeAfter, AllClosed, QuoteOpen;
    ModeMeans(s);
    if AllClosed(s) {
      ClosedMode(s);
    }
    if QuoteOpen(s) {
      OpenMode(s);
    }
    if EscapeOpen(s) {
      OpenMode(s[..|s| - 1]);
      ModeSnoc(s[..|s| - 1], '\\');
      assert s == s[..|s| - 1] + ['\\'];
    }
  }

  lemma ClosedMode(s: string)
    requires AllClosed(s)
    ensures ModeAfter(s) == Plain
  {
    var ps :| GoodPieces(ps) && PiecesText(ps) == s;
    AfterPieces(ps);
  }

  lemma OpenMode(s: string)
    requires QuoteOpen(s)
    ensures ModeAfter(s) == Quoted
  {
    var ps, body :| GoodPieces(ps) && GoodBody(body) && s == PiecesText(ps) + "\"" + BodyText(body);
    AfterPieces(ps);
    InBody(PiecesText(ps), body);
  }

  // Position i separates two tokens.
  predicate Separates(space: char -> bool, s: string, i: nat)
    requires i < |s|
  {
    ModeAfter(s[..i]) == Plain && s[i] != '"' && space(s[i])
  }

  // ----- splitting at the separators

  // The finished tokens of s, and the one still open at its end.
  function Runs(space: char -> bool, s: string): (seq<string>, string) {
    if s == "" then ([], "")
    else
      var n := |s| - 1;
      var (done, open) := Runs(space, s[..n]);
      if Separates(space, s, n) then (Closed(done, open), "") else (done, open + [s[n]])
  }

  function Closed(done: seq<string>, open: string): seq<string> {
    if open == "" then done else done + [open]
  }

  function Split(space: char -> bool, s: string): seq<string> {
    Closed(Runs(space, s).0, Runs(space, s).1)
  }

  // `_tokens`
  method Tokens(space: char -> bool, entry: string) returns (tokens: seq<string>)
    ensures tokens == Split(space, entry)
  {
    tokens := [];
    var token, quoted, escaped := "", false, false;
    var i := 0;
    while i < |entry|
      invariant 0 <= i <= |entry|
      invariant (tokens, token) == Runs(space, entry[..i])
      invariant ModeAfter(entry[..i]) == if escaped then Escaped else if quoted then Quoted else Plain
      invariant escaped ==> quoted
    {
      var ch := entry[i];
      ghost var s := entry[..i + 1];
      assert s[..i] == entry[..i] && s[i] == ch;
      if escaped {
        token := token + [ch];
        escaped := false;
      } else if quoted && ch == '\\' {
        token := token + [ch];
        escaped := true;
      } else if ch == '"' {
        quoted := !quoted;
        token := token + [ch];
      } else if space(ch) && !quoted {
        if token != "" {
          tokens := tokens + [token];
          token := "";
        }
      } else {
        token := token + [ch];
      }
      i := i + 1;
    }
    assert entry[..i] == entry;
    if token != "" {
      tokens := tokens + [token];
    }
  }

  // ----- nothing is lost

  // The text without its separators.
  function Kept(space: char -> bool, s: string): string {
    if s == "" then ""
    else
      var n := |s| - 1;
      Kept(space, s[..n]) + if Separates(space, s, n) then "" else [s[n]]
  }

  function Concat(parts: seq<string>): string {
    if parts == [] then "" else Concat(parts[..|parts| - 1]) + parts[|parts| - 1]
  }

  lemma ClosedConcat(done: seq<string>, open: string)
    ensures Concat(Closed(done, open)) == Concat(done) + open
  {
    if open != "" {
      assert Closed(done, open)[..|done|] == done;
    }
  }

  lemma {:induction false} RunsKept(space: char -> bool, s: string)
    ensures Concat(Runs(space, s).0) + Runs(space, s).1 == Kept(space, s)
    ensures forall t :: t in Runs(space, s).0 ==> t != ""
  {
    if s != "" {
      var n := |s| - 1;
      RunsKept(space, s[..n]);
      var (done, open) := Runs(space, s[..n]);
      ClosedConcat(done, open);
    }
  }

  // The tokens are non-empty and, joined, are the line minus its separators.
  lemma NothingLost(space: char -> bool, entry: string)
    ensures Concat(Split(space, entry)) == Kept(space, entry)
    ensures "" !in Split(space, entry)
  {
    RunsKept(space, entry);
    ClosedConcat(Runs(space, entry).0, Runs(space, entry).1);
  }

  // ----- the tokens are the maximal stretches between separators

  ghost predicate NoSeparator(space: char -> bool, s: string, a: nat, b: nat)
    requires b <= |s|
  {
    forall i | a <= i < b :: !Separates(space, s, i)
  }

  ghost predicate Starts(space: char -> bool, s: string, a: nat) {
    a <= |s| && (a == 0 || Separates(space, s, a - 1))
  }

  // s[a..b] is a non-empty stretch with a separator, or an end, on either side.
  ghost predicate Whole(space: char -> bool, s: string, a: nat, b: nat) {
    a < b <= |s| && Starts(space, s, a) && NoSeparator(space, s, a, b) && (b == |s| || Separates(space, s, b))
  }

  // What a longer line says about its first positions.
  lemma SeparatesUpto(space: char -> bool, s: string, n: nat)
    requires n <= |s|
    ensures forall i | 0 <= i < n :: Separates(space, s[..n], i) == Separates(space, s, i)
  {
    forall i | 0 <= i < n
      ensures Separates(space, s[..n], i) == Separates(space, s, i)
    {
      assert s[..n][..i] == s[..i];
    }
  }

  // Where the open token starts.
  function OpenAt(space: char -> bool, s: string): (a: nat)
    ensures a <= |s|
  {
    if s == "" then 0
    else if Separates(space, s, |s| - 1) then |s|
    else OpenAt(space, s[..|s| - 1])
  }

  lemma {:induction false} OpenIs(space: char -> bool, s: string)
    ensures var a := OpenAt(space, s);
      Runs(space, s).1 == s[a..] && Starts(space, s, a) && NoSeparator(space, s, a, |s|)
  {
    if s != "" {
      var n := |s| - 1;
      OpenIs(space, s[..n]);
      SeparatesUpto(space, s, n);
      if !Separates(space, s, n) {
        assert s[..n][OpenAt(space, s)..] + [s[n]] == s[OpenAt(space, s)..];
      }
    }
  }

  lemma {:induction false} TokenAt(space: char -> bool, s: string, t: string) returns (a: nat, b: nat)
    requires t in Runs(space, s).0
    ensures b < |s| && Whole(space, s, a, b) && s[a..b] == t
  {
    var n := |s| - 1;
    var (done, open) := Runs(space, s[..n]);
    SeparatesUpto(space, s, n);
    if t in done {
      a, b := TokenAt(space, s[..n], t);
      assert s[..n][a..b] == s[a..b];
    } else {
      OpenIs(space, s[..n]);
      a, b := OpenAt(space, s[..n]), n;
      assert s[..n][a..] == s[a..n];
    }
  }

  lemma {:induction false} StretchFound(space: char -> bool, s: string, a: nat, b: nat)
    requires b < |s| && Whole(space, s, a, b)
    ensures s[a..b] in Runs(space, s).0
  {
    var n := |s| - 1;
    var (done, open) := Runs(space, s[..n]);
    SeparatesUpto(space, s, n);
    if b < n {
      StretchFound(space, s[..n], a, b);
      assert s[..n][a..b] == s[a..b];
    } else {
      OpenIs(space, s[..n]);
      SameStart(space, s[..n], a, OpenAt(space, s[..n]));
      assert s[..n][a..] == s[a..n];
    }
  }

  // A stretch up to the end has one start.
  lemma SameStart(space: char -> bool, s: string, a: nat, c: nat)
    requires a <= |s| && c <= |s| && Starts(space, s, a) && Starts(space, s, c)
    requires NoSeparator(space, s, a, |s|) && NoSeparator(space, s, c, |s|)
    ensures a == c
  {
  }

  ghost predicate WholeText(space: char -> bool, s: string, t: string) {
    exists a: nat, b: nat :: Whole(space, s, a, b) && s[a..b] == t
  }

  lemma TokenIsWhole(space: char -> bool, entry: string, t: string)
    requires t in Split(space, entry)
    ensures WholeText(space, entry, t)
  {
    OpenIs(space, entry);
    if t in Runs(space, entry).0 {
      var a, b := TokenAt(space, entry, t);
    } else {
      var a := OpenAt(space, entry);
      assert entry[a..] == entry[a..|entry|] && Whole(space, entry, a, |entry|);
    }
  }

  lemma WholeIsToken(space: char -> bool, entry: string, a: nat, b: nat)
    requires Whole(space, entry, a, b)
    ensures entry[a..b] in Split(space, entry)
  {
    var (done, open) := Runs(space, entry);
    if b < |entry| {
      StretchFound(space, entry, a, b);
    } else {
      OpenIs(space, entry);
      SameStart(space, entry, a, OpenAt(space, entry));
      assert entry[a..b] == entry[a..] == open;
      assert Split(space, entry) == done + [open];
    }
  }

  // Splitting is exactly that: mark the quoted positions, then split at the
  // white space outside them.
  lemma TokenIff(space: char -> bool, entry: string, t: string)
    ensures t in Split(space, entry) <==> WholeText(space, entry, t)
  {
    hide Split;
    if t in Split(space, entry) {
      TokenIsWhole(space, entry, t);
    }
    if WholeText(space, entry, t) {
      var a: nat, b: nat :| Whole(space, entry, a, b) && entry[a..b] == t;
      WholeIsToken(space, entry, a, b);
    }
  }

  // ----- the key type

  function FirstKnown(tokens: seq<string>): (r: Option<string>)
    ensures r.Some? ==> r.value in tokens && Known(r.value)
    ensures r.None? ==> forall t :: t in tokens ==> !Known(t)
  {
    if tokens == [] then None else if Known(tokens[0]) then Some(tokens[0]) else FirstKnown(tokens[1..])
  }

  lemma {:induction false} FirstKnownConcat(a: seq<string>, b: seq<string>)
    ensures FirstKnown(a + b) == if FirstKnown(a).Some? then FirstKnown(a) else FirstKnown(b)
  {
    if a == [] {
      assert a + b == b;
    } else {
      assert (a + b)[1..] == a[1..] + b;
      FirstKnownConcat(a[1..], b);
    }
  }

  function KeyType(space: char -> bool, entry: string): Option<string> {
    FirstKnown(Split(space, entry))
  }

  // `key_type`
  method ReadKeyType(space: char -> bool, entry: string) returns (r: Option<string>)
    ensures r == KeyType(space, entry)
  {
    var tokens := Tokens(space, entry);
    var i := 0;
    while i < |tokens|
      invariant 0 <= i <= |tokens|
      invariant FirstKnown(tokens) == FirstKnown(tokens[i..])
    {
      if Known(tokens[i]) {
        return Some(tokens[i]);
      }
      i := i + 1;
    }
    return None;
  }

  // `has_fips_usable_key`
  predicate HasFipsUsableKey(space: char -> bool, entries: seq<string>) {
    exists e :: e in entries && KeyType(space, e).Some? && KeyType(space, e).value in FIPS_USABLE
  }

  lemma KnownHasNoQuote(t: string)
    requires Known(t)
    ensures '"' !in t && t != ""
  {
  }

  // ----- quoted text names no key type

  lemma ModeStep(s: string, i: nat)
    requires i < |s|
    ensures ModeAfter(s[..i + 1]) == Next(ModeAfter(s[..i]), s[i])
  {
    assert s[..i + 1][..i] == s[..i];
  }

  lemma PlainStart(space: char -> bool, s: string, a: nat)
    requires Starts(space, s, a)
    ensures ModeAfter(s[..a]) == Plain
  {
    if a > 0 {
      ModeStep(s, a - 1);
    }
  }

  lemma {:induction false} StaysPlain(s: string, a: nat, b: nat)
    requires a <= b <= |s| && ModeAfter(s[..a]) == Plain && '"' !in s[a..b]
    ensures forall i | a <= i <= b :: ModeAfter(s[..i]) == Plain
  {
    if a < b {
      assert s[a..b][b - 1 - a] == s[b - 1];
      assert s[a..b][..b - 1 - a] == s[a..b - 1];
      assert forall c :: c in s[a..b - 1] ==> c in s[a..b];
      StaysPlain(s, a, b - 1);
      ModeStep(s, b - 1);
    }
  }

  // Every position of the key type is outside quotes.
  ghost predicate Bare(s: string, a: nat, b: nat)
    requires b <= |s|
  {
    forall i | a <= i < b :: ModeAfter(s[..i]) == Plain && s[i] != '"'
  }

  lemma KnownIsBare(space: char -> bool, s: string, a: nat, b: nat)
    requires Whole(space, s, a, b) && Known(s[a..b])
    ensures Bare(s, a, b)
  {
    hide Known;
    KnownHasNoQuote(s[a..b]);
    PlainStart(space, s, a);
    StaysPlain(s, a, b);
    forall i | a <= i < b
      ensures s[i] != '"'
    {
      assert s[i] == s[a..b][i - a];
    }
  }

  // ----- a line is read piece by piece

  lemma {:induction false} ModeResumes(p: string, c: char, q: string)
    requires ModeAfter(p) == Plain && c != '"'
    ensures ModeAfter(p + [c] + q) == ModeAfter(q)
  {
    var s := p + [c] + q;
    if q == "" {
      assert s == p + [c] && s[..|s| - 1] == p && s[|s| - 1] == c;
    } else {
      var q' := q[..|q| - 1];
      assert s[..|s| - 1] == p + [c] + q' && s[|s| - 1] == q[|q| - 1];
      ModeResumes(p, c, q');
    }
  }

  lemma {:induction false} RunsResume(space: char -> bool, p: string, c: char, q: string)
    requires ModeAfter(p) == Plain && c != '"' && space(c)
    ensures Runs(space, p + [c] + q).0 == Split(space, p) + Runs(space, q).0
    ensures Runs(space, p + [c] + q).1 == Runs(space, q).1
  {
    var s := p + [c] + q;
    var n := |s| - 1;
    if q == "" {
      assert s[..n] == p && s[n] == c && Separates(space, s, n);
      assert Runs(space, q) == ([], "");
    } else {
      var q' := q[..|q| - 1];
      assert s[..n] == p + [c] + q';
      RunsResume(space, p, c, q');
      ModeResumes(p, c, q');
      assert Separates(space, s, n) == Separates(space, q, |q| - 1);
    }
  }

  // A separator splits a line into two that are read on their own.
  lemma SplitAt(space: char -> bool, p: string, c: char, q: string)
    requires ModeAfter(p) == Plain && c != '"' && space(c)
    ensures Split(space, p + [c] + q) == Split(space, p) + Split(space, q)
    ensures KeyType(space, p + [c] + q) ==
      if KeyType(space, p).Some? then KeyType(space, p) else KeyType(space, q)
  {
    RunsResume(space, p, c, q);
    FirstKnownConcat(Split(space, p), Split(space, q));
  }

  lemma SplitAtIndex(space: char -> bool, s: string, a: nat)
    requires 0 < a <= |s| && Separates(space, s, a - 1)
    ensures KeyType(space, s) ==
      if KeyType(space, s[..a - 1]).Some? then KeyType(space, s[..a - 1]) else KeyType(space, s[a..])
  {
    hide KeyType;
    assert s == s[..a - 1] + [s[a - 1]] + s[a..];
    SplitAt(space, s[..a - 1], s[a - 1], s[a..]);
  }

  // ----- which stretch is the key type

  ghost predicate KnownAt(space: char -> bool, s: string, a: nat, b: nat) {
    Whole(space, s, a, b) && Known(s[a..b])
  }

  // A known stretch with no known one before it.
  ghost predicate FirstKnownAt(space: char -> bool, s: string, a: nat, b: nat) {
    KnownAt(space, s, a, b) && forall a': nat, b': nat :: KnownAt(space, s, a', b') ==> a <= a'
  }

  lemma {:induction false} FirstExists(space: char -> bool, s: string, a: nat, b: nat) returns (c: nat, d: nat)
    requires KnownAt(space, s, a, b)
    ensures FirstKnownAt(space, s, c, d)
    decreases a
  {
    if a': nat, b': nat :| KnownAt(space, s, a', b') && a' < a {
      c, d := FirstExists(space, s, a', b');
    } else {
      c, d := a, b;
    }
  }

  lemma KnownInFront(space: char -> bool, s: string, n: nat) returns (a: nat, b: nat)
    requires n < |s| && Separates(space, s, n) && KeyType(space, s[..n]).Some?
    ensures b <= n && KnownAt(space, s, a, b)
  {
    hide Known, Split;
    var p := s[..n];
    SeparatesUpto(space, s, n);
    var t := KeyType(space, p).value;
    TokenIff(space, p, t);
    a, b :| Whole(space, p, a, b) && p[a..b] == t;
    assert s[a..b] == t;
  }

  lemma NoneBefore(space: char -> bool, s: string, a: nat, b: nat)
    requires FirstKnownAt(space, s, a, b) && a > 0
    ensures KeyType(space, s[..a - 1]).None?
  {
    hide Known, Split;
    if KeyType(space, s[..a - 1]).Some? {
      var a', b' := KnownInFront(space, s, a - 1);
    }
  }

  lemma {:induction false} BareRuns(space: char -> bool, s: string)
    requires NoSeparator(space, s, 0, |s|)
    ensures Runs(space, s) == ([], s)
  {
    if s != "" {
      var n := |s| - 1;
      SeparatesUpto(space, s, n);
      BareRuns(space, s[..n]);
      assert s[..n] + [s[n]] == s;
    }
  }

  lemma StretchShifts(space: char -> bool, s: string, a: nat, b: nat)
    requires Whole(space, s, a, b)
    ensures ModeAfter(s[..a]) == Plain
    ensures NoSeparator(space, s[a..b], 0, b - a)
    ensures b < |s| ==> ModeAfter(s[a..b]) == Plain && s[b] != '"' && space(s[b])
  {
    PlainStart(space, s, a);
    forall i | a <= i <= b
      ensures ModeAfter(s[a..i]) == ModeAfter(s[..i])
    {
      ShiftedMode(space, s, a, i);
    }
    forall i | 0 <= i < b - a
      ensures !Separates(space, s[a..b], i)
    {
      assert s[a..b][..i] == s[a..a + i];
      ShiftedMode(space, s, a, a + i);
      assert !Separates(space, s, a + i);
    }
  }

  // Reading may start afresh where a token starts.
  lemma ShiftedMode(space: char -> bool, s: string, a: nat, i: nat)
    requires a <= i <= |s| && Starts(space, s, a)
    ensures ModeAfter(s[a..i]) == ModeAfter(s[..i])
  {
    if a > 0 {
      assert s[..i] == s[..a - 1] + [s[a - 1]] + s[a..i];
      ModeResumes(s[..a - 1], s[a - 1], s[a..i]);
    } else {
      assert s[a..i] == s[..i];
    }
  }

  // A line that starts with a known stretch has that key type.
  lemma StartsKnown(space: char -> bool, s: string, b: nat)
    requires Whole(space, s, 0, b) && Known(s[..b])
    ensures KeyType(space, s) == Some(s[..b])
  {
    hide Known;
    StretchShifts(space, s, 0, b);
    var t := s[..b];
    assert s[0..b] == t;
    BareRuns(space, t);
    assert Split(space, t) == [t];
    if b == |s| {
      assert t == s;
    } else {
      assert s == t + [s[b]] + s[b + 1..];
      SplitAt(space, t, s[b], s[b + 1..]);
    }
  }

  lemma FirstKnownRead(space: char -> bool, s: string, a: nat, b: nat)
    requires FirstKnownAt(space, s, a, b)
    ensures KeyType(space, s) == Some(s[a..b])
  {
    hide Known, Split;
    if a == 0 {
      assert s[0..b] == s[..b];
      StartsKnown(space, s, b);
    } else {
      NoneBefore(space, s, a, b);
      hide KeyType;
      SplitAtIndex(space, s, a);
      var rest := s[a..];
      StretchShifts(space, s, a, b);
      forall i | 0 <= i < |rest|
        ensures Separates(space, rest, i) == Separates(space, s, a + i)
      {
        ShiftedMode(space, s, a, a + i);
        assert rest[..i] == s[a..a + i];
      }
      assert rest[..b - a] == s[a..b];
      StartsKnown(space, rest, b - a);
    }
  }

  // The key type is the known stretch that has no known one before it; no
  // position of it lies in a quoted value.
  lemma KeyTypeIff(space: char -> bool, entry: string, t: string)
    ensures KeyType(space, entry) == Some(t) <==>
      exists a: nat, b: nat :: FirstKnownAt(space, entry, a, b) && entry[a..b] == t
    ensures KeyType(space, entry) == Some(t) ==>
      exists a: nat, b: nat :: FirstKnownAt(space, entry, a, b) && entry[a..b] == t && Bare(entry, a, b)
  {
    hide Known, Split;
    if KeyType(space, entry) == Some(t) {
      TokenIff(space, entry, t);
      var a: nat, b: nat :| Whole(space, entry, a, b) && entry[a..b] == t;
      var c, d := FirstExists(space, entry, a, b);
      FirstIsKnown(space, entry, c, d);
      FirstKnownRead(space, entry, c, d);
      KnownIsBare(space, entry, c, d);
    } else if a: nat, b: nat :| FirstKnownAt(space, entry, a, b) && entry[a..b] == t {
      FirstKnownRead(space, entry, a, b);
    }
  }

  lemma FirstIsKnown(space: char -> bool, s: string, a: nat, b: nat)
    requires FirstKnownAt(space, s, a, b)
    ensures KnownAt(space, s, a, b)
  {
  }

  // ----- a quote that never closes

  ghost predicate NeverCloses(p: string, u: string) {
    forall k | 0 <= k <= |u| :: ModeAfter(p + u[..k]) != Plain
  }

  lemma {:induction false} OpenHoldsQuote(space: char -> bool, s: string)
    requires ModeAfter(s) != Plain
    ensures '"' in Runs(space, s).1
  {
    var n := |s| - 1;
    if ModeAfter(s[..n]) != Plain {
      OpenHoldsQuote(space, s[..n]);
    }
  }

  lemma {:induction false} UnclosedRuns(space: char -> bool, p: string, u: string)
    requires NeverCloses(p, u)
    ensures Runs(space, p + u) == (Runs(space, p).0, Runs(space, p).1 + u)
  {
    if u == "" {
      assert p + u == p && Runs(space, p).1 + u == Runs(space, p).1;
    } else {
      var v := u[..|u| - 1];
      forall k | 0 <= k <= |v|
        ensures ModeAfter(p + v[..k]) != Plain
      {
        assert v[..k] == u[..k];
      }
      UnclosedRuns(space, p, v);
      var s, n := p + u, |p + v|;
      assert v == u[..|v|] && ModeAfter(p + u[..|v|]) != Plain;
      assert s[..n] == p + v && s[n] == u[|v|];
      assert !Separates(space, s, n);
      assert Runs(space, p).1 + v + [u[|v|]] == Runs(space, p).1 + u;
      assert v + [u[|v|]] == u;
    }
  }

  // After a quote that never closes, no later text changes the key type.
  lemma UnclosedQuoteNamesNothing(space: char -> bool, p: string, u: string)
    requires NeverCloses(p, u)
    ensures KeyType(space, p + u) == KeyType(space, p) == FirstKnown(Runs(space, p).0)
  {
    assert u[..0] == "" && p + "" == p;
    UnclosedRuns(space, p, u);
    OpenHoldsQuote(space, p);
    var (done, open) := Runs(space, p);
    QuotedUnknown(open);
    QuotedUnknown(open + u);
    FirstKnownConcat(done, [open]);
    FirstKnownConcat(done, [open + u]);
  }

  lemma QuotedUnknown(t: string)
    requires '"' in t
    ensures !Known(t) && FirstKnown([t]) == None
  {
    if Known(t) {
      KnownHasNoQuote(t);
    }
  }

  // A key list lets someone in exactly when some line's first known stretch,
  // outside quotes, is a usable algorithm.
  lemma UsableIff(space: char -> bool, entries: seq<string>)
    ensures HasFipsUsableKey(space, entries) <==>
      exists e, a: nat, b: nat :: e in entries && FirstKnownAt(space, e, a, b) && Bare(e, a, b) && e[a..b] in FIPS_USABLE
  {
    hide Known, Split;
    if HasFipsUsableKey(space, entries) {
      var e :| e in entries && KeyType(space, e).Some? && KeyType(space, e).value in FIPS_USABLE;
      KeyTypeIff(space, e, KeyType(space, e).value);
    }
    forall e, a: nat, b: nat | e in entries && FirstKnownAt(space, e, a, b)
      ensures KeyType(space, e) == Some(e[a..b])
    {
      FirstKnownRead(space, e, a, b);
    }
  }
}
