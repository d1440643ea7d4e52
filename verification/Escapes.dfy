/** The program's three escape functions, each a chain of `str.replace` calls,
    and the decoders of the languages they write into. */
module Escapes {
  import opened Prelude

  // `s.replace(what, new)` for a one-character `what`.
  function Replace(s: string, what: char, with: string): string {
    if s == "" then ""
    else (if s[0] == what then with else [s[0]]) + Replace(s[1..], what, with)
  }

  function MapChars(s: string, f: char -> string): string {
    if s == "" then "" else f(s[0]) + MapChars(s[1..], f)
  }

  // ----- the chains, as the program writes them

  // tailoring.xml character data
  function XmlEscape(s: string): string {
    Replace(Replace(Replace(Replace(s, '&', "&amp;"), '<', "&lt;"), '>', "&gt;"), '"', "&quot;")
  }

  // kickstart's --passphrase= flag
  function PassphraseQuoted(s: string): string {
    "\"" + Replace(Replace(s, '\\', "\\\\"), '"', "\\\"") + "\""
  }

  function StripNewlines(s: string): string {
    if s != "" && s[|s| - 1] == '\n' then StripNewlines(s[..|s| - 1]) else s
  }

  // the GDM banner, a dconf keyfile string
  function BannerEscape(s: string): string {
    Replace(Replace(Replace(StripNewlines(s), '\\', "\\\\"), '\'', "\\'"), '\n', "\\n")
  }

  // ----- the one-pass forms

  function XmlEntity(c: char): string {
    match c
    case '&' => "&amp;"
    case '<' => "&lt;"
    case '>' => "&gt;"
    case '"' => "&quot;"
    case _ => [c]
  }

  function PassphraseChar(c: char): string {
    if c == '\\' then "\\\\" else if c == '"' then "\\\"" else [c]
  }

  function BannerChar(c: char): string {
    if c == '\\' then "\\\\" else if c == '\'' then "\\'" else if c == '\n' then "\\n" else [c]
  }

  lemma {:induction false} ReplaceConcat(a: string, b: string, what: char, with: string)
    ensures Replace(a + b, what, with) == Replace(a, what, with) + Replace(b, what, with)
  {
    if a == "" {
      assert a + b == b;
    } else {
      assert (a + b)[1..] == a[1..] + b;
      ReplaceConcat(a[1..], b, what, with);
    }
  }

  lemma {:induction false} ReplaceAsMap(s: string, what: char, with: string)
    ensures Replace(s, what, with) == MapChars(s, c => if c == what then with else [c])
  {
    if s != "" {
      ReplaceAsMap(s[1..], what, with);
    }
  }

  // One more replacement after a per-character map is again such a map.
  lemma {:induction false} ReplaceAfterMap(s: string, f: char -> string, what: char, with: string, g: char -> string)
    requires forall c :: g(c) == Replace(f(c), what, with)
    ensures Replace(MapChars(s, f), what, with) == MapChars(s, g)
  {
    if s != "" {
      ReplaceConcat(f(s[0]), MapChars(s[1..], f), what, with);
      ReplaceAfterMap(s[1..], f, what, with, g);
    }
  }

  // Replacing in what the earlier replacements made of one character.
  lemma ReplaceInEntity(c: char, x: string, what: char, with: string)
    requires x == [c] || (what !in x && c != what)
    ensures Replace(x, what, with) == if c == what then with else x
  {
    if x == [c] {
      OneToReplace(c, what, with);
    } else {
      NoneToReplace(x, what, with);
    }
  }

  lemma XmlEntityOfOne(c: char)
    ensures var first := if c == '&' then "&amp;" else [c];
            XmlEntity(c) == Replace(Replace(Replace(first, '<', "&lt;"), '>', "&gt;"), '"', "&quot;")
  {
    var x0 := if c == '&' then "&amp;" else [c];
    ReplaceInEntity(c, x0, '<', "&lt;");
    var x1 := if c == '<' then "&lt;" else x0;
    ReplaceInEntity(c, x1, '>', "&gt;");
    var x2 := if c == '>' then "&gt;" else x1;
    ReplaceInEntity(c, x2, '"', "&quot;");
  }

  // The order of the replacements keeps later ones from touching what earlier
  // ones wrote, so the chain equals one pass.
  lemma XmlEscapeIsMap(s: string)
    ensures XmlEscape(s) == MapChars(s, XmlEntity)
  {
    var f0 := (c: char) => if c == '&' then "&amp;" else [c];
    var f1 := (c: char) => Replace(f0(c), '<', "&lt;");
    var f2 := (c: char) => Replace(f1(c), '>', "&gt;");
    ReplaceAsMap(s, '&', "&amp;");
    MapSame(s, c => if c == '&' then "&amp;" else [c], f0);
    ReplaceAfterMap(s, f0, '<', "&lt;", f1);
    ReplaceAfterMap(s, f1, '>', "&gt;", f2);
    forall c
      ensures XmlEntity(c) == Replace(f2(c), '"', "&quot;")
    {
      XmlEntityOfOne(c);
    }
    ReplaceAfterMap(s, f2, '"', "&quot;", XmlEntity);
  }

  lemma {:induction false} MapSame(s: string, f: char -> string, g: char -> string)
    requires forall c :: f(c) == g(c)
    ensures MapChars(s, f) == MapChars(s, g)
  {
    if s != "" {
      MapSame(s[1..], f, g);
    }
  }

  lemma {:induction false} NoneToReplace(s: string, what: char, with: string)
    requires what !in s
    ensures Replace(s, what, with) == s
  {
    if s != "" {
      NoneToReplace(s[1..], what, with);
    }
  }

  lemma OneToReplace(c: char, what: char, with: string)
    ensures Replace([c], what, with) == if c == what then with else [c]
  {
    assert [c][1..] == "";
    assert Replace("", what, with) == "";
    assert with + "" == with;
  }

  lemma PassphraseIsMap(s: string)
    ensures PassphraseQuoted(s) == "\"" + MapChars(s, PassphraseChar) + "\""
  {
    var f0 := (c: char) => if c == '\\' then "\\\\" else [c];
    ReplaceAsMap(s, '\\', "\\\\");
    MapSame(s, c => if c == '\\' then "\\\\" else [c], f0);
    forall c
      ensures PassphraseChar(c) == Replace(f0(c), '"', "\\\"")
    {
      NoneToReplace("\\\\", '"', "\\\"");
      OneToReplace(c, '"', "\\\"");
    }
    ReplaceAfterMap(s, f0, '"', "\\\"", PassphraseChar);
  }

  lemma BannerIsMap(s: string)
    ensures BannerEscape(s) == MapChars(StripNewlines(s), BannerChar)
  {
    var t := StripNewlines(s);
    var f0 := (c: char) => if c == '\\' then "\\\\" else [c];
    var f1 := (c: char) => Replace(f0(c), '\'', "\\'");
    ReplaceAsMap(t, '\\', "\\\\");
    MapSame(t, c => if c == '\\' then "\\\\" else [c], f0);
    ReplaceAfterMap(t, f0, '\'', "\\'", f1);
    forall c
      ensures BannerChar(c) == Replace(f1(c), '\n', "\\n")
    {
      NoneToReplace("\\\\", '\'', "\\'");
      NoneToReplace("\\\\", '\n', "\\n");
      NoneToReplace("\\'", '\n', "\\n");
      OneToReplace(c, '\'', "\\'");
      OneToReplace(c, '\n', "\\n");
    }
    ReplaceAfterMap(t, f1, '\n', "\\n", BannerChar);
  }

  // ----- decoders

  // What kickstart reads back: a double-quoted word ends at the first
  // unescaped quote, and a backslash takes the next character literally.
  function ReadQuoted(s: string): Option<(string, string)> {
    if s == "" then None
    else if s[0] == '"' then Some(("", s[1..]))
    else if s[0] == '\\' then
      if |s| == 1 then None else Prepend(s[1], ReadQuoted(s[2..]))
    else Prepend(s[0], ReadQuoted(s[1..]))
  }

  function Prepend(c: char, r: Option<(string, string)>): Option<(string, string)> {
    match r
    case None => None
    case Some(p) => Some(([c] + p.0, p.1))
  }

  lemma {:induction false} ReadQuotedMap(s: string, rest: string)
    ensures ReadQuoted(MapChars(s, PassphraseChar) + "\"" + rest) == Some((s, rest))
  {
    if s != "" {
      var tail := MapChars(s[1..], PassphraseChar) + "\"" + rest;
      var whole := MapChars(s, PassphraseChar) + "\"" + rest;
      assert whole == PassphraseChar(s[0]) + tail;
      ReadQuotedMap(s[1..], rest);
      assert s == [s[0]] + s[1..];
      assert whole[|PassphraseChar(s[0])|..] == tail;
    } else {
      assert MapChars(s, PassphraseChar) + "\"" + rest == "\"" + rest;
    }
  }

  // Whatever follows the flag, kickstart reads back the whole passphrase and
  // nothing more.
  lemma PassphraseReadsBack(s: string, rest: string)
    ensures PassphraseQuoted(s)[0] == '"'
    ensures ReadQuoted((PassphraseQuoted(s) + rest)[1..]) == Some((s, rest))
  {
    PassphraseIsMap(s);
    ReadQuotedMap(s, rest);
    assert (PassphraseQuoted(s) + rest)[1..] == MapChars(s, PassphraseChar) + "\"" + rest;
  }

  // A single-quoted keyfile string: \n is a newline, any other escaped
  // character stands for itself, and an unescaped quote ends the string.
  function ReadBanner(s: string): Option<string> {
    if s == "" then None
    else if s[0] == '\'' then if |s| == 1 then Some("") else None
    else
      var escaped := s[0] == '\\';
      if escaped && |s| == 1 then None
      else
        var c := if !escaped then s[0] else if s[1] == 'n' then '\n' else s[1];
        match ReadBanner(if escaped then s[2..] else s[1..])
        case None => None
        case Some(t) => Some([c] + t)
  }

  lemma {:induction false} ReadBannerMap(s: string)
    ensures ReadBanner(MapChars(s, BannerChar) + "'") == Some(s)
    ensures '\n' !in MapChars(s, BannerChar)
  {
    if s != "" {
      var tail := MapChars(s[1..], BannerChar) + "'";
      var whole := MapChars(s, BannerChar) + "'";
      assert whole == BannerChar(s[0]) + tail;
      ReadBannerMap(s[1..]);
      assert s == [s[0]] + s[1..];
      assert whole[|BannerChar(s[0])|..] == tail;
    } else {
      assert MapChars(s, BannerChar) + "'" == "'";
    }
  }

  // The banner value stays on one line and reads back as the text without its
  // trailing newlines.
  lemma BannerReadsBack(s: string)
    ensures '\n' !in BannerEscape(s)
    ensures ReadBanner(BannerEscape(s) + "'") == Some(StripNewlines(s))
  {
    BannerIsMap(s);
    ReadBannerMap(StripNewlines(s));
  }
}
