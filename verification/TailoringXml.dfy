/** tailoring.xml: the printer `build_tailoring_xml`, and the reader
    `parse_tailoring_xml` over an XML parser for the dialect it prints. */
module TailoringXml {
  import opened Prelude
  import opened Escapes

  datatype Action = Disable | Select | SetValue

  datatype TailoringOp = TailoringOp(ruleId: string, action: Action, value: Option<string>)

  // `op.value or ""`
  function ValueOf(op: TailoringOp): string {
    if op.value == None then "" else op.value.value
  }

  type Attr = (string, string)

  const TAILORED_PROFILE_ID := "xccdf_ks-gen_profile_tailored"
  const BASE_PROFILE_PREFIX := "xccdf_org.ssgproject.content_profile_"

  function BaseProfileId(profile: string): string {
    BASE_PROFILE_PREFIX + profile
  }

  // ----- printer

  function AttrsText(attrs: seq<Attr>): string {
    if attrs == [] then ""
    else " " + attrs[0].0 + "=\"" + attrs[0].1 + "\"" + AttrsText(attrs[1..])
  }

  function OpenTag(tag: string, attrs: seq<Attr>): string {
    "<" + tag + AttrsText(attrs) + ">"
  }

  function EmptyTag(tag: string, attrs: seq<Attr>): string {
    "<" + tag + AttrsText(attrs) + "/>"
  }

  function CloseTag(tag: string): string {
    "</" + tag + ">"
  }

  function OpTag(op: TailoringOp): string {
    match op.action
    case Disable => EmptyTag("xccdf:select", [("idref", op.ruleId), ("selected", "false")])
    case Select => EmptyTag("xccdf:select", [("idref", op.ruleId), ("selected", "true")])
    case SetValue =>
      OpenTag("xccdf:set-value", [("idref", op.ruleId)])
      + (if op.value == None then "" else XmlEscape(op.value.value))
      + CloseTag("xccdf:set-value")
  }

  // Each operation on its line, an id and a value where they belong.
  lemma OpTagSays(op: TailoringOp)
    ensures op.action == Disable ==> OpTag(op) == "<xccdf:select idref=\"" + op.ruleId + "\" selected=\"false\"/>"
    ensures op.action == Select ==> OpTag(op) == "<xccdf:select idref=\"" + op.ruleId + "\" selected=\"true\"/>"
    ensures op.action == SetValue ==>
      OpTag(op) == "<xccdf:set-value idref=\"" + op.ruleId + "\">" + XmlEscape(ValueOf(op)) + "</xccdf:set-value>"
  {
    hide XmlEscape, AttrsText;
    var id := op.ruleId;
    match op.action
    case SetValue =>
      OneAttrText("idref", id);
      SetValueText(id, XmlEscape(ValueOf(op)));
      NoValueEscaped();
    case Select =>
      TwoAttrsText("idref", id, "selected", "true");
      SelectText(id, "true");
      assert "\" selected=\"" + "true" + "\"/>" == "\" selected=\"true\"/>";
    case Disable =>
      TwoAttrsText("idref", id, "selected", "false");
      SelectText(id, "false");
      assert "\" selected=\"" + "false" + "\"/>" == "\" selected=\"false\"/>";
  }

  lemma OneAttrText(name: string, value: string)
    ensures AttrsText([(name, value)]) == " " + name + "=\"" + value + "\"" + ""
  {
    assert [(name, value)][1..] == [] && AttrsText([]) == "";
  }

  lemma TwoAttrsText(name: string, value: string, name': string, value': string)
    ensures AttrsText([(name, value), (name', value')])
         == " " + name + "=\"" + value + "\"" + (" " + name' + "=\"" + value' + "\"" + "")
  {
    assert [(name, value), (name', value')][1..] == [(name', value')];
    OneAttrText(name', value');
  }

  lemma NoValueEscaped()
    ensures XmlEscape("") == ""
  {
    XmlEscapeIsMap("");
  }

  lemma SelectLiterals()
    ensures "<xccdf:select idref=\"" == "<" + "xccdf:select" + (" " + "idref" + "=\"")
    ensures "\"/>" == "\"" + "/>"
  {
    assert " " + "idref" == " idref" && " idref" + "=\"" == " idref=\"";
    assert "<" + "xccdf:select" == "<xccdf:select";
  }

  lemma SelectedLiteral()
    ensures "\" selected=\"" == "\"" + (" " + "selected" + "=\"")
  {
    assert " " + "selected" == " selected" && " selected" + "=\"" == " selected=\"";
  }

  lemma SelectText(id: string, selected: string)
    ensures "<" + "xccdf:select"
            + (" " + "idref" + "=\"" + id + "\"" + (" " + "selected" + "=\"" + selected + "\"" + "")) + "/>"
         == "<xccdf:select idref=\"" + id + ("\" selected=\"" + selected + "\"/>")
  {
    SelectLiterals();
    SelectedLiteral();
    SelectGroups("<" + "xccdf:select", " " + "idref" + "=\"", id, "\"", " " + "selected" + "=\"", selected, "/>");
  }

  lemma SelectGroups(tag: string, idref: string, id: string, quote: string, name: string, selected: string, end: string)
    ensures tag + (idref + id + quote + (name + selected + quote + "")) + end
         == (tag + idref) + id + ((quote + name) + selected + (quote + end))
  {
    assert name + selected + quote + "" == name + selected + quote;
  }

  lemma SetValueText(id: string, escaped: string)
    ensures "<" + "xccdf:set-value" + (" " + "idref" + "=\"" + id + "\"" + "") + ">" + escaped + ("</" + "xccdf:set-value" + ">")
         == "<xccdf:set-value idref=\"" + id + "\">" + escaped + "</xccdf:set-value>"
  {
    assert "<xccdf:set-value idref=\"" == "<" + "xccdf:set-value" + " " + "idref" + "=\"";
    assert "\">" == "\"" + ">" && "</xccdf:set-value>" == "</" + "xccdf:set-value" + ">";
    SetValueGroups("<" + "xccdf:set-value", " " + "idref" + "=\"", id, "\"", ">", escaped, "</xccdf:set-value>");
  }

  lemma SetValueGroups(tag: string, idref: string, id: string, quote: string, end: string, escaped: string, close: string)
    ensures tag + (idref + id + quote + "") + end + escaped + close == (tag + idref) + id + (quote + end) + escaped + close
  {
    assert idref + id + quote + "" == idref + id + quote;
  }

  const DECLARATION := "<?xml version='1.0' encoding='UTF-8'?>\n"

  function RootAttrs(): seq<Attr> {
    [("xmlns:xccdf", "http://checklists.nist.gov/xccdf/1.2"), ("id", "xccdf_ks-gen_tailoring_default")]
  }

  const LANG: seq<Attr> := [("xml:lang", "en-US")]

  function TitleText(profileId: string): string {
    OpenTag("xccdf:title", LANG) + ("ks-gen tailored " + profileId) + CloseTag("xccdf:title")
  }

  function DescriptionText(): string {
    OpenTag("xccdf:description", LANG) + "Tailoring generated by ks-gen." + CloseTag("xccdf:description")
  }

  function VersionText(timestamp: string): string {
    OpenTag("xccdf:version", [("time", timestamp)]) + "1" + CloseTag("xccdf:version")
  }

  function BenchmarkText(scapContent: string): string {
    EmptyTag("xccdf:benchmark", BenchmarkAttrs(scapContent))
  }

  function BenchmarkAttrs(scapContent: string): seq<Attr> {
    [("href", "/usr/share/xml/scap/ssg/content/" + scapContent)]
  }

  function ProfileAttrs(profileId: string): seq<Attr> {
    [("id", TAILORED_PROFILE_ID), ("extends", profileId)]
  }

  // Everything before the operations, from the document's root tag on.
  function Header(profileId: string, scapContent: string, timestamp: string): string {
    OpenTag("xccdf:Tailoring", RootAttrs())
    + "\n  " + BenchmarkText(scapContent)
    + "\n  " + VersionText(timestamp)
    + "\n  " + ProfileHeader(profileId)
  }

  function ProfileHeader(profileId: string): string {
    OpenTag("xccdf:Profile", ProfileAttrs(profileId))
    + "\n    " + TitleText(profileId)
    + "\n    " + DescriptionText()
    + "\n"
  }

  function Footer(): string {
    "  " + CloseTag("xccdf:Profile") + "\n" + CloseTag("xccdf:Tailoring") + "\n"
  }

  function Lines(ops: seq<TailoringOp>): seq<string> {
    Map(ops, (op: TailoringOp) => "    " + OpTag(op))
  }

  function BodyText(lines: seq<string>): string {
    if lines == [] then "" else Join(lines, "\n") + "\n"
  }

  function TailoringText(ops: seq<TailoringOp>, profileId: string, scapContent: string, timestamp: string): string {
    DECLARATION + Header(profileId, scapContent, timestamp) + BodyText(Lines(ops)) + Footer()
  }

  function Quoted(name: string, value: string): string {
    " " + name + "=\"" + value + "\""
  }

  lemma OneQuoted(name: string, value: string)
    ensures AttrsText([(name, value)]) == Quoted(name, value)
  {
    assert [(name, value)][1..] == [];
    assert Quoted(name, value) + "" == Quoted(name, value);
  }

  lemma TwoQuoted(a: string, x: string, b: string, y: string)
    ensures AttrsText([(a, x), (b, y)]) == Quoted(a, x) + Quoted(b, y)
  {
    assert [(a, x), (b, y)][1..] == [(b, y)];
    OneQuoted(b, y);
  }

  // The whole file: what it declares, the content it tailors, when, the profile
  // with its two texts, and each operation on a line of its own.
  lemma FileSays(ops: seq<TailoringOp>, profileId: string, scapContent: string, timestamp: string)
    ensures TailoringText(ops, profileId, scapContent, timestamp)
         == "<?xml version='1.0' encoding='UTF-8'?>\n"
            + ("<" + "xccdf:Tailoring"
               + (Quoted("xmlns:xccdf", "http://checklists.nist.gov/xccdf/1.2") + Quoted("id", "xccdf_ks-gen_tailoring_default")) + ">"
               + "\n  " + ("<" + "xccdf:benchmark" + Quoted("href", "/usr/share/xml/scap/ssg/content/" + scapContent) + "/>")
               + "\n  " + ("<" + "xccdf:version" + Quoted("time", timestamp) + ">" + "1" + ("</" + "xccdf:version" + ">"))
               + "\n  "
               + ("<" + "xccdf:Profile"
                  + (Quoted("id", "xccdf_ks-gen_profile_tailored") + Quoted("extends", profileId)) + ">"
                  + "\n    "
                  + ("<" + "xccdf:title" + Quoted("xml:lang", "en-US") + ">" + ("ks-gen tailored " + profileId)
                     + ("</" + "xccdf:title" + ">"))
                  + "\n    "
                  + ("<" + "xccdf:description" + Quoted("xml:lang", "en-US") + ">" + "Tailoring generated by ks-gen."
                     + ("</" + "xccdf:description" + ">"))
                  + "\n"))
            + (if ops == [] then "" else Join(Map(ops, (op: TailoringOp) => "    " + OpTag(op)), "\n") + "\n")
            + ("  " + ("</" + "xccdf:Profile" + ">") + "\n" + ("</" + "xccdf:Tailoring" + ">") + "\n")
  {
    hide AttrsText, Quoted, OpTag, Join;
    TwoQuoted("xmlns:xccdf", "http://checklists.nist.gov/xccdf/1.2", "id", "xccdf_ks-gen_tailoring_default");
    OneQuoted("href", "/usr/share/xml/scap/ssg/content/" + scapContent);
    OneQuoted("time", timestamp);
    TwoQuoted("id", "xccdf_ks-gen_profile_tailored", "extends", profileId);
    OneQuoted("xml:lang", "en-US");
  }

  method BuildTailoringXml(ops: seq<TailoringOp>, profileId: string, scapContent: string, timestamp: string)
    returns (xml: string)
    ensures xml == TailoringText(ops, profileId, scapContent, timestamp)
  {
    var body: seq<string> := [];
    var i := 0;
    while i < |ops|
      invariant 0 <= i <= |ops|
      invariant body == Lines(ops[..i])
    {
      assert ops[..i + 1] == ops[..i] + [ops[i]];
      body := body + ["    " + OpTag(ops[i])];
      i := i + 1;
    }
    assert ops[..i] == ops;
    xml := DECLARATION + Header(profileId, scapContent, timestamp) + BodyText(body) + Footer();
  }

  // ----- XML parser for the dialect: declaration, elements, attributes,
  // character data, character references and the five predefined entities,
  // line-end normalization

  datatype Elem = Elem(tag: string, attrs: seq<Attr>, text: string, children: seq<Elem>)

  predicate XmlChar(c: char) {
    XmlCode(c as int)
  }

  predicate XmlCode(n: int) {
    n == 0x9 || n == 0xA || n == 0xD || 0x20 <= n <= 0xD7FF || 0xE000 <= n <= 0xFFFD || 0x10000 <= n <= 0x10FFFF
  }

  // XML 1.0, section 2.2: no control characters but tab, line feed and carriage
  // return, no surrogates and neither of the last two of the basic plane.
  lemma XmlCharIff(c: char)
    ensures XmlChar(c) <==>
      !((c as int) < 32 && c != '\t' && c != '\n' && c != '\r') && (c as int) != 65534 && (c as int) != 65535
  {
  }

  predicate XmlSpace(c: char) {
    c == ' ' || c == '\t' || c == '\n' || c == '\r'
  }

  predicate NameChar(c: char) {
    || 'a' <= c <= 'z' || 'A' <= c <= 'Z' || '0' <= c <= '9'
    || c == '-' || c == '.' || c == '_' || c == ':' || c as int >= 128
  }

  function NameLen(s: string): (n: nat)
    ensures n <= |s|
    ensures forall k :: 0 <= k < n ==> NameChar(s[k])
    ensures n < |s| ==> !NameChar(s[n])
  {
    if s == "" || !NameChar(s[0]) then 0 else 1 + NameLen(s[1..])
  }

  function SkipSpace(s: string): (r: string)
    ensures |r| <= |s|
  {
    if s != "" && XmlSpace(s[0]) then SkipSpace(s[1..]) else s
  }

  // The value of a hexadecimal digit; 16 for any other character.
  function DigitValue(c: char): nat {
    if '0' <= c <= '9' then c as int - '0' as int
    else if 'a' <= c <= 'f' then c as int - 'a' as int + 10
    else if 'A' <= c <= 'F' then c as int - 'A' as int + 10
    else 16
  }

  function NumberIn(digits: string, base: nat): Option<nat> {
    if digits == "" then Some(0)
    else
      var init, last := NumberIn(digits[..|digits| - 1], base), DigitValue(digits[|digits| - 1]);
      if init == None || last >= base then None else Some(init.value * base + last)
  }

  // The character with a code point that XML allows.
  function CharOf(digits: string, base: nat): Option<char> {
    var n := NumberIn(digits, base);
    if digits == "" || n == None || !XmlCode(n.value) then None else Some(n.value as char)
  }

  // The character that the reference between `&` and `;` stands for.
  function Referred(name: string): Option<char> {
    if name == "amp" then Some('&')
    else if name == "lt" then Some('<')
    else if name == "gt" then Some('>')
    else if name == "quot" then Some('"')
    else if name == "apos" then Some('\'')
    else if "#x" <= name then CharOf(name[2..], 16)
    else if "#" <= name then CharOf(name[1..], 10)
    else None
  }

  predicate RefChar(c: char) {
    'a' <= c <= 'z' || 'A' <= c <= 'Z' || '0' <= c <= '9' || c == '#'
  }

  function RefLen(s: string): (n: nat)
    ensures n <= |s|
    ensures forall k :: 0 <= k < n ==> RefChar(s[k])
  {
    if s == "" || !RefChar(s[0]) then 0 else 1 + RefLen(s[1..])
  }

  // The character the reference at the start of s stands for, and what follows it.
  function Entity(s: string): (r: Option<(char, string)>)
    ensures r.Some? ==> |r.value.1| < |s|
  {
    if !("&" <= s) then None
    else
      var n := 1 + RefLen(s[1..]);
      if n == |s| || s[n] != ';' then None
      else match Referred(s[1..n]) case None => None case Some(c) => Some((c, s[n + 1..]))
  }

  // An attribute value up to its closing quote; white space becomes a space.
  function ParseAttrValue(s: string, quote: char): (r: Option<(string, string)>)
    ensures r.Some? ==> |r.value.1| < |s|
  {
    if s == "" || s[0] == '<' || !XmlChar(s[0]) then None
    else if s[0] == quote then Some(("", s[1..]))
    else if s[0] == '&' then
      match Entity(s)
      case None => None
      case Some(e) => Prepend(e.0, ParseAttrValue(e.1, quote))
    else if "\r\n" <= s then ParseAttrValue(s[1..], quote)
    else Prepend(if XmlSpace(s[0]) then ' ' else s[0], ParseAttrValue(s[1..], quote))
  }

  function ParseAttrs(s: string): (r: Option<(seq<Attr>, string)>)
    ensures r.Some? ==> |r.value.1| <= |s|
    decreases |s|
  {
    var t := SkipSpace(s);
    if t == "" then None
    else if t[0] == '>' || t[0] == '/' then Some(([], t))
    else
      var n := NameLen(t);
      var u := SkipSpace(t[n..]);
      if |t| == |s| || n == 0 || !("=" <= u) then None
      else
        var v := SkipSpace(u[1..]);
        if v == "" || (v[0] != '"' && v[0] != '\'') then None
        else
          match ParseAttrValue(v[1..], v[0])
          case None => None
          case Some(value) =>
            match ParseAttrs(value.1)
            case None => None
            case Some(more) =>
              if exists a :: a in more.0 && a.0 == t[..n] then None
              else Some(([(t[..n], value.0)] + more.0, more.1))
  }

  // Character data up to the next tag.
  function ParseText(s: string): (r: Option<(string, string)>)
    ensures r.Some? ==> |r.value.1| <= |s| && "<" <= r.value.1
  {
    if s == "" || !XmlChar(s[0]) || "]]>" <= s then None
    else if s[0] == '<' then Some(("", s))
    else if s[0] == '&' then
      match Entity(s)
      case None => None
      case Some(e) => Prepend(e.0, ParseText(e.1))
    else if s[0] == '\r' then
      if "\r\n" <= s then ParseText(s[1..]) else Prepend('\n', ParseText(s[1..]))
    else Prepend(s[0], ParseText(s[1..]))
  }

  function ParseElem(s: string): (r: Option<(Elem, string)>)
    ensures r.Some? ==> |r.value.1| < |s|
    decreases |s|, 0
  {
    if !("<" <= s) || NameLen(s[1..]) == 0 then None
    else
      var n := 1 + NameLen(s[1..]);
      match ParseAttrs(s[n..])
      case None => None
      case Some(a) =>
        if "/>" <= a.1 then Some((Elem(s[1..n], a.0, "", []), a.1[2..]))
        else if ">" <= a.1 then
          match ParseText(a.1[1..])
          case None => None
          case Some(t) =>
            match ParseChildren(s[1..n], t.1)
            case None => None
            case Some(kids) => Some((Elem(s[1..n], a.0, t.0, kids.0), kids.1))
        else None
  }

  // The child elements and the closing tag of an element named `tag`.
  function ParseChildren(tag: string, s: string): (r: Option<(seq<Elem>, string)>)
    ensures r.Some? ==> |r.value.1| <= |s|
    decreases |s|, 1
  {
    if "</" <= s then
      var n := 2 + NameLen(s[2..]);
      var t := SkipSpace(s[n..]);
      if s[2..n] == tag && ">" <= t then Some(([], t[1..])) else None
    else
      match ParseElem(s)
      case None => None
      case Some(e) =>
        match ParseText(e.1)
        case None => None
        case Some(tail) =>
          match ParseChildren(tag, tail.1)
          case None => None
          case Some(kids) => Some(([e.0] + kids.0, kids.1))
  }

  function AfterDeclaration(s: string): Option<string> {
    if s == "" then None
    else if "?>" <= s then Some(s[2..])
    else AfterDeclaration(s[1..])
  }

  // `ET.fromstring`: None is a parse error.
  function ParseDocument(s: string): Option<Elem> {
    match (if "<?xml" <= s then AfterDeclaration(s[5..]) else Some(s))
    case None => None
    case Some(t) =>
      match ParseElem(SkipSpace(t))
      case None => None
      case Some(e) => if SkipSpace(e.1) == "" then Some(e.0) else None
  }

  // ----- the tailoring reader

  datatype ParsedTailoring = ParsedTailoring(profileId: string, ops: seq<TailoringOp>)

  function LocalName(tag: string): string {
    if tag == "" || tag[|tag| - 1] == ':' then ""
    else LocalName(tag[..|tag| - 1]) + [tag[|tag| - 1]]
  }

  // The first Profile in document order.
  function FindProfile(e: Elem): Option<Elem> {
    if LocalName(e.tag) == "Profile" then Some(e) else FindInChildren(e.children)
  }

  function FindInChildren(es: seq<Elem>): Option<Elem> {
    if es == [] then None
    else
      var found := FindProfile(es[0]);
      if found.Some? then found else FindInChildren(es[1..])
  }

  // `elem.get(name) or ""`
  function Get(attrs: seq<Attr>, name: string): string {
    if attrs == [] then "" else if attrs[0].0 == name then attrs[0].1 else Get(attrs[1..], name)
  }

  function LowerChar(c: char): char {
    if 'A' <= c <= 'Z' then c + 32 as char else c
  }

  function ReadOp(child: Elem): seq<TailoringOp> {
    var id := Get(child.attrs, "idref");
    if id == "" then []
    else if LocalName(child.tag) == "select" then
      var selected := Map(Get(child.attrs, "selected"), LowerChar);
      if selected == "true" then [TailoringOp(id, Select, None)]
      else if selected == "false" then [TailoringOp(id, Disable, None)]
      else []
    else if LocalName(child.tag) == "set-value" then [TailoringOp(id, SetValue, Some(child.text))]
    else []
  }

  // `text.lower() == word`, for a word in small letters.
  predicate Lowers(text: string, word: string) {
    |text| == |word| && forall k :: 0 <= k < |word| ==> text[k] == word[k] || (text[k] as int) == (word[k] as int) - 32
  }

  lemma LowersTo(text: string, word: string)
    requires forall c :: c in word ==> 'a' <= c <= 'z'
    ensures Map(text, LowerChar) == word <==> Lowers(text, word)
  {
    if |text| == |word| {
      forall k | 0 <= k < |word|
        ensures LowerChar(text[k]) == word[k]
           <==> text[k] == word[k] || (text[k] as int) == (word[k] as int) - 32
      {
        assert word[k] in word;
      }
    }
  }

  // A child reads as an operation exactly when it names an id and is a selection
  // of true or false, in any case, or a set value.
  lemma ReadOpSays(child: Elem, op: TailoringOp)
    ensures op in ReadOp(child) <==>
      && op.ruleId == Get(child.attrs, "idref") && op.ruleId != ""
      && match op.action
         case Select => LocalName(child.tag) == "select" && Lowers(Get(child.attrs, "selected"), "true") && op.value == None
         case Disable => LocalName(child.tag) == "select" && Lowers(Get(child.attrs, "selected"), "false") && op.value == None
         case SetValue => LocalName(child.tag) == "set-value" && op.value == Some(child.text)
    ensures |ReadOp(child)| <= 1
  {
    var selected := Get(child.attrs, "selected");
    LowersTo(selected, "true");
    LowersTo(selected, "false");
    hide Get, LocalName, Lowers;
  }

  function ReadOps(children: seq<Elem>): seq<TailoringOp> {
    if children == [] then [] else ReadOp(children[0]) + ReadOps(children[1..])
  }

  datatype ParseError = NotWellFormed | NoProfile

  function Parse(text: string): Result<ParsedTailoring, ParseError> {
    match ParseDocument(text)
    case None => Err(NotWellFormed)
    case Some(root) =>
      match FindProfile(root)
      case None => Err(NoProfile)
      case Some(p) =>
        var base := Get(p.attrs, "extends");
        Ok(ParsedTailoring(if base != "" then base else Get(p.attrs, "id"), ReadOps(p.children)))
  }

  method ParseTailoringXml(text: string) returns (r: Result<ParsedTailoring, ParseError>)
    ensures r == Parse(text)
  {
    var root := ParseDocument(text);
    if root == None {
      return Err(NotWellFormed);
    }
    var profile := FindProfile(root.value);
    if profile == None {
      return Err(NoProfile);
    }
    var id := Get(profile.value.attrs, "extends");
    if id == "" {
      id := Get(profile.value.attrs, "id");
    }
    var ops := ReadProfile(profile.value.children);
    return Ok(ParsedTailoring(id, ops));
  }

  method ReadProfile(children: seq<Elem>) returns (ops: seq<TailoringOp>)
    ensures ops == ReadOps(children)
  {
    ops := [];
    var i := 0;
    while i < |children|
      invariant 0 <= i <= |children|
      invariant ops + ReadOps(children[i..]) == ReadOps(children)
    {
      ops := ops + ReadOp(children[i]);
      i := i + 1;
    }
  }
}
