/** What reading a printed tailoring.xml gives back, for every list of
    operations: the profile id, and each operation up to XML's line-end
    normalization. */
module TailoringRoundTrip {
  import opened Prelude
  import opened Escapes
  import opened TailoringXml

  // ----- the parser on printed pieces

  predicate Name(s: string) {
    s != "" && forall c :: c in s ==> NameChar(c)
  }

  // Printed unescaped in an attribute, and read back unchanged.
  predicate PlainAttr(s: string) {
    forall c :: c in s ==> PlainAttrChar(c)
  }

  predicate PlainAttrChar(c: char) {
    XmlChar(c) && c != '<' && c != '&' && c != '"' && c != '\t' && c != '\n' && c != '\r'
  }

  // Printed unescaped as character data, and read back unchanged.
  predicate PlainText(s: string) {
    forall c :: c in s ==> PlainTextChar(c)
  }

  predicate PlainTextChar(c: char) {
    XmlChar(c) && c != '<' && c != '&' && c != '>' && c != '\r'
  }

  predicate PlainAttrs(attrs: seq<Attr>) {
    && (forall a :: a in attrs ==> Name(a.0) && PlainAttr(a.1))
    && (forall i, j :: 0 <= i < j < |attrs| ==> attrs[i].0 != attrs[j].0)
  }

  lemma {:induction false} NameLenOf(name: string, rest: string)
    requires forall c :: c in name ==> NameChar(c)
    requires rest == "" || !NameChar(rest[0])
    ensures NameLen(name + rest) == |name|
  {
    if name == "" {
      assert name + rest == rest;
    } else {
      assert (name + rest)[1..] == name[1..] + rest;
      NameLenOf(name[1..], rest);
    }
  }

  // An attribute value as the parser reads it, when it holds no double quote;
  // None makes the document unreadable.
  function AttrRead(v: string): (r: Option<string>)
    decreases |v|
  {
    if v == "" then Some("")
    else if v[0] == '<' || !XmlChar(v[0]) then None
    else if v[0] == '&' then
      match Entity(v)
      case None => None
      case Some(e) => Put(e.0, AttrRead(e.1))
    else if "\r\n" <= v then AttrRead(v[1..])
    else Put(if XmlSpace(v[0]) then ' ' else v[0], AttrRead(v[1..]))
  }

  function Put(c: char, v: Option<string>): Option<string> {
    match v case None => None case Some(s) => Some([c] + s)
  }

  function Ended(v: Option<string>, rest: string): Option<(string, string)> {
    match v case None => None case Some(s) => Some((s, rest))
  }

  // Exactly the plain values read back unchanged.
  lemma {:induction false} AttrReadFixed(v: string)
    requires '"' !in v
    ensures AttrRead(v).Some? ==> |AttrRead(v).value| <= |v| && (v != "" ==> AttrRead(v).value != "")
    ensures AttrRead(v) == Some(v) <==> PlainAttr(v)
    decreases |v|
  {
    if v != "" {
      assert v == [v[0]] + v[1..];
      assert forall c :: c in v <==> c == v[0] || c in v[1..];
      assert !PlainAttrChar(v[0]) ==> !PlainAttr(v);
      AttrReadFixed(v[1..]);
      if v[0] == '&' && Entity(v).Some? {
        EntityRest(v);
        AttrReadFixed(Entity(v).value.1);
      }
    }
  }

  lemma EntityRest(v: string)
    requires Entity(v).Some?
    ensures |Entity(v).value.1| + 1 < |v|
    ensures forall c :: c in Entity(v).value.1 ==> c in v
  {
    hide Referred;
  }

  lemma {:induction false} RefLenBefore(w: string, more: string)
    requires more != "" && !RefChar(more[0])
    ensures RefLen(w + more) == RefLen(w)
  {
    if w == "" {
      assert w + more == more;
    } else {
      assert (w + more)[0] == w[0] && (w + more)[1..] == w[1..] + more;
      RefLenBefore(w[1..], more);
    }
  }

  // The quote ends a value wherever it falls: no reference holds one.
  lemma EntityBefore(v: string, rest: string)
    ensures Entity(v + "\"" + rest)
         == match Entity(v) case None => None case Some(e) => Some((e.0, e.1 + "\"" + rest))
  {
    hide Referred;
    var s := v + "\"" + rest;
    if v == "" {
      assert s[0] == '"';
    } else {
      var n := 1 + RefLen(v[1..]);
      assert s[0] == v[0] && s[1..] == v[1..] + ("\"" + rest);
      RefLenBefore(v[1..], "\"" + rest);
      assert s[1..n] == v[1..n];
      if n < |v| {
        assert s[n] == v[n] && s[n + 1..] == v[n + 1..] + "\"" + rest;
      } else {
        assert s[n] == '"';
      }
    }
  }

  lemma EntityWith(v: string, rest: string, name: string)
    requires '"' !in name
    ensures var s := v + "\"" + rest;
            (name <= s <==> name <= v) && (name <= v ==> s[|name|..] == v[|name|..] + "\"" + rest)
  {
    var s := v + "\"" + rest;
    if |v| < |name| {
      assert s[|v|] == '"' && name[|v|] in name;
    } else {
      assert v[..|name|] == s[..|name|];
    }
  }

  lemma {:induction false} AttrValueOf(v: string, rest: string)
    requires '"' !in v
    ensures ParseAttrValue(v + "\"" + rest, '"') == Ended(AttrRead(v), rest)
    decreases |v|
  {
    var s := v + "\"" + rest;
    if v == "" {
      assert s == "\"" + rest;
    } else {
      assert s[1..] == v[1..] + "\"" + rest;
      assert v == [v[0]] + v[1..];
      assert v[0] in v && s[0] == v[0];
      AttrValueOf(v[1..], rest);
      EntityBefore(v, rest);
      EntityWith(v, rest, "\r\n");
      if Entity(v).Some? {
        EntityRest(v);
        AttrValueOf(Entity(v).value.1, rest);
      }
    }
  }

  function WithAttr(name: string, read: Option<string>, more: Option<(seq<Attr>, string)>): Option<(seq<Attr>, string)> {
    if read == None || more == None || (exists a :: a in more.value.0 && a.0 == name) then None
    else Some(([(name, read.value)] + more.value.0, more.value.1))
  }

  // One printed attribute, split the way the parser walks it.
  lemma AttrStep(name: string, value: string, more: string)
    requires Name(name) && '"' !in value
    ensures var s := " " + name + "=\"" + value + "\"" + more;
            ParseAttrs(s) == WithAttr(name, AttrRead(value), ParseAttrs(more))
  {
    hide ParseAttrs, ParseAttrValue, AttrRead, NameLen;
    var v := "\"" + value + "\"" + more;
    var u := "=" + v;
    var t := name + u;
    var s := " " + name + "=\"" + value + "\"" + more;
    AttrPieces(name, value, more);
    assert name[0] in name && NameChar(t[0]);
    assert SkipSpace(s) == t;
    NameLenOf(name, u);
    AttrValueOf(value, more);
    Unfold(s, t, |name|, u, v, AttrRead(value), more);
  }

  lemma AttrPieces(name: string, value: string, more: string)
    requires name != ""
    ensures var v := "\"" + value + "\"" + more;
            var t := name + ("=" + v);
            var s := " " + name + "=\"" + value + "\"" + more;
            && s == " " + t && s[1..] == t && t[0] == name[0] && t[..|name|] == name && t[|name|..] == "=" + v
            && ("=" + v)[1..] == v && v[1..] == value + "\"" + more
  {
  }

  lemma Unfold(s: string, t: string, n: nat, u: string, v: string, read: Option<string>, more: string)
    requires SkipSpace(s) == t && |t| < |s| && t != "" && t[0] != '>' && t[0] != '/'
    requires NameLen(t) == n && n > 0 && SkipSpace(t[n..]) == u && "=" <= u && SkipSpace(u[1..]) == v
    requires v != "" && v[0] == '"' && ParseAttrValue(v[1..], v[0]) == Ended(read, more)
    ensures ParseAttrs(s) == WithAttr(t[..n], read, ParseAttrs(more))
  {
  }

  // Printed attributes whose values hold no double quote.
  predicate RawAttrs(attrs: seq<Attr>) {
    && (forall a :: a in attrs ==> Name(a.0) && '"' !in a.1)
    && (forall i, j :: 0 <= i < j < |attrs| ==> attrs[i].0 != attrs[j].0)
  }

  function AttrsRead(attrs: seq<Attr>): (r: Option<seq<Attr>>)
    ensures r.Some? ==> |r.value| == |attrs| && forall i :: 0 <= i < |attrs| ==> r.value[i].0 == attrs[i].0
  {
    if attrs == [] then Some([])
    else
      var first, more := AttrRead(attrs[0].1), AttrsRead(attrs[1..]);
      if first == None || more == None then None else Some([(attrs[0].0, first.value)] + more.value)
  }

  lemma {:induction false} PlainAttrsRead(attrs: seq<Attr>)
    requires PlainAttrs(attrs)
    ensures RawAttrs(attrs) && AttrsRead(attrs) == Some(attrs)
  {
    if attrs != [] {
      var a := attrs[0];
      assert a in attrs && '"' !in a.1;
      AttrReadFixed(a.1);
      PlainAttrsRead(attrs[1..]);
      assert attrs == [a] + attrs[1..] && a == (a.0, a.1);
    }
  }

  lemma {:induction false} AttrsOf(attrs: seq<Attr>, rest: string)
    requires RawAttrs(attrs)
    requires ">" <= rest || "/" <= rest
    ensures ParseAttrs(AttrsText(attrs) + rest)
         == match AttrsRead(attrs) case None => None case Some(read) => Some((read, rest))
  {
    hide AttrRead, NameLen, ParseAttrValue;
    if attrs == [] {
      assert AttrsText(attrs) + rest == rest && SkipSpace(rest) == rest;
    } else {
      var more := AttrsText(attrs[1..]) + rest;
      assert AttrsText(attrs) + rest == " " + attrs[0].0 + "=\"" + attrs[0].1 + "\"" + more;
      AttrStep(attrs[0].0, attrs[0].1, more);
      AttrsOf(attrs[1..], rest);
      assert RawAttrs(attrs[1..]);
    }
  }

  lemma {:induction false} TextOf(v: string, rest: string)
    requires PlainText(v) && "<" <= rest
    ensures ParseText(v + rest) == Some((v, rest))
  {
    if v == "" {
      assert v + rest == rest;
    } else {
      assert (v + rest)[1..] == v[1..] + rest;
      assert v == [v[0]] + v[1..];
      assert v[0] in v && PlainTextChar(v[0]);
      TextOf(v[1..], rest);
      NoSectionEnd(v, rest);
    }
  }

  lemma NoSectionEnd(v: string, rest: string)
    requires v != "" && '>' !in v && "<" <= rest
    ensures !("]]>" <= v + rest)
  {
    var s := v + rest;
    assert |v| > 2 ==> s[2] == v[2] && v[2] in v;
    assert |v| <= 2 ==> s[|v|] == '<';
  }

  // XML 1.0 section 2.11: a carriage return reads as a line feed, and one
  // before a line feed is dropped.
  function LineEnds(v: string): string {
    if v == "" then ""
    else if v[0] != '\r' then [v[0]] + LineEnds(v[1..])
    else if "\r\n" <= v then LineEnds(v[1..])
    else "\n" + LineEnds(v[1..])
  }

  predicate Legal(v: string) {
    forall c :: c in v ==> XmlChar(c)
  }

  // Escaped text reads back as itself up to line ends; one illegal character
  // makes the document unreadable.
  lemma {:induction false} EscapedTextOf(v: string, rest: string)
    requires "<" <= rest
    ensures ParseText(MapChars(v, XmlEntity) + rest) == if Legal(v) then Some((LineEnds(v), rest)) else None
  {
    hide Entity;
    var s := MapChars(v, XmlEntity) + rest;
    if v == "" {
      assert s == rest;
    } else {
      var c, tail := v[0], MapChars(v[1..], XmlEntity) + rest;
      assert s == XmlEntity(c) + tail;
      assert v == [c] + v[1..];
      EscapedTextOf(v[1..], rest);
      NoRawMarkup(v, rest);
      assert s[|XmlEntity(c)|..] == tail;
      if c in "&<>\"" {
        EntityOf(c, tail);
      } else {
        assert s[0] == c && s[1..] == tail;
        if c == '\r' {
          EscapedStart(v[1..], rest);
          assert "\r\n" <= s <==> "\r\n" <= v;
        }
      }
    }
  }

  lemma {:induction false} RefLenOf(name: string)
    requires forall c :: c in name ==> RefChar(c)
    ensures RefLen(name) == |name|
  {
    if name != "" {
      assert name[0] in name;
      RefLenOf(name[1..]);
    }
  }

  lemma ReferenceOf(name: string, tail: string)
    requires forall c :: c in name ==> RefChar(c)
    ensures Entity("&" + name + ";" + tail) == match Referred(name) case None => None case Some(c) => Some((c, tail))
  {
    hide Referred, RefLen;
    var s := "&" + name + ";" + tail;
    assert s[1..] == name + (";" + tail);
    RefLenOf(name);
    RefLenBefore(name, ";" + tail);
    var n := 1 + |name|;
    assert s[1..n] == name && s[n] == ';' && s[n + 1..] == tail;
  }

  lemma EntityOf(c: char, tail: string)
    requires c == '&' || c == '<' || c == '>' || c == '"'
    ensures Entity(XmlEntity(c) + tail) == Some((c, tail))
  {
    hide Entity, CharOf;
    var name := if c == '&' then "amp" else if c == '<' then "lt" else if c == '>' then "gt" else "quot";
    assert forall x :: x in name ==> RefChar(x);
    assert XmlEntity(c) == "&" + name + ";";
    ReferenceOf(name, tail);
    ReferredNames();
  }

  lemma ReferredNames()
    ensures Referred("amp") == Some('&') && Referred("lt") == Some('<')
    ensures Referred("gt") == Some('>') && Referred("quot") == Some('"')
  {
    hide CharOf;
    assert |"amp"| == 3 && |"lt"| == 2 && |"gt"| == 2 && |"quot"| == 4 && "lt"[0] != "gt"[0];
  }

  lemma EscapedStart(v: string, rest: string)
    requires "<" <= rest
    ensures var s := MapChars(v, XmlEntity) + rest; s != "" && (s[0] == '\n' <==> v != "" && v[0] == '\n')
  {
  }

  lemma {:induction false} NoneRaw(v: string)
    ensures '>' !in MapChars(v, XmlEntity)
  {
    if v != "" {
      NoneRaw(v[1..]);
    }
  }

  lemma NoRawMarkup(v: string, rest: string)
    requires v != "" && "<" <= rest
    ensures !("]]>" <= MapChars(v, XmlEntity) + rest)
  {
    NoneRaw(v);
    NoSectionEnd(MapChars(v, XmlEntity), rest);
  }

  lemma UnfoldElem(s: string, n: nat, attrs: seq<Attr>, rest: string)
    requires "<" <= s && n > 0 && NameLen(s[1..]) == n && ParseAttrs(s[1 + n..]) == Some((attrs, rest))
    ensures ParseElem(s)
         == if "/>" <= rest then Some((Elem(s[1..1 + n], attrs, "", []), rest[2..]))
            else if ">" <= rest then
              match ParseText(rest[1..])
              case None => None
              case Some(t) =>
                match ParseChildren(s[1..1 + n], t.1)
                case None => None
                case Some(kids) => Some((Elem(s[1..1 + n], attrs, t.0, kids.0), kids.1))
            else None
  {
  }

  lemma ElemStart(tag: string, attrs: seq<Attr>, rest: string)
    requires Name(tag) && RawAttrs(attrs)
    requires ">" <= rest || "/>" <= rest
    ensures var s := "<" + tag + AttrsText(attrs) + rest;
            && NameLen(s[1..]) == |tag| && s[1..1 + |tag|] == tag
            && ParseAttrs(s[1 + |tag|..])
            == match AttrsRead(attrs) case None => None case Some(read) => Some((read, rest))
  {
    var u := AttrsText(attrs) + rest;
    var s := "<" + tag + AttrsText(attrs) + rest;
    assert NameLen(s[1..]) == |tag| by {
      assert s[1..] == tag + u;
      assert attrs == [] ==> u == rest;
      NameLenOf(tag, u);
    }
    assert s[1..1 + |tag|] == tag && s[1 + |tag|..] == u;
    AttrsOf(attrs, rest);
  }

  lemma BadAttrs(s: string, n: nat)
    requires "<" <= s && n > 0 && NameLen(s[1..]) == n && ParseAttrs(s[1 + n..]) == None
    ensures ParseElem(s) == None
  {
  }

  lemma EmptyRead(tag: string, attrs: seq<Attr>, rest: string)
    requires Name(tag) && RawAttrs(attrs)
    ensures ParseElem(EmptyTag(tag, attrs) + rest)
         == match AttrsRead(attrs) case None => None case Some(read) => Some((Elem(tag, read, "", []), rest))
  {
    hide ParseElem, ParseAttrs, NameLen, AttrsRead, RawAttrs;
    var r := "/>" + rest;
    var s := "<" + tag + AttrsText(attrs) + r;
    ElemStart(tag, attrs, r);
    if AttrsRead(attrs) == None {
      BadAttrs(s, |tag|);
    } else {
      UnfoldElem(s, |tag|, AttrsRead(attrs).value, r);
    }
    assert EmptyTag(tag, attrs) + rest == s;
    assert r[2..] == rest;
  }

  lemma EmptyOf(tag: string, attrs: seq<Attr>, rest: string)
    requires Name(tag) && PlainAttrs(attrs)
    ensures ParseElem(EmptyTag(tag, attrs) + rest) == Some((Elem(tag, attrs, "", []), rest))
  {
    hide ParseElem, EmptyTag;
    PlainAttrsRead(attrs);
    EmptyRead(tag, attrs, rest);
  }

  // What an opening tag and what follows it come to, once its attributes are read.
  function Opened(tag: string, read: Option<seq<Attr>>, inner: string): Option<(Elem, string)> {
    if read == None || ParseText(inner) == None then None
    else
      var t := ParseText(inner).value;
      match ParseChildren(tag, t.1)
      case None => None
      case Some(kids) => Some((Elem(tag, read.value, t.0, kids.0), kids.1))
  }

  lemma OpenRead(tag: string, attrs: seq<Attr>, inner: string)
    requires Name(tag) && RawAttrs(attrs)
    ensures ParseElem(OpenTag(tag, attrs) + inner) == Opened(tag, AttrsRead(attrs), inner)
  {
    hide ParseElem, ParseText, ParseChildren, ParseAttrs, NameLen, AttrsRead, RawAttrs;
    var r := ">" + inner;
    var s := "<" + tag + AttrsText(attrs) + r;
    ElemStart(tag, attrs, r);
    if AttrsRead(attrs) == None {
      BadAttrs(s, |tag|);
    } else {
      UnfoldElem(s, |tag|, AttrsRead(attrs).value, r);
    }
    assert OpenTag(tag, attrs) + inner == s;
    assert r[0] == '>' && r[1..] == inner;
  }

  lemma OpenOf(tag: string, attrs: seq<Attr>, inner: string)
    requires Name(tag) && PlainAttrs(attrs)
    ensures ParseElem(OpenTag(tag, attrs) + inner) == Opened(tag, Some(attrs), inner)
  {
    hide ParseElem, OpenTag, Opened;
    PlainAttrsRead(attrs);
    OpenRead(tag, attrs, inner);
  }

  lemma CloseOf(tag: string, rest: string)
    requires Name(tag)
    ensures ParseChildren(tag, CloseTag(tag) + rest) == Some(([], rest))
  {
    var s := CloseTag(tag) + rest;
    var r := ">" + rest;
    assert s[2..] == tag + r;
    NameLenOf(tag, r);
    assert s[2..2 + |tag|] == tag && s[2 + |tag|..] == r;
    assert SkipSpace(r) == r && r[1..] == rest;
  }

  // An element holding only text; `read` is what the parser makes of it.
  lemma LeafRead(tag: string, attrs: seq<Attr>, raw: string, read: Option<string>, rest: string)
    requires Name(tag) && RawAttrs(attrs)
    requires ParseText(raw + (CloseTag(tag) + rest)) == Ended(read, CloseTag(tag) + rest)
    ensures ParseElem(OpenTag(tag, attrs) + raw + CloseTag(tag) + rest)
         == if read == None || AttrsRead(attrs) == None then None
            else Some((Elem(tag, AttrsRead(attrs).value, read.value, []), rest))
  {
    hide ParseElem, ParseText, ParseChildren, CloseTag, OpenTag, AttrsRead, RawAttrs;
    var inner := raw + (CloseTag(tag) + rest);
    OpenRead(tag, attrs, inner);
    assert OpenTag(tag, attrs) + raw + CloseTag(tag) + rest == OpenTag(tag, attrs) + inner;
    CloseOf(tag, rest);
  }

  lemma PlainLeafOf(tag: string, attrs: seq<Attr>, text: string, rest: string)
    requires Name(tag) && PlainAttrs(attrs) && PlainText(text)
    ensures ParseElem(OpenTag(tag, attrs) + text + CloseTag(tag) + rest) == Some((Elem(tag, attrs, text, []), rest))
  {
    hide ParseElem, ParseText, CloseTag, OpenTag;
    CloseTagStart(tag, rest);
    TextOf(text, CloseTag(tag) + rest);
    PlainAttrsRead(attrs);
    LeafRead(tag, attrs, text, Some(text), rest);
  }

  // A first child, white space, and the remaining children.
  lemma NextChild(tag: string, s: string, e: Elem, space: string, rest: string)
    requires ParseElem(s) == Some((e, space + rest)) && !("</" <= s)
    requires PlainText(space) && "<" <= rest
    ensures ParseChildren(tag, s)
         == match ParseChildren(tag, rest) case None => None case Some(k) => Some(([e] + k.0, k.1))
  {
    TextOf(space, rest);
  }

  // ----- the operations

  // The printer writes ids as they are, so one with a double quote ends its
  // attribute early and what follows it is read as markup.
  predicate NoQuotes(ops: seq<TailoringOp>) {
    forall op :: op in ops ==> '"' !in op.ruleId
  }

  // An operation the document stays readable with.
  predicate LegalOp(op: TailoringOp) {
    AttrRead(op.ruleId).Some? && (op.action == SetValue ==> Legal(ValueOf(op)))
  }

  function IdRead(op: TailoringOp): string {
    match AttrRead(op.ruleId) case None => "" case Some(id) => id
  }

  function ElemOf(op: TailoringOp): Elem {
    match op.action
    case Disable => Elem("xccdf:select", [("idref", IdRead(op)), ("selected", "false")], "", [])
    case Select => Elem("xccdf:select", [("idref", IdRead(op)), ("selected", "true")], "", [])
    case SetValue => Elem("xccdf:set-value", [("idref", IdRead(op))], LineEnds(ValueOf(op)), [])
  }

  predicate AllLegal(ops: seq<TailoringOp>) {
    ops != [] ==> LegalOp(ops[0]) && AllLegal(ops[1..])
  }

  function ElemsOf(ops: seq<TailoringOp>): seq<Elem> {
    if ops == [] then [] else [ElemOf(ops[0])] + ElemsOf(ops[1..])
  }

  lemma FirstAttrRead(name: string, value: string, more: seq<Attr>)
    ensures AttrsRead([(name, value)] + more)
         == if AttrRead(value) == None || AttrsRead(more) == None then None
            else Some([(name, AttrRead(value).value)] + AttrsRead(more).value)
  {
    hide AttrRead;
    assert ([(name, value)] + more)[1..] == more;
  }

  lemma IdAttrsRead(id: string)
    requires '"' !in id
    ensures RawAttrs([("idref", id)])
    ensures AttrRead(id) == None ==> AttrsRead([("idref", id)]) == None
    ensures AttrRead(id).Some? ==> AttrsRead([("idref", id)]) == Some([("idref", AttrRead(id).value)])
  {
    hide AttrRead;
    FirstAttrRead("idref", id, []);
    assert [("idref", id)] + [] == [("idref", id)];
    if AttrRead(id).Some? {
      var first := [("idref", AttrRead(id).value)];
      assert first + AttrsRead([]).value == first;
    }
  }

  lemma SelectAttrsRead(id: string, selected: string)
    requires '"' !in id && (selected == "true" || selected == "false")
    ensures var attrs := [("idref", id), ("selected", selected)];
            && RawAttrs(attrs)
            && (AttrRead(id) == None ==> AttrsRead(attrs) == None)
            && (AttrRead(id).Some? ==> AttrsRead(attrs) == Some([("idref", AttrRead(id).value), ("selected", selected)]))
  {
    hide AttrRead, AttrsRead;
    var last := [("selected", selected)];
    assert PlainAttrs(last);
    PlainAttrsRead(last);
    FirstAttrRead("idref", id, last);
    assert [("idref", id)] + last == [("idref", id), ("selected", selected)];
    if AttrRead(id).Some? {
      var read := AttrRead(id).value;
      assert [("idref", read)] + last == [("idref", read), ("selected", selected)];
    }
  }

  lemma OpOf(op: TailoringOp, rest: string)
    requires '"' !in op.ruleId
    ensures ParseElem(OpTag(op) + rest) == if LegalOp(op) then Some((ElemOf(op), rest)) else None
  {
    hide ParseElem, ParseText, AttrRead, AttrsRead, RawAttrs;
    var id := op.ruleId;
    match op.action
    case Disable =>
      SelectAttrsRead(id, "false");
      EmptyRead("xccdf:select", [("idref", id), ("selected", "false")], rest);
    case Select =>
      SelectAttrsRead(id, "true");
      EmptyRead("xccdf:select", [("idref", id), ("selected", "true")], rest);
    case SetValue =>
      SetValueOf(op, rest);
  }

  lemma SetValueOf(op: TailoringOp, rest: string)
    requires '"' !in op.ruleId && op.action == SetValue
    ensures ParseElem(OpTag(op) + rest) == if LegalOp(op) then Some((ElemOf(op), rest)) else None
  {
    hide ParseElem, ParseText, AttrRead, AttrsRead, RawAttrs, OpenTag, CloseTag, Legal, LineEnds, XmlEscape;
    var tag, attrs, value := "xccdf:set-value", [("idref", op.ruleId)], ValueOf(op);
    IdAttrsRead(op.ruleId);
    NoValue();
    XmlEscapeIsMap(value);
    CloseTagStart(tag, rest);
    EscapedTextOf(value, CloseTag(tag) + rest);
    LeafRead(tag, attrs, XmlEscape(value), if Legal(value) then Some(LineEnds(value)) else None, rest);
  }

  lemma NoValue()
    ensures XmlEscape("") == ""
  {
    XmlEscapeIsMap("");
  }

  lemma OpTagStart(op: TailoringOp, rest: string)
    ensures !("</" <= OpTag(op) + rest) && "<" <= OpTag(op) + rest
  {
    var s := OpTag(op) + rest;
    match op.action
    case Disable => assert s[0] == '<' && s[1] == "xccdf:select"[0];
    case Select => assert s[0] == '<' && s[1] == "xccdf:select"[0];
    case SetValue => assert s[0] == '<' && s[1] == "xccdf:set-value"[0];
  }

  // The printed operations from the end of the line before them, with the
  // white space before each operation in front of it.
  function OpsTail(ops: seq<TailoringOp>, rest: string): string
    decreases ops, 1
  {
    Indent(ops) + OpsInner(ops, rest)
  }

  function Indent(ops: seq<TailoringOp>): string {
    if ops == [] then "\n  " else "\n    "
  }

  // The text of the operations, from the first one on.
  function OpsInner(ops: seq<TailoringOp>, rest: string): string
    decreases ops, 0
  {
    if ops == [] then CloseTag("xccdf:Profile") + rest else OpTag(ops[0]) + OpsTail(ops[1..], rest)
  }

  lemma InnerStarts(ops: seq<TailoringOp>, rest: string)
    ensures OpsTail(ops, rest) == Indent(ops) + OpsInner(ops, rest)
    ensures "<" <= OpsInner(ops, rest) && PlainText(Indent(ops))
  {
    if ops != [] {
      OpTagStart(ops[0], OpsTail(ops[1..], rest));
    }
  }

  lemma {:induction false} OpsTailText(ops: seq<TailoringOp>, rest: string)
    ensures "\n" + BodyText(Lines(ops)) + ("  " + (CloseTag("xccdf:Profile") + rest)) == OpsTail(ops, rest)
  {
    hide CloseTag, OpTag;
    var end := "  " + (CloseTag("xccdf:Profile") + rest);
    if ops == [] {
      assert "\n" + "" + end == "\n  " + (CloseTag("xccdf:Profile") + rest);
    } else {
      OpsTailText(ops[1..], rest);
      var line, more := "    " + OpTag(ops[0]), BodyText(Lines(ops[1..]));
      assert BodyText(Lines(ops)) == line + "\n" + more by {
        assert Lines(ops) == [line] + Lines(ops[1..]);
        BodyTextStep(line, Lines(ops[1..]));
      }
      Regroup(OpTag(ops[0]), more, end);
    }
  }

  lemma BodyTextStep(line: string, more: seq<string>)
    ensures BodyText([line] + more) == line + "\n" + BodyText(more)
  {
    assert ([line] + more)[1..] == more;
  }

  lemma Regroup(tag: string, more: string, end: string)
    ensures "\n" + (("    " + tag) + "\n" + more) + end == "\n    " + (tag + ("\n" + more + end))
  {
  }

  lemma {:induction false} OpsOf(ops: seq<TailoringOp>, rest: string)
    requires NoQuotes(ops)
    ensures ParseChildren("xccdf:Profile", OpsInner(ops, rest)) == if AllLegal(ops) then Some((ElemsOf(ops), rest)) else None
  {
    if ops == [] {
      CloseOf("xccdf:Profile", rest);
    } else {
      var more := OpsTail(ops[1..], rest);
      OpOf(ops[0], more);
      OpTagStart(ops[0], more);
      OpsOf(ops[1..], rest);
      FirstOp(ops, OpsInner(ops, rest), more, rest);
    }
  }

  lemma FirstOp(ops: seq<TailoringOp>, inner: string, more: string, rest: string)
    requires ops != [] && more == OpsTail(ops[1..], rest) && !("</" <= inner)
    requires ParseElem(inner) == if LegalOp(ops[0]) then Some((ElemOf(ops[0]), more)) else None
    requires ParseChildren("xccdf:Profile", OpsInner(ops[1..], rest))
          == if AllLegal(ops[1..]) then Some((ElemsOf(ops[1..]), rest)) else None
    ensures ParseChildren("xccdf:Profile", inner) == if AllLegal(ops) then Some((ElemsOf(ops), rest)) else None
  {
    hide ParseElem, ParseText, ParseChildren, OpsTail, OpsInner;
    InnerStarts(ops[1..], rest);
    if LegalOp(ops[0]) {
      NextChild("xccdf:Profile", inner, ElemOf(ops[0]), Indent(ops[1..]), OpsInner(ops[1..], rest));
    } else {
      NoChild("xccdf:Profile", inner);
    }
  }

  lemma NoChild(tag: string, s: string)
    requires ParseElem(s) == None && !("</" <= s)
    ensures ParseChildren(tag, s) == None
  {
  }

  // ----- the whole document

  predicate PlainMeta(profileId: string, scapContent: string, timestamp: string) {
    PlainAttr(profileId) && PlainText(profileId) && PlainAttr(scapContent) && PlainAttr(timestamp)
  }

  function Leaf(tag: string, attrs: seq<Attr>, text: string): Elem {
    Elem(tag, attrs, text, [])
  }

  function ProfileElem(ops: seq<TailoringOp>, profileId: string): Elem {
    ProfileWith(profileId, ElemsOf(ops))
  }

  function RootElem(ops: seq<TailoringOp>, profileId: string, scapContent: string, timestamp: string): Elem {
    RootWith(scapContent, timestamp, [ProfileElem(ops, profileId)] + [])
  }

  lemma NamesArePlain()
    ensures Name("xccdf:title") && Name("xccdf:description") && Name("xccdf:version") && Name("xccdf:benchmark")
    ensures Name("xccdf:Profile") && Name("xccdf:Tailoring")
  {
  }

  lemma SentencesArePlain()
    ensures PlainText("Tailoring generated by ks-gen.") && PlainText("ks-gen tailored ")
  {
  }

  lemma PathIsPlain()
    ensures PlainAttr("/usr/share/xml/scap/ssg/content/")
  {
  }

  lemma LangIsPlain()
    ensures PlainAttrs(LANG)
  {
    assert PlainAttr("en-US") && Name("xml:lang");
  }

  lemma NamespaceIsPlain()
    ensures PlainAttr("http://checklists.nist.gov/xccdf/1.2")
  {
  }

  lemma RootIdIsPlain()
    ensures PlainAttr("xccdf_ks-gen_tailoring_default")
    ensures Name("xmlns:xccdf") && Name("id")
  {
  }

  lemma RootAttrsPlain()
    ensures PlainAttrs(RootAttrs())
  {
    hide Name, PlainAttr;
    NamespaceIsPlain();
    RootIdIsPlain();
  }

  lemma ProfileAttrsPlain(profileId: string)
    requires PlainAttr(profileId)
    ensures PlainAttrs(ProfileAttrs(profileId))
  {
    assert PlainAttr(TAILORED_PROFILE_ID);
    assert Name("extends") && Name("id");
  }

  lemma TagStart(tag: string, attrs: seq<Attr>, rest: string)
    requires Name(tag)
    ensures !("</" <= OpenTag(tag, attrs) + rest) && "<" <= OpenTag(tag, attrs) + rest
    ensures !("</" <= EmptyTag(tag, attrs) + rest) && "<" <= EmptyTag(tag, attrs) + rest
  {
    assert tag[0] in tag && NameChar(tag[0]);
    assert (OpenTag(tag, attrs) + rest)[1] == tag[0];
    assert (EmptyTag(tag, attrs) + rest)[1] == tag[0];
  }

  // A printed element holding only plain text.
  lemma PrintedLeafOf(tag: string, attrs: seq<Attr>, text: string, rest: string)
    requires Name(tag) && PlainAttrs(attrs) && PlainText(text)
    ensures var s := OpenTag(tag, attrs) + text + CloseTag(tag) + rest;
            ParseElem(s) == Some((Leaf(tag, attrs, text), rest)) && !("</" <= s) && "<" <= s
  {
    hide ParseElem;
    PlainLeafOf(tag, attrs, text, rest);
    TagStart(tag, attrs, text + CloseTag(tag) + rest);
    assert OpenTag(tag, attrs) + text + CloseTag(tag) + rest == OpenTag(tag, attrs) + (text + CloseTag(tag) + rest);
  }

  lemma TitleOf(profileId: string, rest: string)
    requires PlainText(profileId)
    ensures ParseElem(TitleText(profileId) + rest) == Some((Leaf("xccdf:title", LANG, "ks-gen tailored " + profileId), rest))
    ensures !("</" <= TitleText(profileId) + rest) && "<" <= TitleText(profileId) + rest
  {
    hide ParseElem;
    NamesArePlain();
    SentencesArePlain();
    LangIsPlain();
    PrintedLeafOf("xccdf:title", LANG, "ks-gen tailored " + profileId, rest);
  }

  lemma DescriptionOf(rest: string)
    ensures ParseElem(DescriptionText() + rest) == Some((Leaf("xccdf:description", LANG, "Tailoring generated by ks-gen."), rest))
    ensures !("</" <= DescriptionText() + rest) && "<" <= DescriptionText() + rest
  {
    hide ParseElem;
    NamesArePlain();
    SentencesArePlain();
    LangIsPlain();
    PrintedLeafOf("xccdf:description", LANG, "Tailoring generated by ks-gen.", rest);
  }

  lemma VersionOf(timestamp: string, rest: string)
    requires PlainAttr(timestamp)
    ensures ParseElem(VersionText(timestamp) + rest) == Some((Leaf("xccdf:version", [("time", timestamp)], "1"), rest))
    ensures !("</" <= VersionText(timestamp) + rest) && "<" <= VersionText(timestamp) + rest
  {
    hide ParseElem;
    NamesArePlain();
    assert Name("time") && PlainText("1");
    PrintedLeafOf("xccdf:version", [("time", timestamp)], "1", rest);
  }

  lemma BenchmarkOf(scapContent: string, rest: string)
    requires PlainAttr(scapContent)
    ensures ParseElem(BenchmarkText(scapContent) + rest) == Some((Leaf("xccdf:benchmark", BenchmarkAttrs(scapContent), ""), rest))
    ensures !("</" <= BenchmarkText(scapContent) + rest) && "<" <= BenchmarkText(scapContent) + rest
  {
    hide ParseElem;
    NamesArePlain();
    PathIsPlain();
    assert Name("href");
    EmptyOf("xccdf:benchmark", BenchmarkAttrs(scapContent), rest);
    TagStart("xccdf:benchmark", BenchmarkAttrs(scapContent), rest);
  }

  // A printed child, white space, then whatever the parser makes of the rest.
  lemma ChildThen(tag: string, child: string, e: Elem, space: string, rest: string)
    requires ParseElem(child + (space + rest)) == Some((e, space + rest))
    requires !("</" <= child + (space + rest)) && PlainText(space) && "<" <= rest
    ensures ParseChildren(tag, child + (space + rest))
         == match ParseChildren(tag, rest) case None => None case Some(k) => Some(([e] + k.0, k.1))
  {
    NextChild(tag, child + (space + rest), e, space, rest);
  }

  function ProfileText(ops: seq<TailoringOp>, profileId: string, rest: string): string {
    OpenTag("xccdf:Profile", ProfileAttrs(profileId))
    + ("\n    " + (TitleText(profileId) + ("\n    " + (DescriptionText() + OpsTail(ops, rest)))))
  }

  // A profile with these operations.
  function ProfileWith(profileId: string, kids: seq<Elem>): Elem {
    Elem("xccdf:Profile", ProfileAttrs(profileId), "\n    ",
         [Leaf("xccdf:title", LANG, "ks-gen tailored " + profileId)]
         + ([Leaf("xccdf:description", LANG, "Tailoring generated by ks-gen.")] + kids))
  }

  // A printed profile comes to whatever the parser makes of its operations.
  lemma ProfileRead(ops: seq<TailoringOp>, profileId: string, rest: string)
    requires PlainAttr(profileId) && PlainText(profileId)
    ensures ParseElem(ProfileText(ops, profileId, rest))
         == match ParseChildren("xccdf:Profile", OpsInner(ops, rest))
            case None => None
            case Some(kids) => Some((ProfileWith(profileId, kids.0), kids.1))
  {
    InnerStarts(ops, rest);
    hide ParseElem, ParseChildren, ParseText, TitleText, DescriptionText, OpsTail, OpsInner, OpenTag;
    var space, inner := Indent(ops), OpsInner(ops, rest);
    NamesArePlain();
    ProfileAttrsPlain(profileId);
    var d := DescriptionText() + (space + inner);
    DescriptionOf(space + inner);
    ChildThen("xccdf:Profile", DescriptionText(), Leaf("xccdf:description", LANG, "Tailoring generated by ks-gen."), space, inner);
    var t := TitleText(profileId) + ("\n    " + d);
    TitleOf(profileId, "\n    " + d);
    ChildThen("xccdf:Profile", TitleText(profileId), Leaf("xccdf:title", LANG, "ks-gen tailored " + profileId), "\n    ", d);
    OpenOf("xccdf:Profile", ProfileAttrs(profileId), "\n    " + t);
    TextOf("\n    ", t);
  }

  lemma ProfileOf(ops: seq<TailoringOp>, profileId: string, rest: string)
    requires NoQuotes(ops) && PlainAttr(profileId) && PlainText(profileId)
    ensures ParseElem(ProfileText(ops, profileId, rest))
         == if AllLegal(ops) then Some((ProfileElem(ops, profileId), rest)) else None
  {
    hide ParseElem, ParseChildren, ProfileText, ProfileAttrs, OpsInner;
    OpsOf(ops, rest);
    ProfileRead(ops, profileId, rest);
  }

  function RootText(ops: seq<TailoringOp>, profileId: string, scapContent: string, timestamp: string): string {
    OpenTag("xccdf:Tailoring", RootAttrs())
    + ("\n  " + (BenchmarkText(scapContent)
    + ("\n  " + (VersionText(timestamp)
    + ("\n  " + ProfileText(ops, profileId, "\n" + (CloseTag("xccdf:Tailoring") + "\n")))))))
  }

  // A document whose root holds these children after the first two.
  function RootWith(scapContent: string, timestamp: string, kids: seq<Elem>): Elem {
    Elem("xccdf:Tailoring", RootAttrs(), "\n  ",
         [Leaf("xccdf:benchmark", BenchmarkAttrs(scapContent), "")]
         + ([Leaf("xccdf:version", [("time", timestamp)], "1")] + kids))
  }

  // A printed root comes to whatever the parser makes of its profile.
  lemma RootRead(ops: seq<TailoringOp>, profileId: string, scapContent: string, timestamp: string)
    requires PlainMeta(profileId, scapContent, timestamp)
    ensures ParseElem(RootText(ops, profileId, scapContent, timestamp))
         == match ParseChildren("xccdf:Tailoring", ProfileText(ops, profileId, "\n" + (CloseTag("xccdf:Tailoring") + "\n")))
            case None => None
            case Some(kids) => Some((RootWith(scapContent, timestamp, kids.0), kids.1))
  {
    hide ParseElem, ParseChildren, ParseText, ProfileText, BenchmarkText, VersionText, CloseTag, OpenTag;
    var tag := "xccdf:Tailoring";
    var p := ProfileText(ops, profileId, "\n" + (CloseTag(tag) + "\n"));
    NamesArePlain();
    RootAttrsPlain();
    ProfileTextStart(ops, profileId, "\n" + (CloseTag(tag) + "\n"));
    var v := VersionText(timestamp) + ("\n  " + p);
    VersionOf(timestamp, "\n  " + p);
    ChildThen(tag, VersionText(timestamp), Leaf("xccdf:version", [("time", timestamp)], "1"), "\n  ", p);
    var b := BenchmarkText(scapContent) + ("\n  " + v);
    BenchmarkOf(scapContent, "\n  " + v);
    ChildThen(tag, BenchmarkText(scapContent), Leaf("xccdf:benchmark", BenchmarkAttrs(scapContent), ""), "\n  ", v);
    OpenOf(tag, RootAttrs(), "\n  " + b);
    TextOf("\n  ", b);
  }

  // A profile that can be read is the only further child.
  lemma OnlyProfile(ops: seq<TailoringOp>, profileId: string, profile: Option<Elem>)
    requires var end := "\n" + (CloseTag("xccdf:Tailoring") + "\n");
      ParseElem(ProfileText(ops, profileId, end)) == match profile case None => None case Some(e) => Some((e, end))
    ensures ParseChildren("xccdf:Tailoring", ProfileText(ops, profileId, "\n" + (CloseTag("xccdf:Tailoring") + "\n")))
         == match profile case None => None case Some(e) => Some(([e] + [], "\n"))
  {
    hide ParseElem, ParseChildren, ParseText, ProfileText, CloseTag;
    var tag := "xccdf:Tailoring";
    var end := CloseTag(tag) + "\n";
    var p := ProfileText(ops, profileId, "\n" + end);
    NamesArePlain();
    ProfileTextStart(ops, profileId, "\n" + end);
    CloseOf(tag, "\n");
    CloseTagStart(tag, "\n");
    if profile == None {
      NoChild(tag, p);
    } else {
      NextChild(tag, p, profile.value, "\n", end);
    }
  }

  lemma RootOf(ops: seq<TailoringOp>, profileId: string, scapContent: string, timestamp: string)
    requires NoQuotes(ops) && PlainMeta(profileId, scapContent, timestamp)
    ensures ParseElem(RootText(ops, profileId, scapContent, timestamp))
         == if AllLegal(ops) then Some((RootElem(ops, profileId, scapContent, timestamp), "\n")) else None
  {
    hide ParseElem, ParseChildren, ProfileText, RootText, CloseTag, ProfileElem, AllLegal;
    ProfileOf(ops, profileId, "\n" + (CloseTag("xccdf:Tailoring") + "\n"));
    OnlyProfile(ops, profileId, if AllLegal(ops) then Some(ProfileElem(ops, profileId)) else None);
    RootRead(ops, profileId, scapContent, timestamp);
  }

  lemma CloseTagStart(tag: string, rest: string)
    ensures "<" <= CloseTag(tag) + rest
  {
  }

  lemma ProfileTextStart(ops: seq<TailoringOp>, profileId: string, rest: string)
    ensures var p := ProfileText(ops, profileId, rest); !("</" <= p) && "<" <= p
  {
    NamesArePlain();
    TagStart("xccdf:Profile", ProfileAttrs(profileId),
             "\n    " + (TitleText(profileId) + ("\n    " + (DescriptionText() + OpsTail(ops, rest)))));
  }

  // ----- regrouping the printed text

  lemma Nest(a: string, b: string, c: string, d: string, e: string, f: string, g: string)
    ensures a + b + c + d + e + f + g == a + (b + (c + (d + (e + (f + g)))))
  {
    assert e + f + g == e + (f + g);
    assert a + b + c + d + e + f + g == (a + b + c + d) + (e + f + g);
    assert b + c + d + (e + (f + g)) == b + (c + (d + (e + (f + g))));
  }

  lemma RootTextIs(ops: seq<TailoringOp>, profileId: string, scapContent: string, timestamp: string)
    ensures TailoringText(ops, profileId, scapContent, timestamp)
         == DECLARATION + RootText(ops, profileId, scapContent, timestamp)
  {
    hide OpenTag, BenchmarkText, VersionText, TitleText, DescriptionText, CloseTag, OpsTail, BodyText, Lines;
    var end := CloseTag("xccdf:Tailoring") + "\n";
    var ps, t, d := OpenTag("xccdf:Profile", ProfileAttrs(profileId)), TitleText(profileId), DescriptionText();
    var body, close := BodyText(Lines(ops)), CloseTag("xccdf:Profile");
    OpsTailText(ops, "\n" + end);
    var tail := "\n" + body + ("  " + (close + ("\n" + end)));
    assert ProfileHeader(profileId) + body + Footer() == ps + "\n    " + t + "\n    " + d + tail by {
      assert Footer() == "  " + (close + ("\n" + end));
      assert ProfileHeader(profileId) == ps + "\n    " + t + "\n    " + d + "\n";
    }
    Nest(ps, "\n    ", t, "\n    ", d, "", tail);
    var p := ProfileText(ops, profileId, "\n" + end);
    assert p == ProfileHeader(profileId) + body + Footer();
    var r, b, v := OpenTag("xccdf:Tailoring", RootAttrs()), BenchmarkText(scapContent), VersionText(timestamp);
    Nest(r, "\n  ", b, "\n  ", v, "\n  ", p);
    assert Header(profileId, scapContent, timestamp) + body + Footer()
        == r + "\n  " + b + "\n  " + v + "\n  " + p;
  }

  lemma {:induction false} AfterDeclarationOf(body: string, rest: string)
    requires '?' !in body
    ensures AfterDeclaration(body + "?>" + rest) == Some(rest)
  {
    var s := body + "?>" + rest;
    if body == "" {
      assert s == "?>" + rest && s[2..] == rest;
    } else {
      assert s[0] == body[0] && body[0] in body;
      assert s[1..] == body[1..] + "?>" + rest;
      AfterDeclarationOf(body[1..], rest);
    }
  }

  lemma DocumentOf(ops: seq<TailoringOp>, profileId: string, scapContent: string, timestamp: string)
    requires NoQuotes(ops) && PlainMeta(profileId, scapContent, timestamp)
    ensures ParseDocument(TailoringText(ops, profileId, scapContent, timestamp))
         == if AllLegal(ops) then Some(RootElem(ops, profileId, scapContent, timestamp)) else None
  {
    hide ParseElem, AfterDeclaration, RootElem, TailoringText, RootText, SkipSpace, ParseDocument;
    var root := RootText(ops, profileId, scapContent, timestamp);
    var s := TailoringText(ops, profileId, scapContent, timestamp);
    RootTextIs(ops, profileId, scapContent, timestamp);
    RootTextStart(ops, profileId, scapContent, timestamp);
    RootOf(ops, profileId, scapContent, timestamp);
    DeclarationOf(s, root);
    if AllLegal(ops) {
      LastLine();
    }
  }

  lemma LastLine()
    ensures SkipSpace("\n") == ""
  {
    assert "\n"[1..] == "";
  }

  // The declaration and the line end after it are skipped.
  lemma DeclarationOf(s: string, root: string)
    requires s == DECLARATION + root && "<" <= root
    ensures ParseDocument(s)
         == match ParseElem(root) case None => None case Some(e) => if SkipSpace(e.1) == "" then Some(e.0) else None
  {
    hide ParseElem, AfterDeclaration, SkipSpace;
    var body := DECLARATION_BODY;
    var t := "\n" + root;
    DeclarationParts(s, root);
    AfterDeclarationOf(body, t);
    SkipLine(root);
  }

  const DECLARATION_BODY := " version='1.0' encoding='UTF-8'"

  lemma DeclarationSplit()
    ensures DECLARATION == "<?xml" + (DECLARATION_BODY + "?>" + "\n")
  {
  }

  lemma NoQuestionMark()
    ensures '?' !in DECLARATION_BODY
  {
  }

  lemma DeclarationParts(s: string, root: string)
    requires s == DECLARATION + root
    ensures '?' !in DECLARATION_BODY
    ensures "<?xml" <= s && s[5..] == DECLARATION_BODY + "?>" + ("\n" + root)
  {
    DeclarationSplit();
    NoQuestionMark();
    DropHead(s, DECLARATION_BODY, root);
  }

  lemma DropHead(s: string, body: string, root: string)
    requires s == "<?xml" + (body + "?>" + "\n") + root
    ensures "<?xml" <= s && s[5..] == body + "?>" + ("\n" + root)
  {
    SplitDeclaration(body, root);
  }

  lemma SkipLine(root: string)
    requires "<" <= root
    ensures SkipSpace("\n" + root) == root
  {
    assert ("\n" + root)[1..] == root && SkipSpace(root) == root;
  }

  lemma SplitDeclaration(body: string, root: string)
    ensures "<?xml" + (body + "?>" + "\n") + root == "<?xml" + (body + "?>" + ("\n" + root))
  {
  }

  lemma RootTextStart(ops: seq<TailoringOp>, profileId: string, scapContent: string, timestamp: string)
    ensures "<" <= RootText(ops, profileId, scapContent, timestamp)
  {
  }

  // ----- what the reader makes of the document

  // The operations as they come back: an id is read as an attribute value, an
  // empty one is dropped, a value has its line ends normalized, and only
  // set_value carries a value.
  function Delivered(ops: seq<TailoringOp>): seq<TailoringOp> {
    if ops == [] then []
    else
      var op := ops[0];
      (if IdRead(op) == "" then []
       else [TailoringOp(IdRead(op), op.action, if op.action == SetValue then Some(LineEnds(ValueOf(op))) else None)])
      + Delivered(ops[1..])
  }

  lemma {:induction false} LocalNameOf(name: string)
    requires ':' !in name
    ensures LocalName("xccdf:" + name) == name
  {
    var tag := "xccdf:" + name;
    if name == "" {
      assert tag[|tag| - 1] == ':';
    } else {
      var last := name[|name| - 1];
      assert tag[|tag| - 1] == last && last in name;
      assert tag[..|tag| - 1] == "xccdf:" + name[..|name| - 1];
      LocalNameOf(name[..|name| - 1]);
    }
  }

  lemma OpLocalNames()
    ensures LocalName("xccdf:select") == "select" && LocalName("xccdf:set-value") == "set-value"
  {
    hide LocalName;
    LocalNameOf("select");
    LocalNameOf("set-value");
    assert "xccdf:" + "select" == "xccdf:select" && "xccdf:" + "set-value" == "xccdf:set-value";
  }

  lemma DocumentLocalNames()
    ensures LocalName("xccdf:Tailoring") == "Tailoring" && LocalName("xccdf:Profile") == "Profile"
    ensures LocalName("xccdf:version") == "version" && LocalName("xccdf:benchmark") == "benchmark"
  {
    hide LocalName;
    LocalNameOf("Tailoring");
    LocalNameOf("Profile");
    LocalNameOf("version");
    LocalNameOf("benchmark");
    assert "xccdf:" + "Tailoring" == "xccdf:Tailoring" && "xccdf:" + "Profile" == "xccdf:Profile";
    assert "xccdf:" + "version" == "xccdf:version" && "xccdf:" + "benchmark" == "xccdf:benchmark";
  }

  lemma ReadOpOf(op: TailoringOp)
    ensures ReadOp(ElemOf(op)) == Delivered([op])
  {
    hide LocalName, IdRead;
    OpLocalNames();
    assert Map("true", LowerChar) == "true" && Map("false", LowerChar) == "false";
    var e := ElemOf(op);
    assert e.attrs[0] == ("idref", IdRead(op)) && Get(e.attrs, "idref") == IdRead(op);
    if op.action != SetValue {
      assert e.attrs[1..][0].0 == "selected";
      assert Get(e.attrs, "selected") == Get(e.attrs[1..], "selected");
    }
    assert [op][1..] == [];
  }

  lemma {:induction false} ReadOpsOf(ops: seq<TailoringOp>)
    ensures ReadOps(ElemsOf(ops)) == Delivered(ops)
  {
    hide ElemOf, ReadOp, IdRead, LineEnds, ValueOf;
    if ops != [] {
      ReadOpOf(ops[0]);
      ReadOpsOf(ops[1..]);
      assert [ops[0]][1..] == [];
      assert Delivered([ops[0]]) + Delivered(ops[1..]) == Delivered(ops);
    }
  }

  lemma SkipHeadings(children: seq<Elem>, kids: seq<Elem>, profileId: string)
    requires children
          == [Leaf("xccdf:title", LANG, "ks-gen tailored " + profileId)]
             + ([Leaf("xccdf:description", LANG, "Tailoring generated by ks-gen.")] + kids)
    ensures ReadOps(children) == ReadOps(kids)
  {
    assert LANG[1..] == [] && Get(LANG, "idref") == "";
    assert ReadOp(children[0]) == [] && ReadOp(children[1]) == [];
    assert children[1..][0] == children[1] && children[1..][1..] == kids;
  }

  // The profile is the third child of a printed document.
  lemma ProfileFound(profileId: string, scapContent: string, timestamp: string, kids: seq<Elem>, more: seq<Elem>)
    ensures var found := FindProfile(RootWith(scapContent, timestamp, [ProfileWith(profileId, kids)] + more));
      && found == Some(ProfileWith(profileId, kids))
      && ReadOps(found.value.children) == ReadOps(kids)
  {
    hide LocalName, ReadOp, ProfileAttrs, BenchmarkAttrs;
    DocumentLocalNames();
    var profile := ProfileWith(profileId, kids);
    var root := RootWith(scapContent, timestamp, [profile] + more);
    var children := root.children;
    assert children[1..][1..] == [profile] + more && children[1..][0] == children[1];
    assert FindProfile(profile) == Some(profile);
    assert FindInChildren([profile] + more) == Some(profile);
    assert FindProfile(children[0]) == None && FindProfile(children[1]) == None;
    assert FindInChildren(children[1..]) == Some(profile);
    SkipHeadings(profile.children, kids, profileId);
  }

  lemma ReadProfileOf(ops: seq<TailoringOp>, profileId: string)
    ensures ReadOps(ProfileElem(ops, profileId).children) == Delivered(ops)
    ensures Get(ProfileAttrs(profileId), "extends") == profileId
  {
    hide ReadOps, LocalName;
    ReadOpsOf(ops);
    SkipHeadings(ProfileElem(ops, profileId).children, ElemsOf(ops), profileId);
    var attrs := ProfileAttrs(profileId);
    assert attrs[1..][0] == ("extends", profileId);
  }

  lemma {:induction false} AllLegalIff(ops: seq<TailoringOp>)
    ensures AllLegal(ops) <==> forall op :: op in ops ==> LegalOp(op)
  {
    if ops != [] {
      AllLegalIff(ops[1..]);
      assert forall op :: op in ops <==> op == ops[0] || op in ops[1..];
    }
  }

  // Reading a printed tailoring, for every list of operations whose ids hold no
  // double quote: one id that is no attribute value, or one illegal character in
  // a value, makes the file unreadable, otherwise the operations come back in
  // order.
  lemma ParseUnquoted(ops: seq<TailoringOp>, profileId: string, scapContent: string, timestamp: string)
    requires NoQuotes(ops) && PlainMeta(profileId, scapContent, timestamp) && profileId != ""
    ensures Parse(TailoringText(ops, profileId, scapContent, timestamp))
         == if forall op :: op in ops ==> LegalOp(op) then Ok(ParsedTailoring(profileId, Delivered(ops)))
            else Err(NotWellFormed)
  {
    hide ParseDocument, TailoringText, FindProfile, ReadOps;
    DocumentOf(ops, profileId, scapContent, timestamp);
    AllLegalIff(ops);
    ProfileFound(profileId, scapContent, timestamp, ElemsOf(ops), []);
    ReadProfileOf(ops, profileId);
  }

  // ----- the exact round trip

  predicate Faithful(op: TailoringOp) {
    && op.ruleId != "" && PlainAttr(op.ruleId)
    && (op.action == SetValue <==> op.value.Some?)
    && (op.action == SetValue ==> Legal(ValueOf(op)) && '\r' !in ValueOf(op))
  }

  lemma {:induction false} LineEndsFixed(v: string)
    ensures '\r' !in LineEnds(v) && |LineEnds(v)| <= |v|
    ensures LineEnds(v) == v <==> '\r' !in v
  {
    if v != "" {
      LineEndsFixed(v[1..]);
      assert v == [v[0]] + v[1..];
      assert '\r' in v <==> v[0] == '\r' || '\r' in v[1..];
    }
  }

  lemma FaithfulIff(op: TailoringOp)
    requires '"' !in op.ruleId && LegalOp(op)
    ensures Faithful(op)
       <==> IdRead(op) != ""
            && op == TailoringOp(IdRead(op), op.action, if op.action == SetValue then Some(LineEnds(ValueOf(op))) else None)
  {
    hide AttrRead, PlainAttr, LineEnds;
    AttrReadFixed(op.ruleId);
    LineEndsFixed(ValueOf(op));
  }

  lemma FaithfulIsLegal(op: TailoringOp)
    requires Faithful(op)
    ensures '"' !in op.ruleId && LegalOp(op)
  {
    AttrReadFixed(op.ruleId);
  }

  lemma {:induction false} DeliveredSame(ops: seq<TailoringOp>)
    requires NoQuotes(ops) && forall op :: op in ops ==> LegalOp(op)
    ensures |Delivered(ops)| <= |ops|
    ensures Delivered(ops) == ops <==> forall op :: op in ops ==> Faithful(op)
  {
    hide IdRead, Faithful, LineEnds, ValueOf;
    if ops != [] {
      var op, more := ops[0], ops[1..];
      assert forall x :: x in ops <==> x == op || x in more;
      DeliveredSame(more);
      FaithfulIff(op);
      if IdRead(op) != "" {
        assert Delivered(ops)[0] == op <==> Faithful(op);
        assert Delivered(ops)[1..] == Delivered(more);
        assert Delivered(ops) == ops <==> Delivered(ops)[0] == op && Delivered(more) == more by {
          assert ops == [op] + more;
        }
      } else {
        assert Delivered(ops) == Delivered(more) && !Faithful(op);
      }
    }
  }

  // Printing then parsing gives back the profile and exactly the same
  // operations if and only if every operation names a rule, in an id without
  // markup or control characters, and every value is legal XML text without a
  // carriage return. Here for ids without a double quote.
  lemma RoundTripUnquoted(ops: seq<TailoringOp>, profileId: string, scapContent: string, timestamp: string)
    requires NoQuotes(ops) && PlainMeta(profileId, scapContent, timestamp) && profileId != ""
    ensures Parse(TailoringText(ops, profileId, scapContent, timestamp)) == Ok(ParsedTailoring(profileId, ops))
       <==> forall op :: op in ops ==> Faithful(op)
  {
    hide Parse, TailoringText;
    ParseUnquoted(ops, profileId, scapContent, timestamp);
    if forall op :: op in ops ==> LegalOp(op) {
      DeliveredSame(ops);
    } else {
      assert !(forall op :: op in ops ==> Faithful(op)) by {
        var op :| op in ops && !LegalOp(op);
        if Faithful(op) {
          FaithfulIsLegal(op);
        }
      }
    }
  }

  // A value holding a carriage return is printed as it is and comes back as a
  // line feed.
  lemma CarriageReturnIsLost(profileId: string, scapContent: string, timestamp: string)
    requires PlainMeta(profileId, scapContent, timestamp) && profileId != ""
    ensures Parse(TailoringText([TailoringOp("v", SetValue, Some("a\rb"))], profileId, scapContent, timestamp))
         == Ok(ParsedTailoring(profileId, [TailoringOp("v", SetValue, Some("a\nb"))]))
  {
    hide Parse, TailoringText;
    var op := TailoringOp("v", SetValue, Some("a\rb"));
    ReturnReadsAsFeed();
    AttrReadFixed("v");
    assert [op][1..] == [] && Delivered([op]) == [op.(value := Some("a\nb"))];
    assert Legal(ValueOf(op)) && PlainAttr("v");
    ParseUnquoted([op], profileId, scapContent, timestamp);
  }

  // An id holding an ampersand is printed as it is and makes the file unreadable.
  lemma AmpersandIsNotRead(profileId: string, scapContent: string, timestamp: string)
    requires PlainMeta(profileId, scapContent, timestamp) && profileId != ""
    ensures Parse(TailoringText([TailoringOp("a&b", Disable, None)], profileId, scapContent, timestamp)) == Err(NotWellFormed)
  {
    hide Parse, TailoringText;
    var op := TailoringOp("a&b", Disable, None);
    AmpersandIsNoEntity();
    assert op in [op] && !LegalOp(op);
    ParseUnquoted([op], profileId, scapContent, timestamp);
  }

  lemma AmpersandIsNoEntity()
    ensures AttrRead("a&b") == None && '"' !in "a&b"
  {
    assert "a&b"[1..] == "&b" && "&b"[1..] == "b";
    assert AttrRead("&b") == None;
  }

  // An id holding a character reference names another rule once it is read.
  lemma ReferenceIsReplaced(profileId: string, scapContent: string, timestamp: string)
    requires PlainMeta(profileId, scapContent, timestamp) && profileId != ""
    ensures Parse(TailoringText([TailoringOp("&#65;", Disable, None)], profileId, scapContent, timestamp))
         == Ok(ParsedTailoring(profileId, [TailoringOp("A", Disable, None)]))
  {
    hide Parse, TailoringText;
    var op := TailoringOp("&#65;", Disable, None);
    ReferenceReads();
    assert [op][1..] == [] && Delivered([op]) == [TailoringOp("A", Disable, None)];
    ParseUnquoted([op], profileId, scapContent, timestamp);
  }

  lemma ReferenceReads()
    ensures AttrRead("&#65;") == Some("A") && '"' !in "&#65;"
  {
    var v := "&#65;";
    assert v == "&" + "#65" + ";" + "";
    assert Entity(v) == Some(('A', "")) by {
      assert forall c :: c in "#65" ==> RefChar(c);
      ReferenceOf("#65", "");
      ReferredCode();
    }
    hide Entity;
    assert AttrRead("") == Some("");
    assert [ 'A' ] + "" == "A";
  }

  lemma ReferredCode()
    ensures Referred("#65") == Some('A')
  {
    assert "#65"[0] == '#' && "#65"[1] == '6' && |"#65"| == 3;
    assert "#65"[1..] == "65" && "65"[..1] == "6" && "6"[..0] == "";
    assert NumberIn("6", 10) == Some(6);
    assert NumberIn("65", 10) == Some(65);
  }

  lemma ReturnReadsAsFeed()
    ensures LineEnds("a\rb") == "a\nb"
  {
    assert "a\rb"[1..] == "\rb" && "\rb"[1..] == "b" && "b"[1..] == "";
    assert LineEnds("b") == "b";
    assert LineEnds("\rb") == "\nb";
  }
}
