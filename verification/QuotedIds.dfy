/** Why an id that holds a double quote never reads back: all the ids that a
    printed file can give together are shorter than the ids it was printed from. */
module QuotedIds {
  import opened Prelude
  import opened Escapes
  import opened TailoringXml
  import opened TailoringRoundTrip

  // ----- how far the parser reads

  // r is what is left of s after reading no `<`.
  ghost predicate Within(s: string, r: string) {
    |r| <= |s| && r == s[|s| - |r|..] && forall k :: 0 <= k < |s| - |r| ==> s[k] != '<'
  }

  predicate Suffix(s: string, r: string) {
    |r| <= |s| && r == s[|s| - |r|..]
  }

  lemma WithinThen(s: string, t: string, r: string)
    requires Within(s, t) && Within(t, r)
    ensures Within(s, r)
  {
    var a, b := |s| - |t|, |t| - |r|;
    forall k | 0 <= k < a + b
      ensures s[k] != '<'
    {
      if k >= a {
        assert t[k - a] == s[k];
      }
    }
  }

  lemma WithinDrop(s: string, n: nat)
    requires n <= |s| && forall k :: 0 <= k < n ==> s[k] != '<'
    ensures Within(s, s[n..])
  {
  }

  lemma SuffixThen(s: string, t: string, r: string)
    requires Suffix(s, t) && Suffix(t, r)
    ensures Suffix(s, r)
  {
  }

  lemma SpaceStep(s: string)
    ensures s != "" && XmlSpace(s[0]) ==> SkipSpace(s) == SkipSpace(s[1..]) && s[0] != '<'
    ensures s == "" || !XmlSpace(s[0]) ==> SkipSpace(s) == s
  {
  }

  lemma {:induction false} SpaceWithin(s: string)
    ensures Within(s, SkipSpace(s))
    ensures SkipSpace(s) != "" ==> !XmlSpace(SkipSpace(s)[0])
  {
    hide *;
    SpaceStep(s);
    if s != "" && XmlSpace(s[0]) {
      SpaceWithin(s[1..]);
      WithinDrop(s, 1);
      WithinThen(s, s[1..], SkipSpace(s));
    } else {
      WithinDrop(s, 0);
      assert s[0..] == s;
    }
  }

  lemma EntityWithin(s: string)
    requires Entity(s).Some?
    ensures Within(s, Entity(s).value.1) && |Entity(s).value.1| + 1 < |s|
    ensures forall k :: 0 <= k < |s| - |Entity(s).value.1| ==> s[k] != '"' && s[k] != '\''
  {
    hide Referred;
    var n := 1 + RefLen(s[1..]);
    assert forall k :: 1 <= k < n ==> s[k] == s[1..][k - 1] && RefChar(s[1..][k - 1]);
    assert s[0] == '&' && s[n] == ';' && Entity(s).value.1 == s[n + 1..];
  }

  // A value is no longer than what was read of it, which ends in the quote.
  lemma {:induction false} ValueWithin(s: string, quote: char)
    requires ParseAttrValue(s, quote).Some? && quote != '<'
    ensures var v := ParseAttrValue(s, quote).value;
      Within(s, v.1) && |v.0| + 1 + |v.1| <= |s| && s[|s| - |v.1| - 1] == quote
    decreases |s|
  {
    var v := ParseAttrValue(s, quote).value;
    WithinDrop(s, 1);
    if s[0] != quote {
      if s[0] == '&' {
        EntityWithin(s);
        var e := Entity(s).value.1;
        ValueWithin(e, quote);
        WithinThen(s, e, v.1);
        assert e[|e| - |v.1| - 1] == s[|s| - |v.1| - 1];
      } else {
        ValueWithin(s[1..], quote);
        WithinThen(s, s[1..], v.1);
      }
    }
  }

  // The parts of one attribute, or the end of the tag.
  datatype AttrParts = TagEnd(rest: string) | OneAttr(name: string, text: string, quote: char)

  // Where the parser stands after a name, an equals sign and a quote.
  function Parts(s: string): Option<AttrParts> {
    var t := SkipSpace(s);
    if t == "" then None
    else if t[0] == '>' || t[0] == '/' then Some(TagEnd(t))
    else
      var n := NameLen(t);
      var u := SkipSpace(t[n..]);
      if |t| == |s| || n == 0 || !("=" <= u) then None
      else
        var v := SkipSpace(u[1..]);
        if v == "" || (v[0] != '"' && v[0] != '\'') then None else Some(OneAttr(t[..n], v[1..], v[0]))
  }

  lemma AttrsByParts(s: string)
    ensures ParseAttrs(s).Some? ==>
      && Parts(s).Some?
      && (Parts(s).value.TagEnd? ==> ParseAttrs(s) == Some(([], Parts(s).value.rest)))
      && (Parts(s).value.OneAttr? ==>
            var p := Parts(s).value;
            var v := ParseAttrValue(p.text, p.quote);
            && v.Some?
            && ParseAttrs(v.value.1).Some?
            && ParseAttrs(s).value
            == ([(p.name, v.value.0)] + ParseAttrs(v.value.1).value.0, ParseAttrs(v.value.1).value.1))
  {
  }

  lemma PartsOf(s: string) returns (t: string, n: nat, u: string, v: string)
    requires Parts(s).Some? && Parts(s).value.OneAttr?
    ensures t == SkipSpace(s) && n == NameLen(t) && 0 < n <= |t| && |t| < |s|
    ensures u == SkipSpace(t[n..]) && u != "" && u[0] == '='
    ensures v == SkipSpace(u[1..]) && v != "" && (v[0] == '"' || v[0] == '\'')
    ensures Parts(s).value == OneAttr(t[..n], v[1..], v[0])
  {
    hide SkipSpace, NameLen;
    t := SkipSpace(s);
    n := NameLen(t);
    u := SkipSpace(t[n..]);
    v := SkipSpace(u[1..]);
  }

  lemma NameWithin(t: string)
    ensures NameLen(t) <= |t| && Within(t, t[NameLen(t)..])
  {
    WithinDrop(t, NameLen(t));
  }

  lemma OneWithin(s: string)
    requires s != "" && s[0] != '<'
    ensures Within(s, s[1..])
  {
  }

  lemma PartsWithin(s: string)
    requires Parts(s).Some?
    ensures Parts(s).value.TagEnd? ==>
      var r := Parts(s).value.rest; Within(s, r) && r != "" && (r[0] == '>' || r[0] == '/')
    ensures Parts(s).value.OneAttr? ==>
      var p := Parts(s).value; Within(s, p.text) && |p.text| < |s| && (p.quote == '"' || p.quote == '\'')
  {
    if Parts(s).value.OneAttr? {
      AttrWithin(s);
    } else {
      SpaceWithin(s);
    }
  }

  lemma AttrWithin(s: string)
    requires Parts(s).Some? && Parts(s).value.OneAttr?
    ensures var p := Parts(s).value; Within(s, p.text) && |p.text| < |s| && (p.quote == '"' || p.quote == '\'')
  {
    hide *;
    var t, n, u, v := PartsOf(s);
    SpaceWithin(s);
    NameWithin(t);
    SpaceWithin(t[n..]);
    OneWithin(u);
    SpaceWithin(u[1..]);
    OneWithin(v);
    WithinThen(s, t, t[n..]);
    WithinThen(s, t[n..], u);
    WithinThen(s, u, u[1..]);
    WithinThen(s, u[1..], v);
    WithinThen(s, v, v[1..]);
    WithinShorter(s, t);
    WithinShorter(t, t[n..]);
    WithinShorter(t[n..], u);
    WithinShorter(u[1..], v);
  }

  lemma WithinShorter(s: string, r: string)
    requires Within(s, r)
    ensures |r| <= |s|
  {
  }

  lemma {:induction false} AttrsWithin(s: string)
    requires ParseAttrs(s).Some?
    ensures var r := ParseAttrs(s).value.1; Within(s, r) && r != "" && (r[0] == '>' || r[0] == '/')
    decreases |s|
  {
    hide *;
    AttrsByParts(s);
    PartsWithin(s);
    if Parts(s).value.OneAttr? {
      var p := Parts(s).value;
      var v := ParseAttrValue(p.text, p.quote).value;
      ValueWithin(p.text, p.quote);
      AttrsWithin(v.1);
      WithinThen(s, p.text, v.1);
      WithinThen(s, v.1, ParseAttrs(s).value.1);
    }
  }

  lemma TextStep(s: string)
    requires ParseText(s).Some?
    ensures s != ""
    ensures s[0] == '<' ==> ParseText(s).value.1 == s
    ensures s[0] == '&' ==>
      Entity(s).Some? && ParseText(Entity(s).value.1).Some? && ParseText(s).value.1 == ParseText(Entity(s).value.1).value.1
    ensures s[0] != '<' && s[0] != '&' ==> ParseText(s[1..]).Some? && ParseText(s).value.1 == ParseText(s[1..]).value.1
  {
    hide Entity, XmlChar;
  }

  lemma {:induction false} TextSuffix(s: string)
    requires ParseText(s).Some?
    ensures Suffix(s, ParseText(s).value.1)
    decreases |s|
  {
    hide *;
    TextStep(s);
    DropSuffix(s, 0);
    if s[0] == '&' {
      EntityWithin(s);
      var e := Entity(s).value.1;
      TextSuffix(e);
      WithinSuffix(s, e);
      SuffixThen(s, e, ParseText(s).value.1);
    } else if s[0] != '<' {
      TextSuffix(s[1..]);
      DropSuffix(s, 1);
      SuffixThen(s, s[1..], ParseText(s).value.1);
    } else {
      assert s[0..] == s;
    }
  }

  lemma WithinSuffix(s: string, r: string)
    requires Within(s, r)
    ensures Suffix(s, r)
  {
  }

  // ----- how long an id an element can carry

  predicate TagEnds(rest: string) {
    ">" <= rest || "/>" <= rest
  }

  // The length of the `idref` of the tag that starts at s, if there is one.
  function TagId(s: string): nat {
    if !("<" <= s) || NameLen(s[1..]) == 0 then 0
    else
      match ParseAttrs(s[1 + NameLen(s[1..])..])
      case None => 0
      case Some(a) => if TagEnds(a.1) then |Get(a.0, "idref")| else 0
  }

  // The same for every tag that could start somewhere in s.
  function IdWeight(s: string): nat {
    if s == "" then 0 else TagId(s) + IdWeight(s[1..])
  }

  lemma {:induction false} WeightShrinks(s: string, r: string)
    requires Suffix(s, r)
    ensures IdWeight(r) <= IdWeight(s)
  {
    hide TagId;
    if |r| < |s| {
      WeightShrinks(s[1..], r);
    } else {
      assert r == s;
    }
  }

  function IdLen(ops: seq<TailoringOp>): nat {
    if ops == [] then 0 else |ops[0].ruleId| + IdLen(ops[1..])
  }

  lemma {:induction false} IdLenConcat(a: seq<TailoringOp>, b: seq<TailoringOp>)
    ensures IdLen(a + b) == IdLen(a) + IdLen(b)
  {
    if a == [] {
      assert a + b == b;
    } else {
      assert (a + b)[1..] == a[1..] + b;
      IdLenConcat(a[1..], b);
    }
  }

  lemma ReadOpLen(e: Elem)
    ensures IdLen(ReadOp(e)) <= |Get(e.attrs, "idref")|
  {
    hide LocalName;
    var op := ReadOp(e);
    if op != [] {
      assert |op| == 1 && op[1..] == [];
    }
  }

  // How an element is read, once its attributes are.
  lemma ElemByParts(s: string) returns (n: nat, a: (seq<Attr>, string))
    requires ParseElem(s).Some?
    ensures "<" <= s && n == NameLen(s[1..]) && 0 < n && 1 + n <= |s| && ParseAttrs(s[1 + n..]) == Some(a) && TagEnds(a.1)
    ensures ParseElem(s).value.0.attrs == a.0
    ensures "/>" <= a.1 ==> ParseElem(s).value.1 == a.1[2..]
    ensures !("/>" <= a.1) ==>
      && ParseText(a.1[1..]).Some?
      && ParseChildren(s[1..1 + n], ParseText(a.1[1..]).value.1).Some?
      && ParseElem(s).value.1 == ParseChildren(s[1..1 + n], ParseText(a.1[1..]).value.1).value.1
  {
    hide NameLen, ParseAttrs, ParseText, ParseChildren;
    n := NameLen(s[1..]);
    a := ParseAttrs(s[1 + n..]).value;
  }

  lemma TagIdIs(s: string, n: nat, a: (seq<Attr>, string))
    requires "<" <= s && n == NameLen(s[1..]) && 0 < n && 1 + n <= |s| && ParseAttrs(s[1 + n..]) == Some(a)
    ensures TagId(s) == if TagEnds(a.1) then |Get(a.0, "idref")| else 0
  {
    hide NameLen, ParseAttrs, Get;
  }

  lemma DropSuffix(s: string, n: nat)
    requires n <= |s|
    ensures Suffix(s, s[n..])
  {
  }

  // What the parser reads of one element.
  lemma ElemReads(s: string)
    requires ParseElem(s).Some?
    ensures var e := ParseElem(s).value;
      s != "" && |Get(e.0.attrs, "idref")| == TagId(s) && Suffix(s[1..], e.1)
    decreases |s|, 0
  {
    hide *;
    var n, a := ElemByParts(s);
    TagIdIs(s, n, a);
    AttrsWithin(s[1 + n..]);
    WithinSuffix(s[1 + n..], a.1);
    WithinShorter(s[1 + n..], a.1);
    assert s[1..][n..] == s[1 + n..];
    DropSuffix(s[1..], n);
    SuffixThen(s[1..], s[1 + n..], a.1);
    if "/>" <= a.1 {
      DropSuffix(a.1, 2);
      SuffixThen(s[1..], a.1, a.1[2..]);
    } else {
      TagEndsShort(a.1);
      DropSuffix(a.1, 1);
      TextSuffix(a.1[1..]);
      var t := ParseText(a.1[1..]).value.1;
      SuffixShorter(a.1[1..], t);
      ChildrenRead(s[1..1 + n], t);
      SuffixThen(s[1..], a.1, a.1[1..]);
      SuffixThen(s[1..], a.1[1..], t);
      SuffixThen(s[1..], t, ParseElem(s).value.1);
    }
  }

  lemma TagEndsShort(r: string)
    requires TagEnds(r)
    ensures r != ""
  {
  }

  lemma SuffixShorter(s: string, r: string)
    requires Suffix(s, r)
    ensures |r| <= |s|
  {
  }

  lemma ChildrenStep(tag: string, s: string)
    requires ParseChildren(tag, s).Some? && !("</" <= s)
    ensures ParseElem(s).Some? && ParseText(ParseElem(s).value.1).Some?
    ensures var e := ParseElem(s).value;
      var more := ParseChildren(tag, ParseText(e.1).value.1);
      more.Some? && ParseChildren(tag, s).value == ([e.0] + more.value.0, more.value.1)
    ensures |ParseText(ParseElem(s).value.1).value.1| < |s|
  {
    hide ParseElem, ParseText;
  }

  lemma ChildrenEnd(tag: string, s: string)
    requires ParseChildren(tag, s).Some? && "</" <= s
    ensures ParseChildren(tag, s).value.0 == [] && Suffix(s, ParseChildren(tag, s).value.1)
  {
    hide NameLen, SkipSpace, Within;
    var t := s[2 + NameLen(s[2..])..];
    SpaceWithin(t);
    WithinSuffix(t, SkipSpace(t));
  }

  lemma NothingRead()
    ensures IdLen(ReadOps([])) == 0
  {
  }

  // The ids of the elements that are read are within the weight of the text.
  lemma {:induction false} ChildrenRead(tag: string, s: string)
    requires ParseChildren(tag, s).Some?
    ensures Suffix(s, ParseChildren(tag, s).value.1)
    ensures IdLen(ReadOps(ParseChildren(tag, s).value.0)) <= IdWeight(s)
    decreases |s|, 1
  {
    hide *;
    if "</" <= s {
      ChildrenEnd(tag, s);
      NothingRead();
    } else {
      ChildrenStep(tag, s);
      var e := ParseElem(s).value;
      ElemReads(s);
      TextSuffix(e.1);
      var tail := ParseText(e.1).value.1;
      ChildrenRead(tag, tail);
      var kids := ParseChildren(tag, tail).value;
      SuffixThen(s[1..], e.1, tail);
      OneMore(s, e.0, tail, kids.0);
      DropSuffix(s, 1);
      SuffixThen(s, s[1..], tail);
      SuffixThen(s, tail, kids.1);
    }
  }

  lemma OneMore(s: string, e: Elem, tail: string, kids: seq<Elem>)
    requires s != "" && |Get(e.attrs, "idref")| == TagId(s) && Suffix(s[1..], tail)
    requires IdLen(ReadOps(kids)) <= IdWeight(tail)
    ensures IdLen(ReadOps([e] + kids)) <= IdWeight(s)
  {
    hide ReadOp, TagId, Get;
    ReadOpLen(e);
    WeightShrinks(s[1..], tail);
    assert ([e] + kids)[1..] == kids;
    IdLenConcat(ReadOp(e), ReadOps(kids));
  }

  // ----- what follows a printed id

  // How many characters come before the first `<`.
  function Lead(s: string): (n: nat)
    ensures n <= |s|
  {
    if s == "" || s[0] == '<' then 0 else 1 + Lead(s[1..])
  }

  lemma {:induction false} LeadWithin(s: string, r: string)
    requires Within(s, r)
    ensures Lead(s) == |s| - |r| + Lead(r)
  {
    if |r| < |s| {
      assert s[0] != '<';
      assert forall k :: 0 <= k < |s[1..]| - |r| ==> s[1..][k] == s[k + 1];
      LeadWithin(s[1..], r);
    } else {
      assert r == s;
    }
  }

  // The attributes of a tag that ends.
  predicate Done(r: Option<(seq<Attr>, string)>) {
    r.Some? && TagEnds(r.value.1)
  }

  // What is printed after an id: its closing quote, and no text that could give
  // an `idref` to a tag begun inside the id.
  predicate Closer(z: string) {
    && z != "" && z[0] == '"'
    && (Done(ParseAttrs(z[1..])) ==> Get(ParseAttrs(z[1..]).value.0, "idref") == "")
    && (ParseAttrValue(z[1..], '"').Some? ==> !Done(ParseAttrs(ParseAttrValue(z[1..], '"').value.1)))
    && (ParseAttrValue(z, '\'').Some? ==> !Done(ParseAttrs(ParseAttrValue(z, '\'').value.1)))
  }

  lemma NoSpaceFirst(z: string)
    requires z != "" && z[0] == '"'
    ensures SkipSpace(z) == z && SkipSpace("") == ""
  {
    assert !XmlSpace('"');
  }

  lemma {:induction false} SpaceSplit(y: string, z: string)
    requires z != "" && z[0] == '"'
    ensures SkipSpace(y + z) == SkipSpace(y) + z
  {
    if y == "" {
      assert y + z == z && "" + z == z;
      NoSpaceFirst(z);
    } else if XmlSpace(y[0]) {
      assert (y + z)[1..] == y[1..] + z;
      SpaceSplit(y[1..], z);
    }
  }

  lemma {:induction false} NameSplit(y: string, z: string)
    requires z != "" && z[0] == '"'
    ensures NameLen(y + z) == NameLen(y)
  {
    if y == "" {
      assert y + z == z;
    } else if NameChar(y[0]) {
      assert (y + z)[1..] == y[1..] + z;
      NameSplit(y[1..], z);
    }
  }

  // One character of a value, or one entity reference.
  lemma ValueStep(s: string, quote: char)
    requires ParseAttrValue(s, quote).Some?
    ensures s != "" && s[0] != '<'
    ensures s[0] == quote ==> ParseAttrValue(s, quote) == Some(("", s[1..]))
    ensures s[0] != quote && s[0] == '&' ==>
      && Entity(s).Some?
      && ParseAttrValue(Entity(s).value.1, quote).Some?
      && var v := ParseAttrValue(Entity(s).value.1, quote).value;
         ParseAttrValue(s, quote) == Some(([Entity(s).value.0] + v.0, v.1))
    ensures s[0] != quote && s[0] != '&' ==>
      && ParseAttrValue(s[1..], quote).Some?
      && var v, w := ParseAttrValue(s[1..], quote).value, ParseAttrValue(s, quote).value;
         w.1 == v.1 && |w.0| <= |v.0| + 1
  {
    hide Entity;
  }

  lemma EntitySplit(y: string, z: string)
    requires z != "" && z[0] == '"' && Entity(y + z).Some?
    ensures Entity(y).Some? && Entity(y + z).value.1 == Entity(y).value.1 + z
  {
    hide Entity;
    assert z == "\"" + z[1..];
    assert y + "\"" + z[1..] == y + z;
    EntityBefore(y, z[1..]);
    assert Entity(y).value.1 + "\"" + z[1..] == Entity(y).value.1 + z;
  }

  lemma LeadStep(y: string)
    requires y != "" && y[0] != '<'
    ensures Lead(y) == 1 + Lead(y[1..])
  {
  }

  // A value begun inside y ends inside it, or where y ends, or beyond.
  lemma {:induction false} ValueSplit(y: string, z: string, quote: char) returns (inside: bool, rest: string)
    requires z != "" && z[0] == '"' && (quote == '"' || quote == '\'') && ParseAttrValue(y + z, quote).Some?
    ensures var v := ParseAttrValue(y + z, quote).value;
      && (inside ==> v.1 == rest + z && Within(y, rest) && |v.0| + |rest| < |y|)
      && (!inside ==> Lead(y) == |y| && quote !in y)
      && (!inside && quote == '"' ==> v.1 == z[1..] && |v.0| <= |y|)
      && (!inside && quote == '\'' ==> ParseAttrValue(z, quote).Some? && v.1 == ParseAttrValue(z, quote).value.1)
    decreases |y|
  {
    hide *;
    var s := y + z;
    ValueStep(s, quote);
    if y == "" {
      assert s == z;
      NoLead();
      return false, "";
    }
    assert s[0] == y[0] && s[1..] == y[1..] + z;
    OneWithin(y);
    LeadStep(y);
    if y[0] == quote {
      return true, y[1..];
    }
    if y[0] == '&' {
      EntitySplit(y, z);
      var e := Entity(y).value.1;
      EntityWithin(y);
      LeadWithin(y, e);
      inside, rest := ValueSplit(e, z, quote);
      if inside {
        WithinThen(y, e, rest);
      } else {
        NotInEither(y, e, quote);
      }
    } else {
      inside, rest := ValueSplit(y[1..], z, quote);
      if inside {
        WithinThen(y, y[1..], rest);
      }
    }
  }

  lemma NotInEither(y: string, e: string, quote: char)
    requires Within(y, e) && quote !in e && forall k :: 0 <= k < |y| - |e| ==> y[k] != quote
    ensures quote !in y
  {
    var n := |y| - |e|;
    forall k | 0 <= k < |y|
      ensures y[k] != quote
    {
      if k >= n {
        assert y[k] == e[k - n] && e[k - n] in e;
      }
    }
  }

  lemma NoLead()
    ensures Lead("") == 0
  {
  }

  lemma GetFirst(name: string, v: string, more: seq<Attr>)
    ensures Get([(name, v)] + more, "idref") == if name == "idref" then v else Get(more, "idref")
  {
    assert ([(name, v)] + more)[1..] == more;
  }

  // The `idref` of a tag whose attributes begin with y, inside an id.
  lemma {:induction false} AttrsBound(y: string, z: string)
    requires Closer(z) && Done(ParseAttrs(y + z))
    ensures |Get(ParseAttrs(y + z).value.0, "idref")| <= Lead(y)
    decreases |y|, 1
  {
    hide *;
    DoneSome(y + z);
    AttrsByParts(y + z);
    DoneIs(ParseAttrs(y + z));
    var p := Parts(y + z).value;
    if p.OneAttr? {
      DoneIs(ParseAttrs(ParseAttrValue(p.text, p.quote).value.1));
      var y3 := PartsSplit(y, z);
      ValueBound(y3, z, p);
      LeadWithin(y, y3);
    } else {
      GetNothing();
    }
  }

  lemma GetNothing()
    ensures Get([], "idref") == ""
  {
  }

  lemma DoneIs(r: Option<(seq<Attr>, string)>)
    ensures Done(r) <==> r.Some? && TagEnds(r.value.1)
  {
  }

  lemma DoneSome(s: string)
    ensures Done(ParseAttrs(s)) ==> ParseAttrs(s).Some?
  {
    hide ParseAttrs;
  }

  // One attribute from its quote on; `y3` is what is left of the id there.
  lemma PartsSplit(y: string, z: string) returns (y3: string)
    requires Closer(z) && Parts(y + z).Some? && Parts(y + z).value.OneAttr?
    ensures Within(y, y3) && |y3| < |y|
    ensures var p := Parts(y + z).value; [p.quote] + p.text == y3 + z && (p.quote == '"' || p.quote == '\'')
  {
    hide *;
    CloserStarts(z);
    var t, n, u, v := PartsOf(y + z);
    SpaceSplit(y, z);
    var y1 := SkipSpace(y);
    SpaceWithin(y);
    NameSplit(y1, z);
    NameWithin(y1);
    assert t[n..] == y1[n..] + z;
    SpaceSplit(y1[n..], z);
    var y2 := SkipSpace(y1[n..]);
    SpaceWithin(y1[n..]);
    assert u == y2 + z;
    StartsInside(y2, z);
    OneWithin(y2);
    assert u[1..] == y2[1..] + z;
    SpaceSplit(y2[1..], z);
    y3 := SkipSpace(y2[1..]);
    SpaceWithin(y2[1..]);
    WithinThen(y, y1, y1[n..]);
    WithinThen(y, y1[n..], y2);
    WithinThen(y, y2, y2[1..]);
    WithinThen(y, y2[1..], y3);
    WithinShorter(y, y1);
    WithinShorter(y1[n..], y2);
    WithinShorter(y2[1..], y3);
    assert v == y3 + z && [v[0]] + v[1..] == v;
  }

  lemma StartsInside(y: string, z: string)
    requires z != ""
    ensures (y + z)[0] != z[0] ==> y != ""
  {
    assert "" + z == z;
  }

  lemma CloserStarts(z: string)
    requires Closer(z)
    ensures z != "" && z[0] == '"' && !XmlSpace('"')
  {
  }

  // No attribute of a tag that ends begins at the closing quote.
  lemma NotAtQuote(z: string, p: AttrParts)
    requires Closer(z) && p.OneAttr? && [p.quote] + p.text == z && ParseAttrValue(p.text, p.quote).Some?
    ensures !Done(ParseAttrs(ParseAttrValue(p.text, p.quote).value.1))
  {
    hide ParseAttrs, ParseAttrValue;
    assert p.quote == ([p.quote] + p.text)[0] && p.text == ([p.quote] + p.text)[1..];
  }

  lemma FirstOff(c: char, text: string, y: string, z: string)
    requires [c] + text == y + z && y != ""
    ensures c == y[0] && text == y[1..] + z
  {
    assert c == ([c] + text)[0] && text == ([c] + text)[1..];
  }

  lemma CloserStops(z: string)
    requires Closer(z)
    ensures z != ""
    ensures Done(ParseAttrs(z[1..])) ==> ParseAttrs(z[1..]).Some? && Get(ParseAttrs(z[1..]).value.0, "idref") == ""
    ensures ParseAttrValue(z, '\'').Some? ==> !Done(ParseAttrs(ParseAttrValue(z, '\'').value.1))
  {
    hide ParseAttrs, ParseAttrValue, Get, TagEnds;
  }

  lemma ValueBound(y3: string, z: string, p: AttrParts)
    requires Closer(z) && p.OneAttr? && [p.quote] + p.text == y3 + z && (p.quote == '"' || p.quote == '\'')
    requires ParseAttrValue(p.text, p.quote).Some?
    requires var v := ParseAttrValue(p.text, p.quote).value; Done(ParseAttrs(v.1))
    ensures var v := ParseAttrValue(p.text, p.quote).value;
      |Get([(p.name, v.0)] + ParseAttrs(v.1).value.0, "idref")| <= Lead(y3)
    decreases |y3|, 0
  {
    hide *;
    var v := ParseAttrValue(p.text, p.quote).value;
    DoneSome(v.1);
    CloserStarts(z);
    CloserStops(z);
    GetFirst(p.name, v.0, ParseAttrs(v.1).value.0);
    assert "" + z == z;
    if y3 == "" {
      NotAtQuote(z, p);
    } else {
      var y4 := y3[1..];
      FirstOff(p.quote, p.text, y3, z);
      OneWithin(y3);
      LeadWithin(y3, y4);
      var inside, rest := ValueSplit(y4, z, p.quote);
      if inside {
        LeadWithin(y4, rest);
        WithinShorter(y4, rest);
        AttrsBound(rest, z);
      }
    }
  }

  // ----- the weight of the printed operations

  lemma TagIdBound(y: string, z: string)
    requires Closer(z) && y != "" && y[0] == '<'
    ensures TagId(y + z) <= Lead(y[1..])
  {
    hide *;
    CloserStarts(z);
    var s, y1 := y + z, y[1..];
    assert s[0] == y[0] && s[1..] == y1 + z;
    NameSplit(y1, z);
    NameWithin(y1);
    var n := NameLen(y1);
    assert s[1 + n..] == y1[n..] + z;
    LeadWithin(y1, y1[n..]);
    TagIdByAttrs(s, n);
    DoneSome(y1[n..] + z);
    if Done(ParseAttrs(y1[n..] + z)) {
      AttrsBound(y1[n..], z);
    }
  }

  lemma TagIdByAttrs(s: string, n: nat)
    requires "<" <= s && n == NameLen(s[1..]) && 1 + n <= |s|
    ensures TagId(s) == if n > 0 && Done(ParseAttrs(s[1 + n..])) then |Get(ParseAttrs(s[1 + n..]).value.0, "idref")| else 0
  {
    hide NameLen, ParseAttrs, Get, TagEnds;
  }

  lemma WeightStep(s: string)
    requires s != ""
    ensures IdWeight(s) == TagId(s) + IdWeight(s[1..])
    ensures s[0] != '<' ==> TagId(s) == 0
  {
  }

  // Text without `<` weighs nothing.
  lemma {:induction false} WeightPast(w: string, s: string)
    requires '<' !in w
    ensures IdWeight(w + s) == IdWeight(s)
  {
    if w == "" {
      assert w + s == s;
    } else {
      assert (w + s)[1..] == w[1..] + s && w[0] in w;
      hide TagId;
      WeightStep(w + s);
      WeightPast(w[1..], s);
    }
  }

  // Tags begun inside y weigh less than what of it follows its first `<`.
  lemma {:induction false} InnerWeight(y: string, z: string)
    requires Closer(z)
    ensures Lead(y) == |y| ==> IdWeight(y + z) == IdWeight(z)
    ensures Lead(y) < |y| ==> IdWeight(y + z) + Lead(y) < |y| + IdWeight(z)
  {
    hide *;
    if y == "" {
      NoLead();
      assert y + z == z;
    } else {
      assert (y + z)[1..] == y[1..] + z && (y + z)[0] == y[0];
      WeightStep(y + z);
      InnerWeight(y[1..], z);
      if y[0] == '<' {
        LeadStops(y);
        TagIdBound(y, z);
      } else {
        LeadStep(y);
      }
    }
  }

  lemma LeadStops(y: string)
    requires y != "" && y[0] == '<'
    ensures Lead(y) == 0
  {
  }

  lemma ValueStops(w: string, r: string, quote: char)
    requires '<' !in w && quote !in w && quote != '<'
    ensures ParseAttrValue(w + "<" + r, quote) == None
  {
    var s := w + "<" + r;
    assert s[|w|] == '<';
    assert forall k :: 0 <= k < |w| ==> s[k] == w[k] && w[k] in w;
    hide ParseAttrValue;
    if ParseAttrValue(s, quote).Some? {
      ValueWithin(s, quote);
    }
  }

  // A tag cannot end before `<` in text without `>`.
  lemma NeverEnds(w: string, r: string)
    requires '>' !in w
    ensures !Done(ParseAttrs(w + "<" + r))
  {
    var s := w + "<" + r;
    assert s[|w|] == '<';
    assert forall k :: 0 <= k < |w| ==> s[k] == w[k] && w[k] in w;
    hide ParseAttrs;
    if ParseAttrs(s).Some? {
      AttrsWithin(s);
      var a := ParseAttrs(s).value.1;
      var c := |s| - |a|;
      assert a[0] == s[c] && (|a| > 1 ==> a[1] == s[c + 1]);
      assert c <= |w|;
    }
  }

  lemma {:induction false} EscapedHasNo(v: string)
    ensures '<' !in MapChars(v, XmlEntity) && '>' !in MapChars(v, XmlEntity) && '"' !in MapChars(v, XmlEntity)
  {
    if v != "" {
      EscapedHasNo(v[1..]);
    }
  }

  // Text up to the next tag, with no quote in it.
  ghost predicate Gap(more: string) {
    exists n :: GapTo(more, n)
  }

  predicate GapTo(more: string, n: int) {
    0 <= n < |more| && more[n] == '<' && '<' !in more[..n] && '\'' !in more[..n]
  }

  lemma NoAttrs(s: string)
    requires s != "" && NameChar(s[0])
    ensures ParseAttrs(s) == None
  {
    assert !XmlSpace(s[0]) && s[0] != '>' && s[0] != '/';
    assert SkipSpace(s) == s;
    AttrsByParts(s);
  }

  lemma SelectedIsPlain(selected: string)
    requires selected == "true" || selected == "false"
    ensures PlainAttrs([("selected", selected)]) && AttrRead(" selected=").Some? && '"' !in " selected="
    ensures NameChar(selected[0]) && '<' !in selected && '\'' !in selected
  {
    assert PlainAttr(" selected=");
    AttrReadFixed(" selected=");
  }

  lemma GapIs(more: string) returns (n: nat)
    requires Gap(more)
    ensures n < |more| && more == more[..n] + "<" + more[n + 1..] && '<' !in more[..n] && '\'' !in more[..n]
  {
    n :| GapTo(more, n);
  }

  lemma SelectedText(selected: string)
    ensures AttrsText([("selected", selected)]) == " selected=\"" + selected + "\""
  {
    assert [("selected", selected)][1..] == [];
    assert AttrsText([]) == "";
  }

  lemma NoIdref(selected: string)
    ensures Get([("selected", selected)], "idref") == ""
  {
    assert "selected" != "idref" by {
      assert |"selected"| == 8;
    }
    assert [("selected", selected)][1..] == [];
  }

  lemma ReadTo(v: string, rest: string)
    requires '"' !in v && AttrRead(v).Some?
    ensures ParseAttrValue(v + "\"" + rest, '"').Some? && ParseAttrValue(v + "\"" + rest, '"').value.1 == rest
  {
    AttrValueOf(v, rest);
    hide AttrRead, ParseAttrValue;
  }

  lemma CloserFrom(z: string)
    requires z != "" && z[0] == '"'
    requires ParseAttrs(z[1..]).Some? ==> Get(ParseAttrs(z[1..]).value.0, "idref") == ""
    requires ParseAttrValue(z[1..], '"').Some? ==> !Done(ParseAttrs(ParseAttrValue(z[1..], '"').value.1))
    requires ParseAttrValue(z, '\'').Some? ==> !Done(ParseAttrs(ParseAttrValue(z, '\'').value.1))
    ensures Closer(z)
  {
    hide ParseAttrs, ParseAttrValue, Get, TagEnds;
  }

  lemma NoneNotDone()
    ensures !Done(None)
  {
  }

  // The same text, cut at each place where the parser may stand.
  lemma SelectPieces(selected: string, more: string, n: nat)
    requires selected != "" && n < |more| && more == more[..n] + "<" + more[n + 1..]
    ensures var z := "\" selected=\"" + selected + "\"/>" + more;
      && z != "" && z[0] == '"'
      && z[1..] == " selected=\"" + selected + "\"" + ("/>" + more)
      && z[1..] == " selected=" + "\"" + (selected + "\"" + ("/>" + more))
      && (selected + "\"" + ("/>" + more))[0] == selected[0]
      && z == ("\" selected=\"" + selected + "\"/>" + more[..n]) + "<" + more[n + 1..]
  {
  }

  lemma SelectCloser(selected: string, more: string)
    requires (selected == "true" || selected == "false") && Gap(more)
    ensures Closer("\" selected=\"" + selected + "\"/>" + more)
  {
    hide *;
    SelectedIsPlain(selected);
    var end := "/>" + more;
    var rest := selected + "\"" + end;
    var n := GapIs(more);
    SelectPieces(selected, more, n);
    SelectedEnds(selected, end);
    NoMarkIn(selected, more[..n]);
    ReadTo(" selected=", rest);
    NoAttrs(rest);
    NoneNotDone();
    ValueStops("\" selected=\"" + selected + "\"/>" + more[..n], more[n + 1..], '\'');
    CloserFrom("\" selected=\"" + selected + "\"/>" + more);
  }

  lemma NoMarkIn(selected: string, gap: string)
    requires '<' !in selected && '\'' !in selected && '<' !in gap && '\'' !in gap
    ensures var w := "\" selected=\"" + selected + "\"/>" + gap; '<' !in w && '\'' !in w
  {
    assert '<' !in "\" selected=\"" && '\'' !in "\" selected=\"";
    assert '<' !in "\"/>" && '\'' !in "\"/>";
  }

  lemma SelectedEnds(selected: string, end: string)
    requires (selected == "true" || selected == "false") && "/>" <= end
    ensures var s := " selected=\"" + selected + "\"" + end;
      ParseAttrs(s) == Some(([("selected", selected)], end)) && Get([("selected", selected)], "idref") == ""
  {
    hide *;
    SelectedIsPlain(selected);
    SelectedText(selected);
    PlainAttrsRead([("selected", selected)]);
    AttrsOf([("selected", selected)], end);
    NoIdref(selected);
  }

  lemma EmptyAttrs(s: string)
    requires ">" <= s
    ensures ParseAttrs(s) == Some(([], s)) && Get([], "idref") == ""
  {
    assert !XmlSpace('>');
    assert SkipSpace(s) == s;
  }

  // Where a single quote in the text of a set-value leaves the parser.
  lemma CutAfter(escaped: string, r: string, v: string) returns (w: string)
    requires '>' !in escaped
    requires var z := "\">" + escaped + "<" + r; Within(z, v) && |v| < |z| && z[|z| - |v| - 1] == '\''
    ensures '>' !in w && v == w + "<" + r
  {
    var open := "\">" + escaped;
    var z := open + "<" + r;
    var c := |z| - |v|;
    assert z[0] == '"' && z[1] == '>' && z[|open|] == '<';
    assert 2 < c <= |open|;
    w := open[c..];
    assert w == escaped[c - 2..];
  }

  // After a set-value's id: its text cannot end a tag, nor hold the quote.
  lemma ValueCloser(escaped: string, r: string)
    requires '<' !in escaped && '>' !in escaped && '"' !in escaped
    ensures Closer("\">" + escaped + "<" + r)
  {
    hide *;
    var z := "\">" + escaped + "<" + r;
    var inner := ">" + escaped;
    assert z[0] == '"' && z[1..] == inner + "<" + r && z[1] == '>';
    assert '<' !in inner && '"' !in inner;
    EmptyAttrs(z[1..]);
    ValueStops(inner, r, '"');
    NoneNotDone();
    if ParseAttrValue(z, '\'').Some? {
      ValueWithin(z, '\'');
      var w := CutAfter(escaped, r, ParseAttrValue(z, '\'').value.1);
      NeverEnds(w, r);
    }
    CloserFrom(z);
  }

  // ----- the weight of one printed operation

  const SELECT := "xccdf:select"
  const SET_VALUE := "xccdf:set-value"

  function TagOf(op: TailoringOp): string {
    if op.action == SetValue then SET_VALUE else SELECT
  }

  function Opening(op: TailoringOp): string {
    "<" + TagOf(op) + " idref=\""
  }

  const CLOSE_VALUE := "/" + SET_VALUE + ">"

  // What follows the id, up to the end of the operation.
  function AfterId(op: TailoringOp): string {
    match op.action
    case Disable => "\" selected=\"" + "false" + "\"/>"
    case Select => "\" selected=\"" + "true" + "\"/>"
    case SetValue => "\">" + MapChars(ValueOf(op), XmlEntity) + "<" + CLOSE_VALUE
  }

  lemma OpTagParts(op: TailoringOp)
    ensures OpTag(op) == Opening(op) + op.ruleId + AfterId(op)
  {
    hide AttrsText, XmlEscape, MapChars;
    match op.action
    case SetValue => SetValueParts(op);
    case Disable => SelectText(op.ruleId, "false");
    case Select => SelectText(op.ruleId, "true");
  }

  lemma SetValueParts(op: TailoringOp)
    requires op.action == SetValue
    ensures OpTag(op) == Opening(op) + op.ruleId + AfterId(op)
  {
    IdText(op.ruleId);
    XmlEscapeIsMap(ValueOf(op));
    NoValue();
    hide AttrsText, XmlEscape, MapChars;
    Spliced(SET_VALUE, op.ruleId, MapChars(ValueOf(op), XmlEntity));
  }

  lemma IdText(id: string)
    ensures AttrsText([("idref", id)]) == " idref=\"" + id + "\""
  {
    assert [("idref", id)][1..] == [];
  }

  lemma Spliced(tag: string, id: string, escaped: string)
    ensures "<" + tag + (" idref=\"" + id + "\"") + ">" + escaped + ("</" + tag + ">")
         == "<" + tag + " idref=\"" + id + ("\">" + escaped + "<" + ("/" + tag + ">"))
  {
  }

  lemma SelectText(id: string, selected: string)
    ensures AttrsText([("idref", id), ("selected", selected)]) == " idref=\"" + id + "\" selected=\"" + selected + "\""
  {
    SelectedText(selected);
    assert [("idref", id), ("selected", selected)][1..] == [("selected", selected)];
  }

  lemma OpCloser(op: TailoringOp, more: string)
    requires Gap(more)
    ensures Closer(AfterId(op) + more)
    ensures IdWeight(AfterId(op) + more) == IdWeight(more)
  {
    hide Closer, IdWeight, Gap;
    match op.action
    case Disable =>
      SelectCloser("false", more);
      WeightPast("\" selected=\"" + "false" + "\"/>", more);
    case Select =>
      SelectCloser("true", more);
      WeightPast("\" selected=\"" + "true" + "\"/>", more);
    case SetValue =>
      SetValueCloser(op, more);
  }

  lemma SetValueCloser(op: TailoringOp, more: string)
    requires op.action == SetValue
    ensures Closer(AfterId(op) + more)
    ensures IdWeight(AfterId(op) + more) == IdWeight(more)
  {
    var escaped, close := MapChars(ValueOf(op), XmlEntity), CLOSE_VALUE;
    EscapedHasNo(ValueOf(op));
    hide Closer, IdWeight, MapChars;
    assert AfterId(op) == "\">" + escaped + "<" + close;
    Regrouped("\">" + escaped, close, more);
    ValueCloser(escaped, close + more);
    WeightPast("\">" + escaped, "<" + (close + more));
    CloseWeight(close, more);
  }

  lemma Regrouped(w: string, close: string, more: string)
    ensures w + "<" + close + more == w + "<" + (close + more) == w + ("<" + (close + more))
  {
  }

  lemma CloseWeight(close: string, more: string)
    requires close != "" && close[0] == '/' && '<' !in close
    ensures IdWeight("<" + (close + more)) == IdWeight(more)
  {
    var s := "<" + (close + more);
    assert s[1..] == close + more && s[1] == '/';
    assert !NameChar('/');
    WeightPast(close, more);
  }

  lemma NotSpaced(s: string)
    requires s != "" && (s[0] == 'i' || s[0] == '=' || s[0] == '"')
    ensures SkipSpace(s) == s && SkipSpace(" " + s) == s
  {
    assert (" " + s)[1..] == s;
  }

  lemma PartsFrom(s: string, t: string, n: nat, u: string, v: string)
    requires SkipSpace(s) == t && |t| < |s| && t != "" && t[0] != '>' && t[0] != '/'
    requires NameLen(t) == n && 0 < n <= |t| && SkipSpace(t[n..]) == u && "=" <= u && SkipSpace(u[1..]) == v
    requires v != "" && v[0] == '"'
    ensures Parts(s) == Some(OneAttr(t[..n], v[1..], '"'))
  {
    hide SkipSpace, NameLen;
  }

  lemma IdrefName(u: string)
    requires "=" <= u
    ensures NameLen("idref" + u) == 5 && ("idref" + u)[5..] == u && ("idref" + u)[..5] == "idref"
  {
    assert !NameChar('=');
    assert forall c :: c in "idref" ==> NameChar(c);
    NameLenOf("idref", u);
  }

  // The first attribute that is printed, and where its value begins.
  lemma OpeningParts(text: string)
    ensures Parts(" idref=\"" + text) == Some(OneAttr("idref", text, '"'))
  {
    hide SkipSpace, NameLen, Parts;
    var v := "\"" + text;
    var u := "=" + v;
    var t := "idref" + u;
    var s := " idref=\"" + text;
    assert s == " " + t && u[1..] == v && v[1..] == text;
    NotSpaced(t);
    NotSpaced(u);
    NotSpaced(v);
    IdrefName(u);
    PartsFrom(s, t, 5, u, v);
  }

  // How long an id the printed tag itself can carry.
  lemma PrintedTagId(op: TailoringOp, z: string)
    requires Closer(z)
    ensures var text := op.ruleId + z;
      var t := TagId(Opening(op) + text);
      t > 0 ==> ParseAttrValue(text, '"').Some? && t == |ParseAttrValue(text, '"').value.0|
  {
    var text := op.ruleId + z;
    var s, attrs := Opening(op) + text, " idref=\"" + text;
    OpeningSplit(op, text);
    hide *;
    OpeningParts(text);
    AttrsByParts(attrs);
    TagIdByAttrs(s, |TagOf(op)|);
    DoneSome(attrs);
    if Done(ParseAttrs(attrs)) {
      var v := ParseAttrValue(text, '"').value;
      GetFirst("idref", v.0, ParseAttrs(v.1).value.0);
    }
  }

  lemma OpeningSplit(op: TailoringOp, text: string)
    ensures var s := Opening(op) + text;
      && "<" <= s
      && NameLen(s[1..]) == |TagOf(op)|
      && 1 + |TagOf(op)| <= |s|
      && s[1 + |TagOf(op)|..] == " idref=\"" + text
      && s[1..] == (TagOf(op) + " idref=\"") + text
  {
    var tag, attrs := TagOf(op), " idref=\"" + text;
    assert Name(tag) by {
      TagNames();
    }
    hide SELECT, SET_VALUE, TagOf, Name;
    assert Opening(op) + text == "<" + (tag + attrs);
    NameOf(tag, attrs);
  }

  lemma NameOf(tag: string, attrs: string)
    requires Name(tag) && " " <= attrs
    ensures NameLen(tag + attrs) == |tag|
  {
    assert !NameChar(' ');
    NameLenOf(tag, attrs);
  }

  lemma TagNames()
    ensures Name(SELECT) && Name(SET_VALUE) && '<' !in SELECT && '<' !in SET_VALUE
  {
  }

  // An operation weighs no more than its id, and less when a double quote cuts
  // the id short.
  lemma OpWeight(op: TailoringOp, more: string)
    requires Gap(more)
    ensures IdWeight(OpTag(op) + more) <= |op.ruleId| + IdWeight(more)
    ensures '"' in op.ruleId ==> IdWeight(OpTag(op) + more) < |op.ruleId| + IdWeight(more)
  {
    hide *;
    var id, z := op.ruleId, AfterId(op) + more;
    OpTagParts(op);
    OpCloser(op, more);
    CloserStarts(z);
    var text := id + z;
    var s := Opening(op) + text;
    assert OpTag(op) + more == s;
    OpeningSplit(op, text);
    WeightStep(s);
    TagHasNo(op);
    WeightPast(TagOf(op) + " idref=\"", text);
    InnerWeight(id, z);
    PrintedTagId(op, z);
    if TagId(s) > 0 {
      var inside, rest := ValueSplit(id, z, '"');
      if inside {
        WithinShorter(id, rest);
        LeadWithin(id, rest);
      }
    }
  }

  lemma TagHasNo(op: TailoringOp)
    ensures '<' !in TagOf(op) + " idref=\""
  {
    TagNames();
    hide SELECT, SET_VALUE;
  }

  lemma GapBy(space: string, s: string)
    requires "<" <= s && '<' !in space && '\'' !in space
    ensures Gap(space + s)
  {
    var all := space + s;
    assert all[..|space|] == space && all[|space|] == s[0];
    assert GapTo(all, |space|);
  }

  lemma TailGap(ops: seq<TailoringOp>, rest: string)
    ensures Gap(OpsTail(ops, rest)) && '<' !in Indent(ops)
  {
    InnerStarts(ops, rest);
    hide OpsTail, OpsInner, Gap;
    GapBy(Indent(ops), OpsInner(ops, rest));
  }

  // All the printed operations together.
  lemma {:induction false} OpsWeight(ops: seq<TailoringOp>, rest: string)
    ensures IdWeight(OpsInner(ops, rest)) <= IdLen(ops) + IdWeight(rest)
    ensures !NoQuotes(ops) ==> IdWeight(OpsInner(ops, rest)) < IdLen(ops) + IdWeight(rest)
  {
    hide IdWeight, OpTag, Gap, Indent;
    if ops == [] {
      assert CloseTag("xccdf:Profile") + rest == "<" + ("/xccdf:Profile>" + rest);
      CloseWeight("/xccdf:Profile>", rest);
    } else {
      TailGap(ops[1..], rest);
      OpWeight(ops[0], OpsTail(ops[1..], rest));
      WeightPast(Indent(ops[1..]), OpsInner(ops[1..], rest));
      OpsWeight(ops[1..], rest);
      assert forall op :: op in ops <==> op == ops[0] || op in ops[1..];
    }
  }

  // ----- the whole document

  // The first child, when the children can be read.
  lemma ChildFirst(tag: string, s: string) returns (more: seq<Elem>)
    requires !("</" <= s) && ParseChildren(tag, s).Some?
    ensures ParseElem(s).Some? && ParseChildren(tag, s).value.0 == [ParseElem(s).value.0] + more
  {
    hide ParseElem, ParseText;
    more := ParseChildren(tag, s).value.0[1..];
  }

  lemma ProfileIdIsPlain(profileId: string, scapContent: string, timestamp: string)
    requires PlainMeta(profileId, scapContent, timestamp)
    ensures PlainAttr(profileId) && PlainText(profileId)
  {
  }

  const END := "\n" + (CloseTag("xccdf:Tailoring") + "\n")

  // What the parser makes of the text of the operations.
  function OpsParsed(ops: seq<TailoringOp>): Option<(seq<Elem>, string)> {
    ParseChildren("xccdf:Profile", OpsInner(ops, END))
  }

  // Parsing a printed file gives the operations that are read from their text.
  lemma OpsRead(ops: seq<TailoringOp>, profileId: string, scapContent: string, timestamp: string)
    requires PlainMeta(profileId, scapContent, timestamp)
    requires Parse(TailoringText(ops, profileId, scapContent, timestamp)).Ok?
    ensures OpsParsed(ops).Some?
    ensures Parse(TailoringText(ops, profileId, scapContent, timestamp)).value.ops == ReadOps(OpsParsed(ops).value.0)
  {
    hide *;
    var text, root := TailoringText(ops, profileId, scapContent, timestamp), RootText(ops, profileId, scapContent, timestamp);
    RootTextIs(ops, profileId, scapContent, timestamp);
    RootTextStart(ops, profileId, scapContent, timestamp);
    DeclarationOf(text, root);
    ParseParts(text);
    RootRead(ops, profileId, scapContent, timestamp);
    ProfileIdIsPlain(profileId, scapContent, timestamp);
    ProfileFromOps(ops, profileId);
    var p := ProfileText(ops, profileId, END);
    EndIs();
    ProfileTextStart(ops, profileId, END);
    var more := ChildFirst("xccdf:Tailoring", p);
    ProfileFound(profileId, scapContent, timestamp, OpsParsed(ops).value.0, more);
  }

  lemma EndIs()
    ensures END == "\n" + (CloseTag("xccdf:Tailoring") + "\n")
  {
  }

  lemma ProfileFromOps(ops: seq<TailoringOp>, profileId: string)
    requires PlainAttr(profileId) && PlainText(profileId)
    ensures ParseElem(ProfileText(ops, profileId, END)) == None <==> OpsParsed(ops) == None
    ensures OpsParsed(ops).Some? ==>
      ParseElem(ProfileText(ops, profileId, END)) == Some((ProfileWith(profileId, OpsParsed(ops).value.0), OpsParsed(ops).value.1))
  {
    hide ParseElem, ParseChildren, ProfileText, ProfileWith, PlainAttr, PlainText, OpsInner, END;
    ProfileRead(ops, profileId, END);
  }

  lemma ParseParts(text: string)
    requires Parse(text).Ok?
    ensures ParseDocument(text).Some?
    ensures FindProfile(ParseDocument(text).value).Some?
    ensures Parse(text).value.ops == ReadOps(FindProfile(ParseDocument(text).value).value.children)
  {
    hide ParseDocument, FindProfile, ReadOps, Get;
  }

  lemma EndText()
    ensures END == "\n" + ("<" + ("/xccdf:Tailoring>" + "\n"))
  {
    assert CloseTag("xccdf:Tailoring") + "\n" == "<" + ("/xccdf:Tailoring>" + "\n");
  }

  lemma EndWeight()
    ensures IdWeight(END) == 0
  {
    hide *;
    EndText();
    WeightPast("\n", "<" + ("/xccdf:Tailoring>" + "\n"));
    CloseWeight("/xccdf:Tailoring>", "\n");
    WeightPast("\n", "");
    assert "\n" + "" == "\n";
    NoWeight();
  }

  lemma NoWeight()
    ensures IdWeight("") == 0
  {
  }

  lemma OpsShrink(ops: seq<TailoringOp>)
    requires OpsParsed(ops).Some?
    ensures var read := ReadOps(OpsParsed(ops).value.0);
      IdLen(read) <= IdLen(ops) && (!NoQuotes(ops) ==> IdLen(read) < IdLen(ops))
  {
    hide ParseChildren, OpsInner, END, IdLen, IdWeight, ReadOps, NoQuotes;
    ChildrenRead("xccdf:Profile", OpsInner(ops, END));
    OpsWeight(ops, END);
    EndWeight();
  }

  // Whatever ids an operator writes, the ids read back are together no longer
  // than those printed, and shorter when a double quote cuts one short.
  lemma IdsShrink(ops: seq<TailoringOp>, profileId: string, scapContent: string, timestamp: string)
    requires PlainMeta(profileId, scapContent, timestamp)
    ensures var parsed := Parse(TailoringText(ops, profileId, scapContent, timestamp));
      parsed.Ok? ==> IdLen(parsed.value.ops) <= IdLen(ops) && (!NoQuotes(ops) ==> IdLen(parsed.value.ops) < IdLen(ops))
  {
    hide *;
    if Parse(TailoringText(ops, profileId, scapContent, timestamp)).Ok? {
      OpsRead(ops, profileId, scapContent, timestamp);
      OpsShrink(ops);
    }
  }

  // Reading a printed tailoring, for every list of operations. Short of a double
  // quote in an id, one id that is no attribute value, or one illegal character in
  // a value, makes the file unreadable, otherwise the operations come back in
  // order. With one, other operations come back, if any.
  lemma ParseOfBuild(ops: seq<TailoringOp>, profileId: string, scapContent: string, timestamp: string)
    requires PlainMeta(profileId, scapContent, timestamp) && profileId != ""
    ensures var parsed := Parse(TailoringText(ops, profileId, scapContent, timestamp));
      if NoQuotes(ops) then
        parsed == if forall op :: op in ops ==> LegalOp(op) then Ok(ParsedTailoring(profileId, Delivered(ops)))
                  else Err(NotWellFormed)
      else parsed.Ok? ==> parsed.value.ops != ops && IdLen(parsed.value.ops) < IdLen(ops)
  {
    hide Parse, TailoringText;
    IdsShrink(ops, profileId, scapContent, timestamp);
    if NoQuotes(ops) {
      ParseUnquoted(ops, profileId, scapContent, timestamp);
    }
  }

  // Printing then parsing gives back the profile and exactly the same operations
  // if and only if every operation names a rule, in an id without markup, control
  // characters or a double quote, and every value is legal XML text without a
  // carriage return.
  lemma RoundTripIff(ops: seq<TailoringOp>, profileId: string, scapContent: string, timestamp: string)
    requires PlainMeta(profileId, scapContent, timestamp) && profileId != ""
    ensures Parse(TailoringText(ops, profileId, scapContent, timestamp)) == Ok(ParsedTailoring(profileId, ops))
       <==> forall op :: op in ops ==> Faithful(op)
  {
    hide Parse, TailoringText, Faithful;
    if NoQuotes(ops) {
      RoundTripUnquoted(ops, profileId, scapContent, timestamp);
    } else {
      IdsShrink(ops, profileId, scapContent, timestamp);
      var op :| op in ops && '"' in op.ruleId;
      if Faithful(op) {
        FaithfulIsLegal(op);
      }
    }
  }

  // An id that closes its attribute and opens another is printed as the two.
  lemma CutText(id: string, name: string, value: string)
    ensures OpTag(TailoringOp(id + "\" " + name + "=\"" + value, Disable, None))
         == EmptyTag("xccdf:select", [("idref", id), (name, value), ("selected", "false")])
  {
    var last := [("selected", "false")];
    var cut := id + "\" " + name + "=\"" + value;
    FirstAttrText("idref", cut, last);
    FirstAttrText("idref", id, [(name, value)] + last);
    FirstAttrText(name, value, last);
    assert [("idref", cut)] + last == [("idref", cut), ("selected", "false")];
    assert [("idref", id)] + ([(name, value)] + last) == [("idref", id), (name, value), ("selected", "false")];
    CutJoin(id, name, value, AttrsText(last));
    hide AttrsText;
  }

  lemma CutJoin(id: string, name: string, value: string, end: string)
    ensures " " + "idref" + "=\"" + (id + "\" " + name + "=\"" + value) + "\"" + end
         == " " + "idref" + "=\"" + id + "\"" + (" " + name + "=\"" + value + "\"" + end)
  {
    assert "\" " == "\"" + " ";
    CutGroups(" " + "idref" + "=\"", id, "\"", " ", name, "=\"", value, end);
  }

  lemma CutGroups(a: string, id: string, q: string, space: string, name: string, eq: string, value: string, end: string)
    ensures a + (id + (q + space) + name + eq + value) + q + end == a + id + q + (space + name + eq + value + q + end)
  {
    var more := name + eq + value;
    assert id + (q + space) + name + eq + value == id + q + space + more;
    assert space + name + eq + value + q + end == space + more + q + end;
    assert a + (id + q + space + more) + q + end == a + id + q + (space + more + q + end);
  }

  lemma FirstAttrText(name: string, value: string, more: seq<Attr>)
    ensures AttrsText([(name, value)] + more) == " " + name + "=\"" + value + "\"" + AttrsText(more)
  {
    assert ([(name, value)] + more)[1..] == more;
  }

  lemma CutElem(id: string, name: string, value: string)
    requires PlainAttr(id) && PlainAttr(value) && Name(name) && name != "idref" && name != "selected"
    ensures PlainAttrs([("idref", id), (name, value), ("selected", "false")]) && Name("xccdf:select")
    ensures id != "" ==>
      ReadOp(Leaf("xccdf:select", [("idref", id), (name, value), ("selected", "false")], "")) == [TailoringOp(id, Disable, None)]
  {
    assert Name("idref") && Name("selected") && PlainAttr("false");
    hide Name, PlainAttr, LocalName;
    OpLocalNames();
    var attrs := [("idref", id), (name, value), ("selected", "false")];
    assert attrs[1..][1..] == [("selected", "false")] && attrs[1..][0] == (name, value);
    assert |"idref"| != |"selected"|;
    assert Get(attrs, "selected") == Get(attrs[1..], "selected") == Get(attrs[1..][1..], "selected");
    assert Map("false", LowerChar) == "false";
  }

  // The operations of a printed file, once their text is read.
  lemma ParsePrinted(ops: seq<TailoringOp>, kids: seq<Elem>, profileId: string, scapContent: string, timestamp: string)
    requires PlainMeta(profileId, scapContent, timestamp) && profileId != "" && OpsParsed(ops) == Some((kids, END))
    ensures Parse(TailoringText(ops, profileId, scapContent, timestamp)) == Ok(ParsedTailoring(profileId, ReadOps(kids)))
  {
    hide *;
    var root := RootText(ops, profileId, scapContent, timestamp);
    EndIs();
    ProfileIdIsPlain(profileId, scapContent, timestamp);
    ProfileFromOps(ops, profileId);
    OnlyProfile(ops, profileId, Some(ProfileWith(profileId, kids)));
    RootRead(ops, profileId, scapContent, timestamp);
    RootTextIs(ops, profileId, scapContent, timestamp);
    RootTextStart(ops, profileId, scapContent, timestamp);
    DeclarationOf(TailoringText(ops, profileId, scapContent, timestamp), root);
    LastLine();
    ProfileFound(profileId, scapContent, timestamp, kids, []);
    ReadProfileOf(ops, profileId);
    ProfileWithAttrs(profileId, kids);
    ParseOf(TailoringText(ops, profileId, scapContent, timestamp), ProfileWith(profileId, kids));
  }

  lemma ProfileWithAttrs(profileId: string, kids: seq<Elem>)
    ensures ProfileWith(profileId, kids).attrs == ProfileAttrs(profileId)
  {
  }

  lemma ParseOf(text: string, profile: Elem)
    requires ParseDocument(text).Some? && FindProfile(ParseDocument(text).value) == Some(profile)
    requires Get(profile.attrs, "extends") != ""
    ensures Parse(text) == Ok(ParsedTailoring(Get(profile.attrs, "extends"), ReadOps(profile.children)))
  {
    hide ParseDocument, FindProfile, ReadOps, Get;
  }

  lemma OneOp(op: TailoringOp, e: Elem)
    requires ParseElem(OpTag(op) + OpsTail([], END)) == Some((e, OpsTail([], END)))
    ensures OpsParsed([op]) == Some(([e], END))
  {
    hide ParseElem, ParseText, ParseChildren, OpTag, END, CloseTag;
    var tag, more := "xccdf:Profile", OpsTail([], END);
    assert [op][1..] == [];
    assert OpsInner([op], END) == OpTag(op) + more;
    NamesArePlain();
    OpTagStart(op, more);
    InnerStarts([], END);
    CloseOf(tag, END);
    NextChild(tag, OpTag(op) + more, e, Indent([]), OpsInner([], END));
    assert [e] + [] == [e];
  }

  // A name that XML gives an attribute as it is: no digit, hyphen or dot first, no
  // prefix, and no namespace declaration.
  predicate AttrName(name: string) {
    && name != "" && name != "xmlns" && NameStart(name[0])
    && forall c :: c in name ==> NameStart(c) || '0' <= c <= '9' || c == '-' || c == '.'
  }

  predicate NameStart(c: char) {
    'a' <= c <= 'z' || 'A' <= c <= 'Z' || c == '_'
  }

  // An id that closes its attribute and opens another is cut short at the double
  // quote: the file is well formed and deselects another rule.
  lemma QuoteCutsId(id: string, name: string, value: string, profileId: string, scapContent: string, timestamp: string)
    requires PlainMeta(profileId, scapContent, timestamp) && profileId != ""
    requires id != "" && PlainAttr(id) && PlainAttr(value) && AttrName(name) && name != "idref" && name != "selected"
    ensures Parse(TailoringText([TailoringOp(id + "\" " + name + "=\"" + value, Disable, None)],
                                profileId, scapContent, timestamp))
         == Ok(ParsedTailoring(profileId, [TailoringOp(id, Disable, None)]))
  {
    hide *;
    var op := TailoringOp(id + "\" " + name + "=\"" + value, Disable, None);
    var attrs := [("idref", id), (name, value), ("selected", "false")];
    var e := Leaf("xccdf:select", attrs, "");
    AttrNameIsName(name);
    CutText(id, name, value);
    CutElem(id, name, value);
    EmptyOf("xccdf:select", attrs, OpsTail([], END));
    LeafIs("xccdf:select", attrs, "");
    OneOp(op, e);
    ParsePrinted([op], [e], profileId, scapContent, timestamp);
    ReadOne(e);
  }

  lemma AttrNameIsName(name: string)
    requires AttrName(name)
    ensures Name(name)
  {
  }

  lemma LeafIs(tag: string, attrs: seq<Attr>, text: string)
    ensures Leaf(tag, attrs, text) == Elem(tag, attrs, text, [])
  {
  }

  lemma ReadOne(e: Elem)
    ensures ReadOps([e]) == ReadOp(e)
  {
    hide ReadOp;
    assert [e][1..] == [];
  }

  // The id `a" x="y` comes back as `a`.
  lemma QuotedIdIsCut(profileId: string, scapContent: string, timestamp: string)
    requires PlainMeta(profileId, scapContent, timestamp) && profileId != ""
    ensures Parse(TailoringText([TailoringOp("a\" x=\"y", Disable, None)], profileId, scapContent, timestamp))
         == Ok(ParsedTailoring(profileId, [TailoringOp("a", Disable, None)]))
  {
    hide Parse, TailoringText;
    assert "a" + "\" " + "x" + "=\"" + "y" == "a\" x=\"y";
    assert AttrName("x") && "x" != "idref" && "x" != "selected" by {
      assert |"x"| == 1;
    }
    QuoteCutsId("a", "x", "y", profileId, scapContent, timestamp);
  }
}
