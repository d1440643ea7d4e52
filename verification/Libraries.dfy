/** Libraries that do all that the theorems ask of theirs: what is assumed of the
    YAML and JSON modules and of Python's conversions can be met. */
module Libraries {
  import opened Prelude
  import opened Yaml
  import Plans = ApplyExceptions
  import History
  import HistoryFile
  import Disk

  // ----- a text for every value

  function TextCode(s: string): string {
    if s == "" then "."
    else (if s[0] == '\n' then "n" else if s[0] == '\r' then "r" else "c" + [s[0]]) + TextCode(s[1..])
  }

  function NatCode(n: nat): string {
    if n == 0 then "." else "1" + NatCode(n - 1)
  }

  function IntCode(n: int): string {
    if n < 0 then "-" + NatCode(-n) else "+" + NatCode(n)
  }

  function BytesCode(bytes: seq<Byte>): string {
    if bytes == [] then ";" else "," + (NatCode(bytes[0]) + BytesCode(bytes[1..]))
  }

  function Tag(v: Value): char {
    match v
    case Null => 'n'
    case Flag(b) => if b then 't' else 'f'
    case Number(_) => 'i'
    case Float(f) => (match f case Finite(_, _) => 'r' case Infinite(negative) => (if negative then 'm' else 'p') case NotANumber => 'a')
    case Date(_) => 'd'
    case Text(_) => 'c'
    case Bytes(_) => 'b'
    case Enum(_) => 'e'
    case List(_) => 'l'
    case Set(_) => 's'
    case Dict(_) => 'k'
  }

  function Code(v: Value): string
    decreases v, 2
  {
    [Tag(v)] + Body(v)
  }

  function Body(v: Value): string
    decreases v, 1
  {
    match v
    case Number(n) => IntCode(n)
    case Float(f) => if f.Finite? then IntCode(f.mantissa) + IntCode(f.exponent) else ""
    case Date(s) => TextCode(s)
    case Text(s) => TextCode(s)
    case Bytes(bytes) => BytesCode(bytes)
    case Enum(s) => TextCode(s)
    case List(items) => ItemsCode(items)
    case Set(members) => ItemsCode(members)
    case Dict(_) => EntriesCode(v, 0)
    case _ => ""
  }

  function ItemsCode(items: seq<Value>): string
    decreases items
  {
    if items == [] then ";" else "," + (Code(items[0]) + ItemsCode(items[1..]))
  }

  // The entries of a mapping, from the i-th on.
  function EntriesCode(v: Value, i: nat): string
    requires v.Dict? && i <= |v.entries|
    decreases v, 0, |v.entries| - i
  {
    if i == |v.entries| then ";"
    else "," + (TextCode(v.entries[i].0) + (Code(v.entries[i].1) + EntriesCode(v, i + 1)))
  }

  // ----- no two values share one, whatever follows

  lemma Tails(a: string, x: string, b: string, y: string)
    requires a != "" && b != "" && a + x == b + y
    ensures a[0] == b[0] && a[1..] + x == b[1..] + y
    ensures |a| == 1 && |b| == 1 ==> x == y
  {
    assert (a + x)[0] == a[0] && (b + y)[0] == b[0];
    assert (a + x)[1..] == a[1..] + x && (b + y)[1..] == b[1..] + y;
  }

  lemma {:induction false} TextCodes(s: string, t: string, x: string, y: string)
    requires TextCode(s) + x == TextCode(t) + y
    ensures s == t && x == y
  {
    Tails(TextCode(s), x, TextCode(t), y);
    if s == "" {
    } else if s[0] != '\n' && s[0] != '\r' {
      assert TextCode(s)[1..] == [s[0]] + TextCode(s[1..]) && TextCode(t)[1..] == [t[0]] + TextCode(t[1..]);
      Tails(TextCode(s)[1..], x, TextCode(t)[1..], y);
      TextCodes(s[1..], t[1..], x, y);
    } else {
      TextCodes(s[1..], t[1..], x, y);
    }
    assert s != "" ==> s == [s[0]] + s[1..] && t == [t[0]] + t[1..];
  }

  lemma {:induction false} NatCodes(m: nat, n: nat, x: string, y: string)
    requires NatCode(m) + x == NatCode(n) + y
    ensures m == n && x == y
  {
    Tails(NatCode(m), x, NatCode(n), y);
    if m > 0 {
      NatCodes(m - 1, n - 1, x, y);
    }
  }

  lemma IntCodes(m: int, n: int, x: string, y: string)
    requires IntCode(m) + x == IntCode(n) + y
    ensures m == n && x == y
  {
    Tails(IntCode(m), x, IntCode(n), y);
    NatCodes(if m < 0 then -m else m, if n < 0 then -n else n, x, y);
  }

  lemma Regroup(a: string, b: string, x: string)
    ensures (a + b) + x == a + (b + x)
  {
  }

  lemma {:induction false} BytesCodes(a: seq<Byte>, b: seq<Byte>, x: string, y: string)
    requires BytesCode(a) + x == BytesCode(b) + y
    ensures a == b && x == y
  {
    Tails(BytesCode(a), x, BytesCode(b), y);
    if a != [] {
      Regroup(NatCode(a[0]), BytesCode(a[1..]), x);
      Regroup(NatCode(b[0]), BytesCode(b[1..]), y);
      NatCodes(a[0], b[0], BytesCode(a[1..]) + x, BytesCode(b[1..]) + y);
      BytesCodes(a[1..], b[1..], x, y);
      assert a == [a[0]] + a[1..] && b == [b[0]] + b[1..];
    }
  }

  lemma FloatCodes(f: Floating, g: Floating, x: string, y: string)
    requires f.Finite? && g.Finite?
    requires (IntCode(f.mantissa) + IntCode(f.exponent)) + x == (IntCode(g.mantissa) + IntCode(g.exponent)) + y
    ensures f == g && x == y
  {
    hide IntCode;
    Regroup(IntCode(f.mantissa), IntCode(f.exponent), x);
    Regroup(IntCode(g.mantissa), IntCode(g.exponent), y);
    IntCodes(f.mantissa, g.mantissa, IntCode(f.exponent) + x, IntCode(g.exponent) + y);
    IntCodes(f.exponent, g.exponent, x, y);
  }

  lemma {:induction false} Codes(v: Value, w: Value, x: string, y: string)
    requires Code(v) + x == Code(w) + y
    ensures v == w && x == y
    decreases v, 2
  {
    hide Body, TextCode, IntCode, BytesCode, ItemsCode, EntriesCode;
    Tails(Code(v), x, Code(w), y);
    assert Code(v)[1..] == Body(v) && Code(w)[1..] == Body(w);
    Bodies(v, w, x, y);
  }

  lemma {:induction false} Bodies(v: Value, w: Value, x: string, y: string)
    requires Tag(v) == Tag(w) && Body(v) + x == Body(w) + y
    ensures v == w && x == y
    decreases v, 1
  {
    hide TextCode, IntCode, BytesCode, ItemsCode, EntriesCode;
    match v
    case Number(n) => IntCodes(n, w.number, x, y);
    case Float(f) =>
      if f.Finite? {
        FloatCodes(f, w.float, x, y);
      } else {
        assert "" + x == x && "" + y == y;
      }
    case Date(s) => TextCodes(s, w.iso, x, y);
    case Text(s) => TextCodes(s, w.text, x, y);
    case Bytes(bytes) => BytesCodes(bytes, w.bytes, x, y);
    case Enum(s) => TextCodes(s, w.name, x, y);
    case List(items) => ItemsCodes(items, w.items, x, y);
    case Set(members) => ItemsCodes(members, w.members, x, y);
    case Dict(entries) =>
      EntriesCodes(v, w, 0, x, y);
      assert entries[0..] == entries && w.entries[0..] == w.entries;
    case _ =>
      assert "" + x == x && "" + y == y;
  }

  lemma {:induction false} ItemsCodes(a: seq<Value>, b: seq<Value>, x: string, y: string)
    requires ItemsCode(a) + x == ItemsCode(b) + y
    ensures a == b && x == y
    decreases a
  {
    hide Code;
    Tails(ItemsCode(a), x, ItemsCode(b), y);
    if a != [] {
      Regroup(Code(a[0]), ItemsCode(a[1..]), x);
      Regroup(Code(b[0]), ItemsCode(b[1..]), y);
      Codes(a[0], b[0], ItemsCode(a[1..]) + x, ItemsCode(b[1..]) + y);
      ItemsCodes(a[1..], b[1..], x, y);
      assert a == [a[0]] + a[1..] && b == [b[0]] + b[1..];
    }
  }

  lemma {:induction false} EntriesCodes(v: Value, w: Value, i: nat, x: string, y: string)
    requires v.Dict? && w.Dict? && i <= |v.entries| && i <= |w.entries|
    requires EntriesCode(v, i) + x == EntriesCode(w, i) + y
    ensures v.entries[i..] == w.entries[i..] && x == y
    decreases v, 0, |v.entries| - i
  {
    hide Code, TextCode;
    Tails(EntriesCode(v, i), x, EntriesCode(w, i), y);
    if i < |v.entries| {
      var d, e := v.entries[i], w.entries[i];
      var more, others := EntriesCode(v, i + 1), EntriesCode(w, i + 1);
      Regroup(TextCode(d.0), Code(d.1) + more, x);
      Regroup(TextCode(e.0), Code(e.1) + others, y);
      TextCodes(d.0, e.0, (Code(d.1) + more) + x, (Code(e.1) + others) + y);
      Regroup(Code(d.1), more, x);
      Regroup(Code(e.1), others, y);
      Codes(d.1, e.1, more + x, others + y);
      EntriesCodes(v, w, i + 1, x, y);
      assert d == (d.0, d.1) && e == (e.0, e.1);
      assert v.entries[i..] == [d] + v.entries[i + 1..] && w.entries[i..] == [e] + w.entries[i + 1..];
    }
  }

  // ----- the libraries

  // The value a text stands for.
  ghost function Decoded(s: string): Parsed {
    if exists v: Value :: Code(v) == s && Loaded(v) then
      var v :| Code(v) == s && Loaded(v);
      Parsed(v)
    else SyntaxError
  }

  lemma DecodedCode(v: Value)
    requires Loaded(v)
    ensures Decoded(Code(v)) == Parsed(v)
  {
    hide Code, Loaded;
    var w := Decoded(Code(v)).value;
    assert Code(v) + "" == Code(w) + "";
    Codes(v, w, "", "");
  }

  lemma {:induction false} PlainIsLoaded(v: Value)
    requires Plain(v)
    ensures Loaded(v)
  {
    match v
    case List(items) =>
      forall i | 0 <= i < |items|
        ensures Loaded(items[i])
      {
        PlainIsLoaded(items[i]);
      }
    case Set(members) =>
      forall i | 0 <= i < |members|
        ensures Loaded(members[i])
      {
        PlainIsLoaded(members[i]);
      }
    case Dict(entries) =>
      forall i | 0 <= i < |entries|
        ensures Loaded(entries[i].1)
      {
        PlainIsLoaded(entries[i].1);
      }
    case _ =>
  }

  // A YAML library that loads only what YAML can hold, reads back every file that
  // an apply writes, and holds every value that can be loaded; and a schema that
  // takes anything.
  lemma SomeYaml() returns (lib: Plans.Library)
    ensures Plans.YamlLoads(lib)
    ensures forall p: Plans.Plan :: Plans.WrittenReadsBack(lib, p)
    ensures forall v: Value :: Loaded(v) ==> lib.parse(lib.serialize(v)) == Parsed(v)
    ensures forall v: Value :: lib.accepts(v)
  {
    hide Code, Loaded, Plain;
    lib := Plans.Library(Decoded, v => true, Code);
    forall v: Value | Loaded(v)
      ensures Decoded(Code(v)) == Parsed(v)
    {
      DecodedCode(v);
    }
    forall p: Plans.Plan
      ensures Plans.WrittenReadsBack(lib, p)
    {
      if p.Append? && Plans.NewContent(lib, p).Some? {
        PlainIsLoaded(Dict(Plans.InPlace.Edited(Plans.Candidate(p))));
      }
    }
  }

  // ----- JSON lines and conversions

  predicate NoBreak(s: string) {
    '\n' !in s && '\r' !in s
  }

  lemma {:induction false} TextNoBreak(s: string)
    ensures NoBreak(TextCode(s))
  {
    if s != "" {
      TextNoBreak(s[1..]);
    }
  }

  lemma {:induction false} NatNoBreak(n: nat)
    ensures NoBreak(NatCode(n))
  {
    if n > 0 {
      NatNoBreak(n - 1);
    }
  }

  lemma IntNoBreak(n: int)
    ensures NoBreak(IntCode(n))
  {
    NatNoBreak(if n < 0 then -n else n);
  }

  lemma {:induction false} BytesNoBreak(bytes: seq<Byte>)
    ensures NoBreak(BytesCode(bytes))
  {
    if bytes != [] {
      NatNoBreak(bytes[0]);
      BytesNoBreak(bytes[1..]);
    }
  }

  lemma {:induction false} CodeNoBreak(v: Value)
    ensures NoBreak(Code(v))
    decreases v, 2
  {
    hide TextCode, IntCode, BytesCode, ItemsCode, EntriesCode;
    match v
    case Number(n) => IntNoBreak(n);
    case Float(f) =>
      if f.Finite? {
        IntNoBreak(f.mantissa);
        IntNoBreak(f.exponent);
      }
    case Date(s) => TextNoBreak(s);
    case Text(s) => TextNoBreak(s);
    case Bytes(bytes) => BytesNoBreak(bytes);
    case Enum(s) => TextNoBreak(s);
    case List(items) => ItemsNoBreak(items);
    case Set(members) => ItemsNoBreak(members);
    case Dict(_) => EntriesNoBreak(v, 0);
    case _ =>
  }

  lemma {:induction false} ItemsNoBreak(items: seq<Value>)
    ensures NoBreak(ItemsCode(items))
    decreases items
  {
    hide Code;
    if items != [] {
      CodeNoBreak(items[0]);
      ItemsNoBreak(items[1..]);
    }
  }

  lemma {:induction false} EntriesNoBreak(v: Value, i: nat)
    requires v.Dict? && i <= |v.entries|
    ensures NoBreak(EntriesCode(v, i))
    decreases v, 0, |v.entries| - i
  {
    hide Code, TextCode;
    if i < |v.entries| {
      TextNoBreak(v.entries[i].0);
      CodeNoBreak(v.entries[i].1);
      EntriesNoBreak(v, i + 1);
    }
  }

  // A record holds nothing but texts, flags, numbers, lists and mappings.
  lemma RecordLoaded(r: History.RunRecord)
    requires HistoryFile.Recordable(r)
    ensures Loaded(History.RecordToDict(r))
  {
    var summary := Map(r.summary, History.CountEntry);
    assert Loaded(Dict(summary));
    var rows := Map(r.rows, History.RowValue);
    forall i | 0 <= i < |rows|
      ensures Loaded(rows[i])
    {
      assert rows[i] == List([Text(r.rows[i].0), Text(r.rows[i].1)]);
    }
    assert Loaded(List(rows));
    History.RecordKeys(r);
    var es := History.RecordToDict(r).entries;
    var key := (e: (string, Value)) => e.0;
    assert forall i, j :: 0 <= i < j < |es| ==> key(es[i]) != key(es[j]);
  }

  // A JSON module that reads back every record.
  lemma SomeJson() returns (py: HistoryFile.Text)
    ensures HistoryFile.JsonReadsBack(py)
  {
    hide Code, Loaded, History.RecordToDict, Decoded;
    py := HistoryFile.Text(Decoded, Code, c => c == '\n' || c == '\r', c => c == ' ');
    forall r: History.RunRecord | HistoryFile.Recordable(r)
      ensures var line := Code(History.RecordToDict(r));
        && HistoryFile.OneLine(py, line) && !HistoryFile.AllBlank(py, line)
        && Decoded(line) == Parsed(History.RecordToDict(r))
    {
      var v := History.RecordToDict(r);
      RecordLoaded(r);
      DecodedCode(v);
      CodeNoBreak(v);
      CodeStarts(v);
      assert Code(v)[0] in Code(v);
    }
  }

  lemma CodeStarts(v: Value)
    ensures Code(v) != "" && Code(v)[0] != ' '
  {
    hide Body;
  }

  // Conversions of Python's kind.
  lemma SomeConversions() returns (co: History.Coercions, py: Disk.Python)
    ensures History.CoercesBack(co)
    ensures Disk.ReadsDigits(py) && Disk.AsciiDigits(py)
  {
    co := History.Coercions(
      (v: Value) => if v.Text? then v.text else "", (v: Value) => if v.Number? then History.Int(v.number) else History.Refused);
    py := Disk.Python(
      c => '0' <= c <= '9', s => if |s| <= MAX_INT_DIGITS then Some(0) else None, s => true, s => true);
  }
}
