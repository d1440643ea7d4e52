/** Parsed YAML: what `yaml.safe_load` gives the program to work on. A mapping
    keeps its keys in order, as Python dicts do. */
module Yaml {
  import opened Prelude

  type Byte = b: int | 0 <= b < 256

  // A double: `mantissa * 2 ** exponent`, or one of the special values.
  datatype Floating = Finite(mantissa: int, exponent: int) | Infinite(negative: bool) | NotANumber

  datatype Value =
    | Null
    | Flag(flag: bool)
    | Number(number: int)
    | Float(float: Floating)
    | Date(iso: string)
    | Text(text: string)
    | Bytes(bytes: seq<Byte>)
    // a member of a string enumeration: never parsed, only put in by the program
    | Enum(name: string)
    | List(items: seq<Value>)
    | Set(members: seq<Value>)
    | Dict(entries: seq<(string, Value)>)

  // What a parser gives: a value, the error of its own that callers expect, or an
  // error of another kind.
  datatype Parsed = Parsed(value: Value) | SyntaxError | OtherError

  // Python truth.
  predicate Truthy(v: Value) {
    match v
    case Null => false
    case Flag(b) => b
    case Number(n) => n != 0
    case Float(f) => !(f.Finite? && f.mantissa == 0)
    case Date(_) => true
    case Text(s) => s != ""
    case Bytes(bytes) => bytes != []
    case Enum(s) => s != ""
    case List(items) => items != []
    case Set(members) => members != []
    case Dict(entries) => entries != []
  }

  function Get(entries: seq<(string, Value)>, key: string): Option<Value> {
    if entries == [] then None
    else if entries[0].0 == key then Some(entries[0].1)
    else Get(entries[1..], key)
  }

  // `d[key] = v`: in place when the key is there, at the end otherwise.
  function Put(entries: seq<(string, Value)>, key: string, v: Value): seq<(string, Value)> {
    if entries == [] then [(key, v)]
    else if entries[0].0 == key then [(key, v)] + entries[1..]
    else [entries[0]] + Put(entries[1..], key, v)
  }

  lemma {:induction false} GetPut(entries: seq<(string, Value)>, key: string, v: Value, other: string)
    ensures Get(Put(entries, key, v), other) == if other == key then Some(v) else Get(entries, other)
  {
    if entries != [] && entries[0].0 != key {
      GetPut(entries[1..], key, v, other);
    }
  }

  predicate UniqueKeys<T>(entries: seq<(string, T)>) {
    forall i, j :: 0 <= i < j < |entries| ==> entries[i].0 != entries[j].0
  }

  function Power(base: int, exponent: nat): int {
    if exponent == 0 then 1 else base * Power(base, exponent - 1)
  }

  // A number that `str` can write.
  predicate Short(n: int) {
    -Power(10, MAX_INT_DIGITS) < n < Power(10, MAX_INT_DIGITS)
  }

  lemma {:induction false} PowerGrows(exponent: nat)
    ensures exponent < Power(10, exponent)
  {
    if exponent > 0 {
      PowerGrows(exponent - 1);
    }
  }

  lemma SmallIsShort(n: int)
    requires -MAX_INT_DIGITS <= n <= MAX_INT_DIGITS
    ensures Short(n)
  {
    PowerGrows(MAX_INT_DIGITS);
  }

  // What reading YAML can give: mappings as Python has them, and no enumeration
  // member anywhere inside.
  predicate Loaded(v: Value) {
    match v
    case Enum(_) => false
    case List(items) => forall i :: 0 <= i < |items| ==> Loaded(items[i])
    case Set(members) => forall i :: 0 <= i < |members| ==> Loaded(members[i])
    case Dict(entries) => UniqueKeys(entries) && forall i :: 0 <= i < |entries| ==> Loaded(entries[i].1)
    case _ => true
  }

  // A number somewhere inside that `str` cannot write. Hexadecimal, octal and
  // binary notation have no limit on reading.
  predicate HasLong(v: Value) {
    match v
    case Number(n) => !Short(n)
    case List(items) => exists i :: 0 <= i < |items| && HasLong(items[i])
    case Set(members) => exists i :: 0 <= i < |members| && HasLong(members[i])
    case Dict(entries) => exists i :: 0 <= i < |entries| && HasLong(entries[i].1)
    case _ => false
  }

  // What can be written down and read back.
  predicate Plain(v: Value) {
    match v
    case Enum(_) => false
    case Number(n) => Short(n)
    case List(items) => forall i :: 0 <= i < |items| ==> Plain(items[i])
    case Set(members) => forall i :: 0 <= i < |members| ==> Plain(members[i])
    case Dict(entries) => UniqueKeys(entries) && forall i :: 0 <= i < |entries| ==> Plain(entries[i].1)
    case _ => true
  }

  // A mapping read at `key`; absent and null look the same.
  predicate NoneAt(entries: seq<(string, Value)>, key: string) {
    Get(entries, key) == None || Get(entries, key) == Some(Null)
  }

  lemma {:induction false} PlainIff(v: Value)
    requires Loaded(v)
    ensures Plain(v) <==> !HasLong(v)
  {
    match v
    case List(items) =>
      forall i | 0 <= i < |items|
        ensures Plain(items[i]) <==> !HasLong(items[i])
      {
        PlainIff(items[i]);
      }
    case Set(members) =>
      forall i | 0 <= i < |members|
        ensures Plain(members[i]) <==> !HasLong(members[i])
      {
        PlainIff(members[i]);
      }
    case Dict(entries) =>
      forall i | 0 <= i < |entries|
        ensures Plain(entries[i].1) <==> !HasLong(entries[i].1)
      {
        PlainIff(entries[i].1);
      }
    case _ =>
  }

  lemma {:induction false} GetIn(entries: seq<(string, Value)>, key: string)
    ensures Get(entries, key).Some? ==> (key, Get(entries, key).value) in entries
    ensures UniqueKeys(entries) ==> forall e :: e in entries && e.0 == key ==> Get(entries, key) == Some(e.1)
  {
    if entries != [] {
      var rest := entries[1..];
      assert forall i :: 0 <= i < |rest| ==> rest[i] == entries[i + 1];
      GetIn(rest, key);
      if entries[0].0 == key {
        assert entries[0] == (key, entries[0].1);
      }
    }
  }

  // Entry by entry: `d[key] = v` on a mapping.
  lemma {:induction false} PutEntries(entries: seq<(string, Value)>, key: string, v: Value)
    requires UniqueKeys(entries)
    ensures UniqueKeys(Put(entries, key, v))
    ensures forall e :: e in Put(entries, key, v) <==> e == (key, v) || (e in entries && e.0 != key)
  {
    if entries != [] {
      var rest, after := entries[1..], Put(entries, key, v);
      assert forall i :: 0 <= i < |rest| ==> rest[i] == entries[i + 1];
      assert forall e :: e in entries <==> e == entries[0] || e in rest;
      assert entries[0] in entries && forall e :: e in rest ==> e.0 != entries[0].0;
      if entries[0].0 == key {
        assert forall e :: e in after <==> e == (key, v) || e in rest;
      } else {
        PutEntries(rest, key, v);
        assert forall e :: e in after <==> e == entries[0] || e in Put(rest, key, v);
        assert forall i :: 0 < i < |after| ==> after[i] in Put(rest, key, v);
      }
    }
  }

  lemma EachEntry(entries: seq<(string, Value)>)
    ensures Plain(Dict(entries)) <==> UniqueKeys(entries) && forall e :: e in entries ==> Plain(e.1)
    ensures Loaded(Dict(entries)) <==> UniqueKeys(entries) && forall e :: e in entries ==> Loaded(e.1)
  {
    assert forall i :: 0 <= i < |entries| ==> entries[i] in entries;
  }

  lemma GetPlain(entries: seq<(string, Value)>, key: string)
    requires Get(entries, key).Some?
    ensures Plain(Dict(entries)) ==> Plain(Get(entries, key).value)
    ensures Loaded(Dict(entries)) ==> Loaded(Get(entries, key).value)
  {
    EachEntry(entries);
    GetIn(entries, key);
  }

  lemma PutLoaded(entries: seq<(string, Value)>, key: string, v: Value)
    requires Loaded(Dict(entries)) && Loaded(v)
    ensures Loaded(Dict(Put(entries, key, v)))
  {
    EachEntry(entries);
    PutEntries(entries, key, v);
    EachEntry(Put(entries, key, v));
  }

  // What is put in decides, when it stands for nothing or for something as plain.
  lemma PutPlain(entries: seq<(string, Value)>, key: string, v: Value)
    requires UniqueKeys(entries)
    ensures Plain(Dict(Put(entries, key, v))) ==> Plain(v)
    ensures Get(entries, key) == None || Plain(Get(entries, key).value)
        ==> (Plain(Dict(Put(entries, key, v))) <==> Plain(v) && Plain(Dict(entries)))
    ensures Get(entries, key).Some? && (Plain(Get(entries, key).value) <==> Plain(v))
        ==> (Plain(Dict(Put(entries, key, v))) <==> Plain(Dict(entries)))
  {
    hide Plain;
    EachEntry(entries);
    PutEntries(entries, key, v);
    EachEntry(Put(entries, key, v));
    GetIn(entries, key);
    assert (key, v) in Put(entries, key, v);
    forall e | e in entries && e.0 != key
      ensures e in Put(entries, key, v)
    {
    }
  }
}
