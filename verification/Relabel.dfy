/** `_retarget`: replacing one whole volume label by another in a boot config. */
module Relabel {
  import opened Prelude
  import opened Regex

  // The character classes of Python's regular expressions: `inLabel` is
  // [\w.-], `space` is \s, `digit` is \d.
  datatype Classes = Classes(inLabel: char -> bool, space: char -> bool, digit: char -> bool)

  // ----- the regular expression substitution, position by position

  // `before` tells whether the character before s is a label character: the
  // two look-around assertions allow only a whole label.
  function Substitute(cls: Classes, before: bool, s: string, vendor: string, volid: string): string
    requires vendor != ""
    decreases |s|
  {
    if s == "" then ""
    else if !before && vendor <= s && (|s| == |vendor| || !cls.inLabel(s[|vendor|])) then
      volid + Substitute(cls, cls.inLabel(vendor[|vendor| - 1]), s[|vendor|..], vendor, volid)
    else [s[0]] + Substitute(cls, cls.inLabel(s[0]), s[1..], vendor, volid)
  }

  function Retarget(cls: Classes, text: string, vendor: string, volid: string): string
    requires vendor != ""
  {
    if vendor == volid then text else Substitute(cls, false, text, vendor, volid)
  }

  // ----- maximal runs of label characters, and everything else

  datatype Token = Word(text: string) | Other(c: char)

  predicate IsLabel(cls: Classes, s: string) {
    s != "" && forall c :: c in s ==> cls.inLabel(c)
  }

  function Tokens(cls: Classes, s: string): seq<Token> {
    if s == "" then []
    else
      var n := Run(cls.inLabel, s);
      if n == 0 then [Other(s[0])] + Tokens(cls, s[1..]) else [Word(s[..n])] + Tokens(cls, s[n..])
  }

  function TextOf(t: Token): string {
    match t case Word(text) => text case Other(c) => [c]
  }

  function Detok(ts: seq<Token>): string {
    if ts == [] then "" else TextOf(ts[0]) + Detok(ts[1..])
  }

  function RelabelToken(t: Token, vendor: string, volid: string): Token {
    if t == Word(vendor) then Word(volid) else t
  }

  function RelabelTokens(ts: seq<Token>, vendor: string, volid: string): (r: seq<Token>)
    ensures |r| == |ts| && forall k :: 0 <= k < |ts| ==> r[k] == RelabelToken(ts[k], vendor, volid)
  {
    if ts == [] then [] else [RelabelToken(ts[0], vendor, volid)] + RelabelTokens(ts[1..], vendor, volid)
  }

  predicate WellFormed(cls: Classes, t: Token) {
    match t case Word(text) => IsLabel(cls, text) case Other(c) => !cls.inLabel(c)
  }

  // Words are maximal: no two are adjacent.
  predicate Valid(cls: Classes, ts: seq<Token>) {
    && (forall t :: t in ts ==> WellFormed(cls, t))
    && (forall k :: 0 <= k < |ts| - 1 ==> !(ts[k].Word? && ts[k + 1].Word?))
  }

  lemma {:induction false} DetokConcat(a: seq<Token>, b: seq<Token>)
    ensures Detok(a + b) == Detok(a) + Detok(b)
  {
    if a == [] {
      assert a + b == b;
    } else {
      assert (a + b)[1..] == a[1..] + b;
      DetokConcat(a[1..], b);
    }
  }

  lemma {:induction false} DetokTokens(cls: Classes, s: string)
    ensures Detok(Tokens(cls, s)) == s
  {
    if s != "" {
      var n := Run(cls.inLabel, s);
      var rest := if n == 0 then s[1..] else s[n..];
      DetokTokens(cls, rest);
      assert Tokens(cls, s)[1..] == Tokens(cls, rest);
      assert s == (if n == 0 then [s[0]] else s[..n]) + rest;
    }
  }

  lemma {:induction false} TokensValid(cls: Classes, s: string)
    ensures Valid(cls, Tokens(cls, s))
    ensures s != "" && !cls.inLabel(s[0]) ==> Tokens(cls, s)[0] == Other(s[0])
    ensures s != "" && cls.inLabel(s[0]) ==> Tokens(cls, s)[0].Word?
  {
    if s != "" {
      var n := Run(cls.inLabel, s);
      var rest := if n == 0 then s[1..] else s[n..];
      TokensValid(cls, rest);
      var ts, more := Tokens(cls, s), Tokens(cls, rest);
      assert ts == [ts[0]] + more;
      forall k | 0 <= k < |ts| - 1
        ensures !(ts[k].Word? && ts[k + 1].Word?)
      {
        if k > 0 {
          assert ts[k] == more[k - 1] && ts[k + 1] == more[k];
        }
      }
    }
  }

  lemma {:induction false} RunOf(cls: Classes, word: string, rest: string)
    requires forall c :: c in word ==> cls.inLabel(c)
    requires rest == "" || !cls.inLabel(rest[0])
    ensures Run(cls.inLabel, word + rest) == |word|
  {
    if word == "" {
      assert word + rest == rest;
    } else {
      assert (word + rest)[1..] == word[1..] + rest;
      RunOf(cls, word[1..], rest);
    }
  }

  lemma DetokStart(cls: Classes, ts: seq<Token>)
    requires Valid(cls, ts)
    ensures Detok(ts) == "" <==> ts == []
    ensures ts != [] ==> TextOf(ts[0]) != "" && Detok(ts)[0] == TextOf(ts[0])[0]
    ensures ts != [] ==> (cls.inLabel(Detok(ts)[0]) <==> ts[0].Word?)
  {
    if ts != [] {
      assert ts[0] in ts && WellFormed(cls, ts[0]);
      assert TextOf(ts[0])[0] in TextOf(ts[0]);
    }
  }

  lemma ValidTail(cls: Classes, ts: seq<Token>)
    requires Valid(cls, ts) && ts != []
    ensures Valid(cls, ts[1..]) && WellFormed(cls, ts[0])
    ensures ts[0].Word? && |ts| > 1 ==> ts[1].Other?
  {
    assert forall t :: t in ts[1..] ==> t in ts;
    assert ts[0] in ts;
    var r := ts[1..];
    forall k | 0 <= k < |r| - 1
      ensures !(r[k].Word? && r[k + 1].Word?)
    {
      assert r[k] == ts[k + 1] && r[k + 1] == ts[k + 2];
    }
  }

  lemma {:induction false} TokensDetok(cls: Classes, ts: seq<Token>)
    requires Valid(cls, ts)
    ensures Tokens(cls, Detok(ts)) == ts
  {
    if ts != [] {
      ValidTail(cls, ts);
      TokensDetok(cls, ts[1..]);
      DetokStart(cls, ts[1..]);
      var s, rest := Detok(ts), Detok(ts[1..]);
      var head := TextOf(ts[0]);
      assert s == head + rest;
      if ts[0].Word? {
        RunOf(cls, head, rest);
        assert s[..|head|] == head && s[|head|..] == rest;
      } else {
        assert s[0] == head[0] && s[1..] == rest;
      }
    }
  }

  lemma RelabelValid(cls: Classes, ts: seq<Token>, vendor: string, volid: string)
    requires Valid(cls, ts) && IsLabel(cls, volid)
    ensures Valid(cls, RelabelTokens(ts, vendor, volid))
  {
    var r := RelabelTokens(ts, vendor, volid);
    forall t | t in r
      ensures WellFormed(cls, t)
    {
      var k :| 0 <= k < |r| && r[k] == t;
      assert ts[k] in ts;
    }
  }

  // ----- the substitution relabels whole runs and nothing else

  // After a run has started no match is possible before it ends.
  lemma {:induction false} RunPassesThrough(cls: Classes, run: string, rest: string, vendor: string, volid: string)
    requires IsLabel(cls, vendor) && forall c :: c in run ==> cls.inLabel(c)
    requires rest == "" || !cls.inLabel(rest[0])
    ensures Substitute(cls, true, run + rest, vendor, volid) == run + Substitute(cls, false, rest, vendor, volid)
  {
    if run == "" {
      assert run + rest == rest;
      assert vendor[0] in vendor;
    } else {
      assert (run + rest)[1..] == run[1..] + rest;
      assert run[0] in run;
      RunPassesThrough(cls, run[1..], rest, vendor, volid);
    }
  }

  // Between runs it does not matter what came before.
  lemma FlagForgotten(cls: Classes, rest: string, vendor: string, volid: string)
    requires IsLabel(cls, vendor)
    requires rest == "" || !cls.inLabel(rest[0])
    ensures Substitute(cls, true, rest, vendor, volid) == Substitute(cls, false, rest, vendor, volid)
  {
    RunPassesThrough(cls, "", rest, vendor, volid);
    assert "" + rest == rest;
    assert "" + Substitute(cls, false, rest, vendor, volid) == Substitute(cls, false, rest, vendor, volid);
  }

  lemma VendorRun(cls: Classes, rest: string, vendor: string, volid: string)
    requires IsLabel(cls, vendor)
    requires rest == "" || !cls.inLabel(rest[0])
    ensures Substitute(cls, false, vendor + rest, vendor, volid) == volid + Substitute(cls, false, rest, vendor, volid)
  {
    var s := vendor + rest;
    assert s[|vendor|..] == rest && |s| == |vendor| + |rest|;
    assert rest != "" ==> s[|vendor|] == rest[0];
    assert vendor[|vendor| - 1] in vendor;
    FlagForgotten(cls, rest, vendor, volid);
  }

  lemma WholeRun(cls: Classes, run: string, rest: string, vendor: string, volid: string)
    requires IsLabel(cls, vendor) && IsLabel(cls, run)
    requires rest == "" || !cls.inLabel(rest[0])
    ensures Substitute(cls, false, run + rest, vendor, volid)
         == (if run == vendor then volid else run) + Substitute(cls, false, rest, vendor, volid)
  {
    var s := run + rest;
    if run == vendor {
      VendorRun(cls, rest, vendor, volid);
    } else {
      NoWholeMatch(cls, run, rest, vendor);
      assert run[0] in run;
      assert s[1..] == run[1..] + rest;
      RunPassesThrough(cls, run[1..], rest, vendor, volid);
      assert run == [run[0]] + run[1..];
    }
  }

  lemma NoWholeMatch(cls: Classes, run: string, rest: string, vendor: string)
    requires IsLabel(cls, vendor) && IsLabel(cls, run) && run != vendor
    requires rest == "" || !cls.inLabel(rest[0])
    ensures var s := run + rest; !(vendor <= s && (|s| == |vendor| || !cls.inLabel(s[|vendor|])))
  {
    var s := run + rest;
    if |vendor| < |run| {
      assert s[|vendor|] == run[|vendor|] && run[|vendor|] in run;
    } else if |vendor| == |run| {
      assert s[..|run|] == run;
    } else {
      assert rest != "" ==> s[|run|] == rest[0];
      assert vendor[|run|] in vendor;
    }
  }

  // Whole labels only: the text is the vendor-to-volid map over its maximal
  // runs of label characters.
  lemma {:induction false} RetargetIsRelabel(cls: Classes, text: string, vendor: string, volid: string)
    requires IsLabel(cls, vendor)
    ensures Retarget(cls, text, vendor, volid) == Detok(RelabelTokens(Tokens(cls, text), vendor, volid))
  {
    if vendor == volid {
      assert RelabelTokens(Tokens(cls, text), vendor, volid) == Tokens(cls, text);
      DetokTokens(cls, text);
    } else {
      SubstituteIsRelabel(cls, text, vendor, volid);
    }
  }

  lemma {:induction false} SubstituteIsRelabel(cls: Classes, text: string, vendor: string, volid: string)
    requires IsLabel(cls, vendor)
    ensures Substitute(cls, false, text, vendor, volid) == Detok(RelabelTokens(Tokens(cls, text), vendor, volid))
  {
    if text != "" {
      var n := Run(cls.inLabel, text);
      if n == 0 {
        assert vendor[0] in vendor;
        SubstituteIsRelabel(cls, text[1..], vendor, volid);
      } else {
        var run, rest := text[..n], text[n..];
        assert text == run + rest;
        WholeRun(cls, run, rest, vendor, volid);
        SubstituteIsRelabel(cls, rest, vendor, volid);
      }
    }
  }

  // ----- consequences for whole texts

  lemma RetargetTokens(cls: Classes, text: string, vendor: string, volid: string)
    requires IsLabel(cls, vendor) && IsLabel(cls, volid)
    ensures Tokens(cls, Retarget(cls, text, vendor, volid)) == RelabelTokens(Tokens(cls, text), vendor, volid)
  {
    RetargetIsRelabel(cls, text, vendor, volid);
    TokensValid(cls, text);
    RelabelValid(cls, Tokens(cls, text), vendor, volid);
    TokensDetok(cls, RelabelTokens(Tokens(cls, text), vendor, volid));
  }

  // Texts with the same tokens are the same.
  lemma SameTokens(cls: Classes, a: string, b: string)
    requires Tokens(cls, a) == Tokens(cls, b)
    ensures a == b
  {
    DetokTokens(cls, a);
    DetokTokens(cls, b);
  }

  lemma NoVendorLeft(cls: Classes, text: string, vendor: string, volid: string)
    requires IsLabel(cls, vendor) && IsLabel(cls, volid) && vendor != volid
    ensures Word(vendor) !in Tokens(cls, Retarget(cls, text, vendor, volid))
    ensures Retarget(cls, Retarget(cls, text, vendor, volid), vendor, volid) == Retarget(cls, text, vendor, volid)
  {
    var once := Retarget(cls, text, vendor, volid);
    RetargetTokens(cls, text, vendor, volid);
    RetargetTokens(cls, once, vendor, volid);
    assert RelabelTokens(Tokens(cls, once), vendor, volid) == Tokens(cls, once);
    SameTokens(cls, once, Retarget(cls, once, vendor, volid));
  }

  // Relabelling twice in a row is relabelling once exactly when the label in
  // the middle was not already there (or nothing changes on the way).
  lemma RetargetComposesIff(cls: Classes, text: string, a: string, b: string, c: string)
    requires IsLabel(cls, a) && IsLabel(cls, b) && IsLabel(cls, c)
    ensures Retarget(cls, Retarget(cls, text, a, b), b, c) == Retarget(cls, text, a, c)
       <==> a == b || b == c || Word(b) !in Tokens(cls, text)
  {
    var ts := Tokens(cls, text);
    var mid := Retarget(cls, text, a, b);
    RetargetTokens(cls, text, a, b);
    RetargetTokens(cls, mid, b, c);
    RetargetTokens(cls, text, a, c);
    var twice, once := RelabelTokens(RelabelTokens(ts, a, b), b, c), RelabelTokens(ts, a, c);
    if a == b || b == c || Word(b) !in ts {
      assert twice == once;
      SameTokens(cls, Retarget(cls, mid, b, c), Retarget(cls, text, a, c));
    } else {
      var k :| 0 <= k < |ts| && ts[k] == Word(b);
      assert twice[k] == Word(c) && once[k] == Word(b);
    }
  }

  // The reverse call undoes a relabelling exactly when the new label was not
  // already a whole label of the text.
  lemma RetargetUndoneIff(cls: Classes, text: string, vendor: string, volid: string)
    requires IsLabel(cls, vendor) && IsLabel(cls, volid) && vendor != volid
    ensures Retarget(cls, Retarget(cls, text, vendor, volid), volid, vendor) == text
       <==> Word(volid) !in Tokens(cls, text)
  {
    RetargetComposesIff(cls, text, vendor, volid, vendor);
  }
}
