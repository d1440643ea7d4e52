/** The regular expressions of the boot rewriters: sequences of greedy
    repetitions of one character class, and line ends. Matching backtracks as
    Python's `re` does: each repetition takes as much as it can and gives back
    one character at a time. */
module Regex {
  import opened Prelude

  // x{min,max}, without a maximum if None; `$` in multi-line mode.
  datatype Item = Rep(chars: char -> bool, min: nat, max: Option<nat>) | Eol

  function One(c: char): Item {
    Rep(x => x == c, 1, Some(1))
  }

  function Opt(c: char): Item {
    Rep(x => x == c, 0, Some(1))
  }

  function Star(chars: char -> bool): Item {
    Rep(chars, 0, None)
  }

  function Plus(chars: char -> bool): Item {
    Rep(chars, 1, None)
  }

  function Lit(word: string): seq<Item> {
    if word == "" then [] else [One(word[0])] + Lit(word[1..])
  }

  // How many characters of the class s starts with.
  function Run(chars: char -> bool, s: string): (n: nat)
    ensures n <= |s|
    ensures forall k :: 0 <= k < n ==> chars(s[k])
    ensures n < |s| ==> !chars(s[n])
  {
    if s == "" || !chars(s[0]) then 0 else 1 + Run(chars, s[1..])
  }

  predicate AtEol(s: string) {
    s == "" || s[0] == '\n'
  }

  // The length matched at the start of s.
  function Match(re: seq<Item>, s: string): (r: Option<nat>)
    ensures r.Some? ==> r.value <= |s|
    decreases |re|, |s| + 1
  {
    if re == [] then Some(0)
    else
      match re[0]
      case Eol => if AtEol(s) then Match(re[1..], s) else None
      case Rep(chars, min, max) =>
        var run := Run(chars, s);
        Back(re[1..], s, min, if max.Some? && max.value < run then max.value else run)
  }

  // The repetition takes k characters, or fewer until the rest matches.
  function Back(rest: seq<Item>, s: string, min: nat, k: nat): (r: Option<nat>)
    requires k <= |s|
    ensures r.Some? ==> r.value <= |s|
    decreases |rest| + 1, k
  {
    if k < min then None
    else
      match Match(rest, s[k..])
      case Some(n) => Some(k + n)
      case None => if k == 0 then None else Back(rest, s, min, k - 1)
  }

  // Some way of giving each repetition its share matches a beginning of s.
  ghost predicate Matches(re: seq<Item>, s: string)
    decreases |re|
  {
    re == []
    || (match re[0]
        case Eol => AtEol(s) && Matches(re[1..], s)
        case Rep(chars, min, max) =>
          exists k: nat :: min <= k <= |s| && (max.Some? ==> k <= max.value) && (forall i :: 0 <= i < k ==> chars(s[i]))
                           && Matches(re[1..], s[k..]))
  }

  // Backtracking finds a match exactly when there is one.
  lemma {:induction false} MatchIff(re: seq<Item>, s: string)
    ensures Match(re, s).Some? <==> Matches(re, s)
    decreases |re|, |s| + 1
  {
    if re != [] {
      match re[0]
      case Eol =>
        MatchIff(re[1..], s);
      case Rep(chars, min, max) =>
        var run := Run(chars, s);
        var most := if max.Some? && max.value < run then max.value else run;
        BackIff(re[1..], s, min, most);
    }
  }

  lemma {:induction false} BackIff(rest: seq<Item>, s: string, min: nat, k: nat)
    requires k <= |s|
    ensures Back(rest, s, min, k).Some? <==> exists j: nat :: min <= j <= k && Matches(rest, s[j..])
    decreases |rest| + 1, k
  {
    if min <= k {
      MatchIff(rest, s[k..]);
      if k > 0 {
        BackIff(rest, s, min, k - 1);
      }
    }
  }

  // The first repetition takes as much as leaves the rest a match, and the rest
  // matches behind it.
  lemma {:induction false} MatchIsGreedy(chars: char -> bool, min: nat, max: Option<nat>, rest: seq<Item>, s: string)
    returns (k: nat)
    requires Match([Rep(chars, min, max)] + rest, s).Some?
    ensures min <= k <= |s| && (max.Some? ==> k <= max.value) && forall i :: 0 <= i < k ==> chars(s[i])
    ensures Match(rest, s[k..]).Some? && Match([Rep(chars, min, max)] + rest, s).value == k + Match(rest, s[k..]).value
    ensures forall j :: k < j <= |s| && (max.Some? ==> j <= max.value) && (forall i :: 0 <= i < j ==> chars(s[i])) ==>
              !Matches(rest, s[j..])
  {
    assert ([Rep(chars, min, max)] + rest)[1..] == rest;
    var run := Run(chars, s);
    k := BackIsGreedy(rest, s, min, if max.Some? && max.value < run then max.value else run);
  }

  lemma {:induction false} BackIsGreedy(rest: seq<Item>, s: string, min: nat, most: nat) returns (k: nat)
    requires most <= |s| && Back(rest, s, min, most).Some?
    ensures min <= k <= most && Match(rest, s[k..]).Some? && Back(rest, s, min, most).value == k + Match(rest, s[k..]).value
    ensures forall j :: k < j <= most ==> !Matches(rest, s[j..])
    decreases most
  {
    MatchIff(rest, s[most..]);
    if Match(rest, s[most..]).Some? {
      k := most;
    } else {
      k := BackIsGreedy(rest, s, min, most - 1);
    }
  }

  function Plus1(n: nat, r: Option<nat>): Option<nat> {
    match r case Some(m) => Some(n + m) case None => None
  }

  lemma OneMatch(c: char, re: seq<Item>, s: string)
    ensures Match([One(c)] + re, s) == if s != "" && s[0] == c then Plus1(1, Match(re, s[1..])) else None
  {
    var all := [One(c)] + re;
    assert all[1..] == re;
    var p := (x: char) => x == c;
    if s != "" && s[0] == c {
      assert Run(p, s) >= 1;
      assert Back(re, s, 1, 1) == Plus1(1, Match(re, s[1..]));
    } else {
      assert Run(p, s) == 0;
    }
  }

  lemma {:induction false} LitMatch(word: string, re: seq<Item>, s: string)
    ensures Match(Lit(word) + re, s) == if word <= s then Plus1(|word|, Match(re, s[|word|..])) else None
  {
    if word == "" {
      assert Lit(word) + re == re && s[0..] == s;
    } else {
      var rest := Lit(word[1..]) + re;
      assert Lit(word) + re == [One(word[0])] + rest;
      OneMatch(word[0], rest, s);
      if s != "" && s[0] == word[0] {
        LitMatch(word[1..], re, s[1..]);
        assert word <= s <==> word[1..] <= s[1..];
        assert word <= s ==> s[1..][|word| - 1..] == s[|word|..];
      }
    }
  }

  lemma PlusMatch(chars: char -> bool, re: seq<Item>, s: string)
    ensures Match([Plus(chars)] + re, s) == Back(re, s, 1, Run(chars, s))
  {
    assert ([Plus(chars)] + re)[1..] == re;
  }

  lemma StarMatch(chars: char -> bool, re: seq<Item>, s: string)
    ensures Match([Star(chars)] + re, s) == Back(re, s, 0, Run(chars, s))
  {
    assert ([Star(chars)] + re)[1..] == re;
  }

  // If the rest fails wherever a repetition could give back, only its full
  // run can work.
  lemma {:induction false} NoGivingBack(re: seq<Item>, s: string, min: nat, k: nat)
    requires k <= |s| && forall j | min <= j < k :: Match(re, s[j..]).None?
    ensures Back(re, s, min, k) == if k < min then None else Plus1(k, Match(re, s[k..]))
  {
    if k >= min && Match(re, s[k..]).None? && k > 0 {
      NoGivingBack(re, s, min, k - 1);
    }
  }
}
