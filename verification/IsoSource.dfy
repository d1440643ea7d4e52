/** Two loops of the ISO builder: is a kickstart a network install, and the
    chunked copy of an EFI partition out of the source image. */
module IsoSource {
  import opened Prelude

  // ----- `kickstart_is_network`

  // The words of one line: `line.split()`.
  type Words = seq<string>

  predicate Ends(line: Words) {
    line != [] && line[0] == "%end"
  }

  // A `%` line that starts a section when read outside one.
  predicate Opens(line: Words) {
    line != [] && "%" <= line[0] && line[0] != "%end" && line[0] != "%include" && line[0] != "%ksappend"
  }

  // Some section that opened before line i has not ended by then.
  ghost predicate Inside(lines: seq<Words>, i: nat)
    requires i <= |lines|
  {
    exists j | 0 <= j < i :: Opens(lines[j]) && forall k | j < k < i :: !Ends(lines[k])
  }

  ghost predicate NamesUrl(lines: seq<Words>, i: nat)
    requires i < |lines|
  {
    lines[i] != [] && lines[i][0] == "url" && !Inside(lines, i)
  }

  lemma InsideStep(lines: seq<Words>, i: nat)
    requires i < |lines|
    ensures Inside(lines, i + 1) <==> if Inside(lines, i) then !Ends(lines[i]) else Opens(lines[i])
  {
    if Inside(lines, i) && !Ends(lines[i]) {
      var j :| 0 <= j < i && Opens(lines[j]) && forall k | j < k < i :: !Ends(lines[k]);
      assert forall k | j < k < i + 1 :: !Ends(lines[k]);
    }
    if Inside(lines, i + 1) && !(Opens(lines[i])) {
      var j :| 0 <= j < i + 1 && Opens(lines[j]) && forall k | j < k < i + 1 :: !Ends(lines[k]);
      assert j < i && !Ends(lines[i]);
    }
  }

  // A kickstart is a network install exactly when a `url` command stands
  // outside every section.
  method KickstartIsNetwork(lines: seq<Words>) returns (network: bool)
    ensures network <==> exists i | 0 <= i < |lines| :: NamesUrl(lines, i)
  {
    hide Inside, Opens;
    var inSection := false;
    NotInsideAtStart(lines);
    for i := 0 to |lines|
      invariant inSection <==> Inside(lines, i)
      invariant forall k | 0 <= k < i :: !NamesUrl(lines, k)
    {
      InsideStep(lines, i);
      var words := lines[i];
      OpensIs(words);
      if words == [] {
        continue;
      }
      if inSection {
        inSection := words[0] != "%end";
      } else if words[0] == "%end" {
        continue;
      } else if "%" <= words[0] && words[0] != "%include" && words[0] != "%ksappend" {
        inSection := true;
      } else if words[0] == "url" {
        assert NamesUrl(lines, i);
        return true;
      }
    }
    return false;
  }

  lemma NotInsideAtStart(lines: seq<Words>)
    ensures !Inside(lines, 0)
  {
  }

  lemma OpensIs(line: Words)
    ensures Opens(line) <==>
      line != [] && "%" <= line[0] && line[0] != "%end" && line[0] != "%include" && line[0] != "%ksappend"
    ensures line != [] && line[0] == "url" ==> !("%" <= line[0])
  {
    assert "url"[0] == 'u' && "%"[0] == '%';
  }

  // ----- the copy loop of `_extract_esp`

  class Reader {
    const bytes: seq<bv8>
    var pos: nat

    constructor (bytes: seq<bv8>, pos: nat)
      ensures this.bytes == bytes && this.pos == pos
    {
      this.bytes := bytes;
      this.pos := pos;
    }

    // `f.read(n)`: up to n bytes, all the rest for a negative n; nothing only
    // when nothing is asked for or nothing is left.
    method Read(n: int) returns (chunk: seq<bv8>)
      modifies this`pos
      ensures pos == old(pos) + |chunk|
      ensures chunk == [] <==> n == 0 || old(pos) >= |bytes|
      ensures n > 0 ==> |chunk| <= n
      ensures chunk != [] ==> pos <= |bytes| && chunk == bytes[old(pos)..pos]
      ensures n < 0 ==> pos >= |bytes|
    {
      if n == 0 || pos >= |bytes| {
        return [];
      }
      var left := |bytes| - pos;
      var size: nat := left;
      if n > 0 {
        size :| 0 < size <= n && size <= left;
      }
      chunk := bytes[pos..pos + size];
      pos := pos + size;
    }
  }

  const BLOCK := 512
  const CHUNK := 1048576

  function Min(a: int, b: int): int {
    if a < b then a else b
  }

  // The copied file is the source from block `first` to block `last`
  // inclusive; the copy fails exactly when the source ends before that, or
  // when the interval is the wrong way round.
  method CopyBlocks(source: seq<bv8>, first: nat, last: nat) returns (r: Option<seq<bv8>>)
    ensures r.Some? <==> last + 1 == first || (first <= last && (last + 1) * 512 <= |source|)
    ensures r.Some? ==> r.value == if first <= last then source[first * 512..(last + 1) * 512] else []
  {
    var size := (last - first + 1) * BLOCK;
    var f := new Reader(source, first * BLOCK);
    var out := [];
    var remaining := size;
    while remaining != 0
      invariant f.bytes == source
      invariant f.pos == first * BLOCK + |out| && remaining == size - |out|
      invariant out != [] ==> f.pos <= |source|
      invariant first * BLOCK <= |source| ==> f.pos <= |source| && out == source[first * BLOCK..f.pos]
      invariant size >= 0 ==> remaining >= 0
      invariant size < 0 ==> remaining < 0
      decreases |source| - f.pos
    {
      var chunk := f.Read(Min(remaining, CHUNK));
      if chunk == [] {
        return None;
      }
      out := out + chunk;
      remaining := remaining - |chunk|;
    }
    return Some(out);
  }
}
