/** Byte strings and `bytes.find`, shared by the parsers of this project. */
module Bytes {
  newtype byte = x: int | 0 <= x < 0x100

  type Bytes = seq<byte>

  import opened Options

  /** `needle` stands in `hay` at offset `i`. */
  predicate OccursAt(hay: Bytes, needle: Bytes, i: nat) {
    i + |needle| <= |hay| && hay[i..i + |needle|] == needle
  }

  /** `hay.find(needle)`: the least offset at which the needle occurs. */
  function Find(hay: Bytes, needle: Bytes): (r: Option<nat>)
    ensures r.Some? ==> OccursAt(hay, needle, r.value)
    ensures r.Some? ==> forall j: nat | j < r.value :: !OccursAt(hay, needle, j)
    ensures r.None? ==> forall j: nat :: !OccursAt(hay, needle, j)
  {
    FindFrom(hay, needle, 0)
  }

  function FindFrom(hay: Bytes, needle: Bytes, from: nat): (r: Option<nat>)
    requires forall j: nat | j < from :: !OccursAt(hay, needle, j)
    ensures r.Some? ==> OccursAt(hay, needle, r.value)
    ensures r.Some? ==> forall j: nat | j < r.value :: !OccursAt(hay, needle, j)
    ensures r.None? ==> forall j: nat :: !OccursAt(hay, needle, j)
    decreases |hay| - from
  {
    if |hay| < from + |needle| then None
    else if OccursAt(hay, needle, from) then Some(from)
    else if from == |hay| then None
    else FindFrom(hay, needle, from + 1)
  }

  /** An occurrence that ends inside `a` does not depend on what follows `a`. */
  lemma OccursInPrefix(a: Bytes, b: Bytes, needle: Bytes, i: nat)
    requires i + |needle| <= |a|
    ensures OccursAt(a + b, needle, i) <==> OccursAt(a, needle, i)
  {
    assert (a + b)[i..i + |needle|] == a[i..i + |needle|];
  }

  /** The first occurrence, once complete, stays the first whatever is appended. */
  lemma FindExtends(a: Bytes, b: Bytes, needle: Bytes)
    requires Find(a, needle).Some?
    ensures Find(a + b, needle) == Find(a, needle)
  {
    var k := Find(a, needle).value;
    OccursInPrefix(a, b, needle, k);
    forall j: nat | j < k ensures !OccursAt(a + b, needle, j) {
      OccursInPrefix(a, b, needle, j);
    }
  }

  /** Dropping `n` bytes that no occurrence starts in moves the first occurrence by `n`. */
  lemma FindAfterDrop(s: Bytes, needle: Bytes, n: nat)
    requires n <= |s|
    requires forall j: nat | j < n :: !OccursAt(s, needle, j)
    ensures Find(s, needle).Some? <==> Find(s[n..], needle).Some?
    ensures Find(s, needle).Some? ==>
              Find(s, needle).value >= n && Find(s[n..], needle).value == Find(s, needle).value - n
  {
    forall i: nat ensures OccursAt(s[n..], needle, i) <==> OccursAt(s, needle, n + i) {
      if n + i + |needle| <= |s| {
        assert s[n..][i..i + |needle|] == s[n + i..n + i + |needle|];
      }
    }
    if Find(s, needle).Some? {
      var k := Find(s, needle).value;
      assert OccursAt(s[n..], needle, k - n);
    }
    if Find(s[n..], needle).Some? {
      assert OccursAt(s, needle, n + Find(s[n..], needle).value);
    }
  }
}
