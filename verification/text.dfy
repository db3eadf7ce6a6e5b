/**
 * String helpers used by the post-retrieval comedian filter and by the
 * meaning given to ILIKE patterns: ASCII lower- and upper-casing
 * (`String.prototype.toLowerCase` restricted to ASCII) and substring
 * search (`String.prototype.includes`).
 */
module Text {

  function LowerChar(c: char): char {
    if 'A' <= c <= 'Z' then (c as int + 32) as char else c
  }

  function UpperChar(c: char): char {
    if 'a' <= c <= 'z' then (c as int - 32) as char else c
  }

  /** `s.toLowerCase()` over ASCII: every character is lowered, in place. */
  function Lower(s: string): (r: string)
    ensures |r| == |s|
    ensures forall i :: 0 <= i < |s| ==> r[i] == LowerChar(s[i])
  {
    if s == [] then [] else [LowerChar(s[0])] + Lower(s[1..])
  }

  /** `s.toUpperCase()` over ASCII. */
  function Upper(s: string): (r: string)
    ensures |r| == |s|
    ensures forall i :: 0 <= i < |s| ==> r[i] == UpperChar(s[i])
  {
    if s == [] then [] else [UpperChar(s[0])] + Upper(s[1..])
  }

  /** `needle` occurs in `hay` starting at position `i`. */
  predicate OccursAt(hay: string, needle: string, i: nat) {
    i + |needle| <= |hay| && hay[i..i + |needle|] == needle
  }

  /** `hay.includes(needle)`: `needle` occurs in `hay` as a contiguous run. */
  predicate Contains(hay: string, needle: string) {
    exists i: nat :: i <= |hay| && OccursAt(hay, needle, i)
  }

  /** The window of `hay` at position `i` equals `needle` up to case. */
  predicate OccursIgnoringCaseAt(hay: string, needle: string, i: nat) {
    i + |needle| <= |hay| && Lower(hay[i..i + |needle|]) == Lower(needle)
  }

  /** `hay.toLowerCase().includes(needle.toLowerCase())`. */
  predicate ContainsIgnoringCase(hay: string, needle: string) {
    Contains(Lower(hay), Lower(needle))
  }

  /** Lowering commutes with taking a slice. */
  lemma LowerSlice(s: string, i: nat, j: nat)
    requires i <= j <= |s|
    ensures Lower(s)[i..j] == Lower(s[i..j])
  {
  }

  /** Lowering an already lowered string changes nothing. */
  lemma LowerIdempotent(s: string)
    ensures Lower(Lower(s)) == Lower(s)
  {
  }

  /** Upper-casing first is forgotten by lowering. */
  lemma LowerOfUpper(s: string)
    ensures Lower(Upper(s)) == Lower(s)
  {
  }

  /**
   * Case-insensitive containment does not see the case of either side:
   * upper- or lower-casing the text or the query leaves the answer unchanged.
   */
  lemma ContainsIgnoringCaseIgnoresCase(hay: string, needle: string)
    ensures ContainsIgnoringCase(Upper(hay), needle) == ContainsIgnoringCase(hay, needle)
    ensures ContainsIgnoringCase(Lower(hay), needle) == ContainsIgnoringCase(hay, needle)
    ensures ContainsIgnoringCase(hay, Upper(needle)) == ContainsIgnoringCase(hay, needle)
    ensures ContainsIgnoringCase(hay, Lower(needle)) == ContainsIgnoringCase(hay, needle)
  {
    LowerOfUpper(hay);
    LowerOfUpper(needle);
    LowerIdempotent(hay);
    LowerIdempotent(needle);
  }

  /**
   * Case-insensitive containment, stated on slices of the original text:
   * some window of `hay` as long as `needle` equals it up to case.
   */
  lemma ContainsIgnoringCaseAt(hay: string, needle: string)
    ensures ContainsIgnoringCase(hay, needle) <==> exists i: nat :: i <= |hay| && OccursIgnoringCaseAt(hay, needle, i)
  {
    assert |Lower(hay)| == |hay| && |Lower(needle)| == |needle|;
    if ContainsIgnoringCase(hay, needle) {
      var i: nat :| i <= |hay| && OccursAt(Lower(hay), Lower(needle), i);
      assert i + |Lower(needle)| <= |Lower(hay)|;
      LowerSlice(hay, i, i + |needle|);
      assert OccursIgnoringCaseAt(hay, needle, i);
    }
    if exists i: nat :: i <= |hay| && OccursIgnoringCaseAt(hay, needle, i) {
      var i: nat :| i <= |hay| && OccursIgnoringCaseAt(hay, needle, i);
      assert i + |needle| <= |hay|;
      LowerSlice(hay, i, i + |needle|);
      assert OccursAt(Lower(hay), Lower(needle), i);
    }
  }
}
