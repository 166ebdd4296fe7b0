/**
  The parts of Python's string behaviour the card logic relies on:
  `str.lower()` (on ASCII letters) and the substring test `needle in hay`.
 */
module Text {

  /** An ASCII capital letter: the only characters the modelled `lower()` changes. */
  predicate IsUpper(c: char) {
    'A' <= c <= 'Z'
  }

  /** `d` is `c` itself, or `c` is a capital letter and `d` the matching small letter. */
  predicate LowerOf(c: char, d: char) {
    d == c || (IsUpper(c) && d as int == c as int + 32)
  }

  function LowerChar(c: char): char {
    if IsUpper(c) then (c as int + 32) as char else c
  }

  /** `str.lower()`: the same string with every capital letter replaced by its small letter. */
  function Lower(s: string): (r: string)
    ensures |r| == |s|
    ensures forall i :: 0 <= i < |r| ==> !IsUpper(r[i]) && LowerOf(s[i], r[i])
    ensures forall i :: 0 <= i < |r| ==> r[i] == LowerChar(s[i])
    decreases |s|
  {
    if s == [] then [] else [LowerChar(s[0])] + Lower(s[1..])
  }

  /** Lower-casing is idempotent: a lowered string has nothing left to lower. */
  lemma LowerIdempotent(s: string)
    ensures Lower(Lower(s)) == Lower(s)
  {
    var t := Lower(s);
    assert forall i :: 0 <= i < |t| ==> Lower(t)[i] == t[i];
  }

  /** Lower-casing commutes with taking a slice. */
  lemma LowerSlice(s: string, i: int, j: int)
    requires 0 <= i <= j <= |s|
    ensures Lower(s)[i..j] == Lower(s[i..j])
  {
    var a, b := Lower(s)[i..j], Lower(s[i..j]);
    forall k | 0 <= k < |a|
      ensures a[k] == b[k]
    {
      assert a[k] == Lower(s)[i + k] == LowerChar(s[i + k]);
      assert b[k] == LowerChar(s[i..j][k]);
    }
  }

  /** `needle` occurs in `hay` starting at index `i`. */
  predicate OccursAt(needle: string, hay: string, i: int) {
    0 <= i && i + |needle| <= |hay| && hay[i..i + |needle|] == needle
  }

  /** `needle` occurs at index `i` of `hay` when case is ignored. */
  predicate OccursAtIgnoringCase(needle: string, hay: string, i: int) {
    0 <= i && i + |needle| <= |hay| && Lower(hay[i..i + |needle|]) == needle
  }

  /** Python's `needle in hay`: scans the start positions of `hay` from left to right. */
  function Contains(needle: string, hay: string): (b: bool)
    ensures b <==> exists i :: OccursAt(needle, hay, i)
    decreases |hay|
  {
    if |hay| < |needle| then false
    else if hay[..|needle|] == needle then
      assert OccursAt(needle, hay, 0);
      true
    else
      var later := Contains(needle, hay[1..]);
      assert later ==> exists i :: OccursAt(needle, hay, i) by {
        if later {
          var i :| OccursAt(needle, hay[1..], i);
          assert hay[i + 1..i + 1 + |needle|] == hay[1..][i..i + |needle|];
          assert OccursAt(needle, hay, i + 1);
        }
      }
      assert (exists i :: OccursAt(needle, hay, i)) ==> later by {
        if i :| OccursAt(needle, hay, i) {
          assert i != 0;
          assert hay[1..][i - 1..i - 1 + |needle|] == hay[i..i + |needle|];
          assert OccursAt(needle, hay[1..], i - 1);
        }
      }
      later
  }

  /** Searching a lowered string finds exactly the case-insensitive occurrences in the original. */
  lemma ContainsInLowerIgnoresCase(needle: string, hay: string)
    ensures Contains(needle, Lower(hay)) <==> exists i :: OccursAtIgnoringCase(needle, hay, i)
  {
    if i :| OccursAt(needle, Lower(hay), i) {
      LowerSlice(hay, i, i + |needle|);
      assert OccursAtIgnoringCase(needle, hay, i);
    }
    if i :| OccursAtIgnoringCase(needle, hay, i) {
      LowerSlice(hay, i, i + |needle|);
      assert OccursAt(needle, Lower(hay), i);
    }
  }
}
