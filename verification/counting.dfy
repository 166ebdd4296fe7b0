/**
  Counting the elements of a sequence that satisfy a test: the shape of both
  the land count of a hand and the per-name counts of the decklist view.
 */
module Counting {

  /** Number of elements of `s` for which `p` holds. */
  function CountWhere<T>(s: seq<T>, p: T -> bool): (n: nat)
    ensures n <= |s|
    ensures n == 0 <==> forall k :: 0 <= k < |s| ==> !p(s[k])
    ensures n == |s| <==> forall k :: 0 <= k < |s| ==> p(s[k])
    decreases |s|
  {
    if s == [] then 0
    else
      var init := s[..|s| - 1];
      assert forall k :: 0 <= k < |init| ==> init[k] == s[k];
      CountWhere(init, p) + (if p(s[|s| - 1]) then 1 else 0)
  }

  /** Counts add up over a concatenation. */
  lemma {:induction false} CountWhereAppend<T>(a: seq<T>, b: seq<T>, p: T -> bool)
    ensures CountWhere(a + b, p) == CountWhere(a, p) + CountWhere(b, p)
    decreases |b|
  {
    if b != [] {
      var b' := b[..|b| - 1];
      assert (a + b)[..|a + b| - 1] == a + b';
      CountWhereAppend(a, b', p);
    } else {
      assert a + b == a;
    }
  }

  /** A count depends only on which elements occur and how often, not on their order. */
  lemma {:induction false} CountWherePermutation<T>(a: seq<T>, b: seq<T>, p: T -> bool)
    requires multiset(a) == multiset(b)
    ensures CountWhere(a, p) == CountWhere(b, p)
    decreases |a|
  {
    if a == [] {
      assert |b| == |multiset(b)| == 0;
    } else {
      var x := a[|a| - 1];
      var a' := a[..|a| - 1];
      assert a == a' + [x];
      assert x in multiset(b);
      var j :| 0 <= j < |b| && b[j] == x;
      var b' := b[..j] + b[j + 1..];
      assert b == b[..j] + [x] + b[j + 1..];
      assert multiset(b') == multiset(b) - multiset{x};
      assert multiset(a') == multiset(a) - multiset{x};
      CountWherePermutation(a', b', p);
      CountWhereAppend(a', [x], p);
      CountWhereAppend(b[..j] + [x], b[j + 1..], p);
      CountWhereAppend(b[..j], [x], p);
      CountWhereAppend(b[..j], b[j + 1..], p);
    }
  }
}
