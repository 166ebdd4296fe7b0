/**
  `random.shuffle` on a list: the Fisher-Yates loop that, for i from the
  last index down to 1, swaps position i with a position j drawn uniformly
  from 0..i. The random draws are a parameter (`rolls`, the j's in the
  order they are drawn); only their range is assumed, not their distribution.
 */
module Shuffling {

  /**
    `rolls` are the draws a shuffle of `n` elements makes: one per
    i = n-1 down to 1, the k-th lying in 0..n-1-k.
   */
  predicate ValidRolls(n: nat, rolls: seq<int>) {
    && |rolls| == (if n == 0 then 0 else n - 1)
    && forall k :: 0 <= k < |rolls| ==> 0 <= rolls[k] <= n - 1 - k
  }

  /** `s` with the elements at `i` and `j` exchanged. */
  function Swap<T>(s: seq<T>, i: nat, j: nat): (r: seq<T>)
    requires i < |s| && j < |s|
    ensures |r| == |s|
  {
    s[i := s[j]][j := s[i]]
  }

  /** A swap keeps every element, as often as before. */
  lemma SwapPermutes<T>(s: seq<T>, i: nat, j: nat)
    requires i < |s| && j < |s|
    ensures multiset(Swap(s, i, j)) == multiset(s)
  {
  }

  /**
    The outcome of the shuffle loop: the first swap settles the last
    position for good, and the rest of the loop shuffles what lies before it.
   */
  function FisherYates<T>(s: seq<T>, rolls: seq<int>): (r: seq<T>)
    requires ValidRolls(|s|, rolls)
    ensures |r| == |s|
    decreases |s|
  {
    if |s| <= 1 then s
    else
      var i := |s| - 1;
      var t := Swap(s, i, rolls[0]);
      FisherYates(t[..i], rolls[1..]) + [t[i]]
  }

  /**
    What the in-place loop keeps true with `i` still to go: positions past
    `i` are final, and shuffling `r[..i + 1]` with the remaining draws
    completes the whole shuffle.
   */
  ghost predicate LoopInvariant<T>(s: seq<T>, rolls: seq<int>, r: seq<T>, i: int)
    requires ValidRolls(|s|, rolls)
  {
    && 0 <= i < |s| && |r| == |s|
    && ValidRolls(i + 1, rolls[|s| - 1 - i..])
    && FisherYates(s, rolls) == FisherYates(r[..i + 1], rolls[|s| - 1 - i..]) + r[i + 1..]
  }

  /** One turn of the shuffle loop, swapping position `i` with the next draw, keeps the invariant. */
  lemma LoopStep<T>(s: seq<T>, rolls: seq<int>, r: seq<T>, i: int)
    requires ValidRolls(|s|, rolls) && LoopInvariant(s, rolls, r, i) && i >= 1
    ensures LoopInvariant(s, rolls, Swap(r, i, rolls[|s| - 1 - i]), i - 1)
  {
    var k := |s| - 1 - i;
    var rs := rolls[k..];
    assert rs[1..] == rolls[k + 1..];
    SwapInPrefix(r, i, rs[0]);
    FisherYatesUnfold(r[..i + 1], rs);
  }

  /** Swapping inside the prefix `r[..i + 1]` is swapping inside `r` and keeping what follows. */
  lemma SwapInPrefix<T>(r: seq<T>, i: nat, j: nat)
    requires j <= i < |r|
    ensures Swap(r[..i + 1], i, j)[..i] == Swap(r, i, j)[..i]
    ensures Swap(r[..i + 1], i, j)[i] == Swap(r, i, j)[i]
    ensures Swap(r, i, j)[i + 1..] == r[i + 1..]
  {
  }

  /** The shuffle loop as written: swap in place, walking i downwards. */
  method ShuffleInPlace<T>(s: seq<T>, rolls: seq<int>) returns (r: seq<T>)
    requires ValidRolls(|s|, rolls)
    ensures r == FisherYates(s, rolls)
  {
    r := s;
    if |s| <= 1 {
      return;
    }
    var i := |s| - 1;
    assert r[..i + 1] == s && rolls[|s| - 1 - i..] == rolls && r[i + 1..] == [];
    while i >= 1
      invariant LoopInvariant(s, rolls, r, i)
      decreases i
    {
      LoopStep(s, rolls, r, i);
      r := Swap(r, i, rolls[|s| - 1 - i]);
      i := i - 1;
    }
    assert r[..1] + r[1..] == r;
    assert FisherYates(r[..1], rolls[|s| - 1..]) == r[..1];
  }

  lemma SplitLast<T>(s: seq<T>)
    requires |s| > 0
    ensures s == s[..|s| - 1] + [s[|s| - 1]]
  {
  }

  /** Shuffling only reorders: the same elements, each as often as before. */
  lemma {:induction false} FisherYatesPermutes<T>(s: seq<T>, rolls: seq<int>)
    requires ValidRolls(|s|, rolls)
    ensures multiset(FisherYates(s, rolls)) == multiset(s)
    decreases |s|
  {
    if |s| > 1 {
      var i := |s| - 1;
      var t := Swap(s, i, rolls[0]);
      FisherYatesUnfold(s, rolls);
      SwapPermutes(s, i, rolls[0]);
      SplitLast(t);
      FisherYatesPermutes(t[..i], rolls[1..]);
    }
  }

  /** Position of the first occurrence of `x` in `s`. */
  function IndexOf<T(==)>(s: seq<T>, x: T): (j: nat)
    requires x in s
    ensures j < |s| && s[j] == x
    ensures forall k :: 0 <= k < j ==> s[k] != x
  {
    if s[0] == x then 0 else 1 + IndexOf(s[1..], x)
  }

  /**
    The draws that make the shuffle produce `target`: at each step, pick
    the position currently holding the element `target` wants last.
   */
  function RollsFor<T(==)>(s: seq<T>, target: seq<T>): (rolls: seq<int>)
    requires multiset(s) == multiset(target)
    ensures ValidRolls(|s|, rolls)
    decreases |s|
  {
    assert |s| == |multiset(s)| == |multiset(target)| == |target|;
    if |s| <= 1 then []
    else
      var i := |s| - 1;
      assert target[i] in multiset(s);
      var j := IndexOf(s, target[i]);
      var t := Swap(s, i, j);
      SwapPermutes(s, i, j);
      PrefixMultiset(t, target);
      [j] + RollsFor(t[..i], target[..i])
  }

  /** One step of `RollsFor`: the first draw brings `target`'s last element to the end. */
  lemma RollsForUnfold<T>(s: seq<T>, target: seq<T>)
    requires multiset(s) == multiset(target) && |s| > 1
    ensures |target| == |s|
    ensures target[|s| - 1] in s
    ensures var i := |s| - 1;
            var t := Swap(s, i, IndexOf(s, target[i]));
            && t[i] == target[i]
            && multiset(t[..i]) == multiset(target[..i])
            && RollsFor(s, target) == [IndexOf(s, target[i])] + RollsFor(t[..i], target[..i])
  {
    assert |s| == |multiset(s)| == |multiset(target)| == |target|;
    var i := |s| - 1;
    assert target[i] in multiset(s);
    var t := Swap(s, i, IndexOf(s, target[i]));
    SwapPermutes(s, i, IndexOf(s, target[i]));
    PrefixMultiset(t, target);
  }

  /** One step of the shuffle: swap the last position with the first draw, then shuffle the rest. */
  lemma FisherYatesUnfold<T>(s: seq<T>, rolls: seq<int>)
    requires ValidRolls(|s|, rolls) && |s| > 1
    ensures ValidRolls(|s| - 1, rolls[1..])
    ensures var t := Swap(s, |s| - 1, rolls[0]);
            FisherYates(s, rolls) == FisherYates(t[..|s| - 1], rolls[1..]) + [t[|s| - 1]]
  {
  }

  /** Two permutations agreeing on their last element are permutations of each other without it. */
  lemma PrefixMultiset<T>(t: seq<T>, target: seq<T>)
    requires |t| == |target| > 0
    requires multiset(t) == multiset(target) && t[|t| - 1] == target[|t| - 1]
    ensures multiset(t[..|t| - 1]) == multiset(target[..|t| - 1])
  {
    var i := |t| - 1;
    assert t == t[..i] + [t[i]];
    assert target == target[..i] + [target[i]];
    assert multiset(t[..i]) == multiset(t) - multiset{t[i]};
    assert multiset(target[..i]) == multiset(target) - multiset{target[i]};
  }

  /** Every permutation is an outcome of the shuffle, reached by the draws `RollsFor` picks. */
  lemma {:induction false} FisherYatesReaches<T>(s: seq<T>, target: seq<T>)
    requires multiset(s) == multiset(target)
    ensures FisherYates(s, RollsFor(s, target)) == target
    decreases |s|
  {
    assert |s| == |multiset(s)| == |multiset(target)| == |target|;
    if |s| == 1 {
      assert s[0] in multiset(target);
    } else if |s| > 1 {
      var i := |s| - 1;
      RollsForUnfold(s, target);
      var j := IndexOf(s, target[i]);
      var t := Swap(s, i, j);
      var rolls := RollsFor(s, target);
      FisherYatesUnfold(s, rolls);
      assert rolls[1..] == RollsFor(t[..i], target[..i]);
      FisherYatesReaches(t[..i], target[..i]);
      SplitLast(target);
    }
  }

  /** The shuffle's possible outcomes are exactly the rearrangements of its input. */
  lemma ShuffleOutcomes<T>(s: seq<T>, target: seq<T>)
    ensures (exists rolls :: ValidRolls(|s|, rolls) && FisherYates(s, rolls) == target)
        <==> multiset(target) == multiset(s)
  {
    if rolls :| ValidRolls(|s|, rolls) && FisherYates(s, rolls) == target {
      FisherYatesPermutes(s, rolls);
    }
    if multiset(target) == multiset(s) {
      FisherYatesReaches(s, target);
      var rolls := RollsFor(s, target);
      assert ValidRolls(|s|, rolls) && FisherYates(s, rolls) == target;
    }
  }
}
