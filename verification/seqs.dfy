/**
 Sequence helpers shared by the cart, the catalog and the order list:
 `Array.prototype.reduce` for sums, a reference sum to compare it with,
 and order-preserving selection (subsequences).
 */
module Seqs {

  /** JavaScript's `reduce` adding `f` of each element to `acc`: a left fold, first element first. */
  function Reduce<T>(s: seq<T>, f: T -> int, acc: int): int
    decreases |s|
  {
    if |s| == 0 then acc else Reduce(s[1..], f, acc + f(s[0]))
  }

  /** Reference definition of the sum of `f` over `s`. */
  function Sum<T>(s: seq<T>, f: T -> int): int
    decreases |s|
  {
    if |s| == 0 then 0 else f(s[0]) + Sum(s[1..], f)
  }

  /** The left fold from `acc` is `acc` plus the sum. */
  lemma {:induction false} ReduceIsSum<T>(s: seq<T>, f: T -> int, acc: int)
    ensures Reduce(s, f, acc) == acc + Sum(s, f)
    decreases |s|
  {
    if |s| != 0 {
      ReduceIsSum(s[1..], f, acc + f(s[0]));
    }
  }

  /** A sum of non-negative terms is non-negative. */
  lemma {:induction false} SumNonNegative<T>(s: seq<T>, f: T -> int)
    requires forall i :: 0 <= i < |s| ==> f(s[i]) >= 0
    ensures Sum(s, f) >= 0
    decreases |s|
  {
    if |s| != 0 {
      SumNonNegative(s[1..], f);
    }
  }

  /** `idx` picks the elements of `a` out of `b`, at strictly increasing positions. */
  ghost predicate Embeds<T>(idx: seq<int>, a: seq<T>, b: seq<T>) {
    && |idx| == |a|
    && (forall k :: 0 <= k < |idx| ==> 0 <= idx[k] < |b| && b[idx[k]] == a[k])
    && (forall k, l :: 0 <= k < l < |idx| ==> idx[k] < idx[l])
  }

  /** `a` is `b` with some elements dropped and the rest in their original order. */
  ghost predicate IsSubsequence<T>(a: seq<T>, b: seq<T>) {
    exists idx :: Embeds(idx, a, b)
  }

  function Shift(idx: seq<int>): seq<int> {
    seq(|idx|, k requires 0 <= k < |idx| => idx[k] + 1)
  }

  /** Dropping a new head of `b` keeps `a` a subsequence. */
  lemma SubsequenceSkip<T>(a: seq<T>, b: seq<T>, x: T)
    requires IsSubsequence(a, b)
    ensures IsSubsequence(a, [x] + b)
  {
    var idx :| Embeds(idx, a, b);
    assert Embeds(Shift(idx), a, [x] + b);
  }

  /** Keeping a common head extends a subsequence. */
  lemma SubsequenceTake<T>(a: seq<T>, b: seq<T>, x: T)
    requires IsSubsequence(a, b)
    ensures IsSubsequence([x] + a, [x] + b)
  {
    var idx :| Embeds(idx, a, b);
    var idx' := [0] + Shift(idx);
    assert Embeds(idx', [x] + a, [x] + b);
  }

  lemma SubsequenceEmpty<T>(b: seq<T>)
    ensures IsSubsequence([], b)
  {
    assert Embeds([], [], b);
  }

  /** No element occurs twice. */
  predicate Distinct<T(==)>(s: seq<T>) {
    forall i, j :: 0 <= i < j < |s| ==> s[i] != s[j]
  }

  /** A subsequence of a sequence without repeats has no repeats either. */
  lemma SubsequenceDistinct<T>(a: seq<T>, b: seq<T>)
    requires IsSubsequence(a, b) && Distinct(b)
    ensures Distinct(a)
  {
    var idx :| Embeds(idx, a, b);
    forall i, j | 0 <= i < j < |a| ensures a[i] != a[j] {
      assert idx[i] < idx[j];
      assert b[idx[i]] == a[i] && b[idx[j]] == a[j];
    }
  }
}
