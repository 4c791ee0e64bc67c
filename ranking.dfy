/**
 * The top-k selection both the search page and the cluster summary use:
 * `np.argsort(scores)[::-1][:k]`. The sort itself is NumPy's; it arrives
 * as an `order` that is a permutation of the positions sorting the scores
 * ascending. Ties may come in any order, since the default sort is not
 * stable, so no tie rule is modelled.
 */
module Ranking {

  /** `np.argsort(s)`: every position once, in ascending order of score. */
  ghost predicate IsArgsort(order: seq<nat>, s: seq<real>)
  {
    |order| == |s| &&
    (forall i :: 0 <= i < |order| ==> order[i] < |s|) &&
    (forall i, j :: 0 <= i < j < |order| ==> order[i] != order[j]) &&
    (forall p :: 0 <= p < |s| ==> p in order) &&
    (forall i, j :: 0 <= i < j < |order| ==> s[order[i]] <= s[order[j]])
  }

  /** The length of Python's `xs[:k]` for a sequence of length `n`; a negative `k` counts from the end. */
  function SliceLength(n: nat, k: int): (m: nat)
    ensures m <= n
    ensures k >= 0 ==> m == if k < n then k else n
  {
    if k >= 0 then (if k < n then k else n)
    else if n + k > 0 then n + k else 0
  }

  /** `xs[::-1]`. */
  function Reversed<T>(xs: seq<T>): (r: seq<T>)
    ensures |r| == |xs|
  {
    seq(|xs|, i requires 0 <= i < |xs| => xs[|xs| - 1 - i])
  }

  /** `order[::-1][:k]`: the positions of the highest scores, best first. */
  function TopIndices(order: seq<nat>, k: int): (top: seq<nat>)
    ensures |top| == SliceLength(|order|, k)
    ensures forall i :: 0 <= i < |top| ==> top[i] == order[|order| - 1 - i]
  {
    Reversed(order)[..SliceLength(|order|, k)]
  }

  /** `k` results for `0 <= k <= n`, all `n` for larger `k`, none from an empty score list. */
  lemma TopIndicesCount(order: seq<nat>, k: int)
    ensures k >= 0 ==> |TopIndices(order, k)| == if k < |order| then k else |order|
    ensures |order| == 0 ==> TopIndices(order, k) == []
    ensures k < 0 ==> |TopIndices(order, k)| == if |order| + k > 0 then |order| + k else 0
  {
  }

  /** The selected positions are distinct positions of the score list. */
  lemma TopIndicesDistinct(order: seq<nat>, s: seq<real>, k: int)
    requires IsArgsort(order, s)
    ensures forall i :: 0 <= i < |TopIndices(order, k)| ==> TopIndices(order, k)[i] < |s|
    ensures forall i, j :: 0 <= i < j < |TopIndices(order, k)| ==> TopIndices(order, k)[i] != TopIndices(order, k)[j]
  {
    var top := TopIndices(order, k);
    forall i, j | 0 <= i < j < |top|
      ensures top[i] != top[j]
    {
    }
  }

  /** The selected scores are non-increasing. */
  lemma TopIndicesOrdered(order: seq<nat>, s: seq<real>, k: int)
    requires IsArgsort(order, s)
    ensures forall i, j :: 0 <= i < j < |TopIndices(order, k)| ==>
      s[TopIndices(order, k)[i]] >= s[TopIndices(order, k)[j]]
  {
    var top := TopIndices(order, k);
    forall i, j | 0 <= i < j < |top|
      ensures s[top[i]] >= s[top[j]]
    {
      var n := |order|;
      assert s[order[n - 1 - j]] <= s[order[n - 1 - i]];
    }
  }

  /** Every selected score is at least every score left out. */
  lemma TopIndicesDominate(order: seq<nat>, s: seq<real>, k: int)
    requires IsArgsort(order, s)
    ensures forall p, i :: 0 <= p < |s| && p !in TopIndices(order, k) && 0 <= i < |TopIndices(order, k)| ==>
      s[TopIndices(order, k)[i]] >= s[p]
  {
    var top := TopIndices(order, k);
    var n := |order|;
    forall p, i | 0 <= p < |s| && p !in top && 0 <= i < |top|
      ensures s[top[i]] >= s[p]
    {
      assert p in order;
      var q :| 0 <= q < n && order[q] == p;
      TopIndicesMembers(order, s, k, p);
      assert q < n - |top|;
      if q < n - 1 - i {
        assert s[order[q]] <= s[order[n - 1 - i]];
      }
    }
  }

  /** The selection is exactly the last `m` positions of the ascending order, so it holds the best `m` scores. */
  lemma TopIndicesMembers(order: seq<nat>, s: seq<real>, k: int, p: nat)
    requires IsArgsort(order, s) && p < |s|
    ensures p in TopIndices(order, k) <==>
      exists q :: |order| - SliceLength(|order|, k) <= q < |order| && order[q] == p
  {
    var top := TopIndices(order, k);
    var n := |order|;
    if p in top {
      var i :| 0 <= i < |top| && top[i] == p;
      assert order[n - 1 - i] == p;
    }
    if exists q :: n - |top| <= q < n && order[q] == p {
      var q :| n - |top| <= q < n && order[q] == p;
      assert top[n - 1 - q] == p;
    }
  }
}
