/** Order-preserving filtering and occurrence counting over sequences, shared
    by every list update the application performs with `Array.filter`. */
module Seqs {

  /** The elements of `xs` that satisfy `keep`, in their original order
      (`FilterInOrder` states the order, `FilterCount` the multiplicities). */
  function Filter<T>(xs: seq<T>, keep: T -> bool): (r: seq<T>)
    ensures |r| <= |xs|
    ensures forall i :: 0 <= i < |r| ==> r[i] in xs && keep(r[i])
    ensures forall i :: 0 <= i < |xs| && keep(xs[i]) ==> xs[i] in r
  {
    if |xs| == 0 then []
    else (if keep(xs[0]) then [xs[0]] else []) + Filter(xs[1..], keep)
  }

  /** A kept value occurs in the filter exactly as often as in `xs`; a
      dropped value does not occur at all. */
  lemma {:induction false} FilterCount<T>(xs: seq<T>, keep: T -> bool, x: T)
    ensures Count(Filter(xs, keep), x) == if keep(x) then Count(xs, x) else 0
  {
    if |xs| > 0 {
      FilterCount(xs[1..], keep, x);
      var rest := Filter(xs[1..], keep);
      if keep(xs[0]) {
        var r := [xs[0]] + rest;
        assert r[0] == xs[0] && r[1..] == rest;
      } else {
        assert Filter(xs, keep) == rest;
      }
    }
  }

  /** The positions `lo`, `lo + 1`, ... of `xs` whose element satisfies
      `keep`, in ascending order (`KeptIncreasing`, `KeptComplete`). */
  function Kept<T>(xs: seq<T>, keep: T -> bool, lo: nat): (idx: seq<nat>)
    requires lo <= |xs|
    ensures forall k :: 0 <= k < |idx| ==> lo <= idx[k] < |xs| && keep(xs[idx[k]])
    decreases |xs| - lo
  {
    if lo == |xs| then []
    else (if keep(xs[lo]) then [lo] else []) + Kept(xs, keep, lo + 1)
  }

  /** The kept positions are strictly increasing. */
  lemma {:induction false} KeptIncreasing<T>(xs: seq<T>, keep: T -> bool, lo: nat)
    requires lo <= |xs|
    ensures var idx := Kept(xs, keep, lo);
      forall k :: 0 < k < |idx| ==> idx[k - 1] < idx[k]
    decreases |xs| - lo
  {
    if lo < |xs| {
      KeptIncreasing(xs, keep, lo + 1);
      KeptCons(xs, keep, lo);
      var idx, idx' := Kept(xs, keep, lo), Kept(xs, keep, lo + 1);
      if keep(xs[lo]) {
        forall k | 0 < k < |idx| ensures idx[k - 1] < idx[k] {
          assert idx[k] == idx'[k - 1];
          if k > 1 {
            assert idx[k - 1] == idx'[k - 2];
          }
        }
      }
    }
  }

  /** Positions that increase step by step increase between any two. */
  lemma {:induction false} AscendingBetween(idx: seq<nat>, k: nat, l: nat)
    requires forall j :: 0 < j < |idx| ==> idx[j - 1] < idx[j]
    requires k < l < |idx|
    ensures idx[k] < idx[l]
    decreases l - k
  {
    if k + 1 < l {
      AscendingBetween(idx, k, l - 1);
    }
  }

  /** Every position from `lo` on whose element satisfies `keep` is kept. */
  lemma {:induction false} KeptComplete<T>(xs: seq<T>, keep: T -> bool, lo: nat, i: nat)
    requires lo <= i < |xs| && keep(xs[i])
    ensures i in Kept(xs, keep, lo)
    decreases |xs| - lo
  {
    KeptCons(xs, keep, lo);
    var idx, idx' := Kept(xs, keep, lo), Kept(xs, keep, lo + 1);
    if i == lo {
      assert idx[0] == lo;
    } else {
      KeptComplete(xs, keep, lo + 1, i);
      var k :| 0 <= k < |idx'| && idx'[k] == i;
      if keep(xs[lo]) {
        assert idx[k + 1] == i;
      }
    }
  }

  /** One unfolding of `Kept`. */
  lemma KeptCons<T>(xs: seq<T>, keep: T -> bool, lo: nat)
    requires lo < |xs|
    ensures keep(xs[lo]) ==> Kept(xs, keep, lo) == [lo] + Kept(xs, keep, lo + 1)
    ensures !keep(xs[lo]) ==> Kept(xs, keep, lo) == Kept(xs, keep, lo + 1)
  {
  }

  /** One unfolding of `Filter`. */
  lemma FilterCons<T>(ys: seq<T>, keep: T -> bool)
    requires |ys| > 0
    ensures keep(ys[0]) ==> Filter(ys, keep) == [ys[0]] + Filter(ys[1..], keep)
    ensures !keep(ys[0]) ==> Filter(ys, keep) == Filter(ys[1..], keep)
  {
  }


  /** The filter is the subsequence of `xs` at exactly the kept positions:
      element k of the result is the element at the k-th kept position. */
  lemma {:induction false} FilterInOrder<T>(xs: seq<T>, keep: T -> bool, lo: nat)
    requires lo <= |xs|
    ensures |Filter(xs[lo..], keep)| == |Kept(xs, keep, lo)|
    ensures forall k :: 0 <= k < |Kept(xs, keep, lo)| ==> Filter(xs[lo..], keep)[k] == xs[Kept(xs, keep, lo)[k]]
    decreases |xs| - lo
  {
    if lo < |xs| {
      FilterInOrder(xs, keep, lo + 1);
      var ys := xs[lo..];
      assert ys[0] == xs[lo] && ys[1..] == xs[lo + 1..];
      FilterCons(ys, keep);
      KeptCons(xs, keep, lo);
      var f, f' := Filter(ys, keep), Filter(xs[lo + 1..], keep);
      var idx, idx' := Kept(xs, keep, lo), Kept(xs, keep, lo + 1);
      if keep(xs[lo]) {
        PickCons(xs, lo, f', idx');
      }
    }
  }

  /** Prepending position `lo` to the positions `idx` and its element to
      the picked values keeps the values the elements at the positions. */
  lemma PickCons<T>(xs: seq<T>, lo: nat, f: seq<T>, idx: seq<nat>)
    requires lo < |xs| && |f| == |idx|
    requires forall k :: 0 <= k < |idx| ==> idx[k] < |xs| && f[k] == xs[idx[k]]
    ensures forall k :: 0 <= k < |idx| + 1 ==> ([lo] + idx)[k] < |xs| && ([xs[lo]] + f)[k] == xs[([lo] + idx)[k]]
  {
    forall k | 0 <= k < |idx| + 1
      ensures ([lo] + idx)[k] < |xs| && ([xs[lo]] + f)[k] == xs[([lo] + idx)[k]]
    {
      if k > 0 {
        assert ([lo] + idx)[k] == idx[k - 1] && ([xs[lo]] + f)[k] == f[k - 1];
      }
    }
  }

  /** `FilterInOrder` for the whole sequence. */
  lemma FilterAt<T>(xs: seq<T>, keep: T -> bool)
    ensures |Filter(xs, keep)| == |Kept(xs, keep, 0)|
    ensures forall k :: 0 <= k < |Kept(xs, keep, 0)| ==> Filter(xs, keep)[k] == xs[Kept(xs, keep, 0)[k]]
  {
    FilterInOrder(xs, keep, 0);
    assert xs[0..] == xs;
  }

  /** `FilterCount` for every value at once. */
  lemma FilterCountAll<T(!new)>(xs: seq<T>, keep: T -> bool)
    ensures forall x :: Count(Filter(xs, keep), x) == if keep(x) then Count(xs, x) else 0
  {
    forall x {
      FilterCount(xs, keep, x);
    }
  }

  /** Filtering a concatenation filters each part and keeps the parts in order. */
  lemma {:induction false} FilterAppend<T>(a: seq<T>, b: seq<T>, keep: T -> bool)
    ensures Filter(a + b, keep) == Filter(a, keep) + Filter(b, keep)
  {
    if |a| == 0 {
      assert a + b == b;
    } else {
      assert (a + b)[1..] == a[1..] + b;
      FilterAppend(a[1..], b, keep);
    }
  }

  /** A filter that keeps every element is the identity. */
  lemma {:induction false} FilterKeepsAll<T>(xs: seq<T>, keep: T -> bool)
    requires forall i :: 0 <= i < |xs| ==> keep(xs[i])
    ensures Filter(xs, keep) == xs
  {
    if |xs| > 0 {
      FilterKeepsAll(xs[1..], keep);
    }
  }

  /** Number of occurrences of `x` in `xs`. */
  function Count<T(==)>(xs: seq<T>, x: T): (n: nat)
    ensures n <= |xs|
    ensures n == 0 <==> x !in xs
  {
    if |xs| == 0 then 0
    else (if xs[0] == x then 1 else 0) + Count(xs[1..], x)
  }

  /** Counting over a concatenation adds the counts of the parts. */
  lemma {:induction false} CountAppend<T>(a: seq<T>, b: seq<T>, x: T)
    ensures Count(a + b, x) == Count(a, x) + Count(b, x)
  {
    if |a| == 0 {
      assert a + b == b;
    } else {
      assert (a + b)[1..] == a[1..] + b;
      CountAppend(a[1..], b, x);
    }
  }

  /** No element occurs twice. */
  predicate Distinct<T(==)>(xs: seq<T>) {
    forall i, j :: 0 <= i < j < |xs| ==> xs[i] != xs[j]
  }
}
