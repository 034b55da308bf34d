/** Top-N concentration: the share of the total held by the first `top`
    rows of the descending-sorted balances. */
module Concentration {

  import opened Sums
  import opened Sorting

  /** How many rows `DataFrame.head(top)` keeps from `n` rows: the first
      `min(top, n)` when `top >= 0`, otherwise all but the last `-top`. */
  function HeadLength(n: nat, top: int): (k: nat)
    ensures k <= n
  {
    if top >= 0 then (if top < n then top else n)
    else if n + top > 0 then n + top else 0
  }

  /** Sum of the balances of the rows `head(top)` keeps. */
  function TopSum(sorted: seq<real>, top: int): real
  {
    Sum(sorted[..HeadLength(|sorted|, top)])
  }

  /** The top-N share, with 0 when the total is not positive. */
  function TopShare(sorted: seq<real>, top: int): real
  {
    var total := Sum(sorted);
    if total > 0.0 then TopSum(sorted, top) / total else 0.0
  }

  /** For non-negative balances the window holds between 0 and the total. */
  lemma TopSumBounds(sorted: seq<real>, top: int)
    requires AllNonNegative(sorted)
    ensures 0.0 <= TopSum(sorted, top) <= Sum(sorted)
  {
    var k := HeadLength(|sorted|, top);
    SumPrefixMonotone(sorted, 0, k);
    SumPrefixMonotone(sorted, k, |sorted|);
    assert sorted[..|sorted|] == sorted;
    assert sorted[..0] == [];
  }

  /** For non-negative balances the share lies in [0, 1]. */
  lemma TopShareBounds(sorted: seq<real>, top: int)
    requires AllNonNegative(sorted)
    ensures 0.0 <= TopShare(sorted, top) <= 1.0
  {
    TopSumBounds(sorted, top);
    var total := Sum(sorted);
    if total > 0.0 {
      var t := TopSum(sorted, top);
      QuotientTimes(t, total);
      assert (1.0 - t / total) * total == total - t;
      SignOfFactor(1.0 - t / total, total);
    }
  }

  /** A window covering every holder holds the whole total. */
  lemma TopShareWholeSet(sorted: seq<real>, top: int)
    requires top >= |sorted|
    requires Sum(sorted) > 0.0
    ensures TopShare(sorted, top) == 1.0
  {
    assert HeadLength(|sorted|, top) == |sorted|;
    assert sorted[..|sorted|] == sorted;
    var total := Sum(sorted);
    assert TopSum(sorted, top) == total;
    assert TopShare(sorted, top) == total / total;
    assert total / total == 1.0;
  }

  /** For non-negative balances a wider window never has a smaller share.
      `head` with a negative argument counts from the end, so the window
      widens with `top` separately on each side of zero. */
  lemma TopShareMonotone(sorted: seq<real>, t1: int, t2: int)
    requires AllNonNegative(sorted)
    requires 0 <= t1 <= t2 || t1 <= t2 < 0
    ensures TopShare(sorted, t1) <= TopShare(sorted, t2)
  {
    var n := |sorted|;
    var k1, k2 := HeadLength(n, t1), HeadLength(n, t2);
    assert k1 <= k2;
    SumPrefixMonotone(sorted, k1, k2);
    var total := Sum(sorted);
    if total > 0.0 {
      var a, b := TopSum(sorted, t1), TopSum(sorted, t2);
      assert a <= b;
      assert a / total <= b / total by {
        assert (b - a) / total >= 0.0;
        assert b / total - a / total == (b - a) / total;
      }
    }
  }

  /** Every balance of a is at least every balance of b. */
  predicate Above(a: seq<real>, b: seq<real>)
  {
    forall x, y :: 0 <= x < |a| && 0 <= y < |b| ==> a[x] >= b[y]
  }

  lemma AbovePermutation(a: seq<real>, b: seq<real>, a': seq<real>, b': seq<real>)
    requires Above(a, b)
    requires multiset(a') == multiset(a) && multiset(b') == multiset(b)
    ensures Above(a', b')
  {
    forall x, y | 0 <= x < |a'| && 0 <= y < |b'| ensures a'[x] >= b'[y] {
      PermutationElements(a', a, x);
      PermutationElements(b', b, y);
    }
  }

  lemma ConcatNonIncreasing(a: seq<real>, b: seq<real>)
    requires NonIncreasing(a) && NonIncreasing(b) && Above(a, b)
    ensures NonIncreasing(a + b)
  {
    var f := a + b;
    forall x, y | 0 <= x < y < |f| ensures f[x] >= f[y] {
      if y < |a| {
        assert f[x] == a[x] && f[y] == a[y];
      } else if x >= |a| {
        assert f[x] == b[x - |a|] && f[y] == b[y - |a|];
      } else {
        assert f[x] == a[x] && f[y] == b[y - |a|];
      }
    }
  }

  /** When every one of the first k balances is at least every later one,
      the first k rows after sorting hold exactly what those k rows hold. */
  lemma PartitionTopSum(e: seq<real>, k: nat)
    requires k <= |e|
    requires Above(e[..k], e[k..])
    ensures Sum(SortDescending(e)[..k]) == Sum(e[..k])
  {
    var front, back := SortDescending(e[..k]), SortDescending(e[k..]);
    AbovePermutation(e[..k], e[k..], front, back);
    ConcatNonIncreasing(front, back);
    assert e == e[..k] + e[k..];
    SortedUnique(front + back, SortDescending(e));
    assert SortDescending(e)[..k] == front;
    SumPermutation(front, e[..k]);
  }

  lemma PositiveProduct(x: real, y: real)
    requires x > 0.0 && y > 0.0
    ensures x * y > 0.0
  {
  }

  lemma NonNegativeProduct(x: real, y: real)
    requires x >= 0.0 && y >= 0.0
    ensures x * y >= 0.0
  {
  }

  lemma QuotientTimes(x: real, y: real)
    requires y != 0.0
    ensures x / y * y == x
  {
  }

  lemma SignOfFactor(x: real, p: real)
    requires p > 0.0 && x * p >= 0.0
    ensures x >= 0.0
  {
  }

  lemma RaisedDifference(a: real, b: real, t: real, u: real, g: real)
    requires a * u == t && b * (u + g) == t + g
    ensures (b - a) * (u * (u + g)) == g * (u - t)
  {
    assert b * (u * (u + g)) == (b * (u + g)) * u;
    assert a * (u * (u + g)) == (a * u) * (u + g);
  }

  /** Adding g >= 0 to both a part t and a whole u >= t never lowers the
      share, with the 0 fallback for a whole that is not positive. */
  lemma RatioRaise(t: real, u: real, g: real)
    requires 0.0 <= t <= u && g >= 0.0
    ensures (if u > 0.0 then t / u else 0.0) <= (if u + g > 0.0 then (t + g) / (u + g) else 0.0)
  {
    if u > 0.0 {
      var a, b := t / u, (t + g) / (u + g);
      PositiveProduct(u, u + g);
      QuotientTimes(t, u);
      QuotientTimes(t + g, u + g);
      RaisedDifference(a, b, t, u, g);
      NonNegativeProduct(g, u - t);
      SignOfFactor(b - a, u * (u + g));
    } else if u + g > 0.0 {
      assert (t + g) / (u + g) >= 0.0;
    }
  }

  /** A balance at or above the k-th largest sits at some position below k
      of the sorted column. */
  lemma InsideWindow(s: seq<real>, d: seq<real>, i: nat, k: nat) returns (p: nat)
    requires multiset(d) == multiset(s) && NonIncreasing(d)
    requires i < |s| && 1 <= k <= |d|
    requires s[i] >= d[k - 1]
    ensures p < k && d[p] == s[i]
  {
    PermutationElements(s, d, i);
    var q :| 0 <= q < |d| && d[q] == s[i];
    if q < k {
      p := q;
    } else {
      p := k - 1;
    }
  }

  /** Raising the balance at position p < k of a descending column by g:
      after re-sorting, the first k rows and the whole column both gain g. */
  lemma RaiseInWindow(d: seq<real>, p: nat, v: real, k: nat)
    requires NonIncreasing(d) && p < k <= |d| && v >= d[p]
    ensures Sum(SortDescending(d[p := v])[..k]) == Sum(d[..k]) + (v - d[p])
    ensures Sum(SortDescending(d[p := v])) == Sum(d) + (v - d[p])
  {
    var e := d[p := v];
    assert e[..k] == d[..k][p := v];
    assert e[k..] == d[k..];
    forall x, y | 0 <= x < k && 0 <= y < |e| - k ensures e[..k][x] >= e[k..][y] {
      assert d[x] >= d[k + y];
    }
    PartitionTopSum(e, k);
    SumUpdate(d[..k], p, v);
    SumUpdate(d, p, v);
    SumPermutation(SortDescending(e), e);
  }

  /** The sorted column after raising s[i] to v is the sorted column of
      s with that balance, found at position p, raised instead. */
  lemma RaisedColumn(s: seq<real>, d: seq<real>, i: nat, p: nat, v: real)
    requires d == SortDescending(s) && i < |s| && p < |d| && d[p] == s[i]
    ensures SortDescending(s[i := v]) == SortDescending(d[p := v])
  {
    assert multiset(d[p := v]) == multiset(s[i := v]);
    SortDescendingCanonical(s[i := v], d[p := v]);
  }

  /** Raising a balance inside the window by g adds g both to what the
      window holds and to the total. */
  lemma RaisedSums(s: seq<real>, i: nat, v: real, top: int)
    requires i < |s| && v >= s[i]
    requires HeadLength(|s|, top) >= 1
    requires s[i] >= SortDescending(s)[HeadLength(|s|, top) - 1]
    ensures TopSum(SortDescending(s[i := v]), top) == TopSum(SortDescending(s), top) + (v - s[i])
    ensures Sum(SortDescending(s[i := v])) == Sum(SortDescending(s)) + (v - s[i])
  {
    var d := SortDescending(s);
    var k := HeadLength(|s|, top);
    var p := InsideWindow(s, d, i, k);
    RaisedColumn(s, d, i, p, v);
    RaiseInWindow(d, p, v, k);
  }

  /** Two columns whose window and total differ by the same g >= 0. */
  lemma ShareRaise(d: seq<real>, r: seq<real>, top: int, g: real)
    requires 0.0 <= TopSum(d, top) <= Sum(d) && g >= 0.0
    requires TopSum(r, top) == TopSum(d, top) + g && Sum(r) == Sum(d) + g
    ensures TopShare(d, top) <= TopShare(r, top)
  {
    RatioRaise(TopSum(d, top), Sum(d), g);
  }

  /** For non-negative balances raising one balance that lies inside the
      `head(top)` window never lowers the top share. */
  lemma TopShareRaise(s: seq<real>, i: nat, v: real, top: int)
    requires AllNonNegative(s) && i < |s| && v >= s[i]
    requires HeadLength(|s|, top) >= 1
    requires s[i] >= SortDescending(s)[HeadLength(|s|, top) - 1]
    ensures TopShare(SortDescending(s), top) <= TopShare(SortDescending(s[i := v]), top)
  {
    RaisedSums(s, i, v, top);
    NonNegativePermutation(SortDescending(s), s);
    TopSumBounds(SortDescending(s), top);
    ShareRaise(SortDescending(s), SortDescending(s[i := v]), top, v - s[i]);
  }
}
