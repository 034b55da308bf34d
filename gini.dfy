/** The discrete Gini coefficient over the ascending order of the balances:
    2 * (sum of i * x_i) / (n * sum of x) - (n + 1) / n, with 1-based i,
    and 0 when the balances sum to zero. */
module Gini {

  import opened Sums
  import opened Sorting

  /** Sum of i * s[i - 1] for i = 1..|s|. */
  function WeightedSum(s: seq<real>): real
  {
    if s == [] then 0.0 else WeightedSum(s[..|s| - 1]) + (|s| as real) * s[|s| - 1]
  }

  /** Extending the 1-based prefix to position i adds i * s_i. */
  lemma WeightedSumStep(s: seq<real>, i: nat)
    requires 1 <= i <= |s|
    ensures WeightedSum(s[..i]) == WeightedSum(s[..i - 1]) + (i as real) * s[i - 1]
  {
    assert s[..i][..i - 1] == s[..i - 1];
  }

  /** The closing formula 2 * weighted / (n * total) - (n + 1) / n. */
  function Coefficient(weighted: real, total: real, n: nat): real
    requires n > 0 && total != 0.0
  {
    var count := n as real;
    2.0 * weighted / (count * total) - (count + 1.0) / count
  }

  /** The coefficient as a function of the balances in any order. */
  function GiniOf(balances: seq<real>): real
  {
    var total := Sum(balances);
    if total == 0.0 then 0.0
    else Coefficient(WeightedSum(SortAscending(balances)), total, |balances|)
  }

  /** The Gini step: the sum test on the balances as given, then the loop in
      which `cum` accumulates i * x_i over the ascending order. */
  method ComputeGini(x: seq<real>) returns (gini: real)
    ensures gini == GiniOf(x)
  {
    var total := Sum(x);
    if total == 0.0 {
      return 0.0;
    }
    var sortedX := SortAscending(x);
    var n := |sortedX|;
    var cum := 0.0;
    for i := 1 to n + 1
      invariant cum == WeightedSum(sortedX[..i - 1])
    {
      WeightedSumStep(sortedX, i);
      cum := cum + (i as real) * sortedX[i - 1];
    }
    assert sortedX[..n] == sortedX;
    gini := Coefficient(cum, total, n);
  }

  /** (n + 1) times sum minus twice the weighted sum, negated: the numerator
      of the coefficient once it is put over n * sum. */
  function Spread(s: seq<real>): real
  {
    2.0 * WeightedSum(s) - ((|s| as real) + 1.0) * Sum(s)
  }

  lemma SpreadStep(sp1: real, w1: real, t1: real, sp0: real, w: real, t: real, y: real, m: real, ns: real)
    requires ns == m + 1.0
    requires w1 == w + ns * y && t1 == t + y
    requires sp1 == 2.0 * w1 - (ns + 1.0) * t1 && sp0 == 2.0 * w - (m + 1.0) * t
    ensures sp1 == sp0 + m * y - t
  {
  }

  /** Extending the order by a new last element y adds (n - 1) * y minus
      the earlier sum to the spread. */
  lemma SpreadLast(s: seq<real>)
    requires |s| > 0
    ensures Spread(s) == Spread(s[..|s| - 1]) + (|s[..|s| - 1]| as real) * s[|s| - 1] - Sum(s[..|s| - 1])
  {
    var init, y := s[..|s| - 1], s[|s| - 1];
    SpreadStep(Spread(s), WeightedSum(s), Sum(s), Spread(init),
               WeightedSum(init), Sum(init), y, |init| as real, |s| as real);
  }

  /** The last element of an ascending order bounds the ones before it,
      and the spread grows by the gap between the two sides of that bound. */
  lemma AscendingLast(s: seq<real>)
    requires NonDecreasing(s) && |s| > 0
    ensures var init, y := s[..|s| - 1], s[|s| - 1];
      && NonDecreasing(init)
      && Spread(s) == Spread(init) + (|init| as real) * y - Sum(init)
      && Sum(init) <= (|init| as real) * y
      && (Sum(init) == (|init| as real) * y ==> forall i :: 0 <= i < |init| ==> init[i] == y)
  {
    SpreadLast(s);
    SumBoundedAbove(s[..|s| - 1], s[|s| - 1]);
  }

  /** When everything before the last element equals it, all elements agree. */
  lemma AllEqualLast(s: seq<real>)
    requires |s| > 0
    requires forall i :: 0 <= i < |s| - 1 ==> s[i] == s[|s| - 1]
    ensures forall i :: 0 <= i < |s| ==> s[i] == s[0]
  {
  }

  /** Over an ascending order the spread is non-negative, and it is zero
      exactly when all the balances are equal. */
  lemma {:induction false} SpreadOfAscending(s: seq<real>)
    requires NonDecreasing(s)
    ensures Spread(s) >= 0.0
    ensures Spread(s) == 0.0 <==> forall i :: 0 <= i < |s| ==> s[i] == s[0]
  {
    if s != [] {
      var init, y := s[..|s| - 1], s[|s| - 1];
      AscendingLast(s);
      SpreadOfAscending(init);
      if Spread(s) == 0.0 {
        assert forall i :: 0 <= i < |init| ==> init[i] == y;
        AllEqualLast(s);
      }
      if forall i :: 0 <= i < |s| ==> s[i] == s[0] {
        assert forall i :: 0 <= i < |init| ==> init[i] == y;
        SumOfConstant(init, y);
      }
    }
  }

  lemma {:induction false} SumOfConstant(s: seq<real>, c: real)
    requires forall i :: 0 <= i < |s| ==> s[i] == c
    ensures Sum(s) == (|s| as real) * c
  {
    if s != [] {
      SumOfConstant(s[..|s| - 1], c);
    }
  }

  /** For non-negative balances the weighted sum is at most n times the sum. */
  lemma {:induction false} WeightedSumBound(s: seq<real>)
    requires AllNonNegative(s)
    ensures WeightedSum(s) <= (|s| as real) * Sum(s)
  {
    if s != [] {
      var init, y := s[..|s| - 1], s[|s| - 1];
      WeightedSumBound(init);
      SumNonNegative(init);
    }
  }

  /** Over a positive total the closing formula is the spread scaled by
      1 / (n * total): its sign is the spread's sign. */
  lemma CoefficientSign(w: real, t: real, k: nat)
    requires k > 0 && t > 0.0
    ensures Coefficient(w, t, k) >= 0.0 <==> 2.0 * w - ((k as real) + 1.0) * t >= 0.0
    ensures Coefficient(w, t, k) == 0.0 <==> 2.0 * w - ((k as real) + 1.0) * t == 0.0
  {
    var n := k as real;
    var d := n * t;
    assert d > 0.0;
    var c := Coefficient(w, t, k);
    assert 2.0 * w / d * d == 2.0 * w;
    assert (n + 1.0) / n * d == (n + 1.0) * t by {
      assert (n + 1.0) / n * n == n + 1.0;
    }
    assert c * d == 2.0 * w - (n + 1.0) * t;
    if c >= 0.0 { assert c * d >= 0.0; }
    if c < 0.0 { assert c * d < 0.0; }
  }

  /** Over any non-zero total the closing formula vanishes with the spread. */
  lemma CoefficientZero(w: real, t: real, k: nat)
    requires k > 0 && t != 0.0
    requires 2.0 * w - ((k as real) + 1.0) * t == 0.0
    ensures Coefficient(w, t, k) == 0.0
  {
    var n := k as real;
    var d := n * t;
    assert d != 0.0;
    assert 2.0 * w == (n + 1.0) * t;
    assert 2.0 * w / d == (n + 1.0) / n by {
      assert (n + 1.0) / n * d == (n + 1.0) * t by {
        assert (n + 1.0) / n * n == n + 1.0;
      }
    }
  }

  /** The closing formula is at most 1 - 1/n when weighted <= n * total. */
  lemma CoefficientUpper(w: real, t: real, k: nat)
    requires k > 0 && t > 0.0
    requires w <= (k as real) * t
    ensures Coefficient(w, t, k) <= 1.0 - 1.0 / (k as real)
  {
    var n := k as real;
    var d := n * t;
    assert 2.0 * w / d <= 2.0 by {
      assert 2.0 * w <= 2.0 * d;
      assert 2.0 * w / d * d == 2.0 * w;
    }
    assert (n + 1.0) / n == 1.0 + 1.0 / n;
    assert Coefficient(w, t, k) == 2.0 * w / d - (n + 1.0) / n;
  }

  /** The coefficient of the balances is the closing formula over their
      ascending order and its own sum. */
  lemma GiniOfAscending(x: seq<real>)
    requires Sum(x) != 0.0
    ensures |x| > 0
    ensures Sum(SortAscending(x)) == Sum(x)
    ensures GiniOf(x) == Coefficient(WeightedSum(SortAscending(x)), Sum(SortAscending(x)), |SortAscending(x)|)
  {
    SumPermutation(SortAscending(x), x);
  }

  /** The closing formula over an ascending, non-negative order with a
      positive sum lies in [0, 1 - 1/n]. */
  lemma AscendingCoefficientBounds(a: seq<real>)
    requires NonDecreasing(a) && AllNonNegative(a)
    requires Sum(a) > 0.0
    ensures |a| > 0
    ensures 0.0 <= Coefficient(WeightedSum(a), Sum(a), |a|) <= 1.0 - 1.0 / (|a| as real)
  {
    var w, t := WeightedSum(a), Sum(a);
    assert |a| > 0;
    assert 0.0 <= Coefficient(w, t, |a|) by {
      SpreadOfAscending(a);
      CoefficientSign(w, t, |a|);
    }
    WeightedSumBound(a);
    CoefficientUpper(w, t, |a|);
  }

  /** ... and it is zero exactly when all the balances are equal. */
  lemma AscendingCoefficientZero(a: seq<real>)
    requires NonDecreasing(a)
    requires Sum(a) > 0.0
    ensures |a| > 0
    ensures Coefficient(WeightedSum(a), Sum(a), |a|) == 0.0 <==> forall i :: 0 <= i < |a| ==> a[i] == a[0]
  {
    assert |a| > 0;
    var w, t := WeightedSum(a), Sum(a);
    var spread := Spread(a);
    assert spread == 2.0 * w - ((|a| as real) + 1.0) * t;
    CoefficientSign(w, t, |a|);
    assert Coefficient(w, t, |a|) == 0.0 <==> spread == 0.0;
    SpreadOfAscending(a);
  }

  /** For non-negative balances: 0 <= gini <= 1 - 1/n. */
  lemma GiniBounds(x: seq<real>)
    requires AllNonNegative(x)
    requires |x| > 0
    ensures 0.0 <= GiniOf(x) <= 1.0 - 1.0 / (|x| as real)
  {
    SumNonNegative(x);
    if Sum(x) != 0.0 {
      var a := SortAscending(x);
      GiniOfAscending(x);
      NonNegativePermutation(a, x);
      AscendingCoefficientBounds(a);
    } else {
      assert 1.0 / (|x| as real) <= 1.0;
    }
  }

  /** For non-negative balances the coefficient is zero exactly when every
      holder has the same balance. */
  lemma GiniZeroIffEqual(x: seq<real>)
    requires AllNonNegative(x)
    ensures GiniOf(x) == 0.0 <==> forall i, j :: 0 <= i < |x| && 0 <= j < |x| ==> x[i] == x[j]
  {
    SumNonNegative(x);
    if Sum(x) == 0.0 {
      SumZeroIffAllZero(x);
    } else {
      var a := SortAscending(x);
      GiniOfAscending(x);
      AscendingCoefficientZero(a);
      EqualPermutation(a, x);
    }
  }

  /** Equal balances have coefficient 0, whatever their sign. */
  lemma GiniOfEqual(x: seq<real>)
    requires forall i, j :: 0 <= i < |x| && 0 <= j < |x| ==> x[i] == x[j]
    ensures GiniOf(x) == 0.0
  {
    if Sum(x) != 0.0 {
      var a := SortAscending(x);
      GiniOfAscending(x);
      EqualPermutation(a, x);
      EqualCoefficient(a);
    }
  }

  /** A constant order with a non-zero sum has coefficient 0. */
  lemma EqualCoefficient(a: seq<real>)
    requires NonDecreasing(a) && |a| > 0 && Sum(a) != 0.0
    requires forall i :: 0 <= i < |a| ==> a[i] == a[0]
    ensures Coefficient(WeightedSum(a), Sum(a), |a|) == 0.0
  {
    SpreadOfAscending(a);
    CoefficientZero(WeightedSum(a), Sum(a), |a|);
  }

  /** The coefficient depends only on the multiset of balances. */
  lemma GiniOfPermutation(x: seq<real>, y: seq<real>)
    requires multiset(x) == multiset(y)
    ensures GiniOf(x) == GiniOf(y)
  {
    SumPermutation(x, y);
    SortDescendingCanonical(x, y);
    assert |x| == |multiset(x)| == |multiset(y)| == |y|;
  }

  /** All elements of a permutation agree exactly when all elements of the
      original do. */
  lemma EqualPermutation(a: seq<real>, x: seq<real>)
    requires multiset(a) == multiset(x)
    requires |a| > 0
    ensures (forall i :: 0 <= i < |a| ==> a[i] == a[0])
        <==> (forall i, j :: 0 <= i < |x| && 0 <= j < |x| ==> x[i] == x[j])
  {
    if forall i :: 0 <= i < |a| ==> a[i] == a[0] {
      forall i, j | 0 <= i < |x| && 0 <= j < |x| ensures x[i] == x[j] {
        assert x[i] in multiset(a);
        assert x[j] in multiset(a);
      }
    }
    if forall i, j :: 0 <= i < |x| && 0 <= j < |x| ==> x[i] == x[j] {
      forall i | 0 <= i < |a| ensures a[i] == a[0] {
        assert a[i] in multiset(x);
        assert a[0] in multiset(x);
      }
    }
  }
}
