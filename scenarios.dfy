/** Worked families of inputs: every holder equal, and one holder owning
    everything. The tables [100, 100, 100, 100] with top = 2 and
    [1000, 0, 0, 0] with top = 1 are the four-holder instances. */
module Scenarios {

  import opened Results
  import opened Coercion
  import opened Sums
  import opened Sorting
  import opened Concentration
  import opened Deciles
  import opened Gini
  import opened Summary

  predicate AllEqualTo(b: seq<real>, c: real)
  {
    forall i :: 0 <= i < |b| ==> b[i] == c
  }

  /** The first balance is c and every other balance is zero. */
  predicate OnlyFirstHolds(b: seq<real>, c: real)
  {
    |b| > 0 && b[0] == c && forall i :: 1 <= i < |b| ==> b[i] == 0.0
  }

  /** A successful summary, assembled from its fields over the sorted balances. */
  lemma SummaryFromFields(rows: seq<Holder>, top: int, b: seq<real>,
                          total: real, share: real, gini: real, deciles: seq<real>)
    requires SortDescending(CoerceBalances(rows)) == b
    requires b != []
    requires Sum(b) == total && TopShare(b, top) == share && GiniOf(b) == gini
    requires DecileValues(b) == deciles
    ensures SummaryOf(rows, top) == Success(Summary(|b|, total, share, gini, deciles))
  {
  }

  /** The share of `k out of n` equal positive balances is k / n. */
  lemma ShareOfEqual(k: nat, n: nat, c: real)
    requires n > 0 && c > 0.0
    ensures ((k as real) * c) / ((n as real) * c) == (k as real) / (n as real)
  {
    var d := (n as real) * c;
    assert d > 0.0;
    assert ((k as real) / (n as real)) * d == (k as real) * c;
  }

  lemma DivideBySelf(x: real)
    requires x != 0.0
    ensures x / x == 1.0
  {
  }

  /** n equal positive balances: the top-N share is the fraction of
      holders inside the window. */
  lemma EqualTopShare(b: seq<real>, c: real, top: int)
    requires |b| > 0 && c > 0.0
    requires AllEqualTo(b, c)
    ensures TopShare(b, top) == (HeadLength(|b|, top) as real) / (|b| as real)
  {
    var n, k := |b|, HeadLength(|b|, top);
    SumOfConstant(b, c);
    SumOfConstant(b[..k], c);
    ShareOfEqual(k, n, c);
    assert (n as real) * c > 0.0;
    var total, part := Sum(b), TopSum(b, top);
    assert total == (n as real) * c && total > 0.0;
    assert part == (k as real) * c;
    assert TopShare(b, top) == part / total;
  }

  /** n equal balances c, of any sign: total n * c, Gini 0, every decile c. */
  lemma EqualBalances(b: seq<real>, c: real)
    requires |b| > 0
    requires AllEqualTo(b, c)
    ensures Sum(b) == (|b| as real) * c
    ensures GiniOf(b) == 0.0
    ensures DecileValues(b) == seq(10, _ => c)
  {
    SumOfConstant(b, c);
    GiniOfEqual(b);
    var v := DecileValues(b);
    forall i | 0 <= i < 10 ensures v[i] == c {
      DecileIsRow(b, i);
    }
  }

  lemma {:induction false} WeightedSumOfZeros(s: seq<real>)
    requires AllEqualTo(s, 0.0)
    ensures WeightedSum(s) == 0.0
  {
    if s != [] {
      WeightedSumOfZeros(s[..|s| - 1]);
    }
  }

  /** 2 * n * c / (n * c) - (n + 1) / n is 1 - 1/n. */
  lemma ConcentratedCoefficient(w: real, t: real, n: nat, c: real)
    requires n > 0 && c > 0.0
    requires w == (n as real) * c && t == c
    ensures Coefficient(w, t, n) == 1.0 - 1.0 / (n as real)
  {
    var m := n as real;
    var d := m * c;
    assert d > 0.0;
    assert Coefficient(w, t, n) == 2.0 * d / d - (m + 1.0) / m;
    assert 2.0 * d / d == 2.0 by {
      DivideBySelf(d);
    }
    assert (m + 1.0) / m == 1.0 + 1.0 / m;
  }

  /** Every non-empty prefix of a table where only the first holder holds c sums to c. */
  lemma OnlyFirstPrefixSum(b: seq<real>, c: real, k: nat)
    requires OnlyFirstHolds(b, c) && 1 <= k <= |b|
    ensures Sum(b[..k]) == c
  {
    assert b[..k] == [c] + b[1..k];
    SumOfConstant(b[1..k], 0.0);
    SumConcat([c], b[1..k]);
    assert Sum([c]) == c by { assert [c][..0] == []; }
  }

  lemma OnlyFirstSum(b: seq<real>, c: real)
    requires OnlyFirstHolds(b, c)
    ensures Sum(b) == c
  {
    OnlyFirstPrefixSum(b, c, |b|);
    assert b[..|b|] == b;
  }

  /** One holder owns the positive total c: any window of at least one
      holder has share 1. */
  lemma OneHolderTopShare(b: seq<real>, c: real, top: int)
    requires c > 0.0 && OnlyFirstHolds(b, c)
    requires top >= 1
    ensures Sum(b) == c
    ensures TopShare(b, top) == 1.0
  {
    OnlyFirstPrefixSum(b, c, HeadLength(|b|, top));
    OnlyFirstSum(b, c);
    var total := Sum(b);
    assert TopShare(b, top) == TopSum(b, top) / total;
    DivideBySelf(c);
  }

  /** Balances already in descending order are put in ascending order by reversing them. */
  lemma AscendingOfDescending(b: seq<real>)
    requires NonIncreasing(b)
    ensures SortAscending(b) == Reverse(b)
  {
    SortDescendingIdempotent(b);
  }

  /** Zeros followed by one balance c weigh n * c. */
  lemma WeightedSumOfLastOnly(a: seq<real>, c: real, n: real)
    requires |a| > 0 && a[|a| - 1] == c && AllEqualTo(a[..|a| - 1], 0.0)
    requires n == |a| as real
    ensures WeightedSum(a) == n * c
  {
    WeightedSumOfZeros(a[..|a| - 1]);
  }

  /** Sorted ascending, the lone positive balance comes last. */
  lemma OneHolderAscending(b: seq<real>, c: real)
    requires OnlyFirstHolds(b, c) && c >= 0.0
    ensures |SortAscending(b)| == |b|
    ensures SortAscending(b)[|SortAscending(b)| - 1] == c
    ensures AllEqualTo(SortAscending(b)[..|SortAscending(b)| - 1], 0.0)
  {
    var n := |b|;
    assert NonIncreasing(b);
    AscendingOfDescending(b);
    var a := SortAscending(b);
    forall i | 0 <= i < n - 1 ensures a[i] == 0.0 {
      assert a[i] == b[n - 1 - i];
    }
  }

  /** ... so its weighted sum is n * c. */
  lemma OneHolderWeightedSum(b: seq<real>, c: real)
    requires OnlyFirstHolds(b, c) && c >= 0.0
    ensures WeightedSum(SortAscending(b)) == (|b| as real) * c
  {
    OneHolderAscending(b, c);
    WeightedSumOfLastOnly(SortAscending(b), c, |b| as real);
  }

  lemma GiniOfPositive(x: seq<real>, w: real, t: real)
    requires Sum(x) == t && t != 0.0 && WeightedSum(SortAscending(x)) == w
    ensures GiniOf(x) == Coefficient(w, t, |x|)
  {
  }

  lemma OneHolderCoefficient(b: seq<real>, c: real)
    requires c > 0.0 && OnlyFirstHolds(b, c)
    ensures Coefficient(WeightedSum(SortAscending(b)), c, |b|) == 1.0 - 1.0 / (|b| as real)
  {
    OneHolderWeightedSum(b, c);
    ConcentratedCoefficient(WeightedSum(SortAscending(b)), c, |b|, c);
  }

  lemma OneHolderGiniIsCoefficient(b: seq<real>, c: real)
    requires c > 0.0 && OnlyFirstHolds(b, c)
    ensures GiniOf(b) == Coefficient(WeightedSum(SortAscending(b)), c, |b|)
  {
    OnlyFirstSum(b, c);
    GiniOfPositive(b, WeightedSum(SortAscending(b)), c);
  }

  /** The first holder owns the positive total c: Gini reaches its upper bound 1 - 1/n. */
  lemma FirstHolderGini(b: seq<real>, c: real)
    requires c > 0.0 && OnlyFirstHolds(b, c)
    ensures GiniOf(b) == 1.0 - 1.0 / (|b| as real)
  {
    OneHolderCoefficient(b, c);
    OneHolderGiniIsCoefficient(b, c);
  }

  /** The holder at position j has c and every other holder has zero. */
  predicate OnlyOneHolds(b: seq<real>, j: nat, c: real)
  {
    j < |b| && b[j] == c && forall i :: 0 <= i < |b| && i != j ==> b[i] == 0.0
  }

  /** Sorting puts the lone holder of c >= 0 first, wherever it was. */
  lemma OnlyOneSorted(b: seq<real>, j: nat, c: real)
    requires OnlyOneHolds(b, j, c) && c >= 0.0
    ensures OnlyFirstHolds(SortDescending(b), c)
  {
    var rest := b[..j] + b[j + 1..];
    var e := [c] + rest;
    assert b == b[..j] + [c] + b[j + 1..];
    assert multiset(e) == multiset(b);
    forall i | 1 <= i < |e| ensures e[i] == 0.0 {
      if i - 1 < j {
        assert e[i] == b[i - 1];
      } else {
        assert e[i] == b[i];
      }
    }
    assert OnlyFirstHolds(e, c);
    assert NonIncreasing(e);
    SortDescendingIdempotent(e);
    SortDescendingCanonical(b, e);
  }

  /** One holder, at any position, owns the positive total c: Gini reaches
      its upper bound 1 - 1/n. */
  lemma OneHolderGini(b: seq<real>, j: nat, c: real)
    requires c > 0.0 && OnlyOneHolds(b, j, c)
    ensures GiniOf(b) == 1.0 - 1.0 / (|b| as real)
  {
    OnlyOneSorted(b, j, c);
    var sorted := SortDescending(b);
    FirstHolderGini(sorted, c);
    GiniOfPermutation(b, sorted);
  }

  lemma EqualRowsSorted(rows: seq<Holder>, c: real)
    requires forall i :: 0 <= i < |rows| ==> rows[i].balance == Parsed(c)
    ensures SortDescending(CoerceBalances(rows)) == CoerceBalances(rows)
    ensures AllEqualTo(CoerceBalances(rows), c)
  {
    SortDescendingIdempotent(CoerceBalances(rows));
  }

  /** Four equal balances c: the first two hold 2c of a total 4c. */
  lemma FourEqualSums(b: seq<real>, c: real)
    requires |b| == 4 && AllEqualTo(b, c)
    ensures Sum(b[..2]) == 2.0 * c && Sum(b) == 4.0 * c
  {
    SumOfConstant(b, c);
    SumOfConstant(b[..2], c);
  }

  lemma HalfShare(part: real, total: real, c: real)
    requires c > 0.0 && part == 2.0 * c && total == 4.0 * c
    ensures total > 0.0 && part / total == 0.5
  {
    assert 0.5 * total == part;
  }

  /** Four equal balances c > 0 with top = 2: total 4c, share 0.5, Gini 0,
      every decile c. */
  lemma FourEqualFields(b: seq<real>, c: real)
    requires |b| == 4 && c > 0.0 && AllEqualTo(b, c)
    ensures Sum(b) == 4.0 * c && TopShare(b, 2) == 0.5
    ensures GiniOf(b) == 0.0 && DecileValues(b) == seq(10, _ => c)
  {
    FourEqualSums(b, c);
    assert HeadLength(4, 2) == 2;
    HalfShare(Sum(b[..2]), Sum(b), c);
    EqualBalances(b, c);
  }

  /** A table of rows that all hold the same c > 0: one holder per row,
      Gini 0 and every decile c; the total and the share are those of the
      coerced column, which is already in order. */
  lemma EqualRowsSummary(rows: seq<Holder>, c: real, top: int)
    requires |rows| > 0 && c > 0.0
    requires forall i :: 0 <= i < |rows| ==> rows[i].balance == Parsed(c)
    ensures SummaryOf(rows, top) == Success(Summary(|rows|, Sum(CoerceBalances(rows)),
                                                    TopShare(CoerceBalances(rows), top), 0.0, seq(10, _ => c)))
  {
    var b := CoerceBalances(rows);
    EqualRowsSorted(rows, c);
    EqualBalances(b, c);
    SummaryFromFields(rows, top, b, Sum(b), TopShare(b, top), 0.0, seq(10, _ => c));
  }

  /** Four holders with the same positive balance c and top = 2: total 4c,
      share 0.5, Gini 0, every decile c. */
  lemma FourEqualHolders(rows: seq<Holder>, c: real)
    requires |rows| == 4 && c > 0.0
    requires forall i :: 0 <= i < 4 ==> rows[i].balance == Parsed(c)
    ensures SummaryOf(rows, 2) == Success(Summary(4, 4.0 * c, 0.5, 0.0, seq(10, _ => c)))
  {
    EqualRowsSummary(rows, c, 2);
    EqualRowsSorted(rows, c);
    FourEqualFields(CoerceBalances(rows), c);
  }

  lemma OneHolderRowsSorted(rows: seq<Holder>, j: nat, c: real)
    requires j < |rows| && c >= 0.0
    requires rows[j].balance == Parsed(c)
    requires forall i :: 0 <= i < |rows| && i != j ==> rows[i].balance == Parsed(0.0)
    ensures OnlyFirstHolds(SortDescending(CoerceBalances(rows)), c)
  {
    OnlyOneSorted(CoerceBalances(rows), j, c);
  }

  /** A table where row j holds c > 0 and every other row holds 0: total
      c, share 1 for any top of at least one, and Gini 1 - 1/n. The sorted
      column is c followed by zeros. */
  lemma OneHolderSummary(rows: seq<Holder>, j: nat, c: real, top: int)
    requires j < |rows| && c > 0.0 && top >= 1
    requires rows[j].balance == Parsed(c)
    requires forall i :: 0 <= i < |rows| && i != j ==> rows[i].balance == Parsed(0.0)
    ensures OnlyFirstHolds(SortDescending(CoerceBalances(rows)), c)
    ensures SummaryOf(rows, top) == Success(Summary(|rows|, c, 1.0, GiniOf(SortDescending(CoerceBalances(rows))),
                                                    DecileValues(SortDescending(CoerceBalances(rows)))))
    ensures GiniOf(SortDescending(CoerceBalances(rows))) == 1.0 - 1.0 / (|rows| as real)
  {
    OneHolderRowsSorted(rows, j, c);
    var sorted := SortDescending(CoerceBalances(rows));
    OneHolderTopShare(sorted, c, top);
    FirstHolderGini(sorted, c);
    SummaryFromFields(rows, top, sorted, c, 1.0, GiniOf(sorted), DecileValues(sorted));
  }

  lemma WhaleDeciles(b: seq<real>, c: real)
    requires |b| == 4 && OnlyFirstHolds(b, c)
    ensures DecileValues(b) == [c, c, 0.0, 0.0, 0.0, 0.0, 0.0, 0.0, 0.0, 0.0]
  {
    DecileIndicesOfFour();
    var v := DecileValues(b);
    forall k | 0 <= k < 10 ensures v[k] == [c, c, 0.0, 0.0, 0.0, 0.0, 0.0, 0.0, 0.0, 0.0][k] {
      DecileIsRow(b, k);
    }
  }

  lemma UpperBoundOfFour(g: real, n: nat)
    requires n == 4 && g == 1.0 - 1.0 / (n as real)
    ensures g == 0.75
  {
  }

  /** Four rows, one of which (row j) holds c > 0 and the others nothing,
      with top = 1: share 1, Gini 0.75, deciles c, c and eight zeros. */
  lemma FourHoldersOneWhale(rows: seq<Holder>, j: nat, c: real)
    requires |rows| == 4 && j < 4 && c > 0.0
    requires rows[j].balance == Parsed(c)
    requires forall i :: 0 <= i < 4 && i != j ==> rows[i].balance == Parsed(0.0)
    ensures SummaryOf(rows, 1) == Success(Summary(4, c, 1.0, 0.75, [c, c, 0.0, 0.0, 0.0, 0.0, 0.0, 0.0, 0.0, 0.0]))
  {
    OneHolderSummary(rows, j, c, 1);
    var sorted := SortDescending(CoerceBalances(rows));
    WhaleDeciles(sorted, c);
    UpperBoundOfFour(GiniOf(sorted), |rows|);
  }

  /** A single row whose balance is not a number counts as a zero balance:
      total 0, share 0, Gini 0, ten zero deciles, and no failure. */
  lemma NonNumericBalance(rows: seq<Holder>, top: int)
    requires |rows| == 1 && rows[0].balance.Unparseable?
    ensures SummaryOf(rows, top) == Success(Summary(1, 0.0, 0.0, 0.0, seq(10, _ => 0.0)))
  {
    var b := CoerceBalances(rows);
    assert AllEqualTo(b, 0.0);
    SortDescendingIdempotent(b);
    SumOfConstant(b, 0.0);
    var v := DecileValues(b);
    forall k | 0 <= k < 10 ensures v[k] == 0.0 {
      DecileIsRow(b, k);
    }
    SummaryFromFields(rows, top, b, 0.0, 0.0, 0.0, seq(10, _ => 0.0));
  }

  /** An empty table fails at the first decile lookup. */
  lemma EmptyTable(top: int)
    ensures SummaryOf([], top) == Failure(RowOutOfRange(0, 0))
  {
  }
}
