/** The `summarize` command's numeric core: coerce the balance column, sort
    it in descending order, then compute the total, the top-N share, the ten
    decile balances and the Gini coefficient. */
module Summary {

  import opened Results
  import opened Coercion
  import opened Sums
  import opened Sorting
  import opened Concentration
  import opened Deciles
  import opened Gini

  /** The record the command renders. */
  datatype Summary = Summary(
    holders: nat,
    totalBalance: real,
    topShare: real,
    gini: real,
    decilesBalance: seq<real>)

  /** What the command computes for a table of rows and a `top` option. An
      empty table fails in the decile lookup, before anything is rendered. */
  function SummaryOf(rows: seq<Holder>, top: int): Result<Summary, SummaryError>
  {
    var balances := SortDescending(CoerceBalances(rows));
    if balances == [] then Failure(RowOutOfRange(0, 0))
    else Success(Summary(|balances|, Sum(balances), TopShare(balances, top),
                         GiniOf(balances), DecileValues(balances)))
  }

  /** The command body, step by step. */
  method Summarize(rows: seq<Holder>, top: int) returns (r: Result<Summary, SummaryError>)
    ensures r == SummaryOf(rows, top)
    ensures r.Failure? <==> rows == []
    ensures r.Success? ==> r.value.holders == |rows| && |r.value.decilesBalance| == 10
  {
    var balances := CoerceBalances(rows);
    balances := SortDescending(balances);
    var total := Sum(balances);
    var topShare := TopShare(balances, top);
    var deciles := DecileBalances(balances);
    if deciles.Failure? {
      return Failure(deciles.error);
    }
    var gini := ComputeGini(balances);
    r := Success(Summary(|balances|, total, topShare, gini, deciles.value));
  }

  /** A summary exists exactly for a non-empty table, and counts one
      holder per row: coercion drops no row. */
  lemma SummaryHolders(rows: seq<Holder>, top: int)
    ensures SummaryOf(rows, top).Success? <==> |rows| > 0
    ensures SummaryOf(rows, top).Success? ==> SummaryOf(rows, top).value.holders == |rows|
  {
  }

  /** What every successful summary satisfies: the total of the coerced
      column, ten non-increasing deciles ending at the smallest balance. */
  lemma SummaryShape(rows: seq<Holder>, top: int)
    ensures SummaryOf(rows, top).Success? ==>
      var s := SummaryOf(rows, top).value;
      && s.totalBalance == Sum(CoerceBalances(rows))
      && |s.decilesBalance| == 10
      && NonIncreasing(s.decilesBalance)
      && forall i :: 0 <= i < |rows| ==> s.decilesBalance[9] <= CoerceBalances(rows)[i]
  {
    var coerced := CoerceBalances(rows);
    var balances := SortDescending(coerced);
    if balances != [] {
      SumPermutation(balances, coerced);
      DecilesNonIncreasing(balances);
      LastDecileIsMinimum(balances);
      forall i | 0 <= i < |rows| ensures DecileValues(balances)[9] <= coerced[i] {
        PermutationElements(coerced, balances, i);
      }
    }
  }

  /** The summary does not depend on the order of the rows. */
  lemma SummaryOrderIndependent(rows: seq<Holder>, reordered: seq<Holder>, top: int)
    requires multiset(rows) == multiset(reordered)
    ensures SummaryOf(rows, top) == SummaryOf(reordered, top)
  {
    CoercePermutation(rows, reordered);
    SortDescendingCanonical(CoerceBalances(rows), CoerceBalances(reordered));
  }

  /** For non-negative balances the share lies in [0, 1] and the
      coefficient in [0, 1 - 1/n]. */
  lemma SummaryBounds(rows: seq<Holder>, top: int)
    requires forall i :: 0 <= i < |rows| ==> rows[i].balance.Parsed? ==> rows[i].balance.value >= 0.0
    requires |rows| > 0
    ensures SummaryOf(rows, top).Success?
    ensures 0.0 <= SummaryOf(rows, top).value.topShare <= 1.0
    ensures 0.0 <= SummaryOf(rows, top).value.gini <= 1.0 - 1.0 / (|rows| as real)
  {
    var coerced := CoerceBalances(rows);
    CoerceNonNegative(rows);
    var balances := SortDescending(coerced);
    NonNegativePermutation(balances, coerced);
    TopShareBounds(balances, top);
    GiniBounds(balances);
  }
}
