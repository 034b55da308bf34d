/** Decile balances: for d = 1..10 the balance at 0-based row
    ceil(n * d / 10) - 1 of the descending-sorted frame, with the index
    clamped to [0, n - 1]. */
module Deciles {

  import opened Results
  import opened Sorting

  /** ceil(q / 10) for a non-negative integer q: the least r with 10 * r >= q. */
  function CeilTenth(q: nat): (r: nat)
    ensures 10 * r >= q
    ensures r == 0 || 10 * (r - 1) < q
  {
    (q + 9) / 10
  }

  /** The index before clamping. */
  function RawDecileIndex(n: nat, d: nat): int
  {
    CeilTenth(n * d) - 1
  }

  /** max(0, min(idx, n - 1)). */
  function Clamp(idx: int, n: nat): (r: int)
    ensures r >= 0
    ensures n > 0 ==> r < n
    ensures n > 0 && 0 <= idx < n ==> r == idx
  {
    var upper := if idx < n - 1 then idx else n - 1;
    if upper > 0 then upper else 0
  }

  function DecileIndex(n: nat, d: nat): int
  {
    Clamp(RawDecileIndex(n, d), n)
  }

  /** The ten decile balances of a non-empty sorted frame. */
  function DecileValues(sorted: seq<real>): seq<real>
    requires |sorted| > 0
  {
    seq(10, k requires 0 <= k < 10 => sorted[DecileIndex(|sorted|, k + 1)])
  }

  /** Each decile is a row of the frame: the one at the clamped index. */
  lemma DecileIsRow(sorted: seq<real>, k: nat)
    requires |sorted| > 0 && k < 10
    ensures 0 <= DecileIndex(|sorted|, k + 1) < |sorted|
    ensures DecileValues(sorted)[k] == sorted[DecileIndex(|sorted|, k + 1)]
  {
  }

  /** The decile loop. Reading row 0 of an empty frame fails, which is the
      only way the loop can fail. */
  method DecileBalances(sorted: seq<real>) returns (r: Result<seq<real>, SummaryError>)
    ensures r.Failure? <==> sorted == []
    ensures r.Failure? ==> r.error == RowOutOfRange(0, 0)
    ensures r.Success? ==> |r.value| == 10 && r.value == DecileValues(sorted)
  {
    var deciles: seq<real> := [];
    var n := |sorted|;
    for d := 1 to 11
      invariant |deciles| == d - 1
      invariant d > 1 ==> n > 0
      invariant forall k :: 0 <= k < d - 1 ==> deciles[k] == sorted[DecileIndex(n, k + 1)]
    {
      var idx := CeilTenth(n * d) - 1;
      idx := Clamp(idx, n);
      if idx >= n {
        return Failure(RowOutOfRange(idx, n));
      }
      deciles := deciles + [sorted[idx]];
    }
    r := Success(deciles);
  }

  /** For a non-empty frame the raw index is already within [0, n - 1],
      so the clamp never changes it. */
  lemma ClampIsNoOp(n: nat, d: nat)
    requires n >= 1 && 1 <= d <= 10
    ensures 0 <= RawDecileIndex(n, d) <= n - 1
    ensures DecileIndex(n, d) == RawDecileIndex(n, d)
  {
    var q := n * d;
    assert 1 <= q <= 10 * n by {
      assert n * d <= n * 10;
    }
    var c := CeilTenth(q);
    assert c >= 1;
    assert c <= n;
  }

  lemma CeilTenthMonotone(q1: nat, q2: nat)
    requires q1 <= q2
    ensures CeilTenth(q1) <= CeilTenth(q2)
  {
  }

  lemma ProductMonotone(n: nat, d1: nat, d2: nat)
    requires d1 <= d2
    ensures n * d1 <= n * d2
  {
    assert n * d2 == n * d1 + n * (d2 - d1);
  }

  /** The index does not decrease as d grows. */
  lemma DecileIndexMonotone(n: nat, d1: nat, d2: nat)
    requires d1 <= d2
    ensures DecileIndex(n, d1) <= DecileIndex(n, d2)
  {
    ProductMonotone(n, d1, d2);
    CeilTenthMonotone(n * d1, n * d2);
  }

  /** The tenth decile reads the last row. */
  lemma LastDecileIndex(n: nat)
    requires n >= 1
    ensures DecileIndex(n, 10) == n - 1
  {
    assert CeilTenth(n * 10) == n;
  }

  /** Over a descending frame the decile balances are non-increasing. */
  lemma DecilesNonIncreasing(sorted: seq<real>)
    requires |sorted| > 0
    requires NonIncreasing(sorted)
    ensures NonIncreasing(DecileValues(sorted))
  {
    var n := |sorted|;
    var v := DecileValues(sorted);
    forall i, j | 0 <= i < j < |v| ensures v[i] >= v[j] {
      DecileIndexMonotone(n, i + 1, j + 1);
    }
  }

  /** Over a descending frame the tenth decile is the smallest balance. */
  lemma LastDecileIsMinimum(sorted: seq<real>)
    requires |sorted| > 0
    requires NonIncreasing(sorted)
    ensures DecileValues(sorted)[9] == sorted[|sorted| - 1]
    ensures forall i :: 0 <= i < |sorted| ==> DecileValues(sorted)[9] <= sorted[i]
  {
    LastDecileIndex(|sorted|);
  }

  /** The indices for four holders: each decile boundary pinned down. */
  lemma DecileIndicesOfFour()
    ensures seq(10, k requires 0 <= k < 10 => DecileIndex(4, k + 1)) == [0, 0, 1, 1, 1, 2, 2, 3, 3, 3]
  {
  }
}
