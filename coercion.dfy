/** Numeric coercion of the balance column: a value that parses as a number
    is kept, anything else (unparseable text, a missing cell) becomes zero. */
module Coercion {

  import opened Sums

  /** A balance cell as the loader hands it over. Parsing of text into a
      number happens before the core; `Parsed` is a cell that parsed. */
  datatype RawBalance = Parsed(value: real) | Unparseable(text: string) | Missing

  /** One row of the input table. The address is carried but never used by
      any statistic. */
  datatype Holder = Holder(address: string, balance: RawBalance)

  /** Coercion with fallback to zero. */
  function Coerce(b: RawBalance): real
  {
    match b
    case Parsed(v) => v
    case Unparseable(_) => 0.0
    case Missing => 0.0
  }

  /** The coerced balance column: one entry per row, in row order. */
  function CoerceBalances(rows: seq<Holder>): (r: seq<real>)
    ensures |r| == |rows|
    ensures forall i :: 0 <= i < |rows| ==> r[i] == Coerce(rows[i].balance)
  {
    if rows == [] then [] else [Coerce(rows[0].balance)] + CoerceBalances(rows[1..])
  }

  /** A cell keeps its number, and every cell that is not a number becomes 0. */
  lemma CoerceKeepsNumbers(b: RawBalance)
    ensures b.Parsed? ==> Coerce(b) == b.value
    ensures !b.Parsed? ==> Coerce(b) == 0.0
  {
  }

  /** When every cell is a non-negative number or not a number at all, the
      coerced column is non-negative. */
  lemma CoerceNonNegative(rows: seq<Holder>)
    requires forall i :: 0 <= i < |rows| ==> rows[i].balance.Parsed? ==> rows[i].balance.value >= 0.0
    ensures AllNonNegative(CoerceBalances(rows))
  {
  }

  lemma CoerceConcat(a: seq<Holder>, b: seq<Holder>)
    ensures CoerceBalances(a + b) == CoerceBalances(a) + CoerceBalances(b)
  {
    assert forall i :: 0 <= i < |a + b| ==> (a + b)[i] == if i < |a| then a[i] else b[i - |a|];
  }

  /** Reordering the rows reorders the coerced column the same way. */
  lemma {:induction false} CoercePermutation(a: seq<Holder>, b: seq<Holder>)
    requires multiset(a) == multiset(b)
    ensures multiset(CoerceBalances(a)) == multiset(CoerceBalances(b))
    decreases |a|
  {
    if a == [] {
      assert |b| == |multiset(b)| == 0;
    } else {
      var h := a[0];
      assert a == [h] + a[1..];
      assert h in multiset(b);
      var j :| 0 <= j < |b| && b[j] == h;
      var rest := b[..j] + b[j + 1..];
      assert b == b[..j] + [h] + b[j + 1..];
      assert multiset(rest) == multiset(b) - multiset{h};
      assert multiset(a[1..]) == multiset(a) - multiset{h};
      CoercePermutation(a[1..], rest);
      CoerceConcat([h], a[1..]);
      CoerceConcat(b[..j] + [h], b[j + 1..]);
      CoerceConcat(b[..j], [h]);
      CoerceConcat(b[..j], b[j + 1..]);
    }
  }
}
