/** Sums of balance sequences, and the facts the statistics rely on:
    order independence, prefixes of non-negative sequences, bounds. */
module Sums {

  /** The sum of a sequence, accumulated left to right. */
  function Sum(s: seq<real>): real
  {
    if s == [] then 0.0 else Sum(s[..|s| - 1]) + s[|s| - 1]
  }

  predicate AllNonNegative(s: seq<real>)
  {
    forall i :: 0 <= i < |s| ==> s[i] >= 0.0
  }

  lemma SumAppend(s: seq<real>, x: real)
    ensures Sum(s + [x]) == Sum(s) + x
  {
    assert (s + [x])[..|s|] == s;
  }

  lemma {:induction false} SumConcat(a: seq<real>, b: seq<real>)
    ensures Sum(a + b) == Sum(a) + Sum(b)
  {
    if b != [] {
      var init, last := b[..|b| - 1], b[|b| - 1];
      assert b == init + [last];
      assert a + b == (a + init) + [last];
      SumConcat(a, init);
      SumAppend(a + init, last);
      SumAppend(init, last);
    } else {
      assert a + b == a;
    }
  }

  /** Extending a prefix by one element adds that element. */
  lemma SumPrefixStep(s: seq<real>, k: nat)
    requires k < |s|
    ensures Sum(s[..k + 1]) == Sum(s[..k]) + s[k]
  {
    assert s[..k + 1] == s[..k] + [s[k]];
    SumAppend(s[..k], s[k]);
  }

  /** The total does not depend on the order of the balances. */
  lemma {:induction false} SumPermutation(a: seq<real>, b: seq<real>)
    requires multiset(a) == multiset(b)
    ensures Sum(a) == Sum(b)
    decreases |a|
  {
    if a == [] {
      assert |b| == |multiset(b)| == 0;
    } else {
      var init, last := a[..|a| - 1], a[|a| - 1];
      assert a == init + [last];
      assert last in multiset(b);
      var j :| 0 <= j < |b| && b[j] == last;
      var rest := b[..j] + b[j + 1..];
      assert b == b[..j] + [b[j]] + b[j + 1..];
      assert multiset(rest) == multiset(b) - multiset{last};
      assert multiset(init) == multiset(a) - multiset{last};
      SumPermutation(init, rest);
      SumConcat(b[..j], [b[j]]);
      SumConcat(b[..j] + [b[j]], b[j + 1..]);
      SumConcat(b[..j], b[j + 1..]);
      SumAppend(init, last);
      assert Sum([b[j]]) == b[j] by { assert [b[j]][..0] == []; }
    }
  }

  /** Reordering keeps every balance non-negative. */
  lemma NonNegativePermutation(a: seq<real>, b: seq<real>)
    requires multiset(a) == multiset(b)
    requires AllNonNegative(b)
    ensures AllNonNegative(a)
  {
    forall i | 0 <= i < |a| ensures a[i] >= 0.0 {
      assert a[i] in multiset(b);
    }
  }

  lemma {:induction false} SumNonNegative(s: seq<real>)
    requires AllNonNegative(s)
    ensures Sum(s) >= 0.0
  {
    if s != [] {
      SumNonNegative(s[..|s| - 1]);
    }
  }

  /** Over non-negative balances a longer prefix never has a smaller sum. */
  lemma {:induction false} SumPrefixMonotone(s: seq<real>, i: nat, j: nat)
    requires AllNonNegative(s)
    requires i <= j <= |s|
    ensures Sum(s[..i]) <= Sum(s[..j])
    decreases j - i
  {
    if i < j {
      SumPrefixMonotone(s, i, j - 1);
      SumPrefixStep(s, j - 1);
    }
  }

  /** Raising one balance by some amount raises the total by that amount,
      so the total never decreases when a single balance grows. */
  lemma {:induction false} SumUpdate(s: seq<real>, i: nat, v: real)
    requires i < |s|
    ensures Sum(s[i := v]) == Sum(s) + (v - s[i])
  {
    var t := s[i := v];
    assert s == s[..i] + [s[i]] + s[i + 1..];
    assert t == s[..i] + [v] + s[i + 1..];
    SumConcat(s[..i] + [s[i]], s[i + 1..]);
    SumConcat(s[..i] + [v], s[i + 1..]);
    SumAppend(s[..i], s[i]);
    SumAppend(s[..i], v);
  }

  /** A sequence whose every element is at most `y` sums to at most
      `|s| * y`, with equality only when every element is `y`. */
  lemma {:induction false} SumBoundedAbove(s: seq<real>, y: real)
    requires forall i :: 0 <= i < |s| ==> s[i] <= y
    ensures Sum(s) <= (|s| as real) * y
    ensures Sum(s) == (|s| as real) * y ==> forall i :: 0 <= i < |s| ==> s[i] == y
  {
    if s != [] {
      var init := s[..|s| - 1];
      SumBoundedAbove(init, y);
      if Sum(s) == (|s| as real) * y {
        assert Sum(init) == (|init| as real) * y;
        forall i | 0 <= i < |s| ensures s[i] == y {
          if i < |init| { assert s[i] == init[i]; }
        }
      }
    }
  }

  /** Every element is zero exactly when a non-negative sequence sums to zero. */
  lemma {:induction false} SumZeroIffAllZero(s: seq<real>)
    requires AllNonNegative(s)
    ensures Sum(s) == 0.0 <==> forall i :: 0 <= i < |s| ==> s[i] == 0.0
  {
    if s != [] {
      var init := s[..|s| - 1];
      SumZeroIffAllZero(init);
      SumNonNegative(init);
      if Sum(s) == 0.0 {
        forall i | 0 <= i < |s| ensures s[i] == 0.0 {
          if i < |init| { assert s[i] == init[i]; }
        }
      }
    }
  }
}
