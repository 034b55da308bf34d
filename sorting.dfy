/** Ordering of the coerced balances: the descending order the frame is
    sorted into, and the ascending order the Gini loop walks. */
module Sorting {

  predicate NonIncreasing(s: seq<real>)
  {
    forall i, j :: 0 <= i < j < |s| ==> s[i] >= s[j]
  }

  predicate NonDecreasing(s: seq<real>)
  {
    forall i, j :: 0 <= i < j < |s| ==> s[i] <= s[j]
  }

  /** Every element of `s` is at most `y`. */
  predicate AtMost(s: seq<real>, y: real)
  {
    forall k :: 0 <= k < |s| ==> s[k] <= y
  }

  /** A bound on every element survives rearrangement. */
  lemma AtMostPermutation(a: seq<real>, b: seq<real>, y: real)
    requires multiset(a) == multiset(b)
    requires AtMost(b, y)
    ensures AtMost(a, y)
  {
    forall k | 0 <= k < |a| ensures a[k] <= y {
      assert a[k] in multiset(b);
    }
  }

  /** Places `x` before the first element smaller than it. */
  function Insert(x: real, s: seq<real>): (r: seq<real>)
    ensures multiset(r) == multiset(s) + multiset{x}
  {
    if s == [] || x >= s[0] then [x] + s
    else
      assert s == [s[0]] + s[1..];
      [s[0]] + Insert(x, s[1..])
  }

  /** A head at least as large as every element of a non-increasing tail
      gives a non-increasing sequence. */
  lemma ConsNonIncreasing(h: real, t: seq<real>)
    requires NonIncreasing(t) && AtMost(t, h)
    ensures NonIncreasing([h] + t)
  {
    var r := [h] + t;
    forall i, j | 0 <= i < j < |r| ensures r[i] >= r[j] {
      assert r[j] == t[j - 1];
      if i > 0 { assert r[i] == t[i - 1]; }
    }
  }

  /** Inserting into a non-increasing sequence keeps it non-increasing. */
  lemma {:induction false} InsertNonIncreasing(x: real, s: seq<real>)
    requires NonIncreasing(s)
    ensures NonIncreasing(Insert(x, s))
  {
    if s == [] || x >= s[0] {
      assert AtMost(s, x) by {
        forall k | 0 <= k < |s| ensures s[k] <= x {
          assert s[k] <= s[0];
        }
      }
      ConsNonIncreasing(x, s);
    } else {
      var t := s[1..];
      assert NonIncreasing(t);
      InsertNonIncreasing(x, t);
      var tail := Insert(x, t);
      assert multiset(tail) == multiset(t + [x]);
      assert AtMost(t + [x], s[0]) by {
        forall k | 0 <= k < |t + [x]| ensures (t + [x])[k] <= s[0] {
          if k < |t| { assert (t + [x])[k] == s[k + 1]; }
        }
      }
      AtMostPermutation(tail, t + [x], s[0]);
      ConsNonIncreasing(s[0], tail);
    }
  }

  /** The balances in descending order: a non-increasing permutation of the input. */
  function SortDescending(s: seq<real>): (r: seq<real>)
    ensures |r| == |s|
    ensures multiset(r) == multiset(s)
    ensures NonIncreasing(r)
  {
    if s == [] then []
    else
      var rest := SortDescending(s[1..]);
      assert s == [s[0]] + s[1..];
      InsertNonIncreasing(s[0], rest);
      assert |multiset(Insert(s[0], rest))| == |s|;
      Insert(s[0], rest)
  }

  /** The same sequence read back to front. */
  function Reverse(s: seq<real>): (r: seq<real>)
    ensures |r| == |s|
    ensures forall i :: 0 <= i < |s| ==> r[i] == s[|s| - 1 - i]
  {
    if s == [] then [] else [s[|s| - 1]] + Reverse(s[..|s| - 1])
  }

  lemma {:induction false} ReversePermutation(s: seq<real>)
    ensures multiset(Reverse(s)) == multiset(s)
  {
    if s != [] {
      ReversePermutation(s[..|s| - 1]);
      assert s == s[..|s| - 1] + [s[|s| - 1]];
    }
  }

  /** The balances in ascending order: a non-decreasing permutation of the input. */
  function SortAscending(s: seq<real>): (r: seq<real>)
    ensures |r| == |s|
    ensures multiset(r) == multiset(s)
    ensures NonDecreasing(r)
  {
    ReversePermutation(SortDescending(s));
    Reverse(SortDescending(s))
  }

  /** Two non-increasing arrangements of the same balances are identical:
      the order of tied holders cannot be observed in the balances. */
  lemma {:induction false} SortedUnique(a: seq<real>, b: seq<real>)
    requires NonIncreasing(a) && NonIncreasing(b)
    requires multiset(a) == multiset(b)
    ensures a == b
    decreases |a|
  {
    if a == [] {
      assert |b| == |multiset(b)| == 0;
    } else {
      assert |b| == |multiset(b)| == |a|;
      assert a[0] in multiset(b);
      var j :| 0 <= j < |b| && b[j] == a[0];
      assert b[0] in multiset(a);
      var k :| 0 <= k < |a| && a[k] == b[0];
      assert a[0] == b[0];
      assert a == [a[0]] + a[1..];
      assert b == [b[0]] + b[1..];
      assert multiset(a[1..]) == multiset(a) - multiset{a[0]};
      assert multiset(b[1..]) == multiset(b) - multiset{b[0]};
      SortedUnique(a[1..], b[1..]);
    }
  }

  /** Sorting depends only on the multiset of balances. */
  lemma SortDescendingCanonical(s: seq<real>, t: seq<real>)
    requires multiset(s) == multiset(t)
    ensures SortDescending(s) == SortDescending(t)
  {
    SortedUnique(SortDescending(s), SortDescending(t));
  }

  /** Sorting an already descending sequence leaves it unchanged. */
  lemma SortDescendingIdempotent(s: seq<real>)
    requires NonIncreasing(s)
    ensures SortDescending(s) == s
  {
    SortedUnique(SortDescending(s), s);
  }

  /** Each element of a permutation occurs in the original. */
  lemma PermutationElements(a: seq<real>, b: seq<real>, i: nat)
    requires multiset(a) == multiset(b)
    requires i < |a|
    ensures exists j :: 0 <= j < |b| && b[j] == a[i]
  {
    assert a[i] in multiset(a);
    assert a[i] in multiset(b);
  }
}
