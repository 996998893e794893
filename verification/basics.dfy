/** Building blocks shared by the model: Python's `None`, the slice `s[:n]`,
    and `sum(...)` / `sum(...) / len(...)` over integer scores, computed
    exactly (the application uses floating point; see README). */
module Basics {

  /** A value that may be absent (Python's `None`). */
  datatype Option<+T> = None | Some(value: T)

  /** Python's slice `s[:n]` for a non-negative bound: the first `n`
      elements, or all of `s` when it is shorter. */
  function Take<T>(s: seq<T>, n: nat): (r: seq<T>)
    ensures |r| <= n && |r| <= |s|
    ensures |r| == n || r == s
    ensures r == s[..|r|]
  {
    if |s| <= n then s else s[..n]
  }

  /** Python's `sum(xs)` over integers. */
  function Sum(xs: seq<int>): int
  {
    if xs == [] then 0 else Sum(xs[..|xs| - 1]) + xs[|xs| - 1]
  }

  /** Python's `sum(xs) / len(xs)`, as an exact rational. */
  function Mean(xs: seq<int>): real
    requires |xs| > 0
  {
    Sum(xs) as real / |xs| as real
  }

  /** Sum of scores that all lie in [lo, hi] lies in [lo * n, hi * n]. */
  lemma {:induction false} SumBounds(xs: seq<int>, lo: int, hi: int)
    requires forall i | 0 <= i < |xs| :: lo <= xs[i] <= hi
    ensures lo * |xs| <= Sum(xs) <= hi * |xs|
  {
    if xs != [] {
      SumBounds(xs[..|xs| - 1], lo, hi);
    }
  }

  /** The mean of scores that all lie in [lo, hi] lies in [lo, hi] too
      (so scores kept in 0..100 give an average in 0..100). */
  lemma MeanBounds(xs: seq<int>, lo: int, hi: int)
    requires |xs| > 0
    requires forall i | 0 <= i < |xs| :: lo <= xs[i] <= hi
    ensures lo as real <= Mean(xs) <= hi as real
  {
    SumBounds(xs, lo, hi);
    var n := |xs| as real;
    var s := Sum(xs) as real;
    var m := s / n;
    assert m * n == s;
    assert (m - lo as real) * n == s - lo as real * n >= 0.0;
    assert (hi as real - m) * n == hi as real * n - s >= 0.0;
  }
}
