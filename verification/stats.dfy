/**
 Exact-arithmetic stand-ins for the numeric pandas/numpy reductions the
 recommender uses: `sum`, `mean`, `np.dot`, and Python's prefix slice `xs[:k]`.
 Every value is a `real`, so there is no rounding and no NaN.
 */
module Stats {

  /** Sum of a sequence, folded from the right end (`Series.sum()`). */
  function Sum(xs: seq<real>): real
  {
    if |xs| == 0 then 0.0 else Sum(xs[..|xs| - 1]) + xs[|xs| - 1]
  }

  /** Dot product of two equally long sequences (`np.dot`). */
  function Dot(xs: seq<real>, ws: seq<real>): real
    requires |xs| == |ws|
  {
    if |xs| == 0 then 0.0
    else Dot(xs[..|xs| - 1], ws[..|ws| - 1]) + xs[|xs| - 1] * ws[|ws| - 1]
  }

  /** Arithmetic mean of a non-empty sequence (`Series.mean()`, `np.mean`). */
  function Mean(xs: seq<real>): real
    requires |xs| > 0
  {
    Sum(xs) / (|xs| as real)
  }

  /** Similarity-weighted average `dot(xs, ws) / sum(ws)` for a non-zero weight sum. */
  function WeightedAverage(xs: seq<real>, ws: seq<real>): real
    requires |xs| == |ws|
    requires Sum(ws) != 0.0
  {
    Dot(xs, ws) / Sum(ws)
  }

  /** Smallest element of a non-empty sequence. */
  function Min(xs: seq<real>): (r: real)
    requires |xs| > 0
    ensures r in xs
    ensures forall i :: 0 <= i < |xs| ==> r <= xs[i]
  {
    if |xs| == 1 then xs[0]
    else
      var m := Min(xs[..|xs| - 1]);
      if xs[|xs| - 1] < m then xs[|xs| - 1] else m
  }

  /** Largest element of a non-empty sequence. */
  function Max(xs: seq<real>): (r: real)
    requires |xs| > 0
    ensures r in xs
    ensures forall i :: 0 <= i < |xs| ==> xs[i] <= r
  {
    if |xs| == 1 then xs[0]
    else
      var m := Max(xs[..|xs| - 1]);
      if xs[|xs| - 1] > m then xs[|xs| - 1] else m
  }

  /**
   Length of the Python prefix slice `xs[:k]` of a list of length `n`: a
   negative `k` counts from the end, and the result is clamped to `0..n`.
   */
  function PrefixLen(n: nat, k: int): (r: nat)
    ensures r <= n
    ensures k >= 0 ==> (r == k || (r == n && n < k))
    ensures k < 0 ==> (r + (-k) == n || (r == 0 && n <= -k))
  {
    var e := if k < 0 then n + k else k;
    if e < 0 then 0 else if e > n then n else e
  }

  lemma {:induction false} SumAppend(xs: seq<real>, ys: seq<real>)
    ensures Sum(xs + ys) == Sum(xs) + Sum(ys)
    decreases |ys|
  {
    if |ys| == 0 {
      assert xs + ys == xs;
    } else {
      var zs := xs + ys;
      assert zs[..|zs| - 1] == xs + ys[..|ys| - 1];
      SumAppend(xs, ys[..|ys| - 1]);
    }
  }

  /** A sum of values in `[lo, hi]` lies in `[n*lo, n*hi]`. */
  lemma {:induction false} SumBounds(xs: seq<real>, lo: real, hi: real)
    requires forall i :: 0 <= i < |xs| ==> lo <= xs[i] <= hi
    ensures (|xs| as real) * lo <= Sum(xs) <= (|xs| as real) * hi
  {
    if |xs| > 0 {
      SumBounds(xs[..|xs| - 1], lo, hi);
    }
  }

  /** A sum of non-negative values is non-negative. */
  lemma {:induction false} SumNonNegative(xs: seq<real>)
    requires forall i :: 0 <= i < |xs| ==> 0.0 <= xs[i]
    ensures 0.0 <= Sum(xs)
  {
    if |xs| > 0 {
      SumNonNegative(xs[..|xs| - 1]);
    }
  }

  /** A sum of strictly positive values over a non-empty sequence is positive. */
  lemma {:induction false} SumPositive(xs: seq<real>)
    requires |xs| > 0
    requires forall i :: 0 <= i < |xs| ==> 0.0 < xs[i]
    ensures 0.0 < Sum(xs)
  {
    SumNonNegative(xs[..|xs| - 1]);
  }

  /** Dividing a value in `[lo*w, hi*w]` by a positive `w` lands in `[lo, hi]`. */
  lemma DivideBounds(x: real, w: real, lo: real, hi: real)
    requires 0.0 < w
    requires lo * w <= x <= hi * w
    ensures lo <= x / w <= hi
  {
    var a := x / w;
    assert a * w == x;
    assert (a - lo) * w >= 0.0;
    assert (hi - a) * w >= 0.0;
  }

  /** The mean of values in `[lo, hi]` lies in `[lo, hi]`. */
  lemma MeanBounds(xs: seq<real>, lo: real, hi: real)
    requires |xs| > 0
    requires forall i :: 0 <= i < |xs| ==> lo <= xs[i] <= hi
    ensures lo <= Mean(xs) <= hi
  {
    SumBounds(xs, lo, hi);
    DivideBounds(Sum(xs), |xs| as real, lo, hi);
  }

  /** Scaling `lo <= x <= hi` by a non-negative `w`. */
  lemma ScaleBounds(x: real, w: real, lo: real, hi: real)
    requires 0.0 <= w
    requires lo <= x <= hi
    ensures lo * w <= x * w <= hi * w
  {
    assert 0.0 <= (x - lo) * w;
    assert 0.0 <= (hi - x) * w;
  }

  /** With non-negative weights, `lo*W <= dot(xs, ws) <= hi*W` where `W = sum(ws)`. */
  lemma {:induction false} DotBounds(xs: seq<real>, ws: seq<real>, lo: real, hi: real)
    requires |xs| == |ws|
    requires forall i :: 0 <= i < |ws| ==> 0.0 <= ws[i]
    requires forall i :: 0 <= i < |xs| ==> lo <= xs[i] <= hi
    ensures lo * Sum(ws) <= Dot(xs, ws) <= hi * Sum(ws)
  {
    if |xs| > 0 {
      var n := |xs| - 1;
      DotBounds(xs[..n], ws[..n], lo, hi);
      ScaleBounds(xs[n], ws[n], lo, hi);
      Distribute(lo, Sum(ws[..n]), ws[n]);
      Distribute(hi, Sum(ws[..n]), ws[n]);
    }
  }

  lemma Distribute(c: real, a: real, b: real)
    ensures c * (a + b) == c * a + c * b
  {
  }

  /**
   A weighted average with non-negative weights and a non-zero weight sum
   of values in `[lo, hi]` lies in `[lo, hi]`.
   */
  lemma WeightedAverageWithin(xs: seq<real>, ws: seq<real>, lo: real, hi: real)
    requires |xs| == |ws|
    requires forall i :: 0 <= i < |ws| ==> 0.0 <= ws[i]
    requires forall i :: 0 <= i < |xs| ==> lo <= xs[i] <= hi
    requires Sum(ws) != 0.0
    ensures lo <= WeightedAverage(xs, ws) <= hi
  {
    DotBounds(xs, ws, lo, hi);
    SumNonNegative(ws);
    DivideBounds(Dot(xs, ws), Sum(ws), lo, hi);
  }

  /**
   A weighted average with non-negative weights and a non-zero weight sum
   lies between the smallest and the largest averaged value.
   */
  lemma WeightedAverageBounds(xs: seq<real>, ws: seq<real>)
    requires |xs| == |ws| > 0
    requires forall i :: 0 <= i < |ws| ==> 0.0 <= ws[i]
    requires Sum(ws) != 0.0
    ensures Min(xs) <= WeightedAverage(xs, ws) <= Max(xs)
  {
    WeightedAverageWithin(xs, ws, Min(xs), Max(xs));
  }
}
