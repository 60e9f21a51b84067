/** Evenly spaced sample axes and rectangular sample grids, as the scripts
    build them with `linspace` and `meshgrid` before evaluating a vector field. */
module Sampling {

  /** `n` evenly spaced values from `lo` to `hi`, both endpoints included
      (a single sample is `lo`, no samples is the empty axis). */
  function Linspace(lo: real, hi: real, n: nat): (xs: seq<real>)
    ensures |xs| == n
    ensures n > 0 ==> xs[0] == lo
    ensures n > 1 ==> xs[n - 1] == hi
    ensures n > 1 ==> forall k :: 0 <= k < n - 1 ==> xs[k + 1] - xs[k] == (hi - lo) / (n - 1) as real
    ensures lo <= hi ==> forall k :: 0 <= k < n ==> lo <= xs[k] <= hi
  {
    if n == 1 then [lo]
    else
      var xs := seq(n, k requires 0 <= k < n => lo + Offset(k, n, hi - lo));
      assert forall k :: 0 <= k < n - 1 ==> xs[k + 1] - xs[k] == (hi - lo) / (n - 1) as real by {
        forall k | 0 <= k < n - 1 ensures xs[k + 1] - xs[k] == (hi - lo) / (n - 1) as real {
          OffsetStep(k, n, hi - lo);
        }
      }
      xs
  }

  /** The distance of sample `k` of `n` from the start of an axis of width `w`. */
  function Offset(k: nat, n: nat, w: real): (d: real)
    requires k < n
    ensures n > 1 && k == n - 1 ==> d == w
    ensures 0.0 <= w ==> 0.0 <= d <= w
  {
    if n == 1 then 0.0
    else
      var m, q := (n - 1) as real, w / (n - 1) as real;
      assert m * q == w;
      assert 0.0 <= w ==> 0.0 <= q && k as real * q <= m * q by {
        if 0.0 <= w {
          assert 0.0 <= q && k as real <= m;
          assert (m - k as real) * q >= 0.0;
        }
      }
      k as real * q
  }

  /** Consecutive samples are one step of `w / (n - 1)` apart. */
  lemma OffsetStep(k: nat, n: nat, w: real)
    requires k + 1 < n
    ensures Offset(k + 1, n, w) - Offset(k, n, w) == w / (n - 1) as real
  {
    var q := w / (n - 1) as real;
    assert (k + 1) as real * q == k as real * q + q;
  }

  /** The grid of positions `(xs[j], ys[k])`, one row per value of `ys`:
      the row index follows the second axis, as `meshgrid` lays it out. */
  function Meshgrid(xs: seq<real>, ys: seq<real>): (g: seq<seq<(real, real)>>)
    ensures |g| == |ys|
    ensures forall k :: 0 <= k < |ys| ==> |g[k]| == |xs|
    ensures forall k, j :: 0 <= k < |ys| && 0 <= j < |xs| ==> g[k][j] == (xs[j], ys[k])
  {
    seq(|ys|, k requires 0 <= k < |ys| => seq(|xs|, j requires 0 <= j < |xs| => (xs[j], ys[k])))
  }
}
