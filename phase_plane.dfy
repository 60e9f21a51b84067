/** The slope field of the logistic equation `dP/dt = P(1 - P)`: the rate
    function, its two equilibria, and the arrows drawn on a sample grid. */
module PhasePlane {
  import opened Sampling

  /** The logistic growth rate. Its only zeros are 0 and 1; it is positive
      strictly between them and negative outside, so populations below 1
      grow towards 1, populations above 1 shrink towards it, and any
      population off 0 moves away from 0. */
  function DPdt(p: real): (r: real)
    ensures r == 0.0 <==> (p == 0.0 || p == 1.0)
    ensures 0.0 < p < 1.0 ==> r > 0.0
    ensures p < 0.0 || p > 1.0 ==> r < 0.0
  {
    assert 0.0 < p < 1.0 ==> p * (1.0 - p) > 0.0;
    assert p > 1.0 ==> p * (1.0 - p) < 0.0;
    assert p < 0.0 ==> p * (1.0 - p) < 0.0;
    p * (1.0 - p)
  }

  /** The two horizontal lines the script marks. Both are equilibria; near
      0 the rate is `h - h*h`, with slope +1, so populations move away from
      0 on both sides, and near 1 it is `-h - h*h`, with slope -1, so
      populations move back towards 1 from both sides. */
  lemma Equilibria(h: real)
    ensures DPdt(0.0) == 0.0 && DPdt(1.0) == 0.0
    ensures DPdt(0.0 + h) == h - h * h
    ensures DPdt(1.0 + h) == -h - h * h
    ensures -1.0 < h < 0.0 || 0.0 < h < 1.0 ==> DPdt(0.0 + h) * h > 0.0 && DPdt(1.0 + h) * h < 0.0
  {
    if -1.0 < h < 0.0 || 0.0 < h < 1.0 {
      assert h * h > 0.0;
      assert DPdt(0.0 + h) * h == (1.0 - h) * (h * h);
      assert DPdt(1.0 + h) * h == -(1.0 + h) * (h * h);
    }
  }

  /** Both sample axes: 20 points from -1 to 2. */
  const PValues: seq<real> := Linspace(-1.0, 2.0, 20)
  const TValues: seq<real> := Linspace(-1.0, 2.0, 20)

  /** Sample `k` of either axis is `-1 + 3k/19`; both endpoints are samples. */
  lemma SampleAxis(k: nat)
    requires k < 20
    ensures |PValues| == 20 && PValues == TValues
    ensures PValues[0] == -1.0 && PValues[19] == 2.0
    ensures PValues[k] == -1.0 + k as real * 3.0 / 19.0
  {
    assert PValues[k] == -1.0 + Offset(k, 20, 3.0);
  }

  /** One arrow of a slope field: its position `(t, p)` and its direction `(dt, dp)`. */
  datatype Arrow = Arrow(t: real, p: real, dt: real, dp: real)

  /** The arrows drawn at the grid spanned by the two axes, one row per
      value of `t`: unit horizontal component, vertical component the growth
      rate at the arrow's `p`. */
  function SlopeField(pValues: seq<real>, tValues: seq<real>): (field: seq<seq<Arrow>>)
    ensures |field| == |tValues|
    ensures forall k :: 0 <= k < |field| ==> |field[k]| == |pValues|
    ensures forall k, j :: 0 <= k < |tValues| && 0 <= j < |pValues| ==>
      field[k][j] == Arrow(tValues[k], pValues[j], 1.0, DPdt(pValues[j]))
  {
    var mesh := Meshgrid(pValues, tValues);
    seq(|mesh|, k requires 0 <= k < |mesh| =>
      seq(|mesh[k]|, j requires 0 <= j < |mesh[k]| =>
        Arrow(mesh[k][j].1, mesh[k][j].0, 1.0, DPdt(mesh[k][j].0))))
  }

  /** The field is autonomous: arrows at the same `p` are equal in
      direction whatever their `t`, and each points up exactly where the
      rate is positive. */
  lemma SlopeFieldIsAutonomous(pValues: seq<real>, tValues: seq<real>, k1: nat, k2: nat, j: nat)
    requires k1 < |tValues| && k2 < |tValues| && j < |pValues|
    ensures var field := SlopeField(pValues, tValues);
      && field[k1][j].dt == field[k2][j].dt == 1.0
      && field[k1][j].dp == field[k2][j].dp
      && (field[k1][j].dp > 0.0 <==> 0.0 < pValues[j] < 1.0)
  {
  }

  /** The script's slope field has 20 rows of 20 arrows and no arrow at an
      equilibrium: every sample of `p` is off 0 and 1. */
  lemma ScriptSlopeField()
    ensures var field := SlopeField(PValues, TValues);
      && |field| == 20
      && (forall k :: 0 <= k < 20 ==> |field[k]| == 20)
      && (forall k, j :: 0 <= k < 20 && 0 <= j < 20 ==> field[k][j].dp != 0.0)
  {
    forall j | 0 <= j < 20 ensures PValues[j] != 0.0 && PValues[j] != 1.0 {
      SampleAxis(j);
      assert j as real * 3.0 != 19.0 && j as real * 3.0 != 38.0;
    }
  }
}
