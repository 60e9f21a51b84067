/** The two-compartment SI vector field shared by the phase-plane scripts,
    the slope `dI/dS`, and the explicit Euler step with unit step length
    that those scripts use to draw trajectories. */
module SiField {
  import opened Wrappers

  /** A point of the SI phase plane. */
  datatype Point = Point(s: real, i: real)

  /** The SI vector field `(ds/dt, di/dt)` with infection rate `a` and
      recovery rate `b`. */
  function SirModel(s: real, i: real, a: real, b: real): (d: (real, real))
    ensures d.0 + d.1 == -b * i
    ensures i == 0.0 ==> d == (0.0, 0.0)
  {
    assert i == 0.0 ==> a * s * i == 0.0 && b * i == 0.0;
    (-a * s * i, a * s * i - b * i)
  }

  /** Where each component of the field vanishes: `ds` exactly on the axes
      (or for no infection), `di` exactly on the `s` axis and on the line
      `a*s = b`. */
  lemma FieldZeros(s: real, i: real, a: real, b: real)
    ensures SirModel(s, i, a, b).0 == 0.0 <==> (a == 0.0 || s == 0.0 || i == 0.0)
    ensures SirModel(s, i, a, b).1 == 0.0 <==> (i == 0.0 || a * s == b)
  {
    assert -a * s * i == -(a * s) * i;
    assert a * s * i - b * i == (a * s - b) * i;
  }

  /** Along the vertical line `s = b/a` the infectious count is stationary,
      whatever `i` is: that line is the I-nullcline. */
  lemma INullclineIsVertical(i: real, a: real, b: real)
    requires a != 0.0
    ensures SirModel(b / a, i, a, b).1 == 0.0
  {
    assert a * (b / a) == b;
    FieldZeros(b / a, i, a, b);
  }

  /** The slope `dI/dS` in the closed form the script uses, `(a*s - b)/(-a*s)`;
      there is no finite value when `a*s` is zero. */
  function DIdS(s: real, i: real, a: real, b: real): (r: Option<real>)
    ensures r.None? <==> a * s == 0.0
    ensures r.Some? ==> r.value * SirModel(s, i, a, b).0 == SirModel(s, i, a, b).1
    ensures r.Some? && i != 0.0 ==> r.value == SirModel(s, i, a, b).1 / SirModel(s, i, a, b).0
  {
    if a * s == 0.0 then None
    else
      var slope := (a * s - b) / (-a * s);
      assert slope * (-a * s) == a * s - b;
      assert slope * (-a * s * i) == (a * s - b) * i;
      Some(slope)
  }

  /** The test the script applies to a trajectory point. Despite its name
      it holds exactly on and below the line `s + i = 1`; a point above the
      line fails it. */
  predicate IsAboveLine(s: real, i: real)
    ensures IsAboveLine(s, i) <==> s + i <= 1.0
  {
    i <= 1.0 - s
  }

  /** The same test applied to a point of the plane. */
  predicate Inside(p: Point)
  {
    IsAboveLine(p.s, p.i)
  }

  /** One Euler step with step length 1: each coordinate moves by its derivative. */
  function SiStep(p: Point, a: real, b: real): (q: Point)
    ensures q.s + q.i == p.s + p.i - b * p.i
    ensures p.i == 0.0 ==> q == p
  {
    var d := SirModel(p.s, p.i, a, b);
    Point(p.s + d.0, p.i + d.1)
  }

  /** A point on or below the line `s + i = 1` with non-negative `i` stays
      there after a step when `b >= 0`: the step never raises `s + i`. */
  lemma RegionIsForwardInvariant(p: Point, a: real, b: real)
    requires b >= 0.0 && p.i >= 0.0 && Inside(p)
    ensures Inside(SiStep(p, a, b))
  {
    assert b * p.i >= 0.0;
  }

  /** The point reached after `k` steps from `p`. */
  function SiIterate(p: Point, a: real, b: real, k: nat): Point
  {
    if k == 0 then p else SiStep(SiIterate(p, a, b, k - 1), a, b)
  }

  /** `o` starts the Euler orbit of `p`: `p` itself, then each point one
      step from the one before. */
  ghost predicate IsOrbit(p: Point, a: real, b: real, o: seq<Point>)
  {
    && (|o| > 0 ==> o[0] == p)
    && forall k {:trigger SiStep(o[k], a, b)} :: 0 <= k < |o| - 1 ==> o[k + 1] == SiStep(o[k], a, b)
  }

  /** Point `k` of an orbit is the point `k` steps from its start. */
  lemma {:induction false} OrbitIsIterate(p: Point, a: real, b: real, o: seq<Point>, k: nat)
    requires IsOrbit(p, a, b, o) && k < |o|
    ensures o[k] == SiIterate(p, a, b, k)
  {
    if k > 0 {
      OrbitIsIterate(p, a, b, o, k - 1);
    }
  }

  /** An orbit is determined by its start and its length. */
  lemma OrbitIsUnique(p: Point, a: real, b: real, o1: seq<Point>, o2: seq<Point>)
    requires IsOrbit(p, a, b, o1) && IsOrbit(p, a, b, o2) && |o1| == |o2|
    ensures o1 == o2
  {
    forall k | 0 <= k < |o1| ensures o1[k] == o2[k] {
      OrbitIsIterate(p, a, b, o1, k);
      OrbitIsIterate(p, a, b, o2, k);
    }
  }

  /** The recovered count accumulated over the first `k` points of `o`:
      each step moves `b*i` out of the SI plane. */
  function RecoveredAlong(o: seq<Point>, b: real, k: nat): real
    requires k <= |o|
  {
    if k == 0 then 0.0 else RecoveredAlong(o, b, k - 1) + b * o[k - 1].i
  }

  /** `s + i + r` is conserved along an orbit: after `k` steps `s + i` has
      lost exactly the recovered count accumulated so far. */
  lemma {:induction false} OrbitConservesTotal(p: Point, a: real, b: real, o: seq<Point>, k: nat)
    requires IsOrbit(p, a, b, o) && k < |o|
    ensures o[k].s + o[k].i + RecoveredAlong(o, b, k) == p.s + p.i
  {
    if k > 0 {
      OrbitConservesTotal(p, a, b, o, k - 1);
      var prev := o[k - 1];
      assert o[k] == SiStep(prev, a, b);
      assert o[k].s + o[k].i == prev.s + prev.i - b * prev.i;
      assert RecoveredAlong(o, b, k) == RecoveredAlong(o, b, k - 1) + b * prev.i;
    }
  }
}
