/** The SI phase-plane analysis with trajectories that stop at the line
    `s + i = 1`: the derivative and slope grids, the closed-form
    I-nullcline, and the early-stopping Euler trajectories. */
module Nulcline {
  import opened Wrappers
  import opened Sampling
  import opened SiField

  /** The rates the script configures: infection 0.3, recovery 0.1. */
  const InfectionRate: real := 0.3
  const RecoveryRate: real := 0.1

  /** Both axes of the sample grid: 20 points from 0.01 to 1. */
  const SValues: seq<real> := Linspace(0.01, 1.0, 20)
  const IValues: seq<real> := Linspace(0.01, 1.0, 20)

  /** The vector field evaluated at every point of the grid spanned by the
      two axes, one row per value of `i`. */
  function DerivativeGrid(sValues: seq<real>, iValues: seq<real>, a: real, b: real): (g: seq<seq<(real, real)>>)
    ensures |g| == |iValues|
    ensures forall k :: 0 <= k < |g| ==> |g[k]| == |sValues|
    ensures forall k, j :: 0 <= k < |iValues| && 0 <= j < |sValues| ==>
      g[k][j] == SirModel(sValues[j], iValues[k], a, b)
  {
    var mesh := Meshgrid(sValues, iValues);
    seq(|mesh|, k requires 0 <= k < |mesh| =>
      seq(|mesh[k]|, j requires 0 <= j < |mesh[k]| => SirModel(mesh[k][j].0, mesh[k][j].1, a, b)))
  }

  /** The slope `dI/dS` at every point of the grid, missing where it has no
      finite value. */
  function SlopeGrid(sValues: seq<real>, iValues: seq<real>, a: real, b: real): (g: seq<seq<Option<real>>>)
    ensures |g| == |iValues|
    ensures forall k :: 0 <= k < |g| ==> |g[k]| == |sValues|
    ensures forall k, j :: 0 <= k < |iValues| && 0 <= j < |sValues| ==>
      g[k][j] == DIdS(sValues[j], iValues[k], a, b)
  {
    var mesh := Meshgrid(sValues, iValues);
    seq(|mesh|, k requires 0 <= k < |mesh| =>
      seq(|mesh[k]|, j requires 0 <= j < |mesh[k]| => DIdS(mesh[k][j].0, mesh[k][j].1, a, b)))
  }

  /** The I-nullcline as the script draws it: the value `b/a` of `s` paired
      with every sampled `i`; there is none when `a` is zero. */
  function INullcline(iValues: seq<real>, a: real, b: real): (c: Option<seq<real>>)
    ensures c.None? <==> a == 0.0
    ensures c.Some? ==> |c.value| == |iValues|
    ensures c.Some? ==> forall k :: 0 <= k < |iValues| ==> c.value[k] == b / a
    ensures c.Some? ==> forall k :: 0 <= k < |iValues| ==> SirModel(c.value[k], iValues[k], a, b).1 == 0.0
  {
    if a == 0.0 then None
    else
      INullclineIsVertical(0.0, a, b);
      Some(seq(|iValues|, _ => b / a))
  }

  /** Every sample of the script's axes lies between 0.01 and 1. */
  lemma ScriptAxesPositive()
    ensures |SValues| == 20 && |IValues| == 20
    ensures forall j :: 0 <= j < 20 ==> 0.01 <= SValues[j] <= 1.0 && 0.01 <= IValues[j] <= 1.0
  {
  }

  /** With the script's configuration the derivative grid is 20 by 20 and
      every arrow on it points towards smaller `s`. */
  lemma ScriptDerivativeGrid()
    ensures var g := DerivativeGrid(SValues, IValues, InfectionRate, RecoveryRate);
      && |g| == 20
      && (forall k :: 0 <= k < 20 ==> |g[k]| == 20)
      && (forall k, j :: 0 <= k < 20 && 0 <= j < 20 ==> g[k][j].0 < 0.0)
  {
    ScriptAxesPositive();
    var g: seq<seq<(real, real)>> := DerivativeGrid(SValues, IValues, InfectionRate, RecoveryRate);
    forall k, j | 0 <= k < 20 && 0 <= j < 20 ensures g[k][j].0 < 0.0 {
      SusceptibleFalls(SValues[j], IValues[k], InfectionRate, RecoveryRate);
    }
  }

  /** Inside the positive quadrant and with a positive infection rate the
      susceptible count falls. */
  lemma SusceptibleFalls(s: real, i: real, a: real, b: real)
    requires s > 0.0 && i > 0.0 && a > 0.0
    ensures SirModel(s, i, a, b).0 < 0.0
  {
    assert s * i > 0.0;
    assert a * (s * i) > 0.0;
  }

  /** With the script's configuration the slope is defined at every grid point. */
  lemma ScriptSlopeGrid()
    ensures var g := SlopeGrid(SValues, IValues, InfectionRate, RecoveryRate);
      forall k, j :: 0 <= k < 20 && 0 <= j < 20 ==> g[k][j].Some?
  {
    ScriptAxesPositive();
    var g: seq<seq<Option<real>>> := SlopeGrid(SValues, IValues, InfectionRate, RecoveryRate);
    forall k, j | 0 <= k < 20 && 0 <= j < 20 ensures g[k][j].Some? {
      assert InfectionRate * SValues[j] > 0.0;
    }
  }

  /** With the script's configuration the I-nullcline is the line `s = 1/3`. */
  lemma ScriptNullcline()
    ensures var c := INullcline(IValues, InfectionRate, RecoveryRate);
      c.Some? && |c.value| == 20 && forall k :: 0 <= k < 20 ==> c.value[k] == 1.0 / 3.0
  {
  }

  /** The longest trajectory the script draws. */
  const MaxSteps: nat := 100

  /** What the trajectory loop records from `p0`: `p0` itself, then each
      point one unit step from the one before, as long as the new point
      passes the stopping test and fewer than `MaxSteps` points have been
      recorded; the first point that fails the test is not recorded. */
  ghost predicate IsStoppedTrajectory(p0: Point, a: real, b: real, traj: seq<Point>)
  {
    && 1 <= |traj| <= MaxSteps
    && IsOrbit(p0, a, b, traj)
    && (forall k :: 0 < k < |traj| ==> Inside(traj[k]))
    && (|traj| < MaxSteps ==> !Inside(SiStep(traj[|traj| - 1], a, b)))
  }

  /** One trajectory from `(sInit, iInit)`: record the point, step it, and
      stop as soon as the stepped point fails the test, at most `MaxSteps` times. */
  method Trajectory(sInit: real, iInit: real, a: real, b: real) returns (traj: seq<Point>)
    ensures IsStoppedTrajectory(Point(sInit, iInit), a, b, traj)
  {
    var s, i := sInit, iInit;
    traj := [];
    var n := 0;
    while n < MaxSteps
      invariant 0 <= n <= MaxSteps
      invariant |traj| == n
      invariant IsOrbit(Point(sInit, iInit), a, b, traj)
      invariant forall k :: 0 < k < n ==> Inside(traj[k])
      invariant n == 0 ==> Point(s, i) == Point(sInit, iInit)
      invariant n > 0 ==> Point(s, i) == SiStep(traj[n - 1], a, b) && Inside(Point(s, i))
    {
      traj := traj + [Point(s, i)];
      var d := SirModel(s, i, a, b);
      s := s + d.0;
      i := i + d.1;
      n := n + 1;
      if !IsAboveLine(s, i) {
        break;
      }
    }
  }

  /** One stopped trajectory per initial point, in order. */
  method Trajectories(inits: seq<Point>, a: real, b: real) returns (trajs: seq<seq<Point>>)
    ensures |trajs| == |inits|
    ensures forall j :: 0 <= j < |inits| ==> IsStoppedTrajectory(inits[j], a, b, trajs[j])
  {
    trajs := [];
    for j := 0 to |inits|
      invariant |trajs| == j
      invariant forall m :: 0 <= m < j ==> IsStoppedTrajectory(inits[m], a, b, trajs[m])
    {
      var traj := Trajectory(inits[j].s, inits[j].i, a, b);
      trajs := trajs + [traj];
    }
  }

  /** The trajectory stops at the first Euler iterate that fails the test,
      and runs to `MaxSteps` points when no iterate before that fails. */
  lemma TrajectoryLengthIsFirstExit(p0: Point, a: real, b: real, traj: seq<Point>)
    requires IsStoppedTrajectory(p0, a, b, traj)
    ensures forall m :: 1 <= m < |traj| ==> Inside(SiIterate(p0, a, b, m))
    ensures |traj| == MaxSteps || !Inside(SiIterate(p0, a, b, |traj|))
  {
    forall m | 1 <= m < |traj| ensures Inside(SiIterate(p0, a, b, m)) {
      OrbitIsIterate(p0, a, b, traj, m);
    }
    OrbitIsIterate(p0, a, b, traj, |traj| - 1);
  }

  /** The trajectory from a given point is determined uniquely by the
      description above. */
  lemma StoppedTrajectoryIsUnique(p0: Point, a: real, b: real, t1: seq<Point>, t2: seq<Point>)
    requires IsStoppedTrajectory(p0, a, b, t1) && IsStoppedTrajectory(p0, a, b, t2)
    ensures t1 == t2
  {
    TrajectoryLengthIsFirstExit(p0, a, b, t1);
    TrajectoryLengthIsFirstExit(p0, a, b, t2);
    OrbitIsUnique(p0, a, b, t1, t2);
  }
}
