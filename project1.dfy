/** The SI phase plane with fixed-length trajectories started on the line
    `s + i = 1`: the quiver components computed inline over the grid, and
    one 100-point Euler trajectory per initial susceptible fraction. */
module Project1 {
  import opened Sampling
  import opened SiField

  /** The rates the script configures: infection 0.3, recovery 0.1. */
  const Beta: real := 0.3
  const Gamma: real := 0.1

  /** Both axes of the quiver grid: 20 points from 0 to 1. */
  const SValues: seq<real> := Linspace(0.0, 1.0, 20)
  const IValues: seq<real> := Linspace(0.0, 1.0, 20)

  /** The initial susceptible fractions, one trajectory each. */
  const InitialS: seq<real> := [0.05, 0.1, 0.3, 0.5, 0.7, 0.9]

  /** Points recorded per trajectory. */
  const Steps: nat := 100

  /** The quiver components written out inline over the grid, one row per
      value of `i`; each arrow is the vector field at its grid point. */
  function QuiverGrid(sValues: seq<real>, iValues: seq<real>, beta: real, gamma: real): (uv: seq<seq<(real, real)>>)
    ensures |uv| == |iValues|
    ensures forall k :: 0 <= k < |uv| ==> |uv[k]| == |sValues|
    ensures forall k, j :: 0 <= k < |iValues| && 0 <= j < |sValues| ==>
      uv[k][j] == SirModel(sValues[j], iValues[k], beta, gamma)
  {
    var mesh := Meshgrid(sValues, iValues);
    seq(|mesh|, k requires 0 <= k < |mesh| =>
      seq(|mesh[k]|, j requires 0 <= j < |mesh[k]| => Quiver(mesh[k][j].0, mesh[k][j].1, beta, gamma)))
  }

  /** The arrow components `U = -beta*s*i` and `V = beta*s*i - gamma*i` as
      the script writes them out at one grid point: exactly the two outputs
      of the vector field there. */
  function Quiver(s: real, i: real, beta: real, gamma: real): (uv: (real, real))
    ensures uv == SirModel(s, i, beta, gamma)
  {
    (-beta * s * i, beta * s * i - gamma * i)
  }

  /** With the script's configuration the quiver grid is 20 by 20, no arrow
      points towards larger `s`, and the arrows on the `s` axis (the first
      row, where `i = 0`) have zero length. */
  lemma ScriptQuiverGrid()
    ensures var uv := QuiverGrid(SValues, IValues, Beta, Gamma);
      && |uv| == 20
      && (forall k :: 0 <= k < 20 ==> |uv[k]| == 20)
      && (forall k, j :: 0 <= k < 20 && 0 <= j < 20 ==> uv[k][j].0 <= 0.0)
      && (forall j :: 0 <= j < 20 ==> uv[0][j] == (0.0, 0.0))
  {
    var uv: seq<seq<(real, real)>> := QuiverGrid(SValues, IValues, Beta, Gamma);
    forall k, j | 0 <= k < 20 && 0 <= j < 20 ensures uv[k][j].0 <= 0.0 {
      ArrowPointsLeft(SValues[j], IValues[k], Beta, Gamma);
    }
  }

  /** In the closed positive quadrant, with a non-negative infection rate,
      the susceptible fraction never rises. */
  lemma ArrowPointsLeft(s: real, i: real, beta: real, gamma: real)
    requires s >= 0.0 && i >= 0.0 && beta >= 0.0
    ensures SirModel(s, i, beta, gamma).0 <= 0.0
  {
    assert beta * s >= 0.0;
    assert beta * s * i >= 0.0;
  }

  /** The trajectory from `(sInit, 1 - sInit)`: exactly `Steps` points
      forming the start of the Euler orbit of that point, with no early exit. */
  method Trajectory(sInit: real, beta: real, gamma: real) returns (traj: seq<Point>)
    ensures |traj| == Steps
    ensures IsOrbit(Point(sInit, 1.0 - sInit), beta, gamma, traj)
    ensures traj[0].s + traj[0].i == 1.0
  {
    var s := sInit;
    var i := 1.0 - s;
    traj := [];
    var n := 0;
    while n < Steps
      invariant 0 <= n <= Steps
      invariant |traj| == n
      invariant IsOrbit(Point(sInit, 1.0 - sInit), beta, gamma, traj)
      invariant n == 0 ==> Point(s, i) == Point(sInit, 1.0 - sInit)
      invariant n > 0 ==> Point(s, i) == SiStep(traj[n - 1], beta, gamma)
    {
      traj := traj + [Point(s, i)];
      var d := SirModel(s, i, beta, gamma);
      s := s + d.0;
      i := i + d.1;
      n := n + 1;
    }
  }

  /** One trajectory per initial value, in the order of the list. */
  method AllTrajectories(inits: seq<real>, beta: real, gamma: real) returns (trajs: seq<seq<Point>>)
    ensures |trajs| == |inits|
    ensures forall j :: 0 <= j < |inits| ==>
      |trajs[j]| == Steps && IsOrbit(Point(inits[j], 1.0 - inits[j]), beta, gamma, trajs[j])
  {
    trajs := [];
    for j := 0 to |inits|
      invariant |trajs| == j
      invariant forall m :: 0 <= m < j ==>
        |trajs[m]| == Steps && IsOrbit(Point(inits[m], 1.0 - inits[m]), beta, gamma, trajs[m])
    {
      var traj := Trajectory(inits[j], beta, gamma);
      trajs := trajs + [traj];
    }
  }

  /** The script's six initial values: each starts a trajectory at a point
      of the line `s + i = 1` strictly inside the positive quadrant. */
  lemma ScriptInitialPoints(j: nat)
    requires j < |InitialS|
    ensures |InitialS| == 6
    ensures 0.0 < InitialS[j] < 1.0 && 0.0 < 1.0 - InitialS[j] < 1.0
  {
  }

  /** Along a trajectory, each step lowers `s + i` by exactly `gamma` times
      the infectious fraction before the step. */
  lemma TrajectoryDrainsLine(sInit: real, beta: real, gamma: real, traj: seq<Point>, k: nat)
    requires IsOrbit(Point(sInit, 1.0 - sInit), beta, gamma, traj)
    requires k + 1 < |traj|
    ensures traj[k + 1].s + traj[k + 1].i == traj[k].s + traj[k].i - gamma * traj[k].i
  {
    assert traj[k + 1] == SiStep(traj[k], beta, gamma);
  }

  /** At every recorded point of a trajectory started on the line
      `s + i = 1`, `s + i` is 1 less the recovered fraction accumulated so
      far: the line is left only through recovery. */
  lemma TrajectoryConservesLine(sInit: real, beta: real, gamma: real, traj: seq<Point>, k: nat)
    requires IsOrbit(Point(sInit, 1.0 - sInit), beta, gamma, traj)
    requires k < |traj|
    ensures traj[k].s + traj[k].i + RecoveredAlong(traj, gamma, k) == 1.0
  {
    OrbitConservesTotal(Point(sInit, 1.0 - sInit), beta, gamma, traj, k);
  }
}
