# SIR and logistic Euler models in Dafny

This project models the computational core of four short numerical scripts
about epidemics and population growth, over exact real arithmetic:

- **NumericalSolution.py**: the SIR rates `dS/dt = -a*S*I`, `dI/dt = a*S*I - b*I`
  and `dR/dt = b*I`, and `euler_sir_model`. That loop advances `(t, S, I, R)`
  by one explicit Euler step per iteration. After a header row it appends one
  row per iteration, holding the values before and after the step. It is
  modelled in module `NumericalSolution`.
- **Nulcline.py**: the SI vector field `sir_model`, the slope `dI_dS`, the
  stopping test `is_above_line`, the derivative and slope grids over a 20×20
  sample, and the closed-form I-nullcline `s = b/a`. It also has the
  trajectory loop: unit Euler steps, at most 100 recorded points, stopping
  before recording the first point that fails the test. These are modelled
  in modules `SiField` (shared with Project1.py) and `Nulcline`.
- **Project1.py**: the same vector field, with the quiver components written
  out inline. Six trajectories of exactly 100 points start on the line
  `s + i = 1`. It is modelled in module `Project1`.
- **PhasePlane.py**: the logistic rate `dP/dt = P(1 - P)`, its equilibria,
  and the slope arrows `(1, dP/dt)` over a 20×20 grid. It is modelled in
  module `PhasePlane`.

Module `Sampling` holds `linspace` and `meshgrid`, and module `Wrappers`
holds the `Option` type. `Option` is used where the scripts divide by zero.

The loops are methods with loop invariants. Each method is proved against a
ghost predicate that describes its whole output:

- `IsSirTable` for the results table;
- `IsOrbit` for a prefix of an Euler orbit;
- `IsStoppedTrajectory` for an early-stopping trajectory.

Lemmas then connect each predicate to a recursive reference definition
(`Iterate`, `SiIterate`), to uniqueness, and to the conservation laws.

## Model

| member | source | states |
|---|---|---|
| NumericalSolution.DSdt | NumericalSolution.py:5-6 | `dS/dt = -a*S*I` is never positive for non-negative `a`, `S` and `I`, and is zero when `I = 0` |
| NumericalSolution.DIdt | NumericalSolution.py:9-10 | with `I > 0`, `dI/dt` is positive exactly when `a*S > b` (the epidemic threshold); it is zero when `I = 0` |
| NumericalSolution.DRdt | NumericalSolution.py:13-14 | `dR/dt = b*I` is never negative for non-negative `b` and `I`, and is zero when `I = 0` |
| NumericalSolution.RatesCancel | NumericalSolution.py:5-14 | the three rates sum to zero; with no infectious people each rate is zero |
| NumericalSolution.EulerStep | NumericalSolution.py:26-33 | one step of `X + dX/dt * delta_t` from the pre-step state keeps `S+I+R`; a state with `I = 0` is a fixed point; with `b >= 0`, `I >= 0` and `delta_t > 0`, R does not decrease |
| NumericalSolution.IterateConservesTotal | NumericalSolution.py:25-38 | any number of steps keeps `S+I+R` equal to its initial value |
| NumericalSolution.InfectionFreeIsFixedPoint | NumericalSolution.py:25-38 | from a state with `I = 0`, every iterate is that state |
| NumericalSolution.RecoveredNeverShrinks | NumericalSolution.py:25-38 | with `b >= 0`, `delta_t > 0` and I non-negative along the way, R never drops below its initial value |
| NumericalSolution.AppendRow | NumericalSolution.py:35-38 | appending a row that steps from where the table stopped extends a valid table by one iteration |
| NumericalSolution.EulerSirModel | NumericalSolution.py:17-40 | the result is a header plus exactly `num_iterations` rows (header only when `num_iterations <= 0`) and is the table `IsSirTable` describes: row k is iteration k, starts at time 0 from the initial state for k = 1 and otherwise where row k-1 ended, and holds one Euler step |
| NumericalSolution.TableRowIsIterate | NumericalSolution.py:24-38 | row k steps from the state k-1 steps after the initial state to the state k steps after it |
| NumericalSolution.TableRowTimes | NumericalSolution.py:24-38 | row k runs from time `(k-1)*delta_t` to time `k*delta_t` |
| NumericalSolution.TimesAreMultiples | NumericalSolution.py:24-38 | under the table's clock (start at 0, each row ends `delta_t` after it starts, each row starts where the previous one ended), row k runs from `(k-1)*delta_t` to `k*delta_t` |
| NumericalSolution.TableIsUnique | NumericalSolution.py:17-40 | the table is determined by its inputs: two tables from the same inputs are equal |
| NumericalSolution.TableConservesPopulation | NumericalSolution.py:26-38 | every row shows the initial population `S+I+R`, before and after its step |
| NumericalSolution.InfectionFreeTableIsConstant | NumericalSolution.py:26-38 | with no initial infection every row repeats the initial state |
| NumericalSolution.ScriptRun | NumericalSolution.py:42-56 | the configured run has 121 entries, its first row is exactly `(1, 0, 999000, 1000, 0, 1, 998853.147, 1088.053, 58.8)`, and every row keeps one million people |
| SiField.SirModel | Nulcline.py:5-8 | `ds + di = -b*i`, and the field vanishes when `i = 0` |
| SiField.FieldZeros | Nulcline.py:5-8 | `ds = 0` exactly when `a`, `s` or `i` is 0; `di = 0` exactly when `i = 0` or `a*s = b` |
| SiField.INullclineIsVertical | Nulcline.py:40 | for `a != 0`, `di = 0` at `s = b/a` for every `i` |
| SiField.DIdS | Nulcline.py:11-12 | undefined exactly when `a*s = 0`; otherwise the slope times `ds` is `di`, and for `i != 0` it equals `di/ds` |
| SiField.IsAboveLine | Nulcline.py:15-16 | the test holds exactly when `s + i <= 1`, that is on or below the line |
| SiField.SiStep | Nulcline.py:54-56 | a unit step lowers `s + i` by exactly `b*i`, and leaves an infection-free point where it is |
| SiField.RegionIsForwardInvariant | Nulcline.py:54-60 | with `b >= 0` and `i >= 0`, a point that passes the stopping test still passes it after a step |
| SiField.OrbitIsIterate | Project1.py:34-39 | point k of a recorded orbit is the point reached by k unit Euler steps |
| SiField.OrbitIsUnique | Project1.py:34-39 | orbits from the same point with the same length are equal |
| SiField.OrbitConservesTotal | Project1.py:34-39 | after k steps, `s + i` plus the recovered amount accumulated so far equals the initial `s + i` |
| Sampling.Linspace | Nulcline.py:23-24 | n samples; the first is lo and the last is hi; consecutive samples are `(hi-lo)/(n-1)` apart; all lie between lo and hi |
| Sampling.Meshgrid | Nulcline.py:25 | one row per y value, one column per x value, and entry (k, j) is `(xs[j], ys[k])` |
| Nulcline.DerivativeGrid | Nulcline.py:23-28 | the grid has one row per sampled `i` and one entry per sampled `s`, and entry (k, j) is the vector field at `(s_values[j], i_values[k])` |
| Nulcline.SlopeGrid | Nulcline.py:31 | same shape, and entry (k, j) is `dI/dS` at `(s_values[j], i_values[k])` |
| Nulcline.INullcline | Nulcline.py:40 | undefined exactly when `a = 0`; otherwise one value per sampled `i`, each equal to `b/a`, and `di = 0` at every one of them |
| Nulcline.ScriptAxesPositive | Nulcline.py:23-24 | both script axes have 20 samples between 0.01 and 1 |
| Nulcline.SusceptibleFalls | Nulcline.py:5-6 | for positive `s`, `i` and `a`, `ds < 0` |
| Nulcline.ScriptDerivativeGrid | Nulcline.py:19-28 | the script's derivative grid is 20×20 and every arrow has `ds < 0` |
| Nulcline.ScriptSlopeGrid | Nulcline.py:19-31 | the slope is defined at every point of the script's grid |
| Nulcline.ScriptNullcline | Nulcline.py:19-40 | with `a = 0.3` and `b = 0.1`, the I-nullcline is 20 copies of 1/3 |
| Nulcline.Trajectory | Nulcline.py:49-60 | between 1 and 100 points are recorded; the first is the initial point and each later one is a unit step from its predecessor; every recorded point after the first passes the test; when fewer than 100 are recorded, the next step fails the test and is not recorded |
| Nulcline.Trajectories | Nulcline.py:47-62 | one such trajectory per initial point, in order |
| Nulcline.TrajectoryLengthIsFirstExit | Nulcline.py:51-60 | every iterate before the trajectory's length passes the test, and the iterate at its length fails it unless the cap of 100 was reached |
| Nulcline.StoppedTrajectoryIsUnique | Nulcline.py:49-60 | the stopping rule determines the trajectory uniquely from its initial point |
| Project1.QuiverGrid | Project1.py:14-21 | the grid has one row per sampled `i` and one entry per sampled `s`, and each inline pair `(U, V)` is the vector field at its grid point |
| Project1.Quiver | Project1.py:20-21 | the inline `U = -beta*s*i` and `V = beta*s*i - gamma*i` are exactly the outputs of `sir_model` at that point |
| Project1.ArrowPointsLeft | Project1.py:20 | for non-negative `s`, `i` and `beta`, `U <= 0` |
| Project1.ScriptQuiverGrid | Project1.py:11-21 | the script's quiver grid is 20×20, no arrow has `U > 0`, and the arrows of the first row, where `i = 0`, have zero length |
| Project1.Trajectory | Project1.py:31-39 | exactly 100 points with no early exit, forming the Euler orbit of `(s_init, 1 - s_init)`; the first point lies on `s + i = 1` |
| Project1.AllTrajectories | Project1.py:30-41 | one 100-point orbit per initial value, in list order |
| Project1.ScriptInitialPoints | Project1.py:30-31 | there are six initial values, each giving a start point on the line strictly inside the positive quadrant |
| Project1.TrajectoryDrainsLine | Project1.py:34-39 | each step lowers `s + i` by exactly `gamma*i` |
| Project1.TrajectoryConservesLine | Project1.py:31-39 | at every recorded point, the last one included, `s + i` is 1 less the recovered amount accumulated so far |
| PhasePlane.DPdt | PhasePlane.py:5-6 | the rate is zero exactly at 0 and 1, positive strictly between them, and negative below 0 and above 1 |
| PhasePlane.Equilibria | PhasePlane.py:22-24 | 0 and 1 are equilibria; the rate is `h - h*h` at `0 + h` (slope +1, unstable) and `-h - h*h` at `1 + h` (slope -1, stable); for `0 < abs(h) < 1` populations move away from 0 and back towards 1 on both sides |
| PhasePlane.SampleAxis | PhasePlane.py:9-10 | both axes have 20 samples `-1 + 3k/19`, including the endpoints -1 and 2 |
| PhasePlane.SlopeField | PhasePlane.py:13-20 | one row per t value, one arrow per P value, and arrow (k, j) is at `(t_k, P_j)` with direction `(1, dP/dt(P_j))` |
| PhasePlane.SlopeFieldIsAutonomous | PhasePlane.py:16-20 | arrows at the same P have the same direction for every t, and point up exactly when `0 < P < 1` |
| PhasePlane.ScriptSlopeField | PhasePlane.py:9-20 | the script's field is 20×20 and no sample of P is an equilibrium |

## Left out

- Plotting: every matplotlib call (`quiver`, `streamplot`, `plot`, `axhline`, limits, labels, legends, `show`) is rendering only.
- NumericalSolution.py:59-61: the console printing of the table is left out.
- NumericalSolution.EulerSirModel: the rows hold the unrounded values. The source rounds every row value to three decimals with `round(..., 3)` (NumericalSolution.py:35-36), and that display rounding is not modelled.
- NumericalSolution.py:64-68: the plotting lists `S_values`, `I_values` and `R_values` are not modelled. They are built from the pre-step columns, so they omit the state after the last step. They also start with the initial state and then list row 1's pre-step value, which is the initial state again, so against `t_values` every later value is plotted one step late.
- Nulcline.Trajectories: the ten initial points come from `np.random.uniform` (Nulcline.py:48). The model takes them as a parameter, because randomness is outside the model.
- Floating point: every quantity is an exact `real`. Overflow, NaN, infinities and inexact sums are not modelled, and the conservation laws hold exactly only in this model.
- SiField.DIdS: where `a*s = 0` the script divides by zero, which gives an infinity, a NaN or an exception. The model returns `None` there.
- Nulcline.INullcline: where `a = 0` the script divides by zero; the model returns `None`.
- The trajectories are two parallel lists in the scripts. Each is modelled as one sequence of points, whose k-th point pairs the k-th entries of the two lists.
- Recording the point that fails the stopping test is not modelled, because the code never does it: Nulcline.py:52-53 appends before the step and the test at lines 59-60. The model follows the code.
- Logistic Growth.py is not part of this model.
