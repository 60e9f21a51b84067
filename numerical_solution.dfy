/** Euler's method for the three-compartment SIR epidemic model: the rate
    functions for S, I and R, one explicit step, and the loop that builds
    the per-iteration results table. */
module NumericalSolution {

  /** Rate of change of the susceptible compartment, `-a*S*I`: never
      positive for non-negative rate and compartments, zero without infection. */
  function DSdt(a: real, s: real, i: real): (r: real)
    ensures a >= 0.0 && s >= 0.0 && i >= 0.0 ==> r <= 0.0
    ensures i == 0.0 ==> r == 0.0
  {
    assert a >= 0.0 && s >= 0.0 && i >= 0.0 ==> a * s >= 0.0 && a * s * i >= 0.0;
    -a * s * i
  }

  /** Rate of change of the infectious compartment, `a*S*I - b*I`: with
      infectious people present it is positive exactly when `a*S` exceeds
      `b` (the epidemic threshold), and it is zero without infection. */
  function DIdt(a: real, b: real, s: real, i: real): (r: real)
    ensures i > 0.0 ==> (r > 0.0 <==> a * s > b)
    ensures i == 0.0 ==> r == 0.0
  {
    assert a * s * i - b * i == (a * s - b) * i;
    a * s * i - b * i
  }

  /** Rate of change of the recovered compartment, `b*I`: never negative
      for a non-negative recovery rate and infectious count. */
  function DRdt(b: real, i: real): (r: real)
    ensures b >= 0.0 && i >= 0.0 ==> r >= 0.0
    ensures i == 0.0 ==> r == 0.0
  {
    b * i
  }

  /** Whatever leaves one compartment enters another: the three rates cancel. */
  lemma RatesCancel(a: real, b: real, s: real, i: real)
    ensures DSdt(a, s, i) + DIdt(a, b, s, i) + DRdt(b, i) == 0.0
    ensures i == 0.0 ==> DSdt(a, s, i) == DIdt(a, b, s, i) == DRdt(b, i) == 0.0
  {
  }

  /** The values of the three compartments at one time. */
  datatype SirState = SirState(s: real, i: real, r: real)

  /** The whole population `S + I + R`. */
  function Total(x: SirState): real
  {
    x.s + x.i + x.r
  }

  /** One compartment moved by its rate over a step of length `dt`. */
  function Advance(v: real, rate: real, dt: real): real
  {
    v + rate * dt
  }

  /** One explicit Euler step of length `dt`, every rate evaluated at the
      state before the step. */
  function EulerStep(x: SirState, a: real, b: real, dt: real): (y: SirState)
    ensures Total(y) == Total(x)
    ensures x.i == 0.0 ==> y == x
    ensures b >= 0.0 && x.i >= 0.0 && dt > 0.0 ==> y.r >= x.r
  {
    RatesCancel(a, b, x.s, x.i);
    var dS, dI, dR := DSdt(a, x.s, x.i), DIdt(a, b, x.s, x.i), DRdt(b, x.i);
    assert dS * dt + dI * dt + dR * dt == (dS + dI + dR) * dt;
    assert b >= 0.0 && x.i >= 0.0 && dt > 0.0 ==> dR >= 0.0 && dR * dt >= 0.0;
    SirState(Advance(x.s, dS, dt), Advance(x.i, dI, dt), Advance(x.r, dR, dt))
  }

  /** The state after `k` Euler steps from `x0`. */
  function Iterate(x0: SirState, a: real, b: real, dt: real, k: nat): SirState
  {
    if k == 0 then x0 else EulerStep(Iterate(x0, a, b, dt, k - 1), a, b, dt)
  }

  /** The population is the same after any number of steps. */
  lemma {:induction false} IterateConservesTotal(x0: SirState, a: real, b: real, dt: real, k: nat)
    ensures Total(Iterate(x0, a, b, dt, k)) == Total(x0)
  {
    if k > 0 {
      IterateConservesTotal(x0, a, b, dt, k - 1);
    }
  }

  /** A state without infectious individuals never changes. */
  lemma {:induction false} InfectionFreeIsFixedPoint(x0: SirState, a: real, b: real, dt: real, k: nat)
    requires x0.i == 0.0
    ensures Iterate(x0, a, b, dt, k) == x0
  {
    if k > 0 {
      InfectionFreeIsFixedPoint(x0, a, b, dt, k - 1);
    }
  }

  /** With a non-negative recovery rate and infectious count that stays
      non-negative, the recovered compartment never shrinks. */
  lemma {:induction false} RecoveredNeverShrinks(x0: SirState, a: real, b: real, dt: real, k: nat)
    requires b >= 0.0 && dt > 0.0
    requires forall m :: 0 <= m < k ==> Iterate(x0, a, b, dt, m).i >= 0.0
    ensures Iterate(x0, a, b, dt, k).r >= x0.r
  {
    if k > 0 {
      RecoveredNeverShrinks(x0, a, b, dt, k - 1);
    }
  }

  /** The column names of the first row of the table. */
  const HeaderColumns: seq<string> :=
    ["Iteration", "t", "S(t)", "I(t)", "R(t)", "New t", "New S(t)", "New I(t)", "New R(t)"]

  /** One row of the results table: the header, or an iteration with the
      time and compartments before and after its step. */
  datatype Row =
    | Header(columns: seq<string>)
    | Entry(iteration: nat, t: real, s: real, i: real, r: real,
            newT: real, newS: real, newI: real, newR: real)
  {
    /** The state before the row's step. */
    function Pre(): SirState
      requires Entry?
    {
      SirState(s, i, r)
    }

    /** The state after the row's step. */
    function Post(): SirState
      requires Entry?
    {
      SirState(newS, newI, newR)
    }
  }

  /** What the stepping loop builds from `x0` in `n` iterations: the header,
      then rows 1 to `n`. Row `k` is iteration `k`; its step is one Euler
      step of length `dt` from its own pre-step values; the first row starts
      at time 0 from `x0`, and every later row starts where the one before
      it ended. */
  ghost predicate IsSirTable(x0: SirState, a: real, b: real, dt: real, n: nat, rows: seq<Row>)
  {
    && |rows| == n + 1
    && rows[0] == Header(HeaderColumns)
    && RowsAreSteps(a, b, dt, n, rows)
    && (n >= 1 ==> rows[1].Pre() == x0 && rows[1].t == 0.0)
    && RowsAreChained(n, rows)
  }

  /** Rows 1 to `n` are entries numbered in order, each holding one Euler step
      of length `dt` from its own pre-step values. */
  ghost predicate RowsAreSteps(a: real, b: real, dt: real, n: nat, rows: seq<Row>)
    requires n < |rows|
  {
    forall k :: 1 <= k <= n ==>
      && rows[k].Entry? && rows[k].iteration == k
      && rows[k].Post() == EulerStep(rows[k].Pre(), a, b, dt)
      && rows[k].newT == rows[k].t + dt
  }

  /** Each of rows 2 to `n` starts at the time and state where the row before
      it ended. */
  ghost predicate RowsAreChained(n: nat, rows: seq<Row>)
    requires n < |rows|
    requires forall k :: 1 <= k <= n ==> rows[k].Entry?
  {
    forall k :: 1 <= k < n ==> rows[k + 1].Pre() == rows[k].Post() && rows[k + 1].t == rows[k].newT
  }

  /** Where the next row of a table with `n` rows after the header starts:
      its time and state. */
  function Resume(x0: SirState, n: nat, rows: seq<Row>): (real, SirState)
    requires n < |rows| && (n >= 1 ==> rows[n].Entry?)
  {
    if n == 0 then (0.0, x0) else (rows[n].newT, rows[n].Post())
  }

  /** A table grows by one row that continues it by one step. */
  lemma AppendRow(x0: SirState, a: real, b: real, dt: real, n: nat, rows: seq<Row>, row: Row)
    requires IsSirTable(x0, a, b, dt, n, rows)
    requires row.Entry? && row.iteration == n + 1
    requires row.Post() == EulerStep(row.Pre(), a, b, dt) && row.newT == row.t + dt
    requires (row.t, row.Pre()) == Resume(x0, n, rows)
    ensures IsSirTable(x0, a, b, dt, n + 1, rows + [row])
    ensures Resume(x0, n + 1, rows + [row]) == (row.newT, row.Post())
  {
    var rows' := rows + [row];
    assert forall k :: 0 <= k <= n ==> rows'[k] == rows[k];
  }

  /** Runs `numIterations` Euler steps from the initial compartments and
      returns the header followed by one row per step; no rows when
      `numIterations` is not positive. */
  method EulerSirModel(initialS: real, initialI: real, initialR: real, a: real, b: real,
                       deltaT: real, numIterations: int) returns (results: seq<Row>)
    ensures |results| == (if numIterations > 0 then numIterations else 0) + 1
    ensures IsSirTable(SirState(initialS, initialI, initialR), a, b, deltaT,
                       if numIterations > 0 then numIterations else 0, results)
  {
    ghost var x0 := SirState(initialS, initialI, initialR);
    results := [Header(HeaderColumns)];
    var s, i, r := initialS, initialI, initialR;
    var t := 0.0;
    var iteration := 1;
    while iteration <= numIterations
      invariant 1 <= iteration <= (if numIterations > 0 then numIterations else 0) + 1
      invariant IsSirTable(x0, a, b, deltaT, iteration - 1, results)
      invariant (t, SirState(s, i, r)) == Resume(x0, iteration - 1, results)
    {
      var dS := DSdt(a, s, i);
      var dI := DIdt(a, b, s, i);
      var dR := DRdt(b, i);
      var newT := t + deltaT;
      var newS := Advance(s, dS, deltaT);
      var newI := Advance(i, dI, deltaT);
      var newR := Advance(r, dR, deltaT);
      var row := Entry(iteration, t, s, i, r, newT, newS, newI, newR);
      AppendRow(x0, a, b, deltaT, iteration - 1, results, row);
      results := results + [row];
      t, s, i, r := newT, newS, newI, newR;
      iteration := iteration + 1;
    }
  }

  /** Row `k` of a table holds iteration `k`: it steps from the state `k-1`
      steps from `x0` to the state `k` steps from `x0`. */
  lemma {:induction false} TableRowIsIterate(x0: SirState, a: real, b: real, dt: real, n: nat,
                                             rows: seq<Row>, k: nat)
    requires IsSirTable(x0, a, b, dt, n, rows)
    requires 1 <= k <= n
    ensures rows[k].Pre() == Iterate(x0, a, b, dt, k - 1)
    ensures rows[k].Post() == Iterate(x0, a, b, dt, k)
  {
    if k > 1 {
      TableRowIsIterate(x0, a, b, dt, n, rows, k - 1);
    }
  }

  /** Row `k` of a table runs from time `(k-1)*dt` to time `k*dt`. */
  lemma TableRowTimes(x0: SirState, a: real, b: real, dt: real, n: nat,
                      rows: seq<Row>, k: nat)
    requires IsSirTable(x0, a, b, dt, n, rows)
    requires 1 <= k <= n
    ensures rows[k].t == (k - 1) as real * dt && rows[k].newT == k as real * dt
  {
    TimesAreMultiples(dt, n, rows, k);
  }

  /** The clock of a table alone: rows 1 to `n` are entries, the first
      starts at time 0, each ends `dt` after it starts, and each later one
      starts when the one before it ended. */
  ghost predicate IsClock(dt: real, n: nat, rows: seq<Row>)
  {
    && n < |rows|
    && (forall k :: 1 <= k <= n ==> rows[k].Entry? && rows[k].newT == rows[k].t + dt)
    && (n >= 1 ==> rows[1].t == 0.0)
    && (forall k :: 1 <= k < n ==> rows[k + 1].t == rows[k].newT)
  }

  /** Under such a clock, row `k` runs from `(k-1)*dt` to `k*dt`. */
  lemma {:induction false} TimesAreMultiples(dt: real, n: nat, rows: seq<Row>, k: nat)
    requires IsClock(dt, n, rows)
    requires 1 <= k <= n
    ensures rows[k].t == (k - 1) as real * dt && rows[k].newT == k as real * dt
  {
    var m := (k - 1) as real;
    assert k as real == m + 1.0;
    if k > 1 {
      TimesAreMultiples(dt, n, rows, k - 1);
      assert rows[k].t == rows[k - 1].newT;
    }
    assert rows[k].newT == rows[k].t + dt;
    NextMultiple(m, dt);
  }

  /** One more step of length `dt` after `m` steps ends at `(m + 1) * dt`. */
  lemma NextMultiple(m: real, dt: real)
    ensures m * dt + dt == (m + 1.0) * dt
  {
  }

  /** A table is determined by its initial state, rates, step and length. */
  lemma TableIsUnique(x0: SirState, a: real, b: real, dt: real, n: nat, rows1: seq<Row>, rows2: seq<Row>)
    requires IsSirTable(x0, a, b, dt, n, rows1) && IsSirTable(x0, a, b, dt, n, rows2)
    ensures rows1 == rows2
  {
    forall k | 0 <= k <= n ensures rows1[k] == rows2[k] {
      if k > 0 {
        TableRowIsIterate(x0, a, b, dt, n, rows1, k);
        TableRowIsIterate(x0, a, b, dt, n, rows2, k);
        TableRowTimes(x0, a, b, dt, n, rows1, k);
        TableRowTimes(x0, a, b, dt, n, rows2, k);
      }
    }
  }

  /** Every row of a table shows the population of the initial state,
      before and after its step. */
  lemma {:induction false} TableConservesPopulation(x0: SirState, a: real, b: real, dt: real, n: nat,
                                                    rows: seq<Row>, k: nat)
    requires IsSirTable(x0, a, b, dt, n, rows)
    requires 1 <= k <= n
    ensures Total(rows[k].Pre()) == Total(x0) && Total(rows[k].Post()) == Total(x0)
  {
    if k > 1 {
      TableConservesPopulation(x0, a, b, dt, n, rows, k - 1);
    }
  }

  /** Without infectious individuals every row of a table repeats the
      initial state before and after its step. */
  lemma {:induction false} InfectionFreeTableIsConstant(x0: SirState, a: real, b: real, dt: real, n: nat,
                                                        rows: seq<Row>, k: nat)
    requires IsSirTable(x0, a, b, dt, n, rows)
    requires x0.i == 0.0 && 1 <= k <= n
    ensures rows[k].Pre() == x0 && rows[k].Post() == x0
  {
    if k > 1 {
      InfectionFreeTableIsConstant(x0, a, b, dt, n, rows, k - 1);
    }
  }

  /** The run configured in the script: 120 daily steps from 999000
      susceptible and 1000 infectious people. Its table has 121 entries; the
      first step moves 146.853 people from S to I and 58.8 from I to R; and
      every row keeps the population at one million. */
  lemma ScriptRun(rows: seq<Row>, k: nat)
    requires IsSirTable(SirState(999000.0, 1000.0, 0.0), 0.000000147, 0.0588, 1.0, 120, rows)
    requires 1 <= k <= 120
    ensures |rows| == 121
    ensures rows[1] == Entry(1, 0.0, 999000.0, 1000.0, 0.0, 1.0, 998853.147, 1088.053, 58.8)
    ensures Total(rows[k].Post()) == 1000000.0
  {
    TableConservesPopulation(SirState(999000.0, 1000.0, 0.0), 0.000000147, 0.0588, 1.0, 120, rows, k);
  }
}
