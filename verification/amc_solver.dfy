/**
 * The American Monte Carlo roll-back: the state of every simulated path at
 * the simulation time nearest to an exercise time, the split of the paths
 * into training paths (for the regression) and valuation paths, the
 * discounting by the numeraire and the exercise decision on every path.
 *
 * The numeraire of the model and the least-squares regression are calls
 * into code that is not part of this model: they are parameters, and only
 * the shapes of their results are assumed.
 */
module AmcSolver {
  import opened NumPy

  /** What the solver reads of a Monte Carlo simulation: its times, the slices X[i] and `n_paths`. */
  datatype Simulation = Simulation(times: seq<real>, slices: seq<Matrix>, size: nat, nPaths: nat)

  /**
   * A simulation the solver can work with: at least one sorted time, one
   * (size x nPaths) slice per time, at least one state and one path.
   */
  ghost predicate Valid(sim: Simulation) {
    |sim.times| >= 1 && NonDecreasing(sim.times) && |sim.slices| == |sim.times|
    && sim.size >= 1 && sim.nPaths >= 1
    && forall i :: 0 <= i < |sim.slices| ==> IsShape(sim.slices[i], sim.size, sim.nPaths)
  }

  /** `controls(X, t)`: the regression variables of the states X observed at t. */
  type Controls = (Matrix, real) -> Matrix

  /** `StateVariableControls()(X, t)`: the first state variable as the only control. */
  function StateVariableControls(x: Matrix, t: real): (c: Matrix)
    ensures |x| >= 1 ==> |c| == 1 && c[0] == x[0]
    ensures Cols(c) == Cols(x)
  {
    if |x| == 0 then [] else [x[0]]
  }

  /** Controls that yield one value per path, as regression inputs must. */
  ghost predicate KeepsPaths(controls: Controls) {
    forall x, t :: Cols(controls(x, t)) == Cols(x)
  }

  lemma StateVariableControlsKeepPaths()
    ensures KeepsPaths(StateVariableControls)
  {
    forall x, t ensures Cols(StateVariableControls(x, t)) == Cols(x) {
    }
  }

  /**
   * The calls into code not modelled here: the model's `numeraire(x, t)`
   * and `Regression(C, O, degree).value(controls)`, the latter fitted by
   * least squares on the training controls C and observations O.
   */
  datatype Services = Services(
    numeraire: (Matrix, real) -> seq<real>,
    regression: (Matrix, seq<real>, nat, Matrix) -> seq<real>)

  /** One nonzero numeraire value per path. */
  predicate NumeraireValues(n: seq<real>, nPaths: nat) {
    |n| == nPaths && forall p :: 0 <= p < nPaths ==> n[p] != 0.0
  }

  /** The numeraire yields one nonzero value per path; a regression one value per control column. */
  ghost predicate Shaped(sv: Services, nPaths: nat) {
    (forall x, t :: NumeraireValues(sv.numeraire(x, t), nPaths))
    && (forall c, o, d, e :: |sv.regression(c, o, d, e)| == Cols(e))
  }

  /** `AmcSolver(simulation, max_polynomial_degree, split_ratio, controls)`, and its subclass. */
  datatype Solver = Solver(sim: Simulation, maxPolynomialDegree: nat, minSampleIdx: int, controls: Controls)

  /** Python's `int(x)` on a float: truncation toward zero. */
  function Trunc(x: real): (r: int)
    ensures x >= 0.0 ==> 0 <= r && r as real <= x < r as real + 1.0
    ensures x < 0.0 ==> r <= 0 && r as real - 1.0 < x <= r as real
  {
    if x >= 0.0 then x.Floor else -((-x).Floor)
  }

  /** `AmcSolver.__init__`: minSampleIdx = int(split_ratio * n_paths). */
  function NewAmcSolver(sim: Simulation, maxPolynomialDegree: nat := 2, splitRatio: real := 0.25,
                        controls: Controls := StateVariableControls): (s: Solver)
    ensures s.sim == sim && s.maxPolynomialDegree == maxPolynomialDegree && s.controls == controls
    ensures s.minSampleIdx == Trunc(splitRatio * sim.nPaths as real)
  {
    Solver(sim, maxPolynomialDegree, Trunc(splitRatio * sim.nPaths as real), controls)
  }

  /**
   * `AmcSolverOnlyExerciseRegression.__init__`: passes three arguments to
   * the base constructor, so the controls are always the state variable.
   */
  function NewOnlyExercise(sim: Simulation, maxPolynomialDegree: nat := 2, splitRatio: real := 0.25,
                           controls: Controls := StateVariableControls): (s: Solver)
    ensures s.sim == sim && s.maxPolynomialDegree == maxPolynomialDegree
    ensures s.minSampleIdx == Trunc(splitRatio * sim.nPaths as real)
    ensures s.controls == StateVariableControls
  {
    NewAmcSolver(sim, maxPolynomialDegree, splitRatio, StateVariableControls)
  }

  /** With the default arguments a quarter of the paths (rounded down) are training paths and the state variable is the control. */
  lemma DefaultSplit(sim: Simulation)
    ensures NewAmcSolver(sim).maxPolynomialDegree == 2 && NewAmcSolver(sim).controls == StateVariableControls
    ensures 4 * NewAmcSolver(sim).minSampleIdx <= sim.nPaths < 4 * NewAmcSolver(sim).minSampleIdx + 4
  {
  }

  /** A split ratio in [0, 1] leaves between none and all of the paths for training. */
  lemma TrainingPaths(sim: Simulation, maxPolynomialDegree: nat, splitRatio: real, controls: Controls)
    requires 0.0 <= splitRatio <= 1.0
    ensures 0 <= NewAmcSolver(sim, maxPolynomialDegree, splitRatio, controls).minSampleIdx <= sim.nPaths
  {
    var n := sim.nPaths as real;
    assert splitRatio * n <= 1.0 * n;
  }

  /**
   * `nearest_index(t)`: searchsorted finds the first time not below t;
   * the time before it is taken when t is past the last time or strictly
   * closer to that earlier time.
   */
  function NearestIndex(times: seq<real>, t: real): (r: nat)
    requires NonDecreasing(times)
    ensures |times| == 0 ==> r == 0
    ensures |times| > 0 ==> r < |times|
    ensures |times| > 0 && t <= times[0] ==> r == 0
    ensures |times| > 0 && t > times[|times| - 1] ==> r == |times| - 1
  {
    var idx := SearchSorted(times, t);
    if idx > 0 && (idx == |times| || Abs(t - times[idx - 1]) < Abs(t - times[idx])) then idx - 1 else idx
  }

  /**
   * On strictly increasing times the nearest index is a closest time, and
   * strictly closer than every later time: a tie goes to the later index.
   */
  lemma NearestIndexClosest(times: seq<real>, t: real, i: nat)
    requires StrictlyIncreasing(times) && i < |times|
    ensures Abs(t - times[NearestIndex(times, t)]) <= Abs(t - times[i])
    ensures NearestIndex(times, t) < i ==> Abs(t - times[NearestIndex(times, t)]) < Abs(t - times[i])
  {
  }

  /** A simulation time is found at its own index. */
  lemma NearestIndexAtTime(times: seq<real>, i: nat)
    requires StrictlyIncreasing(times) && i < |times|
    ensures NearestIndex(times, times[i]) == i
  {
    SearchSortedAtEntry(times, i);
  }

  /** `states(expiryTime)`: the simulated states at the nearest simulation time. */
  function States(s: Solver, t: real): (x: Matrix)
    requires Valid(s.sim)
    ensures IsShape(x, s.sim.size, s.sim.nPaths)
    ensures x == s.sim.slices[NearestIndex(s.sim.times, t)]
  {
    s.sim.slices[NearestIndex(s.sim.times, t)]
  }

  /** `N0 / N1 * V`, entry by entry. */
  function Discount(n0: seq<real>, n1: seq<real>, v: seq<real>): (r: seq<real>)
    requires |n0| == |v| && |n1| == |v| && forall p :: 0 <= p < |v| ==> n1[p] != 0.0
    ensures |r| == |v| && forall p :: 0 <= p < |v| ==> r[p] == n0[p] / n1[p] * v[p]
  {
    seq(|v|, p requires 0 <= p < |v| => n0[p] / n1[p] * v[p])
  }

  /** `(I > 0.0) * U1 + (I <= 0.0) * H1`: continue where the indicator is positive, else exercise. */
  function Choose(indicator: seq<real>, u: seq<real>, h: seq<real>): (r: seq<real>)
    requires |indicator| == |u| && |h| == |u|
    ensures |r| == |u|
    ensures forall p :: 0 <= p < |u| ==> r[p] == if indicator[p] > 0.0 then u[p] else h[p]
  {
    seq(|u|, p requires 0 <= p < |u| => if indicator[p] > 0.0 then u[p] else h[p])
  }

  /** With the indicator U1 - H1 the exercise choice is the larger of U1 and H1 on every path. */
  lemma ChooseDifference(u: seq<real>, h: seq<real>)
    requires |u| == |h|
    ensures Choose(Subtract(u, h), u, h) == Maximum(u, h)
  {
    var c := Choose(Subtract(u, h), u, h);
    forall p | 0 <= p < |u| ensures c[p] == Maximum(u, h)[p] {
    }
  }

  /**
   * The path from which the final average starts: minSampleIdx, or 0 when
   * there are no paths left after the training paths.
   */
  function SampleIdx(s: Solver): (r: int)
    ensures r < s.sim.nPaths || s.sim.nPaths == 0
  {
    if s.minSampleIdx < s.sim.nPaths then s.minSampleIdx else 0
  }

  /** The values averaged at T0 = 0: never empty, as there is at least one path. */
  lemma SampleNonEmpty(s: Solver, v: seq<real>)
    requires |v| == s.sim.nPaths >= 1
    ensures |SliceFrom(v, SampleIdx(s))| >= 1
    ensures 0 <= SampleIdx(s) ==> |SliceFrom(v, SampleIdx(s))| == |v| - SampleIdx(s)
  {
  }

  /** The common end of both `roll_back`s: at T0 = 0 the single state 0 and the mean over the valuation paths. */
  function Finish(s: Solver, t0: real, x0: Matrix, v0: seq<real>): (r: (Matrix, seq<real>))
    requires t0 == 0.0 ==> |v0| == s.sim.nPaths >= 1
    ensures t0 != 0.0 ==> r == (x0, v0)
    ensures t0 == 0.0 ==> r.0 == [[0.0]] && |r.1| == 1
  {
    if t0 == 0.0 then
      SampleNonEmpty(s, v0);
      ([[0.0]], [Mean(SliceFrom(v0, SampleIdx(s)))])
    else (x0, v0)
  }

  /** Whether a roll-back regresses: there are training paths and T0 is after today. */
  predicate Regresses(s: Solver, t0: real) {
    s.minSampleIdx > 0 && t0 > 0.0
  }

  /** `AmcSolver.roll_back(T0, T1, x1, U1, H1)`. */
  function RollBack(s: Solver, sv: Services, t0: real, t1: real, x1: Matrix, u1: seq<real>, h1: seq<real>): (r: (Matrix, seq<real>))
    requires Valid(s.sim) && Shaped(sv, s.sim.nPaths)
    requires |u1| == s.sim.nPaths && |h1| == s.sim.nPaths
    ensures !Regresses(s, t0) ==> |r.1| == (if t0 == 0.0 then 1 else s.sim.nPaths)
  {
    var x0 := States(s, t0);
    var n0 := sv.numeraire(x0, t0);
    var n1 := sv.numeraire(x1, t1);
    assert NumeraireValues(n0, s.sim.nPaths) && NumeraireValues(n1, s.sim.nPaths);
    if Regresses(s, t0) then
      var m := s.minSampleIdx as nat;
      var training := Discount(SliceTo(n0, m), SliceTo(n1, m), Maximum(SliceTo(u1, m), SliceTo(h1, m)));
      var v0 := sv.regression(s.controls(ColumnsTo(x0, m), t0), training, s.maxPolynomialDegree, s.controls(x0, t0));
      Finish(s, t0, x0, v0)
    else
      Finish(s, t0, x0, Discount(n0, n1, Maximum(u1, h1)))
  }

  /**
   * The exercise indicator of `AmcSolverOnlyExerciseRegression.roll_back`:
   * U1 - H1 regressed on the controls of x1 when training paths are used,
   * otherwise U1 - H1 itself.  It holds one value per path.
   */
  function ExerciseIndicator(s: Solver, sv: Services, t0: real, t1: real, x1: Matrix, u1: seq<real>, h1: seq<real>): (r: seq<real>)
    requires Valid(s.sim) && Shaped(sv, s.sim.nPaths) && KeepsPaths(s.controls)
    requires IsShape(x1, s.sim.size, s.sim.nPaths)
    requires |u1| == s.sim.nPaths && |h1| == s.sim.nPaths
    ensures |r| == s.sim.nPaths
  {
    if Regresses(s, t0) then
      var m := s.minSampleIdx as nat;
      sv.regression(s.controls(ColumnsTo(x1, m), t1), Subtract(SliceTo(u1, m), SliceTo(h1, m)),
                    s.maxPolynomialDegree, s.controls(x1, t1))
    else Subtract(u1, h1)
  }

  /** `AmcSolverOnlyExerciseRegression.roll_back(T0, T1, x1, U1, H1)`. */
  function RollBackOnlyExercise(s: Solver, sv: Services, t0: real, t1: real, x1: Matrix, u1: seq<real>, h1: seq<real>): (r: (Matrix, seq<real>))
    requires Valid(s.sim) && Shaped(sv, s.sim.nPaths) && KeepsPaths(s.controls)
    requires IsShape(x1, s.sim.size, s.sim.nPaths)
    requires |u1| == s.sim.nPaths && |h1| == s.sim.nPaths
    ensures |r.1| == (if t0 == 0.0 then 1 else s.sim.nPaths)
  {
    var x0 := States(s, t0);
    var n0 := sv.numeraire(x0, t0);
    var n1 := sv.numeraire(x1, t1);
    assert NumeraireValues(n0, s.sim.nPaths) && NumeraireValues(n1, s.sim.nPaths);
    Finish(s, t0, x0, Discount(n0, n1, Choose(ExerciseIndicator(s, sv, t0, t1, x1, u1, h1), u1, h1)))
  }

  /**
   * The exercise-only variant accumulates realised cash flows: before today
   * every path carries its discounted continuation value U1 or its
   * discounted exercise value H1, whichever the indicator picks, never a
   * regressed value.
   */
  lemma OnlyExerciseRealisesCashFlows(s: Solver, sv: Services, t0: real, t1: real, x1: Matrix,
                                      u1: seq<real>, h1: seq<real>, p: nat)
    requires Valid(s.sim) && Shaped(sv, s.sim.nPaths) && KeepsPaths(s.controls)
    requires IsShape(x1, s.sim.size, s.sim.nPaths)
    requires |u1| == s.sim.nPaths && |h1| == s.sim.nPaths
    requires t0 != 0.0 && p < s.sim.nPaths
    ensures var r := RollBackOnlyExercise(s, sv, t0, t1, x1, u1, h1);
      var ratio := sv.numeraire(States(s, t0), t0)[p] / sv.numeraire(x1, t1)[p];
      r.0 == States(s, t0)
      && (r.1[p] == ratio * u1[p] || r.1[p] == ratio * h1[p])
      && (ExerciseIndicator(s, sv, t0, t1, x1, u1, h1)[p] > 0.0 ==> r.1[p] == ratio * u1[p])
      && (ExerciseIndicator(s, sv, t0, t1, x1, u1, h1)[p] <= 0.0 ==> r.1[p] == ratio * h1[p])
  {
  }

  /**
   * When the exercise decision is regressed, only the training paths
   * [0, minSampleIdx) of U1 and H1 enter it: changing U1 and H1 on the
   * valuation paths leaves the decision on every path, and the values on
   * the training paths, as they were.
   */
  lemma OnlyExerciseUsesTrainingPaths(s: Solver, sv: Services, t0: real, t1: real, x1: Matrix,
                                      u1: seq<real>, h1: seq<real>, u2: seq<real>, h2: seq<real>)
    requires Valid(s.sim) && Shaped(sv, s.sim.nPaths) && KeepsPaths(s.controls)
    requires IsShape(x1, s.sim.size, s.sim.nPaths)
    requires |u1| == s.sim.nPaths && |h1| == s.sim.nPaths && |u2| == s.sim.nPaths && |h2| == s.sim.nPaths
    requires Regresses(s, t0)
    requires forall p :: 0 <= p < s.minSampleIdx && p < s.sim.nPaths ==> u1[p] == u2[p] && h1[p] == h2[p]
    ensures ExerciseIndicator(s, sv, t0, t1, x1, u1, h1) == ExerciseIndicator(s, sv, t0, t1, x1, u2, h2)
    ensures forall p :: 0 <= p < s.minSampleIdx && p < s.sim.nPaths ==>
      RollBackOnlyExercise(s, sv, t0, t1, x1, u1, h1).1[p] == RollBackOnlyExercise(s, sv, t0, t1, x1, u2, h2).1[p]
  {
    var m := s.minSampleIdx as nat;
    assert SliceTo(u1, m) == SliceTo(u2, m);
    assert SliceTo(h1, m) == SliceTo(h2, m);
  }

  /**
   * Without a regression the value on every path at T0 > 0 is the
   * numeraire ratio times the larger of the continuation and the exercise
   * value, on the states at the nearest simulation time.
   */
  lemma RollBackWithoutRegression(s: Solver, sv: Services, t0: real, t1: real, x1: Matrix, u1: seq<real>, h1: seq<real>, p: nat)
    requires Valid(s.sim) && Shaped(sv, s.sim.nPaths)
    requires |u1| == s.sim.nPaths && |h1| == s.sim.nPaths
    requires !Regresses(s, t0) && t0 != 0.0 && p < s.sim.nPaths
    ensures RollBack(s, sv, t0, t1, x1, u1, h1).0 == States(s, t0)
    ensures RollBack(s, sv, t0, t1, x1, u1, h1).1[p]
      == sv.numeraire(States(s, t0), t0)[p] / sv.numeraire(x1, t1)[p] * Max(u1[p], h1[p])
  {
  }

  /**
   * With positive numeraires the value without regression dominates both
   * the discounted continuation value and the discounted exercise value.
   */
  lemma RollBackDominates(s: Solver, sv: Services, t0: real, t1: real, x1: Matrix, u1: seq<real>, h1: seq<real>, p: nat)
    requires Valid(s.sim) && Shaped(sv, s.sim.nPaths)
    requires |u1| == s.sim.nPaths && |h1| == s.sim.nPaths
    requires !Regresses(s, t0) && t0 != 0.0 && p < s.sim.nPaths
    requires sv.numeraire(States(s, t0), t0)[p] > 0.0 && sv.numeraire(x1, t1)[p] > 0.0
    ensures var ratio := sv.numeraire(States(s, t0), t0)[p] / sv.numeraire(x1, t1)[p];
      RollBack(s, sv, t0, t1, x1, u1, h1).1[p] >= ratio * u1[p]
      && RollBack(s, sv, t0, t1, x1, u1, h1).1[p] >= ratio * h1[p]
  {
    var ratio := sv.numeraire(States(s, t0), t0)[p] / sv.numeraire(x1, t1)[p];
    RollBackWithoutRegression(s, sv, t0, t1, x1, u1, h1, p);
    PositiveProduct(1.0, sv.numeraire(States(s, t0), t0)[p], sv.numeraire(x1, t1)[p]);
    MulMonotone(ratio, u1[p], Max(u1[p], h1[p]));
    MulMonotone(ratio, h1[p], Max(u1[p], h1[p]));
  }

  /**
   * Today (T0 = 0) the roll-back returns the single state 0 and the mean of
   * the discounted values over the paths from SampleIdx on.
   */
  lemma RollBackToday(s: Solver, sv: Services, t1: real, x1: Matrix, u1: seq<real>, h1: seq<real>)
    requires Valid(s.sim) && Shaped(sv, s.sim.nPaths)
    requires |u1| == s.sim.nPaths && |h1| == s.sim.nPaths
    ensures var v := Discount(sv.numeraire(States(s, 0.0), 0.0), sv.numeraire(x1, t1), Maximum(u1, h1));
      RollBack(s, sv, 0.0, t1, x1, u1, h1) == ([[0.0]], [Mean(SliceFrom(v, SampleIdx(s)))])
  {
  }

  /**
   * When a regression is fitted, only the training paths [0, minSampleIdx)
   * of U1 and H1 enter the result: the valuation paths are held out.
   */
  lemma RollBackUsesTrainingPaths(s: Solver, sv: Services, t0: real, t1: real, x1: Matrix,
                                  u1: seq<real>, h1: seq<real>, u2: seq<real>, h2: seq<real>)
    requires Valid(s.sim) && Shaped(sv, s.sim.nPaths)
    requires |u1| == s.sim.nPaths && |h1| == s.sim.nPaths && |u2| == s.sim.nPaths && |h2| == s.sim.nPaths
    requires Regresses(s, t0)
    requires forall p :: 0 <= p < s.minSampleIdx && p < s.sim.nPaths ==> u1[p] == u2[p] && h1[p] == h2[p]
    ensures RollBack(s, sv, t0, t1, x1, u1, h1) == RollBack(s, sv, t0, t1, x1, u2, h2)
  {
    var m := s.minSampleIdx as nat;
    assert SliceTo(u1, m) == SliceTo(u2, m);
    assert SliceTo(h1, m) == SliceTo(h2, m);
  }

  /**
   * Without a regression the exercise-only variant agrees with the full
   * solver: the indicator U1 - H1 picks the larger of U1 and H1.
   */
  lemma OnlyExerciseAgrees(s: Solver, sv: Services, t0: real, t1: real, x1: Matrix, u1: seq<real>, h1: seq<real>)
    requires Valid(s.sim) && Shaped(sv, s.sim.nPaths) && KeepsPaths(s.controls)
    requires IsShape(x1, s.sim.size, s.sim.nPaths)
    requires |u1| == s.sim.nPaths && |h1| == s.sim.nPaths
    requires !Regresses(s, t0)
    ensures RollBackOnlyExercise(s, sv, t0, t1, x1, u1, h1) == RollBack(s, sv, t0, t1, x1, u1, h1)
  {
    ChooseDifference(u1, h1);
  }

  /** The exercise-only solver rolls back alike whatever controls it is given. */
  lemma OnlyExerciseIgnoresControls(sim: Simulation, maxPolynomialDegree: nat, splitRatio: real,
                                    c1: Controls, c2: Controls, sv: Services,
                                    t0: real, t1: real, x1: Matrix, u1: seq<real>, h1: seq<real>)
    requires Valid(sim) && Shaped(sv, sim.nPaths)
    requires IsShape(x1, sim.size, sim.nPaths) && |u1| == sim.nPaths && |h1| == sim.nPaths
    ensures KeepsPaths(NewOnlyExercise(sim, maxPolynomialDegree, splitRatio, c1).controls)
    ensures RollBackOnlyExercise(NewOnlyExercise(sim, maxPolynomialDegree, splitRatio, c1), sv, t0, t1, x1, u1, h1)
      == RollBackOnlyExercise(NewOnlyExercise(sim, maxPolynomialDegree, splitRatio, c2), sv, t0, t1, x1, u1, h1)
  {
    StateVariableControlsKeepPaths();
  }
}
