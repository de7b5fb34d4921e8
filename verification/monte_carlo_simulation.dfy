/**
 * Monte Carlo path simulation: the state of every path at every simulation
 * time, filled time step by time step from the model's initial values and
 * its evolution over Brownian increments.
 */
module MonteCarlo {
  import opened NumPy

  /**
   * The stochastic process interface the simulation relies on:
   * `size()`, `factors()`, `initial_values()` and
   * `evolve(t0, X0, dt, dW)` on arrays with one column per path.
   */
  datatype Process = Process(
    size: nat,
    factors: nat,
    initialValues: seq<real>,
    evolve: (real, Matrix, real, Matrix) -> Matrix)

  /**
   * What the simulation needs of a process: one initial value per state
   * dimension, and an evolve that maps a (size x nPaths) state and
   * (factors x nPaths) increments to a (size x nPaths) state.
   */
  ghost predicate WellFormed(process: Process, nPaths: nat) {
    |process.initialValues| == process.size
    && forall t, x, dt, w :: IsShape(x, process.size, nPaths) && IsShape(w, process.factors, nPaths) ==>
         IsShape(process.evolve(t, x, dt, w), process.size, nPaths)
  }

  /** `initial_values().reshape((-1, 1)) * ones((1, n_paths))`: every path starts at the initial values. */
  function Broadcast(v: seq<real>, nPaths: nat): (r: Matrix)
    ensures IsShape(r, |v|, nPaths)
    ensures forall s, p :: 0 <= s < |v| && 0 <= p < nPaths ==> r[s][p] == v[s]
  {
    seq(|v|, s requires 0 <= s < |v| => seq(nPaths, _ => v[s]))
  }

  /** The increments dW: one (factors x nPaths) slice per time step. */
  ghost predicate IncrementsShape(process: Process, times: seq<real>, nPaths: nat, dW: seq<Matrix>) {
    |times| >= 1 && |dW| == |times| - 1
    && forall i :: 0 <= i < |dW| ==> IsShape(dW[i], process.factors, nPaths)
  }

  /** The simulated states at times[i]: X[0] is the broadcast start, X[i+1] evolves X[i]. */
  function Simulated(process: Process, times: seq<real>, nPaths: nat, dW: seq<Matrix>, i: nat): (r: Matrix)
    requires WellFormed(process, nPaths) && IncrementsShape(process, times, nPaths, dW) && i < |times|
    ensures IsShape(r, process.size, nPaths)
  {
    if i == 0 then Broadcast(process.initialValues, nPaths)
    else process.evolve(times[i - 1], Simulated(process, times, nPaths, dW, i - 1),
                        times[i] - times[i - 1], dW[i - 1])
  }

  /** Slice i of a three-dimensional array, X[i]. */
  function Slice(x: array3<real>, i: nat): (r: Matrix)
    requires i < x.Length0
    reads x
    ensures IsShape(r, x.Length1, x.Length2)
    ensures forall s, p :: 0 <= s < x.Length1 && 0 <= p < x.Length2 ==> r[s][p] == x[i, s, p]
  {
    seq(x.Length1, s requires 0 <= s < x.Length1 reads x =>
      seq(x.Length2, p requires 0 <= p < x.Length2 reads x => x[i, s, p]))
  }

  class MonteCarloSimulation {
    const process: Process
    const times: seq<real>
    const nPaths: nat
    /** The Brownian increments; the random number generator that draws them is not modelled. */
    const dW: seq<Matrix>
    /** The simulated states, indexed (time, state dimension, path). */
    const X: array3<real>

    ghost predicate Valid()
      reads X
    {
      WellFormed(process, nPaths) && IncrementsShape(process, times, nPaths, dW)
      && X.Length0 == |times| && X.Length1 == process.size && X.Length2 == nPaths
      && forall i, s, p :: 0 <= i < |times| && 0 <= s < process.size && 0 <= p < nPaths ==>
           X[i, s, p] == Simulated(process, times, nPaths, dW, i)[s][p]
    }

    /**
     * `__init__`: allocates X of shape (len(times), size, n_paths) filled
     * with zeros, sets X[0] to the initial values on every path and then
     * X[i+1] = evolve(times[i], X[i], times[i+1] - times[i], dW[i]).
     */
    constructor(process: Process, times: seq<real>, nPaths: nat, dW: seq<Matrix>)
      requires WellFormed(process, nPaths) && IncrementsShape(process, times, nPaths, dW)
      ensures Valid() && fresh(X)
      ensures this.process == process && this.times == times && this.nPaths == nPaths && this.dW == dW
    {
      this.process := process;
      this.times := times;
      this.nPaths := nPaths;
      this.dW := dW;
      var n, size := |times|, process.size;
      var x := new real[n, size, nPaths]((_, _, _) => 0.0);
      var start := Broadcast(process.initialValues, nPaths);
      forall s, p | 0 <= s < size && 0 <= p < nPaths {
        x[0, s, p] := start[s][p];
      }
      for i := 0 to n - 1
        invariant forall j, s, p :: 0 <= j <= i && 0 <= s < size && 0 <= p < nPaths ==>
          x[j, s, p] == Simulated(process, times, nPaths, dW, j)[s][p]
        invariant forall j, s, p :: i < j < n && 0 <= s < size && 0 <= p < nPaths ==> x[j, s, p] == 0.0
      {
        SameMatrix(Slice(x, i), Simulated(process, times, nPaths, dW, i), size, nPaths);
        var next := process.evolve(times[i], Slice(x, i), times[i + 1] - times[i], dW[i]);
        assert next == Simulated(process, times, nPaths, dW, i + 1);
        forall s, p | 0 <= s < size && 0 <= p < nPaths {
          x[i + 1, s, p] := next[s][p];
        }
      }
      X := x;
    }

    /** X[i]: the states of all paths at times[i]. */
    function StatesAt(i: nat): (r: Matrix)
      requires Valid() && i < |times|
      reads X
      ensures r == Simulated(process, times, nPaths, dW, i)
    {
      SameMatrix(Slice(X, i), Simulated(process, times, nPaths, dW, i), process.size, nPaths);
      Slice(X, i)
    }
  }

  /** Every path starts at the initial values. */
  lemma StartsAtInitialValues(sim: MonteCarloSimulation, s: nat, p: nat)
    requires sim.Valid() && s < sim.process.size && p < sim.nPaths
    ensures sim.X[0, s, p] == sim.process.initialValues[s]
  {
  }

  /** Each slice after the first is the process evolved from the one before over its time step. */
  lemma StepsByEvolve(sim: MonteCarloSimulation, i: nat)
    requires sim.Valid() && i + 1 < |sim.times|
    ensures sim.StatesAt(i + 1)
      == sim.process.evolve(sim.times[i], sim.StatesAt(i), sim.times[i + 1] - sim.times[i], sim.dW[i])
  {
  }

  /** The paths are a function of the increments: equal inputs give equal states everywhere. */
  lemma DeterminedByIncrements(a: MonteCarloSimulation, b: MonteCarloSimulation)
    requires a.Valid() && b.Valid()
    requires a.process == b.process && a.times == b.times && a.nPaths == b.nPaths && a.dW == b.dW
    ensures forall i, s, p :: 0 <= i < |a.times| && 0 <= s < a.process.size && 0 <= p < a.nPaths ==>
      a.X[i, s, p] == b.X[i, s, p]
  {
  }
}
