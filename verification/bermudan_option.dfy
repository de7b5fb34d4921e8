/**
 * The npv of a Bermudan option by backward induction: starting from the
 * last expiry, each step rolls the option value H and the underlying value
 * U back to the previous expiry with a numerical method, and a final step
 * rolls back to today, where the value is interpolated at the state 0.
 */
module BermudanOption {
  import opened NumPy

  /** `underlying_payoffs[k].at(x)`: the underlying's value on each state column. */
  type Payoff = Matrix -> seq<real>

  /**
   * The numerical method: `states(T)` yields the modelled states at T (one
   * column per state, one row per state variable; a one-dimensional grid is
   * a single row), and `roll_back(T0, T1, x1, U1, H1)` makes one step of
   * the backward induction, returning the states and option values at T0.
   */
  datatype RollBackMethod = RollBackMethod(
    states: real -> Matrix,
    rollBack: (real, real, Matrix, seq<real>, seq<real>) -> (Matrix, seq<real>))

  /** The loop variables after the step for expiry k: states x, underlying U and option value H at T[k-1]. */
  datatype Induction = Induction(x: Matrix, u: seq<real>, h: seq<real>)

  /** Why no npv comes out: Python raises an exception in each case. */
  datatype NpvError =
    | EmptySchedule   // expiry_times[0] on an empty list
    | NoStates        // x[0] on a state array without rows
    | ShapeMismatch   // np.interp on an empty grid, or on grid and values of different lengths

  /**
   * The loop variables after the step for expiry k (counting down from
   * n = |T|): at the last expiry the states there and H = 0; before, the
   * roll-back from expiry k to expiry k-1; and U the payoff of expiry k on
   * those states.
   */
  function Backward(T: seq<real>, P: seq<Payoff>, m: RollBackMethod, k: nat): Induction
    requires 1 <= k <= |T| <= |P|
    decreases |T| - k
  {
    var step :=
      if k == |T| then
        var x := m.states(T[k - 1]);
        (x, Zeros(Cols(x)))
      else
        var prev := Backward(T, P, m, k + 1);
        m.rollBack(T[k - 1], T[k], prev.x, prev.u, prev.h);
    Induction(step.0, P[k - 1](step.0), step.1)
  }

  /** The last roll-back, from the first expiry to today (T0 = 0). */
  function Final(T: seq<real>, P: seq<Payoff>, m: RollBackMethod): (Matrix, seq<real>)
    requires 1 <= |T| <= |P|
  {
    var first := Backward(T, P, m, 1);
    m.rollBack(0.0, T[0], first.x, first.u, first.h)
  }

  /** `np.interp(0.0, x, H)` on the first state variable of today's states. */
  function Npv(T: seq<real>, P: seq<Payoff>, m: RollBackMethod): Result<real, NpvError>
    requires |T| <= |P|
  {
    if |T| == 0 then Failure(EmptySchedule)
    else
      var (x, h) := Final(T, P, m);
      if |x| == 0 then Failure(NoStates)
      else match Interp(0.0, x[0], h)
        case None => Failure(ShapeMismatch)
        case Some(v) => Success(v)
  }

  /**
   * The (T0, T1) arguments of the roll-backs in the order they are made:
   * (T[k-1], T[k]) for k = n-1 down to 1, then (0, T[0]).  Each roll-back
   * starts where the next one ends, the first ends at the last expiry and
   * the last starts today.
   */
  function RollBackCalls(T: seq<real>): (r: seq<(real, real)>)
    requires |T| >= 1
    ensures |r| == |T|
    ensures r[0].1 == T[|T| - 1] && r[|r| - 1] == (0.0, T[0])
    ensures forall j :: 0 <= j < |r| - 1 ==> r[j].0 == r[j + 1].1 && r[j].1 == T[|T| - 1 - j]
  {
    seq(|T| - 1, j requires 0 <= j < |T| - 1 => (T[|T| - 2 - j], T[|T| - 1 - j])) + [(0.0, T[0])]
  }

  /**
   * `bermudan_option_npv(expiry_times, underlying_payoffs, method)`: the
   * backward induction loop over k = n, ..., 1, then the roll-back to today.
   * `calls` records the (T0, T1) of every roll-back made.
   */
  method BermudanOptionNpv(expiryTimes: seq<real>, underlyingPayoffs: seq<Payoff>, numerics: RollBackMethod)
    returns (npv: Result<real, NpvError>, ghost calls: seq<(real, real)>)
    requires |expiryTimes| <= |underlyingPayoffs|
    ensures npv == Npv(expiryTimes, underlyingPayoffs, numerics)
    ensures |expiryTimes| == 0 <==> npv == Failure(EmptySchedule)
    ensures |expiryTimes| == 0 ==> calls == []
    ensures |expiryTimes| >= 1 ==> calls == RollBackCalls(expiryTimes)
  {
    var n := |expiryTimes|;
    calls := [];
    if n == 0 {
      return Failure(EmptySchedule), calls;
    }
    var x: Matrix, u: seq<real>, h: seq<real> := [], [], [];
    var k := n;
    while k > 0
      invariant 0 <= k <= n
      invariant k < n ==> Induction(x, u, h) == Backward(expiryTimes, underlyingPayoffs, numerics, k + 1)
      invariant calls == RollBackCalls(expiryTimes)[..if k == n then 0 else n - 1 - k]
    {
      if k == n {
        x := numerics.states(expiryTimes[k - 1]);
        h := Zeros(Cols(x));
      } else {
        var rolled := numerics.rollBack(expiryTimes[k - 1], expiryTimes[k], x, u, h);
        calls := calls + [(expiryTimes[k - 1], expiryTimes[k])];
        x, h := rolled.0, rolled.1;
      }
      u := underlyingPayoffs[k - 1](x);
      k := k - 1;
    }
    var today := numerics.rollBack(0.0, expiryTimes[0], x, u, h);
    calls := calls + [(0.0, expiryTimes[0])];
    assert calls == RollBackCalls(expiryTimes);
    var x0, h0 := today.0, today.1;
    if |x0| == 0 {
      return Failure(NoStates), calls;
    }
    var value := Interp(0.0, x0[0], h0);
    if value.None? {
      return Failure(ShapeMismatch), calls;
    }
    npv := Success(value.value);
  }

  /** With a single expiry the option is European: one roll-back from the expiry states with H = 0. */
  lemma EuropeanOption(T: seq<real>, P: seq<Payoff>, m: RollBackMethod)
    requires |T| == 1 <= |P|
    ensures var x := m.states(T[0]);
      Final(T, P, m) == m.rollBack(0.0, T[0], x, P[0](x), Zeros(Cols(x)))
  {
  }

  /** Only the first n = |T| payoffs enter the induction from expiry k on. */
  lemma {:induction false} BackwardUsesFirstPayoffs(T: seq<real>, P1: seq<Payoff>, P2: seq<Payoff>, m: RollBackMethod, k: nat)
    requires 1 <= k <= |T| && |T| <= |P1| && |T| <= |P2|
    requires P1[..|T|] == P2[..|T|]
    ensures Backward(T, P1, m, k) == Backward(T, P2, m, k)
    decreases |T| - k
  {
    assert P1[k - 1] == P1[..|T|][k - 1] == P2[..|T|][k - 1] == P2[k - 1];
    if k < |T| {
      BackwardUsesFirstPayoffs(T, P1, P2, m, k + 1);
    }
  }

  /** Payoffs listed beyond the last expiry do not change the npv. */
  lemma NpvUsesFirstPayoffs(T: seq<real>, P1: seq<Payoff>, P2: seq<Payoff>, m: RollBackMethod)
    requires |T| <= |P1| && |T| <= |P2| && P1[..|T|] == P2[..|T|]
    ensures Npv(T, P1, m) == Npv(T, P2, m)
  {
    if |T| > 0 {
      BackwardUsesFirstPayoffs(T, P1, P2, m, 1);
    }
  }

  /**
   * A method that rolls back to a single state today (the Monte Carlo
   * solver's average) makes that one value the npv.
   */
  lemma NpvOfSingleState(T: seq<real>, P: seq<Payoff>, m: RollBackMethod)
    requires 1 <= |T| <= |P|
    requires |Final(T, P, m).0| >= 1 && |Final(T, P, m).0[0]| == 1 && |Final(T, P, m).1| == 1
    ensures Npv(T, P, m) == Success(Final(T, P, m).1[0])
  {
    var (x, h) := Final(T, P, m);
    InterpSinglePoint(0.0, x[0], h);
  }

  /**
   * A method that rolls back to a strictly increasing grid through the
   * state 0 (the density integration grids, symmetric about 0) makes the
   * option value at that grid point the npv.
   */
  lemma NpvOnGridThroughZero(T: seq<real>, P: seq<Payoff>, m: RollBackMethod, j: nat)
    requires 1 <= |T| <= |P|
    requires var (x, h) := Final(T, P, m);
      |x| >= 1 && |x[0]| == |h| && StrictlyIncreasing(x[0]) && j < |h| && x[0][j] == 0.0
    ensures Npv(T, P, m) == Success(Final(T, P, m).1[j])
  {
    var (x, h) := Final(T, P, m);
    InterpAtKnot(x[0], h, j);
  }

  /** Without a state array or with mismatched values the npv is an error, never a number. */
  lemma NpvErrors(T: seq<real>, P: seq<Payoff>, m: RollBackMethod)
    requires 1 <= |T| <= |P|
    ensures |Final(T, P, m).0| == 0 ==> Npv(T, P, m) == Failure(NoStates)
    ensures |Final(T, P, m).0| >= 1 && |Final(T, P, m).0[0]| != |Final(T, P, m).1| ==>
      Npv(T, P, m) == Failure(ShapeMismatch)
  {
  }
}
