/**
 * The volatility tables of the Hull-White short-rate model: the piecewise
 * constant short-rate volatility sigma(t), the auxiliary variance y(t)
 * pre-computed on the volatility breakpoints, and the conditional variance
 * built from it.  The exponential is an abstract function obeying the
 * exponential laws.
 */
module HullWhite {
  import opened NumPy

  /** exp(u + v) = exp(u) exp(v), wrapped so that it is instantiated on request. */
  predicate ExpSum(exp: real -> real, u: real, v: real) {
    exp(u + v) == exp(u) * exp(v)
  }

  ghost predicate ExpLaws(exp: real -> real) {
    exp(0.0) == 1.0 && forall u, v :: ExpSum(exp, u, v)
  }

  /** G'(t, T) = exp(-a (T - t)). */
  function GPrimeAt(exp: real -> real, a: real, t: real, T: real): real {
    exp(-a * (T - t))
  }

  /**
   * y carried from (t0, y0) to t under a constant volatility s:
   * G'(t0, t)^2 y0 + s^2 (1 - exp(-2a (t - t0))) / (2a).
   */
  function YStep(exp: real -> real, a: real, t0: real, y0: real, s: real, t: real): real
    requires a != 0.0
  {
    GPrimeAt(exp, a, t0, t) * GPrimeAt(exp, a, t0, t) * y0
      + s * s * (1.0 - exp(-2.0 * a * (t - t0))) / (2.0 * a)
  }

  /** The value the constructor stores for breakpoint i, chained from (0, 0). */
  function YBreakpoint(exp: real -> real, a: real, times: seq<real>, values: seq<real>, i: nat): real
    requires a != 0.0 && i < |times| <= |values|
  {
    if i == 0 then YStep(exp, a, 0.0, 0.0, values[0], times[0])
    else YStep(exp, a, times[i - 1], YBreakpoint(exp, a, times, values, i - 1), values[i], times[i])
  }

  /** The step the constructor takes at breakpoint i, from the previous breakpoint (or from (0, 0)). */
  lemma YBreakpointNext(exp: real -> real, a: real, times: seq<real>, values: seq<real>, i: nat, t0: real, y0: real)
    requires a != 0.0 && i < |times| <= |values|
    requires t0 == (if i == 0 then 0.0 else times[i - 1])
    requires y0 == (if i == 0 then 0.0 else YBreakpoint(exp, a, times, values, i - 1))
    ensures YStep(exp, a, t0, y0, values[i], times[i]) == YBreakpoint(exp, a, times, values, i)
  {
  }

  /**
   * The loop of `__init__`: y_[i] = G'(t0, times[i])^2 y0
   * + values[i]^2 (1 - exp(-2a (times[i] - t0))) / (2a), with (t0, y0)
   * carried from (0, 0) to each breakpoint in turn.
   */
  method TabulateY(exp: real -> real, a: real, times: seq<real>, values: seq<real>) returns (y: array<real>)
    requires a != 0.0 && |times| <= |values|
    ensures fresh(y) && y.Length == |times|
    ensures forall i :: 0 <= i < |times| ==> y[i] == YBreakpoint(exp, a, times, values, i)
  {
    var n := |times|;
    y := new real[n];
    var t0 := 0.0;
    var y0 := 0.0;
    for i := 0 to n
      invariant t0 == if i == 0 then 0.0 else times[i - 1]
      invariant y0 == if i == 0 then 0.0 else YBreakpoint(exp, a, times, values, i - 1)
      invariant forall j :: 0 <= j < i ==> y[j] == YBreakpoint(exp, a, times, values, j)
    {
      var yi := YStep(exp, a, t0, y0, values[i], times[i]);
      assert yi == YBreakpoint(exp, a, times, values, i) by {
        YBreakpointNext(exp, a, times, values, i, t0, y0);
      }
      ghost var before := y[..];
      y[i] := yi;
      assert y[..] == before[i := yi];
      t0 := times[i];
      y0 := yi;
    }
  }

  /** The variance of a constant-volatility model started at 0. */
  function FlatY(exp: real -> real, a: real, s: real, t: real): real
    requires a != 0.0
  {
    s * s * (1.0 - exp(-2.0 * a * t)) / (2.0 * a)
  }

  /** G'(t, t) = 1. */
  lemma GPrimeSame(exp: real -> real, a: real, t: real)
    requires ExpLaws(exp)
    ensures GPrimeAt(exp, a, t, t) == 1.0
  {
    assert -a * (t - t) == 0.0;
  }

  /** G'(t0, t1) G'(t1, t2) = G'(t0, t2). */
  lemma GPrimeChain(exp: real -> real, a: real, t0: real, t1: real, t2: real)
    requires ExpLaws(exp)
    ensures GPrimeAt(exp, a, t0, t1) * GPrimeAt(exp, a, t1, t2) == GPrimeAt(exp, a, t0, t2)
  {
    assert ExpSum(exp, -a * (t1 - t0), -a * (t2 - t1));
    assert -a * (t1 - t0) + -a * (t2 - t1) == -a * (t2 - t0);
  }

  /** G'(t, T)^2 = exp(-2a (T - t)). */
  lemma GPrimeSquare(exp: real -> real, a: real, t: real, T: real)
    requires ExpLaws(exp)
    ensures GPrimeAt(exp, a, t, T) * GPrimeAt(exp, a, t, T) == exp(-2.0 * a * (T - t))
  {
    assert ExpSum(exp, -a * (T - t), -a * (T - t));
    assert -a * (T - t) + -a * (T - t) == -2.0 * a * (T - t);
  }

  /** The algebra of one flat-volatility step: with g^2 = e1 and e = e1 e0 the two variances chain. */
  lemma FlatStepAlgebra(g: real, y0: real, s: real, a: real, e0: real, e1: real, e: real)
    requires a != 0.0 && g * g == e1 && e == e1 * e0 && y0 == s * s * (1.0 - e0) / (2.0 * a)
    ensures g * g * y0 + s * s * (1.0 - e1) / (2.0 * a) == s * s * (1.0 - e) / (2.0 * a)
  {
    var k := s * s / (2.0 * a);
    assert y0 == k * (1.0 - e0);
    assert s * s * (1.0 - e1) / (2.0 * a) == k * (1.0 - e1);
    assert s * s * (1.0 - e) / (2.0 * a) == k * (1.0 - e);
    assert e1 * (k * (1.0 - e0)) + k * (1.0 - e1) == k * (1.0 - e1 * e0);
  }

  /** Carrying the flat-volatility variance from t0 to t under the same volatility gives it at t. */
  lemma YStepFlat(exp: real -> real, a: real, s: real, t0: real, t: real)
    requires ExpLaws(exp) && a != 0.0
    ensures YStep(exp, a, t0, FlatY(exp, a, s, t0), s, t) == FlatY(exp, a, s, t)
  {
    var e1, e0, e := exp(-2.0 * a * (t - t0)), exp(-2.0 * a * t0), exp(-2.0 * a * t);
    var g := GPrimeAt(exp, a, t0, t);
    assert g * g == e1 by { GPrimeSquare(exp, a, t0, t); }
    assert e == e1 * e0 by {
      assert ExpSum(exp, -2.0 * a * (t - t0), -2.0 * a * t0);
      assert -2.0 * a * (t - t0) + -2.0 * a * t0 == -2.0 * a * t;
    }
    FlatStepAlgebra(g, FlatY(exp, a, s, t0), s, a, e0, e1, e);
  }

  /** FlatY(T) - G'(t, T)^2 FlatY(t) = s^2 (1 - exp(-2a (T - t))) / (2a). */
  lemma FlatVarianceFormula(exp: real -> real, a: real, s: real, t: real, T: real, yT: real, yt: real, g: real)
    requires ExpLaws(exp) && a != 0.0
    requires yT == FlatY(exp, a, s, T) && yt == FlatY(exp, a, s, t) && g == GPrimeAt(exp, a, t, T)
    ensures yT - g * g * yt == FlatY(exp, a, s, T - t)
  {
    GPrimeSquare(exp, a, t, T);
    var e1 := exp(-2.0 * a * (T - t));
    var et := exp(-2.0 * a * t);
    assert ExpSum(exp, -2.0 * a * (T - t), -2.0 * a * t);
    assert -2.0 * a * (T - t) + -2.0 * a * t == -2.0 * a * T;
    assert e1 * et == exp(-2.0 * a * T);
    var k := s * s / (2.0 * a);
    assert FlatY(exp, a, s, T) == k * (1.0 - e1 * et);
    assert FlatY(exp, a, s, t) == k * (1.0 - et);
  }

  /** With one volatility everywhere, every breakpoint value is the flat-volatility variance. */
  lemma {:induction false} FlatBreakpoints(exp: real -> real, a: real, times: seq<real>, values: seq<real>,
                                           s: real, i: nat)
    requires ExpLaws(exp) && a != 0.0 && i < |times| <= |values|
    requires forall j :: 0 <= j < |values| ==> values[j] == s
    ensures YBreakpoint(exp, a, times, values, i) == FlatY(exp, a, s, times[i])
  {
    if i == 0 {
      assert FlatY(exp, a, s, 0.0) == 0.0 by { assert -2.0 * a * 0.0 == 0.0; }
      YStepFlat(exp, a, s, 0.0, times[0]);
    } else {
      FlatBreakpoints(exp, a, times, values, s, i - 1);
      YStepFlat(exp, a, s, times[i - 1], times[i]);
    }
  }

  class HullWhiteModel {
    const exp: real -> real
    const meanReversion: real
    const volatilityTimes: seq<real>
    const volatilityValues: seq<real>
    /** y_: the auxiliary variance at each volatility breakpoint. */
    const yTable: array<real>

    /**
     * The breakpoint schedule `sigma` and `y` look up: a volatility for
     * every breakpoint (a further one applies after the last) and strictly
     * ascending breakpoints.
     */
    predicate Schedule() {
      |volatilityTimes| >= 1 && |volatilityTimes| <= |volatilityValues|
      && StrictlyIncreasing(volatilityTimes)
    }

    /**
     * What the model assumes of its parameters: a nonzero mean reversion
     * (G and y divide by it) and a schedule of non-negative breakpoints.
     */
    ghost predicate Parameters() {
      ExpLaws(exp) && meanReversion != 0.0 && Schedule() && volatilityTimes[0] >= 0.0
    }

    /** y_ holds, for every breakpoint, the value chained from (0, 0) up to it. */
    ghost predicate Tabulated()
      reads yTable
    {
      meanReversion != 0.0 && |volatilityTimes| <= |volatilityValues|
      && yTable.Length == |volatilityTimes|
      && forall i :: 0 <= i < yTable.Length ==>
           yTable[i] == YBreakpoint(exp, meanReversion, volatilityTimes, volatilityValues, i)
    }

    ghost predicate Valid()
      reads yTable
    {
      Parameters() && Tabulated()
    }

    /** `__init__`: fills y_ breakpoint by breakpoint, chaining (t0, y0) from (0, 0). */
    constructor(exp: real -> real, meanReversion: real, volatilityTimes: seq<real>, volatilityValues: seq<real>)
      requires ExpLaws(exp) && meanReversion != 0.0
      requires |volatilityTimes| <= |volatilityValues|
      ensures Tabulated() && fresh(yTable)
      ensures (|volatilityTimes| >= 1
               && StrictlyIncreasing(volatilityTimes) && volatilityTimes[0] >= 0.0) ==> Valid()
      ensures this.exp == exp && this.meanReversion == meanReversion
      ensures this.volatilityTimes == volatilityTimes && this.volatilityValues == volatilityValues
    {
      this.exp := exp;
      this.meanReversion := meanReversion;
      this.volatilityTimes := volatilityTimes;
      this.volatilityValues := volatilityValues;
      var y := TabulateY(exp, meanReversion, volatilityTimes, volatilityValues);
      yTable := y;
    }

    /**
     * `sigma(t)`: left-continuous and piecewise constant, values[i] on
     * (times[i-1], times[i]], values[0] before the first breakpoint and,
     * after the last, the value following it (the last value when there is
     * none).
     */
    function Sigma(t: real): (r: real)
      requires Schedule()
      ensures t <= volatilityTimes[0] ==> r == volatilityValues[0]
      ensures forall i :: 0 < i < |volatilityTimes| && volatilityTimes[i - 1] < t <= volatilityTimes[i] ==>
        r == volatilityValues[i]
      ensures t > volatilityTimes[|volatilityTimes| - 1] ==>
        r == volatilityValues[if |volatilityTimes| < |volatilityValues| then |volatilityTimes| else |volatilityValues| - 1]
    {
      var idx := SearchSorted(volatilityTimes, t);
      volatilityValues[if idx < |volatilityValues| - 1 then idx else |volatilityValues| - 1]
    }

    function GPrime(t: real, T: real): real {
      GPrimeAt(exp, meanReversion, t, T)
    }

    /**
     * `y(t)`: carried from the last breakpoint strictly before t (or from
     * (0, 0)) with the volatility of t's interval.
     */
    function Y(t: real): real
      requires Valid()
      reads yTable
    {
      var idx := SearchSorted(volatilityTimes, t);
      var t0 := if idx == 0 then 0.0 else volatilityTimes[idx - 1];
      var y0 := if idx == 0 then 0.0 else yTable[idx - 1];
      var s1 := volatilityValues[if idx < |volatilityValues| - 1 then idx else |volatilityValues| - 1];
      YStep(exp, meanReversion, t0, y0, s1, t)
    }

    /** `variance(t, T)` = y(T) - G'(t, T)^2 y(t). */
    function Variance(t: real, T: real): real
      requires Valid()
      reads yTable
    {
      Y(T) - GPrime(t, T) * GPrime(t, T) * Y(t)
    }

    /** `size()`: the state is [x, s]. */
    function Size(): nat {
      2
    }

    /** `initial_values()`: one zero per state dimension. */
    function InitialValues(): (r: seq<real>)
      ensures |r| == Size() && forall i :: 0 <= i < |r| ==> r[i] == 0.0
    {
      [0.0, 0.0]
    }
  }

  /** y at a breakpoint is the value the constructor stored for it. */
  lemma YAtBreakpoint(m: HullWhiteModel, i: nat)
    requires m.Valid() && i < |m.volatilityTimes|
    ensures m.Y(m.volatilityTimes[i]) == m.yTable[i]
  {
    SearchSortedAtEntry(m.volatilityTimes, i);
  }

  /** y(0) = 0: the variance accumulated over no time is zero. */
  lemma YAtZero(m: HullWhiteModel)
    requires m.Valid()
    ensures m.Y(0.0) == 0.0
  {
    assert SearchSorted(m.volatilityTimes, 0.0) == 0;
    assert -2.0 * m.meanReversion * (0.0 - 0.0) == 0.0;
  }

  /** variance(t, t) = 0, since G'(t, t) = 1. */
  lemma VarianceSameTime(m: HullWhiteModel, t: real)
    requires m.Valid()
    ensures m.Variance(t, t) == 0.0
  {
    GPrimeSame(m.exp, m.meanReversion, t);
  }

  /** variance(0, T) = y(T). */
  lemma VarianceFromZero(m: HullWhiteModel, T: real)
    requires m.Valid()
    ensures m.Variance(0.0, T) == m.Y(T)
  {
    YAtZero(m);
  }

  /** With one volatility s everywhere, sigma is s and y is the flat-volatility variance. */
  lemma FlatVolatility(m: HullWhiteModel, s: real, t: real)
    requires m.Valid()
    requires forall j :: 0 <= j < |m.volatilityValues| ==> m.volatilityValues[j] == s
    ensures m.Sigma(t) == s
    ensures m.Y(t) == FlatY(m.exp, m.meanReversion, s, t)
  {
    var exp, a := m.exp, m.meanReversion;
    var idx := SearchSorted(m.volatilityTimes, t);
    if idx == 0 {
      assert FlatY(exp, a, s, 0.0) == 0.0 by { assert -2.0 * a * 0.0 == 0.0; }
      YStepFlat(exp, a, s, 0.0, t);
    } else {
      FlatBreakpoints(exp, a, m.volatilityTimes, m.volatilityValues, s, idx - 1);
      YStepFlat(exp, a, s, m.volatilityTimes[idx - 1], t);
    }
  }

  /**
   * Two models with the same mean reversion and one common volatility
   * agree on sigma and y whatever their breakpoints, for instance a
   * three-breakpoint model and a one-breakpoint model.
   */
  lemma FlatModelsAgree(m1: HullWhiteModel, m2: HullWhiteModel, s: real, t: real)
    requires m1.Valid() && m2.Valid()
    requires m1.exp == m2.exp && m1.meanReversion == m2.meanReversion
    requires forall j :: 0 <= j < |m1.volatilityValues| ==> m1.volatilityValues[j] == s
    requires forall j :: 0 <= j < |m2.volatilityValues| ==> m2.volatilityValues[j] == s
    ensures m1.Sigma(t) == m2.Sigma(t)
    ensures m1.Y(t) == m2.Y(t)
  {
    FlatVolatility(m1, s, t);
    FlatVolatility(m2, s, t);
  }

  /**
   * With one volatility s everywhere, variance(t, T) = s^2 (1 - exp(-2a (T - t))) / (2a),
   * the variance a flat model accumulates over T - t.
   */
  lemma FlatVariance(m: HullWhiteModel, s: real, t: real, T: real)
    requires m.Valid()
    requires forall j :: 0 <= j < |m.volatilityValues| ==> m.volatilityValues[j] == s
    ensures m.Variance(t, T) == FlatY(m.exp, m.meanReversion, s, T - t)
  {
    var yT, yt, g := m.Y(T), m.Y(t), m.GPrime(t, T);
    assert m.Variance(t, T) == yT - g * g * yt;
    assert yT == FlatY(m.exp, m.meanReversion, s, T) by { FlatVolatility(m, s, T); }
    assert yt == FlatY(m.exp, m.meanReversion, s, t) by { FlatVolatility(m, s, t); }
    FlatVarianceFormula(m.exp, m.meanReversion, s, t, T, yT, yt, g);
  }
}
