/**
 * Density-integration roll-back for the Hull-White model: the state grid
 * of a density method, its three quadratures (Simpson's rule, Gauss-Hermite
 * and exact integration of a cubic spline against the normal density) and
 * the break-even decorator that splits the grid at the exercise boundary.
 *
 * The model quantities (standard deviation, forward expectation and zero
 * bond), the normal density and distribution, Simpson's rule, the cubic
 * spline with its roots and coefficients, and the square roots of 2 and pi
 * are parameters: none of them is computed here.
 */
module DensityIntegrations {
  import opened NumPy

  /**
   * What the roll-backs ask of the Hull-White model: sqrt(variance(t, T)),
   * `T_forward_expectation(t, x, T)` and `zero_bond(t, x, T)`.
   */
  datatype Model = Model(
    stdDev: (real, real) -> real,
    forwardExpectation: (real, real, real) -> real,
    zeroBond: (real, real, real) -> real)

  /**
   * The numerical routines the roll-backs call: `norm.pdf`, `norm.cdf`,
   * `integrate.simps(f, x)`, `CubicSpline(x, y)(t)`,
   * `CubicSpline(x, y).roots(discontinuity=False, extrapolate=False)`,
   * `CubicSpline(x, y).c`, and the constants sqrt(2) and sqrt(pi).
   */
  datatype Numerics = Numerics(
    pdf: real -> real,
    cdf: real -> real,
    simps: (seq<real>, seq<real>) -> real,
    spline: (seq<real>, seq<real>, real) -> real,
    roots: (seq<real>, seq<real>) -> seq<real>,
    coefficients: (seq<real>, seq<real>) -> Matrix,
    sqrtTwo: real,
    sqrtPi: real)

  /** The quadrature a density method uses; Hermite carries `hermgauss(degree)`. */
  datatype Method = Simpson | Hermite(hermX: seq<real>, hermW: seq<real>) | CubicSplineExact

  /** `DensityIntegration(hwModel, nGridPoints, stdDevs)` together with its quadrature. */
  datatype Integration = Integration(model: Model, nGridPoints: nat, stdDevs: real, quadrature: Method)

  /** What `roll_back` returns: the grid x0 at T0 and the values V0 on it. */
  datatype Rolled = Rolled(x0: seq<real>, v0: seq<real>)

  // ---------------------------------------------------------------- states

  /** `np.linspace(-w, w, n)` */
  function SymmetricGrid(w: real, n: nat): (r: seq<real>)
    ensures |r| == n
  {
    Linspace(-w, w, n)
  }

  lemma SymmetricGridIncreasing(w: real, n: nat)
    requires w > 0.0
    ensures StrictlyIncreasing(SymmetricGrid(w, n))
  {
    LinspaceIncreasing(-w, w, n);
  }

  /** The half-width of the grid at T: stdDevs standard deviations of x(T). */
  function Width(d: Integration, t: real): real {
    d.stdDevs * d.model.stdDev(0.0, t)
  }

  /**
   * `states(T)`: the single state 0 when the variance from 0 to T vanishes,
   * otherwise nGridPoints points evenly spaced over stdDevs standard
   * deviations either side of 0.
   */
  function States(d: Integration, t: real): (r: seq<real>)
    ensures d.model.stdDev(0.0, t) == 0.0 ==> r == [0.0]
    ensures d.model.stdDev(0.0, t) != 0.0 ==> |r| == d.nGridPoints
  {
    if d.model.stdDev(0.0, t) == 0.0 then [0.0] else SymmetricGrid(Width(d, t), d.nGridPoints)
  }

  /** A grid of at least two points runs from -stdDevs sigma to +stdDevs sigma. */
  lemma StatesEnds(d: Integration, t: real)
    requires d.model.stdDev(0.0, t) != 0.0 && d.nGridPoints >= 2
    ensures States(d, t)[0] == -(d.stdDevs * d.model.stdDev(0.0, t))
    ensures States(d, t)[d.nGridPoints - 1] == d.stdDevs * d.model.stdDev(0.0, t)
  {
    LinspaceEnds(-Width(d, t), Width(d, t), d.nGridPoints);
  }

  /** A grid of at least two points is symmetric about 0. */
  lemma StatesSymmetric(d: Integration, t: real, i: nat)
    requires d.model.stdDev(0.0, t) != 0.0 && d.nGridPoints >= 2 && i < d.nGridPoints
    ensures States(d, t)[i] == -States(d, t)[d.nGridPoints - 1 - i]
  {
    LinspaceSymmetric(Width(d, t), d.nGridPoints, i);
  }

  /** With a positive standard deviation and a positive width the grid is strictly increasing. */
  lemma StatesIncreasing(d: Integration, t: real)
    requires d.model.stdDev(0.0, t) > 0.0 && d.stdDevs > 0.0
    ensures StrictlyIncreasing(States(d, t))
  {
    PositiveProduct(d.stdDevs, d.model.stdDev(0.0, t), 1.0);
    SymmetricGridIncreasing(Width(d, t), d.nGridPoints);
  }

  // ------------------------------------------------------ the quadratures

  /** The normal transition density with mean mu and deviation sigma at x. */
  function Density(pdf: real -> real, x: real, mu: real, sigma: real): real
    requires sigma != 0.0
  {
    pdf((x - mu) / sigma) / sigma
  }

  /** Simpson's integrand: the payoff times the transition density at every knot. */
  function SimpsonIntegrand(pdf: real -> real, v: seq<real>, x1: seq<real>, mu: real, sigma: real): (r: seq<real>)
    requires |v| == |x1| && sigma != 0.0
    ensures |r| == |x1|
    ensures forall k :: 0 <= k < |x1| ==> r[k] == v[k] * Density(pdf, x1[k], mu, sigma)
  {
    seq(|x1|, k requires 0 <= k < |x1| => v[k] * Density(pdf, x1[k], mu, sigma))
  }

  /** The Gauss-Hermite node sqrt(2) sigma x + mu. */
  function HermiteNode(sqrtTwo: real, sigma: real, x: real, mu: real): real {
    sqrtTwo * sigma * x + mu
  }

  /** The weighted spline values hermW[k] V(sqrt(2) sigma hermX[k] + mu). */
  function HermiteTerms(num: Numerics, hermX: seq<real>, hermW: seq<real>,
                        x1: seq<real>, v: seq<real>, mu: real, sigma: real): (r: seq<real>)
    requires |hermX| == |hermW|
    ensures |r| == |hermW|
    ensures forall k :: 0 <= k < |r| ==>
      r[k] == hermW[k] * num.spline(x1, v, HermiteNode(num.sqrtTwo, sigma, hermX[k], mu))
  {
    seq(|hermW|, k requires 0 <= k < |hermW| =>
      hermW[k] * num.spline(x1, v, HermiteNode(num.sqrtTwo, sigma, hermX[k], mu)))
  }

  /** The knots standardised by the transition density, (x1 - mu) / sigma. */
  function Standardised(x1: seq<real>, mu: real, sigma: real): (r: seq<real>)
    requires sigma != 0.0
    ensures |r| == |x1| && forall j :: 0 <= j < |x1| ==> r[j] == (x1[j] - mu) / sigma
  {
    seq(|x1|, j requires 0 <= j < |x1| => (x1[j] - mu) / sigma)
  }

  /** The antiderivative values Phi(x), the first of the four. */
  function Cdfs(cdf: real -> real, xb: seq<real>): (r: seq<real>)
    ensures |r| == |xb| && forall j :: 0 <= j < |xb| ==> r[j] == cdf(xb[j])
  {
    seq(|xb|, j requires 0 <= j < |xb| => cdf(xb[j]))
  }

  function Sq(x: real): real { x * x }

  function Cube(x: real): real { x * x * x }

  /**
   * The moment integrals I0..I3 of the normal density over each spline
   * interval [x1[k], x1[k+1]], in powers of (x - x1[k]).
   */
  datatype Moments = Moments(i0: seq<real>, i1: seq<real>, i2: seq<real>, i3: seq<real>)

  /** The values of one of F1, F2, F3 at the standardised knots. */
  function Antiderivative(num: Numerics, xb: seq<real>, which: nat): (r: seq<real>)
    ensures |r| == |xb|
  {
    seq(|xb|, j requires 0 <= j < |xb| =>
      if which == 1 then -1.0 * num.pdf(xb[j])
      else if which == 2 then num.cdf(xb[j]) - xb[j] * num.pdf(xb[j])
      else -1.0 * (Sq(xb[j]) + 2.0) * num.pdf(xb[j]))
  }

  /** I1 on one interval from I0 and dF1. */
  function FirstMoment(sigma: real, x: real, i0: real, d1: real): real {
    sigma * d1 - sigma * x * i0
  }

  /** I2 on one interval from I0, I1 and dF2. */
  function SecondMoment(sigma: real, x: real, i0: real, i1: real, d2: real): real {
    Sq(sigma) * d2 - 2.0 * sigma * x * i1 - Sq(sigma) * Sq(x) * i0
  }

  /** I3 on one interval from I0, I1, I2 and dF3. */
  function ThirdMoment(sigma: real, x: real, i0: real, i1: real, i2: real, d3: real): real {
    Cube(sigma) * d3 - 3.0 * sigma * x * i2 - 3.0 * Sq(sigma) * Sq(x) * i1 - Cube(sigma) * Cube(x) * i0
  }

  /** I1, I2 and I3 from I0, the differences dF1..dF3 and the interval starts xb. */
  function HigherMoments(sigma: real, xb: seq<real>, i0: seq<real>,
                         d1: seq<real>, d2: seq<real>, d3: seq<real>): (m: Moments)
    requires |xb| >= |i0| && |d1| == |i0| && |d2| == |i0| && |d3| == |i0|
    ensures m.i0 == i0 && |m.i1| == |m.i2| == |m.i3| == |i0|
  {
    var n := |i0|;
    var i1 := seq(n, k requires 0 <= k < n => FirstMoment(sigma, xb[k], i0[k], d1[k]));
    var i2 := seq(n, k requires 0 <= k < n => SecondMoment(sigma, xb[k], i0[k], i1[k], d2[k]));
    var i3 := seq(n, k requires 0 <= k < n => ThirdMoment(sigma, xb[k], i0[k], i1[k], i2[k], d3[k]));
    Moments(i0, i1, i2, i3)
  }

  /**
   * F0 = Phi, F1 = -Phi', F2 = Phi - x Phi', F3 = -(x^2 + 2) Phi' at the
   * standardised knots; I0 = dF0 and each higher moment from the lower ones.
   */
  function CubicMoments(num: Numerics, x1: seq<real>, mu: real, sigma: real): (m: Moments)
    requires sigma != 0.0
    ensures |m.i0| == |m.i1| == |m.i2| == |m.i3| == Intervals(x1)
    ensures m.i0 == Diff(Cdfs(num.cdf, Standardised(x1, mu, sigma)))
  {
    var xb := Standardised(x1, mu, sigma);
    HigherMoments(sigma, xb, Diff(Cdfs(num.cdf, xb)),
      Diff(Antiderivative(num, xb, 1)), Diff(Antiderivative(num, xb, 2)), Diff(Antiderivative(num, xb, 3)))
  }

  /** The spline's coefficient matrix has four rows and one column per interval. */
  ghost predicate CoefficientsShape(num: Numerics) {
    forall x, y :: IsShape(num.coefficients(x, y), 4, Intervals(x))
  }

  /** The contribution of interval k: c[3][k] I0 + c[2][k] I1 + c[1][k] I2 + c[0][k] I3. */
  function SplineTerm(c: Matrix, m: Moments, k: nat): real
    requires |c| == 4 && forall j :: 0 <= j < 4 ==> k < |c[j]|
    requires k < |m.i0| && k < |m.i1| && k < |m.i2| && k < |m.i3|
  {
    c[3][k] * m.i0[k] + c[2][k] * m.i1[k] + c[1][k] * m.i2[k] + c[0][k] * m.i3[k]
  }

  function SplineTerms(c: Matrix, m: Moments): (r: seq<real>)
    requires |m.i0| == |m.i1| == |m.i2| == |m.i3|
    requires IsShape(c, 4, |m.i0|)
    ensures |r| == |m.i0| && forall k :: 0 <= k < |r| ==> r[k] == SplineTerm(c, m, k)
  {
    seq(|m.i0|, k requires 0 <= k < |m.i0| => SplineTerm(c, m, k))
  }

  /** What a quadrature needs to be defined: a nonzero deviation where it divides by it. */
  ghost predicate Supported(quadrature: Method, num: Numerics, sigma: real) {
    match quadrature
    case Simpson => sigma != 0.0
    case Hermite(hermX, hermW) => |hermX| == |hermW| && num.sqrtPi != 0.0
    case CubicSplineExact => sigma != 0.0 && CoefficientsShape(num)
  }

  /** `integrate.simps` of the payoff against the transition density. */
  function SimpsonQuadrature(num: Numerics, sigma: real, x1: seq<real>, v: seq<real>, mu: real): real
    requires |v| == |x1| && sigma != 0.0
  {
    num.simps(SimpsonIntegrand(num.pdf, v, x1, mu, sigma), x1)
  }

  /** The Gauss-Hermite sum over the nodes, divided by sqrt(pi). */
  function HermiteQuadrature(num: Numerics, hermX: seq<real>, hermW: seq<real>,
                             sigma: real, x1: seq<real>, v: seq<real>, mu: real): real
    requires |hermX| == |hermW| && num.sqrtPi != 0.0
  {
    Sum(HermiteTerms(num, hermX, hermW, x1, v, mu, sigma)) / num.sqrtPi
  }

  /** The number of spline intervals on the knots x. */
  function Intervals(x: seq<real>): nat {
    if |x| == 0 then 0 else |x| - 1
  }

  /**
   * The exact integral of a piecewise cubic against the transition density:
   * the interval contributions of the coefficients c against the moments m.
   */
  function SplineQuadrature(c: Matrix, m: Moments): real
    requires |m.i0| == |m.i1| == |m.i2| == |m.i3| && IsShape(c, 4, |m.i0|)
  {
    Sum(SplineTerms(c, m))
  }

  /**
   * The conditional expectation at one grid point of the payoff v given on
   * the knots x1, for a transition with mean mu and deviation sigma, as the
   * method's quadrature computes it.
   */
  function Integral(quadrature: Method, num: Numerics, sigma: real, x1: seq<real>, v: seq<real>, mu: real): real
    requires |v| == |x1| && Supported(quadrature, num, sigma)
  {
    match quadrature
    case Simpson => SimpsonQuadrature(num, sigma, x1, v, mu)
    case Hermite(hermX, hermW) => HermiteQuadrature(num, hermX, hermW, sigma, x1, v, mu)
    case CubicSplineExact => SplineQuadrature(num.coefficients(x1, v), CubicMoments(num, x1, mu, sigma))
  }

  ghost predicate Admissible(d: Integration, num: Numerics, t0: real, t1: real,
                             x1: seq<real>, u1: seq<real>, h1: seq<real>) {
    |u1| == |x1| && |h1| == |x1| && Supported(d.quadrature, num, d.model.stdDev(t0, t1))
  }

  /** `zero_bond(T0, x, T1) * I`: an integral discounted to T0 at one grid point. */
  function Discounted(zeroBond: real, integral: real): real {
    zeroBond * integral
  }

  /** The value at grid point x of the integral of max(U1, H1), discounted by the zero bond. */
  function PointValue(d: Integration, num: Numerics, t0: real, t1: real,
                      x1: seq<real>, v: seq<real>, x: real): real
    requires |v| == |x1| && Supported(d.quadrature, num, d.model.stdDev(t0, t1))
  {
    Discounted(d.model.zeroBond(t0, x, t1),
      Integral(d.quadrature, num, d.model.stdDev(t0, t1), x1, v, d.model.forwardExpectation(t0, x, t1)))
  }

  /**
   * What every `roll_back` of a density method returns: the grid
   * `states(T0)` and, on it, the discounted expectation of max(U1, H1).
   */
  function RollBackSpec(d: Integration, num: Numerics, t0: real, t1: real,
                        x1: seq<real>, u1: seq<real>, h1: seq<real>): (r: Rolled)
    requires Admissible(d, num, t0, t1, x1, u1, h1)
    ensures r.x0 == States(d, t0) && |r.v0| == |r.x0|
    ensures forall i :: 0 <= i < |r.v0| ==> r.v0[i] == PointValue(d, num, t0, t1, x1, Maximum(u1, h1), r.x0[i])
  {
    var x0 := States(d, t0);
    var v := Maximum(u1, h1);
    Rolled(x0, seq(|x0|, i requires 0 <= i < |x0| => PointValue(d, num, t0, t1, x1, v, x0[i])))
  }

  /** The roll-back sees U1 and H1 only through max(U1, H1): exchanging them changes nothing. */
  lemma RollBackSymmetric(d: Integration, num: Numerics, t0: real, t1: real,
                          x1: seq<real>, u1: seq<real>, h1: seq<real>)
    requires Admissible(d, num, t0, t1, x1, u1, h1)
    ensures RollBackSpec(d, num, t0, t1, x1, u1, h1) == RollBackSpec(d, num, t0, t1, x1, h1, u1)
  {
    assert forall i :: 0 <= i < |u1| ==> Maximum(u1, h1)[i] == Maximum(h1, u1)[i];
    assert Maximum(u1, h1) == Maximum(h1, u1);
  }

  /** Where the exercise value never exceeds the continuation value, H1 plays no part. */
  lemma RollBackDominated(d: Integration, num: Numerics, t0: real, t1: real,
                          x1: seq<real>, u1: seq<real>, h1: seq<real>)
    requires Admissible(d, num, t0, t1, x1, u1, h1)
    requires forall k :: 0 <= k < |x1| ==> u1[k] <= h1[k]
    ensures RollBackSpec(d, num, t0, t1, x1, u1, h1) == RollBackSpec(d, num, t0, t1, x1, h1, h1)
  {
    assert forall i :: 0 <= i < |u1| ==> Maximum(u1, h1)[i] == Maximum(h1, h1)[i];
    assert Maximum(u1, h1) == Maximum(h1, h1);
  }

  /** The normal probability mass between the first and the last knot. */
  function Mass(num: Numerics, x1: seq<real>, mu: real, sigma: real): real
    requires sigma != 0.0 && |x1| >= 1
  {
    var xb := Standardised(x1, mu, sigma);
    num.cdf(xb[|xb| - 1]) - num.cdf(xb[0])
  }

  /**
   * I0 is the difference of consecutive Phi values, so the interval
   * probabilities add up to Phi at the last knot less Phi at the first.
   */
  lemma MomentsTelescope(num: Numerics, x1: seq<real>, mu: real, sigma: real)
    requires sigma != 0.0 && |x1| >= 1
    ensures Sum(CubicMoments(num, x1, mu, sigma).i0) == Mass(num, x1, mu, sigma)
  {
    var xb := Standardised(x1, mu, sigma);
    SumDiff(Cdfs(num.cdf, xb));
  }

  /**
   * Where the spline is the constant level on every interval only I0
   * contributes: the integral is level times the total probability of the
   * intervals.
   */
  lemma ConstantSplineQuadrature(c: Matrix, m: Moments, level: real)
    requires |m.i0| == |m.i1| == |m.i2| == |m.i3| && IsShape(c, 4, |m.i0|)
    requires forall k :: 0 <= k < |m.i0| ==>
      c[3][k] == level && c[2][k] == 0.0 && c[1][k] == 0.0 && c[0][k] == 0.0
    ensures SplineQuadrature(c, m) == level * Sum(m.i0)
  {
    var terms := SplineTerms(c, m);
    forall k | 0 <= k < |terms| ensures terms[k] == Scale(level, m.i0)[k] {
      assert SplineTerm(c, m, k) == level * m.i0[k] + 0.0 * m.i1[k] + 0.0 * m.i2[k] + 0.0 * m.i3[k];
    }
    assert terms == Scale(level, m.i0);
    SumScale(level, m.i0);
  }

  /** Where the spline is the constant level, every Gauss-Hermite term is level times its weight. */
  lemma ConstantHermiteTerms(num: Numerics, hermX: seq<real>, hermW: seq<real>,
                             x1: seq<real>, v: seq<real>, mu: real, sigma: real, level: real)
    requires |hermX| == |hermW|
    requires forall t :: num.spline(x1, v, t) == level
    ensures HermiteTerms(num, hermX, hermW, x1, v, mu, sigma) == Scale(level, hermW)
  {
    var terms := HermiteTerms(num, hermX, hermW, x1, v, mu, sigma);
    forall k | 0 <= k < |terms| ensures terms[k] == Scale(level, hermW)[k] {
      assert num.spline(x1, v, HermiteNode(num.sqrtTwo, sigma, hermX[k], mu)) == level;
    }
  }

  /**
   * A spline that is the constant level everywhere integrates under
   * Gauss-Hermite to level times the weights' sum over sqrt(pi).
   */
  lemma ConstantHermiteIntegral(num: Numerics, hermX: seq<real>, hermW: seq<real>,
                                x1: seq<real>, v: seq<real>, mu: real, sigma: real, level: real)
    requires |hermX| == |hermW| && num.sqrtPi != 0.0
    requires forall t :: num.spline(x1, v, t) == level
    ensures HermiteQuadrature(num, hermX, hermW, sigma, x1, v, mu) == level * (Sum(hermW) / num.sqrtPi)
  {
    ConstantHermiteTerms(num, hermX, hermW, x1, v, mu, sigma, level);
    SumScaleDiv(level, hermW, num.sqrtPi);
  }

  /** With weights adding up to sqrt(pi), Gauss-Hermite integrates a constant exactly. */
  lemma HermiteReproducesConstants(num: Numerics, hermX: seq<real>, hermW: seq<real>,
                                   x1: seq<real>, v: seq<real>, mu: real, sigma: real, level: real)
    requires |hermX| == |hermW| && num.sqrtPi != 0.0 && Sum(hermW) == num.sqrtPi
    requires forall t :: num.spline(x1, v, t) == level
    ensures HermiteQuadrature(num, hermX, hermW, sigma, x1, v, mu) == level
  {
    ConstantHermiteIntegral(num, hermX, hermW, x1, v, mu, sigma, level);
    assert Sum(hermW) / num.sqrtPi == 1.0;
  }

  // ------------------------------------------------------ the roll-backs

  /** The inner Gauss-Hermite loop: I accumulates the weighted spline values, then is divided by sqrt(pi). */
  method HermiteIntegral(num: Numerics, hermX: seq<real>, hermW: seq<real>,
                         x1: seq<real>, v: seq<real>, mu: real, sigma: real) returns (integral: real)
    requires |hermX| == |hermW| && num.sqrtPi != 0.0
    ensures integral == HermiteQuadrature(num, hermX, hermW, sigma, x1, v, mu)
  {
    ghost var terms := HermiteTerms(num, hermX, hermW, x1, v, mu, sigma);
    integral := 0.0;
    for k := 0 to |hermX|
      invariant integral == Sum(terms[..k])
    {
      assert terms[..k + 1][..k] == terms[..k];
      integral := integral + hermW[k] * num.spline(x1, v, HermiteNode(num.sqrtTwo, sigma, hermX[k], mu));
    }
    assert terms[..|hermX|] == terms;
    integral := integral / num.sqrtPi;
  }

  /** The summing-up loop of the exact cubic-spline integration. */
  method SplineIntegral(num: Numerics, x1: seq<real>, v: seq<real>, mu: real, sigma: real) returns (integral: real)
    requires sigma != 0.0 && IsShape(num.coefficients(x1, v), 4, Intervals(x1))
    ensures integral == SplineQuadrature(num.coefficients(x1, v), CubicMoments(num, x1, mu, sigma))
  {
    var m := CubicMoments(num, x1, mu, sigma);
    var c := num.coefficients(x1, v);
    ghost var terms := SplineTerms(c, m);
    var n := |m.i0|;
    integral := 0.0;
    for k := 0 to n
      invariant integral == Sum(terms[..k])
    {
      assert terms[..k + 1][..k] == terms[..k];
      integral := integral + SplineTerm(c, m, k);
    }
    assert terms[..n] == terms;
  }

  /**
   * The body of each `roll_back` loop: the method's integral I for the grid
   * point x, discounted by the zero bond from T1 to T0.
   */
  method PointRollBack(d: Integration, num: Numerics, t0: real, t1: real,
                       x1: seq<real>, v: seq<real>, x: real) returns (value: real)
    requires |v| == |x1| && Supported(d.quadrature, num, d.model.stdDev(t0, t1))
    ensures value == PointValue(d, num, t0, t1, x1, v, x)
  {
    var sigma := d.model.stdDev(t0, t1);
    var mu := d.model.forwardExpectation(t0, x, t1);
    var integral;
    match d.quadrature {
      case Simpson =>
        integral := num.simps(SimpsonIntegrand(num.pdf, v, x1, mu, sigma), x1);
      case Hermite(hermX, hermW) =>
        integral := HermiteIntegral(num, hermX, hermW, x1, v, mu, sigma);
      case CubicSplineExact =>
        integral := SplineIntegral(num, x1, v, mu, sigma);
    }
    value := Discounted(d.model.zeroBond(t0, x, t1), integral);
  }

  /** Values that agree with PointValue at every point of states(T0) are the roll-back's values. */
  lemma RollBackSpecFrom(d: Integration, num: Numerics, t0: real, t1: real,
                         x1: seq<real>, u1: seq<real>, h1: seq<real>, v0: seq<real>)
    requires Admissible(d, num, t0, t1, x1, u1, h1) && |v0| == |States(d, t0)|
    requires forall j :: 0 <= j < |v0| ==> v0[j] == PointValue(d, num, t0, t1, x1, Maximum(u1, h1), States(d, t0)[j])
    ensures Rolled(States(d, t0), v0) == RollBackSpec(d, num, t0, t1, x1, u1, h1)
  {
  }

  /**
   * The `roll_back` of the three density methods: for every point of
   * `states(T0)` the zero bond times the method's integral of max(U1, H1).
   */
  method RollBack(d: Integration, num: Numerics, t0: real, t1: real,
                  x1: seq<real>, u1: seq<real>, h1: seq<real>) returns (x0: seq<real>, v0: seq<real>)
    requires Admissible(d, num, t0, t1, x1, u1, h1)
    ensures Rolled(x0, v0) == RollBackSpec(d, num, t0, t1, x1, u1, h1)
  {
    x0 := States(d, t0);
    var values := new real[|x0|](_ => 0.0);
    var v := Maximum(u1, h1);
    for i := 0 to |x0|
      invariant forall j :: 0 <= j < i ==> values[j] == PointValue(d, num, t0, t1, x1, v, x0[j])
    {
      values[i] := PointRollBack(d, num, t0, t1, x1, v, x0[i]);
    }
    v0 := values[..];
    RollBackSpecFrom(d, num, t0, t1, x1, u1, h1, v0);
  }

  // ---------------------------------------------------- break-even split

  /** Whether v lies strictly above c (upper) or strictly below it. */
  predicate OnSide(v: real, c: real, upper: bool) {
    if upper then v > c else v < c
  }

  /** `np.where(x < c)` or `np.where(x > c)` on x[i:]: the indices, in increasing order. */
  function Where(x: seq<real>, c: real, upper: bool, i: nat): (r: seq<nat>)
    requires i <= |x|
    ensures forall k :: 0 <= k < |r| ==> i <= r[k] < |x| && OnSide(x[r[k]], c, upper)
    ensures forall k, l :: 0 <= k < l < |r| ==> r[k] < r[l]
    ensures forall j :: i <= j < |x| && OnSide(x[j], c, upper) ==> j in r
    decreases |x| - i
  {
    if i == |x| then []
    else if OnSide(x[i], c, upper) then [i] + Where(x, c, upper, i + 1)
    else Where(x, c, upper, i + 1)
  }

  /** The number of entries of x[i:] equal to c. */
  function Ties(x: seq<real>, c: real, i: nat): (r: nat)
    requires i <= |x|
    ensures r <= |x| - i
    decreases |x| - i
  {
    if i == |x| then 0 else (if x[i] == c then 1 else 0) + Ties(x, c, i + 1)
  }

  /** Every index of x[i:] is below c, above c or equal to it, and only one of these. */
  lemma {:induction false} WhereCount(x: seq<real>, c: real, i: nat)
    requires i <= |x|
    ensures |Where(x, c, false, i)| + |Where(x, c, true, i)| + Ties(x, c, i) == |x| - i
    decreases |x| - i
  {
    if i < |x| {
      WhereCount(x, c, i + 1);
      if x[i] < c {
        assert |Where(x, c, false, i)| == 1 + |Where(x, c, false, i + 1)|;
        assert Where(x, c, true, i) == Where(x, c, true, i + 1);
      } else if x[i] > c {
        assert Where(x, c, false, i) == Where(x, c, false, i + 1);
        assert |Where(x, c, true, i)| == 1 + |Where(x, c, true, i + 1)|;
      } else {
        assert Where(x, c, false, i) == Where(x, c, false, i + 1);
        assert Where(x, c, true, i) == Where(x, c, true, i + 1);
      }
    }
  }

  /** Without an entry equal to c there are no ties. */
  lemma {:induction false} TiesNone(x: seq<real>, c: real, i: nat)
    requires i <= |x| && forall j :: i <= j < |x| ==> x[j] != c
    ensures Ties(x, c, i) == 0
    decreases |x| - i
  {
    if i < |x| {
      TiesNone(x, c, i + 1);
    }
  }

  /** A strictly increasing sequence meets c at most once: at j, if x[j] == c. */
  lemma {:induction false} TiesOnce(x: seq<real>, c: real, i: nat, j: nat)
    requires StrictlyIncreasing(x) && i <= j < |x| && x[j] == c
    ensures Ties(x, c, i) == 1
    decreases |x| - i
  {
    if i < j {
      TiesOnce(x, c, i + 1, j);
    } else {
      TiesNone(x, c, i + 1);
    }
  }

  /** `v[idx]`: the entries at the given indices. */
  function Pick(v: seq<real>, idx: seq<nat>): (r: seq<real>)
    requires forall k :: 0 <= k < |idx| ==> idx[k] < |v|
    ensures |r| == |idx| && forall k :: 0 <= k < |idx| ==> r[k] == v[idx[k]]
  {
    seq(|idx|, k requires 0 <= k < |idx| => v[idx[k]])
  }

  /** One side of the split: grid, continuation values and exercise values. */
  datatype Half = Half(x: seq<real>, u: seq<real>, h: seq<real>)

  /**
   * The lower integrand: the points strictly below xStar with their U and
   * H, then xStar itself with VStar for both.
   */
  function LowerHalf(x1: seq<real>, u1: seq<real>, h1: seq<real>, xStar: real, vStar: real): (r: Half)
    requires |u1| == |x1| && |h1| == |x1|
    ensures |r.x| == |r.u| == |r.h| >= 1
    ensures r.x[|r.x| - 1] == xStar && r.u[|r.u| - 1] == vStar && r.h[|r.h| - 1] == vStar
    ensures forall k :: 0 <= k < |r.x| - 1 ==>
      r.x[k] < xStar && exists j :: 0 <= j < |x1| && r.x[k] == x1[j] && r.u[k] == u1[j] && r.h[k] == h1[j]
  {
    var idx := Where(x1, xStar, false, 0);
    Half(Pick(x1, idx) + [xStar], Pick(u1, idx) + [vStar], Pick(h1, idx) + [vStar])
  }

  /**
   * The upper integrand: xStar with VStar for U and H, then the points
   * strictly above xStar with their U and H.
   */
  function UpperHalf(x1: seq<real>, u1: seq<real>, h1: seq<real>, xStar: real, vStar: real): (r: Half)
    requires |u1| == |x1| && |h1| == |x1|
    ensures |r.x| == |r.u| == |r.h| >= 1
    ensures r.x[0] == xStar && r.u[0] == vStar && r.h[0] == vStar
    ensures forall k :: 1 <= k < |r.x| ==>
      r.x[k] > xStar && exists j :: 0 <= j < |x1| && r.x[k] == x1[j] && r.u[k] == u1[j] && r.h[k] == h1[j]
  {
    var idx := Where(x1, xStar, true, 0);
    Half([xStar] + Pick(x1, idx), [vStar] + Pick(u1, idx), [vStar] + Pick(h1, idx))
  }

  /** Every grid point other than xStar lands in the half on its side. */
  lemma HalvesCover(x1: seq<real>, u1: seq<real>, h1: seq<real>, xStar: real, vStar: real, j: nat)
    requires |u1| == |x1| && |h1| == |x1| && j < |x1|
    ensures x1[j] < xStar ==> x1[j] in LowerHalf(x1, u1, h1, xStar, vStar).x
    ensures x1[j] > xStar ==> x1[j] in UpperHalf(x1, u1, h1, xStar, vStar).x
  {
    if x1[j] < xStar {
      var idx := Where(x1, xStar, false, 0);
      var k :| 0 <= k < |idx| && idx[k] == j;
      assert LowerHalf(x1, u1, h1, xStar, vStar).x[k] == x1[j];
    }
    if x1[j] > xStar {
      var idx := Where(x1, xStar, true, 0);
      var k :| 0 <= k < |idx| && idx[k] == j;
      assert UpperHalf(x1, u1, h1, xStar, vStar).x[k + 1] == x1[j];
    }
  }

  /**
   * When xStar is not a grid point the two halves hold the grid plus xStar
   * twice; on a strictly increasing grid through xStar that grid point is
   * dropped and survives only as the inserted point of each half.
   */
  lemma HalvesCount(x1: seq<real>, u1: seq<real>, h1: seq<real>, xStar: real, vStar: real)
    requires |u1| == |x1| && |h1| == |x1|
    ensures xStar !in x1 ==>
      |LowerHalf(x1, u1, h1, xStar, vStar).x| + |UpperHalf(x1, u1, h1, xStar, vStar).x| == |x1| + 2
    ensures StrictlyIncreasing(x1) && xStar in x1 ==>
      |LowerHalf(x1, u1, h1, xStar, vStar).x| + |UpperHalf(x1, u1, h1, xStar, vStar).x| == |x1| + 1
  {
    WhereCount(x1, xStar, 0);
    if xStar in x1 {
      var j :| 0 <= j < |x1| && x1[j] == xStar;
      if StrictlyIncreasing(x1) {
        TiesOnce(x1, xStar, 0, j);
      }
    } else {
      TiesNone(x1, xStar, 0);
    }
  }

  /** Entries of a strictly increasing sequence picked at increasing indices increase strictly. */
  lemma PickIncreasing(v: seq<real>, idx: seq<nat>)
    requires StrictlyIncreasing(v)
    requires forall k :: 0 <= k < |idx| ==> idx[k] < |v|
    requires forall k, l :: 0 <= k < l < |idx| ==> idx[k] < idx[l]
    ensures StrictlyIncreasing(Pick(v, idx))
  {
  }

  /** On a strictly increasing grid both halves are strictly increasing. */
  lemma HalvesIncreasing(x1: seq<real>, u1: seq<real>, h1: seq<real>, xStar: real, vStar: real)
    requires |u1| == |x1| && |h1| == |x1| && StrictlyIncreasing(x1)
    ensures StrictlyIncreasing(LowerHalf(x1, u1, h1, xStar, vStar).x)
    ensures StrictlyIncreasing(UpperHalf(x1, u1, h1, xStar, vStar).x)
  {
    var lo := Where(x1, xStar, false, 0);
    var up := Where(x1, xStar, true, 0);
    PickIncreasing(x1, lo);
    PickIncreasing(x1, up);
  }

  /**
   * `DensityIntegrationWithBreakEven.roll_back`: without a root of the
   * spline through U1 - H1 the wrapped method's result; otherwise the
   * first root xStar splits the grid, VStar is the spline through U1 at
   * xStar, the wrapped method rolls back each half and the values add up.
   */
  function BreakEvenRollBack(d: Integration, num: Numerics, t0: real, t1: real,
                             x1: seq<real>, u1: seq<real>, h1: seq<real>): (r: Rolled)
    requires Admissible(d, num, t0, t1, x1, u1, h1)
    ensures r.x0 == States(d, t0) && |r.v0| == |r.x0|
  {
    var roots := num.roots(x1, Subtract(u1, h1));
    if |roots| == 0 then RollBackSpec(d, num, t0, t1, x1, u1, h1)
    else
      var xStar := roots[0];
      var vStar := num.spline(x1, u1, xStar);
      var lower := LowerHalf(x1, u1, h1, xStar, vStar);
      var upper := UpperHalf(x1, u1, h1, xStar, vStar);
      var lowerRolled := RollBackSpec(d, num, t0, t1, lower.x, lower.u, lower.h);
      var upperRolled := RollBackSpec(d, num, t0, t1, upper.x, upper.u, upper.h);
      Rolled(upperRolled.x0, Add(lowerRolled.v0, upperRolled.v0))
  }

  /** Without a break-even point the decorator returns the wrapped method's result unchanged. */
  lemma BreakEvenWithoutRoot(d: Integration, num: Numerics, t0: real, t1: real,
                             x1: seq<real>, u1: seq<real>, h1: seq<real>)
    requires Admissible(d, num, t0, t1, x1, u1, h1)
    requires |num.roots(x1, Subtract(u1, h1))| == 0
    ensures BreakEvenRollBack(d, num, t0, t1, x1, u1, h1) == RollBackSpec(d, num, t0, t1, x1, u1, h1)
  {
  }

  /** With a break-even point the value is the sum of the lower and the upper roll-back. */
  lemma BreakEvenSplits(d: Integration, num: Numerics, t0: real, t1: real,
                        x1: seq<real>, u1: seq<real>, h1: seq<real>)
    requires Admissible(d, num, t0, t1, x1, u1, h1)
    requires |num.roots(x1, Subtract(u1, h1))| > 0
    ensures var xStar := num.roots(x1, Subtract(u1, h1))[0];
      var vStar := num.spline(x1, u1, xStar);
      var lower := LowerHalf(x1, u1, h1, xStar, vStar);
      var upper := UpperHalf(x1, u1, h1, xStar, vStar);
      forall i :: 0 <= i < |States(d, t0)| ==>
        BreakEvenRollBack(d, num, t0, t1, x1, u1, h1).v0[i]
          == RollBackSpec(d, num, t0, t1, lower.x, lower.u, lower.h).v0[i]
           + RollBackSpec(d, num, t0, t1, upper.x, upper.u, upper.h).v0[i]
  {
  }
}
