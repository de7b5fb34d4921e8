# Interest rate modelling examples: the exact-arithmetic core in Dafny

This project models the control flow and exact arithmetic underneath a small
Python library for pricing Bermudan options under the Hull-White short-rate
model. It covers:

- the backward-induction driver `bermudan_option_npv`;
- the numerical methods it drives:
  - American Monte Carlo (AMC) regression;
  - density integration on a state grid, by Simpson's rule, Gauss-Hermite or
    exact cubic-spline integration, with a break-even decorator;
- the theta-scheme step of the PDE method with its tridiagonal (Thomas)
  solver;
- the polynomial regression basis;
- the Hull-White volatility tables;
- the Monte Carlo path fill;
- the coupon-bond payoff.

All floating-point quantities are `real`. The transcendental and library
functions are parameters:

- `exp` is an uninterpreted function with `exp(0) = 1` and
  `exp(a + b) = exp(a) exp(b)`;
- the normal density and distribution, Simpson's rule, the cubic spline, its
  roots and coefficients, the least-squares regression, the model's numeraire
  and zero bond, and the random increments.

| file | module | models |
|---|---|---|
| numpy.dfy | `NumPy` | the numpy primitives the core uses: `searchsorted`, `maximum`, `linspace`, `interp`, `mean`, Python slices, sums |
| theta_method.dfy | `ThetaMethod` | `solve_tridiagonalsystem` (in place on arrays) and `theta_step` |
| regression.dfy | `Regression` | `multi_index_set`, the regression basis, `Regression.monomials` (in place on arrays) |
| hull_white_model.dfy | `HullWhite` | the `y_` table filled by the constructor, `sigma`, `y`, `G_prime`, `variance`, `size`, `initial_values` |
| monte_carlo_simulation.dfy | `MonteCarlo` | the constructor filling the 3-D path array `X` |
| payoffs.dfy | `Payoffs` | `CouponBond.at` |
| density_integrations.dfy | `DensityIntegrations` | `states`, the three density `roll_back`s and the break-even decorator |
| amc_solver.dfy | `AmcSolver` | `StateVariableControls`, `nearest_index`, `states`, `minSampleIdx` and both AMC `roll_back`s |
| bermudan_option.dfy | `BermudanOption` | `bermudan_option_npv` |

## Model

| member | source | states |
|---|---|---|
| NumPy.SearchSorted | src/hull_white_model.py:35 | `np.searchsorted` on a sorted sequence: every entry before the result is below t, every entry from it on is at least t |
| NumPy.SearchSortedAtEntry | src/methods/amc_solver.py:59 | on strictly increasing times, searching for times[i] finds i |
| NumPy.Maximum | src/methods/density_integrations.py:74 | `np.maximum(U1, H1)`: entry by entry the larger of the two |
| NumPy.SliceFrom | src/methods/amc_solver.py:86 | Python `s[k:]`, including negative k and k past the end |
| NumPy.SliceTo | src/methods/amc_solver.py:77-79 | Python `s[:k]`: the first min(k, len) entries |
| NumPy.ColumnsTo | src/methods/amc_solver.py:77 | `x0[:, :k]`: every row cut to its first k entries, and as many rows as before |
| NumPy.Zeros | src/bermudan_option.py:41 | `np.zeros(n)`: n entries, all zero |
| NumPy.Add | src/methods/density_integrations.py:61 | the element-wise sum has the common length, and each entry is the sum of the two entries |
| NumPy.Subtract | src/methods/amc_solver.py:106 | the element-wise difference has the common length, and each entry is the difference of the two entries |
| NumPy.Diff | src/methods/density_integrations.py:126-129 | `s[1:] - s[:-1]`: one entry fewer (none for an empty list), entry k being s[k+1] - s[k] |
| NumPy.SumDiff | src/methods/density_integrations.py:126-130 | the consecutive differences `s[1:] - s[:-1]` add up to the last entry less the first |
| NumPy.SumConcat | src/methods/payoffs.py:18-21 | a sum over two concatenated lists is the sum of the two sums |
| NumPy.Sum | src/methods/payoffs.py:18-21 | Python `sum` over a list of reals; its properties are SumConcat, SumScale, SumAtLeast and SumAtMost |
| NumPy.SumAtLeast | src/methods/payoffs.py:18-21 | a sum of terms that are all at least lo is at least lo times their number |
| NumPy.SumAtMost | src/methods/payoffs.py:18-21 | a sum of terms that are all at most hi is at most hi times their number |
| NumPy.Mean | src/methods/amc_solver.py:85-86 | `np.mean`: the sum over the number of entries; MeanBounds bounds it |
| NumPy.MeanBounds | src/methods/amc_solver.py:85-86 | the mean of a non-empty list whose entries lie in [lo, hi] lies in [lo, hi] |
| NumPy.SumScale | src/methods/payoffs.py:18-21 | scaling every term scales the sum |
| NumPy.Linspace | src/methods/density_integrations.py:23 | `np.linspace(lo, hi, n)` has n points; LinspaceEnds, LinspaceStep, LinspaceSymmetric and LinspaceIncreasing give their values |
| NumPy.LinspaceEnds | src/methods/density_integrations.py:23 | `np.linspace(lo, hi, n)` starts at lo and ends at hi |
| NumPy.LinspaceStep | src/methods/density_integrations.py:23 | consecutive `linspace` points are (hi - lo)/(n - 1) apart |
| NumPy.LinspaceSymmetric | src/methods/density_integrations.py:23 | `linspace(-w, w, n)` is symmetric: x[i] = -x[n-1-i] |
| NumPy.LinspaceIncreasing | src/methods/density_integrations.py:23 | `linspace(lo, hi, n)` with lo < hi is strictly increasing |
| NumPy.Interp | src/bermudan_option.py:48 | `np.interp(x, xp, fp)` fails exactly when xp is empty or xp and fp differ in length; InterpSinglePoint, InterpAtKnot and InterpBounds state its values |
| NumPy.InterpBounds | src/bermudan_option.py:48 | the interpolated value lies between any bounds of the knot values fp |
| NumPy.InterpSinglePoint | src/bermudan_option.py:48 | `np.interp` on a single knot returns its value wherever it is evaluated |
| NumPy.InterpAtKnot | src/bermudan_option.py:48 | `np.interp` at a knot of a strictly increasing grid returns that knot's value |
| ThetaMethod.IdentityPlusTimes | src/methods/theta_method.py:33-35 | (I + s M) v = v + s (M v), row by row |
| ThetaMethod.Times | src/methods/theta_method.py:33-35 | the tridiagonal product M v: one entry per row, each the row's product with v |
| ThetaMethod.IdentityPlus | src/methods/theta_method.py:33-38 | I + s M is again tridiagonal, of the same size |
| ThetaMethod.Factor | src/methods/theta_method.py:13-15 | a successful elimination of k rows yields k - 1 multipliers and k pivots, all nonzero |
| ThetaMethod.FactorPrefix | src/methods/theta_method.py:13-15 | a successful elimination of n rows contains the elimination of every leading block |
| ThetaMethod.FactorEntry | src/methods/theta_method.py:13-15 | after the elimination, a[i-1] = a[i-1]/b[i-1] and b[i] = b[i] - c[i-1] a[i-1] in terms of the original diagonals |
| ThetaMethod.FactorRow | src/methods/theta_method.py:13-15 | the multipliers and pivots multiply back to the matrix's coefficients, row by row (A = L U) |
| ThetaMethod.LuProduct | src/methods/theta_method.py:13-24 | if u = U v then (L u)[i] = (A v)[i] |
| ThetaMethod.Eliminate | src/methods/theta_method.py:12-15 | the in-place loop leaves the multipliers in a and the pivots in b, exactly the factors of the elimination |
| ThetaMethod.ForwardSubstitution | src/methods/theta_method.py:16-20 | z[0] = y[0], z[i] = y[i] - a[i-1] z[i-1] solves L z = y |
| ThetaMethod.UpperRowUpdate | src/methods/theta_method.py:23-24 | writing y[i-1] leaves the already solved rows i, ..., n-1 of U y = z solved |
| ThetaMethod.UpperRowSolved | src/methods/theta_method.py:24 | y[i-1] = (z[i-1] - c[i-1] y[i]) / b[i-1] solves row i-1 of U y = z |
| ThetaMethod.BackwardSubstitution | src/methods/theta_method.py:21-24 | y[-1] = z[-1]/b[-1] followed by the backward loop overwrites y with the solution of U y = z |
| ThetaMethod.SolveTridiagonalSystem | src/methods/theta_method.py:7-25 | with nonzero pivots, the overwritten y solves A y = y_old, and a size-1 system gives y[0] / b[0] |
| ThetaMethod.ThetaStep | src/methods/theta_method.py:28-40 | theta = 0 gives the explicit (I - h M) r without a solve; otherwise the result v solves (I + h theta M) v = (I - h (1 - theta) M) r; the length is that of the diagonal |
| Regression.MultiIndexSet | src/methods/regression.py:5-8 | every entry of `multi_index_set(n, k)` has length n and total degree below k; n = 0 with k >= 1 is excluded, since the recursion does not terminate there |
| Regression.EmptyBudget | src/methods/regression.py:7-8 | k = 0 gives the empty list |
| Regression.MultiIndexSetComplete | src/methods/regression.py:7-8 | every length-n index of total degree below k is listed |
| Regression.Blocks | src/methods/regression.py:8 | the list comprehension's blocks for leading entries i, ..., k-1: indices of length n, total degree below k, leading entry at least i |
| Regression.BlocksComplete | src/methods/regression.py:8 | every such index appears among the blocks |
| Regression.BlocksSorted | src/methods/regression.py:8 | the blocks are strictly increasing in lexicographic order |
| Regression.MultiIndexSetMembership | src/methods/regression.py:5-8 | an index is listed if and only if it has length n and total degree below k |
| Regression.MultiIndexSetSorted | src/methods/regression.py:7-8 | the list is strictly increasing in lexicographic order |
| Regression.MultiIndexSetDistinct | src/methods/regression.py:7-8 | no index is listed twice |
| Regression.BasisMembership | src/methods/regression.py:13-15 | the basis `multi_index_set(n_controls, degree + 1)` holds exactly the monomials of total degree at most the degree |
| Regression.MonomialOfZeroIndex | src/methods/regression.py:20-28 | the all-zero index gives the constant monomial 1 |
| Regression.MonomialOfUnitIndex | src/methods/regression.py:20-28 | a unit index gives the control itself |
| Regression.MonomialsOfVector | src/methods/regression.py:20-28 | for one control vector, x[i] is the product of control[j]^idx[i][j] |
| Regression.MultiplyRow | src/methods/regression.py:26-27 | the inner loop turns row i of ones into the monomial of every path's controls and leaves the other rows alone |
| Regression.MonomialsOfPaths | src/methods/regression.py:20-28 | for a control matrix, x[i, p] is the i-th monomial of path p's controls |
| HullWhite.TabulateY | src/hull_white_model.py:22-31 | the loop over the volatility times fills a fresh array with one value per time, the i-th being y at times[i] carried from (0, 0) breakpoint by breakpoint |
| HullWhite.YBreakpointNext | src/hull_white_model.py:25-31 | each step of the constructor loop, chained from (t0, y0) = (0, 0), yields the next breakpoint value |
| HullWhite.HullWhiteModel.constructor | src/hull_white_model.py:15-31 | with only a nonzero mean reversion and at least as many values as times, the constructor stores its arguments and fills y_ with one value per volatility time, each carried from the previous breakpoint (or from 0); a non-empty, non-negative, strictly increasing schedule makes the model valid for sigma and y |
| HullWhite.HullWhiteModel.Sigma | src/hull_white_model.py:33-36 | given only a non-empty, strictly increasing schedule with at least as many values as times, sigma is left-continuous and piecewise constant: values[i] on (times[i-1], times[i]], values[0] up to times[0], and after the last time values[len(times)] when there are more values than times, otherwise the last value |
| HullWhite.HullWhiteModel.InitialValues | src/hull_white_model.py:107-114 | `initial_values()` holds `size()` = 2 zeros |
| HullWhite.HullWhiteModel.GPrime | src/hull_white_model.py:41-42 | G'(t, T) = exp(-a (T - t)); GPrimeSame, GPrimeChain and GPrimeSquare state its laws |
| HullWhite.HullWhiteModel.Y | src/hull_white_model.py:44-54 | y(t) carried from the stored value at the last breakpoint before t; YAtBreakpoint, YAtZero and FlatVolatility state its values |
| HullWhite.HullWhiteModel.Variance | src/hull_white_model.py:69-71 | y(T) - G'(t, T)^2 y(t); VarianceSameTime, VarianceFromZero and FlatVariance state its values |
| HullWhite.HullWhiteModel.Size | src/hull_white_model.py:107-108 | two state variables, x and s; InitialValues has that many entries |
| HullWhite.GPrimeSame | src/hull_white_model.py:41-42 | G'(t, t) = 1 |
| HullWhite.GPrimeChain | src/hull_white_model.py:41-42 | G'(t0, t1) G'(t1, t2) = G'(t0, t2) |
| HullWhite.GPrimeSquare | src/hull_white_model.py:41-42 | G'(t, T)^2 = exp(-2a (T - t)) |
| HullWhite.YAtBreakpoint | src/hull_white_model.py:44-54 | y at a breakpoint equals the value the constructor stored for it |
| HullWhite.YAtZero | src/hull_white_model.py:44-54 | y(0) = 0 |
| HullWhite.VarianceSameTime | src/hull_white_model.py:69-71 | variance(t, t) = 0 |
| HullWhite.VarianceFromZero | src/hull_white_model.py:69-71 | variance(0, T) = y(T) |
| HullWhite.FlatVarianceFormula | src/hull_white_model.py:69-71 | with one volatility, y(T) - G'(t, T)^2 y(t) is the flat variance over T - t |
| HullWhite.YStepFlat | src/hull_white_model.py:51-53 | under one volatility, carrying the flat variance from t0 to t gives the flat variance at t |
| HullWhite.FlatBreakpoints | src/hull_white_model.py:22-31 | with one volatility everywhere every stored y_ value is the flat variance at its breakpoint |
| HullWhite.FlatVolatility | src/hull_white_model.py:33-54 | with one volatility s everywhere, sigma(t) = s and y(t) is the flat variance |
| HullWhite.FlatModelsAgree | src/hull_white_model.py:33-54 | models with one common volatility agree on sigma and y whatever their breakpoints |
| HullWhite.FlatVariance | src/hull_white_model.py:69-71 | with one volatility s, variance(t, T) = s^2 (1 - exp(-2a (T - t))) / (2a) |
| MonteCarlo.Broadcast | src/monte_carlo_simulation.py:19 | `initial_values().reshape((-1, 1)) * ones((1, n_paths))`: every path starts at the initial values |
| MonteCarlo.Slice | src/monte_carlo_simulation.py:18 | slice i of the 3-D array has shape (size, n_paths) and holds X[i] |
| MonteCarlo.MonteCarloSimulation.constructor | src/monte_carlo_simulation.py:11-21 | X has shape (len(times), size, n_paths), X[0] is the broadcast start, X[i+1] = evolve(times[i], X[i], times[i+1] - times[i], dW[i]); rows not yet written stay zero during the fill |
| MonteCarlo.Simulated | src/monte_carlo_simulation.py:18-21 | every simulated state has shape (size, n_paths) |
| MonteCarlo.MonteCarloSimulation.StatesAt | src/monte_carlo_simulation.py:18-21 | X[i] is the i-th simulated state |
| MonteCarlo.StartsAtInitialValues | src/monte_carlo_simulation.py:19 | X[0][s][p] = initial_values()[s] on every path |
| MonteCarlo.StepsByEvolve | src/monte_carlo_simulation.py:20-21 | X[i+1] is the process evolved from X[i] over its time step with dW[i] |
| MonteCarlo.DeterminedByIncrements | src/monte_carlo_simulation.py:16-21 | equal process, times, path count and increments give equal arrays |
| Payoffs.Terms | src/methods/payoffs.py:18-21 | one term cf * zero_bond_payoff(x, observation_time, T) per zipped pair, with as many terms as the shorter list |
| Payoffs.At | src/methods/payoffs.py:17-22 | the sum of the Terms; the lemmas below state its laws |
| Payoffs.AtNonNegative | src/methods/payoffs.py:17-22 | non-negative cash flows and zero-bond payoffs give a non-negative value |
| Payoffs.AtEmptySchedule | src/methods/payoffs.py:18-22 | an empty schedule is worth 0 |
| Payoffs.AtIgnoresUnpaired | src/methods/payoffs.py:19-20 | entries beyond the shorter of pay times and cash flows are ignored |
| Payoffs.AtScales | src/methods/payoffs.py:18-21 | scaling every cash flow scales the value |
| Payoffs.AtConcatenation | src/methods/payoffs.py:18-21 | concatenated schedules are worth the sum of their values |
| Payoffs.AtUsesObservationTime | src/methods/payoffs.py:19 | the value depends on the zero-bond payoff only at the fixed observation time and the paired pay times |
| DensityIntegrations.States | src/methods/density_integrations.py:19-23 | `states(T)` is [0] when the standard deviation from 0 to T is zero, otherwise nGridPoints points |
| DensityIntegrations.StatesEnds | src/methods/density_integrations.py:23 | the grid runs from -stdDevs sigma to +stdDevs sigma |
| DensityIntegrations.StatesSymmetric | src/methods/density_integrations.py:23 | the grid is symmetric: x[i] = -x[n-1-i] |
| DensityIntegrations.StatesIncreasing | src/methods/density_integrations.py:23 | with positive stdDevs and standard deviation the grid is strictly increasing |
| DensityIntegrations.SymmetricGridIncreasing | src/methods/density_integrations.py:23 | a symmetric grid of positive half width is strictly increasing |
| DensityIntegrations.Standardised | src/methods/density_integrations.py:119 | xBar = (x - mu)/sigma, knot by knot |
| DensityIntegrations.Cdfs | src/methods/density_integrations.py:120 | Phi = norm.cdf(xBar), knot by knot |
| DensityIntegrations.HigherMoments | src/methods/density_integrations.py:130-133 | I1, I2 and I3 have one entry per interval, and I0 is kept |
| DensityIntegrations.SplineTerms | src/methods/density_integrations.py:137 | one term c3 I0 + c2 I1 + c1 I2 + c0 I3 per interval |
| DensityIntegrations.SimpsonIntegrand | src/methods/density_integrations.py:77 | the Simpson integrand is V[k] pdf((x1[k] - mu)/sigma)/sigma at each knot |
| DensityIntegrations.SimpsonQuadrature | src/methods/density_integrations.py:77-78 | `integrate.simps` of the SimpsonIntegrand over the knots |
| DensityIntegrations.HermiteQuadrature | src/methods/density_integrations.py:97-100 | the sum of the HermiteTerms over sqrt(pi); HermiteIntegral computes it and ConstantHermiteIntegral evaluates it on constants |
| DensityIntegrations.SplineQuadrature | src/methods/density_integrations.py:135-137 | the sum of the SplineTerms; SplineIntegral computes it and ConstantSplineQuadrature evaluates it on constants |
| DensityIntegrations.Integral | src/methods/density_integrations.py:70-139 | the quadrature of the chosen method: Simpson at lines 77-78, Gauss-Hermite at lines 97-100, the cubic spline at lines 119-137 |
| DensityIntegrations.PointValue | src/methods/density_integrations.py:79 | zero_bond(T0, x, T1) times the Integral at mean forward_expectation(T0, x, T1); RollBackSpec, PointRollBack and RollBack are stated through it |
| DensityIntegrations.HermiteTerms | src/methods/density_integrations.py:98-99 | the k-th Gauss-Hermite term is hermW[k] times the spline at sqrt(2) sigma hermX[k] + mu |
| DensityIntegrations.CubicMoments | src/methods/density_integrations.py:119-133 | one moment per spline interval, with I0 the differences of consecutive Phi values |
| DensityIntegrations.RollBackSpec | src/methods/density_integrations.py:70-80 | every density `roll_back` returns x0 = states(T0) and one value per grid point: the zero bond times the integral of max(U1, H1) (Simpson here; Gauss-Hermite at lines 90-102, cubic spline at lines 111-139) |
| DensityIntegrations.RollBackSymmetric | src/methods/density_integrations.py:74 | U1 and H1 enter only through max(U1, H1), here and at lines 94 and 115: exchanging them changes nothing |
| DensityIntegrations.RollBackDominated | src/methods/density_integrations.py:74 | where U1 never exceeds H1, the roll-back is that of H1 alone (max at this line and at lines 94 and 115) |
| DensityIntegrations.MomentsTelescope | src/methods/density_integrations.py:119-130 | I0 telescopes: its sum is Phi at the last standardised knot less Phi at the first |
| DensityIntegrations.ConstantSplineQuadrature | src/methods/density_integrations.py:135-137 | a spline constant on every interval integrates to the level times the sum of I0 (with MomentsTelescope: the level times the probability mass of the grid) |
| DensityIntegrations.ConstantHermiteTerms | src/methods/density_integrations.py:98-99 | a constant spline makes every Gauss-Hermite term the level times the weight |
| DensityIntegrations.ConstantHermiteIntegral | src/methods/density_integrations.py:97-100 | a constant spline integrates under Gauss-Hermite to the level times the weights' sum over sqrt(pi) |
| DensityIntegrations.HermiteReproducesConstants | src/methods/density_integrations.py:97-100 | with weights adding up to sqrt(pi) a constant is integrated exactly |
| DensityIntegrations.HermiteIntegral | src/methods/density_integrations.py:97-100 | the accumulation loop followed by the division by sqrt(pi) computes the Gauss-Hermite quadrature |
| DensityIntegrations.SplineIntegral | src/methods/density_integrations.py:119-137 | the summing-up loop computes the sum over intervals of c3 I0 + c2 I1 + c1 I2 + c0 I3 |
| DensityIntegrations.PointRollBack | src/methods/density_integrations.py:76-79 | the loop body computes the discounted integral at one grid point, for Simpson here and for Gauss-Hermite and the cubic spline at lines 96-101 and 117-138 |
| DensityIntegrations.RollBackSpecFrom | src/methods/density_integrations.py:71-80 | values that agree with the point value at every grid point make up the roll-back result |
| DensityIntegrations.RollBack | src/methods/density_integrations.py:70-80 | the loop filling V0 over `states(T0)` computes RollBackSpec, here and at lines 90-102 and 111-139 |
| DensityIntegrations.Where | src/methods/density_integrations.py:47-54 | `np.where(x1 < xStar)` and `np.where(x1 > xStar)`: exactly the indices on the chosen side, in increasing order |
| DensityIntegrations.Ties | src/methods/density_integrations.py:47-54 | the grid points equal to xStar, which neither `np.where` keeps, number at most the grid size |
| DensityIntegrations.WhereCount | src/methods/density_integrations.py:47-54 | the indices strictly below xStar, those strictly above it and the ties with it together number the grid size |
| DensityIntegrations.TiesNone | src/methods/density_integrations.py:47-54 | a grid without xStar has no ties |
| DensityIntegrations.TiesOnce | src/methods/density_integrations.py:47-54 | a strictly increasing grid holding xStar ties with it exactly once |
| DensityIntegrations.Pick | src/methods/density_integrations.py:48-57 | indexing by an index array picks those entries |
| DensityIntegrations.LowerHalf | src/methods/density_integrations.py:47-50 | the lower grid is the points below xStar and then xStar; U and H get VStar there |
| DensityIntegrations.UpperHalf | src/methods/density_integrations.py:54-57 | the upper grid is xStar and then the points above it; U and H get VStar there |
| DensityIntegrations.HalvesCover | src/methods/density_integrations.py:47-57 | every grid point other than xStar lands in the half on its side |
| DensityIntegrations.HalvesCount | src/methods/density_integrations.py:47-57 | when xStar is not a grid point the halves hold |x1| + 2 points (the grid plus xStar twice); when a strictly increasing grid holds xStar they hold |x1| + 1, the grid point being dropped in favour of the two inserted copies |
| DensityIntegrations.PickIncreasing | src/methods/density_integrations.py:48-55 | picking at increasing indices keeps a grid strictly increasing |
| DensityIntegrations.HalvesIncreasing | src/methods/density_integrations.py:47-57 | on a strictly increasing grid both halves are strictly increasing |
| DensityIntegrations.BreakEvenRollBack | src/methods/density_integrations.py:39-61 | the decorator returns `states(T0)` and one value per grid point |
| DensityIntegrations.BreakEvenWithoutRoot | src/methods/density_integrations.py:41-43 | without a root the decorator returns the wrapped method's result unchanged |
| DensityIntegrations.BreakEvenSplits | src/methods/density_integrations.py:44-61 | with a root the values are the sum of the lower and the upper roll-back |
| AmcSolver.StateVariableControls | src/methods/amc_solver.py:6-20 | the controls are the first state variable as a single row, one value per path |
| AmcSolver.StateVariableControlsKeepPaths | src/methods/amc_solver.py:20 | the state-variable controls keep one column per path |
| AmcSolver.Trunc | src/methods/amc_solver.py:55 | Python `int()` truncates toward zero |
| AmcSolver.NewAmcSolver | src/methods/amc_solver.py:52-56 | minSampleIdx = int(split_ratio * n_paths) and the other fields as given, with the defaults max_polynomial_degree = 2, split_ratio = 0.25 and the state-variable controls |
| AmcSolver.DefaultSplit | src/methods/amc_solver.py:52-55 | with the defaults, degree 2 and the state-variable controls, and minSampleIdx is the floor of a quarter of the paths |
| AmcSolver.NewOnlyExercise | src/methods/amc_solver.py:93-94 | the exercise-only solver calls the base constructor without its controls, so it always uses the state variable |
| AmcSolver.TrainingPaths | src/methods/amc_solver.py:55 | a split ratio in [0, 1] gives 0 <= minSampleIdx <= n_paths |
| AmcSolver.NearestIndex | src/methods/amc_solver.py:58-66 | the index is in range; 0 at or below the first time, the last index past the last time |
| AmcSolver.NearestIndexClosest | src/methods/amc_solver.py:58-66 | the index minimises the distance to t, and ties go to the later index |
| AmcSolver.NearestIndexAtTime | src/methods/amc_solver.py:58-66 | a simulation time is found at its own index |
| AmcSolver.States | src/methods/amc_solver.py:68-70 | `states(T)` is the slice X[nearest_index(T)] of shape (size, n_paths) |
| AmcSolver.Discount | src/methods/amc_solver.py:78-83 | `N0 / N1 * V` entry by entry |
| AmcSolver.ChooseDifference | src/methods/amc_solver.py:106-107 | with I = U1 - H1 the choice (I > 0) U1 + (I <= 0) H1 is max(U1, H1) |
| AmcSolver.Choose | src/methods/amc_solver.py:107 | `(I>0)*U1 + (I<=0)*H1` has one entry per path, U1[p] where I[p] > 0 and H1[p] elsewhere |
| AmcSolver.SampleIdx | src/methods/amc_solver.py:85 | the average starts at minSampleIdx, or at 0 when no path is left after the training paths |
| AmcSolver.SampleNonEmpty | src/methods/amc_solver.py:85-86 | the averaged paths are never empty and number n_paths - sampleIdx |
| AmcSolver.Finish | src/methods/amc_solver.py:84-87 | at T0 = 0 the result is one state and one mean value, otherwise (x0, V0) |
| AmcSolver.Regresses | src/methods/amc_solver.py:76 | the roll-back regresses when there are training paths and T0 > 0; RollBackWithoutRegression and OnlyExerciseAgrees cover the other case |
| AmcSolver.RollBack | src/methods/amc_solver.py:72-87 | without regression one value per path (one in all at T0 = 0) |
| AmcSolver.ExerciseIndicator | src/methods/amc_solver.py:99-106 | the exercise indicator I has one entry per path: the regression of U1 - H1 on the training paths evaluated at every path's controls, or U1 - H1 itself |
| AmcSolver.RollBackOnlyExercise | src/methods/amc_solver.py:96-111 | one value per path, or a single mean at T0 = 0 |
| AmcSolver.OnlyExerciseRealisesCashFlows | src/methods/amc_solver.py:106-107 | for T0 != 0 the states are those at T0 and path p's value is N0/N1 U1[p] where I[p] > 0 and N0/N1 H1[p] otherwise: never a regressed value |
| AmcSolver.OnlyExerciseUsesTrainingPaths | src/methods/amc_solver.py:100-104 | when regressing, cash flows that agree on the training paths give the same indicator on every path and the same values on the training paths |
| AmcSolver.RollBackWithoutRegression | src/methods/amc_solver.py:82-87 | without regression V0 = N0/N1 max(U1, H1) on every path, on the states at the nearest simulation time |
| AmcSolver.RollBackDominates | src/methods/amc_solver.py:83 | with positive numeraires V0 is at least the discounted continuation value and the discounted exercise value |
| AmcSolver.RollBackToday | src/methods/amc_solver.py:83-86 | at T0 = 0 the result is ([0], mean of the discounted max(U1, H1) over paths sampleIdx, ..., n_paths - 1) |
| AmcSolver.RollBackUsesTrainingPaths | src/methods/amc_solver.py:76-81 | the fitted regression sees U1 and H1 only on the training paths [0, minSampleIdx) |
| AmcSolver.OnlyExerciseAgrees | src/methods/amc_solver.py:105-107 | without regression the exercise-only variant returns what the full solver returns |
| AmcSolver.OnlyExerciseIgnoresControls | src/methods/amc_solver.py:93-94 | the exercise-only solver rolls back alike whatever controls it is given |
| BermudanOption.RollBackCalls | src/bermudan_option.py:38-45 | n roll-backs: (T[k-1], T[k]) for k = n-1 down to 1, then (0, T[0]); each starts where the next ends |
| BermudanOption.Backward | src/bermudan_option.py:38-44 | the backward induction: states(T[n-1]) with H = 0 at the last expiry, then a roll-back from T[k-1] to T[k] per earlier expiry, with U = payoff k-1 on the new states; BackwardUsesFirstPayoffs and BermudanOptionNpv state its properties |
| BermudanOption.Final | src/bermudan_option.py:45 | the last roll-back, from T[0] to today (0), on the states, U and H that the induction leaves at the first expiry |
| BermudanOption.Npv | src/bermudan_option.py:45-48 | EmptySchedule for no expiries, NoStates when the final state matrix has no row, ShapeMismatch when np.interp cannot run, else interp(0, x[0], H) after the final roll-back; NpvErrors, NpvOfSingleState and NpvOnGridThroughZero state its values |
| BermudanOption.BermudanOptionNpv | src/bermudan_option.py:5-49 | the loop from the last expiry computes the backward induction: at the last expiry states(T[n-1]) and H = 0, then a roll-back per earlier expiry and U = payoff on the new states; the roll-backs made are RollBackCalls; an empty schedule is an error |
| BermudanOption.EuropeanOption | src/bermudan_option.py:38-45 | one expiry gives one roll-back from 0 to T[0] on states(T[0]) with H all zero |
| BermudanOption.BackwardUsesFirstPayoffs | src/bermudan_option.py:38-44 | the induction uses only the payoffs of the n expiries |
| BermudanOption.NpvUsesFirstPayoffs | src/bermudan_option.py:38-49 | payoffs listed beyond the last expiry do not change the npv |
| BermudanOption.NpvOfSingleState | src/bermudan_option.py:45-49 | a single state today (the AMC average) makes its value the npv |
| BermudanOption.NpvOnGridThroughZero | src/bermudan_option.py:45-49 | on a strictly increasing grid through 0 (row 0 of the states) the npv is the value at 0 |
| BermudanOption.NpvErrors | src/bermudan_option.py:46-48 | no state rows, or grid and values of different lengths, give an error instead of a number |

## Left out

- The random number generator of the Monte Carlo simulation is not modelled: the increments dW are an input.
- The `tqdm` progress bars are not modelled. They are the `showProgress` arguments.
- `exp` is uninterpreted, with only exp(0) = 1 and exp(a + b) = exp(a) exp(b) assumed.
- `sqrt` is not modelled: the density methods take sqrt(variance) as the model's `stdDev`, and sqrt(2) and sqrt(pi) as constants.
- `log` is not modelled, so `CoterminalRateControls` (its `-log(zb)/(T - t)` rate) is not part of this model.
- The Hull-White pricing and dynamics are parameters of the solvers rather than formulas: `G`, `zero_bond`, `zero_bond_option`, `coupon_bond_option`, `risk_neutral_expectation`, `T_forward_expectation`, `forward_rate`, `evolve`, `numeraire`.
- The library calls are parameters whose results are taken as given: `norm.pdf`/`cdf`, `integrate.simps`, `hermgauss`, `CubicSpline` (fit, evaluation, coefficients, roots) and `lstsq` (`Regression.value` is an abstract function of controls, observations, degree and evaluation controls).
- `CubicSpline`'s own checks on its knots (at least two, strictly increasing) are not modelled.
- IEEE floating point is not modelled: no rounding, overflow, infinities or NaN. Every quantity is a real number.
- HullWhite.HullWhiteModel.constructor: requires a nonzero mean reversion, since with mean reversion 0 the source divides by zero, and at least as many volatility values as times, since the loop reads `vol_values[i]` for every time. The source only assumes a positive, ascending schedule (its comment at src/hull_white_model.py:18); the model asks for a non-empty, non-negative, strictly increasing schedule with at least as many values as times only where sigma and y rely on it (HullWhiteModel.Valid), and a first time of 0 is allowed.
- AmcSolver.Simulation is the record of what the solver reads from the simulation (times, size, path count, states); it is not built from MonteCarlo.MonteCarloSimulation, whose own contract gives the states.
- DensityIntegrations: the model's `stdDev(T0, T1)` is a parameter; it is not tied to sqrt of HullWhite.HullWhiteModel.Variance, since `sqrt` is not modelled.
- DensityIntegrations.RollBackSpec: requires a nonzero standard deviation between T0 and T1 for the Simpson and cubic-spline methods, and sqrt(pi) != 0 for Gauss-Hermite. The source divides by these.
- AmcSolver.RollBack: requires one nonzero numeraire value per path. The source divides by N1 without a check.
- AmcSolver.RollBack: requires at least one path. With no paths `np.mean` of an empty array is NaN.
- AmcSolver.RollBack: the regression branch states no length for V0, since the abstract regression returns one value per column of the evaluation controls.
- Regression.MultiIndexSet: requires n >= 1. With n = 0 and k >= 1 the source recurses forever; `multi_index_set(0, 0)` returns `[]` (an empty `range(0)`), a case the model does not cover.
- ThetaMethod.SolveTridiagonalSystem: requires all pivots of the elimination to be nonzero. The source does no error handling for a zero pivot and divides by it.
- The `scipy.sparse` matrices are three diagonals.
- The solve works on copies a, b, c of the diagonals, as `diag_A.diagonal(k)` returns them.
- BermudanOption.BermudanOptionNpv: requires at least as many payoffs as expiry times, as the source indexes `underlying_payoffs[k-1]`.
- BermudanOption.BermudanOptionNpv: a one-dimensional grid is the one-row state matrix, so `x.reshape((-1, x.shape[-1]))` and the final `x[0]` are the identity on grids.
- MonteCarlo.MonteCarloSimulation.constructor: requires at least one simulation time. With empty `times` the source raises in `standard_normal((-1, ...))` at src/monte_carlo_simulation.py:16; the model does not represent that error.
- MonteCarlo.MonteCarloSimulation.constructor: the process (`size`, `factors`, `initial_values`, `evolve`) is a parameter. Its `evolve` is assumed to map a (size x n_paths) state to one of the same shape.
- `src/methods/pde_solver.py` is not part of this model.
- The Hull-White `HullWhiteModelWithDiscreteNumeraire` is not part of this model.
- The SABR model, the Black formulas, swaptions and yield curves are not part of this model.
