/**
 * The theta-scheme step of the PDE solver: a tridiagonal system solved by
 * in-place LU elimination with forward and backward substitution.
 */
module ThetaMethod {
  import opened NumPy

  /**
   * A square tridiagonal matrix, `diags([sub, diag, sup], [-1, 0, 1])`:
   * row i holds sub[i-1], diag[i] and sup[i].
   */
  datatype Tridiagonal = Tridiagonal(sub: seq<real>, diag: seq<real>, sup: seq<real>)

  predicate WellShaped(m: Tridiagonal) {
    |m.diag| >= 1 && |m.sub| == |m.diag| - 1 && |m.sup| == |m.diag| - 1
  }

  /** Row i of the product m * v. */
  function RowTimes(m: Tridiagonal, v: seq<real>, i: nat): real
    requires WellShaped(m) && |v| == |m.diag| && i < |v|
  {
    (if i > 0 then m.sub[i - 1] * v[i - 1] else 0.0)
    + m.diag[i] * v[i]
    + (if i + 1 < |v| then m.sup[i] * v[i + 1] else 0.0)
  }

  /** The matrix-vector product m * v. */
  function Times(m: Tridiagonal, v: seq<real>): (r: seq<real>)
    requires WellShaped(m) && |v| == |m.diag|
    ensures |r| == |v| && forall i :: 0 <= i < |v| ==> r[i] == RowTimes(m, v, i)
  {
    seq(|v|, i requires 0 <= i < |v| => RowTimes(m, v, i))
  }

  /** I + s * m, as built by `identity(n) + s * diags(...)`. */
  function IdentityPlus(s: real, m: Tridiagonal): (r: Tridiagonal)
    requires WellShaped(m)
    ensures WellShaped(r) && |r.diag| == |m.diag|
  {
    Tridiagonal(
      seq(|m.sub|, i requires 0 <= i < |m.sub| => s * m.sub[i]),
      seq(|m.diag|, i requires 0 <= i < |m.diag| => 1.0 + s * m.diag[i]),
      seq(|m.sup|, i requires 0 <= i < |m.sup| => s * m.sup[i]))
  }

  /** (I + s M) v = v + s (M v). */
  lemma IdentityPlusTimes(s: real, m: Tridiagonal, v: seq<real>, i: nat)
    requires WellShaped(m) && |v| == |m.diag| && i < |v|
    ensures Times(IdentityPlus(s, m), v)[i] == v[i] + s * Times(m, v)[i]
  {
  }

  /**
   * The factors of the elimination: lower[i-1] is the multiplier of row i
   * (the unit lower bidiagonal factor L) and pivots[i] the diagonal of the
   * upper bidiagonal factor U, whose super-diagonal is that of the matrix.
   */
  datatype Factors = Factors(lower: seq<real>, pivots: seq<real>)

  /** The multiple of the previous row that clears a sub-diagonal entry. */
  function Multiplier(sub: real, pivot: real): real
    requires pivot != 0.0
  {
    sub / pivot
  }

  /** The pivot of a row once l times the previous row is subtracted from it. */
  function NextPivot(diag: real, sup: real, l: real): real {
    diag - sup * l
  }

  /**
   * The elimination over the first k rows.  None when one of the first k
   * pivots is zero: the in-place elimination and the substitutions divide
   * by every pivot, and the source does no error handling for that case.
   */
  function Factor(m: Tridiagonal, k: nat): (r: Option<Factors>)
    requires WellShaped(m) && 1 <= k <= |m.diag|
    ensures r.Some? ==> |r.value.lower| == k - 1 && |r.value.pivots| == k
    ensures r.Some? ==> forall i :: 0 <= i < k ==> r.value.pivots[i] != 0.0
    decreases k
  {
    if k == 1 then
      if m.diag[0] == 0.0 then None else Some(Factors([], [m.diag[0]]))
    else
      var prev := Factor(m, k - 1);
      if prev.None? then None
      else
        var l := Multiplier(m.sub[k - 2], prev.value.pivots[k - 2]);
        var p := NextPivot(m.diag[k - 1], m.sup[k - 2], l);
        if p == 0.0 then None else Some(Factors(prev.value.lower + [l], prev.value.pivots + [p]))
  }

  /** The LU decomposition exists with nonzero pivots. */
  predicate Factorable(m: Tridiagonal)
    requires WellShaped(m)
  {
    Factor(m, |m.diag|).Some?
  }

  /** One step of the elimination: the factors of k rows extend those of k - 1 rows. */
  lemma FactorStep(m: Tridiagonal, k: nat)
    requires WellShaped(m) && 2 <= k <= |m.diag| && Factor(m, k).Some?
    ensures Factor(m, k - 1).Some?
    ensures var f := Factor(m, k - 1).value;
      var l := Multiplier(m.sub[k - 2], f.pivots[k - 2]);
      Factor(m, k).value == Factors(f.lower + [l], f.pivots + [NextPivot(m.diag[k - 1], m.sup[k - 2], l)])
  {
  }

  /** A successful elimination succeeds on every leading block, with the same factors. */
  lemma {:induction false} FactorPrefix(m: Tridiagonal, k: nat, j: nat)
    requires WellShaped(m) && 1 <= j <= k <= |m.diag| && Factor(m, k).Some?
    ensures Factor(m, j).Some?
    ensures Factor(m, j).value.lower == Factor(m, k).value.lower[..j - 1]
    ensures Factor(m, j).value.pivots == Factor(m, k).value.pivots[..j]
    decreases k
  {
    var g := Factor(m, k).value;
    if j == k {
      assert g.lower[..j - 1] == g.lower && g.pivots[..j] == g.pivots;
    } else {
      FactorStep(m, k);
      var f := Factor(m, k - 1).value;
      FactorPrefix(m, k - 1, j);
      assert g.lower[..j - 1] == f.lower[..j - 1];
      assert g.pivots[..j] == f.pivots[..j];
    }
  }

  lemma DivTimes(a: real, p: real)
    requires p != 0.0
    ensures (a / p) * p == a
    ensures p * (a / p) == a
  {
  }

  /**
   * What the elimination computes at row i >= 1: the multiplier times the
   * previous pivot is the sub-diagonal entry, and the pivot is the diagonal
   * entry less the super-diagonal entry times the multiplier.  The first
   * pivot is the first diagonal entry.
   */
  lemma FactorEntry(m: Tridiagonal, k: nat, g: Factors, i: nat)
    requires WellShaped(m) && 1 <= k <= |m.diag| && i < k && Factor(m, k) == Some(g)
    ensures i == 0 ==> g.pivots[0] == m.diag[0]
    ensures i > 0 ==> g.lower[i - 1] == Multiplier(m.sub[i - 1], g.pivots[i - 1])
    ensures i > 0 ==> g.pivots[i] == NextPivot(m.diag[i], m.sup[i - 1], g.lower[i - 1])
  {
    FactorPrefix(m, k, i + 1);
    var h := Factor(m, i + 1).value;
    assert g.pivots[i] == h.pivots[i];
    if i == 0 {
      assert h.pivots == [m.diag[0]];
    } else {
      assert g.lower[i - 1] == h.lower[i - 1];
      FactorPrefix(m, k, i);
      FactorStep(m, i + 1);
      assert g.pivots[i - 1] == Factor(m, i).value.pivots[i - 1];
    }
  }

  /** Row i of L z, L unit lower bidiagonal with sub-diagonal l. */
  function LowerRow(l: seq<real>, z: seq<real>, i: nat): real
    requires |l| + 1 == |z| && i < |z|
  {
    z[i] + (if i > 0 then l[i - 1] * z[i - 1] else 0.0)
  }

  /** Row i of U v, U upper bidiagonal with diagonal p and super-diagonal c. */
  function UpperRow(p: seq<real>, c: seq<real>, v: seq<real>, i: nat): real
    requires |p| == |v| && |c| + 1 == |v| && i < |v|
  {
    p[i] * v[i] + (if i + 1 < |v| then c[i] * v[i + 1] else 0.0)
  }

  /**
   * Row i of L U v regrouped by v: the multiplier times the previous pivot
   * gives the sub-diagonal entry, the pivot plus the super-diagonal entry
   * times the multiplier the diagonal entry.
   */
  lemma Regroup(l: real, pPrev: real, pCur: real, supPrev: real, sub: real, diag: real,
                vPrev: real, vCur: real, rest: real, uPrev: real, uCur: real)
    requires l * pPrev == sub && pCur + supPrev * l == diag
    requires uCur == pCur * vCur + rest && uPrev == pPrev * vPrev + supPrev * vCur
    ensures uCur + l * uPrev == sub * vPrev + diag * vCur + rest
  {
    assert l * (pPrev * vPrev) == (l * pPrev) * vPrev;
    assert l * (supPrev * vCur) == (supPrev * l) * vCur;
  }

  /**
   * Row i of L U has the coefficients of row i of the matrix: the
   * multiplier times the previous pivot is the sub-diagonal entry, the
   * pivot plus the super-diagonal entry times the multiplier the diagonal
   * entry, and the first pivot is the first diagonal entry.
   */
  predicate LuRow(m: Tridiagonal, f: Factors, i: nat)
    requires WellShaped(m) && |f.lower| + 1 == |m.diag| && |f.pivots| == |m.diag| && i < |m.diag|
  {
    if i == 0 then f.pivots[0] == m.diag[0]
    else f.lower[i - 1] * f.pivots[i - 1] == m.sub[i - 1] && f.pivots[i] + m.sup[i - 1] * f.lower[i - 1] == m.diag[i]
  }

  /** The factors of the elimination multiply back to the matrix, row by row. */
  lemma FactorRow(m: Tridiagonal, f: Factors, i: nat)
    requires WellShaped(m) && i < |m.diag| && Factor(m, |m.diag|) == Some(f)
    ensures LuRow(m, f, i)
  {
    FactorEntry(m, |m.diag|, f, i);
    if i > 0 {
      DivTimes(m.sub[i - 1], f.pivots[i - 1]);
    }
  }

  /**
   * A = L U, row by row: if u = U v then (L u)[i] = (A v)[i].
   */
  lemma LuProduct(m: Tridiagonal, f: Factors, v: seq<real>, u: seq<real>, i: nat)
    requires WellShaped(m) && |v| == |m.diag| && |u| == |v| && i < |v|
    requires |f.lower| + 1 == |m.diag| && |f.pivots| == |m.diag| && LuRow(m, f, i)
    requires u[i] == UpperRow(f.pivots, m.sup, v, i)
    requires i > 0 ==> u[i - 1] == UpperRow(f.pivots, m.sup, v, i - 1)
    ensures LowerRow(f.lower, u, i) == RowTimes(m, v, i)
  {
    if i > 0 {
      var rest := if i + 1 < |v| then m.sup[i] * v[i + 1] else 0.0;
      Regroup(f.lower[i - 1], f.pivots[i - 1], f.pivots[i], m.sup[i - 1], m.sub[i - 1], m.diag[i],
              v[i - 1], v[i], rest, u[i - 1], u[i]);
    }
  }

  /**
   * The in-place LU decomposition of `solve_tridiagonalsystem`: a becomes
   * the multipliers, b the pivots.
   */
  method Eliminate(a: array<real>, b: array<real>, c: array<real>)
    requires a != b && a != c && b != c
    requires b.Length >= 1 && a.Length == b.Length - 1 && c.Length == b.Length - 1
    requires Factorable(Tridiagonal(a[..], b[..], c[..]))
    modifies a, b
    ensures Factor(Tridiagonal(old(a[..]), old(b[..]), c[..]), b.Length)
      == Some(Factors(a[..], b[..]))
  {
    var n := b.Length;
    ghost var m := Tridiagonal(a[..], b[..], c[..]);
    ghost var g := Factor(m, n).value;
    FactorEntry(m, n, g, 0);
    var i := 1;
    while i < n
      invariant 1 <= i <= n && c[..] == m.sup
      invariant forall j :: 0 <= j < i - 1 ==> a[j] == g.lower[j]
      invariant forall j :: i - 1 <= j < n - 1 ==> a[j] == m.sub[j]
      invariant forall j :: 0 <= j < i ==> b[j] == g.pivots[j]
      invariant forall j :: i <= j < n ==> b[j] == m.diag[j]
    {
      FactorEntry(m, n, g, i);
      a[i - 1] := Multiplier(a[i - 1], b[i - 1]);
      b[i] := NextPivot(b[i], c[i - 1], a[i - 1]);
      i := i + 1;
    }
    assert a[..] == g.lower && b[..] == g.pivots;
  }

  /** Forward substitution: the z with L z = y. */
  method ForwardSubstitution(l: array<real>, y: array<real>) returns (z: array<real>)
    requires y.Length >= 1 && l.Length == y.Length - 1
    ensures fresh(z) && z.Length == y.Length
    ensures forall j :: 0 <= j < y.Length ==> LowerRow(l[..], z[..], j) == y[j]
  {
    var n := y.Length;
    z := new real[n];
    z[0] := y[0];
    var i := 1;
    while i < n
      invariant 1 <= i <= n
      invariant forall j :: 0 <= j < i ==> LowerRow(l[..], z[..], j) == y[j]
    {
      z[i] := y[i] - l[i - 1] * z[i - 1];
      assert LowerRow(l[..], z[..], i) == y[i];
      i := i + 1;
    }
  }

  /** Row j of U v reads only v[j] and v[j+1]: an update before row j leaves it unchanged. */
  lemma UpperRowUpdate(p: seq<real>, c: seq<real>, v: seq<real>, k: nat, x: real, j: nat)
    requires |p| == |v| && |c| + 1 == |v| && k < j < |v|
    ensures UpperRow(p, c, v[k := x], j) == UpperRow(p, c, v, j)
  {
  }

  /** Solving row k of U v = z for v[k] once v[k+1] is known. */
  lemma UpperRowSolved(p: seq<real>, c: seq<real>, v: seq<real>, z: real, k: nat)
    requires |p| == |v| && |c| + 1 == |v| && k + 1 < |v| && p[k] != 0.0
    ensures UpperRow(p, c, v[k := (z - c[k] * v[k + 1]) / p[k]], k) == z
  {
    DivTimes(z - c[k] * v[k + 1], p[k]);
  }

  /** Backward substitution, overwriting y with the v of U v = z. */
  method BackwardSubstitution(p: array<real>, c: array<real>, z: array<real>, y: array<real>)
    requires y != p && y != c && y != z
    requires p.Length >= 1 && c.Length == p.Length - 1 && z.Length == p.Length
    requires y.Length == p.Length
    requires forall j :: 0 <= j < p.Length ==> p[j] != 0.0
    modifies y
    ensures forall j :: 0 <= j < y.Length ==> UpperRow(p[..], c[..], y[..], j) == z[j]
  {
    var n := p.Length;
    y[n - 1] := z[n - 1] / p[n - 1];
    DivTimes(z[n - 1], p[n - 1]);
    assert UpperRow(p[..], c[..], y[..], n - 1) == z[n - 1];
    var i := n - 1;
    while i > 0
      invariant 0 <= i <= n - 1
      invariant forall j :: i <= j < n ==> UpperRow(p[..], c[..], y[..], j) == z[j]
    {
      ghost var before := y[..];
      var x := (z[i - 1] - c[i - 1] * y[i]) / p[i - 1];
      y[i - 1] := x;
      assert y[..] == before[i - 1 := x];
      UpperRowSolved(p[..], c[..], before, z[i - 1], i - 1);
      forall j | i <= j < n ensures UpperRow(p[..], c[..], y[..], j) == z[j] {
        UpperRowUpdate(p[..], c[..], before, i - 1, x, j);
      }
      i := i - 1;
    }
  }

  /**
   * `solve_tridiagonalsystem(A, y)` where a, b, c are copies of A's sub-,
   * main and super-diagonal.  The elimination overwrites a with the
   * multipliers and b with the pivots; y is overwritten with the solution
   * of A y = y_old.
   */
  method SolveTridiagonalSystem(a: array<real>, b: array<real>, c: array<real>, y: array<real>)
    requires a != b && a != c && a != y && b != c && b != y && c != y
    requires b.Length >= 1 && a.Length == b.Length - 1 && c.Length == b.Length - 1
    requires y.Length == b.Length
    requires Factorable(Tridiagonal(a[..], b[..], c[..]))
    modifies a, b, y
    ensures Factor(Tridiagonal(old(a[..]), old(b[..]), c[..]), b.Length)
      == Some(Factors(a[..], b[..]))
    ensures Times(Tridiagonal(old(a[..]), old(b[..]), c[..]), y[..]) == old(y[..])
    ensures y.Length == 1 ==> y[0] == old(y[0]) / old(b[0])
  {
    var n := b.Length;
    ghost var m := Tridiagonal(a[..], b[..], c[..]);
    ghost var y0 := y[..];
    Eliminate(a, b, c);
    ghost var f := Factors(a[..], b[..]);
    var z := ForwardSubstitution(a, y);
    ghost var zs := z[..];
    BackwardSubstitution(b, c, z, y);
    forall j | 0 <= j < n ensures Times(m, y[..])[j] == y0[j] {
      FactorRow(m, f, j);
      LuProduct(m, f, y[..], zs, j);
    }
    assert Times(m, y[..]) == y0;
    if n == 1 {
      assert m.diag[0] * y[0] == y0[0];
      assert m.diag[0] != 0.0;
      assert y[0] == y0[0] / m.diag[0];
    }
  }

  /**
   * `theta_step`: v = [I + h theta M]^-1 [I - h (1 - theta) M] r for
   * M = diags([lower, center, upper], [-1, 0, 1]).  With theta = 0 the step
   * is explicit and nothing is solved.
   */
  method ThetaStep(lower: seq<real>, center: seq<real>, upper: seq<real>, rhs: seq<real>,
                   stepSize: real, theta: real) returns (v: seq<real>)
    requires WellShaped(Tridiagonal(lower, center, upper)) && |rhs| == |center|
    requires theta != 0.0 ==>
      Factorable(IdentityPlus(stepSize * theta, Tridiagonal(lower, center, upper)))
    ensures |v| == |center|
    ensures theta == 0.0 ==>
      v == Times(IdentityPlus(-(stepSize * (1.0 - theta)), Tridiagonal(lower, center, upper)), rhs)
    ensures theta != 0.0 ==>
      Times(IdentityPlus(stepSize * theta, Tridiagonal(lower, center, upper)), v)
      == Times(IdentityPlus(-(stepSize * (1.0 - theta)), Tridiagonal(lower, center, upper)), rhs)
  {
    var m := Tridiagonal(lower, center, upper);
    var explicit := Times(IdentityPlus(-(stepSize * (1.0 - theta)), m), rhs);
    if theta == 0.0 {
      return explicit;
    }
    var implicit := IdentityPlus(stepSize * theta, m);
    var a := new real[|implicit.sub|](i requires 0 <= i < |implicit.sub| => implicit.sub[i]);
    var b := new real[|implicit.diag|](i requires 0 <= i < |implicit.diag| => implicit.diag[i]);
    var c := new real[|implicit.sup|](i requires 0 <= i < |implicit.sup| => implicit.sup[i]);
    var y := new real[|explicit|](i requires 0 <= i < |explicit| => explicit[i]);
    assert a[..] == implicit.sub && b[..] == implicit.diag && c[..] == implicit.sup;
    assert y[..] == explicit;
    SolveTridiagonalSystem(a, b, c, y);
    v := y[..];
  }
}
