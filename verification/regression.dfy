/**
 * The polynomial basis of the least-squares regression: the multi-indices
 * of all monomials up to a total degree, and the evaluation of those
 * monomials on control variables.
 */
module Regression {
  import opened NumPy

  /** Total degree of a multi-index: the sum of its components. */
  function Total(m: seq<nat>): nat {
    if |m| == 0 then 0 else m[0] + Total(m[1..])
  }

  /** Strict lexicographic order on multi-indices of one length. */
  predicate LexLess(a: seq<nat>, b: seq<nat>)
    requires |a| == |b|
  {
    |a| > 0 && (a[0] < b[0] || (a[0] == b[0] && LexLess(a[1..], b[1..])))
  }

  /** [i] + s for every s in ss, in order. */
  function Prepend(i: nat, ss: seq<seq<nat>>): (r: seq<seq<nat>>)
    ensures |r| == |ss| && forall j :: 0 <= j < |ss| ==> r[j] == [i] + ss[j]
  {
    seq(|ss|, j requires 0 <= j < |ss| => [i] + ss[j])
  }

  /**
   * `multi_index_set(n, k)`: the exponent lists of all monomials in n
   * variables of total degree below k.  n = 1 lists [0], ..., [k-1];
   * otherwise the first exponent i runs over 0..k-1 and the rest is
   * enumerated with the remaining budget k - i.  The recursion shrinks n
   * only for n >= 1: with n = 0 the source never terminates.
   */
  function MultiIndexSet(n: nat, k: nat): (r: seq<seq<nat>>)
    requires n >= 1
    ensures forall j :: 0 <= j < |r| ==> |r[j]| == n && Total(r[j]) < k
    decreases n, 1
  {
    if n == 1 then seq(k, i requires 0 <= i < k => [i])
    else Blocks(n, k, 0)
  }

  /** The entries of `multi_index_set(n, k)` whose first exponent is at least i. */
  function Blocks(n: nat, k: nat, i: nat): (r: seq<seq<nat>>)
    requires n >= 2 && i <= k
    ensures forall j :: 0 <= j < |r| ==> |r[j]| == n && Total(r[j]) < k && i <= r[j][0]
    decreases n, 0, k - i
  {
    if i == k then []
    else
      var rest := MultiIndexSet(n - 1, k - i);
      assert forall j :: 0 <= j < |rest| ==> Total([i] + rest[j]) == i + Total(rest[j]) by {
        forall j | 0 <= j < |rest| ensures Total([i] + rest[j]) == i + Total(rest[j]) {
          assert ([i] + rest[j])[1..] == rest[j];
        }
      }
      Prepend(i, rest) + Blocks(n, k, i + 1)
  }

  /** With no degree budget there is no monomial. */
  lemma EmptyBudget(n: nat)
    requires n >= 1
    ensures MultiIndexSet(n, 0) == []
  {
    if n >= 2 {
      assert Blocks(n, 0, 0) == [];
    }
  }

  /** Completeness: every multi-index of length n and total degree below k is listed. */
  lemma {:induction false} MultiIndexSetComplete(n: nat, k: nat, m: seq<nat>)
    requires n >= 1 && |m| == n && Total(m) < k
    ensures m in MultiIndexSet(n, k)
    decreases n, 1
  {
    if n == 1 {
      assert m == [m[0]];
      assert MultiIndexSet(n, k)[m[0]] == m;
    } else {
      BlocksComplete(n, k, 0, m);
    }
  }

  lemma {:induction false} BlocksComplete(n: nat, k: nat, i: nat, m: seq<nat>)
    requires n >= 2 && i <= k && |m| == n && Total(m) < k && i <= m[0]
    ensures m in Blocks(n, k, i)
    decreases n, 0, k - i
  {
    var rest := MultiIndexSet(n - 1, k - i);
    if m[0] == i {
      MultiIndexSetComplete(n - 1, k - i, m[1..]);
      var j :| 0 <= j < |rest| && rest[j] == m[1..];
      assert m == [i] + rest[j];
      assert Prepend(i, rest)[j] == m;
      assert m in Prepend(i, rest);
    } else {
      BlocksComplete(n, k, i + 1, m);
    }
  }

  /** Membership in `multi_index_set(n, k)` is exactly: length n and total degree below k. */
  lemma MultiIndexSetMembership(n: nat, k: nat, m: seq<nat>)
    requires n >= 1
    ensures m in MultiIndexSet(n, k) <==> |m| == n && Total(m) < k
  {
    if |m| == n && Total(m) < k {
      MultiIndexSetComplete(n, k, m);
    }
  }

  predicate StrictlySorted(r: seq<seq<nat>>, n: nat)
    requires forall j :: 0 <= j < |r| ==> |r[j]| == n
  {
    forall a, b :: 0 <= a < b < |r| ==> LexLess(r[a], r[b])
  }

  /** Prepending one exponent keeps a sorted list sorted. */
  lemma PrependSorted(i: nat, ss: seq<seq<nat>>, n: nat)
    requires forall j :: 0 <= j < |ss| ==> |ss[j]| == n
    requires StrictlySorted(ss, n)
    ensures forall j :: 0 <= j < |ss| ==> |Prepend(i, ss)[j]| == n + 1
    ensures StrictlySorted(Prepend(i, ss), n + 1)
  {
    var r := Prepend(i, ss);
    forall a, b | 0 <= a < b < |r| ensures LexLess(r[a], r[b]) {
      assert r[a][1..] == ss[a] && r[b][1..] == ss[b];
    }
  }

  /** The entries are strictly increasing in lexicographic order. */
  lemma {:induction false} MultiIndexSetSorted(n: nat, k: nat)
    requires n >= 1
    ensures StrictlySorted(MultiIndexSet(n, k), n)
    decreases n, 1
  {
    if n >= 2 {
      BlocksSorted(n, k, 0);
    }
  }

  lemma {:induction false} BlocksSorted(n: nat, k: nat, i: nat)
    requires n >= 2 && i <= k
    ensures StrictlySorted(Blocks(n, k, i), n)
    decreases n, 0, k - i
  {
    if i < k {
      var rest := MultiIndexSet(n - 1, k - i);
      MultiIndexSetSorted(n - 1, k - i);
      PrependSorted(i, rest, n - 1);
      BlocksSorted(n, k, i + 1);
      var p := Prepend(i, rest);
      var q := Blocks(n, k, i + 1);
      var r := Blocks(n, k, i);
      assert r == p + q;
      forall a, b | 0 <= a < b < |r| ensures LexLess(r[a], r[b]) {
        if b < |p| {
          assert r[a] == p[a] && r[b] == p[b];
        } else if a >= |p| {
          assert r[a] == q[a - |p|] && r[b] == q[b - |p|];
        } else {
          assert r[a] == p[a] && r[a][0] == i;
          assert r[b] == q[b - |p|] && r[b][0] >= i + 1;
        }
      }
    }
  }

  lemma LexLessIrreflexive(a: seq<nat>)
    ensures !LexLess(a, a)
  {
    if |a| > 0 {
      LexLessIrreflexive(a[1..]);
    }
  }

  /** No multi-index is listed twice. */
  lemma MultiIndexSetDistinct(n: nat, k: nat)
    requires n >= 1
    ensures forall a, b :: 0 <= a < b < |MultiIndexSet(n, k)| ==>
      MultiIndexSet(n, k)[a] != MultiIndexSet(n, k)[b]
  {
    var r := MultiIndexSet(n, k);
    MultiIndexSetSorted(n, k);
    forall a, b | 0 <= a < b < |r| ensures r[a] != r[b] {
      LexLessIrreflexive(r[a]);
    }
  }

  /**
   * The regression basis of `Regression.__init__`: `multi_index_set` over
   * the number of control variables with budget max_polynomial_degree + 1.
   */
  function Basis(nControls: nat, maxDegree: nat): seq<seq<nat>>
    requires nControls >= 1
  {
    MultiIndexSet(nControls, maxDegree + 1)
  }

  /** The basis holds exactly the monomials of total degree at most maxDegree. */
  lemma BasisMembership(nControls: nat, maxDegree: nat, m: seq<nat>)
    requires nControls >= 1
    ensures m in Basis(nControls, maxDegree) <==> |m| == nControls && Total(m) <= maxDegree
  {
    MultiIndexSetMembership(nControls, maxDegree + 1, m);
  }

  /** x^e for a natural exponent; 0^0 = 1 as in Python. */
  function Power(x: real, e: nat): real {
    if e == 0 then 1.0 else x * Power(x, e - 1)
  }

  /** The product over j < |m| of c[j]^m[j], multiplied in from the first factor. */
  function Monomial(c: seq<real>, m: seq<nat>): real
    requires |m| <= |c|
  {
    if |m| == 0 then 1.0 else Monomial(c, m[..|m| - 1]) * Power(c[|m| - 1], m[|m| - 1])
  }

  /** Extending the multi-index prefix by one exponent multiplies in one more power. */
  lemma MonomialStep(c: seq<real>, m: seq<nat>, j: nat)
    requires j < |m| <= |c|
    ensures Monomial(c, m[..j + 1]) == Monomial(c, m[..j]) * Power(c[j], m[j])
  {
    assert m[..j + 1][..j] == m[..j];
  }

  /** The all-zero multi-index is the constant monomial 1. */
  lemma {:induction false} MonomialOfZeroIndex(c: seq<real>, m: seq<nat>)
    requires |m| <= |c| && forall j :: 0 <= j < |m| ==> m[j] == 0
    ensures Monomial(c, m) == 1.0
  {
    if |m| > 0 {
      MonomialOfZeroIndex(c, m[..|m| - 1]);
    }
  }

  /**
   * A multi-index with a single 1 at position j and zeros elsewhere is the
   * linear monomial c[j].
   */
  lemma {:induction false} MonomialOfUnitIndex(c: seq<real>, m: seq<nat>, j: nat)
    requires |m| <= |c| && j < |m| && m[j] == 1
    requires forall i :: 0 <= i < |m| && i != j ==> m[i] == 0
    ensures Monomial(c, m) == c[j]
  {
    var init := m[..|m| - 1];
    if j == |m| - 1 {
      MonomialOfZeroIndex(c, init);
      assert Power(c[j], 1) == c[j];
    } else {
      MonomialOfUnitIndex(c, init, j);
    }
  }

  /** One row length for every multi-index, as `np.array` of the index list demands. */
  predicate Rectangular(index: seq<seq<nat>>) {
    |index| >= 1 && forall i :: 0 <= i < |index| ==> |index[i]| == |index[0]|
  }

  /** `monomials(control)` for one control vector: x[i] is the i-th basis monomial. */
  method MonomialsOfVector(index: seq<seq<nat>>, control: seq<real>) returns (x: array<real>)
    requires Rectangular(index) && |index[0]| <= |control|
    ensures x.Length == |index|
    ensures forall i :: 0 <= i < |index| ==> x[i] == Monomial(control, index[i])
  {
    x := new real[|index|](_ => 1.0);
    var width := |index[0]|;
    for i := 0 to |index|
      invariant forall r :: 0 <= r < i ==> x[r] == Monomial(control, index[r])
      invariant forall r :: i <= r < |index| ==> x[r] == 1.0
    {
      for j := 0 to width
        invariant x[i] == Monomial(control, index[i][..j])
        invariant forall r :: 0 <= r < i ==> x[r] == Monomial(control, index[r])
        invariant forall r :: i < r < |index| ==> x[r] == 1.0
      {
        MonomialStep(control, index[i], j);
        x[i] := x[i] * Power(control[j], index[i][j]);
      }
      assert index[i][..width] == index[i];
    }
  }

  /** Column p of a matrix: the controls of path p. */
  function Column(control: Matrix, p: nat): (r: seq<real>)
    requires forall s :: 0 <= s < |control| ==> p < |control[s]|
    ensures |r| == |control| && forall s :: 0 <= s < |control| ==> r[s] == control[s][p]
  {
    seq(|control|, s requires 0 <= s < |control| => control[s][p])
  }

  /**
   * The inner loop of `monomials` for one basis function i: row i of x,
   * all ones, becomes the monomial with exponents e of every path's controls.
   */
  method MultiplyRow(x: array2<real>, i: nat, e: seq<nat>, control: Matrix)
    requires i < x.Length0 && |e| <= |control| && IsShape(control, |control|, x.Length1)
    requires forall p :: 0 <= p < x.Length1 ==> x[i, p] == 1.0
    modifies x
    ensures forall p :: 0 <= p < x.Length1 ==> x[i, p] == Monomial(Column(control, p), e)
    ensures forall r, p :: 0 <= r < x.Length0 && r != i && 0 <= p < x.Length1 ==> x[r, p] == old(x[r, p])
  {
    for j := 0 to |e|
      invariant forall p :: 0 <= p < x.Length1 ==> x[i, p] == Monomial(Column(control, p), e[..j])
      invariant forall r, p :: 0 <= r < x.Length0 && r != i && 0 <= p < x.Length1 ==> x[r, p] == old(x[r, p])
    {
      forall p | 0 <= p < x.Length1
        ensures Monomial(Column(control, p), e[..j + 1])
          == Monomial(Column(control, p), e[..j]) * Power(control[j][p], e[j])
      {
        MonomialStep(Column(control, p), e, j);
      }
      forall p | 0 <= p < x.Length1 {
        x[i, p] := x[i, p] * Power(control[j][p], e[j]);
      }
    }
    assert e[..|e|] == e;
  }

  /**
   * `monomials(control)` for a matrix of controls, one column per path:
   * x[i, p] is the i-th basis monomial of path p's controls.
   */
  method MonomialsOfPaths(index: seq<seq<nat>>, control: Matrix, nPaths: nat) returns (x: array2<real>)
    requires Rectangular(index) && |index[0]| <= |control| && IsShape(control, |control|, nPaths)
    ensures x.Length0 == |index| && x.Length1 == nPaths
    ensures forall i, p :: 0 <= i < |index| && 0 <= p < nPaths ==>
      x[i, p] == Monomial(Column(control, p), index[i])
  {
    x := new real[|index|, nPaths]((_, _) => 1.0);
    for i := 0 to |index|
      invariant forall r, p :: 0 <= r < i && 0 <= p < nPaths ==> x[r, p] == Monomial(Column(control, p), index[r])
      invariant forall r, p :: i <= r < |index| && 0 <= p < nPaths ==> x[r, p] == 1.0
    {
      MultiplyRow(x, i, index[i], control);
    }
  }
}
