/**
 * The numpy primitives the pricing engine relies on, stated over `real`.
 * Arrays of states are matrices (rows are state dimensions, columns are
 * grid points or paths); a one-dimensional grid is the one-row matrix.
 */
module NumPy {

  datatype Option<+T> = None | Some(value: T)

  datatype Result<+R, +E> = Success(value: R) | Failure(error: E)

  type Matrix = seq<seq<real>>

  /** Number of columns, `x.shape[-1]`; a matrix without rows has none. */
  function Cols(x: Matrix): nat {
    if |x| == 0 then 0 else |x[0]|
  }

  predicate IsShape(x: Matrix, rows: nat, cols: nat) {
    |x| == rows && forall r :: 0 <= r < rows ==> |x[r]| == cols
  }

  /** Two matrices of one shape with the same entries are equal. */
  lemma SameMatrix(a: Matrix, b: Matrix, rows: nat, cols: nat)
    requires IsShape(a, rows, cols) && IsShape(b, rows, cols)
    requires forall r, c :: 0 <= r < rows && 0 <= c < cols ==> a[r][c] == b[r][c]
    ensures a == b
  {
    forall r | 0 <= r < rows ensures a[r] == b[r] {
      assert forall c :: 0 <= c < cols ==> a[r][c] == b[r][c];
    }
  }

  function Abs(x: real): (r: real)
    ensures r >= 0.0 && (r == x || r == -x)
  {
    if x < 0.0 then -x else x
  }

  function Max(a: real, b: real): (r: real)
    ensures r >= a && r >= b && (r == a || r == b)
  {
    if a >= b then a else b
  }

  predicate NonDecreasing(s: seq<real>) {
    forall i, j :: 0 <= i < j < |s| ==> s[i] <= s[j]
  }

  predicate StrictlyIncreasing(s: seq<real>) {
    forall i, j :: 0 <= i < j < |s| ==> s[i] < s[j]
  }

  /** `np.zeros(n)` */
  function Zeros(n: nat): (r: seq<real>)
    ensures |r| == n && forall i :: 0 <= i < n ==> r[i] == 0.0
  {
    seq(n, _ => 0.0)
  }

  /** `np.maximum(u, h)` on two arrays of one length. */
  function Maximum(u: seq<real>, h: seq<real>): (r: seq<real>)
    requires |u| == |h|
    ensures |r| == |u|
    ensures forall i :: 0 <= i < |u| ==> r[i] == Max(u[i], h[i])
  {
    seq(|u|, i requires 0 <= i < |u| => Max(u[i], h[i]))
  }

  /** `u + v` on two arrays of one length. */
  function Add(u: seq<real>, v: seq<real>): (r: seq<real>)
    requires |u| == |v|
    ensures |r| == |u|
    ensures forall i :: 0 <= i < |u| ==> r[i] == u[i] + v[i]
  {
    seq(|u|, i requires 0 <= i < |u| => u[i] + v[i])
  }

  /** `u - v` on two arrays of one length. */
  function Subtract(u: seq<real>, v: seq<real>): (r: seq<real>)
    requires |u| == |v|
    ensures |r| == |u|
    ensures forall i :: 0 <= i < |u| ==> r[i] == u[i] - v[i]
  {
    seq(|u|, i requires 0 <= i < |u| => u[i] - v[i])
  }

  /**
   * `np.searchsorted(s, t)` (side 'left'): the first index whose entry is not
   * below t.  numpy requires s to be sorted; on sorted input its bisection
   * and this scan agree.
   */
  function SearchSorted(s: seq<real>, t: real): (r: nat)
    requires NonDecreasing(s)
    ensures r <= |s|
    ensures forall i :: 0 <= i < r ==> s[i] < t
    ensures forall i :: r <= i < |s| ==> s[i] >= t
  {
    if |s| == 0 || s[0] >= t then 0 else 1 + SearchSorted(s[1..], t)
  }

  /** On strictly increasing entries, searchsorted finds each entry at its own index. */
  lemma {:induction false} SearchSortedAtEntry(s: seq<real>, i: nat)
    requires StrictlyIncreasing(s) && i < |s|
    ensures SearchSorted(s, s[i]) == i
  {
    if i > 0 {
      assert s[1..][i - 1] == s[i];
      SearchSortedAtEntry(s[1..], i - 1);
    }
  }

  /** Sum of the entries, added from the first to the last. */
  function Sum(s: seq<real>): real {
    if |s| == 0 then 0.0 else Sum(s[..|s| - 1]) + s[|s| - 1]
  }

  lemma {:induction false} SumConcat(a: seq<real>, b: seq<real>)
    ensures Sum(a + b) == Sum(a) + Sum(b)
    decreases |b|
  {
    if |b| > 0 {
      assert (a + b)[..|a + b| - 1] == a + b[..|b| - 1];
      SumConcat(a, b[..|b| - 1]);
    } else {
      assert a + b == a;
    }
  }

  /** Every entry multiplied by l. */
  function Scale(l: real, s: seq<real>): (r: seq<real>)
    ensures |r| == |s| && forall i :: 0 <= i < |s| ==> r[i] == l * s[i]
  {
    seq(|s|, i requires 0 <= i < |s| => l * s[i])
  }

  lemma {:induction false} SumScale(l: real, s: seq<real>)
    ensures Sum(Scale(l, s)) == l * Sum(s)
  {
    if |s| > 0 {
      var n := |s| - 1;
      var front := Scale(l, s[..n]);
      assert forall i :: 0 <= i < n ==> Scale(l, s)[..n][i] == front[i];
      assert Scale(l, s)[..n] == front;
      SumScale(l, s[..n]);
      assert Sum(Scale(l, s)) == l * Sum(s[..n]) + l * s[n];
    }
  }

  /** Scaling the entries and dividing the sum by b divides the unscaled sum by b. */
  lemma SumScaleDiv(l: real, s: seq<real>, b: real)
    requires b != 0.0
    ensures Sum(Scale(l, s)) / b == l * (Sum(s) / b)
  {
    SumScale(l, s);
    assert l * Sum(s) / b == l * (Sum(s) / b);
  }

  /** `s[1:] - s[:-1]`: the differences of consecutive entries. */
  function Diff(s: seq<real>): (r: seq<real>)
    ensures |r| == if |s| == 0 then 0 else |s| - 1
    ensures forall k :: 0 <= k < |r| ==> r[k] == s[k + 1] - s[k]
  {
    if |s| == 0 then [] else seq(|s| - 1, k requires 0 <= k < |s| - 1 => s[k + 1] - s[k])
  }

  /** The differences of consecutive entries sum to the last entry less the first. */
  lemma {:induction false} SumDiff(s: seq<real>)
    requires |s| >= 1
    ensures Sum(Diff(s)) == s[|s| - 1] - s[0]
  {
    if |s| >= 2 {
      var n := |s|;
      var front := s[..n - 1];
      var d, e := Diff(s), Diff(front);
      assert |d[..n - 2]| == |e|;
      assert forall k :: 0 <= k < n - 2 ==> d[..n - 2][k] == e[k];
      assert d[..n - 2] == e;
      SumDiff(front);
      assert Sum(d) == Sum(e) + d[n - 2];
    }
  }

  /** Multiplying by a non-negative factor keeps the order. */
  lemma MulMonotone(c: real, a: real, b: real)
    requires c >= 0.0 && a <= b
    ensures c * a <= c * b
  {
    assert c * b - c * a == c * (b - a);
  }

  /** Entries at least lo add up to at least |s| lo. */
  lemma {:induction false} SumAtLeast(s: seq<real>, lo: real)
    requires forall i :: 0 <= i < |s| ==> lo <= s[i]
    ensures (|s| as real) * lo <= Sum(s)
  {
    if |s| > 0 {
      var n := |s| - 1;
      assert forall i :: 0 <= i < n ==> s[..n][i] == s[i];
      SumAtLeast(s[..n], lo);
      assert (|s| as real) * lo == (n as real) * lo + lo;
    }
  }

  /** Entries at most hi add up to at most |s| hi. */
  lemma {:induction false} SumAtMost(s: seq<real>, hi: real)
    requires forall i :: 0 <= i < |s| ==> s[i] <= hi
    ensures Sum(s) <= (|s| as real) * hi
  {
    if |s| > 0 {
      var n := |s| - 1;
      assert forall i :: 0 <= i < n ==> s[..n][i] == s[i];
      SumAtMost(s[..n], hi);
      assert (|s| as real) * hi == (n as real) * hi + hi;
    }
  }

  /** `np.mean(s)` of a non-empty array. */
  function Mean(s: seq<real>): real
    requires |s| > 0
  {
    Sum(s) / (|s| as real)
  }

  /** The mean lies between any lower and upper bound of the values; the mean of equal values is that value. */
  lemma MeanBounds(s: seq<real>, lo: real, hi: real)
    requires |s| > 0 && forall i :: 0 <= i < |s| ==> lo <= s[i] <= hi
    ensures lo <= Mean(s) <= hi
  {
    var n := |s| as real;
    SumAtLeast(s, lo);
    SumAtMost(s, hi);
    assert n * lo / n == lo && n * hi / n == hi;
  }

  /** Python's `s[k:]`, where a negative k counts from the end. */
  function SliceFrom<T>(s: seq<T>, k: int): (r: seq<T>)
    ensures k >= 0 ==> r == if k <= |s| then s[k..] else []
    ensures k < 0 ==> r == if -k <= |s| then s[|s| + k..] else s
  {
    if k >= 0 then (if k <= |s| then s[k..] else [])
    else if -k <= |s| then s[|s| + k..] else s
  }

  /** Python's `s[:k]` for k >= 0. */
  function SliceTo<T>(s: seq<T>, k: nat): (r: seq<T>)
    ensures |r| == if k <= |s| then k else |s|
    ensures forall i :: 0 <= i < |r| ==> r[i] == s[i]
  {
    if k <= |s| then s[..k] else s
  }

  /** `x[:, :k]`: the first k columns of every row. */
  function ColumnsTo(x: Matrix, k: nat): (r: Matrix)
    ensures |r| == |x|
    ensures forall i :: 0 <= i < |x| ==> r[i] == SliceTo(x[i], k)
  {
    seq(|x|, i requires 0 <= i < |x| => SliceTo(x[i], k))
  }

  /** `np.linspace(lo, hi, n)` */
  function Linspace(lo: real, hi: real, n: nat): (r: seq<real>)
    ensures |r| == n
  {
    if n == 1 then [lo]
    else seq(n, i requires 0 <= i < n => lo + (i as real) * (hi - lo) / ((n - 1) as real))
  }

  lemma LinspaceEnds(lo: real, hi: real, n: nat)
    requires n >= 2
    ensures Linspace(lo, hi, n)[0] == lo && Linspace(lo, hi, n)[n - 1] == hi
  {
    var d := (n - 1) as real;
    assert ((n - 1) as real) * (hi - lo) / d == hi - lo;
  }

  /** Consecutive points of a linspace are one step apart. */
  lemma LinspaceStep(lo: real, hi: real, n: nat, i: nat)
    requires n >= 2 && i + 1 < n
    ensures Linspace(lo, hi, n)[i + 1] - Linspace(lo, hi, n)[i] == (hi - lo) / ((n - 1) as real)
  {
    var step := (hi - lo) / ((n - 1) as real);
    LinspaceAt(lo, hi, n, i);
    LinspaceAt(lo, hi, n, i + 1);
    assert ((i + 1) as real) * step == (i as real) * step + step;
  }

  /** Products and quotients of positive reals are positive. */
  lemma PositiveProduct(a: real, b: real, d: real)
    requires a > 0.0 && b > 0.0 && d > 0.0
    ensures a * b / d > 0.0
  {
    assert a * b > 0.0;
  }

  /** The i-th point of an n-point linspace is lo plus i steps. */
  lemma LinspaceAt(lo: real, hi: real, n: nat, i: nat)
    requires n >= 2 && i < n
    ensures Linspace(lo, hi, n)[i] == lo + (i as real) * ((hi - lo) / ((n - 1) as real))
  {
    var d := (n - 1) as real;
    var step := (hi - lo) / d;
    assert step * d == hi - lo;
    assert (i as real) * (hi - lo) == (i as real) * step * d;
  }

  /**
   * A linspace over [-w, w] with at least two points is symmetric about zero
   * (numpy's one-point linspace is [-w]).
   */
  lemma LinspaceSymmetric(w: real, n: nat, i: nat)
    requires 2 <= n && i < n
    ensures Linspace(-w, w, n)[i] == -Linspace(-w, w, n)[n - 1 - i]
  {
    var d := (n - 1) as real;
    var step := (w - -w) / d;
    var j := n - 1 - i;
    LinspaceAt(-w, w, n, i);
    LinspaceAt(-w, w, n, j);
    var x := Linspace(-w, w, n);
    assert x[i] == -w + (i as real) * step;
    assert x[j] == -w + (j as real) * step;
    assert (j as real) == d - (i as real);
    assert step * d == 2.0 * w;
    assert (i as real) * step + (j as real) * step == d * step;
    assert x[i] + x[j] == 0.0;
  }

  /** A linspace with lo < hi is strictly increasing. */
  lemma LinspaceIncreasing(lo: real, hi: real, n: nat)
    requires lo < hi
    ensures StrictlyIncreasing(Linspace(lo, hi, n))
  {
    if n >= 2 {
      var d := (n - 1) as real;
      var step := (hi - lo) / d;
      PositiveProduct(1.0, hi - lo, d);
      forall i, j | 0 <= i < j < n ensures Linspace(lo, hi, n)[i] < Linspace(lo, hi, n)[j] {
        LinspaceAt(lo, hi, n, i);
        LinspaceAt(lo, hi, n, j);
        assert (j as real) * step == (i as real) * step + ((j - i) as real) * step;
        PositiveProduct((j - i) as real, step, 1.0);
      }
    }
  }

  /** The index j with xp[j] <= x < xp[j + 1]. */
  function Bracket(xp: seq<real>, x: real): (j: nat)
    requires |xp| >= 2 && xp[0] <= x < xp[|xp| - 1]
    ensures j + 1 < |xp| && xp[j] <= x < xp[j + 1]
  {
    if x < xp[1] then 0 else 1 + Bracket(xp[1..], x)
  }

  /**
   * `np.interp(x, xp, fp)`: piecewise-linear interpolation with the end values
   * held flat outside [xp[0], xp[-1]].  numpy rejects an empty or mismatched
   * pair of arrays; it assumes xp increasing without checking it.
   */
  function Interp(x: real, xp: seq<real>, fp: seq<real>): (r: Option<real>)
    ensures r.None? <==> |xp| == 0 || |xp| != |fp|
  {
    if |xp| == 0 || |xp| != |fp| then None
    else if x <= xp[0] then Some(fp[0])
    else if x >= xp[|xp| - 1] then Some(fp[|fp| - 1])
    else
      var j := Bracket(xp, x);
      Some(Lerp(fp[j], fp[j + 1], x - xp[j], xp[j + 1] - xp[j]))
  }

  /** The point a fraction dx / w of the way from a to b. */
  function Lerp(a: real, b: real, dx: real, w: real): real
    requires w != 0.0
  {
    a + dx * (b - a) / w
  }

  /** A point of the segment from a to b lies within any bounds of a and b. */
  lemma SegmentBounds(a: real, b: real, dx: real, w: real, lo: real, hi: real)
    requires 0.0 <= dx <= w && w > 0.0 && lo <= a <= hi && lo <= b <= hi
    ensures lo <= Lerp(a, b, dx, w) <= hi
  {
    var t := dx / w;
    var u := 1.0 - t;
    assert 0.0 <= t <= 1.0 && u >= 0.0;
    assert Lerp(a, b, dx, w) == a + dx * (b - a) / w == u * a + t * b;
    MulMonotone(u, lo, a);
    MulMonotone(u, a, hi);
    MulMonotone(t, lo, b);
    MulMonotone(t, b, hi);
    Sandwich(lo, hi, u * lo, u * a, u * hi, t * lo, t * b, t * hi);
  }

  /** Adding two pairs of ordered terms whose bounds add up to lo and hi. */
  lemma Sandwich(lo: real, hi: real, ul: real, ua: real, uh: real, tl: real, tb: real, th: real)
    requires ul <= ua <= uh && tl <= tb <= th && ul + tl == lo && uh + th == hi
    ensures lo <= ua + tb <= hi
  {
  }

  /** The interpolant never leaves the range of the sample values: no overshoot. */
  lemma InterpBounds(x: real, xp: seq<real>, fp: seq<real>, lo: real, hi: real)
    requires Interp(x, xp, fp).Some?
    requires forall i :: 0 <= i < |fp| ==> lo <= fp[i] <= hi
    ensures lo <= Interp(x, xp, fp).value <= hi
  {
    if xp[0] < x < xp[|xp| - 1] {
      var j := Bracket(xp, x);
      SegmentBounds(fp[j], fp[j + 1], x - xp[j], xp[j + 1] - xp[j], lo, hi);
    } else {
      assert lo <= fp[0] <= hi && lo <= fp[|fp| - 1] <= hi;
    }
  }

  /** At a single sample point the interpolant is that point's value. */
  lemma InterpSinglePoint(x: real, xp: seq<real>, fp: seq<real>)
    requires |xp| == 1 && |fp| == 1
    ensures Interp(x, xp, fp) == Some(fp[0])
  {
  }

  /** On strictly increasing sample points the interpolant hits every sample. */
  lemma InterpAtKnot(xp: seq<real>, fp: seq<real>, k: nat)
    requires |xp| == |fp| && k < |xp| && StrictlyIncreasing(xp)
    ensures Interp(xp[k], xp, fp) == Some(fp[k])
  {
  }
}
