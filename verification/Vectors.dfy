/** Real vectors and matrices as values, with the few identities that the factorisations, the
    triangular solves and the Gaussian process rely on.

    A vector is a sequence of reals, a matrix a sequence of rows. Products are taken over a leading
    part of given length, because the loops that compute them stop early; each is defined by
    recursion from the end, so that one more step of a loop is one unfolding. */
module Vectors {

  type Vec = seq<real>
  type Mat = seq<Vec>

  ghost predicate Shape(a: Mat, rows: nat, cols: nat) {
    |a| == rows && forall i :: 0 <= i < rows ==> |a[i]| == cols
  }

  function Zeros(n: nat): Vec {
    seq(n, _ => 0.0)
  }

  function ZeroMat(n: nat): Mat {
    seq(n, _ => Zeros(n))
  }

  /** The sum of u[k] * v[k] over k < m. */
  function Dot(u: Vec, v: Vec, m: nat): real
    requires m <= |u| && m <= |v|
  {
    if m == 0 then 0.0 else Dot(u, v, m - 1) + u[m - 1] * v[m - 1]
  }

  /** The sum of x[t] * a[t][c] over lo <= t < hi: part of column c of a, weighted by x. */
  function ColSum(x: Vec, a: Mat, c: nat, lo: nat, hi: nat): real
    requires lo <= hi <= |x| && hi <= |a|
    requires forall t :: lo <= t < hi ==> c < |a[t]|
  {
    if lo == hi then 0.0 else ColSum(x, a, c, lo, hi - 1) + x[hi - 1] * a[hi - 1][c]
  }

  /** The products of the first m rows of a with x, over the first p columns. */
  function MatVec(a: Mat, x: Vec, m: nat, p: nat): (r: Vec)
    requires m <= |a| && p <= |x|
    requires forall i :: 0 <= i < m ==> p <= |a[i]|
  {
    seq(m, i requires 0 <= i < m => Dot(a[i], x, p))
  }

  /** The combination of the first m rows of a with coefficients x, on the first p columns. */
  function VecMat(x: Vec, a: Mat, m: nat, p: nat): (r: Vec)
    requires m <= |a| && m <= |x|
    requires forall i :: 0 <= i < m ==> p <= |a[i]|
  {
    seq(p, c requires 0 <= c < p => ColSum(x, a, c, 0, m))
  }

  function Column(a: Mat, c: nat): (r: Vec)
    requires forall i :: 0 <= i < |a| ==> c < |a[i]|
  {
    seq(|a|, i requires 0 <= i < |a| => a[i][c])
  }

  lemma SameProduct(a: real, a': real, b: real, b': real)
    requires a == a' && b == b'
    ensures a * b == a' * b'
  {
  }

  lemma {:induction false} DotCommutes(u: Vec, v: Vec, m: nat)
    requires m <= |u| && m <= |v|
    ensures Dot(u, v, m) == Dot(v, u, m)
  {
    if m > 0 {
      DotCommutes(u, v, m - 1);
    }
  }

  lemma {:induction false} DotAgrees(u: Vec, u': Vec, v: Vec, v': Vec, m: nat)
    requires m <= |u| && m <= |u'| && m <= |v| && m <= |v'|
    requires forall k :: 0 <= k < m ==> u[k] == u'[k] && v[k] == v'[k]
    ensures Dot(u, v, m) == Dot(u', v', m)
  {
    if m > 0 {
      DotAgrees(u, u', v, v', m - 1);
      SameProduct(u[m - 1], u'[m - 1], v[m - 1], v'[m - 1]);
    }
  }

  lemma Distribute(b: real, s: real, c: real, x: real)
    ensures (b + s * c) * x == b * x + s * (c * x)
  {
  }

  lemma SquareNonNegative(x: real)
    ensures x * x >= 0.0
    ensures x != 0.0 ==> x * x > 0.0
  {
  }

  /** A dot product is linear in its first argument. */
  lemma {:induction false} DotLinear(w: Vec, u: Vec, s: real, v: Vec, x: Vec, m: nat)
    requires m <= |w| && m <= |u| && m <= |v| && m <= |x|
    requires forall k :: 0 <= k < m ==> w[k] == u[k] + s * v[k]
    ensures Dot(w, x, m) == Dot(u, x, m) + s * Dot(v, x, m)
  {
    if m > 0 {
      DotLinear(w, u, s, v, x, m - 1);
      Distribute(u[m - 1], s, v[m - 1], x[m - 1]);
    }
  }

  lemma {:induction false} DotZero(u: Vec, x: Vec, lo: nat, m: nat)
    requires lo <= m <= |u| && m <= |x|
    requires forall k :: lo <= k < m ==> u[k] * x[k] == 0.0
    ensures Dot(u, x, m) == Dot(u, x, lo)
  {
    if lo < m {
      DotZero(u, x, lo, m - 1);
    }
  }

  lemma {:induction false} ColSumIsDot(x: Vec, a: Mat, c: nat, m: nat)
    requires m <= |x| && m <= |a|
    requires forall t :: 0 <= t < |a| ==> c < |a[t]|
    ensures ColSum(x, a, c, 0, m) == Dot(x, Column(a, c), m)
  {
    if m > 0 {
      ColSumIsDot(x, a, c, m - 1);
    }
  }

  lemma {:induction false} ColSumSplit(x: Vec, a: Mat, c: nat, lo: nat, mid: nat, hi: nat)
    requires lo <= mid <= hi <= |x| && hi <= |a|
    requires forall t :: lo <= t < hi ==> c < |a[t]|
    ensures ColSum(x, a, c, lo, hi) == ColSum(x, a, c, lo, mid) + ColSum(x, a, c, mid, hi)
  {
    if mid < hi {
      ColSumSplit(x, a, c, lo, mid, hi - 1);
    }
  }

  lemma {:induction false} ColSumAgrees(x: Vec, x': Vec, a: Mat, c: nat, lo: nat, hi: nat)
    requires lo <= hi <= |x| && hi <= |x'| && hi <= |a|
    requires forall t :: lo <= t < hi ==> c < |a[t]|
    requires forall t :: lo <= t < hi ==> x[t] == x'[t]
    ensures ColSum(x, a, c, lo, hi) == ColSum(x', a, c, lo, hi)
  {
    if lo < hi {
      ColSumAgrees(x, x', a, c, lo, hi - 1);
      SameProduct(x[hi - 1], x'[hi - 1], a[hi - 1][c], a[hi - 1][c]);
    }
  }

  lemma {:induction false} ColSumZero(x: Vec, a: Mat, c: nat, lo: nat, hi: nat)
    requires lo <= hi <= |x| && hi <= |a|
    requires forall t :: lo <= t < hi ==> c < |a[t]|
    requires forall t :: lo <= t < hi ==> x[t] * a[t][c] == 0.0
    ensures ColSum(x, a, c, lo, hi) == 0.0
  {
    if lo < hi {
      ColSumZero(x, a, c, lo, hi - 1);
    }
  }

  /** Exchange of summation order: r . (a x) == (r a) . x on the leading m by p block. */
  lemma {:induction false} Adjoint(r: Vec, a: Mat, x: Vec, m: nat, p: nat)
    requires m <= |a| && m <= |r| && p <= |x|
    requires forall i :: 0 <= i < m ==> p <= |a[i]|
    ensures Dot(r, MatVec(a, x, m, p), m) == Dot(VecMat(r, a, m, p), x, p)
  {
    if m == 0 {
      DotZero(VecMat(r, a, 0, p), x, 0, p);
    } else {
      hide *;
      Adjoint(r, a, x, m - 1, p);
      MoreRows(r, a, x, m, p);
      MoreCoefficients(r, a, x, m, p);
    }
  }

  lemma MoreRows(r: Vec, a: Mat, x: Vec, m: nat, p: nat)
    requires 0 < m <= |a| && m <= |r| && p <= |x|
    requires forall i :: 0 <= i < m ==> p <= |a[i]|
    ensures Dot(r, MatVec(a, x, m, p), m) == Dot(r, MatVec(a, x, m - 1, p), m - 1) + r[m - 1] * Dot(a[m - 1], x, p)
  {
    DotAgrees(r, r, MatVec(a, x, m, p), MatVec(a, x, m - 1, p), m - 1);
  }

  lemma MoreCoefficients(r: Vec, a: Mat, x: Vec, m: nat, p: nat)
    requires 0 < m <= |a| && m <= |r| && p <= |x|
    requires forall i :: 0 <= i < m ==> p <= |a[i]|
    ensures Dot(VecMat(r, a, m, p), x, p) == Dot(VecMat(r, a, m - 1, p), x, p) + r[m - 1] * Dot(a[m - 1], x, p)
  {
    hide Dot;
    DotLinear(VecMat(r, a, m, p), VecMat(r, a, m - 1, p), r[m - 1], a[m - 1], x, p);
  }

  lemma {:induction false} SquaresNonNegative(x: Vec, m: nat)
    requires m <= |x|
    ensures Dot(x, x, m) >= 0.0
  {
    if m > 0 {
      SquaresNonNegative(x, m - 1);
      SquareNonNegative(x[m - 1]);
    }
  }

  /** Stated for two equal vectors, because the solver handles x * y better than x * x. */
  lemma {:induction false} NormPositive(x: Vec, y: Vec, k: nat, m: nat)
    requires k < m <= |x| && m <= |y|
    requires forall t :: 0 <= t < m ==> x[t] == y[t]
    requires x[k] != 0.0
    ensures Dot(x, y, m) > 0.0
  {
    DotAgrees(x, x, y, x, m - 1);
    SquaresNonNegative(x, m - 1);
    SameSign(x[m - 1], y[m - 1]);
    if k < m - 1 {
      NormPositive(x, y, k, m - 1);
    }
  }

  lemma SameSign(a: real, b: real)
    requires a == b
    ensures a * b >= 0.0
    ensures a != 0.0 ==> a * b > 0.0
  {
  }
}
