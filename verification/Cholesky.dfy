/** Why the Cholesky factorisation succeeds exactly on the positive definite matrices. */
module Cholesky {
  import opened Reals
  import opened Vectors

  /** The laws the square root of the runtime library obeys when rounding is ignored. */
  lemma SqrtPositive(sqrt: real -> real, x: real)
    requires IsSqrt(sqrt) && x > 0.0
    ensures sqrt(x) > 0.0 && sqrt(x) * sqrt(x) == x
  {
    var s := sqrt(x);
    NonZeroSquare(s);
  }

  lemma NonZeroSquare(s: real)
    ensures s * s != 0.0 ==> s != 0.0
  {
  }

  ghost predicate Symmetric(a: Mat, n: nat) {
    Shape(a, n, n) && forall i, j :: 0 <= i < n && 0 <= j < n ==> a[i][j] == a[j][i]
  }

  /** The symmetric matrix with the lower triangle of a. */
  function LowerSym(a: Mat, n: nat): (s: Mat)
    requires Shape(a, n, n)
    ensures Shape(s, n, n)
  {
    seq(n, i requires 0 <= i < n => seq(n, j requires 0 <= j < n => if j <= i then a[i][j] else a[j][i]))
  }

  lemma LowerSymOf(a: Mat, n: nat)
    requires Shape(a, n, n)
    ensures Symmetric(LowerSym(a, n), n)
    ensures Symmetric(a, n) <==> LowerSym(a, n) == a
    ensures forall i, j :: 0 <= j <= i < n ==> LowerSym(a, n)[i][j] == a[i][j]
  {
    var s := LowerSym(a, n);
    if Symmetric(a, n) {
      forall i | 0 <= i < n ensures s[i] == a[i] {
        assert forall j :: 0 <= j < n ==> s[i][j] == a[i][j];
      }
    }
  }

  /** The quadratic form x . (a x) on the leading m by m block. */
  function Quad(a: Mat, x: Vec, m: nat): real
    requires m <= |a| && m <= |x|
    requires forall i :: 0 <= i < m ==> m <= |a[i]|
  {
    Dot(x, MatVec(a, x, m, m), m)
  }

  ghost predicate PositiveDefinite(a: Mat, n: nat)
    requires Shape(a, n, n)
  {
    forall x: Vec :: |x| == n && x != Zeros(n) ==> Quad(a, x, n) > 0.0
  }

  ghost predicate LowerTriangular(l: Mat, n: nat) {
    Shape(l, n, n) && forall i, j :: 0 <= i < j < n ==> l[i][j] == 0.0
  }

  /** The product of l with its transpose reproduces entry (r, c) of a, c <= r. */
  ghost predicate Reproduces(a: Mat, l: Mat, n: nat, r: nat, c: nat)
    requires Shape(a, n, n) && Shape(l, n, n) && c <= r < n
  {
    Dot(l[r], l[c], c + 1) == a[r][c]
  }

  ghost predicate Factor(a: Mat, l: Mat, n: nat) {
    && Shape(a, n, n) && LowerTriangular(l, n)
    && (forall i :: 0 <= i < n ==> l[i][i] > 0.0)
    && (forall r, c :: 0 <= c <= r < n ==> Reproduces(a, l, n, r, c))
  }

  /** Position (r, c) comes before (i, j) in the row by row order of the factorisation. */
  predicate Before(r: int, c: int, i: int, j: int) {
    r < i || (r == i && c < j)
  }

  /** The state of the factorisation when the entries before (i, j) have been computed. */
  ghost predicate PartialFactor(a: Mat, l: Mat, n: nat, i: nat, j: nat) {
    && Shape(a, n, n) && Shape(l, n, n)
    && (forall r, c :: 0 <= r < n && 0 <= c < n && (r < c || !Before(r, c, i, j)) ==> l[r][c] == 0.0)
    && (forall r :: 0 <= r < n && Before(r, r, i, j) ==> l[r][r] > 0.0)
    && (forall r, c :: 0 <= c <= r < n && Before(r, c, i, j) ==> Reproduces(a, l, n, r, c))
  }

  lemma ProductKept(a: Mat, l: Mat, n: nat, i: nat, j: nat, v: real, r: nat, c: nat)
    requires Shape(a, n, n) && Shape(l, n, n) && j <= i < n && c <= r < n
    requires Before(r, c, i, j) && Reproduces(a, l, n, r, c)
    ensures Reproduces(a, l[i := l[i][j := v]], n, r, c)
  {
    var l' := l[i := l[i][j := v]];
    DotAgrees(l'[r], l[r], l'[c], l[c], c + 1);
  }

  lemma ProductWritten(a: Mat, l: Mat, n: nat, i: nat, j: nat, v: real)
    requires Shape(a, n, n) && Shape(l, n, n) && j <= i < n
    requires Dot(l[i], l[j], j) + v * (if i == j then v else l[j][j]) == a[i][j]
    ensures Reproduces(a, l[i := l[i][j := v]], n, i, j)
  {
    var l' := l[i := l[i][j := v]];
    DotAgrees(l'[i], l[i], l'[j], l[j], j);
    assert l'[i][j] == v && l'[j][j] == if i == j then v else l[j][j];
  }

  /** Writing one more entry, chosen so that its own product comes out right, keeps the rest. */
  lemma {:induction false} EntryWritten(a: Mat, l: Mat, n: nat, i: nat, j: nat, v: real)
    requires PartialFactor(a, l, n, i, j) && j <= i < n
    requires i == j ==> v > 0.0
    requires Dot(l[i], l[j], j) + v * (if i == j then v else l[j][j]) == a[i][j]
    ensures PartialFactor(a, l[i := l[i][j := v]], n, i, j + 1)
  {
    var l' := l[i := l[i][j := v]];
    forall r, c | 0 <= c <= r < n && Before(r, c, i, j + 1) ensures Reproduces(a, l', n, r, c) {
      if r == i && c == j {
        ProductWritten(a, l, n, i, j, v);
      } else {
        ProductKept(a, l, n, i, j, v, r, c);
      }
    }
  }

  /** With zeros above the diagonal, the product of two rows may be taken over any longer prefix. */
  lemma RowProduct(a: Mat, l: Mat, n: nat, r: nat, c: nat, p: nat)
    requires Shape(a, n, n) && Shape(l, n, n) && c <= r < n && c < p <= n
    requires Reproduces(a, l, n, r, c)
    requires forall k :: c < k < p ==> l[c][k] == 0.0
    ensures Dot(l[r], l[c], p) == a[r][c]
  {
    DotZero(l[r], l[c], c + 1, p);
  }

  /** If a is the matrix of row products of l on the leading block, its quadratic form is a sum of squares. */
  lemma GramQuad(a: Mat, l: Mat, x: Vec, m: nat, p: nat)
    requires m <= |a| && m <= |l| && m <= |x|
    requires forall i :: 0 <= i < m ==> m <= |a[i]| && p <= |l[i]|
    requires forall r, c :: 0 <= r < m && 0 <= c < m ==> a[r][c] == Dot(l[r], l[c], p)
    ensures Quad(a, x, m) == Dot(VecMat(x, l, m, p), VecMat(x, l, m, p), p)
  {
    var g := VecMat(x, l, m, p);
    var ax := MatVec(a, x, m, m);
    var lg := MatVec(l, g, m, p);
    forall r | 0 <= r < m ensures ax[r] == lg[r] {
      GramRow(a, l, x, m, p, r);
    }
    DotAgrees(x, x, ax, lg, m);
    Adjoint(x, l, g, m, p);
  }

  lemma GramRow(a: Mat, l: Mat, x: Vec, m: nat, p: nat, r: nat)
    requires r < m <= |a| && m <= |l| && m <= |x|
    requires forall i :: 0 <= i < m ==> m <= |a[i]| && p <= |l[i]|
    requires forall c :: 0 <= c < m ==> a[r][c] == Dot(l[r], l[c], p)
    ensures Dot(a[r], x, m) == Dot(l[r], VecMat(x, l, m, p), p)
  {
    var row := MatVec(l, l[r], m, p);
    forall c | 0 <= c < m ensures a[r][c] == row[c] {
      DotCommutes(l[r], l[c], p);
    }
    DotAgrees(a[r], row, x, x, m);
    DotCommutes(row, x, m);
    Adjoint(x, l, l[r], m, p);
    DotCommutes(VecMat(x, l, m, p), l[r], p);
  }

  /** All row products of a factor, in both triangles. */
  lemma FactorProducts(a: Mat, l: Mat, n: nat)
    requires Symmetric(a, n) && Factor(a, l, n)
    ensures forall r, c :: 0 <= r < n && 0 <= c < n ==> a[r][c] == Dot(l[r], l[c], n)
  {
    forall r, c | 0 <= r < n && 0 <= c < n ensures a[r][c] == Dot(l[r], l[c], n) {
      if c <= r {
        assert Reproduces(a, l, n, r, c);
        RowProduct(a, l, n, r, c, n);
      } else {
        assert Reproduces(a, l, n, c, r);
        RowProduct(a, l, n, c, r, n);
        DotCommutes(l[r], l[c], n);
      }
    }
  }

  /** The last non-zero coordinate of x. */
  lemma LastNonZero(x: Vec, n: nat) returns (m: nat)
    requires |x| == n && x != Zeros(n)
    ensures m < n && x[m] != 0.0 && forall k :: m < k < n ==> x[k] == 0.0
  {
    m := n;
    while m > 0 && x[m - 1] == 0.0
      invariant m <= n
      invariant forall k :: m <= k < n ==> x[k] == 0.0
    {
      m := m - 1;
    }
    assert m == 0 ==> x == Zeros(n);
    m := m - 1;
  }

  /** The transpose of a lower triangular matrix with non-zero diagonal is injective. */
  lemma TransposeInjective(l: Mat, x: Vec, n: nat, m: nat)
    requires LowerTriangular(l, n) && m < n == |x| && l[m][m] != 0.0
    requires x[m] != 0.0 && forall k :: m < k < n ==> x[k] == 0.0
    ensures VecMat(x, l, n, n)[m] != 0.0
  {
    ColSumSplit(x, l, m, 0, m + 1, n);
    ColSumZero(x, l, m, m + 1, n);
    ColSumZero(x, l, m, 0, m);
    ProductNonZero(x[m], l[m][m]);
  }

  lemma ProductNonZero(x: real, y: real)
    requires x != 0.0 && y != 0.0
    ensures x * y != 0.0
  {
  }

  /** A symmetric matrix with a factor is positive definite. */
  lemma FactorPositiveDefinite(a: Mat, l: Mat, n: nat)
    requires Symmetric(a, n) && Factor(a, l, n)
    ensures PositiveDefinite(a, n)
  {
    FactorProducts(a, l, n);
    forall x: Vec | |x| == n && x != Zeros(n) ensures Quad(a, x, n) > 0.0 {
      var m := LastNonZero(x, n);
      TransposeInjective(l, x, n, m);
      GramQuad(a, l, x, n, n);
      var g := VecMat(x, l, n, n);
      NormPositive(g, g, m, n);
    }
  }

  /** Back substitution by columns: z with the sum of z[r] * l[r][c] over r < m equal to b[c] for all c < m. */
  ghost function BackSubstitute(l: Mat, b: Vec, m: nat): (z: Vec)
    requires m <= |l| && m <= |b|
    requires forall i :: 0 <= i < m ==> |l[i]| >= |b| && l[i][i] != 0.0
    ensures |z| == m
    decreases m
  {
    if m == 0 then []
    else
      var t := b[m - 1] / l[m - 1][m - 1];
      var rest: Vec := seq(|b|, c requires 0 <= c < |b| => b[c] - t * l[m - 1][c]);
      BackSubstitute(l, rest, m - 1) + [t]
  }

  lemma {:induction false} BackSubstituteSolves(l: Mat, b: Vec, m: nat, c: nat)
    requires c < m <= |l| && m <= |b|
    requires forall i :: 0 <= i < m ==> |l[i]| >= |b| && l[i][i] != 0.0
    requires forall i, j :: 0 <= i < j < m ==> l[i][j] == 0.0
    ensures ColSum(BackSubstitute(l, b, m), l, c, 0, m) == b[c]
    decreases m
  {
    var t := b[m - 1] / l[m - 1][m - 1];
    var rest: Vec := seq(|b|, k requires 0 <= k < |b| => b[k] - t * l[m - 1][k]);
    var z, z' := BackSubstitute(l, b, m), BackSubstitute(l, rest, m - 1);
    assert z == z' + [t];
    ColSumAgrees(z, z', l, c, 0, m - 1);
    if c < m - 1 {
      BackSubstituteSolves(l, rest, m - 1, c);
    } else {
      ColSumZero(z', l, c, 0, m - 1);
      assert t * l[c][c] == b[c];
    }
  }

  /** Zero coordinates beyond m do not contribute to the quadratic form. */
  lemma QuadPadded(a: Mat, x: Vec, m: nat, n: nat)
    requires Shape(a, n, n) && m <= n == |x|
    requires forall k :: m <= k < n ==> x[k] == 0.0
    ensures Quad(a, x, n) == Quad(a, x, m)
  {
    var y, y' := MatVec(a, x, n, n), MatVec(a, x, m, m);
    DotCommutes(x, y, n);
    DotZero(y, x, m, n);
    forall r | 0 <= r < m ensures y[r] == y'[r] {
      DotZero(a[r], x, m, n);
    }
    DotAgrees(y, y', x, x, m);
    DotCommutes(x, y', m);
  }

  /** Lowering the last diagonal entry of the leading block by s lowers the form by s * x[i] * x[i]. */
  lemma QuadCorner(a: Mat, a': Mat, x: Vec, i: nat, s: real)
    requires i < |a| && i < |a'| && i < |x|
    requires forall r :: 0 <= r <= i ==> |a[r]| > i && |a'[r]| > i
    requires forall r, c :: 0 <= r <= i && 0 <= c <= i && (r, c) != (i, i) ==> a[r][c] == a'[r][c]
    requires a[i][i] == a'[i][i] + s && x[i] == -1.0
    ensures Quad(a, x, i + 1) == Quad(a', x, i + 1) + s
  {
    var y, y' := MatVec(a, x, i + 1, i + 1), MatVec(a', x, i + 1, i + 1);
    forall r | 0 <= r < i ensures y[r] == y'[r] {
      DotAgrees(a[r], a'[r], x, x, i + 1);
    }
    DotAgrees(a[i], a'[i], x, x, i);
    DotAgrees(x, x, y, y', i);
    assert y[i] == y'[i] - s;
  }

  /** The direction used when the value under the square root of row i is not positive. */
  ghost function FailureDirection(l: Mat, n: nat, i: nat): (x: Vec)
    requires Shape(l, n, n) && i < n && forall r :: 0 <= r < i ==> l[r][r] != 0.0
    ensures |x| == n && x[i] == -1.0 && forall k :: i < k < n ==> x[k] == 0.0
  {
    BackSubstitute(l, l[i], i) + [-1.0] + Zeros(n - i - 1)
  }

  lemma FailureDirectionSolves(a: Mat, l: Mat, n: nat, i: nat, k: nat)
    requires i < n && PartialFactor(a, l, n, i, i) && k < i
    ensures ColSum(FailureDirection(l, n, i), l, k, 0, i + 1) == 0.0
  {
    var x, z := FailureDirection(l, n, i), BackSubstitute(l, l[i], i);
    ColSumAgrees(x, z, l, k, 0, i);
    BackSubstituteSolves(l, l[i], i, k);
  }

  /** A non-positive value under the square root yields a direction along which the form is not positive. */
  lemma {:induction false} FailureWitness(a: Mat, l: Mat, n: nat, i: nat) returns (x: Vec)
    requires Symmetric(a, n) && i < n && PartialFactor(a, l, n, i, i)
    requires a[i][i] - Dot(l[i], l[i], i) <= 0.0
    ensures |x| == n && x != Zeros(n) && Quad(a, x, n) <= 0.0
  {
    hide Quad, Reproduces, FailureDirection;
    var s := a[i][i] - Dot(l[i], l[i], i);
    x := FailureDirection(l, n, i);
    assert x[i] != Zeros(n)[i];
    var a' := a[i := a[i][i := a[i][i] - s]];
    forall r, c | 0 <= r < i + 1 && 0 <= c < i + 1 ensures a'[r][c] == Dot(l[r], l[c], i) {
      LeadingProduct(a, l, n, i, r, c);
    }
    GramQuad(a', l, x, i + 1, i);
    var g := VecMat(x, l, i + 1, i);
    forall k | 0 <= k < i ensures g[k] == 0.0 {
      FailureDirectionSolves(a, l, n, i, k);
    }
    DotZero(g, g, 0, i);
    QuadCorner(a, a', x, i, s);
    QuadPadded(a, x, i + 1, n);
  }

  lemma LeadingProduct(a: Mat, l: Mat, n: nat, i: nat, r: nat, c: nat)
    requires Symmetric(a, n) && i < n && PartialFactor(a, l, n, i, i) && r <= i && c <= i
    ensures Dot(l[r], l[c], i) == if (r, c) == (i, i) then Dot(l[i], l[i], i) else a[r][c]
  {
    if (r, c) != (i, i) {
      var hi, lo := if r < c then c else r, if r < c then r else c;
      assert Reproduces(a, l, n, hi, lo);
      RowProduct(a, l, n, hi, lo, i);
      DotCommutes(l[r], l[c], i);
    }
  }

  /** The factorisation only ever looks at the lower triangle. */
  lemma FactorOfLower(a: Mat, l: Mat, n: nat)
    requires Shape(a, n, n)
    ensures Factor(a, l, n) ==> Factor(LowerSym(a, n), l, n)
    ensures Stuck(a, l, n) ==> Stuck(LowerSym(a, n), l, n)
  {
    LowerSymOf(a, n);
    hide LowerSym, Dot;
    if Factor(a, l, n) {
      forall r, c | 0 <= c <= r < n ensures Reproduces(LowerSym(a, n), l, n, r, c) {
        assert Reproduces(a, l, n, r, c);
      }
    }
    if Stuck(a, l, n) {
      var i: nat :| i < n && StuckAt(a, l, n, i);
      forall r, c | 0 <= c <= r < n && Before(r, c, i, i) ensures Reproduces(LowerSym(a, n), l, n, r, c) {
        assert Reproduces(a, l, n, r, c);
      }
      assert StuckAt(LowerSym(a, n), l, n, i);
    }
  }

  /** So success means that the lower triangle is that of a positive definite matrix. */
  lemma FactorDecides(a: Mat, l: Mat, n: nat)
    requires Shape(a, n, n)
    ensures Factor(a, l, n) ==> PositiveDefinite(LowerSym(a, n), n)
    ensures Stuck(a, l, n) ==> !PositiveDefinite(LowerSym(a, n), n)
  {
    FactorOfLower(a, l, n);
    LowerSymOf(a, n);
    hide LowerSym, Factor, Symmetric, PartialFactor, Dot, Quad;
    if Factor(a, l, n) {
      FactorPositiveDefinite(LowerSym(a, n), l, n);
    }
    if Stuck(a, l, n) {
      var i: nat :| i < n && StuckAt(LowerSym(a, n), l, n, i);
      var x := FailureWitness(LowerSym(a, n), l, n, i);
    }
  }

  lemma PartialShape(a: Mat, l: Mat, n: nat, i: nat, j: nat)
    requires PartialFactor(a, l, n, i, j)
    ensures Shape(a, n, n) && Shape(l, n, n)
  {
  }

  lemma PartialDiagonal(a: Mat, l: Mat, n: nat, i: nat, j: nat)
    requires j < i < n && PartialFactor(a, l, n, i, j)
    ensures l[j][j] != 0.0
  {
    assert Before(j, j, i, j);
  }

  /** What a failed factorisation leaves behind: the rows before some row i, and row i up to its
      diagonal, where the value under the square root is not positive. */
  ghost predicate Stuck(a: Mat, l: Mat, n: nat) {
    exists i: nat :: i < n && StuckAt(a, l, n, i)
  }

  ghost predicate StuckAt(a: Mat, l: Mat, n: nat, i: nat) {
    i < n && PartialFactor(a, l, n, i, i) && a[i][i] - Dot(l[i], l[i], i) <= 0.0
  }

  /** A substitution with what is left behind divides by zero at row i, and not before. */
  lemma StuckDividesByZero(a: Mat, l: Mat, n: nat)
    requires Stuck(a, l, n)
    ensures exists i: nat :: i < n && FirstZeroDiagonal(l, n, i)
  {
    var i: nat :| i < n && StuckAt(a, l, n, i);
    forall r | 0 <= r < i ensures l[r][r] > 0.0 {
      assert Before(r, r, i, i);
    }
    assert FirstZeroDiagonal(l, n, i);
  }

  ghost predicate FirstZeroDiagonal(l: Mat, n: nat, i: nat) {
    Shape(l, n, n) && i < n && l[i][i] == 0.0 && forall r :: 0 <= r < i ==> l[r][r] > 0.0
  }

  /** The diagonal entry of row i. */
  lemma DiagonalWritten(a: Mat, l: Mat, n: nat, i: nat, sum: real, sqrt: real -> real)
    requires i < n && PartialFactor(a, l, n, i, i) && IsSqrt(sqrt)
    requires sum == a[i][i] - Dot(l[i], l[i], i) && sum > 0.0
    ensures PartialFactor(a, l[i := l[i][i := sqrt(sum)]], n, i, i + 1)
  {
    hide *;
    SqrtPositive(sqrt, sum);
    PartialShape(a, l, n, i, i);
    var d, v := Dot(l[i], l[i], i), sqrt(sum);
    assert d + v * v == a[i][i];
    EntryWritten(a, l, n, i, i, v);
  }

  /** An entry of row i left of the diagonal. */
  lemma OffDiagonalWritten(a: Mat, l: Mat, n: nat, i: nat, j: nat, sum: real)
    requires j < i < n && PartialFactor(a, l, n, i, j) && sum == a[i][j] - Dot(l[i], l[j], j)
    ensures l[j][j] != 0.0
    ensures PartialFactor(a, l[i := l[i][j := sum / l[j][j]]], n, i, j + 1)
  {
    hide *;
    PartialShape(a, l, n, i, j);
    PartialDiagonal(a, l, n, i, j);
    var d, v := Dot(l[i], l[j], j), sum / l[j][j];
    QuotientTimes(sum, l[j][j]);
    assert d + v * l[j][j] == a[i][j];
    EntryWritten(a, l, n, i, j, v);
  }

  lemma QuotientTimes(x: real, d: real)
    requires d != 0.0
    ensures x / d * d == x
  {
  }

  /** A finished row: its last entry written, the next row starts at column 0. */
  lemma NextRow(a: Mat, l: Mat, n: nat, i: nat)
    requires i < n && PartialFactor(a, l, n, i, i + 1)
    ensures PartialFactor(a, l, n, i + 1, 0)
  {
  }

  lemma Finished(a: Mat, l: Mat, n: nat)
    requires PartialFactor(a, l, n, n, 0)
    ensures Factor(a, l, n)
  {
  }

  // ----- Triangular solves

  /** The prefix of a forward substitution: row i of l times y is b[i] for the first m rows. */
  ghost predicate ForwardSolved(l: Mat, y: Vec, b: Vec, m: nat)
    requires m <= |l| && m <= |y| && m <= |b|
    requires forall i :: 0 <= i < m ==> m <= |l[i]|
  {
    forall i :: 0 <= i < m ==> Dot(l[i], y, i + 1) == b[i]
  }

  /** Column i of l times x is y[i] from position m on. */
  ghost predicate BackwardSolved(l: Mat, x: Vec, y: Vec, n: nat, m: nat)
    requires Shape(l, n, n) && m <= n == |x| && n == |y|
  {
    forall i :: m <= i < n ==> ColSum(x, l, i, i, n) == y[i]
  }

  /** l y == b and l^T x == y give a x == b. */
  lemma SolvesSystem(a: Mat, l: Mat, n: nat, b: Vec, y: Vec, x: Vec)
    requires Symmetric(a, n) && Factor(a, l, n) && |b| == n && |y| == n && |x| == n
    requires ForwardSolved(l, y, b, n) && BackwardSolved(l, x, y, n, 0)
    ensures MatVec(a, x, n, n) == b
  {
    FactorProducts(a, l, n);
    var g := VecMat(x, l, n, n);
    forall c | 0 <= c < n ensures g[c] == y[c] {
      ColSumSplit(x, l, c, 0, c, n);
      ColSumZero(x, l, c, 0, c);
    }
    forall r | 0 <= r < n ensures Dot(a[r], x, n) == b[r] {
      GramRow(a, l, x, n, n, r);
      DotAgrees(l[r], l[r], g, y, n);
      DotCommutes(l[r], y, n);
      DotZero(y, l[r], r + 1, n);
      DotCommutes(l[r], y, r + 1);
    }
  }
}
