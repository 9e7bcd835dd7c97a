/** Gauss-Jordan elimination with partial pivoting on an augmented matrix [left | right]. */
module GaussJordan {
  import opened Reals
  import opened Vectors

  /** Both thresholds of the elimination: a smaller pivot stops it, and an entry
      that is not larger is left in place. */
  const TOLERANCE: real := 0.000000000001

  ghost predicate Square(a: Mat, n: nat) {
    Shape(a, n, n)
  }

  function Unit(n: nat, i: nat): Vec {
    seq(n, k => if k == i then 1.0 else 0.0)
  }

  /** [a | identity]. */
  function Augment(a: Mat): Mat {
    seq(|a|, i requires 0 <= i < |a| => a[i] + Unit(|a|, i))
  }

  function RightHalf(aug: Mat, n: nat): Mat
    requires forall r :: 0 <= r < |aug| ==> |aug[r]| == 2 * n
  {
    seq(|aug|, r requires 0 <= r < |aug| => aug[r][n..])
  }

  /** The row with the largest absolute entry of column col among rows col .. m-1, the first on a tie. */
  function BestRow(aug: Mat, col: nat, m: nat): (p: nat)
    requires col < m <= |aug|
    requires forall r :: 0 <= r < |aug| ==> col < |aug[r]|
    ensures col <= p < m
    ensures forall r :: col <= r < m ==> Abs(aug[r][col]) <= Abs(aug[p][col])
  {
    if m == col + 1 then col
    else
      var p := BestRow(aug, col, m - 1);
      if Abs(aug[m - 1][col]) > Abs(aug[p][col]) then m - 1 else p
  }

  lemma {:induction false} BestRowFirst(aug: Mat, col: nat, m: nat)
    requires col < m <= |aug|
    requires forall r :: 0 <= r < |aug| ==> col < |aug[r]|
    ensures var p := BestRow(aug, col, m);
      forall r :: col <= r < p ==> Abs(aug[r][col]) < Abs(aug[p][col])
  {
    if m > col + 1 {
      BestRowFirst(aug, col, m - 1);
    }
  }

  /** Divides the entries of a row from column col on. */
  function ScaleRow(row: Vec, pivot: real, col: nat): Vec
    requires pivot != 0.0
  {
    seq(|row|, j requires 0 <= j < |row| => if j < col then row[j] else row[j] / pivot)
  }

  /** Subtracts factor times the pivot row from the entries from column col on. */
  function SubtractRow(row: Vec, factor: real, pivotRow: Vec, col: nat): Vec
    requires |row| == |pivotRow|
  {
    seq(|row|, j requires 0 <= j < |row| => if j < col then row[j] else row[j] - factor * pivotRow[j])
  }

  predicate Eliminated(aug: Mat, col: nat, r: nat)
    requires r < |aug| && col < |aug[r]|
  {
    r != col && Abs(aug[r][col]) > TOLERANCE
  }

  /** The state of the rows once the first m of them have been cleared in column col. */
  function ClearRows(aug: Mat, col: nat, m: nat): Mat
    requires col < |aug| && m <= |aug|
    requires forall r :: 0 <= r < |aug| ==> |aug[r]| == |aug[col]| && col < |aug[r]|
  {
    seq(|aug|, r requires 0 <= r < |aug| =>
      if r < m && Eliminated(aug, col, r) then SubtractRow(aug[r], aug[r][col], aug[col], col) else aug[r])
  }

  ghost predicate Augmented(aug: Mat, n: nat) {
    Shape(aug, n, 2 * n)
  }

  function SwapPivot(aug: Mat, col: nat): (sw: Mat)
    requires col < |aug|
    requires forall r :: 0 <= r < |aug| ==> col < |aug[r]|
  {
    var p := BestRow(aug, col, |aug|);
    aug[col := aug[p]][p := aug[col]]
  }

  datatype Progress = Stopped(pivot: real) | Going(aug: Mat)

  /** One column: choose and swap the pivot, stop if it is too small, otherwise scale and clear. */
  function Step(aug: Mat, col: nat): (s: Progress)
    requires col < |aug|
    requires forall r :: 0 <= r < |aug| ==> |aug[r]| == |aug[col]| && col < |aug[r]|
    ensures s.Going? ==> |s.aug| == |aug| && forall r :: 0 <= r < |aug| ==> |s.aug[r]| == |aug[r]|
  {
    var sw := SwapPivot(aug, col);
    var pivot := sw[col][col];
    if Abs(pivot) < TOLERANCE then Stopped(pivot)
    else
      var scaled := sw[col := ScaleRow(sw[col], pivot, col)];
      Going(ClearRows(scaled, col, |aug|))
  }

  function Reduce(aug: Mat, col: nat): (s: Progress)
    requires col <= |aug|
    requires forall r :: 0 <= r < |aug| ==> |aug[r]| == 2 * |aug|
    ensures s.Going? ==> |s.aug| == |aug| && forall r :: 0 <= r < |aug| ==> |s.aug[r]| == 2 * |aug|
    decreases |aug| - col
  {
    if col == |aug| then Going(aug)
    else match Step(aug, col)
      case Stopped(pivot) => Stopped(pivot)
      case Going(next) => Reduce(next, col + 1)
  }

  /** The matrix the program returns: the right half, or zeros when a pivot was too small. */
  function InverseOf(a: Mat): Mat
    requires forall i :: 0 <= i < |a| ==> |a[i]| == |a|
  {
    match Reduce(Augment(a), 0)
    case Stopped(_) => ZeroMat(|a|)
    case Going(aug) => RightHalf(aug, |a|)
  }

  // ----- What the result means

  ghost predicate LeftInverse(b: Mat, a: Mat, n: nat)
    requires Square(a, n) && Square(b, n)
  {
    forall i, j :: 0 <= i < n && 0 <= j < n ==> Dot(b[i], Column(a, j), n) == if i == j then 1.0 else 0.0
  }

  ghost predicate IsInverse(a: Mat, b: Mat, n: nat) {
    Square(a, n) && Square(b, n) && LeftInverse(a, b, n) && LeftInverse(b, a, n)
  }

  ghost predicate Annihilates(a: Mat, x: Vec, n: nat)
    requires Square(a, n) && |x| == n
  {
    forall i :: 0 <= i < n ==> Dot(a[i], x, n) == 0.0
  }

  ghost predicate Singular(a: Mat, n: nat)
    requires Square(a, n)
  {
    exists x: Vec :: |x| == n && x != Zeros(n) && Annihilates(a, x, n)
  }

  /** Every entry that the run leaves in place because it is within the tolerance is exactly zero. */
  ghost predicate SkipsExact(aug: Mat, col: nat)
    requires col <= |aug|
    requires forall r :: 0 <= r < |aug| ==> |aug[r]| == 2 * |aug|
    decreases |aug| - col
  {
    col == |aug| ||
    (var s := Step(aug, col);
     s.Going? ==>
       && (forall r :: 0 <= r < |aug| && r != col ==>
            var e := SwapPivot(aug, col)[r][col]; Abs(e) <= TOLERANCE ==> e == 0.0)
       && SkipsExact(s.aug, col + 1))
  }

  /** If the run stops, the pivot it stopped at was exactly zero. */
  ghost predicate StopsExact(a: Mat)
    requires forall i :: 0 <= i < |a| ==> |a[i]| == |a|
  {
    var s := Reduce(Augment(a), 0);
    s.Stopped? ==> s.pivot == 0.0
  }

  ghost predicate Completes(a: Mat)
    requires forall i :: 0 <= i < |a| ==> |a[i]| == |a|
  {
    Reduce(Augment(a), 0).Going?
  }

  /** Every entry the program skips in inverting a is exactly zero. */
  ghost predicate SkipsOnlyZeros(a: Mat)
    requires forall i :: 0 <= i < |a| ==> |a[i]| == |a|
  {
    SkipsExact(Augment(a), 0)
  }

  // ----- The invariant of the elimination

  /** A row [l | r] with l == r * a. */
  ghost predicate RowSound(row: Vec, a: Mat, n: nat)
    requires Square(a, n)
  {
    |row| == 2 * n && forall j :: 0 <= j < n ==> row[j] == Dot(row[n..], Column(a, j), n)
  }

  ghost predicate RightKills(aug: Mat, x: Vec, n: nat)
    requires Augmented(aug, n) && |x| == n
  {
    forall r :: 0 <= r < n ==> Dot(aug[r][n..], x, n) == 0.0
  }

  /** The right half maps no non-zero vector to zero. */
  ghost predicate RightInjective(aug: Mat, n: nat)
    requires Augmented(aug, n)
  {
    forall x: Vec :: |x| == n && RightKills(aug, x, n) ==> x == Zeros(n)
  }

  ghost predicate UnitColumns(aug: Mat, n: nat, col: nat)
    requires Augmented(aug, n) && col <= n
  {
    forall r, c :: 0 <= r < n && 0 <= c < col ==> aug[r][c] == if r == c then 1.0 else 0.0
  }

  ghost predicate Sound(a: Mat, aug: Mat, n: nat) {
    Square(a, n) && Augmented(aug, n) && (forall r :: 0 <= r < n ==> RowSound(aug[r], a, n)) && RightInjective(aug, n)
  }

  lemma {:induction false} UnitDot(n: nat, i: nat, x: Vec, m: nat)
    requires m <= n && |x| >= n
    ensures Dot(Unit(n, i), x, m) == if i < m then x[i] else 0.0
  {
    if m > 0 {
      UnitDot(n, i, x, m - 1);
    }
  }

  lemma AugmentSound(a: Mat, n: nat)
    requires Square(a, n)
    ensures Sound(a, Augment(a), n)
  {
    var aug := Augment(a);
    forall r | 0 <= r < n ensures RowSound(aug[r], a, n) {
      assert aug[r][n..] == Unit(n, r);
      forall j | 0 <= j < n ensures aug[r][j] == Dot(aug[r][n..], Column(a, j), n) {
        UnitDot(n, r, Column(a, j), n);
      }
    }
    forall x: Vec | |x| == n && RightKills(aug, x, n) ensures x == Zeros(n) {
      forall r | 0 <= r < n ensures x[r] == 0.0 {
        assert aug[r][n..] == Unit(n, r);
        UnitDot(n, r, x, n);
      }
    }
  }

  /** Adding a multiple of one sound row to another gives a sound row. */
  lemma CombineSound(w: Vec, u: Vec, s: real, v: Vec, a: Mat, n: nat)
    requires Square(a, n) && RowSound(u, a, n) && RowSound(v, a, n) && |w| == 2 * n
    requires forall k :: 0 <= k < 2 * n ==> w[k] == u[k] + s * v[k]
    ensures RowSound(w, a, n)
  {
    forall j | 0 <= j < n ensures w[j] == Dot(w[n..], Column(a, j), n) {
      DotLinear(w[n..], u[n..], s, v[n..], Column(a, j), n);
    }
  }

  /** The swap exchanges two rows; the row that comes to col has the largest entry there. */
  lemma SwapRows(aug: Mat, n: nat, col: nat)
    requires Augmented(aug, n) && col < n
    ensures var sw, p := SwapPivot(aug, col), BestRow(aug, col, |aug|);
      && |sw| == n && col <= p < n
      && (forall r :: 0 <= r < n ==> sw[r] == aug[if r == col then p else if r == p then col else r])
      && forall r :: col <= r < n ==> Abs(sw[r][col]) <= Abs(sw[col][col])
  {
  }

  lemma SwapSound(a: Mat, aug: Mat, n: nat, col: nat)
    requires Sound(a, aug, n) && col < n && UnitColumns(aug, n, col)
    ensures var sw := SwapPivot(aug, col);
      && Sound(a, sw, n) && UnitColumns(sw, n, col)
      && forall r :: col <= r < n ==> Abs(sw[r][col]) <= Abs(sw[col][col])
  {
    hide Dot, Column;
    var p := BestRow(aug, col, |aug|);
    var sw := SwapPivot(aug, col);
    SwapRows(aug, n, col);
    SwapInjective(aug, n, col);
    hide SwapPivot, BestRow, RowSound, Abs, RightInjective;
  }

  lemma SwapInjective(aug: Mat, n: nat, col: nat)
    requires Augmented(aug, n) && col < n && RightInjective(aug, n)
    ensures Augmented(SwapPivot(aug, col), n) && RightInjective(SwapPivot(aug, col), n)
  {
    hide Dot;
    var p := BestRow(aug, col, |aug|);
    var sw := SwapPivot(aug, col);
    SwapRows(aug, n, col);
    hide SwapPivot, BestRow, Abs;
    forall x: Vec | |x| == n && RightKills(sw, x, n) ensures x == Zeros(n) {
      forall r | 0 <= r < n ensures Dot(aug[r][n..], x, n) == 0.0 {
        var r' := if r == col then p else if r == p then col else r;
        assert sw[r'] == aug[r];
      }
      assert RightKills(aug, x, n);
    }
  }

  lemma Quotient(x: real, d: real)
    requires d != 0.0
    ensures d * (x / d) == x
    ensures 0.0 / d == 0.0 && d / d == 1.0
  {
  }

  /** before == d * after, entry by entry, when the entries left of col are zero. */
  lemma ScaleIsFull(before: Vec, d: real, col: nat)
    requires d != 0.0 && forall k :: 0 <= k < |before| && k < col ==> before[k] == 0.0
    ensures forall k :: 0 <= k < |before| ==> before[k] == 0.0 + d * ScaleRow(before, d, col)[k]
  {
    forall k | 0 <= k < |before| ensures before[k] == 0.0 + d * ScaleRow(before, d, col)[k] {
      Quotient(before[k], d);
    }
  }

  lemma ScaledEntry(before: Vec, row: Vec, d: real, x: Vec, n: nat, j: nat)
    requires |before| == 2 * n == |row| && |x| == n && j < n && d != 0.0
    requires forall k :: 0 <= k < 2 * n ==> before[k] == 0.0 + d * row[k]
    requires before[j] == Dot(before[n..], x, n)
    ensures row[j] == Dot(row[n..], x, n)
  {
    hide Dot;
    var right, right' := row[n..], before[n..];
    forall k | 0 <= k < n ensures right'[k] == 0.0 + d * right[k] {
      assert right'[k] == before[n + k] && right[k] == row[n + k];
    }
    ScaleDot(right, right', d, x, n);
    CancelFactor(before[j], row[j], Dot(right, x, n), d);
  }

  lemma ScaleRowSound(a: Mat, before: Vec, d: real, n: nat, col: nat)
    requires Square(a, n) && RowSound(before, a, n) && d != 0.0
    requires forall k :: 0 <= k < 2 * n && k < col ==> before[k] == 0.0
    ensures RowSound(ScaleRow(before, d, col), a, n)
  {
    var row := ScaleRow(before, d, col);
    ScaleIsFull(before, d, col);
    hide Dot, Column;
    forall j | 0 <= j < n ensures row[j] == Dot(row[n..], Column(a, j), n) {
      ScaledEntry(before, row, d, Column(a, j), n, j);
    }
  }

  lemma ScaleKills(aug: Mat, n: nat, col: nat, r: nat, x: Vec)
    requires Augmented(aug, n) && col < n && UnitColumns(aug, n, col) && r < n && |x| == n
    requires aug[col][col] != 0.0
    requires RightKills(aug[col := ScaleRow(aug[col], aug[col][col], col)], x, n)
    ensures Dot(aug[r][n..], x, n) == 0.0
  {
    var d := aug[col][col];
    var scaled := aug[col := ScaleRow(aug[col], d, col)];
    assert Dot(scaled[r][n..], x, n) == 0.0;
    if r == col {
      ScaleIsFull(aug[col], d, col);
      ScaleDot(scaled[col][n..], aug[col][n..], d, x, n);
    }
  }

  lemma ScaleSound(a: Mat, aug: Mat, n: nat, col: nat)
    requires Sound(a, aug, n) && col < n && UnitColumns(aug, n, col) && aug[col][col] != 0.0
    ensures var scaled := aug[col := ScaleRow(aug[col], aug[col][col], col)];
      Sound(a, scaled, n) && UnitColumns(scaled, n, col) && scaled[col][col] == 1.0
  {
    var d := aug[col][col];
    var scaled := aug[col := ScaleRow(aug[col], d, col)];
    ScaleRowSound(a, aug[col], d, n, col);
    Quotient(d, d);
    forall x: Vec | |x| == n && RightKills(scaled, x, n) ensures x == Zeros(n) {
      forall r | 0 <= r < n ensures Dot(aug[r][n..], x, n) == 0.0 {
        ScaleKills(aug, n, col, r, x);
      }
      assert RightKills(aug, x, n);
    }
  }

  lemma CancelFactor(b: real, x: real, y: real, d: real)
    requires d != 0.0 && b == 0.0 + d * x && b == d * y
    ensures x == y
  {
  }

  /** Scaling a vector scales its dot products. */
  lemma ScaleDot(u: Vec, w: Vec, d: real, x: Vec, n: nat)
    requires n <= |u| && n <= |w| && n <= |x|
    requires forall k :: 0 <= k < n ==> w[k] == 0.0 + d * u[k]
    ensures Dot(w, x, n) == d * Dot(u, x, n)
  {
    var z := Zeros(n);
    DotZero(z, x, 0, n);
    DotLinear(w, z, d, u, x, n);
  }

  /** The left entries before col of the pivot row are zero, so starting a row operation at col loses nothing. */
  lemma SubtractIsFull(aug: Mat, n: nat, col: nat, r: nat, k: nat)
    requires Augmented(aug, n) && col < n && UnitColumns(aug, n, col)
    requires r < n && k < 2 * n
    ensures SubtractRow(aug[r], aug[r][col], aug[col], col)[k] == aug[r][k] + (-aug[r][col]) * aug[col][k]
  {
    if k < col {
      assert aug[col][k] == 0.0;
    }
  }

  lemma ClearRowSound(a: Mat, aug: Mat, n: nat, col: nat, r: nat)
    requires Square(a, n) && Augmented(aug, n) && col < n && r < n && UnitColumns(aug, n, col)
    requires RowSound(aug[r], a, n) && RowSound(aug[col], a, n)
    ensures RowSound(ClearRows(aug, col, n)[r], a, n)
  {
    var next := ClearRows(aug, col, n)[r];
    if Eliminated(aug, col, r) {
      forall k | 0 <= k < 2 * n ensures next[k] == aug[r][k] + (-aug[r][col]) * aug[col][k] {
        SubtractIsFull(aug, n, col, r, k);
      }
      CombineSound(next, aug[r], -aug[r][col], aug[col], a, n);
    }
  }

  lemma ClearUnit(aug: Mat, n: nat, col: nat, r: nat, c: nat)
    requires Augmented(aug, n) && col < n && UnitColumns(aug, n, col) && aug[col][col] == 1.0
    requires r < n && c <= col && (r != col && Abs(aug[r][col]) <= TOLERANCE ==> aug[r][col] == 0.0)
    ensures ClearRows(aug, col, n)[r][c] == if r == c then 1.0 else 0.0
  {
    if Eliminated(aug, col, r) {
      SubtractIsFull(aug, n, col, r, c);
    }
  }

  lemma ClearSound(a: Mat, aug: Mat, n: nat, col: nat)
    requires Sound(a, aug, n) && col < n && UnitColumns(aug, n, col) && aug[col][col] == 1.0
    requires forall r :: 0 <= r < n && r != col && Abs(aug[r][col]) <= TOLERANCE ==> aug[r][col] == 0.0
    ensures Sound(a, ClearRows(aug, col, n), n) && UnitColumns(ClearRows(aug, col, n), n, col + 1)
  {
    var next := ClearRows(aug, col, n);
    forall r | 0 <= r < n ensures RowSound(next[r], a, n) {
      ClearRowSound(a, aug, n, col, r);
    }
    forall x: Vec | |x| == n && RightKills(next, x, n) ensures x == Zeros(n) {
      forall r | 0 <= r < n ensures Dot(aug[r][n..], x, n) == 0.0 {
        ClearKills(aug, n, col, r, x);
      }
      assert RightKills(aug, x, n);
    }
    forall r, c | 0 <= r < n && 0 <= c < col + 1 ensures next[r][c] == if r == c then 1.0 else 0.0 {
      ClearUnit(aug, n, col, r, c);
    }
  }

  /** Undoing a row operation: a vector killed by the new row and the pivot row is killed by the old row. */
  lemma SubtractKills(row: Vec, factor: real, pivotRow: Vec, col: nat, n: nat, x: Vec)
    requires |row| == 2 * n == |pivotRow| && col < n == |x|
    requires Dot(SubtractRow(row, factor, pivotRow, col)[n..], x, n) == 0.0 && Dot(pivotRow[n..], x, n) == 0.0
    ensures Dot(row[n..], x, n) == 0.0
  {
    hide Dot;
    var next := SubtractRow(row, factor, pivotRow, col);
    forall k | 0 <= k < n ensures next[n..][k] == row[n..][k] + (-factor) * pivotRow[n..][k] {
      assert next[n + k] == row[n + k] - factor * pivotRow[n + k];
    }
    hide SubtractRow;
    DotLinear(next[n..], row[n..], -factor, pivotRow[n..], x, n);
  }

  lemma ClearKills(aug: Mat, n: nat, col: nat, r: nat, x: Vec)
    requires Augmented(aug, n) && col < n && r < n && |x| == n
    requires RightKills(ClearRows(aug, col, n), x, n)
    ensures Dot(aug[r][n..], x, n) == 0.0
  {
    var next := ClearRows(aug, col, n);
    assert Dot(next[r][n..], x, n) == 0.0;
    assert next[col] == aug[col] && Dot(next[col][n..], x, n) == 0.0;
    if Eliminated(aug, col, r) {
      SubtractKills(aug[r], aug[r][col], aug[col], col, n, x);
    }
  }

  /** One column of the elimination keeps [left | right] sound and adds a unit column;
      a pivot of exactly zero means the matrix is singular. */
  lemma {:induction false} StepSound(a: Mat, aug: Mat, n: nat, col: nat)
    requires Sound(a, aug, n) && col < n && UnitColumns(aug, n, col)
    requires SkipsExact(aug, col)
    ensures match Step(aug, col)
      case Going(next) => Sound(a, next, n) && UnitColumns(next, n, col + 1)
      case Stopped(pivot) => pivot == 0.0 ==> Singular(a, n)
  {
    SwapSound(a, aug, n, col);
    var sw := SwapPivot(aug, col);
    var pivot := sw[col][col];
    if Abs(pivot) < TOLERANCE {
      if pivot == 0.0 {
        ZeroPivotSingular(a, sw, n, col);
      }
    } else {
      ScaleSound(a, sw, n, col);
      var scaled := sw[col := ScaleRow(sw[col], pivot, col)];
      forall r | 0 <= r < n && r != col && Abs(scaled[r][col]) <= TOLERANCE ensures scaled[r][col] == 0.0 {
        assert scaled[r][col] == sw[r][col];
      }
      ClearSound(a, scaled, n, col);
    }
  }

  /** With col unit columns and no non-zero entry left to pivot on, the null vector is explicit. */
  lemma ZeroPivotSingular(a: Mat, aug: Mat, n: nat, col: nat)
    requires Sound(a, aug, n) && col < n && UnitColumns(aug, n, col)
    requires forall r :: col <= r < n ==> aug[r][col] == 0.0
    ensures Singular(a, n)
  {
    var x: Vec := seq(n, k requires 0 <= k < n => if k < col then -aug[k][col] else if k == col then 1.0 else 0.0);
    var y := MatVec(a, x, n, n);
    forall r | 0 <= r < n ensures Dot(aug[r][n..], y, n) == 0.0 {
      LeftTimes(a, aug[r], x, n);
      NullRow(aug, n, col, r, x);
    }
    assert RightKills(aug, y, n);
    forall i | 0 <= i < n ensures Dot(a[i], x, n) == 0.0 {
      assert y[i] == Zeros(n)[i];
    }
    assert x[col] != Zeros(n)[col];
    assert Annihilates(a, x, n);
  }

  /** left . x == right . (a x) for a sound row. */
  lemma LeftTimes(a: Mat, row: Vec, x: Vec, n: nat)
    requires Square(a, n) && RowSound(row, a, n) && |x| == n
    ensures Dot(row, x, n) == Dot(row[n..], MatVec(a, x, n, n), n)
  {
    Adjoint(row[n..], a, x, n, n);
    forall j | 0 <= j < n ensures row[j] == VecMat(row[n..], a, n, n)[j] {
      ColSumIsDot(row[n..], a, j, n);
    }
    DotAgrees(row, VecMat(row[n..], a, n, n), x, x, n);
  }

  lemma NullRow(aug: Mat, n: nat, col: nat, r: nat, x: Vec)
    requires Augmented(aug, n) && col < n && UnitColumns(aug, n, col) && r < n && |x| == n
    requires forall k :: col <= k < n ==> aug[k][col] == 0.0
    requires forall k :: 0 <= k < n ==> x[k] == if k < col then -aug[k][col] else if k == col then 1.0 else 0.0
    ensures Dot(aug[r], x, n) == 0.0
  {
    UnitPrefix(aug[r], r, x, col);
    assert Dot(aug[r], x, col + 1) == Dot(aug[r], x, col) + aug[r][col];
    DotZero(aug[r], x, col + 1, n);
  }

  lemma {:induction false} UnitPrefix(row: Vec, r: nat, x: Vec, m: nat)
    requires m <= |row| && m <= |x|
    requires forall c :: 0 <= c < m ==> row[c] == if r == c then 1.0 else 0.0
    ensures Dot(row, x, m) == if r < m then x[r] else 0.0
  {
    if m > 0 {
      UnitPrefix(row, r, x, m - 1);
    }
  }

  /** A complete run on sound input ends with an inverse; a run stopped by a zero pivot met a singular matrix. */
  lemma {:induction false} ReduceSound(a: Mat, aug: Mat, n: nat, col: nat)
    requires Sound(a, aug, n) && col <= n && UnitColumns(aug, n, col)
    requires SkipsExact(aug, col)
    ensures match Reduce(aug, col)
      case Going(last) => Sound(a, last, n) && UnitColumns(last, n, n)
      case Stopped(pivot) => pivot == 0.0 ==> Singular(a, n)
    decreases n - col
  {
    hide Step, UnitColumns, Singular, RowSound, RightInjective;
    if col < n {
      StepSound(a, aug, n, col);
      match Step(aug, col) {
        case Going(next) => ReduceSound(a, next, n, col + 1);
        case Stopped(_) =>
      }
    }
  }

  /** Left half the identity: the right half is an inverse on both sides. */
  lemma FinishedIsInverse(a: Mat, aug: Mat, n: nat)
    requires Sound(a, aug, n) && UnitColumns(aug, n, n)
    ensures IsInverse(a, RightHalf(aug, n), n)
  {
    var b := RightHalf(aug, n);
    assert LeftInverse(b, a, n);
    forall j | 0 <= j < n ensures forall i :: 0 <= i < n ==> Dot(a[i], Column(b, j), n) == if i == j then 1.0 else 0.0 {
      RightInverseColumn(a, aug, n, j);
    }
  }

  /** The residual a b_j - e_j of column j of the right half. */
  ghost function Residual(a: Mat, bj: Vec, n: nat, j: nat): Vec
    requires Square(a, n) && |bj| == n
  {
    seq(n, k requires 0 <= k < n => MatVec(a, bj, n, n)[k] + (-1.0) * Unit(n, j)[k])
  }

  lemma ResidualKilled(a: Mat, row: Vec, bj: Vec, n: nat, j: nat, r: nat)
    requires Square(a, n) && RowSound(row, a, n) && |bj| == n && j < n && r < n
    requires forall c :: 0 <= c < n ==> row[c] == if r == c then 1.0 else 0.0
    requires bj[r] == row[n..][j]
    ensures Dot(row[n..], Residual(a, bj, n, j), n) == 0.0
  {
    var right, y, d := row[n..], MatVec(a, bj, n, n), Residual(a, bj, n, j);
    LeftTimes(a, row, bj, n);
    UnitPrefix(row, r, bj, n);
    DotCommutes(right, d, n);
    DotCommutes(right, y, n);
    DotLinear(d, y, -1.0, Unit(n, j), right, n);
    UnitDot(n, j, right, n);
  }

  lemma ResidualZero(a: Mat, bj: Vec, n: nat, j: nat, i: nat)
    requires Square(a, n) && |bj| == n && j < n && i < n && Residual(a, bj, n, j)[i] == 0.0
    ensures Dot(a[i], bj, n) == if i == j then 1.0 else 0.0
  {
    var y, e := MatVec(a, bj, n, n)[i], Unit(n, j)[i];
    assert y == Dot(a[i], bj, n);
    assert y + (-1.0) * e == 0.0;
  }

  /** b (a b_j - e_j) == 0, and b is injective. */
  lemma RightInverseColumn(a: Mat, aug: Mat, n: nat, j: nat)
    requires Sound(a, aug, n) && UnitColumns(aug, n, n) && j < n
    ensures forall i :: 0 <= i < n ==>
      Dot(a[i], Column(RightHalf(aug, n), j), n) == if i == j then 1.0 else 0.0
  {
    var bj := Column(RightHalf(aug, n), j);
    var d := Residual(a, bj, n, j);
    forall r | 0 <= r < n ensures Dot(aug[r][n..], d, n) == 0.0 {
      ResidualKilled(a, aug[r], bj, n, j, r);
    }
    assert RightKills(aug, d, n);
    assert d == Zeros(n);
    forall i | 0 <= i < n ensures Dot(a[i], bj, n) == if i == j then 1.0 else 0.0 {
      ResidualZero(a, bj, n, j, i);
    }
  }

  /** An invertible matrix is not singular. */
  lemma InverseNotSingular(a: Mat, b: Mat, n: nat)
    requires IsInverse(a, b, n)
    ensures !Singular(a, n)
  {
    forall x: Vec | |x| == n && Annihilates(a, x, n) ensures x == Zeros(n) {
      var y := MatVec(a, x, n, n);
      forall r | 0 <= r < n ensures x[r] == 0.0 {
        DotCommutes(b[r], y, n);
        DotZero(y, b[r], 0, n);
        Adjoint(b[r], a, x, n, n);
        forall c | 0 <= c < n ensures VecMat(b[r], a, n, n)[c] == if r == c then 1.0 else 0.0 {
          ColSumIsDot(b[r], a, c, n);
        }
        UnitPrefix(VecMat(b[r], a, n, n), r, x, n);
      }
    }
  }

  /** Multiplying by an inverse solves the system. */
  lemma InverseSolves(a: Mat, b: Mat, n: nat, rhs: Vec)
    requires IsInverse(a, b, n) && |rhs| == n
    ensures MatVec(a, MatVec(b, rhs, n, n), n, n) == rhs
  {
    RightInverseSolves(a, b, n, rhs);
  }

  lemma RightInverseSolves(a: Mat, b: Mat, n: nat, rhs: Vec)
    requires Square(a, n) && Square(b, n) && LeftInverse(a, b, n) && |rhs| == n
    ensures MatVec(a, MatVec(b, rhs, n, n), n, n) == rhs
  {
    forall r | 0 <= r < n ensures Dot(a[r], MatVec(b, rhs, n, n), n) == rhs[r] {
      Adjoint(a[r], b, rhs, n, n);
      forall c | 0 <= c < n ensures VecMat(a[r], b, n, n)[c] == if r == c then 1.0 else 0.0 {
        ColSumIsDot(a[r], b, c, n);
      }
      UnitPrefix(VecMat(a[r], b, n, n), r, rhs, n);
    }
  }

  lemma ZeroMatNotInverse(a: Mat, n: nat)
    requires n > 0 && Square(a, n)
    ensures !IsInverse(a, ZeroMat(n), n)
  {
    var z := ZeroMat(n);
    DotZero(z[0], Column(a, 0), 0, n);
  }

  /** When nothing but zeros is skipped, the result is a two-sided inverse exactly when the run completes. */
  lemma {:induction false} InverseExactlyWhenComplete(a: Mat, n: nat)
    requires n > 0 && Square(a, n) && SkipsOnlyZeros(a)
    ensures IsInverse(a, InverseOf(a), n) <==> Completes(a)
    ensures !Completes(a) ==> InverseOf(a) == ZeroMat(n)
  {
    AugmentSound(a, n);
    ReduceSound(a, Augment(a), n, 0);
    match Reduce(Augment(a), 0) {
      case Going(last) => FinishedIsInverse(a, last, n);
      case Stopped(_) => ZeroMatNotInverse(a, n);
    }
  }

  /** Why the tolerance matters for the pivot: a 1 by 1 matrix is given its inverse exactly when
      its entry is at least the tolerance, although every non-zero entry has a reciprocal. */
  lemma TinyPivotRejected(v: real)
    requires v != 0.0
    ensures IsInverse([[v]], [[1.0 / v]], 1)
    ensures IsInverse([[v]], InverseOf([[v]]), 1) <==> Abs(v) >= TOLERANCE
  {
    ReciprocalInverse(v);
    var a := [[v]];
    var aug := Augment(a);
    assert aug[0][0] == v;
    SingleRun(aug, v);
    InverseExactlyWhenComplete(a, 1);
  }

  lemma SingleRun(aug: Mat, v: real)
    requires |aug| == 1 && |aug[0]| == 2 && aug[0][0] == v
    ensures SkipsExact(aug, 0)
    ensures Reduce(aug, 0).Going? <==> Abs(v) >= TOLERANCE
  {
    assert SwapPivot(aug, 0) == aug;
  }

  lemma ReciprocalInverse(v: real)
    requires v != 0.0
    ensures IsInverse([[v]], [[1.0 / v]], 1)
  {
    var w := 1.0 / v;
    Quotient(1.0, v);
    var a, b := [[v]], [[w]];
    assert Column(b, 0) == [w] && Column(a, 0) == [v];
    DotOne(v, w);
    DotOne(w, v);
  }

  lemma DotOne(x: real, y: real)
    ensures Dot([x], [y], 1) == x * y
  {
    assert Dot([x], [y], 0) == 0.0;
  }

  /** Why the tolerance matters for the skipped entries: this matrix is invertible, yet the
      program answers with the identity. */
  lemma TinyEntrySkipped()
    ensures var a := [[1.0, 0.0], [0.0000000000001, 1.0]];
      && IsInverse(a, [[1.0, 0.0], [-0.0000000000001, 1.0]], 2)
      && !IsInverse(a, InverseOf(a), 2)
  {
    ShearInverse(0.0000000000001);
    ShearRun(0.0000000000001);
    DotTwo([0.0000000000001, 1.0], Column([[1.0, 0.0], [0.0, 1.0]], 0));
  }

  lemma ShearInverse(e: real)
    ensures IsInverse([[1.0, 0.0], [e, 1.0]], [[1.0, 0.0], [-e, 1.0]], 2)
  {
    var a, b := [[1.0, 0.0], [e, 1.0]], [[1.0, 0.0], [-e, 1.0]];
    assert Column(a, 0) == [1.0, e] && Column(b, 0) == [1.0, -e];
    assert Column(a, 1) == [0.0, 1.0] == Column(b, 1);
    forall i, j | 0 <= i < 2 && 0 <= j < 2
      ensures Dot(a[i], Column(b, j), 2) == if i == j then 1.0 else 0.0
      ensures Dot(b[i], Column(a, j), 2) == if i == j then 1.0 else 0.0
    {
      DotTwo(a[i], Column(b, j));
      DotTwo(b[i], Column(a, j));
    }
  }

  lemma ShearRun(e: real)
    requires 0.0 < e < TOLERANCE
    ensures InverseOf([[1.0, 0.0], [e, 1.0]]) == [[1.0, 0.0], [0.0, 1.0]]
  {
    var a := [[1.0, 0.0], [e, 1.0]];
    var aug := [[1.0, 0.0, 1.0, 0.0], [e, 1.0, 0.0, 1.0]];
    assert Unit(2, 0) == [1.0, 0.0] && Unit(2, 1) == [0.0, 1.0];
    assert Augment(a)[0] == aug[0] && Augment(a)[1] == aug[1];
    assert Augment(a) == aug;
    ShearStep(e, 0);
    ShearStep(e, 1);
    assert Reduce(aug, 2) == Going(aug);
    assert Reduce(aug, 1) == Going(aug);
    assert RightHalf(aug, 2) == [[1.0, 0.0], [0.0, 1.0]];
  }

  lemma ShearStep(e: real, col: nat)
    requires 0.0 < e < TOLERANCE && col < 2
    ensures var aug := [[1.0, 0.0, 1.0, 0.0], [e, 1.0, 0.0, 1.0]]; Step(aug, col) == Going(aug)
  {
    var aug := [[1.0, 0.0, 1.0, 0.0], [e, 1.0, 0.0, 1.0]];
    assert SwapPivot(aug, col) == aug;
    assert ScaleRow(aug[col], 1.0, col) == aug[col];
    assert aug[col := aug[col]] == aug;
    assert ClearRows(aug, col, 2) == aug;
  }

  lemma DotTwo(u: Vec, v: Vec)
    requires |u| == 2 && |v| == 2
    ensures Dot(u, v, 2) == u[0] * v[0] + u[1] * v[1]
  {
    assert Dot(u, v, 1) == Dot(u, v, 0) + u[0] * v[0];
  }
}
