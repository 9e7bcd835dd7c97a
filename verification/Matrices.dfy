/** The dense matrix object and its in-place algorithms. */
module Matrices {
  import opened Reals
  import opened Vectors
  import opened GaussJordan
  import opened Cholesky
  import opened InversionExactness

  function Filled(r: nat, c: nat, value: real): (m: Mat)
    ensures Shape(m, r, c)
  {
    seq(r, _ => seq(c, _ => value))
  }

  class Matrix {
    var rows: nat
    var cols: nat
    var data: Mat

    ghost predicate Valid()
      reads this
    {
      Shape(data, rows, cols)
    }

    constructor (r: nat, c: nat, value: real)
      ensures Valid() && rows == r && cols == c
      ensures data == Filled(r, c, value)
    {
      rows, cols := r, c;
      data := Filled(r, c, value);
    }

    method Inverse() returns (inv: Matrix)
      requires Valid() && rows == cols
      ensures fresh(inv) && inv.Valid() && inv.rows == inv.cols == rows
      ensures inv.data == InverseOf(data)
      ensures rows > 0 ==>
        (IsInverse(data, inv.data, rows) <==> Completes(data) && SkipsOnlyZeros(data))
      ensures rows > 0 ==> (inv.data == ZeroMat(rows) <==> !Completes(data))
    {
      hide SkipsOnlyZeros, Completes, IsInverse, Reduce;
      var a, n := data, rows;
      if n > 0 {
        InverseExactly(a, n);
      }
      var run := Eliminate(a, n);
      inv := new Matrix(n, n, 0.0);
      match run {
        case Stopped(_) =>
          assert forall i :: 0 <= i < n ==> inv.data[i] == ZeroMat(n)[i];
        case Going(aug) => inv.data := RightHalf(aug, n);
      }
    }

    /** Writes a lower triangular factor into l; false when a value under the square root is not positive. */
    method CholeskyDecompose(l: Matrix, sqrt: real -> real) returns (ok: bool)
      requires Valid() && rows == cols && l != this && IsSqrt(sqrt)
      modifies l
      ensures l.Valid() && l.rows == l.cols == rows
      ensures ok ==> Factor(data, l.data, rows)
      ensures !ok ==> Stuck(data, l.data, rows)
      ensures ok <==> PositiveDefinite(LowerSym(data, rows), rows)
      ensures Symmetric(data, rows) ==> (ok <==> PositiveDefinite(data, rows))
    {
      var n := rows;
      l.rows, l.cols, l.data := n, n, Filled(n, n, 0.0);
      EmptyFactor(data, n);
      hide PartialFactor, Factor, PositiveDefinite, Filled, LowerSym;
      var i := 0;
      while i < n
        invariant i <= n && l.rows == l.cols == n && PartialFactor(data, l.data, n, i, 0)
      {
        var j := 0;
        while j <= i
          invariant j <= i + 1 && l.rows == l.cols == n && PartialFactor(data, l.data, n, i, j)
        {
          PartialShape(data, l.data, n, i, j);
          var sum := RemainingSum(data, l.data, n, i, j);
          if i == j {
            if sum <= 0.0 {
              assert StuckAt(data, l.data, n, i);
              FactorDecides(data, l.data, n);
              LowerSymOf(data, n);
              return false;
            }
            DiagonalWritten(data, l.data, n, i, sum, sqrt);
            l.data := l.data[i := l.data[i][j := sqrt(sum)]];
          } else {
            OffDiagonalWritten(data, l.data, n, i, j, sum);
            l.data := l.data[i := l.data[i][j := sum / l.data[j][j]]];
          }
          j := j + 1;
        }
        NextRow(data, l.data, n, i);
        i := i + 1;
      }
      PartialShape(data, l.data, n, n, 0);
      Finished(data, l.data, n);
      FactorDecides(data, l.data, n);
      LowerSymOf(data, n);
      return true;
    }

    /** Solves a linear system: by the Cholesky factor when there is one, else by the inverse. */
    method Solve(b: Vec, sqrt: real -> real) returns (x: Vec)
      requires Valid() && rows == cols == |b| && IsSqrt(sqrt)
      ensures |x| == rows && Answers(data, rows, b, x)
      ensures Symmetric(data, rows) && (PositiveDefinite(data, rows) || (Completes(data) && SkipsOnlyZeros(data)))
        ==> MatVec(data, x, rows, rows) == b
    {
      var n := rows;
      hide Completes, SkipsOnlyZeros, PositiveDefinite, InverseOf, LowerSym;
      LowerSymOf(data, n);
      InverseOfSquare(data, n);
      var l := new Matrix(0, 0, 0.0);
      var ok := CholeskyDecompose(l, sqrt);
      if !ok {
        var inv := Inverse();
        x := inv.TimesVector(b);
        if n > 0 && IsInverse(data, InverseOf(data), n) {
          InverseSolves(data, inv.data, n, b);
        }
        return;
      }
      var y := l.SolveLowerTriangular(b);
      x := l.SolveUpperTriangular(y);
      FactorOfLower(data, l.data, n);
      SolvesSystem(LowerSym(data, n), l.data, n, b, y, x);
    }

    /** Forward substitution with the lower triangle. */
    method SolveLowerTriangular(b: Vec) returns (y: Vec)
      requires Valid() && rows == cols == |b|
      requires forall i :: 0 <= i < rows ==> data[i][i] != 0.0
      ensures |y| == rows && ForwardSolved(data, y, b, rows)
    {
      var n := rows;
      y := Zeros(n);
      var i := 0;
      while i < n
        invariant i <= n && |y| == n && ForwardSolved(data, y, b, i)
      {
        ghost var before := y;
        y := y[i := b[i]];
        var j := 0;
        while j < i
          invariant j <= i && |y| == n && forall k :: 0 <= k < n && k != i ==> y[k] == before[k]
          invariant y[i] == b[i] - Dot(data[i], before, j)
        {
          y := y[i := y[i] - data[i][j] * y[j]];
          j := j + 1;
        }
        ghost var rest := y[i];
        y := y[i := y[i] / data[i][i]];
        Quotient(rest, data[i][i]);
        ForwardStep(data, before, y, b, n, i);
        i := i + 1;
      }
    }

    /** Back substitution with the transpose of the lower triangle. */
    method SolveUpperTriangular(b: Vec) returns (x: Vec)
      requires Valid() && rows == cols == |b|
      requires forall i :: 0 <= i < rows ==> data[i][i] != 0.0
      ensures |x| == rows && BackwardSolved(data, x, b, rows, 0)
    {
      var n := rows;
      x := Zeros(n);
      var i := n;
      while i > 0
        invariant 0 <= i <= n && |x| == n && BackwardSolved(data, x, b, n, i)
      {
        i := i - 1;
        ghost var before := x;
        x := x[i := b[i]];
        var j := i + 1;
        while j < n
          invariant i < j <= n && |x| == n && forall k :: 0 <= k < n && k != i ==> x[k] == before[k]
          invariant x[i] == b[i] - ColSum(before, data, i, i + 1, j)
        {
          x := x[i := x[i] - data[j][i] * x[j]];
          j := j + 1;
        }
        ghost var rest := x[i];
        x := x[i := x[i] / data[i][i]];
        Quotient(rest, data[i][i]);
        BackwardStep(data, before, x, b, n, i);
      }
    }

    method TimesVector(v: Vec) returns (result: Vec)
      requires Valid() && cols == |v|
      ensures result == MatVec(data, v, rows, cols)
    {
      result := Zeros(rows);
      var i := 0;
      while i < rows
        invariant i <= rows == |result|
        invariant forall k :: 0 <= k < rows ==> result[k] == if k < i then Dot(data[k], v, cols) else 0.0
      {
        var j := 0;
        while j < cols
          invariant j <= cols && |result| == rows && result[i] == Dot(data[i], v, j)
          invariant forall k :: 0 <= k < rows && k != i ==> result[k] == if k < i then Dot(data[k], v, cols) else 0.0
        {
          result := result[i := result[i] + data[i][j] * v[j]];
          j := j + 1;
        }
        i := i + 1;
      }
    }
  }

  /** What is left of entry (i, j) once the products of the earlier columns are taken off. */
  method RemainingSum(a: Mat, l: Mat, n: nat, i: nat, j: nat) returns (sum: real)
    requires Shape(a, n, n) && Shape(l, n, n) && j <= i < n
    ensures sum == a[i][j] - Dot(l[i], l[j], j)
  {
    sum := a[i][j];
    var k := 0;
    while k < j
      invariant k <= j && sum == a[i][j] - Dot(l[i], l[j], k)
    {
      sum := sum - l[i][k] * l[j][k];
      k := k + 1;
    }
  }

  lemma ForwardStep(l: Mat, before: Vec, y: Vec, b: Vec, n: nat, i: nat)
    requires Shape(l, n, n) && i < n == |before| && n == |y| && n == |b|
    requires ForwardSolved(l, before, b, i)
    requires forall k :: 0 <= k < n && k != i ==> y[k] == before[k]
    requires l[i][i] * y[i] == b[i] - Dot(l[i], before, i)
    ensures ForwardSolved(l, y, b, i + 1)
  {
    forall r | 0 <= r <= i ensures Dot(l[r], y, r + 1) == b[r] {
      if r < i {
        DotAgrees(l[r], l[r], y, before, r + 1);
      } else {
        DotAgrees(l[i], l[i], y, before, i);
      }
    }
  }

  lemma BackwardStep(l: Mat, before: Vec, x: Vec, b: Vec, n: nat, i: nat)
    requires Shape(l, n, n) && i < n == |before| && n == |x| && n == |b|
    requires BackwardSolved(l, before, b, n, i + 1)
    requires forall k :: 0 <= k < n && k != i ==> x[k] == before[k]
    requires l[i][i] * x[i] == b[i] - ColSum(before, l, i, i + 1, n)
    ensures BackwardSolved(l, x, b, n, i)
  {
    forall c | i <= c < n ensures ColSum(x, l, c, c, n) == b[c] {
      if c > i {
        ColSumAgrees(x, before, l, c, c, n);
      } else {
        BackwardRow(l, before, x, b, n, i);
      }
    }
  }

  lemma BackwardRow(l: Mat, before: Vec, x: Vec, b: Vec, n: nat, i: nat)
    requires Shape(l, n, n) && i < n == |before| && n == |x| && n == |b|
    requires forall k :: 0 <= k < n && k != i ==> x[k] == before[k]
    requires l[i][i] * x[i] == b[i] - ColSum(before, l, i, i + 1, n)
    ensures ColSum(x, l, i, i, n) == b[i]
  {
    ColSumSplit(x, l, i, i, i + 1, n);
    ColSumAgrees(x, before, l, i, i + 1, n);
    assert ColSum(x, l, i, i, i) == 0.0;
    assert ColSum(x, l, i, i, i + 1) == x[i] * l[i][i];
  }

  lemma EmptyFactor(a: Mat, n: nat)
    requires Shape(a, n, n)
    ensures PartialFactor(a, Filled(n, n, 0.0), n, 0, 0)
  {
  }

  /** The column loop of the elimination, stopping at a pivot below the tolerance. */
  method Eliminate(a: Mat, n: nat) returns (run: Progress)
    requires Square(a, n)
    ensures run == Reduce(Augment(a), 0)
    ensures run.Going? ==> Augmented(run.aug, n)
  {
    var aug := Augment(a);
    hide Step;
    var col := 0;
    while col < n
      invariant col <= n && Augmented(aug, n)
      invariant Reduce(aug, col) == Reduce(Augment(a), 0)
    {
      run := EliminateColumn(aug, n, col);
      match run {
        case Stopped(_) => return;
        case Going(next) => aug := next;
      }
      col := col + 1;
    }
    run := Going(aug);
  }

  method EliminateColumn(aug: Mat, n: nat, col: nat) returns (s: Progress)
    requires Augmented(aug, n) && col < n
    ensures s == Step(aug, col)
  {
    var pivotRow := FindPivot(aug, n, col);
    var sw := aug;
    if pivotRow != col {
      sw := aug[col := aug[pivotRow]][pivotRow := aug[col]];
    }
    assert sw == SwapPivot(aug, col);
    var pivot := sw[col][col];
    if Abs(pivot) < TOLERANCE {
      return Stopped(pivot);
    }
    var scaled := DividePivotRow(sw, n, col);
    var cleared := ClearColumn(scaled, n, col);
    s := Going(cleared);
  }

  /** The scan for the largest entry of a column, with its running maximum. */
  method FindPivot(aug: Mat, n: nat, col: nat) returns (pivotRow: nat)
    requires Augmented(aug, n) && col < n
    ensures pivotRow == BestRow(aug, col, n) && col <= pivotRow < n
    ensures forall r :: col <= r < n ==> Abs(aug[r][col]) <= Abs(aug[pivotRow][col])
    ensures forall r :: col <= r < pivotRow ==> Abs(aug[r][col]) < Abs(aug[pivotRow][col])
  {
    hide Abs;
    BestRowFirst(aug, col, n);
    pivotRow := col;
    var maxVal := Abs(aug[col][col]);
    var row := col + 1;
    while row < n
      invariant col < row <= n
      invariant pivotRow == BestRow(aug, col, row) && maxVal == Abs(aug[pivotRow][col])
    {
      if Abs(aug[row][col]) > maxVal {
        maxVal := Abs(aug[row][col]);
        pivotRow := row;
      }
      row := row + 1;
    }
  }

  method DividePivotRow(aug: Mat, n: nat, col: nat) returns (scaled: Mat)
    requires Augmented(aug, n) && col < n && aug[col][col] != 0.0
    ensures scaled == aug[col := ScaleRow(aug[col], aug[col][col], col)]
  {
    var pivot := aug[col][col];
    scaled := aug;
    var j := col;
    while j < 2 * n
      invariant col <= j <= 2 * n
      invariant |scaled| == n && |scaled[col]| == 2 * n && forall r :: 0 <= r < n && r != col ==> scaled[r] == aug[r]
      invariant forall k :: 0 <= k < 2 * n ==>
        scaled[col][k] == if col <= k < j then aug[col][k] / pivot else aug[col][k]
    {
      scaled := scaled[col := scaled[col][j := scaled[col][j] / pivot]];
      j := j + 1;
    }
    assert scaled[col] == ScaleRow(aug[col], pivot, col);
  }

  method ClearColumn(aug: Mat, n: nat, col: nat) returns (cleared: Mat)
    requires Augmented(aug, n) && col < n
    ensures cleared == ClearRows(aug, col, n)
  {
    cleared := aug;
    var row := 0;
    while row < n
      invariant row <= n && cleared == ClearRows(aug, col, row)
    {
      if row != col && Abs(cleared[row][col]) > TOLERANCE {
        cleared := SubtractPivotRow(cleared, n, col, row);
      }
      assert cleared == ClearRows(aug, col, row + 1);
      row := row + 1;
    }
  }

  method SubtractPivotRow(aug: Mat, n: nat, col: nat, row: nat) returns (cleared: Mat)
    requires Augmented(aug, n) && col < n && row < n && row != col
    ensures cleared == aug[row := SubtractRow(aug[row], aug[row][col], aug[col], col)]
  {
    cleared := aug;
    var factor := aug[row][col];
    var j := col;
    while j < 2 * n
      invariant col <= j <= 2 * n && |cleared| == n && |cleared[row]| == 2 * n
      invariant forall r :: 0 <= r < n && r != row ==> cleared[r] == aug[r]
      invariant forall k :: 0 <= k < 2 * n ==>
        cleared[row][k] == if col <= k < j then aug[row][k] - factor * aug[col][k] else aug[row][k]
    {
      cleared := cleared[row := cleared[row][j := cleared[row][j] - factor * cleared[col][j]]];
      j := j + 1;
    }
    ghost var target := SubtractRow(aug[row], factor, aug[col], col);
    assert forall k :: 0 <= k < 2 * n ==> cleared[row][k] == target[k];
    assert cleared[row] == target;
  }
}
