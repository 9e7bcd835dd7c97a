/** When exactly the elimination returns an inverse, with nothing assumed about its tolerances. */
module InversionExactness {
  import opened Reals
  import opened Vectors
  import opened GaussJordan
  import opened Cholesky

  // The right half always undergoes whole row operations, and so do the columns from the current
  // one on. Skipped entries therefore never enter the right half: they only stay behind on the left.

  /** From column col on, each row [l | r] has l == r * a. */
  ghost predicate Aligned(a: Mat, aug: Mat, n: nat, col: nat) {
    && Square(a, n) && Augmented(aug, n)
    && forall r, j :: 0 <= r < n && col <= j < n ==> EntryAligned(a, aug[r], n, j)
  }

  ghost predicate EntryAligned(a: Mat, row: Vec, n: nat, j: nat)
    requires Square(a, n) && |row| == 2 * n && j < n
  {
    row[j] == Dot(row[n..], Column(a, j), n)
  }

  /** The right half of row r maps x to the number v. */
  ghost predicate Maps(row: Vec, x: Vec, n: nat, v: real) {
    |row| == 2 * n && |x| == n && Dot(row[n..], x, n) == v
  }

  function Delta(r: int, c: int): real {
    if r == c then 1.0 else 0.0
  }

  /** The right half maps x to unit vector c. */
  ghost predicate MapsToUnit(aug: Mat, x: Vec, n: nat, c: nat) {
    Augmented(aug, n) && |x| == n && forall r :: 0 <= r < n ==> Maps(aug[r], x, n, Delta(r, c))
  }

  // ----- One row operation

  lemma ScaledRight(row: Vec, d: real, col: nat, n: nat, x: Vec)
    requires |row| == 2 * n && col < n == |x| && d != 0.0
    ensures Dot(row[n..], x, n) == d * Dot(ScaleRow(row, d, col)[n..], x, n)
  {
    var scaled := ScaleRow(row, d, col);
    forall k | 0 <= k < n ensures row[n..][k] == 0.0 + d * scaled[n..][k] {
      assert scaled[n + k] == row[n + k] / d;
      Quotient(row[n + k], d);
    }
    hide ScaleRow, Dot;
    ScaleDot(scaled[n..], row[n..], d, x, n);
  }

  lemma SubtractedRight(row: Vec, factor: real, pivotRow: Vec, col: nat, n: nat, x: Vec)
    requires |row| == 2 * n == |pivotRow| && col < n == |x|
    ensures Dot(SubtractRow(row, factor, pivotRow, col)[n..], x, n)
            == Dot(row[n..], x, n) + (-factor) * Dot(pivotRow[n..], x, n)
  {
    hide Dot;
    var next := SubtractRow(row, factor, pivotRow, col);
    forall k | 0 <= k < n ensures next[n..][k] == row[n..][k] + (-factor) * pivotRow[n..][k] {
      assert next[n + k] == row[n + k] - factor * pivotRow[n + k];
    }
    hide SubtractRow;
    DotLinear(next[n..], row[n..], -factor, pivotRow[n..], x, n);
  }

  /** Where the pivot row gives zero, subtracting it changes nothing; nor did scaling it. */
  lemma ZeroPivotRow(row: Vec, factor: real, pivotRow: Vec, col: nat, n: nat, x: Vec)
    requires |row| == 2 * n == |pivotRow| && col < n == |x| && Dot(pivotRow[n..], x, n) == 0.0
    ensures Dot(SubtractRow(row, factor, pivotRow, col)[n..], x, n) == Dot(row[n..], x, n)
  {
    hide *;
    SubtractedRight(row, factor, pivotRow, col, n, x);
  }

  lemma ZeroUnscaled(row: Vec, d: real, col: nat, n: nat, x: Vec)
    requires |row| == 2 * n && col < n == |x| && d != 0.0 && Dot(ScaleRow(row, d, col)[n..], x, n) == 0.0
    ensures Dot(row[n..], x, n) == 0.0
  {
    hide *;
    ScaledRight(row, d, col, n, x);
  }

  lemma ScaledAligned(a: Mat, row: Vec, d: real, col: nat, n: nat, j: nat)
    requires Square(a, n) && |row| == 2 * n && col <= j < n && d != 0.0 && EntryAligned(a, row, n, j)
    ensures EntryAligned(a, ScaleRow(row, d, col), n, j)
  {
    ScaledRight(row, d, col, n, Column(a, j));
    Quotient(row[j], d);
    CancelFactor(row[j], row[j] / d, Dot(ScaleRow(row, d, col)[n..], Column(a, j), n), d);
  }

  lemma SubtractedAligned(a: Mat, row: Vec, factor: real, pivotRow: Vec, col: nat, n: nat, j: nat)
    requires Square(a, n) && |row| == 2 * n == |pivotRow| && col <= j < n
    requires EntryAligned(a, row, n, j) && EntryAligned(a, pivotRow, n, j)
    ensures EntryAligned(a, SubtractRow(row, factor, pivotRow, col), n, j)
  {
    SubtractedRight(row, factor, pivotRow, col, n, Column(a, j));
    hide Dot, Column;
    SameSum(row[j], factor, pivotRow[j]);
  }

  lemma SameSum(u: real, f: real, v: real)
    ensures u - f * v == u + (-f) * v
  {
  }

  // ----- One column

  /** What a column that is not given up does, row by row. */
  lemma StepRows(aug: Mat, n: nat, col: nat)
    requires Augmented(aug, n) && col < n && Step(aug, col).Going?
    ensures var sw, next := SwapPivot(aug, col), Step(aug, col).aug;
      && Augmented(sw, n) && Augmented(next, n) && sw[col][col] != 0.0
      && var pivotRow := ScaleRow(sw[col], sw[col][col], col);
         && next[col] == pivotRow
         && forall r :: 0 <= r < n && r != col ==>
              next[r] == if Abs(sw[r][col]) > TOLERANCE then SubtractRow(sw[r], sw[r][col], pivotRow, col) else sw[r]
  {
    SwapRows(aug, n, col);
    hide SwapPivot, BestRow, ScaleRow, SubtractRow;
  }

  lemma {:induction false} StepAligned(a: Mat, aug: Mat, n: nat, col: nat)
    requires Aligned(a, aug, n, col) && col < n && Step(aug, col).Going?
    ensures Aligned(a, Step(aug, col).aug, n, col)
  {
    var sw, next := SwapPivot(aug, col), Step(aug, col).aug;
    StepRows(aug, n, col);
    SwapRows(aug, n, col);
    hide Step, SwapPivot, BestRow, EntryAligned, ScaleRow, SubtractRow;
    var pivotRow := ScaleRow(sw[col], sw[col][col], col);
    forall r, j | 0 <= r < n && col <= j < n ensures EntryAligned(a, next[r], n, j) {
      ScaledAligned(a, sw[col], sw[col][col], col, n, j);
      if r != col && Abs(sw[r][col]) > TOLERANCE {
        SubtractedAligned(a, sw[r], sw[r][col], pivotRow, col, n, j);
      }
    }
  }

  /** A unit vector of an earlier column that stands after the step stood before it. */
  lemma {:induction false} UnitBack(aug: Mat, n: nat, col: nat, x: Vec, c: nat)
    requires Augmented(aug, n) && c < col < n == |x| && Step(aug, col).Going?
    requires MapsToUnit(Step(aug, col).aug, x, n, c)
    ensures MapsToUnit(aug, x, n, c)
  {
    var sw, next := SwapPivot(aug, col), Step(aug, col).aug;
    StepRows(aug, n, col);
    hide Step, SwapPivot, ScaleRow, SubtractRow, Dot, Abs;
    var pivotRow := ScaleRow(sw[col], sw[col][col], col);
    assert Maps(next[col], x, n, 0.0);
    ZeroUnscaled(sw[col], sw[col][col], col, n, x);
    assert Maps(sw[col], x, n, 0.0);
    forall r | 0 <= r < n ensures Maps(sw[r], x, n, Delta(r, c)) {
      assert Maps(next[r], x, n, Delta(r, c));
      if r != col && Abs(sw[r][col]) > TOLERANCE {
        ZeroPivotRow(sw[r], sw[r][col], pivotRow, col, n, x);
      }
    }
    UnswapUnit(aug, n, col, x, c);
  }

  lemma UnswapUnit(aug: Mat, n: nat, col: nat, x: Vec, c: nat)
    requires Augmented(aug, n) && c < col < n == |x|
    requires MapsToUnit(SwapPivot(aug, col), x, n, c)
    ensures MapsToUnit(aug, x, n, c)
  {
    var sw, p := SwapPivot(aug, col), BestRow(aug, col, |aug|);
    SwapRows(aug, n, col);
    hide SwapPivot, BestRow, Maps;
    forall r | 0 <= r < n ensures Maps(aug[r], x, n, Delta(r, c)) {
      var r' := if r == col then p else if r == p then col else r;
      assert sw[r'] == aug[r] && Maps(sw[r'], x, n, Delta(r', c));
    }
  }

  /** What the right half kills after the step it killed before. */
  lemma {:induction false} KilledBack(aug: Mat, n: nat, col: nat, x: Vec)
    requires Augmented(aug, n) && col < n == |x| && Step(aug, col).Going?
    requires Augmented(Step(aug, col).aug, n) && RightKills(Step(aug, col).aug, x, n)
    ensures Augmented(SwapPivot(aug, col), n) && RightKills(SwapPivot(aug, col), x, n)
  {
    var sw, next := SwapPivot(aug, col), Step(aug, col).aug;
    StepRows(aug, n, col);
    hide Step, SwapPivot, ScaleRow, SubtractRow, Dot, Abs;
    var pivotRow := ScaleRow(sw[col], sw[col][col], col);
    assert Dot(next[col][n..], x, n) == 0.0;
    ZeroUnscaled(sw[col], sw[col][col], col, n, x);
    forall r | 0 <= r < n ensures Dot(sw[r][n..], x, n) == 0.0 {
      assert Dot(next[r][n..], x, n) == 0.0;
      if r != col && Abs(sw[r][col]) > TOLERANCE {
        ZeroPivotRow(sw[r], sw[r][col], pivotRow, col, n, x);
      }
    }
  }

  lemma {:induction false} StepInjective(aug: Mat, n: nat, col: nat)
    requires Augmented(aug, n) && col < n && RightInjective(aug, n) && Step(aug, col).Going?
    ensures Augmented(Step(aug, col).aug, n) && RightInjective(Step(aug, col).aug, n)
  {
    StepShape(aug, n, col);
    SwapInjective(aug, n, col);
    hide Step, SwapPivot, RightKills;
    forall x: Vec | |x| == n && RightKills(Step(aug, col).aug, x, n) ensures x == Zeros(n) {
      KilledBack(aug, n, col, x);
    }
  }

  // ----- The whole run

  lemma {:induction false} UnitStays(aug: Mat, n: nat, col: nat, x: Vec, c: nat)
    requires Augmented(aug, n) && c < col <= n == |x| && Reduce(aug, col).Going?
    requires MapsToUnit(Reduce(aug, col).aug, x, n, c)
    ensures MapsToUnit(aug, x, n, c)
    decreases n - col
  {
    hide Step, MapsToUnit;
    if col < n {
      StepShape(aug, n, col);
      UnitStays(Step(aug, col).aug, n, col + 1, x, c);
      UnitBack(aug, n, col, x, c);
    }
  }

  lemma StepShape(aug: Mat, n: nat, col: nat)
    requires Augmented(aug, n) && col < n
    ensures Step(aug, col).Going? ==> Augmented(Step(aug, col).aug, n)
  {
    hide Step;
  }

  lemma {:induction false} ReduceInjective(aug: Mat, n: nat, col: nat)
    requires Augmented(aug, n) && col <= n && RightInjective(aug, n) && Reduce(aug, col).Going?
    ensures Augmented(Reduce(aug, col).aug, n) && RightInjective(Reduce(aug, col).aug, n)
    decreases n - col
  {
    hide Step, RightInjective;
    if col < n {
      StepInjective(aug, n, col);
      ReduceInjective(Step(aug, col).aug, n, col + 1);
    }
  }

  /** In a complete run whose right half maps every column of a to its unit vector, every entry
      that was skipped was zero: a skipped entry would still stand in its column. */
  lemma {:induction false} InverseForcesSkips(a: Mat, aug: Mat, n: nat, col: nat)
    requires Aligned(a, aug, n, col) && col <= n && Reduce(aug, col).Going?
    requires forall c :: 0 <= c < n ==> MapsToUnit(Reduce(aug, col).aug, Column(a, c), n, c)
    ensures SkipsExact(aug, col)
    decreases n - col
  {
    if col < n {
      var next := Step(aug, col).aug;
      StepAligned(a, aug, n, col);
      UnitStays(next, n, col + 1, Column(a, col), col);
      SkippedStands(a, aug, n, col);
      hide Step, SwapPivot, EntryAligned, MapsToUnit;
      InverseForcesSkips(a, next, n, col + 1);
    }
  }

  lemma SkippedStands(a: Mat, aug: Mat, n: nat, col: nat)
    requires Augmented(aug, n) && Square(a, n) && col < n && Step(aug, col).Going?
    requires Aligned(a, Step(aug, col).aug, n, col) && MapsToUnit(Step(aug, col).aug, Column(a, col), n, col)
    ensures forall r :: 0 <= r < n && r != col ==>
      var e := SwapPivot(aug, col)[r][col]; Abs(e) <= TOLERANCE ==> e == 0.0
  {
    var sw, next := SwapPivot(aug, col), Step(aug, col).aug;
    StepRows(aug, n, col);
    hide Step, SwapPivot, ScaleRow, SubtractRow, Dot, Column;
    forall r | 0 <= r < n && r != col && Abs(sw[r][col]) <= TOLERANCE ensures sw[r][col] == 0.0 {
      assert EntryAligned(a, next[r], n, col) && Maps(next[r], Column(a, col), n, Delta(r, col));
    }
  }

  lemma AugmentAligned(a: Mat, n: nat)
    requires Square(a, n)
    ensures Aligned(a, Augment(a), n, 0) && RightInjective(Augment(a), n)
  {
    AugmentSound(a, n);
    hide Augment, Dot, Column;
    forall r, j | 0 <= r < n && 0 <= j < n ensures EntryAligned(a, Augment(a)[r], n, j) {
      assert RowSound(Augment(a)[r], a, n);
    }
  }

  lemma InverseMapsColumns(a: Mat, last: Mat, n: nat, c: nat)
    requires Square(a, n) && Augmented(last, n) && c < n && LeftInverse(RightHalf(last, n), a, n)
    ensures MapsToUnit(last, Column(a, c), n, c)
  {
    hide Dot;
    forall r | 0 <= r < n ensures Maps(last[r], Column(a, c), n, Delta(r, c)) {
      assert RightHalf(last, n)[r] == last[r][n..];
    }
  }

  lemma ZeroHalfKills(last: Mat, n: nat, x: Vec)
    requires Augmented(last, n) && |x| == n && RightHalf(last, n) == ZeroMat(n)
    ensures RightKills(last, x, n)
  {
    hide Dot;
    forall r | 0 <= r < n ensures Dot(last[r][n..], x, n) == 0.0 {
      assert last[r][n..] == RightHalf(last, n)[r] == Zeros(n);
      DotZero(Zeros(n), x, 0, n);
      EmptyDot(Zeros(n), x);
    }
  }

  lemma EmptyDot(u: Vec, v: Vec)
    ensures Dot(u, v, 0) == 0.0
  {
  }

  lemma RightHalfNotZero(last: Mat, n: nat)
    requires n > 0 && Augmented(last, n) && RightInjective(last, n)
    ensures RightHalf(last, n) != ZeroMat(n)
  {
    var x := Unit(n, 0);
    assert x[0] != Zeros(n)[0];
    if RightHalf(last, n) == ZeroMat(n) {
      ZeroHalfKills(last, n, x);
    }
  }

  /** The program's result is a two-sided inverse exactly when the run completes and every entry it
      skipped was zero. It is the zero matrix exactly when the run does not complete. */
  lemma {:induction false} InverseExactly(a: Mat, n: nat)
    requires n > 0 && Square(a, n)
    ensures IsInverse(a, InverseOf(a), n) <==> Completes(a) && SkipsOnlyZeros(a)
    ensures InverseOf(a) == ZeroMat(n) <==> !Completes(a)
  {
    if Completes(a) {
      var last := Reduce(Augment(a), 0).aug;
      AugmentAligned(a, n);
      ReduceInjective(Augment(a), n, 0);
      RightHalfNotZero(last, n);
      hide Reduce, Augment, RightInjective, Aligned;
      if SkipsOnlyZeros(a) {
        InverseExactlyWhenComplete(a, n);
      }
      if IsInverse(a, InverseOf(a), n) {
        forall c | 0 <= c < n ensures MapsToUnit(last, Column(a, c), n, c) {
          InverseMapsColumns(a, last, n, c);
        }
        InverseForcesSkips(a, Augment(a), n, 0);
      }
    } else {
      ZeroMatNotInverse(a, n);
    }
  }

  /** The zero matrix for a singular matrix, the inverse for any other. */
  ghost predicate AnswersRight(a: Mat, n: nat)
    requires Square(a, n)
  {
    if Singular(a, n) then InverseOf(a) == ZeroMat(n) else IsInverse(a, InverseOf(a), n)
  }

  /** The program answers a singular matrix rightly exactly when the run stops, and any other exactly
      when the run completes with nothing but zeros skipped. Without non-zero skipped entries it never
      errs on a singular matrix, and without tiny pivots either it never errs. */
  lemma {:induction false} InverseDecidesSingularity(a: Mat, n: nat)
    requires n > 0 && Square(a, n)
    ensures AnswersRight(a, n) <==>
      if Singular(a, n) then !Completes(a) else Completes(a) && SkipsOnlyZeros(a)
    ensures SkipsOnlyZeros(a) ==> (AnswersRight(a, n) <==> Singular(a, n) || Completes(a))
    ensures SkipsOnlyZeros(a) && StopsExact(a) ==> AnswersRight(a, n)
  {
    InverseExactly(a, n);
    if IsInverse(a, InverseOf(a), n) {
      InverseNotSingular(a, InverseOf(a), n);
    }
    if SkipsOnlyZeros(a) {
      AugmentSound(a, n);
      ReduceSound(a, Augment(a), n, 0);
    }
    hide Singular, IsInverse, SkipsExact, Augment, Reduce;
  }

  /** A stop at a tiny pivot can still be the right answer. */
  lemma TinyPivotOfSingular(e: real)
    requires 0.0 < e < TOLERANCE
    ensures var a := [[e, 0.0], [0.0, 0.0]]; Singular(a, 2) && !StopsExact(a) && AnswersRight(a, 2)
  {
    var a := [[e, 0.0], [0.0, 0.0]];
    var aug := Augment(a);
    assert aug[0][0] == e && aug[1][0] == 0.0;
    assert Step(aug, 0) == Stopped(e);
    var x := [0.0, 1.0];
    DotTwo(a[0], x);
    DotTwo(a[1], x);
    assert x[1] != Zeros(2)[1] && Annihilates(a, x, 2);
    InverseExactly(a, 2);
  }

  // ----- Solving with the result

  /** The right half maps x to y. */
  ghost predicate RightGives(aug: Mat, n: nat, x: Vec, y: Vec) {
    Augmented(aug, n) && |x| == n == |y| && forall r :: 0 <= r < n ==> Maps(aug[r], x, n, y[r])
  }

  ghost predicate RightSurjective(aug: Mat, n: nat) {
    Augmented(aug, n) && forall y: Vec :: |y| == n ==> exists x: Vec :: RightGives(aug, n, x, y)
  }

  /** What must stand before the operations on a column for y to stand after them. */
  function Undone(sw: Mat, n: nat, col: nat, y: Vec): (z: Vec)
    requires |sw| == n == |y| && col < n && forall r :: 0 <= r < n ==> col < |sw[r]|
    ensures |z| == n
  {
    seq(n, r requires 0 <= r < n =>
      if r == col then sw[col][col] * y[col]
      else if Abs(sw[r][col]) > TOLERANCE then y[r] + sw[r][col] * y[col]
      else y[r])
  }

  lemma RowRedone(row: Vec, f: real, pivotRow: Vec, col: nat, n: nat, x: Vec, v: real, p: real)
    requires |row| == 2 * n == |pivotRow| && col < n == |x|
    requires Dot(row[n..], x, n) == v + f * p && Dot(pivotRow[n..], x, n) == p
    ensures Dot(SubtractRow(row, f, pivotRow, col)[n..], x, n) == v
  {
    hide *;
    SubtractedRight(row, f, pivotRow, col, n, x);
    SameSum(v + f * p, f, p);
  }

  lemma PivotRedone(row: Vec, d: real, col: nat, n: nat, x: Vec, v: real)
    requires |row| == 2 * n && col < n == |x| && d != 0.0 && Dot(row[n..], x, n) == d * v
    ensures Dot(ScaleRow(row, d, col)[n..], x, n) == v
  {
    hide Dot;
    ScaledRight(row, d, col, n, x);
    CancelFactor(d * v, v, Dot(ScaleRow(row, d, col)[n..], x, n), d);
  }

  lemma {:induction false} Redone(aug: Mat, n: nat, col: nat, x: Vec, y: Vec)
    requires Augmented(aug, n) && col < n == |x| && |y| == n && Step(aug, col).Going?
    requires Augmented(SwapPivot(aug, col), n)
      && RightGives(SwapPivot(aug, col), n, x, Undone(SwapPivot(aug, col), n, col, y))
    ensures RightGives(Step(aug, col).aug, n, x, y)
  {
    var sw, next := SwapPivot(aug, col), Step(aug, col).aug;
    StepRows(aug, n, col);
    hide Step, SwapPivot, ScaleRow, SubtractRow, Dot, Abs;
    var pivotRow := ScaleRow(sw[col], sw[col][col], col);
    forall r | 0 <= r < n ensures Maps(next[r], x, n, y[r]) {
      RowGiven(sw, n, col, x, y, r);
    }
  }

  lemma RowGiven(sw: Mat, n: nat, col: nat, x: Vec, y: Vec, r: nat)
    requires Augmented(sw, n) && col < n == |x| && |y| == n && r < n && sw[col][col] != 0.0
    requires RightGives(sw, n, x, Undone(sw, n, col, y))
    ensures var pivotRow := ScaleRow(sw[col], sw[col][col], col);
      && |pivotRow| == 2 * n && Maps(pivotRow, x, n, y[col])
      && (r != col && Abs(sw[r][col]) > TOLERANCE ==>
            Maps(SubtractRow(sw[r], sw[r][col], pivotRow, col), x, n, y[r]))
      && (r != col && Abs(sw[r][col]) <= TOLERANCE ==> Maps(sw[r], x, n, y[r]))
  {
    var pivotRow, z := ScaleRow(sw[col], sw[col][col], col), Undone(sw, n, col, y);
    assert |pivotRow| == 2 * n;
    hide Dot, ScaleRow, Abs;
    assert Maps(sw[col], x, n, z[col]) && Maps(sw[r], x, n, z[r]);
    PivotRedone(sw[col], sw[col][col], col, n, x, y[col]);
    if r != col && Abs(sw[r][col]) > TOLERANCE {
      RowRedone(sw[r], sw[r][col], pivotRow, col, n, x, y[r], y[col]);
    }
  }

  function Swapped(z: Vec, n: nat, p: nat, col: nat): (z': Vec)
    requires p < n == |z| && col < n
    ensures |z'| == n
  {
    seq(n, r requires 0 <= r < n => z[if r == col then p else if r == p then col else r])
  }

  lemma UnswapGives(aug: Mat, n: nat, col: nat, x: Vec, z: Vec)
    requires Augmented(aug, n) && col < n == |z| && |x| == n
    requires RightGives(aug, n, x, Swapped(z, n, BestRow(aug, col, |aug|), col))
    ensures Augmented(SwapPivot(aug, col), n) && RightGives(SwapPivot(aug, col), n, x, z)
  {
    var sw, p := SwapPivot(aug, col), BestRow(aug, col, |aug|);
    SwapRows(aug, n, col);
    hide SwapPivot, BestRow, Maps;
    forall r | 0 <= r < n ensures Maps(sw[r], x, n, z[r]) {
      var r' := if r == col then p else if r == p then col else r;
      assert sw[r] == aug[r'] && Maps(aug[r'], x, n, Swapped(z, n, p, col)[r']);
    }
  }

  lemma {:induction false} StepSurjective(aug: Mat, n: nat, col: nat)
    requires col < n && RightSurjective(aug, n) && Step(aug, col).Going?
    ensures RightSurjective(Step(aug, col).aug, n)
  {
    StepShape(aug, n, col);
    StepRows(aug, n, col);
    hide Step, SwapPivot, RightGives, Abs;
    forall y: Vec | |y| == n ensures exists x: Vec :: RightGives(Step(aug, col).aug, n, x, y) {
      var z := Undone(SwapPivot(aug, col), n, col, y);
      var z' := Swapped(z, n, BestRow(aug, col, |aug|), col);
      var x: Vec :| RightGives(aug, n, x, z');
      GivesLengths(aug, n, x, z');
      UnswapGives(aug, n, col, x, z);
      Redone(aug, n, col, x, y);
    }
  }

  lemma GivesLengths(aug: Mat, n: nat, x: Vec, y: Vec)
    requires RightGives(aug, n, x, y)
    ensures |x| == n == |y|
  {
  }

  lemma {:induction false} ReduceSurjective(aug: Mat, n: nat, col: nat)
    requires col <= n && RightSurjective(aug, n) && Reduce(aug, col).Going?
    ensures RightSurjective(Reduce(aug, col).aug, n)
    decreases n - col
  {
    hide Step, RightGives;
    if col < n {
      StepSurjective(aug, n, col);
      ReduceSurjective(Step(aug, col).aug, n, col + 1);
    }
  }

  lemma AugmentSurjective(a: Mat, n: nat)
    requires Square(a, n)
    ensures RightSurjective(Augment(a), n)
  {
    var aug := Augment(a);
    forall y: Vec | |y| == n ensures exists x: Vec :: RightGives(aug, n, x, y) {
      forall r | 0 <= r < n ensures Maps(aug[r], y, n, y[r]) {
        assert aug[r][n..] == Unit(n, r);
        UnitDot(n, r, y, n);
      }
      assert RightGives(aug, n, y, y);
    }
  }

  /** If a undoes the surjective b on the right, it undoes it on both sides: b a b == b, and every
      unit vector is b x for some x. */
  lemma {:induction false} SurjectiveRightInverse(a: Mat, last: Mat, n: nat)
    requires Square(a, n) && RightSurjective(last, n) && LeftInverse(a, RightHalf(last, n), n)
    ensures IsInverse(a, RightHalf(last, n), n)
  {
    var b := RightHalf(last, n);
    hide RightSurjective, Dot, RightHalf;
    forall i, j | 0 <= i < n && 0 <= j < n ensures Dot(b[i], Column(a, j), n) == if i == j then 1.0 else 0.0 {
      LeftEntry(a, last, n, i, j);
    }
  }

  lemma LeftEntry(a: Mat, last: Mat, n: nat, i: nat, j: nat)
    requires Square(a, n) && RightSurjective(last, n) && LeftInverse(a, RightHalf(last, n), n) && i < n && j < n
    ensures Dot(RightHalf(last, n)[i], Column(a, j), n) == if i == j then 1.0 else 0.0
  {
    var b, z := RightHalf(last, n), Unit(n, j);
    assert |z| == n;
    var x: Vec :| RightGives(last, n, x, z);
    GivesProduct(last, n, x, z);
    hide RightSurjective, RightGives, RightHalf, Dot;
    RightInverseSolves(a, b, n, x);
    TimesUnit(a, n, j);
    assert MatVec(b, x, n, n)[i] == Dot(b[i], x, n);
  }

  lemma GivesProduct(last: Mat, n: nat, x: Vec, z: Vec)
    requires RightGives(last, n, x, z)
    ensures |x| == n == |z| && Square(RightHalf(last, n), n) && MatVec(RightHalf(last, n), x, n, n) == z
  {
    hide Dot;
    var b := RightHalf(last, n);
    forall r | 0 <= r < n ensures MatVec(b, x, n, n)[r] == z[r] {
      assert Maps(last[r], x, n, z[r]) && b[r] == last[r][n..];
    }
  }

  /** A matrix times a unit vector is its column. */
  lemma TimesUnit(a: Mat, n: nat, j: nat)
    requires Square(a, n) && j < n
    ensures MatVec(a, Unit(n, j), n, n) == Column(a, j)
  {
    var y := MatVec(a, Unit(n, j), n, n);
    forall k | 0 <= k < n ensures y[k] == Column(a, j)[k] {
      DotCommutes(a[k], Unit(n, j), n);
      UnitDot(n, j, a[k], n);
    }
  }

  /** Multiplication by b solves every system of a. */
  ghost predicate SolvesAll(a: Mat, b: Mat, n: nat)
    requires Square(a, n) && Square(b, n)
  {
    forall rhs: Vec :: |rhs| == n ==> MatVec(a, MatVec(b, rhs, n, n), n, n) == rhs
  }

  lemma SolvesAllIsRightInverse(a: Mat, b: Mat, n: nat)
    requires Square(a, n) && Square(b, n) && SolvesAll(a, b, n)
    ensures LeftInverse(a, b, n)
  {
    forall i, j | 0 <= i < n && 0 <= j < n ensures Dot(a[i], Column(b, j), n) == if i == j then 1.0 else 0.0 {
      TimesUnit(b, n, j);
      assert MatVec(a, Column(b, j), n, n) == Unit(n, j);
      assert MatVec(a, Column(b, j), n, n)[i] == Dot(a[i], Column(b, j), n);
    }
  }

  lemma InverseOfSquare(a: Mat, n: nat)
    requires Square(a, n)
    ensures Square(InverseOf(a), n)
  {
  }

  /** The fallback of solve answers every right-hand side exactly when the run completes with nothing
      but zeros skipped. */
  lemma {:induction false} FallbackSolvesExactly(a: Mat, n: nat)
    requires n > 0 && Square(a, n)
    ensures Square(InverseOf(a), n)
    ensures SolvesAll(a, InverseOf(a), n) <==> Completes(a) && SkipsOnlyZeros(a)
  {
    InverseOfSquare(a, n);
    InverseExactly(a, n);
    var b := InverseOf(a);
    if SolvesAll(a, b, n) { SolvingInverts(a, n); }
    hide Reduce, SkipsOnlyZeros, Augment, Completes, Dot, MatVec, LeftInverse;
    if IsInverse(a, b, n) {
      forall rhs: Vec | |rhs| == n ensures MatVec(a, MatVec(b, rhs, n, n), n, n) == rhs {
        InverseSolves(a, b, n, rhs);
      }
    }
  }

  lemma SolvingInverts(a: Mat, n: nat)
    requires n > 0 && Square(a, n) && Square(InverseOf(a), n) && SolvesAll(a, InverseOf(a), n)
    ensures IsInverse(a, InverseOf(a), n)
  {
    hide SolvesAll, LeftInverse, IsInverse;
    SolvesAllIsRightInverse(a, InverseOf(a), n);
    if Completes(a) {
      CompleteInverts(a, n);
    } else {
      ZeroMatNotRightInverse(a, n);
    }
  }

  lemma CompleteInverts(a: Mat, n: nat)
    requires Square(a, n) && Completes(a) && Square(InverseOf(a), n) && LeftInverse(a, InverseOf(a), n)
    ensures IsInverse(a, InverseOf(a), n)
  {
    CompleteSurjective(a, n);
    hide RightSurjective, LeftInverse, IsInverse;
    SurjectiveRightInverse(a, Reduce(Augment(a), 0).aug, n);
  }

  lemma CompleteSurjective(a: Mat, n: nat)
    requires Square(a, n) && Completes(a)
    ensures var last := Reduce(Augment(a), 0).aug;
      RightSurjective(last, n) && Augmented(last, n) && InverseOf(a) == RightHalf(last, n)
  {
    AugmentSurjective(a, n);
    hide Augment;
    ReduceSurjective(Augment(a), n, 0);
    hide Reduce;
  }

  lemma ZeroMatNotRightInverse(a: Mat, n: nat)
    requires n > 0 && Square(a, n)
    ensures !LeftInverse(a, ZeroMat(n), n)
  {
    var c := Column(ZeroMat(n), 0);
    DotCommutes(a[0], c, n);
    DotZero(c, a[0], 0, n);
  }

  // ----- What solve answers

  /** What solve returns for any matrix: the factorisation reads the lower triangle alone, and so does
      the system it solves; without a factor, the inverse of the whole matrix is used. */
  ghost predicate Answers(a: Mat, n: nat, b: Vec, x: Vec)
    requires Square(a, n) && |b| == n
  {
    InverseOfSquare(a, n);
    && |x| == n
    && if PositiveDefinite(LowerSym(a, n), n) then MatVec(LowerSym(a, n), x, n, n) == b
       else x == MatVec(InverseOf(a), b, n, n)
  }

  ghost predicate AlwaysSolves(a: Mat, n: nat)
    requires Square(a, n)
  {
    forall b: Vec, x: Vec :: |b| == n && Answers(a, n, b, x) ==> MatVec(a, x, n, n) == b
  }

  lemma SameColumns(a: Mat, s: Mat, n: nat)
    requires Square(a, n) && Square(s, n)
    requires forall x: Vec :: |x| == n ==> MatVec(a, x, n, n) == MatVec(s, x, n, n)
    ensures a == s
  {
    forall i, j | 0 <= i < n && 0 <= j < n ensures a[i][j] == s[i][j] {
      TimesUnit(a, n, j);
      TimesUnit(s, n, j);
      assert MatVec(a, Unit(n, j), n, n) == MatVec(s, Unit(n, j), n, n);
      assert Column(a, j)[i] == Column(s, j)[i];
    }
    forall i | 0 <= i < n ensures a[i] == s[i] {
      assert forall j :: 0 <= j < n ==> a[i][j] == s[i][j];
    }
  }

  /** For every matrix: solve answers every right-hand side rightly exactly when, with a positive
      definite lower triangle, the matrix is symmetric, and otherwise the elimination completes
      skipping only zeros. */
  lemma {:induction false} SolveAnswersExactly(a: Mat, n: nat)
    requires n > 0 && Square(a, n)
    ensures AlwaysSolves(a, n) <==>
      if PositiveDefinite(LowerSym(a, n), n) then Symmetric(a, n) else Completes(a) && SkipsOnlyZeros(a)
  {
    var s := LowerSym(a, n);
    LowerSymOf(a, n);
    InverseOfSquare(a, n);
    hide LowerSym, PositiveDefinite, MatVec, Completes, SkipsOnlyZeros, InverseOf, Symmetric;
    if PositiveDefinite(s, n) {
      if AlwaysSolves(a, n) {
        forall x: Vec | |x| == n ensures MatVec(a, x, n, n) == MatVec(s, x, n, n) {
          MatVecLength(s, x, n);
          assert Answers(a, n, MatVec(s, x, n, n), x);
        }
        SameColumns(a, s, n);
      }
    } else {
      FallbackSolvesExactly(a, n);
      FallbackAnswers(a, n);
    }
  }

  lemma MatVecLength(s: Mat, x: Vec, n: nat)
    requires Square(s, n) && |x| == n
    ensures |MatVec(s, x, n, n)| == n
  {
  }

  lemma FallbackAnswers(a: Mat, n: nat)
    requires Square(a, n) && Square(InverseOf(a), n) && Square(LowerSym(a, n), n)
    requires !PositiveDefinite(LowerSym(a, n), n)
    ensures AlwaysSolves(a, n) <==> SolvesAll(a, InverseOf(a), n)
  {
    hide LowerSym, PositiveDefinite, InverseOf;
    forall b: Vec | |b| == n ensures Answers(a, n, b, MatVec(InverseOf(a), b, n, n)) {
      MatVecLength(InverseOf(a), b, n);
    }
    hide MatVec;
  }
}
