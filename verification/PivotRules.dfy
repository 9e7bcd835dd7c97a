/** When the elimination stops and what it skips, in terms of the entries themselves, and two classes
    of matrices on which it never goes wrong. */
module PivotRules {
  import opened Reals
  import opened Vectors
  import opened GaussJordan
  import opened InversionExactness

  /** A column is given up exactly when every entry at or below the diagonal is under 1e-12. */
  lemma StopsExactlyWhenAllSmall(aug: Mat, n: nat, col: nat)
    requires Augmented(aug, n) && col < n
    ensures Step(aug, col).Stopped? <==>
      forall r :: col <= r < n ==> -0.000000000001 < aug[r][col] < 0.000000000001
  {
    SwapRows(aug, n, col);
    var p := BestRow(aug, col, |aug|);
    assert SwapPivot(aug, col)[col] == aug[p];
    hide SwapPivot, BestRow, ScaleRow, ClearRows;
  }

  /** In a column that is not given up, a row other than the pivot row stays as it is exactly when
      its entry is at most 1e-12, and otherwise its entry becomes zero. */
  lemma SkipsExactlySmall(aug: Mat, n: nat, col: nat, r: nat)
    requires Augmented(aug, n) && col < n && r < n && r != col && Step(aug, col).Going?
    ensures var sw, next := SwapPivot(aug, col), Step(aug, col).aug;
      && |sw| == n == |next| && |sw[r]| == 2 * n == |next[r]|
      && (next[r] == sw[r] <==> -0.000000000001 <= sw[r][col] <= 0.000000000001)
      && (next[r] != sw[r] ==> next[r][col] == 0.0)
  {
    StepRows(aug, n, col);
    var sw := SwapPivot(aug, col);
    var pivotRow := ScaleRow(sw[col], sw[col][col], col);
    Quotient(sw[col][col], sw[col][col]);
    assert pivotRow[col] == 1.0;
    if Abs(sw[r][col]) > TOLERANCE {
      assert SubtractRow(sw[r], sw[r][col], pivotRow, col)[col] == 0.0;
    }
    hide Step, SwapPivot, ScaleRow;
  }

  // ----- The run, column by column

  /** The rows before column col and after each column from there on, none of them given up. */
  ghost predicate Columns(states: seq<Mat>, n: nat, col: nat) {
    && states != [] && col + |states| - 1 <= n
    && (forall i :: 0 <= i < |states| ==> Augmented(states[i], n))
    && forall i :: 0 <= i < |states| - 1 ==> Step(states[i], col + i) == Going(states[i + 1])
  }

  /** All entries of a column at or below the diagonal are under 1e-12. */
  ghost predicate AllSmall(aug: Mat, n: nat, col: nat)
    requires Augmented(aug, n) && col < n
  {
    forall r :: col <= r < n ==> -0.000000000001 < aug[r][col] < 0.000000000001
  }

  /** The columns of a run: up to the one that is given up, or all of them. */
  lemma {:induction false} RunColumns(aug: Mat, n: nat, col: nat) returns (states: seq<Mat>)
    requires Augmented(aug, n) && col <= n
    ensures Columns(states, n, col) && states[0] == aug
    ensures var last := col + |states| - 1;
      if Reduce(aug, col).Going? then last == n && Reduce(aug, col).aug == states[|states| - 1]
      else last < n && AllSmall(states[|states| - 1], n, last)
    decreases n - col
  {
    hide Step;
    states := [aug];
    if col < n {
      StopsExactlyWhenAllSmall(aug, n, col);
      if Step(aug, col).Going? {
        var rest := RunColumns(Step(aug, col).aug, n, col + 1);
        states := [aug] + rest;
        forall i | 0 <= i < |states| - 1 ensures Step(states[i], col + i) == Going(states[i + 1]) {
          assert i > 0 ==> states[i] == rest[i - 1];
        }
      }
    }
  }

  /** Any run of columns that ends at one with all entries small is given up there. */
  lemma {:induction false} GivenUpHere(states: seq<Mat>, n: nat, col: nat)
    requires Columns(states, n, col) && col + |states| - 1 < n
    requires AllSmall(states[|states| - 1], n, col + |states| - 1)
    ensures Reduce(states[0], col).Stopped?
    decreases |states|
  {
    hide Step, Columns, AllSmall;
    ColumnsShape(states, n, col);
    if |states| == 1 {
      SmallStops(states[0], n, col);
    } else {
      LaterColumns(states, n, col);
      GivenUpHere(states[1..], n, col + 1);
    }
  }

  lemma SmallStops(aug: Mat, n: nat, col: nat)
    requires Augmented(aug, n) && col < n && AllSmall(aug, n, col)
    ensures Step(aug, col).Stopped?
  {
    StopsExactlyWhenAllSmall(aug, n, col);
    hide Step;
  }

  lemma ColumnsShape(states: seq<Mat>, n: nat, col: nat)
    requires Columns(states, n, col)
    ensures states != [] && forall i :: 0 <= i < |states| ==> Augmented(states[i], n)
  {
  }

  lemma LaterColumns(states: seq<Mat>, n: nat, col: nat)
    requires Columns(states, n, col) && |states| > 1
    ensures Columns(states[1..], n, col + 1)
    ensures Augmented(states[0], n) && col < n && Step(states[0], col) == Going(states[1..][0])
  {
    hide Step;
    var rest := states[1..];
    forall i | 0 <= i < |rest| - 1 ensures Step(rest[i], col + 1 + i) == Going(rest[i + 1]) {
      assert Step(states[i + 1], col + (i + 1)) == Going(states[i + 2]);
    }
    assert Step(states[0], col + 0) == Going(states[1]);
  }

  /** The program gives up, and returns zeros, exactly when its columns lead to one whose entries at or
      below the diagonal are all under 1e-12. */
  lemma GivesUpExactly(a: Mat, n: nat)
    requires n > 0 && Square(a, n)
    ensures InverseOf(a) == ZeroMat(n) <==>
      exists states :: Columns(states, n, 0) && states[0] == Augment(a) && |states| <= n
                       && AllSmall(states[|states| - 1], n, |states| - 1)
  {
    InverseExactly(a, n);
    var run := RunColumns(Augment(a), n, 0);
    hide Step, Augment, Reduce, Columns, AllSmall;
    forall states | Columns(states, n, 0) && states[0] == Augment(a) && |states| <= n
                    && AllSmall(states[|states| - 1], n, |states| - 1)
      ensures !Completes(a)
    {
      GivenUpHere(states, n, 0);
    }
  }

  // ----- Triangular matrices

  ghost predicate UpperTriangular(a: Mat, n: nat)
    requires Square(a, n)
  {
    forall r, c :: 0 <= c < r < n ==> a[r][c] == 0.0
  }

  /** The rows from col on are still the ones the run began with. */
  ghost predicate Untouched(a: Mat, aug: Mat, n: nat, col: nat) {
    Square(a, n) && Augmented(aug, n) && forall r :: col <= r < n ==> aug[r] == Augment(a)[r]
  }

  lemma TriangularStep(a: Mat, aug: Mat, n: nat, col: nat)
    requires Untouched(a, aug, n, col) && UpperTriangular(a, n) && col < n
    ensures Step(aug, col).Going? <==> Abs(a[col][col]) >= 0.000000000001
    ensures Step(aug, col).Going? ==> Untouched(a, Step(aug, col).aug, n, col + 1)
  {
    StopsExactlyWhenAllSmall(aug, n, col);
    assert aug[col][col] == a[col][col];
    if Step(aug, col).Going? {
      SwapRows(aug, n, col);
      assert BestRow(aug, col, |aug|) == col;
      assert SwapPivot(aug, col) == aug;
      StepRows(aug, n, col);
    }
  }

  lemma RunShape(a: Mat, aug: Mat, n: nat, col: nat)
    requires Untouched(a, aug, n, col)
    ensures Square(a, n) && Augmented(aug, n)
  {
  }

  lemma {:induction false} TriangularRun(a: Mat, aug: Mat, n: nat, col: nat)
    requires Untouched(a, aug, n, col) && UpperTriangular(a, n) && col <= n
    ensures Reduce(aug, col).Going? <==> forall i :: col <= i < n ==> Abs(a[i][i]) >= 0.000000000001
    decreases n - col
  {
    hide Step, UpperTriangular, Abs, Augment, Untouched;
    RunShape(a, aug, n, col);
    if col < n {
      TriangularStep(a, aug, n, col);
      if Step(aug, col).Going? {
        TriangularRun(a, Step(aug, col).aug, n, col + 1);
      }
    }
  }

  /** The elimination of an upper triangular matrix completes exactly when no diagonal entry is under 1e-12. */
  lemma TriangularCompletesExactly(a: Mat, n: nat)
    requires Square(a, n) && UpperTriangular(a, n)
    ensures Completes(a) <==> forall i :: 0 <= i < n ==> Abs(a[i][i]) >= 0.000000000001
  {
    TriangularRun(a, Augment(a), n, 0);
  }

  // ----- Diagonal matrices with their rows in any order

  /** From col on, row place[c] holds the only entry of column c, which is at least 1e-12. */
  ghost predicate OneEntryEach(aug: Mat, n: nat, col: nat, place: seq<nat>) {
    && Augmented(aug, n) && |place| == n
    && (forall c :: col <= c < n ==> col <= place[c] < n && Abs(aug[place[c]][c]) >= 0.000000000001)
    && (forall c, d :: col <= c < d < n ==> place[c] != place[d])
    && (forall r, c :: 0 <= r < n && col <= c < n && r != place[c] ==> aug[r][c] == 0.0)
  }

  function Exchanged(place: seq<nat>, x: nat, y: nat): seq<nat> {
    seq(|place|, c requires 0 <= c < |place| => if place[c] == x then y else if place[c] == y then x else place[c])
  }

  lemma EntriesExchanged(aug: Mat, n: nat, col: nat, place: seq<nat>)
    requires col < n && OneEntryEach(aug, n, col, place)
    ensures OneEntryEach(SwapPivot(aug, col), n, col, Exchanged(place, col, place[col]))
  {
    SwapRows(aug, n, col);
    var sw, p := SwapPivot(aug, col), BestRow(aug, col, |aug|);
    assert Abs(aug[place[col]][col]) >= 0.000000000001;
    hide SwapPivot, BestRow;
    assert p == place[col];
    var place' := Exchanged(place, col, p);
    forall r, c | 0 <= r < n && col <= c < n && r != place'[c] ensures sw[r][c] == 0.0 {
      var r0 := if r == col then p else if r == p then col else r;
      assert sw[r] == aug[r0] && r0 != place[c];
    }
  }

  lemma OneEntryStep(aug: Mat, n: nat, col: nat, place: seq<nat>)
    requires col < n && OneEntryEach(aug, n, col, place)
    ensures Step(aug, col).Going?
    ensures OneEntryEach(Step(aug, col).aug, n, col + 1, Exchanged(place, col, place[col]))
    ensures forall r :: 0 <= r < n && r != col ==> SwapPivot(aug, col)[r][col] == 0.0
  {
    hide Step, SwapPivot, Exchanged;
    StopsExactlyWhenAllSmall(aug, n, col);
    EntriesExchanged(aug, n, col, place);
    PlaceOfPivot(place, col);
    assert Abs(aug[place[col]][col]) >= 0.000000000001;
    StepRows(aug, n, col);
    ScaledOne(SwapPivot(aug, col), Step(aug, col).aug, n, col, Exchanged(place, col, place[col]));
  }

  lemma PlaceOfPivot(place: seq<nat>, col: nat)
    requires col < |place|
    ensures |Exchanged(place, col, place[col])| == |place|
    ensures Exchanged(place, col, place[col])[col] == col
  {
  }

  lemma ScaledOne(sw: Mat, next: Mat, n: nat, col: nat, place: seq<nat>)
    requires col < n && OneEntryEach(sw, n, col, place) && place[col] == col && sw[col][col] != 0.0
    requires Augmented(next, n) && next[col] == ScaleRow(sw[col], sw[col][col], col)
    requires forall r :: 0 <= r < n && r != col && Abs(sw[r][col]) <= TOLERANCE ==> next[r] == sw[r]
    ensures OneEntryEach(next, n, col + 1, place)
    ensures forall r :: 0 <= r < n && r != col ==> sw[r][col] == 0.0
  {
    Quotient(1.0, sw[col][col]);
    forall r | 0 <= r < n && r != col ensures sw[r][col] == 0.0 && next[r] == sw[r] {
    }
    forall c | col < c < n ensures col < place[c] && next[col][c] == 0.0 {
      assert place[col] != place[c];
      assert sw[col][c] == 0.0;
    }
  }

  lemma {:induction false} OneEntryRun(aug: Mat, n: nat, col: nat, place: seq<nat>)
    requires col <= n && OneEntryEach(aug, n, col, place)
    ensures Reduce(aug, col).Going? && SkipsExact(aug, col)
    decreases n - col
  {
    if col < n {
      OneEntryStep(aug, n, col, place);
      hide Step, SwapPivot, OneEntryEach;
      OneEntryRun(Step(aug, col).aug, n, col + 1, Exchanged(place, col, place[col]));
    }
  }

  /** A matrix with one entry in each row and column, in whatever places, and none of them under
      1e-12: the diagonal matrices and all their row permutations. */
  ghost predicate PermutedDiagonal(a: Mat, n: nat, place: seq<nat>)
    requires Square(a, n)
  {
    && |place| == n && (forall c :: 0 <= c < n ==> place[c] < n)
    && (forall c, d :: 0 <= c < d < n ==> place[c] != place[d])
    && (forall r, c :: 0 <= r < n && 0 <= c < n ==>
          if r == place[c] then Abs(a[r][c]) >= 0.000000000001 else a[r][c] == 0.0)
  }

  lemma PermutedDiagonalInverted(a: Mat, n: nat, place: seq<nat>)
    requires n > 0 && Square(a, n) && PermutedDiagonal(a, n, place)
    ensures IsInverse(a, InverseOf(a), n)
  {
    var aug := Augment(a);
    assert forall r, c :: 0 <= r < n && 0 <= c < n ==> aug[r][c] == a[r][c];
    OneEntryRun(aug, n, 0, place);
    InverseExactly(a, n);
  }
}
