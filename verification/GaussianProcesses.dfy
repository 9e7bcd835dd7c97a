/** Training and prediction of the Gaussian process surrogate. */
module GaussianProcesses {
  import opened Reals
  import opened Vectors
  import opened GaussJordan
  import opened Cholesky
  import opened Matrices

  const MIN_VARIANCE: real := 0.000000000001

  datatype Hyperparameters = Hyperparameters(sigmaF: real, lengthScale: real, sigmaN: real) {
    ghost predicate Valid() {
      lengthScale != 0.0
    }

    function Noise(): real {
      Squared(sigmaN)
    }
  }

  /** An optimiser's process never gets any others. */
  const DEFAULTS := Hyperparameters(1.0, 1.0, 0.01)

  function SquaredDistance(x1: Vec, x2: Vec, m: nat): real
    requires m <= |x1| && m <= |x2|
  {
    if m == 0 then 0.0
    else
      var diff := x1[m - 1] - x2[m - 1];
      SquaredDistance(x1, x2, m - 1) + diff * diff
  }

  lemma DistanceSymmetric(x1: Vec, x2: Vec, m: nat)
    requires m <= |x1| && m <= |x2|
    ensures SquaredDistance(x1, x2, m) == SquaredDistance(x2, x1, m)
  {
    if m > 0 {
      DistanceSymmetric(x1, x2, m - 1);
      var d, e := x1[m - 1] - x2[m - 1], x2[m - 1] - x1[m - 1];
      assert d == -e;
      NegatedSquare(d, e);
    }
  }

  lemma NegatedSquare(d: real, e: real)
    requires d == -e
    ensures d * d == e * e
  {
  }

  /** -distSq / (2 l^2). */
  function Exponent(lengthScale: real, distSq: real): (q: real)
    requires lengthScale != 0.0
    ensures q * (2.0 * Squared(lengthScale)) == -distSq
  {
    SquaredPositive(lengthScale);
    hide Squared;
    Ratio(-distSq, 2.0 * Squared(lengthScale))
  }

  function KernelAt(p: Hyperparameters, exp: real -> real, distSq: real): real
    requires p.lengthScale != 0.0
  {
    Squared(p.sigmaF) * exp(Exponent(p.lengthScale, distSq))
  }

  function KernelOf(p: Hyperparameters, exp: real -> real, x1: Vec, x2: Vec): real
    requires p.lengthScale != 0.0 && |x1| <= |x2|
  {
    KernelAt(p, exp, SquaredDistance(x1, x2, |x1|))
  }

  /** The kernel of every training point with x. */
  function KernelColumn(p: Hyperparameters, exp: real -> real, xs: Mat, x: Vec): (k: Vec)
    requires p.lengthScale != 0.0 && forall i :: 0 <= i < |xs| ==> |xs[i]| <= |x|
    ensures |k| == |xs|
  {
    seq(|xs|, i requires 0 <= i < |xs| => KernelOf(p, exp, xs[i], x))
  }

  /** The covariance of the training points with the noise on the diagonal. */
  function Covariance(p: Hyperparameters, exp: real -> real, noise: real, xs: Mat, d: nat): (k: Mat)
    requires p.lengthScale != 0.0 && Shape(xs, |xs|, d)
    ensures Shape(k, |xs|, |xs|)
  {
    seq(|xs|, i requires 0 <= i < |xs| =>
      seq(|xs|, j requires 0 <= j < |xs| =>
        KernelOf(p, exp, xs[i], xs[j]) + if i == j then noise else 0.0))
  }

  lemma CovarianceSymmetric(p: Hyperparameters, exp: real -> real, noise: real, xs: Mat, d: nat)
    requires p.Valid() && Shape(xs, |xs|, d)
    ensures Symmetric(Covariance(p, exp, noise, xs, d), |xs|)
  {
    forall i, j | 0 <= i < |xs| && 0 <= j < |xs|
      ensures KernelOf(p, exp, xs[i], xs[j]) == KernelOf(p, exp, xs[j], xs[i])
    {
      DistanceSymmetric(xs[i], xs[j], d);
    }
  }

  /** kStar is row i of k with noise taken off its diagonal entry. */
  ghost predicate LessNoise(kStar: Vec, row: Vec, n: nat, i: nat, noise: real) {
    |kStar| == n == |row| && forall r :: 0 <= r < n ==> kStar[r] == row[r] - if r == i then noise else 0.0
  }

  /** At training point t the kernel column is row t of the covariance less the noise. */
  lemma KernelAtTrainingPoint(p: Hyperparameters, exp: real -> real, noise: real, xs: Mat, d: nat, t: nat)
    requires p.Valid() && Shape(xs, |xs|, d) && t < |xs|
    ensures var k := Covariance(p, exp, noise, xs, d);
      && LessNoise(KernelColumn(p, exp, xs, xs[t]), k[t], |xs|, t, noise)
      && k[t][t] == KernelOf(p, exp, xs[t], xs[t]) + noise
  {
    forall r | 0 <= r < |xs| ensures KernelOf(p, exp, xs[r], xs[t]) == KernelOf(p, exp, xs[t], xs[r]) {
      DistanceSymmetric(xs[t], xs[r], d);
    }
  }

  /** Changing one coordinate of a vector changes a dot product by that coordinate's share. */
  lemma {:induction false} LessNoiseDot(kStar: Vec, row: Vec, n: nat, i: nat, noise: real, alpha: Vec, m: nat)
    requires LessNoise(kStar, row, n, i, noise) && |alpha| == n && m <= n
    ensures Dot(kStar, alpha, m) == Dot(row, alpha, m) - if i < m then noise * alpha[i] else 0.0
  {
    if m > 0 {
      LessNoiseDot(kStar, row, n, i, noise, alpha, m - 1);
      if i == m - 1 {
        LessTimes(row[i], noise, alpha[i]);
      } else {
        SameProduct(kStar[m - 1], row[m - 1], alpha[m - 1], alpha[m - 1]);
      }
    }
  }

  lemma LessTimes(r: real, noise: real, a: real)
    ensures (r - noise) * a == r * a - noise * a
  {
  }

  /** The explained variance at a training point falls short of the prior by at most twice the noise. */
  lemma {:induction false} ExplainedVariance(k: Mat, l: Mat, n: nat, i: nat, noise: real, kStar: Vec, v: Vec)
    requires Symmetric(k, n) && Factor(k, l, n) && i < n && |kStar| == n && |v| == n
    requires ForwardSolved(l, v, kStar, n)
    requires LessNoise(kStar, k[i], n, i, noise)
    ensures Dot(v, v, n) >= k[i][i] - 2.0 * noise
  {
    FactorProducts(k, l, n);
    var u := l[i];
    ForwardRow(l, n, i, v, kStar);
    DotCommutes(u, v, n);
    assert Dot(u, v, n) == kStar[i] == k[i][i] - noise;
    assert Dot(u, u, n) == k[i][i];
    SquareOfDifference(v, u, n);
  }

  lemma ForwardRow(l: Mat, n: nat, i: nat, v: Vec, b: Vec)
    requires LowerTriangular(l, n) && i < n == |v| && n == |b| && ForwardSolved(l, v, b, n)
    ensures Dot(l[i], v, n) == b[i]
  {
    DotZero(l[i], v, i + 1, n);
  }

  /** v . v >= 2 (u . v) - u . u. */
  lemma SquareOfDifference(v: Vec, u: Vec, n: nat)
    requires |v| == n && |u| == n
    ensures Dot(v, v, n) >= 2.0 * Dot(v, u, n) - Dot(u, u, n)
  {
    var d: Vec := seq(n, k requires 0 <= k < n => v[k] + (-1.0) * u[k]);
    DotLinear(d, v, -1.0, u, d, n);
    DotCommutes(v, d, n);
    DotCommutes(u, d, n);
    DotLinear(d, v, -1.0, u, v, n);
    DotLinear(d, v, -1.0, u, u, n);
    DotCommutes(u, v, n);
    SquaresNonNegative(d, n);
  }

  // ----- When training succeeds

  ghost predicate PositiveSemidefinite(a: Mat, n: nat)
    requires Shape(a, n, n)
  {
    forall x: Vec :: |x| == n ==> Quad(a, x, n) >= 0.0
  }

  /** The noisy covariance of the training points can be factored. */
  ghost predicate Trainable(p: Hyperparameters, exp: real -> real, xs: Mat, d: nat)
    requires p.Valid() && Shape(xs, |xs|, d)
  {
    PositiveDefinite(Covariance(p, exp, p.Noise(), xs, d), |xs|)
  }

  /** The kernel alone has no negative quadratic form on these points. */
  ghost predicate SemidefiniteOn(p: Hyperparameters, exp: real -> real, xs: Mat, d: nat)
    requires p.Valid() && Shape(xs, |xs|, d)
  {
    PositiveSemidefinite(Covariance(p, exp, 0.0, xs, d), |xs|)
  }

  /** What the exponential makes of the kernel: no training set has a negative quadratic form. */
  ghost predicate SemidefiniteKernel(p: Hyperparameters, exp: real -> real) {
    p.Valid() && forall xs: Mat, d: nat :: Shape(xs, |xs|, d) ==> SemidefiniteOn(p, exp, xs, d)
  }

  lemma NoiseOnQuad(k: Mat, less: Mat, n: nat, noise: real, x: Vec)
    requires Shape(k, n, n) && Shape(less, n, n) && |x| == n
    requires forall r :: 0 <= r < n ==> LessNoise(less[r], k[r], n, r, noise)
    ensures Quad(k, x, n) == Quad(less, x, n) + noise * Dot(x, x, n)
  {
    var y, z := MatVec(k, x, n, n), MatVec(less, x, n, n);
    forall r | 0 <= r < n ensures y[r] == z[r] + noise * x[r] {
      LessNoiseDot(less[r], k[r], n, r, noise, x, n);
    }
    hide Dot;
    DotLinear(y, z, noise, x, x, n);
    DotCommutes(x, y, n);
    DotCommutes(x, z, n);
  }

  /** Where the kernel alone is positive semidefinite, any noise makes the covariance positive definite. */
  lemma {:induction false} NoiseMakesDefinite(p: Hyperparameters, exp: real -> real, xs: Mat, d: nat)
    requires p.Valid() && p.sigmaN != 0.0 && Shape(xs, |xs|, d) && SemidefiniteOn(p, exp, xs, d)
    ensures Trainable(p, exp, xs, d)
  {
    var n, k, less := |xs|, Covariance(p, exp, p.Noise(), xs, d), Covariance(p, exp, 0.0, xs, d);
    NoisePositive(p);
    RowsLessNoise(p, exp, xs, d);
    hide Quad, LessNoise, Covariance, Hyperparameters.Noise, Zeros;
    forall x: Vec | |x| == n && x != Zeros(n) ensures Quad(k, x, n) > 0.0 {
      NoisyQuadPositive(k, less, n, p.Noise(), x);
    }
  }

  lemma NoisePositive(p: Hyperparameters)
    requires p.sigmaN != 0.0
    ensures p.Noise() > 0.0
  {
    SquaredPositive(p.sigmaN);
  }

  lemma RowsLessNoise(p: Hyperparameters, exp: real -> real, xs: Mat, d: nat)
    requires p.Valid() && Shape(xs, |xs|, d)
    ensures forall r :: 0 <= r < |xs| ==>
      LessNoise(Covariance(p, exp, 0.0, xs, d)[r], Covariance(p, exp, p.Noise(), xs, d)[r], |xs|, r, p.Noise())
  {
    hide KernelOf, Hyperparameters.Noise;
  }

  lemma NoisyQuadPositive(k: Mat, less: Mat, n: nat, noise: real, x: Vec)
    requires Shape(k, n, n) && Shape(less, n, n) && |x| == n && x != Zeros(n) && noise > 0.0
    requires forall r :: 0 <= r < n ==> LessNoise(less[r], k[r], n, r, noise)
    requires Quad(less, x, n) >= 0.0
    ensures Quad(k, x, n) > 0.0
  {
    hide *;
    NoiseOnQuad(k, less, n, noise, x);
    NonZeroNorm(x, n);
    PositiveTimes(noise, Dot(x, x, n));
  }

  lemma NonZeroNorm(x: Vec, n: nat)
    requires |x| == n && x != Zeros(n)
    ensures Dot(x, x, n) > 0.0
  {
    var k :| 0 <= k < n && x[k] != 0.0;
    NormPositive(x, x, k, n);
  }

  lemma PositiveTimes(a: real, b: real)
    requires a > 0.0 && b > 0.0
    ensures a * b > 0.0
  {
  }

  /** Without noise two equal training points are enough for training to fail, whatever the kernel:
      their difference is a null vector of the covariance. */
  lemma {:induction false} DuplicatePointsFail(p: Hyperparameters, exp: real -> real, xs: Mat, d: nat, i: nat, j: nat)
    requires p.Valid() && p.sigmaN == 0.0 && Shape(xs, |xs|, d) && i < j < |xs| && xs[i] == xs[j]
    ensures !Trainable(p, exp, xs, d)
  {
    var n, k := |xs|, Covariance(p, exp, p.Noise(), xs, d);
    var x := Difference(Unit(n, i), Unit(n, j), n);
    forall r | 0 <= r < n ensures Dot(k[r], x, n) == 0.0 {
      assert k[r][i] == k[r][j];
      DifferenceDot(k[r], Unit(n, i), Unit(n, j), n);
      DotCommutes(k[r], Unit(n, i), n);
      DotCommutes(k[r], Unit(n, j), n);
      UnitDot(n, i, k[r], n);
      UnitDot(n, j, k[r], n);
    }
    assert x[i] == 1.0 && Zeros(n)[i] == 0.0;
    NullQuad(k, n, x);
  }

  function Difference(a: Vec, b: Vec, n: nat): (x: Vec)
    requires |a| == n == |b|
    ensures |x| == n
  {
    seq(n, t requires 0 <= t < n => a[t] + (-1.0) * b[t])
  }

  lemma DifferenceDot(row: Vec, a: Vec, b: Vec, n: nat)
    requires |row| == n == |a| && |b| == n
    ensures Dot(row, Difference(a, b, n), n) == Dot(row, a, n) - Dot(row, b, n)
  {
    var x := Difference(a, b, n);
    DotCommutes(row, x, n);
    DotLinear(x, a, -1.0, b, row, n);
    DotCommutes(row, a, n);
    DotCommutes(row, b, n);
  }

  /** A vector that every row takes to zero has no quadratic form. */
  lemma NullQuad(k: Mat, n: nat, x: Vec)
    requires Shape(k, n, n) && |x| == n && forall r :: 0 <= r < n ==> Dot(k[r], x, n) == 0.0
    ensures Quad(k, x, n) == 0.0
  {
    var y := MatVec(k, x, n, n);
    DotCommutes(x, y, n);
    DotZero(y, x, 0, n);
  }

  // ----- What a trained process predicts

  /** The textbook posterior: alpha solves for the observations, w for the kernel column. */
  ghost predicate PredictsBy(
    p: Hyperparameters, exp: real -> real, xs: Mat, ys: Vec, x: Vec, mu: real, sigmaSq: real, alpha: Vec, w: Vec)
  {
    var n := |xs|;
    && p.Valid() && Shape(xs, n, |x|) && |ys| == n && |alpha| == n && |w| == n
    && var k, kStar := Covariance(p, exp, p.Noise(), xs, |x|), KernelColumn(p, exp, xs, x);
       && MatVec(k, alpha, n, n) == ys && MatVec(k, w, n, n) == kStar
       && mu == Dot(kStar, alpha, n)
       && sigmaSq == Max(KernelOf(p, exp, x, x) + p.Noise() - Dot(kStar, w, n), MIN_VARIANCE)
  }

  ghost predicate Predicts(
    p: Hyperparameters, exp: real -> real, xs: Mat, ys: Vec, x: Vec, mu: real, sigmaSq: real)
  {
    exists alpha: Vec, w: Vec :: PredictsBy(p, exp, xs, ys, x, mu, sigmaSq, alpha, w)
  }

  /** A positive definite matrix solves a system in one way only. */
  lemma SolutionUnique(k: Mat, n: nat, a: Vec, b: Vec)
    requires Shape(k, n, n) && PositiveDefinite(k, n) && |a| == n && |b| == n
    requires MatVec(k, a, n, n) == MatVec(k, b, n, n)
    ensures a == b
  {
    var x := Difference(a, b, n);
    forall r | 0 <= r < n ensures Dot(k[r], x, n) == 0.0 {
      assert MatVec(k, a, n, n)[r] == MatVec(k, b, n, n)[r];
      DifferenceDot(k[r], a, b, n);
    }
    NullQuad(k, n, x);
    hide Quad, Dot, MatVec;
    forall t | 0 <= t < n ensures a[t] == b[t] {
      assert x[t] == Zeros(n)[t];
    }
  }

  lemma PredictionUnique(
    p: Hyperparameters, exp: real -> real, xs: Mat, ys: Vec, x: Vec, mu: real, sigmaSq: real, mu': real, sigmaSq': real)
    requires p.Valid() && Shape(xs, |xs|, |x|) && PositiveDefinite(Covariance(p, exp, p.Noise(), xs, |x|), |xs|)
    requires Predicts(p, exp, xs, ys, x, mu, sigmaSq) && Predicts(p, exp, xs, ys, x, mu', sigmaSq')
    ensures mu == mu' && sigmaSq == sigmaSq'
  {
    var alpha: Vec, w: Vec :| PredictsBy(p, exp, xs, ys, x, mu, sigmaSq, alpha, w);
    var alpha': Vec, w': Vec :| PredictsBy(p, exp, xs, ys, x, mu', sigmaSq', alpha', w');
    hide Covariance, KernelColumn, KernelOf, PositiveDefinite, Dot, MatVec, Shape;
    var k := Covariance(p, exp, p.Noise(), xs, |x|);
    SolutionUnique(k, |xs|, alpha, alpha');
    SolutionUnique(k, |xs|, w, w');
  }

  /** The prediction, as a function of the training data; it is the one a trained process makes. */
  ghost function PosteriorOf(p: Hyperparameters, exp: real -> real, xs: Mat, ys: Vec, x: Vec): (r: (real, real))
    ensures r.1 >= MIN_VARIANCE
  {
    if exists mu: real, sigmaSq: real :: Predicts(p, exp, xs, ys, x, mu, sigmaSq) then
      var mu: real, sigmaSq: real :| Predicts(p, exp, xs, ys, x, mu, sigmaSq);
      (mu, sigmaSq)
    else (0.0, MIN_VARIANCE)
  }

  /** v == l^-1 k* gives the same explained variance as k^-1 k*. */
  lemma {:induction false} ExplainedByInverse(k: Mat, l: Mat, n: nat, kStar: Vec, v: Vec) returns (w: Vec)
    requires Symmetric(k, n) && Factor(k, l, n) && |kStar| == n && |v| == n && ForwardSolved(l, v, kStar, n)
    ensures |w| == n && MatVec(k, w, n, n) == kStar && Dot(kStar, w, n) == Dot(v, v, n)
  {
    w := BackSubstitute(l, v, n);
    forall c | 0 <= c < n ensures ColSum(w, l, c, 0, n) == v[c] && ColSum(w, l, c, c, n) == v[c] {
      BackSubstituteSolves(l, v, n, c);
      ColSumSplit(w, l, c, 0, c, n);
      ColSumZero(w, l, c, 0, c);
    }
    SolvesSystem(k, l, n, kStar, v, w);
    forall r | 0 <= r < n ensures MatVec(l, v, n, n)[r] == kStar[r] {
      ForwardRow(l, n, r, v, kStar);
    }
    assert MatVec(l, v, n, n) == kStar;
    assert VecMat(w, l, n, n) == v;
    Adjoint(w, l, v, n, n);
    DotCommutes(w, kStar, n);
  }

  lemma IsPosterior(
    p: Hyperparameters, exp: real -> real, xs: Mat, ys: Vec, x: Vec,
    k: Mat, l: Mat, alpha: Vec, v: Vec, mu: real, sigmaSq: real)
    requires p.Valid() && Shape(xs, |xs|, |x|) && |ys| == |xs| == |alpha| && |v| == |xs|
    requires k == Covariance(p, exp, p.Noise(), xs, |x|) && Symmetric(k, |xs|) && Factor(k, l, |xs|)
    requires MatVec(k, alpha, |xs|, |xs|) == ys && ForwardSolved(l, v, KernelColumn(p, exp, xs, x), |xs|)
    requires mu == Dot(KernelColumn(p, exp, xs, x), alpha, |xs|)
    requires sigmaSq == Max(KernelOf(p, exp, x, x) + p.Noise() - Dot(v, v, |xs|), MIN_VARIANCE)
    ensures Predicts(p, exp, xs, ys, x, mu, sigmaSq) && PosteriorOf(p, exp, xs, ys, x) == (mu, sigmaSq)
  {
    hide PositiveDefinite, Factor, Covariance, KernelColumn, KernelOf, Dot, MatVec, ForwardSolved,
      Symmetric, Predicts, PosteriorOf;
    var w := ExplainedByInverse(k, l, |xs|, KernelColumn(p, exp, xs, x), v);
    FactorPositiveDefinite(k, l, |xs|);
    PosteriorIs(p, exp, xs, ys, x, mu, sigmaSq, alpha, w);
  }

  lemma PosteriorIs(
    p: Hyperparameters, exp: real -> real, xs: Mat, ys: Vec, x: Vec, mu: real, sigmaSq: real, alpha: Vec, w: Vec)
    requires p.Valid() && Shape(xs, |xs|, |x|) && PositiveDefinite(Covariance(p, exp, p.Noise(), xs, |x|), |xs|)
    requires PredictsBy(p, exp, xs, ys, x, mu, sigmaSq, alpha, w)
    ensures Predicts(p, exp, xs, ys, x, mu, sigmaSq) && PosteriorOf(p, exp, xs, ys, x) == (mu, sigmaSq)
  {
    assert Predicts(p, exp, xs, ys, x, mu, sigmaSq);
    hide Predicts, PredictsBy, PositiveDefinite, Covariance;
    var r := PosteriorOf(p, exp, xs, ys, x);
    PredictionUnique(p, exp, xs, ys, x, mu, sigmaSq, r.0, r.1);
  }

  class GaussianProcess {
    var hyper: Hyperparameters
    var xTrain: Mat
    var dim: nat
    var yTrain: Vec
    var gram: Mat
    var factor: Matrix
    var alpha: Vec

    constructor (h: Hyperparameters)
      ensures hyper == h && xTrain == [] && yTrain == []
    {
      hyper, xTrain, dim, yTrain, gram, alpha := h, [], 0, [], [], [];
      factor := new Matrix(0, 0, 0.0);
    }

    /** The process holds the factor of its covariance matrix and the coefficients of its mean. */
    ghost predicate Trained(exp: real -> real)
      reads this, factor
    {
      var n := |xTrain|;
      && hyper.Valid() && Shape(xTrain, n, dim) && |yTrain| == n && |alpha| == n
      && factor.Valid() && factor.rows == factor.cols == n
      && gram == Covariance(hyper, exp, hyper.Noise(), xTrain, dim)
      && Symmetric(gram, n) && Factor(gram, factor.data, n)
      && MatVec(gram, alpha, n, n) == yTrain
    }

    method Kernel(x1: Vec, x2: Vec, exp: real -> real) returns (k: real)
      requires hyper.lengthScale != 0.0 && |x1| <= |x2|
      ensures k == KernelOf(hyper, exp, x1, x2)
    {
      var distSq := 0.0;
      var i := 0;
      while i < |x1|
        invariant i <= |x1| && distSq == SquaredDistance(x1, x2, i)
      {
        var diff := x1[i] - x2[i];
        distSq := distSq + diff * diff;
        i := i + 1;
      }
      k := KernelAt(hyper, exp, distSq);
    }

    method BuildCovariance(x: Matrix, exp: real -> real) returns (k: Mat)
      requires hyper.lengthScale != 0.0 && x.Valid()
      ensures k == Covariance(hyper, exp, hyper.Noise(), x.data, x.cols)
    {
      var n := x.rows;
      k := Filled(n, n, 0.0);
      var i := 0;
      while i < n
        invariant i <= n && Shape(k, n, n)
        invariant forall r :: 0 <= r < i ==> k[r] == Covariance(hyper, exp, hyper.Noise(), x.data, x.cols)[r]
      {
        var row := Zeros(n);
        var j := 0;
        while j < n
          invariant j <= n && |row| == n
          invariant forall c :: 0 <= c < j ==> row[c] == Covariance(hyper, exp, hyper.Noise(), x.data, x.cols)[i][c]
        {
          var v := Kernel(x.data[i], x.data[j], exp);
          row := row[j := v];
          if i == j {
            row := row[j := row[j] + Squared(hyper.sigmaN)];
          }
          j := j + 1;
        }
        k := k[i := row];
        i := i + 1;
      }
    }

    /** Fits the process; ok reports whether the covariance could be factored. */
    method Train(x: Matrix, y: Vec, exp: real -> real, sqrt: real -> real) returns (ok: bool)
      requires hyper.Valid() && x.Valid() && x.rows == |y| && IsSqrt(sqrt)
      modifies this
      ensures hyper == old(hyper) && xTrain == x.data && dim == x.cols && yTrain == y
      ensures ok <==> Trainable(hyper, exp, x.data, x.cols)
      ensures ok ==> Trained(exp)
      ensures !ok ==> exists i: nat :: i < x.rows && FirstZeroDiagonal(factor.data, x.rows, i)
      ensures hyper.sigmaN != 0.0 && SemidefiniteOn(hyper, exp, x.data, x.cols) ==> ok
    {
      hide Covariance, PositiveDefinite, SemidefiniteOn, Factor, Symmetric, MatVec;
      if hyper.sigmaN != 0.0 && SemidefiniteOn(hyper, exp, x.data, x.cols) {
        NoiseMakesDefinite(hyper, exp, x.data, x.cols);
      }
      xTrain, dim, yTrain := x.data, x.cols, y;
      gram := BuildCovariance(x, exp);
      CovarianceSymmetric(hyper, exp, hyper.Noise(), xTrain, dim);
      ok, factor, alpha := FactorAndSolve(gram, y, sqrt);
      if !ok {
        StuckDividesByZero(gram, factor.data, |y|);
      }
    }

    method Predict(x: Vec, exp: real -> real) returns (mu: real, sigmaSq: real)
      requires Trained(exp) && |x| == dim
      ensures mu == Dot(KernelColumn(hyper, exp, xTrain, x), alpha, |xTrain|)
      ensures MIN_VARIANCE <= sigmaSq <= Max(KernelOf(hyper, exp, x, x) + hyper.Noise(), MIN_VARIANCE)
      ensures forall t :: 0 <= t < |xTrain| && x == xTrain[t] ==>
        FitsObservation(mu, sigmaSq, hyper.Noise(), yTrain[t], alpha[t])
      ensures Predicts(hyper, exp, xTrain, yTrain, x, mu, sigmaSq)
      ensures PosteriorOf(hyper, exp, xTrain, yTrain, x) == (mu, sigmaSq)
    {
      var n := |xTrain|;
      var kStar := BuildKernelColumn(x, exp);
      mu := InnerProduct(kStar, alpha, n);
      var v := factor.SolveLowerTriangular(kStar);
      var vDotV := InnerProduct(v, v, n);
      assert vDotV >= 0.0 by {
        SquaresNonNegative(v, n);
      }
      var prior := Kernel(x, x, exp);
      sigmaSq := Max(prior + hyper.Noise() - vDotV, MIN_VARIANCE);
      IsPosterior(hyper, exp, xTrain, yTrain, x, gram, factor.data, alpha, v, mu, sigmaSq);
      forall t | 0 <= t < n && x == xTrain[t]
        ensures FitsObservation(mu, sigmaSq, hyper.Noise(), yTrain[t], alpha[t])
      {
        KernelAtTrainingPoint(hyper, exp, hyper.Noise(), xTrain, dim, t);
        PredictionAt(gram, factor.data, n, alpha, yTrain, hyper.Noise(), kStar, v, t);
      }
    }

    method BuildKernelColumn(x: Vec, exp: real -> real) returns (kStar: Vec)
      requires hyper.lengthScale != 0.0 && Shape(xTrain, |xTrain|, dim) && |x| == dim
      ensures kStar == KernelColumn(hyper, exp, xTrain, x)
    {
      var n := |xTrain|;
      kStar := Zeros(n);
      var i := 0;
      while i < n
        invariant i <= n == |kStar|
        invariant forall k :: 0 <= k < i ==> kStar[k] == KernelOf(hyper, exp, xTrain[k], x)
      {
        var k := Kernel(xTrain[i], x, exp);
        kStar := kStar[i := k];
        i := i + 1;
      }
    }
  }

  /** The factorisation of the covariance, then the forward and the backward solve for the coefficients. */
  method FactorAndSolve(k: Mat, y: Vec, sqrt: real -> real) returns (ok: bool, l: Matrix, alpha: Vec)
    requires Symmetric(k, |y|) && IsSqrt(sqrt)
    ensures fresh(l) && l.Valid() && l.rows == l.cols == |y|
    ensures ok <==> PositiveDefinite(k, |y|)
    ensures ok ==> Factor(k, l.data, |y|) && |alpha| == |y| && MatVec(k, alpha, |y|, |y|) == y
    ensures !ok ==> Stuck(k, l.data, |y|)
  {
    var n := |y|;
    var gram := new Matrix(n, n, 0.0);
    gram.data := k;
    l := new Matrix(n, n, 0.0);
    ok := gram.CholeskyDecompose(l, sqrt);
    alpha := [];
    if ok {
      var forward := l.SolveLowerTriangular(y);
      alpha := l.SolveUpperTriangular(forward);
      SolvesSystem(k, l.data, n, y, forward, alpha);
    }
  }

  method InnerProduct(u: Vec, v: Vec, n: nat) returns (sum: real)
    requires |u| == n && |v| == n
    ensures sum == Dot(u, v, n)
  {
    sum := 0.0;
    var i := 0;
    while i < n
      invariant i <= n && sum == Dot(u, v, i)
    {
      sum := sum + u[i] * v[i];
      i := i + 1;
    }
  }

  /** The observation less noise times its coefficient, and a variance of at most twice the noise. */
  ghost predicate FitsObservation(mu: real, sigmaSq: real, noise: real, y: real, alpha: real) {
    mu == y - noise * alpha && sigmaSq <= Max(2.0 * noise, MIN_VARIANCE)
  }

  /** Prediction against row t of the covariance less the noise. */
  lemma {:induction false} PredictionAt(
    k: Mat, l: Mat, n: nat, alpha: Vec, y: Vec, noise: real, kStar: Vec, v: Vec, t: nat)
    requires Symmetric(k, n) && Factor(k, l, n) && t < n == |alpha| && n == |v|
    requires MatVec(k, alpha, n, n) == y && LessNoise(kStar, k[t], n, t, noise)
    requires ForwardSolved(l, v, kStar, n)
    ensures FitsObservation(Dot(kStar, alpha, n), Max(k[t][t] - Dot(v, v, n), MIN_VARIANCE), noise, y[t], alpha[t])
  {
    assert MatVec(k, alpha, n, n)[t] == Dot(k[t], alpha, n);
    LessNoiseDot(kStar, k[t], n, t, noise, alpha, n);
    ExplainedVariance(k, l, n, t, noise, kStar, v);
  }
}
