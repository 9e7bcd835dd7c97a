/** What the kernel computes, and what it makes of a prediction. */
module KernelMeaning {
  import opened Reals
  import opened Vectors
  import opened Cholesky
  import opened GaussianProcesses

  /** d is the coordinate-wise difference of two points. */
  ghost predicate IsDifference(d: Vec, x1: Vec, x2: Vec) {
    |d| == |x1| == |x2| && forall i :: 0 <= i < |d| ==> d[i] == x1[i] - x2[i]
  }

  lemma {:induction false} DistanceIsNorm(x1: Vec, x2: Vec, d: Vec, m: nat)
    requires IsDifference(d, x1, x2) && m <= |d|
    ensures SquaredDistance(x1, x2, m) == Dot(d, d, m)
  {
    if m > 0 {
      DistanceIsNorm(x1, x2, d, m - 1);
      SameProduct(d[m - 1], x1[m - 1] - x2[m - 1], d[m - 1], x1[m - 1] - x2[m - 1]);
    }
  }

  lemma SameQuotient(q: real, r: real, c: real)
    requires c != 0.0 && q * c == r * c
    ensures q == r
  {
  }

  /** The kernel is sigma_f^2 exp(q) for the q with q * 2 l^2 == -|x1 - x2|^2. */
  lemma KernelIsSquaredExponential(p: Hyperparameters, exp: real -> real, x1: Vec, x2: Vec, d: Vec, q: real)
    requires p.lengthScale != 0.0 && IsDifference(d, x1, x2)
    requires q * (2.0 * Squared(p.lengthScale)) == -Dot(d, d, |d|)
    ensures KernelOf(p, exp, x1, x2) == Squared(p.sigmaF) * exp(q)
  {
    DistanceIsNorm(x1, x2, d, |d|);
    hide SquaredDistance, Dot, Exponent, Squared;
    SquaredPositive(p.lengthScale);
    var c := 2.0 * Squared(p.lengthScale);
    SameQuotient(q, Exponent(p.lengthScale, SquaredDistance(x1, x2, |x1|)), c);
  }

  ghost predicate Increasing(exp: real -> real) {
    forall s, t :: s < t ==> exp(s) < exp(t)
  }

  lemma MulOrder(c: real, s: real, t: real)
    requires c > 0.0
    ensures c * s > c * t <==> s > t
  {
    var d := s - t;
    assert c * s - c * t == c * d;
    if d > 0.0 {
      PositiveTimes(c, d);
    } else if d < 0.0 {
      PositiveTimes(c, -d);
      assert c * d == -(c * (-d));
    }
  }

  lemma KernelFalls(p: Hyperparameters, exp: real -> real, s: real, t: real)
    requires p.lengthScale != 0.0 && p.sigmaF != 0.0 && Increasing(exp)
    ensures KernelAt(p, exp, s) > KernelAt(p, exp, t) <==> s < t
  {
    hide Exponent, Squared, Increasing;
    var q, r := Exponent(p.lengthScale, s), Exponent(p.lengthScale, t);
    SquaredPositive(p.sigmaF);
    SquaredPositive(p.lengthScale);
    ExponentOrder(2.0 * Squared(p.lengthScale), q, s, r, t);
    MulOrder(Squared(p.sigmaF), exp(q), exp(r));
    SameOrder(exp, q, r);
  }

  /** Of two pairs of points the closer one has the larger kernel, and only the closer one. */
  lemma CloserExactlyLarger(
    p: Hyperparameters, exp: real -> real, x1: Vec, x2: Vec, d: Vec, y1: Vec, y2: Vec, e: Vec)
    requires p.lengthScale != 0.0 && p.sigmaF != 0.0 && Increasing(exp)
    requires IsDifference(d, x1, x2) && IsDifference(e, y1, y2)
    ensures KernelOf(p, exp, x1, x2) > KernelOf(p, exp, y1, y2) <==> Dot(d, d, |d|) < Dot(e, e, |e|)
  {
    hide KernelAt, SquaredDistance, Dot, Increasing;
    DistanceIsNorm(x1, x2, d, |d|);
    DistanceIsNorm(y1, y2, e, |e|);
    KernelFalls(p, exp, Dot(d, d, |d|), Dot(e, e, |e|));
  }

  lemma SameOrder(exp: real -> real, q: real, r: real)
    requires Increasing(exp)
    ensures exp(q) > exp(r) <==> q > r
  {
  }

  lemma ExponentOrder(l: real, q: real, s: real, r: real, t: real)
    requires l > 0.0 && q * l == -s && r * l == -t
    ensures q > r <==> s < t
  {
    MulOrder(l, q, r);
  }

  /** What an optimiser's process works with: unit variance and length, and a noise variance of 1e-4. */
  lemma DefaultsAre()
    ensures DEFAULTS.Valid() && Squared(DEFAULTS.sigmaF) == 1.0 && 2.0 * Squared(DEFAULTS.lengthScale) == 2.0
    ensures DEFAULTS.Noise() == 0.0001
  {
  }

  // ----- A single training point

  lemma SingleEntry(p: Hyperparameters, exp: real -> real, x0: Vec)
    requires p.Valid()
    ensures Covariance(p, exp, p.Noise(), [x0], |x0|) == [[KernelOf(p, exp, x0, x0) + p.Noise()]]
  {
    var k := Covariance(p, exp, p.Noise(), [x0], |x0|);
    hide KernelOf, Hyperparameters.Noise;
    assert k[0][0] == KernelOf(p, exp, x0, x0) + p.Noise();
    assert k[0] == [KernelOf(p, exp, x0, x0) + p.Noise()];
  }

  lemma SingleDefinite(v: real)
    requires v > 0.0
    ensures PositiveDefinite([[v]], 1)
  {
    forall x: Vec | |x| == 1 && x != Zeros(1) ensures Quad([[v]], x, 1) > 0.0 {
      assert x[0] != 0.0;
      assert Dot([v], x, 0) == 0.0 && Dot([v], x, 1) == v * x[0];
      var y := MatVec([[v]], x, 1, 1);
      assert Dot(x, y, 0) == 0.0 && Dot(x, y, 1) == x[0] * (v * x[0]);
      SameSign(x[0], x[0]);
      PositiveTimes(v, x[0] * x[0]);
    }
  }

  lemma SingleSolves(v: real, a: real, b: real)
    requires v * a == b
    ensures MatVec([[v]], [a], 1, 1) == [b]
  {
    SingleDot(v, a);
    assert MatVec([[v]], [a], 1, 1)[0] == b;
  }

  lemma SingleDot(a: real, b: real)
    ensures Dot([a], [b], 1) == a * b
  {
    assert Dot([a], [b], 0) == 0.0;
  }

  lemma SingleColumn(p: Hyperparameters, exp: real -> real, x0: Vec, x: Vec)
    requires p.Valid() && |x0| == |x|
    ensures KernelColumn(p, exp, [x0], x) == [KernelOf(p, exp, x0, x)]
  {
    hide KernelOf;
  }

  /** With one training point the prediction anywhere is the kernel times a, where a is the observation
      divided by v, the kernel at the training point plus the noise; the variance falls short of the
      prior's by the kernel times w, where w is the kernel divided by v, and is never below 1e-12. */
  lemma OnePointPosterior(
    p: Hyperparameters, exp: real -> real, x0: Vec, y: real, x: Vec, v: real, k: real, a: real, w: real)
    requires p.Valid() && |x0| == |x|
    requires v == KernelOf(p, exp, x0, x0) + Squared(p.sigmaN) && k == KernelOf(p, exp, x0, x)
    requires v > 0.0 && v * a == y && v * w == k
    ensures var s := KernelOf(p, exp, x, x) + Squared(p.sigmaN) - k * w;
      PosteriorOf(p, exp, [x0], [y], x) == (k * a, if s < 0.000000000001 then 0.000000000001 else s)
  {
    hide Squared, KernelOf, PositiveDefinite, PosteriorOf, Predicts, PredictsBy, Covariance, MatVec, Dot;
    var explained, mean := k * w, k * a;
    var sigmaSq := Max(KernelOf(p, exp, x, x) + p.Noise() - explained, MIN_VARIANCE);
    SingleDefinite(v);
    SingleEntry(p, exp, x0);
    SingleSolves(v, a, y);
    SingleSolves(v, w, k);
    SingleDot(k, a);
    SingleDot(k, w);
    OnePointPredicts(p, exp, x0, y, x, v, k, a, w, mean, sigmaSq);
    PosteriorIs(p, exp, [x0], [y], x, mean, sigmaSq, [a], [w]);
  }

  lemma OnePointPredicts(
    p: Hyperparameters, exp: real -> real, x0: Vec, y: real, x: Vec,
    v: real, k: real, a: real, w: real, mean: real, sigmaSq: real)
    requires p.Valid() && |x0| == |x| && k == KernelOf(p, exp, x0, x) && v == KernelOf(p, exp, x0, x0) + p.Noise()
    requires MatVec([[v]], [a], 1, 1) == [y] && MatVec([[v]], [w], 1, 1) == [k]
    requires mean == Dot([k], [a], 1)
    requires sigmaSq == Max(KernelOf(p, exp, x, x) + p.Noise() - Dot([k], [w], 1), MIN_VARIANCE)
    ensures PredictsBy(p, exp, [x0], [y], x, mean, sigmaSq, [a], [w])
  {
    hide KernelOf, Covariance, KernelColumn, MatVec, Dot, Max, Hyperparameters.Noise;
    SingleEntry(p, exp, x0);
    SingleColumn(p, exp, x0, x);
  }

  /** So a positive observation weighs more in a prediction exactly the closer it was made. */
  lemma CloserExactlyMore(p: Hyperparameters, exp: real -> real, x0: Vec, y: real, a: Vec, d: Vec, b: Vec, e: Vec)
    requires p.Valid() && p.sigmaF != 0.0 && Increasing(exp) && y > 0.0
    requires IsDifference(d, x0, a) && IsDifference(e, x0, b)
    requires KernelOf(p, exp, x0, x0) + Squared(p.sigmaN) > 0.0
    ensures PosteriorOf(p, exp, [x0], [y], a).0 > PosteriorOf(p, exp, [x0], [y], b).0
            <==> Dot(d, d, |d|) < Dot(e, e, |e|)
  {
    hide KernelOf, PosteriorOf, Dot, Squared, Increasing;
    var v := KernelOf(p, exp, x0, x0) + Squared(p.sigmaN);
    var c, s, t := Ratio(y, v), KernelOf(p, exp, x0, a), KernelOf(p, exp, x0, b);
    OnePointPosterior(p, exp, x0, y, a, v, s, c, Ratio(s, v));
    OnePointPosterior(p, exp, x0, y, b, v, t, c, Ratio(t, v));
    CloserExactlyLarger(p, exp, x0, a, d, x0, b, e);
    assert c > 0.0 by {
      if c <= 0.0 {
        PositiveTimesNot(v, c);
      }
    }
    MulOrder(c, s, t);
  }

  lemma PositiveTimesNot(v: real, c: real)
    requires v > 0.0 && c <= 0.0
    ensures v * c <= 0.0
  {
  }
}
