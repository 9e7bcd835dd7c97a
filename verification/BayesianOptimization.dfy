/** The Bayesian optimiser: Latin hypercube design, acquisition maximisation with local search, and
    the best-so-far loop around a Gaussian process. Random draws are parameters. */
module BayesianOptimization {
  import opened Reals
  import opened Vectors
  import GaussianProcesses
  import Matrices
  import Cholesky

  const NO_CANDIDATE: real := -1000000000000000000.0
  const LOCAL_ITERATIONS: nat := 50
  const H: real := 0.000001
  const MIN_GAIN: real := 0.000000000001
  const MIN_SIGMA: real := 0.000000001

  datatype Interval = Interval(lower: real, upper: real)

  ghost predicate ValidBounds(bounds: seq<Interval>) {
    forall j :: 0 <= j < |bounds| ==> bounds[j].lower <= bounds[j].upper
  }

  ghost predicate InBox(x: Vec, bounds: seq<Interval>) {
    |x| == |bounds| && forall j :: 0 <= j < |x| ==> bounds[j].lower <= x[j] <= bounds[j].upper
  }

  function Clamp(v: real, b: Interval): (r: real)
    ensures b.lower <= b.upper ==> b.lower <= r <= b.upper
  {
    var capped := if v < b.upper then v else b.upper;
    if capped < b.lower then b.lower else capped
  }

  /** One coordinate after a step along the normalised gradient. */
  function Advanced(x: real, step: real, slope: real, norm: real): real
    requires norm != 0.0
  {
    x + step * slope / norm
  }

  /** A point of the unit interval carried over to an interval. */
  function Stretch(u: real, b: Interval): real {
    b.lower + u * (b.upper - b.lower)
  }

  lemma StretchInside(u: real, b: Interval)
    requires 0.0 <= u <= 1.0 && b.lower <= b.upper
    ensures b.lower <= Stretch(u, b) <= b.upper
  {
    var d := b.upper - b.lower;
    assert 0.0 <= u * d;
    assert 0.0 <= (1.0 - u) * d;
    assert u * d + (1.0 - u) * d == d;
  }

  lemma DifferenceOfSquares(q: real, r: real, lo: real, hi: real)
    ensures (Mul(q, hi) + Mul(r, Mul(hi, hi))) - (Mul(q, lo) + Mul(r, Mul(lo, lo)))
            == Mul(q + Mul(r, lo + hi), hi - lo)
  {
    var d, m := hi - lo, lo + hi;
    assert Mul(hi, hi) - Mul(lo, lo) == Mul(m, d);
    assert Mul(r, Mul(hi, hi)) - Mul(r, Mul(lo, lo)) == Mul(r, Mul(m, d)) by {
      assert Mul(r, Mul(hi, hi) - Mul(lo, lo)) == Mul(r, Mul(hi, hi)) - Mul(r, Mul(lo, lo));
    }
    TripleProduct(r, m, d);
    assert Mul(q, hi) - Mul(q, lo) == Mul(q, d);
  }

  lemma SpreadOut(slope: real, spread: real, whole: real)
    requires whole > 0.0
    ensures Mul(slope, spread) / whole == Mul(slope, spread / whole)
  {
  }

  lemma TwiceProduct(r: real, x: real)
    ensures Mul(r, (x - H) + (x + H)) == 2.0 * Mul(r, x)
  {
  }

  lemma WholeSpread(slope: real)
    ensures Mul(slope, 2.0 * H / (2.0 * H)) == slope
  {
  }

  lemma PartOfSlope(q: real, part: real)
    ensures Mul(q, part) == q <==> q == 0.0 || part == 1.0
  {
    if q != 0.0 && Mul(q, part) == q {
      var y := part - 1.0;
      assert q * y == 0.0;
      assert y == q * y / q;
    }
  }

  // ----- Latin hypercube sampling

  function Identity(n: nat): seq<nat> {
    seq(n, i => i)
  }

  /** What a shuffle of 0, 1, ..., n-1 can return. */
  ghost predicate IsShuffle(perm: seq<nat>, n: nat) {
    multiset(perm) == multiset(Identity(n))
  }

  lemma {:induction false} IdentityCounts(n: nat, s: nat)
    ensures multiset(Identity(n))[s] == if s < n then 1 else 0
  {
    if n > 0 {
      IdentityCounts(n - 1, s);
      assert Identity(n) == Identity(n - 1) + [n - 1];
    }
  }

  lemma TwicePresent(perm: seq<nat>, i: nat, k: nat)
    requires i < k < |perm| && perm[i] == perm[k]
    ensures multiset(perm)[perm[i]] >= 2
  {
    var a, b := perm[..k], perm[k..];
    assert perm == a + b && a[i] in multiset(a) && b[0] in multiset(b);
    assert multiset(perm) == multiset(a) + multiset(b);
  }

  /** A shuffle has every number below n at exactly one place. */
  lemma ShuffleBijective(perm: seq<nat>, n: nat)
    requires IsShuffle(perm, n)
    ensures |perm| == n
    ensures forall i :: 0 <= i < |perm| ==> perm[i] < n
    ensures forall s: nat :: s < n ==> s in perm
    ensures forall i, k :: 0 <= i < k < |perm| ==> perm[i] != perm[k]
  {
    assert |multiset(perm)| == |perm| && |multiset(Identity(n))| == n;
    forall i | 0 <= i < |perm| ensures perm[i] < n {
      assert perm[i] in multiset(perm);
      IdentityCounts(n, perm[i]);
    }
    forall s: nat | s < n ensures s in perm {
      IdentityCounts(n, s);
      assert s in multiset(perm);
    }
    forall i, k | 0 <= i < k < |perm| ensures perm[i] != perm[k] {
      if perm[i] == perm[k] {
        TwicePresent(perm, i, k);
        IdentityCounts(n, perm[i]);
      }
    }
  }

  /** x lies in stratum s of n equal strata of the unit interval: s / n <= x < (s + 1) / n. */
  ghost predicate InStratum(x: real, n: nat, s: nat)
    requires n > 0
  {
    s as real / n as real <= x < (s + 1) as real / n as real
  }

  lemma StratumOf(x: real, s: nat, u: real, n: nat)
    requires n > 0 && 0.0 <= u < 1.0 && x == (s as real + u) / n as real
    ensures forall t: nat :: InStratum(x, n, t) <==> t == s
    ensures s < n ==> 0.0 <= x <= 1.0
  {
    forall t: nat ensures InStratum(x, n, t) <==> t == s {
      QuotientOrder(t as real, s as real + u, n as real);
      QuotientOrder((t + 1) as real, s as real + u, n as real);
    }
    QuotientOrder(0.0, s as real + u, n as real);
    QuotientOrder(s as real + u, n as real, n as real);
    WholeQuotient(n as real);
  }

  lemma WholeQuotient(d: real)
    requires d > 0.0
    ensures d / d == 1.0 && 0.0 / d == 0.0
  {
  }

  lemma QuotientOrder(a: real, b: real, d: real)
    requires d > 0.0
    ensures a <= b <==> a / d <= b / d
  {
    var p, q := a / d, b / d;
    assert p * d == a && q * d == b;
    assert p <= q ==> 0.0 <= (q - p) * d;
    assert p > q ==> 0.0 < (p - q) * d;
  }

  /** The random numbers behind the initial design: a shuffle and n uniform draws per dimension. */
  ghost predicate ValidDesign(perms: seq<seq<nat>>, draws: seq<seq<real>>, n: nat, d: nat) {
    && |perms| == d && |draws| == d
    && (forall j :: 0 <= j < d ==> IsShuffle(perms[j], n) && |draws[j]| == n)
    && (forall j, i :: 0 <= j < d && 0 <= i < n ==> 0.0 <= draws[j][i] < 1.0)
  }

  ghost predicate Rectangular(samples: seq<Vec>, n: nat, d: nat) {
    |samples| == n && forall i :: 0 <= i < n ==> |samples[i]| == d
  }

  /** Stratum s of dimension j holds exactly one of the n samples. */
  ghost predicate HoldsOne(samples: seq<Vec>, n: nat, d: nat, j: nat, s: nat)
    requires Rectangular(samples, n, d) && j < d
  {
    && (exists i :: 0 <= i < n && InStratum(samples[i][j], n, s))
    && (forall i, k :: 0 <= i < k < n && InStratum(samples[i][j], n, s) ==> !InStratum(samples[k][j], n, s))
  }

  /** In dimension j every one of the n strata holds exactly one sample. */
  ghost predicate OnePerStratum(samples: seq<Vec>, n: nat, d: nat, j: nat)
    requires Rectangular(samples, n, d) && j < d
  {
    forall s: nat :: s < n ==> HoldsOne(samples, n, d, j, s)
  }

  lemma ShuffledColumn(samples: seq<Vec>, perm: seq<nat>, draws: seq<real>, n: nat, d: nat, j: nat)
    requires Rectangular(samples, n, d) && j < d && IsShuffle(perm, n) && |draws| == n
    requires |perm| == n && forall i :: 0 <= i < n ==> 0.0 <= draws[i] < 1.0
    requires forall i :: 0 <= i < n ==> samples[i][j] == (perm[i] as real + draws[i]) / n as real
    ensures OnePerStratum(samples, n, d, j)
    ensures forall i :: 0 <= i < n ==> 0.0 <= samples[i][j] <= 1.0
  {
    ShuffleBijective(perm, n);
    forall i | 0 <= i < n
      ensures forall t: nat :: InStratum(samples[i][j], n, t) <==> t == perm[i]
      ensures 0.0 <= samples[i][j] <= 1.0
    {
      StratumOf(samples[i][j], perm[i], draws[i], n);
    }
    hide InStratum;
    forall s: nat | s < n ensures HoldsOne(samples, n, d, j, s) {
      assert s in perm;
      var i :| 0 <= i < n && perm[i] == s;
      assert InStratum(samples[i][j], n, s);
    }
  }

  method LatinHypercubeSampling(n: nat, d: nat, perms: seq<seq<nat>>, draws: seq<seq<real>>) returns (samples: seq<Vec>)
    requires ValidDesign(perms, draws, n, d)
    ensures Rectangular(samples, n, d)
    ensures forall j :: 0 <= j < d ==> OnePerStratum(samples, n, d, j)
    ensures forall i, j :: 0 <= i < n && 0 <= j < d ==> 0.0 <= samples[i][j] <= 1.0
  {
    samples := seq(n, _ => seq(d, _ => 0.0));
    var j := 0;
    while j < d
      invariant j <= d && Rectangular(samples, n, d)
      invariant forall c :: 0 <= c < j ==> OnePerStratum(samples, n, d, c)
      invariant forall i, c :: 0 <= i < n && 0 <= c < j ==> 0.0 <= samples[i][c] <= 1.0
    {
      ghost var before := samples;
      samples := FillColumn(samples, n, d, j, perms[j], draws[j]);
      forall c | 0 <= c < j ensures OnePerStratum(samples, n, d, c) {
        SameColumn(before, samples, n, d, c);
      }
      j := j + 1;
    }
  }

  lemma SameColumn(a: seq<Vec>, b: seq<Vec>, n: nat, d: nat, j: nat)
    requires Rectangular(a, n, d) && Rectangular(b, n, d) && j < d
    requires forall i :: 0 <= i < n ==> a[i][j] == b[i][j]
    requires OnePerStratum(a, n, d, j)
    ensures OnePerStratum(b, n, d, j)
  {
    hide InStratum;
    forall s: nat | s < n ensures HoldsOne(b, n, d, j, s) {
      assert HoldsOne(a, n, d, j, s);
      var i :| 0 <= i < n && InStratum(a[i][j], n, s);
      assert InStratum(b[i][j], n, s);
      forall i, k | 0 <= i < k < n && InStratum(b[i][j], n, s) ensures !InStratum(b[k][j], n, s) {
        assert InStratum(a[i][j], n, s) && !InStratum(a[k][j], n, s);
      }
    }
  }

  /** One dimension of the design. */
  method FillColumn(samples: seq<Vec>, n: nat, d: nat, j: nat, perm: seq<nat>, draws: seq<real>) returns (r: seq<Vec>)
    requires Rectangular(samples, n, d) && j < d && IsShuffle(perm, n) && |draws| == n
    requires forall i :: 0 <= i < n ==> 0.0 <= draws[i] < 1.0
    ensures Rectangular(r, n, d) && OnePerStratum(r, n, d, j)
    ensures forall i :: 0 <= i < n ==> 0.0 <= r[i][j] <= 1.0
    ensures forall i, c :: 0 <= i < n && 0 <= c < d && c != j ==> r[i][c] == samples[i][c]
  {
    ShuffleBijective(perm, n);
    r := samples;
    var i := 0;
    while i < n
      invariant i <= n && Rectangular(r, n, d)
      invariant forall k :: 0 <= k < i ==> r[k][j] == (perm[k] as real + draws[k]) / n as real
      invariant forall k, c :: 0 <= k < n && 0 <= c < d && c != j ==> r[k][c] == samples[k][c]
    {
      r := r[i := r[i][j := (perm[i] as real + draws[i]) / n as real]];
      i := i + 1;
    }
    ShuffledColumn(r, perm, draws, n, d, j);
  }

  // ----- Acquisition maximisation

  /** Distribution function and density of the standard normal distribution. */
  datatype Normal = Normal(cdf: real -> real, pdf: real -> real) {
    /** The integral of the distribution function up to z. */
    function Integral(z: real): real {
      Mul(z, cdf(z)) + pdf(z)
    }

    ghost predicate Valid() {
      && (forall z :: Integral(z) >= 0.0)
      && (forall y, z :: y < z ==> Integral(y) < Integral(z))
    }
  }

  function ExpectedImprovement(
    mu: real, sigmaSq: real, best: real, xi: real, sqrt: real -> real, normal: Normal): real {
    var sigma := sqrt(sigmaSq);
    if sigma < MIN_SIGMA then 0.0
    else
      var z := (mu - best - xi) / sigma;
      Mul(mu - best - xi, normal.cdf(z)) + Mul(sigma, normal.pdf(z))
  }

  lemma ImprovementIsIntegral(gain: real, sigma: real, z: real, normal: Normal)
    requires sigma > 0.0 && z == gain / sigma
    ensures Mul(gain, normal.cdf(z)) + Mul(sigma, normal.pdf(z)) == Mul(sigma, normal.Integral(z))
  {
    var c, d := normal.cdf(z), normal.pdf(z);
    assert gain == sigma * z;
    TripleProduct(sigma, z, c);
    MulSum(sigma, Mul(z, c), d);
  }

  lemma TripleProduct(s: real, z: real, c: real)
    ensures Mul(s * z, c) == Mul(s, Mul(z, c))
  {
  }

  lemma ProductOrder(s: real, x: real, y: real)
    requires s > 0.0
    ensures x < y ==> Mul(s, x) < Mul(s, y)
    ensures x >= 0.0 ==> Mul(s, x) >= 0.0
  {
  }

  lemma QuotientStrict(x: real, y: real, d: real)
    requires d > 0.0 && x < y
    ensures x / d < y / d
  {
  }

  /** The expected improvement is never negative. */
  lemma ImprovementNonNegative(mu: real, sigmaSq: real, best: real, xi: real, sqrt: real -> real, normal: Normal)
    requires normal.Valid()
    ensures ExpectedImprovement(mu, sigmaSq, best, xi, sqrt, normal) >= 0.0
  {
    var sigma := sqrt(sigmaSq);
    if sigma >= MIN_SIGMA {
      var z := (mu - best - xi) / sigma;
      ImprovementIsIntegral(mu - best - xi, sigma, z, normal);
      ProductOrder(sigma, normal.Integral(z), 0.0);
    }
  }

  /** The floor under the predicted variance lies above the one under which the improvement is set
      to zero, so that test never fires on a prediction. */
  lemma DeviationNotNegligible(sigmaSq: real, sqrt: real -> real)
    requires IsSqrt(sqrt) && sigmaSq >= GaussianProcesses.MIN_VARIANCE
    ensures sqrt(sigmaSq) >= 0.000000001
  {
    var s := sqrt(sigmaSq);
    if s < MIN_SIGMA { SmallSquare(s, s, MIN_SIGMA); }
  }

  lemma SmallSquare(s: real, t: real, h: real)
    requires 0.0 <= s < h && 0.0 <= t < h
    ensures s * t <= h * h
  {
    assert s * t <= s * h;
    assert s * h <= h * h;
  }

  /** Of two points predicted with the same variance the search prefers the one with the larger
      predicted mean, although the objective is minimised. */
  lemma LargerMeanPreferred(
    mu: real, mu': real, sigmaSq: real, best: real, xi: real, sqrt: real -> real, normal: Normal)
    requires normal.Valid() && IsSqrt(sqrt) && sigmaSq >= GaussianProcesses.MIN_VARIANCE
    ensures mu < mu' <==> ExpectedImprovement(mu, sigmaSq, best, xi, sqrt, normal)
                          < ExpectedImprovement(mu', sigmaSq, best, xi, sqrt, normal)
  {
    DeviationNotNegligible(sigmaSq, sqrt);
    if mu < mu' {
      LargerMeanLargerImprovement(mu, mu', sigmaSq, best, xi, sqrt, normal);
    } else if mu' < mu {
      LargerMeanLargerImprovement(mu', mu, sigmaSq, best, xi, sqrt, normal);
    }
  }

  lemma LargerMeanLargerImprovement(
    mu: real, mu': real, sigmaSq: real, best: real, xi: real, sqrt: real -> real, normal: Normal)
    requires normal.Valid() && mu < mu' && sqrt(sigmaSq) >= MIN_SIGMA
    ensures ExpectedImprovement(mu, sigmaSq, best, xi, sqrt, normal)
            < ExpectedImprovement(mu', sigmaSq, best, xi, sqrt, normal)
  {
    ImprovementValue(mu, sigmaSq, best, xi, sqrt, normal);
    ImprovementValue(mu', sigmaSq, best, xi, sqrt, normal);
    hide ExpectedImprovement, Mul, Normal.Integral;
    var sigma := sqrt(sigmaSq);
    var z, z' := (mu - best - xi) / sigma, (mu' - best - xi) / sigma;
    QuotientStrict(mu - best - xi, mu' - best - xi, sigma);
    ProductOrder(sigma, normal.Integral(z), normal.Integral(z'));
  }

  lemma ImprovementValue(mu: real, sigmaSq: real, best: real, xi: real, sqrt: real -> real, normal: Normal)
    requires sqrt(sigmaSq) >= MIN_SIGMA
    ensures sqrt(sigmaSq) > 0.0
    ensures ExpectedImprovement(mu, sigmaSq, best, xi, sqrt, normal)
            == Mul(sqrt(sigmaSq), normal.Integral((mu - best - xi) / sqrt(sigmaSq)))
  {
    var sigma := sqrt(sigmaSq);
    ImprovementIsIntegral(mu - best - xi, sigma, (mu - best - xi) / sigma, normal);
    hide Mul;
  }

  /** The improvement written out: with the gain of the predicted mean over the best value by the margin,
      it is gain * cdf(z) + sigma * pdf(z) for the z with z * sigma == gain; a sigma under 1e-9 gives none. */
  lemma ImprovementFormula(
    mu: real, sigmaSq: real, best: real, xi: real, sqrt: real -> real, normal: Normal, z: real)
    requires z * sqrt(sigmaSq) == mu - best - xi
    ensures ExpectedImprovement(mu, sigmaSq, best, xi, sqrt, normal) ==
      if sqrt(sigmaSq) < 0.000000001 then 0.0
      else Mul(mu - best - xi, normal.cdf(z)) + Mul(sqrt(sigmaSq), normal.pdf(z))
  {
    if sqrt(sigmaSq) >= MIN_SIGMA {
      QuotientOfProduct(z, sqrt(sigmaSq), mu - best - xi);
    }
    hide Mul;
  }

  lemma QuotientOfProduct(z: real, d: real, gain: real)
    requires d > 0.0 && z * d == gain
    ensures gain / d == z
  {
  }

  // ----- The numerical gradient

  /** The slope of f in dimension j, between two points kept in the box. */
  ghost function CentralDifference(f: Vec -> real, bounds: seq<Interval>, x: Vec, j: nat): real
    requires j < |x| == |bounds|
  {
    var plus := f(x[j := Clamp(x[j] + H, bounds[j])]);
    var minus := f(x[j := Clamp(x[j] - H, bounds[j])]);
    (plus - minus) / (2.0 * H)
  }

  /** Along dimension j, within the bounds, f is p + q t + r t t. */
  ghost predicate QuadraticAlong(f: Vec -> real, bounds: seq<Interval>, x: Vec, j: nat, p: real, q: real, r: real)
    requires j < |x| == |bounds|
  {
    forall t: real :: bounds[j].lower <= t <= bounds[j].upper ==> f(x[j := t]) == p + Mul(q, t) + Mul(r, Mul(t, t))
  }

  /** On a quadratic a component is the derivative halfway between the two points looked at, scaled
      down by the part of their distance that clamping cut off. */
  lemma GradientOfQuadratic(
    f: Vec -> real, bounds: seq<Interval>, x: Vec, j: nat, p: real, q: real, r: real)
    requires InBox(x, bounds) && j < |bounds| && QuadraticAlong(f, bounds, x, j, p, q, r)
    ensures var lo, hi := Clamp(x[j] - H, bounds[j]), Clamp(x[j] + H, bounds[j]);
      && 0.0 <= hi - lo <= 2.0 * H == 0.000002
      && CentralDifference(f, bounds, x, j) == Mul(q + Mul(r, lo + hi), (hi - lo) / (2.0 * H))
      && (lo == x[j] - H && hi == x[j] + H ==> CentralDifference(f, bounds, x, j) == q + 2.0 * Mul(r, x[j]))
  {
    var lo, hi := Clamp(x[j] - H, bounds[j]), Clamp(x[j] + H, bounds[j]);
    hide Mul;
    DifferenceOfSquares(q, r, lo, hi);
    SpreadOut(q + Mul(r, lo + hi), hi - lo, 2.0 * H);
    if lo == x[j] - H && hi == x[j] + H {
      TwiceProduct(r, x[j]);
      WholeSpread(q + Mul(r, lo + hi));
    }
  }

  /** So on a linear stretch a component is the slope exactly when the slope is zero or both points
      looked at are within the bounds: near a bound the gradient comes out too small. */
  lemma GradientExactlyInside(f: Vec -> real, bounds: seq<Interval>, x: Vec, j: nat, p: real, q: real)
    requires InBox(x, bounds) && j < |bounds| && QuadraticAlong(f, bounds, x, j, p, q, 0.0)
    ensures CentralDifference(f, bounds, x, j) == q <==>
      q == 0.0 || (bounds[j].lower <= x[j] - 0.000001 && x[j] + 0.000001 <= bounds[j].upper)
  {
    var lo, hi := Clamp(x[j] - H, bounds[j]), Clamp(x[j] + H, bounds[j]);
    GradientOfQuadratic(f, bounds, x, j, p, q, 0.0);
    assert Mul(0.0, lo + hi) == 0.0;
    hide CentralDifference;
    PartOfSlope(q, (hi - lo) / (2.0 * H));
  }

  /** An expected improvement with a linear stretch: the mean stands at the margin throughout, and the
      deviation is 1 + t. */
  function WideningImprovement(best: real, xi: real, sqrt: real -> real, normal: Normal): Vec -> real {
    (x: Vec) =>
      if |x| == 1 then ExpectedImprovement(best + xi, Mul(1.0 + x[0], 1.0 + x[0]), best, xi, sqrt, normal) else 0.0
  }

  /** At the lower bound of such a stretch the gradient is half the slope. */
  lemma GradientHalvedAtBound(best: real, xi: real, sqrt: real -> real, normal: Normal)
    requires IsSqrt(sqrt) && normal.Valid()
    ensures var f, bounds := WideningImprovement(best, xi, sqrt, normal), [Interval(0.0, 1.0)];
      && InBox([0.0], bounds) && QuadraticAlong(f, bounds, [0.0], 0, normal.pdf(0.0), normal.pdf(0.0), 0.0)
      && normal.pdf(0.0) > 0.0
      && CentralDifference(f, bounds, [0.0], 0) == normal.pdf(0.0) / 2.0
  {
    DensityPositive(normal);
    WideningIsLinear(best, xi, sqrt, normal);
    hide *;
    LinearAtBound(WideningImprovement(best, xi, sqrt, normal), normal.pdf(0.0));
  }

  lemma WideningIsLinear(best: real, xi: real, sqrt: real -> real, normal: Normal)
    requires IsSqrt(sqrt)
    ensures QuadraticAlong(WideningImprovement(best, xi, sqrt, normal), [Interval(0.0, 1.0)], [0.0], 0,
                           normal.pdf(0.0), normal.pdf(0.0), 0.0)
  {
    var f, d := WideningImprovement(best, xi, sqrt, normal), normal.pdf(0.0);
    hide IsSqrt, ExpectedImprovement, WideningImprovement, Mul;
    forall t: real | 0.0 <= t <= 1.0 ensures f([0.0][0 := t]) == d + Mul(d, t) + Mul(0.0, Mul(t, t)) {
      WideningValue(best, xi, sqrt, normal, t);
      assert [0.0][0 := t] == [t];
    }
  }

  lemma LinearAtBound(f: Vec -> real, d: real)
    requires QuadraticAlong(f, [Interval(0.0, 1.0)], [0.0], 0, d, d, 0.0)
    ensures InBox([0.0], [Interval(0.0, 1.0)])
    ensures CentralDifference(f, [Interval(0.0, 1.0)], [0.0], 0) == d / 2.0
  {
    var bounds := [Interval(0.0, 1.0)];
    assert Clamp(0.0 - H, bounds[0]) == 0.0 && Clamp(0.0 + H, bounds[0]) == H;
    hide QuadraticAlong, CentralDifference, Clamp, Mul;
    GradientOfQuadratic(f, bounds, [0.0], 0, d, d, 0.0);
    HalfSlope(d);
  }

  lemma DensityPositive(normal: Normal)
    requires normal.Valid()
    ensures normal.pdf(0.0) > 0.0
  {
    assert normal.Integral(-1.0) < normal.Integral(0.0);
  }

  lemma HalfSlope(d: real)
    ensures Mul(d + Mul(0.0, 0.0 + H), (H - 0.0) / (2.0 * H)) == d / 2.0
  {
  }

  lemma WideningValue(best: real, xi: real, sqrt: real -> real, normal: Normal, t: real)
    requires IsSqrt(sqrt) && 0.0 <= t
    ensures WideningImprovement(best, xi, sqrt, normal)([t])
            == normal.pdf(0.0) + Mul(normal.pdf(0.0), t) + Mul(0.0, Mul(t, t))
  {
    var v := Mul(1.0 + t, 1.0 + t);
    ProductOrder(1.0 + t, 1.0 + t, 0.0);
    RootUnique(sqrt(v), 1.0 + t);
    NoGain(1.0 + t, normal.cdf(0.0), normal.pdf(0.0), t);
  }

  lemma NoGain(sigma: real, c: real, d: real, t: real)
    requires sigma == 1.0 + t && sigma > 0.0
    ensures 0.0 / sigma == 0.0
    ensures Mul(0.0, c) + Mul(sigma, d) == d + Mul(d, t) + Mul(0.0, Mul(t, t))
  {
  }

  /** The random draws of one maximisation: uniform grid draws and normal perturbations. */
  datatype Draws = Draws(uniform: (nat, nat) -> real, noise: (nat, nat) -> real) {
    ghost predicate Valid() {
      forall i: nat, j: nat :: 0.0 <= uniform(i, j) < 1.0
    }
  }

  function GridPoint(bounds: seq<Interval>, draws: Draws, i: nat): (x: Vec)
    ensures |x| == |bounds|
  {
    seq(|bounds|, j requires 0 <= j < |bounds| => Stretch(draws.uniform(i, j), bounds[j]))
  }

  function NearPoint(bounds: seq<Interval>, draws: Draws, saved: Vec, i: nat): (x: Vec)
    requires |saved| == |bounds|
    ensures |x| == |bounds|
  {
    seq(|bounds|, j requires 0 <= j < |bounds| => Clamp(saved[j] + draws.noise(i, j), bounds[j]))
  }

  lemma GridPointInBox(bounds: seq<Interval>, draws: Draws, i: nat)
    requires ValidBounds(bounds) && draws.Valid()
    ensures InBox(GridPoint(bounds, draws, i), bounds)
  {
    forall j | 0 <= j < |bounds|
      ensures bounds[j].lower <= GridPoint(bounds, draws, i)[j] <= bounds[j].upper
    {
      StretchInside(draws.uniform(i, j), bounds[j]);
    }
  }

  lemma NearPointInBox(bounds: seq<Interval>, draws: Draws, saved: Vec, i: nat)
    requires ValidBounds(bounds) && |saved| == |bounds|
    ensures InBox(NearPoint(bounds, draws, saved, i), bounds)
  {
    forall j | 0 <= j < |bounds|
      ensures bounds[j].lower <= NearPoint(bounds, draws, saved, i)[j] <= bounds[j].upper
    {
      var v := saved[j] + draws.noise(i, j);
      assert NearPoint(bounds, draws, saved, i)[j] == Clamp(v, bounds[j]);
      ClampInside(v, bounds[j]);
    }
  }

  lemma ClampInside(v: real, b: Interval)
    requires b.lower <= b.upper
    ensures b.lower <= Clamp(v, b) <= b.upper
  {
  }

  /** A clamped value is the point of the interval nearest to it. */
  lemma ClampNearest(v: real, b: Interval, t: real)
    requires b.lower <= t <= b.upper
    ensures b.lower <= Clamp(v, b) <= b.upper && Abs(v - Clamp(v, b)) <= Abs(v - t)
  {
  }

  /** The ends of the unit interval go to the ends of the bounds, and its middle to theirs. */
  lemma StretchEnds(b: Interval)
    ensures Stretch(0.0, b) == b.lower && Stretch(1.0, b) == b.upper
    ensures Stretch(0.5, b) == (b.lower + b.upper) / 2.0
  {
  }

  // ----- The steps of the local search

  ghost function GradientAt(f: Vec -> real, bounds: seq<Interval>, x: Vec): (g: Vec)
    requires |x| == |bounds|
    ensures |g| == |x|
  {
    seq(|x|, j requires 0 <= j < |x| => CentralDifference(f, bounds, x, j))
  }

  /** The step after k failures: 0.01 halved k times. */
  function Halved(k: nat): (step: real)
    ensures step > 0.0
  {
    if k == 0 then 0.01 else 0.5 * Halved(k - 1)
  }

  lemma TwentyHalvings()
    ensures Halved(20) < 0.00000001
    ensures forall k: nat :: k < 20 ==> Halved(k) >= 0.00000001
  {
    assert Halved(5) == 0.0003125;
    assert Halved(10) == 0.000009765625;
    assert Halved(15) == 0.00000030517578125;
    assert Halved(19) == 0.000000019073486328125;
    HalvedFalls(19);
  }

  lemma {:induction false} HalvedFalls(m: nat)
    ensures forall k: nat :: k <= m ==> Halved(k) >= Halved(m)
  {
    if m > 0 {
      HalvedFalls(m - 1);
    }
  }

  ghost function Trial(bounds: seq<Interval>, x: Vec, g: Vec, norm: real, step: real): (next: Vec)
    requires |x| == |bounds| == |g| && norm > 0.0
    ensures |next| == |x|
  {
    seq(|x|, j requires 0 <= j < |x| => Clamp(Advanced(x[j], step, g[j], norm), bounds[j]))
  }

  /** Nothing to be gained: the gradient is shorter than 1e-6, or none of the steps along it, from 0.01
      down to the last above 1e-8, gains more than 1e-12. */
  ghost predicate Standstill(f: Vec -> real, bounds: seq<Interval>, sqrt: real -> real, x: Vec)
    requires |x| == |bounds|
  {
    var g := GradientAt(f, bounds, x);
    var norm := sqrt(Dot(g, g, |g|));
    norm < 0.000001
    || forall k: nat :: k < 20 ==> f(Trial(bounds, x, g, norm, Halved(k))) <= f(x) + 0.000000000001
  }

  /** The first m of those steps gain nothing, if they are tried at all. */
  ghost predicate NoGainBefore(f: Vec -> real, bounds: seq<Interval>, sqrt: real -> real, x: Vec, m: nat)
    requires |x| == |bounds|
  {
    var g := GradientAt(f, bounds, x);
    var norm := sqrt(Dot(g, g, |g|));
    norm >= 0.000001 ==>
      forall k: nat :: k < m ==> f(Trial(bounds, x, g, norm, Halved(k))) <= f(x) + 0.000000000001
  }

  lemma TrialDecides(f: Vec -> real, bounds: seq<Interval>, sqrt: real -> real, x: Vec, k: nat)
    requires |x| == |bounds| && k < 20 && NoGainBefore(f, bounds, sqrt, x, k)
    ensures var g := GradientAt(f, bounds, x);
      var norm := sqrt(Dot(g, g, |g|));
      norm >= 0.000001 ==>
        if f(Trial(bounds, x, g, norm, Halved(k))) > f(x) + 0.000000000001 then !Standstill(f, bounds, sqrt, x)
        else NoGainBefore(f, bounds, sqrt, x, k + 1)
    ensures NoGainBefore(f, bounds, sqrt, x, 20) ==> Standstill(f, bounds, sqrt, x)
  {
    hide GradientAt, Trial, Halved, Dot;
  }

  lemma NothingTried(f: Vec -> real, bounds: seq<Interval>, sqrt: real -> real, x: Vec)
    requires |x| == |bounds|
    ensures NoGainBefore(f, bounds, sqrt, x, 0)
  {
    hide GradientAt, Trial, Dot;
  }

  lemma FlatIsStandstill(f: Vec -> real, bounds: seq<Interval>, sqrt: real -> real, x: Vec)
    requires |x| == |bounds|
    ensures var g := GradientAt(f, bounds, x); sqrt(Dot(g, g, |g|)) < 0.000001 ==> Standstill(f, bounds, sqrt, x)
  {
    hide GradientAt, Trial, Dot;
  }

  lemma HalvedSteps(k: nat)
    ensures Halved(0) == 0.01 && Halved(k + 1) == 0.5 * Halved(k)
  {
  }

  method SumOfSquares(v: Vec) returns (sum: real)
    ensures sum == Dot(v, v, |v|)
  {
    sum := 0.0;
    var j := 0;
    while j < |v|
      invariant j <= |v| && sum == Dot(v, v, j)
    {
      sum := sum + v[j] * v[j];
      j := j + 1;
    }
  }

  /** Along each dimension a step goes uphill, and by the step's share of the gradient while that stays
      within the bounds. */
  lemma StepGoesUphill(x: real, step: real, slope: real, norm: real, b: Interval, d: real)
    requires step > 0.0 && norm > 0.0 && b.lower <= x <= b.upper && d * norm == step * slope
    ensures var next := Clamp(Advanced(x, step, slope, norm), b);
      && (b.lower <= x + d <= b.upper ==> next == x + d)
      && (slope > 0.0 ==> next >= x && (next == x <==> x == b.upper))
      && (slope < 0.0 ==> next <= x && (next == x <==> x == b.lower))
      && (slope == 0.0 ==> next == x)
  {
    QuotientOfProduct(d, norm, step * slope);
    StepSign(step, slope, norm, d);
  }

  lemma StepSign(step: real, slope: real, norm: real, d: real)
    requires step > 0.0 && norm > 0.0 && d * norm == step * slope
    ensures slope > 0.0 ==> d > 0.0
    ensures slope < 0.0 ==> d < 0.0
    ensures slope == 0.0 ==> d == 0.0
  {
    if slope > 0.0 {
      SignOfFactor(step, slope, norm, d);
    } else if slope < 0.0 {
      SignOfFactor(step, -slope, norm, -d);
    } else {
      ZeroProduct(d, norm);
    }
  }

  lemma SignOfFactor(step: real, slope: real, norm: real, d: real)
    requires step > 0.0 && slope > 0.0 && norm > 0.0 && d * norm == step * slope
    ensures d > 0.0
  {
    assert step * slope > 0.0;
    if d <= 0.0 {
      NonPositiveTimes(d, norm);
    }
  }

  lemma NonPositiveTimes(d: real, n: real)
    requires d <= 0.0 && n > 0.0
    ensures d * n <= 0.0
  {
  }

  datatype Config = Config(maxIter: nat, nInit: nat, gridPoints: nat, xi: real)

  datatype OptimizationResult = OptimizationResult(
    bestParams: Vec, bestObjective: real, samplePoints: seq<Vec>, sampleValues: seq<real>, iterations: nat)

  /** The samples as a matrix, row by row. */
  method SampleMatrix(xs: seq<Vec>, d: nat) returns (m: Matrices.Matrix)
    requires forall i :: 0 <= i < |xs| ==> |xs[i]| == d
    ensures fresh(m) && m.Valid() && m.rows == |xs| && m.cols == d && m.data == xs
  {
    m := new Matrices.Matrix(|xs|, d, 0.0);
    var i := 0;
    while i < |xs|
      invariant i <= |xs| && m.rows == |xs| && m.cols == d && m.Valid()
      invariant forall k :: 0 <= k < i ==> m.data[k] == xs[k]
    {
      var row := m.data[i];
      var j := 0;
      while j < d
        invariant j <= d == |row| && forall c :: 0 <= c < j ==> row[c] == xs[i][c]
      {
        row := row[j := xs[i][j]];
        j := j + 1;
      }
      m.data := m.data[i := row];
      i := i + 1;
    }
  }

  class BayesianOptimizer {
    const bounds: seq<Interval>
    const config: Config
    const objective: Vec -> real
    const normal: Normal
    const sqrt: real -> real
    const exp: real -> real
    const hyper: GaussianProcesses.Hyperparameters := GaussianProcesses.DEFAULTS
    const gp: GaussianProcesses.GaussianProcess

    ghost predicate ValidParameters() {
      && ValidBounds(bounds) && normal.Valid() && IsSqrt(sqrt) && config.nInit >= 1
      && GaussianProcesses.SemidefiniteKernel(hyper, exp)
    }

    ghost predicate Valid()
      reads gp
    {
      ValidParameters() && gp.hyper == hyper
    }

    constructor (
      bounds: seq<Interval>, config: Config, objective: Vec -> real,
      normal: Normal, sqrt: real -> real, exp: real -> real)
      requires ValidBounds(bounds) && normal.Valid() && IsSqrt(sqrt) && config.nInit >= 1
      requires GaussianProcesses.SemidefiniteKernel(GaussianProcesses.DEFAULTS, exp)
      ensures Valid() && fresh(gp) && this.bounds == bounds && this.config == config && this.objective == objective
      ensures this.normal == normal && this.sqrt == sqrt && this.exp == exp
    {
      this.bounds, this.config, this.objective := bounds, config, objective;
      this.normal, this.sqrt, this.exp := normal, sqrt, exp;
      gp := new GaussianProcesses.GaussianProcess(GaussianProcesses.DEFAULTS);
    }

    /** The expected improvement at a point, as the process trained on the samples predicts it. */
    ghost function Acquisition(xs: seq<Vec>, ys: seq<real>, best: real, x: Vec): real {
      var r := GaussianProcesses.PosteriorOf(hyper, exp, xs, ys, x);
      ExpectedImprovement(r.0, r.1, best, config.xi, sqrt, normal)
    }

    ghost function AcquisitionOf(xs: seq<Vec>, ys: seq<real>, best: real): Vec -> real {
      (x: Vec) => Acquisition(xs, ys, best, x)
    }

    lemma AcquisitionNonNegative(xs: seq<Vec>, ys: seq<real>, best: real, x: Vec)
      requires normal.Valid()
      ensures Acquisition(xs, ys, best, x) >= 0.0
    {
      var r := GaussianProcesses.PosteriorOf(hyper, exp, xs, ys, x);
      ImprovementNonNegative(r.0, r.1, best, config.xi, sqrt, normal);
    }

    /** The process is trained on these samples. */
    ghost predicate Fitted(xs: seq<Vec>, ys: seq<real>)
      reads gp, gp.factor
    {
      gp.Trained(exp) && gp.hyper == hyper && gp.dim == |bounds| && gp.xTrain == xs && gp.yTrain == ys
    }

    /** Trains the process on the samples; with noise and a proper kernel this always succeeds. */
    method Fit(xs: seq<Vec>, ys: seq<real>)
      requires Valid() && |xs| == |ys| && forall i :: 0 <= i < |xs| ==> |xs[i]| == |bounds|
      modifies gp
      ensures Valid() && Fitted(xs, ys)
    {
      hide ValidParameters, GaussianProcesses.Trainable, GaussianProcesses.SemidefiniteOn,
        GaussianProcesses.GaussianProcess.Trained, GaussianProcesses.Hyperparameters.Valid;
      SamplesTrainable(xs);
      var xMat := SampleMatrix(xs, |bounds|);
      var ok := gp.Train(xMat, ys, exp, sqrt);
      assert ok;
    }

    lemma SamplesTrainable(xs: seq<Vec>)
      requires ValidParameters() && forall i :: 0 <= i < |xs| ==> |xs[i]| == |bounds|
      ensures hyper.Valid() && IsSqrt(sqrt) && Shape(xs, |xs|, |bounds|)
      ensures GaussianProcesses.Trainable(hyper, exp, xs, |bounds|)
    {
      assert Shape(xs, |xs|, |bounds|);
      hide GaussianProcesses.SemidefiniteOn, GaussianProcesses.Trainable;
      GaussianProcesses.NoiseMakesDefinite(hyper, exp, xs, |bounds|);
    }

    /** expectedImprovement at a point, by the trained process. */
    method AcquisitionAt(ghost xs: seq<Vec>, ghost ys: seq<real>, best: real, x: Vec) returns (ei: real)
      requires Fitted(xs, ys) && |x| == |bounds|
      ensures ei == Acquisition(xs, ys, best, x)
    {
      var mu, sigmaSq := gp.Predict(x, exp);
      ei := ExpectedImprovement(mu, sigmaSq, best, config.xi, sqrt, normal);
    }

    method NumericalGradient(ghost xs: seq<Vec>, ghost ys: seq<real>, best: real, x: Vec) returns (grad: Vec)
      requires InBox(x, bounds) && Fitted(xs, ys)
      ensures |grad| == |bounds| && grad == GradientAt(AcquisitionOf(xs, ys, best), bounds, x)
    {
      hide Acquisition;
      grad := seq(|x|, _ => 0.0);
      var j := 0;
      while j < |x|
        invariant j <= |x| == |grad|
        invariant forall c :: 0 <= c < j ==>
          grad[c] == CentralDifference(AcquisitionOf(xs, ys, best), bounds, x, c)
      {
        var plus := AcquisitionAt(xs, ys, best, x[j := Clamp(x[j] + H, bounds[j])]);
        var minus := AcquisitionAt(xs, ys, best, x[j := Clamp(x[j] - H, bounds[j])]);
        grad := grad[j := (plus - minus) / (2.0 * H)];
        j := j + 1;
      }
    }

    /** A step along the gradient, clamped to the box. */
    method ClampedStep(x: Vec, step: real, grad: Vec, norm: real) returns (next: Vec)
      requires InBox(x, bounds) && |grad| == |bounds| && ValidBounds(bounds) && norm > 0.0
      ensures InBox(next, bounds) && next == Trial(bounds, x, grad, norm, step)
    {
      hide Clamp, Advanced;
      next := seq(|x|, _ => 0.0);
      var j := 0;
      while j < |x|
        invariant j <= |x| == |next|
        invariant forall c :: 0 <= c < j ==> next[c] == Clamp(Advanced(x[c], step, grad[c], norm), bounds[c])
        invariant forall c :: 0 <= c < j ==> bounds[c].lower <= next[c] <= bounds[c].upper
      {
        next := next[j := Clamp(Advanced(x[j], step, grad[j], norm), bounds[j])];
        j := j + 1;
      }
    }

    /** The gradient at x, and unless it is too short, the point one step along it. */
    method TryStep(ghost xs: seq<Vec>, ghost ys: seq<real>, best: real, x: Vec, step: real)
      returns (flat: bool, next: Vec, nextEi: real)
      requires Valid() && Fitted(xs, ys) && InBox(x, bounds)
      ensures var g := GradientAt(AcquisitionOf(xs, ys, best), bounds, x);
        var norm := sqrt(Dot(g, g, |g|));
        && (flat <==> norm < 0.000001)
        && (!flat ==> InBox(next, bounds) && next == Trial(bounds, x, g, norm, step)
                      && nextEi == Acquisition(xs, ys, best, next))
    {
      hide Acquisition, CentralDifference, GradientAt, Trial, Dot;
      var grad := NumericalGradient(xs, ys, best, x);
      var normSq := SumOfSquares(grad);
      var norm := sqrt(normSq);
      flat, next, nextEi := norm < 0.000001, x, 0.0;
      if !flat {
        next := ClampedStep(x, step, grad, if norm < 0.000000000001 then 0.000000000001 else norm);
        nextEi := AcquisitionAt(xs, ys, best, next);
      }
    }

    /** Gradient ascent with an adaptive step: it stays in the box, never lowers the acquisition value,
        and stays where it began exactly when nothing is to be gained there. */
    method LocalSearch(ghost xs: seq<Vec>, ghost ys: seq<real>, best: real, start: Vec, startEi: real)
      returns (x: Vec, ei: real)
      requires Valid() && Fitted(xs, ys) && InBox(start, bounds) && startEi == Acquisition(xs, ys, best, start)
      ensures InBox(x, bounds) && ei == Acquisition(xs, ys, best, x) && ei >= startEi
      ensures x != start ==> ei > startEi + 0.000000000001
      ensures x == start <==> Standstill(AcquisitionOf(xs, ys, best), bounds, sqrt, start)
    {
      hide Acquisition, CentralDifference, GradientAt, Trial, Halved, Dot, Standstill, NoGainBefore, Fitted, Valid,
        GaussianProcesses.GaussianProcess.Trained;
      TwentyHalvings();
      ghost var f := AcquisitionOf(xs, ys, best);
      x, ei := start, startEi;
      var step := 0.01;
      var iter := 0;
      HalvedSteps(0);
      NothingTried(f, bounds, sqrt, start);
      FlatIsStandstill(f, bounds, sqrt, start);
      while iter < LOCAL_ITERATIONS
        invariant iter <= LOCAL_ITERATIONS && InBox(x, bounds) && step > 0.0
        invariant ei == Acquisition(xs, ys, best, x) && ei >= startEi && (x != start ==> ei > startEi + MIN_GAIN)
        invariant x != start ==> !Standstill(f, bounds, sqrt, start)
        invariant x == start ==> iter < 20 && step == Halved(iter) && NoGainBefore(f, bounds, sqrt, start, iter)
      {
        HalvedSteps(iter);
        if x == start {
          TrialDecides(f, bounds, sqrt, start, iter);
        }
        var flat, next, nextEi := TryStep(xs, ys, best, x, step);
        if flat {
          break;
        }
        if nextEi > ei + MIN_GAIN {
          x, ei := next, nextEi;
          step := step * 1.5;
        } else {
          step := step * 0.5;
          if step < 0.00000001 {
            break;
          }
        }
        iter := iter + 1;
      }
    }

    /** Grid search, perturbed samples, then local search: the result lies in the box and its
        acquisition value is at least that of every candidate looked at. */
    method MaximizeAcquisition(xs: seq<Vec>, ghost ys: seq<real>, best: real, draws: Draws)
      returns (x: Vec, ei: real)
      requires Valid() && Fitted(xs, ys) && draws.Valid() && |xs| >= 1
      requires forall i :: 0 <= i < |xs| ==> InBox(xs[i], bounds) && |xs[i]| == |bounds|
      ensures InBox(x, bounds) && ei == Acquisition(xs, ys, best, x)
      ensures BeatsCandidates(xs, ys, best, draws, x) && SearchedOut(xs, ys, best, draws, x)
    {
      hide Acquisition, GridPoint, NearPoint, Fitted, GaussianProcesses.SemidefiniteKernel, Standstill;
      x, ei := [], NO_CANDIDATE;
      var i := 0;
      while i < config.gridPoints
        invariant i <= config.gridPoints
        invariant ei > NO_CANDIDATE ==>
          InBox(x, bounds) && ei == Acquisition(xs, ys, best, x) && IsCandidate(xs, draws, x)
        invariant forall k: nat :: k < i ==> Acquisition(xs, ys, best, GridPoint(bounds, draws, k)) <= ei
      {
        var candidate := GridPoint(bounds, draws, i);
        GridPointInBox(bounds, draws, i);
        var value := AcquisitionAt(xs, ys, best, candidate);
        if value > ei {
          x, ei := candidate, value;
        }
        i := i + 1;
      }
      i := 0;
      while i < |xs|
        invariant i <= |xs|
        invariant ei > NO_CANDIDATE ==>
          InBox(x, bounds) && ei == Acquisition(xs, ys, best, x) && IsCandidate(xs, draws, x)
        invariant forall k: nat :: k < config.gridPoints ==>
          Acquisition(xs, ys, best, GridPoint(bounds, draws, k)) <= ei
        invariant forall k :: 0 <= k < i ==> Acquisition(xs, ys, best, NearPoint(bounds, draws, xs[k], k)) <= ei
      {
        assert InBox(xs[i], bounds);
        var candidate := NearPoint(bounds, draws, xs[i], i);
        NearPointInBox(bounds, draws, xs[i], i);
        var value := AcquisitionAt(xs, ys, best, candidate);
        if value > ei {
          x, ei := candidate, value;
        }
        i := i + 1;
      }
      AcquisitionNonNegative(xs, ys, best, NearPoint(bounds, draws, xs[0], 0));
      ghost var start := x;
      x, ei := LocalSearch(xs, ys, best, x, ei);
      assert SearchedFrom(xs, ys, best, start, x);
    }

    /** Every value belongs to its point, every point lies in the box. */
    ghost predicate Sampled(xs: seq<Vec>, ys: seq<real>) {
      |xs| == |ys| && forall i :: 0 <= i < |xs| ==> InBox(xs[i], bounds) && ys[i] == objective(xs[i])
    }

    /** best is the least of the values, attained at bestX. */
    ghost predicate IsBest(xs: seq<Vec>, ys: seq<real>, bestX: Vec, best: real)
      requires |xs| == |ys|
    {
      && (exists i :: 0 <= i < |xs| && xs[i] == bestX && ys[i] == best)
      && (forall i :: 0 <= i < |ys| ==> best <= ys[i])
    }

    /** The sample of round t was chosen on the samples before it: its acquisition value, under the
        best value so far, is at least that of every grid and every perturbed candidate of its round. */
    ghost predicate ChosenWell(xs: seq<Vec>, ys: seq<real>, t: nat, rounds: nat -> Draws)
      requires config.nInit + t < |xs| == |ys|
    {
      var k := config.nInit + t;
      exists best :: IsMinimum(ys[..k], best) && BeatsCandidates(xs[..k], ys[..k], best, rounds(t), xs[k])
                     && SearchedOut(xs[..k], ys[..k], best, rounds(t), xs[k])
    }

    ghost predicate AllChosenWell(xs: seq<Vec>, ys: seq<real>, count: nat, rounds: nat -> Draws)
      requires config.nInit + count <= |xs| == |ys|
    {
      forall t: nat :: t < count ==> ChosenWell(xs, ys, t, rounds)
    }

    ghost predicate IsMinimum(ys: seq<real>, best: real) {
      best in ys && forall i :: 0 <= i < |ys| ==> best <= ys[i]
    }

    ghost predicate BeatsCandidates(xs: seq<Vec>, ys: seq<real>, best: real, draws: Draws, x: Vec) {
      && (forall i: nat :: i < config.gridPoints ==>
            Acquisition(xs, ys, best, GridPoint(bounds, draws, i)) <= Acquisition(xs, ys, best, x))
      && (forall i :: 0 <= i < |xs| && |xs[i]| == |bounds| ==>
            Acquisition(xs, ys, best, NearPoint(bounds, draws, xs[i], i)) <= Acquisition(xs, ys, best, x))
    }

    ghost predicate IsCandidate(xs: seq<Vec>, draws: Draws, x: Vec) {
      || (exists i: nat :: i < config.gridPoints && x == GridPoint(bounds, draws, i))
      || (exists i :: 0 <= i < |xs| && |xs[i]| == |bounds| && x == NearPoint(bounds, draws, xs[i], i))
    }

    /** x is what the local search makes of the start: no worse, and the start itself exactly when nothing
        is to be gained there. */
    ghost predicate SearchedFrom(xs: seq<Vec>, ys: seq<real>, best: real, start: Vec, x: Vec) {
      && |start| == |bounds|
      && Acquisition(xs, ys, best, x) >= Acquisition(xs, ys, best, start)
      && (x == start <==> Standstill(AcquisitionOf(xs, ys, best), bounds, sqrt, start))
    }

    /** x comes from a local search begun at a best candidate. */
    ghost predicate SearchedOut(xs: seq<Vec>, ys: seq<real>, best: real, draws: Draws, x: Vec) {
      exists start :: IsCandidate(xs, draws, start) && BeatsCandidates(xs, ys, best, draws, start)
                      && SearchedFrom(xs, ys, best, start, x)
    }

    lemma OneMoreBest(xs: seq<Vec>, ys: seq<real>, bestX: Vec, best: real, x: Vec, y: real)
      requires |xs| == |ys| && IsBest(xs, ys, bestX, best)
      ensures IsMinimum(ys, best)
      ensures if y < best then IsBest(xs + [x], ys + [y], x, y) else IsBest(xs + [x], ys + [y], bestX, best)
    {
      var xs', ys' := xs + [x], ys + [y];
      assert xs'[|xs|] == x && ys'[|xs|] == y;
      assert forall k :: 0 <= k < |xs| ==> xs'[k] == xs[k] && ys'[k] == ys[k];
    }

    /** One more round: the new sample was chosen well, and it does not change how others were. */
    lemma OneMoreChosen(xs: seq<Vec>, ys: seq<real>, best: real, x: Vec, y: real, count: nat, rounds: nat -> Draws)
      requires |xs| == |ys| == config.nInit + count && AllChosenWell(xs, ys, count, rounds)
      requires IsMinimum(ys, best) && BeatsCandidates(xs, ys, best, rounds(count), x)
      requires SearchedOut(xs, ys, best, rounds(count), x)
      ensures AllChosenWell(xs + [x], ys + [y], count + 1, rounds)
    {
      hide IsMinimum, BeatsCandidates, SearchedOut;
      var xs', ys' := xs + [x], ys + [y];
      assert xs'[..|xs|] == xs && ys'[..|xs|] == ys && xs'[|xs|] == x;
      assert ChosenWell(xs', ys', count, rounds) by {
        assert IsMinimum(ys'[..|xs|], best)
          && BeatsCandidates(xs'[..|xs|], ys'[..|xs|], best, rounds(count), xs'[|xs|])
          && SearchedOut(xs'[..|xs|], ys'[..|xs|], best, rounds(count), xs'[|xs|]);
      }
      forall t: nat | t < count ensures ChosenWell(xs', ys', t, rounds) {
        var k := config.nInit + t;
        assert ChosenWell(xs, ys, t, rounds);
        assert xs'[..k] == xs[..k] && ys'[..k] == ys[..k] && xs'[k] == xs[k];
      }
    }

    /** The initial design in the box, with its objective values. */
    method InitialDesign(perms: seq<seq<nat>>, draws: seq<seq<real>>)
      returns (xs: seq<Vec>, ys: seq<real>, ghost unit: seq<Vec>)
      requires Valid() && ValidDesign(perms, draws, config.nInit, |bounds|)
      ensures |xs| == config.nInit && Sampled(xs, ys)
      ensures Rectangular(unit, config.nInit, |bounds|)
      ensures forall j :: 0 <= j < |bounds| ==> OnePerStratum(unit, config.nInit, |bounds|, j)
      ensures forall i, j :: 0 <= i < config.nInit && 0 <= j < |bounds| ==> xs[i][j] == Stretch(unit[i][j], bounds[j])
    {
      var n, d := config.nInit, |bounds|;
      var samples := LatinHypercubeSampling(n, d, perms, draws);
      unit := samples;
      xs, ys := [], [];
      var i := 0;
      while i < n
        invariant i <= n && |xs| == i && Sampled(xs, ys)
        invariant forall k, j :: 0 <= k < i && 0 <= j < d ==> xs[k][j] == Stretch(unit[k][j], bounds[j])
      {
        var x := StretchPoint(samples[i]);
        xs := xs + [x];
        ys := ys + [objective(x)];
        i := i + 1;
      }
    }

    method StretchPoint(u: Vec) returns (x: Vec)
      requires ValidBounds(bounds) && |u| == |bounds| && forall j :: 0 <= j < |u| ==> 0.0 <= u[j] <= 1.0
      ensures InBox(x, bounds) && forall j :: 0 <= j < |u| ==> x[j] == Stretch(u[j], bounds[j])
    {
      x := u;
      var j := 0;
      while j < |u|
        invariant j <= |u| == |x|
        invariant forall c :: 0 <= c < |u| ==> x[c] == if c < j then Stretch(u[c], bounds[c]) else u[c]
        invariant forall c :: 0 <= c < j ==> bounds[c].lower <= x[c] <= bounds[c].upper
      {
        StretchInside(u[j], bounds[j]);
        x := x[j := Stretch(x[j], bounds[j])];
        j := j + 1;
      }
    }

    /** The first n samples are a Latin hypercube of the unit box, stretched to the bounds. */
    ghost predicate StretchedDesign(unit: seq<Vec>, xs: seq<Vec>, n: nat) {
      && Rectangular(unit, n, |bounds|) && n <= |xs|
      && (forall j :: 0 <= j < |bounds| ==> OnePerStratum(unit, n, |bounds|, j))
      && (forall i :: 0 <= i < n ==> |xs[i]| == |bounds|)
      && (forall i, j :: 0 <= i < n && 0 <= j < |bounds| ==> xs[i][j] == Stretch(unit[i][j], bounds[j]))
    }

    lemma DesignStays(unit: seq<Vec>, xs: seq<Vec>, n: nat, x: Vec)
      requires StretchedDesign(unit, xs, n)
      ensures StretchedDesign(unit, xs + [x], n)
    {
      hide OnePerStratum, Stretch;
      assert forall i :: 0 <= i < n ==> (xs + [x])[i] == xs[i];
    }

    lemma IsStretched(unit: seq<Vec>, xs: seq<Vec>)
      requires |xs| == config.nInit && Rectangular(unit, config.nInit, |bounds|)
      requires forall j :: 0 <= j < |bounds| ==> OnePerStratum(unit, config.nInit, |bounds|, j)
      requires forall i :: 0 <= i < |xs| ==> |xs[i]| == |bounds|
      requires forall i, j :: 0 <= i < config.nInit && 0 <= j < |bounds| ==> xs[i][j] == Stretch(unit[i][j], bounds[j])
      ensures StretchedDesign(unit, xs, config.nInit)
    {
      hide OnePerStratum, Stretch;
    }

    lemma SampledLengths(xs: seq<Vec>, ys: seq<real>)
      requires Sampled(xs, ys)
      ensures |xs| == |ys| && forall i :: 0 <= i < |xs| ==> |xs[i]| == |bounds| && InBox(xs[i], bounds)
    {
    }

    lemma OneMoreSample(xs: seq<Vec>, ys: seq<real>, x: Vec)
      requires Sampled(xs, ys) && InBox(x, bounds)
      ensures Sampled(xs + [x], ys + [objective(x)])
    {
      hide InBox;
    }

    /** The first index of the least value. */
    method LeastValue(ys: seq<real>) returns (bestIdx: nat, best: real)
      requires ys != []
      ensures bestIdx < |ys| && best == ys[bestIdx]
      ensures forall i :: 0 <= i < |ys| ==> best <= ys[i] && (i < bestIdx ==> best < ys[i])
    {
      bestIdx, best := 0, ys[0];
      var i := 1;
      while i < |ys|
        invariant 1 <= i <= |ys| && bestIdx < i && best == ys[bestIdx]
        invariant forall k :: 0 <= k < i ==> best <= ys[k] && (k < bestIdx ==> best < ys[k])
      {
        if ys[i] < best {
          best, bestIdx := ys[i], i;
        }
        i := i + 1;
      }
    }

    lemma LeastIsBest(xs: seq<Vec>, ys: seq<real>, idx: nat)
      requires |xs| == |ys| && idx < |ys| && forall i :: 0 <= i < |ys| ==> ys[idx] <= ys[i]
      ensures IsBest(xs, ys, xs[idx], ys[idx])
    {
    }

    /** The optimisation loop: all samples lie in the box, and what it returns is the least
        objective value among all samples, with a sample that attains it. */
    method Optimize(perms: seq<seq<nat>>, draws: seq<seq<real>>, rounds: nat -> Draws) returns (r: OptimizationResult)
      requires Valid() && ValidDesign(perms, draws, config.nInit, |bounds|)
      requires forall k: nat :: rounds(k).Valid()
      modifies gp
      ensures Valid() && gp.hyper == GaussianProcesses.Hyperparameters(1.0, 1.0, 0.01)
      ensures Sampled(r.samplePoints, r.sampleValues)
      ensures |r.samplePoints| == r.iterations == config.nInit + config.maxIter
      ensures IsBest(r.samplePoints, r.sampleValues, r.bestParams, r.bestObjective)
      ensures AllChosenWell(r.samplePoints, r.sampleValues, config.maxIter, rounds)
      ensures exists unit :: StretchedDesign(unit, r.samplePoints, config.nInit)
    {
      assert config.nInit >= 1;
      hide ChosenWell, BeatsCandidates, SearchedOut, ValidDesign, OnePerStratum, Fitted, ValidParameters, IsBest,
        Sampled, IsMinimum, StretchedDesign;
      var xs, ys, unit := InitialDesign(perms, draws);
      IsStretched(unit, xs);
      SampledLengths(xs, ys);
      var bestIdx, best := LeastValue(ys);
      var bestX := xs[bestIdx];
      LeastIsBest(xs, ys, bestIdx);
      var iter := 0;
      while iter < config.maxIter
        invariant iter <= config.maxIter && |xs| == config.nInit + iter == |ys|
        invariant Sampled(xs, ys) && IsBest(xs, ys, bestX, best)
        invariant AllChosenWell(xs, ys, iter, rounds)
        invariant StretchedDesign(unit, xs, config.nInit) && Valid()
      {
        SampledLengths(xs, ys);
        Fit(xs, ys);
        var next, ei := MaximizeAcquisition(xs, ys, best, rounds(iter));
        var value := objective(next);
        OneMoreSample(xs, ys, next);
        OneMoreBest(xs, ys, bestX, best, next, value);
        OneMoreChosen(xs, ys, best, next, value, iter, rounds);
        DesignStays(unit, xs, config.nInit, next);
        xs, ys := xs + [next], ys + [value];
        if value < best {
          best, bestX := value, next;
        }
        iter := iter + 1;
      }
      r := OptimizationResult(bestX, best, xs, ys, config.maxIter + config.nInit);
    }
  }
}
