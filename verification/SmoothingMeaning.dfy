/** What the von Mises stress measures, and which average the smoothing takes. */
module SmoothingMeaning {
  import opened Reals
  import opened FemMesh
  import opened StressSmoothing
  import opened SmoothingPass

  // ----- Von Mises stress

  /** Its square is half the squared differences of the normal stresses plus three times the squared shears. */
  lemma VonMisesFormula(s: Stress, sqrt: real -> real)
    requires IsSqrt(sqrt)
    ensures VonMises(s, sqrt) >= 0.0
    ensures Squared(VonMises(s, sqrt)) ==
      0.5 * (Squared(s.xx - s.yy) + Squared(s.yy - s.zz) + Squared(s.zz - s.xx))
      + 3.0 * (Squared(s.xy) + Squared(s.yz) + Squared(s.zx))
  {
    FormNonNegative(Deviator(s));
    hide Mul;
    RootSquared(sqrt, VonMisesSquared(s));
  }

  lemma RootSquared(sqrt: real -> real, v: real)
    requires IsSqrt(sqrt) && v >= 0.0
    ensures sqrt(Max(0.0, v)) >= 0.0 && Squared(sqrt(Max(0.0, v))) == v
  {
  }

  /** It is zero exactly for a pressure alone. */
  lemma VonMisesZeroExactly(s: Stress, sqrt: real -> real)
    requires IsSqrt(sqrt)
    ensures VonMises(s, sqrt) == 0.0 <==>
      s.xx == s.yy && s.yy == s.zz && s.xy == 0.0 && s.yz == 0.0 && s.zx == 0.0
  {
    VonMisesFormula(s, sqrt);
    SquareZero(VonMises(s, sqrt));
    SquareZero(s.xx - s.yy);
    SquareZero(s.yy - s.zz);
    SquareZero(s.zz - s.xx);
    SquareZero(s.xy);
    SquareZero(s.yz);
    SquareZero(s.zx);
    hide VonMises, Squared;
  }

  lemma SquareZero(x: real)
    ensures Squared(x) >= 0.0 && (Squared(x) == 0.0 <==> x == 0.0)
  {
    if x != 0.0 {
      SquaredPositive(x);
    }
  }

  /** A pull along one axis is measured by its size. */
  lemma VonMisesOfPull(t: real, sqrt: real -> real, v: real)
    requires IsSqrt(sqrt)
    ensures VonMises(Stress(t, 0.0, 0.0, 0.0, 0.0, 0.0, v), sqrt) == if t < 0.0 then -t else t
  {
    hide Squared, VonMises;
    var s := Stress(t, 0.0, 0.0, 0.0, 0.0, 0.0, v);
    var size := if t < 0.0 then -t else t;
    VonMisesFormula(s, sqrt);
    SquareZero(0.0);
    SquareZero(VonMises(s, sqrt));
    SquareOfSize(t, 0.0 - t, t - 0.0);
    if t != 0.0 {
      SameRoot(VonMises(s, sqrt), size);
    }
  }

  lemma SquareOfSize(t: real, minus: real, plus: real)
    requires minus == -t && plus == t
    ensures Squared(minus) == Squared(t) == Squared(plus)
  {
  }

  lemma SameRoot(s: real, a: real)
    requires s >= 0.0 && a > 0.0 && Squared(s) == Squared(a)
    ensures s == a
  {
    RootUnique(s, a);
  }

  // ----- The average

  function SquaredLength(o: nat): int {
    Di(o) * Di(o) + Dj(o) * Dj(o) + Dk(o) * Dk(o)
  }

  /** A Gaussian of width 1.5 at the distance of neighbour o. */
  function Weight(exp: real -> real, o: nat): real {
    exp(Ratio(-(SquaredLength(o) as real), 4.5))
  }

  function WeightSum(exp: real -> real, m: nat): real {
    if m == 0 then 0.0 else WeightSum(exp, m - 1) + Weight(exp, m - 1)
  }

  /** One stress component, weighted and summed over the first m of the 27 neighbours. */
  function WeightedSum(g: Grid, nodes: seq<Node>, n: int, exp: real -> real, c: nat, m: nat): real
    requires HasCube(g, |nodes|, n) && c < 7 && m <= 27
  {
    if m == 0 then 0.0
    else
      NeighbourInMesh(g, |nodes|, n, m - 1);
      WeightedSum(g, nodes, n, exp, c, m - 1)
      + Mul(Weight(exp, m - 1), Component(nodes[Neighbour(g, n, m - 1)].stress, c))
  }

  /** The 27 offsets are all combinations of -1, 0 and 1, each once. */
  lemma OffsetsExactly(a: int, b: int, c: int, o: nat)
    requires -1 <= a <= 1 && -1 <= b <= 1 && -1 <= c <= 1 && o < 27
    ensures (Di(o), Dj(o), Dk(o)) == (a, b, c) <==> o == 9 * (c + 1) + 3 * (b + 1) + (a + 1)
  {
  }

  lemma LengthIsRoot(sqrt: real -> real, o: nat)
    requires IsSqrt(sqrt) && o < 27
    ensures Mul(Distance(sqrt, o), Distance(sqrt, o)) == SquaredLength(o) as real
  {
    NonNegativeSquare(Di(o));
    NonNegativeSquare(Dj(o));
    NonNegativeSquare(Dk(o));
  }

  lemma NonNegativeSquare(d: int)
    ensures d * d >= 0
  {
  }

  lemma GaussianAt(exp: real -> real, dist: real, length: real)
    requires Mul(dist, dist) == length
    ensures GaussianWeight(exp, dist, SIGMA) == exp(Ratio(-length, 4.5))
  {
    var q := -dist * dist / (2.0 * 1.5 * 1.5);
    assert q * 4.5 == -length;
    SameQuotient(q, Ratio(-length, 4.5));
  }

  lemma SameQuotient(q: real, r: real)
    requires q * 4.5 == r * 4.5
    ensures q == r
  {
  }

  lemma WeightIsGaussian(exp: real -> real, sqrt: real -> real, o: nat)
    requires IsSqrt(sqrt) && o < 27
    ensures GaussianWeight(exp, Distance(sqrt, o), SIGMA) == Weight(exp, o)
    ensures GaussianWeight(exp, 0.0, SIGMA) == Weight(exp, CENTRE)
  {
    LengthIsRoot(sqrt, o);
    GaussianAt(exp, Distance(sqrt, o), SquaredLength(o) as real);
    assert SquaredLength(CENTRE) == 0;
    GaussianAt(exp, 0.0, 0.0);
  }

  /** The terms of the loop are those of the sums, with the centre's moved to the front. */
  lemma {:induction false} TermsAreSums(
    g: Grid, nodes: seq<Node>, n: int, exp: real -> real, sqrt: real -> real, c: nat, o: nat)
    requires HasCube(g, |nodes|, n) && IsSqrt(sqrt) && c < 7 && o <= 27
    ensures var ts, moved := Terms(g, nodes, n, exp, sqrt, o), o <= CENTRE;
      && TotalWeight(ts) == WeightSum(exp, o) + (if moved then Weight(exp, CENTRE) else 0.0)
      && Component(SumTerms(ts), c) == WeightedSum(g, nodes, n, exp, c, o)
           + (if moved then Mul(Weight(exp, CENTRE), Component(nodes[n].stress, c)) else 0.0)
    decreases o
  {
    hide Mul, Weight, Terms, Component, SumTerms, TotalWeight, Neighbour, HasCube;
    if o == 0 {
      FirstTerm(g, nodes, n, exp, sqrt);
      OneTerm(Term(Weight(exp, CENTRE), nodes[n].stress), c);
    } else {
      TermsAreSums(g, nodes, n, exp, sqrt, c, o - 1);
      NextTerm(g, nodes, n, exp, sqrt, o - 1);
      var before := Terms(g, nodes, n, exp, sqrt, o - 1);
      assert before + [] == before;
      MoreTerms(before, Term(Weight(exp, o - 1), nodes[Neighbour(g, n, o - 1)].stress), c);
    }
  }

  lemma FirstTerm(g: Grid, nodes: seq<Node>, n: int, exp: real -> real, sqrt: real -> real)
    requires HasCube(g, |nodes|, n) && IsSqrt(sqrt)
    ensures 0 <= n < |nodes|
    ensures Terms(g, nodes, n, exp, sqrt, 0) == [Term(Weight(exp, CENTRE), nodes[n].stress)]
  {
    WeightIsGaussian(exp, sqrt, 0);
    hide Weight, GaussianWeight;
  }

  lemma NextTerm(g: Grid, nodes: seq<Node>, n: int, exp: real -> real, sqrt: real -> real, o: nat)
    requires HasCube(g, |nodes|, n) && IsSqrt(sqrt) && o < 27
    ensures 0 <= n < |nodes| && 0 <= Neighbour(g, n, o) < |nodes| && Neighbour(g, n, CENTRE) == n
    ensures Terms(g, nodes, n, exp, sqrt, o + 1) == Terms(g, nodes, n, exp, sqrt, o)
      + if o == CENTRE then [] else [Term(Weight(exp, o), nodes[Neighbour(g, n, o)].stress)]
  {
    hide Weight, GaussianWeight, Distance, Neighbour, HasCube;
    WeightIsGaussian(exp, sqrt, o);
    NeighbourInMesh(g, |nodes|, n, o);
    CentreIsSelf(g, |nodes|, n);
    var before := Terms(g, nodes, n, exp, sqrt, o);
    assert before + [] == before;
  }

  lemma CentreIsSelf(g: Grid, count: nat, n: int)
    requires HasCube(g, count, n)
    ensures Neighbour(g, n, CENTRE) == n && 0 <= n < count
  {
  }

  lemma OneTerm(t: Term, c: nat)
    requires c < 7
    ensures TotalWeight([t]) == t.w && Component(SumTerms([t]), c) == Mul(t.w, Component(t.s, c))
  {
    assert [t][..0] == [];
    hide Mul;
  }

  lemma MoreTerms(ts: seq<Term>, t: Term, c: nat)
    requires c < 7
    ensures TotalWeight(ts + [t]) == TotalWeight(ts) + t.w
    ensures Component(SumTerms(ts + [t]), c) == Component(SumTerms(ts), c) + Mul(t.w, Component(t.s, c))
  {
    assert (ts + [t])[..|ts|] == ts;
    hide Mul;
  }

  /** Each smoothed component, times the sum of the 27 weights, is the weighted sum over the 27
      neighbours; under a total weight of 1e-12 or less the stress stays as it was. */
  lemma SmoothedIsGaussianAverage(
    g: Grid, nodes: seq<Node>, n: int, exp: real -> real, sqrt: real -> real, c: nat)
    requires HasCube(g, |nodes|, n) && IsSqrt(sqrt) && c < 7
    ensures var s, total := SmoothedStress(g, nodes, n, exp, sqrt), WeightSum(exp, 27);
      if total > 0.000000000001 then Mul(Component(s, c), total) == WeightedSum(g, nodes, n, exp, c, 27)
      else s == nodes[n].stress
  {
    hide Terms, WeightSum, WeightedSum, SumTerms, TotalWeight, Mul, Component, HasCube, DivideStress;
    TermsAreSums(g, nodes, n, exp, sqrt, c, 27);
    var ts := Terms(g, nodes, n, exp, sqrt, 27);
    if TotalWeight(ts) > MIN_TOTAL_WEIGHT {
      DividedTimes(SumTerms(ts), TotalWeight(ts), c);
    }
  }

  lemma DividedTimes(s: Stress, d: real, c: nat)
    requires d != 0.0 && c < 7
    ensures Mul(Component(DivideStress(s, d), c), d) == Component(s, c)
  {
    QuotientTimes(Component(s, c), d);
    hide Mul;
  }

  lemma QuotientTimes(x: real, d: real)
    requires d != 0.0
    ensures Mul(x / d, d) == x
  {
  }
}
