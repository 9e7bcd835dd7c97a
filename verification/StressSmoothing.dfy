/** The von Mises stress as a seminorm of the stress tensor, and the weighted averaging of the
    stress field over the 27 neighbours of a node.

    Products of reals go through the two-argument Mul, hidden where only their algebra matters. */
module StressSmoothing {
  import opened Reals
  import opened FemMesh

  const SIGMA: real := 1.5
  const MIN_TOTAL_WEIGHT: real := 0.000000000001

  ghost predicate IsExp(exp: real -> real) {
    forall x :: exp(x) >= 0.0
  }

  // ----- The form behind the von Mises stress

  /** The six quantities whose weighted squares add up to the squared von Mises stress. */
  datatype Six = Six(a: real, b: real, c: real, d: real, e: real, f: real)

  function Deviator(s: Stress): Six {
    Six(s.xx - s.yy, s.yy - s.zz, s.zz - s.xx, s.xy, s.yz, s.zx)
  }

  function Form(u: Six, v: Six): real {
    0.5 * (Mul(u.a, v.a) + Mul(u.b, v.b) + Mul(u.c, v.c) + 6.0 * (Mul(u.d, v.d) + Mul(u.e, v.e) + Mul(u.f, v.f)))
  }

  function VonMisesSquared(s: Stress): real {
    Form(Deviator(s), Deviator(s))
  }

  function VonMises(s: Stress, sqrt: real -> real): real {
    sqrt(Max(0.0, VonMisesSquared(s)))
  }

  lemma MulFacts(a: real, b: real, c: real)
    ensures Mul(a, b) == Mul(b, a)
    ensures Mul(a + b, c) == Mul(a, c) + Mul(b, c)
    ensures Mul(Mul(a, b), c) == Mul(a, Mul(b, c))
    ensures Mul(-a, b) == -Mul(a, b)
  {
  }

  lemma FormNonNegative(u: Six)
    ensures Form(u, u) >= 0.0
  {
    hide Mul;
    SquaredNonNegative(u.a);
    SquaredNonNegative(u.b);
    SquaredNonNegative(u.c);
    SquaredNonNegative(u.d);
    SquaredNonNegative(u.e);
    SquaredNonNegative(u.f);
  }

  function Scaled(u: Six, t: real): Six {
    Six(Mul(t, u.a), Mul(t, u.b), Mul(t, u.c), Mul(t, u.d), Mul(t, u.e), Mul(t, u.f))
  }

  function Plus(u: Six, v: Six): Six {
    Six(u.a + v.a, u.b + v.b, u.c + v.c, u.d + v.d, u.e + v.e, u.f + v.f)
  }

  lemma FormSymmetric(u: Six, v: Six)
    ensures Form(u, v) == Form(v, u)
  {
    hide Mul;
    MulFacts(u.a, v.a, 0.0);
    MulFacts(u.b, v.b, 0.0);
    MulFacts(u.c, v.c, 0.0);
    MulFacts(u.d, v.d, 0.0);
    MulFacts(u.e, v.e, 0.0);
    MulFacts(u.f, v.f, 0.0);
  }

  lemma FormAdditive(u: Six, v: Six, w: Six)
    ensures Form(Plus(u, v), w) == Form(u, w) + Form(v, w)
  {
    hide Mul;
    MulFacts(u.a, v.a, w.a);
    MulFacts(u.b, v.b, w.b);
    MulFacts(u.c, v.c, w.c);
    MulFacts(u.d, v.d, w.d);
    MulFacts(u.e, v.e, w.e);
    MulFacts(u.f, v.f, w.f);
  }

  lemma FormScales(u: Six, t: real, w: Six)
    ensures Form(Scaled(u, t), w) == Mul(t, Form(u, w))
  {
    hide Mul;
    MulFacts(t, u.a, w.a);
    MulFacts(t, u.b, w.b);
    MulFacts(t, u.c, w.c);
    MulFacts(t, u.d, w.d);
    MulFacts(t, u.e, w.e);
    MulFacts(t, u.f, w.f);
    Gather(t, Mul(u.a, w.a), Mul(u.b, w.b), Mul(u.c, w.c), Mul(u.d, w.d), Mul(u.e, w.e), Mul(u.f, w.f));
  }

  lemma Gather(t: real, a: real, b: real, c: real, d: real, e: real, f: real)
    ensures Mul(t, 0.5 * (a + b + c + 6.0 * (d + e + f))) ==
      0.5 * (Mul(t, a) + Mul(t, b) + Mul(t, c) + 6.0 * (Mul(t, d) + Mul(t, e) + Mul(t, f)))
  {
  }

  /** Cauchy-Schwarz for the form. */
  lemma CauchySchwarz(u: Six, v: Six)
    ensures Mul(Form(u, v), Form(u, v)) <= Mul(Form(u, u), Form(v, v))
  {
    hide Mul, Form, Scaled, Plus;
    var p, q, r := Form(u, u), Form(u, v), Form(v, v);
    var w := Plus(Scaled(u, q), Scaled(v, -p));
    FormAdditive(Scaled(u, q), Scaled(v, -p), w);
    FormScales(u, q, w);
    FormScales(v, -p, w);
    FormSymmetric(u, w);
    FormSymmetric(v, w);
    FormAdditive(Scaled(u, q), Scaled(v, -p), u);
    FormAdditive(Scaled(u, q), Scaled(v, -p), v);
    FormScales(u, q, u);
    FormScales(v, -p, u);
    FormScales(u, q, v);
    FormScales(v, -p, v);
    FormSymmetric(v, u);
    FormNonNegative(w);
    FormNonNegative(u);
    FormNonNegative(v);
    assert Form(w, u) == Mul(q, p) + Mul(-p, q);
    assert Form(w, v) == Mul(q, q) + Mul(-p, r);
    assert Form(w, w) == Mul(q, Form(w, u)) + Mul(-p, Form(w, v));
    Determinant(p, q, r, Form(w, w));
    if p == 0.0 {
      NullDirection(u, v);
    }
  }

  /** p (p r - q^2) is the form of a vector, so it is not negative; divide by p. */
  lemma Determinant(p: real, q: real, r: real, n: real)
    requires p >= 0.0 && n >= 0.0
    requires n == Mul(q, Mul(q, p) + Mul(-p, q)) + Mul(-p, Mul(q, q) + Mul(-p, r))
    ensures p > 0.0 ==> Mul(q, q) <= Mul(p, r)
  {
    assert Mul(q, p) + Mul(-p, q) == 0.0;
    assert n == p * (p * r - q * q);
    var d := p * r - q * q;
    if p > 0.0 && d < 0.0 {
      assert p * d < 0.0;
    }
  }

  lemma NullDirection(u: Six, v: Six)
    requires Form(u, u) == 0.0
    ensures Mul(Form(u, v), Form(u, v)) <= Mul(Form(u, u), Form(v, v))
  {
    hide Mul, Form;
    AllZero(u);
    ZeroForm(v);
    ZeroTimes(0.0);
    ZeroTimes(Form(v, v));
  }

  lemma ZeroForm(v: Six)
    ensures Form(Six(0.0, 0.0, 0.0, 0.0, 0.0, 0.0), v) == 0.0
  {
    hide Mul;
    ZeroTimes(v.a);
    ZeroTimes(v.b);
    ZeroTimes(v.c);
    ZeroTimes(v.d);
    ZeroTimes(v.e);
    ZeroTimes(v.f);
  }

  lemma ZeroTimes(x: real)
    ensures Mul(0.0, x) == 0.0
  {
  }

  lemma ZeroProduct(x: real, y: real)
    ensures Mul(x, y) == 0.0 ==> x == 0.0 || y == 0.0
  {
  }

  lemma AllZero(u: Six)
    requires Form(u, u) == 0.0
    ensures u == Six(0.0, 0.0, 0.0, 0.0, 0.0, 0.0)
  {
    hide Mul;
    SquaredNonNegative(u.a);
    SquaredNonNegative(u.b);
    SquaredNonNegative(u.c);
    SquaredNonNegative(u.d);
    SquaredNonNegative(u.e);
    SquaredNonNegative(u.f);
    ZeroProduct(u.a, u.a);
    ZeroProduct(u.b, u.b);
    ZeroProduct(u.c, u.c);
    ZeroProduct(u.d, u.d);
    ZeroProduct(u.e, u.e);
    ZeroProduct(u.f, u.f);
  }

  // ----- Weighted sums of stresses

  datatype Term = Term(w: real, s: Stress)

  function AddTerm(sum: Stress, t: Term): Stress {
    Stress(sum.xx + Mul(t.w, t.s.xx), sum.yy + Mul(t.w, t.s.yy), sum.zz + Mul(t.w, t.s.zz),
           sum.xy + Mul(t.w, t.s.xy), sum.yz + Mul(t.w, t.s.yz), sum.zx + Mul(t.w, t.s.zx),
           sum.vonMises + Mul(t.w, t.s.vonMises))
  }

  function SumTerms(ts: seq<Term>): Stress {
    if ts == [] then Stress(0.0, 0.0, 0.0, 0.0, 0.0, 0.0, 0.0)
    else AddTerm(SumTerms(ts[..|ts| - 1]), ts[|ts| - 1])
  }

  function TotalWeight(ts: seq<Term>): real {
    if ts == [] then 0.0 else TotalWeight(ts[..|ts| - 1]) + ts[|ts| - 1].w
  }

  function DivideStress(s: Stress, d: real): Stress
    requires d != 0.0
  {
    Stress(s.xx / d, s.yy / d, s.zz / d, s.xy / d, s.yz / d, s.zx / d, s.vonMises / d)
  }

  /** The six tensor components and the von Mises value, by number. */
  function Component(s: Stress, c: nat): real
    requires c < 7
  {
    match c
    case 0 => s.xx
    case 1 => s.yy
    case 2 => s.zz
    case 3 => s.xy
    case 4 => s.yz
    case 5 => s.zx
    case 6 => s.vonMises
  }

  lemma {:induction false} SumWithin(ts: seq<Term>, c: nat, lo: real, hi: real)
    requires c < 7
    requires forall t :: 0 <= t < |ts| ==> ts[t].w >= 0.0 && lo <= Component(ts[t].s, c) <= hi
    ensures Mul(lo, TotalWeight(ts)) <= Component(SumTerms(ts), c) <= Mul(hi, TotalWeight(ts))
  {
    hide Mul;
    ZeroTimes(lo);
    MulFacts(lo, 0.0, 0.0);
    ZeroTimes(hi);
    MulFacts(hi, 0.0, 0.0);
    if ts != [] {
      var last, before := ts[|ts| - 1], ts[..|ts| - 1];
      SumWithin(before, c, lo, hi);
      var x := Component(last.s, c);
      Monotone(last.w, lo, x);
      Monotone(last.w, x, hi);
      MulFacts(TotalWeight(before), last.w, lo);
      MulFacts(TotalWeight(before), last.w, hi);
      MulFacts(TotalWeight(ts), lo, 0.0);
      MulFacts(TotalWeight(ts), hi, 0.0);
      MulFacts(TotalWeight(before), lo, 0.0);
      MulFacts(TotalWeight(before), hi, 0.0);
      assert Component(SumTerms(ts), c) == Component(SumTerms(before), c) + Mul(last.w, x);
    }
  }

  lemma Monotone(w: real, x: real, y: real)
    requires w >= 0.0 && x <= y
    ensures Mul(w, x) <= Mul(w, y)
  {
    var d := y - x;
    assert w * d >= 0.0;
  }

  /** A weighted average stays between the least and the greatest of what it averages. */
  lemma AverageWithin(ts: seq<Term>, c: nat, lo: real, hi: real)
    requires c < 7 && TotalWeight(ts) > 0.0
    requires forall t :: 0 <= t < |ts| ==> ts[t].w >= 0.0 && lo <= Component(ts[t].s, c) <= hi
    ensures lo <= Component(DivideStress(SumTerms(ts), TotalWeight(ts)), c) <= hi
  {
    hide Mul;
    SumWithin(ts, c, lo, hi);
    QuotientWithin(Component(SumTerms(ts), c), TotalWeight(ts), lo, hi);
  }

  lemma QuotientWithin(x: real, d: real, lo: real, hi: real)
    requires d > 0.0 && Mul(lo, d) <= x <= Mul(hi, d)
    ensures lo <= x / d <= hi
  {
    var q := x / d;
    assert q * d == x;
    assert q < lo ==> (lo - q) * d > 0.0;
    assert q > hi ==> (q - hi) * d > 0.0;
  }

  /** The von Mises value stored with a stress bounds the von Mises stress of its tensor from above. */
  ghost predicate Dominates(s: Stress) {
    s.vonMises >= 0.0 && VonMisesSquared(s) <= Mul(s.vonMises, s.vonMises)
  }

  lemma DeviatorOfSum(sum: Stress, t: Term)
    ensures Deviator(AddTerm(sum, t)) == Plus(Deviator(sum), Scaled(Deviator(t.s), t.w))
  {
    hide Mul;
    Minus(t.w, t.s.xx, t.s.yy);
    Minus(t.w, t.s.yy, t.s.zz);
    Minus(t.w, t.s.zz, t.s.xx);
  }

  lemma Minus(w: real, x: real, y: real)
    ensures Mul(w, x) - Mul(w, y) == Mul(w, x - y)
  {
  }

  /** The form of u + w v. */
  lemma FormOfSum(u: Six, v: Six, w: real)
    ensures Form(Plus(u, Scaled(v, w)), Plus(u, Scaled(v, w))) ==
      Form(u, u) + Mul(w, Form(u, v)) + Mul(w, Form(u, v)) + Mul(w, Mul(w, Form(v, v)))
  {
    hide Mul, Form, Plus, Scaled;
    var s := Plus(u, Scaled(v, w));
    FormAdditive(u, Scaled(v, w), s);
    FormScales(v, w, s);
    FormSymmetric(u, s);
    FormSymmetric(v, s);
    FormAdditive(u, Scaled(v, w), u);
    FormAdditive(u, Scaled(v, w), v);
    FormScales(v, w, u);
    FormScales(v, w, v);
    FormSymmetric(u, v);
    Expand(w, Form(u, v), Mul(w, Form(v, v)));
  }

  lemma Expand(w: real, x: real, y: real)
    ensures Mul(w, x + y) == Mul(w, x) + Mul(w, y)
  {
  }

  /** x^2 <= p q with p <= a^2 and q <= v^2 bounds x by a v. */
  lemma RootBound(x: real, p: real, q: real, a: real, v: real)
    requires a >= 0.0 && v >= 0.0 && p >= 0.0 && q >= 0.0
    requires p <= Mul(a, a) && q <= Mul(v, v) && Mul(x, x) <= Mul(p, q)
    ensures x <= Mul(a, v)
  {
    Monotone(p, q, Mul(v, v));
    Monotone(Mul(v, v), p, Mul(a, a));
    var y := Mul(a, v);
    assert Mul(y, y) == Mul(Mul(a, a), Mul(v, v));
    MulFacts(p, Mul(v, v), 0.0);
    MulFacts(Mul(a, a), Mul(v, v), 0.0);
    assert Mul(x, x) <= Mul(y, y);
    SquaredNonNegative(v);
    if x > y {
      StrictSquares(x, y);
    }
  }

  lemma StrictSquares(x: real, y: real)
    requires x > y >= 0.0
    ensures Mul(x, x) > Mul(y, y)
  {
    hide Mul;
    MulPositive(x, x - y);
    Minus(x, x, y);
    Monotone(y, y, x);
    MulFacts(x, y, 0.0);
  }

  lemma AddDominates(sum: Stress, t: Term)
    requires Dominates(sum) && Dominates(t.s) && t.w >= 0.0
    ensures Dominates(AddTerm(sum, t))
  {
    var u, v, a, b, w := Deviator(sum), Deviator(t.s), sum.vonMises, t.s.vonMises, t.w;
    hide Mul, Form, Plus, Scaled, Deviator;
    DeviatorOfSum(sum, t);
    FormOfSum(u, v, w);
    CauchySchwarz(u, v);
    FormNonNegative(u);
    FormNonNegative(v);
    RootBound(Form(u, v), Form(u, u), Form(v, v), a, b);
    Monotone(w, Form(u, v), Mul(a, b));
    Monotone(w, Form(v, v), Mul(b, b));
    Monotone(w, Mul(w, Form(v, v)), Mul(w, Mul(b, b)));
    SquareOfSum(a, b, w);
    Monotone(w, 0.0, b);
    ZeroTimes(w);
    MulFacts(0.0, w, 0.0);
  }

  lemma SquareOfSum(a: real, b: real, w: real)
    ensures Mul(a + Mul(w, b), a + Mul(w, b))
      == Mul(a, a) + Mul(w, Mul(a, b)) + Mul(w, Mul(a, b)) + Mul(w, Mul(w, Mul(b, b)))
  {
  }

  lemma {:induction false} SumDominates(ts: seq<Term>)
    requires forall t :: 0 <= t < |ts| ==> ts[t].w >= 0.0 && Dominates(ts[t].s)
    ensures Dominates(SumTerms(ts))
  {
    hide AddTerm;
    if ts == [] {
      ZeroDominates();
    } else {
      SumDominates(ts[..|ts| - 1]);
      AddDominates(SumTerms(ts[..|ts| - 1]), ts[|ts| - 1]);
    }
  }

  lemma ZeroDeviator()
    ensures Deviator(Stress(0.0, 0.0, 0.0, 0.0, 0.0, 0.0, 0.0)) == Six(0.0, 0.0, 0.0, 0.0, 0.0, 0.0)
  {
  }

  lemma ZeroDominates()
    ensures Dominates(Stress(0.0, 0.0, 0.0, 0.0, 0.0, 0.0, 0.0))
  {
    hide Mul, Form;
    ZeroDeviator();
    hide Deviator;
    ZeroForm(Six(0.0, 0.0, 0.0, 0.0, 0.0, 0.0));
    ZeroTimes(0.0);
  }

  lemma DivideDominates(s: Stress, d: real)
    requires Dominates(s) && d > 0.0
    ensures Dominates(DivideStress(s, d))
  {
    var r := 1.0 / d;
    assert r > 0.0;
    hide Mul, Form;
    QuotientIsProduct(s.xx, d);
    QuotientIsProduct(s.yy, d);
    QuotientIsProduct(s.zz, d);
    QuotientIsProduct(s.xy, d);
    QuotientIsProduct(s.yz, d);
    QuotientIsProduct(s.zx, d);
    QuotientIsProduct(s.vonMises, d);
    Minus(r, s.xx, s.yy);
    Minus(r, s.yy, s.zz);
    Minus(r, s.zz, s.xx);
    var u := Deviator(s);
    assert Deviator(DivideStress(s, d)) == Scaled(u, r);
    FormScales(u, r, Scaled(u, r));
    FormSymmetric(u, Scaled(u, r));
    FormScales(u, r, u);
    Monotone(r, Form(u, u), Mul(s.vonMises, s.vonMises));
    Monotone(r, Mul(r, Form(u, u)), Mul(r, Mul(s.vonMises, s.vonMises)));
    SquareOfScaled(r, s.vonMises);
    Monotone(r, 0.0, s.vonMises);
    ZeroTimes(r);
    MulFacts(0.0, r, 0.0);
  }

  lemma QuotientIsProduct(x: real, d: real)
    requires d != 0.0
    ensures x / d == Mul(1.0 / d, x)
  {
  }

  lemma SquareOfScaled(r: real, v: real)
    ensures Mul(Mul(r, v), Mul(r, v)) == Mul(r, Mul(r, Mul(v, v)))
  {
  }

  /** What Dominates says about the square root. */
  lemma DominatesVonMises(s: Stress, sqrt: real -> real)
    requires IsSqrt(sqrt) && Dominates(s)
    ensures VonMises(s, sqrt) <= s.vonMises
  {
    FormNonNegative(Deviator(s));
    var q := VonMisesSquared(s);
    var r := sqrt(q);
    assert r * r == q;
    RootOrder(r, s.vonMises, q);
  }

  lemma RootOrder(r: real, v: real, q: real)
    requires r >= 0.0 && v >= 0.0 && r * r == q && q <= Mul(v, v)
    ensures r <= v
  {
    if r > v {
      StrictSquares(r, v);
    }
  }

  lemma ComputedDominates(s: Stress, sqrt: real -> real)
    requires IsSqrt(sqrt) && s.vonMises == VonMises(s, sqrt)
    ensures Dominates(s)
  {
    FormNonNegative(Deviator(s));
  }
}
