/** Real numbers as the program uses them, and points of space. */
module Reals {

  /** What a square root is, for a function standing in for it. */
  ghost predicate IsSqrt(sqrt: real -> real) {
    forall x :: x >= 0.0 ==> sqrt(x) >= 0.0 && sqrt(x) * sqrt(x) == x
  }

  function Abs(x: real): real {
    if x < 0.0 then -x else x
  }

  function Max(x: real, y: real): real {
    if x < y then y else x
  }

  function Ratio(a: real, c: real): (q: real)
    requires c != 0.0
    ensures q * c == a
  {
    a / c
  }

  /** A product with a name, so that proofs can hide what it is. */
  function Mul(a: real, b: real): real {
    a * b
  }

  function Squared(x: real): real {
    Mul(x, x)
  }

  lemma MulPositive(a: real, b: real)
    requires a > 0.0 && b > 0.0
    ensures Mul(a, b) > 0.0
  {
  }

  lemma MulSum(w: real, a: real, b: real)
    ensures Mul(w, a + b) == Mul(w, a) + Mul(w, b)
  {
  }

  lemma SquaredPositive(x: real)
    requires x != 0.0
    ensures Squared(x) > 0.0 && Squared(x) == x * x
  {
    if x > 0.0 {
      MulPositive(x, x);
    } else {
      MulPositive(-x, -x);
      assert Mul(x, x) == Mul(-x, -x);
    }
  }

  lemma RootUnique(s: real, a: real)
    requires s >= 0.0 && a > 0.0 && Mul(s, s) == Mul(a, a)
    ensures s == a
  {
    assert (s - a) * (s + a) == s * s - a * a;
    ZeroProduct(s - a, s + a);
  }

  lemma ZeroProduct(d: real, e: real)
    requires e > 0.0 && d * e == 0.0
    ensures d == 0.0
  {
    assert d == d * e / e;
  }

  lemma SquaredNonNegative(x: real)
    ensures Mul(x, x) >= 0.0
  {
  }

  datatype Vec3 = Vec3(x: real, y: real, z: real) {
    function Get(axis: nat): real
      requires axis < 3
    {
      if axis == 0 then x else if axis == 1 then y else z
    }

    function Set(axis: nat, v: real): Vec3
      requires axis < 3
    {
      if axis == 0 then this.(x := v) else if axis == 1 then this.(y := v) else this.(z := v)
    }
  }
}
