/** Facts about products and quotients of reals, stated once so that proofs elsewhere can treat
  * products as atoms. */
module Arith {

  function MinReal(a: real, b: real): real {
    if a <= b then a else b
  }

  function MaxReal(a: real, b: real): real {
    if a >= b then a else b
  }

  /** Multiplication as a name, so that proofs can treat products as atoms. */
  function Mul(a: real, b: real): real {
    a * b
  }

  lemma MulSign(a: real, b: real)
    ensures a > 0.0 && b > 0.0 ==> Mul(a, b) > 0.0
    ensures a >= 0.0 && b >= 0.0 ==> Mul(a, b) >= 0.0
  {}

  lemma MulSum(a: real, c: real, b: real)
    ensures Mul(a + c, b) == Mul(a, b) + Mul(c, b)
    ensures Mul(b, a + c) == Mul(b, a) + Mul(b, c)
  {}

  lemma MulOrder(a: real, b: real, d: real)
    requires d > 0.0
    ensures a <= b <==> Mul(a, d) <= Mul(b, d)
  {
    MulSign(b - a, d);
    MulSign(a - b, d);
    MulSum(a, b - a, d);
    MulSum(b, a - b, d);
    hide Mul;
    assert a + (b - a) == b && b + (a - b) == a;
  }

  lemma MulNegate(t: real, b: real)
    ensures Mul(-t, b) == -Mul(t, b) == Mul(t, -b)
    ensures Mul(-t, -b) == Mul(t, b)
  {}

  lemma MulCommutes(a: real, b: real)
    ensures Mul(a, b) == Mul(b, a)
  {}

  lemma Quotient(a: real, d: real, x: real)
    requires d > 0.0
    ensures a / d <= x <==> a <= d * x
    ensures x <= a / d <==> d * x <= a
  {
    var q := a / d;
    assert q * d == a;
    assert Mul(q, d) == a && Mul(x, d) == d * x;
    hide Mul;
    MulOrder(q, x, d);
    MulOrder(x, q, d);
  }
}
