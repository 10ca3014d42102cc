/** Products and quotients of reals, one small fact at a time. */
module RealArithmetic {

  lemma PositiveProduct(a: real, b: real)
    requires a > 0.0 && b > 0.0
    ensures a * b > 0.0
  {
  }

  lemma MulMono(a: real, b: real, c: real)
    requires a >= 0.0 && b <= c
    ensures a * b <= a * c && b * a <= c * a
  {
  }

  lemma MulStrict(a: real, b: real, c: real)
    requires a > 0.0 && b < c
    ensures a * b < a * c && b * a < c * a
  {
  }

  lemma Distribute(a: real, b: real, p: real)
    ensures (a + b) * p == a * p + b * p && (a - b) * p == a * p - b * p
  {
  }

  lemma Quotient(a: real, p: real)
    requires p > 0.0
    ensures a / p * p == a && (a / p > 0.0 <==> a > 0.0) && (a / p >= 0.0 <==> a >= 0.0)
  {
    var d := a / p;
    assert d * p == a;
    if d > 0.0 {
      PositiveProduct(d, p);
    } else if d < 0.0 {
      PositiveProduct(-d, p);
    }
  }

  /** The quotient lies below `s` just when the dividend lies below `s * p`. */
  lemma QuotientBelow(a: real, p: real, s: real)
    requires p > 0.0
    ensures a / p <= s <==> a <= s * p
  {
    Quotient(a, p);
    if a / p <= s {
      MulMono(p, a / p, s);
    } else {
      MulStrict(p, s, a / p);
    }
  }

  lemma QuotientAbove(a: real, p: real, s: real)
    requires p > 0.0
    ensures a / p >= s <==> a >= s * p
  {
    Quotient(a, p);
    if a / p >= s {
      MulMono(p, s, a / p);
    } else {
      MulStrict(p, a / p, s);
    }
  }

  lemma QuotientMono(a: real, b: real, p: real)
    requires p > 0.0 && a <= b
    ensures a / p <= b / p
  {
    Quotient(a, p);
    Quotient(b, p);
    if a / p > b / p {
      MulStrict(p, b / p, a / p);
    }
  }
}
