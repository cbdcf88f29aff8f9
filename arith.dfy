/** Facts about real multiplication and division that the solver does not find on its own. */
module Arith {

  lemma MulNonneg(a: real, b: real)
    requires 0.0 <= a && 0.0 < b
    ensures 0.0 <= a * b
  {
  }

  lemma MulPos(a: real, b: real)
    requires 0.0 < a && 0.0 < b
    ensures 0.0 < a * b
  {
  }

  lemma DivideAtMostOne(x: real, d: real)
    requires 0.0 <= x <= d && 0.0 < d
    ensures 0.0 <= x / d <= 1.0
  {
    DivBounds(x, d, 0.0, 1.0);
  }

  /** Dividing by a positive total keeps bounds that hold after scaling by it. */
  lemma DivBounds(num: real, total: real, lo: real, hi: real)
    requires 0.0 < total && total * lo <= num <= total * hi
    ensures lo <= num / total <= hi
  {
    var q := num / total;
    assert q * total == num;
    if q < lo {
      MulStrict(total, q, lo);
      assert false;
    }
    if hi < q {
      MulStrict(total, hi, q);
      assert false;
    }
  }

  lemma MulMonotone(w: real, x: real, y: real)
    requires 0.0 <= w && x <= y
    ensures w * x <= w * y
  {
    assert w * y - w * x == w * (y - x);
  }

  lemma MulStrict(w: real, x: real, y: real)
    requires 0.0 < w && x < y
    ensures w * x < w * y
  {
    assert w * y - w * x == w * (y - x);
  }

  /** `q` is the fraction of `d` that makes `x`: `q * d == x`. */
  predicate Scales(q: real, d: real, x: real) {
    q * d == x
  }

  /** A quotient times its divisor gives back the dividend. */
  lemma DivTimes(x: real, d: real)
    requires d != 0.0
    ensures Scales(x / d, d, x)
  {
  }

  /** Three fractions of a positive whole whose parts add up to the whole add up to 1. */
  lemma FractionsSumToOne(a: real, b: real, c: real, x: real, y: real, z: real, d: real)
    requires 0.0 < d && Scales(a, d, x) && Scales(b, d, y) && Scales(c, d, z) && x + y + z == d
    ensures a + b + c == 1.0
  {
    assert (a + b + c) * d == a * d + b * d + c * d;
    if a + b + c < 1.0 {
      MulStrict(d, a + b + c, 1.0);
    } else if a + b + c > 1.0 {
      MulStrict(d, 1.0, a + b + c);
    }
  }
}
