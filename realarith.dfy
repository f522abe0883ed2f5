/** Facts about real multiplication and division that the solver does not find alone. */
module RealArith {
  lemma ProductPositive(x: real, y: real)
    requires x > 0.0 && y > 0.0
    ensures x * y > 0.0
  {
  }

  lemma ProductNonNegative(x: real, y: real)
    requires x >= 0.0 && y >= 0.0
    ensures x * y >= 0.0
  {
  }

  /** Dividing by a positive number keeps the comparison with a bound. */
  lemma DivCompare(x: real, m: real, c: real)
    requires m > 0.0
    ensures x / m < c <==> x < c * m
    ensures x / m > c <==> x > c * m
  {
    var q := x / m;
    assert q * m == x;
    if q < c {
      ProductPositive(c - q, m);
      assert (c - q) * m == c * m - x;
    } else if q > c {
      ProductPositive(q - c, m);
      assert (q - c) * m == x - c * m;
    }
  }

  /** A quotient is the number that multiplied by the divisor gives the dividend. */
  lemma DivExact(x: real, m: real, y: real)
    requires m > 0.0
    requires y * m == x
    ensures x / m == y
  {
    assert (x / m) * m == x;
  }

  /** Division by a product of two positive numbers keeps the comparison with a bound. */
  lemma DivProductCompare(x: real, a: real, b: real, c: real)
    requires a > 0.0 && b > 0.0
    ensures x / (a * b) < c <==> x < c * a * b
  {
    ProductPositive(a, b);
    DivCompare(x, a * b, c);
  }

  /** The quotient by a product of two positive numbers. */
  lemma DivProductExact(x: real, a: real, b: real, y: real)
    requires a > 0.0 && b > 0.0
    requires y * a * b == x
    ensures x / (a * b) == y
  {
    ProductPositive(a, b);
    DivExact(x, a * b, y);
  }

  /** Squaring is strictly monotone on the non-negative reals. */
  lemma SquareBelow(a: real, b: real)
    requires a >= 0.0 && b >= 0.0
    ensures a < b <==> a * a < b * b
  {
    assert b * b - a * a == (b - a) * (b + a);
    if a < b {
      ProductPositive(b - a, b + a);
    } else {
      ProductNonNegative(a - b, a + b);
      assert a * a - b * b == (a - b) * (a + b);
    }
  }
}
