/** Small facts about products, quotients and roots of reals. */
module RealArithmetic {
  ghost predicate IsRoot(s: real, x: real) {
    s >= 0.0 && s * s == x
  }

  lemma ProductPositive(x: real, y: real)
    requires x > 0.0 && y > 0.0
    ensures x * y > 0.0
  {
  }

  lemma SignOf(x: real, y: real, xy: real)
    requires x > 0.0 && y > 0.0 && xy == x * y
    ensures xy > 0.0
  {
  }

  lemma SquarePositive(x: real, xx: real)
    requires x > 0.0 && xx == x * x
    ensures xx > 0.0
  {
    SignOf(x, x, xx);
  }

  lemma ProductGrows(x: real, y: real, n: real)
    requires x <= y && n >= 0.0
    ensures x * n <= y * n
  {
  }

  lemma ProductCancels(x: real, y: real, n: real)
    requires x * n <= y * n && n > 0.0
    ensures x <= y
  {
  }

  lemma SquareGrows(x: real, y: real)
    requires 0.0 <= x < y
    ensures x * x < y * y
  {
    ProductPositive(y - x, y + x);
    assert (y - x) * (y + x) == y * y - x * x;
  }

  lemma SquareGrowsWeakly(x: real, y: real)
    requires 0.0 <= x <= y
    ensures x * x <= y * y
  {
    ProductGrows(x, y, x);
    ProductGrows(x, y, y);
  }

  /** Roots keep the order of scaled arguments. */
  lemma RootAtMost(s: real, x: real, t: real, y: real, c: real)
    requires IsRoot(s, x) && IsRoot(t, y) && c >= 0.0 && x <= c * c * y
    ensures s <= c * t
  {
    var u := c * t;
    assert u * u == c * c * (t * t);
    if s > u {
      SquareGrows(u, s);
    }
  }

  lemma DivideOut(x: real, d: real, y: real)
    requires d > 0.0 && x * d <= y
    ensures x <= y / d
  {
    ProductCancels(x, y / d, d);
  }

  lemma DivideOutStrictly(x: real, d: real, y: real)
    requires d > 0.0 && x * d < y
    ensures x < y / d
  {
    DivideOut(x, d, y);
    assert y / d * d == y;
  }

  lemma QuotientAtMost(x: real, a: real, c: real)
    requires x >= 0.0 && a > 0.0 && c >= 4.0 * a
    ensures x / c <= 0.25 * (x / a)
  {
    var r := x / a;
    assert r * a == x;
    assert r >= 0.0;
    ProductGrows(4.0 * a, c, r);
    assert 4.0 * a * r == 4.0 * x;
    assert x <= 0.25 * r * c;
    ProductCancels(x / c, 0.25 * r, c);
  }
}
