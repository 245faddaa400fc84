/** Small facts about real multiplication and division that the score bounds rest on. */
module RealArith {

  lemma MulPos(x: real, y: real)
    requires x > 0.0 && y > 0.0
    ensures x * y > 0.0
  {
  }

  lemma MulNonneg(x: real, y: real)
    requires x >= 0.0 && y >= 0.0
    ensures x * y >= 0.0
  {
  }

  lemma ProdZero(x: real, y: real)
    requires x >= 0.0 && y >= 0.0
    ensures x * y == 0.0 <==> x == 0.0 || y == 0.0
  {
    if x > 0.0 && y > 0.0 {
      MulPos(x, y);
    }
  }

  lemma MulMono(x: real, y: real, z: real)
    requires x <= y && z >= 0.0
    ensures x * z <= y * z
  {
    MulNonneg(y - x, z);
    assert y * z - x * z == (y - x) * z;
  }

  lemma SquareBelowProduct(x: real, p: real, q: real)
    requires 0.0 <= x <= p && x <= q
    ensures x * x <= p * q
  {
    MulMono(x, q, x);
    MulMono(x, p, q);
    assert x * x <= q * x;
    assert x * q <= p * q;
  }

  lemma SqStrictMono(x: real, y: real)
    requires 0.0 <= y < x
    ensures y * y < x * x
  {
    MulPos(x - y, x + y);
    assert (x - y) * (x + y) == x * x - y * y;
  }

  lemma DivMono(a: real, b: real, m: real)
    requires a <= b && m > 0.0
    ensures a / m <= b / m
  {
    assert (b - a) / m >= 0.0;
    assert b / m - a / m == (b - a) / m;
  }

  lemma DivOne(a: real, m: real)
    requires m > 0.0
    ensures a / m == 1.0 <==> a == m
  {
    assert a == (a / m) * m;
  }

  lemma FractionInUnit(a: real, m: real)
    requires 0.0 <= a <= m && m > 0.0
    ensures 0.0 <= a / m <= 1.0
  {
    DivMono(0.0, a, m);
    DivMono(a, m, m);
  }

  lemma DivZero(a: real, m: real)
    requires m > 0.0
    ensures a / m == 0.0 <==> a == 0.0
  {
    assert a == (a / m) * m;
  }

  /** A numerator bounded by both squared norms is at most the product of the norms. */
  lemma RatioOfNorms(x: real, na: real, nb: real)
    requires 0.0 <= na && 0.0 <= nb && na * nb != 0.0
    requires 0.0 <= x <= na * na && x <= nb * nb
    ensures 0.0 <= x / (na * nb) <= 1.0
  {
    var den := na * nb;
    MulNonneg(na, nb);
    SquareBelowProduct(x, na * na, nb * nb);
    assert den * den == (na * na) * (nb * nb);
    if x > den {
      SqStrictMono(x, den);
    }
    FractionInUnit(x, den);
  }
}
