/** Sign and order facts about products and quotients, stated so that the solver meets them one at a time. */
module Reals {

  function Sum(xs: seq<real>): real {
    if xs == [] then 0.0 else Sum(xs[..|xs| - 1]) + xs[|xs| - 1]
  }

  ghost function Times(n: int, x: real): real {
    n as real * x
  }

  lemma TimesFacts(n: nat, x: real)
    ensures Times(n + 1, x) == Times(n, x) + x
    ensures Times(0, x) == 0.0 && Times(1, x) == x
    ensures Times(n, 0.0) == 0.0
    ensures n > 0 && x > 0.0 ==> Times(n, x) > 0.0
    ensures x >= 0.0 ==> Times(n, x) >= 0.0
  {
    assert (n + 1) as real == n as real + 1.0;
  }

  lemma PositiveProduct(x: real, y: real, product: real)
    requires x > 0.0 && y > 0.0 && product == x * y
    ensures product > 0.0
  {
  }

  lemma NonNegativeProduct(x: real, y: real)
    requires x >= 0.0 && y >= 0.0
    ensures x * y >= 0.0
  {
  }

  lemma NonZeroProduct(x: real, y: real)
    requires x != 0.0 && y != 0.0
    ensures x * y != 0.0
  {
  }

  lemma PositiveFactor(n: real, x: real)
    requires n > 0.0 && n * x >= 0.0
    ensures x >= 0.0
  {
  }

  /** Scaling by a positive factor keeps the order. */
  lemma ScaleOrder(x: real, y: real, c: real)
    requires c > 0.0
    ensures x < y <==> x * c < y * c
    ensures x == y <==> x * c == y * c
  {
    assert (y - x) * c == y * c - x * c;
    if x < y { PositiveProduct(y - x, c, (y - x) * c); }
    if y < x { PositiveProduct(x - y, c, (x - y) * c); }
  }

  lemma QuotientOrder(x: real, d: real, y: real)
    requires d > 0.0
    ensures x / d <= y <==> x <= d * y
    ensures y <= x / d <==> d * y <= x
  {
    var q := x / d;
    assert q * d == x;
    ScaleOrder(q, y, d);
    ScaleOrder(y, q, d);
  }

  lemma AddQuotients(x: real, y: real, d: real)
    requires d > 0.0
    ensures x / d + y / d == (x + y) / d
  {
    var s, t, both := x / d, y / d, (x + y) / d;
    assert s * d == x && t * d == y && both * d == x + y;
    assert (s + t) * d == s * d + t * d;
    ScaleOrder(s + t, both, d);
  }

  lemma CastProduct(n: nat, q: nat)
    ensures (n * q) as real == n as real * q as real
  {
  }

  lemma SquareOrder(x: real, y: real)
    requires x >= 0.0 && y >= 0.0
    ensures x * x <= y * y <==> x <= y
  {
    assert (y - x) * (y + x) == y * y - x * x;
    if y < x { PositiveProduct(x - y, x + y, (x - y) * (x + y)); }
  }

  lemma Scale(c: real, x: real, y: real)
    requires c >= 0.0 && x <= y
    ensures c * x <= c * y
  {
    NonNegativeProduct(c, y - x);
    assert c * (y - x) == c * y - c * x;
  }
}
