/** Facts about products and quotients that the other modules share. */
module Arithmetic {

  function AtLeastZero(n: int): (m: int) {
    if n < 0 then 0 else n
  }

  lemma MultipliesOrdered(a: int, b: int, d: int)
    requires a <= b && d >= 0
    ensures a * d <= b * d
  {}

  lemma OneMore(n: int, d: int)
    ensures (n + 1) * d == n * d + d
  {}

  /** A quotient and a remainder in range are the quotient and the remainder. */
  lemma DivModUnique(x: int, q: int, r: int, m: int)
    requires 0 <= r < m && x == q * m + r
    ensures x / m == q && x % m == r
  {
    var d := x / m - q;
    assert x == (x / m) * m + x % m;
    assert d * m == r - x % m by {
      assert d * m == (x / m) * m - q * m;
    }
    assert d >= 1 ==> d * m >= m;
    assert d <= -1 ==> d * m <= -m;
  }

  lemma FloorAtMost(x: int, q: int, d: int)
    requires d > 0 && x < q * d + d
    ensures x / d <= q
  {
    var y := x / d;
    assert x == y * d + x % d;
    OneMore(q, d);
    assert y >= q + 1 ==> y * d >= (q + 1) * d;
  }

  /** Bounds of a number divided by d from its bounds as multiples of d. */
  lemma QuotientWithin(x: real, d: real, lo: real, hi: real)
    requires d > 0.0 && lo * d <= x <= hi * d
    ensures lo <= x / d <= hi
    ensures x < hi * d ==> x / d < hi
  {
    var v := x / d;
    assert v * d == x;
    assert v < lo ==> v * d < lo * d;
    assert v > hi ==> v * d > hi * d;
  }
}
