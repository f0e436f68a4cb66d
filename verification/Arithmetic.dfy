/** Facts about products, quotients and remainders that the solver needs one at a time. */
module Arithmetic {

  lemma MulSixteen(d: nat, p: nat)
    ensures 16 * (d * p) == d * (16 * p)
  {
  }

  lemma MulDouble(a: nat, b: nat)
    ensures (2 * a) * b == 2 * (a * b)
  {
  }

  lemma MulAtLeast(b: nat, d: nat)
    requires b > 0 && d > 0
    ensures b * d >= b && b * d >= d
  {
    assert b * d == b + b * (d - 1);
    assert b * d == d + (b - 1) * d;
  }

  lemma MulBounds(b: nat, d: int)
    requires b > 0
    ensures d > 0 ==> b * d >= b && b * d >= d
    ensures d < 0 ==> b * d <= 0 - b
  {
    if d > 0 { MulAtLeast(b, d); }
    if d < 0 {
      MulAtLeast(b, -d);
      assert b * d == 0 - b * (-d);
    }
  }

  lemma QuotientIs(a: nat, b: nat, q: nat, r: nat)
    requires b > 0 && a == b * q + r && r < b
    ensures a / b == q && a % b == r
  {
    var d := a / b - q;
    assert b * d == b * (a / b) - b * q;
    assert b * (a / b) + a % b == a;
    MulBounds(b, d);
  }

  lemma DivNext(x: nat, m: nat)
    requires m > 0
    ensures x % m == m - 1 ==> (x + 1) / m == x / m + 1 && (x + 1) % m == 0
    ensures x % m != m - 1 ==> (x + 1) / m == x / m && (x + 1) % m == x % m + 1
  {
    var q, r := x / m, x % m;
    assert x == m * q + r;
    if r == m - 1 {
      assert m * (q + 1) == m * q + m;
      QuotientIs(x + 1, m, q + 1, 0);
    } else {
      QuotientIs(x + 1, m, q, r + 1);
    }
  }

  lemma Distribute(m: int, a: int, b: int)
    ensures m * (a + b) == m * a + m * b
  {
  }

  lemma DivMonotonic(x: nat, y: nat, m: nat)
    requires x <= y && m > 0
    ensures x / m <= y / m
  {
    var d := x / m - y / m;
    assert x == m * (x / m) + x % m && y == m * (y / m) + y % m;
    assert m * d == m * (x / m) - m * (y / m);
    MulBounds(m, d);
  }

  lemma ProductBelow(x: nat, m: nat, q: nat)
    requires m > 0 && x / m >= q
    ensures m * q <= x
  {
    var r := x / m;
    assert x == m * r + x % m;
    Distribute(m, q, r - q);
    if r > q { MulAtLeast(m, r - q); }
  }

  lemma BeforeProduct(m: nat, q: nat)
    requires m > 0 && q > 0
    ensures m * q >= m
    ensures (m * q - 1) / m == q - 1 && (m * q - 1) % m == m - 1
  {
    MulAtLeast(m, q);
    Distribute(m, q - 1, 1);
    QuotientIs(m * q - 1, m, q - 1, m - 1);
  }

  lemma LastBefore(x: nat, m: nat, q: nat) returns (n: nat)
    requires m > 0 && q > 0 && x / m >= q
    ensures m <= n <= x
    ensures (n - 1) / m == q - 1 && (n - 1) % m == m - 1
  {
    ProductBelow(x, m, q);
    BeforeProduct(m, q);
    n := m * q;
  }

  lemma FactorsOfAll(p: nat, q: nat)
    requires p * q == 0x1_0000_0000 && p >= 2 && q >= 2
    ensures p <= 0x8000_0000 && q <= 0x8000_0000
    ensures 0xFFFF_FFFF / p == q - 1
  {
    assert p * 2 <= p * q by { assert p * q == p * 2 + p * (q - 2); }
    assert q * 2 <= p * q by { assert p * q == q * 2 + q * (p - 2); }
    assert p * (q - 1) == p * q - p;
    QuotientIs(0xFFFF_FFFF, p, q - 1, p - 1);
  }
}
