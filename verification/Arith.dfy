/** Division facts that proofs elsewhere call by name. */
module Arith {

  lemma MulOrder(k: int, d: int)
    requires d > 0
    ensures k >= 1 ==> k * d >= d
    ensures k <= -1 ==> k * d <= -d
    ensures k >= 0 ==> k * d >= 0
  {
  }

  /** Quotient and remainder are determined by their equation. */
  lemma DivUnique(x: int, d: int, q: int, r: int)
    requires d > 0 && x == q * d + r && 0 <= r < d
    ensures x / d == q && x % d == r
  {
    var k := x / d - q;
    assert k * d == x / d * d - q * d;
    MulOrder(k, d);
  }

  lemma DivExact(x: int, d: int)
    requires d > 0
    ensures x * d / d == x && x * d % d == 0
  {
    DivUnique(x * d, d, x, 0);
  }

  function CeilDiv(a: int, b: int): int
    requires 0 < b
  {
    (a + b - 1) / b
  }

  lemma CeilDivBounds(a: int, b: int)
    requires 0 < b
    ensures (CeilDiv(a, b) - 1) * b < a <= CeilDiv(a, b) * b
  {
    var c := CeilDiv(a, b);
    assert c * b + (a + b - 1) % b == a + b - 1;
    assert (c - 1) * b == c * b - b;
  }

  lemma CeilDivExact(x: int, d: int)
    requires d > 0
    ensures CeilDiv(x * d, d) == x
  {
    DivUnique(x * d + d - 1, d, x, d - 1);
  }

  lemma CeilDivPositive(a: int, b: int)
    requires 0 < b && 0 < a
    ensures 0 < CeilDiv(a, b)
  {
    CeilDivBounds(a, b);
    MulOrder(-CeilDiv(a, b), b);
    assert -CeilDiv(a, b) * b == -(CeilDiv(a, b) * b);
  }

  lemma Distributes(a: int, b: int, k: int)
    ensures (a + b) * k == a * k + b * k
    ensures (a - b) * k == a * k - b * k
  {
  }

  lemma Monotone(a: int, b: int, k: int)
    requires a <= b && k >= 0
    ensures a * k <= b * k
  {
    assert (b - a) * k >= 0;
    assert b * k - a * k == (b - a) * k;
  }
}
