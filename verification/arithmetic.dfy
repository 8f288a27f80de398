/** Powers of two, products and quotients, one step at a time. */
module Arithmetic {

  function Pow2(n: nat): (p: nat)
    ensures p >= 1
  {
    if n == 0 then 1 else 2 * Pow2(n - 1)
  }

  lemma {:induction false} PowMonotone(a: nat, b: nat)
    requires a <= b
    ensures Pow2(a) <= Pow2(b)
    decreases b
  {
    if a < b { PowMonotone(a, b - 1); }
  }

  lemma Scale(a: int, b: int, c: nat)
    requires a <= b
    ensures a * c <= b * c && c * a <= c * b
  {
  }

  lemma LessScaled(a: int, b: int, c: nat)
    requires a * c < b * c
    ensures a < b
  {
    if a >= b { Scale(b, a, c); }
  }

  /** A multiple of `d` less than `d` away from zero is zero. */
  lemma SmallMultiple(k: int, d: nat)
    requires k * d < d && 0 < k * d + d
    ensures k == 0
  {
    LessScaled(k, 1, d);
    LessScaled(-1, k, d);
  }

  lemma Quotient(x: nat, d: nat, q: nat, r: nat)
    requires d > 0 && x == q * d + r && r < d
    ensures x / d == q && x % d == r
  {
    Divides(x, d);
    assert (x / d - q) * d == x / d * d - q * d;
    SmallMultiple(x / d - q, d);
  }

  lemma Divides(x: nat, d: nat)
    requires d > 0
    ensures x == x / d * d + x % d
  {
  }
}
