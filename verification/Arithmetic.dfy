/** Small facts about multiplication and division that the index arithmetic needs. */
module Arithmetic {

  lemma MulMonotone(a: int, b: int, d: int)
    requires a <= b && d >= 0
    ensures a * d <= b * d
  {
    assert (b - a) * d >= 0;
  }

  lemma DivMod(x: int, d: int)
    requires d > 0
    ensures x == (x / d) * d + x % d && 0 <= x % d < d
  {
  }

  /** Quotient and remainder are determined by the equation they solve. */
  lemma DivModUnique(x: int, q: int, r: int, d: int)
    requires 0 <= r < d && x == q * d + r
    ensures x / d == q && x % d == r
  {
    DivMod(x, d);
    QuotientUnique(x / d, x % d, q, r, d);
  }

  lemma QuotientUnique(q: int, r: int, q': int, r': int, d: int)
    requires 0 <= r < d && 0 <= r' < d && q * d + r == q' * d + r'
    ensures q == q' && r == r'
  {
    if q < q' {
      MulDistributes(q, 1, d);
      MulMonotone(q + 1, q', d);
    } else if q' < q {
      MulDistributes(q', 1, d);
      MulMonotone(q' + 1, q, d);
    }
  }

  lemma DivBound(x: int, a: int, d: int)
    requires d > 0 && 0 <= x < a * d
    ensures 0 <= x / d < a
  {
    DivMod(x, d);
    if x / d >= a {
      MulMonotone(a, x / d, d);
    }
    if x / d < 0 {
      MulMonotone(x / d, -1, d);
    }
  }

  lemma DivExact(a: int, d: int)
    requires d > 0
    ensures (a * d) / d == a && (a * d) % d == 0
  {
    DivModUnique(a * d, a, 0, d);
  }

  /** Dividing by a product is dividing twice. */
  lemma DivTwice(x: int, a: int, b: int)
    requires x >= 0 && a > 0 && b > 0
    ensures a * b > 0 && x / (a * b) == (x / a) / b
  {
    var q, r := x / a, x % a;
    var q2, r2 := q / b, q % b;
    DivMod(x, a);
    DivMod(q, b);
    calc {
      x;
      (q2 * b + r2) * a + r;
      { MulDistributes(q2 * b, r2, a); MulSwap(q2, b, a); }
      q2 * (a * b) + (r2 * a + r);
    }
    MulMonotone(r2, b - 1, a);
    MulMonotone(0, r2, a);
    MulDistributes(b, -1, a);
    MulPositive(a, b);
    DivModUnique(x, q2, r2 * a + r, a * b);
  }

  lemma MulDistributes(x: int, y: int, d: int)
    ensures (x + y) * d == x * d + y * d
  {
  }

  lemma MulSwap(x: int, y: int, d: int)
    ensures (x * y) * d == x * (d * y) == x * (y * d)
  {
  }

  lemma MulPositive(a: int, b: int)
    requires a > 0 && b > 0
    ensures a * b > 0
  {
    MulMonotone(1, a, b);
  }
}
