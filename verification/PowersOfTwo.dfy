/** Powers of two and the lowest set bit of a number. */
module PowersOfTwo {
  import opened Arithmetic

  function Pow2(k: nat): (p: nat)
    ensures p > 0
  {
    if k == 0 then 1 else 2 * Pow2(k - 1)
  }

  predicate IsPow2(x: nat) {
    x == 1 || (x > 1 && x % 2 == 0 && IsPow2(x / 2))
  }

  /** The largest power of two that divides r. */
  function LowBit(r: nat): (bit: nat)
    requires r > 0
    ensures 0 < bit <= r
  {
    if r % 2 == 1 then 1 else 2 * LowBit(r / 2)
  }

  lemma {:induction false} Pow2IsPow2(k: nat)
    ensures IsPow2(Pow2(k))
  {
    if k > 0 {
      Pow2IsPow2(k - 1);
    }
  }

  lemma {:induction false} ExponentOf(x: nat) returns (k: nat)
    requires IsPow2(x)
    ensures x == Pow2(k)
  {
    if x == 1 {
      k := 0;
    } else {
      k := ExponentOf(x / 2);
      k := k + 1;
    }
  }

  lemma {:induction false} Pow2Monotone(j: nat, k: nat)
    ensures j <= k <==> Pow2(j) <= Pow2(k)
  {
    if j > 0 && k > 0 {
      Pow2Monotone(j - 1, k - 1);
    }
  }

  /** A smaller power of two divides a larger one, at least twice. */
  lemma {:induction false} SmallerDivides(a: nat, b: nat)
    requires IsPow2(a) && IsPow2(b) && a <= b
    ensures b % a == 0 && (a < b ==> 2 * a <= b)
  {
    if a == 1 {
      assert b % 1 == 0;
    } else {
      SmallerDivides(a / 2, b / 2);
      var q := (b / 2) / (a / 2);
      DivMod(b / 2, a / 2);
      MulSwap(q, a / 2, 2);
      DivModUnique(b, q, 0, a);
    }
  }

  lemma MultipleGap(x: nat, y: nat, d: nat)
    requires d > 0 && x % d == 0 && y % d == 0 && x < y
    ensures x + d <= y
  {
    DivMod(x, d);
    DivMod(y, d);
    if x / d >= y / d {
      MulMonotone(y / d, x / d, d);
    } else {
      MulMonotone(x / d + 1, y / d, d);
      MulDistributes(x / d, 1, d);
    }
  }

  lemma MultipleOfMultiple(x: nat, b: nat, a: nat)
    requires a > 0 && b > 0 && x % b == 0 && b % a == 0
    ensures x % a == 0
  {
    DivMod(x, b);
    DivMod(b, a);
    MulSwap(x / b, b / a, a);
    DivModUnique(x, (x / b) * (b / a), 0, a);
  }

  lemma DoubledMultiple(x: nat, d: nat)
    requires d > 0 && x % d == 0
    ensures (2 * x) % (2 * d) == 0
  {
    DivMod(x, d);
    MulSwap(x / d, d, 2);
    DivModUnique(2 * x, x / d, 0, 2 * d);
  }

  lemma {:induction false} LowBitFacts(r: nat)
    requires r > 0
    ensures IsPow2(LowBit(r)) && r % LowBit(r) == 0
    ensures r > LowBit(r) ==> LowBit(r - LowBit(r)) >= 2 * LowBit(r)
    ensures LowBit(r + LowBit(r)) >= 2 * LowBit(r)
  {
    if r % 2 == 0 {
      var h, l := r / 2, LowBit(r / 2);
      LowBitFacts(h);
      DoubledMultiple(h, l);
      assert (r - 2 * l) / 2 == h - l && (r + 2 * l) / 2 == h + l;
    }
  }

  /** An odd multiple of a power of two has that power as its lowest bit. */
  lemma {:induction false} LowBitOfOddMultiple(a: nat, p: nat)
    requires a % 2 == 1 && IsPow2(p)
    ensures a * p > 0 && LowBit(a * p) == p
  {
    MulPositive(a, p);
    if p == 1 {
      assert a * p == a;
    } else {
      LowBitOfOddMultiple(a, p / 2);
      MulSwap(a, p / 2, 2);
      assert a * p == 2 * (a * (p / 2));
    }
  }

  /** Adding a smaller power of two makes it the lowest bit. */
  lemma LowBitOfSum(r: nat, l: nat)
    requires IsPow2(l) && r % (2 * l) == 0
    ensures LowBit(r + l) == l
  {
    var t := r / (2 * l);
    DivMod(r, 2 * l);
    MulSwap(t, 2, l);
    MulDistributes(t * 2, 1, l);
    LowBitOfOddMultiple(t * 2 + 1, l);
  }

  lemma {:induction false} OwnLowBit(r: nat)
    requires r > 0
    ensures LowBit(r) == r <==> IsPow2(r)
  {
    if r > 1 && r % 2 == 0 {
      OwnLowBit(r / 2);
    }
  }
}
