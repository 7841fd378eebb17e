/**
 Mixed-radix positional numbers, most significant digit first.  A shard number is
 the value of its tile index read in the radices given by the sharding of each dim.
 */
module MixedRadix {
  import opened Arithmetic

  /** Product of all radices: how many numbers the radices can name. */
  function Product(radices: seq<nat>): nat {
    if radices == [] then 1 else radices[0] * Product(radices[1..])
  }

  predicate Positive(radices: seq<nat>) {
    forall i :: 0 <= i < |radices| ==> radices[i] > 0
  }

  /** Every digit is below its radix. */
  predicate InBox(digits: seq<nat>, radices: seq<nat>) {
    |digits| == |radices| && forall i :: 0 <= i < |digits| ==> digits[i] < radices[i]
  }

  /** The number that a digit string stands for. */
  function Value(digits: seq<nat>, radices: seq<nat>): nat
    requires |digits| == |radices|
  {
    if digits == [] then 0 else digits[0] * Product(radices[1..]) + Value(digits[1..], radices[1..])
  }

  /** The digit string of a number. */
  function Digits(x: nat, radices: seq<nat>): (digits: seq<nat>)
    requires Positive(radices)
    ensures |digits| == |radices|
  {
    if radices == [] then []
    else
      ProductPositive(radices[1..]);
      var stride := Product(radices[1..]);
      [x / stride] + Digits(x % stride, radices[1..])
  }

  lemma ProductPositive(radices: seq<nat>)
    requires Positive(radices)
    ensures Product(radices) > 0
  {
    if radices != [] {
      ProductPositive(radices[1..]);
      assert radices[0] > 0;
    }
  }

  /** Reading back the digits of a number below the product gives that number. */
  lemma {:induction false} ValueOfDigits(x: nat, radices: seq<nat>)
    requires Positive(radices) && x < Product(radices)
    ensures InBox(Digits(x, radices), radices)
    ensures Value(Digits(x, radices), radices) == x
  {
    if radices != [] {
      var rest := radices[1..];
      ProductPositive(rest);
      var stride := Product(rest);
      DivBound(x, radices[0], stride);
      DivMod(x, stride);
      var q, low := x / stride, x % stride;
      ValueOfDigits(low, rest);
      assert Digits(x, radices) == [q] + Digits(low, rest);
      assert Digits(x, radices)[1..] == Digits(low, rest);
    }
  }

  /** A digit string below its radices names a number below the product, and that number has those digits. */
  lemma {:induction false} DigitsOfValue(digits: seq<nat>, radices: seq<nat>)
    requires InBox(digits, radices)
    ensures Positive(radices)
    ensures Value(digits, radices) < Product(radices)
    ensures Digits(Value(digits, radices), radices) == digits
  {
    if digits != [] {
      var rest := radices[1..];
      DigitsOfValue(digits[1..], rest);
      var stride := Product(rest);
      var low := Value(digits[1..], rest);
      var x := digits[0] * stride + low;
      DivModUnique(x, digits[0], low, stride);
      MulDistributes(digits[0], 1, stride);
      MulMonotone(digits[0] + 1, radices[0], stride);
      assert Positive(radices) by {
        assert forall i :: 0 <= i < |radices| ==> digits[i] < radices[i];
      }
      assert Digits(x, radices) == [digits[0]] + digits[1..];
    }
  }

  /** Appending a least significant digit: one step of Horner's rule. */
  lemma {:induction false} ValueAppend(digits: seq<nat>, radices: seq<nat>, digit: nat, radix: nat)
    requires |digits| == |radices|
    ensures Product(radices + [radix]) == Product(radices) * radix
    ensures Value(digits + [digit], radices + [radix]) == Value(digits, radices) * radix + digit
  {
    if digits == [] {
      assert radices + [radix] == [radix] && digits + [digit] == [digit];
      assert Product([radix]) == radix * Product([]);
      assert Value([digit], [radix]) == digit * Product([]) + Value([], []);
    } else {
      ValueAppend(digits[1..], radices[1..], digit, radix);
      assert (radices + [radix])[1..] == radices[1..] + [radix];
      assert (digits + [digit])[1..] == digits[1..] + [digit];
      var p, v := Product(radices[1..]), Value(digits[1..], radices[1..]);
      assert radices[0] * (p * radix) == (radices[0] * p) * radix;
      assert digits[0] * (p * radix) + (v * radix + digit) == (digits[0] * p + v) * radix + digit;
    }
  }

  /** Removing one radix divides it out of the product. */
  lemma {:induction false} ProductRemove(radices: seq<nat>, k: nat)
    requires k < |radices|
    ensures Product(radices) == radices[k] * Product(radices[..k] + radices[k + 1..])
  {
    if k == 0 {
      assert radices[..0] + radices[1..] == radices[1..];
    } else {
      var rest := radices[1..];
      ProductRemove(rest, k - 1);
      var without := radices[..k] + radices[k + 1..];
      assert without[1..] == rest[..k - 1] + rest[k..];
      var p := Product(without[1..]);
      MulSwap(rest[k - 1], p, radices[0]);
    }
  }

  /** The product does not depend on the order of the radices. */
  lemma {:induction false} ProductOfPermutation(a: seq<nat>, b: seq<nat>, position: seq<nat>)
    requires |a| == |b| == |position|
    requires forall i :: 0 <= i < |a| ==> position[i] < |b| && b[position[i]] == a[i]
    requires forall i, j :: 0 <= i < j < |a| ==> position[i] != position[j]
    ensures Product(a) == Product(b)
  {
    if a != [] {
      var k := position[0];
      var b' := b[..k] + b[k + 1..];
      var position' := seq(|a| - 1, i requires 0 <= i < |a| - 1 =>
                               if position[i + 1] < k then position[i + 1] else position[i + 1] - 1 as nat);
      forall i | 0 <= i < |a| - 1
        ensures position'[i] < |b'| && b'[position'[i]] == a[1..][i]
      {
        assert position[0] != position[i + 1];
        assert position[i + 1] < |b| && b[position[i + 1]] == a[i + 1];
      }
      forall i, j | 0 <= i < j < |a| - 1
        ensures position'[i] != position'[j]
      {
        assert position[i + 1] != position[j + 1] && position[0] != position[i + 1] && position[0] != position[j + 1];
      }
      ProductOfPermutation(a[1..], b', position');
      ProductRemove(b, k);
    }
  }
}
