/**
 ComputeTileShard ignores the permutation that ComputeTileIndex applies.  It still undoes it exactly
 when the permutation leaves the dims that are really divided in their order.
 */
module TilePermutation {
  import opened Arithmetic
  import opened MixedRadix
  import opened Shape
  import opened TiledArray

  /** The dims that are really divided stand in the permuted order as in their own; the identity does this. */
  predicate KeepsOrder(dims: Dims) {
    forall i, j :: 0 <= i < j < |dims| && dims[i].sharding > 1 && dims[j].sharding > 1 ==>
      dims[i].permutation < dims[j].permutation
  }

  /** The number read off the dims in a given order. */
  function ValueAlong(order: seq<nat>, index: seq<nat>, dims: Dims): nat
    requires |index| == |dims| && forall k :: 0 <= k < |order| ==> order[k] < |dims|
  {
    Value(Pick(order, index), Pick(order, Shardings(dims)))
  }

  function Pick(order: seq<nat>, values: seq<nat>): (picked: seq<nat>)
    requires forall k :: 0 <= k < |order| ==> order[k] < |values|
    ensures |picked| == |order|
  {
    seq(|order|, k requires 0 <= k < |order| => values[order[k]])
  }

  /** The positions of the order whose dim is really divided. */
  function Divided(order: seq<nat>, dims: Dims): (kept: seq<nat>)
    requires forall k :: 0 <= k < |order| ==> order[k] < |dims|
    ensures forall k :: 0 <= k < |kept| ==> kept[k] < |dims|
  {
    if order == [] then []
    else if dims[order[0]].sharding > 1 then [order[0]] + Divided(order[1..], dims)
    else Divided(order[1..], dims)
  }

  lemma {:induction false} DividedElements(order: seq<nat>, dims: Dims)
    requires forall k :: 0 <= k < |order| ==> order[k] < |dims|
    ensures forall i: nat :: i in Divided(order, dims) <==> i in order && i < |dims| && dims[i].sharding > 1
  {
    if order != [] {
      DividedElements(order[1..], dims);
      assert order == [order[0]] + order[1..];
    }
  }

  lemma PickTail(order: seq<nat>, values: seq<nat>)
    requires order != [] && forall k :: 0 <= k < |order| ==> order[k] < |values|
    ensures Pick(order, values)[0] == values[order[0]] && Pick(order, values)[1..] == Pick(order[1..], values)
  {
  }

  /** Undivided dims do not matter for the number. */
  lemma {:induction false} OnlyDividedMatters(order: seq<nat>, index: seq<nat>, dims: Dims)
    requires InBox(index, Shardings(dims)) && forall k :: 0 <= k < |order| ==> order[k] < |dims|
    ensures ValueAlong(order, index, dims) == ValueAlong(Divided(order, dims), index, dims)
    ensures Product(Pick(order, Shardings(dims))) == Product(Pick(Divided(order, dims), Shardings(dims)))
  {
    if order != [] {
      OnlyDividedMatters(order[1..], index, dims);
      PickTail(order, index);
      PickTail(order, Shardings(dims));
      assert index[order[0]] < Shardings(dims)[order[0]];
      if dims[order[0]].sharding > 1 {
        var kept := Divided(order, dims);
        PickTail(kept, index);
        PickTail(kept, Shardings(dims));
        assert kept[1..] == Divided(order[1..], dims);
      }
    }
  }

  predicate Increasing(s: seq<nat>) {
    forall a, b :: 0 <= a < b < |s| ==> s[a] < s[b]
  }

  lemma HeadLeast(s: seq<nat>, x: nat)
    requires Increasing(s) && x in s
    ensures s[0] in s && s[0] <= x
  {
  }

  lemma HeadIn(s: seq<nat>)
    ensures s != [] ==> s[0] in s
  {
  }

  lemma InTail(s: seq<nat>, x: nat)
    requires s != [] && Increasing(s)
    ensures x in s[1..] <==> x in s && x != s[0]
  {
    assert s == [s[0]] + s[1..];
  }

  /** Increasing sequences with the same elements are equal. */
  lemma {:induction false} IncreasingUnique(s: seq<nat>, t: seq<nat>)
    requires Increasing(s) && Increasing(t) && forall x: nat :: x in s <==> x in t
    ensures s == t
  {
    HeadIn(s);
    HeadIn(t);
    if |s| > 0 && |t| > 0 {
      HeadLeast(s, t[0]);
      HeadLeast(t, s[0]);
      forall x: nat ensures x in s[1..] <==> x in t[1..] {
        InTail(s, x);
        InTail(t, x);
      }
      IncreasingUnique(s[1..], t[1..]);
      assert s == [s[0]] + s[1..] && t == [t[0]] + t[1..];
    }
  }

  lemma {:induction false} DividedIncreasing(order: seq<nat>, dims: Dims)
    requires forall k :: 0 <= k < |order| ==> order[k] < |dims|
    requires forall a, b :: 0 <= a < b < |order| && dims[order[a]].sharding > 1 && dims[order[b]].sharding > 1 ==>
               order[a] < order[b]
    ensures Increasing(Divided(order, dims))
  {
    if order != [] {
      DividedIncreasing(order[1..], dims);
      DividedElements(order[1..], dims);
      var rest := Divided(order[1..], dims);
      forall b | 0 <= b < |rest| && dims[order[0]].sharding > 1 ensures order[0] < rest[b] {
        assert rest[b] in rest;
        var c :| 0 <= c < |order[1..]| && order[1..][c] == rest[b];
        assert order[c + 1] == rest[b];
      }
    }
  }

  function OwnOrder(n: nat): (order: seq<nat>)
    ensures |order| == n
  {
    seq(n, k requires 0 <= k => k)
  }

  ghost function PermutedOrder(dims: Dims): (order: seq<nat>)
    requires IsPermutation(dims)
    ensures |order| == |dims| && forall k :: 0 <= k < |order| ==> order[k] < |dims|
  {
    seq(|dims|, p requires 0 <= p < |dims| => Position(dims, p))
  }

  lemma SameDividedOrder(dims: Dims)
    requires IsPermutation(dims) && KeepsOrder(dims)
    ensures Divided(PermutedOrder(dims), dims) == Divided(OwnOrder(|dims|), dims)
  {
    var permuted, own := PermutedOrder(dims), OwnOrder(|dims|);
    forall a, b | 0 <= a < b < |dims| && dims[permuted[a]].sharding > 1 && dims[permuted[b]].sharding > 1
      ensures permuted[a] < permuted[b]
    {
      assert dims[permuted[a]].permutation == a && dims[permuted[b]].permutation == b;
    }
    DividedIncreasing(permuted, dims);
    DividedIncreasing(own, dims);
    DividedElements(permuted, dims);
    DividedElements(own, dims);
    SameElements(dims);
    IncreasingUnique(Divided(permuted, dims), Divided(own, dims));
  }

  lemma SameElements(dims: Dims)
    requires IsPermutation(dims)
    ensures forall i: nat :: i in PermutedOrder(dims) <==> i in OwnOrder(|dims|)
  {
    var permuted, own := PermutedOrder(dims), OwnOrder(|dims|);
    forall i: nat ensures i in permuted <==> i in own {
      if i < |dims| {
        PositionOfPermutation(dims, i);
        assert permuted[dims[i].permutation] == i && own[i] == i;
      }
    }
  }

  /** If the order is kept, ComputeTileShard finds the shard of every valid tile index. */
  lemma TileShardIsShardAt(index: seq<nat>, dims: Dims)
    requires IsPermutation(dims) && KeepsOrder(dims) && InBox(index, Shardings(dims))
    ensures Value(index, Shardings(dims)) == ShardAt(index, dims)
  {
    var permuted, own := PermutedOrder(dims), OwnOrder(|dims|);
    SameDividedOrder(dims);
    OnlyDividedMatters(permuted, index, dims);
    OnlyDividedMatters(own, index, dims);
    assert Pick(own, index) == index && Pick(own, Shardings(dims)) == Shardings(dims);
    assert Pick(permuted, index) == DigitsAt(index, dims) && Pick(permuted, Shardings(dims)) == Radices(dims);
  }

  // ----- otherwise some shard is missed

  function Unit(n: nat, i: nat): (digits: seq<nat>)
    ensures |digits| == n
  {
    seq(n, k requires 0 <= k => if k == i then 1 else 0)
  }

  /** The weight of a digit is the product of the radices behind it. */
  lemma {:induction false} UnitValue(radices: seq<nat>, i: nat)
    requires i < |radices|
    ensures Value(Unit(|radices|, i), radices) == Product(radices[i + 1..])
  {
    var rest := radices[1..];
    if i == 0 {
      assert Unit(|radices|, 0)[1..] == Unit(|rest|, |rest|);
      ZeroValue(rest);
    } else {
      UnitValue(rest, i - 1);
      assert Unit(|radices|, i)[1..] == Unit(|rest|, i - 1);
      assert rest[i..] == radices[i + 1..];
    }
  }

  lemma {:induction false} ZeroValue(radices: seq<nat>)
    ensures Value(Unit(|radices|, |radices|), radices) == 0
  {
    if radices != [] {
      ZeroValue(radices[1..]);
      assert Unit(|radices|, |radices|)[1..] == Unit(|radices[1..]|, |radices[1..]|);
    }
  }

  /** A digit in front of a divided position weighs more than that position. */
  lemma {:induction false} WeightDrops(radices: seq<nat>, i: nat, j: nat)
    requires Positive(radices) && i < j < |radices| && radices[j] > 1
    ensures Product(radices[i + 1..]) > Product(radices[j + 1..]) > 0
    decreases j - i
  {
    var tail := radices[i + 1..];
    assert tail[0] == radices[i + 1] && tail[1..] == radices[i + 2..];
    ProductPositive(tail[1..]);
    MulMonotone(1, tail[0], Product(tail[1..]));
    if j == i + 1 {
      MulMonotone(2, tail[0], Product(tail[1..]));
    } else {
      WeightDrops(radices, i + 1, j);
    }
  }

  /** What the unit index of a dim is worth to ComputeTileShard and to ComputeTileIndex. */
  ghost function OwnWeight(dims: Dims, i: nat): nat
    requires i < |dims|
  {
    Product(Shardings(dims)[i + 1..])
  }

  ghost function PermutedWeight(dims: Dims, i: nat): nat
    requires IsPermutation(dims) && i < |dims| && dims[i].permutation < |dims|
  {
    Product(Radices(dims)[dims[i].permutation + 1..])
  }

  lemma SwappedWeights(dims: Dims, i: nat, j: nat)
    requires IsPermutation(dims) && Positive(Shardings(dims))
    requires i < j < |dims| && dims[i].sharding > 1 && dims[j].sharding > 1
    requires dims[j].permutation < dims[i].permutation < |dims|
    ensures OwnWeight(dims, i) > OwnWeight(dims, j) && PermutedWeight(dims, i) < PermutedWeight(dims, j)
  {
    RadicesPositive(dims);
    PermutedRadix(dims, i);
    WeightDrops(Shardings(dims), i, j);
    WeightDrops(Radices(dims), dims[j].permutation, dims[i].permutation);
  }

  lemma UnitWeights(dims: Dims, i: nat)
    requires IsPermutation(dims) && i < |dims|
    ensures dims[i].permutation < |dims|
    ensures Value(Unit(|dims|, i), Shardings(dims)) == OwnWeight(dims, i)
    ensures ShardAt(Unit(|dims|, i), dims) == PermutedWeight(dims, i)
  {
    PermutedRadix(dims, i);
    UnitValue(Shardings(dims), i);
    PermutedUnit(dims, i);
    UnitValue(Radices(dims), dims[i].permutation);
  }

  /** Two divided dims that the permutation swaps: the shard at one of their unit indices is missed. */
  lemma SwappedDimsMissed(dims: Dims, i: nat, j: nat) returns (k: nat)
    requires IsPermutation(dims) && Positive(Shardings(dims))
    requires i < j < |dims| && dims[i].sharding > 1 && dims[j].sharding > 1
    requires dims[j].permutation < dims[i].permutation
    ensures k < |dims| && dims[k].sharding > 1
    ensures Value(Unit(|dims|, k), Shardings(dims)) != ShardAt(Unit(|dims|, k), dims)
  {
    UnitWeights(dims, i);
    UnitWeights(dims, j);
    SwappedWeights(dims, i, j);
    k := if OwnWeight(dims, i) != PermutedWeight(dims, i) then i else j;
  }

  lemma PermutedRadix(dims: Dims, i: nat)
    requires IsPermutation(dims) && i < |dims|
    ensures dims[i].permutation < |dims| && Radices(dims)[dims[i].permutation] == dims[i].sharding
  {
    PositionOfPermutation(dims, i);
  }

  lemma PermutedUnit(dims: Dims, i: nat)
    requires IsPermutation(dims) && i < |dims| && dims[i].permutation < |dims|
    ensures DigitsAt(Unit(|dims|, i), dims) == Unit(|dims|, dims[i].permutation)
  {
    PositionOfPermutation(dims, i);
    forall p | 0 <= p < |dims| ensures Position(dims, p) == i <==> p == dims[i].permutation {
      assert dims[Position(dims, p)].permutation == p;
    }
  }

  /** ComputeTileShard undoes ComputeTileIndex on every shard exactly when the divided dims keep their order. */
  lemma TileShardInvertsIff(dims: Dims)
    requires IsPermutation(dims) && Positive(Shardings(dims))
    ensures (forall shard: nat :: shard < ShardCount(dims) ==> Value(TileIndex(shard, dims), Shardings(dims)) == shard)
            <==> KeepsOrder(dims)
  {
    if KeepsOrder(dims) {
      forall shard: nat | shard < ShardCount(dims)
        ensures Value(TileIndex(shard, dims), Shardings(dims)) == shard
      {
        TileIndexInBox(shard, dims);
        TileShardIsShardAt(TileIndex(shard, dims), dims);
      }
    } else {
      var i, j :| 0 <= i < j < |dims| && dims[i].sharding > 1 && dims[j].sharding > 1
                  && dims[i].permutation >= dims[j].permutation;
      assert dims[i].permutation != dims[j].permutation;
      var k := SwappedDimsMissed(dims, i, j);
      assert InBox(Unit(|dims|, k), Shardings(dims)) by {
        assert forall m :: 0 <= m < |dims| ==> Shardings(dims)[m] > 0;
      }
      ShardAtInRange(Unit(|dims|, k), dims);
    }
  }
}
