/**
 How shards are numbered and where their tiles lie: the strides that the permutation gives the dims, and
 the order of tiles and slices along each dim of the array.
 */
module TileNumbering {
  import opened Arithmetic
  import opened MixedRadix
  import opened Shape
  import opened TiledArray
  import opened TileCoverage
  import opened PartialReplication

  // ----- strides

  /** The product of the shardings of all dims whose permutation is p or more. */
  function ShardingFrom(dims: Dims, p: nat): nat {
    if dims == [] then 1
    else (if dims[0].permutation >= p then dims[0].sharding else 1) * ShardingFrom(dims[1..], p)
  }

  /** How many tiles the dims behind dim i have. */
  ghost function Stride(dims: Dims, i: nat): nat
    requires i < |dims|
  {
    ShardingFrom(dims, dims[i].permutation + 1)
  }

  lemma {:induction false} SameFrom(dims: Dims, p: nat)
    requires forall i :: 0 <= i < |dims| ==> dims[i].permutation != p
    ensures ShardingFrom(dims, p) == ShardingFrom(dims, p + 1)
  {
    if dims != [] {
      SameFrom(dims[1..], p);
    }
  }

  lemma {:induction false} NothingFrom(dims: Dims, p: nat)
    requires forall i :: 0 <= i < |dims| ==> dims[i].permutation < p
    ensures ShardingFrom(dims, p) == 1
  {
    if dims != [] {
      NothingFrom(dims[1..], p);
    }
  }

  lemma {:induction false} OneFrom(dims: Dims, p: nat, i: nat)
    requires i < |dims| && dims[i].permutation == p
    requires forall k :: 0 <= k < |dims| && k != i ==> dims[k].permutation != p
    ensures ShardingFrom(dims, p) == dims[i].sharding * ShardingFrom(dims, p + 1)
  {
    if i == 0 {
      SameFrom(dims[1..], p);
    } else {
      OneFrom(dims[1..], p, i - 1);
      var first := if dims[0].permutation >= p then dims[0].sharding else 1;
      MulSwap(first, dims[i].sharding, ShardingFrom(dims[1..], p + 1));
      MulSwap(dims[i].sharding, first, ShardingFrom(dims[1..], p + 1));
    }
  }

  /** The radices behind a position are the shardings of the dims that the permutation puts there. */
  lemma {:induction false} RadicesFrom(dims: Dims, p: nat)
    requires IsPermutation(dims) && p <= |dims|
    ensures Product(Radices(dims)[p..]) == ShardingFrom(dims, p)
    decreases |dims| - p
  {
    var radices := Radices(dims);
    if p == |dims| {
      NothingFrom(dims, p);
    } else {
      RadicesFrom(dims, p + 1);
      assert radices[p..][0] == radices[p] && radices[p..][1..] == radices[p + 1..];
      var i := Position(dims, p);
      forall k | 0 <= k < |dims| && k != i ensures dims[k].permutation != p {
        PositionOfPermutation(dims, k);
      }
      OneFrom(dims, p, i);
    }
  }

  /** One more in a digit adds the product of the radices behind it. */
  lemma {:induction false} ValueStep(digits: seq<nat>, radices: seq<nat>, q: nat)
    requires |digits| == |radices| && q < |digits|
    ensures Value(digits[q := digits[q] + 1], radices) == Value(digits, radices) + Product(radices[q + 1..])
  {
    var more := digits[q := digits[q] + 1];
    if q == 0 {
      assert more[1..] == digits[1..];
      MulDistributes(digits[0], 1, Product(radices[1..]));
    } else {
      assert more[1..] == digits[1..][q - 1 := digits[1..][q - 1] + 1];
      assert radices[1..][q..] == radices[q + 1..];
      ValueStep(digits[1..], radices[1..], q - 1);
    }
  }

  /** The tile index one further along dim i. */
  ghost function Further(index: seq<nat>, i: nat): (further: seq<nat>)
    requires i < |index|
    ensures |further| == |index|
  {
    index[i := index[i] + 1]
  }

  lemma FurtherInBox(index: seq<nat>, i: nat, box: seq<nat>)
    requires InBox(index, box) && i < |index| && index[i] + 1 < box[i]
    ensures InBox(Further(index, i), box)
  {
  }

  lemma StepInPlace(index: seq<nat>, dims: Dims, i: nat)
    requires IsPermutation(dims) && |index| == |dims| && i < |dims|
    ensures dims[i].permutation < |dims|
    ensures DigitsAt(Further(index, i), dims) ==
            DigitsAt(index, dims)[dims[i].permutation := DigitsAt(index, dims)[dims[i].permutation] + 1]
  {
    PositionOfPermutation(dims, i);
    var p, before, after := dims[i].permutation, DigitsAt(index, dims), DigitsAt(Further(index, i), dims);
    forall q | 0 <= q < |dims| ensures after[q] == before[p := before[p] + 1][q] {
      assert dims[Position(dims, q)].permutation == q;
    }
  }

  lemma ShardOfNext(index: seq<nat>, dims: Dims, i: nat)
    requires IsPermutation(dims) && |index| == |dims| && i < |dims|
    ensures ShardAt(Further(index, i), dims) == ShardAt(index, dims) + Stride(dims, i)
  {
    StepInPlace(index, dims, i);
    ValueStep(DigitsAt(index, dims), Radices(dims), dims[i].permutation);
    RadicesFrom(dims, dims[i].permutation + 1);
  }

  lemma ShardOfNextInRange(index: seq<nat>, dims: Dims, i: nat, next: nat)
    requires IsPermutation(dims) && InBox(index, Shardings(dims)) && i < |dims| && index[i] + 1 < dims[i].sharding
    requires next == ShardAt(index, dims) + Stride(dims, i)
    ensures Positive(Shardings(dims)) && next < ShardCount(dims) && TileIndex(next, dims) == Further(index, i)
  {
    ShardOfNext(index, dims, i);
    FurtherInBox(index, i, Shardings(dims));
    ShardAtInRange(Further(index, i), dims);
  }

  /**
   The next tile along dim i belongs to the shard whose number is larger by the number of tiles of all dims
   with a larger permutation: dims with a small permutation are the most significant ones.
   */
  lemma NextTile(shard: nat, dims: Dims, i: nat)
    requires IsPermutation(dims) && Positive(Shardings(dims)) && shard < ShardCount(dims) && i < |dims|
    requires TileIndex(shard, dims)[i] + 1 < dims[i].sharding
    ensures var next := shard + Stride(dims, i);
      && next < ShardCount(dims)
      && TileIndex(next, dims) == Further(TileIndex(shard, dims), i)
  {
    TileIndexInBox(shard, dims);
    var next := shard + Stride(dims, i);
    ShardOfNextInRange(TileIndex(shard, dims), dims, i, next);
  }

  /** Shard 0 holds the first tile of every dim. */
  lemma FirstTile(dims: Dims, i: nat)
    requires IsPermutation(dims) && Positive(Shardings(dims)) && i < |dims|
    ensures TileIndex(0, dims)[i] == 0
  {
    var zero := seq(|dims|, k => 0);
    assert InBox(zero, Shardings(dims));
    ShardAtInRange(zero, dims);
    assert DigitsAt(zero, dims) == zero;
    ZeroIsZero(zero, Radices(dims));
  }

  lemma {:induction false} ZeroIsZero(digits: seq<nat>, radices: seq<nat>)
    requires |digits| == |radices| && forall k :: 0 <= k < |digits| ==> digits[k] == 0
    ensures Value(digits, radices) == 0
  {
    if digits != [] {
      ZeroIsZero(digits[1..], radices[1..]);
    }
  }

  // ----- order in the array

  lemma QuotientOrder(x: int, y: int, d: int)
    requires d > 0 && x / d < y / d
    ensures x < y
  {
    DivMod(x, d);
    DivMod(y, d);
    MulMonotone(x / d + 1, y / d, d);
    MulDistributes(x / d, 1, d);
  }

  /** Along each dim of the array, tiles lie in the order of their tile indices. */
  lemma TilesInOrder(s: nat, t: nat, p: Point, q: Point, k: nat, dims: Dims)
    requires SaneDims(dims) && IsPermutation(dims) && s < ShardCount(dims) && t < ShardCount(dims)
    requires InRect(TileRect(s, dims), p) && InRect(TileRect(t, dims), q) && k < |RealDims(dims)|
    requires RealIndex(TileIndex(s, dims), dims)[k] < RealIndex(TileIndex(t, dims), dims)[k]
    ensures k < |p| == |q| && p[k] < q[k]
  {
    TileInArray(s, p, dims);
    TileInArray(t, q, dims);
    TileHolds(s, p, dims);
    TileHolds(t, q, dims);
    RealDimsAreReal(dims);
    CellCoordinate(p[k], RealDims(dims)[k]);
    QuotientOrder(p[k], q[k], RealDims(dims)[k].TileExtent());
  }

  /** Within a tile, its copies send their slices in the order of their numbers. */
  lemma SlicesInOrder(s: nat, t: nat, p: Point, q: Point, k: nat, dims: Dims)
    requires SaneDims(dims) && IsPermutation(dims) && IsSliceDim(k, dims)
    requires s < ShardCount(dims) && t < ShardCount(dims)
    requires RealIndex(TileIndex(s, dims), dims) == RealIndex(TileIndex(t, dims), dims)
    requires Replica(s, dims) < Replica(t, dims)
    requires InRect(ShardSlice(s, k, dims), p) && InRect(ShardSlice(t, k, dims), q)
    ensures k < |p| == |q| && p[k] < q[k]
  {
    SliceInsideTile(s, p, k, dims);
    SliceInsideTile(t, q, k, dims);
    SliceHolds(s, p, k, dims);
    SliceHolds(t, q, k, dims);
    TileHolds(s, p, dims);
    TileHolds(t, q, dims);
    SliceDimFacts(k, dims);
    var extent := RealDims(dims)[k].TileExtent();
    QuotientOrder(p[k] % extent, q[k] % extent, extent / Replication(dims));
    assert p[k] / extent == q[k] / extent;
    DivMod(p[k], extent);
    DivMod(q[k], extent);
  }

  /** All slices are equally thick along the dim that is cut. */
  lemma SlicesEqual(s: nat, t: nat, k: nat, dims: Dims)
    requires SaneDims(dims) && IsPermutation(dims) && IsSliceDim(k, dims)
    requires s < ShardCount(dims) && t < ShardCount(dims)
    ensures var a, b := ShardSlice(s, k, dims), ShardSlice(t, k, dims);
      k < |a.lo| == |b.lo| && a.hi[k] - a.lo[k] == b.hi[k] - b.lo[k]
  {
    SliceDimFacts(k, dims);
    TileOnAxis(s, k, dims);
    TileOnAxis(t, k, dims);
  }
}
