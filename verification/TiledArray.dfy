/** Which tile of the array each shard holds (tiled_array.cc). */
module TiledArray {
  import opened Arithmetic
  import opened MixedRadix
  import opened Shape

  type Point = seq<int>

  /** A box of array elements; both corners are included. */
  datatype Rect = Rect(lo: seq<int>, hi: seq<int>)

  predicate InRect(r: Rect, p: Point) {
    |r.lo| == |r.hi| == |p| && forall k :: 0 <= k < |p| ==> r.lo[k] <= p[k] <= r.hi[k]
  }

  // ----- shard number <-> tile index

  /** The dim that supplies digit p of a shard number. */
  ghost function Position(dims: Dims, p: nat): (i: nat)
    requires IsPermutation(dims) && p < |dims|
    ensures i < |dims| && dims[i].permutation == p
  {
    assert HasPosition(dims, p);
    var i :| 0 <= i < |dims| && dims[i].permutation == p;
    i
  }

  /** Radices of a shard number, most significant first. */
  ghost function Radices(dims: Dims): (radices: seq<nat>)
    requires IsPermutation(dims)
    ensures |radices| == |dims|
  {
    seq(|dims|, p requires 0 <= p < |dims| => dims[Position(dims, p)].sharding)
  }

  lemma RadicesPositive(dims: Dims)
    requires IsPermutation(dims) && Positive(Shardings(dims))
    ensures Positive(Radices(dims))
  {
    assert forall p :: 0 <= p < |dims| ==> Shardings(dims)[Position(dims, p)] == Radices(dims)[p];
  }

  /** Permuting the dims does not change how many shards there are. */
  lemma RadicesProduct(dims: Dims)
    requires IsPermutation(dims)
    ensures Product(Radices(dims)) == ShardCount(dims)
  {
    var position := seq(|dims|, p requires 0 <= p < |dims| => Position(dims, p));
    forall p, q | 0 <= p < q < |dims| ensures position[p] != position[q] {
      assert dims[position[p]].permutation == p && dims[position[q]].permutation == q;
    }
    ProductOfPermutation(Radices(dims), Shardings(dims), position);
  }

  ghost function TileIndex(shard: nat, dims: Dims): (index: seq<nat>)
    requires IsPermutation(dims) && Positive(Shardings(dims))
    ensures |index| == |dims|
  {
    RadicesPositive(dims);
    var digits := Digits(shard, Radices(dims));
    seq(|dims|, i requires 0 <= i < |dims| => digits[dims[i].permutation])
  }

  /** The shard that sits at a tile index. */
  ghost function ShardAt(index: seq<nat>, dims: Dims): nat
    requires IsPermutation(dims) && |index| == |dims|
  {
    Value(DigitsAt(index, dims), Radices(dims))
  }

  ghost function DigitsAt(index: seq<nat>, dims: Dims): (digits: seq<nat>)
    requires IsPermutation(dims) && |index| == |dims|
    ensures |digits| == |dims|
  {
    seq(|dims|, p requires 0 <= p < |dims| => index[Position(dims, p)])
  }

  lemma PositionOfPermutation(dims: Dims, i: nat)
    requires IsPermutation(dims) && i < |dims|
    ensures dims[i].permutation < |dims| && Position(dims, dims[i].permutation) == i
  {
    var j := Position(dims, dims[i].permutation);
    assert dims[j].permutation == dims[i].permutation;
  }

  /** Every shard has a valid tile index, from which the shard can be read back. */
  lemma TileIndexInBox(shard: nat, dims: Dims)
    requires IsPermutation(dims) && Positive(Shardings(dims)) && shard < ShardCount(dims)
    ensures InBox(TileIndex(shard, dims), Shardings(dims))
    ensures ShardAt(TileIndex(shard, dims), dims) == shard
  {
    var radices := Radices(dims);
    RadicesPositive(dims);
    RadicesProduct(dims);
    ValueOfDigits(shard, radices);
    var digits, index := Digits(shard, radices), TileIndex(shard, dims);
    forall i | 0 <= i < |dims| ensures index[i] < Shardings(dims)[i] {
      PositionOfPermutation(dims, i);
      assert digits[dims[i].permutation] < radices[dims[i].permutation];
    }
    assert DigitsAt(index, dims) == digits;
  }

  /** Every valid tile index belongs to exactly the shard ShardAt names. */
  lemma ShardAtInRange(index: seq<nat>, dims: Dims)
    requires IsPermutation(dims) && InBox(index, Shardings(dims))
    ensures Positive(Shardings(dims)) && ShardAt(index, dims) < ShardCount(dims)
    ensures TileIndex(ShardAt(index, dims), dims) == index
  {
    var radices, digits := Radices(dims), DigitsAt(index, dims);
    forall p | 0 <= p < |dims| ensures digits[p] < radices[p] {
      assert index[Position(dims, p)] < Shardings(dims)[Position(dims, p)];
    }
    DigitsOfValue(digits, radices);
    RadicesProduct(dims);
    assert Positive(Shardings(dims)) by {
      assert forall i :: 0 <= i < |dims| ==> index[i] < Shardings(dims)[i];
    }
    var back := TileIndex(ShardAt(index, dims), dims);
    forall i | 0 <= i < |dims| ensures back[i] == index[i] {
      PositionOfPermutation(dims, i);
    }
  }

  /** TileIndex is a bijection from shard numbers onto the box of valid indices, for any permutation. */
  lemma TileIndexBijection(dims: Dims)
    requires IsPermutation(dims) && Positive(Shardings(dims))
    ensures forall s: nat :: s < ShardCount(dims) ==> InBox(TileIndex(s, dims), Shardings(dims))
    ensures forall s: nat, t: nat :: (s < ShardCount(dims) && t < ShardCount(dims)
              && TileIndex(s, dims) == TileIndex(t, dims)) ==> s == t
    ensures forall index: seq<nat> :: InBox(index, Shardings(dims)) ==>
              exists s: nat :: s < ShardCount(dims) && TileIndex(s, dims) == index
  {
    forall s: nat | s < ShardCount(dims)
      ensures InBox(TileIndex(s, dims), Shardings(dims)) && ShardAt(TileIndex(s, dims), dims) == s
    {
      TileIndexInBox(s, dims);
    }
    forall index: seq<nat> | InBox(index, Shardings(dims))
      ensures exists s: nat :: s < ShardCount(dims) && TileIndex(s, dims) == index
    {
      ShardAtInRange(index, dims);
    }
  }

  /** First loop of ComputeTileIndex: the sharding and the dim found at each permuted position. */
  method Unpermute(dims: Dims) returns (extents: seq<nat>, permutation: seq<nat>)
    requires IsPermutation(dims)
    ensures extents == Radices(dims)
    ensures |permutation| == |dims| && forall p :: 0 <= p < |dims| ==> permutation[p] == Position(dims, p)
  {
    var n := |dims|;
    var shardExtents, position := new nat[n], new nat[n];
    for d := 0 to n
      invariant forall i :: 0 <= i < d ==> shardExtents[dims[i].permutation] == dims[i].sharding
      invariant forall i :: 0 <= i < d ==> position[dims[i].permutation] == i
    {
      shardExtents[dims[d].permutation] := dims[d].sharding;
      position[dims[d].permutation] := d;
    }
    extents, permutation := shardExtents[..], position[..];
  }

  method ComputeTileIndex(shard: nat, dims: Dims) returns (index: seq<nat>)
    requires IsPermutation(dims) && Positive(Shardings(dims))
    ensures index == TileIndex(shard, dims)
  {
    var extents, permutation := Unpermute(dims);
    RadicesPositive(dims);

    var stride := 1;
    for d := 0 to |extents|
      invariant stride == Product(extents[..d])
    {
      ProductAppend(extents[..d], extents[d]);
      assert extents[..d + 1] == extents[..d] + [extents[d]];
      stride := stride * extents[d];
    }
    assert extents[..|extents|] == extents;

    forall d, e | 0 <= e < d < |dims| ensures permutation[e] != permutation[d] {
      PositionsDistinct(dims, d);
    }
    index := PlaceDigits(shard, extents, permutation, stride);
    forall i | 0 <= i < |dims| ensures index[i] == TileIndex(shard, dims)[i] {
      PositionOfPermutation(dims, i);
    }
  }

  /** Last loop of ComputeTileIndex: digit d of the number goes to the dim permutation[d]. */
  method PlaceDigits(number: nat, extents: seq<nat>, permutation: seq<nat>, total: nat) returns (index: seq<nat>)
    requires Positive(extents) && total == Product(extents)
    requires |permutation| == |extents| && forall d :: 0 <= d < |permutation| ==> permutation[d] < |extents|
    requires forall d, e :: 0 <= e < d < |permutation| ==> permutation[e] != permutation[d]
    ensures |index| == |extents|
    ensures forall d :: 0 <= d < |extents| ==> index[permutation[d]] == Digits(number, extents)[d]
  {
    var indices := new nat[|extents|];
    var remainder, stride := number, total;
    ghost var digits := Digits(number, extents);
    assert extents[0..] == extents;
    for d := 0 to |extents|
      invariant stride == Product(extents[d..])
      invariant digits[d..] == Digits(remainder, extents[d..])
      invariant forall e :: 0 <= e < d ==> indices[permutation[e]] == digits[e]
    {
      PeelDigit(remainder, extents, d, stride);
      assert digits[d..][0] == digits[d] && digits[d + 1..] == digits[d..][1..];
      stride := stride / extents[d];
      var digit := remainder / stride;
      indices[permutation[d]] := digit;
      remainder := remainder - digit * stride;
    }
    index := indices[..];
  }

  lemma PositionsDistinct(dims: Dims, d: nat)
    requires IsPermutation(dims) && d < |dims|
    ensures forall e :: 0 <= e < d ==> Position(dims, e) != Position(dims, d)
  {
    forall e | 0 <= e < d ensures Position(dims, e) != Position(dims, d) {
      assert dims[Position(dims, e)].permutation == e;
    }
  }

  /** One step of the digit loop: divide the stride down, take a digit, keep the rest. */
  lemma PeelDigit(x: nat, radices: seq<nat>, d: nat, stride: nat)
    requires Positive(radices) && d < |radices| && stride == Product(radices[d..])
    ensures stride / radices[d] == Product(radices[d + 1..]) > 0
    ensures var s := stride / radices[d];
      0 <= x - (x / s) * s && Digits(x, radices[d..]) == [x / s] + Digits(x - (x / s) * s, radices[d + 1..])
  {
    assert radices[d..][1..] == radices[d + 1..];
    var s := Product(radices[d + 1..]);
    ProductPositive(radices[d + 1..]);
    DivExact(s, radices[d]);
    DivMod(x, s);
  }

  /** Horner's rule; uses the dims in their own order and never looks at the permutation. */
  method ComputeTileShard(indices: seq<nat>, dims: Dims) returns (shard: nat)
    requires |indices| == |dims|
    ensures shard == Value(indices, Shardings(dims))
  {
    if indices == [] {
      return 0;
    }
    ghost var radices := Shardings(dims);
    var index := indices[0];
    assert indices[..1] == [] + [indices[0]] && radices[..1] == [] + [radices[0]];
    ValueAppend([], [], indices[0], radices[0]);
    for dim := 1 to |indices|
      invariant index == Value(indices[..dim], radices[..dim])
    {
      ValueAppend(indices[..dim], radices[..dim], indices[dim], radices[dim]);
      assert indices[..dim + 1] == indices[..dim] + [indices[dim]];
      assert radices[..dim + 1] == radices[..dim] + [radices[dim]];
      index := index * dims[dim].sharding + indices[dim];
    }
    assert indices[..|indices|] == indices && radices[..|radices|] == radices;
    shard := index;
  }

  // ----- tile rectangles

  /** The part of a tile index that belongs to the real dims. */
  function RealIndex(index: seq<nat>, dims: Dims): (cell: seq<nat>)
    requires |index| == |dims|
    ensures |cell| == |RealDims(dims)|
  {
    if dims == [] then []
    else if dims[0].IsReplica() then RealIndex(index[1..], dims[1..])
    else [index[0]] + RealIndex(index[1..], dims[1..])
  }

  /** Which copy of its tile a tile index names. */
  function ReplicaNumber(index: seq<nat>, dims: Dims): nat
    requires |index| == |dims|
  {
    if dims == [] then 0
    else if dims[0].IsReplica() then index[0]
    else ReplicaNumber(index[1..], dims[1..])
  }

  /** The tile index with the given real part and copy number. */
  function Assemble(cell: seq<nat>, replica: nat, dims: Dims): (index: seq<nat>)
    requires |cell| == |RealDims(dims)|
    ensures |index| == |dims|
  {
    if dims == [] then []
    else if dims[0].IsReplica() then [replica] + Assemble(cell, replica, dims[1..])
    else [cell[0]] + Assemble(cell[1..], replica, dims[1..])
  }

  /** The box of elements at one cell of a grid of tiles. */
  function BoxRect(cell: seq<nat>, grid: Dims): Rect
    requires |cell| == |grid| && Positive(Shardings(grid))
  {
    Rect(seq(|grid|, k requires 0 <= k < |grid| => assert Shardings(grid)[k] > 0; grid[k].TileExtent() * cell[k]),
         seq(|grid|, k requires 0 <= k < |grid| => assert Shardings(grid)[k] > 0;
                                                   grid[k].TileExtent() * cell[k] + grid[k].TileExtent() - 1))
  }

  /** The grid of tiles of the array.  An array without real dims is stored as one element of rank 1. */
  function Grid(dims: Dims): Dims {
    if RealDims(dims) == [] then [ShardingDim(1, 1, 0)] else RealDims(dims)
  }

  function GridCell(index: seq<nat>, dims: Dims): (cell: seq<nat>)
    requires |index| == |dims|
    ensures |cell| == |Grid(dims)|
  {
    if RealDims(dims) == [] then [0] else RealIndex(index, dims)
  }

  predicate RealGrid(grid: Dims) {
    SaneDims(grid) && forall k :: 0 <= k < |grid| ==> !grid[k].IsReplica()
  }

  lemma GridIsSane(dims: Dims)
    requires SaneDims(dims)
    ensures RealGrid(Grid(dims)) && Positive(Shardings(Grid(dims)))
  {
    RealDimsAreReal(dims);
  }

  /** The elements that a shard holds. */
  ghost function TileRect(shard: nat, dims: Dims): Rect
    requires SaneDims(dims) && IsPermutation(dims)
  {
    GridIsSane(dims);
    BoxRect(GridCell(TileIndex(shard, dims), dims), Grid(dims))
  }

  /** Sizes of the whole array. */
  function ArrayShape(dims: Dims): seq<nat> {
    Sizes(Grid(dims))
  }

  function Sizes(grid: Dims): seq<nat> {
    seq(|grid|, k requires 0 <= k < |grid| => grid[k].size)
  }

  predicate InArray(p: Point, shape: seq<nat>) {
    |p| == |shape| && forall k :: 0 <= k < |p| ==> 0 <= p[k] < shape[k]
  }

  method ComputeTileBounds(shard: nat, dims: Dims) returns (rect: Rect)
    requires SaneDims(dims) && IsPermutation(dims) && shard < ShardCount(dims)
    ensures rect == TileRect(shard, dims)
  {
    GridIsSane(dims);
    ReplicationFacts(dims);
    if dims == [] || (|dims| == 1 && dims[0].size == 1) {
      assert |dims| == 1 ==> dims[0].Sane();
      assert Grid(dims)[0].size == 1 && |Grid(dims)| == 1;
      OneElementGrid(shard, dims);
      return Rect([0], [0]);
    }
    RealDimsNonEmpty(dims);
    var index := ComputeTileIndex(shard, dims);
    var rank := NumRealDims(dims);
    rect := FillTileRect(index, dims, rank);
  }

  /** The loop of ComputeTileBounds: one rectangle dim for each real dim. */
  method FillTileRect(index: seq<nat>, dims: Dims, rank: nat) returns (rect: Rect)
    requires Positive(Shardings(dims)) && Positive(Shardings(RealDims(dims)))
    requires |index| == |dims| && rank == |RealDims(dims)|
    ensures rect == BoxRect(RealIndex(index, dims), RealDims(dims))
  {
    var lo, hi := new int[rank], new int[rank];
    var rectDim := 0;
    ghost var box := BoxRect(RealIndex(index, dims), RealDims(dims));
    for dim := 0 to |dims|
      invariant rectDim == |RealDims(dims[..dim])| <= rank
      invariant lo[..rectDim] == box.lo[..rectDim] && hi[..rectDim] == box.hi[..rectDim]
    {
      RealPrefix(index, dims, dim);
      if dims[dim].size == 1 && dims[dim].sharding > 1 {
        continue;
      }
      assert Shardings(dims)[dim] > 0;
      var tileExtent := dims[dim].size / dims[dim].sharding;
      var start := tileExtent * index[dim];
      assert box.lo[rectDim] == start && box.hi[rectDim] == start + tileExtent - 1;
      lo[rectDim] := start;
      hi[rectDim] := start + tileExtent - 1;
      rectDim := rectDim + 1;
    }
    assert dims[..|dims|] == dims;
    rect := Rect(lo[..], hi[..]);
  }

  lemma RealDimsNonEmpty(dims: Dims)
    requires SaneDims(dims) && dims != [] && !(|dims| == 1 && dims[0].size == 1)
    ensures RealDims(dims) != []
  {
    ReplicationFacts(dims);
  }

  lemma OneElementGrid(shard: nat, dims: Dims)
    requires SaneDims(dims) && IsPermutation(dims) && shard < ShardCount(dims)
    requires dims == [] || (|dims| == 1 && dims[0].size == 1)
    ensures TileRect(shard, dims) == Rect([0], [0])
  {
    GridIsSane(dims);
    var index := TileIndex(shard, dims);
    TileIndexInBox(shard, dims);
    if RealDims(dims) != [] {
      assert dims[0].Sane() && dims[0].sharding == 1;
      assert index[0] < Shardings(dims)[0];
    }
  }

  /** The next dim of the loop is the next entry of the real dims, or no entry at all. */
  lemma {:induction false} RealPrefix(index: seq<nat>, dims: Dims, d: nat)
    requires |index| == |dims| && d < |dims|
    ensures var k := |RealDims(dims[..d])|;
      if dims[d].IsReplica() then |RealDims(dims[..d + 1])| == k <= |RealDims(dims)|
      else |RealDims(dims[..d + 1])| == k + 1 <= |RealDims(dims)|
           && RealDims(dims)[k] == dims[d] && RealIndex(index, dims)[k] == index[d]
  {
    if d == 0 {
      assert dims[..1] == [dims[0]];
      assert dims[..0] == [];
    } else {
      RealPrefix(index[1..], dims[1..], d - 1);
      assert dims[..d][1..] == dims[1..][..d - 1];
      assert dims[..d + 1][1..] == dims[1..][..d];
    }
  }
}
