/**
 The boxes that scatter-gather announces (MakeTileBox in reshard_scatter_gather.cc).  The loop reads
 the index at the number of the box dim, so a replica dim shifts every dim behind it.
 */
module TileBoxes {
  import opened Arithmetic
  import opened MixedRadix
  import opened Shape
  import opened TiledArray
  import opened TileCoverage

  lemma {:induction false} RealDimsFit(dims: Dims)
    ensures |RealDims(dims)| <= |dims|
  {
    if dims != [] {
      RealDimsFit(dims[1..]);
    }
  }

  /** The box of a tile index, as MakeTileBox fills it: box dim b takes the b-th digit of the index. */
  function TileBox(index: seq<nat>, dims: Dims): Rect
    requires |index| == |dims| && SaneDims(dims)
  {
    RealDimsAreReal(dims);
    RealDimsFit(dims);
    BoxRect(index[..|RealDims(dims)|], RealDims(dims))
  }

  /** MakeTileBox allots one box dim to each real dim of the array. */
  predicate BoxRankMatches(s: Sharding) {
    RealDims(s.dims) != [] && (IsPartiallyReplicated(s) <==> HasReplica(s.dims))
  }

  method MakeTileBoxN(index: seq<nat>, dims: Dims, n: nat) returns (bounds: Rect)
    requires SaneDims(dims) && |index| == |dims| && |RealDims(dims)| <= n
    ensures |bounds.lo| == |bounds.hi| == n
    ensures var m := |RealDims(dims)|;
      bounds.lo[..m] == TileBox(index, dims).lo && bounds.hi[..m] == TileBox(index, dims).hi
  {
    var lo, hi := new int[n], new int[n];
    var boxDim := 0;
    RealDimsAreReal(dims);
    ghost var box := TileBox(index, dims);
    for s := 0 to |dims|
      invariant boxDim == |RealDims(dims[..s])| <= |RealDims(dims)|
      invariant lo[..boxDim] == box.lo[..boxDim] && hi[..boxDim] == box.hi[..boxDim]
    {
      assert dims[s].Sane();
      RealPrefix(index, dims, s);
      TileSizeOfReplica(dims[s]);
      var tileSize := dims[s].size / dims[s].sharding;
      if tileSize > 0 {
        lo[boxDim] := index[boxDim] * tileSize;
        hi[boxDim] := lo[boxDim] + tileSize - 1;
        assert lo[boxDim] == box.lo[boxDim] && hi[boxDim] == box.hi[boxDim];
        boxDim := boxDim + 1;
      }
    }
    assert dims[..|dims|] == dims;
    bounds := Rect(lo[..], hi[..]);
  }

  lemma TileSizeOfReplica(dim: ShardingDim)
    requires dim.Sane()
    ensures dim.size / dim.sharding > 0 <==> !dim.IsReplica()
  {
    if !dim.IsReplica() {
      ExtentTimesSharding(dim);
    } else {
      DivModUnique(1, 0, 1, dim.sharding);
    }
  }

  method MakeTileBox(index: seq<nat>, s: Sharding) returns (bounds: Rect)
    requires WellFormed(s) && |index| == |s.dims|
    ensures BoxRankMatches(s) ==> bounds == TileBox(index, s.dims)
  {
    BoxDimsSuffice(s);
    var numBoxDims: nat;
    if IsPartiallyReplicated(s) {
      numBoxDims := |s.dims| - 1;
    } else {
      numBoxDims := |s.dims|;
    }
    bounds := MakeTileBoxN(index, s.dims, if numBoxDims == 0 then 1 else numBoxDims);
  }

  lemma BoxDimsSuffice(s: Sharding)
    requires WellFormed(s)
    ensures |RealDims(s.dims)| == if HasReplica(s.dims) then |s.dims| - 1 else |s.dims|
    ensures IsPartiallyReplicated(s) ==> HasReplica(s.dims)
  {
    ReplicationFacts(s.dims);
    ReplicationClasses(s);
  }

  // ----- exactly when the boxes are the tiles

  /** The replica dim, if there is one, comes after all real dims. */
  predicate ReplicaLast(dims: Dims) {
    forall i :: 0 <= i < |dims| - 1 ==> !dims[i].IsReplica()
  }

  lemma {:induction false} RealDimsWhenReplicaLast(index: seq<nat>, dims: Dims)
    requires ReplicaLast(dims) && |index| == |dims|
    ensures var n := |RealDims(dims)|;
      |dims| - 1 <= n <= |dims| && RealDims(dims) == dims[..n] && RealIndex(index, dims) == index[..n]
    ensures |RealDims(dims)| == |dims| - 1 <==> dims != [] && dims[|dims| - 1].IsReplica()
  {
    if |dims| > 1 {
      assert !dims[0].IsReplica();
      forall i | 0 <= i < |dims[1..]| - 1 ensures !dims[1..][i].IsReplica() { assert dims[1..][i] == dims[i + 1]; }
      RealDimsWhenReplicaLast(index[1..], dims[1..]);
      assert dims[1..][|dims| - 2] == dims[|dims| - 1];
      var n := |RealDims(dims)|;
      assert dims[..n] == [dims[0]] + dims[1..][..n - 1] && index[..n] == [index[0]] + index[1..][..n - 1];
    } else if |dims| == 1 {
      assert dims[1..] == [] && dims == [dims[0]] && index == [index[0]];
    }
  }

  lemma BoxIsTile(shard: nat, dims: Dims)
    requires SaneDims(dims) && IsPermutation(dims) && RealDims(dims) != [] && ReplicaLast(dims)
    ensures TileBox(TileIndex(shard, dims), dims) == TileRect(shard, dims)
  {
    RealDimsWhenReplicaLast(TileIndex(shard, dims), dims);
  }

  /** With a replica dim at position q, real dim number q is the dim behind it. */
  lemma {:induction false} DimBehindReplica(index: seq<nat>, dims: Dims, q: nat)
    requires SaneDims(dims) && |index| == |dims| && q + 1 < |dims| && dims[q].IsReplica()
    ensures |RealDims(dims)| > q && RealDims(dims)[q] == dims[q + 1] && RealIndex(index, dims)[q] == index[q + 1]
  {
    if q > 0 {
      assert !dims[0].IsReplica();
      DimBehindReplica(index[1..], dims[1..], q - 1);
    } else {
      assert !dims[1].IsReplica() && dims[1..][0] == dims[1];
    }
  }

  function OneAt(n: nat, q: nat): (index: seq<nat>)
    ensures |index| == n
  {
    seq(n, k requires 0 <= k => if k == q then 1 else 0)
  }

  /** The second copy of the first tile gets a box that starts outside the tile. */
  lemma BoxMisplaced(dims: Dims, q: nat) returns (shard: nat, p: Point)
    requires SaneDims(dims) && IsPermutation(dims) && q + 1 < |dims| && dims[q].IsReplica()
    ensures shard < ShardCount(dims)
    ensures InRect(TileBox(TileIndex(shard, dims), dims), p) && !InRect(TileRect(shard, dims), p)
  {
    var index := OneAt(|dims|, q);
    assert InBox(index, Shardings(dims)) by {
      assert forall k :: 0 <= k < |dims| ==> dims[k].Sane();
    }
    ShardAtInRange(index, dims);
    shard := ShardAt(index, dims);
    DimBehindReplica(index, dims, q);
    var dim := dims[q + 1];
    assert dim.Sane() && !dim.IsReplica();
    ExtentTimesSharding(dim);
    GridIsSane(dims);
    p := TileBox(index, dims).lo;
    BoxHoldsCorner(index, dims);
    assert p[q] == dim.TileExtent() * index[q] && TileRect(shard, dims).hi[q] == dim.TileExtent() - 1;
  }

  lemma BoxHoldsCorner(index: seq<nat>, dims: Dims)
    requires SaneDims(dims) && |index| == |dims|
    ensures InRect(TileBox(index, dims), TileBox(index, dims).lo)
  {
    RealDimsAreReal(dims);
    var grid := RealDims(dims);
    forall k | 0 <= k < |grid| ensures TileBox(index, dims).lo[k] <= TileBox(index, dims).hi[k] {
      assert grid[k].Sane();
      ExtentTimesSharding(grid[k]);
    }
  }

  /** The boxes of all shards are their tiles exactly when no dim comes behind the replica dim. */
  lemma BoxIsTileIff(dims: Dims)
    requires SaneDims(dims) && IsPermutation(dims) && RealDims(dims) != []
    ensures (forall shard: nat :: shard < ShardCount(dims) ==>
               TileBox(TileIndex(shard, dims), dims) == TileRect(shard, dims))
            <==> ReplicaLast(dims)
  {
    if ReplicaLast(dims) {
      forall shard: nat ensures TileBox(TileIndex(shard, dims), dims) == TileRect(shard, dims) {
        BoxIsTile(shard, dims);
      }
    } else {
      var q :| 0 <= q < |dims| - 1 && dims[q].IsReplica();
      var shard, p := BoxMisplaced(dims, q);
    }
  }

  /** Two copies of an array of eight elements in four tiles, with the replica dim in front. */
  const REPLICA_FIRST := [ShardingDim(1, 2, 0), ShardingDim(8, 4, 1)]

  lemma ReplicaFirstIsSane()
    ensures SaneDims(REPLICA_FIRST) && IsPermutation(REPLICA_FIRST)
    ensures Radices(REPLICA_FIRST) == Shardings(REPLICA_FIRST) == [2, 4]
    ensures DigitsAt([0, 1], REPLICA_FIRST) == [0, 1]
  {
    var dims := REPLICA_FIRST;
    assert dims[0].Sane() && dims[1].Sane();
    assert HasPosition(dims, 0) by { assert dims[0].permutation == 0; }
    assert HasPosition(dims, 1) by { assert dims[1].permutation == 1; }
    PositionOfPermutation(dims, 0);
    PositionOfPermutation(dims, 1);
  }

  lemma ReplicaFirstIndex()
    ensures SaneDims(REPLICA_FIRST) && IsPermutation(REPLICA_FIRST) && TileIndex(1, REPLICA_FIRST) == [0, 1]
  {
    ReplicaFirstIsSane();
    assert Value([0, 1], [2, 4]) == 1 by {
      assert [2, 4][1..] == [4] && [0, 1][1..] == [1] && [1][1..] == [] && [4][1..] == [];
      assert Value([1], [4]) == 1;
    }
    ShardAtInRange([0, 1], REPLICA_FIRST);
  }

  /** Its shard 1 should hold elements 2 and 3; the box names elements 0 and 1. */
  lemma ReplicaFirstMisplaces()
    ensures SaneDims(REPLICA_FIRST) && IsPermutation(REPLICA_FIRST)
    ensures TileBox(TileIndex(1, REPLICA_FIRST), REPLICA_FIRST) == Rect([0], [1])
    ensures TileRect(1, REPLICA_FIRST) == Rect([2], [3])
  {
    ReplicaFirstIndex();
    var dims, index := REPLICA_FIRST, [0, 1];
    assert dims[1..] == [dims[1]] && dims[1..][1..] == [] && index[1..] == [1];
    assert RealDims(dims) == [dims[1]] && RealIndex(index, dims) == [1];
    assert TileBox(index, dims).lo == [0] && TileBox(index, dims).hi == [1];
    assert TileRect(1, dims).lo == [2] && TileRect(1, dims).hi == [3];
  }
}
