/** How the tiles of all shards cover the array. */
module TileCoverage {
  import opened Arithmetic
  import opened MixedRadix
  import opened Shape
  import opened TiledArray

  /** The grid cell that an element falls in. */
  function Cell(p: Point, grid: Dims): (cell: seq<nat>)
    requires RealGrid(grid) && InArray(p, Sizes(grid))
    ensures |cell| == |grid|
  {
    seq(|grid|, k requires 0 <= k < |grid| =>
      CellCoordinate(p[k], grid[k]);
      p[k] / grid[k].TileExtent())
  }

  lemma CellCoordinate(x: int, dim: ShardingDim)
    requires dim.Sane() && !dim.IsReplica() && 0 <= x < dim.size
    ensures dim.TileExtent() > 0 && 0 <= x / dim.TileExtent() < dim.sharding
  {
    ExtentTimesSharding(dim);
    DivBound(x, dim.sharding, dim.TileExtent());
  }

  lemma CellInBox(p: Point, grid: Dims)
    requires RealGrid(grid) && InArray(p, Sizes(grid))
    ensures InBox(Cell(p, grid), Shardings(grid))
  {
    forall k | 0 <= k < |grid| ensures Cell(p, grid)[k] < Shardings(grid)[k] {
      CellCoordinate(p[k], grid[k]);
    }
  }

  lemma ExtentTimesSharding(dim: ShardingDim)
    requires dim.Sane() && !dim.IsReplica()
    ensures dim.TileExtent() > 0 && dim.sharding * dim.TileExtent() == dim.size
  {
    DivMod(dim.size, dim.sharding);
  }

  lemma CellSlab(x: int, extent: int, c: int)
    requires extent > 0 && x >= 0
    ensures extent * c <= x <= extent * c + extent - 1 <==> c == x / extent
  {
    DivMod(x, extent);
    if extent * c <= x <= extent * c + extent - 1 {
      DivModUnique(x, c, x - extent * c, extent);
    }
  }

  /** A box of the grid holds exactly the elements that fall in its cell. */
  lemma BoxHoldsCell(p: Point, cell: seq<nat>, grid: Dims)
    requires RealGrid(grid) && InArray(p, Sizes(grid))
    requires |cell| == |grid| && Positive(Shardings(grid))
    ensures InRect(BoxRect(cell, grid), p) <==> cell == Cell(p, grid)
  {
    forall k | 0 <= k < |grid|
      ensures grid[k].sharding > 0
      ensures grid[k].TileExtent() * cell[k] <= p[k] <= grid[k].TileExtent() * cell[k] + grid[k].TileExtent() - 1
              <==> cell[k] == Cell(p, grid)[k]
    {
      ExtentTimesSharding(grid[k]);
      CellSlab(p[k], grid[k].TileExtent(), cell[k]);
    }
  }

  /** A box at a valid cell stays inside the array. */
  lemma BoxInArray(p: Point, cell: seq<nat>, grid: Dims)
    requires RealGrid(grid)
    requires InBox(cell, Shardings(grid)) && Positive(Shardings(grid))
    requires InRect(BoxRect(cell, grid), p)
    ensures InArray(p, Sizes(grid))
  {
    forall k | 0 <= k < |grid| ensures 0 <= p[k] < grid[k].size {
      ExtentTimesSharding(grid[k]);
      assert cell[k] < Shardings(grid)[k];
      MulMonotone(cell[k] + 1, grid[k].sharding, grid[k].TileExtent());
      MulDistributes(cell[k], 1, grid[k].TileExtent());
      MulMonotone(0, cell[k], grid[k].TileExtent());
      assert BoxRect(cell, grid).lo[k] <= p[k] <= BoxRect(cell, grid).hi[k];
    }
  }

  // ----- tile index = cell of the real dims + copy number

  lemma BoxTail(digits: seq<nat>, radices: seq<nat>)
    requires digits != [] && InBox(digits, radices)
    ensures digits[0] < radices[0] && InBox(digits[1..], radices[1..])
  {
    assert forall k :: 0 <= k < |digits| - 1 ==> digits[1..][k] == digits[k + 1] && radices[1..][k] == radices[k + 1];
  }

  lemma {:induction false} AssembleParts(index: seq<nat>, dims: Dims)
    requires SaneDims(dims) && InBox(index, Shardings(dims))
    ensures InBox(RealIndex(index, dims), Shardings(RealDims(dims)))
    ensures ReplicaNumber(index, dims) < Replication(dims)
    ensures Assemble(RealIndex(index, dims), ReplicaNumber(index, dims), dims) == index
  {
    if dims != [] {
      var rest := dims[1..];
      assert Shardings(dims) == [dims[0].sharding] + Shardings(rest);
      BoxTail(index, Shardings(dims));
      AssembleParts(index[1..], rest);
      assert index == [index[0]] + index[1..];
      if dims[0].IsReplica() {
        ReplicationFacts(rest);
        NoReplicaToAssemble(RealIndex(index[1..], rest), 0, index[0], rest);
      } else {
        assert Shardings(RealDims(dims)) == [dims[0].sharding] + Shardings(RealDims(rest));
      }
    }
  }

  lemma {:induction false} NoReplicaToAssemble(cell: seq<nat>, r: nat, s: nat, dims: Dims)
    requires !HasReplica(dims) && |cell| == |RealDims(dims)|
    ensures Assemble(cell, r, dims) == Assemble(cell, s, dims)
    ensures forall index :: |index| == |dims| ==> ReplicaNumber(index, dims) == 0
  {
    if dims != [] {
      assert !dims[0].IsReplica();
      forall i | 0 <= i < |dims[1..]| ensures !dims[1..][i].IsReplica() {
        assert dims[1..][i] == dims[i + 1];
      }
      NoReplicaToAssemble(cell[1..], r, s, dims[1..]);
    }
  }

  lemma {:induction false} PartsOfAssembled(cell: seq<nat>, replica: nat, dims: Dims)
    requires SaneDims(dims) && InBox(cell, Shardings(RealDims(dims))) && replica < Replication(dims)
    ensures InBox(Assemble(cell, replica, dims), Shardings(dims))
    ensures RealIndex(Assemble(cell, replica, dims), dims) == cell
    ensures ReplicaNumber(Assemble(cell, replica, dims), dims) == replica
  {
    if dims != [] {
      var rest := dims[1..];
      assert Shardings(dims) == [dims[0].sharding] + Shardings(rest);
      var index := Assemble(cell, replica, dims);
      if dims[0].IsReplica() {
        ReplicationFacts(rest);
        NoReplicaToAssemble(cell, 0, replica, rest);
        PartsOfAssembled(cell, 0, rest);
        assert index[1..] == Assemble(cell, 0, rest);
      } else {
        assert Shardings(RealDims(dims)) == [dims[0].sharding] + Shardings(RealDims(rest));
        assert cell[0] < Shardings(RealDims(dims))[0];
        assert Shardings(RealDims(dims))[1..] == Shardings(RealDims(rest));
        PartsOfAssembled(cell[1..], replica, rest);
        assert index[1..] == Assemble(cell[1..], replica, rest);
        assert cell == [cell[0]] + cell[1..];
      }
    }
  }

  // ----- who holds an element

  /** The copy number of a shard. */
  ghost function Replica(shard: nat, dims: Dims): nat
    requires SaneDims(dims) && IsPermutation(dims)
  {
    ReplicaNumber(TileIndex(shard, dims), dims)
  }

  ghost function RealCell(p: Point, dims: Dims): (cell: seq<nat>)
    requires SaneDims(dims) && InArray(p, ArrayShape(dims))
    ensures InBox(cell, Shardings(RealDims(dims)))
  {
    GridIsSane(dims);
    if RealDims(dims) == [] then [] else CellInBox(p, RealDims(dims)); Cell(p, RealDims(dims))
  }

  /** The shard whose copy number is `replica` among those that hold element p. */
  ghost function Holder(p: Point, replica: nat, dims: Dims): nat
    requires SaneDims(dims) && IsPermutation(dims) && InArray(p, ArrayShape(dims))
  {
    ShardAt(Assemble(RealCell(p, dims), replica, dims), dims)
  }

  /** A tile holds p exactly when its real tile index is the cell of p. */
  lemma TileHolds(shard: nat, p: Point, dims: Dims)
    requires SaneDims(dims) && IsPermutation(dims) && InArray(p, ArrayShape(dims))
    ensures InRect(TileRect(shard, dims), p) <==> RealIndex(TileIndex(shard, dims), dims) == RealCell(p, dims)
  {
    GridIsSane(dims);
    var cell := GridCell(TileIndex(shard, dims), dims);
    BoxHoldsCell(p, cell, Grid(dims));
    if RealDims(dims) == [] {
      assert Cell(p, Grid(dims)) == [0];
    }
  }

  /** A tile lies inside the array. */
  lemma TileInArray(shard: nat, p: Point, dims: Dims)
    requires SaneDims(dims) && IsPermutation(dims) && shard < ShardCount(dims)
    requires InRect(TileRect(shard, dims), p)
    ensures InArray(p, ArrayShape(dims))
  {
    GridIsSane(dims);
    TileIndexInBox(shard, dims);
    AssembleParts(TileIndex(shard, dims), dims);
    var cell := GridCell(TileIndex(shard, dims), dims);
    if RealDims(dims) == [] {
      assert Shardings(Grid(dims)) == [1];
    }
    BoxInArray(p, cell, Grid(dims));
  }

  /** A shard holds p exactly when it is the holder with that shard's own copy number. */
  lemma HolderUnique(shard: nat, p: Point, dims: Dims)
    requires SaneDims(dims) && IsPermutation(dims) && shard < ShardCount(dims)
    requires InArray(p, ArrayShape(dims))
    ensures Replica(shard, dims) < Replication(dims)
    ensures InRect(TileRect(shard, dims), p) <==> shard == Holder(p, Replica(shard, dims), dims)
  {
    var index := TileIndex(shard, dims);
    TileIndexInBox(shard, dims);
    AssembleParts(index, dims);
    TileHolds(shard, p, dims);
    if shard == Holder(p, Replica(shard, dims), dims) {
      HolderHolds(p, Replica(shard, dims), dims);
    }
  }

  /** For each copy number there is a holder. */
  lemma HolderHolds(p: Point, replica: nat, dims: Dims)
    requires SaneDims(dims) && IsPermutation(dims) && InArray(p, ArrayShape(dims))
    requires replica < Replication(dims)
    ensures Holder(p, replica, dims) < ShardCount(dims)
    ensures InRect(TileRect(Holder(p, replica, dims), dims), p)
    ensures Replica(Holder(p, replica, dims), dims) == replica
  {
    var index := Assemble(RealCell(p, dims), replica, dims);
    PartsOfAssembled(RealCell(p, dims), replica, dims);
    ShardAtInRange(index, dims);
    TileHolds(ShardAt(index, dims), p, dims);
  }

  /** Every element of the array is in exactly as many tiles as there are copies. */
  lemma TileCoverageCount(p: Point, dims: Dims)
    requires SaneDims(dims) && IsPermutation(dims) && InArray(p, ArrayShape(dims))
    ensures |set s | 0 <= s < ShardCount(dims) && InRect(TileRect(s, dims), p)| == Replication(dims)
  {
    var holders := seq(Replication(dims), r requires 0 <= r => Holder(p, r, dims));
    var covering := set s | 0 <= s < ShardCount(dims) && InRect(TileRect(s, dims), p);
    forall r | 0 <= r < Replication(dims)
      ensures holders[r] in covering && Replica(holders[r], dims) == r
    {
      HolderHolds(p, r, dims);
    }
    forall s | s in covering ensures s in holders {
      HolderUnique(s, p, dims);
      assert s == holders[Replica(s, dims)];
    }
    assert covering == Elements(holders);
    DistinctSize(holders);
  }

  ghost function Elements(s: seq<nat>): set<nat> {
    set x | x in s
  }

  lemma {:induction false} DistinctSize(s: seq<nat>)
    requires forall i, j :: 0 <= i < j < |s| ==> s[i] != s[j]
    ensures |Elements(s)| == |s|
  {
    if s == [] {
      assert Elements(s) == {};
    } else {
      DistinctSize(s[1..]);
      assert Elements(s) == {s[0]} + Elements(s[1..]);
    }
  }

  // ----- volume

  function Volume(r: Rect): int
    requires |r.lo| == |r.hi|
    decreases |r.lo|
  {
    if r.lo == [] then 1 else (r.hi[0] - r.lo[0] + 1) * Volume(Rect(r.lo[1..], r.hi[1..]))
  }

  method ComputeRealmShapeSize(rect: Rect) returns (size: int)
    requires |rect.lo| == |rect.hi|
    ensures size == Volume(rect)
  {
    size := 1;
    var n := |rect.lo|;
    for i := 0 to n
      invariant size * Volume(Rect(rect.lo[i..], rect.hi[i..])) == Volume(rect)
    {
      assert rect.lo[i..][1..] == rect.lo[i + 1..] && rect.hi[i..][1..] == rect.hi[i + 1..];
      MulSwap(size, rect.hi[i] - rect.lo[i] + 1, Volume(Rect(rect.lo[i + 1..], rect.hi[i + 1..])));
      size := size * (rect.hi[i] - rect.lo[i] + 1);
    }
  }

  function Extents(grid: Dims): seq<nat>
    requires Positive(Shardings(grid))
  {
    seq(|grid|, k requires 0 <= k < |grid| => assert Shardings(grid)[k] > 0; grid[k].TileExtent())
  }

  lemma {:induction false} BoxVolume(cell: seq<nat>, grid: Dims)
    requires |cell| == |grid| && Positive(Shardings(grid))
    ensures Volume(BoxRect(cell, grid)) == Product(Extents(grid))
  {
    if grid != [] {
      var box := BoxRect(cell, grid);
      assert Positive(Shardings(grid[1..])) by {
        assert forall k :: 0 <= k < |grid[1..]| ==> Shardings(grid[1..])[k] == Shardings(grid)[k + 1];
      }
      BoxVolume(cell[1..], grid[1..]);
      var tail := BoxRect(cell[1..], grid[1..]);
      assert box.lo[1..] == tail.lo && box.hi[1..] == tail.hi;
      assert Extents(grid)[1..] == Extents(grid[1..]);
    }
  }

  lemma {:induction false} LocalExtentsOfRealDims(dims: Dims)
    requires SaneDims(dims) && Positive(Shardings(dims)) && Positive(Shardings(RealDims(dims)))
    ensures Product(LocalExtents(dims)) == Product(Extents(RealDims(dims)))
  {
    if dims != [] {
      var rest := dims[1..];
      SanePositive(rest);
      RealDimsAreReal(rest);
      SanePositive(RealDims(rest));
      LocalExtentsOfRealDims(rest);
      assert LocalExtents(dims)[1..] == LocalExtents(rest);
      assert dims[0].Sane();
      if !dims[0].IsReplica() {
        assert Extents(RealDims(dims))[1..] == Extents(RealDims(rest));
        if dims[0].size == 1 { assert dims[0].sharding == 1; }
      }
    }
  }

  /** Every tile has the number of elements that both counting loops of shape.h report. */
  lemma TileVolume(shard: nat, dims: Dims)
    requires SaneDims(dims) && IsPermutation(dims)
    ensures Positive(Shardings(dims)) && |TileRect(shard, dims).lo| == |TileRect(shard, dims).hi|
    ensures Volume(TileRect(shard, dims)) == Product(LocalExtents(dims))
  {
    GridIsSane(dims);
    BoxVolume(GridCell(TileIndex(shard, dims), dims), Grid(dims));
    RealDimsAreReal(dims);
    SanePositive(RealDims(dims));
    LocalExtentsOfRealDims(dims);
    if RealDims(dims) == [] {
      assert Extents(Grid(dims)) == [1] && Extents(RealDims(dims)) == [];
      assert Product([1]) == 1 * Product([]);
    }
  }
}
