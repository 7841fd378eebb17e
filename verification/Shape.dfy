/** Sharded shapes: how an array is divided among a list of devices (shape.h, mesh.h). */
module Shape {
  import opened Arithmetic
  import opened MixedRadix

  datatype Option<+T> = None | Some(value: T)

  /** A contiguous range of global device ids. */
  datatype DeviceList = DeviceList(start: int, size: nat) {

    predicate Contains(device: int) {
      start <= device < start + size
    }

    /** Device number start + s holds shard s. */
    predicate Places(device: int, shard: nat) {
      shard < size && device == start + shard
    }

    function ShardId(device: int): (shard: Option<nat>)
      ensures shard.Some? <==> Contains(device)
      ensures shard.Some? ==> shard.value < size && start + shard.value == device
    {
      if Contains(device) then Some(device - start) else None
    }
  }

  datatype ShardingDim = ShardingDim(size: nat, sharding: nat, permutation: nat) {

    /** A dim that only says how many copies of the array exist: not part of the array's shape. */
    predicate IsReplica() {
      size == 1 && sharding > 1
    }

    predicate Sane() {
      size > 0 && sharding > 0 && (IsReplica() || size % sharding == 0)
    }

    /** Extent of one tile along this dim. */
    function TileExtent(): nat
      requires sharding > 0
    {
      size / sharding
    }
  }

  type Dims = seq<ShardingDim>

  datatype Sharding = Sharding(dims: Dims, devices: DeviceList)

  function Shardings(dims: Dims): seq<nat> {
    seq(|dims|, i requires 0 <= i < |dims| => dims[i].sharding)
  }

  /** One device for each tile index. */
  function ShardCount(dims: Dims): nat {
    Product(Shardings(dims))
  }

  /** Every dim is well formed by itself and at most one of them is a replica dim. */
  predicate SaneDims(dims: Dims) {
    && (forall i :: 0 <= i < |dims| ==> dims[i].Sane())
    && (forall i, j :: 0 <= i < j < |dims| && dims[i].IsReplica() ==> !dims[j].IsReplica())
  }

  predicate IsPermutation(dims: Dims) {
    && (forall i :: 0 <= i < |dims| ==> dims[i].permutation < |dims|)
    && (forall i, j :: 0 <= i < j < |dims| ==> dims[i].permutation != dims[j].permutation)
    && (forall p :: 0 <= p < |dims| ==> HasPosition(dims, p))
  }

  predicate HasPosition(dims: Dims, p: nat) {
    exists i :: 0 <= i < |dims| && dims[i].permutation == p
  }

  predicate WellFormed(s: Sharding) {
    SaneDims(s.dims) && IsPermutation(s.dims) && s.devices.size == ShardCount(s.dims)
  }

  // ----- the array behind the sharding

  /** The dims that belong to the array itself. */
  function RealDims(dims: Dims): (kept: Dims)
    ensures |kept| <= |dims|
  {
    if dims == [] then []
    else if dims[0].IsReplica() then RealDims(dims[1..])
    else [dims[0]] + RealDims(dims[1..])
  }

  /** How many copies of each tile exist. */
  function Replication(dims: Dims): nat {
    if dims == [] then 1
    else if dims[0].IsReplica() then dims[0].sharding
    else Replication(dims[1..])
  }

  predicate HasReplica(dims: Dims) {
    exists i :: 0 <= i < |dims| && dims[i].IsReplica()
  }

  lemma {:induction false} RealDimsAreReal(dims: Dims)
    requires SaneDims(dims)
    ensures SaneDims(RealDims(dims))
    ensures forall k :: 0 <= k < |RealDims(dims)| ==> !RealDims(dims)[k].IsReplica()
  {
    if dims != [] {
      RealDimsAreReal(dims[1..]);
    }
  }

  lemma {:induction false} ReplicationFacts(dims: Dims)
    requires SaneDims(dims)
    ensures Replication(dims) > 0
    ensures Replication(dims) > 1 <==> HasReplica(dims)
    ensures |RealDims(dims)| == if HasReplica(dims) then |dims| - 1 else |dims|
    ensures !HasReplica(dims) ==> RealDims(dims) == dims
  {
    if dims != [] {
      ReplicationFacts(dims[1..]);
      assert forall i :: 1 <= i < |dims| ==> dims[i] == dims[1..][i - 1];
      if dims[0].IsReplica() {
        assert !HasReplica(dims[1..]);
      } else if HasReplica(dims) {
        var i :| 0 <= i < |dims| && dims[i].IsReplica();
        assert dims[1..][i - 1].IsReplica();
      } else {
        assert forall i :: 0 <= i < |dims[1..]| ==> dims[1..][i] == dims[i + 1];
        assert [dims[0]] + dims[1..] == dims;
      }
    }
  }

  // ----- element and shard counts (accumulator loops of shape.h)

  /** Sharding of each dim that has more than one element; 1 elsewhere. */
  function SplitFactors(dims: Dims): seq<nat> {
    seq(|dims|, i requires 0 <= i < |dims| => if dims[i].size > 1 then dims[i].sharding else 1)
  }

  function LocalExtents(dims: Dims): seq<nat>
    requires Positive(Shardings(dims))
  {
    seq(|dims|, i requires 0 <= i < |dims| =>
      assert Shardings(dims)[i] > 0;
      if dims[i].size > 1 then dims[i].TileExtent() else 1)
  }

  lemma ProductAppend(factors: seq<nat>, factor: nat)
    ensures Product(factors + [factor]) == Product(factors) * factor
  {
    ValueAppend(seq(|factors|, i => 0), factors, 0, factor);
  }

  lemma SanePositive(dims: Dims)
    requires SaneDims(dims)
    ensures Positive(Shardings(dims))
  {
  }

  method TotalSharding(dims: Dims) returns (sharding: nat)
    ensures sharding == Product(SplitFactors(dims))
  {
    sharding := 1;
    for i := 0 to |dims|
      invariant sharding == Product(SplitFactors(dims[..i]))
    {
      ProductAppend(SplitFactors(dims[..i]), SplitFactors(dims)[i]);
      assert SplitFactors(dims[..i + 1]) == SplitFactors(dims[..i]) + [SplitFactors(dims)[i]];
      if dims[i].size > 1 {
        sharding := sharding * dims[i].sharding;
      }
    }
    assert dims[..|dims|] == dims;
  }

  method NumRealDims(dims: Dims) returns (n: nat)
    requires SaneDims(dims)
    ensures n == |RealDims(dims)|
  {
    ReplicationFacts(dims);
    for i := 0 to |dims|
      invariant forall j :: 0 <= j < i ==> !dims[j].IsReplica()
    {
      assert dims[i].Sane();
      if dims[i].size < dims[i].sharding {
        assert dims[i].IsReplica();
        return |dims| - 1;
      }
    }
    return |dims|;
  }

  method NumLocalElements(dims: Dims) returns (elements: nat)
    requires SaneDims(dims)
    ensures Positive(Shardings(dims)) && elements == Product(LocalExtents(dims))
  {
    SanePositive(dims);
    elements := 1;
    for i := 0 to |dims|
      invariant SaneDims(dims[..i]) && Positive(Shardings(dims[..i]))
      invariant elements == Product(LocalExtents(dims[..i]))
    {
      ProductAppend(LocalExtents(dims[..i]), LocalExtents(dims)[i]);
      assert LocalExtents(dims[..i + 1]) == LocalExtents(dims[..i]) + [LocalExtents(dims)[i]];
      if dims[i].size > 1 {
        elements := elements * (dims[i].size / dims[i].sharding);
      }
    }
    assert dims[..|dims|] == dims;
  }

  /** Multiplies by the size before dividing by the sharding, and still loses nothing. */
  method ShardElements(dims: Dims) returns (elements: nat)
    requires SaneDims(dims)
    ensures Positive(Shardings(dims)) && elements == Product(LocalExtents(dims))
  {
    SanePositive(dims);
    elements := 1;
    for i := 0 to |dims|
      invariant SaneDims(dims[..i]) && Positive(Shardings(dims[..i]))
      invariant elements == Product(LocalExtents(dims[..i]))
    {
      ProductAppend(LocalExtents(dims[..i]), LocalExtents(dims)[i]);
      assert LocalExtents(dims[..i + 1]) == LocalExtents(dims[..i]) + [LocalExtents(dims)[i]];
      if dims[i].size > 1 {
        DivideAfterMultiply(elements, dims[i]);
        elements := elements * dims[i].size;
        elements := elements / dims[i].sharding;
      }
    }
    assert dims[..|dims|] == dims;
  }

  lemma DivideAfterMultiply(a: nat, dim: ShardingDim)
    requires dim.Sane() && !dim.IsReplica()
    ensures (a * dim.size) / dim.sharding == a * dim.TileExtent()
  {
    DivMod(dim.size, dim.sharding);
    MulSwap(a, dim.TileExtent(), dim.sharding);
    assert a * dim.size == (a * dim.TileExtent()) * dim.sharding;
    DivExact(a * dim.TileExtent(), dim.sharding);
  }

  // ----- replication predicates

  function TotalShards(dims: Dims): nat {
    Product(SplitFactors(dims))
  }

  predicate IsReplicated(s: Sharding) {
    TotalShards(s.dims) == 1
  }

  predicate FullySharded(s: Sharding) {
    TotalShards(s.dims) == s.devices.size
  }

  predicate IsPartiallyReplicated(s: Sharding) {
    1 < TotalShards(s.dims) < s.devices.size
  }

  /** Devices = tiles times copies of each tile. */
  lemma {:induction false} ShardsTimesReplicas(dims: Dims)
    requires SaneDims(dims)
    ensures ShardCount(dims) == TotalShards(dims) * Replication(dims)
    ensures TotalShards(dims) > 0
  {
    if dims != [] {
      var rest := dims[1..];
      ShardsTimesReplicas(rest);
      assert Shardings(dims)[1..] == Shardings(rest);
      assert SplitFactors(dims)[1..] == SplitFactors(rest);
      assert dims[0].Sane();
      if dims[0].IsReplica() {
        ReplicationFacts(rest);
        assert !HasReplica(rest) && Replication(rest) == 1;
      } else {
        if dims[0].size == 1 { assert dims[0].sharding == 1; }
        MulSwap(TotalShards(rest), Replication(rest), dims[0].sharding);
        MulSwap(dims[0].sharding, TotalShards(rest), Replication(rest));
        MulPositive(dims[0].sharding, TotalShards(rest));
      }
    }
  }

  /** The three predicates, in terms of the dims: a replica dim is exactly what full sharding excludes. */
  lemma ReplicationClasses(s: Sharding)
    requires WellFormed(s)
    ensures FullySharded(s) <==> !HasReplica(s.dims)
    ensures IsPartiallyReplicated(s) <==> HasReplica(s.dims) && !IsReplicated(s)
  {
    ShardsTimesReplicas(s.dims);
    ReplicationFacts(s.dims);
    if HasReplica(s.dims) {
      MulMonotone(2, Replication(s.dims), TotalShards(s.dims));
    }
  }

  /** A replicated array keeps every real dim whole. */
  lemma {:induction false} ReplicatedDimsAreWhole(dims: Dims)
    requires SaneDims(dims)
    ensures TotalShards(dims) == 1 <==> forall i :: 0 <= i < |dims| && !dims[i].IsReplica() ==> dims[i].sharding == 1
  {
    if dims != [] {
      var rest := dims[1..];
      ReplicatedDimsAreWhole(rest);
      ShardsTimesReplicas(rest);
      assert SplitFactors(dims)[1..] == SplitFactors(rest);
      assert dims[0].Sane();
      assert dims == [dims[0]] + rest;
      var f := SplitFactors(dims)[0];
      if f >= 2 { MulMonotone(2, f, TotalShards(rest)); }
      if dims[0].size == 1 && !dims[0].IsReplica() { assert dims[0].sharding == 1; }
      assert TotalShards(dims) == 1 <==> f == 1 && TotalShards(rest) == 1 by {
        if f == 1 { assert f * TotalShards(rest) == TotalShards(rest); }
      }
    }
  }
}
