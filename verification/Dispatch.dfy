/** Choosing a reshard strategy from the two shardings (reshard.cc). */
module Dispatch {
  import opened Shape
  import opened TiledArray
  import opened TileBoxes
  import opened Delivery
  import opened ScatterGather
  import opened ScatterGatherPlan

  datatype Strategy =
    | GatherTiles
    | ScatterTiles
    | FullyReplicated
    | PartialToReplicated
    | ReplicationChange
    | PointToPoint
    | AlongDim(dim: nat)
    | Unsupported

  /** Dim j is the only one on which the shardings differ. */
  predicate OnlyDifference(j: nat, src: Dims, dst: Dims) {
    |src| == |dst| && j < |src| && src[j] != dst[j] && forall i :: 0 <= i < |src| && i != j ==> src[i] == dst[i]
  }

  method DetermineScatterGather(src: Dims, dst: Dims) returns (strategy: Strategy)
    requires |src| == |dst|
    ensures strategy.AlongDim? || strategy.Unsupported?
    ensures forall j: nat :: strategy == AlongDim(j) <==> OnlyDifference(j, src, dst)
  {
    var numDifferent := 0;
    var lastDifferent := -1;
    ghost var firstDifferent := -1;
    for dim := 0 to |src|
      invariant -1 <= firstDifferent <= lastDifferent < dim
      invariant numDifferent == 0 <==> lastDifferent == -1
      invariant numDifferent == 1 <==> firstDifferent == lastDifferent && lastDifferent >= 0
      invariant firstDifferent >= 0 <==> lastDifferent >= 0
      invariant lastDifferent >= 0 ==>
                  src[lastDifferent] != dst[lastDifferent] && src[firstDifferent] != dst[firstDifferent]
      invariant forall i :: 0 <= i < dim && src[i] != dst[i] ==> firstDifferent <= i <= lastDifferent
    {
      if src[dim] != dst[dim] {
        numDifferent := numDifferent + 1;
        lastDifferent := dim;
        firstDifferent := if firstDifferent == -1 then dim else firstDifferent;
      }
    }
    strategy := if numDifferent == 1 then AlongDim(lastDifferent) else Unsupported;
    assert numDifferent == 1 ==> OnlyDifference(lastDifferent, src, dst);
    assert numDifferent > 1 ==> src[firstDifferent] != dst[firstDifferent] && firstDifferent < lastDifferent;
  }

  /** The order in which the cases are tried. */
  ghost predicate Chooses(strategy: Strategy, src: Sharding, dst: Sharding) {
    if FullySharded(src) && IsReplicated(dst) then strategy == GatherTiles
    else if FullySharded(dst) && IsReplicated(src) then strategy == ScatterTiles
    else if IsReplicated(src) && IsReplicated(dst) then strategy == FullyReplicated
    else if IsPartiallyReplicated(src) && IsReplicated(dst) then strategy == PartialToReplicated
    else if |src.dims| != |dst.dims| then strategy == ReplicationChange
    else if src.devices.size == dst.devices.size && src.dims == dst.dims then strategy == PointToPoint
    else if strategy.AlongDim? then OnlyDifference(strategy.dim, src.dims, dst.dims)
    else strategy.Unsupported? && forall j: nat :: !OnlyDifference(j, src.dims, dst.dims)
  }

  /** Every real dim is in one piece. */
  predicate Whole(dims: Dims) {
    forall i :: 0 <= i < |dims| && !dims[i].IsReplica() ==> dims[i].sharding == 1
  }

  /** Neither gathering into whole copies nor scattering from them. */
  predicate Repartitions(src: Dims, dst: Dims) {
    !Whole(dst) && !(Whole(src) && !HasReplica(dst))
  }

  /** When each strategy is chosen, by what the dims are: real dims in one piece, replica dims, differing dims. */
  ghost predicate Outcome(strategy: Strategy, src: Dims, dst: Dims) {
    && (strategy == GatherTiles <==> !HasReplica(src) && Whole(dst))
    && (strategy == ScatterTiles <==> Whole(src) && !HasReplica(dst) && (HasReplica(src) || !Whole(dst)))
    && (strategy == FullyReplicated <==> Whole(src) && Whole(dst) && HasReplica(src) && HasReplica(dst))
    && (strategy == PartialToReplicated <==> HasReplica(src) && !Whole(src) && Whole(dst))
    && (strategy == ReplicationChange <==> Repartitions(src, dst) && |src| != |dst|)
    && (strategy == PointToPoint <==> Repartitions(src, dst) && src == dst)
    && (forall j :: strategy == AlongDim(j) <==> Repartitions(src, dst) && OnlyDifference(j, src, dst))
    && (strategy == Unsupported <==> Repartitions(src, dst) && |src| == |dst| && DifferTwice(src, dst))
  }

  predicate DifferTwice(src: Dims, dst: Dims)
    requires |src| == |dst|
  {
    exists i, j :: 0 <= i < j < |src| && src[i] != dst[i] && src[j] != dst[j]
  }

  lemma NotDifferTwice(src: Dims, dst: Dims)
    requires |src| == |dst|
    ensures !DifferTwice(src, dst) <==> src == dst || exists j: nat :: OnlyDifference(j, src, dst)
  {
    if !DifferTwice(src, dst) && src != dst {
      var j :| 0 <= j < |src| && src[j] != dst[j];
      assert OnlyDifference(j, src, dst);
    }
  }

  /** The cases as they are tried amount to that, for shardings that are well formed. */
  lemma OutcomeByDims(strategy: Strategy, src: Sharding, dst: Sharding)
    requires WellFormed(src) && WellFormed(dst) && Chooses(strategy, src, dst)
    ensures Outcome(strategy, src.dims, dst.dims)
  {
    ReplicationClasses(src);
    ReplicationClasses(dst);
    ReplicatedDimsAreWhole(src.dims);
    ReplicatedDimsAreWhole(dst.dims);
    if |src.dims| == |dst.dims| {
      NotDifferTwice(src.dims, dst.dims);
    }
  }

  method DetermineShardingConfig(src: Sharding, dst: Sharding) returns (strategy: Strategy)
    ensures WellFormed(src) && WellFormed(dst) ==> Outcome(strategy, src.dims, dst.dims)
    ensures Chooses(strategy, src, dst)
    ensures forall other: Strategy :: Chooses(other, src, dst) ==> other == strategy
  {
    forall choice | WellFormed(src) && WellFormed(dst) && Chooses(choice, src, dst)
      ensures Outcome(choice, src.dims, dst.dims)
    {
      OutcomeByDims(choice, src, dst);
    }
    if FullySharded(src) && IsReplicated(dst) {
      return GatherTiles;
    }
    if FullySharded(dst) && IsReplicated(src) {
      return ScatterTiles;
    }
    if IsReplicated(src) && IsReplicated(dst) {
      return FullyReplicated;
    }
    if IsPartiallyReplicated(src) && IsReplicated(dst) {
      return PartialToReplicated;
    }
    if |src.dims| != |dst.dims| {
      return ReplicationChange;
    }
    if src.devices.size == dst.devices.size && src.dims == dst.dims {
      return PointToPoint;
    }
    strategy := DetermineScatterGather(src.dims, dst.dims);
  }

  // ----- wherever scatter-gather is chosen, its boxes are tiles

  /** A change of one dim of the same array: everything else about the array stays. */
  lemma OnlyShardingChanges(j: nat, src: Dims, dst: Dims)
    requires SaneDims(src) && SaneDims(dst) && IsPermutation(src) && IsPermutation(dst)
    requires OnlyDifference(j, src, dst) && src[j].size == dst[j].size
    ensures Changes(src, dst, j)
  {
    SamePermutation(src, dst, j);
  }

  /** A replicated fine side would make both sides replicated, and another case would have been chosen. */
  lemma FinerIsNotReplicated(j: nat, src: Sharding, dst: Sharding)
    requires WellFormed(src) && WellFormed(dst) && Chooses(AlongDim(j), src, dst)
    requires Changes(src.dims, dst.dims, j) && src.dims[j].size == dst.dims[j].size
    ensures !IsReplicated(Finer(src, dst, j))
  {
    var fine := Finer(src, dst, j);
    var coarse := if fine == src then dst else src;
    if IsReplicated(fine) {
      ReplicatedDimsAreWhole(fine.dims);
      ReplicatedDimsAreWhole(coarse.dims);
      CoarserIsWhole(j, fine.dims, coarse.dims);
    }
  }

  lemma CoarserIsWhole(j: nat, fine: Dims, coarse: Dims)
    requires SaneDims(fine) && SaneDims(coarse) && |fine| == |coarse| && j < |fine|
    requires forall i :: 0 <= i < |fine| && i != j ==> fine[i] == coarse[i]
    requires fine[j].size == coarse[j].size && fine[j].sharding > 1
    requires forall i :: 0 <= i < |fine| && !fine[i].IsReplica() ==> fine[i].sharding == 1
    ensures forall i :: 0 <= i < |coarse| && !coarse[i].IsReplica() ==> coarse[i].sharding == 1
  {
    assert fine[j].IsReplica() && coarse[j].Sane();
  }

  /**
   Wherever scatter-gather is chosen for two shardings of one array, the configuration is defined,
   and the boxes it lists for the finer side are the tiles of the finer side exactly when no dim of
   that side comes behind its replica dim.
   */
  lemma ScatterGatherBoxesIff(j: nat, src: Sharding, dst: Sharding)
    requires WellFormed(src) && WellFormed(dst) && Chooses(AlongDim(j), src, dst)
    requires src.dims[j].size == dst.dims[j].size
    ensures Changes(src.dims, dst.dims, j) && BoxRankMatches(Finer(src, dst, j))
    ensures var fine := Finer(src, dst, j).dims;
      (forall shard: nat :: shard < ShardCount(fine) ==> TileBox(TileIndex(shard, fine), fine) == TileRect(shard, fine))
      <==> ReplicaLast(fine)
  {
    OnlyShardingChanges(j, src.dims, dst.dims);
    FinerIsNotReplicated(j, src, dst);
    var fine := Finer(src, dst, j);
    ReplicationClasses(fine);
    ReplicatedDimsAreWhole(fine.dims);
    ReplicationFacts(fine.dims);
    BoxIsTileIff(fine.dims);
  }

  // ----- exactly when scatter-gather works

  /** Two shardings of one array that differ on one dim give it the same size. */
  lemma SameSizeAt(j: nat, src: Dims, dst: Dims)
    requires SaneDims(src) && SaneDims(dst) && OnlyDifference(j, src, dst) && ArrayShape(src) == ArrayShape(dst)
    ensures src[j].size == dst[j].size
  {
    var zero := seq(|src|, i => 0);
    RealPrefix(zero, src, j);
    RealPrefix(zero, dst, j);
    assert src[..j] == dst[..j];
    if src[j].IsReplica() && !dst[j].IsReplica() {
      ReplicaOnOneSide(j, src, dst);
    } else if dst[j].IsReplica() && !src[j].IsReplica() {
      ReplicaOnOneSide(j, dst, src);
    } else if !src[j].IsReplica() {
      var k := |RealDims(src[..j])|;
      assert ArrayShape(src)[k] == src[j].size && ArrayShape(dst)[k] == dst[j].size;
    }
  }

  lemma ReplicaOnOneSide(j: nat, a: Dims, b: Dims)
    requires SaneDims(a) && SaneDims(b) && |a| == |b| && j < |a| && a[j].IsReplica() && !b[j].IsReplica()
    requires forall i :: 0 <= i < |a| && i != j ==> a[i] == b[i]
    requires ArrayShape(a) == ArrayShape(b)
    ensures b[j].size == 1
  {
    ReplicationFacts(a);
    ReplicationFacts(b);
    forall i | 0 <= i < |b| ensures !b[i].IsReplica() {
      assert i < j ==> !a[i].IsReplica();
    }
    assert |ArrayShape(a)| == 1 && RealDims(b) == b;
    assert ArrayShape(a) == [1] && ArrayShape(b)[0] == b[0].size;
  }

  /** With a replica dim in front of a real one, some announced box lies outside the tile of its fine shard. */
  lemma MisplacedBreaksDelivery(j: nat, src: Sharding, dst: Sharding)
    requires WellFormed(src) && WellFormed(dst) && Changes(src.dims, dst.dims, j)
    requires forall t :: IsSent(t, src.dims, dst.dims, j) <==> IsExpected(t, src.dims, dst.dims, j)
    requires !ReplicaLast(Finer(src, dst, j).dims)
    ensures !Delivers(SlicePlan(src, dst, j), src, dst)
  {
    var fine := Finer(src, dst, j).dims;
    var q :| 0 <= q < |fine| - 1 && fine[q].IsReplica();
    var x, p := BoxMisplaced(fine, q);
    var t: Transfer;
    if src.dims[j].sharding > dst.dims[j].sharding {
      t := GatherSent(x, src.dims, dst.dims, j, Slices(src.dims, dst.dims, j))[0];
      assert IsSent(t, src.dims, dst.dims, j);
    } else {
      t := ScatterReceived(x, src.dims, dst.dims, j, Slices(dst.dims, src.dims, j))[0];
      assert IsExpected(t, src.dims, dst.dims, j);
    }
    assert t in SlicePlan(src, dst, j) && !InsideTiles(t, src, dst);
  }

  /** The replica dim of the coarser side is one of the finer side too. */
  lemma FinerDecidesLast(j: nat, fine: Dims, coarse: Dims)
    requires DifferAt(fine, coarse, j) && fine[j].sharding > coarse[j].sharding && ReplicaLast(fine)
    ensures ReplicaLast(coarse)
  {
    assert coarse[j].IsReplica() ==> fine[j].IsReplica();
  }

  lemma NotReplicaLast(j: nat, src: Sharding, dst: Sharding)
    requires DifferAt(src.dims, dst.dims, j) && !(ReplicaLast(src.dims) && ReplicaLast(dst.dims))
    ensures !ReplicaLast(Finer(src, dst, j).dims)
  {
    var fine := Finer(src, dst, j);
    var coarse := if fine == src then dst else src;
    if ReplicaLast(fine.dims) {
      FinerDecidesLast(j, fine.dims, coarse.dims);
    }
  }

  /**
   Wherever scatter-gather is chosen for two shardings of one array, the halves agree and what they
   exchange fills the destination exactly when the caller has respected what Compatible says.
   */
  lemma ScatterGatherWorksIff(j: nat, src: Sharding, dst: Sharding)
    requires WellFormed(src) && WellFormed(dst) && Chooses(AlongDim(j), src, dst)
    requires ArrayShape(src.dims) == ArrayShape(dst.dims)
    ensures Changes(src.dims, dst.dims, j)
    ensures (forall t :: IsSent(t, src.dims, dst.dims, j) <==> IsExpected(t, src.dims, dst.dims, j))
            && Delivers(SlicePlan(src, dst, j), src, dst)
            <==> Compatible(src.dims, dst.dims, j)
  {
    SameSizeAt(j, src.dims, dst.dims);
    ScatterGatherBoxesIff(j, src, dst);
    PlansAgreeIff(src.dims, dst.dims, j);
    if Compatible(src.dims, dst.dims, j) {
      ScatterGatherDelivers(src, dst, j);
    } else if forall t :: IsSent(t, src.dims, dst.dims, j) <==> IsExpected(t, src.dims, dst.dims, j) {
      NotReplicaLast(j, src, dst);
      MisplacedBreaksDelivery(j, src, dst);
    }
  }
}
