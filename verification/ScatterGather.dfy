/**
 Resharding along one dim (reshard_scatter_gather.cc).  The array with more shards on that dim is
 the fine one; each of its shards exchanges data with one shard of the coarse array.
 */
module ScatterGather {
  import opened Arithmetic
  import opened MixedRadix
  import opened Shape
  import opened TiledArray
  import opened TileCoverage
  import opened TileBoxes
  import opened TilePermutation
  import opened Delivery

  datatype ScatterGatherConfig = ScatterGatherConfig(fromSource: seq<Transfer>, toTarget: seq<Transfer>)

  /** Shardings that can be compared dim by dim. */
  predicate Comparable(fine: Dims, coarse: Dims, j: nat) {
    && SaneDims(fine) && SaneDims(coarse) && |fine| == |coarse| && j < |fine|
    && IsPermutation(fine) && IsPermutation(coarse)
  }

  /** Comparable shardings of one array that differ on dim j only. */
  predicate DifferAt(fine: Dims, coarse: Dims, j: nat) {
    && Comparable(fine, coarse, j)
    && (forall i :: 0 <= i < |fine| && i != j ==> fine[i] == coarse[i])
    && fine[j].size == coarse[j].size && fine[j].sharding != coarse[j].sharding
  }

  /** r pieces of `fine` fit into each piece of `coarse` on dim j, perhaps with some left over. */
  predicate Fits(fine: Dims, coarse: Dims, j: nat, r: nat) {
    DifferAt(fine, coarse, j) && r > 0 && coarse[j].sharding * r <= fine[j].sharding
  }

  /** Both number their shards in the order of the dims. */
  predicate InOrder(fine: Dims, coarse: Dims) {
    KeepsOrder(fine) && KeepsOrder(coarse)
  }

  /** `fine` cuts dim j of `coarse` into r times as many pieces and agrees with it elsewhere; both are in order. */
  predicate Refines(fine: Dims, coarse: Dims, j: nat, r: nat) {
    DifferAt(fine, coarse, j) && InOrder(fine, coarse) && r > 1 && fine[j].sharding == coarse[j].sharding * r
  }

  /** In addition the boxes that are announced are tiles. */
  predicate RefinesTiles(fine: Dims, coarse: Dims, j: nat, r: nat) {
    Refines(fine, coarse, j, r) && ReplicaLast(fine) && ReplicaLast(coarse)
  }

  ghost function Index(shard: nat, dims: Dims): (index: seq<nat>)
    requires SaneDims(dims) && IsPermutation(dims)
    ensures |index| == |dims|
  {
    TileIndex(shard, dims)
  }

  function CoarseIndex(index: seq<nat>, j: nat, r: nat): (coarse: seq<nat>)
    requires j < |index| && r > 0
    ensures |coarse| == |index|
  {
    index[j := index[j] / r]
  }

  function FineIndex(index: seq<nat>, j: nat, r: nat, k: nat): (fine: seq<nat>)
    requires j < |index|
    ensures |fine| == |index|
  {
    index[j := index[j] * r + k]
  }

  /** The shard of the coarse array that a fine shard exchanges with. */
  ghost function Parent(x: nat, fine: Dims, coarse: Dims, j: nat, r: nat): nat
    requires Comparable(fine, coarse, j) && r > 0
  {
    Value(CoarseIndex(Index(x, fine), j, r), Shardings(coarse))
  }

  /** The k-th fine shard that a coarse shard exchanges with. */
  ghost function Child(y: nat, k: nat, fine: Dims, coarse: Dims, j: nat, r: nat): nat
    requires Comparable(fine, coarse, j) && r > 0
  {
    Value(FineIndex(Index(y, coarse), j, r, k), Shardings(fine))
  }

  lemma IndexRoundTrip(shard: nat, dims: Dims)
    requires SaneDims(dims) && IsPermutation(dims) && KeepsOrder(dims) && shard < ShardCount(dims)
    ensures InBox(Index(shard, dims), Shardings(dims))
    ensures Value(Index(shard, dims), Shardings(dims)) == shard
  {
    TileIndexInBox(shard, dims);
    TileShardIsShardAt(Index(shard, dims), dims);
  }

  lemma ShardRoundTrip(index: seq<nat>, dims: Dims)
    requires SaneDims(dims) && IsPermutation(dims) && KeepsOrder(dims) && InBox(index, Shardings(dims))
    ensures Value(index, Shardings(dims)) < ShardCount(dims)
    ensures Index(Value(index, Shardings(dims)), dims) == index
  {
    ShardAtInRange(index, dims);
    TileShardIsShardAt(index, dims);
  }

  lemma CoarseInBox(index: seq<nat>, fine: Dims, coarse: Dims, j: nat, r: nat)
    requires Refines(fine, coarse, j, r) && InBox(index, Shardings(fine))
    ensures InBox(CoarseIndex(index, j, r), Shardings(coarse))
  {
    assert index[j] < Shardings(fine)[j];
    DivBound(index[j], coarse[j].sharding, r);
    forall i | 0 <= i < |coarse| && i != j ensures index[i] < Shardings(coarse)[i] {
      assert index[i] < Shardings(fine)[i] && fine[i] == coarse[i];
    }
  }

  lemma FineInBox(index: seq<nat>, k: nat, fine: Dims, coarse: Dims, j: nat, r: nat)
    requires Fits(fine, coarse, j, r) && InBox(index, Shardings(coarse)) && k < r
    ensures InBox(FineIndex(index, j, r, k), Shardings(fine))
  {
    assert index[j] < Shardings(coarse)[j];
    MulMonotone(index[j] + 1, coarse[j].sharding, r);
    MulDistributes(index[j], 1, r);
    forall i | 0 <= i < |fine| && i != j ensures index[i] < Shardings(fine)[i] {
      assert index[i] < Shardings(coarse)[i] && fine[i] == coarse[i];
    }
  }

  /** A fine index lies over a coarse one exactly when it is one of the r indices below it. */
  lemma CoarseOfFine(fineIndex: seq<nat>, coarseIndex: seq<nat>, k: nat, j: nat, r: nat)
    requires |fineIndex| == |coarseIndex| && j < |fineIndex| && r > 0
    ensures k < r ==> CoarseIndex(FineIndex(coarseIndex, j, r, k), j, r) == coarseIndex
    ensures CoarseIndex(fineIndex, j, r) == coarseIndex ==>
              fineIndex == FineIndex(coarseIndex, j, r, fineIndex[j] % r)
  {
    if k < r {
      DivModUnique(coarseIndex[j] * r + k, coarseIndex[j], k, r);
    }
    DivMod(fineIndex[j], r);
  }

  /** Parent and Child are inverse to each other: every fine shard is a child of its parent ... */
  lemma ParentChild(x: nat, fine: Dims, coarse: Dims, j: nat, r: nat)
    requires Refines(fine, coarse, j, r) && x < ShardCount(fine)
    ensures var y, k := Parent(x, fine, coarse, j, r), Index(x, fine)[j] % r;
      && y < ShardCount(coarse) && Index(y, coarse) == CoarseIndex(Index(x, fine), j, r)
      && x == Child(y, k, fine, coarse, j, r) && Index(x, fine) == FineIndex(Index(y, coarse), j, r, k)
  {
    IndexRoundTrip(x, fine);
    CoarseInBox(Index(x, fine), fine, coarse, j, r);
    ShardRoundTrip(CoarseIndex(Index(x, fine), j, r), coarse);
    CoarseOfFine(Index(x, fine), CoarseIndex(Index(x, fine), j, r), 0, j, r);
  }

  /** ... and the parent of each child of y is y. */
  lemma ChildParent(y: nat, k: nat, fine: Dims, coarse: Dims, j: nat, r: nat)
    requires Fits(fine, coarse, j, r) && InOrder(fine, coarse) && y < ShardCount(coarse) && k < r
    ensures Child(y, k, fine, coarse, j, r) < ShardCount(fine)
    ensures Index(Child(y, k, fine, coarse, j, r), fine) == FineIndex(Index(y, coarse), j, r, k)
    ensures Parent(Child(y, k, fine, coarse, j, r), fine, coarse, j, r) == y
  {
    IndexRoundTrip(y, coarse);
    FineInBox(Index(y, coarse), k, fine, coarse, j, r);
    ShardRoundTrip(FineIndex(Index(y, coarse), j, r, k), fine);
    CoarseOfFine(Index(y, coarse), Index(y, coarse), k, j, r);
  }

  // ----- what each shard puts in its configuration

  /** Fine source shard s sends its whole tile to its parent. */
  ghost function GatherSent(s: nat, src: Dims, dst: Dims, j: nat, r: nat): seq<Transfer>
    requires Comparable(src, dst, j) && r > 0
  {
    [Transfer(s, Parent(s, src, dst, j, r), TileBox(Index(s, src), src))]
  }

  /** Coarse target shard d receives one box from each of its children. */
  ghost function GatherReceived(d: nat, src: Dims, dst: Dims, j: nat, r: nat): seq<Transfer>
    requires Comparable(src, dst, j) && r > 0
  {
    seq(r, k requires 0 <= k =>
      Transfer(Child(d, k, src, dst, j, r), d, TileBox(FineIndex(Index(d, dst), j, r, k), src)))
  }

  ghost function ScatterSent(s: nat, src: Dims, dst: Dims, j: nat, r: nat): seq<Transfer>
    requires Comparable(dst, src, j) && r > 0
  {
    seq(r, k requires 0 <= k =>
      Transfer(s, Child(s, k, dst, src, j, r), TileBox(FineIndex(Index(s, src), j, r, k), dst)))
  }

  ghost function ScatterReceived(d: nat, src: Dims, dst: Dims, j: nat, r: nat): seq<Transfer>
    requires Comparable(dst, src, j) && r > 0
  {
    [Transfer(Parent(d, dst, src, j, r), d, TileBox(Index(d, dst), dst))]
  }

  predicate NoDuplicates<T(==)>(s: seq<T>) {
    forall a, b :: 0 <= a < b < |s| ==> s[a] != s[b]
  }

  lemma ChildrenDistinct(y: nat, a: nat, b: nat, fine: Dims, coarse: Dims, j: nat, r: nat)
    requires Fits(fine, coarse, j, r) && InOrder(fine, coarse) && y < ShardCount(coarse) && a < b < r
    ensures Child(y, a, fine, coarse, j, r) != Child(y, b, fine, coarse, j, r)
  {
    ChildParent(y, a, fine, coarse, j, r);
    ChildParent(y, b, fine, coarse, j, r);
    assert FineIndex(Index(y, coarse), j, r, a)[j] != FineIndex(Index(y, coarse), j, r, b)[j];
  }

  /** Fine shard x and coarse shard y exchange `rect`, as x computes it. */
  ghost predicate LinkedFromFine(x: nat, y: nat, rect: Rect, fine: Dims, coarse: Dims, j: nat, r: nat)
    requires Comparable(fine, coarse, j) && r > 0
  {
    x < ShardCount(fine) && y == Parent(x, fine, coarse, j, r) && rect == TileBox(Index(x, fine), fine)
  }

  /** The same, as y computes it. */
  ghost predicate LinkedFromCoarse(x: nat, y: nat, rect: Rect, fine: Dims, coarse: Dims, j: nat, r: nat)
    requires Comparable(fine, coarse, j) && r > 0
  {
    y < ShardCount(coarse) && exists k :: 0 <= k < r && LinkedAt(k, x, y, rect, fine, coarse, j, r)
  }

  ghost predicate LinkedAt(k: nat, x: nat, y: nat, rect: Rect, fine: Dims, coarse: Dims, j: nat, r: nat)
    requires Comparable(fine, coarse, j) && r > 0
  {
    x == Child(y, k, fine, coarse, j, r) && rect == TileBox(FineIndex(Index(y, coarse), j, r, k), fine)
  }

  lemma FineSideAgrees(x: nat, y: nat, fine: Dims, coarse: Dims, j: nat, r: nat)
    requires Refines(fine, coarse, j, r) && x < ShardCount(fine) && y == Parent(x, fine, coarse, j, r)
    ensures LinkedFromCoarse(x, y, TileBox(Index(x, fine), fine), fine, coarse, j, r)
  {
    ParentChild(x, fine, coarse, j, r);
    var k := Index(x, fine)[j] % r;
    assert LinkedAt(k, x, y, TileBox(Index(x, fine), fine), fine, coarse, j, r);
  }

  lemma CoarseSideAgrees(k: nat, x: nat, y: nat, rect: Rect, fine: Dims, coarse: Dims, j: nat, r: nat)
    requires Fits(fine, coarse, j, r) && InOrder(fine, coarse) && y < ShardCount(coarse) && k < r
    requires LinkedAt(k, x, y, rect, fine, coarse, j, r)
    ensures LinkedFromFine(x, y, rect, fine, coarse, j, r)
  {
    ChildParent(y, k, fine, coarse, j, r);
  }

  lemma BothSidesAgree(x: nat, y: nat, rect: Rect, fine: Dims, coarse: Dims, j: nat, r: nat)
    requires Refines(fine, coarse, j, r)
    ensures LinkedFromFine(x, y, rect, fine, coarse, j, r) <==> LinkedFromCoarse(x, y, rect, fine, coarse, j, r)
  {
    if LinkedFromFine(x, y, rect, fine, coarse, j, r) {
      FineSideAgrees(x, y, fine, coarse, j, r);
    }
    if LinkedFromCoarse(x, y, rect, fine, coarse, j, r) {
      var k :| 0 <= k < r && LinkedAt(k, x, y, rect, fine, coarse, j, r);
      CoarseSideAgrees(k, x, y, rect, fine, coarse, j, r);
    }
  }

  /** Gather direction: what source shards send is what destination shards expect, triple by triple. */
  lemma GatherAgreement(t: Transfer, src: Dims, dst: Dims, j: nat, r: nat)
    requires Refines(src, dst, j, r)
    ensures (t.src < ShardCount(src) && t in GatherSent(t.src, src, dst, j, r)) <==>
            (t.dst < ShardCount(dst) && t in GatherReceived(t.dst, src, dst, j, r))
  {
    BothSidesAgree(t.src, t.dst, t.rect, src, dst, j, r);
    var received := GatherReceived(t.dst, src, dst, j, r);
    assert forall k :: 0 <= k < r ==> (received[k] == t <==> LinkedAt(k, t.src, t.dst, t.rect, src, dst, j, r));
  }

  /** Scatter direction. */
  lemma ScatterAgreement(t: Transfer, src: Dims, dst: Dims, j: nat, r: nat)
    requires Refines(dst, src, j, r)
    ensures (t.src < ShardCount(src) && t in ScatterSent(t.src, src, dst, j, r)) <==>
            (t.dst < ShardCount(dst) && t in ScatterReceived(t.dst, src, dst, j, r))
  {
    BothSidesAgree(t.dst, t.src, t.rect, dst, src, j, r);
    var sent := ScatterSent(t.src, src, dst, j, r);
    assert forall k :: 0 <= k < r ==> (sent[k] == t <==> LinkedAt(k, t.dst, t.src, t.rect, dst, src, j, r));
  }

  /** No transfer is listed twice, on either side. */
  lemma NoTransferTwice(y: nat, fine: Dims, coarse: Dims, j: nat, r: nat)
    requires Fits(fine, coarse, j, r) && InOrder(fine, coarse) && y < ShardCount(coarse)
    ensures NoDuplicates(GatherReceived(y, fine, coarse, j, r))
    ensures NoDuplicates(ScatterSent(y, coarse, fine, j, r))
  {
    var children := seq(r, k requires 0 <= k => Child(y, k, fine, coarse, j, r));
    forall a, b | 0 <= a < b < r ensures children[a] != children[b] {
      ChildrenDistinct(y, a, b, fine, coarse, j, r);
    }
    DistinctEnds(GatherReceived(y, fine, coarse, j, r), children);
    DistinctEnds(ScatterSent(y, coarse, fine, j, r), children);
  }

  lemma DistinctEnds(transfers: seq<Transfer>, children: seq<nat>)
    requires |transfers| == |children| && NoDuplicates(children)
    requires (forall k :: 0 <= k < |children| ==> transfers[k].src == children[k])
             || (forall k :: 0 <= k < |children| ==> transfers[k].dst == children[k])
    ensures NoDuplicates(transfers)
  {
  }

  // ----- tiling

  /** On the axis that changes, the coarse cell of an element is its fine cell divided by r. */
  lemma CoarseCell(p: Point, fine: Dims, coarse: Dims, j: nat, r: nat)
    requires RefinesTiles(fine, coarse, j, r) && fine[j].size > 1 && InArray(p, ArrayShape(fine))
    ensures ArrayShape(coarse) == ArrayShape(fine)
    ensures j < |RealCell(p, fine)| && RealCell(p, coarse) == CoarseIndex(RealCell(p, fine), j, r)
  {
    SameRealDims(fine, coarse, j, r);
    assert ArrayShape(coarse) == ArrayShape(fine);
    RealDimsAreReal(fine);
    RealDimsAreReal(coarse);
    CellOnChangedAxis(p, RealDims(fine), RealDims(coarse), j, r);
  }

  lemma CellOnChangedAxis(p: Point, fine: Dims, coarse: Dims, j: nat, r: nat)
    requires RealGrid(fine) && RealGrid(coarse) && j < |fine| == |coarse| && r > 0
    requires coarse == fine[j := coarse[j]]
    requires fine[j].size == coarse[j].size && fine[j].sharding == coarse[j].sharding * r
    requires InArray(p, Sizes(fine)) && InArray(p, Sizes(coarse))
    ensures Cell(p, coarse) == CoarseIndex(Cell(p, fine), j, r)
  {
    ExtentTimesSharding(fine[j]);
    CoarseExtent(fine[j], coarse[j], r);
    DivTwice(p[j], fine[j].TileExtent(), r);
  }

  lemma SameRealDims(fine: Dims, coarse: Dims, j: nat, r: nat)
    requires RefinesTiles(fine, coarse, j, r) && fine[j].size > 1
    ensures |RealDims(fine)| == |RealDims(coarse)| > j
    ensures RealDims(coarse) == RealDims(fine)[j := coarse[j]] && RealDims(fine)[j] == fine[j]
  {
    var zero := seq(|fine|, i => 0);
    RealDimsWhenReplicaLast(zero, fine);
    RealDimsWhenReplicaLast(zero, coarse);
    assert fine[j].Sane() && coarse[j].Sane();
  }

  lemma CoarseExtent(fine: ShardingDim, coarse: ShardingDim, r: nat)
    requires fine.Sane() && coarse.Sane() && !fine.IsReplica() && !coarse.IsReplica() && r > 0
    requires fine.size == coarse.size && fine.sharding == coarse.sharding * r
    ensures coarse.TileExtent() == fine.TileExtent() * r
  {
    ExtentTimesSharding(fine);
    ExtentTimesSharding(coarse);
    MulSwap(fine.TileExtent(), r, coarse.sharding);
    DivExact(fine.TileExtent() * r, coarse.sharding);
  }

  /**
   When the dim that changes is a real dim, the tile of a coarse shard is partitioned by the tiles
   of its children: a fine shard holding p is a child of y exactly when y holds p, and each y that
   holds p has exactly one child that does.
   */
  lemma ChildHolds(x: nat, p: Point, fine: Dims, coarse: Dims, j: nat, r: nat)
    requires RefinesTiles(fine, coarse, j, r) && fine[j].size > 1 && x < ShardCount(fine)
    requires InRect(TileRect(x, fine), p)
    ensures Parent(x, fine, coarse, j, r) < ShardCount(coarse)
    ensures InRect(TileRect(Parent(x, fine, coarse, j, r), coarse), p)
  {
    TileInArray(x, p, fine);
    CoarseCell(p, fine, coarse, j, r);
    TileHolds(x, p, fine);
    ParentCell(x, fine, coarse, j, r);
    TileHolds(Parent(x, fine, coarse, j, r), p, coarse);
  }

  lemma ParentCell(x: nat, fine: Dims, coarse: Dims, j: nat, r: nat)
    requires RefinesTiles(fine, coarse, j, r) && fine[j].size > 1 && x < ShardCount(fine)
    ensures var y := Parent(x, fine, coarse, j, r);
      y < ShardCount(coarse) && j < |RealDims(fine)|
      && RealIndex(Index(y, coarse), coarse) == CoarseIndex(RealIndex(Index(x, fine), fine), j, r)
  {
    ParentChild(x, fine, coarse, j, r);
    SameRealDims(fine, coarse, j, r);
    RealDimsWhenReplicaLast(Index(x, fine), fine);
    RealDimsWhenReplicaLast(Index(Parent(x, fine, coarse, j, r), coarse), coarse);
  }

  lemma ChildrenPartitionTile(y: nat, p: Point, fine: Dims, coarse: Dims, j: nat, r: nat)
    requires RefinesTiles(fine, coarse, j, r) && fine[j].size > 1 && y < ShardCount(coarse)
    requires InRect(TileRect(y, coarse), p)
    ensures exists k :: 0 <= k < r && InRect(TileRect(Child(y, k, fine, coarse, j, r), fine), p)
    ensures forall a, b :: (0 <= a < r && 0 <= b < r
              && InRect(TileRect(Child(y, a, fine, coarse, j, r), fine), p)
              && InRect(TileRect(Child(y, b, fine, coarse, j, r), fine), p)) ==> a == b
  {
    TileInArray(y, p, coarse);
    SameArrayShape(fine, coarse, j, r);
    var c := RealCell(p, fine)[j];
    forall k | 0 <= k < r
      ensures InRect(TileRect(Child(y, k, fine, coarse, j, r), fine), p) <==> k == c % r
    {
      CoarseCell(p, fine, coarse, j, r);
      TileHolds(y, p, coarse);
      ChildCell(y, k, p, fine, coarse, j, r);
    }
    DivMod(c, r);
    assert InRect(TileRect(Child(y, c % r, fine, coarse, j, r), fine), p);
  }

  lemma SameArrayShape(fine: Dims, coarse: Dims, j: nat, r: nat)
    requires RefinesTiles(fine, coarse, j, r) && fine[j].size > 1
    ensures ArrayShape(coarse) == ArrayShape(fine) && j < |RealDims(fine)| == |RealDims(coarse)|
  {
    SameRealDims(fine, coarse, j, r);
  }

  lemma ChildRealIndex(y: nat, k: nat, fine: Dims, coarse: Dims, j: nat, r: nat)
    requires RefinesTiles(fine, coarse, j, r) && fine[j].size > 1 && y < ShardCount(coarse) && k < r
    ensures var x := Child(y, k, fine, coarse, j, r);
      j < |RealIndex(Index(y, coarse), coarse)|
      && RealIndex(Index(x, fine), fine) == FineIndex(RealIndex(Index(y, coarse), coarse), j, r, k)
  {
    ChildParent(y, k, fine, coarse, j, r);
    SameArrayShape(fine, coarse, j, r);
    FineRealIndex(Index(y, coarse), k, fine, coarse, j, r);
  }

  lemma FineRealIndex(index: seq<nat>, k: nat, fine: Dims, coarse: Dims, j: nat, r: nat)
    requires ReplicaLast(fine) && ReplicaLast(coarse) && |index| == |fine| == |coarse|
    requires j < |RealDims(fine)| == |RealDims(coarse)|
    ensures j < |RealIndex(index, coarse)| && j < |index|
    ensures RealIndex(FineIndex(index, j, r, k), fine) == FineIndex(RealIndex(index, coarse), j, r, k)
  {
    var n := |RealDims(fine)|;
    RealDimsWhenReplicaLast(index, coarse);
    RealDimsWhenReplicaLast(index, fine);
    RealDimsWhenReplicaLast(FineIndex(index, j, r, k), fine);
    UpdatePrefix(index, j, index[j] * r + k, n);
  }

  lemma UpdatePrefix(index: seq<nat>, j: nat, digit: nat, n: nat)
    requires j < n <= |index|
    ensures index[j := digit][..n] == index[..n][j := digit]
  {
  }

  /** Dividing a digit by r and taking the k-th below it gives the digit back exactly for its remainder. */
  lemma FineOfCoarse(cell: seq<nat>, j: nat, r: nat, k: nat)
    requires j < |cell| && k < r
    ensures FineIndex(CoarseIndex(cell, j, r), j, r, k) == cell <==> k == cell[j] % r
  {
    DivMod(cell[j], r);
    assert FineIndex(CoarseIndex(cell, j, r), j, r, k)[j] == cell[j] / r * r + k;
    if k == cell[j] % r {
      assert FineIndex(CoarseIndex(cell, j, r), j, r, k) == cell;
    }
  }

  lemma ChildCell(y: nat, k: nat, p: Point, fine: Dims, coarse: Dims, j: nat, r: nat)
    requires RefinesTiles(fine, coarse, j, r) && fine[j].size > 1 && y < ShardCount(coarse) && k < r
    requires InArray(p, ArrayShape(fine)) && InArray(p, ArrayShape(coarse)) && j < |RealCell(p, fine)|
    requires RealIndex(Index(y, coarse), coarse) == RealCell(p, coarse)
    requires RealCell(p, coarse) == CoarseIndex(RealCell(p, fine), j, r)
    ensures InRect(TileRect(Child(y, k, fine, coarse, j, r), fine), p) <==> k == RealCell(p, fine)[j] % r
  {
    ChildRealIndex(y, k, fine, coarse, j, r);
    TileHolds(Child(y, k, fine, coarse, j, r), p, fine);
    FineOfCoarse(RealCell(p, fine), j, r, k);
  }
}
