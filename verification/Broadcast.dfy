/** The binomial broadcast tree inside one group of destination shards (reshard_broadcast.cc). */
module Broadcast {
  import opened Arithmetic
  import opened PowersOfTwo
  import opened Shape

  datatype TargetConfig = TargetConfig(srcShard: Option<nat>, dstRootShard: Option<nat>, dstLeafShards: seq<nat>)

  datatype BroadcastConfig = BroadcastConfig(source: Option<seq<nat>>, target: Option<TargetConfig>)

  /** The smallest power of two that covers n ranks. */
  ghost predicate Covering(n: nat, power: nat) {
    IsPow2(power) && n <= power && (power == 1 || power / 2 < n)
  }

  lemma CoveringUnique(n: nat, p: nat, q: nat)
    requires Covering(n, p) && Covering(n, q)
    ensures p == q
  {
    if p < q {
      SmallerDivides(p, q);
    } else if q < p {
      SmallerDivides(q, p);
    }
  }

  /** Size of the block of ranks that `rank` is responsible for. */
  function Block(rank: nat, cover: nat): nat {
    if rank == 0 then cover else LowBit(rank)
  }

  /** The rank that a non-root rank waits on. */
  function Parent(rank: nat): nat
    requires rank > 0
  {
    rank - LowBit(rank)
  }

  /** The child loop, from offset h down: it stops at the first child outside the group. */
  function Leaves(rank: nat, h: nat, n: nat): seq<nat> {
    if h == 0 || rank + h >= n then [] else [rank + h] + Leaves(rank, h / 2, n)
  }

  /** The ranks that `rank` sends to in a group of n. */
  function Children(rank: nat, n: nat, cover: nat): seq<nat> {
    Leaves(rank, Block(rank, cover) / 2, n)
  }

  function Shift(ranks: seq<nat>, root: nat): seq<nat> {
    seq(|ranks|, i requires 0 <= i < |ranks| => root + ranks[i])
  }

  /** What a rank is configured to do. */
  function TargetOf(srcShard: nat, root: nat, rank: nat, n: nat, cover: nat): TargetConfig {
    TargetConfig(if rank == 0 then Some(srcShard) else None,
                 if rank == 0 then None else Some(root + Parent(rank)),
                 Shift(Children(rank, n, cover), root))
  }

  // ----- the search for the rank's block

  method FindCover(n: nat) returns (power: nat)
    ensures Covering(n, power)
  {
    power := 1;
    while power < n
      invariant IsPow2(power) && (power == 1 || power / 2 < n)
    {
      power := power * 2;
    }
  }

  /** Binary search: ends at the rank, with the largest power of two that divides it. */
  method FindBlock(rank: nat, cover: nat) returns (splitSize: nat)
    requires IsPow2(cover) && rank < cover
    ensures splitSize == Block(rank, cover)
  {
    var splitStart: int := 0;
    splitSize := cover;
    ghost var a: int := 0;
    while splitStart != rank
      invariant IsPow2(splitSize) && splitStart == a * splitSize
      invariant splitStart - splitSize < rank < splitStart + splitSize
      invariant splitStart == rank ==> splitSize == Block(rank, cover)
      decreases splitSize
    {
      SearchStep(a, splitSize, rank);
      splitSize := splitSize / 2;
      if rank > splitStart {
        splitStart := splitStart + splitSize;
        a := 2 * a + 1;
      } else if rank < splitStart {
        splitStart := splitStart - splitSize;
        a := 2 * a - 1;
      }
    }
  }

  /** One step to either side halves the block and leaves an odd multiple of it. */
  lemma SearchStep(a: int, size: nat, rank: nat)
    requires IsPow2(size) && size > 1
    ensures IsPow2(size / 2) && size == 2 * (size / 2)
    ensures a * size + size / 2 == (2 * a + 1) * (size / 2) && a * size - size / 2 == (2 * a - 1) * (size / 2)
    ensures a * size + size / 2 == rank || a * size - size / 2 == rank ==> rank > 0 && LowBit(rank) == size / 2
  {
    HalfStep(a, size);
    OddMultipleIsBlock(2 * a + 1, size / 2, rank);
    OddMultipleIsBlock(2 * a - 1, size / 2, rank);
  }

  lemma HalfStep(a: int, size: nat)
    requires size > 1 && size % 2 == 0
    ensures a * size + size / 2 == (2 * a + 1) * (size / 2)
    ensures a * size - size / 2 == (2 * a - 1) * (size / 2)
  {
    var h := size / 2;
    MulSwap(a, 2, h);
    MulDistributes(2 * a, 1, h);
    MulDistributes(2 * a, -1, h);
  }

  lemma OddMultipleIsBlock(a: int, size: nat, rank: nat)
    requires IsPow2(size) && a % 2 == 1
    ensures a * size == rank ==> rank > 0 && LowBit(rank) == size
  {
    if a < 0 {
      MulMonotone(a, -1, size);
    } else {
      LowBitOfOddMultiple(a, size);
    }
  }

  method GetTargetConfig(srcShard: nat, destRootShard: nat, numLeaves: nat, myRank: nat) returns (config: TargetConfig)
    requires myRank < numLeaves
    ensures forall cover :: Covering(numLeaves, cover) ==>
              config == TargetOf(srcShard, destRootShard, myRank, numLeaves, cover)
  {
    if myRank % 2 == 1 {
      return TargetConfig(None, Some(destRootShard + myRank - 1), []);
    }
    var cover := FindCover(numLeaves);
    var splitSize := FindBlock(myRank, cover);
    BlockFacts(myRank, cover);
    var mySource := destRootShard + myRank - splitSize;
    var targets := ListLeaves(destRootShard, myRank, splitSize / 2, numLeaves);
    forall other | Covering(numLeaves, other) ensures other == cover {
      CoveringUnique(numLeaves, cover, other);
    }
    if myRank > 0 {
      return TargetConfig(None, Some(mySource), targets);
    }
    return TargetConfig(Some(srcShard), None, targets);
  }

  /** The loop that lists the leaves of a rank. */
  method ListLeaves(root: nat, rank: nat, first: nat, n: nat) returns (targets: seq<nat>)
    requires first == 0 || IsPow2(first)
    ensures targets == Shift(Leaves(rank, first, n), root)
  {
    targets := [];
    var splitSize, nextLeaf := first, rank + first;
    while nextLeaf < n && splitSize > 0
      invariant splitSize == 0 || (IsPow2(splitSize) && nextLeaf == rank + splitSize)
      invariant Shift(Leaves(rank, first, n), root) == targets + Shift(Leaves(rank, splitSize, n), root)
      decreases splitSize
    {
      ShiftLeaves(root, rank, splitSize, n);
      targets := targets + [root + nextLeaf];
      splitSize := splitSize / 2;
      nextLeaf := nextLeaf - splitSize;
    }
  }

  lemma ShiftLeaves(root: nat, rank: nat, h: nat, n: nat)
    requires h > 0 && rank + h < n
    ensures Shift(Leaves(rank, h, n), root) == [root + rank + h] + Shift(Leaves(rank, h / 2, n), root)
  {
    var rest := Leaves(rank, h / 2, n);
    assert Leaves(rank, h, n) == [rank + h] + rest;
  }

  // ----- who lists whom

  /** Listed children are offsets by powers of two; the first one decides whether any is listed. */
  lemma {:induction false} LeafIff(c: nat, rank: nat, h: nat, n: nat)
    requires h == 0 || IsPow2(h)
    ensures c in Leaves(rank, h, n) <==> h > 0 && rank + h < n && c > rank && IsPow2(c - rank) && c - rank <= h
  {
    if h > 0 && rank + h < n {
      LeafIff(c, rank, h / 2, n);
      var rest := Leaves(rank, h / 2, n);
      assert Leaves(rank, h, n) == [rank + h] + rest;
      if c > rank && IsPow2(c - rank) && c - rank < h {
        SmallerDivides(c - rank, h);
      }
    }
  }

  /** The children are listed from the largest offset down, each at half the offset of the one before. */
  lemma {:induction false} ChildrenHalve(rank: nat, h: nat, n: nat, a: nat)
    requires a < |Leaves(rank, h, n)|
    ensures Leaves(rank, h, n)[0] == rank + h
    ensures a + 1 < |Leaves(rank, h, n)| ==>
              Leaves(rank, h, n)[a + 1] - rank == (Leaves(rank, h, n)[a] - rank) / 2
  {
    var rest := Leaves(rank, h / 2, n);
    assert Leaves(rank, h, n) == [rank + h] + rest;
    if a > 0 {
      ChildrenHalve(rank, h / 2, n, a - 1);
    } else if rest != [] {
      ChildrenHalve(rank, h / 2, n, 0);
    }
  }

  lemma BlockFacts(rank: nat, cover: nat)
    requires IsPow2(cover)
    ensures IsPow2(Block(rank, cover)) && rank % Block(rank, cover) == 0
    ensures Block(rank, cover) / 2 == 0 || IsPow2(Block(rank, cover) / 2)
  {
    if rank > 0 {
      LowBitFacts(rank);
    }
    var b := Block(rank, cover);
    if b == 1 {
      assert b / 2 == 0;
    }
  }

  /** Every listed child waits on the rank that lists it, in a group of any size. */
  lemma ListedWaitsOnLister(c: nat, rank: nat, n: nat, cover: nat)
    requires IsPow2(cover) && c in Children(rank, n, cover)
    ensures 0 < c < n && Parent(c) == rank
  {
    BlockFacts(rank, cover);
    var b := Block(rank, cover);
    LeafIff(c, rank, b / 2, n);
    var l := c - rank;
    SmallerDivides(l, b / 2);
    assert b == 2 * (b / 2) && 2 * l <= b;
    Pow2Double(l);
    SmallerDivides(2 * l, b);
    MultipleOfMultiple(rank, b, 2 * l);
    LowBitOfSum(rank, l);
  }

  lemma Pow2Double(l: nat)
    requires IsPow2(l)
    ensures IsPow2(2 * l)
  {
  }

  /** A parent lists its child exactly when the parent's first child is inside the group. */
  lemma ListedIffFirstFits(c: nat, n: nat, cover: nat)
    requires Covering(n, cover) && 0 < c < n
    ensures Parent(c) + Block(Parent(c), cover) / 2 < n <==> c in Children(Parent(c), n, cover)
  {
    var r, l := Parent(c), LowBit(c);
    LowBitFacts(c);
    BlockFacts(r, cover);
    var b := Block(r, cover);
    if r == 0 {
      OwnLowBit(c);
      SmallerDivides(l, cover);
    }
    assert 2 * l <= b;
    LeafIff(c, r, b / 2, n);
  }

  // ----- exactly which group sizes work

  ghost predicate AllListed(n: nat, cover: nat) {
    forall c: nat :: 0 < c < n ==> c in Children(Parent(c), n, cover)
  }

  /** 2^k - 2^j + 1: the last rank is a run of ones followed by zeros. */
  ghost predicate GoodSize(n: nat) {
    exists j: nat, k: nat :: j <= k && n == Pow2(k) - Pow2(j) + 1
  }

  /** With a good size every first child fits. */
  lemma FirstChildFits(c: nat, n: nat, j: nat, k: nat, cover: nat)
    requires j <= k && n == Pow2(k) - Pow2(j) + 1 && Covering(n, cover) && 0 < c < n
    ensures Parent(c) + Block(Parent(c), cover) / 2 < n
  {
    var top, low := Pow2(k), Pow2(j);
    var m: nat, r := n - 1, Parent(c);
    Pow2IsPow2(j);
    Pow2IsPow2(k);
    Pow2Monotone(j, k);
    if r > 0 {
      var b := LowBit(r);
      LowBitFacts(r);
      SmallerDivides(low, top);
      if b <= low {
        SmallerDivides(b, low);
        SmallerDivides(b, top);
        DifferenceOfMultiples(top, low, b);
        MultipleGap(r, m, b);
      } else {
        SmallerDivides(low, b);
        SmallerDivides(b, top);
        MultipleGap(r, top, b);
      }
    } else {
      assert cover > 1;
    }
  }

  lemma DifferenceOfMultiples(x: nat, y: nat, d: nat)
    requires d > 0 && x % d == 0 && y % d == 0 && y <= x
    ensures (x - y) % d == 0
  {
    DivMod(x, d);
    DivMod(y, d);
    MulDistributes(x / d, -(y / d), d);
    DivModUnique(x - y, x / d - y / d, 0, d);
  }

  /** A rank below m whose first child lies beyond m, although its last child does not. */
  lemma Overhang(m: nat) returns (r: nat)
    requires m > 0 && !IsPow2(m + LowBit(m))
    ensures 0 < r < m && LowBit(r) >= 2 && r + LowBit(r) / 2 > m
  {
    var q := m + LowBit(m);
    LowBitFacts(m);
    OwnLowBit(q);
    LowBitFacts(q);
    r := q - LowBit(q);
  }

  /** With any other size some rank is left out. */
  lemma SomeRankUnfed(n: nat, cover: nat) returns (c: nat)
    requires n > 0 && Covering(n, cover) && !GoodSize(n)
    ensures 0 < c < n && c !in Children(Parent(c), n, cover)
  {
    OneIsGood();
    if IsPow2(n - 1 + LowBit(n - 1)) {
      GoodWhenPow2(n);
    }
    var r := Overhang(n - 1);
    c := r + 1;
    EvenRank(r);
    ListedIffFirstFits(c, n, cover);
  }

  lemma GoodWhenPow2(n: nat)
    requires n > 1 && IsPow2(n - 1 + LowBit(n - 1))
    ensures GoodSize(n)
  {
    LowBitFacts(n - 1);
    var k := ExponentOf(n - 1 + LowBit(n - 1));
    var j := ExponentOf(LowBit(n - 1));
    Pow2Monotone(j, k);
    assert j <= k && n == Pow2(k) - Pow2(j) + 1;
  }

  lemma OneIsGood()
    ensures GoodSize(1)
  {
    var j: nat, k: nat := 0, 0;
    assert j <= k && 1 == Pow2(k) - Pow2(j) + 1;
  }

  lemma EvenRank(r: nat)
    requires r > 0 && LowBit(r) >= 2
    ensures r % 2 == 0 && LowBit(r + 1) == 1
  {
  }

  /** Every non-root rank is listed by the rank it waits on exactly for the sizes 2^k - 2^j + 1. */
  lemma BroadcastCompleteIff(n: nat, cover: nat)
    requires n > 0 && Covering(n, cover)
    ensures AllListed(n, cover) <==> GoodSize(n)
  {
    if GoodSize(n) {
      var j: nat, k: nat :| j <= k && n == Pow2(k) - Pow2(j) + 1;
      forall c: nat | 0 < c < n ensures c in Children(Parent(c), n, cover) {
        FirstChildFits(c, n, j, k, cover);
        ListedIffFirstFits(c, n, cover);
      }
    } else {
      var c := SomeRankUnfed(n, cover);
    }
  }

  // ----- the data reaches the ranks

  /** The rank is the root, or is listed by a parent that is itself reached. */
  ghost predicate Reached(rank: nat, n: nat, cover: nat) {
    rank == 0 || (rank in Children(Parent(rank), n, cover) && Reached(Parent(rank), n, cover))
  }

  lemma {:induction false} ReachedWhenListed(rank: nat, n: nat, cover: nat)
    requires AllListed(n, cover) && rank < n
    ensures Reached(rank, n, cover)
  {
    if rank > 0 {
      ReachedWhenListed(Parent(rank), n, cover);
    }
  }

  /** All ranks of a group are reached from its root exactly for the good sizes. */
  lemma AllReachedIff(n: nat, cover: nat)
    requires n > 0 && Covering(n, cover)
    ensures (forall rank: nat :: rank < n ==> Reached(rank, n, cover)) <==> GoodSize(n)
  {
    BroadcastCompleteIff(n, cover);
    if GoodSize(n) {
      forall rank: nat | rank < n ensures Reached(rank, n, cover) {
        ReachedWhenListed(rank, n, cover);
      }
    } else {
      var c := SomeRankUnfed(n, cover);
      assert !Reached(c, n, cover);
    }
  }

  /** Number of hops from the root. */
  function Depth(rank: nat): nat {
    if rank == 0 then 0 else 1 + Depth(Parent(rank))
  }

  lemma {:induction false} DepthTimesBlock(rank: nat, k: nat)
    requires 0 < rank < Pow2(k)
    ensures Pow2(Depth(rank)) * LowBit(rank) <= Pow2(k)
  {
    var parent := Parent(rank);
    LowBitFacts(rank);
    if parent == 0 {
      Pow2IsPow2(k);
      SmallerDivides(rank, Pow2(k));
      assert Depth(rank) == 1 && Pow2(1) == 2 * Pow2(0);
    } else {
      DepthTimesBlock(parent, k);
      DoublingBound(Pow2(Depth(parent)), LowBit(rank), LowBit(parent), Pow2(k));
    }
  }

  lemma DoublingBound(d: nat, small: nat, large: nat, bound: nat)
    requires 2 * small <= large && d * large <= bound
    ensures (2 * d) * small <= bound
  {
    MulMonotone(2 * small, large, d);
    MulSwap(d, 2, small);
  }

  /** The tree is no deeper than the logarithm of the covering power of two. */
  lemma DepthBound(rank: nat, k: nat)
    requires rank < Pow2(k)
    ensures Depth(rank) <= k
  {
    if rank > 0 {
      DepthTimesBlock(rank, k);
      MulMonotone(1, LowBit(rank), Pow2(Depth(rank)));
      Pow2Monotone(Depth(rank), k);
    }
  }
}
