/**
 A broadcast that feeds every shard completes: once the calls of the first rounds have been made and the
 sources are ready, events alone release every shard from all of these rounds, however deep the trees are.
 */
module BroadcastCompletion {
  import opened Realm
  import opened Stores
  import opened StoreUses
  import opened Exchanges
  import opened History
  import opened Broadcast
  import opened BroadcastGroups
  import opened BroadcastData
  import opened Completion

  // ----- whose events are whose

  /** The event of a receive stands for its release, that of a view for all sends through it. */
  ghost function MeaningOf(b: Cast): Meaning<Hop> {
    (x: nat) =>
      (iset hop: Hop, i: nat | x == b.upkeep.name(hop, i) :: Got(hop, i))
      + (iset d: nat, i: nat, c: nat | x == b.release(d, i) && ListsLeaf(b.configs(b.dst.start + d), c) ::
           Gave(Down(d, c), i))
  }

  /** Events of tasks and of other arrays. */
  ghost predicate Foreign(event: Event, b: Cast) {
    forall a :: a in event ==>
      && a.External? && (forall hop: Hop, i: nat :: a.id != b.upkeep.name(hop, i))
      && (forall d: nat, i: nat :: a.id != b.release(d, i))
  }

  ghost predicate DistinctEvents(b: Cast) {
    && (forall hop: Hop, i: nat, other: Hop, j: nat :: b.upkeep.name(hop, i) == b.upkeep.name(other, j) ==>
          hop == other && i == j)
    && (forall d: nat, i: nat, c: nat, j: nat :: b.release(d, i) == b.release(c, j) ==> d == c && i == j)
    && (forall hop: Hop, i: nat, d: nat, j: nat :: b.upkeep.name(hop, i) != b.release(d, j))
  }

  /** Receives and views have events of their own, and apart from them the stores see foreign events only. */
  ghost predicate OwnEvents(b: Cast) {
    && DistinctEvents(b)
    && (forall d: nat :: Foreign(Events(StorePrecondition(b.upkeep.first(d))), b))
    && (forall d: nat, k: nat, i: nat :: i < |b.upkeep.uses(d, k)| && b.upkeep.uses(d, k)[i].ByTask? ==>
          Foreign(b.upkeep.uses(d, k)[i].completion, b))
  }

  predicate OfRound(a: Atom, b: Cast, d: nat, i: nat) {
    a in InEvent(b, d, i) || a == External(b.release(d, i))
  }

  predicate OfEarlierRound(a: Atom, b: Cast, d: nat, k: nat) {
    exists i: nat :: i < k && OfRound(a, b, d, i)
  }

  lemma {:induction false} StillEarlier(a: Atom, b: Cast, d: nat, k: nat)
    requires OfEarlierRound(a, b, d, k) || OfRound(a, b, d, k)
    ensures OfEarlierRound(a, b, d, k + 1)
  {
    if OfEarlierRound(a, b, d, k) {
      var i: nat :| i < k && OfRound(a, b, d, i);
      assert i < k + 1 && OfRound(a, b, d, i);
    }
  }

  lemma {:induction false} FromUses(made: StoreState, uses: seq<Use>, b: Cast, a: Atom)
    requires a in Events(StorePrecondition(AfterUses(made, uses))) && a !in Events(StorePrecondition(made))
    requires forall i :: 0 <= i < |uses| && uses[i].ByTask? ==> Foreign(uses[i].completion, b)
    ensures Foreign({a}, b)
  {
    OnlyFromUses(made, uses, a);
  }

  lemma {:induction false} ShownFrom(b: Cast, d: nat, k: nat, a: Atom)
    requires a in Events(StorePrecondition(Shown(b, d, k)))
    ensures OfRound(a, b, d, k) || a in Events(StoreAt(b, d, k).childRw)
  {
    var landed, release := Landed(b, d, k), {External(b.release(d, k))};
    assert Events(landed.childRw) == InEvent(b, d, k) + Events(StoreAt(b, d, k).childRw);
    assert HasLeaves(b, d) ==>
           Events(StorePrecondition(ReadUntil(landed, release))) == release + Events(landed.childRw);
  }

  /** What a shard waits for in round k: foreign events, and receives and views of its earlier rounds. */
  lemma {:induction false} StoreFrom(b: Cast, d: nat, k: nat, a: Atom)
    requires OwnEvents(b) && a in Events(StorePrecondition(StoreAt(b, d, k)))
    ensures Foreign({a}, b) || OfEarlierRound(a, b, d, k)
    decreases k
  {
    if k > 0 {
      if a !in Events(StorePrecondition(Shown(b, d, k - 1))) {
        FromUses(Shown(b, d, k - 1), b.upkeep.uses(d, k - 1), b, a);
      } else if OfRound(a, b, d, k - 1) {
        StillEarlier(a, b, d, k - 1);
      } else {
        ShownFrom(b, d, k - 1, a);
        StoreFrom(b, d, k - 1, a);
        if OfEarlierRound(a, b, d, k - 1) {
          StillEarlier(a, b, d, k - 1);
        }
      }
    }
  }

  // ----- the trees

  /** Every shard is fed. */
  ghost predicate AllFed(b: Cast) {
    Sound(b) && forall d: nat :: d < b.dst.size ==> Delivered(d, b.configs, b.src, b.dst)
  }

  /** How the data comes into shard d. */
  function In(b: Cast, d: nat): Hop
    requires Delivered(d, b.configs, b.src, b.dst)
  {
    var target := b.configs(b.dst.start + d).target.value;
    if target.srcShard.Some? then FromSource(target.srcShard.value, d) else Down(target.dstRootShard.value, d)
  }

  lemma {:induction false} InFacts(b: Cast, d: nat)
    requires AllFed(b) && d < b.dst.size
    ensures Delivered(d, b.configs, b.src, b.dst)
    ensures MayReceive(In(b, d), b) && In(b, d).Into() == d
    ensures In(b, d).Down? ==> In(b, d).parent < d
    ensures forall i: nat :: InEvent(b, d, i) == {External(b.upkeep.name(In(b, d), i))}
  {
    forall i: nat ensures InEvent(b, d, i) == {External(b.upkeep.name(In(b, d), i))} {
      InEventOf(b, In(b, d), i);
    }
  }

  lemma {:induction false} LeafRank(b: Cast, d: nat, c: nat, cover: nat)
    requires Sound(b) && d < b.dst.size && ListsLeaf(b.configs(b.dst.start + d), c)
    requires Covering(PlaceOf(d, b.src.size, b.dst.size).size, cover)
    ensures var place := PlaceOf(d, b.src.size, b.dst.size);
      exists rank: nat :: rank in Children(place.rank, place.size, cover) && c == place.base + rank
  {
    TargetOfShard(d, b.configs, b.src, b.dst);
    WaitsFor(d, b.configs, b.src, b.dst, cover);
    var place := PlaceOf(d, b.src.size, b.dst.size);
    var children := Children(place.rank, place.size, cover);
    var i :| 0 <= i < |Shift(children, place.base)| && Shift(children, place.base)[i] == c;
    assert children[i] in children && c == place.base + children[i];
  }

  /** A shard that is listed as a leaf has the shard that lists it as its parent. */
  lemma {:induction false} LeafParent(b: Cast, d: nat, c: nat)
    requires Sound(b) && d < b.dst.size && ListsLeaf(b.configs(b.dst.start + d), c)
    ensures c < b.dst.size && PlaceOf(c, b.src.size, b.dst.size).rank > 0
    ensures ParentShard(c, b.src.size, b.dst.size) == d
  {
    var place := PlaceOf(d, b.src.size, b.dst.size);
    var cover := SomeCover(place.size);
    LeafRank(b, d, c, cover);
    var rank: nat :| rank in Children(place.rank, place.size, cover) && c == place.base + rank;
    ListedWaitsOnLister(rank, place.rank, place.size, cover);
    PlaceInGroup(d, rank, b.src.size, b.dst.size);
  }

  /** A shard that is listed as a leaf gets its data from the shard that lists it. */
  lemma {:induction false} LeafWaits(b: Cast, d: nat, c: nat)
    requires AllFed(b) && d < b.dst.size && ListsLeaf(b.configs(b.dst.start + d), c)
    ensures c < b.dst.size && Delivered(c, b.configs, b.src, b.dst) && In(b, c) == Down(d, c)
  {
    LeafParent(b, d, c);
    var cover := SomeCover(PlaceOf(c, b.src.size, b.dst.size).size);
    DeliveredIsReached(c, b.configs, b.src, b.dst, cover);
    WaitsOnParent(c, b.configs, b.src, b.dst);
  }

  // ----- one shard

  /** Rounds 0 to k have been called on both sides of the way into shard d; a source is ready. */
  ghost predicate CalledThrough(e: Exchange, hop: Hop, b: Cast, k: nat) {
    && Called(e, k) && WaitsForStore(e, hop, b)
    && (hop.FromSource? ==> forall j :: 0 <= j <= k ==> e.Sends()[j].pre <= e.Fired())
  }

  ghost predicate AllCalled(history: Moves<Hop>, remote: Hop -> bool, b: Cast, k: nat)
    requires AllFed(b)
  {
    forall d: nat :: d < b.dst.size ==> CalledThrough(At(history, remote, In(b, d)), In(b, d), b, k)
  }

  lemma {:induction false} StillCalled(history: Moves<Hop>, later: Moves<Hop>, remote: Hop -> bool, b: Cast, k: nat)
    requires AllFed(b) && AllCalled(history, remote, b, k) && GoesOn(history, later, remote, MeaningOf(b))
    ensures AllCalled(later, remote, b, k)
  {
    forall d: nat | d < b.dst.size ensures CalledThrough(At(later, remote, In(b, d)), In(b, d), b, k) {
      assert CalledThrough(At(history, remote, In(b, d)), In(b, d), b, k);
      assert FiredMore(At(history, remote, In(b, d)), At(later, remote, In(b, d)));
    }
  }

  /** Round i into shard d is over on both sides. */
  ghost predicate ShardDone(history: Moves<Hop>, remote: Hop -> bool, b: Cast, d: nat, i: nat)
    requires AllFed(b) && d < b.dst.size
  {
    Happened(history, remote, Got(In(b, d), i)) && Happened(history, remote, Gave(In(b, d), i))
  }

  /** Round j is over for the shards before n, and the rounds before it for all shards. */
  ghost predicate DoneUpTo(history: Moves<Hop>, remote: Hop -> bool, b: Cast, j: nat, n: nat)
    requires AllFed(b)
  {
    forall d: nat, i: nat :: d < b.dst.size && (i < j || (i == j && d < n)) ==> ShardDone(history, remote, b, d, i)
  }

  lemma {:induction false} StillDone(history: Moves<Hop>, later: Moves<Hop>, remote: Hop -> bool, b: Cast,
                                     j: nat, n: nat)
    requires AllFed(b) && DoneUpTo(history, remote, b, j, n) && GoesOn(history, later, remote, MeaningOf(b))
    ensures DoneUpTo(later, remote, b, j, n)
  {
    forall d: nat, i: nat | d < b.dst.size && (i < j || (i == j && d < n))
      ensures ShardDone(later, remote, b, d, i)
    {
      assert ShardDone(history, remote, b, d, i);
      StillHappened(history, later, remote, MeaningOf(b), Got(In(b, d), i));
      StillHappened(history, later, remote, MeaningOf(b), Gave(In(b, d), i));
    }
  }

  lemma {:induction false} NameMeans(b: Cast, hop: Hop, i: nat)
    requires DistinctEvents(b)
    ensures forall outcome :: outcome in MeaningOf(b)(b.upkeep.name(hop, i)) ==> outcome == Got(hop, i)
  {
    forall outcome | outcome in MeaningOf(b)(b.upkeep.name(hop, i)) ensures outcome == Got(hop, i) {
      assert forall d: nat, j: nat :: b.upkeep.name(hop, i) != b.release(d, j);
    }
  }

  /** After a round of a shard, the event of the shard's receive may fire. */
  lemma {:induction false} InMayFire(history: Moves<Hop>, remote: Hop -> bool, b: Cast, d: nat, i: nat, a: Atom)
    requires AllFed(b) && OwnEvents(b) && d < b.dst.size && ShardDone(history, remote, b, d, i)
    requires a in InEvent(b, d, i)
    ensures a.External? && AllHappened(history, remote, MeaningOf(b)(a.id))
  {
    InFacts(b, d);
    assert a == External(b.upkeep.name(In(b, d), i));
    NameMeans(b, In(b, d), i);
  }

  /** After a round of all shards, the event of a view of that round may fire. */
  lemma {:induction false} ReleaseMayFire(history: Moves<Hop>, remote: Hop -> bool, b: Cast, d: nat, i: nat,
                                          j: nat, n: nat)
    requires AllFed(b) && OwnEvents(b) && d < b.dst.size && i < j && DoneUpTo(history, remote, b, j, n)
    ensures AllHappened(history, remote, MeaningOf(b)(b.release(d, i)))
  {
    forall outcome | outcome in MeaningOf(b)(b.release(d, i)) ensures Happened(history, remote, outcome) {
      var c: nat :| ListsLeaf(b.configs(b.dst.start + d), c) && outcome == Gave(Down(d, c), i);
      LeafWaits(b, d, c);
      assert ShardDone(history, remote, b, c, i);
    }
  }

  lemma {:induction false} RoundMayFire(history: Moves<Hop>, remote: Hop -> bool, b: Cast, d: nat, j: nat, n: nat,
                                        a: Atom)
    requires AllFed(b) && OwnEvents(b) && d < b.dst.size && DoneUpTo(history, remote, b, j, n)
    requires Foreign({a}, b) || OfEarlierRound(a, b, d, j)
    ensures a.External? && AllHappened(history, remote, MeaningOf(b)(a.id))
  {
    if OfEarlierRound(a, b, d, j) {
      var i: nat :| i < j && OfRound(a, b, d, i);
      if a in InEvent(b, d, i) {
        assert ShardDone(history, remote, b, d, i);
        InMayFire(history, remote, b, d, i, a);
      } else {
        ReleaseMayFire(history, remote, b, d, i, j, n);
      }
    } else {
      assert MeaningOf(b)(a.id) == iset{};
    }
  }

  /** What the receive of round j into shard d waits for may fire. */
  lemma {:induction false} ReceiveReady(history: Moves<Hop>, remote: Hop -> bool, b: Cast, d: nat, j: nat)
    requires AllFed(b) && OwnEvents(b) && d < b.dst.size && DoneUpTo(history, remote, b, j, d)
    requires CalledThrough(At(history, remote, In(b, d)), In(b, d), b, j)
    ensures Ready(history, remote, MeaningOf(b), In(b, d), At(history, remote, In(b, d)).Recvs()[j].pre)
  {
    InFacts(b, d);
    var e := At(history, remote, In(b, d));
    forall a | a in e.Recvs()[j].pre - e.Fired()
      ensures a.External? && AllHappened(history, remote, MeaningOf(b)(a.id))
    {
      StoreFrom(b, d, j, a);
      RoundMayFire(history, remote, b, d, j, d, a);
    }
  }

  /** What the send of round j down to shard d waits for may fire, when its parent has round j. */
  lemma {:induction false} SendReady(history: Moves<Hop>, remote: Hop -> bool, b: Cast, d: nat, j: nat)
    requires AllFed(b) && OwnEvents(b) && d < b.dst.size && DoneUpTo(history, remote, b, j, d)
    requires CalledThrough(At(history, remote, In(b, d)), In(b, d), b, j)
    ensures Ready(history, remote, MeaningOf(b), In(b, d), At(history, remote, In(b, d)).Sends()[j].pre)
  {
    InFacts(b, d);
    var e := At(history, remote, In(b, d));
    if In(b, d).Down? {
      var p := In(b, d).parent;
      forall a | a in e.Sends()[j].pre - e.Fired()
        ensures a.External? && AllHappened(history, remote, MeaningOf(b)(a.id))
      {
        assert a in Events(Landed(b, p, j).childRw);
        if a in InEvent(b, p, j) {
          assert ShardDone(history, remote, b, p, j);
          InMayFire(history, remote, b, p, j, a);
        } else {
          StoreFrom(b, p, j, a);
          RoundMayFire(history, remote, b, p, j, d, a);
        }
      }
    }
  }

  /** Round j can be completed for shard d, after the shards before it. */
  lemma {:induction false} FinishShard(history: Moves<Hop>, remote: Hop -> bool, b: Cast, d: nat, j: nat)
    returns (later: Moves<Hop>)
    requires AllFed(b) && OwnEvents(b) && d < b.dst.size && DoneUpTo(history, remote, b, j, d)
    requires CalledThrough(At(history, remote, In(b, d)), In(b, d), b, j)
    ensures GoesOn(history, later, remote, MeaningOf(b)) && ShardDone(later, remote, b, d, j)
  {
    ReceiveReady(history, remote, b, d, j);
    SendReady(history, remote, b, d, j);
    forall i: nat | i < j ensures Released(At(history, remote, In(b, d)), i) {
      assert ShardDone(history, remote, b, d, i);
    }
    later := Finish(history, remote, MeaningOf(b), In(b, d), j);
  }

  // ----- all of them

  lemma {:induction false} OneMore(history: Moves<Hop>, remote: Hop -> bool, b: Cast, j: nat, d: nat)
    requires AllFed(b) && d < b.dst.size
    requires DoneUpTo(history, remote, b, j, d) && ShardDone(history, remote, b, d, j)
    ensures DoneUpTo(history, remote, b, j, d + 1)
  {
  }

  lemma {:induction false} CalledForLess(e: Exchange, hop: Hop, b: Cast, k: nat, j: nat)
    requires CalledThrough(e, hop, b, k) && j <= k
    ensures CalledThrough(e, hop, b, j)
  {
  }

  lemma {:induction false} FinishNext(history: Moves<Hop>, remote: Hop -> bool, b: Cast, k: nat, j: nat, d: nat)
    returns (later: Moves<Hop>)
    requires AllFed(b) && OwnEvents(b) && AllCalled(history, remote, b, k) && j <= k && d < b.dst.size
    requires DoneUpTo(history, remote, b, j, d)
    ensures GoesOn(history, later, remote, MeaningOf(b)) && DoneUpTo(later, remote, b, j, d + 1)
  {
    CalledForLess(At(history, remote, In(b, d)), In(b, d), b, k, j);
    later := FinishShard(history, remote, b, d, j);
    StillDone(history, later, remote, b, j, d);
    OneMore(later, remote, b, j, d);
  }

  lemma {:induction false} FinishRound(history: Moves<Hop>, remote: Hop -> bool, b: Cast, k: nat, j: nat)
    returns (later: Moves<Hop>)
    requires AllFed(b) && OwnEvents(b) && AllCalled(history, remote, b, k) && j <= k
    requires DoneUpTo(history, remote, b, j, 0)
    ensures GoesOn(history, later, remote, MeaningOf(b)) && DoneUpTo(later, remote, b, j, b.dst.size)
  {
    later := history;
    GoesOnBy(history, remote, MeaningOf(b));
    for d := 0 to b.dst.size
      invariant GoesOn(history, later, remote, MeaningOf(b)) && DoneUpTo(later, remote, b, j, d)
    {
      StillCalled(history, later, remote, b, k);
      var next := FinishNext(later, remote, b, k, j, d);
      GoesOnTwice(history, later, next, remote, MeaningOf(b));
      later := next;
    }
  }

  lemma {:induction false} RoundDone(history: Moves<Hop>, remote: Hop -> bool, b: Cast, j: nat)
    requires AllFed(b) && DoneUpTo(history, remote, b, j, b.dst.size)
    ensures DoneUpTo(history, remote, b, j + 1, 0)
  {
  }

  lemma {:induction false} FinishRounds(history: Moves<Hop>, remote: Hop -> bool, b: Cast, k: nat)
    returns (later: Moves<Hop>)
    requires AllFed(b) && OwnEvents(b) && AllCalled(history, remote, b, k)
    ensures GoesOn(history, later, remote, MeaningOf(b)) && DoneUpTo(later, remote, b, k + 1, 0)
  {
    later := history;
    GoesOnBy(history, remote, MeaningOf(b));
    for j := 0 to k + 1
      invariant GoesOn(history, later, remote, MeaningOf(b)) && DoneUpTo(later, remote, b, j, 0)
    {
      StillCalled(history, later, remote, b, k);
      var next := FinishRound(later, remote, b, k, j);
      RoundDone(next, remote, b, j);
      GoesOnTwice(history, later, next, remote, MeaningOf(b));
      later := next;
    }
  }

  /**
   When every shard is fed, rounds 0 to k have been called on every way into a shard, all names have been
   delivered and the sources are ready, firing events alone releases every shard from all these rounds;
   and the event of a receive or of a view fires under another key only after what it stands for.
   */
  lemma {:induction false} BroadcastCompletes(history: Moves<Hop>, remote: Hop -> bool, b: Cast, k: nat)
    returns (later: Moves<Hop>)
    requires AllFed(b) && OwnEvents(b) && AllCalled(history, remote, b, k)
    requires AlwaysSound(history, remote, MeaningOf(b))
    ensures history <= later && (forall m :: |history| <= m < |later| ==> IsFiring(later[m].1))
    ensures AlwaysSound(later, remote, MeaningOf(b))
    ensures forall hop: Hop :: At(later, remote, hop).Sends() == At(history, remote, hop).Sends()
                               && At(later, remote, hop).Recvs() == At(history, remote, hop).Recvs()
    ensures forall hop: Hop, j: nat :: MayReceive(hop, b) && j <= k ==> Released(At(later, remote, hop), j)
  {
    later := FinishRounds(history, remote, b, k);
    forall hop: Hop, j: nat | MayReceive(hop, b) && j <= k ensures Released(At(later, remote, hop), j) {
      InFacts(b, hop.Into());
      OneWayIn(hop, In(b, hop.Into()), b);
      assert ShardDone(later, remote, b, hop.Into(), j);
    }
  }
}
