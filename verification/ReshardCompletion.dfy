/**
 Plans, protocol and stores together: once all calls of the first rounds have been made and the sources
 are ready, events alone release every destination from all of these rounds.
 */
module ReshardCompletion {
  import opened Delivery
  import opened Halves
  import opened Realm
  import opened Stores
  import opened StoreUses
  import opened Exchanges
  import opened History
  import opened EndToEnd
  import opened Completion

  // ----- whose events are whose

  /** The event of a receive stands for its release. */
  ghost function MeaningOf(r: Reshard): Meaning<Key> {
    (x: nat) => iset key: Key, i: nat | x == r.upkeep.name(key, i) :: Got(key, i)
  }

  /** Events of tasks and of other arrays: none of them belongs to a receive of this reshard. */
  ghost predicate Foreign(event: Event, r: Reshard) {
    forall a :: a in event ==> a.External? && forall key: Key, i: nat :: a.id != r.upkeep.name(key, i)
  }

  /** Each receive has an event of its own, and apart from them the stores see foreign events only. */
  ghost predicate OwnEvents(r: Reshard) {
    && (forall key: Key, i: nat, other: Key, j: nat :: r.upkeep.name(key, i) == r.upkeep.name(other, j) ==>
          key == other && i == j)
    && (forall d: nat :: Foreign(Events(StorePrecondition(r.upkeep.first(d))), r))
    && (forall d: nat, k: nat, i: nat :: i < |r.upkeep.uses(d, k)| && r.upkeep.uses(d, k)[i].ByTask? ==>
          Foreign(r.upkeep.uses(d, k)[i].completion, r))
  }

  ghost predicate IsReceive(a: Atom, r: Reshard, s: nat, d: nat, i: nat)
    requires Admissible(r)
  {
    s < r.src.devices.size && Wanted(s, d, r) && a == External(r.upkeep.name(Key(s, d), i))
  }

  /** The event of a receive of a round before k into destination d. */
  ghost predicate OfEarlierRound(a: Atom, r: Reshard, d: nat, k: nat)
    requires Admissible(r)
  {
    exists s: nat, i: nat :: i < k && IsReceive(a, r, s, d, i)
  }

  lemma {:induction false} OfRound(a: Atom, r: Reshard, d: nat, k: nat)
    requires Admissible(r) && a in RoundEvent(r, d, k)
    ensures OfEarlierRound(a, r, d, k + 1)
  {
    var s: nat :| s < r.src.devices.size && Wanted(s, d, r) && a == External(r.upkeep.name(Key(s, d), k));
    assert IsReceive(a, r, s, d, k);
  }

  lemma {:induction false} StillEarlier(a: Atom, r: Reshard, d: nat, k: nat)
    requires Admissible(r) && OfEarlierRound(a, r, d, k)
    ensures OfEarlierRound(a, r, d, k + 1)
  {
    var s: nat, i: nat :| i < k && IsReceive(a, r, s, d, i);
    assert i < k + 1 && IsReceive(a, r, s, d, i);
  }

  lemma {:induction false} FromUses(made: StoreState, uses: seq<Use>, r: Reshard, a: Atom)
    requires a in Events(StorePrecondition(AfterUses(made, uses))) && a !in Events(StorePrecondition(made))
    requires forall i :: 0 <= i < |uses| && uses[i].ByTask? ==> Foreign(uses[i].completion, r)
    ensures Foreign({a}, r)
  {
    OnlyFromUses(made, uses, a);
  }

  /** What a store waits for in a round is foreign, or comes from the round before. */
  lemma {:induction false} PreconditionBefore(r: Reshard, d: nat, k: nat, a: Atom)
    requires Admissible(r) && OwnEvents(r) && k > 0 && a in Events(StorePrecondition(StoreAt(r, d, k)))
    ensures Foreign({a}, r) || a in RoundEvent(r, d, k - 1) || a in Events(StorePrecondition(StoreAt(r, d, k - 1)))
  {
    var made := ReadyAfter(StoreAt(r, d, k - 1), RoundEvent(r, d, k - 1));
    if a !in Events(StorePrecondition(made)) {
      FromUses(made, r.upkeep.uses(d, k - 1), r, a);
    }
  }

  /** What is left to wait for in round k: foreign events, and receives of earlier rounds into the same tile. */
  lemma {:induction false} PreconditionFrom(r: Reshard, d: nat, k: nat, a: Atom)
    requires Admissible(r) && OwnEvents(r) && a in Events(StorePrecondition(StoreAt(r, d, k)))
    ensures Foreign({a}, r) || OfEarlierRound(a, r, d, k)
    decreases k
  {
    if k > 0 {
      PreconditionBefore(r, d, k, a);
      if a in RoundEvent(r, d, k - 1) {
        OfRound(a, r, d, k - 1);
      } else if !Foreign({a}, r) {
        PreconditionFrom(r, d, k - 1, a);
        StillEarlier(a, r, d, k - 1);
      }
    }
  }

  // ----- one receive

  /** Rounds 0 to k have been called on both sides of the key, and what the sender waits for has fired. */
  ghost predicate CalledThrough(e: Exchange, key: Key, r: Reshard, k: nat)
    requires Admissible(r)
  {
    Called(e, k) && WaitsForStore(e, key, r) && forall j :: 0 <= j <= k ==> e.Sends()[j].pre <= e.Fired()
  }

  ghost predicate AllCalled(history: Moves<Key>, remote: Key -> bool, r: Reshard, k: nat)
    requires Admissible(r)
  {
    forall s: nat, d: nat :: s < r.src.devices.size && d < r.dst.devices.size && Wanted(s, d, r) ==>
      CalledThrough(At(history, remote, Key(s, d)), Key(s, d), r, k)
  }

  lemma {:induction false} StillCalled(history: Moves<Key>, later: Moves<Key>, remote: Key -> bool, r: Reshard, k: nat)
    requires Admissible(r) && AllCalled(history, remote, r, k) && GoesOn(history, later, remote, MeaningOf(r))
    ensures AllCalled(later, remote, r, k)
  {
    forall s: nat, d: nat | s < r.src.devices.size && d < r.dst.devices.size && Wanted(s, d, r)
      ensures CalledThrough(At(later, remote, Key(s, d)), Key(s, d), r, k)
    {
      assert CalledThrough(At(history, remote, Key(s, d)), Key(s, d), r, k);
      assert FiredMore(At(history, remote, Key(s, d)), At(later, remote, Key(s, d)));
    }
  }

  lemma {:induction false} CalledForLess(history: Moves<Key>, remote: Key -> bool, r: Reshard, k: nat, j: nat)
    requires Admissible(r) && AllCalled(history, remote, r, k) && j <= k
    ensures AllCalled(history, remote, r, j)
  {
    forall s: nat, d: nat | s < r.src.devices.size && d < r.dst.devices.size && Wanted(s, d, r)
      ensures CalledThrough(At(history, remote, Key(s, d)), Key(s, d), r, j)
    {
      assert CalledThrough(At(history, remote, Key(s, d)), Key(s, d), r, k);
    }
  }

  /** Destination d has been released from the rounds before j. */
  ghost predicate ReleasedBefore(history: Moves<Key>, remote: Key -> bool, r: Reshard, d: nat, j: nat)
    requires Admissible(r)
  {
    forall s: nat, i: nat :: i < j && s < r.src.devices.size && Wanted(s, d, r) ==>
      Happened(history, remote, Got(Key(s, d), i))
  }

  lemma {:induction false} StillReleased(history: Moves<Key>, later: Moves<Key>, remote: Key -> bool, r: Reshard,
                                         d: nat, j: nat)
    requires Admissible(r) && ReleasedBefore(history, remote, r, d, j)
    requires GoesOn(history, later, remote, MeaningOf(r))
    ensures ReleasedBefore(later, remote, r, d, j)
  {
    forall s: nat, i: nat | i < j && s < r.src.devices.size && Wanted(s, d, r)
      ensures Happened(later, remote, Got(Key(s, d), i))
    {
      StillHappened(history, later, remote, MeaningOf(r), Got(Key(s, d), i));
    }
  }

  /** After the earlier rounds, what a receive waits for may fire. */
  lemma {:induction false} PreconditionMayFire(history: Moves<Key>, remote: Key -> bool, r: Reshard, d: nat, j: nat,
                                               a: Atom)
    requires Admissible(r) && OwnEvents(r) && ReleasedBefore(history, remote, r, d, j)
    requires a in Events(StorePrecondition(StoreAt(r, d, j)))
    ensures a.External? && AllHappened(history, remote, MeaningOf(r)(a.id))
  {
    PreconditionFrom(r, d, j, a);
    if OfEarlierRound(a, r, d, j) {
      var s: nat, i: nat :| i < j && IsReceive(a, r, s, d, i);
      assert Happened(history, remote, Got(Key(s, d), i));
    }
  }

  /** After the earlier rounds, receive j can be completed. */
  lemma {:induction false} FinishOne(history: Moves<Key>, remote: Key -> bool, r: Reshard, key: Key, j: nat)
    returns (later: Moves<Key>)
    requires Admissible(r) && OwnEvents(r) && ReleasedBefore(history, remote, r, key.dst, j)
    requires key.src < r.src.devices.size && Wanted(key.src, key.dst, r)
    requires CalledThrough(At(history, remote, key), key, r, j)
    ensures GoesOn(history, later, remote, MeaningOf(r)) && Happened(later, remote, Got(key, j))
  {
    var e := At(history, remote, key);
    forall a | a in e.Recvs()[j].pre - e.Fired()
      ensures a.External? && AllHappened(history, remote, MeaningOf(r)(a.id))
    {
      PreconditionMayFire(history, remote, r, key.dst, j, a);
    }
    forall i: nat | i < j ensures Released(e, i) {
      assert Happened(history, remote, Got(Key(key.src, key.dst), i));
    }
    later := Finish(history, remote, MeaningOf(r), key, j);
  }

  // ----- all of them

  /** Sources before n have released destination d from round j. */
  ghost predicate ReleasedFrom(history: Moves<Key>, remote: Key -> bool, r: Reshard, d: nat, j: nat, n: nat)
    requires Admissible(r)
  {
    forall s: nat :: s < n && Wanted(s, d, r) ==> Happened(history, remote, Got(Key(s, d), j))
  }

  lemma {:induction false} StillReleasedFrom(history: Moves<Key>, later: Moves<Key>, remote: Key -> bool, r: Reshard,
                                             d: nat, j: nat, n: nat)
    requires Admissible(r) && ReleasedFrom(history, remote, r, d, j, n)
    requires GoesOn(history, later, remote, MeaningOf(r))
    ensures ReleasedFrom(later, remote, r, d, j, n)
  {
    forall s: nat | s < n && Wanted(s, d, r) ensures Happened(later, remote, Got(Key(s, d), j)) {
      StillHappened(history, later, remote, MeaningOf(r), Got(Key(s, d), j));
    }
  }

  lemma {:induction false} OneMoreSource(history: Moves<Key>, remote: Key -> bool, r: Reshard, d: nat, j: nat, n: nat)
    requires Admissible(r) && ReleasedFrom(history, remote, r, d, j, n)
    requires Wanted(n, d, r) ==> Happened(history, remote, Got(Key(n, d), j))
    ensures ReleasedFrom(history, remote, r, d, j, n + 1)
  {
  }

  lemma {:induction false} FinishSource(history: Moves<Key>, remote: Key -> bool, r: Reshard, d: nat, j: nat, n: nat)
    returns (later: Moves<Key>)
    requires Admissible(r) && OwnEvents(r) && ReleasedBefore(history, remote, r, d, j)
    requires AllCalled(history, remote, r, j) && d < r.dst.devices.size && n < r.src.devices.size
    requires ReleasedFrom(history, remote, r, d, j, n)
    ensures GoesOn(history, later, remote, MeaningOf(r)) && ReleasedFrom(later, remote, r, d, j, n + 1)
  {
    if Wanted(n, d, r) {
      assert CalledThrough(At(history, remote, Key(n, d)), Key(n, d), r, j);
      later := FinishOne(history, remote, r, Key(n, d), j);
      StillReleasedFrom(history, later, remote, r, d, j, n);
    } else {
      later := history;
      GoesOnBy(history, remote, MeaningOf(r));
    }
    OneMoreSource(later, remote, r, d, j, n);
  }

  /** Round j of destination d. */
  lemma {:induction false} FinishRound(history: Moves<Key>, remote: Key -> bool, r: Reshard, d: nat, j: nat)
    returns (later: Moves<Key>)
    requires Admissible(r) && OwnEvents(r) && AllCalled(history, remote, r, j) && d < r.dst.devices.size
    requires ReleasedBefore(history, remote, r, d, j)
    ensures GoesOn(history, later, remote, MeaningOf(r)) && ReleasedBefore(later, remote, r, d, j + 1)
  {
    later := history;
    GoesOnBy(history, remote, MeaningOf(r));
    for n := 0 to r.src.devices.size
      invariant GoesOn(history, later, remote, MeaningOf(r)) && ReleasedFrom(later, remote, r, d, j, n)
    {
      StillCalled(history, later, remote, r, j);
      StillReleased(history, later, remote, r, d, j);
      var next := FinishSource(later, remote, r, d, j, n);
      GoesOnTwice(history, later, next, remote, MeaningOf(r));
      later := next;
    }
    StillReleased(history, later, remote, r, d, j);
    RoundAdded(later, remote, r, d, j);
  }

  lemma {:induction false} RoundAdded(history: Moves<Key>, remote: Key -> bool, r: Reshard, d: nat, j: nat)
    requires Admissible(r) && ReleasedBefore(history, remote, r, d, j)
    requires ReleasedFrom(history, remote, r, d, j, r.src.devices.size)
    ensures ReleasedBefore(history, remote, r, d, j + 1)
  {
  }

  /** All rounds up to round k of destination d. */
  lemma {:induction false} FinishRounds(history: Moves<Key>, remote: Key -> bool, r: Reshard, d: nat, k: nat)
    returns (later: Moves<Key>)
    requires Admissible(r) && OwnEvents(r) && AllCalled(history, remote, r, k) && d < r.dst.devices.size
    ensures GoesOn(history, later, remote, MeaningOf(r)) && ReleasedBefore(later, remote, r, d, k + 1)
  {
    later := history;
    GoesOnBy(history, remote, MeaningOf(r));
    for j := 0 to k + 1
      invariant GoesOn(history, later, remote, MeaningOf(r)) && ReleasedBefore(later, remote, r, d, j)
    {
      StillCalled(history, later, remote, r, k);
      CalledForLess(later, remote, r, k, j);
      var next := FinishRound(later, remote, r, d, j);
      GoesOnTwice(history, later, next, remote, MeaningOf(r));
      later := next;
    }
  }

  ghost predicate DestinationsReleased(history: Moves<Key>, remote: Key -> bool, r: Reshard, j: nat, n: nat)
    requires Admissible(r)
  {
    forall d: nat :: d < n ==> ReleasedBefore(history, remote, r, d, j)
  }

  lemma {:induction false} StillDestinations(history: Moves<Key>, later: Moves<Key>, remote: Key -> bool, r: Reshard,
                                             j: nat, n: nat)
    requires Admissible(r) && DestinationsReleased(history, remote, r, j, n)
    requires GoesOn(history, later, remote, MeaningOf(r))
    ensures DestinationsReleased(later, remote, r, j, n)
  {
    forall d: nat | d < n ensures ReleasedBefore(later, remote, r, d, j) {
      StillReleased(history, later, remote, r, d, j);
    }
  }

  lemma {:induction false} OneMore(history: Moves<Key>, remote: Key -> bool, r: Reshard, j: nat, n: nat)
    requires Admissible(r) && DestinationsReleased(history, remote, r, j, n) && ReleasedBefore(history, remote, r, n, j)
    ensures DestinationsReleased(history, remote, r, j, n + 1)
  {
  }

  lemma {:induction false} FinishDestination(history: Moves<Key>, remote: Key -> bool, r: Reshard, k: nat, d: nat)
    returns (later: Moves<Key>)
    requires Admissible(r) && OwnEvents(r) && AllCalled(history, remote, r, k) && d < r.dst.devices.size
    requires DestinationsReleased(history, remote, r, k + 1, d)
    ensures GoesOn(history, later, remote, MeaningOf(r)) && DestinationsReleased(later, remote, r, k + 1, d + 1)
  {
    later := FinishRounds(history, remote, r, d, k);
    StillDestinations(history, later, remote, r, k + 1, d);
    OneMore(later, remote, r, k + 1, d);
  }

  lemma {:induction false} FinishDestinations(history: Moves<Key>, remote: Key -> bool, r: Reshard, k: nat)
    returns (later: Moves<Key>)
    requires Admissible(r) && OwnEvents(r) && AllCalled(history, remote, r, k)
    ensures GoesOn(history, later, remote, MeaningOf(r))
    ensures DestinationsReleased(later, remote, r, k + 1, r.dst.devices.size)
  {
    later := history;
    GoesOnBy(history, remote, MeaningOf(r));
    for d := 0 to r.dst.devices.size
      invariant GoesOn(history, later, remote, MeaningOf(r)) && DestinationsReleased(later, remote, r, k + 1, d)
    {
      StillCalled(history, later, remote, r, k);
      var next := FinishDestination(later, remote, r, k, d);
      GoesOnTwice(history, later, next, remote, MeaningOf(r));
      later := next;
    }
  }

  /**
   Once rounds 0 to k have been called on both sides of every key, all names have been delivered and what
   the sources wait for has fired, firing events alone releases every destination from all these rounds;
   and the event of a receive fires under another key only after it has been released.
   */
  lemma {:induction false} ReshardCompletes(history: Moves<Key>, remote: Key -> bool, r: Reshard, k: nat)
    returns (later: Moves<Key>)
    requires Admissible(r) && OwnEvents(r) && AllCalled(history, remote, r, k)
    requires AlwaysSound(history, remote, MeaningOf(r))
    ensures history <= later && (forall m :: |history| <= m < |later| ==> IsFiring(later[m].1))
    ensures AlwaysSound(later, remote, MeaningOf(r))
    ensures forall key: Key :: At(later, remote, key).Sends() == At(history, remote, key).Sends()
                               && At(later, remote, key).Recvs() == At(history, remote, key).Recvs()
    ensures forall d: nat, j: nat :: d < r.dst.devices.size && j <= k ==> RoundReleased(later, remote, r, d, j)
  {
    later := FinishDestinations(history, remote, r, k);
    forall d: nat, j: nat | d < r.dst.devices.size && j <= k ensures RoundReleased(later, remote, r, d, j) {
      assert ReleasedBefore(later, remote, r, d, k + 1);
      forall t: Transfer | Expected(r.strategy, t, r.src, r.dst) && t.dst == d
        ensures Released(At(later, remote, Key(t.src, t.dst)), j)
      {
        ExpectedSource(t, r);
        assert Happened(later, remote, Got(Key(t.src, d), j));
      }
    }
  }
}
