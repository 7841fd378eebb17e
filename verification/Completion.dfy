/**
 Nothing is lost under many keys at once: an exchange whose calls have been made can be completed by
 firing events, without any event firing elsewhere before what it stands for has come about.
 */
module Completion {
  import opened Realm
  import opened Exchanges
  import opened History

  /** A receive that has been released, or a send that is off. */
  datatype Outcome<K> = Got(key: K, round: nat) | Gave(key: K, round: nat)

  predicate Happened<K(==)>(history: Moves<K>, remote: K -> bool, outcome: Outcome<K>) {
    match outcome
    case Got(key, k) => Released(At(history, remote, key), k)
    case Gave(key, k) => SentOff(At(history, remote, key), k)
  }

  /** What an event that is known outside its exchange stands for: nothing, for events of others. */
  type Meaning<!K(==)> = nat -> iset<Outcome<K>>

  ghost predicate AllHappened<K(!new)>(history: Moves<K>, remote: K -> bool, outcomes: iset<Outcome<K>>) {
    forall outcome :: outcome in outcomes ==> Happened(history, remote, outcome)
  }

  // ----- events fire under other keys only after what they stand for

  ghost predicate SoundNow<K(!new)>(history: Moves<K>, remote: K -> bool, meaning: Meaning<K>) {
    forall key: K, x: nat :: External(x) in At(history, remote, key).Fired() ==>
      AllHappened(history, remote, meaning(x))
  }

  ghost predicate AlwaysSound<K(!new)>(history: Moves<K>, remote: K -> bool, meaning: Meaning<K>) {
    forall n: nat :: n <= |history| ==> SoundNow(history[..n], remote, meaning)
  }

  /** Events that may fire now, wherever they are waited for. */
  ghost predicate MayFire<K(!new)>(history: Moves<K>, remote: K -> bool, meaning: Meaning<K>, event: Event) {
    forall a :: a in event ==> a.External? && AllHappened(history, remote, meaning(a.id))
  }

  predicate IsFiring(move: Move) {
    (move.Across? && move.step.Fire?) || (move.Within? && move.localStep.LocalFire?)
  }

  /** The later history goes on with firings only, and soundly. */
  ghost predicate GoesOn<K(!new)>(history: Moves<K>, later: Moves<K>, remote: K -> bool, meaning: Meaning<K>) {
    && history <= later && (forall m :: |history| <= m < |later| ==> IsFiring(later[m].1))
    && (forall key: K :: FiredMore(At(history, remote, key), At(later, remote, key)))
    && (AlwaysSound(history, remote, meaning) ==> AlwaysSound(later, remote, meaning))
  }

  lemma {:induction false} GoesOnBy<K(!new)>(history: Moves<K>, remote: K -> bool, meaning: Meaning<K>)
    ensures GoesOn(history, history, remote, meaning)
  {
  }

  lemma {:induction false} GoesOnTwice<K(!new)>(a: Moves<K>, b: Moves<K>, c: Moves<K>, remote: K -> bool,
                                                meaning: Meaning<K>)
    requires GoesOn(a, b, remote, meaning) && GoesOn(b, c, remote, meaning)
    ensures GoesOn(a, c, remote, meaning)
  {
    forall m | |a| <= m < |c| ensures IsFiring(c[m].1) {
      assert m < |b| ==> b[m] == c[m];
    }
    forall key: K ensures FiredMore(At(a, remote, key), At(c, remote, key)) {
      assert FiredMore(At(a, remote, key), At(b, remote, key)) && FiredMore(At(b, remote, key), At(c, remote, key));
    }
  }

  lemma {:induction false} StillHappened<K(!new)>(history: Moves<K>, later: Moves<K>, remote: K -> bool,
                                                  meaning: Meaning<K>, outcome: Outcome<K>)
    requires Happened(history, remote, outcome) && GoesOn(history, later, remote, meaning)
    ensures Happened(later, remote, outcome)
  {
    assert FiredMore(At(history, remote, outcome.key), At(later, remote, outcome.key));
  }

  /** Firing under one key, as seen from every key. */
  lemma {:induction false} FiredUnder<K(!new)>(history: Moves<K>, remote: K -> bool, key: K, atoms: seq<Atom>, other: K)
    ensures var before := At(history, remote, other);
      var after := At(history + Under(key, remote(key), atoms), remote, other);
      FiredMore(before, after) && forall a :: a in after.Fired() ==> a in before.Fired() || a in atoms
  {
    AtFired(history, remote, key, atoms, other);
    FiringFires(At(history, remote, key), atoms);
  }

  /** The atoms from outside among those that are fired may fire now. */
  ghost predicate Harmless<K(!new)>(history: Moves<K>, remote: K -> bool, meaning: Meaning<K>, atoms: seq<Atom>) {
    forall x: nat :: External(x) in atoms ==> AllHappened(history, remote, meaning(x))
  }

  lemma {:induction false} FiredSound<K(!new)>(history: Moves<K>, remote: K -> bool, meaning: Meaning<K>, key: K,
                                               atoms: seq<Atom>)
    requires SoundNow(history, remote, meaning) && Harmless(history, remote, meaning, atoms)
    ensures SoundNow(history + Under(key, remote(key), atoms), remote, meaning)
  {
    var later := history + Under(key, remote(key), atoms);
    forall k: K, x: nat | External(x) in At(later, remote, k).Fired()
      ensures AllHappened(later, remote, meaning(x))
    {
      FiredUnder(history, remote, key, atoms, k);
      assert AllHappened(history, remote, meaning(x));
      forall outcome | outcome in meaning(x) ensures Happened(later, remote, outcome) {
        FiredUnder(history, remote, key, atoms, outcome.key);
        assert Happened(history, remote, outcome);
      }
    }
  }

  lemma {:induction false} FiringStaysSound<K(!new)>(history: Moves<K>, remote: K -> bool, meaning: Meaning<K>, key: K,
                                                     atoms: seq<Atom>)
    requires AlwaysSound(history, remote, meaning) && Harmless(history, remote, meaning, atoms)
    ensures AlwaysSound(history + Under(key, remote(key), atoms), remote, meaning)
  {
    var later := history + Under(key, remote(key), atoms);
    forall n: nat | n <= |later| ensures SoundNow(later[..n], remote, meaning) {
      if n <= |history| {
        assert later[..n] == history[..n];
      } else {
        var m := n - |history|;
        assert later[..n] == history + Under(key, remote(key), atoms[..m]) && history[..|history|] == history;
        FiredSound(history, remote, meaning, key, atoms[..m]);
      }
    }
  }

  lemma {:induction false} FiringGoesOn<K(!new)>(history: Moves<K>, remote: K -> bool, meaning: Meaning<K>, key: K,
                                                 atoms: seq<Atom>)
    requires Harmless(history, remote, meaning, atoms)
    ensures GoesOn(history, history + Under(key, remote(key), atoms), remote, meaning)
  {
    forall k: K ensures FiredMore(At(history, remote, k), At(history + Under(key, remote(key), atoms), remote, k)) {
      FiredUnder(history, remote, key, atoms, k);
    }
    if AlwaysSound(history, remote, meaning) {
      FiringStaysSound(history, remote, meaning, key, atoms);
    }
  }

  // ----- one exchange

  /** Calls 0 to k have been made on both sides and no names are on their way. */
  predicate Called(e: Exchange, k: nat) {
    AtRest(e) && k < |e.Sends()| && k < |e.Recvs()|
  }

  /** Events that may fire can be fired under a key that waits for them. */
  lemma {:induction false} FireEvent<K(!new)>(history: Moves<K>, remote: K -> bool, meaning: Meaning<K>, key: K,
                                              event: Event) returns (later: Moves<K>)
    requires MayFire(history, remote, meaning, event)
    ensures GoesOn(history, later, remote, meaning) && event <= At(later, remote, key).Fired()
  {
    var e := At(history, remote, key);
    var atoms := OutsideFires(e, event);
    FiringGoesOn(history, remote, meaning, key, atoms);
    AtFired(history, remote, key, atoms, key);
    later := history + Under(key, remote(key), atoms);
  }

  lemma {:induction false} CalledIsReady(e: Exchange, k: nat)
    requires Called(e, k) && e.Sends()[k].pre <= e.Fired() && e.Recvs()[k].pre <= e.Fired()
    requires forall i: nat :: i < k ==> Released(e, i)
    ensures ReadyThrough(e, k)
  {
    forall i: nat | i < k ensures e.Sends()[i].pre <= e.Fired() && e.Recvs()[i].pre <= e.Fired() {
      assert Released(e, i);
      ReleasedMeansFinished(e, i);
    }
  }

  lemma {:induction false} Complete<K(!new)>(history: Moves<K>, remote: K -> bool, meaning: Meaning<K>, key: K, k: nat)
    returns (later: Moves<K>)
    requires ReadyThrough(At(history, remote, key), k)
    ensures GoesOn(history, later, remote, meaning)
    ensures Happened(later, remote, Got(key, k)) && Happened(later, remote, Gave(key, k))
  {
    var atoms := ExchangeCompletes(At(history, remote, key), k);
    FiringGoesOn(history, remote, meaning, key, atoms);
    AtFired(history, remote, key, atoms, key);
    later := history + Under(key, remote(key), atoms);
  }

  /** What is left of a precondition may fire now. */
  ghost predicate Ready<K(!new)>(history: Moves<K>, remote: K -> bool, meaning: Meaning<K>, key: K, pre: Event) {
    MayFire(history, remote, meaning, pre - At(history, remote, key).Fired())
  }

  /** After its earlier rounds, and when what both sides still wait for may fire, round k of a key can be completed. */
  lemma {:induction false} Finish<K(!new)>(history: Moves<K>, remote: K -> bool, meaning: Meaning<K>, key: K, k: nat)
    returns (later: Moves<K>)
    requires Called(At(history, remote, key), k)
    requires forall i: nat :: i < k ==> Released(At(history, remote, key), i)
    requires Ready(history, remote, meaning, key, At(history, remote, key).Sends()[k].pre)
    requires Ready(history, remote, meaning, key, At(history, remote, key).Recvs()[k].pre)
    ensures GoesOn(history, later, remote, meaning)
    ensures Happened(later, remote, Got(key, k)) && Happened(later, remote, Gave(key, k))
  {
    var e := At(history, remote, key);
    var event := (e.Sends()[k].pre - e.Fired()) + (e.Recvs()[k].pre - e.Fired());
    var between := FireEvent(history, remote, meaning, key, event);
    var f := At(between, remote, key);
    assert FiredMore(e, f);
    forall i: nat | i < k ensures Released(f, i) {
      assert Released(e, i);
    }
    CalledIsReady(f, k);
    later := Complete(between, remote, meaning, key, k);
    GoesOnTwice(history, between, later, remote, meaning);
  }
}
