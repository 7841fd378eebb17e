/**
 A history of moves under many reshard keys at once, in any interleaving, and what its copies do to
 the contents of the instances.
 */
module History {
  import opened Shape
  import opened TiledArray
  import opened Realm
  import opened RemoteProtocol
  import opened RemoteRuns
  import opened LocalProtocol
  import opened Exchanges

  type Moves<K> = seq<(K, Move)>

  /** What has happened under one key; `remote` says which keys join two address spaces. */
  function At<K(==)>(history: Moves<K>, remote: K -> bool, key: K): Exchange {
    if history == [] then if remote(key) then Remote([]) else Nearby([])
    else
      var before, last := At(history[..|history| - 1], remote, key), history[|history| - 1];
      if last.0 == key then Extend(before, last.1) else before
  }

  /** A finished copy: the key, which of the key's copies it is, and the copy. */
  datatype Done<K> = Done(key: K, round: nat, op: CopyOp)

  function NewlyDone<K(==)>(history: Moves<K>, remote: K -> bool, move: (K, Move)): seq<Done<K>> {
    var e := At(history, remote, move.0);
    match Completes(e, move.1)
    case None => []
    case Some(k) => [Done(move.0, k, e.Copies()[k])]
  }

  /** The finished copies, in the order in which they finish. */
  function Log<K(==)>(history: Moves<K>, remote: K -> bool): seq<Done<K>> {
    if history == [] then []
    else
      var before := history[..|history| - 1];
      Log(before, remote) + NewlyDone(before, remote, history[|history| - 1])
  }

  /** Contents of all instances: instance, then element. */
  type Contents<!V> = (nat, Point) -> V

  function IdOf(inst: Instance): nat {
    if inst.Inst? then inst.id else 0
  }

  function Land<K, V>(done: Done<K>, from: Contents<V>, into: Contents<V>): Contents<V> {
    (inst: nat, p: Point) =>
      if done.op.dst == Inst(inst) && InRect(done.op.shape, p) then from(IdOf(done.op.src), p) else into(inst, p)
  }

  /**
   The contents after the logged copies.  Under a key of the first kind the source is one that tasks
   refill from round to round; under any other key it is an instance that earlier copies have filled.
   */
  function After<K, V>(log: seq<Done<K>>, refilled: K -> bool, source: nat -> Contents<V>, target: Contents<V>)
    : Contents<V>
  {
    if log == [] then target
    else
      var before, last := After(log[..|log| - 1], refilled, source, target), log[|log| - 1];
      Land(last, if refilled(last.key) then source(last.round) else before, before)
  }

  // ----- the log and the firings tell the same story

  predicate Logged<K(==)>(log: seq<Done<K>>, key: K, k: nat) {
    exists i :: 0 <= i < |log| && log[i].key == key && log[i].round == k
  }

  lemma {:induction false} LoggedIff<K(!new)>(history: Moves<K>, remote: K -> bool, key: K, k: nat)
    ensures Logged(Log(history, remote), key, k) <==> CopyDone(k) in At(history, remote, key).Fired()
  {
    var log := Log(history, remote);
    if history != [] {
      var before, last := history[..|history| - 1], history[|history| - 1];
      LoggedIff(before, remote, key, k);
      ExtendFinishes(At(before, remote, key), last.1, k);
      LoggedAppend(Log(before, remote), NewlyDone(before, remote, last), key, k);
      NewlyLogged(before, remote, last, key, k);
    } else {
      EmptyExchange(remote(key));
    }
  }

  lemma {:induction false} NewlyLogged<K(!new)>(history: Moves<K>, remote: K -> bool, move: (K, Move), key: K, k: nat)
    ensures Logged(NewlyDone(history, remote, move), key, k) <==>
            move.0 == key && Completes(At(history, remote, key), move.1) == Some(k)
  {
    var done := NewlyDone(history, remote, move);
    if move.0 == key && Completes(At(history, remote, key), move.1) == Some(k) {
      assert done[0].key == key && done[0].round == k;
    }
  }

  lemma {:induction false} EmptyExchange(remote: bool)
    ensures var e := if remote then Remote([]) else Nearby([]);
      e.Fired() == {} && e.Copies() == [] && e.Sends() == [] && e.Recvs() == []
  {
  }

  lemma {:induction false} LoggedAppend<K(!new)>(log: seq<Done<K>>, more: seq<Done<K>>, key: K, k: nat)
    ensures Logged(log + more, key, k) <==> Logged(log, key, k) || Logged(more, key, k)
  {
    if Logged(log, key, k) {
      var i :| 0 <= i < |log| && log[i].key == key && log[i].round == k;
      assert (log + more)[i] == log[i];
    }
    if Logged(more, key, k) {
      var i :| 0 <= i < |more| && more[i].key == key && more[i].round == k;
      assert (log + more)[|log| + i] == more[i];
    }
  }

  /** The moment at which entry j of the log was made: its copy was ready to finish, and the log was as long as j. */
  lemma {:induction false} EntryMade<K(!new)>(history: Moves<K>, remote: K -> bool, j: nat) returns (n: nat)
    requires j < |Log(history, remote)|
    ensures n < |history| && Log(history[..n], remote) == Log(history, remote)[..j]
    ensures var entry, e := Log(history, remote)[j], At(history[..n], remote, Log(history, remote)[j].key);
      e.CanFinish(entry.round) && entry.round < |e.Copies()| && entry.op == e.Copies()[entry.round]
  {
    var before, last := history[..|history| - 1], history[|history| - 1];
    var log := Log(before, remote);
    if j < |log| {
      n := EntryMade(before, remote, j);
      assert before[..n] == history[..n];
      assert Log(history, remote)[..j] == log[..j];
    } else {
      n := |history| - 1;
      assert Log(history, remote)[..j] == log;
    }
  }

  /** A copy finishes once. */
  lemma {:induction false} LoggedOnce<K(!new)>(history: Moves<K>, remote: K -> bool, i: nat, j: nat)
    requires i < j < |Log(history, remote)|
    ensures var log := Log(history, remote);
      !(log[i].key == log[j].key && log[i].round == log[j].round)
  {
    var log := Log(history, remote);
    var n := EntryMade(history, remote, j);
    LoggedIff(history[..n], remote, log[j].key, log[j].round);
    assert log[..j][i] == log[i];
  }

  lemma {:induction false} AtKeeps<K(!new)>(history: Moves<K>, remote: K -> bool, key: K, n: nat)
    requires n <= |history|
    ensures var e, later := At(history[..n], remote, key), At(history, remote, key);
      e.Copies() <= later.Copies() && e.Sends() <= later.Sends() && e.Recvs() <= later.Recvs()
      && e.Fired() <= later.Fired()
    decreases |history|
  {
    if n == |history| {
      assert history[..n] == history;
    } else {
      var before := history[..|history| - 1];
      AtKeeps(before, remote, key, n);
      assert before[..n] == history[..n];
      ExtendKeeps(At(before, remote, key), history[|history| - 1].1);
    }
  }

  // ----- firing events under a key

  function FireMove(remote: bool, a: Atom): Move {
    if remote then Across(Fire(a)) else Within(LocalFire(a))
  }

  /** The moves that try the events one after the other. */
  function Under<K>(key: K, remote: bool, atoms: seq<Atom>): Moves<K> {
    seq(|atoms|, i requires 0 <= i < |atoms| => (key, FireMove(remote, atoms[i])))
  }

  lemma {:induction false} AtKind<K(!new)>(history: Moves<K>, remote: K -> bool, key: K)
    ensures At(history, remote, key).Remote? <==> remote(key)
  {
    if history != [] {
      AtKind(history[..|history| - 1], remote, key);
    }
  }

  /** Firing under one key changes nothing under the others. */
  lemma {:induction false} AtFired<K(!new)>(history: Moves<K>, remote: K -> bool, key: K, atoms: seq<Atom>, other: K)
    ensures At(history + Under(key, remote(key), atoms), remote, other) ==
            if other == key then Firing(At(history, remote, key), atoms) else At(history, remote, other)
  {
    var e := At(history, remote, key);
    if atoms == [] {
      assert history + Under(key, remote(key), atoms) == history;
      assert Firing(e, atoms) == e by {
        match e
        case Remote(steps) => assert steps + FireSteps(atoms) == steps;
        case Nearby(steps) => assert steps + LocalFireSteps(atoms) == steps;
      }
    } else {
      var n := |atoms| - 1;
      AtFired(history, remote, key, atoms[..n], other);
      AtKind(history, remote, key);
      var before, after := history + Under(key, remote(key), atoms[..n]), history + Under(key, remote(key), atoms);
      assert after == before + [(key, FireMove(remote(key), atoms[n]))] && after[..|after| - 1] == before;
      FiringLast(e, atoms);
    }
  }

  lemma {:induction false} FiringLast(e: Exchange, atoms: seq<Atom>)
    requires atoms != []
    ensures Firing(e, atoms) == Extend(Firing(e, atoms[..|atoms| - 1]), FireMove(e.Remote?, atoms[|atoms| - 1]))
  {
    var n := |atoms| - 1;
    match e
    case Remote(steps) => assert steps + FireSteps(atoms) == steps + FireSteps(atoms[..n]) + [Fire(atoms[n])];
    case Nearby(steps) =>
      assert steps + LocalFireSteps(atoms) == steps + LocalFireSteps(atoms[..n]) + [LocalFire(atoms[n])];
  }

  // ----- what an element holds

  /** Entry i writes element p of instance inst. */
  predicate WritesAt<K>(log: seq<Done<K>>, i: nat, inst: nat, p: Point)
    requires i < |log|
  {
    log[i].op.dst == Inst(inst) && InRect(log[i].op.shape, p)
  }

  /** What the last entry does to an element. */
  lemma {:induction false} AfterLast<K, V>(log: seq<Done<K>>, refilled: K -> bool, source: nat -> Contents<V>,
                                           target: Contents<V>, inst: nat, p: Point)
    requires log != []
    ensures var last, before := log[|log| - 1], After(log[..|log| - 1], refilled, source, target);
      After(log, refilled, source, target)(inst, p) ==
        if !WritesAt(log, |log| - 1, inst, p) then before(inst, p)
        else if refilled(last.key) then source(last.round)(IdOf(last.op.src), p)
        else before(IdOf(last.op.src), p)
  {
  }

  /** An element holds what the last entry that writes it brought, or what it held at first. */
  lemma {:induction false} LastWriter<K, V>(log: seq<Done<K>>, refilled: K -> bool, source: nat -> Contents<V>,
                                            target: Contents<V>, inst: nat, p: Point) returns (i: int)
    ensures -1 <= i < |log| && forall j :: i < j < |log| ==> !WritesAt(log, j, inst, p)
    ensures i >= 0 ==> WritesAt(log, i, inst, p)
    ensures After(log, refilled, source, target)(inst, p) ==
            if i < 0 then target(inst, p)
            else if refilled(log[i].key) then source(log[i].round)(IdOf(log[i].op.src), p)
            else After(log[..i], refilled, source, target)(IdOf(log[i].op.src), p)
  {
    if log == [] {
      i := -1;
    } else {
      var n := |log| - 1;
      if WritesAt(log, n, inst, p) {
        i := n;
      } else {
        i := LastWriter(log[..n], refilled, source, target, inst, p);
        assert forall j :: 0 <= j < n ==> (WritesAt(log[..n], j, inst, p) <==> WritesAt(log, j, inst, p));
        if i >= 0 { assert log[..n][..i] == log[..i]; }
      }
    }
  }
}
