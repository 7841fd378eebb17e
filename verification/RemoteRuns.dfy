/** What every run of the remote protocol guarantees. */
module RemoteRuns {
  import opened Realm
  import opened RemoteProtocol
  import opened RemoteSteps

  // ----- what holds in every run

  /** Copy k pairs send k with receive k, on phase k of both barriers. */
  ghost predicate PairedOn(s: System, ready: nat, ack: nat) {
    ready != ack && forall k: nat :: k < |s.world.copies| ==>
      && k < |s.sends| && k < |s.recvs|
      && s.world.copies[k] == CopyOp(s.sends[0].shape, Inst(s.sends[k].inst), Inst(s.recvs[k].inst),
                                     {Phase(ready, k)} + s.sends[k].pre)
      && (ready, k) in s.world.arrivals && s.world.arrivals[(ready, k)] == s.recvs[k].pre
      && (ack, k) in s.world.arrivals && s.world.arrivals[(ack, k)] == {CopyDone(k)}
  }

  /** A matched send returned its copy, a receive its ack phase; the others returned a user event that waits. */
  ghost predicate ReturnsOn(s: System, ack: nat) {
    && (forall k: nat :: k < |s.sends| ==>
          if k < |s.world.copies| then Denotes(s.sends[k].result, {CopyDone(k)}, s.world)
          else ReturnsWaiter(s.sends[k].result, s.world))
    && (forall k: nat :: k < |s.recvs| ==>
          if AckKnown(s) then Denotes(s.recvs[k].result, {Phase(ack, k)}, s.world)
          else ReturnsWaiter(s.recvs[k].result, s.world))
  }

  ghost predicate ReturnsWaiter(result: Event, w: World) {
    exists user :: Waiting(user, w) && result == user.AsEvent()
  }

  /**
   The k-th copy goes from the instance of the k-th send to the instance of the k-th receive, after
   the k-th send's precondition and ready phase k; ready phase k has one arrival, the k-th
   receive's precondition, and ack phase k has one arrival, the k-th copy.  The event returned to
   the k-th receive denotes ack phase k as soon as the target knows the ack barrier.
   */
  lemma RemotePairing(steps: seq<Step>)
    ensures exists ready: nat, ack: nat :: PairedOn(Run(steps), ready, ack) && ReturnsOn(Run(steps), ack)
  {
    RunInvariant(steps);
    var s := Run(steps);
    var ack := if s.sends != [] then AckId(s) else ReadyId(s) + 1;
    var ready := if s.recvs != [] then ReadyId(s) else ack + 1;
    ReturnsTracked(s, ack);
    assert PairedOn(s, ready, ack);
  }

  lemma ReturnsTracked(s: System, ack: nat)
    requires Invariant(s) && (s.sends != [] ==> ack == AckId(s))
    ensures ReturnsOn(s, ack)
  {
    var c := Copies(s);
    forall k: nat | c <= k < |s.sends| ensures ReturnsWaiter(s.sends[k].result, s.world) {
      assert Waiting(s.source.pendingSource[k - c].toTrigger, s.world);
    }
    forall k: nat | k < |s.recvs| && !AckKnown(s) ensures ReturnsWaiter(s.recvs[k].result, s.world) {
      assert Waiting(s.target.pendingDest[k].toTrigger, s.world);
    }
  }

  /**
   The names carry no sequence number: if the names of the next receive were overtaken by those of
   the one after it, the next copy would go to the wrong receive.
   */
  lemma OvertakenNamesMispair(steps: seq<Step>)
    requires Run(steps).source.pendingSource != [] && |Run(steps).toSource| > 1
    ensures var s, c := Run(steps), |Run(steps).world.copies|;
      var overtaken := Next(s.(toSource := s.toSource[1..]), DeliverToSource);
      && c < |s.sends| && c + 1 < |s.recvs| && |overtaken.world.copies| == c + 1
      && overtaken.world.copies[c].src == Inst(s.sends[c].inst)
      && overtaken.world.copies[c].dst == Inst(s.recvs[c + 1].inst)
  {
    RunInvariant(steps);
    var s := Run(steps);
    assert s.toSource[1..][0] == s.toSource[1];
  }

  /** No assert of the manager can fail, no user event is triggered twice, no barrier phase is arrived at twice. */
  lemma RemoteNeverFaults(steps: seq<Step>)
    ensures !Run(steps).world.fault
  {
    RunInvariant(steps);
  }

  /** Copy k is issued and has finished, and the preconditions of both sides had fired before it. */
  ghost predicate CompletedInOrder(s: System, k: nat) {
    && k < |s.world.copies| && k < |s.sends| && k < |s.recvs|
    && CopyDone(k) in s.fired && s.sends[k].pre <= s.fired && s.recvs[k].pre <= s.fired
  }

  lemma CopyFiredAfter(s: System, k: nat)
    requires Invariant(s) && k < Copies(s) && CopyDone(k) in s.fired
    ensures CompletedInOrder(s, k)
  {
    assert Enabled(s.world, s.fired, CopyDone(k));
    assert Phase(ReadyId(s), k) in s.world.copies[k].precondition;
    assert Enabled(s.world, s.fired, Phase(ReadyId(s), k));
  }

  /**
   When the event returned to receive k has fired, copy k has been issued and has finished, and it
   ran after the preconditions of both sides.
   */
  lemma RecvCausality(steps: seq<Step>, k: nat)
    requires k < |Run(steps).recvs| && Run(steps).recvs[k].result <= Run(steps).fired
    ensures CompletedInOrder(Run(steps), k)
  {
    RunInvariant(steps);
    var s := Run(steps);
    if !AckKnown(s) {
      WaitingHasNotFired(s.target.pendingDest[k].toTrigger, s.world, s.fired);
    } else {
      DenotedFires(s.recvs[k].result, {Phase(AckId(s), k)}, s.world, s.fired);
      assert Phase(AckId(s), k) in s.fired;
      assert Enabled(s.world, s.fired, Phase(AckId(s), k));
      CopyFiredAfter(s, k);
    }
  }

  /** The same for the event returned to send k. */
  lemma SendCausality(steps: seq<Step>, k: nat)
    requires k < |Run(steps).sends| && Run(steps).sends[k].result <= Run(steps).fired
    ensures CompletedInOrder(Run(steps), k)
  {
    RunInvariant(steps);
    var s := Run(steps);
    if k >= Copies(s) {
      WaitingHasNotFired(s.source.pendingSource[k - Copies(s)].toTrigger, s.world, s.fired);
    } else {
      DenotedFires(s.sends[k].result, {CopyDone(k)}, s.world, s.fired);
      assert CopyDone(k) in s.fired;
      CopyFiredAfter(s, k);
    }
  }

  /** Every send and every receive is accounted for, and at rest all possible pairs have been copied. */
  lemma RemoteConservation(steps: seq<Step>)
    ensures var s := Run(steps);
      && |s.sends| == |s.world.copies| + |s.source.pendingSource|
      && |s.recvs| == |s.world.copies| + |s.source.pendingDest| + |s.toSource|
      && (s.toSource == [] ==>
            |s.world.copies| == if |s.sends| <= |s.recvs| then |s.sends| else |s.recvs|)
      && (s.target.ackDone.Barrier? ==> s.target.pendingDest == [])
      && (s.toTarget == [] && s.sends != [] ==> s.target.ackDone.Barrier?)
  {
    RunInvariant(steps);
  }

  // ----- progress

  function FireSteps(atoms: seq<Atom>): seq<Step> {
    seq(|atoms|, i requires 0 <= i < |atoms| => Fire(atoms[i]))
  }

  lemma RunAppend(steps: seq<Step>, step: Step)
    ensures Run(steps + [step]) == Next(Run(steps), step)
  {
    assert (steps + [step])[..|steps|] == steps;
  }

  lemma NextFire(s: System, before: set<Atom>, atom: Atom)
    ensures Next(s.(fired := before), Fire(atom)) ==
            s.(fired := if Enabled(s.world, before, atom) then before + {atom} else before)
  {
  }

  lemma {:induction false} RunFireAll(steps: seq<Step>, atoms: seq<Atom>)
    ensures Run(steps + FireSteps(atoms)) ==
            Run(steps).(fired := FireAll(Run(steps).world, Run(steps).fired, atoms))
  {
    if atoms == [] {
      assert steps + FireSteps(atoms) == steps;
    } else {
      var n := |atoms| - 1;
      RunFireAll(steps, atoms[..n]);
      assert steps + FireSteps(atoms) == steps + FireSteps(atoms[..n]) + [Fire(atoms[n])];
      RunAppend(steps + FireSteps(atoms[..n]), Fire(atoms[n]));
      NextFire(Run(steps), FireAll(Run(steps).world, Run(steps).fired, atoms[..n]), atoms[n]);
    }
  }

  /** Everything up to ack phase k - 1 has fired. */
  ghost predicate FiredThrough(s: System, fired: set<Atom>, k: nat) {
    && s.fired <= fired
    && forall j: nat :: j < k ==> Phase(ReadyId(s), j) in fired && Phase(AckId(s), j) in fired && CopyDone(j) in fired
  }

  /** Ready phase j, copy j and ack phase j can fire one after the other. */
  lemma FireNext(s: System, atoms: seq<Atom>, j: nat)
    requires Invariant(s) && j < Copies(s) && s.sends[j].pre <= s.fired && s.recvs[j].pre <= s.fired
    requires FiredThrough(s, FireAll(s.world, s.fired, atoms), j)
    ensures FiredThrough(
              s, FireAll(s.world, s.fired, atoms + [Phase(ReadyId(s), j)] + [CopyDone(j)] + [Phase(AckId(s), j)]),
              j + 1)
  {
    var ready, ack := Phase(ReadyId(s), j), Phase(AckId(s), j);
    if j > 0 {
      var i: nat := j - 1;
      assert i < j;
    }
    FireOne(s.world, s.fired, atoms, ready);
    FireOne(s.world, s.fired, atoms + [ready], CopyDone(j));
    FireOne(s.world, s.fired, atoms + [ready] + [CopyDone(j)], ack);
  }

  lemma FireThrough(s: System, k: nat) returns (atoms: seq<Atom>)
    requires Invariant(s) && k <= Copies(s)
    requires forall j: nat :: j < k ==> s.sends[j].pre <= s.fired && s.recvs[j].pre <= s.fired
    ensures FiredThrough(s, FireAll(s.world, s.fired, atoms), k) && Internal(atoms)
  {
    atoms := [];
    for j := 0 to k
      invariant Internal(atoms)
      invariant FiredThrough(s, FireAll(s.world, s.fired, atoms), j)
    {
      assert s.sends[j].pre <= s.fired && s.recvs[j].pre <= s.fired;
      FireNext(s, atoms, j);
      atoms := atoms + [Phase(ReadyId(s), j)] + [CopyDone(j)] + [Phase(AckId(s), j)];
    }
  }

  /**
   No completion is lost.  Once nothing is in flight, if the preconditions of the first k + 1 sends
   and receives have fired, then firing events of the exchange alone completes send k and receive k.
   */
  lemma PairCompletes(steps: seq<Step>, k: nat) returns (atoms: seq<Atom>)
    requires Run(steps).toSource == [] && Run(steps).toTarget == []
    requires k < |Run(steps).sends| && k < |Run(steps).recvs|
    requires forall j: nat :: j <= k ==>
               Run(steps).sends[j].pre <= Run(steps).fired && Run(steps).recvs[j].pre <= Run(steps).fired
    ensures Internal(atoms) && Run(steps).sends[k].result <= Run(steps + FireSteps(atoms)).fired
    ensures Run(steps).recvs[k].result <= Run(steps + FireSteps(atoms)).fired
  {
    RunInvariant(steps);
    var s := Run(steps);
    assert AckKnown(s) && Denotes(s.recvs[k].result, {Phase(AckId(s), k)}, s.world);
    var through := FireThrough(s, k + 1);
    var sent := FireDenoted(s.world, s.fired, through, s.sends[k].result, {CopyDone(k)});
    atoms := FireDenoted(s.world, s.fired, sent, s.recvs[k].result, {Phase(AckId(s), k)});
    RunFireAll(steps, atoms);
  }
}
