/** Everything that happens under one reshard key, in one address space or across two, round after round. */
module Exchanges {
  import opened Shape
  import opened TiledArray
  import opened Realm
  import opened Rendezvous
  import opened RemoteProtocol
  import opened RemoteSteps
  import opened RemoteRuns
  import opened LocalProtocol

  datatype Exchange =
    | Remote(steps: seq<Step>)
    | Nearby(localSteps: seq<LocalStep>)
  {
    function Copies(): seq<CopyOp> {
      if Remote? then Run(steps).world.copies else LocalRun(localSteps).world.copies
    }

    function Sends(): seq<Call> {
      if Remote? then Run(steps).sends else LocalRun(localSteps).sends
    }

    function Recvs(): seq<Call> {
      if Remote? then Run(steps).recvs else LocalRun(localSteps).recvs
    }

    function Fired(): set<Atom> {
      if Remote? then Run(steps).fired else LocalRun(localSteps).fired
    }

    /** Copy k may finish now. */
    predicate CanFinish(k: nat) {
      CopyDone(k) !in Fired()
      && if Remote? then Enabled(Run(steps).world, Run(steps).fired, CopyDone(k))
         else Enabled(LocalRun(localSteps).world, LocalRun(localSteps).fired, CopyDone(k))
    }
  }

  /** One step under a key. */
  datatype Move = Across(step: Step) | Within(localStep: LocalStep)

  function Extend(e: Exchange, move: Move): Exchange {
    match (e, move)
    case (Remote(steps), Across(step)) => Remote(steps + [step])
    case (Nearby(steps), Within(step)) => Nearby(steps + [step])
    case _ => e
  }

  /** The copy that the move finishes, if it finishes one. */
  function Completes(e: Exchange, move: Move): (copy: Option<nat>)
    ensures copy.Some? ==> e.CanFinish(copy.value) && copy.value < |e.Copies()|
  {
    match (e, move)
    case (Remote(_), Across(Fire(CopyDone(k)))) => if e.CanFinish(k) then Some(k) else None
    case (Nearby(_), Within(LocalFire(CopyDone(k)))) => if e.CanFinish(k) then Some(k) else None
    case _ => None
  }

  // ----- nothing is taken back

  lemma {:induction false} DrainKeepsCopies(e: Entry, w: World)
    ensures Drain(e, w).1.copies == w.copies
    decreases |e.pendingDest|
  {
    if e.pendingDest != [] {
      var op := e.pendingDest[0];
      DrainKeepsCopies(e.(ackDone := e.ackDone.Advance(), pendingDest := e.pendingDest[1..]),
                       Trigger(Assert(w, op.toTrigger.UserEvent?), op.toTrigger, e.ackDone.AsEvent()));
    }
  }

  lemma {:induction false} NamesKeepCopies(e: Entry, w: World, names: Names)
    ensures w.copies <= OnNames(e, w, names).1.copies
  {
    if names.instance.NoInst? {
      DrainKeepsCopies(e.(ackDone := names.barrier), Assert(w, names.barrier.Barrier?));
    }
  }

  lemma {:induction false} NextKeepsCopies(s: System, step: Step)
    ensures s.world.copies <= RemoteProtocol.Next(s, step).world.copies
  {
    match step
    case DeliverToSource => if s.toSource != [] { NamesKeepCopies(s.source, s.world, s.toSource[0]); }
    case DeliverToTarget => if s.toTarget != [] { NamesKeepCopies(s.target, s.world, s.toTarget[0]); }
    case _ =>
  }

  lemma {:induction false} NextFires(s: System, step: Step)
    ensures s.fired <= RemoteProtocol.Next(s, step).fired && s.sends <= RemoteProtocol.Next(s, step).sends
    ensures s.recvs <= RemoteProtocol.Next(s, step).recvs
    ensures RemoteProtocol.Next(s, step).fired ==
            if step.Fire? && Enabled(s.world, s.fired, step.atom) then s.fired + {step.atom} else s.fired
  {
  }

  lemma {:induction false} LocalNextKeeps(s: Local, step: LocalStep)
    ensures s.world.copies <= LocalNext(s, step).world.copies
    ensures s.sends <= LocalNext(s, step).sends && s.recvs <= LocalNext(s, step).recvs
  {
    match step
    case LocalSend(shape, inst, pre) =>
      assert s.world.copies <= FromSource(s.entry, s.world, false, shape, Inst(inst), pre).world.copies;
    case LocalRecv(shape, inst, pre) =>
      assert s.world.copies <= ToTarget(s.entry, s.world, false, shape, Inst(inst), pre).world.copies;
    case _ =>
  }

  lemma {:induction false} LocalNextFires(s: Local, step: LocalStep)
    ensures LocalNext(s, step).fired ==
            if step.LocalFire? && Enabled(s.world, s.fired, step.atom) then s.fired + {step.atom} else s.fired
  {
  }

  /** A move adds calls, copies and firings ... */
  lemma {:induction false} ExtendKeeps(e: Exchange, move: Move)
    ensures var later := Extend(e, move);
      && e.Copies() <= later.Copies() && e.Sends() <= later.Sends() && e.Recvs() <= later.Recvs()
      && e.Fired() <= later.Fired()
  {
    match (e, move)
    case (Remote(steps), Across(step)) =>
      RunAppend(steps, step);
      NextKeepsCopies(Run(steps), step);
      NextFires(Run(steps), step);
    case (Nearby(steps), Within(step)) =>
      LocalRunAppend(steps, step);
      LocalNextKeeps(LocalRun(steps), step);
      LocalNextFires(LocalRun(steps), step);
    case _ =>
  }

  /** ... and finishes the copy that it says, if any. */
  lemma {:induction false} RemoteFinishes(steps: seq<Step>, step: Step, k: nat)
    ensures CopyDone(k) in Run(steps + [step]).fired <==>
            CopyDone(k) in Run(steps).fired
            || (step == Fire(CopyDone(k)) && Enabled(Run(steps).world, Run(steps).fired, CopyDone(k)))
  {
    RunAppend(steps, step);
    NextFires(Run(steps), step);
  }

  lemma {:induction false} LocalFinishes(steps: seq<LocalStep>, step: LocalStep, k: nat)
    ensures CopyDone(k) in LocalRun(steps + [step]).fired <==>
            CopyDone(k) in LocalRun(steps).fired
            || (step == LocalFire(CopyDone(k)) && Enabled(LocalRun(steps).world, LocalRun(steps).fired, CopyDone(k)))
  {
    LocalRunAppend(steps, step);
    LocalNextFires(LocalRun(steps), step);
  }

  lemma {:induction false} ExtendFinishes(e: Exchange, move: Move, k: nat)
    ensures CopyDone(k) in Extend(e, move).Fired() <==> CopyDone(k) in e.Fired() || Completes(e, move) == Some(k)
  {
    match (e, move)
    case (Remote(steps), Across(step)) => AcrossFinishes(steps, step, k);
    case (Nearby(steps), Within(step)) => WithinFinishes(steps, step, k);
    case _ =>
  }

  lemma {:induction false} AcrossFinishes(steps: seq<Step>, step: Step, k: nat)
    ensures CopyDone(k) in Remote(steps + [step]).Fired() <==>
            CopyDone(k) in Remote(steps).Fired() || Completes(Remote(steps), Across(step)) == Some(k)
  {
    RemoteFinishes(steps, step, k);
  }

  lemma {:induction false} WithinFinishes(steps: seq<LocalStep>, step: LocalStep, k: nat)
    ensures CopyDone(k) in Nearby(steps + [step]).Fired() <==>
            CopyDone(k) in Nearby(steps).Fired() || Completes(Nearby(steps), Within(step)) == Some(k)
  {
    LocalFinishes(steps, step, k);
  }

  // ----- rounds

  /** The event returned to receive k has fired. */
  predicate Released(e: Exchange, k: nat) {
    k < |e.Recvs()| && e.Recvs()[k].result <= e.Fired()
  }

  /** The event returned to send k has fired. */
  predicate SentOff(e: Exchange, k: nat) {
    k < |e.Sends()| && e.Sends()[k].result <= e.Fired()
  }

  /** All calls under the key agree on the bounds. */
  predicate SameBounds(e: Exchange, bounds: Rect) {
    && (forall k :: 0 <= k < |e.Sends()| ==> e.Sends()[k].shape == bounds)
    && (forall k :: 0 <= k < |e.Recvs()| ==> e.Recvs()[k].shape == bounds)
  }

  /** Copy k goes between the instances of round k, within the common bounds. */
  lemma {:induction false} CopyOfRound(e: Exchange, k: nat)
    requires k < |e.Copies()|
    ensures k < |e.Sends()| && k < |e.Recvs()|
    ensures e.Copies()[k].src == Inst(e.Sends()[k].inst) && e.Copies()[k].dst == Inst(e.Recvs()[k].inst)
    ensures forall bounds :: SameBounds(e, bounds) ==> e.Copies()[k].shape == bounds
  {
    match e
    case Remote(steps) => RunInvariant(steps);
    case Nearby(steps) =>
      LocalRunInvariant(steps);
      LocalBounds(steps);
  }

  /** When receive k has been released, copy k has finished, and the preconditions of both sides have fired. */
  lemma {:induction false} ReleasedMeansFinished(e: Exchange, k: nat)
    requires Released(e, k)
    ensures k < |e.Copies()| && CopyDone(k) in e.Fired() && e.Recvs()[k].pre <= e.Fired()
    ensures k < |e.Sends()| && e.Sends()[k].pre <= e.Fired()
  {
    match e
    case Remote(steps) => RecvCausality(steps, k);
    case Nearby(steps) => LocalCausality(steps, k);
  }

  /** The same for send k. */
  lemma {:induction false} SentMeansFinished(e: Exchange, k: nat)
    requires SentOff(e, k)
    ensures k < |e.Copies()| && CopyDone(k) in e.Fired()
  {
    match e
    case Remote(steps) => SendCausality(steps, k);
    case Nearby(steps) => LocalCausality(steps, k);
  }

  /** A copy does not finish before the preconditions of both sides have fired. */
  lemma {:induction false} StartsAfterBoth(e: Exchange, k: nat)
    requires e.CanFinish(k)
    ensures k < |e.Copies()| && k < |e.Sends()| && k < |e.Recvs()|
    ensures e.Sends()[k].pre <= e.Fired() && e.Recvs()[k].pre <= e.Fired()
  {
    match e
    case Remote(steps) =>
      RunInvariant(steps);
      var s := Run(steps);
      assert Phase(ReadyId(s), k) in s.world.copies[k].precondition;
      assert Enabled(s.world, s.fired, Phase(ReadyId(s), k));
    case Nearby(steps) => LocalRunInvariant(steps);
  }

  // ----- progress

  /** The events are tried one after the other. */
  function Firing(e: Exchange, atoms: seq<Atom>): Exchange {
    match e
    case Remote(steps) => Remote(steps + FireSteps(atoms))
    case Nearby(steps) => Nearby(steps + LocalFireSteps(atoms))
  }

  /** No names are on their way. */
  predicate AtRest(e: Exchange) {
    e.Remote? ==> Run(e.steps).toSource == [] && Run(e.steps).toTarget == []
  }

  /** The same calls, and perhaps more has fired. */
  predicate FiredMore(e: Exchange, later: Exchange) {
    && e.Remote? == later.Remote? && (AtRest(e) ==> AtRest(later))
    && e.Sends() == later.Sends() && e.Recvs() == later.Recvs() && e.Fired() <= later.Fired()
  }

  lemma {:induction false} FiringFires(e: Exchange, atoms: seq<Atom>)
    ensures FiredMore(e, Firing(e, atoms))
    ensures forall a :: a in Firing(e, atoms).Fired() ==> a in e.Fired() || a in atoms
  {
    match e
    case Remote(steps) =>
      RunFireAll(steps, atoms);
      FireAllGrows(Run(steps).world, Run(steps).fired, atoms);
    case Nearby(steps) =>
      LocalRunFireAll(steps, atoms);
      FireAllGrows(LocalRun(steps).world, LocalRun(steps).fired, atoms);
  }

  /** Events from outside can fire. */
  lemma {:induction false} OutsideFires(e: Exchange, event: Event) returns (atoms: seq<Atom>)
    requires forall a :: a in event ==> a.External?
    ensures event <= Firing(e, atoms).Fired() && forall i :: 0 <= i < |atoms| ==> atoms[i] in event
  {
    match e
    case Remote(steps) =>
      atoms := FireOutside(Run(steps).world, Run(steps).fired, event);
      RunFireAll(steps, atoms);
    case Nearby(steps) =>
      atoms := FireOutside(LocalRun(steps).world, LocalRun(steps).fired, event);
      LocalRunFireAll(steps, atoms);
  }

  /** Calls 0 to k have been made on both sides, and the preconditions of both have fired. */
  predicate ReadyThrough(e: Exchange, k: nat) {
    && AtRest(e) && k < |e.Sends()| && k < |e.Recvs()|
    && forall j: nat :: j <= k ==> e.Sends()[j].pre <= e.Fired() && e.Recvs()[j].pre <= e.Fired()
  }

  /** Then firing events of the exchange itself completes both. */
  lemma {:induction false} ExchangeCompletes(e: Exchange, k: nat) returns (atoms: seq<Atom>)
    requires ReadyThrough(e, k)
    ensures Internal(atoms) && Released(Firing(e, atoms), k) && SentOff(Firing(e, atoms), k)
  {
    match e
    case Remote(steps) =>
      assert forall j: nat :: j <= k ==> e.Sends()[j].pre <= e.Fired() && e.Recvs()[j].pre <= e.Fired();
      atoms := PairCompletes(steps, k);
      FiringFires(e, atoms);
    case Nearby(steps) =>
      atoms := LocalPairCompletes(steps, k);
      FiringFires(e, atoms);
  }
}
