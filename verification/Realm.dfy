/**
 The part of the Realm runtime that zuku builds on: events, user events, one-arrival barriers and
 an append-only log of copies.  An event is the set of the elementary events merged into it.
 */
module Realm {
  import opened TiledArray

  datatype Atom =
    | External(id: nat)
    | Phase(barrier: nat, phase: nat)
    | User(id: nat)
    | CopyDone(id: nat)

  type Event = set<Atom>

  const NO_EVENT: Event := {}

  datatype Barrier = NoBarrier | Barrier(id: nat, phase: nat) {
    function AsEvent(): Event {
      if Barrier? then {Phase(id, phase)} else NO_EVENT
    }

    function Advance(): Barrier {
      if Barrier? then Barrier(id, phase + 1) else NoBarrier
    }
  }

  datatype Instance = NoInst | Inst(id: nat)

  datatype UserEvent = NoUserEvent | UserEvent(id: nat) {
    function AsEvent(): Event {
      if UserEvent? then {User(id)} else NO_EVENT
    }
  }

  datatype CopyOp = CopyOp(shape: Rect, src: Instance, dst: Instance, precondition: Event)

  /** `fault` records a failed assert, a user event triggered twice or a barrier phase arrived at twice. */
  datatype World = World(
    copies: seq<CopyOp>,
    triggers: map<nat, Event>,
    arrivals: map<(nat, nat), Event>,
    nextUser: nat,
    nextBarrier: nat,
    fault: bool)

  const INITIAL_WORLD := World([], map[], map[], 0, 0, false)

  function Assert(w: World, condition: bool): World {
    w.(fault := w.fault || !condition)
  }

  function IssueCopy(w: World, op: CopyOp): World {
    w.(copies := w.copies + [op])
  }

  /** The event of the copy that was issued last. */
  function LastCopy(w: World): Event
    requires w.copies != []
  {
    {CopyDone(|w.copies| - 1)}
  }

  function CreateUserEvent(w: World): (World, UserEvent) {
    (w.(nextUser := w.nextUser + 1), UserEvent(w.nextUser))
  }

  function CreateBarrier(w: World): (World, Barrier) {
    (w.(nextBarrier := w.nextBarrier + 1), Barrier(w.nextBarrier, 0))
  }

  function Trigger(w: World, user: UserEvent, after: Event): World {
    if user.NoUserEvent? || user.id in w.triggers then w.(fault := true)
    else w.(triggers := w.triggers[user.id := after])
  }

  function Arrive(w: World, barrier: Barrier, after: Event): World {
    if barrier.NoBarrier? || (barrier.id, barrier.phase) in w.arrivals then w.(fault := true)
    else w.(arrivals := w.arrivals[(barrier.id, barrier.phase) := after])
  }

  /** A later state of the same world: nothing that was issued, triggered or arrived is taken back. */
  predicate Grows(w: World, w': World) {
    && |w.copies| <= |w'.copies| && w'.copies[..|w.copies|] == w.copies
    && (forall u :: u in w.triggers ==> u in w'.triggers && w'.triggers[u] == w.triggers[u])
    && (forall a :: a in w.arrivals ==> a in w'.arrivals && w'.arrivals[a] == w.arrivals[a])
  }

  /** When an elementary event may fire, given the ones that have. */
  predicate Enabled(w: World, fired: set<Atom>, a: Atom) {
    match a
    case External(_) => true
    case Phase(b, p) =>
      (b, p) in w.arrivals && w.arrivals[(b, p)] <= fired && (p == 0 || Phase(b, p - 1) in fired)
    case User(u) => u in w.triggers && w.triggers[u] <= fired
    case CopyDone(k) => k < |w.copies| && w.copies[k].precondition <= fired
  }

  /** Everything that has fired was enabled by things that have fired. */
  ghost predicate Justified(w: World, fired: set<Atom>) {
    forall a :: a in fired ==> Enabled(w, fired, a)
  }

  lemma JustifiedGrows(w: World, w': World, fired: set<Atom>)
    requires Justified(w, fired) && Grows(w, w')
    ensures Justified(w', fired)
  {
    forall a | a in fired ensures Enabled(w', fired, a) {
      assert Enabled(w, fired, a);
      if a.CopyDone? {
        assert w'.copies[..|w.copies|][a.id] == w.copies[a.id];
      }
    }
  }

  lemma JustifiedFires(w: World, fired: set<Atom>, a: Atom)
    requires Justified(w, fired) && Enabled(w, fired, a)
    ensures Justified(w, fired + {a})
  {
    forall b | b in fired + {a} ensures Enabled(w, fired + {a}, b) {
      assert Enabled(w, fired, b);
    }
  }

  /** A user event that exists and has not been triggered. */
  predicate Waiting(user: UserEvent, w: World) {
    user.UserEvent? && user.id < w.nextUser && user.id !in w.triggers
  }

  /** `result` is `event`, or a user event that has been triggered with it. */
  predicate Denotes(result: Event, event: Event, w: World) {
    result == event || exists u: nat :: result == {User(u)} && u in w.triggers && w.triggers[u] == event
  }

  lemma DenotesGrows(result: Event, event: Event, w: World, w': World)
    requires Denotes(result, event, w) && Grows(w, w')
    ensures Denotes(result, event, w')
  {
    if result != event {
      var u: nat :| result == {User(u)} && u in w.triggers && w.triggers[u] == event;
      assert u in w'.triggers && w'.triggers[u] == event;
    }
  }

  /** An event that has fired means that what it denotes has fired. */
  lemma DenotedFires(result: Event, event: Event, w: World, fired: set<Atom>)
    requires Denotes(result, event, w) && Justified(w, fired) && result <= fired
    ensures event <= fired
  {
    if result != event {
      var u: nat :| result == {User(u)} && u in w.triggers && w.triggers[u] == event;
      assert Enabled(w, fired, User(u));
    }
  }

  lemma WaitingHasNotFired(user: UserEvent, w: World, fired: set<Atom>)
    requires Waiting(user, w) && Justified(w, fired)
    ensures !(user.AsEvent() <= fired)
  {
    assert User(user.id) in fired ==> Enabled(w, fired, User(user.id));
    assert User(user.id) in user.AsEvent();
  }

  // ----- firing

  /** What has fired once the given events have been tried one after the other. */
  function FireAll(w: World, fired: set<Atom>, atoms: seq<Atom>): set<Atom> {
    if atoms == [] then fired
    else
      var before, last := FireAll(w, fired, atoms[..|atoms| - 1]), atoms[|atoms| - 1];
      if Enabled(w, before, last) then before + {last} else before
  }

  lemma FireOne(w: World, fired: set<Atom>, atoms: seq<Atom>, atom: Atom)
    requires Enabled(w, FireAll(w, fired, atoms), atom)
    ensures FireAll(w, fired, atoms + [atom]) == FireAll(w, fired, atoms) + {atom}
  {
    assert (atoms + [atom])[..|atoms|] == atoms;
  }

  /** None of the events is fired by anybody outside. */
  predicate Internal(atoms: seq<Atom>) {
    forall i :: 0 <= i < |atoms| ==> !atoms[i].External?
  }

  lemma {:induction false} FireAllGrows(w: World, fired: set<Atom>, atoms: seq<Atom>)
    ensures fired <= FireAll(w, fired, atoms) && forall a :: a in FireAll(w, fired, atoms) ==> a in fired || a in atoms
  {
    if atoms != [] {
      FireAllGrows(w, fired, atoms[..|atoms| - 1]);
    }
  }

  /** Once an event has fired, what denotes it can fire. */
  lemma FireDenoted(w: World, fired: set<Atom>, atoms: seq<Atom>, result: Event, event: Event)
    returns (more: seq<Atom>)
    requires Denotes(result, event, w) && event <= FireAll(w, fired, atoms) && Internal(atoms)
    ensures atoms <= more && Internal(more) && result <= FireAll(w, fired, more)
    ensures FireAll(w, fired, atoms) <= FireAll(w, fired, more)
  {
    more := atoms;
    if result != event {
      var u: nat :| result == {User(u)} && u in w.triggers && w.triggers[u] == event;
      FireOne(w, fired, atoms, User(u));
      more := atoms + [User(u)];
    }
  }

  /** Events from outside can always fire. */
  lemma {:induction false} FireOutside(w: World, fired: set<Atom>, event: Event) returns (atoms: seq<Atom>)
    requires forall a :: a in event ==> a.External?
    ensures event <= FireAll(w, fired, atoms) && forall i :: 0 <= i < |atoms| ==> atoms[i] in event
    decreases |event|
  {
    if event == {} {
      atoms := [];
    } else {
      var a :| a in event;
      var before := FireOutside(w, fired, event - {a});
      FireOne(w, fired, before, a);
      atoms := before + [a];
    }
  }

  // ----- the runtime

  /** The runtime as the calling code sees it: its calls update the world; outbox holds tasks spawned on the peer. */
  class Runtime<M> {
    var world: World
    var outbox: seq<M>

    method Spawn(message: M)
      modifies this`outbox
      ensures outbox == old(outbox) + [message]
    {
      outbox := outbox + [message];
    }

    method Copy(op: CopyOp) returns (postcondition: Event)
      modifies this`world
      ensures world == IssueCopy(old(world), op) && postcondition == LastCopy(world)
    {
      world := world.(copies := world.copies + [op]);
      postcondition := {CopyDone(|world.copies| - 1)};
    }

    method NewUserEvent() returns (user: UserEvent)
      modifies this`world
      ensures (world, user) == CreateUserEvent(old(world))
    {
      user := UserEvent(world.nextUser);
      world := world.(nextUser := world.nextUser + 1);
    }

    method NewBarrier() returns (barrier: Barrier)
      modifies this`world
      ensures (world, barrier) == CreateBarrier(old(world))
    {
      barrier := Barrier(world.nextBarrier, 0);
      world := world.(nextBarrier := world.nextBarrier + 1);
    }

    method TriggerEvent(user: UserEvent, after: Event)
      modifies this`world
      ensures world == Trigger(old(world), user, after)
    {
      world := Trigger(world, user, after);
    }

    method ArriveAt(barrier: Barrier, after: Event)
      modifies this`world
      ensures world == Arrive(old(world), barrier, after)
    {
      world := Arrive(world, barrier, after);
    }

    method Check(condition: bool)
      modifies this`world
      ensures world == Assert(old(world), condition)
    {
      world := Assert(world, condition);
    }
  }
}
