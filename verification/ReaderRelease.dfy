/**
 When the parent of an open-ended child store waits for the readers of the child: an exact condition
 on what the child's event depends on, through triggers and through handles that are still open.
 */
module ReaderRelease {
  import opened Realm
  import opened Stores
  import opened Release

  /** Some continuation of the run lets the parent go on while a reader of the destroyed child is not done. */
  ghost predicate Overtakes(f: Forest, h: nat, steps: seq<Step>)
    requires Usable(f, h) && f.handles[h].StoreHandle?
  {
    var later := RunFrom(Next(f, Destroy(h)), steps);
    f.handles[h].Own().AsEvent() <= later.fired && !(Events(f.handles[h].store.war) <= later.fired)
  }

  // ----- what an event depends on

  ghost predicate Owns(f: Forest, h: nat, u: nat) {
    Usable(f, h) && f.handles[h].Own() == UserEvent(u)
  }

  /**
   What has to fire before an elementary event, as far as that is settled: the event of an open
   handle will wait for everything pending on the handle; what has not been issued yet may turn out
   to wait for nothing.
   */
  ghost function Deps(f: Forest, a: Atom): Event {
    match a
    case External(_) => NO_EVENT
    case Phase(b, p) =>
      (if (b, p) in f.world.arrivals then f.world.arrivals[(b, p)] else NO_EVENT)
      + (if p > 0 then {Phase(b, p - 1)} else NO_EVENT)
    case User(u) =>
      if u in f.world.triggers then f.world.triggers[u]
      else if h: nat :| Owns(f, h, u) then f.handles[h].Pending()
      else NO_EVENT
    case CopyDone(k) => if k < |f.world.copies| then f.world.copies[k].precondition else NO_EVENT
  }

  lemma DepsOfOpen(f: Forest, h: nat, u: nat)
    requires Invariant(f) && Owns(f, h, u)
    ensures u !in f.world.triggers && Deps(f, User(u)) == f.handles[h].Pending()
  {
    assert HandleOk(f.handles[h], f.world, f.fired);
    forall g: nat | Owns(f, g, u) ensures g == h {
      OneOwner(f, g, h, u);
    }
  }

  lemma OneOwner(f: Forest, g: nat, h: nat, u: nat)
    requires Invariant(f) && Owns(f, g, u) && Owns(f, h, u)
    ensures g == h
  {
  }

  /** `a` has a derivation of depth n that does not use r. */
  ghost predicate FiresWithout(f: Forest, r: Atom, a: Atom, n: nat)
    decreases n
  {
    a in f.fired || (a != r && n > 0 && forall b :: b in Deps(f, a) ==> FiresWithout(f, r, b, n - 1))
  }

  ghost predicate CanFireWithout(f: Forest, r: Atom, a: Atom) {
    exists n: nat :: FiresWithout(f, r, a, n)
  }

  lemma {:induction false} DeeperWithout(f: Forest, r: Atom, a: Atom, n: nat)
    requires FiresWithout(f, r, a, n)
    ensures FiresWithout(f, r, a, n + 1)
    decreases n
  {
    if a !in f.fired {
      forall b | b in Deps(f, a) ensures FiresWithout(f, r, b, n) {
        DeeperWithout(f, r, b, n - 1);
      }
    }
  }

  // ----- whatever fires later had its dependencies

  /** g is a later state of f. */
  ghost predicate Continues(f: Forest, g: Forest) {
    && Grows(f.world, g.world) && f.fired <= g.fired && |f.handles| <= |g.handles|
    && forall h :: 0 <= h < |f.handles| ==>
         && g.handles[h].Own() == f.handles[h].Own() && (g.handles[h].alive ==> f.handles[h].alive)
         && f.handles[h].Pending() <= g.handles[h].Pending() + g.fired
  }

  lemma ContinuesTransitive(f: Forest, g: Forest, e: Forest)
    requires Continues(f, g) && Continues(g, e)
    ensures Continues(f, e)
  {
    forall h | 0 <= h < |f.handles| ensures f.handles[h].Pending() <= e.handles[h].Pending() + e.fired {
      assert g.handles[h].Pending() <= e.handles[h].Pending() + e.fired;
    }
    assert e.world.copies[..|f.world.copies|] == g.world.copies[..|f.world.copies|];
  }

  lemma NextContinues(f: Forest, step: Step)
    requires Invariant(f)
    ensures Continues(f, Next(f, step))
  {
    match step
    case Open(h) => if Usable(f, h) { AddToPending(f.handles[h], UserEvent(f.world.nextUser).AsEvent()); }
    case Add(h, event) => if Usable(f, h) { AddToPending(f.handles[h], event); }
    case Destroy(h) => if Usable(f, h) { assert HandleOk(f.handles[h], f.world, f.fired); }
    case _ =>
  }

  lemma EnabledNeedsDeps(f: Forest, g: Forest, a: Atom)
    requires Invariant(f) && Invariant(g) && Continues(f, g) && Enabled(g.world, g.fired, a)
    ensures Deps(f, a) <= g.fired
  {
    match a
    case User(u) =>
      if u !in f.world.triggers {
        if h: nat :| Owns(f, h, u) {
          DepsOfOpen(f, h, u);
          assert HandleOk(g.handles[h], g.world, g.fired);
        }
      }
    case CopyDone(k) =>
      if k < |f.world.copies| {
        assert g.world.copies[..|f.world.copies|][k] == f.world.copies[k];
      }
    case _ =>
  }

  /** Everything that a continuation without r fires has a derivation without r. */
  lemma {:induction false} FiredWithout(f: Forest, start: Forest, steps: seq<Step>, r: Atom)
    requires Invariant(f) && Invariant(start) && Continues(f, start) && start.fired == f.fired
    requires r !in RunFrom(start, steps).fired
    ensures Invariant(RunFrom(start, steps)) && Continues(f, RunFrom(start, steps))
    ensures forall a :: a in RunFrom(start, steps).fired ==> FiresWithout(f, r, a, |steps|)
  {
    if steps != [] {
      var before, last := steps[..|steps| - 1], steps[|steps| - 1];
      var g := RunFrom(start, before);
      RunInvariant(start, before);
      NextContinues(g, last);
      FiredWithout(f, start, before, r);
      NextKeeps(g, last);
      ContinuesTransitive(f, g, RunFrom(start, steps));
      forall a | a in RunFrom(start, steps).fired ensures FiresWithout(f, r, a, |steps|) {
        if a in g.fired {
          DeeperWithout(f, r, a, |before|);
        } else {
          EnabledNeedsDeps(f, g, a);
        }
      }
    }
  }

  // ----- whatever has a derivation can be made to fire

  /** g is reached from f by steps that change no dependency. */
  ghost predicate SameDeps(f: Forest, g: Forest) {
    Invariant(g) && f.fired <= g.fired && forall a :: Deps(g, a) == Deps(f, a)
  }

  lemma {:induction false} WithoutKept(f: Forest, g: Forest, r: Atom, a: Atom, n: nat)
    requires SameDeps(f, g) && FiresWithout(f, r, a, n)
    ensures FiresWithout(g, r, a, n)
    decreases n
  {
    if a !in f.fired {
      forall b | b in Deps(g, a) ensures FiresWithout(g, r, b, n - 1) {
        WithoutKept(f, g, r, b, n - 1);
      }
    }
  }

  lemma FireKeepsDeps(f: Forest, a: Atom)
    requires Invariant(f) && Enabled(f.world, f.fired, a)
    ensures SameDeps(f, Next(f, Fire(a)))
  {
    FireKeeps(f, a);
    var g := Next(f, Fire(a));
    forall b ensures Deps(g, b) == Deps(f, b) {
      SameHandlesSameDeps(f, g, b);
    }
  }

  lemma SameHandlesSameDeps(f: Forest, g: Forest, a: Atom)
    requires Invariant(f) && Invariant(g) && g.handles == f.handles && g.world == f.world
    ensures Deps(g, a) == Deps(f, a)
  {
    if a.User? {
      if h: nat :| Owns(f, h, a.id) {
        DepsOfOpen(f, h, a.id);
        DepsOfOpen(g, h, a.id);
      } else {
        assert forall h: nat :: !Owns(g, h, a.id) by {
          assert forall h: nat :: Owns(g, h, a.id) ==> Owns(f, h, a.id);
        }
      }
    }
  }

  lemma DestroyKeepsDeps(f: Forest, h: nat)
    requires Invariant(f) && Usable(f, h)
    ensures SameDeps(f, Next(f, Destroy(h))) && Next(f, Destroy(h)).fired == f.fired
  {
    DestroyKeeps(f, h);
    var g := Next(f, Destroy(h));
    assert HandleOk(f.handles[h], f.world, f.fired);
    forall a ensures Deps(g, a) == Deps(f, a) {
      DepsAfterDestroy(f, h, a);
    }
  }

  lemma DepsAfterDestroy(f: Forest, h: nat, a: Atom)
    requires Invariant(f) && Usable(f, h) && Invariant(Next(f, Destroy(h)))
    ensures Deps(Next(f, Destroy(h)), a) == Deps(f, a)
  {
    var g := Next(f, Destroy(h));
    assert HandleOk(f.handles[h], f.world, f.fired);
    if a.User? {
      if UserEvent(a.id) == f.handles[h].Own() {
        DepsOfOpen(f, h, a.id);
      } else if k: nat :| Owns(f, k, a.id) {
        DepsOfOpen(f, k, a.id);
        assert Owns(g, k, a.id);
        DepsOfOpen(g, k, a.id);
      } else {
        assert forall k: nat :: Owns(g, k, a.id) ==> Owns(f, k, a.id);
      }
    }
  }

  /** The outside settles that an event which is still open waits for nothing. */
  lemma SettleOutside(f: Forest, world: World)
    requires Invariant(f) && OutsideMay(f, world)
    requires forall a: Atom :: Deps(f.(world := world), a) == Deps(f, a)
    ensures SameDeps(f, Next(f, Outside(world))) && Next(f, Outside(world)) == f.(world := world)
  {
    OutsideKeeps(f, world);
  }

  lemma SettleTrigger(f: Forest, u: nat) returns (world: World)
    requires Invariant(f) && u !in f.world.triggers && forall h: nat :: !Owns(f, h, u)
    ensures SameDeps(f, Next(f, Outside(world))) && Next(f, Outside(world)) == f.(world := world)
    ensures Enabled(world, f.fired, User(u))
  {
    world := f.world.(triggers := f.world.triggers[u := NO_EVENT],
                      nextUser := if u < f.world.nextUser then f.world.nextUser else u + 1);
    forall h | 0 <= h < |f.handles| ensures f.handles[h].Own() != UserEvent(u) {
      assert HandleOk(f.handles[h], f.world, f.fired);
      assert f.handles[h].alive ==> !Owns(f, h, u);
    }
    assert OutsideMay(f, world);
    OutsideKeeps(f, world);
    forall a ensures Deps(f.(world := world), a) == Deps(f, a) {
      DepsAfterOutside(f, world, a);
    }
    SettleOutside(f, world);
  }

  lemma SettleArrival(f: Forest, b: nat, p: nat) returns (world: World)
    requires Invariant(f) && (b, p) !in f.world.arrivals && (p > 0 ==> Phase(b, p - 1) in f.fired)
    ensures SameDeps(f, Next(f, Outside(world))) && Next(f, Outside(world)) == f.(world := world)
    ensures Enabled(world, f.fired, Phase(b, p))
  {
    world := f.world.(arrivals := f.world.arrivals[(b, p) := NO_EVENT]);
    OutsideKeeps(f, world);
    forall a ensures Deps(f.(world := world), a) == Deps(f, a) {
      DepsAfterOutside(f, world, a);
    }
    SettleOutside(f, world);
  }

  lemma SettleCopy(f: Forest, k: nat) returns (world: World)
    requires Invariant(f) && k >= |f.world.copies|
    ensures SameDeps(f, Next(f, Outside(world))) && Next(f, Outside(world)) == f.(world := world)
    ensures Enabled(world, f.fired, CopyDone(k))
  {
    var c := |f.world.copies|;
    var more := seq(k + 1 - c, i => CopyOp(TiledArray.Rect([], []), NoInst, NoInst, NO_EVENT));
    world := f.world.(copies := f.world.copies + more);
    assert world.copies[..c] == f.world.copies;
    OutsideKeeps(f, world);
    forall a ensures Deps(f.(world := world), a) == Deps(f, a) {
      DepsAfterOutside(f, world, a);
    }
    SettleOutside(f, world);
  }

  /** New entries of the world wait for nothing, so no dependency changes. */
  lemma DepsAfterOutside(f: Forest, world: World, a: Atom)
    requires Invariant(f) && OutsideMay(f, world) && Invariant(f.(world := world))
    requires forall u :: u in world.triggers && u !in f.world.triggers ==>
               world.triggers[u] == NO_EVENT && forall h: nat :: !Owns(f, h, u)
    requires forall x :: x in world.arrivals && x !in f.world.arrivals ==> world.arrivals[x] == NO_EVENT
    requires forall k :: |f.world.copies| <= k < |world.copies| ==> world.copies[k].precondition == NO_EVENT
    ensures Deps(f.(world := world), a) == Deps(f, a)
  {
    var g := f.(world := world);
    match a
    case User(u) =>
      if h: nat :| Owns(f, h, u) {
        DepsOfOpen(f, h, u);
        assert Owns(g, h, u);
        DepsOfOpen(g, h, u);
      } else {
        assert forall h: nat :: Owns(g, h, u) ==> Owns(f, h, u);
      }
    case CopyDone(k) =>
      if k < |f.world.copies| {
        assert world.copies[..|f.world.copies|][k] == f.world.copies[k];
      }
    case _ =>
  }

  lemma RunOne(f: Forest, step: Step)
    ensures RunFrom(f, [step]) == Next(f, step)
  {
    assert [step][..0] == [];
  }

  lemma {:induction false} RunConcat(f: Forest, a: seq<Step>, b: seq<Step>)
    ensures RunFrom(f, a + b) == RunFrom(RunFrom(f, a), b)
  {
    if b == [] {
      assert a + b == a;
    } else {
      RunConcat(f, a, b[..|b| - 1]);
      assert (a + b)[..|a + b| - 1] == a + b[..|b| - 1];
    }
  }

  lemma SameDepsTransitive(f: Forest, g: Forest, e: Forest)
    requires SameDeps(f, g) && SameDeps(g, e)
    ensures SameDeps(f, e)
  {
  }

  /** With its dependencies fired, an event can be settled so that it may fire. */
  lemma Settle(f: Forest, a: Atom) returns (steps: seq<Step>)
    requires Invariant(f) && Deps(f, a) <= f.fired
    ensures var g := RunFrom(f, steps);
      SameDeps(f, g) && g.fired == f.fired && Enabled(g.world, g.fired, a)
  {
    var step := Fire(a);
    if Enabled(f.world, f.fired, a) {
      steps := [];
    } else {
      step := SettleStep(f, a);
      steps := [step];
      RunOne(f, step);
    }
  }

  lemma SettleStep(f: Forest, a: Atom) returns (step: Step)
    requires Invariant(f) && Deps(f, a) <= f.fired && !Enabled(f.world, f.fired, a)
    ensures var g := Next(f, step);
      SameDeps(f, g) && g.fired == f.fired && Enabled(g.world, g.fired, a)
  {
    match a
    case User(u) =>
      if h: nat :| Owns(f, h, u) {
        step := Destroy(h);
        DepsOfOpen(f, h, u);
        DestroyKeepsDeps(f, h);
      } else {
        var world := SettleTrigger(f, u);
        step := Outside(world);
      }
    case Phase(b, p) =>
      assert p > 0 ==> Phase(b, p - 1) in Deps(f, a);
      var world := SettleArrival(f, b, p);
      step := Outside(world);
    case CopyDone(k) =>
      var world := SettleCopy(f, k);
      step := Outside(world);
  }

  /** A derivation without r is a plan for firing without r. */
  lemma {:induction false} FireWithout(f: Forest, r: Atom, a: Atom, n: nat) returns (steps: seq<Step>)
    requires Invariant(f) && r !in f.fired && FiresWithout(f, r, a, n)
    ensures var g := RunFrom(f, steps);
      SameDeps(f, g) && a in g.fired && r !in g.fired
    decreases n, 0
  {
    if a in f.fired {
      steps := [];
    } else {
      var first := FireAllWithout(f, r, Deps(f, a), n - 1);
      var g := RunFrom(f, first);
      var second := Settle(g, a);
      var e := RunFrom(g, second);
      RunConcat(f, first, second);
      RunAppend(f, first + second, Fire(a));
      FireKeepsDeps(e, a);
      SameDepsTransitive(f, g, e);
      SameDepsTransitive(f, e, Next(e, Fire(a)));
      steps := first + second + [Fire(a)];
    }
  }

  lemma {:induction false} FireAllWithout(f: Forest, r: Atom, event: Event, n: nat) returns (steps: seq<Step>)
    requires Invariant(f) && r !in f.fired && forall b :: b in event ==> FiresWithout(f, r, b, n)
    ensures var g := RunFrom(f, steps);
      SameDeps(f, g) && event <= g.fired && r !in g.fired
    decreases n, 1, event
  {
    if event == {} {
      steps := [];
    } else {
      var a :| a in event;
      var first := FireAllWithout(f, r, event - {a}, n);
      var g := RunFrom(f, first);
      WithoutKept(f, g, r, a, n);
      var second := FireWithout(g, r, a, n);
      RunConcat(f, first, second);
      SameDepsTransitive(f, g, RunFrom(g, second));
      steps := first + second;
    }
  }

  // ----- the exact condition

  lemma OvertakenNeeds(f: Forest, h: nat, steps: seq<Step>) returns (reader: Atom)
    requires Invariant(f) && Usable(f, h) && f.handles[h].StoreHandle? && Overtakes(f, h, steps)
    ensures reader in Events(f.handles[h].store.war) && reader !in f.fired
    ensures CanFireWithout(f, reader, User(f.handles[h].Own().id))
  {
    var start := Next(f, Destroy(h));
    var later := RunFrom(start, steps);
    assert HandleOk(f.handles[h], f.world, f.fired);
    reader :| reader in Events(f.handles[h].store.war) && reader !in later.fired;
    NextKeeps(f, Destroy(h));
    NextContinues(f, Destroy(h));
    FiredWithout(f, start, steps, reader);
    var own := User(f.handles[h].Own().id);
    assert own in f.handles[h].Own().AsEvent();
    assert FiresWithout(f, reader, own, |steps|);
  }

  lemma OvertakenBy(f: Forest, h: nat, reader: Atom) returns (steps: seq<Step>)
    requires Invariant(f) && Usable(f, h) && f.handles[h].StoreHandle?
    requires reader in Events(f.handles[h].store.war) && reader !in f.fired
    requires CanFireWithout(f, reader, User(f.handles[h].Own().id))
    ensures Overtakes(f, h, steps)
  {
    var own := User(f.handles[h].Own().id);
    var n: nat :| FiresWithout(f, reader, own, n);
    DestroyKeepsDeps(f, h);
    var start := Next(f, Destroy(h));
    WithoutKept(f, start, reader, own, n);
    steps := FireWithout(start, reader, own, n);
  }

  /**
   In every state, with whatever is still open below the child: the parent waits for the child's
   readers exactly when each of them is done or the child's own event cannot be derived without it.
   */
  lemma ReadersAwaitedIff(f: Forest, h: nat)
    requires Invariant(f) && Usable(f, h) && f.handles[h].StoreHandle?
    ensures (forall steps :: !Overtakes(f, h, steps)) <==>
            forall reader :: reader in Events(f.handles[h].store.war) ==>
              reader in f.fired || !CanFireWithout(f, reader, User(f.handles[h].Own().id))
  {
    assert HandleOk(f.handles[h], f.world, f.fired);
    if steps :| Overtakes(f, h, steps) {
      var reader := OvertakenNeeds(f, h, steps);
    }
    if reader :| reader in Events(f.handles[h].store.war) && reader !in f.fired
                 && CanFireWithout(f, reader, User(f.handles[h].Own().id)) {
      var steps := OvertakenBy(f, h, reader);
    }
  }

  /** In particular a reader is waited for when it is also among the pending writers. */
  lemma WritersAwaited(f: Forest, h: nat, steps: seq<Step>)
    requires Invariant(f) && Usable(f, h) && f.handles[h].StoreHandle?
    requires Events(f.handles[h].store.war) <= f.handles[h].Pending() + f.fired
    ensures !Overtakes(f, h, steps)
  {
    NotFired(f, h);
    var own := User(f.handles[h].Own().id);
    DepsOfOpen(f, h, own.id);
    forall reader | reader in Deps(f, own) && reader !in f.fired ensures !CanFireWithout(f, reader, own) {
      NeedsItself(f, reader, own);
    }
    ReadersAwaitedIff(f, h);
  }

  lemma NeedsItself(f: Forest, r: Atom, a: Atom)
    requires r in Deps(f, a) && r !in f.fired && a !in f.fired
    ensures !CanFireWithout(f, r, a)
  {
    forall n: nat ensures !FiresWithout(f, r, a, n) {
      if n > 0 {
        assert !FiresWithout(f, r, r, n - 1);
      }
    }
  }

  /** The event of an open handle has not fired. */
  lemma NotFired(f: Forest, h: nat)
    requires Invariant(f) && Usable(f, h)
    ensures f.handles[h].Own().UserEvent? && User(f.handles[h].Own().id) !in f.fired
  {
    assert HandleOk(f.handles[h], f.world, f.fired);
    assert User(f.handles[h].Own().id) in f.fired ==> Enabled(f.world, f.fired, User(f.handles[h].Own().id));
  }
}
