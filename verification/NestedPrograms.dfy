/**
 Programs whose tasks take open-ended stores and views and submit further tasks through them: which
 pairs of tasks every execution keeps in order, and when that is enough to compute what the same
 program with all bodies written in place computes.
 */
module NestedPrograms {
  import opened Realm
  import opened Stores
  import opened Determinacy

  /**
   A task: it uses the data of some stores itself, takes open-ended children of other stores and views
   of yet others, and submits a body through those.
   */
  datatype Item = Item(access: map<nat, Access>, stores: set<nat>, views: set<nat>, body: seq<Item>)

  /** What each task uses itself, in program order: a task comes right before its body. */
  function Tasks(items: seq<Item>): seq<map<nat, Access>>
    decreases items
  {
    if items == [] then [] else [items[0].access] + Tasks(items[0].body) + Tasks(items[1..])
  }

  /** The number of tasks that a task amounts to, with its body. */
  function Width(item: Item): nat {
    1 + |Tasks(item.body)|
  }

  /** How a body holds a store. */
  datatype Hold = AsStore | AsView | NotHeld

  function HoldIn(item: Item, s: nat): Hold {
    if s in item.access then NotHeld
    else if s in item.stores then AsStore
    else if s in item.views then AsView
    else NotHeld
  }

  /** Nobody uses s in a way that the handle it holds does not allow. */
  predicate Holds(items: seq<Item>, s: nat, hold: Hold)
    decreases items
  {
    items == [] ||
    (&& (s in items[0].access ==> hold.AsStore? || (hold.AsView? && items[0].access[s].Read?))
     && (HoldIn(items[0], s).AsStore? ==> hold.AsStore?) && (HoldIn(items[0], s).AsView? ==> !hold.NotHeld?)
     && Holds(items[0].body, s, HoldIn(items[0], s))
     && Holds(items[1..], s, hold))
  }

  // ----- what the handles of a store s go through; tasks are numbered from i on

  /** What the release of a view of s waits for: all reads and views below it. */
  function ReadersOf(items: seq<Item>, i: nat, s: nat): Event
    decreases items
  {
    if items == [] then NO_EVENT
    else
      (if s in items[0].access then Completion(i)
       else if HoldIn(items[0], s).AsView? then Completion(i) + ReadersOf(items[0].body, i + 1, s)
       else NO_EVENT)
      + ReadersOf(items[1..], i + Width(items[0]), s)
  }

  /** The store a body holds, after the tasks of the body have been submitted. */
  function After(items: seq<Item>, i: nat, s: nat, state: StoreState): StoreState
    decreases items
  {
    if items == [] then state else After(items[1..], i + Width(items[0]), s, Step(items[0], i, s, state))
  }

  /**
   The store after task i.  What it waits for on account of an open-ended child is that task i has
   dropped the child and what the child waits for on its write side; on account of a view, that task i
   has dropped the view and all reads below it are done.
   */
  function Step(item: Item, i: nat, s: nat, state: StoreState): StoreState
    decreases item
  {
    if s in item.access then Submitted(state, item.access[s], Completion(i))
    else
      match HoldIn(item, s)
      case AsStore => ReadyAfter(state, Completion(i) + Events(Child(item, i, s, state).childRw))
      case AsView => ReadUntil(state, Completion(i) + ReadersOf(item.body, i + 1, s))
      case NotHeld => state
  }

  /** The child of s that task i takes, when it is dropped. */
  function Child(item: Item, i: nat, s: nat, state: StoreState): StoreState
    decreases item, 0
  {
    After(item.body, i + 1, s, ChildOf(state, NoUserEvent))
  }

  /** What task i itself waits for on account of s. */
  function Own(item: Item, s: nat, state: StoreState): Event {
    if s in item.access then Events(ArgumentPrecondition(state, item.access[s]))
    else
      match HoldIn(item, s)
      case AsStore => Events(StorePrecondition(ChildOf(state, NoUserEvent)))
      case AsView => Events(ViewOf(state, NoUserEvent).precondition)
      case NotHeld => NO_EVENT
  }

  /** What task j waits for on account of s. */
  function WaitsOn(items: seq<Item>, i: nat, s: nat, state: StoreState, j: nat): Event
    decreases items
  {
    if items == [] then NO_EVENT
    else if j == i then Own(items[0], s, state)
    else if j < i + Width(items[0]) then WaitsInside(items[0], i, s, state, j)
    else WaitsOn(items[1..], i + Width(items[0]), s, Step(items[0], i, s, state), j)
  }

  function WaitsInside(item: Item, i: nat, s: nat, state: StoreState, j: nat): Event
    decreases item
  {
    match HoldIn(item, s)
    case AsStore => WaitsOn(item.body, i + 1, s, ChildOf(state, NoUserEvent), j)
    case AsView => if External(j) in ReadersOf(item.body, i + 1, s) then Events(state.childRw) else NO_EVENT
    case NotHeld => NO_EVENT
  }

  /** Task j is in the body of task n, or of a task in that body. */
  predicate Inside(items: seq<Item>, i: nat, n: nat, j: nat)
    decreases items
  {
    items != [] &&
    ((i < j < i + Width(items[0]) && (n == i || Inside(items[0].body, i + 1, n, j)))
     || Inside(items[1..], i + Width(items[0]), n, j))
  }

  // ----- every wait is for an earlier task

  /** The store waits for tasks before i only. */
  ghost predicate Bounded(state: StoreState, i: nat) {
    forall a: nat :: External(a) in Events(state.childRw) + Events(state.war) ==> a < i
  }

  lemma {:induction false} ReadersInRange(items: seq<Item>, i: nat, s: nat, a: nat)
    requires External(a) in ReadersOf(items, i, s)
    ensures i <= a < i + |Tasks(items)|
    decreases items
  {
    var rest := i + Width(items[0]);
    if External(a) in ReadersOf(items[1..], rest, s) {
      ReadersInRange(items[1..], rest, s, a);
    } else if a != i {
      ReadersInRange(items[0].body, i + 1, s, a);
    }
  }

  lemma {:induction false} AfterBounded(items: seq<Item>, i: nat, s: nat, state: StoreState)
    requires Bounded(state, i)
    ensures Bounded(After(items, i, s, state), i + |Tasks(items)|)
    decreases items, 1
  {
    if items != [] {
      StepBounded(items[0], i, s, state);
      AfterBounded(items[1..], i + Width(items[0]), s, Step(items[0], i, s, state));
    }
  }

  lemma {:induction false} StepBounded(item: Item, i: nat, s: nat, state: StoreState)
    requires Bounded(state, i)
    ensures Bounded(Step(item, i, s, state), i + Width(item))
    decreases item, 0
  {
    AfterBounded(item.body, i + 1, s, ChildOf(state, NoUserEvent));
    forall a: nat | External(a) in ReadersOf(item.body, i + 1, s) ensures a < i + Width(item) {
      ReadersInRange(item.body, i + 1, s, a);
    }
  }

  lemma {:induction false} WaitsEarlier(items: seq<Item>, i: nat, s: nat, state: StoreState, j: nat, a: nat)
    requires Bounded(state, i) && External(a) in WaitsOn(items, i, s, state, j)
    ensures a < j && i <= j < i + |Tasks(items)|
    decreases items
  {
    if j != i {
      var item, rest := items[0], i + Width(items[0]);
      if j < rest {
        match HoldIn(item, s) {
          case AsStore => WaitsEarlier(item.body, i + 1, s, ChildOf(state, NoUserEvent), j, a);
          case AsView => ReadersInRange(item.body, i + 1, s, j);
          case NotHeld =>
        }
      } else {
        StepBounded(item, i, s, state);
        WaitsEarlier(items[1..], rest, s, Step(item, i, s, state), j, a);
      }
    }
  }

  lemma {:induction false} InsideLater(items: seq<Item>, i: nat, n: nat, j: nat)
    requires Inside(items, i, n, j)
    ensures i <= n < j < i + |Tasks(items)|
    decreases items
  {
    if Inside(items[1..], i + Width(items[0]), n, j) {
      InsideLater(items[1..], i + Width(items[0]), n, j);
    } else if n != i {
      InsideLater(items[0].body, i + 1, n, j);
    }
  }

  // ----- which tasks come first in every execution

  /** Task j waits for task i, through some handle of some store. */
  ghost predicate NestedNeeds(items: seq<Item>, i: nat, j: nat) {
    exists s: nat :: External(i) in WaitsOn(items, 0, s, EMPTY_STORE, j)
  }

  /** Task j cannot start before task i is done: it waits for it, or for or inside a task that cannot either. */
  ghost predicate Leads(items: seq<Item>, i: nat, j: nat)
    decreases j
  {
    NestedNeeds(items, i, j)
    || exists k: nat :: k < j && (NestedNeeds(items, k, j) || Inside(items, 0, k, j)) && Leads(items, i, k)
  }

  lemma {:induction false} NeedsEarlierTask(items: seq<Item>, i: nat, j: nat)
    requires NestedNeeds(items, i, j)
    ensures i < j < |Tasks(items)|
  {
    var s: nat :| External(i) in WaitsOn(items, 0, s, EMPTY_STORE, j);
    WaitsEarlier(items, 0, s, EMPTY_STORE, j, i);
  }

  lemma {:induction false} LeadsLater(items: seq<Item>, i: nat, j: nat)
    requires Leads(items, i, j)
    ensures i < j
    decreases j
  {
    if NestedNeeds(items, i, j) {
      NeedsEarlierTask(items, i, j);
    } else {
      var k: nat :| k < j && (NestedNeeds(items, k, j) || Inside(items, 0, k, j)) && Leads(items, i, k);
      LeadsLater(items, i, k);
    }
  }

  lemma {:induction false} LeadsOn(items: seq<Item>, a: nat, b: nat, c: nat)
    requires Leads(items, a, b) && Leads(items, b, c)
    ensures Leads(items, a, c)
    decreases c
  {
    if NestedNeeds(items, b, c) {
      NeedsEarlierTask(items, b, c);
    } else {
      var k: nat :| k < c && (NestedNeeds(items, k, c) || Inside(items, 0, k, c)) && Leads(items, b, k);
      LeadsOn(items, a, b, k);
    }
  }

  function Flat(items: seq<Item>): (prog: Program)
    ensures |prog| == |Tasks(items)|
  {
    seq(|Tasks(items)|, i requires 0 <= i < |Tasks(items)| => TaskOp(Tasks(items)[i]))
  }

  /**
   A task starts when the tasks that enclose it have, and after all it waits for.  A task that holds
   handles is done when it has returned and dropped them.
   */
  ghost predicate NestedPossible<V>(items: seq<Item>, e: Exec<V>, action: Action) {
    match action
    case Start(j) =>
      && j < |Tasks(items)| && j !in e.seen
      && (forall i: nat :: NestedNeeds(items, i, j) ==> i in e.done)
      && (forall n: nat :: Inside(items, 0, n, j) ==> n in e.seen)
    case Finish(i) => i < |Tasks(items)| && i in e.seen && i !in e.done
  }

  ghost predicate NestedValid<V>(items: seq<Item>, body: Body<V>, init: nat -> V, actions: seq<Action>) {
    actions == [] ||
    (NestedValid(items, body, init, actions[..|actions| - 1])
     && NestedPossible(items, Execute(Flat(items), body, init, actions[..|actions| - 1]), actions[|actions| - 1]))
  }

  ghost predicate NestedClosed(items: seq<Item>, started: set<nat>, done: set<nat>) {
    && done <= started
    && (forall i: nat, j: nat :: j in started && NestedNeeds(items, i, j) ==> i in done)
    && (forall n: nat, j: nat :: j in started && Inside(items, 0, n, j) ==> n in started)
  }

  lemma {:induction false} ValidIsClosed<V>(items: seq<Item>, body: Body<V>, init: nat -> V, actions: seq<Action>)
    requires NestedValid(items, body, init, actions)
    ensures var e := Execute(Flat(items), body, init, actions); NestedClosed(items, e.seen.Keys, e.done)
  {
    if actions != [] {
      ValidIsClosed(items, body, init, actions[..|actions| - 1]);
    }
  }

  lemma {:induction false} LeaderDone(items: seq<Item>, started: set<nat>, done: set<nat>, i: nat, j: nat)
    requires NestedClosed(items, started, done) && j in started && Leads(items, i, j)
    ensures i in done
    decreases j
  {
    if !NestedNeeds(items, i, j) {
      var k: nat :| k < j && (NestedNeeds(items, k, j) || Inside(items, 0, k, j)) && Leads(items, i, k);
      assert k in started;
      LeaderDone(items, started, done, i, k);
    }
  }

  lemma {:induction false} ValidOn<V>(items: seq<Item>, body: Body<V>, init: nat -> V, actions: seq<Action>,
                                      action: Action)
    requires NestedValid(items, body, init, actions)
    requires NestedPossible(items, Execute(Flat(items), body, init, actions), action)
    ensures NestedValid(items, body, init, actions + [action])
    ensures Execute(Flat(items), body, init, actions + [action]) ==
            Act(Flat(items), body, Execute(Flat(items), body, init, actions), action)
  {
    assert (actions + [action])[..|actions|] == actions;
  }

  ghost predicate RanAllBut<V>(items: seq<Item>, e: Exec<V>, i: nat, n: nat) {
    forall k: nat :: (k in e.seen <==> k < n && !Leads(items, i, k))
                     && (k in e.done <==> k < n && !Leads(items, i, k) && k != i)
  }

  lemma {:induction false} NextPossible<V>(items: seq<Item>, e: Exec<V>, i: nat, k: nat)
    requires k < |Tasks(items)| && RanAllBut(items, e, i, k) && !Leads(items, i, k)
    ensures NestedPossible(items, e, Start(k))
  {
    forall a: nat | NestedNeeds(items, a, k) ensures a in e.done {
      NeedsEarlierTask(items, a, k);
    }
    forall a: nat | Inside(items, 0, a, k) ensures a in e.seen {
      InsideLater(items, 0, a, k);
    }
  }

  lemma {:induction false} RanWithout<V>(items: seq<Item>, e: Exec<V>, i: nat, k: nat)
    requires RanAllBut(items, e, i, k) && Leads(items, i, k)
    ensures RanAllBut(items, e, i, k + 1)
  {
  }

  lemma {:induction false} RunOne<V>(items: seq<Item>, body: Body<V>, init: nat -> V, before: seq<Action>, i: nat,
                                     k: nat) returns (actions: seq<Action>)
    requires NestedValid(items, body, init, before) && k < |Tasks(items)| && !Leads(items, i, k)
    requires RanAllBut(items, Execute(Flat(items), body, init, before), i, k)
    ensures NestedValid(items, body, init, actions)
    ensures RanAllBut(items, Execute(Flat(items), body, init, actions), i, k + 1)
  {
    NextPossible(items, Execute(Flat(items), body, init, before), i, k);
    ValidOn(items, body, init, before, Start(k));
    actions := before + [Start(k)];
    if k != i {
      ValidOn(items, body, init, actions, Finish(k));
      actions := actions + [Finish(k)];
    }
  }

  /** An execution of the tasks before n that starts task i, never finishes it, and runs all that this allows. */
  lemma {:induction false} RunAllBut<V>(items: seq<Item>, body: Body<V>, init: nat -> V, i: nat, n: nat)
    returns (actions: seq<Action>)
    requires n <= |Tasks(items)|
    ensures NestedValid(items, body, init, actions)
    ensures RanAllBut(items, Execute(Flat(items), body, init, actions), i, n)
  {
    if n == 0 {
      actions := [];
    } else {
      var before := RunAllBut(items, body, init, i, n - 1);
      if Leads(items, i, n - 1) {
        actions := before;
        RanWithout(items, Execute(Flat(items), body, init, before), i, n - 1);
      } else {
        actions := RunOne(items, body, init, before, i, n - 1);
      }
    }
  }

  /** In every execution, if task j has started, task i is done. */
  ghost predicate AlwaysBefore<V(!new)>(items: seq<Item>, body: Body<V>, init: nat -> V, i: nat, j: nat) {
    forall actions :: NestedValid(items, body, init, actions) ==>
      var e := Execute(Flat(items), body, init, actions); j in e.seen ==> i in e.done
  }

  /** The waits of tasks and handles order two tasks exactly when a chain of them leads from one to the other. */
  lemma {:induction false} LeadsIff<V(!new)>(items: seq<Item>, body: Body<V>, init: nat -> V, i: nat, j: nat)
    requires j < |Tasks(items)|
    ensures AlwaysBefore(items, body, init, i, j) <==> Leads(items, i, j)
  {
    if Leads(items, i, j) {
      forall actions | NestedValid(items, body, init, actions)
        ensures var e := Execute(Flat(items), body, init, actions); j in e.seen ==> i in e.done
      {
        var e := Execute(Flat(items), body, init, actions);
        ValidIsClosed(items, body, init, actions);
        if j in e.seen {
          LeaderDone(items, e.seen.Keys, e.done, i, j);
        }
      }
    } else {
      var actions := RunAllBut(items, body, init, i, j + 1);
      assert j in Execute(Flat(items), body, init, actions).seen;
    }
  }

  /** Some execution has started both tasks and finished neither. */
  ghost predicate Overlap<V(!new)>(items: seq<Item>, body: Body<V>, init: nat -> V, i: nat, j: nat) {
    exists actions :: NestedValid(items, body, init, actions) && BothRunning(items, body, init, i, j, actions)
  }

  ghost predicate BothRunning<V>(items: seq<Item>, body: Body<V>, init: nat -> V, i: nat, j: nat,
                                 actions: seq<Action>) {
    var e := Execute(Flat(items), body, init, actions);
    i in e.seen && j in e.seen && i !in e.done && j !in e.done
  }

  /** Two tasks may run at the same time exactly when no chain of waits leads from the later to the earlier one. */
  lemma {:induction false} OverlapIff<V(!new)>(items: seq<Item>, body: Body<V>, init: nat -> V, i: nat, j: nat)
    requires i < j < |Tasks(items)|
    ensures Overlap(items, body, init, i, j) <==> !Leads(items, i, j)
  {
    if Leads(items, i, j) {
      LeadsIff(items, body, init, i, j);
      assert AlwaysBefore(items, body, init, i, j);
    } else {
      var before := RunAllBut(items, body, init, i, j);
      NextPossible(items, Execute(Flat(items), body, init, before), i, j);
      ValidOn(items, body, init, before, Start(j));
      if Leads(items, i, i) { LeadsLater(items, i, i); }
      assert BothRunning(items, body, init, i, j, before + [Start(j)]);
    }
  }

  lemma {:induction false} LowestPossible<V>(items: seq<Item>, e: Exec<V>, n: nat)
    requires NestedClosed(items, e.seen.Keys, e.done) && n < |Tasks(items)| && n !in e.done
    requires forall i :: 0 <= i < n ==> i in e.done
    ensures NestedPossible(items, e, Start(n)) || NestedPossible(items, e, Finish(n))
  {
    forall i: nat | NestedNeeds(items, i, n) ensures i in e.done {
      NeedsEarlierTask(items, i, n);
    }
    forall i: nat | Inside(items, 0, i, n) ensures i in e.seen {
      InsideLater(items, 0, i, n);
    }
  }

  /** Nested programs never deadlock: until everything is done, some task can start or finish. */
  lemma {:induction false} NestedProgress<V(!new)>(items: seq<Item>, body: Body<V>, init: nat -> V,
                                                   actions: seq<Action>)
    requires NestedValid(items, body, init, actions)
    ensures var e := Execute(Flat(items), body, init, actions);
      (forall i :: 0 <= i < |Tasks(items)| ==> i in e.done) || exists action :: NestedPossible(items, e, action)
  {
    var e := Execute(Flat(items), body, init, actions);
    ValidIsClosed(items, body, init, actions);
    var n := 0;
    while n < |Tasks(items)| && n in e.done
      invariant n <= |Tasks(items)| && forall i :: 0 <= i < n ==> i in e.done
    {
      n := n + 1;
    }
    if n < |Tasks(items)| {
      LowestPossible(items, e, n);
    }
  }

  // ----- races and values

  /** Whatever a task would wait for with all bodies written in place comes before it. */
  ghost predicate OrderKept(items: seq<Item>) {
    forall i: nat, j: nat :: j < |Flat(items)| && Needs(Flat(items), i, j) ==> Leads(items, i, j)
  }

  lemma {:induction false} KeptIsClosed(items: seq<Item>, started: set<nat>, done: set<nat>)
    requires OrderKept(items) && NestedClosed(items, started, done)
    requires forall j :: j in started ==> j < |Tasks(items)|
    ensures Closed(Flat(items), started, done)
  {
    forall i: nat, j: nat | j in started && j < |Flat(items)| && Needs(Flat(items), i, j) ensures i in done {
      LeaderDone(items, started, done, i, j);
    }
  }

  lemma {:induction false} StartedInProgram<V>(items: seq<Item>, body: Body<V>, init: nat -> V, actions: seq<Action>)
    requires NestedValid(items, body, init, actions)
    ensures forall j :: j in Execute(Flat(items), body, init, actions).seen ==> j < |Tasks(items)|
  {
    if actions != [] {
      StartedInProgram(items, body, init, actions[..|actions| - 1]);
    }
  }

  ghost predicate RaceFreeNested<V(!new)>(items: seq<Item>, body: Body<V>, init: nat -> V) {
    forall i: nat, j: nat, s: nat :: i < j < |Flat(items)| && Conflict(Flat(items)[i], Flat(items)[j], s) ==>
      AlwaysBefore(items, body, init, i, j)
  }

  /**
   A program is free of races, in all executions, exactly when all that tasks would wait for with bodies
   written in place comes before them.
   */
  lemma {:induction false} RaceFreeIff<V(!new)>(items: seq<Item>, body: Body<V>, init: nat -> V)
    ensures RaceFreeNested(items, body, init) <==> OrderKept(items)
  {
    var prog := Flat(items);
    if RaceFreeNested(items, body, init) {
      forall i: nat, j: nat | j < |prog| && Needs(prog, i, j) ensures Leads(items, i, j) {
        NeedsEarlier(prog, i, j);
        var s: nat :| External(i) in NeedsOn(prog, j, s);
        NeedsExactly(prog, i, j, s);
        assert Conflict(prog[i], prog[j], s);
        LeadsIff(items, body, init, i, j);
      }
    }
    if OrderKept(items) {
      forall i: nat, j: nat, s: nat | i < j < |prog| && Conflict(prog[i], prog[j], s)
        ensures AlwaysBefore(items, body, init, i, j)
      {
        KeptIsOrdered(items, body, init, i, j, s);
      }
    }
  }

  lemma {:induction false} KeptIsOrdered<V(!new)>(items: seq<Item>, body: Body<V>, init: nat -> V, i: nat, j: nat,
                                                  s: nat)
    requires OrderKept(items) && i < j < |Flat(items)| && Conflict(Flat(items)[i], Flat(items)[j], s)
    ensures AlwaysBefore(items, body, init, i, j)
  {
    forall actions | NestedValid(items, body, init, actions)
      ensures var e := Execute(Flat(items), body, init, actions); j in e.seen ==> i in e.done
    {
      var e := Execute(Flat(items), body, init, actions);
      ValidIsClosed(items, body, init, actions);
      StartedInProgram(items, body, init, actions);
      KeptIsClosed(items, e.seen.Keys, e.done);
      if j in e.seen {
        OrderedDone(Flat(items), e.seen.Keys, e.done, i, j, s);
      }
    }
  }

  lemma {:induction false} NestedIsValid<V>(items: seq<Item>, body: Body<V>, init: nat -> V, actions: seq<Action>)
    requires OrderKept(items) && NestedValid(items, body, init, actions)
    ensures Valid(Flat(items), body, init, actions)
  {
    if actions != [] {
      var before := actions[..|actions| - 1];
      NestedIsValid(items, body, init, before);
      ValidIsClosed(items, body, init, before);
      var e, last := Execute(Flat(items), body, init, before), actions[|actions| - 1];
      if last.Start? {
        assert NestedClosed(items, e.seen.Keys + {last.i}, e.done);
        forall i: nat | Needs(Flat(items), i, last.i) ensures i in e.done {
          LeaderDone(items, e.seen.Keys + {last.i}, e.done, i, last.i);
        }
      }
    }
  }

  /**
   Tasks nested to any depth, each submitting through the open-ended handles it was given: if the
   program is free of races, every execution that respects the preconditions shows each task the values
   of program order, and ends with its final values.
   */
  lemma {:induction false} NestedDeterminate<V(!new)>(items: seq<Item>, body: Body<V>, init: nat -> V,
                                                      actions: seq<Action>)
    requires OrderKept(items) && NestedValid(items, body, init, actions)
    ensures var e, prog := Execute(Flat(items), body, init, actions), Flat(items);
      && (forall i :: i in e.seen ==> i < |prog| && e.seen[i] == SequentialInputs(prog, body, init, i))
      && ((forall i :: 0 <= i < |prog| ==> i in e.done) ==>
            forall s: nat :: e.values(s) == Sequential(prog, body, init, |prog|, s))
  {
    NestedIsValid(items, body, init, actions);
    Determinate(Flat(items), body, init, actions);
  }
}
