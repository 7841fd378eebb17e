/**
 Programs of tasks over stores: any execution that respects the preconditions built by the stores
 is race free and computes what running the tasks in program order computes.
 */
module Determinacy {
  import opened Shape
  import opened Realm
  import opened Stores

  /** One step of the submitting program: submit a task, or wait for everything pending on a store. */
  datatype Op = TaskOp(access: map<nat, Access>) | WaitOp(store: nat)

  type Program = seq<Op>

  predicate Writes(op: Op, s: nat) {
    op.TaskOp? && s in op.access && op.access[s].Write?
  }

  predicate Reads(op: Op, s: nat) {
    op.TaskOp? && s in op.access && op.access[s].Read?
  }

  predicate Waits(op: Op, s: nat) {
    op.WaitOp? && op.store == s
  }

  /** Completion event of operation i. */
  function Completion(i: nat): Event {
    {External(i)}
  }

  /** Store s after operation i. */
  function AfterOp(state: StoreState, op: Op, i: nat, s: nat): StoreState {
    match op
    case TaskOp(access) => if s in access then Submitted(state, access[s], Completion(i)) else state
    case WaitOp(t) => if s == t then state.(childRw := None, war := None) else state
  }

  /** Store s after the first n operations have been submitted. */
  function StateAt(prog: Program, n: nat, s: nat): StoreState
    requires n <= |prog|
  {
    if n == 0 then EMPTY_STORE else AfterOp(StateAt(prog, n - 1, s), prog[n - 1], n - 1, s)
  }

  /** What operation j waits for on account of store s. */
  function NeedsOn(prog: Program, j: nat, s: nat): Event
    requires j < |prog|
  {
    match prog[j]
    case TaskOp(access) =>
      if s in access then Events(ArgumentPrecondition(StateAt(prog, j, s), access[s])) else NO_EVENT
    case WaitOp(t) => if s == t then Events(StorePrecondition(StateAt(prog, j, s))) else NO_EVENT
  }

  /** Operation j has to wait for operation i: through a store, or because the program waits in between. */
  ghost predicate Needs(prog: Program, i: nat, j: nat)
    requires j < |prog|
  {
    (exists s: nat :: External(i) in NeedsOn(prog, j, s)) || (i < j && prog[i].WaitOp?)
  }

  // ----- what the preconditions are, exactly

  predicate NoWaitBetween(prog: Program, i: nat, j: nat, s: nat)
    requires j <= |prog|
  {
    forall k :: i < k < j ==> !Waits(prog[k], s)
  }

  predicate NoWriteBetween(prog: Program, i: nat, j: nat, s: nat)
    requires j <= |prog|
  {
    forall k :: i < k < j ==> !Writes(prog[k], s)
  }

  /** child_rw holds the writers since the last wait; war holds the readers since the last write or wait. */
  lemma {:induction false} StateContents(prog: Program, n: nat, s: nat)
    requires n <= |prog|
    ensures forall i: nat :: External(i) in Events(StateAt(prog, n, s).childRw) <==>
              i < n && Writes(prog[i], s) && NoWaitBetween(prog, i, n, s)
    ensures forall i: nat :: External(i) in Events(StateAt(prog, n, s).war) <==>
              i < n && Reads(prog[i], s) && NoWriteBetween(prog, i, n, s) && NoWaitBetween(prog, i, n, s)
  {
    if n > 0 {
      StateContents(prog, n - 1, s);
      var op, before, after := prog[n - 1], StateAt(prog, n - 1, s), StateAt(prog, n, s);
      forall i: nat
        ensures External(i) in Events(after.childRw) <==>
                  i < n && Writes(prog[i], s) && NoWaitBetween(prog, i, n, s)
        ensures External(i) in Events(after.war) <==>
                  i < n && Reads(prog[i], s) && NoWriteBetween(prog, i, n, s) && NoWaitBetween(prog, i, n, s)
      {
        BetweenGrows(prog, i, n, s);
      }
    }
  }

  lemma BetweenGrows(prog: Program, i: nat, n: nat, s: nat)
    requires 0 < n <= |prog|
    ensures NoWaitBetween(prog, i, n, s) <==> NoWaitBetween(prog, i, n - 1, s) && (i < n - 1 ==> !Waits(prog[n - 1], s))
    ensures NoWriteBetween(prog, i, n, s) <==>
            NoWriteBetween(prog, i, n - 1, s) && (i < n - 1 ==> !Writes(prog[n - 1], s))
  {
  }

  /** A task that takes s depends, through s, exactly on the writers and (if it writes) the readers it must follow. */
  lemma NeedsExactly(prog: Program, i: nat, j: nat, s: nat)
    requires j < |prog|
    ensures External(i) in NeedsOn(prog, j, s) <==>
              && i < j && NoWaitBetween(prog, i, j, s)
              && ((Writes(prog[i], s) && (Writes(prog[j], s) || Reads(prog[j], s) || Waits(prog[j], s)))
                  || (Reads(prog[i], s) && NoWriteBetween(prog, i, j, s) && (Writes(prog[j], s) || Waits(prog[j], s))))
  {
    StateContents(prog, j, s);
  }

  // ----- ordered pairs

  /** Operation j uses s in a way that must come after what i does to s. */
  predicate Ordered(prog: Program, i: nat, j: nat, s: nat)
    requires j < |prog|
  {
    && i < j
    && ((Writes(prog[i], s) && (Writes(prog[j], s) || Reads(prog[j], s) || Waits(prog[j], s)))
        || (Reads(prog[i], s) && (Writes(prog[j], s) || Waits(prog[j], s))))
  }

  /** Nothing starts before everything it needs is done. */
  ghost predicate Closed(prog: Program, started: set<nat>, done: set<nat>) {
    && done <= started && (forall j :: j in started ==> j < |prog|)
    && forall i: nat, j: nat :: j in started && j < |prog| && Needs(prog, i, j) ==> i in done
  }

  /** RAW, WAR and WAW pairs are ordered, directly or through other operations. */
  lemma {:induction false} OrderedDone(prog: Program, started: set<nat>, done: set<nat>, i: nat, j: nat, s: nat)
    requires Closed(prog, started, done) && j in started && Ordered(prog, i, j, s)
    ensures i in done
    decreases j
  {
    if !NoWaitBetween(prog, i, j, s) {
      var k :| i < k < j && Waits(prog[k], s);
      assert Needs(prog, k, j);
      OrderedDone(prog, started, done, i, k, s);
    } else if Writes(prog[i], s) || NoWriteBetween(prog, i, j, s) {
      NeedsExactly(prog, i, j, s);
      assert Needs(prog, i, j);
    } else {
      var k :| i < k < j && Writes(prog[k], s);
      NeedsExactly(prog, k, j, s);
      assert Needs(prog, k, j);
      OrderedDone(prog, started, done, i, k, s);
    }
  }

  // ----- program order

  /** What task i writes to store s, given the values of the stores it takes. */
  type Body<!V> = (nat, map<nat, V>, nat) -> V

  /** Value of store s after the first n operations, run one after the other. */
  function Sequential<V>(prog: Program, body: Body<V>, init: nat -> V, n: nat, s: nat): V
    requires n <= |prog|
    decreases n, 0
  {
    if n == 0 then init(s)
    else if Writes(prog[n - 1], s) then body(n - 1, SequentialInputs(prog, body, init, n - 1), s)
    else Sequential(prog, body, init, n - 1, s)
  }

  /** The values task i sees when the program runs in order. */
  function SequentialInputs<V>(prog: Program, body: Body<V>, init: nat -> V, i: nat): map<nat, V>
    requires i < |prog|
    decreases i, 1
  {
    if prog[i].WaitOp? then map[]
    else map s | s in prog[i].access :: Sequential(prog, body, init, i, s)
  }

  lemma {:induction false} NothingWritten<V>(prog: Program, body: Body<V>, init: nat -> V, a: nat, b: nat, s: nat)
    requires a <= b <= |prog| && forall i :: a <= i < b ==> !Writes(prog[i], s)
    ensures Sequential(prog, body, init, a, s) == Sequential(prog, body, init, b, s)
    decreases b
  {
    if a < b {
      NothingWritten(prog, body, init, a, b - 1, s);
    }
  }

  // ----- concurrent executions

  /** `seen` maps each started operation to the values it read when it started. */
  datatype Exec<!V> = Exec(values: nat -> V, seen: map<nat, map<nat, V>>, done: set<nat>)

  datatype Action = Start(i: nat) | Finish(i: nat)

  ghost predicate Possible<V>(prog: Program, e: Exec<V>, action: Action) {
    match action
    case Start(j) => j < |prog| && j !in e.seen && forall i: nat :: Needs(prog, i, j) ==> i in e.done
    case Finish(i) => i < |prog| && i in e.seen && i !in e.done
  }

  function InputsNow<V>(prog: Program, e: Exec<V>, i: nat): map<nat, V>
    requires i < |prog|
  {
    if prog[i].WaitOp? then map[] else map s | s in prog[i].access :: e.values(s)
  }

  function Act<V>(prog: Program, body: Body<V>, e: Exec<V>, action: Action): Exec<V> {
    match action
    case Start(i) =>
      if i < |prog| then e.(seen := e.seen[i := InputsNow(prog, e, i)]) else e
    case Finish(i) =>
      if i < |prog| && i in e.seen then
        e.(values := (s: nat) => if Writes(prog[i], s) then body(i, e.seen[i], s) else e.values(s),
           done := e.done + {i})
      else e
  }

  function Execute<V>(prog: Program, body: Body<V>, init: nat -> V, actions: seq<Action>): Exec<V> {
    if actions == [] then Exec(init, map[], {})
    else Act(prog, body, Execute(prog, body, init, actions[..|actions| - 1]), actions[|actions| - 1])
  }

  /** Every action is possible when it happens. */
  ghost predicate Valid<V>(prog: Program, body: Body<V>, init: nat -> V, actions: seq<Action>) {
    actions == [] ||
    (Valid(prog, body, init, actions[..|actions| - 1])
     && Possible(prog, Execute(prog, body, init, actions[..|actions| - 1]), actions[|actions| - 1]))
  }

  /** Among the writers of s, exactly the ones before n are done. */
  ghost predicate WritersDone(prog: Program, done: set<nat>, n: nat, s: nat)
    requires n <= |prog|
  {
    forall i: nat :: i < |prog| && Writes(prog[i], s) ==> (i in done <==> i < n)
  }

  ghost predicate Faithful<V(!new)>(prog: Program, body: Body<V>, init: nat -> V, e: Exec<V>) {
    && Closed(prog, e.seen.Keys, e.done)
    && (forall n: nat, s: nat :: n <= |prog| && WritersDone(prog, e.done, n, s) ==>
          e.values(s) == Sequential(prog, body, init, n, s))
    && (forall i :: i in e.seen && i < |prog| ==> e.seen[i] == SequentialInputs(prog, body, init, i))
  }

  /** When a task may start, what it sees of each of its stores is what program order would show it. */
  lemma StartSees(prog: Program, started: set<nat>, done: set<nat>, j: nat, s: nat)
    requires Closed(prog, started, done) && j < |prog| && j !in started
    requires forall i: nat :: Needs(prog, i, j) ==> i in done
    requires Writes(prog[j], s) || Reads(prog[j], s)
    ensures WritersDone(prog, done, j, s)
  {
    forall i: nat | i < |prog| && Writes(prog[i], s) ensures i in done <==> i < j {
      if i < j {
        ClosedWith(prog, started, done, j);
        OrderedDone(prog, started + {j}, done, i, j, s);
      } else if j < i && i in done {
        OrderedDone(prog, started, done, j, i, s);
      }
    }
  }

  lemma ClosedWith(prog: Program, started: set<nat>, done: set<nat>, j: nat)
    requires Closed(prog, started, done) && j < |prog| && forall i: nat :: Needs(prog, i, j) ==> i in done
    ensures Closed(prog, started + {j}, done)
  {
  }

  lemma StartFaithful<V(!new)>(prog: Program, body: Body<V>, init: nat -> V, e: Exec<V>, j: nat)
    requires Faithful(prog, body, init, e) && Possible(prog, e, Start(j))
    ensures Faithful(prog, body, init, Act(prog, body, e, Start(j)))
  {
    ClosedWith(prog, e.seen.Keys, e.done, j);
    var e' := Act(prog, body, e, Start(j));
    assert e'.seen.Keys == e.seen.Keys + {j};
    if prog[j].TaskOp? {
      forall s | s in prog[j].access ensures e.values(s) == Sequential(prog, body, init, j, s) {
        StartSees(prog, e.seen.Keys, e.done, j, s);
      }
    }
    assert e'.seen[j] == SequentialInputs(prog, body, init, j);
  }

  /** While j has not finished, no later writer of a store that j writes has finished, and all earlier ones have. */
  lemma FinishOrder(prog: Program, started: set<nat>, done: set<nat>, j: nat, n: nat, s: nat)
    requires Closed(prog, started, done) && j < |prog| && j in started && j !in done
    requires n <= |prog| && Writes(prog[j], s) && WritersDone(prog, done + {j}, n, s)
    ensures j < n && forall i :: j < i < n ==> !Writes(prog[i], s)
  {
    forall i | j < i < n ensures !Writes(prog[i], s) {
      if Writes(prog[i], s) && i in done {
        OrderedDone(prog, started, done, j, i, s);
      }
    }
  }

  lemma FinishFaithful<V(!new)>(prog: Program, body: Body<V>, init: nat -> V, e: Exec<V>, j: nat)
    requires Faithful(prog, body, init, e) && Possible(prog, e, Finish(j))
    ensures Faithful(prog, body, init, Act(prog, body, e, Finish(j)))
  {
    var e' := Act(prog, body, e, Finish(j));
    forall n: nat, s: nat | n <= |prog| && WritersDone(prog, e'.done, n, s)
      ensures e'.values(s) == Sequential(prog, body, init, n, s)
    {
      if Writes(prog[j], s) {
        FinishOrder(prog, e.seen.Keys, e.done, j, n, s);
        NothingWritten(prog, body, init, j + 1, n, s);
      } else {
        assert WritersDone(prog, e.done, n, s);
      }
    }
  }

  lemma {:induction false} ExecuteFaithful<V(!new)>(prog: Program, body: Body<V>, init: nat -> V, actions: seq<Action>)
    requires Valid(prog, body, init, actions)
    ensures Faithful(prog, body, init, Execute(prog, body, init, actions))
  {
    if actions == [] {
      forall n: nat, s: nat | n <= |prog| && WritersDone(prog, {}, n, s)
        ensures init(s) == Sequential(prog, body, init, n, s)
      {
        NothingWritten(prog, body, init, 0, n, s);
      }
    } else {
      var e := Execute(prog, body, init, actions[..|actions| - 1]);
      ExecuteFaithful(prog, body, init, actions[..|actions| - 1]);
      match actions[|actions| - 1]
      case Start(j) => StartFaithful(prog, body, init, e, j);
      case Finish(j) => FinishFaithful(prog, body, init, e, j);
    }
  }

  // ----- what holds for every program and every execution

  /** Every task sees the values that program order would show it, and the final values are the same. */
  lemma Determinate<V(!new)>(prog: Program, body: Body<V>, init: nat -> V, actions: seq<Action>)
    requires Valid(prog, body, init, actions)
    ensures var e := Execute(prog, body, init, actions);
      && (forall i :: i in e.seen ==> i < |prog| && e.seen[i] == SequentialInputs(prog, body, init, i))
      && ((forall i :: 0 <= i < |prog| ==> i in e.done) ==>
            forall s: nat :: e.values(s) == Sequential(prog, body, init, |prog|, s))
  {
    ExecuteFaithful(prog, body, init, actions);
    var e := Execute(prog, body, init, actions);
    if forall i :: 0 <= i < |prog| ==> i in e.done {
      forall s: nat ensures e.values(s) == Sequential(prog, body, init, |prog|, s) {
        assert WritersDone(prog, e.done, |prog|, s);
      }
    }
  }

  predicate Conflict(a: Op, b: Op, s: nat) {
    (Writes(a, s) && (Writes(b, s) || Reads(b, s))) || (Reads(a, s) && Writes(b, s))
  }

  /** No two tasks that conflict on a store ever run at the same time. */
  lemma RaceFree<V(!new)>(prog: Program, body: Body<V>, init: nat -> V, actions: seq<Action>, i: nat, j: nat, s: nat)
    requires Valid(prog, body, init, actions) && i < j < |prog| && Conflict(prog[i], prog[j], s)
    ensures var e := Execute(prog, body, init, actions);
      j in e.seen ==> i in e.done
  {
    ExecuteFaithful(prog, body, init, actions);
    var e := Execute(prog, body, init, actions);
    if j in e.seen {
      OrderedDone(prog, e.seen.Keys, e.done, i, j, s);
    }
  }

  lemma NeedsEarlier(prog: Program, i: nat, j: nat)
    requires j < |prog| && Needs(prog, i, j)
    ensures i < j
  {
    if s: nat :| External(i) in NeedsOn(prog, j, s) {
      NeedsExactly(prog, i, j, s);
    }
  }

  /** Preconditions never deadlock: until everything is done, some operation can start or finish. */
  lemma Progress<V(!new)>(prog: Program, body: Body<V>, init: nat -> V, actions: seq<Action>)
    requires Valid(prog, body, init, actions)
    ensures var e := Execute(prog, body, init, actions);
      (forall i :: 0 <= i < |prog| ==> i in e.done) || exists action :: Possible(prog, e, action)
  {
    var e := Execute(prog, body, init, actions);
    var n := 0;
    while n < |prog| && n in e.done
      invariant n <= |prog| && forall i :: 0 <= i < n ==> i in e.done
    {
      n := n + 1;
    }
    if n < |prog| {
      forall i: nat | Needs(prog, i, n) ensures i in e.done {
        NeedsEarlier(prog, i, n);
      }
      assert Possible(prog, e, Start(n)) || Possible(prog, e, Finish(n));
    }
  }
}
