/**
 What nested tasks wait for, exactly: which earlier tasks, told by how each task uses the store and by
 which tasks enclose it, and which tasks may therefore overlap.
 */
module NestedWaits {
  import opened Realm
  import opened Stores
  import opened Determinacy
  import opened NestedPrograms

  /** How a task uses a store: it writes or reads the data, or takes an open-ended child or view. */
  datatype Use = Writer | Reader | Taker | Viewer | NoUse

  function UseOf(item: Item, s: nat): Use {
    if s in item.access then if item.access[s].Write? then Writer else Reader
    else if s in item.stores then Taker
    else if s in item.views then Viewer
    else NoUse
  }

  /** How task n uses s, when the tasks are numbered from i on. */
  function TaskUse(items: seq<Item>, i: nat, s: nat, n: nat): Use
    decreases items
  {
    if items == [] then NoUse
    else if n == i then UseOf(items[0], s)
    else if i < n < i + Width(items[0]) then TaskUse(items[0].body, i + 1, s, n)
    else TaskUse(items[1..], i + Width(items[0]), s, n)
  }

  predicate Uses(items: seq<Item>, i: nat, s: nat, n: nat) {
    !TaskUse(items, i, s, n).NoUse?
  }

  /** Task n changes s, or hands it out for changes. */
  predicate WriterAt(items: seq<Item>, i: nat, s: nat, n: nat) {
    TaskUse(items, i, s, n).Writer? || TaskUse(items, i, s, n).Taker?
  }

  predicate ReaderAt(items: seq<Item>, i: nat, s: nat, n: nat) {
    TaskUse(items, i, s, n).Reader? || TaskUse(items, i, s, n).Viewer?
  }

  // ----- taking a program apart

  lemma {:induction false} UseInRange(items: seq<Item>, i: nat, s: nat, n: nat)
    requires Uses(items, i, s, n)
    ensures i <= n < i + |Tasks(items)|
    decreases items
  {
    if n != i {
      if i < n < i + Width(items[0]) {
        UseInRange(items[0].body, i + 1, s, n);
      } else {
        UseInRange(items[1..], i + Width(items[0]), s, n);
      }
    }
  }

  /** The tasks that enclose task n, when it is in the first item, and when it is in a later one. */
  lemma {:induction false} InsideSplit(items: seq<Item>, i: nat, b: nat, n: nat)
    requires items != []
    ensures n < i + Width(items[0]) ==>
              (Inside(items, i, b, n) <==> i < n && (b == i || Inside(items[0].body, i + 1, b, n)))
    ensures n >= i + Width(items[0]) ==> (Inside(items, i, b, n) <==> Inside(items[1..], i + Width(items[0]), b, n))
  {
    if Inside(items[1..], i + Width(items[0]), b, n) {
      InsideLater(items[1..], i + Width(items[0]), b, n);
    }
  }

  // ----- views

  /** Below a view nobody writes, below nothing nobody uses the store, and the readers are those of the release. */
  lemma {:induction false} ViewUses(items: seq<Item>, i: nat, s: nat, hold: Hold, n: nat)
    requires Holds(items, s, hold) && !hold.AsStore?
    ensures !WriterAt(items, i, s, n) && (Uses(items, i, s, n) <==> ReaderAt(items, i, s, n))
    ensures ReaderAt(items, i, s, n) <==> External(n) in ReadersOf(items, i, s)
    ensures hold.NotHeld? ==> !Uses(items, i, s, n)
    decreases items
  {
    if items != [] {
      var item, rest := items[0], i + Width(items[0]);
      ViewUses(item.body, i + 1, s, HoldIn(item, s), n);
      ViewUses(items[1..], rest, s, hold, n);
      if External(n) in ReadersOf(items[1..], rest, s) { ReadersInRange(items[1..], rest, s, n); }
      if External(n) in ReadersOf(item.body, i + 1, s) { ReadersInRange(item.body, i + 1, s, n); }
      if Uses(items[1..], rest, s, n) { UseInRange(items[1..], rest, s, n); }
    }
  }

  // ----- what a store goes through, exactly

  /** Task b takes an open-ended child of s, and task x is in its body. */
  predicate TakesAround(items: seq<Item>, i: nat, s: nat, b: nat, x: nat) {
    Inside(items, i, b, x) && TaskUse(items, i, s, b).Taker?
  }

  /** Task x reads s, and no open-ended child of s encloses it. */
  ghost predicate KeptReader(items: seq<Item>, i: nat, s: nat, x: nat) {
    ReaderAt(items, i, s, x) && forall b: nat :: !TakesAround(items, i, s, b, x)
  }

  ghost predicate NoWriterUpTo(items: seq<Item>, i: nat, s: nat, x: nat, end: nat) {
    forall y: nat :: x < y < end ==> !WriterAt(items, i, s, y)
  }

  /** In the rest of the items nothing changes but the numbers. */
  lemma RestUse(items: seq<Item>, i: nat, s: nat, n: nat)
    requires items != []
    ensures var rest := i + Width(items[0]);
      TaskUse(items[1..], rest, s, n) == if n < rest then NoUse else TaskUse(items, i, s, n)
  {
    var rest := i + Width(items[0]);
    if n < rest && Uses(items[1..], rest, s, n) {
      UseInRange(items[1..], rest, s, n);
    }
  }

  lemma RestTakes(items: seq<Item>, i: nat, s: nat, b: nat, x: nat)
    requires items != [] && x >= i + Width(items[0])
    ensures TakesAround(items[1..], i + Width(items[0]), s, b, x) <==> TakesAround(items, i, s, b, x)
  {
    var rest := i + Width(items[0]);
    InsideSplit(items, i, b, x);
    RestUse(items, i, s, b);
    if Inside(items[1..], rest, b, x) { InsideLater(items[1..], rest, b, x); }
  }

  lemma RestKept(items: seq<Item>, i: nat, s: nat, x: nat)
    requires items != []
    ensures var rest := i + Width(items[0]);
      KeptReader(items[1..], rest, s, x) <==> x >= rest && KeptReader(items, i, s, x)
  {
    var rest := i + Width(items[0]);
    RestUse(items, i, s, x);
    if x >= rest {
      forall b: nat ensures TakesAround(items[1..], rest, s, b, x) <==> TakesAround(items, i, s, b, x) {
        RestTakes(items, i, s, b, x);
      }
    }
  }

  lemma BoundedBy(state: StoreState, i: nat, x: nat)
    requires Bounded(state, i)
    ensures External(x) in Events(state.childRw) || External(x) in Events(state.war) ==> x < i
  {
    assert External(x) in Events(state.childRw) + Events(state.war) ==> x < i;
  }

  /** What the first task, with its body, does to the store. */
  ghost predicate FirstExact(items: seq<Item>, i: nat, s: nat, state: StoreState, x: nat)
    requires items != []
  {
    var next, rest := Step(items[0], i, s, state), i + Width(items[0]);
    && (External(x) in Events(next.childRw) <==>
          External(x) in Events(state.childRw) || (x < rest && WriterAt(items, i, s, x)))
    && (External(x) in Events(next.war) <==>
          && (External(x) in Events(state.war) || (x < rest && KeptReader(items, i, s, x)))
          && NoWriterUpTo(items, i, s, x, rest))
  }

  lemma {:induction false} DirectExact(items: seq<Item>, i: nat, s: nat, state: StoreState, x: nat)
    requires items != [] && Holds(items, s, AsStore) && Bounded(state, i) && HoldIn(items[0], s).NotHeld?
    ensures FirstExact(items, i, s, state, x)
  {
    var rest := i + Width(items[0]);
    forall n: nat | n < rest && n != i ensures !Uses(items, i, s, n) {
      ViewUses(items[0].body, i + 1, s, NotHeld, n);
      OnlyFromStart(items, i, s, n);
    }
    forall b: nat ensures !TakesAround(items, i, s, b, i) {
      InsideSplit(items, i, b, i);
    }
    BoundedBy(state, i, x);
    if WriterAt(items, i, s, i) && x < i {
      assert !NoWriterUpTo(items, i, s, x, rest);
    }
    DirectCases(items, i, s, state, x);
  }

  lemma DirectCases(items: seq<Item>, i: nat, s: nat, state: StoreState, x: nat)
    requires items != [] && HoldIn(items[0], s).NotHeld? && Bounded(state, i)
    requires forall n: nat :: n < i + Width(items[0]) && n != i ==> !Uses(items, i, s, n)
    requires forall b: nat :: !TakesAround(items, i, s, b, i)
    requires External(x) in Events(state.war) ==> x < i
    ensures FirstExact(items, i, s, state, x)
  {
    var item, rest := items[0], i + Width(items[0]);
    assert TaskUse(items, i, s, i) == UseOf(item, s);
    if x < i && WriterAt(items, i, s, i) {
      assert !NoWriterUpTo(items, i, s, x, rest);
    } else {
      forall y: nat | x < y < rest ensures !WriterAt(items, i, s, y) {
        assert y != i ==> !Uses(items, i, s, y);
      }
    }
    assert x < rest && x != i ==> !Uses(items, i, s, x);
  }

  lemma {:induction false} OnlyFromStart(items: seq<Item>, i: nat, s: nat, n: nat)
    ensures n < i ==> !Uses(items, i, s, n)
  {
    if Uses(items, i, s, n) { UseInRange(items, i, s, n); }
  }

  lemma {:induction false} ViewExact(items: seq<Item>, i: nat, s: nat, state: StoreState, x: nat)
    requires items != [] && Holds(items, s, AsStore) && Bounded(state, i) && HoldIn(items[0], s).AsView?
    ensures FirstExact(items, i, s, state, x)
  {
    var item, rest := items[0], i + Width(items[0]);
    forall n: nat | n < rest ensures !WriterAt(items, i, s, n) {
      ViewUses(item.body, i + 1, s, AsView, n);
      OnlyFromStart(items, i, s, n);
    }
    ViewUses(item.body, i + 1, s, AsView, x);
    OnlyFromStart(items, i, s, x);
    if x < rest {
      forall b: nat ensures !TakesAround(items, i, s, b, x) {
        if Inside(items, i, b, x) {
          InsideLater(items, i, b, x);
          assert !WriterAt(items, i, s, b);
        }
      }
    }
    if External(x) in ReadersOf(item.body, i + 1, s) { ReadersInRange(item.body, i + 1, s, x); }
  }

  lemma {:induction false} ChildExact(items: seq<Item>, i: nat, s: nat, state: StoreState, x: nat)
    requires items != [] && Holds(items, s, AsStore) && Bounded(state, i) && HoldIn(items[0], s).AsStore?
    ensures FirstExact(items, i, s, state, x)
    decreases items, 0
  {
    var item, rest := items[0], i + Width(items[0]);
    AfterExact(item.body, i + 1, s, ChildOf(state, NoUserEvent), x);
    OnlyFromStart(items, i, s, x);
    if WriterAt(item.body, i + 1, s, x) { UseInRange(item.body, i + 1, s, x); }
    assert WriterAt(items, i, s, i);
    BoundedBy(state, i, x);
    if i < x < rest {
      InsideSplit(items, i, i, x);
      assert TakesAround(items, i, s, i, x);
    } else if x < i {
      assert !NoWriterUpTo(items, i, s, x, rest);
    }
  }

  /** What the store a body holds waits for, after the body: its writers, and the readers left on it. */
  lemma {:induction false} AfterExact(items: seq<Item>, i: nat, s: nat, state: StoreState, x: nat)
    requires Holds(items, s, AsStore) && Bounded(state, i)
    ensures External(x) in Events(After(items, i, s, state).childRw) <==>
            External(x) in Events(state.childRw) || WriterAt(items, i, s, x)
    ensures External(x) in Events(After(items, i, s, state).war) <==>
            && (External(x) in Events(state.war) || KeptReader(items, i, s, x))
            && NoWriterUpTo(items, i, s, x, i + |Tasks(items)|)
    decreases items, 2
  {
    if items != [] {
      var rest, next := i + Width(items[0]), Step(items[0], i, s, state);
      OneExact(items, i, s, state, x);
      StepBounded(items[0], i, s, state);
      AfterExact(items[1..], rest, s, next, x);
      RestUse(items, i, s, x);
      RestKept(items, i, s, x);
      assert rest + |Tasks(items[1..])| == i + |Tasks(items)|;
      WritersSplit(items, i, s, x, i + |Tasks(items)|);
    }
  }

  lemma {:induction false} OneExact(items: seq<Item>, i: nat, s: nat, state: StoreState, x: nat)
    requires items != [] && Holds(items, s, AsStore) && Bounded(state, i)
    ensures FirstExact(items, i, s, state, x)
    decreases items, 1
  {
    match HoldIn(items[0], s)
    case AsStore => ChildExact(items, i, s, state, x);
    case AsView => ViewExact(items, i, s, state, x);
    case NotHeld => DirectExact(items, i, s, state, x);
  }

  lemma WritersSplit(items: seq<Item>, i: nat, s: nat, x: nat, end: nat)
    requires items != [] && i + Width(items[0]) <= end
    ensures var rest := i + Width(items[0]);
      NoWriterUpTo(items, i, s, x, end) <==>
      NoWriterUpTo(items, i, s, x, rest) && NoWriterUpTo(items[1..], rest, s, x, end)
  {
    var rest := i + Width(items[0]);
    if NoWriterUpTo(items, i, s, x, end) {
      forall y: nat | x < y < end ensures !WriterAt(items[1..], rest, s, y) {
        RestUse(items, i, s, y);
        assert !WriterAt(items, i, s, y);
      }
    }
    if NoWriterUpTo(items, i, s, x, rest) && NoWriterUpTo(items[1..], rest, s, x, end) {
      forall y: nat | x < y < end ensures !WriterAt(items, i, s, y) {
        RestUse(items, i, s, y);
        assert y >= rest ==> !WriterAt(items[1..], rest, s, y);
      }
    }
  }

  // ----- what a task waits for, exactly

  /** Every open-ended child of s that encloses task x encloses task j too. */
  ghost predicate SameChild(items: seq<Item>, i: nat, s: nat, x: nat, j: nat) {
    forall b: nat :: TakesAround(items, i, s, b, x) ==> Inside(items, i, b, j)
  }

  /** Task y writes s or takes a child of it, and does not enclose task j. */
  predicate WritesBefore(items: seq<Item>, i: nat, s: nat, y: nat, j: nat) {
    WriterAt(items, i, s, y) && !Inside(items, i, y, j)
  }

  /** Every writer between the two encloses task j. */
  ghost predicate NoWriterBetween(items: seq<Item>, i: nat, s: nat, x: nat, j: nat) {
    forall y: nat :: x < y < j ==> !WritesBefore(items, i, s, y, j)
  }

  /** What task j waits for: the writers before it, and if it writes, the readers that no writer has taken over. */
  ghost predicate Awaits(items: seq<Item>, i: nat, s: nat, state: StoreState, x: nat, j: nat) {
    && Uses(items, i, s, j)
    && (|| External(x) in Events(state.childRw)
        || (x < j && WritesBefore(items, i, s, x, j))
        || (&& WriterAt(items, i, s, j) && x < j && NoWriterBetween(items, i, s, x, j)
            && (External(x) in Events(state.war) || (ReaderAt(items, i, s, x) && SameChild(items, i, s, x, j)))))
  }

  lemma {:induction false} WaitsExact(items: seq<Item>, i: nat, s: nat, state: StoreState, x: nat, j: nat)
    requires Holds(items, s, AsStore) && Bounded(state, i)
    ensures External(x) in WaitsOn(items, i, s, state, j) <==> Awaits(items, i, s, state, x, j)
    decreases items
  {
    if items != [] {
      var rest := i + Width(items[0]);
      if j <= i {
        OwnExact(items, i, s, state, x, j);
      } else if j >= rest {
        LaterExact(items, i, s, state, x, j);
      } else {
        match HoldIn(items[0], s)
        case AsStore => InChildExact(items, i, s, state, x, j);
        case _ => InViewExact(items, i, s, state, x, j);
      }
    }
  }

  lemma {:induction false} OwnExact(items: seq<Item>, i: nat, s: nat, state: StoreState, x: nat, j: nat)
    requires items != [] && Holds(items, s, AsStore) && Bounded(state, i) && j <= i
    ensures External(x) in WaitsOn(items, i, s, state, j) <==> Awaits(items, i, s, state, x, j)
  {
    OnlyFromStart(items, i, s, j);
    if j < i {
      if External(x) in WaitsOn(items, i, s, state, j) { WaitsEarlier(items, i, s, state, j, x); }
    } else {
      OnlyFromStart(items, i, s, x);
      forall y: nat | y < j ensures !WritesBefore(items, i, s, y, j) { OnlyFromStart(items, i, s, y); }
      BoundedBy(state, i, x);
    }
  }

  lemma {:induction false} InViewExact(items: seq<Item>, i: nat, s: nat, state: StoreState, x: nat, j: nat)
    requires items != [] && Holds(items, s, AsStore) && Bounded(state, i)
    requires i < j < i + Width(items[0]) && !HoldIn(items[0], s).AsStore?
    ensures External(x) in WaitsOn(items, i, s, state, j) <==> Awaits(items, i, s, state, x, j)
  {
    var body, hold := items[0].body, HoldIn(items[0], s);
    ViewUses(body, i + 1, s, hold, j);
    BodyUse(items, i, s, j);
    if x < j {
      ViewUses(body, i + 1, s, hold, x);
      BodyUse(items, i, s, x);
      BodyInside(items, i, x, j);
    }
  }

  /** In the body of the first task nothing changes but that the task itself encloses everything. */
  lemma BodyUse(items: seq<Item>, i: nat, s: nat, n: nat)
    requires items != [] && n < i + Width(items[0])
    ensures TaskUse(items, i, s, n) == if n < i then NoUse
                                       else if n == i then UseOf(items[0], s)
                                       else TaskUse(items[0].body, i + 1, s, n)
    ensures n <= i ==> !Uses(items[0].body, i + 1, s, n)
  {
    OnlyFromStart(items, i, s, n);
    OnlyFromStart(items[0].body, i + 1, s, n);
  }

  lemma BodyInside(items: seq<Item>, i: nat, b: nat, n: nat)
    requires items != [] && n < i + Width(items[0])
    ensures Inside(items, i, b, n) <==> i < n && (b == i || Inside(items[0].body, i + 1, b, n))
    ensures Inside(items, i, b, n) ==> b < n
  {
    InsideSplit(items, i, b, n);
    if Inside(items, i, b, n) { InsideLater(items, i, b, n); }
  }

  lemma BodyWrites(items: seq<Item>, i: nat, s: nat, y: nat, j: nat)
    requires items != [] && y < j < i + Width(items[0]) && i < j
    ensures WritesBefore(items, i, s, y, j) <==> WritesBefore(items[0].body, i + 1, s, y, j)
  {
    BodyUse(items, i, s, y);
    BodyInside(items, i, y, j);
  }

  lemma BodyBetween(items: seq<Item>, i: nat, s: nat, x: nat, j: nat)
    requires items != [] && i < j < i + Width(items[0])
    ensures NoWriterBetween(items, i, s, x, j) <==> NoWriterBetween(items[0].body, i + 1, s, x, j)
  {
    var body, first := items[0].body, i + 1;
    if NoWriterBetween(items, i, s, x, j) {
      forall y: nat | x < y < j ensures !WritesBefore(body, first, s, y, j) {
        BodyWrites(items, i, s, y, j);
      }
    }
    if NoWriterBetween(body, first, s, x, j) {
      forall y: nat | x < y < j ensures !WritesBefore(items, i, s, y, j) {
        BodyWrites(items, i, s, y, j);
      }
    }
  }

  lemma BodyTakes(items: seq<Item>, i: nat, s: nat, b: nat, x: nat)
    requires items != [] && i < x < i + Width(items[0])
    ensures b != i ==> (TakesAround(items, i, s, b, x) <==> TakesAround(items[0].body, i + 1, s, b, x))
    ensures !TakesAround(items[0].body, i + 1, s, i, x)
  {
    BodyInside(items, i, b, x);
    BodyUse(items, i, s, i);
    if b < x { BodyUse(items, i, s, b); }
    if Inside(items[0].body, i + 1, b, x) { InsideLater(items[0].body, i + 1, b, x); }
  }

  lemma BodySameChild(items: seq<Item>, i: nat, s: nat, x: nat, j: nat)
    requires items != [] && i < x < j < i + Width(items[0])
    ensures SameChild(items, i, s, x, j) <==> SameChild(items[0].body, i + 1, s, x, j)
  {
    var body, first := items[0].body, i + 1;
    if SameChild(items, i, s, x, j) {
      forall b: nat | TakesAround(body, first, s, b, x) ensures Inside(body, first, b, j) {
        BodyTakes(items, i, s, b, x);
        BodyInside(items, i, b, j);
      }
    }
    if SameChild(body, first, s, x, j) {
      forall b: nat | TakesAround(items, i, s, b, x) ensures Inside(items, i, b, j) {
        BodyTakes(items, i, s, b, x);
        BodyInside(items, i, b, j);
      }
    }
  }

  lemma {:induction false} InChildExact(items: seq<Item>, i: nat, s: nat, state: StoreState, x: nat, j: nat)
    requires items != [] && Holds(items, s, AsStore) && Bounded(state, i)
    requires i < j < i + Width(items[0]) && HoldIn(items[0], s).AsStore?
    ensures External(x) in WaitsOn(items, i, s, state, j) <==> Awaits(items, i, s, state, x, j)
    decreases items, 0
  {
    var body, child := items[0].body, ChildOf(state, NoUserEvent);
    WaitsExact(body, i + 1, s, child, x, j);
    BodyUse(items, i, s, j);
    BodyBetween(items, i, s, x, j);
    if x < j {
      BodyUse(items, i, s, x);
      BodyInside(items, i, x, j);
      if x > i { BodySameChild(items, i, s, x, j); }
    }
  }

  lemma RestWrites(items: seq<Item>, i: nat, s: nat, y: nat, j: nat)
    requires items != [] && j >= i + Width(items[0])
    ensures var rest := i + Width(items[0]);
      WritesBefore(items, i, s, y, j) <==>
      if y < rest then WriterAt(items, i, s, y) else WritesBefore(items[1..], rest, s, y, j)
    ensures y < i + Width(items[0]) ==> !WritesBefore(items[1..], i + Width(items[0]), s, y, j)
  {
    var rest := i + Width(items[0]);
    RestUse(items, i, s, y);
    InsideSplit(items, i, y, j);
    if Inside(items[1..], rest, y, j) { InsideLater(items[1..], rest, y, j); }
  }

  lemma RestBetween(items: seq<Item>, i: nat, s: nat, x: nat, j: nat)
    requires items != [] && j >= i + Width(items[0])
    ensures var rest := i + Width(items[0]);
      NoWriterBetween(items, i, s, x, j) <==>
      NoWriterUpTo(items, i, s, x, rest) && NoWriterBetween(items[1..], rest, s, x, j)
  {
    var rest := i + Width(items[0]);
    forall y: nat
      ensures WritesBefore(items, i, s, y, j) <==>
              if y < rest then WriterAt(items, i, s, y) else WritesBefore(items[1..], rest, s, y, j)
      ensures y < rest ==> !WritesBefore(items[1..], rest, s, y, j)
    {
      RestWrites(items, i, s, y, j);
    }
    if NoWriterBetween(items, i, s, x, j) {
      forall y: nat | x < y < rest ensures !WriterAt(items, i, s, y) {
        assert !WritesBefore(items, i, s, y, j);
      }
      forall y: nat | x < y < j ensures !WritesBefore(items[1..], rest, s, y, j) {
        assert !WritesBefore(items, i, s, y, j);
      }
    }
  }

  lemma FirstSameChild(items: seq<Item>, i: nat, s: nat, x: nat, j: nat)
    requires items != [] && x < i + Width(items[0]) <= j && ReaderAt(items, i, s, x)
    ensures SameChild(items, i, s, x, j) <==> KeptReader(items, i, s, x)
  {
    var rest := i + Width(items[0]);
    forall b: nat | TakesAround(items, i, s, b, x) ensures !Inside(items, i, b, j) {
      InsideLater(items, i, b, x);
      InsideSplit(items, i, b, j);
      if Inside(items[1..], rest, b, j) { InsideLater(items[1..], rest, b, j); }
    }
  }

  lemma RestSameChild(items: seq<Item>, i: nat, s: nat, x: nat, j: nat)
    requires items != [] && x >= i + Width(items[0]) && j >= i + Width(items[0])
    ensures SameChild(items, i, s, x, j) <==> SameChild(items[1..], i + Width(items[0]), s, x, j)
  {
    var rest := i + Width(items[0]);
    forall b: nat
      ensures TakesAround(items, i, s, b, x) <==> TakesAround(items[1..], rest, s, b, x)
      ensures Inside(items, i, b, j) <==> Inside(items[1..], rest, b, j)
    {
      RestTakes(items, i, s, b, x);
      InsideSplit(items, i, b, j);
    }
  }

  lemma {:induction false} LaterExact(items: seq<Item>, i: nat, s: nat, state: StoreState, x: nat, j: nat)
    requires items != [] && Holds(items, s, AsStore) && Bounded(state, i) && j >= i + Width(items[0])
    ensures External(x) in WaitsOn(items, i, s, state, j) <==> Awaits(items, i, s, state, x, j)
    decreases items, 0
  {
    var rest, next := i + Width(items[0]), Step(items[0], i, s, state);
    OneExact(items, i, s, state, x);
    StepBounded(items[0], i, s, state);
    WaitsExact(items[1..], rest, s, next, x, j);
    RestUse(items, i, s, j);
    RestUse(items, i, s, x);
    RestBetween(items, i, s, x, j);
    RestWrites(items, i, s, x, j);
    BoundedBy(state, i, x);
    if x >= rest {
      RestSameChild(items, i, s, x, j);
    } else if ReaderAt(items, i, s, x) {
      FirstSameChild(items, i, s, x, j);
    }
  }

  /**
   What tasks wait for through a store, by how they use it and what encloses them: a task that uses s at
   all waits for every earlier task that writes s or takes a child of it, unless that task encloses it;
   and a task that writes s or takes a child of it also waits for the earlier tasks that read or view s
   within the same child, unless a writer in between has done so already.
   */
  lemma {:induction false} NestedNeedsExactly(items: seq<Item>, s: nat, x: nat, j: nat)
    requires Holds(items, s, AsStore)
    ensures External(x) in WaitsOn(items, 0, s, EMPTY_STORE, j) <==>
      && x < j && Uses(items, 0, s, j)
      && (|| WritesBefore(items, 0, s, x, j)
          || (WriterAt(items, 0, s, j) && ReaderAt(items, 0, s, x)
              && SameChild(items, 0, s, x, j) && NoWriterBetween(items, 0, s, x, j)))
  {
    WaitsExact(items, 0, s, EMPTY_STORE, x, j);
  }

  // ----- who may overlap

  /** Two tasks that only read or view a store do not wait for each other on account of it. */
  lemma ReadersDoNotWait(items: seq<Item>, s: nat, x: nat, j: nat)
    requires Holds(items, s, AsStore) && !WriterAt(items, 0, s, x) && !WriterAt(items, 0, s, j)
    ensures External(x) !in WaitsOn(items, 0, s, EMPTY_STORE, j)
  {
    NestedNeedsExactly(items, s, x, j);
  }

  /** All tasks only read and view the stores, each as its handle allows. */
  ghost predicate NeverWritten(items: seq<Item>) {
    forall s: nat, n: nat :: OnlyRead(items, s, n)
  }

  predicate OnlyRead(items: seq<Item>, s: nat, n: nat) {
    Holds(items, s, AsStore) && !WriterAt(items, 0, s, n)
  }

  lemma {:induction false} NobodyLeads(items: seq<Item>, i: nat, j: nat)
    requires NeverWritten(items)
    ensures !Leads(items, i, j)
    decreases j
  {
    forall a: nat ensures !NestedNeeds(items, a, j) {
      forall s: nat ensures External(a) !in WaitsOn(items, 0, s, EMPTY_STORE, j) {
        assert OnlyRead(items, s, a) && OnlyRead(items, s, j);
        ReadersDoNotWait(items, s, a, j);
      }
    }
    forall k: nat | k < j ensures !Leads(items, i, k) {
      NobodyLeads(items, i, k);
    }
  }

  /** In a program that only reads and views its stores, any two tasks overlap in some execution. */
  lemma ReadersOverlap<V(!new)>(items: seq<Item>, body: Body<V>, init: nat -> V, i: nat, j: nat)
    requires NeverWritten(items) && i < j < |Tasks(items)|
    ensures Overlap(items, body, init, i, j)
  {
    NobodyLeads(items, i, j);
    OverlapIff(items, body, init, i, j);
  }

  /** A reader, and a task that takes a view of the same store. */
  const READER_AND_VIEWER := [Item(map[0 := Read], {}, {}, []), Item(map[], {}, {0}, [])]

  lemma ViewerDoesNotWait<V(!new)>(body: Body<V>, init: nat -> V)
    ensures !NestedNeeds(READER_AND_VIEWER, 0, 1) && Overlap(READER_AND_VIEWER, body, init, 0, 1)
  {
    var items := READER_AND_VIEWER;
    assert items[1..] == [Item(map[], {}, {0}, [])] && items[1..][1..] == [] && |Tasks(items[1..])| == 1;
    forall s: nat, n: nat ensures OnlyRead(items, s, n) {
      assert Holds(items[1..], s, AsStore);
      assert TaskUse(items, 0, s, n) == if n == 0 then UseOf(items[0], s) else TaskUse(items[1..], 1, s, n);
      assert TaskUse(items[1..], 1, s, n) == if n == 1 then UseOf(items[1], s) else NoUse;
    }
    NobodyLeads(items, 0, 1);
    ReadersOverlap(items, body, init, 0, 1);
  }
}
