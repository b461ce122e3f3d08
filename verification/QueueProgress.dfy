/** The queue goes on: in no reachable state are the threads stuck while a task waits. Each step is given as a run
    that the threads can take from there. */
module QueueProgress {
  import opened TaskQueue

  /** How many statements a worker inside the mutex is from leaving it. */
  function Left(w: Worker): nat {
    match w
    case Counting => 7
    case Testing => 6
    case Found => 5
    case Fetching => 4
    case Wrapping(_) => 3
    case Signalling(_) => 2
    case Leaving(_) => 1
    case _ => 0
  }

  function DLeft(d: Dispatcher): nat {
    match d
    case DTesting(_) => 5
    case Storing(_) => 4
    case DWrapping => 3
    case DSignalling => 2
    case DLeaving => 1
    case _ => 0
  }

  /** Only worker i moves. */
  predicate OnlyWorker(events: seq<Event>, i: nat) { forall k :: 0 <= k < |events| ==> events[k] == WorkerStep(i) }

  predicate OnlyDispatcher(events: seq<Event>, j: nat) {
    forall k :: 0 <= k < |events| ==> events[k] == DispatcherStep(j)
  }

  lemma {:induction false} RunsJoin(s1: State, a: seq<Event>, s2: State, b: seq<Event>, s3: State)
    requires Runs(s1, a, s2) && Runs(s2, b, s3)
    ensures Runs(s1, a + b, s3)
    decreases |a|
  {
    hide Do, Enabled;
    if a == [] {
      assert a + b == b;
    } else {
      assert (a + b)[1..] == a[1..] + b;
      RunsJoin(Do(s1, a[0]), a[1..], s2, b, s3);
    }
  }

  // ----- a worker -----

  ghost predicate Pending(s: State) { |s.returned| < |s.dispatched| }

  /** The oldest task not yet returned. */
  function Oldest(s: State): Task
    requires |s.returned| < |s.dispatched|
  {
    s.dispatched[|s.returned|]
  }

  lemma NotEmpty(s: State, i: nat)
    requires Inv(s) && i < |s.workers| && s.workers[i].Testing? && Pending(s)
    ensures !Empty(s)
  {
    hide Ring, Outside, Given;
    assert InCritical(s.workers[i]);
    assert s.returned + InHand(s) == s.returned;
    RingEmpty(s.slots, s.head, s.tail, s.dispatched, s.returned);
  }

  lemma HandIsOldest(s: State, i: nat)
    requires Inv(s) && i < |s.workers| && s.workers[i].Leaving?
    ensures Pending(s) && s.workers[i].task == Oldest(s)
  {
    hide Slot, Outside, Given;
    assert InCritical(s.workers[i]);
    assert s.returned + InHand(s) <= s.dispatched;
    assert (s.returned + InHand(s))[|s.returned|] == s.workers[i].task;
  }

  lemma InsideGoesOn(s: State, i: nat)
    requires Inv(s) && i < |s.workers| && InCritical(s.workers[i]) && !s.workers[i].Leaving? && Pending(s)
    ensures Enabled(s, WorkerStep(i))
    ensures var s' := Do(s, WorkerStep(i));
            s'.returned == s.returned && s'.dispatched == s.dispatched && |s'.workers| == |s.workers| &&
            InCritical(s'.workers[i]) && Left(s'.workers[i]) < Left(s.workers[i])
  {
    if s.workers[i].Testing? {
      NotEmpty(s, i);
    }
    assert |s.slots| > 0;
    hide Inv;
  }

  lemma Leaves(s: State, i: nat)
    requires Inv(s) && i < |s.workers| && s.workers[i].Leaving?
    ensures Enabled(s, WorkerStep(i)) && Pending(s)
    ensures var s' := Do(s, WorkerStep(i));
            s'.mutex.Free? && s'.returned == s.returned + [Oldest(s)] && s'.dispatched == s.dispatched
  {
    HandIsOldest(s, i);
    assert |s.slots| > 0;
    hide Inv;
  }

  lemma OnlyMore(events: seq<Event>, i: nat)
    requires OnlyWorker(events, i)
    ensures OnlyWorker([WorkerStep(i)] + events, i)
  {
  }

  lemma Finished(s: State)
    ensures Runs(s, [], s)
  {
  }

  /** A worker inside the mutex returns the oldest task by itself. */
  lemma {:induction false} InsideReturns(s: State, i: nat) returns (events: seq<Event>, s': State)
    requires Inv(s) && i < |s.workers| && InCritical(s.workers[i]) && Pending(s)
    ensures Runs(s, events, s') && OnlyWorker(events, i) && Inv(s')
    ensures s'.mutex.Free? && s'.returned == s.returned + [Oldest(s)] && s'.dispatched == s.dispatched
    decreases Left(s.workers[i])
  {
    hide Inv, Do, Enabled, Left, Runs;
    var next: State;
    if s.workers[i].Leaving? {
      Leaves(s, i);
      next := Do(s, WorkerStep(i));
      StepKeepsInv(s, WorkerStep(i));
      Finished(next);
      events, s' := [], next;
    } else {
      InsideGoesOn(s, i);
      next := Do(s, WorkerStep(i));
      StepKeepsInv(s, WorkerStep(i));
      events, s' := InsideReturns(next, i);
    }
    RunsMore(s, WorkerStep(i), events, s');
    OnlyMore(events, i);
    events := [WorkerStep(i)] + events;
  }

  /** How many statements a worker outside is from having the mutex. */
  function Away(w: Worker): nat { if w.Working? || w.Asleep? then 2 else if w.Entering? || w.Awake? then 1 else 0 }

  lemma OutsideGoesOn(s: State, i: nat)
    requires Inv(s) && i < |s.workers| && !InCritical(s.workers[i]) && s.mutex.Free?
    ensures Enabled(s, WorkerStep(i))
    ensures var s' := Do(s, WorkerStep(i));
            s'.returned == s.returned && s'.dispatched == s.dispatched && |s'.workers| == |s.workers| &&
            (InCritical(s'.workers[i]) || (s'.mutex.Free? && Away(s'.workers[i]) < Away(s.workers[i])))
  {
    assert |s.slots| > 0;
    hide Inv;
  }

  /** With the mutex free and a task waiting, any worker, wherever it is, returns the oldest task by its own steps. */
  lemma {:induction false} WorkerReturns(s: State, i: nat) returns (events: seq<Event>, s': State)
    requires Inv(s) && i < |s.workers| && (s.mutex.Free? || InCritical(s.workers[i])) && Pending(s)
    ensures Runs(s, events, s') && OnlyWorker(events, i) && Inv(s')
    ensures s'.mutex.Free? && s'.returned == s.returned + [Oldest(s)] && s'.dispatched == s.dispatched
    decreases Away(s.workers[i])
  {
    if InCritical(s.workers[i]) {
      events, s' := InsideReturns(s, i);
    } else {
      hide Inv, Do, Enabled, Away, Runs;
      OutsideGoesOn(s, i);
      var next := Do(s, WorkerStep(i));
      StepKeepsInv(s, WorkerStep(i));
      if InCritical(next.workers[i]) {
        events, s' := InsideReturns(next, i);
      } else {
        events, s' := WorkerReturns(next, i);
      }
      RunsMore(s, WorkerStep(i), events, s');
      OnlyMore(events, i);
      events := [WorkerStep(i)] + events;
    }
  }

  // ----- the thread inside the mutex leaves it -----

  lemma HolderStep(s: State, i: nat)
    requires Inv(s) && s.mutex == HeldBy(i)
    ensures Enabled(s, WorkerStep(i)) && i < |s.workers|
    ensures var s' := Do(s, WorkerStep(i));
            s'.dispatched == s.dispatched && |s'.workers| == |s.workers| &&
            (s'.mutex.Free? || (s'.mutex == s.mutex && Left(s'.workers[i]) < Left(s.workers[i]))) &&
            (s'.returned == s.returned || (Pending(s) && s'.returned == s.returned + [Oldest(s)] && s'.mutex.Free?))
  {
    assert InCritical(s.workers[i]);
    if s.workers[i].Leaving? {
      HandIsOldest(s, i);
    }
    assert |s.slots| > 0;
    hide Inv;
  }

  lemma DHolderStep(s: State, j: nat)
    requires Inv(s) && s.mutex == HeldByDispatcher(j)
    ensures Enabled(s, DispatcherStep(j)) && j < |s.dispatchers|
    ensures var s' := Do(s, DispatcherStep(j));
            s'.returned == s.returned && |s'.dispatchers| == |s.dispatchers| && s'.workers == s.workers &&
            s.dispatched <= s'.dispatched &&
            (s'.mutex.Free? || (s'.mutex == s.mutex && DLeft(s'.dispatchers[j]) < DLeft(s.dispatchers[j])))
  {
    assert DInCritical(s.dispatchers[j]);
    assert |s.slots| > 0;
    hide Inv;
  }

  function Steps(s: State): nat {
    match s.mutex
    case Free => 0
    case HeldBy(i) => if i < |s.workers| then Left(s.workers[i]) else 0
    case HeldByDispatcher(j) => if j < |s.dispatchers| then DLeft(s.dispatchers[j]) else 0
  }

  /** The step of the thread inside. */
  function HolderEvent(s: State): Event
    requires !s.mutex.Free?
  {
    if s.mutex.HeldBy? then WorkerStep(s.mutex.worker) else DispatcherStep(s.mutex.dispatcher)
  }

  /** Same tasks returned, or the oldest one more. */
  ghost predicate OneMore(s: State, s': State) {
    s.dispatched <= s'.dispatched &&
    (s'.returned == s.returned || (Pending(s) && s'.returned == s.returned + [Oldest(s)]))
  }

  lemma HolderGoesOn(s: State)
    requires Inv(s) && !s.mutex.Free?
    ensures Enabled(s, HolderEvent(s))
    ensures var s' := Do(s, HolderEvent(s));
            |s'.workers| == |s.workers| && OneMore(s, s') &&
            (s'.mutex.Free? || (Steps(s') < Steps(s) && s'.returned == s.returned))
  {
    hide Inv, Do, Enabled, Left, DLeft;
    if s.mutex.HeldBy? {
      HolderStep(s, s.mutex.worker);
    } else {
      DHolderStep(s, s.mutex.dispatcher);
    }
  }

  lemma StillOldest(s: State, t: State, s': State)
    requires s.dispatched <= t.dispatched && t.returned == s.returned && OneMore(t, s') && Pending(s)
    ensures OneMore(s, s')
  {
  }

  /** Whoever is inside the mutex leaves it by its own steps. */
  lemma {:induction false} HolderLeaves(s: State) returns (events: seq<Event>, s': State)
    requires Inv(s) && Pending(s)
    ensures Runs(s, events, s') && Inv(s') && s'.mutex.Free? && |s'.workers| == |s.workers| && OneMore(s, s')
    decreases Steps(s)
  {
    if s.mutex.Free? {
      events, s' := [], s;
    } else {
      hide Inv, Do, Enabled, Steps, Runs;
      var ev := HolderEvent(s);
      HolderGoesOn(s);
      var next := Do(s, ev);
      StepKeepsInv(s, ev);
      if next.mutex.Free? {
        Finished(next);
        events, s' := [], next;
      } else {
        events, s' := HolderLeaves(next);
        StillOldest(s, next, s');
      }
      RunsMore(s, ev, events, s');
      events := [ev] + events;
    }
  }

  /** From every state of every run in which a task waits, the threads can go on so that the oldest is the next one
      returned. */
  lemma TaskReturns(s0: State, past: seq<Event>, s: State) returns (events: seq<Event>, s': State)
    requires Start(s0) && Runs(s0, past, s) && Pending(s)
    ensures Runs(s, events, s') && s'.returned == s.returned + [Oldest(s)]
  {
    StartInv(s0);
    RunKeepsInv(s0, past, s);
    SameWorkers(s0, past, s);
    hide Inv, Runs;
    var free: State;
    events, free := HolderLeaves(s);
    if free.returned == s.returned {
      var more: seq<Event>;
      more, s' := WorkerReturns(free, 0);
      RunsJoin(s, events, free, more, s');
      events := events + more;
    } else {
      s' := free;
    }
  }

  lemma KeepsWorkers(s: State, ev: Event)
    requires Enabled(s, ev)
    ensures |Do(s, ev).workers| == |s.workers|
  {
  }

  lemma {:induction false} SameWorkers(s1: State, events: seq<Event>, s2: State)
    requires Runs(s1, events, s2)
    ensures |s2.workers| == |s1.workers|
    decreases |events|
  {
    hide Do, Enabled;
    if events != [] {
      KeepsWorkers(s1, events[0]);
      SameWorkers(Do(s1, events[0]), events[1..], s2);
    }
  }

  // ----- a dispatcher -----

  ghost predicate RoomLeft(s: State) { |s.dispatched| - |s.returned| < |s.slots| - 1 }

  predicate Carrying(d: Dispatcher) { d.DEntering? || d.DTesting? || d.DAsleep? || d.DAwake? || d.Storing? }

  /** How many statements a dispatcher is from storing its task. */
  function ToStore(d: Dispatcher): nat {
    match d
    case DAsleep(_) => 4
    case DEntering(_) => 3
    case DAwake(_) => 3
    case DTesting(_) => 2
    case Storing(_) => 1
    case _ => 0
  }

  lemma NotFull(s: State, j: nat)
    requires Inv(s) && j < |s.dispatchers| && s.dispatchers[j].DTesting? && RoomLeft(s)
    ensures !Full(s)
  {
    hide Ring, Outside, Given;
    assert DInCritical(s.dispatchers[j]);
    assert s.returned + InHand(s) == s.returned;
    RingFull(s.slots, s.head, s.tail, s.dispatched, s.returned);
  }

  lemma CarryingGoesOn(s: State, j: nat)
    requires Inv(s) && j < |s.dispatchers| && Carrying(s.dispatchers[j]) && RoomLeft(s)
    requires s.mutex.Free? || DInCritical(s.dispatchers[j])
    ensures Enabled(s, DispatcherStep(j))
    ensures var s' := Do(s, DispatcherStep(j));
            s'.returned == s.returned && |s'.dispatchers| == |s.dispatchers| && |s'.slots| == |s.slots| &&
            if s.dispatchers[j].Storing? then s'.dispatched == s.dispatched + [s.dispatchers[j].given]
            else
              s'.dispatched == s.dispatched && Carrying(s'.dispatchers[j]) &&
              s'.dispatchers[j].given == s.dispatchers[j].given && ToStore(s'.dispatchers[j]) < ToStore(s.dispatchers[j]) &&
              (s'.mutex.Free? || DInCritical(s'.dispatchers[j]))
  {
    if s.dispatchers[j].DTesting? {
      NotFull(s, j);
    }
    assert |s.slots| > 0;
    hide Inv;
  }

  /** With the mutex free and room in the ring, any dispatcher stores the task it brought by its own steps. */
  lemma {:induction false} DispatcherStores(s: State, j: nat) returns (events: seq<Event>, s': State)
    requires Inv(s) && j < |s.dispatchers| && Carrying(s.dispatchers[j]) && RoomLeft(s)
    requires s.mutex.Free? || DInCritical(s.dispatchers[j])
    ensures Runs(s, events, s') && OnlyDispatcher(events, j)
    ensures s'.dispatched == s.dispatched + [s.dispatchers[j].given] && s'.returned == s.returned
    decreases ToStore(s.dispatchers[j])
  {
    hide Inv, Do, Enabled, ToStore, Runs;
    CarryingGoesOn(s, j);
    var next := Do(s, DispatcherStep(j));
    StepKeepsInv(s, DispatcherStep(j));
    if s.dispatchers[j].Storing? {
      Finished(next);
      events, s' := [], next;
    } else {
      events, s' := DispatcherStores(next, j);
    }
    RunsMore(s, DispatcherStep(j), events, s');
    events := [DispatcherStep(j)] + events;
  }
}
