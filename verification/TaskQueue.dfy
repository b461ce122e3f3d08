/** The worker threads' task queue: a ring of slots behind one mutex and one condition variable, used by any number of
    worker and dispatcher threads at once. Every statement is a step of its own; a thread asleep on the condition
    variable may wake at any time, signalled or not. */
module TaskQueue {

  /** A task; 0 is the null pointer. */
  type Task = nat

  /** Where a worker is in get_task. */
  datatype Worker =
    | Working
    | Entering
    | Counting
    | Testing
    | Asleep
    | Awake
    | Found
    | Fetching
    | Wrapping(task: Task)
    | Signalling(task: Task)
    | Leaving(task: Task)

  /** Where a dispatcher is in dispatch, and with which task. */
  datatype Dispatcher =
    | Idle
    | DEntering(given: Task)
    | DTesting(given: Task)
    | DAsleep(given: Task)
    | DAwake(given: Task)
    | Storing(given: Task)
    | DWrapping
    | DSignalling
    | DLeaving

  datatype Owner = Free | HeldBy(worker: nat) | HeldByDispatcher(dispatcher: nat)

  datatype State = State(
    slots: seq<Task>, head: nat, tail: nat, tasksDone: int, mutex: Owner,
    workers: seq<Worker>, dispatchers: seq<Dispatcher>,
    dispatched: seq<Task>,    // every task stored so far, in order
    returned: seq<Task>       // every task get_task has returned, in order
  )

  predicate Empty(s: State) { s.head == s.tail }

  predicate Full(s: State)
    requires |s.slots| > 0
  {
    (s.tail + 1) % |s.slots| == s.head
  }

  datatype Event = WorkerStep(i: nat) | Dispatch(j: nat, task: Task) | DispatcherStep(j: nat)

  /** Whether a thread can move: it exists, and does not wait for a mutex somebody holds. */
  predicate Enabled(s: State, ev: Event) {
    |s.slots| > 0 &&
    match ev
    case WorkerStep(i) =>
      i < |s.workers| && (s.workers[i].Entering? || s.workers[i].Awake? ==> s.mutex.Free?)
    case Dispatch(j, task) => j < |s.dispatchers| && s.dispatchers[j].Idle? && task != 0
    case DispatcherStep(j) =>
      j < |s.dispatchers| && !s.dispatchers[j].Idle? &&
      (s.dispatchers[j].DEntering? || s.dispatchers[j].DAwake? ==> s.mutex.Free?)
  }

  function At(s: State, i: nat, pc: Worker): State
    requires i < |s.workers|
  {
    s.(workers := s.workers[i := pc])
  }

  function DAt(s: State, j: nat, pc: Dispatcher): State
    requires j < |s.dispatchers|
  {
    s.(dispatchers := s.dispatchers[j := pc])
  }

  /** Reading and writing a slot; outside the ring, where no run gets, nothing is read or written. */
  function Load(slots: seq<Task>, at: nat): Task { if at < |slots| then slots[at] else 0 }

  function Store(slots: seq<Task>, at: nat, task: Task): (r: seq<Task>)
    ensures |r| == |slots|
  {
    if at < |slots| then slots[at := task] else slots
  }

  /** One statement of get_task. */
  function StepWorker(s: State, i: nat): State
    requires Enabled(s, WorkerStep(i))
  {
    match s.workers[i]
    case Working => At(s, i, Entering)
    case Entering => At(s, i, Counting).(mutex := HeldBy(i))
    case Counting => At(s, i, Testing).(tasksDone := s.tasksDone - 1)
    case Testing => if Empty(s) then At(s, i, Asleep).(mutex := Free) else At(s, i, Found)
    case Asleep => At(s, i, Awake)
    case Awake => At(s, i, Testing).(mutex := HeldBy(i))
    case Found => At(s, i, Fetching).(tasksDone := s.tasksDone + 1)
    case Fetching => At(s, i, Wrapping(Load(s.slots, s.head))).(head := s.head + 1)
    case Wrapping(task) => At(s, i, Signalling(task)).(head := s.head % |s.slots|)
    case Signalling(task) => At(s, i, Leaving(task))
    case Leaving(task) => At(s, i, Working).(mutex := Free, returned := s.returned + [task])
  }

  /** One statement of dispatch. */
  function StepDispatcher(s: State, j: nat): State
    requires Enabled(s, DispatcherStep(j))
  {
    match s.dispatchers[j]
    case DEntering(task) => DAt(s, j, DTesting(task)).(mutex := HeldByDispatcher(j))
    case DTesting(task) => if Full(s) then DAt(s, j, DAsleep(task)).(mutex := Free) else DAt(s, j, Storing(task))
    case DAsleep(task) => DAt(s, j, DAwake(task))
    case DAwake(task) => DAt(s, j, DTesting(task)).(mutex := HeldByDispatcher(j))
    case Storing(task) =>
      DAt(s, j, DWrapping).(slots := Store(s.slots, s.tail, task), tail := s.tail + 1, dispatched := s.dispatched + [task])
    case DWrapping => DAt(s, j, DSignalling).(tail := s.tail % |s.slots|)
    case DSignalling => DAt(s, j, DLeaving)
    case DLeaving => DAt(s, j, Idle).(mutex := Free)
  }

  // ----- positions on the ring -----

  function Next(p: nat, n: nat): nat { if p + 1 >= n then 0 else p + 1 }

  /** The slot of the k-th task. */
  function Slot(k: nat, n: nat): nat { if k == 0 then 0 else Next(Slot(k - 1, n), n) }

  lemma {:induction false} SlotBelow(k: nat, n: nat)
    requires n > 0
    ensures Slot(k, n) < n
  {
    if k > 0 {
      SlotBelow(k - 1, n);
    }
  }

  lemma {:induction false} SlotAhead(k: nat, d: nat, n: nat)
    requires n > 0 && d <= n
    ensures Slot(k + d, n) == if Slot(k, n) + d < n then Slot(k, n) + d else Slot(k, n) + d - n
  {
    SlotBelow(k, n);
    if d > 0 {
      SlotAhead(k, d - 1, n);
    }
  }

  lemma WrapIsNext(p: nat, n: nat)
    requires p < n
    ensures (p + 1) % n == Next(p, n)
  {
    if p + 1 == n {
      assert n % n == 0;
    } else {
      assert (p + 1) % n == p + 1;
    }
  }

  // ----- the invariant -----

  predicate InCritical(w: Worker) {
    w.Counting? || w.Testing? || w.Found? || w.Fetching? || w.Wrapping? || w.Signalling? || w.Leaving?
  }

  predicate DInCritical(d: Dispatcher) {
    d.DTesting? || d.Storing? || d.DWrapping? || d.DSignalling? || d.DLeaving?
  }

  /** A thread is in a critical section exactly when it holds the mutex. */
  ghost predicate Locked(s: State) {
    (forall i :: 0 <= i < |s.workers| ==> (InCritical(s.workers[i]) <==> s.mutex == HeldBy(i))) &&
    (forall j :: 0 <= j < |s.dispatchers| ==> (DInCritical(s.dispatchers[j]) <==> s.mutex == HeldByDispatcher(j))) &&
    (s.mutex.HeldBy? ==> s.mutex.worker < |s.workers|) &&
    (s.mutex.HeldByDispatcher? ==> s.mutex.dispatcher < |s.dispatchers|)
  }

  /** What the thread inside is doing to the ring. */
  datatype Phase = Quiet | Stocked | Popped | Room | Pushed

  function PhaseOf(s: State): Phase {
    match s.mutex
    case Free => Quiet
    case HeldBy(i) =>
      if i >= |s.workers| then Quiet
      else if s.workers[i].Found? || s.workers[i].Fetching? then Stocked
      else if s.workers[i].Wrapping? then Popped
      else Quiet
    case HeldByDispatcher(j) =>
      if j >= |s.dispatchers| then Quiet
      else if s.dispatchers[j].Storing? then Room
      else if s.dispatchers[j].DWrapping? then Pushed
      else Quiet
  }

  /** The task the thread inside has fetched and not yet returned. */
  function InHand(s: State): seq<Task> {
    if s.mutex.HeldBy? && s.mutex.worker < |s.workers| then
      match s.workers[s.mutex.worker]
      case Wrapping(task) => [task]
      case Signalling(task) => [task]
      case Leaving(task) => [task]
      case _ => []
    else []
  }

  /** The ring: the tasks dispatched and not yet taken sit in order between head and tail, at most n - 1 of them. */
  ghost predicate Ring(slots: seq<Task>, head: nat, tail: nat, dispatched: seq<Task>, taken: seq<Task>, phase: Phase) {
    var n, h, t := |slots|, |taken|, |dispatched|;
    n > 0 && taken <= dispatched && t - h < n &&
    (if phase == Popped then h > 0 && head == Slot(h - 1, n) + 1 else head == Slot(h, n)) &&
    (if phase == Pushed then t > 0 && tail == Slot(t - 1, n) + 1 else tail == Slot(t, n)) &&
    (forall k :: h <= k < t ==> Slot(k, n) < n && slots[Slot(k, n)] == dispatched[k]) &&
    (phase == Stocked ==> h < t) && (phase == Room ==> t - h < n - 1)
  }

  lemma RingEmpty(slots: seq<Task>, head: nat, tail: nat, dispatched: seq<Task>, taken: seq<Task>)
    requires Ring(slots, head, tail, dispatched, taken, Quiet)
    ensures head == tail <==> taken == dispatched
    ensures head != tail ==> Ring(slots, head, tail, dispatched, taken, Stocked)
  {
    SlotAhead(|taken|, |dispatched| - |taken|, |slots|);
    SlotBelow(|taken|, |slots|);
    hide Slot;
    if |taken| == |dispatched| {
      assert taken == dispatched[..|taken|] == dispatched;
    }
  }

  lemma RingFull(slots: seq<Task>, head: nat, tail: nat, dispatched: seq<Task>, taken: seq<Task>)
    requires Ring(slots, head, tail, dispatched, taken, Quiet)
    ensures (tail + 1) % |slots| == head <==> |dispatched| - |taken| == |slots| - 1
    ensures (tail + 1) % |slots| != head ==> Ring(slots, head, tail, dispatched, taken, Room)
  {
    var n, h, t := |slots|, |taken|, |dispatched|;
    SlotBelow(t, n);
    WrapIsNext(tail, n);
    assert Next(tail, n) == Slot(t + 1, n);
    SlotAhead(h, t + 1 - h, n);
    SlotBelow(h, n);
    hide Slot;
  }

  /** Fetching takes exactly the oldest task not yet taken. */
  lemma RingFetched(slots: seq<Task>, head: nat, tail: nat, dispatched: seq<Task>, taken: seq<Task>)
    requires Ring(slots, head, tail, dispatched, taken, Stocked)
    ensures head < |slots| && slots[head] == dispatched[|taken|]
    ensures Ring(slots, head + 1, tail, dispatched, taken + [slots[head]], Popped)
  {
    hide Slot;
    assert slots[head] == dispatched[|taken|];
    assert taken + [slots[head]] == dispatched[..|taken| + 1];
  }

  lemma RingHeadWrapped(slots: seq<Task>, head: nat, tail: nat, dispatched: seq<Task>, taken: seq<Task>)
    requires Ring(slots, head, tail, dispatched, taken, Popped)
    ensures Ring(slots, head % |slots|, tail, dispatched, taken, Quiet)
  {
    SlotBelow(|taken| - 1, |slots|);
    WrapIsNext(head - 1, |slots|);
  }

  /** Storing overwrites no task that is still to be taken. */
  lemma RingStored(slots: seq<Task>, head: nat, tail: nat, dispatched: seq<Task>, taken: seq<Task>, task: Task)
    requires Ring(slots, head, tail, dispatched, taken, Room)
    ensures tail < |slots|
    ensures forall k :: |taken| <= k < |dispatched| ==> Slot(k, |slots|) != tail
    ensures Ring(slots[tail := task], head, tail + 1, dispatched + [task], taken, Pushed)
  {
    var n, h, t := |slots|, |taken|, |dispatched|;
    SlotBelow(t, n);
    forall k | h <= k < t
      ensures Slot(k, n) != tail
    {
      SlotAhead(k, t - k, n);
      SlotBelow(k, n);
    }
    hide Slot;
    assert taken <= dispatched + [task];
  }

  lemma RingTailWrapped(slots: seq<Task>, head: nat, tail: nat, dispatched: seq<Task>, taken: seq<Task>)
    requires Ring(slots, head, tail, dispatched, taken, Pushed)
    ensures Ring(slots, head, tail % |slots|, dispatched, taken, Quiet)
  {
    SlotBelow(|dispatched| - 1, |slots|);
    WrapIsNext(tail - 1, |slots|);
  }

  /** A worker that has entered get_task and not yet found a task. */
  predicate Inside(w: Worker) { w.Testing? || w.Asleep? || w.Awake? || w.Found? }

  function Outside(ws: seq<Worker>): nat {
    if ws == [] then 0 else Outside(ws[..|ws| - 1]) + if Inside(ws[|ws| - 1]) then 0 else 1
  }

  lemma {:induction false} OutsideUpdated(ws: seq<Worker>, i: nat, w: Worker)
    requires i < |ws|
    ensures Outside(ws[i := w]) ==
            Outside(ws) - (if Inside(ws[i]) then 0 else 1) + (if Inside(w) then 0 else 1)
  {
    var n := |ws| - 1;
    if i == n {
      assert ws[i := w][..n] == ws[..n];
    } else {
      assert ws[i := w][..n] == ws[..n][i := w];
      OutsideUpdated(ws[..n], i, w);
    }
  }

  ghost predicate Given(s: State) {
    (forall k :: 0 <= k < |s.dispatched| ==> s.dispatched[k] != 0) &&
    forall j :: 0 <= j < |s.dispatchers| ==>
      match s.dispatchers[j]
      case DEntering(task) => task != 0
      case DTesting(task) => task != 0
      case DAsleep(task) => task != 0
      case DAwake(task) => task != 0
      case Storing(task) => task != 0
      case _ => true
  }

  ghost predicate Inv(s: State) {
    Locked(s) && Given(s) && s.tasksDone == Outside(s.workers) &&
    Ring(s.slots, s.head, s.tail, s.dispatched, s.returned + InHand(s), PhaseOf(s))
  }

  // ----- every step keeps it -----

  lemma WorkerLocked(s: State, i: nat)
    requires Locked(s) && Enabled(s, WorkerStep(i))
    ensures Locked(StepWorker(s, i))
  {
  }

  /** A worker's step moves that worker only, and the counter with it. */
  lemma StepMoves(s: State, i: nat)
    requires Enabled(s, WorkerStep(i))
    ensures var s' := StepWorker(s, i);
            |s'.workers| == |s.workers| && s'.workers == s.workers[i := s'.workers[i]] &&
            s'.tasksDone == s.tasksDone + (if Inside(s.workers[i]) then 1 else 0) - (if Inside(s'.workers[i]) then 1 else 0)
  {
  }

  lemma WorkerCounted(s: State, i: nat)
    requires s.tasksDone == Outside(s.workers)
    requires Enabled(s, WorkerStep(i))
    ensures StepWorker(s, i).tasksDone == Outside(StepWorker(s, i).workers)
  {
    hide Outside;
    OutsideUpdated(s.workers, i, StepWorker(s, i).workers[i]);
    StepMoves(s, i);
    hide StepWorker;
  }

  lemma WorkerRing(s: State, i: nat)
    requires Inv(s) && Enabled(s, WorkerStep(i))
    ensures var s' := StepWorker(s, i);
            Ring(s'.slots, s'.head, s'.tail, s'.dispatched, s'.returned + InHand(s'), PhaseOf(s'))
  {
    hide Ring;
    var taken := s.returned + InHand(s);
    if s.workers[i].Fetching? {
      RingFetched(s.slots, s.head, s.tail, s.dispatched, taken);
      assert s.returned + [] == s.returned;
    } else if s.workers[i].Wrapping? {
      RingHeadWrapped(s.slots, s.head, s.tail, s.dispatched, taken);
    } else if s.workers[i].Testing? {
      RingEmpty(s.slots, s.head, s.tail, s.dispatched, taken);
    } else if s.workers[i].Leaving? {
      assert s.returned + InHand(s) + [] == s.returned + InHand(s);
    }
  }

  lemma DispatcherRing(s: State, j: nat)
    requires Inv(s) && Enabled(s, DispatcherStep(j))
    ensures var s' := StepDispatcher(s, j);
            Ring(s'.slots, s'.head, s'.tail, s'.dispatched, s'.returned + InHand(s'), PhaseOf(s'))
  {
    hide Ring;
    var taken := s.returned + InHand(s);
    if s.dispatchers[j].Storing? {
      RingStored(s.slots, s.head, s.tail, s.dispatched, taken, s.dispatchers[j].given);
    } else if s.dispatchers[j].DWrapping? {
      RingTailWrapped(s.slots, s.head, s.tail, s.dispatched, taken);
    } else if s.dispatchers[j].DTesting? {
      RingFull(s.slots, s.head, s.tail, s.dispatched, taken);
    }
  }

  lemma DispatcherLocked(s: State, j: nat)
    requires Locked(s) && Enabled(s, DispatcherStep(j))
    ensures Locked(StepDispatcher(s, j))
  {
  }

  lemma DispatcherGiven(s: State, j: nat)
    requires Given(s) && Enabled(s, DispatcherStep(j))
    ensures Given(StepDispatcher(s, j))
  {
  }

  /** One step of any thread. */
  function Do(s: State, ev: Event): State
    requires Enabled(s, ev)
  {
    match ev
    case WorkerStep(i) => StepWorker(s, i)
    case Dispatch(j, task) => DAt(s, j, DEntering(task))
    case DispatcherStep(j) => StepDispatcher(s, j)
  }

  lemma StepKeepsInv(s: State, ev: Event)
    requires Inv(s) && Enabled(s, ev)
    ensures Inv(Do(s, ev))
  {
    match ev
    case WorkerStep(i) =>
      WorkerRing(s, i);
      hide Ring, Outside;
      WorkerLocked(s, i);
      WorkerCounted(s, i);
      WorkerGiven(s, i);
    case Dispatch(j, task) =>
      hide Ring, Outside;
      var s' := DAt(s, j, DEntering(task));
      assert InHand(s') == InHand(s) && PhaseOf(s') == PhaseOf(s);
    case DispatcherStep(j) =>
      DispatcherRing(s, j);
      hide Ring, Outside;
      DispatcherLocked(s, j);
      DispatcherGiven(s, j);
      assert StepDispatcher(s, j).workers == s.workers && StepDispatcher(s, j).tasksDone == s.tasksDone;
  }

  lemma WorkerGiven(s: State, i: nat)
    requires Given(s) && Enabled(s, WorkerStep(i))
    ensures Given(StepWorker(s, i))
  {
    assert StepWorker(s, i).dispatched == s.dispatched && StepWorker(s, i).dispatchers == s.dispatchers;
  }

  // ----- every run -----

  /** nthreads workers and any number of dispatchers, nothing dispatched; the slots are not initialised. */
  predicate Start(s: State) {
    |s.slots| > 0 && |s.workers| == |s.slots| && s.head == s.tail == 0 && s.tasksDone == |s.workers| && s.mutex.Free? &&
    (forall i :: 0 <= i < |s.workers| ==> s.workers[i].Working?) &&
    (forall j :: 0 <= j < |s.dispatchers| ==> s.dispatchers[j].Idle?) && s.dispatched == [] && s.returned == []
  }

  lemma {:induction false} AllOutside(ws: seq<Worker>)
    requires forall i :: 0 <= i < |ws| ==> ws[i].Working?
    ensures Outside(ws) == |ws|
  {
    if ws != [] {
      AllOutside(ws[..|ws| - 1]);
    }
  }

  lemma StartInv(s: State)
    requires Start(s)
    ensures Inv(s)
  {
    AllOutside(s.workers);
    assert s.returned + InHand(s) == [];
  }

  /** s2 is reached from s1 by the events. */
  ghost predicate Runs(s1: State, events: seq<Event>, s2: State)
    decreases |events|
  {
    if events == [] then s1 == s2
    else
      Enabled(s1, events[0]) && Runs(Do(s1, events[0]), events[1..], s2)
  }

  lemma {:induction false} RunKeepsInv(s1: State, events: seq<Event>, s2: State)
    requires Inv(s1) && Runs(s1, events, s2)
    ensures Inv(s2)
    decreases |events|
  {
    hide Inv, Do, Enabled;
    if events != [] {
      StepKeepsInv(s1, events[0]);
      RunKeepsInv(Do(s1, events[0]), events[1..], s2);
    }
  }

  /** In every state of every run: what get_task returned is what was dispatched, once each and in order; at most
      nthreads - 1 tasks wait; each waits intact in its slot; none is null; tasks_done counts the threads outside
      get_task; and one thread at most is inside the mutex. */
  lemma QueueIsSafe(s0: State, events: seq<Event>, s: State)
    requires Start(s0) && Runs(s0, events, s)
    ensures s.returned <= s.dispatched
    ensures |s.dispatched| - |s.returned| <= |s.slots|
    ensures s.mutex.Free? ==> |s.dispatched| - |s.returned| <= |s.slots| - 1
    ensures |s.dispatched| - |s.returned + InHand(s)| <= |s.slots| - 1
    ensures forall k :: |s.returned + InHand(s)| <= k < |s.dispatched| ==>
              Slot(k, |s.slots|) < |s.slots| && s.slots[Slot(k, |s.slots|)] == s.dispatched[k]
    ensures forall k :: 0 <= k < |s.returned| ==> s.returned[k] != 0
    ensures s.tasksDone == Outside(s.workers)
    ensures Locked(s)
  {
    StartInv(s0);
    RunKeepsInv(s0, events, s);
    hide Slot, Runs, Start;
  }

  /** No run reads or writes outside the ring. */
  lemma InBounds(s0: State, events: seq<Event>, s: State)
    requires Start(s0) && Runs(s0, events, s)
    ensures forall i :: 0 <= i < |s.workers| && s.workers[i].Fetching? ==> s.head < |s.slots|
    ensures forall j :: 0 <= j < |s.dispatchers| && s.dispatchers[j].Storing? ==> s.tail < |s.slots|
  {
    StartInv(s0);
    RunKeepsInv(s0, events, s);
    SlotBelow(|s.returned + InHand(s)|, |s.slots|);
    SlotBelow(|s.dispatched|, |s.slots|);
    hide Slot, Runs, Start;
  }

  lemma StalledStep(s: State, ev: Event)
    requires Inv(s) && |s.slots| == 1 && s.dispatched == [] && Enabled(s, ev)
    ensures |Do(s, ev).slots| == 1 && Do(s, ev).dispatched == []
  {
    if ev.DispatcherStep? && s.dispatchers[ev.j].Storing? {
      assert false;
    }
  }

  /** With a single thread the ring always looks full, and no task is ever dispatched. */
  lemma {:induction false} SingleThreadStalls(s1: State, events: seq<Event>, s2: State)
    requires Inv(s1) && |s1.slots| == 1 && s1.dispatched == [] && Runs(s1, events, s2)
    ensures s2.dispatched == []
    decreases |events|
  {
    hide Inv, Do, Enabled;
    if events != [] {
      StalledStep(s1, events[0]);
      StepKeepsInv(s1, events[0]);
      SingleThreadStalls(Do(s1, events[0]), events[1..], s2);
    }
  }

  lemma RunsMore(s1: State, ev: Event, events: seq<Event>, s2: State)
    requires Enabled(s1, ev) && Runs(Do(s1, ev), events, s2)
    ensures Runs(s1, [ev] + events, s2)
  {
    assert ([ev] + events)[1..] == events;
  }

  /** With two slots or more the first dispatcher stores its task by itself: it enters, finds room, and stores. */
  lemma FirstDispatch(s0: State, task: Task) returns (events: seq<Event>, s: State)
    requires Start(s0) && |s0.slots| >= 2 && |s0.dispatchers| > 0 && task != 0
    ensures Runs(s0, events, s) && s.dispatched == [task]
  {
    var s1 := Do(s0, Dispatch(0, task));
    var s2 := Do(s1, DispatcherStep(0));
    var s3 := Do(s2, DispatcherStep(0));
    assert s3.dispatchers[0] == Storing(task) by {
      assert s2.dispatchers[0] == DTesting(task) && !Full(s2);
    }
    s := Do(s3, DispatcherStep(0));
    assert s.dispatched == [task];
    hide Do, Enabled, Start;
    events := [DispatcherStep(0)];
    RunsMore(s3, DispatcherStep(0), [], s);
    assert [DispatcherStep(0)] + [] == events;
    RunsMore(s2, DispatcherStep(0), events, s);
    events := [DispatcherStep(0)] + events;
    RunsMore(s1, DispatcherStep(0), events, s);
    events := [DispatcherStep(0)] + events;
    RunsMore(s0, Dispatch(0, task), events, s);
    events := [Dispatch(0, task)] + events;
  }

  /** Some run dispatches a task, if there is anyone to dispatch it, exactly when there are at least two threads. */
  lemma DispatchesIff(s0: State)
    requires Start(s0) && |s0.dispatchers| > 0
    ensures (exists events, s :: Runs(s0, events, s) && s.dispatched != []) <==> |s0.slots| >= 2
  {
    if |s0.slots| >= 2 {
      var events, s := FirstDispatch(s0, 1);
    } else {
      StartInv(s0);
      hide Runs, Inv;
      forall events, s | Runs(s0, events, s)
        ensures s.dispatched == []
      {
        SingleThreadStalls(s0, events, s);
      }
    }
  }
}
