/**
 * The thread pool protocol of threadpool.c as a state machine.  A step of a thread takes a lock,
 * gives one back, performs one atomic operation, or does one piece of work inside a critical
 * section, so any two threads may interleave at every such point.
 *
 * Task t is the one made by schedule call t.  Queues are the contents of the workers' linked
 * queues.  Atomics are sequentially consistent; a condition wait may end without a signal.
 */
module ThreadpoolModel {
  import opened Seqs

  const SIZE_MAX: nat := U64 - 1

  type Task = nat

  /** worker_run with worker_find_task and worker_wait_for_task inlined. */
  datatype WorkerPc =
    | Check                                    // about to load running
    | FindLock(i: nat)                         // about to lock the i-th candidate's queue
    | FindPop(i: nat)
    | FindSub(i: nat, t: Task)                 // popped; queue_length not yet lowered
    | FindUnlock(i: nat, found: Option<Task>)
    | WaitLock                                 // about to lock the own queue, at first or after a wait
    | WaitPop
    | WaitSub(t: Task)
    | WaitTest(found: Option<Task>)            // the condition of the waiting loop
    | WaitSleep                                // has seen running, about to wait on the condition
    | Asleep(signalled: bool)
    | WaitUnlock(found: Option<Task>)
    | Running(t: Task)                         // calling the task's function
    | DoneLock(t: Task)                        // the function has returned
    | DoneSub(t: Task)
    | DoneSignal                               // active_tasks dropped to zero
    | DoneUnlock
    | Exited

  /** cx_threadpool_schedule */
  datatype SchedulePc =
    | Scan(i: nat, best: Option<nat>, least: int)
    | Lock(w: nat)
    | Link(w: nat)
    | AddActive(w: nat)
    | AddLength(w: nat)
    | Signal(w: nat)
    | Unlock(w: nat)
    | Returned(w: nat)

  /** cx_threadpool_wait */
  datatype WaiterPc = WaitEnter | WaitCheck | WaitBlock | WaitAsleep(signalled: bool) | WaitLeave | WaitDone

  /** A waiter, with the tasks whose schedule calls had returned when it started. */
  datatype Waiter = Waiter(pc: WaiterPc, before: set<Task>)

  /** cx_threadpool_cleanup with worker_cleanup inlined. */
  datatype CleanupPc =
    | Idle
    | CleanLock(i: nat) | CleanSignal(i: nat) | CleanUnlock(i: nat) | CleanJoin(i: nat)
    | Cleaned

  datatype Thread = W(i: nat) | S(t: Task) | A(k: nat) | C

  datatype State = State(
    workers: seq<WorkerPc>,
    queues: seq<seq<Task>>,
    lengths: seq<int>,               // queue_length
    queueLocks: seq<Option<Thread>>, // the holder of each queue mutex
    running: bool,
    active: int,                     // active_tasks
    waitLock: Option<Thread>,        // the holder of the wait mutex
    schedules: seq<SchedulePc>,
    waiters: seq<Waiter>,
    cleanup: CleanupPc,
    // history
    enqueued: seq<seq<Task>>,        // every task ever linked to each queue, in order
    dequeued: seq<seq<Task>>,        // every task ever popped from each queue, in order
    takenBy: map<Task, nat>,         // the worker that popped a task
    ran: seq<Task>,                  // the tasks whose functions have returned, in order
    counted: set<Task>)              // the tasks active_tasks stands for

  datatype Action =
    | StepWorker(i: nat, woken: set<nat>)   // woken: the waiters a signal of the wait condition wakes
    | StepSchedule(t: Task)
    | StepWaiter(k: nat)
    | StepCleanup
    | NewSchedule
    | NewWait

  ghost function Init(n: nat): State
    requires n > 0
  {
    State(seq(n, _ => Check), seq(n, _ => []), seq(n, _ => 0), seq(n, _ => None),
          true, 0, None, [], [], Idle,
          seq(n, _ => []), seq(n, _ => []), map[], [], {})
  }

  /** There is one of everything for each worker. */
  ghost predicate Sized(s: State) {
    0 < |s.workers| == |s.queues| == |s.lengths| == |s.queueLocks| == |s.enqueued| == |s.dequeued|
  }

  /** The i-th queue a worker looks into, its own first. */
  ghost function Candidate(w: nat, i: nat, n: nat): (c: nat)
    requires n > 0
    ensures c < n
  {
    (i + w) % n
  }

  /** The task is linked to its queue. */
  ghost predicate Linked(pc: SchedulePc) {
    pc.AddActive? || pc.AddLength? || pc.Signal? || pc.Unlock? || pc.Returned?
  }

  /** The task has been added to active_tasks. */
  ghost predicate Added(pc: SchedulePc) {
    pc.AddLength? || pc.Signal? || pc.Unlock? || pc.Returned?
  }

  ghost function ReturnedTasks(s: State): set<Task> {
    set t: nat | t < |s.schedules| && s.schedules[t].Returned?
  }

  ghost predicate Unsignalled(s: State, k: nat) {
    k < |s.waiters| && s.waiters[k].pc == WaitAsleep(false)
  }

  /** pthread_cond_signal unblocks at least one of the threads blocked on the condition, if any are. */
  ghost predicate SignalChoice(s: State, woken: set<nat>) {
    (exists k :: Unsignalled(s, k)) ==> exists k :: k in woken && Unsignalled(s, k)
  }

  ghost function Wake(waiters: seq<Waiter>, woken: set<nat>): (r: seq<Waiter>)
    ensures |r| == |waiters|
    ensures forall k :: 0 <= k < |r| ==>
              r[k] ==
              if k in woken && waiters[k].pc == WaitAsleep(false) then waiters[k].(pc := WaitAsleep(true))
              else waiters[k]
  {
    seq(|waiters|, k requires 0 <= k < |waiters| =>
      if k in woken && waiters[k].pc == WaitAsleep(false) then waiters[k].(pc := WaitAsleep(true)) else waiters[k])
  }

  ghost predicate Enabled(s: State, a: Action)
    requires Sized(s)
  {
    match a
    case StepWorker(i, woken) =>
      && i < |s.workers|
      && (match s.workers[i]
          case FindLock(j) => s.queueLocks[Candidate(i, j, |s.workers|)] == None
          case WaitLock => s.queueLocks[i] == None
          case DoneLock(_) => s.waitLock == None
          case DoneSignal => SignalChoice(s, woken)
          case Exited => false
          case _ => true)
    case StepSchedule(t) =>
      && t < |s.schedules|
      && (match s.schedules[t]
          case Scan(i, best, _) => i < |s.workers| || best.Some?
          case Lock(w) => w < |s.workers| && s.queueLocks[w] == None
          case Returned(_) => false
          case pc => pc.w < |s.workers|)
    case StepWaiter(k) =>
      && k < |s.waiters|
      && (match s.waiters[k].pc
          case WaitEnter => s.waitLock == None
          case WaitAsleep(_) => s.waitLock == None   // a wait ends with the mutex held again
          case WaitDone => false
          case _ => true)
    case StepCleanup =>
      (match s.cleanup
       case CleanLock(i) => i < |s.workers| && s.queueLocks[i] == None
       case CleanJoin(i) => i < |s.workers| && s.workers[i] == Exited
       case Cleaned => false
       case Idle => true
       case pc => pc.i < |s.workers|)
    case NewSchedule => s.cleanup != Cleaned
    case NewWait => s.cleanup != Cleaned
  }

  /** worker_get_task without the atomic: the oldest task leaves queue c. */
  ghost function Pop(s: State, c: nat, i: nat): State
    requires Sized(s) && c < |s.workers| && s.queues[c] != []
  {
    var t := s.queues[c][0];
    s.(queues := s.queues[c := s.queues[c][1..]], dequeued := s.dequeued[c := s.dequeued[c] + [t]],
      takenBy := s.takenBy[t := i])
  }

  ghost function Go(s: State, i: nat, pc: WorkerPc): State
    requires i < |s.workers|
  {
    s.(workers := s.workers[i := pc])
  }

  ghost function SetQueueLock(s: State, c: nat, holder: Option<Thread>): State
    requires c < |s.queueLocks|
  {
    s.(queueLocks := s.queueLocks[c := holder])
  }

  ghost function NextWorker(s: State, i: nat, woken: set<nat>): State
    requires Sized(s) && Enabled(s, StepWorker(i, woken))
  {
    var n := |s.workers|;
    match s.workers[i]
    case Check => Go(s, i, if s.running then FindLock(0) else Exited)
    case FindLock(j) => Go(SetQueueLock(s, Candidate(i, j, n), Some(W(i))), i, FindPop(j))
    case FindPop(j) =>
      var c := Candidate(i, j, n);
      if s.queues[c] == [] then Go(s, i, FindUnlock(j, None))
      else Go(Pop(s, c, i), i, FindSub(j, s.queues[c][0]))
    case FindSub(j, t) =>
      var c := Candidate(i, j, n);
      Go(s.(lengths := s.lengths[c := s.lengths[c] - 1]), i, FindUnlock(j, Some(t)))
    case FindUnlock(j, found) =>
      Go(SetQueueLock(s, Candidate(i, j, n), None), i,
         if found.Some? then Running(found.value) else if j + 1 < n then FindLock(j + 1) else WaitLock)
    case WaitLock => Go(SetQueueLock(s, i, Some(W(i))), i, WaitPop)
    case WaitPop =>
      if s.queues[i] == [] then Go(s, i, WaitTest(None))
      else Go(Pop(s, i, i), i, WaitSub(s.queues[i][0]))
    case WaitSub(t) => Go(s.(lengths := s.lengths[i := s.lengths[i] - 1]), i, WaitTest(Some(t)))
    case WaitTest(found) => Go(s, i, if found.None? && s.running then WaitSleep else WaitUnlock(found))
    case WaitSleep => Go(SetQueueLock(s, i, None), i, Asleep(false))
    case Asleep(_) => Go(s, i, WaitLock)
    case WaitUnlock(found) => Go(SetQueueLock(s, i, None), i, if found.Some? then Running(found.value) else Check)
    case Running(t) => Go(s.(ran := s.ran + [t]), i, DoneLock(t))
    case DoneLock(t) => Go(s.(waitLock := Some(W(i))), i, DoneSub(t))
    case DoneSub(t) =>
      Go(s.(active := s.active - 1, counted := s.counted - {t}), i, if s.active == 1 then DoneSignal else DoneUnlock)
    case DoneSignal => Go(s.(waiters := Wake(s.waiters, woken)), i, DoneUnlock)
    case DoneUnlock => Go(s.(waitLock := None), i, Check)
    case Exited => s
  }

  ghost function GoSchedule(s: State, t: Task, pc: SchedulePc): State
    requires t < |s.schedules|
  {
    s.(schedules := s.schedules[t := pc])
  }

  ghost function NextSchedule(s: State, t: Task): State
    requires Sized(s) && Enabled(s, StepSchedule(t))
  {
    match s.schedules[t]
    case Scan(i, best, least) =>
      if i < |s.workers| then
        GoSchedule(s, t, if s.lengths[i] < least then Scan(i + 1, Some(i), s.lengths[i])
                         else Scan(i + 1, best, least))
      else GoSchedule(s, t, Lock(best.value))
    case Lock(w) => GoSchedule(SetQueueLock(s, w, Some(S(t))), t, Link(w))
    case Link(w) =>
      GoSchedule(s.(queues := s.queues[w := s.queues[w] + [t]],
                    enqueued := s.enqueued[w := s.enqueued[w] + [t]]), t, AddActive(w))
    case AddActive(w) => GoSchedule(s.(active := s.active + 1, counted := s.counted + {t}), t, AddLength(w))
    case AddLength(w) => GoSchedule(s.(lengths := s.lengths[w := s.lengths[w] + 1]), t, Signal(w))
    case Signal(w) => GoSchedule(SignalWorker(s, w), t, Unlock(w))
    case Unlock(w) => GoSchedule(SetQueueLock(s, w, None), t, Returned(w))
    case Returned(_) => s
  }

  /** Only worker w ever waits on its own condition. */
  ghost function SignalWorker(s: State, w: nat): State
    requires w < |s.workers|
  {
    if s.workers[w] == Asleep(false) then Go(s, w, Asleep(true)) else s
  }

  ghost function NextWaiter(s: State, k: nat): State
    requires Sized(s) && Enabled(s, StepWaiter(k))
  {
    var w := s.waiters[k];
    match w.pc
    case WaitEnter => s.(waitLock := Some(A(k)), waiters := s.waiters[k := w.(pc := WaitCheck)])
    case WaitCheck => s.(waiters := s.waiters[k := w.(pc := if s.active > 0 then WaitBlock else WaitLeave)])
    case WaitBlock => s.(waitLock := None, waiters := s.waiters[k := w.(pc := WaitAsleep(false))])
    case WaitAsleep(_) => s.(waitLock := Some(A(k)), waiters := s.waiters[k := w.(pc := WaitCheck)])
    case WaitLeave => s.(waitLock := None, waiters := s.waiters[k := w.(pc := WaitDone)])
    case WaitDone => s
  }

  ghost function NextCleanup(s: State): State
    requires Sized(s) && Enabled(s, StepCleanup)
  {
    match s.cleanup
    case Idle => s.(running := false, cleanup := CleanLock(0))
    case CleanLock(i) => SetQueueLock(s, i, Some(C)).(cleanup := CleanSignal(i))
    case CleanSignal(i) => SignalWorker(s, i).(cleanup := CleanUnlock(i))
    case CleanUnlock(i) => SetQueueLock(s, i, None).(cleanup := CleanJoin(i))
    case CleanJoin(i) => s.(cleanup := if i + 1 < |s.workers| then CleanLock(i + 1) else Cleaned)
    case Cleaned => s
  }

  ghost function Next(s: State, a: Action): State
    requires Sized(s) && Enabled(s, a)
  {
    match a
    case StepWorker(i, woken) => NextWorker(s, i, woken)
    case StepSchedule(t) => NextSchedule(s, t)
    case StepWaiter(k) => NextWaiter(s, k)
    case StepCleanup => NextCleanup(s)
    case NewSchedule => s.(schedules := s.schedules + [Scan(0, None, SIZE_MAX)])
    case NewWait => s.(waiters := s.waiters + [Waiter(WaitEnter, ReturnedTasks(s))])
  }

  lemma NextSized(s: State, a: Action)
    requires Sized(s) && Enabled(s, a)
    ensures Sized(Next(s, a)) && |Next(s, a).workers| == |s.workers|
  {
    hide Candidate, SignalChoice, NextWorker, NextSchedule;
    match a
    case StepWorker(i, woken) => WorkerSized(s, i, woken);
    case StepSchedule(t) => ScheduleSized(s, t);
    case _ =>
  }

  lemma ScheduleSized(s: State, t: Task)
    requires Sized(s) && Enabled(s, StepSchedule(t))
    ensures var s' := NextSchedule(s, t); Sized(s') && |s'.workers| == |s.workers|
  {
    hide Candidate, SignalChoice;
  }

  /** A worker inside worker_find_task. */
  ghost predicate IsFind(pc: WorkerPc) {
    pc.FindLock? || pc.FindPop? || pc.FindSub? || pc.FindUnlock?
  }

  /** A worker inside worker_wait_for_task. */
  ghost predicate IsWait(pc: WorkerPc) {
    pc.WaitLock? || pc.WaitPop? || pc.WaitSub? || pc.WaitTest? || pc.WaitSleep? || pc.Asleep? || pc.WaitUnlock?
  }

  /** What a step of worker i leaves alone. */
  ghost predicate OnlyWorker(s: State, s': State, i: nat) {
    && Sized(s') && |s'.workers| == |s.workers|
    && s'.cleanup == s.cleanup && s'.running == s.running && s'.schedules == s.schedules
    && forall j :: 0 <= j < |s.workers| && j != i ==> s'.workers[j] == s.workers[j]
  }

  lemma FindLeaves(s: State, i: nat, woken: set<nat>)
    requires Sized(s) && Enabled(s, StepWorker(i, woken)) && IsFind(s.workers[i])
    ensures OnlyWorker(s, NextWorker(s, i, woken), i)
  {
    hide Candidate, SignalChoice;
  }

  lemma WaitLeaves(s: State, i: nat, woken: set<nat>)
    requires Sized(s) && Enabled(s, StepWorker(i, woken)) && IsWait(s.workers[i])
    ensures OnlyWorker(s, NextWorker(s, i, woken), i)
  {
    hide Candidate, SignalChoice;
  }

  lemma RunLeaves(s: State, i: nat, woken: set<nat>)
    requires Sized(s) && Enabled(s, StepWorker(i, woken)) && !IsFind(s.workers[i]) && !IsWait(s.workers[i])
    ensures OnlyWorker(s, NextWorker(s, i, woken), i)
  {
    hide Candidate, SignalChoice;
  }

  /** A step of a worker leaves the other workers, the schedule calls and the shutdown alone. */
  lemma WorkerLeaves(s: State, i: nat, woken: set<nat>)
    requires Sized(s) && Enabled(s, StepWorker(i, woken))
    ensures OnlyWorker(s, NextWorker(s, i, woken), i)
  {
    assert i < |s.workers|;
    hide NextWorker, Enabled, OnlyWorker, Sized;
    if IsFind(s.workers[i]) { FindLeaves(s, i, woken); }
    else if IsWait(s.workers[i]) { WaitLeaves(s, i, woken); }
    else { RunLeaves(s, i, woken); }
  }

  lemma WorkerSized(s: State, i: nat, woken: set<nat>)
    requires Sized(s) && Enabled(s, StepWorker(i, woken))
    ensures var s' := NextWorker(s, i, woken); Sized(s') && |s'.workers| == |s.workers|
  {
    hide NextWorker, Enabled;
    WorkerLeaves(s, i, woken);
  }

  /** Every action of the run is enabled when its turn comes. */
  ghost predicate Runs(s: State, actions: seq<Action>)
    requires Sized(s)
    decreases actions
  {
    actions == [] ||
    (Enabled(s, actions[0]) && (NextSized(s, actions[0]); Runs(Next(s, actions[0]), actions[1..])))
  }

  ghost function After(s: State, actions: seq<Action>): (r: State)
    requires Sized(s) && Runs(s, actions)
    ensures Sized(r) && |r.workers| == |s.workers|
    decreases actions
  {
    if actions == [] then s
    else NextSized(s, actions[0]); After(Next(s, actions[0]), actions[1..])
  }
}
