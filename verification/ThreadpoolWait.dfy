/** What cx_threadpool_wait and the shutdown of the pool guarantee over whole runs. */
module ThreadpoolWait {
  import opened Seqs
  import opened ThreadpoolModel
  import opened ThreadpoolInvariant
  import opened Threadpool

  /** Running on from the end of a run. */
  lemma {:induction false} RunOn(s: State, xs: seq<Action>, ys: seq<Action>)
    requires Sized(s) && Runs(s, xs) && Runs(After(s, xs), ys)
    ensures Runs(s, xs + ys) && After(s, xs + ys) == After(After(s, xs), ys)
    decreases xs
  {
    hide Enabled, Next;
    if xs == [] {
      assert xs + ys == ys;
    } else {
      NextSized(s, xs[0]);
      RunOn(Next(s, xs[0]), xs[1..], ys);
      assert (xs + ys)[0] == xs[0] && (xs + ys)[1..] == xs[1..] + ys;
    }
  }

  /**
   * A worker cleanup has signalled can never again be asleep without a signal, however the run
   * goes on.
   */
  lemma SignalledForGood(s: State, n: nat, actions: seq<Action>, later: seq<Action>, i: nat)
    requires Reachable(s, n, actions) && i < n && Notified(s.cleanup, i) && Sized(s) && Runs(s, later)
    ensures i < |After(s, later).workers| && After(s, later).workers[i] != Asleep(false)
  {
    ReachableInv(s, n, actions);
    RunKeeps(s, later);
    NotifiedThroughout(s, later, i);
    assert PointOk(After(s, later), i);
  }

  lemma {:induction false} NotifiedThroughout(s: State, later: seq<Action>, i: nat)
    requires Sized(s) && Runs(s, later) && Notified(s.cleanup, i)
    ensures Notified(After(s, later).cleanup, i)
    decreases later
  {
    hide Enabled, Next;
    if later != [] {
      NextSized(s, later[0]);
      NotifiedStays(s, later[0], i);
      NotifiedThroughout(Next(s, later[0]), later[1..], i);
    }
  }

  /** No step forgets a waiter or changes the set of tasks it is to wait for. */
  lemma WaiterKept(s: State, a: Action, k: nat)
    requires Sized(s) && Enabled(s, a) && k < |s.waiters|
    ensures k < |Next(s, a).waiters| && Next(s, a).waiters[k].before == s.waiters[k].before
  {
    hide Candidate, SignalChoice, NextSchedule;
    match a
    case StepSchedule(t) => ScheduleLeaves(s, t);
    case _ =>
  }

  lemma {:induction false} WaiterKeptThroughout(s: State, later: seq<Action>, k: nat)
    requires Sized(s) && Runs(s, later) && k < |s.waiters|
    ensures k < |After(s, later).waiters| && After(s, later).waiters[k].before == s.waiters[k].before
    decreases later
  {
    hide Enabled, Next;
    if later != [] {
      NextSized(s, later[0]);
      WaiterKept(s, later[0], k);
      WaiterKeptThroughout(Next(s, later[0]), later[1..], k);
    }
  }

  /**
   * When cx_threadpool_wait returns, every task whose schedule call had returned before the wait
   * began has finished running, whatever happened in between.
   */
  lemma WaitReturns(n: nat, actions: seq<Action>, later: seq<Action>, s: State)
    requires Reachable(s, n, actions) && Sized(s) && Enabled(s, NewWait) && Runs(s, [NewWait] + later)
    ensures var s', k := After(s, [NewWait] + later), |s.waiters|;
            k < |s'.waiters| && (s'.waiters[k].pc.WaitDone? ==> forall t :: t in ReturnedTasks(s) ==> t in s'.ran)
  {
    hide Candidate, LockOk, QueueOk, SleepOk, NotifiedOk, TaskOk, WorkerOk, CountOk, CleanupOk, WaitLockOk;
    ReachableInv(s, n, actions);
    var s1 := Next(s, NewWait);
    NextSized(s, NewWait);
    assert ([NewWait] + later)[1..] == later;
    WaiterKeptThroughout(s1, later, |s.waiters|);
    RunKeeps(s, [NewWait] + later);
    assert PointOk(After(s, [NewWait] + later), |s.waiters|);
  }

  // ----- waking the waiters -----

  /** A worker holds the wait mutex and is about to signal the wait condition. */
  ghost predicate AboutToSignalWaiter(s: State) {
    s.waitLock.Some? && s.waitLock.value.W? && s.waitLock.value.i < |s.workers|
      && s.workers[s.waitLock.value.i] == DoneSignal
  }

  /** Waiter k sleeps unsignalled, or is about to, only while something is left that will wake it. */
  ghost predicate WillWake(s: State, k: nat)
    requires k < |s.waiters|
  {
    && (s.waiters[k].pc == WaitAsleep(false) ==> s.active > 0 || AboutToSignalWaiter(s))
    && (s.waiters[k].pc == WaitBlock ==> s.active > 0)
  }

  /** No wakeup of a waiter has been lost. */
  ghost predicate WaitersOk(s: State) {
    forall k :: 0 <= k < |s.waiters| ==> WillWake(s, k)
  }

  ghost predicate AtMostOneAsleep(s: State) {
    forall j, k :: Unsignalled(s, j) && Unsignalled(s, k) ==> j == k
  }

  /**
   * What the single signal can serve: when a worker that finished the last task signals, at most
   * one waiter sleeps, or another task has become active by then.
   */
  ghost predicate Served(s: State, a: Action) {
    a.StepWorker? && a.i < |s.workers| && s.workers[a.i] == DoneSignal ==> s.active > 0 || AtMostOneAsleep(s)
  }

  /** The same action with another choice of the waiters a signal wakes. */
  ghost function Choosing(a: Action, woken: set<nat>): Action {
    if a.StepWorker? then StepWorker(a.i, woken) else a
  }

  /** The action loses no wakeup, whichever waiters its signal wakes. */
  ghost predicate LosesNone(s: State, a: Action)
    requires Sized(s)
  {
    forall woken {:trigger Choosing(a, woken)} :: Enabled(s, Choosing(a, woken)) ==>
      WaitersOk(Next(s, Choosing(a, woken)))
  }

  /** A signal loses no wakeup exactly when it can serve the waiters; no other step loses one. */
  lemma SignalServesIff(s: State, a: Action)
    requires Inv(s) && WaitersOk(s) && Enabled(s, a)
    ensures LosesNone(s, a) <==> Served(s, a)
  {
    hide PointOk, CountOk, WaitLockOk, CleanupOk, Next, Enabled, WaitersOk, AtMostOneAsleep;
    if Served(s, a) {
      forall woken {:trigger Choosing(a, woken)} | Enabled(s, Choosing(a, woken))
        ensures WaitersOk(Next(s, Choosing(a, woken)))
      {
        WaitersStep(s, Choosing(a, woken));
      }
    } else {
      var woken := OneTooMany(s, a.i);
      assert Choosing(a, woken) == StepWorker(a.i, woken);
    }
  }

  /** With no task active and two waiters asleep, a signal may wake one of them and leave the other. */
  lemma OneTooMany(s: State, i: nat) returns (woken: set<nat>)
    requires Inv(s) && i < |s.workers| && s.workers[i] == DoneSignal && s.active <= 0 && !AtMostOneAsleep(s)
    ensures Enabled(s, StepWorker(i, woken)) && !WaitersOk(Next(s, StepWorker(i, woken)))
  {
    hide Candidate, LockOk, QueueOk, SleepOk, NotifiedOk, TaskOk, CountOk, CleanupOk, WaitLockOk, Waited, Taken;
    assert PointOk(s, i);
    var j, k :| Unsignalled(s, j) && Unsignalled(s, k) && j != k;
    woken := {j};
    assert SignalChoice(s, woken);
    assert Unsignalled(Next(s, StepWorker(i, woken)), k);
    assert !WillWake(Next(s, StepWorker(i, woken)), k);
  }

  lemma WaitersStep(s: State, a: Action)
    requires Inv(s) && WaitersOk(s) && Enabled(s, a) && Served(s, a)
    ensures WaitersOk(Next(s, a))
  {
    hide Candidate, PointOk, NextWorker, NextSchedule, NextWaiter, CountOk, CleanupOk, WaitLockOk, AtMostOneAsleep;
    match a
    case StepWorker(i, woken) => WaitersWorker(s, i, woken);
    case StepSchedule(t) => WaitersSchedule(s, t);
    case StepWaiter(k) => WaitersWaiter(s, k);
    case StepCleanup => WaitersCleanup(s);
    case NewSchedule => WaitersKept(s, Next(s, a));
    case NewWait =>
      forall k | 0 <= k < |s.waiters| + 1
        ensures WillWake(Next(s, a), k)
      {
        if k < |s.waiters| { WaiterCarried(s, Next(s, a), k); }
      }
  }

  /** A waiter that is left alone goes on being one that will wake. */
  lemma WaiterCarried(s: State, s': State, k: nat)
    requires k < |s.waiters| && k < |s'.waiters| && s'.waiters[k] == s.waiters[k] && WaitersOk(s)
    requires s'.active >= s.active && (AboutToSignalWaiter(s) ==> AboutToSignalWaiter(s'))
    ensures WillWake(s', k)
  {
    assert WillWake(s, k);
  }

  lemma WaitersKept(s: State, s': State)
    requires WaitersOk(s) && s'.waiters == s.waiters
    requires s'.active >= s.active && (AboutToSignalWaiter(s) ==> AboutToSignalWaiter(s'))
    ensures WaitersOk(s')
  {
    forall k | 0 <= k < |s'.waiters| ensures WillWake(s', k) { WaiterCarried(s, s', k); }
  }

  lemma WaitersCleanup(s: State)
    requires Inv(s) && WaitersOk(s) && Enabled(s, StepCleanup)
    ensures WaitersOk(NextCleanup(s))
  {
    hide PointOk, CountOk, WaitLockOk, WillWake, WaitersOk;
    WaitersKept(s, NextCleanup(s));
  }

  lemma WaitersWaiter(s: State, k: nat)
    requires Inv(s) && WaitersOk(s) && Enabled(s, StepWaiter(k))
    ensures WaitersOk(NextWaiter(s, k))
  {
    hide Candidate, LockOk, QueueOk, SleepOk, NotifiedOk, TaskOk, WorkerOk, CountOk, CleanupOk, Waited;
    assert PointOk(s, k) && WillWake(s, k);
    forall j | 0 <= j < |s.waiters|
      ensures WillWake(NextWaiter(s, k), j)
    {
      if j != k { WaiterCarried(s, NextWaiter(s, k), j); }
    }
  }

  lemma WaitersSchedule(s: State, t: Task)
    requires Inv(s) && WaitersOk(s) && Enabled(s, StepSchedule(t))
    ensures WaitersOk(NextSchedule(s, t))
  {
    hide Candidate, PointOk, CountOk, CleanupOk, WaitLockOk, WillWake, WaitersOk;
    WaitersKept(s, NextSchedule(s, t));
  }

  /** Outside its work on the wait mutex a worker touches nothing that concerns waiters. */
  lemma WaitFieldsKept(s: State, i: nat, woken: set<nat>)
    requires Sized(s) && Enabled(s, StepWorker(i, woken)) && !InWaitSection(s.workers[i]) && !s.workers[i].DoneLock?
    ensures var s' := NextWorker(s, i, woken);
            s'.active == s.active && s'.waiters == s.waiters && s'.waitLock == s.waitLock
  {
    hide Candidate, SignalChoice;
  }

  lemma WaitersWorker(s: State, i: nat, woken: set<nat>)
    requires Inv(s) && WaitersOk(s) && Enabled(s, StepWorker(i, woken)) && Served(s, StepWorker(i, woken))
    ensures WaitersOk(NextWorker(s, i, woken))
  {
    hide Candidate, PointOk, CountOk, CleanupOk, WaitLockOk, AtMostOneAsleep;
    WorkerLeaves(s, i, woken);
    if InWaitSection(s.workers[i]) || s.workers[i].DoneLock? {
      WaitersSettle(s, i, woken);
    } else {
      hide NextWorker;
      WaitFieldsKept(s, i, woken);
      WaitersKept(s, NextWorker(s, i, woken));
    }
  }

  /** The steps of a worker that takes its task off active_tasks. */
  lemma WaitersSettle(s: State, i: nat, woken: set<nat>)
    requires Inv(s) && WaitersOk(s) && Enabled(s, StepWorker(i, woken)) && Served(s, StepWorker(i, woken))
    requires InWaitSection(s.workers[i]) || s.workers[i].DoneLock?
    ensures WaitersOk(NextWorker(s, i, woken))
  {
    forall k | 0 <= k < |NextWorker(s, i, woken).waiters|
      ensures WillWake(NextWorker(s, i, woken), k)
    {
      hide WillWake, Served, Inv, Enabled;
      WaiterSettle(s, i, woken, k);
    }
  }

  lemma WaiterSettle(s: State, i: nat, woken: set<nat>, k: nat)
    requires Inv(s) && k < |s.waiters| && WillWake(s, k)
    requires Enabled(s, StepWorker(i, woken)) && Served(s, StepWorker(i, woken))
    requires InWaitSection(s.workers[i]) || s.workers[i].DoneLock?
    ensures k < |NextWorker(s, i, woken).waiters| && WillWake(NextWorker(s, i, woken), k)
  {
    hide Candidate, LockOk, QueueOk, SleepOk, NotifiedOk, TaskOk, CountOk, CleanupOk, Waited, Taken;
    assert PointOk(s, i) && PointOk(s, k);
    assert s.waiters[k].pc == WaitAsleep(false) <==> Unsignalled(s, k);
  }

  /** A run in which every signal can serve the waiters. */
  ghost predicate ServedRun(s: State, actions: seq<Action>)
    requires Sized(s) && Runs(s, actions)
    decreases actions
  {
    actions == [] || (Served(s, actions[0]) && (NextSized(s, actions[0]); ServedRun(Next(s, actions[0]), actions[1..])))
  }

  /** A run of which no step loses a wakeup, whichever waiters its signals wake. */
  ghost predicate LosesNoneRun(s: State, actions: seq<Action>)
    requires Sized(s) && Runs(s, actions)
    decreases actions
  {
    actions == [] ||
    (LosesNone(s, actions[0]) && (NextSized(s, actions[0]); LosesNoneRun(Next(s, actions[0]), actions[1..])))
  }

  lemma {:induction false} ServedRunIff(s: State, actions: seq<Action>)
    requires Inv(s) && WaitersOk(s) && Runs(s, actions)
    ensures LosesNoneRun(s, actions) <==> ServedRun(s, actions)
    ensures ServedRun(s, actions) ==> WaitersOk(After(s, actions))
    decreases actions
  {
    hide PointOk, CountOk, WaitLockOk, CleanupOk, Next, WaitersOk, Served, LosesNone, Enabled;
    if actions != [] {
      var a := actions[0];
      SignalServesIff(s, a);
      StepKeeps(s, a);
      if Served(s, a) {
        WaitersStep(s, a);
        ServedRunIff(Next(s, a), actions[1..]);
      }
    }
  }

  /**
   * For any number of waiters: the runs that lose no wakeup of a waiter, whichever waiters their
   * signals wake, are exactly those in which every signal finds at most one waiter asleep or
   * another task active. In such a run, while a waiter sleeps without a signal, some task is
   * active or a worker is about to signal it.
   */
  lemma WaitersAreWokenIff(s: State, n: nat, actions: seq<Action>)
    requires Reachable(s, n, actions)
    ensures LosesNoneRun(Init(n), actions) <==> ServedRun(Init(n), actions)
    ensures ServedRun(Init(n), actions) ==> forall k :: Unsignalled(s, k) ==> s.active > 0 || AboutToSignalWaiter(s)
  {
    InitInv(n);
    assert WaitersOk(Init(n));
    hide Inv, Runs, After, ServedRun, LosesNoneRun;
    ServedRunIff(Init(n), actions);
    assert forall k :: Unsignalled(s, k) && WaitersOk(s) ==> WillWake(s, k);
  }

  /** A run in which a wait starts only when all earlier ones have returned. */
  ghost predicate OneWaiter(s: State, a: Action) {
    a == NewWait ==> forall k :: 0 <= k < |s.waiters| ==> s.waiters[k].pc.WaitDone?
  }

  ghost predicate OneWaiterRun(s: State, actions: seq<Action>)
    requires Sized(s) && Runs(s, actions)
    decreases actions
  {
    actions == [] ||
    (OneWaiter(s, actions[0]) && (NextSized(s, actions[0]); OneWaiterRun(Next(s, actions[0]), actions[1..])))
  }

  ghost predicate OnlyLast(s: State) {
    forall k :: 0 <= k < |s.waiters| - 1 ==> s.waiters[k].pc.WaitDone?
  }

  lemma DoneStays(s: State, a: Action, k: nat)
    requires Sized(s) && Enabled(s, a) && k < |s.waiters| && s.waiters[k].pc.WaitDone?
    ensures k < |Next(s, a).waiters| && Next(s, a).waiters[k].pc.WaitDone?
  {
    hide Candidate, SignalChoice, NextSchedule;
    match a
    case StepSchedule(t) => ScheduleLeaves(s, t);
    case _ =>
  }

  /** Waits that do not overlap are served. */
  lemma {:induction false} OneWaiterServed(s: State, actions: seq<Action>)
    requires Sized(s) && OnlyLast(s) && Runs(s, actions) && OneWaiterRun(s, actions)
    ensures ServedRun(s, actions)
    decreases actions
  {
    hide Enabled, Next;
    if actions != [] {
      var a := actions[0];
      NextSized(s, a);
      forall k | 0 <= k < |s.waiters| && s.waiters[k].pc.WaitDone?
        ensures k < |Next(s, a).waiters| && Next(s, a).waiters[k].pc.WaitDone?
      {
        DoneStays(s, a, k);
      }
      WaiterCount(s, a);
      OneWaiterServed(Next(s, a), actions[1..]);
    }
  }

  lemma WaiterCount(s: State, a: Action)
    requires Sized(s) && Enabled(s, a)
    ensures |Next(s, a).waiters| == |s.waiters| + if a == NewWait then 1 else 0
  {
    hide Candidate, SignalChoice, NextSchedule;
    match a
    case StepSchedule(t) => ScheduleLeaves(s, t);
    case _ =>
  }

  // ----- several waiters -----

  /** A waiter asleep unsignalled although nothing is left that could finish and signal it. */
  ghost predicate Stranded(s: State, k: nat) {
    && Inv(s) && Unsignalled(s, k) && s.active == 0
    && (forall t :: 0 <= t < |s.schedules| ==> s.schedules[t].Returned?)
    && (forall i :: 0 <= i < |s.workers| ==> s.workers[i] != DoneSignal)
  }

  /** Short of a new task, or a wakeup nobody asked for, it stays so. */
  lemma StrandedStays(s: State, a: Action, k: nat)
    requires Stranded(s, k) && Enabled(s, a) && a != NewSchedule && !Spurious(s, a)
    ensures Stranded(Next(s, a), k)
  {
    hide Candidate, PointOk, CountOk, WaitLockOk, CleanupOk, NextWorker, NextSchedule, NextWaiter, NextCleanup;
    StepKeeps(s, a);
    match a
    case StepWorker(i, woken) => StrandedWorker(s, i, woken, k);
    case StepWaiter(j) => StrandedWaiter(s, j, k);
    case StepCleanup => CleanupLeaves(s);
    case _ =>
  }

  lemma StrandedWaiter(s: State, j: nat, k: nat)
    requires Stranded(s, k) && Enabled(s, StepWaiter(j)) && !Unsignalled(s, j)
    ensures var s' := NextWaiter(s, j);
            Unsignalled(s', k) && s'.active == 0 && s'.schedules == s.schedules && s'.workers == s.workers
  {
    hide Inv;
  }

  lemma CleanupLeaves(s: State)
    requires Sized(s) && Enabled(s, StepCleanup)
    ensures var s' := NextCleanup(s);
            && s'.active == s.active && s'.schedules == s.schedules && s'.waiters == s.waiters
            && |s'.workers| == |s.workers|
    ensures forall i :: 0 <= i < |s.workers| && s.workers[i] != DoneSignal ==> NextCleanup(s).workers[i] != DoneSignal
  {
  }

  lemma StrandedWorker(s: State, i: nat, woken: set<nat>, k: nat)
    requires Stranded(s, k) && Enabled(s, StepWorker(i, woken))
    ensures var s' := NextWorker(s, i, woken);
            Unsignalled(s', k) && s'.active == 0 && s'.schedules == s.schedules && |s'.workers| == |s.workers|
            && forall j :: 0 <= j < |s.workers| ==> s'.workers[j] != DoneSignal
  {
    hide Candidate, LockOk, QueueOk, SleepOk, NotifiedOk, TaskOk, CleanupOk, Waited, WaitLockOk;
    assert PointOk(s, i);
    WorkerLeaves(s, i, woken);
  }

  /** One more action at the end of a run. */
  lemma Then(xs: seq<Action>, s: State, a: Action) returns (ys: seq<Action>, s': State)
    requires Runs(Init(1), xs) && After(Init(1), xs) == s && Sized(s) && Enabled(s, a)
    ensures ys == xs + [a] && Runs(Init(1), ys) && After(Init(1), ys) == s' == Next(s, a) && Sized(s')
  {
    hide Enabled, Next;
    NextSized(s, a);
    RunOn(Init(1), xs, [a]);
    ys, s' := xs + [a], Next(s, a);
  }

  /** A pool of one worker and one schedule call. */
  ghost function Pool(worker: WorkerPc, queued: bool, lowered: bool, lock: Option<Thread>, active: int,
                      waitLock: Option<Thread>, ran: bool, waiters: seq<Waiter>): State
  {
    State([worker], [if queued then [0] else []], [if lowered then 0 else 1], [lock], true, active, waitLock,
          [Returned(0)], waiters, Idle,
          [[0]], [if queued then [] else [0]], if queued then map[] else map[0 := 0], if ran then [0] else [],
          if active == 1 then {0} else {})
  }

  ghost function Two(a: WaiterPc, b: WaiterPc): seq<Waiter> {
    [Waiter(a, {0}), Waiter(b, {0})]
  }

  /** A schedule call in a pool of one worker. */
  ghost function Calling(pc: SchedulePc, queued: bool, length: int, lock: Option<Thread>, active: int): State {
    State([Check], [if queued then [0] else []], [length], [lock], true, active, None, [pc], [], Idle,
          [if queued then [0] else []], [[]], map[], [], if active == 1 then {0} else {})
  }

  /** A task is linked to the queue. */
  lemma CallLinks() returns (xs: seq<Action>, s: State)
    ensures Runs(Init(1), xs) && After(Init(1), xs) == s && s == Calling(AddActive(0), true, 0, Some(S(0)), 0)
  {
    xs, s := Then([], Init(1), NewSchedule);
    assert s == Calling(Scan(0, None, SIZE_MAX), false, 0, None, 0);
    xs, s := Then(xs, s, StepSchedule(0));
    assert s == Calling(Scan(1, Some(0), 0), false, 0, None, 0);
    xs, s := Then(xs, s, StepSchedule(0));
    assert s == Calling(Lock(0), false, 0, None, 0);
    xs, s := Then(xs, s, StepSchedule(0));
    assert s == Calling(Link(0), false, 0, Some(S(0)), 0);
    assert s.queues[0] + [0] == [0];
    xs, s := Then(xs, s, StepSchedule(0));
  }

  /** One task is scheduled. */
  lemma CallReturns() returns (xs: seq<Action>, s: State)
    ensures Runs(Init(1), xs) && After(Init(1), xs) == s
    ensures s == Pool(Check, true, false, None, 1, None, false, [])
  {
    xs, s := CallLinks();
    xs, s := Then(xs, s, StepSchedule(0));
    assert s == Calling(AddLength(0), true, 0, Some(S(0)), 1);
    xs, s := Then(xs, s, StepSchedule(0));
    assert s == Calling(Signal(0), true, 1, Some(S(0)), 1);
    xs, s := Then(xs, s, StepSchedule(0));
    assert s == Calling(Unlock(0), true, 1, Some(S(0)), 1);
    xs, s := Then(xs, s, StepSchedule(0));
  }

  /** Two threads start to wait for it. */
  lemma Scheduled() returns (xs: seq<Action>, s: State)
    ensures Runs(Init(1), xs) && After(Init(1), xs) == s
    ensures s == Pool(Check, true, false, None, 1, None, false, Two(WaitEnter, WaitEnter))
  {
    xs, s := CallReturns();
    assert ReturnedTasks(s) == {0};
    xs, s := Then(xs, s, NewWait);
    assert ReturnedTasks(s) == {0};
    xs, s := Then(xs, s, NewWait);
  }

  /** Both find the task active and go to sleep. */
  lemma BothAsleep() returns (xs: seq<Action>, s: State)
    ensures Runs(Init(1), xs) && After(Init(1), xs) == s
    ensures s == Pool(Check, true, false, None, 1, None, false, Two(WaitAsleep(false), WaitAsleep(false)))
  {
    xs, s := Scheduled();
    xs, s := Then(xs, s, StepWaiter(0));
    xs, s := Then(xs, s, StepWaiter(0));
    xs, s := Then(xs, s, StepWaiter(0));
    assert s == Pool(Check, true, false, None, 1, None, false, Two(WaitAsleep(false), WaitEnter));
    xs, s := Then(xs, s, StepWaiter(1));
    xs, s := Then(xs, s, StepWaiter(1));
    xs, s := Then(xs, s, StepWaiter(1));
  }

  /** The worker takes the task. */
  lemma TaskTaken() returns (xs: seq<Action>, s: State)
    ensures Runs(Init(1), xs) && After(Init(1), xs) == s
    ensures s == Pool(FindSub(0, 0), false, false, Some(W(0)), 1, None, false,
            Two(WaitAsleep(false), WaitAsleep(false)))
  {
    var w := Two(WaitAsleep(false), WaitAsleep(false));
    xs, s := BothAsleep();
    xs, s := Then(xs, s, StepWorker(0, {}));
    assert s == Pool(FindLock(0), true, false, None, 1, None, false, w);
    xs, s := Then(xs, s, StepWorker(0, {}));
    assert s == Pool(FindPop(0), true, false, Some(W(0)), 1, None, false, w);
    xs, s := Then(xs, s, StepWorker(0, {}));
    PopOne(w);
  }

  lemma PopOne(w: seq<Waiter>)
    ensures var s := Pool(FindPop(0), true, false, Some(W(0)), 1, None, false, w);
            Go(ThreadpoolModel.Pop(s, 0, 0), 0, FindSub(0, 0)) ==
              Pool(FindSub(0, 0), false, false, Some(W(0)), 1, None, false, w)
  {
    assert [0][1..] == [];
    assert [] + [0] == [0];
  }

  /** The worker runs the task. */
  lemma TaskRun() returns (xs: seq<Action>, s: State)
    ensures Runs(Init(1), xs) && After(Init(1), xs) == s
    ensures s == Pool(DoneLock(0), false, true, None, 1, None, true, Two(WaitAsleep(false), WaitAsleep(false)))
  {
    var w := Two(WaitAsleep(false), WaitAsleep(false));
    xs, s := TaskTaken();
    xs, s := Then(xs, s, StepWorker(0, {}));
    assert s == Pool(FindUnlock(0, Some(0)), false, true, Some(W(0)), 1, None, false, w);
    xs, s := Then(xs, s, StepWorker(0, {}));
    assert s == Pool(Running(0), false, true, None, 1, None, false, w);
    xs, s := Then(xs, s, StepWorker(0, {}));
  }

  /** The worker takes the task off active_tasks. */
  lemma TaskDone() returns (xs: seq<Action>, s: State)
    ensures Runs(Init(1), xs) && After(Init(1), xs) == s
    ensures s == Pool(DoneSignal, false, true, None, 0, Some(W(0)), true, Two(WaitAsleep(false), WaitAsleep(false)))
  {
    xs, s := TaskRun();
    xs, s := Then(xs, s, StepWorker(0, {}));
    assert s == Pool(DoneSub(0), false, true, None, 1, Some(W(0)), true, Two(WaitAsleep(false), WaitAsleep(false)));
    xs, s := Then(xs, s, StepWorker(0, {}));
  }

  /** It signals once, and one waiter wakes. */
  lemma OneWoken() returns (xs: seq<Action>, s: State)
    ensures Runs(Init(1), xs) && After(Init(1), xs) == s
    ensures s == Pool(Check, false, true, None, 0, None, true, Two(WaitAsleep(true), WaitAsleep(false)))
  {
    xs, s := TaskDone();
    assert Unsignalled(s, 0);
    xs, s := Then(xs, s, StepWorker(0, {0}));
    assert s == Pool(DoneUnlock, false, true, None, 0, Some(W(0)), true, Two(WaitAsleep(true), WaitAsleep(false)));
    xs, s := Then(xs, s, StepWorker(0, {}));
  }

  /**
   * A run that is not served, as WaitersAreWokenIff asks, and loses a wakeup: the worker that finishes the last
   * task signals once, one waiter returns, and the other sleeps on with nothing left to wake it.
   */
  lemma TwoWaitersStrandOne() returns (xs: seq<Action>, s: State)
    ensures Reachable(s, 1, xs) && Stranded(s, 1) && s.running && !ServedRun(Init(1), xs)
    ensures s.waiters[0].pc.WaitDone? && s.waiters[1].pc == WaitAsleep(false)
  {
    xs, s := OneWoken();
    xs, s := Then(xs, s, StepWaiter(0));
    xs, s := Then(xs, s, StepWaiter(0));
    xs, s := Then(xs, s, StepWaiter(0));
    assert s == Pool(Check, false, true, None, 0, None, true, Two(WaitDone, WaitAsleep(false)));
    ReachableInv(s, 1, xs);
    StrandedNotServed(s, xs);
  }

  lemma StrandedNotServed(s: State, xs: seq<Action>)
    requires Reachable(s, 1, xs) && Stranded(s, 1)
    ensures !ServedRun(Init(1), xs)
  {
    assert Unsignalled(s, 1) && s.active == 0 && !AboutToSignalWaiter(s) by { hide Inv, Reachable; }
    hide *;
    WaitersAreWokenIff(s, 1, xs);
  }
}
