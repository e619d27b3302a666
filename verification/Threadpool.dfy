/** What the thread pool guarantees in every reachable state, over any interleaving. */
module Threadpool {
  import opened Seqs
  import opened ThreadpoolModel
  import opened ThreadpoolInvariant
  import opened ThreadpoolWorkerSteps
  import opened ThreadpoolOtherSteps

  /** A state the pool can be in after some run from its initialization with n workers. */
  ghost predicate Reachable(s: State, n: nat, actions: seq<Action>) {
    n > 0 && Runs(Init(n), actions) && After(Init(n), actions) == s
  }

  lemma StepKeeps(s: State, a: Action)
    requires Inv(s) && Enabled(s, a)
    ensures Inv(Next(s, a))
  {
    hide Inv, NextWorker, NextSchedule, NextWaiter, NextCleanup;
    match a
    case StepWorker(i, woken) => WorkerKeeps(s, i, woken);
    case StepSchedule(t) => ScheduleKeeps(s, t);
    case StepWaiter(k) => WaiterStepKeeps(s, k);
    case StepCleanup => CleanupKeeps(s);
    case NewSchedule => NewScheduleKeeps(s);
    case NewWait => NewWaitKeeps(s);
  }

  lemma {:induction false} RunKeeps(s: State, actions: seq<Action>)
    requires Inv(s) && Runs(s, actions)
    ensures Inv(After(s, actions))
    decreases actions
  {
    hide PointOk, CountOk, WaitLockOk, CleanupOk, Next;
    if actions != [] {
      StepKeeps(s, actions[0]);
      RunKeeps(Next(s, actions[0]), actions[1..]);
    }
  }

  lemma ReachableInv(s: State, n: nat, actions: seq<Action>)
    requires Reachable(s, n, actions)
    ensures Inv(s)
  {
    InitInv(n);
    RunKeeps(Init(n), actions);
  }

  // ----- task conservation -----

  ghost predicate Queued(s: State, t: Task) {
    exists c :: 0 <= c < |s.queues| && t in s.queues[c]
  }

  ghost predicate HeldBy(s: State, t: Task, i: nat) {
    i < |s.workers| && Holding(s.workers[i]) == Some(t)
  }

  ghost predicate Held(s: State, t: Task) {
    exists i :: HeldBy(s, t, i)
  }

  ghost predicate Finished(s: State, t: Task) {
    t in s.ran
  }

  /** A task that has been linked is in exactly one place. */
  lemma OnePlace(s: State, t: Task)
    requires Inv(s) && t < |s.schedules|
    ensures Linked(s.schedules[t]) <==> Queued(s, t) || Held(s, t) || Finished(s, t)
    ensures !(Queued(s, t) && Held(s, t)) && !(Queued(s, t) && Finished(s, t)) && !(Held(s, t) && Finished(s, t))
    ensures forall i, j :: HeldBy(s, t, i) && HeldBy(s, t, j) ==> i == j
    ensures forall c, d :: 0 <= c < |s.queues| && 0 <= d < |s.queues| && t in s.queues[c] && t in s.queues[d] ==> c == d
  {
    hide Candidate, LockOk, SleepOk, NotifiedOk, WaiterOk, WaitLockOk, CleanupOk, NoDup;
    assert PointOk(s, t);
    forall c | 0 <= c < |s.queues| && t in s.queues[c]
      ensures Linked(s.schedules[t]) && s.schedules[t].w == c && t !in s.dequeued[c]
    {
      InOneHalf(s, c, t);
    }
    forall i | HeldBy(s, t, i)
      ensures Linked(s.schedules[t]) && t in s.dequeued[s.schedules[t].w] && s.takenBy[t] == i && t !in s.ran
    {
      assert PointOk(s, i);
    }
    if Linked(s.schedules[t]) {
      var w := s.schedules[t].w;
      assert PointOk(s, w);
      assert t in s.enqueued[w];
      if t in s.dequeued[w] && t !in s.ran {
        assert HeldBy(s, t, s.takenBy[t]);
      }
    }
  }

  /** A task is popped or still queued, not both. */
  lemma InOneHalf(s: State, c: nat, t: Task)
    requires Inv(s) && c < |s.queues| && t in s.queues[c]
    ensures t !in s.dequeued[c] && NoDup(s.queues[c])
    ensures t < |s.schedules| && Linked(s.schedules[t]) && s.schedules[t].w == c
  {
    hide Candidate, LockOk, SleepOk, NotifiedOk, WaiterOk, WaitLockOk, CleanupOk, WorkerOk, TaskOk;
    assert PointOk(s, c);
    var n := |s.dequeued[c]|;
    assert forall m :: 0 <= m < n ==> s.enqueued[c][m] == s.dequeued[c][m];
    assert forall m :: 0 <= m < |s.queues[c]| ==> s.enqueued[c][n + m] == s.queues[c][m];
    var m :| 0 <= m < |s.queues[c]| && s.queues[c][m] == t;
    assert s.enqueued[c][n + m] in s.enqueued[c];
  }

  /**
   * Task conservation over every interleaving: every task that has been linked to a queue is
   * either at one position of one queue, or held by one worker, or finished; no task runs twice;
   * and each queue is drained in the order in which it was filled.
   */
  lemma TaskConservation(s: State, n: nat, actions: seq<Action>)
    requires Reachable(s, n, actions)
    ensures forall t :: 0 <= t < |s.schedules| ==>
              && (Linked(s.schedules[t]) <==> Queued(s, t) || Held(s, t) || Finished(s, t))
              && !(Queued(s, t) && Held(s, t)) && !(Queued(s, t) && Finished(s, t)) && !(Held(s, t) && Finished(s, t))
    ensures forall t, i, j :: HeldBy(s, t, i) && HeldBy(s, t, j) ==> i == j
    ensures forall t, c, d :: 0 <= c < |s.queues| && 0 <= d < |s.queues| && t in s.queues[c] && t in s.queues[d] ==>
            c == d
    ensures forall c :: 0 <= c < |s.queues| ==> NoDup(s.queues[c])
    ensures NoDup(s.ran)
    ensures |s.enqueued| == |s.dequeued| == |s.queues|
    ensures forall c :: 0 <= c < |s.queues| ==> s.enqueued[c] == s.dequeued[c] + s.queues[c]
  {
    ReachableInv(s, n, actions);
    hide Reachable, Candidate, LockOk, SleepOk, NotifiedOk, WaiterOk, WaitLockOk, CleanupOk, TaskOk, NoDup;
    forall t | 0 <= t < |s.schedules|
      ensures Linked(s.schedules[t]) <==> Queued(s, t) || Held(s, t) || Finished(s, t)
      ensures !(Queued(s, t) && Held(s, t)) && !(Queued(s, t) && Finished(s, t)) && !(Held(s, t) && Finished(s, t))
    {
      OnePlace(s, t);
    }
    forall t, i, j | HeldBy(s, t, i) && HeldBy(s, t, j)
      ensures i == j
    {
      assert PointOk(s, i);
      OnePlace(s, t);
    }
    forall t, c, d | 0 <= c < |s.queues| && 0 <= d < |s.queues| && t in s.queues[c] && t in s.queues[d]
      ensures c == d
    {
      InOneHalf(s, c, t);
      OnePlace(s, t);
    }
    forall c | 0 <= c < |s.queues|
      ensures NoDup(s.queues[c]) && s.enqueued[c] == s.dequeued[c] + s.queues[c]
    {
      assert PointOk(s, c);
      SuffixNoDup(s.dequeued[c], s.queues[c]);
    }
  }

  lemma SuffixNoDup(a: seq<Task>, b: seq<Task>)
    requires NoDup(a + b)
    ensures NoDup(b)
  {
    assert forall m :: 0 <= m < |b| ==> (a + b)[|a| + m] == b[m];
  }

  /** The tasks that are queued, held by a worker, or run but not yet taken off active_tasks. */
  ghost predicate InFlight(s: State, t: Task) {
    Queued(s, t) || Held(s, t) || exists i :: 0 <= i < |s.workers| && Settling(s.workers[i]) == Some(t)
  }

  /**
   * The counters.  Outside its critical section every queue_length is the length of its queue;
   * while no schedule call is between linking its task and counting it, active_tasks is the
   * number of tasks queued or held; and neither counter is ever negative.
   */
  lemma Counters(s: State, n: nat, actions: seq<Action>)
    requires Reachable(s, n, actions)
    ensures forall c :: 0 <= c < |s.queues| && c < |s.queueLocks| && c < |s.lengths| ==>
              && s.lengths[c] >= 0
              && (s.queueLocks[c] == None ==> s.lengths[c] == |s.queues[c]|)
    ensures s.active == |s.counted| >= 0
    ensures (forall t :: 0 <= t < |s.schedules| ==> !s.schedules[t].AddActive?) ==>
              forall t :: t in s.counted <==> InFlight(s, t)
  {
    ReachableInv(s, n, actions);
    hide Reachable, Candidate, SleepOk, NotifiedOk, WaiterOk, WaitLockOk, CleanupOk, NoDup, TaskOk, WorkerOk, Fifo;
    forall c | 0 <= c < |s.queues|
      ensures s.lengths[c] >= 0 && (s.queueLocks[c] == None ==> s.lengths[c] == |s.queues[c]|)
    {
      assert PointOk(s, c);
      PushedWhileLinking(s, c);
    }
    if forall t :: 0 <= t < |s.schedules| ==> !s.schedules[t].AddActive? {
      forall t
        ensures t in s.counted <==> InFlight(s, t)
      {
        CountedInFlight(s, t);
      }
    }
  }

  /** While a call is between linking its task and raising queue_length, the queue is not empty. */
  lemma PushedWhileLinking(s: State, c: nat)
    requires Inv(s) && c < |s.queues|
    ensures (s.queueLocks[c].Some? && s.queueLocks[c].value.S? && s.queueLocks[c].value.t < |s.schedules|
             && Linked(s.schedules[s.queueLocks[c].value.t])) ==> s.queues[c] != []
  {
    hide Candidate, SleepOk, NotifiedOk, WaiterOk, WaitLockOk, CleanupOk, NoDup;
    assert PointOk(s, c);
    if s.queueLocks[c].Some? && s.queueLocks[c].value.S? {
      assert PointOk(s, s.queueLocks[c].value.t);
    }
  }

  lemma CountedInFlight(s: State, t: Task)
    requires Inv(s) && (t < |s.schedules| ==> !s.schedules[t].AddActive?)
    ensures t in s.counted <==> InFlight(s, t)
  {
    hide Candidate, LockOk, SleepOk, NotifiedOk, WaiterOk, WaitLockOk, CleanupOk, NoDup, Fifo;
    if t < |s.schedules| {
      OnePlace(s, t);
      assert PointOk(s, t);
      if t in s.counted && t in s.ran {
        assert Settling(s.workers[s.takenBy[t]]) == Some(t);
      }
      forall i | 0 <= i < |s.workers| && Settling(s.workers[i]) == Some(t)
        ensures t in s.counted
      {
        assert PointOk(s, i);
      }
    } else {
      if Queued(s, t) {
        var c :| 0 <= c < |s.queues| && t in s.queues[c];
        InOneHalf(s, c, t);
      }
      forall i | 0 <= i < |s.workers|
        ensures Holding(s.workers[i]) != Some(t) && Settling(s.workers[i]) != Some(t)
      {
        assert PointOk(s, i);
      }
    }
  }

  // ----- waking up -----

  /**
   * No lost wakeup: a worker asleep without a signal has an empty queue, unless the schedule
   * call that has just linked a task is about to signal it with the queue's mutex held.
   */
  lemma NoLostWakeup(s: State, n: nat, actions: seq<Action>, i: nat)
    requires Reachable(s, n, actions) && i < |s.workers| && s.workers[i] == Asleep(false)
    ensures i < |s.queues| == |s.queueLocks| && (s.queues[i] == [] || AboutToSignal(s, i))
    ensures s.queueLocks[i] == None ==> s.queues[i] == []
  {
    ReachableInv(s, n, actions);
    assert PointOk(s, i);
  }

  /** Once cleanup has signalled a worker, it stays signalled. */
  lemma NotifiedStays(s: State, a: Action, i: nat)
    requires Sized(s) && Enabled(s, a) && Notified(s.cleanup, i)
    ensures Notified(Next(s, a).cleanup, i)
  {
    hide NextSchedule, NextWaiter, SignalChoice, Candidate;
    match a
    case StepWorker(j, woken) => WorkerLeaves(s, j, woken);
    case StepSchedule(t) => ScheduleLeaves(s, t);
    case StepWaiter(k) => assert NextWaiter(s, k).cleanup == s.cleanup by { WaiterLeaves(s, k); }
    case _ =>
  }

  lemma ScheduleLeaves(s: State, t: Task)
    requires Sized(s) && Enabled(s, StepSchedule(t))
    ensures var s' := NextSchedule(s, t);
            s'.cleanup == s.cleanup && s'.running == s.running && s'.waiters == s.waiters && |s'.workers| == |s.workers|
    ensures forall j :: 0 <= j < |s.workers| ==>
              || NextSchedule(s, t).workers[j] == s.workers[j]
              || (s.workers[j] == Asleep(false) && NextSchedule(s, t).workers[j] == Asleep(true))
  {
  }

  lemma WaiterLeaves(s: State, k: nat)
    requires Sized(s) && Enabled(s, StepWaiter(k))
    ensures var s' := NextWaiter(s, k);
            s'.cleanup == s.cleanup && s'.running == s.running && s'.workers == s.workers && s'.schedules == s.schedules
  {
  }

  // ----- shutting down -----

  /** How far a worker is from its exit once running is false. */
  ghost function Rank(pc: WorkerPc, n: nat): nat {
    match pc
    case Exited => 0
    case Check => 1
    case DoneUnlock => 2
    case DoneSignal => 3
    case DoneSub(_) => 4
    case DoneLock(_) => 5
    case Running(_) => 6
    case WaitUnlock(_) => 7
    case WaitTest(_) => 8
    case WaitSub(_) => 9
    case WaitPop => 10
    case WaitLock => 11
    case Asleep(_) => 12
    case WaitSleep => 13
    case FindUnlock(i, _) => if i < n then 14 + 4 * (n - i) - 3 else 14
    case FindSub(i, _) => if i < n then 14 + 4 * (n - i) - 2 else 14
    case FindPop(i) => if i < n then 14 + 4 * (n - i) - 1 else 14
    case FindLock(i) => if i < n then 14 + 4 * (n - i) else 14
  }

  /** After shutdown has begun, every step of a worker brings it closer to its exit. */
  lemma RankDrops(s: State, i: nat, woken: set<nat>)
    requires Inv(s) && Enabled(s, StepWorker(i, woken)) && !s.running
    ensures Sized(NextWorker(s, i, woken)) && i < |NextWorker(s, i, woken).workers|
    ensures Rank(NextWorker(s, i, woken).workers[i], |s.workers|) < Rank(s.workers[i], |s.workers|)
  {
    hide Candidate, LockOk, QueueOk, SleepOk, NotifiedOk, TaskOk, WaiterOk, CountOk, WaitLockOk, Taken, SignalChoice;
    assert PointOk(s, i);
    WorkerSized(s, i, woken);
  }

  /** No step of another thread moves a worker, other than by signalling it. */
  lemma OthersDoNotMove(s: State, a: Action, i: nat)
    requires Inv(s) && Enabled(s, a) && i < |s.workers| && !(a.StepWorker? && a.i == i)
    ensures Sized(Next(s, a)) && i < |Next(s, a).workers|
    ensures || Next(s, a).workers[i] == s.workers[i]
            || (s.workers[i] == Asleep(false) && Next(s, a).workers[i] == Asleep(true))
  {
    hide PointOk, Candidate, SignalChoice, NextWorker, NextSchedule, NextWaiter;
    NextSized(s, a);
    match a
    case StepWorker(j, woken) => WorkerLeaves(s, j, woken);
    case StepSchedule(t) => ScheduleLeaves(s, t);
    case StepWaiter(k) => WaiterLeaves(s, k);
    case _ =>
  }

  /** The thread that holds the mutex a worker is waiting for. */
  ghost function Blocker(s: State, i: nat): Option<Thread>
    requires Sized(s) && i < |s.workers|
  {
    match s.workers[i]
    case FindLock(j) => s.queueLocks[Candidate(i, j, |s.workers|)]
    case WaitLock => s.queueLocks[i]
    case DoneLock(_) => s.waitLock
    case _ => None
  }

  ghost predicate InSection(s: State, th: Thread)
    requires Sized(s)
  {
    match th
    case W(j) => j < |s.workers| && (WorkerSection(s.workers[j], j, |s.workers|).Some? || InWaitSection(s.workers[j]))
    case S(t) => t < |s.schedules| && ScheduleSection(s.schedules[t]).Some?
    case A(k) => k < |s.waiters| && WaiterInside(s.waiters[k].pc)
    case C => CleanupSection(s.cleanup).Some?
  }

  /** Steps a thread inside a critical section has left in it. */
  ghost function SectionLeft(s: State, th: Thread): nat
    requires Sized(s)
  {
    match th
    case W(j) =>
      if j >= |s.workers| then 0
      else (match s.workers[j]
            case FindPop(_) => 3
            case FindSub(_, _) => 2
            case FindUnlock(_, _) => 1
            case WaitPop => 5
            case WaitSub(_) => 4
            case WaitTest(_) => 3
            case WaitSleep => 2
            case WaitUnlock(_) => 1
            case DoneSub(_) => 3
            case DoneSignal => 2
            case DoneUnlock => 1
            case _ => 0)
    case S(t) =>
      if t >= |s.schedules| then 0
      else (match s.schedules[t]
            case Link(_) => 5
            case AddActive(_) => 4
            case AddLength(_) => 3
            case Signal(_) => 2
            case Unlock(_) => 1
            case _ => 0)
    case A(k) =>
      if k >= |s.waiters| then 0
      else if s.waiters[k].pc.WaitCheck? then 2 else if WaiterInside(s.waiters[k].pc) then 1 else 0
    case C => if s.cleanup.CleanSignal? then 2 else if s.cleanup.CleanUnlock? then 1 else 0
  }

  /** A signal may wake everyone who waits. */
  ghost function Everyone(s: State): (woken: set<nat>)
    ensures forall k :: Unsignalled(s, k) ==> k in woken
  {
    set k: nat | k < |s.waiters| && Unsignalled(s, k)
  }

  ghost function StepOf(s: State, th: Thread): Action {
    match th
    case W(j) => StepWorker(j, Everyone(s))
    case S(t) => StepSchedule(t)
    case A(k) => StepWaiter(k)
    case C => StepCleanup
  }

  /** A thread inside a critical section can always take its next step; none waits for a second lock. */
  lemma HolderCanStep(s: State, th: Thread)
    requires Inv(s) && InSection(s, th)
    ensures Enabled(s, StepOf(s, th)) && SectionLeft(s, th) > 0
  {
    hide Candidate, LockOk, QueueOk, SleepOk, NotifiedOk, CountOk, WaitLockOk, Taken;
    match th
    case W(j) =>
      assert PointOk(s, j);
    case S(t) => assert PointOk(s, t);
    case A(k) => assert PointOk(s, k);
    case C =>
  }

  /** The section in which a thread holds a queue's mutex. */
  ghost predicate SectionOf(s: State, th: Thread, c: nat)
    requires Sized(s)
  {
    match th
    case W(j) => j < |s.workers| && WorkerSection(s.workers[j], j, |s.workers|) == Some(c)
    case S(t) => t < |s.schedules| && ScheduleSection(s.schedules[t]) == Some(c)
    case A(_) => false
    case C => CleanupSection(s.cleanup) == Some(c)
  }

  lemma HoldsInSection(s: State, th: Thread, c: nat)
    requires Inv(s) && c < |s.workers| && s.queueLocks[c] == Some(th)
    ensures SectionOf(s, th, c)
  {
    hide QueueOk, SleepOk, NotifiedOk, TaskOk, WaiterOk, CountOk, WorkerOk, CleanupOk, WaitLockOk, Candidate;
    assert PointOk(s, c);
  }

  /** What a step of a thread inside a section does to the locks it holds. */
  ghost predicate Advances(s: State, s': State, th: Thread)
    requires Sized(s)
  {
    && Sized(s') && |s'.workers| == |s.workers| && SectionLeft(s', th) < SectionLeft(s, th)
    && (SectionLeft(s', th) > 0 ==> s'.queueLocks == s.queueLocks && s'.waitLock == s.waitLock)
    && (SectionLeft(s', th) == 0 ==>
          && (forall c :: 0 <= c < |s.workers| && SectionOf(s, th, c) ==> s'.queueLocks[c] == None)
          && (s.waitLock == Some(th) ==> s'.waitLock == None))
  }

  lemma FindAdvances(s: State, j: nat, woken: set<nat>)
    requires Sized(s) && InSection(s, W(j)) && Enabled(s, StepWorker(j, woken)) && IsFind(s.workers[j])
    requires s.waitLock != Some(W(j))
    ensures Advances(s, NextWorker(s, j, woken), W(j))
  {
    hide Candidate, SignalChoice;
  }

  lemma WaitAdvances(s: State, j: nat, woken: set<nat>)
    requires Sized(s) && InSection(s, W(j)) && Enabled(s, StepWorker(j, woken)) && IsWait(s.workers[j])
    requires s.waitLock != Some(W(j))
    ensures Advances(s, NextWorker(s, j, woken), W(j))
  {
    hide Candidate, SignalChoice;
  }

  lemma DoneAdvances(s: State, j: nat, woken: set<nat>)
    requires Sized(s) && InSection(s, W(j)) && Enabled(s, StepWorker(j, woken)) && InWaitSection(s.workers[j])
    ensures Advances(s, NextWorker(s, j, woken), W(j))
  {
    hide Candidate, SignalChoice;
  }

  lemma WorkerAdvances(s: State, j: nat, woken: set<nat>)
    requires Sized(s) && InSection(s, W(j)) && Enabled(s, StepWorker(j, woken))
    requires s.waitLock == Some(W(j)) ==> InWaitSection(s.workers[j])
    ensures Advances(s, NextWorker(s, j, woken), W(j))
  {
    assert j < |s.workers|;
    hide Candidate, NextWorker, Enabled, Advances;
    if InWaitSection(s.workers[j]) { DoneAdvances(s, j, woken); }
    else if IsFind(s.workers[j]) { FindAdvances(s, j, woken); }
    else { WaitAdvances(s, j, woken); }
  }

  lemma ScheduleAdvances(s: State, t: Task)
    requires Sized(s) && InSection(s, S(t)) && Enabled(s, StepSchedule(t)) && s.waitLock != Some(S(t))
    ensures Advances(s, NextSchedule(s, t), S(t))
  {
    hide Candidate;
  }

  lemma WaiterAdvances(s: State, k: nat)
    requires Sized(s) && InSection(s, A(k)) && Enabled(s, StepWaiter(k))
    ensures Advances(s, NextWaiter(s, k), A(k))
  {
    hide Candidate;
  }

  lemma CleanupAdvances(s: State)
    requires Sized(s) && InSection(s, C) && Enabled(s, StepCleanup) && s.waitLock != Some(C)
    ensures Advances(s, NextCleanup(s), C)
  {
    hide Candidate;
  }

  /** Its steps end the section, and the last of them gives back the lock. */
  lemma HolderAdvances(s: State, th: Thread)
    requires Inv(s) && InSection(s, th) && Enabled(s, StepOf(s, th))
    ensures Advances(s, Next(s, StepOf(s, th)), th)
  {
    hide PointOk, CountOk, CleanupOk, Advances, Enabled, InSection, NextWorker, NextSchedule, NextWaiter, NextCleanup;
    match th
    case W(j) => WorkerAdvances(s, j, Everyone(s));
    case S(t) => ScheduleAdvances(s, t);
    case A(k) => WaiterAdvances(s, k);
    case C => CleanupAdvances(s);
  }

  /** The holder of a mutex a worker waits for is inside its critical section, and is another thread. */
  lemma BlockerInside(s: State, i: nat)
    requires Inv(s) && i < |s.workers| && Blocker(s, i).Some?
    ensures InSection(s, Blocker(s, i).value) && Blocker(s, i).value != W(i)
  {
    hide QueueOk, SleepOk, NotifiedOk, TaskOk, WaiterOk, CountOk, WorkerOk, CleanupOk, Candidate;
    match s.workers[i]
    case FindLock(j) => assert PointOk(s, Candidate(i, j, |s.workers|));
    case WaitLock => assert PointOk(s, i);
    case DoneLock(_) =>
  }

  /** A worker that is not blocked, not asleep unsignalled and not finished can step. */
  lemma CanStep(s: State, i: nat)
    requires Sized(s) && i < |s.workers| && Blocker(s, i) == None && s.workers[i] != Exited
    ensures Enabled(s, StepWorker(i, Everyone(s)))
  {
  }

  /** A condition wait that ends although nobody signalled. */
  ghost predicate Spurious(s: State, a: Action) {
    || (a.StepWorker? && a.i < |s.workers| && s.workers[a.i] == Asleep(false))
    || (a.StepWaiter? && Unsignalled(s, a.k))
  }

  /** A run without spurious wakeups. */
  ghost predicate QuietRun(s: State, actions: seq<Action>)
    requires Sized(s)
    decreases actions
  {
    actions == [] ||
    (Enabled(s, actions[0]) && !Spurious(s, actions[0]) &&
     (NextSized(s, actions[0]); QuietRun(Next(s, actions[0]), actions[1..])))
  }

  lemma {:induction false} QuietRuns(s: State, actions: seq<Action>)
    requires Sized(s) && QuietRun(s, actions)
    ensures Runs(s, actions)
    decreases actions
  {
    hide Enabled, Next, Spurious;
    if actions != [] {
      NextSized(s, actions[0]);
      QuietRuns(Next(s, actions[0]), actions[1..]);
    }
  }

  lemma Prepend(s: State, a: Action, rest: seq<Action>)
    requires Sized(s) && Enabled(s, a) && !Spurious(s, a) && Sized(Next(s, a)) && QuietRun(Next(s, a), rest)
    ensures QuietRun(s, [a] + rest) && Runs(s, [a] + rest) && Runs(Next(s, a), rest)
    ensures After(s, [a] + rest) == After(Next(s, a), rest)
  {
    hide Enabled, Next, Spurious;
    assert ([a] + rest)[1..] == rest;
    QuietRuns(Next(s, a), rest);
  }

  /** Shutdown is for good, and a signalled worker stays signalled. */
  lemma StaysDown(s: State, a: Action, i: nat)
    requires Inv(s) && Enabled(s, a) && !s.running && Notified(s.cleanup, i)
    ensures Inv(Next(s, a)) && !Next(s, a).running && Notified(Next(s, a).cleanup, i)
    ensures |Next(s, a).workers| == |s.workers|
  {
    hide PointOk, CountOk, WaitLockOk;
    StepKeeps(s, a);
    NotifiedStays(s, a, i);
    NextSized(s, a);
  }

  /**
   * Every join is reachable: from every state in which cleanup has signalled worker i there is a
   * run, without spurious wakeups, at whose end the worker has exited.
   */
  lemma {:induction false} JoinReachable(s: State, i: nat) returns (actions: seq<Action>)
    requires Inv(s) && !s.running && i < |s.workers| && Notified(s.cleanup, i)
    ensures QuietRun(s, actions) && Runs(s, actions)
    ensures i < |After(s, actions).workers| && After(s, actions).workers[i] == Exited
    decreases Rank(s.workers[i], |s.workers|), if Blocker(s, i).Some? then SectionLeft(s, Blocker(s, i).value) else 0
  {
    hide PointOk, CountOk, WaitLockOk, CleanupOk, Next, Enabled, Rank, SectionLeft, StepOf, InSection;
    if s.workers[i] == Exited {
      return [];
    }
    var a: Action;
    if Blocker(s, i) == None {
      a := StepWorker(i, Everyone(s));
      CanStep(s, i);
      NotAsleep(s, i);
      WorkerMoves(s, i);
    } else {
      var th := Blocker(s, i).value;
      BlockerInside(s, i);
      HolderCanStep(s, th);
      HolderAdvances(s, th);
      a := StepOf(s, th);
      OtherThread(s, th, i);
      OthersDoNotMove(s, a, i);
      NextSized(s, a);
      forall c | 0 <= c < |s.workers| && s.queueLocks[c] == Some(th)
        ensures SectionOf(s, th, c)
      {
        HoldsInSection(s, th, c);
      }
      BlockerAfter(s, Next(s, a), i, th);
    }
    StaysDown(s, a, i);
    var rest := JoinReachable(Next(s, a), i);
    Prepend(s, a, rest);
    actions := [a] + rest;
  }

  lemma NotAsleep(s: State, i: nat)
    requires Inv(s) && i < |s.workers| && Notified(s.cleanup, i)
    ensures !Spurious(s, StepWorker(i, Everyone(s)))
  {
    assert PointOk(s, i);
  }

  lemma WorkerMoves(s: State, i: nat)
    requires Inv(s) && Enabled(s, StepWorker(i, Everyone(s))) && !s.running
    ensures var s' := Next(s, StepWorker(i, Everyone(s)));
            && Sized(s') && |s'.workers| == |s.workers|
            && Rank(s'.workers[i], |s.workers|) < Rank(s.workers[i], |s.workers|)
  {
    hide PointOk, CountOk, WaitLockOk, CleanupOk, NextWorker, Rank;
    RankDrops(s, i, Everyone(s));
    WorkerSized(s, i, Everyone(s));
  }

  /** The step of a lock's holder is not a step of the worker waiting for it, nor a spurious wakeup. */
  lemma OtherThread(s: State, th: Thread, i: nat)
    requires Sized(s) && InSection(s, th) && th != W(i)
    ensures !(StepOf(s, th).StepWorker? && StepOf(s, th).i == i) && !Spurious(s, StepOf(s, th))
  {
  }

  lemma BlockerAfter(s: State, s': State, i: nat, th: Thread)
    requires Sized(s) && Sized(s') && i < |s.workers| == |s'.workers| && Blocker(s, i) == Some(th)
    requires s'.workers[i] == s.workers[i] || s.workers[i].Asleep?
    requires Advances(s, s', th)
    requires forall c :: 0 <= c < |s.workers| && s.queueLocks[c] == Some(th) ==> SectionOf(s, th, c)
    ensures s'.workers[i] == s.workers[i]
    ensures (if Blocker(s', i).Some? then SectionLeft(s', Blocker(s', i).value) else 0) < SectionLeft(s, th)
  {
    hide SectionLeft, SectionOf, Candidate;
  }
}
