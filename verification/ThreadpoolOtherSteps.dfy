/** Every step of the other threads, a schedule call, a waiter or cleanup, keeps the invariant. */
module ThreadpoolOtherSteps {
  import opened Seqs
  import opened ThreadpoolModel
  import opened ThreadpoolInvariant
  import opened ThreadpoolWorkerSteps

  /** A step of schedule call t that touches no other call's task, and no lock but c's. */
  ghost predicate OnlySchedule(s: State, s': State, t: Task, c: nat) {
    && Sized(s) && Sized(s') && |s'.workers| == |s.workers| && t < |s.schedules| == |s'.schedules| && c < |s.workers|
    && s'.schedules == s.schedules[t := s'.schedules[t]] && !s.schedules[t].Returned?
    && (Linked(s.schedules[t]) ==> Linked(s'.schedules[t]) && s'.schedules[t].w == s.schedules[t].w)
    && s'.dequeued == s.dequeued && s'.takenBy == s.takenBy && s'.ran == s.ran && s'.waitLock == s.waitLock
    && s'.waiters == s.waiters && s.counted <= s'.counted
    && (forall u :: u != t ==> (u in s'.counted <==> u in s.counted))
    && (forall d :: 0 <= d < |s.workers| && d != c ==>
          && s'.queueLocks[d] == s.queueLocks[d]
          && s'.enqueued[d] == s.enqueued[d])
    && (s'.queueLocks[c] == s.queueLocks[c] || s.queueLocks[c] == None || s.queueLocks[c] == Some(S(t)))
    && (s'.enqueued[c] == s.enqueued[c] || s'.enqueued[c] == s.enqueued[c] + [t])
    && (forall d :: 0 <= d < |s.workers| ==>
          s'.workers[d] == s.workers[d] || (s.workers[d].Asleep? && s'.workers[d].Asleep?))
  }

  /** What such a step leaves as it was. */
  lemma OthersStay(s: State, s': State, t: Task, c: nat, x: nat)
    requires OnlySchedule(s, s', t, c) && PointOk(s, x)
    ensures x < |s.workers| ==> WorkerOk(s', x)
    ensures x < |s.workers| && s'.queues[x] == s.queues[x] && s'.enqueued[x] == s.enqueued[x] ==> QueueOk(s', x)
    ensures x < |s.schedules| && x != t ==> TaskOk(s', x)
    ensures x < |s.waiters| ==> WaiterOk(s', x)
  {
    hide Candidate, NoDup, LockOk, SleepOk, NotifiedOk;
  }

  lemma NeverLinked(s: State, t: Task, c: nat)
    requires Inv(s) && t < |s.schedules| && c < |s.workers| && !Linked(s.schedules[t])
    ensures t !in s.enqueued[c] && t !in s.dequeued[c]
  {
    hide Candidate, NoDup, LockOk, SleepOk, NotifiedOk, TaskOk, WorkerOk, WaiterOk;
    assert PointOk(s, c);
    assert forall m :: 0 <= m < |s.dequeued[c]| ==> s.enqueued[c][m] == s.dequeued[c][m];
  }

  /** The scan over the queue lengths. */
  lemma ScanKeeps(s: State, t: Task, pc': SchedulePc)
    requires Inv(s) && t < |s.schedules| && s.schedules[t].Scan?
    requires pc'.Scan? || pc'.Lock?
    requires pc'.Scan? && pc'.best.Some? ==> pc'.best.value < |s.workers|
    requires pc'.Lock? ==> pc'.w < |s.workers|
    ensures Inv(GoSchedule(s, t, pc'))
  {
    hide Candidate, NoDup, Waited, WorkerOk, WaiterOk, QueueOk;
    var s' := GoSchedule(s, t, pc');
    var c := if pc'.Lock? then pc'.w else 0;
    assert PointOk(s, t) && PointOk(s, c);
    NeverLinked(s, t, c);
    forall x: nat
      ensures x < |s'.workers| ==> LockOk(s', x) && QueueOk(s', x) && SleepOk(s', x)
      ensures x < |s'.workers| ==> WorkerOk(s', x) && NotifiedOk(s', x)
      ensures x < |s'.schedules| ==> TaskOk(s', x)
      ensures x < |s'.waiters| ==> WaiterOk(s', x)
    {
      assert PointOk(s, x);
      OthersStay(s, s', t, c, x);
    }
  }

  lemma ScheduleLockKeeps(s: State, t: Task, w: nat)
    requires Inv(s) && t < |s.schedules| && s.schedules[t] == Lock(w) && w < |s.workers| && s.queueLocks[w] == None
    ensures Inv(GoSchedule(SetQueueLock(s, w, Some(S(t))), t, Link(w)))
  {
    hide Candidate, NoDup, Waited, WorkerOk, WaiterOk, QueueOk;
    NeverLinked(s, t, w);
    var s' := GoSchedule(SetQueueLock(s, w, Some(S(t))), t, Link(w));
    assert PointOk(s, t) && PointOk(s, w);
    forall x: nat
      ensures x < |s'.workers| ==> LockOk(s', x) && QueueOk(s', x) && SleepOk(s', x)
      ensures x < |s'.workers| ==> WorkerOk(s', x) && NotifiedOk(s', x)
      ensures x < |s'.schedules| ==> TaskOk(s', x)
      ensures x < |s'.waiters| ==> WaiterOk(s', x)
    {
      assert PointOk(s, x);
      OthersStay(s, s', t, w, x);
    }
  }

  /** While a schedule call holds a queue's mutex, its worker is not about to sleep. */
  lemma LockedOut(s: State, t: Task, w: nat)
    requires Inv(s) && t < |s.schedules| && s.schedules[t] == Link(w) && w < |s.workers|
    ensures s.queueLocks[w] == Some(S(t)) && s.workers[w] != WaitTest(None) && s.workers[w] != WaitSleep
  {
    hide Candidate, NoDup, LockOk, QueueOk, SleepOk, NotifiedOk, WaiterOk;
    assert PointOk(s, w) && PointOk(s, t);
  }

  lemma LinkFifo(s: State, t: Task, w: nat)
    requires Inv(s) && t < |s.schedules| && s.schedules[t] == Link(w) && w < |s.workers|
    ensures Fifo(s.enqueued[w] + [t], s.dequeued[w], s.queues[w] + [t], s.schedules[t := AddActive(w)], w)
    ensures t !in s.enqueued[w]
  {
    hide LockOk, SleepOk, WorkerOk, NotifiedOk, TaskOk, WaiterOk;
    assert PointOk(s, w);
    NoDupSnoc(s.enqueued[w], t);
    assert s.enqueued[w] + [t] == s.dequeued[w] + (s.queues[w] + [t]);
  }

  /** Linking the task: it enters its queue for the first and only time. */
  lemma LinkKeeps(s: State, t: Task, w: nat)
    requires Inv(s) && t < |s.schedules| && s.schedules[t] == Link(w) && w < |s.workers|
    ensures Inv(GoSchedule(s.(queues := s.queues[w := s.queues[w] + [t]],
                              enqueued := s.enqueued[w := s.enqueued[w] + [t]]), t, AddActive(w)))
  {
    hide Candidate, NoDup, Waited, WorkerOk, WaiterOk, Fifo;
    var s' := GoSchedule(s.(queues := s.queues[w := s.queues[w] + [t]],
                            enqueued := s.enqueued[w := s.enqueued[w] + [t]]), t, AddActive(w));
    assert PointOk(s, t) && PointOk(s, w);
    LinkFifo(s, t, w);
    LockedOut(s, t, w);
    forall x: nat
      ensures x < |s'.workers| ==> LockOk(s', x) && QueueOk(s', x) && SleepOk(s', x)
      ensures x < |s'.workers| ==> WorkerOk(s', x) && NotifiedOk(s', x)
      ensures x < |s'.schedules| ==> TaskOk(s', x)
      ensures x < |s'.waiters| ==> WaiterOk(s', x)
    {
      assert PointOk(s, x);
      OthersStay(s, s', t, w, x);
    }
  }

  lemma AddActiveKeeps(s: State, t: Task, w: nat)
    requires Inv(s) && t < |s.schedules| && s.schedules[t] == AddActive(w) && w < |s.workers|
    ensures Inv(GoSchedule(s.(active := s.active + 1, counted := s.counted + {t}), t, AddLength(w)))
  {
    hide Candidate, NoDup, Waited, WorkerOk, WaiterOk, QueueOk;
    var s' := GoSchedule(s.(active := s.active + 1, counted := s.counted + {t}), t, AddLength(w));
    assert PointOk(s, t) && PointOk(s, w);
    forall x: nat
      ensures x < |s'.workers| ==> LockOk(s', x) && QueueOk(s', x) && SleepOk(s', x)
      ensures x < |s'.workers| ==> WorkerOk(s', x) && NotifiedOk(s', x)
      ensures x < |s'.schedules| ==> TaskOk(s', x)
      ensures x < |s'.waiters| ==> WaiterOk(s', x)
    {
      assert PointOk(s, x);
      OthersStay(s, s', t, w, x);
    }
  }

  lemma AddLengthKeeps(s: State, t: Task, w: nat)
    requires Inv(s) && t < |s.schedules| && s.schedules[t] == AddLength(w) && w < |s.workers|
    ensures Inv(GoSchedule(s.(lengths := s.lengths[w := s.lengths[w] + 1]), t, Signal(w)))
  {
    hide Candidate, NoDup, Waited, WorkerOk, WaiterOk, QueueOk;
    var s' := GoSchedule(s.(lengths := s.lengths[w := s.lengths[w] + 1]), t, Signal(w));
    assert PointOk(s, t) && PointOk(s, w);
    forall x: nat
      ensures x < |s'.workers| ==> LockOk(s', x) && QueueOk(s', x) && SleepOk(s', x)
      ensures x < |s'.workers| ==> WorkerOk(s', x) && NotifiedOk(s', x)
      ensures x < |s'.schedules| ==> TaskOk(s', x)
      ensures x < |s'.waiters| ==> WaiterOk(s', x)
    {
      assert PointOk(s, x);
      OthersStay(s, s', t, w, x);
    }
  }

  /** Signalling a worker changes at most its flag. */
  lemma SignalWorkerKeeps(s: State, w: nat)
    requires Inv(s) && w < |s.workers|
    ensures Inv(SignalWorker(s, w)) && SignalWorker(s, w).workers[w] != Asleep(false)
  {
    if s.workers[w] == Asleep(false) {
      MoveKeeps(s, w, Asleep(true));
    }
  }

  lemma SignalledKeeps(s: State, t: Task, w: nat)
    requires Inv(s) && t < |s.schedules| && s.schedules[t] == Signal(w) && w < |s.workers|
             && s.workers[w] != Asleep(false)
    ensures Inv(GoSchedule(s, t, Unlock(w)))
  {
    hide Candidate, NoDup, Waited, WorkerOk, WaiterOk, QueueOk;
    var s' := GoSchedule(s, t, Unlock(w));
    assert PointOk(s, t) && PointOk(s, w);
    forall x: nat
      ensures x < |s'.workers| ==> LockOk(s', x) && QueueOk(s', x) && SleepOk(s', x)
      ensures x < |s'.workers| ==> WorkerOk(s', x) && NotifiedOk(s', x)
      ensures x < |s'.schedules| ==> TaskOk(s', x)
      ensures x < |s'.waiters| ==> WaiterOk(s', x)
    {
      assert PointOk(s, x);
      OthersStay(s, s', t, w, x);
    }
  }

  lemma ScheduleUnlockKeeps(s: State, t: Task, w: nat)
    requires Inv(s) && t < |s.schedules| && s.schedules[t] == Unlock(w) && w < |s.workers|
    ensures Inv(GoSchedule(SetQueueLock(s, w, None), t, Returned(w)))
  {
    hide Candidate, NoDup, Waited, WorkerOk, WaiterOk, QueueOk;
    var s' := GoSchedule(SetQueueLock(s, w, None), t, Returned(w));
    assert PointOk(s, t) && PointOk(s, w);
    forall x: nat
      ensures x < |s'.workers| ==> LockOk(s', x) && QueueOk(s', x) && SleepOk(s', x)
      ensures x < |s'.workers| ==> WorkerOk(s', x) && NotifiedOk(s', x)
      ensures x < |s'.schedules| ==> TaskOk(s', x)
      ensures x < |s'.waiters| ==> WaiterOk(s', x)
    {
      assert PointOk(s, x);
      OthersStay(s, s', t, w, x);
    }
  }

  /** Every step of a schedule call keeps the invariant. */
  lemma ScheduleKeeps(s: State, t: Task)
    requires Inv(s) && Enabled(s, StepSchedule(t))
    ensures Inv(NextSchedule(s, t))
  {
    hide Candidate, LockOk, QueueOk, SleepOk, WorkerOk, NotifiedOk, WaiterOk, CountOk, WaitLockOk, CleanupOk;
    assert PointOk(s, t);
    match s.schedules[t]
    case Scan(i, best, least) =>
      ScanKeeps(s, t, if i < |s.workers| then
                        if s.lengths[i] < least then Scan(i + 1, Some(i), s.lengths[i]) else Scan(i + 1, best, least)
                      else Lock(best.value));
    case Lock(w) => ScheduleLockKeeps(s, t, w);
    case Link(w) => LinkKeeps(s, t, w);
    case AddActive(w) => AddActiveKeeps(s, t, w);
    case AddLength(w) => AddLengthKeeps(s, t, w);
    case Signal(w) => SignalWorkerKeeps(s, w); SignalledKeeps(SignalWorker(s, w), t, w);
    case Unlock(w) => ScheduleUnlockKeeps(s, t, w);
  }

  /** Everything but the waiters and the wait mutex stays. */
  ghost predicate OnlyWaiting(s: State, s': State) {
    s' == s.(waiters := s'.waiters, waitLock := s'.waitLock)
  }

  /** A step of a waiter that is inside its section, or enters it. */
  lemma WaiterStepKeeps(s: State, k: nat)
    requires Inv(s) && Enabled(s, StepWaiter(k))
    ensures Inv(NextWaiter(s, k))
  {
    hide Candidate, NoDup, LockOk, QueueOk, SleepOk, NotifiedOk, TaskOk;
    var s' := NextWaiter(s, k);
    assert PointOk(s, k);
    if s.waiters[k].pc.WaitCheck? && s.active == 0 {
      AllRan(s, s.waiters[k].before);
    }
    forall x: nat
      ensures x < |s'.workers| ==> LockOk(s', x) && QueueOk(s', x) && SleepOk(s', x)
      ensures x < |s'.workers| ==> WorkerOk(s', x) && NotifiedOk(s', x)
      ensures x < |s'.schedules| ==> TaskOk(s', x)
      ensures x < |s'.waiters| ==> WaiterOk(s', x)
    {
      assert PointOk(s, x);
      Unaffected(s, s', x);
    }
  }

  lemma Unaffected(s: State, s': State, x: nat)
    requires Sized(s) && OnlyWaiting(s, s') && PointOk(s, x)
    ensures x < |s.workers| ==> LockOk(s', x) && QueueOk(s', x) && SleepOk(s', x) && NotifiedOk(s', x)
    ensures x < |s.schedules| ==> TaskOk(s', x)
  {
    hide Candidate;
  }

  /** When active_tasks is zero, every task whose schedule call has returned has run. */
  lemma AllRan(s: State, before: set<Task>)
    requires Inv(s) && s.active == 0
    requires forall t :: t in before ==> t < |s.schedules| && s.schedules[t].Returned?
    ensures forall t :: t in before ==> t in s.ran
  {
    hide Candidate;
    forall t | t in before
      ensures t in s.ran
    {
      assert PointOk(s, t);
    }
  }

  lemma CleanupStartKeeps(s: State)
    requires Inv(s) && s.cleanup == Idle
    ensures Inv(s.(running := false, cleanup := CleanLock(0)))
  {
    hide Candidate, NoDup, Fifo, Waited;
    var s' := s.(running := false, cleanup := CleanLock(0));
    forall x: nat
      ensures x < |s'.workers| ==> LockOk(s', x) && QueueOk(s', x) && SleepOk(s', x)
      ensures x < |s'.workers| ==> WorkerOk(s', x) && NotifiedOk(s', x)
      ensures x < |s'.schedules| ==> TaskOk(s', x)
      ensures x < |s'.waiters| ==> WaiterOk(s', x)
    {
      assert PointOk(s, x);
    }
  }

  lemma CleanupLockKeeps(s: State, i: nat)
    requires Inv(s) && s.cleanup == CleanLock(i) && i < |s.workers| && s.queueLocks[i] == None
    ensures Inv(SetQueueLock(s, i, Some(C)).(cleanup := CleanSignal(i)))
  {
    hide Candidate, NoDup, Fifo, Waited, TaskOk;
    var s' := SetQueueLock(s, i, Some(C)).(cleanup := CleanSignal(i));
    assert PointOk(s, i);
    forall x: nat
      ensures x < |s'.workers| ==> LockOk(s', x) && QueueOk(s', x) && SleepOk(s', x)
      ensures x < |s'.workers| ==> WorkerOk(s', x) && NotifiedOk(s', x)
      ensures x < |s'.schedules| ==> TaskOk(s', x)
      ensures x < |s'.waiters| ==> WaiterOk(s', x)
    {
      assert PointOk(s, x);
      if x < |s.schedules| { TaskStays(s, s', i, x); }
    }
  }

  /** Having signalled worker i with its mutex held: it is neither on its way to sleep nor asleep unsignalled. */
  lemma CleanupSignalledKeeps(s: State, i: nat)
    requires Inv(s) && s.cleanup == CleanSignal(i) && i < |s.workers| && s.workers[i] != Asleep(false)
    ensures Inv(s.(cleanup := CleanUnlock(i)))
  {
    hide Candidate, NoDup, Fifo, Waited;
    var s' := s.(cleanup := CleanUnlock(i));
    assert PointOk(s, i);
    forall x: nat
      ensures x < |s'.workers| ==> LockOk(s', x) && QueueOk(s', x) && SleepOk(s', x)
      ensures x < |s'.workers| ==> WorkerOk(s', x) && NotifiedOk(s', x)
      ensures x < |s'.schedules| ==> TaskOk(s', x)
      ensures x < |s'.waiters| ==> WaiterOk(s', x)
    {
      assert PointOk(s, x);
    }
  }

  lemma CleanupUnlockKeeps(s: State, i: nat)
    requires Inv(s) && s.cleanup == CleanUnlock(i) && i < |s.workers|
    ensures Inv(SetQueueLock(s, i, None).(cleanup := CleanJoin(i)))
  {
    hide Candidate, NoDup, Fifo, Waited, TaskOk;
    var s' := SetQueueLock(s, i, None).(cleanup := CleanJoin(i));
    assert PointOk(s, i);
    forall x: nat
      ensures x < |s'.workers| ==> LockOk(s', x) && QueueOk(s', x) && SleepOk(s', x)
      ensures x < |s'.workers| ==> WorkerOk(s', x) && NotifiedOk(s', x)
      ensures x < |s'.schedules| ==> TaskOk(s', x)
      ensures x < |s'.waiters| ==> WaiterOk(s', x)
    {
      assert PointOk(s, x);
      if x < |s.schedules| { TaskStays(s, s', i, x); }
    }
  }

  lemma CleanupJoinKeeps(s: State, i: nat)
    requires Inv(s) && s.cleanup == CleanJoin(i) && i < |s.workers| && s.workers[i] == Exited
    ensures Inv(s.(cleanup := if i + 1 < |s.workers| then CleanLock(i + 1) else Cleaned))
  {
    hide Candidate, NoDup, Fifo, Waited;
    var s' := s.(cleanup := if i + 1 < |s.workers| then CleanLock(i + 1) else Cleaned);
    forall x: nat
      ensures x < |s'.workers| ==> LockOk(s', x) && QueueOk(s', x) && SleepOk(s', x)
      ensures x < |s'.workers| ==> WorkerOk(s', x) && NotifiedOk(s', x)
      ensures x < |s'.schedules| ==> TaskOk(s', x)
      ensures x < |s'.waiters| ==> WaiterOk(s', x)
    {
      assert PointOk(s, x);
    }
  }

  lemma CleanupKeeps(s: State)
    requires Inv(s) && Enabled(s, StepCleanup)
    ensures Inv(NextCleanup(s))
  {
    hide Candidate, PointOk, CountOk, WaitLockOk;
    match s.cleanup
    case Idle => CleanupStartKeeps(s);
    case CleanLock(i) => CleanupLockKeeps(s, i);
    case CleanSignal(i) => SignalWorkerKeeps(s, i); CleanupSignalledKeeps(SignalWorker(s, i), i);
    case CleanUnlock(i) => CleanupUnlockKeeps(s, i);
    case CleanJoin(i) => CleanupJoinKeeps(s, i);
  }

  lemma NewScheduleKeeps(s: State)
    requires Inv(s)
    ensures Inv(s.(schedules := s.schedules + [Scan(0, None, SIZE_MAX)]))
  {
    hide Candidate, NoDup;
    var s' := s.(schedules := s.schedules + [Scan(0, None, SIZE_MAX)]);
    forall x: nat
      ensures x < |s'.workers| ==> LockOk(s', x) && QueueOk(s', x) && SleepOk(s', x)
      ensures x < |s'.workers| ==> WorkerOk(s', x) && NotifiedOk(s', x)
      ensures x < |s'.schedules| ==> TaskOk(s', x)
      ensures x < |s'.waiters| ==> WaiterOk(s', x)
    {
      assert PointOk(s, x);
    }
  }

  lemma NewWaitKeeps(s: State)
    requires Inv(s)
    ensures Inv(s.(waiters := s.waiters + [Waiter(WaitEnter, ReturnedTasks(s))]))
  {
    hide Candidate, NoDup, Fifo;
    var s' := s.(waiters := s.waiters + [Waiter(WaitEnter, ReturnedTasks(s))]);
    forall x: nat
      ensures x < |s'.workers| ==> LockOk(s', x) && QueueOk(s', x) && SleepOk(s', x)
      ensures x < |s'.workers| ==> WorkerOk(s', x) && NotifiedOk(s', x)
      ensures x < |s'.schedules| ==> TaskOk(s', x)
      ensures x < |s'.waiters| ==> WaiterOk(s', x)
    {
      assert PointOk(s, x);
    }
  }
}
