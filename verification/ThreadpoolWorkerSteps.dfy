/** Every step of a worker keeps the invariant of the thread pool. */
module ThreadpoolWorkerSteps {
  import opened Seqs
  import opened ThreadpoolModel
  import opened ThreadpoolInvariant

  /** The new program counter holds the same locks and the same task as the old one. */
  ghost predicate SameTask(pc: WorkerPc, pc': WorkerPc) {
    Holding(pc') == Holding(pc) && Settling(pc') == Settling(pc) && InWaitSection(pc') == InWaitSection(pc)
  }

  /** Where a worker may go to sleep or be about to. */
  ghost predicate MayRest(s: State, i: nat, pc': WorkerPc)
    requires Sized(s) && i < |s.workers|
  {
    && (pc' == Asleep(false) || pc' == WaitTest(None) || pc' == WaitSleep ==> s.queues[i] == [])
    && (pc' == Asleep(false) || pc' == WaitSleep ==> !Notified(s.cleanup, i))
  }

  /** A step that leaves every task where it is, and takes or gives back no schedule call's lock. */
  lemma TaskStays(s: State, s': State, c: nat, t: Task)
    requires Sized(s) && Sized(s') && |s'.workers| == |s.workers| && c < |s.workers|
    requires s'.schedules == s.schedules && s'.enqueued == s.enqueued && s'.dequeued == s.dequeued
    requires s'.takenBy == s.takenBy && s'.ran == s.ran && s'.counted == s.counted
    requires forall j :: 0 <= j < |s.workers| ==>
               Holding(s'.workers[j]) == Holding(s.workers[j]) && Settling(s'.workers[j]) == Settling(s.workers[j])
    requires forall d :: 0 <= d < |s.workers| && d != c ==> s'.queueLocks[d] == s.queueLocks[d]
    requires s'.queueLocks[c] == s.queueLocks[c] || s.queueLocks[c] == None || !s.queueLocks[c].value.S?
    requires t < |s.schedules| && TaskOk(s, t)
    ensures TaskOk(s', t)
  {
  }

  /** Such a step by worker i leaves the other workers as they are, and i as its program counters say. */
  lemma WorkerStays(s: State, s': State, i: nat, c: nat, j: nat)
    requires Sized(s) && Sized(s') && |s'.workers| == |s.workers| && c < |s.workers| && i < |s.workers|
             && j < |s.workers|
    requires s'.schedules == s.schedules && s'.dequeued == s.dequeued && s'.waitLock == s.waitLock
    requires s'.takenBy == s.takenBy && s'.ran == s.ran && s'.counted == s.counted
    requires s'.workers == s.workers[i := s'.workers[i]] && SameTask(s.workers[i], s'.workers[i])
    requires forall d :: 0 <= d < |s.workers| && d != c ==> s'.queueLocks[d] == s.queueLocks[d]
    requires s'.queueLocks[c] == s.queueLocks[c] || s.queueLocks[c] == None || s.queueLocks[c] == Some(W(i))
    requires var n := |s.workers|; var section := WorkerSection(s'.workers[i], i, n);
             && IndexOk(s'.workers[i], n)
             && (section.Some? ==>
                   || (section == WorkerSection(s.workers[i], i, n) && s'.queueLocks[c] == s.queueLocks[c])
                   || (section == Some(c) && s'.queueLocks[c] == Some(W(i))))
    requires WorkerOk(s, j) && WorkerOk(s, i)
    ensures WorkerOk(s', j)
  {
    hide Candidate;
  }

  /** A step by worker i outside its work on queues leaves all queues as they are. */
  lemma QueuesStay(s: State, s': State, i: nat, x: nat)
    requires Sized(s) && Sized(s') && |s'.workers| == |s.workers| && i < |s.workers| && x < |s.workers|
    requires s'.queues == s.queues && s'.lengths == s.lengths && s'.queueLocks == s.queueLocks
    requires s'.schedules == s.schedules && s'.cleanup == s.cleanup
    requires s'.enqueued == s.enqueued && s'.dequeued == s.dequeued
    requires s'.workers == s.workers[i := s'.workers[i]]
    requires !IsFind(s.workers[i]) && !IsWait(s.workers[i]) && !IsFind(s'.workers[i]) && !IsWait(s'.workers[i])
    requires LockOk(s, x) && QueueOk(s, x) && SleepOk(s, x) && NotifiedOk(s, x)
    ensures LockOk(s', x) && QueueOk(s', x) && SleepOk(s', x) && NotifiedOk(s', x)
  {
    hide Candidate, Fifo;
  }

  /** A step that changes nothing but the worker's program counter. */
  lemma MoveKeeps(s: State, i: nat, pc': WorkerPc)
    requires Inv(s) && i < |s.workers| && SameTask(s.workers[i], pc') && IndexOk(pc', |s.workers|) && MayRest(s, i, pc')
    requires WorkerSection(pc', i, |s.workers|) == WorkerSection(s.workers[i], i, |s.workers|)
    requires Lowering(pc') == Lowering(s.workers[i])
    ensures Inv(Go(s, i, pc'))
  {
    hide Candidate, Fifo, Waited, NoDup, TaskOk, Taken;
    var s' := Go(s, i, pc');
    assert PointOk(s, i);
    forall x: nat
      ensures x < |s.workers| ==> LockOk(s', x) && QueueOk(s', x) && SleepOk(s', x)
      ensures x < |s.workers| ==> WorkerOk(s', x) && NotifiedOk(s', x)
      ensures x < |s.schedules| ==> TaskOk(s', x)
      ensures x < |s.waiters| ==> WaiterOk(s', x)
    {
      assert PointOk(s, x);
      if x < |s.schedules| { TaskStays(s, s', i, x); }
      if x < |s.workers| { WorkerStays(s, s', i, i, x); }
    }
  }

  /** Taking a free queue mutex. */
  lemma AcquireKeeps(s: State, i: nat, c: nat, pc': WorkerPc)
    requires Inv(s) && i < |s.workers| && c < |s.workers| && s.queueLocks[c] == None
    requires SameTask(s.workers[i], pc') && IndexOk(pc', |s.workers|) && MayRest(s, i, pc')
    requires WorkerSection(s.workers[i], i, |s.workers|) == None && WorkerSection(pc', i, |s.workers|) == Some(c)
    requires !Lowering(pc') && !Lowering(s.workers[i])
    ensures Inv(Go(SetQueueLock(s, c, Some(W(i))), i, pc'))
  {
    hide Candidate, Fifo, Waited, NoDup, TaskOk, Taken;
    var s' := Go(SetQueueLock(s, c, Some(W(i))), i, pc');
    assert PointOk(s, i) && PointOk(s, c);
    forall x: nat
      ensures x < |s.workers| ==> LockOk(s', x) && QueueOk(s', x) && SleepOk(s', x)
      ensures x < |s.workers| ==> WorkerOk(s', x) && NotifiedOk(s', x)
      ensures x < |s.schedules| ==> TaskOk(s', x)
      ensures x < |s.waiters| ==> WaiterOk(s', x)
    {
      assert PointOk(s, x);
      if x < |s.schedules| { TaskStays(s, s', c, x); }
      if x < |s.workers| { WorkerStays(s, s', i, c, x); }
    }
  }

  /** Giving back a queue mutex. */
  lemma ReleaseKeeps(s: State, i: nat, c: nat, pc': WorkerPc)
    requires Inv(s) && i < |s.workers| && c < |s.workers|
    requires SameTask(s.workers[i], pc') && IndexOk(pc', |s.workers|) && MayRest(s, i, pc')
    requires WorkerSection(s.workers[i], i, |s.workers|) == Some(c) && WorkerSection(pc', i, |s.workers|) == None
    requires !Lowering(pc') && !Lowering(s.workers[i])
    ensures Inv(Go(SetQueueLock(s, c, None), i, pc'))
  {
    hide Candidate, Fifo, Waited, NoDup, TaskOk, Taken;
    var s' := Go(SetQueueLock(s, c, None), i, pc');
    assert PointOk(s, i) && PointOk(s, c);
    forall x: nat
      ensures x < |s.workers| ==> LockOk(s', x) && QueueOk(s', x) && SleepOk(s', x)
      ensures x < |s.workers| ==> WorkerOk(s', x) && NotifiedOk(s', x)
      ensures x < |s.schedules| ==> TaskOk(s', x)
      ensures x < |s.waiters| ==> WaiterOk(s', x)
    {
      assert PointOk(s, x);
      if x < |s.schedules| { TaskStays(s, s', c, x); }
      if x < |s.workers| { WorkerStays(s, s', i, c, x); }
    }
  }

  /** The task a worker is about to pop has been scheduled completely and has never been popped. */
  lemma PopFacts(s: State, i: nat, c: nat)
    requires Inv(s) && i < |s.workers| && c < |s.workers| && s.queueLocks[c] == Some(W(i)) && s.queues[c] != []
    ensures var t := s.queues[c][0];
            && t < |s.schedules| && s.schedules[t] == Returned(c)
            && t !in s.dequeued[c] && t !in s.queues[c][1..] && t !in s.ran && t in s.counted
  {
    hide Candidate, SleepOk, NotifiedOk, WaiterOk, WaitLockOk, WorkerOk, LockOk, CleanupOk;
    var t, n := s.queues[c][0], |s.dequeued[c]|;
    assert PointOk(s, c);
    assert s.enqueued[c][n] == t;
    assert forall m :: 0 <= m < n ==> s.enqueued[c][m] == s.dequeued[c][m];
    assert forall m :: 1 <= m < |s.queues[c]| ==> s.enqueued[c][n + m] == s.queues[c][m];
    assert s.enqueued[c][n] in s.enqueued[c] && t < |s.schedules|;
    assert PointOk(s, t);
  }

  lemma PopFifo(s: State, c: nat)
    requires Sized(s) && c < |s.workers| && QueueOk(s, c) && s.queues[c] != []
    ensures Fifo(s.enqueued[c], s.dequeued[c] + [s.queues[c][0]], s.queues[c][1..], s.schedules, c)
  {
    assert s.dequeued[c] + s.queues[c] == s.dequeued[c] + [s.queues[c][0]] + s.queues[c][1..];
  }

  lemma PopTask(s: State, i: nat, c: nat, pc': WorkerPc, u: Task)
    requires Inv(s) && i < |s.workers| && c < |s.workers| && s.queues[c] != [] && s.queueLocks[c] == Some(W(i))
    requires Holding(s.workers[i]) == None && Holding(pc') == Some(s.queues[c][0])
             && Settling(pc') == None == Settling(s.workers[i])
    requires u < |s.schedules|
    ensures TaskOk(Go(Pop(s, c, i), i, pc'), u)
  {
    hide Candidate, Waited, SleepOk, NotifiedOk, WaitLockOk, CleanupOk, LockOk, Fifo;
    PopFacts(s, i, c);
    assert PointOk(s, u);
  }

  lemma PopWorker(s: State, i: nat, c: nat, pc': WorkerPc, j: nat)
    requires Inv(s) && i < |s.workers| && c < |s.workers| && s.queues[c] != [] && s.queueLocks[c] == Some(W(i))
    requires WorkerSection(s.workers[i], i, |s.workers|) == Some(c) == WorkerSection(pc', i, |s.workers|)
    requires Holding(s.workers[i]) == None && Holding(pc') == Some(s.queues[c][0]) && Settling(pc') == None
    requires !InWaitSection(pc') && IndexOk(pc', |s.workers|) && j < |s.workers|
    ensures WorkerOk(Go(Pop(s, c, i), i, pc'), j)
  {
    hide Candidate, Waited, SleepOk, NotifiedOk, WaitLockOk, CleanupOk, LockOk, Fifo, TaskOk;
    PopFacts(s, i, c);
    assert PointOk(s, j);
  }

  /** Popping a task. */
  lemma PopKeeps(s: State, i: nat, c: nat, pc': WorkerPc)
    requires Inv(s) && i < |s.workers| && c < |s.workers| && s.queues[c] != []
    requires WorkerSection(s.workers[i], i, |s.workers|) == Some(c) == WorkerSection(pc', i, |s.workers|)
    requires Holding(s.workers[i]) == None && Holding(pc') == Some(s.queues[c][0])
             && Settling(pc') == None == Settling(s.workers[i])
    requires !InWaitSection(pc') && !InWaitSection(s.workers[i]) && IndexOk(pc', |s.workers|)
    requires Lowering(pc') && !Lowering(s.workers[i])
    ensures Inv(Go(Pop(s, c, i), i, pc'))
  {
    hide Candidate, Waited, NoDup, TaskOk, Fifo, Taken;
    var s' := Go(Pop(s, c, i), i, pc');
    assert PointOk(s, i) && PointOk(s, c);
    PopFacts(s, i, c);
    PopFifo(s, c);
    forall x: nat
      ensures x < |s.workers| ==> LockOk(s', x) && QueueOk(s', x) && SleepOk(s', x)
      ensures x < |s.workers| ==> WorkerOk(s', x) && NotifiedOk(s', x)
      ensures x < |s.schedules| ==> TaskOk(s', x)
      ensures x < |s.waiters| ==> WaiterOk(s', x)
    {
      assert PointOk(s, x);
      if x < |s.schedules| { PopTask(s, i, c, pc', x); }
      if x < |s.workers| { PopWorker(s, i, c, pc', x); }
    }
  }

  /** Lowering queue_length after a pop. */
  lemma LowerKeeps(s: State, i: nat, c: nat, pc': WorkerPc)
    requires Inv(s) && i < |s.workers| && c < |s.workers| && SameTask(s.workers[i], pc') && IndexOk(pc', |s.workers|)
    requires WorkerSection(s.workers[i], i, |s.workers|) == Some(c) == WorkerSection(pc', i, |s.workers|)
    requires Lowering(s.workers[i]) && !Lowering(pc') && MayRest(s, i, pc')
    ensures Inv(Go(s.(lengths := s.lengths[c := s.lengths[c] - 1]), i, pc'))
  {
    hide Candidate, Fifo, Waited, NoDup, TaskOk, Taken;
    var s' := Go(s.(lengths := s.lengths[c := s.lengths[c] - 1]), i, pc');
    assert PointOk(s, i) && PointOk(s, c);
    forall x: nat
      ensures x < |s.workers| ==> LockOk(s', x) && QueueOk(s', x) && SleepOk(s', x)
      ensures x < |s.workers| ==> WorkerOk(s', x) && NotifiedOk(s', x)
      ensures x < |s.schedules| ==> TaskOk(s', x)
      ensures x < |s.waiters| ==> WaiterOk(s', x)
    {
      assert PointOk(s, x);
      if x < |s.schedules| { TaskStays(s, s', c, x); }
      if x < |s.workers| { WorkerStays(s, s', i, c, x); }
    }
  }

  lemma HeldIsCounted(s: State, i: nat, t: Task)
    requires Inv(s) && i < |s.workers| && Holding(s.workers[i]) == Some(t)
    ensures Taken(s, i, t) && t !in s.ran && t in s.counted
  {
    hide Candidate;
    assert PointOk(s, i);
    assert PointOk(s, t);
  }

  lemma FinishTask(s: State, i: nat, t: Task, u: Task)
    requires Inv(s) && i < |s.workers| && s.workers[i] == Running(t) && u < |s.schedules|
    ensures TaskOk(Go(s.(ran := s.ran + [t]), i, DoneLock(t)), u)
  {
    hide Candidate, Waited, SleepOk, NotifiedOk, WaitLockOk, CleanupOk, LockOk, Fifo;
    assert PointOk(s, i) && PointOk(s, u);
  }

  /** The task's function returns. */
  lemma FinishKeeps(s: State, i: nat, t: Task)
    requires Inv(s) && i < |s.workers| && s.workers[i] == Running(t)
    ensures Inv(Go(s.(ran := s.ran + [t]), i, DoneLock(t)))
  {
    hide Candidate, Fifo, TaskOk, NoDup;
    var s' := Go(s.(ran := s.ran + [t]), i, DoneLock(t));
    HeldIsCounted(s, i, t);
    NoDupSnoc(s.ran, t);
    forall x: nat
      ensures x < |s.workers| ==> LockOk(s', x) && QueueOk(s', x) && SleepOk(s', x)
      ensures x < |s.workers| ==> WorkerOk(s', x) && NotifiedOk(s', x)
      ensures x < |s.schedules| ==> TaskOk(s', x)
      ensures x < |s.waiters| ==> WaiterOk(s', x)
    {
      assert PointOk(s, x);
      if x < |s.schedules| { FinishTask(s, i, t, x); }
    }
  }

  /** Taking the free wait mutex. */
  lemma WaitLockKeeps(s: State, i: nat, t: Task)
    requires Inv(s) && i < |s.workers| && s.workers[i] == DoneLock(t) && s.waitLock == None
    ensures Inv(Go(s.(waitLock := Some(W(i))), i, DoneSub(t)))
  {
    hide Candidate, LockOk, QueueOk, SleepOk, NotifiedOk;
    var s' := Go(s.(waitLock := Some(W(i))), i, DoneSub(t));
    assert PointOk(s, i);
    forall x: nat
      ensures x < |s.workers| ==> LockOk(s', x) && QueueOk(s', x) && SleepOk(s', x)
      ensures x < |s.workers| ==> WorkerOk(s', x) && NotifiedOk(s', x)
      ensures x < |s.schedules| ==> TaskOk(s', x)
      ensures x < |s.waiters| ==> WaiterOk(s', x)
    {
      assert PointOk(s, x);
      if x < |s.workers| { QueuesStay(s, s', i, x); }
    }
  }

  /** Lowering active_tasks for a task that has run. */
  lemma SettleKeeps(s: State, i: nat, t: Task, pc': WorkerPc)
    requires Inv(s) && i < |s.workers| && s.workers[i] == DoneSub(t) && (pc' == DoneSignal || pc' == DoneUnlock)
    ensures Inv(Go(s.(active := s.active - 1, counted := s.counted - {t}), i, pc'))
  {
    hide Candidate, LockOk, QueueOk, SleepOk, NotifiedOk;
    var s' := Go(s.(active := s.active - 1, counted := s.counted - {t}), i, pc');
    assert PointOk(s, i);
    forall x: nat
      ensures x < |s.workers| ==> LockOk(s', x) && QueueOk(s', x) && SleepOk(s', x)
      ensures x < |s.workers| ==> WorkerOk(s', x) && NotifiedOk(s', x)
      ensures x < |s.schedules| ==> TaskOk(s', x)
      ensures x < |s.waiters| ==> WaiterOk(s', x)
    {
      assert PointOk(s, x);
      if x < |s.workers| { QueuesStay(s, s', i, x); }
    }
  }

  /** Signalling the wait condition. */
  lemma SignalKeeps(s: State, i: nat, woken: set<nat>)
    requires Inv(s) && i < |s.workers| && s.workers[i] == DoneSignal
    ensures Inv(Go(s.(waiters := Wake(s.waiters, woken)), i, DoneUnlock))
  {
    hide Candidate, LockOk, QueueOk, SleepOk, NotifiedOk;
    var s' := Go(s.(waiters := Wake(s.waiters, woken)), i, DoneUnlock);
    assert PointOk(s, i);
    forall x: nat
      ensures x < |s.workers| ==> LockOk(s', x) && QueueOk(s', x) && SleepOk(s', x)
      ensures x < |s.workers| ==> WorkerOk(s', x) && NotifiedOk(s', x)
      ensures x < |s.schedules| ==> TaskOk(s', x)
      ensures x < |s.waiters| ==> WaiterOk(s', x)
    {
      assert PointOk(s, x);
      if x < |s.workers| { QueuesStay(s, s', i, x); }
    }
  }

  /** Giving back the wait mutex. */
  lemma WaitUnlockKeeps(s: State, i: nat)
    requires Inv(s) && i < |s.workers| && s.workers[i] == DoneUnlock
    ensures Inv(Go(s.(waitLock := None), i, Check))
  {
    hide Candidate, LockOk, QueueOk, SleepOk, NotifiedOk;
    var s' := Go(s.(waitLock := None), i, Check);
    assert PointOk(s, i);
    forall x: nat
      ensures x < |s.workers| ==> LockOk(s', x) && QueueOk(s', x) && SleepOk(s', x)
      ensures x < |s.workers| ==> WorkerOk(s', x) && NotifiedOk(s', x)
      ensures x < |s.schedules| ==> TaskOk(s', x)
      ensures x < |s.waiters| ==> WaiterOk(s', x)
    {
      assert PointOk(s, x);
      if x < |s.workers| { QueuesStay(s, s', i, x); }
    }
  }

  /** The steps of worker_find_task. */
  lemma FindKeeps(s: State, i: nat, woken: set<nat>)
    requires Inv(s) && Enabled(s, StepWorker(i, woken)) && IsFind(s.workers[i])
    ensures Inv(NextWorker(s, i, woken))
  {
    hide Candidate, LockOk, QueueOk, TaskOk, WaiterOk, CountOk, WaitLockOk, Taken;
    var n := |s.workers|;
    assert PointOk(s, i);
    match s.workers[i]
    case FindLock(j) => AcquireKeeps(s, i, Candidate(i, j, n), FindPop(j));
    case FindPop(j) =>
      var c := Candidate(i, j, n);
      if s.queues[c] == [] { MoveKeeps(s, i, FindUnlock(j, None)); }
      else { PopKeeps(s, i, c, FindSub(j, s.queues[c][0])); }
    case FindSub(j, t) => LowerKeeps(s, i, Candidate(i, j, n), FindUnlock(j, Some(t)));
    case FindUnlock(j, found) =>
      ReleaseKeeps(s, i, Candidate(i, j, n),
                   if found.Some? then Running(found.value) else if j + 1 < n then FindLock(j + 1) else WaitLock);
  }

  /** The steps of worker_wait_for_task. */
  lemma WaitKeeps(s: State, i: nat, woken: set<nat>)
    requires Inv(s) && Enabled(s, StepWorker(i, woken)) && IsWait(s.workers[i])
    ensures Inv(NextWorker(s, i, woken))
  {
    hide Candidate, LockOk, QueueOk, TaskOk, WaiterOk, CountOk, WaitLockOk, Taken;
    assert PointOk(s, i);
    match s.workers[i]
    case WaitLock => AcquireKeeps(s, i, i, WaitPop);
    case WaitPop =>
      if s.queues[i] == [] { MoveKeeps(s, i, WaitTest(None)); }
      else { PopKeeps(s, i, i, WaitSub(s.queues[i][0])); }
    case WaitSub(t) => LowerKeeps(s, i, i, WaitTest(Some(t)));
    case WaitTest(found) => MoveKeeps(s, i, if found.None? && s.running then WaitSleep else WaitUnlock(found));
    case WaitSleep => ReleaseKeeps(s, i, i, Asleep(false));
    case Asleep(_) => MoveKeeps(s, i, WaitLock);
    case WaitUnlock(found) => ReleaseKeeps(s, i, i, if found.Some? then Running(found.value) else Check);
  }

  /** Every step of a worker keeps the invariant. */
  lemma WorkerKeeps(s: State, i: nat, woken: set<nat>)
    requires Inv(s) && Enabled(s, StepWorker(i, woken))
    ensures Inv(NextWorker(s, i, woken))
  {
    hide Candidate, LockOk, QueueOk, TaskOk, WaiterOk, CountOk, WaitLockOk, Taken;
    if IsFind(s.workers[i]) {
      FindKeeps(s, i, woken);
    } else if IsWait(s.workers[i]) {
      WaitKeeps(s, i, woken);
    } else {
      assert PointOk(s, i);
      match s.workers[i]
      case Check => MoveKeeps(s, i, if s.running then FindLock(0) else Exited);
      case Running(t) => FinishKeeps(s, i, t);
      case DoneLock(t) => WaitLockKeeps(s, i, t);
      case DoneSub(t) => SettleKeeps(s, i, t, if s.active == 1 then DoneSignal else DoneUnlock);
      case DoneSignal => SignalKeeps(s, i, woken);
      case DoneUnlock => WaitUnlockKeeps(s, i);
      case _ =>
    }
  }
}
