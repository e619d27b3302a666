/** What every reachable state of the thread pool satisfies, and that every action keeps it. */
module ThreadpoolInvariant {
  import opened Seqs
  import opened ThreadpoolModel

  /** The queue whose mutex a thread holds at a program counter. */
  ghost function WorkerSection(pc: WorkerPc, i: nat, n: nat): Option<nat>
    requires n > 0
  {
    match pc
    case FindPop(j) => Some(Candidate(i, j, n))
    case FindSub(j, _) => Some(Candidate(i, j, n))
    case FindUnlock(j, _) => Some(Candidate(i, j, n))
    case WaitPop => Some(i)
    case WaitSub(_) => Some(i)
    case WaitTest(_) => Some(i)
    case WaitSleep => Some(i)
    case WaitUnlock(_) => Some(i)
    case _ => None
  }

  ghost function ScheduleSection(pc: SchedulePc): Option<nat> {
    if pc.Scan? || pc.Lock? || pc.Returned? then None else Some(pc.w)
  }

  ghost function CleanupSection(pc: CleanupPc): Option<nat> {
    if pc.CleanSignal? || pc.CleanUnlock? then Some(pc.i) else None
  }

  ghost predicate InWaitSection(pc: WorkerPc) {
    pc.DoneSub? || pc.DoneSignal? || pc.DoneUnlock?
  }

  ghost predicate WaiterInside(pc: WaiterPc) {
    pc.WaitCheck? || pc.WaitBlock? || pc.WaitLeave?
  }

  /** The task a worker has taken and whose function has not returned. */
  ghost function Holding(pc: WorkerPc): Option<Task> {
    match pc
    case FindSub(_, t) => Some(t)
    case FindUnlock(_, found) => found
    case WaitSub(t) => Some(t)
    case WaitTest(found) => found
    case WaitUnlock(found) => found
    case Running(t) => Some(t)
    case _ => None
  }

  /** The task whose function has returned but which active_tasks still counts. */
  ghost function Settling(pc: WorkerPc): Option<Task> {
    match pc
    case DoneLock(t) => Some(t)
    case DoneSub(t) => Some(t)
    case _ => None
  }

  /** A queue mutex is held by a thread inside its section; queue_length lags by what it has yet to do. */
  ghost predicate LockOk(s: State, c: nat)
    requires Sized(s) && c < |s.workers|
  {
    match s.queueLocks[c]
    case None => s.lengths[c] == |s.queues[c]|
    case Some(W(i)) =>
      && i < |s.workers| && WorkerSection(s.workers[i], i, |s.workers|) == Some(c)
      && s.lengths[c] == |s.queues[c]| + if Lowering(s.workers[i]) then 1 else 0
    case Some(S(t)) =>
      && t < |s.schedules| && ScheduleSection(s.schedules[t]) == Some(c)
      && s.lengths[c] == |s.queues[c]| - if s.schedules[t].AddActive? || s.schedules[t].AddLength? then 1 else 0
    case Some(C) => CleanupSection(s.cleanup) == Some(c) && s.lengths[c] == |s.queues[c]|
    case Some(A(_)) => false
  }

  /** A queue is drained in the order it is filled, and no task enters it twice. */
  ghost predicate Fifo(enqueued: seq<Task>, dequeued: seq<Task>, queue: seq<Task>, schedules: seq<SchedulePc>, c: nat) {
    && enqueued == dequeued + queue
    && NoDup(enqueued)
    && forall t :: t in enqueued ==> t < |schedules| && Linked(schedules[t]) && schedules[t].w == c
  }

  ghost predicate QueueOk(s: State, c: nat)
    requires Sized(s) && c < |s.workers|
  {
    Fifo(s.enqueued[c], s.dequeued[c], s.queues[c], s.schedules, c)
  }

  /** A schedule call has linked a task to the queue and has yet to signal its worker. */
  ghost predicate AboutToSignal(s: State, c: nat)
    requires Sized(s) && c < |s.workers|
  {
    && s.queueLocks[c].Some? && s.queueLocks[c].value.S? && s.queueLocks[c].value.t < |s.schedules|
    && var pc := s.schedules[s.queueLocks[c].value.t]; pc.AddActive? || pc.AddLength? || pc.Signal?
  }

  /** A worker asleep without a signal, or about to sleep, has an empty queue. */
  ghost predicate SleepOk(s: State, c: nat)
    requires Sized(s) && c < |s.workers|
  {
    && (s.workers[c] == Asleep(false) ==> s.queues[c] == [] || AboutToSignal(s, c))
    && (s.workers[c] == WaitTest(None) || s.workers[c] == WaitSleep ==> s.queues[c] == [])
  }

  /** Worker i popped task t from the queue it was scheduled to. */
  ghost predicate Taken(s: State, i: nat, t: Task)
    requires Sized(s)
  {
    && t < |s.schedules| && s.schedules[t].Returned? && s.schedules[t].w < |s.workers|
    && t in s.dequeued[s.schedules[t].w] && t in s.takenBy && s.takenBy[t] == i
  }

  ghost predicate IndexOk(pc: WorkerPc, n: nat) {
    pc.FindLock? || pc.FindPop? || pc.FindSub? || pc.FindUnlock? ==> pc.i < n
  }

  ghost predicate WorkerOk(s: State, i: nat)
    requires Sized(s) && i < |s.workers|
  {
    var pc := s.workers[i];
    && IndexOk(pc, |s.workers|)
    && (WorkerSection(pc, i, |s.workers|).Some? ==>
          s.queueLocks[WorkerSection(pc, i, |s.workers|).value] == Some(W(i)))
    && (InWaitSection(pc) ==> s.waitLock == Some(W(i)))
    && (Holding(pc).Some? ==> Taken(s, i, Holding(pc).value) && Holding(pc).value !in s.ran)
    && (Settling(pc).Some? ==>
          && Taken(s, i, Settling(pc).value) && Settling(pc).value in s.ran
          && Settling(pc).value in s.counted)
  }

  /** Where a task is, by how far its schedule call and its worker have come. */
  ghost predicate TaskOk(s: State, t: Task)
    requires Sized(s) && t < |s.schedules|
  {
    var pc := s.schedules[t];
    && (pc.Scan? ==> pc.best.Some? ==> pc.best.value < |s.workers|)
    && (!pc.Scan? ==>
          && pc.w < |s.workers|
          && (ScheduleSection(pc).Some? ==> s.queueLocks[pc.w] == Some(S(t)))
          && (Linked(pc) ==> t in s.enqueued[pc.w])
          && (t in s.dequeued[pc.w] ==>
                && pc.Returned? && t in s.takenBy && s.takenBy[t] < |s.workers|
                && (t !in s.ran ==> Holding(s.workers[s.takenBy[t]]) == Some(t))))
    && (t in s.counted <==> Added(pc) && (t in s.ran ==> StillSettling(s, t)))
    && (t in s.ran ==> Linked(pc) && t in s.dequeued[pc.w])
  }

  ghost predicate StillSettling(s: State, t: Task) {
    t in s.takenBy && s.takenBy[t] < |s.workers| && Settling(s.workers[s.takenBy[t]]) == Some(t)
  }

  ghost predicate CountOk(s: State) {
    && NoDup(s.ran) && s.active == |s.counted|
    && (forall t :: t in s.ran ==> t < |s.schedules|)
    && (forall t :: t in s.counted ==> t < |s.schedules|)
  }

  ghost predicate WaitLockOk(s: State) {
    match s.waitLock
    case None => true
    case Some(W(i)) => i < |s.workers| && InWaitSection(s.workers[i])
    case Some(A(k)) => k < |s.waiters| && WaiterInside(s.waiters[k].pc)
    case Some(_) => false
  }

  /** A waiter past its loop has seen every task scheduled before it finished. */
  ghost predicate Waited(w: Waiter, schedules: seq<SchedulePc>, ran: seq<Task>) {
    && (forall t :: t in w.before ==> t < |schedules| && schedules[t].Returned?)
    && (w.pc.WaitLeave? || w.pc.WaitDone? ==> forall t :: t in w.before ==> t in ran)
  }

  ghost predicate WaiterOk(s: State, k: nat)
    requires k < |s.waiters|
  {
    && (WaiterInside(s.waiters[k].pc) ==> s.waitLock == Some(A(k)))
    && Waited(s.waiters[k], s.schedules, s.ran)
  }

  /** cleanup has signalled worker i. */
  ghost predicate Notified(pc: CleanupPc, i: nat) {
    match pc
    case Idle => false
    case CleanLock(j) => i < j
    case CleanSignal(j) => i < j
    case CleanUnlock(j) => i <= j
    case CleanJoin(j) => i <= j
    case Cleaned => true
  }

  ghost predicate CleanupOk(s: State)
    requires Sized(s)
  {
    && (s.running <==> s.cleanup.Idle?)
    && (s.cleanup.CleanLock? || s.cleanup.CleanSignal? || s.cleanup.CleanUnlock? || s.cleanup.CleanJoin? ==>
       s.cleanup.i < |s.workers|)
    && (CleanupSection(s.cleanup).Some? ==> s.queueLocks[s.cleanup.i] == Some(C))
  }

  /** A worker that cleanup has signalled is not asleep without a signal and will not be again. */
  ghost predicate NotifiedOk(s: State, i: nat)
    requires Sized(s) && i < |s.workers|
  {
    Notified(s.cleanup, i) ==> s.workers[i] != Asleep(false) && s.workers[i] != WaitSleep
  }

  /** Everything said of the worker, the queue, the task and the waiter with number x. */
  ghost predicate PointOk(s: State, x: nat)
    requires Sized(s)
  {
    && (x < |s.workers| ==> LockOk(s, x) && QueueOk(s, x) && SleepOk(s, x) && WorkerOk(s, x) && NotifiedOk(s, x))
    && (x < |s.schedules| ==> TaskOk(s, x))
    && (x < |s.waiters| ==> WaiterOk(s, x))
  }

  ghost predicate Inv(s: State) {
    && Sized(s) && CountOk(s) && WaitLockOk(s) && CleanupOk(s)
    && forall x {:trigger PointOk(s, x)} :: PointOk(s, x)
  }

  /** Between popping a task and lowering queue_length. */
  ghost predicate Lowering(pc: WorkerPc) {
    pc.FindSub? || pc.WaitSub?
  }

  lemma InitInv(n: nat)
    requires n > 0
    ensures Inv(Init(n))
  {
    forall x: nat
      ensures PointOk(Init(n), x)
    {
    }
  }
}
