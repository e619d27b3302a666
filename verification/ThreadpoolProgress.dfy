/** What the thread pool can always go on to do: finish its shutdown, and let a waiter return. */
module ThreadpoolProgress {
  import opened Seqs
  import opened ThreadpoolModel
  import opened ThreadpoolInvariant
  import opened Threadpool
  import opened ThreadpoolWait

  /** A run without spurious wakeups from s to s'. */
  ghost predicate QuietTo(s: State, xs: seq<Action>, s': State)
    requires Sized(s)
  {
    QuietRun(s, xs) && Runs(s, xs) && After(s, xs) == s'
  }

  lemma QuietNothing(s: State)
    requires Sized(s)
    ensures QuietTo(s, [], s)
  {
  }

  lemma QuietStep(s: State, a: Action, xs: seq<Action>, s': State)
    requires Sized(s) && Enabled(s, a) && !Spurious(s, a) && Sized(Next(s, a)) && QuietTo(Next(s, a), xs, s')
    ensures QuietTo(s, [a] + xs, s')
  {
    hide Enabled, Next, Spurious;
    Prepend(s, a, xs);
  }

  lemma {:induction false} QuietJoin(s: State, xs: seq<Action>, m: State, ys: seq<Action>, s': State)
    requires Sized(s) && QuietTo(s, xs, m) && Sized(m) && QuietTo(m, ys, s')
    ensures QuietTo(s, xs + ys, s')
    decreases |xs|
  {
    hide Enabled, Next, Spurious;
    if xs == [] {
      assert xs + ys == ys;
    } else {
      NextSized(s, xs[0]);
      QuietJoin(Next(s, xs[0]), xs[1..], m, ys, s');
      QuietStep(s, xs[0], xs[1..] + ys, s');
      assert [xs[0]] + (xs[1..] + ys) == xs + ys;
    }
  }

  // ----- the shutdown -----

  /** How far cleanup is from its end. */
  ghost function CleanRank(pc: CleanupPc, n: nat): int {
    match pc
    case Idle => 4 * n + 1
    case CleanLock(i) => 4 * (n - i)
    case CleanSignal(i) => 4 * (n - i) - 1
    case CleanUnlock(i) => 4 * (n - i) - 2
    case CleanJoin(i) => 4 * (n - i) - 3
    case Cleaned => 0
  }

  /** The shutdown is where it was, or further on. */
  ghost predicate NoFurtherBack(s: State, s': State) {
    && |s'.workers| == |s.workers| && Inv(s') && (s.cleanup != Idle ==> s'.cleanup != Idle)
    && (s'.cleanup == s.cleanup || CleanRank(s'.cleanup, |s.workers|) < CleanRank(s.cleanup, |s.workers|))
  }

  lemma StepForward(s: State, a: Action)
    requires Inv(s) && Enabled(s, a)
    ensures NoFurtherBack(s, Next(s, a))
    ensures a == StepCleanup ==> Next(s, a).cleanup != s.cleanup
  {
    hide Candidate, SignalChoice, NextWorker, NextSchedule, NextWaiter, PointOk, CountOk, WaitLockOk, Inv;
    StepKeeps(s, a);
    CleanupIndex(s);
    NextSized(s, a);
    match a
    case StepWorker(j, woken) => WorkerLeaves(s, j, woken);
    case StepSchedule(t) => ScheduleLeaves(s, t);
    case StepWaiter(k) => WaiterLeaves(s, k);
    case _ =>
  }

  lemma CleanupIndex(s: State)
    requires Inv(s)
    ensures Sized(s) && (s.cleanup != Idle && s.cleanup != Cleaned ==> s.cleanup.i < |s.workers|)
  {
    hide PointOk;
  }

  lemma {:induction false} RunForward(s: State, xs: seq<Action>)
    requires Inv(s) && Runs(s, xs)
    ensures NoFurtherBack(s, After(s, xs))
    decreases xs
  {
    hide PointOk, CountOk, WaitLockOk, CleanupOk, Next, Enabled, CleanRank;
    if xs != [] {
      StepForward(s, xs[0]);
      RunForward(Next(s, xs[0]), xs[1..]);
    }
  }

  /** A queue's mutex can always come free: its holder goes on until it gives it back. */
  lemma {:induction false} QueueComesFree(s: State, c: nat) returns (xs: seq<Action>, s': State)
    requires Inv(s) && c < |s.workers|
    ensures QuietTo(s, xs, s') && NoFurtherBack(s, s') && s'.queueLocks[c] == None
    decreases if s.queueLocks[c].Some? then SectionLeft(s, s.queueLocks[c].value) else 0
  {
    hide PointOk, CountOk, WaitLockOk, CleanupOk, Next, Enabled, SectionLeft, StepOf, InSection, SectionOf, CleanRank,
         Spurious, QuietTo;
    if s.queueLocks[c] == None {
      QuietNothing(s);
      return [], s;
    }
    var th := s.queueLocks[c].value;
    HoldsInSection(s, th, c);
    SectionInside(s, th, c);
    HolderCanStep(s, th);
    HolderAdvances(s, th);
    HolderQuiet(s, th);
    var a := StepOf(s, th);
    StepForward(s, a);
    xs, s' := QueueComesFree(Next(s, a), c);
    QuietStep(s, a, xs, s');
    xs := [a] + xs;
  }

  lemma SectionInside(s: State, th: Thread, c: nat)
    requires Sized(s) && SectionOf(s, th, c)
    ensures InSection(s, th)
  {
    hide Candidate;
  }

  lemma HolderQuiet(s: State, th: Thread)
    requires Sized(s) && InSection(s, th)
    ensures !Spurious(s, StepOf(s, th))
  {
    hide Candidate;
  }

  lemma RankAtLeast(s: State)
    requires Inv(s)
    ensures 0 <= CleanRank(s.cleanup, |s.workers|)
  {
    CleanupIndex(s);
    hide Inv;
  }

  /** A run after which cleanup can take its next step, or has taken it. */
  lemma CleanupPrepared(s: State) returns (xs: seq<Action>, s': State)
    requires Inv(s) && s.cleanup != Idle && s.cleanup != Cleaned
    ensures QuietTo(s, xs, s') && NoFurtherBack(s, s')
    ensures s'.cleanup == s.cleanup ==> Enabled(s', StepCleanup)
  {
    CleanupIndex(s);
    hide PointOk, CountOk, WaitLockOk, CleanupOk, Next, CleanRank, QuietTo, Candidate, Inv;
    match s.cleanup {
      case CleanLock(i) =>
        xs, s' := QueueComesFree(s, i);
      case CleanJoin(i) =>
        NotRunning(s);
        xs := JoinReachable(s, i);
        s' := After(s, xs);
        RunForward(s, xs);
        QuietIs(s, xs);
      case _ =>
        xs, s' := [], s;
        QuietNothing(s);
    }
    SizedInv(s');
  }

  lemma SizedInv(s: State)
    requires Inv(s)
    ensures Sized(s)
  {
  }

  lemma NotRunning(s: State)
    requires Inv(s) && s.cleanup != Idle
    ensures !s.running
  {
    hide PointOk;
  }

  lemma QuietIs(s: State, xs: seq<Action>)
    requires Sized(s) && QuietRun(s, xs) && Runs(s, xs)
    ensures QuietTo(s, xs, After(s, xs))
  {
  }

  /**
   * The shutdown can always be finished: from every state in which it has begun there is a run,
   * without spurious wakeups, at whose end every worker has been joined.
   */
  lemma {:induction false} CleanupReachable(s: State) returns (xs: seq<Action>, s': State)
    requires Inv(s) && s.cleanup != Idle
    ensures QuietTo(s, xs, s') && s'.cleanup == Cleaned
    decreases CleanRank(s.cleanup, |s.workers|)
  {
    hide PointOk, CountOk, WaitLockOk, CleanupOk, Next, Enabled, CleanRank, Spurious, QuietTo;
    RankAtLeast(s);
    if s.cleanup == Cleaned {
      QuietNothing(s);
      return [], s;
    }
    var m: State;
    xs, m := CleanupPrepared(s);
    var ys: seq<Action>;
    if m.cleanup == s.cleanup {
      StepForward(m, StepCleanup);
      ys, s' := CleanupReachable(Next(m, StepCleanup));
      CleanupNotSpurious(m);
      QuietStep(m, StepCleanup, ys, s');
      ys := [StepCleanup] + ys;
    } else {
      ys, s' := CleanupReachable(m);
    }
    QuietJoin(s, xs, m, ys, s');
    xs := xs + ys;
  }

  lemma CleanupNotSpurious(s: State)
    ensures !Spurious(s, StepCleanup)
  {
  }

  // ----- a running pool -----

  /** Every waiter but k has returned. */
  ghost predicate OnlyWaiter(s: State, k: nat) {
    k < |s.waiters| && forall j :: 0 <= j < |s.waiters| && j != k ==> s.waiters[j].pc.WaitDone?
  }

  ghost predicate Alive(s: State) {
    forall i :: 0 <= i < |s.workers| ==> s.workers[i] != Exited
  }

  /** A pool that is running, whatever its waiters do. */
  ghost predicate Up(s: State) {
    Inv(s) && s.running && Alive(s)
  }

  /** A pool that is running, with k as its only waiter. */
  ghost predicate Going(s: State, k: nat) {
    Up(s) && WaitersOk(s) && OnlyWaiter(s, k)
  }

  ghost function Unrun(s: State): set<Task> {
    set t: nat | t < |s.schedules| && t !in s.ran
  }

  ghost function Unsettled(s: State): set<Task> {
    set t: nat | t < |s.schedules| && (t !in s.ran || t in s.counted)
  }

  /** No task is added, and what has been done stays done. */
  ghost predicate Onwards(s: State, s': State) {
    Unrun(s') <= Unrun(s) && Unsettled(s') <= Unsettled(s)
  }

  /** And one more task has run, or has been taken off active_tasks. */
  ghost predicate Further(s: State, s': State) {
    Onwards(s, s') && (Unrun(s') < Unrun(s) || Unsettled(s') < Unsettled(s))
  }

  /** The steps a running pool takes of its own accord: no new task, no new waiter, no shutdown. */
  ghost predicate Ordinary(a: Action) {
    a.StepWorker? || a.StepSchedule? || a.StepWaiter?
  }

  /** What a worker's step does to the history: only running a task and settling it touch it. */
  ghost predicate History(s: State, s': State, i: nat)
    requires i < |s.workers|
  {
    && s'.schedules == s.schedules
    && s'.ran == (if s.workers[i].Running? then s.ran + [s.workers[i].t] else s.ran)
    && s'.counted == (if s.workers[i].DoneSub? then s.counted - {s.workers[i].t} else s.counted)
    && i < |s'.workers| && (s.running ==> s'.workers[i] != Exited)
  }

  lemma FindHistory(s: State, i: nat, woken: set<nat>)
    requires Sized(s) && Enabled(s, StepWorker(i, woken)) && IsFind(s.workers[i])
    ensures History(s, NextWorker(s, i, woken), i)
  {
    hide Candidate, SignalChoice;
  }

  lemma WaitHistory(s: State, i: nat, woken: set<nat>)
    requires Sized(s) && Enabled(s, StepWorker(i, woken)) && IsWait(s.workers[i])
    ensures History(s, NextWorker(s, i, woken), i)
  {
    hide Candidate, SignalChoice;
  }

  lemma RunHistory(s: State, i: nat, woken: set<nat>)
    requires Sized(s) && Enabled(s, StepWorker(i, woken)) && !IsFind(s.workers[i]) && !IsWait(s.workers[i])
    ensures History(s, NextWorker(s, i, woken), i)
  {
    hide Candidate, SignalChoice;
  }

  lemma WorkerHistory(s: State, i: nat, woken: set<nat>)
    requires Sized(s) && Enabled(s, StepWorker(i, woken))
    ensures History(s, NextWorker(s, i, woken), i)
  {
    assert i < |s.workers|;
    hide NextWorker, Enabled, History;
    if IsFind(s.workers[i]) { FindHistory(s, i, woken); }
    else if IsWait(s.workers[i]) { WaitHistory(s, i, woken); }
    else { RunHistory(s, i, woken); }
  }

  ghost predicate OrdinaryRun(xs: seq<Action>) {
    forall a :: a in xs ==> Ordinary(a)
  }

  lemma StaysAlive(s: State, a: Action)
    requires Sized(s) && Enabled(s, a) && Ordinary(a) && s.running && Alive(s)
    ensures Next(s, a).running && Alive(Next(s, a))
  {
    hide Candidate, SignalChoice, NextSchedule, NextWaiter;
    match a
    case StepWorker(i, woken) =>
      WorkerLeaves(s, i, woken);
      WorkerHistory(s, i, woken);
    case StepSchedule(t) => ScheduleLeaves(s, t);
    case StepWaiter(k) => WaiterLeaves(s, k);
    case _ =>
  }

  lemma WaiterStays(s: State, a: Action, k: nat)
    requires Sized(s) && Enabled(s, a) && Ordinary(a) && OnlyWaiter(s, k)
    ensures OnlyWaiter(Next(s, a), k) && Served(s, a)
  {
    hide Enabled, Next;
    WaiterCount(s, a);
    forall j | 0 <= j < |s.waiters| && j != k
      ensures j < |Next(s, a).waiters| && Next(s, a).waiters[j].pc.WaitDone?
    {
      DoneStays(s, a, j);
    }
  }

  lemma WorkerOnwards(s: State, i: nat, woken: set<nat>)
    requires Inv(s) && Enabled(s, StepWorker(i, woken))
    ensures Onwards(s, NextWorker(s, i, woken))
    ensures s.workers[i].Running? || s.workers[i].DoneSub? ==> Further(s, NextWorker(s, i, woken))
  {
    hide Candidate, LockOk, QueueOk, SleepOk, NotifiedOk, TaskOk, CountOk, CleanupOk, WaitLockOk, WaiterOk, NextWorker;
    assert PointOk(s, i);
    WorkerHistory(s, i, woken);
    var s' := NextWorker(s, i, woken);
    if s.workers[i].Running? {
      assert s.workers[i].t in Unrun(s) && s.workers[i].t !in Unrun(s');
    }
    if s.workers[i].DoneSub? {
      assert s.workers[i].t in Unsettled(s) && s.workers[i].t !in Unsettled(s');
    }
  }

  lemma ScheduleOnwards(s: State, t: Task)
    requires Inv(s) && Enabled(s, StepSchedule(t))
    ensures Onwards(s, NextSchedule(s, t))
  {
    hide Candidate, LockOk, QueueOk, SleepOk, NotifiedOk, CountOk, CleanupOk, WaitLockOk, WaiterOk, WorkerOk;
    assert PointOk(s, t);
  }

  lemma WaiterOnwards(s: State, k: nat)
    requires Sized(s) && Enabled(s, StepWaiter(k))
    ensures Onwards(s, NextWaiter(s, k))
  {
  }

  lemma StepUp(s: State, a: Action)
    requires Up(s) && Sized(s) && Enabled(s, a) && Ordinary(a)
    ensures Up(Next(s, a)) && Onwards(s, Next(s, a)) && |Next(s, a).workers| == |s.workers|
  {
    hide PointOk, CountOk, WaitLockOk, CleanupOk, NextWorker, NextSchedule, NextWaiter, Alive, Onwards, Enabled;
    StepKeeps(s, a);
    NextSized(s, a);
    StaysAlive(s, a);
    match a
    case StepWorker(i, woken) => WorkerOnwards(s, i, woken);
    case StepSchedule(t) => ScheduleOnwards(s, t);
    case StepWaiter(j) => WaiterOnwards(s, j);
    case _ =>
  }

  lemma StepGoing(s: State, a: Action, k: nat)
    requires Going(s, k) && Sized(s) && Enabled(s, a) && Ordinary(a)
    ensures Sized(Next(s, a)) && Going(Next(s, a), k)
  {
    hide PointOk, CountOk, WaitLockOk, CleanupOk, Next, Alive, WaitersOk, OnlyWaiter, Onwards, Enabled, Served;
    StepUp(s, a);
    WaiterStays(s, a, k);
    WaitersStep(s, a);
  }

  // ----- moving a task along -----

  /** Whether a task is still in its queue. */
  ghost function Stage(s: State, t: Task): nat
    requires Sized(s)
  {
    if t in s.takenBy && s.takenBy[t] < |s.workers|
       && (Holding(s.workers[s.takenBy[t]]) == Some(t) || Settling(s.workers[s.takenBy[t]]) == Some(t))
    then 0 else 1
  }

  /** The worker that is to move a task along: the one that took it, or the one in whose queue it is. */
  ghost function Mover(s: State, t: Task): nat
    requires Sized(s)
  {
    if Stage(s, t) == 0 then s.takenBy[t]
    else if t < |s.schedules| && !s.schedules[t].Scan? then s.schedules[t].w
    else 0
  }

  /** An active task is in a worker's hands, or in its queue. */
  lemma Whereabouts(s: State, t: Task)
    requires Inv(s) && t in s.counted
    ensures t < |s.schedules| && Mover(s, t) < |s.workers|
    ensures Stage(s, t) == 1 ==> t in s.queues[Mover(s, t)] && !s.schedules[t].Scan? && s.schedules[t].w == Mover(s, t)
  {
    hide Candidate, LockOk, SleepOk, NotifiedOk, CleanupOk, WaitLockOk, WaiterOk, NoDup;
    assert t < |s.schedules| && PointOk(s, t);
    var w := s.schedules[t].w;
    assert PointOk(s, w);
    assert t in s.enqueued[w];
    if t in s.dequeued[w] {
      assert Stage(s, t) == 0;
    }
  }

  /** How far a worker is from running a task or settling one, if there is one for it. */
  ghost function MoveRank(pc: WorkerPc, n: nat): nat {
    match pc
    case Running(_) => 0
    case DoneSub(_) => 0
    case DoneLock(_) => 1
    case WaitUnlock(found) => if found.Some? then 1 else 3 * n + 12
    case FindUnlock(i, found) => if found.Some? then 1 else if i < n then 3 * (n - i) + 6 else 6
    case WaitTest(_) => 2
    case FindSub(_, _) => 2
    case WaitSub(_) => 3
    case WaitPop => 4
    case WaitLock => 5
    case Asleep(signalled) => if signalled then 6 else 7
    case WaitSleep => 8
    case FindPop(i) => if i < n then 3 * (n - i) + 7 else 7
    case FindLock(i) => if i < n then 3 * (n - i) + 8 else 8
    case Check => 3 * n + 9
    case DoneUnlock => 3 * n + 10
    case DoneSignal => 3 * n + 11
    case Exited => 3 * n + 13
  }

  /** What a worker waits for: a mutex, or the signal of the schedule call that holds its queue. */
  ghost function Blocked(s: State, i: nat): Option<Thread>
    requires Sized(s) && i < |s.workers|
  {
    if s.workers[i] == Asleep(false) then s.queueLocks[i] else Blocker(s, i)
  }

  /** A worker with work before it: a task in its hands, or in its queue. */
  ghost predicate HasWork(s: State, i: nat)
    requires Sized(s) && i < |s.workers|
  {
    Holding(s.workers[i]).Some? || Settling(s.workers[i]).Some? || s.queues[i] != []
  }

  lemma MoverHasWork(s: State, t: Task)
    requires Inv(s) && t in s.counted
    ensures Mover(s, t) < |s.workers| && HasWork(s, Mover(s, t))
  {
    hide Inv;
    Whereabouts(s, t);
    SizedInv(s);
  }

  /** A worker with work that is not blocked can step, and not because of a spurious wakeup. */
  lemma WorkerReady(s: State, i: nat)
    requires Inv(s) && i < |s.workers| && HasWork(s, i) && s.workers[i] != Exited && Blocked(s, i) == None
    ensures Enabled(s, StepWorker(i, Everyone(s))) && !Spurious(s, StepWorker(i, Everyone(s)))
  {
    hide Candidate, LockOk, QueueOk, NotifiedOk, CleanupOk, WaitLockOk, WaiterOk, TaskOk, CountOk, WorkerOk;
    assert PointOk(s, i);
    CanStep(s, i);
  }

  /** Its steps bring it nearer to running or settling a task. */
  lemma WorkFind(s: State, i: nat, woken: set<nat>)
    requires Inv(s) && Enabled(s, StepWorker(i, woken)) && IsFind(s.workers[i])
    ensures i < |NextWorker(s, i, woken).workers|
    ensures MoveRank(NextWorker(s, i, woken).workers[i], |s.workers|) < MoveRank(s.workers[i], |s.workers|)
  {
    hide Candidate, LockOk, QueueOk, SleepOk, NotifiedOk, CleanupOk, WaitLockOk, WaiterOk, TaskOk, CountOk, Taken;
    assert PointOk(s, i);
  }

  lemma WorkWait(s: State, i: nat, woken: set<nat>)
    requires Inv(s) && Enabled(s, StepWorker(i, woken)) && IsWait(s.workers[i]) && HasWork(s, i)
    ensures i < |NextWorker(s, i, woken).workers|
    ensures MoveRank(NextWorker(s, i, woken).workers[i], |s.workers|) < MoveRank(s.workers[i], |s.workers|)
  {
    hide Candidate, LockOk, QueueOk, NotifiedOk, CleanupOk, WaitLockOk, WaiterOk, TaskOk, CountOk, Taken;
    assert PointOk(s, i);
  }

  lemma WorkRun(s: State, i: nat, woken: set<nat>)
    requires Inv(s) && s.running && Enabled(s, StepWorker(i, woken)) && !IsFind(s.workers[i]) && !IsWait(s.workers[i])
    requires !s.workers[i].Running? && !s.workers[i].DoneSub?
    ensures i < |NextWorker(s, i, woken).workers|
    ensures MoveRank(NextWorker(s, i, woken).workers[i], |s.workers|) < MoveRank(s.workers[i], |s.workers|)
  {
    hide Candidate, SignalChoice, PointOk;
  }

  lemma WorkerNearer(s: State, i: nat, woken: set<nat>)
    requires Inv(s) && s.running && Enabled(s, StepWorker(i, woken)) && HasWork(s, i)
    requires !s.workers[i].Running? && !s.workers[i].DoneSub?
    ensures i < |NextWorker(s, i, woken).workers|
    ensures MoveRank(NextWorker(s, i, woken).workers[i], |s.workers|) < MoveRank(s.workers[i], |s.workers|)
  {
    assert i < |s.workers|;
    hide NextWorker, Enabled, MoveRank, HasWork, Inv;
    if IsFind(s.workers[i]) { WorkFind(s, i, woken); }
    else if IsWait(s.workers[i]) { WorkWait(s, i, woken); }
    else { WorkRun(s, i, woken); }
  }

  /** A worker's step takes at most the oldest task of one queue. */
  ghost predicate TakesOldest(s: State, s': State, i: nat) {
    || s'.takenBy == s.takenBy
    || exists c :: 0 <= c < |s.queues| && s.queues[c] != [] && s'.takenBy == s.takenBy[s.queues[c][0] := i]
  }

  /** A task in a worker's hands stays there until it is settled. */
  ghost predicate KeepsTask(s: State, s': State, i: nat)
    requires i < |s.workers|
  {
    && i < |s'.workers|
    && forall t :: !s.workers[i].DoneSub? && (Holding(s.workers[i]) == Some(t) || Settling(s.workers[i]) == Some(t)) ==>
         Holding(s'.workers[i]) == Some(t) || Settling(s'.workers[i]) == Some(t)
  }

  lemma FindTakes(s: State, i: nat, woken: set<nat>)
    requires Sized(s) && Enabled(s, StepWorker(i, woken)) && IsFind(s.workers[i])
    ensures TakesOldest(s, NextWorker(s, i, woken), i) && KeepsTask(s, NextWorker(s, i, woken), i)
  {
    hide Candidate, SignalChoice;
  }

  lemma WaitTakes(s: State, i: nat, woken: set<nat>)
    requires Sized(s) && Enabled(s, StepWorker(i, woken)) && IsWait(s.workers[i])
    ensures TakesOldest(s, NextWorker(s, i, woken), i) && KeepsTask(s, NextWorker(s, i, woken), i)
  {
    hide Candidate, SignalChoice;
  }

  lemma RunTakes(s: State, i: nat, woken: set<nat>)
    requires Sized(s) && Enabled(s, StepWorker(i, woken)) && !IsFind(s.workers[i]) && !IsWait(s.workers[i])
    ensures TakesOldest(s, NextWorker(s, i, woken), i) && KeepsTask(s, NextWorker(s, i, woken), i)
  {
    hide Candidate, SignalChoice;
  }

  lemma WorkerTakes(s: State, i: nat, woken: set<nat>)
    requires Sized(s) && Enabled(s, StepWorker(i, woken))
    ensures TakesOldest(s, NextWorker(s, i, woken), i) && KeepsTask(s, NextWorker(s, i, woken), i)
  {
    assert i < |s.workers|;
    hide NextWorker, Enabled, TakesOldest, KeepsTask;
    if IsFind(s.workers[i]) { FindTakes(s, i, woken); }
    else if IsWait(s.workers[i]) { WaitTakes(s, i, woken); }
    else { RunTakes(s, i, woken); }
  }

  /** A task in a worker's hands is in no queue. */
  lemma TakenOnce(s: State, t: Task, c: nat)
    requires Inv(s) && t in s.counted && Stage(s, t) == 0 && c < |s.queues| && s.queues[c] != []
    ensures s.queues[c][0] != t
  {
    hide Candidate, LockOk, QueueOk, SleepOk, NotifiedOk, CleanupOk, WaitLockOk, WaiterOk, TaskOk, NoDup;
    OnePlace(s, t);
    assert PointOk(s, s.takenBy[t]);
    assert HeldBy(s, t, s.takenBy[t]) || Finished(s, t);
    assert s.queues[c][0] == t ==> Queued(s, t);
  }

  lemma WorkerStage(s: State, i: nat, woken: set<nat>, t: Task)
    requires Inv(s) && Enabled(s, StepWorker(i, woken)) && t in s.counted && t in NextWorker(s, i, woken).counted
    ensures Sized(NextWorker(s, i, woken)) && Stage(NextWorker(s, i, woken), t) <= Stage(s, t)
    ensures Stage(NextWorker(s, i, woken), t) == Stage(s, t) ==> Mover(NextWorker(s, i, woken), t) == Mover(s, t)
  {
    hide Candidate, PointOk, CountOk, CleanupOk, WaitLockOk, NextWorker, Enabled, Holding, Settling;
    WorkerLeaves(s, i, woken);
    WorkerHistory(s, i, woken);
    WorkerTakes(s, i, woken);
    var s' := NextWorker(s, i, woken);
    if Stage(s, t) == 0 {
      if s'.takenBy != s.takenBy {
        var c :| 0 <= c < |s.queues| && s.queues[c] != [] && s'.takenBy == s.takenBy[s.queues[c][0] := i];
        TakenOnce(s, t, c);
      }
      assert s'.takenBy[t] == s.takenBy[t];
      SettledOut(s, i, t);
    }
  }

  /** A worker about to settle a task holds no other. */
  lemma SettledOut(s: State, i: nat, t: Task)
    requires i < |s.workers|
    ensures s.workers[i].DoneSub? && (Holding(s.workers[i]) == Some(t) || Settling(s.workers[i]) == Some(t)) ==>
            s.workers[i].t == t
  {
  }

  /** A step of a schedule call takes no task from a worker. */
  lemma CallCounts(s: State, u: Task)
    requires Sized(s) && Enabled(s, StepSchedule(u))
    ensures var s' := NextSchedule(s, u); s'.takenBy == s.takenBy && s.counted <= s'.counted
  {
    hide Candidate;
  }

  lemma CallAlone(s: State, u: Task, t: Task)
    requires Sized(s) && Enabled(s, StepSchedule(u)) && t < |s.schedules| && t != u
    ensures t < |NextSchedule(s, u).schedules| && NextSchedule(s, u).schedules[t] == s.schedules[t]
  {
    hide Candidate;
  }

  /** A call that has added its task stays with its worker. */
  lemma CallStays(s: State, u: Task)
    requires Sized(s) && Enabled(s, StepSchedule(u)) && Added(s.schedules[u])
    ensures u < |NextSchedule(s, u).schedules| && Added(NextSchedule(s, u).schedules[u])
    ensures NextSchedule(s, u).schedules[u].w == s.schedules[u].w
  {
    hide Candidate;
  }

  lemma ScheduleStage(s: State, u: Task, t: Task)
    requires Inv(s) && Enabled(s, StepSchedule(u)) && t in s.counted
    ensures Sized(NextSchedule(s, u)) && t in NextSchedule(s, u).counted && Stage(NextSchedule(s, u), t) <= Stage(s, t)
    ensures Stage(NextSchedule(s, u), t) == Stage(s, t) ==> Mover(NextSchedule(s, u), t) == Mover(s, t)
  {
    AddedCounted(s, t);
    CallCounts(s, u);
    if t == u { CallStays(s, u); } else { CallAlone(s, u, t); }
    ScheduleSized(s, u);
    ScheduleLeaves(s, u);
    hide Inv, NextSchedule, Enabled;
  }

  lemma AddedCounted(s: State, t: Task)
    requires Inv(s) && t in s.counted
    ensures t < |s.schedules| && Added(s.schedules[t])
  {
    hide Candidate, LockOk, QueueOk, SleepOk, NotifiedOk, CleanupOk, WaitLockOk, WaiterOk, WorkerOk, NoDup;
    assert t < |s.schedules| && PointOk(s, t);
  }

  lemma WaiterStage(s: State, k: nat, t: Task)
    requires Sized(s) && Enabled(s, StepWaiter(k)) && t in s.counted
    ensures Sized(NextWaiter(s, k)) && t in NextWaiter(s, k).counted
    ensures Stage(NextWaiter(s, k), t) == Stage(s, t) && Mover(NextWaiter(s, k), t) == Mover(s, t)
  {
  }

  /** No step of a running pool sends an active task back. */
  lemma StageFalls(s: State, a: Action, t: Task)
    requires Inv(s) && Enabled(s, a) && Ordinary(a) && t in s.counted && t in Next(s, a).counted
    ensures Sized(Next(s, a)) && Stage(Next(s, a), t) <= Stage(s, t)
    ensures Stage(Next(s, a), t) == Stage(s, t) ==> Mover(Next(s, a), t) == Mover(s, t)
  {
    hide PointOk, CountOk, CleanupOk, WaitLockOk, NextWorker, NextSchedule, NextWaiter, Stage, Mover, Enabled;
    match a
    case StepWorker(i, woken) => WorkerStage(s, i, woken, t);
    case StepSchedule(u) => ScheduleStage(s, u, t);
    case StepWaiter(k) => WaiterStage(s, k, t);
    case _ =>
  }

  /** What the blocking thread has left to do before it gives way. */
  ghost function BlockLeft(s: State, i: nat): nat
    requires Sized(s) && i < |s.workers|
  {
    if Blocked(s, i).Some? then SectionLeft(s, Blocked(s, i).value) else 0
  }

  /** The blocking thread is inside its critical section, and is another thread. */
  lemma BlockedInside(s: State, i: nat)
    requires Inv(s) && s.running && i < |s.workers| && Blocked(s, i).Some?
    ensures InSection(s, Blocked(s, i).value) && Blocked(s, i).value != W(i) && Blocked(s, i).value != C
  {
    hide QueueOk, SleepOk, NotifiedOk, TaskOk, WaiterOk, CountOk, WorkerOk, Candidate;
    if s.workers[i] == Asleep(false) {
      assert PointOk(s, i);
    } else {
      BlockerInside(s, i);
    }
  }

  /** A step of the blocking thread brings it nearer to giving way, or wakes the worker. */
  lemma BlockerGivesWay(s: State, s': State, i: nat, th: Thread)
    requires Sized(s) && Sized(s') && i < |s.workers| == |s'.workers| && Blocked(s, i) == Some(th)
    requires s'.workers[i] == s.workers[i] || (s.workers[i] == Asleep(false) && s'.workers[i] == Asleep(true))
    requires Advances(s, s', th)
    requires forall c :: 0 <= c < |s.workers| && s.queueLocks[c] == Some(th) ==> SectionOf(s, th, c)
    ensures MoveRank(s'.workers[i], |s.workers|) <= MoveRank(s.workers[i], |s.workers|)
    ensures s'.workers[i] == s.workers[i] ==> BlockLeft(s', i) < BlockLeft(s, i)
    ensures s'.workers[i] != s.workers[i] ==> MoveRank(s'.workers[i], |s.workers|) < MoveRank(s.workers[i], |s.workers|)
  {
    hide SectionLeft, SectionOf, Candidate;
  }

  /** A thread other than cleanup inside a section takes ordinary steps. */
  lemma HolderOrdinary(s: State, th: Thread)
    requires th != C
    ensures Ordinary(StepOf(s, th))
  {
  }

  /** The next step that moves an active task along: its worker's, or that of the thread that blocks it. */
  lemma NextMove(s: State, t: Task) returns (a: Action)
    requires Up(s) && t in s.counted
    ensures Sized(s) && Ordinary(a) && Enabled(s, a) && !Spurious(s, a) && Sized(Next(s, a))
    ensures Mover(s, t) < |s.workers| == |Next(s, a).workers|
    ensures Further(s, Next(s, a)) || Nearer(s, Next(s, a), Mover(s, t))
  {
    hide PointOk, CountOk, WaitLockOk, CleanupOk, Next, Enabled, Blocked, HasWork, Mover, Further, Nearer, InSection,
         Spurious, StepOf;
    MoverHasWork(s, t);
    var i := Mover(s, t);
    if Blocked(s, i) == None {
      a := StepWorker(i, Everyone(s));
      WorkerReady(s, i);
      OwnMove(s, i, Everyone(s));
      NextSized(s, a);
    } else {
      var th := Blocked(s, i).value;
      BlockedInside(s, i);
      HolderCanStep(s, th);
      HolderQuiet(s, th);
      HolderOrdinary(s, th);
      a := StepOf(s, th);
      NextSized(s, a);
      OtherMove(s, i, th);
    }
  }

  /** Worker i is nearer to running or settling a task, or less of what blocks it is left. */
  ghost predicate Nearer(s: State, s': State, i: nat)
    requires Sized(s) && Sized(s') && i < |s.workers| == |s'.workers|
  {
    || MoveRank(s'.workers[i], |s.workers|) < MoveRank(s.workers[i], |s.workers|)
    || (MoveRank(s'.workers[i], |s.workers|) == MoveRank(s.workers[i], |s.workers|)
       && BlockLeft(s', i) < BlockLeft(s, i))
  }

  lemma OwnMove(s: State, i: nat, woken: set<nat>)
    requires Inv(s) && s.running && Enabled(s, StepWorker(i, woken)) && HasWork(s, i)
    ensures var s' := Next(s, StepWorker(i, woken)); Sized(s') && |s'.workers| == |s.workers|
    ensures Further(s, Next(s, StepWorker(i, woken))) || Nearer(s, Next(s, StepWorker(i, woken)), i)
  {
    WorkerSized(s, i, woken);
    assert Next(s, StepWorker(i, woken)) == NextWorker(s, i, woken);
    assert i < |s.workers|;
    hide PointOk, CountOk, WaitLockOk, CleanupOk, NextWorker, Next, Enabled, HasWork, Further, BlockLeft, MoveRank;
    if s.workers[i].Running? || s.workers[i].DoneSub? {
      WorkerOnwards(s, i, woken);
    } else {
      WorkerNearer(s, i, woken);
    }
  }

  lemma OtherMove(s: State, i: nat, th: Thread)
    requires Inv(s) && s.running && i < |s.workers| && Blocked(s, i) == Some(th) && th != W(i) && th != C
    requires InSection(s, th) && Enabled(s, StepOf(s, th))
    ensures var s' := Next(s, StepOf(s, th)); Sized(s') && |s'.workers| == |s.workers| && Nearer(s, s', i)
  {
    hide PointOk, CountOk, WaitLockOk, CleanupOk, Next, Enabled, MoveRank, BlockLeft, Blocked, SectionOf;
    HolderAdvances(s, th);
    NextSized(s, StepOf(s, th));
    forall c | 0 <= c < |s.workers| && s.queueLocks[c] == Some(th)
      ensures SectionOf(s, th, c)
    {
      HoldsInSection(s, th, c);
    }
    NotTheWorker(s, th, i);
    OthersDoNotMove(s, StepOf(s, th), i);
    hide InSection, StepOf, Advances;
    BlockerGivesWay(s, Next(s, StepOf(s, th)), i, th);
  }

  lemma NotTheWorker(s: State, th: Thread, i: nat)
    requires th != W(i)
    ensures !(StepOf(s, th).StepWorker? && StepOf(s, th).i == i)
  {
  }

  /** Only settling a task takes it off the active ones. */
  lemma StaysCounted(s: State, a: Action, t: Task)
    requires Inv(s) && Enabled(s, a) && Ordinary(a) && t in s.counted
    ensures t in Next(s, a).counted || Further(s, Next(s, a))
  {
    hide PointOk, CountOk, CleanupOk, WaitLockOk, NextWorker, Further, Candidate;
    match a
    case StepWorker(i, woken) =>
      WorkerHistory(s, i, woken);
      WorkerOnwards(s, i, woken);
    case StepSchedule(u) => hide NextSchedule; ScheduleStage(s, u, t);
    case StepWaiter(k) =>
    case _ =>
  }

  /** An active task can be moved along until some task has run or has been settled. */
  lemma {:induction false} TaskMoves(s: State, t: Task) returns (xs: seq<Action>, s': State)
    requires Up(s) && t in s.counted && Sized(s) && Mover(s, t) < |s.workers|
    ensures QuietTo(s, xs, s') && OrdinaryRun(xs) && Up(s') && Further(s, s')
    decreases Stage(s, t), MoveRank(s.workers[Mover(s, t)], |s.workers|), BlockLeft(s, Mover(s, t))
  {
    hide PointOk, CountOk, WaitLockOk, CleanupOk, Alive, Next, Enabled, QuietTo, Spurious, Mover, Stage, MoveRank,
         BlockLeft, Unrun, Unsettled;
    var a := NextMove(s, t);
    var m := Next(s, a);
    StepUp(s, a);
    if Further(s, m) {
      QuietNothing(m);
      QuietStep(s, a, [], m);
      return [a] + [], m;
    }
    StaysCounted(s, a, t);
    StageFalls(s, a, t);
    MoverHasWork(m, t);
    xs, s' := TaskMoves(m, t);
    QuietStep(s, a, xs, s');
    xs := [a] + xs;
  }

  /** So a running pool can settle every active task. */
  lemma {:induction false} PoolSettles(s: State) returns (xs: seq<Action>, s': State)
    requires Up(s) && Sized(s)
    ensures QuietTo(s, xs, s') && OrdinaryRun(xs) && Up(s') && s'.active == 0
    decreases Unsettled(s), Unrun(s)
  {
    hide PointOk, WaitLockOk, CleanupOk, Alive, QuietTo, Unrun, Unsettled;
    if s.counted == {} {
      QuietNothing(s);
      return [], s;
    }
    var t :| t in s.counted;
    MoverHasWork(s, t);
    var m: State;
    xs, m := TaskMoves(s, t);
    var ys: seq<Action>;
    ys, s' := PoolSettles(m);
    QuietJoin(s, xs, m, ys, s');
    xs := xs + ys;
  }

  lemma ReachableUp(s: State, n: nat, actions: seq<Action>)
    requires Reachable(s, n, actions) && s.running
    ensures Up(s) && Sized(s)
  {
    ReachableInv(s, n, actions);
    assert Alive(Init(n));
    hide Inv, Runs, After, Alive;
    RunAlive(Init(n), actions);
    SizedInv(s);
  }

  /**
   * From every reachable state in which the shutdown has not begun, whoever waits and whichever
   * wakeups were lost before, a run without spurious wakeups, new tasks or new waiters ends with
   * no active task.
   */
  lemma EveryPoolSettles(s: State, n: nat, actions: seq<Action>) returns (xs: seq<Action>, s': State)
    requires Reachable(s, n, actions) && s.running
    ensures Sized(s) && QuietTo(s, xs, s') && OrdinaryRun(xs) && s'.active == 0
  {
    ReachableUp(s, n, actions);
    hide *;
    xs, s' := PoolSettles(s);
  }

  // ----- a waiter's return -----

  /** Such a run keeps a lone waiter the only one, and every signal in it serves that waiter. */
  lemma {:induction false} GoesOn(s: State, k: nat, xs: seq<Action>, s': State)
    requires Going(s, k) && Sized(s) && QuietTo(s, xs, s') && OrdinaryRun(xs)
    ensures Sized(s') && Going(s', k)
    decreases xs
  {
    hide Going, Next, Enabled, Ordinary, Spurious;
    if xs != [] {
      StepGoing(s, xs[0], k);
      GoesOn(Next(s, xs[0]), k, xs[1..], s');
    }
  }

  ghost function WaiterRank(pc: WaiterPc): nat {
    match pc
    case WaitDone => 0
    case WaitLeave => 1
    case WaitCheck => 2
    case WaitEnter => 3
    case WaitAsleep(signalled) => if signalled then 3 else 4
    case WaitBlock => 5
  }

  /** The steps left of a worker that holds the wait mutex a waiter needs. */
  ghost function WaitLeft(s: State): nat
    requires Sized(s)
  {
    if s.waitLock.Some? && s.waitLock.value.W? then SectionLeft(s, s.waitLock.value) else 0
  }

  /** The waiter's next step, or the next step of the worker that holds the wait mutex. */
  lemma WaiterMove(s: State, k: nat) returns (a: Action)
    requires Going(s, k) && Sized(s) && s.active == 0 && !s.waiters[k].pc.WaitDone?
    ensures Ordinary(a) && Enabled(s, a) && !Spurious(s, a)
    ensures Sized(Next(s, a)) && Next(s, a).active == 0 && k < |Next(s, a).waiters|
    ensures var s' := Next(s, a);
            || WaiterRank(s'.waiters[k].pc) < WaiterRank(s.waiters[k].pc)
            || (s'.waiters[k].pc == s.waiters[k].pc && WaitLeft(s') < WaitLeft(s))
  {
    hide Candidate, LockOk, QueueOk, SleepOk, NotifiedOk, TaskOk, CleanupOk, Waited, Alive, Taken, NextWorker;
    assert PointOk(s, k) && WillWake(s, k);
    if s.waitLock.Some? && s.waitLock.value.W? {
      a := StepWorker(s.waitLock.value.i, Everyone(s));
      MutexMove(s, k, s.waitLock.value.i);
    } else {
      a := StepWaiter(k);
    }
  }

  lemma MutexMove(s: State, k: nat, i: nat)
    requires Inv(s) && k < |s.waiters| && s.active == 0 && s.waitLock == Some(W(i))
    ensures Enabled(s, StepWorker(i, Everyone(s))) && !Spurious(s, StepWorker(i, Everyone(s)))
    ensures var s' := NextWorker(s, i, Everyone(s));
            && Sized(s') && s'.active == 0 && k < |s'.waiters| && WaitLeft(s') < WaitLeft(s)
            && (s'.waiters[k].pc == s.waiters[k].pc || WaiterRank(s'.waiters[k].pc) < WaiterRank(s.waiters[k].pc))
  {
    hide Candidate, LockOk, QueueOk, SleepOk, NotifiedOk, TaskOk, CleanupOk, Waited, Taken;
    assert PointOk(s, i);
    assert i < |s.workers| && InWaitSection(s.workers[i]);
  }

  lemma {:induction false} WaiterFinishes(s: State, k: nat) returns (xs: seq<Action>, s': State)
    requires Going(s, k) && Sized(s) && s.active == 0
    ensures QuietTo(s, xs, s') && OrdinaryRun(xs) && k < |s'.waiters| && s'.waiters[k].pc.WaitDone?
    decreases WaiterRank(s.waiters[k].pc), WaitLeft(s)
  {
    hide PointOk, CountOk, WaitLockOk, CleanupOk, WaitersOk, Alive, Next, Enabled, QuietTo, Spurious, WaiterRank,
         WaitLeft;
    if s.waiters[k].pc.WaitDone? {
      QuietNothing(s);
      return [], s;
    }
    var a := WaiterMove(s, k);
    StepGoing(s, a, k);
    xs, s' := WaiterFinishes(Next(s, a), k);
    QuietStep(s, a, xs, s');
    xs := [a] + xs;
  }

  lemma {:induction false} RunAlive(s: State, xs: seq<Action>)
    requires Sized(s) && Runs(s, xs) && (s.running ==> Alive(s))
    ensures After(s, xs).running ==> Alive(After(s, xs))
    decreases xs
  {
    hide Next, Enabled, Alive;
    if xs != [] {
      NextSized(s, xs[0]);
      StillAlive(s, xs[0]);
      RunAlive(Next(s, xs[0]), xs[1..]);
    }
  }

  lemma StillAlive(s: State, a: Action)
    requires Sized(s) && Enabled(s, a) && (s.running ==> Alive(s))
    ensures Next(s, a).running ==> Alive(Next(s, a))
  {
    hide Candidate, SignalChoice, NextSchedule, NextWaiter, NextWorker;
    match a
    case StepWorker(i, woken) =>
      WorkerLeaves(s, i, woken);
      WorkerHistory(s, i, woken);
    case StepSchedule(t) => ScheduleLeaves(s, t);
    case StepWaiter(k) => WaiterLeaves(s, k);
    case _ =>
  }

  /**
   * A lone waiter can always return: from every state of a running pool that is reached by a run
   * in which every signal could serve the waiters, there is a run without spurious wakeups and
   * without new tasks at whose end the wait has returned.
   */
  lemma WaitCanReturn(s: State, n: nat, actions: seq<Action>, k: nat) returns (xs: seq<Action>, s': State)
    requires Reachable(s, n, actions) && ServedRun(Init(n), actions) && s.running && OnlyWaiter(s, k)
    ensures Sized(s) && QuietTo(s, xs, s') && OrdinaryRun(xs)
    ensures k < |s'.waiters| && s'.waiters[k].pc.WaitDone?
  {
    StartGoing(s, n, actions, k);
    hide *;
    var ys: seq<Action>;
    var m: State;
    GoingUp(s, k);
    xs, m := PoolSettles(s);
    GoesOn(s, k, xs, m);
    ys, s' := WaiterFinishes(m, k);
    QuietJoin(s, xs, m, ys, s');
    OrdinaryJoin(xs, ys);
    xs := xs + ys;
  }

  lemma OrdinaryJoin(xs: seq<Action>, ys: seq<Action>)
    requires OrdinaryRun(xs) && OrdinaryRun(ys)
    ensures OrdinaryRun(xs + ys)
  {
  }

  lemma StartGoing(s: State, n: nat, actions: seq<Action>, k: nat)
    requires Reachable(s, n, actions) && ServedRun(Init(n), actions) && s.running && OnlyWaiter(s, k)
    ensures Going(s, k) && Sized(s)
  {
    ReachableUp(s, n, actions);
    InitInv(n);
    assert WaitersOk(Init(n));
    hide Inv, Up, Runs, After, ServedRun, LosesNoneRun, WaitersOk;
    ServedRunIff(Init(n), actions);
  }

  lemma GoingUp(s: State, k: nat)
    requires Going(s, k)
    ensures Up(s)
  {
  }
}
