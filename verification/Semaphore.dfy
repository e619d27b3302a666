/**
 * The counting semaphore of semaphore.c as a state machine over any number of waiting and
 * posting threads.  A condition wait may end without a signal, and a new caller may take the
 * mutex before a thread that has been signalled.
 */
module Semaphore {
  import opened Seqs

  datatype Pc =
    // cx_semaphore_wait
    | WaitLock                   // about to take the mutex for the first time
    | WaitTest                   // the loop condition, mutex held
    | Asleep(signalled: bool)
    | Take                       // saw a positive count, mutex held
    | WaitUnlock
    | Waited
    // cx_semaphore_post
    | PostLock
    | Raise
    | Signal
    | PostUnlock
    | Posted

  datatype State = State(initial: nat, count: int, lock: Option<nat>, threads: seq<Pc>)

  datatype Action = Step(i: nat, woken: set<nat>) | NewWait | NewPost

  ghost function Init(count: nat): State {
    State(count, count, None, [])
  }

  ghost predicate Unsignalled(s: State, i: nat) {
    i < |s.threads| && s.threads[i] == Asleep(false)
  }

  /** A signal unblocks at least one of the threads blocked on the condition, if any are. */
  ghost predicate SignalChoice(s: State, woken: set<nat>) {
    (exists i :: Unsignalled(s, i)) ==> exists i :: i in woken && Unsignalled(s, i)
  }

  ghost predicate Enabled(s: State, a: Action) {
    a.Step? ==>
      && a.i < |s.threads|
      && (match s.threads[a.i]
          case WaitLock => s.lock == None
          case Asleep(_) => s.lock == None     // a wait ends with the mutex held again
          case PostLock => s.lock == None
          case Signal => SignalChoice(s, a.woken)
          case Waited => false
          case Posted => false
          case _ => true)
  }

  ghost function Wake(threads: seq<Pc>, woken: set<nat>): (r: seq<Pc>)
    ensures |r| == |threads|
    ensures forall i :: 0 <= i < |r| ==>
              r[i] == if i in woken && threads[i] == Asleep(false) then Asleep(true) else threads[i]
  {
    seq(|threads|, i requires 0 <= i < |threads| =>
      if i in woken && threads[i] == Asleep(false) then Asleep(true) else threads[i])
  }

  ghost function Go(s: State, i: nat, pc: Pc): State
    requires i < |s.threads|
  {
    s.(threads := s.threads[i := pc])
  }

  ghost function Next(s: State, a: Action): State
    requires Enabled(s, a)
  {
    match a
    case NewWait => s.(threads := s.threads + [WaitLock])
    case NewPost => s.(threads := s.threads + [PostLock])
    case Step(i, woken) =>
      match s.threads[i]
      case WaitLock => Go(s.(lock := Some(i)), i, WaitTest)
      case WaitTest => if s.count == 0 then Go(s.(lock := None), i, Asleep(false)) else Go(s, i, Take)
      case Asleep(_) => Go(s.(lock := Some(i)), i, WaitTest)
      case Take => Go(s.(count := s.count - 1), i, WaitUnlock)
      case WaitUnlock => Go(s.(lock := None), i, Waited)
      case PostLock => Go(s.(lock := Some(i)), i, Raise)
      case Raise => Go(s.(count := s.count + 1), i, Signal)
      case Signal => Go(s.(threads := Wake(s.threads, woken)), i, PostUnlock)
      case PostUnlock => Go(s.(lock := None), i, Posted)
      case Waited => s
      case Posted => s
  }

  ghost predicate Runs(s: State, actions: seq<Action>)
    decreases actions
  {
    actions == [] || (Enabled(s, actions[0]) && Runs(Next(s, actions[0]), actions[1..]))
  }

  ghost function After(s: State, actions: seq<Action>): State
    requires Runs(s, actions)
    decreases actions
  {
    if actions == [] then s else After(Next(s, actions[0]), actions[1..])
  }

  // ----- counting threads -----

  ghost predicate HasRaised(pc: Pc) {
    pc.Signal? || pc.PostUnlock? || pc.Posted?
  }

  ghost predicate HasTaken(pc: Pc) {
    pc.WaitUnlock? || pc.Waited?
  }

  ghost predicate Woken(pc: Pc) {
    pc == Asleep(true)
  }

  ghost function Number(p: Pc -> bool, threads: seq<Pc>): nat {
    if threads == [] then 0
    else Number(p, threads[..|threads| - 1]) + if p(threads[|threads| - 1]) then 1 else 0
  }

  ghost function Posts(s: State): nat {
    Number(HasRaised, s.threads)
  }

  /** Waits that have taken their unit. */
  ghost function Waits(s: State): nat {
    Number(HasTaken, s.threads)
  }

  /** Signalled waiters that have yet to take the mutex again. */
  ghost function Pending(s: State): nat {
    Number(Woken, s.threads)
  }

  lemma {:induction false} NumberUpdate(p: Pc -> bool, threads: seq<Pc>, i: nat, pc: Pc)
    requires i < |threads|
    ensures Number(p, threads[i := pc]) ==
            Number(p, threads) + (if p(pc) then 1 else 0) - (if p(threads[i]) then 1 else 0)
  {
    var last := |threads| - 1;
    if i == last {
      assert threads[i := pc][..last] == threads[..last];
    } else {
      assert threads[i := pc][..last] == threads[..last][i := pc];
      NumberUpdate(p, threads[..last], i, pc);
    }
  }

  lemma NumberSnoc(p: Pc -> bool, threads: seq<Pc>, pc: Pc)
    ensures Number(p, threads + [pc]) == Number(p, threads) + if p(pc) then 1 else 0
  {
    assert (threads + [pc])[..|threads|] == threads;
  }

  /** Waking changes no count but that of woken waiters, which grows when somebody is woken. */
  lemma {:induction false} NumberWake(threads: seq<Pc>, woken: set<nat>)
    ensures Number(HasRaised, Wake(threads, woken)) == Number(HasRaised, threads)
    ensures Number(HasTaken, Wake(threads, woken)) == Number(HasTaken, threads)
    ensures Number(Woken, Wake(threads, woken)) >= Number(Woken, threads)
    ensures (exists i :: 0 <= i < |threads| && i in woken && threads[i] == Asleep(false)) ==>
              Number(Woken, Wake(threads, woken)) > Number(Woken, threads)
  {
    if threads != [] {
      var last := |threads| - 1;
      assert Wake(threads, woken)[..last] == Wake(threads[..last], woken);
      NumberWake(threads[..last], woken);
    }
  }

  // ----- the invariant -----

  ghost predicate Inside(pc: Pc) {
    pc.WaitTest? || pc.Take? || pc.WaitUnlock? || pc.Raise? || pc.Signal? || pc.PostUnlock?
  }

  ghost predicate LockOk(s: State) {
    && (forall i :: 0 <= i < |s.threads| && Inside(s.threads[i]) ==> s.lock == Some(i))
    && (s.lock.Some? ==> s.lock.value < |s.threads| && Inside(s.threads[s.lock.value]))
  }

  /** The holder is about to take a unit, or to signal for the one it has just added. */
  ghost function Credit(s: State): nat {
    if s.lock.Some? && s.lock.value < |s.threads| && Credited(s.threads[s.lock.value]) then 1 else 0
  }

  ghost predicate Credited(pc: Pc) {
    pc.WaitTest? || pc.Take? || pc.Signal?
  }

  ghost predicate CountOk(s: State) {
    s.count == s.initial + Posts(s) - Waits(s) >= 0
  }

  ghost predicate TakeOk(s: State) {
    forall i :: 0 <= i < |s.threads| && s.threads[i].Take? ==> s.count > 0
  }

  ghost predicate SleepOk(s: State) {
    (exists i :: Unsignalled(s, i)) ==> s.count <= Pending(s) + Credit(s)
  }

  ghost predicate Inv(s: State) {
    LockOk(s) && CountOk(s) && TakeOk(s) && SleepOk(s)
  }

  lemma StepLock(s: State, i: nat, woken: set<nat>)
    requires LockOk(s) && TakeOk(s) && s.count >= 0 && Enabled(s, Step(i, woken))
    ensures LockOk(Next(s, Step(i, woken))) && TakeOk(Next(s, Step(i, woken)))
  {
    hide Number;
  }

  lemma StepCount(s: State, i: nat, woken: set<nat>)
    requires CountOk(s) && TakeOk(s) && Enabled(s, Step(i, woken))
    ensures CountOk(Next(s, Step(i, woken)))
  {
    hide Number, SignalChoice, Wake;
    var s' := Next(s, Step(i, woken));
    if s.threads[i] == Signal {
      NumberWake(s.threads, woken);
      WakeLength(s.threads, woken, i);
      NumberUpdate(HasRaised, Wake(s.threads, woken), i, PostUnlock);
      NumberUpdate(HasTaken, Wake(s.threads, woken), i, PostUnlock);
    } else {
      NumberUpdate(HasRaised, s.threads, i, s'.threads[i]);
      NumberUpdate(HasTaken, s.threads, i, s'.threads[i]);
    }
  }

  lemma WakeLength(threads: seq<Pc>, woken: set<nat>, i: nat)
    requires i < |threads|
    ensures |Wake(threads, woken)| == |threads| && (!threads[i].Asleep? ==> Wake(threads, woken)[i] == threads[i])
  {
  }

  lemma StepSleep(s: State, i: nat, woken: set<nat>)
    requires LockOk(s) && SleepOk(s) && Enabled(s, Step(i, woken)) && s.threads[i] != Signal
    ensures SleepOk(Next(s, Step(i, woken)))
  {
    hide Number, SignalChoice, Wake;
    var s' := Next(s, Step(i, woken));
    NumberUpdate(Woken, s.threads, i, s'.threads[i]);
    assert forall k :: k != i ==> (Unsignalled(s', k) <==> Unsignalled(s, k));
  }

  lemma SignalSleep(s: State, i: nat, woken: set<nat>)
    requires LockOk(s) && SleepOk(s) && Enabled(s, Step(i, woken)) && s.threads[i] == Signal
    ensures SleepOk(Next(s, Step(i, woken)))
  {
    hide Number;
    var s' := Next(s, Step(i, woken));
    NumberWake(s.threads, woken);
    NumberUpdate(Woken, Wake(s.threads, woken), i, PostUnlock);
    assert forall k :: Unsignalled(s', k) ==> Unsignalled(s, k);
  }

  lemma StepKeeps(s: State, i: nat, woken: set<nat>)
    requires Inv(s) && Enabled(s, Step(i, woken))
    ensures Inv(Next(s, Step(i, woken)))
  {
    hide LockOk, TakeOk, SleepOk, Next, Posts, Waits;
    StepLock(s, i, woken);
    StepCount(s, i, woken);
    if s.threads[i] == Signal {
      SignalSleep(s, i, woken);
    } else {
      StepSleep(s, i, woken);
    }
  }

  lemma NewKeeps(s: State, pc: Pc)
    requires Inv(s) && (pc == WaitLock || pc == PostLock)
    ensures Inv(s.(threads := s.threads + [pc]))
  {
    var s' := s.(threads := s.threads + [pc]);
    NumberSnoc(HasRaised, s.threads, pc);
    NumberSnoc(HasTaken, s.threads, pc);
    NumberSnoc(Woken, s.threads, pc);
    assert forall k :: Unsignalled(s', k) <==> Unsignalled(s, k);
  }

  lemma {:induction false} RunKeeps(s: State, actions: seq<Action>)
    requires Inv(s) && Runs(s, actions)
    ensures Inv(After(s, actions)) && After(s, actions).initial == s.initial
    decreases actions
  {
    hide LockOk, CountOk, TakeOk, SleepOk;
    if actions != [] {
      match actions[0] {
        case NewWait => NewKeeps(s, WaitLock);
        case NewPost => NewKeeps(s, PostLock);
        case Step(i, woken) => StepKeeps(s, i, woken);
      }
      RunKeeps(Next(s, actions[0]), actions[1..]);
    }
  }

  lemma InitInv(initial: nat)
    ensures Inv(Init(initial)) && Init(initial).initial == initial
  {
  }

  lemma InvCounts(s: State)
    requires Inv(s)
    ensures s.count == s.initial + Posts(s) - Waits(s) >= 0
    ensures s.lock == None && (exists i :: Unsignalled(s, i)) ==> s.count <= Pending(s)
  {
    hide LockOk, TakeOk, Posts, Waits, Pending;
  }

  /**
   * Over every interleaving, barging arrivals and spurious wakeups included: the count is the
   * initial value plus the posts minus the waits that went through and never below zero; and
   * while the mutex is free, if some waiter sleeps unsignalled, every unit of the count is
   * spoken for by a signalled waiter that has yet to take the mutex.
   */
  lemma SemaphoreCounts(initial: nat, actions: seq<Action>)
    requires Runs(Init(initial), actions)
    ensures var s := After(Init(initial), actions);
            && s.count == initial + Posts(s) - Waits(s) >= 0
            && (s.lock == None && (exists i :: Unsignalled(s, i)) ==> s.count <= Pending(s))
  {
    hide *;
    InitInv(initial);
    RunKeeps(Init(initial), actions);
    InvCounts(After(Init(initial), actions));
  }

  // ----- one operation from beginning to end -----

  /** Thread i alone takes k steps from s, the last of which leads to s'. */
  ghost predicate Alone(s: State, i: nat, woken: set<nat>, k: nat, s': State)
    decreases k
  {
    if k == 0 then s' == s
    else Enabled(s, Step(i, woken)) && Alone(Next(s, Step(i, woken)), i, woken, k - 1, s')
  }

  lemma Overwrite(threads: seq<Pc>, i: nat, x: Pc, y: Pc)
    requires i < |threads|
    ensures threads[i := x][i := y] == threads[i := y]
  {
  }

  /** Inside the mutex: the state s but for the program counter of thread i. */
  ghost function Inner(s: State, i: nat, pc: Pc): State
    requires i < |s.threads|
  {
    s.(threads := s.threads[i := pc], lock := Some(i))
  }

  lemma InnerStep(s: State, i: nat, woken: set<nat>, pc: Pc, m: State, k: nat, s': State)
    requires i < |s.threads| && Enabled(Inner(s, i, pc), Step(i, woken))
    requires Next(Inner(s, i, pc), Step(i, woken)) == m && Alone(m, i, woken, k, s')
    ensures Alone(Inner(s, i, pc), i, woken, k + 1, s')
  {
    hide Next, Enabled;
  }

  /** A wait alone takes a unit if there is one, and otherwise sleeps with the mutex given back. */
  lemma WaitAlone(s: State, i: nat)
    requires i < |s.threads| && s.lock == None && (s.threads[i] == WaitLock || s.threads[i].Asleep?)
    ensures s.count == 0 ==> Alone(s, i, {}, 2, s.(threads := s.threads[i := Asleep(false)]))
    ensures s.count > 0 ==> Alone(s, i, {}, 4, s.(threads := s.threads[i := Waited], count := s.count - 1))
  {
    var taken := s.(count := s.count - 1);
    Overwrite(s.threads, i, WaitTest, Asleep(false));
    Overwrite(s.threads, i, WaitTest, Take);
    Overwrite(s.threads, i, Take, WaitUnlock);
    Overwrite(s.threads, i, WaitUnlock, Waited);
    assert Next(s, Step(i, {})) == Inner(s, i, WaitTest);
    if s.count == 0 {
      var s' := s.(threads := s.threads[i := Asleep(false)]);
      InnerStep(s, i, {}, WaitTest, s', 0, s');
    } else if s.count > 0 {
      var s' := taken.(threads := s.threads[i := Waited]);
      InnerStep(taken, i, {}, WaitUnlock, s', 0, s');
      InnerStep(s, i, {}, Take, Inner(taken, i, WaitUnlock), 1, s');
      InnerStep(s, i, {}, WaitTest, Inner(s, i, Take), 2, s');
    }
  }

  lemma InnerSignal(s: State, i: nat, woken: set<nat>)
    requires i < |s.threads| && s.threads[i] == PostLock && SignalChoice(s, woken)
    ensures Enabled(Inner(s, i, Signal), Step(i, woken))
    ensures Next(Inner(s, i, Signal), Step(i, woken)) == Inner(s.(threads := Wake(s.threads, woken)), i, PostUnlock)
  {
    assert Wake(s.threads[i := Signal], woken)[i := PostUnlock] == Wake(s.threads, woken)[i := PostUnlock];
    assert forall k :: Unsignalled(Inner(s, i, Signal), k) <==> Unsignalled(s, k);
  }

  /** A post alone adds a unit and wakes at least one sleeper if there is any. */
  lemma PostAlone(s: State, i: nat, woken: set<nat>)
    requires i < |s.threads| && s.lock == None && s.threads[i] == PostLock && SignalChoice(s, woken)
    ensures Alone(s, i, woken, 4, s.(threads := Wake(s.threads, woken)[i := Posted], count := s.count + 1))
  {
    var raised := s.(count := s.count + 1);
    var signalled := raised.(threads := Wake(s.threads, woken));
    var s' := signalled.(threads := signalled.threads[i := Posted]);
    Overwrite(s.threads, i, Raise, Signal);
    Overwrite(signalled.threads, i, PostUnlock, Posted);
    assert forall k :: Unsignalled(raised, k) <==> Unsignalled(s, k);
    InnerSignal(raised, i, woken);
    hide SignalChoice, Wake;
    assert Next(s, Step(i, woken)) == Inner(s, i, Raise);
    InnerStep(signalled, i, woken, PostUnlock, s', 0, s');
    InnerStep(raised, i, woken, Signal, Inner(signalled, i, PostUnlock), 1, s');
    InnerStep(s, i, woken, Raise, Inner(raised, i, Signal), 2, s');
  }

  // ----- getting through -----

  /** No thread is on its way to raise the count, or to the signal that follows. */
  ghost predicate NoPosts(s: State) {
    forall i :: 0 <= i < |s.threads| ==> !s.threads[i].PostLock? && !s.threads[i].Raise? && !s.threads[i].Signal?
  }

  /** A step that is neither the start of a post nor a wakeup without a signal. */
  ghost predicate Quiet(s: State, a: Action) {
    Enabled(s, a) && !a.NewPost? && !(a.Step? && Unsignalled(s, a.i))
  }

  ghost predicate QuietTo(s: State, xs: seq<Action>, s': State)
    decreases xs
  {
    if xs == [] then s' == s else Quiet(s, xs[0]) && QuietTo(Next(s, xs[0]), xs[1..], s')
  }

  lemma {:induction false} QuietRuns(s: State, xs: seq<Action>, s': State)
    requires QuietTo(s, xs, s')
    ensures Runs(s, xs) && After(s, xs) == s'
    decreases xs
  {
    hide Next, Enabled;
    if xs != [] { QuietRuns(Next(s, xs[0]), xs[1..], s'); }
  }

  /** The unit that another waiter, with the mutex held, is about to take. */
  ghost function Claimed(s: State, i: nat): nat {
    if s.lock.Some? && s.lock.value != i && s.lock.value < |s.threads| && Claims(s.threads[s.lock.value]) then 1 else 0
  }

  ghost predicate Claims(pc: Pc) {
    pc.WaitTest? || pc.Take?
  }

  /** The waiter has its unit, or is awake and finds one that no other waiter is about to take. */
  ghost predicate MayPass(s: State, i: nat)
    requires i < |s.threads|
  {
    match s.threads[i]
    case Waited => true
    case WaitUnlock => true
    case Take => true
    case WaitTest => s.count > 0
    case WaitLock => s.count > Claimed(s, i)
    case Asleep(signalled) => signalled && s.count > Claimed(s, i)
    case _ => false
  }

  lemma StaysQuiet(s: State, a: Action)
    requires NoPosts(s) && Quiet(s, a)
    ensures NoPosts(Next(s, a)) && |s.threads| <= |Next(s, a).threads|
  {
    hide SignalChoice;
  }

  /** A waiter that may not pass will not, until somebody posts or it wakes up without a signal. */
  lemma StepOut(s: State, a: Action, i: nat)
    requires LockOk(s) && TakeOk(s) && s.count >= 0 && NoPosts(s) && Quiet(s, a)
    requires i < |s.threads| && !MayPass(s, i)
    ensures i < |Next(s, a).threads| && !MayPass(Next(s, a), i)
  {
    hide SignalChoice;
  }

  lemma {:induction false} StaysOut(s: State, xs: seq<Action>, s': State, i: nat)
    requires Inv(s) && NoPosts(s) && i < |s.threads| && QuietTo(s, xs, s') && !MayPass(s, i)
    ensures i < |s'.threads| && !s'.threads[i].Waited?
    decreases xs
  {
    InvCounts(s);
    hide Next, Quiet, CountOk, SleepOk, LockOk, TakeOk, NoPosts;
    if xs != [] {
      StaysQuiet(s, xs[0]);
      StepOut(s, xs[0], i);
      ActionKeeps(s, xs[0]);
      StaysOut(Next(s, xs[0]), xs[1..], s', i);
    }
  }

  lemma ActionKeeps(s: State, a: Action)
    requires Inv(s) && Quiet(s, a)
    ensures Inv(Next(s, a))
  {
    hide Inv;
    match a
    case Step(i, woken) => StepKeeps(s, i, woken);
    case NewWait => NewKeeps(s, WaitLock);
  }

  ghost function WaitRank(pc: Pc): nat {
    match pc
    case Waited => 0
    case WaitUnlock => 1
    case Take => 2
    case WaitTest => 3
    case _ => 4
  }

  /** The steps left of another thread that holds the mutex. */
  ghost function HolderLeft(s: State, i: nat): nat {
    if s.lock.Some? && s.lock.value != i && s.lock.value < |s.threads| then WaitRank(s.threads[s.lock.value]) else 0
  }

  /** The next step that brings a waiter through: its own, or that of the holder of the mutex. */
  lemma NextPass(s: State, i: nat) returns (a: Action)
    requires LockOk(s) && TakeOk(s) && NoPosts(s) && i < |s.threads| && MayPass(s, i) && !s.threads[i].Waited?
    ensures Enabled(s, a) && Quiet(s, a) && i < |Next(s, a).threads| && MayPass(Next(s, a), i)
    ensures var s' := Next(s, a);
            || WaitRank(s'.threads[i]) < WaitRank(s.threads[i])
            || (s'.threads[i] == s.threads[i] && HolderLeft(s', i) < HolderLeft(s, i))
  {
    hide SignalChoice;
    a := Step(if s.lock.Some? then s.lock.value else i, {});
  }

  lemma {:induction false} PassesThrough(s: State, i: nat) returns (xs: seq<Action>, s': State)
    requires Inv(s) && NoPosts(s) && i < |s.threads| && MayPass(s, i)
    ensures QuietTo(s, xs, s') && i < |s'.threads| && s'.threads[i].Waited?
    decreases WaitRank(s.threads[i]), HolderLeft(s, i)
  {
    hide Next, Quiet, CountOk, SleepOk, LockOk, TakeOk, NoPosts, MayPass, WaitRank, HolderLeft;
    if s.threads[i].Waited? {
      return [], s;
    }
    var a := NextPass(s, i);
    StaysQuiet(s, a);
    ActionKeeps(s, a);
    xs, s' := PassesThrough(Next(s, a), i);
    assert ([a] + xs)[1..] == xs;
    xs := [a] + xs;
  }

  ghost predicate CanPass(s: State, i: nat) {
    exists xs, s' :: QuietTo(s, xs, s') && i < |s'.threads| && s'.threads[i].Waited?
  }

  /**
   * From every reachable state in which no post is under way: a wait can go through with no new
   * post and no wakeup without a signal if and only if it has its unit, or is awake and there is a
   * unit that the holder of the mutex is not about to take.
   */
  lemma PassIff(initial: nat, actions: seq<Action>, i: nat)
    requires Runs(Init(initial), actions)
    requires NoPosts(After(Init(initial), actions)) && i < |After(Init(initial), actions).threads|
    ensures CanPass(After(Init(initial), actions), i) <==> MayPass(After(Init(initial), actions), i)
  {
    InitInv(initial);
    RunKeeps(Init(initial), actions);
    var s := After(Init(initial), actions);
    hide Inv, NoPosts, MayPass, QuietTo, Runs, After;
    if MayPass(s, i) {
      var _, _ := PassesThrough(s, i);
    } else {
      forall xs, s' | QuietTo(s, xs, s')
        ensures i < |s'.threads| && !s'.threads[i].Waited?
      {
        StaysOut(s, xs, s', i);
      }
    }
  }

  ghost predicate StillWaits(s: State, i: nat) {
    i < |s.threads| && (s.threads[i].WaitLock? || s.threads[i].WaitTest? || s.threads[i].Asleep? || s.threads[i].Take?)
  }

  /**
   * So no unit is left lying while somebody waits for one: with no post under way and a positive
   * count, if any wait is without its unit then such a wait can go through.
   */
  lemma UnitIsTaken(initial: nat, actions: seq<Action>, waiter: nat) returns (i: nat)
    requires Runs(Init(initial), actions)
    requires var s := After(Init(initial), actions); NoPosts(s) && s.count > 0 && StillWaits(s, waiter)
    ensures var s := After(Init(initial), actions); StillWaits(s, i) && CanPass(s, i)
  {
    InitInv(initial);
    RunKeeps(Init(initial), actions);
    var s := After(Init(initial), actions);
    hide CanPass, Runs, After;
    i := Passer(s, waiter);
    PassIff(initial, actions, i);
  }

  lemma Passer(s: State, waiter: nat) returns (i: nat)
    requires Inv(s) && NoPosts(s) && s.count > 0 && StillWaits(s, waiter)
    ensures StillWaits(s, i) && MayPass(s, i)
  {
    hide Number;
    if s.lock.Some? && Claims(s.threads[s.lock.value]) {
      return s.lock.value;
    }
    if !Unsignalled(s, waiter) {
      return waiter;
    }
    assert Pending(s) > 0;
    i := SomeWoken(s.threads);
  }

  lemma {:induction false} SomeWoken(threads: seq<Pc>) returns (i: nat)
    requires Number(Woken, threads) > 0
    ensures i < |threads| && threads[i] == Asleep(true)
  {
    var last := |threads| - 1;
    if Woken(threads[last]) {
      return last;
    }
    i := SomeWoken(threads[..last]);
  }
}
