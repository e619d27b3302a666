/** Which worker a schedule call picks: what it read on its scan, over every interleaving. */
module ThreadpoolChoice {
  import opened Seqs
  import opened ThreadpoolModel
  import opened Threadpool

  /**
   * The queue lengths call t reads in a run: its first steps read queue_length of worker 0, 1, 2
   * and so on, at whatever value each has then. The lengths seen so far come first.
   */
  ghost function Reads(s: State, actions: seq<Action>, t: Task, sofar: seq<int>): seq<int>
    requires Sized(s) && Runs(s, actions)
    decreases actions
  {
    if actions == [] then sofar
    else
      NextSized(s, actions[0]);
      Reads(Next(s, actions[0]), actions[1..], t, WithRead(s, actions[0], t, sofar))
  }

  ghost function WithRead(s: State, a: Action, t: Task, sofar: seq<int>): seq<int> {
    if a == StepSchedule(t) && |sofar| < |s.lengths| then sofar + [s.lengths[|sofar|]] else sofar
  }

  /** w is the first of the least. */
  ghost predicate FirstLeast(seen: seq<int>, w: nat) {
    && w < |seen|
    && (forall j :: 0 <= j < |seen| ==> seen[w] <= seen[j])
    && (forall j :: 0 <= j < w ==> seen[w] < seen[j])
  }

  /** What a scan knows: the first of the least lengths read, if one is below SIZE_MAX. */
  ghost predicate Knows(seen: seq<int>, best: Option<nat>, least: int) {
    match best
    case None => least == SIZE_MAX && forall j :: 0 <= j < |seen| ==> seen[j] >= SIZE_MAX
    case Some(w) => FirstLeast(seen, w) && seen[w] == least < SIZE_MAX
  }

  /** What a call's program counter says of what it has seen. */
  ghost predicate ReadsOk(s: State, t: Task, seen: seq<int>)
    requires Sized(s)
  {
    if t >= |s.schedules| then seen == []
    else match s.schedules[t]
      case Scan(i, best, least) => i == |seen| <= |s.workers| && Knows(seen, best, least)
      case pc => |seen| == |s.workers| && FirstLeast(seen, pc.w) && seen[pc.w] < SIZE_MAX
  }

  lemma StepReads(s: State, a: Action, t: Task, seen: seq<int>)
    requires Sized(s) && Enabled(s, a) && ReadsOk(s, t, seen)
    ensures Sized(Next(s, a)) && ReadsOk(Next(s, a), t, WithRead(s, a, t, seen))
  {
    NextSized(s, a);
    hide Candidate, SignalChoice, NextWorker, NextWaiter, NextSchedule;
    match a
    case StepWorker(i, woken) => WorkerLeaves(s, i, woken);
    case StepSchedule(u) => if u == t { OwnStepReads(s, t, seen); } else { CallKeepsOthers(s, u, t); }
    case StepWaiter(k) => WaiterLeaves(s, k);
    case _ =>
  }

  lemma OwnStepReads(s: State, t: Task, seen: seq<int>)
    requires Sized(s) && Enabled(s, StepSchedule(t)) && ReadsOk(s, t, seen) && Sized(NextSchedule(s, t))
    ensures ReadsOk(NextSchedule(s, t), t, WithRead(s, StepSchedule(t), t, seen))
  {
  }

  lemma CallKeepsOthers(s: State, u: Task, t: Task)
    requires Sized(s) && Enabled(s, StepSchedule(u)) && t != u
    ensures |NextSchedule(s, u).schedules| == |s.schedules| && |NextSchedule(s, u).workers| == |s.workers|
    ensures t < |s.schedules| ==> NextSchedule(s, u).schedules[t] == s.schedules[t]
  {
  }

  lemma {:induction false} RunReads(s: State, actions: seq<Action>, t: Task, sofar: seq<int>)
    requires Sized(s) && Runs(s, actions) && ReadsOk(s, t, sofar)
    ensures ReadsOk(After(s, actions), t, Reads(s, actions, t, sofar))
    decreases actions
  {
    hide Next, Enabled, ReadsOk, WithRead;
    if actions != [] {
      StepReads(s, actions[0], t, sofar);
      RunReads(Next(s, actions[0]), actions[1..], t, WithRead(s, actions[0], t, sofar));
    }
  }

  /**
   * The choice, over every interleaving: a schedule call that has left its scan goes to, or has
   * gone to, the first of the workers for which it read the least queue_length.
   */
  lemma GoesToLeast(s: State, n: nat, actions: seq<Action>, t: Task)
    requires Reachable(s, n, actions) && t < |s.schedules| && !s.schedules[t].Scan?
    ensures var seen := Reads(Init(n), actions, t, []);
            && |seen| == n && s.schedules[t].w < n && seen[s.schedules[t].w] < 0xFFFF_FFFF_FFFF_FFFF
            && (forall j :: 0 <= j < n ==> seen[s.schedules[t].w] <= seen[j])
            && (forall j :: 0 <= j < s.schedules[t].w ==> seen[s.schedules[t].w] < seen[j])
  {
    RunReads(Init(n), actions, t, []);
  }

  /** No step of the run changes a queue_length. */
  ghost predicate Steady(s: State, actions: seq<Action>)
    requires Sized(s) && Runs(s, actions)
    decreases actions
  {
    actions == [] ||
    (NextSized(s, actions[0]); Next(s, actions[0]).lengths == s.lengths && Steady(Next(s, actions[0]), actions[1..]))
  }

  lemma {:induction false} SteadyReads(s: State, actions: seq<Action>, t: Task, sofar: seq<int>)
    requires Sized(s) && Runs(s, actions) && Steady(s, actions) && sofar <= s.lengths
    ensures Reads(s, actions, t, sofar) <= s.lengths
    decreases actions
  {
    hide Next, Enabled;
    if actions != [] {
      NextSized(s, actions[0]);
      SteadyReads(Next(s, actions[0]), actions[1..], t, WithRead(s, actions[0], t, sofar));
    }
  }

  /** While no queue_length changes, a new call that leaves its scan goes to the first shortest queue. */
  lemma GoesToShortest(s: State, actions: seq<Action>, t: Task)
    requires Sized(s) && t == |s.schedules| && Runs(s, actions) && Steady(s, actions)
    requires t < |After(s, actions).schedules| && !After(s, actions).schedules[t].Scan?
    ensures var w := After(s, actions).schedules[t].w;
            && w < |s.lengths|
            && (forall j :: 0 <= j < |s.lengths| ==> s.lengths[w] <= s.lengths[j])
            && (forall j :: 0 <= j < w ==> s.lengths[w] < s.lengths[j])
  {
    hide Next, Enabled;
    RunReads(s, actions, t, []);
    SteadyReads(s, actions, t, []);
  }
}
