/**
 * What each operation of the thread pool does from beginning to end when no other thread steps in
 * between: the whole state it leaves, stated over queues, counters and mutexes.
 */
module ThreadpoolSolo {
  import opened Seqs
  import opened ThreadpoolModel
  import opened ThreadpoolChoice

  /** The same action k times in a row leads from s to s'. */
  ghost predicate Alone(s: State, a: Action, k: nat, s': State)
    requires Sized(s)
    decreases k
  {
    if k == 0 then s' == s
    else Enabled(s, a) && (NextSized(s, a); Alone(Next(s, a), a, k - 1, s'))
  }

  ghost function Again(a: Action, k: nat): seq<Action> {
    if k == 0 then [] else [a] + Again(a, k - 1)
  }

  /** It is a run, and as each step has one outcome, the only one of its length. */
  lemma {:induction false} AloneRuns(s: State, a: Action, k: nat, s': State)
    requires Sized(s) && Alone(s, a, k, s')
    ensures Runs(s, Again(a, k)) && After(s, Again(a, k)) == s'
    decreases k
  {
    hide Next, Enabled;
    if k > 0 {
      NextSized(s, a);
      AloneRuns(Next(s, a), a, k - 1, s');
      assert Again(a, k)[1..] == Again(a, k - 1);
    }
  }

  // ----- looking for a task -----

  /** A worker looks into its own queue first. */
  lemma OwnQueueFirst(w: nat, n: nat)
    requires w < n
    ensures Candidate(w, 0, n) == w
  {
  }

  /** And into every queue exactly once, one after the other, from the last on to the first. */
  lemma EveryQueueOnce(w: nat, c: nat, n: nat)
    requires w < n && c < n
    ensures var i := if w <= c then c - w else c + n - w;
            i < n && Candidate(w, i, n) == c && forall j :: 0 <= j < n && Candidate(w, j, n) == c ==> j == i
  {
    forall j | 0 <= j < n
      ensures Candidate(w, j, n) == if j + w < n then j + w else j + w - n
    {
      WrapOnce(j + w, n);
    }
  }

  lemma WrapOnce(x: nat, n: nat)
    requires n > 0 && x < 2 * n
    ensures x % n == if x < n then x else x - n
  {
    if x >= n { assert x == n + (x - n); }
  }

  ghost predicate AllFree(s: State) {
    forall c :: 0 <= c < |s.queueLocks| ==> s.queueLocks[c] == None
  }

  /** The queue d places after worker i's own, round the end. */
  ghost function QueueAfter(queues: seq<seq<Task>>, i: nat, d: nat): seq<Task>
    requires |queues| > 0
  {
    queues[(i + d) % |queues|]
  }

  /** The state s but for the program counter of worker i and the holder of one queue's mutex. */
  ghost function At(s: State, i: nat, pc: WorkerPc, c: nat, holder: Option<Thread>): State
    requires Sized(s) && i < |s.workers| && c < |s.workers|
  {
    s.(workers := s.workers[i := pc], queueLocks := s.queueLocks[c := holder])
  }

  lemma Overwrite<T>(q: seq<T>, i: nat, x: T, y: T)
    requires i < |q|
    ensures q[i := x][i := y] == q[i := y] && q[i := q[i]] == q
  {
  }

  lemma Overwrites(s: State, i: nat, pc: WorkerPc, pc': WorkerPc, c: nat, holder: Option<Thread>,
                   holder': Option<Thread>)
    requires Sized(s) && i < |s.workers| && c < |s.workers|
    ensures Sized(At(s, i, pc, c, holder)) && At(At(s, i, pc, c, holder), i, pc', c, holder') ==
            At(s, i, pc', c, holder')
    ensures At(s, i, s.workers[i], c, s.queueLocks[c]) == s
    ensures Go(At(s, i, pc, c, holder), i, pc') == At(s, i, pc', c, holder)
    ensures SetQueueLock(At(s, i, pc, c, holder), c, holder') == At(s, i, pc, c, holder')
  {
    Overwrite(s.workers, i, pc, pc');
    Overwrite(s.queueLocks, c, holder, holder');
    Overwrite(s.queueLocks, c, holder, holder);
  }

  /** One step of worker i leads from s to s'. */
  ghost predicate Moves(s: State, i: nat, woken: set<nat>, s': State)
    requires Sized(s)
  {
    Enabled(s, StepWorker(i, woken)) && Next(s, StepWorker(i, woken)) == s'
  }

  lemma FindLockMoves(s: State, i: nat, j: nat, c: nat, woken: set<nat>)
    requires Sized(s) && i < |s.workers| && c == Candidate(i, j, |s.workers|)
    ensures Moves(At(s, i, FindLock(j), c, None), i, woken, At(s, i, FindPop(j), c, Some(W(i))))
  {
    Overwrites(s, i, FindLock(j), FindPop(j), c, None, Some(W(i)));
    hide Candidate;
  }

  lemma FindPopMisses(s: State, i: nat, j: nat, c: nat, woken: set<nat>)
    requires Sized(s) && i < |s.workers| && c == Candidate(i, j, |s.workers|) && s.queues[c] == []
    ensures Moves(At(s, i, FindPop(j), c, Some(W(i))), i, woken, At(s, i, FindUnlock(j, None), c, Some(W(i))))
  {
    Overwrites(s, i, FindPop(j), FindUnlock(j, None), c, Some(W(i)), Some(W(i)));
    hide Candidate;
  }

  lemma FindPopTakes(s: State, i: nat, j: nat, c: nat, woken: set<nat>)
    requires Sized(s) && i < |s.workers| && c == Candidate(i, j, |s.workers|) && s.queues[c] != []
    ensures Sized(Pop(s, c, i))
    ensures Moves(At(s, i, FindPop(j), c, Some(W(i))), i, woken,
                  At(Pop(s, c, i), i, FindSub(j, s.queues[c][0]), c, Some(W(i))))
  {
    Overwrites(s, i, FindPop(j), FindSub(j, s.queues[c][0]), c, Some(W(i)), Some(W(i)));
    hide Candidate;
  }

  ghost function Lowered(s: State, c: nat): State
    requires Sized(s) && c < |s.workers|
  {
    s.(lengths := s.lengths[c := s.lengths[c] - 1])
  }

  lemma FindSubMoves(s: State, i: nat, j: nat, c: nat, u: Task, woken: set<nat>)
    requires Sized(s) && i < |s.workers| && c == Candidate(i, j, |s.workers|)
    ensures Sized(Lowered(s, c))
    ensures Moves(At(s, i, FindSub(j, u), c, Some(W(i))), i, woken,
                  At(Lowered(s, c), i, FindUnlock(j, Some(u)), c, Some(W(i))))
  {
    Overwrites(s, i, FindSub(j, u), FindUnlock(j, Some(u)), c, Some(W(i)), Some(W(i)));
    hide Candidate;
  }

  lemma FindUnlockMoves(s: State, i: nat, j: nat, c: nat, found: Option<Task>, woken: set<nat>)
    requires Sized(s) && i < |s.workers| && c == Candidate(i, j, |s.workers|)
    ensures Moves(At(s, i, FindUnlock(j, found), c, Some(W(i))), i, woken, At(s, i,
                  if found.Some? then Running(found.value)
                  else if j + 1 < |s.workers| then FindLock(j + 1) else WaitLock, c, None))
  {
    Overwrites(s, i, FindUnlock(j, found), if found.Some? then Running(found.value)
                  else if j + 1 < |s.workers| then FindLock(j + 1) else WaitLock, c, Some(W(i)), None);
    hide Candidate;
  }

  // ----- the search as a whole -----

  ghost predicate Searching(pc: WorkerPc) {
    pc == Check || IsFind(pc)
  }

  /** Worker i alone takes k steps, to the first state in which its search has ended. */
  ghost predicate SearchEnds(s: State, i: nat, k: nat, s': State)
    requires Sized(s)
    decreases k
  {
    && i < |s.workers|
    && if !Searching(s.workers[i]) then k == 0 && s' == s
       else
         && k > 0 && Enabled(s, StepWorker(i, {}))
         && (NextSized(s, StepWorker(i, {})); SearchEnds(Next(s, StepWorker(i, {})), i, k - 1, s'))
  }

  lemma {:induction false} SearchEndsOnce(s: State, i: nat, k: nat, s': State, l: nat, s'': State)
    requires Sized(s) && SearchEnds(s, i, k, s') && SearchEnds(s, i, l, s'')
    ensures k == l && s' == s''
    decreases k
  {
    hide Next, Enabled, Searching;
    if Searching(s.workers[i]) {
      NextSized(s, StepWorker(i, {}));
      SearchEndsOnce(Next(s, StepWorker(i, {})), i, k - 1, s', l - 1, s'');
    }
  }

  lemma MoveThen(s: State, i: nat, m: State, k: nat, s': State)
    requires Sized(s) && i < |s.workers| && Searching(s.workers[i]) && Moves(s, i, {}, m)
    requires Sized(m) && SearchEnds(m, i, k, s')
    ensures SearchEnds(s, i, k + 1, s')
  {
    hide Next, Enabled, Searching;
  }

  lemma SearchOver(s: State, i: nat)
    requires Sized(s) && i < |s.workers| && !Searching(s.workers[i])
    ensures SearchEnds(s, i, 0, s)
  {
  }

  /** The state after worker i has taken the oldest task of queue c. */
  ghost function Took(s: State, i: nat, c: nat, pc: WorkerPc): State
    requires Sized(s) && i < |s.workers| && c < |s.workers| && s.queues[c] != []
  {
    s.(workers := s.workers[i := pc],
       queues := s.queues[c := s.queues[c][1..]], lengths := s.lengths[c := s.lengths[c] - 1],
       dequeued := s.dequeued[c := s.dequeued[c] + [s.queues[c][0]]], takenBy := s.takenBy[s.queues[c][0] := i])
  }

  lemma LooksInto(s: State, i: nat, j: nat)
    requires Sized(s) && i < |s.workers| && j < |s.workers| && s.workers[i] == FindLock(j)
    requires s.queueLocks[Candidate(i, j, |s.workers|)] == None && s.queues[Candidate(i, j, |s.workers|)] != []
    ensures var c := Candidate(i, j, |s.workers|);
            SearchEnds(s, i, 4, Took(s, i, c, Running(s.queues[c][0])))
  {
    var c := Candidate(i, j, |s.workers|);
    var u, h := s.queues[c][0], Some(W(i));
    TookIs(s, i, j, c);
    assert |s.workers| == |s.queues| && c < |s.workers|;
    hide *;
    var m, s' := Pop(s, c, i), Took(s, i, c, Running(u));
    FindLockMoves(s, i, j, c, {});
    FindPopTakes(s, i, j, c, {});
    FindSubMoves(m, i, j, c, u, {});
    FindUnlockMoves(Lowered(m, c), i, j, c, Some(u), {});
    AtMoveThen(Lowered(m, c), i, FindUnlock(j, Some(u)), c, h, s', 0, s');
    AtMoveThen(m, i, FindSub(j, u), c, h, At(Lowered(m, c), i, FindUnlock(j, Some(u)), c, h), 1, s');
    AtMoveThen(s, i, FindPop(j), c, h, At(m, i, FindSub(j, u), c, h), 2, s');
    AtMoveThen(s, i, FindLock(j), c, None, At(s, i, FindPop(j), c, h), 3, s');
  }

  lemma TookIs(s: State, i: nat, j: nat, c: nat)
    requires Sized(s) && i < |s.workers| && c < |s.workers| && s.queues[c] != [] && s.queueLocks[c] == None
    requires s.workers[i] == FindLock(j)
    ensures var u, m := s.queues[c][0], Pop(s, c, i);
            && Sized(m) && |m.workers| == |s.workers| && Sized(Lowered(m, c))
            && |Lowered(m, c).workers| == |s.workers|
            && Sized(At(Lowered(m, c), i, FindUnlock(j, Some(u)), c, Some(W(i))))
            && Sized(At(m, i, FindSub(j, u), c, Some(W(i)))) && Sized(At(s, i, FindPop(j), c, Some(W(i))))
            && At(Lowered(m, c), i, Running(u), c, None) == Took(s, i, c, Running(u))
            && At(s, i, FindLock(j), c, None) == s
            && SearchEnds(Took(s, i, c, Running(u)), i, 0, Took(s, i, c, Running(u)))
  {
    Overwrite(s.queueLocks, c, None, None);
    Overwrite(s.workers, i, FindLock(j), FindLock(j));
  }

  lemma AtMoveThen(s: State, i: nat, pc: WorkerPc, c: nat, holder: Option<Thread>, m: State, k: nat, s': State)
    requires Sized(s) && i < |s.workers| && c < |s.workers| && (pc == Check || IsFind(pc))
    requires Sized(At(s, i, pc, c, holder)) && Moves(At(s, i, pc, c, holder), i, {}, m)
    requires Sized(m) && SearchEnds(m, i, k, s')
    ensures SearchEnds(At(s, i, pc, c, holder), i, k + 1, s')
  {
    hide Next, Enabled;
  }

  lemma LooksPast(s: State, i: nat, j: nat, k: nat, s': State)
    requires Sized(s) && i < |s.workers| && j < |s.workers| && s.workers[i] == FindLock(j)
    requires s.queueLocks[Candidate(i, j, |s.workers|)] == None && s.queues[Candidate(i, j, |s.workers|)] == []
    requires Sized(Go(s, i, if j + 1 < |s.workers| then FindLock(j + 1) else WaitLock))
    requires SearchEnds(Go(s, i, if j + 1 < |s.workers| then FindLock(j + 1) else WaitLock), i, k, s')
    ensures SearchEnds(s, i, k + 3, s')
  {
    var c := Candidate(i, j, |s.workers|);
    var h, pc' := Some(W(i)), if j + 1 < |s.workers| then FindLock(j + 1) else WaitLock;
    FindLockMoves(s, i, j, c, {});
    FindPopMisses(s, i, j, c, {});
    FindUnlockMoves(s, i, j, c, None, {});
    Overwrites(s, i, FindLock(j), FindLock(j), c, None, None);
    hide Candidate, Next, Enabled, Moves, SearchEnds;
    Overwrite(s.queueLocks, c, None, None);
    assert At(s, i, pc', c, None) == Go(s, i, pc');
    MoveThen(At(s, i, FindUnlock(j, None), c, h), i, At(s, i, pc', c, None), k, s');
    MoveThen(At(s, i, FindPop(j), c, h), i, At(s, i, FindUnlock(j, None), c, h), k + 1, s');
    MoveThen(s, i, At(s, i, FindPop(j), c, h), k + 2, s');
  }

  lemma CandidateIs(s: State, i: nat, j: nat)
    requires Sized(s)
    ensures (i + j) % |s.workers| == Candidate(i, j, |s.workers|)
    ensures QueueAfter(s.queues, i, j) == s.queues[Candidate(i, j, |s.workers|)]
  {
    assert i + j == j + i;
  }

  lemma {:induction false} SearchFinds(s: State, i: nat, j: nat, d: nat)
    requires Sized(s) && i < |s.workers| && s.workers[i] == FindLock(j) && AllFree(s) && j <= d < |s.workers|
    requires QueueAfter(s.queues, i, d) != [] && forall e :: j <= e < d ==> QueueAfter(s.queues, i, e) == []
    ensures SearchEnds(s, i, 3 * (d - j) + 4, TookAfter(s, i, d))
    decreases d - j
  {
    CandidateIs(s, i, j);
    hide Candidate, SearchEnds, Took;
    if j == d {
      LooksInto(s, i, j);
    } else {
      assert QueueAfter(s.queues, i, j) == [];
      SearchFinds(Go(s, i, FindLock(j + 1)), i, j + 1, d);
      TookFrom(s, i, FindLock(j + 1), d);
      hide QueueAfter, AllFree, TookAfter;
      LooksPast(s, i, j, 3 * (d - j - 1) + 4, TookAfter(s, i, d));
    }
  }

  /** The state after worker i has taken the oldest task of the queue d places after its own. */
  ghost function TookAfter(s: State, i: nat, d: nat): State
    requires Sized(s) && i < |s.workers| && d < |s.workers| && QueueAfter(s.queues, i, d) != []
  {
    Took(s, i, (i + d) % |s.workers|, Running(QueueAfter(s.queues, i, d)[0]))
  }

  lemma TookFrom(s: State, i: nat, pc: WorkerPc, d: nat)
    requires Sized(s) && i < |s.workers| && d < |s.workers| && QueueAfter(s.queues, i, d) != []
    ensures Sized(Go(s, i, pc)) && TookAfter(Go(s, i, pc), i, d) == TookAfter(s, i, d)
  {
    Overwrite(s.workers, i, pc, Running(QueueAfter(s.queues, i, d)[0]));
  }

  lemma {:induction false} SearchMisses(s: State, i: nat, j: nat)
    requires Sized(s) && i < |s.workers| && s.workers[i] == FindLock(j) && AllFree(s) && j < |s.workers|
    requires forall e :: j <= e < |s.workers| ==> QueueAfter(s.queues, i, e) == []
    ensures SearchEnds(s, i, 3 * (|s.workers| - j), Go(s, i, WaitLock))
    decreases |s.workers| - j
  {
    CandidateIs(s, i, j);
    assert QueueAfter(s.queues, i, j) == [];
    hide Candidate, SearchEnds, QueueAfter;
    var pc := if j + 1 < |s.workers| then FindLock(j + 1) else WaitLock;
    Overwrite(s.workers, i, pc, WaitLock);
    assert Go(Go(s, i, pc), i, WaitLock) == Go(s, i, WaitLock);
    if j + 1 == |s.workers| {
      SearchOver(Go(s, i, WaitLock), i);
    } else {
      SearchMisses(Go(s, i, pc), i, j + 1);
    }
    hide AllFree;
    LooksPast(s, i, j, 3 * (|s.workers| - j - 1), Go(s, i, WaitLock));
  }

  /** d is the number of queues, from worker i's own on and round the end, before the first that is not empty. */
  ghost predicate FirstFull(queues: seq<seq<Task>>, i: nat, d: nat) {
    d < |queues| && QueueAfter(queues, i, d) != [] && forall e :: 0 <= e < d ==> QueueAfter(queues, i, e) == []
  }

  lemma CheckMoves(s: State, i: nat, pc: WorkerPc)
    requires Sized(s) && i < |s.workers| && s.workers[i] == Check
    requires pc == if s.running then FindLock(0) else Exited
    ensures Moves(s, i, {}, Go(s, i, pc)) && Sized(Go(s, i, pc))
  {
  }

  /** A worker with every mutex free to it takes the oldest task of the first queue that is not empty. */
  lemma SearchTakes(s: State, i: nat, d: nat)
    requires Sized(s) && i < |s.workers| && s.workers[i] == Check && s.running && AllFree(s)
             && FirstFull(s.queues, i, d)
    ensures SearchEnds(s, i, 3 * d + 5, TookAfter(s, i, d))
  {
    var m := Go(s, i, FindLock(0));
    CheckMoves(s, i, FindLock(0));
    SearchFinds(m, i, 0, d);
    TookFrom(s, i, FindLock(0), d);
    hide Candidate, SearchEnds, Took, Moves;
    MoveThen(s, i, m, 3 * d + 4, TookAfter(s, i, d));
  }

  lemma SearchWaits(s: State, i: nat)
    requires Sized(s) && i < |s.workers| && s.workers[i] == Check && s.running && AllFree(s)
    requires forall e :: 0 <= e < |s.workers| ==> QueueAfter(s.queues, i, e) == []
    ensures SearchEnds(s, i, 3 * |s.workers| + 1, Go(s, i, WaitLock))
  {
    var m := Go(s, i, FindLock(0));
    CheckMoves(s, i, FindLock(0));
    SearchMisses(m, i, 0);
    Overwrite(s.workers, i, FindLock(0), WaitLock);
    assert Go(m, i, WaitLock) == Go(s, i, WaitLock);
    hide Candidate, SearchEnds, Moves;
    MoveThen(s, i, m, 3 * |s.workers|, Go(s, i, WaitLock));
  }

  lemma EveryQueueSeen(s: State, i: nat)
    requires Sized(s) && i < |s.workers|
    ensures (forall c :: 0 <= c < |s.queues| ==> s.queues[c] == []) <==>
            forall d :: 0 <= d < |s.workers| ==> QueueAfter(s.queues, i, d) == []
  {
    if forall d :: 0 <= d < |s.workers| ==> QueueAfter(s.queues, i, d) == [] {
      forall c | 0 <= c < |s.queues|
        ensures s.queues[c] == []
      {
        EveryQueueOnce(i, c, |s.workers|);
        var d := if i <= c then c - i else c + |s.workers| - i;
        CandidateIs(s, i, d);
        assert QueueAfter(s.queues, i, d) == [];
      }
    }
  }

  lemma {:induction false} SomeFirst(queues: seq<seq<Task>>, i: nat, from: nat) returns (d: nat)
    requires from < |queues| && QueueAfter(queues, i, from) != []
    ensures FirstFull(queues, i, d)
    decreases from
  {
    if forall e :: 0 <= e < from ==> QueueAfter(queues, i, e) == [] {
      return from;
    }
    var e :| 0 <= e < from && QueueAfter(queues, i, e) != [];
    d := SomeFirst(queues, i, e);
  }

  /**
   * The search of a worker, own queue first, the others in turn: alone in a running pool with all
   * queue mutexes free it ends, waiting if and only if all queues are empty, and otherwise running
   * the oldest task of the first queue that is not empty.
   */
  lemma Search(s: State, i: nat) returns (k: nat, s': State)
    requires Sized(s) && i < |s.workers| && s.workers[i] == Check && s.running && AllFree(s)
    ensures SearchEnds(s, i, k, s') && i < |s'.workers|
    ensures s'.workers[i] == WaitLock <==> forall c :: 0 <= c < |s.queues| ==> s.queues[c] == []
    ensures s'.workers[i] == WaitLock ==> s' == Go(s, i, WaitLock)
    ensures s'.workers[i] != WaitLock ==>
              exists d :: FirstFull(s.queues, i, d) && s' == TookAfter(s, i, d)
  {
    EveryQueueSeen(s, i);
    if forall d :: 0 <= d < |s.workers| ==> QueueAfter(s.queues, i, d) == [] {
      SearchWaits(s, i);
      return 3 * |s.workers| + 1, Go(s, i, WaitLock);
    }
    var from :| 0 <= from < |s.workers| && QueueAfter(s.queues, i, from) != [];
    var d := SomeFirst(s.queues, i, from);
    SearchTakes(s, i, d);
    return 3 * d + 5, TookAfter(s, i, d);
  }

  // ----- waiting for a task -----

  /** One step of worker i in the form above. */
  lemma AtStep(s: State, i: nat, woken: set<nat>, pc: WorkerPc, c: nat, holder: Option<Thread>, m: State, k: nat,
               s': State)
    requires Sized(s) && i < |s.workers| && c < |s.workers|
    requires Sized(At(s, i, pc, c, holder)) && Moves(At(s, i, pc, c, holder), i, woken, m)
    requires Sized(m) && Alone(m, StepWorker(i, woken), k, s')
    ensures Alone(At(s, i, pc, c, holder), StepWorker(i, woken), k + 1, s')
  {
    hide Next, Enabled;
  }

  lemma WaitLockMoves(s: State, i: nat)
    requires Sized(s) && i < |s.workers|
    ensures Moves(At(s, i, WaitLock, i, None), i, {}, At(s, i, WaitPop, i, Some(W(i))))
  {
    Overwrites(s, i, WaitLock, WaitPop, i, None, Some(W(i)));
  }

  lemma WaitPopMisses(s: State, i: nat)
    requires Sized(s) && i < |s.workers| && s.queues[i] == []
    ensures Moves(At(s, i, WaitPop, i, Some(W(i))), i, {}, At(s, i, WaitTest(None), i, Some(W(i))))
  {
    Overwrites(s, i, WaitPop, WaitTest(None), i, Some(W(i)), Some(W(i)));
  }

  lemma WaitPopTakes(s: State, i: nat)
    requires Sized(s) && i < |s.workers| && s.queues[i] != []
    ensures Sized(Pop(s, i, i))
    ensures Moves(At(s, i, WaitPop, i, Some(W(i))), i, {},
                  At(Pop(s, i, i), i, WaitSub(s.queues[i][0]), i, Some(W(i))))
  {
    Overwrites(s, i, WaitPop, WaitSub(s.queues[i][0]), i, Some(W(i)), Some(W(i)));
  }

  lemma WaitSubMoves(s: State, i: nat, u: Task)
    requires Sized(s) && i < |s.workers|
    ensures Sized(Lowered(s, i))
    ensures Moves(At(s, i, WaitSub(u), i, Some(W(i))), i, {},
                  At(Lowered(s, i), i, WaitTest(Some(u)), i, Some(W(i))))
  {
    Overwrites(s, i, WaitSub(u), WaitTest(Some(u)), i, Some(W(i)), Some(W(i)));
  }

  lemma WaitTestMoves(s: State, i: nat, found: Option<Task>, pc: WorkerPc)
    requires Sized(s) && i < |s.workers|
    requires pc == if found == None && s.running then WaitSleep else WaitUnlock(found)
    ensures Moves(At(s, i, WaitTest(found), i, Some(W(i))), i, {}, At(s, i, pc, i, Some(W(i))))
  {
    Overwrites(s, i, WaitTest(found), pc, i, Some(W(i)), Some(W(i)));
  }

  lemma WaitEndMoves(s: State, i: nat, pc: WorkerPc, pc': WorkerPc)
    requires Sized(s) && i < |s.workers|
    requires || (pc == WaitSleep && pc' == Asleep(false))
             || (pc == WaitUnlock(None) && pc' == Check)
             || (pc.WaitUnlock? && pc.found.Some? && pc' == Running(pc.found.value))
    ensures Moves(At(s, i, pc, i, Some(W(i))), i, {}, At(s, i, pc', i, None))
  {
    Overwrites(s, i, pc, pc', i, Some(W(i)), None);
  }

  /** The states in this form that a worker at WaitLock passes are all states of the pool. */
  lemma AtStart(s: State, i: nat, pc: WorkerPc)
    requires Sized(s) && i < |s.workers| && s.queueLocks[i] == None
    ensures forall x, h :: Sized(At(s, i, x, i, h)) && |At(s, i, x, i, h).workers| == |s.workers|
    ensures At(s, i, s.workers[i], i, None) == s && At(s, i, pc, i, None) == Go(s, i, pc)
    ensures Alone(Go(s, i, pc), StepWorker(i, {}), 0, Go(s, i, pc))
  {
    Overwrite(s.queueLocks, i, None, None);
    Overwrite(s.workers, i, pc, pc);
  }

  /** A worker that finds its own queue empty goes to sleep in a running pool, and else looks at running again. */
  lemma WaitMisses(s: State, i: nat)
    requires Sized(s) && i < |s.workers| && s.workers[i] == WaitLock && s.queueLocks[i] == None && s.queues[i] == []
    ensures Alone(s, StepWorker(i, {}), 4, Go(s, i, if s.running then Asleep(false) else Check))
  {
    var h, last := Some(W(i)), if s.running then Asleep(false) else Check;
    var pc := if s.running then WaitSleep else WaitUnlock(None);
    AtStart(s, i, last);
    hide *;
    WaitLockMoves(s, i);
    WaitPopMisses(s, i);
    WaitTestMoves(s, i, None, pc);
    WaitEndMoves(s, i, pc, last);
    AtStep(s, i, {}, pc, i, h, Go(s, i, last), 0, Go(s, i, last));
    AtStep(s, i, {}, WaitTest(None), i, h, At(s, i, pc, i, h), 1, Go(s, i, last));
    AtStep(s, i, {}, WaitPop, i, h, At(s, i, WaitTest(None), i, h), 2, Go(s, i, last));
    AtStep(s, i, {}, WaitLock, i, None, At(s, i, WaitPop, i, h), 3, Go(s, i, last));
  }

  /** A worker that finds a task in its own queue runs it. */
  lemma WaitTakes(s: State, i: nat)
    requires Sized(s) && i < |s.workers| && s.workers[i] == WaitLock && s.queueLocks[i] == None && s.queues[i] != []
    ensures Alone(s, StepWorker(i, {}), 5, Took(s, i, i, Running(s.queues[i][0])))
  {
    var u, h := s.queues[i][0], Some(W(i));
    TookInWait(s, i);
    hide *;
    var m, s' := Pop(s, i, i), Took(s, i, i, Running(u));
    WaitLockMoves(s, i);
    WaitPopTakes(s, i);
    WaitSubMoves(m, i, u);
    WaitTestMoves(Lowered(m, i), i, Some(u), WaitUnlock(Some(u)));
    WaitEndMoves(Lowered(m, i), i, WaitUnlock(Some(u)), Running(u));
    AtStep(Lowered(m, i), i, {}, WaitUnlock(Some(u)), i, h, s', 0, s');
    AtStep(Lowered(m, i), i, {}, WaitTest(Some(u)), i, h, At(Lowered(m, i), i, WaitUnlock(Some(u)), i, h), 1, s');
    AtStep(m, i, {}, WaitSub(u), i, h, At(Lowered(m, i), i, WaitTest(Some(u)), i, h), 2, s');
    AtStep(s, i, {}, WaitPop, i, h, At(m, i, WaitSub(u), i, h), 3, s');
    AtStep(s, i, {}, WaitLock, i, None, At(s, i, WaitPop, i, h), 4, s');
  }

  lemma TookInWait(s: State, i: nat)
    requires Sized(s) && i < |s.workers| && s.workers[i] == WaitLock && s.queueLocks[i] == None && s.queues[i] != []
    ensures var u, m := s.queues[i][0], Pop(s, i, i);
            && Sized(m) && |m.workers| == |s.workers| && Sized(Lowered(m, i)) && |Lowered(m, i).workers| == |s.workers|
            && (forall x, h :: Sized(At(s, i, x, i, h)) && Sized(At(m, i, x, i, h)))
            && (forall x, h :: Sized(At(Lowered(m, i), i, x, i, h)))
            && At(Lowered(m, i), i, Running(u), i, None) == Took(s, i, i, Running(u))
            && At(s, i, WaitLock, i, None) == s
            && Alone(Took(s, i, i, Running(u)), StepWorker(i, {}), 0, Took(s, i, i, Running(u)))
  {
    Overwrite(s.queueLocks, i, None, None);
    Overwrite(s.workers, i, WaitLock, WaitLock);
  }

  /** A worker woken up looks into its own queue again, if it can have the mutex. */
  lemma WakesUp(s: State, i: nat)
    requires Sized(s) && i < |s.workers| && s.workers[i].Asleep?
    ensures Enabled(s, StepWorker(i, {})) && Next(s, StepWorker(i, {})) == Go(s, i, WaitLock)
  {
  }

  // ----- settling a task -----

  /** The state s but for the program counter of worker i and the holder of the wait mutex. */
  ghost function Inside(s: State, i: nat, pc: WorkerPc, holder: Option<Thread>): State
    requires i < |s.workers|
  {
    s.(workers := s.workers[i := pc], waitLock := holder)
  }

  lemma Insides(s: State, i: nat, pc: WorkerPc, pc': WorkerPc, holder: Option<Thread>, holder': Option<Thread>)
    requires i < |s.workers|
    ensures Go(Inside(s, i, pc, holder), i, pc') == Inside(s, i, pc', holder)
    ensures Inside(Inside(s, i, pc, holder), i, pc', holder') == Inside(s, i, pc', holder')
  {
    Overwrite(s.workers, i, pc, pc');
  }

  lemma RunMoves(s: State, i: nat, t: Task, woken: set<nat>)
    requires Sized(s) && i < |s.workers| && s.workers[i] == Running(t)
    ensures Moves(s, i, woken, Inside(s.(ran := s.ran + [t]), i, DoneLock(t), s.waitLock))
  {
  }

  lemma DoneLockMoves(s: State, i: nat, t: Task, woken: set<nat>)
    requires Sized(s) && i < |s.workers|
    ensures Moves(Inside(s, i, DoneLock(t), None), i, woken, Inside(s, i, DoneSub(t), Some(W(i))))
  {
    Insides(s, i, DoneLock(t), DoneSub(t), None, Some(W(i)));
  }

  lemma DoneSubMoves(s: State, i: nat, t: Task, woken: set<nat>)
    requires Sized(s) && i < |s.workers|
    ensures Moves(Inside(s, i, DoneSub(t), Some(W(i))), i, woken,
                  Inside(s.(active := s.active - 1, counted := s.counted - {t}), i,
                         if s.active == 1 then DoneSignal else DoneUnlock, Some(W(i))))
  {
    Insides(s, i, DoneSub(t), if s.active == 1 then DoneSignal else DoneUnlock, Some(W(i)), Some(W(i)));
  }

  lemma DoneSignalMoves(s: State, i: nat, woken: set<nat>)
    requires Sized(s) && i < |s.workers| && SignalChoice(s, woken)
    ensures Moves(Inside(s, i, DoneSignal, Some(W(i))), i, woken,
                  Inside(s.(waiters := Wake(s.waiters, woken)), i, DoneUnlock, Some(W(i))))
  {
    Insides(s, i, DoneSignal, DoneUnlock, Some(W(i)), Some(W(i)));
    assert forall k :: Unsignalled(Inside(s, i, DoneSignal, Some(W(i))), k) <==> Unsignalled(s, k);
  }

  lemma DoneUnlockMoves(s: State, i: nat, woken: set<nat>)
    requires Sized(s) && i < |s.workers|
    ensures Moves(Inside(s, i, DoneUnlock, Some(W(i))), i, woken, Inside(s, i, Check, None))
  {
    Insides(s, i, DoneUnlock, Check, Some(W(i)), None);
  }

  lemma InsideStep(s: State, i: nat, woken: set<nat>, pc: WorkerPc, holder: Option<Thread>, m: State, k: nat, s': State)
    requires Sized(s) && i < |s.workers|
    requires Sized(Inside(s, i, pc, holder)) && Moves(Inside(s, i, pc, holder), i, woken, m)
    requires Sized(m) && Alone(m, StepWorker(i, woken), k, s')
    ensures Alone(Inside(s, i, pc, holder), StepWorker(i, woken), k + 1, s')
  {
    hide Next, Enabled;
  }

  /** The state after worker i has settled task t. */
  ghost function Settled(s: State, i: nat, t: Task, woken: set<nat>): State
    requires i < |s.workers|
  {
    s.(workers := s.workers[i := Check], ran := s.ran + [t], counted := s.counted - {t}, active := s.active - 1,
       waiters := if s.active == 1 then Wake(s.waiters, woken) else s.waiters)
  }

  lemma SettledStates(s: State, i: nat, t: Task, woken: set<nat>)
    requires Sized(s) && i < |s.workers| && s.workers[i] == Running(t) && s.waitLock == None && SignalChoice(s, woken)
    ensures var r := s.(ran := s.ran + [t]);
            var m := r.(active := r.active - 1, counted := r.counted - {t});
            var v := m.(waiters := Wake(m.waiters, woken));
            && Sized(r) && Sized(m) && Sized(v) && SignalChoice(m, woken)
            && (forall x, h :: Sized(Inside(r, i, x, h)) && Sized(Inside(m, i, x, h)) && Sized(Inside(v, i, x, h)))
            && Inside(if s.active == 1 then v else m, i, Check, None) == Settled(s, i, t, woken)
            && Alone(Settled(s, i, t, woken), StepWorker(i, woken), 0, Settled(s, i, t, woken))
  {
    var m := s.(active := s.active - 1, counted := s.counted - {t}, ran := s.ran + [t]);
    assert forall k :: Unsignalled(m, k) <==> Unsignalled(s, k);
  }

  /**
   * A worker whose task's function returns takes the task off active_tasks, signals the waiters if
   * and only if it was the last, and looks at running again.
   */
  lemma Settles(s: State, i: nat, t: Task, woken: set<nat>)
    requires Sized(s) && i < |s.workers| && s.workers[i] == Running(t) && s.waitLock == None && SignalChoice(s, woken)
    ensures Alone(s, StepWorker(i, woken), if s.active == 1 then 5 else 4, Settled(s, i, t, woken))
  {
    SettledStates(s, i, t, woken);
    var h, s' := Some(W(i)), Settled(s, i, t, woken);
    var r := s.(ran := s.ran + [t]);
    var m := r.(active := r.active - 1, counted := r.counted - {t});
    var v := m.(waiters := Wake(m.waiters, woken));
    hide *;
    RunMoves(s, i, t, woken);
    DoneLockMoves(r, i, t, woken);
    DoneSubMoves(r, i, t, woken);
    if s.active == 1 {
      DoneSignalMoves(m, i, woken);
      DoneUnlockMoves(v, i, woken);
      InsideStep(v, i, woken, DoneUnlock, h, s', 0, s');
      InsideStep(m, i, woken, DoneSignal, h, Inside(v, i, DoneUnlock, h), 1, s');
      InsideStep(r, i, woken, DoneSub(t), h, Inside(m, i, DoneSignal, h), 2, s');
      InsideStep(r, i, woken, DoneLock(t), None, Inside(r, i, DoneSub(t), h), 3, s');
      FirstStep(s, i, woken, Inside(r, i, DoneLock(t), None), 4, s');
    } else {
      DoneUnlockMoves(m, i, woken);
      InsideStep(m, i, woken, DoneUnlock, h, s', 0, s');
      InsideStep(r, i, woken, DoneSub(t), h, Inside(m, i, DoneUnlock, h), 1, s');
      InsideStep(r, i, woken, DoneLock(t), None, Inside(r, i, DoneSub(t), h), 2, s');
      FirstStep(s, i, woken, Inside(r, i, DoneLock(t), None), 3, s');
    }
  }

  lemma FirstStep(s: State, i: nat, woken: set<nat>, m: State, k: nat, s': State)
    requires Sized(s) && Moves(s, i, woken, m) && Sized(m) && Alone(m, StepWorker(i, woken), k, s')
    ensures Alone(s, StepWorker(i, woken), k + 1, s')
  {
    hide Next, Enabled;
  }

  // ----- scheduling a task -----

  ghost predicate CallMoves(s: State, t: Task, s': State)
    requires Sized(s)
  {
    Enabled(s, StepSchedule(t)) && Next(s, StepSchedule(t)) == s'
  }

  lemma CallThen(s: State, t: Task, m: State, k: nat, s': State)
    requires Sized(s) && CallMoves(s, t, m) && Sized(m) && Alone(m, StepSchedule(t), k, s')
    ensures Alone(s, StepSchedule(t), k + 1, s')
  {
    hide Next, Enabled;
  }

  /** One step of a scan. */
  lemma ScanMoves(s: State, t: Task, w: nat) returns (pc: SchedulePc)
    requires Sized(s) && t < |s.schedules| && s.schedules[t].Scan? && s.schedules[t].i < |s.workers|
    requires Knows(s.lengths[..s.schedules[t].i], s.schedules[t].best, s.schedules[t].least)
    ensures pc.Scan? && pc.i == s.schedules[t].i + 1 && Knows(s.lengths[..pc.i], pc.best, pc.least)
    ensures CallMoves(s, t, GoSchedule(s, t, pc)) && Sized(GoSchedule(s, t, pc))
    ensures GoSchedule(GoSchedule(s, t, pc), t, Lock(w)) == GoSchedule(s, t, Lock(w))
  {
    pc := NextSchedule(s, t).schedules[t];
    var i := s.schedules[t].i;
    assert s.lengths[..i + 1] == s.lengths[..i] + [s.lengths[i]];
    Overwrite(s.schedules, t, pc, Lock(w));
  }

  lemma ScanLeaves(s: State, t: Task, w: nat)
    requires Sized(s) && t < |s.schedules| && s.schedules[t].Scan? && s.schedules[t].i == |s.workers|
    requires Knows(s.lengths[..s.schedules[t].i], s.schedules[t].best, s.schedules[t].least)
    requires FirstLeast(s.lengths, w) && s.lengths[w] < SIZE_MAX
    ensures CallMoves(s, t, GoSchedule(s, t, Lock(w))) && Sized(GoSchedule(s, t, Lock(w)))
  {
    assert s.lengths[..|s.workers|] == s.lengths;
    assert s.schedules[t].best == Some(w);
  }

  /** The scan of a call with nobody in between chooses the first of the shortest queues. */
  lemma {:induction false} ScanAlone(s: State, t: Task, w: nat, k: nat, s': State)
    requires Sized(s) && t < |s.schedules| && s.schedules[t].Scan? && s.schedules[t].i <= |s.workers|
    requires Knows(s.lengths[..s.schedules[t].i], s.schedules[t].best, s.schedules[t].least)
    requires FirstLeast(s.lengths, w) && s.lengths[w] < SIZE_MAX
    requires Sized(GoSchedule(s, t, Lock(w))) && Alone(GoSchedule(s, t, Lock(w)), StepSchedule(t), k, s')
    ensures Alone(s, StepSchedule(t), |s.workers| - s.schedules[t].i + 1 + k, s')
    decreases |s.workers| - s.schedules[t].i
  {
    hide Knows, FirstLeast, CallMoves, Alone;
    if s.schedules[t].i == |s.workers| {
      ScanLeaves(s, t, w);
      CallThen(s, t, GoSchedule(s, t, Lock(w)), k, s');
    } else {
      var pc := ScanMoves(s, t, w);
      var m := GoSchedule(s, t, pc);
      ScanAlone(m, t, w, k, s');
      CallThen(s, t, m, |s.workers| - s.schedules[t].i + k, s');
    }
  }

  /** The state s but for the program counter of call t and the holder of queue w's mutex. */
  ghost function Calling(s: State, t: Task, pc: SchedulePc, w: nat, holder: Option<Thread>): State
    requires Sized(s) && t < |s.schedules| && w < |s.workers|
  {
    s.(schedules := s.schedules[t := pc], queueLocks := s.queueLocks[w := holder])
  }

  lemma Callings(s: State, t: Task, pc: SchedulePc, pc': SchedulePc, w: nat, holder: Option<Thread>,
                 holder': Option<Thread>)
    requires Sized(s) && t < |s.schedules| && w < |s.workers|
    ensures GoSchedule(Calling(s, t, pc, w, holder), t, pc') == Calling(s, t, pc', w, holder)
    ensures SetQueueLock(Calling(s, t, pc, w, holder), w, holder') == Calling(s, t, pc, w, holder')
    ensures Sized(Calling(s, t, pc, w, holder))
  {
    Overwrite(s.schedules, t, pc, pc');
    Overwrite(s.queueLocks, w, holder, holder');
  }

  lemma LockMoves(s: State, t: Task, w: nat)
    requires Sized(s) && t < |s.schedules| && w < |s.workers|
    ensures CallMoves(Calling(s, t, Lock(w), w, None), t, Calling(s, t, Link(w), w, Some(S(t))))
  {
    Callings(s, t, Lock(w), Link(w), w, None, Some(S(t)));
    Callings(s, t, Lock(w), Link(w), w, Some(S(t)), Some(S(t)));
  }

  lemma LinkMoves(s: State, t: Task, w: nat)
    requires Sized(s) && t < |s.schedules| && w < |s.workers|
    ensures CallMoves(Calling(s, t, Link(w), w, Some(S(t))), t,
                      Calling(s.(queues := s.queues[w := s.queues[w] + [t]],
                                 enqueued := s.enqueued[w := s.enqueued[w] + [t]]), t, AddActive(w), w, Some(S(t))))
  {
    Callings(s, t, Link(w), AddActive(w), w, Some(S(t)), Some(S(t)));
  }

  lemma AddMoves(s: State, t: Task, w: nat)
    requires Sized(s) && t < |s.schedules| && w < |s.workers|
    ensures CallMoves(Calling(s, t, AddActive(w), w, Some(S(t))), t,
                      Calling(s.(active := s.active + 1, counted := s.counted + {t}), t, AddLength(w), w, Some(S(t))))
    ensures CallMoves(Calling(s, t, AddLength(w), w, Some(S(t))), t,
                      Calling(s.(lengths := s.lengths[w := s.lengths[w] + 1]), t, Signal(w), w, Some(S(t))))
  {
    Callings(s, t, AddActive(w), AddLength(w), w, Some(S(t)), Some(S(t)));
    Callings(s, t, AddLength(w), Signal(w), w, Some(S(t)), Some(S(t)));
  }

  lemma SignalMoves(s: State, t: Task, w: nat)
    requires Sized(s) && t < |s.schedules| && w < |s.workers|
    ensures CallMoves(Calling(s, t, Signal(w), w, Some(S(t))), t, Calling(Woken(s, w), t, Unlock(w), w, Some(S(t))))
    ensures CallMoves(Calling(s, t, Unlock(w), w, Some(S(t))), t, Calling(s, t, Returned(w), w, None))
  {
    Callings(s, t, Signal(w), Unlock(w), w, Some(S(t)), Some(S(t)));
    Callings(s, t, Unlock(w), Returned(w), w, Some(S(t)), None);
    Callings(s, t, Unlock(w), Returned(w), w, None, None);
    Overwrite(s.workers, w, s.workers[w], s.workers[w]);
  }

  /** Worker w, if asleep, has been signalled. */
  ghost function Woken(s: State, w: nat): State
    requires w < |s.workers|
  {
    s.(workers := s.workers[w := if s.workers[w] == Asleep(false) then Asleep(true) else s.workers[w]])
  }

  /** The state after call t has linked its task to queue w, counted it and signalled worker w. */
  ghost function Scheduled(s: State, t: Task, w: nat): State
    requires Sized(s) && t < |s.schedules| && w < |s.workers|
  {
    s.(schedules := s.schedules[t := Returned(w)],
       queues := s.queues[w := s.queues[w] + [t]], enqueued := s.enqueued[w := s.enqueued[w] + [t]],
       active := s.active + 1, counted := s.counted + {t}, lengths := s.lengths[w := s.lengths[w] + 1],
       workers := s.workers[w := if s.workers[w] == Asleep(false) then Asleep(true) else s.workers[w]])
  }

  /** The end of a call: queue_length, the signal and the mutex. */
  lemma SignalAlone(s: State, t: Task, w: nat)
    requires Sized(s) && t < |s.schedules| && w < |s.workers|
    ensures var l := s.(lengths := s.lengths[w := s.lengths[w] + 1]);
            && Sized(Calling(s, t, AddLength(w), w, Some(S(t))))
            && Alone(Calling(s, t, AddLength(w), w, Some(S(t))), StepSchedule(t), 3,
                     Calling(Woken(l, w), t, Returned(w), w, None))
  {
    var l := s.(lengths := s.lengths[w := s.lengths[w] + 1]);
    var x, h := Woken(l, w), Some(S(t));
    assert Sized(l) && Sized(x) && |l.workers| == |x.workers| == |s.workers|;
    CallingSized(s, t, AddLength(w), w, h);
    CallingSized(l, t, Signal(w), w, h);
    CallingSized(x, t, Unlock(w), w, h);
    CallingSized(x, t, Returned(w), w, None);
    assert l.schedules == s.schedules && x.schedules == s.schedules;
    var s' := Calling(x, t, Returned(w), w, None);
    assert Alone(s', StepSchedule(t), 0, s');
    hide *;
    AddMoves(s, t, w);
    SignalMoves(l, t, w);
    SignalMoves(x, t, w);
    CallThen(Calling(x, t, Unlock(w), w, h), t, s', 0, s');
    CallThen(Calling(l, t, Signal(w), w, h), t, Calling(x, t, Unlock(w), w, h), 1, s');
    CallThen(Calling(s, t, AddLength(w), w, h), t, Calling(l, t, Signal(w), w, h), 2, s');
  }

  lemma CallingSized(s: State, t: Task, pc: SchedulePc, w: nat, holder: Option<Thread>)
    requires Sized(s) && t < |s.schedules| && w < |s.workers|
    ensures Sized(Calling(s, t, pc, w, holder))
  {
  }

  /** A call that has linked its task counts it and signals. */
  lemma CountAlone(s: State, t: Task, w: nat)
    requires Sized(s) && t < |s.schedules| && w < |s.workers|
    ensures var l := s.(active := s.active + 1, counted := s.counted + {t},
                        lengths := s.lengths[w := s.lengths[w] + 1]);
            && Sized(Calling(s, t, AddActive(w), w, Some(S(t))))
            && Alone(Calling(s, t, AddActive(w), w, Some(S(t))), StepSchedule(t), 4,
                     Calling(Woken(l, w), t, Returned(w), w, None))
  {
    var a := s.(active := s.active + 1, counted := s.counted + {t});
    SignalAlone(a, t, w);
    CallingSized(s, t, AddActive(w), w, Some(S(t)));
    AddMoves(s, t, w);
    hide *;
    CallThen(Calling(s, t, AddActive(w), w, Some(S(t))), t, Calling(a, t, AddLength(w), w, Some(S(t))), 3,
             Calling(Woken(a.(lengths := a.lengths[w := a.lengths[w] + 1]), w), t, Returned(w), w, None));
  }

  /** From the mutex on, a call links its task, counts it and signals. */
  lemma LinkAlone(s: State, t: Task, w: nat)
    requires Sized(s) && t < |s.schedules| && w < |s.workers| && s.queueLocks[w] == None
    requires Sized(GoSchedule(s, t, Lock(w)))
    ensures Alone(GoSchedule(s, t, Lock(w)), StepSchedule(t), 6, Scheduled(s, t, w))
  {
    var q := s.(queues := s.queues[w := s.queues[w] + [t]], enqueued := s.enqueued[w := s.enqueued[w] + [t]]);
    CountAlone(q, t, w);
    ScheduledIs(s, t, w);
    LockMoves(s, t, w);
    LinkMoves(s, t, w);
    hide *;
    CallThen(Calling(s, t, Link(w), w, Some(S(t))), t, Calling(q, t, AddActive(w), w, Some(S(t))), 4,
             Scheduled(s, t, w));
    CallThen(Calling(s, t, Lock(w), w, None), t, Calling(s, t, Link(w), w, Some(S(t))), 5, Scheduled(s, t, w));
  }

  lemma ScheduledIs(s: State, t: Task, w: nat)
    requires Sized(s) && t < |s.schedules| && w < |s.workers| && s.queueLocks[w] == None
    ensures var q := s.(queues := s.queues[w := s.queues[w] + [t]], enqueued := s.enqueued[w := s.enqueued[w] + [t]]);
            var l := q.(active := q.active + 1, counted := q.counted + {t},
                        lengths := q.lengths[w := q.lengths[w] + 1]);
            && Sized(l) && Sized(Woken(l, w)) && Calling(Woken(l, w), t, Returned(w), w, None) == Scheduled(s, t, w)
            && Sized(Calling(s, t, Link(w), w, Some(S(t))))
    ensures Sized(Calling(s, t, Lock(w), w, None)) && Calling(s, t, Lock(w), w, None) == GoSchedule(s, t, Lock(w))
  {
    Overwrite(s.queueLocks, w, None, None);
  }

  /**
   * A schedule call with nobody in between: it links its task to the end of the first of the
   * shortest queues, counts it, and signals the worker of that queue.
   */
  lemma ScheduleAlone(s: State, w: nat)
    requires Sized(s) && s.cleanup != Cleaned && w < |s.lengths| && s.lengths[w] < 0xFFFF_FFFF_FFFF_FFFF
    requires forall j :: 0 <= j < |s.lengths| ==> s.lengths[w] <= s.lengths[j]
    requires forall j :: 0 <= j < w ==> s.lengths[w] < s.lengths[j]
    requires s.queueLocks[w] == None
    ensures Enabled(s, NewSchedule) && Sized(Next(s, NewSchedule))
    ensures Alone(Next(s, NewSchedule), StepSchedule(|s.schedules|), |s.workers| + 7,
                  Scheduled(Next(s, NewSchedule), |s.schedules|, w))
  {
    var s1, t := Next(s, NewSchedule), |s.schedules|;
    LinkAlone(s1, t, w);
    hide Alone;
    ScanAlone(s1, t, w, 6, Scheduled(s1, t, w));
  }

  // ----- waiting for all tasks, and shutting down -----

  /** A wait returns at once if no task is active, and goes to sleep with the mutex given back otherwise. */
  lemma WaitAlone(s: State, k: nat)
    requires Sized(s) && k < |s.waiters| && s.waitLock == None
    requires s.waiters[k].pc == WaitEnter || s.waiters[k].pc.WaitAsleep?
    ensures Alone(s, StepWaiter(k), 3,
                  s.(waiters := s.waiters[k := s.waiters[k].(pc :=
                    if s.active > 0 then WaitAsleep(false) else WaitDone)]))
  {
    var a, w := StepWaiter(k), s.waiters[k];
    var s1 := Next(s, a);
    var s2 := Next(s1, a);
    Overwrite(s.waiters, k, w.(pc := WaitCheck), w.(pc := WaitBlock));
    Overwrite(s.waiters, k, w.(pc := WaitCheck), w.(pc := WaitLeave));
    Overwrite(s.waiters, k, w.(pc := WaitBlock), w.(pc := WaitAsleep(false)));
    Overwrite(s.waiters, k, w.(pc := WaitLeave), w.(pc := WaitDone));
    var s3 := s.(waiters := s.waiters[k := w.(pc := if s.active > 0 then WaitAsleep(false) else WaitDone)]);
    assert Next(s2, a) == s3;
    Three(s, a, s1, s2, s3);
  }

  lemma Three(s: State, a: Action, s1: State, s2: State, s3: State)
    requires Sized(s) && Enabled(s, a) && s1 == Next(s, a) && Sized(s1) && Enabled(s1, a) && s2 == Next(s1, a)
    requires Sized(s2) && Enabled(s2, a) && s3 == Next(s2, a)
    ensures Alone(s, a, 3, s3)
  {
    hide Next, Enabled;
    NextSized(s2, a);
    assert Alone(s3, a, 0, s3);
    assert Alone(s2, a, 1, s3);
    assert Alone(s1, a, 2, s3);
  }

  /** The shutdown signals worker i under its mutex, and then goes on if and only if the worker has exited. */
  lemma CleanupAlone(s: State, i: nat)
    requires Sized(s) && i < |s.workers| && s.cleanup == CleanLock(i) && s.queueLocks[i] == None
    ensures Alone(s, StepCleanup, 3, Woken(s, i).(cleanup := CleanJoin(i)))
  {
    var a := StepCleanup;
    var s1 := Next(s, a);
    var s2 := Next(s1, a);
    Overwrite(s.queueLocks, i, Some(C), None);
    Overwrite(s.workers, i, s.workers[i], s.workers[i]);
    assert Next(s2, a) == Woken(s, i).(cleanup := CleanJoin(i));
    Three(s, a, s1, s2, Woken(s, i).(cleanup := CleanJoin(i)));
  }

  lemma CleanupSteps(s: State)
    requires Sized(s)
    ensures s.cleanup == Idle ==>
              Enabled(s, StepCleanup) && Next(s, StepCleanup) == s.(running := false, cleanup := CleanLock(0))
    ensures s.cleanup.CleanJoin? && s.cleanup.i < |s.workers| ==>
              && (Enabled(s, StepCleanup) <==> s.workers[s.cleanup.i] == Exited)
              && (Enabled(s, StepCleanup) ==>
                    Next(s, StepCleanup) ==
                    s.(cleanup := if s.cleanup.i + 1 < |s.workers| then CleanLock(s.cleanup.i + 1) else Cleaned))
  {
  }
}
