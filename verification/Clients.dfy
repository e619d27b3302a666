/** Clients of the whole stack: a run of operations on the objects does what Conservation says. */
module Clients {
  import opened Seqs
  import opened CountedMap
  import opened RcMap
  import opened RcRadixTree
  import opened RcHashMap
  import opened LruBackend
  import opened Ring
  import opened Lru
  import opened Conservation

  ghost predicate WordKeys(ops: seq<Op>) {
    forall i :: 0 <= i < |ops| ==> ops[i].key < U64
  }

  /** What the hash map asks for besides: no put on key 0 or on a live key, and no count beyond a 32-bit int. */
  ghost predicate Fits(s: System, op: Op) {
    match op
    case Put(key) => key != 0 && !Live(s, key)
    case Retain(key) => Count(s.cache.counted, key) < 0x7fff_ffff
    case Release(_) => true
    case Touch(key) => Count(s.cache.counted, key) < 0x7fff_ffff
  }

  ghost predicate FitsRun(s: System, ops: seq<Op>)
    decreases ops
  {
    ops == [] || (Fits(s, ops[0]) && FitsRun(Next(s, ops[0]), ops[1..]))
  }

  /** What an operation does to the cache, case by case. */
  lemma NextCache(s: System, op: Op)
    ensures op.Put? ==> Next(s, op).cache == Cache(WithPut(s.cache.counted, op.key, |s.home|), s.cache.view)
    ensures op.Retain? ==> Next(s, op).cache == Cache(Retained(s.cache.counted, op.key), s.cache.view)
    ensures op.Release? ==> Next(s, op).cache == Cache(Released(s.cache.counted, op.key), s.cache.view)
    ensures op.Touch? ==> Next(s, op).cache == Touched(s.cache, op.key)
    ensures |Next(s, op).home| == |s.home| + if op.Put? then 1 else 0
  {
    hide WithPut, Retained, Released, Touched;
  }

  /** Ring and container are ready, and hold the cache of the system. */
  ghost predicate Holds(lru: Lru<nat>, s: System)
    reads lru, lru.items, lru.backend.Roots(), lru.backend.Objects()
  {
    lru.Ready() && Cache(lru.backend.State(), lru.Window()) == s.cache
  }

  /** In a conserved system an allowed operation that fits asks nothing of the container it may not ask. */
  ghost predicate MayStep(lru: Lru<nat>, op: Op, s: System) {
    lru.backend.Hash? ==> Conserved(s) && Allowed(s, op) && Fits(s, op)
  }

  lemma HoldsFacts(lru: Lru<nat>, s: System)
    requires Holds(lru, s)
    ensures lru.Ready() && lru.Valid() && lru.backend.Valid() && Cache(lru.backend.State(), lru.Window()) == s.cache
  {
  }

  lemma StepAllowed(lru: Lru<nat>, op: Op, s: System)
    requires Holds(lru, s) && MayStep(lru, op, s)
    ensures lru.backend.Valid()
    ensures op.Put? ==> lru.backend.MayPut(op.key)
    ensures op.Retain? ==> lru.backend.MayRetain(op.key)
    ensures op.Release? ==> lru.backend.MayRelease(op.key)
    ensures op.Touch? ==> lru.backend.MayRetain(op.key) && lru.MayTouch(op.key)
  {
    var b := lru.backend;
    if b.Hash? {
      OldestLive(s);
      match op
      case Put(key) => b.DeadMayPut(key);
      case Retain(key) =>
      case Release(key) =>
        assert Count(s.cache.counted, key) > 0;
        b.LiveMayRelease(key);
      case Touch(key) =>
        if Accepts(lru.Window(), key) && lru.Window()[0] != EMPTY_MARKER { b.LiveMayRelease(lru.Window()[0]); }
    }
  }

  lemma OldestLive(s: System)
    requires Conserved(s)
    ensures |s.cache.view| > 0 && s.cache.view[0] != EMPTY_MARKER ==> Live(s, s.cache.view[0])
  {
    if |s.cache.view| > 0 && s.cache.view[0] != EMPTY_MARKER { SlotLive(s); }
  }

  /** One client operation on a ring over a container; values are numbered as they are put. */
  method StepClient(lru: Lru<nat>, op: Op, puts: nat, ghost s: System)
    requires Holds(lru, s) && MayStep(lru, op, s) && op.key < U64 && puts == |s.home|
    modifies lru, lru.items, lru.backend.Objects()
    ensures Holds(lru, Next(s, op)) && lru.size == old(lru.size) && lru.items == old(lru.items)
    ensures forall o :: o in lru.backend.Objects() ==> o in old(lru.backend.Objects()) || fresh(o)
  {
    NextCache(s, op);
    StepAllowed(lru, op, s);
    HoldsFacts(lru, s);
    lru.ReadyFacts();
    hide *;
    if op.Touch? {
      lru.Touch(op.key);
    } else {
      StepContainer(lru.backend, op, puts);
      lru.ReadyPack();
    }
    HoldsPack(lru, Next(s, op));
  }

  /** A put, a retain or a release. */
  method StepContainer(backend: Backend<nat>, op: Op, puts: nat)
    requires backend.Valid() && op.key < U64 && !op.Touch?
    requires op.Put? ==> backend.MayPut(op.key)
    requires op.Retain? ==> backend.MayRetain(op.key)
    requires op.Release? ==> backend.MayRelease(op.key)
    modifies backend.Objects()
    ensures backend.Valid()
    ensures forall o :: o in backend.Objects() ==> o in old(backend.Objects()) || fresh(o)
    ensures op.Put? ==> backend.State() == WithPut(old(backend.State()), op.key, puts)
    ensures op.Retain? ==> backend.State() == Retained(old(backend.State()), op.key)
    ensures op.Release? ==> backend.State() == Released(old(backend.State()), op.key)
  {
    hide *;
    match op {
      case Put(key) => var _ := backend.Put(key, puts);
      case Retain(key) => var _ := backend.Retain(key);
      case Release(key) => var _ := backend.Release(key);
    }
  }

  lemma HoldsPack(lru: Lru<nat>, s: System)
    requires lru.Ready() && Cache(lru.backend.State(), lru.Window()) == s.cache
    ensures Holds(lru, s)
  {
  }

  /** A run is allowed, and if the container is a hash map it fits. */
  ghost predicate MayRun(lru: Lru<nat>, s: System, ops: seq<Op>) {
    Inv(s) && AllowedRun(s, ops) && WordKeys(ops) && (lru.backend.Hash? ==> FitsRun(s, ops))
  }

  lemma RunFirst(lru: Lru<nat>, s: System, ops: seq<Op>)
    requires MayRun(lru, s, ops)
    ensures ops == [] ==> Run(s, ops) == s
    ensures ops != [] ==>
              && MayStep(lru, ops[0], s) && ops[0].key < U64
              && MayRun(lru, Next(s, ops[0]), ops[1..])
              && Run(s, ops) == Run(Next(s, ops[0]), ops[1..])
  {
    hide Next, Allowed, Fits, Conserved, ValueOnce;
    if ops != [] {
      StepConserves(s, ops[0]);
      StepOnce(s, ops[0]);
    }
  }

  /** A run of client operations on a ring over a container. */
  method RunClients(lru: Lru<nat>, ops: seq<Op>, ghost s: System)
    requires Holds(lru, s) && MayRun(lru, s, ops) && |s.home| == 0
    modifies lru, lru.items, lru.backend.Objects()
    ensures Holds(lru, Run(s, ops)) && lru.size == old(lru.size) && lru.items == old(lru.items)
    ensures forall o :: o in lru.backend.Objects() ==> o in old(lru.backend.Objects()) || fresh(o)
  {
    hide *;
    var puts := 0;
    ghost var now := s;
    for i := 0 to |ops|
      invariant Holds(lru, now) && MayRun(lru, now, ops[i..]) && |now.home| == puts
      invariant Run(now, ops[i..]) == Run(s, ops)
      invariant lru.size == old(lru.size) && lru.items == old(lru.items)
      invariant forall o :: o in lru.backend.Objects() ==> o in old(lru.backend.Objects()) || fresh(o)
    {
      RunFirst(lru, now, ops[i..]);
      NextCache(now, ops[i]);
      StepClient(lru, ops[i], puts, now);
      now := Next(now, ops[i]);
      puts := if ops[i].Put? then puts + 1 else puts;
    }
    RunFirst(lru, now, []);
  }

  /** What is left after clients and ring are done: the clients' references and nothing else. */
  ghost predicate Settled(c: Counted<nat>, s: System) {
    && (forall key :: Count(c, key) == s.held[key])
    && NoDup(c.cleaned)
    && (s.held == multiset{} ==> c.entries == map[] && forall n :: n in c.cleaned <==> 0 <= n < |s.home|)
  }

  lemma RingGivenBack(s: System, slots: seq<nat>)
    requires Inv(s) && multiset(slots) == multiset(s.cache.view)
    ensures Settled(GiveBackAll(s.cache.counted, slots), s) && Covers(s.cache.counted, slots)
  {
    CleanupReturnsShare(s, slots);
    SlotsCovered(s, slots);
  }

  /** The ring is cleaned up. */
  method Finish(lru: Lru<nat>, ghost s: System)
    requires Holds(lru, s) && Inv(s)
    modifies lru, lru.backend.Objects()
    ensures lru.Ready() && Settled(lru.backend.State(), s)
  {
    HoldsFacts(lru, s);
    hide *;
    SlotsOf(lru, s.cache);
    RingGivenBack(s, lru.Slots());
    CleanupAllowed(lru);
    lru.Cleanup();
  }

  lemma CleanupAllowed(lru: Lru<nat>)
    requires Covers(lru.backend.State(), lru.Slots())
    ensures lru.MayCleanup()
  {
  }

  /**
   * A whole session on the objects, from a new tree and a new ring to the cleanup of the ring: the
   * tree then counts exactly the references clients still hold; and if they hold none it is empty,
   * and each value put has been cleaned up exactly once.
   */
  method Session(elementSize: nat, size: nat, ops: seq<Op>) returns (tree: RcRadixTree<nat>)
    requires WordKeys(ops) && AllowedRun(Init(size), ops)
    ensures tree.Valid() && Settled(tree.State(), Run(Init(size), ops))
  {
    tree := NewTree(elementSize);
    hide *;
    InContainer(Tree(tree), size, ops);
    TreeFacts(tree);
  }

  method NewTree(elementSize: nat) returns (tree: RcRadixTree<nat>)
    ensures fresh(Tree(tree).Objects()) && Tree(tree).Valid() && Tree(tree).State() == Counted(map[], [])
  {
    hide *;
    tree := new RcRadixTree(elementSize, 0);
    OfTree(tree);
  }

  lemma OfTree(tree: RcRadixTree<nat>)
    requires tree.Valid()
    ensures Tree(tree).Valid() && Tree(tree).State() == tree.State()
    ensures Tree(tree).Objects() == {tree, tree.values, tree.values.branchPool, tree.values.leafPool}
  {
  }

  lemma TreeFacts(tree: RcRadixTree<nat>)
    requires Tree(tree).Valid()
    ensures tree.Valid() && tree.State() == Tree(tree).State()
  {
  }

  /** The same on a new hash map: no assertion on a stale key is ever met. */
  method HashSession(mapSize: nat, elementSize: nat, size: nat, ops: seq<Op>) returns (table: RcHashMap<nat>)
    requires mapSize > 0 && elementSize > 0
    requires WordKeys(ops) && AllowedRun(Init(size), ops) && FitsRun(Init(size), ops)
    ensures table.Valid() && Settled(table.State(), Run(Init(size), ops))
  {
    var cleanup := new Cleanup();
    table := new RcHashMap(mapSize, elementSize, 0, cleanup);
    InContainer(Hash(table), size, ops);
  }

  /** A session over an empty container. */
  method InContainer(backend: Backend<nat>, size: nat, ops: seq<Op>)
    requires backend.Valid() && backend.State() == Counted(map[], [])
    requires WordKeys(ops) && AllowedRun(Init(size), ops) && (backend.Hash? ==> FitsRun(Init(size), ops))
    modifies backend.Objects()
    ensures backend.Valid() && Settled(backend.State(), Run(Init(size), ops))
  {
    SessionInv(size, ops);
    hide *;
    var lru := NewRing(backend, size);
    StartMayRun(lru, size, ops);
    RunClients(lru, ops, Init(size));
    Finish(lru, Run(Init(size), ops));
    lru.ReadyFacts();
  }

  /** A new ring over an empty container. */
  method NewRing(backend: Backend<nat>, size: nat) returns (lru: Lru<nat>)
    requires backend.Valid() && backend.State() == Counted(map[], [])
    ensures lru.backend == backend && backend.Objects() == old(backend.Objects())
    ensures fresh(lru) && (lru.items == null || fresh(lru.items))
    ensures Holds(lru, Init(size)) && |Init(size).home| == 0
  {
    ghost var objects, roots := backend.Objects(), backend.Roots();
    assert allocated(objects) && allocated(roots);
    hide *;
    label Before:
    lru := new Lru(size, backend);
    assert unchanged@Before(objects) && unchanged@Before(roots);
    lru.ReadyPack();
    Start(lru);
  }

  lemma StartMayRun(lru: Lru<nat>, size: nat, ops: seq<Op>)
    requires WordKeys(ops) && AllowedRun(Init(size), ops) && (lru.backend.Hash? ==> FitsRun(Init(size), ops))
    ensures MayRun(lru, Init(size), ops)
  {
    InitInv(size);
  }

  lemma Start(lru: Lru<nat>)
    requires lru.Ready() && lru.accepted == [] && lru.backend.State() == Counted(map[], [])
    ensures Holds(lru, Init(lru.size)) && |Init(lru.size).home| == 0
  {
    assert lru.Window() == After(lru.size, []);
  }

  lemma SessionInv(size: nat, ops: seq<Op>)
    requires AllowedRun(Init(size), ops)
    ensures Inv(Run(Init(size), ops))
  {
    InitInv(size);
    RunKeeps(Init(size), ops);
  }

  /** The array of the ring holds the slots of the window, in another order. */
  lemma SlotsOf(lru: Lru<nat>, cache: Cache<nat>)
    requires lru.Valid() && lru.Window() == cache.view
    ensures multiset(lru.Slots()) == multiset(cache.view)
  {
    if lru.items != null { ViewSlots(lru.items[..], lru.ringIndex); }
  }
}
