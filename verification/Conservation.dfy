/**
 * Runs of clients over an LRU ring and the counted map behind it.  The values put are
 * numbered in the order they are put, so that each can be followed to its cleanup.
 */
module Conservation {
  import opened Seqs
  import opened CountedMap
  import opened Ring

  datatype Op =
    | Put(key: nat)       // a client puts the next value and holds one reference
    | Retain(key: nat)    // a client asks for a reference and holds it if the key is live
    | Release(key: nat)   // a client gives back a reference it holds
    | Touch(key: nat)     // a client touches a live key

  /** The cache, the references held by clients, and the key every value was put under. */
  datatype System = System(cache: Cache<nat>, held: multiset<nat>, home: seq<nat>)

  ghost function Init(size: nat): System {
    System(Cache(Counted(map[], []), After(size, [])), multiset{}, [])
  }

  ghost predicate Live(s: System, key: nat) {
    key in s.cache.counted.entries
  }

  /** What the source asks of its callers. */
  ghost predicate Allowed(s: System, op: Op) {
    match op
    case Put(_) => true
    case Retain(_) => true
    case Release(key) => key in s.held
    case Touch(key) => Live(s, key) && key != EMPTY_MARKER
  }

  ghost function Next(s: System, op: Op): System {
    var c := s.cache.counted;
    match op
    case Put(key) =>
      System(Cache(WithPut(c, key, |s.home|), s.cache.view), s.held + multiset{key}, s.home + [key])
    case Retain(key) =>
      s.(cache := Cache(Retained(c, key), s.cache.view),
         held := if Live(s, key) then s.held + multiset{key} else s.held)
    case Release(key) =>
      s.(cache := Cache(Released(c, key), s.cache.view), held := s.held - multiset{key})
    case Touch(key) =>
      s.(cache := Touched(s.cache, key))
  }

  ghost predicate AllowedRun(s: System, ops: seq<Op>)
    decreases ops
  {
    ops == [] || (Allowed(s, ops[0]) && AllowedRun(Next(s, ops[0]), ops[1..]))
  }

  ghost function Run(s: System, ops: seq<Op>): System
    decreases ops
  {
    if ops == [] then s else Run(Next(s, ops[0]), ops[1..])
  }

  /** A key's count is what its clients hold plus what the ring holds; no key is kept at count 0. */
  ghost predicate Conserved(s: System) {
    && Positive(s.cache.counted)
    && forall key :: Count(s.cache.counted, key) == s.held[key] + Share(s.cache.view, key)
  }

  /** A value put is either stored under the key it was put under or has been cleaned up once. */
  ghost predicate ValueOnce(s: System) {
    var c := s.cache.counted;
    && NoDup(c.cleaned)
    && (forall n :: n in c.cleaned ==> n < |s.home|)
    && (forall n :: 0 <= n < |s.home| && n !in c.cleaned ==>
          s.home[n] in c.entries && c.entries[s.home[n]].value == n)
    && (forall key :: key in c.entries ==>
          var n := c.entries[key].value; n < |s.home| && s.home[n] == key && n !in c.cleaned)
  }

  ghost predicate Inv(s: System) {
    Conserved(s) && ValueOnce(s)
  }

  lemma ShareSlide(view: seq<nat>, key: nat, k: nat)
    requires Accepts(view, key)
    ensures key != view[0]
    ensures Share(Slide(view, key), k) ==
            Share(view, k) + (if k == key && k != EMPTY_MARKER then 1 else 0)
            - (if k == view[0] && k != EMPTY_MARKER then 1 else 0)
    ensures view[0] != EMPTY_MARKER ==> Share(view, view[0]) > 0
  {
    assert view == [view[0]] + view[1..];
    assert multiset(Slide(view, key)) == multiset(view[1..]) + multiset{key};
  }

  /** What an accepted touch does to every count. */
  lemma CountTouched<V>(c: Cache<V>, key: nat, k: nat)
    requires Positive(c.counted) && Accepts(c.view, key) && key in c.counted.entries
    requires c.view[0] != EMPTY_MARKER ==> c.view[0] in c.counted.entries
    ensures Positive(Touched(c, key).counted)
    ensures Count(Touched(c, key).counted, k) ==
            Count(c.counted, k) + (if k == key then 1 else 0) - (if k == c.view[0] && k != EMPTY_MARKER then 1 else 0)
  {
    if c.view[0] != EMPTY_MARKER {
      CountReleased(c.counted, c.view[0], k);
      CountReleased(c.counted, c.view[0], key);
    }
    CountRetained(GiveBack(c.counted, c.view[0]), key, k);
  }

  /** In a conserved system every slot stands for a reference of its own, in any order. */
  lemma SlotsCovered(s: System, slots: seq<nat>)
    requires Conserved(s) && multiset(slots) == multiset(s.cache.view)
    ensures Covers(s.cache.counted, slots) && forall k :: Share(slots, k) == Share(s.cache.view, k)
  {
    forall k
      ensures Share(slots, k) == Share(s.cache.view, k) <= Count(s.cache.counted, k)
    {
      assert Count(s.cache.counted, k) == s.held[k] + Share(s.cache.view, k);
    }
  }

  /** A slot of a conserved system only names live keys. */
  lemma SlotLive(s: System)
    requires Conserved(s) && |s.cache.view| > 0 && s.cache.view[0] != EMPTY_MARKER
    ensures Live(s, s.cache.view[0])
  {
    var k := s.cache.view[0];
    assert k in multiset(s.cache.view);
    assert Count(s.cache.counted, k) > 0;
  }

  /** Every allowed operation keeps every reference accounted for. */
  lemma StepConserves(s: System, op: Op)
    requires Conserved(s) && Allowed(s, op)
    ensures Conserved(Next(s, op))
  {
    var c := s.cache.counted;
    forall k
      ensures Positive(Next(s, op).cache.counted)
      ensures Count(Next(s, op).cache.counted, k) == Next(s, op).held[k] + Share(Next(s, op).cache.view, k)
    {
      assert Count(c, k) == s.held[k] + Share(s.cache.view, k);
      match op
      case Put(key) =>
        if key in c.entries { CountRetained(c.(cleaned := c.cleaned + [|s.home|]), key, k); }
      case Retain(key) =>
        if key in c.entries { CountRetained(c, key, k); }
      case Release(key) =>
        assert Count(c, key) > 0;
        CountReleased(c, key, k);
      case Touch(key) =>
        if Accepts(s.cache.view, key) {
          if s.cache.view[0] != EMPTY_MARKER { SlotLive(s); }
          CountTouched(s.cache, key, k);
          ShareSlide(s.cache.view, key, k);
        }
    }
  }

  /** The number that marks an empty slot, touched while it is not a live key, changes no account. */
  lemma TouchEmpty(s: System, key: nat)
    requires Conserved(s) && Accepts(s.cache.view, key) && !Live(s, key) && key == EMPTY_MARKER
    ensures Conserved(s.(cache := Touched(s.cache, key)))
  {
    var view, c := s.cache.view, s.cache.counted;
    SlotLive(s);
    forall k
      ensures Positive(GiveBack(c, view[0]))
      ensures Count(GiveBack(c, view[0]), k) == s.held[k] + Share(Slide(view, key), k)
    {
      assert Count(c, k) == s.held[k] + Share(view, k);
      CountReleased(c, view[0], k);
      ShareSlide(view, key, k);
    }
    RetainAbsent(GiveBack(c, view[0]), key);
  }

  /**
   * Why a touch is allowed on live keys only: an accepted touch keeps every reference accounted
   * for exactly when its key is live, or when it is the marker of an empty slot and is not live.
   */
  lemma TouchConservesIff(s: System, key: nat)
    requires Conserved(s) && Accepts(s.cache.view, key)
    ensures Conserved(s.(cache := Touched(s.cache, key))) <==> (Live(s, key) <==> key != EMPTY_MARKER)
  {
    var s' := s.(cache := Touched(s.cache, key));
    if Live(s, key) && key != EMPTY_MARKER {
      StepConserves(s, Touch(key));
    } else if !Live(s, key) && key == EMPTY_MARKER {
      TouchEmpty(s, key);
    } else {
      assert Count(s.cache.counted, key) == s.held[key] + Share(s.cache.view, key);
      ShareSlide(s.cache.view, key, key);
      if s.cache.view[0] != EMPTY_MARKER { SlotLive(s); }
      if Live(s, key) {
        CountTouched(s.cache, key, key);
      } else {
        assert key !in Touched(s.cache, key).counted.entries;
      }
      assert Count(s'.cache.counted, key) != s'.held[key] + Share(s'.cache.view, key);
    }
  }

  /** A state at which it fails: the ring takes a key that is not in the tree. */
  lemma TouchOfAbsentKey()
    ensures var s := Init(1);
            Conserved(s) && Accepts(s.cache.view, 5) && !Live(s, 5) && !Conserved(s.(cache := Touched(s.cache, 5)))
  {
    InitInv(1);
    TouchConservesIff(Init(1), 5);
  }

  /** One client put and touched key 3, another put the marker of an empty slot as a key. */
  ghost function MarkerOps(): seq<Op> {
    [Put(3), Touch(3), Put(EMPTY_MARKER)]
  }

  lemma MarkerSteps()
    ensures var s1 := Next(Init(1), Put(3)); var s2 := Next(s1, Touch(3)); var s3 := Next(s2, Put(EMPTY_MARKER));
            && Live(s1, 3) && s2.cache.view == [3] == s3.cache.view && Live(s3, EMPTY_MARKER)
  {
    var s1 := Next(Init(1), Put(3));
    assert s1.cache.view == [EMPTY_MARKER];
    assert Accepts(s1.cache.view, 3);
  }

  lemma MarkerRun()
    ensures AllowedRun(Init(1), MarkerOps())
    ensures Run(Init(1), MarkerOps()) == Next(Next(Next(Init(1), Put(3)), Touch(3)), Put(EMPTY_MARKER))
  {
    MarkerSteps();
    hide Next, Init, Live;
    var ops := MarkerOps();
    assert ops[1..] == [Touch(3), Put(EMPTY_MARKER)] && ops[1..][1..] == [Put(EMPTY_MARKER)]
           && ops[1..][1..][1..] == [];
  }

  /** And a state that clients can bring about, in which that key is touched. */
  lemma TouchOfLiveMarker()
    ensures AllowedRun(Init(1), MarkerOps())
    ensures var s := Run(Init(1), MarkerOps());
            Conserved(s) && Accepts(s.cache.view, EMPTY_MARKER) && Live(s, EMPTY_MARKER)
            && !Conserved(s.(cache := Touched(s.cache, EMPTY_MARKER)))
  {
    MarkerSteps();
    MarkerRun();
    InitInv(1);
    RunKeeps(Init(1), MarkerOps());
    hide Next, Init, Run, Live, Touched, Conserved, ValueOnce, MarkerOps, AllowedRun;
    TouchConservesIff(Run(Init(1), MarkerOps()), EMPTY_MARKER);
  }

  /** Clients may touch every live key but 2^64 - 1, which marks an empty slot, and no other key. */
  lemma TouchAllowed(s: System, key: nat)
    ensures Allowed(s, Touch(key)) <==> key in s.cache.counted.entries && key != 0xFFFF_FFFF_FFFF_FFFF
  {
  }

  lemma ReleasedValue(c: Counted<nat>, slot: nat, key: nat)
    ensures key in Released(c, slot).entries ==>
              key in c.entries && Released(c, slot).entries[key].value == c.entries[key].value
  {
  }

  lemma RetainedValue(c: Counted<nat>, slot: nat, key: nat)
    ensures key in Retained(c, slot).entries ==>
              key in c.entries && Retained(c, slot).entries[key].value == c.entries[key].value
  {
  }

  /** While a key is live its value stays; a put gives a value to a key that is not live. */
  lemma StepValue(s: System, op: Op, key: nat)
    requires key in Next(s, op).cache.counted.entries
    ensures var value := Next(s, op).cache.counted.entries[key].value;
            && (key in s.cache.counted.entries ==> value == s.cache.counted.entries[key].value)
            && (key !in s.cache.counted.entries ==> op == Put(key) && value == |s.home|)
  {
    var c := s.cache.counted;
    match op
    case Put(_) =>
    case Retain(k) => RetainedValue(c, k, key);
    case Release(k) => ReleasedValue(c, k, key);
    case Touch(k) =>
      if Accepts(s.cache.view, k) {
        ReleasedValue(c, s.cache.view[0], key);
        RetainedValue(GiveBack(c, s.cache.view[0]), k, key);
      }
  }

  /** The first value wins: a value put on a live key is cleaned up at once. */
  lemma PutOnLive(s: System, key: nat)
    requires Live(s, key)
    ensures var c, c' := s.cache.counted, Next(s, Put(key)).cache.counted;
            && c'.entries == c.entries[key := Entry(c.entries[key].count + 1, c.entries[key].value)]
            && c'.cleaned == c.cleaned + [|s.home|]
  {
  }

  ghost predicate StaysLive(s: System, ops: seq<Op>, key: nat)
    decreases ops
  {
    Live(s, key) && (ops == [] || StaysLive(Next(s, ops[0]), ops[1..], key))
  }

  /** Over any run through which a key stays live, whatever is put on it, it keeps the value it had. */
  lemma {:induction false} ValueStays(s: System, ops: seq<Op>, key: nat)
    requires StaysLive(s, ops, key)
    ensures Live(s, key) && Live(Run(s, ops), key)
    ensures Run(s, ops).cache.counted.entries[key].value == s.cache.counted.entries[key].value
    decreases ops
  {
    hide Next;
    if ops != [] {
      StepValue(s, ops[0], key);
      ValueStays(Next(s, ops[0]), ops[1..], key);
    }
  }

  lemma OnceRetained(s: System, c: Counted<nat>, key: nat)
    requires ValueOnce(s) && c == s.cache.counted
    ensures ValueOnce(s.(cache := s.cache.(counted := Retained(c, key))))
  {
  }

  lemma OnceReleased(s: System, c: Counted<nat>, key: nat)
    requires ValueOnce(s) && c == s.cache.counted
    ensures ValueOnce(s.(cache := s.cache.(counted := Released(c, key))))
  {
    var s' := s.(cache := s.cache.(counted := Released(c, key)));
    if key in c.entries && c.entries[key].count <= 1 {
      var v := c.entries[key].value;
      assert s'.cache.counted.cleaned == c.cleaned + [v];
      assert forall n :: n in c.cleaned + [v] <==> n in c.cleaned || n == v;
    }
  }

  lemma OncePut(s: System, key: nat)
    requires ValueOnce(s)
    ensures ValueOnce(Next(s, Put(key)))
  {
    var c, n := s.cache.counted, |s.home|;
    var home := s.home + [key];
    if key in c.entries {
      NoDupSnoc(c.cleaned, n);
      OnceRetained(System(Cache(c.(cleaned := c.cleaned + [n]), s.cache.view), s.held, home),
        c.(cleaned := c.cleaned + [n]), key);
    }
  }

  lemma StepOnce(s: System, op: Op)
    requires Conserved(s) && ValueOnce(s) && Allowed(s, op)
    ensures ValueOnce(Next(s, op))
  {
    var c := s.cache.counted;
    match op
    case Put(key) => OncePut(s, key);
    case Retain(key) => OnceRetained(s, c, key);
    case Release(key) => OnceReleased(s, c, key);
    case Touch(key) =>
      if Accepts(s.cache.view, key) {
        var c1 := GiveBack(c, s.cache.view[0]);
        OnceReleased(s, c, s.cache.view[0]);
        OnceRetained(s.(cache := s.cache.(counted := c1)), c1, key);
      }
  }

  /** Over every run of clients, from an empty cache and a ring of any size. */
  lemma {:induction false} RunKeeps(s: System, ops: seq<Op>)
    requires Inv(s) && AllowedRun(s, ops)
    ensures Inv(Run(s, ops))
    decreases ops
  {
    if ops != [] {
      StepConserves(s, ops[0]);
      StepOnce(s, ops[0]);
      RunKeeps(Next(s, ops[0]), ops[1..]);
    }
  }

  lemma InitInv(size: nat)
    ensures Inv(Init(size))
  {
    assert forall i :: 0 <= i < size ==> After(size, [])[i] == EMPTY_MARKER;
    forall key
      ensures Share(After(size, []), key) == 0
    {
      if key != EMPTY_MARKER { assert key !in After(size, []); }
    }
  }

  /**
   * Reference conservation of the stack: in every reachable state a key's count is the number
   * of references clients hold plus its occurrences in the ring, a key is in the tree exactly
   * when that sum is positive, and every value put so far is either stored or cleaned up once.
   */
  lemma ReferenceConservation(size: nat, ops: seq<Op>)
    requires AllowedRun(Init(size), ops)
    ensures var s := Run(Init(size), ops);
            && (forall key :: Count(s.cache.counted, key) == s.held[key] + Share(s.cache.view, key))
            && (forall key :: Live(s, key) <==> s.held[key] + Share(s.cache.view, key) > 0)
            && ValueOnce(s)
  {
    InitInv(size);
    RunKeeps(Init(size), ops);
    var s := Run(Init(size), ops);
    forall key
      ensures Live(s, key) <==> s.held[key] + Share(s.cache.view, key) > 0
    {
      assert Count(s.cache.counted, key) == s.held[key] + Share(s.cache.view, key);
    }
  }

  /** Giving back slots takes exactly their share off every count, and keeps each value once. */
  lemma GiveBackAllCounts(s: System, slots: seq<nat>)
    requires Positive(s.cache.counted) && ValueOnce(s) && Covers(s.cache.counted, slots)
    ensures var c := GiveBackAll(s.cache.counted, slots);
            && Positive(c) && ValueOnce(s.(cache := s.cache.(counted := c)))
            && forall k :: Count(c, k) == Count(s.cache.counted, k) - Share(slots, k)
  {
    GiveBackCounts(s.cache.counted, slots);
    GiveBackOnce(s, slots);
  }

  lemma {:induction false} GiveBackOnce(s: System, slots: seq<nat>)
    requires ValueOnce(s)
    ensures ValueOnce(s.(cache := s.cache.(counted := GiveBackAll(s.cache.counted, slots))))
  {
    if slots != [] {
      var front := slots[..|slots| - 1];
      GiveBackOnce(s, front);
      var c := GiveBackAll(s.cache.counted, front);
      OnceReleased(s.(cache := s.cache.(counted := c)), c, slots[|slots| - 1]);
    }
  }

  /**
   * cx_lru_cleanup gives back exactly the ring's share, whatever the order of the slots; if the
   * clients hold nothing by then, the map is empty and every value put has been cleaned up once.
   */
  lemma CleanupReturnsShare(s: System, slots: seq<nat>)
    requires Inv(s) && multiset(slots) == multiset(s.cache.view)
    ensures var c := GiveBackAll(s.cache.counted, slots);
            && (forall k :: Count(c, k) == s.held[k])
            && Positive(c) && NoDup(c.cleaned)
            && (s.held == multiset{} ==>
                  c.entries == map[] && (forall n :: n in c.cleaned <==> 0 <= n < |s.home|))
  {
    SlotsCovered(s, slots);
    GiveBackAllCounts(s, slots);
    var c := GiveBackAll(s.cache.counted, slots);
    forall k
      ensures Count(c, k) == s.held[k]
    {
      assert Count(s.cache.counted, k) == s.held[k] + Share(s.cache.view, k);
    }
    if s.held == multiset{} {
      forall k
        ensures k !in c.entries
      {
        assert Count(c, k) == 0;
      }
    }
  }
}
