/** The ring of recently used keys of lru.c over a reference-counted radix tree or hash map. */
module Lru {
  import opened Seqs
  import opened CountedMap
  import opened LruBackend
  import opened Ring

  class Lru<V> {
    const backend: Backend<V>
    var items: array?<nat>
    var ringIndex: nat
    var size: nat

    ghost var accepted: seq<nat>   // the keys accepted since init

    ghost predicate Valid()
      reads this, items
    {
      && (size == 0 <==> items == null)
      && (size > 0 ==>
            && items.Length == size && ringIndex < size
            && (forall i :: 0 <= i < size ==> items[i] < U64)
            && Window() == After(size, accepted))
    }

    /** The ring and the container behind it, which are apart. */
    ghost predicate Ready()
      reads this, items, backend.Roots(), backend.Objects()
    {
      && Valid() && backend.Valid()
      && this !in backend.Objects() && (items == null || items !in backend.Objects())
    }

    /** If the key is accepted, the container takes back the reference of the oldest slot. */
    ghost predicate MayTouch(key: nat)
      reads this, items, backend.Roots(), backend.Objects()
      requires backend.Valid()
    {
      Accepts(Window(), key) && Window()[0] != EMPTY_MARKER ==> backend.MayRelease(Window()[0])
    }

    /** At cleanup, the container takes back the reference of every slot. */
    ghost predicate MayCleanup()
      reads this, items, backend.Roots(), backend.Objects()
    {
      backend.TakesBack(backend.State(), Slots())
    }

    /** The slots in the order of the array. */
    ghost function Slots(): seq<nat>
      reads this, items
    {
      if items == null then [] else items[..]
    }

    /** The ring, oldest slot first. */
    ghost function Window(): seq<nat>
      reads this, items
    {
      if items == null || ringIndex >= items.Length then [] else View(items[..], ringIndex)
    }

    /** cx_lru_init */
    constructor (size: nat, backend: Backend<V>)
      ensures Valid() && this.backend == backend && this.size == size && accepted == []
      ensures Window() == seq(size, _ => EMPTY_MARKER)
      ensures items == null || fresh(items)
    {
      this.backend := backend;
      this.size := size;
      ringIndex, accepted := 0, [];
      if size == 0 {
        items := null;
      } else {
        items := new nat[size](_ => EMPTY_MARKER);
      }
    }

    lemma RingFacts()
      requires Valid() && size > 0
      ensures items != null && items.Length == size && ringIndex < size && |Window()| == size
      ensures forall i :: 0 <= i < size ==> items[i] < U64
      ensures Window() == View(items[..], ringIndex) == After(size, accepted)
    {
    }

    lemma ReadyFacts()
      requires Ready()
      ensures Valid() && backend.Valid() && this !in backend.Objects() && (items == null || items !in backend.Objects())
      ensures this !in backend.Roots() && (items == null || items !in backend.Roots())
    {
    }

    lemma ReadyPack()
      requires Valid() && backend.Valid() && this !in backend.Objects()
               && (items == null || items !in backend.Objects())
      ensures Ready()
    {
    }

    lemma MayTouchFacts(key: nat)
      requires Ready()
      ensures Valid() && backend.Valid()
      ensures MayTouch(key) && Accepts(Window(), key) && Window()[0] != EMPTY_MARKER ==> backend.MayRelease(Window()[0])
    {
    }

    /** A tree takes any key back. */
    lemma TreeMayTouch(key: nat)
      requires Ready() && backend.IsTree()
      ensures backend.Valid() && MayTouch(key)
    {
    }

    lemma SlotFacts(i: nat)
      requires Valid() && i < size
      ensures items != null && items.Length == size && |Slots()| == size && items[i] == Slots()[i] < U64
    {
    }

    /** The slots at the two ends of the window. */
    lemma Ends()
      requires Valid() && size > 0
      ensures items != null && items.Length == size && ringIndex < size && Window() != []
      ensures var next := (ringIndex + 1) % size; next < size && items[next] == Window()[0] < U64
      ensures items[ringIndex] == Window()[|Window()| - 1]
    {
      Turn(items[..], ringIndex, (ringIndex + 1) % size, 0);
    }

    lemma EmptyFacts()
      requires Valid() && size == 0
      ensures items == null && Window() == []
    {
    }

    /** try_touch: false when the key is turned down. */
    method TryTouch(key: nat) returns (touched: bool)
      requires Ready() && key < U64 && MayTouch(key)
      modifies this, items, backend.Objects()
      ensures Ready() && backend.Objects() == old(backend.Objects()) && size == old(size) && items == old(items)
      ensures touched <==> Accepts(old(Window()), key)
      ensures Window() == Slide(old(Window()), key)
      ensures accepted == if touched then old(accepted) + [key] else old(accepted)
      ensures backend.State() ==
              if touched then GiveBack(old(backend.State()), old(Window())[0]) else old(backend.State())
      ensures old(backend.MayRetain(key)) ==> backend.MayRetain(key)
      ensures backend.IsTree() ==> backend.Pointer(key) == old(backend.Pointer(key))
    {
      MayTouchFacts(key);
      hide *;
      if size == 0 {
        EmptyFacts();
        Decide(Window(), key);
        return false;
      }
      Ends();
      var lastKey := items[ringIndex];
      var next := (ringIndex + 1) % size;
      var oldKey := items[next];
      Decide(Window(), key);
      if oldKey == key || lastKey == key {
        return false;
      }
      ReadyFacts();
      backend.TakeBack(oldKey, key);
      ReadyPack();
      Advance(next, key);
      return true;
    }

    /** The slot takes the key and becomes the newest; the container is elsewhere. */
    method Advance(next: nat, key: nat)
      requires Ready() && size > 0 && next == (ringIndex + 1) % size && key < U64
      modifies this`ringIndex, this`accepted, items
      ensures Ready() && Window() != [] && old(Window()) != [] && Window() == old(Window())[1..] + [key]
      ensures accepted == old(accepted) + [key]
      ensures backend.Objects() == old(backend.Objects()) && backend.State() == old(backend.State())
      ensures backend.MayRetain(key) == old(backend.MayRetain(key)) && backend.Pointer(key) == old(backend.Pointer(key))
    {
      ReadyFacts();
      hide *;
      WriteSlot(next, key);
      ReadyPack();
    }

    method WriteSlot(next: nat, key: nat)
      requires Valid() && size > 0 && next == (ringIndex + 1) % size && key < U64
      modifies this`ringIndex, this`accepted, items
      ensures Valid() && Window() != [] && old(Window()) != [] && Window() == old(Window())[1..] + [key]
      ensures accepted == old(accepted) + [key]
    {
      hide *;
      RingFacts();
      Turn(items[..], ringIndex, next, key);
      items[next] := key;
      ringIndex := next;
      assert items[..] == old(items[..])[next := key];
      AfterOneMore(size, accepted, key);
      accepted := accepted + [key];
      RingPack();
    }

    lemma RingPack()
      requires items != null && 0 < size == items.Length && ringIndex < size
      requires forall i :: 0 <= i < size ==> items[i] < U64
      requires View(items[..], ringIndex) == After(size, accepted)
      ensures Valid() && Window() == View(items[..], ringIndex)
    {
    }

    /** cx_lru_touch */
    method Touch(key: nat)
      requires Ready() && key < U64 && MayTouch(key) && backend.MayRetain(key)
      modifies this, items, backend.Objects()
      ensures Ready() && backend.Objects() == old(backend.Objects()) && size == old(size) && items == old(items)
      ensures Cache(backend.State(), Window()) == Touched(old(Cache(backend.State(), Window())), key)
      ensures accepted == if Accepts(old(Window()), key) then old(accepted) + [key] else old(accepted)
    {
      hide *;
      TouchedCases(Cache(backend.State(), Window()), key);
      var touched := TryTouch(key);
      if touched {
        ReadyFacts();
        var _ := backend.Retain(key);
        ReadyPack();
      }
    }

    /** cx_lru_touch_value, with the value pointer the key has in the backend. */
    method TouchValue(key: nat, value: nat)
      requires Ready() && key < U64 && backend.IsTree() && value != 0 && value == backend.Pointer(key)
      modifies this, items, backend.Objects()
      ensures Ready() && backend.Objects() == old(backend.Objects()) && size == old(size) && items == old(items)
      ensures Cache(backend.State(), Window()) == Touched(old(Cache(backend.State(), Window())), key)
      ensures accepted == if Accepts(old(Window()), key) then old(accepted) + [key] else old(accepted)
    {
      hide *;
      TreeMayTouch(key);
      TouchedCases(Cache(backend.State(), Window()), key);
      var touched := TryTouch(key);
      if touched {
        ReadyFacts();
        backend.RetainValue(value, key);
        ReadyPack();
      }
    }

    /** cx_lru_cleanup */
    method Cleanup()
      requires Ready() && MayCleanup()
      modifies this, backend.Objects()
      ensures Ready() && backend.Objects() == old(backend.Objects()) && size == 0 && Window() == []
      ensures backend.State() == GiveBackAll(old(backend.State()), old(Slots()))
    {
      CleanupFacts();
      hide *;
      ghost var before, slots := backend.State(), Slots();
      GiveBackEnds(before, slots);
      for i := 0 to size
        invariant Ready() && backend.Objects() == old(backend.Objects()) && Slots() == slots && size == old(size)
        invariant backend.State() == GiveBackAll(before, slots[..i])
      {
        GiveSlot(i, before);
      }
      Clear();
    }

    /** The reference of one slot, in the course of a cleanup. */
    method GiveSlot(i: nat, ghost before: Counted<V>)
      requires Ready() && i < size && i < |Slots()| && Positive(before) && backend.TakesBack(before, Slots())
      requires backend.State() == GiveBackAll(before, Slots()[..i])
      modifies backend.Objects()
      ensures Ready() && backend.Objects() == old(backend.Objects()) && Slots() == old(Slots()) && size == old(size)
      ensures i < |Slots()| && backend.State() == GiveBackAll(before, Slots()[..i + 1])
    {
      ReadyFacts();
      hide *;
      SlotFacts(i);
      GiveBackMore(before, Slots(), i);
      var key := items[i];
      if key != EMPTY_MARKER { backend.NextMayRelease(before, Slots(), i); }
      backend.TakeBack(key, 0);
      ReadyPack();
    }

    method Clear()
      requires Ready()
      modifies this
      ensures Ready() && size == 0 && Window() == []
      ensures backend.Objects() == old(backend.Objects()) && backend.State() == old(backend.State())
    {
      ReadyFacts();
      hide *;
      size := 0;
      items := null;
      EmptyPack();
      ReadyPack();
    }

    lemma CleanupFacts()
      requires Ready() && MayCleanup()
      ensures Positive(backend.State()) && backend.TakesBack(backend.State(), Slots()) && |Slots()| == size
    {
      backend.StatePositive();
    }

    lemma EmptyPack()
      requires size == 0 && items == null
      ensures Valid() && Window() == []
    {
    }
  }

  /** The first touch of a live key on a new ring raises its count by one and changes no other. */
  method FirstTouchOf<V>(lru: Lru<V>, key: nat)
    requires lru.Ready() && lru.accepted == [] && lru.size > 0 && key < 0xFFFF_FFFF_FFFF_FFFF
    requires key in lru.backend.State().entries && lru.backend.MayRetain(key)
    modifies lru, lru.items, lru.backend.Objects()
    ensures lru.Ready() && lru.accepted == [key]
    ensures key in old(lru.backend.State()).entries
    ensures var e := old(lru.backend.State()).entries[key];
            lru.backend.State().entries == old(lru.backend.State()).entries[key := Entry(e.count + 1, e.value)]
  {
    NewRingFacts(lru, key);
    FirstTouch(lru.backend.State(), lru.size, key);
    assert key < U64;
    hide *;
    lru.Touch(key);
  }

  lemma NewRingFacts<V>(lru: Lru<V>, key: nat)
    requires lru.Ready() && lru.accepted == [] && lru.size > 0 && key < 0xFFFF_FFFF_FFFF_FFFF
    ensures lru.backend.Valid() && lru.MayTouch(key)
    ensures lru.Window() == After(lru.size, []) && Accepts(lru.Window(), key)
  {
    AcceptsIff(lru.size, [], key);
  }

  lemma Decide(view: seq<nat>, key: nat)
    ensures Accepts(view, key) <==> |view| > 0 && view[0] != key && view[|view| - 1] != key
    ensures Slide(view, key) == if Accepts(view, key) then view[1..] + [key] else view
  {
  }

  lemma TouchedCases<V>(c: Cache<V>, key: nat)
    ensures Accepts(c.view, key) ==> |c.view| > 0
    ensures Touched(c, key) ==
            if Accepts(c.view, key) then
              Cache(Retained(GiveBack(c.counted, c.view[0]), key), Slide(c.view, key))
            else Cache(c.counted, Slide(c.view, key))
  {
  }

  lemma GiveBackEnds<V>(c: Counted<V>, slots: seq<nat>)
    ensures GiveBackAll(c, slots[..0]) == c && GiveBackAll(c, slots[..|slots|]) == GiveBackAll(c, slots)
  {
    assert slots[..0] == [] && slots[..|slots|] == slots;
  }

  lemma GiveBackMore<V>(c: Counted<V>, slots: seq<nat>, i: nat)
    requires i < |slots|
    ensures GiveBackAll(c, slots[..i + 1]) == GiveBack(GiveBackAll(c, slots[..i]), slots[i])
  {
    assert slots[..i + 1][..i] == slots[..i];
  }

  /** One turn of the ring, seen from the oldest slot. */
  lemma Turn(items: seq<nat>, ringIndex: nat, next: nat, key: nat)
    requires ringIndex < |items| && next == (ringIndex + 1) % |items|
    ensures next < |items| && |View(items, ringIndex)| == |items|
    ensures View(items, ringIndex)[0] == items[next]
    ensures View(items, ringIndex)[|items| - 1] == items[ringIndex]
    ensures View(items[next := key], next) == View(items, ringIndex)[1..] + [key]
  {
    if ringIndex + 1 == |items| {
      SelfMod(|items|);
    } else {
      SmallMod(ringIndex + 1, |items|);
    }
    var before, after := View(items, ringIndex), View(items[next := key], next);
    assert |after| == |before| == |items|;
    forall i | 0 <= i < |items|
      ensures after[i] == (before[1..] + [key])[i]
    {
    }
  }

  lemma SelfMod(n: nat)
    requires n > 0
    ensures n % n == 0
  {
    assert n == 1 * n + 0;
  }

  lemma SmallMod(i: nat, n: nat)
    requires i < n
    ensures i % n == i
  {
  }
}
