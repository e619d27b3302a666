/** The containers behind the ring of lru.c, as the tables of functions it calls them through. */
module LruBackend {
  import opened Seqs
  import opened CountedMap
  import opened RcMap
  import opened Probing
  import opened Ring
  import opened RcRadixTree
  import opened RcHashMap

  /** cx_lru_rc_radix_tree over a tree, or cx_lru_rc_hash_map over a hash map. */
  datatype Backend<V> =
    | Tree(tree: RcRadixTree<V>)
    | Hash(table: RcHashMap<V>)
  {
    ghost function Roots(): set<object> {
      if Tree? then {tree, tree.values} else {table}
    }

    /** The objects an operation may change. */
    ghost function Objects(): set<object>
      reads Roots()
    {
      if Tree? then {tree, tree.values, tree.values.branchPool, tree.values.leafPool}
      else {table, table.cleanup} + table.Repr
    }

    ghost predicate Valid()
      reads Roots(), Objects()
    {
      if Tree? then tree.Valid() else table.Valid()
    }

    /** The counted map it holds. */
    ghost function State(): Counted<V>
      reads Roots(), Objects()
    {
      if Tree? then tree.State() else table.State()
    }

    /** The address of a live key's value, or NULL. */
    ghost function Pointer(key: nat): nat
      reads Roots()
    {
      if Tree? then tree.Pointer(key) else table.Pointer(key)
    }

    /** Of the two only the tree has a retain_value. */
    ghost predicate IsTree() {
      Tree?
    }

    /** The hash map counts in an int, which must not overflow. */
    ghost predicate RoomFor(c: Counted<V>, key: nat) {
      Hash? ==> Count(c, key) < INT_MAX
    }

    ghost predicate MayRetain(key: nat)
      reads Roots(), Objects()
    {
      RoomFor(State(), key)
    }

    /** A ring may give back all these slots: the hash map needs them covered by its counts. */
    ghost predicate TakesBack(c: Counted<V>, slots: seq<nat>) {
      Hash? ==> Covers(c, slots)
    }

    /** The hash map asserts that a key it still finds is live. */
    ghost predicate MayRelease(key: nat)
      reads Roots(), Objects()
      requires Valid()
    {
      Hash? ==> key in table.entries || NoStopBefore(table.tables, table.mapSize, key, Pos(table.mapSize, 0), false)
    }

    ghost predicate MayPut(key: nat)
      reads Roots(), Objects()
      requires Valid()
    {
      Hash? ==> table.MayPut(key) && RoomToPut(table.tables, table.mapSize, key)
    }

    lemma StatePositive()
      requires Valid()
      ensures Positive(State())
    {
      if Hash? { table.ValidFacts(); }
    }

    lemma MayRetainFacts(key: nat)
      ensures MayRetain(key) <==> RoomFor(State(), key)
    {
    }

    /** Giving back a reference leaves room for the others. */
    lemma StillMayRetain(before: Counted<V>, key: nat, slot: nat)
      requires State() == Released(before, slot) && RoomFor(before, key)
      ensures MayRetain(key)
    {
    }

    /** The next slot of those a ring may give back. */
    lemma NextMayRelease(before: Counted<V>, slots: seq<nat>, i: nat)
      requires Valid() && Positive(before) && TakesBack(before, slots)
      requires i < |slots| && slots[i] != EMPTY_MARKER && State() == GiveBackAll(before, slots[..i])
      ensures MayRelease(slots[i])
    {
      if Hash? {
        SlotStaysLive(before, slots, i);
        LiveMayRelease(slots[i]);
      }
    }

    lemma LiveMayRelease(key: nat)
      requires Valid() && key in State().entries
      ensures MayRelease(key)
    {
    }

    lemma DeadMayPut(key: nat)
      requires Valid() && key !in State().entries && key != 0
      ensures MayPut(key)
    {
      if Hash? {
        forall p | PutFinds(table.tables, table.mapSize, key, p)
          ensures RefAt(table.tables, table.mapSize, key, p) < INT_MAX
        {
          PutSpot(table.tables, table.mapSize, table.home, table.entries, key, p, Probing.Window(table.mapSize));
        }
      }
    }

    twostate lemma SameObjects()
      requires Hash? ==> table.Repr == old(table.Repr)
      ensures Objects() == old(Objects())
    {
    }

    lemma RetainFacts(key: nat)
      requires Valid() && MayRetain(key)
      ensures Hash? && key in table.entries ==> table.entries[key].count < INT_MAX
    {
    }

    method Retain(key: nat) returns (p: nat)
      requires Valid() && key < U64 && MayRetain(key)
      modifies Objects()
      ensures Valid() && Objects() == old(Objects()) && State() == Retained(old(State()), key)
      ensures p == Pointer(key) && (p != 0 <==> key in old(State()).entries)
    {
      RetainFacts(key);
      hide MayRetain;
      hide RcRadixTree.Valid, RcHashMap.Valid, RcRadixTree.State, RcHashMap.State, RcRadixTree.Pointer,
           RcHashMap.Pointer;
      if Tree? {
        p := tree.Retain(key);
      } else {
        p := table.Retain(key);
      }
      SameObjects();
    }

    /** On the pointer of a live key. */
    method RetainValue(p: nat, ghost key: nat)
      requires IsTree() && Valid() && p != 0 && p == Pointer(key)
      modifies Objects()
      ensures Valid() && Objects() == old(Objects()) && State() == Retained(old(State()), key)
    {
      hide RcRadixTree.Valid, RcRadixTree.State, RcRadixTree.Pointer;
      tree.RetainValue(p, key);
    }

    method Release(key: nat) returns (rv: int)
      requires Valid() && key < U64 && MayRelease(key)
      modifies Objects()
      ensures Valid() && Objects() == old(Objects()) && State() == Released(old(State()), key)
      ensures IsTree() ==> forall k :: k != key ==> Pointer(k) == old(Pointer(k))
      ensures rv == if IsTree() && key !in old(State()).entries then -1 else 0
    {
      hide NoStopBefore, Released, RcRadixTree.Valid, RcRadixTree.State, RcHashMap.Valid, RcHashMap.State,
           RcRadixTree.Pointer;
      if Tree? {
        rv := tree.Release(key);
      } else {
        rv := table.ReleaseKey(key);
      }
      SameObjects();
    }

    /** The reference of a ring slot is given back, unless the slot is empty. */
    method TakeBack(slot: nat, ghost key: nat)
      requires Valid() && slot < U64 && (slot != EMPTY_MARKER ==> MayRelease(slot))
      modifies Objects()
      ensures Valid() && Objects() == old(Objects()) && State() == GiveBack(old(State()), slot)
      ensures IsTree() && slot != key ==> Pointer(key) == old(Pointer(key))
      ensures old(MayRetain(key)) ==> MayRetain(key)
    {
      MayRetainFacts(key);
      ghost var may, before := MayRetain(key), State();
      DecideSlot(State(), slot);
      hide *;
      if slot != EMPTY_MARKER {
        var _ := Release(slot);
        if may { StillMayRetain(before, key, slot); }
      }
    }

    method Put(key: nat, value: V) returns (p: nat)
      requires Valid() && key < U64 && MayPut(key)
      modifies Objects()
      ensures Valid() && fresh(Objects() - old(Objects())) && State() == WithPut(old(State()), key, value)
      ensures p == Pointer(key) != 0
    {
      match this
      case Tree(t) => p := t.Put(key, value);
      case Hash(h) => p := h.Put(key, value);
    }
  }

  lemma DecideSlot<V>(c: Counted<V>, slot: nat)
    ensures GiveBack(c, slot) == if slot == EMPTY_MARKER then c else Released(c, slot)
  {
  }
}
