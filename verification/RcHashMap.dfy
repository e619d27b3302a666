/** The stacked reference-counted hash map of rc_hash_map.c over the arrays of rc_map.c. */
module RcHashMap {
  import opened Seqs
  import opened CountedMap
  import opened RcMap
  import opened KeyHash
  import opened Probing
  import PreallocPool

  const ERR_NOT_FOUND: int := -3   // -CX_ERR_NOT_FOUND

  /** struct CxRcHashMapInner */
  datatype Inner<V> = Inner(keys: array<nat>, values: RcMap<V>)

  /** The three arrays of a table. */
  ghost function Arrays<V>(m: Inner<V>): seq<object> {
    [m.keys, m.values.refCount, m.values.data]
  }

  /** No two arrays of the map are the same object. */
  ghost predicate Distinct<V>(ms: seq<Inner<V>>) {
    forall i, j, a, b :: 0 <= i < |ms| && 0 <= j < |ms| && 0 <= a < 3 && 0 <= b < 3 ==>
      (Arrays(ms[i])[a] == Arrays(ms[j])[b] ==> i == j && a == b)
  }

  ghost function Content<V>(m: Inner<V>): Table<V>
    reads m.keys, m.values.refCount, m.values.data
  {
    Table(m.keys[..], m.values.refCount[..], m.values.data[..])
  }

  /** The element blocks do not overlap. */
  ghost predicate Blocks(bases: seq<nat>, bytes: nat) {
    && (forall i :: 0 <= i < |bases| ==> bases[i] > 0)
    && forall i, j :: 0 <= i < j < |bases| ==> bases[i] + bytes <= bases[j] || bases[j] + bytes <= bases[i]
  }

  class RcHashMap<V> {
    const mapSize: nat
    const elementSize: nat
    const zero: V
    const cleanup: Cleanup<V>
    var hashMaps: seq<Inner<V>>
    var bases: seq<nat>            // where malloc put the element blocks

    ghost var tables: seq<Table<V>>
    ghost var home: map<nat, Pos>
    ghost var entries: map<nat, Entry<V>>
    ghost var Repr: set<object>

    ghost predicate TableOk(j: nat)
      reads this`hashMaps, this`bases, this`tables, this`Repr, Repr
      requires j < |hashMaps|
    {
      var m := hashMaps[j];
      && m.keys in Repr && m.values.refCount in Repr && m.values.data in Repr
      && m.values.Valid() && m.values.size == mapSize == m.keys.Length
      && m.values.elementSize == elementSize && m.values.cleanup == cleanup
      && j < |tables| && Content(m) == tables[j]
      && j < |bases| && m.values.base == bases[j]
    }

    /** The tables as objects: what they hold, and that they are apart. */
    ghost predicate Concrete()
      reads this`hashMaps, this`bases, this`tables, this`Repr, Repr
    {
      && this !in Repr && cleanup !in Repr && elementSize > 0 && mapSize > 0
      && |hashMaps| == |tables| == |bases| && Sized(tables, mapSize)
      && (forall j {:trigger TableOk(j)} :: 0 <= j < |hashMaps| ==> TableOk(j))
      && Distinct(hashMaps)
      && Blocks(bases, mapSize * elementSize)
    }

    ghost predicate Valid()
      reads this, Repr
    {
      Concrete() && |hashMaps| > 0 && Inv(tables, mapSize, home, entries)
    }

    ghost function State(): Counted<V>
      reads this`entries, cleanup
    {
      Counted(entries, cleanup.values)
    }

    /** The address of a live key's value, or NULL. */
    ghost function Pointer(key: nat): nat
      reads this
    {
      if key in home && home[key].table < |bases| && mapSize > 0 then
        SlotAddress(bases[home[key].table], elementSize, Slot(key, home[key].step, mapSize))
      else 0
    }

    /** cx_rc_hash_map_init */
    constructor (size: nat, elementSize: nat, zero: V, cleanup: Cleanup<V>)
      requires size > 0 && elementSize > 0
      ensures Valid() && fresh(Repr) && this.mapSize == size && this.cleanup == cleanup
      ensures entries == map[] && tables == [EmptyTable(size, zero)] && this.elementSize == elementSize
    {
      this.mapSize, this.elementSize, this.zero, this.cleanup := size, elementSize, zero, cleanup;
      hashMaps, bases := [], [];
      tables, home, entries, Repr := [], map[], map[], {};
      new;
      ExtendHashMap();
    }

    /** extend_hash_map: appends a table of zeroed keys and unused slots. */
    method ExtendHashMap()
      requires Concrete() && Inv(tables, mapSize, home, entries)
      modifies this`hashMaps, this`bases, this`tables, this`Repr
      ensures Valid() && Repr >= old(Repr) && fresh(Repr - old(Repr))
      ensures tables == old(tables) + [EmptyTable(mapSize, zero)] && bases[..|old(bases)|] == old(bases)
      ensures |bases| == |old(bases)| + 1
    {
      hide Inv, SlotAddress, Distinct, Blocks, EmptyTable;
      var bytes := mapSize * elementSize;
      var base := PreallocPool.Calloc(bases, seq(|bases|, _ => bytes), bytes);
      ExtendKeeps(tables, mapSize, home, entries, zero);
      BlocksSnoc(bases, bytes, base);
      ArraysInRepr();
      var m := NewTable(base);
      DistinctSnoc(hashMaps, m, Repr);
      hashMaps := hashMaps + [m];
      bases := bases + [base];
      tables := tables + [EmptyTable(mapSize, zero)];
      Repr := Repr + {m.keys, m.values.refCount, m.values.data};
      assert TableOk(|hashMaps| - 1);
      forall j | 0 <= j < |hashMaps| - 1
        ensures TableOk(j)
      {
        assert old(TableOk(j));
      }
    }

    method NewTable(base: nat) returns (m: Inner<V>)
      requires base > 0 && elementSize > 0
      ensures m.values.Valid() && m.values.size == mapSize == m.keys.Length && m.values.base == base
      ensures m.values.elementSize == elementSize && m.values.cleanup == cleanup
      ensures Content(m) == EmptyTable(mapSize, zero) && Distinct([m])
      ensures fresh(m.keys) && fresh(m.values.refCount) && fresh(m.values.data)
    {
      var keys := new nat[mapSize](_ => 0);
      var values := new RcMap(base, mapSize, elementSize, zero, cleanup);
      m := Inner(keys, values);
      DistinctOne(m);
    }

    lemma ArraysInRepr()
      requires Concrete()
      ensures forall j, a :: 0 <= j < |hashMaps| && 0 <= a < 3 ==> Arrays(hashMaps[j])[a] in Repr
    {
      forall j, a | 0 <= j < |hashMaps| && 0 <= a < 3
        ensures Arrays(hashMaps[j])[a] in Repr
      {
        assert TableOk(j);
      }
    }

    /** Storing in slot index of table t, as the end of put does. */
    method StoreAt(t: nat, index: nat, key: nat, value: V) returns (p: nat)
      requires Concrete() && t < |hashMaps| && index < mapSize && tables[t].refs[index] < INT_MAX
      modifies this`tables, Repr, cleanup
      ensures Concrete()
      ensures var r := old(tables)[t].refs[index];
              && tables == Write(old(tables), t, index, key, r + 1,
                                 if r == 0 then value else old(tables)[t].data[index])
              && cleanup.values == old(cleanup.values) + if r == 0 then [] else [value]
      ensures p == SlotAddress(bases[t], elementSize, index)
    {
      hide SlotAddress, Blocks;
      assert TableOk(t);
      var m := hashMaps[t];
      OwnArrays(hashMaps, t);
      m.keys[index] := key;
      p := m.values.Set(index, value);
      tables := tables[t := Content(m)];
      assert m.keys[..] == old(m.keys[..])[index := key];
      Others(t);
    }

    method RetainAt(t: nat, index: nat) returns (p: nat)
      requires Concrete() && t < |hashMaps| && index < mapSize && tables[t].refs[index] < INT_MAX
      modifies this`tables, Repr
      ensures Concrete()
      ensures var m := old(tables)[t];
              tables == Write(old(tables), t, index, m.keys[index],
                              if m.refs[index] == 0 then 0 else m.refs[index] + 1, m.data[index])
      ensures p == if old(tables)[t].refs[index] == 0 then 0 else SlotAddress(bases[t], elementSize, index)
    {
      hide SlotAddress, Blocks;
      assert TableOk(t);
      var m := hashMaps[t];
      OwnArrays(hashMaps, t);
      p := m.values.Retain(index);
      SameSlot(tables[t].keys, index);
      SameSlot(tables[t].data, index);
      tables := tables[t := Content(m)];
      Others(t);
    }

    method ReleaseAt(t: nat, index: nat)
      requires Concrete() && t < |hashMaps| && index < mapSize && tables[t].refs[index] > 0
      modifies this`tables, Repr, cleanup
      ensures Concrete()
      ensures var m := old(tables)[t];
              && tables == Write(old(tables), t, index, m.keys[index], m.refs[index] - 1, m.data[index])
              && cleanup.values == old(cleanup.values) + if m.refs[index] == 1 then [m.data[index]] else []
    {
      hide SlotAddress, Blocks;
      assert TableOk(t);
      var m := hashMaps[t];
      OwnArrays(hashMaps, t);
      m.values.ReleaseIndex(index);
      SameSlot(tables[t].keys, index);
      SameSlot(tables[t].data, index);
      tables := tables[t := Content(m)];
      Others(t);
    }

    /**
     * The scan that put, retain and release_key share: step by step from the key's index, and in
     * each step table by table.  put also stops at a free slot.
     */
    method Probe(key: nat, limit: nat, takeFree: bool) returns (found: bool, t: nat, index: nat, ghost at: Pos)
      requires Concrete() && key < U64 && limit <= mapSize
      ensures found ==>
                && t == at.table && index == Slot(key, at.step, mapSize)
                && FoundAt(tables, mapSize, key, at, takeFree, limit)
      ensures !found ==> NoStopBefore(tables, mapSize, key, Pos(limit, 0), takeFree)
    {
      hide KeyIndex, Distinct, Blocks, Sized;
      index := KeyToIndex(key, mapSize);
      StepZero(key, mapSize);
      var i := 0;
      while i < limit
        invariant i <= limit && index % mapSize == Slot(key, i, mapSize)
        invariant NoStopBefore(tables, mapSize, key, Pos(i, 0), takeFree)
      {
        index := index % mapSize;
        t := 0;
        while t < |hashMaps|
          invariant t <= |hashMaps| && index == Slot(key, i, mapSize)
          invariant NoStopBefore(tables, mapSize, key, Pos(i, t), takeFree)
        {
          at := Pos(i, t);
          assert TableOk(t);
          var m := hashMaps[t];
          Reads(tables, mapSize, key, at, takeFree);
          if (takeFree && m.values.IsEmpty(index)) || m.keys[index] == key {
            return true, t, index, at;
          }
          NextTable(tables, mapSize, key, i, t, takeFree);
          t := t + 1;
        }
        NextStep(tables, mapSize, key, i, takeFree);
        SlotSucc(key, i, mapSize);
        i := i + 1;
        index := index + 1;
      }
      return false, 0, index, Pos(0, 0);
    }

    /** cx_rc_hash_map_retain */
    method Retain(key: nat) returns (p: nat)
      requires Valid() && key < U64
      requires key in entries ==> entries[key].count < INT_MAX
      modifies this`tables, this`entries, Repr
      ensures Valid() && Repr == old(Repr) && State() == Retained(old(State()), key)
      ensures p == Pointer(key) && (p != 0 <==> key in old(State()).entries)
    {
      hide *;
      ValidFacts();
      RetainCases(State(), key);
      var limit := if mapSize < MAX_COLLISIONS then mapSize else MAX_COLLISIONS;
      WindowIs(mapSize);
      var found, t, index, at := Probe(key, limit, false);
      if !found {
        NotFound(tables, mapSize, home, entries, key, limit);
        PointerFacts(key);
        return 0;
      }
      Lookup(tables, mapSize, home, entries, key, at, limit);
      p := RetainAt(t, index);
      if key in entries {
        entries := entries[key := Entry(entries[key].count + 1, entries[key].value)];
      }
      ValidPack();
      PointerFacts(key);
    }

    /** The pointer of a live key is the address of the slot that holds its value. */
    lemma PointerFacts(key: nat)
      requires Valid()
      ensures key !in entries ==> Pointer(key) == 0
      ensures key in entries ==>
                && home[key].table < |hashMaps|
                && var m, i := hashMaps[home[key].table].values, Slot(key, home[key].step, mapSize);
                  && m.Valid() && i < m.size
                  && Pointer(key) == m.GetElement(i) == SlotAddress(bases[home[key].table], elementSize, i) > 0
                  && m.data[i] == entries[key].value
    {
      if key in entries {
        assert AtHome(tables, mapSize, key, home[key], entries[key]);
        assert TableOk(home[key].table);
        assert Content(hashMaps[home[key].table]).data == tables[home[key].table].data;
      }
    }

    /**
     * The keys put is meant for: nonzero, because a fresh table holds zeros; and not live, or live
     * with no free slot before them.
     */
    ghost predicate MayPut(key: nat)
      requires Valid()
      reads this, Repr
    {
      key != 0 && (key in entries ==> NoFreeBefore(tables, mapSize, key, home[key]))
    }

    /**
     * The scan of put, and the table it adds when the scan finds nothing: the slot the key is to
     * go to, in the tables as they are then.
     */
    method PutPlace(key: nat, ghost value: V) returns (t: nat, index: nat, ghost at: Pos)
      requires Valid() && key < U64
      requires RoomToPut(tables, mapSize, key)
      modifies this`hashMaps, this`bases, this`tables, this`Repr
      ensures Valid() && Repr >= old(Repr) && fresh(Repr - old(Repr))
      ensures t < |hashMaps| && index < mapSize && |tables| == |hashMaps|
      ensures |tables[t].keys| == |tables[t].refs| == |tables[t].data| == mapSize && tables[t].refs[index] < INT_MAX
      ensures PutDid(old(tables), SetTo(tables, t, index, key, value), mapSize, key, value, zero)
      ensures old(MayPut(key)) ==> PutReady(tables, mapSize, home, entries, key, t, index, at, value)
    {
      ghost var may := MayPut(key);
      MayPutFacts(key);
      hide *;
      ValidFacts();
      WindowIs(mapSize);
      var limit := if mapSize < MAX_COLLISIONS then mapSize else MAX_COLLISIONS;
      var found: bool;
      found, t, index, at := Probe(key, limit, true);
      if found {
        PutSomewhere(tables, mapSize, key, at, value, zero);
        if may { PutFound(tables, mapSize, home, entries, key, at, value); }
        return;
      }
      PutNowhere(tables, mapSize, key, value, zero);
      if may { PutNotFound(tables, mapSize, home, entries, key, zero, value); }
      ExtendHashMap();
      ValidFacts();
      index := KeyToIndex(key, mapSize);
      t := |hashMaps| - 1;
      at := Pos(0, t);
      StepZero(key, mapSize);
    }

    /**
     * cx_rc_hash_map_put, on any key. On the keys it is meant for it acts as the counted map does;
     * on others it still does to the tables what PutDid says.
     */
    method Put(key: nat, value: V) returns (p: nat)
      requires Valid() && key < U64
      requires RoomToPut(tables, mapSize, key)
      modifies this, Repr, cleanup
      ensures Concrete() && fresh(Repr - old(Repr)) && PutDid(old(tables), tables, mapSize, key, value, zero)
      ensures old(MayPut(key)) ==> Valid() && State() == WithPut(old(State()), key, value) && p == Pointer(key) != 0
    {
      ghost var may, was := MayPut(key), State();
      hide *;
      ValidFacts();
      var t, index, at := PutPlace(key, value);
      ValidFacts();
      ghost var before := tables;
      SetToIs(tables, t, index, key, value);
      p := StoreAt(t, index, key, value);
      if may {
        Gain(before, t, index, key, at, value, was);
        PointerFacts(key);
      }
    }

    /** The ghost side of a put. */
    ghost method Gain(before: seq<Table<V>>, t: nat, index: nat, key: nat, at: Pos, value: V, was: Counted<V>)
      requires Concrete() && |hashMaps| > 0 && was.entries == entries
      requires PutReady(before, mapSize, home, entries, key, t, index, at, value)
      requires tables == SetTo(before, t, index, key, value)
      requires cleanup.values == was.cleaned + if before[t].refs[index] == 0 then [] else [value]
      modifies this`home, this`entries
      ensures Valid() && key in entries && State() == WithPut(was, key, value)
      ensures mapSize > 0 && key in home && home[key].table == t && Slot(key, home[key].step, mapSize) == index
    {
      assert PutReady(before, mapSize, home, entries, key, t, index, at, value);
      hide Inv, Concrete, SetTo, WithPut, Slot;
      PutCases(was, key, value);
      if key in entries {
        entries := entries[key := Entry(entries[key].count + 1, entries[key].value)];
      } else {
        home, entries := home[key := at], entries[key := Entry(1, value)];
      }
    }

    lemma MayPutFacts(key: nat)
      requires Valid()
      ensures MayPut(key) <==> key != 0 && (key in home ==> NoFreeBefore(tables, mapSize, key, home[key]))
      ensures key in home <==> key in entries
    {
      hide SlotAddress, Distinct, Blocks;
    }

    /** cx_rc_hash_map_release_key; a stale key would fail the assertion of release_rc. */
    method ReleaseKey(key: nat) returns (rv: int)
      requires Valid() && key < U64
      requires key in entries || NoStopBefore(tables, mapSize, key, Pos(mapSize, 0), false)
      modifies this, Repr, cleanup
      ensures Valid() && Repr == old(Repr)
      ensures State() == Released(old(State()), key) && rv == 0
    {
      hide *;
      ValidFacts();
      ReleaseCases(State(), key);
      WindowIs(mapSize);
      var found, t, index, at := Probe(key, mapSize, false);
      if !found {
        NotFound(tables, mapSize, home, entries, key, mapSize);
        return 0;
      }
      Lookup(tables, mapSize, home, entries, key, at, mapSize);
      FoundLive(tables, mapSize, home, entries, key, at);
      ReleaseAt(t, index);
      Drop(key);
      return 0;
    }

    /** The ghost side of a release. */
    ghost method Drop(key: nat)
      requires Concrete() && |hashMaps| > 0 && key in entries && entries[key].count > 0
      requires entries[key].count > 1 ==>
                 Inv(tables, mapSize, home, entries[key := Entry(entries[key].count - 1, entries[key].value)])
      requires entries[key].count == 1 ==> Inv(tables, mapSize, home - {key}, entries - {key})
      modifies this`home, this`entries
      ensures Valid() && State() == Counted(entries, cleanup.values)
      ensures entries == if old(entries)[key].count == 1 then old(entries) - {key}
                         else old(entries)[key := Entry(old(entries)[key].count - 1, old(entries)[key].value)]
    {
      if entries[key].count == 1 {
        home, entries := home - {key}, entries - {key};
      } else {
        entries := entries[key := Entry(entries[key].count - 1, entries[key].value)];
      }
    }

    /** Whether an address lies in the element block of table j, and in which slot. */
    ghost predicate InBlock(j: nat, p: nat)
      reads this`bases
      requires j < |bases|
    {
      p != 0 && bases[j] <= p < bases[j] + mapSize * elementSize
    }

    ghost function SlotIn(j: nat, p: nat): (i: nat)
      reads this`bases
      requires j < |bases| && elementSize > 0 && InBlock(j, p)
      ensures i < mapSize
    {
      IndexInRange(bases[j], elementSize, mapSize, p);
      (p - bases[j]) / elementSize
    }

    /** An address lies in at most one block. */
    lemma OneBlock(i: nat, p: nat)
      requires Concrete() && i < |bases| && InBlock(i, p)
      ensures forall j :: 0 <= j < |bases| && InBlock(j, p) ==> j == i
    {
    }

    /** The elements of two live keys do not overlap. */
    lemma ElementsApart(k: nat, l: nat)
      requires Valid() && k in entries && l in entries && k != l
      ensures Pointer(k) + elementSize <= Pointer(l) || Pointer(l) + elementSize <= Pointer(k)
    {
      HomeOf(k);
      HomeOf(l);
      hide *;
      SlotsApart(bases, elementSize, mapSize, home[k].table, Slot(k, home[k].step, mapSize),
                 home[l].table, Slot(l, home[l].step, mapSize));
    }

    lemma HomeOf(key: nat)
      requires Valid() && key in entries
      ensures mapSize > 0 && elementSize > 0 && Blocks(bases, mapSize * elementSize)
      ensures key in home && home[key].table < |bases| && home[key].table < |tables|
      ensures var j, i := home[key].table, Slot(key, home[key].step, mapSize);
              && Pointer(key) == SlotAddress(bases[j], elementSize, i)
              && i < |tables[j].keys| && tables[j].keys[i] == key
    {
      assert AtHome(tables, mapSize, key, home[key], entries[key]);
    }

    /** The pointer of a live key lies in one block, in the slot that holds the key. */
    lemma PointerInBlock(key: nat)
      requires Valid() && key in entries
      ensures home[key].table < |bases| && InBlock(home[key].table, Pointer(key))
      ensures var j, i := home[key].table, SlotIn(home[key].table, Pointer(key));
              j < |tables| && i < |tables[j].keys| && tables[j].keys[i] == key && tables[j].refs[i] > 0
    {
      PointerFacts(key);
      assert AtHome(tables, mapSize, key, home[key], entries[key]);
      AddressIndex(bases[home[key].table], elementSize, mapSize, Slot(key, home[key].step, mapSize), 0);
    }

    /** cx_rc_hash_map_release, by the address of a value in use. */
    method Release(element: nat) returns (rv: int)
      requires Valid()
      requires forall j :: 0 <= j < |bases| && InBlock(j, element) ==>
                 |tables| == |bases| && SlotIn(j, element) < |tables[j].refs| && tables[j].refs[SlotIn(j, element)] > 0
      modifies this, Repr, cleanup
      ensures Valid() && Repr == old(Repr) && bases == old(bases) && |old(tables)| == |bases|
      ensures (forall j :: 0 <= j < |bases| ==> !InBlock(j, element)) ==>
                State() == old(State()) && rv == -3
      ensures forall j :: 0 <= j < |bases| && InBlock(j, element) && SlotIn(j, element) < |old(tables)[j].keys| ==>
                State() == Released(old(State()), old(tables)[j].keys[SlotIn(j, element)]) && rv == 0
    {
      assert ERR_NOT_FOUND == -3;
      hide *;
      ValidFacts();
      var i := 0;
      while i < |hashMaps| && !hashMaps[i].values.Contains(element)
        modifies {}
        invariant i <= |hashMaps|
        invariant forall j :: 0 <= j < i ==> !InBlock(j, element)
      {
        BlockFacts(i, element);
        i := i + 1;
      }
      if i == |hashMaps| {
        return ERR_NOT_FOUND;
      }
      BlockFacts(i, element);
      OneBlock(i, element);
      var index := hashMaps[i].values.SlotOf(element);
      SlotLookup(tables, mapSize, home, entries, i, index);
      ghost var key := tables[i].keys[index];
      ReleaseCases(State(), key);
      ReleaseAt(i, index);
      Drop(key);
      assert InBlock(i, element);
      return 0;
    }

    lemma BlockFacts(i: nat, p: nat)
      requires Valid() && i < |hashMaps|
      ensures elementSize > 0 && hashMaps[i].values.elementSize > 0
      ensures hashMaps[i].values.Contains(p) <==> InBlock(i, p)
      ensures InBlock(i, p) ==> hashMaps[i].values.SlotOf(p) == SlotIn(i, p) < mapSize
      ensures |tables[i].keys| == |tables[i].refs| == |tables[i].data| == mapSize
    {
      assert TableOk(i);
    }

    lemma ValidFacts()
      requires Valid()
      ensures Concrete() && |hashMaps| == |tables| == |bases| > 0 && mapSize > 0
      ensures Sized(tables, mapSize) && Inv(tables, mapSize, home, entries)
      ensures home.Keys == entries.Keys
      ensures State() == Counted(entries, cleanup.values) && Positive(State())
    {
      forall k | k in entries
        ensures entries[k].count > 0
      {
        assert AtHome(tables, mapSize, k, home[k], entries[k]);
      }
    }

    lemma ValidPack()
      requires Concrete() && |hashMaps| > 0 && Inv(tables, mapSize, home, entries)
      ensures Valid() && State() == Counted(entries, cleanup.values)
    {
    }

    /** What a change to one table's arrays leaves alone. */
    twostate lemma Others(t: nat)
      requires old(Concrete()) && t < |hashMaps| && hashMaps == old(hashMaps) && bases == old(bases)
               && Repr == old(Repr)
      requires |tables| == |old(tables)|
      requires forall j :: 0 <= j < |tables| && j != t ==> tables[j] == old(tables)[j]
      requires forall o :: o in Repr && o !in Arrays(hashMaps[t]) ==> unchanged(o)
      ensures forall j :: 0 <= j < |hashMaps| && j != t ==> TableOk(j)
    {
      forall j | 0 <= j < |hashMaps| && j != t
        ensures TableOk(j)
      {
        assert old(TableOk(j));
        ApartArrays(hashMaps, j, t);
      }
    }
  }

  lemma OwnArrays<V>(ms: seq<Inner<V>>, i: nat)
    requires Distinct(ms) && i < |ms|
    ensures ms[i].keys as object != ms[i].values.refCount as object
    ensures ms[i].keys as object != ms[i].values.data as object
  {
    assert Arrays(ms[i])[0] != Arrays(ms[i])[1] && Arrays(ms[i])[0] != Arrays(ms[i])[2];
  }

  lemma ApartArrays<V>(ms: seq<Inner<V>>, i: nat, j: nat)
    requires Distinct(ms) && i < |ms| && j < |ms| && i != j
    ensures forall a :: 0 <= a < 3 ==> Arrays(ms[i])[a] !in Arrays(ms[j])
    ensures ms[i].keys as object !in Arrays(ms[j])
    ensures ms[i].values.refCount as object !in Arrays(ms[j])
    ensures ms[i].values.data as object !in Arrays(ms[j])
  {
    assert Arrays(ms[i])[0] == ms[i].keys && Arrays(ms[i])[1] == ms[i].values.refCount
           && Arrays(ms[i])[2] == ms[i].values.data;
  }

  lemma DistinctOne<V>(m: Inner<V>)
    requires m.keys as object != m.values.refCount as object && m.keys as object != m.values.data as object
    requires m.values.refCount as object != m.values.data as object
    ensures Distinct([m])
  {
  }

  lemma DistinctSnoc<V>(ms: seq<Inner<V>>, m: Inner<V>, repr: set<object>)
    requires Distinct(ms) && Distinct([m])
    requires forall j, a :: 0 <= j < |ms| && 0 <= a < 3 ==> Arrays(ms[j])[a] in repr
    requires forall a :: 0 <= a < 3 ==> Arrays(m)[a] !in repr
    ensures Distinct(ms + [m])
  {
    var ms' := ms + [m];
    forall i, j, a, b | 0 <= i < |ms'| && 0 <= j < |ms'| && 0 <= a < 3 && 0 <= b < 3
      && Arrays(ms'[i])[a] == Arrays(ms'[j])[b]
      ensures i == j && a == b
    {
      assert i < |ms| ==> Arrays(ms[i])[a] in repr;
      assert j < |ms| ==> Arrays(ms[j])[b] in repr;
      assert [m][0] == m;
    }
  }

  lemma BlocksSnoc(bases: seq<nat>, bytes: nat, base: nat)
    requires Blocks(bases, bytes) && base > 0
    requires PreallocPool.Apart(bases, seq(|bases|, _ => bytes), base, bytes)
    ensures Blocks(bases + [base], bytes)
  {
  }

  /** Different slots do not overlap. */
  lemma SlotsApart(bases: seq<nat>, elementSize: nat, size: nat, a: nat, i: nat, b: nat, j: nat)
    requires Blocks(bases, size * elementSize) && a < |bases| && b < |bases| && i < size && j < size
    requires a != b || i != j
    ensures var p, q := SlotAddress(bases[a], elementSize, i), SlotAddress(bases[b], elementSize, j);
            p + elementSize <= q || q + elementSize <= p
  {
    NextElement(i, size, elementSize);
    NextElement(j, size, elementSize);
    if a == b {
      if i < j { NextElement(i, j, elementSize); } else { NextElement(j, i, elementSize); }
    }
  }

  lemma SameSlot<T>(s: seq<T>, i: nat)
    requires i < |s|
    ensures s[i := s[i]] == s
  {
  }

  lemma StepZero(key: nat, size: nat)
    requires size > 0
    ensures KeyIndex(key, size) % size == KeyIndex(key, size) == Slot(key, 0, size)
  {
    hide KeyIndex;
    var i := KeyIndex(key, size);
    ModUnique(i, size, 0, i);
  }

  lemma SlotSucc(key: nat, step: nat, size: nat)
    requires size > 0
    ensures (Slot(key, step, size) + 1) % size == Slot(key, step + 1, size)
  {
    var x := KeyIndex(key, size) + step;
    ModSucc(x, size);
  }

  lemma ModSucc(x: nat, n: nat)
    requires n > 0
    ensures (x % n + 1) % n == (x + 1) % n
  {
    var q, r := x / n, x % n;
    assert x == q * n + r;
    if r + 1 == n {
      assert x + 1 == (q + 1) * n + 0;
      ModUnique(x + 1, n, q + 1, 0);
      ModUnique(n, n, 1, 0);
    } else {
      ModUnique(x + 1, n, q, r + 1);
      ModUnique(r + 1, n, 0, r + 1);
    }
  }

  lemma ModUnique(x: nat, n: nat, q: nat, r: nat)
    requires n > 0 && x == q * n + r && r < n
    ensures x % n == r
  {
    DivUnique(x, n, q);
    assert x == (x / n) * n + x % n;
  }

  lemma Reads<V>(ts: seq<Table<V>>, size: nat, key: nat, p: Pos, takeFree: bool)
    requires Sized(ts, size) && p.table < |ts|
    ensures var i := Slot(key, p.step, size);
            && i < |ts[p.table].keys| && i < |ts[p.table].refs|
            && (Stops(ts, size, key, p, takeFree) <==>
                  (takeFree && ts[p.table].refs[i] == 0) || ts[p.table].keys[i] == key)
  {
  }

  lemma NextTable<V>(ts: seq<Table<V>>, size: nat, key: nat, i: nat, t: nat, takeFree: bool)
    requires Sized(ts, size) && t < |ts| && NoStopBefore(ts, size, key, Pos(i, t), takeFree)
    requires !Stops(ts, size, key, Pos(i, t), takeFree)
    ensures NoStopBefore(ts, size, key, Pos(i, t + 1), takeFree)
  {
    hide Stops;
    forall q: Pos | q.table < |ts| && Before(q, Pos(i, t + 1))
      ensures !Stops(ts, size, key, q, takeFree)
    {
      assert Before(q, Pos(i, t)) || q == Pos(i, t);
    }
  }

  lemma NextStep<V>(ts: seq<Table<V>>, size: nat, key: nat, i: nat, takeFree: bool)
    requires Sized(ts, size) && NoStopBefore(ts, size, key, Pos(i, |ts|), takeFree)
    ensures NoStopBefore(ts, size, key, Pos(i + 1, 0), takeFree)
  {
    hide Stops;
    forall q: Pos | q.table < |ts| && Before(q, Pos(i + 1, 0))
      ensures !Stops(ts, size, key, q, takeFree)
    {
      assert Before(q, Pos(i, |ts|));
    }
  }

  lemma WindowIs(size: nat)
    ensures 0 < INT_MAX && Window(size) == (if size < MAX_COLLISIONS then size else MAX_COLLISIONS) <= size
  {
  }

  lemma NotFound<V>(ts: seq<Table<V>>, size: nat, home: map<nat, Pos>, entries: map<nat, Entry<V>>, key: nat,
                    limit: nat)
    requires Inv(ts, size, home, entries) && limit >= Window(size) && NoStopBefore(ts, size, key, Pos(limit, 0), false)
    ensures key !in entries
  {
    if key in home {
      LiveIsFound(ts, size, home, entries, key, limit, false);
    }
  }

  /** What a lookup that found the key goes on with. */
  lemma Lookup<V>(ts: seq<Table<V>>, size: nat, home: map<nat, Pos>, entries: map<nat, Entry<V>>, key: nat, p: Pos,
                  limit: nat)
    requires Inv(ts, size, home, entries) && FoundAt(ts, size, key, p, false, limit)
    ensures p.table < |ts| && Slot(key, p.step, size) < size
    ensures var m, i := ts[p.table], Slot(key, p.step, size);
            && |m.keys| == |m.refs| == |m.data| == size && m.keys[i] == key && m.refs[i] >= 0
            && (key in entries <==> m.refs[i] > 0)
            && (key in entries ==>
                  && p == home[key] && m.refs[i] == entries[key].count && m.data[i] == entries[key].value
                  && (forall r: nat :: r > 0 ==>
                        Inv(Write(ts, p.table, i, key, r, m.data[i]), size, home, entries[key := Entry(r, m.data[i])]))
                  && Inv(Write(ts, p.table, i, key, 0, m.data[i]), size, home - {key}, entries - {key}))
            && (key !in entries ==> Write(ts, p.table, i, key, 0, m.data[i]) == ts)
  {
    FoundIsHome(ts, size, home, entries, key, p, limit);
    if key in home {
      FreeKeeps(ts, size, home, entries, key);
      InRange(ts, size, key, p, entries[key]);
      forall r: nat | r > 0
        ensures Inv(Write(ts, p.table, Slot(key, p.step, size), key, r, entries[key].value), size, home,
                entries[key := Entry(r, entries[key].value)])
      {
        CountKeeps(ts, size, home, entries, key, r);
      }
    } else {
      var m, i := ts[p.table], Slot(key, p.step, size);
      SameSlot(m.keys, i);
      SameSlot(m.refs, i);
      SameSlot(m.data, i);
      SameSlot(ts, p.table);
    }
  }

  lemma FoundLive<V>(ts: seq<Table<V>>, size: nat, home: map<nat, Pos>, entries: map<nat, Entry<V>>, key: nat, p: Pos)
    requires Inv(ts, size, home, entries) && FoundAt(ts, size, key, p, false, size)
    requires key in entries || NoStopBefore(ts, size, key, Pos(size, 0), false)
    ensures key in entries
  {
    assert Before(p, Pos(size, 0));
  }

  /** Slot i of table j takes the key, and the value if it was free; its count goes up by one. */
  ghost function SetTo<V>(ts: seq<Table<V>>, j: nat, i: nat, key: nat, v: V): seq<Table<V>>
    requires j < |ts| && i < |ts[j].keys| == |ts[j].refs| == |ts[j].data|
  {
    Write(ts, j, i, key, ts[j].refs[i] + 1, if ts[j].refs[i] == 0 then v else ts[j].data[i])
  }

  lemma SetToIs<V>(ts: seq<Table<V>>, j: nat, i: nat, key: nat, v: V)
    requires j < |ts| && i < |ts[j].keys| == |ts[j].refs| == |ts[j].data|
    ensures SetTo(ts, j, i, key, v) ==
            Write(ts, j, i, key, ts[j].refs[i] + 1, if ts[j].refs[i] == 0 then v else ts[j].data[i])
  {
  }

  ghost predicate PutFinds<V>(ts: seq<Table<V>>, size: nat, key: nat, p: Pos) {
    Sized(ts, size) && FoundAt(ts, size, key, p, true, Window(size))
  }

  /** The count of the slot where the scan stops can still go up by one. */
  ghost predicate RoomToPut<V>(ts: seq<Table<V>>, size: nat, key: nat) {
    forall p :: PutFinds(ts, size, key, p) ==> RefAt(ts, size, key, p) < INT_MAX
  }

  ghost predicate PutMisses<V>(ts: seq<Table<V>>, size: nat, key: nat) {
    Sized(ts, size) && NoStopBefore(ts, size, key, Pos(Window(size), 0), true)
  }

  /** What put does to the tables: it stores where its scan stops, or in the first place of a new table. */
  ghost predicate PutDid<V>(ts: seq<Table<V>>, ts': seq<Table<V>>, size: nat, key: nat, v: V, zero: V) {
    || (exists p :: PutFinds(ts, size, key, p) && ts' == SetTo(ts, p.table, Slot(key, p.step, size), key, v))
    || (PutMisses(ts, size, key) && ts' == SetTo(ts + [EmptyTable(size, zero)], |ts|, Slot(key, 0, size), key, v))
  }

  /** Storing the key in slot i of table t is what the counted map's put asks for. */
  ghost predicate PutReady<V>(ts: seq<Table<V>>, size: nat, home: map<nat, Pos>, entries: map<nat, Entry<V>>,
                              key: nat, t: nat, i: nat, at: Pos, v: V)
  {
    && size > 0 && t < |ts| && i < |ts[t].keys| == |ts[t].refs| == |ts[t].data|
    && (key in entries ==>
          && ts[t].refs[i] > 0 && key in home && home[key].table == t && Slot(key, home[key].step, size) == i
          && Inv(SetTo(ts, t, i, key, v), size, home,
                 entries[key := Entry(entries[key].count + 1, entries[key].value)]))
    && (key !in entries ==>
          && ts[t].refs[i] == 0 && at.table == t && Slot(key, at.step, size) == i
          && Inv(SetTo(ts, t, i, key, v), size, home[key := at], entries[key := Entry(1, v)]))
  }

  lemma PutSomewhere<V>(ts: seq<Table<V>>, size: nat, key: nat, p: Pos, v: V, zero: V)
    requires Sized(ts, size) && FoundAt(ts, size, key, p, true, Window(size))
    ensures p.table < |ts| && (RoomToPut(ts, size, key) ==> RefAt(ts, size, key, p) < INT_MAX)
    ensures var m, i := ts[p.table], Slot(key, p.step, size);
            && i < size == |m.keys| == |m.refs| == |m.data| && RefAt(ts, size, key, p) == m.refs[i]
            && PutDid(ts, SetTo(ts, p.table, i, key, v), size, key, v, zero)
  {
    assert p.table < |ts| && PutFinds(ts, size, key, p);
    hide FoundAt, Slot, SetTo;
  }

  lemma PutNowhere<V>(ts: seq<Table<V>>, size: nat, key: nat, v: V, zero: V)
    requires Sized(ts, size) && NoStopBefore(ts, size, key, Pos(Window(size), 0), true)
    ensures var ts', i := ts + [EmptyTable(size, zero)], Slot(key, 0, size);
            && i < size == |ts'[|ts|].keys| == |ts'[|ts|].refs| == |ts'[|ts|].data| && ts'[|ts|].refs[i] == 0
            && PutDid(ts, SetTo(ts', |ts|, i, key, v), size, key, v, zero)
  {
    hide NoStopBefore, Slot, SetTo;
  }

  lemma PutFound<V>(ts: seq<Table<V>>, size: nat, home: map<nat, Pos>, entries: map<nat, Entry<V>>, key: nat, p: Pos,
                    v: V)
    requires Inv(ts, size, home, entries) && FoundAt(ts, size, key, p, true, Window(size)) && key != 0
    requires key in home ==> NoFreeBefore(ts, size, key, home[key])
    ensures p.table < |ts| && PutReady(ts, size, home, entries, key, p.table, Slot(key, p.step, size), p, v)
  {
    if key in home {
      PutFindsHome(ts, size, home, entries, key, p, Window(size));
      CountKeeps(ts, size, home, entries, key, entries[key].count + 1);
      InRange(ts, size, key, p, entries[key]);
    } else {
      PutSpot(ts, size, home, entries, key, p, Window(size));
      PutKeeps(ts, size, home, entries, key, p, v);
    }
    hide AtHome, Owned, FoundAt, NoFreeBefore, FreshUpTo, Slot;
  }

  lemma PutNotFound<V>(ts: seq<Table<V>>, size: nat, home: map<nat, Pos>, entries: map<nat, Entry<V>>, key: nat,
                       zero: V, v: V)
    requires Inv(ts, size, home, entries) && NoStopBefore(ts, size, key, Pos(Window(size), 0), true) && key != 0
    ensures PutReady(ts + [EmptyTable(size, zero)], size, home, entries, key, |ts|, Slot(key, 0, size), Pos(0, |ts|), v)
  {
    if key in home {
      LiveIsFound(ts, size, home, entries, key, Window(size), true);
    } else {
      PutInNewTable(ts, size, key, zero);
      ExtendKeeps(ts, size, home, entries, zero);
      PutKeeps(ts + [EmptyTable(size, zero)], size, home, entries, key, Pos(0, |ts|), v);
    }
    hide AtHome, Owned, NoStopBefore, FreshUpTo, Slot;
  }

  /** A slot in use is the home of the key it holds. */
  lemma SlotLookup<V>(ts: seq<Table<V>>, size: nat, home: map<nat, Pos>, entries: map<nat, Entry<V>>, j: nat, i: nat)
    requires Inv(ts, size, home, entries) && j < |ts| && i < size && ts[j].refs[i] > 0
    ensures var key, v := ts[j].keys[i], ts[j].data[i];
            && key in entries && entries[key] == Entry(ts[j].refs[i], v)
            && (forall r: nat :: r > 0 ==> Inv(Write(ts, j, i, key, r, v), size, home, entries[key := Entry(r, v)]))
            && Inv(Write(ts, j, i, key, 0, v), size, home - {key}, entries - {key})
  {
    assert Owned(ts, size, home, j, i);
    var key := ts[j].keys[i];
    FreeKeeps(ts, size, home, entries, key);
    InRange(ts, size, key, home[key], entries[key]);
    forall r: nat | r > 0
      ensures Inv(Write(ts, j, i, key, r, ts[j].data[i]), size, home, entries[key := Entry(r, ts[j].data[i])])
    {
      CountKeeps(ts, size, home, entries, key, r);
    }
  }
}
