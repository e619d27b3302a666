/**
 * The probe order of rc_hash_map.c over a growing list of tables whose keys are never cleared.
 * A position is a probe step and a table; a key is looked for step by step, and in each step
 * table by table.
 */
module Probing {
  import opened CountedMap
  import opened KeyHash

  const MAX_COLLISIONS: nat := 5

  datatype Table<V> = Table(keys: seq<nat>, refs: seq<int>, data: seq<V>)
  datatype Pos = Pos(step: nat, table: nat)

  ghost predicate Sized<V>(ts: seq<Table<V>>, size: nat) {
    && size > 0
    && forall j :: 0 <= j < |ts| ==> |ts[j].keys| == |ts[j].refs| == |ts[j].data| == size
  }

  /** The slot a key's probe visits in a step. */
  ghost function Slot(key: nat, step: nat, size: nat): (i: nat)
    requires size > 0
    ensures i < size
  {
    (KeyIndex(key, size) + step) % size
  }

  ghost function Window(size: nat): nat {
    if size < MAX_COLLISIONS then size else MAX_COLLISIONS
  }

  ghost function KeyAt<V>(ts: seq<Table<V>>, size: nat, key: nat, p: Pos): nat
    requires Sized(ts, size) && p.table < |ts|
  {
    ts[p.table].keys[Slot(key, p.step, size)]
  }

  ghost function RefAt<V>(ts: seq<Table<V>>, size: nat, key: nat, p: Pos): int
    requires Sized(ts, size) && p.table < |ts|
  {
    ts[p.table].refs[Slot(key, p.step, size)]
  }

  ghost predicate Before(p: Pos, q: Pos) {
    p.step < q.step || (p.step == q.step && p.table < q.table)
  }

  /** No position before p on the probe of the key holds the key, live or stale. */
  ghost predicate FreshUpTo<V>(ts: seq<Table<V>>, size: nat, key: nat, p: Pos)
    requires Sized(ts, size)
  {
    forall q: Pos {:trigger KeyAt(ts, size, key, q)} :: q.table < |ts| && Before(q, p) ==>
      KeyAt(ts, size, key, q) != key
  }

  /** A live key sits in its window, at the first place of its probe that holds it. */
  ghost predicate AtHome<V>(ts: seq<Table<V>>, size: nat, key: nat, p: Pos, e: Entry<V>)
    requires Sized(ts, size)
  {
    && key != 0 && p.step < Window(size) && p.table < |ts|
    && KeyAt(ts, size, key, p) == key && FreshUpTo(ts, size, key, p)
    && RefAt(ts, size, key, p) == e.count > 0
    && ts[p.table].data[Slot(key, p.step, size)] == e.value
  }

  /** A slot in use is the home of its key. */
  ghost predicate Owned<V>(ts: seq<Table<V>>, size: nat, home: map<nat, Pos>, j: nat, i: nat)
    requires Sized(ts, size) && j < |ts| && i < size
  {
    && ts[j].refs[i] >= 0
    && (ts[j].refs[i] > 0 ==>
          var key := ts[j].keys[i];
          key in home && home[key].table == j && Slot(key, home[key].step, size) == i)
  }

  ghost predicate Inv<V>(ts: seq<Table<V>>, size: nat, home: map<nat, Pos>, entries: map<nat, Entry<V>>) {
    && Sized(ts, size) && home.Keys == entries.Keys
    && (forall key {:trigger AtHome(ts, size, key, home[key], entries[key])} :: key in home ==>
          AtHome(ts, size, key, home[key], entries[key]))
    && (forall j, i {:trigger Owned(ts, size, home, j, i)} :: 0 <= j < |ts| && 0 <= i < size ==>
          Owned(ts, size, home, j, i))
  }

  /** One slot rewritten. */
  ghost function Write<V>(ts: seq<Table<V>>, j: nat, i: nat, key: nat, r: int, v: V): seq<Table<V>>
    requires j < |ts| && i < |ts[j].keys| == |ts[j].refs| == |ts[j].data|
  {
    ts[j := Table(ts[j].keys[i := key], ts[j].refs[i := r], ts[j].data[i := v])]
  }

  /** A write that is not to a key's own slot, and does not write the key, leaves it at home. */
  lemma WriteElsewhere<V>(ts: seq<Table<V>>, size: nat, j: nat, i: nat, key: nat, r: int, v: V,
                          k: nat, p: Pos, e: Entry<V>)
    requires Sized(ts, size) && j < |ts| && i < size && k != key
    requires AtHome(ts, size, k, p, e) && (ts[j].refs[i] <= 0 || ts[j].keys[i] == key)
    ensures AtHome(Write(ts, j, i, key, r, v), size, k, p, e)
  {
    var ts' := Write(ts, j, i, key, r, v);
    assert !(p.table == j && Slot(k, p.step, size) == i);
    forall q: Pos | q.table < |ts'| && Before(q, p)
      ensures KeyAt(ts', size, k, q) != k
    {
      assert KeyAt(ts, size, k, q) != k;
    }
  }

  lemma OwnedElsewhere<V>(ts: seq<Table<V>>, size: nat, home: map<nat, Pos>, home': map<nat, Pos>,
                          j: nat, i: nat, key: nat, r: int, v: V, j': nat, i': nat)
    requires Sized(ts, size) && j < |ts| && i < size && j' < |ts| && i' < size && !(j == j' && i == i')
    requires Owned(ts, size, home, j', i')
    requires forall k :: k in home && k != key ==> k in home' && home'[k] == home[k]
    requires key in home ==> home[key].table == j && Slot(key, home[key].step, size) == i
    ensures Owned(Write(ts, j, i, key, r, v), size, home', j', i')
  {
  }

  /** Storing a key that is not live in the first place that is free or holds it. */
  lemma PutKeeps<V>(ts: seq<Table<V>>, size: nat, home: map<nat, Pos>, entries: map<nat, Entry<V>>, key: nat, p: Pos,
                    v: V)
    requires Inv(ts, size, home, entries) && key !in home && key != 0
    requires p.table < |ts| && p.step < Window(size) && FreshUpTo(ts, size, key, p) && RefAt(ts, size, key, p) == 0
    ensures Inv(Write(ts, p.table, Slot(key, p.step, size), key, 1, v), size, home[key := p],
            entries[key := Entry(1, v)])
  {
    hide AtHome, Owned, Slot;
    var j, i := p.table, Slot(key, p.step, size);
    var ts', home', entries' := Write(ts, j, i, key, 1, v), home[key := p], entries[key := Entry(1, v)];
    forall k | k in home'
      ensures AtHome(ts', size, k, home'[k], entries'[k])
    {
      if k == key {
        PlacedHome(ts, size, key, p, v);
      } else {
        assert AtHome(ts, size, k, home[k], entries[k]);
        WriteElsewhere(ts, size, j, i, key, 1, v, k, home[k], entries[k]);
      }
    }
    forall j', i' | 0 <= j' < |ts'| && 0 <= i' < size
      ensures Owned(ts', size, home', j', i')
    {
      if j' == j && i' == i {
        OwnSlot(ts, size, home', j, i, key, 1, v);
      } else {
        assert Owned(ts, size, home, j', i');
        OwnedElsewhere(ts, size, home, home', j, i, key, 1, v, j', i');
      }
    }
  }

  lemma PlacedHome<V>(ts: seq<Table<V>>, size: nat, key: nat, p: Pos, v: V)
    requires Sized(ts, size) && key != 0 && p.table < |ts| && p.step < Window(size) && FreshUpTo(ts, size, key, p)
    ensures AtHome(Write(ts, p.table, Slot(key, p.step, size), key, 1, v), size, key, p, Entry(1, v))
  {
    var ts' := Write(ts, p.table, Slot(key, p.step, size), key, 1, v);
    forall q: Pos | q.table < |ts'| && Before(q, p)
      ensures KeyAt(ts', size, key, q) != key
    {
      assert KeyAt(ts, size, key, q) != key;
      if q.table == p.table {
        StepsApart(key, q.step, p.step, size);
      }
    }
  }

  /** Different steps of one probe visit different slots. */
  lemma StepsApart(key: nat, a: nat, b: nat, size: nat)
    requires a < b < size
    ensures Slot(key, a, size) != Slot(key, b, size)
  {
    var s := KeyIndex(key, size);
    WrapOnce(s + a, size);
    WrapOnce(s + b, size);
  }

  lemma WrapOnce(x: nat, size: nat)
    requires 0 < size && x < 2 * size
    ensures x % size == if x < size then x else x - size
  {
    if x < size {
    } else {
      assert x == 1 * size + (x - size);
    }
  }

  lemma OwnSlot<V>(ts: seq<Table<V>>, size: nat, home': map<nat, Pos>, j: nat, i: nat, key: nat, r: int, v: V)
    requires Sized(ts, size) && j < |ts| && i < size && r >= 0
    requires r > 0 ==> key in home' && home'[key].table == j && Slot(key, home'[key].step, size) == i
    ensures Owned(Write(ts, j, i, key, r, v), size, home', j, i)
  {
  }

  /** Changing the count of a live key. */
  lemma CountKeeps<V>(ts: seq<Table<V>>, size: nat, home: map<nat, Pos>, entries: map<nat, Entry<V>>, key: nat, r: nat)
    requires Inv(ts, size, home, entries) && key in home && r > 0
    ensures AtHome(ts, size, key, home[key], entries[key])
    ensures var p, v := home[key], entries[key].value;
            Inv(Write(ts, p.table, Slot(key, p.step, size), key, r, v), size, home, entries[key := Entry(r, v)])
  {
    hide AtHome, Owned, Slot;
    assert AtHome(ts, size, key, home[key], entries[key]);
    InRange(ts, size, key, home[key], entries[key]);
    var p, v := home[key], entries[key].value;
    var j, i := p.table, Slot(key, p.step, size);
    var ts', entries' := Write(ts, j, i, key, r, v), entries[key := Entry(r, v)];
    forall k | k in home
      ensures AtHome(ts', size, k, home[k], entries'[k])
    {
      if k == key {
        RecountedHome(ts, size, key, p, entries[key], r);
      } else {
        assert AtHome(ts, size, k, home[k], entries[k]);
        WriteElsewhere(ts, size, j, i, key, r, v, k, home[k], entries[k]);
      }
    }
    forall j', i' | 0 <= j' < |ts'| && 0 <= i' < size
      ensures Owned(ts', size, home, j', i')
    {
      if j' == j && i' == i {
        OwnSlot(ts, size, home, j, i, key, r, v);
      } else {
        assert Owned(ts, size, home, j', i');
        OwnedElsewhere(ts, size, home, home, j, i, key, r, v, j', i');
      }
    }
  }

  lemma InRange<V>(ts: seq<Table<V>>, size: nat, key: nat, p: Pos, e: Entry<V>)
    requires Sized(ts, size) && AtHome(ts, size, key, p, e)
    ensures key != 0 && p.table < |ts| && p.step < Window(size) && FreshUpTo(ts, size, key, p)
    ensures var j, i := p.table, Slot(key, p.step, size);
            ts[j].keys[i] == key && ts[j].refs[i] == e.count > 0 && ts[j].data[i] == e.value
  {
  }

  lemma RecountedHome<V>(ts: seq<Table<V>>, size: nat, key: nat, p: Pos, e: Entry<V>, r: nat)
    requires Sized(ts, size) && AtHome(ts, size, key, p, e) && r > 0
    ensures AtHome(Write(ts, p.table, Slot(key, p.step, size), key, r, e.value), size, key, p, Entry(r, e.value))
  {
    var ts' := Write(ts, p.table, Slot(key, p.step, size), key, r, e.value);
    forall q: Pos | q.table < |ts'| && Before(q, p)
      ensures KeyAt(ts', size, key, q) != key
    {
      assert KeyAt(ts, size, key, q) != key;
    }
  }

  /** Releasing the last reference: the key stays behind in a slot that is free again. */
  lemma FreeKeeps<V>(ts: seq<Table<V>>, size: nat, home: map<nat, Pos>, entries: map<nat, Entry<V>>, key: nat)
    requires Inv(ts, size, home, entries) && key in home
    ensures AtHome(ts, size, key, home[key], entries[key])
    ensures var p, v := home[key], entries[key].value;
            Inv(Write(ts, p.table, Slot(key, p.step, size), key, 0, v), size, home - {key}, entries - {key})
  {
    hide AtHome, Owned, Slot;
    assert AtHome(ts, size, key, home[key], entries[key]);
    InRange(ts, size, key, home[key], entries[key]);
    var p, v := home[key], entries[key].value;
    var j, i := p.table, Slot(key, p.step, size);
    var ts', home' := Write(ts, j, i, key, 0, v), home - {key};
    forall k | k in home'
      ensures AtHome(ts', size, k, home'[k], (entries - {key})[k])
    {
      assert AtHome(ts, size, k, home[k], entries[k]);
      WriteElsewhere(ts, size, j, i, key, 0, v, k, home[k], entries[k]);
    }
    forall j', i' | 0 <= j' < |ts'| && 0 <= i' < size
      ensures Owned(ts', size, home', j', i')
    {
      if j' == j && i' == i {
        OwnSlot(ts, size, home', j, i, key, 0, v);
      } else {
        assert Owned(ts, size, home, j', i');
        OwnedElsewhere(ts, size, home, home', j, i, key, 0, v, j', i');
      }
    }
  }

  ghost function EmptyTable<V>(size: nat, zero: V): Table<V> {
    Table(seq(size, _ => 0), seq(size, _ => 0), seq(size, _ => zero))
  }

  /** extend_hash_map: a zeroed table puts no key in the way of another, as no key is zero. */
  lemma ExtendKeeps<V>(ts: seq<Table<V>>, size: nat, home: map<nat, Pos>, entries: map<nat, Entry<V>>, zero: V)
    requires Inv(ts, size, home, entries)
    ensures Inv(ts + [EmptyTable(size, zero)], size, home, entries)
  {
    var ts' := ts + [EmptyTable(size, zero)];
    forall k | k in home
      ensures AtHome(ts', size, k, home[k], entries[k])
    {
      assert AtHome(ts, size, k, home[k], entries[k]);
      forall q: Pos | q.table < |ts'| && Before(q, home[k])
        ensures KeyAt(ts', size, k, q) != k
      {
        assert q.table < |ts| ==> KeyAt(ts, size, k, q) != k;
      }
    }
    forall j, i | 0 <= j < |ts'| && 0 <= i < size
      ensures Owned(ts', size, home, j, i)
    {
      assert j < |ts| ==> Owned(ts, size, home, j, i);
    }
  }

  /** Where the scan of a lookup stops; the scan of put also stops at a free slot. */
  ghost predicate Stops<V>(ts: seq<Table<V>>, size: nat, key: nat, p: Pos, takeFree: bool)
    requires Sized(ts, size) && p.table < |ts|
  {
    KeyAt(ts, size, key, p) == key || (takeFree && RefAt(ts, size, key, p) == 0)
  }

  ghost predicate NoStopBefore<V>(ts: seq<Table<V>>, size: nat, key: nat, p: Pos, takeFree: bool)
    requires Sized(ts, size)
  {
    forall q: Pos {:trigger Stops(ts, size, key, q, takeFree)} :: q.table < |ts| && Before(q, p) ==>
      !Stops(ts, size, key, q, takeFree)
  }

  /** The scan found p within the given number of steps. */
  ghost predicate FoundAt<V>(ts: seq<Table<V>>, size: nat, key: nat, p: Pos, takeFree: bool, limit: nat)
    requires Sized(ts, size)
  {
    p.table < |ts| && p.step < limit && Stops(ts, size, key, p, takeFree) && NoStopBefore(ts, size, key, p, takeFree)
  }

  /** A lookup that finds the key finds its home if the key is live, and a free slot if it is not. */
  lemma FoundIsHome<V>(ts: seq<Table<V>>, size: nat, home: map<nat, Pos>, entries: map<nat, Entry<V>>,
                       key: nat, p: Pos, limit: nat)
    requires Inv(ts, size, home, entries) && FoundAt(ts, size, key, p, false, limit)
    ensures key in home <==> RefAt(ts, size, key, p) > 0
    ensures key in home ==> p == home[key]
    ensures key !in home ==> RefAt(ts, size, key, p) == 0
  {
    if key in home {
      var h := home[key];
      assert AtHome(ts, size, key, h, entries[key]);
      assert KeyAt(ts, size, key, p) == key && Stops(ts, size, key, h, false);
    } else {
      assert Owned(ts, size, home, p.table, Slot(key, p.step, size));
    }
  }

  /** A live key is found within its window. */
  lemma LiveIsFound<V>(ts: seq<Table<V>>, size: nat, home: map<nat, Pos>, entries: map<nat, Entry<V>>,
                       key: nat, limit: nat, takeFree: bool)
    requires Inv(ts, size, home, entries) && key in home && limit >= Window(size)
    ensures !NoStopBefore(ts, size, key, Pos(limit, 0), takeFree)
  {
    var h := home[key];
    assert AtHome(ts, size, key, h, entries[key]);
    assert Stops(ts, size, key, h, takeFree) && Before(h, Pos(limit, 0));
  }

  /** Where put may store a key that is not live. */
  lemma PutSpot<V>(ts: seq<Table<V>>, size: nat, home: map<nat, Pos>, entries: map<nat, Entry<V>>, key: nat, p: Pos,
                   limit: nat)
    requires Inv(ts, size, home, entries) && key !in home && FoundAt(ts, size, key, p, true, limit)
    ensures RefAt(ts, size, key, p) == 0 && FreshUpTo(ts, size, key, p)
  {
    assert Owned(ts, size, home, p.table, Slot(key, p.step, size));
    forall q: Pos | q.table < |ts| && Before(q, p)
      ensures KeyAt(ts, size, key, q) != key
    {
      assert !Stops(ts, size, key, q, true);
    }
  }

  /** When the window is full of other keys, the added table takes the key in the first step. */
  lemma PutInNewTable<V>(ts: seq<Table<V>>, size: nat, key: nat, zero: V)
    requires Sized(ts, size) && NoStopBefore(ts, size, key, Pos(Window(size), 0), true) && key != 0
    ensures var ts' := ts + [EmptyTable(size, zero)];
            && Sized(ts', size) && RefAt(ts', size, key, Pos(0, |ts|)) == 0
            && FreshUpTo(ts', size, key, Pos(0, |ts|))
  {
    var ts' := ts + [EmptyTable(size, zero)];
    forall q: Pos | q.table < |ts'| && Before(q, Pos(0, |ts|))
      ensures KeyAt(ts', size, key, q) != key
    {
      assert !Stops(ts, size, key, q, true);
    }
  }

  /** The slot that lies step places behind the index of the key, round the end of table j, is in use. */
  ghost predicate Busy<V>(ts: seq<Table<V>>, size: nat, key: nat, step: nat, j: nat)
    requires Sized(ts, size) && j < |ts|
  {
    ts[j].refs[(KeyIndex(key, size) + step) % size] > 0
  }

  /**
   * Where put stores a key that is not live, keys left behind or not: the first slot that is free,
   * looking at no more than five slots from the index of the key on, and at all tables for each.
   */
  lemma NewKeyPlace<V>(ts: seq<Table<V>>, size: nat, home: map<nat, Pos>, entries: map<nat, Entry<V>>, key: nat,
                       p: Pos)
    requires Inv(ts, size, home, entries) && key !in home && p.table < |ts|
    ensures FoundAt(ts, size, key, p, true, Window(size)) <==>
            && p.step < 5 && p.step < size && !Busy(ts, size, key, p.step, p.table)
            && (forall step, j :: 0 <= step < p.step && 0 <= j < |ts| ==> Busy(ts, size, key, step, j))
            && (forall j :: 0 <= j < p.table ==> Busy(ts, size, key, p.step, j))
  {
    StopsAtFree(ts, size, home, entries, key);
    hide Inv, Stops;
    if FoundAt(ts, size, key, p, true, Window(size)) {
      forall step: nat, j: nat | j < |ts| && Before(Pos(step, j), p)
        ensures Busy(ts, size, key, step, j)
      {
        assert !Stops(ts, size, key, Pos(step, j), true);
      }
    } else if p.step < Window(size) && !Busy(ts, size, key, p.step, p.table) {
      assert Stops(ts, size, key, p, true);
      var q: Pos :| q.table < |ts| && Before(q, p) && Stops(ts, size, key, q, true);
      assert !Busy(ts, size, key, q.step, q.table);
    }
  }

  /** And put adds a table exactly if all those slots are in use in every table. */
  lemma NewKeyNoPlace<V>(ts: seq<Table<V>>, size: nat, home: map<nat, Pos>, entries: map<nat, Entry<V>>, key: nat)
    requires Inv(ts, size, home, entries) && key !in home
    ensures NoStopBefore(ts, size, key, Pos(Window(size), 0), true) <==>
            forall step, j :: 0 <= step < 5 && step < size && 0 <= j < |ts| ==> Busy(ts, size, key, step, j)
  {
    StopsAtFree(ts, size, home, entries, key);
    hide Inv, Stops;
    if NoStopBefore(ts, size, key, Pos(Window(size), 0), true) {
      forall step: nat, j: nat | step < 5 && step < size && j < |ts|
        ensures Busy(ts, size, key, step, j)
      {
        assert !Stops(ts, size, key, Pos(step, j), true);
      }
    } else {
      var q: Pos :| q.table < |ts| && Before(q, Pos(Window(size), 0)) && Stops(ts, size, key, q, true);
      assert !Busy(ts, size, key, q.step, q.table);
    }
  }

  lemma StopsAtFree<V>(ts: seq<Table<V>>, size: nat, home: map<nat, Pos>, entries: map<nat, Entry<V>>, key: nat)
    requires Inv(ts, size, home, entries) && key !in home
    ensures forall q: Pos :: q.table < |ts| ==>
              (Stops(ts, size, key, q, true) <==> !Busy(ts, size, key, q.step, q.table))
  {
    forall q: Pos | q.table < |ts|
      ensures Stops(ts, size, key, q, true) <==> !Busy(ts, size, key, q.step, q.table)
    {
      assert Owned(ts, size, home, q.table, Slot(key, q.step, size));
    }
  }

  ghost predicate NoFreeBefore<V>(ts: seq<Table<V>>, size: nat, key: nat, p: Pos)
    requires Sized(ts, size)
  {
    forall q: Pos {:trigger RefAt(ts, size, key, q)} :: q.table < |ts| && Before(q, p) ==> RefAt(ts, size, key, q) != 0
  }

  /** With no free slot before its home, put finds a live key where it is. */
  lemma PutFindsHome<V>(ts: seq<Table<V>>, size: nat, home: map<nat, Pos>, entries: map<nat, Entry<V>>,
                        key: nat, p: Pos, limit: nat)
    requires Inv(ts, size, home, entries) && key in home && FoundAt(ts, size, key, p, true, limit)
    requires NoFreeBefore(ts, size, key, home[key])
    ensures p == home[key]
  {
    var h := home[key];
    assert AtHome(ts, size, key, h, entries[key]);
    assert Stops(ts, size, key, h, true) && FreshUpTo(ts, size, key, h);
  }

  ghost predicate UsedBy<V>(ts: seq<Table<V>>, j: nat, i: nat, key: nat) {
    j < |ts| && i < |ts[j].keys| && i < |ts[j].refs| && ts[j].refs[i] > 0 && ts[j].keys[i] == key
  }

  /** Two different slots in use hold the key. */
  ghost predicate InUseTwice<V>(ts: seq<Table<V>>, key: nat) {
    exists j, i, j', i' :: UsedBy(ts, j, i, key) && UsedBy(ts, j', i', key) && !(j == j' && i == i')
  }

  /**
   * Why put is for keys that are not live: on a live key its scan stops at the key, and the put
   * counts as one more reference, exactly when no free slot comes before the key's home.
   * Otherwise it leaves the key in use twice, and no counted map describes the tables any more.
   */
  lemma PutLive<V>(ts: seq<Table<V>>, size: nat, home: map<nat, Pos>, entries: map<nat, Entry<V>>, key: nat, p: Pos,
                   v: V)
    requires Inv(ts, size, home, entries) && key in home && FoundAt(ts, size, key, p, true, Window(size))
    ensures p == home[key] <==> NoFreeBefore(ts, size, key, home[key])
    ensures p == home[key] ==> var r, old' := entries[key].count + 1, entries[key].value;
              Inv(Write(ts, p.table, Slot(key, p.step, size), key, r, old'), size, home, entries[key := Entry(r, old')])
    ensures p != home[key] ==>
              && RefAt(ts, size, key, p) == 0
              && InUseTwice(Write(ts, p.table, Slot(key, p.step, size), key, 1, v), key)
    ensures p != home[key] ==>
              forall home', entries' :: !Inv(Write(ts, p.table, Slot(key, p.step, size), key, 1, v), size,
                                          home', entries')
  {
    if NoFreeBefore(ts, size, key, home[key]) {
      PutFindsHome(ts, size, home, entries, key, p, Window(size));
    }
    if p == home[key] {
      StoppedAtHome(ts, size, home, entries, key);
      CountKeeps(ts, size, home, entries, key, entries[key].count + 1);
    } else {
      SecondSlot(ts, size, home, entries, key, p, v);
      var ts' := Write(ts, p.table, Slot(key, p.step, size), key, 1, v);
      hide Write, AtHome, Owned, Slot;
      forall home', entries': map<nat, Entry<V>>
        ensures !Inv(ts', size, home', entries')
      {
        if Inv(ts', size, home', entries') {
          NeverTwice(ts', size, home', entries', key);
        }
      }
    }
  }

  /** A scan of put that stops at the home of a live key has met no free slot. */
  lemma StoppedAtHome<V>(ts: seq<Table<V>>, size: nat, home: map<nat, Pos>, entries: map<nat, Entry<V>>, key: nat)
    requires Inv(ts, size, home, entries) && key in home && FoundAt(ts, size, key, home[key], true, Window(size))
    ensures NoFreeBefore(ts, size, key, home[key])
  {
    forall q: Pos | q.table < |ts| && Before(q, home[key])
      ensures RefAt(ts, size, key, q) != 0
    {
      assert !Stops(ts, size, key, q, true);
    }
  }

  /** A scan of put that stops anywhere else has met a free slot first, and takes it. */
  lemma SecondSlot<V>(ts: seq<Table<V>>, size: nat, home: map<nat, Pos>, entries: map<nat, Entry<V>>, key: nat, p: Pos,
                      v: V)
    requires Inv(ts, size, home, entries) && key in home && FoundAt(ts, size, key, p, true, Window(size))
             && p != home[key]
    ensures RefAt(ts, size, key, p) == 0 && Before(p, home[key])
    ensures InUseTwice(Write(ts, p.table, Slot(key, p.step, size), key, 1, v), key)
  {
    var h := home[key];
    assert AtHome(ts, size, key, h, entries[key]);
    assert Before(h, p) ==> !Stops(ts, size, key, h, true);
    assert KeyAt(ts, size, key, p) != key;
    var j, i, i' := p.table, Slot(key, p.step, size), Slot(key, h.step, size);
    if p.step < h.step {
      StepsApart(key, p.step, h.step, size);
    }
    var ts' := Write(ts, j, i, key, 1, v);
    assert UsedBy(ts', j, i, key) && UsedBy(ts', h.table, i', key);
  }

  lemma NeverTwice<V>(ts: seq<Table<V>>, size: nat, home: map<nat, Pos>, entries: map<nat, Entry<V>>, key: nat)
    requires Inv(ts, size, home, entries)
    ensures !InUseTwice(ts, key)
  {
    hide AtHome, Owned, Slot;
    forall j, i, j', i' | UsedBy(ts, j, i, key) && UsedBy(ts, j', i', key)
      ensures j == j' && i == i'
    {
      OneSlot(ts, size, home, entries, j, i, j', i');
    }
  }

  /**
   * Tables at which it goes wrong: slots of size 1, the first free again after key 1 was released
   * and the second in use for key 2. A put of key 2 takes the first.
   */
  lemma PutLiveGoesWrong()
    ensures var ts, home := [Table([1], [0], [7]), Table([2], [1], [8])], map[2 := Pos(0, 1)];
            && Inv(ts, 1, home, map[2 := Entry(1, 8)])
            && FoundAt(ts, 1, 2, Pos(0, 0), true, Window(1)) && !NoFreeBefore(ts, 1, 2, home[2])
            && InUseTwice(Write(ts, 0, Slot(2, 0, 1), 2, 1, 9), 2)
  {
    var ts, home, entries := [Table([1], [0], [7]), Table([2], [1], [8])], map[2 := Pos(0, 1)], map[2 := Entry(1, 8)];
    hide KeyIndex;
    assert Stops(ts, 1, 2, Pos(0, 0), true) && RefAt(ts, 1, 2, Pos(0, 0)) == 0;
    assert forall q: Pos :: q.table < |ts| && Before(q, Pos(0, 1)) ==> q == Pos(0, 0);
    assert AtHome(ts, 1, 2, Pos(0, 1), Entry(1, 8));
    assert FoundAt(ts, 1, 2, Pos(0, 0), true, Window(1));
    SecondSlot(ts, 1, home, entries, 2, Pos(0, 0), 9);
  }

  /** Two slots in use never hold the same key. */
  lemma OneSlot<V>(ts: seq<Table<V>>, size: nat, home: map<nat, Pos>, entries: map<nat, Entry<V>>,
                   j: nat, i: nat, j': nat, i': nat)
    requires Inv(ts, size, home, entries) && j < |ts| && j' < |ts| && i < size && i' < size
    requires ts[j].refs[i] > 0 && ts[j'].refs[i'] > 0 && ts[j].keys[i] == ts[j'].keys[i']
    ensures j == j' && i == i'
  {
    assert Owned(ts, size, home, j, i) && Owned(ts, size, home, j', i');
  }
}
