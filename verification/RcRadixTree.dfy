/**
 * The reference-counted radix tree of rc_radix_tree.c.  A leaf is its count, in the first word,
 * and its value behind it; a value pointer is given as the address of its leaf.
 */
module RcRadixTree {
  import opened Seqs
  import opened PreallocPool
  import opened RadixTree
  import opened CountedMap

  /** The counted map stored in the leaves. */
  ghost function Entries<V>(m: map<nat, nat>, mem: map<nat, Elem<V>>): map<nat, Entry<V>>
  {
    map k | k in m && m[k] in mem :: Entry(mem[m[k]].word, mem[m[k]].tail)
  }

  ghost predicate Injective(m: map<nat, nat>) {
    forall k, l :: k in m && l in m && m[k] == m[l] ==> k == l
  }

  class RcRadixTree<V> {
    const values: RadixTree<V>
    const elementSize: nat
    ghost var cleaned: seq<V>    // the arguments of the cleanup callback, in order

    ghost predicate Valid()
      reads this, values, values.branchPool, values.leafPool
    {
      && values.Valid() && values.leafPool.elementSize == 8 + elementSize
      && LeavesIn(values.Map(), values.leafPool.mem)
      && Positive(State())
    }

    ghost function State(): Counted<V>
      reads this, values, values.leafPool
    {
      Counted(Entries(values.Map(), values.leafPool.mem), cleaned)
    }

    /** The address a value of the key would be found at, or NULL. */
    ghost function Pointer(key: nat): nat
      reads values
    {
      if key in values.Map() then values.Map()[key] else 0
    }

    constructor (elementSize: nat, zeroTail: V)
      ensures Valid() && State() == Counted(map[], []) && this.elementSize == elementSize
      ensures fresh(values) && fresh(values.branchPool) && fresh(values.leafPool)
    {
      values := new RadixTree(8 + elementSize, zeroTail);
      this.elementSize := elementSize;
      cleaned := [];
      new;
      hide *;
      NoEntries(values.Map(), values.leafPool.mem, cleaned);
      Pack();
    }

    /** What Valid and State stand for, without unfolding the tree. */
    lemma Facts()
      requires Valid()
      ensures values.Valid() && LeavesIn(values.Map(), values.leafPool.mem) && Positive(State())
      ensures values.leafPool.elementSize == 8 + elementSize
      ensures State() == Counted(Entries(values.Map(), values.leafPool.mem), cleaned)
      ensures forall k :: k in values.Map() ==> values.Map()[k] in values.leafPool.Live() && values.Map()[k] != 0
      ensures values.leafPool.Live() <= values.leafPool.mem.Keys && Injective(values.Map())
      ensures forall k :: Pointer(k) == if k in values.Map() then values.Map()[k] else 0
    {
      values.MapFacts();
    }

    lemma Pack()
      requires values.Valid() && LeavesIn(values.Map(), values.leafPool.mem)
      requires values.leafPool.elementSize == 8 + elementSize
      requires Positive(Counted(Entries(values.Map(), values.leafPool.mem), cleaned))
      ensures Valid() && State() == Counted(Entries(values.Map(), values.leafPool.mem), cleaned)
    {
    }

    /** The leaf of a live key, count and value, lies inside one chunk, and apart from every other leaf. */
    lemma LeavesApart(k: nat, l: nat)
      requires Valid() && k in State().entries && l in State().entries
      ensures exists i :: 0 <= i < |values.leafPool.pools| && LeafInside(Pointer(k), i)
      ensures k != l ==> Pointer(k) + 8 + elementSize <= Pointer(l) || Pointer(l) + 8 + elementSize <= Pointer(k)
    {
      Facts();
      Keys(values.Map(), values.leafPool.mem);
      LeafFacts();
      hide *;
      values.leafPool.Partition();
      LeafPlaces(Pointer(k), Pointer(l));
    }

    lemma LeafFacts()
      requires Valid()
      ensures values.leafPool.Valid()
    {
    }

    lemma LeafPlaces(a: nat, b: nat)
      requires values.leafPool.elementSize == 8 + elementSize
      requires exists i :: 0 <= i < |values.leafPool.pools| && values.leafPool.Within(a, i)
      requires a != b ==> NoOverlap(a, b, values.leafPool.elementSize)
      ensures exists i :: 0 <= i < |values.leafPool.pools| && LeafInside(a, i)
      ensures a != b ==> a + 8 + elementSize <= b || b + 8 + elementSize <= a
    {
      var i :| 0 <= i < |values.leafPool.pools| && values.leafPool.Within(a, i);
      assert LeafInside(a, i);
    }

    ghost predicate LeafInside(a: nat, i: nat)
      reads values.leafPool
    {
      && i < |values.leafPool.pools| && i < |values.leafPool.sizes|
      && values.leafPool.pools[i] <= a && a + 8 + elementSize <= values.leafPool.pools[i] + values.leafPool.sizes[i]
    }

    /** radix_tree_retain */
    method RetainLeaf(key: nat) returns (obj: nat)
      requires Valid() && key < U64
      modifies values.leafPool`mem
      ensures Valid() && State() == Retained(old(State()), key)
      ensures (forall k :: Pointer(k) == old(Pointer(k))) && obj == Pointer(key)
              && (obj != 0 <==> key in old(State()).entries)
    {
      hide *;
      Facts();
      Keys(values.Map(), values.leafPool.mem);
      obj := values.Get(key);
      if obj == 0 {
        RetainAbsent(State(), key);
        return;
      }
      RetainValue(obj, key);
    }

    /** cx_rc_radix_tree_put */
    method Put(key: nat, value: V) returns (p: nat)
      requires Valid() && key < U64
      modifies this, values, values.branchPool, values.leafPool
      ensures Valid() && State() == WithPut(old(State()), key, value)
      ensures p == Pointer(key) != 0
      ensures forall k :: old(Pointer(k)) != 0 ==> Pointer(k) == old(Pointer(k))
    {
      hide *;
      Facts();
      ghost var before := State();
      p := RetainLeaf(key);
      Facts();
      if p == 0 {
        Keys(values.Map(), values.leafPool.mem);
        PutAbsent(before, key, value);
        ghost var m, mem, live := values.Map(), values.leafPool.mem, values.leafPool.Live();
        p := values.NewLeaf(key);
        assert p != 0;
        values.MapFacts();
        values.WriteLeaf(p, Elem(1, value));
        LiveIn();
        AddLeaf(m, mem, values.Map(), values.leafPool.mem, live, key, value);
      } else {
        PutPresent(before, key, value);
        cleaned := cleaned + [value];
      }
      Pack();
      Facts();
    }

    lemma LiveIn()
      ensures values.leafPool.Live() <= values.leafPool.mem.Keys
    {
    }

    /** cx_rc_radix_tree_retain */
    method Retain(key: nat) returns (p: nat)
      requires Valid() && key < U64
      modifies values.leafPool`mem
      ensures Valid() && State() == Retained(old(State()), key)
      ensures p == Pointer(key) && (p != 0 <==> key in old(State()).entries)
      ensures forall k :: Pointer(k) == old(Pointer(k))
    {
      hide *;
      p := RetainLeaf(key);
    }

    /** cx_rc_radix_tree_retain_value, on the pointer of a live key. */
    method RetainValue(p: nat, ghost key: nat)
      requires Valid() && p != 0 && p == Pointer(key)
      modifies values.leafPool`mem
      ensures Valid() && State() == Retained(old(State()), key) && forall k :: Pointer(k) == old(Pointer(k))
    {
      hide *;
      Facts();
      var e := Elem(values.leafPool.mem[p].word + 1, values.leafPool.mem[p].tail);
      SetLeaf(values.Map(), values.leafPool.mem, key, e);
      RetainPresent(State(), key);
      values.WriteLeaf(p, e);
      Pack();
      Facts();
    }

    /** cx_rc_radix_tree_release */
    method Release(key: nat) returns (rv: int)
      requires Valid() && key < U64
      modifies this, values, values.branchPool, values.leafPool
      ensures Valid() && State() == Released(old(State()), key)
      ensures rv == if key in old(State()).entries then 0 else -1
      ensures forall k :: k != key ==> Pointer(k) == old(Pointer(k))
    {
      hide *;
      Facts();
      Keys(values.Map(), values.leafPool.mem);
      ReleaseCases(State(), key);
      var obj := values.Get(key);
      if obj == 0 {
        return -1;
      }
      if values.leafPool.mem[obj].word == 1 {
        cleaned := cleaned + [values.leafPool.mem[obj].tail];
        values.DeletePresent(key);
        ghost var m, mem := values.Map(), values.leafPool.mem;
        rv := values.Delete(key);
        values.MapFacts();
        LiveIn();
        DropLeaf(m, mem, values.Map(), values.leafPool.mem, values.leafPool.Live(), key);
      } else {
        rv := 0;
        var e := Elem(values.leafPool.mem[obj].word - 1, values.leafPool.mem[obj].tail);
        SetLeaf(values.Map(), values.leafPool.mem, key, e);
        values.WriteLeaf(obj, e);
      }
      Pack();
      Facts();
    }
  }

  ghost predicate LeavesIn<V>(m: map<nat, nat>, mem: map<nat, Elem<V>>) {
    forall k :: k in m ==> m[k] in mem
  }

  lemma NoEntries<V>(m: map<nat, nat>, mem: map<nat, Elem<V>>, cleaned: seq<V>)
    requires m == map[]
    ensures LeavesIn(m, mem) && Entries(m, mem) == map[] && Positive(Counted(Entries(m, mem), cleaned))
  {
  }

  lemma Keys<V>(m: map<nat, nat>, mem: map<nat, Elem<V>>)
    requires LeavesIn(m, mem)
    ensures forall k :: k in Entries(m, mem) <==> k in m
    ensures forall k :: k in m ==> m[k] in mem && Entries(m, mem)[k] == Entry(mem[m[k]].word, mem[m[k]].tail)
  {
  }

  /** Writing one leaf changes the entry of its key only. */
  lemma SetLeaf<V>(m: map<nat, nat>, mem: map<nat, Elem<V>>, key: nat, e: Elem<V>)
    requires LeavesIn(m, mem) && Injective(m) && key in m
    ensures LeavesIn(m, mem[m[key] := e])
    ensures Entries(m, mem[m[key] := e]) == Entries(m, mem)[key := Entry(e.word, e.tail)]
    ensures key in Entries(m, mem) && Entries(m, mem)[key] == Entry(mem[m[key]].word, mem[m[key]].tail)
  {
  }

  lemma AddLeaf<V>(m: map<nat, nat>, mem: map<nat, Elem<V>>, m': map<nat, nat>, mem': map<nat, Elem<V>>,
                   live: set<nat>, key: nat, value: V)
    requires LeavesIn(m, mem) && (forall k :: k in m ==> m[k] in live)
    requires key in m' && m' == m[key := m'[key]]
    requires forall a :: a in live ==> a in mem && a in mem' && mem'[a] == mem[a]
    requires m'[key] in mem' && mem'[m'[key]] == Elem(1, value)
    ensures LeavesIn(m', mem') && Entries(m', mem') == Entries(m, mem)[key := Entry(1, value)]
  {
  }

  lemma DropLeaf<V>(m: map<nat, nat>, mem: map<nat, Elem<V>>, m': map<nat, nat>, mem': map<nat, Elem<V>>,
                    live: set<nat>, key: nat)
    requires LeavesIn(m, mem) && m' == m - {key} && (forall k :: k in m' ==> m'[k] in live)
    requires forall a :: a in live ==> a in mem && a in mem' && mem'[a] == mem[a]
    ensures LeavesIn(m', mem') && Entries(m', mem') == Entries(m, mem) - {key}
  {
  }
}
