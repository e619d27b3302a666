/**
 * The growing chunk allocator of prealloc_pool.c (the variant that is compiled in).
 * An element is its first 8-byte word, which a free element uses as the link of the
 * intrusive reuse list, and the tail behind it.  Addresses are natural numbers, NULL is 0.
 */
module PreallocPool {
  import opened Seqs

  datatype Elem<T> = Elem(word: nat, tail: T)

  /** The reuse list starting at head, read through the words stored in the free elements. */
  ghost predicate FreeList<T>(free: seq<nat>, head: nat, mem: map<nat, Elem<T>>) {
    && NoDup(free)
    && (forall i :: 0 <= i < |free| ==> free[i] in mem)
    && head == (if free == [] then 0 else free[0])
    && (forall i {:trigger mem[free[i]]} :: 0 <= i < |free| ==>
          mem[free[i]].word == if i + 1 < |free| then free[i + 1] else 0)
  }

  /** No chunk is at NULL and no two chunks overlap. */
  ghost predicate Disjoint(pools: seq<nat>, sizes: seq<nat>) {
    && |pools| == |sizes|
    && (forall i :: 0 <= i < |pools| ==> pools[i] > 0)
    && (forall i, j :: 0 <= i < j < |pools| ==> ApartPair(pools, sizes, i, j))
  }

  ghost predicate ApartPair(pools: seq<nat>, sizes: seq<nat>, i: nat, j: nat)
    requires i < j < |pools| == |sizes|
  {
    pools[i] + sizes[i] <= pools[j] || pools[j] + sizes[j] <= pools[i]
  }

  /** Elements of the given size at the addresses in s do not overlap. */
  ghost predicate Spaced(s: set<nat>, size: nat) {
    forall a, b {:trigger NoOverlap(a, b, size)} :: a in s && b in s && a != b ==> NoOverlap(a, b, size)
  }

  ghost predicate NoOverlap(a: nat, b: nat, size: nat) {
    a + size <= b || b + size <= a
  }

  /** Every element lies inside one chunk; in the last chunk, below the carving point. */
  ghost predicate Inside(s: set<nat>, size: nat, home: map<nat, nat>,
                         pools: seq<nat>, sizes: seq<nat>, limit: nat)
  {
    && |pools| == |sizes| && home.Keys == s
    && forall a {:trigger InChunk(a, size, home[a], pools, sizes, limit)} :: a in s ==>
         InChunk(a, size, home[a], pools, sizes, limit)
  }

  ghost predicate InChunk(a: nat, size: nat, i: nat, pools: seq<nat>, sizes: seq<nat>, limit: nat)
    requires |pools| == |sizes|
  {
    && i < |pools|
    && pools[i] <= a && a + size <= pools[i] + sizes[i]
    && (i == |pools| - 1 ==> a + size <= limit)
  }

  /** Room for elements in n chunks, when the first is twice the initial size and each doubles the last. */
  ghost function Room(n: nat, initial: nat): nat {
    if n == 0 then 0 else 2 * Room(n - 1, initial) + 2 * initial
  }

  ghost function ChunkElems(i: nat, initial: nat): nat {
    Room(i, initial) + 2 * initial
  }

  ghost predicate Scaled(sizes: seq<nat>, initial: nat, elementSize: nat) {
    forall i :: 0 <= i < |sizes| ==> sizes[i] == Bytes(ChunkElems(i, initial), elementSize)
  }

  ghost function Bytes(n: nat, elementSize: nat): nat {
    n * elementSize
  }

  class Pool<T> {
    const elementSize: nat
    const elementCount: nat
    const zeroTail: T

    var pools: seq<nat>         // the base address of every chunk
    var chunkSize: nat          // bytes in the current chunk
    var nextOffset: nat         // first byte of the current chunk not yet handed out
    var currentPool: nat
    var reusePool: nat
    var mem: map<nat, Elem<T>>  // the content of every element carved so far
    var sizes: seq<nat>         // the byte size of each chunk, as malloc remembers it

    ghost var free: seq<nat>       // the reuse list, head first
    ghost var used: nat            // elements carved from the current chunk
    ghost var home: map<nat, nat>  // the chunk each element lies in
    ghost var peak: nat            // most elements ever live at once

    /** The elements handed out and not yet recycled. */
    ghost function Live(): set<nat>
      reads this
    {
      mem.Keys - Elements(free)
    }

    /** Everything except the reuse list. */
    ghost predicate Carved()
      reads this
    {
      && elementSize >= 8 && elementCount > 0
      && Disjoint(pools, sizes)
      && Scaled(sizes, elementCount, elementSize)
      && Spaced(mem.Keys, elementSize)
      && Inside(mem.Keys, elementSize, home, pools, sizes, currentPool + nextOffset)
      && nextOffset == Bytes(used, elementSize)
      && |mem| == peak
      && (if pools == [] then
            mem == map[] && used == 0 && chunkSize == Bytes(elementCount, elementSize)
          else
            var last := |pools| - 1;
            && currentPool == pools[last] && chunkSize == sizes[last]
            && used <= ChunkElems(last, elementCount) && |mem| == Room(last, elementCount) + used)
    }

    ghost predicate Valid()
      reads this
    {
      Carved() && FreeList(free, reusePool, mem) && (pools != [] ==> used > 0)
    }

    constructor Init2(elementCount: nat, elementSize: nat, zeroTail: T)
      requires elementSize >= 8 && elementCount > 0
      ensures Valid() && mem == map[] && free == []
      ensures this.elementSize == elementSize && this.elementCount == elementCount && this.zeroTail == zeroTail
      ensures pools == [] && chunkSize == elementCount * elementSize && nextOffset == 0 == currentPool == reusePool
    {
      this.elementSize, this.elementCount, this.zeroTail := elementSize, elementCount, zeroTail;
      pools, chunkSize, nextOffset, currentPool, reusePool := [], elementCount * elementSize, 0, 0, 0;
      mem, sizes, free, used, home, peak := map[], [], [], 0, map[], 0;
    }

    constructor Init(elementSize: nat, zeroTail: T)
      requires elementSize >= 8
      ensures Valid() && mem == map[] && free == []
      ensures this.elementSize == elementSize && this.elementCount == 8 && this.zeroTail == zeroTail
      ensures pools == [] && chunkSize == 8 * elementSize && nextOffset == 0 == currentPool == reusePool
    {
      this.elementSize, this.elementCount, this.zeroTail := elementSize, 8, zeroTail;
      pools, chunkSize, nextOffset, currentPool, reusePool := [], 8 * elementSize, 0, 0, 0;
      mem, sizes, free, used, home, peak := map[], [], [], 0, map[], 0;
    }

    /** add_chunk: doubles the chunk size and starts carving a fresh zeroed chunk. */
    method AddChunk()
      requires Carved() && (pools != [] ==> used == ChunkElems(|pools| - 1, elementCount))
      modifies this`pools, this`chunkSize, this`currentPool, this`nextOffset, this`sizes, this`used
      ensures Carved() && used == 0 && nextOffset == 0
      ensures |pools| == |old(pools)| + 1 && pools[..|old(pools)|] == old(pools)
      ensures chunkSize == 2 * old(chunkSize)
    {
      DoubleBytes(|pools|, elementCount, elementSize, chunkSize);
      ghost var oldLimit := currentPool + nextOffset;
      chunkSize := chunkSize * 2;
      var newChunk := Calloc(pools, sizes, chunkSize);
      DisjointSnoc(pools, sizes, newChunk, chunkSize);
      InsideSnoc(mem.Keys, elementSize, home, pools, sizes, oldLimit, newChunk, chunkSize, newChunk);
      pools, sizes := pools + [newChunk], sizes + [chunkSize];
      currentPool, nextOffset, used := newChunk, 0, 0;
    }

    /** The bump step of cx_prealloc_pool_get. */
    method Carve() returns (e: nat)
      requires Carved() && free == [] && reusePool == 0 && pools != []
      requires used < ChunkElems(|pools| - 1, elementCount)
      modifies this`mem, this`nextOffset, this`used, this`home, this`peak
      ensures Valid()
      ensures e == currentPool + old(nextOffset) && nextOffset == old(nextOffset) + elementSize
      ensures e != 0 && e !in old(mem) && mem == old(mem)[e := Elem(0, zeroTail)]
      ensures peak == old(peak) + 1
    {
      hide Spaced, Inside, Disjoint, Scaled;
      RoomForOne();
      e := currentPool + nextOffset;
      mem := mem[e := Elem(0, zeroTail)];
      assert mem.Keys == old(mem.Keys) + {e};
      home := home[e := |pools| - 1];
      nextOffset, used, peak := nextOffset + elementSize, used + 1, peak + 1;
    }

    /** There is room at the carving point, apart from every element carved before. */
    lemma RoomForOne()
      requires Carved() && pools != [] && used < ChunkElems(|pools| - 1, elementCount)
      ensures var e, last := currentPool + nextOffset, |pools| - 1;
              && e !in mem && e > 0
              && Spaced(mem.Keys + {e}, elementSize)
              && Inside(mem.Keys + {e}, elementSize, home[e := last], pools, sizes, e + elementSize)
      ensures nextOffset + elementSize == Bytes(used + 1, elementSize)
    {
      var e, last := currentPool + nextOffset, |pools| - 1;
      BytesMono(used + 1, ChunkElems(last, elementCount), elementSize);
      BytesMono(used, used, elementSize);
      SpacedAdd(mem.Keys, elementSize, home, pools, sizes, e);
    }

    /** reuse_node: pops the head of the reuse list and clears its first word. */
    method ReuseNode() returns (e: nat)
      requires Valid() && free != []
      modifies this`mem, this`reusePool, this`free
      ensures Valid()
      ensures e == old(free[0]) != 0 && free == old(free[1..])
      ensures mem == old(mem)[e := old(mem)[e].(word := 0)]
      ensures e !in old(Live()) && Live() == old(Live()) + {e}
    {
      e := reusePool;
      NotNull(e);
      PopFree(free, e, mem);
      reusePool := mem[e].word;
      mem := mem[e := mem[e].(word := 0)];
      free := free[1..];
      assert mem.Keys == old(mem.Keys);
      assert Elements(old(free)) == Elements(free) + {e};
    }

    lemma NotNull(e: nat)
      requires Carved() && e in mem
      ensures e > 0
    {
      assert InChunk(e, elementSize, home[e], pools, sizes, currentPool + nextOffset);
    }

    /** The branch of cx_prealloc_pool_get for an empty reuse list. */
    method Fresh() returns (e: nat)
      requires Valid() && free == [] && reusePool == 0
      modifies this
      ensures Valid() && free == []
      ensures e != 0 && e !in old(mem) && mem == old(mem)[e := Elem(0, zeroTail)]
      ensures peak == old(peak) + 1
    {
      hide Spaced, Inside, Disjoint, Scaled, FreeList;
      FullWhenNoRoom();
      if pools == [] || nextOffset + elementSize > chunkSize {
        AddChunk();
      }
      e := Carve();
    }

    /** cx_prealloc_pool_get */
    method Get() returns (e: nat)
      requires Valid()
      modifies this
      ensures Valid()
      ensures e != 0 && e !in old(Live()) && Live() == old(Live()) + {e}
      ensures old(free) != [] ==>
                && e == old(free[0]) && free == old(free[1..])
                && mem == old(mem)[e := old(mem)[e].(word := 0)]
      ensures old(free) == [] ==>
                && e !in old(mem) && free == [] && mem == old(mem)[e := Elem(0, zeroTail)]
      ensures peak == if |Live()| > old(peak) then |Live()| else old(peak)
    {
      hide Carved, FreeList;
      LiveCardinality();
      if reusePool != 0 {
        e := ReuseNode();
      } else {
        e := Fresh();
        assert mem.Keys == old(mem.Keys) + {e};
      }
      LiveCardinality();
    }

    /** cx_prealloc_pool_recycle: NULL is ignored; a live element becomes the head of the reuse list. */
    method Recycle(e: nat)
      requires Valid() && (e == 0 || e in Live())
      modifies this`mem, this`reusePool, this`free
      ensures Valid()
      ensures e == 0 ==> mem == old(mem) && free == old(free)
      ensures e != 0 ==>
                && Live() == old(Live()) - {e} && free == [e] + old(free)
                && mem == old(mem)[e := old(mem)[e].(word := old(reusePool))]
    {
      if e != 0 {
        PushFree(free, reusePool, mem, e);
        mem := mem[e := mem[e].(word := reusePool)];
        reusePool := e;
        free := [e] + free;
        assert mem.Keys == old(mem.Keys);
      }
    }

    /** A client writes through its pointer; only elements it holds may be written. */
    method Store(e: nat, x: Elem<T>)
      requires Valid() && e in Live()
      modifies this`mem
      ensures Valid() && mem == old(mem)[e := x]
    {
      mem := mem[e := x];
      assert mem.Keys == old(mem.Keys);
    }

    /** The carving test of the source fails exactly when every element of the chunk is used. */
    lemma FullWhenNoRoom()
      requires Valid()
      ensures pools != [] ==> (nextOffset + elementSize > chunkSize <==> used == ChunkElems(|pools| - 1, elementCount))
    {
      if pools != [] {
        BytesMono(used + 1, ChunkElems(|pools| - 1, elementCount), elementSize);
        BytesMono(used, used, elementSize);
      }
    }

    lemma LiveCardinality()
      requires Valid()
      ensures |Live()| == |mem| - |free| && |mem| == peak
      ensures free != [] <==> reusePool != 0
    {
      if free != [] {
        NotNull(free[0]);
      }
      NoDupCardinality(free);
      assert Elements(free) <= mem.Keys;
    }

    /**
     * The partition. The carved elements are split between the live ones and the reuse list, which
     * names each free element once; no two overlap, and each lies inside one chunk.
     */
    lemma Partition()
      requires Valid()
      ensures Live() + Elements(free) == mem.Keys && Live() !! Elements(free) && NoDup(free)
      ensures forall a, b :: a in mem && b in mem && a != b ==> NoOverlap(a, b, elementSize)
      ensures forall a :: a in mem ==> a > 0 && exists i :: 0 <= i < |pools| && Within(a, i)
    {
      assert Elements(free) <= mem.Keys;
      forall a | a in mem
        ensures a > 0 && exists i :: 0 <= i < |pools| && Within(a, i)
      {
        NotNull(a);
        assert InChunk(a, elementSize, home[a], pools, sizes, currentPool + nextOffset);
        assert Within(a, home[a]);
      }
    }

    /** The element at a lies inside chunk i. */
    ghost predicate Within(a: nat, i: nat)
      reads this
    {
      i < |pools| && i < |sizes| && pools[i] <= a && a + elementSize <= pools[i] + sizes[i]
    }

    /**
     * The space bound.  As many elements have been carved as were ever live at once, and the
     * chunks together have room for at most twice that number plus 2c - 2.
     */
    lemma SpaceBound()
      requires Valid() && mem != map[]
      ensures |mem| == peak
      ensures Sum(sizes) == Bytes(Room(|pools|, elementCount), elementSize)
      ensures Room(|pools|, elementCount) <= 2 * peak + 2 * elementCount - 2
    {
      SumOfChunks(sizes, elementCount, elementSize);
    }
  }

  /**
   * calloc: any nonzero address whose block meets no earlier chunk. The block is zeroed, and bytes
   * at or behind the carving point belong to no element handed out (SpacedAdd), so no client has
   * written them; that is why Carve may hand out its element as all zero.
   */
  method Calloc(pools: seq<nat>, sizes: seq<nat>, size: nat) returns (base: nat)
    requires |sizes| == |pools|
    ensures base > 0 && Apart(pools, sizes, base, size)
  {
    ghost var top := Top(pools, sizes);
    assert Apart(pools, sizes, top, size);
    base :| base > 0 && Apart(pools, sizes, base, size);
  }

  predicate Apart(pools: seq<nat>, sizes: seq<nat>, base: nat, size: nat)
    requires |sizes| == |pools|
  {
    forall i :: 0 <= i < |pools| ==> pools[i] + sizes[i] <= base || base + size <= pools[i]
  }

  /** An address above every chunk, which shows that calloc has an address to return. */
  ghost function Top(pools: seq<nat>, sizes: seq<nat>): (top: nat)
    requires |sizes| == |pools|
    ensures top > 0 && forall i :: 0 <= i < |pools| ==> pools[i] + sizes[i] <= top
  {
    if pools == [] then 1
    else
      var last := |pools| - 1;
      pools[last] + sizes[last] + Top(pools[..last], sizes[..last])
  }

  lemma DisjointSnoc(pools: seq<nat>, sizes: seq<nat>, base: nat, size: nat)
    requires Disjoint(pools, sizes) && base > 0 && Apart(pools, sizes, base, size)
    ensures Disjoint(pools + [base], sizes + [size])
  {
    forall i, j | 0 <= i < j < |pools + [base]|
      ensures ApartPair(pools + [base], sizes + [size], i, j)
    {
      assert j < |pools| ==> ApartPair(pools, sizes, i, j);
    }
  }

  lemma InsideSnoc(s: set<nat>, es: nat, home: map<nat, nat>, pools: seq<nat>, sizes: seq<nat>,
                   limit: nat, base: nat, size: nat, newLimit: nat)
    requires Inside(s, es, home, pools, sizes, limit)
    ensures Inside(s, es, home, pools + [base], sizes + [size], newLimit)
  {
    forall a | a in s
      ensures InChunk(a, es, home[a], pools + [base], sizes + [size], newLimit)
    {
      assert InChunk(a, es, home[a], pools, sizes, limit);
    }
  }

  /** Doubling the byte size gives room for all earlier elements plus twice the initial count. */
  lemma DoubleBytes(n: nat, initial: nat, es: nat, chunkSize: nat)
    requires chunkSize == Bytes(if n == 0 then initial else ChunkElems(n - 1, initial), es)
    ensures chunkSize * 2 == Bytes(ChunkElems(n, initial), es)
  {
    var k := if n == 0 then initial else ChunkElems(n - 1, initial);
    assert ChunkElems(n, initial) == 2 * k;
    assert (2 * k) * es == 2 * (k * es);
  }

  lemma {:induction false} SumOfChunks(sizes: seq<nat>, initial: nat, es: nat)
    requires Scaled(sizes, initial, es)
    ensures Sum(sizes) == Bytes(Room(|sizes|, initial), es)
  {
    if sizes != [] {
      var last := |sizes| - 1;
      SumOfChunks(sizes[..last], initial, es);
      var a, b := Room(last, initial), ChunkElems(last, initial);
      assert a * es + b * es == (a + b) * es;
    }
  }

  lemma BytesMono(a: nat, b: nat, es: nat)
    requires es > 0
    ensures Bytes(a, es) <= Bytes(b, es) <==> a <= b
    ensures Bytes(a + 1, es) == Bytes(a, es) + es
  {
    assert (a + 1) * es == a * es + es;
    if a <= b {
      MulMono(b - a, es);
      assert b * es == a * es + (b - a) * es;
    } else {
      MulMono(a - b - 1, es);
      assert a * es == b * es + (a - b - 1) * es + es;
    }
  }

  lemma MulMono(d: nat, es: nat)
    ensures 0 <= d * es
  {
  }

  /** The element at the carving point lies apart from all the elements carved before. */
  lemma SpacedAdd(s: set<nat>, es: nat, home: map<nat, nat>, pools: seq<nat>, sizes: seq<nat>, e: nat)
    requires es > 0 && pools != [] && Disjoint(pools, sizes) && Spaced(s, es)
    requires Inside(s, es, home, pools, sizes, e)
    requires pools[|pools| - 1] <= e && e + es <= pools[|pools| - 1] + sizes[|pools| - 1]
    ensures e !in s && Spaced(s + {e}, es)
    ensures Inside(s + {e}, es, home[e := |pools| - 1], pools, sizes, e + es)
  {
    var last := |pools| - 1;
    forall a | a in s
      ensures a + es <= e
              || e + es <= a
    {
      assert InChunk(a, es, home[a], pools, sizes, e);
      if home[a] != last {
        assert ApartPair(pools, sizes, home[a], last);
      }
    }
    assert e !in s;
    var s', home' := s + {e}, home[e := last];
    forall a, b | a in s' && b in s' && a != b
      ensures NoOverlap(a, b, es)
    {
      assert a in s && b in s ==> NoOverlap(a, b, es);
    }
    forall a | a in s'
      ensures InChunk(a, es, home'[a], pools, sizes, e + es)
    {
      assert a in s ==> InChunk(a, es, home[a], pools, sizes, e);
    }
  }

  lemma PopFree<T>(free: seq<nat>, head: nat, mem: map<nat, Elem<T>>)
    requires FreeList(free, head, mem) && free != []
    ensures FreeList(free[1..], mem[head].word, mem[head := mem[head].(word := 0)])
  {
  }

  lemma PushFree<T>(free: seq<nat>, head: nat, mem: map<nat, Elem<T>>, e: nat)
    requires FreeList(free, head, mem) && e in mem && e !in free
    ensures FreeList([e] + free, e, mem[e := mem[e].(word := head)])
  {
    var free' := [e] + free;
    assert forall i :: 1 <= i < |free'| ==> free'[i] == free[i - 1];
  }
}
