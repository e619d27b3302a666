/**
 * The growing byte buffer of buffer.c. Memory comes from an allocator that does not fail; `moved`
 * counts the bytes that reallocations copied.
 */
module ByteBuffer {
  import opened Powers
  import opened Seqs

  type Byte = b: nat | b < 256

  datatype Status = Success | IntegerOverflow

  /** round_to_next_pow2: fails exactly above 2^63. */
  method RoundToNextPow2(val: nat) returns (rv: Status, rounded: nat)
    requires val < U64
    ensures rv == if HALF < val then IntegerOverflow else Success
    ensures rv.Success? ==> LeastPow2(rounded, val)
    ensures rv.IntegerOverflow? ==> rounded == val
  {
    if val <= 1 {
      OneIsLeast(val);
      return Success, 1;
    }
    var leadingZeros := LeadingZeros(val - 1);
    if leadingZeros == 0 {
      return IntegerOverflow, val;
    }
    ShiftIsLeast(val);
    return Success, Pow2(64 - leadingZeros);
  }

  lemma OneIsLeast(val: nat)
    requires val <= 1
    ensures LeastPow2(1, val)
  {
    assert 1 == Pow2(0);
  }

  lemma ShiftIsLeast(val: nat)
    requires 1 < val < U64
    ensures LeastPow2(Pow2(64 - LeadingZeros(val - 1)), val)
  {
    var n := BitLength(val - 1);
    BitLengthBounds(val - 1);
    BitLengthOfWord(val - 1);
    forall k: nat | val <= Pow2(k) ensures Pow2(n) <= Pow2(k) {
      Pow2Grows(k, n - 1);
      Pow2Grows(n, k);
    }
  }

  /** The allocation state of a buffer, and the bytes moved to get there. */
  datatype Growth = Growth(size: nat, capacity: nat, moved: nat)

  /** A buffer that was only ever grown by appends. */
  ghost predicate Growing(g: Growth) {
    && g.size <= g.capacity <= HALF
    && (g.capacity == 0 ==> g.moved == 0)
    && (g.capacity > 0 ==> g.moved < g.capacity < 2 * g.size && exists k :: g.capacity == Pow2(k))
  }

  /** The sizes add_capacity refuses: over 2^63, unless the capacity is already there. */
  predicate TooLarge(g: Growth, n: nat) {
    HALF < g.size + n && g.capacity < g.size + n
  }

  /** What appending n bytes does to the allocation; nothing if it fails. */
  ghost predicate Appended(g: Growth, n: nat, after: Growth) {
    if n == 0 || TooLarge(g, n) then after == g
    else
      && after.size == g.size + n
      && if after.size <= g.capacity then after.capacity == g.capacity && after.moved == g.moved
         else LeastPow2(after.capacity, after.size) && after.moved == g.moved + g.capacity
  }

  lemma AppendKeepsGrowing(g: Growth, n: nat, after: Growth)
    requires Growing(g) && Appended(g, n, after)
    ensures Growing(after)
  {
    if after.capacity != g.capacity {
      LeastPow2Bound(after.capacity, after.size);
      var j: nat :| after.capacity == Pow2(j);
      WordPowers();
      assert after.size <= Pow2(63);
      if g.capacity > 0 {
        var k: nat :| g.capacity == Pow2(k);
        Pow2Grows(j, k);
        Pow2Grows(k, j);
      }
    }
  }

  /** Appending chunks of the given sizes, one after the other. */
  ghost predicate AppendRun(sizes: seq<nat>, states: seq<Growth>) {
    && |states| == |sizes| + 1 && states[0] == Growth(0, 0, 0)
    && forall i :: 0 <= i < |sizes| ==> Appended(states[i], sizes[i], states[i + 1])
  }

  /** A run of appends from empty to a nonzero size moves fewer than twice that many bytes. */
  lemma {:induction false} MovedBytes(sizes: seq<nat>, states: seq<Growth>)
    requires AppendRun(sizes, states)
    ensures Growing(states[|sizes|])
    ensures var last := states[|sizes|]; last.size > 0 ==> last.moved < 2 * last.size
  {
    if sizes != [] {
      var n := |sizes| - 1;
      assert AppendRun(sizes[..n], states[..n + 1]);
      MovedBytes(sizes[..n], states[..n + 1]);
      assert Appended(states[n], sizes[n], states[n + 1]);
      AppendKeepsGrowing(states[n], sizes[n], states[n + 1]);
    }
  }

  class Buffer {
    var data: array?<Byte>
    var size: nat
    var capacity: nat
    ghost var moved: nat

    ghost function Repr(): set<object>
      reads this
    {
      if data == null then {} else {data}
    }

    ghost predicate Valid()
      reads this, Repr()
    {
      && size <= capacity < U64
      && (data == null <==> capacity == 0)
      && (data != null ==> data.Length == capacity)
    }

    ghost function Contents(): seq<Byte>
      requires Valid()
      reads this, Repr()
    {
      if data == null then [] else data[..size]
    }

    ghost function Allocation(): Growth
      reads this
    {
      Growth(size, capacity, moved)
    }

    constructor ()
      ensures Valid() && Contents() == [] && Allocation() == Growth(0, 0, 0) && data == null
    {
      data := null;
      size, capacity, moved := 0, 0, 0;
    }

    /** realloc: the old bytes are copied, the rest of the block is arbitrary. */
    method ResizeExact(newCapacity: nat)
      requires Valid() && capacity < newCapacity < U64
      modifies this
      ensures Valid() && fresh(Repr()) && size == old(size) && capacity == newCapacity
      ensures Contents() == old(Contents()) && moved == old(moved) + old(capacity)
    {
      var newData := new Byte[newCapacity];
      if data != null {
        forall i | 0 <= i < capacity {
          newData[i] := data[i];
        }
      }
      moved := moved + capacity;
      data := newData;
      capacity := newCapacity;
    }

    /** cx_buffer_add_capacity; the room starts at the current size. */
    method AddCapacity(additionalSize: nat) returns (rv: Status)
      requires Valid() && additionalSize < U64
      modifies this
      ensures Valid() && fresh(Repr() - old(Repr())) && size == old(size) && Contents() == old(Contents())
      ensures rv.IntegerOverflow? <==> TooLarge(old(Allocation()), additionalSize)
      ensures rv.Success? && size + additionalSize > old(capacity) ==>
        LeastPow2(capacity, size + additionalSize) && moved == old(moved) + old(capacity)
      ensures rv.IntegerOverflow? || size + additionalSize <= old(capacity) ==>
        data == old(data) && Allocation() == old(Allocation())
    {
      var newCapacity := size + additionalSize;
      if newCapacity >= U64 {
        return IntegerOverflow;
      }
      if newCapacity > capacity {
        rv, newCapacity := RoundToNextPow2(newCapacity);
        if rv != Success {
          return;
        }
        LeastBelowWord(newCapacity, size + additionalSize);
        ResizeExact(newCapacity);
      }
      return Success;
    }

    /** cx_buffer_add_size; the caller must have added the capacity before. */
    method AddSize(additionalSize: nat) returns (rv: Status)
      requires Valid() && additionalSize < U64
      modifies this`size
      ensures rv == if old(size) + additionalSize < U64 then Success else IntegerOverflow
      ensures size == old(size) + if rv.Success? then additionalSize else 0
    {
      var newSize := size + additionalSize;
      if newSize >= U64 {
        return IntegerOverflow;
      }
      size := newSize;
      return Success;
    }

    /** cx_buffer_append */
    method Append(source: seq<Byte>) returns (rv: Status)
      requires Valid() && |source| < U64
      modifies this, Repr()
      ensures Valid() && fresh(Repr() - old(Repr()))
      ensures rv.IntegerOverflow? <==> source != [] && TooLarge(old(Allocation()), |source|)
      ensures Contents() == if rv.Success? then old(Contents()) + source else old(Contents())
      ensures Appended(old(Allocation()), |source|, Allocation())
      ensures Growing(old(Allocation())) ==>
        Growing(Allocation()) && (rv.IntegerOverflow? <==> HALF < old(size) + |source|)
    {
      assert Growing(old(Allocation())) ==> size <= capacity <= HALF;
      hide Growing;
      if |source| <= 0 {
        return Success;
      }
      rv := AddCapacity(|source|);
      if rv != Success {
        return;
      }
      CopyIn(source);
      rv := AddSize(|source|);
      if Growing(old(Allocation())) { AppendKeepsGrowing(old(Allocation()), |source|, Allocation()); }
    }

    /** The bytes are copied behind the contents, where there is room for them. */
    method CopyIn(source: seq<Byte>)
      requires Valid() && source != [] && size + |source| <= capacity
      modifies Repr()
      ensures Valid() && data != null && size + |source| <= data.Length
      ensures data[..size + |source|] == old(Contents()) + source
    {
      forall i | 0 <= i < |source| {
        data[size + i] := source[i];
      }
      assert data[..size] == old(data[..size]);
      assert data[size..size + |source|] == source;
      TwoParts(data[..], size, |source|);
      assert data[..][..size + |source|] == data[..size + |source|];
    }

    /** cx_buffer_drain */
    method Drain()
      requires Valid()
      modifies this`size
      ensures Valid() && size == 0 && Contents() == []
    {
      size := 0;
    }

    /** cx_buffer_unwrap: the caller takes the block, the buffer is empty again. */
    method Unwrap() returns (block: array?<Byte>)
      requires Valid()
      modifies this
      ensures Valid() && block == old(data) && Contents() == [] && Allocation() == Growth(0, 0, old(moved))
    {
      block := data;
      data := null;
      Cleanup();
    }

    /** cx_buffer_cleanup */
    method Cleanup()
      modifies this
      ensures Valid() && data == null && Allocation() == Growth(0, 0, old(moved))
    {
      data := null;
      size, capacity := 0, 0;
    }
  }

  lemma TwoParts(s: seq<Byte>, i: nat, n: nat)
    requires i + n <= |s|
    ensures s[..i] + s[i..i + n] == s[..i + n]
  {
  }

  lemma LeastBelowWord(p: nat, v: nat)
    requires LeastPow2(p, v) && v <= HALF
    ensures p < U64
  {
    WordPowers();
    assert v <= Pow2(63);
  }
}
