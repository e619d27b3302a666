/** The reference-counted array of rc_map.c. */
module RcMap {
  import opened CountedMap

  const INT_MAX: int := 0x7fff_ffff

  /** The cleanup callback, as the log of the values it was called with. */
  class Cleanup<V> {
    ghost var values: seq<V>

    constructor ()
      ensures values == []
    {
      values := [];
    }

    method Call(value: V)
      modifies this
      ensures values == old(values) + [value]
    {
      values := values + [value];
    }
  }

  ghost predicate NonNegative(refs: seq<int>) {
    forall i :: 0 <= i < |refs| ==> refs[i] >= 0
  }

  /** The slots in use, as a counted map from indices. */
  ghost function InUse<V>(refs: seq<int>, data: seq<V>): map<nat, Entry<V>>
    requires NonNegative(refs) && |refs| == |data|
  {
    map i: nat | i < |refs| && refs[i] > 0 :: Entry(refs[i], data[i])
  }

  /** Slot i lies at the i-th element behind the base address. */
  ghost function SlotAddress(base: nat, elementSize: nat, i: nat): nat {
    base + i * elementSize
  }

  lemma AddressIndex(base: nat, elementSize: nat, size: nat, i: nat, offset: nat)
    requires i < size && offset < elementSize
    ensures var p := SlotAddress(base, elementSize, i) + offset;
            base <= p < base + size * elementSize && (p - base) / elementSize == i
  {
    var q := i * elementSize;
    NextElement(i, size, elementSize);
    DivUnique(q + offset, elementSize, i);
  }

  lemma NextElement(i: nat, size: nat, elementSize: nat)
    requires i < size
    ensures i * elementSize + elementSize <= size * elementSize
  {
    MulMono(i + 1, size, elementSize);
  }

  lemma DivUnique(q: nat, d: nat, i: nat)
    requires d > 0 && i * d <= q < i * d + d
    ensures q / d == i
  {
    QuotientBounds(q, d, i);
  }

  /** k <= q / d exactly when k * d <= q. */
  lemma QuotientBounds(q: nat, d: nat, i: nat)
    requires d > 0
    ensures q < i * d + d ==> q / d <= i
    ensures i * d <= q ==> i <= q / d
  {
    var k := q / d;
    assert q == k * d + q % d;
    if k > i {
      MulMono(i + 1, k, d);
    } else {
      MulMono(k + 1, i, d);
    }
  }

  lemma MulMono(a: nat, b: nat, d: nat)
    ensures a <= b ==> a * d <= b * d
  {
    if a <= b {
      var c := b - a;
      assert b * d == (a + c) * d == a * d + c * d;
      assert c * d >= 0;
    }
  }

  lemma IndexInRange(base: nat, elementSize: nat, size: nat, p: nat)
    requires elementSize > 0 && base <= p < base + size * elementSize
    ensures (p - base) / elementSize < size
  {
    if size > 0 {
      assert size * elementSize == (size - 1) * elementSize + elementSize;
      QuotientBounds(p - base, elementSize, size - 1);
    }
  }

  class RcMap<V> {
    const base: nat            // the address of the element block
    const size: nat
    const elementSize: nat
    const refCount: array<int>
    const data: array<V>
    const cleanup: Cleanup<V>

    ghost predicate Valid()
      reads refCount
    {
      && base > 0 && elementSize > 0
      && refCount.Length == data.Length == size
      && refCount as object != data as object
      && NonNegative(refCount[..])
    }

    ghost function State(): Counted<V>
      reads refCount, data, cleanup
      requires Valid()
    {
      Counted(InUse(refCount[..], data[..]), cleanup.values)
    }

    /** cx_rc_map_init; calloc leaves every slot unused, with zero bytes for a value. */
    constructor (base: nat, size: nat, elementSize: nat, zero: V, cleanup: Cleanup<V>)
      requires base > 0 && elementSize > 0
      ensures Valid() && fresh(refCount) && fresh(data)
      ensures this.base == base && this.size == size && this.elementSize == elementSize && this.cleanup == cleanup
      ensures refCount[..] == seq(size, _ => 0) && data[..] == seq(size, _ => zero)
    {
      this.base, this.size, this.elementSize, this.cleanup := base, size, elementSize, cleanup;
      data := new V[size](_ => zero);
      refCount := new int[size](_ => 0);
    }

    /** get_element; the block has been allocated, so the product does not overflow. */
    function GetElement(index: nat): (p: nat)
      requires Valid() && index < size
      reads refCount
      ensures p == SlotAddress(base, elementSize, index) > 0
    {
      base + index * elementSize
    }

    /** cx_rc_map_is_empty */
    predicate IsEmpty(index: nat)
      requires Valid() && index < size
      reads refCount
    {
      refCount[index] == 0
    }

    /** cx_rc_map_retain */
    method Retain(index: nat) returns (p: nat)
      requires Valid() && index < size && refCount[index] < INT_MAX
      modifies refCount
      ensures Valid() && State() == Retained(old(State()), index)
      ensures p == if old(refCount[index]) == 0 then 0 else SlotAddress(base, elementSize, index)
      ensures refCount[index] <= 0x7fff_ffff
      ensures refCount[..] ==
              old(refCount[..])[index := if old(refCount[index]) == 0 then 0 else old(refCount[index]) + 1]
    {
      if IsEmpty(index) {
        assert refCount[..] == old(refCount[..])[index := 0];
        return 0;
      }
      refCount[index] := refCount[index] + 1;
      UseOne(old(refCount[..]), data[..], index, refCount[index], data[index]);
      assert refCount[..] == old(refCount[..])[index := refCount[index]];
      p := GetElement(index);
    }

    /** cx_rc_map_set: on a slot in use the new value is cleaned up and the old one retained. */
    method Set(index: nat, value: V) returns (p: nat)
      requires Valid() && index < size && refCount[index] < INT_MAX
      modifies refCount, data, cleanup
      ensures Valid() && State() == WithPut(old(State()), index, value)
      ensures p == SlotAddress(base, elementSize, index)
      ensures refCount[..] == old(refCount[..])[index := old(refCount[index]) + 1] && refCount[index] <= 0x7fff_ffff
      ensures data[..] == old(data[..])[index := if old(refCount[index]) == 0 then value else old(data[index])]
      ensures cleanup.values == old(cleanup.values) + if old(refCount[index]) == 0 then [] else [value]
    {
      p := GetElement(index);
      if !IsEmpty(index) {
        cleanup.Call(value);
        p := Retain(index);
        assert data[..] == old(data[..])[index := old(data[index])];
        return;
      }
      data[index] := value;
      refCount[index] := refCount[index] + 1;
      UseOne(old(refCount[..]), old(data[..]), index, 1, value);
      assert refCount[..] == old(refCount[..])[index := 1];
      assert data[..] == old(data[..])[index := value];
    }

    /** cx_rc_map_release_index; the source asserts that the slot was in use. */
    method ReleaseIndex(index: nat)
      requires Valid() && index < size && refCount[index] > 0
      modifies refCount, cleanup
      ensures Valid() && State() == Released(old(State()), index)
      ensures refCount[..] == old(refCount[..])[index := old(refCount[index]) - 1]
      ensures cleanup.values == old(cleanup.values) + if old(refCount[index]) == 1 then [data[index]] else []
    {
      refCount[index] := refCount[index] - 1;
      if refCount[index] == 0 {
        cleanup.Call(data[index]);
        DropOne(old(refCount[..]), data[..], index);
      } else {
        UseOne(old(refCount[..]), data[..], index, refCount[index], data[index]);
      }
      assert refCount[..] == old(refCount[..])[index := refCount[index]];
    }

    /** cx_rc_map_contains */
    predicate Contains(p: nat) {
      p != 0 && base <= p < base + size * elementSize
    }

    /** The slot an address inside the block belongs to. */
    function SlotOf(p: nat): (i: nat)
      requires elementSize > 0 && Contains(p)
      ensures i < size
    {
      IndexInRange(base, elementSize, size, p);
      (p - base) / elementSize
    }

    /** cx_rc_map_release */
    method Release(p: nat)
      requires Valid() && (p != 0 ==> Contains(p) && refCount[SlotOf(p)] > 0)
      modifies refCount, cleanup
      ensures Valid() && State() == if p == 0 then old(State()) else Released(old(State()), SlotOf(p))
      ensures p == 0 ==> refCount[..] == old(refCount[..]) && cleanup.values == old(cleanup.values)
      ensures p != 0 ==>
                && refCount[..] == old(refCount[..])[SlotOf(p) := old(refCount[..])[SlotOf(p)] - 1]
                && cleanup.values == old(cleanup.values) +
                   if old(refCount[..])[SlotOf(p)] == 1 then [data[SlotOf(p)]] else []
    {
      if p != 0 {
        var index := SlotOf(p);
        ReleaseIndex(index);
      }
    }

    /** cx_rc_map_retain_value */
    method RetainValue(p: nat)
      requires Valid() && (p != 0 ==> Contains(p) && refCount[SlotOf(p)] < INT_MAX)
      modifies refCount
      ensures Valid() && State() == if p == 0 then old(State()) else Retained(old(State()), SlotOf(p))
    {
      if p != 0 {
        var index := SlotOf(p);
        var _ := Retain(index);
      }
    }
  }

  lemma UseOne<V>(refs: seq<int>, data: seq<V>, i: nat, r: int, v: V)
    requires NonNegative(refs) && |refs| == |data| && i < |refs| && r > 0
    ensures NonNegative(refs[i := r])
    ensures InUse(refs[i := r], data[i := v]) == InUse(refs, data)[i := Entry(r, v)]
  {
  }

  lemma DropOne<V>(refs: seq<int>, data: seq<V>, i: nat)
    requires NonNegative(refs) && |refs| == |data| && i < |refs|
    ensures NonNegative(refs[i := 0])
    ensures InUse(refs[i := 0], data) == InUse(refs, data) - {i}
  {
  }
}
