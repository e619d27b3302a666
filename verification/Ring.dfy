/**
 * The ring of lru.c as a sequence: from the slot after ring_index round to ring_index, oldest
 * key first.
 */
module Ring {
  import opened Seqs
  import opened CountedMap

  const EMPTY_MARKER: nat := U64 - 1

  ghost function View(items: seq<nat>, ringIndex: nat): seq<nat>
    requires ringIndex < |items|
  {
    items[ringIndex + 1..] + items[..ringIndex + 1]
  }

  /** try_touch turns a key down that is in the newest or the oldest slot. */
  ghost predicate Accepts(view: seq<nat>, key: nat) {
    |view| > 0 && view[0] != key && view[|view| - 1] != key
  }

  ghost function Slide(view: seq<nat>, key: nat): seq<nat> {
    if Accepts(view, key) then view[1..] + [key] else view
  }

  /** The ring lists the slots of the array in another order. */
  lemma ViewSlots(items: seq<nat>, ringIndex: nat)
    requires ringIndex < |items|
    ensures multiset(View(items, ringIndex)) == multiset(items)
  {
    assert items == items[..ringIndex + 1] + items[ringIndex + 1..];
  }

  datatype Cache<V> = Cache(counted: Counted<V>, view: seq<nat>)

  /** The reference a ring slot holds is given back; an empty slot holds none. */
  ghost function GiveBack<V>(c: Counted<V>, slot: nat): Counted<V> {
    if slot == EMPTY_MARKER then c else Released(c, slot)
  }

  ghost function Touched<V>(c: Cache<V>, key: nat): Cache<V> {
    if Accepts(c.view, key) then
      Cache(Retained(GiveBack(c.counted, c.view[0]), key), Slide(c.view, key))
    else c
  }

  ghost function GiveBackAll<V>(c: Counted<V>, slots: seq<nat>): Counted<V> {
    if slots == [] then c
    else GiveBack(GiveBackAll(c, slots[..|slots| - 1]), slots[|slots| - 1])
  }

  /** How many references the ring holds to a key. */
  ghost function Share(view: seq<nat>, key: nat): nat {
    if key == EMPTY_MARKER then 0 else multiset(view)[key]
  }

  /** Every slot stands for a reference of its own. */
  ghost predicate Covers<V>(c: Counted<V>, slots: seq<nat>) {
    forall k :: Share(slots, k) <= Count(c, k)
  }

  /** Giving back slots takes exactly their share off every count. */
  lemma {:induction false} GiveBackCounts<V>(c: Counted<V>, slots: seq<nat>)
    requires Positive(c) && Covers(c, slots)
    ensures Positive(GiveBackAll(c, slots))
    ensures forall k :: Count(GiveBackAll(c, slots), k) == Count(c, k) - Share(slots, k)
  {
    if slots != [] {
      var front, last := slots[..|slots| - 1], slots[|slots| - 1];
      ShareSnoc(front, last);
      assert slots == front + [last];
      forall k
        ensures Share(front, k) <= Count(c, k)
      {
        assert Share(slots, k) <= Count(c, k);
      }
      GiveBackCounts(c, front);
      var d := GiveBackAll(c, front);
      if last != EMPTY_MARKER {
        assert Share(slots, last) <= Count(c, last);
        assert Count(d, last) > 0;
        forall k
          ensures Positive(Released(d, last))
          ensures Count(Released(d, last), k) == Count(d, k) - if k == last then 1 else 0
        {
          CountReleased(d, last, k);
        }
      }
    }
  }

  lemma ShareSnoc(front: seq<nat>, last: nat)
    ensures forall k :: Share(front + [last], k) == Share(front, k) + if k == last && k != EMPTY_MARKER then 1 else 0
  {
  }

  /** Each slot is still live when its turn comes to be given back. */
  lemma SlotStaysLive<V>(c: Counted<V>, slots: seq<nat>, i: nat)
    requires Positive(c) && Covers(c, slots) && i < |slots| && slots[i] != EMPTY_MARKER
    ensures slots[i] in GiveBackAll(c, slots[..i]).entries
  {
    assert slots == slots[..i + 1] + slots[i + 1..] && slots[..i + 1] == slots[..i] + [slots[i]];
    ShareSnoc(slots[..i], slots[i]);
    assert multiset(slots) == multiset(slots[..i + 1]) + multiset(slots[i + 1..]);
    forall k
      ensures Share(slots[..i + 1], k) <= Count(c, k)
    {
      assert Share(slots, k) <= Count(c, k);
    }
    assert Covers(c, slots[..i]);
    GiveBackCounts(c, slots[..i]);
    assert Count(GiveBackAll(c, slots[..i]), slots[i]) > 0;
  }

  /** A ring of the given size into which the keys have been accepted. */
  ghost function After(size: nat, accepted: seq<nat>): (view: seq<nat>)
    ensures |view| == size
  {
    (seq(size, _ => EMPTY_MARKER) + accepted)[|accepted|..]
  }

  lemma AfterOneMore(size: nat, accepted: seq<nat>, key: nat)
    requires size > 0
    ensures After(size, accepted + [key]) == After(size, accepted)[1..] + [key]
  {
  }

  /** The ring is a sliding window over the accepted keys. */
  lemma SlidingWindow(size: nat, accepted: seq<nat>)
    ensures var view, n := After(size, accepted), if |accepted| < size then |accepted| else size;
            && view[size - n..] == accepted[|accepted| - n..]
            && forall i :: 0 <= i < size - n ==> view[i] == EMPTY_MARKER
  {
  }

  /**
   * A key is turned down exactly if the ring has no slots, or it is the key accepted last, or the
   * one accepted size acceptances ago; slots nothing has been written to hold 2^64 - 1.
   */
  lemma AcceptsIff(size: nat, accepted: seq<nat>, key: nat)
    ensures Accepts(After(size, accepted), key) <==>
            && size > 0
            && key != (if accepted == [] then 0xFFFF_FFFF_FFFF_FFFF else accepted[|accepted| - 1])
            && key != (if |accepted| < size then 0xFFFF_FFFF_FFFF_FFFF else accepted[|accepted| - size])
  {
    if size > 0 {
      var view := After(size, accepted);
      assert view[size - 1] == (seq(size, _ => EMPTY_MARKER) + accepted)[|accepted| + size - 1];
      assert view[0] == (seq(size, _ => EMPTY_MARKER) + accepted)[|accepted|];
    }
  }

  /** The first touch of a live key on a new ring takes one reference and gives none back. */
  lemma FirstTouch<V>(c: Counted<V>, size: nat, key: nat)
    requires size > 0 && key in c.entries && key < 0xFFFF_FFFF_FFFF_FFFF
    ensures Touched(Cache(c, After(size, [])), key).counted.entries ==
            c.entries[key := Entry(c.entries[key].count + 1, c.entries[key].value)]
  {
    AcceptsIff(size, [], key);
  }

  /** An accepted key survives the next size - 1 accepted touches. */
  lemma Survives(size: nat, accepted: seq<nat>, key: nat, later: seq<nat>)
    requires |later| < size
    ensures key in After(size, accepted + [key] + later)
  {
    var view := After(size, accepted + [key] + later);
    assert view[size - 1 - |later|] == key;
  }

  /** A key just touched is in the ring. */
  lemma TouchedIsIn(view: seq<nat>, key: nat)
    requires |view| > 0
    ensures key in Slide(view, key)
  {
    if Accepts(view, key) {
      assert Slide(view, key)[|view| - 1] == key;
    }
  }
}
