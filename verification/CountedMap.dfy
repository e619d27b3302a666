/**
 * What a reference-counted container means: each live key has one value and a positive count,
 * and a cleanup log records the values whose last reference went.
 */
module CountedMap {
  datatype Entry<V> = Entry(count: nat, value: V)

  datatype Counted<V> = Counted(entries: map<nat, Entry<V>>, cleaned: seq<V>)

  ghost predicate Positive<V>(c: Counted<V>) {
    forall k :: k in c.entries ==> c.entries[k].count > 0
  }

  ghost function Count<V>(c: Counted<V>, key: nat): nat {
    if key in c.entries then c.entries[key].count else 0
  }

  ghost function Retained<V>(c: Counted<V>, key: nat): Counted<V> {
    if key in c.entries then
      c.(entries := c.entries[key := Entry(c.entries[key].count + 1, c.entries[key].value)])
    else c
  }

  ghost function Released<V>(c: Counted<V>, key: nat): Counted<V> {
    if key !in c.entries then c
    else if c.entries[key].count <= 1 then
      Counted(c.entries - {key}, c.cleaned + [c.entries[key].value])
    else
      c.(entries := c.entries[key := Entry(c.entries[key].count - 1, c.entries[key].value)])
  }

  /** A value put on a live key is cleaned up at once and counts as one more reference. */
  ghost function WithPut<V>(c: Counted<V>, key: nat, value: V): Counted<V> {
    if key in c.entries then Retained(c.(cleaned := c.cleaned + [value]), key)
    else c.(entries := c.entries[key := Entry(1, value)])
  }

  lemma RetainAbsent<V>(c: Counted<V>, key: nat)
    requires key !in c.entries
    ensures Retained(c, key) == c
  {
  }

  lemma RetainPresent<V>(c: Counted<V>, key: nat)
    requires Positive(c) && key in c.entries
    ensures Positive(Retained(c, key))
    ensures Retained(c, key) ==
            Counted(c.entries[key := Entry(c.entries[key].count + 1, c.entries[key].value)], c.cleaned)
  {
  }

  lemma RetainCases<V>(c: Counted<V>, key: nat)
    ensures key !in c.entries ==> Retained(c, key) == c
    ensures key in c.entries ==>
              Retained(c, key) == Counted(c.entries[key := Entry(c.entries[key].count + 1, c.entries[key].value)],
                c.cleaned)
  {
  }

  lemma PutCases<V>(c: Counted<V>, key: nat, value: V)
    ensures key !in c.entries ==> WithPut(c, key, value) == Counted(c.entries[key := Entry(1, value)], c.cleaned)
    ensures key in c.entries ==>
              WithPut(c, key, value) ==
              Counted(c.entries[key := Entry(c.entries[key].count + 1, c.entries[key].value)], c.cleaned + [value])
  {
  }

  lemma PutAbsent<V>(c: Counted<V>, key: nat, value: V)
    requires Positive(c) && key !in c.entries
    ensures Retained(c, key) == c && Positive(WithPut(c, key, value))
    ensures WithPut(c, key, value) == Counted(c.entries[key := Entry(1, value)], c.cleaned)
  {
  }

  lemma PutPresent<V>(c: Counted<V>, key: nat, value: V)
    requires Positive(c) && key in c.entries
    ensures Positive(WithPut(c, key, value))
    ensures WithPut(c, key, value) == Counted(Retained(c, key).entries, Retained(c, key).cleaned + [value])
  {
  }

  lemma ReleaseCases<V>(c: Counted<V>, key: nat)
    requires Positive(c)
    ensures Positive(Released(c, key))
    ensures key !in c.entries ==> Released(c, key) == c
    ensures key in c.entries && c.entries[key].count == 1 ==>
              Released(c, key) == Counted(c.entries - {key}, c.cleaned + [c.entries[key].value])
    ensures key in c.entries && c.entries[key].count != 1 ==>
              Released(c, key) == Counted(c.entries[key := Entry(c.entries[key].count - 1, c.entries[key].value)],
                c.cleaned)
  {
  }

  lemma CountReleased<V>(c: Counted<V>, key: nat, k: nat)
    requires Positive(c) && key in c.entries
    ensures Positive(Released(c, key))
    ensures Count(Released(c, key), k) == Count(c, k) - if k == key then 1 else 0
  {
  }

  lemma CountRetained<V>(c: Counted<V>, key: nat, k: nat)
    requires Positive(c) && key in c.entries
    ensures Positive(Retained(c, key))
    ensures Count(Retained(c, key), k) == Count(c, k) + if k == key then 1 else 0
  {
  }
}
