/**
 * The shape of a radix tree as a map: `at` gives the node at every place (level, prefix).
 * Level 0 holds the leaves, the prefix of a leaf being its whole key; a branch of level n
 * covers the keys that agree above their n lowest digits.  Because a prefix is a number, adding
 * a root on top, which puts a digit 0 in front of every key, leaves every node where it is.
 */
module RadixShape {
  import opened PreallocPool
  import opened RadixKeys

  datatype Place = Place(level: nat, prefix: nat)

  type Branch = Elem<seq<nat>>
  type Nodes = map<Place, nat>
  type Memory = map<nat, Branch>

  ghost predicate IsBranch(b: Branch) {
    |b.tail| == RADIX_SIZE - 1
  }

  /** children[i]: the first child is the first word of the element. */
  function Child(b: Branch, i: nat): nat
    requires |b.tail| == RADIX_SIZE - 1 && i < RADIX_SIZE
  {
    if i == 0 then b.word else b.tail[i - 1]
  }

  function SetChild(b: Branch, i: nat, p: nat): (r: Branch)
    requires |b.tail| == RADIX_SIZE - 1 && i < RADIX_SIZE
    ensures IsBranch(r)
    ensures forall j :: 0 <= j < RADIX_SIZE ==> Child(r, j) == if j == i then p else Child(b, j)
  {
    if i == 0 then b.(word := p) else b.(tail := b.tail[i - 1 := p])
  }

  /** The place of child i of the branch at x. */
  ghost function Down(x: Place, i: nat): Place
    requires x.level > 0 && i < RADIX_SIZE
  {
    Place(x.level - 1, x.prefix * RADIX_SIZE + i)
  }

  ghost function Up(x: Place): Place {
    Place(x.level + 1, x.prefix / RADIX_SIZE)
  }

  lemma UpDown(x: Place, y: Place, i: nat)
    requires x.level > 0 && i < RADIX_SIZE
    ensures y == Down(x, i) <==> x == Up(y) && i == y.prefix % RADIX_SIZE
  {
  }

  /** The place of level n on the way to a key. */
  ghost function On(key: nat, n: nat): Place {
    Place(n, Prefix(key, n))
  }

  /** The node at a place, or NULL. */
  ghost function Node(at: Nodes, x: Place): nat {
    if x in at then at[x] else 0
  }

  /** The branch at a place points to exactly the nodes one level down. */
  ghost predicate BranchAt(at: Nodes, bmem: Memory, x: Place)
    requires x in at && x.level > 0
  {
    at[x] in bmem && PointsTo(at, bmem[at[x]], x)
  }

  ghost predicate PointsTo(at: Nodes, b: Branch, x: Place)
    requires x.level > 0
  {
    IsBranch(b) && forall i :: 0 <= i < RADIX_SIZE ==> Child(b, i) == Node(at, Down(x, i))
  }

  /** A node is not NULL, and is the root or has a parent. */
  ghost predicate Hangs(at: Nodes, h: nat, x: Place)
    requires x in at
  {
    at[x] != 0 && x.level <= h && if x.level == h then x.prefix == 0 else Up(x) in at
  }

  /** No two branches share memory, and no two leaves do. */
  ghost predicate Separate(at: Nodes) {
    forall x, y :: x in at && y in at && at[x] == at[y] && (x.level == 0 <==> y.level == 0) ==> x == y
  }

  ghost predicate Shape(at: Nodes, bmem: Memory, h: nat) {
    && (h > 0 ==> Place(h, 0) in at)
    && (forall x {:trigger Hangs(at, h, x)} :: x in at ==> Hangs(at, h, x))
    && (forall x {:trigger BranchAt(at, bmem, x)} :: x in at && x.level > 0 ==> BranchAt(at, bmem, x))
    && Separate(at)
  }

  /** The keys that have a leaf, with the leaf. */
  ghost function Leaves(at: Nodes): (m: map<nat, nat>)
    ensures forall k :: k in m <==> Place(0, k) in at
    ensures forall k :: k in m ==> m[k] == at[Place(0, k)]
  {
    var keys := set x | x in at && x.level == 0 :: x.prefix;
    assert forall k :: Place(0, k) in at ==> Place(0, k).prefix in keys;
    map k | k in keys :: at[Place(0, k)]
  }

  /** Everything on the way to a node is there. */
  lemma {:induction false} PathUp(at: Nodes, bmem: Memory, h: nat, key: nat, n: nat, m: nat)
    requires Shape(at, bmem, h) && n <= m <= h && On(key, n) in at
    ensures On(key, m) in at
    decreases m - n
  {
    if n < m {
      assert Hangs(at, h, On(key, n));
      PrefixStep(key, n);
      PathUp(at, bmem, h, key, n + 1, m);
    }
  }

  /** All keys in the tree are at most the capacity. */
  lemma LeafFits(at: Nodes, bmem: Memory, h: nat, key: nat)
    requires Shape(at, bmem, h) && On(key, 0) in at
    ensures key <= Cap(h)
  {
    PathUp(at, bmem, h, key, 0, h);
    assert Hangs(at, h, On(key, h));
    CapPrefix(key, h);
  }

  /** One step of a walk: the child slot read is the next node on the way to the key. */
  lemma StepDown(at: Nodes, bmem: Memory, h: nat, key: nat, level: nat)
    requires Shape(at, bmem, h) && 0 < level <= h && On(key, level) in at
    ensures BranchAt(at, bmem, On(key, level))
    ensures Down(On(key, level), Digit(key, level - 1)) == On(key, level - 1)
    ensures Child(bmem[at[On(key, level)]], Digit(key, level - 1)) == Node(at, On(key, level - 1))
  {
    assert BranchAt(at, bmem, On(key, level));
    PrefixStep(key, level - 1);
  }

  /** A branch keeps pointing to its children when no child of it changes. */
  lemma PointsSame(at: Nodes, at': Nodes, b: Branch, z: Place, y: Place)
    requires z.level > 0 && PointsTo(at, b, z)
    requires forall x :: x != y ==> Node(at', x) == Node(at, x)
    requires z != Up(y)
    ensures PointsTo(at', b, z)
  {
    forall i | 0 <= i < RADIX_SIZE
      ensures Child(b, i) == Node(at', Down(z, i))
    {
      UpDown(z, y, i);
    }
  }

  /** The parent of a place follows a change there when the slot is written. */
  lemma PointsSet(at: Nodes, at': Nodes, b: Branch, y: Place)
    requires PointsTo(at, b, Up(y))
    requires forall x :: x != y ==> Node(at', x) == Node(at, x)
    ensures PointsTo(at', SetChild(b, y.prefix % RADIX_SIZE, Node(at', y)), Up(y))
  {
    var z := Up(y);
    forall i | 0 <= i < RADIX_SIZE
      ensures Child(SetChild(b, y.prefix % RADIX_SIZE, Node(at', y)), i) == Node(at', Down(z, i))
    {
      UpDown(z, y, i);
    }
  }

  /** resize: a new root above the old one changes no node's place. */
  lemma GrowShape(at: Nodes, bmem: Memory, h: nat, e: nat, b: Branch)
    requires Shape(at, bmem, h) && e != 0 && e !in bmem
    requires IsBranch(b)
    requires forall i :: 0 <= i < RADIX_SIZE ==> Child(b, i) == if i == 0 then Node(at, Place(h, 0)) else 0
    ensures Shape(at[Place(h + 1, 0) := e], bmem[e := b], h + 1)
  {
    hide PointsTo, Separate;
    var top := Place(h + 1, 0);
    var at', bmem' := at[top := e], bmem[e := b];
    NodesBelow(at, bmem, h);
    SeparateAdd(at, top, e);
    forall x | x in at'
      ensures Hangs(at', h + 1, x)
    {
      if x in at {
        assert Hangs(at, h, x);
      }
    }
    forall x | x in at' && x.level > 0
      ensures BranchAt(at', bmem', x)
    {
      if x in at {
        assert BranchAt(at, bmem, x);
        PointsSame(at, at', bmem[at[x]], x, top);
      } else {
        TopPointsDown(at, bmem, h, e, b);
      }
    }
  }

  lemma TopPointsDown(at: Nodes, bmem: Memory, h: nat, e: nat, b: Branch)
    requires Shape(at, bmem, h) && IsBranch(b)
    requires forall i :: 0 <= i < RADIX_SIZE ==> Child(b, i) == if i == 0 then Node(at, Place(h, 0)) else 0
    ensures PointsTo(at[Place(h + 1, 0) := e], b, Place(h + 1, 0))
  {
    NodesBelow(at, bmem, h);
    hide Shape, IsBranch, Child;
    assert forall i :: 0 <= i < RADIX_SIZE ==> Down(Place(h + 1, 0), i) == Place(h, i);
  }

  lemma NodesBelow(at: Nodes, bmem: Memory, h: nat)
    requires Shape(at, bmem, h)
    ensures forall x :: x in at ==> at[x] != 0 && x.level <= h && (x.level == h ==> x.prefix == 0)
    ensures forall x :: x in at && x.level > 0 ==> at[x] in bmem
  {
    forall x | x in at
      ensures at[x] != 0 && x.level <= h && (x.level == h ==> x.prefix == 0)
      ensures x.level > 0 ==> at[x] in bmem
    {
      assert Hangs(at, h, x);
      assert x.level > 0 ==> BranchAt(at, bmem, x);
    }
  }

  /** The parent of a place with its slot rewritten. */
  ghost function WriteSlot(at: Nodes, bmem: Memory, y: Place, p: nat): Memory
    requires Up(y) in at && BranchAt(at, bmem, Up(y))
  {
    var b := at[Up(y)];
    bmem[b := SetChild(bmem[b], y.prefix % RADIX_SIZE, p)]
  }

  /** What a write to a slot keeps for a branch that was there before. */
  lemma SlotWritten(at: Nodes, at': Nodes, bmem: Memory, h: nat, y: Place, z: Place)
    requires Shape(at, bmem, h) && Up(y) in at && BranchAt(at, bmem, Up(y))
    requires forall x :: x != y ==> (x in at' <==> x in at)
    requires forall x :: x != y && x in at ==> at'[x] == at[x]
    requires z in at && z != y && z.level > 0
    ensures BranchAt(at', WriteSlot(at, bmem, y, Node(at', y)), z)
  {
    assert BranchAt(at, bmem, z);
    if z == Up(y) {
      PointsSet(at, at', bmem[at[z]], y);
    } else {
      assert at[z] != at[Up(y)];
      PointsSame(at, at', bmem[at[z]], z, y);
    }
  }

  /** Where a node is missing, an empty branch points to exactly what lies below: nothing. */
  lemma NothingBelow(at: Nodes, bmem: Memory, h: nat, y: Place, e: nat, b: Branch)
    requires Shape(at, bmem, h) && 0 < y.level < h && y !in at
    requires IsBranch(b) && forall j :: 0 <= j < RADIX_SIZE ==> Child(b, j) == 0
    ensures PointsTo(at[y := e], b, y)
  {
    forall j | 0 <= j < RADIX_SIZE
      ensures Node(at[y := e], Down(y, j)) == 0
    {
      UpDown(y, Down(y, j), j);
      assert Down(y, j) in at ==> Hangs(at, h, Down(y, j));
    }
  }

  lemma SeparateAdd(at: Nodes, y: Place, e: nat)
    requires Separate(at)
    requires forall x :: x in at && (x.level == 0 <==> y.level == 0) ==> at[x] != e
    ensures Separate(at[y := e])
  {
  }

  /** Filling an empty slot with an empty branch. */
  lemma AddBranchShape(at: Nodes, bmem: Memory, h: nat, y: Place, e: nat, b: Branch)
    requires Shape(at, bmem, h) && y.level > 0 && y !in at && Up(y) in at && BranchAt(at, bmem, Up(y))
    requires e != 0 && e !in bmem && IsBranch(b) && forall j :: 0 <= j < RADIX_SIZE ==> Child(b, j) == 0
    ensures Shape(at[y := e], WriteSlot(at, bmem, y, e)[e := b], h)
  {
    hide PointsTo, Separate;
    var at', bmem' := at[y := e], WriteSlot(at, bmem, y, e)[e := b];
    assert Hangs(at, h, Up(y));
    NodesBelow(at, bmem, h);
    SeparateAdd(at, y, e);
    forall z | z in at'
      ensures Hangs(at', h, z)
    {
      assert Hangs(at, h, Up(y));
      assert z in at ==> Hangs(at, h, z);
    }
    forall z | z in at' && z.level > 0
      ensures BranchAt(at', bmem', z)
    {
      if z == y {
        NothingBelow(at, bmem, h, y, e, b);
      } else {
        SlotWritten(at, at', bmem, h, y, z);
      }
    }
  }

  /** Writing a leaf pointer into the slot of its key. */
  lemma SetLeafShape(at: Nodes, bmem: Memory, h: nat, key: nat, e: nat)
    requires Shape(at, bmem, h) && h > 0 && e != 0
    requires forall x :: x in at && x.level == 0 ==> at[x] != e
    requires Up(Place(0, key)) in at && BranchAt(at, bmem, Up(Place(0, key)))
    ensures Shape(at[Place(0, key) := e], WriteSlot(at, bmem, Place(0, key), e), h)
  {
    var y := Place(0, key);
    var at', bmem' := at[y := e], WriteSlot(at, bmem, y, e);
    forall z | z in at'
      ensures Hangs(at', h, z)
    {
      assert z in at ==> Hangs(at, h, z);
    }
    forall z | z in at' && z.level > 0
      ensures BranchAt(at', bmem', z)
    {
      SlotWritten(at, at', bmem, h, y, z);
    }
  }

  /** Clearing the slot of a key. */
  lemma ClearLeafShape(at: Nodes, bmem: Memory, h: nat, key: nat)
    requires Shape(at, bmem, h) && h > 0
    requires Up(Place(0, key)) in at && BranchAt(at, bmem, Up(Place(0, key)))
    ensures Shape(at - {Place(0, key)}, WriteSlot(at, bmem, Place(0, key), 0), h)
  {
    var y := Place(0, key);
    var at', bmem' := at - {y}, WriteSlot(at, bmem, y, 0);
    forall z | z in at'
      ensures Hangs(at', h, z)
    {
      assert Hangs(at, h, z);
    }
    forall z | z in at' && z.level > 0
      ensures BranchAt(at', bmem', z)
    {
      SlotWritten(at, at', bmem, h, y, z);
    }
  }
}
