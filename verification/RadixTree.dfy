/**
 * The byte-wise trie of radix_tree.c.  Node memory is explicit: branches live in the branch
 * pool, leaves in the leaf pool, and a pointer is an address in one of them.
 */
module RadixTree {
  import opened Seqs
  import opened PreallocPool
  import opened RadixKeys
  import opened RadixShape

  /** The walk: the slot read for the next digit holds the next node on the way to the key. */
  lemma WalkDown(at: Nodes, bmem: Memory, h: nat, key: nat, n: nat)
    requires Shape(at, bmem, h) && n < h && On(key, h - n) in at
    ensures var rk := Prefix(Reversed(key, h), n);
            && rk / RADIX_SIZE == Prefix(Reversed(key, h), n + 1)
            && Down(On(key, h - n), rk % RADIX_SIZE) == On(key, h - n - 1)
            && BranchAt(at, bmem, On(key, h - n)) && IsBranch(bmem[at[On(key, h - n)]])
            && Child(bmem[at[On(key, h - n)]], rk % RADIX_SIZE) == Node(at, On(key, h - n - 1))
            && Up(On(key, h - n - 1)) == On(key, h - n) && On(key, h - n - 1).prefix % RADIX_SIZE == rk % RADIX_SIZE
            && (On(key, h - n - 1) in at <==> Node(at, On(key, h - n - 1)) != 0)
    ensures On(key, 0) == Place(0, key)
  {
    NodesBelow(at, bmem, h);
    UpDown(On(key, h - n), On(key, h - n - 1), Prefix(Reversed(key, h), n) % RADIX_SIZE);
    WalkDigit(key, h, n);
    StepDown(at, bmem, h, key, h - n);
  }

  class RadixTree<V> {
    const branchPool: Pool<seq<nat>>
    const leafPool: Pool<V>
    var capacity: nat
    var root: nat

    ghost var h: nat      // the height: capacity is 256^h - 1
    ghost var at: Nodes

    ghost predicate Pools()
      reads branchPool, leafPool
    {
      && branchPool as object != leafPool as object
      && branchPool.Valid() && branchPool.free == []
      && branchPool.zeroTail == seq(RADIX_SIZE - 1, _ => 0)
      && leafPool.Valid()
    }

    ghost predicate Valid()
      reads this, branchPool, leafPool
    {
      && Pools() && branchPool as object != leafPool as object
      && h <= 8 && capacity == Cap(h) && root == Node(at, Place(h, 0))
      && Shape(at, branchPool.mem, h)
      && LeavesLive(at, leafPool.Live())
    }

    /** The tree as a map from keys to leaves. */
    ghost function Map(): map<nat, nat>
      reads this
    {
      Leaves(at)
    }

    constructor (elementSize: nat, zeroTail: V)
      requires elementSize >= 8
      ensures Valid() && Map() == map[] && capacity == 0 && leafPool.Live() == {}
      ensures leafPool.elementSize == elementSize && leafPool.zeroTail == zeroTail && branchPool.elementSize == 2048
      ensures fresh(branchPool) && fresh(leafPool)
    {
      branchPool := new Pool.Init(8 * RADIX_SIZE, seq(RADIX_SIZE - 1, _ => 0));
      leafPool := new Pool.Init(elementSize, zeroTail);
      capacity, root, h, at := 0, 0, 0, map[];
    }

    /** cx_radix_tree_get, for every 64-bit key. */
    method Get(key: nat) returns (node: nat)
      requires Valid() && key < U64
      ensures node == if key in Map() then Map()[key] else 0
      ensures node != 0 <==> key in Map()
    {
      hide Pools, Shape, LeavesLive, Cap, Prefix, Reversed, PointsTo;
      TopOfWalk(key);
      node := root;
      if key > capacity {
        return 0;
      }
      var remainingKey := PrepareKey(capacity, key, h);
      var remainingCapacity := capacity;
      ghost var n := 0;
      CapShift(h);
      while remainingCapacity != 0 && node != 0
        invariant n <= h && remainingCapacity == Cap(h - n) && (remainingCapacity == 0 <==> n == h)
        invariant remainingKey == Prefix(Reversed(key, h), n)
        invariant node == Node(at, On(key, h - n))
      {
        WalkDown(at, branchPool.mem, h, key, n);
        var index := remainingKey % RADIX_SIZE;
        CapShift(h - n);
        remainingCapacity := remainingCapacity / RADIX_SIZE;
        remainingKey := remainingKey / RADIX_SIZE;
        CapShift(h - n - 1);
        node := Child(branchPool.mem[node], index);
        n := n + 1;
      }
      Bottom(key, h - n);
    }

    /** resize: adds roots until the capacity covers the key. */
    method Resize(key: nat)
      requires Valid() && key < U64
      modifies this, branchPool
      ensures Valid() && key <= capacity
      ensures Map() == old(Map()) && old(h) <= h <= 8
      ensures h > old(h) ==> Cap(h - 1) < key
      ensures h == old(h) ==> root == old(root)
      ensures h > 0 && old(h) == 0 ==> root != 0
    {
      hide Pools, Shape, LeavesLive, Cap, Node, Leaves;
      while capacity < key
        invariant Valid() && Map() == old(Map()) && old(h) <= h <= 8
        invariant h > old(h) ==> Cap(h - 1) < key && root != 0
        invariant h == old(h) ==> root == old(root)
        decreases 8 - h
      {
        CapBounds(h, 8);
        Grow(key);
      }
    }

    /** One round of the loop of resize. */
    method Grow(key: nat)
      requires Valid() && capacity < key < U64
      modifies this, branchPool
      ensures Valid() && Map() == old(Map()) && h == old(h) + 1 && root != 0
      ensures old(capacity) == Cap(h - 1)
    {
      hide Pools, Shape, LeavesLive, Cap, Child, SetChild, Leaves, EmptyBranch;
      RoomAbove(key);
      ghost var bmem := branchPool.mem;
      var oldRoot := root;
      capacity := capacity * RADIX_SIZE % U64 + 255;
      var newRoot := NewBranch();
      EmptyIsEmpty();
      WriteChild(newRoot, 0, oldRoot);
      ghost var b := SetChild(EmptyBranch(), 0, oldRoot);
      assert branchPool.mem == bmem[newRoot := b];
      GrowTop(at, bmem, h, newRoot, b, leafPool.Live());
      root := newRoot;
      at := at[Place(h + 1, 0) := newRoot];
      h := h + 1;
    }

    /**
     * cx_radix_tree_new_leaf.  On an absent key it hands out a fresh leaf and adds the key.  On a
     * key that is present it does one of two other things: a tree that is a single leaf returns
     * that leaf; any other tree points the key to a fresh leaf, returns NULL, and the leaf that
     * was there stays allocated but is no longer in the tree.
     */
    method NewLeaf(key: nat) returns (leaf: nat)
      requires Valid() && key < U64
      modifies this, branchPool, leafPool
      ensures Valid() && key <= capacity && old(h) <= h && (h > old(h) ==> Cap(h - 1) < key)
      ensures key !in old(Map()) ==>
                && leaf != 0 && leaf !in old(leafPool.Live())
                && Map() == old(Map())[key := leaf]
      ensures key in old(Map()) && h == 0 ==>
                && leaf == old(Map())[key] && Map() == old(Map())
                && leafPool.Live() == old(leafPool.Live()) && leafPool.mem == old(leafPool.mem)
      ensures key in old(Map()) && h > 0 ==>
                && leaf == 0 && key in Map() && Map()[key] !in old(leafPool.Live())
                && Map() == old(Map())[key := Map()[key]]
      ensures key !in old(Map()) || h > 0 ==> leafPool.Live() == old(leafPool.Live()) + {Map()[key]}
      ensures forall a :: a in old(leafPool.Live()) ==> leafPool.mem[a] == old(leafPool.mem)[a]
    {
      hide Pools, Shape, LeavesLive, Cap, Prefix, Reversed, Leaves, PointsTo;
      var occupied := false;
      Resize(key);
      TopOfWalk(key);
      var remainingKey := PrepareKey(capacity, key, h);
      if root == 0 {
        leaf := FirstLeaf(key);
        return;
      }
      var node := root;
      var remainingCapacity := capacity;
      ghost var height, n := h, 0;
      CapShift(h);
      while remainingCapacity != 0
        invariant Valid() && n <= h == height && capacity == Cap(height)
        invariant remainingCapacity == Cap(h - n) && (remainingCapacity == 0 <==> n == h)
        invariant remainingKey == Prefix(Reversed(key, h), n)
        invariant On(key, h - n) in at && node == at[On(key, h - n)]
        invariant n < h || h == 0 ==>
                    && Map() == old(Map()) && (h == 0 ==> !occupied)
                    && leafPool.Live() == old(leafPool.Live()) && leafPool.mem == old(leafPool.mem)
        invariant n == h > 0 ==>
                    && key in Map() && Map() == old(Map())[key := Map()[key]]
                    && node == Map()[key] != 0 && (occupied <==> key in old(Map()))
                    && node !in old(leafPool.Live()) && leafPool.Live() == old(leafPool.Live()) + {node}
                    && forall a :: a in old(leafPool.Live()) ==> leafPool.mem[a] == old(leafPool.mem)[a]
      {
        WalkDown(at, branchPool.mem, h, key, n);
        var index := remainingKey % RADIX_SIZE;
        CapShift(h - n);
        remainingCapacity := remainingCapacity / RADIX_SIZE;
        remainingKey := remainingKey / RADIX_SIZE;
        CapShift(h - n - 1);
        occupied := Child(branchPool.mem[node], index) != 0;
        if remainingCapacity == 0 {
          Bottom(key, 0);
          PlaceLeaf(node, index, key);
        } else if !occupied {
          PlaceBranch(node, index, On(key, h - n - 1));
        }
        node := Child(branchPool.mem[node], index);
        n := n + 1;
      }
      Bottom(key, 0);
      leaf := if occupied then 0 else node;
    }

    /** The first leaf of an empty tree of height 0 is its root. */
    method FirstLeaf(ghost key: nat) returns (leaf: nat)
      requires Valid() && root == 0 && key <= capacity
      modifies this, leafPool
      ensures Valid() && h == old(h) && capacity == old(capacity)
      ensures key !in old(Map()) && Map() == old(Map())[key := leaf]
      ensures leaf != 0 && leaf !in old(leafPool.Live()) && leafPool.Live() == old(leafPool.Live()) + {leaf}
      ensures forall a :: a in old(leafPool.Live()) ==> leafPool.mem[a] == old(leafPool.mem)[a]
    {
      hide Pools, Leaves, Cap;
      EmptyTree(key);
      leaf := FreshLeaf();
      root := leaf;
      at := at[Place(0, key) := leaf];
    }

    lemma EmptyTree(key: nat)
      requires Valid() && root == 0 && key <= capacity
      ensures h == 0 && key == 0 && at == map[]
    {
      NodesBelow(at, branchPool.mem, h);
      CapShift(h);
    }

    method FreshLeaf() returns (leaf: nat)
      requires Pools()
      modifies leafPool
      ensures Pools() && branchPool.mem == old(branchPool.mem)
      ensures leaf != 0 && leaf !in old(leafPool.Live()) && leafPool.Live() == old(leafPool.Live()) + {leaf}
      ensures forall a :: a in old(leafPool.Live()) ==> leafPool.mem[a] == old(leafPool.mem)[a]
    {
      leaf := leafPool.Get();
    }

    /** The walk of new_leaf writes a fresh leaf into the last slot. */
    method PlaceLeaf(node: nat, index: nat, ghost key: nat)
      requires Valid() && h > 0 && Up(Place(0, key)) in at
      requires node == at[Up(Place(0, key))] && index == key % RADIX_SIZE
      modifies this`at, branchPool, leafPool
      ensures Valid() && key in Map() && Map() == old(Map())[key := Map()[key]]
      ensures Map()[key] !in old(leafPool.Live()) && leafPool.Live() == old(leafPool.Live()) + {Map()[key]}
      ensures forall a :: a in old(leafPool.Live()) ==> leafPool.mem[a] == old(leafPool.mem)[a]
      ensures at == old(at)[Place(0, key) := Map()[key]]
      ensures node in branchPool.mem && IsBranch(branchPool.mem[node])
              && Child(branchPool.mem[node], index) == Map()[key] != 0
    {
      hide Pools, Shape, LeavesLive, Leaves, Cap, PointsTo;
      var leaf := FreshLeaf();
      SlotOf(at, branchPool.mem, h, Place(0, key));
      NewLeafShape(at, branchPool.mem, h, key, leaf, old(leafPool.Live()));
      WriteChild(node, index, leaf);
      at := at[Place(0, key) := leaf];
    }

    /** The walk of new_leaf fills a missing inner slot with an empty branch. */
    method PlaceBranch(node: nat, index: nat, ghost y: Place)
      requires Valid() && y.level > 0 && y !in at && Up(y) in at
      requires node == at[Up(y)] && index == y.prefix % RADIX_SIZE
      modifies this`at, branchPool
      ensures Valid() && Map() == old(Map()) && y in at && at == old(at)[y := at[y]]
      ensures node in branchPool.mem && IsBranch(branchPool.mem[node]) && Child(branchPool.mem[node], index) == at[y]
    {
      hide Pools, Shape, LeavesLive, Leaves, Cap, PointsTo, EmptyBranch;
      SlotOf(at, branchPool.mem, h, y);
      ghost var bmem := branchPool.mem;
      var e := NewBranch();
      NewBranchShape(at, bmem, h, y, e, leafPool.Live());
      WriteChild(node, index, e);
      at := at[y := e];
      assert branchPool.mem == WriteSlot(old(at), bmem, y, e)[e := EmptyBranch()];
    }

    /** cx_radix_tree_put: new_leaf, then the value is copied over the whole leaf. */
    method Put(key: nat, value: Elem<V>) returns (leaf: nat)
      requires Valid() && key < U64
      modifies this, branchPool, leafPool
      ensures Valid() && old(leafPool.Live()) <= leafPool.Live()
      ensures key !in old(Map()) ==> Map() == old(Map())[key := leaf] && leaf !in old(leafPool.Live())
      ensures key in old(Map()) && h == 0 ==> Map() == old(Map()) && leaf == Map()[key]
      ensures key in old(Map()) && h > 0 ==> leaf == 0 && key in Map() && Map()[key] !in old(leafPool.Live())
      ensures leaf != 0 ==> leaf in leafPool.Live() && leafPool.mem[leaf] == value
      ensures forall a :: a in old(leafPool.Live()) && a != leaf ==> leafPool.mem[a] == old(leafPool.mem)[a]
    {
      hide Pools, LeavesLive, Shape, Leaves, Cap;
      leaf := NewLeaf(key);
      if leaf != 0 {
        MapLive(key);
        WriteLeaf(leaf, value);
      }
    }

    lemma MapLive(key: nat)
      requires Valid() && key in Map()
      ensures Map()[key] in leafPool.Live()
    {
      assert Place(0, key) in at;
    }

    /** Writing into a live leaf changes neither the tree nor any other leaf. */
    method WriteLeaf(leaf: nat, value: Elem<V>)
      requires Valid() && leaf in leafPool.Live()
      modifies leafPool`mem
      ensures Valid() && leafPool.mem == old(leafPool.mem)[leaf := value] && leafPool.Live() == old(leafPool.Live())
    {
      hide Shape, Cap;
      leafPool.Store(leaf, value);
    }

    /**
     * cx_radix_tree_delete.  Nothing compares the key with the capacity: the key whose leaf goes
     * is the one made of the lowest digits, and the result is -1 only when an inner branch is
     * missing on the way.
     */
    method Delete(key: nat) returns (rv: int)
      requires Valid() && key < U64
      modifies this, branchPool, leafPool
      ensures Valid() && h == old(h) && capacity == old(capacity)
      ensures Map() == old(Map()) - {Low(key, h)}
      ensures rv == 0 || rv == -1
      ensures rv == 0 <==> h == 0 || Place(1, Low(key, h) / RADIX_SIZE) in old(at)
      ensures leafPool.Live() ==
              old(leafPool.Live()) - if Low(key, h) in old(Map()) then {old(Map())[Low(key, h)]} else {}
      ensures forall a :: a in leafPool.Live() ==> leafPool.mem[a] == old(leafPool.mem)[a]
    {
      hide Pools, Shape, LeavesLive, Cap, Prefix, Reversed, Leaves, PointsTo, Low;
      var remainingKey := PrepareKey(capacity, key, h);
      ghost var low := Low(key, h);
      LowKey(key);
      var parent, slot := 0, 0;     // the slot &parent->children[slot], or &tree->root at first
      var node := root;             // what the slot holds
      var remainingCapacity := capacity;
      ghost var n := 0;
      CapShift(h);
      while remainingCapacity != 0 && node != 0
        modifies {}
        invariant n <= h && remainingCapacity == Cap(h - n) && (remainingCapacity == 0 <==> n == h)
        invariant remainingKey == Prefix(Reversed(low, h), n)
        invariant node == Node(at, On(low, h - n))
        invariant parent == 0 <==> n == 0
        invariant n > 0 ==>
                    && On(low, h - n + 1) in at && parent == at[On(low, h - n + 1)]
                    && Up(On(low, h - n)) == On(low, h - n + 1) && slot == On(low, h - n).prefix % RADIX_SIZE
      {
        WalkDown(at, branchPool.mem, h, low, n);
        var index := remainingKey % RADIX_SIZE;
        CapShift(h - n);
        remainingCapacity := remainingCapacity / RADIX_SIZE;
        remainingKey := remainingKey / RADIX_SIZE;
        CapShift(h - n - 1);
        parent, slot := node, index;
        node := Child(branchPool.mem[node], index);
        n := n + 1;
      }
      Bottom(low, h - n);
      if remainingCapacity == 0 {
        if parent == 0 {
          DropRoot(node, low);
        } else {
          DropLeaf(node, parent, slot, low);
        }
        return 0;
      } else {
        NoBranch(low, h - n);
        return -1;
      }
    }

    /** What prepare_key makes of a key that may exceed the capacity. */
    lemma LowKey(key: nat)
      requires Valid()
      ensures var low := Low(key, h);
              && low <= capacity && Reversed(key, h) == Reversed(low, h) == Prefix(Reversed(low, h), 0)
              && root == Node(at, On(low, h))
    {
      LowDigits(key, h);
      ReversedLow(key, h);
      CapPrefix(Low(key, h), h);
    }

    lemma NoBranch(key: nat, n: nat)
      requires Valid() && 1 <= n <= h && Node(at, On(key, n)) == 0
      ensures Place(1, key / RADIX_SIZE) !in at
    {
      PrefixStep(key, 0);
      NodesBelow(at, branchPool.mem, h);
      if On(key, 1) in at {
        PathUp(at, branchPool.mem, h, key, 1, n);
      }
    }

    /** The end of delete when the slot is the root pointer. */
    method DropRoot(node: nat, ghost key: nat)
      requires Valid() && h == 0 && key <= capacity && node == root
      modifies this, leafPool
      ensures Valid() && h == old(h) && capacity == old(capacity) && Map() == old(Map()) - {key}
      ensures leafPool.Live() == old(leafPool.Live()) - if key in old(Map()) then {old(Map())[key]} else {}
      ensures forall a :: a in leafPool.Live() ==> leafPool.mem[a] == old(leafPool.mem)[a]
    {
      hide Pools, LeavesLive, Leaves, Shape, Prefix, Cap;
      OnlyRoot(at, branchPool.mem, key, root, leafPool.Live());
      RecycleLeaf(node);
      root := 0;
      at := map[];
    }

    method RecycleLeaf(leaf: nat)
      requires Pools() && (leaf == 0 || leaf in leafPool.Live())
      modifies leafPool
      ensures Pools() && branchPool.mem == old(branchPool.mem)
      ensures leafPool.Live() == old(leafPool.Live()) - (if leaf == 0 then {} else {leaf})
      ensures forall a :: a in leafPool.Live() ==> leafPool.mem[a] == old(leafPool.mem)[a]
    {
      leafPool.Recycle(leaf);
    }

    /** The end of delete when the slot is a child pointer. */
    method DropLeaf(node: nat, parent: nat, slot: nat, ghost key: nat)
      requires Valid() && h > 0 && node == Node(at, Place(0, key))
      requires Up(Place(0, key)) in at && parent == at[Up(Place(0, key))] && slot == key % RADIX_SIZE
      modifies this`at, branchPool, leafPool
      ensures Valid() && Map() == old(Map()) - {key}
      ensures leafPool.Live() == old(leafPool.Live()) - if key in old(Map()) then {old(Map())[key]} else {}
      ensures forall a :: a in leafPool.Live() ==> leafPool.mem[a] == old(leafPool.mem)[a]
    {
      hide Pools, Shape, LeavesLive, Leaves, Cap, PointsTo;
      Bottom(key, 0);
      SlotOf(at, branchPool.mem, h, Place(0, key));
      OldLeafShape(at, branchPool.mem, h, key, leafPool.Live());
      RecycleLeaf(node);
      WriteChild(parent, slot, 0);
      at := at - {Place(0, key)};
    }

    /**
     * delete removes the key it was given, and nothing else, exactly when this holds beforehand; see
     * DeletesAnotherKey for an input at which it does not.
     */
    lemma DeleteExact(key: nat)
      requires Valid() && key < U64
      ensures Map() - {Low(key, h)} == Map() - {key} <==> key <= capacity || Low(key, h) !in Map()
    {
      hide Pools, Shape, LeavesLive, Leaves, Cap, Low;
      LowKey(key);
      TopOfWalk(key);
      LowDigits(key, h);
      if key > capacity && Low(key, h) in Map() {
        assert Low(key, h) in Map() - {key} && Low(key, h) !in Map() - {Low(key, h)};
      } else if key > capacity {
        assert Map() - {Low(key, h)} == Map() == Map() - {key};
      }
    }

    /** Distinct keys have distinct live leaves, and every key present is within the capacity. */
    lemma MapFacts()
      requires Valid()
      ensures forall k :: k in Map() ==> Map()[k] in leafPool.Live() && Map()[k] != 0
      ensures forall k, l :: k in Map() && l in Map() && Map()[k] == Map()[l] ==> k == l
    {
      NodesBelow(at, branchPool.mem, h);
    }

    /** For a key that is present, delete acts on that key and reports success. */
    lemma DeletePresent(key: nat)
      requires Valid() && key in Map()
      ensures Low(key, h) == key && (h == 0 || Place(1, key / RADIX_SIZE) in at)
    {
      assert Hangs(at, h, Place(0, key));
      assert On(key, 0) == Place(0, key);
      LeafFits(at, branchPool.mem, h, key);
      LowDigits(key, h);
    }

    lemma RoomAbove(key: nat)
      requires Valid() && capacity < key < U64
      ensures h < 8 && capacity * RADIX_SIZE % U64 + 255 == Cap(h + 1)
    {
      CapBounds(h, 8);
      ShiftIn(capacity, h, 255);
    }

    method NewBranch() returns (e: nat)
      requires Pools()
      modifies branchPool
      ensures Pools()
      ensures e != 0 && e !in old(branchPool.mem)
      ensures branchPool.mem == old(branchPool.mem)[e := EmptyBranch()]
    {
      e := branchPool.Get();
    }

    method WriteChild(b: nat, i: nat, p: nat)
      requires Pools() && b in branchPool.mem && IsBranch(branchPool.mem[b]) && i < RADIX_SIZE
      modifies branchPool
      ensures Pools()
      ensures branchPool.mem == old(branchPool.mem)[b := SetChild(old(branchPool.mem)[b], i, p)]
    {
      assert b in branchPool.Live();
      branchPool.Store(b, SetChild(branchPool.mem[b], i, p));
    }

    /** The root is where the walk to every key within the capacity starts; no other key is in. */
    lemma TopOfWalk(key: nat)
      requires Valid()
      ensures key > capacity ==> key !in Map()
      ensures key <= capacity ==> root == Node(at, On(key, h)) && Prefix(key, h) == 0
      ensures Prefix(Reversed(key, h), 0) == Reversed(key, h)
    {
      CapPrefix(key, h);
      if key in Map() {
        LeafFits(at, branchPool.mem, h, key);
      }
    }

    /** Where the walk ends it has found the leaf, or found that there is none. */
    lemma Bottom(key: nat, n: nat)
      requires Valid() && n <= h && (n == 0 || Node(at, On(key, n)) == 0)
      ensures Node(at, On(key, n)) == if key in Map() then Map()[key] else 0
      ensures Node(at, On(key, n)) != 0 <==> key in Map()
      ensures On(key, 0) == Place(0, key)
    {
      assert On(key, 0) == Place(0, key);
      NodesBelow(at, branchPool.mem, h);
      if key in Map() {
        PathUp(at, branchPool.mem, h, key, 0, n);
      }
    }
  }

  /** A tree that holds key 0 only, made from an empty one. */
  method OnlyZero<V>(tree: RadixTree<V>) returns (leaf: nat)
    requires tree.Valid() && tree.Map() == map[] && tree.h == 0
    modifies tree, tree.branchPool, tree.leafPool
    ensures tree.Valid() && tree.h == 0 && tree.Map() == map[0 := leaf]
  {
    assert 0 < U64;
    hide *;
    leaf := tree.NewLeaf(0);
  }

  /** In such a tree, deleting any other key removes key 0, and reports success. */
  method DeletesAnotherKey<V>(tree: RadixTree<V>, leaf: nat, key: nat) returns (rv: int)
    requires tree.Valid() && tree.h == 0 && tree.Map() == map[0 := leaf] && 0 < key < U64
    modifies tree, tree.branchPool, tree.leafPool
    ensures tree.Valid() && rv == 0 && key !in old(tree.Map()) && tree.Map() == map[]
  {
    LowOfNothing(key);
    hide *;
    rv := tree.Delete(key);
    assert map[0 := leaf] - {0} == map[];
  }

  /** What delete leaves there is not what deleting that key would. */
  lemma LosesAnotherKey<V>(tree: RadixTree<V>, leaf: nat, key: nat)
    requires tree.Valid() && tree.h == 0 && tree.Map() == map[0 := leaf] && key > 0
    ensures key !in tree.Map() && tree.Map() - {Low(key, tree.h)} != tree.Map() - {key}
  {
    LowOfNothing(key);
    hide *;
    assert 0 in tree.Map() - {key};
  }

  /** A tree that holds key 256 only, made from an empty one. */
  method Only256<V>(tree: RadixTree<V>) returns (leaf: nat)
    requires tree.Valid() && tree.Map() == map[] && tree.h == 0
    modifies tree, tree.branchPool, tree.leafPool
    ensures tree.Valid() && tree.h > 0 && tree.Map() == map[256 := leaf] && leaf in tree.leafPool.Live()
  {
    assert 256 < U64;
    hide *;
    leaf := tree.NewLeaf(256);
    NotFlat(tree);
  }

  /** In such a tree, new_leaf on key 256 returns NULL and replaces the leaf, which stays allocated. */
  method ReplacesLeaf<V>(tree: RadixTree<V>, leaf: nat) returns (again: nat)
    requires tree.Valid() && tree.h > 0 && tree.Map() == map[256 := leaf] && leaf in tree.leafPool.Live()
    modifies tree, tree.branchPool, tree.leafPool
    ensures tree.Valid() && again == 0 && tree.Map().Keys == {256} && tree.Map()[256] != leaf
    ensures leaf in tree.leafPool.Live()
  {
    assert 256 < U64;
    hide *;
    again := tree.NewLeaf(256);
  }

  lemma LowOfNothing(key: nat)
    ensures Low(key, 0) == 0
  {
  }

  lemma NotFlat<V>(tree: RadixTree<V>)
    requires tree.Valid() && tree.capacity > 0
    ensures tree.h > 0
  {
    assert Cap(0) == 0;
  }

  ghost predicate LeavesLive(at: Nodes, live: set<nat>) {
    forall x :: x in at && x.level == 0 ==> at[x] in live
  }

  /** A branch fresh from a pool that nothing is recycled into: all children are NULL. */
  function EmptyBranch(): (b: Branch)
    ensures IsBranch(b) && forall i :: 0 <= i < RADIX_SIZE ==> Child(b, i) == 0
  {
    Elem(0, seq(RADIX_SIZE - 1, _ => 0))
  }

  lemma EmptyIsEmpty()
    ensures IsBranch(EmptyBranch())
  {
  }

  lemma GrowTop(at: Nodes, bmem: Memory, h: nat, e: nat, b: Branch, live: set<nat>)
    requires Shape(at, bmem, h) && e != 0 && e !in bmem && LeavesLive(at, live)
    requires b == SetChild(EmptyBranch(), 0, Node(at, Place(h, 0)))
    ensures Shape(at[Place(h + 1, 0) := e], bmem[e := b], h + 1)
    ensures Leaves(at[Place(h + 1, 0) := e]) == Leaves(at)
    ensures LeavesLive(at[Place(h + 1, 0) := e], live)
  {
    GrowShape(at, bmem, h, e, b);
  }

  /** The branch that holds the slot of a place. */
  lemma SlotOf(at: Nodes, bmem: Memory, h: nat, y: Place)
    requires Shape(at, bmem, h) && Up(y) in at
    ensures y.level < h && BranchAt(at, bmem, Up(y)) && IsBranch(bmem[at[Up(y)]])
    ensures Child(bmem[at[Up(y)]], y.prefix % RADIX_SIZE) == Node(at, y)
  {
    assert BranchAt(at, bmem, Up(y)) && Hangs(at, h, Up(y));
    UpDown(Up(y), y, y.prefix % RADIX_SIZE);
  }

  lemma NewLeafShape(at: Nodes, bmem: Memory, h: nat, key: nat, e: nat, live: set<nat>)
    requires Shape(at, bmem, h) && h > 0 && e != 0 && e !in live && LeavesLive(at, live)
    requires Up(Place(0, key)) in at && BranchAt(at, bmem, Up(Place(0, key)))
    ensures Shape(at[Place(0, key) := e], WriteSlot(at, bmem, Place(0, key), e), h)
    ensures LeavesLive(at[Place(0, key) := e], live + {e})
    ensures Leaves(at[Place(0, key) := e]) == Leaves(at)[key := e]
  {
    SetLeafShape(at, bmem, h, key, e);
  }

  lemma NewBranchShape(at: Nodes, bmem: Memory, h: nat, y: Place, e: nat, live: set<nat>)
    requires Shape(at, bmem, h) && e != 0 && e !in bmem && LeavesLive(at, live)
    requires y.level > 0 && y !in at && Up(y) in at && BranchAt(at, bmem, Up(y))
    ensures Shape(at[y := e], WriteSlot(at, bmem, y, e)[e := EmptyBranch()], h)
    ensures LeavesLive(at[y := e], live) && Leaves(at[y := e]) == Leaves(at)
  {
    AddBranchShape(at, bmem, h, y, e, EmptyBranch());
  }

  lemma OldLeafShape(at: Nodes, bmem: Memory, h: nat, key: nat, live: set<nat>)
    requires Shape(at, bmem, h) && h > 0 && LeavesLive(at, live)
    requires Up(Place(0, key)) in at && BranchAt(at, bmem, Up(Place(0, key)))
    ensures Shape(at - {Place(0, key)}, WriteSlot(at, bmem, Place(0, key), 0), h)
    ensures Leaves(at - {Place(0, key)}) == Leaves(at) - {key}
    ensures var leaf := Node(at, Place(0, key));
            && (leaf != 0 ==> leaf in live)
            && LeavesLive(at - {Place(0, key)}, live - (if leaf == 0 then {} else {leaf}))
  {
    hide Leaves, Shape;
    ClearLeafShape(at, bmem, h, key);
    NodesBelow(at, bmem, h);
    LeavesWithout(at, key);
    assert Separate(at) by { ShapeSeparate(at, bmem, h); }
  }

  lemma ShapeSeparate(at: Nodes, bmem: Memory, h: nat)
    requires Shape(at, bmem, h)
    ensures Separate(at)
  {
  }

  lemma LeavesWithout(at: Nodes, key: nat)
    ensures Leaves(at - {Place(0, key)}) == Leaves(at) - {key}
  {
    hide Leaves;
    var m := Leaves(at - {Place(0, key)});
    assert forall k :: k in m <==> k in Leaves(at) - {key};
  }

  /** A tree of height 0 is at most one leaf. */
  lemma OnlyRoot(at: Nodes, bmem: Memory, key: nat, root: nat, live: set<nat>)
    requires Shape(at, bmem, 0) && key <= Cap(0) && root == Node(at, Place(0, 0)) && LeavesLive(at, live)
    ensures root != 0 ==> root in live
    ensures LeavesLive(map[], live - (if root == 0 then {} else {root}))
    ensures Shape(map[], bmem, 0) && Leaves(at) - {key} == Leaves(map[])
    ensures root == (if key in Leaves(at) then Leaves(at)[key] else 0)
    ensures key in Leaves(at) <==> root != 0
  {
    NodesBelow(at, bmem, 0);
    assert key == 0;
    assert forall k :: k in Leaves(at) ==> Place(0, k) in at;
  }
}
