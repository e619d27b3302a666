# Verified model of Cextras

Cextras is a C library of containers, allocators and thread primitives. This project models its
stateful core in Dafny and proves what the code keeps over every call, every run and every
interleaving. `dafny verify dfyconfig.toml` checks everything.

## What is modelled

**Thread pool** (`WorkerQueue`, `ThreadpoolModel`, `ThreadpoolInvariant`, `ThreadpoolWorkerSteps`,
`ThreadpoolOtherSteps`, `Threadpool`, `ThreadpoolWait`, `ThreadpoolProgress`, `ThreadpoolChoice`,
`ThreadpoolSolo`). A worker's linked queue is a class with
head, tail and next links. The protocol is a state machine for any number of workers, schedule
calls and waiters. A step takes or gives back a mutex, performs one atomic operation, or does one
piece of work in a critical section. Each sleeper has a flag that says whether it has been
signalled, and may also wake without one. Two ghost histories (tasks linked, tasks popped) state
the queue order. `ThreadpoolChoice` says which worker a call picks in any interleaving, and
`ThreadpoolSolo` what each operation does from beginning to end with no other thread in between.

**Semaphore** (`Semaphore`). A state machine in the same style.

**Reference-counted index stack** (`PreallocPool`, `RadixKeys`, `RadixShape`, `RadixTree`,
`CountedMap`, `RcRadixTree`, `Ring`, `LruBackend`, `Lru`, `Conservation`, `Clients`). Memory is
explicit: an element of the pool is its first word, which a free element uses as the link of the reuse list, and the bytes
behind it. A trie node is an address in the branch pool or the leaf pool, so growth, overwriting
and recycling act on the same words as in C. Each class is proved against a plain map, a counted
map or a window. The ring works over a backend that is a tree or a hash map, as the source's table
of functions selects. `Conservation` then reasons about whole runs of clients over the stack, and
`Clients` runs them on the objects, over either backend. Values are numbered in the order they are
put, so that each can be followed to its cleanup.

**Hash map on reference-counted arrays** (`RcMap`, `KeyHash`, `Probing`, `RcHashMap`). Tables are arrays that
share one cleanup log. The invariant: a live key has one slot, in its probe window, and no earlier
position of its probe holds the same key, live or stale.

**Width tables and UTF-8** (`Powers`, `WidthTable`, `WidthRanges`, `Utf8`, `UnicodeWidth`). The
generator's loops emit arrays instead of C text. The reader is proved against the flat bitmap, the
UTF-8 functions against sections 3 and 4 of RFC 3629, and the column index against the column count.

**Buffer and collector** (`ByteBuffer`, `Collector`). A buffer is a class over an array; a block is
a sequence of bytes at an address. Words are stored with the least significant byte first.

`Seqs` and `Powers` hold shared facts about sequences, sets and powers of two.

## Where the code does not do what one might expect

- With more than 256 emitted blocks a block number does not fit the byte that stores it.
  `WidthTable.ReaderAgrees` gives the exact condition under which the reader is still right, and
  `WidthTable.OneBlockTooMany` a table of 257 blocks that is read wrongly.
- `cx_radix_tree_delete` does not compare the key with the capacity, so it deletes the key made of
  the lowest digits. `RadixTree.RadixTree.DeleteExact` says when that is the key it was given, and
  `RadixTree.LosesAnotherKey` and `RadixTree.DeletesAnotherKey` show a tree in which it is not.
- `cx_radix_tree_new_leaf` on a key that is present either returns its leaf (a tree of height 0) or
  replaces the leaf and returns NULL. `RadixTree.RadixTree.NewLeaf` states both cases, and
  `RadixTree.ReplacesLeaf` is a call at which the second happens.
- `cx_rc_hash_map_put` on a live key uses a free slot that comes before the key, if there is one,
  and then the key is in use twice. `Probing.PutLive` says so exactly, and `Probing.PutLiveGoesWrong`
  shows tables at which it happens.
- A touch of a key that is not live leaves a reference in the ring that nobody took.
  `Conservation.TouchConservesIff` gives the exact condition; `Conservation.TouchOfAbsentKey` and
  `Conservation.TouchOfLiveMarker` show states at which it fails.
- A worker that finishes the last task signals one waiter only. `ThreadpoolWait.SignalServesIff` and
  `ThreadpoolWait.WaitersAreWokenIff` say exactly when that loses no wakeup;
  `ThreadpoolWait.TwoWaitersStrandOne` is a run that loses one, and `ThreadpoolWait.StrandedStays`
  says that the waiter then sleeps on.
- The UTF-8 decoder does not check trailing bytes or overlong forms. `Utf8.DecodeIsInverseOnGrammar`
  says on which strings it inverts the encoding, and `Utf8.LenientDecoder` shows two it accepts all
  the same. `cx_utf8_clen` counts a last character that is cut off, `cx_utf8_bidx` rejects it
  (`Utf8.CountedEnd` says when, `Utf8.CutOffEnd` is such a text).
- `find_max` can miss the start of a reversed range: `WidthRanges.StartTaken` says when,
  `WidthRanges.StartMissed` shows one. Nothing is lost, as such a range marks nothing
  (`WidthRanges.FindMax`, `WidthRanges.Generate`).
- A value with a zero byte inside reads back from the collector's block only up to that byte
  (`Collector.ReadBack`).

## Model

| member | source | states |
|---|---|---|
| PreallocPool.Pool.Init2 | lib/memory/prealloc_pool.c:66-75 | a pool starts with no element carved and an empty reuse list |
| PreallocPool.Pool.Init | lib/memory/prealloc_pool.c:113-116 | the same with an initial count of 8 |
| PreallocPool.Pool.AddChunk | lib/memory/prealloc_pool.c:47-64 | a new chunk, apart from all others and of twice the size, becomes the one being carved; nothing carved before is lost |
| PreallocPool.Pool.Carve | lib/memory/prealloc_pool.c:89-91 | the element at the carving point was never handed out before and is zero |
| PreallocPool.Pool.ReuseNode | lib/memory/prealloc_pool.c:37-45 | the head of the reuse list becomes live with a cleared first word; the list stays acyclic and complete |
| PreallocPool.Pool.Get | lib/memory/prealloc_pool.c:77-92 | the element was not live and is now; recycled elements are reused first, last in first out; a fresh one is all zero; the peak is the greatest number ever live |
| PreallocPool.Pool.Recycle | lib/memory/prealloc_pool.c:94-101 | NULL changes nothing; a live element becomes the head of the reuse list and none is lost |
| PreallocPool.Pool.Fresh | lib/memory/prealloc_pool.c:81-91 | with an empty reuse list the element comes from a chunk, and the peak grows by one |
| PreallocPool.Pool.FullWhenNoRoom | lib/memory/prealloc_pool.c:81-84 | the carving test asks for a chunk exactly when every element of the current one is used |
| PreallocPool.Pool.Partition | lib/memory/prealloc_pool.c:37-101 | carved elements split into live ones and a reuse list without repetition; no two overlap; each lies inside one chunk and not at NULL |
| PreallocPool.Pool.SpaceBound | lib/memory/prealloc_pool.c:47-92 | as many elements are carved as were ever live at once, and the chunks have room for at most 2 peak + 2c - 2 |
| PreallocPool.SumOfChunks | lib/memory/prealloc_pool.c:47-64 | the chunk sizes add up to the room that doubling gives |
| PreallocPool.SpacedAdd | lib/memory/prealloc_pool.c:89-91 | the element at the carving point overlaps no element carved before, in whichever chunk |
| RadixKeys.PrepareKey | lib/collection/radix_tree.c:69-80 | the loop reverses the base-256 digits of the key, as many as the capacity has, without losing a bit of the 64-bit word |
| RadixKeys.ReverseOntoDigits | lib/collection/radix_tree.c:69-80 | digit i of the reversed key is digit h-1-i of the key |
| RadixKeys.ReversedTwice | lib/collection/radix_tree.c:69-80 | prepare_key on [0, capacity] is its own inverse and stays within the capacity |
| RadixKeys.WalkDigit | lib/collection/radix_tree.c:120-128 | the walk reads the most significant digit first, and each step extends the prefix it has covered |
| RadixKeys.CapPrefix | lib/collection/radix_tree.c:107-115 | a key is at most 256^h - 1 exactly when no digit is left above its h lowest |
| RadixKeys.ReversedLow | lib/collection/radix_tree.c:187-192 | a key above the capacity is prepared like the key made of its lowest digits |
| RadixShape.PathUp | lib/collection/radix_tree.c:120-128 | every node on the way to a node that is present is present |
| RadixShape.GrowShape | lib/collection/radix_tree.c:82-97 | a root added above the old one moves no node: each key resolves to the same leaf |
| RadixShape.AddBranchShape | lib/collection/radix_tree.c:172-174 | an empty branch put into an empty slot keeps the tree's shape and its leaves |
| RadixShape.SetLeafShape | lib/collection/radix_tree.c:170-171 | writing a leaf into the last slot changes the leaf of that key only |
| RadixShape.ClearLeafShape | lib/collection/radix_tree.c:203-206 | clearing the slot of a key removes that key only |
| RadixTree.RadixTree.constructor | lib/collection/radix_tree.c:99-105 | the empty map, of capacity 0, with leaves of the given size and branches of 256 pointers |
| RadixTree.RadixTree.Get | lib/collection/radix_tree.c:107-130 | for every 64-bit key, the map's leaf or NULL, and NULL exactly for absent keys |
| RadixTree.RadixTree.Resize | lib/collection/radix_tree.c:82-97 | ends within eight rounds for every 64-bit key, no higher than needed, with the same map |
| RadixTree.RadixTree.Grow | lib/collection/radix_tree.c:84-95 | one round: the capacity stays 256^h - 1 with h one more, and the map is unchanged |
| RadixTree.RadixTree.NewLeaf | lib/collection/radix_tree.c:141-185 | an absent key is added with a leaf that was not live; all other keys and leaves stay; and exactly what happens to a key that is present |
| RadixTree.RadixTree.Put | lib/collection/radix_tree.c:132-139 | the new leaf holds the value; no other leaf's content changes |
| RadixTree.RadixTree.Delete | lib/collection/radix_tree.c:187-210 | removes the key made of the lowest digits and recycles its leaf; -1 exactly when an inner branch is missing |
| RadixTree.RadixTree.DeleteExact | lib/collection/radix_tree.c:187-210 | delete removes the key it was given and no other if and only if the key is within the capacity or the key of its lowest digits is absent |
| RadixTree.OnlyZero | lib/collection/radix_tree.c:141-185 | new_leaf on key 0 in an empty tree of height 0 leaves a tree of height 0 with that key only |
| RadixTree.DeletesAnotherKey | lib/collection/radix_tree.c:187-210 | in such a tree deleting any other key, which is absent, reports success and empties the tree |
| RadixTree.LosesAnotherKey | lib/collection/radix_tree.c:187-210 | what delete leaves there differs from the tree without that key |
| RadixTree.Only256 | lib/collection/radix_tree.c:141-185 | new_leaf on key 256 in an empty tree leaves a taller tree with that key only |
| RadixTree.ReplacesLeaf | lib/collection/radix_tree.c:141-185 | new_leaf on key 256 in such a tree returns NULL, and the key then has another leaf while the first stays allocated |
| RadixTree.RadixTree.MapFacts | lib/collection/radix_tree.c:107-185 | distinct keys have distinct live leaves |
| RadixTree.RadixTree.DeletePresent | lib/collection/radix_tree.c:187-210 | for a key that is present, delete acts on that key |
| RcRadixTree.RcRadixTree.constructor | lib/collection/rc_radix_tree.c:43-51 | an empty counted map for values of the given size |
| RcRadixTree.RcRadixTree.LeavesApart | lib/collection/rc_radix_tree.c:39-51 | the leaf of a live key, 8 bytes of count and the value, lies inside one chunk and overlaps no other live key's leaf |
| RcRadixTree.RcRadixTree.RetainLeaf | lib/collection/rc_radix_tree.c:53-66 | one reference more on a live key, NULL and no change otherwise |
| RcRadixTree.RcRadixTree.Put | lib/collection/rc_radix_tree.c:68-80 | acts as the counted map: a new key counts 1; on a live key the new value is cleaned up and the old one gains a reference; pointers of other keys stay valid |
| RcRadixTree.RcRadixTree.Retain | lib/collection/rc_radix_tree.c:102-109 | the pointer of the key's value and one reference more exactly if the key is live |
| RcRadixTree.RcRadixTree.RetainValue | lib/collection/rc_radix_tree.c:111-116 | through a value pointer, the same as retaining its key |
| RcRadixTree.RcRadixTree.Release | lib/collection/rc_radix_tree.c:82-100 | one reference less; the last one cleans up the value and removes the key; -1 exactly for absent keys |
| RcRadixTree.SetLeaf | lib/collection/rc_radix_tree.c:53-116 | writing one leaf changes the entry of its key only |
| Ring.SlidingWindow | lib/collection/lru.c:86-115 | read from the slot after ring_index, the ring is the last min(n, size) accepted keys in order, with empty slots before them |
| Ring.Survives | lib/collection/lru.c:86-115 | an accepted key survives the next size - 1 accepted touches |
| Ring.AcceptsIff | lib/collection/lru.c:86-104 | a key is turned down exactly if the ring has no slots, or it is the key accepted last or size acceptances ago; slots not yet written hold 2^64 - 1 |
| Ring.FirstTouch | lib/collection/lru.c:102-120 | the first touch of a live key below 2^64 - 1 in a new ring raises its count by one and changes nothing else |
| Ring.TouchedIsIn | lib/collection/lru.c:117-123 | with a nonempty ring, a key just touched is in it, accepted or not |
| Ring.ViewSlots | lib/collection/lru.c:133-147 | reading the ring from another slot changes no multiplicity |
| Lru.Lru.constructor | lib/collection/lru.c:64-84 | a ring of empty slots, or no ring for size 0 |
| LruBackend.Backend.Retain | lib/collection/rc_hash_map.c:213-216 | over either backend, retain is the counted map's |
| LruBackend.Backend.RetainValue | lib/collection/rc_radix_tree.c:129-132 | over the tree, so is retain_value on the pointer of a live key |
| LruBackend.Backend.Release | lib/collection/rc_hash_map.c:218-221 | over either backend, release is the counted map's; the tree alone reports an absent key |
| LruBackend.Backend.DeadMayPut | lib/collection/rc_hash_map.c:111-141 | a nonzero key that is not live may be put, in the hash map too |
| LruBackend.Backend.NextMayRelease | lib/collection/lru.c:133-147 | while the slots are given back one by one, each is still live, so the hash map meets no stale key |
| Ring.GiveBackCounts | lib/collection/lru.c:133-147 | giving back slots that the counts cover takes exactly their share off each count |
| Lru.Lru.TryTouch | lib/collection/lru.c:86-115 | turns a key down exactly if it is in the newest or the oldest slot; otherwise slides the window and gives back the reference of the slot it overwrites; over the hash map that slot's key must not be a stale one |
| Lru.Lru.Touch | lib/collection/lru.c:117-123 | over either backend, the ring and the counted map change together as the specification of a touch says |
| Lru.FirstTouchOf | lib/collection/lru.c:117-123 | the same on the objects, over either backend |
| Lru.Lru.TouchValue | lib/collection/lru.c:125-131 | over the tree, with the pointer of the key's value, the same as a touch of the key |
| Lru.Lru.Cleanup | lib/collection/lru.c:133-147 | over either backend, gives back the reference of every slot and leaves an empty ring; the hash map needs its counts to cover the slots |
| Lru.Turn | lib/collection/lru.c:92-112 | advancing ring_index modulo the size and writing there drops the oldest slot and appends the key |
| Conservation.StepConserves | lib/collection/lru.c:86-131 | every put, retain, release and touch keeps: count = references held by clients + occurrences in the ring |
| Conservation.TouchAllowed | lib/collection/lru.c:102-120 | the touches this is about are those of every live key but 2^64 - 1 |
| Conservation.StepValue | lib/collection/rc_radix_tree.c:67-116 | a live key keeps its value, and only a put gives a value to a key that is not live |
| Conservation.ValueStays | lib/collection/rc_radix_tree.c:67-116 | over any run through which a key stays live it keeps the value it had, whatever is put on it |
| Conservation.PutOnLive | lib/collection/rc_radix_tree.c:67-91 | a put on a live key cleans up the new value at once and counts one more reference |
| Conservation.TouchConservesIff | lib/collection/lru.c:102-120 | an accepted touch keeps that balance if and only if its key is live (or is the empty marker and is not) |
| Conservation.TouchOfAbsentKey | lib/collection/lru.c:102-120 | in a new ring over an empty container the balance is lost by touching an absent key |
| Conservation.TouchOfLiveMarker | lib/collection/lru.c:102-120 | clients can reach a state in which touching the empty marker, live as a key, loses the balance |
| Conservation.RunKeeps | lib/collection/rc_radix_tree.c:53-116 | the balance, and that each value put is stored or cleaned up once, hold after every run |
| Conservation.ReferenceConservation | lib/collection/rc_radix_tree.c:53-116 | in every reachable state a key is live exactly when clients or the ring hold a reference, and its count is their sum |
| Conservation.GiveBackAllCounts | lib/collection/lru.c:133-147 | giving back slots takes exactly their share off every count, and every value put is still stored or cleaned up once |
| Conservation.CleanupReturnsShare | lib/collection/lru.c:133-147 | cleanup returns exactly the ring's share, in any slot order; with no client references left, every value put has been cleaned up exactly once |
| Clients.StepClient | lib/collection/lru.c:117-123 | one client operation on the objects, over either backend, changes container and ring as the specification says |
| Clients.StepAllowed | lib/collection/lru.c:86-131 | in a state that keeps the balance, an allowed operation never has the hash map release a stale key |
| Clients.RunClients | lib/collection/lru.c:64-131 | so does every allowed run of operations on the objects |
| Clients.Session | lib/collection/lru.c:64-147 | from a new tree and ring through any allowed run to the ring's cleanup: the tree counts exactly the references clients hold, and with none held it is empty and each value put has been cleaned up exactly once |
| Clients.HashSession | lib/collection/rc_hash_map.c:92-226 | the same over a new hash map, for runs that put no key 0 and no live key and keep counts below INT_MAX |
| RcMap.RcMap.constructor | lib/collection/rc_map.c:70-94 | every slot unused |
| RcMap.RcMap.GetElement | lib/collection/rc_map.c:96-105 | the address of slot i, never NULL |
| RcMap.RcMap.Retain | lib/collection/rc_map.c:156-167 | a slot in use gains a reference and its address is returned; an unused slot gives NULL and stays unused |
| RcMap.RcMap.Set | lib/collection/rc_map.c:133-154 | stores into an unused slot; on a slot in use cleans up the new value and retains the old |
| RcMap.RcMap.ReleaseIndex | lib/collection/rc_map.c:193-203 | one reference less; the last one cleans up the stored value |
| RcMap.RcMap.SlotOf | lib/collection/rc_map.c:175-187 | every address inside the block belongs to a slot that exists |
| RcMap.RcMap.Release | lib/collection/rc_map.c:181-191 | releasing through any address inside an element is releasing its slot; NULL changes nothing |
| RcMap.RcMap.RetainValue | lib/collection/rc_map.c:169-179 | retaining through an address is retaining its slot |
| RcMap.AddressIndex | lib/collection/rc_map.c:175-187 | address arithmetic and index arithmetic are inverse, for every byte of the element |
| KeyHash.Djb2Hash | lib/collection/rc_hash_map.c:50-58 | the loop computes the 64-bit hash of the eight key bytes |
| KeyHash.HashIsSum | lib/collection/rc_hash_map.c:50-58 | the hash in closed form, modulo 2^64: 5381 times 33^8 plus byte i of the key times 33^(7-i) |
| KeyHash.KeyToIndex | lib/collection/rc_hash_map.c:60-67 | the index is computed that every lookup starts at |
| KeyHash.IndexIsSum | lib/collection/rc_hash_map.c:60-67 | that index in closed form: the sum modulo 2^64, times 4 modulo 2^64, modulo the size; a multiple of 4 when the size is |
| KeyHash.IndexOfOne | lib/collection/rc_hash_map.c:60-67 | key 1 starts at slot 920 of 1024 |
| Probing.NewKeyPlace | lib/collection/rc_hash_map.c:111-136 | a key that is not live goes to the first free slot among the first five from its index on, round the end, looking at all tables for each |
| Probing.NewKeyNoPlace | lib/collection/rc_hash_map.c:127-136 | a table is added exactly if those slots are in use in every table |
| Probing.PutKeeps | lib/collection/rc_hash_map.c:118-141 | storing a key that is not live in a free slot with no earlier copy of the key keeps the probe invariant |
| Probing.CountKeeps | lib/collection/rc_hash_map.c:149-167 | changing the count of a live key keeps the probe invariant |
| Probing.FreeKeeps | lib/collection/rc_hash_map.c:182-199 | releasing the last reference keeps the probe invariant although the key stays behind in the free slot |
| Probing.ExtendKeeps | lib/collection/rc_hash_map.c:69-94 | a table appended in the middle of a run hides no live key |
| Probing.FoundIsHome | lib/collection/rc_hash_map.c:154-164 | the first match of a lookup is the key's live slot if the key is live, and a free slot otherwise: stale keys never mislead it |
| Probing.LiveIsFound | lib/collection/rc_hash_map.c:154-164 | a lookup over the window finds every live key |
| Probing.PutSpot | lib/collection/rc_hash_map.c:118-128 | for a key that is not live, the slot where put stops is free and has no copy of the key before it |
| Probing.PutInNewTable | lib/collection/rc_hash_map.c:130-141 | when the window is full, the first slot of the added table has no copy of the key before it |
| Probing.PutFindsHome | lib/collection/rc_hash_map.c:118-128 | with no free slot before it, put finds a live key where it is |
| Probing.PutLive | lib/collection/rc_hash_map.c:118-141 | put on a live key stops at the key and counts one more reference if and only if no free slot comes before it; otherwise two slots in use hold the key, and no counted map describes the tables |
| Probing.PutLiveGoesWrong | lib/collection/rc_hash_map.c:118-141 | tables that satisfy the invariant and in which put of a live key leaves it in use twice |
| Probing.OneSlot | lib/collection/rc_hash_map.c:109-141 | two slots in use never hold the same key |
| RcHashMap.RcHashMap.constructor | lib/collection/rc_hash_map.c:96-107 | an empty counted map over one table of unused slots, for elements of the given size |
| RcHashMap.RcHashMap.ElementsApart | lib/collection/rc_hash_map.c:69-94 | the elements of two live keys do not overlap |
| RcHashMap.RcHashMap.ExtendHashMap | lib/collection/rc_hash_map.c:69-94 | one empty table more, in memory of its own; the counted map is unchanged |
| RcHashMap.RcHashMap.Probe | lib/collection/rc_hash_map.c:118-128 | the double loop with its wrapping index stops at the first position in probe order, or shows that there is none |
| RcHashMap.RcHashMap.PutPlace | lib/collection/rc_hash_map.c:111-136 | the scan, and the table it adds if it finds nothing, choose the slot; on the keys put is meant for, storing there is what the counted map's put asks for |
| RcHashMap.RcHashMap.Put | lib/collection/rc_hash_map.c:109-141 | on any key, stores where the scan stops or in the first place of a new table; on nonzero keys that are not live, or live with no free slot before them, acts as the counted map's put and returns the pointer of the key's value |
| RcHashMap.RcHashMap.Retain | lib/collection/rc_hash_map.c:149-167 | the stored value's pointer and one reference more exactly if the key is live; NULL otherwise, despite stale keys |
| RcHashMap.RcHashMap.ReleaseKey | lib/collection/rc_hash_map.c:182-199 | acts as the counted map's release of a live key; a key never seen changes nothing |
| RcHashMap.RcHashMap.Release | lib/collection/rc_hash_map.c:169-180 | by address: releases the key whose slot holds it, in whichever table; -CX_ERR_NOT_FOUND, which is -3, exactly outside all blocks |
| RcHashMap.RcHashMap.PointerFacts | lib/collection/rc_hash_map.c:149-167 | a live key's pointer is the address of the slot that holds its value |
| RcHashMap.RcHashMap.PointerInBlock | lib/collection/rc_hash_map.c:169-180 | that address lies in one block, in the slot that holds the key, so releasing it releases the key |
| RcHashMap.RcHashMap.OneBlock | lib/collection/rc_hash_map.c:170-177 | an address lies in at most one table's block |
| WorkerQueue.Worker.Link | lib/concurrency/threadpool.c:265-273 | the linked queue gains the task at its end |
| WorkerQueue.Worker.GetTask | lib/concurrency/threadpool.c:67-78 | the oldest task leaves the linked queue; NULL exactly from an empty one |
| ThreadpoolWorkerSteps.WorkerKeeps | lib/concurrency/threadpool.c:67-138 | every step of a worker keeps the invariant |
| ThreadpoolWorkerSteps.PopKeeps | lib/concurrency/threadpool.c:67-78 | popping, from the own queue or by stealing, moves a task from one queue to one worker |
| ThreadpoolWorkerSteps.FinishKeeps | lib/concurrency/threadpool.c:126-131 | a task that finishes has never finished before |
| ThreadpoolOtherSteps.ScheduleKeeps | lib/concurrency/threadpool.c:232-285 | every step of a schedule call keeps the invariant |
| ThreadpoolOtherSteps.LinkKeeps | lib/concurrency/threadpool.c:265-270 | a linked task enters one queue for the first and only time |
| ThreadpoolOtherSteps.WaiterStepKeeps | lib/concurrency/threadpool.c:287-295 | every step of a waiter inside or entering its section keeps the invariant |
| ThreadpoolOtherSteps.AllRan | lib/concurrency/threadpool.c:287-295 | when active_tasks is zero, every task whose schedule call has returned has run |
| ThreadpoolOtherSteps.CleanupKeeps | lib/concurrency/threadpool.c:297-303 | every step of the shutdown keeps the invariant |
| ThreadpoolOtherSteps.CleanupSignalledKeeps | lib/concurrency/threadpool.c:140-144 | signalling with the mutex held leaves the worker neither asleep unsignalled nor about to sleep |
| Threadpool.RunKeeps | lib/concurrency/threadpool.c:67-303 | the invariant holds after every interleaving |
| Threadpool.TaskConservation | lib/concurrency/threadpool.c:67-138 | in every reachable state each linked task is queued at one position of one queue, held by one worker, or finished; no task runs twice; each queue drains in the order it was filled |
| Threadpool.OnePlace | lib/concurrency/threadpool.c:232-285 | those places exclude each other, and a task not yet linked is in none |
| Threadpool.Counters | lib/concurrency/threadpool.c:67-138 | with its mutex free, queue_length is the length of the list; with no call between linking and counting, active_tasks counts the tasks queued, held or being settled; neither is ever negative |
| Threadpool.NoLostWakeup | lib/concurrency/threadpool.c:97-113 | a worker asleep unsignalled has an empty queue, unless the call that just linked a task still holds its mutex to signal it |
| Threadpool.NotifiedStays | lib/concurrency/threadpool.c:140-150 | once cleanup has signalled a worker it stays signalled |
| Threadpool.RankDrops | lib/concurrency/threadpool.c:97-138 | after shutdown begins, each step of a worker brings it nearer to its exit |
| Threadpool.OthersDoNotMove | lib/concurrency/threadpool.c:97-138 | no other thread's step moves a worker, other than by signalling it |
| Threadpool.HolderCanStep | lib/concurrency/threadpool.c:67-150 | a thread inside a critical section can always step: none waits for a second lock |
| Threadpool.HolderAdvances | lib/concurrency/threadpool.c:67-150 | its steps end the section and give back the lock |
| Threadpool.JoinReachable | lib/concurrency/threadpool.c:140-150 | from every state in which cleanup has signalled a worker, a run without spurious wakeups leads to its exit, so every join can return |
| ThreadpoolWait.SignalledForGood | lib/concurrency/threadpool.c:297-303 | a worker cleanup has signalled is never again asleep unsignalled, however the run goes on |
| ThreadpoolWait.WaitReturns | lib/concurrency/threadpool.c:287-295 | when wait returns, every task whose schedule call had returned before the wait began has finished |
| ThreadpoolWait.SignalServesIff | lib/concurrency/threadpool.c:126-135 | a step loses no wakeup of a waiter, whichever waiters its signal wakes, if and only if it is not the signal of a last task finished while two waiters sleep and no task has become active since |
| ThreadpoolWait.WaitersAreWokenIff | lib/concurrency/threadpool.c:126-135 | for any number of waiters: the runs that lose no wakeup are exactly those of which every signal finds at most one waiter asleep or another task active; in them, a waiter asleep unsignalled means that a task is active or a worker is about to signal |
| ThreadpoolWait.OneWaiterServed | lib/concurrency/threadpool.c:287-295 | waits that do not overlap make such a run |
| ThreadpoolWait.TwoWaitersStrandOne | lib/concurrency/threadpool.c:130-134 | a concrete run of one worker, one task and two waiters that is not such a run and leaves a waiter asleep with nothing left to wake it |
| ThreadpoolWait.StrandedStays | lib/concurrency/threadpool.c:130-134 | without a new task or a spurious wakeup it stays asleep |
| ThreadpoolProgress.QueueComesFree | lib/concurrency/threadpool.c:67-150 | from every reachable state a run without spurious wakeups frees any queue's mutex |
| ThreadpoolProgress.CleanupReachable | lib/concurrency/threadpool.c:297-303 | from every state in which the shutdown has begun, a run without spurious wakeups ends it, every worker joined |
| ThreadpoolProgress.NextMove | lib/concurrency/threadpool.c:67-138 | for every active task of a running pool, its worker or the thread that blocks that worker can take a step that runs or settles some task, or brings the task's worker nearer to it |
| ThreadpoolProgress.StageFalls | lib/concurrency/threadpool.c:67-138 | no step of a running pool puts a task back into a queue or hands it to another worker |
| ThreadpoolProgress.PoolSettles | lib/concurrency/threadpool.c:115-138 | a running pool, whatever its waiters do, can settle every active task without a new one |
| ThreadpoolProgress.EveryPoolSettles | lib/concurrency/threadpool.c:67-150 | from every reachable state in which the shutdown has not begun, lost wakeups included, a run without spurious wakeups, new tasks or new waiters ends with no active task |
| ThreadpoolProgress.GoesOn | lib/concurrency/threadpool.c:115-138 | such a run keeps a lone waiter alone and served by every signal |
| ThreadpoolProgress.WaitCanReturn | lib/concurrency/threadpool.c:287-295 | from every reachable state of a running pool with one waiter that has not returned, if every signal so far could serve the waiters, a run without spurious wakeups and without new tasks ends with the wait returned |
| ThreadpoolChoice.RunReads | lib/concurrency/threadpool.c:244-252 | at every point of any interleaving, what a schedule call knows is the first least of the queue lengths its steps have read |
| ThreadpoolChoice.GoesToLeast | lib/concurrency/threadpool.c:244-258 | a call that has left its scan goes to a worker for which it read a length no larger than any other it read and smaller than any read before |
| ThreadpoolChoice.GoesToShortest | lib/concurrency/threadpool.c:244-258 | if no queue length changes meanwhile, to the first worker of least length |
| ThreadpoolSolo.CheckMoves | lib/concurrency/threadpool.c:121-125 | a worker searches while running is set and exits otherwise |
| ThreadpoolSolo.OwnQueueFirst | lib/concurrency/threadpool.c:80-95 | a worker looks into its own queue first |
| ThreadpoolSolo.EveryQueueOnce | lib/concurrency/threadpool.c:80-95 | and into every queue exactly once |
| ThreadpoolSolo.Search | lib/concurrency/threadpool.c:80-95 | a worker alone in a running pool with all mutexes free ends its search waiting if and only if all queues are empty, and otherwise running the oldest task of the first queue, from its own on and round the end, that is not empty |
| ThreadpoolSolo.SearchEndsOnce | lib/concurrency/threadpool.c:80-95 | a worker's search alone has one outcome |
| ThreadpoolSolo.AloneRuns | lib/concurrency/threadpool.c:67-303 | the steps of a thread alone that the rows below speak of form a run of the pool |
| ThreadpoolSolo.WakesUp | lib/concurrency/threadpool.c:105-108 | a worker that wakes up, signalled or not, looks into its own queue again |
| ThreadpoolSolo.WaitMisses | lib/concurrency/threadpool.c:97-113 | a worker that finds its own queue empty sleeps with the mutex given back in a running pool, and otherwise looks at running again |
| ThreadpoolSolo.WaitTakes | lib/concurrency/threadpool.c:97-113 | a worker that finds a task in its own queue runs the oldest |
| ThreadpoolSolo.Settles | lib/concurrency/threadpool.c:126-135 | after a task's function returns, active_tasks is one less, and the waiters are signalled if and only if it was the last |
| ThreadpoolSolo.ScheduleAlone | lib/concurrency/threadpool.c:232-285 | a schedule call alone adds its task at the end of the first of the shortest queues, counts it, and signals that queue's worker |
| ThreadpoolSolo.WaitAlone | lib/concurrency/threadpool.c:287-295 | a wait alone returns if no task is active, and sleeps with the mutex given back otherwise |
| ThreadpoolSolo.CleanupAlone | lib/concurrency/threadpool.c:140-150 | the shutdown signals a worker under its mutex and then waits for it |
| ThreadpoolSolo.CleanupSteps | lib/concurrency/threadpool.c:297-303 | it begins by clearing running, goes on from a join exactly if the worker has exited, and takes the workers in order |
| Semaphore.StepKeeps | lib/concurrency/semaphore.c:24-74 | every step of a waiting or posting thread keeps the invariant |
| Semaphore.RunKeeps | lib/concurrency/semaphore.c:24-74 | the invariant holds after every interleaving |
| Semaphore.SemaphoreCounts | lib/concurrency/semaphore.c:24-74 | count = initial + posts - waits that went through, never below zero; while some waiter sleeps unsignalled and the mutex is free, count is at most the number of signalled waiters yet to take it |
| Semaphore.WaitAlone | lib/concurrency/semaphore.c:24-49 | a wait with no other thread in between takes a unit if there is one, and otherwise sleeps with the mutex given back |
| Semaphore.PostAlone | lib/concurrency/semaphore.c:51-74 | a post with no other thread in between adds a unit and wakes at least one sleeper if there is any |
| Semaphore.PassIff | lib/concurrency/semaphore.c:24-74 | from every reachable state with no post under way, a wait can go through without a new post or a spurious wakeup if and only if it has its unit, or is awake and there is a unit that the holder of the mutex is not about to take |
| Semaphore.UnitIsTaken | lib/concurrency/semaphore.c:24-74 | so while the count is positive and no post is under way, if any wait lacks its unit then such a wait can go through |
| Powers.LeadingZeros | lib/collection/buffer.c:66-69 | no leading zero exactly from 2^63 on |
| Powers.BitLengthBounds | lib/collection/buffer.c:66-71 | the bit length locates a number between two powers of two |
| Powers.LeastPow2Bound | lib/collection/buffer.c:60-74 | the least power of two at or above v is below 2v |
| WidthTable.ScanBlock | lib/unicode/codegen/char_width.c:115-127 | the flags say whether every bit of the block that lies in the table is set, or unset |
| WidthTable.EmitBlock | lib/unicode/codegen/char_width.c:137-153 | bit j%8 of byte j/8 is bit j of the block, zero past the end of the table |
| WidthTable.MaskIsPower | lib/unicode/codegen/char_width.c:137-153 | bit k of a byte has weight 2^k |
| WidthTable.EmitShared | lib/unicode/codegen/char_width.c:156-181 | a constant block is appended only if some block needs it |
| WidthTable.EmitMixed | lib/unicode/codegen/char_width.c:113-154 | blocks neither full nor empty are emitted in order under consecutive numbers |
| WidthTable.EmitLookup | lib/unicode/codegen/char_width.c:184-196 | each lookup byte is the number of its block modulo 256 |
| WidthTable.PrintRadixTable | lib/unicode/codegen/char_width.c:96-202 | the emitted arrays: every bit of every block, under the block's number, and nothing else |
| WidthTable.NumbersInRange | lib/unicode/codegen/char_width.c:113-181 | every block's number is below the number of emitted blocks |
| WidthTable.NumbersDistinct | lib/unicode/codegen/char_width.c:113-181 | two blocks share a number only if both are full or both are empty |
| WidthTable.NumbersInOrder | lib/unicode/codegen/char_width.c:113-181 | mixed blocks are numbered in order, then comes the full block, then the empty one |
| WidthTable.DivideCeilLeast | lib/unicode/codegen/char_width.c:113-181 | the number of blocks is the least that holds all code points |
| WidthTable.ReaderInBounds | lib/unicode/unicode-width.c:13-28 | the reader never leaves the generated arrays, whatever the number of blocks |
| WidthTable.LookupEmits | lib/unicode/unicode-width.c:21-27 | the reader's shifts and masks pick the bit of the block whose number it looked up |
| WidthTable.ReaderAgrees | lib/unicode/unicode-width.c:13-28 | the reader returns flat[cp] below the size and false above, for all code points, if and only if every block whose number exceeds a byte looks like the block whose number that byte is |
| WidthTable.FewBlocksFit | lib/unicode/codegen/char_width.c:135-136 | with at most 256 emitted blocks no number exceeds a byte, so the reader is right |
| WidthTable.OneBlockTooMany | lib/unicode/codegen/char_width.c:184-196 | a flat table of 257 blocks for which the reader is wrong |
| WidthRanges.FindMax | lib/unicode/codegen/char_width.c:52-71 | the size is the fold the loop computes; it exceeds the end of every range and the start of every range that is not reversed, and is one more than some endpoint, or 1 |
| WidthRanges.StartTaken | lib/unicode/codegen/char_width.c:62-66 | a range's start is taken into account if and only if its end is no new maximum or not before its start |
| WidthRanges.StartMissed | lib/unicode/codegen/char_width.c:62-66 | a reversed range whose start lies beyond the size |
| WidthRanges.GenerateFlatTable | lib/unicode/codegen/char_width.c:73-91 | a code point is marked exactly if some range covers it |
| WidthRanges.CoveredByOne | lib/unicode/codegen/char_width.c:73-91 | a range covers its two ends and all code points between |
| WidthRanges.Generate | lib/unicode/codegen/char_width.c:214-228 | the table generated for the ranges, over a bitmap that holds exactly the covered code points |
| WidthRanges.WidthByRanges | lib/unicode/unicode-width.c:30-40 | for tables whose block numbers fit their bytes, the width of any code point is 1, plus 1 in the wide ranges, minus 1 in the zero-width ranges |
| Utf8.GenerateLengths | lib/unicode/codegen/byte_size.c:19-32 | the generated table gives the announced length of each of the 256 lead bytes |
| Utf8.LeadLengthIs | lib/unicode/codegen/byte_size.c:19-32 | that length by value: 1 below 0x80, 2 from 0xC0, 3 from 0xE0, 4 from 0xF0 on, and 0 for 0x80 to 0xBF and from 0xF8 on |
| Utf8.StepEncoded | lib/unicode/utf8.c:5-65 | csize and cp at the front of encoded text give the length and the value of the first character, whatever follows |
| Utf8.JoinValues | lib/unicode/utf8.c:52-61 | the bytes of a character, without their marks, are its digits to base 64 |
| Utf8.RfcExamples | lib/unicode/utf8.c:43-65 | the encodings in the examples of section 7 of RFC 3629, which the round trip decodes |
| Utf8.RoundTrip | lib/unicode/utf8.c:43-65 | stepping with csize and cp over the encoding of any scalar values gives them back |
| Utf8.CharIff | lib/unicode/utf8.c:43-65 | on a whole character, decoding and encoding again gives the same bytes exactly if the bytes are in the grammar of section 4 of RFC 3629 |
| Utf8.DecodeIsInverseOnGrammar | lib/unicode/utf8.c:5-65 | the same for strings: exactly the strings of the grammar decode to scalar values whose encoding they are |
| Utf8.EncodeGrammar | lib/unicode/utf8.c:43-65 | every encoding is in the grammar |
| Utf8.LenientDecoder | lib/unicode/utf8.c:43-65 | an overlong form and a missing trailing mark both decode |
| Utf8.Clen | lib/unicode/utf8.c:14-25 | the number of characters after which the walk reaches the end, or -1 exactly if it meets a byte that leads nothing |
| Utf8.Bidx | lib/unicode/utf8.c:27-41 | the offset of the character, the length past the last one, -1 past a bad byte or for a character cut off |
| Utf8.CountedEnd | lib/unicode/utf8.c:14-41 | when clen counts n, bidx is inside the text before n; from n on it is the length if the last lead byte announces just the bytes left, and -1 otherwise |
| Utf8.CutOffEnd | lib/unicode/utf8.c:14-41 | the single byte 0xC3 has length 1 for clen and no index 1 for bidx |
| Utf8.DecodesIff | lib/unicode/utf8.c:5-65 | on any bytes: text decodes exactly if counting by lead bytes ends at its end, and to that many values |
| Utf8.BadByte | lib/unicode/utf8.c:14-65 | behind encoded text a byte from 0x80 to 0xBF or from 0xF8 on stops decoding, clen returns -1, and bidx finds the characters before it and no others |
| Utf8.CountEncoded | lib/unicode/utf8.c:14-25 | clen of the encoding of s is the number of values in s |
| Utf8.IndexEncoded | lib/unicode/utf8.c:27-41 | bidx at k of the encoding of s is the length of the encoding of its first min(k, n) values |
| UnicodeWidth.Cols | lib/unicode/unicode-width.c:42-56 | on any bytes the loop ends with the width of the decoded text, or -1 if it does not decode |
| UnicodeWidth.ColIdx | lib/unicode/unicode-width.c:58-84 | on any bytes, tabs included, the loop ends with the specified index |
| UnicodeWidth.TabRounds | lib/unicode/unicode-width.c:58-84 | a tab behind text that decodes: if that text is wider than the column, the column falls inside it; otherwise the search goes on behind the tab for the first tab stop past what is left of the column |
| UnicodeWidth.NextStopIsNext | lib/unicode/unicode-width.c:64-68 | at a tab the target column moves to the next multiple of the tab size |
| UnicodeWidth.LongestPrefix | lib/unicode/unicode-width.c:58-84 | on any tab-free bytes, colidx is the longest prefix whose cols is between 0 and the column; it is -1 exactly if a bad byte follows a prefix that fits |
| UnicodeWidth.LongestCharacters | lib/unicode/unicode-width.c:58-84 | on encoded text it is the length of the encoding of the most characters whose columns do not exceed the column |
| UnicodeWidth.ColumnsEncoded | lib/unicode/unicode-width.c:42-56 | cols of encoded text is the sum of the widths |
| ByteBuffer.RoundToNextPow2 | lib/collection/buffer.c:60-74 | the least power of two at or above the input; fails exactly above 2^63 |
| ByteBuffer.Buffer.constructor | lib/collection/buffer.c:39-47 | an empty buffer without a block |
| ByteBuffer.Buffer.ResizeExact | lib/collection/buffer.c:49-58 | a new block with the same contents |
| ByteBuffer.Buffer.AddCapacity | lib/collection/buffer.c:76-103 | contents unchanged; fails, changing nothing, exactly for sizes over 2^63 that do not fit; otherwise grows to the least power of two that fits, and only if needed |
| ByteBuffer.Buffer.AddSize | lib/collection/buffer.c:128-138 | the size grows unless it would overflow the word |
| ByteBuffer.Buffer.Append | lib/collection/buffer.c:140-158 | the contents are extended by the source, or unchanged on failure |
| ByteBuffer.Buffer.Drain | lib/collection/buffer.c:170-173 | the contents are empty, the block is kept |
| ByteBuffer.Buffer.Unwrap | lib/collection/buffer.c:184-191 | the caller gets the block, the buffer is empty |
| ByteBuffer.Buffer.Cleanup | lib/collection/buffer.c:193-199 | the buffer is empty and holds no block |
| ByteBuffer.AppendKeepsGrowing | lib/collection/buffer.c:76-158 | an append keeps: the bytes moved so far are fewer than the capacity, which is less than twice the size |
| ByteBuffer.MovedBytes | lib/collection/buffer.c:76-158 | any run of appends from empty to a size n > 0 moves fewer than 2n bytes in all reallocations |
| Collector.ValueOfDigits | lib/collection/collector.c:48-51 | reading the bytes of a word gives the word back |
| Collector.DigitsInOrder | lib/collection/collector.c:48-51 | byte k of a stored word has weight 256^k |
| Collector.HandleNext | lib/collection/collector.c:33-66 | a value adds its offset to the list and its bytes with a closing zero to the values; the end of the run and its error are passed on; overflow exactly for the sizes stated |
| Collector.Gather | lib/collection/collector.c:84-93 | at the end the two buffers hold the table and the bytes of all values |
| Collector.RelocatedNext | lib/collection/collector.c:110-113 | adding to one word in place changes no other word and no byte behind the array |
| Collector.Relocate | lib/collection/collector.c:110-113 | the loop adds the shift to every pointer and changes nothing else |
| Collector.Finish | lib/collection/collector.c:96-113 | the block holds the relocated pointers, NULL and the values |
| Collector.Collect | lib/collection/collector.c:68-120 | a block exactly if the run ends without error and needs at most 2^63 bytes; otherwise an error and the target left as it was |
| Collector.ReadBack | lib/collection/collector.c:96-113 | following the pointers until NULL gives each value up to its first zero byte: the values themselves if and only if none has a zero byte |
| Collector.NeededIsSum | lib/collection/collector.c:68-120 | the bytes needed are 8(n + 1) plus the lengths of the values, each with its zero byte |

## Left out

- Allocation failure: malloc, calloc and realloc are taken to succeed. On failure the source has already raised the capacity or a counter.
- Errors of the pthread functions, thread creation, the CPU count, and the destruction of mutexes. A lock, a wait, a signal and a join are steps.
- The task pool and its mutex inside the thread pool. A task is known by the number of its schedule call, so the reuse of a task's memory is not modelled.
- Tasks still queued when the pool shuts down are dropped by the source; nothing is claimed about them.
- Threadpool.JoinReachable: says that an exit can be reached from every state, not that a scheduler is fair enough to reach it, and takes every task's function to return; the same holds for ThreadpoolProgress.CleanupReachable, ThreadpoolProgress.EveryPoolSettles, ThreadpoolProgress.WaitCanReturn and Semaphore.PassIff.
- ThreadpoolProgress.WaitCanReturn: is for one waiter that has not returned, after a run of which every signal could serve the waiters; without that the code can strand a waiter for good.
- Conservation.RunKeeps: clients touch live keys that are not the empty marker, because the code does not keep the balance otherwise; see Conservation.TouchConservesIff.
- Eviction of the least recently used key: the ring does not promise it, since a touch of the key in the oldest slot is turned down.
- RcRadixTree.RcRadixTree.RetainValue: counts in tree leaves and addresses are unbounded numbers; the wrap-around of a size_t count is not modelled.
- PreallocPool.Pool.Get: addresses and chunk sizes are unbounded numbers, so the overflow of a chunk size is not modelled.
- RcHashMap.RcHashMap.Put: for key 0 and for a live key behind a free slot it states what happens to the tables, but no longer a counted map; the count of the slot it stops at stays below INT_MAX.
- RcHashMap.RcHashMap.ReleaseKey: the key is live or nowhere in the tables; on a stale key the source fails an assertion.
- The reference-counted array as a backend of the ring.
- Clients.HashSession: leaves out puts on key 0 and on live keys, on which the hash map's put need not act as a counted map (see Probing.PutLive), and counts that would overflow an int.
- The assertion in the cleanup of a reference-counted array that all counts are zero, and the cleanup functions that only free memory.
- WidthTable.PrintRadixTable: the radix is at least 3, as smaller ones have no whole byte in a block, and powers of two are unbounded, so a shift past the width of an int is not modelled.
- WidthRanges.FindMax: endpoints stay below 2^31 - 1, because the source keeps the size in an int.
- UnicodeWidth.LongestPrefix: is for text without tabs; a tab changes the target column, and UnicodeWidth.TabRounds says how.
- UnicodeWidth.ColIdx: the tab size is positive if the text has a tab, because the source divides by it; columns are unbounded numbers.
- The text parsing of char_width.c, the Unicode data files, the generated C text, char_info.c and utf16.c.
- ByteBuffer.Buffer.AddSize: says nothing about the contents when the caller has not added the capacity before, which the source leaves undefined.
- cx_buffer_move and cx_buffer_add_capacity_exact.
- Collector.Collect: an endless run of values, and values of 2^64 bytes or more, are not modelled; words are little-endian.
- future.c, rc.c, utils.c and endian.h.
