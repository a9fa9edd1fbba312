# go-cache in Dafny

A model of the in-memory cache of geekr-dev/go-cache, with proofs about it.
The cache holds string keys with a byte budget (`maxBytes`). It has three
interchangeable eviction policies behind one `Cache` interface:

- a FIFO store, which evicts in insertion order;
- an LRU store, which is FIFO plus move-to-back on `Get`;
- an LFU store, which keeps a binary min-heap on access weight and uses the
  algorithm of Go's `container/heap`.

On top of the stores sit two wrappers:

- `safeCache`, which counts lookups (`nget`) and hits (`nhit`);
- `GeekCache`, which on a miss asks a `Getter` and stores what it returns.

All of it is imperative Go, so the model is imperative Dafny:

- A class per store, with its fields: `usedBytes`, the key list as a
  `seq<string>`, the table as a `map`, and the LFU heap as a `seq` of
  slots.
- Methods that change those fields in place, with `modifies` clauses and
  loops where the Go code loops: the heap's `up` and `down`.
- Each method is specified by its whole new state. Where a pure reference
  exists, the state is tied to it: `Heap.Push`, `Heap.Pop`, `Heap.Fix` and
  `Heap.Remove` are the `container/heap` algorithm as functions on
  sequences.
- Each store keeps a representation invariant, `Valid()`:
  - In FIFO and LRU, the key list has no duplicates and holds exactly the
    table's keys.
  - In LFU, every entry's `index` is its position in the queue, and the
    queue is a min-heap on `weight`.
  - In every store, `usedBytes` is the exact sum of the entries' sizes.

An `onEvicted` callback is modelled as a log, `evicted`. Each call the
store would make appends one `(key, value)` pair to it. The log only
grows when the store was built with a callback (`hasOnEvicted`).

`CalcLen` maps a tagged `Value` to its size on a given build target
(`Arch`). A value it cannot size is a `Failure`, where Go panics. A
string is sized by the length of its UTF-8 encoding, as Go's `len` counts
bytes rather than characters.

Main results:

- `Get`, `Set`, `Del`, `DelOldest` and `Len` are modelled for each store,
  with the LRU move-to-back and the exact `usedBytes` accounting.
- An update in place never evicts.
- A new key evicts at most once. It evicts only when `maxBytes > 0` and
  the budget is exceeded, and then it removes the front key (FIFO/LRU) or
  the heap's root, a lightest entry (LFU).
- Push, pop, fix and remove all keep the heap order. Push adds exactly the
  pushed entry and fix keeps the same entries. Pop and remove return one
  entry and keep the others, so the entries before equal the entries after
  plus the returned one.
- The interface-level outcome predicates hold for every store: `GetOutcome`,
  `SetOutcome`, `DelOutcome` and `DelOldestOutcome`.
- `GeekCache.Get` hits without asking the getter. On a miss it stores
  exactly what the getter returns, if anything.
- The repository's tests hold as runs of the model:
  - evicted keys `[k1, k3]` and `Len() == 2` for the LFU store;
  - set, get and delete of one key in an LFU store;
  - `NGet == 12` and `NHit == 5` for the cache-aside loader.
- An LRU scenario checks that `Get` changes which key is evicted.

The files are:

| file | module |
|---|---|
| `wrappers.dfy` | `Option` and `Result` |
| `size.dfy` | `CalcLen` |
| `keylist.dfy` | the `container/list` operations on the key list |
| `accounting.dfy` | the `usedBytes` sum of the FIFO and LRU stores |
| `fifo.dfy` | the FIFO store |
| `lru.dfy` | the LRU store |
| `heap.dfy` | `container/heap` as pure functions, with its lemmas |
| `lfu.dfy` | the LFU store |
| `cache.dfy` | the `Cache` interface and `safeCache` |
| `geek_cache.dfy` | `GeekCache` |
| `scenarios.dfy` | the tests' runs |

## Model

| member | source | states |
|---|---|---|
| SizeModel.CharBytes | cache/cache.go:68 | the UTF-8 width of one character: 1 to 4 bytes, and 1 exactly for ASCII |
| SizeModel.Utf8Len | cache/cache.go:68 | `len(s)` counts UTF-8 bytes: at least one and at most four per character |
| SizeModel.Utf8LenAscii | cache/cache.go:68 | the byte length equals the character count exactly when the text is ASCII |
| SizeModel.Utf8LenConcat | cache/cache.go:68 | the byte length of a concatenation is the sum of the byte lengths |
| SizeModel.CalcLen | cache/cache.go:64-95 | fails exactly on a value of an unsupported type, with that type's name (Go panics); a `Len()` value is sized by its `Len`; every built-in type has size at least 1 |
| SizeModel.ArchOnlyAffectsWordSized | cache/cache.go:66-85 | only `string`, `int` and `uint` sizes depend on `GOARCH`: a string costs 8 more on amd64, and `int`/`uint` cost twice as much |
| SizeModel.StringSize | cache/cache.go:66-71 | a string costs its UTF-8 byte length `len(s)` plus 16 on amd64 and plus 8 elsewhere, i.e. two machine words; for ASCII text that is one byte per character |
| SizeModel.AccentedString | cache/cache.go:66-71 | the one-character string "é" is two bytes, so it costs 18 on amd64 and 10 elsewhere |
| KeyList.Erase | cache/fifo/fifo.go:35 | `ll.Remove`: the list keeps exactly the other keys, stays duplicate-free, and is unchanged when the key is absent |
| KeyList.MoveToBack | cache/fifo/fifo.go:66 | `ll.MoveToBack`: the same keys, the moved key last, still duplicate-free |
| KeyList.Front | cache/fifo/fifo.go:46 | `ll.Front`: absent exactly on an empty list, otherwise the first key |
| KeyList.EraseFront | cache/fifo/fifo.go:45-47 | removing the front of a duplicate-free list leaves its tail |
| KeyList.DistinctLength | cache/fifo/fifo.go:59-61 | a duplicate-free list of exactly the table's keys is as long as the table |
| Accounting.TotalRemove | cache/fifo/fifo.go:37 | removing one key from a table subtracts exactly its `CalcLen` from the total |
| Accounting.TotalUpdate | cache/fifo/fifo.go:68 | writing a value under a key swaps the key's old size, if any, for the new one |
| Fifo.FifoCache.EntryLen | cache/fifo/fifo.go:95-97 | `entry.Len` is what `CalcLen` reports for the entry's value |
| Fifo.FifoCache.constructor | cache/fifo/fifo.go:81-88 | `New`: an empty, valid store with the given budget and callback |
| Fifo.FifoCache.Get | cache/fifo/fifo.go:50-56 | the stored value when the key is present, absent otherwise; no state changes |
| Fifo.FifoCache.Len | cache/fifo/fifo.go:59-61 | the list length, which equals the number of table entries |
| Fifo.FifoCache.RemoveElement | cache/fifo/fifo.go:30-42 | `nil` changes nothing; otherwise the key leaves list and table, its size leaves `usedBytes`, the callback is logged once, and the other keys keep their order |
| Fifo.FifoCache.Del | cache/fifo/fifo.go:24-28 | an absent key changes nothing; a present key is removed as by `removeElement` |
| Fifo.FifoCache.DelOldest | cache/fifo/fifo.go:45-47 | a no-op on an empty store; otherwise the front key is removed and logged once |
| Fifo.FifoCache.Set | cache/fifo/fifo.go:64-79 | an existing key moves to the back and changes value, with the size difference applied and no eviction; a new key is appended and its size added, then, only if `maxBytes > 0` and the budget is exceeded, the front key is evicted once; the log grows by at most one; an unbounded store never evicts |
| Lru.LruCache.EntryLen | cache/lru/lru.go:92-94 | `entry.Len` is what `CalcLen` reports for the entry's value |
| Lru.LruCache.constructor | cache/lru/lru.go:78-85 | `New`: an empty, valid store |
| Lru.LruCache.Get | cache/lru/lru.go:46-53 | a hit returns the unchanged value and moves the key to the back; a miss changes nothing; table and `usedBytes` never change |
| Lru.LruCache.Len | cache/lru/lru.go:56-58 | the list length, which equals the number of entries |
| Lru.LruCache.RemoveElement | cache/lru/lru.go:26-38 | as for FIFO: the key leaves list and table, its size leaves `usedBytes`, and the callback is logged once |
| Lru.LruCache.Del | cache/lru/lru.go:20-24 | an absent key changes nothing; a present key is removed and logged once |
| Lru.LruCache.DelOldest | cache/lru/lru.go:41-43 | a no-op on an empty store; otherwise the least recently used (front) key is removed |
| Lru.LruCache.Set | cache/lru/lru.go:61-76 | as for FIFO: update in place with move-to-back and no eviction, or append then at most one front eviction when `maxBytes > 0 && maxBytes < usedBytes` |
| Heap.Parent | cache/lfu/lfu.go:70 | the parent that `up` computes with Go's truncating `(j - 1) / 2`; it lies strictly before any position but the root |
| Heap.Less | cache/lfu/lfu.go:106-108 | `queue.Less`: a strictly smaller weight, so no slot is less than itself |
| Heap.LessIsStrictOrder | cache/lfu/lfu.go:106-108 | `Less` is irreflexive, asymmetric and transitive, the strict order `container/heap` needs |
| Heap.SwapAt | cache/lfu/lfu.go:110-114 | `Swap` exchanges the two slots |
| Heap.SwapFacts | cache/lfu/lfu.go:110-114 | a swap permutes the slots and leaves every other position alone |
| Heap.Up | cache/lfu/lfu.go:70 | `up` keeps the length |
| Heap.UpFacts | cache/lfu/lfu.go:70 | `up` permutes the slots and leaves the positions after its start alone |
| Heap.Down | cache/lfu/lfu.go:106-108 | `down` keeps the length and ends at or below its start; when it does not move, nothing changes |
| Heap.DownFacts | cache/lfu/lfu.go:135 | `down` permutes the slots and leaves the positions from `n` on alone |
| Heap.MinChild | cache/lfu/lfu.go:106-108 | the child `down` picks is one of the two children and is within bounds |
| Heap.MinChildLightest | cache/lfu/lfu.go:106-108 | the picked child is no heavier than any child; the right child is picked only when strictly `Less` |
| Heap.Settle | cache/lfu/lfu.go:132-136 | `if !down { up }` keeps the length |
| Heap.SettleFacts | cache/lfu/lfu.go:132-136 | settling permutes the slots and leaves the positions from `n` on alone |
| Heap.Push | cache/lfu/lfu.go:70 | `heap.Push`: one slot longer |
| Heap.Pop | cache/lfu/lfu.go:43 | `heap.Pop`: one slot shorter, and the slot returned is the old root |
| Heap.Fix | cache/lfu/lfu.go:135 | `heap.Fix` keeps the length |
| Heap.Remove | cache/lfu/lfu.go:20 | `heap.Remove(i)`: one slot shorter, and the slot returned is the one at `i` |
| Heap.DetachLast | cache/lfu/lfu.go:20 | the first half of `heap.Remove(i)` leaves slot `i` last |
| Heap.DetachOrders | cache/lfu/lfu.go:20 | the first half of `heap.Remove(i)` on a heap leaves the positions before the last one ordered and the slots permuted |
| Heap.Detach | cache/lfu/lfu.go:18-23 | the first half of `heap.Remove` keeps the length |
| Heap.UpOrders | cache/lfu/lfu.go:70 | `up` from a heap broken only at `j` and its parent restores heap order |
| Heap.DownOrders | cache/lfu/lfu.go:132-136 | `down` from a heap broken only at `i` restores order when it moves, and otherwise leaves what `up` needs |
| Heap.SettleOrders | cache/lfu/lfu.go:132-136 | `down` then, if nothing moved, `up` restores heap order after one slot is broken |
| Heap.RootIsLightest | cache/lfu/lfu.go:106-108 | in a heap, the root weighs no more than any slot |
| Heap.PushKeepsHeap | cache/lfu/lfu.go:116-121 | `heap.Push` keeps heap order and adds exactly the new slot to the multiset |
| Heap.PopKeepsHeap | cache/lfu/lfu.go:123-130 | `heap.Pop` keeps heap order, drops one slot, and returns the old root, a lightest slot; the multiset loses exactly that slot |
| Heap.FixKeepsHeap | cache/lfu/lfu.go:132-136 | `heap.Fix` after one slot is broken restores heap order and keeps the multiset |
| Heap.FixAfterWrite | cache/lfu/lfu.go:132-136 | writing a new weight into one slot and then `heap.Fix` gives a heap holding the written slots |
| Heap.RemoveKeepsHeap | cache/lfu/lfu.go:18-23 | `heap.Remove(i)` keeps heap order, returns the slot at `i`, and removes exactly that slot |
| Lfu.EntryLenIsCalcLen | cache/lfu/lfu.go:95-97 | `entry.Len` is what `CalcLen` reports for the value, plus 4 bytes each for `weight` and `index` |
| Lfu.TotalRemove | cache/lfu/lfu.go:32 | taking any one entry out subtracts exactly its `entry.Len` |
| Lfu.TotalAdd | cache/lfu/lfu.go:72 | adding an entry adds exactly its `entry.Len` |
| Lfu.EntriesKeys | cache/lfu/lfu.go:19 | the table's keys are exactly the keys with entries, and each reaches the entry at its `index` |
| Lfu.EntriesMoved | cache/lfu/lfu.go:110-114 | heap moves change where entries sit, but not which entry each key reaches |
| Lfu.EntriesRemoved | cache/lfu/lfu.go:25-36 | taking an entry off the queue and the table takes exactly that key out of the entries |
| Lfu.EntriesAdded | cache/lfu/lfu.go:70-71 | pushing a new key's entry adds exactly that key's entry |
| Lfu.EntriesWritten | cache/lfu/lfu.go:132-134 | rewriting the entry at a key's `index` rewrites that key's entry |
| Lfu.PopLightest | cache/lfu/lfu.go:38-44 | the root of the queue is the entry of least weight among all keys |
| Lfu.TotalWritten | cache/lfu/lfu.go:63 | rewriting one entry swaps its `entry.Len` for the new one's |
| Lfu.Reweighed | cache/lfu/lfu.go:132-136 | after `queue.update` the queue is a heap again, each key's `index` is its position, the byte count is exact once the size change is applied, and only the updated key's entry differs |
| Lfu.Dropped | cache/lfu/lfu.go:31-32 | once the entry is off the queue, deleting its key makes the table agree with the queue again, and subtracting its size makes the byte count exact |
| Lfu.Pushed | cache/lfu/lfu.go:70-72 | after `heap.Push` the queue is a heap, the new key's entry is added, and its size is added |
| Lfu.TableSize | cache/lfu/lfu.go:55-58 | a table whose indexes agree with the queue has one key per queue position |
| Lfu.LfuCache.constructor | cache/lfu/lfu.go:79-86 | `New`: an empty, valid store |
| Lfu.LfuCache.Swap | cache/lfu/lfu.go:110-114 | exchanges two entries and rewrites both `index`es, so every entry's `index` still equals its position |
| Lfu.LfuCache.QueuePush | cache/lfu/lfu.go:116-121 | the entry gets `index = len(queue)` and is appended |
| Lfu.LfuCache.QueuePop | cache/lfu/lfu.go:123-130 | the last entry gets `index = -1` and leaves the queue; every other entry keeps its position |
| Lfu.LfuCache.HeapUp | cache/lfu/lfu.go:70 | the sift-up loop computes `Heap.Up`, keeping every `index` at its entry's position |
| Lfu.LfuCache.DownOnce | cache/lfu/lfu.go:106-108 | one pass of the sift-down loop: stop exactly where `Heap.Down` stops, or swap with the child it picks |
| Lfu.LfuCache.HeapDown | cache/lfu/lfu.go:135 | the sift-down loop computes `Heap.Down` and reports whether the entry moved |
| Lfu.LfuCache.HeapPush | cache/lfu/lfu.go:70 | `heap.Push` on the queue computes `Heap.Push` and registers the key |
| Lfu.LfuCache.HeapPop | cache/lfu/lfu.go:43 | `heap.Pop` on the queue computes `Heap.Pop`; the popped entry keeps its key with `index = -1` |
| Lfu.LfuCache.HeapSettle | cache/lfu/lfu.go:135 | `if !down { up }` computes `Heap.Settle` |
| Lfu.LfuCache.MoveToEnd | cache/lfu/lfu.go:20 | the first half of `heap.Remove` computes `Heap.Detach` |
| Lfu.LfuCache.HeapRemove | cache/lfu/lfu.go:20 | `heap.Remove` computes `Heap.Remove`; the removed entry keeps its key with `index = -1` |
| Lfu.LfuCache.HeapFix | cache/lfu/lfu.go:135 | `heap.Fix` computes `Heap.Fix` |
| Lfu.LfuCache.Update | cache/lfu/lfu.go:132-136 | `queue.update` writes value and weight into the key's entry, then the queue is `Heap.Fix` of that at the entry's `index` |
| Lfu.LfuCache.Len | cache/lfu/lfu.go:55-58 | the queue length, which equals the number of table keys |
| Lfu.LfuCache.RemoveElement | cache/lfu/lfu.go:25-36 | `nil` changes nothing; otherwise the key leaves the table, the entry's size leaves `usedBytes`, and the callback is logged once |
| Lfu.LfuCache.Del | cache/lfu/lfu.go:18-23 | an absent key changes nothing; a present key's entry is removed from its recorded `index` by `heap.Remove`, leaves the entries, and is logged once |
| Lfu.LfuCache.DelOldest | cache/lfu/lfu.go:38-44 | a no-op on an empty queue; otherwise the root is popped, it is a lightest entry, and it is removed and logged once |
| Lfu.LfuCache.Get | cache/lfu/lfu.go:46-53 | a hit returns the unchanged value, adds exactly 1 to the entry's weight and restores heap order as `Heap.Fix` does, without changing `usedBytes`; a miss changes nothing |
| Lfu.LfuCache.Rewrite | cache/lfu/lfu.go:62-63 | the entry takes the new value and weight as `Heap.Fix` places it, the store stays valid, and `usedBytes` swaps the old value's size for the new one's |
| Lfu.LfuCache.Add | cache/lfu/lfu.go:65-72 | a new key's entry is pushed as by `Heap.Push`, added to the entries, and its size is added |
| Lfu.LfuCache.Replace | cache/lfu/lfu.go:62-64 | an existing key gets the new value and one more weight as `Heap.Fix` places it, with `CalcLen(new) - CalcLen(old)` added to `usedBytes` |
| Lfu.LfuCache.EvictIfOver | cache/lfu/lfu.go:73-75 | over a positive budget the root, a lightest entry, is popped and evicted once; otherwise nothing changes |
| Lfu.LfuCache.Insert | cache/lfu/lfu.go:65-76 | a new key enters with weight 0 by `heap.Push`; only if `maxBytes > 0` and the budget is exceeded, `heap.Pop`'s root, a lightest entry of the table including the new key, is evicted once |
| Lfu.LfuCache.Set | cache/lfu/lfu.go:60-77 | the two branches of `Set` above; the log grows by at most one |
| Cache.FifoGet | cache/fifo/fifo.go:50-56 | the FIFO `Get` meets `GetOutcome` |
| Cache.LruGet | cache/lru/lru.go:46-53 | the LRU `Get` meets `GetOutcome`: its reordering is invisible to the contents |
| Cache.LfuGet | cache/lfu/lfu.go:46-53 | the LFU `Get` meets `GetOutcome`: the weight change is invisible to the contents |
| Cache.StoreGet | cache/cache.go:12 | `Cache.Get` reports exactly the held value, or absent, and changes neither contents nor log |
| Cache.FifoSet | cache/fifo/fifo.go:64-79 | the FIFO `Set` meets `SetOutcome` |
| Cache.LruSet | cache/lru/lru.go:61-76 | the LRU `Set` meets `SetOutcome` |
| Cache.LfuSetExisting | cache/lfu/lfu.go:62-64 | an LFU update in place meets `SetOutcome` |
| Cache.LfuSetNew | cache/lfu/lfu.go:65-76 | an LFU insert meets `SetOutcome` |
| Cache.LfuSet | cache/lfu/lfu.go:60-77 | the LFU `Set` meets `SetOutcome` |
| Cache.StoreSet | cache/cache.go:11 | `Cache.Set`: an existing key, or any key of an unbounded store, just takes the value; otherwise at most one key of the result is evicted; the log grows by at most one |
| Cache.FifoDel | cache/fifo/fifo.go:24-28 | the FIFO `Del` meets `DelOutcome` |
| Cache.LruDel | cache/lru/lru.go:20-24 | the LRU `Del` meets `DelOutcome` |
| Cache.LfuDelHeld | cache/lfu/lfu.go:18-23 | an LFU `Del` of a held key meets `DelOutcome` |
| Cache.LfuDelAbsent | cache/lfu/lfu.go:18-23 | an LFU `Del` of an absent key meets `DelOutcome` |
| Cache.LfuDel | cache/lfu/lfu.go:18-23 | the LFU `Del` meets `DelOutcome` |
| Cache.StoreDel | cache/cache.go:13 | `Cache.Del`: the key is no longer held, an absent key logs nothing, and at most one call is logged |
| Cache.FifoDelOldest | cache/fifo/fifo.go:45-47 | the FIFO `DelOldest` meets `DelOldestOutcome` |
| Cache.LruDelOldest | cache/lru/lru.go:41-43 | the LRU `DelOldest` meets `DelOldestOutcome` |
| Cache.LfuDelOldest | cache/lfu/lfu.go:38-44 | the LFU `DelOldest` meets `DelOldestOutcome` |
| Cache.StoreDelOldest | cache/cache.go:14 | `Cache.DelOldest`: nothing happens on an empty store; otherwise exactly one held key goes, and at most one call is logged |
| Cache.StoreLen | cache/cache.go:15 | `Cache.Len` is the number of held keys |
| Cache.WrittenView | cache/lfu/lfu.go:62-64 | rewriting a held key's entry rewrites only that key's value |
| Cache.AddedView | cache/lfu/lfu.go:65-76 | adding a new key's entry, and possibly evicting one key, changes the values the same way |
| Cache.RemovedView | cache/lfu/lfu.go:25-36 | removing a key's entry removes only that key's value |
| Cache.SafeCache.constructor | cache/cache.go:28-30 | `newSafeCache`: both counters start at zero |
| Cache.SafeCache.Get | cache/cache.go:38-52 | every call adds 1 to `nget`; `nhit` grows by 1 exactly when a value is found; with no store nothing is found; the store's contents and log do not change; `nhit <= nget` is kept |
| Cache.SafeCache.Set | cache/cache.go:32-36 | the store's `Set`, meeting `SetOutcome`; the counters do not move |
| Cache.SafeCache.GetStat | cache/cache.go:54-58 | a snapshot of `(nhit, nget)` with `0 <= nhit <= nget`; nothing changes |
| GeekCacheModel.Fetch | cache/geek_cache.go:9-11 | `GetFunc.Get` applies the function; no getter yields nothing |
| GeekCacheModel.GeekCache.constructor | cache/geek_cache.go:18-23 | `NewGeekCache`: fresh counters around the store, with the getter |
| GeekCacheModel.GeekCache.Get | cache/geek_cache.go:25-39 | each call adds 1 to `NGet`, and 1 to `NHit` exactly when the key was held. A hit returns the held value and changes no contents. A miss returns the getter's result: absent stores nothing, present is stored as `Set` does |
| GeekCacheModel.GeekCache.GetStat | cache/geek_cache.go:41-43 | the wrapped counters, with no more hits than lookups |
| Scenarios.EvictedKeys | cache/lfu/lfu_test.go:27-29 | the keys the callback saw, in call order |
| Scenarios.PushNoLighter | cache/lfu/lfu.go:116-121 | pushing an entry no lighter than the root of a two-entry heap leaves it last |
| Scenarios.PopEqualThree | cache/lfu/lfu.go:123-130 | popping three equal-weight entries returns the root and moves the last one up: the tie-breaking the test depends on |
| Scenarios.LfuEvictingStep | cache/lfu/lfu_test.go:36-37 | a new 16-byte key of weight 0 into a full 32-byte store of two weight-0 entries evicts the root and takes its place |
| Scenarios.LfuOnEvicted | cache/lfu/lfu_test.go:23-43 | four `int` keys into a 32-byte LFU store on amd64 call `onEvicted` for `k1` then `k3`, and leave `Len() == 2` |
| Scenarios.LfuSetGet | cache/lfu/lfu_test.go:10-21 | `DelOldest` on an empty store is harmless; `k1` reads back as 1; after `Del` the length is 0 |
| Scenarios.LruEvictsLeastRecent | cache/lru/lru.go:46-53 | with `k1` and `k2` in a 16-byte LRU store, `Get(k1)` then `Set(k3)` evicts `k2` and keeps `k1` and `k3` |
| Scenarios.FromDb | cache/geek_cache_test.go:23-29 | the test's getter returns a row exactly for the five database keys, as a string |
| Scenarios.GetTwice | cache/geek_cache_test.go:39-43 | over an unbounded store, the first lookup of a database key fills it and the second hits, and both return the row |
| Scenarios.UnknownTwice | cache/geek_cache_test.go:47-48 | two lookups of a key the database lacks both miss, and nothing is stored |
| Scenarios.ReadAllTwice | cache/geek_cache_test.go:36-45 | reading each of the five rows twice gives 10 lookups and 5 hits |
| Scenarios.GeekStat | cache/geek_cache_test.go:13-52 | `TestCacheGet` run sequentially: `NHit == 5` and `NGet == 12` |

## Left out

- Locking: the `sync.RWMutex` of `safeCache` is not modelled, and every call
  runs to completion before the next. So is the fact that `get` updates the
  counters under a read lock.
- Goroutines: the test's goroutines and `WaitGroup` run one after another, in
  a fixed key order. Go's map iteration order is not modelled.
- Logging: `log.Printf` on a hit, and the getter's printed database lookup,
  are not modelled.
- The build target: `runtime.GOARCH` is the parameter `Arch` of each store.
- Strings with invalid UTF-8: a Go string may hold any bytes, but a Dafny
  `string` is a sequence of Unicode characters. Such strings are not
  representable, and `Utf8Len` sizes only well-formed text.
- Integer width: `usedBytes`, `weight`, `index` and each `Len()` are Go
  `int`s, which wrap on overflow. The model's integers are unbounded, so
  wrap-around after 2^63 bytes or accesses is not modelled.
- Payloads: floating-point and complex values keep their bits as an
  integer, and only their type tag is used.
- Pointers: `container/list` elements are named by their key, and the list is
  a `seq<string>`. An LFU entry pointer shared by the map and the heap
  becomes a heap slot plus the table's `index` for its key.
- Aliasing: a value's identity is not modelled. The model cannot express a
  caller mutating a stored entry behind the store's back.
- `nil`: a `nil` value is `Option.None`. A stored value is never `nil`.
- Panics: `CalcLen` panics on a value of an unsupported type, and `Set` on
  such a value panics too. The stores' `Set` therefore requires a
  `Supported` value, and `CalcLen` returns a `Failure`. `safeCache.set`
  with a `nil` store panics and is excluded by a precondition.
- A non-`nil` `Getter` interface wrapping a `nil` `GetFunc` is not modelled;
  calling it panics in Go.
- `onEvicted`: the callback's own effects are not modelled. Its calls are
  recorded as the log `evicted`.
- Step order in `Set`: Go pushes a new LFU entry and then registers it in
  the map. The model registers the key inside `heap.Push`, in `QueuePush`.
  No other code observes the difference.
- `Lfu.LfuCache.Rewrite` serves `Get` as well as `Set`. For `Get` it
  recomputes `usedBytes` from the same value, so the field keeps its
  value, where Go does not touch it.
- The budget: there is no claim that `usedBytes <= maxBytes` after `Set`.
  The code does not enforce it after an update in place, nor when one
  eviction is not enough.
- Cache.DelOldestOutcome: through the interface, it states only that one
  held key goes. Which key goes is stated by each store's own `DelOldest`.
- Cache.SetOutcome: through the interface, an evicting insert states only
  that at most one key goes. The exact key is stated by each store's own
  `Set`.
