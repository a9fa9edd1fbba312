/**
 * The `Cache` interface of cache/cache.go over its three implementations,
 * and the counting wrapper `safeCache` around one of them.
 */
module Cache {
  import opened Wrappers
  import opened SizeModel
  import Fifo
  import Lru
  import Lfu
  import Heap

  /** A value of the `Cache` interface: one of the three stores, or `nil`. */
  datatype Store =
    | NoStore
    | FifoStore(fifo: Fifo.FifoCache)
    | LruStore(lru: Lru.LruCache)
    | LfuStore(lfu: Lfu.LfuCache)

  /** The object behind the interface value. */
  function Repr(s: Store): set<object> {
    match s
    case NoStore => {}
    case FifoStore(c) => {c}
    case LruStore(c) => {c}
    case LfuStore(c) => {c}
  }

  /** The store behind the interface keeps its own invariant. */
  ghost predicate StoreValid(s: Store)
    reads Repr(s)
  {
    match s
    case NoStore => true
    case FifoStore(c) => c.Valid()
    case LruStore(c) => c.Valid()
    case LfuStore(c) => c.Valid()
  }

  /** What the store holds, as a table from keys to values. */
  ghost function Contents(s: Store): map<string, Value>
    reads Repr(s)
  {
    match s
    case NoStore => map[]
    case FifoStore(c) => c.table
    case LruStore(c) => c.table
    case LfuStore(c) => Lfu.ValuesOf(c.Entries())
  }

  /** The calls the store has made to its `onEvicted` callback. */
  ghost function Evicted(s: Store): seq<(string, Value)>
    reads Repr(s)
  {
    match s
    case NoStore => []
    case FifoStore(c) => c.evicted
    case LruStore(c) => c.evicted
    case LfuStore(c) => c.evicted
  }

  /** Whether the store has a budget (`maxBytes > 0`) and so may evict on `Set`. */
  function MayEvict(s: Store): bool {
    match s
    case NoStore => false
    case FifoStore(c) => c.maxBytes > 0
    case LruStore(c) => c.maxBytes > 0
    case LfuStore(c) => c.maxBytes > 0
  }

  /** `m` is `full`, or `full` with exactly one of its keys removed. */
  ghost predicate LessAtMostOne(full: map<string, Value>, m: map<string, Value>) {
    m == full || exists k :: k in full && m == full - {k}
  }

  /** What `Get(key)` may do, seen through the interface: report `t[key]`, change nothing. */
  ghost predicate GetOutcome(t: map<string, Value>, log: seq<(string, Value)>, key: string, r: Option<Value>,
                             t': map<string, Value>, log': seq<(string, Value)>) {
    (r.Some? <==> key in t) && (r.Some? ==> r.value == t[key]) && t' == t && log' == log
  }

  /**
   * What `Set(key, val)` may do, seen through the interface: an existing
   * key takes the value and nothing is evicted, and so does any key of a
   * store that may not evict (`mayEvict` is false); otherwise at most one
   * key, possibly `key` itself, is evicted and reported.
   */
  ghost predicate SetOutcome(t: map<string, Value>, log: seq<(string, Value)>, mayEvict: bool,
                             key: string, val: Value, t': map<string, Value>, log': seq<(string, Value)>) {
    (key in t || !mayEvict ==> t' == t[key := val] && log' == log)
    && LessAtMostOne(t[key := val], t')
    && |log| <= |log'| <= |log| + 1
  }

  method FifoGet(c: Fifo.FifoCache, key: string) returns (r: Option<Value>)
    requires c.Valid()
    modifies c
    ensures c.Valid()
    ensures GetOutcome(old(c.table), old(c.evicted), key, r, c.table, c.evicted)
  {
    r := c.Get(key);
  }

  method LruGet(c: Lru.LruCache, key: string) returns (r: Option<Value>)
    requires c.Valid()
    modifies c
    ensures c.Valid()
    ensures GetOutcome(old(c.table), old(c.evicted), key, r, c.table, c.evicted)
  {
    r := c.Get(key);
  }

  method LfuGet(c: Lfu.LfuCache, key: string) returns (r: Option<Value>)
    requires c.Valid()
    modifies c
    ensures c.Valid()
    ensures GetOutcome(old(Lfu.ValuesOf(c.Entries())), old(c.evicted), key, r,
                       Lfu.ValuesOf(c.Entries()), c.evicted)
  {
    ghost var q0, c0 := c.queue, c.cache;
    Lfu.EntriesKeys(q0, c0);
    r := c.Get(key);
    if r.Some? {
      Lfu.ValuesOfWrite(Lfu.EntriesOf(q0, c0), key, q0[c0[key]].(weight := q0[c0[key]].weight + 1));
    }
  }

  /** `Cache.Get`: the stored value or absent; what the store holds does not change. */
  method StoreGet(s: Store, key: string) returns (r: Option<Value>)
    requires StoreValid(s) && !s.NoStore?
    modifies Repr(s)
    ensures StoreValid(s)
    ensures GetOutcome(old(Contents(s)), old(Evicted(s)), key, r, Contents(s), Evicted(s))
  {
    match s
    case FifoStore(c) => r := FifoGet(c, key);
    case LruStore(c) => r := LruGet(c, key);
    case LfuStore(c) => r := LfuGet(c, key);
  }

  method FifoSet(c: Fifo.FifoCache, key: string, val: Value)
    requires c.Valid() && Supported(val)
    modifies c
    ensures c.Valid()
    ensures SetOutcome(old(c.table), old(c.evicted), c.maxBytes > 0, key, val, c.table, c.evicted)
  {
    ghost var o := c.order;
    if o != [] {
      assert o[0] in o;
    }
    c.Set(key, val);
  }

  method LruSet(c: Lru.LruCache, key: string, val: Value)
    requires c.Valid() && Supported(val)
    modifies c
    ensures c.Valid()
    ensures SetOutcome(old(c.table), old(c.evicted), c.maxBytes > 0, key, val, c.table, c.evicted)
  {
    ghost var o := c.order;
    if o != [] {
      assert o[0] in o;
    }
    c.Set(key, val);
  }

  /** Rewriting a held key's entry rewrites that key's value. */
  lemma WrittenView(es: map<string, Heap.Slot>, es': map<string, Heap.Slot>, k: string, s: Heap.Slot)
    requires k in es && es' == es[k := s]
    ensures k in Lfu.ValuesOf(es)
    ensures Lfu.ValuesOf(es') == Lfu.ValuesOf(es)[k := s.value]
  {
    Lfu.ValuesOfWrite(es, k, s);
  }

  /** Adding a new key's entry, and possibly evicting one key `v` of the result. */
  lemma AddedView(es: map<string, Heap.Slot>, es': map<string, Heap.Slot>, k: string, s: Heap.Slot,
                  evicts: bool, v: string)
    requires k !in es
    requires evicts ==> v in es[k := s] && es' == es[k := s] - {v}
    requires !evicts ==> es' == es[k := s]
    ensures k !in Lfu.ValuesOf(es)
    ensures evicts ==> v in Lfu.ValuesOf(es)[k := s.value]
                       && Lfu.ValuesOf(es') == Lfu.ValuesOf(es)[k := s.value] - {v}
    ensures !evicts ==> Lfu.ValuesOf(es') == Lfu.ValuesOf(es)[k := s.value]
  {
    Lfu.ValuesOfWrite(es, k, s);
    if evicts {
      Lfu.ValuesOfRemove(es[k := s], v);
    }
  }

  method LfuSetExisting(c: Lfu.LfuCache, key: string, val: Value)
    requires c.Valid() && Supported(val) && key in c.cache
    modifies c
    ensures c.Valid()
    ensures SetOutcome(old(Lfu.ValuesOf(c.Entries())), old(c.evicted), c.maxBytes > 0, key, val,
                       Lfu.ValuesOf(c.Entries()), c.evicted)
  {
    ghost var es := c.Entries();
    Lfu.EntriesKeys(c.queue, c.cache);
    ghost var s := Heap.Slot(key, val, c.queue[c.cache[key]].weight + 1);
    c.Replace(key, val);
    WrittenView(es, c.Entries(), key, s);
  }

  method LfuSetNew(c: Lfu.LfuCache, key: string, val: Value)
    requires c.Valid() && Supported(val) && key !in c.cache
    modifies c
    ensures c.Valid()
    ensures SetOutcome(old(Lfu.ValuesOf(c.Entries())), old(c.evicted), c.maxBytes > 0, key, val,
                       Lfu.ValuesOf(c.Entries()), c.evicted)
  {
    ghost var es := c.Entries();
    Lfu.EntriesKeys(c.queue, c.cache);
    ghost var e := Heap.Slot(key, val, 0);
    ghost var evicts := c.maxBytes > 0 && c.usedBytes + Lfu.EntryLen(e, c.arch) > c.maxBytes;
    ghost var v := Heap.Push(c.queue, e)[0].key;
    c.Insert(key, val);
    AddedView(es, c.Entries(), key, e, evicts, v);
  }

  method LfuSet(c: Lfu.LfuCache, key: string, val: Value)
    requires c.Valid() && Supported(val)
    modifies c
    ensures c.Valid()
    ensures SetOutcome(old(Lfu.ValuesOf(c.Entries())), old(c.evicted), c.maxBytes > 0, key, val,
                       Lfu.ValuesOf(c.Entries()), c.evicted)
  {
    if key in c.cache {
      LfuSetExisting(c, key, val);
    } else {
      LfuSetNew(c, key, val);
    }
  }

  /**
   * `Cache.Set`: `key` now has `val`, unless the one eviction a new key can
   * cause took it; an existing key never evicts.
   */
  method StoreSet(s: Store, key: string, val: Value)
    requires StoreValid(s) && !s.NoStore? && Supported(val)
    modifies Repr(s)
    ensures StoreValid(s)
    ensures SetOutcome(old(Contents(s)), old(Evicted(s)), MayEvict(s), key, val, Contents(s), Evicted(s))
  {
    match s
    case FifoStore(c) => FifoSet(c, key, val);
    case LruStore(c) => LruSet(c, key, val);
    case LfuStore(c) => LfuSet(c, key, val);
  }

  /** What `Del(key)` may do, seen through the interface: `key` goes, and is reported at most once. */
  ghost predicate DelOutcome(t: map<string, Value>, log: seq<(string, Value)>, key: string,
                             t': map<string, Value>, log': seq<(string, Value)>) {
    t' == t - {key} && (key !in t ==> log' == log) && |log| <= |log'| <= |log| + 1
  }

  /** What `DelOldest()` may do, seen through the interface: nothing when empty, else one key goes. */
  ghost predicate DelOldestOutcome(t: map<string, Value>, log: seq<(string, Value)>,
                                   t': map<string, Value>, log': seq<(string, Value)>) {
    (t == map[] ==> t' == t && log' == log)
    && (t != map[] ==> exists k :: k in t && t' == t - {k})
    && |log| <= |log'| <= |log| + 1
  }

  /** Taking one key's entry away takes that key's value away. */
  lemma RemovedView(es: map<string, Heap.Slot>, es': map<string, Heap.Slot>, k: string)
    requires k in es && es' == es - {k}
    ensures Lfu.ValuesOf(es) != map[] && k in Lfu.ValuesOf(es)
    ensures Lfu.ValuesOf(es') == Lfu.ValuesOf(es) - {k}
  {
    Lfu.ValuesOfRemove(es, k);
  }

  method FifoDel(c: Fifo.FifoCache, key: string)
    requires c.Valid()
    modifies c
    ensures c.Valid()
    ensures DelOutcome(old(c.table), old(c.evicted), key, c.table, c.evicted)
  {
    c.Del(key);
  }

  method LruDel(c: Lru.LruCache, key: string)
    requires c.Valid()
    modifies c
    ensures c.Valid()
    ensures DelOutcome(old(c.table), old(c.evicted), key, c.table, c.evicted)
  {
    c.Del(key);
  }

  method LfuDelHeld(c: Lfu.LfuCache, key: string)
    requires c.Valid() && key in c.cache
    modifies c
    ensures c.Valid()
    ensures DelOutcome(old(Lfu.ValuesOf(c.Entries())), old(c.evicted), key,
                       Lfu.ValuesOf(c.Entries()), c.evicted)
  {
    ghost var es := c.Entries();
    Lfu.EntriesKeys(c.queue, c.cache);
    c.Del(key);
    RemovedView(es, c.Entries(), key);
  }

  method LfuDelAbsent(c: Lfu.LfuCache, key: string)
    requires c.Valid() && key !in c.cache
    modifies c
    ensures c.Valid()
    ensures DelOutcome(old(Lfu.ValuesOf(c.Entries())), old(c.evicted), key,
                       Lfu.ValuesOf(c.Entries()), c.evicted)
  {
    Lfu.EntriesKeys(c.queue, c.cache);
    assert key !in Lfu.ValuesOf(c.Entries());
    c.Del(key);
  }

  method LfuDel(c: Lfu.LfuCache, key: string)
    requires c.Valid()
    modifies c
    ensures c.Valid()
    ensures DelOutcome(old(Lfu.ValuesOf(c.Entries())), old(c.evicted), key,
                       Lfu.ValuesOf(c.Entries()), c.evicted)
  {
    if key in c.cache {
      LfuDelHeld(c, key);
    } else {
      LfuDelAbsent(c, key);
    }
  }

  /** `Cache.Del`: `key` is no longer held. */
  method StoreDel(s: Store, key: string)
    requires StoreValid(s) && !s.NoStore?
    modifies Repr(s)
    ensures StoreValid(s)
    ensures DelOutcome(old(Contents(s)), old(Evicted(s)), key, Contents(s), Evicted(s))
  {
    match s
    case FifoStore(c) => FifoDel(c, key);
    case LruStore(c) => LruDel(c, key);
    case LfuStore(c) => LfuDel(c, key);
  }

  method FifoDelOldest(c: Fifo.FifoCache)
    requires c.Valid()
    modifies c
    ensures c.Valid()
    ensures DelOldestOutcome(old(c.table), old(c.evicted), c.table, c.evicted)
  {
    ghost var o := c.order;
    if o != [] {
      assert o[0] in o;
    }
    c.DelOldest();
  }

  method LruDelOldest(c: Lru.LruCache)
    requires c.Valid()
    modifies c
    ensures c.Valid()
    ensures DelOldestOutcome(old(c.table), old(c.evicted), c.table, c.evicted)
  {
    ghost var o := c.order;
    if o != [] {
      assert o[0] in o;
    }
    c.DelOldest();
  }

  method LfuDelOldest(c: Lfu.LfuCache)
    requires c.Valid()
    modifies c
    ensures c.Valid()
    ensures DelOldestOutcome(old(Lfu.ValuesOf(c.Entries())), old(c.evicted),
                             Lfu.ValuesOf(c.Entries()), c.evicted)
  {
    ghost var es := c.Entries();
    Lfu.EntriesKeys(c.queue, c.cache);
    if |c.queue| == 0 {
      assert es == map[];
      c.DelOldest();
    } else {
      ghost var k := c.queue[0].key;
      c.DelOldest();
      RemovedView(es, c.Entries(), k);
    }
  }

  /** `Cache.DelOldest`: on an empty store nothing happens, otherwise one entry is evicted. */
  method StoreDelOldest(s: Store)
    requires StoreValid(s) && !s.NoStore?
    modifies Repr(s)
    ensures StoreValid(s)
    ensures DelOldestOutcome(old(Contents(s)), old(Evicted(s)), Contents(s), Evicted(s))
  {
    match s
    case FifoStore(c) => FifoDelOldest(c);
    case LruStore(c) => LruDelOldest(c);
    case LfuStore(c) => LfuDelOldest(c);
  }

  /** `Cache.Len`: the number of keys held. */
  method StoreLen(s: Store) returns (n: int)
    requires StoreValid(s) && !s.NoStore?
    ensures n == |Contents(s)|
  {
    match s
    case FifoStore(c) => n := c.Len();
    case LruStore(c) => n := c.Len();
    case LfuStore(c) =>
      n := c.Len();
      Lfu.EntriesKeys(c.queue, c.cache);
      assert Lfu.ValuesOf(c.Entries()).Keys == c.cache.Keys;
  }

  /** `Stat`: hits and lookups so far. */
  datatype Stat = Stat(nhit: int, nget: int)

  /**
   * `safeCache`: a store (possibly `nil`) behind a lock, counting lookups
   * (`nget`) and the lookups that found a value (`nhit`).
   */
  class SafeCache {
    const store: Store
    var nhit: int
    var nget: int

    ghost predicate Valid()
      reads this, Repr(store)
    {
      this !in Repr(store) && StoreValid(store) && 0 <= nhit <= nget
    }

    /** `newSafeCache(cache)`: both counters start at zero. */
    constructor (store: Store)
      requires StoreValid(store)
      ensures Valid()
      ensures this.store == store && nhit == 0 && nget == 0
    {
      this.store := store;
      nhit := 0;
      nget := 0;
    }

    /**
     * `get`: every call counts as a lookup; only a lookup that finds a value
     * counts as a hit. Without a store nothing is found.
     */
    method Get(key: string) returns (r: Option<Value>)
      requires Valid()
      modifies `nget, `nhit, Repr(store)
      ensures Valid()
      ensures store.NoStore? ==> r.None?
      ensures GetOutcome(old(Contents(store)), old(Evicted(store)), key, r, Contents(store), Evicted(store))
      ensures nget == old(nget) + 1
      ensures nhit == if r.Some? then old(nhit) + 1 else old(nhit)
    {
      ghost var t0, l0 := Contents(store), Evicted(store);
      nget := nget + 1;
      assert StoreValid(store) && Contents(store) == t0 && Evicted(store) == l0;
      if store.NoStore? {
        return None;
      }
      r := StoreGet(store, key);
      ghost var t1, l1 := Contents(store), Evicted(store);
      if r.Some? {
        nhit := nhit + 1;
      }
      assert StoreValid(store) && Contents(store) == t1 && Evicted(store) == l1;
    }

    /** `set`: the store's `Set`; the counters do not move. Without a store Go panics. */
    method Set(key: string, val: Value)
      requires Valid() && !store.NoStore? && Supported(val)
      modifies Repr(store)
      ensures Valid()
      ensures SetOutcome(old(Contents(store)), old(Evicted(store)), MayEvict(store), key, val, Contents(store), Evicted(store))
      ensures nhit == old(nhit) && nget == old(nget)
    {
      StoreSet(store, key, val);
    }

    /** `stat`: a snapshot of the counters, with no more hits than lookups. */
    method GetStat() returns (s: Stat)
      requires Valid()
      ensures s.nhit == nhit && s.nget == nget
      ensures 0 <= s.nhit <= s.nget
    {
      s := Stat(nhit, nget);
    }
  }
}
