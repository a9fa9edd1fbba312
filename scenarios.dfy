/**
 * The behaviours the repository's tests describe (cache/lfu/lfu_test.go,
 * cache/geek_cache_test.go), and an LRU eviction, as runs of the model
 * whose outcomes are proved.
 */
module Scenarios {
  import opened Wrappers
  import opened SizeModel
  import Heap
  import Lru
  import Lfu
  import opened Cache
  import opened GeekCacheModel
  import opened KeyList

  /** The keys passed to `onEvicted`, in order. */
  function EvictedKeys(log: seq<(string, Value)>): (r: seq<string>)
    ensures |r| == |log|
    ensures forall i :: 0 <= i < |log| ==> r[i] == log[i].0
  {
    if log == [] then [] else [log[0].0] + EvictedKeys(log[1..])
  }

  /** An LFU store on amd64 in a known state. */
  ghost predicate LfuAt(c: Lfu.LfuCache, maxBytes: int, notify: bool,
                        q: seq<Heap.Slot>, used: int, log: seq<(string, Value)>)
    reads c
  {
    c.Valid() && c.maxBytes == maxBytes && c.hasOnEvicted == notify && c.arch == Amd64
    && c.queue == q && c.usedBytes == used && c.evicted == log
  }

  /** A key that no queued entry carries has no `index` in the table. */
  lemma NotQueued(q: seq<Heap.Slot>, c: map<string, int>, k: string)
    requires Lfu.Queued(q, c)
    requires forall i :: 0 <= i < |q| ==> q[i].key != k
    ensures k !in c
  {
  }

  /** Pushing an entry no lighter than the root of a two-entry heap leaves it last. */
  lemma PushNoLighter(a: Heap.Slot, b: Heap.Slot, s: Heap.Slot)
    requires a.weight <= s.weight
    ensures Heap.Push([a, b], s) == [a, b, s]
  {
    assert !Heap.Less([a, b, s], 2, 0);
  }

  /** Popping three equal-weight entries takes the root and moves the last one up. */
  lemma PopEqualThree(a: Heap.Slot, b: Heap.Slot, s: Heap.Slot)
    requires a.weight == b.weight == s.weight
    ensures Heap.Pop([a, b, s]) == ([s, b], a)
  {
    var h := Heap.SwapAt([a, b, s], 0, 2);
    assert h == [s, b, a];
    assert Heap.MinChild(h, 0, 2) == 1;
    assert Heap.Down(h, 0, 2) == (h, 0);
    assert h[..2] == [s, b];
  }

  /** One step of `TestOnEvicted`: `Set(key, v)` of a new key, with weight 0. */
  method LfuFirst() returns (c: Lfu.LfuCache)
    ensures fresh(c)
    ensures LfuAt(c, 32, true, [Heap.Slot("k1", Int(1), 0)], 16, [])
  {
    c := new Lfu.LfuCache(32, true, Amd64);
    var e1 := Heap.Slot("k1", Int(1), 0);
    assert Lfu.EntryLen(e1, Amd64) == 16;
    c.Set("k1", Int(1));
    assert Heap.Push([], e1) == [e1];
  }

  method LfuSecond(c: Lfu.LfuCache)
    requires LfuAt(c, 32, true, [Heap.Slot("k1", Int(1), 0)], 16, [])
    modifies c
    ensures LfuAt(c, 32, true, [Heap.Slot("k1", Int(1), 0), Heap.Slot("k2", Int(2), 0)], 32, [])
  {
    var e1, e2 := Heap.Slot("k1", Int(1), 0), Heap.Slot("k2", Int(2), 0);
    NotQueued(c.queue, c.cache, "k2");
    assert Lfu.EntryLen(e2, Amd64) == 16;
    c.Set("k2", Int(2));
    assert Heap.Push([e1], e2) == [e1, e2];
  }

  /**
   * A new key of weight 0 and 16 bytes into a full 32-byte store of two
   * weight-0 entries: the root `a` is evicted and `s` takes its place.
   */
  method LfuEvictingStep(c: Lfu.LfuCache, a: Heap.Slot, b: Heap.Slot, s: Heap.Slot,
                         log: seq<(string, Value)>)
    requires LfuAt(c, 32, true, [a, b], 32, log)
    requires a.weight == 0 && b.weight == 0 && s.weight == 0
    requires s.key != a.key && s.key != b.key
    requires Supported(a.value) && Lfu.EntryLen(a, Amd64) == 16
    requires Supported(s.value) && Lfu.EntryLen(s, Amd64) == 16
    modifies c
    ensures LfuAt(c, 32, true, [s, b], 32, log + [(a.key, a.value)])
  {
    NotQueued(c.queue, c.cache, s.key);
    PushNoLighter(a, b, s);
    PopEqualThree(a, b, s);
    c.Set(s.key, s.value);
  }

  method LfuThird(c: Lfu.LfuCache)
    requires LfuAt(c, 32, true, [Heap.Slot("k1", Int(1), 0), Heap.Slot("k2", Int(2), 0)], 32, [])
    modifies c
    ensures LfuAt(c, 32, true, [Heap.Slot("k3", Int(3), 0), Heap.Slot("k2", Int(2), 0)], 32, [("k1", Int(1))])
  {
    LfuEvictingStep(c, Heap.Slot("k1", Int(1), 0), Heap.Slot("k2", Int(2), 0), Heap.Slot("k3", Int(3), 0), []);
  }

  method LfuFourth(c: Lfu.LfuCache)
    requires LfuAt(c, 32, true, [Heap.Slot("k3", Int(3), 0), Heap.Slot("k2", Int(2), 0)], 32, [("k1", Int(1))])
    modifies c
    ensures LfuAt(c, 32, true, [Heap.Slot("k4", Int(4), 0), Heap.Slot("k2", Int(2), 0)], 32,
                  [("k1", Int(1)), ("k3", Int(3))])
  {
    LfuEvictingStep(c, Heap.Slot("k3", Int(3), 0), Heap.Slot("k2", Int(2), 0), Heap.Slot("k4", Int(4), 0),
                    [("k1", Int(1))]);
  }

  /**
   * `TestOnEvicted`: an LFU store of 32 bytes on amd64, where each `int`
   * entry is accounted 8 + 8 bytes. Four new keys with equal weight: the
   * third and fourth each evict the heap's root, `k1` and then `k3`.
   */
  method LfuOnEvicted() returns (keys: seq<string>, n: int)
    ensures keys == ["k1", "k3"] && n == 2
  {
    var c := LfuFirstThree();
    LfuFourth(c);
    keys := EvictedKeys(c.evicted);
    n := c.Len();
  }

  method LfuFirstThree() returns (c: Lfu.LfuCache)
    ensures fresh(c)
    ensures LfuAt(c, 32, true, [Heap.Slot("k3", Int(3), 0), Heap.Slot("k2", Int(2), 0)], 32, [("k1", Int(1))])
  {
    c := LfuFirstTwo();
    LfuThird(c);
  }

  method LfuFirstTwo() returns (c: Lfu.LfuCache)
    ensures fresh(c)
    ensures LfuAt(c, 32, true, [Heap.Slot("k1", Int(1), 0), Heap.Slot("k2", Int(2), 0)], 32, [])
  {
    c := LfuFirst();
    LfuSecond(c);
  }

  /** The first half of `TestSetGet`: `DelOldest` on an empty store is harmless, then `k1` is set. */
  method LfuSetOne() returns (c: Lfu.LfuCache)
    ensures fresh(c)
    ensures LfuAt(c, 24, false, [Heap.Slot("k1", Int(1), 0)], 16, [])
  {
    c := new Lfu.LfuCache(24, false, Amd64);
    c.DelOldest();
    var e1 := Heap.Slot("k1", Int(1), 0);
    assert Lfu.EntryLen(e1, Amd64) == 16;
    c.Set("k1", Int(1));
    assert Heap.Push([], e1) == [e1];
  }

  /** `TestSetGet`: the value set is read back, and deleting it leaves the store empty. */
  method LfuSetGet() returns (v: Option<Value>, n: int)
    ensures v == Some(Int(1)) && n == 0
  {
    var c := LfuSetOne();
    Lfu.EntriesKeys(c.queue, c.cache);
    v := c.Get("k1");
    Lfu.EntriesKeys(c.queue, c.cache);
    c.Del("k1");
    Lfu.EntriesKeys(c.queue, c.cache);
    n := c.Len();
  }

  /** An LRU store of 16 bytes on amd64 holding `k1` then `k2`. */
  method LruFilled() returns (c: Lru.LruCache)
    ensures fresh(c) && c.Valid()
    ensures c.maxBytes == 16 && c.hasOnEvicted && c.arch == Amd64
    ensures c.order == ["k1", "k2"] && c.table == map["k1" := Int(1), "k2" := Int(2)]
    ensures c.usedBytes == 16 && c.evicted == []
  {
    c := new Lru.LruCache(16, true, Amd64);
    c.Set("k1", Int(1));
    c.Set("k2", Int(2));
  }

  /**
   * An LRU store of 16 bytes on amd64 with two `int`s: reading `k1` makes
   * `k2` the least recently used, so the next new key evicts `k2`.
   */
  method LruEvictsLeastRecent() returns (log: seq<(string, Value)>, held: set<string>)
    ensures log == [("k2", Int(2))] && held == {"k1", "k3"}
  {
    var c := LruFilled();
    var _ := c.Get("k1");
    assert c.order == ["k2", "k1"];
    c.Set("k3", Int(3));
    log := c.evicted;
    held := c.table.Keys;
  }

  /** The five rows of the test's database. */
  const Db: map<string, string> :=
    map["key1" := "value1", "key2" := "value2", "key3" := "value3", "key4" := "value4", "key5" := "value5"]

  /** The test's getter: the database row, or `nil`. */
  function FromDb(key: string): (r: Option<Value>)
    ensures r.Some? <==> key in Db
    ensures r.Some? ==> r.value == Str(Db[key]) && Supported(r.value)
  {
    if key in Db then Some(Str(Db[key])) else None
  }

  /** Two lookups of one key through an unbounded store: a fill, then a hit. */
  method GetTwice(g: GeekCache, key: string) returns (r1: Option<Value>, r2: Option<Value>)
    requires g.Valid() && g.getter == Some(FromDb) && !MayEvict(g.cache.store) && !g.cache.store.NoStore?
    requires key in Db && key !in g.Held()
    modifies g.cache, Repr(g.cache.store)
    ensures g.Valid()
    ensures r1 == r2 == Some(Str(Db[key]))
    ensures g.Held() == old(g.Held())[key := Str(Db[key])]
    ensures g.cache.nget == old(g.cache.nget) + 2 && g.cache.nhit == old(g.cache.nhit) + 1
  {
    r1 := g.Get(key);
    r2 := g.Get(key);
  }

  /** Two lookups of a key the database lacks: both miss, and nothing is stored. */
  method UnknownTwice(g: GeekCache) returns (r1: Option<Value>, r2: Option<Value>)
    requires g.Valid() && g.getter == Some(FromDb) && "unknown" !in g.Held()
    modifies g.cache, Repr(g.cache.store)
    ensures g.Valid()
    ensures r1 == r2 == None
    ensures g.Held() == old(g.Held())
    ensures g.cache.nget == old(g.cache.nget) + 2 && g.cache.nhit == old(g.cache.nhit)
  {
    assert "unknown" !in Db;
    r1 := g.Get("unknown");
    r2 := g.Get("unknown");
  }

  /**
   * `TestCacheGet`, one goroutine after another: over an unbounded LRU
   * store, each of five keys is read twice and an unknown key twice; that
   * is 12 lookups, of which the 5 second reads hit.
   */
  method GeekStat() returns (s: Stat)
    ensures s == Stat(5, 12)
  {
    var lru := new Lru.LruCache(0, false, Amd64);
    var g := new GeekCache(Some(FromDb), LruStore(lru));
    ReadAllTwice(g);
    var _, _ := UnknownTwice(g);
    s := g.GetStat();
  }

  /** The goroutines of `TestCacheGet`, one after another: each row is read twice. */
  method ReadAllTwice(g: GeekCache)
    requires g.Valid() && g.getter == Some(FromDb) && !MayEvict(g.cache.store) && !g.cache.store.NoStore?
    requires g.Held() == map[] && g.cache.nget == 0 && g.cache.nhit == 0
    modifies g.cache, Repr(g.cache.store)
    ensures g.Valid() && "unknown" !in g.Held()
    ensures g.cache.nget == 10 && g.cache.nhit == 5
  {
    var keys := ["key1", "key2", "key3", "key4", "key5"];
    assert Distinct(keys);
    var i := 0;
    while i < |keys|
      invariant 0 <= i <= |keys|
      invariant g.Valid()
      invariant forall j :: i <= j < |keys| ==> keys[j] in Db && keys[j] !in g.Held()
      invariant "unknown" !in g.Held()
      invariant g.cache.nget == 2 * i && g.cache.nhit == i
    {
      var _, _ := GetTwice(g, keys[i]);
      i := i + 1;
    }
  }
}
