/**
 * The frequency-order store of cache/lfu/lfu.go. Go keeps every entry
 * (key, value, weight, index) behind one pointer shared by the `cache` map
 * and the `queue` min-heap on weight. Here the queue holds the entries
 * themselves, as heap slots, and the table maps each key to its entry's
 * `index`: the entry's position in the queue, or -1 once `queue.Pop` has
 * taken it off.
 */
module Lfu {
  import opened Wrappers
  import opened SizeModel
  import opened KeyList
  import opened Heap

  /** `entry.Len`: the value's size plus 4 bytes each for `weight` and `index`. */
  function EntryLen(e: Slot, arch: Arch): (n: int)
    requires Supported(e.value)
  {
    Size(e.value, arch) + 4 + 4
  }

  /** An entry is accounted as what `CalcLen` reports for its value, plus 8. */
  lemma EntryLenIsCalcLen(e: Slot, arch: Arch)
    requires Supported(e.value)
    ensures CalcLen(e.value, arch) == Success(EntryLen(e, arch) - 8)
  {
  }

  /** Every entry's value can be sized. */
  ghost predicate Sizable(m: multiset<Slot>) {
    forall s :: s in m ==> Supported(s.value)
  }

  /** The sum of `entry.Len` over some entries. */
  ghost function Total(m: multiset<Slot>, arch: Arch): int
    requires Sizable(m)
    decreases |m|
  {
    if m == multiset{} then 0
    else
      var s :| s in m;
      EntryLen(s, arch) + Total(m - multiset{s}, arch)
  }

  /** Taking any one entry out subtracts exactly its size. */
  lemma {:induction false} TotalRemove(m: multiset<Slot>, s: Slot, arch: Arch)
    requires Sizable(m) && s in m
    ensures Total(m, arch) == EntryLen(s, arch) + Total(m - multiset{s}, arch)
    decreases |m|
  {
    var s' :| s' in m && Total(m, arch) == EntryLen(s', arch) + Total(m - multiset{s'}, arch);
    if s' != s {
      var rest := m - multiset{s'} - multiset{s};
      assert rest == m - multiset{s} - multiset{s'};
      assert Total(m - multiset{s'}, arch) == EntryLen(s, arch) + Total(rest, arch) by {
        TotalRemove(m - multiset{s'}, s, arch);
      }
      assert Total(m - multiset{s}, arch) == EntryLen(s', arch) + Total(rest, arch) by {
        TotalRemove(m - multiset{s}, s', arch);
      }
    }
  }

  /** Adding one entry adds exactly its size. */
  lemma TotalAdd(m: multiset<Slot>, s: Slot, arch: Arch)
    requires Sizable(m) && Supported(s.value)
    ensures Sizable(m + multiset{s})
    ensures Total(m + multiset{s}, arch) == Total(m, arch) + EntryLen(s, arch)
  {
    TotalRemove(m + multiset{s}, s, arch);
    assert m + multiset{s} - multiset{s} == m;
  }

  /**
   * What `removeElement` leaves once `e` is off the queue with `index` -1:
   * the table without `e.key` agrees with the queue again, and the byte
   * count is exact once `e`'s size is taken off.
   */
  lemma Dropped(q: seq<Slot>, c: map<string, int>, used: int, e: Slot, arch: Arch)
    requires Placed(q, c) && QueuedBut(q, c, e.key) && e.key in c && c[e.key] == -1
    requires Sizable(multiset(q) + multiset{e}) && used == Total(multiset(q) + multiset{e}, arch)
    ensures Placed(q, c - {e.key}) && Queued(q, c - {e.key})
    ensures Sizable(multiset(q)) && used - EntryLen(e, arch) == Total(multiset(q), arch)
  {
    assert multiset(q) + multiset{e} - multiset{e} == multiset(q);
    TotalRemove(multiset(q) + multiset{e}, e, arch);
  }

  /** Each queue position holds an entry whose table `index` is that position. */
  ghost predicate Placed(q: seq<Slot>, c: map<string, int>) {
    forall i :: 0 <= i < |q| ==> q[i].key in c && c[q[i].key] == i
  }

  /** Each key of the table has its entry in the queue, at its `index`. */
  ghost predicate Queued(q: seq<Slot>, c: map<string, int>) {
    forall k :: k in c ==> 0 <= c[k] < |q| && q[c[k]].key == k
  }

  /** `Queued` for every key but `x`. */
  ghost predicate QueuedBut(q: seq<Slot>, c: map<string, int>, x: string) {
    forall k :: k in c && k != x ==> 0 <= c[k] < |q| && q[c[k]].key == k
  }

  /** The entries the table reaches: Go's `cache` map, seen through the pointers. */
  ghost function EntriesOf(q: seq<Slot>, c: map<string, int>): map<string, Slot> {
    map k | k in c && 0 <= c[k] < |q| :: q[c[k]]
  }

  /** The value of each key. */
  ghost function ValuesOf(es: map<string, Slot>): map<string, Value> {
    map k | k in es :: es[k].value
  }

  /** Rewriting one entry rewrites that key's value. */
  lemma ValuesOfWrite(es: map<string, Slot>, k: string, s: Slot)
    ensures ValuesOf(es[k := s]) == ValuesOf(es)[k := s.value]
  {
  }

  /** Removing one entry removes that key's value. */
  lemma ValuesOfRemove(es: map<string, Slot>, k: string)
    ensures ValuesOf(es - {k}) == ValuesOf(es) - {k}
  {
  }

  /** `k`'s entry has the least weight of `es`. */
  ghost predicate Lightest(es: map<string, Slot>, k: string) {
    k in es && forall k' :: k' in es ==> es[k].weight <= es[k'].weight
  }

  /** The table's keys are exactly the keys with entries, each reaching the entry at its `index`. */
  lemma EntriesKeys(q: seq<Slot>, c: map<string, int>)
    requires Queued(q, c)
    ensures EntriesOf(q, c).Keys == c.Keys
    ensures forall k :: k in c ==> EntriesOf(q, c)[k] == q[c[k]]
  {
  }

  /** An entry in a placed queue is found through its key's `index`. */
  lemma Located(q: seq<Slot>, c: map<string, int>, s: Slot)
    requires Placed(q, c) && s in multiset(q)
    ensures s.key in c && 0 <= c[s.key] < |q| && q[c[s.key]] == s
  {
    assert s in q;
    var i :| 0 <= i < |q| && q[i] == s;
  }

  /** Every entry of a queue that fits in a bigger one has the same entry there. */
  lemma EntriesWithin(q: seq<Slot>, c: map<string, int>, q': seq<Slot>, c': map<string, int>)
    requires Placed(q, c) && Placed(q', c') && Queued(q', c')
    requires multiset(q') <= multiset(q)
    ensures forall k :: k in EntriesOf(q', c') ==> k in EntriesOf(q, c) && EntriesOf(q', c')[k] == EntriesOf(q, c)[k]
  {
    forall k | k in EntriesOf(q', c')
      ensures k in EntriesOf(q, c) && EntriesOf(q', c')[k] == EntriesOf(q, c)[k]
    {
      var s := q'[c'[k]];
      assert s in multiset(q');
      Located(q, c, s);
    }
  }

  /** Heap moves change only where entries sit, not which entry each key reaches. */
  lemma EntriesMoved(q: seq<Slot>, c: map<string, int>, q': seq<Slot>, c': map<string, int>)
    requires Placed(q, c) && Queued(q, c) && Placed(q', c') && Queued(q', c')
    requires multiset(q') == multiset(q) && c'.Keys == c.Keys
    ensures EntriesOf(q', c') == EntriesOf(q, c)
  {
    EntriesWithin(q, c, q', c');
  }

  /** Taking entry `e` out of queue and table takes it out of the entries. */
  lemma EntriesRemoved(q: seq<Slot>, c: map<string, int>, q': seq<Slot>, c': map<string, int>, e: Slot)
    requires Placed(q, c) && Queued(q, c) && Placed(q', c') && Queued(q', c')
    requires multiset(q) == multiset(q') + multiset{e} && c'.Keys == c.Keys - {e.key}
    ensures e.key in EntriesOf(q, c) && EntriesOf(q, c)[e.key] == e
    ensures EntriesOf(q', c') == EntriesOf(q, c) - {e.key}
  {
    Located(q, c, e);
    EntriesWithin(q, c, q', c');
  }

  /** Adding entry `e` under a new key adds it to the entries. */
  lemma EntriesAdded(q: seq<Slot>, c: map<string, int>, q': seq<Slot>, c': map<string, int>, e: Slot)
    requires Placed(q, c) && Queued(q, c) && Placed(q', c') && Queued(q', c')
    requires multiset(q') == multiset(q) + multiset{e} && c'.Keys == c.Keys + {e.key} && e.key !in c
    ensures EntriesOf(q', c') == EntriesOf(q, c)[e.key := e]
  {
    EntriesWithin(q', c', q, c);
    Located(q', c', e);
  }

  /** Rewriting the entry at one position rewrites that key's entry. */
  lemma EntriesWritten(q: seq<Slot>, c: map<string, int>, i: nat, s: Slot)
    requires Placed(q, c) && Queued(q, c) && i < |q| && s.key == q[i].key
    ensures Placed(q[i := s], c) && Queued(q[i := s], c)
    ensures EntriesOf(q[i := s], c) == EntriesOf(q, c)[s.key := s]
  {
  }

  /** The root of a placed heap is the lightest entry. */
  lemma PopLightest(q: seq<Slot>, c: map<string, int>)
    requires Placed(q, c) && Queued(q, c) && IsHeap(q) && |q| > 0
    ensures q[0].key in EntriesOf(q, c) && EntriesOf(q, c)[q[0].key] == q[0]
    ensures Lightest(EntriesOf(q, c), q[0].key)
  {
    var es := EntriesOf(q, c);
    forall k | k in es ensures q[0].weight <= es[k].weight {
      RootIsLightest(q, c[k]);
    }
  }

  /** Rewriting one entry swaps its size for the new one's. */
  lemma TotalWritten(q: seq<Slot>, i: nat, s: Slot, arch: Arch)
    requires Sizable(multiset(q)) && i < |q| && Supported(s.value)
    ensures Sizable(multiset(q[i := s]))
    ensures Total(multiset(q[i := s]), arch) == Total(multiset(q), arch) - EntryLen(q[i], arch) + EntryLen(s, arch)
  {
    WriteMultiset(q, i, s);
    assert q[i] in multiset(q);
    TotalRemove(multiset(q), q[i], arch);
    TotalAdd(multiset(q) - multiset{q[i]}, s, arch);
  }

  /**
   * What `queue.update` on a valid store leaves: a heap, the new entry
   * reached by its key, and the byte count exact once the value's size
   * change is applied.
   */
  lemma Reweighed(q: seq<Slot>, c: map<string, int>, used: int, q': seq<Slot>, c': map<string, int>,
                  i: nat, s: Slot, arch: Arch)
    requires Placed(q, c) && Queued(q, c) && IsHeap(q) && Sizable(multiset(q)) && used == Total(multiset(q), arch)
    requires i < |q| && s.key == q[i].key && Supported(s.value)
    requires Placed(q', c') && Queued(q', c') && c'.Keys == c.Keys && q' == Fix(q[i := s], i)
    ensures Placed(q', c') && Queued(q', c') && IsHeap(q') && Sizable(multiset(q'))
    ensures used - Size(q[i].value, arch) + Size(s.value, arch) == Total(multiset(q'), arch)
    ensures EntriesOf(q', c') == EntriesOf(q, c)[s.key := s]
  {
    EntriesWritten(q, c, i, s);
    FixAfterWrite(q, i, s);
    TotalWritten(q, i, s, arch);
    EntriesMoved(q[i := s], c, q', c');
  }

  /** What `heap.Push` of a new key's entry leaves: a heap, the entry added, its size added. */
  lemma Pushed(q: seq<Slot>, c: map<string, int>, q': seq<Slot>, c': map<string, int>, e: Slot, arch: Arch)
    requires Placed(q, c) && Queued(q, c) && IsHeap(q) && Sizable(multiset(q))
    requires e.key !in c && Supported(e.value)
    requires Placed(q', c') && Queued(q', c') && c'.Keys == c.Keys + {e.key} && q' == Push(q, e)
    ensures IsHeap(q') && Sizable(multiset(q'))
    ensures Total(multiset(q'), arch) == Total(multiset(q), arch) + EntryLen(e, arch)
    ensures EntriesOf(q', c') == EntriesOf(q, c)[e.key := e]
  {
    PushKeepsHeap(q, e);
    TotalAdd(multiset(q), e, arch);
    EntriesAdded(q, c, q', c', e);
  }

  /** The keys of a queue, in queue order. */
  function KeysOf(q: seq<Slot>): (r: seq<string>)
    ensures |r| == |q| && forall i :: 0 <= i < |q| ==> r[i] == q[i].key
  {
    seq(|q|, i requires 0 <= i < |q| => q[i].key)
  }

  /** A placed and queued table has one key per queue position. */
  lemma {:induction false} TableSize(q: seq<Slot>, c: map<string, int>)
    requires Placed(q, c) && Queued(q, c)
    ensures |c| == |q|
  {
    var ks := KeysOf(q);
    forall i, j | 0 <= i < j < |ks| ensures ks[i] != ks[j] {
      assert c[q[i].key] == i && c[q[j].key] == j;
    }
    forall x ensures x in ks <==> x in c.Keys {
      if x in c {
        assert ks[c[x]] == x;
      }
    }
    DistinctLength(ks, c.Keys);
  }

  class LfuCache {
    /** The byte budget; zero or negative means unbounded. */
    const maxBytes: int
    /** Whether an `onEvicted` callback was given to `New`. */
    const hasOnEvicted: bool
    /** The build target `CalcLen` sizes for. */
    const arch: Arch
    var usedBytes: int
    /** `queue`: the entries, in heap order. */
    var queue: seq<Slot>
    /** `cache`: each key's entry, by its `index`. */
    var cache: map<string, int>
    /** The `(key, value)` calls made to `onEvicted`, oldest first. */
    var evicted: seq<(string, Value)>

    /** The store's invariant: queue and table agree, the queue is a heap, `usedBytes` is exact. */
    ghost predicate Valid()
      reads this
    {
      Placed(queue, cache) && Queued(queue, cache) && IsHeap(queue)
      && Sizable(multiset(queue)) && usedBytes == Total(multiset(queue), arch)
    }

    /** `Valid`, except that `e` was just taken off the queue and has `index` -1. */
    ghost predicate Detached(e: Slot)
      reads this
    {
      Placed(queue, cache) && QueuedBut(queue, cache, e.key) && IsHeap(queue)
      && e.key in cache && cache[e.key] == -1
      && Sizable(multiset(queue) + multiset{e})
      && usedBytes == Total(multiset(queue) + multiset{e}, arch)
    }

    /** What the store holds: each key's entry. */
    ghost function Entries(): map<string, Slot>
      reads this
    {
      EntriesOf(queue, cache)
    }

    /** What one removal of `(k, v)` adds to the callback log. */
    function Notify(k: string, v: Value): seq<(string, Value)> {
      if hasOnEvicted then [(k, v)] else []
    }

    /** `New(maxBytes, onEvicted)`: an empty store. */
    constructor (maxBytes: int, hasOnEvicted: bool, arch: Arch)
      ensures Valid()
      ensures this.maxBytes == maxBytes && this.hasOnEvicted == hasOnEvicted && this.arch == arch
      ensures queue == [] && cache == map[] && usedBytes == 0 && evicted == []
    {
      this.maxBytes := maxBytes;
      this.hasOnEvicted := hasOnEvicted;
      this.arch := arch;
      usedBytes := 0;
      queue := [];
      cache := map[];
      evicted := [];
    }

    /** `queue.Swap(i, j)`: exchange two entries and rewrite both `index`es. */
    method Swap(i: nat, j: nat)
      requires Placed(queue, cache) && Queued(queue, cache) && i < |queue| && j < |queue|
      modifies `queue, `cache
      ensures Placed(queue, cache) && Queued(queue, cache)
      ensures queue == SwapAt(old(queue), i, j) && cache.Keys == old(cache).Keys
      ensures cache == old(cache)[old(queue)[j].key := i][old(queue)[i].key := j]
    {
      queue := queue[i := queue[j]][j := queue[i]];
      cache := cache[queue[i].key := i];
      cache := cache[queue[j].key := j];
      forall k | k in cache ensures 0 <= cache[k] < |queue| && queue[cache[k]].key == k {
        if k != queue[i].key && k != queue[j].key {
          assert old(cache)[k] != i && old(cache)[k] != j;
        }
      }
    }

    /** `queue.Push(e)`: `e` gets `index = len(queue)` and is appended. */
    method QueuePush(e: Slot)
      requires Placed(queue, cache) && Queued(queue, cache) && e.key !in cache
      modifies `queue, `cache
      ensures Placed(queue, cache) && Queued(queue, cache)
      ensures queue == old(queue) + [e]
      ensures cache == old(cache)[e.key := |old(queue)|]
    {
      cache := cache[e.key := |queue|];
      queue := queue + [e];
    }

    /** `queue.Pop()`: the last entry gets `index = -1` and leaves the queue. */
    method QueuePop() returns (e: Slot)
      requires Placed(queue, cache) && Queued(queue, cache) && |queue| > 0
      modifies `queue, `cache
      ensures Placed(queue, cache) && QueuedBut(queue, cache, e.key)
      ensures e == old(queue)[|old(queue)| - 1] && queue == old(queue)[..|old(queue)| - 1]
      ensures cache == old(cache)[e.key := -1] && cache.Keys == old(cache).Keys
    {
      var n := |queue|;
      e := queue[n - 1];
      cache := cache[e.key := -1];
      queue := queue[..n - 1];
      forall i | 0 <= i < |queue| ensures queue[i].key in cache && cache[queue[i].key] == i {
        assert old(cache)[old(queue)[i].key] == i;
      }
    }

    /** `up(h, j)` of `container/heap`. */
    method HeapUp(j0: nat)
      requires Placed(queue, cache) && Queued(queue, cache) && j0 < |queue|
      modifies `queue, `cache
      ensures Placed(queue, cache) && Queued(queue, cache)
      ensures queue == Heap.Up(old(queue), j0) && cache.Keys == old(cache).Keys
    {
      var j: nat := j0;
      while true
        invariant Placed(queue, cache) && Queued(queue, cache)
        invariant j < |queue| && |queue| == |old(queue)| && cache.Keys == old(cache).Keys
        invariant Heap.Up(queue, j) == Heap.Up(old(queue), j0)
        decreases j
      {
        // Go's `(j - 1) / 2` truncates toward zero: the parent of 0 is 0.
        var i: nat := if j == 0 then 0 else (j - 1) / 2;
        if i == j || !Heap.Less(queue, j, i) {
          UpStop(queue, j);
          break;
        }
        UpStep(queue, j, i);
        Swap(i, j);
        j := i;
      }
    }

    /** One pass of the loop in `down`: stop, or swap slot `i` with its lighter child `j`. */
    method DownOnce(i: nat, n: nat) returns (j: nat, stop: bool)
      requires Placed(queue, cache) && Queued(queue, cache) && i < |queue| && n <= |queue|
      modifies `queue, `cache
      ensures Placed(queue, cache) && Queued(queue, cache) && cache.Keys == old(cache).Keys
      ensures |queue| == |old(queue)|
      ensures stop ==> queue == old(queue) && Heap.Down(old(queue), i, n) == (old(queue), i)
      ensures !stop ==> i < j < |queue| && Heap.Down(queue, j, n) == Heap.Down(old(queue), i, n)
    {
      var j1 := 2 * i + 1;
      if j1 >= n {
        DownLeaf(queue, i, n);
        return 0, true;
      }
      j := j1;
      if j1 + 1 < n && Heap.Less(queue, j1 + 1, j1) {
        j := j1 + 1;
      }
      if !Heap.Less(queue, j, i) {
        DownStop(queue, i, n, j);
        return j, true;
      }
      DownStep(queue, i, n, j);
      Swap(i, j);
      stop := false;
    }

    /** `down(h, i0, n)` of `container/heap`; `moved` is its result, `i > i0`. */
    method HeapDown(i0: nat, n: nat) returns (moved: bool)
      requires Placed(queue, cache) && Queued(queue, cache) && i0 < |queue| && n <= |queue|
      modifies `queue, `cache
      ensures Placed(queue, cache) && Queued(queue, cache)
      ensures queue == Heap.Down(old(queue), i0, n).0 && cache.Keys == old(cache).Keys
      ensures moved == (Heap.Down(old(queue), i0, n).1 > i0)
    {
      var i: nat := i0;
      while true
        invariant Placed(queue, cache) && Queued(queue, cache)
        invariant i0 <= i < |queue| && |queue| == |old(queue)| && cache.Keys == old(cache).Keys
        invariant Heap.Down(queue, i, n) == Heap.Down(old(queue), i0, n)
        decreases |queue| - i
      {
        var j, stop := DownOnce(i, n);
        if stop {
          break;
        }
        i := j;
      }
      moved := i > i0;
    }

    /** `heap.Push(h, e)`. */
    method HeapPush(e: Slot)
      requires Placed(queue, cache) && Queued(queue, cache) && e.key !in cache
      modifies `queue, `cache
      ensures Placed(queue, cache) && Queued(queue, cache)
      ensures queue == Heap.Push(old(queue), e) && cache.Keys == old(cache).Keys + {e.key}
    {
      QueuePush(e);
      HeapUp(|queue| - 1);
    }

    /** `heap.Pop(h)`: the popped entry keeps its table key, with `index = -1`. */
    method HeapPop() returns (e: Slot)
      requires Placed(queue, cache) && Queued(queue, cache) && |queue| > 0
      modifies `queue, `cache
      ensures Placed(queue, cache) && QueuedBut(queue, cache, e.key)
      ensures queue == Heap.Pop(old(queue)).0 && e == Heap.Pop(old(queue)).1
      ensures cache.Keys == old(cache).Keys && e.key in cache && cache[e.key] == -1
    {
      var n := |queue| - 1;
      ghost var h := queue;
      Swap(0, n);
      var _ := HeapDown(0, n);
      ghost var d := queue;
      e := QueuePop();
      assert Heap.Pop(h) == (d[..n], d[n]);
    }

    /** `if !down(h, i, n) { up(h, i) }` in `heap.Fix` and `heap.Remove`. */
    method HeapSettle(i: nat, n: nat)
      requires Placed(queue, cache) && Queued(queue, cache) && i < n <= |queue|
      modifies `queue, `cache
      ensures Placed(queue, cache) && Queued(queue, cache)
      ensures queue == Heap.Settle(old(queue), i, n) && cache.Keys == old(cache).Keys
    {
      var moved := HeapDown(i, n);
      if !moved {
        HeapUp(i);
      }
    }

    /** The first half of `heap.Remove(h, i)`: swap slot `i` to the end and settle the rest. */
    method MoveToEnd(i: nat)
      requires Placed(queue, cache) && Queued(queue, cache) && i < |queue|
      modifies `queue, `cache
      ensures Placed(queue, cache) && Queued(queue, cache) && cache.Keys == old(cache).Keys
      ensures queue == Heap.Detach(old(queue), i)
    {
      var n := |queue| - 1;
      if n != i {
        ghost var h := queue;
        Swap(i, n);
        HeapSettle(i, n);
        assert queue == Heap.Settle(SwapAt(h, i, n), i, n);
        DetachInner(h, i);
      }
    }

    /** `heap.Remove(h, i)`: the removed entry keeps its table key, with `index = -1`. */
    method HeapRemove(i: nat) returns (e: Slot)
      requires Placed(queue, cache) && Queued(queue, cache) && i < |queue|
      modifies `queue, `cache
      ensures Placed(queue, cache) && QueuedBut(queue, cache, e.key)
      ensures queue == Heap.Remove(old(queue), i).0 && e == Heap.Remove(old(queue), i).1
      ensures cache.Keys == old(cache).Keys && e.key in cache && cache[e.key] == -1
    {
      MoveToEnd(i);
      e := QueuePop();
    }

    /** `heap.Fix(h, i)`: sift down, and only if nothing moved, sift up. */
    method HeapFix(i: nat)
      requires Placed(queue, cache) && Queued(queue, cache) && i < |queue|
      modifies `queue, `cache
      ensures Placed(queue, cache) && Queued(queue, cache)
      ensures queue == Heap.Fix(old(queue), i) && cache.Keys == old(cache).Keys
    {
      HeapSettle(i, |queue|);
    }

    /** `queue.update(e, value, weight)` for the entry of `key`: rewrite it, then fix its position. */
    method Update(key: string, value: Value, weight: int)
      requires Placed(queue, cache) && Queued(queue, cache) && key in cache
      modifies `queue, `cache
      ensures Placed(queue, cache) && Queued(queue, cache)
      ensures queue == Heap.Fix(old(queue)[old(cache)[key] := Slot(key, value, weight)], old(cache)[key])
      ensures cache.Keys == old(cache).Keys
    {
      var i := cache[key];
      queue := queue[i := Slot(key, value, weight)];
      HeapFix(i);
    }

    /** `Len`: the queue length, which is the number of entries. */
    method Len() returns (n: int)
      requires Valid()
      ensures n == |queue| && n == |cache|
    {
      n := |queue|;
      TableSize(queue, cache);
    }

    /**
     * `removeElement`: `x` is the entry just taken off the queue, or `nil`.
     * The key leaves the table, the entry's size leaves `usedBytes`, and the
     * callback sees it once.
     */
    method RemoveElement(x: Option<Slot>)
      requires x.None? ==> Valid()
      requires x.Some? ==> Detached(x.value)
      modifies `cache, `usedBytes, `evicted
      ensures Valid()
      ensures x.None? ==> cache == old(cache) && usedBytes == old(usedBytes) && evicted == old(evicted)
      ensures x.Some? ==>
        cache == old(cache) - {x.value.key}
        && usedBytes == old(usedBytes) - EntryLen(x.value, arch)
        && evicted == old(evicted) + Notify(x.value.key, x.value.value)
    {
      if x.None? {
        return;
      }
      var e := x.value;
      Dropped(queue, cache, usedBytes, e, arch);
      cache := cache - {e.key};
      usedBytes := usedBytes - EntryLen(e, arch);
      evicted := evicted + Notify(e.key, e.value);
    }

    /** `Del`: take `key`'s entry out of the heap and remove it; an absent key changes nothing. */
    method Del(key: string)
      requires Valid()
      modifies this
      ensures Valid()
      ensures key !in old(cache) ==>
        queue == old(queue) && cache == old(cache) && usedBytes == old(usedBytes) && evicted == old(evicted)
      ensures key in old(cache) ==>
        var e := old(queue)[old(cache)[key]];
        queue == Heap.Remove(old(queue), old(cache)[key]).0
        && Entries() == old(Entries()) - {key}
        && usedBytes == old(usedBytes) - EntryLen(e, arch)
        && evicted == old(evicted) + Notify(key, e.value)
    {
      if key in cache {
        ghost var q0, c0 := queue, cache;
        var e := HeapRemove(cache[key]);
        RemoveKeepsHeap(q0, c0[key]);
        RemoveElement(Some(e));
        EntriesRemoved(q0, c0, queue, cache, e);
      }
    }

    /**
     * `DelOldest`: pop the root of the heap, the lightest entry, and remove
     * it; a no-op on an empty store.
     */
    method DelOldest()
      requires Valid()
      modifies this
      ensures Valid()
      ensures old(queue) == [] ==>
        queue == old(queue) && cache == old(cache) && usedBytes == old(usedBytes) && evicted == old(evicted)
      ensures old(queue) != [] ==>
        var e := old(queue)[0];
        queue == Heap.Pop(old(queue)).0
        && Lightest(old(Entries()), e.key)
        && Entries() == old(Entries()) - {e.key}
        && usedBytes == old(usedBytes) - EntryLen(e, arch)
        && evicted == old(evicted) + Notify(e.key, e.value)
    {
      if |queue| == 0 {
        return;
      }
      ghost var q0, c0 := queue, cache;
      PopLightest(q0, c0);
      var e := HeapPop();
      PopKeepsHeap(q0);
      RemoveElement(Some(e));
      EntriesRemoved(q0, c0, queue, cache, e);
    }

    /**
     * `Get`: the stored value, or absent. A hit adds one to the entry's
     * weight and fixes its place in the heap; values and `usedBytes` stay.
     */
    method Get(key: string) returns (r: Option<Value>)
      requires Valid()
      modifies this
      ensures Valid()
      ensures r.Some? <==> key in old(cache)
      ensures key !in old(cache) ==> queue == old(queue) && cache == old(cache)
      ensures key in old(cache) ==>
        var e := old(queue)[old(cache)[key]];
        r.value == e.value
        && queue == Heap.Fix(old(queue)[old(cache)[key] := Slot(key, e.value, e.weight + 1)], old(cache)[key])
        && Entries() == old(Entries())[key := Slot(key, e.value, e.weight + 1)]
      ensures usedBytes == old(usedBytes) && evicted == old(evicted)
    {
      if key in cache {
        var e := queue[cache[key]];
        Rewrite(key, e.value, e.weight + 1);
        r := Some(e.value);
      } else {
        r := None;
      }
    }

    /**
     * `queue.update` for `key`'s entry, with `usedBytes` adjusted by the
     * change in the value's size first, as `Set` does (for `Get`, whose
     * value stays, the change is zero): the store stays valid and the key
     * reaches the new entry.
     */
    method Rewrite(key: string, value: Value, weight: int)
      requires Valid() && key in cache && Supported(value)
      modifies `queue, `cache, `usedBytes
      ensures Valid()
      ensures queue == Heap.Fix(old(queue)[old(cache)[key] := Slot(key, value, weight)], old(cache)[key])
      ensures Entries() == old(Entries())[key := Slot(key, value, weight)]
      ensures usedBytes == old(usedBytes) - Size(old(queue)[old(cache)[key]].value, arch) + Size(value, arch)
    {
      ghost var q0, c0, u0 := queue, cache, usedBytes;
      usedBytes := usedBytes - Size(queue[cache[key]].value, arch) + Size(value, arch);
      Update(key, value, weight);
      Reweighed(q0, c0, u0, queue, cache, c0[key], Slot(key, value, weight), arch);
    }

    /** `heap.Push` of a new key's entry, the table insert and the `usedBytes` increase of `Set`. */
    method Add(e: Slot)
      requires Valid() && e.key !in cache && Supported(e.value)
      modifies `queue, `cache, `usedBytes
      ensures Valid() && cache.Keys == old(cache).Keys + {e.key}
      ensures queue == Heap.Push(old(queue), e)
      ensures Entries() == old(Entries())[e.key := e]
      ensures usedBytes == old(usedBytes) + EntryLen(e, arch)
    {
      ghost var q0, c0 := queue, cache;
      HeapPush(e);
      usedBytes := usedBytes + EntryLen(e, arch);
      Pushed(q0, c0, queue, cache, e, arch);
    }

    /**
     * The existing-key branch of `Set`: `usedBytes` swaps the old value's
     * size for the new one's, then the entry takes the new value and one
     * more weight; nothing is evicted.
     */
    method Replace(key: string, val: Value)
      requires Valid() && key in cache && Supported(val)
      modifies `queue, `cache, `usedBytes
      ensures Valid()
      ensures queue == Heap.Fix(old(queue)[old(cache)[key] := Slot(key, val, old(queue)[old(cache)[key]].weight + 1)], old(cache)[key])
      ensures Entries() == old(Entries())[key := Slot(key, val, old(queue)[old(cache)[key]].weight + 1)]
      ensures usedBytes == old(usedBytes) + Size(val, arch) - Size(old(queue)[old(cache)[key]].value, arch)
    {
      var e := queue[cache[key]];
      Rewrite(key, val, e.weight + 1);
    }

    /**
     * The new-key branch of `Set`: the entry enters with weight 0; if that
     * takes `usedBytes` over a positive budget, the root of the heap, the
     * lightest entry, is evicted once.
     */
    method Insert(key: string, val: Value)
      requires Valid() && key !in cache && Supported(val)
      modifies this
      ensures Valid()
      ensures Sizable(multiset(Heap.Push(old(queue), Slot(key, val, 0))))
      ensures var e := Slot(key, val, 0);
        var pushed := Heap.Push(old(queue), e);
        var used := old(usedBytes) + EntryLen(e, arch);
        if maxBytes > 0 && used > maxBytes then
          queue == Heap.Pop(pushed).0
          && Lightest(old(Entries())[key := e], pushed[0].key)
          && Entries() == old(Entries())[key := e] - {pushed[0].key}
          && usedBytes == used - EntryLen(pushed[0], arch)
          && evicted == old(evicted) + Notify(pushed[0].key, pushed[0].value)
        else
          queue == pushed && Entries() == old(Entries())[key := e]
          && usedBytes == used && evicted == old(evicted)
    {
      Add(Slot(key, val, 0));
      EvictIfOver();
    }

    /** The budget check after a new key: over a positive budget, the heap's root is evicted. */
    method EvictIfOver()
      requires Valid() && queue != []
      modifies this
      ensures Valid()
      ensures if maxBytes > 0 && old(usedBytes) > maxBytes then
          var e := old(queue)[0];
          Supported(e.value)
          && queue == Heap.Pop(old(queue)).0
          && Lightest(old(Entries()), e.key)
          && Entries() == old(Entries()) - {e.key}
          && usedBytes == old(usedBytes) - EntryLen(e, arch)
          && evicted == old(evicted) + Notify(e.key, e.value)
        else
          queue == old(queue) && cache == old(cache) && usedBytes == old(usedBytes) && evicted == old(evicted)
    {
      if maxBytes > 0 && usedBytes > maxBytes {
        DelOldest();
      }
    }

    /**
     * `Set`. An existing key gets the new value and one more weight, with
     * no eviction. A new key enters with weight 0; if that takes `usedBytes`
     * over a positive budget, the root of the heap, the lightest entry, is
     * evicted once.
     */
    method Set(key: string, val: Value)
      requires Valid() && Supported(val)
      modifies this
      ensures Valid()
      ensures key in old(cache) ==>
        var i := old(cache)[key];
        var s := Slot(key, val, old(queue)[i].weight + 1);
        queue == Heap.Fix(old(queue)[i := s], i)
        && Entries() == old(Entries())[key := s]
        && usedBytes == old(usedBytes) + Size(val, arch) - Size(old(queue)[i].value, arch)
        && evicted == old(evicted)
      ensures key !in old(cache) ==> Sizable(multiset(Heap.Push(old(queue), Slot(key, val, 0))))
      ensures key !in old(cache) ==>
        var e := Slot(key, val, 0);
        var pushed := Heap.Push(old(queue), e);
        var used := old(usedBytes) + EntryLen(e, arch);
        if maxBytes > 0 && used > maxBytes then
          queue == Heap.Pop(pushed).0
          && Lightest(old(Entries())[key := e], pushed[0].key)
          && Entries() == old(Entries())[key := e] - {pushed[0].key}
          && usedBytes == used - EntryLen(pushed[0], arch)
          && evicted == old(evicted) + Notify(pushed[0].key, pushed[0].value)
        else
          queue == pushed && Entries() == old(Entries())[key := e]
          && usedBytes == used && evicted == old(evicted)
      ensures |evicted| <= |old(evicted)| + 1
    {
      if key in cache {
        Replace(key, val);
      } else {
        Insert(key, val);
      }
    }
  }
}
