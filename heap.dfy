/**
 * The binary min-heap algorithm of Go's `container/heap` (`up`, `down`,
 * `Push`, `Pop`, `Fix`, `Remove`), run over the `Less` of cache/lfu/lfu.go,
 * which compares `weight`s. A heap is the sequence of its slots; each slot
 * is one LFU entry (key, value, weight), and its position is the entry's
 * `index`. These pure functions are the specification the LFU store's
 * methods follow.
 */
module Heap {
  import opened SizeModel

  datatype Slot = Slot(key: string, value: Value, weight: int)

  /** Go's `(j - 1) / 2` truncates toward zero, so the parent of 0 is 0. */
  function Parent(j: nat): (p: nat)
    ensures 0 < j ==> p < j
  {
    if j == 0 then 0 else (j - 1) / 2
  }

  /** `queue.Less(i, j)`: a strictly smaller weight. */
  predicate Less(h: seq<Slot>, i: nat, j: nat)
    requires i < |h| && j < |h|
    ensures Less(h, i, j) ==> i != j
  {
    h[i].weight < h[j].weight
  }

  /**
   * `Less` is the strict order `container/heap` needs: irreflexive,
   * asymmetric and transitive.
   */
  lemma LessIsStrictOrder(h: seq<Slot>, i: nat, j: nat, k: nat)
    requires i < |h| && j < |h| && k < |h|
    ensures !Less(h, i, i)
    ensures Less(h, i, j) ==> !Less(h, j, i)
    ensures Less(h, i, j) && Less(h, j, k) ==> Less(h, i, k)
  {
  }

  /** `queue.Swap(i, j)` on the slots. */
  function SwapAt(h: seq<Slot>, i: nat, j: nat): (r: seq<Slot>)
    requires i < |h| && j < |h|
    ensures |r| == |h| && r[i] == h[j] && r[j] == h[i]
  {
    h[i := h[j]][j := h[i]]
  }

  /** A swap permutes the slots and leaves all others in place. */
  lemma SwapFacts(h: seq<Slot>, i: nat, j: nat)
    requires i < |h| && j < |h|
    ensures multiset(SwapAt(h, i, j)) == multiset(h)
    ensures forall k :: 0 <= k < |h| && k != i && k != j ==> SwapAt(h, i, j)[k] == h[k]
  {
    WriteMultiset(h, i, h[j]);
    WriteMultiset(h[i := h[j]], j, h[i]);
  }

  /** `up` permutes the slots and leaves those after `j` in place. */
  lemma {:induction false} UpFacts(h: seq<Slot>, j: nat)
    requires j < |h|
    ensures multiset(Up(h, j)) == multiset(h)
    ensures forall k :: j < k < |h| ==> Up(h, j)[k] == h[k]
    decreases j
  {
    var i := Parent(j);
    if i != j && Less(h, j, i) {
      ParentBounds(j);
      SwapFacts(h, i, j);
      UpFacts(SwapAt(h, i, j), i);
    }
  }

  /** `down` permutes the slots and leaves those from `n` on in place. */
  lemma {:induction false} DownFacts(h: seq<Slot>, i: nat, n: nat)
    requires i < |h| && n <= |h|
    ensures multiset(Down(h, i, n).0) == multiset(h)
    ensures forall k :: n <= k < |h| ==> Down(h, i, n).0[k] == h[k]
    decreases |h| - i
  {
    if 2 * i + 1 < n {
      var j := MinChild(h, i, n);
      if Less(h, j, i) {
        SwapFacts(h, i, j);
        DownFacts(SwapAt(h, i, j), j, n);
      }
    }
  }

  /** `up(h, j)`: move slot `j` towards the root while strictly lighter than its parent. */
  function Up(h: seq<Slot>, j: nat): (r: seq<Slot>)
    requires j < |h|
    ensures |r| == |h|
    decreases j
  {
    var i := Parent(j);
    if i == j || !Less(h, j, i) then h
    else Up(SwapAt(h, i, j), i)
  }

  /**
   * `down(h, i, n)` within positions `[0, n)`: move slot `i` towards the
   * leaves, swapping with the lighter child (the right one only when strictly
   * lighter) while that child is strictly lighter. Also yields the final
   * position; Go's `down` reports whether it is past `i`.
   */
  function Down(h: seq<Slot>, i: nat, n: nat): (r: (seq<Slot>, nat))
    requires i < |h| && n <= |h|
    ensures |r.0| == |h| && i <= r.1 < |h|
    ensures r.1 == i ==> r.0 == h
    decreases |h| - i
  {
    if 2 * i + 1 >= n then (h, i)
    else
      var j := MinChild(h, i, n);
      if !Less(h, j, i) then (h, i)
      else Down(SwapAt(h, i, j), j, n)
  }

  /** Where the loop in `up` stops. */
  lemma UpStop(h: seq<Slot>, j: nat)
    requires j < |h| && (Parent(j) == j || !Less(h, j, Parent(j)))
    ensures Up(h, j) == h
  {
  }

  /** One swap of the loop in `up`. */
  lemma UpStep(h: seq<Slot>, j: nat, i: nat)
    requires j < |h| && i == Parent(j) && i != j && Less(h, j, i)
    ensures Up(h, j) == Up(SwapAt(h, i, j), i)
  {
  }

  /** Where the loop in `down` stops because slot `i` has no child below `n`. */
  lemma DownLeaf(h: seq<Slot>, i: nat, n: nat)
    requires i < |h| && n <= |h| && 2 * i + 1 >= n
    ensures Down(h, i, n) == (h, i)
  {
  }

  /** Where the loop in `down` stops because the picked child `j` is not strictly lighter. */
  lemma DownStop(h: seq<Slot>, i: nat, n: nat, j: nat)
    requires i < |h| && 2 * i + 1 < n <= |h| && j == MinChild(h, i, n) && !Less(h, j, i)
    ensures Down(h, i, n) == (h, i)
  {
  }

  /** One swap of the loop in `down`, with the picked child `j`. */
  lemma DownStep(h: seq<Slot>, i: nat, n: nat, j: nat)
    requires i < |h| && 2 * i + 1 < n <= |h| && j == MinChild(h, i, n) && Less(h, j, i)
    ensures Down(h, i, n) == Down(SwapAt(h, i, j), j, n)
  {
  }

  /** `heap.Push`: append, then sift the new slot up. */
  function Push(h: seq<Slot>, s: Slot): (r: seq<Slot>)
    ensures |r| == |h| + 1
  {
    Up(h + [s], |h|)
  }

  /** `heap.Pop`: swap the root with the last slot, sift down above it, take the last slot off. */
  function Pop(h: seq<Slot>): (r: (seq<Slot>, Slot))
    requires |h| > 0
    ensures |r.0| == |h| - 1 && r.1 == h[0]
  {
    var n := |h| - 1;
    DownFacts(SwapAt(h, 0, n), 0, n);
    var d := Down(SwapAt(h, 0, n), 0, n).0;
    (d[..n], d[n])
  }

  /** `if !down(h, i, n) { up(h, i) }`, the step shared by `heap.Fix` and `heap.Remove`. */
  function Settle(h: seq<Slot>, i: nat, n: nat): (r: seq<Slot>)
    requires i < n <= |h|
    ensures |r| == |h|
  {
    var d := Down(h, i, n);
    if d.1 > i then d.0 else Up(d.0, i)
  }

  /** Settling permutes the slots and leaves those from `n` on in place. */
  lemma SettleFacts(h: seq<Slot>, i: nat, n: nat)
    requires i < n <= |h|
    ensures multiset(Settle(h, i, n)) == multiset(h)
    ensures forall k :: n <= k < |h| ==> Settle(h, i, n)[k] == h[k]
  {
    DownFacts(h, i, n);
    UpFacts(Down(h, i, n).0, i);
  }

  /** `heap.Fix(h, i)`: sift down, and only if nothing moved, sift up. */
  function Fix(h: seq<Slot>, i: nat): (r: seq<Slot>)
    requires i < |h|
    ensures |r| == |h|
  {
    Settle(h, i, |h|)
  }

  /** `heap.Remove(h, i)`: swap `i` with the last slot, restore order above it, take the last slot off. */
  function Remove(h: seq<Slot>, i: nat): (r: (seq<Slot>, Slot))
    requires i < |h|
    ensures |r.0| == |h| - 1 && r.1 == h[i]
  {
    DetachLast(h, i);
    var u := Detach(h, i);
    (u[..|h| - 1], u[|h| - 1])
  }

  /** Slot `i` swapped to the end and the rest settled: `heap.Remove` before its final `Pop`. */
  function Detach(h: seq<Slot>, i: nat): (r: seq<Slot>)
    requires i < |h|
    ensures |r| == |h|
  {
    var n := |h| - 1;
    if n == i then h else Settle(SwapAt(h, i, n), i, n)
  }

  /** `Detach` leaves slot `i` last. */
  lemma DetachLast(h: seq<Slot>, i: nat)
    requires i < |h|
    ensures Detach(h, i)[|h| - 1] == h[i]
  {
    if i < |h| - 1 {
      SettleFacts(SwapAt(h, i, |h| - 1), i, |h| - 1);
    }
  }

  /** `Detach` when `i` is not the last position. */
  lemma DetachInner(h: seq<Slot>, i: nat)
    requires i < |h| - 1
    ensures Detach(h, i) == Settle(SwapAt(h, i, |h| - 1), i, |h| - 1)
  {
  }

  /** Every slot in `(0, n)` weighs at least its parent. */
  ghost predicate OrderedBelow(h: seq<Slot>, n: nat)
    requires n <= |h|
  {
    forall k :: 0 < k < n ==> h[Parent(k)].weight <= h[k].weight
  }

  /** The min-heap invariant that `container/heap` keeps. */
  ghost predicate IsHeap(h: seq<Slot>) {
    OrderedBelow(h, |h|)
  }

  /**
   * Ordered in `[0, n)` except possibly between `j` and its parent, and `j`'s
   * parent is no heavier than `j`'s children: what `up` starts from.
   */
  ghost predicate UpReady(h: seq<Slot>, n: nat, j: nat)
    requires n <= |h| && j < |h|
  {
    (forall k :: 0 < k < n && k != j ==> h[Parent(k)].weight <= h[k].weight)
    && (0 < j ==> forall k :: 0 < k < n && Parent(k) == j ==> h[Parent(j)].weight <= h[k].weight)
  }

  /**
   * Ordered in `[0, n)` except possibly on the edges at `x`, and `x`'s parent
   * is no heavier than `x`'s children: a heap whose slot `x` was overwritten.
   */
  ghost predicate Hole(h: seq<Slot>, n: nat, x: nat)
    requires n <= |h| && x < |h|
  {
    (forall k :: 0 < k < n && k != x && Parent(k) != x ==> h[Parent(k)].weight <= h[k].weight)
    && (0 < x ==> forall k :: 0 < k < n && Parent(k) == x ==> h[Parent(x)].weight <= h[k].weight)
  }

  lemma ParentBounds(k: nat)
    ensures 0 < k ==> Parent(k) < k
    ensures Parent(k) == (if k == 0 then 0 else (k - 1) / 2)
    ensures 0 < k ==> k == 2 * Parent(k) + 1 || k == 2 * Parent(k) + 2
  {
  }

  /** `up` turns an `UpReady` sequence into one ordered in `[0, n)`. */
  lemma {:induction false} UpOrders(h: seq<Slot>, n: nat, j: nat)
    requires j < n <= |h| && UpReady(h, n, j)
    ensures OrderedBelow(Up(h, j), n)
    decreases j
  {
    var p := Parent(j);
    if p == j || !Less(h, j, p) {
      forall k | 0 < k < n ensures h[Parent(k)].weight <= h[k].weight {
        ParentBounds(k);
      }
    } else {
      ParentBounds(j);
      var h' := SwapAt(h, p, j);
      forall k | 0 < k < n && k != p ensures h'[Parent(k)].weight <= h'[k].weight {
        ParentBounds(k);
        if k == j {
        } else if Parent(k) == p {
          assert h[Parent(k)].weight <= h[k].weight;
        } else if Parent(k) == j {
          assert h[Parent(j)].weight <= h[k].weight;
        } else {
          assert h[Parent(k)].weight <= h[k].weight;
        }
      }
      if 0 < p {
        ParentBounds(p);
        forall k | 0 < k < n && Parent(k) == p ensures h'[Parent(p)].weight <= h'[k].weight {
          assert h[Parent(p)].weight <= h[p].weight;
          if k != j {
            assert h[p].weight <= h[k].weight;
          }
        }
      }
      assert UpReady(h', n, p);
      UpOrders(h', n, p);
    }
  }

  /** The smaller child `down` picks; `Less` on the right child must be strict. */
  function MinChild(h: seq<Slot>, i: nat, n: nat): (j: nat)
    requires 2 * i + 1 < n <= |h|
    ensures j == 2 * i + 1 || j == 2 * i + 2
    ensures j < n
  {
    var j1 := 2 * i + 1;
    if j1 + 1 < n && Less(h, j1 + 1, j1) then j1 + 1 else j1
  }

  /** The child `down` picks is no heavier than any child of `i`. */
  lemma MinChildLightest(h: seq<Slot>, i: nat, n: nat)
    requires 2 * i + 1 < n <= |h|
    ensures Parent(MinChild(h, i, n)) == i
    ensures forall k :: 0 < k < n && Parent(k) == i ==> h[MinChild(h, i, n)].weight <= h[k].weight
  {
    ParentBounds(2 * i + 1);
    ParentBounds(2 * i + 2);
    forall k | 0 < k < n && Parent(k) == i ensures k == 2 * i + 1 || k == 2 * i + 2 {
      ParentBounds(k);
    }
  }

  /** Where `down` stops, the hole is ready for `up`. */
  lemma StopReady(h: seq<Slot>, n: nat, i: nat)
    requires i < |h| && n <= |h| && Hole(h, n, i)
    requires 2 * i + 1 < n ==> !Less(h, MinChild(h, i, n), i)
    ensures UpReady(h, n, i)
  {
    if 2 * i + 1 < n {
      MinChildLightest(h, i, n);
    }
    forall k | 0 < k < n && k != i ensures h[Parent(k)].weight <= h[k].weight {
      ParentBounds(k);
      if Parent(k) == i {
        var j := MinChild(h, i, n);
      }
    }
  }

  /** One step of `down` moves the hole to the child it swapped with. */
  lemma StepHole(h: seq<Slot>, n: nat, i: nat)
    requires i < |h| && 2 * i + 1 < n <= |h| && Hole(h, n, i)
    requires Less(h, MinChild(h, i, n), i)
    ensures var j := MinChild(h, i, n);
            Hole(SwapAt(h, i, j), n, j) && SwapAt(h, i, j)[i].weight < SwapAt(h, i, j)[j].weight
  {
    var j := MinChild(h, i, n);
    var h' := SwapAt(h, i, j);
    MinChildLightest(h, i, n);
    SwapFacts(h, i, j);
    forall k | 0 < k < n && k != j && Parent(k) != j
      ensures h'[Parent(k)].weight <= h'[k].weight
    {
      ParentBounds(k);
      if k == i {
        assert h[Parent(i)].weight <= h[j].weight;
      } else if Parent(k) == i {
        assert h[j].weight <= h[k].weight;
      } else {
        assert h[Parent(k)].weight <= h[k].weight;
      }
    }
    forall k | 0 < k < n && Parent(k) == j ensures h'[Parent(j)].weight <= h'[k].weight {
      ParentBounds(k);
      assert h[Parent(k)].weight <= h[k].weight;
    }
  }

  /** Ready for `up` at `j`, and `j` already no lighter than its parent: ordered. */
  lemma ReadyWithEdge(h: seq<Slot>, n: nat, j: nat)
    requires j < n <= |h| && UpReady(h, n, j)
    requires 0 < j ==> h[Parent(j)].weight <= h[j].weight
    ensures OrderedBelow(h, n)
  {
  }

  /**
   * `down` from a hole at `i` within `[0, n)`: if it moved the slot, the
   * result is ordered; if not, the sequence is ready for `up` at `i`.
   */
  lemma {:induction false} DownOrders(h: seq<Slot>, n: nat, i: nat)
    requires i < |h| && n <= |h| && Hole(h, n, i)
    ensures Down(h, i, n).1 > i ==> OrderedBelow(Down(h, i, n).0, n)
    ensures Down(h, i, n).1 == i ==> UpReady(h, n, i)
    decreases |h| - i
  {
    if 2 * i + 1 >= n || !Less(h, MinChild(h, i, n), i) {
      StopReady(h, n, i);
    } else {
      var j := MinChild(h, i, n);
      var h' := SwapAt(h, i, j);
      assert Down(h, i, n) == Down(h', j, n);
      StepHole(h, n, i);
      DownOrders(h', n, j);
      if Down(h', j, n).1 == j {
        ReadyWithEdge(h', n, j);
      }
    }
  }

  /** Overwriting one slot of a heap leaves a hole there. */
  lemma HoleAfterWrite(h: seq<Slot>, i: nat, s: Slot)
    requires IsHeap(h) && i < |h|
    ensures Hole(h[i := s], |h|, i)
  {
    var h' := h[i := s];
    if 0 < i {
      forall k | 0 < k < |h| && Parent(k) == i ensures h'[Parent(i)].weight <= h'[k].weight {
        ParentBounds(k);
        ParentBounds(i);
        assert h[Parent(i)].weight <= h[i].weight <= h[k].weight;
      }
    }
  }

  /** The root of a heap has the least weight. */
  lemma {:induction false} RootIsLightest(h: seq<Slot>, k: nat)
    requires IsHeap(h) && k < |h|
    ensures h[0].weight <= h[k].weight
    decreases k
  {
    if k > 0 {
      ParentBounds(k);
      RootIsLightest(h, Parent(k));
    }
  }

  /** `heap.Push` keeps the heap invariant and adds exactly the new slot. */
  lemma PushKeepsHeap(h: seq<Slot>, s: Slot)
    requires IsHeap(h)
    ensures IsHeap(Push(h, s))
    ensures multiset(Push(h, s)) == multiset(h) + multiset{s}
  {
    var h' := h + [s];
    var n := |h|;
    forall k | 0 < k < n + 1 && k != n ensures h'[Parent(k)].weight <= h'[k].weight {
      ParentBounds(k);
    }
    forall k | 0 < k < n + 1 && Parent(k) == n ensures false {
      ParentBounds(k);
    }
    assert UpReady(h', n + 1, n);
    UpOrders(h', n + 1, n);
    UpFacts(h', n);
  }

  /** An ordered prefix is a heap by itself. */
  lemma PrefixHeap(h: seq<Slot>, n: nat)
    requires n <= |h| && OrderedBelow(h, n)
    ensures IsHeap(h[..n])
  {
    forall k | 0 < k < n ensures h[..n][Parent(k)].weight <= h[..n][k].weight {
      ParentBounds(k);
    }
  }

  /** Overwriting one slot replaces it in the multiset. */
  lemma WriteMultiset(h: seq<Slot>, i: nat, s: Slot)
    requires i < |h|
    ensures multiset(h[i := s]) == multiset(h) - multiset{h[i]} + multiset{s}
  {
    assert h == h[..i] + [h[i]] + h[i + 1..];
    assert h[i := s] == h[..i] + [s] + h[i + 1..];
  }

  /** Splitting off the last slot of a sequence splits its multiset. */
  lemma SplitLast(h: seq<Slot>, n: nat)
    requires n + 1 == |h|
    ensures multiset(h) == multiset(h[..n]) + multiset{h[n]}
  {
    assert h == h[..n] + [h[n]];
  }

  /** Swapping slot `i` of a heap with its last slot leaves a hole at `i` above the last slot. */
  lemma SwapLastHole(h: seq<Slot>, i: nat)
    requires IsHeap(h) && i < |h| - 1
    ensures Hole(SwapAt(h, i, |h| - 1), |h| - 1, i)
  {
    var n := |h| - 1;
    var s := SwapAt(h, i, n);
    forall k | 0 < k < n && k != i && Parent(k) != i ensures s[Parent(k)].weight <= s[k].weight {
      ParentBounds(k);
    }
    if 0 < i {
      forall k | 0 < k < n && Parent(k) == i ensures s[Parent(i)].weight <= s[k].weight {
        ParentBounds(k);
        ParentBounds(i);
        assert h[Parent(i)].weight <= h[i].weight <= h[k].weight;
      }
    }
  }

  /** Restoring order in `[0, n)` of a sequence one longer, then taking the last slot off. */
  lemma TakeLast(u: seq<Slot>, n: nat)
    requires n + 1 == |u| && OrderedBelow(u, n)
    ensures IsHeap(u[..n]) && |u[..n]| == n
    ensures multiset(u) == multiset(u[..n]) + multiset{u[n]}
  {
    PrefixHeap(u, n);
    SplitLast(u, n);
  }

  /**
   * `heap.Pop` yields the root, which has the least weight, and leaves a
   * heap of the other slots.
   */
  lemma PopKeepsHeap(h: seq<Slot>)
    requires IsHeap(h) && |h| > 0
    ensures IsHeap(Pop(h).0) && |Pop(h).0| == |h| - 1
    ensures Pop(h).1 == h[0]
    ensures forall k :: 0 <= k < |h| ==> Pop(h).1.weight <= h[k].weight
    ensures multiset(h) == multiset(Pop(h).0) + multiset{Pop(h).1}
  {
    var n := |h| - 1;
    var s := SwapAt(h, 0, n);
    SwapFacts(h, 0, n);
    if n > 0 {
      SwapLastHole(h, 0);
    }
    assert Hole(s, n, 0);
    DownOrders(s, n, 0);
    DownFacts(s, 0, n);
    var d := Down(s, 0, n).0;
    assert OrderedBelow(d, n);
    assert Pop(h) == (d[..n], d[n]);
    TakeLast(d, n);
    forall k | 0 <= k < |h| ensures h[0].weight <= h[k].weight {
      RootIsLightest(h, k);
    }
  }

  /** Settling a hole at `i` orders `[0, n)`. */
  lemma SettleOrders(h: seq<Slot>, i: nat, n: nat)
    requires i < n <= |h| && Hole(h, n, i)
    ensures OrderedBelow(Settle(h, i, n), n)
  {
    DownOrders(h, n, i);
    if Down(h, i, n).1 == i {
      UpOrders(h, n, i);
    }
  }

  /** `heap.Fix` turns a hole into a heap over the same slots. */
  lemma FixKeepsHeap(h: seq<Slot>, i: nat)
    requires i < |h| && Hole(h, |h|, i)
    ensures IsHeap(Fix(h, i))
    ensures multiset(Fix(h, i)) == multiset(h)
  {
    SettleOrders(h, i, |h|);
    SettleFacts(h, i, |h|);
  }

  /** Changing the weight of one slot of a heap and calling `heap.Fix` there yields a heap. */
  lemma FixAfterWrite(h: seq<Slot>, i: nat, s: Slot)
    requires IsHeap(h) && i < |h|
    ensures IsHeap(Fix(h[i := s], i))
    ensures multiset(Fix(h[i := s], i)) == multiset(h[i := s])
  {
    HoleAfterWrite(h, i, s);
    FixKeepsHeap(h[i := s], i);
  }

  /** Detaching slot `i` of a heap leaves `[0, n)` ordered and the slots permuted. */
  lemma DetachOrders(h: seq<Slot>, i: nat)
    requires IsHeap(h) && i < |h|
    ensures OrderedBelow(Detach(h, i), |h| - 1)
    ensures multiset(Detach(h, i)) == multiset(h)
  {
    var n := |h| - 1;
    if i < n {
      var s := SwapAt(h, i, n);
      DetachInner(h, i);
      assert OrderedBelow(Settle(s, i, n), n) by {
        SwapLastHole(h, i);
        SettleOrders(s, i, n);
      }
      assert multiset(Settle(s, i, n)) == multiset(h) by {
        SwapFacts(h, i, n);
        SettleFacts(s, i, n);
      }
    }
  }

  /** `heap.Remove(h, i)` yields slot `i` and leaves a heap of the other slots. */
  lemma RemoveKeepsHeap(h: seq<Slot>, i: nat)
    requires IsHeap(h) && i < |h|
    ensures IsHeap(Remove(h, i).0) && |Remove(h, i).0| == |h| - 1
    ensures Remove(h, i).1 == h[i]
    ensures multiset(h) == multiset(Remove(h, i).0) + multiset{Remove(h, i).1}
  {
    DetachOrders(h, i);
    DetachLast(h, i);
    TakeLast(Detach(h, i), |h| - 1);
  }
}
