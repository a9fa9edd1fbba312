/**
 * The `container/list` operations the FIFO and LRU stores use, on the list of
 * keys from front (oldest) to back (newest). A list element is named by the
 * key of the entry it holds, which is unique in the list.
 */
module KeyList {
  import opened Wrappers

  /** No key occurs twice. */
  predicate Distinct(s: seq<string>) {
    forall i, j :: 0 <= i < j < |s| ==> s[i] != s[j]
  }

  /** `Remove(e)`: the list without the element holding `k`, others in order. */
  function Erase(s: seq<string>, k: string): (r: seq<string>)
    ensures forall x :: x in r <==> x in s && x != k
    ensures Distinct(s) ==> Distinct(r)
    ensures k !in s ==> r == s
    ensures |r| <= |s|
  {
    if s == [] then []
    else if s[0] == k then Erase(s[1..], k)
    else
      var r := Erase(s[1..], k);
      assert Distinct(s) ==> Distinct(s[1..]) && s[0] !in r;
      [s[0]] + r
  }

  /** `MoveToBack(e)`: the element holding `k` becomes the back element. */
  function MoveToBack(s: seq<string>, k: string): (r: seq<string>)
    ensures Distinct(s) ==> Distinct(r)
    ensures forall x :: x in r <==> x in s || x == k
    ensures |r| > 0 && r[|r| - 1] == k
  {
    Erase(s, k) + [k]
  }

  /** `Front()`: the oldest element, `nil` on an empty list. */
  function Front(s: seq<string>): (r: Option<string>)
    ensures r.None? <==> s == []
    ensures r.Some? ==> r.value == s[0]
  {
    if s == [] then None else Some(s[0])
  }

  /** Removing the front element of a list without duplicates drops its head. */
  lemma {:induction false} EraseFront(s: seq<string>)
    requires Distinct(s) && s != []
    ensures Erase(s, s[0]) == s[1..]
  {
    assert s[0] !in s[1..] by {
      forall i | 0 <= i < |s[1..]| ensures s[1..][i] != s[0] {
        assert s[1..][i] == s[i + 1];
      }
    }
  }

  /** A duplicate-free list has as many elements as the set of its keys. */
  lemma {:induction false} DistinctLength(s: seq<string>, keys: set<string>)
    requires Distinct(s)
    requires forall x :: x in s <==> x in keys
    ensures |s| == |keys|
  {
    if s != [] {
      var rest := keys - {s[0]};
      assert Distinct(s[1..]);
      forall x ensures x in s[1..] <==> x in rest {
        if x in s[1..] {
          var i :| 0 <= i < |s[1..]| && s[1..][i] == x;
          assert s[i + 1] == x;
        }
        if x in s && x != s[0] {
          var i :| 0 <= i < |s| && s[i] == x;
          assert s[1..][i - 1] == x;
        }
      }
      DistinctLength(s[1..], rest);
    }
  }
}
