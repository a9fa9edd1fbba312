/**
 * `usedBytes` bookkeeping of the FIFO and LRU stores: the total accounted
 * size of the values in a key/value table.
 */
module Accounting {
  import opened SizeModel

  /** Every value of the table can be sized. */
  predicate AllSupported(t: map<string, Value>) {
    forall k :: k in t ==> Supported(t[k])
  }

  /** The sum of `CalcLen` over the values of `t`. */
  ghost function TotalSize(t: map<string, Value>, arch: Arch): int
    requires AllSupported(t)
    decreases |t|
  {
    if t == map[] then 0
    else
      var k :| k in t;
      Size(t[k], arch) + TotalSize(t - {k}, arch)
  }

  /** Taking any one entry out of the table subtracts exactly its size. */
  lemma {:induction false} TotalRemove(t: map<string, Value>, k: string, arch: Arch)
    requires AllSupported(t) && k in t
    ensures TotalSize(t, arch) == Size(t[k], arch) + TotalSize(t - {k}, arch)
    decreases |t|
  {
    var k' :| k' in t && TotalSize(t, arch) == Size(t[k'], arch) + TotalSize(t - {k'}, arch);
    if k' != k {
      assert |t - {k'}| < |t| by { assert k' in t; }
      TotalRemove(t - {k'}, k, arch);
      TotalRemove(t - {k}, k', arch);
      assert t - {k'} - {k} == t - {k} - {k'};
    }
  }

  /** Writing `v` under `k` replaces `k`'s old size, if any, by `v`'s. */
  lemma TotalUpdate(t: map<string, Value>, k: string, v: Value, arch: Arch)
    requires AllSupported(t) && Supported(v)
    ensures AllSupported(t[k := v])
    ensures TotalSize(t[k := v], arch)
            == TotalSize(t, arch) - (if k in t then Size(t[k], arch) else 0) + Size(v, arch)
  {
    TotalRemove(t[k := v], k, arch);
    if k in t {
      TotalRemove(t, k, arch);
      assert t[k := v] - {k} == t - {k};
    } else {
      assert t[k := v] - {k} == t;
    }
  }
}
