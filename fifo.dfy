/**
 * The insertion-order store of cache/fifo/fifo.go: a table from keys to
 * values plus a list of the keys from oldest (front) to newest (back).
 */
module Fifo {
  import opened Wrappers
  import opened SizeModel
  import opened KeyList
  import opened Accounting

  class FifoCache {
    /** The byte budget; zero or negative means unbounded. */
    const maxBytes: int
    /** Whether an `onEvicted` callback was given to `New`. */
    const hasOnEvicted: bool
    /** The build target `CalcLen` sizes for. */
    const arch: Arch
    var usedBytes: int
    /** `ll`: the keys of the list elements, front first. */
    var order: seq<string>
    /** `cache`: each key's entry value. */
    var table: map<string, Value>
    /** The `(key, value)` calls made to `onEvicted`, oldest first. */
    var evicted: seq<(string, Value)>

    /** List keys are distinct and are the table's keys; `usedBytes` is their total size. */
    ghost predicate Valid()
      reads this
    {
      Distinct(order)
      && (forall k :: k in table <==> k in order)
      && AllSupported(table)
      && usedBytes == TotalSize(table, arch)
    }

    /** What one removal of `(k, v)` adds to the callback log. */
    function Notify(k: string, v: Value): seq<(string, Value)> {
      if hasOnEvicted then [(k, v)] else []
    }

    /** `entry.Len`: an entry is accounted by its value's size. */
    function EntryLen(v: Value): (n: int)
      requires Supported(v)
      ensures CalcLen(v, arch) == Success(n)
    {
      Size(v, arch)
    }

    /** `New(maxBytes, onEvicted)`: an empty store. */
    constructor (maxBytes: int, hasOnEvicted: bool, arch: Arch)
      ensures Valid()
      ensures this.maxBytes == maxBytes && this.hasOnEvicted == hasOnEvicted && this.arch == arch
      ensures order == [] && table == map[] && usedBytes == 0 && evicted == []
    {
      this.maxBytes := maxBytes;
      this.hasOnEvicted := hasOnEvicted;
      this.arch := arch;
      usedBytes := 0;
      order := [];
      table := map[];
      evicted := [];
    }

    /** `Get`: the stored value, or absent; nothing changes. */
    method Get(key: string) returns (r: Option<Value>)
      requires Valid()
      ensures key in table <==> r.Some?
      ensures r.Some? ==> r.value == table[key]
    {
      if key in table {
        r := Some(table[key]);
      } else {
        r := None;
      }
    }

    /** `Len`: the number of list elements, which is the number of entries. */
    method Len() returns (n: int)
      requires Valid()
      ensures n == |order| && n == |table|
    {
      n := |order|;
      DistinctLength(order, table.Keys);
    }

    /**
     * `removeElement`: `e` is the list element to remove (its key), or `nil`.
     * The entry leaves list and table, its size leaves `usedBytes`, and the
     * callback sees it once.
     */
    method RemoveElement(e: Option<string>)
      requires Valid()
      requires e.Some? ==> e.value in table
      modifies this
      ensures Valid()
      ensures e.None? ==> order == old(order) && table == old(table)
                          && usedBytes == old(usedBytes) && evicted == old(evicted)
      ensures e.Some? ==>
        var k := e.value;
        order == Erase(old(order), k) && table == old(table) - {k}
        && usedBytes == old(usedBytes) - Size(old(table)[k], arch)
        && evicted == old(evicted) + Notify(k, old(table)[k])
    {
      if e.None? {
        return;
      }
      var k := e.value;
      var v := table[k];
      order := Erase(order, k);
      TotalRemove(table, k, arch);
      usedBytes := usedBytes - EntryLen(v);
      table := table - {k};
      evicted := evicted + Notify(k, v);
    }

    /** `Del`: remove `key` if present; an absent key changes nothing. */
    method Del(key: string)
      requires Valid()
      modifies this
      ensures Valid()
      ensures key !in old(table) ==> order == old(order) && table == old(table)
                                     && usedBytes == old(usedBytes) && evicted == old(evicted)
      ensures key in old(table) ==>
        order == Erase(old(order), key) && table == old(table) - {key}
        && usedBytes == old(usedBytes) - Size(old(table)[key], arch)
        && evicted == old(evicted) + Notify(key, old(table)[key])
    {
      if key in table {
        RemoveElement(Some(key));
      }
    }

    /** `DelOldest`: remove the front (oldest) entry; a no-op on an empty store. */
    method DelOldest()
      requires Valid()
      modifies this
      ensures Valid()
      ensures old(order) == [] ==> order == [] && table == old(table)
                                   && usedBytes == old(usedBytes) && evicted == old(evicted)
      ensures old(order) != [] ==>
        var k := old(order)[0];
        order == old(order)[1..] && table == old(table) - {k}
        && usedBytes == old(usedBytes) - Size(old(table)[k], arch)
        && evicted == old(evicted) + Notify(k, old(table)[k])
    {
      if order != [] {
        EraseFront(order);
      }
      RemoveElement(Front(order));
    }

    /**
     * `Set`. An existing key is moved to the back and its value replaced,
     * with no eviction. A new key is pushed to the back; if that takes
     * `usedBytes` over a positive budget, the front entry is evicted once.
     */
    method Set(key: string, val: Value)
      requires Valid() && Supported(val)
      modifies this
      ensures Valid()
      ensures key in old(table) ==>
        order == MoveToBack(old(order), key) && table == old(table)[key := val]
        && usedBytes == old(usedBytes) + Size(val, arch) - Size(old(table)[key], arch)
        && evicted == old(evicted)
      ensures key !in old(table) ==>
        var pushed := old(order) + [key];
        var full := old(table)[key := val];
        var used := old(usedBytes) + Size(val, arch);
        if maxBytes > 0 && maxBytes < used then
          order == pushed[1..] && table == full - {pushed[0]}
          && usedBytes == used - Size(full[pushed[0]], arch)
          && evicted == old(evicted) + Notify(pushed[0], full[pushed[0]])
        else
          order == pushed && table == full && usedBytes == used && evicted == old(evicted)
      ensures |evicted| <= |old(evicted)| + 1
      ensures maxBytes <= 0 ==> table == old(table)[key := val] && evicted == old(evicted)
    {
      TotalUpdate(table, key, val, arch);
      if key in table {
        order := MoveToBack(order, key);
        usedBytes := usedBytes + Size(val, arch) - Size(table[key], arch);
        table := table[key := val];
      } else {
        order := order + [key];
        table := table[key := val];
        usedBytes := usedBytes + EntryLen(val);
        if maxBytes > 0 && maxBytes < usedBytes {
          DelOldest();
        }
      }
    }
  }
}
