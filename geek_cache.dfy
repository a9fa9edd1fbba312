/**
 * `GeekCache` of cache/geek_cache.go: a counting cache in front of a slow
 * source. A lookup that misses asks the `Getter` for the value and, when
 * the getter has one, stores it before returning it.
 */
module GeekCacheModel {
  import opened Wrappers
  import opened SizeModel
  import opened Cache

  /**
   * A `Getter`. `GetFunc` adapts a plain function, and its `Get` is just the
   * application `f(key)`, so every getter is modelled as the function it
   * computes; a `nil` result is `None`.
   */
  type Getter = string -> Option<Value>

  /** What the getter yields for `key`; no getter (`nil`) yields nothing. */
  function Fetch(getter: Option<Getter>, key: string): (r: Option<Value>)
    ensures getter.None? ==> r.None?
    ensures getter.Some? ==> r == getter.value(key)
  {
    match getter
    case None => None
    case Some(f) => f(key)
  }

  class GeekCache {
    const cache: SafeCache
    const getter: Option<Getter>

    ghost predicate Valid()
      reads cache, Repr(cache.store)
    {
      cache.Valid()
    }

    /** What the store behind the counters holds. */
    ghost function Held(): map<string, Value>
      reads Repr(cache.store)
    {
      Contents(cache.store)
    }

    /** `NewGeekCache(getter, cache)`: fresh counters around `store`. */
    constructor (getter: Option<Getter>, store: Store)
      requires StoreValid(store)
      ensures Valid() && fresh(cache)
      ensures this.getter == getter && cache.store == store
      ensures cache.nhit == 0 && cache.nget == 0
    {
      this.getter := getter;
      cache := new SafeCache(store);
    }

    /**
     * `Get`: a value the store holds is returned without asking the getter
     * and without storing anything. On a miss the getter's value, if any,
     * is stored and returned; a miss the getter cannot fill stores nothing.
     * The lookup counts once in `NGet`, and once in `NHit` exactly when the
     * store held the key. Go panics when a miss is filled while there is no
     * store, or with a value `CalcLen` cannot size: those are excluded.
     */
    method Get(key: string) returns (r: Option<Value>)
      requires Valid()
      requires key !in Held() && Fetch(getter, key).Some? ==>
                 !cache.store.NoStore? && Supported(Fetch(getter, key).value)
      modifies cache, Repr(cache.store)
      ensures Valid()
      ensures cache.nget == old(cache.nget) + 1
      ensures cache.nhit == if key in old(Held()) then old(cache.nhit) + 1 else old(cache.nhit)
      ensures key in old(Held()) ==>
        r == Some(old(Held())[key]) && Held() == old(Held()) && Evicted(cache.store) == old(Evicted(cache.store))
      ensures key !in old(Held()) ==> r == Fetch(getter, key)
      ensures key !in old(Held()) && r.None? ==>
        Held() == old(Held()) && Evicted(cache.store) == old(Evicted(cache.store))
      ensures key !in old(Held()) && r.Some? ==>
        SetOutcome(old(Held()), old(Evicted(cache.store)), MayEvict(cache.store), key, r.value,
                   Held(), Evicted(cache.store))
    {
      r := cache.Get(key);
      if r.Some? {
        return;
      }
      r := Fetch(getter, key);
      if r.None? {
        return;
      }
      cache.Set(key, r.value);
    }

    /** `Stat`: the counters of the wrapped `safeCache`. */
    method GetStat() returns (s: Stat)
      requires Valid()
      ensures s.nhit == cache.nhit && s.nget == cache.nget
      ensures 0 <= s.nhit <= s.nget
    {
      s := cache.GetStat();
    }
  }
}
