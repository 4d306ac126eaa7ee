/**
 * The server-side `DataCache`: a keyed memo table whose entries stay fresh
 * for 60 000 ms and are kept, once stale, as a fallback for a failed
 * refetch. The clock reading and the settled outcome of the fetch function
 * are parameters of `Get`.
 */
module Cache {
  import opened Wrappers

  /** One stored value with the time it was fetched and the time it stops being fresh (ms). */
  datatype CacheEntry<T> = CacheEntry(data: T, timestamp: int, expiresAt: int)

  /** The lifetime of an entry: one minute in milliseconds. */
  const RefreshInterval: int := 60 * 1000

  /** The life cycle of one key: never stored (or cleared), fresh, or kept past its expiry. */
  datatype KeyState = Absent | Fresh | Stale

  /** The state of `key` at time `now`; an entry is fresh strictly before its `expiresAt`. */
  function StateOf<T>(cache: map<string, CacheEntry<T>>, key: string, now: int): KeyState {
    if key !in cache then Absent
    else if now < cache[key].expiresAt then Fresh
    else Stale
  }

  /** Every stored entry expires exactly one lifetime after it was fetched. */
  ghost predicate WellTimed<T>(cache: map<string, CacheEntry<T>>) {
    forall k :: k in cache ==> cache[k].expiresAt == cache[k].timestamp + RefreshInterval
  }

  class DataCache<T> {
    var cache: map<string, CacheEntry<T>>

    ghost predicate Valid()
      reads this
    {
      WellTimed(cache)
    }

    constructor ()
      ensures Valid() && cache == map[]
    {
      cache := map[];
    }

    /**
     * `get(key, fetchFn)` at time `now`, where `fetch` is how `fetchFn()`
     * would settle. `fetched` tells whether `fetchFn` is called at all; an
     * `Err` result is the error the call rethrows.
     */
    method Get<E>(key: string, now: int, fetch: Result<T, E>) returns (r: Result<T, E>, fetched: bool)
      requires Valid()
      modifies this
      ensures Valid()
      // a fresh entry is served as is: no fetch, no change
      ensures fetched <==> StateOf(old(cache), key, now) != Fresh
      ensures !fetched ==> r == Ok(old(cache)[key].data) && cache == old(cache)
      // a successful fetch is stored with a new lifetime and returned
      ensures fetched && fetch.Ok? ==>
        r == fetch && cache == old(cache)[key := CacheEntry(fetch.value, now, now + RefreshInterval)]
      // a failed fetch falls back to the stale entry, which is kept as it was
      ensures fetched && fetch.Err? && key in old(cache) ==>
        r == Ok(old(cache)[key].data) && cache == old(cache)
      // with nothing to fall back on, the error propagates
      ensures fetched && fetch.Err? && key !in old(cache) ==>
        r == Err(fetch.error) && cache == old(cache)
      // other keys are never touched
      ensures forall k :: k != key ==> StoredAs(k, old(cache))
      // after a successful fetch the key stays fresh for exactly one lifetime
      ensures fetched && fetch.Ok? ==>
        forall t :: now <= t ==> (StateOf(cache, key, t) == Fresh <==> t < now + RefreshInterval)
    {
      if key in cache && now < cache[key].expiresAt {
        return Ok(cache[key].data), false;
      }
      fetched := true;
      match fetch
      case Ok(freshData) =>
        cache := cache[key := CacheEntry(freshData, now, now + RefreshInterval)];
        r := Ok(freshData);
      case Err(error) =>
        if key in cache {
          r := Ok(cache[key].data);
        } else {
          r := Err(error);
        }
    }

    /** `k` is stored exactly as in `before`, or absent in both. */
    ghost predicate StoredAs(k: string, before: map<string, CacheEntry<T>>)
      reads this
    {
      (k in cache <==> k in before) && (k in cache ==> cache[k] == before[k])
    }

    /** `clear(key)`: forgets `key` (nothing happens if it is absent) and nothing else. */
    method Clear(key: string)
      requires Valid()
      modifies this
      ensures Valid()
      ensures cache == old(cache) - {key}
      ensures forall t :: StateOf(cache, key, t) == Absent
      ensures forall k :: k != key ==> StoredAs(k, old(cache))
    {
      cache := cache - {key};
    }

    /** `clearAll()`: forgets every key, so the next `Get` of any key fetches. */
    method ClearAll()
      requires Valid()
      modifies this
      ensures Valid()
      ensures cache == map[]
      ensures forall k, t :: StateOf(cache, k, t) == Absent
    {
      cache := map[];
    }
  }

  /** One key through its life cycle: absent, fresh, stale with a failed refetch, fresh again. */
  method Lifecycle(key: string, v1: int, v2: int)
  {
    var c := new DataCache<int>();
    var r, fetched := c.Get(key, 1000, Err("store unavailable"));
    assert r == Err("store unavailable") && fetched && c.cache == map[];
    r, fetched := c.Get(key, 1000, Ok(v1));
    assert r == Ok(v1) && fetched;
    r, fetched := c.Get(key, 60999, Ok(v2));
    assert r == Ok(v1) && !fetched;
    r, fetched := c.Get(key, 61000, Err("store unavailable"));
    assert r == Ok(v1) && fetched && StateOf(c.cache, key, 61001) == Stale;
    r, fetched := c.Get(key, 61001, Ok(v2));
    assert r == Ok(v2) && fetched;
    c.Clear(key);
    r, fetched := c.Get(key, 61002, Ok(v1));
    assert r == Ok(v1) && fetched;
  }
}
