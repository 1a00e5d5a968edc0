/** The memoising decorator of the web application (`zubbi/extensions.py`):
    how the cache key is chosen, when the wrapped function runs, when an
    entry expires, and which cache the application uses. The cache is a
    value threaded through the calls, and the clock is a parameter. */
module Extensions {
  import opened Wrappers

  /** The default `timeout` of `cached`, in seconds. */
  const DefaultTimeout := 3600

  /** The `key` argument of `cached`: a fixed key, or a function of the
      wrapped call's arguments. */
  datatype KeySource<!A> = Constant(k: string) | Computed(f: A -> string)

  /** The cache key of one call. */
  function CacheKey<A>(key: KeySource<A>, args: A): (r: string)
    ensures key.Constant? ==> r == key.k
    ensures key.Computed? ==> r == key.f(args)
  {
    match key
    case Constant(k) => k
    case Computed(f) => f(args)
  }

  /** A stored value with the time it expires at; 0 means never. */
  datatype Entry<V> = Entry(value: Option<V>, expires: int)

  /** `NullCache` remembers nothing; `SimpleCache` keeps every value set,
      `None` included, until it expires. */
  datatype Cache<V> = NullCache | SimpleCache(store: map<string, Entry<V>>)

  /** The expiry time `SimpleCache.set` records for `timeout` at `now`: a
      positive timeout counts from now, any other is kept as it is (0 never
      expires, a negative one is already past). */
  function Expiry(timeout: int, now: int): (e: int)
    ensures timeout > 0 ==> e > now
    ensures timeout == 0 ==> e == 0
    ensures timeout < 0 ==> e < 0
  {
    if timeout > 0 then now + timeout else timeout
  }

  /** An entry is still served at `now`. */
  predicate Live<V>(e: Entry<V>, now: int) {
    e.expires == 0 || e.expires > now
  }

  /** `cache.get` at time `now`: `None` for a miss, for an expired entry, and
      for a stored `None`. */
  function Get<V>(cache: Cache<V>, k: string, now: int): (r: Option<V>)
    ensures cache.NullCache? ==> r.None?
    ensures r.Some? <==> cache.SimpleCache? && k in cache.store && Live(cache.store[k], now) && cache.store[k].value.Some?
    ensures r.Some? ==> r == cache.store[k].value
  {
    match cache
    case NullCache => None
    case SimpleCache(store) => if k in store && Live(store[k], now) then store[k].value else None
  }

  /** `cache.set` with a timeout, at time `now`. */
  function Set<V>(cache: Cache<V>, k: string, v: Option<V>, timeout: int, now: int): (r: Cache<V>)
    ensures cache.NullCache? ==> r == NullCache
    ensures cache.SimpleCache? ==> r.SimpleCache? && r.store.Keys == cache.store.Keys + {k}
    ensures cache.SimpleCache? ==> r.store[k] == Entry(v, Expiry(timeout, now))
    ensures cache.SimpleCache? ==> forall j :: j in cache.store && j != k ==> r.store[j] == cache.store[j]
  {
    match cache
    case NullCache => NullCache
    case SimpleCache(store) => SimpleCache(store[k := Entry(v, Expiry(timeout, now))])
  }

  /** A value set with a positive timeout reads back until the timeout has
      passed and not from then on; with timeout 0 it reads back forever. */
  lemma SetThenGet<V>(store: map<string, Entry<V>>, k: string, v: V, timeout: int, now: int, later: int)
    requires 0 <= now <= later
    ensures var c := Set(SimpleCache(store), k, Some(v), timeout, now);
            Get(c, k, later) == (if timeout == 0 || later < now + timeout then Some(v) else None)
  {
  }

  /** The outcome of one call of a wrapped function: its value, the cache
      afterwards, and whether the wrapped function ran. */
  datatype Call<V> = Call(value: Option<V>, cache: Cache<V>, ran: bool)

  /** One call, at time `now`, of `cached(key, timeout)(f)` with arguments
      `args`. */
  function Cached<A, V>(key: KeySource<A>, timeout: int, f: A -> Option<V>, cache: Cache<V>, args: A, now: int): (r: Call<V>)
    ensures r.ran <==> Get(cache, CacheKey(key, args), now).None?
    ensures r.value == (if r.ran then f(args) else Get(cache, CacheKey(key, args), now))
    ensures !r.ran ==> r.cache == cache
    ensures r.ran ==> r.cache == Set(cache, CacheKey(key, args), f(args), timeout, now)
  {
    var k := CacheKey(key, args);
    var hit := Get(cache, k, now);
    if hit.Some? then Call(hit, cache, false)
    else
      var v := f(args);
      Call(v, Set(cache, k, v, timeout, now), true)
  }

  /** With a `SimpleCache`, a value the wrapped function produced is served
      from the cache to the next call with the same key made before the
      timeout runs out: the function does not run again and the answer is
      the same. */
  lemma SecondCallIsServedFromCache<A, V>(key: KeySource<A>, timeout: int, f: A -> Option<V>, store: map<string, Entry<V>>,
                                         args: A, args': A, now: int, later: int)
    requires CacheKey(key, args) == CacheKey(key, args')
    requires Get(SimpleCache(store), CacheKey(key, args), now).None? && f(args).Some?
    requires 0 <= now <= later && (timeout == 0 || later < now + timeout)
    ensures var first := Cached(key, timeout, f, SimpleCache(store), args, now);
            var second := Cached(key, timeout, f, first.cache, args', later);
            !second.ran && second.value == first.value && second.cache == first.cache
  {
    SetThenGet(store, CacheKey(key, args), f(args).value, timeout, now, later);
  }

  /** Once the timeout of a freshly computed value has run out, the next call
      runs the wrapped function again. */
  lemma ExpiredValueIsRecomputed<A, V>(key: KeySource<A>, timeout: int, f: A -> Option<V>, store: map<string, Entry<V>>,
                                      args: A, now: int, later: int)
    requires Get(SimpleCache(store), CacheKey(key, args), now).None?
    requires 0 <= now <= later && timeout != 0 && now + timeout <= later
    ensures var first := Cached(key, timeout, f, SimpleCache(store), args, now);
            Cached(key, timeout, f, first.cache, args, later).ran
  {
    var first := Cached(key, timeout, f, SimpleCache(store), args, now);
    if f(args).Some? {
      SetThenGet(store, CacheKey(key, args), f(args).value, timeout, now, later);
    }
  }

  /** A `None` result is stored but reads back as a miss, so the wrapped
      function runs on every call that produces it. */
  lemma NoneIsNeverServed<A, V>(key: KeySource<A>, timeout: int, f: A -> Option<V>, cache: Cache<V>, args: A, now: int, later: int)
    requires Get(cache, CacheKey(key, args), now).None? && f(args).None?
    ensures var first := Cached(key, timeout, f, cache, args, now);
            var second := Cached(key, timeout, f, first.cache, args, later);
            first.ran && second.ran && second.value.None?
  {
  }

  /** A `NullCache` never answers: every call runs the wrapped function and
      the cache stays a `NullCache`. */
  lemma NullCacheAlwaysRuns<A, V>(key: KeySource<A>, timeout: int, f: A -> Option<V>, args: A, now: int)
    ensures Cached(key, timeout, f, NullCache, args, now) == Call(f(args), NullCache, true)
  {
  }

  /** `get_cache`: in debug mode a fresh `NullCache`; otherwise the cache kept
      in the application's extensions, created on first use. Returns the
      cache and the application's stored cache afterwards. */
  function GetCache<V>(debug: bool, stored: Option<Cache<V>>): (r: (Cache<V>, Option<Cache<V>>))
    ensures debug ==> r == (NullCache, stored)
    ensures !debug && stored.Some? ==> r == (stored.value, stored)
    ensures !debug && stored.None? ==> r.0 == SimpleCache(map[]) && r.1 == Some(r.0)
  {
    if debug then (NullCache, stored)
    else if stored.None? then (SimpleCache(map[]), Some(SimpleCache(map[])))
    else (stored.value, stored)
  }

  /** Outside debug mode the application creates one cache and hands out
      that same cache on every later request. */
  lemma OneCachePerApplication<V>(stored: Option<Cache<V>>)
    ensures var (c1, s1) := GetCache(false, stored);
            var (c2, s2) := GetCache(false, s1);
            c2 == c1 && s2 == s1 && s1 == Some(c1)
    ensures stored.None? ==> GetCache(false, stored).0 == SimpleCache(map[])
  {
  }
}
