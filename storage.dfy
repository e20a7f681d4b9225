/** The time-to-live cache of parsed dashboards (`core/storage.py`). The JSON
    file is the map it holds: a missing file and one that cannot be read or
    decoded both load as the empty map. Time is a whole number of seconds
    passed in by the caller. */
module Storage {
  import opened Outcomes
  import opened Parser

  /** One cached entry, `{"_ts": ts, "data": data}`; either key may be absent.
      `Item(None, None)` is the empty dictionary, which Python treats as false.
      `data` holds what `set_cached` writes, a parse result or nothing; a
      stored `"data": {}` has no value here. */
  datatype Item = Item(ts: Option<int>, data: Option<Metrics>)

  const EMPTY_ITEM: Item := Item(None, None)

  /** What the cache file holds on disk. */
  datatype CacheFile = Missing | Unreadable | Stored(entries: map<string, Item>)

  /** `load_cache`: the stored map, or the empty map when the file is missing
      or cannot be decoded. It never fails. */
  function LoadCache(f: CacheFile): (r: map<string, Item>)
    ensures !f.Stored? ==> r == map[]
  {
    match f
    case Stored(entries) => entries
    case _ => map[]
  }

  /** `item.get("_ts", 0)`. */
  function Stamp(item: Item): (r: int)
    ensures item.ts.None? ==> r == 0
    ensures item.ts.Some? ==> r == item.ts.value
  {
    item.ts.GetOr(0)
  }

  /** `get_cached` against the loaded map `m` at time `now`. */
  function Lookup(m: map<string, Item>, url: string, ttl: int, now: int): (r: Option<Metrics>)
    ensures url !in m || m[url] == EMPTY_ITEM ==> r.None?
    ensures url in m && m[url] != EMPTY_ITEM && now - Stamp(m[url]) > ttl ==> r.None?
    ensures r.Some? <==>
      url in m && m[url] != EMPTY_ITEM && now - Stamp(m[url]) <= ttl && m[url].data.Some?
    ensures r.Some? ==> r == m[url].data
  {
    if url !in m then None
    else
      var item := m[url];
      if item == EMPTY_ITEM then None
      else if now - Stamp(item) > ttl then None
      else item.data
  }

  /** The map `set_cached(url, data)` writes back at time `now`. */
  function Store(m: map<string, Item>, url: string, data: Metrics, now: int): (r: map<string, Item>)
    ensures r.Keys == m.Keys + {url}
    ensures r[url] == Item(Some(now), Some(data))
    ensures forall k :: k in m && k != url ==> r[k] == m[k]
  {
    m[url := Item(Some(now), Some(data))]
  }

  /** The cache, as the state of its file. */
  class Cache {
    var file: CacheFile

    constructor (f: CacheFile)
      ensures file == f
    {
      file := f;
    }

    /** `load_cache()` on the current file. */
    function Load(): (r: map<string, Item>)
      reads this
      ensures !file.Stored? ==> r == map[]
      ensures file.Stored? ==> r == file.entries
    {
      LoadCache(file)
    }

    /** `get_cached(url, ttl)` at time `now`: a read-only lookup. */
    function GetCached(url: string, ttl: int, now: int): (r: Option<Metrics>)
      reads this
      ensures r.Some? ==> url in Load() && now - Stamp(Load()[url]) <= ttl
    {
      Lookup(Load(), url, ttl, now)
    }

    /** `set_cached(url, data)` at time `now`: load, replace the entry for
        `url` with a fresh stamp, save. */
    method SetCached(url: string, data: Metrics, now: int)
      modifies this
      ensures file == Stored(Store(old(Load()), url, data, now))
      ensures forall ttl, later :: 0 <= later - now <= ttl ==> GetCached(url, ttl, later) == Some(data)
      ensures forall k :: k != url ==> (k in Load() <==> k in old(Load()))
      ensures forall k :: k != url && k in old(Load()) ==> Load()[k] == old(Load())[k]
    {
      var cache := Load();
      cache := cache[url := Item(Some(now), Some(data))];
      file := Stored(cache);
    }
  }

  // ---------------------------------------------------------------------
  // Properties
  // ---------------------------------------------------------------------

  /** An entry stored at time `t` is found at time `later` exactly while it
      is at most `ttl` seconds old: an entry `ttl` seconds old is a hit, one
      second more is a miss. */
  lemma StoreThenLookup(m: map<string, Item>, url: string, data: Metrics, t: int, ttl: int, later: int)
    ensures Lookup(Store(m, url, data, t), url, ttl, later) ==
      (if later - t <= ttl then Some(data) else None)
  {
  }

  /** Storing one url never changes what another url looks up. */
  lemma StoreKeepsOthers(m: map<string, Item>, url: string, data: Metrics, t: int,
                         other: string, ttl: int, now: int)
    requires other != url
    ensures Lookup(Store(m, url, data, t), other, ttl, now) == Lookup(m, other, ttl, now)
  {
  }

  /** An entry without `_ts` ages as if it had been written at time 0. */
  lemma MissingStampIsZero(m: map<string, Item>, url: string, data: Metrics, ttl: int, now: int)
    ensures Lookup(m[url := Item(None, Some(data))], url, ttl, now) ==
      Lookup(m[url := Item(Some(0), Some(data))], url, ttl, now)
    ensures Lookup(m[url := Item(None, Some(data))], url, ttl, now).Some? <==> now <= ttl
  {
  }

  /** A missing or unreadable file caches nothing. */
  lemma MissingFileStartsEmpty(url: string, ttl: int, now: int)
    ensures Lookup(LoadCache(Missing), url, ttl, now).None?
    ensures Lookup(LoadCache(Unreadable), url, ttl, now).None?
  {
  }
}
