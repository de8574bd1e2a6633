/** The DNS forwarder: one cache per outbound, and the branches of a resolution. Clock
    readings and upstream replies are inputs. */
module DnsForwarding {
  import opened MatchSets
  import opened ByteStrings
  import opened DnsWire

  const DNS_CACHE_MAX: nat := 2048
  const SECOND: int := 1_000_000_000

  datatype CacheKey = CacheKey(qname: Text, qtype: int, hasEdns: bool, doBit: bool)
  datatype Entry = Entry(response: Bytes, expires: int)
  type Cache = map<CacheKey, Entry>

  // ----- One cache -----

  function Lookup(cache: Cache, key: CacheKey, now: int): Option<Bytes> {
    if key in cache && now < cache[key].expires then Some(cache[key].response) else None
  }

  /** Room for one more: unchanged below capacity, else without the expired entries, else empty. */
  function MakeRoom(cache: Cache, sweep: CacheKey -> int): (room: Cache)
    ensures |room| < DNS_CACHE_MAX
    ensures forall k :: k in room ==> k in cache && room[k] == cache[k]
    ensures |cache| < DNS_CACHE_MAX ==> room == cache
  {
    if |cache| < DNS_CACHE_MAX then cache
    else
      var kept := map k | k in cache && sweep(k) < cache[k].expires :: cache[k];
      if |kept| < DNS_CACHE_MAX then kept else map[]
  }

  /** The entries that have not expired when they are tested. */
  function Unexpired(cache: Cache, sweep: CacheKey -> int): set<CacheKey> {
    set k | k in cache && sweep(k) < cache[k].expires
  }

  /** A full cache loses its expired entries and no other, unless all that fit are unexpired:
      then it loses everything. */
  lemma FullCacheKeepsUnexpiredIff(cache: Cache, sweep: CacheKey -> int)
    requires |cache| >= DNS_CACHE_MAX
    ensures MakeRoom(cache, sweep).Keys ==
            if |Unexpired(cache, sweep)| < DNS_CACHE_MAX then Unexpired(cache, sweep) else {}
  {
    var kept := map k | k in cache && sweep(k) < cache[k].expires :: cache[k];
    assert kept.Keys == Unexpired(cache, sweep);
  }

  function Stored(cache: Cache, key: CacheKey, response: Bytes, ttl: int, sweep: CacheKey -> int, now: int): Cache {
    if ttl == 0 then cache else MakeRoom(cache, sweep)[key := Entry(response, now + ttl * SECOND)]
  }

  class DnsCache {
    var entries: Cache

    constructor ()
      ensures entries == map[]
    {
      entries := map[];
    }

    method Get(key: CacheKey, now: int) returns (response: Option<Bytes>)
      ensures response == Lookup(entries, key, now)
    {
      if key !in entries {
        return None;
      }
      var e := entries[key];
      if now < e.expires {
        response := Some(e.response);
      } else {
        response := None;
      }
    }

    /** `sweep` gives the clock reading with which each entry is tested when the cache is
        full, `now` the one from which the new entry expires. */
    method Insert(key: CacheKey, response: Bytes, ttl: int, sweep: CacheKey -> int, now: int)
      modifies this
      ensures entries == Stored(old(entries), key, response, ttl, sweep, now)
    {
      if ttl == 0 {
        return;
      }
      if |entries| >= DNS_CACHE_MAX {
        entries := map k | k in entries && sweep(k) < entries[k].expires :: entries[k];
        if |entries| >= DNS_CACHE_MAX {
          entries := map[];
        }
      }
      entries := entries[key := Entry(response, now + ttl * SECOND)];
    }
  }

  // ----- Resolution -----

  datatype Outbound = Block | Direct | Group(name: string)

  function CacheName(outbound: Outbound): string {
    if outbound.Group? then "group:" + outbound.name else "direct"
  }

  /** Different outbounds that use a cache use different ones. */
  lemma CacheNamesDiffer(a: Outbound, b: Outbound)
    requires !a.Block? && !b.Block? && a != b
    ensures CacheName(a) != CacheName(b)
  {
    assert "direct"[0] != "group:"[0];
    if a.Group? && b.Group? {
      assert CacheName(a)[6..] == a.name && CacheName(b)[6..] == b.name;
    } else if a.Group? {
      assert CacheName(a)[0] == "group:"[0];
    } else if b.Group? {
      assert CacheName(b)[0] == "group:"[0];
    }
  }

  /** `route` stands for the domain rules and their fallback. */
  datatype Config = Config(enableCache: bool, route: Text -> Outbound, dialers: set<string>, proxyServer: bool)

  /** A query with what the world answers while it is resolved. `lookupAt`, `relookupAt`
      and `storeAt` are the clock at the first lookup, at the one under the group's lock
      and at the store; `serverOk` tells whether a direct upstream is found. */
  datatype Ask = Ask(query: Bytes, lookupAt: int, relookupAt: int, storeAt: int, sweep: CacheKey -> int,
                     serverOk: bool, proxied: Option<Bytes>, direct: Option<Bytes>)

  /** A response put in a cache, and the outbound it was fetched through. */
  datatype Store = Store(cache: string, key: CacheKey, via: Outbound, response: Bytes, ttl: int, at: int)

  /** `servedAt` is the clock reading of the lookup that answered, if one did. */
  datatype Outcome = Outcome(reply: Option<Bytes>, servedAt: Option<int>, store: Option<Store>)

  type View = map<string, Cache>

  function At(view: View, name: string): Cache { if name in view then view[name] else map[] }

  function KeyOf(q: DnsQuery): CacheKey { CacheKey(q.qname, q.qtype, q.hasEdns, q.doBit) }

  function RewriteId(response: Bytes, id: int): (r: Bytes)
    requires 0 <= id < 0x10000
    ensures |r| == |response| && r[Min(2, |r|)..] == response[Min(2, |r|)..]
    ensures |r| >= 2 ==> U16(r, 0) == id
  {
    if |response| >= 2 then response[0 := id / 0x100][1 := id % 0x100] else response
  }

  lemma QueryIdIsU16(b: Bytes)
    requires QueryOf(b).Some?
    ensures 0 <= QueryOf(b).value.id < 0x10000
  {
  }

  function Served(cfg: Config, cache: Cache, q: DnsQuery, now: int): Option<Bytes>
    requires 0 <= q.id < 0x10000
  {
    var found := Lookup(cache, KeyOf(q), now);
    if !cfg.enableCache || found.None? then None else Some(RewriteId(found.value, q.id))
  }

  function StoreOf(cfg: Config, outbound: Outbound, q: DnsQuery, response: Bytes, now: int): Option<Store> {
    var ttl := ResponseTtl(response);
    if !cfg.enableCache || ttl.None? || ttl.value == 0 then None
    else Some(Store(CacheName(outbound), KeyOf(q), outbound, response, ttl.value, now))
  }

  function FromDirect(cfg: Config, ask: Ask, q: DnsQuery): Outcome {
    if !ask.serverOk || ask.direct.None? then Outcome(None, None, None)
    else Outcome(ask.direct, None, StoreOf(cfg, Direct, q, ask.direct.value, ask.storeAt))
  }

  /** FLAGS of a refusal: QR, the query's RD bit, and the code. */
  function RefusalFlags(query: Bytes, rcode: int): int {
    0x8000 + (if |query| >= 4 && query[2] % 2 == 1 then 0x0100 else 0) + rcode % 16
  }

  function Refusal(query: Bytes, rcode: int): Bytes {
    (if |query| >= 2 then query[..2] else [0, 0]) + BigEndian16(RefusalFlags(query, rcode))
    + [0, 1, 0, 0, 0, 0, 0, 0] + (if |query| > DNS_HEADER_LEN then query[DNS_HEADER_LEN..] else [])
  }

  function DecideDirect(cfg: Config, cache: Cache, ask: Ask, q: DnsQuery): Outcome
    requires 0 <= q.id < 0x10000
  {
    var found := Served(cfg, cache, q, ask.lookupAt);
    if !ask.serverOk then Outcome(None, None, None)
    else if found.Some? then Outcome(found, Some(ask.lookupAt), None)
    else FromDirect(cfg, ask, q)
  }

  function DecideGroup(cfg: Config, cache: Cache, ask: Ask, q: DnsQuery, g: string): Outcome
    requires 0 <= q.id < 0x10000
  {
    var found := Served(cfg, cache, q, ask.lookupAt);
    if found.Some? then Outcome(found, Some(ask.lookupAt), None)
    else if g !in cfg.dialers || !cfg.proxyServer then FromDirect(cfg, ask, q)
    else FromGroup(cfg, cache, ask, q, g)
  }

  /** Under the group's lock: look again, then ask the proxy, then fall back. */
  function FromGroup(cfg: Config, cache: Cache, ask: Ask, q: DnsQuery, g: string): Outcome
    requires 0 <= q.id < 0x10000
  {
    var found := Served(cfg, cache, q, ask.relookupAt);
    if found.Some? then Outcome(found, Some(ask.relookupAt), None)
    else if ask.proxied.None? then FromDirect(cfg, ask, q)
    else Outcome(ask.proxied, None, StoreOf(cfg, Group(g), q, ask.proxied.value, ask.storeAt))
  }

  /** What a resolution answers and stores. */
  function Decide(cfg: Config, view: View, ask: Ask): Outcome {
    if QueryOf(ask.query).None? then Outcome(None, None, None)
    else
      QueryIdIsU16(ask.query);
      var q := QueryOf(ask.query).value;
      var cache := At(view, CacheName(cfg.route(q.qname)));
      match cfg.route(q.qname)
      case Block => Outcome(Some(Refusal(ask.query, 3)), None, None)
      case Direct => DecideDirect(cfg, cache, ask, q)
      case Group(g) => DecideGroup(cfg, cache, ask, q, g)
  }

  function Kept(cache: Cache, store: Option<Store>, sweep: CacheKey -> int): Cache {
    if store.None? then cache
    else Stored(cache, store.value.key, store.value.response, store.value.ttl, sweep, store.value.at)
  }

  function Commit(view: View, store: Option<Store>, sweep: CacheKey -> int): View {
    if store.None? then view else view[store.value.cache := Kept(At(view, store.value.cache), store, sweep)]
  }

  /** Only what the caches hold matters, not which empty ones exist. */
  lemma CommitSame(a: View, b: View, store: Option<Store>, sweep: CacheKey -> int)
    requires forall n :: At(a, n) == At(b, n)
    ensures forall n :: At(Commit(a, store, sweep), n) == At(Commit(b, store, sweep), n)
  {
    forall n
      ensures At(Commit(a, store, sweep), n) == At(Commit(b, store, sweep), n)
    {
      assert At(a, n) == At(b, n);
    }
  }

  class DnsForwarder {
    const cfg: Config
    var caches: map<string, DnsCache>

    ghost predicate Valid()
      reads this
    {
      forall m, n :: m in caches && n in caches && m != n ==> caches[m] != caches[n]
    }

    ghost function View(): View
      reads this, caches.Values
    {
      map n | n in caches :: caches[n].entries
    }

    constructor (cfg: Config)
      ensures Valid() && View() == map[] && this.cfg == cfg
    {
      this.cfg := cfg;
      caches := map[];
    }

    /** The named cache, created empty when it is first asked for. */
    method GetCache(name: string) returns (cache: DnsCache)
      requires Valid()
      modifies this
      ensures Valid() && name in caches && caches[name] == cache
      ensures forall n :: At(View(), n) == old(At(View(), n))
      ensures forall n :: n in old(caches) ==> n in caches && caches[n] == old(caches[n])
      ensures fresh(caches.Values - old(caches.Values))
    {
      if name !in caches {
        var created := new DnsCache();
        caches := caches[name := created];
      }
      cache := caches[name];
    }

    method CachedLookup(cache: DnsCache, q: DnsQuery, now: int) returns (response: Option<Bytes>)
      requires 0 <= q.id < 0x10000
      ensures response == Served(cfg, cache.entries, q, now)
    {
      if !cfg.enableCache {
        return None;
      }
      response := cache.Get(KeyOf(q), now);
      if response.Some? {
        response := Some(RewriteId(response.value, q.id));
      }
    }

    method CacheStore(
      cache: DnsCache, q: DnsQuery, ghost via: Outbound, response: Bytes, sweep: CacheKey -> int, now: int)
      modifies cache
      ensures cache.entries == Kept(old(cache.entries), StoreOf(cfg, via, q, response, now), sweep)
    {
      if !cfg.enableCache {
        return;
      }
      var ttl := ParseResponseMinTtl(response);
      if ttl.Some? {
        cache.Insert(KeyOf(q), response, ttl.value, sweep, now);
      }
    }

    /** Stores a response in the cache of the outbound it came through. */
    method Put(via: Outbound, q: DnsQuery, response: Bytes, sweep: CacheKey -> int, now: int)
      requires Valid()
      modifies this, caches.Values
      ensures Valid()
      ensures forall n :: At(View(), n) == At(Commit(old(View()), StoreOf(cfg, via, q, response, now), sweep), n)
    {
      var name := CacheName(via);
      ghost var before := View();
      var cache := GetCache(name);
      ghost var middle := View();
      assert At(middle, name) == cache.entries == At(before, name);
      CacheStore(cache, q, via, response, sweep, now);
      ghost var store := StoreOf(cfg, via, q, response, now);
      assert cache.entries == At(Commit(before, store, sweep), name);
      forall n
        ensures At(View(), n) == At(Commit(before, store, sweep), n)
      {
        if n != name {
          assert At(View(), n) == At(middle, n) == At(before, n);
        }
      }
    }

    /** Answers through the direct upstream and remembers the answer as direct. */
    method ForwardDirect(ask: Ask, q: DnsQuery) returns (reply: Option<Bytes>)
      requires Valid()
      modifies this, caches.Values
      ensures Valid() && reply == FromDirect(cfg, ask, q).reply
      ensures forall n :: At(View(), n) == At(Commit(old(View()), FromDirect(cfg, ask, q).store, ask.sweep), n)
    {
      if !ask.serverOk || ask.direct.None? {
        return None;
      }
      Put(Direct, q, ask.direct.value, ask.sweep, ask.storeAt);
      reply := ask.direct;
    }

    method Resolve(ask: Ask) returns (reply: Option<Bytes>)
      requires Valid()
      modifies this, caches.Values
      ensures Valid() && reply == Decide(cfg, old(View()), ask).reply
      ensures forall n :: At(View(), n) == At(Commit(old(View()), Decide(cfg, old(View()), ask).store, ask.sweep), n)
    {
      var parsed := ParseDnsQuery(ask.query);
      if parsed.None? {
        return None;
      }
      QueryIdIsU16(ask.query);
      var q := parsed.value;
      match cfg.route(q.qname)
      case Block =>
        reply := Some(Refusal(ask.query, 3));
      case Direct =>
        reply := ResolveDirect(ask, q);
      case Group(g) =>
        reply := ResolveGroup(ask, q, g);
    }

    method ResolveDirect(ask: Ask, q: DnsQuery) returns (reply: Option<Bytes>)
      requires Valid() && 0 <= q.id < 0x10000
      modifies this, caches.Values
      ensures Valid() && reply == DecideDirect(cfg, old(At(View(), "direct")), ask, q).reply
      ensures forall n :: At(View(), n) ==
                          At(Commit(old(View()), DecideDirect(cfg, old(At(View(), "direct")), ask, q).store,
                                    ask.sweep), n)
    {
      if !ask.serverOk {
        return None;
      }
      ghost var before := View();
      var cache := GetCache("direct");
      assert At(View(), "direct") == cache.entries == At(before, "direct");
      reply := CachedLookup(cache, q, ask.lookupAt);
      if reply.Some? {
        return;
      }
      CommitSame(before, View(), FromDirect(cfg, ask, q).store, ask.sweep);
      reply := ForwardDirect(ask, q);
    }

    method ResolveGroup(ask: Ask, q: DnsQuery, g: string) returns (reply: Option<Bytes>)
      requires Valid() && 0 <= q.id < 0x10000
      modifies this, caches.Values
      ensures Valid() && reply == DecideGroup(cfg, old(At(View(), CacheName(Group(g)))), ask, q, g).reply
      ensures forall n ::
                At(View(), n) ==
                At(Commit(old(View()), DecideGroup(cfg, old(At(View(), CacheName(Group(g)))), ask, q, g).store,
                          ask.sweep), n)
    {
      ghost var before := View();
      var name := CacheName(Group(g));
      var cache := GetCache(name);
      assert At(View(), name) == cache.entries == At(before, name);
      reply := CachedLookup(cache, q, ask.lookupAt);
      if reply.Some? {
        return;
      }
      if g !in cfg.dialers || !cfg.proxyServer {
        CommitSame(before, View(), FromDirect(cfg, ask, q).store, ask.sweep);
        reply := ForwardDirect(ask, q);
      } else {
        CommitSame(before, View(), FromGroup(cfg, cache.entries, ask, q, g).store, ask.sweep);
        reply := ForwardGroup(cache, ask, q, g);
      }
    }

    method ForwardGroup(cache: DnsCache, ask: Ask, q: DnsQuery, g: string) returns (reply: Option<Bytes>)
      requires Valid() && 0 <= q.id < 0x10000
      modifies this, caches.Values
      ensures Valid() && reply == FromGroup(cfg, old(cache.entries), ask, q, g).reply
      ensures forall n :: At(View(), n) ==
                          At(Commit(old(View()), FromGroup(cfg, old(cache.entries), ask, q, g).store, ask.sweep), n)
    {
      reply := CachedLookup(cache, q, ask.relookupAt);
      if reply.Some? {
        return;
      }
      if ask.proxied.None? {
        reply := ForwardDirect(ask, q);
        return;
      }
      Put(Group(g), q, ask.proxied.value, ask.sweep, ask.storeAt);
      reply := ask.proxied;
    }
  }
}
