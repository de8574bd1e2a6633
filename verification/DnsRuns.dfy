/** What holds of the forwarder's caches over every sequence of resolutions. */
module DnsRuns {
  import opened MatchSets
  import opened ByteStrings
  import opened DnsWire
  import opened DnsForwarding

  /** A way of answering: what a resolution answers and stores, given the caches. */
  type Decider = (View, Ask) -> Outcome

  /** The caches after a sequence of queries. */
  function Run(decide: Decider, asks: seq<Ask>): View {
    if |asks| == 0 then map[]
    else
      var before, last := Run(decide, asks[..|asks| - 1]), asks[|asks| - 1];
      Commit(before, decide(before, last).store, last.sweep)
  }

  function OutcomeOf(decide: Decider, asks: seq<Ask>, i: nat): Outcome
    requires i < |asks|
  {
    decide(Run(decide, asks[..i]), asks[i])
  }

  /** Whether an outcome puts something under the key in the cache. */
  predicate StoresUnder(o: Outcome, name: string, key: CacheKey) {
    o.store.Some? && o.store.value.cache == name && o.store.value.key == key
  }

  /** The position of the last query whose response was stored under the key. */
  function LastStore(decide: Decider, asks: seq<Ask>, name: string, key: CacheKey): (at: Option<nat>)
    ensures at.Some? ==> at.value < |asks|
  {
    if |asks| == 0 then None
    else if StoresUnder(OutcomeOf(decide, asks, |asks| - 1), name, key) then Some(|asks| - 1)
    else LastStore(decide, asks[..|asks| - 1], name, key)
  }

  lemma {:induction false} LastStoreIsLast(decide: Decider, asks: seq<Ask>, name: string, key: CacheKey)
    ensures var at := LastStore(decide, asks, name, key);
            && (at.Some? ==> StoresUnder(OutcomeOf(decide, asks, at.value), name, key))
            && (forall j: nat :: (at.Some? ==> at.value < j) && j < |asks| ==>
                  !StoresUnder(OutcomeOf(decide, asks, j), name, key))
  {
    if |asks| > 0 {
      var prefix := asks[..|asks| - 1];
      LastStoreIsLast(decide, prefix, name, key);
      forall j: nat | j < |prefix|
        ensures OutcomeOf(decide, prefix, j) == OutcomeOf(decide, asks, j)
      {
        assert prefix[..j] == asks[..j];
      }
    }
  }

  /** The entry a store leaves behind. */
  function EntryOf(s: Store): Entry { Entry(s.response, s.at + s.ttl * SECOND) }

  ghost predicate StoresPositive(decide: Decider) {
    forall v, a :: decide(v, a).store.Some? ==> decide(v, a).store.value.ttl > 0
  }

  /** Whatever a cache holds under a key is what was last stored there. */
  lemma {:induction false} EntryIsLastStore(decide: Decider, asks: seq<Ask>, name: string, key: CacheKey)
    requires StoresPositive(decide) && key in At(Run(decide, asks), name)
    ensures var at := LastStore(decide, asks, name, key);
            at.Some? && OutcomeOf(decide, asks, at.value).store.Some?
            && At(Run(decide, asks), name)[key] == EntryOf(OutcomeOf(decide, asks, at.value).store.value)
  {
    if |asks| > 0 {
      var prefix, last := asks[..|asks| - 1], asks[|asks| - 1];
      var before := Run(decide, prefix);
      if !StoresUnder(decide(before, last), name, key) {
        assert key in At(before, name) && At(before, name)[key] == At(Run(decide, asks), name)[key];
        EntryIsLastStore(decide, prefix, name, key);
        assert prefix[..LastStore(decide, prefix, name, key).value] ==
               asks[..LastStore(decide, prefix, name, key).value];
      }
    }
  }

  lemma {:induction false} LeastTtlIsNat(b: Bytes, pos: nat, n: nat)
    requires n > 0
    ensures LeastTtl(b, pos, n).Some? ==> LeastTtl(b, pos, n).value >= 0
    decreases n
  {
    if ReadRecord(b, pos).Some? && n > 1 {
      LeastTtlIsNat(b, ReadRecord(b, pos).value.next, n - 1);
    }
  }

  lemma {:induction false} NegativeTtlIsNat(b: Bytes, pos: nat, n: nat)
    ensures NegativeTtl(b, pos, n).Some? ==> 0 <= NegativeTtl(b, pos, n).value <= NEGATIVE_TTL_CAP_SECS
    decreases n
  {
    if n > 0 && ReadRecord(b, pos).Some? {
      NegativeTtlIsNat(b, ReadRecord(b, pos).value.next, n - 1);
    }
  }

  lemma ResponseTtlIsNat(b: Bytes)
    requires ResponseTtl(b).Some?
    ensures ResponseTtl(b).value >= 0 && |b| >= DNS_HEADER_LEN
  {
    var pos := SkipQuestions(b, DNS_HEADER_LEN, U16(b, 4)).value;
    if U16(b, 6) > 0 {
      LeastTtlIsNat(b, pos, U16(b, 6));
    } else {
      NegativeTtlIsNat(b, pos, U16(b, 8));
    }
  }

  /** What is stored: the reply of the outbound that the cache belongs to, for the
      query's own key, with its own positive TTL. */
  predicate StoresOwn(cfg: Config, ask: Ask, s: Store) {
    && cfg.enableCache && QueryOf(ask.query).Some? && s.key == KeyOf(QueryOf(ask.query).value)
    && s.cache == CacheName(s.via) && !s.via.Block? && s.at == ask.storeAt
    && ResponseTtl(s.response) == Some(s.ttl) && s.ttl > 0 && |s.response| >= DNS_HEADER_LEN
    && (if s.via.Direct? then ask.direct else ask.proxied) == Some(s.response)
    && (s.via.Group? ==> cfg.route(QueryOf(ask.query).value.qname) == s.via)
  }

  lemma StoreFacts(cfg: Config, view: View, ask: Ask)
    requires Decide(cfg, view, ask).store.Some?
    ensures Decide(cfg, view, ask).servedAt.None? && StoresOwn(cfg, ask, Decide(cfg, view, ask).store.value)
  {
    ResponseTtlIsNat(Decide(cfg, view, ask).store.value.response);
  }

  /** The lookups that a resolution makes: the first, and for a group whose proxy is asked
      the one under the lock. */
  predicate LooksUpAt(cfg: Config, ask: Ask, q: DnsQuery, at: int) {
    var outbound := cfg.route(q.qname);
    at == ask.lookupAt || (at == ask.relookupAt && outbound.Group? && outbound.name in cfg.dialers && cfg.proxyServer)
  }

  /** A hit: an entry of the outbound's own cache for the query's key, not expired at the
      lookup that answered, with the query's id. */
  predicate Hits(cfg: Config, cache: Cache, ask: Ask, q: DnsQuery, o: Outcome)
    requires o.servedAt.Some?
  {
    && 0 <= q.id < 0x10000 && !cfg.route(q.qname).Block? && KeyOf(q) in cache
    && LooksUpAt(cfg, ask, q, o.servedAt.value)
    && var e := cache[KeyOf(q)];
       o.servedAt.value < e.expires && o.reply == Some(RewriteId(e.response, q.id))
  }

  lemma HitFacts(cfg: Config, view: View, ask: Ask)
    requires Decide(cfg, view, ask).servedAt.Some?
    ensures QueryOf(ask.query).Some?
    ensures var q := QueryOf(ask.query).value;
            Hits(cfg, At(view, CacheName(cfg.route(q.qname))), ask, q, Decide(cfg, view, ask))
  {
    QueryIdIsU16(ask.query);
  }

  function Deciding(cfg: Config): Decider { (view, ask) => Decide(cfg, view, ask) }

  lemma DecidingStoresPositive(cfg: Config)
    ensures StoresPositive(Deciding(cfg))
  {
    forall v, a | Deciding(cfg)(v, a).store.Some?
      ensures Deciding(cfg)(v, a).store.value.ttl > 0
    {
      StoreFacts(cfg, v, a);
    }
  }

  /** The reply is the stored response with only the id changed, stored for the key of
      this query through this query's outbound, and not expired at the lookup that answered. */
  predicate FreshAndIsolated(cfg: Config, stored: Ask, s: Store, ask: Ask, q: DnsQuery, o: Outcome)
    requires o.servedAt.Some?
  {
    && StoresOwn(cfg, stored, s) && s.via == cfg.route(q.qname) && s.key == KeyOf(q)
    && LooksUpAt(cfg, ask, q, o.servedAt.value) && o.servedAt.value < s.at + s.ttl * SECOND
    && o.reply.Some? && |o.reply.value| == |s.response| && o.reply.value[2..] == s.response[2..]
    && U16(o.reply.value, 0) == q.id
  }

  /** Every answer from a cache, after every sequence of queries: there is a last query
      whose response was stored for this key in this outbound's cache, it was fetched
      through this outbound, and it is what is answered. */
  lemma HitsAreFreshAndIsolated(cfg: Config, asks: seq<Ask>, ask: Ask) returns (at: nat)
    requires Decide(cfg, Run(Deciding(cfg), asks), ask).servedAt.Some?
    ensures QueryOf(ask.query).Some?
    ensures var q := QueryOf(ask.query).value;
            LastStore(Deciding(cfg), asks, CacheName(cfg.route(q.qname)), KeyOf(q)) == Some(at) && at < |asks|
    ensures var o := OutcomeOf(Deciding(cfg), asks, at);
            o.store.Some? && FreshAndIsolated(cfg, asks[at], o.store.value, ask, QueryOf(ask.query).value,
                                              Decide(cfg, Run(Deciding(cfg), asks), ask))
  {
    var decide := Deciding(cfg);
    var view := Run(decide, asks);
    var served := Decide(cfg, view, ask);
    HitFacts(cfg, view, ask);
    var q := QueryOf(ask.query).value;
    var name, key := CacheName(cfg.route(q.qname)), KeyOf(q);
    DecidingStoresPositive(cfg);
    EntryIsLastStore(decide, asks, name, key);
    LastStoreIsLast(decide, asks, name, key);
    at := LastStore(decide, asks, name, key).value;
    StoreFacts(cfg, Run(decide, asks[..at]), asks[at]);
    HitIsFresh(cfg, asks[at], OutcomeOf(decide, asks, at).store.value, At(view, name), ask, q, served);
  }

  lemma HitIsFresh(cfg: Config, stored: Ask, s: Store, cache: Cache, ask: Ask, q: DnsQuery, o: Outcome)
    requires o.servedAt.Some?
    requires StoresOwn(cfg, stored, s) && s.cache == CacheName(cfg.route(q.qname)) && s.key == KeyOf(q)
    requires Hits(cfg, cache, ask, q, o) && cache[KeyOf(q)] == EntryOf(s)
    ensures FreshAndIsolated(cfg, stored, s, ask, q, o)
  {
    if s.via != cfg.route(q.qname) {
      CacheNamesDiffer(s.via, cfg.route(q.qname));
    }
  }

  /** No cache ever holds more than 2048 entries. */
  lemma {:induction false} CachesAreBounded(decide: Decider, asks: seq<Ask>, name: string)
    ensures |At(Run(decide, asks), name)| <= DNS_CACHE_MAX
  {
    if |asks| > 0 {
      CachesAreBounded(decide, asks[..|asks| - 1], name);
    }
  }

  /** The cache was never at capacity when a query was resolved. */
  predicate NeverFull(decide: Decider, asks: seq<Ask>, name: string) {
    |asks| == 0 ||
    (|At(Run(decide, asks[..|asks| - 1]), name)| < DNS_CACHE_MAX && NeverFull(decide, asks[..|asks| - 1], name))
  }

  /** Below capacity nothing stored is lost: a key is held exactly when it was stored. */
  lemma {:induction false} NothingIsLost(decide: Decider, asks: seq<Ask>, name: string, key: CacheKey)
    requires StoresPositive(decide) && NeverFull(decide, asks, name)
    ensures key in At(Run(decide, asks), name) <==> LastStore(decide, asks, name, key).Some?
  {
    if |asks| > 0 {
      NothingIsLost(decide, asks[..|asks| - 1], name, key);
    }
  }

  lemma HitIff(cfg: Config, view: View, ask: Ask)
    requires QueryOf(ask.query).Some? && cfg.enableCache && ask.relookupAt >= ask.lookupAt
    requires var outbound := cfg.route(QueryOf(ask.query).value.qname);
             !outbound.Block? && (outbound.Direct? ==> ask.serverOk)
    ensures var q := QueryOf(ask.query).value;
            var cache := At(view, CacheName(cfg.route(q.qname)));
            Decide(cfg, view, ask).servedAt.Some? <==> KeyOf(q) in cache && ask.lookupAt < cache[KeyOf(q)].expires
  {
    QueryIdIsU16(ask.query);
  }

  /** Below capacity a query is answered from its outbound's cache exactly when the last
      response stored there for its key has not expired. */
  lemma HitIffStoredAndFresh(cfg: Config, asks: seq<Ask>, ask: Ask)
    requires QueryOf(ask.query).Some? && cfg.enableCache && ask.relookupAt >= ask.lookupAt
    requires var outbound := cfg.route(QueryOf(ask.query).value.qname);
             !outbound.Block? && (outbound.Direct? ==> ask.serverOk)
    requires NeverFull(Deciding(cfg), asks, CacheName(cfg.route(QueryOf(ask.query).value.qname)))
    ensures var q := QueryOf(ask.query).value;
            var at := LastStore(Deciding(cfg), asks, CacheName(cfg.route(q.qname)), KeyOf(q));
            Decide(cfg, Run(Deciding(cfg), asks), ask).servedAt.Some? <==>
            at.Some? && OutcomeOf(Deciding(cfg), asks, at.value).store.Some?
            && ask.lookupAt < EntryOf(OutcomeOf(Deciding(cfg), asks, at.value).store.value).expires
  {
    var decide := Deciding(cfg);
    var view := Run(decide, asks);
    var q := QueryOf(ask.query).value;
    var name, key := CacheName(cfg.route(q.qname)), KeyOf(q);
    HitIff(cfg, view, ask);
    DecidingStoresPositive(cfg);
    NothingIsLost(decide, asks, name, key);
    if key in At(view, name) {
      EntryIsLastStore(decide, asks, name, key);
    }
  }

  // ----- Refusals -----

  lemma {:induction false} SameTailSameName(a: Bytes, b: Bytes, pos: nat)
    requires |a| == |b| && pos >= DNS_HEADER_LEN && forall i :: DNS_HEADER_LEN <= i < |a| ==> a[i] == b[i]
    ensures ReadName(a, pos) == ReadName(b, pos) && SkipName(a, pos) == SkipName(b, pos)
    decreases |a| - pos
  {
    if pos < |a| && 0 < a[pos] <= 63 && pos + 1 + a[pos] <= |a| {
      assert a[pos + 1..pos + 1 + a[pos]] == b[pos + 1..pos + 1 + b[pos]];
      SameTailSameName(a, b, pos + 1 + a[pos]);
    }
  }

  lemma {:induction false} SameTailSameEdns(a: Bytes, b: Bytes, pos: nat)
    requires |a| == |b| && pos >= DNS_HEADER_LEN && forall i :: DNS_HEADER_LEN <= i < |a| ==> a[i] == b[i]
    ensures Edns(a, pos) == Edns(b, pos)
    decreases |a| - pos
  {
    SameTailSameName(a, b, pos);
    SkipNameAdvances(a, pos);
    var r := ReadRecord(a, pos);
    assert r == ReadRecord(b, pos);
    if r.Some? {
      SameTailSameEdns(a, b, r.value.next);
    }
  }

  /** The recursion-desired bit of a message long enough to have one. */
  predicate WantsRecursion(query: Bytes) {
    |query| >= 4 && U16(query, 2) / 0x0100 % 2 == 1
  }

  /** A refusal of any bytes, cut short or not, is a response that carries their id, their
      recursion-desired bit and the low four bits of the code, counts one question and no
      record, and repeats every byte after the header. */
  lemma RefusalOfAnyBytes(query: Bytes, rcode: int)
    requires 0 <= rcode < 0x100
    ensures var r := Refusal(query, rcode);
            && |r| == (if |query| > DNS_HEADER_LEN then |query| else DNS_HEADER_LEN)
            && U16(r, 0) == (if |query| >= 2 then U16(query, 0) else 0)
            && U16(r, 2) == 0x8000 + (if WantsRecursion(query) then 0x0100 else 0) + rcode % 16
            && U16(r, 4) == 1 && U16(r, 6) == U16(r, 8) == U16(r, 10) == 0
            && forall i :: DNS_HEADER_LEN <= i < |r| ==> r[i] == query[i]
  {
    RefusalFlagsAsNumber(query, rcode);
    var flags := BigEndian16(RefusalFlags(query, rcode));
    var id := if |query| >= 2 then query[..2] else [0, 0];
    var rest := if |query| > DNS_HEADER_LEN then query[DNS_HEADER_LEN..] else [];
    HeaderFields(id, flags, [0, 1, 0, 0, 0, 0, 0, 0], rest);
  }

  lemma RefusalFlagsAsNumber(query: Bytes, rcode: int)
    ensures RefusalFlags(query, rcode) == 0x8000 + (if WantsRecursion(query) then 0x0100 else 0) + rcode % 16
    ensures 0x8000 <= RefusalFlags(query, rcode) < 0x10000
  {
    if |query| >= 4 {
      assert U16(query, 2) / 0x100 == query[2];
    }
  }

  /** Reading back the fields of a header built from its pieces. */
  lemma HeaderFields(id: Bytes, flags: Bytes, counts: Bytes, rest: Bytes)
    requires |id| == |flags| == 2 && |counts| == 8
    ensures var r := id + flags + counts + rest;
            && |r| == DNS_HEADER_LEN + |rest| && U16(r, 0) == U16(id, 0) && U16(r, 2) == U16(flags, 0)
            && (forall k :: 0 <= k <= 6 ==> U16(r, 4 + k) == U16(counts, k))
            && forall i :: DNS_HEADER_LEN <= i < |r| ==> r[i] == rest[i - DNS_HEADER_LEN]
  {
  }

  /** The answer to a blocked name is a response with code NXDOMAIN and no record, that
      carries the same id and asks the same question. */
  lemma BlockedAnswerEchoesQuery(query: Bytes)
    requires QueryOf(query).Some?
    ensures var r := Refusal(query, 3);
            && |r| == |query| > DNS_HEADER_LEN && QueryOf(r) == QueryOf(query)
            && U16(r, 2) == 0x8003 + (if WantsRecursion(query) then 0x0100 else 0)
            && U16(r, 6) == U16(r, 8) == U16(r, 10) == 0
  {
    assert |query| > DNS_HEADER_LEN;
    RefusalOfAnyBytes(query, 3);
    EchoIsSameQuery(Refusal(query, 3), query);
  }

  /** The same id, a question, and the same bytes after the header make the same query. */
  lemma EchoIsSameQuery(r: Bytes, query: Bytes)
    requires QueryOf(query).Some? && |r| == |query| > DNS_HEADER_LEN && U16(r, 0) == U16(query, 0) && U16(r, 4) == 1
    requires forall i :: DNS_HEADER_LEN <= i < |r| ==> r[i] == query[i]
    ensures QueryOf(r) == QueryOf(query)
  {
    SameTailSameName(r, query, DNS_HEADER_LEN);
    SameTailSameEdns(r, query, ReadName(query, DNS_HEADER_LEN).value.end + 4);
  }
}
