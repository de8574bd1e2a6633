/** What a query is answered, and through which outbound: the answers of a resolution in terms
    of the route, the caches and what the upstreams say. */
module DnsAnswers {
  import opened MatchSets
  import opened ByteStrings
  import opened DnsWire
  import opened DnsForwarding
  import opened DnsRuns

  /** The group can be asked: it has a dialer, and there is a server to ask through it. */
  predicate Usable(cfg: Config, g: string) { g in cfg.dialers && cfg.proxyServer }

  /** The outbound's own cache has an answer that is fresh at this time. */
  predicate FreshAt(cfg: Config, view: View, q: DnsQuery, now: int) {
    var cache := At(view, CacheName(cfg.route(q.qname)));
    cfg.enableCache && KeyOf(q) in cache && now < cache[KeyOf(q)].expires
  }

  /** A lookup finds an answer: the first, or under the lock of a group that can be asked the
      second. A direct query looks only when there is a direct upstream. */
  predicate IsHit(cfg: Config, view: View, ask: Ask, q: DnsQuery) {
    match cfg.route(q.qname)
    case Block => false
    case Direct => ask.serverOk && FreshAt(cfg, view, q, ask.lookupAt)
    case Group(g) => FreshAt(cfg, view, q, ask.lookupAt) || (Usable(cfg, g) && FreshAt(cfg, view, q, ask.relookupAt))
  }

  // ----- Every answer -----

  /** Bytes that are not a query are not answered, and nothing is stored. */
  lemma NoQueryNoAnswer(cfg: Config, view: View, ask: Ask)
    requires QueryOf(ask.query).None?
    ensures Decide(cfg, view, ask) == Outcome(None, None, None)
  {
  }

  /** A blocked name is refused: the answer is an NXDOMAIN response to the same question. No
      upstream is asked and nothing is stored. */
  lemma BlockedIsRefused(cfg: Config, view: View, ask: Ask)
    requires QueryOf(ask.query).Some? && cfg.route(QueryOf(ask.query).value.qname).Block?
    ensures var o := Decide(cfg, view, ask);
            && o.store.None? && o.servedAt.None? && o.reply.Some? && |o.reply.value| > DNS_HEADER_LEN
            && QueryOf(o.reply.value) == QueryOf(ask.query)
            && U16(o.reply.value, 2) == 0x8003 + (if WantsRecursion(ask.query) then 0x0100 else 0)
            && U16(o.reply.value, 6) == U16(o.reply.value, 8) == U16(o.reply.value, 10) == 0
  {
    BlockedAnswerEchoesQuery(ask.query);
  }

  /** A hit is answered with what the cache holds, with the query's id. */
  lemma HitIsServed(cfg: Config, view: View, ask: Ask)
    requires QueryOf(ask.query).Some? && IsHit(cfg, view, ask, QueryOf(ask.query).value)
    ensures var q := QueryOf(ask.query).value;
            var o := Decide(cfg, view, ask);
            && 0 <= q.id < 0x10000 && KeyOf(q) in At(view, CacheName(cfg.route(q.qname))) && o.store.None?
            && o.reply == Some(RewriteId(At(view, CacheName(cfg.route(q.qname)))[KeyOf(q)].response, q.id))
            && o.servedAt.Some? && FreshAt(cfg, view, q, o.servedAt.value)
  {
    QueryIdIsU16(ask.query);
  }

  /** What the upstreams say to a query that no cache answers: the group's proxy when the
      group can be asked and its proxy answers; otherwise the direct upstream, if there is
      one. */
  function Upstream(cfg: Config, ask: Ask, outbound: Outbound): (Outbound, Option<Bytes>) {
    if outbound.Group? && Usable(cfg, outbound.name) && ask.proxied.Some? then (outbound, ask.proxied)
    else (Direct, if ask.serverOk then ask.direct else None)
  }

  /** The response is kept: caching is on and it has a positive time to live. */
  predicate WorthKeeping(cfg: Config, response: Bytes) {
    cfg.enableCache && ResponseTtl(response).Some? && ResponseTtl(response).value != 0
  }

  /** Any other query is answered with what the upstream says, unchanged, and the response is
      stored under the query's key in the cache of the outbound that gave it, for its time to
      live; when no upstream answers there is no answer. */
  lemma MissIsAsked(cfg: Config, view: View, ask: Ask)
    requires QueryOf(ask.query).Some? && !cfg.route(QueryOf(ask.query).value.qname).Block?
    requires !IsHit(cfg, view, ask, QueryOf(ask.query).value)
    ensures var q := QueryOf(ask.query).value;
            var o, (via, answer) := Decide(cfg, view, ask), Upstream(cfg, ask, cfg.route(q.qname));
            && o.reply == answer && o.servedAt.None?
            && (o.store.Some? <==> answer.Some? && WorthKeeping(cfg, answer.value))
            && (o.store.Some? ==>
                  o.store.value == Store(CacheName(via), KeyOf(q), via, answer.value, ResponseTtl(answer.value).value,
                                         ask.storeAt))
  {
    QueryIdIsU16(ask.query);
  }

  /** Exactly when a query of a group is answered by the direct upstream. */
  lemma FallsBackIff(cfg: Config, view: View, ask: Ask, g: string)
    requires QueryOf(ask.query).Some? && cfg.route(QueryOf(ask.query).value.qname) == Group(g)
    requires !IsHit(cfg, view, ask, QueryOf(ask.query).value) && ask.direct.Some? && ask.proxied != ask.direct
    ensures Decide(cfg, view, ask).reply == ask.direct <==>
            ask.serverOk && (g !in cfg.dialers || !cfg.proxyServer || ask.proxied.None?)
  {
    MissIsAsked(cfg, view, ask);
  }

  // ----- No leaks -----

  /** The query of a group whose proxy answers does not depend on the direct upstream in any
      way, cached or not. */
  lemma GroupDoesNotLeak(cfg: Config, view: View, ask: Ask, g: string, direct: Option<Bytes>, serverOk: bool)
    requires QueryOf(ask.query).Some? && cfg.route(QueryOf(ask.query).value.qname) == Group(g)
    requires Usable(cfg, g) && ask.proxied.Some?
    ensures Decide(cfg, view, ask.(direct := direct, serverOk := serverOk)) == Decide(cfg, view, ask)
  {
  }

  /** A direct or blocked query does not depend on any proxy. */
  lemma DirectUsesNoProxy(cfg: Config, view: View, ask: Ask, proxied: Option<Bytes>)
    requires QueryOf(ask.query).Some? && !cfg.route(QueryOf(ask.query).value.qname).Group?
    ensures Decide(cfg, view, ask.(proxied := proxied)) == Decide(cfg, view, ask)
  {
  }

  /** An outbound reads its own cache only: what the others hold does not matter. */
  lemma OnlyOwnCacheRead(cfg: Config, view: View, other: View, ask: Ask)
    requires QueryOf(ask.query).Some? ==>
               var name := CacheName(cfg.route(QueryOf(ask.query).value.qname)); At(view, name) == At(other, name)
    ensures Decide(cfg, view, ask) == Decide(cfg, other, ask)
  {
  }

  /** The same query in the same circumstances, except for what the direct upstream says. */
  ghost predicate SameButDirect(a: Ask, b: Ask) { b == a.(direct := b.direct, serverOk := b.serverOk) }

  ghost predicate RunsSameButDirect(asks: seq<Ask>, others: seq<Ask>) {
    |asks| == |others| && forall i :: 0 <= i < |asks| ==> SameButDirect(asks[i], others[i])
  }

  /** What an outcome puts in the named cache. */
  function StoreIn(o: Outcome, name: string): Option<Store> {
    if o.store.Some? && o.store.value.cache == name then o.store else None
  }

  lemma CommitIn(view: View, store: Option<Store>, sweep: CacheKey -> int, name: string)
    ensures At(Commit(view, store, sweep), name) ==
            if store.Some? && store.value.cache == name then Kept(At(view, name), store, sweep) else At(view, name)
  {
  }

  /** Queries of other outbounds put nothing in the cache of a group. */
  lemma OthersStoreElsewhere(cfg: Config, view: View, ask: Ask, g: string)
    requires QueryOf(ask.query).Some? ==> cfg.route(QueryOf(ask.query).value.qname) != Group(g)
    ensures StoreIn(Decide(cfg, view, ask), CacheName(Group(g))).None?
  {
    if Decide(cfg, view, ask).store.Some? {
      StoreFacts(cfg, view, ask);
      CacheNamesDiffer(Decide(cfg, view, ask).store.value.via, Group(g));
    }
  }

  /** And its own queries put there what does not depend on the direct upstream. */
  lemma OwnStoresIgnoreDirect(cfg: Config, view: View, a: Ask, b: Ask, g: string)
    requires SameButDirect(a, b) && QueryOf(a.query).Some? && cfg.route(QueryOf(a.query).value.qname) == Group(g)
    ensures StoreIn(Decide(cfg, view, a), CacheName(Group(g))) == StoreIn(Decide(cfg, view, b), CacheName(Group(g)))
  {
    CacheNamesDiffer(Direct, Group(g));
  }

  lemma StepIgnoresDirect(cfg: Config, view: View, other: View, a: Ask, b: Ask, g: string)
    requires SameButDirect(a, b) && At(view, CacheName(Group(g))) == At(other, CacheName(Group(g)))
    ensures At(Commit(view, Decide(cfg, view, a).store, a.sweep), CacheName(Group(g))) ==
            At(Commit(other, Decide(cfg, other, b).store, b.sweep), CacheName(Group(g)))
  {
    if QueryOf(a.query).Some? && cfg.route(QueryOf(a.query).value.qname) == Group(g) {
      OnlyOwnCacheRead(cfg, view, other, a);
      OwnStoresIgnoreDirect(cfg, other, a, b, g);
    } else {
      OthersStoreElsewhere(cfg, view, a, g);
      OthersStoreElsewhere(cfg, other, b, g);
    }
    CommitIn(view, Decide(cfg, view, a).store, a.sweep, CacheName(Group(g)));
    CommitIn(other, Decide(cfg, other, b).store, b.sweep, CacheName(Group(g)));
  }

  /** Over every run, what the direct upstream says to any query never reaches the cache of a
      group. */
  lemma {:induction false} GroupCachesIgnoreDirect(cfg: Config, asks: seq<Ask>, others: seq<Ask>, g: string)
    requires RunsSameButDirect(asks, others)
    ensures At(Run(Deciding(cfg), asks), CacheName(Group(g))) == At(Run(Deciding(cfg), others), CacheName(Group(g)))
    decreases |asks|
  {
    if |asks| > 0 {
      var n := |asks| - 1;
      GroupCachesIgnoreDirect(cfg, asks[..n], others[..n], g);
      StepIgnoresDirect(cfg, Run(Deciding(cfg), asks[..n]), Run(Deciding(cfg), others[..n]), asks[n], others[n], g);
    }
  }

  /** So over every run a group whose proxy answers gives the same answers whatever the direct
      upstream says, now or before. */
  lemma GroupAnswersIgnoreDirect(cfg: Config, asks: seq<Ask>, others: seq<Ask>, a: Ask, b: Ask, g: string)
    requires RunsSameButDirect(asks, others) && SameButDirect(a, b) && Usable(cfg, g) && a.proxied.Some?
    requires QueryOf(a.query).Some? && cfg.route(QueryOf(a.query).value.qname) == Group(g)
    ensures Decide(cfg, Run(Deciding(cfg), asks), a) == Decide(cfg, Run(Deciding(cfg), others), b)
  {
    GroupCachesIgnoreDirect(cfg, asks, others, g);
    OnlyOwnCacheRead(cfg, Run(Deciding(cfg), asks), Run(Deciding(cfg), others), a);
    GroupDoesNotLeak(cfg, Run(Deciding(cfg), others), a, g, b.direct, b.serverOk);
  }

  // ----- Asked again -----

  /** What a stored response leaves: its entry in the cache of its outbound, and every other
      cache as it was. */
  lemma StoreIsLookedUp(view: View, s: Store, sweep: CacheKey -> int)
    requires s.ttl > 0
    ensures var after := Commit(view, Some(s), sweep);
            && s.key in At(after, s.cache) && At(after, s.cache)[s.key] == Entry(s.response, s.at + s.ttl * SECOND)
            && forall n :: n != s.cache ==> At(after, n) == At(view, n)
  {
  }

  /** The same key asked again before the response expires is answered with it from the cache
      of its outbound, asking no one. */
  lemma AskedAgainIsServed(cfg: Config, view: View, ask: Ask, again: Ask)
    requires QueryOf(ask.query).Some? && QueryOf(again.query).Some?
    requires KeyOf(QueryOf(again.query).value) == KeyOf(QueryOf(ask.query).value)
    requires var o := Decide(cfg, view, ask);
             && o.store.Some? && o.store.value.via == cfg.route(QueryOf(ask.query).value.qname)
             && again.lookupAt < o.store.value.at + o.store.value.ttl * SECOND
             && (o.store.value.via.Direct? ==> again.serverOk)
    ensures var o, q := Decide(cfg, view, ask), QueryOf(again.query).value;
            var o1 := Decide(cfg, Commit(view, o.store, ask.sweep), again);
            && o1.store.None? && o1.servedAt == Some(again.lookupAt) && o.reply.Some? && 0 <= q.id < 0x10000
            && o1.reply == Some(RewriteId(o.reply.value, q.id))
  {
    var o := Decide(cfg, view, ask);
    StoreFacts(cfg, view, ask);
    StoreIsLookedUp(view, o.store.value, ask.sweep);
    QueryIdIsU16(again.query);
    AnsweredWhatIsStored(cfg, view, ask);
  }

  lemma AnsweredWhatIsStored(cfg: Config, view: View, ask: Ask)
    requires Decide(cfg, view, ask).store.Some?
    ensures Decide(cfg, view, ask).reply == Some(Decide(cfg, view, ask).store.value.response)
  {
  }

  /** The answer that a group takes from the direct upstream stays out of its own cache: the
      next query goes to the proxy again. */
  lemma FallbackIsNotCachedForGroup(cfg: Config, view: View, ask: Ask, g: string)
    requires QueryOf(ask.query).Some? && cfg.route(QueryOf(ask.query).value.qname) == Group(g)
    requires !(Usable(cfg, g) && ask.proxied.Some?)
    ensures var name := CacheName(Group(g));
            At(Commit(view, Decide(cfg, view, ask).store, ask.sweep), name) == At(view, name)
  {
    CacheNamesDiffer(Direct, Group(g));
  }
}
