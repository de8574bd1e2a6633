/** Direct queries that run at the same time: one of them is registered as being in flight
    and the others wait for it. Every lookup, registration, notification and store is one
    step, and the steps of all queries interleave freely. */
module DnsFlights {
  import opened MatchSets
  import opened ByteStrings
  import opened DnsWire
  import opened DnsForwarding
  import DnsRuns

  /** A query on its way through the direct branch. `leader` is the query whose notifier it
      holds: it is not told of anything before it listens. */
  datatype Task =
    | Asking(q: DnsQuery)
    | Missed(q: DnsQuery)
    | Joining(q: DnsQuery, leader: nat)
    | Listening(q: DnsQuery, leader: nat)
    | Woken(q: DnsQuery)
    | Forwarding(q: DnsQuery)
    | Got(q: DnsQuery, answer: Option<Bytes>)
    | Ended(q: DnsQuery, response: Bytes)
    | Done(q: DnsQuery, reply: Option<Bytes>)

  /** `stores` and `sent` record what was stored and which keys were asked upstream. */
  datatype Sys = Sys(
    cache: Cache, inflight: map<CacheKey, nat>, tasks: map<nat, Task>, stores: seq<Store>, sent: seq<CacheKey>)

  datatype Event =
    | Arrive(task: nat, q: DnsQuery)
    | Go(task: nat, now: int, answer: Option<Bytes>, sweep: CacheKey -> int)

  function Start(): Sys { Sys(map[], map[], map[], [], []) }

  function Find(cfg: Config, cache: Cache, q: DnsQuery, now: int): Option<Bytes> {
    if 0 <= q.id < 0x10000 then Served(cfg, cache, q, now) else None
  }

  function Notified(tasks: map<nat, Task>, leader: nat): map<nat, Task> {
    map t | t in tasks :: if tasks[t].Listening? && tasks[t].leader == leader then Woken(tasks[t].q) else tasks[t]
  }

  /** Removes whatever is registered under the key, and tells those that listen to it. */
  function EndFlight(s: Sys, key: CacheKey): Sys {
    if key !in s.inflight then s
    else s.(inflight := s.inflight - {key}, tasks := Notified(s.tasks, s.inflight[key]))
  }

  function Put(s: Sys, t: nat, task: Task): Sys { s.(tasks := s.tasks[t := task]) }

  function Forward(s: Sys, t: nat, q: DnsQuery): Sys { Put(s, t, Forwarding(q)).(sent := s.sent + [KeyOf(q)]) }

  function Store(cfg: Config, s: Sys, q: DnsQuery, response: Bytes, e: Event): Sys
    requires e.Go?
  {
    var store := StoreOf(cfg, Direct, q, response, e.now);
    s.(cache := Kept(s.cache, store, e.sweep), stores := if store.Some? then s.stores + [store.value] else s.stores)
  }

  function Advance(cfg: Config, s: Sys, t: nat, e: Event): Sys
    requires e.Go? && t in s.tasks
  {
    match s.tasks[t]
    case Asking(q) =>
      var found := Find(cfg, s.cache, q, e.now);
      Put(s, t, if found.Some? then Done(q, found) else Missed(q))
    case Missed(q) =>
      if KeyOf(q) in s.inflight then Put(s, t, Joining(q, s.inflight[KeyOf(q)]))
      else Forward(s.(inflight := s.inflight[KeyOf(q) := t]), t, q)
    case Joining(q, leader) => Put(s, t, Listening(q, leader))
    case Listening(_, _) => s
    case Woken(q) =>
      var found := Find(cfg, s.cache, q, e.now);
      if found.Some? then Put(s, t, Done(q, found)) else Forward(s, t, q)
    case Forwarding(q) => Put(s, t, Got(q, e.answer))
    case Got(q, answer) =>
      Put(EndFlight(s, KeyOf(q)), t, if answer.None? then Done(q, None) else Ended(q, answer.value))
    case Ended(q, response) => Put(Store(cfg, s, q, response, e), t, Done(q, Some(response)))
    case Done(_, _) => s
  }

  function Next(cfg: Config, s: Sys, e: Event): Sys {
    if e.Arrive? then (if e.task in s.tasks then s else Put(s, e.task, Asking(e.q)))
    else if e.task !in s.tasks then s
    else Advance(cfg, s, e.task, e)
  }

  function Run(cfg: Config, s: Sys, events: seq<Event>): Sys {
    if events == [] then s else Next(cfg, Run(cfg, s, events[..|events| - 1]), events[|events| - 1])
  }

  lemma RunOne(cfg: Config, s: Sys, e: Event)
    ensures Run(cfg, s, [e]) == Next(cfg, s, e)
  {
    assert [e][..0] == [];
  }

  lemma RunSnoc(cfg: Config, s: Sys, events: seq<Event>, e: Event)
    ensures Run(cfg, s, events + [e]) == Next(cfg, Run(cfg, s, events), e)
  {
    assert (events + [e])[..|events|] == events;
  }

  // ----- What every run keeps -----

  predicate InFlight(task: Task) { task.Forwarding? || task.Got? }

  /** It has sent its request, or is past that. */
  predicate Sent(task: Task) { InFlight(task) || task.Ended? || task.Done? }

  /** Whoever is registered is in flight with that key. */
  predicate Registered(s: Sys, k: CacheKey)
    requires k in s.inflight
  {
    s.inflight[k] in s.tasks && InFlight(s.tasks[s.inflight[k]]) && KeyOf(s.tasks[s.inflight[k]].q) == k
  }

  /** Whoever waits, waits for a query with the same key that has sent its request. */
  predicate Follows(s: Sys, t: nat)
    requires t in s.tasks
  {
    var task := s.tasks[t];
    task.Joining? || task.Listening? ==>
      task.leader in s.tasks && Sent(s.tasks[task.leader]) && KeyOf(s.tasks[task.leader].q) == KeyOf(task.q)
  }

  predicate Inv(s: Sys) {
    (forall k :: k in s.inflight ==> Registered(s, k)) && (forall t :: t in s.tasks ==> Follows(s, t))
  }

  /** The query is about to be registered. */
  predicate Registers(s: Sys, t: nat)
    requires t in s.tasks
  {
    s.tasks[t].Missed? && KeyOf(s.tasks[t].q) !in s.inflight
  }

  /** What one step of query `t` may do to the others and to the registrations: `task` is
      what becomes of itself. */
  predicate Moved(s: Sys, s1: Sys, t: nat, task: Task)
    requires t in s.tasks
  {
    var was, key := s.tasks[t], KeyOf(s.tasks[t].q);
    && task.q == was.q && (Sent(was) ==> Sent(task)) && (was.Forwarding? ==> task.Got?)
    && s1.tasks == (if was.Got? then EndFlight(s, key).tasks else s.tasks)[t := task]
    && s1.inflight == (if was.Got? then s.inflight - {key}
                       else if Registers(s, t) then s.inflight[key := t] else s.inflight)
    && (Registers(s, t) ==> task.Forwarding?) && (was.Listening? ==> task == was)
    && (task.Joining? || task.Listening? ==>
          (was.Missed? && key in s.inflight && task.leader == s.inflight[key])
          || ((was.Joining? || was.Listening?) && task.leader == was.leader))
  }

  lemma AdvanceMoves(cfg: Config, s: Sys, t: nat, e: Event) returns (task: Task)
    requires e.Go? && t in s.tasks
    ensures Moved(s, Advance(cfg, s, t, e), t, task)
  {
    task := Advance(cfg, s, t, e).tasks[t];
  }

  lemma MovedKeepsRegistered(s: Sys, s1: Sys, t: nat, task: Task, k: CacheKey)
    requires Inv(s) && t in s.tasks && Moved(s, s1, t, task) && k in s1.inflight
    ensures Registered(s1, k)
  {
    if k in s.inflight { assert Registered(s, k); }
  }

  lemma MovedKeepsFollows(s: Sys, s1: Sys, t: nat, task: Task, u: nat)
    requires Inv(s) && t in s.tasks && Moved(s, s1, t, task) && u in s1.tasks
    ensures Follows(s1, u)
  {
    assert Follows(s, u);
    if u == t {
      if s.tasks[t].Missed? && KeyOf(s.tasks[t].q) in s.inflight {
        assert Registered(s, KeyOf(s.tasks[t].q));
      }
    } else if s1.tasks[u].Joining? || s1.tasks[u].Listening? {
      MovedKeepsLeader(s, s1, t, task, s.tasks[u].leader);
    }
  }

  /** Who has sent its request keeps its query and does not go back. */
  lemma MovedKeepsLeader(s: Sys, s1: Sys, t: nat, task: Task, leader: nat)
    requires t in s.tasks && Moved(s, s1, t, task) && leader in s.tasks && Sent(s.tasks[leader])
    ensures leader in s1.tasks && Sent(s1.tasks[leader]) && s1.tasks[leader].q == s.tasks[leader].q
  {
  }

  lemma ArrivalKeeps(s: Sys, t: nat, q: DnsQuery)
    requires Inv(s) && t !in s.tasks
    ensures Inv(Put(s, t, Asking(q)))
  {
    var s1 := Put(s, t, Asking(q));
    forall k | k in s1.inflight
      ensures Registered(s1, k)
    {
      assert Registered(s, k);
    }
    forall u | u in s1.tasks
      ensures Follows(s1, u)
    {
      if u in s.tasks { assert Follows(s, u); }
    }
  }

  lemma StepKeeps(cfg: Config, s: Sys, e: Event)
    requires Inv(s)
    ensures Inv(Next(cfg, s, e))
  {
    var s1 := Next(cfg, s, e);
    if e.Arrive? {
      if e.task !in s.tasks { ArrivalKeeps(s, e.task, e.q); }
    } else if e.task in s.tasks {
      var task := AdvanceMoves(cfg, s, e.task, e);
      forall k | k in s1.inflight
        ensures Registered(s1, k)
      {
        MovedKeepsRegistered(s, s1, e.task, task, k);
      }
      forall u | u in s1.tasks
        ensures Follows(s1, u)
      {
        MovedKeepsFollows(s, s1, e.task, task, u);
      }
    }
  }

  lemma {:induction false} RunKeeps(cfg: Config, s: Sys, events: seq<Event>)
    requires Inv(s)
    ensures Inv(Run(cfg, s, events))
    decreases |events|
  {
    if events != [] {
      RunKeeps(cfg, s, events[..|events| - 1]);
      StepKeeps(cfg, Run(cfg, s, events[..|events| - 1]), events[|events| - 1]);
    }
  }

  lemma StartInv()
    ensures Inv(Start())
  {
  }

  /** No registration is left behind: when every query is done, none is. */
  lemma NothingStaysRegistered(cfg: Config, events: seq<Event>)
    requires var s := Run(cfg, Start(), events); forall t :: t in s.tasks ==> s.tasks[t].Done?
    ensures Run(cfg, Start(), events).inflight == map[]
  {
    StartInv();
    RunKeeps(cfg, Start(), events);
    var s := Run(cfg, Start(), events);
    assert forall k :: k in s.inflight ==> Registered(s, k);
  }

  // ----- Who is woken -----

  /** The query waits for a registration that is gone. */
  predicate Forgotten(s: Sys, t: nat, q: DnsQuery, leader: nat) {
    && t in s.tasks && s.tasks[t] == Listening(q, leader)
    && (forall k :: k in s.inflight ==> s.inflight[k] != leader)
    && leader in s.tasks && Sent(s.tasks[leader])
  }

  lemma StepForgets(cfg: Config, s: Sys, e: Event, t: nat, q: DnsQuery, leader: nat)
    requires Forgotten(s, t, q, leader)
    ensures Forgotten(Next(cfg, s, e), t, q, leader)
  {
    if e.Go? && e.task in s.tasks {
      var task := AdvanceMoves(cfg, s, e.task, e);
      MovedForgets(s, Next(cfg, s, e), e.task, task, t, q, leader);
    }
  }

  lemma MovedForgets(s: Sys, s1: Sys, u: nat, task: Task, t: nat, q: DnsQuery, leader: nat)
    requires Forgotten(s, t, q, leader) && u in s.tasks && Moved(s, s1, u, task)
    ensures Forgotten(s1, t, q, leader)
  {
    assert Registers(s, u) ==> u != leader;
  }

  /** Such a query waits for ever, whatever happens. */
  lemma {:induction false} WaitsForEver(cfg: Config, s: Sys, events: seq<Event>, t: nat, q: DnsQuery, leader: nat)
    requires Forgotten(s, t, q, leader)
    ensures Forgotten(Run(cfg, s, events), t, q, leader)
    decreases |events|
  {
    if events != [] {
      WaitsForEver(cfg, s, events[..|events| - 1], t, q, leader);
      StepForgets(cfg, Run(cfg, s, events[..|events| - 1]), events[|events| - 1], t, q, leader);
    }
  }

  function Tick(t: nat): Event { Go(t, 0, None, _ => 0) }

  lemma LeaderWakes(cfg: Config, s: Sys, t: nat, q: DnsQuery, leader: nat) returns (events: seq<Event>)
    requires Inv(s) && t in s.tasks && s.tasks[t] == Listening(q, leader)
    requires KeyOf(q) in s.inflight && s.inflight[KeyOf(q)] == leader
    ensures t in Run(cfg, s, events).tasks && Run(cfg, s, events).tasks[t] == Woken(q)
  {
    var e, k := Tick(leader), KeyOf(q);
    assert Registered(s, k);
    RunOne(cfg, s, e);
    if s.tasks[leader].Got? {
      events := [e];
    } else {
      var s1 := Next(cfg, s, e);
      assert s1.tasks[leader] == Got(s.tasks[leader].q, None) && s1.tasks[t] == s.tasks[t];
      RunSnoc(cfg, s, [e], e);
      events := [e] + [e];
    }
  }

  ghost predicate Moves(cfg: Config, s: Sys, t: nat, events: seq<Event>) {
    t in Run(cfg, s, events).tasks && !Run(cfg, s, events).tasks[t].Listening?
  }

  /** In every reachable state: a query that waits can ever go on if and only if the query it
      waits for is still the one registered under its key. */
  lemma WokenIff(cfg: Config, history: seq<Event>, t: nat)
    requires var s := Run(cfg, Start(), history); t in s.tasks && s.tasks[t].Listening?
    ensures var s := Run(cfg, Start(), history);
            (exists events :: Moves(cfg, s, t, events)) <==>
            KeyOf(s.tasks[t].q) in s.inflight && s.inflight[KeyOf(s.tasks[t].q)] == s.tasks[t].leader
  {
    var s := Run(cfg, Start(), history);
    RunKeeps(cfg, Start(), history);
    var Listening(q, leader) := s.tasks[t];
    assert Follows(s, t);
    if KeyOf(q) in s.inflight && s.inflight[KeyOf(q)] == leader {
      var events := LeaderWakes(cfg, s, t, q, leader);
      assert Moves(cfg, s, t, events);
    } else {
      forall k | k in s.inflight
        ensures s.inflight[k] != leader
      {
        assert Registered(s, k);
      }
      forall events
        ensures !Moves(cfg, s, t, events)
      {
        WaitsForEver(cfg, s, events, t, q, leader);
      }
    }
  }

  // ----- Cached answers under concurrency -----

  /** What the cache holds was stored for that key, through the direct outbound. */
  predicate WasStored(s: Sys, k: CacheKey, e: Entry) {
    exists i :: 0 <= i < |s.stores| && s.stores[i].key == k && s.stores[i].via.Direct?
                && DnsRuns.EntryOf(s.stores[i]) == e
  }

  predicate Logged(s: Sys) { forall k :: k in s.cache ==> WasStored(s, k, s.cache[k]) }

  lemma StoreLogs(cfg: Config, s: Sys, q: DnsQuery, response: Bytes, e: Event)
    requires e.Go? && Logged(s)
    ensures Logged(Store(cfg, s, q, response, e))
  {
    var s1 := Store(cfg, s, q, response, e);
    var store := StoreOf(cfg, Direct, q, response, e.now);
    if store.Some? {
      var last := |s.stores|;
      assert s1.stores[last] == store.value;
      forall k | k in s1.cache
        ensures WasStored(s1, k, s1.cache[k])
      {
        if k != store.value.key {
          assert k in s.cache && s1.cache[k] == s.cache[k] && WasStored(s, k, s.cache[k]);
          var i :| 0 <= i < |s.stores| && s.stores[i].key == k && s.stores[i].via.Direct?
                   && DnsRuns.EntryOf(s.stores[i]) == s.cache[k];
          assert s1.stores[i] == s.stores[i];
        }
      }
    }
  }

  lemma StepLogs(cfg: Config, s: Sys, e: Event)
    requires Logged(s)
    ensures Logged(Next(cfg, s, e))
  {
    if e.Go? && e.task in s.tasks && s.tasks[e.task].Ended? {
      var task := s.tasks[e.task];
      StoreLogs(cfg, s, task.q, task.response, e);
      SameLog(Store(cfg, s, task.q, task.response, e), Next(cfg, s, e));
    } else {
      SameLog(s, Next(cfg, s, e));
    }
  }

  lemma SameLog(s: Sys, s1: Sys)
    requires Logged(s) && s1.cache == s.cache && s1.stores == s.stores
    ensures Logged(s1)
  {
    forall k | k in s1.cache
      ensures WasStored(s1, k, s1.cache[k])
    {
      assert WasStored(s, k, s.cache[k]);
    }
  }

  lemma {:induction false} RunLogs(cfg: Config, s: Sys, events: seq<Event>)
    requires Logged(s)
    ensures Logged(Run(cfg, s, events))
    decreases |events|
  {
    if events != [] {
      RunLogs(cfg, s, events[..|events| - 1]);
      StepLogs(cfg, Run(cfg, s, events[..|events| - 1]), events[|events| - 1]);
    }
  }

  /** In every interleaving, an answer from the cache, at the first lookup or after waiting,
      is a response that was stored for the query's own key through the direct outbound and
      has not expired, with nothing but the id changed. */
  lemma CachedAnswersAreFresh(cfg: Config, history: seq<Event>, t: nat, now: int, sweep: CacheKey -> int)
    returns (i: nat)
    requires var s := Run(cfg, Start(), history);
             && t in s.tasks && (s.tasks[t].Asking? || s.tasks[t].Woken?)
             && Next(cfg, s, Go(t, now, None, sweep)).tasks[t].Done?
    ensures var s := Run(cfg, Start(), history);
            var q := s.tasks[t].q;
            && i < |s.stores| && s.stores[i].key == KeyOf(q) && s.stores[i].via.Direct?
            && now < s.stores[i].at + s.stores[i].ttl * SECOND && 0 <= q.id < 0x10000
            && Next(cfg, s, Go(t, now, None, sweep)).tasks[t] == Done(q, Some(RewriteId(s.stores[i].response, q.id)))
  {
    var s := Run(cfg, Start(), history);
    RunLogs(cfg, Start(), history);
    var key := KeyOf(s.tasks[t].q);
    assert WasStored(s, key, s.cache[key]);
    i :| 0 <= i < |s.stores| && s.stores[i].key == key && s.stores[i].via.Direct?
         && DnsRuns.EntryOf(s.stores[i]) == s.cache[key];
  }

  // ----- Where it falls short -----

  /** Two queries for one key, of which the first is in flight and the second about to wait. */
  function TwoAsk(q: DnsQuery): seq<Event> {
    [Arrive(0, q)] + [Arrive(1, q)] + [Tick(0)] + [Tick(1)] + [Tick(0)] + [Tick(1)]
  }

  lemma TwoAskReached(cfg: Config, q: DnsQuery)
    ensures Run(cfg, Start(), TwoAsk(q)) ==
            Sys(map[], map[KeyOf(q) := 0], map[0 := Forwarding(q), 1 := Joining(q, 0)], [], [KeyOf(q)])
  {
    var k := KeyOf(q);
    var e0, e1 := [Arrive(0, q)], [Arrive(0, q)] + [Arrive(1, q)];
    var e2, e3, e4 := e1 + [Tick(0)], e1 + [Tick(0)] + [Tick(1)], e1 + [Tick(0)] + [Tick(1)] + [Tick(0)];
    RunOne(cfg, Start(), Arrive(0, q));
    RunSnoc(cfg, Start(), e0, Arrive(1, q));
    assert Run(cfg, Start(), e1) == Sys(map[], map[], map[0 := Asking(q), 1 := Asking(q)], [], []);
    RunSnoc(cfg, Start(), e1, Tick(0));
    RunSnoc(cfg, Start(), e2, Tick(1));
    assert Run(cfg, Start(), e3) == Sys(map[], map[], map[0 := Missed(q), 1 := Missed(q)], [], []);
    RunSnoc(cfg, Start(), e3, Tick(0));
    assert Run(cfg, Start(), e4) == Sys(map[], map[k := 0], map[0 := Forwarding(q), 1 := Missed(q)], [], [k]);
    RunSnoc(cfg, Start(), e4, Tick(1));
  }

  function Answer(t: nat, r: Bytes): Event { Go(t, 0, Some(r), _ => 0) }

  /** The notification is lost on a query that does not listen yet: whatever the upstream
      answers, it waits for ever. */
  lemma WakeUpCanBeLost(cfg: Config, q: DnsQuery, answer: Option<Bytes>) returns (history: seq<Event>)
    ensures var s := Run(cfg, Start(), history);
            && 0 in s.tasks && 1 in s.tasks && s.tasks[1] == Listening(q, 0)
            && forall events :: !Moves(cfg, s, 1, events)
  {
    var e := Go(0, 0, answer, _ => 0);
    var h := TwoAsk(q);
    TwoAskReached(cfg, q);
    RunSnoc(cfg, Start(), h, e);
    RunSnoc(cfg, Start(), h + [e], Tick(0));
    RunSnoc(cfg, Start(), h + [e] + [Tick(0)], Tick(1));
    history := h + [e] + [Tick(0)] + [Tick(1)];
    var s := Run(cfg, Start(), history);
    assert s.tasks[1] == Listening(q, 0) && s.inflight == map[];
    WokenIff(cfg, history, 1);
  }

  /** A woken query sends a request of its own if and only if the cache has no entry of its
      key that is fresh when it looks. */
  lemma WokenSendsIff(cfg: Config, s: Sys, t: nat, e: Event)
    requires e.Go? && e.task == t && t in s.tasks && s.tasks[t].Woken? && 0 <= s.tasks[t].q.id < 0x10000
    ensures var key := KeyOf(s.tasks[t].q);
            Next(cfg, s, e).sent == s.sent + [key] <==>
            !(cfg.enableCache && key in s.cache && e.now < s.cache[key].expires)
  {
    assert |s.sent + [KeyOf(s.tasks[t].q)]| != |s.sent|;
  }

  /** A query that listens is woken before the answer is stored. Two requests are sent when it
      looks first, and one when the store comes first: then it is answered from the cache. */
  lemma SharingDependsOnOrder(cfg: Config, q: DnsQuery, r: Bytes)
    requires cfg.enableCache && 0 <= q.id < 0x10000 && ResponseTtl(r).Some? && ResponseTtl(r).value > 0
    ensures var h := WokenBy(q, r);
            && Run(cfg, Start(), h + [Tick(1)] + [Tick(0)]).sent == [KeyOf(q), KeyOf(q)]
            && Run(cfg, Start(), h + [Tick(0)] + [Tick(1)]).sent == [KeyOf(q)]
            && 1 in Run(cfg, Start(), h + [Tick(0)] + [Tick(1)]).tasks
            && Run(cfg, Start(), h + [Tick(0)] + [Tick(1)]).tasks[1] == Done(q, Some(RewriteId(r, q.id)))
  {
    SentAgain(cfg, q, r);
    StoredFirst(cfg, q, r);
  }

  function WokenBy(q: DnsQuery, r: Bytes): seq<Event> { TwoAsk(q) + [Tick(1)] + [Answer(0, r)] + [Tick(0)] }

  lemma SentAgain(cfg: Config, q: DnsQuery, r: Bytes)
    ensures Run(cfg, Start(), WokenBy(q, r) + [Tick(1)] + [Tick(0)]).sent == [KeyOf(q), KeyOf(q)]
  {
    var h := WokenBy(q, r);
    WokenEarly(cfg, q, r);
    RunSnoc(cfg, Start(), h, Tick(1));
    RunSnoc(cfg, Start(), h + [Tick(1)], Tick(0));
  }

  lemma StoredFirst(cfg: Config, q: DnsQuery, r: Bytes)
    requires cfg.enableCache && 0 <= q.id < 0x10000 && ResponseTtl(r).Some? && ResponseTtl(r).value > 0
    ensures var s := Run(cfg, Start(), WokenBy(q, r) + [Tick(0)] + [Tick(1)]);
            s.sent == [KeyOf(q)] && 1 in s.tasks && s.tasks[1] == Done(q, Some(RewriteId(r, q.id)))
  {
    var h := WokenBy(q, r);
    WokenEarly(cfg, q, r);
    var s := Run(cfg, Start(), h);
    RunSnoc(cfg, Start(), h, Tick(0));
    RunSnoc(cfg, Start(), h + [Tick(0)], Tick(1));
    var s1 := Next(cfg, s, Tick(0));
    assert s1.cache == map[KeyOf(q) := Entry(r, ResponseTtl(r).value * SECOND)] && s1.tasks[1] == Woken(q);
  }

  lemma WokenEarly(cfg: Config, q: DnsQuery, r: Bytes)
    ensures Run(cfg, Start(), WokenBy(q, r)) ==
            Sys(map[], map[], map[0 := Ended(q, r), 1 := Woken(q)], [], [KeyOf(q)])
  {
    var h, k := TwoAsk(q), KeyOf(q);
    TwoAskReached(cfg, q);
    RunSnoc(cfg, Start(), h, Tick(1));
    RunSnoc(cfg, Start(), h + [Tick(1)], Answer(0, r));
    RunSnoc(cfg, Start(), h + [Tick(1)] + [Answer(0, r)], Tick(0));
    assert Run(cfg, Start(), h + [Tick(1)] + [Answer(0, r)]) ==
           Sys(map[], map[k := 0], map[0 := Got(q, Some(r)), 1 := Listening(q, 0)], [], [k]);
  }
}
