/** Whole runs over the connection table: packets, and between any two of them the janitor
    looking at a key or deleting one. */
module ConnRuns {
  import opened MatchSets
  import opened RouteEngine
  import opened ConnTrack

  datatype Hook = Lan | Wan

  datatype Event =
    | Forward(hook: Hook, p: Packet, e: Env)
    | Backward(p: Packet, e: Env)
    /** A look at one key, by the janitor's own clock. */
    | Collect(now: nat, stamp: nat, inPressure: bool, key: Tuple)
    /** A deletion by key, which does not look at the entry. */
    | Delete(now: nat, key: Tuple)

  predicate IsPacket(ev: Event) { ev.Forward? || ev.Backward? }

  function TimeOf(ev: Event): nat { if IsPacket(ev) then ev.e.now else ev.now }

  /** The tuple whose entry a packet reads and writes. */
  function KeyOf(ev: Event): Tuple
    requires IsPacket(ev)
  {
    if ev.Forward? then ev.p.tuple else Reversed(ev.p.tuple)
  }

  /** WAN egress returns before it looks at the table for packets of the control plane
      and for a TCP SYN that has no route. */
  predicate Marks(ev: Event)
    requires IsPacket(ev)
  {
    ev.Forward? && ev.hook == Wan ==>
      if ev.p.tuple.proto == TCP then ev.p.syn ==> !ev.e.controlPlane && ev.e.route.Some? else !ev.e.controlPlane
  }

  predicate Touches(ev: Event, k: Tuple) { IsPacket(ev) && KeyOf(ev) == k && Marks(ev) }

  /** A SYN that reaches the table. */
  predicate StartsLife(ev: Event, k: Tuple) { Touches(ev, k) && k.proto == TCP && ev.p.syn }

  function EntryStep(o: Option<Conn>, ev: Event): Outcome
    requires IsPacket(ev)
  {
    match ev
    case Forward(hook, p, e) =>
      if p.tuple.proto == TCP then (if hook == Lan then LanTcp(o, p, e) else WanTcp(o, p, e))
      else (if hook == Lan then LanUdp(o, p, e) else WanUdp(o, p, e))
    case Backward(p, e) => ReverseSeen(o, p, e)
  }

  function Handle(t: Table, ev: Event): Table {
    match ev
    case Collect(_, _, _, _) => t
    case Delete(_, key) => t - {key}
    case _ => Put(t, KeyOf(ev), EntryStep(Get(t, KeyOf(ev)), ev).entry)
  }

  function Run(t: Table, events: seq<Event>): Table {
    if events == [] then t else Handle(Run(t, events[..|events| - 1]), events[|events| - 1])
  }

  /** The entry of a tuple at the end of a run. */
  function Row(events: seq<Event>, k: Tuple): Option<Conn> { Get(Run(map[], events), k) }

  /** The deletions of a sweep, one by one. */
  function Deletions(keys: seq<Tuple>, now: nat): seq<Event> {
    seq(|keys|, i requires 0 <= i < |keys| => Delete(now, keys[i]))
  }

  lemma {:induction false} DeletionsRun(t: Table, keys: seq<Tuple>, now: nat)
    ensures Run(t, Deletions(keys, now)) == Without(t, keys)
    decreases |keys|
  {
    if keys != [] {
      var n := |keys| - 1;
      DeletionsRun(t, keys[..n], now);
      assert Deletions(keys, now)[..n] == Deletions(keys[..n], now);
      WithoutNext(t, keys, n);
      assert keys[..n + 1] == keys;
    }
  }

  // ----- The life of a single entry -----

  function StepKey(o: Option<Conn>, ev: Event, k: Tuple): Option<Conn> {
    match ev
    case Collect(_, _, _, _) => o
    case Delete(_, key) => if key == k then None else o
    case _ => if KeyOf(ev) == k then EntryStep(o, ev).entry else o
  }

  /** An event acts on each entry by itself. */
  lemma HandleByKey(t: Table, ev: Event, k: Tuple)
    ensures Get(Handle(t, ev), k) == StepKey(Get(t, k), ev, k)
  {
  }

  /** The entry of `k` after the first `j` events. */
  function At(events: seq<Event>, k: Tuple, j: nat): Option<Conn>
    requires j <= |events|
  {
    Get(Run(map[], events[..j]), k)
  }

  lemma AtZero(events: seq<Event>, k: Tuple)
    ensures At(events, k, 0) == None
  {
    assert events[..0] == [];
  }

  lemma AtNext(events: seq<Event>, k: Tuple, j: nat)
    requires j < |events|
    ensures At(events, k, j + 1) == StepKey(At(events, k, j), events[j], k)
  {
    assert events[..j + 1][..j] == events[..j];
    HandleByKey(Run(map[], events[..j]), events[j], k);
  }

  // ----- TCP lifecycle -----

  lemma TcpStep(o: Option<Conn>, ev: Event, k: Tuple)
    requires k.proto == TCP && !StartsLife(ev, k) && StepKey(o, ev, k).Some?
    ensures o.Some?
    ensures var c, c1 := o.value, StepKey(o, ev, k).value;
            && c1.wanIngress == c.wanIngress && (c.state == Closing ==> c1.state == Closing)
            && c1.meta == c.meta && c1.slot == c.slot && c1.generation == c.generation
  {
  }

  /** A fresh SYN never inherits anything: what it leaves does not depend on the entry
      that was there. */
  lemma SynInheritsNothing(o: Option<Conn>, ev: Event, k: Tuple)
    requires StartsLife(ev, k)
    ensures StepKey(o, ev, k) == StepKey(None, ev, k)
    ensures StepKey(o, ev, k).Some? ==>
              var c := StepKey(o, ev, k).value;
              && c.state == Active && c.lastSeen == TimeOf(ev)
              && (c.meta.hasRouting ==> ev.e.route.Some? && c.meta.outbound == ev.e.route.value.outbound
                                        && c.meta.mark == ev.e.route.value.mark && c.generation == ev.e.generation)
  {
  }

  /** The same life goes on: same direction bit, and CLOSING stays CLOSING. */
  predicate Continues(o: Option<Conn>, o1: Option<Conn>) {
    && o.Some? && o1.Some? && o1.value.wanIngress == o.value.wanIngress
    && (o.value.state == Closing ==> o1.value.state == Closing)
  }

  /** Event `i` starts a life of `k` that still goes on after the first `n` events. */
  predicate OneLife(events: seq<Event>, k: Tuple, i: nat, n: nat)
    requires i < n <= |events|
  {
    && StartsLife(events[i], k)
    && (forall a, b :: i < a <= b <= n ==> Continues(At(events, k, a), At(events, k, b)))
    && (forall j :: i < j < n ==> !StartsLife(events[j], k))
  }

  lemma OneLifeExtends(events: seq<Event>, k: Tuple, i: nat, n: nat)
    requires i < n < |events| && OneLife(events, k, i, n)
    requires !StartsLife(events[n], k) && Continues(At(events, k, n), At(events, k, n + 1))
    ensures OneLife(events, k, i, n + 1)
  {
    forall a, b | i < a <= b <= n + 1 ensures Continues(At(events, k, a), At(events, k, b)) {
      if a <= n {
        assert Continues(At(events, k, a), At(events, k, n));
      }
    }
  }

  /** TCP lifecycle over all runs: an entry exists only if a SYN was seen for its tuple
      and it was there ever since; in between its direction bit never changes and it
      never goes from CLOSING back to ACTIVE. */
  lemma {:induction false} TcpLifecycle(events: seq<Event>, k: Tuple, n: nat)
    requires k.proto == TCP && n <= |events| && At(events, k, n).Some?
    ensures exists i :: 0 <= i < n && OneLife(events, k, i, n)
    decreases n
  {
    AtZero(events, k);
    var last := n - 1;
    AtNext(events, k, last);
    if StartsLife(events[last], k) {
      assert OneLife(events, k, last, n);
    } else {
      TcpStep(At(events, k, last), events[last], k);
      TcpLifecycle(events, k, last);
      var i :| 0 <= i < last && OneLife(events, k, i, last);
      OneLifeExtends(events, k, i, last);
    }
  }

  // ----- Sticky TCP verdicts -----

  /** The entry of `k` survives the events and no SYN replaces it. */
  predicate Survives(o: Option<Conn>, events: seq<Event>, k: Tuple)
    decreases |events|
  {
    o.Some? && (events != [] ==> !StartsLife(events[0], k) && Survives(StepKey(o, events[0], k), events[1..], k))
  }

  function RunKey(o: Option<Conn>, events: seq<Event>, k: Tuple): Option<Conn>
    decreases |events|
  {
    if events == [] then o else RunKey(StepKey(o, events[0], k), events[1..], k)
  }

  lemma {:induction false} SurvivorKeepsRouting(o: Option<Conn>, events: seq<Event>, k: Tuple)
    requires k.proto == TCP && Survives(o, events, k)
    ensures RunKey(o, events, k).Some?
    ensures var c, c1 := o.value, RunKey(o, events, k).value;
            c1.meta == c.meta && c1.slot == c.slot && c1.generation == c.generation
    decreases |events|
  {
    if events != [] {
      TcpStep(o, events[0], k);
      SurvivorKeepsRouting(StepKey(o, events[0], k), events[1..], k);
    }
  }

  /** A packet of the tuple on the same hook, later. */
  predicate Later(first: Event, ev: Event) {
    first.Forward? && ev.Forward? && ev.hook == first.hook && ev.p.tuple == first.p.tuple
    && !ev.p.syn && ev.e.redirectOk
  }

  /** Verdict class with the decision it carries; passing without touching the packet's
      mark counts as mark 0, the decision that is never cached. */
  datatype Treatment = Passed(mark: u32) | Dropped | Redirected(handoff: Handoff)

  function TreatmentOf(v: Verdict): Treatment {
    match v
    case Pass(m) => Passed(if m.Some? then m.value else 0)
    case Drop => Dropped
    case Redirect(h) => Redirected(h)
  }

  predicate Proxied(d: Decision) { d.outbound != OUTBOUND_DIRECT && d.outbound != OUTBOUND_BLOCK }

  /** LAN: after a SYN whose entry was inserted, a later packet of the surviving flow is
      treated exactly as the SYN was, if and only if the SYN had a route and its
      outbound, when it is a proxy, was alive. */
  lemma LanTcpSticky(o: Option<Conn>, syn: Event, between: seq<Event>, ev: Event)
    requires syn.Forward? && syn.hook == Lan && syn.p.tuple.proto == TCP && syn.p.syn
    requires syn.e.insertOk && syn.e.redirectOk && Later(syn, ev)
    requires Survives(StepKey(o, syn, syn.p.tuple), between + [ev], syn.p.tuple)
    ensures var k := syn.p.tuple;
            var o1 := RunKey(StepKey(o, syn, k), between, k);
            TreatmentOf(EntryStep(o1, ev).verdict) == TreatmentOf(EntryStep(o, syn).verdict)
            <==> syn.e.route.Some? && (Proxied(syn.e.route.value) ==> syn.e.alive)
  {
    var k := syn.p.tuple;
    SurvivesSplit(StepKey(o, syn, k), between, ev, k);
    SurvivorKeepsRouting(StepKey(o, syn, k), between, k);
    TcpStep(RunKey(StepKey(o, syn, k), between, k), ev, k);
  }

  /** WAN: the same, if and only if a proxied flow finds its outbound as alive as the SYN
      did. The SYN must not belong to the control plane and must have a route, or no
      entry is made. */
  lemma WanTcpSticky(o: Option<Conn>, syn: Event, between: seq<Event>, ev: Event)
    requires syn.Forward? && syn.hook == Wan && syn.p.tuple.proto == TCP && syn.p.syn
    requires !syn.e.controlPlane && syn.e.route.Some? && syn.e.insertOk && syn.e.redirectOk && Later(syn, ev)
    requires Survives(StepKey(o, syn, syn.p.tuple), between + [ev], syn.p.tuple)
    ensures var k := syn.p.tuple;
            var d := syn.e.route.value;
            var o1 := RunKey(StepKey(o, syn, k), between, k);
            TreatmentOf(EntryStep(o1, ev).verdict) == TreatmentOf(EntryStep(o, syn).verdict)
            <==> (NeedsControlPlane(d.outbound, d.mark) && d.outbound != OUTBOUND_BLOCK ==> ev.e.alive == syn.e.alive)
  {
    var k := syn.p.tuple;
    SurvivesSplit(StepKey(o, syn, k), between, ev, k);
    SurvivorKeepsRouting(StepKey(o, syn, k), between, k);
    TcpStep(RunKey(StepKey(o, syn, k), between, k), ev, k);
  }

  lemma {:induction false} RunKeySnoc(o: Option<Conn>, events: seq<Event>, ev: Event, k: Tuple)
    ensures RunKey(o, events + [ev], k) == StepKey(RunKey(o, events, k), ev, k)
    decreases |events|
  {
    var all := events + [ev];
    if events == [] {
      assert all[0] == ev && all[1..] == [];
    } else {
      assert all[0] == events[0] && all[1..] == events[1..] + [ev];
      RunKeySnoc(StepKey(o, events[0], k), events[1..], ev, k);
    }
  }

  /** The life of one entry is its row of the table. */
  lemma {:induction false} RowOfTable(t: Table, events: seq<Event>, k: Tuple)
    ensures Get(Run(t, events), k) == RunKey(Get(t, k), events, k)
    decreases |events|
  {
    if events != [] {
      var init, last := events[..|events| - 1], events[|events| - 1];
      RowOfTable(t, init, k);
      HandleByKey(Run(t, init), last, k);
      RunKeySnoc(Get(t, k), init, last, k);
      assert init + [last] == events;
    }
  }

  /** The sticky theorems on the whole table: after the SYN and any events in between, the
      later packet is treated as the SYN was, under the same conditions. */
  lemma TcpStickyOnTable(t: Table, syn: Event, between: seq<Event>, ev: Event)
    requires syn.Forward? && syn.p.tuple.proto == TCP && syn.p.syn && syn.e.insertOk && syn.e.redirectOk
             && Later(syn, ev)
    requires syn.hook == Wan ==> !syn.e.controlPlane && syn.e.route.Some?
    requires var k := syn.p.tuple; Survives(Get(Handle(t, syn), k), between + [ev], k)
    ensures var k := syn.p.tuple;
            var o1 := Get(Run(Handle(t, syn), between), k);
            TreatmentOf(EntryStep(o1, ev).verdict) == TreatmentOf(EntryStep(Get(t, k), syn).verdict) <==>
            if syn.hook == Lan then syn.e.route.Some? && (Proxied(syn.e.route.value) ==> syn.e.alive)
            else
              var d := syn.e.route.value;
              NeedsControlPlane(d.outbound, d.mark) && d.outbound != OUTBOUND_BLOCK ==> ev.e.alive == syn.e.alive
  {
    var k := syn.p.tuple;
    HandleByKey(t, syn, k);
    RowOfTable(Handle(t, syn), between, k);
    if syn.hook == Lan {
      LanTcpSticky(Get(t, k), syn, between, ev);
    } else {
      WanTcpSticky(Get(t, k), syn, between, ev);
    }
  }

  lemma {:induction false} SurvivesSplit(o: Option<Conn>, between: seq<Event>, ev: Event, k: Tuple)
    requires Survives(o, between + [ev], k)
    ensures Survives(o, between, k)
    ensures !StartsLife(ev, k) && StepKey(RunKey(o, between, k), ev, k).Some?
    decreases |between|
  {
    var all := between + [ev];
    if between == [] {
      assert all[0] == ev && all[1..] == [];
    } else {
      assert all[0] == between[0] && all[1..] == between[1..] + [ev];
      SurvivesSplit(StepKey(o, between[0], k), between[1..], ev, k);
    }
  }

  /** The two hooks treat a cached decision alike exactly when it is not "direct with a
      mark", which passes on the LAN side and goes to the control plane on the WAN side. */
  lemma HooksAgreeIff(c: Conn, e: Env)
    requires c.meta.hasRouting && e.redirectOk && e.alive
    ensures TreatmentOf(LanVerdict(CachedHandoff(c), true, e)) == TreatmentOf(WanVerdict(CachedHandoff(c), e.alive, e))
            <==> !(c.meta.outbound == OUTBOUND_DIRECT && c.meta.mark != 0)
  {
  }

  // ----- Sticky UDP routing -----

  /** The event deletes the entry: by the janitor, or because it had expired. */
  predicate Deletes(o: Option<Conn>, ev: Event, k: Tuple) {
    o.Some? && (StepKey(o, ev, k).None? || (Touches(ev, k) && Expired(k, o.value, TimeOf(ev))))
  }

  predicate SlotOk(o: Option<Conn>) { o.Some? ==> o.value.slot <= EPOCH_SLOT_NUM }

  lemma TcpKeepsSlotOk(o: Option<Conn>, p: Packet, e: Env)
    requires SlotOk(o)
    ensures SlotOk(LanTcp(o, p, e).entry) && SlotOk(WanTcp(o, p, e).entry)
  {
  }

  lemma LanUdpKeepsSlotOk(o: Option<Conn>, p: Packet, e: Env)
    requires SlotOk(o)
    ensures SlotOk(LanUdp(o, p, e).entry)
  {
  }

  lemma WanUdpKeepsSlotOk(o: Option<Conn>, p: Packet, e: Env)
    requires SlotOk(o)
    ensures SlotOk(WanUdp(o, p, e).entry)
  {
  }

  lemma StepKeepsSlotOk(o: Option<Conn>, ev: Event, k: Tuple)
    requires SlotOk(o)
    ensures SlotOk(StepKey(o, ev, k))
  {
    if ev.Forward? {
      TcpKeepsSlotOk(o, ev.p, ev.e);
      LanUdpKeepsSlotOk(o, ev.p, ev.e);
      WanUdpKeepsSlotOk(o, ev.p, ev.e);
    }
  }

  lemma UdpStep(o: Option<Conn>, ev: Event, k: Tuple)
    requires k.proto == UDP && o.Some? && o.value.meta.hasRouting && SlotOk(o) && !Deletes(o, ev, k)
    ensures var c, c1 := o.value, StepKey(o, ev, k).value;
            && c1.meta.hasRouting && c1.meta.outbound == c.meta.outbound && c1.meta.mark == c.meta.mark
            && c1.meta.must == c.meta.must && c1.slot == c.slot && c1.generation == c.generation
            && c1.wanIngress == c.wanIngress
  {
  }

  lemma {:induction false} ReachableSlotOk(events: seq<Event>, k: Tuple, n: nat)
    requires n <= |events|
    ensures SlotOk(At(events, k, n))
  {
    if n == 0 {
      AtZero(events, k);
    } else {
      ReachableSlotOk(events, k, n - 1);
      AtNext(events, k, n - 1);
      StepKeepsSlotOk(At(events, k, n - 1), events[n - 1], k);
    }
  }

  /** UDP routing is sticky over all runs: once an entry has routing, its outbound, mark,
      must, epoch slot and generation stay the same until it is deleted, although WAN
      egress republishes them on every packet. */
  lemma {:induction false} UdpSticky(events: seq<Event>, k: Tuple, i: nat, j: nat)
    requires k.proto == UDP && i <= j <= |events|
    requires At(events, k, i).Some? && At(events, k, i).value.meta.hasRouting
    requires forall m :: i <= m < j ==> !Deletes(At(events, k, m), events[m], k)
    ensures At(events, k, j).Some?
    ensures var c, c1 := At(events, k, i).value, At(events, k, j).value;
            && c1.meta.hasRouting && c1.meta.outbound == c.meta.outbound && c1.meta.mark == c.meta.mark
            && c1.meta.must == c.meta.must && c1.slot == c.slot && c1.generation == c.generation
    decreases j - i
  {
    if i < j {
      UdpSticky(events, k, i, j - 1);
      ReachableSlotOk(events, k, j - 1);
      AtNext(events, k, j - 1);
      UdpStep(At(events, k, j - 1), events[j - 1], k);
    }
  }
}
