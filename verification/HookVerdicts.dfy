/** What the hooks do with a packet, in terms of the decision that applies to it: the one its
    routing gives now, or the one stored in its connection's entry. */
module HookVerdicts {
  import opened MatchSets
  import opened RouteEngine
  import opened ConnTrack
  import opened ConnRuns

  // ----- Why a packet is treated as it is -----

  /** A decision of the router with the rule set generation it was made under. */
  datatype Ruling = Ruling(outbound: u8, mark: u32, must: bool, slot: u8, generation: nat)

  datatype Ground =
    /** It was sent by the control plane itself. */
    | Own
    /** It belongs to a connection that came in from outside. */
    | Inbound
    /** A socket of this host takes it. */
    | Local
    /** A TCP packet of a connection for which nothing was decided. */
    | Unknown
    /** Routing it failed. */
    | Unrouted
    /** The router decides now. */
    | Decided(r: Ruling)
    /** Its entry holds a decision. */
    | Remembered(r: Ruling)

  /** The entry that a packet finds: one that has not expired. */
  function Living(o: Option<Conn>, k: Tuple, now: nat): Option<Conn> {
    if o.Some? && !Expired(k, o.value, now) then o else None
  }

  function Known(slot: u8): u8 { if slot <= EPOCH_SLOT_NUM then slot else 0 }

  function StoredIn(c: Conn): Ruling {
    Ruling(c.meta.outbound, c.meta.mark, c.meta.must, Known(c.slot), c.generation)
  }

  function RouteNow(e: Env): Ground {
    if e.route.None? then Unrouted
    else
      var d := e.route.value;
      Decided(Ruling(d.outbound, d.mark, d.must, Known(d.slot), e.generation))
  }

  /** A SYN is always routed; another TCP packet never is. A UDP packet is routed when its
      entry holds no decision. WAN egress lets the control plane through before it looks at
      the table, but for TCP only on a SYN. */
  function GroundOf(hook: Hook, o: Option<Conn>, p: Packet, e: Env): Ground {
    var c := Living(o, p.tuple, e.now);
    var tcp := p.tuple.proto == TCP;
    if hook == Wan && e.controlPlane && (tcp ==> p.syn) then Own
    else if tcp && p.syn then RouteNow(e)
    else if !tcp && c.Some? && c.value.wanIngress then Inbound
    else if c.Some? && c.value.meta.hasRouting then Remembered(StoredIn(c.value))
    else if tcp then Unknown
    else if hook == Lan && e.localSocket then Local
    else RouteNow(e)
  }

  // ----- Pass, drop, redirect -----

  /** The decision leaves the packet to the host: direct, and on WAN egress without a mark. */
  predicate LeavesAlone(hook: Hook, r: Ruling) { r.outbound == OUTBOUND_DIRECT && (hook == Wan ==> r.mark == 0) }

  /** What the kernel must be able to write down before it acts on a new decision: the entry
      of a TCP connection, and for UDP on WAN egress the entry or the handoff. */
  predicate Recorded(hook: Hook, o: Option<Conn>, p: Packet, e: Env) {
    if p.tuple.proto == TCP then e.insertOk
    else hook == Wan ==> e.insertOk || e.handoffOk || Living(o, p.tuple, e.now).Some?
  }

  /** The outbound answers. A remembered decision is tested again only for TCP on WAN egress. */
  predicate Reachable(hook: Hook, g: Ground, p: Packet, e: Env) {
    (g.Remembered? && !(hook == Wan && p.tuple.proto == TCP)) || e.alive
  }

  predicate Passes(hook: Hook, g: Ground, o: Option<Conn>, p: Packet, e: Env) {
    match g
    case Own | Inbound | Local | Unknown => true
    case Unrouted => false
    case Remembered(r) => LeavesAlone(hook, r)
    case Decided(r) => LeavesAlone(hook, r) && (p.tuple.proto == TCP && !e.insertOk ==> r.mark == 0)
  }

  predicate Redirects(hook: Hook, g: Ground, o: Option<Conn>, p: Packet, e: Env) {
    && (g.Remembered? || g.Decided?) && !LeavesAlone(hook, g.r) && g.r.outbound != OUTBOUND_BLOCK
    && Reachable(hook, g, p, e) && (g.Decided? ==> Recorded(hook, o, p, e)) && e.redirectOk
  }

  function HandoffOf(r: Ruling): Handoff { Handoff(r.outbound, r.mark, r.must, r.slot, r.generation) }

  /** It passes exactly when it should, and then carries, on LAN ingress, the mark of its
      decision; on WAN egress none. */
  predicate PassesRight(hook: Hook, o: Option<Conn>, p: Packet, e: Env, v: Verdict) {
    var g := GroundOf(hook, o, p, e);
    && (v.Pass? <==> Passes(hook, g, o, p, e))
    && (v.Pass? && hook == Lan ==> v.skbMark == if g.Remembered? || g.Decided? then Some(g.r.mark) else None)
    && (v.Pass? && hook == Wan ==> v.skbMark == None || v.skbMark == Some(0))
  }

  /** It goes to the control plane exactly when it should, which then receives its decision
      and no other. */
  predicate RedirectsRight(hook: Hook, o: Option<Conn>, p: Packet, e: Env, v: Verdict) {
    var g := GroundOf(hook, o, p, e);
    (v.Redirect? <==> Redirects(hook, g, o, p, e)) && (v.Redirect? ==> v.handoff == HandoffOf(g.r))
  }

  lemma TcpPasses(hook: Hook, o: Option<Conn>, p: Packet, e: Env)
    requires p.tuple.proto == TCP
    ensures PassesRight(hook, o, p, e, EntryStep(o, Forward(hook, p, e)).verdict)
  {
  }

  lemma TcpRedirects(hook: Hook, o: Option<Conn>, p: Packet, e: Env)
    requires p.tuple.proto == TCP
    ensures RedirectsRight(hook, o, p, e, EntryStep(o, Forward(hook, p, e)).verdict)
  {
  }

  lemma LanUdpPasses(o: Option<Conn>, p: Packet, e: Env)
    requires p.tuple.proto == UDP
    ensures PassesRight(Lan, o, p, e, EntryStep(o, Forward(Lan, p, e)).verdict)
  {
  }

  lemma LanUdpRedirects(o: Option<Conn>, p: Packet, e: Env)
    requires p.tuple.proto == UDP
    ensures RedirectsRight(Lan, o, p, e, EntryStep(o, Forward(Lan, p, e)).verdict)
  {
  }

  /** What marking leaves of a UDP entry, as far as verdicts go. */
  predicate MarkedUdp(c: Option<Conn>, o1: Option<Conn>, e: Env) {
    && (o1.Some? <==> c.Some? || e.insertOk)
    && (c.Some? ==> o1.value.wanIngress == c.value.wanIngress && o1.value.meta == c.value.meta
                    && o1.value.slot == c.value.slot && o1.value.generation == c.value.generation)
    && (c.None? && o1.Some? ==> !o1.value.wanIngress && !o1.value.meta.hasRouting)
  }

  lemma WanUdpMarks(o: Option<Conn>, p: Packet, e: Env)
    requires p.tuple.proto == UDP
    ensures MarkedUdp(Living(o, p.tuple, e.now), MarkUdp(o, false, NoArgs(0), e), e)
  {
  }

  function WanUdpRest(o1: Option<Conn>, e: Env): Verdict {
    if o1.Some? && o1.value.wanIngress then Pass(None)
    else if o1.Some? && o1.value.meta.hasRouting then WanUdpVerdict(CachedHandoff(o1.value), true, true, e)
    else if e.route.None? then Drop
    else WanUdpVerdict(FreshHandoff(e.route.value, e.generation), false, o1.Some?, e)
  }

  lemma WanUdpByRest(o: Option<Conn>, p: Packet, e: Env)
    requires p.tuple.proto == UDP && !e.controlPlane
    ensures EntryStep(o, Forward(Wan, p, e)).verdict == WanUdpRest(MarkUdp(o, false, NoArgs(0), e), e)
  {
  }

  lemma WanUdpRuled(o: Option<Conn>, o1: Option<Conn>, p: Packet, e: Env)
    requires p.tuple.proto == UDP && !e.controlPlane && MarkedUdp(Living(o, p.tuple, e.now), o1, e)
    ensures PassesRight(Wan, o, p, e, WanUdpRest(o1, e)) && RedirectsRight(Wan, o, p, e, WanUdpRest(o1, e))
  {
  }

  lemma WanUdpRight(o: Option<Conn>, p: Packet, e: Env)
    requires p.tuple.proto == UDP
    ensures var v := EntryStep(o, Forward(Wan, p, e)).verdict;
            PassesRight(Wan, o, p, e, v) && RedirectsRight(Wan, o, p, e, v)
  {
    if !e.controlPlane {
      WanUdpMarks(o, p, e);
      WanUdpByRest(o, p, e);
      WanUdpRuled(o, MarkUdp(o, false, NoArgs(0), e), p, e);
    }
  }

  /** For every packet, entry and surroundings, on both hooks: exactly when it passes and when
      it is redirected. */
  lemma VerdictIff(hook: Hook, o: Option<Conn>, p: Packet, e: Env)
    ensures var v := EntryStep(o, Forward(hook, p, e)).verdict;
            PassesRight(hook, o, p, e, v) && RedirectsRight(hook, o, p, e, v)
  {
    if p.tuple.proto == TCP {
      TcpPasses(hook, o, p, e);
      TcpRedirects(hook, o, p, e);
    } else if hook == Lan {
      LanUdpPasses(o, p, e);
      LanUdpRedirects(o, p, e);
    } else {
      WanUdpRight(o, p, e);
    }
  }

  /** A block decision always drops, new or remembered, and so does a packet whose routing
      fails. */
  lemma BlockDrops(hook: Hook, o: Option<Conn>, p: Packet, e: Env)
    requires var g := GroundOf(hook, o, p, e);
             g.Unrouted? || ((g.Remembered? || g.Decided?) && g.r.outbound == OUTBOUND_BLOCK)
    ensures EntryStep(o, Forward(hook, p, e)).verdict.Drop?
  {
    VerdictIff(hook, o, p, e);
  }

  /** A proxied packet never leaves unproxied: it is redirected or dropped. */
  lemma ProxiedNeverPasses(hook: Hook, o: Option<Conn>, p: Packet, e: Env)
    requires var g := GroundOf(hook, o, p, e); (g.Remembered? || g.Decided?) && g.r.outbound >= 2
    ensures !EntryStep(o, Forward(hook, p, e)).verdict.Pass?
  {
    VerdictIff(hook, o, p, e);
  }

  /** Replies always pass. */
  lemma RepliesPass(o: Option<Conn>, p: Packet, e: Env)
    ensures EntryStep(o, Backward(p, e)).verdict == Pass(None)
  {
  }

  // ----- Where decisions come from -----

  /** A packet of the tuple that was routed with this result. */
  predicate Routes(ev: Event, k: Tuple, r: Ruling) {
    ev.Forward? && ev.p.tuple == k && RouteNow(ev.e) == Decided(r)
  }

  /** Whatever decision an entry holds after an event it held before, or the event's own
      packet was routed so. */
  lemma StepRuling(o: Option<Conn>, ev: Event, k: Tuple)
    requires SlotOk(o) && StepKey(o, ev, k).Some? && StepKey(o, ev, k).value.meta.hasRouting
    ensures var r := StoredIn(StepKey(o, ev, k).value);
            (o.Some? && o.value.meta.hasRouting && StoredIn(o.value) == r) || Routes(ev, k, r)
  {
    if ev.Forward? && KeyOf(ev) == k {
      if k.proto == TCP { TcpRuling(o, ev.hook, ev.p, ev.e); } else { UdpRuling(o, ev.hook, ev.p, ev.e); }
    }
  }

  predicate KeepsOrRoutes(o: Option<Conn>, c: Option<Conn>, e: Env) {
    c.Some? && c.value.meta.hasRouting ==>
      (o.Some? && o.value.meta.hasRouting && StoredIn(o.value) == StoredIn(c.value))
      || RouteNow(e) == Decided(StoredIn(c.value))
  }

  lemma TcpRuling(o: Option<Conn>, hook: Hook, p: Packet, e: Env)
    requires SlotOk(o) && p.tuple.proto == TCP
    ensures KeepsOrRoutes(o, EntryStep(o, Forward(hook, p, e)).entry, e)
  {
  }

  lemma UdpRuling(o: Option<Conn>, hook: Hook, p: Packet, e: Env)
    requires SlotOk(o) && p.tuple.proto == UDP
    ensures KeepsOrRoutes(o, EntryStep(o, Forward(hook, p, e)).entry, e)
  {
  }

  /** Over every run, the decision an entry holds was made for some packet of its tuple. */
  lemma {:induction false} StoredWasRouted(events: seq<Event>, k: Tuple, n: nat) returns (i: nat)
    requires n <= |events| && At(events, k, n).Some? && At(events, k, n).value.meta.hasRouting
    ensures i < n && Routes(events[i], k, StoredIn(At(events, k, n).value))
    decreases n
  {
    AtZero(events, k);
    AtNext(events, k, n - 1);
    ReachableSlotOk(events, k, n - 1);
    StepRuling(At(events, k, n - 1), events[n - 1], k);
    if Routes(events[n - 1], k, StoredIn(At(events, k, n).value)) {
      i := n - 1;
    } else {
      i := StoredWasRouted(events, k, n - 1);
    }
  }

  /** Over every run, every packet that is redirected goes to the control plane with a
      decision that the router made for this packet or for an earlier one of the same
      tuple, and every packet that is let through because of a decision, too. */
  lemma EveryVerdictWasRouted(events: seq<Event>, hook: Hook, p: Packet, e: Env)
    ensures var all := events + [Forward(hook, p, e)];
            var g := GroundOf(hook, Row(events, p.tuple), p, e);
            g.Remembered? || g.Decided? ==> exists i :: 0 <= i < |all| && Routes(all[i], p.tuple, g.r)
  {
    var all, k := events + [Forward(hook, p, e)], p.tuple;
    var g := GroundOf(hook, Row(events, k), p, e);
    if g.Remembered? {
      assert events[..|events|] == events;
      var i := StoredWasRouted(events, k, |events|);
      assert all[i] == events[i];
    } else if g.Decided? {
      assert all[|events|] == Forward(hook, p, e);
    }
  }

  /** No leak: over every run, a packet that passes is the control plane's own, comes from a
      connection that came in from outside, is taken by a local socket, is a TCP packet of a
      connection for which nothing is stored, or the router sent it or an earlier packet of
      its tuple direct. */
  lemma PassedIsAccountedFor(events: seq<Event>, hook: Hook, p: Packet, e: Env)
    requires EntryStep(Row(events, p.tuple), Forward(hook, p, e)).verdict.Pass?
    ensures var all := events + [Forward(hook, p, e)];
            var c := Living(Row(events, p.tuple), p.tuple, e.now);
            || (hook == Wan && e.controlPlane)
            || (p.tuple.proto == UDP && c.Some? && c.value.wanIngress)
            || (p.tuple.proto == UDP && hook == Lan && e.localSocket)
            || (p.tuple.proto == TCP && !p.syn && (c.None? || !c.value.meta.hasRouting))
            || exists i, r :: 0 <= i < |all| && Routes(all[i], p.tuple, r) && LeavesAlone(hook, r)
  {
    VerdictIff(hook, Row(events, p.tuple), p, e);
    EveryVerdictWasRouted(events, hook, p, e);
  }

  // ----- What is stored -----

  /** The entry that a routed packet leaves when there was none: its decision with the
      packet's DSCP and link address, the process when it is known, and the time. */
  predicate Stores(c: Conn, r: Ruling, hook: Hook, p: Packet, e: Env) {
    && !c.wanIngress && c.state == Active && c.lastSeen == e.now
    && c.meta == Meta(r.outbound, r.mark, r.must, p.dscp, true) && c.mac == p.mac
    && c.slot == r.slot && c.generation == r.generation
    && c.process == if hook == Wan && e.process.Some? then e.process.value else Process(Name16(0, 0), 0)
  }

  /** A decision that WAN egress does not store: direct without a mark and without must. */
  predicate NotStored(hook: Hook, r: Ruling) {
    hook == Wan && r.outbound == OUTBOUND_DIRECT && r.mark == 0 && !r.must
  }

  /** A new connection's entry holds exactly what was decided; without a decision, or with one
      that is not worth storing, it holds none. */
  lemma NewEntryStores(hook: Hook, o: Option<Conn>, p: Packet, e: Env)
    requires e.insertOk && GroundOf(hook, o, p, e).Decided?
    requires p.tuple.proto == UDP ==> Living(o, p.tuple, e.now).None?
    ensures var c, r := EntryStep(o, Forward(hook, p, e)).entry, GroundOf(hook, o, p, e).r;
            c.Some? && if NotStored(hook, r) then !c.value.meta.hasRouting else Stores(c.value, r, hook, p, e)
  {
  }

  /** A UDP entry without a decision is given the one that is made now, and the packet's DSCP
      and link address; the rest of it stays. */
  lemma LateDecisionStores(hook: Hook, o: Option<Conn>, p: Packet, e: Env)
    requires p.tuple.proto == UDP && GroundOf(hook, o, p, e).Decided? && Living(o, p.tuple, e.now).Some?
    ensures var c, r := EntryStep(o, Forward(hook, p, e)).entry, GroundOf(hook, o, p, e).r;
            && c.Some? && c.value.wanIngress == o.value.wanIngress && c.value.state == o.value.state
            && (NotStored(hook, r) ==> c.value == o.value.(lastSeen := c.value.lastSeen))
            && (!NotStored(hook, r) ==> StoredIn(c.value) == r && c.value.meta.hasRouting
                                        && c.value.meta.dscp == p.dscp && c.value.mac == p.mac)
  {
  }

  /** A remembered decision is kept with its side fields, except that WAN egress puts in the
      DSCP of the latest UDP packet and the process when it is known. */
  lemma RememberedIsKept(hook: Hook, o: Option<Conn>, p: Packet, e: Env)
    requires SlotOk(o) && GroundOf(hook, o, p, e).Remembered?
    ensures var c := EntryStep(o, Forward(hook, p, e)).entry;
            && c.Some? && c.value.meta.hasRouting && StoredIn(c.value) == StoredIn(o.value)
            && c.value.mac == o.value.mac && c.value.wanIngress == o.value.wanIngress
            && (p.tuple.proto == TCP || hook == Lan ==>
                  c.value.meta == o.value.meta && c.value.process == o.value.process)
            && (p.tuple.proto == TCP ==> c.value.state == if p.finRst then Closing else o.value.state)
  {
  }
}
