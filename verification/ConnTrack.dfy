/** Connection tracking and the verdicts built on it: the shared TCP/UDP state map
    with cached routing and lazy timestamps, the LAN and WAN hooks, and the
    userspace janitor. The functions give the effect of each operation on the map as
    a value; `ConnTable` performs them in place. */
module ConnTrack {
  import opened MatchSets
  import opened RouteEngine

  const SECOND: nat := 1_000_000_000
  const UDP_TIMEOUT: nat := 120 * SECOND
  const TCP_CLOSING_TIMEOUT: nat := 10 * SECOND
  const UPDATE_INTERVAL: nat := SECOND
  const TCP_ACTIVE_PRESSURE_TIMEOUT: nat := 600 * SECOND

  datatype Proto = TCP | UDP

  datatype Tuple = Tuple(sip: int, dip: int, sport: int, dport: int, proto: Proto)

  function Reversed(k: Tuple): Tuple { Tuple(k.dip, k.sip, k.dport, k.sport, k.proto) }

  datatype TcpState = Active | Closing

  /** The 64-bit word that is published in one store. */
  datatype Meta = Meta(outbound: u8, mark: u32, must: bool, dscp: u8, hasRouting: bool)

  datatype Process = Process(pname: Name16, pid: int)

  datatype Conn = Conn(
    wanIngress: bool, state: TcpState, lastSeen: nat, meta: Meta,
    mac: int, process: Process, slot: u8, generation: nat)

  type Table = map<Tuple, Conn>

  const NO_PROCESS: Process := Process(Name16(0, 0), 0)

  /** Unsigned 64-bit subtraction. */
  function Elapsed(now: nat, last: nat): int {
    if now >= last then now - last else now + 0x1_0000_0000_0000_0000 - last
  }

  predicate UdpExpired(c: Conn, now: nat) { Elapsed(now, c.lastSeen) > UDP_TIMEOUT }

  predicate TcpExpired(c: Conn, now: nat) {
    c.state == Closing && Elapsed(now, c.lastSeen) > TCP_CLOSING_TIMEOUT
  }

  predicate Expired(k: Tuple, c: Conn, now: nat) {
    if k.proto == TCP then TcpExpired(c, now) else UdpExpired(c, now)
  }

  // ----- Marking a packet as seen -----

  /** The optional routing that a caller attaches; only WAN egress does, on a SYN. */
  datatype Args = Args(routing: Option<Decision>, mac: int, process: Option<Process>, dscp: u8)

  function NoArgs(dscp: u8): Args { Args(None, 0, None, dscp) }

  /** What the kernel reads from its surroundings while it handles one packet. */
  datatype Env = Env(
    now: nat, insertOk: bool, generation: nat, route: Option<Decision>, alive: bool,
    controlPlane: bool, process: Option<Process>, localSocket: bool, handoffOk: bool, redirectOk: bool)

  function Routed(d: Decision, dscp: u8): Meta { Meta(d.outbound, d.mark, d.must, dscp, true) }

  function Refresh(c: Conn, now: nat): Conn {
    if Elapsed(now, c.lastSeen) > UPDATE_INTERVAL then c.(lastSeen := now) else c
  }

  /** Store a decision with its side fields. */
  function Attach(c: Conn, args: Args, generation: nat): Conn {
    match args.routing
    case None => c
    case Some(d) =>
      c.(mac := args.mac, process := if args.process.Some? then args.process.value else c.process.(pid := 0),
         slot := SlotSanitize(d.slot), generation := generation, meta := Routed(d, args.dscp))
  }

  function NewConn(dir: bool, args: Args, now: nat, generation: nat): Conn {
    var pid := if args.process.Some? then args.process.value.pid else 0;
    var c := Conn(dir, Active, now, Meta(0, 0, false, args.dscp, false), 0, Process(Name16(0, 0), pid), 0, 0);
    Attach(c, args, generation)
  }

  /** An entry after a UDP packet was seen: refreshed, replaced when expired, or absent
      when the insertion fails. */
  function MarkUdp(o: Option<Conn>, dir: bool, args: Args, e: Env): Option<Conn> {
    if o.Some? && !UdpExpired(o.value, e.now) then Some(Attach(Refresh(o.value, e.now), args, e.generation))
    else if e.insertOk then Some(NewConn(dir, args, e.now, e.generation))
    else None
  }

  /** An entry after a TCP packet was seen. A SYN always starts afresh; other packets
      never create an entry. */
  function MarkTcp(o: Option<Conn>, dir: bool, syn: bool, finRst: bool, args: Args, e: Env): Option<Conn> {
    if o.Some? && !syn && !TcpExpired(o.value, e.now) then
      var c := Refresh(o.value, e.now);
      Some(Attach(if finRst then c.(state := Closing) else c, args, e.generation))
    else if syn && e.insertOk then Some(NewConn(dir, args, e.now, e.generation))
    else None
  }

  function Get(t: Table, k: Tuple): Option<Conn> { if k in t then Some(t[k]) else None }

  function Put(t: Table, k: Tuple, o: Option<Conn>): Table {
    if o.Some? then t[k := o.value] else t - {k}
  }

  // ----- Verdicts -----

  /** What the control plane receives with a redirected packet. */
  datatype Handoff = Handoff(outbound: u8, mark: u32, must: bool, slot: u8, generation: nat)

  datatype Verdict = Pass(skbMark: Option<u32>) | Drop | Redirect(handoff: Handoff)

  datatype Packet = Packet(tuple: Tuple, syn: bool, finRst: bool, dscp: u8, mac: int)

  /** The entry of the packet's tuple afterwards, and the verdict. */
  datatype Outcome = Outcome(entry: Option<Conn>, verdict: Verdict)

  function CachedHandoff(c: Conn): Handoff {
    Handoff(c.meta.outbound, c.meta.mark, c.meta.must, SlotSanitize(c.slot), c.generation)
  }

  function FreshHandoff(d: Decision, generation: nat): Handoff {
    Handoff(d.outbound, d.mark, d.must, SlotSanitize(d.slot), generation)
  }

  function Hand(h: Handoff, e: Env): Verdict { if e.redirectOk then Redirect(h) else Drop }

  /** LAN: direct passes with its mark, block drops, the rest is redirected. */
  function LanVerdict(h: Handoff, alive: bool, e: Env): Verdict {
    if h.outbound == OUTBOUND_DIRECT then Pass(Some(h.mark))
    else if h.outbound == OUTBOUND_BLOCK || !alive then Drop
    else Hand(h, e)
  }

  predicate NeedsControlPlane(outbound: u8, mark: u32) { !(outbound == OUTBOUND_DIRECT && mark == 0) }

  /** WAN: only direct without a mark passes. */
  function WanVerdict(h: Handoff, alive: bool, e: Env): Verdict {
    if !NeedsControlPlane(h.outbound, h.mark) then Pass(Some(h.mark))
    else if h.outbound == OUTBOUND_BLOCK || !alive then Drop
    else Hand(h, e)
  }

  function Publish(c: Conn, mac: int, d: Decision, dscp: u8, generation: nat): Conn {
    c.(mac := mac, slot := SlotSanitize(d.slot), generation := generation, meta := Routed(d, dscp))
  }

  function LanTcp(o: Option<Conn>, p: Packet, e: Env): Outcome {
    if !p.syn then
      var o1 := MarkTcp(o, false, false, p.finRst, NoArgs(0), e);
      if o1.None? || !o1.value.meta.hasRouting then Outcome(o1, Pass(None))
      else Outcome(o1, LanVerdict(CachedHandoff(o1.value), true, e))
    else
      var o1 := MarkTcp(o, false, true, p.finRst, NoArgs(p.dscp), e);
      match e.route
      case None => Outcome(o1, Drop)
      case Some(d) =>
        if o1.Some?
        then Outcome(Some(Publish(o1.value, p.mac, d, p.dscp, e.generation)),
                     LanVerdict(FreshHandoff(d, e.generation), e.alive, e))
        else Outcome(None, if d.outbound == OUTBOUND_DIRECT && d.mark == 0 then Pass(Some(d.mark)) else Drop)
  }

  function LanUdp(o: Option<Conn>, p: Packet, e: Env): Outcome {
    var o1 := MarkUdp(o, false, NoArgs(p.dscp), e);
    if o1.Some? && o1.value.wanIngress then Outcome(o1, Pass(None))
    else if o1.Some? && o1.value.meta.hasRouting then
      var h := CachedHandoff(o1.value);
      if h.outbound == OUTBOUND_DIRECT || h.outbound == OUTBOUND_BLOCK then Outcome(o1, LanVerdict(h, true, e))
      else Outcome(Some(o1.value.(lastSeen := e.now)), LanVerdict(h, true, e))
    else if e.localSocket then Outcome(o1, Pass(None))
    else
      match e.route
      case None => Outcome(o1, Drop)
      case Some(d) =>
        Outcome(if o1.Some? then Some(Publish(o1.value, p.mac, d, p.dscp, e.generation)) else None,
                LanVerdict(FreshHandoff(d, e.generation), e.alive, e))
  }

  /** A decision to pass untouched is not worth caching. */
  predicate WorthCaching(d: Decision) { d.outbound != OUTBOUND_DIRECT || d.mark != 0 || d.must }

  function WanTcp(o: Option<Conn>, p: Packet, e: Env): Outcome {
    if p.syn then
      if e.controlPlane then Outcome(o, Pass(None))
      else
        match e.route
        case None => Outcome(o, Drop)
        case Some(d) =>
          var args := Args(if WorthCaching(d) then Some(d) else None, p.mac, e.process, p.dscp);
          var o1 := MarkTcp(o, false, true, p.finRst, args, e);
          if o1.None?
          then Outcome(None, if d.outbound == OUTBOUND_DIRECT && d.mark == 0 then Pass(None) else Drop)
          else Outcome(o1, WanVerdict(FreshHandoff(d, e.generation), e.alive, e))
    else
      var o1 := MarkTcp(o, false, false, p.finRst, NoArgs(0), e);
      if o1.None? || !o1.value.meta.hasRouting then Outcome(o1, Pass(None))
      else Outcome(o1, WanVerdict(CachedHandoff(o1.value), e.alive, e))
  }

  /** What WAN egress republishes: on a cached flow, the values it has just read. */
  function WanUdpStore(c: Conn, p: Packet, e: Env, h: Handoff, mac: int): Conn {
    var c1 :=
      if WorthCaching(Decision(h.outbound, h.mark, h.must, h.slot))
      then c.(mac := mac, process := if e.process.Some? then e.process.value else c.process, slot := h.slot,
              generation := h.generation, meta := Meta(h.outbound, h.mark, h.must, p.dscp, true))
      else c;
    c1.(lastSeen := e.now)
  }

  function WanUdpVerdict(h: Handoff, cached: bool, tracked: bool, e: Env): Verdict {
    if !NeedsControlPlane(h.outbound, h.mark) then Pass(None)
    else if h.outbound == OUTBOUND_BLOCK || (!cached && !e.alive) then Drop
    else if !e.handoffOk && !tracked then Drop
    else Hand(h, e)
  }

  function WanUdp(o: Option<Conn>, p: Packet, e: Env): Outcome {
    if e.controlPlane then Outcome(o, Pass(None))
    else
      var o1 := MarkUdp(o, false, NoArgs(0), e);
      if o1.Some? && o1.value.wanIngress then Outcome(o1, Pass(None))
      else if o1.Some? && o1.value.meta.hasRouting then
        var h := CachedHandoff(o1.value);
        Outcome(Some(WanUdpStore(o1.value, p, e, h, o1.value.mac)), WanUdpVerdict(h, true, true, e))
      else
        match e.route
        case None => Outcome(o1, Drop)
        case Some(d) =>
          var h := FreshHandoff(d, e.generation);
          Outcome(if o1.Some? then Some(WanUdpStore(o1.value, p, e, h, p.mac)) else None,
                  WanUdpVerdict(h, false, o1.Some?, e))
  }

  /** LAN egress and WAN ingress refresh the entry of the opposite direction. */
  function ReverseSeen(o: Option<Conn>, p: Packet, e: Env): Outcome {
    Outcome(if p.tuple.proto == TCP then MarkTcp(o, true, p.syn, p.finRst, NoArgs(0), e)
            else MarkUdp(o, true, NoArgs(0), e),
            Pass(None))
  }

  // ----- The janitor -----

  predicate JanitorExpired(k: Tuple, c: Conn, now: nat, inPressure: bool) {
    var idle := if now >= c.lastSeen then now - c.lastSeen else 0;
    if c.state == Closing then idle > TCP_CLOSING_TIMEOUT
    else if k.proto == TCP then inPressure && idle > TCP_ACTIVE_PRESSURE_TIMEOUT
    else idle > UDP_TIMEOUT
  }

  /** What a look at one key finds. */
  predicate Finds(o: Option<Conn>, k: Tuple, stamp: nat, inPressure: bool) {
    o.Some? && JanitorExpired(k, o.value, stamp, inPressure)
  }

  function Sweep(t: Table, now: nat, inPressure: bool): Table {
    map k | k in t && !JanitorExpired(k, t[k], now, inPressure) :: t[k]
  }

  // ----- The map, changed in place -----

  class ConnTable {
    var entries: Table

    constructor ()
      ensures entries == map[]
    {
      entries := map[];
    }

    method MarkUdpSeen(k: Tuple, dir: bool, args: Args, e: Env) returns (found: bool)
      modifies this
      ensures entries == Put(old(entries), k, MarkUdp(Get(old(entries), k), dir, args, e))
      ensures found <==> k in entries
    {
      if k in entries && UdpExpired(entries[k], e.now) {
        entries := entries - {k};
      }
      if k in entries {
        if Elapsed(e.now, entries[k].lastSeen) > UPDATE_INTERVAL {
          entries := entries[k := entries[k].(lastSeen := e.now)];
        }
        if args.routing.Some? {
          entries := entries[k := Attach(entries[k], args, e.generation)];
        }
        return true;
      }
      if !e.insertOk {
        return false;
      }
      entries := entries[k := NewConn(dir, args, e.now, e.generation)];
      return true;
    }

    method MarkTcpSeen(k: Tuple, dir: bool, syn: bool, finRst: bool, args: Args, e: Env) returns (found: bool)
      modifies this
      ensures entries == Put(old(entries), k, MarkTcp(Get(old(entries), k), dir, syn, finRst, args, e))
      ensures found <==> k in entries
    {
      if k in entries && syn {
        entries := entries - {k};
      } else if k in entries && TcpExpired(entries[k], e.now) {
        entries := entries - {k};
      }
      if k in entries {
        if Elapsed(e.now, entries[k].lastSeen) > UPDATE_INTERVAL {
          entries := entries[k := entries[k].(lastSeen := e.now)];
        }
        if finRst {
          entries := entries[k := entries[k].(state := Closing)];
        }
        if args.routing.Some? {
          entries := entries[k := Attach(entries[k], args, e.generation)];
        }
        return true;
      }
      if syn && e.insertOk {
        entries := entries[k := NewConn(dir, args, e.now, e.generation)];
        return true;
      }
      return false;
    }

    method LanIngress(p: Packet, e: Env) returns (v: Verdict)
      modifies this
      ensures var o := Get(old(entries), p.tuple);
              var after := if p.tuple.proto == TCP then LanTcp(o, p, e) else LanUdp(o, p, e);
              v == after.verdict && entries == Put(old(entries), p.tuple, after.entry)
    {
      var k := p.tuple;
      var found;
      if k.proto == TCP && !p.syn {
        found := MarkTcpSeen(k, false, false, p.finRst, NoArgs(0), e);
        if !found || !entries[k].meta.hasRouting {
          return Pass(None);
        }
        return LanVerdict(CachedHandoff(entries[k]), true, e);
      }
      if k.proto == TCP {
        found := MarkTcpSeen(k, false, true, p.finRst, NoArgs(p.dscp), e);
      } else {
        found := MarkUdpSeen(k, false, NoArgs(p.dscp), e);
        if found && entries[k].wanIngress {
          return Pass(None);
        }
        if found && entries[k].meta.hasRouting {
          var h := CachedHandoff(entries[k]);
          if h.outbound == OUTBOUND_DIRECT {
            return Pass(Some(h.mark));
          }
          if h.outbound == OUTBOUND_BLOCK {
            return Drop;
          }
          entries := entries[k := entries[k].(lastSeen := e.now)];
          return Hand(h, e);
        }
        if e.localSocket {
          return Pass(None);
        }
      }
      if e.route.None? {
        return Drop;
      }
      var d := e.route.value;
      if found {
        entries := entries[k := Publish(entries[k], p.mac, d, p.dscp, e.generation)];
      } else if k.proto == TCP {
        return if d.outbound == OUTBOUND_DIRECT && d.mark == 0 then Pass(Some(d.mark)) else Drop;
      }
      v := LanVerdict(FreshHandoff(d, e.generation), e.alive, e);
    }

    method WanEgressTcp(p: Packet, e: Env) returns (v: Verdict)
      requires p.tuple.proto == TCP
      modifies this
      ensures var after := WanTcp(Get(old(entries), p.tuple), p, e);
              v == after.verdict && entries == Put(old(entries), p.tuple, after.entry)
    {
      var k := p.tuple;
      var h, found;
      if p.syn {
        if e.controlPlane {
          return Pass(None);
        }
        if e.route.None? {
          return Drop;
        }
        var d := e.route.value;
        var args := Args(if WorthCaching(d) then Some(d) else None, p.mac, e.process, p.dscp);
        found := MarkTcpSeen(k, false, true, p.finRst, args, e);
        if !found {
          return if d.outbound == OUTBOUND_DIRECT && d.mark == 0 then Pass(None) else Drop;
        }
        h := FreshHandoff(d, e.generation);
      } else {
        found := MarkTcpSeen(k, false, false, p.finRst, NoArgs(0), e);
        if !found || !entries[k].meta.hasRouting {
          return Pass(None);
        }
        h := CachedHandoff(entries[k]);
      }
      v := WanVerdict(h, e.alive, e);
    }

    method WanEgressUdp(p: Packet, e: Env) returns (v: Verdict)
      requires p.tuple.proto == UDP
      modifies this
      ensures var after := WanUdp(Get(old(entries), p.tuple), p, e);
              v == after.verdict && entries == Put(old(entries), p.tuple, after.entry)
    {
      var k := p.tuple;
      if e.controlPlane {
        return Pass(None);
      }
      var found := MarkUdpSeen(k, false, NoArgs(0), e);
      if found && entries[k].wanIngress {
        return Pass(None);
      }
      var cached := found && entries[k].meta.hasRouting;
      var h, mac := Handoff(0, 0, false, 0, 0), p.mac;
      if cached {
        h, mac := CachedHandoff(entries[k]), entries[k].mac;
      } else {
        if e.route.None? {
          return Drop;
        }
        h := FreshHandoff(e.route.value, e.generation);
      }
      if found {
        entries := entries[k := WanUdpStore(entries[k], p, e, h, mac)];
      }
      v := WanUdpVerdict(h, cached, found, e);
    }

    method SeeReverse(p: Packet, e: Env) returns (v: Verdict)
      modifies this
      ensures var k := Reversed(p.tuple);
              var after := ReverseSeen(Get(old(entries), k), p, e);
              v == after.verdict && entries == Put(old(entries), k, after.entry)
    {
      var k := Reversed(p.tuple);
      if k.proto == TCP {
        var found := MarkTcpSeen(k, true, p.syn, p.finRst, NoArgs(0), e);
      } else {
        var found := MarkUdpSeen(k, true, NoArgs(0), e);
      }
      v := Pass(None);
    }
  }

  // ----- A sweep: the walk and the deletions are separate calls -----

  /** One sweep of the janitor. It looks at one key at a time, all by the time at which the
      sweep began, and remembers the keys to delete; packets may come in between. */
  class JanitorSweep {
    const stamp: nat
    const inPressure: bool
    var visited: nat
    var found: seq<Tuple>

    constructor (stamp: nat, inPressure: bool)
      ensures this.stamp == stamp && this.inPressure == inPressure && visited == 0 && found == []
    {
      this.stamp, this.inPressure := stamp, inPressure;
      visited, found := 0, [];
    }

    /** Looks a key up; a key whose entry is gone by then is passed over. */
    method Visit(t: ConnTable, k: Tuple)
      modifies this
      ensures visited == old(visited) + if k in t.entries then 1 else 0
      ensures found == old(found) + if Finds(Get(t.entries, k), k, stamp, inPressure) then [k] else []
    {
      if k in t.entries {
        visited := visited + 1;
        if JanitorExpired(k, t.entries[k], stamp, inPressure) {
          found := found + [k];
        }
      }
    }

    /** Deletes the remembered keys, whatever their entries are by now: `batched` of them in
        one call, and when that call fails all of them again one by one. */
    method DeleteFound(t: ConnTable, batched: nat) returns (deleted: nat)
      requires batched <= |found|
      modifies t
      ensures t.entries == Without(old(t.entries), found)
      ensures batched == |found| ==> deleted == |found|
      ensures batched < |found| ==> deleted + |t.entries| == |Without(old(t.entries), found[..batched])|
    {
      ghost var before := t.entries;
      t.entries := t.entries - set k | k in found[..batched];
      if batched == |found| {
        assert found[..batched] == found;
        return batched;
      }
      deleted := DeleteEach(t, found);
      assert Without(Without(before, found[..batched]), found) == Without(before, found);
    }

    method DeleteEach(t: ConnTable, keys: seq<Tuple>) returns (deleted: nat)
      modifies t
      ensures t.entries == Without(old(t.entries), keys)
      ensures deleted + |t.entries| == |old(t.entries)|
    {
      deleted := 0;
      for i := 0 to |keys|
        invariant t.entries == Without(old(t.entries), keys[..i])
        invariant deleted + |t.entries| == |old(t.entries)|
      {
        WithoutNext(old(t.entries), keys, i);
        if keys[i] in t.entries {
          DifferenceSize(t.entries, keys[i]);
          deleted := deleted + 1;
          t.entries := t.entries - {keys[i]};
        }
      }
      assert keys[..|keys|] == keys;
    }
  }

  /** The table without some keys. */
  function Without(t: Table, keys: seq<Tuple>): Table { t - set k | k in keys }

  lemma WithoutNext(t: Table, keys: seq<Tuple>, i: nat)
    requires i < |keys|
    ensures Without(t, keys[..i + 1]) == Without(t, keys[..i]) - {keys[i]}
    ensures keys[i] !in Without(t, keys[..i]) ==> Without(t, keys[..i + 1]) == Without(t, keys[..i])
  {
    assert keys[..i + 1] == keys[..i] + [keys[i]];
  }

  /** A whole sweep between two packets. */
  method JanitorScan(t: ConnTable, stamp: nat, inPressure: bool) returns (deleted: nat, remaining: nat)
    modifies t
    ensures t.entries == Sweep(old(t.entries), stamp, inPressure)
    ensures deleted + remaining == |old(t.entries)| && remaining == |t.entries|
  {
    var sweep := new JanitorSweep(stamp, inPressure);
    var todo := t.entries.Keys;
    while todo != {}
      invariant todo <= t.entries.Keys && fresh(sweep) && t.entries == old(t.entries)
      invariant sweep.stamp == stamp && sweep.inPressure == inPressure
      invariant Distinct(sweep.found) && sweep.visited + |todo| == |t.entries|
      invariant forall k :: k in sweep.found <==>
                  k in t.entries && k !in todo && JanitorExpired(k, t.entries[k], stamp, inPressure)
    {
      var k :| k in todo;
      sweep.Visit(t, k);
      todo := todo - {k};
    }
    ghost var expired := set k | k in sweep.found;
    SweepIsDifference(t.entries, expired, stamp, inPressure);
    DistinctSize(sweep.found);
    deleted := sweep.DeleteFound(t, |sweep.found|);
    remaining := sweep.visited - deleted;
  }

  predicate Distinct(keys: seq<Tuple>) { forall i, j :: 0 <= i < j < |keys| ==> keys[i] != keys[j] }

  lemma {:induction false} DistinctSize(keys: seq<Tuple>)
    requires Distinct(keys)
    ensures |set k | k in keys| == |keys|
  {
    if keys != [] {
      var init, last := keys[..|keys| - 1], keys[|keys| - 1];
      DistinctSize(init);
      assert (set k | k in keys) == (set k | k in init) + {last};
    }
  }

  lemma SweepIsDifference(t: Table, expired: set<Tuple>, now: nat, inPressure: bool)
    requires expired == set k | k in t && JanitorExpired(k, t[k], now, inPressure)
    ensures t - expired == Sweep(t, now, inPressure) && |t - expired| == |t| - |expired|
  {
    var rest := t - expired;
    assert rest.Keys == t.Keys - expired;
    SetDifferenceSize(t.Keys, expired);
  }

  lemma SetDifferenceSize<T>(a: set<T>, b: set<T>)
    requires b <= a
    ensures |a - b| == |a| - |b|
  {
    assert a == (a - b) + b;
  }

  lemma DifferenceSize(t: Table, k: Tuple)
    requires k in t
    ensures |t - {k}| == |t| - 1
  {
    var rest := t - {k};
    assert rest.Keys == t.Keys - {k};
  }
}
