/** From the bytes of a packet to its verdict: which parser read it cannot be noticed,
    except on a SYN-ACK. */
module PacketVerdicts {
  import opened MatchSets
  import opened ByteStrings
  import opened RouteEngine
  import opened PacketParser
  import opened PacketEncoding
  import opened ConnTrack
  import opened ConnRuns

  function Number(b: Bytes): int { if |b| == 0 then 0 else Number(b[..|b| - 1]) * 0x100 + b[|b| - 1] as int }

  /** What the hooks take from the parsed headers. */
  function PacketOf(ctx: Ctx): Packet {
    var t := GetTuples(ctx);
    var tcp := ctx.l4proto == IPPROTO_TCP;
    Packet(Tuple(Number(t.sip), Number(t.dip), t.sport, t.dport, if tcp then TCP else UDP),
           tcp && IsNewTcp(ctx.tcp), ctx.tcp.fin || ctx.tcp.rst, t.dscp, Number(ctx.eth.source))
  }

  /** LAN ingress or WAN egress, or one of the hooks that see replies. */
  datatype Direction = Out(hook: Hook) | Back

  function EventOf(dir: Direction, p: Packet, e: Env): Event {
    if dir.Back? then Backward(p, e) else Forward(dir.hook, p, e)
  }

  datatype Effect = Effect(table: Table, verdict: Verdict)

  /** A hook: malformed packets are dropped, what is neither TCP nor UDP passes. */
  function Handled(t: Table, parsed: Parsed, dir: Direction, e: Env): Effect {
    if parsed.code < 0 then Effect(t, Drop)
    else if parsed.code != PARSED || parsed.ctx.l4proto == IPPROTO_ICMPV6 then Effect(t, Pass(None))
    else
      var ev := EventOf(dir, PacketOf(parsed.ctx), e);
      Effect(Handle(t, ev), EntryStep(Get(t, KeyOf(ev)), ev).verdict)
  }

  /** What the fast parser finds, or the slow one when the fast one gives up. */
  function Parse(b: Bytes, linear: Option<nat>, protocol: nat, linkLen: nat): Parsed
    requires linear.Some? ==> linear.value <= |b|
  {
    var fast := FastParse(b, linear, protocol, linkLen);
    if fast.code == FALLBACK then SlowParse(b, protocol, linkLen) else fast
  }

  predicate IsSynAck(tcp: Tcp) { tcp.syn && tcp.ack }

  /** The packets that the hooks take from two contexts that differ in the ACK bit. */
  lemma SamePacketUnlessSynAck(fast: Ctx, slow: Ctx)
    requires SameView(fast, slow)
    ensures PacketOf(fast) == PacketOf(slow).(syn := PacketOf(fast).syn)
    ensures !IsSynAck(slow.tcp) ==> PacketOf(fast) == PacketOf(slow)
    ensures IsSynAck(slow.tcp) && slow.l4proto == IPPROTO_TCP ==> PacketOf(fast).syn && !PacketOf(slow).syn
  {
  }

  /** For every packet that is not a SYN-ACK, however much of it is linear, every hook
      leaves the same table and gives the same verdict as with the slow parser alone. */
  lemma ParserUnnoticedUnlessSynAck(
    b: Bytes, linear: Option<nat>, protocol: nat, linkLen: nat, t: Table, dir: Direction, e: Env)
    requires linear.Some? ==> linear.value <= |b|
    requires !IsSynAck(SlowParse(b, protocol, linkLen).ctx.tcp)
    ensures Handled(t, Parse(b, linear, protocol, linkLen), dir, e) ==
            Handled(t, SlowParse(b, protocol, linkLen), dir, e)
  {
    var fast, slow := FastParse(b, linear, protocol, linkLen), SlowParse(b, protocol, linkLen);
    if fast.code != FALLBACK {
      FastRefinesSlow(b, linear, protocol, linkLen);
      SamePacketUnlessSynAck(fast.ctx, slow.ctx);
    }
  }

  /** A reply seen as a SYN erases the routing of the connection that it answers, and turns
      its direction; seen as another packet it keeps both. */
  lemma SynErasesRouting(p: Packet, q: Packet, t: Table, e: Env)
    requires p == q.(syn := true) && !q.syn && q.tuple.proto == TCP && e.insertOk
    requires Reversed(q.tuple) in t && t[Reversed(q.tuple)].meta.hasRouting && !TcpExpired(t[Reversed(q.tuple)], e.now)
    ensures var k := Reversed(q.tuple);
            var fast, slow := Handle(t, Backward(p, e)), Handle(t, Backward(q, e));
            && k in fast && !fast[k].meta.hasRouting && fast[k].wanIngress
            && k in slow && slow[k].meta == t[k].meta && slow[k].wanIngress == t[k].wanIngress
  {
    var k := Reversed(q.tuple);
    HandleByKey(t, Backward(p, e), k);
    HandleByKey(t, Backward(q, e), k);
  }

  /** The entry that a reply answers. */
  function AnsweredBy(p: Ipv4Packet): Tuple
    requires IsIpv4(p)
  {
    Tuple(Number(Mapped(p.dst)), Number(Mapped(p.src)), p.l4.dport, p.l4.sport, TCP)
  }

  /** The entry that the packet with this tuple answers is alive and has routing. */
  predicate LiveRouted(t: Table, k: Tuple, now: nat) { k in t && t[k].meta.hasRouting && !TcpExpired(t[k], now) }

  /** What the hooks make of a reply whose bytes the fast parser reads: when they are a
      SYN-ACK, routing and direction of the live entry that it answers are gone. With the
      slow parser alone both would have been kept. */
  predicate ErasesRouting(b: Bytes, linear: nat, protocol: nat, linkLen: nat, t: Table, k: Tuple, e: Env)
    requires linear <= |b|
  {
    var fast := Handled(t, Parse(b, Some(linear), protocol, linkLen), Back, e).table;
    var slow := Handled(t, SlowParse(b, protocol, linkLen), Back, e).table;
    && k in t && k in fast && !fast[k].meta.hasRouting && fast[k].wanIngress
    && k in slow && slow[k].meta == t[k].meta && slow[k].wanIngress == t[k].wanIngress
  }

  /** On any bytes. */
  lemma SynAckBytesErase(b: Bytes, linear: nat, protocol: nat, linkLen: nat, t: Table, e: Env)
    requires linear <= |b| && FastParse(b, Some(linear), protocol, linkLen).code == PARSED && e.insertOk
    requires var slow := SlowParse(b, protocol, linkLen).ctx;
             slow.l4proto == IPPROTO_TCP && IsSynAck(slow.tcp) && LiveRouted(t, Reversed(PacketOf(slow).tuple), e.now)
    ensures var k := Reversed(PacketOf(SlowParse(b, protocol, linkLen).ctx).tuple);
            ErasesRouting(b, linear, protocol, linkLen, t, k, e)
  {
    var fast, slow := FastParse(b, Some(linear), protocol, linkLen), SlowParse(b, protocol, linkLen);
    FastRefinesSlow(b, Some(linear), protocol, linkLen);
    SamePacketUnlessSynAck(fast.ctx, slow.ctx);
    SynErasesRouting(PacketOf(fast.ctx), PacketOf(slow.ctx), t, e);
  }

  /** From bytes: every encoded SYN-ACK of 128 bytes or more whose pull succeeds. */
  lemma SynAckErasesRouting(link: Link, p: Ipv4Packet, linear: nat, t: Table, e: Env)
    requires IsLink(link) && IsIpv4(p) && p.l4.TcpSegment? && p.l4.syn && p.l4.ack
    requires Pulled(EncodeIpv4(link, p), Some(linear)) && e.insertOk && LiveRouted(t, AnsweredBy(p), e.now)
    ensures ErasesRouting(EncodeIpv4(link, p), linear, ETH_P_IP, LinkLength(link), t, AnsweredBy(p), e)
  {
    var b := EncodeIpv4(link, p);
    FastReadsIpv4(link, p, linear);
    Ipv4RoundTrip(link, p);
    TcpByTuples(SlowParse(b, ETH_P_IP, LinkLength(link)).ctx);
    SynAckBytesErase(b, linear, ETH_P_IP, LinkLength(link), t, e);
  }

  function AnsweredBy6(p: Ipv6Packet): Tuple
    requires IsIpv6(p)
  {
    Tuple(Number(p.dst), Number(p.src), p.l4.dport, p.l4.sport, TCP)
  }

  /** The same for IPv6, when the headers end inside the linear part. */
  lemma Ipv6SynAckErasesRouting(link: Link, p: Ipv6Packet, linear: nat, t: Table, e: Env)
    requires IsLink(link) && IsIpv6(p) && p.l4.TcpSegment? && p.l4.syn && p.l4.ack
    requires Extensions(p.chain) <= IPV6_MAX_EXTENSIONS && HeadersLinear(link, p, linear)
    requires e.insertOk && LiveRouted(t, AnsweredBy6(p), e.now)
    ensures ErasesRouting(EncodeIpv6(link, p), linear, ETH_P_IPV6, LinkLength(link), t, AnsweredBy6(p), e)
  {
    var b := EncodeIpv6(link, p);
    FastReadsIpv6(link, p, linear);
    Ipv6RoundTrip(link, p);
    TcpByTuples(SlowParse(b, ETH_P_IPV6, LinkLength(link)).ctx);
    SynAckBytesErase(b, linear, ETH_P_IPV6, LinkLength(link), t, e);
  }

  lemma TcpByTuples(ctx: Ctx)
    ensures GetTuples(ctx).l4proto == ctx.l4proto
  {
  }

  /** A table and surroundings in which a SYN and another packet are told apart. */
  function Witness(): Env { Env(0, true, 0, Some(Decision(2, 0, false, 1)), true, false, None, false, true, true) }

  lemma SynIsNoticed(p: Packet, q: Packet, dir: Direction)
    requires p == q.(syn := true) && !q.syn && q.tuple.proto == TCP
    ensures var ep, eq := EventOf(dir, p, Witness()), EventOf(dir, q, Witness());
            Handle(map[], ep) != Handle(map[], eq)
  {
    var ep, eq := EventOf(dir, p, Witness()), EventOf(dir, q, Witness());
    HandleByKey(map[], ep, KeyOf(ep));
    HandleByKey(map[], eq, KeyOf(ep));
    assert StepKey(None, ep, KeyOf(ep)).Some? && StepKey(None, eq, KeyOf(ep)).None?;
  }

  /** Exactly: when the fast parser has read a TCP packet, the hooks do with it what they
      do after the slow parser, in every table and surroundings, if and only if it is not
      a SYN-ACK. */
  lemma ParserUnnoticedIff(b: Bytes, linear: nat, protocol: nat, linkLen: nat, dir: Direction)
    requires linear <= |b| && FastParse(b, Some(linear), protocol, linkLen).code == PARSED
    requires SlowParse(b, protocol, linkLen).ctx.l4proto == IPPROTO_TCP
    ensures (forall t, e :: Handled(t, Parse(b, Some(linear), protocol, linkLen), dir, e)
                            == Handled(t, SlowParse(b, protocol, linkLen), dir, e))
            <==> !IsSynAck(SlowParse(b, protocol, linkLen).ctx.tcp)
  {
    var fast, slow := FastParse(b, Some(linear), protocol, linkLen), SlowParse(b, protocol, linkLen);
    FastRefinesSlow(b, Some(linear), protocol, linkLen);
    SamePacketUnlessSynAck(fast.ctx, slow.ctx);
    if IsSynAck(slow.ctx.tcp) {
      SynIsNoticed(PacketOf(fast.ctx), PacketOf(slow.ctx), dir);
      assert Handled(map[], fast, dir, Witness()) != Handled(map[], slow, dir, Witness());
    } else {
      forall t, e
        ensures Handled(t, Parse(b, Some(linear), protocol, linkLen), dir, e) == Handled(t, slow, dir, e)
      {
        ParserUnnoticedUnlessSynAck(b, Some(linear), protocol, linkLen, t, dir, e);
      }
    }
  }
}
