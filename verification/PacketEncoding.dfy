/** Packets written down field by field, and what the parser recovers from them. */
module PacketEncoding {
  import opened MatchSets
  import opened ByteStrings
  import opened PacketParser

  datatype L4 =
    | TcpSegment(
        sport: int, dport: int, numbers: Bytes, doff: u8,
        fin: bool, syn: bool, rst: bool, psh: bool, ack: bool, high: u8, rest: Bytes)
    | UdpDatagram(sport: int, dport: int, rest: Bytes)

  /** An IPv6 extension header that has a transport header after it. */
  datatype Extension =
    | Options(kind: u8, len: u8, body: Bytes)
    | FirstFragment(reserved: u8, flags: u8, id: Bytes)

  datatype Chain = End | Then(head: Extension, tail: Chain)

  datatype Ipv4Packet = Ipv4Packet(
    dscp: u8, ecn: u8, total: (u8, u8), id: (u8, u8), flags: u8, ttl: u8, check: (u8, u8),
    src: Bytes, dst: Bytes, options: Bytes, l4: L4)

  datatype Ipv6Packet = Ipv6Packet(
    dscp: u8, low: u8, flow: (u8, u8), len: (u8, u8), hops: u8,
    src: Bytes, dst: Bytes, chain: Chain, l4: L4)

  // ----- Well-formed packets -----

  predicate IsL4(l4: L4) {
    && 0 <= l4.sport < 0x10000 && 0 <= l4.dport < 0x10000
    && match l4
       case TcpSegment(_, _, numbers, _, _, _, _, _, _, high, rest) => |numbers| == 8 && high < 8 && |rest| >= 6
       case UdpDatagram(_, _, rest) => |rest| >= 4
  }

  predicate IsExtension(e: Extension) {
    match e
    case Options(kind, len, body) =>
      (kind == IPPROTO_HOPOPTS || kind == IPPROTO_ROUTING || kind == IPPROTO_DSTOPTS)
      && |body| == ExtensionLength(len) - 2
    case FirstFragment(_, flags, id) => flags < 8 && |id| == 4
  }

  predicate IsChain(chain: Chain) {
    chain.Then? ==> IsExtension(chain.head) && IsChain(chain.tail)
  }

  predicate IsIpv4(p: Ipv4Packet) {
    && p.dscp < 64 && p.ecn < 4 && p.flags < 8 && |p.src| == 4 && |p.dst| == 4
    && |p.options| <= 40 && |p.options| % 4 == 0 && IsL4(p.l4)
  }

  predicate IsIpv6(p: Ipv6Packet) {
    && p.dscp < 64 && p.low < 64 && |p.src| == 16 && |p.dst| == 16 && IsChain(p.chain) && IsL4(p.l4)
  }

  // ----- Encoding -----

  function Protocol(l4: L4): u8 { if l4.TcpSegment? then IPPROTO_TCP else IPPROTO_UDP }

  function Bit(set_: bool, weight: int): int { if set_ then weight else 0 }

  function EncodeL4(l4: L4): (b: Bytes)
    requires IsL4(l4)
  {
    match l4
    case TcpSegment(sport, dport, numbers, doff, fin, syn, rst, psh, ack, high, rest) =>
      BigEndian16(sport) + BigEndian16(dport) + numbers
      + [doff, FlagByte(fin, syn, rst, psh, ack, high)] + rest
    case UdpDatagram(sport, dport, rest) => BigEndian16(sport) + BigEndian16(dport) + rest
  }

  function KindOf(e: Extension): u8 { if e.Options? then e.kind else IPPROTO_FRAGMENT }

  /** The protocol number of what comes first, when `proto` is the transport protocol. */
  function First(chain: Chain, proto: u8): u8 { if chain.End? then proto else KindOf(chain.head) }

  function Extensions(chain: Chain): nat { if chain.End? then 0 else 1 + Extensions(chain.tail) }

  function EncodeExtension(e: Extension, next: u8): Bytes {
    match e
    case Options(_, len, body) => [next, len] + body
    case FirstFragment(reserved, flags, id) => [next, reserved, 0, flags] + id
  }

  function EncodeChain(chain: Chain, proto: u8, payload: Bytes): Bytes {
    match chain
    case End => payload
    case Then(head, tail) => EncodeExtension(head, First(tail, proto)) + EncodeChain(tail, proto, payload)
  }

  function Ipv4Header(p: Ipv4Packet): (b: Bytes)
    requires IsIpv4(p)
    ensures |b| == 20
  {
    [4 * 16 + 5 + |p.options| / 4, p.dscp as int * 4 + p.ecn as int, p.total.0, p.total.1, p.id.0, p.id.1,
     p.flags as int * 32, 0, p.ttl, Protocol(p.l4), p.check.0, p.check.1] + p.src + p.dst
  }

  function Ipv6Header(p: Ipv6Packet): (b: Bytes)
    requires IsIpv6(p)
    ensures |b| == 40
  {
    [6 * 16 + p.dscp / 4, p.dscp as int % 4 * 64 + p.low as int, p.flow.0, p.flow.1, p.len.0, p.len.1,
     First(p.chain, Protocol(p.l4)), p.hops] + p.src + p.dst
  }

  /** With an Ethernet header in front, or without one. */
  datatype Link = Ethernet(dest: Bytes, source: Bytes) | Bare

  predicate IsLink(link: Link) { link.Ethernet? ==> |link.dest| == 6 && |link.source| == 6 }

  function LinkHeader(link: Link, proto: int): (b: Bytes)
    requires IsLink(link) && 0 <= proto < 0x10000
    ensures |b| == LinkLength(link)
  {
    if link.Ethernet? then link.dest + link.source + BigEndian16(proto) else []
  }

  function LinkLength(link: Link): nat { if link.Ethernet? then ETH_HLEN else 0 }

  function EncodeIpv4(link: Link, p: Ipv4Packet): Bytes
    requires IsLink(link) && IsIpv4(p)
  {
    LinkHeader(link, ETH_P_IP) + (Ipv4Header(p) + (p.options + EncodeL4(p.l4)))
  }

  function EncodeIpv6(link: Link, p: Ipv6Packet): Bytes
    requires IsLink(link) && IsIpv6(p)
  {
    LinkHeader(link, ETH_P_IPV6) + (Ipv6Header(p) + EncodeChain(p.chain, Protocol(p.l4), EncodeL4(p.l4)))
  }

  // ----- Decoding the parts -----

  /** What the parser must put in the context for a transport header. */
  predicate HoldsL4(ctx: Ctx, l4: L4) {
    && ctx.listener == (if l4.UdpDatagram? then IPPROTO_UDP else if l4.syn && !l4.ack then IPPROTO_TCP else 0)
    && match l4
       case TcpSegment(sport, dport, _, _, fin, syn, rst, _, ack, _, _) =>
         ctx.tcp == Tcp(sport, dport, fin, syn, rst, ack)
       case UdpDatagram(sport, dport, _) => ctx.udp == Udp(sport, dport)
  }

  lemma L4Decodes(prefix: Bytes, l4: L4, ctx: Ctx, icmp: bool)
    requires IsL4(l4)
    ensures var b := prefix + EncodeL4(l4);
            var parsed := ReadL4(b, |b|, MALFORMED, true, ctx, |prefix|, Protocol(l4), icmp);
            parsed.code == PARSED && HoldsL4(parsed.ctx, l4)
            && parsed.ctx.(tcp := ctx.tcp, udp := ctx.udp, listener := ctx.listener) == ctx
  {
    var code, n := EncodeL4(l4), |prefix|;
    var b := prefix + code;
    assert b[n] == code[0] && b[n + 1] == code[1] && b[n + 2] == code[2] && b[n + 3] == code[3];
    if l4.TcpSegment? {
      assert b[n + 13] == code[13];
      FlagsDecode(l4, code);
    }
  }

  lemma FlagsDecode(l4: L4, code: Bytes)
    requires IsL4(l4) && l4.TcpSegment? && code == EncodeL4(l4)
    ensures |code| >= 20
    ensures code[13] % 2 == Bit(l4.fin, 1) && code[13] / 2 % 2 == Bit(l4.syn, 1)
    ensures code[13] / 4 % 2 == Bit(l4.rst, 1) && code[13] / 16 % 2 == Bit(l4.ack, 1)
  {
    var low := FlagByte(l4.fin, l4.syn, l4.rst, l4.psh, l4.ack, l4.high);
    LowFlags(l4.fin, l4.syn, l4.rst, l4.psh, l4.ack, l4.high);
    HighFlags(l4.fin, l4.syn, l4.rst, l4.psh, l4.ack, l4.high);
    assert code[13] == low;
  }

  function FlagByte(fin: bool, syn: bool, rst: bool, psh: bool, ack: bool, high: int): int {
    Bit(fin, 1) + Bit(syn, 2) + Bit(rst, 4) + Bit(psh, 8) + Bit(ack, 16) + 32 * high
  }

  lemma LowFlags(fin: bool, syn: bool, rst: bool, psh: bool, ack: bool, high: int)
    requires 0 <= high < 8
    ensures var f := FlagByte(fin, syn, rst, psh, ack, high);
            f % 2 == Bit(fin, 1) && f / 2 % 2 == Bit(syn, 1)
  {
    var f := FlagByte(fin, syn, rst, psh, ack, high);
    assert f / 2 == Bit(syn, 1) + 2 * (Bit(rst, 1) + Bit(psh, 2) + Bit(ack, 4) + 8 * high);
  }

  lemma HighFlags(fin: bool, syn: bool, rst: bool, psh: bool, ack: bool, high: int)
    requires 0 <= high < 8
    ensures var f := FlagByte(fin, syn, rst, psh, ack, high);
            f / 4 % 2 == Bit(rst, 1) && f / 16 % 2 == Bit(ack, 1)
  {
    var f := FlagByte(fin, syn, rst, psh, ack, high);
    assert f / 4 == Bit(rst, 1) + 2 * (Bit(psh, 1) + Bit(ack, 2) + 4 * high);
    assert f / 16 == Bit(ack, 1) + 2 * high;
  }

  /** One extension header inside the readable part moves the walk to what follows it. */
  lemma WalkStep(b: Bytes, limit: nat, short: int, at: nat, e: Extension, next: u8, tail: Bytes, i: nat)
    returns (after: nat)
    requires IsExtension(e) && i < IPV6_MAX_EXTENSIONS && |b| - |tail| <= limit <= |b|
    requires at <= |b| && b[at..] == EncodeExtension(e, next) + tail
    ensures after <= |b| && b[after..] == tail
    ensures WalkExtensions(b, limit, short, KindOf(e), at, i) == WalkExtensions(b, limit, short, next, after, i + 1)
  {
    var head := EncodeExtension(e, next);
    after := at + |head|;
    Suffix(b, at, head, tail);
    assert b[at] == b[at + 0] == head[0] == next;
    HopStep(b, limit, short, KindOf(e), at, next, after, i);
  }

  lemma HopStep(b: Bytes, limit: nat, short: int, kind: u8, at: nat, next: u8, after: nat, i: nat)
    requires limit <= |b| && i < IPV6_MAX_EXTENSIONS && HopOver(b, limit, short, kind, at) == Go(next, after)
    ensures WalkExtensions(b, limit, short, kind, at, i) == WalkExtensions(b, limit, short, next, after, i + 1)
  {
  }

  /** The walk passes up to eight extension headers and lands on the transport header;
      with more than eight it stops on an extension header. */
  lemma {:induction false} WalkDecodes(
    b: Bytes, limit: nat, short: int, at: nat, chain: Chain, i: nat, proto: u8, payload: Bytes) returns (walk: Walk)
    requires IsChain(chain) && i <= IPV6_MAX_EXTENSIONS && !IsExtensionHeader(proto) && proto != IPPROTO_NONE
    requires at <= |b| && b[at..] == EncodeChain(chain, proto, payload) && |b| - |payload| <= limit <= |b|
    ensures walk == WalkExtensions(b, limit, short, First(chain, proto), at, i) && walk.Arrived?
    ensures LandsOn(b, walk, proto, payload, i + Extensions(chain) <= IPV6_MAX_EXTENSIONS)
    decreases chain
  {
    if chain.End? || i == IPV6_MAX_EXTENSIONS {
      walk := WalkStops(b, limit, short, at, First(chain, proto), i);
    } else {
      var tail := EncodeChain(chain.tail, proto, payload);
      ChainEnds(chain.tail, proto, payload);
      var after := WalkStep(b, limit, short, at, chain.head, First(chain.tail, proto), tail, i);
      walk := WalkDecodes(b, limit, short, after, chain.tail, i + 1, proto, payload);
    }
  }

  predicate LandsOn(b: Bytes, walk: Walk, proto: u8, payload: Bytes, fits: bool)
    requires walk.Arrived?
  {
    if fits then walk.nexthdr == proto && walk.offset <= |b| && b[walk.offset..] == payload
    else IsExtensionHeader(walk.nexthdr)
  }

  lemma WalkStops(b: Bytes, limit: nat, short: int, at: nat, nexthdr: u8, i: nat) returns (walk: Walk)
    requires limit <= |b| && i <= IPV6_MAX_EXTENSIONS
    requires i == IPV6_MAX_EXTENSIONS || (!IsExtensionHeader(nexthdr) && nexthdr != IPPROTO_NONE)
    ensures walk == WalkExtensions(b, limit, short, nexthdr, at, i) == Arrived(nexthdr, at)
  {
    walk := Arrived(nexthdr, at);
  }

  lemma {:induction false} ChainEnds(chain: Chain, proto: u8, payload: Bytes)
    ensures |EncodeChain(chain, proto, payload)| >= |payload|
  {
    if chain.Then? { ChainEnds(chain.tail, proto, payload); }
  }

  lemma HeadBytes(prefix: Bytes, head: Bytes, b: Bytes)
    requires |b| >= |prefix| + |head| && b[|prefix|..|prefix| + |head|] == head
    ensures forall k :: 0 <= k < |head| ==> b[|prefix| + k] == head[k]
  {
    forall k | 0 <= k < |head|
      ensures b[|prefix| + k] == head[k]
    {
      assert b[|prefix| + k] == b[|prefix|..|prefix| + |head|][k];
    }
  }

  // ----- Round trips -----

  lemma LinkDecodes(link: Link, proto: int, tail: Bytes)
    requires IsLink(link) && 0 <= proto < 0x10000
    ensures var b := LinkHeader(link, proto) + tail;
            link.Ethernet? ==> |b| >= ETH_HLEN && ReadEth(b) == Eth(proto, link.dest, link.source)
  {
    if link.Ethernet? {
      var header := LinkHeader(link, proto);
      var b := header + tail;
      assert header[0..6] == link.dest && header[6..12] == link.source;
      assert b[0..6] == header[0..6] && b[6..12] == header[6..12] && b[12] == header[12] && b[13] == header[13];
    }
  }

  lemma Ipv4HeaderDecodes(prefix: Bytes, p: Ipv4Packet, tail: Bytes)
    requires IsIpv4(p)
    ensures var b := prefix + (Ipv4Header(p) + tail);
            && ReadIp4(b, |prefix|) ==
               Ip4(4, 5 + |p.options| / 4, p.dscp as int * 4 + p.ecn as int, Protocol(p.l4), p.src, p.dst)
            && U16(b, |prefix| + 6) % 0x2000 == 0
  {
    var h, n := Ipv4Header(p), |prefix|;
    var b := prefix + (h + tail);
    assert b[n..n + 20] == h;
    HeadBytes(prefix, h, b);
    SliceOfSlice(b, n, 20, 12, 16);
    SliceOfSlice(b, n, 20, 16, 20);
    assert h[12..16] == p.src && h[16..20] == p.dst;
    assert b[n] == b[n + 0] == h[0];
  }

  lemma Ipv6HeaderDecodes(prefix: Bytes, p: Ipv6Packet, tail: Bytes)
    requires IsIpv6(p)
    ensures var b := prefix + (Ipv6Header(p) + tail);
            var ip := ReadIp6(b, |prefix|);
            && ip.saddr == p.src && ip.daddr == p.dst && ip.head.0 % 16 * 4 + ip.head.1 / 64 == p.dscp
            && b[|prefix| + 6] == First(p.chain, Protocol(p.l4))
  {
    var h, n := Ipv6Header(p), |prefix|;
    var b := prefix + (h + tail);
    assert b[n..n + 40] == h;
    HeadBytes(prefix, h, b);
    SliceOfSlice(b, n, 40, 8, 24);
    SliceOfSlice(b, n, 40, 24, 40);
    assert h[8..24] == p.src && h[24..40] == p.dst;
    assert b[n] == b[n + 0] == h[0];
  }

  function EthOf(link: Link, proto: nat): Eth {
    if link.Ethernet? then Eth(proto, link.dest, link.source) else BareEth(proto)
  }

  lemma LinkStep(link: Link, proto: nat, tail: Bytes)
    requires IsLink(link) && proto < 0x10000
    ensures var b := LinkHeader(link, proto) + tail;
            SlowParse(b, proto, LinkLength(link)) ==
            ReadL3(b, |b|, MALFORMED, true, EthOf(link, proto), LinkLength(link))
  {
    LinkDecodes(link, proto, tail);
  }

  lemma Ipv4Body(header: Bytes, p: Ipv4Packet, eth: Eth)
    requires IsIpv4(p)
    ensures var b := header + (Ipv4Header(p) + (p.options + EncodeL4(p.l4)));
            var parsed := ReadIpv4(b, |b|, MALFORMED, true, EmptyCtx(eth), |header|);
            && parsed.code == PARSED && HoldsL4(parsed.ctx, p.l4)
            && GetTuples(parsed.ctx) ==
               Tuples(Mapped(p.src), Mapped(p.dst), p.l4.sport, p.l4.dport, Protocol(p.l4), p.dscp)
  {
    var b := header + (Ipv4Header(p) + (p.options + EncodeL4(p.l4)));
    Ipv4HeaderDecodes(header, p, p.options + EncodeL4(p.l4));
    var ip := ReadIp4(b, |header|);
    var prefix := header + (Ipv4Header(p) + p.options);
    assert b == prefix + EncodeL4(p.l4);
    L4Decodes(prefix, p.l4, EmptyCtx(eth).(ip4 := ip, ihl := ip.ihl, l4proto := ip.protocol), false);
  }

  lemma Ipv6Body(header: Bytes, p: Ipv6Packet, eth: Eth)
    requires IsIpv6(p)
    ensures var b := header + (Ipv6Header(p) + EncodeChain(p.chain, Protocol(p.l4), EncodeL4(p.l4)));
            var parsed := ReadIpv6(b, |b|, MALFORMED, true, EmptyCtx(eth), |header|);
            if Extensions(p.chain) <= IPV6_MAX_EXTENSIONS
            then parsed.code == PARSED && HoldsL4(parsed.ctx, p.l4)
                 && GetTuples(parsed.ctx) == Tuples(p.src, p.dst, p.l4.sport, p.l4.dport, Protocol(p.l4), p.dscp)
            else parsed.code == MALFORMED
  {
    var code, chain := EncodeL4(p.l4), EncodeChain(p.chain, Protocol(p.l4), EncodeL4(p.l4));
    var b := header + (Ipv6Header(p) + chain);
    Ipv6HeaderDecodes(header, p, chain);
    assert b[|header| + 40..] == chain;
    var walk := WalkDecodes(b, |b|, MALFORMED, |header| + 40, p.chain, 0, Protocol(p.l4), code);
    if Extensions(p.chain) <= IPV6_MAX_EXTENSIONS {
      Ipv6Lands(b, |header|, eth, walk, p.l4);
    } else {
      Ipv6Refused(b, |header|, eth, walk);
    }
  }

  lemma Ipv6Refused(b: Bytes, off: nat, eth: Eth, walk: Walk)
    requires off + 40 <= |b| && walk == WalkExtensions(b, |b|, MALFORMED, b[off + 6], off + 40, 0)
    requires walk.Arrived? && IsExtensionHeader(walk.nexthdr)
    ensures ReadIpv6(b, |b|, MALFORMED, true, EmptyCtx(eth), off).code == MALFORMED
  {
  }

  /** The walk has arrived at an encoded transport header. */
  lemma Ipv6Lands(b: Bytes, off: nat, eth: Eth, walk: Walk, l4: L4)
    requires IsL4(l4) && off + 40 <= |b| && walk == WalkExtensions(b, |b|, MALFORMED, b[off + 6], off + 40, 0)
    requires walk.Arrived? && walk.nexthdr == Protocol(l4) && walk.offset <= |b| && b[walk.offset..] == EncodeL4(l4)
    ensures var parsed := ReadIpv6(b, |b|, MALFORMED, true, EmptyCtx(eth), off);
            var ip := ReadIp6(b, off);
            && parsed.code == PARSED && HoldsL4(parsed.ctx, l4)
            && GetTuples(parsed.ctx) == Tuples(ip.saddr, ip.daddr, l4.sport, l4.dport, Protocol(l4),
                                               ip.head.0 % 16 * 4 + ip.head.1 / 64)
  {
    var ctx := EmptyCtx(eth).(ip6 := ReadIp6(b, off), ihl := 10, l4proto := walk.nexthdr);
    assert b == b[..walk.offset] + EncodeL4(l4);
    L4Decodes(b[..walk.offset], l4, ctx, true);
    TuplesOfL4(ReadL4(b, |b|, MALFORMED, true, ctx, walk.offset, walk.nexthdr, true).ctx, l4);
  }

  lemma TuplesOfL4(ctx: Ctx, l4: L4)
    requires HoldsL4(ctx, l4) && ctx.l4proto == Protocol(l4) && ctx.ip4 == ZeroIp4()
    ensures GetTuples(ctx) == Tuples(ctx.ip6.saddr, ctx.ip6.daddr, l4.sport, l4.dport, Protocol(l4),
                                     ctx.ip6.head.0 % 16 * 4 + ctx.ip6.head.1 / 64)
  {
  }

  /** Every first-fragment or unfragmented IPv4 packet, with any options, on an Ethernet
      or a bare link: the parser recovers addresses, ports, protocol, DSCP, flags. */
  lemma Ipv4RoundTrip(link: Link, p: Ipv4Packet)
    requires IsLink(link) && IsIpv4(p)
    ensures var parsed := SlowParse(EncodeIpv4(link, p), ETH_P_IP, LinkLength(link));
            && parsed.code == PARSED && HoldsL4(parsed.ctx, p.l4)
            && GetTuples(parsed.ctx) ==
               Tuples(Mapped(p.src), Mapped(p.dst), p.l4.sport, p.l4.dport, Protocol(p.l4), p.dscp)
  {
    LinkStep(link, ETH_P_IP, Ipv4Header(p) + (p.options + EncodeL4(p.l4)));
    Ipv4Body(LinkHeader(link, ETH_P_IP), p, EthOf(link, ETH_P_IP));
  }

  /** Every IPv6 packet with any chain of extension headers: with up to eight of them it
      is parsed and everything is recovered, with more it is refused. */
  lemma Ipv6RoundTrip(link: Link, p: Ipv6Packet)
    requires IsLink(link) && IsIpv6(p)
    ensures var parsed := SlowParse(EncodeIpv6(link, p), ETH_P_IPV6, LinkLength(link));
            if Extensions(p.chain) <= IPV6_MAX_EXTENSIONS
            then parsed.code == PARSED && HoldsL4(parsed.ctx, p.l4)
                 && GetTuples(parsed.ctx) == Tuples(p.src, p.dst, p.l4.sport, p.l4.dport, Protocol(p.l4), p.dscp)
            else parsed.code == MALFORMED
  {
    LinkStep(link, ETH_P_IPV6, Ipv6Header(p) + EncodeChain(p.chain, Protocol(p.l4), EncodeL4(p.l4)));
    Ipv6Body(LinkHeader(link, ETH_P_IPV6), p, EthOf(link, ETH_P_IPV6));
  }

  // ----- What the fast path reads -----

  /** The headers of an IPv4 packet without its link take at most 80 bytes, so a successful
      pull covers them. */
  lemma FastReadsIpv4(link: Link, p: Ipv4Packet, linear: nat)
    requires IsLink(link) && IsIpv4(p) && Pulled(EncodeIpv4(link, p), Some(linear))
    ensures FastParse(EncodeIpv4(link, p), Some(linear), ETH_P_IP, LinkLength(link)).code == PARSED
  {
    var tail := p.options + EncodeL4(p.l4);
    LinkDecodes(link, ETH_P_IP, Ipv4Header(p) + tail);
    Ipv4HeaderDecodes(LinkHeader(link, ETH_P_IP), p, tail);
  }

  function L4Length(l4: L4): nat { if l4.TcpSegment? then 20 else 8 }

  /** The headers of an IPv6 packet end inside the linear part. */
  predicate HeadersLinear(link: Link, p: Ipv6Packet, linear: nat)
    requires IsLink(link) && IsIpv6(p)
  {
    |EncodeIpv6(link, p)| - |EncodeL4(p.l4)| + L4Length(p.l4) <= linear <= |EncodeIpv6(link, p)|
  }

  /** An IPv6 packet with at most eight extension headers is read by the fast path when its
      headers end inside the linear part. */
  lemma FastReadsIpv6(link: Link, p: Ipv6Packet, linear: nat)
    requires IsLink(link) && IsIpv6(p) && Extensions(p.chain) <= IPV6_MAX_EXTENSIONS && HeadersLinear(link, p, linear)
    ensures FastParse(EncodeIpv6(link, p), Some(linear), ETH_P_IPV6, LinkLength(link)).code == PARSED
  {
    var code, chain := EncodeL4(p.l4), EncodeChain(p.chain, Protocol(p.l4), EncodeL4(p.l4));
    var b, n := EncodeIpv6(link, p), LinkLength(link);
    LinkDecodes(link, ETH_P_IPV6, Ipv6Header(p) + chain);
    Ipv6HeaderDecodes(LinkHeader(link, ETH_P_IPV6), p, chain);
    assert b[n + 40..] == chain;
    ChainEnds(p.chain, Protocol(p.l4), code);
    var walk := WalkDecodes(b, linear, FALLBACK, n + 40, p.chain, 0, Protocol(p.l4), code);
    assert walk.offset == |b| - |code|;
    LandsInside(b, linear, n, EthOf(link, ETH_P_IPV6), walk, p.l4);
  }

  lemma LandsInside(b: Bytes, linear: nat, off: nat, eth: Eth, walk: Walk, l4: L4)
    requires off + 40 <= linear <= |b| && walk == WalkExtensions(b, linear, FALLBACK, b[off + 6], off + 40, 0)
    requires walk.Arrived? && walk.nexthdr == Protocol(l4) && walk.offset + L4Length(l4) <= linear
    ensures ReadIpv6(b, linear, FALLBACK, false, EmptyCtx(eth), off).code == PARSED
  {
  }

  /** Every SYN-ACK whose pull succeeds is taken for a new connection by the fast path, and
      not by the slow one. */
  lemma SynAckLooksNewToFastPath(link: Link, p: Ipv4Packet, linear: nat)
    requires IsLink(link) && IsIpv4(p) && p.l4.TcpSegment? && p.l4.syn && p.l4.ack
    requires Pulled(EncodeIpv4(link, p), Some(linear))
    ensures var b := EncodeIpv4(link, p);
            && IsNewTcp(FastParse(b, Some(linear), ETH_P_IP, LinkLength(link)).ctx.tcp)
            && !IsNewTcp(SlowParse(b, ETH_P_IP, LinkLength(link)).ctx.tcp)
  {
    FastReadsIpv4(link, p, linear);
    Ipv4RoundTrip(link, p);
    FastRefinesSlow(EncodeIpv4(link, p), Some(linear), ETH_P_IP, LinkLength(link));
  }
}
