/** The packet parser: a fast path over the directly accessible part of the packet and
    a slow path that copies bytes out. Both read Ethernet or bare L3 packets, IPv4 with
    options, and IPv6 with up to eight extension headers. */
module PacketParser {
  import opened MatchSets
  import opened ByteStrings

  const ETH_HLEN: nat := 14
  const ETH_P_IP: nat := 0x0800
  const ETH_P_IPV6: nat := 0x86DD
  const IPPROTO_HOPOPTS: u8 := 0
  const IPPROTO_TCP: u8 := 6
  const IPPROTO_UDP: u8 := 17
  const IPPROTO_ROUTING: u8 := 43
  const IPPROTO_FRAGMENT: u8 := 44
  const IPPROTO_ICMPV6: u8 := 58
  const IPPROTO_NONE: u8 := 59
  const IPPROTO_DSTOPTS: u8 := 60
  const IPV6_MAX_EXTENSIONS: nat := 8

  const HEADER_PULL_SIZE: nat := 128

  const FALLBACK: int := -1
  const MALFORMED: int := -14
  const PARSED: int := 0
  const UNSUPPORTED: int := 1
  const PARSE_FRAGMENT: int := 2

  predicate IsExtensionHeader(nexthdr: u8) {
    nexthdr == IPPROTO_HOPOPTS || nexthdr == IPPROTO_ROUTING || nexthdr == IPPROTO_FRAGMENT
    || nexthdr == IPPROTO_DSTOPTS
  }

  /** The length in bytes of an extension header whose length byte is `len`. */
  function ExtensionLength(len: int): int { (len + 1) * 8 }

  // ----- Headers -----

  datatype Eth = Eth(proto: int, dest: Bytes, source: Bytes)
  datatype Ip4 = Ip4(version: nat, ihl: nat, tos: u8, protocol: u8, saddr: Bytes, daddr: Bytes)
  /** `head` is the first two bytes, which hold version and traffic class. */
  datatype Ip6 = Ip6(head: (u8, u8), saddr: Bytes, daddr: Bytes)
  datatype Tcp = Tcp(source: int, dest: int, fin: bool, syn: bool, rst: bool, ack: bool)
  datatype Udp = Udp(source: int, dest: int)

  datatype Ctx = Ctx(
    eth: Eth, ip4: Ip4, ip6: Ip6, icmp6Type: u8, tcp: Tcp, udp: Udp, ihl: nat, l4proto: u8, listener: u8)

  function ZeroIp4(): Ip4 { Ip4(0, 0, 0, 0, [0, 0, 0, 0], [0, 0, 0, 0]) }
  function Zero16(): Bytes { [0, 0, 0, 0, 0, 0, 0, 0, 0, 0, 0, 0, 0, 0, 0, 0] }
  function ZeroIp6(): Ip6 { Ip6((0, 0), Zero16(), Zero16()) }

  function EmptyCtx(eth: Eth): Ctx {
    Ctx(eth, ZeroIp4(), ZeroIp6(), 0, Tcp(0, 0, false, false, false, false), Udp(0, 0), 0, 0, 0)
  }

  function BareEth(protocol: nat): Eth { Eth(protocol, [0, 0, 0, 0, 0, 0], [0, 0, 0, 0, 0, 0]) }

  function ReadEth(b: Bytes): Eth
    requires |b| >= ETH_HLEN
  {
    Eth(U16(b, 12), b[0..6], b[6..12])
  }

  function ReadIp4(b: Bytes, off: nat): Ip4
    requires off + 20 <= |b|
  {
    Ip4(b[off] / 16, b[off] % 16, b[off + 1], b[off + 9], b[off + 12..off + 16], b[off + 16..off + 20])
  }

  function ReadIp6(b: Bytes, off: nat): Ip6
    requires off + 40 <= |b|
  {
    Ip6((b[off], b[off + 1]), b[off + 8..off + 24], b[off + 24..off + 40])
  }

  function ReadTcp(b: Bytes, off: nat): Tcp
    requires off + 20 <= |b|
  {
    var flags := b[off + 13];
    Tcp(U16(b, off), U16(b, off + 2), flags % 2 == 1, flags / 2 % 2 == 1, flags / 4 % 2 == 1, flags / 16 % 2 == 1)
  }

  function ReadUdp(b: Bytes, off: nat): Udp
    requires off + 8 <= |b|
  {
    Udp(U16(b, off), U16(b, off + 2))
  }

  predicate IsNewTcp(tcp: Tcp) { tcp.syn && !tcp.ack }

  function ListenerOf(tcp: Tcp): u8 { if IsNewTcp(tcp) then IPPROTO_TCP else 0 }

  // ----- Tuples -----

  datatype Tuples = Tuples(sip: Bytes, dip: Bytes, sport: int, dport: int, l4proto: u8, dscp: u8)

  function Mapped(addr: Bytes): Bytes { [0, 0, 0, 0, 0, 0, 0, 0, 0, 0, 0xFF, 0xFF] + addr }

  function GetTuples(ctx: Ctx): Tuples {
    var (sport, dport) :=
      if ctx.l4proto == IPPROTO_TCP then (ctx.tcp.source, ctx.tcp.dest) else (ctx.udp.source, ctx.udp.dest);
    if ctx.ip4.version == 4
    then Tuples(Mapped(ctx.ip4.saddr), Mapped(ctx.ip4.daddr), sport, dport, ctx.l4proto, ctx.ip4.tos / 4)
    else Tuples(ctx.ip6.saddr, ctx.ip6.daddr, sport, dport, ctx.l4proto,
                ctx.ip6.head.0 % 16 * 4 + ctx.ip6.head.1 / 64)
  }

  // ----- What the parsers compute -----

  datatype Parsed = Parsed(code: int, ctx: Ctx)

  datatype Walk =
    | Arrived(nexthdr: u8, offset: nat)
    | Fragment(nexthdr: u8)
    | Bad(code: int)

  /** What one header of the chain means: the transport header, a way on, or an end. */
  datatype Hop =
    | Land
    | Go(nexthdr: u8, offset: nat)
    | Halt(walk: Walk)

  /** One header, with `limit` readable bytes; `short` is the code for running out of them. */
  function HopOver(b: Bytes, limit: nat, short: int, nexthdr: u8, offset: nat): Hop
    requires limit <= |b|
  {
    if nexthdr == IPPROTO_NONE then Halt(Bad(MALFORMED))
    else if nexthdr == IPPROTO_FRAGMENT then
      if offset + 8 > limit then Halt(Bad(short))
      else if U16(b, offset + 2) / 8 != 0 then Halt(Fragment(b[offset]))
      else Go(b[offset], offset + 8)
    else if !IsExtensionHeader(nexthdr) then Land
    else if offset + 2 > limit then Halt(Bad(short))
    else Go(b[offset], offset + ExtensionLength(b[offset + 1]))
  }

  /** The extension header chain. */
  function WalkExtensions(b: Bytes, limit: nat, short: int, nexthdr: u8, offset: nat, i: nat): Walk
    requires limit <= |b| && i <= IPV6_MAX_EXTENSIONS
    decreases IPV6_MAX_EXTENSIONS - i
  {
    if i == IPV6_MAX_EXTENSIONS then Arrived(nexthdr, offset)
    else
      match HopOver(b, limit, short, nexthdr, offset)
      case Land => Arrived(nexthdr, offset)
      case Go(nh, off) => WalkExtensions(b, limit, short, nh, off, i + 1)
      case Halt(walk) => walk
  }

  /** The transport header. The fast path does not copy the ACK bit. */
  function ReadL4(b: Bytes, limit: nat, short: int, keepAck: bool, ctx: Ctx, off: nat, proto: u8, icmp: bool): Parsed
    requires limit <= |b|
  {
    if proto == IPPROTO_TCP then
      if off + 20 > limit then Parsed(short, ctx)
      else
        var tcp := ReadTcp(b, off);
        Parsed(PARSED, ctx.(tcp := if keepAck then tcp else tcp.(ack := false), listener := ListenerOf(tcp)))
    else if proto == IPPROTO_UDP then
      if off + 8 > limit then Parsed(short, ctx)
      else Parsed(PARSED, ctx.(udp := ReadUdp(b, off), listener := IPPROTO_UDP))
    else if icmp && proto == IPPROTO_ICMPV6 then
      if off + 8 > limit then Parsed(short, ctx) else Parsed(PARSED, ctx.(icmp6Type := b[off]))
    else Parsed(UNSUPPORTED, ctx)
  }

  function ReadIpv4(b: Bytes, limit: nat, short: int, keepAck: bool, ctx: Ctx, off: nat): Parsed
    requires limit <= |b|
  {
    if off + 20 > limit then Parsed(short, ctx)
    else
      var ip := ReadIp4(b, off);
      var ctx1 := ctx.(ip4 := ip, ihl := ip.ihl, l4proto := ip.protocol);
      if ip.ihl < 5 then Parsed(MALFORMED, ctx)
      else if U16(b, off + 6) % 0x2000 != 0 then Parsed(PARSE_FRAGMENT, ctx1)
      else ReadL4(b, limit, short, keepAck, ctx1, off + ip.ihl * 4, ip.protocol, false)
  }

  function ReadIpv6(b: Bytes, limit: nat, short: int, keepAck: bool, ctx: Ctx, off: nat): Parsed
    requires limit <= |b|
  {
    if off + 40 > limit then Parsed(short, ctx)
    else
      var ctx1 := ctx.(ip6 := ReadIp6(b, off), ihl := 10);
      match WalkExtensions(b, limit, short, b[off + 6], off + 40, 0)
      case Bad(code) => Parsed(code, ctx)
      case Fragment(nexthdr) => Parsed(PARSE_FRAGMENT, ctx1.(l4proto := nexthdr))
      case Arrived(nexthdr, offset) =>
        if IsExtensionHeader(nexthdr) then Parsed(MALFORMED, ctx)
        else ReadL4(b, limit, short, keepAck, ctx1.(l4proto := nexthdr), offset, nexthdr, true)
  }

  function ReadL3(b: Bytes, limit: nat, short: int, keepAck: bool, eth: Eth, off: nat): Parsed
    requires limit <= |b|
  {
    if eth.proto == ETH_P_IP then ReadIpv4(b, limit, short, keepAck, EmptyCtx(eth), off)
    else if eth.proto == ETH_P_IPV6 then ReadIpv6(b, limit, short, keepAck, EmptyCtx(eth), off)
    else Parsed(UNSUPPORTED, EmptyCtx(eth))
  }

  /** What a pull of the headers gives: nothing when it fails, as it must on a shorter
      packet, else at least as many linear bytes as were asked for. */
  predicate Pulled(b: Bytes, linear: Option<nat>) { linear.Some? ==> HEADER_PULL_SIZE <= linear.value <= |b| }

  /** `linear` is how much of the packet is directly accessible once the pull succeeded.
      Any amount is allowed here, so the refinement does not depend on the pull's size. */
  function FastParse(b: Bytes, linear: Option<nat>, protocol: nat, linkLen: nat): Parsed
    requires linear.Some? ==> linear.value <= |b|
  {
    if linear.None? then Parsed(FALLBACK, EmptyCtx(BareEth(0)))
    else if linkLen != ETH_HLEN then ReadL3(b, linear.value, FALLBACK, false, BareEth(protocol), 0)
    else if ETH_HLEN > linear.value then Parsed(FALLBACK, EmptyCtx(BareEth(0)))
    else ReadL3(b, linear.value, FALLBACK, false, ReadEth(b), ETH_HLEN)
  }

  function SlowParse(b: Bytes, protocol: nat, linkLen: nat): Parsed {
    if linkLen != ETH_HLEN then ReadL3(b, |b|, MALFORMED, true, BareEth(protocol), 0)
    else if ETH_HLEN > |b| then Parsed(UNSUPPORTED, EmptyCtx(BareEth(0)))
    else ReadL3(b, |b|, MALFORMED, true, ReadEth(b), ETH_HLEN)
  }

  // ----- Where the parsers start -----

  /** Whether the bytes are taken to start with an Ethernet header. */
  predicate LooksLikeL2(b: Bytes, protocol: nat) {
    |b| >= ETH_HLEN && U16(b, 12) == protocol && (protocol == ETH_P_IP || protocol == ETH_P_IPV6)
  }

  /** The link header length that every hook works with: none when the pull of sixteen
      bytes fails. */
  function DetectedLength(b: Bytes, linear: Option<nat>, protocol: nat): nat {
    if linear.Some? && linear.value >= ETH_HLEN + 2 && LooksLikeL2(b, protocol) then ETH_HLEN else 0
  }

  method DetectLinkLength(b: Bytes, linear: Option<nat>, protocol: nat) returns (len: nat)
    requires linear.Some? ==> linear.value <= |b|
    ensures len == DetectedLength(b, linear, protocol)
  {
    if linear.None? {
      return 0;
    }
    if ETH_HLEN + 2 <= linear.value {
      var proto := U16(b, 12);
      if (proto == ETH_P_IP || proto == ETH_P_IPV6) && proto == protocol {
        return ETH_HLEN;
      }
    }
    return 0;
  }

  // ----- The fast parser refines the slow one -----

  lemma HopRefines(b: Bytes, limit: nat, nexthdr: u8, offset: nat)
    requires limit <= |b| && HopOver(b, limit, FALLBACK, nexthdr, offset) != Halt(Bad(FALLBACK))
    ensures HopOver(b, |b|, MALFORMED, nexthdr, offset) == HopOver(b, limit, FALLBACK, nexthdr, offset)
  {
  }

  lemma {:induction false} WalkRefines(b: Bytes, limit: nat, nexthdr: u8, offset: nat, i: nat)
    requires limit <= |b| && i <= IPV6_MAX_EXTENSIONS
    requires WalkExtensions(b, limit, FALLBACK, nexthdr, offset, i) != Bad(FALLBACK)
    ensures WalkExtensions(b, |b|, MALFORMED, nexthdr, offset, i) ==
            WalkExtensions(b, limit, FALLBACK, nexthdr, offset, i)
    decreases IPV6_MAX_EXTENSIONS - i
  {
    if i < IPV6_MAX_EXTENSIONS {
      HopRefines(b, limit, nexthdr, offset);
      var hop := HopOver(b, limit, FALLBACK, nexthdr, offset);
      if hop.Go? { WalkRefines(b, limit, hop.nexthdr, hop.offset, i + 1); }
    }
  }

  /** Equal in everything but the ACK bit, which only the slow parser keeps. */
  predicate SameView(fast: Ctx, slow: Ctx) {
    fast == slow.(tcp := slow.tcp.(ack := false))
  }

  lemma L4Refines(b: Bytes, limit: nat, ctx: Ctx, off: nat, proto: u8, icmp: bool)
    requires limit <= |b| && !ctx.tcp.ack
    requires ReadL4(b, limit, FALLBACK, false, ctx, off, proto, icmp).code != FALLBACK
    ensures var fast := ReadL4(b, limit, FALLBACK, false, ctx, off, proto, icmp);
            var slow := ReadL4(b, |b|, MALFORMED, true, ctx, off, proto, icmp);
            slow.code == fast.code && SameView(fast.ctx, slow.ctx)
  {
  }

  lemma Ipv4Refines(b: Bytes, limit: nat, ctx: Ctx, off: nat)
    requires limit <= |b| && !ctx.tcp.ack && ReadIpv4(b, limit, FALLBACK, false, ctx, off).code != FALLBACK
    ensures var fast := ReadIpv4(b, limit, FALLBACK, false, ctx, off);
            var slow := ReadIpv4(b, |b|, MALFORMED, true, ctx, off);
            slow.code == fast.code && SameView(fast.ctx, slow.ctx)
  {
    var ip := ReadIp4(b, off);
    if ip.ihl >= 5 && U16(b, off + 6) % 0x2000 == 0 {
      L4Refines(b, limit, ctx.(ip4 := ip, ihl := ip.ihl, l4proto := ip.protocol), off + ip.ihl * 4, ip.protocol, false);
    }
  }

  lemma Ipv6Refines(b: Bytes, limit: nat, ctx: Ctx, off: nat)
    requires limit <= |b| && !ctx.tcp.ack && ReadIpv6(b, limit, FALLBACK, false, ctx, off).code != FALLBACK
    ensures var fast := ReadIpv6(b, limit, FALLBACK, false, ctx, off);
            var slow := ReadIpv6(b, |b|, MALFORMED, true, ctx, off);
            slow.code == fast.code && SameView(fast.ctx, slow.ctx)
  {
    WalkRefines(b, limit, b[off + 6], off + 40, 0);
    var walk := WalkExtensions(b, limit, FALLBACK, b[off + 6], off + 40, 0);
    if walk.Arrived? && !IsExtensionHeader(walk.nexthdr) {
      L4Refines(b, limit, ctx.(ip6 := ReadIp6(b, off), ihl := 10, l4proto := walk.nexthdr),
                walk.offset, walk.nexthdr, true);
    }
  }

  /** For every packet and link header length: when the fast parser does not ask for the
      fallback, the slow parser returns the same code and, whatever the code, the same
      headers but for the ACK bit; so tuple, DSCP, protocol and listener are the same. */
  lemma FastRefinesSlow(b: Bytes, linear: Option<nat>, protocol: nat, linkLen: nat)
    requires linear.Some? ==> linear.value <= |b|
    requires FastParse(b, linear, protocol, linkLen).code != FALLBACK
    ensures var fast, slow := FastParse(b, linear, protocol, linkLen), SlowParse(b, protocol, linkLen);
            && slow.code == fast.code && SameView(fast.ctx, slow.ctx)
            && GetTuples(fast.ctx) == GetTuples(slow.ctx) && fast.ctx.listener == slow.ctx.listener
  {
    var eth := if linkLen != ETH_HLEN then BareEth(protocol) else ReadEth(b);
    var off := if linkLen != ETH_HLEN then 0 else ETH_HLEN;
    if eth.proto == ETH_P_IP {
      Ipv4Refines(b, linear.value, EmptyCtx(eth), off);
    } else if eth.proto == ETH_P_IPV6 {
      Ipv6Refines(b, linear.value, EmptyCtx(eth), off);
    }
  }

  /** The two paths agree on whether a packet opens a connection if and only if the packet
      is not a SYN-ACK: without its ACK bit, a SYN-ACK looks like a SYN. */
  lemma NewTcpAgreesIff(b: Bytes, linear: Option<nat>, protocol: nat, linkLen: nat)
    requires linear.Some? ==> linear.value <= |b|
    requires FastParse(b, linear, protocol, linkLen).code != FALLBACK
    ensures var fast, slow := FastParse(b, linear, protocol, linkLen).ctx.tcp, SlowParse(b, protocol, linkLen).ctx.tcp;
            IsNewTcp(fast) == IsNewTcp(slow) <==> !(slow.syn && slow.ack)
  {
    FastRefinesSlow(b, linear, protocol, linkLen);
  }

  /** Through at most eight extension headers the offset stays below 54 + 8 * 2048. */
  lemma {:induction false} OffsetBounded(b: Bytes, limit: nat, short: int, nexthdr: u8, offset: nat, i: nat)
    requires limit <= |b| && i <= IPV6_MAX_EXTENSIONS && offset <= 54 + i * 2048
    ensures var walk := WalkExtensions(b, limit, short, nexthdr, offset, i);
            walk.Arrived? ==> offset <= walk.offset <= 54 + IPV6_MAX_EXTENSIONS * 2048
    decreases IPV6_MAX_EXTENSIONS - i
  {
    if i < IPV6_MAX_EXTENSIONS {
      var hop := HopOver(b, limit, short, nexthdr, offset);
      if hop.Go? {
        assert offset <= hop.offset <= offset + 2048;
        OffsetBounded(b, limit, short, hop.nexthdr, hop.offset, i + 1);
      }
    }
  }

  // ----- The parsers -----

  /** Direct packet access: `data_end` is `linear` bytes in. */
  method ParseTransportFast(b: Bytes, linear: Option<nat>, protocol: nat, linkLen: nat)
    returns (code: int, ctx: Ctx)
    requires linear.Some? ==> linear.value <= |b|
    ensures code == FastParse(b, linear, protocol, linkLen).code
    ensures code >= 0 ==> ctx == FastParse(b, linear, protocol, linkLen).ctx
  {
    ctx := EmptyCtx(BareEth(0));
    if linear.None? {
      return FALLBACK, ctx;
    }
    var end, offset := linear.value, 0;
    if linkLen == ETH_HLEN {
      if offset + ETH_HLEN > end {
        return FALLBACK, ctx;
      }
      ctx := EmptyCtx(ReadEth(b));
      offset := offset + ETH_HLEN;
    } else {
      ctx := EmptyCtx(BareEth(protocol));
    }
    if ctx.eth.proto == ETH_P_IP {
      code, ctx := FastIpv4(b, end, ctx, offset);
    } else if ctx.eth.proto == ETH_P_IPV6 {
      code, ctx := FastIpv6(b, end, ctx, offset);
    } else {
      code := UNSUPPORTED;
    }
  }

  method FastIpv4(b: Bytes, end: nat, ctx: Ctx, offset: nat) returns (code: int, after: Ctx)
    requires end <= |b| && !ctx.tcp.ack
    ensures code == ReadIpv4(b, end, FALLBACK, false, ctx, offset).code
    ensures code >= 0 ==> after == ReadIpv4(b, end, FALLBACK, false, ctx, offset).ctx
  {
    if offset + 20 > end {
      return FALLBACK, ctx;
    }
    if b[offset] % 16 < 5 {
      return MALFORMED, ctx;
    }
    var ip := ReadIp4(b, offset);
    after := ctx.(ip4 := ip, ihl := ip.ihl, l4proto := ip.protocol);
    var l4 := offset + ip.ihl * 4;
    if U16(b, offset + 6) % 0x2000 != 0 {
      return PARSE_FRAGMENT, after;
    }
    code, after := FastL4(b, end, after, l4, ip.protocol, false);
  }

  /** One pass of the fast path's extension header loop. */
  method FastHop(b: Bytes, end: nat, nexthdr: u8, offset: nat) returns (hop: Hop)
    requires end <= |b|
    ensures hop == HopOver(b, end, FALLBACK, nexthdr, offset)
  {
    if nexthdr == IPPROTO_NONE {
      return Halt(Bad(MALFORMED));
    }
    if nexthdr == IPPROTO_FRAGMENT {
      if offset + 8 > end {
        return Halt(Bad(FALLBACK));
      }
      var fragOff := U16(b, offset + 2);
      if fragOff / 8 != 0 {
        return Halt(Fragment(b[offset]));
      }
      return Go(b[offset], offset + 8);
    }
    if !IsExtensionHeader(nexthdr) {
      return Land;
    }
    if offset + 2 > end {
      return Halt(Bad(FALLBACK));
    }
    hop := Go(b[offset], offset + ExtensionLength(b[offset + 1]));
  }

  method FastIpv6(b: Bytes, end: nat, ctx: Ctx, start: nat) returns (code: int, after: Ctx)
    requires end <= |b| && !ctx.tcp.ack && start <= ETH_HLEN
    ensures code == ReadIpv6(b, end, FALLBACK, false, ctx, start).code
    ensures code >= 0 ==> after == ReadIpv6(b, end, FALLBACK, false, ctx, start).ctx
  {
    if start + 40 > end {
      return FALLBACK, ctx;
    }
    var nexthdr, offset: nat := b[start + 6], start + 40;
    after := ctx.(ip6 := ReadIp6(b, start), l4proto := nexthdr, ihl := 10);
    ghost var walk := WalkExtensions(b, end, FALLBACK, b[start + 6], start + 40, 0);
    ghost var base := after;
    var i := 0;
    while i < IPV6_MAX_EXTENSIONS
      invariant i <= IPV6_MAX_EXTENSIONS && offset <= 54 + i * 2048
      invariant after == base.(l4proto := nexthdr)
      invariant walk == WalkExtensions(b, end, FALLBACK, nexthdr, offset, i)
    {
      var hop := FastHop(b, end, nexthdr, offset);
      match hop
      case Land => break;
      case Halt(Fragment(nh)) => return PARSE_FRAGMENT, after.(l4proto := nh);
      case Halt(Bad(bad)) => return bad, after;
      case Go(nh, off) =>
        nexthdr, offset := nh, off;
        after := after.(l4proto := nexthdr);
        i := i + 1;
    }
    assert walk == Arrived(nexthdr, offset);
    if IsExtensionHeader(nexthdr) {
      return MALFORMED, after;
    }
    code, after := FastL4(b, end, after, offset, nexthdr, true);
  }

  method FastL4(b: Bytes, end: nat, ctx: Ctx, off: nat, proto: u8, icmp: bool) returns (code: int, after: Ctx)
    requires end <= |b| && !ctx.tcp.ack
    ensures code == ReadL4(b, end, FALLBACK, false, ctx, off, proto, icmp).code
    ensures code >= 0 ==> after == ReadL4(b, end, FALLBACK, false, ctx, off, proto, icmp).ctx
  {
    if proto == IPPROTO_TCP {
      if off + 20 > end {
        return FALLBACK, ctx;
      }
      var tcp := ReadTcp(b, off);
      after := ctx.(tcp := Tcp(tcp.source, tcp.dest, tcp.fin, tcp.syn, tcp.rst, ctx.tcp.ack),
                    listener := ListenerOf(tcp));
      return PARSED, after;
    }
    if proto == IPPROTO_UDP {
      if off + 8 > end {
        return FALLBACK, ctx;
      }
      return PARSED, ctx.(udp := ReadUdp(b, off), listener := IPPROTO_UDP);
    }
    if icmp && proto == IPPROTO_ICMPV6 {
      if off + 8 > end {
        return FALLBACK, ctx;
      }
      return PARSED, ctx.(icmp6Type := b[off]);
    }
    return UNSUPPORTED, ctx;
  }

  /** `bpf_skb_load_bytes`: a copy, or nothing when the range is outside the packet. */
  function LoadBytes(b: Bytes, off: nat, len: nat): Option<Bytes> {
    if off + len <= |b| then Some(b[off..off + len]) else None
  }

  method ParseTransportSlow(b: Bytes, protocol: nat, linkLen: nat) returns (code: int, ctx: Ctx)
    ensures code == SlowParse(b, protocol, linkLen).code
    ensures code >= 0 ==> ctx == SlowParse(b, protocol, linkLen).ctx
  {
    ctx := EmptyCtx(BareEth(0));
    var offset := 0;
    if linkLen == ETH_HLEN {
      var eth := LoadBytes(b, 0, ETH_HLEN);
      if eth.None? {
        return UNSUPPORTED, ctx;
      }
      assert ReadEth(eth.value) == ReadEth(b);
      ctx := EmptyCtx(ReadEth(eth.value));
      offset := offset + ETH_HLEN;
    } else {
      ctx := EmptyCtx(BareEth(protocol));
    }
    if ctx.eth.proto == ETH_P_IP {
      code, ctx := SlowIpv4(b, ctx, offset);
    } else if ctx.eth.proto == ETH_P_IPV6 {
      code, ctx := SlowIpv6(b, ctx, offset);
    } else {
      code := UNSUPPORTED;
    }
  }

  method SlowIpv4(b: Bytes, ctx: Ctx, offset: nat) returns (code: int, after: Ctx)
    ensures code == ReadIpv4(b, |b|, MALFORMED, true, ctx, offset).code
    ensures code >= 0 ==> after == ReadIpv4(b, |b|, MALFORMED, true, ctx, offset).ctx
  {
    var hdr := LoadBytes(b, offset, 20);
    if hdr.None? {
      return MALFORMED, ctx;
    }
    var ip := ReadIp4(hdr.value, 0);
    CopiedIp4(b, offset);
    if ip.ihl < 5 {
      return MALFORMED, ctx;
    }
    after := ctx.(ip4 := ip, ihl := ip.ihl, l4proto := ip.protocol);
    if U16(hdr.value, 6) % 0x2000 != 0 {
      return PARSE_FRAGMENT, after;
    }
    code, after := SlowL4(b, after, offset + ip.ihl * 4, ip.protocol, false);
  }

  lemma CopiedIp4(b: Bytes, off: nat)
    requires off + 20 <= |b|
    ensures ReadIp4(b[off..off + 20], 0) == ReadIp4(b, off) && U16(b[off..off + 20], 6) == U16(b, off + 6)
  {
    SliceOfSlice(b, off, 20, 12, 16);
    SliceOfSlice(b, off, 20, 16, 20);
  }

  lemma CopiedIp6(b: Bytes, off: nat)
    requires off + 40 <= |b|
    ensures ReadIp6(b[off..off + 40], 0) == ReadIp6(b, off)
  {
    SliceOfSlice(b, off, 40, 8, 24);
    SliceOfSlice(b, off, 40, 24, 40);
  }

  /** One pass of the slow path's extension header loop. */
  method SlowHop(b: Bytes, nexthdr: u8, offset: nat) returns (hop: Hop)
    ensures hop == HopOver(b, |b|, MALFORMED, nexthdr, offset)
  {
    if nexthdr == IPPROTO_NONE {
      return Halt(Bad(MALFORMED));
    }
    if nexthdr == IPPROTO_FRAGMENT {
      var frag := LoadBytes(b, offset, 8);
      if frag.None? {
        return Halt(Bad(MALFORMED));
      }
      if U16(frag.value, 2) / 8 != 0 {
        return Halt(Fragment(frag.value[0]));
      }
      return Go(frag.value[0], offset + 8);
    }
    if !IsExtensionHeader(nexthdr) {
      return Land;
    }
    var first := LoadBytes(b, offset, 1);
    if first.None? {
      return Halt(Bad(MALFORMED));
    }
    var second := LoadBytes(b, offset + 1, 1);
    if second.None? {
      return Halt(Bad(MALFORMED));
    }
    hop := Go(first.value[0], offset + ExtensionLength(second.value[0]));
  }

  method SlowIpv6(b: Bytes, ctx: Ctx, start: nat) returns (code: int, after: Ctx)
    requires start <= ETH_HLEN
    ensures code == ReadIpv6(b, |b|, MALFORMED, true, ctx, start).code
    ensures code >= 0 ==> after == ReadIpv6(b, |b|, MALFORMED, true, ctx, start).ctx
  {
    var hdr := LoadBytes(b, start, 40);
    if hdr.None? {
      return MALFORMED, ctx;
    }
    CopiedIp6(b, start);
    after := ctx.(ip6 := ReadIp6(hdr.value, 0), ihl := 10);
    var nexthdr, offset: nat := hdr.value[6], start + 40;
    ghost var walk := WalkExtensions(b, |b|, MALFORMED, b[start + 6], start + 40, 0);
    var i := 0;
    while i < IPV6_MAX_EXTENSIONS
      invariant i <= IPV6_MAX_EXTENSIONS && offset <= 54 + i * 2048
      invariant walk == WalkExtensions(b, |b|, MALFORMED, nexthdr, offset, i)
    {
      var hop := SlowHop(b, nexthdr, offset);
      match hop
      case Land => break;
      case Halt(Fragment(nh)) => return PARSE_FRAGMENT, after.(l4proto := nh);
      case Halt(Bad(bad)) => return bad, after;
      case Go(nh, off) =>
        nexthdr, offset := nh, off;
        i := i + 1;
    }
    assert walk == Arrived(nexthdr, offset);
    if IsExtensionHeader(nexthdr) {
      return MALFORMED, after;
    }
    code, after := SlowL4(b, after.(l4proto := nexthdr), offset, nexthdr, true);
  }

  method SlowL4(b: Bytes, ctx: Ctx, off: nat, proto: u8, icmp: bool) returns (code: int, after: Ctx)
    ensures code == ReadL4(b, |b|, MALFORMED, true, ctx, off, proto, icmp).code
    ensures code >= 0 ==> after == ReadL4(b, |b|, MALFORMED, true, ctx, off, proto, icmp).ctx
  {
    if proto == IPPROTO_TCP {
      var hdr := LoadBytes(b, off, 20);
      if hdr.None? {
        return MALFORMED, ctx;
      }
      var tcp := ReadTcp(hdr.value, 0);
      return PARSED, ctx.(tcp := tcp, listener := ListenerOf(tcp));
    }
    if proto == IPPROTO_UDP {
      var hdr := LoadBytes(b, off, 8);
      if hdr.None? {
        return MALFORMED, ctx;
      }
      return PARSED, ctx.(udp := ReadUdp(hdr.value, 0), listener := IPPROTO_UDP);
    }
    if icmp && proto == IPPROTO_ICMPV6 {
      var hdr := LoadBytes(b, off, 8);
      if hdr.None? {
        return MALFORMED, ctx;
      }
      return PARSED, ctx.(icmp6Type := hdr.value[0]);
    }
    return UNSUPPORTED, ctx;
  }

  /** The parser that the hooks use: the fast path first, the slow path when it gives up.
      Whatever part of the packet is linear, the caller sees what the slow path sees. */
  method ParseTransport(b: Bytes, linear: Option<nat>, protocol: nat, linkLen: nat) returns (code: int, ctx: Ctx)
    requires linear.Some? ==> linear.value <= |b|
    ensures code == SlowParse(b, protocol, linkLen).code
    ensures code >= 0 ==> GetTuples(ctx) == GetTuples(SlowParse(b, protocol, linkLen).ctx)
    ensures code >= 0 ==> var slow := SlowParse(b, protocol, linkLen).ctx;
                          ctx == slow.(tcp := slow.tcp.(ack := ctx.tcp.ack)) && (ctx.tcp.ack ==> slow.tcp.ack)
  {
    code, ctx := ParseTransportFast(b, linear, protocol, linkLen);
    if code == FALLBACK {
      code, ctx := ParseTransportSlow(b, protocol, linkLen);
    } else {
      FastRefinesSlow(b, linear, protocol, linkLen);
    }
  }
}
