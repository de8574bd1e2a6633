/** What becomes of every packet, whole or not: the parser's code in the packet's own fields,
    what the hooks do with it, and which packets share a connection entry. */
module PacketCodes {
  import opened MatchSets
  import opened ByteStrings
  import opened PacketParser
  import opened PacketEncoding
  import opened ConnTrack
  import opened ConnRuns
  import opened PacketVerdicts

  // ----- Any IPv4 packet -----

  /** The fields of any IPv4 header, with whatever bytes come after its twenty. `ihl` is the
      header length in words, `offset` the fragment offset in units of eight bytes. */
  datatype AnyIpv4 = AnyIpv4(
    ihl: nat, dscp: u8, ecn: u8, total: (u8, u8), id: (u8, u8), flags: u8, offset: nat, ttl: u8, protocol: u8,
    check: (u8, u8), src: Bytes, dst: Bytes, body: Bytes)

  predicate IsAnyIpv4(p: AnyIpv4) {
    p.ihl < 16 && p.dscp < 64 && p.ecn < 4 && p.flags < 8 && p.offset < 0x2000 && |p.src| == 4 && |p.dst| == 4
  }

  function AnyHeader4(p: AnyIpv4): (b: Bytes)
    requires IsAnyIpv4(p)
    ensures |b| == 20
  {
    [4 * 16 + p.ihl, p.dscp as int * 4 + p.ecn as int, p.total.0, p.total.1, p.id.0, p.id.1,
     p.flags as int * 32 + p.offset / 0x100, p.offset % 0x100, p.ttl, p.protocol, p.check.0, p.check.1] + p.src + p.dst
  }

  function EncodeAny4(link: Link, p: AnyIpv4): Bytes
    requires IsLink(link) && IsAnyIpv4(p)
  {
    LinkHeader(link, ETH_P_IP) + (AnyHeader4(p) + p.body)
  }

  lemma AnyHeader4Decodes(prefix: Bytes, p: AnyIpv4)
    requires IsAnyIpv4(p)
    ensures var b := prefix + (AnyHeader4(p) + p.body);
            && ReadIp4(b, |prefix|) == Ip4(4, p.ihl, p.dscp as int * 4 + p.ecn as int, p.protocol, p.src, p.dst)
            && U16(b, |prefix| + 6) % 0x2000 == p.offset
  {
    var h, n := AnyHeader4(p), |prefix|;
    var b := prefix + (h + p.body);
    assert b[n..n + 20] == h;
    HeadBytes(prefix, h, b);
    SliceOfSlice(b, n, 20, 12, 16);
    SliceOfSlice(b, n, 20, 16, 20);
    assert h[12..16] == p.src && h[16..20] == p.dst;
    assert b[n] == b[n + 0] == h[0];
    FragmentField(p.flags, p.offset);
  }

  lemma FragmentField(flags: int, offset: int)
    requires 0 <= flags < 8 && 0 <= offset < 0x2000
    ensures ((flags * 32 + offset / 0x100) * 0x100 + offset % 0x100) % 0x2000 == offset
  {
    assert (flags * 32 + offset / 0x100) * 0x100 + offset % 0x100 == flags * 0x2000 + offset;
  }

  /** How long a transport header must be. */
  function L4Header(protocol: u8): nat { if protocol == IPPROTO_TCP then 20 else 8 }

  /** The code of a packet, in its fields: a header length below five words is malformed, a
      later fragment is one whatever it carries, and a TCP or UDP header must be there whole. */
  function CodeOf4(p: AnyIpv4): int {
    if p.ihl < 5 then MALFORMED
    else if p.offset != 0 then PARSE_FRAGMENT
    else if p.protocol != IPPROTO_TCP && p.protocol != IPPROTO_UDP then UNSUPPORTED
    else if p.ihl * 4 + L4Header(p.protocol) <= 20 + |p.body| then PARSED
    else MALFORMED
  }

  /** Every IPv4 packet, on any link: the code is that of its fields, and unless it is
      malformed its addresses, protocol and DSCP come back; a packet that is not parsed has
      no ports. */
  lemma Ipv4Codes(link: Link, p: AnyIpv4)
    requires IsLink(link) && IsAnyIpv4(p)
    ensures var parsed := SlowParse(EncodeAny4(link, p), ETH_P_IP, LinkLength(link));
            && parsed.code == CodeOf4(p)
            && (parsed.code >= 0 ==>
                  && parsed.ctx.l4proto == p.protocol
                  && var t := GetTuples(parsed.ctx);
                     t == Tuples(Mapped(p.src), Mapped(p.dst), t.sport, t.dport, p.protocol, p.dscp)
                     && (parsed.code != PARSED ==> t.sport == 0 && t.dport == 0))
  {
    LinkStep(link, ETH_P_IP, AnyHeader4(p) + p.body);
    AnyHeader4Decodes(LinkHeader(link, ETH_P_IP), p);
  }

  /** A header that is cut short is malformed, wherever it is cut. */
  lemma Ipv4CutShort(b: Bytes, linkLen: nat)
    requires linkLen != ETH_HLEN ==> |b| < 20
    requires linkLen == ETH_HLEN ==> ETH_HLEN <= |b| < ETH_HLEN + 20 && U16(b, 12) == ETH_P_IP
    ensures SlowParse(b, ETH_P_IP, linkLen).code == MALFORMED
  {
  }

  /** What is neither IPv4 nor IPv6 is not supported. */
  lemma OtherProtocolsUnsupported(b: Bytes, protocol: nat, linkLen: nat)
    requires linkLen != ETH_HLEN ==> protocol != ETH_P_IP && protocol != ETH_P_IPV6
    requires linkLen == ETH_HLEN && |b| >= ETH_HLEN ==> U16(b, 12) != ETH_P_IP && U16(b, 12) != ETH_P_IPV6
    ensures SlowParse(b, protocol, linkLen).code == UNSUPPORTED
  {
  }

  // ----- Any IPv6 packet -----

  /** An IPv6 packet whose extension headers are followed by any protocol and any bytes. */
  datatype AnyIpv6 = AnyIpv6(
    dscp: u8, low: u8, flow: (u8, u8), len: (u8, u8), hops: u8, src: Bytes, dst: Bytes, chain: Chain,
    protocol: u8, body: Bytes)

  predicate IsAnyIpv6(p: AnyIpv6) {
    p.dscp < 64 && p.low < 64 && |p.src| == 16 && |p.dst| == 16 && IsChain(p.chain)
  }

  function AnyHeader6(p: AnyIpv6): (b: Bytes)
    requires IsAnyIpv6(p)
    ensures |b| == 40
  {
    [6 * 16 + p.dscp / 4, p.dscp as int % 4 * 64 + p.low as int, p.flow.0, p.flow.1, p.len.0, p.len.1,
     First(p.chain, p.protocol), p.hops] + p.src + p.dst
  }

  function EncodeAny6(link: Link, p: AnyIpv6): Bytes
    requires IsLink(link) && IsAnyIpv6(p)
  {
    LinkHeader(link, ETH_P_IPV6) + (AnyHeader6(p) + EncodeChain(p.chain, p.protocol, p.body))
  }

  lemma AnyHeader6Decodes(prefix: Bytes, p: AnyIpv6, tail: Bytes)
    requires IsAnyIpv6(p)
    ensures var b := prefix + (AnyHeader6(p) + tail);
            var ip := ReadIp6(b, |prefix|);
            && ip.saddr == p.src && ip.daddr == p.dst && ip.head.0 % 16 * 4 + ip.head.1 / 64 == p.dscp
            && b[|prefix| + 6] == First(p.chain, p.protocol) && b[|prefix| + 40..] == tail
  {
    var h, n := AnyHeader6(p), |prefix|;
    var b := prefix + (h + tail);
    assert b[n..n + 40] == h;
    HeadBytes(prefix, h, b);
    SliceOfSlice(b, n, 40, 8, 24);
    SliceOfSlice(b, n, 40, 24, 40);
    assert h[8..24] == p.src && h[24..40] == p.dst;
    assert b[n] == b[n + 0] == h[0];
  }

  /** The walk passes a chain of extension headers and stands before what follows it. */
  lemma {:induction false} WalkPasses(
    b: Bytes, at: nat, chain: Chain, i: nat, n: nat, protocol: u8, body: Bytes, walk: Walk) returns (after: nat)
    requires IsChain(chain) && i + Extensions(chain) == n <= IPV6_MAX_EXTENSIONS
    requires at <= |b| && b[at..] == EncodeChain(chain, protocol, body)
    requires walk == WalkExtensions(b, |b|, MALFORMED, First(chain, protocol), at, i)
    ensures after <= |b| && b[after..] == body
    ensures walk == WalkExtensions(b, |b|, MALFORMED, protocol, after, n)
    decreases chain
  {
    if chain.End? {
      after := at;
    } else {
      var tail := EncodeChain(chain.tail, protocol, body);
      var next := WalkStep(b, |b|, MALFORMED, at, chain.head, First(chain.tail, protocol), tail, i);
      after := WalkPasses(b, next, chain.tail, i + 1, n, protocol, body, walk);
    }
  }

  /** With too many of them it stops on an extension header. */
  lemma {:induction false} WalkStopsEarly(b: Bytes, at: nat, chain: Chain, i: nat, protocol: u8, body: Bytes)
    returns (walk: Walk)
    requires IsChain(chain) && i <= IPV6_MAX_EXTENSIONS < i + Extensions(chain)
    requires at <= |b| && b[at..] == EncodeChain(chain, protocol, body)
    ensures walk == WalkExtensions(b, |b|, MALFORMED, First(chain, protocol), at, i)
    ensures walk.Arrived? && IsExtensionHeader(walk.nexthdr)
    decreases chain
  {
    if i == IPV6_MAX_EXTENSIONS {
      walk := Arrived(First(chain, protocol), at);
    } else {
      var tail := EncodeChain(chain.tail, protocol, body);
      var next := WalkStep(b, |b|, MALFORMED, at, chain.head, First(chain.tail, protocol), tail, i);
      walk := WalkStopsEarly(b, next, chain.tail, i + 1, protocol, body);
    }
  }

  /** A fragment header says that this is not the first one. */
  predicate LaterFragment(body: Bytes) { |body| >= 8 && U16(body, 2) / 8 != 0 }

  /** The code of an IPv6 packet, in its fields. `n` is the number of extension headers
      before `protocol`: at most eight are followed, and only before the end of these "no
      next header" and fragments are looked at. An options header that is cut after its first
      two bytes is passed all the same, with nothing after it. */
  function CodeOf6(n: nat, protocol: u8, body: Bytes): int
    decreases |body|
  {
    if n > IPV6_MAX_EXTENSIONS then MALFORMED
    else if protocol == IPPROTO_TCP then (if |body| >= 20 then PARSED else MALFORMED)
    else if protocol == IPPROTO_UDP || protocol == IPPROTO_ICMPV6 then (if |body| >= 8 then PARSED else MALFORMED)
    else if protocol == IPPROTO_NONE then (if n < IPV6_MAX_EXTENSIONS then MALFORMED else UNSUPPORTED)
    else if protocol == IPPROTO_FRAGMENT then
      (if n < IPV6_MAX_EXTENSIONS && LaterFragment(body) then PARSE_FRAGMENT else MALFORMED)
    else if IsExtensionHeader(protocol) then
      (if n < IPV6_MAX_EXTENSIONS && |body| >= 2 then CodeOf6(n + 1, body[0], []) else MALFORMED)
    else UNSUPPORTED
  }

  /** What follows the chain is not one more whole extension header. */
  predicate EndsChain(protocol: u8, body: Bytes) {
    if protocol == IPPROTO_FRAGMENT then |body| < 8 || LaterFragment(body)
    else IsExtensionHeader(protocol) ==> |body| < 2 || |body| < ExtensionLength(body[1])
  }

  /** The protocol that is reported: of a later fragment or a cut header, the one its first
      byte names. */
  function ProtocolOf6(protocol: u8, body: Bytes): u8 {
    if IsExtensionHeader(protocol) && |body| > 0 then body[0] else protocol
  }

  /** Every IPv6 packet, on any link, with any chain of extension headers and anything after
      it: the code is that of its fields, and unless it is malformed its addresses, protocol
      and DSCP come back. */
  lemma Ipv6Codes(link: Link, p: AnyIpv6)
    requires IsLink(link) && IsAnyIpv6(p) && EndsChain(p.protocol, p.body)
    ensures var parsed := SlowParse(EncodeAny6(link, p), ETH_P_IPV6, LinkLength(link));
            && parsed.code == CodeOf6(Extensions(p.chain), p.protocol, p.body)
            && (parsed.code >= 0 ==>
                  && parsed.ctx.l4proto == ProtocolOf6(p.protocol, p.body)
                  && var t := GetTuples(parsed.ctx);
                     t == Tuples(p.src, p.dst, t.sport, t.dport, ProtocolOf6(p.protocol, p.body), p.dscp))
  {
    var tail := EncodeChain(p.chain, p.protocol, p.body);
    var header, eth := LinkHeader(link, ETH_P_IPV6), EthOf(link, ETH_P_IPV6);
    var b := EncodeAny6(link, p);
    LinkStep(link, ETH_P_IPV6, AnyHeader6(p) + tail);
    AnyHeader6Decodes(header, p, tail);
    Ipv6BodyCodes(b, |header|, eth, p.chain, Extensions(p.chain), p.protocol, p.body);
  }

  /** The code of the fields, and unless it is malformed the addresses and the protocol. */
  predicate Coded6(b: Bytes, off: nat, parsed: Parsed, n: nat, protocol: u8, body: Bytes)
    requires off + 40 <= |b|
  {
    && parsed.code == CodeOf6(n, protocol, body)
    && (parsed.code >= 0 ==>
          && parsed.ctx.l4proto == ProtocolOf6(protocol, body)
          && parsed.ctx.ip6 == ReadIp6(b, off) && parsed.ctx.ip4 == ZeroIp4())
  }

  lemma Ipv6BodyCodes(b: Bytes, off: nat, eth: Eth, chain: Chain, n: nat, protocol: u8, body: Bytes)
    requires IsChain(chain) && Extensions(chain) == n && EndsChain(protocol, body) && off + 40 <= |b|
    requires b[off + 6] == First(chain, protocol) && b[off + 40..] == EncodeChain(chain, protocol, body)
    ensures Coded6(b, off, ReadIpv6(b, |b|, MALFORMED, true, EmptyCtx(eth), off), n, protocol, body)
  {
    if n > IPV6_MAX_EXTENSIONS {
      LongChainCodes(b, off, eth, chain, n, protocol, body);
    } else {
      var after, walk := AfterChain(b, off + 40, chain, n, protocol, body);
      EndCodes(b, off, eth, after, n, protocol, body, walk);
    }
  }

  /** Where the walk stands after a chain that is not too long. */
  lemma AfterChain(b: Bytes, at: nat, chain: Chain, n: nat, protocol: u8, body: Bytes)
    returns (after: nat, walk: Walk)
    requires IsChain(chain) && Extensions(chain) == n <= IPV6_MAX_EXTENSIONS
    requires at <= |b| && b[at..] == EncodeChain(chain, protocol, body)
    ensures Remains(b, after, body) && walk == WalkExtensions(b, |b|, MALFORMED, protocol, after, n)
    ensures walk == WalkExtensions(b, |b|, MALFORMED, First(chain, protocol), at, 0)
  {
    walk := WalkExtensions(b, |b|, MALFORMED, First(chain, protocol), at, 0);
    after := WalkPasses(b, at, chain, 0, n, protocol, body, walk);
  }

  lemma LongChainCodes(b: Bytes, off: nat, eth: Eth, chain: Chain, n: nat, protocol: u8, body: Bytes)
    requires IsChain(chain) && Extensions(chain) == n > IPV6_MAX_EXTENSIONS && off + 40 <= |b|
    requires b[off + 6] == First(chain, protocol) && b[off + 40..] == EncodeChain(chain, protocol, body)
    ensures Coded6(b, off, ReadIpv6(b, |b|, MALFORMED, true, EmptyCtx(eth), off), n, protocol, body)
  {
    var walk := WalkStopsEarly(b, off + 40, chain, 0, protocol, body);
    LongChainCode(b, off, eth, walk);
  }

  lemma LongChainCode(b: Bytes, off: nat, eth: Eth, walk: Walk)
    requires off + 40 <= |b| && walk == WalkExtensions(b, |b|, MALFORMED, b[off + 6], off + 40, 0)
    requires walk.Arrived? && IsExtensionHeader(walk.nexthdr)
    ensures ReadIpv6(b, |b|, MALFORMED, true, EmptyCtx(eth), off).code == MALFORMED
  {
  }

  /** The bytes from a position on, which may be past the end. */
  predicate Remains(b: Bytes, after: nat, body: Bytes) {
    if after <= |b| then b[after..] == body else body == []
  }

  /** The last step: what stands after the chain. */
  lemma {:induction false} EndCodes(
    b: Bytes, off: nat, eth: Eth, after: nat, n: nat, protocol: u8, body: Bytes, walk: Walk)
    requires off + 40 <= |b| && Remains(b, after, body) && n <= IPV6_MAX_EXTENSIONS
    requires EndsChain(protocol, body)
    requires walk == WalkExtensions(b, |b|, MALFORMED, b[off + 6], off + 40, 0)
    requires walk == WalkExtensions(b, |b|, MALFORMED, protocol, after, n)
    ensures Coded6(b, off, ReadIpv6(b, |b|, MALFORMED, true, EmptyCtx(eth), off), n, protocol, body)
    decreases |body|
  {
    assert after <= |b| ==> |b| - after == |body|;
    if n == IPV6_MAX_EXTENSIONS || !(protocol == IPPROTO_NONE || IsExtensionHeader(protocol)) {
      assert walk == Arrived(protocol, after);
    } else if protocol == IPPROTO_FRAGMENT && |body| >= 8 {
      assert b[after] == body[0] && b[after + 2] == body[2] && b[after + 3] == body[3];
      assert walk == Fragment(body[0]);
    } else if protocol != IPPROTO_NONE && protocol != IPPROTO_FRAGMENT && |body| >= 2 {
      assert b[after] == body[0] && b[after + 1] == body[1];
      var past := after + ExtensionLength(body[1]);
      assert walk == WalkExtensions(b, |b|, MALFORMED, body[0], past, n + 1);
      EndCodes(b, off, eth, past, n + 1, body[0], [], walk);
    } else {
      assert walk == Bad(MALFORMED);
    }
  }

  /** Every byte string is a chain of whole extension headers with something after it. */
  lemma {:induction false} EveryChain(b: Bytes, protocol: u8) returns (chain: Chain, last: u8, body: Bytes)
    ensures IsChain(chain) && First(chain, last) == protocol && EndsChain(last, body)
    ensures b == EncodeChain(chain, last, body)
    decreases |b|
  {
    if EndsChain(protocol, b) {
      chain, last, body := End, protocol, b;
    } else {
      var n := if protocol == IPPROTO_FRAGMENT then 8 else ExtensionLength(b[1]);
      chain, last, body := EveryChain(b[n..], b[0]);
      var head := if protocol == IPPROTO_FRAGMENT then FirstFragment(b[1], b[3], b[4..8])
                  else Options(protocol, b[1], b[2..n]);
      assert b[..n] == EncodeExtension(head, b[0]);
      assert b == b[..n] + b[n..];
      chain := Then(head, chain);
    }
  }

  /** So the codes above are those of every byte string that starts with version 6. */
  lemma EveryIpv6(b: Bytes) returns (p: AnyIpv6)
    requires |b| >= 40 && b[0] / 16 == 6
    ensures IsAnyIpv6(p) && EndsChain(p.protocol, p.body) && b == EncodeAny6(Bare, p)
  {
    var chain, last, body := EveryChain(b[40..], b[6]);
    p := AnyIpv6(b[0] % 16 * 4 + b[1] / 64, b[1] % 64, (b[2], b[3]), (b[4], b[5]), b[7], b[8..24], b[24..40],
                 chain, last, body);
    assert AnyHeader6(p) == b[..40];
    assert b == b[..40] + b[40..];
  }

  lemma EveryIpv4(b: Bytes) returns (p: AnyIpv4)
    requires |b| >= 20 && b[0] / 16 == 4
    ensures IsAnyIpv4(p) && b == EncodeAny4(Bare, p)
  {
    p := AnyIpv4(b[0] % 16, b[1] / 4, b[1] % 4, (b[2], b[3]), (b[4], b[5]), b[6] / 32,
                 b[6] as int % 32 * 0x100 + b[7] as int, b[8], b[9], (b[10], b[11]), b[12..16], b[16..20], b[20..]);
    assert AnyHeader4(p) == b[..20];
    assert b == b[..20] + b[20..];
  }

  // ----- What the hooks do -----

  /** Whatever part of the packet is linear, the code decides: a malformed packet is dropped,
      one that is not parsed to a TCP or UDP header passes, and neither touches the table. */
  lemma CodeDecides(b: Bytes, linear: Option<nat>, protocol: nat, linkLen: nat, t: Table, dir: Direction, e: Env)
    requires linear.Some? ==> linear.value <= |b|
    ensures var slow := SlowParse(b, protocol, linkLen);
            var done := Handled(t, Parse(b, linear, protocol, linkLen), dir, e);
            && (slow.code < 0 ==> done == Effect(t, Drop))
            && (slow.code > 0 ==> done == Effect(t, Pass(None)))
            && (slow.code == PARSED && slow.ctx.l4proto == IPPROTO_ICMPV6 ==> done == Effect(t, Pass(None)))
  {
    if FastParse(b, linear, protocol, linkLen).code != FALLBACK {
      FastRefinesSlow(b, linear, protocol, linkLen);
    }
  }

  /** Every later IPv4 fragment passes every hook, and no entry changes. */
  lemma Ipv4FragmentsPass(link: Link, p: AnyIpv4, linear: Option<nat>, t: Table, dir: Direction, e: Env)
    requires IsLink(link) && IsAnyIpv4(p) && p.ihl >= 5 && p.offset != 0
    requires linear.Some? ==> linear.value <= |EncodeAny4(link, p)|
    ensures Handled(t, Parse(EncodeAny4(link, p), linear, ETH_P_IP, LinkLength(link)), dir, e) == Effect(t, Pass(None))
  {
    Ipv4Codes(link, p);
    CodeDecides(EncodeAny4(link, p), linear, ETH_P_IP, LinkLength(link), t, dir, e);
  }

  /** So does every later IPv6 fragment behind fewer than eight extension headers; behind eight
      it is dropped. */
  lemma Ipv6FragmentsPassIff(link: Link, p: AnyIpv6, linear: Option<nat>, t: Table, dir: Direction, e: Env)
    requires IsLink(link) && IsAnyIpv6(p) && p.protocol == IPPROTO_FRAGMENT && LaterFragment(p.body)
    requires linear.Some? ==> linear.value <= |EncodeAny6(link, p)|
    ensures Handled(t, Parse(EncodeAny6(link, p), linear, ETH_P_IPV6, LinkLength(link)), dir, e) ==
            Effect(t, if Extensions(p.chain) < IPV6_MAX_EXTENSIONS then Pass(None) else Drop)
  {
    Ipv6Codes(link, p);
    CodeDecides(EncodeAny6(link, p), linear, ETH_P_IPV6, LinkLength(link), t, dir, e);
  }

  // ----- Which packets share an entry -----

  lemma {:induction false} NumberInjective(a: Bytes, b: Bytes)
    requires |a| == |b| && Number(a) == Number(b)
    ensures a == b
  {
    if a != [] {
      var n := |a| - 1;
      assert Number(a) == Number(a[..n]) * 0x100 + a[n] && Number(b) == Number(b[..n]) * 0x100 + b[n];
      NumberInjective(a[..n], b[..n]);
      assert a == a[..n] + [a[n]] && b == b[..n] + [b[n]];
    }
  }

  /** Two parsed packets belong to one entry if and only if addresses and ports are the same
      and both are TCP or neither is. */
  lemma SameTupleIff(a: Ctx, b: Ctx)
    requires |GetTuples(a).sip| == |GetTuples(b).sip| && |GetTuples(a).dip| == |GetTuples(b).dip|
    ensures PacketOf(a).tuple == PacketOf(b).tuple <==>
            var s, t := GetTuples(a), GetTuples(b);
            && s.sip == t.sip && s.dip == t.dip && s.sport == t.sport && s.dport == t.dport
            && (s.l4proto == IPPROTO_TCP <==> t.l4proto == IPPROTO_TCP)
  {
    var s, t := GetTuples(a), GetTuples(b);
    if Number(s.sip) == Number(t.sip) { NumberInjective(s.sip, t.sip); }
    if Number(s.dip) == Number(t.dip) { NumberInjective(s.dip, t.dip); }
    TcpByTuples(a);
    TcpByTuples(b);
  }

  lemma MappedInjective(a: Bytes, b: Bytes)
    requires |a| == 4 && |b| == 4
    ensures Mapped(a) == Mapped(b) <==> a == b
  {
    assert Mapped(a)[12..] == a && Mapped(b)[12..] == b;
  }

  /** What the hooks take from an encoded packet. */
  function ReadAs4(link: Link, p: Ipv4Packet): Packet
    requires IsLink(link) && IsIpv4(p)
  {
    PacketOf(SlowParse(EncodeIpv4(link, p), ETH_P_IP, LinkLength(link)).ctx)
  }

  function ReadAs6(link: Link, p: Ipv6Packet): Packet
    requires IsLink(link) && IsIpv6(p)
  {
    PacketOf(SlowParse(EncodeIpv6(link, p), ETH_P_IPV6, LinkLength(link)).ctx)
  }

  /** The packet carries the segment's own flags, and the sender's link address. */
  predicate CarriesFlags(q: Packet, l4: L4, link: Link) {
    && (l4.TcpSegment? ==> q.syn == (l4.syn && !l4.ack) && q.finRst == (l4.fin || l4.rst))
    && (l4.UdpDatagram? ==> !q.syn)
    && (link.Ethernet? ==> q.mac == Number(link.source))
  }

  function ProtoOf(l4: L4): Proto { if l4.TcpSegment? then TCP else UDP }

  /** The tuple names both ends. */
  lemma Ipv4PacketRead(link: Link, p: Ipv4Packet)
    requires IsLink(link) && IsIpv4(p)
    ensures var q := ReadAs4(link, p);
            && q.tuple == Tuple(Number(Mapped(p.src)), Number(Mapped(p.dst)), p.l4.sport, p.l4.dport, ProtoOf(p.l4))
            && q.dscp == p.dscp && CarriesFlags(q, p.l4, link)
  {
    var b := EncodeIpv4(link, p);
    Ipv4RoundTrip(link, p);
    LinkStep(link, ETH_P_IP, Ipv4Header(p) + (p.options + EncodeL4(p.l4)));
    KeepsLink(b, EthOf(link, ETH_P_IP), LinkLength(link));
    TcpByTuples(SlowParse(b, ETH_P_IP, LinkLength(link)).ctx);
  }

  lemma Ipv6PacketRead(link: Link, p: Ipv6Packet)
    requires IsLink(link) && IsIpv6(p) && Extensions(p.chain) <= IPV6_MAX_EXTENSIONS
    ensures var q := ReadAs6(link, p);
            && q.tuple == Tuple(Number(p.src), Number(p.dst), p.l4.sport, p.l4.dport, ProtoOf(p.l4))
            && q.dscp == p.dscp && CarriesFlags(q, p.l4, link)
  {
    var b := EncodeIpv6(link, p);
    Ipv6RoundTrip(link, p);
    LinkStep(link, ETH_P_IPV6, Ipv6Header(p) + EncodeChain(p.chain, Protocol(p.l4), EncodeL4(p.l4)));
    KeepsLink(b, EthOf(link, ETH_P_IPV6), LinkLength(link));
    TcpByTuples(SlowParse(b, ETH_P_IPV6, LinkLength(link)).ctx);
  }

  lemma KeepsLink(b: Bytes, eth: Eth, off: nat)
    ensures ReadL3(b, |b|, MALFORMED, true, eth, off).ctx.eth == eth
  {
  }

  /** The two ends and the protocol of two packets are the same. */
  predicate SameEnds(src: Bytes, dst: Bytes, l4: L4, src2: Bytes, dst2: Bytes, m4: L4) {
    src == src2 && dst == dst2 && l4.sport == m4.sport && l4.dport == m4.dport && l4.TcpSegment? == m4.TcpSegment?
  }

  /** Two encoded IPv4 packets belong to one entry if and only if addresses, ports and
      protocol are the same. */
  lemma Ipv4SameEntryIff(link: Link, p: Ipv4Packet, link2: Link, q: Ipv4Packet)
    requires IsLink(link) && IsIpv4(p) && IsLink(link2) && IsIpv4(q)
    ensures ReadAs4(link, p).tuple == ReadAs4(link2, q).tuple <==> SameEnds(p.src, p.dst, p.l4, q.src, q.dst, q.l4)
  {
    Ipv4RoundTrip(link, p);
    Ipv4RoundTrip(link2, q);
    SameTupleIff(SlowParse(EncodeIpv4(link, p), ETH_P_IP, LinkLength(link)).ctx,
                 SlowParse(EncodeIpv4(link2, q), ETH_P_IP, LinkLength(link2)).ctx);
    MappedInjective(p.src, q.src);
    MappedInjective(p.dst, q.dst);
  }

  lemma Ipv6SameEntryIff(link: Link, p: Ipv6Packet, link2: Link, q: Ipv6Packet)
    requires IsLink(link) && IsIpv6(p) && Extensions(p.chain) <= IPV6_MAX_EXTENSIONS
    requires IsLink(link2) && IsIpv6(q) && Extensions(q.chain) <= IPV6_MAX_EXTENSIONS
    ensures ReadAs6(link, p).tuple == ReadAs6(link2, q).tuple <==> SameEnds(p.src, p.dst, p.l4, q.src, q.dst, q.l4)
  {
    Ipv6RoundTrip(link, p);
    Ipv6RoundTrip(link2, q);
    SameTupleIff(SlowParse(EncodeIpv6(link, p), ETH_P_IPV6, LinkLength(link)).ctx,
                 SlowParse(EncodeIpv6(link2, q), ETH_P_IPV6, LinkLength(link2)).ctx);
  }

  /** A reply's entry is that of the packet it answers. */
  lemma Ipv4ReplyFindsEntry(link: Link, p: Ipv4Packet, link2: Link, q: Ipv4Packet)
    requires IsLink(link) && IsIpv4(p) && IsLink(link2) && IsIpv4(q)
    requires q.src == p.dst && q.dst == p.src && q.l4.sport == p.l4.dport && q.l4.dport == p.l4.sport
    requires p.l4.TcpSegment? == q.l4.TcpSegment?
    ensures Reversed(ReadAs4(link2, q).tuple) == ReadAs4(link, p).tuple
  {
    Ipv4PacketRead(link, p);
    Ipv4PacketRead(link2, q);
  }
}
