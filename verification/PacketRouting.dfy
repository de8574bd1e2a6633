/** From the bytes of a packet and the CIDRs of a configuration to the answer of the router
    and the verdict of a hook: which header fields reach the rules. */
module PacketRouting {
  import opened MatchSets
  import opened ByteStrings
  import opened AddressBits
  import opened RouteEngine
  import opened RouteSkipping
  import opened RuleMeaning
  import opened RouteFields
  import opened EpochReload
  import opened EpochReaders
  import opened PacketParser
  import opened PacketEncoding
  import EpochFailedSwitch
  import PacketVerdicts
  import PacketCodes
  import HookVerdicts
  import ConnTrack
  import opened ConnRuns

  // ----- The arguments of route() -----

  const L4_TCP: u8 := 1
  const L4_UDP: u8 := 2
  const VERSION_4: u8 := 1
  const VERSION_6: u8 := 2

  /** The two upper words of the key hold the sender's link address in network order. */
  function MacKey(source: Bytes): Bytes
    requires |source| == 6
  {
    [0, 0, 0, 0, 0, 0, 0, 0] + BigEndian32(Word16(source[0], source[1]))
    + BigEndian32(Word16(source[2], source[3]) * 0x1_0000 + Word16(source[4], source[5]))
  }

  predicate Readable(ctx: Ctx) {
    |ctx.eth.source| == 6 && ctx.tcp.source >= 0 && ctx.tcp.dest >= 0 && ctx.udp.source >= 0 && ctx.udp.dest >= 0
  }

  /** What a hook passes. WAN egress adds the name of the sending process, and for TCP it
      leaves out the link address when there is no link header. */
  function Arguments(hook: Hook, protocol: nat, linkLen: nat, ctx: Ctx, process: Option<Name16>): Query
    requires Readable(ctx)
  {
    var t := GetTuples(ctx);
    var tcp := ctx.l4proto == IPPROTO_TCP;
    var mac := if hook == Wan && tcp && linkLen != ETH_HLEN then Zero16() else MacKey(ctx.eth.source);
    Query(
      if tcp then L4_TCP else L4_UDP,
      if protocol == ETH_P_IP then VERSION_4 else VERSION_6,
      if hook == Wan && process.Some? then process.value else Name16(0, 0),
      hook == Wan,
      t.dscp,
      if tcp then ctx.tcp.source else ctx.udp.source,
      if tcp then ctx.tcp.dest else ctx.udp.dest,
      BitsOf(t.sip), BitsOf(t.dip), BitsOf(mac))
  }

  // ----- Which header fields they are -----

  datatype Header = Header(src: Bytes, dst: Bytes, tcp: bool, sport: nat, dport: nat, dscp: u8, mac: Bytes)

  function SenderOf(link: Link): Bytes { if link.Ethernet? then link.source else [0, 0, 0, 0, 0, 0] }

  function Header4(link: Link, p: Ipv4Packet): Header
    requires IsIpv4(p)
  {
    Header(p.src, p.dst, p.l4.TcpSegment?, p.l4.sport, p.l4.dport, p.dscp, SenderOf(link))
  }

  function Header6(link: Link, p: Ipv6Packet): Header
    requires IsIpv6(p)
  {
    Header(p.src, p.dst, p.l4.TcpSegment?, p.l4.sport, p.l4.dport, p.dscp, SenderOf(link))
  }

  /** The link address padded to the length of an address. */
  function Padded(mac: Bytes): Bytes { Padding() + mac }

  /** A query that asks about a header. */
  function Asked(hook: Hook, h: Header, process: Option<Name16>): Query {
    Query(
      if h.tcp then L4_TCP else L4_UDP,
      if |h.dst| == 4 then VERSION_4 else VERSION_6,
      if hook == Wan && process.Some? then process.value else Name16(0, 0),
      hook == Wan, h.dscp, h.sport, h.dport,
      BitsOf(Wide(h.src)), BitsOf(Wide(h.dst)), BitsOf(Padded(h.mac)))
  }

  lemma MacKeyIsPadded(source: Bytes)
    requires |source| == 6
    ensures MacKey(source) == Padded(source)
  {
  }

  /** Everything the hook passes is decided by tuple, ports and link address. */
  lemma ArgumentsAsked(
    hook: Hook, protocol: nat, linkLen: nat, ctx: Ctx, process: Option<Name16>, h: Header)
    requires Readable(ctx) && IsAddress(h.src) && IsAddress(h.dst) && ctx.eth.source == h.mac
    requires GetTuples(ctx) == Tuples(Wide(h.src), Wide(h.dst), h.sport, h.dport,
                                      if h.tcp then IPPROTO_TCP else IPPROTO_UDP, h.dscp)
    requires protocol == (if |h.dst| == 4 then ETH_P_IP else ETH_P_IPV6)
    requires linkLen != ETH_HLEN ==> h.mac == [0, 0, 0, 0, 0, 0]
    ensures Arguments(hook, protocol, linkLen, ctx, process) == Asked(hook, h, process)
  {
    MacKeyIsPadded(h.mac);
    assert h.mac == [0, 0, 0, 0, 0, 0] ==> Padded(h.mac) == Zero16();
    assert ctx.l4proto == (if h.tcp then IPPROTO_TCP else IPPROTO_UDP);
  }

  lemma L4Readable(
    b: Bytes, limit: nat, short: int, keepAck: bool, ctx: Ctx, off: nat, proto: u8, icmp: bool)
    requires limit <= |b| && Readable(ctx)
    ensures Readable(ReadL4(b, limit, short, keepAck, ctx, off, proto, icmp).ctx)
  {
  }

  lemma Ipv4Readable(b: Bytes, limit: nat, short: int, keepAck: bool, ctx: Ctx, off: nat)
    requires limit <= |b| && Readable(ctx)
    ensures Readable(ReadIpv4(b, limit, short, keepAck, ctx, off).ctx)
  {
    if off + 20 <= limit {
      var ip := ReadIp4(b, off);
      L4Readable(b, limit, short, keepAck, ctx.(ip4 := ip, ihl := ip.ihl, l4proto := ip.protocol),
                 off + ip.ihl * 4, ip.protocol, false);
    }
  }

  lemma Ipv6Readable(b: Bytes, limit: nat, short: int, keepAck: bool, ctx: Ctx, off: nat)
    requires limit <= |b| && Readable(ctx)
    ensures Readable(ReadIpv6(b, limit, short, keepAck, ctx, off).ctx)
  {
    if off + 40 <= limit {
      var walk := WalkExtensions(b, limit, short, b[off + 6], off + 40, 0);
      if walk.Arrived? {
        L4Readable(b, limit, short, keepAck, ctx.(ip6 := ReadIp6(b, off), ihl := 10, l4proto := walk.nexthdr),
                   walk.offset, walk.nexthdr, true);
      }
    }
  }

  lemma L3Readable(b: Bytes, limit: nat, short: int, keepAck: bool, eth: Eth, off: nat)
    requires limit <= |b| && |eth.source| == 6
    ensures Readable(ReadL3(b, limit, short, keepAck, eth, off).ctx)
  {
    Ipv4Readable(b, limit, short, keepAck, EmptyCtx(eth), off);
    Ipv6Readable(b, limit, short, keepAck, EmptyCtx(eth), off);
  }

  /** Whatever the bytes are. */
  lemma ParsedIsReadable(b: Bytes, linear: Option<nat>, protocol: nat, linkLen: nat)
    requires linear.Some? ==> linear.value <= |b|
    ensures Readable(PacketVerdicts.Parse(b, linear, protocol, linkLen).ctx)
  {
    var eth := if linkLen != ETH_HLEN || |b| < ETH_HLEN then BareEth(protocol) else ReadEth(b);
    var off := if linkLen != ETH_HLEN then 0 else ETH_HLEN;
    L3Readable(b, |b|, MALFORMED, true, eth, off);
    if linear.Some? {
      L3Readable(b, linear.value, FALLBACK, false, eth, off);
    }
  }

  /** Both parsers, and so the hooks, read the same fields. */
  lemma ParseReads(b: Bytes, linear: Option<nat>, protocol: nat, linkLen: nat)
    requires linear.Some? ==> linear.value <= |b|
    ensures var parsed, slow := PacketVerdicts.Parse(b, linear, protocol, linkLen), SlowParse(b, protocol, linkLen);
            && parsed.code == slow.code && GetTuples(parsed.ctx) == GetTuples(slow.ctx)
            && parsed.ctx.eth == slow.ctx.eth
  {
    if FastParse(b, linear, protocol, linkLen).code != FALLBACK {
      FastRefinesSlow(b, linear, protocol, linkLen);
    }
  }

  /** What the hooks ask about the bytes of a packet. */
  function AskedOfBytes(
    hook: Hook, b: Bytes, linear: Option<nat>, protocol: nat, linkLen: nat, process: Option<Name16>): Query
    requires linear.Some? ==> linear.value <= |b|
  {
    ParsedIsReadable(b, linear, protocol, linkLen);
    Arguments(hook, protocol, linkLen, PacketVerdicts.Parse(b, linear, protocol, linkLen).ctx, process)
  }

  /** Every encoded IPv4 packet, however it is parsed and at either hook: the rules are asked
      about its own addresses, ports, protocol, DSCP and sender. */
  lemma Ipv4Asks(hook: Hook, link: Link, p: Ipv4Packet, linear: Option<nat>, process: Option<Name16>)
    requires IsLink(link) && IsIpv4(p) && (linear.Some? ==> linear.value <= |EncodeIpv4(link, p)|)
    ensures AskedOfBytes(hook, EncodeIpv4(link, p), linear, ETH_P_IP, LinkLength(link), process) ==
            Asked(hook, Header4(link, p), process)
  {
    var b := EncodeIpv4(link, p);
    ParsedIsReadable(b, linear, ETH_P_IP, LinkLength(link));
    ParseReads(b, linear, ETH_P_IP, LinkLength(link));
    Ipv4RoundTrip(link, p);
    LinkStep(link, ETH_P_IP, Ipv4Header(p) + (p.options + EncodeL4(p.l4)));
    PacketCodes.KeepsLink(b, EthOf(link, ETH_P_IP), LinkLength(link));
    var ctx := PacketVerdicts.Parse(b, linear, ETH_P_IP, LinkLength(link)).ctx;
    ArgumentsAsked(hook, ETH_P_IP, LinkLength(link), ctx, process, Header4(link, p));
  }

  lemma Ipv6Asks(hook: Hook, link: Link, p: Ipv6Packet, linear: Option<nat>, process: Option<Name16>)
    requires IsLink(link) && IsIpv6(p) && Extensions(p.chain) <= IPV6_MAX_EXTENSIONS
    requires linear.Some? ==> linear.value <= |EncodeIpv6(link, p)|
    ensures AskedOfBytes(hook, EncodeIpv6(link, p), linear, ETH_P_IPV6, LinkLength(link), process) ==
            Asked(hook, Header6(link, p), process)
  {
    var b := EncodeIpv6(link, p);
    ParsedIsReadable(b, linear, ETH_P_IPV6, LinkLength(link));
    ParseReads(b, linear, ETH_P_IPV6, LinkLength(link));
    Ipv6RoundTrip(link, p);
    LinkStep(link, ETH_P_IPV6, Ipv6Header(p) + EncodeChain(p.chain, Protocol(p.l4), EncodeL4(p.l4)));
    PacketCodes.KeepsLink(b, EthOf(link, ETH_P_IPV6), LinkLength(link));
    var ctx := PacketVerdicts.Parse(b, linear, ETH_P_IPV6, LinkLength(link)).ctx;
    ArgumentsAsked(hook, ETH_P_IPV6, LinkLength(link), ctx, process, Header6(link, p));
  }

  // ----- What a configuration says of a header -----

  /** The CIDRs behind each trie number; a link address is a CIDR of full length. */
  type Lists = l: seq<set<Cidr>> | forall i, c :: 0 <= i < |l| && c in l[i] ==> IsCidr(c) witness []

  function MacCidr(mac: Bytes): Cidr { V6(Padded(mac), 128) }

  function Tries(lists: Lists): seq<Trie> {
    seq(|lists|, i requires 0 <= i < |lists| => set c | c in lists[i] :: Prefix(c))
  }

  ghost predicate Listed(lists: Lists, number: nat, a: Bytes)
    requires IsAddress(a)
  {
    number < |lists| && exists c :: c in lists[number] && Matches(c, a)
  }

  ghost predicate Says(
    lists: Lists, hook: Hook, h: Header, process: Option<Name16>, entry: Option<Bitmap>, kind: MatchKind, index: nat)
    requires IsAddress(h.src) && IsAddress(h.dst) && |h.mac| == 6
  {
    match kind
    case DomainSet => index < MAX_MATCH_SET_LEN && entry.Some? && entry.value[index / 32][index % 32]
    case IpSet(number) => Listed(lists, number, h.dst)
    case SourceIpSet(number) => Listed(lists, number, h.src)
    case Mac(number) => Listed(lists, number, Padded(h.mac))
    case Port(first, last) => first <= h.dport && h.dport <= last
    case SourcePort(first, last) => first <= h.sport && h.sport <= last
    case L4Proto(mask) => if h.tcp then mask % 2 == 1 else mask / 2 % 2 == 1
    case IpVersion(mask) => if |h.dst| == 4 then mask % 2 == 1 else mask / 2 % 2 == 1
    case ProcessName(name) => hook == Wan && name == (if process.Some? then process.value else Name16(0, 0))
    case Dscp(value) => h.dscp == value
    case Fallback => true
    case Other(_) => false
  }

  lemma CoversIffListed(rs: RuleSet, lists: Lists, number: nat, a: Bytes)
    requires rs.tries == Tries(lists) && IsAddress(a)
    ensures Covers(rs, number, BitsOf(Wide(a))) <==> Listed(lists, number, a)
  {
    if number < |lists| {
      forall c | c in lists[number]
        ensures Prefix(c) <= BitsOf(Wide(a)) <==> Matches(c, a)
      {
        PrefixHitIff(c, a);
      }
      if Listed(lists, number, a) {
        var c :| c in lists[number] && Matches(c, a);
        assert Prefix(c) in rs.tries[number];
      }
    }
  }

  lemma SenderCoversIffListed(rs: RuleSet, lists: Lists, number: nat, mac: Bytes)
    requires rs.tries == Tries(lists) && |mac| == 6
    ensures Covers(rs, number, BitsOf(Padded(mac))) <==> Listed(lists, number, Padded(mac))
  {
    CoversIffListed(rs, lists, number, Padded(mac));
  }

  lemma FlagBit(mask: nat)
    ensures (exists bit :: SharesBit(1, mask, bit)) <==> mask % 2 == 1
    ensures (exists bit :: SharesBit(2, mask, bit)) <==> mask / 2 % 2 == 1
  {
    IntersectIff(1, mask);
    IntersectIff(2, mask);
    LowestBit(mask);
    LowestBit(mask / 2);
    assert Intersect(2, mask) <==> mask > 0 && Intersect(1, mask / 2);
  }

  lemma LowestBit(mask: nat)
    ensures Intersect(1, mask) <==> mask % 2 == 1
  {
    assert !Intersect(0, mask / 2);
  }

  /** The description of a query is what the configuration says of the header. */
  lemma DescribesIffSays(
    rs: RuleSet, lists: Lists, hook: Hook, h: Header, process: Option<Name16>, entry: Option<Bitmap>,
    kind: MatchKind, index: nat)
    requires rs.tries == Tries(lists) && IsAddress(h.src) && IsAddress(h.dst) && |h.mac| == 6
    ensures Describes(rs, Asked(hook, h, process), entry, kind, index) <==>
            Says(lists, hook, h, process, entry, kind, index)
  {
    if kind.IpSet? || kind.SourceIpSet? || kind.Mac? {
      AddressEntry(rs, lists, hook, h, process, entry, kind, index);
    } else if kind.L4Proto? || kind.IpVersion? {
      FlagEntry(rs, lists, hook, h, process, entry, kind, index);
    }
  }

  lemma AddressEntry(
    rs: RuleSet, lists: Lists, hook: Hook, h: Header, process: Option<Name16>, entry: Option<Bitmap>,
    kind: MatchKind, index: nat)
    requires rs.tries == Tries(lists) && IsAddress(h.src) && IsAddress(h.dst) && |h.mac| == 6
    requires kind.IpSet? || kind.SourceIpSet? || kind.Mac?
    ensures Describes(rs, Asked(hook, h, process), entry, kind, index) <==>
            Says(lists, hook, h, process, entry, kind, index)
  {
    match kind
    case IpSet(number) => CoversIffListed(rs, lists, number, h.dst);
    case SourceIpSet(number) => CoversIffListed(rs, lists, number, h.src);
    case Mac(number) => SenderCoversIffListed(rs, lists, number, h.mac);
  }

  lemma FlagEntry(
    rs: RuleSet, lists: Lists, hook: Hook, h: Header, process: Option<Name16>, entry: Option<Bitmap>,
    kind: MatchKind, index: nat)
    requires IsAddress(h.src) && IsAddress(h.dst) && |h.mac| == 6 && (kind.L4Proto? || kind.IpVersion?)
    ensures Describes(rs, Asked(hook, h, process), entry, kind, index) <==>
            Says(lists, hook, h, process, entry, kind, index)
  {
    FlagBit(kind.mask);
  }

  /** A list of link addresses matches exactly those addresses. */
  lemma MacListedIff(mac: Bytes, other: Bytes)
    requires |mac| == 6 && |other| == 6
    ensures Matches(MacCidr(mac), Padded(other)) <==> mac == other
  {
    assert Padded(mac)[10..] == mac && Padded(other)[10..] == other;
    if Matches(MacCidr(mac), Padded(other)) {
      assert BitsOf(Padded(mac))[..128] == BitsOf(Padded(mac)) && BitsOf(Padded(other))[..128] == BitsOf(Padded(other));
      BitsOfInjective(Padded(mac), Padded(other));
    }
  }

  // ----- The answer in header fields -----

  predicate IsHeader(h: Header) { IsAddress(h.src) && IsAddress(h.dst) && |h.mac| == 6 }

  ghost function Said(
    lists: Lists, hook: Hook, h: Header, process: Option<Name16>, entry: Option<Bitmap>): Hits
    requires IsHeader(h)
  {
    (kind: MatchKind, index: nat) => Says(lists, hook, h, process, entry, kind, index)
  }

  /** The rule set that a configuration compiles to: its rules one after the other, its CIDRs
      as prefixes. */
  predicate CompiledFrom(rs: RuleSet, rules: seq<Rule>, lists: Lists) {
    && Compiled(rs) && KnownKinds(rs) && ValidOutbounds(rules)
    && rs.matchSets == Flatten(rules) && rs.tries == Tries(lists)
  }

  /** The active slot holds that rule set. */
  predicate Serves(m: Maps, rs: RuleSet, rules: seq<Rule>, lists: Lists) {
    m.active < EPOCH_SLOT_NUM && Holds(m, m.active, rs) && CompiledFrom(rs, rules, lists)
  }

  lemma ReadsAsSaid(
    rs: RuleSet, lists: Lists, slot: nat, hook: Hook, h: Header, process: Option<Name16>, entry: Option<Bitmap>)
    requires Compiled(rs) && KnownKinds(rs) && rs.tries == Tries(lists) && slot < EPOCH_SLOT_NUM && IsHeader(h)
    ensures var q := Asked(hook, h, process);
            ReadsAs(Fresh(q, slot, TablesOf(rs, slot, q.daddr, entry)), Said(lists, hook, h, process, entry),
                    rs.matchSets, 0)
  {
    var q := Asked(hook, h, process);
    forall i | 0 <= i < |rs.matchSets|
      ensures Fresh(q, slot, TablesOf(rs, slot, q.daddr, entry))(rs.matchSets[i].kind, 0 + i) ==
              HitIf(Said(lists, hook, h, process, entry)(rs.matchSets[i].kind, 0 + i))
    {
      HitIffDescribed(rs, slot, q, entry, i);
      DescribesIffSays(rs, lists, hook, h, process, entry, rs.matchSets[i].kind, i);
    }
  }

  /** The bitmap of the domains that resolved to the packet's destination. */
  function DomainsOf(m: Maps, h: Header): Option<Bitmap> {
    Lookup(m.domain, DomainKey(m.active, BitsOf(Wide(h.dst))))
  }

  /** The answer for a header is that of the first rule of the configuration that applies to
      it, and negative if none does. */
  lemma HeaderIsRouted(
    m: Maps, rs: RuleSet, rules: seq<Rule>, lists: Lists, hook: Hook, h: Header, process: Option<Name16>)
    requires Serves(m, rs, rules, lists) && IsHeader(h)
    ensures ReportsFirstDecider(RouteOn(m, Asked(hook, h, process)),
                                Said(lists, hook, h, process, DomainsOf(m, h)), rules, m.active)
  {
    var q, entry := Asked(hook, h, process), DomainsOf(m, h);
    EpochFailedSwitch.CallAnswersAsHeld(m, rs, q);
    ReadsAsSaid(rs, lists, m.active, hook, h, process, entry);
    LoopReports(q, m.active, TablesOf(rs, m.active, q.daddr, entry), rules, Said(lists, hook, h, process, entry));
  }

  /** From the bytes: every encoded packet is routed by the first rule of the configuration
      that applies to its own header. */
  lemma Ipv4IsRouted(
    m: Maps, rs: RuleSet, rules: seq<Rule>, lists: Lists, hook: Hook, link: Link, p: Ipv4Packet, linear: Option<nat>,
    process: Option<Name16>)
    requires Serves(m, rs, rules, lists)
    requires IsLink(link) && IsIpv4(p) && (linear.Some? ==> linear.value <= |EncodeIpv4(link, p)|)
    ensures var h := Header4(link, p);
            ReportsFirstDecider(
              RouteOn(m, AskedOfBytes(hook, EncodeIpv4(link, p), linear, ETH_P_IP, LinkLength(link), process)),
              Said(lists, hook, h, process, DomainsOf(m, h)), rules, m.active)
  {
    Ipv4Asks(hook, link, p, linear, process);
    HeaderIsRouted(m, rs, rules, lists, hook, Header4(link, p), process);
  }

  lemma Ipv6IsRouted(
    m: Maps, rs: RuleSet, rules: seq<Rule>, lists: Lists, hook: Hook, link: Link, p: Ipv6Packet, linear: Option<nat>,
    process: Option<Name16>)
    requires Serves(m, rs, rules, lists)
    requires IsLink(link) && IsIpv6(p) && Extensions(p.chain) <= IPV6_MAX_EXTENSIONS
    requires linear.Some? ==> linear.value <= |EncodeIpv6(link, p)|
    ensures var h := Header6(link, p);
            ReportsFirstDecider(
              RouteOn(m, AskedOfBytes(hook, EncodeIpv6(link, p), linear, ETH_P_IPV6, LinkLength(link), process)),
              Said(lists, hook, h, process, DomainsOf(m, h)), rules, m.active)
  {
    Ipv6Asks(hook, link, p, linear, process);
    HeaderIsRouted(m, rs, rules, lists, hook, Header6(link, p), process);
  }

  // ----- The verdict in header fields -----

  function NameOf(e: ConnTrack.Env): Option<Name16> { if e.process.Some? then Some(e.process.value.pname) else None }

  function Answer(ret: int): Option<Decision> { if ret < 0 then None else Some(Unpack(ret)) }

  /** The first rule that applies decides: a blocked connection is dropped, a direct one
      passes and on LAN ingress carries the rule's mark, every other one is handed over with
      the rule's outbound and mark. A mark makes WAN egress hand over a direct one too. A
      connection that no rule covers is dropped. */
  ghost predicate FollowsRules(hook: Hook, h: Hits, rules: seq<Rule>, e: ConnTrack.Env, v: ConnTrack.Verdict) {
    && (forall i :: 0 <= i < |rules| && FirstDecides(h, rules, i, 0) ==>
          var outbound, mark := rules[i].outbound, TailEntry(rules[i].condition).mark;
          var direct := outbound == OUTBOUND_DIRECT && (hook == Wan ==> mark == 0);
          && (v.Pass? <==> direct && (e.insertOk || mark == 0))
          && (v.Pass? && hook == Lan ==> v.skbMark == Some(mark))
          && (v.Redirect? <==> !direct && outbound != OUTBOUND_BLOCK && e.alive && e.insertOk && e.redirectOk)
          && (v.Redirect? ==> v.handoff.outbound == outbound && v.handoff.mark == mark))
    && ((forall i :: 0 <= i < |rules| ==> !Decides(h, rules, i, 0)) ==> v.Drop?)
  }

  lemma NewConnectionFollowsRules(
    hook: Hook, o: Option<ConnTrack.Conn>, p: ConnTrack.Packet, e: ConnTrack.Env, ret: int, h: Hits, rules: seq<Rule>,
    slot: nat)
    requires p.tuple.proto == ConnTrack.TCP && p.syn && (hook == Wan ==> !e.controlPlane)
    requires e.route == Answer(ret) && ReportsFirstDecider(ret, h, rules, slot)
    ensures FollowsRules(hook, h, rules, e, EntryStep(o, Forward(hook, p, e)).verdict)
  {
    HookVerdicts.VerdictIff(hook, o, p, e);
  }

  /** The headers are those of a SYN. */
  predicate OpensConnection(parsed: Parsed) {
    parsed.code == PARSED && parsed.ctx.l4proto == IPPROTO_TCP && IsNewTcp(parsed.ctx.tcp)
  }

  lemma ParsedSynFollowsRules(
    hook: Hook, t: ConnTrack.Table, parsed: Parsed, e: ConnTrack.Env, ret: int, h: Hits, rules: seq<Rule>, slot: nat)
    requires OpensConnection(parsed) && (hook == Wan ==> !e.controlPlane)
    requires e.route == Answer(ret) && ReportsFirstDecider(ret, h, rules, slot)
    ensures FollowsRules(hook, h, rules, e, PacketVerdicts.Handled(t, parsed, PacketVerdicts.Out(hook), e).verdict)
  {
    var p := PacketVerdicts.PacketOf(parsed.ctx);
    NewConnectionFollowsRules(hook, ConnTrack.Get(t, p.tuple), p, e, ret, h, rules, slot);
  }

  /** A SYN is read as one on either path. */
  lemma SynIsRead(b: Bytes, linear: Option<nat>, protocol: nat, linkLen: nat, l4: L4)
    requires linear.Some? ==> linear.value <= |b|
    requires l4.TcpSegment? && l4.syn && !l4.ack
    requires var slow := SlowParse(b, protocol, linkLen);
             slow.code == PARSED && HoldsL4(slow.ctx, l4) && GetTuples(slow.ctx).l4proto == IPPROTO_TCP
    ensures OpensConnection(PacketVerdicts.Parse(b, linear, protocol, linkLen))
  {
    if FastParse(b, linear, protocol, linkLen).code != FALLBACK {
      FastRefinesSlow(b, linear, protocol, linkLen);
    }
    PacketVerdicts.TcpByTuples(SlowParse(b, protocol, linkLen).ctx);
  }

  /** What the router answers about bytes is what the hook has when it decides. */
  predicate RoutedBy(
    m: Maps, hook: Hook, b: Bytes, linear: Option<nat>, protocol: nat, linkLen: nat, e: ConnTrack.Env)
    requires linear.Some? ==> linear.value <= |b|
  {
    e.route == Answer(RouteOn(m, AskedOfBytes(hook, b, linear, protocol, linkLen, NameOf(e))))
  }

  /** From bytes and configuration to verdict: what either hook does with the first packet of
      any IPv4 connection, whatever the table holds and however the packet is parsed. */
  lemma Ipv4SynFollowsRules(
    m: Maps, rs: RuleSet, rules: seq<Rule>, lists: Lists, hook: Hook, link: Link, p: Ipv4Packet, b: Bytes,
    linear: Option<nat>, t: ConnTrack.Table, e: ConnTrack.Env)
    requires Serves(m, rs, rules, lists) && IsLink(link) && IsIpv4(p) && b == EncodeIpv4(link, p)
    requires p.l4.TcpSegment? && p.l4.syn && !p.l4.ack && (hook == Wan ==> !e.controlPlane)
    requires (linear.Some? ==> linear.value <= |b|) && RoutedBy(m, hook, b, linear, ETH_P_IP, LinkLength(link), e)
    ensures var h := Header4(link, p);
            var parsed := PacketVerdicts.Parse(b, linear, ETH_P_IP, LinkLength(link));
            FollowsRules(hook, Said(lists, hook, h, NameOf(e), DomainsOf(m, h)), rules, e,
                         PacketVerdicts.Handled(t, parsed, PacketVerdicts.Out(hook), e).verdict)
  {
    var h := Header4(link, p);
    Ipv4RoundTrip(link, p);
    SynIsRead(b, linear, ETH_P_IP, LinkLength(link), p.l4);
    Ipv4IsRouted(m, rs, rules, lists, hook, link, p, linear, NameOf(e));
    ParsedSynFollowsRules(
      hook, t, PacketVerdicts.Parse(b, linear, ETH_P_IP, LinkLength(link)), e,
      RouteOn(m, AskedOfBytes(hook, b, linear, ETH_P_IP, LinkLength(link), NameOf(e))),
      Said(lists, hook, h, NameOf(e), DomainsOf(m, h)), rules, m.active);
  }

  lemma Ipv6SynFollowsRules(
    m: Maps, rs: RuleSet, rules: seq<Rule>, lists: Lists, hook: Hook, link: Link, p: Ipv6Packet, b: Bytes,
    linear: Option<nat>, t: ConnTrack.Table, e: ConnTrack.Env)
    requires Serves(m, rs, rules, lists) && IsLink(link) && IsIpv6(p) && b == EncodeIpv6(link, p)
    requires Extensions(p.chain) <= IPV6_MAX_EXTENSIONS
    requires p.l4.TcpSegment? && p.l4.syn && !p.l4.ack && (hook == Wan ==> !e.controlPlane)
    requires (linear.Some? ==> linear.value <= |b|) && RoutedBy(m, hook, b, linear, ETH_P_IPV6, LinkLength(link), e)
    ensures var h := Header6(link, p);
            var parsed := PacketVerdicts.Parse(b, linear, ETH_P_IPV6, LinkLength(link));
            FollowsRules(hook, Said(lists, hook, h, NameOf(e), DomainsOf(m, h)), rules, e,
                         PacketVerdicts.Handled(t, parsed, PacketVerdicts.Out(hook), e).verdict)
  {
    var h := Header6(link, p);
    Ipv6RoundTrip(link, p);
    SynIsRead(b, linear, ETH_P_IPV6, LinkLength(link), p.l4);
    Ipv6IsRouted(m, rs, rules, lists, hook, link, p, linear, NameOf(e));
    ParsedSynFollowsRules(
      hook, t, PacketVerdicts.Parse(b, linear, ETH_P_IPV6, LinkLength(link)), e,
      RouteOn(m, AskedOfBytes(hook, b, linear, ETH_P_IPV6, LinkLength(link), NameOf(e))),
      Said(lists, hook, h, NameOf(e), DomainsOf(m, h)), rules, m.active);
  }
}
