/** The key under which a forwarded packet's link address is remembered, and how a reply
    finds it again. */
module RedirectKeys {
  import opened MatchSets
  import opened ByteStrings
  import opened PacketParser
  import opened PacketEncoding

  /** An address as its four 32-bit words, each loaded in the host's byte order. */
  datatype Ip = Ip(w0: int, w1: int, w2: int, w3: int)
  datatype Pair = Pair(sip: Ip, dip: Ip)

  const FALLBACK_TO_SLOW: int := 2
  const MAPPED_MARKER: int := 0xFFFF0000
  const ZERO_IP: Ip := Ip(0, 0, 0, 0)

  /** Bytes as a little-endian host reads them. */
  function Little(b: Bytes): int { if |b| == 0 then 0 else b[0] + 0x100 * Little(b[1..]) }

  function WordAt(b: Bytes, off: nat): int
    requires off + 4 <= |b|
  {
    Little(b[off..off + 4])
  }

  function IpAt(b: Bytes, off: nat): Ip
    requires off + 16 <= |b|
  {
    Ip(WordAt(b, off), WordAt(b, off + 4), WordAt(b, off + 8), WordAt(b, off + 12))
  }

  // ----- Canonical keys -----

  predicate IsV4Form(ip: Ip) { ip.w0 == 0 && ip.w1 == 0 && (ip.w2 == 0 || ip.w2 == MAPPED_MARKER) && ip.w3 != 0 }

  function Normalize(ip: Ip): Ip { if IsV4Form(ip) then ip.(w2 := MAPPED_MARKER) else ip }

  predicate Gt(a: Ip, b: Ip) {
    a.w0 > b.w0 || (a.w0 == b.w0 && (a.w1 > b.w1 || (a.w1 == b.w1 && (a.w2 > b.w2 || (a.w2 == b.w2 && a.w3 > b.w3)))))
  }

  function Canonical(p: Pair): Pair {
    var q := Pair(Normalize(p.sip), Normalize(p.dip));
    if Gt(q.sip, q.dip) then Pair(q.dip, q.sip) else q
  }

  lemma GtIsStrictTotalOrder(a: Ip, b: Ip, c: Ip)
    ensures !Gt(a, a)
    ensures Gt(a, b) && Gt(b, c) ==> Gt(a, c)
    ensures a != b ==> Gt(a, b) != Gt(b, a)
  {
    assert a == b <==> a.w0 == b.w0 && a.w1 == b.w1 && a.w2 == b.w2 && a.w3 == b.w3;
  }

  lemma CanonicalLaws(p: Pair)
    ensures Canonical(Canonical(p)) == Canonical(p)
    ensures Canonical(Pair(p.dip, p.sip)) == Canonical(p)
  {
    GtIsStrictTotalOrder(Normalize(p.sip), Normalize(p.dip), Normalize(p.sip));
  }

  /** Two tuples share a key exactly when their normalised unordered address pairs agree. */
  lemma KeysMeetIff(p: Pair, q: Pair)
    ensures Canonical(p) == Canonical(q) <==>
            {Normalize(p.sip), Normalize(p.dip)} == {Normalize(q.sip), Normalize(q.dip)}
  {
    var a, b, c, d := Normalize(p.sip), Normalize(p.dip), Normalize(q.sip), Normalize(q.dip);
    GtIsStrictTotalOrder(a, b, a);
    GtIsStrictTotalOrder(c, d, c);
    var k, l := Canonical(p), Canonical(q);
    assert {a, b} == {k.sip, k.dip} && {c, d} == {l.sip, l.dip};
    if {a, b} == {c, d} {
      SameTwo(a, b, c, d);
    }
  }

  lemma SameTwo(a: Ip, b: Ip, c: Ip, d: Ip)
    requires {a, b} == {c, d}
    ensures (a == c && b == d) || (a == d && b == c)
  {
    assert a in {c, d} && b in {c, d} && c in {a, b} && d in {a, b};
  }

  /** Normalising confuses two addresses exactly when they are the same or are the
      IPv4-mapped and IPv4-compatible forms of one non-zero IPv4 address. */
  lemma NormalizeConfusesIff(a: Ip, b: Ip)
    ensures Normalize(a) == Normalize(b) <==> a == b || (IsV4Form(a) && IsV4Form(b) && a.w3 == b.w3)
  {
  }

  /** A key lists the lesser address first, so there is one for each unordered pair. */
  lemma CanonicalIsOrdered(p: Pair)
    ensures var k := Canonical(p);
            !Gt(k.sip, k.dip) && multiset{k.sip, k.dip} == multiset{Normalize(p.sip), Normalize(p.dip)}
  {
    GtIsStrictTotalOrder(Normalize(p.sip), Normalize(p.dip), Normalize(p.sip));
  }

  // ----- Keys in bytes -----

  lemma {:induction false} LittleInjective(a: Bytes, b: Bytes)
    requires |a| == |b|
    ensures Little(a) == Little(b) <==> a == b
  {
    if a != [] && Little(a) == Little(b) {
      assert a[0] == b[0] && Little(a[1..]) == Little(b[1..]);
      LittleInjective(a[1..], b[1..]);
      assert a == [a[0]] + a[1..] && b == [b[0]] + b[1..];
    }
  }

  lemma WordsAgreeIff(a: Bytes, b: Bytes, off: nat)
    requires off + 4 <= |a| && off + 4 <= |b|
    ensures WordAt(a, off) == WordAt(b, off) <==> a[off..off + 4] == b[off..off + 4]
  {
    LittleInjective(a[off..off + 4], b[off..off + 4]);
  }

  lemma WordsJoin(a: Bytes)
    requires |a| == 16
    ensures a == a[0..4] + a[4..8] + a[8..12] + a[12..16]
  {
  }

  /** Two addresses have the same words exactly when they are the same. */
  lemma IpsAgreeIff(a: Bytes, b: Bytes)
    requires |a| == 16 && |b| == 16
    ensures IpAt(a, 0) == IpAt(b, 0) <==> a == b
  {
    WordsAgreeIff(a, b, 0);
    WordsAgreeIff(a, b, 4);
    WordsAgreeIff(a, b, 8);
    WordsAgreeIff(a, b, 12);
    WordsJoin(a);
    WordsJoin(b);
  }

  function Zeros4(): Bytes { [0, 0, 0, 0] }

  function Marker4(): Bytes { [0, 0, 0xFF, 0xFF] }

  /** Ten zero bytes, then two zero bytes or two of all ones, then a non-zero IPv4 address. */
  predicate Embeds(a: Bytes)
    requires |a| == 16
  {
    && a[0..4] == Zeros4() && a[4..8] == Zeros4() && (a[8..12] == Zeros4() || a[8..12] == Marker4())
    && a[12..16] != Zeros4()
  }

  lemma ConstantWords()
    ensures Little(Zeros4()) == 0 && Little(Marker4()) == MAPPED_MARKER
  {
  }

  lemma V4FormIff(a: Bytes)
    requires |a| == 16
    ensures IsV4Form(IpAt(a, 0)) <==> Embeds(a)
  {
    ConstantWords();
    LittleInjective(a[0..4], Zeros4());
    LittleInjective(a[4..8], Zeros4());
    LittleInjective(a[8..12], Zeros4());
    LittleInjective(a[8..12], Marker4());
    LittleInjective(a[12..16], Zeros4());
  }

  /** Two addresses are confused exactly when they are the same or embed the same IPv4 address. */
  lemma AddressesConfusedIff(a: Bytes, b: Bytes)
    requires |a| == 16 && |b| == 16
    ensures Normalize(IpAt(a, 0)) == Normalize(IpAt(b, 0)) <==>
            a == b || (Embeds(a) && Embeds(b) && a[12..16] == b[12..16])
  {
    var x, y := IpAt(a, 0), IpAt(b, 0);
    IpsAgreeIff(a, b);
    V4FormIff(a);
    V4FormIff(b);
    WordsAgreeIff(a, b, 12);
    ConfusedIff(x, y, a == b, Embeds(a), Embeds(b), a[12..16] == b[12..16]);
  }

  lemma ConfusedIff(x: Ip, y: Ip, same: bool, v: bool, w: bool, tail: bool)
    requires (x == y <==> same) && (IsV4Form(x) <==> v) && (IsV4Form(y) <==> w) && (x.w3 == y.w3 <==> tail)
    ensures Normalize(x) == Normalize(y) <==> same || (v && w && tail)
  {
    NormalizeConfusesIff(x, y);
  }

  // ----- The key of a forwarded packet -----

  function ForwardPair(protocol: nat, t: Tuples): Pair
    requires |t.sip| == 16 && |t.dip| == 16
  {
    if protocol == ETH_P_IP
    then Pair(Ip(0, 0, MAPPED_MARKER, IpAt(t.sip, 0).w3), Ip(0, 0, MAPPED_MARKER, IpAt(t.dip, 0).w3))
    else Pair(IpAt(t.sip, 0), IpAt(t.dip, 0))
  }

  /** What `publish_redirect_track_for_packet` writes its entry under. */
  method PublishKey(protocol: nat, t: Tuples) returns (key: Pair)
    requires |t.sip| == 16 && |t.dip| == 16
    ensures key == Canonical(ForwardPair(protocol, t))
    ensures !Gt(key.sip, key.dip)
  {
    key := ForwardPair(protocol, t);
    key := Pair(Normalize(key.sip), Normalize(key.dip));
    if Gt(key.sip, key.dip) {
      key := Pair(key.dip, key.sip);
    }
    CanonicalLaws(ForwardPair(protocol, t));
    GtIsStrictTotalOrder(key.sip, key.dip, key.sip);
  }

  // ----- The key of a reply -----

  /** The addresses at an L3 header, swapped. */
  function PairAt(b: Bytes, off: nat, protocol: nat): Option<Pair> {
    if protocol == ETH_P_IP then
      if off + 20 > |b| then None
      else Some(Pair(Ip(0, 0, MAPPED_MARKER, WordAt(b, off + 16)), Ip(0, 0, MAPPED_MARKER, WordAt(b, off + 12))))
    else if protocol == ETH_P_IPV6 then
      if off + 40 > |b| then None else Some(Pair(IpAt(b, off + 24), IpAt(b, off + 8)))
    else None
  }

  function ReplyPair(b: Bytes, protocol: nat): Option<Pair> {
    PairAt(b, if LooksLikeL2(b, protocol) then ETH_HLEN else 0, protocol)
  }

  method LoadRedirectTupleFast(b: Bytes, linear: Option<nat>, protocol: nat) returns (code: int, pair: Pair)
    requires linear.Some? ==> linear.value <= |b|
    ensures code in {0, 1, FALLBACK_TO_SLOW}
    ensures code == 0 ==> ReplyPair(b, protocol) == Some(pair)
    ensures code == 1 ==> ReplyPair(b, protocol).None? && protocol != ETH_P_IP && protocol != ETH_P_IPV6
  {
    pair := Pair(ZERO_IP, ZERO_IP);
    if linear.None? {
      return FALLBACK_TO_SLOW, pair;
    }
    var end := linear.value;
    if ETH_HLEN <= end {
      var proto := U16(b, 12);
      if (proto == ETH_P_IP || proto == ETH_P_IPV6) && proto == protocol {
        if proto == ETH_P_IP {
          if ETH_HLEN + 20 > end {
            return FALLBACK_TO_SLOW, pair;
          }
          pair := Pair(Ip(0, 0, MAPPED_MARKER, WordAt(b, 30)), Ip(0, 0, MAPPED_MARKER, WordAt(b, 26)));
          return 0, pair;
        }
        if ETH_HLEN + 40 > end {
          return FALLBACK_TO_SLOW, pair;
        }
        return 0, Pair(IpAt(b, 38), IpAt(b, 22));
      }
    }
    if protocol == ETH_P_IP {
      if 20 > end {
        return FALLBACK_TO_SLOW, pair;
      }
      return 0, Pair(Ip(0, 0, MAPPED_MARKER, WordAt(b, 16)), Ip(0, 0, MAPPED_MARKER, WordAt(b, 12)));
    }
    if protocol == ETH_P_IPV6 {
      if 40 > end {
        return FALLBACK_TO_SLOW, pair;
      }
      return 0, Pair(IpAt(b, 24), IpAt(b, 8));
    }
    return 1, pair;
  }

  method LoadRedirectTupleSlow(b: Bytes, protocol: nat) returns (code: int, pair: Pair)
    ensures code == 0 <==> ReplyPair(b, protocol).Some?
    ensures code == 0 ==> pair == ReplyPair(b, protocol).value
  {
    pair := Pair(ZERO_IP, ZERO_IP);
    var hasL2 := false;
    var proto := LoadBytes(b, 12, 2);
    if proto.Some? {
      var l2 := U16(proto.value, 0);
      hasL2 := (l2 == ETH_P_IP || l2 == ETH_P_IPV6) && l2 == protocol;
    }
    assert hasL2 == LooksLikeL2(b, protocol);
    var off := if hasL2 then ETH_HLEN else 0;
    if protocol == ETH_P_IP {
      var daddr := LoadBytes(b, off + 16, 4);
      if daddr.None? {
        return MALFORMED, pair;
      }
      SameWord(b, off + 16, daddr.value);
      pair := Pair(Ip(0, 0, MAPPED_MARKER, WordAt(daddr.value, 0)), Ip(0, 0, MAPPED_MARKER, 0));
      var saddr := LoadBytes(b, off + 12, 4);
      if saddr.None? {
        return MALFORMED, pair;
      }
      SameWord(b, off + 12, saddr.value);
      pair := Pair(pair.sip, pair.dip.(w3 := WordAt(saddr.value, 0)));
      return 0, pair;
    }
    if protocol == ETH_P_IPV6 {
      var daddr := LoadBytes(b, off + 24, 16);
      if daddr.None? {
        return MALFORMED, pair;
      }
      SameIp(b, off + 24, daddr.value);
      pair := Pair(IpAt(daddr.value, 0), pair.dip);
      var saddr := LoadBytes(b, off + 8, 16);
      if saddr.None? {
        return MALFORMED, pair;
      }
      SameIp(b, off + 8, saddr.value);
      pair := Pair(pair.sip, IpAt(saddr.value, 0));
      return 0, pair;
    }
    return 1, pair;
  }

  /** The lookup key of a reply, however much of the packet is linear. */
  method LoadRedirectTuple(b: Bytes, linear: Option<nat>, protocol: nat) returns (code: int, key: Pair)
    requires linear.Some? ==> linear.value <= |b|
    ensures code == 0 <==> ReplyPair(b, protocol).Some?
    ensures code == 0 ==> key == Canonical(ReplyPair(b, protocol).value)
  {
    code, key := LoadRedirectTupleFast(b, linear, protocol);
    if code == FALLBACK_TO_SLOW {
      code, key := LoadRedirectTupleSlow(b, protocol);
      if code != 0 {
        return;
      }
    } else if code != 0 {
      return;
    }
    key := Pair(Normalize(key.sip), Normalize(key.dip));
    if Gt(key.sip, key.dip) {
      key := Pair(key.dip, key.sip);
    }
  }

  // ----- The two keys, from any bytes -----

  /** The key that a hook publishes for a forward packet: it detects the link header, parses
      and takes the tuple. `linear` is what the pull of the detection gave. */
  function ForwardKey(b: Bytes, linear: Option<nat>, protocol: nat): Option<Pair> {
    KeyOfParsed(SlowParse(b, protocol, DetectedLength(b, linear, protocol)), protocol)
  }

  function KeyOfParsed(parsed: Parsed, protocol: nat): Option<Pair> {
    var t := GetTuples(parsed.ctx);
    if parsed.code != PARSED || parsed.ctx.l4proto == IPPROTO_ICMPV6 || |t.sip| != 16 || |t.dip| != 16 then None
    else Some(Canonical(ForwardPair(protocol, t)))
  }

  function ReplyKey(b: Bytes, protocol: nat): Option<Pair> {
    var pair := ReplyPair(b, protocol);
    if pair.None? then None else Some(Canonical(pair.value))
  }

  /** The reply finds the entry of the forward packet. */
  predicate Meets(forward: Bytes, linear: Option<nat>, reply: Bytes, protocol: nat) {
    ForwardKey(forward, linear, protocol).Some? && ReplyKey(reply, protocol) == ForwardKey(forward, linear, protocol)
  }

  function ReplyOffset(b: Bytes, protocol: nat): nat { if LooksLikeL2(b, protocol) then ETH_HLEN else 0 }

  type Words = (int, int)

  function MappedPair(w: Words): Pair { Pair(Ip(0, 0, MAPPED_MARKER, w.0), Ip(0, 0, MAPPED_MARKER, w.1)) }

  /** An IPv4 header at `off` with a whole TCP or UDP header after it, not a later fragment. */
  predicate Accepts4(b: Bytes, off: nat) {
    && off + 20 <= |b| && b[off] % 16 >= 5 && U16(b, off + 6) % 0x2000 == 0
    && var l4 := off + b[off] % 16 * 4;
       (b[off + 9] == IPPROTO_TCP && l4 + 20 <= |b|) || (b[off + 9] == IPPROTO_UDP && l4 + 8 <= |b|)
  }

  /** What is published from a header at `off`: its addresses, or zeroes when the version is
      not 4, which nobody checks. */
  function Published4(b: Bytes, off: nat): Option<Words> {
    if !Accepts4(b, off) then None else Some(Read4(b, off))
  }

  function Read4(b: Bytes, off: nat): Words
    requires off + 20 <= |b|
  {
    if b[off] / 16 == 4 then (WordAt(b, off + 12), WordAt(b, off + 16)) else (0, 0)
  }

  function LookedUp4(b: Bytes, off: nat): Option<Words> {
    if off + 20 > |b| then None else Some((WordAt(b, off + 12), WordAt(b, off + 16)))
  }

  predicate SameTwoWords(x: Option<Words>, y: Option<Words>) {
    x.Some? && y.Some? && (x == y || x.value == (y.value.1, y.value.0))
  }

  lemma MappedWord(addr: Bytes)
    requires |addr| == 4
    ensures |Mapped(addr)| == 16 && IpAt(Mapped(addr), 0) == Ip(0, 0, MAPPED_MARKER, WordAt(addr, 0))
  {
    var m := Mapped(addr);
    ConstantWords();
    assert m[0..4] == Zeros4() && m[4..8] == Zeros4() && m[8..12] == Marker4() && m[12..16] == addr[0..4];
  }

  lemma SameWord(b: Bytes, off: nat, addr: Bytes)
    requires |addr| == 4 && off + 4 <= |b| && b[off..off + 4] == addr
    ensures WordAt(b, off) == WordAt(addr, 0)
  {
    assert addr == addr[0..4];
  }

  /** On any bytes: where the parser starts, and with which protocol. */
  lemma ParseStarts(b: Bytes, linear: Option<nat>, protocol: nat) returns (eth: Eth)
    requires protocol == ETH_P_IP || protocol == ETH_P_IPV6
    ensures eth.proto == protocol
    ensures SlowParse(b, protocol, DetectedLength(b, linear, protocol)) ==
            ReadL3(b, |b|, MALFORMED, true, eth, DetectedLength(b, linear, protocol))
  {
    eth := if DetectedLength(b, linear, protocol) == 0 then BareEth(protocol) else ReadEth(b);
  }

  /** What the parser makes of an IPv4 header anywhere. */
  lemma ParsesIffAccepts4(b: Bytes, off: nat, eth: Eth)
    ensures ReadIpv4(b, |b|, MALFORMED, true, EmptyCtx(eth), off).code == PARSED <==> Accepts4(b, off)
    ensures Accepts4(b, off) ==>
              var ctx := ReadIpv4(b, |b|, MALFORMED, true, EmptyCtx(eth), off).ctx;
              ctx.ip4 == ReadIp4(b, off) && ctx.ip6 == ZeroIp6() && ctx.l4proto == b[off + 9]
  {
  }

  lemma TuplesAddress4(b: Bytes, off: nat, ctx: Ctx) returns (w: Words)
    requires off + 20 <= |b| && ctx.ip4 == ReadIp4(b, off) && ctx.ip6 == ZeroIp6()
    ensures w == Read4(b, off)
    ensures var t := GetTuples(ctx);
            |t.sip| == 16 && |t.dip| == 16 && ForwardPair(ETH_P_IP, t) == MappedPair(w)
  {
    w := (0, 0);
    if b[off] / 16 == 4 {
      w := (WordAt(b, off + 12), WordAt(b, off + 16));
      MappedWord(ctx.ip4.saddr);
      MappedWord(ctx.ip4.daddr);
      SameWord(b, off + 12, ctx.ip4.saddr);
      SameWord(b, off + 16, ctx.ip4.daddr);
    } else {
      ConstantWords();
      assert Zero16()[12..16] == Zeros4();
    }
  }

  lemma KeyOfHeader4(b: Bytes, off: nat, parsed: Parsed)
    requires off + 20 <= |b| && parsed.code == PARSED && parsed.ctx.l4proto != IPPROTO_ICMPV6
    requires parsed.ctx.ip4 == ReadIp4(b, off) && parsed.ctx.ip6 == ZeroIp6()
    ensures KeyOfParsed(parsed, ETH_P_IP) == Some(Canonical(MappedPair(Read4(b, off))))
  {
    var w := TuplesAddress4(b, off, parsed.ctx);
    KeyOfTuples(parsed, MappedPair(w));
  }

  lemma KeyOfTuples(parsed: Parsed, pair: Pair)
    requires parsed.code == PARSED && parsed.ctx.l4proto != IPPROTO_ICMPV6
    requires var t := GetTuples(parsed.ctx); |t.sip| == 16 && |t.dip| == 16 && ForwardPair(ETH_P_IP, t) == pair
    ensures KeyOfParsed(parsed, ETH_P_IP) == Some(Canonical(pair))
  {
  }

  /** The published key on any bytes. */
  lemma ForwardKey4(b: Bytes, linear: Option<nat>)
    ensures var w := Published4(b, DetectedLength(b, linear, ETH_P_IP));
            ForwardKey(b, linear, ETH_P_IP) == if w.None? then None else Some(Canonical(MappedPair(w.value)))
  {
    var off := DetectedLength(b, linear, ETH_P_IP);
    var eth := ParseStarts(b, linear, ETH_P_IP);
    ParsesIffAccepts4(b, off, eth);
    if Accepts4(b, off) { KeyOfHeader4(b, off, ReadIpv4(b, |b|, MALFORMED, true, EmptyCtx(eth), off)); }
  }

  /** Two IPv4-mapped pairs have one key exactly when they are the same two addresses. */
  lemma MappedKeysMeetIff(x: Words, y: Words)
    ensures Canonical(MappedPair(x)) == Canonical(MappedPair(y)) <==> x == y || x == (y.1, y.0)
  {
    var p, q := MappedPair(x), MappedPair(y);
    KeysMeetIff(p, q);
    if {p.sip, p.dip} == {q.sip, q.dip} {
      SameTwo(p.sip, p.dip, q.sip, q.dip);
    }
  }

  /** On any bytes of a forward packet and of a reply, whatever they are: the reply finds
      the entry if and only if the parser accepts the header that the hook starts at, and
      the bytes that the reply is looked up by are the same two addresses. */
  lemma Ipv4MeetsIff(forward: Bytes, linear: Option<nat>, reply: Bytes)
    ensures Meets(forward, linear, reply, ETH_P_IP) <==>
            SameTwoWords(Published4(forward, DetectedLength(forward, linear, ETH_P_IP)),
                         LookedUp4(reply, ReplyOffset(reply, ETH_P_IP)))
  {
    ForwardKey4(forward, linear);
    ReplyKey4(reply);
    WordsMeetIff(Published4(forward, DetectedLength(forward, linear, ETH_P_IP)),
                 LookedUp4(reply, ReplyOffset(reply, ETH_P_IP)),
                 ForwardKey(forward, linear, ETH_P_IP), ReplyKey(reply, ETH_P_IP));
  }

  lemma WordsMeetIff(x: Option<Words>, y: Option<Words>, forward: Option<Pair>, reply: Option<Pair>)
    requires forward == if x.None? then None else Some(Canonical(MappedPair(x.value)))
    requires reply == if y.None? then None else Some(Canonical(MappedPair(Turned(y.value))))
    ensures forward.Some? && reply == forward <==> SameTwoWords(x, y)
  {
    if x.Some? && y.Some? { MappedKeysMeetIff(Turned(y.value), x.value); }
  }

  function Turned(w: Words): Words { (w.1, w.0) }

  lemma ReplyKey4(b: Bytes)
    ensures var w := LookedUp4(b, ReplyOffset(b, ETH_P_IP));
            ReplyKey(b, ETH_P_IP) == if w.None? then None else Some(Canonical(MappedPair(Turned(w.value))))
  {
  }

  // ----- IPv4 packets -----

  /** A bare packet whose source address is where an Ethernet type would say IPv4. */
  predicate LooksEthernet4(link: Link, p: Ipv4Packet)
    requires IsIpv4(p)
  {
    link.Bare? && p.src[0] == 8 && p.src[1] == 0
  }

  lemma LooksLikeL2Iff4(link: Link, p: Ipv4Packet)
    requires IsLink(link) && IsIpv4(p)
    ensures LooksLikeL2(EncodeIpv4(link, p), ETH_P_IP) <==> link.Ethernet? || LooksEthernet4(link, p)
  {
    var b := EncodeIpv4(link, p);
    if link.Ethernet? {
      LinkDecodes(link, ETH_P_IP, Ipv4Header(p) + (p.options + EncodeL4(p.l4)));
    } else {
      var h := Ipv4Header(p);
      assert b[12] == h[12] == p.src[0] && b[13] == h[13] == p.src[1];
    }
  }

  /** A reply is read at the right offset exactly when it has an Ethernet header or its
      source address is not in 8.0.0.0/16. */
  lemma Ipv4OffsetRightIff(link: Link, p: Ipv4Packet)
    requires IsLink(link) && IsIpv4(p)
    ensures ReplyOffset(EncodeIpv4(link, p), ETH_P_IP) == LinkLength(link) <==> !LooksEthernet4(link, p)
  {
    LooksLikeL2Iff4(link, p);
  }

  /** The pull of the detection: it fails, or gives at least what was asked for. */
  predicate Probed(b: Bytes, linear: Option<nat>) { linear.Some? ==> ETH_HLEN + 2 <= linear.value <= |b| }

  /** A hook starts at the right offset: with an Ethernet header when the pull succeeds,
      without one when it fails or the source address is not in 8.0.0.0/16. */
  predicate StartsRight4(link: Link, p: Ipv4Packet, linear: Option<nat>)
    requires IsIpv4(p)
  {
    if link.Ethernet? then linear.Some? else linear.None? || !LooksEthernet4(link, p)
  }

  lemma Ipv4DetectionRightIff(link: Link, p: Ipv4Packet, linear: Option<nat>)
    requires IsLink(link) && IsIpv4(p) && Probed(EncodeIpv4(link, p), linear)
    ensures DetectedLength(EncodeIpv4(link, p), linear, ETH_P_IP) == LinkLength(link) <==> StartsRight4(link, p, linear)
  {
    LooksLikeL2Iff4(link, p);
  }

  function Addresses4(p: Ipv4Packet): Words
    requires IsIpv4(p)
  {
    (WordAt(p.src, 0), WordAt(p.dst, 0))
  }

  /** At the right offset both sides read the packet's own addresses. */
  lemma Ipv4RightRead(link: Link, p: Ipv4Packet)
    requires IsLink(link) && IsIpv4(p)
    ensures Published4(EncodeIpv4(link, p), LinkLength(link)) == Some(Addresses4(p))
    ensures LookedUp4(EncodeIpv4(link, p), LinkLength(link)) == Some(Addresses4(p))
  {
    var header, tail := LinkHeader(link, ETH_P_IP), p.options + EncodeL4(p.l4);
    var b, n := EncodeIpv4(link, p), LinkLength(link);
    Ipv4HeaderDecodes(header, p, tail);
    SameWord(b, n + 12, p.src);
    SameWord(b, n + 16, p.dst);
  }

  /** What the hook publishes, and what the reply is looked up by: the packet's own addresses,
      or what is 14 bytes further on (or, with a failed pull, back). */
  function Published(link: Link, p: Ipv4Packet, linear: Option<nat>): Option<Words>
    requires IsLink(link) && IsIpv4(p)
  {
    if StartsRight4(link, p, linear) then Some(Addresses4(p))
    else Published4(EncodeIpv4(link, p), ETH_HLEN - LinkLength(link))
  }

  function LookedUp(link: Link, p: Ipv4Packet): Option<Words>
    requires IsLink(link) && IsIpv4(p)
  {
    if !LooksEthernet4(link, p) then Some(Addresses4(p)) else LookedUp4(EncodeIpv4(link, p), ETH_HLEN)
  }

  /** For every IPv4 forward packet and every reply with the addresses swapped, each on any
      link: the reply finds the forward packet's entry if and only if what was published and
      what is looked up are the same two addresses, which they are when both sides start at
      the right offset. */
  lemma Ipv4ReplyMeetsForwardIff(there: Link, p: Ipv4Packet, linear: Option<nat>, back: Link, q: Ipv4Packet)
    requires IsLink(there) && IsIpv4(p) && Probed(EncodeIpv4(there, p), linear)
    requires IsLink(back) && IsIpv4(q) && q.src == p.dst && q.dst == p.src
    ensures Meets(EncodeIpv4(there, p), linear, EncodeIpv4(back, q), ETH_P_IP) <==>
            SameTwoWords(Published(there, p, linear), LookedUp(back, q))
    ensures StartsRight4(there, p, linear) && !LooksEthernet4(back, q) ==>
              Meets(EncodeIpv4(there, p), linear, EncodeIpv4(back, q), ETH_P_IP)
  {
    Ipv4MeetsIff(EncodeIpv4(there, p), linear, EncodeIpv4(back, q));
    Ipv4DetectionRightIff(there, p, linear);
    Ipv4RightRead(there, p);
    Ipv4OffsetRightIff(back, q);
    Ipv4RightRead(back, q);
  }

  // ----- IPv4 packets that miss -----

  function Zeros(n: nat): Bytes { seq(n, _ => 0) }

  /** A UDP datagram with its length, no checksum, and a payload of zeroes. */
  function ZeroDatagram(sport: int, dport: int, n: nat): L4
    requires n < 0x10000 - 8
  {
    UdpDatagram(sport, dport, BigEndian16(8 + n) + ([0, 0] + Zeros(n)))
  }

  predicate IsZeroDatagram(p: Ipv4Packet, n: nat) {
    n < 0x10000 - 8 && p.options == [] && p.l4 == ZeroDatagram(p.l4.sport, p.l4.dport, n)
  }

  lemma NonZeroWord(addr: Bytes)
    requires |addr| == 4 && addr[0] != 0
    ensures WordAt(addr, 0) != 0
  {
    ConstantWords();
    WordsAgreeIff(addr, Zeros4(), 0);
    assert Zeros4()[0..4] == Zeros4();
  }

  /** Every bare UDP reply from 8.0.0.0/16 without options, with a payload of any number of
      zeroes, misses the entry of a forward packet that was read right. */
  lemma BareReplyMisses(p: Ipv4Packet, linear: Option<nat>, q: Ipv4Packet, n: nat)
    requires IsIpv4(p) && Probed(EncodeIpv4(Bare, p), linear) && StartsRight4(Bare, p, linear)
    requires IsIpv4(q) && q.src == p.dst && q.dst == p.src && LooksEthernet4(Bare, q) && IsZeroDatagram(q, n)
    ensures !Meets(EncodeIpv4(Bare, p), linear, EncodeIpv4(Bare, q), ETH_P_IP)
  {
    Ipv4ReplyMeetsForwardIff(Bare, p, linear, Bare, q);
    ZeroDatagramWords(q, n);
    NonZeroWord(q.src);
  }

  /** Every bare forward packet from 8.0.0.0/16 whose third address byte is below 5
      modulo 16 is refused, whatever it carries: nothing is published and the hooks drop it. */
  lemma BareForwardRefused(p: Ipv4Packet, linear: nat)
    requires IsIpv4(p) && Probed(EncodeIpv4(Bare, p), Some(linear)) && LooksEthernet4(Bare, p) && p.src[2] % 16 < 5
    ensures var b := EncodeIpv4(Bare, p);
            && ForwardKey(b, Some(linear), ETH_P_IP).None?
            && SlowParse(b, ETH_P_IP, DetectedLength(b, Some(linear), ETH_P_IP)).code == MALFORMED
  {
    var b, h := EncodeIpv4(Bare, p), Ipv4Header(p);
    Ipv4DetectionRightIff(Bare, p, Some(linear));
    assert b[14] == h[14] == p.src[2];
    var eth := ParseStarts(b, Some(linear), ETH_P_IP);
    ForwardKey4(b, Some(linear));
    assert |b| >= 28;
  }

  /** Every bare UDP packet from 8.0.69.0/24 addressed so that the bytes 14 further on look
      like a header of their own is published under the wrong key: no reply that is read
      right finds it. */
  lemma BareForwardMisses(p: Ipv4Packet, linear: nat, back: Link, q: Ipv4Packet, n: nat)
    requires IsIpv4(p) && Probed(EncodeIpv4(Bare, p), Some(linear)) && LooksEthernet4(Bare, p)
    requires p.src[2] == 0x45 && IsZeroDatagram(p, n) && n >= 14 && p.l4.sport % 0x2000 == 0 && p.l4.dport % 0x100 == 17
    requires IsLink(back) && IsIpv4(q) && q.src == p.dst && q.dst == p.src && !LooksEthernet4(back, q)
    ensures ForwardKey(EncodeIpv4(Bare, p), Some(linear), ETH_P_IP) == Some(Canonical(MappedPair((0, 0))))
    ensures !Meets(EncodeIpv4(Bare, p), Some(linear), EncodeIpv4(back, q), ETH_P_IP)
  {
    var b := EncodeIpv4(Bare, p);
    Ipv4ReplyMeetsForwardIff(Bare, p, Some(linear), back, q);
    Ipv4DetectionRightIff(Bare, p, Some(linear));
    ForwardKey4(b, Some(linear));
    MisreadHeader(p, n);
    NonZeroWord(p.src);
  }

  lemma MisreadHeader(p: Ipv4Packet, n: nat)
    requires IsIpv4(p) && IsZeroDatagram(p, n) && n >= 14
    requires p.src[2] == 0x45 && p.l4.sport % 0x2000 == 0 && p.l4.dport % 0x100 == 17
    ensures Published4(EncodeIpv4(Bare, p), ETH_HLEN) == Some((0, 0))
  {
    ZeroDatagramWords(p, n);
    MisreadBytes(p);
  }

  /** The source port lies where the fragment offset would, the destination port where the
      protocol would. */
  lemma MisreadBytes(p: Ipv4Packet)
    requires IsIpv4(p) && p.options == []
    ensures var b := EncodeIpv4(Bare, p);
            |b| >= 28 && b[14] == p.src[2] && U16(b, 20) == p.l4.sport && b[23] == p.l4.dport % 0x100
  {
    var b, h, code := EncodeIpv4(Bare, p), Ipv4Header(p), EncodeL4(p.l4);
    assert b == h + code;
    assert b[14] == h[14] && b[20] == code[0] && b[21] == code[1] && b[23] == code[3];
  }

  lemma ZeroDatagramBytes(q: Ipv4Packet, n: nat) returns (front: Bytes)
    requires IsIpv4(q) && IsZeroDatagram(q, n)
    ensures |front| == 26 && EncodeIpv4(Bare, q) == front + ([0, 0] + Zeros(n))
  {
    var tail, ports := [0, 0] + Zeros(n), BigEndian16(q.l4.sport) + BigEndian16(q.l4.dport);
    assert EncodeL4(q.l4) == ports + (BigEndian16(8 + n) + tail);
    front := Ipv4Header(q) + (ports + BigEndian16(8 + n));
  }

  lemma ZeroByte(front: Bytes, n: nat, i: nat)
    requires |front| <= i < |front| + 2 + n
    ensures (front + ([0, 0] + Zeros(n)))[i] == 0
  {
    var tail := [0, 0] + Zeros(n);
    assert (front + tail)[i] == tail[i - |front|];
  }

  lemma ZeroWordAt(front: Bytes, n: nat, off: nat)
    requires |front| <= off && off + 4 <= |front| + 2 + n
    ensures WordAt(front + ([0, 0] + Zeros(n)), off) == 0
  {
    ZeroByte(front, n, off);
    ZeroByte(front, n, off + 1);
    ZeroByte(front, n, off + 2);
    ZeroByte(front, n, off + 3);
    var b := front + ([0, 0] + Zeros(n));
    assert b[off..off + 4] == Zeros4();
    ConstantWords();
  }

  lemma ZeroDatagramWords(q: Ipv4Packet, n: nat)
    requires IsIpv4(q) && IsZeroDatagram(q, n)
    ensures var b := EncodeIpv4(Bare, q);
            |b| == 28 + n && (n >= 6 ==> WordAt(b, 26) == 0 && WordAt(b, 30) == 0)
  {
    var front := ZeroDatagramBytes(q, n);
    if n >= 6 {
      ZeroWordAt(front, n, 26);
      ZeroWordAt(front, n, 30);
    }
  }

  // ----- IPv6, from any bytes -----

  /** An IPv6 header at `off` whose extension headers lead to a whole TCP or UDP header. */
  predicate Accepts6(b: Bytes, off: nat) {
    && off + 40 <= |b|
    && var walk := WalkExtensions(b, |b|, MALFORMED, b[off + 6], off + 40, 0);
       walk.Arrived? && ((walk.nexthdr == IPPROTO_TCP && walk.offset + 20 <= |b|)
                         || (walk.nexthdr == IPPROTO_UDP && walk.offset + 8 <= |b|))
  }

  function Published6(b: Bytes, off: nat): Option<Pair> {
    if Accepts6(b, off) then Some(Pair(IpAt(b, off + 8), IpAt(b, off + 24))) else None
  }

  function LookedUp6(b: Bytes, off: nat): Option<Pair> {
    if off + 40 > |b| then None else Some(Pair(IpAt(b, off + 24), IpAt(b, off + 8)))
  }

  predicate SameTwoAddresses(x: Option<Pair>, y: Option<Pair>) {
    x.Some? && y.Some? &&
    {Normalize(x.value.sip), Normalize(x.value.dip)} == {Normalize(y.value.sip), Normalize(y.value.dip)}
  }

  lemma SameIp(b: Bytes, off: nat, addr: Bytes)
    requires |addr| == 16 && off + 16 <= |b| && b[off..off + 16] == addr
    ensures IpAt(b, off) == IpAt(addr, 0)
  {
    SliceOfSlice(b, off, 16, 0, 4);
    SliceOfSlice(b, off, 16, 4, 8);
    SliceOfSlice(b, off, 16, 8, 12);
    SliceOfSlice(b, off, 16, 12, 16);
  }

  /** What the parser makes of an IPv6 header anywhere. */
  predicate ParsedAs6(b: Bytes, off: nat, parsed: Parsed) {
    && ((parsed.code == PARSED && parsed.ctx.l4proto != IPPROTO_ICMPV6) <==> Accepts6(b, off))
    && (Accepts6(b, off) ==> parsed.ctx.ip6 == ReadIp6(b, off) && parsed.ctx.ip4 == ZeroIp4())
  }

  lemma ParsesIffAccepts6(b: Bytes, off: nat, eth: Eth)
    ensures ParsedAs6(b, off, ReadIpv6(b, |b|, MALFORMED, true, EmptyCtx(eth), off))
  {
    if off + 40 <= |b| {
      var walk := WalkExtensions(b, |b|, MALFORMED, b[off + 6], off + 40, 0);
      if walk.Arrived? && !IsExtensionHeader(walk.nexthdr) {
        ParsedAfterWalk(b, off, eth, walk);
      } else {
        RefusedByWalk(b, off, eth, walk);
      }
    }
  }

  lemma ParsedAfterWalk(b: Bytes, off: nat, eth: Eth, walk: Walk)
    requires off + 40 <= |b| && walk == WalkExtensions(b, |b|, MALFORMED, b[off + 6], off + 40, 0)
    requires walk.Arrived? && !IsExtensionHeader(walk.nexthdr)
    ensures ParsedAs6(b, off, ReadIpv6(b, |b|, MALFORMED, true, EmptyCtx(eth), off))
  {
    var ctx := EmptyCtx(eth).(ip6 := ReadIp6(b, off), ihl := 10, l4proto := walk.nexthdr);
    L4Accepts(b, ctx, walk.offset);
    L4AfterWalk(b, off, eth, walk, ctx);
  }

  lemma L4AfterWalk(b: Bytes, off: nat, eth: Eth, walk: Walk, ctx: Ctx)
    requires off + 40 <= |b| && walk == WalkExtensions(b, |b|, MALFORMED, b[off + 6], off + 40, 0)
    requires walk.Arrived? && !IsExtensionHeader(walk.nexthdr)
    requires ctx == EmptyCtx(eth).(ip6 := ReadIp6(b, off), ihl := 10, l4proto := walk.nexthdr)
    ensures ReadIpv6(b, |b|, MALFORMED, true, EmptyCtx(eth), off) ==
            ReadL4(b, |b|, MALFORMED, true, ctx, walk.offset, ctx.l4proto, true)
  {
  }

  lemma RefusedByWalk(b: Bytes, off: nat, eth: Eth, walk: Walk)
    requires off + 40 <= |b| && walk == WalkExtensions(b, |b|, MALFORMED, b[off + 6], off + 40, 0)
    requires !(walk.Arrived? && !IsExtensionHeader(walk.nexthdr))
    ensures ParsedAs6(b, off, ReadIpv6(b, |b|, MALFORMED, true, EmptyCtx(eth), off))
  {
    WalkCodes(b, b[off + 6], off + 40, 0);
    RefusedCode(b, off, eth, walk);
    assert !Accepts6(b, off);
  }

  lemma RefusedCode(b: Bytes, off: nat, eth: Eth, walk: Walk)
    requires off + 40 <= |b| && walk == WalkExtensions(b, |b|, MALFORMED, b[off + 6], off + 40, 0)
    requires !(walk.Arrived? && !IsExtensionHeader(walk.nexthdr)) && (walk.Bad? ==> walk.code == MALFORMED)
    ensures ReadIpv6(b, |b|, MALFORMED, true, EmptyCtx(eth), off).code != PARSED
  {
  }

  lemma {:induction false} WalkCodes(b: Bytes, nexthdr: u8, offset: nat, i: nat)
    requires i <= IPV6_MAX_EXTENSIONS
    ensures var walk := WalkExtensions(b, |b|, MALFORMED, nexthdr, offset, i); walk.Bad? ==> walk.code == MALFORMED
    decreases IPV6_MAX_EXTENSIONS - i
  {
    if i < IPV6_MAX_EXTENSIONS {
      var hop := HopOver(b, |b|, MALFORMED, nexthdr, offset);
      if hop.Go? { WalkCodes(b, hop.nexthdr, hop.offset, i + 1); }
    }
  }

  lemma L4Accepts(b: Bytes, ctx: Ctx, off: nat)
    ensures var parsed := ReadL4(b, |b|, MALFORMED, true, ctx, off, ctx.l4proto, true);
            && parsed.ctx.ip6 == ctx.ip6 && parsed.ctx.ip4 == ctx.ip4 && parsed.ctx.l4proto == ctx.l4proto
            && ((parsed.code == PARSED && ctx.l4proto != IPPROTO_ICMPV6) <==>
                (ctx.l4proto == IPPROTO_TCP && off + 20 <= |b|) || (ctx.l4proto == IPPROTO_UDP && off + 8 <= |b|))
  {
  }

  lemma KeyOfHeader6(b: Bytes, off: nat, parsed: Parsed)
    requires ParsedAs6(b, off, parsed)
    ensures var w := Published6(b, off);
            KeyOfParsed(parsed, ETH_P_IPV6) == if w.None? then None else Some(Canonical(w.value))
  {
    if Accepts6(b, off) {
      SameIp(b, off + 8, parsed.ctx.ip6.saddr);
      SameIp(b, off + 24, parsed.ctx.ip6.daddr);
    }
  }

  lemma ForwardKey6(b: Bytes, linear: Option<nat>)
    ensures var w := Published6(b, DetectedLength(b, linear, ETH_P_IPV6));
            ForwardKey(b, linear, ETH_P_IPV6) == if w.None? then None else Some(Canonical(w.value))
  {
    var off := DetectedLength(b, linear, ETH_P_IPV6);
    var eth := ParseStarts(b, linear, ETH_P_IPV6);
    ParsesIffAccepts6(b, off, eth);
    KeyOfHeader6(b, off, ReadIpv6(b, |b|, MALFORMED, true, EmptyCtx(eth), off));
  }

  /** The same on any bytes for IPv6. */
  lemma Ipv6MeetsIff(forward: Bytes, linear: Option<nat>, reply: Bytes)
    ensures Meets(forward, linear, reply, ETH_P_IPV6) <==>
            SameTwoAddresses(Published6(forward, DetectedLength(forward, linear, ETH_P_IPV6)),
                             LookedUp6(reply, ReplyOffset(reply, ETH_P_IPV6)))
  {
    ForwardKey6(forward, linear);
    var x := Published6(forward, DetectedLength(forward, linear, ETH_P_IPV6));
    var y := LookedUp6(reply, ReplyOffset(reply, ETH_P_IPV6));
    if x.Some? && y.Some? {
      KeysMeetIff(x.value, y.value);
    }
  }

  // ----- IPv6 packets -----

  /** A bare packet whose source address is where an Ethernet type would say IPv6. */
  predicate LooksEthernet6(link: Link, p: Ipv6Packet)
    requires IsIpv6(p)
  {
    link.Bare? && p.src[4] == 0x86 && p.src[5] == 0xDD
  }

  lemma LooksLikeL2Iff6(link: Link, p: Ipv6Packet)
    requires IsLink(link) && IsIpv6(p)
    ensures LooksLikeL2(EncodeIpv6(link, p), ETH_P_IPV6) <==> link.Ethernet? || LooksEthernet6(link, p)
  {
    var b := EncodeIpv6(link, p);
    if link.Ethernet? {
      LinkDecodes(link, ETH_P_IPV6, Ipv6Header(p) + EncodeChain(p.chain, Protocol(p.l4), EncodeL4(p.l4)));
    } else {
      var h := Ipv6Header(p);
      assert b[12] == h[12] == p.src[4] && b[13] == h[13] == p.src[5];
    }
  }

  lemma Ipv6OffsetRightIff(link: Link, p: Ipv6Packet)
    requires IsLink(link) && IsIpv6(p)
    ensures ReplyOffset(EncodeIpv6(link, p), ETH_P_IPV6) == LinkLength(link) <==> !LooksEthernet6(link, p)
  {
    LooksLikeL2Iff6(link, p);
  }

  predicate StartsRight6(link: Link, p: Ipv6Packet, linear: Option<nat>)
    requires IsIpv6(p)
  {
    if link.Ethernet? then linear.Some? else linear.None? || !LooksEthernet6(link, p)
  }

  lemma Ipv6DetectionRightIff(link: Link, p: Ipv6Packet, linear: Option<nat>)
    requires IsLink(link) && IsIpv6(p) && Probed(EncodeIpv6(link, p), linear)
    ensures DetectedLength(EncodeIpv6(link, p), linear, ETH_P_IPV6) == LinkLength(link) <==>
            StartsRight6(link, p, linear)
  {
    LooksLikeL2Iff6(link, p);
  }

  function Addresses6(p: Ipv6Packet): Pair
    requires IsIpv6(p)
  {
    Pair(IpAt(p.src, 0), IpAt(p.dst, 0))
  }

  function Swapped(p: Pair): Pair { Pair(p.dip, p.sip) }

  lemma Ipv6RightLookup(link: Link, p: Ipv6Packet)
    requires IsLink(link) && IsIpv6(p)
    ensures LookedUp6(EncodeIpv6(link, p), LinkLength(link)) == Some(Swapped(Addresses6(p)))
  {
    var tail := EncodeChain(p.chain, Protocol(p.l4), EncodeL4(p.l4));
    var b, n := EncodeIpv6(link, p), LinkLength(link);
    Ipv6HeaderDecodes(LinkHeader(link, ETH_P_IPV6), p, tail);
    SameIp(b, n + 8, p.src);
    SameIp(b, n + 24, p.dst);
  }

  /** At the right offset a packet is published if it has at most eight extension headers. */
  lemma Ipv6RightPublish(link: Link, p: Ipv6Packet)
    requires IsLink(link) && IsIpv6(p)
    ensures Published6(EncodeIpv6(link, p), LinkLength(link)) ==
            if Extensions(p.chain) <= IPV6_MAX_EXTENSIONS then Some(Addresses6(p)) else None
  {
    var code, chain := EncodeL4(p.l4), EncodeChain(p.chain, Protocol(p.l4), EncodeL4(p.l4));
    var b, n := EncodeIpv6(link, p), LinkLength(link);
    Ipv6HeaderDecodes(LinkHeader(link, ETH_P_IPV6), p, chain);
    assert b[n + 40..] == chain;
    var walk := WalkDecodes(b, |b|, MALFORMED, n + 40, p.chain, 0, Protocol(p.l4), code);
    Ipv6RightLookup(link, p);
  }

  function PublishedPair(link: Link, p: Ipv6Packet, linear: Option<nat>): Option<Pair>
    requires IsLink(link) && IsIpv6(p)
  {
    if !StartsRight6(link, p, linear) then Published6(EncodeIpv6(link, p), ETH_HLEN - LinkLength(link))
    else if Extensions(p.chain) <= IPV6_MAX_EXTENSIONS then Some(Addresses6(p))
    else None
  }

  function LookedUpPair(link: Link, p: Ipv6Packet): Option<Pair>
    requires IsLink(link) && IsIpv6(p)
  {
    if !LooksEthernet6(link, p) then Some(Swapped(Addresses6(p))) else LookedUp6(EncodeIpv6(link, p), ETH_HLEN)
  }

  /** The same for every IPv6 packet, with any chain of extension headers. */
  lemma Ipv6ReplyMeetsForwardIff(there: Link, p: Ipv6Packet, linear: Option<nat>, back: Link, q: Ipv6Packet)
    requires IsLink(there) && IsIpv6(p) && Probed(EncodeIpv6(there, p), linear)
    requires IsLink(back) && IsIpv6(q) && q.src == p.dst && q.dst == p.src
    ensures Meets(EncodeIpv6(there, p), linear, EncodeIpv6(back, q), ETH_P_IPV6) <==>
            SameTwoAddresses(PublishedPair(there, p, linear), LookedUpPair(back, q))
    ensures StartsRight6(there, p, linear) && Extensions(p.chain) <= IPV6_MAX_EXTENSIONS && !LooksEthernet6(back, q) ==>
              Meets(EncodeIpv6(there, p), linear, EncodeIpv6(back, q), ETH_P_IPV6)
  {
    Ipv6MeetsIff(EncodeIpv6(there, p), linear, EncodeIpv6(back, q));
    Ipv6DetectionRightIff(there, p, linear);
    Ipv6RightPublish(there, p);
    Ipv6OffsetRightIff(back, q);
    Ipv6RightLookup(back, q);
  }

  predicate IsShort(p: Ipv6Packet) { p.chain == End && p.l4.UdpDatagram? && |p.l4.rest| < 10 }

  /** Every bare reply whose source looks like an Ethernet type, without extension headers
      and with less than six bytes of UDP payload, misses. */
  lemma Ipv6BareReplyMisses(there: Link, p: Ipv6Packet, linear: Option<nat>, q: Ipv6Packet)
    requires IsLink(there) && IsIpv6(p) && Probed(EncodeIpv6(there, p), linear)
    requires IsIpv6(q) && q.src == p.dst && q.dst == p.src && LooksEthernet6(Bare, q) && IsShort(q)
    ensures !Meets(EncodeIpv6(there, p), linear, EncodeIpv6(Bare, q), ETH_P_IPV6)
  {
    Ipv6ReplyMeetsForwardIff(there, p, linear, Bare, q);
    assert |EncodeIpv6(Bare, q)| == 44 + |q.l4.rest|;
  }

  /** Every such forward packet is refused, so no reply finds an entry. */
  lemma Ipv6BareForwardMisses(p: Ipv6Packet, linear: nat, back: Link, q: Ipv6Packet)
    requires IsIpv6(p) && Probed(EncodeIpv6(Bare, p), Some(linear)) && LooksEthernet6(Bare, p) && IsShort(p)
    requires IsLink(back) && IsIpv6(q) && q.src == p.dst && q.dst == p.src
    ensures !Meets(EncodeIpv6(Bare, p), Some(linear), EncodeIpv6(back, q), ETH_P_IPV6)
  {
    Ipv6ReplyMeetsForwardIff(Bare, p, Some(linear), back, q);
    assert |EncodeIpv6(Bare, p)| == 44 + |p.l4.rest|;
  }
}
