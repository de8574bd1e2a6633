/** Addresses as the bits that a trie compares, and CIDRs as its prefixes: which addresses of
    either family a CIDR matches. */
module AddressBits {
  import opened MatchSets
  import opened ByteStrings
  import opened PacketParser

  // ----- Addresses as bits -----

  /** The lowest `n` bits of a number, most significant first. */
  function LowBits(x: nat, n: nat): (bits: Bits)
    ensures |bits| == n
  {
    if n == 0 then [] else LowBits(x / 2, n - 1) + [x % 2 == 1]
  }

  function Bound(n: nat): nat { if n == 0 then 1 else 2 * Bound(n - 1) }

  lemma {:induction false} LowBitsInjective(x: nat, y: nat, n: nat)
    requires x < Bound(n) && y < Bound(n) && LowBits(x, n) == LowBits(y, n)
    ensures x == y
  {
    if n > 0 {
      var s, t := LowBits(x, n), LowBits(y, n);
      assert s[n - 1] == (x % 2 == 1) && t[n - 1] == (y % 2 == 1);
      assert s[..n - 1] == LowBits(x / 2, n - 1) && t[..n - 1] == LowBits(y / 2, n - 1);
      LowBitsInjective(x / 2, y / 2, n - 1);
    }
  }

  /** The order in which an LPM trie reads a key. */
  function BitsOf(b: Bytes): (bits: Bits)
    ensures |bits| == 8 * |b|
  {
    if b == [] then [] else LowBits(b[0], 8) + BitsOf(b[1..])
  }

  lemma {:induction false} BitsOfConcat(a: Bytes, b: Bytes)
    ensures BitsOf(a + b) == BitsOf(a) + BitsOf(b)
  {
    if a == [] {
      assert a + b == b;
    } else {
      assert (a + b)[1..] == a[1..] + b;
      BitsOfConcat(a[1..], b);
    }
  }

  lemma {:induction false} BitsOfInjective(a: Bytes, b: Bytes)
    requires |a| == |b| && BitsOf(a) == BitsOf(b)
    ensures a == b
  {
    if a != [] {
      var s, t := BitsOf(a), BitsOf(b);
      assert s[..8] == LowBits(a[0], 8) && t[..8] == LowBits(b[0], 8);
      assert s[8..] == BitsOf(a[1..]) && t[8..] == BitsOf(b[1..]);
      assert Bound(8) == 0x100 by {
        assert Bound(4) == 16;
      }
      LowBitsInjective(a[0], b[0], 8);
      BitsOfInjective(a[1..], b[1..]);
      assert a == [a[0]] + a[1..] && b == [b[0]] + b[1..];
    }
  }

  // ----- CIDRs as trie prefixes -----

  datatype Cidr = V4(addr: Bytes, length: nat) | V6(addr: Bytes, length: nat)

  predicate IsCidr(c: Cidr) {
    if c.V4? then |c.addr| == 4 && c.length <= 32 else |c.addr| == 16 && c.length <= 128
  }

  predicate IsAddress(a: Bytes) { |a| == 4 || |a| == 16 }

  /** The 16 bytes under which an address is looked up. */
  function Wide(a: Bytes): Bytes { if |a| == 4 then Mapped(a) else a }

  /** The prefix length that goes with them. */
  function WideLength(c: Cidr): nat { if c.V4? then c.length + 96 else c.length }

  /** The prefix that the control plane writes for a CIDR. */
  function Prefix(c: Cidr): Bits
    requires IsCidr(c)
  {
    BitsOf(Wide(c.addr))[..WideLength(c)]
  }

  /** The addresses begin with the same `length` bits. */
  predicate SameStart(a: Bytes, b: Bytes, length: nat)
    requires |a| == |b| && length <= 8 * |a|
  {
    BitsOf(a)[..length] == BitsOf(b)[..length]
  }

  const MAPPED: Bytes := [0, 0, 0, 0, 0, 0, 0, 0, 0, 0, 0xFF, 0xFF]

  /** A CIDR of an address's own family matches it as written. An IPv4 CIDR matches those
      IPv6 addresses that are mapped IPv4 addresses inside it, an IPv6 CIDR those IPv4
      addresses whose mapped form is inside it. */
  predicate Matches(c: Cidr, a: Bytes)
    requires IsCidr(c) && IsAddress(a)
  {
    if |a| == |c.addr| then SameStart(a, c.addr, c.length)
    else if c.V4? then a[..12] == MAPPED && SameStart(a[12..], c.addr, c.length)
    else if c.length <= 96 then SameStart(MAPPED, c.addr[..12], c.length)
    else c.addr[..12] == MAPPED && SameStart(a, c.addr[12..], c.length - 96)
  }

  lemma TakePair(s: Bits, t: Bits, u: Bits, v: Bits, length: nat)
    requires |s| == |t| && |u| == |v| && length <= |s| + |u|
    ensures length <= |s| ==> ((s + u)[..length] == (t + v)[..length] <==> s[..length] == t[..length])
    ensures length >= |s| ==>
              ((s + u)[..length] == (t + v)[..length] <==> s == t && u[..length - |s|] == v[..length - |s|])
  {
    if length <= |s| {
      assert (s + u)[..length] == s[..length] && (t + v)[..length] == t[..length];
    }
    if length >= |s| {
      var rest := length - |s|;
      assert (s + u)[..length] == s + u[..rest] && (t + v)[..length] == t + v[..rest];
      assert (s + u[..rest])[..|s|] == s && (t + v[..rest])[..|s|] == t;
      assert (s + u[..rest])[|s|..] == u[..rest] && (t + v[..rest])[|s|..] == v[..rest];
    }
  }

  /** Agreeing on more than the first part means agreeing on that part and on the start of
      the rest. */
  lemma StartOfPair(a: Bytes, b: Bytes, n: nat, length: nat)
    requires |a| == |b| && n <= |a| && length <= 8 * |a|
    ensures length <= 8 * n ==> (SameStart(a, b, length) <==> SameStart(a[..n], b[..n], length))
    ensures length >= 8 * n ==>
              (SameStart(a, b, length) <==> a[..n] == b[..n] && SameStart(a[n..], b[n..], length - 8 * n))
  {
    assert a == a[..n] + a[n..] && b == b[..n] + b[n..];
    BitsOfConcat(a[..n], a[n..]);
    BitsOfConcat(b[..n], b[n..]);
    TakePair(BitsOf(a[..n]), BitsOf(b[..n]), BitsOf(a[n..]), BitsOf(b[n..]), length);
    if BitsOf(a[..n]) == BitsOf(b[..n]) {
      BitsOfInjective(a[..n], b[..n]);
    }
  }

  lemma PrefixIffStart(a: Bytes, b: Bytes, length: nat)
    requires |a| == |b| && length <= 8 * |a|
    ensures BitsOf(b)[..length] <= BitsOf(a) <==> SameStart(a, b, length)
  {
  }

  lemma MappedParts(a: Bytes)
    requires |a| == 4
    ensures |Mapped(a)| == 16 && Mapped(a)[..12] == MAPPED && Mapped(a)[12..] == a
  {
  }

  /** A trie entry is found under an address exactly when its CIDR matches the address. */
  lemma PrefixHitIff(c: Cidr, a: Bytes)
    requires IsCidr(c) && IsAddress(a)
    ensures Prefix(c) <= BitsOf(Wide(a)) <==> Matches(c, a)
  {
    var wide, length := Wide(c.addr), WideLength(c);
    PrefixIffStart(Wide(a), wide, length);
    if |a| == 4 { MappedParts(a); }
    if c.V4? {
      MappedParts(c.addr);
      StartOfV4(c, a, Wide(a), wide);
    } else {
      StartOfV6(c, a, Wide(a));
    }
  }

  lemma StartOfV4(c: Cidr, a: Bytes, key: Bytes, wide: Bytes)
    requires c.V4? && IsCidr(c) && IsAddress(a) && |key| == |wide| == 16
    requires if |a| == 4 then key[..12] == MAPPED && key[12..] == a else key == a
    requires wide[..12] == MAPPED && wide[12..] == c.addr
    ensures SameStart(key, wide, WideLength(c)) <==> Matches(c, a)
  {
    StartOfPair(key, wide, 12, c.length + 96);
  }

  lemma StartOfV6(c: Cidr, a: Bytes, key: Bytes)
    requires c.V6? && IsCidr(c) && IsAddress(a) && |key| == 16
    requires if |a| == 4 then key[..12] == MAPPED && key[12..] == a else key == a
    ensures SameStart(key, c.addr, WideLength(c)) <==> Matches(c, a)
  {
    if |a| == 4 {
      StartOfPair(key, c.addr, 12, WideLength(c));
    }
  }

  function Padding(): Bytes { [0, 0, 0, 0, 0, 0, 0, 0, 0, 0] }

  predicate AllZero(s: Bits) { forall k :: 0 <= k < |s| ==> !s[k] }

  /** An IPv6 CIDR no longer than 96 bits matches either every IPv4 address or none. */
  lemma ShortV6MatchesAllOrNone(c: Cidr, a: Bytes, b: Bytes)
    requires IsCidr(c) && c.V6? && c.length <= 96 && |a| == |b| == 4
    ensures Prefix(c) <= BitsOf(Wide(a)) <==> Prefix(c) <= BitsOf(Wide(b))
  {
    PrefixHitIff(c, a);
    PrefixHitIff(c, b);
  }

  /** One of at most 80 bits, such as `::/0`, matches them all exactly when its bits are zero. */
  lemma ShortV6MatchesIpv4Iff(c: Cidr, a: Bytes)
    requires IsCidr(c) && c.V6? && c.length <= 80 && |a| == 4
    ensures Prefix(c) <= BitsOf(Wide(a)) <==> AllZero(BitsOf(c.addr)[..c.length])
  {
    assert Mapped(a)[..10] == Padding();
    ZeroBits(Padding());
    PrefixIffStart(Mapped(a), c.addr, c.length);
    BitsOfConcat(Padding(), Mapped(a)[10..]);
    assert Mapped(a) == Padding() + Mapped(a)[10..];
    ZeroStart(BitsOf(Mapped(a)), BitsOf(c.addr), c.length);
  }

  lemma ZeroStart(s: Bits, t: Bits, n: nat)
    requires n <= |s| && n <= |t| && AllZero(s[..n])
    ensures s[..n] == t[..n] <==> AllZero(t[..n])
  {
  }

  lemma {:induction false} ZeroBits(a: Bytes)
    requires forall k :: 0 <= k < |a| ==> a[k] == 0
    ensures AllZero(BitsOf(a))
  {
    if a != [] {
      ZeroLowBits(8);
      ZeroBits(a[1..]);
    }
  }

  lemma {:induction false} ZeroLowBits(n: nat)
    ensures AllZero(LowBits(0, n))
  {
    if n > 0 { ZeroLowBits(n - 1); }
  }
}
