/** The routing tables that userspace writes and the kernel datapath reads:
    match sets, LPM tries and domain bitmaps, together with the constants that
    both sides share. */
module MatchSets {

  const MAX_MATCH_SET_LEN: nat := 1024
  const EPOCH_SLOT_NUM: nat := 2

  /** Where entry `index` of an epoch slot lives in the routing map and in the LPM array. */
  function Key(slot: nat, index: nat): nat { slot * MAX_MATCH_SET_LEN + index }

  type u8 = x: int | 0 <= x < 0x100
  type u32 = x: int | 0 <= x < 0x1_0000_0000

  const OUTBOUND_DIRECT: u8 := 0x00
  const OUTBOUND_BLOCK: u8 := 0x01
  const OUTBOUND_MUST_RULES: u8 := 0xFC
  const OUTBOUND_LOGICAL_OR: u8 := 0xFE
  const OUTBOUND_LOGICAL_AND: u8 := 0xFF
  const OUTBOUND_LOGICAL_MASK: u8 := 0xFE

  /** An address (or a MAC padded to 16 bytes) as its bits, most significant first. */
  type Bits = seq<bool>

  /** An LPM trie is the set of its prefixes; a lookup with a full-length key
      succeeds when some stored prefix is a prefix of the key. */
  type Trie = set<Bits>

  predicate TrieHit(trie: Trie, key: Bits) {
    exists p :: p in trie && p <= key
  }

  /** A 32-bit word as its bits, least significant first. */
  type Word = w: seq<bool> | |w| == 32 witness seq(32, _ => false)

  function ZeroWord(): Word { seq(32, _ => false) }

  /** One bit per match set, packed in 32 words. */
  type Bitmap = b: seq<Word> | |b| == 32 witness seq(32, _ => ZeroWord())

  datatype DomainKey = DomainKey(slot: nat, addr: Bits)

  datatype Name16 = Name16(lo: int, hi: int)

  /** The typed union inside a match set. `Other` stands for every type code
      that the kernel does not evaluate. */
  datatype MatchKind =
    | DomainSet
    | IpSet(trie: nat)
    | SourceIpSet(trie: nat)
    | Port(first: nat, last: nat)
    | SourcePort(first: nat, last: nat)
    | L4Proto(mask: u8)
    | IpVersion(mask: u8)
    | Mac(trie: nat)
    | ProcessName(name: Name16)
    | Dscp(value: u8)
    | Fallback
    | Other(code: u8)

  datatype MatchSet = MatchSet(kind: MatchKind, negated: bool, outbound: u8, must: bool, mark: u32)

  /** `MatchSet::zeroed()`: type code 0 is a domain set and outbound 0 is direct. */
  const ZERO_MATCH_SET: MatchSet := MatchSet(DomainSet, false, OUTBOUND_DIRECT, false, 0)

  /** What one packet contributes to a `route()` call. */
  datatype Query = Query(
    l4proto: u8, ipVersion: u8, pname: Name16, isWan: bool, dscp: u8,
    sport: nat, dport: nat, saddr: Bits, daddr: Bits, mac: Bits)

  /** The maps that evaluating a match set may read. */
  datatype Tables = Tables(lpm: map<nat, Trie>, domain: map<DomainKey, Bitmap>)

  datatype Option<+T> = None | Some(value: T)
}
