/** Byte strings and the network-order integers in them. */
module ByteStrings {
  import opened MatchSets

  type Bytes = seq<u8>

  function Word16(high: int, low: int): int { high * 0x100 + low }

  /** A 16-bit field in network order. */
  function U16(b: Bytes, off: nat): int
    requires off + 2 <= |b|
  {
    Word16(b[off], b[off + 1])
  }

  /** A 32-bit field in network order. */
  function U32(b: Bytes, off: nat): int
    requires off + 4 <= |b|
  {
    U16(b, off) * 0x10000 + U16(b, off + 2)
  }

  function BigEndian16(value: int): Bytes
    requires 0 <= value < 0x10000
  {
    [value / 0x100, value % 0x100]
  }

  function BigEndian32(value: int): Bytes
    requires 0 <= value < 0x1_0000_0000
  {
    BigEndian16(value / 0x10000) + BigEndian16(value % 0x10000)
  }

  lemma SliceOfSlice(b: Bytes, off: nat, len: nat, i: nat, j: nat)
    requires off + len <= |b| && i <= j <= len
    ensures b[off..off + len][i..j] == b[off + i..off + j]
  {
    var inner, outer := b[off..off + len][i..j], b[off + i..off + j];
    forall k | 0 <= k < j - i
      ensures inner[k] == outer[k]
    {
      assert inner[k] == b[off..off + len][i + k] == b[off + (i + k)];
    }
  }

  /** Where a string begins inside another, its bytes can be read off. */
  lemma Suffix(b: Bytes, at: nat, head: Bytes, tail: Bytes)
    requires at <= |b| && b[at..] == head + tail
    ensures at + |head| <= |b| && b[at + |head|..] == tail
    ensures forall k :: 0 <= k < |head| ==> b[at + k] == head[k]
  {
    var suffix := b[at..];
    assert suffix[|head|..] == tail;
    forall k | 0 <= k < |head|
      ensures b[at + k] == head[k]
    {
      assert suffix[k] == b[at + k];
    }
  }
}
