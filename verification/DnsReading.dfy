/** What the DNS readers accept: on any bytes, a reader succeeds exactly when the bytes are the
    encoding of what it returns. */
module DnsReading {
  import opened MatchSets
  import opened ByteStrings
  import opened DnsWire
  import opened DnsEncoding

  // ----- UTF-8 -----

  /** A Unicode scalar value: a code point that is not a surrogate. */
  predicate IsScalar(c: int) { 0 <= c < 0xD800 || 0xE000 <= c < 0x110000 }

  /** RFC 3629, section 3. */
  function Utf8(c: int): Bytes
    requires IsScalar(c)
  {
    if c < 0x80 then [c]
    else if c < 0x800 then [0xC0 + c / 0x40, 0x80 + c % 0x40]
    else if c < 0x10000 then [0xE0 + c / 0x1000, 0x80 + c / 0x40 % 0x40, 0x80 + c % 0x40]
    else [0xF0 + c / 0x40000, 0x80 + c / 0x1000 % 0x40, 0x80 + c / 0x40 % 0x40, 0x80 + c % 0x40]
  }

  predicate AreScalars(cs: seq<int>) { forall i :: 0 <= i < |cs| ==> IsScalar(cs[i]) }

  function EncodeText(cs: seq<int>): Bytes
    requires AreScalars(cs)
  {
    if cs == [] then [] else Utf8(cs[0]) + EncodeText(cs[1..])
  }

  lemma ScalarIsStep(c: int, rest: Bytes)
    requires IsScalar(c)
    ensures Utf8Step(Utf8(c) + rest) == |Utf8(c)|
  {
    var b := Utf8(c) + rest;
    assert b[..|Utf8(c)|] == Utf8(c);
    assert b[0] == Utf8(c)[0];
    assert |Utf8(c)| > 1 ==> b[1] == Utf8(c)[1];
    assert |Utf8(c)| > 2 ==> b[2] == Utf8(c)[2];
    assert |Utf8(c)| > 3 ==> b[3] == Utf8(c)[3];
  }

  lemma StepIsScalar(b: Bytes) returns (c: int)
    requires |b| > 0 && Utf8Step(b) > 0
    ensures IsScalar(c) && Utf8(c) == b[..Utf8Step(b)]
  {
    var n := Utf8Step(b);
    if n == 1 {
      c := b[0];
    } else if n == 2 {
      c := TwoBytes(b[0], b[1]);
      assert b[..2] == [b[0], b[1]];
    } else if n == 3 {
      c := ThreeBytes(b[0], b[1], b[2]);
      assert b[..3] == [b[0], b[1], b[2]];
    } else {
      c := FourBytes(b[0], b[1], b[2], b[3]);
      assert b[..4] == [b[0], b[1], b[2], b[3]];
    }
  }

  lemma TwoBytes(x: int, y: int) returns (c: int)
    requires 0xC2 <= x <= 0xDF && 0x80 <= y <= 0xBF
    ensures IsScalar(c) && Utf8(c) == [x, y]
  {
    c := (x - 0xC0) * 0x40 + (y - 0x80);
    assert c / 0x40 == x - 0xC0 && c % 0x40 == y - 0x80;
  }

  lemma ThreeBytes(x: int, y: int, z: int) returns (c: int)
    requires 0xE0 <= x <= 0xEF && 0x80 <= y <= 0xBF && 0x80 <= z <= 0xBF
    requires (x == 0xE0 ==> y >= 0xA0) && (x == 0xED ==> y <= 0x9F)
    ensures IsScalar(c) && Utf8(c) == [x, y, z]
  {
    var high := (x - 0xE0) * 0x40 + (y - 0x80);
    c := high * 0x40 + (z - 0x80);
    assert c / 0x40 == high && c % 0x40 == z - 0x80;
    assert high / 0x40 == x - 0xE0 && high % 0x40 == y - 0x80;
    assert c / 0x1000 == high / 0x40;
  }

  lemma FourBytes(x: int, y: int, z: int, w: int) returns (c: int)
    requires 0xF0 <= x <= 0xF4 && 0x80 <= y <= 0xBF && 0x80 <= z <= 0xBF && 0x80 <= w <= 0xBF
    requires (x == 0xF0 ==> y >= 0x90) && (x == 0xF4 ==> y <= 0x8F)
    ensures IsScalar(c) && Utf8(c) == [x, y, z, w]
  {
    var top := (x - 0xF0) * 0x40 + (y - 0x80);
    var high := top * 0x40 + (z - 0x80);
    c := high * 0x40 + (w - 0x80);
    assert c / 0x40 == high && c % 0x40 == w - 0x80;
    assert high / 0x40 == top && high % 0x40 == z - 0x80;
    assert top / 0x40 == x - 0xF0 && top % 0x40 == y - 0x80;
    assert c / 0x1000 == top && c / 0x40000 == x - 0xF0;
  }

  /** Text is accepted exactly when it is the encoding of scalar values. */
  lemma Utf8Iff(b: Bytes)
    ensures IsUtf8(b) <==> exists cs :: AreScalars(cs) && EncodeText(cs) == b
  {
    if IsUtf8(b) {
      var cs := Utf8Decodes(b);
    }
    if cs :| AreScalars(cs) && EncodeText(cs) == b {
      Utf8Accepts(cs);
    }
  }

  lemma {:induction false} Utf8Decodes(b: Bytes) returns (cs: seq<int>)
    requires IsUtf8(b)
    ensures AreScalars(cs) && EncodeText(cs) == b
    decreases |b|
  {
    if |b| == 0 {
      cs := [];
    } else {
      var n := Utf8Step(b);
      var c := StepIsScalar(b);
      var rest := Utf8Decodes(b[n..]);
      cs := [c] + rest;
      assert cs[1..] == rest && b == b[..n] + b[n..];
    }
  }

  lemma {:induction false} Utf8Accepts(cs: seq<int>)
    requires AreScalars(cs)
    ensures IsUtf8(EncodeText(cs))
  {
    if cs != [] {
      var rest := EncodeText(cs[1..]);
      ScalarIsStep(cs[0], rest);
      Utf8Accepts(cs[1..]);
      assert (Utf8(cs[0]) + rest)[|Utf8(cs[0])|..] == rest;
    }
  }

  // ----- Names -----

  /** A capital letter and its small one. */
  predicate CasePair(upper: int, lower: int) { 0x41 <= upper <= 0x5A && lower == upper + 0x20 }

  /** Folding case identifies a letter with the other case of the same letter and nothing else. */
  lemma LowerIdentifiesIff(c: u8, d: u8)
    ensures LowerByte(c) == LowerByte(d) <==> c == d || CasePair(c, d) || CasePair(d, c)
  {
  }

  /** A question name is read exactly when it is the encoding of labels that are text, and
      they are returned in lower case. */
  lemma ReadNameIff(b: Bytes, pos: nat, name: Name)
    requires pos <= |b|
    ensures ReadName(b, pos) == Some(name) <==>
            name.end <= |b| && exists n :: Spells(b, pos, name.end, n) && IsPlain(n) && LabelsOf(n) == name.labels
  {
    if ReadName(b, pos) == Some(name) {
      var n := NameIsPlain(b, pos);
    }
    if name.end <= |b| {
      forall n | Spells(b, pos, name.end, n) && IsPlain(n) && LabelsOf(n) == name.labels
        ensures ReadName(b, pos) == Some(name)
      {
        var end := NameReads(b, pos, n, b[name.end..]);
        assert |b[end..]| == |b[name.end..]|;
      }
    }
  }

  /** The bytes from `pos` to `end` are the encoding of a name. */
  predicate Spells(b: Bytes, pos: nat, end: nat, n: WireName)
    requires pos <= |b| && end <= |b|
  {
    IsName(n) && b[pos..] == EncodeName(n) + b[end..]
  }

  lemma {:induction false} NameIsPlain(b: Bytes, pos: nat) returns (n: WireName)
    requires pos <= |b| && ReadName(b, pos).Some?
    ensures var name := ReadName(b, pos).value;
            Spells(b, pos, name.end, n) && IsPlain(n) && LabelsOf(n) == name.labels
    decreases |b| - pos
  {
    if b[pos] == 0 {
      n := Root;
      assert b[pos..] == [0] + b[pos + 1..];
    } else {
      var next := pos + 1 + b[pos];
      var rest := NameIsPlain(b, next);
      n := Labelled(b[pos + 1..next], rest);
      LabelSpells(b, pos, next, ReadName(b, pos).value.end, rest);
    }
  }

  lemma LabelSpells(b: Bytes, pos: nat, next: nat, end: nat, rest: WireName)
    requires pos < |b| && 0 < b[pos] <= 63 && next == pos + 1 + b[pos] <= |b|
    requires end <= |b| && Spells(b, next, end, rest)
    ensures Spells(b, pos, end, Labelled(b[pos + 1..next], rest))
  {
    var n := Labelled(b[pos + 1..next], rest);
    assert b[pos..] == [b[pos]] + b[pos + 1..next] + b[next..];
    assert EncodeName(n) + b[end..] == [b[pos]] + b[pos + 1..next] + (EncodeName(rest) + b[end..]);
  }

  /** A name is skipped, to a place inside the message, exactly when it is the encoding of any
      labels up to the root or a pointer. */
  lemma SkipNameIff(b: Bytes, pos: nat, end: nat)
    requires pos <= |b| && end <= |b|
    ensures SkipName(b, pos) == Some(end) <==> exists n :: Spells(b, pos, end, n)
  {
    if SkipName(b, pos) == Some(end) {
      var n := SkippedIsName(b, pos, end);
    }
    forall n | Spells(b, pos, end, n)
      ensures SkipName(b, pos) == Some(end)
    {
      var at := NameEnds(b, pos, n, b[end..]);
      assert |b[at..]| == |b[end..]|;
    }
  }

  lemma {:induction false} SkippedIsName(b: Bytes, pos: nat, end: nat) returns (n: WireName)
    requires pos <= |b| && SkipName(b, pos) == Some(end) && end <= |b|
    ensures Spells(b, pos, end, n)
    decreases |b| - pos
  {
    if b[pos] == 0 {
      n := Root;
      assert b[pos..] == [0] + b[pos + 1..];
    } else if b[pos] >= 0xC0 {
      n := Pointer(b[pos], b[pos + 1]);
      assert b[pos..] == [b[pos], b[pos + 1]] + b[pos + 2..];
    } else {
      var next := pos + 1 + b[pos];
      var rest := SkippedIsName(b, next, end);
      n := Labelled(b[pos + 1..next], rest);
      LabelSpells(b, pos, next, end, rest);
    }
  }

  // ----- Records -----

  lemma Write16(b: Bytes, off: nat)
    requires off + 2 <= |b|
    ensures 0 <= U16(b, off) < 0x10000 && BigEndian16(U16(b, off)) == b[off..off + 2]
  {
    assert U16(b, off) / 0x100 == b[off] && U16(b, off) % 0x100 == b[off + 1];
  }

  lemma Write32(b: Bytes, off: nat)
    requires off + 4 <= |b|
    ensures 0 <= U32(b, off) < 0x1_0000_0000 && BigEndian32(U32(b, off)) == b[off..off + 4]
  {
    Write16(b, off);
    Write16(b, off + 2);
    assert U32(b, off) / 0x10000 == U16(b, off) && U32(b, off) % 0x10000 == U16(b, off + 2);
    assert b[off..off + 4] == b[off..off + 2] + b[off + 2..off + 4];
  }

  /** A record's fixed fields and data are inside the message. */
  predicate IsRr(b: Bytes, r: Rr) { r.at + 10 <= |b| && r.at + 10 + U16(b, r.at + 8) == r.next <= |b| }

  /** The record that the bytes at a place are the encoding of. */
  function RecordAt(b: Bytes, r: Rr, name: WireName, rest: Records): Records
    requires IsRr(b, r)
  {
    Record(name, U16(b, r.at), (b[r.at + 2], b[r.at + 3]), U32(b, r.at + 4), b[r.at + 10..r.next], rest)
  }

  /** A record is read exactly where its name, its fixed fields and its data are. */
  lemma ReadRecordIff(b: Bytes, pos: nat, r: Rr)
    requires pos <= |b| && IsRr(b, r)
    ensures ReadRecord(b, pos) == Some(r) <==> exists n :: Spells(b, pos, r.at, n)
  {
    SkipNameIff(b, pos, r.at);
  }

  lemma FixedAt(b: Bytes, r: Rr, name: WireName, rest: Records)
    requires IsRr(b, r) && IsName(name) && AreRecords(rest)
    ensures AreRecords(RecordAt(b, r, name, rest)) && FixedFields(RecordAt(b, r, name, rest)) == b[r.at..r.at + 10]
  {
    var rs, at := RecordAt(b, r, name, rest), r.at;
    Write16(b, at);
    Write32(b, at + 4);
    Write16(b, at + 8);
    assert FixedFields(rs) == b[at..at + 2] + b[at + 2..at + 4] + b[at + 4..at + 8] + b[at + 8..at + 10];
  }

  lemma InThree(b: Bytes, at: nat, middle: nat, next: nat)
    requires at <= middle <= next <= |b|
    ensures b[at..] == b[at..middle] + (b[middle..next] + b[next..])
  {
  }

  /** One record and then others. */
  lemma RecordSpells(b: Bytes, pos: nat, r: Rr, name: WireName, rest: Records, end: nat)
    requires IsRr(b, r) && end <= |b| && pos <= |b| && Spells(b, pos, r.at, name)
    requires AreRecords(rest) && b[r.next..] == EncodeRecords(rest) + b[end..]
    ensures var rs := RecordAt(b, r, name, rest); AreRecords(rs) && b[pos..] == EncodeRecords(rs) + b[end..]
  {
    FixedAt(b, r, name, rest);
    InThree(b, r.at, r.at + 10, r.next);
    RecordSplits(RecordAt(b, r, name, rest), b[end..]);
  }

  /** That many records are read one after the other. */
  predicate Reads(b: Bytes, pos: nat, n: nat)
    decreases n
  {
    n == 0 || (ReadRecord(b, pos).Some? && Reads(b, ReadRecord(b, pos).value.next, n - 1))
  }

  lemma {:induction false} RecordsAreEncoded(b: Bytes, pos: nat, n: nat) returns (rs: Records, end: nat)
    requires pos <= |b| && Reads(b, pos, n)
    ensures AreRecords(rs) && Count(rs) == n && end <= |b| && b[pos..] == EncodeRecords(rs) + b[end..]
    ensures LaidOut(b, pos, rs, end)
    decreases n
  {
    if n == 0 {
      rs, end := NoRecords, pos;
      assert b[pos..] == EncodeRecords(rs) + b[pos..];
    } else {
      var r := ReadRecord(b, pos).value;
      var name := SkippedIsName(b, pos, r.at);
      var rest;
      rest, end := RecordsAreEncoded(b, r.next, n - 1);
      rs := RecordAt(b, r, name, rest);
      RecordSpells(b, pos, r, name, rest, end);
      var last := RecordsLaidOut(b, pos, rs, b[end..]);
      assert |b[last..]| == |b[end..]|;
    }
  }

  /** How many records there are. */
  lemma {:induction false} AllRecords(b: Bytes, pos: nat) returns (n: nat)
    ensures Reads(b, pos, n) && !Reads(b, pos, n + 1)
    decreases |b| - pos
  {
    if ReadRecord(b, pos).None? {
      n := 0;
    } else {
      var rest := AllRecords(b, ReadRecord(b, pos).value.next);
      n := rest + 1;
    }
  }

  /** Every byte string is a list of records, and then something that is not one; the EDNS
      scan finds the first OPT of the list. */
  lemma EdnsOfAnyBytes(b: Bytes, pos: nat) returns (rs: Records, end: nat)
    requires pos <= |b|
    ensures AreRecords(rs) && end <= |b| && b[pos..] == EncodeRecords(rs) + b[end..] && ReadRecord(b, end).None?
    ensures Edns(b, pos) == EdnsOf(rs)
  {
    var n := AllRecords(b, pos);
    rs, end := RecordsAreEncoded(b, pos, n);
    StopsAt(b, pos, rs, end, n);
    EdnsStops(b, pos, rs, end);
  }

  lemma {:induction false} StopsAt(b: Bytes, pos: nat, rs: Records, end: nat, n: nat)
    requires LaidOut(b, pos, rs, end) && Count(rs) == n && !Reads(b, pos, n + 1)
    ensures ReadRecord(b, end).None?
    decreases rs
  {
    if rs.Record? {
      StopsAt(b, ReadRecord(b, pos).value.next, rs.rest, end, n - 1);
    }
  }

  lemma {:induction false} EdnsStops(b: Bytes, pos: nat, rs: Records, end: nat)
    requires LaidOut(b, pos, rs, end) && ReadRecord(b, end).None?
    ensures Edns(b, pos) == EdnsOf(rs)
    decreases rs
  {
    if rs.Record? {
      EdnsStops(b, ReadRecord(b, pos).value.next, rs.rest, end);
    }
  }

  // ----- Questions and times -----

  lemma {:induction false} QuestionsAreEncoded(b: Bytes, pos: nat, n: nat) returns (qs: Questions)
    requires pos <= |b| && SkipQuestions(b, pos, n).Some?
    ensures AreQuestions(qs) && CountQuestions(qs) == n && SkipQuestions(b, pos, n).value <= |b|
    ensures b[pos..] == EncodeQuestions(qs) + b[SkipQuestions(b, pos, n).value..]
    decreases n
  {
    if n == 0 {
      qs := NoQuestions;
      assert b[pos..] == EncodeQuestions(qs) + b[pos..];
    } else {
      var at := SkipName(b, pos).value;
      var name := SkippedIsName(b, pos, at);
      var rest := QuestionsAreEncoded(b, at + 4, n - 1);
      qs := QuestionSpells(b, pos, at, name, rest, SkipQuestions(b, at + 4, n - 1).value);
    }
  }

  lemma QuestionSpells(b: Bytes, pos: nat, at: nat, name: WireName, rest: Questions, end: nat) returns (qs: Questions)
    requires pos <= |b| && at + 4 <= |b| && end <= |b| && Spells(b, pos, at, name)
    requires AreQuestions(rest) && b[at + 4..] == EncodeQuestions(rest) + b[end..]
    ensures AreQuestions(qs) && CountQuestions(qs) == 1 + CountQuestions(rest)
    ensures b[pos..] == EncodeQuestions(qs) + b[end..]
  {
    var x, y := b[at..at + 2], b[at + 2..at + 4];
    qs := QuestionCode(b, at, name, rest);
    InThree(b, at, at + 2, at + 4);
    Regroup(EncodeName(name), x, y, EncodeQuestions(rest), b[end..]);
  }

  lemma QuestionCode(b: Bytes, at: nat, name: WireName, rest: Questions) returns (qs: Questions)
    requires at + 4 <= |b| && IsName(name) && AreQuestions(rest)
    ensures AreQuestions(qs) && CountQuestions(qs) == 1 + CountQuestions(rest)
    ensures EncodeQuestions(qs) == EncodeName(name) + ((b[at..at + 2] + b[at + 2..at + 4]) + EncodeQuestions(rest))
  {
    Write16(b, at);
    Write16(b, at + 2);
    qs := Question(name, U16(b, at), U16(b, at + 2), rest);
  }

  lemma Regroup(name: Bytes, x: Bytes, y: Bytes, rest: Bytes, tail: Bytes)
    ensures name + ((x + y) + rest) + tail == name + (x + (y + (rest + tail)))
  {
  }

  lemma {:induction false} LeastNeedsAll(b: Bytes, pos: nat, n: nat)
    requires n > 0
    ensures LeastTtl(b, pos, n).Some? <==> Reads(b, pos, n)
    decreases n
  {
    if n > 1 && ReadRecord(b, pos).Some? {
      LeastNeedsAll(b, ReadRecord(b, pos).value.next, n - 1);
    }
  }

  /** The least TTL is returned exactly when that many records are there. */
  lemma AnswersAreEncoded(b: Bytes, pos: nat, n: nat) returns (rs: Records, end: nat)
    requires pos <= |b| && n > 0 && LeastTtl(b, pos, n).Some?
    ensures AreRecords(rs) && Count(rs) == n && end <= |b| && b[pos..] == EncodeRecords(rs) + b[end..]
    ensures LeastTtl(b, pos, n) == Some(LeastOf(rs))
  {
    LeastNeedsAll(b, pos, n);
    rs, end := RecordsAreEncoded(b, pos, n);
    LeastReads(b, pos, rs, end);
  }

  predicate HasTtl(rs: Records, ttl: int) { rs.Record? && (rs.ttl == ttl || HasTtl(rs.rest, ttl)) }

  /** The time of some records is that of one of them, and none has less. */
  lemma {:induction false} LeastIsLeast(rs: Records, ttl: int)
    requires rs.Record?
    ensures HasTtl(rs, LeastOf(rs)) && (HasTtl(rs, ttl) ==> LeastOf(rs) <= ttl)
  {
    if rs.rest.Record? {
      LeastIsLeast(rs.rest, ttl);
      assert HasTtl(rs, rs.ttl) && HasTtl(rs, LeastOf(rs.rest));
    } else {
      assert !HasTtl(rs.rest, ttl);
    }
  }

  /** Where the first SOA is. */
  lemma {:induction false} SoaIsReached(b: Bytes, pos: nat, n: nat) returns (m: nat)
    requires NegativeTtl(b, pos, n).Some? && NegativeTtl(b, pos, n).value > 0
    ensures 0 < m <= n && Reads(b, pos, m) && NegativeTtl(b, pos, m) == NegativeTtl(b, pos, n)
    decreases n
  {
    var r := ReadRecord(b, pos).value;
    if U16(b, r.at) == TYPE_SOA {
      m := 1;
    } else {
      var rest := SoaIsReached(b, r.next, n - 1);
      m := rest + 1;
    }
  }

  /** A negative caching time comes from the first SOA among that many records. */
  lemma SoaIsEncoded(b: Bytes, pos: nat, n: nat) returns (rs: Records, end: nat)
    requires pos <= |b| && NegativeTtl(b, pos, n).Some? && NegativeTtl(b, pos, n).value > 0
    ensures AreRecords(rs) && 0 < Count(rs) <= n && end <= |b| && b[pos..] == EncodeRecords(rs) + b[end..]
    ensures FirstSoa(rs).Record? && NegativeTtl(b, pos, n) == NegativeOf(rs)
  {
    var m := SoaIsReached(b, pos, n);
    rs, end := RecordsAreEncoded(b, pos, m);
    NegativeReads(b, pos, rs, end);
  }

  // ----- Whole messages -----

  /** The bytes hold a first question: a name of text labels, its type and its class. */
  predicate Asks(b: Bytes, n: WireName, end: nat) {
    DNS_HEADER_LEN <= |b| && end + 4 <= |b| && Spells(b, DNS_HEADER_LEN, end, n) && IsPlain(n)
  }

  /** Any bytes are taken for a query exactly when the header counts a question and a first
      one is there. */
  lemma QueryIff(b: Bytes)
    ensures QueryOf(b).Some? <==> |b| >= DNS_HEADER_LEN && U16(b, 4) > 0 && exists n, end :: Asks(b, n, end)
  {
    if QueryOf(b).Some? {
      var n := NameIsPlain(b, DNS_HEADER_LEN);
      assert Asks(b, n, ReadName(b, DNS_HEADER_LEN).value.end);
    }
    if |b| >= DNS_HEADER_LEN && U16(b, 4) > 0 {
      forall n, end | Asks(b, n, end)
        ensures QueryOf(b).Some?
      {
        ReadNameIff(b, DNS_HEADER_LEN, Name(LabelsOf(n), end));
      }
    }
  }

  lemma FirstName(b: Bytes) returns (name: Name)
    requires QueryOf(b).Some?
    ensures |b| >= DNS_HEADER_LEN && U16(b, 4) > 0 && ReadName(b, DNS_HEADER_LEN) == Some(name) && name.end + 4 <= |b|
  {
    name := ReadName(b, DNS_HEADER_LEN).value;
  }

  /** And then the query is that question, with the EDNS of the records after it. */
  lemma QueryOfAnyBytes(b: Bytes) returns (n: WireName, end: nat, rs: Records, last: nat)
    requires QueryOf(b).Some?
    ensures Asks(b, n, end) && AreRecords(rs) && last <= |b| && b[end + 4..] == EncodeRecords(rs) + b[last..]
    ensures ReadRecord(b, last).None?
    ensures QueryOf(b) == Some(DnsQuery(U16(b, 0), Join(LabelsOf(n)), U16(b, end), EdnsOf(rs).0, EdnsOf(rs).1))
  {
    var name := FirstName(b);
    n := NameIsPlain(b, DNS_HEADER_LEN);
    end := name.end;
    rs, last := EdnsOfAnyBytes(b, end + 4);
    QueryAssembles(b, name, EdnsOf(rs));
  }

  /** Where a time to live comes from: the least of the answers; without answers, and only for
      NOERROR and NXDOMAIN, the first SOA. */
  predicate Grants(b: Bytes, rs: Records, ttl: int)
    requires |b| >= DNS_HEADER_LEN
  {
    if U16(b, 6) > 0 then Count(rs) == U16(b, 6) && ttl == LeastOf(rs)
    else (U16(b, 2) % 16 == 0 || U16(b, 2) % 16 == 3) && Count(rs) <= U16(b, 8) && FirstSoa(rs).Record?
         && NegativeOf(rs) == Some(ttl)
  }

  /** Any bytes with a positive time to live are a response whose own records grant it. */
  lemma TtlOfAnyBytes(b: Bytes) returns (qs: Questions, rs: Records, end: nat)
    requires ResponseTtl(b).Some? && ResponseTtl(b).value > 0
    ensures |b| >= DNS_HEADER_LEN && U16(b, 2) >= 0x8000
    ensures AreQuestions(qs) && CountQuestions(qs) == U16(b, 4) && AreRecords(rs) && rs.Record? && end <= |b|
    ensures b[DNS_HEADER_LEN..] == EncodeQuestions(qs) + (EncodeRecords(rs) + b[end..])
    ensures Grants(b, rs, ResponseTtl(b).value)
  {
    qs := QuestionsAreEncoded(b, DNS_HEADER_LEN, U16(b, 4));
    var pos := SkipQuestions(b, DNS_HEADER_LEN, U16(b, 4)).value;
    if U16(b, 6) > 0 {
      rs, end := AnswersAreEncoded(b, pos, U16(b, 6));
    } else {
      rs, end := SoaIsEncoded(b, pos, U16(b, 8));
    }
  }
}
