/** DNS messages written down field by field, and what the readers recover from them. */
module DnsEncoding {
  import opened MatchSets
  import opened ByteStrings
  import opened DnsWire

  // ----- Messages -----

  /** A name on the wire: labels, then the root or a compression pointer. */
  datatype WireName = Root | Pointer(high: u8, low: u8) | Labelled(text: Bytes, rest: WireName)

  datatype Records =
    | NoRecords
    | Record(name: WireName, rtype: int, class_: (u8, u8), ttl: int, rdata: Bytes, rest: Records)

  datatype Questions = NoQuestions | Question(name: WireName, qtype: int, qclass: int, rest: Questions)

  predicate IsName(n: WireName) {
    match n
    case Root => true
    case Pointer(high, _) => high >= 0xC0
    case Labelled(text, rest) => 0 < |text| <= 63 && IsName(rest)
  }

  /** A name without pointers whose labels are all valid UTF-8. */
  predicate IsPlain(n: WireName) {
    match n
    case Root => true
    case Pointer(_, _) => false
    case Labelled(text, rest) => 0 < |text| <= 63 && IsUtf8(text) && IsPlain(rest)
  }

  predicate AreRecords(rs: Records) {
    rs.Record? ==>
      && IsName(rs.name) && 0 <= rs.rtype < 0x10000 && 0 <= rs.ttl < 0x1_0000_0000 && |rs.rdata| < 0x10000
      && AreRecords(rs.rest)
  }

  predicate AreQuestions(qs: Questions) {
    qs.Question? ==> IsName(qs.name) && 0 <= qs.qtype < 0x10000 && 0 <= qs.qclass < 0x10000 && AreQuestions(qs.rest)
  }

  function EncodeName(n: WireName): Bytes
    requires IsName(n)
  {
    match n
    case Root => [0]
    case Pointer(high, low) => [high, low]
    case Labelled(text, rest) => [|text|] + text + EncodeName(rest)
  }

  function FixedFields(rs: Records): (b: Bytes)
    requires AreRecords(rs) && rs.Record?
    ensures |b| == 10
  {
    BigEndian16(rs.rtype) + [rs.class_.0, rs.class_.1] + BigEndian32(rs.ttl) + BigEndian16(|rs.rdata|)
  }

  function EncodeRecords(rs: Records): Bytes
    requires AreRecords(rs)
  {
    if rs.NoRecords? then [] else EncodeName(rs.name) + (FixedFields(rs) + (rs.rdata + EncodeRecords(rs.rest)))
  }

  function EncodeQuestions(qs: Questions): Bytes
    requires AreQuestions(qs)
  {
    if qs.NoQuestions? then []
    else EncodeName(qs.name) + ((BigEndian16(qs.qtype) + BigEndian16(qs.qclass)) + EncodeQuestions(qs.rest))
  }

  function Count(rs: Records): nat { if rs.NoRecords? then 0 else 1 + Count(rs.rest) }

  function CountQuestions(qs: Questions): nat { if qs.NoQuestions? then 0 else 1 + CountQuestions(qs.rest) }

  datatype Header = Header(id: int, flags: int, qdcount: int, ancount: int, nscount: int, arcount: int)

  predicate IsHeader(h: Header) {
    && 0 <= h.id < 0x10000 && 0 <= h.flags < 0x10000 && 0 <= h.qdcount < 0x10000
    && 0 <= h.ancount < 0x10000 && 0 <= h.nscount < 0x10000 && 0 <= h.arcount < 0x10000
  }

  function EncodeHeader(h: Header): (b: Bytes)
    requires IsHeader(h)
    ensures |b| == DNS_HEADER_LEN
  {
    BigEndian16(h.id) + BigEndian16(h.flags) + BigEndian16(h.qdcount)
    + BigEndian16(h.ancount) + BigEndian16(h.nscount) + BigEndian16(h.arcount)
  }

  // ----- What a message says -----

  function LabelsOf(n: WireName): seq<Text> {
    if n.Labelled? then [Lower(n.text)] + LabelsOf(n.rest) else []
  }

  /** The first OPT record, if any. */
  function FirstOpt(rs: Records): Records {
    if rs.NoRecords? || rs.rtype == TYPE_OPT then rs else FirstOpt(rs.rest)
  }

  /** Whether there is one, and its DO bit. */
  function EdnsOf(rs: Records): (bool, bool) {
    var opt := FirstOpt(rs);
    (opt.Record?, opt.Record? && DoBit(opt.ttl))
  }

  predicate DoBit(ttl: int) { ttl / 0x8000 % 2 == 1 }

  function LeastOf(rs: Records): int
    requires rs.Record?
  {
    if rs.rest.NoRecords? then rs.ttl else Min(rs.ttl, LeastOf(rs.rest))
  }

  function FirstSoa(rs: Records): Records {
    if rs.NoRecords? || rs.rtype == TYPE_SOA then rs else FirstSoa(rs.rest)
  }

  /** RFC 2308, section 5: the lesser of the SOA's TTL and its MINIMUM, here capped. */
  function NegativeOf(rs: Records): Option<int> {
    var soa := FirstSoa(rs);
    if soa.NoRecords? then Some(0)
    else if |soa.rdata| < 22 then None
    else Some(SoaTtl(soa.ttl, U32(soa.rdata, |soa.rdata| - 4)))
  }

  // ----- Decoding the parts -----

  lemma {:induction false} NameEnds(b: Bytes, pos: nat, n: WireName, tail: Bytes) returns (end: nat)
    requires IsName(n) && pos <= |b| && b[pos..] == EncodeName(n) + tail
    ensures SkipName(b, pos) == Some(end) && end <= |b| && b[end..] == tail
    decreases n
  {
    var code := EncodeName(n);
    Suffix(b, pos, code, tail);
    assert b[pos] == b[pos + 0] == code[0];
    if n.Labelled? {
      var rest := EncodeName(n.rest);
      assert code + tail == ([|n.text|] + n.text) + (rest + tail);
      Suffix(b, pos, [|n.text|] + n.text, rest + tail);
      end := NameEnds(b, pos + 1 + |n.text|, n.rest, tail);
    } else {
      end := pos + |code|;
    }
  }

  lemma {:induction false} PlainIsName(n: WireName)
    requires IsPlain(n)
    ensures IsName(n)
  {
    if n.Labelled? {
      PlainIsName(n.rest);
    }
  }

  lemma LabelReads(b: Bytes, pos: nat, text: Bytes, tail: Bytes) returns (next: nat)
    requires 0 < |text| <= 63 && IsUtf8(text) && pos <= |b| && b[pos..] == [|text|] + (text + tail)
    ensures pos < next <= |b| && b[next..] == tail
    ensures ReadName(b, pos) == Prepend([Lower(text)], ReadName(b, next))
  {
    Suffix(b, pos, [|text|], text + tail);
    assert b[pos] == b[pos + 0] == |text|;
    TextAt(b, pos + 1, text, tail);
    next := pos + 1 + |text|;
    LabelStep(b, pos, next);
  }

  lemma LabelStep(b: Bytes, pos: nat, next: nat)
    requires pos < |b| && 0 < b[pos] <= 63 && next == pos + 1 + b[pos] <= |b| && IsUtf8(b[pos + 1..next])
    ensures ReadName(b, pos) == Prepend([Lower(b[pos + 1..next])], ReadName(b, next))
  {
  }

  lemma {:induction false} NameReads(b: Bytes, pos: nat, n: WireName, tail: Bytes) returns (end: nat)
    requires IsPlain(n) && IsName(n) && pos <= |b| && b[pos..] == EncodeName(n) + tail
    ensures ReadName(b, pos) == Some(Name(LabelsOf(n), end)) && end <= |b| && b[end..] == tail
    decreases n
  {
    if n.Labelled? {
      var rest := EncodeName(n.rest);
      assert EncodeName(n) + tail == [|n.text|] + (n.text + (rest + tail));
      var next := LabelReads(b, pos, n.text, rest + tail);
      end := NameReads(b, next, n.rest, tail);
    } else {
      Suffix(b, pos, [0], tail);
      assert b[pos] == b[pos + 0] == 0;
      end := pos + 1;
    }
  }

  lemma TextAt(b: Bytes, pos: nat, text: Bytes, tail: Bytes)
    requires pos <= |b| && b[pos..] == text + tail
    ensures pos + |text| <= |b| && b[pos..pos + |text|] == text && b[pos + |text|..] == tail
  {
    Suffix(b, pos, text, tail);
  }

  lemma Read16(b: Bytes, pos: nat, value: int, tail: Bytes)
    requires 0 <= value < 0x10000 && pos <= |b| && b[pos..] == BigEndian16(value) + tail
    ensures pos + 2 <= |b| && U16(b, pos) == value && b[pos + 2..] == tail
  {
    Suffix(b, pos, BigEndian16(value), tail);
    assert b[pos] == b[pos + 0];
  }

  /** The fixed fields of a record read back. */
  lemma FieldsRead(b: Bytes, at: nat, rs: Records, tail: Bytes)
    requires AreRecords(rs) && rs.Record? && at <= |b| && b[at..] == FixedFields(rs) + tail
    ensures at + 10 <= |b| && b[at + 10..] == tail
    ensures U16(b, at) == rs.rtype && U32(b, at + 4) == rs.ttl && U16(b, at + 8) == |rs.rdata|
    ensures b[at + 6] >= 0x80 <==> DoBit(rs.ttl)
  {
    var class_, len := [rs.class_.0, rs.class_.1], BigEndian16(|rs.rdata|) + tail;
    FieldsSplit(rs, tail);
    Read16(b, at, rs.rtype, class_ + (BigEndian32(rs.ttl) + len));
    Suffix(b, at + 2, class_, BigEndian32(rs.ttl) + len);
    TtlReads(b, at + 4, rs.ttl, len);
    Read16(b, at + 8, |rs.rdata|, tail);
  }

  lemma FieldsSplit(rs: Records, tail: Bytes)
    requires AreRecords(rs) && rs.Record?
    ensures FixedFields(rs) + tail ==
            BigEndian16(rs.rtype)
            + ([rs.class_.0, rs.class_.1] + (BigEndian32(rs.ttl) + (BigEndian16(|rs.rdata|) + tail)))
  {
  }

  lemma TtlReads(b: Bytes, at: nat, ttl: int, tail: Bytes)
    requires 0 <= ttl < 0x1_0000_0000 && at <= |b| && b[at..] == BigEndian32(ttl) + tail
    ensures at + 4 <= |b| && U32(b, at) == ttl && b[at + 4..] == tail && (b[at + 2] >= 0x80 <==> DoBit(ttl))
  {
    var low := BigEndian16(ttl % 0x10000) + tail;
    assert BigEndian32(ttl) + tail == BigEndian16(ttl / 0x10000) + low;
    Read16(b, at, ttl / 0x10000, low);
    Read16(b, at + 2, ttl % 0x10000, tail);
    HighBit(ttl, b[at + 2], b[at + 3]);
  }

  lemma HighBit(ttl: int, high: int, low: int)
    requires 0 <= high < 0x100 && 0 <= low < 0x100 && high * 0x100 + low == ttl % 0x10000
    ensures high >= 0x80 <==> DoBit(ttl)
  {
    assert ttl == ttl / 0x10000 * 0x10000 + high * 0x100 + low;
    assert ttl / 0x8000 == ttl / 0x10000 * 2 + (high * 0x100 + low) / 0x8000;
  }

  /** One encoded record: it is read whole, and its fields and data are its own. */
  lemma RecordReads(b: Bytes, pos: nat, rs: Records, tail: Bytes) returns (r: Rr)
    requires AreRecords(rs) && rs.Record? && pos <= |b| && b[pos..] == EncodeRecords(rs) + tail
    ensures ReadRecord(b, pos) == Some(r) && pos + 11 <= |b| && r.at + 10 <= r.next <= |b|
    ensures b[r.next..] == EncodeRecords(rs.rest) + tail && b[r.at + 10..r.next] == rs.rdata
    ensures U16(b, r.at) == rs.rtype && U32(b, r.at + 4) == rs.ttl && U16(b, r.at + 8) == |rs.rdata|
    ensures b[r.at + 6] >= 0x80 <==> DoBit(rs.ttl)
  {
    var rest := EncodeRecords(rs.rest) + tail;
    RecordSplits(rs, tail);
    var at := NameEnds(b, pos, rs.name, FixedFields(rs) + (rs.rdata + rest));
    FieldsRead(b, at, rs, rs.rdata + rest);
    TextAt(b, at + 10, rs.rdata, rest);
    r := RecordEnds(b, pos, at);
  }

  lemma RecordSplits(rs: Records, tail: Bytes)
    requires AreRecords(rs) && rs.Record?
    ensures EncodeRecords(rs) + tail ==
            EncodeName(rs.name) + (FixedFields(rs) + (rs.rdata + (EncodeRecords(rs.rest) + tail)))
  {
  }

  lemma RecordEnds(b: Bytes, pos: nat, at: nat) returns (r: Rr)
    requires SkipName(b, pos) == Some(at) && at + 10 <= |b| && at + 10 + U16(b, at + 8) <= |b|
    ensures ReadRecord(b, pos) == Some(r) && r == Rr(at, at + 10 + U16(b, at + 8)) && pos < at
  {
    SkipNameAdvances(b, pos);
    r := Rr(at, at + 10 + U16(b, at + 8));
  }

  /** A record that is read carries these fields. */
  predicate Carries(b: Bytes, r: Rr, rs: Records)
    requires r.at + 10 <= r.next <= |b| && rs.Record?
  {
    && U16(b, r.at) == rs.rtype && U32(b, r.at + 4) == rs.ttl && (b[r.at + 6] >= 0x80 <==> DoBit(rs.ttl))
    && U16(b, r.at + 8) == |rs.rdata| && (|rs.rdata| >= 4 ==> U32(b, r.next - 4) == U32(rs.rdata, |rs.rdata| - 4))
  }

  /** The records are read one after the other, from `pos` to `end`. */
  predicate LaidOut(b: Bytes, pos: nat, rs: Records, end: nat)
    decreases rs
  {
    if rs.NoRecords? then pos == end
    else
      var r := ReadRecord(b, pos);
      r.Some? && pos + 11 <= |b| && Carries(b, r.value, rs) && LaidOut(b, r.value.next, rs.rest, end)
  }

  lemma {:induction false} RecordsLaidOut(b: Bytes, pos: nat, rs: Records, tail: Bytes) returns (end: nat)
    requires AreRecords(rs) && pos <= |b| && b[pos..] == EncodeRecords(rs) + tail
    ensures LaidOut(b, pos, rs, end) && end <= |b| && b[end..] == tail
    decreases rs
  {
    if rs.NoRecords? {
      assert EncodeRecords(rs) + tail == tail;
      end := pos;
    } else {
      var next := RecordCarries(b, pos, rs, tail);
      end := RecordsLaidOut(b, next, rs.rest, tail);
    }
  }

  lemma RecordCarries(b: Bytes, pos: nat, rs: Records, tail: Bytes) returns (next: nat)
    requires AreRecords(rs) && rs.Record? && pos <= |b| && b[pos..] == EncodeRecords(rs) + tail
    ensures next <= |b| && b[next..] == EncodeRecords(rs.rest) + tail
    ensures forall end :: LaidOut(b, next, rs.rest, end) ==> LaidOut(b, pos, rs, end)
  {
    var r := RecordReads(b, pos, rs, tail);
    CarriesFields(b, r, rs);
    next := r.next;
  }

  lemma CarriesFields(b: Bytes, r: Rr, rs: Records)
    requires r.at + 10 <= r.next <= |b| && rs.Record? && b[r.at + 10..r.next] == rs.rdata
    requires U16(b, r.at) == rs.rtype && U32(b, r.at + 4) == rs.ttl && U16(b, r.at + 8) == |rs.rdata|
    requires b[r.at + 6] >= 0x80 <==> DoBit(rs.ttl)
    ensures Carries(b, r, rs)
  {
    if |rs.rdata| >= 4 { LastWord(b, r.at + 10, r.next, rs.rdata); }
  }

  lemma {:induction false} EdnsReads(b: Bytes, pos: nat, rs: Records)
    requires LaidOut(b, pos, rs, |b|)
    ensures Edns(b, pos) == EdnsOf(rs)
    decreases rs
  {
    if rs.Record? && rs.rtype != TYPE_OPT {
      EdnsReads(b, ReadRecord(b, pos).value.next, rs.rest);
    }
  }

  lemma {:induction false} LeastReads(b: Bytes, pos: nat, rs: Records, end: nat)
    requires rs.Record? && LaidOut(b, pos, rs, end)
    ensures LeastTtl(b, pos, Count(rs)) == Some(LeastOf(rs))
    decreases rs
  {
    var r := ReadRecord(b, pos).value;
    if rs.rest.Record? {
      LeastReads(b, r.next, rs.rest, end);
      LeastStep(b, pos, r, Count(rs.rest), LeastOf(rs.rest));
    } else {
      assert Count(rs) == 1;
    }
  }

  lemma LeastStep(b: Bytes, pos: nat, r: Rr, n: nat, least: int)
    requires ReadRecord(b, pos) == Some(r) && n > 0 && LeastTtl(b, r.next, n) == Some(least)
    ensures LeastTtl(b, pos, n + 1) == Some(Min(U32(b, r.at + 4), least))
  {
  }

  lemma {:induction false} NegativeReads(b: Bytes, pos: nat, rs: Records, end: nat)
    requires LaidOut(b, pos, rs, end)
    ensures NegativeTtl(b, pos, Count(rs)) == NegativeOf(rs)
    decreases rs
  {
    if rs.Record? && rs.rtype != TYPE_SOA {
      NegativeReads(b, ReadRecord(b, pos).value.next, rs.rest, end);
    }
  }

  lemma LastWord(b: Bytes, from: nat, to: nat, data: Bytes)
    requires from <= to <= |b| && b[from..to] == data && |data| >= 4
    ensures U32(b, to - 4) == U32(data, |data| - 4)
  {
    forall k | 0 <= k < |data|
      ensures b[from + k] == data[k]
    {
      assert b[from..to][k] == b[from + k];
    }
    assert to - 4 == from + (|data| - 4);
  }

  lemma {:induction false} QuestionsSkip(b: Bytes, pos: nat, qs: Questions, tail: Bytes) returns (end: nat)
    requires AreQuestions(qs) && pos <= |b| && b[pos..] == EncodeQuestions(qs) + tail
    ensures SkipQuestions(b, pos, CountQuestions(qs)) == Some(end) && end <= |b| && b[end..] == tail
    decreases qs
  {
    if qs.NoQuestions? {
      assert EncodeQuestions(qs) + tail == tail;
      end := pos;
    } else {
      var rest := EncodeQuestions(qs.rest) + tail;
      var fixed := BigEndian16(qs.qtype) + BigEndian16(qs.qclass);
      assert EncodeQuestions(qs) + tail == EncodeName(qs.name) + (fixed + rest);
      var at := NameEnds(b, pos, qs.name, fixed + rest);
      Suffix(b, at, fixed, rest);
      end := QuestionsSkip(b, at + 4, qs.rest, tail);
    }
  }

  lemma HeaderReads(h: Header, body: Bytes)
    requires IsHeader(h)
    ensures var b := EncodeHeader(h) + body;
            && |b| >= DNS_HEADER_LEN && b[DNS_HEADER_LEN..] == body
            && U16(b, 0) == h.id && U16(b, 2) == h.flags && U16(b, 4) == h.qdcount
            && U16(b, 6) == h.ancount && U16(b, 8) == h.nscount
  {
    var b := EncodeHeader(h) + body;
    assert b[0..] == b;
    var t10 := BigEndian16(h.arcount) + body;
    var t8 := BigEndian16(h.nscount) + t10;
    var t6 := BigEndian16(h.ancount) + t8;
    var t4 := BigEndian16(h.qdcount) + t6;
    var t2 := BigEndian16(h.flags) + t4;
    assert b == BigEndian16(h.id) + t2;
    Read16(b, 0, h.id, t2);
    Read16(b, 2, h.flags, t4);
    Read16(b, 4, h.qdcount, t6);
    Read16(b, 6, h.ancount, t8);
    Read16(b, 8, h.nscount, t10);
  }

  lemma QuestionReads(b: Bytes, pos: nat, name: WireName, qtype: int, qclass: int, tail: Bytes) returns (end: nat)
    requires IsPlain(name) && IsName(name) && 0 <= qtype < 0x10000 && 0 <= qclass < 0x10000
    requires pos <= |b| && b[pos..] == EncodeName(name) + ((BigEndian16(qtype) + BigEndian16(qclass)) + tail)
    ensures ReadName(b, pos) == Some(Name(LabelsOf(name), end))
    ensures end + 4 <= |b| && U16(b, end) == qtype && b[end + 4..] == tail
  {
    var fixed := BigEndian16(qtype) + BigEndian16(qclass);
    end := NameReads(b, pos, name, fixed + tail);
    assert fixed + tail == BigEndian16(qtype) + (BigEndian16(qclass) + tail);
    Read16(b, end, qtype, BigEndian16(qclass) + tail);
    Read16(b, end + 2, qclass, tail);
  }

  // ----- Round trips -----

  /** For every encoded single-question query with valid UTF-8 labels and any records
      after the question: id, lower-cased dotted name, type, EDNS and the DO bit of the
      first OPT record come back. */
  lemma QueryRoundTrip(h: Header, name: WireName, qtype: int, qclass: int, rs: Records)
    requires IsHeader(h) && h.qdcount == 1 && IsPlain(name) && IsName(name) && AreRecords(rs)
    requires 0 <= qtype < 0x10000 && 0 <= qclass < 0x10000
    ensures var fixed := BigEndian16(qtype) + BigEndian16(qclass);
            var b := EncodeHeader(h) + (EncodeName(name) + (fixed + EncodeRecords(rs)));
            QueryOf(b) == Some(DnsQuery(h.id, Join(LabelsOf(name)), qtype, EdnsOf(rs).0, EdnsOf(rs).1))
  {
    var body := EncodeName(name) + ((BigEndian16(qtype) + BigEndian16(qclass)) + EncodeRecords(rs));
    HeaderReads(h, body);
    QueryReads(EncodeHeader(h) + body, name, qtype, qclass, rs);
  }

  lemma EdnsAtEnd(b: Bytes, pos: nat, rs: Records)
    requires AreRecords(rs) && pos <= |b| && b[pos..] == EncodeRecords(rs)
    ensures Edns(b, pos) == EdnsOf(rs)
  {
    assert EncodeRecords(rs) + [] == EncodeRecords(rs);
    var last := RecordsLaidOut(b, pos, rs, []);
    assert last == |b|;
    EdnsReads(b, pos, rs);
  }

  lemma QueryReads(b: Bytes, name: WireName, qtype: int, qclass: int, rs: Records)
    requires IsPlain(name) && IsName(name) && AreRecords(rs) && 0 <= qtype < 0x10000 && 0 <= qclass < 0x10000
    requires |b| >= DNS_HEADER_LEN && U16(b, 4) == 1
    requires b[DNS_HEADER_LEN..] == EncodeName(name) + ((BigEndian16(qtype) + BigEndian16(qclass)) + EncodeRecords(rs))
    ensures QueryOf(b) == Some(DnsQuery(U16(b, 0), Join(LabelsOf(name)), qtype, EdnsOf(rs).0, EdnsOf(rs).1))
  {
    var end := QuestionReads(b, DNS_HEADER_LEN, name, qtype, qclass, EncodeRecords(rs));
    EdnsAtEnd(b, end + 4, rs);
    QueryAssembles(b, Name(LabelsOf(name), end), EdnsOf(rs));
  }

  lemma QueryAssembles(b: Bytes, name: Name, edns: (bool, bool))
    requires |b| >= DNS_HEADER_LEN && U16(b, 4) > 0 && ReadName(b, DNS_HEADER_LEN) == Some(name)
    requires name.end + 4 <= |b| && Edns(b, name.end + 4) == edns
    ensures QueryOf(b) == Some(DnsQuery(U16(b, 0), Join(name.labels), U16(b, name.end), edns.0, edns.1))
  {
  }

  /** For every encoded response: the least answer TTL; without answers, the negative
      caching time of the first SOA for NODATA and NXDOMAIN and 0 for other codes. */
  lemma ResponseRoundTrip(h: Header, qs: Questions, answers: Records, authority: Records, tail: Bytes)
    requires IsHeader(h) && h.flags >= 0x8000 && AreQuestions(qs) && AreRecords(answers) && AreRecords(authority)
    requires h.qdcount == CountQuestions(qs) && h.ancount == Count(answers) && h.nscount == Count(authority)
    ensures var records := EncodeRecords(answers) + (EncodeRecords(authority) + tail);
            var b := EncodeHeader(h) + (EncodeQuestions(qs) + records);
            ResponseTtl(b) ==
            if answers.Record? then Some(LeastOf(answers))
            else if h.flags % 16 != 0 && h.flags % 16 != 3 then Some(0)
            else NegativeOf(authority)
  {
    var body := EncodeQuestions(qs) + (EncodeRecords(answers) + (EncodeRecords(authority) + tail));
    HeaderReads(h, body);
    ResponseReads(EncodeHeader(h) + body, h, qs, answers, authority, tail);
  }

  lemma ResponseReads(b: Bytes, h: Header, qs: Questions, answers: Records, authority: Records, tail: Bytes)
    requires AreQuestions(qs) && AreRecords(answers) && AreRecords(authority) && |b| >= DNS_HEADER_LEN
    requires b[DNS_HEADER_LEN..] == EncodeQuestions(qs) + (EncodeRecords(answers) + (EncodeRecords(authority) + tail))
    requires U16(b, 2) == h.flags >= 0x8000 && U16(b, 4) == CountQuestions(qs)
    requires U16(b, 6) == Count(answers) && U16(b, 8) == Count(authority)
    ensures ResponseTtl(b) ==
            if answers.Record? then Some(LeastOf(answers))
            else if h.flags % 16 != 0 && h.flags % 16 != 3 then Some(0)
            else NegativeOf(authority)
  {
    var rest := EncodeRecords(authority) + tail;
    var pos := QuestionsSkip(b, DNS_HEADER_LEN, qs, EncodeRecords(answers) + rest);
    var middle := RecordsLaidOut(b, pos, answers, rest);
    var end := RecordsLaidOut(b, middle, authority, tail);
    if answers.Record? {
      LeastReads(b, pos, answers, middle);
      TtlOfAnswers(b, pos, Count(answers));
    } else {
      NegativeReads(b, pos, authority, end);
      TtlOfNone(b, pos, Count(authority));
    }
  }

  lemma TtlOfAnswers(b: Bytes, pos: nat, n: nat)
    requires |b| >= DNS_HEADER_LEN && U16(b, 2) >= 0x8000 && SkipQuestions(b, DNS_HEADER_LEN, U16(b, 4)) == Some(pos)
    requires U16(b, 6) == n > 0
    ensures ResponseTtl(b) == LeastTtl(b, pos, n)
  {
  }

  lemma TtlOfNone(b: Bytes, pos: nat, n: nat)
    requires |b| >= DNS_HEADER_LEN && U16(b, 2) >= 0x8000 && SkipQuestions(b, DNS_HEADER_LEN, U16(b, 4)) == Some(pos)
    requires U16(b, 6) == 0 && U16(b, 8) == n
    ensures ResponseTtl(b) ==
            if U16(b, 2) % 16 != 0 && U16(b, 2) % 16 != 3 then Some(0) else NegativeTtl(b, pos, n)
  {
  }
}
