/** The DNS message readers of the forwarder: the question and EDNS of a query, and the
    time to live of a response. */
module DnsWire {
  import opened MatchSets
  import opened ByteStrings

  const DNS_HEADER_LEN: nat := 12
  const TYPE_OPT: int := 41
  const TYPE_SOA: int := 6
  const NEGATIVE_TTL_CAP_SECS: int := 3600

  /** Text as its UTF-8 bytes. */
  type Text = seq<int>

  const DOT: int := 0x2E

  datatype DnsQuery = DnsQuery(id: int, qname: Text, qtype: int, hasEdns: bool, doBit: bool)

  // ----- Text -----

  predicate Continues(b: Bytes, at: nat, low: int, high: int) { at < |b| && low <= b[at] <= high }

  /** The byte length of the well-formed UTF-8 sequence at the start, 0 if there is none. */
  function Utf8Step(b: Bytes): nat
    requires |b| > 0
    ensures Utf8Step(b) <= |b|
  {
    var c := b[0];
    if c < 0x80 then 1
    else if 0xC2 <= c <= 0xDF then if Continues(b, 1, 0x80, 0xBF) then 2 else 0
    else if 0xE0 <= c <= 0xEF then
      var low := if c == 0xE0 then 0xA0 else 0x80;
      var high := if c == 0xED then 0x9F else 0xBF;
      if Continues(b, 1, low, high) && Continues(b, 2, 0x80, 0xBF) then 3 else 0
    else if 0xF0 <= c <= 0xF4 then
      var low := if c == 0xF0 then 0x90 else 0x80;
      var high := if c == 0xF4 then 0x8F else 0xBF;
      if Continues(b, 1, low, high) && Continues(b, 2, 0x80, 0xBF) && Continues(b, 3, 0x80, 0xBF) then 4 else 0
    else 0
  }

  predicate IsUtf8(b: Bytes) { |b| == 0 || (Utf8Step(b) > 0 && IsUtf8(b[Utf8Step(b)..])) }

  lemma {:induction false} AsciiIsUtf8(b: Bytes)
    requires forall i :: 0 <= i < |b| ==> b[i] < 0x80
    ensures IsUtf8(b)
  {
    if |b| > 0 {
      AsciiIsUtf8(b[1..]);
    }
  }

  function LowerByte(c: int): int { if 0x41 <= c <= 0x5A then c + 0x20 else c }

  function Lower(b: Bytes): Text {
    if |b| == 0 then [] else [LowerByte(b[0])] + Lower(b[1..])
  }

  function Join(labels: seq<Text>): Text {
    if |labels| == 0 then []
    else if |labels| == 1 then labels[0]
    else labels[0] + [DOT] + Join(labels[1..])
  }

  // ----- Names -----

  datatype Name = Name(labels: seq<Text>, end: nat)

  /** The question name: labels only, each valid UTF-8, no compression. */
  function ReadName(b: Bytes, pos: nat): (name: Option<Name>)
    ensures name.Some? ==> pos < name.value.end <= |b|
    decreases |b| - pos
  {
    if pos >= |b| then None
    else
      var len := b[pos];
      if len == 0 then Some(Name([], pos + 1))
      else if len >= 0xC0 || len > 63 || pos + 1 + len > |b| || !IsUtf8(b[pos + 1..pos + 1 + len]) then None
      else
        var rest := ReadName(b, pos + 1 + len);
        if rest.None? then None
        else Some(Name([Lower(b[pos + 1..pos + 1 + len])] + rest.value.labels, rest.value.end))
  }

  /** Where a name ends: after its root text, or after a compression pointer. */
  function SkipName(b: Bytes, pos: nat): Option<nat>
    decreases |b| - pos
  {
    if pos >= |b| then None
    else
      var len := b[pos];
      if len == 0 then Some(pos + 1)
      else if len >= 0xC0 then Some(pos + 2)
      else if len > 63 || pos + 1 + len > |b| then None
      else SkipName(b, pos + 1 + len)
  }

  // ----- Records -----

  /** A record: where its fixed fields are, and where the next record starts. */
  datatype Rr = Rr(at: nat, next: nat)

  function ReadRecord(b: Bytes, pos: nat): (r: Option<Rr>)
    ensures r.Some? ==> pos < r.value.at && r.value.at + 10 <= |b|
                        && r.value.at + 10 + U16(b, r.value.at + 8) == r.value.next <= |b|
  {
    SkipNameAdvances(b, pos);
    var at := SkipName(b, pos);
    if at.None? || at.value + 10 > |b| || at.value + 10 + U16(b, at.value + 8) > |b| then None
    else Some(Rr(at.value, at.value + 10 + U16(b, at.value + 8)))
  }

  lemma {:induction false} SkipNameAdvances(b: Bytes, pos: nat)
    ensures SkipName(b, pos).Some? ==> pos < SkipName(b, pos).value <= |b| + 1
    decreases |b| - pos
  {
    if pos < |b| && 0 < b[pos] <= 63 && pos + 1 + b[pos] <= |b| {
      SkipNameAdvances(b, pos + 1 + b[pos]);
    }
  }

  /** Whether an OPT record follows, and the DO bit of the first one. */
  function Edns(b: Bytes, pos: nat): (bool, bool)
    decreases |b| - pos
  {
    if pos + 11 > |b| then (false, false)
    else
      var r := ReadRecord(b, pos);
      if r.None? then (false, false)
      else if U16(b, r.value.at) == TYPE_OPT then (true, b[r.value.at + 6] >= 0x80)
      else Edns(b, r.value.next)
  }

  function Min(a: int, b: int): int { if a <= b then a else b }

  /** The least TTL of the next `n` records. */
  function LeastTtl(b: Bytes, pos: nat, n: nat): Option<int>
    requires n > 0
    decreases n
  {
    var r := ReadRecord(b, pos);
    if r.None? then None
    else if n == 1 then Some(U32(b, r.value.at + 4))
    else
      var rest := LeastTtl(b, r.value.next, n - 1);
      if rest.None? then None else Some(Min(U32(b, r.value.at + 4), rest.value))
  }

  /** The negative caching time from the first SOA of the next `n` records. */
  function NegativeTtl(b: Bytes, pos: nat, n: nat): Option<int>
    decreases n
  {
    if n == 0 then Some(0)
    else
      var r := ReadRecord(b, pos);
      if r.None? then None
      else if U16(b, r.value.at) != TYPE_SOA then NegativeTtl(b, r.value.next, n - 1)
      else if U16(b, r.value.at + 8) < 22 then None
      else Some(SoaTtl(U32(b, r.value.at + 4), U32(b, r.value.next - 4)))
  }

  function SoaTtl(ttl: int, minimum: int): int { Min(Min(ttl, minimum), NEGATIVE_TTL_CAP_SECS) }

  function SkipQuestions(b: Bytes, pos: nat, n: nat): Option<nat>
    decreases n
  {
    if n == 0 then Some(pos)
    else
      var end := SkipName(b, pos);
      if end.None? || end.value + 4 > |b| then None else SkipQuestions(b, end.value + 4, n - 1)
  }

  // ----- Whole messages -----

  function QueryOf(b: Bytes): Option<DnsQuery> {
    if |b| < DNS_HEADER_LEN || U16(b, 4) == 0 then None
    else
      var name := ReadName(b, DNS_HEADER_LEN);
      if name.None? || name.value.end + 4 > |b| then None
      else
        var edns := Edns(b, name.value.end + 4);
        Some(DnsQuery(U16(b, 0), Join(name.value.labels), U16(b, name.value.end), edns.0, edns.1))
  }

  function ResponseTtl(b: Bytes): Option<int> {
    if |b| < DNS_HEADER_LEN || U16(b, 2) < 0x8000 then None
    else
      var pos := SkipQuestions(b, DNS_HEADER_LEN, U16(b, 4));
      if pos.None? then None
      else if U16(b, 6) > 0 then LeastTtl(b, pos.value, U16(b, 6))
      else
        var rcode := U16(b, 2) % 16;
        if rcode != 0 && rcode != 3 then Some(0) else NegativeTtl(b, pos.value, U16(b, 8))
  }

  // ----- The readers -----

  method ScanName(b: Bytes, start: nat) returns (end: Option<nat>)
    ensures end == SkipName(b, start)
  {
    var pos: nat := start;
    while true
      invariant SkipName(b, start) == SkipName(b, pos)
      decreases |b| - pos
    {
      if pos >= |b| {
        return None;
      }
      var len := b[pos];
      if len == 0 {
        return Some(pos + 1);
      }
      if len >= 0xC0 {
        return Some(pos + 2);
      }
      if len > 63 || pos + 1 + len > |b| {
        return None;
      }
      pos := pos + 1 + len;
    }
  }

  function Prepend(labels: seq<Text>, name: Option<Name>): Option<Name> {
    if name.None? then None else Some(name.value.(labels := labels + name.value.labels))
  }

  lemma PrependNothing(name: Option<Name>)
    ensures Prepend([], name) == name
  {
    assert name.Some? ==> [] + name.value.labels == name.value.labels;
  }

  lemma PrependStep(labels: seq<Text>, text: Text, name: Name)
    ensures Prepend(labels + [text], Some(name)) == Prepend(labels, Some(name.(labels := [text] + name.labels)))
  {
    assert (labels + [text]) + name.labels == labels + ([text] + name.labels);
  }

  /** The question name, label by label. */
  method ScanQuestionName(b: Bytes, start: nat) returns (name: Option<Name>)
    ensures name == ReadName(b, start)
  {
    var pos: nat := start;
    var labels: seq<Text> := [];
    PrependNothing(ReadName(b, pos));
    while true
      invariant ReadName(b, start) == Prepend(labels, ReadName(b, pos))
      decreases |b| - pos
    {
      if pos >= |b| {
        return None;
      }
      var len := b[pos];
      if len == 0 {
        assert labels + [] == labels;
        return Some(Name(labels, pos + 1));
      }
      if len >= 0xC0 || len > 63 || pos + 1 + len > |b| {
        return None;
      }
      var text := b[pos + 1..pos + 1 + len];
      if !IsUtf8(text) {
        return None;
      }
      if ReadName(b, pos + 1 + len).Some? {
        PrependStep(labels, Lower(text), ReadName(b, pos + 1 + len).value);
      }
      labels := labels + [Lower(text)];
      pos := pos + 1 + len;
    }
  }

  method ParseDnsQuery(b: Bytes) returns (query: Option<DnsQuery>)
    ensures query == QueryOf(b)
  {
    if |b| < DNS_HEADER_LEN {
      return None;
    }
    var id, qdcount := U16(b, 0), U16(b, 4);
    if qdcount == 0 {
      return None;
    }
    var name := ScanQuestionName(b, DNS_HEADER_LEN);
    if name.None? {
      return None;
    }
    var pos := name.value.end;
    if pos + 4 > |b| {
      return None;
    }
    var qtype := U16(b, pos);
    var hasEdns, doBit := ParseEdns(b, pos + 4);
    query := Some(DnsQuery(id, Join(name.value.labels), qtype, hasEdns, doBit));
  }

  /** The name and the fixed fields of a record, with the tests that all three record
      loops make. */
  method ScanRecord(b: Bytes, pos: nat) returns (r: Option<Rr>)
    ensures r == ReadRecord(b, pos)
  {
    var end := ScanName(b, pos);
    if end.None? || end.value + 10 > |b| {
      return None;
    }
    var at := end.value;
    var rdlength := U16(b, at + 8);
    if at + 10 + rdlength > |b| {
      return None;
    }
    r := Some(Rr(at, at + 10 + rdlength));
  }

  method ParseEdns(b: Bytes, start: nat) returns (hasEdns: bool, doBit: bool)
    ensures (hasEdns, doBit) == Edns(b, start)
  {
    var pos: nat := start;
    while true
      invariant Edns(b, start) == Edns(b, pos)
      decreases |b| - pos
    {
      if pos + 11 > |b| {
        return false, false;
      }
      var r := ScanRecord(b, pos);
      if r.None? {
        return false, false;
      }
      if U16(b, r.value.at) == TYPE_OPT {
        return true, b[r.value.at + 6] >= 0x80;
      }
      pos := r.value.next;
    }
  }

  /** A least TTL so far, combined with the least TTL of the rest. */
  function Combine(least: Option<int>, rest: Option<int>): Option<int> {
    if rest.None? then None else if least.None? then rest else Some(Min(least.value, rest.value))
  }

  method ParseResponseMinTtl(b: Bytes) returns (ttl: Option<int>)
    ensures ttl == ResponseTtl(b)
  {
    if |b| < DNS_HEADER_LEN {
      return None;
    }
    var flags := U16(b, 2);
    if flags < 0x8000 {
      return None;
    }
    var qdcount, ancount, nscount := U16(b, 4), U16(b, 6), U16(b, 8);
    var pos: nat := DNS_HEADER_LEN;
    for i := 0 to qdcount
      invariant SkipQuestions(b, DNS_HEADER_LEN, qdcount) == SkipQuestions(b, pos, qdcount - i)
    {
      var end := ScanName(b, pos);
      if end.None? || end.value + 4 > |b| {
        return None;
      }
      pos := end.value + 4;
    }
    if ancount == 0 {
      var rcode := flags % 16;
      if rcode != 0 && rcode != 3 {
        return Some(0);
      }
      ttl := ParseNegativeTtl(b, pos, nscount);
      return;
    }
    ttl := ParseAnswers(b, pos, ancount);
  }

  method ParseAnswers(b: Bytes, start: nat, ancount: nat) returns (least: Option<int>)
    requires ancount > 0
    ensures least == LeastTtl(b, start, ancount)
  {
    least := None;
    var pos: nat := start;
    for i := 0 to ancount
      invariant i < ancount ==> LeastTtl(b, start, ancount) == Combine(least, LeastTtl(b, pos, ancount - i))
      invariant i == ancount ==> least.Some? && LeastTtl(b, start, ancount) == least
    {
      var r := ScanRecord(b, pos);
      if r.None? {
        return None;
      }
      var ttl := U32(b, r.value.at + 4);
      pos := r.value.next;
      least := Some(if least.None? then ttl else Min(least.value, ttl));
    }
  }

  method ParseNegativeTtl(b: Bytes, start: nat, nscount: nat) returns (ttl: Option<int>)
    ensures ttl == NegativeTtl(b, start, nscount)
  {
    var pos: nat := start;
    for i := 0 to nscount
      invariant NegativeTtl(b, start, nscount) == NegativeTtl(b, pos, nscount - i)
    {
      var r := ScanRecord(b, pos);
      if r.None? {
        return None;
      }
      var at, next := r.value.at, r.value.next;
      if U16(b, at) == TYPE_SOA {
        if U16(b, at + 8) < 22 {
          return None;
        }
        return Some(SoaTtl(U32(b, at + 4), U32(b, next - 4)));
      }
      pos := next;
    }
    ttl := Some(0);
  }
}
