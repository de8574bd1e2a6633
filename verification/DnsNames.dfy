/** Dotted names as cache keys: exactly which encoded queries share one. */
module DnsNames {
  import opened MatchSets
  import opened ByteStrings
  import opened DnsWire
  import opened DnsEncoding
  import opened DnsForwarding

  // ----- Splitting at dots -----

  function Split(s: Text): (pieces: seq<Text>)
    ensures |pieces| > 0
  {
    if s == [] then [[]]
    else if s[0] == DOT then [[]] + Split(s[1..])
    else Onto(s[0], Split(s[1..]))
  }

  /** A character in front of the first piece. */
  function Onto(c: int, pieces: seq<Text>): seq<Text>
    requires |pieces| > 0
  {
    [[c] + pieces[0]] + pieces[1..]
  }

  lemma OntoConcat(c: int, a: seq<Text>, b: seq<Text>)
    requires |a| > 0
    ensures Onto(c, a + b) == Onto(c, a) + b
  {
    assert (a + b)[1..] == a[1..] + b;
  }

  /** The labels that a dotted name shows. */
  function Pieces(labels: seq<Text>): seq<Text> {
    if labels == [] then [] else Split(labels[0]) + Pieces(labels[1..])
  }

  lemma {:induction false} SplitAtDot(a: Text, b: Text)
    ensures Split(a + [DOT] + b) == Split(a) + Split(b)
  {
    var s := a + [DOT] + b;
    if a == [] {
      assert s[1..] == b;
    } else {
      assert s[0] == a[0] && s[1..] == a[1..] + [DOT] + b;
      SplitAtDot(a[1..], b);
      OntoConcat(a[0], Split(a[1..]), Split(b));
    }
  }

  lemma {:induction false} SplitJoin(labels: seq<Text>)
    requires labels != []
    ensures Split(Join(labels)) == Pieces(labels)
  {
    if |labels| == 1 {
      assert Pieces(labels[1..]) == [];
    } else {
      SplitJoin(labels[1..]);
      SplitAtDot(labels[0], Join(labels[1..]));
    }
  }

  lemma JoinCons(first: Text, rest: seq<Text>)
    requires rest != []
    ensures Join([first] + rest) == first + [DOT] + Join(rest)
  {
    assert ([first] + rest)[1..] == rest;
  }

  lemma {:induction false} JoinSplit(s: Text)
    ensures Join(Split(s)) == s
  {
    if s != [] {
      var rest := Split(s[1..]);
      JoinSplit(s[1..]);
      if s[0] == DOT {
        JoinCons([], rest);
      } else if |rest| == 1 {
        assert Onto(s[0], rest) == [[s[0]] + rest[0]];
      } else {
        assert rest == [rest[0]] + rest[1..];
        JoinCons(rest[0], rest[1..]);
        JoinCons([s[0]] + rest[0], rest[1..]);
      }
    }
  }

  /** Labels on the wire are not empty. */
  predicate NonEmpty(labels: seq<Text>) { forall i :: 0 <= i < |labels| ==> |labels[i]| > 0 }

  lemma JoinNonEmpty(labels: seq<Text>)
    requires labels != [] && NonEmpty(labels)
    ensures Join(labels) != []
  {
    assert |labels[0]| > 0;
  }

  /** Two lists of labels have one dotted name exactly when they show the same pieces. */
  lemma JoinsAgreeIff(a: seq<Text>, b: seq<Text>)
    requires NonEmpty(a) && NonEmpty(b)
    ensures Join(a) == Join(b) <==> Pieces(a) == Pieces(b)
  {
    if a != [] && b != [] {
      SplitJoin(a);
      SplitJoin(b);
      JoinSplit(Join(a));
      JoinSplit(Join(b));
    } else if a != [] {
      JoinNonEmpty(a);
    } else if b != [] {
      JoinNonEmpty(b);
    }
  }

  // ----- Labels without dots -----

  predicate DotFree(labels: seq<Text>) { forall i :: 0 <= i < |labels| ==> DOT !in labels[i] }

  lemma {:induction false} SplitDotFree(s: Text)
    requires DOT !in s
    ensures Split(s) == [s]
  {
    if s != [] {
      SplitDotFree(s[1..]);
      assert [s[0]] + s[1..] == s;
    }
  }

  lemma {:induction false} PiecesDotFree(labels: seq<Text>)
    requires DotFree(labels)
    ensures Pieces(labels) == labels
  {
    if labels != [] {
      SplitDotFree(labels[0]);
      PiecesDotFree(labels[1..]);
      assert labels == [labels[0]] + labels[1..];
    }
  }

  // ----- Names on the wire -----

  lemma {:induction false} WireLabelsNonEmpty(n: WireName)
    requires IsName(n)
    ensures NonEmpty(LabelsOf(n))
  {
    if n.Labelled? {
      WireLabelsNonEmpty(n.rest);
      LowerLength(n.text);
    }
  }

  lemma {:induction false} LowerLength(b: Bytes)
    ensures |Lower(b)| == |b|
  {
    if |b| > 0 { LowerLength(b[1..]); }
  }

  /** A query with one question and any records after it. */
  datatype Asked = Asked(h: Header, name: WireName, qtype: int, qclass: int, rs: Records)

  predicate IsAsked(a: Asked) {
    && IsHeader(a.h) && a.h.qdcount == 1 && IsPlain(a.name) && IsName(a.name) && AreRecords(a.rs)
    && 0 <= a.qtype < 0x10000 && 0 <= a.qclass < 0x10000
  }

  function EncodeAsked(a: Asked): Bytes
    requires IsAsked(a)
  {
    EncodeHeader(a.h) + (EncodeName(a.name) + ((BigEndian16(a.qtype) + BigEndian16(a.qclass)) + EncodeRecords(a.rs)))
  }

  lemma KeyOfAsked(a: Asked) returns (key: CacheKey)
    requires IsAsked(a)
    ensures QueryOf(EncodeAsked(a)).Some? && KeyOf(QueryOf(EncodeAsked(a)).value) == key
    ensures key == CacheKey(Join(LabelsOf(a.name)), a.qtype, EdnsOf(a.rs).0, EdnsOf(a.rs).1)
  {
    QueryRoundTrip(a.h, a.name, a.qtype, a.qclass, a.rs);
    key := KeyOf(QueryOf(EncodeAsked(a)).value);
  }

  /** Exactly: two encoded queries share a cache key if and only if they agree on type, EDNS
      and DO, and their lower-cased labels show the same pieces when dots inside labels are
      taken for separators. */
  lemma KeysShareIff(a: Asked, b: Asked)
    requires IsAsked(a) && IsAsked(b)
    ensures QueryOf(EncodeAsked(a)).Some? && QueryOf(EncodeAsked(b)).Some?
    ensures KeyOf(QueryOf(EncodeAsked(a)).value) == KeyOf(QueryOf(EncodeAsked(b)).value) <==>
            a.qtype == b.qtype && EdnsOf(a.rs) == EdnsOf(b.rs) && Pieces(LabelsOf(a.name)) == Pieces(LabelsOf(b.name))
  {
    var ka := KeyOfAsked(a);
    var kb := KeyOfAsked(b);
    WireLabelsNonEmpty(a.name);
    WireLabelsNonEmpty(b.name);
    JoinsAgreeIff(LabelsOf(a.name), LabelsOf(b.name));
  }

  /** So names without dots inside their labels share a key only with the same labels, up
      to case. */
  lemma DotFreeKeysShareIff(a: Asked, b: Asked)
    requires IsAsked(a) && IsAsked(b) && DotFree(LabelsOf(a.name)) && DotFree(LabelsOf(b.name))
    ensures QueryOf(EncodeAsked(a)).Some? && QueryOf(EncodeAsked(b)).Some?
    ensures KeyOf(QueryOf(EncodeAsked(a)).value) == KeyOf(QueryOf(EncodeAsked(b)).value) <==>
            a.qtype == b.qtype && EdnsOf(a.rs) == EdnsOf(b.rs) && LabelsOf(a.name) == LabelsOf(b.name)
  {
    KeysShareIff(a, b);
    PiecesDotFree(LabelsOf(a.name));
    PiecesDotFree(LabelsOf(b.name));
  }

  // ----- Two names with one key -----

  lemma {:induction false} Utf8Concat(a: Bytes, b: Bytes)
    requires IsUtf8(a) && IsUtf8(b)
    ensures IsUtf8(a + b)
  {
    if |a| == 0 {
      assert a + b == b;
    } else {
      var n := Utf8Step(a);
      StepConcat(a, b);
      assert (a + b)[n..] == a[n..] + b;
      Utf8Concat(a[n..], b);
    }
  }

  lemma StepConcat(a: Bytes, b: Bytes)
    requires |a| > 0 && Utf8Step(a) > 0
    ensures Utf8Step(a + b) == Utf8Step(a)
  {
    forall i: nat, low, high | Continues(a, i, low, high)
      ensures Continues(a + b, i, low, high)
    {
      assert (a + b)[i] == a[i];
    }
  }

  lemma {:induction false} LowerConcat(a: Bytes, b: Bytes)
    ensures Lower(a + b) == Lower(a) + Lower(b)
  {
    if |a| == 0 {
      assert a + b == b;
    } else {
      assert (a + b)[1..] == a[1..] + b && (a + b)[0] == a[0];
      LowerConcat(a[1..], b);
    }
  }

  function Dotted(p: Bytes, q: Bytes): Bytes { p + [DOT] + q }

  /** For every two labels that fit in one with a dot between them, and any query: asking
      for the one label and asking for the two is asking under one key, although the names
      are different. */
  lemma DottedLabelCollides(p: Bytes, q: Bytes, a: Asked) returns (one: Asked, two: Asked)
    requires 0 < |p| && 0 < |q| && |p| + 1 + |q| <= 63 && IsUtf8(p) && IsUtf8(q) && IsAsked(a)
    ensures one == a.(name := Labelled(Dotted(p, q), a.name)) && two == a.(name := Labelled(p, Labelled(q, a.name)))
    ensures IsAsked(one) && IsAsked(two) && LabelsOf(one.name) != LabelsOf(two.name)
    ensures QueryOf(EncodeAsked(one)).Some? && QueryOf(EncodeAsked(two)).Some?
    ensures KeyOf(QueryOf(EncodeAsked(one)).value) == KeyOf(QueryOf(EncodeAsked(two)).value)
  {
    one, two := a.(name := Labelled(Dotted(p, q), a.name)), a.(name := Labelled(p, Labelled(q, a.name)));
    DottedIsPlain(p, q, a.name);
    KeysShareIff(one, two);
    SamePieces(p, q, a.name);
    assert |LabelsOf(two.name)| == |LabelsOf(one.name)| + 1;
  }

  lemma DottedIsPlain(p: Bytes, q: Bytes, rest: WireName)
    requires 0 < |p| && 0 < |q| && |p| + 1 + |q| <= 63 && IsUtf8(p) && IsUtf8(q) && IsPlain(rest) && IsName(rest)
    ensures IsPlain(Labelled(Dotted(p, q), rest)) && IsName(Labelled(Dotted(p, q), rest))
    ensures IsPlain(Labelled(p, Labelled(q, rest))) && IsName(Labelled(p, Labelled(q, rest)))
  {
    AsciiIsUtf8([DOT]);
    Utf8Concat(p, [DOT]);
    Utf8Concat(p + [DOT], q);
    var inner := Labelled(q, rest);
    assert IsPlain(inner) && IsName(inner);
  }

  lemma SamePieces(p: Bytes, q: Bytes, rest: WireName)
    ensures Pieces(LabelsOf(Labelled(Dotted(p, q), rest))) == Pieces(LabelsOf(Labelled(p, Labelled(q, rest))))
  {
    var one, two := LabelsOf(Labelled(Dotted(p, q), rest)), LabelsOf(Labelled(p, Labelled(q, rest)));
    LowerConcat(p + [DOT], q);
    LowerConcat(p, [DOT]);
    assert Lower([DOT]) == [DOT];
    SplitAtDot(Lower(p), Lower(q));
    assert one[1..] == LabelsOf(rest) && two[1..] == [Lower(q)] + LabelsOf(rest) && two[1..][1..] == LabelsOf(rest);
  }
}
