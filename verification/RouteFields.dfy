/** Which packet a rule speaks of: the answer of a rule set in the packet's own fields, with
    no mention of maps, slots or the way an entry is evaluated. */
module RouteFields {
  import opened MatchSets
  import opened RouteEngine
  import opened RouteSkipping
  import opened RuleMeaning
  import opened EpochReload
  import opened EpochReaders
  import EpochFailedSwitch

  // ----- What an entry says of a packet -----

  /** Some CIDR with this number contains the address. */
  predicate Covers(rs: RuleSet, number: nat, addr: Bits) {
    number < |rs.tries| && exists cidr :: cidr in rs.tries[number] && cidr <= addr
  }

  /** `index` is where the entry stands: a domain entry asks for the bit of that number in
      the bitmap of the destination. */
  ghost predicate Describes(rs: RuleSet, q: Query, entry: Option<Bitmap>, kind: MatchKind, index: nat) {
    match kind
    case DomainSet => index < MAX_MATCH_SET_LEN && entry.Some? && entry.value[index / 32][index % 32]
    case IpSet(number) => Covers(rs, number, q.daddr)
    case SourceIpSet(number) => Covers(rs, number, q.saddr)
    case Mac(number) => Covers(rs, number, q.mac)
    case Port(first, last) => first <= q.dport && q.dport <= last
    case SourcePort(first, last) => first <= q.sport && q.sport <= last
    case L4Proto(mask) => exists bit :: SharesBit(q.l4proto, mask, bit)
    case IpVersion(mask) => exists bit :: SharesBit(q.ipVersion, mask, bit)
    case ProcessName(name) => q.isWan && q.pname == name
    case Dscp(value) => q.dscp == value
    case Fallback => true
    case Other(_) => false
  }

  ghost function Described(rs: RuleSet, q: Query, entry: Option<Bitmap>): Hits {
    (kind: MatchKind, index: nat) => Describes(rs, q, entry, kind, index)
  }

  predicate KnownKinds(rs: RuleSet) { forall i :: 0 <= i < |rs.matchSets| ==> !rs.matchSets[i].kind.Other? }

  /** Evaluating an entry of a compiled rule set succeeds, and hits exactly when the entry
      describes the packet. */
  lemma HitIffDescribed(rs: RuleSet, slot: nat, q: Query, entry: Option<Bitmap>, i: nat)
    requires Compiled(rs) && KnownKinds(rs) && slot < EPOCH_SLOT_NUM && i < |rs.matchSets|
    ensures var kind := rs.matchSets[i].kind;
            EvalFresh(q, slot, TablesOf(rs, slot, q.daddr, entry), kind, i) == HitIf(Describes(rs, q, entry, kind, i))
  {
    var kind := rs.matchSets[i].kind;
    var number := TrieOf(kind);
    if number.Some? {
      LpmOfAt(rs.tries, slot, |rs.tries|, number.value);
    } else if kind.L4Proto? {
      IntersectIff(q.l4proto, kind.mask);
    } else if kind.IpVersion? {
      IntersectIff(q.ipVersion, kind.mask);
    }
  }

  lemma ReadsAsDescribed(rs: RuleSet, slot: nat, q: Query, entry: Option<Bitmap>)
    requires Compiled(rs) && KnownKinds(rs) && slot < EPOCH_SLOT_NUM
    ensures ReadsAs(Fresh(q, slot, TablesOf(rs, slot, q.daddr, entry)), Described(rs, q, entry), rs.matchSets, 0)
  {
    forall i | 0 <= i < |rs.matchSets|
      ensures Fresh(q, slot, TablesOf(rs, slot, q.daddr, entry))(rs.matchSets[i].kind, 0 + i) ==
              HitIf(Described(rs, q, entry)(rs.matchSets[i].kind, 0 + i))
    {
      HitIffDescribed(rs, slot, q, entry, i);
    }
  }

  // ----- The answer in packet fields -----

  /** The whole meaning of a rule set: its answer is outbound, mark and must of the first
      nested rule all of whose subrules describe the packet, and negative if none does. */
  lemma VerdictInPacketFields(rs: RuleSet, slot: nat, q: Query, entry: Option<Bitmap>, rules: seq<Rule>)
    requires Compiled(rs) && KnownKinds(rs) && slot < EPOCH_SLOT_NUM
    requires ValidOutbounds(rules) && rs.matchSets == Flatten(rules)
    ensures ReportsFirstDecider(Verdict(rs, slot, q, entry), Described(rs, q, entry), rules, slot)
  {
    ReadsAsDescribed(rs, slot, q, entry);
    LoopReports(q, slot, TablesOf(rs, slot, q.daddr, entry), rules, Described(rs, q, entry));
  }

  /** The same of a call on the maps. */
  lemma RouteInPacketFields(m: Maps, rs: RuleSet, q: Query, rules: seq<Rule>)
    requires m.active < EPOCH_SLOT_NUM && Compiled(rs) && KnownKinds(rs) && Holds(m, m.active, rs)
    requires ValidOutbounds(rules) && rs.matchSets == Flatten(rules)
    ensures var entry := Lookup(m.domain, DomainKey(m.active, q.daddr));
            ReportsFirstDecider(RouteOn(m, q), Described(rs, q, entry), rules, m.active)
  {
    EpochFailedSwitch.CallAnswersAsHeld(m, rs, q);
    VerdictInPacketFields(rs, m.active, q, Lookup(m.domain, DomainKey(m.active, q.daddr)), rules);
  }

  // ----- One entry of any kind -----

  /** An entry of this kind to one outbound, everything else to another. */
  function OneEntry(kind: MatchKind, negated: bool, tries: seq<Trie>, outbound: u8, otherwise: u8): RuleSet {
    RuleSet([MatchSet(kind, negated, outbound, false, 0), MatchSet(Fallback, false, otherwise, false, 0)], tries)
  }

  function AsRules(kind: MatchKind, negated: bool, outbound: u8, otherwise: u8): seq<Rule> {
    var last := Entry(Fallback, false, false, 0);
    [Rule(Only(One(Entry(kind, negated, false, 0))), outbound), Rule(Only(One(last)), otherwise)]
  }

  lemma OneEntryFlattens(kind: MatchKind, negated: bool, tries: seq<Trie>, outbound: u8, otherwise: u8)
    ensures OneEntry(kind, negated, tries, outbound, otherwise).matchSets ==
            Flatten(AsRules(kind, negated, outbound, otherwise))
  {
    var rules := AsRules(kind, negated, outbound, otherwise);
    assert rules[1..] == [rules[1]] && rules[1..][1..] == [];
    assert Flatten(rules[1..]) == [Flat(Entry(Fallback, false, false, 0), otherwise)] + [];
  }

  /** For every kind of entry: the packet goes to its outbound if and only if the entry
      describes it (does not, when it is negated), and to the other one otherwise. */
  lemma OneEntryAnswers(
    kind: MatchKind, negated: bool, tries: seq<Trie>, outbound: u8, otherwise: u8, slot: nat, q: Query,
    entry: Option<Bitmap>)
    requires !kind.Other? && slot < EPOCH_SLOT_NUM && |tries| <= MAX_MATCH_SET_LEN
    requires TrieOf(kind).Some? ==> TrieOf(kind).value < |tries| && tries[TrieOf(kind).value] != {}
    requires IsTail(outbound) && IsTail(otherwise)
    requires outbound != OUTBOUND_MUST_RULES && otherwise != OUTBOUND_MUST_RULES
    ensures var rs := OneEntry(kind, negated, tries, outbound, otherwise);
            Verdict(rs, slot, q, entry) >= 0 &&
            Unpack(Verdict(rs, slot, q, entry)) ==
            Decision(if Describes(rs, q, entry, kind, 0) != negated then outbound else otherwise, 0, false,
                     SlotEncode(slot))
  {
    var rs, rules := OneEntry(kind, negated, tries, outbound, otherwise), AsRules(kind, negated, outbound, otherwise);
    OneEntryFlattens(kind, negated, tries, outbound, otherwise);
    VerdictInPacketFields(rs, slot, q, entry, rules);
    var h := Described(rs, q, entry);
    assert RuleStart(rules, 1) == 1;
    if Describes(rs, q, entry, kind, 0) != negated {
      assert FirstDecides(h, rules, 0, 0);
    } else {
      assert FirstDecides(h, rules, 1, 0);
      assert !MustBefore(h, rules, 1, 0);
    }
  }

  // ----- What a rule set does not read -----

  /** Two packets agree in the field that an entry of this kind looks at. */
  predicate AgreeOn(kind: MatchKind, q: Query, p: Query) {
    match kind
    case IpSet(_) => q.daddr == p.daddr
    case SourceIpSet(_) => q.saddr == p.saddr
    case Mac(_) => q.mac == p.mac
    case Port(_, _) => q.dport == p.dport
    case SourcePort(_, _) => q.sport == p.sport
    case L4Proto(_) => q.l4proto == p.l4proto
    case IpVersion(_) => q.ipVersion == p.ipVersion
    case ProcessName(_) => q.isWan == p.isWan && q.pname == p.pname
    case Dscp(_) => q.dscp == p.dscp
    case DomainSet | Fallback | Other(_) => true
  }

  predicate AgreeWhereRead(rs: RuleSet, q: Query, p: Query) {
    forall i :: 0 <= i < |rs.matchSets| ==> AgreeOn(rs.matchSets[i].kind, q, p)
  }

  lemma {:induction false} SameOutcomesSameRun(
    st: RouteState, a: Evaluator, b: Evaluator, list: seq<MatchSet>, index: nat)
    requires forall i :: 0 <= i < |list| ==> a(list[i].kind, index + i) == b(list[i].kind, index + i)
    ensures RunPlain(st, a, list, index) == RunPlain(st, b, list, index)
    decreases |list|
  {
    if list != [] {
      assert a(list[0].kind, index + 0) == b(list[0].kind, index + 0);
      var s := PlainBody(st, a, list[0], index);
      forall i | 0 <= i < |list[1..]|
        ensures a(list[1..][i].kind, index + 1 + i) == b(list[1..][i].kind, index + 1 + i)
      {
        assert list[1..][i] == list[i + 1] && index + 1 + i == index + (i + 1);
      }
      if !s.stop { SameOutcomesSameRun(s.state, a, b, list[1..], index + 1); }
    }
  }

  /** A field that no entry looks at does not matter: for every rule set, packets that agree
      in the fields it reads, with the same bitmap, get the same answer. */
  lemma UnreadFieldsDoNotMatter(rs: RuleSet, slot: nat, q: Query, p: Query, entry: Option<Bitmap>)
    requires Compiled(rs) && KnownKinds(rs) && slot < EPOCH_SLOT_NUM && AgreeWhereRead(rs, q, p)
    ensures Verdict(rs, slot, q, entry) == Verdict(rs, slot, p, entry)
  {
    var tq, tp := TablesOf(rs, slot, q.daddr, entry), TablesOf(rs, slot, p.daddr, entry);
    forall i: nat | i < |rs.matchSets|
      ensures Fresh(q, slot, tq)(rs.matchSets[i].kind, 0 + i) == Fresh(p, slot, tp)(rs.matchSets[i].kind, 0 + i)
    {
      HitIffDescribed(rs, slot, q, entry, i);
      HitIffDescribed(rs, slot, p, entry, i);
      DescribedAlike(rs, q, p, entry, i);
    }
    SameOutcomesSameRun(Core(Initial()), Fresh(q, slot, tq), Fresh(p, slot, tp), rs.matchSets, 0);
    CachedLoopIsPlain(Initial(), q, slot, tq, rs.matchSets, 0);
    CachedLoopIsPlain(Initial(), p, slot, tp, rs.matchSets, 0);
  }

  lemma DescribedAlike(rs: RuleSet, q: Query, p: Query, entry: Option<Bitmap>, i: nat)
    requires i < |rs.matchSets| && AgreeWhereRead(rs, q, p)
    ensures Describes(rs, q, entry, rs.matchSets[i].kind, i) == Describes(rs, p, entry, rs.matchSets[i].kind, i)
  {
  }

  /** In particular a rule set without source entries does not look at the source. */
  lemma SourceDoesNotMatter(rs: RuleSet, slot: nat, q: Query, saddr: Bits, sport: nat, entry: Option<Bitmap>)
    requires Compiled(rs) && KnownKinds(rs) && slot < EPOCH_SLOT_NUM
    requires forall i :: 0 <= i < |rs.matchSets| ==>
               !rs.matchSets[i].kind.SourceIpSet? && !rs.matchSets[i].kind.SourcePort?
    ensures Verdict(rs, slot, q.(saddr := saddr, sport := sport), entry) == Verdict(rs, slot, q, entry)
  {
    UnreadFieldsDoNotMatter(rs, slot, q, q.(saddr := saddr, sport := sport), entry);
  }

  // ----- Entries that cannot be evaluated -----

  /** Evaluation fails exactly on a type that the kernel does not know and on a trie that is
      not there. */
  lemma FaultIff(q: Query, slot: nat, t: Tables, kind: MatchKind, index: nat)
    requires index < MAX_MATCH_SET_LEN
    ensures EvalFresh(q, slot, t, kind, index).Fault? <==>
            kind.Other? || (TrieOf(kind).Some? && (slot >= EPOCH_SLOT_NUM || TrieOf(kind).value >= MAX_MATCH_SET_LEN
                                                   || slot * MAX_MATCH_SET_LEN + TrieOf(kind).value !in t.lpm))
  {
  }

  /** A call without an active slot uses the first one, and one with a slot that is not there
      fails before it looks at any rule. */
  lemma ActiveSlotDecides(q: Query, slot: nat, meta: map<nat, nat>, routing: map<nat, MatchSet>, t: Tables)
    ensures RouteValue(q, None, meta, routing, t) == RouteValue(q, Some(0), meta, routing, t)
    ensures RouteValue(q, Some(slot), meta, routing, t) == -EFAULT <==> slot >= EPOCH_SLOT_NUM
  {
  }

  /** An iteration that goes on has decided nothing. */
  lemma GoesOnUndecided(st: RouteState, q: Query, slot: nat, t: Tables, ms: MatchSet, index: nat)
    requires !Body(st, q, slot, t, ms, index).stop
    ensures Body(st, q, slot, t, ms, index).state.result == st.result
  {
  }

  lemma {:induction false} DecidedAt(
    st: RouteState, q: Query, slot: nat, t: Tables, routing: map<nat, MatchSet>, index: nat, n: nat)
    returns (i: nat)
    requires index <= n && st.result < 0 && RunLoop(st, q, slot, t, routing, index, n).result >= 0
    ensures index <= i < n && forall j :: index <= j <= i ==> Key(slot, j) in routing
    ensures RunLoop(st, q, slot, t, routing, index, i + 1) == RunLoop(st, q, slot, t, routing, index, n)
    decreases n - index
  {
    var s := LoopCb(st, q, slot, t, routing, index);
    if s.stop {
      i := index;
    } else {
      GoesOnUndecided(st, q, slot, t, routing[Key(slot, index)], index);
      i := DecidedAt(s.state, q, slot, t, routing, index + 1, n);
    }
  }

  /** A call that answers was decided by an entry inside the slot's count, every entry up to
      it is there, and none after it matters. */
  lemma AnswerNeedsEntries(q: Query, slot: nat, meta: map<nat, nat>, routing: map<nat, MatchSet>, t: Tables)
    returns (i: nat)
    requires RouteValue(q, Some(slot), meta, routing, t) >= 0
    ensures i < MAX_MATCH_SET_LEN && (slot in meta && meta[slot] <= MAX_MATCH_SET_LEN ==> i < meta[slot])
    ensures forall j :: 0 <= j <= i ==> Key(slot, j) in routing
    ensures RouteValue(q, Some(slot), meta[slot := i + 1], routing, t) == RouteValue(q, Some(slot), meta, routing, t)
  {
    i := DecidedAt(Initial(), q, slot, t, routing, 0, RulesLen(meta, slot));
  }

  /** The entries before `i` decide nothing and leave entry `i` to be evaluated. */
  predicate Reaches(eval: Evaluator, list: seq<MatchSet>, i: nat)
    requires i < |list|
  {
    var s := RunPlain(Core(Initial()), eval, list[..i], 0);
    !s.stop && !s.state.bad && !s.state.good
  }

  /** A call that reaches an entry that cannot be evaluated fails, whatever follows. */
  lemma FaultFailsCall(q: Query, slot: nat, t: Tables, list: seq<MatchSet>, i: nat)
    requires i < |list| && Reaches(Fresh(q, slot, t), list, i) && EvalFresh(q, slot, t, list[i].kind, i).Fault?
    ensures Conclude(RunList(Initial(), q, slot, t, list, 0).state, slot) == -EPERM
  {
    var eval := Fresh(q, slot, t);
    CachedLoopIsPlain(Initial(), q, slot, t, list, 0);
    assert list == list[..i] + list[i..];
    RunAppend(Core(Initial()), eval, list[..i], list[i..], 0);
  }
}
