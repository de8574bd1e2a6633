/** What a list of nested rules means, and the proof that the flat array with its
    OR / AND / tail outbound codes means the same to the kernel loop. */
module RuleMeaning {
  import opened MatchSets
  import opened RouteEngine
  import opened RouteSkipping

  // ----- Nested rules -----

  datatype Entry = Entry(kind: MatchKind, negated: bool, must: bool, mark: u32)

  /** A disjunction of entries; its last entry carries the negation. */
  datatype Subrule = One(last: Entry) | Or(head: Entry, rest: Subrule)

  /** A conjunction of subrules. */
  datatype Condition = Only(sub: Subrule) | And(first: Subrule, others: Condition)

  /** `a(x, y) && !b(z) -> outbound`. */
  datatype Rule = Rule(condition: Condition, outbound: u8)

  predicate ValidOutbounds(rules: seq<Rule>) {
    forall i :: 0 <= i < |rules| ==> IsTail(rules[i].outbound)
  }

  function LastEntry(sub: Subrule): Entry {
    match sub case One(entry) => entry case Or(_, rest) => LastEntry(rest)
  }

  /** Mark and must of a rule are those of its very last entry. */
  function TailEntry(c: Condition): Entry {
    match c case Only(sub) => LastEntry(sub) case And(_, others) => TailEntry(others)
  }

  // ----- Meaning -----

  /** Whether the entry with this content at this flat index hits. */
  type Hits = (MatchKind, nat) -> bool

  function FreshHits(q: Query, slot: nat, t: Tables): Hits {
    (kind: MatchKind, index: nat) => EvalFresh(q, slot, t, kind, index).Hit?
  }

  function SubruleSize(sub: Subrule): nat {
    match sub case One(_) => 1 case Or(_, rest) => 1 + SubruleSize(rest)
  }

  function Size(c: Condition): nat {
    match c case Only(sub) => SubruleSize(sub) case And(first, others) => SubruleSize(first) + Size(others)
  }

  predicate AnyHits(h: Hits, sub: Subrule, base: nat) {
    match sub
    case One(entry) => h(entry.kind, base)
    case Or(entry, rest) => h(entry.kind, base) || AnyHits(h, rest, base + 1)
  }

  predicate SubruleHits(h: Hits, sub: Subrule, base: nat) {
    AnyHits(h, sub, base) != LastEntry(sub).negated
  }

  predicate AllHit(h: Hits, c: Condition, base: nat) {
    match c
    case Only(sub) => SubruleHits(h, sub, base)
    case And(first, others) => SubruleHits(h, first, base) && AllHit(h, others, base + SubruleSize(first))
  }

  /** Number of entries before rule `i`. */
  function RuleStart(rules: seq<Rule>, i: nat): nat
    requires i <= |rules|
  {
    if i == 0 then 0 else RuleStart(rules, i - 1) + Size(rules[i - 1].condition)
  }

  predicate HitsAt(h: Hits, rules: seq<Rule>, i: nat, base: nat)
    requires i < |rules|
  {
    AllHit(h, rules[i].condition, base + RuleStart(rules, i))
  }

  /** Rule `i` hits and is not a `must_rules` line. */
  predicate Decides(h: Hits, rules: seq<Rule>, i: nat, base: nat)
    requires i < |rules|
  {
    rules[i].outbound != OUTBOUND_MUST_RULES && HitsAt(h, rules, i, base)
  }

  predicate FirstDecides(h: Hits, rules: seq<Rule>, i: nat, base: nat)
    requires i < |rules|
  {
    Decides(h, rules, i, base) && forall j :: 0 <= j < i ==> !Decides(h, rules, j, base)
  }

  predicate MustBefore(h: Hits, rules: seq<Rule>, i: nat, base: nat)
    requires i <= |rules|
  {
    exists j :: 0 <= j < i && rules[j].outbound == OUTBOUND_MUST_RULES && HitsAt(h, rules, j, base)
  }

  // ----- Flattening -----

  function Flat(entry: Entry, outbound: u8): MatchSet {
    MatchSet(entry.kind, entry.negated, outbound, entry.must, entry.mark)
  }

  function FlattenSubrule(sub: Subrule, code: u8): seq<MatchSet> {
    match sub
    case One(entry) => [Flat(entry, code)]
    case Or(entry, rest) => [Flat(entry, OUTBOUND_LOGICAL_OR)] + FlattenSubrule(rest, code)
  }

  function FlattenCondition(c: Condition, outbound: u8): seq<MatchSet> {
    match c
    case Only(sub) => FlattenSubrule(sub, outbound)
    case And(first, others) => FlattenSubrule(first, OUTBOUND_LOGICAL_AND) + FlattenCondition(others, outbound)
  }

  function Flatten(rules: seq<Rule>): seq<MatchSet> {
    if rules == [] then [] else FlattenCondition(rules[0].condition, rules[0].outbound) + Flatten(rules[1..])
  }

  // ----- Running a list -----

  /** Evaluating the list never fails and hits as `h` says. */
  predicate ReadsAs(eval: Evaluator, h: Hits, list: seq<MatchSet>, base: nat) {
    forall i :: 0 <= i < |list| ==> eval(list[i].kind, base + i) == HitIf(h(list[i].kind, base + i))
  }

  lemma ReadsAsSplit(eval: Evaluator, h: Hits, a: seq<MatchSet>, b: seq<MatchSet>, base: nat)
    requires ReadsAs(eval, h, a + b, base)
    ensures ReadsAs(eval, h, a, base) && ReadsAs(eval, h, b, base + |a|)
  {
    forall i | 0 <= i < |a| ensures eval(a[i].kind, base + i) == HitIf(h(a[i].kind, base + i)) {
      assert (a + b)[i] == a[i];
    }
    forall i | 0 <= i < |b| ensures eval(b[i].kind, base + |a| + i) == HitIf(h(b[i].kind, base + |a| + i)) {
      assert (a + b)[|a| + i] == b[i] && base + (|a| + i) == base + |a| + i;
    }
  }

  lemma {:induction false} RunAppend(st: RouteState, eval: Evaluator, a: seq<MatchSet>, b: seq<MatchSet>, index: nat)
    ensures RunPlain(st, eval, a + b, index) ==
            var s := RunPlain(st, eval, a, index);
            if s.stop then s else RunPlain(s.state, eval, b, index + |a|)
    decreases |a|
  {
    if a == [] {
      assert a + b == b;
    } else {
      var s := PlainBody(st, eval, a[0], index);
      assert (a + b)[1..] == a[1..] + b;
      if !s.stop {
        RunAppend(s.state, eval, a[1..], b, index + 1);
      }
    }
  }

  lemma RunFirst(st: RouteState, eval: Evaluator, ms: MatchSet, rest: seq<MatchSet>, index: nat)
    ensures RunPlain(st, eval, [ms] + rest, index) ==
            var s := PlainBody(st, eval, ms, index);
            if s.stop then s else RunPlain(s.state, eval, rest, index + 1)
  {
    assert ([ms] + rest)[1..] == rest;
  }

  // ----- One subrule -----

  lemma {:induction false} FlattenSubruleLength(sub: Subrule, code: u8)
    ensures |FlattenSubrule(sub, code)| == SubruleSize(sub)
  {
    if sub.Or? { FlattenSubruleLength(sub.rest, code); }
  }

  /** An entry inside a subrule only accumulates its hit, unless it is skipped. */
  lemma PlainOr(st: RouteState, eval: Evaluator, entry: Entry, index: nat, hit: bool)
    requires eval(entry.kind, index) == HitIf(hit)
    ensures PlainBody(st, eval, Flat(entry, OUTBOUND_LOGICAL_OR), index) ==
            Step(if st.bad then st else st.(good := st.good || hit), false)
  {
  }

  lemma PlainLast(st: RouteState, eval: Evaluator, entry: Entry, code: u8, index: nat, hit: bool)
    requires eval(entry.kind, index) == HitIf(hit) && code != OUTBOUND_LOGICAL_OR
    ensures PlainBody(st, eval, Flat(entry, code), index) ==
            FinalizeMatch(st.(good := st.good || hit), Flat(entry, code))
  {
    if st.bad { BadRuleIgnoresGood(st, st.good, st.good || hit, Flat(entry, code)); }
  }

  lemma BadRuleIgnoresGood(st: RouteState, x: bool, y: bool, ms: MatchSet)
    requires st.bad && ms.outbound != OUTBOUND_LOGICAL_OR
    ensures FinalizeMatch(st.(good := x), ms) == FinalizeMatch(st.(good := y), ms)
  {
  }

  /** Hits accumulate, or do not matter because the rule already failed. */
  lemma Accumulates(st: RouteState, hit: bool, any: bool, ms: MatchSet)
    requires ms.outbound != OUTBOUND_LOGICAL_OR
    ensures var mid := if st.bad then st else st.(good := st.good || hit);
            FinalizeMatch(mid.(good := mid.good || any), ms) == FinalizeMatch(st.(good := st.good || (hit || any)), ms)
  {
    if st.bad {
      BadRuleIgnoresGood(st, st.good || any, st.good || (hit || any), ms);
    }
  }

  lemma RunLast(st: RouteState, eval: Evaluator, entry: Entry, code: u8, base: nat, hit: bool)
    requires code != OUTBOUND_LOGICAL_OR && eval(entry.kind, base) == HitIf(hit)
    ensures RunPlain(st, eval, [Flat(entry, code)], base) ==
            FinalizeMatch(st.(good := st.good || hit), Flat(entry, code))
  {
    assert [Flat(entry, code)] + [] == [Flat(entry, code)];
    RunFirst(st, eval, Flat(entry, code), [], base);
    PlainLast(st, eval, entry, code, base, hit);
  }

  /** A whole subrule is one finalization with the disjunction of its hits. */
  lemma {:induction false} RunSubrule(st: RouteState, eval: Evaluator, h: Hits, sub: Subrule, code: u8, base: nat)
    requires code != OUTBOUND_LOGICAL_OR && ReadsAs(eval, h, FlattenSubrule(sub, code), base)
    ensures RunPlain(st, eval, FlattenSubrule(sub, code), base) ==
            FinalizeMatch(st.(good := st.good || AnyHits(h, sub, base)), Flat(LastEntry(sub), code))
    decreases sub
  {
    var flat := FlattenSubrule(sub, code);
    assert eval(flat[0].kind, base + 0) == HitIf(h(flat[0].kind, base + 0));
    match sub
    case One(entry) =>
      RunLast(st, eval, entry, code, base, h(entry.kind, base));
    case Or(entry, more) =>
      var rest, hit := FlattenSubrule(more, code), h(entry.kind, base);
      ReadsAsSplit(eval, h, [flat[0]], rest, base);
      RunFirst(st, eval, flat[0], rest, base);
      PlainOr(st, eval, entry, base, hit);
      RunSubrule(if st.bad then st else st.(good := st.good || hit), eval, h, more, code, base + 1);
      Accumulates(st, hit, AnyHits(h, more, base + 1), Flat(LastEntry(more), code));
  }

  // ----- One rule -----

  lemma {:induction false} FlattenConditionLength(c: Condition, outbound: u8)
    ensures |FlattenCondition(c, outbound)| == Size(c)
  {
    match c
    case Only(sub) => FlattenSubruleLength(sub, outbound);
    case And(first, others) =>
      FlattenSubruleLength(first, OUTBOUND_LOGICAL_AND);
      FlattenConditionLength(others, outbound);
  }

  /** What a rule does to a state between two rules. */
  function AfterRule(st: RouteState, hits: bool, tail: Entry, outbound: u8): Step {
    if !hits then Step(st, false)
    else if outbound == OUTBOUND_MUST_RULES then Step(st.(must := true), false)
    else Step(st.(result := PackResult(outbound, tail.mark, st.must || tail.must)), true)
  }

  /** Finalizing the last subrule of a rule decides the rule. */
  lemma FinalizeTail(st: RouteState, any: bool, last: Entry, outbound: u8)
    requires IsTail(outbound)
    ensures FinalizeMatch(st.(good := any), Flat(last, outbound)) ==
            AfterRule(st.(bad := false, good := false), !st.bad && any != last.negated, last, outbound)
  {
  }

  /** Finalizing any other subrule only remembers that it missed. */
  lemma FinalizeAnd(st: RouteState, any: bool, last: Entry)
    ensures FinalizeMatch(st.(good := any), Flat(last, OUTBOUND_LOGICAL_AND)) ==
            Step(st.(bad := st.bad || any == last.negated, good := false), false)
  {
  }

  /** The first of several subrules: it is remembered if it misses, and the rest follows. */
  lemma RunFirstOfAnd(
    st: RouteState, eval: Evaluator, h: Hits, first: Subrule, others: Condition, outbound: u8, base: nat)
    requires !st.good && ReadsAs(eval, h, FlattenCondition(And(first, others), outbound), base)
    ensures ReadsAs(eval, h, FlattenCondition(others, outbound), base + SubruleSize(first))
    ensures RunPlain(st, eval, FlattenCondition(And(first, others), outbound), base) ==
            RunPlain(st.(bad := st.bad || !SubruleHits(h, first, base)), eval, FlattenCondition(others, outbound),
                     base + SubruleSize(first))
  {
    var head, rest := FlattenSubrule(first, OUTBOUND_LOGICAL_AND), FlattenCondition(others, outbound);
    FlattenSubruleLength(first, OUTBOUND_LOGICAL_AND);
    ReadsAsSplit(eval, h, head, rest, base);
    RunAppend(st, eval, head, rest, base);
    RunSubrule(st, eval, h, first, OUTBOUND_LOGICAL_AND, base);
    FinalizeAnd(st, AnyHits(h, first, base), LastEntry(first));
  }

  lemma RunOnly(st: RouteState, eval: Evaluator, h: Hits, sub: Subrule, outbound: u8, base: nat)
    requires IsTail(outbound) && !st.good && ReadsAs(eval, h, FlattenSubrule(sub, outbound), base)
    ensures RunPlain(st, eval, FlattenSubrule(sub, outbound), base) ==
            AfterRule(st.(bad := false), !st.bad && SubruleHits(h, sub, base), LastEntry(sub), outbound)
  {
    RunSubrule(st, eval, h, sub, outbound, base);
    FinalizeTail(st, AnyHits(h, sub, base), LastEntry(sub), outbound);
  }

  lemma AndMeans(st: RouteState, h: Hits, first: Subrule, others: Condition, outbound: u8, base: nat)
    ensures var after := st.(bad := st.bad || !SubruleHits(h, first, base));
            AfterRule(after.(bad := false), !after.bad && AllHit(h, others, base + SubruleSize(first)),
                      TailEntry(others), outbound) ==
            AfterRule(st.(bad := false), !st.bad && AllHit(h, And(first, others), base),
                      TailEntry(And(first, others)), outbound)
  {
  }

  lemma {:induction false} RunCondition(
    st: RouteState, eval: Evaluator, h: Hits, c: Condition, outbound: u8, base: nat)
    requires IsTail(outbound) && !st.good && ReadsAs(eval, h, FlattenCondition(c, outbound), base)
    ensures RunPlain(st, eval, FlattenCondition(c, outbound), base) ==
            AfterRule(st.(bad := false), !st.bad && AllHit(h, c, base), TailEntry(c), outbound)
    decreases c
  {
    match c
    case Only(sub) =>
      RunOnly(st, eval, h, sub, outbound, base);
    case And(first, others) =>
      RunFirstOfAnd(st, eval, h, first, others, outbound, base);
      var after := st.(bad := st.bad || !SubruleHits(h, first, base));
      RunCondition(after, eval, h, others, outbound, base + SubruleSize(first));
      AndMeans(st, h, first, others, outbound, base);
  }

  // ----- The whole list -----

  lemma {:induction false} RuleStartTail(rules: seq<Rule>, i: nat)
    requires i < |rules|
    ensures RuleStart(rules, i + 1) == RuleStart(rules, 1) + RuleStart(rules[1..], i)
  {
    if i > 0 { RuleStartTail(rules, i - 1); }
  }

  lemma HitsAtTail(h: Hits, rules: seq<Rule>, i: nat, base: nat)
    requires i + 1 < |rules|
    ensures HitsAt(h, rules, i + 1, base) == HitsAt(h, rules[1..], i, base + RuleStart(rules, 1))
    ensures Decides(h, rules, i + 1, base) == Decides(h, rules[1..], i, base + RuleStart(rules, 1))
  {
    RuleStartTail(rules, i);
    assert rules[1..][i] == rules[i + 1];
    assert base + RuleStart(rules, i + 1) == base + RuleStart(rules, 1) + RuleStart(rules[1..], i);
  }

  lemma MustBeforeStep(h: Hits, rules: seq<Rule>, i: nat, base: nat)
    requires 0 < i <= |rules|
    ensures MustBefore(h, rules, i, base) <==>
            (rules[0].outbound == OUTBOUND_MUST_RULES && HitsAt(h, rules, 0, base))
            || MustBefore(h, rules[1..], i - 1, base + RuleStart(rules, 1))
  {
    var rest, start := rules[1..], base + RuleStart(rules, 1);
    if MustBefore(h, rules, i, base) {
      var j :| 0 <= j < i && rules[j].outbound == OUTBOUND_MUST_RULES && HitsAt(h, rules, j, base);
      if j > 0 {
        HitsAtTail(h, rules, j - 1, base);
        assert rest[j - 1] == rules[j];
      }
    }
    if MustBefore(h, rest, i - 1, start) {
      var j :| 0 <= j < i - 1 && rest[j].outbound == OUTBOUND_MUST_RULES && HitsAt(h, rest, j, start);
      HitsAtTail(h, rules, j, base);
      assert rules[j + 1] == rest[j];
    }
  }

  lemma FirstDecidesTail(h: Hits, rules: seq<Rule>, i: nat, base: nat)
    requires 0 < i < |rules| && FirstDecides(h, rules, i, base)
    ensures FirstDecides(h, rules[1..], i - 1, base + RuleStart(rules, 1))
  {
    var rest, start := rules[1..], base + RuleStart(rules, 1);
    HitsAtTail(h, rules, i - 1, base);
    forall j | 0 <= j < i - 1 ensures !Decides(h, rest, j, start) {
      HitsAtTail(h, rules, j, base);
      assert !Decides(h, rules, j + 1, base);
    }
  }

  /** The rules one after the other, each through `AfterRule`. */
  function ChainRules(st: RouteState, h: Hits, rules: seq<Rule>, base: nat): Step
    decreases |rules|
  {
    if rules == [] then Step(st, false)
    else
      var r := rules[0];
      var s := AfterRule(st, AllHit(h, r.condition, base), TailEntry(r.condition), r.outbound);
      if s.stop then s else ChainRules(s.state, h, rules[1..], base + Size(r.condition))
  }

  lemma RunFirstRule(st: RouteState, eval: Evaluator, h: Hits, rules: seq<Rule>, base: nat) returns (s: Step)
    requires ValidOutbounds(rules) && rules != [] && !st.good && !st.bad && ReadsAs(eval, h, Flatten(rules), base)
    ensures s == AfterRule(st, AllHit(h, rules[0].condition, base), TailEntry(rules[0].condition), rules[0].outbound)
    ensures ReadsAs(eval, h, Flatten(rules[1..]), base + Size(rules[0].condition))
    ensures RunPlain(st, eval, Flatten(rules), base) ==
            if s.stop then s else RunPlain(s.state, eval, Flatten(rules[1..]), base + Size(rules[0].condition))
  {
    s := RunOneRule(st, eval, h, rules[0], Flatten(rules[1..]), base);
  }

  lemma RunOneRule(st: RouteState, eval: Evaluator, h: Hits, r: Rule, rest: seq<MatchSet>, base: nat) returns (s: Step)
    requires IsTail(r.outbound) && !st.good && !st.bad
    requires ReadsAs(eval, h, FlattenCondition(r.condition, r.outbound) + rest, base)
    ensures s == AfterRule(st, AllHit(h, r.condition, base), TailEntry(r.condition), r.outbound)
    ensures ReadsAs(eval, h, rest, base + Size(r.condition))
    ensures RunPlain(st, eval, FlattenCondition(r.condition, r.outbound) + rest, base) ==
            if s.stop then s else RunPlain(s.state, eval, rest, base + Size(r.condition))
  {
    var head := FlattenCondition(r.condition, r.outbound);
    FlattenConditionLength(r.condition, r.outbound);
    ReadsAsSplit(eval, h, head, rest, base);
    RunAppend(st, eval, head, rest, base);
    RunCondition(st, eval, h, r.condition, r.outbound, base);
    s := RunPlain(st, eval, head, base);
  }

  lemma {:induction false} RunIsChain(st: RouteState, eval: Evaluator, h: Hits, rules: seq<Rule>, base: nat)
    requires ValidOutbounds(rules) && !st.good && !st.bad && ReadsAs(eval, h, Flatten(rules), base)
    ensures RunPlain(st, eval, Flatten(rules), base) == ChainRules(st, h, rules, base)
    decreases |rules|
  {
    if rules != [] {
      var s := RunFirstRule(st, eval, h, rules, base);
      if !s.stop {
        RunIsChain(s.state, eval, h, rules[1..], base + Size(rules[0].condition));
      }
    }
  }

  lemma {:induction false} ChainDecided(st: RouteState, h: Hits, rules: seq<Rule>, i: nat, base: nat)
    requires i < |rules| && FirstDecides(h, rules, i, base)
    ensures var s := ChainRules(st, h, rules, base);
            var tail := TailEntry(rules[i].condition);
            s.stop && s.state.result ==
              PackResult(rules[i].outbound, tail.mark, st.must || MustBefore(h, rules, i, base) || tail.must)
    decreases |rules|
  {
    var r := rules[0];
    assert RuleStart(rules, 0) == 0 && RuleStart(rules, 1) == Size(r.condition);
    assert HitsAt(h, rules, 0, base) == AllHit(h, r.condition, base);
    if i == 0 {
      assert !MustBefore(h, rules, 0, base);
    } else {
      assert !Decides(h, rules, 0, base);
      FirstDecidesTail(h, rules, i, base);
      MustBeforeStep(h, rules, i, base);
      var s := AfterRule(st, AllHit(h, r.condition, base), TailEntry(r.condition), r.outbound);
      ChainDecided(s.state, h, rules[1..], i - 1, base + RuleStart(rules, 1));
    }
  }

  lemma {:induction false} ChainUndecided(st: RouteState, h: Hits, rules: seq<Rule>, base: nat)
    requires forall i :: 0 <= i < |rules| ==> !Decides(h, rules, i, base)
    ensures var s := ChainRules(st, h, rules, base);
            !s.stop && s.state.result == st.result
    decreases |rules|
  {
    if rules != [] {
      var r := rules[0];
      assert RuleStart(rules, 0) == 0 && RuleStart(rules, 1) == Size(r.condition);
      assert !Decides(h, rules, 0, base);
      var rest, start := rules[1..], base + RuleStart(rules, 1);
      forall i | 0 <= i < |rest| ensures !Decides(h, rest, i, start) {
        HitsAtTail(h, rules, i, base);
      }
      ChainUndecided(AfterRule(st, AllHit(h, r.condition, base), TailEntry(r.condition), r.outbound).state,
                     h, rest, start);
    }
  }

  /** What `route()` must report for a list of nested rules. */
  predicate ReportsFirstDecider(ret: int, h: Hits, rules: seq<Rule>, slot: nat) {
    && (forall i :: 0 <= i < |rules| && FirstDecides(h, rules, i, 0) ==>
          var tail := TailEntry(rules[i].condition);
          ret >= 0 && Unpack(ret) ==
            Decision(rules[i].outbound, tail.mark, MustBefore(h, rules, i, 0) || tail.must, SlotEncode(slot)))
    && ((forall i :: 0 <= i < |rules| ==> !Decides(h, rules, i, 0)) ==> ret < 0)
  }

  lemma LoopMeansNestedRules(q: Query, slot: nat, t: Tables, rules: seq<Rule>)
    requires ValidOutbounds(rules) && slot < EPOCH_SLOT_NUM && NoFault(Fresh(q, slot, t), Flatten(rules), 0)
    ensures ReportsFirstDecider(Conclude(RunList(Initial(), q, slot, t, Flatten(rules), 0).state, slot),
                                FreshHits(q, slot, t), rules, slot)
  {
    assert ReadsAs(Fresh(q, slot, t), FreshHits(q, slot, t), Flatten(rules), 0);
    LoopReports(q, slot, t, rules, FreshHits(q, slot, t));
  }

  /** The same for every way of saying which entries hit. */
  lemma LoopReports(q: Query, slot: nat, t: Tables, rules: seq<Rule>, h: Hits)
    requires ValidOutbounds(rules) && slot < EPOCH_SLOT_NUM && ReadsAs(Fresh(q, slot, t), h, Flatten(rules), 0)
    ensures ReportsFirstDecider(Conclude(RunList(Initial(), q, slot, t, Flatten(rules), 0).state, slot), h, rules, slot)
  {
    var list := Flatten(rules);
    CachedLoopIsPlain(Initial(), q, slot, t, list, 0);
    RunIsChain(Initial(), Fresh(q, slot, t), h, rules, 0);
    var ret := Conclude(RunList(Initial(), q, slot, t, list, 0).state, slot);
    assert ret == Conclude(ChainRules(Initial(), h, rules, 0).state, slot);
    forall i | 0 <= i < |rules| && FirstDecides(h, rules, i, 0)
      ensures var tail := TailEntry(rules[i].condition);
              ret >= 0 && Unpack(ret) ==
                Decision(rules[i].outbound, tail.mark, MustBefore(h, rules, i, 0) || tail.must, SlotEncode(slot))
    {
      ChainDecided(Initial(), h, rules, i, 0);
      var tail := TailEntry(rules[i].condition);
      UnpackInvertsPack(rules[i].outbound, tail.mark, MustBefore(h, rules, i, 0) || tail.must, slot);
    }
    if forall i :: 0 <= i < |rules| ==> !Decides(h, rules, i, 0) {
      ChainUndecided(Initial(), h, rules, 0);
    }
  }

  /** Meaning preservation. When the active slot holds the flattening of `rules`,
      `route()` reports the first rule all of whose subrules hit, with its mark,
      with must also set by an earlier `must_rules` hit, and with the active slot;
      and it reports an error when no rule decides. */
  lemma RouteMeansNestedRules(
    q: Query, slot: nat, meta: map<nat, nat>, routing: map<nat, MatchSet>, t: Tables, rules: seq<Rule>)
    requires ValidOutbounds(rules) && slot < EPOCH_SLOT_NUM && |Flatten(rules)| <= MAX_MATCH_SET_LEN
    requires slot in meta && meta[slot] == |Flatten(rules)| && SlotHolds(routing, slot, Flatten(rules))
    requires NoFault(Fresh(q, slot, t), Flatten(rules), 0)
    ensures ReportsFirstDecider(RouteValue(q, Some(slot), meta, routing, t), FreshHits(q, slot, t), rules, slot)
  {
    RunLoopIsRunList(Initial(), q, slot, t, routing, Flatten(rules), 0);
    assert Flatten(rules)[0..] == Flatten(rules);
    LoopMeansNestedRules(q, slot, t, rules);
  }

  // ----- Every array is a flattening -----

  function ConsEntry(entry: Entry, c: Condition): Condition {
    match c
    case Only(sub) => Only(Or(entry, sub))
    case And(first, others) => And(Or(entry, first), others)
  }

  predicate EndsWithTail(list: seq<MatchSet>) {
    list == [] || IsTail(list[|list| - 1].outbound)
  }

  /** Put one match set in front of already nested rules. */
  function ConsMatchSet(ms: MatchSet, rest: seq<Rule>): seq<Rule>
    requires IsTail(ms.outbound) || rest != []
  {
    var entry := Entry(ms.kind, ms.negated, ms.must, ms.mark);
    if IsTail(ms.outbound) then [Rule(Only(One(entry)), ms.outbound)] + rest
    else if ms.outbound == OUTBOUND_LOGICAL_OR
    then [Rule(ConsEntry(entry, rest[0].condition), rest[0].outbound)] + rest[1..]
    else [Rule(And(One(entry), rest[0].condition), rest[0].outbound)] + rest[1..]
  }

  lemma FlattenConsEntry(entry: Entry, c: Condition, outbound: u8)
    ensures FlattenCondition(ConsEntry(entry, c), outbound) ==
            [Flat(entry, OUTBOUND_LOGICAL_OR)] + FlattenCondition(c, outbound)
  {
    if c.And? {
      var first, others := FlattenSubrule(c.first, OUTBOUND_LOGICAL_AND), FlattenCondition(c.others, outbound);
      assert ([Flat(entry, OUTBOUND_LOGICAL_OR)] + first) + others ==
             [Flat(entry, OUTBOUND_LOGICAL_OR)] + (first + others);
    }
  }

  lemma FlattenCons(r: Rule, rest: seq<Rule>)
    ensures Flatten([r] + rest) == FlattenCondition(r.condition, r.outbound) + Flatten(rest)
  {
    assert ([r] + rest)[1..] == rest;
  }

  /** A longer first rule. */
  lemma FlattenLonger(ms: MatchSet, c: Condition, rest: seq<Rule>)
    requires rest != []
    requires FlattenCondition(c, rest[0].outbound) == [ms] + FlattenCondition(rest[0].condition, rest[0].outbound)
    ensures Flatten([Rule(c, rest[0].outbound)] + rest[1..]) == [ms] + Flatten(rest)
  {
    FlattenCons(Rule(c, rest[0].outbound), rest[1..]);
    var flat := FlattenCondition(rest[0].condition, rest[0].outbound);
    assert ([ms] + flat) + Flatten(rest[1..]) == [ms] + (flat + Flatten(rest[1..]));
  }

  lemma FlattenConsMatchSet(ms: MatchSet, rest: seq<Rule>)
    requires IsTail(ms.outbound) || rest != []
    ensures Flatten(ConsMatchSet(ms, rest)) == [ms] + Flatten(rest)
  {
    var entry := Entry(ms.kind, ms.negated, ms.must, ms.mark);
    if IsTail(ms.outbound) {
      FlattenCons(Rule(Only(One(entry)), ms.outbound), rest);
    } else if ms.outbound == OUTBOUND_LOGICAL_OR {
      FlattenConsEntry(entry, rest[0].condition, rest[0].outbound);
      FlattenLonger(ms, ConsEntry(entry, rest[0].condition), rest);
    } else {
      assert ms.outbound == OUTBOUND_LOGICAL_AND;
      FlattenLonger(ms, And(One(entry), rest[0].condition), rest);
    }
  }

  /** The nested reading of an array. */
  function Nest(list: seq<MatchSet>): (rules: seq<Rule>)
    requires EndsWithTail(list)
    ensures list != [] ==> rules != []
    decreases |list|
  {
    if list == [] then [] else ConsMatchSet(list[0], Nest(list[1..]))
  }

  /** Every array that ends with the tail of a rule is the flattening of its nested
      reading, so the meaning theorem speaks about every such array. */
  lemma {:induction false} FlattenNest(list: seq<MatchSet>)
    requires EndsWithTail(list)
    ensures Flatten(Nest(list)) == list && ValidOutbounds(Nest(list))
    decreases |list|
  {
    if list != [] {
      FlattenNest(list[1..]);
      FlattenConsMatchSet(list[0], Nest(list[1..]));
      assert list == [list[0]] + list[1..];
    }
  }
}
