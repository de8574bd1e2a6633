/** After a failed switch the next reload writes its rules over the ones that readers use:
    a call in between answers from a mixture, in the maps and in the system of readers. */
module EpochFailedSwitch {
  import opened MatchSets
  import opened RouteEngine
  import opened RouteSkipping
  import opened EpochReload
  import opened EpochReaders
  import opened EpochDomainLimit

  // ----- A call while nothing is written -----

  lemma {:induction false} LoopOnMaps(
    m: Maps, rs: RuleSet, slot: nat, q: Query, entry: Option<Bitmap>, st: RouteState, i: nat)
    requires Serves(m, rs, slot, q, entry) && i <= |rs.matchSets|
    ensures RunLoop(st, q, slot, Tables(m.lpm, m.domain), m.routing, i, |rs.matchSets|) ==
            RunPart(rs, slot, q, entry, st, i, |rs.matchSets|).state
    decreases |rs.matchSets| - i
  {
    if i < |rs.matchSets| {
      LiveEvalIsPure(m, rs, slot, q, entry, st, i);
      var s := LoopCb(st, q, slot, Tables(m.lpm, m.domain), m.routing, i);
      assert s == Body(st, q, slot, TablesOf(rs, slot, q.daddr, entry), rs.matchSets[i], i);
      if !s.stop { LoopOnMaps(m, rs, slot, q, entry, s.state, i + 1); }
    }
  }

  /** A call on maps whose active slot holds a rule set answers as the rule set does. */
  lemma CallAnswersAsHeld(m: Maps, rs: RuleSet, q: Query)
    requires m.active < EPOCH_SLOT_NUM && Compiled(rs) && Holds(m, m.active, rs)
    ensures RouteOn(m, q) == Verdict(rs, m.active, q, Lookup(m.domain, DomainKey(m.active, q.daddr)))
  {
    var entry := Lookup(m.domain, DomainKey(m.active, q.daddr));
    LoopOnMaps(m, rs, m.active, q, entry, Initial(), 0);
    RunPartIsRunList(rs, m.active, q, entry, Initial(), 0);
    assert rs.matchSets[0..] == rs.matchSets;
  }

  lemma {:induction false} WritesKeepOtherSlot(m: Maps, ws: seq<Write>, slot: nat, other: nat, rs: RuleSet)
    requires AllWithin(ws, other) && slot != other && slot < EPOCH_SLOT_NUM && other < EPOCH_SLOT_NUM
    requires Compiled(rs) && Holds(m, slot, rs)
    ensures Holds(ApplyAll(m, ws), slot, rs) && ApplyAll(m, ws).active == m.active
    decreases |ws|
  {
    if ws != [] {
      assert ws[0] in ws;
      WriteKeepsOtherSlot(m, ws[0], slot, other, rs);
      WritesKeepOtherSlot(Apply(m, ws[0]), ws[1..], slot, other, rs);
    }
  }

  // ----- The mixture -----

  /** One port goes to one outbound, everything else to another. */
  function PortRules(port: nat, outbound: u8, otherwise: u8): RuleSet {
    RuleSet([MatchSet(Port(port, port), false, outbound, false, 0), MatchSet(Fallback, false, otherwise, false, 0)], [])
  }

  lemma PortRulesAnswer(port: nat, outbound: u8, otherwise: u8, slot: nat, q: Query, entry: Option<Bitmap>)
    requires 2 <= outbound < 0xFC && 2 <= otherwise < 0xFC
    ensures Verdict(PortRules(port, outbound, otherwise), slot, q, entry) ==
            WithSlot(PackResult(if q.dport == port then outbound else otherwise, 0, false), slot)
  {
    var rs := PortRules(port, outbound, otherwise);
    var t := TablesOf(rs, slot, q.daddr, entry);
    var s := Body(Initial(), q, slot, t, rs.matchSets[0], 0);
    assert rs.matchSets[1..] == [rs.matchSets[1]];
    if q.dport == port {
      assert s.stop && s.state.result == PackResult(outbound, 0, false);
    } else {
      assert !s.stop && !s.state.good && !s.state.bad && !s.state.must;
      var s1 := Body(s.state, q, slot, t, rs.matchSets[1], 1);
      assert s1.stop && s1.state.result == PackResult(otherwise, 0, false);
      assert RunList(s.state, q, slot, t, rs.matchSets[1..], 1) == s1;
    }
  }

  lemma {:induction false} RoutingWritesHead(matchSets: seq<MatchSet>, slot: nat, n: nat)
    requires n > 0
    ensures |RoutingWrites(matchSets, slot, n)| == n
    ensures RoutingWrites(matchSets, slot, n)[0] == SetRouting(slot, 0, Padded(matchSets, 0))
  {
    if n > 1 { RoutingWritesHead(matchSets, slot, n - 1); }
  }

  /** Whatever rules are live in slot 0 (one port to `a`, the rest to `b`), whatever reload
      fails to switch, and whatever the next reload brings (another port to `c`, the rest
      to `d`): after the first write of that reload, a packet to the first port goes to
      `b`, which neither rule set says. */
  lemma MixtureAfterFailedSwitch(
    m: Maps, rs: RuleSet, batched: nat, target: seq<DomainKey>,
    port: nat, port2: nat, a: u8, b: u8, c: u8, d: u8, q: Query)
    requires m.active == 0 && Holds(m, 0, PortRules(port, a, b))
    requires |rs.tries| <= MAX_MATCH_SET_LEN && batched <= MAX_MATCH_SET_LEN && KeysOf(target, 1)
    requires 2 <= a < 0xFC && 2 <= b < 0xFC && 2 <= c < 0xFC && 2 <= d < 0xFC
    requires port != port2 && q.dport == port
    ensures var m1 := ApplyAll(m, ReloadProgram(rs, 0, 1, batched, target, [], Complete(false)));
            var next := FillProgram(PortRules(port2, c, d), 0, 0, []);
            && RouteOn(m1, q) == WithSlot(PackResult(a, 0, false), 0)
            && |next| > 0 && RouteOn(ApplyAll(m1, next[..1]), q) == WithSlot(PackResult(b, 0, false), 0)
            && RouteOn(ApplyAll(m1, next), q) == WithSlot(PackResult(d, 0, false), 0)
  {
    var old_, new_ := PortRules(port, a, b), PortRules(port2, c, d);
    var fill := FillProgram(rs, 1, batched, target);
    ReloadWritesOnlyItsSlot(rs, 1, batched, 0, target);
    assert fill + ([] + DomainDrops([])) == fill;
    WritesKeepOtherSlot(m, fill, 0, 1, old_);
    var m1 := ApplyAll(m, fill);
    CallAnswersAsHeld(m1, old_, q);
    PortRulesAnswer(port, a, b, 0, q, Lookup(m1.domain, DomainKey(0, q.daddr)));
    FirstWriteMixes(m1, port, port2, a, b, c, d, q);
    WholeReloadReplaces(m1, port2, c, d, q);
  }

  lemma FirstWriteMixes(m: Maps, port: nat, port2: nat, a: u8, b: u8, c: u8, d: u8, q: Query)
    requires m.active == 0 && Holds(m, 0, PortRules(port, a, b)) && port != port2 && q.dport == port
    requires 2 <= b < 0xFC && 2 <= c < 0xFC
    ensures var next := FillProgram(PortRules(port2, c, d), 0, 0, []);
            |next| > 0 && RouteOn(ApplyAll(m, next[..1]), q) == WithSlot(PackResult(b, 0, false), 0)
  {
    var new_, mixed := PortRules(port2, c, d), PortRules(port2, c, b);
    var next := FillProgram(new_, 0, 0, []);
    FillHead(new_);
    var first := SetRouting(0, 0, new_.matchSets[0]);
    assert next[..1] == [first] && [first][1..] == [];
    var m1 := Apply(m, first);
    assert ApplyAll(m, next[..1]) == ApplyAll(m1, []) == m1;
    MixedHolds(m, port, port2, a, b, c, d);
    CallAnswersAsHeld(m1, mixed, q);
    PortRulesAnswer(port2, c, b, 0, q, Lookup(m1.domain, DomainKey(0, q.daddr)));
  }

  /** The new first rule and the old fallback. */
  lemma MixedHolds(m: Maps, port: nat, port2: nat, a: u8, b: u8, c: u8, d: u8)
    requires Holds(m, 0, PortRules(port, a, b))
    ensures Holds(Apply(m, SetRouting(0, 0, PortRules(port2, c, d).matchSets[0])), 0, PortRules(port2, c, b))
  {
    assert m.routing[Key(0, 1)] == PortRules(port, a, b).matchSets[1];
  }

  lemma WholeReloadReplaces(m: Maps, port2: nat, c: u8, d: u8, q: Query)
    requires m.active == 0 && q.dport != port2 && 2 <= c < 0xFC && 2 <= d < 0xFC
    ensures RouteOn(ApplyAll(m, FillProgram(PortRules(port2, c, d), 0, 0, [])), q) ==
            WithSlot(PackResult(d, 0, false), 0)
  {
    var new_ := PortRules(port2, c, d);
    var program := FillProgram(new_, 0, 0, []);
    FillHolds(m, new_, 0, 0, []);
    ReloadWritesOnlyItsSlot(new_, 0, 0, 0, []);
    OnlyFlipsMoveActive(m, program);
    var m1 := ApplyAll(m, program);
    CallAnswersAsHeld(m1, new_, q);
    PortRulesAnswer(port2, c, d, 0, q, Lookup(m1.domain, DomainKey(0, q.daddr)));
  }

  // ----- The same under readers -----

  /** A whole call that runs alone. */
  lemma ReaderCompletes(s: Sys, q: Query, rs: RuleSet) returns (events: seq<Event>, t: Sys)
    requires s.r.Start? && s.m.active < EPOCH_SLOT_NUM && Compiled(rs) && Holds(s.m, s.m.active, rs)
    ensures t == Run(s, q, events) && forall e :: e in events ==> e == ReaderStep
    ensures t.seen == s.live && t.stray == !s.intact && t.overlap == if s.w.Idle? then 0 else 1
    ensures t.entry == Lookup(s.m.domain, DomainKey(s.m.active, q.daddr))
    ensures t.r == Returned(s.m.active, Verdict(rs, s.m.active, q, t.entry))
  {
    var n := |rs.matchSets|;
    var s1 := ReaderStarts(s, q, rs);
    var more, s2 := ReaderTo(s1, q, rs, s1.entry, n);
    RunAppend(s, q, [ReaderStep] + [ReaderStep], more);
    RunAppend(s, q, [ReaderStep] + [ReaderStep] + more, [ReaderStep]);
    RunOne(s2, q, ReaderStep);
    RunPartIsRunList(rs, s.m.active, q, s1.entry, Initial(), 0);
    assert rs.matchSets[0..] == rs.matchSets;
    events, t := [ReaderStep] + [ReaderStep] + more + [ReaderStep], Next(s2, q, ReaderStep);
  }

  /** From the start: a reload fills the other slot. */
  lemma SlotFilled(m: Maps, rs: RuleSet, q: Query) returns (events: seq<Event>, t: Sys)
    requires m.active == 0 && Compiled(rs) && Holds(m, 0, rs)
    ensures t == Run(Started(m, rs), q, events) && t.r.Start? && t.live == rs && t.intact
    ensures t.w.Filling? && t.w.pending == [] && t.w.current == 0 && t.m.active == 0 && Holds(t.m, 0, rs)
  {
    var s0 := Started(m, rs);
    var target := SlotList(m, 1);
    var stale := SlotList(m, 0);
    var begin, fill := Begin(NewRules(), 0, target, stale), FillProgram(NewRules(), 1, 0, target);
    RunOne(s0, q, begin);
    var s1 := Next(s0, q, begin);
    assert s1.w == Filling(0, NewRules(), fill, stale) && s1.m == m && s1.intact && s1.live == rs && s1.r.Start?;
    t := Drain(s1, q, fill);
    RunAppend(s0, q, [begin], Repeat(WriterStep, |fill|));
    events := [begin] + Repeat(WriterStep, |fill|);
    ReloadWritesOnlyItsSlot(NewRules(), 1, 0, 0, target);
    WritesKeepOtherSlot(m, fill, 0, 1, rs);
  }

  /** And its switch fails. */
  lemma SwitchMissed(m: Maps, rs: RuleSet, q: Query) returns (events: seq<Event>, t: Sys)
    requires m.active == 0 && Compiled(rs) && Holds(m, 0, rs)
    ensures t == Run(Started(m, rs), q, events)
    ensures t.r.Start? && t.w == Idle(1) && t.m.active == 0 && t.live == rs && t.intact && Holds(t.m, 0, rs)
  {
    var first, s1 := SlotFilled(m, rs, q);
    var more, s2 := MissedEnds(s1, q);
    RunAppend(Started(m, rs), q, first, more);
    events, t := first + more, s2;
    DropsKeepRules(s1.m, s1.w.stale);
  }

  lemma MissedEnds(s: Sys, q: Query) returns (events: seq<Event>, t: Sys)
    requires s.w.Filling? && s.w.pending == [] && s.w.current == 0 && s.m.active == 0
    ensures t == Run(s, q, events) && t.r == s.r && t.w == Idle(1)
    ensures t.m == ApplyAll(s.m, DomainDrops(s.w.stale)) && t.live == s.live && t.intact == s.intact
  {
    RunOne(s, q, FailedSwitch);
    var s1 := Next(s, q, FailedSwitch);
    var drops := DomainDrops(s.w.stale);
    assert s1.w == Cleaning(0, drops) && s1.m == s.m;
    var s2 := Drain(s1, q, drops);
    RunOne(s2, q, WriterStep);
    WriterKeepsCall(s2, q);
    t := Next(s2, q, WriterStep);
    var middle := Repeat(WriterStep, |drops|);
    RunAppend(s, q, [FailedSwitch], middle);
    RunAppend(s, q, [FailedSwitch] + middle, [WriterStep]);
    events := [FailedSwitch] + middle + [WriterStep];
  }

  /** A run with one failed switch in which a call that overlaps a single reload answers
      neither as the old rule set nor as the new one. */
  lemma FailedSwitchBreaksAtomicity(m: Maps, port: nat, port2: nat, a: u8, b: u8, c: u8, d: u8, q: Query)
    returns (events: seq<Event>)
    requires m.active == 0 && Holds(m, 0, PortRules(port, a, b)) && port != port2 && q.dport == port
    requires 2 <= a < 0xFC && 2 <= b < 0xFC && 2 <= c < 0xFC && 2 <= d < 0xFC && a != b && b != d
    ensures var old_, new_ := PortRules(port, a, b), PortRules(port2, c, d);
            var s := Run(Started(m, old_), q, events);
            && s.r.Returned? && s.overlap == 1 && s.seen == old_ && s.r.slot == 0
            && s.r.value != Verdict(old_, 0, q, s.entry) && s.r.value != Verdict(new_, 0, q, s.entry)
  {
    var old_, new_ := PortRules(port, a, b), PortRules(port2, c, d);
    var s0 := Started(m, old_);
    var first, s1 := SwitchMissed(m, old_, q);
    var second, s2 := OneWriteLater(s1, q, new_);
    RunAppend(s0, q, first, second);
    var mixed := PortRules(port2, c, b);
    MixedHolds(s1.m, port, port2, a, b, c, d);
    var third, s3 := ReaderCompletes(s2, q, mixed);
    RunAppend(s0, q, first + second, third);
    events := first + second + third;
    PortRulesAnswer(port2, c, b, 0, q, s3.entry);
    PortRulesAnswer(port, a, b, 0, q, s3.entry);
    PortRulesAnswer(port2, c, d, 0, q, s3.entry);
    UnpackInvertsPack(a, 0, false, 0);
    UnpackInvertsPack(b, 0, false, 0);
    UnpackInvertsPack(d, 0, false, 0);
  }

  /** The next reload begins and does its first write. */
  lemma OneWriteLater(s: Sys, q: Query, rs: RuleSet) returns (events: seq<Event>, t: Sys)
    requires s.r.Start? && s.w == Idle(1) && s.m.active == 0 && Compiled(rs)
    ensures t == Run(s, q, events) && t.r.Start? && t.w.Filling? && t.live == s.live
    ensures t.m == Apply(s.m, SetRouting(0, 0, rs.matchSets[0]))
  {
    var stale := SlotList(s.m, 1);
    var begin := Begin(rs, 0, [], stale);
    RunOne(s, q, begin);
    var s1 := Next(s, q, begin);
    var fill := FillProgram(rs, 0, 0, []);
    assert s1.w == Filling(1, rs, fill, stale) && s1.m == s.m && s1.live == s.live;
    FillHead(rs);
    var s2 := DrainOne(s1, q, fill);
    RunOne(s1, q, WriterStep);
    assert [WriterStep] + [] == [WriterStep] && s2 == Next(s1, q, WriterStep);
    RunAppend(s, q, [begin], [WriterStep]);
    events, t := [begin] + [WriterStep], s2;
    WriterKeepsCall(s1, q);
  }

  lemma FillHead(rs: RuleSet)
    requires Compiled(rs)
    ensures var fill := FillProgram(rs, 0, 0, []); |fill| > 0 && fill[0] == SetRouting(0, 0, rs.matchSets[0])
  {
    RoutingWritesHead(rs.matchSets, 0, MAX_MATCH_SET_LEN);
    var writes := RoutingWrites(rs.matchSets, 0, MAX_MATCH_SET_LEN);
    var tries := TrieWrites(rs.tries, 0, |rs.tries|);
    assert FillProgram(rs, 0, 0, []) == writes + ([SetMeta(0, |rs.matchSets|)] + tries);
  }
}
