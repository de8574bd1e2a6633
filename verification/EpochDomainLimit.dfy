/** What a reload does to the domain bitmaps of the slot it leaves: it deletes them under
    readers that still use them. Exactly which answers this can give, and when it cannot
    be noticed. */
module EpochDomainLimit {
  import opened MatchSets
  import opened RouteEngine
  import opened RouteSkipping
  import opened EpochReload
  import opened EpochReaders

  // ----- Runs of the system -----

  lemma {:induction false} RunAppend(s: Sys, q: Query, a: seq<Event>, b: seq<Event>)
    ensures Run(s, q, a + b) == Run(Run(s, q, a), q, b)
    decreases |b|
  {
    if b == [] {
      assert a + b == a;
    } else {
      assert (a + b)[..|a + b| - 1] == a + b[..|b| - 1];
      RunAppend(s, q, a, b[..|b| - 1]);
    }
  }

  lemma RunOne(s: Sys, q: Query, e: Event)
    ensures Run(s, q, [e]) == Next(s, q, e)
  {
    assert [e][..0] == [];
  }

  function Repeat(e: Event, n: nat): seq<Event> { if n == 0 then [] else [e] + Repeat(e, n - 1) }

  /** The writer with this many writes still to do. */
  function WithPending(w: Writer, pending: seq<Write>): Writer
    requires !w.Idle?
  {
    if w.Filling? then Filling(w.current, w.target, pending, w.stale)
    else if w.Failing? then Failing(w.current, pending)
    else Cleaning(w.current, pending)
  }

  lemma DrainOne(s: Sys, q: Query, pending: seq<Write>) returns (t: Sys)
    requires !s.w.Idle? && s.w.pending == pending != []
    ensures SameCall(s, t) && t.live == s.live && t.intact == s.intact
    ensures t.m == Apply(s.m, pending[0]) && t.w == WithPending(s.w, pending[1..])
    ensures forall rest :: Run(s, q, [WriterStep] + rest) == Run(t, q, rest)
  {
    WriterKeepsCall(s, q);
    t := Next(s, q, WriterStep);
    forall rest
      ensures Run(s, q, [WriterStep] + rest) == Run(t, q, rest)
    {
      RunAppend(s, q, [WriterStep], rest);
      RunOne(s, q, WriterStep);
    }
  }

  /** The pending writes of a reload, one by one; the reader's registers stay put. */
  lemma {:induction false} Drain(s: Sys, q: Query, pending: seq<Write>) returns (t: Sys)
    requires !s.w.Idle? && s.w.pending == pending
    ensures t == Run(s, q, Repeat(WriterStep, |pending|))
    ensures SameCall(s, t) && t.live == s.live && t.intact == s.intact
    ensures t.w == WithPending(s.w, []) && t.m == ApplyAll(s.m, pending)
    decreases |pending|
  {
    if pending == [] {
      t := s;
    } else {
      var s1 := DrainOne(s, q, pending);
      t := Drain(s1, q, pending[1..]);
    }
  }

  /** What a reload writes before its switch, or before it gives up. */
  function ProgramOf(e: Event, slot: nat): seq<Write>
    requires e.Begin? || e.BeginFailing?
  {
    if e.Begin? then FillProgram(e.rs, slot, e.batched, e.target)
    else FailProgram(e.rs, slot, e.batched, e.written, e.target)
  }

  /** A compiled rule set, a batch of any length up to the limit, and, if the reload fails, any
      number of single writes before it does. */
  predicate CanBegin(s: Sys, e: Event) {
    && s.w.Idle? && s.w.current < EPOCH_SLOT_NUM && (e.Begin? || e.BeginFailing?)
    && Compiled(e.rs) && e.batched <= MAX_MATCH_SET_LEN && KeysOf(e.target, 1 - s.w.current)
    && (e.Begin? ==> KeysOf(e.stale, s.w.current)) && (e.BeginFailing? ==> e.written <= MAX_MATCH_SET_LEN)
  }

  lemma BeginStarts(s: Sys, q: Query, e: Event) returns (t: Sys)
    requires CanBegin(s, e)
    ensures t == Next(s, q, e) && t.m == s.m && t.r == s.r && t.live == s.live
    ensures !t.w.Idle? && t.w.pending == ProgramOf(e, 1 - s.w.current) && t.w.current == s.w.current
    ensures t.intact == (s.intact && s.m.active == s.w.current)
    ensures e.Begin? ==> t.w.Filling? && t.w.target == e.rs && t.w.stale == e.stale
    ensures e.BeginFailing? ==> t.w.Failing?
  {
    t := Next(s, q, e);
  }

  /** Every such reload is among the runs: it writes its whole program. */
  lemma EveryReloadRuns(s: Sys, q: Query, e: Event) returns (events: seq<Event>, t: Sys)
    requires CanBegin(s, e)
    ensures t == Run(s, q, events) && t.live == s.live && t.r == s.r
    ensures t.intact == (s.intact && s.m.active == s.w.current)
    ensures e.Begin? ==> t.w.Filling? && t.w.target == e.rs && t.w.stale == e.stale
    ensures e.BeginFailing? ==> t.w.Failing?
    ensures t.w.current == s.w.current && t.w.pending == [] && t.m == ApplyAll(s.m, ProgramOf(e, 1 - s.w.current))
  {
    var s1 := BeginStarts(s, q, e);
    var program := s1.w.pending;
    t := Drain(s1, q, program);
    RunOne(s, q, e);
    RunAppend(s, q, [e], Repeat(WriterStep, |program|));
    events := [e] + Repeat(WriterStep, |program|);
  }

  /** A failed reload ends where it began. */
  lemma FailedReloadEnds(s: Sys, q: Query, e: Event) returns (events: seq<Event>, t: Sys)
    requires CanBegin(s, e) && e.BeginFailing?
    ensures t == Run(s, q, events) && t.w == s.w && t.live == s.live && t.r == s.r
    ensures t.m == ApplyAll(s.m, ProgramOf(e, 1 - s.w.current))
  {
    var most, s1 := EveryReloadRuns(s, q, e);
    RunOne(s1, q, WriterStep);
    RunAppend(s, q, most, [WriterStep]);
    WriterKeepsCall(s1, q);
    events, t := most + [WriterStep], Next(s1, q, WriterStep);
  }

  /** The control plane is on the other slot. If the switch succeeded, or if the other slot was
      active already, readers have the new rules; otherwise they keep the old ones. */
  predicate Ended(s: Sys, rs: RuleSet, switched: bool, t: Sys)
    requires s.w.current < EPOCH_SLOT_NUM
  {
    && t.w == Idle(1 - s.w.current) && t.r == s.r
    && t.m.active == (if switched then 1 - s.w.current else s.m.active)
    && if switched || s.m.active != s.w.current then t.live == rs && t.intact && Holds(t.m, t.m.active, rs)
       else t.live == s.live && t.intact == s.intact
  }

  /** How a reload that goes through ends. */
  lemma ReloadEnds(s: Sys, q: Query, e: Event, switched: bool) returns (events: seq<Event>, t: Sys)
    requires CanBegin(s, e) && e.Begin? && s.m.active < EPOCH_SLOT_NUM
    ensures t == Run(s, q, events) && Ended(s, e.rs, switched, t)
  {
    var most, s1 := EveryReloadRuns(s, q, e);
    Filled(s, e, s1.m);
    var rest;
    rest, t := SwitchAndClean(s1, q, e.stale, switched);
    EndedFrom(s, s1, e.rs, switched, t);
    RunAppend(s, q, most, rest);
    events := most + rest;
  }

  lemma EndedFrom(s: Sys, s1: Sys, rs: RuleSet, switched: bool, t: Sys)
    requires s.w.current < EPOCH_SLOT_NUM && s.m.active < EPOCH_SLOT_NUM
    requires s1.m.active == s.m.active && s1.live == s.live && s1.r == s.r && Holds(s1.m, 1 - s.w.current, rs)
    requires s1.intact == (s.intact && s.m.active == s.w.current)
    requires t.w == Idle(1 - s.w.current) && t.r == s1.r
    requires t.m == s1.m.(active := if switched then 1 - s.w.current else s1.m.active, domain := t.m.domain)
    requires if switched || s1.m.active != s.w.current then t.live == rs && t.intact
             else t.live == s1.live && t.intact == s1.intact
    ensures Ended(s, rs, switched, t)
  {
    HoldsElsewhere(s1.m, t.m, 1 - s.w.current, rs);
  }

  lemma Filled(s: Sys, e: Event, m: Maps)
    requires CanBegin(s, e) && e.Begin? && m == ApplyAll(s.m, ProgramOf(e, 1 - s.w.current))
    ensures Holds(m, 1 - s.w.current, e.rs) && m.active == s.m.active
  {
    FillHolds(s.m, e.rs, 1 - s.w.current, e.batched, e.target);
    ProgramKeepsActive(s, e);
  }

  lemma SwitchAndClean(s: Sys, q: Query, stale: seq<DomainKey>, switched: bool) returns (events: seq<Event>, t: Sys)
    requires s.w.Filling? && s.w.pending == [] && s.w.current < EPOCH_SLOT_NUM && s.w.stale == stale
    ensures t == Run(s, q, events) && t.w == Idle(1 - s.w.current) && t.r == s.r
    ensures t.m == s.m.(active := if switched then 1 - s.w.current else s.m.active, domain := t.m.domain)
    ensures if switched || s.m.active != s.w.current then t.live == s.w.target && t.intact
            else t.live == s.live && t.intact == s.intact
  {
    var step := if switched then WriterStep else FailedSwitch;
    var s1 := SwitchedOrNot(s, q, step);
    RunOne(s, q, step);
    var rest;
    rest, t := CleansUp(s1, q, stale);
    RunAppend(s, q, [step], rest);
    events := [step] + rest;
  }

  /** Neither the active slot nor the bitmaps are part of what a slot holds. */
  lemma HoldsElsewhere(m: Maps, n: Maps, slot: nat, rs: RuleSet)
    requires Holds(m, slot, rs) && n == m.(active := n.active, domain := n.domain)
    ensures Holds(n, slot, rs)
  {
  }

  lemma ProgramKeepsActive(s: Sys, e: Event)
    requires CanBegin(s, e)
    ensures ApplyAll(s.m, ProgramOf(e, 1 - s.w.current)).active == s.m.active
  {
    var written := if e.Begin? then 0 else e.written;
    ReloadWritesOnlyItsSlot(e.rs, 1 - s.w.current, e.batched, written, e.target);
    OnlyFlipsMoveActive(s.m, ProgramOf(e, 1 - s.w.current));
  }

  lemma CleansUp(s: Sys, q: Query, stale: seq<DomainKey>) returns (events: seq<Event>, t: Sys)
    requires s.w.Cleaning? && s.w.current < EPOCH_SLOT_NUM && s.w.pending == DomainDrops(stale)
    ensures t == Run(s, q, events) && t.w == Idle(1 - s.w.current) && t.r == s.r
    ensures t.live == s.live && t.intact == s.intact && t.m == s.m.(domain := t.m.domain)
  {
    var n := |s.w.pending|;
    var s1 := Drain(s, q, s.w.pending);
    DropsKeepRules(s.m, stale);
    RunOne(s1, q, WriterStep);
    RunAppend(s, q, Repeat(WriterStep, n), [WriterStep]);
    WriterKeepsCall(s1, q);
    events, t := Repeat(WriterStep, n) + [WriterStep], Next(s1, q, WriterStep);
  }

  lemma SwitchedOrNot(s: Sys, q: Query, step: Event) returns (t: Sys)
    requires s.w.Filling? && s.w.pending == [] && s.w.current < EPOCH_SLOT_NUM
    requires step.WriterStep? || step.FailedSwitch?
    ensures t == Next(s, q, step) && t.w == Cleaning(s.w.current, DomainDrops(s.w.stale)) && t.r == s.r
    ensures t.m == if step.WriterStep? then s.m.(active := 1 - s.w.current) else s.m
    ensures if step.WriterStep? || s.m.active != s.w.current then t.live == s.w.target && t.intact
            else t.live == s.live && t.intact == s.intact
  {
    WriterKeepsCall(s, q);
    t := Next(s, q, step);
  }

  function ReadN(m: Maps, q: Query, r: Reader, n: nat): Reader
    decreases n
  {
    if n == 0 then r else ReadN(m, q, ReaderRead(m, q, r), n - 1)
  }

  lemma {:induction false} ReadMore(m: Maps, q: Query, r: Reader, a: nat, b: nat)
    ensures ReadN(m, q, r, a + b) == ReadN(m, q, ReadN(m, q, r, a), b)
    decreases a
  {
    if a > 0 { ReadMore(m, q, ReaderRead(m, q, r), a - 1, b); }
  }

  lemma {:induction false} ReturnedStays(m: Maps, q: Query, r: Reader, n: nat)
    requires r.Returned?
    ensures ReadN(m, q, r, n) == r
  {
    if n > 0 { ReturnedStays(m, q, r, n - 1); }
  }

  lemma {:induction false} ReaderAlone(s: Sys, q: Query, n: nat)
    requires !s.r.Start?
    ensures Run(s, q, Repeat(ReaderStep, n)) == s.(r := ReadN(s.m, q, s.r, n))
    decreases n
  {
    if n > 0 {
      RunAppend(s, q, [ReaderStep], Repeat(ReaderStep, n - 1));
      RunOne(s, q, ReaderStep);
      var t := Next(s, q, ReaderStep);
      assert t == s.(r := ReaderRead(s.m, q, s.r)) && !t.r.Start?;
      ReaderAlone(t, q, n - 1);
    }
  }

  // ----- A reader that runs alone computes the loop over the list -----

  /** Two bitmaps that agree on every word that an entry from `i` to `k` may read. */
  predicate WordsAgree(rs: RuleSet, slot: nat, q: Query, a: Option<Bitmap>, b: Option<Bitmap>, i: nat, k: nat) {
    && k <= |rs.matchSets| <= MAX_MATCH_SET_LEN
    && forall j: nat :: i <= j < k && rs.matchSets[j].kind.DomainSet? ==> WordAgrees(slot, q, a, b, j)
  }

  predicate WordAgrees(slot: nat, q: Query, a: Option<Bitmap>, b: Option<Bitmap>, j: nat)
  {
    j < MAX_MATCH_SET_LEN &&
    DomainWord(DomainOf(slot, q.daddr, a), slot, q.daddr, j / 32) ==
    DomainWord(DomainOf(slot, q.daddr, b), slot, q.daddr, j / 32)
  }

  /** The loop over the entries from `i` to `k`. */
  function RunPart(rs: RuleSet, slot: nat, q: Query, entry: Option<Bitmap>, st: RouteState, i: nat, k: nat): Step
    requires i <= k <= |rs.matchSets|
    decreases k - i
  {
    if i == k then Step(st, false)
    else
      var s := Body(st, q, slot, TablesOf(rs, slot, q.daddr, entry), rs.matchSets[i], i);
      if s.stop then s else RunPart(rs, slot, q, entry, s.state, i + 1, k)
  }

  lemma {:induction false} RunPartIsRunList(
    rs: RuleSet, slot: nat, q: Query, entry: Option<Bitmap>, st: RouteState, i: nat)
    requires i <= |rs.matchSets|
    ensures RunPart(rs, slot, q, entry, st, i, |rs.matchSets|) ==
            RunList(st, q, slot, TablesOf(rs, slot, q.daddr, entry), rs.matchSets[i..], i)
    decreases |rs.matchSets| - i
  {
    if i < |rs.matchSets| {
      var s := Body(st, q, slot, TablesOf(rs, slot, q.daddr, entry), rs.matchSets[i], i);
      assert rs.matchSets[i..][1..] == rs.matchSets[i + 1..];
      if !s.stop { RunPartIsRunList(rs, slot, q, entry, s.state, i + 1); }
    }
  }

  lemma {:induction false} RunPartSplits(
    rs: RuleSet, slot: nat, q: Query, entry: Option<Bitmap>, st: RouteState, i: nat, k: nat, n: nat)
    requires i <= k <= n <= |rs.matchSets|
    ensures RunPart(rs, slot, q, entry, st, i, n) ==
            var s := RunPart(rs, slot, q, entry, st, i, k);
            if s.stop then s else RunPart(rs, slot, q, entry, s.state, k, n)
    decreases k - i
  {
    if i < k {
      var s := Body(st, q, slot, TablesOf(rs, slot, q.daddr, entry), rs.matchSets[i], i);
      if !s.stop { RunPartSplits(rs, slot, q, entry, s.state, i + 1, k, n); }
    }
  }

  lemma BodyAgrees(rs: RuleSet, slot: nat, q: Query, a: Option<Bitmap>, b: Option<Bitmap>, st: RouteState, i: nat)
    requires slot < EPOCH_SLOT_NUM && i < |rs.matchSets|
    requires rs.matchSets[i].kind.DomainSet? ==> WordAgrees(slot, q, a, b, i)
    ensures Body(st, q, slot, TablesOf(rs, slot, q.daddr, a), rs.matchSets[i], i) ==
            Body(st, q, slot, TablesOf(rs, slot, q.daddr, b), rs.matchSets[i], i)
  {
    EvalAgrees(st, q, slot, TablesOf(rs, slot, q.daddr, a), TablesOf(rs, slot, q.daddr, b), rs.matchSets[i].kind, i);
  }

  lemma {:induction false} RunPartAgrees(
    rs: RuleSet, slot: nat, q: Query, a: Option<Bitmap>, b: Option<Bitmap>, st: RouteState, i: nat, k: nat)
    requires slot < EPOCH_SLOT_NUM && i <= k && WordsAgree(rs, slot, q, a, b, i, k)
    ensures RunPart(rs, slot, q, a, st, i, k) == RunPart(rs, slot, q, b, st, i, k)
    decreases k - i
  {
    if i < k {
      BodyAgrees(rs, slot, q, a, b, st, i);
      var s := Body(st, q, slot, TablesOf(rs, slot, q.daddr, a), rs.matchSets[i], i);
      if !s.stop { RunPartAgrees(rs, slot, q, a, b, s.state, i + 1, k); }
    }
  }

  /** The maps hold the rule set and this bitmap of the destination. */
  predicate Serves(m: Maps, rs: RuleSet, slot: nat, q: Query, entry: Option<Bitmap>) {
    Compiled(rs) && slot < EPOCH_SLOT_NUM && Holds(m, slot, rs) && Lookup(m.domain, DomainKey(slot, q.daddr)) == entry
  }

  /** What a reader alone makes of the entries from `i` to `k`. */
  function Reached(slot: nat, n: nat, s: Step, k: nat): Reader {
    if s.stop then Returned(slot, Conclude(s.state, slot)) else Looping(slot, n, k, s.state)
  }

  /** The match set, what it refers to, and the match set again for its outcome. */
  const READS_PER_ENTRY: nat := 3

  /** So many reads are one iteration of the loop. */
  lemma ReaderBody(m: Maps, rs: RuleSet, slot: nat, q: Query, entry: Option<Bitmap>, st: RouteState, i: nat)
    returns (s: Step)
    requires Serves(m, rs, slot, q, entry) && i < |rs.matchSets|
    ensures s == RunPart(rs, slot, q, entry, st, i, i + 1)
    ensures ReadN(m, q, Looping(slot, |rs.matchSets|, i, st), READS_PER_ENTRY) ==
            Reached(slot, |rs.matchSets|, s, i + 1)
  {
    s := RunPart(rs, slot, q, entry, st, i, i + 1);
    LiveEvalIsPure(m, rs, slot, q, entry, st, i);
    var n := |rs.matchSets|;
    var r1 := ReaderRead(m, q, Looping(slot, n, i, st));
    assert r1 == Fetched(slot, n, i, rs.matchSets[i].kind, st);
    var r2 := ReaderRead(m, q, r1);
    var r3 := ReaderRead(m, q, r2);
    assert ReadN(m, q, r2, 1) == ReadN(m, q, r3, 0) && ReadN(m, q, r1, 2) == ReadN(m, q, r2, 1);
  }

  lemma RunPartOn(
    rs: RuleSet, slot: nat, q: Query, entry: Option<Bitmap>, st: RouteState, i: nat, k: nat, s: Step)
    returns (end: Step)
    requires i < k <= |rs.matchSets| && s == RunPart(rs, slot, q, entry, st, i, i + 1)
    ensures end == RunPart(rs, slot, q, entry, st, i, k)
    ensures end == if s.stop then s else RunPart(rs, slot, q, entry, s.state, i + 1, k)
  {
    RunPartSplits(rs, slot, q, entry, st, i, i + 1, k);
    end := RunPart(rs, slot, q, entry, st, i, k);
  }

  /** One iteration and then the others. */
  lemma ReadOn(
    m: Maps, q: Query, slot: nat, n: nat, i: nat, k: nat, st: RouteState, s: Step, end: Step, rest: nat)
    requires ReadN(m, q, Looping(slot, n, i, st), READS_PER_ENTRY) == Reached(slot, n, s, i + 1)
    requires if s.stop then end == s
             else ReadN(m, q, Looping(slot, n, i + 1, s.state), rest) == Reached(slot, n, end, k)
    ensures ReadN(m, q, Looping(slot, n, i, st), READS_PER_ENTRY + rest) == Reached(slot, n, end, k)
  {
    ReadMore(m, q, Looping(slot, n, i, st), READS_PER_ENTRY, rest);
    if s.stop { ReturnedStays(m, q, Reached(slot, n, s, i + 1), rest); }
  }

  /** Every entry of the rule set takes the reader so many reads. */
  ghost predicate Iterates(m: Maps, rs: RuleSet, slot: nat, q: Query, entry: Option<Bitmap>) {
    forall st, i: nat :: IteratesAt(m, rs, slot, q, entry, st, i)
  }

  predicate IteratesAt(m: Maps, rs: RuleSet, slot: nat, q: Query, entry: Option<Bitmap>, st: RouteState, i: nat) {
    i < |rs.matchSets| ==>
      ReadN(m, q, Looping(slot, |rs.matchSets|, i, st), READS_PER_ENTRY) ==
      Reached(slot, |rs.matchSets|, RunPart(rs, slot, q, entry, st, i, i + 1), i + 1)
  }

  lemma ServingIterates(m: Maps, rs: RuleSet, slot: nat, q: Query, entry: Option<Bitmap>)
    requires Serves(m, rs, slot, q, entry)
    ensures Iterates(m, rs, slot, q, entry)
  {
    forall st, i: nat
      ensures IteratesAt(m, rs, slot, q, entry, st, i)
    {
      if i < |rs.matchSets| { var s := ReaderBody(m, rs, slot, q, entry, st, i); }
    }
  }

  lemma {:induction false} ReaderRuns(
    m: Maps, rs: RuleSet, slot: nat, q: Query, entry: Option<Bitmap>, st: RouteState, i: nat, k: nat)
    requires Iterates(m, rs, slot, q, entry) && i <= k <= |rs.matchSets|
    ensures ReadN(m, q, Looping(slot, |rs.matchSets|, i, st), READS_PER_ENTRY * (k - i)) ==
            Reached(slot, |rs.matchSets|, RunPart(rs, slot, q, entry, st, i, k), k)
    decreases k - i
  {
    if i < k {
      var rest := READS_PER_ENTRY * (k - (i + 1));
      assert IteratesAt(m, rs, slot, q, entry, st, i);
      var s := RunPart(rs, slot, q, entry, st, i, i + 1);
      var end := RunPartOn(rs, slot, q, entry, st, i, k, s);
      if !s.stop {
        ReaderRuns(m, rs, slot, q, entry, s.state, i + 1, k);
      }
      ReadOn(m, q, slot, |rs.matchSets|, i, k, st, s, end, rest);
    }
  }

  // ----- The answer of a cut -----

  /** Where the entries that read a word beyond the cut begin. */
  function CutIndex(rs: RuleSet, words: nat): nat {
    if words * 32 < |rs.matchSets| then words * 32 else |rs.matchSets|
  }

  /** A cut answers as the whole bitmap up to the cut and as no bitmap from there on. */
  lemma VerdictOfCut(rs: RuleSet, slot: nat, q: Query, entry: Option<Bitmap>, words: nat)
    requires slot < EPOCH_SLOT_NUM && |rs.matchSets| <= MAX_MATCH_SET_LEN
    ensures var k, n := CutIndex(rs, words), |rs.matchSets|;
            var s := RunPart(rs, slot, q, entry, Initial(), 0, k);
            Verdict(rs, slot, q, Cut(entry, words)) ==
            Conclude(if s.stop then s.state else RunPart(rs, slot, q, None, s.state, k, n).state, slot)
  {
    var k, n := CutIndex(rs, words), |rs.matchSets|;
    var cut := Cut(entry, words);
    assert rs.matchSets[0..] == rs.matchSets;
    RunPartIsRunList(rs, slot, q, cut, Initial(), 0);
    RunPartSplits(rs, slot, q, cut, Initial(), 0, k, n);
    forall j: nat | j < k
      ensures WordAgrees(slot, q, cut, entry, j)
    {
      CutWord(slot, q.daddr, entry, words, j / 32);
    }
    RunPartAgrees(rs, slot, q, cut, entry, Initial(), 0, k);
    var s := RunPart(rs, slot, q, entry, Initial(), 0, k);
    forall j: nat | k <= j < n
      ensures WordAgrees(slot, q, cut, None, j)
    {
      assert j / 32 >= words;
      CutWord(slot, q.daddr, entry, words, j / 32);
    }
    RunPartAgrees(rs, slot, q, cut, None, s.state, k, n);
  }

  // ----- Every cut is reached -----

  /** Any rule set will do for the reload. */
  function NewRules(): RuleSet { RuleSet([MatchSet(Fallback, false, 9, false, 0)], []) }

  /** The keys that a clearing of the slot deletes. */
  ghost predicate KeysIn(keys: seq<DomainKey>, m: Maps, slot: nat) {
    forall k :: k in keys <==> k in m.domain && k.slot == slot
  }

  lemma {:induction false} ListOf(keys: set<DomainKey>) returns (list: seq<DomainKey>)
    ensures forall k :: k in list <==> k in keys
  {
    if keys == {} {
      list := [];
    } else {
      var k :| k in keys;
      var rest := ListOf(keys - {k});
      list := [k] + rest;
    }
  }

  lemma SlotList(m: Maps, slot: nat) returns (keys: seq<DomainKey>)
    ensures KeysIn(keys, m, slot)
  {
    keys := ListOf(set k | k in m.domain && k.slot == slot);
  }

  /** A reload as the control plane performs it: it clears both slots whole. */
  ghost predicate ClearsBoth(m: Maps, e: Event) {
    e.Begin? && m.active < EPOCH_SLOT_NUM ==> KeysIn(e.target, m, 1 - m.active) && KeysIn(e.stale, m, m.active)
  }

  ghost predicate Reloads(m: Maps, events: seq<Event>) {
    forall e :: e in events ==> ClearsBoth(m, e) && !e.FailedSwitch?
  }

  lemma {:induction false} NothingAdded(m: Maps, ws: seq<Write>, key: DomainKey)
    requires key in ApplyAll(m, ws).domain
    ensures key in m.domain
    decreases |ws|
  {
    if ws != [] { NothingAdded(Apply(m, ws[0]), ws[1..], key); }
  }

  lemma {:induction false} DropsDelete(m: Maps, keys: seq<DomainKey>, key: DomainKey)
    requires key in keys
    ensures key !in ApplyAll(m, DomainDrops(keys)).domain
    decreases |keys|
  {
    var m1 := Apply(m, DropDomain(keys[0]));
    if key in keys[1..] {
      DropsDelete(m1, keys[1..], key);
    } else if key in ApplyAll(m, DomainDrops(keys)).domain {
      NothingAdded(m1, DomainDrops(keys[1..]), key);
    }
  }

  lemma {:induction false} RepeatedOnly(e: Event, n: nat)
    ensures forall x :: x in Repeat(e, n) ==> x == e
  {
    if n > 0 { RepeatedOnly(e, n - 1); }
  }

  /** A reader in the middle of its loop: a whole reload runs, and its bitmap is gone. */
  lemma ReloadUnderReader(s: Sys, q: Query) returns (events: seq<Event>, t: Sys)
    requires WriterInv(s) && ReaderInv(s, q) && s.r.Looping? && s.w == Idle(s.r.slot) && s.m.active == s.r.slot
    requires s.overlap == 0 && !s.stray
    ensures t == Run(s, q, events) && Reloads(s.m, events)
    ensures t.r == s.r && t.seen == s.seen && t.entry == s.entry && t.overlap == 1 && !t.stray
    ensures Holds(t.m, s.r.slot, s.seen) && DomainKey(s.r.slot, q.daddr) !in t.m.domain
  {
    var slot, key := s.r.slot, DomainKey(s.r.slot, q.daddr);
    var begin, s1 := BeginFull(s, q);
    var more, s2 := FinishReload(s1, q, key);
    RunOne(s, q, begin);
    RunAppend(s, q, [begin], more);
    events, t := [begin] + more, s2;
    RunKeepsInvariants(s, q, events);
  }

  lemma BeginFull(s: Sys, q: Query) returns (begin: Event, t: Sys)
    requires WriterInv(s) && Running(s.r) && s.w == Idle(s.r.slot) && s.m.active == s.r.slot && s.overlap == 0
             && !s.stray
    ensures begin.Begin? && ClearsBoth(s.m, begin) && t == Next(s, q, begin) && t.m == s.m
    ensures t.w.Filling? && t.w.current == s.r.slot && KeysIn(t.w.stale, s.m, s.r.slot)
    ensures t.r == s.r && t.seen == s.seen && t.entry == s.entry && t.overlap == 1 && !t.stray
  {
    var slot := s.r.slot;
    var target := SlotList(s.m, 1 - slot);
    var stale := SlotList(s.m, slot);
    begin := Begin(NewRules(), 0, target, stale);
    t := Next(s, q, begin);
    assert t.w == Filling(slot, NewRules(), FillProgram(NewRules(), 1 - slot, 0, target), stale);
  }

  /** A reload under way goes through: what it lists is gone from the domain map. */
  lemma FinishReload(s: Sys, q: Query, key: DomainKey) returns (events: seq<Event>, t: Sys)
    requires s.w.Filling? && s.w.current < EPOCH_SLOT_NUM
    ensures t == Run(s, q, events) && SameCall(s, t) && forall e :: e in events ==> e == WriterStep
    ensures key in t.m.domain ==> key in s.m.domain && key !in s.w.stale
  {
    var n := |s.w.pending|;
    var s1 := Drain(s, q, s.w.pending);
    var more, s2 := SwitchAndDrop(s1, q, s.w.stale, key);
    RunAppend(s, q, Repeat(WriterStep, n), more);
    RepeatedOnly(WriterStep, n);
    events, t := Repeat(WriterStep, n) + more, s2;
    if key in t.m.domain { NothingAdded(s.m, s.w.pending, key); }
  }

  /** The switch, and the clearing of the slot that is left. */
  lemma SwitchAndDrop(s: Sys, q: Query, stale: seq<DomainKey>, key: DomainKey) returns (events: seq<Event>, t: Sys)
    requires s.w.Filling? && s.w.pending == [] && s.w.stale == stale && s.w.current < EPOCH_SLOT_NUM
    ensures t == Run(s, q, events) && SameCall(s, t) && forall e :: e in events ==> e == WriterStep
    ensures key in t.m.domain ==> key in s.m.domain && key !in stale
  {
    RunOne(s, q, WriterStep);
    var s1 := Next(s, q, WriterStep);
    WriterKeepsCall(s, q);
    assert s1.w == Cleaning(s.w.current, DomainDrops(stale)) && s1.m.domain == s.m.domain;
    var n := |s1.w.pending|;
    t := Drain(s1, q, s1.w.pending);
    RunAppend(s, q, [WriterStep], Repeat(WriterStep, n));
    RepeatedOnly(WriterStep, n);
    events := [WriterStep] + Repeat(WriterStep, n);
    if key in t.m.domain {
      NothingAdded(s1.m, DomainDrops(stale), key);
      if key in stale { DropsDelete(s1.m, stale, key); }
    }
  }

  /** The call of the theorem: it read the slot of the first rule set with its bitmap, and
      no reload wrote to that slot. */
  predicate Answered(m: Maps, rs: RuleSet, q: Query, s: Sys) {
    && s.r.Returned? && !s.stray
    && s.seen == rs && s.r.slot == m.active && s.entry == Lookup(m.domain, DomainKey(m.active, q.daddr))
  }

  /** The first two reads: the slot and the rule count. */
  lemma ReaderStarts(s: Sys, q: Query, rs: RuleSet) returns (t: Sys)
    requires s.r.Start? && s.m.active < EPOCH_SLOT_NUM && Compiled(rs) && Holds(s.m, s.m.active, rs)
    ensures t == Run(s, q, [ReaderStep] + [ReaderStep]) && t.m == s.m && t.w == s.w
    ensures t.r == Looping(s.m.active, |rs.matchSets|, 0, Initial()) && t.seen == s.live && t.stray == !s.intact
    ensures t.entry == Lookup(s.m.domain, DomainKey(s.m.active, q.daddr)) && t.overlap == if s.w.Idle? then 0 else 1
  {
    RunAppend(s, q, [ReaderStep], [ReaderStep]);
    RunOne(s, q, ReaderStep);
    var s1 := Next(s, q, ReaderStep);
    assert s1.r == GotSlot(s.m.active) && s1.m == s.m && s1.w == s.w;
    RunOne(s1, q, ReaderStep);
    t := Next(s1, q, ReaderStep);
  }

  /** A reader alone over the first `k` entries. */
  lemma ReaderTo(s: Sys, q: Query, rs: RuleSet, entry: Option<Bitmap>, k: nat) returns (events: seq<Event>, t: Sys)
    requires s.r.Looping? && s.r.n == |rs.matchSets| && s.r.index <= k <= |rs.matchSets|
             && Serves(s.m, rs, s.r.slot, q, entry)
    ensures t == Run(s, q, events) && forall e :: e in events ==> e == ReaderStep
    ensures t == s.(r := Reached(s.r.slot, s.r.n, RunPart(rs, s.r.slot, q, entry, s.r.st, s.r.index, k), k))
  {
    var n := READS_PER_ENTRY * (k - s.r.index);
    RepeatedOnly(ReaderStep, n);
    ReaderAlone(s, q, n);
    ServingIterates(s.m, rs, s.r.slot, q, entry);
    ReaderRuns(s.m, rs, s.r.slot, q, entry, s.r.st, s.r.index, k);
    events, t := Repeat(ReaderStep, n), s.(r := ReadN(s.m, q, s.r, n));
  }

  /** A reader alone up to the cut. */
  lemma UpToCut(m: Maps, rs: RuleSet, q: Query, words: nat) returns (events: seq<Event>, s: Sys)
    requires m.active < EPOCH_SLOT_NUM && Compiled(rs) && Holds(m, m.active, rs)
    ensures s == Run(Started(m, rs), q, events) && s.m == m && s.w == Idle(m.active) && Reloads(m, events)
    ensures s.seen == rs && s.entry == Lookup(m.domain, DomainKey(m.active, q.daddr)) && s.overlap == 0 && !s.stray
    ensures s.r == Reached(m.active, |rs.matchSets|,
                           RunPart(rs, m.active, q, s.entry, Initial(), 0, CutIndex(rs, words)), CutIndex(rs, words))
  {
    var s0 := Started(m, rs);
    var s1 := ReaderStarts(s0, q, rs);
    var more, s2 := ReaderTo(s1, q, rs, s1.entry, CutIndex(rs, words));
    RunAppend(s0, q, [ReaderStep] + [ReaderStep], more);
    events, s := [ReaderStep] + [ReaderStep] + more, s2;
  }

  /** A reader alone from the cut to the end, without its bitmap. */
  lemma FromCut(s: Sys, q: Query) returns (events: seq<Event>, t: Sys)
    requires s.r.Looping? && s.r.n == |s.seen.matchSets| && s.r.index <= s.r.n && Serves(s.m, s.seen, s.r.slot, q, None)
    ensures t == Run(s, q, events) && t.seen == s.seen && t.entry == s.entry
    ensures t.overlap == s.overlap && t.stray == s.stray && forall e :: e in events ==> e == ReaderStep
    ensures var part := RunPart(s.seen, s.r.slot, q, None, s.r.st, s.r.index, s.r.n);
            t.r == Returned(s.r.slot, Conclude(part.state, s.r.slot))
  {
    var first, s1 := ReaderTo(s, q, s.seen, None, s.r.n);
    RunAppend(s, q, first, [ReaderStep]);
    RunOne(s1, q, ReaderStep);
    events, t := first + [ReaderStep], Next(s1, q, ReaderStep);
  }

  /** For every cut there is an interleaving with at most one reload, which clears both slots
      whole and in which nothing fails, that answers with that cut. */
  lemma EveryCutIsAnswered(m: Maps, rs: RuleSet, q: Query, words: nat) returns (events: seq<Event>)
    requires m.active < EPOCH_SLOT_NUM && Compiled(rs) && Holds(m, m.active, rs)
    ensures Reloads(m, events)
    ensures var s := Run(Started(m, rs), q, events);
            && Answered(m, rs, q, s) && s.overlap <= 1
            && s.r.value == Verdict(rs, m.active, q, Cut(s.entry, words))
  {
    var s0 := Started(m, rs);
    var first, s1 := UpToCut(m, rs, q, words);
    VerdictOfCut(rs, m.active, q, s1.entry, words);
    events := first;
    if s1.r.Looping? {
      RunKeepsInvariants(s0, q, first);
      var second, s2 := ReloadUnderReader(s1, q);
      var third, s3 := FromCut(s2, q);
      RunAppend(s0, q, first, second);
      RunAppend(s0, q, first + second, third);
      events := first + second + third;
    }
  }

  // ----- When a reload cannot be noticed -----

  ghost predicate AnswersAsLive(m: Maps, rs: RuleSet, q: Query, events: seq<Event>) {
    var s := Run(Started(m, rs), q, events);
    Answered(m, rs, q, s) ==> s.r.value == Verdict(rs, m.active, q, s.entry)
  }

  /** Exactly: in every interleaving, a call that read the slot with this rule set and
      bitmap, to which no reload wrote since, answers as the rule set does, if and only if
      no cut of the bitmap changes what the rule set answers. */
  lemma AtomicIffCutsAgree(m: Maps, rs: RuleSet, q: Query)
    requires m.active < EPOCH_SLOT_NUM && Compiled(rs) && Holds(m, m.active, rs)
    ensures (forall events :: AnswersAsLive(m, rs, q, events)) <==>
            CutsAgree(rs, m.active, q, Lookup(m.domain, DomainKey(m.active, q.daddr)))
  {
    var entry := Lookup(m.domain, DomainKey(m.active, q.daddr));
    if CutsAgree(rs, m.active, q, entry) {
      forall events
        ensures AnswersAsLive(m, rs, q, events)
      {
        ReloadIsAtomic(m, rs, q, events);
      }
    } else {
      var words: nat :| words <= 32 && Verdict(rs, m.active, q, Cut(entry, words)) != Verdict(rs, m.active, q, entry);
      var events := EveryCutIsAnswered(m, rs, q, words);
      assert !AnswersAsLive(m, rs, q, events);
    }
  }

  /** Two conditions that are easily checked: the destination has no bitmap, or the rule
      set does not look at domains. */
  lemma CutsAgreeWithoutDomains(rs: RuleSet, slot: nat, q: Query, entry: Option<Bitmap>)
    requires slot < EPOCH_SLOT_NUM && Compiled(rs)
    requires entry.None? || forall i :: 0 <= i < |rs.matchSets| ==> !rs.matchSets[i].kind.DomainSet?
    ensures CutsAgree(rs, slot, q, entry)
  {
    forall words: nat | words <= 32
      ensures Verdict(rs, slot, q, Cut(entry, words)) == Verdict(rs, slot, q, entry)
    {
      if entry.Some? {
        var n := |rs.matchSets|;
        assert rs.matchSets[0..] == rs.matchSets;
        RunPartIsRunList(rs, slot, q, entry, Initial(), 0);
        RunPartIsRunList(rs, slot, q, Cut(entry, words), Initial(), 0);
        RunPartAgrees(rs, slot, q, Cut(entry, words), entry, Initial(), 0, n);
      }
    }
  }

  // ----- It can be noticed -----

  // Domain bitmap bit 0 sends the packet to outbound 5, otherwise it goes to 7;
  // the new rule set sends everything to 9.

  /** 192.0.2.1 as an IPv4-mapped address of 128 bits. */
  function Destination(): (addr: Bits)
    ensures |addr| == 128
  {
    seq(128, i => 80 <= i < 98 || i == 118 || i == 127)
  }

  function PacketQuery(): Query {
    Query(1, 1, Name16(0, 0), false, 0, 1000, 443, Destination(), Destination(), Destination())
  }

  function OldRules(): RuleSet {
    RuleSet([MatchSet(DomainSet, false, 5, false, 0), MatchSet(Fallback, false, 7, false, 0)], [])
  }

  function FirstBit(): (b: Bitmap)
    ensures b[0][0]
  {
    var word: Word := ZeroWord()[0 := true];
    var others: seq<Word> := seq(31, _ => ZeroWord());
    [word] + others
  }

  function OldMaps(): Maps {
    Maps(0, map[0 := 2], map[0 := OldRules().matchSets[0], 1 := OldRules().matchSets[1]], map[],
         map[DomainKey(0, Destination()) := FirstBit()])
  }

  lemma OldVerdict()
    ensures Verdict(OldRules(), 0, PacketQuery(), Some(FirstBit())) == WithSlot(PackResult(5, 0, false), 0)
  {
    var q, rs := PacketQuery(), OldRules();
    var t := TablesOf(rs, 0, q.daddr, Some(FirstBit()));
    assert DomainWord(t.domain, 0, q.daddr, 0)[0];
    var s := Body(Initial(), q, 0, t, rs.matchSets[0], 0);
    assert s.stop && s.state.result == PackResult(5, 0, false);
  }

  lemma CutVerdict()
    ensures Verdict(OldRules(), 0, PacketQuery(), Cut(Some(FirstBit()), 0)) == WithSlot(PackResult(7, 0, false), 0)
  {
    var q, rs, entry := PacketQuery(), OldRules(), Cut(Some(FirstBit()), 0);
    var t := TablesOf(rs, 0, q.daddr, entry);
    CutWord(0, q.daddr, Some(FirstBit()), 0, 0);
    assert DomainWord(t.domain, 0, q.daddr, 0) == ZeroWord();
    var s := Body(Initial(), q, 0, t, rs.matchSets[0], 0);
    assert !s.stop && !s.state.good && !s.state.bad && !s.state.must;
    assert rs.matchSets[1..] == [rs.matchSets[1]];
    var s1 := Body(s.state, q, 0, t, rs.matchSets[1], 1);
    assert s1.stop && s1.state.result == PackResult(7, 0, false);
  }

  lemma NewVerdict(slot: nat, entry: Option<Bitmap>)
    requires slot < EPOCH_SLOT_NUM
    ensures Verdict(NewRules(), slot, PacketQuery(), entry) == WithSlot(PackResult(9, 0, false), slot)
  {
    var q, rs := PacketQuery(), NewRules();
    var s := Body(Initial(), q, slot, TablesOf(rs, slot, q.daddr, entry), rs.matchSets[0], 0);
    assert s.stop && s.state.result == PackResult(9, 0, false);
  }

  /** A run with a single reload in which a `route()` call answers neither what the old
      rule set answers with its domain bitmap nor what the new rule set answers. */
  lemma DomainClearingBreaksAtomicity() returns (events: seq<Event>)
    ensures var q := PacketQuery();
            var s := Run(Started(OldMaps(), OldRules()), q, events);
            && Answered(OldMaps(), OldRules(), q, s) && s.overlap <= 1 && Reloads(OldMaps(), events)
            && s.r.value != Verdict(OldRules(), 0, q, s.entry)
            && forall slot: nat, entry :: slot < EPOCH_SLOT_NUM ==> s.r.value != Verdict(NewRules(), slot, q, entry)
  {
    var q := PacketQuery();
    assert Holds(OldMaps(), 0, OldRules());
    events := EveryCutIsAnswered(OldMaps(), OldRules(), q, 0);
    OldVerdict();
    CutVerdict();
    forall slot: nat, entry: Option<Bitmap> | slot < EPOCH_SLOT_NUM
      ensures WithSlot(PackResult(7, 0, false), 0) != Verdict(NewRules(), slot, q, entry)
    {
      NewVerdict(slot, entry);
    }
  }
}
