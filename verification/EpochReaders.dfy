/** One `route()` call running against a control plane that reloads. Every map
    read and every map write is one step, and the steps interleave freely: the slot,
    the rule count, a match set, the trie or bitmap it refers to, and the match set
    again for its outcome. */
module EpochReaders {
  import opened MatchSets
  import opened RouteEngine
  import opened RouteSkipping
  import opened EpochReload
  import RuleMeaning

  // ----- What a complete rule set answers -----

  function Lookup<K, V>(m: map<K, V>, k: K): Option<V> {
    if k in m then Some(m[k]) else None
  }

  function LpmOf(tries: seq<Trie>, slot: nat, n: nat): map<nat, Trie>
    requires n <= |tries|
  {
    if n == 0 then map[]
    else if tries[n - 1] == {} then LpmOf(tries, slot, n - 1)
    else LpmOf(tries, slot, n - 1)[Key(slot, n - 1) := tries[n - 1]]
  }

  lemma {:induction false} LpmOfAt(tries: seq<Trie>, slot: nat, n: nat, i: nat)
    requires i < n <= |tries| && tries[i] != {}
    ensures Key(slot, i) in LpmOf(tries, slot, n) && LpmOf(tries, slot, n)[Key(slot, i)] == tries[i]
  {
    if i < n - 1 { LpmOfAt(tries, slot, n - 1, i); }
  }

  function DomainOf(slot: nat, addr: Bits, entry: Option<Bitmap>): map<DomainKey, Bitmap> {
    if entry.None? then map[] else map[DomainKey(slot, addr) := entry.value]
  }

  function TablesOf(rs: RuleSet, slot: nat, addr: Bits, entry: Option<Bitmap>): Tables {
    Tables(LpmOf(rs.tries, slot, |rs.tries|), DomainOf(slot, addr, entry))
  }

  /** The answer of one complete rule set, computed from nothing but that rule set
      and the domain bitmap of the destination. */
  function Verdict(rs: RuleSet, slot: nat, q: Query, entry: Option<Bitmap>): int {
    Conclude(RunList(Initial(), q, slot, TablesOf(rs, slot, q.daddr, entry), rs.matchSets, 0).state, slot)
  }

  /** A bitmap of which only the first `words` words are left. */
  function CutBitmap(b: Bitmap, words: nat): Bitmap {
    var c: seq<Word> := seq(32, i requires 0 <= i < 32 => WordOfCut(b, words, i));
    c
  }

  function WordOfCut(b: Bitmap, words: nat, i: nat): Word
    requires i < 32
  {
    if i < words then b[i] else ZeroWord()
  }

  function Cut(entry: Option<Bitmap>, words: nat): Option<Bitmap> {
    if entry.None? then None else Some(CutBitmap(entry.value, words))
  }

  lemma CutNothing(entry: Option<Bitmap>)
    ensures Cut(entry, 32) == entry
  {
    if entry.Some? { assert CutBitmap(entry.value, 32) == entry.value; }
  }

  lemma CutWord(slot: nat, addr: Bits, entry: Option<Bitmap>, words: nat, word: nat)
    requires word < 32
    ensures DomainWord(DomainOf(slot, addr, Cut(entry, words)), slot, addr, word) ==
            if entry.Some? && word < words then entry.value[word] else ZeroWord()
  {
  }

  // ----- The system -----

  datatype Reader =
    | Start
    | GotSlot(slot: nat)
    | Looping(slot: nat, n: nat, index: nat, st: RouteState)
    | Fetched(slot: nat, n: nat, index: nat, kind: MatchKind, st: RouteState)
    | Evaluated(slot: nat, n: nat, index: nat, st: RouteState)
    | Returned(slot: nat, value: int)

  datatype Writer =
    | Idle(current: nat)
    | Filling(current: nat, target: RuleSet, pending: seq<Write>, stale: seq<DomainKey>)
    | Failing(current: nat, pending: seq<Write>)
    | Cleaning(current: nat, pending: seq<Write>)

  /** `live` is the rule set that was last completed in the active slot, and `intact` says
      that no reload has written to that slot since. The rest records what the reader met:
      the live rule set and the domain bitmap when it read the slot, which word it would
      have read next when that bitmap was deleted (32 if it was not), how many reloads
      overlapped it, whether the control plane's slot was the active one when it read it,
      and whether it went astray because a reload wrote to the slot it reads. */
  datatype Sys = Sys(
    m: Maps, w: Writer, r: Reader, live: RuleSet, intact: bool,
    seen: RuleSet, entry: Option<Bitmap>, cut: nat, overlap: nat, inStep: bool, stray: bool)

  datatype Event =
    | Begin(rs: RuleSet, batched: nat, target: seq<DomainKey>, stale: seq<DomainKey>)
    | BeginFailing(rs: RuleSet, batched: nat, written: nat, target: seq<DomainKey>)
    | WriterStep
    | FailedSwitch
    | ReaderStep

  predicate Running(r: Reader) { !r.Start? && !r.Returned? }

  function BeginReload(s: Sys, e: Event): Sys
    requires e.Begin? || e.BeginFailing?
  {
    if !s.w.Idle? || s.w.current >= EPOCH_SLOT_NUM then s
    else
      var cur := s.w.current;
      var next := 1 - cur;
      if !Compiled(e.rs) || e.batched > MAX_MATCH_SET_LEN || !KeysOf(e.target, next) then s
      else if e.Begin? && !KeysOf(e.stale, cur) then s
      else if e.BeginFailing? && e.written > MAX_MATCH_SET_LEN then s
      else
        var w := if e.Begin? then Filling(cur, e.rs, FillProgram(e.rs, next, e.batched, e.target), e.stale)
                 else Failing(cur, FailProgram(e.rs, next, e.batched, e.written, e.target));
        s.(w := w, intact := s.intact && s.m.active == cur,
           overlap := if Running(s.r) then s.overlap + 1 else s.overlap,
           stray := s.stray || (Running(s.r) && s.r.slot == next))
  }

  function WriterNext(s: Sys): Sys {
    match s.w
    case Idle(_) => s
    case Filling(cur, target, pending, stale) =>
      if pending != [] then s.(m := Apply(s.m, pending[0]), w := Filling(cur, target, pending[1..], stale))
      else if cur >= EPOCH_SLOT_NUM then s
      else s.(m := Apply(s.m, SetActive(1 - cur)), live := target, intact := true,
              w := Cleaning(cur, DomainDrops(stale)))
    case Failing(cur, pending) =>
      if pending != [] then s.(m := Apply(s.m, pending[0]), w := Failing(cur, pending[1..])) else s.(w := Idle(cur))
    case Cleaning(cur, pending) =>
      if pending != [] then s.(m := Apply(s.m, pending[0]), w := Cleaning(cur, pending[1..]))
      else if cur >= EPOCH_SLOT_NUM then s
      else s.(w := Idle(1 - cur))
  }

  /** The switch fails, which is only logged: everything else goes on. The new rules are
      live all the same when they were filled into the active slot. */
  function SwitchFails(s: Sys): Sys {
    if !s.w.Filling? || s.w.pending != [] || s.w.current >= EPOCH_SLOT_NUM then s
    else
      var t := s.(w := Cleaning(s.w.current, DomainDrops(s.w.stale)));
      if s.m.active == s.w.current then t else t.(live := s.w.target, intact := true)
  }

  function EvalStep(st: RouteState, q: Query, slot: nat, t: Tables, kind: MatchKind, index: nat): Step {
    if !st.bad && !st.good then EvalMatch(st, q, slot, t, kind, index) else Step(st, false)
  }

  /** One map read of `route()`, with the computation that follows it. The match set
      is read again for the finalization: the kernel holds a pointer to it. A trie is
      filled before it is put in the array, so finding it and searching it is one step. */
  function ReaderRead(m: Maps, q: Query, r: Reader): Reader {
    match r
    case Start => if m.active >= EPOCH_SLOT_NUM then Returned(m.active, -EFAULT) else GotSlot(m.active)
    case GotSlot(slot) => Looping(slot, RulesLen(m.meta, slot), 0, Initial())
    case Looping(slot, n, index, st) =>
      if index >= n then Returned(slot, Conclude(st, slot))
      else if Key(slot, index) !in m.routing then Returned(slot, -EPERM)
      else Fetched(slot, n, index, m.routing[Key(slot, index)].kind, st)
    case Fetched(slot, n, index, kind, st) =>
      var s := EvalStep(st, q, slot, Tables(m.lpm, m.domain), kind, index);
      if s.stop then Returned(slot, Conclude(s.state, slot)) else Evaluated(slot, n, index, s.state)
    case Evaluated(slot, n, index, st) =>
      if Key(slot, index) !in m.routing then Returned(slot, -EPERM)
      else
        var s := FinalizeMatch(st, m.routing[Key(slot, index)]);
        if s.stop then Returned(slot, Conclude(s.state, slot)) else Looping(slot, n, index + 1, s.state)
    case Returned(_, _) => r
  }

  function ReaderNext(s: Sys, q: Query): Sys {
    var s1 := s.(r := ReaderRead(s.m, q, s.r));
    if s.r.Start?
    then s1.(seen := s.live, entry := Lookup(s.m.domain, DomainKey(s.m.active, q.daddr)),
             cut := 32, overlap := if s.w.Idle? then 0 else 1, inStep := InStep(s), stray := !s.intact)
    else s1
  }

  /** The control plane's slot is the active one, or is about to be. */
  predicate InStep(s: Sys) { s.intact && (s.w.Cleaning? || s.w.current == s.m.active) }

  /** The first domain word that the reader has not read yet. */
  function NextWord(r: Reader): nat {
    if (r.Looping? || r.Fetched? || r.Evaluated?) && r.st.cached then r.st.wordIdx + 1 else 0
  }

  function BitmapNow(s: Sys, q: Query): Option<Bitmap>
    requires !s.r.Start?
  {
    Lookup(s.m.domain, DomainKey(s.r.slot, q.daddr))
  }

  /** A writer step, noting when it deletes the bitmap under the reader. */
  function WriterEvent(s: Sys, q: Query): Sys {
    var t := WriterNext(s);
    if Running(s.r) && BitmapNow(s, q) == s.entry && BitmapNow(t, q) != s.entry then t.(cut := NextWord(s.r)) else t
  }

  function Next(s: Sys, q: Query, e: Event): Sys {
    match e
    case Begin(_, _, _, _) => BeginReload(s, e)
    case BeginFailing(_, _, _, _) => BeginReload(s, e)
    case WriterStep => WriterEvent(s, q)
    case FailedSwitch => SwitchFails(s)
    case ReaderStep => ReaderNext(s, q)
  }

  function Run(s: Sys, q: Query, events: seq<Event>): Sys {
    if events == [] then s else Next(Run(s, q, events[..|events| - 1]), q, events[|events| - 1])
  }

  function Started(m: Maps, rs: RuleSet): Sys {
    Sys(m, Idle(m.active), Start, rs, true, rs, None, 32, 0, true, false)
  }

  // ----- Frame: writes to one slot do not disturb the other -----

  lemma WriteKeepsOtherSlot(m: Maps, w: Write, slot: nat, other: nat, rs: RuleSet)
    requires Within(w, other) && slot != other && slot < EPOCH_SLOT_NUM && other < EPOCH_SLOT_NUM
    requires Compiled(rs) && Holds(m, slot, rs)
    ensures Holds(Apply(m, w), slot, rs) && Apply(m, w).active == m.active
  {
  }

  lemma DropKeepsRules(m: Maps, key: DomainKey, slot: nat, rs: RuleSet)
    requires Holds(m, slot, rs)
    ensures Holds(Apply(m, DropDomain(key)), slot, rs) && Apply(m, DropDomain(key)).active == m.active
  {
  }

  predicate AllDrops(ws: seq<Write>) { forall w :: w in ws ==> w.DropDomain? }

  lemma {:induction false} DomainDropsAreDrops(keys: seq<DomainKey>)
    ensures AllDrops(DomainDrops(keys))
    decreases |keys|
  {
    if keys != [] { DomainDropsAreDrops(keys[1..]); }
  }

  // ----- The writer's invariant -----

  predicate WriterInv(s: Sys) {
    && s.w.current < EPOCH_SLOT_NUM
    && Compiled(s.live) && s.m.active < EPOCH_SLOT_NUM && (s.intact ==> Holds(s.m, s.m.active, s.live))
    && match s.w
       case Idle(_) => true
       case Filling(cur, target, pending, _) =>
         && (s.intact ==> s.m.active == cur) && Compiled(target) && AllWithin(pending, 1 - cur)
         && Holds(ApplyAll(s.m, pending), 1 - cur, target)
       case Failing(cur, pending) => (s.intact ==> s.m.active == cur) && AllWithin(pending, 1 - cur)
       case Cleaning(_, pending) => AllDrops(pending)
  }

  lemma BeginKeepsWriter(s: Sys, e: Event)
    requires (e.Begin? || e.BeginFailing?) && WriterInv(s)
    ensures WriterInv(BeginReload(s, e))
  {
    var t := BeginReload(s, e);
    if t.w != s.w {
      var cur, next := s.w.current, 1 - s.w.current;
      if e.Begin? {
        FillingFits(s.m, e.rs, next, e.batched, e.target);
        FillingStarts(s, t, cur, e.rs, FillProgram(e.rs, next, e.batched, e.target), e.stale);
      } else {
        ReloadWritesOnlyItsSlot(e.rs, next, e.batched, e.written, e.target);
        FailingStarts(s, t, cur, FailProgram(e.rs, next, e.batched, e.written, e.target));
      }
    }
  }

  predicate Starts(s: Sys, t: Sys, cur: nat) {
    t.m == s.m && t.live == s.live && t.intact == (s.intact && s.m.active == cur)
  }

  lemma FillingStarts(s: Sys, t: Sys, cur: nat, rs: RuleSet, pending: seq<Write>, stale: seq<DomainKey>)
    requires WriterInv(s) && Starts(s, t, cur) && cur < EPOCH_SLOT_NUM && t.w == Filling(cur, rs, pending, stale)
    requires Compiled(rs) && AllWithin(pending, 1 - cur) && Holds(ApplyAll(s.m, pending), 1 - cur, rs)
    ensures WriterInv(t)
  {
  }

  lemma FailingStarts(s: Sys, t: Sys, cur: nat, pending: seq<Write>)
    requires WriterInv(s) && Starts(s, t, cur) && cur < EPOCH_SLOT_NUM && t.w == Failing(cur, pending)
    requires AllWithin(pending, 1 - cur)
    ensures WriterInv(t)
  {
  }

  lemma FillingFits(m: Maps, rs: RuleSet, slot: nat, batched: nat, target: seq<DomainKey>)
    requires Compiled(rs) && batched <= MAX_MATCH_SET_LEN && KeysOf(target, slot)
    ensures AllWithin(FillProgram(rs, slot, batched, target), slot)
    ensures Holds(ApplyAll(m, FillProgram(rs, slot, batched, target)), slot, rs)
  {
    ReloadWritesOnlyItsSlot(rs, slot, batched, 0, target);
    FillHolds(m, rs, slot, batched, target);
  }

  /** A write into the slot that is filled: the other one stays as it is. */
  lemma WriteKeepsIntact(s: Sys, w: Write, cur: nat)
    requires s.m.active < EPOCH_SLOT_NUM && cur < EPOCH_SLOT_NUM && Compiled(s.live) && Within(w, 1 - cur)
    requires s.intact ==> s.m.active == cur && Holds(s.m, s.m.active, s.live)
    ensures Apply(s.m, w).active == s.m.active && (s.intact ==> Holds(Apply(s.m, w), s.m.active, s.live))
  {
    if s.intact { WriteKeepsOtherSlot(s.m, w, cur, 1 - cur, s.live); }
  }

  lemma FillingKeepsWriter(s: Sys)
    requires WriterInv(s) && s.w.Filling?
    ensures WriterInv(WriterNext(s))
  {
    var Filling(cur, target, pending, stale) := s.w;
    if pending == [] {
      DomainDropsAreDrops(stale);
    } else {
      assert pending[0] in pending;
      WriteKeepsIntact(s, pending[0], cur);
    }
  }

  lemma OthersKeepWriter(s: Sys)
    requires WriterInv(s) && !s.w.Filling?
    ensures WriterInv(WriterNext(s))
  {
    if s.w.Failing? && s.w.pending != [] {
      assert s.w.pending[0] in s.w.pending;
      WriteKeepsIntact(s, s.w.pending[0], s.w.current);
    } else if s.w.Cleaning? && s.w.pending != [] {
      assert s.w.pending[0] in s.w.pending;
      if s.intact { DropKeepsRules(s.m, s.w.pending[0].key, s.m.active, s.live); }
    }
  }

  lemma WriterStepKeepsWriter(s: Sys)
    requires WriterInv(s)
    ensures WriterInv(WriterNext(s))
  {
    if s.w.Filling? { FillingKeepsWriter(s); } else { OthersKeepWriter(s); }
  }

  lemma SwitchFailsKeepsWriter(s: Sys)
    requires WriterInv(s)
    ensures WriterInv(SwitchFails(s))
  {
    if s.w.Filling? { DomainDropsAreDrops(s.w.stale); }
  }

  // ----- The reader's invariant -----

  /** No write of the reload under way can reach the reader's slot. */
  predicate SlotSafe(s: Sys, slot: nat) {
    !s.stray ==> Holds(s.m, slot, s.seen) && (s.w.Filling? || s.w.Failing? ==> s.w.current == slot)
  }

  function Final(rs: RuleSet, slot: nat, q: Query, entry: Option<Bitmap>, st: RouteState, index: nat): RouteState
    requires index <= |rs.matchSets|
  {
    RunList(st, q, slot, TablesOf(rs, slot, q.daddr, entry), rs.matchSets[index..], index).state
  }

  /** The reader has computed exactly what the rule set `seen` alone would have. */
  predicate OnTrack(r: Reader, q: Query, rs: RuleSet, entry: Option<Bitmap>) {
    match r
    case Start => true
    case GotSlot(slot) => slot < EPOCH_SLOT_NUM
    case Looping(slot, n, index, st) =>
      && slot < EPOCH_SLOT_NUM && n == |rs.matchSets| && index <= n
      && Conclude(Final(rs, slot, q, entry, st, index), slot) == Verdict(rs, slot, q, entry)
    case Fetched(slot, n, index, kind, st) =>
      && slot < EPOCH_SLOT_NUM && n == |rs.matchSets| && index < n && kind == rs.matchSets[index].kind
      && Conclude(Final(rs, slot, q, entry, st, index), slot) == Verdict(rs, slot, q, entry)
    case Evaluated(slot, n, index, st) =>
      && slot < EPOCH_SLOT_NUM && n == |rs.matchSets| && index < n
      && var s := FinalizeMatch(st, rs.matchSets[index]);
         Conclude(if s.stop then s.state else Final(rs, slot, q, entry, s.state, index + 1), slot) ==
         Verdict(rs, slot, q, entry)
    case Returned(slot, value) => value == Verdict(rs, slot, q, entry)
  }

  /** Words are read in increasing order. */
  predicate InOrder(r: Reader) {
    (r.Looping? || r.Fetched? || r.Evaluated?) && r.st.cached ==> r.st.wordIdx <= r.index / 32 && r.st.wordIdx < 32
  }

  /** The cuts that the reader can still turn out to have seen: any that keeps what it
      has read while the bitmap is there, and one once the bitmap is gone. */
  predicate Possible(s: Sys, q: Query, words: nat)
    requires !s.r.Start?
  {
    words <= 32 && if BitmapNow(s, q) == s.entry then NextWord(s.r) <= words else words == s.cut
  }

  predicate Tracks(s: Sys, q: Query, words: nat)
    requires !s.r.Start?
  {
    Possible(s, q, words) ==> OnTrack(s.r, q, s.seen, Cut(s.entry, words))
  }

  predicate BitmapOk(s: Sys, q: Query)
    requires !s.r.Start?
  {
    && s.cut <= 32 && InOrder(s.r)
    && (if BitmapNow(s, q) == s.entry then s.cut == 32 else BitmapNow(s, q).None? && s.cut <= NextWord(s.r))
  }

  ghost predicate ReaderInv(s: Sys, q: Query) {
    && Compiled(s.seen)
    && (Running(s.r) ==>
          && s.r.slot < EPOCH_SLOT_NUM && SlotSafe(s, s.r.slot) && BitmapOk(s, q)
          && (!s.stray ==> forall words: nat :: Tracks(s, q, words)))
    && (s.r.Returned? && !s.stray ==>
          s.cut <= 32 && s.r.value == Verdict(s.seen, s.r.slot, q, Cut(s.entry, s.cut)))
  }

  /** Whether evaluating the entry reads a new domain word. */
  predicate ReadsWord(st: RouteState, kind: MatchKind, index: nat) {
    kind.DomainSet? && index < MAX_MATCH_SET_LEN && !(st.cached && st.wordIdx == index / 32)
  }

  predicate WillRead(r: Reader)
    requires r.Fetched?
  {
    ReadsWord(r.st, r.kind, r.index) && !r.st.bad && !r.st.good
  }

  /** Evaluation reads one trie or one domain word, so equal lookups give equal steps. */
  lemma EvalAgrees(st: RouteState, q: Query, slot: nat, t1: Tables, t2: Tables, kind: MatchKind, index: nat)
    requires slot < EPOCH_SLOT_NUM
    requires TrieOf(kind).Some? && TrieOf(kind).value < MAX_MATCH_SET_LEN ==>
               Lookup(t1.lpm, Key(slot, TrieOf(kind).value)) == Lookup(t2.lpm, Key(slot, TrieOf(kind).value))
    requires ReadsWord(st, kind, index) ==>
               DomainWord(t1.domain, slot, q.daddr, index / 32) == DomainWord(t2.domain, slot, q.daddr, index / 32)
    ensures EvalMatch(st, q, slot, t1, kind, index) == EvalMatch(st, q, slot, t2, kind, index)
  {
  }

  lemma LiveEvalIsPure(m: Maps, rs: RuleSet, slot: nat, q: Query, entry: Option<Bitmap>, st: RouteState, index: nat)
    requires Compiled(rs) && Holds(m, slot, rs) && slot < EPOCH_SLOT_NUM && index < |rs.matchSets|
    requires ReadsWord(st, rs.matchSets[index].kind, index) && !st.bad && !st.good ==>
               DomainWord(m.domain, slot, q.daddr, index / 32) ==
               DomainWord(DomainOf(slot, q.daddr, entry), slot, q.daddr, index / 32)
    ensures Key(slot, index) in m.routing && m.routing[Key(slot, index)] == rs.matchSets[index]
    ensures var kind := rs.matchSets[index].kind;
            EvalStep(st, q, slot, Tables(m.lpm, m.domain), kind, index) ==
            EvalStep(st, q, slot, TablesOf(rs, slot, q.daddr, entry), kind, index)
  {
    var kind := rs.matchSets[index].kind;
    var trie := TrieOf(kind);
    if trie.Some? {
      assert rs.tries[trie.value] != {};
      LpmOfAt(rs.tries, slot, |rs.tries|, trie.value);
    }
    if !st.bad && !st.good {
      EvalAgrees(st, q, slot, Tables(m.lpm, m.domain), TablesOf(rs, slot, q.daddr, entry), kind, index);
    }
  }

  /** Unfolding the rest of a run at its next match set. */
  lemma FinalUnfolds(rs: RuleSet, slot: nat, q: Query, entry: Option<Bitmap>, st: RouteState, index: nat)
    requires index < |rs.matchSets|
    ensures var s := EvalStep(st, q, slot, TablesOf(rs, slot, q.daddr, entry), rs.matchSets[index].kind, index);
            var f := FinalizeMatch(s.state, rs.matchSets[index]);
            Final(rs, slot, q, entry, st, index) ==
            if s.stop then s.state else if f.stop then f.state else Final(rs, slot, q, entry, f.state, index + 1)
  {
    assert rs.matchSets[index..][1..] == rs.matchSets[index + 1..];
  }

  /** A word read now is the word of every cut that is still possible afterwards. */
  lemma WordIsCutWord(s: Sys, q: Query, words: nat)
    requires s.r.Fetched? && BitmapOk(s, q) && s.r.index < MAX_MATCH_SET_LEN && ReadsWord(s.r.st, s.r.kind, s.r.index)
    requires if BitmapNow(s, q) == s.entry then s.r.index / 32 < words else words == s.cut
    ensures var word := s.r.index / 32;
            DomainWord(s.m.domain, s.r.slot, q.daddr, word) ==
            DomainWord(DomainOf(s.r.slot, q.daddr, Cut(s.entry, words)), s.r.slot, q.daddr, word)
  {
    CutWord(s.r.slot, q.daddr, s.entry, words, s.r.index / 32);
  }

  lemma LoopingTracks(s: Sys, q: Query, words: nat)
    requires WriterInv(s) && ReaderInv(s, q) && !s.stray && s.r.Looping? && Possible(s, q, words)
    ensures OnTrack(ReaderRead(s.m, q, s.r), q, s.seen, Cut(s.entry, words))
  {
    assert Tracks(s, q, words);
    var Looping(slot, n, index, st) := s.r;
    if index == n {
      assert s.seen.matchSets[index..] == [];
    } else {
      assert Key(slot, index) in s.m.routing && s.m.routing[Key(slot, index)] == s.seen.matchSets[index];
    }
  }

  lemma FetchedTracks(s: Sys, q: Query, words: nat)
    requires WriterInv(s) && ReaderInv(s, q) && !s.stray && s.r.Fetched? && Possible(s, q, words)
    requires BitmapNow(s, q) == s.entry && WillRead(s.r) ==> s.r.index / 32 < words
    ensures OnTrack(ReaderRead(s.m, q, s.r), q, s.seen, Cut(s.entry, words))
  {
    assert Tracks(s, q, words);
    var Fetched(slot, n, index, kind, st) := s.r;
    if WillRead(s.r) {
      WordIsCutWord(s, q, words);
    }
    LiveEvalIsPure(s.m, s.seen, slot, q, Cut(s.entry, words), st, index);
    FinalUnfolds(s.seen, slot, q, Cut(s.entry, words), st, index);
  }

  lemma EvaluatedTracks(s: Sys, q: Query, words: nat)
    requires WriterInv(s) && ReaderInv(s, q) && !s.stray && s.r.Evaluated? && Possible(s, q, words)
    ensures OnTrack(ReaderRead(s.m, q, s.r), q, s.seen, Cut(s.entry, words))
  {
    assert Tracks(s, q, words);
    var Evaluated(slot, n, index, st) := s.r;
    assert Key(slot, index) in s.m.routing && s.m.routing[Key(slot, index)] == s.seen.matchSets[index];
  }

  /** The reader's words stay in order, and what it may have seen only shrinks. */
  lemma ReaderStepKeepsOrder(s: Sys, q: Query)
    requires Running(s.r) && BitmapOk(s, q)
    ensures var r := ReaderRead(s.m, q, s.r);
            Running(r) ==> r.slot == s.r.slot && InOrder(r) && NextWord(s.r) <= NextWord(r)
                           && (s.r.Fetched? && WillRead(s.r) ==> NextWord(r) == s.r.index / 32 + 1)
  {
    match s.r
    case GotSlot(_) =>
    case Looping(_, _, _, _) =>
    case Fetched(slot, _, index, kind, st) =>
      EvalKeepsCache(st, q, slot, Tables(s.m.lpm, s.m.domain), kind, index);
    case Evaluated(_, _, index, _) =>
      assert index / 32 <= (index + 1) / 32;
  }

  lemma EvalKeepsCache(st: RouteState, q: Query, slot: nat, t: Tables, kind: MatchKind, index: nat)
    ensures var st1 := EvalStep(st, q, slot, t, kind, index).state;
            if ReadsWord(st, kind, index) && !st.bad && !st.good then st1.cached && st1.wordIdx == index / 32
            else st1.cached == st.cached && st1.wordIdx == st.wordIdx
  {
  }

  lemma ReaderStepTracks(s: Sys, q: Query, words: nat)
    requires WriterInv(s) && ReaderInv(s, q) && Running(s.r) && !s.stray
    requires var t := ReaderNext(s, q); if Running(t.r) then Possible(t, q, words) else words == s.cut
    ensures OnTrack(ReaderRead(s.m, q, s.r), q, s.seen, Cut(s.entry, words))
  {
    ReaderStepKeepsOrder(s, q);
    match s.r
    case GotSlot(slot) => assert s.seen.matchSets[0..] == s.seen.matchSets;
    case Looping(_, _, _, _) => LoopingTracks(s, q, words);
    case Fetched(_, _, _, _, _) => FetchedTracks(s, q, words);
    case Evaluated(_, _, _, _) => EvaluatedTracks(s, q, words);
  }

  lemma ReaderStepKeeps(s: Sys, q: Query)
    requires WriterInv(s) && ReaderInv(s, q)
    ensures WriterInv(ReaderNext(s, q)) && ReaderInv(ReaderNext(s, q), q)
  {
    var t := ReaderNext(s, q);
    if Running(s.r) {
      ReaderStepKeepsOrder(s, q);
      if !s.stray {
        if Running(t.r) {
          forall words: nat
            ensures Tracks(t, q, words)
          {
            if Possible(t, q, words) { ReaderStepTracks(s, q, words); }
          }
        } else {
          ReaderStepTracks(s, q, s.cut);
        }
      }
    }
  }

  /** A writer step cannot reach the slot of a reader that it overlaps once. */
  lemma WriterStepKeepsSlot(s: Sys, slot: nat)
    requires WriterInv(s) && slot < EPOCH_SLOT_NUM && SlotSafe(s, slot) && Compiled(s.seen)
    ensures SlotSafe(WriterNext(s), slot)
  {
    if !s.stray {
      match s.w
      case Idle(_) =>
      case Filling(cur, _, pending, _) =>
        if pending != [] {
          assert pending[0] in pending;
          WriteKeepsOtherSlot(s.m, pending[0], cur, 1 - cur, s.seen);
        }
      case Failing(cur, pending) =>
        if pending != [] {
          assert pending[0] in pending;
          WriteKeepsOtherSlot(s.m, pending[0], cur, 1 - cur, s.seen);
        }
      case Cleaning(cur, pending) =>
        if pending != [] {
          assert pending[0] in pending;
          DropKeepsRules(s.m, pending[0].key, slot, s.seen);
        }
    }
  }

  /** A writer step leaves alone what the reader has and has met. */
  predicate SameCall(s: Sys, t: Sys) {
    && t.r == s.r && t.seen == s.seen && t.entry == s.entry
    && t.overlap == s.overlap && t.inStep == s.inStep && t.stray == s.stray
  }

  lemma WriterKeepsCall(s: Sys, q: Query)
    ensures SameCall(s, WriterNext(s)) && WriterNext(s).cut == s.cut && SameCall(s, WriterEvent(s, q))
    ensures var t, u := WriterEvent(s, q), WriterNext(s);
            t.m == u.m && t.w == u.w && t.live == u.live && t.intact == u.intact
  {
    match s.w
    case Idle(_) =>
    case Filling(_, _, _, _) =>
    case Failing(_, _) =>
    case Cleaning(_, _) =>
  }

  /** Writers only ever delete bitmaps. */
  lemma WriterOnlyDrops(s: Sys, q: Query)
    requires !s.r.Start?
    ensures !WriterNext(s).r.Start?
    ensures BitmapNow(WriterNext(s), q) == BitmapNow(s, q) || BitmapNow(WriterNext(s), q).None?
  {
    if !s.w.Idle? && s.w.pending != [] {
      WriteOnlyDrops(s.m, s.w.pending[0], DomainKey(s.r.slot, q.daddr));
    }
  }

  lemma WriteOnlyDrops(m: Maps, w: Write, key: DomainKey)
    ensures Lookup(Apply(m, w).domain, key) == Lookup(m.domain, key) || Lookup(Apply(m, w).domain, key).None?
  {
  }

  /** What is possible after a writer step was possible before. */
  lemma WriterStepTracks(s: Sys, q: Query, words: nat)
    requires Running(s.r) && BitmapOk(s, q) && Tracks(s, q, words)
    ensures !WriterEvent(s, q).r.Start? && Tracks(WriterEvent(s, q), q, words)
  {
    WriterOnlyDrops(s, q);
    WriterKeepsCall(s, q);
    var t := WriterEvent(s, q);
    assert Possible(t, q, words) ==> Possible(s, q, words);
  }

  lemma WriterStepKeepsReader(s: Sys, q: Query)
    requires WriterInv(s) && ReaderInv(s, q)
    ensures ReaderInv(WriterEvent(s, q), q)
  {
    WriterKeepsCall(s, q);
    if Running(s.r) {
      WriterStepKeepsSlot(s, s.r.slot);
      WriterStepKeepsBitmap(s, q);
      if !s.stray { WriterStepTracksAll(s, q); }
    }
  }

  lemma WriterStepKeepsBitmap(s: Sys, q: Query)
    requires Running(s.r) && BitmapOk(s, q)
    ensures !WriterEvent(s, q).r.Start? && BitmapOk(WriterEvent(s, q), q)
  {
    WriterKeepsCall(s, q);
    WriterOnlyDrops(s, q);
  }

  lemma WriterStepTracksAll(s: Sys, q: Query)
    requires Running(s.r) && BitmapOk(s, q) && forall words: nat :: Tracks(s, q, words)
    ensures !WriterEvent(s, q).r.Start? && forall words: nat :: Tracks(WriterEvent(s, q), q, words)
  {
    WriterKeepsCall(s, q);
    forall words: nat
      ensures Tracks(WriterEvent(s, q), q, words)
    {
      assert Tracks(s, q, words);
      WriterStepTracks(s, q, words);
    }
  }

  lemma SwitchFailsKeepsReader(s: Sys, q: Query)
    requires WriterInv(s) && ReaderInv(s, q)
    ensures ReaderInv(SwitchFails(s), q)
  {
    var t := SwitchFails(s);
    assert t == s.(w := t.w, live := t.live, intact := t.intact);
    if Running(s.r) && !s.stray {
      forall words: nat
        ensures Tracks(t, q, words)
      {
        assert Tracks(s, q, words);
      }
    }
  }

  lemma BeginKeepsReader(s: Sys, q: Query, e: Event)
    requires (e.Begin? || e.BeginFailing?) && WriterInv(s) && ReaderInv(s, q)
    ensures ReaderInv(BeginReload(s, e), q)
  {
    var t := BeginReload(s, e);
    assert t == s.(w := t.w, intact := t.intact, overlap := t.overlap, stray := t.stray) && (s.stray ==> t.stray);
    if Running(s.r) && !t.stray {
      forall words: nat
        ensures Tracks(t, q, words)
      {
        assert Tracks(s, q, words);
      }
    }
  }

  lemma NextKeepsInvariants(s: Sys, q: Query, e: Event)
    requires WriterInv(s) && ReaderInv(s, q)
    ensures WriterInv(Next(s, q, e)) && ReaderInv(Next(s, q, e), q)
  {
    match e
    case Begin(_, _, _, _) =>
      BeginKeepsWriter(s, e);
      BeginKeepsReader(s, q, e);
    case BeginFailing(_, _, _, _) =>
      BeginKeepsWriter(s, e);
      BeginKeepsReader(s, q, e);
    case WriterStep =>
      WriterStepKeepsWriter(s);
      WriterStepKeepsReader(s, q);
    case FailedSwitch =>
      SwitchFailsKeepsWriter(s);
      SwitchFailsKeepsReader(s, q);
    case ReaderStep => ReaderStepKeeps(s, q);
  }

  lemma {:induction false} RunKeepsInvariants(s: Sys, q: Query, events: seq<Event>)
    requires WriterInv(s) && ReaderInv(s, q)
    ensures WriterInv(Run(s, q, events)) && ReaderInv(Run(s, q, events), q)
    decreases |events|
  {
    if events != [] {
      var init, last := events[..|events| - 1], events[|events| - 1];
      RunKeepsInvariants(s, q, init);
      NextKeepsInvariants(Run(s, q, init), q, last);
    }
  }

  /** When the reader read the slot, `seen` was live and `entry` was the bitmap of the
      destination in the active slot. */
  predicate ReadAt(s: Sys, q: Query, at: Sys)
    requires !s.r.Start?
  {
    at.r.Start? && at.live == s.seen && at.m.active == s.r.slot
    && s.entry == Lookup(at.m.domain, DomainKey(s.r.slot, q.daddr))
  }

  lemma NextKeepsRecord(s: Sys, q: Query, e: Event)
    requires !s.r.Start?
    ensures var t := Next(s, q, e);
            !t.r.Start? && t.r.slot == s.r.slot && t.seen == s.seen && t.entry == s.entry
  {
    if e.ReaderStep? {
      assert ReaderRead(s.m, q, s.r).slot == s.r.slot;
    } else if e.WriterStep? {
      WriterKeepsCall(s, q);
    }
  }

  lemma FirstRead(s: Sys, q: Query, e: Event)
    requires s.r.Start? && !Next(s, q, e).r.Start?
    ensures ReadAt(Next(s, q, e), q, s)
  {
    if e.WriterStep? { WriterKeepsCall(s, q); }
  }

  lemma {:induction false} SeenWasLive(s: Sys, q: Query, events: seq<Event>)
    requires s.r.Start? && !Run(s, q, events).r.Start?
    ensures exists n :: 0 <= n < |events| && ReadAt(Run(s, q, events), q, Run(s, q, events[..n]))
    decreases |events|
  {
    var last := |events| - 1;
    var before := Run(s, q, events[..last]);
    if before.r.Start? {
      FirstRead(before, q, events[last]);
      assert ReadAt(Run(s, q, events), q, Run(s, q, events[..last]));
    } else {
      NextKeepsRecord(before, q, events[last]);
      SeenWasLive(s, q, events[..last]);
      var n :| 0 <= n < last && ReadAt(before, q, Run(s, q, events[..last][..n]));
      assert events[..last][..n] == events[..n];
      assert ReadAt(Run(s, q, events), q, Run(s, q, events[..n]));
    }
  }

  // ----- Overlaps, while the control plane is in step -----

  /** A call that was in step when it read the slot and overlaps at most one reload has not
      gone astray, and the reload still to come would not lead it astray. */
  predicate StepInv(s: Sys) {
    !s.r.Start? && s.inStep && s.overlap <= 1 ==>
      !s.stray && (Running(s.r) && s.overlap == 0 ==> s.w == Idle(s.r.slot))
  }

  lemma NextKeepsStep(s: Sys, q: Query, e: Event)
    requires WriterInv(s) && StepInv(s)
    ensures StepInv(Next(s, q, e))
  {
    if e.ReaderStep? && Running(s.r) {
      assert ReaderRead(s.m, q, s.r).slot == s.r.slot;
    } else if e.WriterStep? {
      WriterKeepsCall(s, q);
    }
  }

  lemma {:induction false} RunKeepsStep(s: Sys, q: Query, events: seq<Event>)
    requires WriterInv(s) && ReaderInv(s, q) && StepInv(s)
    ensures StepInv(Run(s, q, events))
    decreases |events|
  {
    if events != [] {
      var init, last := events[..|events| - 1], events[|events| - 1];
      RunKeepsStep(s, q, init);
      RunKeepsInvariants(s, q, init);
      NextKeepsStep(Run(s, q, init), q, last);
    }
  }

  predicate NoFailedSwitch(events: seq<Event>) { FailedSwitch !in events }

  predicate Together(s: Sys) {
    InStep(s) && s.inStep && (s.w.Cleaning? ==> s.m.active == 1 - s.w.current)
  }

  /** Without a failed switch the control plane is always in step, and so is every call. */
  lemma {:induction false} AlwaysInStep(s: Sys, q: Query, events: seq<Event>)
    requires WriterInv(s) && ReaderInv(s, q) && Together(s) && NoFailedSwitch(events)
    ensures Together(Run(s, q, events))
    decreases |events|
  {
    if events != [] {
      var init, last := events[..|events| - 1], events[|events| - 1];
      AlwaysInStep(s, q, init);
      RunKeepsInvariants(s, q, init);
      StaysInStep(Run(s, q, init), q, last);
    }
  }

  lemma StaysInStep(s: Sys, q: Query, e: Event)
    requires WriterInv(s) && Together(s) && !e.FailedSwitch?
    ensures Together(Next(s, q, e))
  {
    if e.WriterStep? {
      WriterKeepsCall(s, q);
      WriterKeepsTogether(s);
    }
  }

  lemma WriterKeepsTogether(s: Sys)
    requires WriterInv(s) && Together(s)
    ensures Together(WriterNext(s))
  {
    if !s.w.Idle? && s.w.pending != [] { assert s.w.pending[0] in s.w.pending; }
  }

  predicate SafeRun(s: Sys, q: Query, events: seq<Event>) {
    var t := Run(Next(s, q, ReaderStep), q, events);
    t.overlap <= 1 ==> !t.stray
  }

  /** Exactly: between reloads, a call that begins now is safe from every single reload that
      may overlap it if and only if the control plane's slot is the active one. */
  lemma SafeOverlapIffInStep(s: Sys, q: Query)
    requires WriterInv(s) && ReaderInv(s, q) && s.r.Start? && s.w.Idle? && s.intact
    ensures (forall events :: SafeRun(s, q, events)) <==> s.w.current == s.m.active
  {
    var s1 := Next(s, q, ReaderStep);
    NextKeepsInvariants(s, q, ReaderStep);
    if s.w.current == s.m.active {
      forall events
        ensures SafeRun(s, q, events)
      {
        RunKeepsStep(s1, q, events);
        InStepStays(s1, q, events);
      }
    } else {
      var begin := Begin(s.live, 0, [], []);
      assert [begin][..0] == [] && Run(s1, q, [begin]) == Next(s1, q, begin);
      assert !SafeRun(s, q, [begin]);
    }
  }

  /** What the call met when it read the slot is not forgotten. */
  lemma {:induction false} InStepStays(s: Sys, q: Query, events: seq<Event>)
    requires !s.r.Start?
    ensures !Run(s, q, events).r.Start? && Run(s, q, events).inStep == s.inStep
    decreases |events|
  {
    if events != [] {
      var init, last := events[..|events| - 1], events[|events| - 1];
      InStepStays(s, q, init);
      NextKeepsRecord(Run(s, q, init), q, last);
      if last.WriterStep? { WriterKeepsCall(Run(s, q, init), q); }
    }
  }

  /** Epoch reload is atomic to readers, in every interleaving, whatever fails. As long as
      no reload writes to it, the active slot is a complete copy of the last rule set
      completed there. A `route()` call returns the answer of exactly one complete rule set,
      the one that was live when it read the slot, with the domain bitmap that the
      destination had then, of which a reload may have cut off the end, unless a reload
      writes to the slot that it reads. None does when the call overlaps at most one reload
      and the control plane's slot was the active one when it read it, as it always is as
      long as no switch has failed. */
  lemma ReloadIsAtomic(m: Maps, rs: RuleSet, q: Query, events: seq<Event>)
    requires m.active < EPOCH_SLOT_NUM && Compiled(rs) && Holds(m, m.active, rs)
    ensures var s := Run(Started(m, rs), q, events);
            && s.m.active < EPOCH_SLOT_NUM && (s.intact ==> Holds(s.m, s.m.active, s.live))
            && (!s.r.Start? && s.inStep && s.overlap <= 1 ==> !s.stray)
            && (NoFailedSwitch(events) ==> s.intact && s.inStep && (s.w.Idle? ==> s.w.current == s.m.active))
            && (s.r.Returned? && !s.stray ==>
                  && s.cut <= 32 && s.r.value == Verdict(s.seen, s.r.slot, q, Cut(s.entry, s.cut))
                  && exists n :: 0 <= n < |events| && ReadAt(s, q, Run(Started(m, rs), q, events[..n])))
  {
    var s0 := Started(m, rs);
    RunKeepsInvariants(s0, q, events);
    RunKeepsStep(s0, q, events);
    if NoFailedSwitch(events) { AlwaysInStep(s0, q, events); }
    if Run(s0, q, events).r.Returned? {
      SeenWasLive(s0, q, events);
    }
  }

  /** Cutting the bitmap of the destination anywhere leaves the answer as it is. */
  ghost predicate CutsAgree(rs: RuleSet, slot: nat, q: Query, entry: Option<Bitmap>) {
    forall words: nat :: words <= 32 ==> Verdict(rs, slot, q, Cut(entry, words)) == Verdict(rs, slot, q, entry)
  }

  /** The answer of a complete rule set is what its nested rules say. */
  lemma VerdictMeansNestedRules(
    rs: RuleSet, slot: nat, q: Query, entry: Option<Bitmap>, rules: seq<RuleMeaning.Rule>)
    requires Compiled(rs) && slot < EPOCH_SLOT_NUM
    requires RuleMeaning.ValidOutbounds(rules) && rs.matchSets == RuleMeaning.Flatten(rules)
    requires forall i :: 0 <= i < |rs.matchSets| ==> !rs.matchSets[i].kind.Other?
    ensures RuleMeaning.ReportsFirstDecider(
              Verdict(rs, slot, q, entry),
              RuleMeaning.FreshHits(q, slot, TablesOf(rs, slot, q.daddr, entry)), rules, slot)
  {
    var t := TablesOf(rs, slot, q.daddr, entry);
    forall i | 0 <= i < |rs.matchSets| ensures !EvalFresh(q, slot, t, rs.matchSets[i].kind, i).Fault? {
      var trie := TrieOf(rs.matchSets[i].kind);
      if trie.Some? { LpmOfAt(rs.tries, slot, |rs.tries|, trie.value); }
    }
    RuleMeaning.LoopMeansNestedRules(q, slot, t, rules);
  }

  // ----- A failed reload -----

  lemma {:induction false} WriteInvisible(
    m: Maps, w: Write, q: Query, slot: nat, other: nat, st: RouteState, index: nat, n: nat)
    requires Within(w, other) && slot != other && slot < EPOCH_SLOT_NUM && other < EPOCH_SLOT_NUM && index <= n
    ensures var m1 := Apply(m, w);
            RunLoop(st, q, slot, Tables(m1.lpm, m1.domain), m1.routing, index, n) ==
            RunLoop(st, q, slot, Tables(m.lpm, m.domain), m.routing, index, n)
    decreases n - index
  {
    if index < n {
      var m1 := Apply(m, w);
      var t, t1 := Tables(m.lpm, m.domain), Tables(m1.lpm, m1.domain);
      if index < MAX_MATCH_SET_LEN && Key(slot, index) in m.routing {
        EvalAgrees(st, q, slot, t1, t, m.routing[Key(slot, index)].kind, index);
      }
      var s := LoopCb(st, q, slot, t, m.routing, index);
      assert LoopCb(st, q, slot, t1, m1.routing, index) == s;
      if !s.stop {
        WriteInvisible(m, w, q, slot, other, s.state, index + 1, n);
      }
    }
  }

  function RouteOn(m: Maps, q: Query): int {
    RouteValue(q, Some(m.active), m.meta, m.routing, Tables(m.lpm, m.domain))
  }

  lemma {:induction false} WritesInvisible(m: Maps, ws: seq<Write>, q: Query, other: nat)
    requires m.active < EPOCH_SLOT_NUM && other < EPOCH_SLOT_NUM && m.active != other && AllWithin(ws, other)
    ensures RouteOn(ApplyAll(m, ws), q) == RouteOn(m, q) && ApplyAll(m, ws).active == m.active
    decreases |ws|
  {
    if ws != [] {
      assert ws[0] in ws;
      WriteInvisible(m, ws[0], q, m.active, other, Initial(), 0, RulesLen(m.meta, m.active));
      WritesInvisible(Apply(m, ws[0]), ws[1..], q, other);
    }
  }

  /** A reload whose `write_routing_rules` fails, wherever it fails, changes the answer
      of no later `route()` call, whatever the maps hold. */
  lemma FailedReloadIsInvisible(
    m: Maps, rs: RuleSet, batched: nat, written: nat, target: seq<DomainKey>, q: Query)
    requires m.active < EPOCH_SLOT_NUM && |rs.tries| <= MAX_MATCH_SET_LEN
    requires batched <= MAX_MATCH_SET_LEN && written <= MAX_MATCH_SET_LEN && KeysOf(target, 1 - m.active)
    ensures RouteOn(ApplyAll(m, FailProgram(rs, 1 - m.active, batched, written, target)), q) == RouteOn(m, q)
  {
    ReloadWritesOnlyItsSlot(rs, 1 - m.active, batched, written, target);
    WritesInvisible(m, FailProgram(rs, 1 - m.active, batched, written, target), q, 1 - m.active);
  }
}
