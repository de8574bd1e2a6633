/** Two shortcuts of the routing loop are invisible: the one-word cache of the
    domain bitmap, for every array, and the skipping of entries whose outcome no
    longer matters, for every array that evaluates without error. */
module RouteSkipping {
  import opened MatchSets
  import opened RouteEngine

  /** How an entry at a flat index evaluates, given a packet and a set of maps. */
  type Evaluator = (MatchKind, nat) -> Eval

  function Fresh(q: Query, slot: nat, t: Tables): Evaluator {
    (kind: MatchKind, index: nat) => EvalFresh(q, slot, t, kind, index)
  }

  // ----- The loop over a list -----

  function RunList(st: RouteState, q: Query, slot: nat, t: Tables, list: seq<MatchSet>, index: nat): Step
    decreases |list|
  {
    if list == [] then Step(st, false)
    else
      var s := Body(st, q, slot, t, list[0], index);
      if s.stop then s else RunList(s.state, q, slot, t, list[1..], index + 1)
  }

  /** Slot `slot` of the routing map starts with `list`. */
  predicate SlotHolds(routing: map<nat, MatchSet>, slot: nat, list: seq<MatchSet>) {
    forall i :: 0 <= i < |list| ==>
      Key(slot, i) in routing && routing[Key(slot, i)] == list[i]
  }

  lemma {:induction false} RunLoopIsRunList(
    st: RouteState, q: Query, slot: nat, t: Tables, routing: map<nat, MatchSet>, list: seq<MatchSet>, index: nat)
    requires slot < EPOCH_SLOT_NUM && index <= |list| <= MAX_MATCH_SET_LEN && SlotHolds(routing, slot, list)
    ensures RunLoop(st, q, slot, t, routing, index, |list|) == RunList(st, q, slot, t, list[index..], index).state
    decreases |list| - index
  {
    if index < |list| {
      var s := LoopCb(st, q, slot, t, routing, index);
      assert s == Body(st, q, slot, t, list[index], index);
      assert list[index..][1..] == list[index + 1..];
      if !s.stop {
        RunLoopIsRunList(s.state, q, slot, t, routing, list, index + 1);
      }
    }
  }

  // ----- The same loop without a cache -----

  function PlainEval(st: RouteState, outcome: Eval): Step {
    match outcome
    case Hit => Step(st.(good := true), false)
    case Miss => Step(st, false)
    case Fault(code) => Step(st.(result := -code), true)
  }

  function PlainBody(st: RouteState, eval: Evaluator, ms: MatchSet, index: nat): Step {
    var s := if !st.bad && !st.good then PlainEval(st, eval(ms.kind, index)) else Step(st, false);
    if s.stop then s else FinalizeMatch(s.state, ms)
  }

  function RunPlain(st: RouteState, eval: Evaluator, list: seq<MatchSet>, index: nat): Step
    decreases |list|
  {
    if list == [] then Step(st, false)
    else
      var s := PlainBody(st, eval, list[0], index);
      if s.stop then s else RunPlain(s.state, eval, list[1..], index + 1)
  }

  /** The cached word, if any, is the current content of the map. */
  predicate CacheOk(st: RouteState, q: Query, slot: nat, t: Tables) {
    st.cached ==> st.wordIdx < 32 && st.wordBits == DomainWord(t.domain, slot, q.daddr, st.wordIdx)
  }

  function Core(st: RouteState): RouteState {
    st.(cached := false, wordIdx := 0, wordBits := ZeroWord())
  }

  function CoreStep(s: Step): Step { Step(Core(s.state), s.stop) }

  lemma EvalIsPlain(st: RouteState, q: Query, slot: nat, t: Tables, kind: MatchKind, index: nat)
    requires CacheOk(st, q, slot, t)
    ensures var s := EvalMatch(st, q, slot, t, kind, index);
            && CacheOk(s.state, q, slot, t)
            && CoreStep(s) == PlainEval(Core(st), EvalFresh(q, slot, t, kind, index))
  {
  }

  lemma FinalizeIgnoresCache(st: RouteState, ms: MatchSet)
    ensures var s := FinalizeMatch(st, ms);
            && CoreStep(s) == FinalizeMatch(Core(st), ms)
            && s.state == st.(bad := s.state.bad, good := s.state.good, must := s.state.must, result := s.state.result)
  {
  }

  lemma BodyIsPlain(st: RouteState, q: Query, slot: nat, t: Tables, ms: MatchSet, index: nat)
    requires CacheOk(st, q, slot, t)
    ensures var s := Body(st, q, slot, t, ms, index);
            && CacheOk(s.state, q, slot, t)
            && CoreStep(s) == PlainBody(Core(st), Fresh(q, slot, t), ms, index)
  {
    EvalIsPlain(st, q, slot, t, ms.kind, index);
    var s := if !st.bad && !st.good then EvalMatch(st, q, slot, t, ms.kind, index) else Step(st, false);
    if !s.stop {
      FinalizeIgnoresCache(s.state, ms);
    }
  }

  /** The domain word cache is invisible, for every array and every state that
      the loop can reach. */
  lemma {:induction false} CachedLoopIsPlain(
    st: RouteState, q: Query, slot: nat, t: Tables, list: seq<MatchSet>, index: nat)
    requires CacheOk(st, q, slot, t)
    ensures CoreStep(RunList(st, q, slot, t, list, index)) == RunPlain(Core(st), Fresh(q, slot, t), list, index)
    decreases |list|
  {
    if list != [] {
      BodyIsPlain(st, q, slot, t, list[0], index);
      var s := Body(st, q, slot, t, list[0], index);
      if !s.stop {
        CachedLoopIsPlain(s.state, q, slot, t, list[1..], index + 1);
      }
    }
  }

  // ----- The same loop without skipping -----

  function EagerBody(st: RouteState, eval: Evaluator, ms: MatchSet, index: nat): Step {
    var s := PlainEval(st, eval(ms.kind, index));
    if s.stop then s else FinalizeMatch(s.state, ms)
  }

  function RunEager(st: RouteState, eval: Evaluator, list: seq<MatchSet>, index: nat): Step
    decreases |list|
  {
    if list == [] then Step(st, false)
    else
      var s := EagerBody(st, eval, list[0], index);
      if s.stop then s else RunEager(s.state, eval, list[1..], index + 1)
  }

  predicate NoFault(eval: Evaluator, list: seq<MatchSet>, base: nat) {
    forall i :: 0 <= i < |list| ==> !eval(list[i].kind, base + i).Fault?
  }

  /** Skipping leaves `good` behind under a bad rule, and nowhere else. */
  predicate SameButGood(skipping: RouteState, eager: RouteState) {
    && skipping.(good := eager.good) == eager
    && (!skipping.bad ==> skipping == eager)
  }

  lemma SkipOne(st: RouteState, eager: RouteState, eval: Evaluator, ms: MatchSet, index: nat)
    requires SameButGood(st, eager) && !eval(ms.kind, index).Fault?
    ensures var a := PlainBody(st, eval, ms, index);
            var b := EagerBody(eager, eval, ms, index);
            a.stop == b.stop && SameButGood(a.state, b.state)
  {
  }

  lemma {:induction false} SkippingList(
    st: RouteState, eager: RouteState, eval: Evaluator, list: seq<MatchSet>, index: nat)
    requires SameButGood(st, eager) && NoFault(eval, list, index)
    ensures var a := RunPlain(st, eval, list, index);
            var b := RunEager(eager, eval, list, index);
            a.stop == b.stop && SameButGood(a.state, b.state)
    decreases |list|
  {
    if list != [] {
      assert !eval(list[0].kind, index + 0).Fault?;
      SkipOne(st, eager, eval, list[0], index);
      assert NoFault(eval, list[1..], index + 1) by {
        forall i | 0 <= i < |list[1..]| ensures !eval(list[1..][i].kind, index + 1 + i).Fault? {
          assert list[1..][i] == list[i + 1] && index + 1 + i == index + (i + 1);
        }
      }
      SkippingList(PlainBody(st, eval, list[0], index).state, EagerBody(eager, eval, list[0], index).state,
                   eval, list[1..], index + 1);
    }
  }

  /** `route()` returns what a loop returns that evaluates every entry and reads
      every domain bit afresh, for every array that evaluates without error. */
  lemma SkippingIsUnobservable(
    q: Query, slot: nat, meta: map<nat, nat>, routing: map<nat, MatchSet>, t: Tables, list: seq<MatchSet>)
    requires slot < EPOCH_SLOT_NUM && |list| <= MAX_MATCH_SET_LEN && SlotHolds(routing, slot, list)
    requires slot in meta && meta[slot] == |list| && NoFault(Fresh(q, slot, t), list, 0)
    ensures RouteValue(q, Some(slot), meta, routing, t) ==
            Conclude(RunEager(Initial(), Fresh(q, slot, t), list, 0).state, slot)
  {
    RunLoopIsRunList(Initial(), q, slot, t, routing, list, 0);
    assert list[0..] == list;
    CachedLoopIsPlain(Initial(), q, slot, t, list, 0);
    SkippingList(Core(Initial()), Initial(), Fresh(q, slot, t), list, 0);
  }
}
