/** What holds of a group over every sequence of dials. */
module GroupRuns {
  import opened MatchSets
  import opened GroupDialing

  function Initial(count: nat): Group { Group(seq(count, _ => Node(true, None, 0)), None) }

  ghost predicate AllShuffle(worlds: seq<World>) { forall i :: 0 <= i < |worlds| ==> Shuffles(worlds[i]) }

  /** A way of dialling: what one dial does to the group. */
  type Dialling = (Group, World) -> Outcome

  function Steps(policy: Policy): Dialling { (g, w) => Step(policy, g, w) }

  /** The group after a sequence of dials. */
  function Run(step: Dialling, count: nat, worlds: seq<World>): Group {
    if |worlds| == 0 then Initial(count)
    else step(Run(step, count, worlds[..|worlds| - 1]), worlds[|worlds| - 1]).group
  }

  function OutcomeOf(step: Dialling, count: nat, worlds: seq<World>, i: nat): Outcome
    requires i < |worlds|
  {
    step(Run(step, count, worlds[..i]), worlds[i])
  }

  /** What the last dial of a node showed. */
  datatype Mark = Never | Failed(at: int) | Answered(latency: u64)

  function LastMark(step: Dialling, count: nat, worlds: seq<World>, n: nat): Mark {
    if |worlds| == 0 then Never
    else
      var last := worlds[|worlds| - 1];
      if n !in OutcomeOf(step, count, worlds, |worlds| - 1).dialled
      then LastMark(step, count, worlds[..|worlds| - 1], n)
      else if last.outcome(n).Some? then Answered(last.outcome(n).value)
      else Failed(last.failAt(n))
  }

  /** Within the 60 seconds after a failure, with no dial since. */
  predicate InDeadWindow(mark: Mark, now: int) { mark.Failed? && now < mark.at + NODE_DEAD_COOLDOWN }

  predicate Shows(node: Node, mark: Mark) {
    match mark
    case Never => node == Node(true, None, 0)
    case Answered(latency) => node == Node(true, None, latency)
    case Failed(at) => !node.alive && node.deadUntil == Some(at + NODE_DEAD_COOLDOWN)
  }

  /** A dial touches exactly the dialled nodes; a refused one changes nothing, another
      one sets or clears the group's cooldown. */
  predicate Marks(g: Group, w: World, o: Outcome) {
    && |o.group.nodes| == |g.nodes|
    && (forall n: nat :: n < |g.nodes| ==>
          o.group.nodes[n] == Touched(g.nodes[n], n in o.dialled, w.outcome(n), w.failAt(n)))
  }

  predicate Cools(g: Group, w: World, o: Outcome) {
    o.group.allDeadUntil ==
    if o.fastFailed then g.allDeadUntil
    else if o.winner.Some? then None
    else Some(w.enterAt + GROUP_ALL_DEAD_COOLDOWN)
  }

  ghost predicate MarksNodes(step: Dialling) { forall g, w :: Shuffles(w) ==> Marks(g, w, step(g, w)) }

  ghost predicate KeepsCooldown(step: Dialling) { forall g, w :: Cools(g, w, step(g, w)) }

  lemma StepsDial(policy: Policy)
    ensures MarksNodes(Steps(policy)) && KeepsCooldown(Steps(policy))
  {
    forall g, w
      ensures Cools(g, w, Steps(policy)(g, w)) && (Shuffles(w) ==> Marks(g, w, Steps(policy)(g, w)))
    {
      if Shuffles(w) && !InCooldown(g, w.cooldownAt) {
        CandidatesInRange(policy, g.nodes, w);
        WalkMarks(g.nodes, Candidates(policy, g.nodes, w), w);
      }
    }
  }

  /** A node's state is what its last dial showed. */
  lemma {:induction false} NodeShowsLastMark(step: Dialling, count: nat, worlds: seq<World>, n: nat)
    requires MarksNodes(step) && AllShuffle(worlds) && n < count
    ensures |Run(step, count, worlds).nodes| == count
    ensures Shows(Run(step, count, worlds).nodes[n], LastMark(step, count, worlds, n))
  {
    if |worlds| > 0 {
      var prefix, last := worlds[..|worlds| - 1], worlds[|worlds| - 1];
      NodeShowsLastMark(step, count, prefix, n);
      assert Marks(Run(step, count, prefix), last, step(Run(step, count, prefix), last));
    }
  }

  /** How long the node took when it last answered; 0 if it never did. */
  function LastLatency(step: Dialling, count: nat, worlds: seq<World>, n: nat): u64 {
    if |worlds| == 0 then 0
    else
      var last := worlds[|worlds| - 1];
      if n in OutcomeOf(step, count, worlds, |worlds| - 1).dialled && last.outcome(n).Some? then last.outcome(n).value
      else LastLatency(step, count, worlds[..|worlds| - 1], n)
  }

  /** A node's latency is that of its last answer, whatever failed since. */
  lemma {:induction false} LatencyIsLastAnswer(step: Dialling, count: nat, worlds: seq<World>, n: nat)
    requires MarksNodes(step) && AllShuffle(worlds) && n < count
    ensures |Run(step, count, worlds).nodes| == count
    ensures Run(step, count, worlds).nodes[n].latency == LastLatency(step, count, worlds, n)
  {
    if |worlds| > 0 {
      var prefix, last := worlds[..|worlds| - 1], worlds[|worlds| - 1];
      LatencyIsLastAnswer(step, count, prefix, n);
      assert Marks(Run(step, count, prefix), last, step(Run(step, count, prefix), last));
    }
  }

  /** The node that a dial tries first. */
  predicate DialsFirst(policy: Policy, count: nat, worlds: seq<World>, w: World, first: nat) {
    var o := Step(policy, Run(Steps(policy), count, worlds), w);
    o.dialled != [] && o.dialled[0] == first
  }

  /** Over every run, under the latency policies: the node dialled first took no longer, when
      it last answered, than any other candidate whose latency is known; and if the first has
      never answered in a millisecond or more, no candidate has, unless it took the largest
      number of milliseconds there is. */
  lemma FirstDialIsQuickest(
    policy: Policy, count: nat, worlds: seq<World>, w: World, first: nat, n: nat)
    requires AllShuffle(worlds) && Shuffles(w) && !policy.Fixed? && !policy.Random? && n < count
    requires DialsFirst(policy, count, worlds, w, first)
    requires n in Candidates(policy, Run(Steps(policy), count, worlds).nodes, w)
    ensures first < count
    ensures var x, y := LastLatency(Steps(policy), count, worlds, first), LastLatency(Steps(policy), count, worlds, n);
            && (x != 0 && y != 0 ==> x <= y) && (x == 0 ==> y == 0 || y == U64_MAX)
            && (x == y && n != first ==> first < n)
  {
    var g := Run(Steps(policy), count, worlds);
    var cands := Candidates(policy, g.nodes, w);
    StepsDial(policy);
    LatencyIsLastAnswer(Steps(policy), count, worlds, n);
    CandidatesInRange(policy, g.nodes, w);
    WalkDials(g.nodes, cands, w);
    assert first == cands[0];
    LatencyIsLastAnswer(Steps(policy), count, worlds, first);
    var j :| 0 <= j < |cands| && cands[j] == n;
    if j > 0 { CandidatesByLatency(policy, g.nodes, w, 0, j); }
  }

  /** After every run the candidates are exactly the nodes outside their dead window, or
      all nodes when every one is inside. */
  lemma CandidatesAvoidDeadWindows(policy: Policy, count: nat, worlds: seq<World>, w: World, n: nat)
    requires AllShuffle(worlds) && Shuffles(w) && n < count
    ensures n in Candidates(policy, Run(Steps(policy), count, worlds).nodes, w) <==>
            !InDeadWindow(LastMark(Steps(policy), count, worlds, n), w.filterAt(n))
            || forall m: nat :: m < count ==> InDeadWindow(LastMark(Steps(policy), count, worlds, m), w.filterAt(m))
  {
    StepsDial(policy);
    var nodes := Run(Steps(policy), count, worlds).nodes;
    forall m: nat | m < count
      ensures |nodes| == count
      ensures IsAlive(nodes[m], w.filterAt(m)) ==
              !InDeadWindow(LastMark(Steps(policy), count, worlds, m), w.filterAt(m))
    {
      NodeShowsLastMark(Steps(policy), count, worlds, m);
    }
    NodeShowsLastMark(Steps(policy), count, worlds, n);
    PoolMeaning(nodes, w.filterAt);
    CandidatesMeaning(policy, nodes, w);
    var pool, cands := Pool(nodes, w.filterAt), Candidates(policy, nodes, w);
    assert n in cands <==> n in multiset(cands);
    assert n in pool <==> n in multiset(pool);
  }

  /** No node is dialled inside its dead window unless every node was inside its own. */
  lemma NoDialInDeadWindow(policy: Policy, count: nat, worlds: seq<World>, w: World, n: nat)
    requires AllShuffle(worlds) && Shuffles(w) && n < count
    requires n in Step(policy, Run(Steps(policy), count, worlds), w).dialled
    requires InDeadWindow(LastMark(Steps(policy), count, worlds, n), w.filterAt(n))
    ensures forall m: nat :: m < count ==> InDeadWindow(LastMark(Steps(policy), count, worlds, m), w.filterAt(m))
  {
    var g := Run(Steps(policy), count, worlds);
    var cands := Candidates(policy, g.nodes, w);
    CandidatesInRange(policy, g.nodes, w);
    WalkDials(g.nodes, cands, w);
    CandidatesAvoidDeadWindows(policy, count, worlds, w, n);
  }

  /** The last dial that was not refused by the group's cooldown. */
  function LastPass(step: Dialling, count: nat, worlds: seq<World>): (at: Option<nat>)
    ensures at.Some? ==> at.value < |worlds|
  {
    if |worlds| == 0 then None
    else if !OutcomeOf(step, count, worlds, |worlds| - 1).fastFailed then Some(|worlds| - 1)
    else LastPass(step, count, worlds[..|worlds| - 1])
  }

  lemma {:induction false} CooldownShowsLastPass(step: Dialling, count: nat, worlds: seq<World>)
    requires KeepsCooldown(step)
    ensures var at := LastPass(step, count, worlds);
            Run(step, count, worlds).allDeadUntil ==
            if at.None? || OutcomeOf(step, count, worlds, at.value).winner.Some? then None
            else Some(worlds[at.value].enterAt + GROUP_ALL_DEAD_COOLDOWN)
  {
    if |worlds| > 0 {
      var prefix, last := worlds[..|worlds| - 1], worlds[|worlds| - 1];
      assert Cools(Run(step, count, prefix), last, step(Run(step, count, prefix), last));
      CooldownShowsLastPass(step, count, prefix);
      var at := LastPass(step, count, prefix);
      if at.Some? {
        assert prefix[..at.value] == worlds[..at.value];
      }
    }
  }

  /** A dial fails fast, dialling nothing and changing nothing, exactly when the last pass
      failed on every candidate less than 10 seconds before. */
  lemma FastFailIff(policy: Policy, count: nat, worlds: seq<World>, w: World)
    requires Shuffles(w)
    ensures var o := Step(policy, Run(Steps(policy), count, worlds), w);
            var at := LastPass(Steps(policy), count, worlds);
            && (o.fastFailed <==>
                  at.Some? && OutcomeOf(Steps(policy), count, worlds, at.value).winner.None?
                  && w.cooldownAt < worlds[at.value].enterAt + GROUP_ALL_DEAD_COOLDOWN)
            && (o.fastFailed ==> o.dialled == [] && o.winner.None? && o.group == Run(Steps(policy), count, worlds))
  {
    StepsDial(policy);
    CooldownShowsLastPass(Steps(policy), count, worlds);
  }

  /** Every other dial succeeds with the first candidate that answers, or has tried them all. */
  lemma PassUsesFirstAnswer(policy: Policy, count: nat, worlds: seq<World>, w: World)
    requires AllShuffle(worlds) && Shuffles(w) && !Step(policy, Run(Steps(policy), count, worlds), w).fastFailed
    ensures var o := Step(policy, Run(Steps(policy), count, worlds), w);
            var cands := Candidates(policy, Run(Steps(policy), count, worlds).nodes, w);
            && o.dialled <= cands && (count > 0 ==> o.dialled != [])
            && (o.winner.None? <==> forall i :: 0 <= i < |cands| ==> w.outcome(cands[i]).None?)
            && (o.winner.Some? ==> o.dialled != [] && o.winner.value == o.dialled[|o.dialled| - 1])
            && (o.winner.Some? ==>
                  forall i :: 0 <= i < |o.dialled| ==> (w.outcome(o.dialled[i]).None? <==> i < |o.dialled| - 1))
  {
    var g := Run(Steps(policy), count, worlds);
    var cands := Candidates(policy, g.nodes, w);
    CandidatesInRange(policy, g.nodes, w);
    WalkDials(g.nodes, cands, w);
    if count > 0 {
      StepsDial(policy);
      NodeShowsLastMark(Steps(policy), count, worlds, 0);
      SomeCandidate(policy, g.nodes, w);
    }
  }

  lemma SomeCandidate(policy: Policy, nodes: seq<Node>, w: World)
    requires Shuffles(w) && |nodes| > 0
    ensures Candidates(policy, nodes, w) != []
  {
    var pool := Pool(nodes, w.filterAt);
    PoolMeaning(nodes, w.filterAt);
    CandidatesMeaning(policy, nodes, w);
    PoolNotEmpty(nodes, w.filterAt);
    assert |multiset(pool)| > 0;
  }

  lemma PoolNotEmpty(nodes: seq<Node>, clock: nat -> int)
    requires |nodes| > 0
    ensures Pool(nodes, clock) != []
  {
    assert AllFrom(|nodes|, 0) != [];
  }
}
