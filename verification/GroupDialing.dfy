/** The group dialer: policy-ordered candidates, fallback on failure, and the dead windows
    of nodes and of the whole group. Times are in milliseconds; clock readings, dial
    outcomes and the shuffle are inputs. */
module GroupDialing {
  import opened MatchSets

  const NODE_DEAD_COOLDOWN: int := 60_000
  const GROUP_ALL_DEAD_COOLDOWN: int := 10_000
  const U64_MAX: int := 0xFFFF_FFFF_FFFF_FFFF

  type u64 = x: int | 0 <= x <= U64_MAX

  datatype Policy = Fixed | Random | Min | MinAvg10 | MinMovingAvg
  datatype Node = Node(alive: bool, deadUntil: Option<int>, latency: u64)

  /** What the world answers during one pass: the clock at the cooldown test, at each
      node's liveness test, at each failure and at the end, and each node's dial. */
  datatype World = World(
    cooldownAt: int, filterAt: nat -> int, outcome: nat -> Option<u64>, failAt: nat -> int, enterAt: int,
    shuffle: seq<nat> -> seq<nat>)

  // ----- Selection -----

  predicate IsAlive(node: Node, now: int) { node.alive || node.deadUntil.None? || now >= node.deadUntil.value }

  /** The nodes from `i` on that pass their liveness test, in selector order. */
  function AliveFrom(nodes: seq<Node>, clock: nat -> int, i: nat): seq<nat>
    requires i <= |nodes|
    decreases |nodes| - i
  {
    if i == |nodes| then []
    else (if IsAlive(nodes[i], clock(i)) then [i] else []) + AliveFrom(nodes, clock, i + 1)
  }

  function AllFrom(n: nat, i: nat): seq<nat>
    requires i <= n
    decreases n - i
  {
    if i == n then [] else [i] + AllFrom(n, i + 1)
  }

  function Pool(nodes: seq<Node>, clock: nat -> int): seq<nat> {
    var alive := AliveFrom(nodes, clock, 0);
    if alive == [] then AllFrom(|nodes|, 0) else alive
  }

  /** The sort key: an unknown latency comes last. */
  function Key(nodes: seq<Node>, n: nat): int {
    if n < |nodes| && nodes[n].latency != 0 then nodes[n].latency else U64_MAX
  }

  function Insert(nodes: seq<Node>, x: nat, sorted: seq<nat>): seq<nat> {
    if sorted == [] || Key(nodes, x) <= Key(nodes, sorted[0]) then [x] + sorted
    else [sorted[0]] + Insert(nodes, x, sorted[1..])
  }

  /** A stable sort by latency. */
  function Sort(nodes: seq<Node>, pool: seq<nat>): seq<nat> {
    if pool == [] then [] else Insert(nodes, pool[0], Sort(nodes, pool[1..]))
  }

  function Candidates(policy: Policy, nodes: seq<Node>, w: World): seq<nat> {
    var pool := Pool(nodes, w.filterAt);
    match policy
    case Fixed => pool
    case Random => w.shuffle(pool)
    case Min | MinAvg10 | MinMovingAvg => Sort(nodes, pool)
  }

  // ----- The candidates -----

  predicate Increasing(s: seq<nat>) { forall i, j :: 0 <= i < j < |s| ==> s[i] < s[j] }

  lemma {:induction false} AliveFromMembers(nodes: seq<Node>, clock: nat -> int, i: nat, n: nat)
    requires i <= |nodes|
    ensures n in AliveFrom(nodes, clock, i) <==> i <= n < |nodes| && IsAlive(nodes[n], clock(n))
    decreases |nodes| - i
  {
    if i < |nodes| {
      AliveFromMembers(nodes, clock, i + 1, n);
    }
  }

  lemma {:induction false} AliveFromIncreases(nodes: seq<Node>, clock: nat -> int, i: nat)
    requires i <= |nodes|
    ensures Increasing(AliveFrom(nodes, clock, i))
    decreases |nodes| - i
  {
    if i < |nodes| {
      var rest := AliveFrom(nodes, clock, i + 1);
      AliveFromIncreases(nodes, clock, i + 1);
      forall n: nat | n in rest
        ensures i < n
      {
        AliveFromMembers(nodes, clock, i + 1, n);
      }
      ConsIncreasing(i, rest);
      assert [] + rest == rest;
    }
  }

  lemma {:induction false} AllFromMeaning(n: nat, i: nat)
    requires i <= n
    ensures Increasing(AllFrom(n, i)) && forall k :: k in AllFrom(n, i) <==> i <= k < n
    decreases n - i
  {
    if i < n {
      AllFromMeaning(n, i + 1);
      ConsIncreasing(i, AllFrom(n, i + 1));
    }
  }

  lemma ConsIncreasing(x: nat, s: seq<nat>)
    requires Increasing(s) && forall n: nat :: n in s ==> x < n
    ensures Increasing([x] + s)
  {
    forall i | 0 <= i < |s|
      ensures x < s[i]
    {
      assert s[i] in s;
    }
  }

  /** The pool is the living nodes, or all nodes when none lives, in selector order. */
  lemma PoolMeaning(nodes: seq<Node>, clock: nat -> int)
    ensures Increasing(Pool(nodes, clock))
    ensures forall n: nat ::
              n in Pool(nodes, clock) <==>
              && n < |nodes|
              && (IsAlive(nodes[n], clock(n)) || forall m :: 0 <= m < |nodes| ==> !IsAlive(nodes[m], clock(m)))
  {
    var alive := AliveFrom(nodes, clock, 0);
    AliveFromIncreases(nodes, clock, 0);
    forall n: nat
      ensures n in alive <==> n < |nodes| && IsAlive(nodes[n], clock(n))
    {
      AliveFromMembers(nodes, clock, 0, n);
    }
    AllFromMeaning(|nodes|, 0);
    if alive == [] {
      forall m | 0 <= m < |nodes|
        ensures !IsAlive(nodes[m], clock(m))
      {
        assert m !in alive;
      }
    } else {
      assert alive[0] in alive;
    }
  }

  /** Lower latency first, ties in selector order. */
  predicate Before(nodes: seq<Node>, a: nat, b: nat) {
    Key(nodes, a) < Key(nodes, b) || (Key(nodes, a) == Key(nodes, b) && a < b)
  }

  predicate Ordered(nodes: seq<Node>, s: seq<nat>) { forall i, j :: 0 <= i < j < |s| ==> Before(nodes, s[i], s[j]) }

  lemma ConsOrdered(nodes: seq<Node>, x: nat, s: seq<nat>)
    requires Ordered(nodes, s) && forall n: nat :: n in s ==> Before(nodes, x, n)
    ensures Ordered(nodes, [x] + s)
  {
    var t := [x] + s;
    forall i, j | 0 <= i < j < |t|
      ensures Before(nodes, t[i], t[j])
    {
      assert t[j] == s[j - 1] && s[j - 1] in s;
      if i > 0 {
        assert t[i] == s[i - 1];
      }
    }
  }

  lemma {:induction false} InsertPermutes(nodes: seq<Node>, x: nat, s: seq<nat>)
    ensures multiset(Insert(nodes, x, s)) == multiset{x} + multiset(s)
  {
    if s != [] && Key(nodes, x) > Key(nodes, s[0]) {
      InsertPermutes(nodes, x, s[1..]);
      assert s == [s[0]] + s[1..];
    }
  }

  lemma InsertMembers(nodes: seq<Node>, x: nat, s: seq<nat>, n: nat)
    requires n in Insert(nodes, x, s)
    ensures n == x || n in s
  {
    InsertPermutes(nodes, x, s);
    assert n in multiset(Insert(nodes, x, s));
  }

  lemma {:induction false} InsertMeaning(nodes: seq<Node>, x: nat, s: seq<nat>)
    requires Ordered(nodes, s) && forall n: nat :: n in s ==> x < n
    ensures Ordered(nodes, Insert(nodes, x, s))
  {
    if s != [] && Key(nodes, x) > Key(nodes, s[0]) {
      var tail := s[1..];
      assert forall n: nat :: n in tail ==> n in s;
      InsertMeaning(nodes, x, tail);
      forall n: nat | n in Insert(nodes, x, tail)
        ensures Before(nodes, s[0], n)
      {
        InsertMembers(nodes, x, tail, n);
      }
      ConsOrdered(nodes, s[0], Insert(nodes, x, tail));
    } else {
      forall n: nat | n in s
        ensures Before(nodes, x, n)
      {
        assert n == s[0] || Before(nodes, s[0], n);
      }
      ConsOrdered(nodes, x, s);
    }
  }

  lemma {:induction false} SortMeaning(nodes: seq<Node>, pool: seq<nat>)
    requires Increasing(pool)
    ensures Ordered(nodes, Sort(nodes, pool)) && multiset(Sort(nodes, pool)) == multiset(pool)
  {
    if pool != [] {
      var rest := Sort(nodes, pool[1..]);
      SortMeaning(nodes, pool[1..]);
      forall n | n in rest
        ensures pool[0] < n
      {
        assert n in multiset(rest) && n in pool[1..];
      }
      InsertMeaning(nodes, pool[0], rest);
      InsertPermutes(nodes, pool[0], rest);
      assert pool == [pool[0]] + pool[1..];
    }
  }

  /** There is only one such order, so any stable sort by latency yields it. */
  lemma {:induction false} OrderIsUnique(nodes: seq<Node>, a: seq<nat>, b: seq<nat>)
    requires Ordered(nodes, a) && Ordered(nodes, b) && multiset(a) == multiset(b)
    ensures a == b
  {
    if a == [] {
      assert |multiset(b)| == 0;
    } else {
      assert |multiset(b)| > 0;
      HeadsEqual(nodes, a, b);
      assert a == [a[0]] + a[1..] && b == [b[0]] + b[1..];
      assert multiset(a[1..]) == multiset(a) - multiset{a[0]};
      assert multiset(b[1..]) == multiset(b) - multiset{b[0]};
      OrderIsUnique(nodes, a[1..], b[1..]);
    }
  }

  lemma HeadsEqual(nodes: seq<Node>, a: seq<nat>, b: seq<nat>)
    requires Ordered(nodes, a) && Ordered(nodes, b) && multiset(a) == multiset(b) && a != [] && b != []
    ensures a[0] == b[0]
  {
    assert a[0] in multiset(b) && b[0] in multiset(a);
    var i :| 0 <= i < |b| && b[i] == a[0];
    var j :| 0 <= j < |a| && a[j] == b[0];
    assert i > 0 ==> Before(nodes, b[0], a[0]);
    assert j > 0 ==> Before(nodes, a[0], b[0]);
  }

  ghost predicate Shuffles(w: World) { forall s: seq<nat> :: multiset(w.shuffle(s)) == multiset(s) }

  /** Under every policy the candidates are a permutation of the pool; under the fixed
      policy in selector order, under the latency policies by latency and then order. */
  lemma CandidatesMeaning(policy: Policy, nodes: seq<Node>, w: World)
    requires Shuffles(w)
    ensures var cands := Candidates(policy, nodes, w);
            && multiset(cands) == multiset(Pool(nodes, w.filterAt))
            && (policy.Fixed? ==> Increasing(cands))
            && (!policy.Fixed? && !policy.Random? ==> Ordered(nodes, cands))
  {
    PoolMeaning(nodes, w.filterAt);
    SortMeaning(nodes, Pool(nodes, w.filterAt));
  }

  /** The order in the nodes' own latencies: quicker nodes first, equally quick ones in
      selector order; a node of unknown latency, which is 0, never before one whose latency
      is known and not the largest number there is; and those in selector order. */
  predicate QuickestFirst(nodes: seq<Node>, a: nat, b: nat)
    requires a < |nodes| && b < |nodes|
  {
    var x, y := nodes[a].latency, nodes[b].latency;
    && (x != 0 && y != 0 ==> x <= y && (x == y ==> a < b))
    && (x == 0 ==> y == 0 || y == U64_MAX)
    && (x == 0 && y == 0 ==> a < b)
  }

  lemma CandidatesByLatency(policy: Policy, nodes: seq<Node>, w: World, i: nat, j: nat)
    requires Shuffles(w) && !policy.Fixed? && !policy.Random? && i < j < |Candidates(policy, nodes, w)|
    ensures var cands := Candidates(policy, nodes, w);
            cands[i] < |nodes| && cands[j] < |nodes| && QuickestFirst(nodes, cands[i], cands[j])
  {
    var cands := Candidates(policy, nodes, w);
    CandidatesInRange(policy, nodes, w);
    CandidatesMeaning(policy, nodes, w);
    assert Before(nodes, cands[i], cands[j]);
  }

  /** A node that answered sorts before every node of unknown latency exactly when its
      dial took at least a millisecond: a faster one is recorded as unknown. */
  lemma KnownBeatsUnknownIff(nodes: seq<Node>, fast: nat, latency: u64, unknown: nat)
    requires fast < |nodes| && unknown < |nodes| && nodes[unknown].latency == 0 && unknown < fast && latency < U64_MAX
    ensures Before(nodes[fast := Node(true, None, latency)], fast, unknown) <==> latency >= 1
  {
  }

  // ----- One pass -----

  datatype Pass = Pass(nodes: seq<Node>, dialled: seq<nat>, winner: Option<nat>)

  function Dead(node: Node, at: int): Node { node.(alive := false, deadUntil := Some(at + NODE_DEAD_COOLDOWN)) }

  function Walk(nodes: seq<Node>, cands: seq<nat>, w: World): Pass
    decreases |cands|
  {
    if cands == [] || cands[0] >= |nodes| then Pass(nodes, [], None)
    else
      var c := cands[0];
      if w.outcome(c).Some? then Pass(nodes[c := Node(true, None, w.outcome(c).value)], [c], Some(c))
      else
        var rest := Walk(nodes[c := Dead(nodes[c], w.failAt(c))], cands[1..], w);
        rest.(dialled := [c] + rest.dialled)
  }

  predicate Distinct(s: seq<nat>, bound: nat) {
    (forall i :: 0 <= i < |s| ==> s[i] < bound) && forall i, j :: 0 <= i < j < |s| ==> s[i] != s[j]
  }

  /** What a pass does to one node. */
  function Touched(node: Node, dialled: bool, outcome: Option<u64>, failAt: int): Node {
    if !dialled then node
    else if outcome.Some? then Node(true, None, outcome.value)
    else Dead(node, failAt)
  }

  /** Up to and including the first candidate that answers, or all of them. */
  predicate DialsUpToAnswer(p: Pass, cands: seq<nat>, w: World) {
    && |p.dialled| <= |cands| && p.dialled == cands[..|p.dialled|]
    && (if p.winner.None?
        then p.dialled == cands && forall i :: 0 <= i < |cands| ==> w.outcome(cands[i]).None?
        else |p.dialled| > 0 && p.winner == Some(cands[|p.dialled| - 1]) && w.outcome(p.winner.value).Some?
             && forall i :: 0 <= i < |p.dialled| - 1 ==> w.outcome(cands[i]).None?)
  }

  lemma FailedFirst(p: Pass, c: nat, tail: seq<nat>, w: World)
    requires DialsUpToAnswer(p, tail, w) && w.outcome(c).None?
    ensures DialsUpToAnswer(p.(dialled := [c] + p.dialled), [c] + tail, w)
  {
    var cands := [c] + tail;
    assert [c] + p.dialled == cands[..1 + |p.dialled|];
    assert forall i :: 0 < i < |cands| ==> cands[i] == tail[i - 1];
  }

  /** Which candidates a pass dials. */
  lemma {:induction false} WalkDials(nodes: seq<Node>, cands: seq<nat>, w: World)
    requires Distinct(cands, |nodes|)
    ensures DialsUpToAnswer(Walk(nodes, cands, w), cands, w)
    decreases |cands|
  {
    if cands != [] && w.outcome(cands[0]).None? {
      var c, tail := cands[0], cands[1..];
      var marked := nodes[c := Dead(nodes[c], w.failAt(c))];
      assert Distinct(tail, |marked|) && cands == [c] + tail;
      WalkDials(marked, tail, w);
      FailedFirst(Walk(marked, tail, w), c, tail, w);
    }
  }

  /** What a pass does to the nodes: exactly the dialled ones that failed are marked dead,
      the one that answered is alive with its latency, the others are as they were. */
  lemma {:induction false} WalkMarks(nodes: seq<Node>, cands: seq<nat>, w: World)
    requires Distinct(cands, |nodes|)
    ensures var p := Walk(nodes, cands, w);
            && |p.nodes| == |nodes|
            && forall n: nat :: n < |nodes| ==>
               p.nodes[n] == Touched(nodes[n], n in p.dialled, w.outcome(n), w.failAt(n))
    decreases |cands|
  {
    if cands != [] && w.outcome(cands[0]).None? {
      var c, tail := cands[0], cands[1..];
      var marked := nodes[c := Dead(nodes[c], w.failAt(c))];
      assert Distinct(tail, |marked|);
      WalkMarks(marked, tail, w);
      WalkDials(marked, tail, w);
      var rest := Walk(marked, tail, w);
      assert c !in tail && c !in rest.dialled;
      assert Walk(nodes, cands, w) == Pass(rest.nodes, [c] + rest.dialled, rest.winner);
      forall n: nat | n < |nodes|
        ensures rest.nodes[n] == Touched(nodes[n], n in [c] + rest.dialled, w.outcome(n), w.failAt(n))
      {
        assert n != c ==> marked[n] == nodes[n];
      }
    }
  }

  /** The group: what `try_dial` and `try_udp_dial` do to it, which differ only in the
      kind of connection. */
  datatype Group = Group(nodes: seq<Node>, allDeadUntil: Option<int>)

  predicate InCooldown(s: Group, now: int) { s.allDeadUntil.Some? && now < s.allDeadUntil.value }

  datatype Outcome = Outcome(group: Group, dialled: seq<nat>, winner: Option<nat>, fastFailed: bool)

  function Step(policy: Policy, s: Group, w: World): Outcome {
    if InCooldown(s, w.cooldownAt) then Outcome(s, [], None, true)
    else
      var p := Walk(s.nodes, Candidates(policy, s.nodes, w), w);
      var until := if p.winner.Some? then None else Some(w.enterAt + GROUP_ALL_DEAD_COOLDOWN);
      Outcome(Group(p.nodes, until), p.dialled, p.winner, false)
  }

  class GroupDialer {
    const policy: Policy
    var nodes: seq<Node>
    var allDeadUntil: Option<int>

    constructor (policy: Policy, count: nat)
      ensures this.policy == policy && allDeadUntil == None
      ensures nodes == seq(count, _ => Node(true, None, 0))
    {
      this.policy := policy;
      nodes := seq(count, _ => Node(true, None, 0));
      allDeadUntil := None;
    }

    ghost function Value(): Group
      reads this
    {
      Group(nodes, allDeadUntil)
    }

    /** The living nodes, collected by a scan; all nodes if none lives. */
    method CollectPool(w: World) returns (pool: seq<nat>)
      ensures pool == Pool(nodes, w.filterAt)
    {
      pool := [];
      var i := 0;
      while i < |nodes|
        invariant i <= |nodes| && AliveFrom(nodes, w.filterAt, 0) == pool + AliveFrom(nodes, w.filterAt, i)
      {
        ghost var rest := AliveFrom(nodes, w.filterAt, i + 1);
        assert pool + ([i] + rest) == (pool + [i]) + rest && [] + rest == rest;
        if IsAlive(nodes[i], w.filterAt(i)) {
          pool := pool + [i];
        }
        i := i + 1;
      }
      assert pool + [] == pool;
      if pool == [] {
        pool := AllFrom(|nodes|, 0);
      }
    }

    method OrderedCandidates(w: World) returns (cands: seq<nat>)
      ensures cands == Candidates(policy, nodes, w)
    {
      cands := CollectPool(w);
      match policy
      case Fixed =>
      case Random => cands := w.shuffle(cands);
      case Min | MinAvg10 | MinMovingAvg => cands := Sort(nodes, cands);
    }

    method MarkAlive(n: nat, latency: u64)
      requires n < |nodes|
      modifies `nodes
      ensures nodes == old(nodes)[n := Node(true, None, latency)]
    {
      nodes := nodes[n := Node(true, None, latency)];
    }

    method MarkDead(n: nat, now: int)
      requires n < |nodes|
      modifies `nodes
      ensures nodes == old(nodes)[n := Dead(old(nodes)[n], now)]
    {
      nodes := nodes[n := nodes[n].(alive := false, deadUntil := Some(now + NODE_DEAD_COOLDOWN))];
    }

    /** Dials the candidates in turn until one answers. */
    method DialInTurn(cands: seq<nat>, w: World) returns (winner: Option<nat>, dialled: seq<nat>)
      requires forall i :: 0 <= i < |cands| ==> cands[i] < |nodes|
      modifies this
      ensures Pass(nodes, dialled, winner) == Walk(old(nodes), cands, w)
      ensures allDeadUntil == if winner.Some? then None else old(allDeadUntil)
    {
      dialled, winner := [], None;
      ghost var all := Walk(nodes, cands, w);
      var i := 0;
      while i < |cands|
        invariant i <= |cands| && |nodes| == |old(nodes)| && allDeadUntil == old(allDeadUntil)
        invariant all == Joined(dialled, Walk(nodes, cands[i..], w))
      {
        var c := cands[i];
        WalkStep(nodes, cands, i, w, dialled);
        dialled := dialled + [c];
        var answer := w.outcome(c);
        if answer.Some? {
          MarkAlive(c, answer.value);
          allDeadUntil := None;
          winner := Some(c);
          return;
        }
        MarkDead(c, w.failAt(c));
        i := i + 1;
      }
      assert cands[i..] == [] && dialled + [] == dialled;
    }

    method TryDial(w: World) returns (winner: Option<nat>, dialled: seq<nat>, fastFailed: bool)
      requires Shuffles(w)
      modifies this
      ensures Outcome(Value(), dialled, winner, fastFailed) == Step(policy, old(Value()), w)
    {
      if allDeadUntil.Some? && w.cooldownAt < allDeadUntil.value {
        return None, [], true;
      }
      var cands := OrderedCandidates(w);
      CandidatesInRange(policy, nodes, w);
      winner, dialled := DialInTurn(cands, w);
      if winner.None? {
        allDeadUntil := Some(w.enterAt + GROUP_ALL_DEAD_COOLDOWN);
      }
      fastFailed := false;
    }
  }

  function Joined(dialled: seq<nat>, rest: Pass): Pass { rest.(dialled := dialled + rest.dialled) }

  lemma WalkStep(nodes: seq<Node>, cands: seq<nat>, i: nat, w: World, dialled: seq<nat>)
    requires i < |cands| && cands[i] < |nodes|
    ensures var c := cands[i];
            Joined(dialled, Walk(nodes, cands[i..], w)) ==
            if w.outcome(c).Some? then Pass(nodes[c := Node(true, None, w.outcome(c).value)], dialled + [c], Some(c))
            else Joined(dialled + [c], Walk(nodes[c := Dead(nodes[c], w.failAt(c))], cands[i + 1..], w))
  {
    var c := cands[i];
    var rest := Walk(nodes[c := Dead(nodes[c], w.failAt(c))], cands[i + 1..], w);
    assert cands[i..][0] == c && cands[i..][1..] == cands[i + 1..];
    assert dialled + ([c] + rest.dialled) == (dialled + [c]) + rest.dialled;
  }

  lemma CandidatesInRange(policy: Policy, nodes: seq<Node>, w: World)
    requires Shuffles(w)
    ensures Distinct(Candidates(policy, nodes, w), |nodes|)
  {
    var pool, cands := Pool(nodes, w.filterAt), Candidates(policy, nodes, w);
    PoolMeaning(nodes, w.filterAt);
    CandidatesMeaning(policy, nodes, w);
    SamePermutation(pool, cands);
    forall i | 0 <= i < |cands|
      ensures cands[i] < |nodes|
    {
      assert cands[i] in multiset(pool) && cands[i] in pool;
    }
  }

  /** A permutation of an increasing sequence has no duplicates. */
  lemma SamePermutation(pool: seq<nat>, cands: seq<nat>)
    requires Increasing(pool) && multiset(cands) == multiset(pool)
    ensures forall i, j :: 0 <= i < j < |cands| ==> cands[i] != cands[j]
  {
    forall i, j | 0 <= i < j < |cands|
      ensures cands[i] != cands[j]
    {
      if cands[i] == cands[j] {
        CountedTwice(cands, i, j);
        OnceEach(pool, cands[i]);
      }
    }
  }

  lemma CountedTwice(s: seq<nat>, i: nat, j: nat)
    requires i < j < |s| && s[i] == s[j]
    ensures multiset(s)[s[i]] >= 2
  {
    assert s == s[..i] + [s[i]] + s[i + 1..j] + [s[j]] + s[j + 1..];
  }

  lemma {:induction false} OnceEach(pool: seq<nat>, x: nat)
    requires Increasing(pool)
    ensures multiset(pool)[x] <= 1
  {
    if pool != [] {
      OnceEach(pool[1..], x);
      assert pool == [pool[0]] + pool[1..];
      if pool[0] == x {
        assert x !in pool[1..];
      }
    }
  }
}
