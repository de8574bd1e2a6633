/** The userspace half of the routing epoch double buffer: every map write of a
    reload as a value, the program of writes that a reload performs, and the
    control plane that performs it. */
module EpochReload {
  import opened MatchSets
  import opened RouteEngine
  import opened RouteSkipping

  /** The eBPF maps that `route()` reads. */
  datatype Maps = Maps(
    active: nat, meta: map<nat, nat>, routing: map<nat, MatchSet>,
    lpm: map<nat, Trie>, domain: map<DomainKey, Bitmap>)

  datatype Write =
    | SetRouting(slot: nat, index: nat, ms: MatchSet)
    | SetMeta(slot: nat, len: nat)
    | SetTrie(slot: nat, index: nat, trie: Trie)
    | DropDomain(key: DomainKey)
    | SetActive(slot: nat)

  function Apply(m: Maps, w: Write): Maps {
    match w
    case SetRouting(slot, index, ms) => m.(routing := m.routing[Key(slot, index) := ms])
    case SetMeta(slot, len) => m.(meta := m.meta[slot := len])
    case SetTrie(slot, index, trie) => m.(lpm := m.lpm[Key(slot, index) := trie])
    case DropDomain(key) => m.(domain := m.domain - {key})
    case SetActive(slot) => m.(active := slot)
  }

  function ApplyAll(m: Maps, ws: seq<Write>): Maps
    decreases |ws|
  {
    if ws == [] then m else ApplyAll(Apply(m, ws[0]), ws[1..])
  }

  lemma {:induction false} ApplyAppend(m: Maps, a: seq<Write>, b: seq<Write>)
    ensures ApplyAll(m, a + b) == ApplyAll(ApplyAll(m, a), b)
    decreases |a|
  {
    if a == [] {
      assert a + b == b;
    } else {
      assert (a + b)[1..] == a[1..] + b;
      ApplyAppend(Apply(m, a[0]), a[1..], b);
    }
  }

  lemma ApplyLast(m: Maps, ws: seq<Write>, w: Write)
    ensures ApplyAll(m, ws + [w]) == Apply(ApplyAll(m, ws), w)
  {
    ApplyAppend(m, ws, [w]);
    assert ApplyAll(ApplyAll(m, ws), [w]) == ApplyAll(Apply(ApplyAll(m, ws), w), [w][1..]);
  }

  // ----- Rule sets -----

  datatype RuleSet = RuleSet(matchSets: seq<MatchSet>, tries: seq<Trie>)

  function TrieOf(kind: MatchKind): Option<nat> {
    match kind
    case IpSet(trie) => Some(trie)
    case SourceIpSet(trie) => Some(trie)
    case Mac(trie) => Some(trie)
    case _ => None
  }

  /** A compiled rule set: at least one match set, at most a slot of them, and
      every trie that a match set refers to has a CIDR. */
  predicate Compiled(rs: RuleSet) {
    && 0 < |rs.matchSets| <= MAX_MATCH_SET_LEN && |rs.tries| <= MAX_MATCH_SET_LEN
    && forall i :: 0 <= i < |rs.matchSets| ==>
         var trie := TrieOf(rs.matchSets[i].kind);
         trie.Some? ==> trie.value < |rs.tries| && rs.tries[trie.value] != {}
  }

  /** Slot `slot` of the maps is a complete copy of `rs`. */
  predicate Holds(m: Maps, slot: nat, rs: RuleSet) {
    && slot in m.meta && m.meta[slot] == |rs.matchSets|
    && SlotHolds(m.routing, slot, rs.matchSets)
    && HoldsTries(m, slot, rs.tries, |rs.tries|)
  }

  predicate HoldsTries(m: Maps, slot: nat, tries: seq<Trie>, n: nat)
    requires n <= |tries|
  {
    forall i :: 0 <= i < n && tries[i] != {} ==>
      Key(slot, i) in m.lpm && m.lpm[Key(slot, i)] == tries[i]
  }

  // ----- The program of a reload -----

  /** The whole range of a slot: the match sets, then zeroed entries. */
  function Padded(matchSets: seq<MatchSet>, i: nat): MatchSet {
    if i < |matchSets| then matchSets[i] else ZERO_MATCH_SET
  }

  /** The first `n` routing writes of a slot, in index order. */
  function RoutingWrites(matchSets: seq<MatchSet>, slot: nat, n: nat): seq<Write> {
    if n == 0 then []
    else RoutingWrites(matchSets, slot, n - 1) + [SetRouting(slot, n - 1, Padded(matchSets, n - 1))]
  }

  /** Tries are created only for indices that have a CIDR. */
  function TrieWrites(tries: seq<Trie>, slot: nat, n: nat): seq<Write>
    requires n <= |tries|
  {
    if n == 0 then []
    else if tries[n - 1] == {} then TrieWrites(tries, slot, n - 1)
    else TrieWrites(tries, slot, n - 1) + [SetTrie(slot, n - 1, tries[n - 1])]
  }

  function DomainDrops(keys: seq<DomainKey>): seq<Write> {
    if keys == [] then [] else [DropDomain(keys[0])] + DomainDrops(keys[1..])
  }

  /** `write_routing_rules` succeeding; `batched` writes of a rejected batch come first. */
  function RulesProgram(matchSets: seq<MatchSet>, slot: nat, batched: nat): seq<Write> {
    RoutingWrites(matchSets, slot, batched) + RoutingWrites(matchSets, slot, MAX_MATCH_SET_LEN)
    + [SetMeta(slot, |matchSets|)]
  }

  /** An empty rule list is not written at all. */
  function RulesPart(matchSets: seq<MatchSet>, slot: nat, batched: nat): seq<Write> {
    if matchSets == [] then [] else RulesProgram(matchSets, slot, batched)
  }

  /** Everything a reload writes before it switches the active slot. */
  function FillProgram(rs: RuleSet, slot: nat, batched: nat, target: seq<DomainKey>): seq<Write> {
    DomainDrops(target) + RulesPart(rs.matchSets, slot, batched) + TrieWrites(rs.tries, slot, |rs.tries|)
  }

  /** Everything a reload writes when `write_routing_rules` fails. */
  function FailProgram(rs: RuleSet, slot: nat, batched: nat, written: nat, target: seq<DomainKey>): seq<Write> {
    DomainDrops(target) + RoutingWrites(rs.matchSets, slot, batched) + RoutingWrites(rs.matchSets, slot, written)
  }

  // ----- What the program touches -----

  /** The write stays inside the index range of `slot` and does not switch slots. */
  predicate Within(w: Write, slot: nat) {
    match w
    case SetRouting(s, index, _) => s == slot && index < MAX_MATCH_SET_LEN
    case SetMeta(s, _) => s == slot
    case SetTrie(s, index, _) => s == slot && index < MAX_MATCH_SET_LEN
    case DropDomain(key) => key.slot == slot
    case SetActive(_) => false
  }

  predicate AllWithin(ws: seq<Write>, slot: nat) { forall w :: w in ws ==> Within(w, slot) }

  predicate KeysOf(keys: seq<DomainKey>, slot: nat) { forall k :: k in keys ==> k.slot == slot }

  lemma {:induction false} RoutingWritesWithin(matchSets: seq<MatchSet>, slot: nat, n: nat)
    requires n <= MAX_MATCH_SET_LEN
    ensures AllWithin(RoutingWrites(matchSets, slot, n), slot)
  {
    if n > 0 { RoutingWritesWithin(matchSets, slot, n - 1); }
  }

  lemma {:induction false} TrieWritesWithin(tries: seq<Trie>, slot: nat, n: nat)
    requires n <= |tries| <= MAX_MATCH_SET_LEN
    ensures AllWithin(TrieWrites(tries, slot, n), slot)
  {
    if n > 0 { TrieWritesWithin(tries, slot, n - 1); }
  }

  lemma {:induction false} DomainDropsWithin(keys: seq<DomainKey>, slot: nat)
    requires KeysOf(keys, slot)
    ensures AllWithin(DomainDrops(keys), slot)
    decreases |keys|
  {
    if keys != [] { DomainDropsWithin(keys[1..], slot); }
  }

  /** A reload, successful or not, writes only the range of its target slot until it
      switches. */
  lemma ReloadWritesOnlyItsSlot(rs: RuleSet, slot: nat, batched: nat, written: nat, target: seq<DomainKey>)
    requires |rs.tries| <= MAX_MATCH_SET_LEN && batched <= MAX_MATCH_SET_LEN && written <= MAX_MATCH_SET_LEN
    requires KeysOf(target, slot)
    ensures AllWithin(FillProgram(rs, slot, batched, target), slot)
    ensures AllWithin(FailProgram(rs, slot, batched, written, target), slot)
  {
    DomainDropsWithin(target, slot);
    RoutingWritesWithin(rs.matchSets, slot, batched);
    RoutingWritesWithin(rs.matchSets, slot, written);
    RoutingWritesWithin(rs.matchSets, slot, MAX_MATCH_SET_LEN);
    TrieWritesWithin(rs.tries, slot, |rs.tries|);
  }

  // ----- What the program achieves -----

  predicate HoldsRange(m: Maps, slot: nat, matchSets: seq<MatchSet>, n: nat) {
    forall i :: 0 <= i < n ==>
      Key(slot, i) in m.routing && m.routing[Key(slot, i)] == Padded(matchSets, i)
  }

  lemma {:induction false} RoutingWritesEffect(m: Maps, matchSets: seq<MatchSet>, slot: nat, n: nat)
    requires n <= MAX_MATCH_SET_LEN
    ensures var m1 := ApplyAll(m, RoutingWrites(matchSets, slot, n));
            && m1 == m.(routing := m1.routing)
            && HoldsRange(m1, slot, matchSets, n)
  {
    if n > 0 {
      RoutingWritesEffect(m, matchSets, slot, n - 1);
      var m1 := ApplyAll(m, RoutingWrites(matchSets, slot, n - 1));
      ApplyLast(m, RoutingWrites(matchSets, slot, n - 1), SetRouting(slot, n - 1, Padded(matchSets, n - 1)));
      var m2 := ApplyAll(m, RoutingWrites(matchSets, slot, n));
      forall i | 0 <= i < n
        ensures Key(slot, i) in m2.routing
                && m2.routing[Key(slot, i)] == Padded(matchSets, i)
      {
        assert i < n - 1 ==> Key(slot, i) in m1.routing && m1.routing[Key(slot, i)] == Padded(matchSets, i);
      }
    }
  }

  lemma {:induction false} TrieWritesEffect(m: Maps, tries: seq<Trie>, slot: nat, n: nat)
    requires n <= |tries| <= MAX_MATCH_SET_LEN
    ensures var m1 := ApplyAll(m, TrieWrites(tries, slot, n));
            m1 == m.(lpm := m1.lpm) && HoldsTries(m1, slot, tries, n)
  {
    if n > 0 {
      TrieWritesEffect(m, tries, slot, n - 1);
      if tries[n - 1] != {} {
        ApplyLast(m, TrieWrites(tries, slot, n - 1), SetTrie(slot, n - 1, tries[n - 1]));
      }
    }
  }

  /** Whatever the slot held before, filling it leaves a complete copy of the rule set. */
  lemma FillHolds(m: Maps, rs: RuleSet, slot: nat, batched: nat, target: seq<DomainKey>)
    requires 0 < |rs.matchSets| <= MAX_MATCH_SET_LEN && |rs.tries| <= MAX_MATCH_SET_LEN && batched <= MAX_MATCH_SET_LEN
    ensures Holds(ApplyAll(m, FillProgram(rs, slot, batched, target)), slot, rs)
  {
    var drops := DomainDrops(target);
    var first := RoutingWrites(rs.matchSets, slot, batched);
    var second := RoutingWrites(rs.matchSets, slot, MAX_MATCH_SET_LEN);
    var meta, tries := [SetMeta(slot, |rs.matchSets|)], TrieWrites(rs.tries, slot, |rs.tries|);
    ApplyAppend(m, drops + (first + second + meta), tries);
    ApplyAppend(m, drops, first + second + meta);
    var m1 := ApplyAll(m, drops);
    ApplyAppend(m1, first + second, meta);
    ApplyAppend(m1, first, second);
    var m2 := ApplyAll(ApplyAll(m1, first), second);
    RoutingWritesEffect(ApplyAll(m1, first), rs.matchSets, slot, MAX_MATCH_SET_LEN);
    assert SlotHolds(m2.routing, slot, rs.matchSets) by {
      forall i | 0 <= i < |rs.matchSets|
        ensures Key(slot, i) in m2.routing
                && m2.routing[Key(slot, i)] == rs.matchSets[i]
      {
        assert Padded(rs.matchSets, i) == rs.matchSets[i];
      }
    }
    ApplyLast(m1, first + second, SetMeta(slot, |rs.matchSets|));
    var m3 := Apply(m2, SetMeta(slot, |rs.matchSets|));
    TrieWritesEffect(m3, rs.tries, slot, |rs.tries|);
  }

  /** What is left of the tries when only those with `ok` are created, filled and inserted. */
  function Landed(tries: seq<Trie>, ok: nat -> bool): seq<Trie> {
    seq(|tries|, i requires 0 <= i < |tries| => if ok(i) then tries[i] else {})
  }

  function LandedRules(rs: RuleSet, ok: nat -> bool): RuleSet { RuleSet(rs.matchSets, Landed(rs.tries, ok)) }

  lemma {:induction false} TrieWritesKeep(m: Maps, tries: seq<Trie>, slot: nat, n: nat, i: nat)
    requires n <= |tries| && i < |tries| && (i < n ==> tries[i] == {})
    ensures var m1 := ApplyAll(m, TrieWrites(tries, slot, n));
            Key(slot, i) in m1.lpm <==> Key(slot, i) in m.lpm
    ensures var m1 := ApplyAll(m, TrieWrites(tries, slot, n));
            Key(slot, i) in m.lpm ==> m1.lpm[Key(slot, i)] == m.lpm[Key(slot, i)]
  {
    if n > 0 {
      TrieWritesKeep(m, tries, slot, n - 1, i);
      if tries[n - 1] != {} {
        ApplyLast(m, TrieWrites(tries, slot, n - 1), SetTrie(slot, n - 1, tries[n - 1]));
      }
    }
  }

  /** The tries come last, so they are all that a failing trie write changes. */
  lemma FillEndsWithTries(m: Maps, rs: RuleSet, slot: nat, batched: nat, target: seq<DomainKey>) returns (m1: Maps)
    requires batched <= MAX_MATCH_SET_LEN
    ensures m1.lpm == m.lpm
    ensures ApplyAll(m, FillProgram(rs, slot, batched, target)) == ApplyAll(m1, TrieWrites(rs.tries, slot, |rs.tries|))
  {
    var drops, rules := DomainDrops(target), RulesPart(rs.matchSets, slot, batched);
    ApplyAppend(m, drops + rules, TrieWrites(rs.tries, slot, |rs.tries|));
    ApplyAppend(m, drops, rules);
    DropsKeepRules(m, target);
    m1 := ApplyAll(ApplyAll(m, drops), rules);
    RulesPartKeepsTries(ApplyAll(m, drops), rs.matchSets, slot, batched);
  }

  lemma RulesPartKeepsTries(m: Maps, matchSets: seq<MatchSet>, slot: nat, batched: nat)
    requires batched <= MAX_MATCH_SET_LEN
    ensures ApplyAll(m, RulesPart(matchSets, slot, batched)).lpm == m.lpm
  {
    if matchSets != [] {
      var first, second := RoutingWrites(matchSets, slot, batched), RoutingWrites(matchSets, slot, MAX_MATCH_SET_LEN);
      ApplyLast(m, first + second, SetMeta(slot, |matchSets|));
      ApplyAppend(m, first, second);
      RoutingWritesEffect(m, matchSets, slot, batched);
      RoutingWritesEffect(ApplyAll(m, first), matchSets, slot, MAX_MATCH_SET_LEN);
    }
  }

  /** A failing trie write is only logged: after filling, the slot is a complete copy
      exactly when every trie that has a CIDR was written or was there already. */
  lemma FillHoldsIffTriesLand(
    m: Maps, rs: RuleSet, slot: nat, batched: nat, target: seq<DomainKey>, ok: nat -> bool)
    requires 0 < |rs.matchSets| <= MAX_MATCH_SET_LEN && |rs.tries| <= MAX_MATCH_SET_LEN && batched <= MAX_MATCH_SET_LEN
    ensures Holds(ApplyAll(m, FillProgram(LandedRules(rs, ok), slot, batched, target)), slot, rs) <==>
            forall i :: 0 <= i < |rs.tries| && rs.tries[i] != {} ==>
              ok(i) || (Key(slot, i) in m.lpm && m.lpm[Key(slot, i)] == rs.tries[i])
  {
    var landed := LandedRules(rs, ok);
    var m1 := ApplyAll(m, FillProgram(landed, slot, batched, target));
    FillHolds(m, landed, slot, batched, target);
    var m0 := FillEndsWithTries(m, landed, slot, batched, target);
    forall i: nat | i < |rs.tries| && rs.tries[i] != {}
      ensures (Key(slot, i) in m1.lpm && m1.lpm[Key(slot, i)] == rs.tries[i]) <==>
              ok(i) || (Key(slot, i) in m.lpm && m.lpm[Key(slot, i)] == rs.tries[i])
    {
      assert landed.tries[i] == if ok(i) then rs.tries[i] else {};
      if ok(i) {
        assert HoldsTries(m1, slot, landed.tries, |landed.tries|);
      } else {
        TrieWritesKeep(m0, landed.tries, slot, |landed.tries|, i);
      }
    }
  }

  lemma {:induction false} DropsKeepRules(m: Maps, keys: seq<DomainKey>)
    ensures var m1 := ApplyAll(m, DomainDrops(keys)); m1 == m.(domain := m1.domain)
    decreases |keys|
  {
    if keys != [] { DropsKeepRules(Apply(m, DropDomain(keys[0])), keys[1..]); }
  }

  /** The slot holds the new rule list after filling exactly when there is a rule in it,
      or when the slot had none before: an empty list is skipped and the old rules stay. */
  lemma FillReplacesRulesIff(m: Maps, rs: RuleSet, slot: nat, batched: nat, target: seq<DomainKey>)
    requires |rs.matchSets| <= MAX_MATCH_SET_LEN && |rs.tries| <= MAX_MATCH_SET_LEN && batched <= MAX_MATCH_SET_LEN
    ensures var m1 := ApplyAll(m, FillProgram(rs, slot, batched, target));
            slot in m1.meta && m1.meta[slot] == |rs.matchSets| && SlotHolds(m1.routing, slot, rs.matchSets)
            <==> rs.matchSets != [] || (slot in m.meta && m.meta[slot] == 0)
  {
    if rs.matchSets != [] {
      FillHolds(m, rs, slot, batched, target);
    } else {
      var drops, tries := DomainDrops(target), TrieWrites(rs.tries, slot, |rs.tries|);
      assert FillProgram(rs, slot, batched, target) == drops + tries;
      ApplyAppend(m, drops, tries);
      DropsKeepRules(m, target);
      TrieWritesEffect(ApplyAll(m, drops), rs.tries, slot, |rs.tries|);
    }
  }

  // ----- The control plane -----

  /** What happens to a reload once its rules are compiled. */
  datatype Outcome =
    | Complete(flipOk: bool)
    | RulesFailed(written: nat)

  function SwitchPart(next: nat, flipOk: bool): seq<Write> { if flipOk then [SetActive(next)] else [] }

  function ReloadProgram(
    rs: RuleSet, prev: nat, next: nat, batched: nat, target: seq<DomainKey>, stale: seq<DomainKey>, outcome: Outcome):
    seq<Write>
  {
    match outcome
    case Complete(flipOk) =>
      FillProgram(rs, next, batched, target) + (SwitchPart(next, flipOk) + DomainDrops(stale))
    case RulesFailed(written) => FailProgram(rs, next, batched, written, target)
  }

  lemma {:induction false} DropsSnoc(keys: seq<DomainKey>, key: DomainKey)
    ensures DomainDrops(keys + [key]) == DomainDrops(keys) + [DropDomain(key)]
    decreases |keys|
  {
    if keys == [] {
      assert [] + [key] == [key] && [key][1..] == [];
    } else {
      assert (keys + [key])[1..] == keys[1..] + [key];
      DropsSnoc(keys[1..], key);
    }
  }

  lemma Shrinks(m: map<DomainKey, Bitmap>, k: DomainKey)
    requires k in m
    ensures |m - {k}| < |m|
  {
    var n := m - {k};
    assert n.Keys == m.Keys - {k};
  }

  class ControlPlane {
    var currentEpochSlot: nat
    var datapathGeneration: nat
    var loaded: bool
    var maps: Maps

    ghost predicate Valid()
      reads this
    {
      currentEpochSlot < EPOCH_SLOT_NUM && datapathGeneration < 0x10000
    }

    /** The keys of the domain map, each once, in the order in which the kernel walks them. */
    method WalkOrder() returns (order: seq<DomainKey>)
      ensures forall k :: k in order <==> k in maps.domain
    {
      order := [];
      var rest := maps.domain.Keys;
      while rest != {}
        invariant rest <= maps.domain.Keys
        invariant forall k :: k in order <==> k in maps.domain.Keys - rest
        decreases rest
      {
        var k :| k in rest;
        order := order + [k];
        rest := rest - {k};
      }
    }

    /** Deletes the entries of a slot, walking the map key by key. The kernel starts over
        when the key it is asked to go on from is gone, so every deletion restarts the walk. */
    method ClearDomainSlot(slot: nat) returns (keys: seq<DomainKey>)
      modifies this`maps
      ensures KeysOf(keys, slot) && maps == ApplyAll(old(maps), DomainDrops(keys))
      ensures forall k :: k in maps.domain <==> k in old(maps).domain && k.slot != slot
    {
      var order := WalkOrder();
      keys := [];
      var from := 0;
      while true
        invariant from <= |order| && KeysOf(keys, slot) && maps == ApplyAll(old(maps), DomainDrops(keys))
        invariant forall k :: k in maps.domain ==> k in order
        invariant forall k :: k in old(maps).domain && k.slot != slot ==> k in maps.domain
        invariant forall k :: k in maps.domain ==> k in old(maps).domain
        invariant forall i :: 0 <= i < from && order[i] in maps.domain ==> order[i].slot != slot
        decreases |maps.domain|, |order| - from
      {
        var next := from;
        while next < |order| && order[next] !in maps.domain
          invariant from <= next <= |order|
          invariant forall i :: from <= i < next ==> order[i] !in maps.domain
        {
          next := next + 1;
        }
        if next == |order| {
          break;
        }
        if order[next].slot == slot {
          DropsSnoc(keys, order[next]);
          ApplyLast(old(maps), DomainDrops(keys), DropDomain(order[next]));
          Shrinks(maps.domain, order[next]);
          keys := keys + [order[next]];
          maps := maps.(domain := maps.domain - {order[next]});
          from := 0;
        } else {
          from := next + 1;
        }
      }
    }

    /** Individual updates `0 .. n` of the routing map. */
    method WriteRange(matchSets: seq<MatchSet>, slot: nat, n: nat)
      requires n <= MAX_MATCH_SET_LEN
      modifies this`maps
      ensures maps == ApplyAll(old(maps), RoutingWrites(matchSets, slot, n))
    {
      var i := 0;
      while i < n
        invariant i <= n
        invariant maps == ApplyAll(old(maps), RoutingWrites(matchSets, slot, i))
      {
        ApplyLast(old(maps), RoutingWrites(matchSets, slot, i), SetRouting(slot, i, Padded(matchSets, i)));
        var ms := if i < |matchSets| then matchSets[i] else ZERO_MATCH_SET;
        maps := maps.(routing := maps.routing[Key(slot, i) := ms]);
        i := i + 1;
      }
    }

    /** `batched` entries are written in one batch before the individual updates; `failAt`
        is where these stop when they fail. */
    method WriteRoutingRules(matchSets: seq<MatchSet>, slot: nat, batched: nat, failAt: Option<nat>) returns (ok: bool)
      requires batched <= MAX_MATCH_SET_LEN && (failAt.Some? ==> failAt.value <= MAX_MATCH_SET_LEN)
      modifies this`maps
      ensures ok == failAt.None?
      ensures maps == ApplyAll(old(maps),
                if ok then RulesProgram(matchSets, slot, batched)
                else RoutingWrites(matchSets, slot, batched) + RoutingWrites(matchSets, slot, failAt.value))
    {
      ghost var m0 := maps;
      WriteRange(matchSets, slot, batched);
      ghost var first := RoutingWrites(matchSets, slot, batched);
      if failAt.Some? {
        WriteRange(matchSets, slot, failAt.value);
        ApplyAppend(m0, first, RoutingWrites(matchSets, slot, failAt.value));
        return false;
      }
      WriteRange(matchSets, slot, MAX_MATCH_SET_LEN);
      ghost var second := RoutingWrites(matchSets, slot, MAX_MATCH_SET_LEN);
      ApplyAppend(m0, first, second);
      ApplyLast(m0, first + second, SetMeta(slot, |matchSets|));
      maps := maps.(meta := maps.meta[slot := |matchSets|]);
      return true;
    }

    /** `ok` tells which tries can be created, filled and inserted; after a failing
        creation or filling none of the later ones is tried. */
    method WriteCidrTable(tries: seq<Trie>, slot: nat, ok: nat -> bool)
      modifies this`maps
      ensures maps == ApplyAll(old(maps), TrieWrites(Landed(tries, ok), slot, |tries|))
    {
      var i := 0;
      while i < |tries|
        invariant i <= |tries|
        invariant maps == ApplyAll(old(maps), TrieWrites(Landed(tries, ok), slot, i))
      {
        if tries[i] != {} && ok(i) {
          ApplyLast(old(maps), TrieWrites(Landed(tries, ok), slot, i), SetTrie(slot, i, tries[i]));
          maps := maps.(lpm := maps.lpm[Key(slot, i) := tries[i]]);
        }
        i := i + 1;
      }
    }

    /** Fill the target slot. */
    method Fill(rs: RuleSet, slot: nat, batched: nat, clearOk: bool, failAt: Option<nat>, trieOk: nat -> bool)
      returns (ok: bool, target: seq<DomainKey>)
      requires batched <= MAX_MATCH_SET_LEN && (failAt.Some? ==> failAt.value <= MAX_MATCH_SET_LEN)
      modifies this`maps
      ensures ok == (failAt.None? || rs.matchSets == []) && KeysOf(target, slot)
      ensures maps == ApplyAll(old(maps),
                if ok then FillProgram(LandedRules(rs, trieOk), slot, batched, target)
                else FailProgram(rs, slot, batched, failAt.value, target))
      ensures clearOk ==> forall k :: k in old(maps).domain && k.slot == slot ==> k in target
    {
      ghost var m0 := maps;
      target := [];
      if clearOk {
        target := ClearDomainSlot(slot);
        OnlyDropsDelete(m0, target);
      }
      ghost var drops := DomainDrops(target);
      ok := true;
      if rs.matchSets != [] {
        ok := WriteRoutingRules(rs.matchSets, slot, batched, failAt);
        if !ok {
          ghost var a, b := RoutingWrites(rs.matchSets, slot, batched), RoutingWrites(rs.matchSets, slot, failAt.value);
          ApplyAppend(m0, drops, a + b);
          assert drops + (a + b) == drops + a + b;
          return;
        }
      }
      ApplyAppend(m0, drops, RulesPart(rs.matchSets, slot, batched));
      WriteCidrTable(rs.tries, slot, trieOk);
      ApplyAppend(m0, drops + RulesPart(rs.matchSets, slot, batched),
                  TrieWrites(Landed(rs.tries, trieOk), slot, |rs.tries|));
    }

    /** The switch, which may fail, and the clearing of the slot that is left. */
    method Switch(next: nat, flipOk: bool, clearOk: bool) returns (stale: seq<DomainKey>)
      requires Valid()
      modifies this`maps
      ensures KeysOf(stale, currentEpochSlot)
      ensures maps == ApplyAll(old(maps), SwitchPart(next, flipOk) + DomainDrops(stale))
      ensures clearOk ==> forall k :: k in maps.domain ==> k.slot != currentEpochSlot
    {
      ghost var m0 := maps;
      if flipOk {
        maps := maps.(active := next);
      }
      stale := [];
      if clearOk {
        stale := ClearDomainSlot(currentEpochSlot);
      }
      assert ApplyAll(m0, SwitchPart(next, flipOk)) == if flipOk then m0.(active := next) else m0;
      ApplyAppend(m0, SwitchPart(next, flipOk), DomainDrops(stale));
    }

    /** The map writes of a reload. `clearOk` tells whether the domain entries of the target
        slot and of the left slot can be cleared. */
    method WriteMaps(
      rs: RuleSet, next: nat, batched: nat, clearOk: (bool, bool), trieOk: nat -> bool, outcome: Outcome)
      returns (ok: bool, target: seq<DomainKey>, stale: seq<DomainKey>)
      requires Valid() && batched <= MAX_MATCH_SET_LEN
      requires outcome.RulesFailed? ==> rs.matchSets != [] && outcome.written <= MAX_MATCH_SET_LEN
      modifies this`maps
      ensures ok == outcome.Complete? && KeysOf(target, next) && KeysOf(stale, currentEpochSlot)
      ensures maps == ApplyAll(old(maps), ReloadProgram(LandedRules(rs, trieOk), currentEpochSlot, next, batched,
                                                        target, stale, outcome))
      ensures ok && clearOk.1 ==> forall k :: k in maps.domain ==> k.slot != currentEpochSlot
    {
      ghost var m0 := maps;
      stale := [];
      var failAt := if outcome.RulesFailed? then Some(outcome.written) else None;
      ok, target := Fill(rs, next, batched, clearOk.0, failAt, trieOk);
      if !ok {
        return;
      }
      stale := Switch(next, outcome.flipOk, clearOk.1);
      ApplyAppend(m0, FillProgram(LandedRules(rs, trieOk), next, batched, target),
                  SwitchPart(next, outcome.flipOk) + DomainDrops(stale));
    }

    /** `reload_config`, from the increment of the generation on. */
    method ReloadConfig(rs: RuleSet, batched: nat, clearOk: (bool, bool), trieOk: nat -> bool, outcome: Outcome)
      returns (ok: bool, target: seq<DomainKey>, stale: seq<DomainKey>)
      requires Valid() && batched <= MAX_MATCH_SET_LEN
      requires outcome.RulesFailed? ==> rs.matchSets != [] && outcome.written <= MAX_MATCH_SET_LEN
      modifies this
      ensures Valid() && loaded == old(loaded)
      ensures datapathGeneration == (old(datapathGeneration) + 1) % 0x10000
      ensures ok == (!loaded || outcome.Complete?)
      ensures currentEpochSlot == if ok then 1 - old(currentEpochSlot) else old(currentEpochSlot)
      ensures KeysOf(target, 1 - old(currentEpochSlot)) && KeysOf(stale, old(currentEpochSlot))
      ensures maps == if !loaded then old(maps)
                      else ApplyAll(old(maps), ReloadProgram(LandedRules(rs, trieOk), old(currentEpochSlot),
                                                             1 - old(currentEpochSlot), batched, target, stale,
                                                             outcome))
      ensures loaded && ok && clearOk.1 ==> forall k :: k in maps.domain ==> k.slot != old(currentEpochSlot)
    {
      datapathGeneration := (datapathGeneration + 1) % 0x10000;
      var next := (currentEpochSlot + 1) % EPOCH_SLOT_NUM;
      assert next == 1 - currentEpochSlot;
      ok, target, stale := true, [], [];
      if loaded {
        ok, target, stale := WriteMaps(rs, next, batched, clearOk, trieOk, outcome);
        if !ok {
          return;
        }
      }
      currentEpochSlot := next;
    }
  }

  /** A key that is gone after some drops was among them. */
  lemma {:induction false} OnlyDropsDelete(m: Maps, keys: seq<DomainKey>)
    ensures forall k :: k in m.domain && k !in ApplyAll(m, DomainDrops(keys)).domain ==> k in keys
    decreases |keys|
  {
    if keys != [] { OnlyDropsDelete(Apply(m, DropDomain(keys[0])), keys[1..]); }
  }

  lemma {:induction false} OnlyFlipsMoveActive(m: Maps, ws: seq<Write>)
    requires forall w :: w in ws ==> !w.SetActive?
    ensures ApplyAll(m, ws).active == m.active
    decreases |ws|
  {
    if ws != [] { OnlyFlipsMoveActive(Apply(m, ws[0]), ws[1..]); }
  }

  /** After a completed reload the userspace slot and the active slot agree exactly
      when the switching write succeeded: the source advances its own slot either way. */
  lemma SlotsAgreeIffFlipped(
    m: Maps, rs: RuleSet, prev: nat, batched: nat, target: seq<DomainKey>, stale: seq<DomainKey>, flipOk: bool)
    requires prev < EPOCH_SLOT_NUM && m.active == prev && |rs.tries| <= MAX_MATCH_SET_LEN
    requires batched <= MAX_MATCH_SET_LEN && KeysOf(target, 1 - prev) && KeysOf(stale, prev)
    ensures ApplyAll(m, ReloadProgram(rs, prev, 1 - prev, batched, target, stale, Complete(flipOk))).active == 1 - prev
            <==> flipOk
  {
    var next := 1 - prev;
    var fill, drops := FillProgram(rs, next, batched, target), DomainDrops(stale);
    var flip := SwitchPart(next, flipOk);
    ReloadWritesOnlyItsSlot(rs, next, batched, 0, target);
    DomainDropsWithin(stale, prev);
    OnlyFlipsMoveActive(m, fill);
    ApplyAppend(m, fill, flip + drops);
    var m1 := ApplyAll(m, fill);
    ApplyAppend(m1, flip, drops);
    OnlyFlipsMoveActive(ApplyAll(m1, flip), drops);
    assert ApplyAll(m1, flip) == if flipOk then m1.(active := next) else m1;
  }

  /** What a failed switch leads to: the next reload fills the slot that readers use, and
      its rules are there in full before it switches anything. */
  lemma FailedFlipOverwritesLiveSlot(
    m: Maps, prev: nat, rs: RuleSet, batched: nat, target: seq<DomainKey>, stale: seq<DomainKey>,
    rs2: RuleSet, batched2: nat, target2: seq<DomainKey>)
    requires prev < EPOCH_SLOT_NUM && m.active == prev && |rs.tries| <= MAX_MATCH_SET_LEN
    requires batched <= MAX_MATCH_SET_LEN && KeysOf(target, 1 - prev) && KeysOf(stale, prev)
    requires Compiled(rs2) && batched2 <= MAX_MATCH_SET_LEN && KeysOf(target2, prev)
    ensures var userSlot := 1 - prev;
            var m1 := ApplyAll(m, ReloadProgram(rs, prev, 1 - prev, batched, target, stale, Complete(false)));
            var m2 := ApplyAll(m1, FillProgram(rs2, 1 - userSlot, batched2, target2));
            m1.active == m2.active == prev && Holds(m2, m2.active, rs2)
  {
    var fill, drops := FillProgram(rs, 1 - prev, batched, target), DomainDrops(stale);
    var program := ReloadProgram(rs, prev, 1 - prev, batched, target, stale, Complete(false));
    assert [] + drops == drops && program == fill + drops;
    ReloadWritesOnlyItsSlot(rs, 1 - prev, batched, 0, target);
    DomainDropsWithin(stale, prev);
    OnlyFlipsMoveActive(m, program);
    var m1 := ApplyAll(m, program);
    ReloadWritesOnlyItsSlot(rs2, prev, batched2, 0, target2);
    OnlyFlipsMoveActive(m1, FillProgram(rs2, prev, batched2, target2));
    FillHolds(m1, rs2, prev, batched2, target2);
  }
}
