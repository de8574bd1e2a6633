/** The kernel routing loop: a flat array of match sets interpreted by a state
    machine with three flags, short-circuit skipping and a one-word cache of the
    domain bitmap. `RouteCtx` is the mutable scratch structure; the functions
    beside it give its methods' effect as values. */
module RouteEngine {
  import opened MatchSets

  // ----- Signed 64-bit results -----

  const EPERM: int := 1
  const ENOEXEC: int := 8
  const EFAULT: int := 14
  const EINVAL: int := 22

  /** Outbound in bits 0-7, mark in bits 8-39, must in bit 40. The fields do not
      overlap, so the source's `|` is a sum (`OrIsSum`). */
  function PackResult(outbound: u8, mark: u32, must: bool): int {
    outbound + mark * 0x100 + (if must then 0x100_0000_0000 else 0)
  }

  lemma OrIsSum(outbound: bv8, mark: bv32, must: bv8, slot: bv8)
    requires must < 2 && slot < 4
    ensures (outbound as bv64) | ((mark as bv64) << 8) | ((must as bv64) << 40) | ((slot as bv64) << 41) ==
            (outbound as bv64) + (mark as bv64) * 0x100 + (must as bv64) * 0x100_0000_0000
            + (slot as bv64) * 0x200_0000_0000
  {
  }

  function SlotEncode(slot: nat): u8 {
    if slot >= EPOCH_SLOT_NUM then 0 else slot + 1
  }

  function SlotSanitize(encoded: u8): u8 {
    if encoded <= EPOCH_SLOT_NUM then encoded else 0
  }

  /** The encoded slot goes to bits 41-42. */
  function WithSlot(result: int, slot: nat): int {
    result + SlotEncode(slot) * 0x200_0000_0000
  }

  /** The four fields that the verdict functions extract from a routing result. */
  datatype Decision = Decision(outbound: u8, mark: u32, must: bool, slot: u8)

  function Unpack(ret: nat): Decision {
    Decision(
      ret % 0x100,
      ret / 0x100 % 0x1_0000_0000,
      ret / 0x100_0000_0000 % 2 == 1,
      SlotSanitize(ret / 0x200_0000_0000 % 4))
  }

  /** The packed fields do not overlap, and packing never sets the sign bit. */
  lemma UnpackInvertsPack(outbound: u8, mark: u32, must: bool, slot: nat)
    ensures 0 <= PackResult(outbound, mark, must) <= WithSlot(PackResult(outbound, mark, must), slot)
            < 0x8000_0000_0000_0000
    ensures Unpack(WithSlot(PackResult(outbound, mark, must), slot)) ==
            Decision(outbound, mark, must, if slot == 0 then 1 else if slot == 1 then 2 else 0)
  {
    var must01 := if must then 1 else 0;
    var high := must01 + 2 * SlotEncode(slot);
    var ret := WithSlot(PackResult(outbound, mark, must), slot);
    assert ret / 0x100 == mark + high * 0x1_0000_0000 && ret % 0x100 == outbound;
    assert ret / 0x100 % 0x1_0000_0000 == mark;
    assert ret / 0x100_0000_0000 == high;
    assert ret / 0x200_0000_0000 == SlotEncode(slot);
  }

  /** Only the lowest 43 bits of a result are looked at. */
  lemma UnpackIgnoresHighBits(ret: nat, high: nat)
    ensures Unpack(ret + high * 0x800_0000_0000) == Unpack(ret)
  {
    OutboundBits(ret, high);
    MarkBits(ret, high);
    MustBit(ret, high);
    SlotBits(ret, high);
  }

  lemma OutboundBits(ret: nat, high: nat)
    ensures (ret + high * 0x800_0000_0000) % 0x100 == ret % 0x100
  {
  }

  lemma MarkBits(ret: nat, high: nat)
    ensures (ret + high * 0x800_0000_0000) / 0x100 % 0x1_0000_0000 == ret / 0x100 % 0x1_0000_0000
  {
    WithoutLowByte(ret, high * 0x8_0000_0000);
    WordWraps(ret / 0x100, high * 8);
  }

  lemma WithoutLowByte(x: nat, k: nat)
    ensures (x + k * 0x100) / 0x100 == x / 0x100 + k
  {
  }

  lemma WordWraps(x: nat, k: nat)
    ensures (x + k * 0x1_0000_0000) % 0x1_0000_0000 == x % 0x1_0000_0000
  {
  }

  lemma MustBit(ret: nat, high: nat)
    ensures (ret + high * 0x800_0000_0000) / 0x100_0000_0000 % 2 == ret / 0x100_0000_0000 % 2
  {
    var x := ret / 0x100_0000_0000;
    assert (ret + high * 0x800_0000_0000) / 0x100_0000_0000 == x + high * 8;
    EvenMore(x, high * 4);
  }

  lemma EvenMore(x: nat, k: nat)
    ensures (x + k * 2) % 2 == x % 2
  {
  }

  lemma SlotBits(ret: nat, high: nat)
    ensures (ret + high * 0x800_0000_0000) / 0x200_0000_0000 % 4 == ret / 0x200_0000_0000 % 4
  {
    assert (ret + high * 0x800_0000_0000) / 0x200_0000_0000 == ret / 0x200_0000_0000 + high * 4;
  }

  // ----- One match set -----

  datatype Eval = Hit | Miss | Fault(code: int)

  function HitIf(b: bool): Eval { if b then Hit else Miss }

  function LpmEval(lpm: map<nat, Trie>, slot: nat, trie: nat, key: Bits): Eval {
    if slot >= EPOCH_SLOT_NUM || trie >= MAX_MATCH_SET_LEN then Fault(EFAULT)
    else if Key(slot, trie) !in lpm then Fault(EFAULT)
    else HitIf(TrieHit(lpm[Key(slot, trie)], key))
  }

  function DomainWord(domain: map<DomainKey, Bitmap>, slot: nat, addr: Bits, word: nat): Word
    requires word < 32
  {
    var key := DomainKey(slot, addr);
    if key in domain then domain[key][word] else ZeroWord()
  }

  /** Whether two flag bytes have a bit in common, which is the source's `&`
      (`AndIsCommonBit`, `IntersectIff`). */
  predicate Intersect(value: nat, mask: nat) {
    value > 0 && mask > 0 && ((value % 2 == 1 && mask % 2 == 1) || Intersect(value / 2, mask / 2))
  }

  predicate BitOf(x: bv8, i: bv8)
    requires i < 8
  {
    (x >> i) & 1 == 1
  }

  lemma AndIsCommonBit(a: bv8, b: bv8)
    ensures a & b != 0 <==> exists i: bv8 :: i < 8 && BitOf(a, i) && BitOf(b, i)
  {
    var c := a & b;
    if c != 0 {
      var i: bv8 := if c & 1 == 1 then 0 else if c & 2 == 2 then 1 else if c & 4 == 4 then 2 else if c & 8 == 8 then 3
                    else if c & 16 == 16 then 4 else if c & 32 == 32 then 5 else if c & 64 == 64 then 6 else 7;
      assert i < 8 && BitOf(a, i) && BitOf(b, i);
    }
  }

  /** Bit `i` of a number, counted from the lowest. */
  predicate HasBit(x: nat, i: nat) { if i == 0 then x % 2 == 1 else HasBit(x / 2, i - 1) }

  lemma {:induction false} ZeroHasNoBit(i: nat)
    ensures !HasBit(0, i)
  {
    if i > 0 { ZeroHasNoBit(i - 1); }
  }

  predicate SharesBit(value: nat, mask: nat, i: nat) { HasBit(value, i) && HasBit(mask, i) }

  lemma {:induction false} IntersectIff(value: nat, mask: nat)
    ensures Intersect(value, mask) <==> exists i :: SharesBit(value, mask, i)
    decreases value
  {
    if value == 0 || mask == 0 {
      forall i
        ensures !SharesBit(value, mask, i)
      {
        ZeroHasNoBit(i);
      }
    } else {
      IntersectIff(value / 2, mask / 2);
      assert value % 2 == 1 && mask % 2 == 1 <==> SharesBit(value, mask, 0);
      forall i: nat
        ensures SharesBit(value / 2, mask / 2, i) == SharesBit(value, mask, i + 1)
      {
      }
      if i: nat :| SharesBit(value, mask, i) {
        assert i == 0 || SharesBit(value / 2, mask / 2, i - 1);
      }
    }
  }

  /** What evaluating a match set amounts to when nothing is cached. */
  function EvalFresh(q: Query, slot: nat, t: Tables, kind: MatchKind, index: nat): Eval {
    match kind
    case IpSet(trie) => LpmEval(t.lpm, slot, trie, q.daddr)
    case SourceIpSet(trie) => LpmEval(t.lpm, slot, trie, q.saddr)
    case Mac(trie) => LpmEval(t.lpm, slot, trie, q.mac)
    case Port(first, last) => HitIf(first <= q.dport <= last)
    case SourcePort(first, last) => HitIf(first <= q.sport <= last)
    case L4Proto(mask) => HitIf(Intersect(q.l4proto, mask))
    case IpVersion(mask) => HitIf(Intersect(q.ipVersion, mask))
    case DomainSet =>
      if index >= MAX_MATCH_SET_LEN then Fault(EFAULT)
      else HitIf(DomainWord(t.domain, slot, q.daddr, index / 32)[index % 32])
    case ProcessName(name) => HitIf(q.isWan && name == q.pname)
    case Dscp(value) => HitIf(q.dscp == value)
    case Fallback => Hit
    case Other(_) => Fault(EINVAL)
  }

  // ----- The loop state -----

  datatype RouteState = RouteState(
    bad: bool, good: bool, must: bool, result: int,
    cached: bool, wordIdx: nat, wordBits: Word)

  function Initial(): RouteState { RouteState(false, false, false, -ENOEXEC, false, 0, ZeroWord()) }

  /** A state and whether the loop stops there. */
  datatype Step = Step(state: RouteState, stop: bool)

  function MatchDomainSet(st: RouteState, q: Query, slot: nat, t: Tables, index: nat): Step {
    if index >= MAX_MATCH_SET_LEN then Step(st.(result := -EFAULT), true)
    else
      var word := index / 32;
      var st1 :=
        if !st.cached || st.wordIdx != word
        then st.(cached := true, wordIdx := word, wordBits := DomainWord(t.domain, slot, q.daddr, word))
        else st;
      Step(if st1.wordBits[index % 32] then st1.(good := true) else st1, false)
  }

  function EvalMatch(st: RouteState, q: Query, slot: nat, t: Tables, kind: MatchKind, index: nat): Step {
    if kind.DomainSet? then MatchDomainSet(st, q, slot, t, index)
    else
      match EvalFresh(q, slot, t, kind, index)
      case Hit => Step(st.(good := true), false)
      case Miss => Step(st, false)
      case Fault(code) => Step(st.(result := -code), true)
  }

  /** The end of a rule is any outbound that is not a logical connective: masking
      with 0xFE clears the lowest bit. */
  predicate IsTail(outbound: u8) {
    outbound / 2 * 2 != OUTBOUND_LOGICAL_MASK
  }

  function FinalizeMatch(st: RouteState, ms: MatchSet): Step {
    var st1 :=
      if ms.outbound != OUTBOUND_LOGICAL_OR
      then st.(bad := st.bad || st.good == ms.negated, good := false)
      else st;
    if !IsTail(ms.outbound) then Step(st1, false)
    else if st1.bad then Step(st1.(bad := false), false)
    else if ms.outbound == OUTBOUND_MUST_RULES then Step(st1.(must := true), false)
    else Step(st1.(result := PackResult(ms.outbound, ms.mark, st1.must || ms.must)), true)
  }

  /** One loop iteration once its match set has been fetched. */
  function Body(st: RouteState, q: Query, slot: nat, t: Tables, ms: MatchSet, index: nat): Step {
    var s := if !st.bad && !st.good then EvalMatch(st, q, slot, t, ms.kind, index) else Step(st, false);
    if s.stop then s else FinalizeMatch(s.state, ms)
  }

  function LoopCb(
    st: RouteState, q: Query, slot: nat, t: Tables, routing: map<nat, MatchSet>, index: nat): Step
  {
    if index >= MAX_MATCH_SET_LEN || slot >= EPOCH_SLOT_NUM || Key(slot, index) !in routing
    then Step(st.(result := -EFAULT), true)
    else Body(st, q, slot, t, routing[Key(slot, index)], index)
  }

  /** The remaining iterations `index .. n`. */
  function RunLoop(
    st: RouteState, q: Query, slot: nat, t: Tables, routing: map<nat, MatchSet>, index: nat, n: nat): RouteState
    requires index <= n
    decreases n - index
  {
    if index == n then st
    else
      var s := LoopCb(st, q, slot, t, routing, index);
      if s.stop then s.state else RunLoop(s.state, q, slot, t, routing, index + 1, n)
  }

  /** What `route()` returns once the loop is over. */
  function Conclude(st: RouteState, slot: nat): int {
    if st.result < 0 then -EPERM else WithSlot(st.result, slot)
  }

  function RulesLen(meta: map<nat, nat>, slot: nat): nat {
    if slot in meta && meta[slot] <= MAX_MATCH_SET_LEN then meta[slot] else MAX_MATCH_SET_LEN
  }

  function RouteValue(
    q: Query, active: Option<nat>, meta: map<nat, nat>, routing: map<nat, MatchSet>, t: Tables): int
  {
    var slot := if active.Some? then active.value else 0;
    if slot >= EPOCH_SLOT_NUM then -EFAULT
    else Conclude(RunLoop(Initial(), q, slot, t, routing, 0, RulesLen(meta, slot)), slot)
  }

  /** The match types that look at the packet only. */
  method MatchFields(q: Query, kind: MatchKind) returns (known: bool, hit: bool)
    requires !kind.IpSet? && !kind.SourceIpSet? && !kind.Mac? && !kind.DomainSet?
    ensures known == !kind.Other?
    ensures known ==> forall slot, t, index :: EvalFresh(q, slot, t, kind, index) == HitIf(hit)
  {
    known, hit := true, false;
    match kind
    case Port(first, last) => hit := q.dport >= first && q.dport <= last;
    case SourcePort(first, last) => hit := q.sport >= first && q.sport <= last;
    case L4Proto(mask) => hit := Intersect(q.l4proto, mask);
    case IpVersion(mask) => hit := Intersect(q.ipVersion, mask);
    case ProcessName(name) => hit := q.isWan && name == q.pname;
    case Dscp(value) => hit := q.dscp == value;
    case Fallback => hit := true;
    case Other(_) => known := false;
  }

  // ----- The scratch structure, updated in place -----

  class RouteCtx {
    var bad: bool
    var good: bool
    var must: bool
    var result: int
    var domainCached: bool
    var domainWordIdx: nat
    var domainWordBits: Word

    ghost function State(): RouteState
      reads this
    {
      RouteState(bad, good, must, result, domainCached, domainWordIdx, domainWordBits)
    }

    constructor ()
      ensures State() == Initial()
    {
      bad, good, must := false, false, false;
      result := -ENOEXEC;
      domainCached, domainWordIdx, domainWordBits := false, 0, ZeroWord();
    }

    method MatchLpm(slot: nat, t: Tables, trie: nat, key: Bits) returns (stop: bool)
      modifies this
      ensures Step(State(), stop) ==
              match LpmEval(t.lpm, slot, trie, key)
              case Hit => Step(old(State()).(good := true), false)
              case Miss => Step(old(State()), false)
              case Fault(code) => Step(old(State()).(result := -code), true)
    {
      if slot >= EPOCH_SLOT_NUM || trie >= MAX_MATCH_SET_LEN {
        result := -EFAULT;
        return true;
      }
      var lpmIndex := Key(slot, trie);
      if lpmIndex !in t.lpm {
        result := -EFAULT;
        return true;
      }
      if TrieHit(t.lpm[lpmIndex], key) {
        good := true;
      }
      return false;
    }

    method MatchDomain(q: Query, slot: nat, t: Tables, index: nat) returns (stop: bool)
      modifies this
      ensures Step(State(), stop) == MatchDomainSet(old(State()), q, slot, t, index)
    {
      if index >= MAX_MATCH_SET_LEN {
        result := -EFAULT;
        return true;
      }
      var word := index / 32;
      if !domainCached || domainWordIdx != word {
        var key := DomainKey(slot, q.daddr);
        domainWordIdx := word;
        domainWordBits := if key in t.domain then t.domain[key][word] else ZeroWord();
        domainCached := true;
      }
      if domainWordBits[index % 32] {
        good := true;
      }
      return false;
    }

    method EvalOne(q: Query, slot: nat, t: Tables, kind: MatchKind, index: nat) returns (stop: bool)
      modifies this
      ensures Step(State(), stop) == EvalMatch(old(State()), q, slot, t, kind, index)
    {
      if kind.IpSet? {
        stop := MatchLpm(slot, t, kind.trie, q.daddr);
      } else if kind.SourceIpSet? {
        stop := MatchLpm(slot, t, kind.trie, q.saddr);
      } else if kind.Mac? {
        stop := MatchLpm(slot, t, kind.trie, q.mac);
      } else if kind.DomainSet? {
        stop := MatchDomain(q, slot, t, index);
      } else {
        var known, hit := MatchFields(q, kind);
        if !known {
          result := -EINVAL;
        } else if hit {
          good := true;
        }
        stop := !known;
      }
    }

    method Finalize(ms: MatchSet) returns (stop: bool)
      modifies this
      ensures Step(State(), stop) == FinalizeMatch(old(State()), ms)
    {
      if ms.outbound != OUTBOUND_LOGICAL_OR {
        if good == ms.negated {
          bad := true;
        }
        good := false;
      }
      if IsTail(ms.outbound) {
        if !bad {
          if ms.outbound == OUTBOUND_MUST_RULES {
            must := true;
          } else {
            result := PackResult(ms.outbound, ms.mark, must || ms.must);
            return true;
          }
        }
        bad := false;
      }
      return false;
    }

    method LoopStep(q: Query, slot: nat, t: Tables, routing: map<nat, MatchSet>, index: nat) returns (stop: bool)
      modifies this
      ensures Step(State(), stop) == LoopCb(old(State()), q, slot, t, routing, index)
    {
      if index >= MAX_MATCH_SET_LEN || slot >= EPOCH_SLOT_NUM {
        result := -EFAULT;
        return true;
      }
      var k := Key(slot, index);
      if k !in routing {
        result := -EFAULT;
        return true;
      }
      if !(bad || good) {
        stop := EvalOne(q, slot, t, routing[k].kind, index);
        if stop {
          return;
        }
      }
      stop := Finalize(routing[k]);
    }
  }

  /** `bpf_loop` over the active rules. */
  method LoopRules(ctx: RouteCtx, q: Query, slot: nat, t: Tables, routing: map<nat, MatchSet>, n: nat)
    modifies ctx
    ensures ctx.State() == RunLoop(old(ctx.State()), q, slot, t, routing, 0, n)
  {
    var i, stop := 0, false;
    while i < n && !stop
      invariant 0 <= i <= n
      invariant RunLoop(old(ctx.State()), q, slot, t, routing, 0, n) ==
                if stop then ctx.State() else RunLoop(ctx.State(), q, slot, t, routing, i, n)
    {
      stop := ctx.LoopStep(q, slot, t, routing, i);
      i := i + 1;
    }
  }

  /** `route()`: pick the active slot and its length, then run the loop. */
  method Route(q: Query, active: Option<nat>, meta: map<nat, nat>, routing: map<nat, MatchSet>, t: Tables)
    returns (ret: int)
    ensures ret == RouteValue(q, active, meta, routing, t)
  {
    var ctx := new RouteCtx();
    var slot := 0;
    if active.Some? {
      slot := active.value;
      if slot >= EPOCH_SLOT_NUM {
        return -EFAULT;
      }
    }
    var n := MAX_MATCH_SET_LEN;
    if slot in meta && meta[slot] <= MAX_MATCH_SET_LEN {
      n := meta[slot];
    }
    LoopRules(ctx, q, slot, t, routing, n);
    if ctx.result >= 0 {
      return WithSlot(ctx.result, slot);
    }
    return -EPERM;
  }
}
