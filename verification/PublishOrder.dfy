/** How a routing decision becomes visible: the side fields are stored first and the
    64-bit routing word last, while readers on other CPUs load the flag and then the
    fields one by one. Every store and every load is a step. */
module PublishOrder {
  import opened MatchSets
  import opened ConnTrack

  /** The fields of an entry that a decision is spread over. */
  datatype Fields = Fields(mac: int, slot: u8, generation: nat, meta: Meta)

  datatype Field = MacField | SlotField | GenerationField | OutboundField | MarkField | MustField

  datatype Value = Number(n: int) | Flag(b: bool)

  function Load(f: Fields, which: Field): Value {
    match which
    case MacField => Number(f.mac)
    case SlotField => Number(f.slot)
    case GenerationField => Number(f.generation)
    case OutboundField => Number(f.meta.outbound)
    case MarkField => Number(f.meta.mark)
    case MustField => Flag(f.meta.must)
  }

  /** Store number `pc` of publishing `p`. */
  function Store(f: Fields, p: Fields, pc: nat): Fields {
    if pc == 0 then f.(mac := p.mac)
    else if pc == 1 then f.(slot := p.slot)
    else if pc == 2 then f.(generation := p.generation)
    else f.(meta := p.meta)
  }

  /** The entry, the publications still to come with the progress of the first, and what
      the reader has loaded: the flag, then fields, newest last. */
  datatype Sys = Sys(
    entry: Fields, pending: seq<Fields>, pc: nat, sawRouting: bool, loaded: seq<(Field, Value)>)

  datatype Step = StoreStep | LoadFlag | LoadField(which: Field)

  function Next(s: Sys, step: Step): Sys {
    match step
    case StoreStep =>
      if s.pending == [] then s
      else
        var entry := Store(s.entry, s.pending[0], s.pc);
        if s.pc < 3 then s.(entry := entry, pc := s.pc + 1)
        else s.(entry := entry, pending := s.pending[1..], pc := 0)
    case LoadFlag => if s.loaded == [] then s.(sawRouting := s.entry.meta.hasRouting) else s
    case LoadField(which) =>
      if s.sawRouting then s.(loaded := s.loaded + [(which, Load(s.entry, which))]) else s
  }

  function Run(s: Sys, steps: seq<Step>): Sys {
    if steps == [] then s else Next(Run(s, steps[..|steps| - 1]), steps[|steps| - 1])
  }

  /** Same decision and side fields; the DSCP of a republication may differ. */
  predicate Agree(a: Fields, b: Fields) {
    a.meta.hasRouting && b.meta.hasRouting && a.mac == b.mac && a.slot == b.slot && a.generation == b.generation
    && a.meta.outbound == b.meta.outbound && a.meta.mark == b.meta.mark && a.meta.must == b.meta.must
  }

  predicate Inv(s: Sys, p: Fields) {
    && (forall i :: 0 <= i < |s.pending| ==> Agree(s.pending[i], p)) && s.pc <= 3
    && (s.pending == [] ==> s.pc == 0)
    && (s.entry.meta.hasRouting ==> Agree(s.entry, p))
    && (s.pc > 0 ==> s.entry.mac == p.mac)
    && (s.pc > 1 ==> s.entry.slot == p.slot)
    && (s.pc > 2 ==> s.entry.generation == p.generation)
    && (s.sawRouting ==> s.entry.meta.hasRouting)
    && (s.loaded != [] ==> s.sawRouting)
    && (forall i :: 0 <= i < |s.loaded| ==> s.loaded[i].1 == Load(p, s.loaded[i].0))
  }

  lemma StepKeepsInv(s: Sys, step: Step, p: Fields)
    requires Inv(s, p)
    ensures Inv(Next(s, step), p)
  {
  }

  lemma {:induction false} RunKeepsInv(s: Sys, steps: seq<Step>, p: Fields)
    requires Inv(s, p)
    ensures Inv(Run(s, steps), p)
    decreases |steps|
  {
    if steps != [] {
      RunKeepsInv(s, steps[..|steps| - 1], p);
      StepKeepsInv(Run(s, steps[..|steps| - 1]), steps[|steps| - 1], p);
    }
  }

  /** Publish ordering. With one publisher per entry, which may publish the same decision
      again, a reader that sees the flag set obtains that decision and its side fields
      whole, in every interleaving. */
  lemma ReadersSeeWholeDecision(blank: Fields, pubs: seq<Fields>, p: Fields, steps: seq<Step>)
    requires !blank.meta.hasRouting && forall i :: 0 <= i < |pubs| ==> Agree(pubs[i], p)
    ensures var s := Run(Sys(blank, pubs, 0, false, []), steps);
            forall i :: 0 <= i < |s.loaded| ==> s.loaded[i].1 == Load(p, s.loaded[i].0)
  {
    RunKeepsInv(Sys(blank, pubs, 0, false, []), steps, p);
  }

  lemma RunSnoc(s: Sys, steps: seq<Step>, step: Step)
    ensures Run(s, steps + [step]) == Next(Run(s, steps), step)
  {
    assert (steps + [step])[..|steps + [step]| - 1] == steps;
  }

  function Stores(n: nat): seq<Step> { if n == 0 then [] else Stores(n - 1) + [StoreStep] }

  /** Publishing the first decision takes four stores. */
  lemma FourStores(s: Sys)
    requires s.pending != [] && s.pc == 0
    ensures Run(s, Stores(4)) == s.(entry := s.pending[0], pending := s.pending[1..])
  {
    var p, f := s.pending[0], s.entry;
    RunSnoc(s, Stores(0), StoreStep);
    assert Run(s, Stores(1)) == s.(entry := f.(mac := p.mac), pc := 1);
    RunSnoc(s, Stores(1), StoreStep);
    assert Run(s, Stores(2)) == s.(entry := f.(mac := p.mac, slot := p.slot), pc := 2);
    RunSnoc(s, Stores(2), StoreStep);
    assert Run(s, Stores(3)) == s.(entry := p.(meta := f.meta), pc := 3);
    RunSnoc(s, Stores(3), StoreStep);
  }

  lemma {:induction false} RunAppend(s: Sys, a: seq<Step>, b: seq<Step>)
    ensures Run(s, a + b) == Run(Run(s, a), b)
    decreases |b|
  {
    if b == [] {
      assert a + b == a;
    } else {
      assert (a + b)[..|a + b| - 1] == a + b[..|b| - 1];
      RunAppend(s, a, b[..|b| - 1]);
    }
  }

  /** A reader that finds the flag set and loads the outbound before the next publisher. */
  lemma FirstLoad(s: Sys) returns (steps: seq<Step>, after: Sys)
    requires s.pending != [] && s.pc == 0 && s.loaded == [] && s.pending[0].meta.hasRouting
    ensures after == Run(s, steps)
    ensures after == s.(entry := s.pending[0], pending := s.pending[1..], sawRouting := true,
                        loaded := [(OutboundField, Number(s.pending[0].meta.outbound))])
  {
    FourStores(s);
    var s1 := s.(entry := s.pending[0], pending := s.pending[1..]);
    RunSnoc(s, Stores(4), LoadFlag);
    assert Run(s, Stores(4) + [LoadFlag]) == Next(s1, LoadFlag) == s1.(sawRouting := true);
    RunSnoc(s, Stores(4) + [LoadFlag], LoadField(OutboundField));
    steps := Stores(4) + [LoadFlag] + [LoadField(OutboundField)];
    after := Run(s, steps);
  }

  /** The hypothesis matters: whenever a second decision differs in both outbound and mark,
      some interleaving shows a reader the outbound of the first with the mark of the
      second. */
  lemma DifferentDecisionsCanTear(blank: Fields, p1: Fields, p2: Fields) returns (steps: seq<Step>)
    requires !blank.meta.hasRouting && p1.meta.hasRouting && p2.meta.hasRouting
    requires p1.meta.outbound != p2.meta.outbound && p1.meta.mark != p2.meta.mark
    ensures var s := Run(Sys(blank, [p1, p2], 0, false, []), steps);
            s.loaded == [(OutboundField, Number(p1.meta.outbound)), (MarkField, Number(p2.meta.mark))]
  {
    var s0 := Sys(blank, [p1, p2], 0, false, []);
    var first, s1 := FirstLoad(s0);
    assert s1.pending == [p2];
    RunAppend(s0, first, Stores(4));
    FourStores(s1);
    RunSnoc(s0, first + Stores(4), LoadField(MarkField));
    steps := first + Stores(4) + [LoadField(MarkField)];
  }
}
