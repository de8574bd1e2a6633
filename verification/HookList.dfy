/** The list of attached programs, and detaching those of one interface. */
module HookList {
  datatype Hook = Hook(iface: string, program: string, link: nat)

  /** The positions of an interface's hooks, ascending. */
  predicate Positions(hooks: seq<Hook>, iface: string, at: seq<nat>, upTo: nat) {
    && upTo <= |hooks|
    && (forall i, j :: 0 <= i < j < |at| ==> at[i] < at[j])
    && (forall p :: p in at ==> p < upTo && hooks[p].iface == iface)
    && (forall p: nat :: p < upTo && hooks[p].iface == iface ==> p in at)
  }

  /** `swap_remove`: the last element takes the place of the removed one. */
  function SwapRemove(hooks: seq<Hook>, i: nat): (rest: seq<Hook>)
    requires i < |hooks|
  {
    var last := hooks[|hooks| - 1];
    if i == |hooks| - 1 then hooks[..i] else hooks[..i] + [last] + hooks[i + 1..|hooks| - 1]
  }

  lemma SwapRemoveKeepsOthers(hooks: seq<Hook>, i: nat)
    requires i < |hooks|
    ensures multiset(SwapRemove(hooks, i)) + multiset{hooks[i]} == multiset(hooks)
            && |SwapRemove(hooks, i)| == |hooks| - 1
  {
    var last := |hooks| - 1;
    if i == last {
      assert hooks == hooks[..i] + [hooks[i]];
    } else {
      assert hooks == hooks[..i] + [hooks[i]] + hooks[i + 1..last] + [hooks[last]];
    }
  }

  lemma SwapRemoveKeepsPrefix(hooks: seq<Hook>, i: nat)
    requires i < |hooks|
    ensures var rest := SwapRemove(hooks, i);
            |rest| == |hooks| - 1 && rest[..i] == hooks[..i] && forall h :: h in rest[i..] ==> h in hooks[i + 1..]
  {
    var rest, last := SwapRemove(hooks, i), |hooks| - 1;
    forall h | h in rest[i..]
      ensures h in hooks[i + 1..]
    {
      var p :| i <= p < |rest| && rest[p] == h;
      assert h == if p == i then hooks[last] else hooks[p];
    }
  }

  class EbpfManager {
    var hooks: seq<Hook>

    /** Finds the positions first, then removes from the highest down. The hooks detached
        are exactly those of the interface, once each; the others all stay. */
    method DetachByIface(iface: string) returns (detached: seq<Hook>)
      modifies this
      ensures multiset(hooks) + multiset(detached) == multiset(old(hooks))
      ensures forall h :: h in detached ==> h.iface == iface
      ensures forall h :: h in hooks ==> h.iface != iface
      ensures forall h: Hook :: multiset(hooks)[h] == if h.iface == iface then 0 else multiset(old(hooks))[h]
    {
      var at := Find(iface);
      detached := [];
      ghost var untouched: nat := |hooks|;
      var k: nat := |at|;
      assert at[..k] == at;
      while k > 0
        invariant k <= |at| && untouched <= |hooks| <= |old(hooks)| && hooks[..untouched] == old(hooks)[..untouched]
        invariant Positions(old(hooks), iface, at[..k], untouched)
        invariant forall h :: h in hooks[untouched..] ==> h.iface != iface
        invariant forall h :: h in detached ==> h.iface == iface
        invariant multiset(hooks) + multiset(detached) == multiset(old(hooks))
      {
        k := k - 1;
        var i := at[k];
        StepDown(old(hooks), iface, at, k, untouched);
        Below(old(hooks), hooks, iface, i, untouched);
        SwapRemoveKeepsOthers(hooks, i);
        SwapRemoveKeepsPrefix(hooks, i);
        detached := detached + [hooks[i]];
        hooks := SwapRemove(hooks, i);
        untouched := i;
      }
      Untouched(old(hooks), hooks, iface, untouched);
      Counts(old(hooks), hooks, detached, iface);
    }

    method Find(iface: string) returns (at: seq<nat>)
      ensures Positions(hooks, iface, at, |hooks|)
    {
      at := [];
      for i := 0 to |hooks|
        invariant Positions(hooks, iface, at, i)
      {
        PositionsStep(hooks, iface, at, i);
        if hooks[i].iface == iface {
          at := at + [i];
        }
      }
    }
  }

  lemma PositionsStep(hooks: seq<Hook>, iface: string, at: seq<nat>, i: nat)
    requires i < |hooks| && Positions(hooks, iface, at, i)
    ensures Positions(hooks, iface, if hooks[i].iface == iface then at + [i] else at, i + 1)
  {
    var longer := at + [i];
    assert forall p :: p in longer <==> p in at || p == i;
    forall j | 0 <= j < |at|
      ensures longer[j] == at[j] && at[j] < i
    {
      assert at[j] in at;
    }
  }

  /** Above its highest position an interface has no hooks. */
  lemma StepDown(hooks: seq<Hook>, iface: string, at: seq<nat>, k: nat, upTo: nat)
    requires k < |at| && Positions(hooks, iface, at[..k + 1], upTo)
    ensures at[k] < upTo && hooks[at[k]].iface == iface && Positions(hooks, iface, at[..k], at[k])
    ensures forall p :: at[k] < p < upTo ==> hooks[p].iface != iface
  {
    var all, some := at[..k + 1], at[..k];
    assert all[k] == at[k] && at[k] in all && all == some + [at[k]];
    forall p | p in some
      ensures p < at[k]
    {
      var i :| 0 <= i < |some| && some[i] == p;
      assert all[i] == p;
    }
  }

  lemma Below(before: seq<Hook>, now: seq<Hook>, iface: string, i: nat, upTo: nat)
    requires i < upTo <= |before| && upTo <= |now| && now[..upTo] == before[..upTo]
    requires forall p :: i < p < upTo ==> before[p].iface != iface
    requires forall h :: h in now[upTo..] ==> h.iface != iface
    ensures now[i] == before[i] && now[..i] == before[..i] && forall h :: h in now[i + 1..] ==> h.iface != iface
  {
    assert now[i] == now[..upTo][i] && now[..i] == now[..upTo][..i] && before[..i] == before[..upTo][..i];
    forall h | h in now[i + 1..]
      ensures h.iface != iface
    {
      var p :| i + 1 <= p < |now| && now[p] == h;
      if p < upTo {
        assert now[..upTo][p] == before[..upTo][p] == before[p];
      } else {
        assert now[upTo..][p - upTo] == h;
      }
    }
  }

  lemma Untouched(before: seq<Hook>, now: seq<Hook>, iface: string, upTo: nat)
    requires upTo <= |before| && upTo <= |now| && now[..upTo] == before[..upTo] && Positions(before, iface, [], upTo)
    requires forall h :: h in now[upTo..] ==> h.iface != iface
    ensures forall h :: h in now ==> h.iface != iface
  {
    forall h | h in now
      ensures h.iface != iface
    {
      var p :| 0 <= p < |now| && now[p] == h;
      if p < upTo {
        assert now[..upTo][p] == before[..upTo][p] == before[p];
      } else {
        assert now[upTo..][p - upTo] == h;
      }
    }
  }

  lemma Counts(before: seq<Hook>, now: seq<Hook>, detached: seq<Hook>, iface: string)
    requires multiset(now) + multiset(detached) == multiset(before)
    requires (forall h :: h in detached ==> h.iface == iface) && forall h :: h in now ==> h.iface != iface
    ensures forall h: Hook :: multiset(now)[h] == if h.iface == iface then 0 else multiset(before)[h]
  {
    forall h: Hook
      ensures multiset(now)[h] == if h.iface == iface then 0 else multiset(before)[h]
    {
      assert multiset(now)[h] + multiset(detached)[h] == multiset(before)[h];
      assert h.iface == iface ==> h !in multiset(now);
      assert h.iface != iface ==> h !in multiset(detached);
    }
  }
}
