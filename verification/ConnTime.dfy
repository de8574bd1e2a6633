/** Time: how far the lazily updated timestamps lag behind, and exactly when the janitor
    cannot be noticed by packets. */
module ConnTime {
  import opened MatchSets
  import opened RouteEngine
  import opened ConnTrack
  import opened ConnRuns

  /** One monotone clock stamps every event. */
  predicate Monotone(events: seq<Event>) {
    forall i, j :: 0 <= i <= j < |events| ==> TimeOf(events[i]) <= TimeOf(events[j])
  }

  // ----- Lazy timestamps -----

  /** When a packet of the tuple last reached the table. */
  function LastTouch(events: seq<Event>, k: Tuple, n: nat): Option<nat>
    requires n <= |events|
  {
    if n == 0 then None
    else if Touches(events[n - 1], k) then Some(TimeOf(events[n - 1]))
    else LastTouch(events, k, n - 1)
  }

  predicate Recent(o: Option<Conn>, now: nat) { o.Some? ==> now - UPDATE_INTERVAL <= o.value.lastSeen <= now }

  lemma TcpStamps(o: Option<Conn>, p: Packet, e: Env)
    requires o.Some? ==> o.value.lastSeen <= e.now
    ensures Recent(LanTcp(o, p, e).entry, e.now)
    ensures (p.syn ==> !e.controlPlane && e.route.Some?) ==> Recent(WanTcp(o, p, e).entry, e.now)
  {
  }

  lemma UdpStamps(o: Option<Conn>, p: Packet, e: Env)
    requires o.Some? ==> o.value.lastSeen <= e.now
    ensures Recent(LanUdp(o, p, e).entry, e.now)
    ensures !e.controlPlane ==> Recent(WanUdp(o, p, e).entry, e.now)
  {
  }

  lemma TouchStamps(o: Option<Conn>, ev: Event, k: Tuple)
    requires Touches(ev, k) && (o.Some? ==> o.value.lastSeen <= TimeOf(ev))
    ensures Recent(StepKey(o, ev, k), TimeOf(ev))
  {
    TcpStamps(o, ev.p, ev.e);
    UdpStamps(o, ev.p, ev.e);
  }

  lemma OthersLeaveStamp(o: Option<Conn>, ev: Event, k: Tuple)
    requires !Touches(ev, k) && StepKey(o, ev, k).Some?
    ensures StepKey(o, ev, k) == o
  {
  }

  /** Over all runs on one clock, a stored timestamp lags the last packet of its tuple by
      at most one second, and never runs ahead of it. */
  lemma {:induction false} LazyTimestampLag(events: seq<Event>, k: Tuple, n: nat)
    requires Monotone(events) && n <= |events| && At(events, k, n).Some?
    ensures LastTouch(events, k, n).Some?
    ensures var last := LastTouch(events, k, n).value;
            last - UPDATE_INTERVAL <= At(events, k, n).value.lastSeen <= last <= TimeOf(events[n - 1])
    decreases n
  {
    AtZero(events, k);
    AtNext(events, k, n - 1);
    var o, ev := At(events, k, n - 1), events[n - 1];
    if o.Some? {
      LazyTimestampLag(events, k, n - 1);
    }
    if Touches(ev, k) {
      TouchStamps(o, ev, k);
    } else {
      OthersLeaveStamp(o, ev, k);
    }
  }

  /** So a UDP entry is never expired within 119 s of its last packet and always expired
      after 120 s; a CLOSING TCP entry within 9 s and after 10 s; and an ACTIVE TCP entry
      never expires. */
  lemma ExpiryWindow(events: seq<Event>, k: Tuple, n: nat, now: nat)
    requires Monotone(events) && 0 < n <= |events| && At(events, k, n).Some? && TimeOf(events[n - 1]) <= now
    ensures var c := At(events, k, n).value;
            LastTouch(events, k, n).Some? &&
            var idle := now - LastTouch(events, k, n).value;
            if k.proto == UDP then
              (idle <= 119 * SECOND ==> !Expired(k, c, now)) && (idle > 120 * SECOND ==> Expired(k, c, now))
            else if c.state == Closing then
              (idle <= 9 * SECOND ==> !Expired(k, c, now)) && (idle > 10 * SECOND ==> Expired(k, c, now))
            else !Expired(k, c, now)
  {
    LazyTimestampLag(events, k, n);
  }

  // ----- What packets can observe -----

  /** The same packets without the janitor. */
  function Unswept(events: seq<Event>): seq<Event> {
    if events == [] then []
    else
      var init, last := Unswept(events[..|events| - 1]), events[|events| - 1];
      if IsPacket(last) then init + [last] else init
  }

  /** What a packet can observe: its verdict, and the state that its lookup returned. */
  datatype Observation = Observation(verdict: Verdict, state: Option<Conn>)

  function Observe(o: Option<Conn>, ev: Event): Observation
    requires IsPacket(ev)
  {
    var out := EntryStep(o, ev);
    Observation(out.verdict, if Marks(ev) then out.entry else None)
  }

  function Observations(events: seq<Event>): seq<Observation> {
    if events == [] then []
    else
      var init, last := events[..|events| - 1], events[|events| - 1];
      if IsPacket(last) then Observations(init) + [Observe(Row(init, KeyOf(last)), last)] else Observations(init)
  }

  lemma RowSnoc(events: seq<Event>, ev: Event, k: Tuple)
    ensures Row(events + [ev], k) == StepKey(Row(events, k), ev, k)
  {
    assert (events + [ev])[..|events + [ev]| - 1] == events;
    HandleByKey(Run(map[], events), ev, k);
  }

  lemma LastObservation(init: seq<Event>, ev: Event)
    ensures Observations(init + [ev]) ==
            if IsPacket(ev) then Observations(init) + [Observe(Row(init, KeyOf(ev)), ev)] else Observations(init)
  {
    assert (init + [ev])[..|init|] == init;
  }

  lemma UnsweptSnoc(init: seq<Event>, ev: Event)
    ensures Unswept(init + [ev]) == if IsPacket(ev) then Unswept(init) + [ev] else Unswept(init)
  {
    assert (init + [ev])[..|init|] == init;
  }

  // ----- Deletions that cannot be noticed -----

  predicate Sane(k: Tuple, o: Option<Conn>, now: nat) {
    o.Some? ==> o.value.lastSeen <= now && (k.proto == UDP ==> o.value.state == Active)
  }

  /** The swept table may lack an entry that the kernel would treat as expired anyway. */
  predicate Similar(k: Tuple, swept: Option<Conn>, unswept: Option<Conn>, now: nat) {
    && Sane(k, unswept, now)
    && (swept == unswept || (swept.None? && unswept.Some? && Expired(k, unswept.value, now)))
  }

  /** The deletion finds an entry that a lookup would keep. */
  predicate HitsLive(events: seq<Event>, i: nat)
    requires i < |events|
  {
    events[i].Delete? &&
    var o := At(events, events[i].key, i);
    o.Some? && !Expired(events[i].key, o.value, events[i].now)
  }

  predicate OnlyExpiredDeleted(events: seq<Event>) { forall i :: 0 <= i < |events| ==> !HitsLive(events, i) }

  lemma PrefixHits(events: seq<Event>, n: nat, i: nat)
    requires i < n <= |events|
    ensures HitsLive(events[..n], i) == HitsLive(events, i)
  {
    assert events[..n][..i] == events[..i];
  }

  lemma PrefixOnlyExpired(events: seq<Event>, n: nat)
    requires n <= |events| && forall i :: 0 <= i < n ==> !HitsLive(events, i)
    ensures OnlyExpiredDeleted(events[..n])
  {
    forall i | 0 <= i < n
      ensures !HitsLive(events[..n], i)
    {
      PrefixHits(events, n, i);
    }
  }

  lemma PacketKeepsSimilar(k: Tuple, swept: Option<Conn>, unswept: Option<Conn>, before: nat, ev: Event)
    requires IsPacket(ev) && before <= TimeOf(ev) && Similar(k, swept, unswept, before)
    ensures Similar(k, StepKey(swept, ev, k), StepKey(unswept, ev, k), TimeOf(ev))
    ensures KeyOf(ev) == k ==> Observe(swept, ev) == Observe(unswept, ev)
  {
    if KeyOf(ev) == k && swept != unswept {
      ExpiredIsAbsent(k, unswept, ev);
    }
    StepKeepsSane(k, unswept, before, ev);
  }

  lemma TcpKeepsSane(o: Option<Conn>, p: Packet, e: Env)
    requires p.tuple.proto == TCP && Sane(p.tuple, o, e.now)
    ensures Sane(p.tuple, LanTcp(o, p, e).entry, e.now) && Sane(p.tuple, WanTcp(o, p, e).entry, e.now)
  {
  }

  lemma UdpKeepsSane(o: Option<Conn>, p: Packet, e: Env)
    requires p.tuple.proto == UDP && Sane(p.tuple, o, e.now)
    ensures Sane(p.tuple, LanUdp(o, p, e).entry, e.now) && Sane(p.tuple, WanUdp(o, p, e).entry, e.now)
  {
  }

  lemma StepKeepsSane(k: Tuple, o: Option<Conn>, before: nat, ev: Event)
    requires before <= TimeOf(ev) && Sane(k, o, before)
    ensures Sane(k, StepKey(o, ev, k), TimeOf(ev))
  {
    if ev.Forward? && KeyOf(ev) == k {
      if k.proto == TCP { TcpKeepsSane(o, ev.p, ev.e); } else { UdpKeepsSane(o, ev.p, ev.e); }
    }
  }

  /** A lookup treats an expired entry as no entry at all. */
  lemma ExpiredIsAbsent(k: Tuple, o: Option<Conn>, ev: Event)
    requires IsPacket(ev) && KeyOf(ev) == k && o.Some? && Expired(k, o.value, TimeOf(ev))
    ensures EntryStep(o, ev).verdict == EntryStep(None, ev).verdict
    ensures if Marks(ev) then EntryStep(o, ev) == EntryStep(None, ev)
            else EntryStep(o, ev).entry == o && EntryStep(None, ev).entry == None
  {
  }

  /** No later than the clock shows. */
  predicate Before(events: seq<Event>, now: nat) { events != [] ==> TimeOf(events[|events| - 1]) <= now }

  /** One event, on the table with the janitor and on the one without. */
  lemma StepStaysSimilar(k: Tuple, swept: Option<Conn>, unswept: Option<Conn>, ev: Event)
    requires Similar(k, swept, unswept, TimeOf(ev))
    requires ev.Delete? && ev.key == k && swept.Some? ==> Expired(k, swept.value, ev.now)
    ensures Similar(k, StepKey(swept, ev, k), if IsPacket(ev) then StepKey(unswept, ev, k) else unswept, TimeOf(ev))
  {
    if IsPacket(ev) { PacketKeepsSimilar(k, swept, unswept, TimeOf(ev), ev); }
  }

  lemma SimilarLater(k: Tuple, swept: Option<Conn>, unswept: Option<Conn>, before: nat, now: nat)
    requires before <= now && Similar(k, swept, unswept, before)
    ensures Similar(k, swept, unswept, now)
  {
  }

  lemma {:induction false} RunsStaySimilar(events: seq<Event>, k: Tuple, now: nat)
    requires Monotone(events) && OnlyExpiredDeleted(events) && Before(events, now)
    ensures Similar(k, Row(events, k), Row(Unswept(events), k), now)
    decreases |events|
  {
    if events != [] {
      var n := |events| - 1;
      var init, last := events[..n], events[n];
      PrefixOnlyExpired(events, n);
      RunsStaySimilar(init, k, TimeOf(last));
      LastHitsDead(events, k);
      NextRowSimilar(init, last, k, now);
      assert events == init + [last];
    }
  }

  lemma LastHitsDead(events: seq<Event>, k: Tuple)
    requires events != [] && OnlyExpiredDeleted(events)
    ensures var init, last := events[..|events| - 1], events[|events| - 1];
            last.Delete? && last.key == k && Row(init, k).Some? ==> Expired(k, Row(init, k).value, last.now)
  {
    assert !HitsLive(events, |events| - 1);
  }

  lemma NextRowSimilar(init: seq<Event>, last: Event, k: Tuple, now: nat)
    requires TimeOf(last) <= now && Similar(k, Row(init, k), Row(Unswept(init), k), TimeOf(last))
    requires last.Delete? && last.key == k && Row(init, k).Some? ==> Expired(k, Row(init, k).value, last.now)
    ensures Similar(k, Row(init + [last], k), Row(Unswept(init + [last]), k), now)
  {
    StepStaysSimilar(k, Row(init, k), Row(Unswept(init), k), last);
    RowSnoc(init, last, k);
    UnsweptSnoc(init, last);
    if IsPacket(last) { RowSnoc(Unswept(init), last, k); }
    SimilarLater(k, Row(init + [last], k), Row(Unswept(init + [last]), k), TimeOf(last), now);
  }

  /** Sweeps that delete nothing live are not noticed: every packet returns the state and
      the verdict that it returns without the janitor. */
  lemma {:induction false} DeadDeletionsUnnoticed(events: seq<Event>)
    requires Monotone(events) && OnlyExpiredDeleted(events)
    ensures Observations(events) == Observations(Unswept(events))
    decreases |events|
  {
    if events != [] {
      var n := |events| - 1;
      var init, last := events[..n], events[n];
      assert events == init + [last];
      PrefixOnlyExpired(events, n);
      DeadDeletionsUnnoticed(init);
      LastObservation(init, last);
      UnsweptSnoc(init, last);
      if IsPacket(last) {
        var k := KeyOf(last);
        RunsStaySimilar(init, k, TimeOf(last));
        PacketKeepsSimilar(k, Row(init, k), Row(Unswept(init), k), TimeOf(last), last);
        LastObservation(Unswept(init), last);
      }
    }
  }

  // ----- Exactly when the janitor is unobservable -----

  predicate NextPacket(events: seq<Event>, n: nat, ev: Event) {
    n <= |events| && IsPacket(ev) && Before(events[..n], TimeOf(ev))
  }

  predicate Unnoticed(events: seq<Event>, n: nat, ev: Event)
    requires n <= |events|
  {
    Observations(events[..n] + [ev]) == Observations(Unswept(events[..n]) + [ev])
  }

  /** A packet of the tuple that cannot create an entry, so it tells whether there is one. */
  function Probe(k: Tuple, now: nat): Event {
    Forward(Lan, Packet(k, false, false, 0, 0), Env(now, false, 0, None, true, false, None, false, true, true))
  }

  lemma ProbeTells(k: Tuple, c: Conn, now: nat)
    requires !Expired(k, c, now)
    ensures Observe(Some(c), Probe(k, now)) != Observe(None, Probe(k, now))
  {
    assert Observe(None, Probe(k, now)).state.None? && Observe(Some(c), Probe(k, now)).state.Some?;
  }

  /** The first deletion of a live entry is noticed by the next packet of its tuple. */
  lemma FirstLiveNoticed(events: seq<Event>, i: nat, k: Tuple, now: nat)
    requires Monotone(events) && i < |events| && events[i] == Delete(now, k) && HitsLive(events, i)
    requires forall j :: 0 <= j < i ==> !HitsLive(events, j)
    ensures NextPacket(events, i + 1, Probe(k, now)) && !Unnoticed(events, i + 1, Probe(k, now))
  {
    var init, last := events[..i], events[i];
    PrefixOnlyExpired(events, i);
    RunsStaySimilar(init, k, now);
    assert events[..i + 1] == init + [last];
    RowSnoc(init, last, k);
    UnsweptSnoc(init, last);
    ProbeTells(k, Row(init, k).value, now);
    LastDiffers(init + [last], Unswept(init), Probe(k, now));
  }

  lemma {:induction false} LiveDeletionNoticed(events: seq<Event>, i: nat) returns (n: nat, ev: Event)
    requires Monotone(events) && i < |events| && HitsLive(events, i)
    ensures NextPacket(events, n, ev) && !Unnoticed(events, n, ev)
    decreases i
  {
    if j: nat :| j < i && HitsLive(events, j) {
      n, ev := LiveDeletionNoticed(events, j);
    } else {
      FirstLiveNoticed(events, i, events[i].key, events[i].now);
      n, ev := i + 1, Probe(events[i].key, events[i].now);
    }
  }

  lemma LastDiffers(a: seq<Event>, b: seq<Event>, ev: Event)
    requires IsPacket(ev) && Observe(Row(a, KeyOf(ev)), ev) != Observe(Row(b, KeyOf(ev)), ev)
    ensures Observations(a + [ev]) != Observations(b + [ev])
  {
    LastObservation(a, ev);
    LastObservation(b, ev);
    var x, y := Observations(a + [ev]), Observations(b + [ev]);
    assert x[|x| - 1] != y[|y| - 1];
  }

  /** For every run of packets, looks at keys and deletions, in or out of pressure, on any
      clock of the janitor: at no time can a next packet notice that there is a janitor, if
      and only if every deletion finds its entry gone or expired. */
  lemma JanitorUnobservableIff(events: seq<Event>)
    requires Monotone(events)
    ensures (forall n, ev :: NextPacket(events, n, ev) ==> Unnoticed(events, n, ev)) <==> OnlyExpiredDeleted(events)
  {
    if OnlyExpiredDeleted(events) {
      forall n, ev | NextPacket(events, n, ev)
        ensures Unnoticed(events, n, ev)
      {
        NextUnnoticed(events, n, ev);
      }
    } else {
      var i :| 0 <= i < |events| && HitsLive(events, i);
      var n, ev := LiveDeletionNoticed(events, i);
    }
  }

  lemma NextUnnoticed(events: seq<Event>, n: nat, ev: Event)
    requires Monotone(events) && OnlyExpiredDeleted(events) && NextPacket(events, n, ev)
    ensures Unnoticed(events, n, ev)
  {
    var init := events[..n];
    var k := KeyOf(ev);
    PrefixOnlyExpired(events, n);
    DeadDeletionsUnnoticed(init);
    RunsStaySimilar(init, k, TimeOf(ev));
    PacketKeepsSimilar(k, Row(init, k), Row(Unswept(init), k), TimeOf(ev), ev);
    LastObservation(init, ev);
    LastObservation(Unswept(init), ev);
  }

  // ----- Which sweeps delete nothing live -----

  predicate Steady(events: seq<Event>) {
    forall i :: 0 <= i < |events| ==> events[i].Collect? ==> !events[i].inPressure
  }

  /** The janitor's clock is at most `ahead` ahead of the kernel's. A sweep reads it once,
      when it begins, so it may be any time behind. */
  predicate Clocked(events: seq<Event>, ahead: int) {
    forall i :: 0 <= i < |events| ==> events[i].Collect? ==> events[i].stamp <= events[i].now + ahead
  }

  /** The last of the first `i` events that looked at the key and found it expired. */
  function CollectedAt(events: seq<Event>, k: Tuple, i: nat): (j: Option<nat>)
    requires i <= |events|
    ensures j.Some? ==> j.value < i
  {
    if i == 0 then None
    else
      var ev := events[i - 1];
      if ev.Collect? && ev.key == k && Finds(At(events, k, i - 1), k, ev.stamp, ev.inPressure) then Some(i - 1)
      else CollectedAt(events, k, i - 1)
  }

  lemma {:induction false} CollectedFinds(events: seq<Event>, k: Tuple, i: nat)
    requires i <= |events| && CollectedAt(events, k, i).Some?
    ensures var j := CollectedAt(events, k, i).value;
            j < i && events[j].Collect? && events[j].key == k
            && Finds(At(events, k, j), k, events[j].stamp, events[j].inPressure)
  {
    var ev := events[i - 1];
    if !(ev.Collect? && ev.key == k && Finds(At(events, k, i - 1), k, ev.stamp, ev.inPressure)) {
      CollectedFinds(events, k, i - 1);
    }
  }

  /** The packet makes a new entry of the tuple when there is none that is alive. */
  predicate Creates(ev: Event, k: Tuple) { Touches(ev, k) && ev.e.insertOk && (k.proto == TCP ==> ev.p.syn) }

  predicate CreatedBetween(events: seq<Event>, k: Tuple, i: nat, j: nat)
    requires j <= |events|
  {
    exists m :: i < m < j && Creates(events[m], k)
  }

  /** The janitor deletes only keys that it has found expired. */
  predicate DeletesFound(events: seq<Event>) {
    forall i :: 0 <= i < |events| ==> events[i].Delete? ==> CollectedAt(events, events[i].key, i).Some?
  }

  /** No packet creates an entry of a key between its collection and its deletion. */
  predicate Quiet(events: seq<Event>) {
    forall i :: 0 <= i < |events| ==> events[i].Delete? ==>
      var j := CollectedAt(events, events[i].key, i);
      j.Some? ==> !CreatedBetween(events, events[i].key, j.value, i)
  }

  /** On a clock that is not ahead, what a steady look finds is what a lookup would delete. */
  lemma SweptIsExpired(k: Tuple, c: Conn, stamp: nat, now: nat)
    requires stamp <= now && Sane(k, Some(c), now) && JanitorExpired(k, c, stamp, false)
    ensures Expired(k, c, now)
  {
  }

  lemma {:induction false} ReachableSane(events: seq<Event>, k: Tuple, n: nat, now: nat)
    requires Monotone(events) && n <= |events| && (n > 0 ==> TimeOf(events[n - 1]) <= now)
    ensures Sane(k, At(events, k, n), now)
  {
    if n == 0 {
      AtZero(events, k);
    } else {
      ReachableSane(events, k, n - 1, TimeOf(events[n - 1]));
      AtNext(events, k, n - 1);
      StepKeepsSane(k, At(events, k, n - 1), TimeOf(events[n - 1]), events[n - 1]);
    }
  }

  /** Gone, or expired. */
  predicate Dead(o: Option<Conn>, k: Tuple, now: nat) { o.Some? ==> Expired(k, o.value, now) }

  lemma DeadStaysDead(o: Option<Conn>, ev: Event, k: Tuple, before: nat)
    requires before <= TimeOf(ev) && Sane(k, o, before) && Dead(o, k, before) && !Creates(ev, k)
    ensures Dead(StepKey(o, ev, k), k, TimeOf(ev))
  {
  }

  /** What was found expired stays so until a packet creates it anew. */
  lemma {:induction false} FoundStaysDead(events: seq<Event>, k: Tuple, j: nat, i: nat)
    requires Monotone(events) && j < i < |events| && !CreatedBetween(events, k, j, i)
    requires Dead(At(events, k, j), k, TimeOf(events[j])) && events[j].Collect?
    ensures Dead(At(events, k, i), k, TimeOf(events[i]))
    decreases i - j
  {
    var last, before := events[i - 1], TimeOf(events[i - 1]);
    AtNext(events, k, i - 1);
    ReachableSane(events, k, i - 1, before);
    if j < i - 1 {
      assert !CreatedBetween(events, k, j, i - 1);
      FoundStaysDead(events, k, j, i - 1);
      assert !Creates(last, k);
    }
    DeadStaysDead(At(events, k, i - 1), last, k, before);
    ReachableSane(events, k, i, before);
    DeadLater(At(events, k, i), k, before, TimeOf(events[i]));
  }

  lemma DeadLater(o: Option<Conn>, k: Tuple, before: nat, now: nat)
    requires before <= now && Sane(k, o, before) && Dead(o, k, before)
    ensures Dead(o, k, now)
  {
  }

  lemma FoundIsDead(events: seq<Event>, k: Tuple, i: nat) returns (j: nat)
    requires Monotone(events) && Steady(events) && Clocked(events, 0) && i <= |events|
    requires CollectedAt(events, k, i).Some?
    ensures Some(j) == CollectedAt(events, k, i) && events[j].Collect? && Dead(At(events, k, j), k, TimeOf(events[j]))
  {
    j := CollectedAt(events, k, i).value;
    CollectedFinds(events, k, i);
    ReachableSane(events, k, j, events[j].now);
    SweptIsExpired(k, At(events, k, j).value, events[j].stamp, events[j].now);
  }

  /** Steady sweeps on a clock that is not ahead delete nothing live, as long as no packet
      creates an entry of a key between its collection and its deletion. */
  lemma QuietSweepsDeleteDead(events: seq<Event>)
    requires Monotone(events) && Steady(events) && Clocked(events, 0) && DeletesFound(events) && Quiet(events)
    ensures OnlyExpiredDeleted(events)
  {
    forall i | 0 <= i < |events|
      ensures !HitsLive(events, i)
    {
      if events[i].Delete? {
        var k := events[i].key;
        var j := FoundIsDead(events, k, i);
        FoundStaysDead(events, k, j, i);
      }
    }
  }

  /** So they are not noticed. */
  lemma JanitorUnobservable(events: seq<Event>)
    requires Monotone(events) && Steady(events) && Clocked(events, 0) && DeletesFound(events) && Quiet(events)
    ensures Observations(events) == Observations(Unswept(events))
  {
    QuietSweepsDeleteDead(events);
    DeadDeletionsUnnoticed(events);
  }

  // ----- Exactly, for sweeps that are not slow -----

  /** Every deletion follows its collection within nine seconds. */
  predicate Quick(events: seq<Event>) {
    forall i :: 0 <= i < |events| ==> events[i].Delete? ==>
      var j := CollectedAt(events, events[i].key, i);
      j.Some? ==> TimeOf(events[i]) - TimeOf(events[j.value]) <= 9 * SECOND
  }

  predicate TouchedBetween(events: seq<Event>, k: Tuple, i: nat, j: nat)
    requires j <= |events|
  {
    exists m :: i < m < j && Touches(events[m], k)
  }

  /** The deletion finds an entry that a packet has touched since the key was collected. */
  predicate HitsTouched(events: seq<Event>, i: nat)
    requires i < |events|
  {
    events[i].Delete? && At(events, events[i].key, i).Some? &&
    var j := CollectedAt(events, events[i].key, i);
    j.Some? && TouchedBetween(events, events[i].key, j.value, i)
  }

  lemma {:induction false} TouchIsRecent(events: seq<Event>, k: Tuple, m: nat, n: nat)
    requires Monotone(events) && m < n <= |events| && Touches(events[m], k)
    ensures LastTouch(events, k, n).Some? && TimeOf(events[m]) <= LastTouch(events, k, n).value
    decreases n
  {
    if !Touches(events[n - 1], k) { TouchIsRecent(events, k, m, n - 1); }
  }

  lemma {:induction false} UntouchedStays(events: seq<Event>, k: Tuple, j: nat, i: nat)
    requires j <= i <= |events| && At(events, k, i).Some? && forall m :: j <= m < i ==> !Touches(events[m], k)
    ensures At(events, k, i) == At(events, k, j)
    decreases i - j
  {
    if j < i {
      AtNext(events, k, i - 1);
      OthersLeaveStamp(At(events, k, i - 1), events[i - 1], k);
      UntouchedStays(events, k, j, i - 1);
    }
  }

  lemma QuickHitIff(events: seq<Event>, i: nat)
    requires Monotone(events) && Steady(events) && Clocked(events, 0) && DeletesFound(events) && Quick(events)
    requires i < |events| && events[i].Delete?
    ensures HitsLive(events, i) <==> HitsTouched(events, i)
  {
    var k, now := events[i].key, events[i].now;
    var j := FoundIsDead(events, k, i);
    if At(events, k, i).Some? {
      if TouchedBetween(events, k, j, i) {
        var m :| j < m < i && Touches(events[m], k);
        TouchIsRecent(events, k, m, i);
        ExpiryWindow(events, k, i, now);
      } else {
        assert !Touches(events[j], k);
        UntouchedStays(events, k, j, i);
        ReachableSane(events, k, j, events[j].now);
        DeadLater(At(events, k, j), k, events[j].now, now);
      }
    }
  }

  /** Exactly: steady sweeps that take at most nine seconds, on a clock that is not ahead,
      are unobservable if and only if no deletion finds an entry that a packet has touched
      since its key was collected. */
  lemma QuickSweepsUnobservableIff(events: seq<Event>)
    requires Monotone(events) && Steady(events) && Clocked(events, 0) && DeletesFound(events) && Quick(events)
    ensures (forall n, ev :: NextPacket(events, n, ev) ==> Unnoticed(events, n, ev)) <==>
            forall i :: 0 <= i < |events| ==> !HitsTouched(events, i)
  {
    JanitorUnobservableIff(events);
    forall i | 0 <= i < |events|
      ensures HitsLive(events, i) <==> HitsTouched(events, i)
    {
      if events[i].Delete? { QuickHitIff(events, i); }
    }
  }

  // ----- Short runs -----

  lemma UnsweptThree(a: Event, b: Event, c: Event)
    requires IsPacket(a) && !IsPacket(b) && !IsPacket(c)
    ensures Unswept([a] + [b] + [c]) == [a]
  {
    assert [] + [a] == [a];
    UnsweptSnoc([], a);
    UnsweptSnoc([a], b);
    UnsweptSnoc([a] + [b], c);
  }

  lemma UnsweptFive(a: Event, b: Event, c: Event, d: Event, e: Event)
    requires IsPacket(a) && IsPacket(b) && !IsPacket(c) && IsPacket(d) && !IsPacket(e)
    ensures Unswept([a] + [b] + [c] + [d] + [e]) == [a] + [b] + [d]
  {
    assert [] + [a] == [a];
    UnsweptSnoc([], a);
    UnsweptSnoc([a], b);
    UnsweptSnoc([a] + [b], c);
    UnsweptSnoc([a] + [b] + [c], d);
    UnsweptSnoc([a] + [b] + [c] + [d], e);
  }

  /** A look that finds the key is its collection, until a later look finds it again. */
  lemma CollectedByLook(events: seq<Event>, k: Tuple, i: nat)
    requires i < |events| && events[i].Collect? && events[i].key == k
    requires Finds(Row(events[..i], k), k, events[i].stamp, events[i].inPressure)
    ensures CollectedAt(events, k, i + 1) == Some(i)
    ensures i + 1 < |events| && IsPacket(events[i + 1]) ==> CollectedAt(events, k, i + 2) == Some(i)
  {
  }

  // ----- When it is observable: the race -----

  // The surroundings of a LAN packet that is routed to outbound `outbound`.

  function Routing(now: nat, outbound: u8): Env {
    Env(now, true, 0, Some(Decision(outbound, 0, false, 1)), true, false, None, false, true, true)
  }

  function Flow(): Tuple { Tuple(1, 2, 3, 4, TCP) }

  function Syn(now: nat): Event { Forward(Lan, Packet(Flow(), true, false, 0, 0), Routing(now, 2)) }

  function Fin(now: nat): Event { Forward(Lan, Packet(Flow(), false, true, 0, 0), Routing(now, 2)) }

  function Data(now: nat): Event { Forward(Lan, Packet(Flow(), false, false, 0, 0), Routing(now, 2)) }

  function AfterClosing(): nat { TCP_CLOSING_TIMEOUT + 1 }

  /** A connection ends, and ten seconds later its tuple is used again, after the janitor
      has collected its key and before it deletes it. */
  function Reused(): seq<Event> {
    var t := AfterClosing();
    [Syn(0)] + [Fin(0)] + [Collect(t, t, false, Flow())] + [Syn(t)] + [Delete(t, Flow())]
  }

  lemma ReusedRows() returns (closing: Conn, c: Conn)
    ensures var t := AfterClosing();
            && Row([Syn(0)] + [Fin(0)], Flow()) == Some(closing) && Finds(Some(closing), Flow(), t, false)
            && Row([Syn(0)] + [Fin(0)] + [Collect(t, t, false, Flow())] + [Syn(t)], Flow()) == Some(c)
    ensures c.lastSeen == AfterClosing() && c.state == Active
            && Observe(Some(c), Data(AfterClosing())).verdict.Redirect?
  {
    var t, k := AfterClosing(), Flow();
    var a, b := [Syn(0)], [Syn(0)] + [Fin(0)];
    var d := b + [Collect(t, t, false, k)];
    assert [] + a == a && Row([], k) == None;
    RowSnoc([], Syn(0), k);
    RowSnoc(a, Fin(0), k);
    closing := Row(b, k).value;
    RowSnoc(b, Collect(t, t, false, k), k);
    RowSnoc(d, Syn(t), k);
    c := Row(d + [Syn(t)], k).value;
  }

  lemma ReusedUnswept()
    ensures Unswept(Reused()) == [Syn(0)] + [Fin(0)] + [Syn(AfterClosing())]
  {
    var t, k := AfterClosing(), Flow();
    UnsweptFive(Syn(0), Fin(0), Collect(t, t, false, k), Syn(t), Delete(t, k));
  }

  lemma ReusedIsRun()
    ensures Monotone(Reused()) && Steady(Reused()) && Clocked(Reused(), 0)
  {
    assert |Reused()| == 5;
  }

  lemma ReusedIsFound()
    ensures DeletesFound(Reused()) && Quick(Reused())
  {
    var t, k, events := AfterClosing(), Flow(), Reused();
    var closing, c := ReusedRows();
    assert events[..2] == [Syn(0)] + [Fin(0)] && events[2] == Collect(t, t, false, k) && events[3] == Syn(t);
    CollectedByLook(events, k, 2);
    OnlyDeletion(events, 4, 2);
  }

  /** When there is one deletion, and its key was collected at the same time. */
  lemma OnlyDeletion(events: seq<Event>, i: nat, j: nat)
    requires j < i < |events| && events[i].Delete? && CollectedAt(events, events[i].key, i) == Some(j)
    requires TimeOf(events[i]) == TimeOf(events[j]) && forall n :: 0 <= n < |events| && n != i ==> !events[n].Delete?
    ensures DeletesFound(events) && Quick(events)
    ensures i == j + 1 ==> Quiet(events)
  {
  }

  /** A steady sweep on the kernel's own clock that is over in no time deletes the new
      connection's entry, and its data, redirected without the janitor, passes unproxied. */
  lemma ReuseRaceIsObservable()
    ensures var events, data := Reused(), Data(AfterClosing());
            && Monotone(events) && Steady(events) && Clocked(events, 0) && DeletesFound(events) && Quick(events)
            && Observe(Row(events, Flow()), data).verdict == Pass(None)
            && Observe(Row(Unswept(events), Flow()), data).verdict.Redirect?
            && Observations(events + [data]) != Observations(Unswept(events) + [data])
  {
    var t, k, data := AfterClosing(), Flow(), Data(AfterClosing());
    var closing, c := ReusedRows();
    ReusedIsRun();
    ReusedIsFound();
    ReusedUnswept();
    var b := [Syn(0)] + [Fin(0)];
    RowSnoc(b + [Collect(t, t, false, k)] + [Syn(t)], Delete(t, k), k);
    RowSnoc(b, Syn(t), k);
    RowSnoc(b + [Collect(t, t, false, k)], Syn(t), k);
    RowSnoc(b, Collect(t, t, false, k), k);
    assert Row(Unswept(Reused()), k) == Some(c);
    LastDiffers(Reused(), Unswept(Reused()), data);
  }

  // ----- When it is observable: the clock -----

  // A UDP flow whose route changes between two packets.

  function UdpFlow(): Tuple { Tuple(1, 2, 3, 4, UDP) }

  function UdpPacket(now: nat, outbound: u8): Event {
    Forward(Lan, Packet(UdpFlow(), false, false, 0, 0), Routing(now, outbound))
  }

  /** The second packet while the entry of the first is still fresh, but not by the
      janitor's clock. */
  function SecondAt(ahead: nat): nat { if ahead > UDP_TIMEOUT then 0 else UDP_TIMEOUT + 1 - ahead }

  function Look(ahead: nat): Event { Collect(SecondAt(ahead), SecondAt(ahead) + ahead, false, UdpFlow()) }

  /** Found expired by a clock that is ahead, and deleted at once. */
  function Early(ahead: nat): seq<Event> {
    [UdpPacket(0, 2)] + [Look(ahead)] + [Delete(SecondAt(ahead), UdpFlow())]
  }

  lemma EarlyRows(ahead: nat) returns (c: Conn)
    requires ahead > 0
    ensures Row([UdpPacket(0, 2)], UdpFlow()) == Some(c) && Row(Early(ahead), UdpFlow()) == None
    ensures Finds(Some(c), UdpFlow(), SecondAt(ahead) + ahead, false)
    ensures c.lastSeen == 0 && c.meta.hasRouting && c.meta.outbound == 2 && !c.wanIngress
  {
    var k, first := UdpFlow(), UdpPacket(0, 2);
    assert [] + [first] == [first] && Row([], k) == None;
    RowSnoc([], first, k);
    c := Row([first], k).value;
    RowSnoc([first] + [Look(ahead)], Delete(SecondAt(ahead), k), k);
  }

  lemma EarlyIsRun(ahead: nat)
    requires ahead > 0
    ensures var events := Early(ahead) + [UdpPacket(SecondAt(ahead), 3)];
            Monotone(events) && Steady(events) && Clocked(events, ahead) && DeletesFound(events) && Quiet(events)
  {
    var events, k := Early(ahead) + [UdpPacket(SecondAt(ahead), 3)], UdpFlow();
    var c := EarlyRows(ahead);
    assert events[..1] == [UdpPacket(0, 2)] && events[1] == Look(ahead);
    CollectedByLook(events, k, 1);
    OnlyDeletion(events, 2, 1);
  }

  lemma EarlyUnswept(ahead: nat)
    ensures Unswept(Early(ahead)) == [UdpPacket(0, 2)]
  {
    UnsweptThree(UdpPacket(0, 2), Look(ahead), Delete(SecondAt(ahead), UdpFlow()));
  }

  lemma SecondObserves(c: Conn, now: nat)
    requires c.lastSeen == 0 && c.meta.hasRouting && c.meta.outbound == 2 && !c.wanIngress && now <= UDP_TIMEOUT
    ensures Observe(None, UdpPacket(now, 3)) != Observe(Some(c), UdpPacket(now, 3))
  {
    var second := UdpPacket(now, 3);
    assert Observe(None, second).verdict == Redirect(Handoff(3, 0, false, 1, 0));
    assert Observe(Some(c), second).verdict.Redirect? && Observe(Some(c), second).verdict.handoff.outbound == 2;
  }

  lemma EarlyObserved(ahead: nat)
    requires ahead > 0
    ensures var events := Early(ahead) + [UdpPacket(SecondAt(ahead), 3)];
            Observations(events) != Observations(Unswept(events))
  {
    var second := UdpPacket(SecondAt(ahead), 3);
    var c := EarlyRows(ahead);
    EarlyUnswept(ahead);
    UnsweptSnoc(Early(ahead), second);
    SecondObserves(c, SecondAt(ahead));
    LastDiffers(Early(ahead), [UdpPacket(0, 2)], second);
  }

  /** The runs in which the janitor deletes what it found, out of pressure, with its clock at
      most `ahead` ahead and no packet creating a key between collection and deletion. */
  predicate OrderlyRun(events: seq<Event>, ahead: int) {
    Monotone(events) && Steady(events) && Clocked(events, ahead) && DeletesFound(events) && Quiet(events)
  }

  /** The source reads the wall clock in the janitor and the boot clock in the kernel. All
      such runs observe what they observe without the janitor if and only if its clock is
      not ahead. */
  lemma JanitorUnobservableIffClockNotAhead(ahead: int)
    ensures (forall events :: OrderlyRun(events, ahead) ==> Observations(events) == Observations(Unswept(events)))
            <==> ahead <= 0
  {
    if ahead > 0 {
      EarlyIsRun(ahead);
      EarlyObserved(ahead);
      assert OrderlyRun(Early(ahead) + [UdpPacket(SecondAt(ahead), 3)], ahead);
    } else {
      forall events | OrderlyRun(events, ahead)
        ensures Observations(events) == Observations(Unswept(events))
      {
        assert Clocked(events, 0);
        JanitorUnobservable(events);
      }
    }
  }

  /** With more than two minutes between the clocks, as between wall clock and boot clock, a
      steady sweep finds every UDP entry and every closing TCP entry expired, however fresh. */
  lemma FarAheadDeletesAll(k: Tuple, c: Conn, now: nat, ahead: int)
    requires Sane(k, Some(c), now) && ahead > UDP_TIMEOUT && (k.proto == UDP || c.state == Closing)
    ensures JanitorExpired(k, c, now + ahead, false)
  {
  }

  // ----- When it is observable: pressure -----

  /** Under pressure the janitor finds an entry that a lookup would keep exactly when it is
      an ACTIVE TCP entry that has been idle for more than ten minutes. */
  lemma PressureDeletesLiveIff(k: Tuple, c: Conn, now: nat)
    requires Sane(k, Some(c), now)
    ensures JanitorExpired(k, c, now, true) && !Expired(k, c, now)
            <==> k.proto == TCP && c.state == Active && now - c.lastSeen > TCP_ACTIVE_PRESSURE_TIMEOUT
  {
  }

  function TenIdleMinutes(): nat { TCP_ACTIVE_PRESSURE_TIMEOUT + 1 }

  function PressureSweep(): seq<Event> {
    var t := TenIdleMinutes();
    [Syn(0)] + [Collect(t, t, true, Flow())] + [Delete(t, Flow())]
  }

  lemma PressureRows() returns (c: Conn)
    ensures Row([Syn(0)], Flow()) == Some(c) && Finds(Some(c), Flow(), TenIdleMinutes(), true)
    ensures Row(PressureSweep(), Flow()) == None && Observe(Some(c), Data(TenIdleMinutes())).verdict.Redirect?
  {
    var t, k := TenIdleMinutes(), Flow();
    assert [] + [Syn(0)] == [Syn(0)] && Row([], k) == None;
    RowSnoc([], Syn(0), k);
    c := Row([Syn(0)], k).value;
    RowSnoc([Syn(0)] + [Collect(t, t, true, k)], Delete(t, k), k);
  }

  /** A pressure sweep is observable: a proxied flow idle for ten minutes is redirected
      without it and passes unproxied after it. */
  lemma PressureSweepIsObservable()
    ensures var events, data := PressureSweep(), Data(TenIdleMinutes());
            && Monotone(events) && Clocked(events, 0) && DeletesFound(events) && Quiet(events)
            && Observe(Row(events, Flow()), data).verdict == Pass(None)
            && Observe(Row(Unswept(events), Flow()), data).verdict.Redirect?
  {
    var t, k, events := TenIdleMinutes(), Flow(), PressureSweep();
    var c := PressureRows();
    assert events[..1] == [Syn(0)] && events[1] == Collect(t, t, true, k);
    CollectedByLook(events, k, 1);
    OnlyDeletion(events, 2, 1);
    UnsweptThree(Syn(0), Collect(t, t, true, k), Delete(t, k));
  }
}
