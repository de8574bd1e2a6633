/** The interface monitor with one registered pattern: what it binds and unbinds over
    every sequence of scans and callback failures. */
module InterfaceMonitor {
  import opened MatchSets

  datatype Matcher = Auto | Named(matches: string -> bool)

  /** A bind callback with its result, or a dispatched unbind. */
  datatype Event = Bind(name: string, ok: bool) | Unbind(name: string)

  function Names(s: seq<string>): set<string> { set n | n in s }

  predicate Distinct(s: seq<string>) { forall i, j :: 0 <= i < j < |s| ==> s[i] != s[j] }

  // ----- Alternation -----

  /** One event, in turn or not: a bind needs an unbound interface, an unbind a bound one. */
  function Turn(bound: Option<set<string>>, e: Event): Option<set<string>> {
    if bound.None? || (e.name in bound.value) == e.Bind? then None
    else if e.Unbind? then Some(bound.value - {e.name})
    else Some(if e.ok then bound.value + {e.name} else bound.value)
  }

  /** The interfaces bound after the events; nothing if some event came out of turn. */
  function Replay(log: seq<Event>): Option<set<string>> {
    if |log| == 0 then Some({}) else Turn(Replay(log[..|log| - 1]), log[|log| - 1])
  }

  lemma ReplayOne(log: seq<Event>, e: Event)
    ensures Replay(log + [e]) == Turn(Replay(log), e)
  {
    assert (log + [e])[..|log|] == log;
  }

  /** A successful bind or an unbind of the interface. */
  predicate Switches(e: Event, name: string) { e == Bind(name, true) || e == Unbind(name) }

  /** The last switch of an interface. */
  function LastSwitch(log: seq<Event>, name: string): Option<Event> {
    if |log| == 0 then None
    else if Switches(log[|log| - 1], name) then Some(log[|log| - 1])
    else LastSwitch(log[..|log| - 1], name)
  }

  /** Successful binds and unbinds of each interface strictly alternate, bind first. */
  predicate Alternates(log: seq<Event>, name: string) {
    |log| == 0 ||
    (Alternates(log[..|log| - 1], name)
     && (Switches(log[|log| - 1], name) ==>
           (log[|log| - 1].Bind? <==> LastSwitch(log[..|log| - 1], name) != Some(Bind(name, true)))))
  }

  lemma {:induction false} ReplayAlternates(log: seq<Event>, name: string)
    requires Replay(log).Some?
    ensures Alternates(log, name)
    ensures name in Replay(log).value <==> LastSwitch(log, name) == Some(Bind(name, true))
  {
    if |log| > 0 {
      ReplayAlternates(log[..|log| - 1], name);
    }
  }

  // ----- One scan -----

  /** The interfaces that should be bound. */
  function Wanted(matcher: Matcher, links: seq<string>, targets: seq<string>): set<string> {
    if matcher.Auto? then Names(targets) else set n | n in links && matcher.matches(n)
  }

  /** What is bound after a scan: what still should be, and what binds now. */
  function Next(bound: set<string>, wanted: set<string>, ok: string -> bool): set<string> {
    bound * wanted + set n | n in wanted - bound && ok(n)
  }

  function Binds(names: seq<string>, ok: string -> bool): seq<Event> {
    if |names| == 0 then []
    else Binds(names[..|names| - 1], ok) + [Bind(names[|names| - 1], ok(names[|names| - 1]))]
  }

  function Unbinds(names: seq<string>): seq<Event> {
    if |names| == 0 then [] else Unbinds(names[..|names| - 1]) + [Unbind(names[|names| - 1])]
  }

  function Failing(names: seq<string>, ok: string -> bool): set<string> { set n | n in names && !ok(n) }

  function Succeeding(names: seq<string>, ok: string -> bool): set<string> { set n | n in names && ok(n) }

  lemma SplitLast(names: seq<string>, ok: string -> bool)
    requires |names| > 0 && Distinct(names)
    ensures var prefix, last := names[..|names| - 1], names[|names| - 1];
            && Distinct(prefix) && last !in Names(prefix) && Names(names) == Names(prefix) + {last}
            && Succeeding(names, ok) == Succeeding(prefix, ok) + if ok(last) then {last} else {}
  {
    var prefix, last := names[..|names| - 1], names[|names| - 1];
    assert names == prefix + [last];
    assert forall n :: n in names <==> n in prefix || n == last;
  }

  /** Binding names that are not bound, each once, is in turn. */
  lemma {:induction false} ReplayBinds(log: seq<Event>, names: seq<string>, ok: string -> bool)
    requires Replay(log).Some? && Distinct(names) && Names(names) !! Replay(log).value
    ensures Replay(log + Binds(names, ok)) == Some(Replay(log).value + Succeeding(names, ok))
  {
    if |names| == 0 {
      assert log + Binds(names, ok) == log && Replay(log).value + Succeeding(names, ok) == Replay(log).value;
    } else {
      var prefix, last := names[..|names| - 1], names[|names| - 1];
      SplitLast(names, ok);
      ReplayBinds(log, prefix, ok);
      assert log + Binds(names, ok) == (log + Binds(prefix, ok)) + [Bind(last, ok(last))];
      ReplayOne(log + Binds(prefix, ok), Bind(last, ok(last)));
      var r, s := Replay(log).value, Succeeding(prefix, ok);
      assert last in Names(names) && last !in r + s;
      assert (if ok(last) then r + s + {last} else r + s) == r + Succeeding(names, ok);
    }
  }

  /** Unbinding bound names, each once, is in turn. */
  lemma {:induction false} ReplayUnbinds(log: seq<Event>, names: seq<string>)
    requires Replay(log).Some? && Distinct(names) && Names(names) <= Replay(log).value
    ensures Replay(log + Unbinds(names)) == Some(Replay(log).value - Names(names))
  {
    if |names| == 0 {
      assert log + Unbinds(names) == log && Replay(log).value - Names(names) == Replay(log).value;
    } else {
      var prefix, last := names[..|names| - 1], names[|names| - 1];
      SplitLast(names, _ => true);
      ReplayUnbinds(log, prefix);
      assert log + Unbinds(names) == (log + Unbinds(prefix)) + [Unbind(last)];
      ReplayOne(log + Unbinds(prefix), Unbind(last));
      var r := Replay(log).value;
      assert last in Names(names) && last in r - Names(prefix);
      assert r - Names(prefix) - {last} == r - Names(names);
    }
  }

  /** A scan: bind what is wanted and not bound, then unbind what is bound and not
      wanted. Every event is in turn and the bound set is `Next`. */
  lemma ScanKeepsTurns(
    log: seq<Event>, binds: seq<string>, unbinds: seq<string>, bound: set<string>, wanted: set<string>,
    ok: string -> bool)
    requires Replay(log) == Some(bound) && Distinct(binds) && Distinct(unbinds)
    requires Names(binds) == wanted - bound && Names(unbinds) == bound - wanted
    ensures Replay(log + Binds(binds, ok) + Unbinds(unbinds)) == Some(Next(bound, wanted, ok))
  {
    ReplayBinds(log, binds, ok);
    ReplayUnbinds(log + Binds(binds, ok), unbinds);
    assert forall n :: n in binds <==> n in Names(binds);
    assert bound + Succeeding(binds, ok) - Names(unbinds) == Next(bound, wanted, ok);
  }

  lemma FailuresForgotten(
    bound: set<string>, wanted: set<string>, binds: seq<string>, unbinds: set<string>, ok: string -> bool)
    requires Names(binds) == wanted - bound && unbinds == bound - wanted
    ensures bound + Names(binds) - unbinds - Failing(binds, ok) == Next(bound, wanted, ok)
  {
    assert forall n :: n in binds <==> n in Names(binds);
  }

  /** After a scan in which every bind succeeded, exactly the wanted interfaces are bound. */
  lemma CleanScanBindsWanted(bound: set<string>, wanted: set<string>, ok: string -> bool)
    ensures Next(bound, wanted, ok) == wanted <==> forall n :: n in wanted - bound ==> ok(n)
  {
    if Next(bound, wanted, ok) == wanted {
      forall n | n in wanted - bound
        ensures ok(n)
      {
        assert n in Next(bound, wanted, ok);
      }
    }
  }

  /** With a pattern, an interface is bound after a scan exactly when it exists, matches, and
      was bound before or binds now; without one, when the targets name it. */
  lemma ScanBindsIff(
    bound: set<string>, matcher: Matcher, links: seq<string>, targets: seq<string>, ok: string -> bool, name: string)
    ensures name in Next(bound, Wanted(matcher, links, targets), ok) <==>
            && (if matcher.Auto? then name in targets else name in links && matcher.matches(name))
            && (name in bound || ok(name))
  {
    assert name in Names(targets) <==> name in targets;
  }

  /** A scan of a run, with what it dispatched. */
  datatype Scanned = Scanned(wanted: set<string>, ok: string -> bool, binds: seq<string>, unbinds: seq<string>)

  function BoundAfter(scans: seq<Scanned>): set<string> {
    if |scans| == 0 then {}
    else Next(BoundAfter(scans[..|scans| - 1]), scans[|scans| - 1].wanted, scans[|scans| - 1].ok)
  }

  function LogAfter(scans: seq<Scanned>): seq<Event> {
    if |scans| == 0 then []
    else
      var last := scans[|scans| - 1];
      LogAfter(scans[..|scans| - 1]) + Binds(last.binds, last.ok) + Unbinds(last.unbinds)
  }

  /** Each scan dispatched what `Register` and `Scan` promise to dispatch. */
  predicate Dispatched(scans: seq<Scanned>) {
    |scans| == 0 ||
    var bound, last := BoundAfter(scans[..|scans| - 1]), scans[|scans| - 1];
    && Dispatched(scans[..|scans| - 1]) && Distinct(last.binds) && Distinct(last.unbinds)
    && Names(last.binds) == last.wanted - bound && Names(last.unbinds) == bound - last.wanted
  }

  /** Over every run, whatever is wanted and whichever callbacks fail: successful binds and
      unbinds alternate for every interface, and an interface is bound exactly when its
      last switch was a bind. */
  lemma {:induction false} RunsAlternate(scans: seq<Scanned>, name: string)
    requires Dispatched(scans)
    ensures Replay(LogAfter(scans)) == Some(BoundAfter(scans)) && Alternates(LogAfter(scans), name)
    ensures name in BoundAfter(scans) <==> LastSwitch(LogAfter(scans), name) == Some(Bind(name, true))
  {
    if |scans| > 0 {
      var prefix, last := scans[..|scans| - 1], scans[|scans| - 1];
      RunsAlternate(prefix, name);
      ScanKeepsTurns(LogAfter(prefix), last.binds, last.unbinds, BoundAfter(prefix), last.wanted, last.ok);
    }
    ReplayAlternates(LogAfter(scans), name);
  }

  class Monitor {
    const matcher: Matcher
    var tracked: set<string>
    var autoBound: set<string>
    var log: seq<Event>

    ghost predicate Valid()
      reads this
    {
      && Replay(log) == Some(Bound())
      && (matcher.Named? ==> autoBound == {} && forall n :: n in tracked ==> matcher.matches(n))
    }

    function Bound(): set<string>
      reads this
    {
      if matcher.Auto? then autoBound else tracked
    }

    constructor (matcher: Matcher)
      ensures Valid() && this.matcher == matcher && log == [] && tracked == {} && autoBound == {}
    {
      this.matcher := matcher;
      tracked, autoBound, log := {}, {}, [];
    }

    /** Calls the bind callbacks; a name whose callback fails is forgotten. */
    method DispatchBinds(pending: seq<string>, ok: string -> bool)
      modifies this
      ensures log == old(log) + Binds(pending, ok)
      ensures tracked == old(tracked) - Failing(pending, ok)
      ensures autoBound == old(autoBound) - Failing(pending, ok)
    {
      assert log + Binds(pending[..0], ok) == log;
      for i := 0 to |pending|
        invariant log == old(log) + Binds(pending[..i], ok)
        invariant tracked == old(tracked) - Failing(pending[..i], ok)
        invariant autoBound == old(autoBound) - Failing(pending[..i], ok)
      {
        var name := pending[i];
        assert pending[..i + 1][..i] == pending[..i];
        log := log + [Bind(name, ok(name))];
        if !ok(name) {
          tracked := tracked - {name};
          autoBound := autoBound - {name};
        }
      }
      assert pending[..|pending|] == pending;
    }

    method DispatchUnbinds(pending: seq<string>)
      modifies `log
      ensures log == old(log) + Unbinds(pending)
    {
      assert log + Unbinds(pending[..0]) == log;
      for i := 0 to |pending|
        invariant log == old(log) + Unbinds(pending[..i])
      {
        assert pending[..i + 1][..i] == pending[..i];
        log := log + [Unbind(pending[i])];
      }
      assert pending[..|pending|] == pending;
    }

    /** Registering the pattern: bind everything wanted now. */
    method Register(links: seq<string>, targets: seq<string>, ok: string -> bool) returns (binds: seq<string>)
      requires Valid() && log == [] && tracked == {} && autoBound == {} && Distinct(links) && Distinct(targets)
      modifies this
      ensures Valid() && Distinct(binds) && Names(binds) == Wanted(matcher, links, targets)
      ensures log == Binds(binds, ok) && Bound() == Next({}, Wanted(matcher, links, targets), ok)
    {
      ghost var wanted := Wanted(matcher, links, targets);
      binds := Enrol(links, targets);
      assert Names(binds) == wanted - {};
      FailuresForgotten({}, wanted, binds, {}, ok);
      ScanKeepsTurns([], binds, [], {}, wanted, ok);
      DispatchBinds(binds, ok);
      assert [] + Binds(binds, ok) + Unbinds([]) == Binds(binds, ok) == log;
      assert Bound() == {} + Names(binds) - {} - Failing(binds, ok);
    }

    /** Everything wanted now is tracked before its callback runs. */
    method Enrol(links: seq<string>, targets: seq<string>) returns (binds: seq<string>)
      requires tracked == {} && autoBound == {} && Distinct(links) && Distinct(targets)
      modifies `tracked, `autoBound
      ensures Distinct(binds) && Names(binds) == Wanted(matcher, links, targets) && Bound() == Names(binds)
      ensures matcher.Named? ==> autoBound == {} && forall n :: n in tracked ==> matcher.matches(n)
    {
      if matcher.Auto? {
        binds := targets;
        autoBound := autoBound + Names(targets);
        tracked := tracked + Names(targets);
      } else {
        binds := NewLinks(links);
        tracked := tracked + Names(binds);
      }
    }

    /** The links that match a name pattern and are not tracked yet. */
    method NewLinks(links: seq<string>) returns (fresh_: seq<string>)
      requires matcher.Named? && Distinct(links)
      ensures Distinct(fresh_) && Names(fresh_) == (set n | n in links && matcher.matches(n)) - tracked
    {
      fresh_ := [];
      for i := 0 to |links|
        invariant Distinct(fresh_) && forall n :: n in fresh_ <==>
                  n in links[..i] && matcher.matches(n) && n !in tracked
      {
        assert links[..i + 1] == links[..i] + [links[i]];
        if links[i] !in tracked && matcher.matches(links[i]) {
          assert links[i] !in links[..i];
          fresh_ := fresh_ + [links[i]];
        }
      }
      assert links[..|links|] == links;
    }

    /** The names of a set, each once, in some order. */
    method Listed(names: set<string>) returns (s: seq<string>)
      ensures Distinct(s) && Names(s) == names
    {
      s := [];
      var rest := names;
      while rest != {}
        invariant rest <= names && Distinct(s) && Names(s) == names - rest
        decreases rest
      {
        var n :| n in rest;
        assert n !in Names(s);
        assert Names(s + [n]) == Names(s) + {n};
        s := s + [n];
        rest := rest - {n};
      }
    }

    /** The default-route interfaces that are not bound yet. */
    method NewTargets(targets: seq<string>) returns (added: seq<string>)
      requires Distinct(targets)
      ensures Distinct(added) && Names(added) == Names(targets) - autoBound
    {
      added := [];
      for i := 0 to |targets|
        invariant Distinct(added) && forall n :: n in added <==> n in targets[..i] && n !in autoBound
      {
        assert targets[..i + 1] == targets[..i] + [targets[i]];
        if targets[i] !in autoBound {
          assert targets[i] !in targets[..i];
          added := added + [targets[i]];
        }
      }
      assert targets[..|targets|] == targets;
    }

    /** One scan, with `links` the present interfaces, `targets` those that carry the
        default route, and `ok` telling which bind callbacks succeed. It binds exactly
        what is wanted and not bound, once each, and unbinds exactly what is bound and
        not wanted, once each. */
    method Scan(links: seq<string>, targets: seq<string>, ok: string -> bool)
      returns (binds: seq<string>, unbinds: seq<string>)
      requires Valid() && Distinct(links) && Distinct(targets)
      modifies this
      ensures Valid() && Distinct(binds) && Distinct(unbinds)
      ensures Names(binds) == Wanted(matcher, links, targets) - old(Bound())
      ensures Names(unbinds) == old(Bound()) - Wanted(matcher, links, targets)
      ensures log == old(log) + Binds(binds, ok) + Unbinds(unbinds)
      ensures Bound() == Next(old(Bound()), Wanted(matcher, links, targets), ok)
    {
      ghost var bound, wanted := Bound(), Wanted(matcher, links, targets);
      if matcher.Named? {
        binds := NewLinks(links);
        tracked := tracked + Names(binds);
        unbinds := [];
      } else {
        binds := NewTargets(targets);
        autoBound := autoBound + Names(binds);
        tracked := tracked + Names(binds);
        unbinds := Listed(autoBound - Names(targets));
        autoBound := autoBound - Names(unbinds);
      }
      var gone := Listed(tracked - Names(links));
      tracked := tracked - Names(gone);
      if matcher.Named? {
        unbinds := gone;
      }
      assert Names(binds) == wanted - bound && Names(unbinds) == bound - wanted;
      FailuresForgotten(bound, wanted, binds, Names(unbinds), ok);
      ScanKeepsTurns(log, binds, unbinds, bound, wanted, ok);
      assert Bound() == bound + Names(binds) - Names(unbinds);
      DispatchBinds(binds, ok);
      DispatchUnbinds(unbinds);
    }
  }
}
