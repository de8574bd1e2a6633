/** When the janitor runs in pressure mode: it enters above 70 % usage of the connection
    map and leaves after three rounds in a row below 50 %. */
module PressureMode {
  import opened MatchSets

  const PRESSURE_ENTER_USAGE: real := 0.70
  const PRESSURE_EXIT_USAGE: real := 0.50
  const PRESSURE_EXIT_ROUNDS: nat := 3

  datatype Mode = Mode(inPressure: bool, rounds: nat)

  /** One round, with the usage it measured; nothing when the scan or the measurement failed. */
  function Round(m: Mode, usage: Option<real>): Mode {
    if usage.None? then m
    else if m.inPressure then
      if usage.value >= PRESSURE_EXIT_USAGE then m.(rounds := 0)
      else Mode(m.rounds + 1 < PRESSURE_EXIT_ROUNDS, m.rounds + 1)
    else if usage.value > PRESSURE_ENTER_USAGE then Mode(true, 0)
    else m
  }

  class Janitor {
    var inPressure: bool
    var pressureRounds: nat

    constructor ()
      ensures !inPressure && pressureRounds == 0
    {
      inPressure, pressureRounds := false, 0;
    }

    method Observe(usage: Option<real>)
      modifies this
      ensures Mode(inPressure, pressureRounds) == Round(old(Mode(inPressure, pressureRounds)), usage)
    {
      if usage.None? {
        return;
      }
      if inPressure {
        if usage.value < PRESSURE_EXIT_USAGE {
          pressureRounds := pressureRounds + 1;
          if pressureRounds >= PRESSURE_EXIT_ROUNDS {
            inPressure := false;
          }
        } else {
          pressureRounds := 0;
        }
      } else if usage.value > PRESSURE_ENTER_USAGE {
        inPressure := true;
        pressureRounds := 0;
      }
    }
  }

  // ----- Every run -----

  function Run(rounds: seq<Option<real>>): Mode {
    if |rounds| == 0 then Mode(false, 0) else Round(Run(rounds[..|rounds| - 1]), rounds[|rounds| - 1])
  }

  /** The usages that were measured, in order. */
  function Measured(rounds: seq<Option<real>>): seq<real> {
    if |rounds| == 0 then []
    else
      var before, last := Measured(rounds[..|rounds| - 1]), rounds[|rounds| - 1];
      if last.None? then before else before + [last.value]
  }

  predicate High(us: seq<real>, i: nat) { i < |us| && us[i] > PRESSURE_ENTER_USAGE }

  predicate Low(us: seq<real>, i: nat) { i < |us| && us[i] < PRESSURE_EXIT_USAGE }

  /** The third low measurement in a row is at `j`. */
  predicate ThirdLow(us: seq<real>, j: nat) { j >= 2 && Low(us, j) && Low(us, j - 1) && Low(us, j - 2) }

  /** A high measurement after which there were never three low ones in a row. */
  ghost predicate Holds(us: seq<real>, i: nat) { High(us, i) && forall j: nat :: i < j ==> !ThirdLow(us, j) }

  ghost predicate Held(us: seq<real>) { exists i: nat :: Holds(us, i) }

  /** How many low measurements there are at the end. */
  function Trailing(us: seq<real>): nat {
    if |us| == 0 || us[|us| - 1] >= PRESSURE_EXIT_USAGE then 0 else 1 + Trailing(us[..|us| - 1])
  }

  lemma {:induction false} TrailingAreLow(us: seq<real>, k: nat)
    requires k < Trailing(us)
    ensures k < |us| && Low(us, |us| - 1 - k)
  {
    if k > 0 {
      TrailingAreLow(us[..|us| - 1], k - 1);
    }
  }

  lemma {:induction false} LowAreTrailing(us: seq<real>, n: nat)
    requires n <= |us| && forall i: nat :: |us| - n <= i < |us| ==> Low(us, i)
    ensures Trailing(us) >= n
  {
    if n > 0 {
      var init := us[..|us| - 1];
      assert Low(us, |us| - 1);
      forall i: nat | |init| - (n - 1) <= i < |init|
        ensures Low(init, i)
      {
        assert Low(us, i);
      }
      LowAreTrailing(init, n - 1);
    }
  }

  lemma HoldsStays(us: seq<real>, u: real, i: nat)
    requires Holds(us, i) && !ThirdLow(us + [u], |us|)
    ensures Holds(us + [u], i)
  {
    var longer := us + [u];
    forall j: nat | i < j
      ensures !ThirdLow(longer, j)
    {
      assert j < |us| ==> !ThirdLow(us, j);
    }
  }

  lemma HeldBefore(us: seq<real>, u: real, i: nat)
    requires Holds(us + [u], i) && i < |us|
    ensures Holds(us, i)
  {
    var longer := us + [u];
    forall j: nat | i < j
      ensures !ThirdLow(us, j)
    {
      assert !ThirdLow(longer, j);
    }
  }

  /** Three low measurements at the end end every hold. */
  lemma ThirdLowEndsAll(us: seq<real>, i: nat)
    requires |us| > 0 && ThirdLow(us, |us| - 1)
    ensures !Holds(us, i)
  {
    if High(us, i) {
      assert i < |us| - 1;
    }
  }

  lemma ThirdLowIffTrailing(us: seq<real>)
    requires |us| > 0
    ensures ThirdLow(us, |us| - 1) <==> Trailing(us) >= 3
  {
    if ThirdLow(us, |us| - 1) {
      LowAreTrailing(us, 3);
    }
    if Trailing(us) >= 3 {
      TrailingAreLow(us, 0);
      TrailingAreLow(us, 1);
      TrailingAreLow(us, 2);
    }
  }

  /** Over every run: the janitor is in pressure mode if and only if there was a
      measurement above 70 % since which there were never three in a row below 50 %; and
      then its counter is the number of low ones at the end. Failed rounds do not count. */
  lemma {:induction false} InPressureIff(rounds: seq<Option<real>>)
    ensures Run(rounds).inPressure <==> Held(Measured(rounds))
    ensures Run(rounds).inPressure ==> Run(rounds).rounds == Trailing(Measured(rounds))
  {
    if |rounds| > 0 {
      var prefix, last := rounds[..|rounds| - 1], rounds[|rounds| - 1];
      InPressureIff(prefix);
      if last.Some? {
        Measure(Run(prefix), Measured(prefix), last.value);
        assert last == Some(last.value) && Measured(rounds) == Measured(prefix) + [last.value];
      }
    }
  }

  lemma Measure(m: Mode, us: seq<real>, u: real)
    requires m.inPressure <==> Held(us)
    requires m.inPressure ==> m.rounds == Trailing(us)
    ensures var after := Round(m, Some(u));
            && (after.inPressure <==> Held(us + [u]))
            && (after.inPressure ==> after.rounds == Trailing(us + [u]))
  {
    var longer := us + [u];
    assert longer[..|longer| - 1] == us && longer[|us|] == u;
    assert Trailing(longer) == if u >= PRESSURE_EXIT_USAGE then 0 else 1 + Trailing(us);
    ThirdLowIffTrailing(longer);
    if m.inPressure {
      var i: nat :| Holds(us, i);
      if Trailing(longer) >= 3 {
        forall k: nat
          ensures !Holds(longer, k)
        {
          ThirdLowEndsAll(longer, k);
        }
      } else {
        HoldsStays(us, u, i);
      }
    } else if u > PRESSURE_ENTER_USAGE {
      assert Holds(longer, |us|);
    } else {
      forall k: nat
        ensures !Holds(longer, k)
      {
        if Holds(longer, k) {
          HeldBefore(us, u, k);
        }
      }
    }
  }
}
