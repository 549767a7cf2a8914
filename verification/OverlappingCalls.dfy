/**
Overlapping calls through `with_circuit_breaker`: while one call runs, others are admitted and report. So a call
admitted before the breaker opened can report late, to the half-open breaker.
*/
module OverlappingCalls {
  import opened Common
  import opened CircuitBreaker

  /** One atomic step of some call: it asks for admission, or a running call ends. */
  datatype Step = Enter(now: real) | Leave(end: real, outcome: Outcome)

  /** The breaker, and how many admitted calls are running. */
  datatype Shared = Shared(breaker: State, running: nat)

  function Next(cfg: Config, x: Shared, step: Step): Shared {
    match step
    case Enter(now) =>
      var (t, admitted) := Allow(cfg, x.breaker, now);
      Shared(t, if admitted then x.running + 1 else x.running)
    case Leave(end, outcome) =>
      if x.running == 0 then x else Shared(Report(cfg, x.breaker, end, outcome), x.running - 1)
  }

  function After(cfg: Config, x: Shared, steps: seq<Step>): Shared {
    if steps == [] then x else Next(cfg, After(cfg, x, steps[..|steps| - 1]), steps[|steps| - 1])
  }

  lemma AfterOne(cfg: Config, x: Shared, steps: seq<Step>, step: Step)
    ensures After(cfg, x, steps + [step]) == Next(cfg, After(cfg, x, steps), step)
  {
    assert (steps + [step])[..|steps|] == steps;
  }

  // ---------------------------------------------------------------- sequential use

  /** The steps of calls made one after the other. */
  function OneByOne(calls: seq<Call>): seq<Step> {
    if calls == [] then []
    else
      var c := calls[|calls| - 1];
      OneByOne(calls[..|calls| - 1]) + [Enter(c.start)] + [Leave(c.end, c.outcome)]
  }

  /** Calls made one after the other do what sequential use does. */
  lemma {:induction false} OneByOneIsSequential(cfg: Config, s: State, calls: seq<Call>)
    ensures After(cfg, Shared(s, 0), OneByOne(calls)) == Shared(Run(cfg, s, calls), 0)
  {
    if calls != [] {
      var before, c := calls[..|calls| - 1], calls[|calls| - 1];
      OneByOneIsSequential(cfg, s, before);
      AfterOne(cfg, Shared(s, 0), OneByOne(before), Enter(c.start));
      AfterOne(cfg, Shared(s, 0), OneByOne(before) + [Enter(c.start)], Leave(c.end, c.outcome));
    }
  }

  // ---------------------------------------------------------------- how many probes are let through

  /** The number of calls admitted since the breaker was last not half-open. */
  function ProbesLetThrough(cfg: Config, x: Shared, steps: seq<Step>): nat {
    if steps == [] then 0
    else
      var s, t := After(cfg, x, steps[..|steps| - 1]), After(cfg, x, steps);
      if !t.breaker.mode.HalfOpen? then 0
      else
        (if s.breaker.mode.HalfOpen? then ProbesLetThrough(cfg, x, steps[..|steps| - 1]) else 0)
        + if t.running > s.running then 1 else 0
  }

  /**
  In every interleaving a half-open breaker counts exactly the probes it let through, at most `half_open_max_calls`.
  */
  lemma {:induction false} ProbesAreBounded(cfg: Config, steps: seq<Step>)
    ensures var s := After(cfg, Shared(FRESH, 0), steps).breaker;
      s.mode.HalfOpen? ==>
        && s.halfOpenCalls == ProbesLetThrough(cfg, Shared(FRESH, 0), steps)
        && (s.halfOpenCalls == 0 || s.halfOpenCalls <= cfg.halfOpenMaxCalls)
  {
    if steps != [] {
      ProbesAreBounded(cfg, steps[..|steps| - 1]);
    }
  }

  // ---------------------------------------------------------------- when the breaker is stuck

  /** Half-open now, and whatever happens. */
  ghost predicate Stuck(cfg: Config, x: Shared) {
    forall steps :: After(cfg, x, steps).breaker.mode.HalfOpen?
  }

  lemma {:induction false} NothingRuns(cfg: Config, x: Shared, steps: seq<Step>)
    requires Wedged(cfg, x.breaker) && x.running == 0
    ensures After(cfg, x, steps) == x
  {
    if steps != [] {
      NothingRuns(cfg, x, steps[..|steps| - 1]);
    }
  }

  /** Stuck, exactly: all probes were let through, none of them decided, and no admitted call is left to report. */
  lemma StuckIff(cfg: Config, x: Shared)
    ensures Stuck(cfg, x) <==> Wedged(cfg, x.breaker) && x.running == 0
  {
    if Wedged(cfg, x.breaker) && x.running == 0 {
      forall steps
        ensures After(cfg, x, steps).breaker.mode.HalfOpen?
      {
        NothingRuns(cfg, x, steps);
      }
    } else if x.breaker.mode.HalfOpen? {
      var steps := if x.running > 0 then [] else [Enter(0.0)];
      if x.running == 0 {
        AfterOne(cfg, x, [], Enter(0.0));
        assert [] + [Enter(0.0)] == steps;
      }
      AfterOne(cfg, x, steps, Leave(0.0, Raised));
      assert After(cfg, x, steps + [Leave(0.0, Raised)]).breaker.mode.Open?;
    } else {
      assert !After(cfg, x, []).breaker.mode.HalfOpen?;
    }
  }

  ghost predicate NoneCancelled(steps: seq<Step>) {
    forall i :: 0 <= i < |steps| ==> !(steps[i].Leave? && steps[i].outcome.Cancelled?)
  }

  /** Every probe let through has returned or is still running, and too few have returned to close. */
  ghost predicate Accounted(cfg: Config, x: Shared) {
    x.breaker.mode.HalfOpen? ==>
      && x.breaker.successes + x.running >= x.breaker.halfOpenCalls
      && (x.breaker.successes == 0 || x.breaker.successes < cfg.successThreshold)
  }

  lemma {:induction false} AccountedRun(cfg: Config, x: Shared, steps: seq<Step>)
    requires Accounted(cfg, x) && NoneCancelled(steps)
    ensures Accounted(cfg, After(cfg, x, steps))
  {
    if steps != [] {
      AccountedRun(cfg, x, steps[..|steps| - 1]);
    }
  }

  /**
  From the start of the probes on, with any calls from before still running, no interleaving gets the breaker stuck.
  */
  ghost predicate NeverStuck(cfg: Config) {
    forall failures, late, steps :: NoneCancelled(steps) ==>
      !Stuck(cfg, After(cfg, Shared(Probe(failures), late), steps))
  }

  lemma {:induction false} OneByOneReports(calls: seq<Call>)
    requires AllReturn(calls)
    ensures NoneCancelled(OneByOne(calls))
  {
    if calls != [] {
      OneByOneReports(calls[..|calls| - 1]);
    }
  }

  /**
  Recovery of overlapping calls: as long as every admitted call reports, late ones included, no interleaving
  gets the breaker stuck if and only if the configuration can recover in sequential use.
  */
  lemma NeverStuckIffCanRecover(cfg: Config)
    ensures NeverStuck(cfg) <==> CanRecover(cfg)
  {
    if CanRecover(cfg) {
      forall failures: nat, late: nat, steps | NoneCancelled(steps)
        ensures !Stuck(cfg, After(cfg, Shared(Probe(failures), late), steps))
      {
        var x := Shared(Probe(failures), late);
        AccountedRun(cfg, x, steps);
        StuckIff(cfg, After(cfg, x, steps));
      }
    } else {
      var calls := Successes(if cfg.halfOpenMaxCalls >= 0 then cfg.halfOpenMaxCalls else 0);
      var steps := OneByOne(calls);
      OneByOneReports(calls);
      OneByOneIsSequential(cfg, Probe(0), calls);
      TooFewProbesWedge(cfg, 0, [], 0.0);
      StuckIff(cfg, After(cfg, Shared(Probe(0), 0), steps));
      assert Stuck(cfg, After(cfg, Shared(Probe(0), 0), steps));
    }
  }

  // ---------------------------------------------------------------- the recovery time

  /** Open, with the recovery time running from `since`. */
  ghost predicate OpenSince(x: Shared, since: real) {
    x.breaker.mode.Open? && x.breaker.openSince == Some(since)
  }

  /** Only the report of a failure opens the breaker, and the recovery time runs from it. */
  lemma OpensOnAFailure(cfg: Config, x: Shared, step: Step)
    requires !x.breaker.mode.Open? && Next(cfg, x, step).breaker.mode.Open?
    ensures step.Leave? && step.outcome.Raised? && x.running > 0 && OpenSince(Next(cfg, x, step), step.end)
  {
  }

  /** No call asks for admission before the recovery time is over. */
  ghost predicate EntersBefore(cfg: Config, since: real, steps: seq<Step>) {
    forall i :: 0 <= i < |steps| && steps[i].Enter? ==> steps[i].now - since < cfg.recoveryTimeout
  }

  lemma {:induction false} StaysOpenSince(cfg: Config, x: Shared, since: real, steps: seq<Step>)
    requires OpenSince(x, since) && EntersBefore(cfg, since, steps)
    ensures OpenSince(After(cfg, x, steps), since) && After(cfg, x, steps).running <= x.running
  {
    if steps != [] {
      StaysOpenSince(cfg, x, since, steps[..|steps| - 1]);
    }
  }

  /**
  An open breaker in every interleaving: whatever calls admitted before report, late failures included, nothing
  is admitted and the recovery time runs on from the report that opened it; the first request after it is over
  is admitted as a probe, if probes are allowed at all, and no earlier one is.
  */
  lemma LateReportsKeepTheRecoveryTime(cfg: Config, x: Shared, since: real, steps: seq<Step>, now: real)
    requires OpenSince(x, since) && EntersBefore(cfg, since, steps)
    ensures var t := After(cfg, x, steps);
      Allow(cfg, t.breaker, now).1 <==> now - since >= cfg.recoveryTimeout && cfg.halfOpenMaxCalls >= 1
    ensures forall i :: 0 <= i < |steps| && steps[i].Enter? ==>
      !Allow(cfg, After(cfg, x, steps[..i]).breaker, steps[i].now).1
  {
    StaysOpenSince(cfg, x, since, steps);
    forall i | 0 <= i < |steps| && steps[i].Enter?
      ensures !Allow(cfg, After(cfg, x, steps[..i]).breaker, steps[i].now).1
    {
      StaysOpenSince(cfg, x, since, steps[..i]);
    }
  }

  // ---------------------------------------------------------------- what late reports do

  /** How often a running call ends in this way. */
  function Ended(cfg: Config, x: Shared, steps: seq<Step>, outcome: Outcome): nat {
    if steps == [] then 0
    else
      var before, step := steps[..|steps| - 1], steps[|steps| - 1];
      Ended(cfg, x, before, outcome)
      + if step.Leave? && step.outcome == outcome && After(cfg, x, before).running > 0 then 1 else 0
  }

  /** Half-open at every point of the steps. */
  ghost predicate HalfOpenThroughout(cfg: Config, x: Shared, steps: seq<Step>) {
    After(cfg, x, steps).breaker.mode.HalfOpen? && (steps == [] || HalfOpenThroughout(cfg, x, steps[..|steps| - 1]))
  }

  /**
  In every interleaving from the start of the probes on, with `late` calls from before still running: the
  breaker stays half-open if and only if no call raises and too few return, where late reports count like
  those of the probes.
  */
  lemma {:induction false} StaysHalfOpenIffUndecided(cfg: Config, failures: nat, late: nat, steps: seq<Step>)
    ensures var x := Shared(Probe(failures), late);
      HalfOpenThroughout(cfg, x, steps) <==>
        && Ended(cfg, x, steps, Raised) == 0
        && (Ended(cfg, x, steps, Returned) == 0 || Ended(cfg, x, steps, Returned) < cfg.successThreshold)
    ensures var x := Shared(Probe(failures), late);
      HalfOpenThroughout(cfg, x, steps) ==> After(cfg, x, steps).breaker.successes == Ended(cfg, x, steps, Returned)
  {
    if steps != [] {
      StaysHalfOpenIffUndecided(cfg, failures, late, steps[..|steps| - 1]);
    }
  }

  ghost predicate NoneEnters(steps: seq<Step>) {
    forall i :: 0 <= i < |steps| ==> steps[i].Leave?
  }

  /** Without admissions, the late calls are all that can return. */
  lemma {:induction false} OnlyLateCallsReturn(cfg: Config, failures: nat, late: nat, steps: seq<Step>)
    requires NoneEnters(steps)
    ensures var t := After(cfg, Shared(Probe(failures), late), steps);
      && (t.breaker.mode.HalfOpen? ==> t.breaker.successes + t.running <= late)
      && (t.breaker.mode.Closed? ==> late >= 1 && late >= cfg.successThreshold)
  {
    if steps != [] {
      OnlyLateCallsReturn(cfg, failures, late, steps[..|steps| - 1]);
    }
  }

  function LateReturns(n: nat): (steps: seq<Step>)
    ensures |steps| == n && NoneEnters(steps)
  {
    seq(n, i => Leave(0.0, Returned))
  }

  lemma {:induction false} AfterLateReturns(cfg: Config, failures: nat, late: nat, n: nat)
    requires n <= late && (n <= 1 || n <= cfg.successThreshold)
    ensures var t := After(cfg, Shared(Probe(failures), late), LateReturns(n));
      t == if n >= 1 && n >= cfg.successThreshold then Shared(FRESH, late - n)
           else Shared(Probe(failures).(successes := n), late - n)
  {
    if n > 0 {
      AfterLateReturns(cfg, failures, late, n - 1);
      AfterOne(cfg, Shared(Probe(failures), late), LateReturns(n - 1), Leave(0.0, Returned));
      assert LateReturns(n) == LateReturns(n - 1) + [Leave(0.0, Returned)];
    }
  }

  ghost predicate ClosesWithoutProbe(cfg: Config, failures: nat, late: nat) {
    exists steps :: NoneEnters(steps) && After(cfg, Shared(Probe(failures), late), steps).breaker.mode.Closed?
  }

  /**
  Late reports can close a half-open breaker that has not let a single probe through, exactly when as many
  calls from before it opened are still running as successes are needed.
  */
  lemma LateReportsCloseIffEnough(cfg: Config, failures: nat, late: nat)
    ensures ClosesWithoutProbe(cfg, failures, late) <==> late >= 1 && late >= cfg.successThreshold
  {
    if steps :| NoneEnters(steps) && After(cfg, Shared(Probe(failures), late), steps).breaker.mode.Closed? {
      OnlyLateCallsReturn(cfg, failures, late, steps);
    }
    if late >= 1 && late >= cfg.successThreshold {
      var n := if cfg.successThreshold >= 1 then cfg.successThreshold else 1;
      AfterLateReturns(cfg, failures, late, n);
      assert NoneEnters(LateReturns(n));
    }
  }
}
