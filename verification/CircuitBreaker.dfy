/**
The fail-loud circuit breaker and its sequential use through `with_circuit_breaker`: admit the call, run it,
report its outcome. Times are the readings of the monotonic clock.
*/
module CircuitBreaker {
  import opened Common

  datatype Mode = Closed | Open | HalfOpen

  datatype Config = Config(failureThreshold: int, successThreshold: int, recoveryTimeout: real, halfOpenMaxCalls: int)

  const DEFAULT_CONFIG := Config(5, 2, 30.0, 3)
  const LANCEDB_CONFIG := Config(3, 2, 60.0, 2)
  const MLX_CONFIG := Config(2, 1, 120.0, 1)
  const DUCKDB_CONFIG := Config(5, 2, 30.0, 3)
  const TRANSPORT_CONFIG := Config(5, 3, 30.0, 5)

  datatype State = State(mode: Mode, failures: nat, successes: nat, openSince: Option<real>, halfOpenCalls: nat)

  const FRESH := State(Closed, 0, 0, None, 0)

  /**
  How an admitted call ends: returned, raised, or was cancelled (which is no `Exception`, so nothing is reported).
  */
  datatype Outcome = Returned | Raised | Cancelled

  /** A call through the decorator: when it is admitted, when it reports, and how it ends. */
  datatype Call = Call(start: real, end: real, outcome: Outcome)

  /** Reading `state` moves an open breaker whose recovery time is over to half-open. */
  function Observe(cfg: Config, s: State, now: real): State {
    if s.mode.Open? && (s.openSince.None? || now - s.openSince.value >= cfg.recoveryTimeout)
    then State(HalfOpen, s.failures, 0, None, 0) else s
  }

  /** `allow_request`: the new state, and whether the call is admitted. */
  function Allow(cfg: Config, s: State, now: real): (State, bool) {
    var t := Observe(cfg, s, now);
    if t.mode.Closed? then (t, true)
    else if t.mode.Open? || t.halfOpenCalls >= cfg.halfOpenMaxCalls then (t, false)
    else (t.(halfOpenCalls := t.halfOpenCalls + 1), true)
  }

  function Success(cfg: Config, s: State): State {
    if s.mode.HalfOpen? && s.successes + 1 >= cfg.successThreshold then FRESH
    else s.(successes := s.successes + 1, failures := if s.mode.Closed? then 0 else s.failures)
  }

  function Failure(cfg: Config, s: State, now: real): State {
    var opens := s.mode.HalfOpen? || (s.mode.Closed? && s.failures + 1 >= cfg.failureThreshold);
    State(if opens then Open else s.mode, s.failures + 1, s.successes,
          if opens then Some(now) else s.openSince, if opens then 0 else s.halfOpenCalls)
  }

  function Report(cfg: Config, s: State, end: real, outcome: Outcome): State {
    match outcome
    case Returned => Success(cfg, s)
    case Raised => Failure(cfg, s, end)
    case Cancelled => s
  }

  function Through(cfg: Config, s: State, c: Call): State {
    var (t, admitted) := Allow(cfg, s, c.start);
    if admitted then Report(cfg, t, c.end, c.outcome) else t
  }

  function Run(cfg: Config, s: State, calls: seq<Call>): State {
    if calls == [] then s else Through(cfg, Run(cfg, s, calls[..|calls| - 1]), calls[|calls| - 1])
  }

  ghost predicate AllReport(calls: seq<Call>) {
    forall i :: 0 <= i < |calls| ==> !calls[i].outcome.Cancelled?
  }

  ghost predicate AllReturn(calls: seq<Call>) {
    forall i :: 0 <= i < |calls| ==> calls[i].outcome.Returned?
  }

  // ---------------------------------------------------------------- recovery

  /** A half-open breaker whose probes all succeeded so far: what sequential reporting use leads to. */
  ghost predicate Probing(cfg: Config, s: State, n: nat) {
    && s.mode.HalfOpen? && s.halfOpenCalls == s.successes == n
    && n <= cfg.halfOpenMaxCalls && (n == 0 || n < cfg.successThreshold)
  }

  /** Every run of reporting calls from a fresh breaker that is half-open is probing. */
  lemma {:induction false} HalfOpenIsProbing(cfg: Config, calls: seq<Call>)
    requires cfg.halfOpenMaxCalls >= 0 && AllReport(calls)
    ensures var s := Run(cfg, FRESH, calls); s.mode.HalfOpen? ==> Probing(cfg, s, s.successes)
  {
    if calls != [] {
      HalfOpenIsProbing(cfg, calls[..|calls| - 1]);
    }
  }

  /** The breaker has left the half-open mode at some point of the run. */
  ghost predicate Leaves(cfg: Config, s: State, calls: seq<Call>) {
    exists i :: 0 <= i <= |calls| && !Run(cfg, s, calls[..i]).mode.HalfOpen?
  }

  /** While it stays half-open, each of the first calls was admitted, returned, and counted. */
  lemma {:induction false} StaysProbing(cfg: Config, s: State, n: nat, calls: seq<Call>)
    requires Probing(cfg, s, n) && AllReport(calls) && n + |calls| <= cfg.halfOpenMaxCalls
    requires !Leaves(cfg, s, calls)
    ensures Probing(cfg, Run(cfg, s, calls), n + |calls|)
  {
    if calls != [] {
      var before := calls[..|calls| - 1];
      assert forall i :: 0 <= i <= |before| ==> before[..i] == calls[..i];
      StaysProbing(cfg, s, n, before);
      assert calls[..|calls|] == calls;
      assert Run(cfg, s, calls[..|calls|]).mode.HalfOpen?;
    }
  }

  /** The guard of recovery: enough probes are let through to reach the success threshold. */
  predicate CanRecover(cfg: Config) {
    cfg.halfOpenMaxCalls >= 1 && cfg.halfOpenMaxCalls >= cfg.successThreshold
  }

  lemma LeavesInTime(cfg: Config, s: State, n: nat, calls: seq<Call>)
    requires CanRecover(cfg) && Probing(cfg, s, n) && AllReport(calls) && n + |calls| == cfg.halfOpenMaxCalls
    ensures n < cfg.halfOpenMaxCalls ==> Leaves(cfg, s, calls)
    ensures n < cfg.halfOpenMaxCalls
  {
    if !Leaves(cfg, s, calls) {
      StaysProbing(cfg, s, n, calls);
    }
  }

  /** A breaker that has used up its probes without recovering. */
  ghost predicate Wedged(cfg: Config, s: State) {
    s.mode.HalfOpen? && s.halfOpenCalls >= cfg.halfOpenMaxCalls
  }

  /** A wedged breaker stays as it is and admits nothing, whatever comes and however late. */
  lemma {:induction false} WedgedForEver(cfg: Config, s: State, calls: seq<Call>, now: real)
    requires Wedged(cfg, s)
    ensures Run(cfg, s, calls) == s && !Allow(cfg, Run(cfg, s, calls), now).1
  {
    if calls != [] {
      WedgedForEver(cfg, s, calls[..|calls| - 1], now);
    }
  }

  /** When fewer probes are let through than successes are needed, a run of successes wedges the breaker. */
  lemma {:induction false} SuccessesWedge(cfg: Config, s: State, n: nat, calls: seq<Call>)
    requires !CanRecover(cfg) && Probing(cfg, s, n) && AllReturn(calls) && n + |calls| <= cfg.halfOpenMaxCalls
    ensures Probing(cfg, Run(cfg, s, calls), n + |calls|)
  {
    if calls != [] {
      SuccessesWedge(cfg, s, n, calls[..|calls| - 1]);
    }
  }

  /** What an open breaker becomes when its recovery time is over. */
  function Probe(failures: nat): State {
    State(HalfOpen, failures, 0, None, 0)
  }

  /**
  From the start of its probes on, the breaker leaves the half-open mode within the admitted number of reporting
  calls.
  */
  ghost predicate Recovers(cfg: Config, failures: nat) {
    forall calls :: AllReport(calls) && |calls| == (if cfg.halfOpenMaxCalls >= 0 then cfg.halfOpenMaxCalls else 0) ==>
      Leaves(cfg, Probe(failures), calls)
  }

  function Successes(n: nat): (calls: seq<Call>)
    ensures |calls| == n && AllReturn(calls)
  {
    seq(n, i => Call(0.0, 0.0, Returned))
  }

  /**
  Recovery: used sequentially with every admitted call reporting, a half-open breaker always leaves that mode
  within `half_open_max_calls` calls if and only if that number is at least 1 and at least the success
  threshold.
  */
  lemma RecoversIffEnoughProbes(cfg: Config, failures: nat)
    ensures Recovers(cfg, failures) <==> CanRecover(cfg)
  {
    var s := Probe(failures);
    if CanRecover(cfg) {
      forall calls | AllReport(calls) && |calls| == cfg.halfOpenMaxCalls
        ensures Leaves(cfg, s, calls)
      {
        LeavesInTime(cfg, s, 0, calls);
      }
    } else {
      var calls := Successes(if cfg.halfOpenMaxCalls >= 0 then cfg.halfOpenMaxCalls else 0);
      forall i | 0 <= i <= |calls|
        ensures Run(cfg, s, calls[..i]).mode.HalfOpen?
      {
        if cfg.halfOpenMaxCalls >= 0 {
          SuccessesWedge(cfg, s, 0, calls[..i]);
        } else {
          assert calls[..i] == [];
        }
      }
      assert !Leaves(cfg, s, calls);
    }
  }

  /** Otherwise a run of successes leaves the breaker wedged for ever. */
  lemma TooFewProbesWedge(cfg: Config, failures: nat, later: seq<Call>, now: real)
    requires !CanRecover(cfg)
    ensures var s := Run(cfg, Probe(failures),
      Successes(if cfg.halfOpenMaxCalls >= 0 then cfg.halfOpenMaxCalls else 0));
      s.mode.HalfOpen? && Run(cfg, s, later) == s && !Allow(cfg, s, now).1
  {
    var s := Probe(failures);
    var calls := Successes(if cfg.halfOpenMaxCalls >= 0 then cfg.halfOpenMaxCalls else 0);
    if cfg.halfOpenMaxCalls >= 0 {
      SuccessesWedge(cfg, s, 0, calls);
    }
    var t := Run(cfg, s, calls);
    WedgedForEver(cfg, t, later, now);
    WedgedForEver(cfg, t, [], now);
  }

  /** All shipped configurations can recover. */
  lemma ShippedConfigsRecover(failures: nat)
    ensures Recovers(DEFAULT_CONFIG, failures) && Recovers(LANCEDB_CONFIG, failures) && Recovers(MLX_CONFIG, failures)
    ensures Recovers(DUCKDB_CONFIG, failures) && Recovers(TRANSPORT_CONFIG, failures)
  {
    RecoversIffEnoughProbes(DEFAULT_CONFIG, failures);
    RecoversIffEnoughProbes(LANCEDB_CONFIG, failures);
    RecoversIffEnoughProbes(MLX_CONFIG, failures);
    RecoversIffEnoughProbes(DUCKDB_CONFIG, failures);
    RecoversIffEnoughProbes(TRANSPORT_CONFIG, failures);
  }

  /** How many of the calls returned. */
  function Returns(calls: seq<Call>): (n: nat)
    ensures n <= |calls|
  {
    if calls == [] then 0 else Returns(calls[..|calls| - 1]) + if calls[|calls| - 1].outcome.Returned? then 1 else 0
  }

  ghost predicate SomeRaise(calls: seq<Call>) {
    exists i :: 0 <= i < |calls| && calls[i].outcome.Raised?
  }

  /** What the reports of a list of probes must say to end the half-open mode. */
  ghost predicate Decisive(cfg: Config, calls: seq<Call>) {
    SomeRaise(calls) || (Returns(calls) >= 1 && Returns(calls) >= cfg.successThreshold)
  }

  lemma DecisivePrefix(cfg: Config, calls: seq<Call>)
    requires calls != []
    ensures var last := calls[|calls| - 1];
      Decisive(cfg, calls) <==>
        || Decisive(cfg, calls[..|calls| - 1]) || last.outcome.Raised?
        || (last.outcome.Returned? && Returns(calls) >= cfg.successThreshold)
  {
    assert calls == calls[..|calls| - 1] + [calls[|calls| - 1]];
  }

  /** Probes whose reports are not decisive leave the breaker half-open, with each of them admitted. */
  lemma {:induction false} StaysHalfOpen(cfg: Config, failures: nat, calls: seq<Call>)
    requires cfg.halfOpenMaxCalls >= |calls| && !Decisive(cfg, calls)
    ensures Run(cfg, Probe(failures), calls) == State(HalfOpen, failures, Returns(calls), None, |calls|)
  {
    if calls != [] {
      DecisivePrefix(cfg, calls);
      StaysHalfOpen(cfg, failures, calls[..|calls| - 1]);
    }
  }

  lemma {:induction false} NotDecisiveBefore(cfg: Config, calls: seq<Call>, i: nat)
    requires i <= |calls| && !Decisive(cfg, calls)
    ensures !Decisive(cfg, calls[..i])
    decreases |calls|
  {
    if i < |calls| {
      DecisivePrefix(cfg, calls);
      NotDecisiveBefore(cfg, calls[..|calls| - 1], i);
      assert calls[..|calls| - 1][..i] == calls[..i];
    } else {
      assert calls[..i] == calls;
    }
  }

  lemma {:induction false} DecisiveLeaves(cfg: Config, failures: nat, calls: seq<Call>)
    requires cfg.halfOpenMaxCalls >= |calls| && Decisive(cfg, calls)
    ensures Leaves(cfg, Probe(failures), calls)
  {
    var before := calls[..|calls| - 1];
    DecisivePrefix(cfg, calls);
    if Decisive(cfg, before) {
      DecisiveLeaves(cfg, failures, before);
      var i :| 0 <= i <= |before| && !Run(cfg, Probe(failures), before[..i]).mode.HalfOpen?;
      assert calls[..i] == before[..i];
    } else {
      StaysHalfOpen(cfg, failures, before);
      assert calls[..|calls|] == calls;
      assert !Run(cfg, Probe(failures), calls[..|calls|]).mode.HalfOpen?;
    }
  }

  /** The calls that are let through while the breaker stays half-open. */
  function Probes(cfg: Config, calls: seq<Call>): (r: seq<Call>)
    ensures r <= calls
  {
    if cfg.halfOpenMaxCalls < 0 then []
    else if cfg.halfOpenMaxCalls < |calls| then calls[..cfg.halfOpenMaxCalls]
    else calls
  }

  lemma {:induction false} RunConcat(cfg: Config, s: State, a: seq<Call>, b: seq<Call>)
    ensures Run(cfg, s, a + b) == Run(cfg, Run(cfg, s, a), b)
  {
    if b == [] {
      assert a + b == a;
    } else {
      RunConcat(cfg, s, a, b[..|b| - 1]);
      assert (a + b)[..|a + b| - 1] == a + b[..|b| - 1];
    }
  }

  /** When the probes do not decide, the breaker is half-open at every point of the list. */
  lemma UndecidedStays(cfg: Config, failures: nat, calls: seq<Call>, i: nat)
    requires !Decisive(cfg, Probes(cfg, calls)) && i <= |calls|
    ensures Run(cfg, Probe(failures), calls[..i]).mode.HalfOpen?
  {
    var probes := Probes(cfg, calls);
    if i <= |probes| && cfg.halfOpenMaxCalls >= 0 {
      NotDecisiveBefore(cfg, probes, i);
      assert probes[..i] == calls[..i];
      StaysHalfOpen(cfg, failures, calls[..i]);
    } else {
      var s := Run(cfg, Probe(failures), probes);
      assert Wedged(cfg, s) by {
        if cfg.halfOpenMaxCalls >= 0 {
          StaysHalfOpen(cfg, failures, probes);
        }
      }
      WedgedForEver(cfg, s, calls[|probes|..i], 0.0);
      RunConcat(cfg, Probe(failures), probes, calls[|probes|..i]);
      assert calls[..i] == probes + calls[|probes|..i];
    }
  }

  /**
  The reports matter, under every configuration and for every list of calls: cancelled probes report nothing
  and still use up their place. The breaker leaves the half-open mode if and only if, among the first
  `half_open_max_calls` calls, one raises or enough of them return; otherwise it is half-open throughout, and
  with all places used up it is wedged for ever.
  */
  lemma LeavesIffReportsDecide(cfg: Config, failures: nat, calls: seq<Call>)
    ensures Leaves(cfg, Probe(failures), calls) <==> Decisive(cfg, Probes(cfg, calls))
    ensures !Decisive(cfg, Probes(cfg, calls)) && |calls| >= cfg.halfOpenMaxCalls ==>
      Wedged(cfg, Run(cfg, Probe(failures), calls))
  {
    var probes := Probes(cfg, calls);
    if Decisive(cfg, probes) {
      assert cfg.halfOpenMaxCalls >= 0;
      DecisiveLeaves(cfg, failures, probes);
      var i :| 0 <= i <= |probes| && !Run(cfg, Probe(failures), probes[..i]).mode.HalfOpen?;
      assert calls[..i] == probes[..i];
    } else {
      forall i | 0 <= i <= |calls|
        ensures Run(cfg, Probe(failures), calls[..i]).mode.HalfOpen?
      {
        UndecidedStays(cfg, failures, calls, i);
      }
      if |calls| >= cfg.halfOpenMaxCalls {
        UsedUpIsWedged(cfg, failures, calls);
      }
    }
  }

  lemma UsedUpIsWedged(cfg: Config, failures: nat, calls: seq<Call>)
    requires !Decisive(cfg, Probes(cfg, calls)) && |calls| >= cfg.halfOpenMaxCalls
    ensures Wedged(cfg, Run(cfg, Probe(failures), calls))
  {
    var probes := Probes(cfg, calls);
    if cfg.halfOpenMaxCalls >= 0 {
      StaysHalfOpen(cfg, failures, probes);
    }
    WedgedForEver(cfg, Run(cfg, Probe(failures), probes), calls[|probes|..], 0.0);
    RunConcat(cfg, Probe(failures), probes, calls[|probes|..]);
    assert calls == probes + calls[|probes|..];
  }

  /** So that many cancelled probes wedge the breaker with any configuration. */
  lemma {:induction false} CancelledProbesWedge(cfg: Config, failures: nat, calls: seq<Call>)
    requires cfg.halfOpenMaxCalls >= |calls|
    requires forall i :: 0 <= i < |calls| ==> calls[i].outcome.Cancelled?
    ensures Run(cfg, Probe(failures), calls) == Probe(failures).(halfOpenCalls := |calls|)
    ensures |calls| == cfg.halfOpenMaxCalls ==> Wedged(cfg, Run(cfg, Probe(failures), calls))
  {
    if calls != [] {
      CancelledProbesWedge(cfg, failures, calls[..|calls| - 1]);
    }
  }

  // ---------------------------------------------------------------- opening

  /** The number of raised calls since the last one that returned; cancelled calls do not report. */
  function TrailingFailures(calls: seq<Call>): nat {
    if calls == [] then 0
    else
      var before := TrailingFailures(calls[..|calls| - 1]);
      match calls[|calls| - 1].outcome
      case Returned => 0
      case Raised => before + 1
      case Cancelled => before
  }

  /** Closed at every point of the list. */
  ghost predicate ClosedThroughout(cfg: Config, calls: seq<Call>) {
    Run(cfg, FRESH, calls).mode.Closed? && (calls == [] || ClosedThroughout(cfg, calls[..|calls| - 1]))
  }

  /** No failure in the list completes a streak of `failure_threshold` failures. */
  ghost predicate NoFullStreak(cfg: Config, calls: seq<Call>) {
    calls == [] ||
    (NoFullStreak(cfg, calls[..|calls| - 1])
     && (calls[|calls| - 1].outcome.Raised? ==> TrailingFailures(calls) < cfg.failureThreshold))
  }

  /**
  Opening: a fresh breaker stays closed through a list of calls exactly as long as no failure completes a streak
  of `failure_threshold` failures, cancelled calls aside; its failure count is the length of the last streak.
  */
  lemma {:induction false} OpensAtThreshold(cfg: Config, calls: seq<Call>)
    ensures ClosedThroughout(cfg, calls) <==> NoFullStreak(cfg, calls)
    ensures ClosedThroughout(cfg, calls) ==> Run(cfg, FRESH, calls).failures == TrailingFailures(calls)
  {
    if calls != [] {
      var before := calls[..|calls| - 1];
      OpensAtThreshold(cfg, before);
      if ClosedThroughout(cfg, before) {
        ClosedStep(cfg, before, calls);
      }
    }
  }

  lemma ClosedStep(cfg: Config, before: seq<Call>, calls: seq<Call>)
    requires calls != [] && before == calls[..|calls| - 1]
    requires Run(cfg, FRESH, before).mode.Closed? && Run(cfg, FRESH, before).failures == TrailingFailures(before)
    ensures Run(cfg, FRESH, calls).mode.Closed? <==>
      !calls[|calls| - 1].outcome.Raised? || TrailingFailures(calls) < cfg.failureThreshold
    ensures Run(cfg, FRESH, calls).mode.Closed? ==> Run(cfg, FRESH, calls).failures == TrailingFailures(calls)
  {
  }

  /** A call that opens the breaker: it raised, and the recovery time runs from its report. */
  lemma OpenedBy(cfg: Config, s: State, c: Call)
    requires !Observe(cfg, s, c.start).mode.Open? && Through(cfg, s, c).mode.Open?
    ensures c.outcome.Raised? && Through(cfg, s, c).failures == s.failures + 1
    ensures Through(cfg, s, c).openSince == Some(c.end)
  {
  }

  /**
  A call that opens the breaker closes the door: of all calls that start within the recovery time of its
  report, however many, none is admitted and none changes anything; the next call after them is admitted if
  and only if it starts later than that and probes are allowed at all.
  */
  lemma OpenedRefusesUntilRecovery(cfg: Config, s: State, c: Call, calls: seq<Call>, now: real)
    requires !Observe(cfg, s, c.start).mode.Open? && Through(cfg, s, c).mode.Open?
    requires forall i :: 0 <= i < |calls| ==> calls[i].start - c.end < cfg.recoveryTimeout
    ensures Run(cfg, Through(cfg, s, c), calls) == Through(cfg, s, c)
    ensures forall i :: 0 <= i < |calls| ==> !Allow(cfg, Run(cfg, Through(cfg, s, c), calls[..i]), calls[i].start).1
    ensures var t := Run(cfg, Through(cfg, s, c), calls);
      && (Allow(cfg, t, now).1 <==> now - c.end >= cfg.recoveryTimeout && cfg.halfOpenMaxCalls >= 1)
      && (now - c.end >= cfg.recoveryTimeout ==> Observe(cfg, t, now) == Probe(s.failures + 1))
  {
    OpenedBy(cfg, s, c);
    var t := Through(cfg, s, c);
    StaysOpen(cfg, t, c.end, calls);
    forall i | 0 <= i < |calls|
      ensures !Allow(cfg, Run(cfg, t, calls[..i]), calls[i].start).1
    {
      StaysOpen(cfg, t, c.end, calls[..i]);
    }
  }

  lemma {:induction false} StaysOpen(cfg: Config, t: State, end: real, calls: seq<Call>)
    requires t.mode.Open? && t.openSince == Some(end)
    requires forall i :: 0 <= i < |calls| ==> calls[i].start - end < cfg.recoveryTimeout
    ensures Run(cfg, t, calls) == t
  {
    if calls != [] {
      StaysOpen(cfg, t, end, calls[..|calls| - 1]);
    }
  }

  // ---------------------------------------------------------------- the object

  datatype Refusal = CircuitBreakerOpen

  class Breaker {
    const config: Config
    var mode: Mode
    var failureCount: nat
    var successCount: nat
    var openSince: Option<real>
    var halfOpenCalls: nat

    ghost function Abs(): State
      reads this
    {
      State(mode, failureCount, successCount, openSince, halfOpenCalls)
    }

    constructor (config: Config)
      ensures this.config == config && Abs() == FRESH
    {
      this.config := config;
      mode, failureCount, successCount, openSince, halfOpenCalls := Closed, 0, 0, None, 0;
    }

    method CurrentMode(now: real) returns (m: Mode)
      modifies this
      ensures Abs() == Observe(config, old(Abs()), now) && m == mode
    {
      if mode == Open && (openSince.None? || now - openSince.value >= config.recoveryTimeout) {
        mode, successCount, halfOpenCalls, openSince := HalfOpen, 0, 0, None;
      }
      m := mode;
    }

    method AllowRequest(now: real) returns (r: Result<(), Refusal>)
      modifies this
      ensures Abs() == Allow(config, old(Abs()), now).0
      ensures r.Ok? <==> Allow(config, old(Abs()), now).1
    {
      var m := CurrentMode(now);
      if m == Closed {
        return Ok(());
      }
      if m == Open || halfOpenCalls >= config.halfOpenMaxCalls {
        return Err(CircuitBreakerOpen);
      }
      halfOpenCalls := halfOpenCalls + 1;
      return Ok(());
    }

    method RecordSuccess()
      modifies this
      ensures Abs() == Success(config, old(Abs()))
    {
      successCount := successCount + 1;
      if mode == HalfOpen {
        if successCount >= config.successThreshold {
          mode, failureCount, successCount, openSince, halfOpenCalls := Closed, 0, 0, None, 0;
        }
      } else if mode == Closed {
        failureCount := 0;
      }
    }

    method RecordFailure(now: real)
      modifies this
      ensures Abs() == Failure(config, old(Abs()), now)
    {
      failureCount := failureCount + 1;
      if mode == HalfOpen || (mode == Closed && failureCount >= config.failureThreshold) {
        mode, openSince, halfOpenCalls := Open, Some(now), 0;
      }
    }

    /** The wrapper of `with_circuit_breaker` around one call. */
    method Guarded(c: Call) returns (r: Result<Outcome, Refusal>)
      modifies this
      ensures Abs() == Through(config, old(Abs()), c)
      ensures r == if Allow(config, old(Abs()), c.start).1 then Ok(c.outcome) else Err(CircuitBreakerOpen)
    {
      var allowed := AllowRequest(c.start);
      if allowed.Err? {
        return Err(CircuitBreakerOpen);
      }
      match c.outcome {
        case Returned => RecordSuccess();
        case Raised => RecordFailure(c.end);
        case Cancelled =>
      }
      return Ok(c.outcome);
    }
  }
}
