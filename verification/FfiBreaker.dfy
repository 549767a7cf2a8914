/**
The circuit breaker in front of the Rust extensions: Rust, then the Python fallback, then the no-op; Rust and
Python outcomes are reported to the same breaker.
*/
module FfiBreaker {
  const FAILURE_THRESHOLD: nat := 3
  const RECOVERY_TIMEOUT: real := 30.0
  const HALF_OPEN_SUCCESS_THRESHOLD: nat := 2

  datatype Mode = Closed | HalfOpen | Open

  datatype State = State(mode: Mode, failures: nat, halfOpenSuccesses: nat, lastFailure: real)

  const FRESH := State(Closed, 0, 0, 0.0)

  /** What is registered for a module, and how it does on this call: the two come together or not at all. */
  datatype Fallback = Unregistered | PythonWorks | PythonFails(noopWorks: bool)

  /** One call: when it starts, whether Rust would succeed, the fallbacks, and when Rust and Python report. */
  datatype Call = Call(start: real, rustWorks: bool, rustEnd: real, fallback: Fallback, pythonEnd: real)

  datatype Path = RustSimd | PythonNative | Noop(success: bool)

  /** `is_open`, which moves an open breaker to half-open when its recovery time is over. */
  function Observe(s: State, now: real): State {
    if s.mode.Open? && now - s.lastFailure >= RECOVERY_TIMEOUT then s.(mode := HalfOpen) else s
  }

  function Success(s: State): State {
    var probes := if s.mode.HalfOpen? then s.halfOpenSuccesses + 1 else s.halfOpenSuccesses;
    State(if s.mode.HalfOpen? && probes >= HALF_OPEN_SUCCESS_THRESHOLD then Closed else s.mode,
          if s.mode.Closed? then 0 else s.failures, probes, s.lastFailure)
  }

  function Failure(s: State, now: real): State {
    var opens := s.mode.HalfOpen? || (s.mode.Closed? && s.failures + 1 >= FAILURE_THRESHOLD);
    State(if opens then Open else s.mode, s.failures + 1, s.halfOpenSuccesses, now)
  }

  function AfterFallback(s: State, c: Call): State {
    match c.fallback
    case Unregistered => s
    case PythonWorks => Success(s)
    case PythonFails(_) => Failure(s, c.pythonEnd)
  }

  function FallbackPath(c: Call): Path {
    match c.fallback
    case Unregistered => Noop(false)
    case PythonWorks => PythonNative
    case PythonFails(noopWorks) => Noop(noopWorks)
  }

  function Through(s: State, c: Call): State {
    var t := Observe(s, c.start);
    if t.mode.Open? then AfterFallback(t, c)
    else if c.rustWorks then Success(t)
    else AfterFallback(Failure(t, c.rustEnd), c)
  }

  function PathOf(s: State, c: Call): Path {
    if !Observe(s, c.start).mode.Open? && c.rustWorks then RustSimd else FallbackPath(c)
  }

  function Run(s: State, calls: seq<Call>): State {
    if calls == [] then s else Through(Run(s, calls[..|calls| - 1]), calls[|calls| - 1])
  }

  // ---------------------------------------------------------------- when it opens

  /** What a call to a closed breaker reports, in order: true for a success. */
  function Reports(c: Call): seq<bool> {
    if c.rustWorks then [true]
    else match c.fallback
      case Unregistered => [false]
      case PythonWorks => [false, true]
      case PythonFails(_) => [false, false]
  }

  function AllReports(calls: seq<Call>): seq<bool> {
    if calls == [] then [] else AllReports(calls[..|calls| - 1]) + Reports(calls[|calls| - 1])
  }

  /** Three failing reports in a row. */
  ghost predicate HasStreak(reports: seq<bool>) {
    exists i :: StreakAt(reports, i)
  }

  ghost predicate StreakAt(reports: seq<bool>, i: nat) {
    i + FAILURE_THRESHOLD <= |reports| && !reports[i] && !reports[i + 1] && !reports[i + 2]
  }

  /** The number of failing reports at the end. */
  function Streak(reports: seq<bool>): nat {
    if reports == [] || reports[|reports| - 1] then 0 else 1 + Streak(reports[..|reports| - 1])
  }

  lemma {:induction false} StreakMeaning(reports: seq<bool>)
    ensures Streak(reports) <= |reports|
    ensures forall i :: |reports| - Streak(reports) <= i < |reports| ==> !reports[i]
    ensures Streak(reports) < |reports| ==> reports[|reports| - Streak(reports) - 1]
  {
    if reports != [] && !reports[|reports| - 1] {
      StreakMeaning(reports[..|reports| - 1]);
    }
  }

  /** A streak at the end is a streak. */
  lemma LongStreak(reports: seq<bool>)
    requires Streak(reports) >= FAILURE_THRESHOLD
    ensures HasStreak(reports)
  {
    StreakMeaning(reports);
    assert StreakAt(reports, |reports| - 3);
  }

  lemma StreakStep(reports: seq<bool>, x: bool)
    ensures HasStreak(reports + [x]) <==> HasStreak(reports) || Streak(reports + [x]) >= FAILURE_THRESHOLD
    ensures Streak(reports + [x]) == if x then 0 else Streak(reports) + 1
  {
    var longer, n := reports + [x], |reports|;
    assert longer[..n] == reports;
    if HasStreak(reports) {
      StreakStays(reports, x);
    } else if Streak(longer) >= FAILURE_THRESHOLD {
      LongStreak(longer);
    } else if HasStreak(longer) {
      NewStreakIsLast(reports, x);
    }
  }

  lemma StreakStays(reports: seq<bool>, x: bool)
    requires HasStreak(reports)
    ensures HasStreak(reports + [x])
  {
    var i: nat :| StreakAt(reports, i);
    assert StreakAt(reports + [x], i);
  }

  lemma NewStreakIsLast(reports: seq<bool>, x: bool)
    requires HasStreak(reports + [x])
    ensures HasStreak(reports) || Streak(reports + [x]) >= FAILURE_THRESHOLD
  {
    var longer := reports + [x];
    var i: nat :| StreakAt(longer, i);
    if i + FAILURE_THRESHOLD <= |reports| {
      assert StreakAt(reports, i);
    } else {
      StreakMeaning(longer);
    }
  }

  /** What the reports of one call add to a list of reports. */
  lemma CallReports(done: seq<bool>, c: Call)
    ensures HasStreak(done + Reports(c)) <==>
      || HasStreak(done)
      || (!c.rustWorks && Streak(done) + (if c.fallback.PythonFails? then 2 else 1) >= FAILURE_THRESHOLD)
    ensures Streak(done + Reports(c)) ==
      if c.rustWorks || c.fallback.PythonWorks? then 0 else Streak(done) + if c.fallback.PythonFails? then 2 else 1
  {
    var x := Reports(c)[0];
    StreakStep(done, x);
    if |Reports(c)| == 2 {
      var y := Reports(c)[1];
      StreakStep(done + [x], y);
      assert done + Reports(c) == done + [x] + [y];
    } else {
      assert done + Reports(c) == done + [x];
    }
  }

  /** What one call does to a closed breaker. */
  lemma ClosedCall(s: State, c: Call)
    requires s.mode.Closed? && s.failures < FAILURE_THRESHOLD
    ensures Through(s, c).mode.Closed? <==>
      c.rustWorks || s.failures + (if c.fallback.PythonFails? then 2 else 1) < FAILURE_THRESHOLD
    ensures Through(s, c).mode.Closed? && (c.rustWorks || c.fallback.PythonWorks?) ==> Through(s, c).failures == 0
    ensures Through(s, c).mode.Closed? && !c.rustWorks && !c.fallback.PythonWorks? ==>
      Through(s, c).failures == s.failures + if c.fallback.PythonFails? then 2 else 1
  {
  }

  /** Closed after every call of the list. */
  ghost predicate ClosedThroughout(calls: seq<Call>) {
    Run(FRESH, calls).mode.Closed? && (calls == [] || ClosedThroughout(calls[..|calls| - 1]))
  }

  /**
  Opening: a fresh breaker stays closed through a list of calls exactly when the reports of Rust and Python
  together hold no three failures in a row. A Python success counts, so it hides the Rust failure before it.
  */
  lemma {:induction false} OpensIffThreeReportsFail(calls: seq<Call>)
    ensures ClosedThroughout(calls) <==> !HasStreak(AllReports(calls))
    ensures ClosedThroughout(calls) ==> Run(FRESH, calls).failures == Streak(AllReports(calls))
  {
    if calls != [] {
      var before, c := calls[..|calls| - 1], calls[|calls| - 1];
      OpensIffThreeReportsFail(before);
      CallReports(AllReports(before), c);
      if ClosedThroughout(before) {
        if Streak(AllReports(before)) >= FAILURE_THRESHOLD {
          LongStreak(AllReports(before));
        }
        ClosedCall(Run(FRESH, before), c);
      }
    }
  }

  lemma {:induction false} WorkingFallbackReports(calls: seq<Call>)
    requires forall i :: 0 <= i < |calls| ==> calls[i].fallback.PythonWorks?
    ensures !HasStreak(AllReports(calls)) && Streak(AllReports(calls)) == 0
  {
    if calls != [] {
      var before, c := calls[..|calls| - 1], calls[|calls| - 1];
      WorkingFallbackReports(before);
      CallReports(AllReports(before), c);
    }
  }

  /** `n` calls in which Rust fails and the fallback does the same each time. */
  function Failing(fallback: Fallback, n: nat): seq<Call> {
    seq(n, i => Call(0.0, false, 0.0, fallback, 0.0))
  }

  /**
  The documented threshold, exactly: with Rust failing on every call, the breaker ever opens if and only if the
  Python fallback does not work; while it works, Rust is tried on every call for ever.
  */
  lemma OpensIffFallbackFails(fallback: Fallback)
    ensures !fallback.PythonWorks? <==> exists n: nat :: !ClosedThroughout(Failing(fallback, n))
  {
    if fallback.PythonWorks? {
      forall n: nat
        ensures ClosedThroughout(Failing(fallback, n))
      {
        WorkingFallbackReports(Failing(fallback, n));
        OpensIffThreeReportsFail(Failing(fallback, n));
      }
    } else {
      var calls := Failing(fallback, 3);
      var r := Reports(calls[0]);
      assert calls[..2] == Failing(fallback, 2) && calls[..2][..1] == Failing(fallback, 1) &&
        calls[..2][..1][..0] == [];
      assert AllReports(calls[..2][..1]) == r;
      assert AllReports(calls[..2]) == r + r;
      assert AllReports(calls) == r + r + r;
      var all := AllReports(calls);
      assert StreakAt(all, 0);
      OpensIffThreeReportsFail(calls);
    }
  }

  // ---------------------------------------------------------------- recovery

  /** Rust is tried on this call. */
  predicate Tries(s: State, c: Call) {
    !Observe(s, c.start).mode.Open?
  }

  /** The number of calls of a run whose probe of a half-open breaker succeeded. */
  function GoodProbes(s: State, calls: seq<Call>): nat {
    if calls == [] then 0
    else
      var before, c := calls[..|calls| - 1], calls[|calls| - 1];
      GoodProbes(s, before) + if Observe(Run(s, before), c.start).mode.HalfOpen? && c.rustWorks then 1 else 0
  }

  /** The successes counted in half-open mode are never forgotten. */
  lemma {:induction false} ProbesAreCountedForEver(s: State, calls: seq<Call>)
    ensures Run(s, calls).halfOpenSuccesses == s.halfOpenSuccesses + GoodProbes(s, calls)
  {
    if calls != [] {
      ProbesAreCountedForEver(s, calls[..|calls| - 1]);
    }
  }

  /**
  So the promise of two successful probes holds for the first recovery only: in any run of a fresh breaker a
  half-open breaker whose next probe succeeds closes at once if and only if some earlier probe of the run
  succeeded, however long ago and whatever failed since.
  */
  lemma ClosesAtOnceIffProbedBefore(calls: seq<Call>, c: Call)
    requires Observe(Run(FRESH, calls), c.start).mode.HalfOpen? && c.rustWorks
    ensures Through(Run(FRESH, calls), c).mode.Closed? <==> GoodProbes(FRESH, calls) >= 1
  {
    ProbesAreCountedForEver(FRESH, calls);
  }

  lemma LaterRecoveriesTakeOneProbe(s: State, recovery: Call, calls: seq<Call>, c: Call)
    requires Observe(s, recovery.start).mode.HalfOpen? && Through(s, recovery).mode.Closed?
    requires Observe(Run(Through(s, recovery), calls), c.start).mode.HalfOpen? && c.rustWorks
    ensures Through(Run(Through(s, recovery), calls), c).mode.Closed?
  {
    ProbesAreCountedForEver(Through(s, recovery), calls);
  }

  /** Only a closed breaker has fewer failures than the threshold. */
  lemma {:induction false} OpenKeepsFailures(calls: seq<Call>)
    ensures var s := Run(FRESH, calls); s.mode.Closed? || s.failures >= FAILURE_THRESHOLD
  {
    if calls != [] {
      OpenKeepsFailures(calls[..|calls| - 1]);
    }
  }

  /**
  A recovery does not forget the failures before it: the first Rust failure after it, and not a third one,
  opens the breaker again. Only a Rust success as the first report restores the threshold.
  */
  lemma RecoveredOpensAtFirstFailure(calls: seq<Call>, recovery: Call, c: Call)
    requires Observe(Run(FRESH, calls), recovery.start).mode.HalfOpen?
    requires Through(Run(FRESH, calls), recovery).mode.Closed?
    ensures var t := Through(Through(Run(FRESH, calls), recovery), c);
      if c.rustWorks then t.mode.Closed? && t.failures == 0 else t.mode.Open?
  {
    OpenKeepsFailures(calls);
  }

  /** When the last failing fallback reported, or the time of the last failure before the calls. */
  function LastFallbackFailure(s: State, calls: seq<Call>): real {
    if calls == [] then s.lastFailure
    else
      var c := calls[|calls| - 1];
      if c.fallback.PythonFails? then c.pythonEnd else LastFallbackFailure(s, calls[..|calls| - 1])
  }

  /** Each call starts within the recovery time of the last failing fallback before it. */
  ghost predicate KeptBusy(s: State, calls: seq<Call>) {
    forall i :: 0 <= i < |calls| ==> calls[i].start - LastFallbackFailure(s, calls[..i]) < RECOVERY_TIMEOUT
  }

  ghost predicate NeverTries(s: State, calls: seq<Call>) {
    forall i :: 0 <= i < |calls| ==> !Tries(Run(s, calls[..i]), calls[i])
  }

  lemma KeptBusyPrefix(s: State, calls: seq<Call>)
    requires calls != []
    ensures var before, c := calls[..|calls| - 1], calls[|calls| - 1];
      KeptBusy(s, calls) <==> KeptBusy(s, before) && c.start - LastFallbackFailure(s, before) < RECOVERY_TIMEOUT
  {
    var before := calls[..|calls| - 1];
    forall i | 0 <= i < |before|
      ensures before[..i] == calls[..i] && before[i] == calls[i]
    {
    }
  }

  lemma NeverTriesPrefix(s: State, calls: seq<Call>)
    requires calls != []
    ensures var before, c := calls[..|calls| - 1], calls[|calls| - 1];
      NeverTries(s, calls) <==> NeverTries(s, before) && !Tries(Run(s, before), c)
  {
    var before := calls[..|calls| - 1];
    forall i | 0 <= i < |before|
      ensures before[..i] == calls[..i] && before[i] == calls[i]
    {
    }
  }

  /**
  A failing Python fallback restarts the recovery time of an open breaker. So from an open breaker on, Rust is
  never tried if and only if each call starts within the recovery time of the last failing fallback before it.
  */
  lemma {:induction false} FailingFallbackPostponesRecovery(s: State, calls: seq<Call>)
    requires s.mode.Open?
    ensures NeverTries(s, calls) <==> KeptBusy(s, calls)
    ensures NeverTries(s, calls) ==>
      Run(s, calls).mode.Open? && Run(s, calls).lastFailure == LastFallbackFailure(s, calls)
  {
    if calls != [] {
      FailingFallbackPostponesRecovery(s, calls[..|calls| - 1]);
      KeptBusyPrefix(s, calls);
      NeverTriesPrefix(s, calls);
    }
  }

  /** When the last failure of a run was reported: by a failing fallback, or before it by Rust. */
  function LastReport(calls: seq<Call>): real {
    if calls == [] then 0.0
    else
      var before, c := calls[..|calls| - 1], calls[|calls| - 1];
      if c.fallback.PythonFails? && !(Tries(Run(FRESH, before), c) && c.rustWorks) then c.pythonEnd
      else if Tries(Run(FRESH, before), c) && !c.rustWorks then c.rustEnd
      else LastReport(before)
  }

  /** In every run an open breaker lets Rust be tried exactly from 30 seconds after the last reported failure on. */
  lemma {:induction false} OpenUntilThirtySeconds(calls: seq<Call>, c: Call)
    ensures Run(FRESH, calls).lastFailure == LastReport(calls)
    ensures Run(FRESH, calls).mode.Open? ==> (Tries(Run(FRESH, calls), c) <==> c.start - LastReport(calls) >= 30.0)
    ensures !Run(FRESH, calls).mode.Open? ==> Tries(Run(FRESH, calls), c)
  {
    if calls != [] {
      OpenUntilThirtySeconds(calls[..|calls| - 1], calls[|calls| - 1]);
    }
  }

  /** A call succeeds if and only if one of those asked works: Rust when it is tried, Python, and then the no-op. */
  lemma SomebodyAnswers(s: State, c: Call)
    ensures PathOf(s, c).RustSimd? <==> Tries(s, c) && c.rustWorks
    ensures PathOf(s, c) == Noop(false) <==>
      !(Tries(s, c) && c.rustWorks) && c.fallback in {Unregistered, PythonFails(false)}
    ensures PathOf(s, c) == PythonNative ==> c.fallback == PythonWorks
    ensures PathOf(s, c) == Noop(true) ==> c.fallback == PythonFails(true)
  {
  }

  // ---------------------------------------------------------------- the object

  class ModuleBreaker {
    var mode: Mode
    var failureCount: nat
    var halfOpenSuccesses: nat
    var lastFailureTime: real

    ghost function Abs(): State
      reads this
    {
      State(mode, failureCount, halfOpenSuccesses, lastFailureTime)
    }

    constructor ()
      ensures Abs() == FRESH
    {
      mode, failureCount, halfOpenSuccesses, lastFailureTime := Closed, 0, 0, 0.0;
    }

    method IsOpen(now: real) returns (open: bool)
      modifies this
      ensures Abs() == Observe(old(Abs()), now) && (open <==> mode == Open)
    {
      if mode == Open {
        if now - lastFailureTime >= RECOVERY_TIMEOUT {
          mode := HalfOpen;
          return false;
        }
        return true;
      }
      return false;
    }

    method RecordSuccess()
      modifies this
      ensures Abs() == Success(old(Abs()))
    {
      if mode == HalfOpen {
        halfOpenSuccesses := halfOpenSuccesses + 1;
        if halfOpenSuccesses >= HALF_OPEN_SUCCESS_THRESHOLD {
          mode := Closed;
        }
      } else if mode == Closed {
        failureCount := 0;
      }
    }

    method RecordFailure(now: real)
      modifies this
      ensures Abs() == Failure(old(Abs()), now)
    {
      failureCount, lastFailureTime := failureCount + 1, now;
      if mode == HalfOpen || (mode == Closed && failureCount >= FAILURE_THRESHOLD) {
        mode := Open;
      }
    }

    /** `call_or_fallback`: which implementation answered. */
    method CallOrFallback(c: Call) returns (path: Path)
      modifies this
      ensures Abs() == Through(old(Abs()), c) && path == PathOf(old(Abs()), c)
    {
      var open := IsOpen(c.start);
      if !open {
        if c.rustWorks {
          RecordSuccess();
          return RustSimd;
        }
        RecordFailure(c.rustEnd);
      }
      match c.fallback
      case Unregistered => return Noop(false);
      case PythonWorks =>
        RecordSuccess();
        return PythonNative;
      case PythonFails(noopWorks) =>
        RecordFailure(c.pythonEnd);
        return Noop(noopWorks);
    }
  }
}
