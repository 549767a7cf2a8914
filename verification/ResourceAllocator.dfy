/**
The RAM ledger of the resource allocator, in exact arithmetic and with throttling aside. A grant adds the
predicted megabytes to the ledger and records their whole part; a release takes the whole part off again.
*/
module ResourceAllocation {
  import opened Common

  const MAX_CONCURRENT: nat := 3
  const MAX_RAM_MB: real := 5632.0
  const MIN_PREDICTION: real := 100.0

  /**
  The active requests with their recorded megabytes, and the ledger. History: the fractional parts of all
  grants, their number, and the megabytes of grants overwritten by a later grant to the same request.
  */
  datatype State = State(active: map<string, nat>, total: real, fractions: real, grants: nat, overwritten: nat)

  const INIT := State(map[], 0.0, 0.0, 0, 0)

  /** A request arrives with its prediction (at least `MIN_PREDICTION`), or ends by release or cancellation. */
  datatype Step = Acquire(id: string, predicted: real) | End(id: string)

  predicate CanAccept(s: State, predicted: real) {
    |s.active| < MAX_CONCURRENT && s.total + predicted <= MAX_RAM_MB
  }

  function Whole(x: real): nat
    requires x >= 0.0
  {
    x.Floor
  }

  function Apply(s: State, step: Step): State {
    match step
    case Acquire(id, predicted) =>
      if predicted < MIN_PREDICTION || !CanAccept(s, predicted) then s
      else State(s.active[id := Whole(predicted)], s.total + predicted,
                 s.fractions + (predicted - Whole(predicted) as real), s.grants + 1,
                 s.overwritten + if id in s.active then s.active[id] else 0)
    case End(id) =>
      if id in s.active then s.(active := s.active - {id}, total := s.total - s.active[id] as real) else s
  }

  function Run(s: State, steps: seq<Step>): State {
    if steps == [] then s else Apply(Run(s, steps[..|steps| - 1]), steps[|steps| - 1])
  }

  /** The sum of the recorded megabytes. */
  ghost function Sum(m: map<string, nat>): nat {
    if m.Keys == {} then 0
    else
      var k :| k in m.Keys;
      m[k] + Sum(m - {k})
  }

  lemma {:induction false} SumWithout(m: map<string, nat>, k: string)
    requires k in m
    ensures Sum(m) == m[k] + Sum(m - {k})
    decreases |m|
  {
    var l :| l in m.Keys && Sum(m) == m[l] + Sum(m - {l});
    if l != k {
      SumWithout(m - {l}, k);
      SumWithout(m - {k}, l);
      assert m - {l} - {k} == m - {k} - {l};
    }
  }

  lemma SumUpdated(m: map<string, nat>, k: string, v: nat)
    ensures Sum(m[k := v]) + (if k in m then m[k] else 0) == Sum(m) + v
  {
    assert m[k := v] - {k} == m - {k};
    SumWithout(m[k := v], k);
    if k in m {
      SumWithout(m, k);
    } else {
      assert m - {k} == m;
    }
  }

  /** The ledger is the active sum, plus the fractions of all grants, plus what overwritten grants left behind. */
  ghost predicate Balanced(s: State) {
    && s.total == Sum(s.active) as real + s.fractions + s.overwritten as real
    && 0.0 <= s.fractions <= s.grants as real && (s.grants > 0 ==> s.fractions < s.grants as real)
    && s.total <= MAX_RAM_MB
    && |s.active| <= MAX_CONCURRENT
  }

  lemma BalancedStep(s: State, step: Step)
    requires Balanced(s)
    ensures Balanced(Apply(s, step))
  {
    match step
    case Acquire(id, predicted) =>
      if predicted >= MIN_PREDICTION {
        SumUpdated(s.active, id, Whole(predicted));
      }
    case End(id) =>
      if id in s.active {
        SumWithout(s.active, id);
      }
  }

  /**
  In every reachable state at most three requests are active, the ledger stays within the cap and never below
  the active sum, and the gap between the two is exactly the fractional parts of all grants, less than the
  number of grants, plus the megabytes of overwritten grants.
  */
  lemma {:induction false} LedgerAccounts(steps: seq<Step>)
    ensures Balanced(Run(INIT, steps))
  {
    if steps == [] {
      assert Sum(INIT.active) == 0;
    } else {
      LedgerAccounts(steps[..|steps| - 1]);
      BalancedStep(Run(INIT, steps[..|steps| - 1]), steps[|steps| - 1]);
    }
  }

  /** Each id is acquired only while it is inactive. */
  ghost predicate FreshIds(steps: seq<Step>) {
    forall i :: 0 <= i < |steps| && steps[i].Acquire? ==> steps[i].id !in Run(INIT, steps[..i]).active
  }

  /** Then nothing is overwritten and the gap is the fractions alone. */
  lemma {:induction false} FreshIdsGap(steps: seq<Step>)
    requires FreshIds(steps)
    ensures Run(INIT, steps).overwritten == 0
    ensures Run(INIT, steps).total - Sum(Run(INIT, steps).active) as real == Run(INIT, steps).fractions
  {
    LedgerAccounts(steps);
    if steps != [] {
      var before := steps[..|steps| - 1];
      assert FreshIds(before) by {
        forall i | 0 <= i < |before| && before[i].Acquire?
          ensures before[i].id !in Run(INIT, before[..i]).active
        {
          assert before[..i] == steps[..i] && steps[i].Acquire?;
        }
      }
      FreshIdsGap(before);
      assert steps[|steps| - 1].Acquire? ==> steps[|steps| - 1].id !in Run(INIT, steps[..|steps| - 1]).active;
    }
  }

  /** What no release gives back. */
  function Residue(s: State): real {
    s.fractions + s.overwritten as real
  }

  lemma {:induction false} ResidueOnlyGrows(s: State, steps: seq<Step>)
    ensures Residue(Run(s, steps)) >= Residue(s)
  {
    if steps != [] {
      ResidueOnlyGrows(s, steps[..|steps| - 1]);
    }
  }

  /** The residue never reaches into the room of the smallest prediction. */
  lemma {:induction false} ResidueBound(steps: seq<Step>)
    ensures Residue(Run(INIT, steps)) <= MAX_RAM_MB - MIN_PREDICTION
  {
    if steps != [] {
      var before, step := steps[..|steps| - 1], steps[|steps| - 1];
      ResidueBound(before);
      LedgerAccounts(steps);
      var s, t := Run(INIT, before), Run(INIT, steps);
      if step.Acquire? && t != s {
        SumWithout(t.active, step.id);
        assert t.active[step.id] >= 100;
      }
    }
  }

  /**
  The ledger drifts. An idle allocator accepts a prediction exactly when it fits above the residue; once it
  does not, no request with that prediction is accepted in any continuation; but the smallest prediction
  always fits.
  */
  lemma IdleAcceptsIffAboveResidue(steps: seq<Step>, predicted: real)
    requires predicted >= MIN_PREDICTION
    ensures Run(INIT, steps).active == map[] ==>
      (CanAccept(Run(INIT, steps), predicted) <==> Residue(Run(INIT, steps)) + predicted <= MAX_RAM_MB)
    ensures Residue(Run(INIT, steps)) + predicted > MAX_RAM_MB ==>
      forall later :: !CanAccept(Run(Run(INIT, steps), later), predicted)
    ensures predicted == MIN_PREDICTION ==> Residue(Run(INIT, steps)) + predicted <= MAX_RAM_MB
  {
    LedgerAccounts(steps);
    ResidueBound(steps);
    var s := Run(INIT, steps);
    if Residue(s) + predicted > MAX_RAM_MB {
      forall later
        ensures !CanAccept(Run(s, later), predicted)
      {
        ResidueOnlyGrows(s, later);
        BalancedRun(s, later);
      }
    }
    assert Sum(map[]) == 0;
  }

  /**
  In every reachable state a request with a new id becomes active if and only if fewer than three are active and
  its prediction fits beside the active sum and the residue.
  */
  lemma GrantedIffItFits(steps: seq<Step>, id: string, predicted: real)
    requires predicted >= MIN_PREDICTION && id !in Run(INIT, steps).active
    ensures var s := Run(INIT, steps);
      id in Apply(s, Acquire(id, predicted)).active <==>
        |s.active| < 3 && Sum(s.active) as real + Residue(s) + predicted <= 5632.0
  {
    LedgerAccounts(steps);
  }

  lemma {:induction false} BalancedRun(s: State, steps: seq<Step>)
    requires Balanced(s)
    ensures Balanced(Run(s, steps))
  {
    if steps != [] {
      BalancedRun(s, steps[..|steps| - 1]);
      BalancedStep(Run(s, steps[..|steps| - 1]), steps[|steps| - 1]);
    }
  }

  /** One request after the other, each predicted at 100.5 MB. */
  function Rounds(n: nat): seq<Step> {
    if n == 0 then [] else Rounds(n - 1) + [Acquire("q", 100.5), End("q")]
  }

  /**
  The drift is real: after 11064 such rounds nothing is active and the ledger holds 5532 MB, so nothing above the
  smallest prediction fits any more.
  */
  lemma {:induction false} RoundsDrift(n: nat)
    requires n <= 11064
    ensures Run(INIT, Rounds(n)) == Drifted(n)
  {
    if n > 0 {
      RoundsDrift(n - 1);
      RunTwo(INIT, Rounds(n - 1), Acquire("q", 100.5), End("q"));
      OneRound(n - 1);
    }
  }

  /** Nothing active, and half a megabyte left by each of `n` grants. */
  function Drifted(n: nat): State {
    State(map[], n as real / 2.0, n as real / 2.0, n, 0)
  }

  lemma RunTwo(s: State, before: seq<Step>, a: Step, b: Step)
    ensures Run(s, before + [a, b]) == Apply(Apply(Run(s, before), a), b)
  {
    assert (before + [a, b])[..|before| + 1] == before + [a];
    assert (before + [a])[..|before|] == before;
  }

  lemma OneRound(n: nat)
    requires n < 11064
    ensures Apply(Apply(Drifted(n), Acquire("q", 100.5)), End("q")) == Drifted(n + 1)
  {
    var t := Apply(Drifted(n), Acquire("q", 100.5));
    assert Whole(100.5) == 100;
    assert t.active == map["q" := 100];
    assert Apply(t, End("q")).active == map[];
  }

  // ---------------------------------------------------------------- the object

  datatype AcquireError = ResourceExhausted

  class ResourceAllocator {
    var activeRequests: map<string, nat>
    var totalRamMb: real
    ghost var fractions: real
    ghost var grants: nat
    ghost var overwritten: nat

    ghost function Abs(): State
      reads this
    {
      State(activeRequests, totalRamMb, fractions, grants, overwritten)
    }

    constructor ()
      ensures Abs() == INIT
    {
      activeRequests, totalRamMb, fractions, grants, overwritten := map[], 0.0, 0.0, 0, 0;
    }

    method Acquire(id: string, predicted: real) returns (r: Result<nat, AcquireError>)
      requires predicted >= MIN_PREDICTION
      modifies this
      ensures Abs() == Apply(old(Abs()), Step.Acquire(id, predicted))
      ensures r == if CanAccept(old(Abs()), predicted) then Ok(Whole(predicted)) else Err(ResourceExhausted)
    {
      if |activeRequests| >= MAX_CONCURRENT || totalRamMb + predicted > MAX_RAM_MB {
        return Err(ResourceExhausted);
      }
      fractions, grants := fractions + (predicted - Whole(predicted) as real), grants + 1;
      overwritten := overwritten + if id in activeRequests then activeRequests[id] else 0;
      activeRequests := activeRequests[id := Whole(predicted)];
      totalRamMb := totalRamMb + predicted;
      return Ok(Whole(predicted));
    }

    /** The ledger part of `release` and of `cancel`. */
    method Release(id: string)
      modifies this
      ensures Abs() == Apply(old(Abs()), End(id))
    {
      if id in activeRequests {
        var ramMb := activeRequests[id];
        activeRequests := activeRequests - {id};
        totalRamMb := totalRamMb - ramMb as real;
      }
    }
  }
}
