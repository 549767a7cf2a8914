/**
Read/write coordination: readers pass a write barrier, take a semaphore permit, are counted under the lock and
connect; writers close the barrier, and on completion advance the version, zero the reader count and open the
barrier again. `Apply` is one atomic segment of some coroutine; a step that is not possible changes nothing.
*/
module ReadCoordination {
  type Id = nat

  /** `epoch` counts the writes started when the reader was let through the barrier. */
  datatype Reader =
    | Waiting
    | Passed(epoch: nat)
    | Permitted(epoch: nat)
    | Counted(version: nat, epoch: nat)
    | Reading(version: nat, epoch: nat)
    | Leaked(version: nat)               // the connection failed: neither the count nor the permit is given back
    | Releasing

  type Readers = map<Id, Reader>

  /**
  `writers`: each write in progress with its number in starting order. `late`: older reads released since the last
  completion.
  */
  datatype State = State(
    permits: nat, barrier: bool, active: int, version: nat,
    readers: Readers, writers: map<Id, nat>, starts: nat, late: nat)

  datatype Step =
    | Arrive(r: Id)
    | TakePermit(r: Id)
    | Snapshot(r: Id)
    | Connect(r: Id, ok: bool)
    | ReleaseCount(r: Id)
    | ReleasePermit(r: Id)
    | WriteStarted(w: Id)
    | WriteCompleted(w: Id)

  function Init(limit: nat): State {
    State(limit, true, 0, 0, map[], map[], 0, 0)
  }

  /** Setting the event lets every waiting reader go on, even if it is cleared before the reader runs. */
  function Woken(readers: Readers, epoch: nat): Readers {
    map r | r in readers :: if readers[r].Waiting? then Passed(epoch) else readers[r]
  }

  predicate Enabled(s: State, step: Step) {
    match step
    case Arrive(r) => r !in s.readers
    case TakePermit(r) => r in s.readers && s.readers[r].Passed? && s.permits > 0
    case Snapshot(r) => r in s.readers && s.readers[r].Permitted?
    case Connect(r, ok) => r in s.readers && s.readers[r].Counted?
    case ReleaseCount(r) => r in s.readers && s.readers[r].Reading?
    case ReleasePermit(r) => r in s.readers && s.readers[r].Releasing?
    case WriteStarted(w) => w !in s.writers
    case WriteCompleted(w) => w in s.writers
  }

  function Effect(s: State, step: Step): State
    requires Enabled(s, step)
  {
    match step
    case Arrive(r) => s.(readers := s.readers[r := if s.barrier then Passed(s.starts) else Waiting])
    case TakePermit(r) => s.(permits := s.permits - 1, readers := s.readers[r := Permitted(s.readers[r].epoch)])
    case Snapshot(r) => s.(active := s.active + 1, readers := s.readers[r := Counted(s.version, s.readers[r].epoch)])
    case Connect(r, ok) =>
      var p := s.readers[r];
      s.(readers := s.readers[r := if ok then Reading(p.version, p.epoch) else Leaked(p.version)])
    case ReleaseCount(r) =>
      s.(active := s.active - 1, readers := s.readers[r := Releasing],
         late := if s.readers[r].version < s.version then s.late + 1 else s.late)
    case ReleasePermit(r) => s.(permits := s.permits + 1, readers := s.readers - {r})
    case WriteStarted(w) => s.(barrier := false, writers := s.writers[w := s.starts + 1], starts := s.starts + 1)
    case WriteCompleted(w) =>
      s.(version := s.version + 1, active := 0, late := 0, barrier := true, writers := s.writers - {w},
         readers := Woken(s.readers, s.starts))
  }

  function Apply(s: State, step: Step): State {
    if Enabled(s, step) then Effect(s, step) else s
  }

  function RunFrom(s: State, steps: seq<Step>): State {
    if steps == [] then s else Apply(RunFrom(s, steps[..|steps| - 1]), steps[|steps| - 1])
  }

  // ---------------------------------------------------------------- permits and the reader count

  predicate HoldsPermit(p: Reader) {
    p.Permitted? || IsCounted(p) || p.Releasing?
  }

  /** Counted in `_active_reads` and not yet discounted. */
  predicate IsCounted(p: Reader) {
    p.Counted? || p.Reading? || p.Leaked?
  }

  function HoldersIn(m: Readers): set<Id> {
    set r | r in m && HoldsPermit(m[r])
  }

  function CurrentIn(m: Readers, version: nat): set<Id> {
    set r | r in m && IsCounted(m[r]) && m[r].version == version
  }

  function OlderIn(m: Readers, version: nat): set<Id> {
    set r | r in m && IsCounted(m[r]) && m[r].version < version
  }

  function Holders(s: State): set<Id> {
    HoldersIn(s.readers)
  }

  function Current(s: State): set<Id> {
    CurrentIn(s.readers, s.version)
  }

  function Older(s: State): set<Id> {
    OlderIn(s.readers, s.version)
  }

  function LeakedReads(s: State): set<Id> {
    set r | r in s.readers && s.readers[r].Leaked?
  }

  ghost predicate VersionsUpTo(m: Readers, version: nat) {
    forall r :: r in m && IsCounted(m[r]) ==> m[r].version <= version
  }

  ghost predicate Inv(limit: nat, s: State) {
    && s.permits + |Holders(s)| == limit
    && s.active == |Current(s)| - s.late
    && s.late + |Older(s)| <= limit
    && VersionsUpTo(s.readers, s.version)
  }

  /** How the three sets change when one reader changes its phase. */
  lemma PhaseChange(m: Readers, version: nat, r: Id, p: Reader)
    ensures HoldersIn(m[r := p]) == if HoldsPermit(p) then HoldersIn(m) + {r} else HoldersIn(m) - {r}
    ensures CurrentIn(m[r := p], version)
         == if IsCounted(p) && p.version == version then CurrentIn(m, version) + {r} else CurrentIn(m, version) - {r}
    ensures OlderIn(m[r := p], version)
         == if IsCounted(p) && p.version < version then OlderIn(m, version) + {r} else OlderIn(m, version) - {r}
    ensures VersionsUpTo(m, version) && (IsCounted(p) ==> p.version <= version) ==> VersionsUpTo(m[r := p], version)
  {
  }

  /** A reader that gains or loses nothing leaves the three sets alone. */
  lemma PhaseKept(m: Readers, version: nat, r: Id, p: Reader)
    requires if r in m then HoldsPermit(m[r]) == HoldsPermit(p) && IsCounted(m[r]) == IsCounted(p) else !HoldsPermit(p)
    requires r in m && IsCounted(p) ==> m[r].version == p.version
    ensures HoldersIn(m[r := p]) == HoldersIn(m) && CurrentIn(m[r := p], version) == CurrentIn(m, version)
    ensures OlderIn(m[r := p], version) == OlderIn(m, version)
    ensures VersionsUpTo(m, version) ==> VersionsUpTo(m[r := p], version)
  {
  }

  lemma PermitKeepsInv(limit: nat, s: State, r: Id)
    requires Inv(limit, s) && Enabled(s, TakePermit(r))
    ensures Inv(limit, Effect(s, TakePermit(r)))
  {
    PhaseChange(s.readers, s.version, r, Permitted(s.readers[r].epoch));
    assert r !in Holders(s) && r !in Current(s) && r !in Older(s);
  }

  lemma SnapshotKeepsInv(limit: nat, s: State, r: Id)
    requires Inv(limit, s) && Enabled(s, Snapshot(r))
    ensures Inv(limit, Effect(s, Snapshot(r)))
  {
    PhaseChange(s.readers, s.version, r, Counted(s.version, s.readers[r].epoch));
    assert r !in Current(s) && Holders(s) + {r} == Holders(s) && Older(s) - {r} == Older(s);
  }

  lemma DiscountKeepsInv(limit: nat, s: State, r: Id)
    requires Inv(limit, s) && Enabled(s, ReleaseCount(r))
    ensures Inv(limit, Effect(s, ReleaseCount(r)))
  {
    PhaseChange(s.readers, s.version, r, Releasing);
    assert Holders(s) + {r} == Holders(s);
    if s.readers[r].version < s.version {
      assert r in Older(s) && Current(s) - {r} == Current(s);
    } else {
      assert r in Current(s) && Older(s) - {r} == Older(s);
    }
  }

  lemma ReleaseKeepsInv(limit: nat, s: State, r: Id)
    requires Inv(limit, s) && Enabled(s, ReleasePermit(r))
    ensures Inv(limit, Effect(s, ReleasePermit(r)))
  {
    var t := Effect(s, ReleasePermit(r));
    assert r in Holders(s) && Holders(t) == Holders(s) - {r} && Current(t) == Current(s) && Older(t) == Older(s);
  }

  lemma CompletionKeepsInv(limit: nat, s: State, w: Id)
    requires Inv(limit, s) && w in s.writers
    ensures Inv(limit, Effect(s, WriteCompleted(w)))
  {
    var t := Effect(s, WriteCompleted(w));
    assert Holders(t) == Holders(s);
    assert Current(t) == {};
    SubsetSize(Older(t), Holders(t));
  }

  lemma {:induction false} SubsetSize<T>(a: set<T>, b: set<T>)
    requires a <= b
    ensures |a| <= |b|
  {
    if a != {} {
      var x :| x in a;
      SubsetSize(a - {x}, b - {x});
    }
  }

  lemma StepKeepsInv(limit: nat, s: State, step: Step)
    requires Inv(limit, s)
    ensures Inv(limit, Apply(s, step))
  {
    if Enabled(s, step) {
      match step
      case Arrive(r) => PhaseKept(s.readers, s.version, r, if s.barrier then Passed(s.starts) else Waiting);
      case TakePermit(r) => PermitKeepsInv(limit, s, r);
      case Snapshot(r) => SnapshotKeepsInv(limit, s, r);
      case Connect(r, ok) =>
        var p := s.readers[r];
        PhaseKept(s.readers, s.version, r, if ok then Reading(p.version, p.epoch) else Leaked(p.version));
      case ReleaseCount(r) => DiscountKeepsInv(limit, s, r);
      case ReleasePermit(r) => ReleaseKeepsInv(limit, s, r);
      case WriteStarted(w) =>
      case WriteCompleted(w) => CompletionKeepsInv(limit, s, w);
    }
  }

  lemma {:induction false} RunKeepsInv(limit: nat, steps: seq<Step>)
    ensures Inv(limit, RunFrom(Init(limit), steps))
  {
    if steps == [] {
      assert Holders(Init(limit)) == {} && Current(Init(limit)) == {} && Older(Init(limit)) == {};
    } else {
      RunKeepsInv(limit, steps[..|steps| - 1]);
      StepKeepsInv(limit, RunFrom(Init(limit), steps[..|steps| - 1]), steps[|steps| - 1]);
    }
  }

  /**
  In every interleaving of readers and writers: free permits plus reads in flight (those whose connection
  failed included) make up the limit; and `_active_reads`, which a completed write zeroes under live reads, is
  the number of counted reads of the current version minus the older ones released since the last completion,
  so it stays between minus and plus the limit.
  */
  lemma {:induction false} ActiveReadsMeaning(limit: nat, steps: seq<Step>)
    ensures var s := RunFrom(Init(limit), steps);
      && s.permits + |Holders(s)| == limit
      && s.active == |Current(s)| - s.late
      && 0 - limit <= s.active <= limit
  {
    RunKeepsInv(limit, steps);
    var s := RunFrom(Init(limit), steps);
    SubsetSize(Current(s), Holders(s));
  }

  // ---------------------------------------------------------------- staleness

  /** The number of writes completed in a run. */
  function Completions(s: State, steps: seq<Step>): nat {
    if steps == [] then 0
    else
      var before, step := steps[..|steps| - 1], steps[|steps| - 1];
      Completions(s, before) + if step.WriteCompleted? && Enabled(RunFrom(s, before), step) then 1 else 0
  }

  lemma {:induction false} VersionCountsCompletions(s: State, steps: seq<Step>)
    ensures RunFrom(s, steps).version == s.version + Completions(s, steps)
  {
    if steps != [] {
      VersionCountsCompletions(s, steps[..|steps| - 1]);
    }
  }

  /** `is_stale` of the handle of reader `r`. */
  predicate IsStale(s: State, r: Id)
    requires r in s.readers && s.readers[r].Reading?
  {
    s.version > s.readers[r].version
  }

  lemma {:induction false} HandleKeepsVersion(s: State, r: Id, steps: seq<Step>)
    requires r in s.readers && IsCounted(s.readers[r]) && s.readers[r].version == s.version
    requires forall i :: 0 <= i < |steps| ==> steps[i] != ReleaseCount(r)
    ensures var t := RunFrom(s, steps); r in t.readers && IsCounted(t.readers[r]) && t.readers[r].version == s.version
  {
    if steps != [] {
      HandleKeepsVersion(s, r, steps[..|steps| - 1]);
    }
  }

  /** A handle is stale exactly when a write completed after its snapshot. */
  lemma {:induction false} StaleIffWriteCompleted(s: State, r: Id, steps: seq<Step>)
    requires Enabled(s, Snapshot(r))
    requires forall i :: 0 <= i < |steps| ==> steps[i] != ReleaseCount(r)
    ensures var t := RunFrom(Effect(s, Snapshot(r)), steps);
      r in t.readers && (t.readers[r].Reading? ==> (IsStale(t, r) <==> Completions(Effect(s, Snapshot(r)), steps) > 0))
  {
    HandleKeepsVersion(Effect(s, Snapshot(r)), r, steps);
    VersionCountsCompletions(Effect(s, Snapshot(r)), steps);
  }

  // ---------------------------------------------------------------- the write barrier

  predicate LetThrough(p: Reader) {
    p.Passed? || p.Permitted? || p.Counted? || p.Reading?
  }

  /** A read runs during a write without having been let through the barrier before that write started. */
  ghost predicate Breach(s: State) {
    exists w, r :: w in s.writers && r in s.readers && s.readers[r].Reading? && s.readers[r].epoch >= s.writers[w]
  }

  /** The step starts a write while another is in progress. */
  ghost predicate StartsOver(s: State, step: Step) {
    step.WriteStarted? && Enabled(s, step) && s.writers != map[]
  }

  /** No write starts while another is in progress. */
  ghost predicate WritesDoNotOverlap(s: State, steps: seq<Step>) {
    forall i :: 0 <= i < |steps| ==> !StartsOver(RunFrom(s, steps[..i]), steps[i])
  }

  /** In a run from the start: a write was started over another, and since then there was always a write in progress. */
  ghost predicate Overlapped(limit: nat, steps: seq<Step>) {
    steps != [] && RunFrom(Init(limit), steps).writers != map[]
    && (|| Overlapped(limit, steps[..|steps| - 1])
        || StartsOver(RunFrom(Init(limit), steps[..|steps| - 1]), steps[|steps| - 1]))
  }

  /** What that looks like in a state: two writes in progress, or one with the barrier open. */
  ghost predicate Overlapping(s: State) {
    exists w :: w in s.writers && (s.barrier || !Alone(s, w))
  }

  ghost predicate Alone(s: State, w: Id) {
    forall x :: x in s.writers ==> x == w
  }

  ghost predicate BarrierInv(s: State) {
    && (s.barrier || s.writers != map[])
    && (forall w :: w in s.writers ==> s.writers[w] <= s.starts)
    && EpochsBelow(s.readers, s.starts + 1)
    && (!Overlapping(s) ==> forall w :: w in s.writers ==> EpochsBelow(s.readers, s.writers[w]))
  }

  /** Every reader that was let through was let through before write number `n` started. */
  ghost predicate EpochsBelow(readers: Readers, n: nat) {
    forall r :: r in readers && LetThrough(readers[r]) ==> readers[r].epoch < n
  }

  lemma OverlapStep(s: State, step: Step)
    requires BarrierInv(s)
    ensures Overlapping(Apply(s, step)) <==> Apply(s, step).writers != map[] && (Overlapping(s) || StartsOver(s, step))
  {
    if step.WriteStarted? && Enabled(s, step) {
      OverlapStart(s, step.w);
    } else if step.WriteCompleted? && Enabled(s, step) {
      OverlapEnd(s, step.w);
    } else {
      SameWritesOverlap(s, Apply(s, step));
    }
  }

  lemma SameWritesOverlap(s: State, t: State)
    requires t.writers == s.writers && t.barrier == s.barrier
    ensures Overlapping(t) <==> Overlapping(s)
  {
    assert forall w :: Alone(s, w) <==> Alone(t, w);
  }

  lemma OverlapStart(s: State, w: Id)
    requires BarrierInv(s) && w !in s.writers
    ensures Overlapping(Effect(s, WriteStarted(w))) <==> s.writers != map[]
  {
    var t := Effect(s, WriteStarted(w));
    if s.writers == map[] {
      assert t.writers.Keys == {w};
    } else {
      var x :| x in s.writers;
      assert x in t.writers && w in t.writers && !Alone(t, w);
    }
  }

  lemma OverlapEnd(s: State, w: Id)
    requires BarrierInv(s) && w in s.writers
    ensures var t := Effect(s, WriteCompleted(w)); Overlapping(t) <==> t.writers != map[]
    ensures Effect(s, WriteCompleted(w)).writers != map[] ==> Overlapping(s)
  {
    var t := Effect(s, WriteCompleted(w));
    if t.writers != map[] {
      var x :| x in t.writers;
      assert t.barrier && x in s.writers && !Alone(s, w);
    }
  }

  /** A reader's step lets nobody through but an arrival at an open barrier. */
  lemma EpochsKept(s: State, step: Step, n: nat)
    requires EpochsBelow(s.readers, n) && !step.WriteCompleted? && (step.Arrive? && s.barrier ==> s.starts < n)
    ensures EpochsBelow(Apply(s, step).readers, n)
  {
  }

  lemma BarrierStep(s: State, step: Step)
    requires BarrierInv(s)
    ensures BarrierInv(Apply(s, step))
  {
    var t := Apply(s, step);
    OverlapStep(s, step);
    if step.WriteStarted? && Enabled(s, step) {
      assert EpochsBelow(t.readers, s.starts + 1);
      assert !Overlapping(t) ==> t.writers.Keys == {step.w};
    } else if step.WriteCompleted? && Enabled(s, step) {
      assert t.writers != map[] ==> Overlapping(t);
    } else if step.WriteCompleted? {
    } else {
      EpochsKept(s, step, s.starts + 1);
      forall w | w in t.writers && !Overlapping(t)
        ensures EpochsBelow(t.readers, t.writers[w])
      {
        assert s.barrier ==> Overlapping(s);
        EpochsKept(s, step, s.writers[w]);
      }
    }
  }

  lemma {:induction false} BarrierRun(limit: nat, steps: seq<Step>)
    ensures BarrierInv(RunFrom(Init(limit), steps))
    ensures Overlapping(RunFrom(Init(limit), steps)) <==> Overlapped(limit, steps)
  {
    if steps != [] {
      var before := RunFrom(Init(limit), steps[..|steps| - 1]);
      BarrierRun(limit, steps[..|steps| - 1]);
      BarrierStep(before, steps[|steps| - 1]);
      OverlapStep(before, steps[|steps| - 1]);
    }
  }

  lemma {:induction false} NoOverlapRun(s: State, steps: seq<Step>)
    requires BarrierInv(s) && !Overlapping(s) && WritesDoNotOverlap(s, steps)
    ensures BarrierInv(RunFrom(s, steps)) && !Overlapping(RunFrom(s, steps)) && !Breach(RunFrom(s, steps))
  {
    if steps != [] {
      var before := steps[..|steps| - 1];
      forall i | 0 <= i < |before|
        ensures !StartsOver(RunFrom(s, before[..i]), before[i])
      {
        assert before[..i] == steps[..i] && steps[i] == before[i];
      }
      NoOverlapRun(s, before);
      BarrierStep(RunFrom(s, before), steps[|steps| - 1]);
      OverlapStep(RunFrom(s, before), steps[|steps| - 1]);
    }
  }

  /**
  While writes do not overlap, a read that runs during a write was let through the barrier before that write started.
  */
  lemma {:induction false} ReadsDuringWriteCameBefore(limit: nat, steps: seq<Step>, w: Id, r: Id)
    requires WritesDoNotOverlap(Init(limit), steps)
    requires var s := RunFrom(Init(limit), steps); w in s.writers && r in s.readers && s.readers[r].Reading?
    ensures var s := RunFrom(Init(limit), steps); s.readers[r].epoch < s.writers[w]
  {
    NoOverlapRun(Init(limit), steps);
  }

  // ---------------------------------------------------------------- getting a read through

  lemma {:induction false} RunConcat(s: State, a: seq<Step>, b: seq<Step>)
    ensures RunFrom(s, a + b) == RunFrom(RunFrom(s, a), b)
  {
    if b == [] {
      assert a + b == a;
    } else {
      RunConcat(s, a, b[..|b| - 1]);
      assert (a + b)[..|a + b| - 1] == a + b[..|b| - 1];
    }
  }

  lemma {:induction false} RunFirst(s: State, step: Step, steps: seq<Step>)
    ensures RunFrom(s, [step] + steps) == RunFrom(Apply(s, step), steps)
  {
    assert [step][..0] == [];
    RunConcat(s, [step], steps);
  }

  /** Steps of readers only: they never overlap writes. */
  ghost predicate StartsNoWrite(steps: seq<Step>) {
    forall i :: 0 <= i < |steps| ==> !steps[i].WriteStarted?
  }

  /** The next step towards giving back a permit. */
  function NextOf(p: Reader, r: Id): Step {
    if p.Permitted? then Snapshot(r) else if p.Counted? then Connect(r, true)
    else if p.Reading? then ReleaseCount(r) else ReleasePermit(r)
  }

  function StepsLeft(p: Reader): nat {
    if p.Permitted? then 4 else if p.Counted? then 3 else if p.Reading? then 2 else 1
  }

  /**
  A read whose connection did not fail can go on until it gives back its permit, touching no other read and no write.
  */
  lemma {:induction false} ReleaseHolder(s: State, h: Id) returns (steps: seq<Step>)
    requires h in s.readers && HoldsPermit(s.readers[h]) && !s.readers[h].Leaked?
    ensures StartsNoWrite(steps)
    ensures var t := RunFrom(s, steps);
      t.permits == s.permits + 1 && t.readers == s.readers - {h}
      && t.barrier == s.barrier && t.writers == s.writers && t.starts == s.starts
    decreases StepsLeft(s.readers[h])
  {
    var step := NextOf(s.readers[h], h);
    var t := Apply(s, step);
    if step.ReleasePermit? {
      steps := [];
    } else {
      steps := ReleaseHolder(t, h);
      assert t.readers - {h} == s.readers - {h};
    }
    RunFirst(s, step, steps);
    steps := [step] + steps;
  }

  /** A new reader reads at once when the barrier is open and a permit is free. */
  lemma {:induction false} ReadAtOnce(s: State, r: Id) returns (steps: seq<Step>)
    requires r !in s.readers && s.permits > 0 && s.barrier
    ensures StartsNoWrite(steps)
    ensures var t := RunFrom(s, steps);
      t.writers == s.writers && r in t.readers && t.readers[r] == Reading(s.version, s.starts)
  {
    var s1 := Apply(s, Arrive(r));
    var s2 := Apply(s1, TakePermit(r));
    var s3 := Apply(s2, Snapshot(r));
    RunFirst(s3, Connect(r, true), []);
    RunFirst(s2, Snapshot(r), [Connect(r, true)]);
    RunFirst(s1, TakePermit(r), [Snapshot(r)] + [Connect(r, true)]);
    RunFirst(s, Arrive(r), [TakePermit(r)] + ([Snapshot(r)] + [Connect(r, true)]));
    steps := [Arrive(r)] + ([TakePermit(r)] + ([Snapshot(r)] + [Connect(r, true)]));
  }

  lemma FreeablePermit(limit: nat, s: State)
    requires Inv(limit, s)
    ensures LeakedReads(s) <= Holders(s) && |LeakedReads(s)| <= limit
    ensures |LeakedReads(s)| < limit ==>
      s.permits > 0 || exists h :: h in s.readers && HoldsPermit(s.readers[h]) && !s.readers[h].Leaked?
  {
    SubsetSize(LeakedReads(s), Holders(s));
    if forall h :: h in s.readers && HoldsPermit(s.readers[h]) ==> s.readers[h].Leaked? {
      SubsetSize(Holders(s), LeakedReads(s));
    }
  }

  /**
  With an open barrier and fewer failed connections than permits, a new reader can get through while no write moves.
  */
  lemma {:induction false} ReadEventually(limit: nat, s: State, r: Id) returns (steps: seq<Step>)
    requires Inv(limit, s) && |LeakedReads(s)| < limit && r !in s.readers && s.barrier
    ensures StartsNoWrite(steps)
    ensures var t := RunFrom(s, steps);
      t.writers == s.writers && r in t.readers && t.readers[r].Reading? && t.readers[r].epoch == s.starts
  {
    FreeablePermit(limit, s);
    var release: seq<Step> := [];
    if s.permits == 0 {
      var h :| h in s.readers && HoldsPermit(s.readers[h]) && !s.readers[h].Leaked?;
      release := ReleaseHolder(s, h);
    }
    var read := ReadAtOnce(RunFrom(s, release), r);
    RunConcat(s, release, read);
    steps := release + read;
  }

  lemma {:induction false} FreshId(used: set<Id>) returns (r: Id)
    ensures forall x :: x in used ==> x < r
  {
    r := 0;
    if used != {} {
      var x :| x in used;
      var y := FreshId(used - {x});
      r := if x < y then y else x + 1;
      assert forall z :: z in used ==> z == x || z in used - {x};
    }
  }

  /** Out of an overlap, a completing write opens the barrier while the other goes on. */
  lemma {:induction false} OverlapOpens(s: State) returns (steps: seq<Step>)
    requires Overlapping(s)
    ensures StartsNoWrite(steps)
    ensures var t := RunFrom(s, steps);
      t.barrier && t.writers != map[] && t.starts == s.starts && LeakedReads(t) == LeakedReads(s)
  {
    var w :| w in s.writers && (s.barrier || !Alone(s, w));
    if s.barrier {
      steps := [];
    } else {
      var x :| x in s.writers && x != w;
      steps := [WriteCompleted(x)];
      RunFirst(s, WriteCompleted(x), []);
      assert w in Apply(s, WriteCompleted(x)).writers;
    }
  }

  /**
  The write barrier, exactly. In every reachable state in which fewer connections failed than there are
  permits: without a further overlap of writes, a read can come to run during a write without having been let
  through before it if and only if an overlapping start has taken effect, with some write in progress ever since.
  */
  lemma {:induction false} OverlapLetsReadersThrough(limit: nat, before: seq<Step>)
    requires |LeakedReads(RunFrom(Init(limit), before))| < limit
    ensures var s := RunFrom(Init(limit), before);
      (exists after :: WritesDoNotOverlap(s, after) && Breach(RunFrom(s, after))) <==> Overlapped(limit, before)
  {
    var s := RunFrom(Init(limit), before);
    BarrierRun(limit, before);
    if Overlapping(s) {
      RunKeepsInv(limit, before);
      var after := OverlapBreaches(limit, s);
      assert WritesDoNotOverlap(s, after);
    } else {
      forall after | WritesDoNotOverlap(s, after)
        ensures !Breach(RunFrom(s, after))
      {
        NoOverlapRun(s, after);
      }
    }
  }

  lemma OverlapBreaches(limit: nat, s: State) returns (after: seq<Step>)
    requires Inv(limit, s) && BarrierInv(s) && Overlapping(s) && |LeakedReads(s)| < limit
    ensures StartsNoWrite(after) && Breach(RunFrom(s, after))
  {
    var open := OverlapOpens(s);
    var t := RunFrom(s, open);
    RunFromKeeps(limit, s, open);
    var r := FreshId(t.readers.Keys);
    var read := ReadEventually(limit, t, r);
    RunConcat(s, open, read);
    after := open + read;
    var w :| w in t.writers;
    assert t.writers[w] <= t.starts;
  }

  lemma {:induction false} RunFromKeeps(limit: nat, s: State, steps: seq<Step>)
    requires Inv(limit, s) && BarrierInv(s)
    ensures Inv(limit, RunFrom(s, steps)) && BarrierInv(RunFrom(s, steps))
  {
    if steps != [] {
      RunFromKeeps(limit, s, steps[..|steps| - 1]);
      StepKeepsInv(limit, RunFrom(s, steps[..|steps| - 1]), steps[|steps| - 1]);
      BarrierStep(RunFrom(s, steps[..|steps| - 1]), steps[|steps| - 1]);
    }
  }

  // ---------------------------------------------------------------- failed connections

  /**
  Every failed connection costs a permit for good. Once there are as many as the limit, no read obtains a
  permit, let alone a connection, in any continuation.
  */
  lemma {:induction false} LeaksWedgeAllReads(limit: nat, before: seq<Step>, steps: seq<Step>)
    requires |LeakedReads(RunFrom(Init(limit), before))| == limit
    ensures var s, t := RunFrom(Init(limit), before), RunFrom(RunFrom(Init(limit), before), steps);
      && t.permits == 0
      && LeakedReads(t) == LeakedReads(s)
      && forall r :: r in t.readers && HoldsPermit(t.readers[r]) ==> t.readers[r].Leaked?
  {
    var s := RunFrom(Init(limit), before);
    if steps == [] {
      RunKeepsInv(limit, before);
      assert LeakedReads(s) <= Holders(s);
      SubsetSize(LeakedReads(s), Holders(s));
      forall r | r in s.readers && HoldsPermit(s.readers[r])
        ensures s.readers[r].Leaked?
      {
        SubsetSize(LeakedReads(s) + {r}, Holders(s));
      }
    } else {
      LeaksWedgeAllReads(limit, before, steps[..|steps| - 1]);
      WedgeStep(RunFrom(s, steps[..|steps| - 1]), steps[|steps| - 1]);
    }
  }

  lemma WedgeStep(s: State, step: Step)
    requires s.permits == 0 && forall r :: r in s.readers && HoldsPermit(s.readers[r]) ==> s.readers[r].Leaked?
    ensures var t := Apply(s, step);
      && t.permits == 0
      && LeakedReads(t) == LeakedReads(s)
      && forall r :: r in t.readers && HoldsPermit(t.readers[r]) ==> t.readers[r].Leaked?
  {
  }

  ghost predicate CanRead(s: State, r: Id) {
    exists steps :: var t := RunFrom(s, steps); r in t.readers && t.readers[r].Reading?
  }

  /**
  Reads can still get through, exactly: in every reachable state a new reader can come to read, in some
  continuation, if and only if fewer connections have failed than there are permits.
  */
  lemma {:induction false} ReadsGetThroughIffPermitsLeft(limit: nat, before: seq<Step>, r: Id)
    requires r !in RunFrom(Init(limit), before).readers
    ensures CanRead(RunFrom(Init(limit), before), r) <==> |LeakedReads(RunFrom(Init(limit), before))| < limit
  {
    var s := RunFrom(Init(limit), before);
    RunKeepsInv(limit, before);
    BarrierRun(limit, before);
    FreeablePermit(limit, s);
    if |LeakedReads(s)| < limit {
      var open: seq<Step> := [];
      if !s.barrier {
        var w :| w in s.writers;
        open := [WriteCompleted(w)];
        RunFirst(s, WriteCompleted(w), []);
        assert LeakedReads(Apply(s, WriteCompleted(w))) == LeakedReads(s);
      }
      RunFromKeeps(limit, s, open);
      var read := ReadEventually(limit, RunFrom(s, open), r);
      RunConcat(s, open, read);
      var t := RunFrom(s, open + read);
      assert r in t.readers && t.readers[r].Reading?;
    } else {
      forall steps
        ensures var t := RunFrom(s, steps); !(r in t.readers && t.readers[r].Reading?)
      {
        LeaksWedgeAllReads(limit, before, steps);
      }
    }
  }

  /** The number of connections that failed in a run. */
  function FailedConnections(limit: nat, steps: seq<Step>): nat {
    if steps == [] then 0
    else
      var before, step := steps[..|steps| - 1], steps[|steps| - 1];
      FailedConnections(limit, before)
      + if step.Connect? && !step.ok && Enabled(RunFrom(Init(limit), before), step) then 1 else 0
  }

  lemma LeakStep(s: State, step: Step)
    ensures LeakedReads(Apply(s, step))
         == LeakedReads(s) + if step.Connect? && !step.ok && Enabled(s, step) then {step.r} else {}
    ensures step.Connect? && Enabled(s, step) ==> step.r !in LeakedReads(s)
  {
  }

  /** Each failed connection costs a permit, and nothing gives it back. */
  lemma {:induction false} FailuresCostPermits(limit: nat, steps: seq<Step>)
    ensures |LeakedReads(RunFrom(Init(limit), steps))| == FailedConnections(limit, steps)
    ensures RunFrom(Init(limit), steps).permits + FailedConnections(limit, steps) <= limit
  {
    if steps != [] {
      FailuresCostPermits(limit, steps[..|steps| - 1]);
      LeakStep(RunFrom(Init(limit), steps[..|steps| - 1]), steps[|steps| - 1]);
    }
    RunKeepsInv(limit, steps);
    FreeablePermit(limit, RunFrom(Init(limit), steps));
    SubsetSize(LeakedReads(RunFrom(Init(limit), steps)), Holders(RunFrom(Init(limit), steps)));
  }

  // ---------------------------------------------------------------- waiting readers

  /** Readers wait only while the barrier is down. */
  ghost predicate WaitOnlyBehindBarrier(s: State) {
    s.barrier ==> forall r :: r in s.readers ==> !s.readers[r].Waiting?
  }

  lemma WaitStep(s: State, step: Step)
    requires WaitOnlyBehindBarrier(s)
    ensures WaitOnlyBehindBarrier(Apply(s, step))
  {
  }

  /** In every reachable state a waiting reader implies that the barrier is down: a completed write wakes them all. */
  lemma {:induction false} WaitersWaitForABarrier(limit: nat, steps: seq<Step>)
    ensures WaitOnlyBehindBarrier(RunFrom(Init(limit), steps))
  {
    if steps != [] {
      WaitersWaitForABarrier(limit, steps[..|steps| - 1]);
      WaitStep(RunFrom(Init(limit), steps[..|steps| - 1]), steps[|steps| - 1]);
    }
  }

  /** A reader past the barrier can read when a permit is free or can be freed. */
  lemma {:induction false} PassedReads(limit: nat, s: State, r: Id) returns (steps: seq<Step>)
    requires Inv(limit, s) && |LeakedReads(s)| < limit && r in s.readers && s.readers[r].Passed?
    ensures var t := RunFrom(s, steps); r in t.readers && t.readers[r].Reading?
  {
    FreeablePermit(limit, s);
    var release: seq<Step> := [];
    if s.permits == 0 {
      var h :| h in s.readers && HoldsPermit(s.readers[h]) && !s.readers[h].Leaked?;
      release := ReleaseHolder(s, h);
    }
    var s1 := RunFrom(s, release);
    var s2 := Apply(s1, TakePermit(r));
    var s3 := Apply(s2, Snapshot(r));
    RunFirst(s3, Connect(r, true), []);
    RunFirst(s2, Snapshot(r), [Connect(r, true)]);
    RunFirst(s1, TakePermit(r), [Snapshot(r)] + [Connect(r, true)]);
    RunConcat(s, release, [TakePermit(r)] + ([Snapshot(r)] + [Connect(r, true)]));
    steps := release + ([TakePermit(r)] + ([Snapshot(r)] + [Connect(r, true)]));
  }

  /** Readers that wait, or that were let through and have no permit yet. */
  predicate InLine(p: Reader) {
    p.Waiting? || p.Passed?
  }

  /** A reader in line can read while fewer connections failed than there are permits. */
  lemma {:induction false} InLineReads(limit: nat, s: State, r: Id) returns (steps: seq<Step>)
    requires Inv(limit, s) && BarrierInv(s) && WaitOnlyBehindBarrier(s) && |LeakedReads(s)| < limit
    requires r in s.readers && InLine(s.readers[r])
    ensures var t := RunFrom(s, steps); r in t.readers && t.readers[r].Reading?
  {
    var open: seq<Step> := [];
    if s.readers[r].Waiting? {
      var w :| w in s.writers;
      open := [WriteCompleted(w)];
      RunFirst(s, WriteCompleted(w), []);
      LeakStep(s, WriteCompleted(w));
    }
    RunFromKeeps(limit, s, open);
    var read := PassedReads(limit, RunFrom(s, open), r);
    RunConcat(s, open, read);
    steps := open + read;
  }

  /**
  No reader in line is forgotten: in every reachable state one that waits behind the barrier or for a permit
  can come to read, in some continuation, if and only if fewer connections have failed than there are permits.
  */
  lemma {:induction false} WaitersGetThroughIffPermitsLeft(limit: nat, before: seq<Step>, r: Id)
    requires r in RunFrom(Init(limit), before).readers && InLine(RunFrom(Init(limit), before).readers[r])
    ensures CanRead(RunFrom(Init(limit), before), r) <==> FailedConnections(limit, before) < limit
  {
    var s := RunFrom(Init(limit), before);
    RunKeepsInv(limit, before);
    BarrierRun(limit, before);
    WaitersWaitForABarrier(limit, before);
    FailuresCostPermits(limit, before);
    FreeablePermit(limit, s);
    if |LeakedReads(s)| < limit {
      var steps := InLineReads(limit, s, r);
    } else {
      forall steps
        ensures var t := RunFrom(s, steps); !(r in t.readers && t.readers[r].Reading?)
      {
        LeaksWedgeAllReads(limit, before, steps);
      }
    }
  }

  // ---------------------------------------------------------------- the object

  class ReadCoordinator {
    var permits: nat
    var writeBarrier: bool
    var activeReads: int
    var writeVersion: nat
    ghost var readers: Readers
    ghost var writers: map<Id, nat>
    ghost var starts: nat
    ghost var late: nat

    ghost function Abs(): State
      reads this
    {
      State(permits, writeBarrier, activeReads, writeVersion, readers, writers, starts, late)
    }

    constructor (maxConcurrentReads: nat)
      ensures Abs() == Init(maxConcurrentReads)
    {
      permits, writeBarrier, activeReads, writeVersion := maxConcurrentReads, true, 0, 0;
      readers, writers, starts, late := map[], map[], 0, 0;
    }

    /** `acquire_read` up to the barrier: does the reader have to wait? */
    method BeginRead(ghost r: Id) returns (waits: bool)
      requires r !in readers
      modifies this
      ensures Abs() == Apply(old(Abs()), Arrive(r)) && (waits <==> !old(writeBarrier))
    {
      waits := !writeBarrier;
      readers := readers[r := if writeBarrier then Passed(starts) else Waiting];
    }

    /** The semaphore grants a permit. */
    method Acquire(ghost r: Id)
      requires r in readers && readers[r].Passed? && permits > 0
      modifies this
      ensures Abs() == Apply(old(Abs()), TakePermit(r))
    {
      permits := permits - 1;
      readers := readers[r := Permitted(readers[r].epoch)];
    }

    /** The locked part of `acquire_read`; the handle will carry the version. */
    method CountRead(ghost r: Id) returns (version: nat)
      requires r in readers && readers[r].Permitted?
      modifies this
      ensures Abs() == Apply(old(Abs()), Snapshot(r)) && version == writeVersion
    {
      activeReads := activeReads + 1;
      version := writeVersion;
      readers := readers[r := Counted(writeVersion, readers[r].epoch)];
    }

    /** The locked part of `_release_read`. */
    method DiscountRead(ghost r: Id)
      requires r in readers && readers[r].Reading?
      modifies this
      ensures Abs() == Apply(old(Abs()), ReleaseCount(r))
    {
      activeReads := activeReads - 1;
      late := if readers[r].version < writeVersion then late + 1 else late;
      readers := readers[r := Releasing];
    }

    /** The end of `_release_read`. */
    method Release(ghost r: Id)
      requires r in readers && readers[r].Releasing?
      modifies this
      ensures Abs() == Apply(old(Abs()), ReleasePermit(r))
    {
      permits := permits + 1;
      readers := readers - {r};
    }

    method BeginWrite(ghost w: Id)
      requires w !in writers
      modifies this
      ensures Abs() == Apply(old(Abs()), WriteStarted(w))
    {
      writeBarrier := false;
      writers, starts := writers[w := starts + 1], starts + 1;
    }

    method CompleteWrite(ghost w: Id)
      requires w in writers
      modifies this
      ensures Abs() == Apply(old(Abs()), WriteCompleted(w))
    {
      writeVersion := writeVersion + 1;
      activeReads := 0;
      writeBarrier := true;
      writers, late, readers := writers - {w}, 0, Woken(readers, starts);
    }
  }
}
