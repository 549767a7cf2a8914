/**
The write-behind pipeline of the tool execution log: a bounded queue, a worker that collects batches and
inserts them, and shutdown by `aclose`, by the synchronous `close`, or by cancellation.

`Apply` is one atomic segment (from one `await` to the next) of some coroutine. A step that the code could
not take in a state leaves the state unchanged, so every sequence of steps is a run.
*/
module WriteBehind {
  import opened Common

  const SQLITE_BATCH_SIZE: nat := 100
  const WRITE_QUEUE_MAXSIZE: nat := 2000

  /** Where the worker is: not running, waiting on the queue, in a batch flush, or in its final flush. */
  datatype Phase = Stopped | Collecting | Flushing | Finishing

  datatype Pipe<E> = Pipe(
    queue: seq<E>, overflow: nat, closed: bool, shutdown: bool,
    phase: Phase, connected: bool, batch: seq<E>, db: seq<E>,
    // History: everything offered; what a full queue refused; what failed flushes lost; what was inserted a
    // second time. `replaying`: the batch at hand is already in the database. `cancelled`: some task was.
    offered: seq<E>, spilled: seq<E>, lost: seq<E>, twice: seq<E>, replaying: bool, cancelled: bool)

  datatype Step<E> =
    | Offer(item: E)                      // put_nowait, from log()
    | StartWorker(connect: bool)          // initialize(): create the worker task; did its connection open?
    | Iterate(got: bool, due: bool)       // one turn of the loop: was an item got, is the flush interval over?
    | FlushDone(ok: bool)                 // the pending executemany and commit end
    | AClose                              // aclose() up to its first await
    | CloseSync(eager: bool)              // close() inside a running event loop; do its tasks start eagerly?
    | Cancel(applied: bool)               // the worker task is cancelled; were the pending rows applied?

  function Empty<E>(): Pipe<E> {
    Pipe([], 0, false, false, Stopped, false, [], [], [], [], [], [], false, false)
  }

  function ApplyOffer<E>(s: Pipe<E>, e: E): Pipe<E> {
    var full := |s.queue| >= WRITE_QUEUE_MAXSIZE;
    s.(queue := if full then s.queue else s.queue + [e],
       overflow := if full then s.overflow + 1 else s.overflow,
       offered := s.offered + [e],
       spilled := if full then s.spilled + [e] else s.spilled)
  }

  function Took<E>(s: Pipe<E>): Pipe<E>
    requires s.queue != []
  {
    s.(batch := s.batch + [s.queue[0]], queue := s.queue[1..])
  }

  /** The part of a turn after the wait: drain on shutdown, flush a full or overdue batch, or go round. */
  function Decide<E>(s: Pipe<E>, due: bool): Pipe<E> {
    var full := |s.batch| >= SQLITE_BATCH_SIZE || (s.batch != [] && due);
    s.(batch := if s.shutdown then s.batch + s.queue else s.batch,
       queue := if s.shutdown then [] else s.queue,
       phase := if s.shutdown then Finishing else if full then Flushing else s.phase)
  }

  /** The pending insert ends: the rows are in the database, or they are gone. */
  function Settle<E>(s: Pipe<E>, ok: bool, next: Phase): Pipe<E> {
    var stored := ok && s.connected;
    s.(phase := next,
       db := if stored then s.db + s.batch else s.db,
       twice := if stored && s.replaying then s.twice + s.batch else s.twice,
       lost := if !stored && !s.replaying then s.lost + s.batch else s.lost,
       batch := [], replaying := false)
  }

  function ApplyCancel<E>(s: Pipe<E>, applied: bool): Pipe<E> {
    if s.phase == Stopped then s
    else if s.phase == Finishing then Settle(s, applied, Stopped).(cancelled := true)
    else
      // During a flush the insert runs on in its own thread, while the batch is kept for the final flush.
      var stored := s.phase == Flushing && applied && s.connected;
      s.(phase := Finishing, cancelled := true,
         db := if stored then s.db + s.batch else s.db,
         replaying := stored)
  }

  function Apply<E>(s: Pipe<E>, step: Step<E>): Pipe<E> {
    match step
    case Offer(e) => if !s.closed && s.phase != Stopped then ApplyOffer(s, e) else s
    case StartWorker(connect) => if s.phase == Stopped then s.(phase := Collecting, connected := connect) else s
    case Iterate(got, due) =>
      if s.phase != Collecting || (got && s.queue == []) then s
      else Decide(if got then Took(s) else s, due)
    case FlushDone(ok) =>
      if s.phase == Flushing then Settle(s, ok, Collecting)
      else if s.phase == Finishing then Settle(s, ok, Stopped)
      else s
    case AClose => if s.closed then s else s.(closed := true, shutdown := true)
    // An eager aclose() task runs up to its first await before close() sets the flag; a lazy one finds it set.
    case CloseSync(eager) => s.(closed := true, shutdown := s.shutdown || (eager && !s.closed))
    case Cancel(applied) => ApplyCancel(s, applied)
  }

  function Run<E>(steps: seq<Step<E>>): Pipe<E> {
    if steps == [] then Empty() else Apply(Run(steps[..|steps| - 1]), steps[|steps| - 1])
  }

  lemma {:induction false} RunSnoc<E>(steps: seq<Step<E>>, step: Step<E>)
    ensures Run(steps + [step]) == Apply(Run(steps), step)
  {
    assert (steps + [step])[..|steps|] == steps;
  }

  // ---------------------------------------------------------------- accounting

  /** The items not yet in the database that the worker still holds. */
  function Held<E>(s: Pipe<E>): seq<E> {
    if s.replaying then [] else s.batch
  }

  lemma OnlyOffersOffer<E>(s: Pipe<E>, step: Step<E>)
    ensures step.Offer? || Apply(s, step).offered == s.offered
  {
  }

  /** How often `e` occurs in `s`. */
  ghost function Count<E>(s: seq<E>, e: E): nat {
    if s == [] then 0 else Count(s[..|s| - 1], e) + if s[|s| - 1] == e then 1 else 0
  }

  lemma {:induction false} CountConcat<E>(a: seq<E>, b: seq<E>, e: E)
    ensures Count(a + b, e) == Count(a, e) + Count(b, e)
    decreases |b|
  {
    if b == [] {
      assert a + b == a;
    } else {
      assert (a + b)[..|a + b| - 1] == a + b[..|b| - 1];
      CountConcat(a, b[..|b| - 1], e);
    }
  }

  lemma {:induction false} CountPositive<E>(s: seq<E>, e: E)
    ensures Count(s, e) > 0 <==> e in s
  {
    if s != [] {
      CountPositive(s[..|s| - 1], e);
    }
  }

  /** Where the copies of one item are. */
  ghost predicate Accounted<E>(s: Pipe<E>, e: E) {
    Count(s.offered, e) + Count(s.twice, e)
    == Count(s.db, e) + Count(s.lost, e) + Count(Held(s), e) + Count(s.queue, e) + Count(s.spilled, e)
  }

  ghost predicate AccountedLengths<E>(s: Pipe<E>) {
    && |s.offered| + |s.twice| == |s.db| + |s.lost| + |Held(s)| + |s.queue| + |s.spilled|
    && s.overflow == |s.spilled|
  }

  ghost predicate Bounded<E>(s: Pipe<E>) {
    && |s.queue| <= WRITE_QUEUE_MAXSIZE
    && (s.phase == Stopped ==> s.batch == [])
    && (s.phase == Collecting ==> |s.batch| < SQLITE_BATCH_SIZE)
    && (s.phase == Flushing ==> 0 < |s.batch| <= SQLITE_BATCH_SIZE)
    && |s.batch| <= SQLITE_BATCH_SIZE + WRITE_QUEUE_MAXSIZE
    && (s.replaying ==> s.phase == Finishing && s.cancelled && s.batch != [])
  }

  /** A queue is left behind only by a cancelled worker. */
  ghost predicate Drained<E>(s: Pipe<E>) {
    && (s.shutdown ==> s.closed)
    && (!s.cancelled && s.phase == Finishing ==> s.closed && s.queue == [])
    && (!s.cancelled && s.phase == Stopped ==> s.queue == [])
    && (!s.cancelled ==> s.twice == [] && !s.replaying)
  }

  lemma OfferKeeps<E>(s: Pipe<E>, x: E, e: E)
    requires Accounted(s, e)
    ensures Accounted(ApplyOffer(s, x), e)
  {
    CountConcat(s.offered, [x], e);
    CountConcat(s.queue, [x], e);
    CountConcat(s.spilled, [x], e);
  }

  lemma TookKeeps<E>(s: Pipe<E>, e: E)
    requires s.queue != [] && !s.replaying && Accounted(s, e)
    ensures Accounted(Took(s), e)
  {
    assert s.queue == [s.queue[0]] + s.queue[1..];
    CountConcat([s.queue[0]], s.queue[1..], e);
    CountConcat(s.batch, [s.queue[0]], e);
  }

  lemma SettleKeeps<E>(s: Pipe<E>, ok: bool, next: Phase, e: E)
    requires Accounted(s, e)
    ensures Accounted(Settle(s, ok, next), e)
  {
    CountConcat(s.db, s.batch, e);
    CountConcat(s.twice, s.batch, e);
    CountConcat(s.lost, s.batch, e);
  }

  lemma DecideKeeps<E>(s: Pipe<E>, due: bool, e: E)
    requires !s.replaying && Accounted(s, e)
    ensures Accounted(Decide(s, due), e)
  {
    CountConcat(s.batch, s.queue, e);
  }

  lemma CancelKeeps<E>(s: Pipe<E>, applied: bool, e: E)
    requires Accounted(s, e) && Bounded(s)
    ensures Accounted(ApplyCancel(s, applied), e)
  {
    if s.phase == Finishing {
      SettleKeeps(s, applied, Stopped, e);
    } else {
      CountConcat(s.db, s.batch, e);
    }
  }

  lemma AccountedStep<E>(s: Pipe<E>, step: Step<E>, e: E)
    requires Accounted(s, e) && Bounded(s)
    ensures Accounted(Apply(s, step), e)
  {
    match step
    case Offer(x) => OfferKeeps(s, x, e);
    case Iterate(got, due) =>
      if s.phase == Collecting && (got ==> s.queue != []) {
        if got {
          TookKeeps(s, e);
        }
        DecideKeeps(if got then Took(s) else s, due, e);
      }
    case FlushDone(ok) => SettleKeeps(s, ok, if s.phase == Flushing then Collecting else Stopped, e);
    case Cancel(applied) => CancelKeeps(s, applied, e);
    case _ =>
  }

  lemma BoundedOffer<E>(s: Pipe<E>, x: E)
    requires Bounded(s) && AccountedLengths(s) && s.phase != Stopped
    ensures Bounded(ApplyOffer(s, x)) && AccountedLengths(ApplyOffer(s, x))
  {
  }

  lemma BoundedIterate<E>(s: Pipe<E>, got: bool, due: bool)
    requires Bounded(s) && AccountedLengths(s) && s.phase == Collecting && (got ==> s.queue != [])
    ensures var t := Decide(if got then Took(s) else s, due); Bounded(t) && AccountedLengths(t)
  {
  }

  lemma BoundedSettle<E>(s: Pipe<E>, ok: bool)
    requires Bounded(s) && AccountedLengths(s)
    ensures var t := Settle(s, ok, Collecting); Bounded(t) && AccountedLengths(t)
    ensures var t := Settle(s, ok, Stopped); Bounded(t) && AccountedLengths(t)
  {
  }

  lemma BoundedCancel<E>(s: Pipe<E>, applied: bool)
    requires Bounded(s) && AccountedLengths(s)
    ensures Bounded(ApplyCancel(s, applied)) && AccountedLengths(ApplyCancel(s, applied))
  {
    BoundedSettle(s, applied);
  }

  lemma BoundedStep<E>(s: Pipe<E>, step: Step<E>)
    requires Bounded(s) && AccountedLengths(s)
    ensures Bounded(Apply(s, step)) && AccountedLengths(Apply(s, step))
  {
    match step
    case Offer(x) =>
      if !s.closed && s.phase != Stopped {
        BoundedOffer(s, x);
      }
    case Iterate(got, due) =>
      if s.phase == Collecting && (got ==> s.queue != []) {
        BoundedIterate(s, got, due);
      }
    case FlushDone(ok) => BoundedSettle(s, ok);
    case Cancel(applied) => BoundedCancel(s, applied);
    case StartWorker(connect) =>
    case AClose =>
    case CloseSync(eager) =>
  }

  lemma DrainedStep<E>(s: Pipe<E>, step: Step<E>)
    requires Drained(s) && Bounded(s)
    ensures Drained(Apply(s, step))
  {
  }

  /**
  Conservation. In every run each offered item is in the database, in a failed flush, in the batch, in the
  queue or refused by a full queue, counted with multiplicity; the only surplus is what a cancelled flush
  inserted twice. Queue and batch stay within their bounds.
  */
  lemma {:induction false} Conservation<E>(steps: seq<Step<E>>)
    ensures AccountedLengths(Run(steps)) && Bounded(Run(steps)) && Drained(Run(steps))
    ensures forall e :: Accounted(Run(steps), e)
  {
    if steps != [] {
      var before, step := steps[..|steps| - 1], steps[|steps| - 1];
      Conservation(before);
      forall e
        ensures Accounted(Run(steps), e)
      {
        AccountedStep(Run(before), step, e);
      }
      BoundedStep(Run(before), step);
      DrainedStep(Run(before), step);
    }
  }

  /**
  Once an uncancelled worker has stopped, every offered item is stored, lost in a failed flush, or counted as
  overflow.
  */
  lemma {:induction false} CleanShutdown<E>(steps: seq<Step<E>>)
    requires Run(steps).phase == Stopped && !Run(steps).cancelled
    ensures var s := Run(steps);
      && s.queue == [] && s.batch == []
      && |s.offered| == |s.db| + |s.lost| + s.overflow
      && forall e :: Count(s.offered, e) == Count(s.db, e) + Count(s.lost, e) + Count(s.spilled, e)
  {
    Conservation(steps);
    var s := Run(steps);
    forall e
      ensures Count(s.offered, e) == Count(s.db, e) + Count(s.lost, e) + Count(s.spilled, e)
    {
      assert Accounted(s, e);
    }
  }

  // ---------------------------------------------------------------- order

  /** What is stored or still on its way, oldest first. */
  function Line<E>(s: Pipe<E>): seq<E> {
    s.db + Held(s) + s.queue
  }

  ghost predicate Ordered<E>(s: Pipe<E>) {
    s.twice == [] ==> Sub(Line(s), s.offered)
  }

  lemma OrderedOffer<E>(s: Pipe<E>, x: E)
    requires Ordered(s)
    ensures Ordered(ApplyOffer(s, x))
  {
    if s.twice == [] {
      SubAppend(Line(s), s.offered, x);
      assert Line(s) + [x] == s.db + Held(s) + (s.queue + [x]);
    }
  }

  lemma OrderedIterate<E>(s: Pipe<E>, got: bool, due: bool)
    requires Ordered(s) && !s.replaying && (got ==> s.queue != [])
    ensures Ordered(Decide(if got then Took(s) else s, due))
  {
    var t := if got then Took(s) else s;
    assert Line(t) == Line(s);
    assert Line(Decide(t, due)) == Line(t);
  }

  lemma OrderedSettle<E>(s: Pipe<E>, ok: bool, next: Phase)
    requires Ordered(s) && (s.replaying ==> s.batch != [])
    ensures Ordered(Settle(s, ok, next))
  {
    var t := Settle(s, ok, next);
    if t.twice == [] {
      if ok && s.connected {
        assert Line(t) == Line(s);
      } else {
        SubDropMiddle(s.db, Held(s), s.queue);
        assert Line(t) == s.db + s.queue;
        SubTrans(Line(t), Line(s), s.offered);
      }
    }
  }

  lemma OrderedStep<E>(s: Pipe<E>, step: Step<E>)
    requires Ordered(s) && Bounded(s)
    ensures Ordered(Apply(s, step))
  {
    match step
    case Offer(x) => OrderedOffer(s, x);
    case Iterate(got, due) =>
      if s.phase == Collecting && (got ==> s.queue != []) {
        OrderedIterate(s, got, due);
      }
    case FlushDone(ok) => OrderedSettle(s, ok, if s.phase == Flushing then Collecting else Stopped);
    case Cancel(applied) =>
      OrderedSettle(s, applied, Stopped);
      assert Line(s) == s.db + s.batch + s.queue || s.replaying;
    case _ =>
  }

  /** Every second copy has a first one in the database. */
  ghost predicate Copies<E>(s: Pipe<E>, e: E) {
    2 * Count(s.twice, e) + (if s.replaying then Count(s.batch, e) else 0) <= Count(s.db, e)
  }

  lemma CopiesSettle<E>(s: Pipe<E>, ok: bool, next: Phase, e: E)
    requires Copies(s, e)
    ensures Copies(Settle(s, ok, next), e)
  {
    CountConcat(s.db, s.batch, e);
    CountConcat(s.twice, s.batch, e);
  }

  lemma CopiesStep<E>(s: Pipe<E>, step: Step<E>, e: E)
    requires Copies(s, e) && Bounded(s)
    ensures Copies(Apply(s, step), e)
  {
    match step
    case FlushDone(ok) => CopiesSettle(s, ok, if s.phase == Flushing then Collecting else Stopped, e);
    case Cancel(applied) =>
      CopiesSettle(s, applied, Stopped, e);
      CountConcat(s.db, s.batch, e);
    case _ =>
  }

  lemma {:induction false} OrderedRun<E>(steps: seq<Step<E>>)
    ensures Ordered(Run(steps)) && forall e :: Copies(Run(steps), e)
  {
    if steps != [] {
      var before, step := steps[..|steps| - 1], steps[|steps| - 1];
      OrderedRun(before);
      Conservation(before);
      OrderedStep(Run(before), step);
      forall e
        ensures Copies(Run(steps), e)
      {
        CopiesStep(Run(before), step, e);
      }
    }
  }

  lemma {:induction false} CountDistinct<E>(s: seq<E>, e: E)
    requires Distinct(s)
    ensures Count(s, e) == if e in s then 1 else 0
  {
    if s != [] {
      CountDistinct(s[..|s| - 1], e);
    }
  }

  lemma {:induction false} CountSub<E>(a: seq<E>, b: seq<E>, e: E)
    requires Sub(a, b)
    ensures Count(a, e) <= Count(b, e)
    decreases |b|
  {
    if a == [] || b == [] {
    } else if Sub(a, b[..|b| - 1]) {
      CountSub(a, b[..|b| - 1], e);
    } else {
      CountSub(a[..|a| - 1], b[..|b| - 1], e);
    }
  }

  /** At step `i` a flush on an open connection is cancelled after its insert took effect. */
  ghost predicate CancelsApplied<E>(steps: seq<Step<E>>, i: nat) {
    && i < |steps| && steps[i].Cancel? && steps[i].applied
    && Run(steps[..i]).phase == Flushing && Run(steps[..i]).connected
  }

  /** A step that can end a flush. */
  predicate Ends<E>(step: Step<E>) {
    step.FlushDone? || step.Cancel?
  }

  predicate EndsWell<E>(step: Step<E>) {
    (step.FlushDone? && step.ok) || (step.Cancel? && step.applied)
  }

  /** Step `i` cancels an applied flush, and nothing has ended the final flush up to step `n`. */
  ghost predicate Repeating<E>(steps: seq<Step<E>>, i: nat, n: nat) {
    CancelsApplied(steps, i) && i < n <= |steps| && forall k :: i < k < n ==> !Ends(steps[k])
  }

  /** Step `i` cancels an applied flush, and the final flush, which step `j` ends, succeeds. */
  ghost predicate Repeats<E>(steps: seq<Step<E>>, i: nat, j: nat) {
    Repeating(steps, i, j) && j < |steps| && EndsWell(steps[j])
  }

  /** While a flush is repeated the connection is open and there are rows to repeat. */
  ghost predicate RepeatsRows<E>(s: Pipe<E>) {
    (s.replaying ==> s.phase == Finishing && s.connected && s.batch != []) && (s.phase == Flushing ==> s.batch != [])
  }

  /** How one step changes whether a flush is being repeated, and whether one was. */
  ghost predicate RepeatStep<E>(s: Pipe<E>, step: Step<E>, t: Pipe<E>) {
    && (t.replaying <==>
      if Ends(step) then step.Cancel? && step.applied && s.phase == Flushing && s.connected else s.replaying)
    && (t.twice != [] <==> s.twice != [] || (s.replaying && EndsWell(step)))
  }

  lemma RepeatsRowsStep<E>(s: Pipe<E>, step: Step<E>)
    requires RepeatsRows(s)
    ensures RepeatsRows(Apply(s, step)) && RepeatStep(s, step, Apply(s, step))
  {
    match step
    case Offer(x) =>
    case Iterate(got, due) => IterateRepeats(s, got, due);
    case FlushDone(ok) => SettleRepeats(s, ok, Collecting); SettleRepeats(s, ok, Stopped);
    case Cancel(applied) => SettleRepeats(s, applied, Stopped);
    case _ =>
  }

  lemma IterateRepeats<E>(s: Pipe<E>, got: bool, due: bool)
    requires RepeatsRows(s)
    ensures RepeatsRows(Apply(s, Iterate(got, due))) && RepeatStep(s, Iterate(got, due), Apply(s, Iterate(got, due)))
  {
  }

  lemma SettleRepeats<E>(s: Pipe<E>, ok: bool, next: Phase)
    requires RepeatsRows(s)
    ensures var t := Settle(s, ok, next); !t.replaying && (t.twice != [] <==> s.twice != [] || (s.replaying && ok))
  {
  }

  lemma {:induction false} RepeatsRowsRun<E>(steps: seq<Step<E>>)
    ensures RepeatsRows(Run(steps))
  {
    if steps != [] {
      RepeatsRowsRun(steps[..|steps| - 1]);
      RepeatsRowsStep(Run(steps[..|steps| - 1]), steps[|steps| - 1]);
    }
  }

  /** What is pending before a last step is pending after it, unless the step ends a flush. */
  lemma {:induction false} RepeatingPrefix<E>(steps: seq<Step<E>>, n: nat, i: nat, j: nat)
    requires j <= n <= |steps|
    ensures Repeating(steps, i, j) <==> Repeating(steps[..n], i, j)
  {
    if i < j {
      assert steps[..n][..i] == steps[..i];
    }
  }

  lemma {:induction false} RepeatingNow<E>(steps: seq<Step<E>>, n: nat, i: nat)
    requires |steps| == n + 1
    ensures Repeating(steps, i, n + 1) <==>
      if Ends(steps[n]) then i == n && CancelsApplied(steps, n) else Repeating(steps[..n], i, n)
  {
    RepeatingPrefix(steps, n, i, n);
  }

  lemma {:induction false} ReplayingStep<E>(before: seq<Step<E>>, step: Step<E>)
    ensures Run(before + [step]).replaying <==>
      if Ends(step) then CancelsApplied(before + [step], |before|) else Run(before).replaying
  {
    RunSnoc(before, step);
    RepeatsRowsRun(before);
    RepeatsRowsStep(Run(before), step);
    assert (before + [step])[..|before|] == before;
  }

  lemma {:induction false} ReplayingIff<E>(steps: seq<Step<E>>)
    ensures Run(steps).replaying <==> exists i :: Repeating(steps, i, |steps|)
  {
    if steps != [] {
      var n := |steps| - 1;
      var before, step := steps[..n], steps[n];
      ReplayingIff(before);
      ReplayingStep(before, step);
      assert steps == before + [step];
      if i :| Repeating(steps, i, |steps|) {
        RepeatingNow(steps, n, i);
      } else if Run(steps).replaying {
        if Ends(step) {
          RepeatingNow(steps, n, n);
        } else {
          var i: nat :| Repeating(before, i, |before|);
          RepeatingNow(steps, n, i);
        }
      }
    }
  }

  lemma {:induction false} RepeatsNow<E>(steps: seq<Step<E>>, n: nat, i: nat, j: nat)
    requires |steps| == n + 1
    ensures Repeats(steps, i, j) <==>
      Repeats(steps[..n], i, j) || (j == n && Repeating(steps[..n], i, n) && EndsWell(steps[n]))
  {
    if j <= n {
      RepeatingPrefix(steps, n, i, j);
    }
  }

  /** What makes a row a second copy, told by the steps alone. */
  lemma {:induction false} StoredTwiceIffRepeated<E>(steps: seq<Step<E>>)
    ensures Run(steps).twice != [] <==> exists i, j :: Repeats(steps, i, j)
  {
    if steps != [] {
      var n := |steps| - 1;
      var before := steps[..n];
      StoredTwiceIffRepeated(before);
      TwiceStep(before, steps[n]);
      assert steps == before + [steps[n]];
      if i, j :| Repeats(steps, i, j) {
        RepeatsNow(steps, n, i, j);
      }
      if i, j :| Repeats(before, i, j) {
        RepeatsNow(steps, n, i, j);
      } else if Run(steps).twice != [] {
        var i :| Repeating(before, i, |before|);
        RepeatsNow(steps, n, i, n);
      }
    }
  }

  lemma {:induction false} TwiceStep<E>(before: seq<Step<E>>, step: Step<E>)
    ensures Run(before + [step]).twice != [] <==>
      Run(before).twice != [] || ((exists i :: Repeating(before, i, |before|)) && EndsWell(step))
  {
    RunSnoc(before, step);
    ReplayingIff(before);
    RepeatsRowsRun(before);
    RepeatsRowsStep(Run(before), step);
  }

  /**
  Order. When the offered items differ from each other, the stored rows, the batch and the queue together are
  a subsequence of what was offered, in the order of offering, exactly as long as no cancelled flush whose
  insert took effect was repeated with success.
  */
  lemma {:induction false} InOrderIffNotRepeated<E>(steps: seq<Step<E>>)
    requires Distinct(Run(steps).offered)
    ensures (exists i, j :: Repeats(steps, i, j)) <==> !Sub(Line(Run(steps)), Run(steps).offered)
  {
    InOrderIffNotTwice(steps);
    StoredTwiceIffRepeated(steps);
  }

  lemma {:induction false} InOrderIffNotTwice<E>(steps: seq<Step<E>>)
    requires Distinct(Run(steps).offered)
    ensures Run(steps).twice == [] <==> Sub(Line(Run(steps)), Run(steps).offered)
  {
    var s := Run(steps);
    OrderedRun(steps);
    if s.twice != [] && Sub(Line(s), s.offered) {
      var e := s.twice[|s.twice| - 1];
      assert Count(s.twice, e) >= 1;
      assert Copies(s, e);
      CountConcat(s.db, Held(s), e);
      CountConcat(s.db + Held(s), s.queue, e);
      CountSub(Line(s), s.offered, e);
      CountDistinct(s.offered, e);
      assert false;
    }
  }

  /** Without cancellation nothing is ever stored twice, so the order is kept. */
  lemma {:induction false} UncancelledRunKeepsOrder<E>(steps: seq<Step<E>>)
    requires forall i :: 0 <= i < |steps| ==> !steps[i].Cancel?
    ensures Sub(Line(Run(steps)), Run(steps).offered)
  {
    NeverCancelled(steps);
    Conservation(steps);
    OrderedRun(steps);
  }

  lemma {:induction false} NeverCancelled<E>(steps: seq<Step<E>>)
    requires forall i :: 0 <= i < |steps| ==> !steps[i].Cancel?
    ensures !Run(steps).cancelled
  {
    if steps != [] {
      NeverCancelled(steps[..|steps| - 1]);
    }
  }

  /** The run to the flush of a single item. */
  lemma OneItemFlushing<E>(x: E)
    ensures Run([StartWorker(true), Offer(x), Iterate(true, true)])
         == Pipe([], 0, false, false, Flushing, true, [x], [], [x], [], [], [], false, false)
  {
    var none: seq<Step<E>> := [];
    var s1, s2 := [StartWorker(true)], [StartWorker(true), Offer(x)];
    RunSnoc(none, StartWorker(true));
    RunSnoc(s1, Offer(x));
    RunSnoc(s2, Iterate(true, true));
    assert none + [StartWorker(true)] == s1 && s1 + [Offer(x)] == s2;
    assert s2 + [Iterate(true, true)] == [StartWorker(true), Offer(x), Iterate(true, true)];
  }

  /**
  A cancelled flush can store a row twice: an item is taken, its flush is applied but cancelled, and the final flush
  repeats it.
  */
  lemma CancelledFlushStoresTwice<E>(x: E)
    ensures Run([StartWorker(true), Offer(x), Iterate(true, true), Cancel(true), FlushDone(true)]).db == [x, x]
  {
    OneItemFlushing(x);
    var s3 := [StartWorker(true), Offer(x), Iterate(true, true)];
    RunSnoc(s3, Cancel(true));
    RunSnoc(s3 + [Cancel(true)], FlushDone(true));
    assert s3 + [Cancel(true)] + [FlushDone(true)] ==
      [StartWorker(true), Offer(x), Iterate(true, true), Cancel(true), FlushDone(true)];
  }

  // ---------------------------------------------------------------- what is offered, stored and lost

  /** The items offered while the log was open and a worker was there. */
  function AllOffered<E>(steps: seq<Step<E>>): seq<E> {
    if steps == [] then []
    else
      var s, step := Run(steps[..|steps| - 1]), steps[|steps| - 1];
      AllOffered(steps[..|steps| - 1]) + if step.Offer? && !s.closed && s.phase != Stopped then [step.item] else []
  }

  /** Those of them that came while 2000 were queued. */
  function AllRefused<E>(steps: seq<Step<E>>): seq<E> {
    if steps == [] then []
    else
      var s, step := Run(steps[..|steps| - 1]), steps[|steps| - 1];
      AllRefused(steps[..|steps| - 1])
      + if step.Offer? && !s.closed && s.phase != Stopped && |s.queue| == 2000 then [step.item] else []
  }

  lemma HistoryStep<E>(s: Pipe<E>, step: Step<E>)
    requires |s.queue| <= 2000
    ensures Apply(s, step).offered
         == s.offered + if step.Offer? && !s.closed && s.phase != Stopped then [step.item] else []
    ensures Apply(s, step).spilled
         == s.spilled + if step.Offer? && !s.closed && s.phase != Stopped && |s.queue| == 2000 then [step.item] else []
  {
    match step
    case Offer(x) =>
    case _ => OnlyOffersOffer(s, step);
  }

  /** An item offered to a running worker is refused if and only if the queue is full just then. */
  lemma {:induction false} OverflowOnlyWhenFull<E>(steps: seq<Step<E>>)
    ensures Run(steps).offered == AllOffered(steps) && Run(steps).spilled == AllRefused(steps)
    ensures Run(steps).overflow == |AllRefused(steps)|
  {
    Conservation(steps);
    if steps != [] {
      var before := steps[..|steps| - 1];
      OverflowOnlyWhenFull(before);
      Conservation(before);
      HistoryStep(Run(before), steps[|steps| - 1]);
    }
  }

  /** A pending insert ends here, well or not. A flush that is cancelled without effect goes on in the final flush. */
  predicate EndsInsert<E>(s: Pipe<E>, step: Step<E>) {
    || (step.FlushDone? && (s.phase == Flushing || s.phase == Finishing))
    || (step.Cancel? && (s.phase == Finishing || (s.phase == Flushing && step.applied && s.connected)))
  }

  predicate Succeeds<E>(s: Pipe<E>, step: Step<E>) {
    s.connected && ((step.FlushDone? && step.ok) || (step.Cancel? && step.applied))
  }

  /** The batches at hand when an insert ended well on an open connection, in order. */
  function AllStored<E>(steps: seq<Step<E>>): seq<E> {
    if steps == [] then []
    else
      var s, step := Run(steps[..|steps| - 1]), steps[|steps| - 1];
      AllStored(steps[..|steps| - 1]) + if EndsInsert(s, step) && Succeeds(s, step) then s.batch else []
  }

  /** The batches at hand when an insert ended otherwise, but for those an earlier cancelled insert had stored. */
  function AllLost<E>(steps: seq<Step<E>>): seq<E> {
    if steps == [] then []
    else
      var s, step := Run(steps[..|steps| - 1]), steps[|steps| - 1];
      AllLost(steps[..|steps| - 1])
      + if EndsInsert(s, step) && !Succeeds(s, step) && !s.replaying then s.batch else []
  }

  lemma FlushMoves<E>(s: Pipe<E>, ok: bool)
    ensures var t, step := Apply(s, FlushDone(ok)), FlushDone(ok);
      && t.db == s.db + (if EndsInsert(s, step) && Succeeds(s, step) then s.batch else [])
      && t.lost == s.lost + (if EndsInsert(s, step) && !Succeeds(s, step) && !s.replaying then s.batch else [])
  {
  }

  lemma CancelMoves<E>(s: Pipe<E>, applied: bool)
    ensures var t, step := Apply(s, Cancel(applied)), Cancel(applied);
      && t.db == s.db + (if EndsInsert(s, step) && Succeeds(s, step) then s.batch else [])
      && t.lost == s.lost + (if EndsInsert(s, step) && !Succeeds(s, step) && !s.replaying then s.batch else [])
  {
  }

  lemma OthersMoveNothing<E>(s: Pipe<E>, step: Step<E>)
    requires !step.FlushDone? && !step.Cancel?
    ensures Apply(s, step).db == s.db && Apply(s, step).lost == s.lost
  {
    match step
    case Offer(x) =>
    case Iterate(got, due) =>
    case _ =>
  }

  /**
  The database grows exactly when an insert ends well on an open connection, and then by the batch at hand; what
  is lost grows exactly when an insert ends otherwise.
  */
  lemma {:induction false} StoredAndLost<E>(steps: seq<Step<E>>)
    ensures Run(steps).db == AllStored(steps) && Run(steps).lost == AllLost(steps)
  {
    if steps != [] {
      var before, step := steps[..|steps| - 1], steps[|steps| - 1];
      StoredAndLost(before);
      match step
      case FlushDone(ok) => FlushMoves(Run(before), ok);
      case Cancel(applied) => CancelMoves(Run(before), applied);
      case _ => OthersMoveNothing(Run(before), step);
    }
  }

  ghost predicate NeverOpened<E>(steps: seq<Step<E>>) {
    forall i :: 0 <= i < |steps| && steps[i].StartWorker? ==> !steps[i].connect
  }

  ghost predicate NeverEndsWell<E>(steps: seq<Step<E>>) {
    forall i :: 0 <= i < |steps| ==> !EndsWell(steps[i])
  }

  lemma ConnectStep<E>(s: Pipe<E>, step: Step<E>)
    requires !s.connected && (step.StartWorker? ==> !step.connect)
    ensures !Apply(s, step).connected
  {
    match step
    case Offer(x) =>
    case Iterate(got, due) =>
    case _ =>
  }

  lemma {:induction false} NotConnected<E>(steps: seq<Step<E>>)
    requires NeverOpened(steps)
    ensures !Run(steps).connected
  {
    if steps != [] {
      NotConnected(steps[..|steps| - 1]);
      ConnectStep(Run(steps[..|steps| - 1]), steps[|steps| - 1]);
    }
  }

  /** In a run without an open connection, or in which every insert fails, nothing is ever stored. */
  lemma {:induction false} NothingStored<E>(steps: seq<Step<E>>)
    requires NeverOpened(steps) || NeverEndsWell(steps)
    ensures Run(steps).db == []
  {
    StoredAndLost(steps);
    if steps != [] {
      NothingStored(steps[..|steps| - 1]);
      StoredAndLost(steps[..|steps| - 1]);
      if NeverOpened(steps) {
        NotConnected(steps[..|steps| - 1]);
      }
    }
  }

  // ---------------------------------------------------------------- progress

  function After<E>(s: Pipe<E>, steps: seq<Step<E>>): Pipe<E>
    decreases |steps|
  {
    if steps == [] then s else After(Apply(s, steps[0]), steps[1..])
  }

  lemma {:induction false} AfterConcat<E>(s: Pipe<E>, a: seq<Step<E>>, b: seq<Step<E>>)
    ensures After(s, a + b) == After(After(s, a), b)
    decreases |a|
  {
    if a == [] {
      assert a + b == b;
    } else {
      AfterConcat(Apply(s, a[0]), a[1..], b);
      assert (a + b)[1..] == a[1..] + b;
    }
  }

  lemma AfterTwo<E>(s: Pipe<E>, a: Step<E>, b: Step<E>)
    ensures After(s, [a, b]) == Apply(Apply(s, a), b)
  {
    assert [a, b][1..] == [b] && [b][1..] == [];
    assert After(Apply(s, a), [b]) == After(Apply(Apply(s, a), b), []);
  }

  /** Only turns of the worker and inserts that succeed: nobody offers, closes or cancels. */
  ghost predicate OnlyWork<E>(steps: seq<Step<E>>) {
    forall i :: 0 <= i < |steps| ==> steps[i].Iterate? || steps[i] == FlushDone(true)
  }

  /** A worker that waits, connected, with nothing to repeat and no signal to stop. */
  ghost predicate Waits<E>(s: Pipe<E>) {
    s.phase == Collecting && s.connected && !s.shutdown && !s.replaying
  }

  /** A waiting worker with an empty batch, this database and this queue. */
  ghost predicate Moved<E>(t: Pipe<E>, db: seq<E>, queue: seq<E>) {
    Waits(t) && t.batch == [] && t.db == db && t.queue == queue
  }

  /** A turn after the flush interval flushes what there is. */
  lemma OverdueTurn<E>(s: Pipe<E>, got: bool)
    requires Waits(s) && if got then s.queue != [] else s.batch != []
    ensures var t := After(s, [Iterate(got, true), FlushDone(true)]);
      if got then Moved(t, s.db + (s.batch + [s.queue[0]]), s.queue[1..]) else Moved(t, s.db + s.batch, s.queue)
  {
    AfterTwo(s, Iterate(got, true), FlushDone(true));
  }

  /** A waiting worker with an open connection gets everything it holds into the database, in order, by its own work. */
  lemma {:induction false} WorkerCatchesUp<E>(s: Pipe<E>) returns (steps: seq<Step<E>>)
    requires Waits(s)
    ensures OnlyWork(steps) && Waits(After(s, steps))
    ensures After(s, steps).queue == [] && After(s, steps).batch == [] && After(s, steps).db == s.db + s.batch + s.queue
    decreases |s.queue|
  {
    if s.queue == [] && s.batch == [] {
      steps := [];
    } else {
      var got := s.queue != [];
      var turn := [Iterate(got, true), FlushDone(true)];
      OverdueTurn(s, got);
      var t := After(s, turn);
      if got {
        var rest := WorkerCatchesUp(t);
        AfterConcat(s, turn, rest);
        steps := turn + rest;
        InOrder(s.db, s.batch, s.queue);
      } else {
        steps := turn;
      }
    }
  }

  lemma InOrder<E>(db: seq<E>, batch: seq<E>, queue: seq<E>)
    requires queue != []
    ensures db + (batch + [queue[0]]) + [] + queue[1..] == db + batch + queue
  {
  }

  /** A worker that was told to stop takes everything into its next flush, which is its last. */
  lemma SignalledTurnIsTheLast<E>(s: Pipe<E>, due: bool, ok: bool)
    requires s.phase == Collecting && s.shutdown
    ensures var t := Apply(s, Iterate(false, due));
      t.phase == Finishing && t.queue == [] && t.batch == s.batch + s.queue && Apply(t, FlushDone(ok)).phase == Stopped
  {
  }

  // ---------------------------------------------------------------- closing

  predicate Closes<E>(step: Step<E>) {
    step.AClose? || step.CloseSync?
  }

  predicate Signals<E>(step: Step<E>) {
    step.AClose? || (step.CloseSync? && step.eager)
  }

  ghost predicate FirstClose<E>(steps: seq<Step<E>>, i: nat) {
    i < |steps| && Closes(steps[i]) && forall k :: 0 <= k < i ==> !Closes(steps[k])
  }

  lemma CloseStep<E>(s: Pipe<E>, step: Step<E>)
    ensures Apply(s, step).closed <==> s.closed || Closes(step)
    ensures Apply(s, step).shutdown <==> s.shutdown || (!s.closed && Signals(step))
  {
    match step
    case Offer(x) =>
    case Iterate(got, due) =>
    case FlushDone(ok) =>
    case Cancel(applied) =>
    case _ =>
  }

  ghost predicate NoClose<E>(steps: seq<Step<E>>) {
    forall k :: 0 <= k < |steps| ==> !Closes(steps[k])
  }

  /** The first close of a longer list. */
  lemma {:induction false} FirstCloseStep<E>(before: seq<Step<E>>, step: Step<E>, i: nat)
    ensures FirstClose(before + [step], i) <==>
      FirstClose(before, i) || (i == |before| && NoClose(before) && Closes(step))
  {
    var steps := before + [step];
    assert forall k :: 0 <= k < |before| ==> steps[k] == before[k];
    if FirstClose(steps, i) && i == |before| {
      assert forall k :: 0 <= k < |before| ==> !Closes(steps[k]);
    }
  }

  ghost predicate FirstSignals<E>(steps: seq<Step<E>>) {
    exists i: nat :: FirstClose(steps, i) && Signals(steps[i])
  }

  lemma {:induction false} SignalsStep<E>(before: seq<Step<E>>, step: Step<E>)
    ensures NoClose(before + [step]) <==> NoClose(before) && !Closes(step)
    ensures FirstSignals(before + [step]) <==> FirstSignals(before) || (NoClose(before) && Signals(step))
  {
    var steps := before + [step];
    assert forall k :: 0 <= k < |before| ==> steps[k] == before[k];
    if i: nat :| FirstClose(steps, i) && Signals(steps[i]) {
      FirstCloseStep(before, step, i);
    }
    if i: nat :| FirstClose(before, i) && Signals(before[i]) {
      FirstCloseStep(before, step, i);
    }
    FirstCloseStep(before, step, |before|);
  }

  /** The first close closes the log, and only it can tell the worker to stop: `aclose()`, or an eager `close()`. */
  lemma {:induction false} FirstCloseDecides<E>(steps: seq<Step<E>>)
    ensures Run(steps).closed <==> !NoClose(steps)
    ensures Run(steps).shutdown <==> exists i: nat :: FirstClose(steps, i) && Signals(steps[i])
  {
    if steps != [] {
      var before, step := steps[..|steps| - 1], steps[|steps| - 1];
      FirstCloseDecides(before);
      CloseStep(Run(before), step);
      SignalsStep(before, step);
      assert steps == before + [step];
    }
  }

  // ---------------------------------------------------------------- the synchronous close

  /**
  After `close()` inside a running loop, whatever follows, the worker is told to stop if and only if it was
  told before, or the log was open and the loop starts tasks eagerly. A lazy `aclose()` task finds the log
  closed already and returns at once.
  */
  lemma {:induction false} SyncCloseSignalsIffEager<E>(steps: seq<Step<E>>, i: nat)
    requires i < |steps| && steps[i].CloseSync?
    ensures Run(steps).closed
    ensures Run(steps).shutdown <==> Run(steps[..i]).shutdown || (!Run(steps[..i]).closed && steps[i].eager)
  {
    var most := steps[..|steps| - 1];
    if i < |most| {
      assert most[..i] == steps[..i];
      SyncCloseSignalsIffEager(most, i);
      ClosedKeepsSignal(Run(most), steps[|most|]);
    } else {
      CloseSignals(Run(most), steps[i]);
    }
  }

  lemma CloseSignals<E>(s: Pipe<E>, step: Step<E>)
    requires step.CloseSync?
    ensures Apply(s, step).closed && (Apply(s, step).shutdown <==> s.shutdown || (!s.closed && step.eager))
  {
  }

  /** In a closed log no step gives or takes back the signal. */
  lemma ClosedKeepsSignal<E>(s: Pipe<E>, step: Step<E>)
    requires s.closed
    ensures Apply(s, step).closed && Apply(s, step).shutdown == s.shutdown
  {
  }

  ghost predicate Working<E>(s: Pipe<E>) {
    s.phase == Collecting || s.phase == Flushing
  }

  /** A worker that is not told to stop works on for ever, closed log or not, unless its task is cancelled. */
  lemma {:induction false} UnsignalledWorkerGoesOn<E>(steps: seq<Step<E>>, i: nat)
    requires i < |steps| && steps[i].CloseSync? && !steps[i].eager
    requires Working(Run(steps[..i])) && !Run(steps[..i]).shutdown
    requires forall j :: i < j < |steps| ==> !steps[j].Cancel?
    ensures Working(Run(steps))
  {
    var most := steps[..|steps| - 1];
    if i < |most| {
      assert most[..i] == steps[..i];
      UnsignalledWorkerGoesOn(most, i);
      SyncCloseSignalsIffEager(most, i);
      WorkingStep(Run(most), steps[|most|]);
    }
  }

  lemma WorkingStep<E>(s: Pipe<E>, step: Step<E>)
    requires Working(s) && !s.shutdown && !step.Cancel?
    ensures Working(Apply(s, step))
  {
  }

  // ---------------------------------------------------------------- the object

  /** The queue, the flags of the log, the worker task with its local batch, and the database behind it. */
  class Pipeline<E(==)> {
    var queue: seq<E>
    var overflowCount: nat
    var closed: bool
    var writeShutdown: bool
    var phase: Phase
    var connected: bool
    var batch: seq<E>
    var db: seq<E>
    ghost var offered: seq<E>
    ghost var spilled: seq<E>
    ghost var lost: seq<E>
    ghost var twice: seq<E>
    ghost var replaying: bool
    ghost var cancelled: bool

    ghost function Abs(): Pipe<E>
      reads this
    {
      Pipe(queue, overflowCount, closed, writeShutdown, phase, connected, batch, db, offered, spilled, lost, twice,
        replaying, cancelled)
    }

    constructor ()
      ensures Abs() == Empty()
    {
      queue, overflowCount, closed, writeShutdown := [], 0, false, false;
      phase, connected, batch, db := Stopped, false, [], [];
      offered, spilled, lost, twice, replaying, cancelled := [], [], [], [], false, false;
    }

    /** The part of `log()` that offers the record; the caller has checked that the log is open. */
    method PutNowait(item: E)
      requires !closed
      modifies this
      ensures Abs() == Apply(old(Abs()), Offer(item))
    {
      if phase == Stopped {
        return;
      }
      offered := offered + [item];
      if |queue| < WRITE_QUEUE_MAXSIZE {
        queue := queue + [item];
      } else {
        overflowCount, spilled := overflowCount + 1, spilled + [item];
      }
    }

    /** The part of `initialize()` that starts a worker task unless one is running. */
    method StartTask(connect: bool)
      modifies this
      ensures Abs() == Apply(old(Abs()), StartWorker(connect))
    {
      if phase == Stopped {
        phase, connected := Collecting, connect;
      }
    }

    /** One turn of the worker loop, up to its next wait. */
    method Turn(got: bool, due: bool)
      requires phase == Collecting && (got ==> queue != [])
      modifies this
      ensures Abs() == Apply(old(Abs()), Iterate(got, due))
    {
      if got {
        batch, queue := batch + [queue[0]], queue[1..];
      }
      if writeShutdown {
        Drain();
        phase := Finishing;
      } else if |batch| >= SQLITE_BATCH_SIZE || (batch != [] && due) {
        phase := Flushing;
      }
    }

    /** `get_nowait` until the queue is empty. */
    method Drain()
      modifies this`batch, this`queue
      ensures batch == old(batch) + old(queue) && queue == []
    {
      while queue != []
        invariant batch + queue == old(batch) + old(queue)
        decreases |queue|
      {
        batch, queue := batch + [queue[0]], queue[1..];
      }
    }

    method StoreBatch()
      modifies this`db, this`twice
      ensures db == old(db) + batch && twice == if replaying then old(twice) + batch else old(twice)
    {
      db := db + batch;
      twice := if replaying then twice + batch else twice;
    }

    /** The awaited insert and commit have ended, well or not. */
    method FlushEnds(ok: bool)
      requires phase == Flushing || phase == Finishing
      modifies this
      ensures Abs() == Apply(old(Abs()), FlushDone(ok))
    {
      EndFlush(ok, if phase == Flushing then Collecting else Stopped);
    }

    /** The batch is stored or lost, and the worker goes on to `next`. */
    method EndFlush(ok: bool, next: Phase)
      modifies this
      ensures Abs() == Settle(old(Abs()), ok, next)
    {
      if connected && ok {
        StoreBatch();
      } else {
        lost := if replaying then lost else lost + batch;
      }
      batch, replaying := [], false;
      phase := next;
    }

    /** `aclose()` up to its first await. */
    method Shutdown()
      modifies this
      ensures Abs() == Apply(old(Abs()), AClose)
    {
      if closed {
        return;
      }
      closed, writeShutdown := true, true;
    }

    /** The synchronous `close()` inside a running loop; an eager `aclose()` task runs first. */
    method CloseInLoop(eager: bool)
      modifies this
      ensures Abs() == Apply(old(Abs()), CloseSync(eager))
    {
      if eager {
        Shutdown();
      }
      closed := true;
    }

    /** Cancellation reaches the worker task at its current wait. */
    method CancelTask(applied: bool)
      modifies this
      ensures Abs() == Apply(old(Abs()), Cancel(applied))
    {
      if phase == Stopped {
        return;
      }
      cancelled := true;
      if phase == Finishing {
        EndFlush(applied, Stopped);
      } else {
        if phase == Flushing && applied && connected {
          db, replaying := db + batch, true;
        } else {
          replaying := false;
        }
        phase := Finishing;
      }
    }
  }
}
