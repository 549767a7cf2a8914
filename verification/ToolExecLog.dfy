/**
The tool execution log: `log()` extends the hash chain and offers the event to the write-behind pipeline;
`verify_all` replays whatever rows the database gives back.
*/
module ToolLog {
  import opened Common
  import opened HashChain
  import W = WriteBehind

  const MAX_RAM_EVENTS: nat := 100
  const MAX_OUTPUT_LEN: nat := 1024 * 1024

  /** SHA-256 of the chain input, of raw bytes, and the log's two construction flags. */
  datatype Env = Env(sha: string -> string, shaBytes: seq<bv8> -> string, persist: bool, silent: bool)

  /** The arguments of one `log()` call, with the clock and the random part of the identifier. */
  datatype Call = Call(
    toolName: string, input: seq<bv8>, output: seq<bv8>, status: string, error: Option<string>,
    nonce: string, now: real)

  datatype State = State(seqNo: nat, head: string, ram: seq<Event>, logged: seq<Event>, pipe: W.Pipe<Event>)

  datatype Step = LogCall(call: Call) | Pipeline(step: W.Step<Event>)

  function BoundErrorClass(error: Option<string>): Option<string> {
    match error
    case None => None
    case Some(name) => if name in BOUNDED_ERROR_CLASSES then Some(name) else Some("Unknown")
  }

  /** The event of the call, without its chain hash. */
  function Draft(env: Env, head: string, seqNo: nat, c: Call): Event {
    Event(
      "tool_" + Decimal(seqNo) + "_" + c.nonce, c.now, c.toolName,
      if c.input != [] then env.shaBytes(c.input) else "",
      if c.output != [] then env.shaBytes(c.output[..Min(|c.output|, MAX_OUTPUT_LEN)]) else "",
      Min(|c.output|, MAX_OUTPUT_LEN),
      if c.status in BOUNDED_STATUSES then c.status else "error",
      BoundErrorClass(c.error), seqNo, Some(head), "")
  }

  function MakeEvent(env: Env, head: string, seqNo: nat, c: Call): Event {
    var e := Draft(env, head, seqNo, c);
    e.(chainHash := env.sha(ChainInput(head, e)))
  }

  function Append(env: Env, s: State, e: Event): State {
    State(s.seqNo + 1, e.chainHash, LastN(s.ram + [e], MAX_RAM_EVENTS), s.logged + [e],
          if env.persist then W.Apply(s.pipe, W.Offer(e)) else s.pipe)
  }

  function Apply(env: Env, s: State, step: Step): State {
    match step
    case LogCall(c) =>
      if s.pipe.closed || env.silent then s else Append(env, s, MakeEvent(env, s.head, s.seqNo + 1, c))
    case Pipeline(p) =>
      // Only `log()` offers, and `initialize()` starts no worker in a silent or memory-only log.
      if p.Offer? || (p.StartWorker? && (env.silent || !env.persist)) then s else s.(pipe := W.Apply(s.pipe, p))
  }

  function Run(env: Env, steps: seq<Step>): State {
    if steps == [] then State(0, GENESIS, [], [], W.Empty())
    else Apply(env, Run(env, steps[..|steps| - 1]), steps[|steps| - 1])
  }

  /** What the theorems ask of the hashes and of the random part of identifiers (hexadecimal digits). */
  ghost predicate GoodEnv(env: Env) {
    GoodHash(env.sha) && forall b :: NoColon(env.shaBytes(b))
  }

  ghost predicate GoodSteps(steps: seq<Step>) {
    forall i :: 0 <= i < |steps| && steps[i].LogCall? ==> NoColon(steps[i].call.nonce)
  }

  // ---------------------------------------------------------------- the chain over whole runs

  lemma BoundedErrorClass(error: Option<string>)
    ensures BoundErrorClass(error).Some? ==> BoundErrorClass(error).value in BOUNDED_ERROR_CLASSES
    ensures BoundErrorClass(error).None? <==> error.None?
  {
  }

  /** `log()` only makes events whose chained fields are of the bounded, colon-free forms. */
  lemma MadeEventsAreWellFormed(env: Env, head: string, seqNo: nat, c: Call)
    requires GoodEnv(env) && NoColon(c.nonce)
    ensures WellFormed(MakeEvent(env, head, seqNo, c))
  {
    BoundedErrorClass(c.error);
    var number := Decimal(seqNo);
    forall k | 0 <= k < |number|
      ensures number[k] != ':'
    {
      assert number[k] in number;
    }
    assert NoColon("tool_");
  }

  // ---------------------------------------------------------------- what an event says about its call

  /** The hash of raw bytes is collision free and never empty. */
  ghost predicate GoodBytesHash(env: Env) {
    (forall a, b :: env.shaBytes(a) == env.shaBytes(b) ==> a == b) && (forall a :: env.shaBytes(a) != "")
  }

  /** The first 1 MiB. */
  function FirstMiB(bytes: seq<bv8>): seq<bv8> {
    if |bytes| <= 1048576 then bytes else bytes[..1048576]
  }

  /** An empty content has the empty text for a hash, any other its own hash. */
  ghost predicate HashOf(env: Env, hash: string, content: seq<bv8>) {
    if content == [] then hash == "" else hash == env.shaBytes(content)
  }

  ghost predicate Known(status: string) {
    status == "success" || status == "error" || status == "cancelled"
  }

  /** What the verified fields of an event say about the `log()` call with this number. */
  ghost predicate Tells(env: Env, e: Event, c: Call, number: nat) {
    && e.eventId == "tool_" + Decimal(number) + "_" + c.nonce
    && HashOf(env, e.inputHash, c.input) && HashOf(env, e.outputHash, FirstMiB(c.output))
    && e.status == (if Known(c.status) then c.status else "error")
    && (c.error == None ==> Rendered(e.errorClass) == "None")
    && (c.error.Some? && c.error.value in BOUNDED_ERROR_CLASSES ==> Rendered(e.errorClass) == c.error.value)
    && (c.error.Some? && c.error.value !in BOUNDED_ERROR_CLASSES ==> Rendered(e.errorClass) == "Unknown")
  }

  lemma MadeEventTells(env: Env, head: string, seqNo: nat, c: Call)
    ensures var e := MakeEvent(env, head, seqNo, c);
      && Tells(env, e, c, seqNo) && e.seqNo == seqNo && e.prev == Some(head)
      && e.toolName == c.toolName && e.ts == c.now && e.outputLen == |FirstMiB(c.output)|
  {
    assert c.output[..|c.output|] == c.output;
  }

  /** Contents are told apart by their hashes. */
  lemma HashTellsContents(env: Env, h: string, a: seq<bv8>, h': string, b: seq<bv8>)
    requires GoodBytesHash(env) && HashOf(env, h, a) && HashOf(env, h', b)
    ensures h == h' <==> a == b
    ensures h == "" <==> a == []
  {
  }

  /** Events of two calls have the same hashes exactly for the same inputs, and outputs with the same first 1 MiB. */
  lemma TwoEventsTell(env: Env, e: Event, c: Call, n: nat, e': Event, c': Call, n': nat)
    requires GoodBytesHash(env) && Tells(env, e, c, n) && Tells(env, e', c', n')
    ensures e.inputHash == e'.inputHash <==> c.input == c'.input
    ensures e.outputHash == e'.outputHash <==> FirstMiB(c.output) == FirstMiB(c'.output)
    ensures e.inputHash == "" <==> c.input == []
    ensures e.outputHash == "" <==> c.output == []
  {
    HashTellsContents(env, e.inputHash, c.input, e'.inputHash, c'.input);
    HashTellsContents(env, e.outputHash, FirstMiB(c.output), e'.outputHash, FirstMiB(c'.output));
  }

  /** The log's own view: numbers, hashes and the RAM ring follow from the list of events logged. */
  ghost predicate Chained(env: Env, s: State) {
    && s.seqNo == |s.logged|
    && s.head == HeadAt(s.logged, |s.logged|)
    && s.ram == LastN(s.logged, MAX_RAM_EVENTS)
    && Linked(env.sha, s.logged)
    && (forall i :: 0 <= i < |s.logged| ==> s.logged[i].seqNo == i + 1)
    && Sub(s.pipe.offered, s.logged)
  }

  lemma AppendKeepsChained(env: Env, s: State, c: Call)
    requires Chained(env, s)
    ensures Chained(env, Append(env, s, MakeEvent(env, s.head, s.seqNo + 1, c)))
  {
    var e := MakeEvent(env, s.head, s.seqNo + 1, c);
    var t := Append(env, s, e);
    assert ChainInput(s.head, Draft(env, s.head, s.seqNo + 1, c)) == ChainInput(s.head, e);
    forall i | 0 <= i < |t.logged|
      ensures LinkedAt(env.sha, t.logged, i)
    {
      assert HeadAt(t.logged, i) == HeadAt(s.logged, i);
      if i < |s.logged| {
        assert LinkedAt(env.sha, s.logged, i);
      }
    }
    SubAppend(s.pipe.offered, s.logged, e);
    RamStep(s.logged, e);
  }

  /** A ring of the last `MAX_RAM_EVENTS` events stays one under append. */
  lemma RamStep(logged: seq<Event>, e: Event)
    ensures LastN(LastN(logged, MAX_RAM_EVENTS) + [e], MAX_RAM_EVENTS) == LastN(logged + [e], MAX_RAM_EVENTS)
  {
  }

  lemma PipelineKeepsChained(env: Env, s: State, p: W.Step<Event>)
    requires Chained(env, s)
    ensures Chained(env, Apply(env, s, Pipeline(p)))
  {
    W.OnlyOffersOffer(s.pipe, p);
  }

  lemma {:induction false} ChainedRun(env: Env, steps: seq<Step>)
    ensures Chained(env, Run(env, steps))
  {
    if steps != [] {
      var before, step := steps[..|steps| - 1], steps[|steps| - 1];
      ChainedRun(env, before);
      var s := Run(env, before);
      match step
      case LogCall(c) => AppendKeepsChained(env, s, c);
      case Pipeline(p) => PipelineKeepsChained(env, s, p);
    }
  }

  lemma {:induction false} WellFormedRun(env: Env, steps: seq<Step>)
    requires GoodEnv(env) && GoodSteps(steps)
    ensures AllWellFormed(Run(env, steps).logged)
  {
    if steps != [] {
      var before, step := steps[..|steps| - 1], steps[|steps| - 1];
      assert forall i :: 0 <= i < |before| ==> before[i] == steps[i];
      WellFormedRun(env, before);
      if step.LogCall? {
        var s := Run(env, before);
        MadeEventsAreWellFormed(env, s.head, s.seqNo + 1, step.call);
      }
    }
  }

  /** What one step of the log does to its pipeline: a step of the pipeline protocol, or nothing. */
  lemma PipelineStep(env: Env, s: State, step: Step) returns (p: Option<W.Step<Event>>)
    ensures Apply(env, s, step).pipe == if p.None? then s.pipe else W.Apply(s.pipe, p.value)
  {
    match step
    case LogCall(c) =>
      var offers := env.persist && !s.pipe.closed && !env.silent;
      p := if offers then Some(W.Offer(MakeEvent(env, s.head, s.seqNo + 1, c))) else None;
    case Pipeline(x) =>
      p := if x.Offer? || (x.StartWorker? && (env.silent || !env.persist)) then None else Some(x);
  }

  /** The pipeline of a log goes through a run of the pipeline protocol. */
  lemma {:induction false} PipelineRun(env: Env, steps: seq<Step>) returns (p: seq<W.Step<Event>>)
    ensures Run(env, steps).pipe == W.Run(p)
  {
    p := [];
    if steps != [] {
      p := PipelineRun(env, steps[..|steps| - 1]);
      var next := PipelineStep(env, Run(env, steps[..|steps| - 1]), steps[|steps| - 1]);
      if next.Some? {
        W.RunSnoc(p, next.value);
        p := p + [next.value];
      }
    }
  }

  /** Whatever was lost, reordered or repeated on the way, the database only holds events that were logged. */
  lemma {:induction false} StoredWasLogged(env: Env, steps: seq<Step>, e: Event)
    requires e in Run(env, steps).pipe.db
    ensures e in Run(env, steps).logged
  {
    var s := Run(env, steps);
    var p := PipelineRun(env, steps);
    W.Conservation(p);
    W.OrderedRun(p);
    assert W.Accounted(s.pipe, e) && W.Copies(s.pipe, e);
    W.CountPositive(s.pipe.db, e);
    W.CountPositive(s.pipe.offered, e);
    ChainedRun(env, steps);
    SubElements(s.pipe.offered, s.logged, e);
  }

  /**
  The main result. After any run, with any overflow, failed or cancelled flush and any shutdown, replaying
  the stored rows reports no error if and only if the stored rows are a prefix of the logged sequence.
  */
  lemma {:induction false} VerifiesIffPrefix(env: Env, steps: seq<Step>)
    requires GoodEnv(env) && GoodSteps(steps)
    ensures var s := Run(env, steps);
      ReplayErrors(env.sha, GENESIS, SortBySeq(s.pipe.db)) == [] <==> SortBySeq(s.pipe.db) <= s.logged
  {
    var s := Run(env, steps);
    ChainedRun(env, steps);
    WellFormedRun(env, steps);
    SortBySeqContents(s.pipe.db);
    forall r | r in SortBySeq(s.pipe.db)
      ensures r in s.logged
    {
      assert r in multiset(SortBySeq(s.pipe.db));
      StoredWasLogged(env, steps, r);
    }
    AcceptedIffPrefix(env.sha, s.logged, SortBySeq(s.pipe.db));
  }

  /**
  Whatever is put into the database after a run: its rows replay without error up to the head of the log if and
  only if they are as many as were logged and look the same to the verifier, one by one.
  */
  lemma {:induction false} RowsUpToHeadIffSameChain(env: Env, steps: seq<Step>, rows: seq<Event>)
    requires GoodEnv(env) && GoodSteps(steps)
    ensures var s := Run(env, steps);
      ReplayErrors(env.sha, GENESIS, rows) == [] && HeadAt(rows, |rows|) == s.head <==> SameChain(s.logged, rows)
  {
    var s := Run(env, steps);
    ChainedRun(env, steps);
    WellFormedRun(env, steps);
    AcceptedIffLinked(env.sha, s.logged);
    TamperEvidence(env.sha, s.logged, rows);
  }

  /** The `log()` calls of a run that were taken: those made while the log was open, unless it is silent. */
  function Calls(env: Env, steps: seq<Step>): seq<Call> {
    if steps == [] then []
    else
      var s, step := Run(env, steps[..|steps| - 1]), steps[|steps| - 1];
      Calls(env, steps[..|steps| - 1]) + if step.LogCall? && !s.pipe.closed && !env.silent then [step.call] else []
  }

  /** The events made in a persistent log while its worker was there. */
  function HandedOver(env: Env, steps: seq<Step>): seq<Event> {
    if steps == [] then []
    else
      var s, step := Run(env, steps[..|steps| - 1]), steps[|steps| - 1];
      var handed := step.LogCall? && !s.pipe.closed && !env.silent && env.persist && s.pipe.phase != W.Stopped;
      HandedOver(env, steps[..|steps| - 1])
      + if handed then [MakeEvent(env, s.head, s.seqNo + 1, step.call)] else []
  }

  /** Exactly these are offered to the worker, in order. */
  lemma {:induction false} OfferedWhileWorking(env: Env, steps: seq<Step>)
    ensures Run(env, steps).pipe.offered == HandedOver(env, steps)
  {
    if steps != [] {
      var s, step := Run(env, steps[..|steps| - 1]), steps[|steps| - 1];
      OfferedWhileWorking(env, steps[..|steps| - 1]);
      match step
      case LogCall(c) => OfferAdds(s.pipe, MakeEvent(env, s.head, s.seqNo + 1, c));
      case Pipeline(p) => W.OnlyOffersOffer(s.pipe, p);
    }
  }

  /** A silent or memory-only log never has a worker and never offers anything. */
  lemma {:induction false} MemoryOnlyHasNoWorker(env: Env, steps: seq<Step>)
    requires env.silent || !env.persist
    ensures var p := Run(env, steps).pipe; p.phase == W.Stopped && p.offered == [] && p.queue == [] && p.db == []
  {
    if steps != [] {
      var s, step := Run(env, steps[..|steps| - 1]), steps[|steps| - 1];
      MemoryOnlyHasNoWorker(env, steps[..|steps| - 1]);
      if step.Pipeline? && !step.step.StartWorker? {
        StoppedStays(s.pipe, step.step);
      }
    }
  }

  lemma StoppedStays(p: W.Pipe<Event>, step: W.Step<Event>)
    requires p.phase == W.Stopped && !step.StartWorker?
    ensures var t := W.Apply(p, step);
      t.phase == p.phase && t.offered == p.offered && t.queue == p.queue && t.db == p.db
  {
    match step
    case Offer(x) =>
    case Iterate(got, due) =>
    case _ =>
  }

  lemma OfferAdds(p: W.Pipe<Event>, e: Event)
    ensures W.Apply(p, W.Offer(e)).offered == p.offered + if !p.closed && p.phase != W.Stopped then [e] else []
  {
  }

  ghost predicate AllTell(env: Env, events: seq<Event>, calls: seq<Call>) {
    |events| == |calls| && forall i :: 0 <= i < |calls| ==> Tells(env, events[i], calls[i], i + 1)
  }

  /** Every call that was taken has its event, in order. */
  lemma {:induction false} LoggedTellsCalls(env: Env, steps: seq<Step>)
    ensures AllTell(env, Run(env, steps).logged, Calls(env, steps))
  {
    if steps != [] {
      var before, step := steps[..|steps| - 1], steps[|steps| - 1];
      var s := Run(env, before);
      LoggedTellsCalls(env, before);
      ChainedRun(env, before);
      if step.LogCall? && !s.pipe.closed && !env.silent {
        MadeEventTells(env, s.head, s.seqNo + 1, step.call);
        TellsOneMore(env, s.logged, Calls(env, before), MakeEvent(env, s.head, s.seqNo + 1, step.call), step.call);
      }
    }
  }

  lemma TellsOneMore(env: Env, events: seq<Event>, calls: seq<Call>, e: Event, c: Call)
    requires AllTell(env, events, calls) && Tells(env, e, c, |calls| + 1)
    ensures AllTell(env, events + [e], calls + [c])
  {
  }

  /**
  What verified rows prove: rows that replay without error up to the head of the log are exactly as many as the
  calls that were taken, and the i-th row tells input, output, status and error class of the i-th call.
  */
  lemma {:induction false} RowsUpToHeadTellTheCalls(env: Env, steps: seq<Step>, rows: seq<Event>)
    requires GoodEnv(env) && GoodSteps(steps)
    requires ReplayErrors(env.sha, GENESIS, rows) == [] && HeadAt(rows, |rows|) == Run(env, steps).head
    ensures AllTell(env, rows, Calls(env, steps))
  {
    var logged, calls := Run(env, steps).logged, Calls(env, steps);
    RowsUpToHeadIffSameChain(env, steps, rows);
    LoggedTellsCalls(env, steps);
    forall i | 0 <= i < |calls|
      ensures Tells(env, rows[i], calls[i], i + 1)
    {
      assert SameLink(logged[i], rows[i]);
    }
  }

  lemma {:induction false} SubStrictlyOrdered(a: seq<Event>, b: seq<Event>)
    requires Sub(a, b) && StrictlyOrdered(b)
    ensures StrictlyOrdered(a)
    decreases |b|
  {
    if a == [] || b == [] {
    } else if Sub(a, b[..|b| - 1]) {
      SubStrictlyOrdered(a, b[..|b| - 1]);
    } else {
      SubStrictlyOrdered(a[..|a| - 1], b[..|b| - 1]);
      forall i | 0 <= i < |a| - 1
        ensures a[i].seqNo < a[|a| - 1].seqNo
      {
        SubElements(a[..|a| - 1], b[..|b| - 1], a[i]);
      }
    }
  }

  /**
  Stored rows, batch and queue, in this order, have strictly increasing sequence numbers exactly as long as no
  cancelled flush was repeated with success; then sorting the rows changes nothing.
  */
  lemma {:induction false} StoredInOrder(env: Env, steps: seq<Step>)
    ensures var s := Run(env, steps);
      && (s.pipe.twice == [] <==> StrictlyOrdered(W.Line(s.pipe)))
      && (s.pipe.twice == [] ==> SortBySeq(s.pipe.db) == s.pipe.db)
  {
    var s := Run(env, steps);
    var p := PipelineRun(env, steps);
    ChainedRun(env, steps);
    SubStrictlyOrdered(s.pipe.offered, s.logged);
    W.InOrderIffNotTwice(p);
    if s.pipe.twice == [] {
      SubStrictlyOrdered(W.Line(s.pipe), s.pipe.offered);
      assert forall i :: 0 <= i < |s.pipe.db| ==> s.pipe.db[i] == W.Line(s.pipe)[i];
      SortBySeqKeepsOrdered(s.pipe.db);
    } else {
      var e := s.pipe.twice[|s.pipe.twice| - 1];
      W.OrderedRun(p);
      assert W.Copies(s.pipe, e) && W.Count(s.pipe.twice, e) >= 1;
      if StrictlyOrdered(W.Line(s.pipe)) {
        assert forall i :: 0 <= i < |s.pipe.db| ==> s.pipe.db[i] == W.Line(s.pipe)[i];
        W.CountDistinct(s.pipe.db, e);
        assert false;
      }
    }
  }

  // ---------------------------------------------------------------- the object

  function SeqNumbers(s: seq<Event>): set<nat> {
    if s == [] then {} else SeqNumbers(s[..|s| - 1]) + {s[|s| - 1].seqNo}
  }

  /** The events whose number is not listed. */
  function Unlisted(s: seq<Event>, numbers: set<nat>): seq<Event> {
    if s == [] then []
    else Unlisted(s[..|s| - 1], numbers) + if s[|s| - 1].seqNo !in numbers then [s[|s| - 1]] else []
  }

  lemma {:induction false} NoneUnlistedIn(s: seq<Event>, numbers: set<nat>)
    requires SeqNumbers(s) <= numbers
    ensures Unlisted(s, numbers) == []
  {
    if s != [] {
      NoneUnlistedIn(s[..|s| - 1], numbers);
    }
  }

  /** No event of the RAM ring has a number outside the set of the ring's own numbers. */
  lemma NoneUnlisted(s: seq<Event>)
    ensures Unlisted(s, SeqNumbers(s)) == []
  {
    NoneUnlistedIn(s, SeqNumbers(s));
  }

  datatype LogError = LogClosed

  datatype Report = Report(chainValid: bool, headHash: string, eventCount: nat, firstSeq: nat, errors: seq<ChainError>)

  class ToolExecLog {
    const env: Env
    const pipeline: W.Pipeline<Event>
    var seqNo: nat
    var chainHead: string
    var log: seq<Event>
    ghost var logged: seq<Event>

    ghost function Abs(): State
      reads this, pipeline
    {
      State(seqNo, chainHead, log, logged, pipeline.Abs())
    }

    constructor (env: Env)
      ensures this.env == env && Abs() == Run(env, []) && fresh(pipeline)
    {
      this.env := env;
      pipeline := new W.Pipeline<Event>();
      seqNo, chainHead, log, logged := 0, GENESIS, [], [];
    }

    method Log(c: Call) returns (r: Result<Option<Event>, LogError>)
      modifies this, pipeline
      ensures Abs() == Apply(env, old(Abs()), LogCall(c))
      ensures r == if old(pipeline.closed) then Err(LogClosed) else if env.silent then Ok(None)
                   else Ok(Some(MakeEvent(env, old(chainHead), old(seqNo) + 1, c)))
    {
      if pipeline.closed {
        return Err(LogClosed);
      }
      if env.silent {
        return Ok(None);
      }
      var event := MakeEvent(env, chainHead, seqNo + 1, c);
      Record(event);
      return Ok(Some(event));
    }

    /** Advance the chain, offer the event to the pipeline, and keep it in the RAM ring. */
    method Record(event: Event)
      requires !pipeline.closed
      modifies this, pipeline
      ensures Abs() == Append(env, old(Abs()), event)
    {
      seqNo, chainHead := seqNo + 1, event.chainHash;
      if env.persist {
        pipeline.PutNowait(event);
      }
      log, logged := LastN(log + [event], MAX_RAM_EVENTS), logged + [event];
    }

    /** `initialize()`: nothing to do for a silent or memory-only log. */
    method Initialize(connect: bool)
      modifies pipeline
      ensures Abs() == Apply(env, old(Abs()), Pipeline(W.StartWorker(connect)))
    {
      if env.silent || !env.persist {
        return;
      }
      pipeline.StartTask(connect);
    }

    /**
    `verify_all` on the rows the database returns. Events that are only in RAM are never added: the test asks
    for a number outside the set of the very numbers it runs over.
    */
    method VerifyAll(rows: seq<Event>) returns (report: Report)
      ensures report.errors == ReplayErrors(env.sha, GENESIS, SortBySeq(rows))
      ensures report.chainValid <==> report.errors == []
      ensures report.headHash == chainHead && report.eventCount == |rows|
      ensures report.firstSeq == if rows == [] then 0 else SortBySeq(rows)[0].seqNo
    {
      var events := rows;
      var ramSeqs := SeqNumbers(log);
      for i := 0 to |log|
        invariant events == rows + Unlisted(log[..i], ramSeqs)
      {
        assert log[..i + 1][..i] == log[..i];
        if log[i].seqNo !in ramSeqs {
          events := events + [log[i]];
        }
      }
      NoneUnlisted(log);
      assert log[..|log|] == log;
      events := SortBySeq(events);
      SortBySeqContents(rows);
      assert |multiset(events)| == |multiset(rows)|;
      var errors := Replay(events);
      report := Report(errors == [], chainHead, |events|, if events != [] then events[0].seqNo else 0, errors);
    }

    /** The verification loop over the sorted events. */
    method Replay(events: seq<Event>) returns (errors: seq<ChainError>)
      ensures errors == ReplayErrors(env.sha, GENESIS, events)
    {
      errors := [];
      var expectedHead := GENESIS;
      for i := 0 to |events|
        invariant errors + ReplayErrors(env.sha, expectedHead, events[i..]) == ReplayErrors(env.sha, GENESIS, events)
      {
        var event := events[i];
        ghost var rest := ReplayErrors(env.sha, event.chainHash, events[i + 1..]);
        assert events[i..][1..] == events[i + 1..];
        assert errors + ReplayErrors(env.sha, expectedHead, events[i..]) ==
          errors + ErrorsAt(env.sha, expectedHead, event) + rest;
        ghost var before := errors;
        if event.prev != Some(expectedHead) {
          errors := errors + [ChainBreak(event.seqNo, expectedHead, event.prev)];
        }
        var expectedChain := env.sha(ChainInput(expectedHead, event));
        if event.chainHash != expectedChain {
          errors := errors + [HashMismatch(event.seqNo, expectedChain, event.chainHash)];
        }
        assert errors == before + ErrorsAt(env.sha, expectedHead, event);
        expectedHead := event.chainHash;
      }
    }
  }
}
