/**
The hash chain of the tool execution log and its verifier.

SHA-256 is a parameter `sha`: the theorems hold for every function that is collision free, renders
without a colon and never renders as the genesis marker.
*/
module HashChain {
  import opened Common

  const GENESIS := "genesis"

  const BOUNDED_ERROR_CLASSES: set<string> := {
    "TimeoutError", "ConnectionError", "HTTPError", "ValueError", "TypeError", "AttributeError", "KeyError",
    "IOError", "RuntimeError", "CancelledError", "AuthenticationError", "PermissionError", "NotFoundError",
    "ValidationError", "RateLimitError", "CircuitBreakerError", "Unknown"
  }

  const BOUNDED_STATUSES: set<string> := {"success", "error", "cancelled"}

  datatype Event = Event(
    eventId: string,
    ts: real,
    toolName: string,
    inputHash: string,
    outputHash: string,
    outputLen: nat,
    status: string,
    errorClass: Option<string>,
    seqNo: nat,
    prev: Option<string>,
    chainHash: string)

  datatype ChainError =
    | ChainBreak(seqNo: nat, expected: string, got: Option<string>)
    | HashMismatch(seqNo: nat, computed: string, stored: string)

  predicate NoColon(s: string) {
    ':' !in s
  }

  /** What the theorems ask of SHA-256 and its hexadecimal rendering. */
  ghost predicate GoodHash(sha: string -> string) {
    && (forall a, b :: sha(a) == sha(b) ==> a == b)
    && (forall a :: NoColon(sha(a)) && sha(a) != GENESIS)
  }

  /** `s` with the colon and its escape character spelled out. */
  function Escaped(s: string): (r: string)
    ensures NoColon(r) && |r| >= |s|
  {
    if s == [] then ""
    else (if s[0] == ':' then "a0" else if s[0] == 'a' then "a1" else [s[0]]) + Escaped(s[1..])
  }

  lemma {:induction false} EscapedInjective(a: string, b: string)
    requires Escaped(a) == Escaped(b)
    ensures a == b
  {
    if a != [] && b != [] {
      var x, y := Escaped(a), Escaped(b);
      assert x[0] == y[0] && (x[0] == 'a' ==> x[1] == y[1]);
      assert a[0] == b[0];
      var n := if x[0] == 'a' then 2 else 1;
      assert Escaped(a[1..]) == x[n..] && Escaped(b[1..]) == y[n..];
      EscapedInjective(a[1..], b[1..]);
    }
  }

  /** The assumption can be met. */
  lemma GoodHashExists()
    ensures exists sha :: GoodHash(sha)
  {
    var sha := (s: string) => "#" + Escaped(s);
    forall a, b | sha(a) == sha(b)
      ensures a == b
    {
      assert Escaped(a) == sha(a)[1..] && Escaped(b) == sha(b)[1..];
      EscapedInjective(a, b);
    }
    forall a
      ensures NoColon(sha(a)) && sha(a) != GENESIS
    {
      assert sha(a)[0] == '#';
    }
    assert GoodHash(sha);
  }

  /** How an f-string renders an optional string. */
  function Rendered(o: Option<string>): string {
    match o
    case None => "None"
    case Some(s) => s
  }

  /** The parts with a colon between each two. */
  function Joined(parts: seq<string>): string {
    if parts == [] then "" else if |parts| == 1 then parts[0] else parts[0] + ":" + Joined(parts[1..])
  }

  function Parts(head: string, e: Event): (r: seq<string>)
    ensures |r| == 6
  {
    [head, e.eventId, e.inputHash, e.outputHash, e.status, Rendered(e.errorClass)]
  }

  function ChainInput(head: string, e: Event): string {
    Joined(Parts(head, e))
  }

  /** The forms `log()` gives to the chained fields. */
  ghost predicate WellFormed(e: Event) {
    && NoColon(e.eventId) && NoColon(e.inputHash) && NoColon(e.outputHash)
    && e.status in BOUNDED_STATUSES
    && (e.errorClass.Some? ==> e.errorClass.value in BOUNDED_ERROR_CLASSES)
  }

  /** What injectivity needs of the chained fields. */
  ghost predicate Clear(e: Event) {
    && NoColon(e.eventId) && NoColon(e.inputHash) && NoColon(e.outputHash) && NoColon(e.status)
    && NoColon(Rendered(e.errorClass)) && e.errorClass != Some("None")
  }

  lemma BoundedClassIsClear(name: string)
    requires name in BOUNDED_ERROR_CLASSES
    ensures NoColon(name) && name != "None"
  {
  }

  lemma BoundedStatusIsClear(status: string)
    requires status in BOUNDED_STATUSES
    ensures NoColon(status)
  {
  }

  lemma WellFormedIsClear(e: Event)
    requires WellFormed(e)
    ensures Clear(e)
  {
    BoundedStatusIsClear(e.status);
    if e.errorClass.Some? {
      BoundedClassIsClear(e.errorClass.value);
    }
  }

  ghost predicate AllWellFormed(events: seq<Event>) {
    forall i :: 0 <= i < |events| ==> WellFormed(events[i])
  }

  /** Agreement on the five fields that enter the chain. */
  ghost predicate SameCore(a: Event, b: Event) {
    && a.eventId == b.eventId && a.inputHash == b.inputHash && a.outputHash == b.outputHash
    && a.status == b.status && a.errorClass == b.errorClass
  }

  /** Agreement on what the chain input renders: a missing error class looks like the text "None". */
  ghost predicate SameRendering(a: Event, b: Event) {
    && a.eventId == b.eventId && a.inputHash == b.inputHash && a.outputHash == b.outputHash
    && a.status == b.status && Rendered(a.errorClass) == Rendered(b.errorClass)
  }

  /** Agreement on everything the verifier looks at. */
  ghost predicate SameLink(a: Event, b: Event) {
    SameRendering(a, b) && a.prev == b.prev && a.chainHash == b.chainHash
  }

  // ---------------------------------------------------------------- the verifier

  function ErrorsAt(sha: string -> string, head: string, e: Event): seq<ChainError> {
    (if e.prev != Some(head) then [ChainBreak(e.seqNo, head, e.prev)] else [])
    + (if e.chainHash != sha(ChainInput(head, e))
       then [HashMismatch(e.seqNo, sha(ChainInput(head, e)), e.chainHash)] else [])
  }

  /** All errors met when the events are replayed in order after `head`. */
  function ReplayErrors(sha: string -> string, head: string, events: seq<Event>): seq<ChainError>
    decreases |events|
  {
    if events == [] then []
    else ErrorsAt(sha, head, events[0]) + ReplayErrors(sha, events[0].chainHash, events[1..])
  }

  /** Stable sort by sequence number (`ORDER BY seq_no`, then `events.sort`). */
  function InsertBySeq(e: Event, s: seq<Event>): seq<Event> {
    if s == [] || e.seqNo <= s[0].seqNo then [e] + s else [s[0]] + InsertBySeq(e, s[1..])
  }

  function SortBySeq(s: seq<Event>): seq<Event> {
    if s == [] then [] else InsertBySeq(s[0], SortBySeq(s[1..]))
  }

  lemma {:induction false} InsertBySeqContents(e: Event, s: seq<Event>)
    ensures multiset(InsertBySeq(e, s)) == multiset(s) + multiset{e}
  {
    if s == [] || e.seqNo <= s[0].seqNo {
    } else {
      InsertBySeqContents(e, s[1..]);
      assert s == [s[0]] + s[1..];
    }
  }

  lemma {:induction false} SortBySeqContents(s: seq<Event>)
    ensures multiset(SortBySeq(s)) == multiset(s)
  {
    if s != [] {
      SortBySeqContents(s[1..]);
      InsertBySeqContents(s[0], SortBySeq(s[1..]));
      assert s == [s[0]] + s[1..];
    }
  }

  ghost predicate Ordered(s: seq<Event>) {
    forall i, j :: 0 <= i < j < |s| ==> s[i].seqNo <= s[j].seqNo
  }

  /** The rows with number `n`, in their order. */
  function Numbered(s: seq<Event>, n: nat): seq<Event> {
    if s == [] then [] else (if s[0].seqNo == n then [s[0]] else []) + Numbered(s[1..], n)
  }

  lemma {:induction false} InsertBySeqElements(e: Event, s: seq<Event>, x: Event)
    ensures x in InsertBySeq(e, s) <==> x == e || x in s
  {
    if s != [] && e.seqNo > s[0].seqNo {
      InsertBySeqElements(e, s[1..], x);
    }
  }

  lemma {:induction false} InsertBySeqOrders(e: Event, s: seq<Event>)
    requires Ordered(s)
    ensures Ordered(InsertBySeq(e, s))
  {
    if s != [] && e.seqNo > s[0].seqNo {
      var rest := InsertBySeq(e, s[1..]);
      InsertBySeqOrders(e, s[1..]);
      forall j | 0 <= j < |rest|
        ensures s[0].seqNo <= rest[j].seqNo
      {
        InsertBySeqElements(e, s[1..], rest[j]);
      }
      OrderedCons(s[0], rest);
    }
  }

  lemma OrderedCons(e: Event, s: seq<Event>)
    requires Ordered(s) && forall j :: 0 <= j < |s| ==> e.seqNo <= s[j].seqNo
    ensures Ordered([e] + s)
  {
  }

  lemma {:induction false} InsertBySeqIsStable(e: Event, s: seq<Event>, n: nat)
    ensures Numbered(InsertBySeq(e, s), n) == Numbered([e] + s, n)
  {
    if s != [] && e.seqNo > s[0].seqNo {
      InsertBySeqIsStable(e, s[1..], n);
      assert InsertBySeq(e, s)[1..] == InsertBySeq(e, s[1..]) && ([e] + s)[1..] == s && ([e] + s[1..])[1..] == s[1..];
    }
  }

  /** The sort: the same rows, ordered by number, those with the same number in their old order. */
  lemma {:induction false} SortBySeqMeaning(s: seq<Event>)
    ensures multiset(SortBySeq(s)) == multiset(s) && Ordered(SortBySeq(s))
    ensures forall n :: Numbered(SortBySeq(s), n) == Numbered(s, n)
  {
    SortBySeqContents(s);
    if s != [] {
      var rest := SortBySeq(s[1..]);
      SortBySeqMeaning(s[1..]);
      InsertBySeqOrders(s[0], rest);
      forall n
        ensures Numbered(SortBySeq(s), n) == Numbered(s, n)
      {
        InsertBySeqIsStable(s[0], rest, n);
        assert ([s[0]] + rest)[1..] == rest;
      }
    }
  }

  ghost predicate StrictlyOrdered(s: seq<Event>) {
    forall i, j :: 0 <= i < j < |s| ==> s[i].seqNo < s[j].seqNo
  }

  lemma {:induction false} SortBySeqKeepsOrdered(s: seq<Event>)
    requires StrictlyOrdered(s)
    ensures SortBySeq(s) == s
  {
    if s != [] {
      SortBySeqKeepsOrdered(s[1..]);
      assert s == [s[0]] + s[1..];
    }
  }

  // ---------------------------------------------------------------- what acceptance means

  function HeadAt(events: seq<Event>, i: nat): string
    requires i <= |events|
  {
    if i == 0 then GENESIS else events[i - 1].chainHash
  }

  /** Every event names its predecessor's hash and carries the hash of its own contents after it. */
  ghost predicate LinkedAt(sha: string -> string, events: seq<Event>, i: nat)
    requires i < |events|
  {
    && events[i].prev == Some(HeadAt(events, i))
    && events[i].chainHash == sha(ChainInput(HeadAt(events, i), events[i]))
  }

  ghost predicate Linked(sha: string -> string, events: seq<Event>) {
    forall i :: 0 <= i < |events| ==> LinkedAt(sha, events, i)
  }

  ghost predicate LinkedFrom(sha: string -> string, events: seq<Event>, i: nat) {
    forall k :: i <= k < |events| ==> LinkedAt(sha, events, k)
  }

  lemma ReplayStep(sha: string -> string, events: seq<Event>, i: nat)
    requires i < |events|
    ensures ReplayErrors(sha, HeadAt(events, i), events[i..])
         == ErrorsAt(sha, HeadAt(events, i), events[i]) + ReplayErrors(sha, HeadAt(events, i + 1), events[i + 1..])
  {
    assert events[i..][1..] == events[i + 1..];
  }

  lemma {:induction false} ReplayFrom(sha: string -> string, events: seq<Event>, i: nat)
    requires i <= |events|
    ensures ReplayErrors(sha, HeadAt(events, i), events[i..]) == [] <==> LinkedFrom(sha, events, i)
    decreases |events| - i
  {
    if i < |events| {
      ReplayFrom(sha, events, i + 1);
      ReplayStep(sha, events, i);
      NoErrorsIffLinked(sha, events, i);
    }
  }

  lemma NoErrorsIffLinked(sha: string -> string, events: seq<Event>, i: nat)
    requires i < |events|
    ensures ErrorsAt(sha, HeadAt(events, i), events[i]) == [] <==> LinkedAt(sha, events, i)
  {
  }

  /** The verifier reports nothing exactly when the events are linked from genesis on. */
  lemma AcceptedIffLinked(sha: string -> string, events: seq<Event>)
    ensures ReplayErrors(sha, GENESIS, events) == [] <==> Linked(sha, events)
  {
    ReplayFrom(sha, events, 0);
    assert events[0..] == events;
  }

  // ---------------------------------------------------------------- the encoding is injective

  lemma {:induction false} SplitAtColon(a: string, b: string, a': string, b': string)
    requires NoColon(a) && NoColon(a') && a + ":" + b == a' + ":" + b'
    ensures a == a' && b == b'
  {
    var s := a + ":" + b;
    assert s[|a|] == ':' && s[|a'|] == ':';
    assert forall k :: 0 <= k < |a| ==> s[k] == a[k] && s[k] != ':';
    assert forall k :: 0 <= k < |a'| ==> s[k] == a'[k] && s[k] != ':';
    assert |a| == |a'|;
    assert a == s[..|a|] == a';
    assert b == s[|a| + 1..] == b';
  }

  /** Parts without a colon can be read off their join. */
  lemma {:induction false} ClearJoinedInjective(a: seq<string>, b: seq<string>)
    requires |a| == |b| && AllClear(a) && AllClear(b) && Joined(a) == Joined(b)
    ensures a == b
  {
    if |a| > 1 {
      SplitAtColon(a[0], Joined(a[1..]), b[0], Joined(b[1..]));
      ClearJoinedInjective(a[1..], b[1..]);
      assert a == [a[0]] + a[1..] && b == [b[0]] + b[1..];
    }
  }

  ghost predicate AllClear(parts: seq<string>) {
    forall i :: 0 <= i < |parts| ==> NoColon(parts[i])
  }

  function Colons(s: string): nat {
    if s == [] then 0 else (if s[0] == ':' then 1 else 0) + Colons(s[1..])
  }

  lemma {:induction false} ColonsConcat(a: string, b: string)
    ensures Colons(a + b) == Colons(a) + Colons(b)
  {
    if a == [] {
      assert a + b == b;
    } else {
      ColonsConcat(a[1..], b);
      assert (a + b)[1..] == a[1..] + b;
    }
  }

  lemma {:induction false} NoColonsIffClear(s: string)
    ensures Colons(s) == 0 <==> NoColon(s)
  {
    if s != [] {
      NoColonsIffClear(s[1..]);
    }
  }

  /** A join has the separating colons, and no others if and only if its parts have none. */
  lemma {:induction false} ColonsOfJoined(parts: seq<string>)
    requires parts != []
    ensures Colons(Joined(parts)) >= |parts| - 1
    ensures Colons(Joined(parts)) == |parts| - 1 <==> AllClear(parts)
  {
    NoColonsIffClear(parts[0]);
    if |parts| > 1 {
      var rest := parts[1..];
      ColonsOfJoined(rest);
      ColonsConcat(parts[0] + ":", Joined(rest));
      ColonsConcat(parts[0], ":");
      assert parts == [parts[0]] + rest;
      assert Colons(":") == 1;
    }
  }

  /** A join of parts without a colon is the join of no other parts, whatever these contain. */
  lemma JoinedInjective(a: seq<string>, b: seq<string>)
    requires |a| == |b| && AllClear(a) && Joined(a) == Joined(b)
    ensures a == b
  {
    if a != [] {
      ColonsOfJoined(a);
      ColonsOfJoined(b);
      ClearJoinedInjective(a, b);
    }
  }

  /** The chain input of a logged event comes from no other head and from no event that renders differently. */
  lemma InputOfLoggedEvent(h: string, e: Event, h': string, e': Event)
    requires NoColon(h) && WellFormed(e) && ChainInput(h, e) == ChainInput(h', e')
    ensures h == h' && SameRendering(e, e')
  {
    WellFormedIsClear(e);
    var a, b := Parts(h, e), Parts(h', e');
    JoinedInjective(a, b);
    assert a[0] == b[0] && a[1] == b[1] && a[2] == b[2] && a[3] == b[3] && a[4] == b[4] && a[5] == b[5];
  }

  /** Of all error classes only the text "None" renders as a different one of a logged event, the missing one. */
  lemma OnlyNoneIsAmbiguous(e: Event, other: Option<string>)
    requires WellFormed(e)
    ensures Rendered(e.errorClass) == Rendered(other) && e.errorClass != other <==>
      e.errorClass == None && other == Some("None")
  {
    WellFormedIsClear(e);
  }

  lemma SameRenderingSameCore(e: Event, e': Event)
    requires WellFormed(e) && WellFormed(e') && SameRendering(e, e')
    ensures SameCore(e, e')
  {
    OnlyNoneIsAmbiguous(e, e'.errorClass);
    WellFormedIsClear(e');
  }

  /** Equal chain inputs come from equal heads and equal chained fields, a missing error class included. */
  lemma ChainInputInjective(h: string, e: Event, h': string, e': Event)
    requires NoColon(h) && WellFormed(e) && WellFormed(e')
    requires ChainInput(h, e) == ChainInput(h', e')
    ensures h == h' && SameCore(e, e')
  {
    InputOfLoggedEvent(h, e, h', e');
    SameRenderingSameCore(e, e');
  }

  lemma HeadsHaveNoColon(sha: string -> string, events: seq<Event>, i: nat)
    requires GoodHash(sha) && Linked(sha, events) && i <= |events|
    ensures NoColon(HeadAt(events, i))
  {
    if i > 0 {
      assert LinkedAt(sha, events, i - 1);
    }
  }

  lemma GenesisOnlyAtStart(sha: string -> string, events: seq<Event>, i: nat)
    requires GoodHash(sha) && Linked(sha, events) && i <= |events|
    ensures HeadAt(events, i) == GENESIS <==> i == 0
  {
    if i > 0 {
      assert LinkedAt(sha, events, i - 1);
    }
  }

  // ---------------------------------------------------------------- tamper evidence

  /** Equal heads come from events that render the same, appended to equal heads. */
  lemma EqualHeadsStep(sha: string -> string, a: seq<Event>, i: nat, b: seq<Event>, j: nat)
    requires GoodHash(sha) && AllWellFormed(a)
    requires Linked(sha, a) && Linked(sha, b) && 0 < i <= |a| && 0 < j <= |b|
    requires HeadAt(a, i) == HeadAt(b, j)
    ensures HeadAt(a, i - 1) == HeadAt(b, j - 1)
    ensures SameLink(a[i - 1], b[j - 1])
  {
    assert LinkedAt(sha, a, i - 1) && LinkedAt(sha, b, j - 1);
    HeadsHaveNoColon(sha, a, i - 1);
    assert WellFormed(a[i - 1]);
    SameHashSameInput(sha, HeadAt(a, i - 1), a[i - 1], HeadAt(b, j - 1), b[j - 1]);
  }

  lemma SameHashSameInput(sha: string -> string, h: string, e: Event, h': string, e': Event)
    requires GoodHash(sha) && NoColon(h) && WellFormed(e)
    requires sha(ChainInput(h, e)) == sha(ChainInput(h', e'))
    ensures h == h' && SameRendering(e, e')
  {
    InputOfLoggedEvent(h, e, h', e');
  }

  lemma {:induction false} EqualHeadsSameLinks(sha: string -> string, a: seq<Event>, i: nat, b: seq<Event>, j: nat)
    requires GoodHash(sha) && AllWellFormed(a)
    requires Linked(sha, a) && Linked(sha, b) && i <= |a| && j <= |b|
    requires HeadAt(a, i) == HeadAt(b, j)
    ensures i == j
    ensures forall k :: 0 <= k < i ==> SameLink(a[k], b[k])
    decreases i
  {
    GenesisOnlyAtStart(sha, a, i);
    GenesisOnlyAtStart(sha, b, j);
    if i > 0 {
      EqualHeadsStep(sha, a, i, b, j);
      EqualHeadsSameLinks(sha, a, i - 1, b, j - 1);
    }
  }

  /**
  An accepted list of logged events and any accepted list whose heads agree somewhere have the same length and
  the same links up to there. When the other list was logged as well, its error classes are the same too.
  */
  lemma EqualHeadsEqualHistories(sha: string -> string, a: seq<Event>, i: nat, b: seq<Event>, j: nat)
    requires GoodHash(sha) && AllWellFormed(a)
    requires Linked(sha, a) && Linked(sha, b) && i <= |a| && j <= |b|
    requires HeadAt(a, i) == HeadAt(b, j)
    ensures i == j
    ensures forall k :: 0 <= k < i ==> SameLink(a[k], b[k])
    ensures AllWellFormed(b) ==> forall k :: 0 <= k < i ==> SameCore(a[k], b[k])
  {
    EqualHeadsSameLinks(sha, a, i, b, j);
    if AllWellFormed(b) {
      forall k | 0 <= k < i
        ensures SameCore(a[k], b[k])
      {
        SameRenderingSameCore(a[k], b[k]);
      }
    }
  }

  ghost predicate SameChain(a: seq<Event>, b: seq<Event>) {
    && |a| == |b|
    && forall k :: 0 <= k < |a| ==> SameLink(a[k], b[k])
  }

  /** Rows that look the same to the verifier are linked the same. */
  lemma SameChainIsLinked(sha: string -> string, a: seq<Event>, b: seq<Event>)
    requires Linked(sha, a) && SameChain(a, b)
    ensures Linked(sha, b) && HeadAt(b, |b|) == HeadAt(a, |a|)
  {
    forall i | 0 <= i < |b|
      ensures LinkedAt(sha, b, i)
    {
      assert LinkedAt(sha, a, i);
      assert HeadAt(a, i) == HeadAt(b, i);
      assert Parts(HeadAt(a, i), a[i]) == Parts(HeadAt(b, i), b[i]);
    }
  }

  /**
  Tamper evidence, both directions: beside an accepted list `a` of logged events, any list `b` of rows,
  whoever wrote them, is accepted with the same final hash if and only if it agrees with `a` everywhere on
  the event id, both content hashes, the status, the rendered error class and the stored hashes. So the chain
  fixes those, and fixes nothing else.
  */
  lemma TamperEvidence(sha: string -> string, a: seq<Event>, b: seq<Event>)
    requires GoodHash(sha) && AllWellFormed(a)
    requires ReplayErrors(sha, GENESIS, a) == []
    ensures ReplayErrors(sha, GENESIS, b) == [] && HeadAt(b, |b|) == HeadAt(a, |a|) <==> SameChain(a, b)
  {
    AcceptedIffLinked(sha, a);
    AcceptedIffLinked(sha, b);
    if Linked(sha, b) && HeadAt(b, |b|) == HeadAt(a, |a|) {
      EqualHeadsEqualHistories(sha, a, |a|, b, |b|);
    }
    if SameChain(a, b) {
      SameChainIsLinked(sha, a, b);
    }
  }

  /** The alteration of a chained field that the verifier misses: a missing error class becomes the text "None". */
  lemma NoneTextGoesUnnoticed(sha: string -> string, a: seq<Event>, i: nat)
    requires ReplayErrors(sha, GENESIS, a) == [] && i < |a| && a[i].errorClass == None
    ensures var b := a[i := a[i].(errorClass := Some("None"))];
      b != a && ReplayErrors(sha, GENESIS, b) == [] && HeadAt(b, |b|) == HeadAt(a, |a|)
  {
    var b := a[i := a[i].(errorClass := Some("None"))];
    assert b[i] != a[i];
    AcceptedIffLinked(sha, a);
    AcceptedIffLinked(sha, b);
    SameChainIsLinked(sha, a, b);
  }

  /**
  Losing rows: replaying any rows drawn from an accepted log, in any order and with any omission or
  repetition, reports no error if and only if the rows are a prefix of that log.
  */
  lemma AcceptedIffPrefix(sha: string -> string, logged: seq<Event>, rows: seq<Event>)
    requires GoodHash(sha) && AllWellFormed(logged) && Linked(sha, logged)
    requires forall r :: r in rows ==> r in logged
    ensures ReplayErrors(sha, GENESIS, rows) == [] <==> rows <= logged
  {
    AcceptedIffLinked(sha, rows);
    if rows <= logged {
      forall i | 0 <= i < |rows|
        ensures LinkedAt(sha, rows, i)
      {
        assert LinkedAt(sha, logged, i);
        assert HeadAt(rows, i) == HeadAt(logged, i);
      }
    }
    if Linked(sha, rows) {
      LinkedRowsArePrefix(sha, logged, rows, |rows|);
      assert rows[..|rows|] == rows;
    }
  }

  lemma {:induction false} LinkedRowsArePrefix(sha: string -> string, logged: seq<Event>, rows: seq<Event>, n: nat)
    requires GoodHash(sha) && AllWellFormed(logged) && Linked(sha, logged)
    requires forall r :: r in rows ==> r in logged
    requires Linked(sha, rows) && n <= |rows|
    ensures n <= |logged| && rows[..n] == logged[..n]
  {
    if n > 0 {
      LinkedRowsArePrefix(sha, logged, rows, n - 1);
      assert rows[n - 1] in rows;
      var k :| 0 <= k < |logged| && logged[k] == rows[n - 1];
      assert HeadAt(rows, n - 1) == HeadAt(logged, n - 1) by {
        if n - 1 > 0 {
          assert rows[..n - 1][n - 2] == logged[..n - 1][n - 2];
        }
      }
      NextRow(sha, logged, rows, n - 1, k);
      assert rows[..n] == rows[..n - 1] + [logged[n - 1]];
      assert logged[..n] == logged[..n - 1] + [logged[n - 1]];
    }
  }

  /** A linked row that follows the same head as position `m` of the log is the row at that position. */
  lemma NextRow(sha: string -> string, logged: seq<Event>, rows: seq<Event>, m: nat, k: nat)
    requires GoodHash(sha) && AllWellFormed(logged) && Linked(sha, logged) && Linked(sha, rows)
    requires m < |rows| && m <= |logged| && k < |logged| && logged[k] == rows[m] && HeadAt(rows, m) == HeadAt(logged, m)
    ensures k == m
  {
    assert LinkedAt(sha, rows, m) && LinkedAt(sha, logged, k);
    EqualHeadsEqualHistories(sha, logged, k, logged, m);
  }
}
