/**
 * The policy event queue (services/policy-service/src/event-queue.ts): failed
 * messages go round again, and poison ones are quarantined.
 */
module EventQueue {
  import opened Wrappers
  import opened Sequences
  import opened OrderedMap

  datatype Message = Message(id: string, eventType: string, payload: Option<string>, attempts: nat, limit: int)

  datatype Quarantined = Quarantined(message: Message, attempts: nat, reason: string)

  datatype Outcome = Done | Retry | Poison

  datatype ProcessResult = ProcessResult(messageId: string, outcome: Outcome, attempts: nat, reason: string)

  /** What a handler does with a message on a given attempt: nothing, or an error. */
  type Handler = Message -> Option<string>

  type Quarantine = Entries<string, Quarantined>

  datatype Queue = Queue(pending: seq<Message>, quarantine: Quarantine)

  // ---- One message ----

  function Begun(m: Message): Message {
    m.(attempts := m.attempts + 1)
  }

  /** A message without a type or a payload fails before it meets the handler. */
  function Attempt(handler: Handler, m: Message): Option<string> {
    if m.eventType == "" || m.payload.None? then Some("Malformed message: missing eventType or payload")
    else handler(m)
  }

  /** How many times a message may still be tried. */
  function TriesLeft(m: Message): nat {
    if m.attempts + 1 >= m.limit then 1 else m.limit - m.attempts
  }

  function Verdict(handler: Handler, begun: Message): ProcessResult {
    match Attempt(handler, begun)
    case None => ProcessResult(begun.id, Done, begun.attempts, "")
    case Some(reason) =>
      ProcessResult(begun.id, if begun.attempts >= begun.limit then Poison else Retry, begun.attempts, reason)
  }

  function Settle(q: Queue, begun: Message, verdict: ProcessResult): Queue {
    match verdict.outcome
    case Done => q
    case Poison => q.(quarantine := Put(q.quarantine, begun.id, Quarantined(begun, begun.attempts, verdict.reason)))
    case Retry => q.(pending := q.pending + [begun])
  }

  function ProcessOne(handler: Handler, q: Queue): (r: (Queue, ProcessResult))
    requires q.pending != []
  {
    var begun := Begun(q.pending[0]);
    var verdict := Verdict(handler, begun);
    (Settle(q.(pending := q.pending[1..]), begun, verdict), verdict)
  }

  // ---- Draining ----

  function Work(pending: seq<Message>): nat {
    if pending == [] then 0 else TriesLeft(pending[0]) + Work(pending[1..])
  }

  lemma {:induction false} WorkAppend(pending: seq<Message>, m: Message)
    ensures Work(pending + [m]) == Work(pending) + TriesLeft(m)
  {
    if pending == [] {
      assert Work([m][1..]) == 0 && pending + [m] == [m];
    } else {
      assert (pending + [m])[1..] == pending[1..] + [m];
      WorkAppend(pending[1..], m);
    }
  }

  lemma ProcessingWorks(handler: Handler, q: Queue)
    requires q.pending != []
    ensures Work(ProcessOne(handler, q).0.pending) < Work(q.pending)
  {
    WorkAppend(q.pending[1..], Begun(q.pending[0]));
  }

  /** Everything `processAll` does: the queue it leaves and the results in order. */
  function Drain(handler: Handler, q: Queue): (r: (Queue, seq<ProcessResult>))
    ensures r.0.pending == []
    decreases Work(q.pending)
  {
    if q.pending == [] then (q, [])
    else
      ProcessingWorks(handler, q);
      var (next, result) := ProcessOne(handler, q);
      var (end, results) := Drain(handler, next);
      (end, [result] + results)
  }

  lemma DrainUnfolds(handler: Handler, q: Queue)
    requires q.pending != []
    ensures var (next, result) := ProcessOne(handler, q);
      Drain(handler, q) == (Drain(handler, next).0, [result] + Drain(handler, next).1)
  {
    ProcessingWorks(handler, q);
  }

  lemma DrainStep(handler: Handler, q: Queue, results: seq<ProcessResult>)
    requires q.pending != []
    ensures var (next, result) := ProcessOne(handler, q);
      && Drain(handler, q).0 == Drain(handler, next).0
      && results + Drain(handler, q).1 == results + [result] + Drain(handler, next).1
  {
    DrainUnfolds(handler, q);
    var (next, result) := ProcessOne(handler, q);
    Associates(results, [result], Drain(handler, next).1);
  }

  class PolicyEventQueue {
    var queue: seq<Message>
    var quarantine: Quarantine
    const maxAttempts: int

    constructor (maxAttempts: int)
      ensures queue == [] && quarantine == [] && this.maxAttempts == maxAttempts
    {
      queue := [];
      quarantine := [];
      this.maxAttempts := maxAttempts;
    }

    function State(): Queue
      reads this
    {
      Queue(queue, quarantine)
    }

    method Enqueue(id: string, eventType: string, payload: Option<string>, limit: Option<int>) returns (m: Message)
      modifies this
      ensures m == Message(id, eventType, payload, 0, if limit.Some? then limit.value else maxAttempts)
      ensures State() == Queue(old(queue) + [m], old(quarantine))
    {
      m := Message(id, eventType, payload, 0, if limit.Some? then limit.value else maxAttempts);
      queue := queue + [m];
    }

    method ProcessNext(handler: Handler) returns (r: Option<ProcessResult>)
      modifies this
      ensures old(queue) == [] ==> r.None? && State() == old(State())
      ensures old(queue) != [] ==> r.Some? && (State(), r.value) == ProcessOne(handler, old(State()))
    {
      if queue == [] { return None; }
      var m := queue[0];
      queue := queue[1..];
      m := m.(attempts := m.attempts + 1);
      var error := Attempt(handler, m);
      if error.None? { return Some(ProcessResult(m.id, Done, m.attempts, "")); }
      if m.attempts >= m.limit {
        quarantine := Put(quarantine, m.id, Quarantined(m, m.attempts, error.value));
        return Some(ProcessResult(m.id, Poison, m.attempts, error.value));
      }
      queue := queue + [m];
      r := Some(ProcessResult(m.id, Retry, m.attempts, error.value));
    }

    method ProcessAll(handler: Handler) returns (results: seq<ProcessResult>)
      modifies this
      ensures State() == Drain(handler, old(State())).0
      ensures results == Drain(handler, old(State())).1
    {
      results := [];
      ghost var start := State();
      while queue != []
        invariant Drain(handler, start).0 == Drain(handler, State()).0
        invariant Drain(handler, start).1 == results + Drain(handler, State()).1
        decreases Work(queue)
      {
        ProcessingWorks(handler, State());
        DrainStep(handler, State(), results);
        var result := ProcessNext(handler);
        results := results + [result.value];
      }
      assert Drain(handler, State()) == (State(), []);
    }
  }

  // ---- The same message alone ----

  /** The simple retry loop: every result of a message, tried over and over. */
  function Alone(handler: Handler, m: Message): seq<ProcessResult>
    decreases TriesLeft(m)
  {
    var begun := Begun(m);
    var verdict := Verdict(handler, begun);
    if verdict.outcome == Retry then [verdict] + Alone(handler, begun) else [verdict]
  }

  function ResultsOf(results: seq<ProcessResult>, id: string): seq<ProcessResult> {
    if results == [] then []
    else if results[0].messageId == id then [results[0]] + ResultsOf(results[1..], id)
    else ResultsOf(results[1..], id)
  }

  ghost predicate DistinctIds(pending: seq<Message>) {
    forall i, j :: 0 <= i < j < |pending| ==> pending[i].id != pending[j].id
  }

  predicate Pending(pending: seq<Message>, id: string) {
    exists i :: 0 <= i < |pending| && pending[i].id == id
  }

  /** What remains of a message in quarantine after its last result. */
  function LastRecord(handler: Handler, m: Message, before: Option<Quarantined>): Option<Quarantined>
    decreases TriesLeft(m)
  {
    var begun := Begun(m);
    var verdict := Verdict(handler, begun);
    match verdict.outcome
    case Done => before
    case Poison => Some(Quarantined(begun, begun.attempts, verdict.reason))
    case Retry => LastRecord(handler, begun, before)
  }

  /** Where the messages of a queue go when the first one is processed. */
  ghost predicate Goes(pending: seq<Message>, outcome: Outcome, next: seq<Message>)
    requires pending != []
  {
    && DistinctIds(next)
    && (forall m :: m in pending && m != pending[0] ==> m in next)
    && (if outcome == Retry then Begun(pending[0]) in next else !Pending(next, pending[0].id))
    && (forall id :: !Pending(pending, id) ==> !Pending(next, id))
  }

  lemma NextPending(handler: Handler, q: Queue)
    requires q.pending != [] && DistinctIds(q.pending)
    ensures Goes(q.pending, ProcessOne(handler, q).1.outcome, ProcessOne(handler, q).0.pending)
  {
    var rest, begun := q.pending[1..], Begun(q.pending[0]);
    if ProcessOne(handler, q).1.outcome == Retry { GoesRound(q.pending, rest + [begun]); }
  }

  lemma GoesRound(pending: seq<Message>, next: seq<Message>)
    requires pending != [] && DistinctIds(pending) && next == pending[1..] + [Begun(pending[0])]
    ensures Goes(pending, Retry, next)
  {
    forall i | 0 <= i < |next| ensures next[i].id == pending[if i + 1 < |pending| then i + 1 else 0].id {
    }
  }

  /** Draining does not touch what is not in the queue. */
  lemma {:induction false} DrainIgnores(handler: Handler, q: Queue, id: string)
    requires DistinctIds(q.pending) && !Pending(q.pending, id)
    ensures ResultsOf(Drain(handler, q).1, id) == []
    ensures Get(Drain(handler, q).0.quarantine, id) == Get(q.quarantine, id)
    decreases Work(q.pending)
  {
    if q.pending != [] {
      ProcessingWorks(handler, q);
      NextPending(handler, q);
      var begun := Begun(q.pending[0]);
      GetPut(q.quarantine, begun.id, Quarantined(begun, begun.attempts, Verdict(handler, begun).reason), id);
      DrainIgnores(handler, ProcessOne(handler, q).0, id);
    }
  }

  /**
   * Whatever else is queued, a message gets the results and the quarantine
   * record it would get alone.
   */
  lemma {:induction false} DrainIsAlone(handler: Handler, q: Queue, m: Message)
    requires DistinctIds(q.pending) && m in q.pending
    ensures ResultsOf(Drain(handler, q).1, m.id) == Alone(handler, m)
    ensures Get(Drain(handler, q).0.quarantine, m.id) == LastRecord(handler, m, Get(q.quarantine, m.id))
    decreases Work(q.pending)
  {
    ProcessingWorks(handler, q);
    NextPending(handler, q);
    var (next, verdict) := ProcessOne(handler, q);
    var begun := Begun(q.pending[0]);
    GetPut(q.quarantine, begun.id, Quarantined(begun, begun.attempts, verdict.reason), m.id);
    if m == q.pending[0] {
      if verdict.outcome == Retry {
        DrainIsAlone(handler, next, begun);
      } else {
        DrainIgnores(handler, next, m.id);
      }
    } else {
      DrainIsAlone(handler, next, m);
    }
  }

  // ---- What a message comes to alone ----

  function At(m: Message, k: nat): Message {
    m.(attempts := k)
  }

  /** The attempt a message is poisoned at: its limit, but at least one. */
  function Bound(m: Message): nat {
    if m.limit < 1 then 1 else m.limit
  }

  ghost predicate FailsBetween(handler: Handler, m: Message, from: nat, to: nat) {
    forall k :: from < k <= to ==> Attempt(handler, At(m, k)).Some?
  }

  function Last(results: seq<ProcessResult>): ProcessResult
    requires results != []
  {
    results[|results| - 1]
  }

  /** A message on its last attempt so far at `n`, having failed at every one before. */
  ghost predicate EndsAt(handler: Handler, m: Message, n: nat, last: ProcessResult) {
    && m.attempts < n <= Bound(m) && FailsBetween(handler, m, m.attempts, n - 1)
    && last == Verdict(handler, At(m, n)) && last.outcome != Retry
  }

  lemma EndsLater(handler: Handler, m: Message, n: nat, last: ProcessResult)
    requires EndsAt(handler, Begun(m), n, last) && Attempt(handler, Begun(m)).Some?
    ensures EndsAt(handler, m, n, last)
  {
    assert At(m, n) == At(Begun(m), n);
    forall k | m.attempts < k < n ensures Attempt(handler, At(m, k)).Some? {
      assert At(m, k) == if k == m.attempts + 1 then Begun(m) else At(Begun(m), k);
    }
  }

  lemma LastOfMore(first: ProcessResult, rest: seq<ProcessResult>)
    requires rest != []
    ensures Last([first] + rest) == Last(rest) && |[first] + rest| == 1 + |rest|
  {
  }

  lemma {:induction false} AloneFrom(handler: Handler, m: Message)
    requires m.attempts < Bound(m)
    ensures Alone(handler, m) != []
    ensures EndsAt(handler, m, m.attempts + |Alone(handler, m)|, Last(Alone(handler, m)))
    decreases TriesLeft(m)
  {
    var begun := Begun(m);
    if Verdict(handler, begun).outcome == Retry {
      AloneFrom(handler, begun);
      LastOfMore(Verdict(handler, begun), Alone(handler, begun));
      EndsLater(handler, m, begun.attempts + |Alone(handler, begun)|, Last(Alone(handler, begun)));
    } else {
      assert begun == At(m, m.attempts + 1);
    }
  }

  /**
   * A fresh message succeeds exactly at its first attempt that does not fail
   * within its limit, and is poisoned exactly after its limit of failures.
   */
  lemma FirstSuccessOrLimit(handler: Handler, m: Message, k: nat)
    requires m.attempts == 0
    ensures Alone(handler, m) != []
    ensures Last(Alone(handler, m)).outcome == Done && Last(Alone(handler, m)).attempts == k
       <==> 1 <= k <= Bound(m) && FailsBetween(handler, m, 0, k - 1) && Attempt(handler, At(m, k)).None?
    ensures Last(Alone(handler, m)).outcome == Poison <==> FailsBetween(handler, m, 0, Bound(m))
    ensures Last(Alone(handler, m)).outcome == Poison ==> Last(Alone(handler, m)).attempts == Bound(m)
  {
    AloneFrom(handler, m);
  }

  /** What a message is poisoned with: its last attempt, the number of attempts, and the last reason. */
  lemma {:induction false} RecordedLast(handler: Handler, m: Message, before: Option<Quarantined>)
    ensures Alone(handler, m) != []
    ensures var last := Last(Alone(handler, m));
      LastRecord(handler, m, before)
      == if last.outcome == Poison then Some(Quarantined(At(m, last.attempts), last.attempts, last.reason)) else before
    decreases TriesLeft(m)
  {
    var begun := Begun(m);
    assert At(m, begun.attempts) == begun;
    if Verdict(handler, begun).outcome == Retry {
      RecordedLast(handler, begun, before);
      LastOfMore(Verdict(handler, begun), Alone(handler, begun));
      assert forall k :: At(begun, k) == At(m, k);
    }
  }

  /** A message without a type or a payload is poisoned after its limit of attempts, whatever the handler does. */
  lemma MalformedIsPoisoned(handler: Handler, m: Message, before: Option<Quarantined>)
    requires m.attempts == 0 && (m.eventType == "" || m.payload.None?)
    ensures Alone(handler, m) != []
    ensures Last(Alone(handler, m)).outcome == Poison
    ensures LastRecord(handler, m, before) == Some(
      Quarantined(At(m, Bound(m)), Bound(m), "Malformed message: missing eventType or payload"))
  {
    AloneFrom(handler, m);
    FirstSuccessOrLimit(handler, m, Bound(m));
    RecordedLast(handler, m, before);
  }

  /**
   * Any other message follows its handler: it is done at the first attempt the
   * handler takes without an error, and if there is none up to its limit it is
   * quarantined with the error of the last attempt.
   */
  lemma FollowsHandler(handler: Handler, m: Message, k: nat, before: Option<Quarantined>)
    requires m.attempts == 0 && m.eventType != "" && m.payload.Some?
    ensures Alone(handler, m) != []
    ensures Last(Alone(handler, m)).outcome == Done && Last(Alone(handler, m)).attempts == k
       <==> 1 <= k <= Bound(m) && handler(At(m, k)).None? && forall j :: 1 <= j < k ==> handler(At(m, j)).Some?
    ensures (forall j :: 1 <= j <= Bound(m) ==> handler(At(m, j)).Some?) ==>
      && Last(Alone(handler, m)).outcome == Poison
      && LastRecord(handler, m, before)
         == Some(Quarantined(At(m, Bound(m)), Bound(m), handler(At(m, Bound(m))).value))
    ensures (exists j :: 1 <= j <= Bound(m) && handler(At(m, j)).None?) ==> LastRecord(handler, m, before) == before
  {
    AloneFrom(handler, m);
    FirstSuccessOrLimit(handler, m, k);
    RecordedLast(handler, m, before);
    forall j: nat ensures Attempt(handler, At(m, j)) == handler(At(m, j)) {
    }
  }
}
