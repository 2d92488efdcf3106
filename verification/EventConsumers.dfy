/** Several consumers taking turns on one event queue, with handlers that overlap. */
module EventConsumers {
  import opened Sequences
  import opened OrderedMap
  import opened EventQueue

  /** `inFlight` holds the messages whose handlers have been called and have not returned. */
  datatype Flow = Flow(queue: seq<Message>, inFlight: seq<Message>, succeeded: seq<Message>, quarantine: Quarantine)

  datatype Step = Add(m: Message) | Take | Finish(i: nat)

  /** A step that is not possible changes nothing. */
  function Apply(handler: Handler, s: Flow, step: Step): Flow {
    match step
    case Add(m) => s.(queue := s.queue + [m])
    case Take =>
      if s.queue == [] then s
      else s.(queue := s.queue[1..], inFlight := s.inFlight + [Begun(s.queue[0])])
    case Finish(i) => if i < |s.inFlight| then Finished(handler, s, i) else s
  }

  function Finished(handler: Handler, s: Flow, i: nat): Flow
    requires i < |s.inFlight|
  {
    var m := s.inFlight[i];
    var left := s.(inFlight := Without(s.inFlight, i));
    var settled := Settle(Queue(left.queue, left.quarantine), m, Verdict(handler, m));
    Flow(settled.pending, left.inFlight,
         if Verdict(handler, m).outcome == Done then left.succeeded + [m] else left.succeeded, settled.quarantine)
  }

  function Run(handler: Handler, s: Flow, steps: seq<Step>): Flow
    decreases |steps|
  {
    if steps == [] then s else Run(handler, Apply(handler, s, steps[0]), steps[1..])
  }

  function Added(steps: seq<Step>): seq<Message> {
    if steps == [] then []
    else (if steps[0].Add? then [steps[0].m] else []) + Added(steps[1..])
  }

  // ---- Counting messages ----

  function Bit(b: bool): nat {
    if b then 1 else 0
  }

  function Count<R(==)>(ms: seq<Message>, f: Message -> R, x: R): nat {
    if ms == [] then 0 else Bit(f(ms[0]) == x) + Count(ms[1..], f, x)
  }

  function Messages(q: Quarantine): (r: seq<Message>)
    ensures |r| == |q|
  {
    seq(|q|, i requires 0 <= i < |q| => q[i].1.message)
  }

  /** How often `x` is said, wherever the messages are: by `f` of a waiting one, by `g` of one that has begun an attempt. */
  function Total<R(==)>(s: Flow, f: Message -> R, g: Message -> R, x: R): nat {
    Count(s.queue, f, x) + Count(s.inFlight, g, x) + Count(s.succeeded, g, x) + Count(Messages(s.quarantine), g, x)
  }

  lemma {:induction false} CountAppend<R>(a: seq<Message>, b: seq<Message>, f: Message -> R, x: R)
    ensures Count(a + b, f, x) == Count(a, f, x) + Count(b, f, x)
  {
    if a == [] {
      assert a + b == b;
    } else {
      assert (a + b)[1..] == a[1..] + b;
      CountAppend(a[1..], b, f, x);
    }
  }

  lemma CountOne<R>(a: seq<Message>, m: Message, f: Message -> R, x: R)
    ensures Count(a + [m], f, x) == Count(a, f, x) + Bit(f(m) == x)
  {
    CountAppend(a, [m], f, x);
  }

  lemma CountWithout<R>(a: seq<Message>, i: nat, f: Message -> R, x: R)
    requires i < |a|
    ensures Count(a, f, x) == Count(Without(a, i), f, x) + Bit(f(a[i]) == x)
  {
    assert a == a[..i] + [a[i]] + a[i + 1..];
    CountAppend(a[..i] + [a[i]], a[i + 1..], f, x);
    CountOne(a[..i], a[i], f, x);
    CountAppend(a[..i], a[i + 1..], f, x);
  }

  lemma {:induction false} CountHas<R>(a: seq<Message>, m: Message, f: Message -> R)
    requires m in a
    ensures Count(a, f, f(m)) >= 1
  {
    if a[0] != m { CountHas(a[1..], m, f); }
  }

  /** `f` before an attempt says what `g` says during it, and a retry goes back to the same. */
  ghost predicate Agree<R(!new)>(handler: Handler, f: Message -> R, g: Message -> R) {
    && (forall m :: g(Begun(m)) == f(m))
    && (forall m :: Verdict(handler, m).outcome == Retry ==> f(m) == g(m))
  }

  ghost predicate KeysAreIds(q: Quarantine) {
    forall i :: 0 <= i < |q| ==> q[i].0 == q[i].1.message.id
  }

  /** A step keeps every total that agrees, and adds what it adds. */
  lemma StepKeepsTotal<R(!new)>(handler: Handler, s: Flow, step: Step, f: Message -> R, g: Message -> R, x: R)
    requires Agree(handler, f, g)
    requires step.Finish? && step.i < |s.inFlight| ==> !Has(s.quarantine, s.inFlight[step.i].id)
    ensures Total(Apply(handler, s, step), f, g, x)
         == Total(s, f, g, x) + (if step.Add? then Bit(f(step.m) == x) else 0)
  {
    match step
    case Add(m) => CountOne(s.queue, m, f, x);
    case Take =>
      if s.queue != [] { CountOne(s.inFlight, Begun(s.queue[0]), g, x); }
    case Finish(i) =>
      if i < |s.inFlight| { FinishKeepsTotal(handler, s, i, f, g, x); }
  }

  lemma FinishKeepsTotal<R(!new)>(handler: Handler, s: Flow, i: nat, f: Message -> R, g: Message -> R, x: R)
    requires Agree(handler, f, g) && i < |s.inFlight| && !Has(s.quarantine, s.inFlight[i].id)
    ensures Total(Finished(handler, s, i), f, g, x) == Total(s, f, g, x)
  {
    var m := s.inFlight[i];
    CountWithout(s.inFlight, i, g, x);
    match Verdict(handler, m).outcome
    case Done => CountOne(s.succeeded, m, g, x);
    case Retry => CountOne(s.queue, m, f, x);
    case Poison => CountPoison(s.quarantine, Quarantined(m, m.attempts, Verdict(handler, m).reason), g, x);
  }

  lemma CountPoison<R>(q: Quarantine, record: Quarantined, g: Message -> R, x: R)
    requires !Has(q, record.message.id)
    ensures Count(Messages(Put(q, record.message.id, record)), g, x)
         == Count(Messages(q), g, x) + Bit(g(record.message) == x)
  {
    PutFresh(q, record.message.id, record);
    assert Messages(Put(q, record.message.id, record)) == Messages(q) + [record.message];
    CountOne(Messages(q), record.message, g, x);
  }

  // ---- Whole runs ----

  function IdOf(): Message -> string {
    (m: Message) => m.id
  }

  /** What a waiting message will come to. */
  function FateOf(handler: Handler): Message -> ProcessResult {
    (m: Message) => Last(Alone(handler, m))
  }

  /** What a message that has begun an attempt will come to. */
  function FateBegun(handler: Handler): Message -> ProcessResult {
    (m: Message) => if Verdict(handler, m).outcome == Retry then Last(Alone(handler, m)) else Verdict(handler, m)
  }

  lemma FatesAgree(handler: Handler)
    ensures Agree(handler, FateOf(handler), FateBegun(handler))
  {
    forall m ensures FateBegun(handler)(Begun(m)) == FateOf(handler)(m) {
      if Verdict(handler, Begun(m)).outcome == Retry {
        LastOfMore(Verdict(handler, Begun(m)), Alone(handler, Begun(m)));
      }
    }
  }

  predicate Settled(handler: Handler, s: Flow) {
    && (forall m :: m in s.succeeded ==> Verdict(handler, m).outcome == Done)
    && forall i :: 0 <= i < |s.quarantine| ==>
         var (key, record) := s.quarantine[i];
         && key == record.message.id
         && Verdict(handler, record.message) == ProcessResult(key, Poison, record.attempts, record.reason)
  }

  /** Each message added is in exactly one place, and comes to what it would come to alone. */
  ghost predicate Partitions(handler: Handler, s: Flow, added: seq<Message>) {
    && Settled(handler, s)
    && (forall id :: Total(s, IdOf(), IdOf(), id) == Count(added, IdOf(), id))
    && forall fate ::
         Total(s, FateOf(handler), FateBegun(handler), fate) == Count(added, FateOf(handler), fate)
  }

  ghost predicate Distinct(added: seq<Message>) {
    forall id :: Count(added, IdOf(), id) <= 1
  }

  lemma QuarantineCount(q: Quarantine, id: string)
    requires KeysAreIds(q) && Has(q, id)
    ensures Count(Messages(q), IdOf(), id) >= 1
  {
    var i :| 0 <= i < |q| && q[i].0 == id;
    assert Messages(q)[i].id == id;
    CountHas(Messages(q), Messages(q)[i], IdOf());
  }

  /** With distinct ids, a message in flight is not in quarantine already. */
  lemma InFlightIsFresh(s: Flow, i: nat)
    requires i < |s.inFlight| && KeysAreIds(s.quarantine)
    requires Total(s, IdOf(), IdOf(), s.inFlight[i].id) <= 1
    ensures !Has(s.quarantine, s.inFlight[i].id)
  {
    var id := s.inFlight[i].id;
    CountHas(s.inFlight, s.inFlight[i], IdOf());
    if Has(s.quarantine, id) { QuarantineCount(s.quarantine, id); }
  }

  ghost predicate Safe(s: Flow, step: Step) {
    step.Finish? && step.i < |s.inFlight| ==> !Has(s.quarantine, s.inFlight[step.i].id)
  }

  lemma StepIsSafe(handler: Handler, s: Flow, added: seq<Message>, step: Step)
    requires Partitions(handler, s, added) && Distinct(added)
    ensures Safe(s, step)
  {
    if step.Finish? && step.i < |s.inFlight| { InFlightIsFresh(s, step.i); }
  }

  lemma StepSettles(handler: Handler, s: Flow, step: Step)
    requires Settled(handler, s) && Safe(s, step)
    ensures Settled(handler, Apply(handler, s, step))
  {
    if step.Finish? && step.i < |s.inFlight| {
      var m := s.inFlight[step.i];
      PutFresh(s.quarantine, m.id, Quarantined(m, m.attempts, Verdict(handler, m).reason));
    }
  }

  lemma StepCounts<R(!new)>(handler: Handler, s: Flow, added: seq<Message>, step: Step,
                            f: Message -> R, g: Message -> R, x: R)
    requires Agree(handler, f, g) && Safe(s, step) && Total(s, f, g, x) == Count(added, f, x)
    ensures Total(Apply(handler, s, step), f, g, x) == Count(added + Added([step]), f, x)
  {
    StepKeepsTotal(handler, s, step, f, g, x);
    AddedOne(step);
    if step.Add? { CountOne(added, step.m, f, x); } else { assert added + [] == added; }
  }

  lemma AddedOne(step: Step)
    ensures Added([step]) == if step.Add? then [step.m] else []
  {
    assert Added([step][1..]) == [];
  }

  lemma StepPartitions(handler: Handler, s: Flow, added: seq<Message>, step: Step)
    requires Partitions(handler, s, added) && Distinct(added)
    ensures Partitions(handler, Apply(handler, s, step), added + Added([step]))
  {
    StepIsSafe(handler, s, added, step);
    StepSettles(handler, s, step);
    FatesAgree(handler);
    forall id ensures Total(Apply(handler, s, step), IdOf(), IdOf(), id) == Count(added + Added([step]), IdOf(), id) {
      StepCounts(handler, s, added, step, IdOf(), IdOf(), id);
    }
    forall fate
      ensures Total(Apply(handler, s, step), FateOf(handler), FateBegun(handler), fate)
           == Count(added + Added([step]), FateOf(handler), fate)
    {
      StepCounts(handler, s, added, step, FateOf(handler), FateBegun(handler), fate);
    }
  }

  lemma DistinctStart(added: seq<Message>, more: seq<Message>)
    requires Distinct(added + more)
    ensures Distinct(added)
  {
    forall id ensures Count(added, IdOf(), id) <= 1 {
      CountAppend(added, more, IdOf(), id);
    }
  }

  /**
   * However consumers overlap, every message that was added is waiting, in
   * flight, succeeded or quarantined, once; and its fate is what it would be
   * alone.
   */
  lemma {:induction false} EveryRunPartitions(handler: Handler, s: Flow, added: seq<Message>, steps: seq<Step>)
    requires Partitions(handler, s, added) && Distinct(added + Added(steps))
    ensures Partitions(handler, Run(handler, s, steps), added + Added(steps))
    decreases |steps|
  {
    if steps == [] {
      assert added + Added(steps) == added;
    } else {
      AddedOne(steps[0]);
      assert added + Added(steps) == added + Added([steps[0]]) + Added(steps[1..]);
      DistinctStart(added, Added(steps));
      StepPartitions(handler, s, added, steps[0]);
      EveryRunPartitions(handler, Apply(handler, s, steps[0]), added + Added([steps[0]]), steps[1..]);
    }
  }

  function Empty(): Flow {
    Flow([], [], [], [])
  }

  lemma EmptyPartitions(handler: Handler)
    ensures Partitions(handler, Empty(), [])
  {
  }

  lemma RunsPartition(handler: Handler, steps: seq<Step>)
    requires Distinct(Added(steps))
    ensures Partitions(handler, Run(handler, Empty(), steps), Added(steps))
  {
    EmptyPartitions(handler);
    assert [] + Added(steps) == Added(steps);
    EveryRunPartitions(handler, Empty(), [], steps);
  }

  /** Once a run from an empty queue is quiet, what is done and what is poisoned is what each message comes to alone. */
  lemma QuietRunsEndAsAlone(handler: Handler, steps: seq<Step>, fate: ProcessResult)
    requires Distinct(Added(steps))
    requires Run(handler, Empty(), steps).queue == [] && Run(handler, Empty(), steps).inFlight == []
    ensures var end := Run(handler, Empty(), steps);
      Settled(handler, end)
      && Count(end.succeeded + Messages(end.quarantine), FateBegun(handler), fate)
         == Count(Added(steps), FateOf(handler), fate)
  {
    var end := Run(handler, Empty(), steps);
    RunsPartition(handler, steps);
    CountAppend(end.succeeded, Messages(end.quarantine), FateBegun(handler), fate);
    assert Total(end, FateOf(handler), FateBegun(handler), fate) == Count(Added(steps), FateOf(handler), fate);
  }

  // ---- The same in ids ----

  function Ids(ms: seq<Message>): (r: seq<string>)
    ensures |r| == |ms|
  {
    seq(|ms|, i requires 0 <= i < |ms| => ms[i].id)
  }

  lemma {:induction false} CountIsMultiplicity(ms: seq<Message>, id: string)
    ensures Count(ms, IdOf(), id) == multiset(Ids(ms))[id]
  {
    if ms != [] {
      CountIsMultiplicity(ms[1..], id);
      assert Ids(ms) == [ms[0].id] + Ids(ms[1..]);
    }
  }

  /** Messages with different ids. */
  ghost predicate DifferentIds(ms: seq<Message>) {
    forall i, j :: 0 <= i < j < |ms| ==> ms[i].id != ms[j].id
  }

  lemma {:induction false} DifferentIsDistinct(ms: seq<Message>)
    requires DifferentIds(ms)
    ensures Distinct(ms)
  {
    if ms != [] {
      DifferentIsDistinct(ms[1..]);
      forall id ensures Count(ms, IdOf(), id) <= 1 {
        if id == ms[0].id && Count(ms[1..], IdOf(), id) > 0 { CountMeans(ms[1..], id); }
      }
    }
  }

  lemma {:induction false} CountMeans(ms: seq<Message>, id: string)
    requires Count(ms, IdOf(), id) > 0
    ensures exists i :: 0 <= i < |ms| && ms[i].id == id
  {
    if ms[0].id != id {
      CountMeans(ms[1..], id);
      var i :| 0 <= i < |ms[1..]| && ms[1..][i].id == id;
      assert ms[i + 1].id == id;
    }
  }

  /**
   * In any run with different ids, the ids that wait, are in flight, succeeded
   * and are quarantined are together exactly those added, each once.
   */
  lemma IdsArePartitioned(handler: Handler, steps: seq<Step>)
    requires DifferentIds(Added(steps))
    ensures var s := Run(handler, Empty(), steps);
      multiset(Ids(s.queue)) + multiset(Ids(s.inFlight)) + multiset(Ids(s.succeeded)) + multiset(Ids(Messages(s.quarantine)))
      == multiset(Ids(Added(steps)))
  {
    var s := Run(handler, Empty(), steps);
    DifferentIsDistinct(Added(steps));
    RunsPartition(handler, steps);
    forall id ensures
      multiset(Ids(s.queue))[id] + multiset(Ids(s.inFlight))[id] + multiset(Ids(s.succeeded))[id]
      + multiset(Ids(Messages(s.quarantine)))[id] == multiset(Ids(Added(steps)))[id]
    {
      CountIsMultiplicity(s.queue, id);
      CountIsMultiplicity(s.inFlight, id);
      CountIsMultiplicity(s.succeeded, id);
      CountIsMultiplicity(Messages(s.quarantine), id);
      CountIsMultiplicity(Added(steps), id);
      assert Total(s, IdOf(), IdOf(), id) == Count(Added(steps), IdOf(), id);
    }
  }
}
