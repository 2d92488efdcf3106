/** The circuit breaker (packages/service-kit/src/circuit-breaker.ts), under sequential `execute` calls. */
module CircuitBreaker {
  import opened Wrappers

  datatype Circuit = Closed | Open | HalfOpen

  datatype Config = Config(failureThreshold: int, cooldownMs: nat)

  datatype Breaker = Breaker(circuit: Circuit, consecutiveFailures: nat, openedAt: int)

  /** A call that fails fast says how long to wait. */
  datatype CircuitOpen = CircuitOpen(retryAfterMs: int)

  function Before(cfg: Config, b: Breaker, now: int): Result<Breaker, CircuitOpen> {
    if b.circuit.Open? && now - b.openedAt < cfg.cooldownMs then
      Failure(CircuitOpen(cfg.cooldownMs - (now - b.openedAt)))
    else Success(if b.circuit.Open? then b.(circuit := HalfOpen) else b)
  }

  function Recorded(cfg: Config, b: Breaker, succeeded: bool, now: int): Breaker {
    if succeeded then Breaker(Closed, 0, b.openedAt)
    else if b.circuit.HalfOpen? then b.(circuit := Open, openedAt := now)
    else
      var failures := b.consecutiveFailures + 1;
      if failures >= cfg.failureThreshold then Breaker(Open, failures, now)
      else b.(consecutiveFailures := failures)
  }

  /** One `execute`: begun at one time, and, if it was not rejected, ended at another with an outcome. */
  datatype Call = Call(begun: int, ended: int, succeeds: bool)

  predicate Attempted(cfg: Config, b: Breaker, c: Call) {
    Before(cfg, b, c.begun).Success?
  }

  function Execute(cfg: Config, b: Breaker, c: Call): Breaker {
    match Before(cfg, b, c.begun)
    case Failure(_) => b
    case Success(trial) => Recorded(cfg, trial, c.succeeds, c.ended)
  }

  /** What is reported of a change of state. */
  function Change(from: Circuit, to: Circuit): seq<(Circuit, Circuit)> {
    if from == to then [] else [(from, to)]
  }

  /** What one `execute` reports. */
  function ReportsOf(cfg: Config, b: Breaker, c: Call): seq<(Circuit, Circuit)> {
    match Before(cfg, b, c.begun)
    case Failure(_) => []
    case Success(trial) => Change(b.circuit, trial.circuit) + Change(trial.circuit, Execute(cfg, b, c).circuit)
  }

  class Controller {
    var circuit: Circuit
    var consecutiveFailures: nat
    var openedAt: int
    var changes: seq<(Circuit, Circuit)>
    const cfg: Config

    constructor (cfg: Config)
      ensures this.cfg == cfg && State() == START && changes == []
    {
      this.cfg := cfg;
      circuit := Closed;
      consecutiveFailures := 0;
      openedAt := 0;
      changes := [];
    }

    function State(): Breaker
      reads this
    {
      Breaker(circuit, consecutiveFailures, openedAt)
    }

    /** Every change of state is reported, and nothing else. */
    method Transition(to: Circuit)
      modifies this
      ensures State() == old(State()).(circuit := to)
      ensures changes == old(changes) + Change(old(circuit), to)
    {
      if to == circuit { return; }
      changes := changes + [(circuit, to)];
      circuit := to;
    }

    method BeforeCall(now: int) returns (r: Result<(), CircuitOpen>)
      modifies this
      ensures match Before(cfg, old(State()), now)
              case Failure(e) => r == Failure(e) && State() == old(State()) && changes == old(changes)
              case Success(b) =>
                r == Success(()) && State() == b && changes == old(changes) + Change(old(circuit), b.circuit)
    {
      if circuit == Open {
        var elapsed := now - openedAt;
        if elapsed < cfg.cooldownMs { return Failure(CircuitOpen(cfg.cooldownMs - elapsed)); }
        Transition(HalfOpen);
      }
      r := Success(());
    }

    method RecordOutcome(succeeded: bool, now: int)
      modifies this
      ensures State() == Recorded(cfg, old(State()), succeeded, now)
      ensures changes == old(changes) + Change(old(circuit), circuit)
    {
      if succeeded {
        consecutiveFailures := 0;
        Transition(Closed);
        return;
      }
      if circuit == HalfOpen {
        openedAt := now;
        Transition(Open);
      } else {
        consecutiveFailures := consecutiveFailures + 1;
        if consecutiveFailures >= cfg.failureThreshold {
          openedAt := now;
          Transition(Open);
        }
      }
    }

    /** `c` says when the call begins and ends and what it comes to. */
    method Run(c: Call) returns (r: Result<bool, CircuitOpen>)
      modifies this
      ensures State() == Execute(cfg, old(State()), c)
      ensures r.Success? <==> Attempted(cfg, old(State()), c)
      ensures r.Success? ==> r.value == c.succeeds
      ensures changes == old(changes) + ReportsOf(cfg, old(State()), c)
    {
      var before := BeforeCall(c.begun);
      if before.Failure? { return Failure(before.error); }
      RecordOutcome(c.succeeds, c.ended);
      r := Success(c.succeeds);
    }
  }

  // ---- Runs ----

  const START: Breaker := Breaker(Closed, 0, 0)

  function ExecuteAll(cfg: Config, b: Breaker, calls: seq<Call>): Breaker
    decreases |calls|
  {
    if calls == [] then b else ExecuteAll(cfg, Execute(cfg, b, calls[0]), calls[1..])
  }

  /** The outcomes of the calls that reached the dependency. */
  function Outcomes(cfg: Config, b: Breaker, calls: seq<Call>): seq<bool>
    decreases |calls|
  {
    if calls == [] then []
    else (if Attempted(cfg, b, calls[0]) then [calls[0].succeeds] else []) + Outcomes(cfg, Execute(cfg, b, calls[0]), calls[1..])
  }

  /** How many failures a log of outcomes ends in. */
  function Trailing(log: seq<bool>): nat {
    if log == [] || log[|log| - 1] then 0 else 1 + Trailing(log[..|log| - 1])
  }

  /** A threshold below one opens at the first failure too. */
  function Threshold(cfg: Config): nat {
    if cfg.failureThreshold < 1 then 1 else cfg.failureThreshold
  }

  /** What the state says of the outcomes so far. */
  ghost predicate Tells(cfg: Config, b: Breaker, log: seq<bool>) {
    if Trailing(log) < Threshold(cfg) then b.circuit.Closed? && b.consecutiveFailures == Trailing(log)
    else b.circuit.Open?
  }

  lemma ExecuteTells(cfg: Config, b: Breaker, log: seq<bool>, c: Call)
    requires Tells(cfg, b, log)
    ensures Tells(cfg, Execute(cfg, b, c), log + (if Attempted(cfg, b, c) then [c.succeeds] else []))
  {
    if Attempted(cfg, b, c) {
      assert (log + [c.succeeds])[..|log|] == log;
    } else {
      assert log + [] == log;
    }
  }

  lemma {:induction false} RunTells(cfg: Config, b: Breaker, log: seq<bool>, calls: seq<Call>)
    requires Tells(cfg, b, log)
    ensures Tells(cfg, ExecuteAll(cfg, b, calls), log + Outcomes(cfg, b, calls))
    decreases |calls|
  {
    if calls == [] {
      assert log + [] == log;
    } else {
      var one := if Attempted(cfg, b, calls[0]) then [calls[0].succeeds] else [];
      ExecuteTells(cfg, b, log, calls[0]);
      RunTells(cfg, Execute(cfg, b, calls[0]), log + one, calls[1..]);
      assert log + one + Outcomes(cfg, Execute(cfg, b, calls[0]), calls[1..]) == log + Outcomes(cfg, b, calls);
    }
  }

  /**
   * After any run the breaker is closed exactly while the calls that reached
   * the dependency end in fewer failures than the threshold, and its counter
   * is their number.
   */
  lemma ClosedIffFewFailures(cfg: Config, calls: seq<Call>)
    ensures var b := ExecuteAll(cfg, START, calls);
      var failures := Trailing(Outcomes(cfg, START, calls));
      && (b.circuit.Closed? <==> failures < Threshold(cfg))
      && (b.circuit.Closed? ==> b.consecutiveFailures == failures)
      && !b.circuit.HalfOpen?
  {
    assert [] + Outcomes(cfg, START, calls) == Outcomes(cfg, START, calls);
    RunTells(cfg, START, [], calls);
  }

  // ---- An outage ----

  /** Calls one after another, from `from` on, the last begun by `to`. */
  ghost predicate Sequential(calls: seq<Call>, from: int, to: int)
    decreases |calls|
  {
    if calls == [] then from <= to
    else from <= calls[0].begun <= to && calls[0].begun <= calls[0].ended && Sequential(calls[1..], calls[0].begun, to)
         && (|calls| > 1 ==> calls[0].ended <= calls[1].begun)
  }

  lemma Times(n: nat, cooldown: nat)
    ensures (n + 1) * cooldown == n * cooldown + cooldown
  {
  }

  /**
   * While nothing succeeds, the calls that reach the dependency after the
   * breaker opened are at least a cooldown apart from each other and from
   * its opening.
   */
  lemma {:induction false} OutageBound(cfg: Config, b: Breaker, calls: seq<Call>, from: int, to: int)
    requires b.circuit.Open? && b.openedAt <= to && Sequential(calls, from, to)
    requires forall outcome :: outcome in Outcomes(cfg, b, calls) ==> !outcome
    ensures |Outcomes(cfg, b, calls)| * cfg.cooldownMs <= to - b.openedAt
    decreases |calls|
  {
    if calls != [] {
      var c, next := calls[0], Execute(cfg, b, calls[0]);
      assert Outcomes(cfg, b, calls)
          == (if Attempted(cfg, b, c) then [c.succeeds] else []) + Outcomes(cfg, next, calls[1..]);
      forall outcome | outcome in Outcomes(cfg, next, calls[1..]) ensures !outcome {
        assert outcome in Outcomes(cfg, b, calls);
      }
      if Attempted(cfg, b, c) {
        assert c.succeeds in Outcomes(cfg, b, calls);
        Times(|Outcomes(cfg, next, calls[1..])|, cfg.cooldownMs);
        if |calls| > 1 {
          OutageBound(cfg, next, calls[1..], c.begun, to);
        }
      } else {
        OutageBound(cfg, b, calls[1..], c.begun, to);
      }
    }
  }

  // ---- When a call gets through ----

  /** The calls that reached the dependency. */
  function Reached(cfg: Config, b: Breaker, calls: seq<Call>): (r: seq<Call>)
    ensures |r| == |Outcomes(cfg, b, calls)|
    decreases |calls|
  {
    if calls == [] then []
    else (if Attempted(cfg, b, calls[0]) then [calls[0]] else []) + Reached(cfg, Execute(cfg, b, calls[0]), calls[1..])
  }

  /** An open breaker was opened when the last call that reached the dependency ended. */
  ghost predicate OpenedByLast(b: Breaker, reached: seq<Call>) {
    b.circuit.Open? ==> reached != [] && b.openedAt == reached[|reached| - 1].ended
  }

  lemma ExecuteOpensAtLast(cfg: Config, b: Breaker, before: seq<Call>, c: Call)
    requires OpenedByLast(b, before) && !b.circuit.HalfOpen?
    ensures OpenedByLast(Execute(cfg, b, c), if Attempted(cfg, b, c) then before + [c] else before)
    ensures !Execute(cfg, b, c).circuit.HalfOpen?
  {
  }

  lemma ReachedCons(cfg: Config, b: Breaker, before: seq<Call>, calls: seq<Call>)
    requires calls != []
    ensures before + Reached(cfg, b, calls)
         == (if Attempted(cfg, b, calls[0]) then before + [calls[0]] else before)
            + Reached(cfg, Execute(cfg, b, calls[0]), calls[1..])
  {
  }

  lemma {:induction false} RunOpensAtLast(cfg: Config, b: Breaker, before: seq<Call>, calls: seq<Call>)
    requires OpenedByLast(b, before) && !b.circuit.HalfOpen?
    ensures OpenedByLast(ExecuteAll(cfg, b, calls), before + Reached(cfg, b, calls))
    decreases |calls|
  {
    if calls == [] {
      assert before + [] == before;
    } else {
      ExecuteOpensAtLast(cfg, b, before, calls[0]);
      ReachedCons(cfg, b, before, calls);
      RunOpensAtLast(cfg, Execute(cfg, b, calls[0]), if Attempted(cfg, b, calls[0]) then before + [calls[0]] else before,
                     calls[1..]);
    }
  }

  /**
   * After any run of calls, the next call reaches the dependency exactly when
   * those that did so before end in fewer failures than the threshold, or a
   * cooldown has passed since the last of them ended. A call that does not is
   * told how much of that cooldown is left.
   */
  lemma GetsThroughIff(cfg: Config, calls: seq<Call>, next: Call)
    ensures var b, reached := ExecuteAll(cfg, START, calls), Reached(cfg, START, calls);
      var few := Trailing(Outcomes(cfg, START, calls)) < Threshold(cfg);
      && (!few ==> reached != [])
      && (Attempted(cfg, b, next) <==> few || next.begun >= reached[|reached| - 1].ended + cfg.cooldownMs)
      && (!Attempted(cfg, b, next) ==>
            Before(cfg, b, next.begun).error.retryAfterMs
            == reached[|reached| - 1].ended + cfg.cooldownMs - next.begun)
  {
    ClosedIffFewFailures(cfg, calls);
    RunOpensAtLast(cfg, START, [], calls);
    assert [] + Reached(cfg, START, calls) == Reached(cfg, START, calls);
    BeforeIs(cfg, ExecuteAll(cfg, START, calls), next);
  }

  lemma BeforeIs(cfg: Config, b: Breaker, next: Call)
    ensures Attempted(cfg, b, next) <==> !b.circuit.Open? || next.begun >= b.openedAt + cfg.cooldownMs
    ensures !Attempted(cfg, b, next) ==>
      Before(cfg, b, next.begun).error.retryAfterMs == b.openedAt + cfg.cooldownMs - next.begun
  {
  }

  // ---- What is reported ----

  /** What a run of calls reports. */
  function AllReports(cfg: Config, b: Breaker, calls: seq<Call>): seq<(Circuit, Circuit)>
    decreases |calls|
  {
    if calls == [] then [] else ReportsOf(cfg, b, calls[0]) + AllReports(cfg, Execute(cfg, b, calls[0]), calls[1..])
  }

  /** The changes of state a breaker can make. */
  predicate Legal(change: (Circuit, Circuit)) {
    || change == (Closed, Open) || change == (Open, HalfOpen) || change == (HalfOpen, Open) || change == (HalfOpen, Closed)
  }

  /** Changes from one state to another, each beginning where the one before it ended. */
  ghost predicate Leads(log: seq<(Circuit, Circuit)>, from: Circuit, to: Circuit) {
    if log == [] then from == to
    else Legal(log[0]) && log[0].0 == from && Leads(log[1..], log[0].1, to)
  }

  lemma {:induction false} LeadsJoin(a: seq<(Circuit, Circuit)>, b: seq<(Circuit, Circuit)>, from: Circuit, mid: Circuit, to: Circuit)
    requires Leads(a, from, mid) && Leads(b, mid, to)
    ensures Leads(a + b, from, to)
  {
    if a == [] {
      assert a + b == b;
    } else {
      assert (a + b)[1..] == a[1..] + b;
      LeadsJoin(a[1..], b, a[0].1, mid, to);
    }
  }

  lemma ChangeLeads(from: Circuit, to: Circuit)
    requires from == to || Legal((from, to))
    ensures Leads(Change(from, to), from, to)
  {
    if from != to { assert Change(from, to)[1..] == []; }
  }

  lemma ExecuteLeads(cfg: Config, b: Breaker, c: Call)
    ensures Leads(ReportsOf(cfg, b, c), b.circuit, Execute(cfg, b, c).circuit)
  {
    if Attempted(cfg, b, c) {
      var trial, after := Before(cfg, b, c.begun).value.circuit, Execute(cfg, b, c).circuit;
      ChangeLeads(b.circuit, trial);
      ChangeLeads(trial, after);
      LeadsJoin(Change(b.circuit, trial), Change(trial, after), b.circuit, trial, after);
    }
  }

  /** The reports of a run lead from its first state to its last by legal changes, so none is missing and none is repeated. */
  lemma {:induction false} ReportsLead(cfg: Config, b: Breaker, calls: seq<Call>)
    ensures Leads(AllReports(cfg, b, calls), b.circuit, ExecuteAll(cfg, b, calls).circuit)
    decreases |calls|
  {
    if calls != [] {
      var next := Execute(cfg, b, calls[0]);
      ExecuteLeads(cfg, b, calls[0]);
      ReportsLead(cfg, next, calls[1..]);
      LeadsJoin(ReportsOf(cfg, b, calls[0]), AllReports(cfg, next, calls[1..]), b.circuit, next.circuit,
                ExecuteAll(cfg, b, calls).circuit);
    }
  }
}
