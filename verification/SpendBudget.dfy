/**
 * The rolling-window spend budget (packages/service-kit/src/pg-budget.ts):
 * any number of `tryConsume` calls as interleaved database transactions.
 */
module SpendBudget {
  import opened Wrappers

  datatype Line = Sponsor | Deploy | Create
  datatype Network = Testnet | Mainnet
  datatype Key = Key(line: Line, network: Network)

  datatype Limits = Limits(maxStroops: Option<nat>, maxCount: nat)

  datatype Request = Request(key: Key, stroops: nat, count: nat)

  datatype Row = Row(key: Key, stroops: nat, count: nat, at: int)

  /** `lockId` is the hash of the key text: two keys may share a lock. */
  datatype Config = Config(windowMs: nat, limits: Line -> Limits, lockId: Key -> int)

  datatype Usage = Usage(count: nat, stroops: nat)

  function Add(u: Usage, r: Row): Usage {
    Usage(u.count + r.count, u.stroops + r.stroops)
  }

  /** The aggregate of the statement: everything of the key after `from`, with no upper bound. */
  function Since(rows: seq<Row>, key: Key, from: int): Usage {
    if rows == [] then Usage(0, 0)
    else
      var r := rows[|rows| - 1];
      var before := Since(rows[..|rows| - 1], key, from);
      if r.key == key && r.at > from then Add(before, r) else before
  }

  /** What the budget promises to bound: the rows of a key in one window. */
  function InWindow(rows: seq<Row>, key: Key, from: int, to: int): Usage {
    if rows == [] then Usage(0, 0)
    else
      var r := rows[|rows| - 1];
      var before := InWindow(rows[..|rows| - 1], key, from, to);
      if r.key == key && from < r.at <= to then Add(before, r) else before
  }

  predicate Within(u: Usage, limits: Limits) {
    u.count <= limits.maxCount && (limits.maxStroops.Some? ==> u.stroops <= limits.maxStroops.value)
  }

  /** The WHERE clause of the conditional insert. */
  predicate Guard(prior: Usage, addStroops: nat, addCount: nat, limits: Limits) {
    && prior.count + addCount <= limits.maxCount
    && (limits.maxStroops.None? || prior.stroops + addStroops <= limits.maxStroops.value)
  }

  /** The pure check of packages/service-kit/src/budget.ts, which counts one call. */
  predicate WithinCeiling(prior: Usage, addStroops: nat, limits: Limits) {
    if prior.count + 1 > limits.maxCount then false
    else if limits.maxStroops.Some? && prior.stroops + addStroops > limits.maxStroops.value then false
    else true
  }

  /** The two guards agree on every ledger and limit exactly for requests that count one call. */
  lemma GuardsAgreeIffOneCall(addCount: nat)
    ensures addCount == 1 <==>
      forall prior, addStroops, limits ::
        Guard(prior, addStroops, addCount, limits) <==> WithinCeiling(prior, addStroops, limits)
  {
    if addCount == 0 {
      var limits := Limits(None, 0);
      assert Guard(Usage(0, 0), 0, addCount, limits) && !WithinCeiling(Usage(0, 0), 0, limits);
    } else if addCount > 1 {
      var limits := Limits(None, 1);
      assert !Guard(Usage(0, 0), 0, addCount, limits) && WithinCeiling(Usage(0, 0), 0, limits);
    }
  }

  /** A request that counts two, on an empty ledger that allows one. */
  lemma GuardsPartAtTwo()
    ensures Since([], Key(Sponsor, Testnet), 0) == Usage(0, 0)
    ensures WithinCeiling(Usage(0, 0), 0, Limits(None, 1)) && !Guard(Usage(0, 0), 0, 2, Limits(None, 1))
  {
  }

  // ---- The interleaved transactions ----

  /** Where a call stands. `from` and `at` are read from the clock before the transaction opens. */
  datatype Call =
    | Stamped(request: Request, from: int, at: int)
    | Locked(request: Request, from: int, at: int)
    | Decided(request: Request, from: int, at: int, inserted: bool)
    | Returned(request: Request, at: int, ok: bool)
    | Failed

  datatype State = State(committed: seq<Row>, calls: map<nat, Call>, locks: map<int, nat>)

  datatype Step =
    | Start(id: nat, request: Request, firstClock: int, secondClock: int)
    | Acquire(id: nat)
    | CheckAndInsert(id: nat)
    | Commit(id: nat)
    | Rollback(id: nat)

  /** The row a call inserts, or has inserted. */
  function RowOf(c: Call): Row
    requires c.Decided? || c.Returned?
  {
    Row(c.request.key, c.request.stroops, c.request.count, c.at)
  }

  /** A new call, or a call in the right phase; a lock is granted only while nobody holds it. */
  predicate Enabled(cfg: Config, s: State, step: Step) {
    match step
    case Start(id, _, first, second) => id !in s.calls && first <= second
    case Acquire(id) => id in s.calls && s.calls[id].Stamped? && cfg.lockId(s.calls[id].request.key) !in s.locks
    case CheckAndInsert(id) => id in s.calls && s.calls[id].Locked?
    case Commit(id) => id in s.calls && s.calls[id].Decided?
    case Rollback(id) => id in s.calls && (s.calls[id].Stamped? || s.calls[id].Locked? || s.calls[id].Decided?)
  }

  function Apply(cfg: Config, s: State, step: Step): State
    requires Enabled(cfg, s, step)
  {
    match step
    case Start(id, request, first, second) =>
      s.(calls := s.calls[id := Stamped(request, first - cfg.windowMs, second)])
    case Acquire(id) =>
      var c := s.calls[id];
      s.(calls := s.calls[id := Locked(c.request, c.from, c.at)], locks := s.locks[cfg.lockId(c.request.key) := id])
    case CheckAndInsert(id) =>
      var c := s.calls[id];
      var prior := Since(s.committed, c.request.key, c.from);
      var inserted := Guard(prior, c.request.stroops, c.request.count, cfg.limits(c.request.key.line));
      s.(calls := s.calls[id := Decided(c.request, c.from, c.at, inserted)])
    case Commit(id) =>
      var c := s.calls[id];
      State(if c.inserted then s.committed + [RowOf(c)] else s.committed,
            s.calls[id := Returned(c.request, c.at, c.inserted)],
            s.locks - {cfg.lockId(c.request.key)})
    case Rollback(id) =>
      var c := s.calls[id];
      s.(calls := s.calls[id := Failed],
         locks := if c.Stamped? then s.locks else s.locks - {cfg.lockId(c.request.key)})
  }

  /** A run: every step is enabled when it happens. */
  ghost predicate Run(cfg: Config, start: State, steps: seq<Step>, end: State)
    decreases |steps|
  {
    if steps == [] then start == end
    else Enabled(cfg, start, steps[0]) && Run(cfg, Apply(cfg, start, steps[0]), steps[1..], end)
  }

  // ---- The invariant ----

  ghost predicate HoldsLock(cfg: Config, s: State, id: nat)
    requires id in s.calls
  {
    var c := s.calls[id];
    c.Locked? || c.Decided? ==>
      cfg.lockId(c.request.key) in s.locks && s.locks[cfg.lockId(c.request.key)] == id
  }

  /** The window start was read first, so it lies at least a window before the row's own time. */
  ghost predicate ClockOrder(cfg: Config, c: Call) {
    c.Stamped? || c.Locked? || c.Decided? ==> c.from <= c.at - cfg.windowMs
  }

  /** A decided insert still fits: nobody else could commit to its key since the check. */
  ghost predicate StillFits(cfg: Config, s: State, c: Call) {
    c.Decided? && c.inserted ==>
      Within(Add(Since(s.committed, c.request.key, c.from), RowOf(c)), cfg.limits(c.request.key.line))
  }

  /** The row, together with everything of its key since one window before it, is within the limits. */
  ghost predicate Fits(cfg: Config, before: seq<Row>, r: Row) {
    Within(Add(Since(before, r.key, r.at - cfg.windowMs), r), cfg.limits(r.key.line))
  }

  /** Each committed row fitted with the rows committed before it. */
  ghost predicate Admissible(cfg: Config, rows: seq<Row>) {
    rows == [] || (Admissible(cfg, rows[..|rows| - 1]) && Fits(cfg, rows[..|rows| - 1], rows[|rows| - 1]))
  }

  ghost predicate Inv(cfg: Config, s: State) {
    && Admissible(cfg, s.committed)
    && (forall id :: id in s.calls ==>
          HoldsLock(cfg, s, id) && ClockOrder(cfg, s.calls[id]) && StillFits(cfg, s, s.calls[id]))
  }

  lemma {:induction false} SinceShrinks(rows: seq<Row>, key: Key, from: int, later: int)
    requires from <= later
    ensures Since(rows, key, later).count <= Since(rows, key, from).count
    ensures Since(rows, key, later).stroops <= Since(rows, key, from).stroops
  {
    if rows != [] {
      SinceShrinks(rows[..|rows| - 1], key, from, later);
    }
  }

  lemma CommitKeepsInv(cfg: Config, s: State, id: nat)
    requires Inv(cfg, s) && Enabled(cfg, s, Commit(id))
    ensures Inv(cfg, Apply(cfg, s, Commit(id)))
  {
    var c := s.calls[id];
    var next := Apply(cfg, s, Commit(id));
    assert HoldsLock(cfg, s, id) && ClockOrder(cfg, c) && StillFits(cfg, s, c);
    if c.inserted {
      var row := RowOf(c);
      SinceShrinks(s.committed, row.key, c.from, row.at - cfg.windowMs);
      assert next.committed[..|next.committed| - 1] == s.committed;
      assert Admissible(cfg, next.committed);
    }
    forall other | other in next.calls
      ensures HoldsLock(cfg, next, other) && ClockOrder(cfg, next.calls[other]) && StillFits(cfg, next, next.calls[other])
    {
      if other != id {
        assert HoldsLock(cfg, s, other) && ClockOrder(cfg, s.calls[other]) && StillFits(cfg, s, s.calls[other]);
        OtherKeyUntouched(s.committed, c, s.calls[other]);
      }
    }
  }

  /** A commit adds nothing to the aggregate of another key. */
  lemma OtherKeyUntouched(rows: seq<Row>, c: Call, d: Call)
    requires c.Decided?
    ensures d.Decided? && d.request.key != c.request.key ==>
      Since(rows + [RowOf(c)], d.request.key, d.from) == Since(rows, d.request.key, d.from)
  {
    assert (rows + [RowOf(c)])[..|rows + [RowOf(c)]| - 1] == rows;
  }

  lemma StepKeepsInv(cfg: Config, s: State, step: Step)
    requires Inv(cfg, s) && Enabled(cfg, s, step)
    ensures Inv(cfg, Apply(cfg, s, step))
  {
    if step.Commit? {
      CommitKeepsInv(cfg, s, step.id);
    } else {
      var next := Apply(cfg, s, step);
      forall id | id in next.calls
        ensures HoldsLock(cfg, next, id) && ClockOrder(cfg, next.calls[id]) && StillFits(cfg, next, next.calls[id])
      {
        if id in s.calls {
          assert HoldsLock(cfg, s, id) && ClockOrder(cfg, s.calls[id]) && StillFits(cfg, s, s.calls[id]);
        }
        if !step.Start? {
          assert HoldsLock(cfg, s, step.id) && ClockOrder(cfg, s.calls[step.id]);
        }
      }
    }
  }

  lemma {:induction false} RunKeepsInv(cfg: Config, start: State, steps: seq<Step>, end: State)
    requires Inv(cfg, start) && Run(cfg, start, steps, end)
    ensures Inv(cfg, end)
    decreases |steps|
  {
    if steps != [] {
      StepKeepsInv(cfg, start, steps[0]);
      RunKeepsInv(cfg, Apply(cfg, start, steps[0]), steps[1..], end);
    }
  }

  // ---- Safety ----

  lemma {:induction false} WindowIsSince(rows: seq<Row>, key: Key, from: int, to: int, earlier: int)
    requires earlier <= from
    ensures InWindow(rows, key, from, to).count <= Since(rows, key, earlier).count
    ensures InWindow(rows, key, from, to).stroops <= Since(rows, key, earlier).stroops
  {
    if rows != [] {
      WindowIsSince(rows[..|rows| - 1], key, from, to, earlier);
    }
  }

  /** In commit order the last row of a window saw all the others, whatever their timestamps. */
  lemma {:induction false} AdmissibleBoundsWindows(cfg: Config, rows: seq<Row>, key: Key, to: int)
    requires Admissible(cfg, rows)
    ensures Within(InWindow(rows, key, to - cfg.windowMs, to), cfg.limits(key.line))
  {
    if rows != [] {
      var n := |rows| - 1;
      var before, r := rows[..n], rows[n];
      AdmissibleBoundsWindows(cfg, before, key, to);
      if r.key == key && to - cfg.windowMs < r.at <= to {
        WindowIsSince(before, key, to - cfg.windowMs, to, r.at - cfg.windowMs);
      }
    }
  }

  const EMPTY := State([], map[], map[])

  /** In every run and at every time, the committed rows of a key in one window stay within its limits. */
  lemma RollingWindowIsSafe(cfg: Config, steps: seq<Step>, end: State, key: Key, to: int)
    requires Run(cfg, EMPTY, steps, end)
    ensures Within(InWindow(end.committed, key, to - cfg.windowMs, to), cfg.limits(key.line))
  {
    RunKeepsInv(cfg, EMPTY, steps, end);
    AdmissibleBoundsWindows(cfg, end.committed, key, to);
  }

  predicate Accepted(c: Call) {
    c.Returned? && c.ok
  }

  /** `ids` are the accepted calls, each once, and row by row what they recorded is what is committed. */
  ghost predicate Accounted(s: State, ids: seq<nat>) {
    && |ids| == |s.committed|
    && (forall i :: 0 <= i < |ids| ==>
          ids[i] in s.calls && Accepted(s.calls[ids[i]]) && s.committed[i] == RowOf(s.calls[ids[i]]))
    && (forall i, j :: 0 <= i < j < |ids| ==> ids[i] != ids[j])
    && (forall id :: id in s.calls && Accepted(s.calls[id]) ==> id in ids)
  }

  /** No step touches a call that has returned, and only an accepted commit touches the table. */
  lemma StepAccounts(cfg: Config, s: State, ids: seq<nat>, step: Step)
    requires Accounted(s, ids) && Enabled(cfg, s, step)
    ensures Accounted(Apply(cfg, s, step), if step.Commit? && s.calls[step.id].inserted then ids + [step.id] else ids)
  {
    var next := Apply(cfg, s, step);
    var nextIds := if step.Commit? && s.calls[step.id].inserted then ids + [step.id] else ids;
    forall id | id in next.calls && Accepted(next.calls[id]) ensures id in nextIds {
      if id != step.id { assert id in s.calls && Accepted(s.calls[id]); }
    }
  }

  /**
   * Over a whole run the committed rows are, one to one and field by field, the
   * rows of the accepted calls: a refused or failed call left nothing.
   */
  lemma {:induction false} RowsMatchAcceptedCalls(cfg: Config, start: State, ids: seq<nat>, steps: seq<Step>, end: State)
      returns (all: seq<nat>)
    requires Accounted(start, ids) && Run(cfg, start, steps, end)
    ensures Accounted(end, all)
    decreases |steps|
  {
    if steps == [] {
      all := ids;
    } else {
      var step := steps[0];
      var next := Apply(cfg, start, step);
      var nextIds := if step.Commit? && start.calls[step.id].inserted then ids + [step.id] else ids;
      StepAccounts(cfg, start, ids, step);
      all := RowsMatchAcceptedCalls(cfg, next, nextIds, steps[1..], end);
    }
  }

  /** What one uninterrupted call does: record the row if the guard lets it, and say so. */
  function Decision(cfg: Config, s: State, id: nat, request: Request, first: int, second: int): State {
    var prior := Since(s.committed, request.key, first - cfg.windowMs);
    var ok := Guard(prior, request.stroops, request.count, cfg.limits(request.key.line));
    State(if ok then s.committed + [Row(request.key, request.stroops, request.count, second)] else s.committed,
          s.calls[id := Returned(request, second, ok)],
          s.locks)
  }

  lemma RunCons(cfg: Config, s: State, step: Step, rest: seq<Step>, end: State)
    requires Enabled(cfg, s, step) && Run(cfg, Apply(cfg, s, step), rest, end)
    ensures Run(cfg, s, [step] + rest, end)
  {
    assert ([step] + rest)[1..] == rest;
  }

  /** Without contention nothing is refused needlessly: a call run on its own is accepted exactly when it fits. */
  lemma LoneCallDecidesByGuard(cfg: Config, s: State, id: nat, request: Request, first: int, second: int)
    requires id !in s.calls && first <= second && cfg.lockId(request.key) !in s.locks
    ensures Run(cfg, s, [Start(id, request, first, second), Acquire(id), CheckAndInsert(id), Commit(id)],
                Decision(cfg, s, id, request, first, second))
  {
    var start := Start(id, request, first, second);
    var a := Apply(cfg, s, start);
    var b := Apply(cfg, a, Acquire(id));
    var c := Apply(cfg, b, CheckAndInsert(id));
    var d := Apply(cfg, c, Commit(id));
    assert d.locks == s.locks && d.calls == Decision(cfg, s, id, request, first, second).calls;
    assert d == Decision(cfg, s, id, request, first, second);
    RunCons(cfg, c, Commit(id), [], d);
    RunCons(cfg, b, CheckAndInsert(id), [Commit(id)], d);
    RunCons(cfg, a, Acquire(id), [CheckAndInsert(id), Commit(id)], d);
    RunCons(cfg, s, start, [Acquire(id), CheckAndInsert(id), Commit(id)], d);
  }

  // ---- What a call is measured against ----

  /** Rows at or before the window start, and rows of other keys, count for nothing. */
  lemma {:induction false} OldRowsCountNothing(rows: seq<Row>, key: Key, from: int)
    requires forall r :: r in rows && r.key == key ==> r.at <= from
    ensures Since(rows, key, from) == Usage(0, 0)
  {
    if rows != [] {
      assert rows[|rows| - 1] in rows;
      OldRowsCountNothing(rows[..|rows| - 1], key, from);
    }
  }

  /** With no row of the key after `to`, the aggregate is what the window holds. */
  lemma {:induction false} SinceIsWindow(rows: seq<Row>, key: Key, from: int, to: int)
    requires forall r :: r in rows && r.key == key ==> r.at <= to
    ensures Since(rows, key, from) == InWindow(rows, key, from, to)
  {
    if rows != [] {
      assert rows[|rows| - 1] in rows;
      SinceIsWindow(rows[..|rows| - 1], key, from, to);
    }
  }

  /** The request fits beside what the window before its time holds. */
  predicate FitsWindow(cfg: Config, rows: seq<Row>, request: Request, from: int, to: int) {
    var spent, limits := InWindow(rows, request.key, from, to), cfg.limits(request.key.line);
    && spent.count + request.count <= limits.maxCount
    && (limits.maxStroops.Some? ==> spent.stroops + request.stroops <= limits.maxStroops.value)
  }

  /**
   * A call on its own, when no row of its key is after `to`, is accepted exactly
   * when it fits with what the window up to `to` holds, and then records its row.
   */
  lemma LoneCallIsMeasured(cfg: Config, s: State, id: nat, request: Request, first: int, second: int, to: int)
      returns (end: State)
    requires id !in s.calls && first <= second && cfg.lockId(request.key) !in s.locks
    requires forall r :: r in s.committed && r.key == request.key ==> r.at <= to
    ensures Run(cfg, s, [Start(id, request, first, second), Acquire(id), CheckAndInsert(id), Commit(id)], end)
    ensures id in end.calls && end.calls[id].Returned?
    ensures end.calls[id].ok <==> FitsWindow(cfg, s.committed, request, first - cfg.windowMs, to)
    ensures end.committed == s.committed
      + if end.calls[id].ok then [Row(request.key, request.stroops, request.count, second)] else []
  {
    end := Decision(cfg, s, id, request, first, second);
    LoneCallDecidesByGuard(cfg, s, id, request, first, second);
    SinceIsWindow(s.committed, request.key, first - cfg.windowMs, to);
  }

  /** The window rolls: once every row of its key is as old as the window, a request that fits alone is accepted. */
  lemma OldSpendingIsForgotten(cfg: Config, s: State, id: nat, request: Request, first: int, second: int)
      returns (end: State)
    requires id !in s.calls && first <= second && cfg.lockId(request.key) !in s.locks
    requires forall r :: r in s.committed && r.key == request.key ==> r.at <= first - cfg.windowMs
    requires request.count <= cfg.limits(request.key.line).maxCount
    requires var most := cfg.limits(request.key.line).maxStroops; most.Some? ==> request.stroops <= most.value
    ensures Run(cfg, s, [Start(id, request, first, second), Acquire(id), CheckAndInsert(id), Commit(id)], end)
    ensures id in end.calls && end.calls[id] == Returned(request, second, true)
  {
    end := Decision(cfg, s, id, request, first, second);
    LoneCallDecidesByGuard(cfg, s, id, request, first, second);
    OldRowsCountNothing(s.committed, request.key, first - cfg.windowMs);
  }
}
