/**
 * The RPC endpoint pool (packages/service-kit/src/rpc-pool.ts): which endpoint
 * to use, from probes and failure reports, and failing over between them.
 */
module RpcPool {
  import opened Wrappers

  /** Why an endpoint is unhealthy. */
  datatype Reason = ProbeError(error: string) | BadStatus(status: string) | Lagging(ledgers: int) | CallFailed(why: string)

  datatype Endpoint = Endpoint(
    healthy: bool, latestLedger: Option<int>, reason: Option<Reason>, lastCheckedAt: Option<int>,
    lastFailureAt: Option<int>)

  type Health = map<string, Endpoint>

  datatype Pool = Pool(urls: seq<string>, health: Health, selected: string)

  datatype PoolError = NoUrls

  datatype ProbeResult = Answered(status: string, latestLedger: int) | ProbeFailed(error: string)

  const DEFAULT_MAX_LEDGER_LAG: int := 10

  // ---- Candidates ----

  /** First occurrences, in order. */
  function Dedupe(urls: seq<string>): (r: seq<string>)
    ensures forall u :: u in r <==> u in urls
    ensures forall i, j :: 0 <= i < j < |r| ==> r[i] != r[j]
  {
    if urls == [] then []
    else
      var before, last := Dedupe(urls[..|urls| - 1]), urls[|urls| - 1];
      assert urls == urls[..|urls| - 1] + [last];
      if last in before then before else before + [last]
  }

  predicate Knows(urls: seq<string>, health: Health) {
    forall u :: u in urls ==> u in health
  }

  function With(urls: seq<string>, health: Health, healthy: bool): (r: seq<string>)
    requires Knows(urls, health)
    ensures forall u :: u in r <==> u in urls && health[u].healthy == healthy
  {
    if urls == [] then []
    else if health[urls[0]].healthy == healthy then [urls[0]] + With(urls[1..], health, healthy)
    else With(urls[1..], health, healthy)
  }

  function FailureTime(health: Health, u: string): int
    requires u in health
  {
    if health[u].lastFailureAt.Some? then health[u].lastFailureAt.value else 0
  }

  function InsertByFailure(u: string, s: seq<string>, health: Health): (r: seq<string>)
    requires u in health && Knows(s, health)
    ensures multiset(r) == multiset(s) + multiset{u} && forall v :: v in r <==> v == u || v in s
  {
    if s == [] then [u]
    else if FailureTime(health, u) <= FailureTime(health, s[0]) then [u] + s
    else assert s == [s[0]] + s[1..]; [s[0]] + InsertByFailure(u, s[1..], health)
  }

  /** The stable `sort` by time of failure. */
  function ByFailure(s: seq<string>, health: Health): (r: seq<string>)
    requires Knows(s, health)
    ensures multiset(r) == multiset(s) && forall v :: v in r <==> v in s
  {
    if s == [] then []
    else assert s == [s[0]] + s[1..]; InsertByFailure(s[0], ByFailure(s[1..], health), health)
  }

  function Candidates(urls: seq<string>, health: Health): seq<string>
    requires Knows(urls, health)
  {
    With(urls, health, true) + ByFailure(With(urls, health, false), health)
  }

  // ---- Health ----

  function Demoted(e: Endpoint, reason: Reason, now: int): Endpoint {
    e.(healthy := false, reason := Some(reason), lastFailureAt := Some(now))
  }

  /** The latest ledger any endpoint answered with, but at least 0. */
  function Freshest(urls: seq<string>, answers: string -> ProbeResult): int {
    if urls == [] then 0
    else
      var rest, a := Freshest(urls[1..], answers), answers(urls[0]);
      if a.Answered? && a.latestLedger > rest then a.latestLedger else rest
  }

  function Probed(e: Endpoint, answer: ProbeResult, freshest: int, maxLag: int, checkedAt: int, now: int): Endpoint {
    var checked := e.(lastCheckedAt := Some(checkedAt));
    match answer
    case ProbeFailed(error) => Demoted(checked, ProbeError(error), now)
    case Answered(status, ledger) =>
      var answered := checked.(latestLedger := Some(ledger));
      if status != "healthy" then Demoted(answered, BadStatus(status), now)
      else if freshest - ledger > maxLag then Demoted(answered, Lagging(freshest - ledger), now)
      else answered.(healthy := true, reason := None)
  }

  ghost predicate Distinct(urls: seq<string>) {
    forall i, j :: 0 <= i < j < |urls| ==> urls[i] != urls[j]
  }

  /** A pool has the health of its endpoints, which are distinct. */
  ghost predicate Shaped(p: Pool) {
    p.urls != [] && Distinct(p.urls) && p.health.Keys == set u | u in p.urls
  }

  ghost predicate Valid(p: Pool) {
    Shaped(p) && Candidates(p.urls, p.health) != [] && p.selected == Candidates(p.urls, p.health)[0]
  }

  lemma CandidatesNotEmpty(urls: seq<string>, health: Health)
    requires Knows(urls, health) && urls != []
    ensures Candidates(urls, health) != []
  {
    var u := urls[0];
    assert u in With(urls, health, true) || u in ByFailure(With(urls, health, false), health);
  }

  function Reselected(p: Pool): Pool
    requires p.urls != [] && Knows(p.urls, p.health)
  {
    CandidatesNotEmpty(p.urls, p.health);
    p.(selected := Candidates(p.urls, p.health)[0])
  }

  function Fresh(): Endpoint {
    Endpoint(true, None, None, None, None)
  }

  /** What happens to a pool. `answers` and `failedAt` are by endpoint. */
  datatype Event =
    | Report(url: string, reason: string, now: int)
    | Probe(answers: string -> ProbeResult, checkedAt: int, failedAt: string -> int)

  function ProbedHealth(p: Pool, maxLag: int, answers: string -> ProbeResult, checkedAt: int, failedAt: string -> int): Health
    requires Knows(p.urls, p.health)
  {
    var freshest := Freshest(p.urls, answers);
    map u | u in p.urls :: Probed(p.health[u], answers(u), freshest, maxLag, checkedAt, failedAt(u))
  }

  function After(p: Pool, maxLag: int, event: Event): (r: Pool)
    requires Shaped(p)
    ensures Shaped(r) && r.urls == p.urls
  {
    match event
    case Report(url, reason, now) =>
      if url !in p.health then p
      else Reselected(p.(health := p.health[url := Demoted(p.health[url], CallFailed(reason), now)]))
    case Probe(answers, checkedAt, failedAt) =>
      Reselected(p.(health := ProbedHealth(p, maxLag, answers, checkedAt, failedAt)))
  }

  function AfterAll(p: Pool, maxLag: int, events: seq<Event>): (r: Pool)
    requires Shaped(p)
    ensures Shaped(r) && r.urls == p.urls
    decreases |events|
  {
    if events == [] then p else AfterAll(After(p, maxLag, events[0]), maxLag, events[1..])
  }

  class RpcPool {
    const urls: seq<string>
    const maxLedgerLag: int
    var health: Health
    var selected: string

    /** Every endpoint starts healthy. */
    constructor (urls: seq<string>, maxLedgerLag: Option<int>)
      requires urls != []
      ensures this.urls == Dedupe(urls) && Valid(State()) && selected == urls[0]
      ensures this.maxLedgerLag == if maxLedgerLag.Some? then maxLedgerLag.value else 10
      ensures forall u :: u in health ==> health[u] == Fresh()
    {
      DedupeFirst(urls);
      var deduped := Dedupe(urls);
      this.urls := deduped;
      this.maxLedgerLag := if maxLedgerLag.Some? then maxLedgerLag.value else DEFAULT_MAX_LEDGER_LAG;
      health := map u | u in deduped :: Fresh();
      selected := deduped[0];
    }

    function State(): Pool
      reads this
    {
      Pool(urls, health, selected)
    }

    method Reselect()
      requires urls != [] && Knows(urls, health)
      modifies this`selected
      ensures State() == Reselected(old(State()))
    {
      CandidatesNotEmpty(urls, health);
      var next := Candidates(urls, health)[0];
      if next != selected { selected := next; }
    }

    method MarkUnhealthy(url: string, reason: Reason, now: int)
      modifies this`health
      ensures health == if url in old(health) then old(health)[url := Demoted(old(health)[url], reason, now)] else old(health)
    {
      if url !in health { return; }
      health := health[url := Demoted(health[url], reason, now)];
    }

    method ReportFailure(url: string, reason: string, now: int)
      requires Shaped(State())
      modifies this
      ensures State() == After(old(State()), maxLedgerLag, Report(url, reason, now))
    {
      if url !in health { return; }
      MarkUnhealthy(url, CallFailed(reason), now);
      Reselect();
    }

    method RecordProbe(url: string, answer: ProbeResult, freshest: int, checkedAt: int, now: int)
      requires url in health
      modifies this`health
      ensures health == old(health)[url := Probed(old(health)[url], answer, freshest, maxLedgerLag, checkedAt, now)]
    {
      health := health[url := health[url].(lastCheckedAt := Some(checkedAt))];
      match answer {
        case ProbeFailed(error) => MarkUnhealthy(url, ProbeError(error), now);
        case Answered(status, ledger) =>
          health := health[url := health[url].(latestLedger := Some(ledger))];
          if status != "healthy" {
            MarkUnhealthy(url, BadStatus(status), now);
          } else if freshest - ledger > maxLedgerLag {
            MarkUnhealthy(url, Lagging(freshest - ledger), now);
          } else {
            health := health[url := health[url].(healthy := true, reason := None)];
          }
      }
    }

    method RecordProbes(answers: string -> ProbeResult, checkedAt: int, failedAt: string -> int)
      requires Shaped(State())
      modifies this`health
      ensures health == ProbedHealth(old(State()), maxLedgerLag, answers, checkedAt, failedAt)
    {
      var freshest := Freshest(urls, answers);
      ghost var p, maxLag := State(), maxLedgerLag;
      FirstProbedEnds(p, maxLag, answers, checkedAt, failedAt);
      for i := 0 to |urls|
        invariant health == FirstProbed(p, maxLag, answers, checkedAt, failedAt, i)
      {
        FirstProbedNext(p, maxLag, answers, checkedAt, failedAt, i);
        RecordProbe(urls[i], answers(urls[i]), freshest, checkedAt, failedAt(urls[i]));
      }
    }

    method RunProbes(answers: string -> ProbeResult, checkedAt: int, failedAt: string -> int)
      requires Shaped(State())
      modifies this
      ensures State() == After(old(State()), maxLedgerLag, Probe(answers, checkedAt, failedAt))
    {
      RecordProbes(answers, checkedAt, failedAt);
      Reselect();
    }

    /** Any number of probe cycles and reports. */
    method Happen(events: seq<Event>)
      requires Shaped(State())
      modifies this
      ensures State() == AfterAll(old(State()), maxLedgerLag, events)
    {
      ghost var end := AfterAll(State(), maxLedgerLag, events);
      for i := 0 to |events|
        invariant Shaped(State()) && AfterAll(State(), maxLedgerLag, events[i..]) == end
      {
        ghost var before := State();
        match events[i] {
          case Report(url, reason, now) => ReportFailure(url, reason, now);
          case Probe(answers, checkedAt, failedAt) => RunProbes(answers, checkedAt, failedAt);
        }
        assert State() == After(before, maxLedgerLag, events[i]);
        assert events[i..][1..] == events[i + 1..];
      }
    }
  }

  /** The health of the pool when the first `n` endpoints have been updated. */
  function FirstProbed(p: Pool, maxLag: int, answers: string -> ProbeResult, checkedAt: int, failedAt: string -> int,
                       n: nat): Health
    requires Knows(p.urls, p.health) && n <= |p.urls|
  {
    var probed := ProbedHealth(p, maxLag, answers, checkedAt, failedAt);
    map u | u in p.urls :: if u in p.urls[..n] then probed[u] else p.health[u]
  }

  lemma FirstProbedEnds(p: Pool, maxLag: int, answers: string -> ProbeResult, checkedAt: int, failedAt: string -> int)
    requires Shaped(p)
    ensures FirstProbed(p, maxLag, answers, checkedAt, failedAt, 0) == p.health
    ensures FirstProbed(p, maxLag, answers, checkedAt, failedAt, |p.urls|)
         == ProbedHealth(p, maxLag, answers, checkedAt, failedAt)
  {
    assert p.urls[..|p.urls|] == p.urls;
  }

  lemma FirstProbedNext(p: Pool, maxLag: int, answers: string -> ProbeResult, checkedAt: int, failedAt: string -> int,
                        n: nat)
    requires Shaped(p) && n < |p.urls|
    ensures var u, health := p.urls[n], FirstProbed(p, maxLag, answers, checkedAt, failedAt, n);
      && u in health
      && FirstProbed(p, maxLag, answers, checkedAt, failedAt, n + 1)
         == health[u := Probed(health[u], answers(u), Freshest(p.urls, answers), maxLag, checkedAt, failedAt(u))]
  {
    assert p.urls[..n + 1] == p.urls[..n] + [p.urls[n]];
  }

  method CreateRpcPool(urls: seq<string>, maxLedgerLag: Option<int>) returns (r: Result<RpcPool, PoolError>)
    ensures urls == [] ==> r == Failure(NoUrls)
    ensures urls != [] ==>
      && r.Success? && fresh(r.value) && r.value.urls == Dedupe(urls)
      && Valid(r.value.State()) && r.value.selected == urls[0]
  {
    if urls == [] { return Failure(NoUrls); }
    var pool := new RpcPool(urls, maxLedgerLag);
    r := Success(pool);
  }

  lemma {:induction false} DedupeKeepsFirst(urls: seq<string>)
    requires urls != []
    ensures Dedupe(urls) != [] && Dedupe(urls)[0] == urls[0]
  {
    if |urls| > 1 {
      DedupeKeepsFirst(urls[..|urls| - 1]);
    } else {
      assert Dedupe(urls[..0]) == [];
    }
  }

  lemma DedupeFirst(urls: seq<string>)
    requires urls != []
    ensures Dedupe(urls) != [] && Dedupe(urls)[0] == urls[0]
    ensures Valid(Pool(Dedupe(urls), map u | u in Dedupe(urls) :: Fresh(), Dedupe(urls)[0]))
  {
    DedupeKeepsFirst(urls);
    AllHealthy(Dedupe(urls), map u | u in Dedupe(urls) :: Fresh());
  }

  lemma {:induction false} AllHealthy(urls: seq<string>, health: Health)
    requires Knows(urls, health) && forall u :: u in urls ==> health[u].healthy
    ensures With(urls, health, true) == urls && With(urls, health, false) == []
  {
    if urls != [] {
      AllHealthy(urls[1..], health);
      assert urls == [urls[0]] + urls[1..];
    }
  }

  // ---- The order of the candidates ----

  function IndexIn(urls: seq<string>, u: string): nat {
    if urls == [] || urls[0] == u then 0 else 1 + IndexIn(urls[1..], u)
  }

  ghost predicate Increasing(s: seq<string>, rank: string -> int) {
    forall i, j :: 0 <= i < j < |s| ==> rank(s[i]) < rank(s[j])
  }

  /** By time of failure, and by priority at the same time. */
  predicate Earlier(health: Health, rank: string -> int, a: string, b: string)
    requires a in health && b in health
  {
    FailureTime(health, a) < FailureTime(health, b)
    || (FailureTime(health, a) == FailureTime(health, b) && rank(a) < rank(b))
  }

  /** Healthy before unhealthy; the healthy by priority, the others by least recent failure. */
  predicate Prefers(health: Health, rank: string -> int, a: string, b: string)
    requires a in health && b in health
  {
    if health[a].healthy then !health[b].healthy || rank(a) < rank(b)
    else !health[b].healthy && Earlier(health, rank, a, b)
  }

  ghost predicate AllEarlier(health: Health, rank: string -> int, s: seq<string>)
    requires Knows(s, health)
  {
    forall i, j :: 0 <= i < j < |s| ==> Earlier(health, rank, s[i], s[j])
  }

  lemma {:induction false} WithIncreasing(s: seq<string>, health: Health, healthy: bool, rank: string -> int)
    requires Knows(s, health) && Increasing(s, rank)
    ensures Increasing(With(s, health, healthy), rank)
  {
    if s != [] {
      WithIncreasing(s[1..], health, healthy, rank);
      var rest := With(s[1..], health, healthy);
      forall j | 0 <= j < |rest| ensures rank(s[0]) < rank(rest[j]) {
        assert rest[j] in s[1..];
      }
    }
  }

  lemma {:induction false} InsertEarlier(u: string, s: seq<string>, health: Health, rank: string -> int)
    requires u in health && Knows(s, health) && AllEarlier(health, rank, s)
    requires forall v :: v in s ==> rank(u) < rank(v)
    ensures AllEarlier(health, rank, InsertByFailure(u, s, health))
  {
    if s != [] && FailureTime(health, u) > FailureTime(health, s[0]) {
      InsertEarlier(u, s[1..], health, rank);
      var rest := InsertByFailure(u, s[1..], health);
      forall j | 0 <= j < |rest| ensures Earlier(health, rank, s[0], rest[j]) {
        assert rest[j] in rest;
      }
    } else if s != [] {
      forall j | 0 <= j < |s| ensures Earlier(health, rank, u, s[j]) {
        assert s[j] in s;
      }
    }
  }

  lemma {:induction false} ByFailureEarlier(s: seq<string>, health: Health, rank: string -> int)
    requires Knows(s, health) && Increasing(s, rank)
    ensures AllEarlier(health, rank, ByFailure(s, health))
  {
    if s != [] {
      ByFailureEarlier(s[1..], health, rank);
      InsertEarlier(s[0], ByFailure(s[1..], health), health, rank);
    }
  }

  lemma {:induction false} WithMultiset(urls: seq<string>, health: Health)
    requires Knows(urls, health)
    ensures multiset(With(urls, health, true)) + multiset(With(urls, health, false)) == multiset(urls)
  {
    if urls != [] {
      WithMultiset(urls[1..], health);
      assert urls == [urls[0]] + urls[1..];
    }
  }

  lemma {:induction false} RankIncreases(urls: seq<string>, i: nat)
    requires i < |urls| && Distinct(urls)
    ensures IndexIn(urls, urls[i]) == i
  {
    if i > 0 { RankIncreases(urls[1..], i - 1); }
  }

  function Rank(urls: seq<string>): string -> int {
    (u: string) => IndexIn(urls, u)
  }

  /**
   * The candidates are the configured endpoints, each once, healthy ones in
   * priority order and then the others by least recent failure.
   */
  lemma CandidatesAreRight(urls: seq<string>, health: Health)
    requires Knows(urls, health) && Distinct(urls)
    ensures multiset(Candidates(urls, health)) == multiset(urls)
    ensures Knows(Candidates(urls, health), health)
    ensures var c := Candidates(urls, health);
      forall i, j :: 0 <= i < j < |c| ==> Prefers(health, Rank(urls), c[i], c[j])
  {
    var rank := Rank(urls);
    forall i, j | 0 <= i < j < |urls| ensures rank(urls[i]) < rank(urls[j]) {
      RankIncreases(urls, i);
      RankIncreases(urls, j);
    }
    WithIncreasing(urls, health, true, rank);
    WithIncreasing(urls, health, false, rank);
    ByFailureEarlier(With(urls, health, false), health, rank);
    WithMultiset(urls, health);
    PartsPrefer(With(urls, health, true), ByFailure(With(urls, health, false), health), health, rank);
  }

  lemma PartsPrefer(healthy: seq<string>, others: seq<string>, health: Health, rank: string -> int)
    requires Knows(healthy, health) && Knows(others, health)
    requires forall u :: u in healthy ==> health[u].healthy
    requires forall u :: u in others ==> !health[u].healthy
    requires Increasing(healthy, rank) && AllEarlier(health, rank, others)
    ensures Knows(healthy + others, health)
    ensures var c := healthy + others;
      forall i, j :: 0 <= i < j < |c| ==> Prefers(health, rank, c[i], c[j])
  {
  }

  lemma SelectionStaysRight(p: Pool, maxLag: int, event: Event)
    requires Valid(p)
    ensures Valid(After(p, maxLag, event))
  {
    var next := After(p, maxLag, event);
    CandidatesNotEmpty(next.urls, next.health);
  }

  /** Whatever happens, the selected endpoint is the first candidate. */
  lemma {:induction false} SelectionIsRight(p: Pool, maxLag: int, events: seq<Event>)
    requires Valid(p)
    ensures Valid(AfterAll(p, maxLag, events))
    decreases |events|
  {
    if events != [] {
      SelectionStaysRight(p, maxLag, events[0]);
      SelectionIsRight(After(p, maxLag, events[0]), maxLag, events[1..]);
    }
  }

  /** And no endpoint is preferred to it. */
  lemma NothingIsPreferred(p: Pool, maxLag: int, events: seq<Event>, u: string)
    requires Valid(p) && u in p.urls
    ensures var after := AfterAll(p, maxLag, events);
      && after.selected in after.health && u in after.health
      && (u != after.selected ==> Prefers(after.health, Rank(p.urls), after.selected, u))
  {
    SelectionIsRight(p, maxLag, events);
    var after := AfterAll(p, maxLag, events);
    CandidatesAreRight(after.urls, after.health);
    var c := Candidates(after.urls, after.health);
    assert u in multiset(c);
    var i :| 0 <= i < |c| && c[i] == u;
  }

  // ---- Probes ----

  lemma {:induction false} FreshestBounds(urls: seq<string>, answers: string -> ProbeResult)
    ensures Freshest(urls, answers) >= 0
    ensures forall u :: u in urls && answers(u).Answered? ==> answers(u).latestLedger <= Freshest(urls, answers)
    ensures Freshest(urls, answers) > 0 ==>
      exists u :: u in urls && answers(u).Answered? && answers(u).latestLedger == Freshest(urls, answers)
  {
    if urls != [] {
      FreshestBounds(urls[1..], answers);
      if Freshest(urls, answers) == Freshest(urls[1..], answers) > 0 {
        var u :| u in urls[1..] && answers(u).Answered? && answers(u).latestLedger == Freshest(urls[1..], answers);
        assert u in urls;
      } else if Freshest(urls, answers) > 0 {
        assert urls[0] in urls;
      }
    }
  }

  /** After a probe cycle an endpoint is healthy exactly if it said so and no answer is too far ahead of its own. */
  lemma HealthyIffFresh(p: Pool, maxLag: int, answers: string -> ProbeResult, checkedAt: int, failedAt: string -> int,
                        u: string)
    requires Shaped(p) && u in p.urls && maxLag >= 0
    ensures After(p, maxLag, Probe(answers, checkedAt, failedAt)).health[u].healthy
       <==> && answers(u).Answered? && answers(u).status == "healthy"
            && answers(u).latestLedger + maxLag >= 0
            && forall v :: v in p.urls && answers(v).Answered? ==> answers(v).latestLedger - answers(u).latestLedger <= maxLag
  {
    FreshestBounds(p.urls, answers);
  }

  // ---- Failing over ----

  datatype CallResult<T> = Returned(value: T) | Threw(error: string, failover: bool)

  predicate FailsOver<T>(r: CallResult<T>) {
    r.Threw? && r.failover
  }

  /** What else happens to the pool while the k-th attempt is under way. */
  function During(meanwhile: seq<seq<Event>>, k: nat): seq<Event> {
    if k < |meanwhile| then meanwhile[k] else []
  }

  /** The pool after an attempt that failed over, with what else happened during it. */
  function AfterFailure(p: Pool, maxLag: int, url: string, error: string, now: int, during: seq<Event>): (r: Pool)
    requires Shaped(p)
    ensures Shaped(r) && r.urls == p.urls
  {
    After(AfterAll(p, maxLag, during), maxLag, Report(url, error, now))
  }

  /** The pool after the attempts from the k-th on, and what the last of them came to. */
  function Failover<T>(p: Pool, maxLag: int, candidates: seq<string>, k: nat, call: string -> CallResult<T>,
                       failedAt: string -> int, meanwhile: seq<seq<Event>>): (r: (Pool, CallResult<T>))
    requires Shaped(p) && k < |candidates|
    ensures Shaped(r.0) && r.0.urls == p.urls
    decreases |candidates| - k
  {
    var url := candidates[k];
    var result := call(url);
    if !FailsOver(result) then (AfterAll(p, maxLag, During(meanwhile, k)), result)
    else
      var next := AfterFailure(p, maxLag, url, result.error, failedAt(url), During(meanwhile, k));
      if k + 1 == |candidates| then (next, result)
      else Failover(next, maxLag, candidates, k + 1, call, failedAt, meanwhile)
  }

  /** The endpoints tried: the candidates up to the first whose call does not fail over. */
  function Tried<T>(candidates: seq<string>, call: string -> CallResult<T>): (r: seq<string>)
    ensures r <= candidates
  {
    if candidates == [] then []
    else if FailsOver(call(candidates[0])) then [candidates[0]] + Tried(candidates[1..], call)
    else [candidates[0]]
  }

  lemma {:induction false} TriedUpTo<T>(candidates: seq<string>, call: string -> CallResult<T>, k: nat)
    requires k < |candidates| && forall i :: 0 <= i < k ==> FailsOver(call(candidates[i]))
    requires !FailsOver(call(candidates[k])) || k + 1 == |candidates|
    ensures Tried(candidates, call) == candidates[..k + 1]
  {
    if k > 0 {
      TriedUpTo(candidates[1..], call, k - 1);
      assert candidates[..k + 1] == [candidates[0]] + candidates[1..][..k];
    }
  }

  function CandidatesOf(p: Pool): (r: seq<string>)
    requires Shaped(p)
    ensures r != []
  {
    CandidatesNotEmpty(p.urls, p.health);
    Candidates(p.urls, p.health)
  }

  lemma OneMore<A>(s: seq<A>, k: nat)
    requires k < |s|
    ensures s[..k] + [s[k]] == s[..k + 1]
  {
  }

  /**
   * The loop of `withRpcFailover` over the candidates it took; `meanwhile` is
   * what others do to the pool during each of its calls, and `called` are the
   * endpoints it called.
   */
  method TryEach<T>(pool: RpcPool, candidates: seq<string>, call: string -> CallResult<T>, failedAt: string -> int,
                    meanwhile: seq<seq<Event>>)
    returns (r: CallResult<T>, called: seq<string>)
    requires Shaped(pool.State()) && candidates != []
    modifies pool
    ensures (pool.State(), r) == Failover(old(pool.State()), pool.maxLedgerLag, candidates, 0, call, failedAt, meanwhile)
    ensures called == Tried(candidates, call)
  {
    ghost var maxLag, p := pool.maxLedgerLag, pool.State();
    ghost var whole := Failover(p, maxLag, candidates, 0, call, failedAt, meanwhile);
    called := [];
    var k := 0;
    while true
      invariant k < |candidates| && p == pool.State() && Shaped(p) && called == candidates[..k]
      invariant forall i :: 0 <= i < k ==> FailsOver(call(candidates[i]))
      invariant Failover(p, maxLag, candidates, k, call, failedAt, meanwhile) == whole
      decreases |candidates| - k
    {
      OneMore(candidates, k);
      var url := candidates[k];
      r := call(url);
      called := called + [url];
      pool.Happen(During(meanwhile, k));
      if !FailsOver(r) {
        TriedUpTo(candidates, call, k);
        return;
      }
      pool.ReportFailure(url, r.error, failedAt(url));
      p := AfterFailure(p, maxLag, url, r.error, failedAt(url), During(meanwhile, k));
      k := k + 1;
      if k == |candidates| {
        TriedUpTo(candidates, call, k - 1);
        return;
      }
    }
  }

  /** `withRpcFailover`, with whatever else happens to the pool during its calls. */
  method WithRpcFailover<T>(pool: RpcPool, call: string -> CallResult<T>, failedAt: string -> int,
                            meanwhile: seq<seq<Event>>)
    returns (r: CallResult<T>, called: seq<string>)
    requires Shaped(pool.State())
    modifies pool
    ensures (pool.State(), r)
         == Failover(old(pool.State()), pool.maxLedgerLag, CandidatesOf(old(pool.State())), 0, call, failedAt, meanwhile)
    ensures called == Tried(CandidatesOf(old(pool.State())), call)
  {
    r, called := TryEach(pool, CandidatesOf(pool.State()), call, failedAt, meanwhile);
  }

  lemma FailoverGoesOn<T>(p: Pool, maxLag: int, candidates: seq<string>, k: nat, call: string -> CallResult<T>,
                          failedAt: string -> int, meanwhile: seq<seq<Event>>)
    requires Shaped(p) && k + 1 < |candidates| && FailsOver(call(candidates[k]))
    ensures var url := candidates[k];
      var next := AfterFailure(p, maxLag, url, call(url).error, failedAt(url), During(meanwhile, k));
      Failover(p, maxLag, candidates, k, call, failedAt, meanwhile)
      == Failover(next, maxLag, candidates, k + 1, call, failedAt, meanwhile)
  {
  }

  lemma FailoverStops<T>(p: Pool, maxLag: int, candidates: seq<string>, k: nat, call: string -> CallResult<T>,
                         failedAt: string -> int, meanwhile: seq<seq<Event>>)
    requires Shaped(p) && k < |candidates| && (!FailsOver(call(candidates[k])) || k + 1 == |candidates|)
    ensures Failover(p, maxLag, candidates, k, call, failedAt, meanwhile).1 == call(candidates[k])
  {
  }

  /**
   * Whatever else happens to the pool meanwhile, each endpoint is called at
   * most once, and the result is that of the first call in the order of the
   * candidates that does not fail over, or else of the last.
   */
  lemma {:induction false} FirstInOrder<T>(p: Pool, maxLag: int, candidates: seq<string>, k: nat, call: string -> CallResult<T>,
                                           failedAt: string -> int, meanwhile: seq<seq<Event>>, n: nat)
    requires Shaped(p) && k <= n < |candidates|
    requires forall i :: k <= i < n ==> FailsOver(call(candidates[i]))
    requires !FailsOver(call(candidates[n])) || n + 1 == |candidates|
    ensures Failover(p, maxLag, candidates, k, call, failedAt, meanwhile).1 == call(candidates[n])
    decreases n - k
  {
    if k < n {
      var url := candidates[k];
      var next := AfterFailure(p, maxLag, url, call(url).error, failedAt(url), During(meanwhile, k));
      assert FailsOver(call(candidates[k]));
      FailoverGoesOn(p, maxLag, candidates, k, call, failedAt, meanwhile);
      FirstInOrder(next, maxLag, candidates, k + 1, call, failedAt, meanwhile, n);
    } else {
      FailoverStops(p, maxLag, candidates, n, call, failedAt, meanwhile);
    }
  }

  ghost predicate NoProbe(events: seq<Event>) {
    forall i :: 0 <= i < |events| ==> events[i].Report?
  }

  lemma ReportDemotes(p: Pool, maxLag: int, report: Event, u: string)
    requires Shaped(p) && report.Report? && u in p.urls
    requires report.url == u || !p.health[u].healthy
    ensures !After(p, maxLag, report).health[u].healthy
  {
  }

  lemma {:induction false} ReportsKeepUnhealthy(p: Pool, maxLag: int, events: seq<Event>, u: string)
    requires Shaped(p) && NoProbe(events) && u in p.urls && !p.health[u].healthy
    ensures !AfterAll(p, maxLag, events).health[u].healthy
    decreases |events|
  {
    if events != [] {
      ReportDemotes(p, maxLag, events[0], u);
      ReportsKeepUnhealthy(After(p, maxLag, events[0]), maxLag, events[1..], u);
    }
  }

  lemma FailureDemotes(p: Pool, maxLag: int, url: string, error: string, now: int, during: seq<Event>, u: string)
    requires Shaped(p) && NoProbe(during) && u in p.urls && (url == u || !p.health[u].healthy)
    ensures !AfterFailure(p, maxLag, url, error, now, during).health[u].healthy
  {
    if !p.health[u].healthy { ReportsKeepUnhealthy(p, maxLag, during, u); }
    ReportDemotes(AfterAll(p, maxLag, during), maxLag, Report(url, error, now), u);
  }

  ghost predicate NoProbes(meanwhile: seq<seq<Event>>) {
    forall k :: 0 <= k < |meanwhile| ==> NoProbe(meanwhile[k])
  }

  /** If every call fails over and no probe intervenes, those still to try and those unhealthy are unhealthy in the end. */
  lemma {:induction false} AllFailedAllUnhealthy<T>(p: Pool, maxLag: int, candidates: seq<string>, k: nat,
                                                    call: string -> CallResult<T>, failedAt: string -> int,
                                                    meanwhile: seq<seq<Event>>, u: string)
    requires Shaped(p) && k < |candidates| && u in p.urls && NoProbes(meanwhile)
    requires forall i :: 0 <= i < |candidates| ==> FailsOver(call(candidates[i]))
    requires u in candidates[k..] || !p.health[u].healthy
    ensures !Failover(p, maxLag, candidates, k, call, failedAt, meanwhile).0.health[u].healthy
    decreases |candidates| - k
  {
    var url := candidates[k];
    assert candidates[k..] == [url] + candidates[k + 1..];
    var next := AfterFailure(p, maxLag, url, call(url).error, failedAt(url), During(meanwhile, k));
    if url == u || !p.health[u].healthy {
      FailureDemotes(p, maxLag, url, call(url).error, failedAt(url), During(meanwhile, k), u);
    }
    if k + 1 < |candidates| {
      AllFailedAllUnhealthy(next, maxLag, candidates, k + 1, call, failedAt, meanwhile, u);
    }
  }

  lemma CandidatesCover(p: Pool, u: string)
    requires Shaped(p)
    ensures u in Candidates(p.urls, p.health) <==> u in p.urls
  {
  }

  lemma {:induction false} TriedAll<T>(candidates: seq<string>, call: string -> CallResult<T>)
    requires forall v :: v in candidates ==> FailsOver(call(v))
    ensures Tried(candidates, call) == candidates
  {
    if candidates != [] {
      TriedAll(candidates[1..], call);
      assert candidates == [candidates[0]] + candidates[1..];
    }
  }

  lemma CandidatesPermute(urls: seq<string>, health: Health)
    requires Knows(urls, health)
    ensures multiset(Candidates(urls, health)) == multiset(urls)
  {
    WithMultiset(urls, health);
  }

  /** Then every endpoint has been called, once. */
  lemma EveryEndpointTried<T>(p: Pool, call: string -> CallResult<T>)
    requires Shaped(p) && forall v :: v in p.urls ==> FailsOver(call(v))
    ensures multiset(Tried(Candidates(p.urls, p.health), call)) == multiset(p.urls)
  {
    CandidatesPermute(p.urls, p.health);
    TriedAll(Candidates(p.urls, p.health), call);
  }

  /** And, unless a probe intervened, left unhealthy. */
  lemma ExhaustedPoolIsUnhealthy<T>(p: Pool, maxLag: int, call: string -> CallResult<T>, failedAt: string -> int,
                                    meanwhile: seq<seq<Event>>, u: string)
    requires Shaped(p) && u in p.urls && NoProbes(meanwhile)
    requires forall v :: v in p.urls ==> FailsOver(call(v))
    ensures Candidates(p.urls, p.health) != []
    ensures !Failover(p, maxLag, Candidates(p.urls, p.health), 0, call, failedAt, meanwhile).0.health[u].healthy
  {
    var candidates := Candidates(p.urls, p.health);
    CandidatesNotEmpty(p.urls, p.health);
    forall i | 0 <= i < |candidates| ensures FailsOver(call(candidates[i])) {
      CandidatesCover(p, candidates[i]);
    }
    CandidatesCover(p, u);
    assert candidates[0..] == candidates;
    AllFailedAllUnhealthy(p, maxLag, candidates, 0, call, failedAt, meanwhile, u);
  }

  // ---- What failures leave behind ----

  /** When `u` was last reported among these events, which are reports. */
  function LastReport(events: seq<Event>, u: string): Option<int> {
    if events == [] then None
    else
      var last := events[|events| - 1];
      if last.Report? && last.url == u then Some(last.now) else LastReport(events[..|events| - 1], u)
  }

  lemma {:induction false} AfterOneMore(p: Pool, maxLag: int, events: seq<Event>, last: Event)
    requires Shaped(p)
    ensures AfterAll(p, maxLag, events + [last]) == After(AfterAll(p, maxLag, events), maxLag, last)
    decreases |events|
  {
    var all := events + [last];
    if events == [] {
      assert all == [last] && all[1..] == [];
    } else {
      assert all[0] == events[0] && all[1..] == events[1..] + [last];
      AfterOneMore(After(p, maxLag, events[0]), maxLag, events[1..], last);
    }
  }

  /** Unhealthy since that report, or as it was if there was none. */
  ghost predicate StampedBy(was: Endpoint, e: Endpoint, at: Option<int>) {
    if at.None? then e == was else !e.healthy && e.lastFailureAt == at
  }

  lemma ReportStamps(was: Endpoint, at: Option<int>, p: Pool, maxLag: int, report: Event, u: string)
    requires Shaped(p) && report.Report? && u in p.urls && StampedBy(was, p.health[u], at)
    ensures StampedBy(was, After(p, maxLag, report).health[u], if report.url == u then Some(report.now) else at)
  {
  }

  lemma {:induction false} ReportsStamp(p: Pool, maxLag: int, events: seq<Event>, u: string)
    requires Shaped(p) && NoProbe(events) && u in p.urls
    ensures StampedBy(p.health[u], AfterAll(p, maxLag, events).health[u], LastReport(events, u))
  {
    if events != [] {
      var earlier, last := events[..|events| - 1], events[|events| - 1];
      ReportsStamp(p, maxLag, earlier, u);
      assert events == earlier + [last];
      AfterOneMore(p, maxLag, earlier, last);
      ReportStamps(p.health[u], LastReport(earlier, u), AfterAll(p, maxLag, earlier), maxLag, last, u);
    }
  }

  /**
   * After any reports, an endpoint that was never reported stands before one
   * that was if it is healthy, and of two that were the one with the earlier
   * last report stands first.
   */
  lemma ReportedInOrder(p: Pool, maxLag: int, events: seq<Event>, i: nat, j: nat)
    requires Shaped(p) && NoProbe(events)
    requires i < j < |CandidatesOf(AfterAll(p, maxLag, events))|
    ensures var candidates := CandidatesOf(AfterAll(p, maxLag, events));
      var u, v := candidates[i], candidates[j];
      && u in p.urls && v in p.urls
      && (LastReport(events, u).Some? ==> !p.health[v].healthy || LastReport(events, v).Some?)
      && (LastReport(events, u).Some? && LastReport(events, v).Some? ==>
            LastReport(events, u).value <= LastReport(events, v).value)
  {
    var after := AfterAll(p, maxLag, events);
    var candidates := CandidatesOf(after);
    CandidatesAreRight(after.urls, after.health);
    CandidatesCover(after, candidates[i]);
    CandidatesCover(after, candidates[j]);
    ReportsStamp(p, maxLag, events, candidates[i]);
    ReportsStamp(p, maxLag, events, candidates[j]);
  }

  /** A probe cycle stamps the endpoints that it finds unhealthy, and leaves the time of the last failure of the others. */
  lemma ProbeStamps(p: Pool, maxLag: int, answers: string -> ProbeResult, checkedAt: int, failedAt: string -> int, u: string)
    requires Shaped(p) && u in p.urls
    ensures var e := After(p, maxLag, Probe(answers, checkedAt, failedAt)).health[u];
      && e.lastCheckedAt == Some(checkedAt)
      && e.lastFailureAt == (if e.healthy then p.health[u].lastFailureAt else Some(failedAt(u)))
      && e.latestLedger == (if answers(u).Answered? then Some(answers(u).latestLedger) else p.health[u].latestLedger)
  {
    ProbedStamps(p.health[u], answers(u), Freshest(p.urls, answers), maxLag, checkedAt, failedAt(u));
    assert ProbedHealth(p, maxLag, answers, checkedAt, failedAt)[u]
        == Probed(p.health[u], answers(u), Freshest(p.urls, answers), maxLag, checkedAt, failedAt(u));
  }

  lemma ProbedStamps(e: Endpoint, answer: ProbeResult, freshest: int, maxLag: int, checkedAt: int, now: int)
    ensures var probed := Probed(e, answer, freshest, maxLag, checkedAt, now);
      && probed.lastCheckedAt == Some(checkedAt)
      && probed.lastFailureAt == (if probed.healthy then e.lastFailureAt else Some(now))
      && probed.latestLedger == (if answer.Answered? then Some(answer.latestLedger) else e.latestLedger)
  {
  }
}
