/** Any number of workers on one job store, in any interleaving. */
module DeployWorkers {
  import opened Wrappers
  import opened OrderedMap
  import opened DeadLetters
  import opened DeployJobs

  /** `held` says which job each worker is on; `claims` counts how often each job was claimed. */
  datatype World = World(jobs: Jobs, letters: Letters, held: map<nat, string>, claims: map<string, nat>)

  datatype Step =
    | Add(job: Job)
    | Claim(worker: nat, now: Time)
    | Complete(worker: nat, now: Time)
    | Fail(worker: nat, error: DeployError, now: Time, letterId: string)
    | Administer(letterId: string, updates: Updates, now: Time)

  const NO_OPTIONS: Options := Options(None, None)

  predicate IsNew(w: World, job: Job) {
    Get(w.jobs, job.id).None? && job.status.Pending? && job.retryCount == 0
  }

  predicate Holds(w: World, worker: nat) {
    worker in w.held && Get(w.jobs, w.held[worker]).Some?
  }

  predicate CanClaim(w: World, worker: nat) {
    worker !in w.held && FirstPending(w.jobs).Some?
  }

  /** A new job and a new letter have an id not in use. A step that is not possible changes nothing. */
  function Next(limits: Limits, w: World, step: Step): World {
    match step
    case Add(job) =>
      if IsNew(w, job) then w.(jobs := Put(w.jobs, job.id, job), claims := w.claims[job.id := 0]) else w
    case Claim(worker, now) => if CanClaim(w, worker) then AfterClaim(w, worker, now) else w
    case Complete(worker, now) => if Holds(w, worker) then AfterComplete(w, worker, now) else w
    case Fail(worker, error, now, letterId) =>
      if Holds(w, worker) && Get(w.letters, letterId).None? then AfterFail(limits, w, worker, error, now, letterId) else w
    case Administer(letterId, updates, now) =>
      match Get(w.letters, letterId)
      case None => w
      case Some(letter) => w.(letters := Put(w.letters, letterId, Updated(letter, updates, now)))
  }

  function AfterClaim(w: World, worker: nat, now: Time): World
    requires CanClaim(w, worker)
  {
    var id := FirstPending(w.jobs).value;
    w.(jobs := Put(w.jobs, id, Claimed(Get(w.jobs, id).value, now)), held := w.held[worker := id],
       claims := w.claims[id := ClaimsOf(w, id) + 1])
  }

  function AfterComplete(w: World, worker: nat, now: Time): World
    requires Holds(w, worker)
  {
    var id := w.held[worker];
    w.(jobs := Put(w.jobs, id, Finished(Get(w.jobs, id).value, now)), held := w.held - {worker})
  }

  function AfterFail(limits: Limits, w: World, worker: nat, error: DeployError, now: Time, letterId: string): World
    requires Holds(w, worker)
  {
    var id := w.held[worker];
    var job := FailedOnce(limits, NO_OPTIONS, Get(w.jobs, id).value, error, now);
    w.(jobs := Put(w.jobs, id, job), held := w.held - {worker},
       letters := if job.status.Dead?
                  then Put(w.letters, letterId, NewLetter(letterId, LetterOf(job, error, now), now))
                  else w.letters)
  }

  function Run(limits: Limits, w: World, steps: seq<Step>): World
    decreases |steps|
  {
    if steps == [] then w else Run(limits, Next(limits, w, steps[0]), steps[1..])
  }

  // ---- The invariant ----

  function ClaimsOf(w: World, id: string): nat {
    if id in w.claims then w.claims[id] else 0
  }

  /** How often a job may be attempted: at least once. */
  function Bound(limits: Limits, job: Job): nat {
    var most := MaxAttemptsFor(limits, NO_OPTIONS, job);
    var least := if most.Some? && most.value < limits.dlqThreshold + 1 then most.value else limits.dlqThreshold + 1;
    if least < 1 then 1 else least
  }

  ghost predicate IsHeld(w: World, id: string) {
    exists worker :: worker in w.held && w.held[worker] == id
  }

  predicate Unfinished(job: Job) {
    job.status.Pending? || job.status.InProgress?
  }

  /** What is always so of one job, from its status. */
  predicate JobOk(limits: Limits, job: Job, id: string, claims: nat, failures: seq<nat>) {
    && job.id == id && !job.status.Failed?
    && claims == job.retryCount + (if job.status.InProgress? || job.status.Completed? then 1 else 0)
    && claims <= Bound(limits, job)
    && (Unfinished(job) ==> job.retryCount < Bound(limits, job))
    && failures == (if job.status.Dead? then [job.retryCount] else [])
  }

  predicate IdOk(limits: Limits, w: World, id: string) {
    match Get(w.jobs, id)
    case None => FailuresFor(w.letters, id) == []
    case Some(job) => JobOk(limits, job, id, ClaimsOf(w, id), FailuresFor(w.letters, id))
  }

  ghost predicate HeldOk(w: World) {
    && (forall a, b :: a in w.held && b in w.held && w.held[a] == w.held[b] ==> a == b)
    && (forall id :: IsHeld(w, id) <==> Get(w.jobs, id).Some? && Get(w.jobs, id).value.status.InProgress?)
  }

  ghost predicate Safe(limits: Limits, w: World) {
    DistinctKeys(w.jobs) && HeldOk(w) && forall id :: IdOk(limits, w, id)
  }

  // ---- Steps keep it ----

  lemma {:induction false} FirstPendingIsPending(jobs: Jobs)
    requires DistinctKeys(jobs) && FirstPending(jobs).Some?
    ensures Get(jobs, FirstPending(jobs).value).value.status.Pending?
  {
    if !jobs[0].1.status.Pending? {
      FirstPendingIsPending(jobs[1..]);
      var i :| 0 <= i < |jobs[1..]| && jobs[1..][i].0 == FirstPending(jobs).value;
      assert jobs[i + 1].0 != jobs[0].0;
    }
  }

  /** Only the job that was set needs looking at. */
  lemma OthersStayOk(limits: Limits, w: World, next: World, id: string, job: Job)
    requires DistinctKeys(w.jobs) && next.jobs == Put(w.jobs, id, job) && IdOk(limits, next, id)
    requires forall other :: IdOk(limits, w, other)
    requires forall other :: other != id ==>
      ClaimsOf(next, other) == ClaimsOf(w, other) && FailuresFor(next.letters, other) == FailuresFor(w.letters, other)
    ensures DistinctKeys(next.jobs) && forall other :: IdOk(limits, next, other)
  {
    PutDistinct(w.jobs, id, job);
    forall other ensures IdOk(limits, next, other) {
      GetPut(w.jobs, id, job, other);
      assert IdOk(limits, w, other);
    }
  }

  lemma ClaimIsSafe(limits: Limits, w: World, worker: nat, now: Time)
    requires Safe(limits, w) && CanClaim(w, worker)
    ensures Safe(limits, AfterClaim(w, worker, now))
  {
    var next, id := AfterClaim(w, worker, now), FirstPending(w.jobs).value;
    var job := Claimed(Get(w.jobs, id).value, now);
    FirstPendingIsPending(w.jobs);
    assert IdOk(limits, w, id) && !IsHeld(w, id);
    GetPut(w.jobs, id, job, id);
    OthersStayOk(limits, w, next, id, job);
    forall other ensures IsHeld(next, other) <==> Get(next.jobs, other).Some? && Get(next.jobs, other).value.status.InProgress? {
      GetPut(w.jobs, id, job, other);
      HeldAfterClaim(w, worker, id, next, other);
    }
  }

  lemma HeldAfterClaim(w: World, worker: nat, id: string, next: World, other: string)
    requires worker !in w.held && next.held == w.held[worker := id]
    ensures IsHeld(next, other) <==> other == id || IsHeld(w, other)
  {
    assert next.held[worker] == id;
    if IsHeld(w, other) {
      var k :| k in w.held && w.held[k] == other;
      assert next.held[k] == other;
    }
  }

  /** A worker lets go of its job: no one else has it. */
  lemma HeldAfterRelease(w: World, worker: nat, next: World, other: string)
    requires HeldOk(w) && worker in w.held && next.held == w.held - {worker}
    ensures IsHeld(next, other) <==> other != w.held[worker] && IsHeld(w, other)
  {
    if other != w.held[worker] && IsHeld(w, other) {
      var k :| k in w.held && w.held[k] == other;
      assert k in next.held && next.held[k] == other;
    }
  }

  lemma ReleaseKeepsHeld(w: World, worker: nat, job: Job, next: World)
    requires HeldOk(w) && Holds(w, worker) && next.held == w.held - {worker}
    requires next.jobs == Put(w.jobs, w.held[worker], job) && !job.status.InProgress?
    ensures HeldOk(next)
  {
    forall other ensures IsHeld(next, other) <==> Get(next.jobs, other).Some? && Get(next.jobs, other).value.status.InProgress? {
      GetPut(w.jobs, w.held[worker], job, other);
      HeldAfterRelease(w, worker, next, other);
    }
  }

  lemma HeldIsInProgress(w: World, worker: nat)
    requires HeldOk(w) && Holds(w, worker)
    ensures Get(w.jobs, w.held[worker]).value.status.InProgress?
  {
    assert IsHeld(w, w.held[worker]);
  }

  lemma CompleteIsSafe(limits: Limits, w: World, worker: nat, now: Time)
    requires Safe(limits, w) && Holds(w, worker)
    ensures Safe(limits, AfterComplete(w, worker, now))
  {
    var next, id := AfterComplete(w, worker, now), w.held[worker];
    var job := Finished(Get(w.jobs, id).value, now);
    HeldIsInProgress(w, worker);
    ReleaseKeepsHeld(w, worker, job, next);
    assert IdOk(limits, w, id);
    GetPut(w.jobs, id, job, id);
    OthersStayOk(limits, w, next, id, job);
  }

  lemma FailedJobOk(limits: Limits, job: Job, id: string, claims: nat, error: DeployError, now: Time)
    requires JobOk(limits, job, id, claims, []) && job.status.InProgress?
    ensures var failed := FailedOnce(limits, NO_OPTIONS, job, error, now);
      JobOk(limits, failed, id, claims, if failed.status.Dead? then [failed.retryCount] else [])
  {
  }

  lemma FailIsSafe(limits: Limits, w: World, worker: nat, error: DeployError, now: Time, letterId: string)
    requires Safe(limits, w) && Holds(w, worker) && Get(w.letters, letterId).None?
    ensures Safe(limits, AfterFail(limits, w, worker, error, now, letterId))
  {
    var next, id := AfterFail(limits, w, worker, error, now, letterId), w.held[worker];
    var job := Get(w.jobs, id).value;
    var failed := FailedOnce(limits, NO_OPTIONS, job, error, now);
    HeldIsInProgress(w, worker);
    ReleaseKeepsHeld(w, worker, failed, next);
    assert IdOk(limits, w, id);
    FailedJobOk(limits, job, id, ClaimsOf(w, id), error, now);
    GetPut(w.jobs, id, failed, id);
    forall other ensures FailuresFor(next.letters, other)
                      == FailuresFor(w.letters, other) + (if other == id && failed.status.Dead? then [failed.retryCount] else [])
    {
      FailuresAfterInsert(w.letters, NewLetter(letterId, LetterOf(failed, error, now), now), other);
    }
    OthersStayOk(limits, w, next, id, failed);
  }

  lemma AddIsSafe(limits: Limits, w: World, job: Job)
    requires Safe(limits, w) && IsNew(w, job)
    ensures Safe(limits, Next(limits, w, Add(job)))
  {
    var next := Next(limits, w, Add(job));
    PutDistinct(w.jobs, job.id, job);
    forall other ensures IdOk(limits, next, other) {
      GetPut(w.jobs, job.id, job, other);
      assert IdOk(limits, w, other);
    }
    forall other ensures IsHeld(next, other) <==> Get(next.jobs, other).Some? && Get(next.jobs, other).value.status.InProgress? {
      GetPut(w.jobs, job.id, job, other);
      assert IsHeld(next, other) <==> IsHeld(w, other);
    }
  }

  lemma SameFailures(limits: Limits, w: World, letters: Letters)
    requires Safe(limits, w) && forall id :: FailuresFor(letters, id) == FailuresFor(w.letters, id)
    ensures Safe(limits, w.(letters := letters))
  {
    var next := w.(letters := letters);
    forall id ensures IdOk(limits, next, id) {
      assert IdOk(limits, w, id);
    }
    forall id ensures IsHeld(next, id) <==> IsHeld(w, id) {
    }
  }

  lemma AdministerIsSafe(limits: Limits, w: World, letterId: string, updates: Updates, now: Time)
    requires Safe(limits, w) && Get(w.letters, letterId).Some?
    ensures Safe(limits, Next(limits, w, Administer(letterId, updates, now)))
  {
    UpdateKeepsCores(w.letters, letterId, updates, now);
    SameFailures(limits, w, Next(limits, w, Administer(letterId, updates, now)).letters);
  }

  lemma StepIsSafe(limits: Limits, w: World, step: Step)
    requires Safe(limits, w)
    ensures Safe(limits, Next(limits, w, step))
  {
    match step
    case Add(job) => if IsNew(w, job) { AddIsSafe(limits, w, job); }
    case Claim(worker, now) => if CanClaim(w, worker) { ClaimIsSafe(limits, w, worker, now); }
    case Complete(worker, now) => if Holds(w, worker) { CompleteIsSafe(limits, w, worker, now); }
    case Fail(worker, error, now, letterId) =>
      if Holds(w, worker) && Get(w.letters, letterId).None? { FailIsSafe(limits, w, worker, error, now, letterId); }
    case Administer(letterId, updates, now) =>
      if Get(w.letters, letterId).Some? { AdministerIsSafe(limits, w, letterId, updates, now); }
  }

  const START: World := World([], [], map[], map[])

  lemma {:induction false} RunIsSafe(limits: Limits, w: World, steps: seq<Step>)
    requires Safe(limits, w)
    ensures Safe(limits, Run(limits, w, steps))
    decreases |steps|
  {
    if steps != [] {
      StepIsSafe(limits, w, steps[0]);
      RunIsSafe(limits, Next(limits, w, steps[0]), steps[1..]);
    }
  }

  lemma StartIsSafe(limits: Limits)
    ensures Safe(limits, START)
  {
  }

  /** In any interleaving, two workers are never on one job, and the jobs in progress are those someone is on. */
  lemma NoJobIsHeldTwice(limits: Limits, steps: seq<Step>, a: nat, b: nat)
    requires var w := Run(limits, START, steps); a in w.held && b in w.held && w.held[a] == w.held[b]
    ensures a == b
    ensures var w := Run(limits, START, steps);
      Get(w.jobs, w.held[a]).Some? && Get(w.jobs, w.held[a]).value.status.InProgress?
  {
    StartIsSafe(limits);
    RunIsSafe(limits, START, steps);
    assert IsHeld(Run(limits, START, steps), Run(limits, START, steps).held[a]);
  }

  /** A job has one letter, with its final retry count, if it is dead, and none otherwise. */
  lemma OneLetterPerDeadJob(limits: Limits, steps: seq<Step>, id: string)
    requires Get(Run(limits, START, steps).jobs, id).Some?
    ensures var w := Run(limits, START, steps);
      var job := Get(w.jobs, id).value;
      FailuresFor(w.letters, id) == if job.status.Dead? then [job.retryCount] else []
  {
    StartIsSafe(limits);
    RunIsSafe(limits, START, steps);
    assert IdOk(limits, Run(limits, START, steps), id);
  }

  /** No job is claimed more often than its limits allow. */
  lemma ClaimsAreBounded(limits: Limits, steps: seq<Step>, id: string)
    requires Get(Run(limits, START, steps).jobs, id).Some?
    ensures var w := Run(limits, START, steps);
      ClaimsOf(w, id) <= Bound(limits, Get(w.jobs, id).value)
  {
    StartIsSafe(limits);
    RunIsSafe(limits, START, steps);
    assert IdOk(limits, Run(limits, START, steps), id);
  }

  /** And a job is given up exactly at a terminal error, or when it has failed as often as they allow. */
  lemma GivenUpAtTheBound(limits: Limits, steps: seq<Step>, id: string, error: DeployError, now: Time)
    requires Get(Run(limits, START, steps).jobs, id).Some?
    requires Get(Run(limits, START, steps).jobs, id).value.status.InProgress?
    ensures var job := Get(Run(limits, START, steps).jobs, id).value;
      FailedOnce(limits, NO_OPTIONS, job, error, now).status.Dead? <==>
        error.terminal || job.retryCount + 1 == Bound(limits, job)
  {
    StartIsSafe(limits);
    RunIsSafe(limits, START, steps);
    assert IdOk(limits, Run(limits, START, steps), id);
  }

  // ---- Draining ends ----

  /** How many more steps a job can take. */
  function Weight(limits: Limits, job: Job): nat {
    var left := if job.retryCount < Bound(limits, job) then Bound(limits, job) - job.retryCount else 0;
    if job.status.Pending? then 2 * left
    else if job.status.InProgress? && left > 0 then 2 * left - 1
    else 0
  }

  function Work(limits: Limits, jobs: Jobs): nat {
    if jobs == [] then 0 else Weight(limits, jobs[0].1) + Work(limits, jobs[1..])
  }

  lemma {:induction false} WorkPut(limits: Limits, jobs: Jobs, id: string, job: Job)
    requires Get(jobs, id).Some?
    ensures Work(limits, Put(jobs, id, job)) == Work(limits, jobs) - Weight(limits, Get(jobs, id).value) + Weight(limits, job)
  {
    if jobs[0].0 != id { WorkPut(limits, jobs[1..], id, job); }
  }

  /** A step by which a worker gets somewhere. */
  predicate Progresses(w: World, step: Step) {
    match step
    case Claim(worker, _) => CanClaim(w, worker)
    case Complete(worker, _) => Holds(w, worker)
    case Fail(worker, _, _, letterId) => Holds(w, worker) && Get(w.letters, letterId).None?
    case Add(_) => false
    case Administer(_, _, _) => false
  }

  lemma ClaimUsesWork(limits: Limits, w: World, worker: nat, now: Time)
    requires Safe(limits, w) && CanClaim(w, worker)
    ensures Work(limits, AfterClaim(w, worker, now).jobs) < Work(limits, w.jobs)
  {
    var id := FirstPending(w.jobs).value;
    FirstPendingIsPending(w.jobs);
    assert IdOk(limits, w, id);
    WorkPut(limits, w.jobs, id, Claimed(Get(w.jobs, id).value, now));
  }

  /** A job that was in progress and is no longer, or not as many times again, is less work. */
  lemma ReleaseUsesWork(limits: Limits, w: World, worker: nat, job: Job)
    requires Safe(limits, w) && Holds(w, worker)
    requires Weight(limits, job) < Weight(limits, Get(w.jobs, w.held[worker]).value)
    ensures Work(limits, Put(w.jobs, w.held[worker], job)) < Work(limits, w.jobs)
  {
    WorkPut(limits, w.jobs, w.held[worker], job);
  }

  lemma HeldHasWeight(limits: Limits, w: World, worker: nat)
    requires Safe(limits, w) && Holds(w, worker)
    ensures var job := Get(w.jobs, w.held[worker]).value;
      job.status.InProgress? && job.retryCount < Bound(limits, job)
  {
    HeldIsInProgress(w, worker);
    assert IdOk(limits, w, w.held[worker]);
  }

  lemma ProgressUsesWork(limits: Limits, w: World, step: Step)
    requires Safe(limits, w) && Progresses(w, step)
    ensures Work(limits, Next(limits, w, step).jobs) < Work(limits, w.jobs)
  {
    match step
    case Claim(worker, now) => ClaimUsesWork(limits, w, worker, now);
    case Complete(worker, now) =>
      HeldHasWeight(limits, w, worker);
      ReleaseUsesWork(limits, w, worker, Finished(Get(w.jobs, w.held[worker]).value, now));
    case Fail(worker, error, now, letterId) =>
      HeldHasWeight(limits, w, worker);
      ReleaseUsesWork(limits, w, worker, FailedOnce(limits, NO_OPTIONS, Get(w.jobs, w.held[worker]).value, error, now));
  }

  function Progress(limits: Limits, w: World, steps: seq<Step>): nat
    decreases |steps|
  {
    if steps == [] then 0
    else (if Progresses(w, steps[0]) then 1 else 0) + Progress(limits, Next(limits, w, steps[0]), steps[1..])
  }

  /** Without new jobs, workers can only get so far, in any interleaving. */
  lemma {:induction false} DrainingEnds(limits: Limits, w: World, steps: seq<Step>)
    requires Safe(limits, w) && forall i :: 0 <= i < |steps| ==> !steps[i].Add?
    ensures Progress(limits, w, steps) + Work(limits, Run(limits, w, steps).jobs) <= Work(limits, w.jobs)
    decreases |steps|
  {
    if steps != [] {
      StepIsSafe(limits, w, steps[0]);
      if Progresses(w, steps[0]) {
        ProgressUsesWork(limits, w, steps[0]);
      } else {
        assert Next(limits, w, steps[0]).jobs == w.jobs;
      }
      DrainingEnds(limits, Next(limits, w, steps[0]), steps[1..]);
    }
  }

  /** When no worker can get any further, every job is completed or dead. */
  lemma IdleMeansFinished(limits: Limits, w: World, id: string, worker: nat)
    requires Safe(limits, w) && w.held == map[] && !CanClaim(w, worker) && Get(w.jobs, id).Some?
    ensures Get(w.jobs, id).value.status.Completed? || Get(w.jobs, id).value.status.Dead?
  {
    var job := Get(w.jobs, id).value;
    assert IdOk(limits, w, id) && !IsHeld(w, id);
    var i :| 0 <= i < |w.jobs| && w.jobs[i] == (id, job);
  }
}
