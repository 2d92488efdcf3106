/**
 * Policy deployment jobs (services/policy-service/src/policy-deploy-worker.ts):
 * claim, complete, fail, retry, and give up into the dead-letter store.
 */
module DeployJobs {
  import opened Wrappers
  import opened OrderedMap
  import opened DeadLetters

  const DEFAULT_DLQ_THRESHOLD: int := 5

  datatype Status = Pending | InProgress | Completed | Failed | Dead

  datatype Job = Job(
    id: string, policyId: string, wallet: string, network: string, status: Status, retryCount: nat,
    maxAttempts: Option<int>, lastError: Option<string>, lastFailedAt: Option<Time>, firstFailedAt: Option<Time>,
    updatedAt: Time)

  /** An error as the store sees it: whether it is classed as terminal, and its redacted text. */
  datatype DeployError = DeployError(terminal: bool, summary: string)

  datatype Limits = Limits(maxAttempts: Option<int>, dlqThreshold: int)

  datatype Options = Options(maxAttempts: Option<int>, dlqThreshold: Option<int>)

  datatype JobError = JobNotFound

  type Jobs = Entries<string, Job>

  // ---- What one operation does ----

  /** The key of the first pending job. */
  function FirstPending(jobs: Jobs): (r: Option<string>)
    ensures r.Some? ==> Has(jobs, r.value)
    ensures r.None? ==> forall i :: 0 <= i < |jobs| ==> !jobs[i].1.status.Pending?
  {
    if jobs == [] then None
    else if jobs[0].1.status.Pending? then assert jobs[0].0 == jobs[0].0; Some(jobs[0].0)
    else
      var r := FirstPending(jobs[1..]);
      if r.Some? then
        var i :| 0 <= i < |jobs[1..]| && jobs[1..][i].0 == r.value;
        assert jobs[i + 1].0 == r.value;
        r
      else r
  }

  function Claimed(job: Job, now: Time): Job {
    job.(status := InProgress, updatedAt := now)
  }

  function Finished(job: Job, now: Time): Job {
    job.(status := Completed, updatedAt := now)
  }

  function MaxAttemptsFor(limits: Limits, options: Options, job: Job): Option<int> {
    if options.maxAttempts.Some? then options.maxAttempts
    else if job.maxAttempts.Some? then job.maxAttempts
    else limits.maxAttempts
  }

  /** Whether a job that has failed this many times is given up. */
  predicate GivesUp(limits: Limits, options: Options, job: Job, retryCount: nat, terminal: bool) {
    var most := MaxAttemptsFor(limits, options, job);
    || terminal
    || (most.Some? && retryCount >= most.value)
    || retryCount > GetOr(options.dlqThreshold, limits.dlqThreshold)
  }

  function FailedOnce(limits: Limits, options: Options, job: Job, error: DeployError, now: Time): Job {
    var dead := GivesUp(limits, options, job, job.retryCount + 1, error.terminal);
    job.(retryCount := job.retryCount + 1, lastError := Some(error.summary), lastFailedAt := Some(now),
         firstFailedAt := if job.firstFailedAt.Some? then job.firstFailedAt else Some(now),
         updatedAt := now, status := if dead then Dead else Pending)
  }

  function LetterOf(job: Job, error: DeployError, now: Time): Core {
    Core(job.id, job.policyId, Payload(job.wallet, job.network, job.policyId, error.terminal),
         error.summary, job.retryCount, GetOr(job.firstFailedAt, now), now)
  }

  class InMemoryDeployJobStore {
    var jobs: Jobs
    const limits: Limits

    constructor (maxAttempts: Option<int>, dlqThreshold: Option<int>)
      ensures jobs == [] && limits == Limits(maxAttempts, GetOr(dlqThreshold, 5))
    {
      jobs := [];
      limits := Limits(maxAttempts, GetOr(dlqThreshold, DEFAULT_DLQ_THRESHOLD));
    }

    method AddJob(job: Job)
      modifies this
      ensures jobs == Put(old(jobs), job.id, job)
    {
      jobs := Put(jobs, job.id, job);
    }

    method Claim(now: Time) returns (r: Option<Job>)
      modifies this
      ensures FirstPending(old(jobs)).None? ==> r.None? && jobs == old(jobs)
      ensures FirstPending(old(jobs)).Some? ==>
        var id := FirstPending(old(jobs)).value;
        r == Some(Claimed(Get(old(jobs), id).value, now)) && jobs == Put(old(jobs), id, r.value)
    {
      var id := FirstPending(jobs);
      if id.None? { return None; }
      r := Some(Claimed(Get(jobs, id.value).value, now));
      jobs := Put(jobs, id.value, r.value);
    }

    method MarkCompleted(id: string, now: Time) returns (r: Result<(), JobError>)
      modifies this
      ensures Get(old(jobs), id).None? ==> r == Failure(JobNotFound) && jobs == old(jobs)
      ensures Get(old(jobs), id).Some? ==>
        r == Success(()) && jobs == Put(old(jobs), id, Finished(Get(old(jobs), id).value, now))
    {
      var job := Get(jobs, id);
      if job.None? { return Failure(JobNotFound); }
      jobs := Put(jobs, id, Finished(job.value, now));
      r := Success(());
    }

    /** `letterId` is the id the dead-letter store generates when the job is given up. */
    method HandleFailure(id: string, error: DeployError, dlq: MemoryDlqStore, options: Options, now: Time,
                         letterId: string)
      returns (r: Result<(), JobError>)
      modifies this, dlq
      ensures Get(old(jobs), id).None? ==>
        r == Failure(JobNotFound) && jobs == old(jobs) && dlq.records == old(dlq.records) && dlq.auditLog == old(dlq.auditLog)
      ensures Get(old(jobs), id).Some? ==>
        && r == Success(())
        && var job := FailedOnce(limits, options, Get(old(jobs), id).value, error, now);
        && jobs == Put(old(jobs), id, job)
        && (job.status.Dead? ==>
              && dlq.records == Put(old(dlq.records), letterId, NewLetter(letterId, LetterOf(job, error, now), now))
              && dlq.auditLog == old(dlq.auditLog) + [AuditEvent(letterId, Move, job.retryCount, now)])
        && (!job.status.Dead? ==> dlq.records == old(dlq.records) && dlq.auditLog == old(dlq.auditLog))
    {
      var found := Get(jobs, id);
      if found.None? { return Failure(JobNotFound); }
      var job := found.value;
      job := job.(retryCount := job.retryCount + 1, lastError := Some(error.summary), lastFailedAt := Some(now));
      if job.firstFailedAt.None? { job := job.(firstFailedAt := Some(now)); }
      job := job.(updatedAt := now);
      var most := MaxAttemptsFor(limits, options, job);
      var exceedsMaxAttempts := most.Some? && job.retryCount >= most.value;
      var exceedsThreshold := job.retryCount > GetOr(options.dlqThreshold, limits.dlqThreshold);
      if error.terminal || exceedsMaxAttempts || exceedsThreshold {
        job := job.(status := Dead);
        var letter := dlq.Insert(letterId, LetterOf(job, error, now), now);
        dlq.RecordAudit(AuditEvent(letter.id, Move, job.retryCount, now));
      } else {
        job := job.(status := Pending);
      }
      jobs := Put(jobs, id, job);
      r := Success(());
    }
  }

  /**
   * One round of a worker: what the deployment of the claimed job comes to is
   * `deploy`; `None` is success.
   */
  method ProcessDeploymentJob(store: InMemoryDeployJobStore, dlq: MemoryDlqStore, deploy: Job -> Option<DeployError>,
                              claimedAt: Time, doneAt: Time, letterId: string)
    returns (processed: bool)
    requires DistinctKeys(store.jobs) && forall i :: 0 <= i < |store.jobs| ==> store.jobs[i].0 == store.jobs[i].1.id
    modifies store, dlq
    ensures processed == FirstPending(old(store.jobs)).Some?
    ensures !processed ==> store.jobs == old(store.jobs) && dlq.records == old(dlq.records)
    ensures processed ==>
      var id := FirstPending(old(store.jobs)).value;
      var job := Claimed(Get(old(store.jobs), id).value, claimedAt);
      var jobs := Put(old(store.jobs), id, job);
      var error := deploy(job);
      if error.None? then
        store.jobs == Put(jobs, id, Finished(job, doneAt)) && dlq.records == old(dlq.records)
      else
        var failed := FailedOnce(store.limits, Options(None, None), job, error.value, doneAt);
        && store.jobs == Put(jobs, id, failed)
        && dlq.records == (if failed.status.Dead?
                           then Put(old(dlq.records), letterId,
                                    NewLetter(letterId, LetterOf(failed, error.value, doneAt), doneAt))
                           else old(dlq.records))
  {
    var id := FirstPending(store.jobs);
    if id.Some? { KeyIsId(store.jobs, id.value); }
    ghost var jobs := store.jobs;
    var job := store.Claim(claimedAt);
    if job.None? { return false; }
    GetPut(jobs, id.value, job.value, id.value);
    var error := deploy(job.value);
    if error.None? {
      var r := store.MarkCompleted(job.value.id, doneAt);
    } else {
      var r := store.HandleFailure(job.value.id, error.value, dlq, Options(None, None), doneAt, letterId);
    }
    return true;
  }

  lemma {:induction false} KeyIsId(jobs: Jobs, id: string)
    requires Has(jobs, id) && forall i :: 0 <= i < |jobs| ==> jobs[i].0 == jobs[i].1.id
    ensures Get(jobs, id).value.id == id
  {
    var i :| 0 <= i < |jobs| && jobs[i] == (id, Get(jobs, id).value);
  }

  /**
   * Who sets the limits: the options of the call, else the job, else the store.
   * A failure kills the job when it is terminal, when it is the last attempt
   * allowed, or when it is one more than the dead-letter threshold.
   */
  lemma KilledIff(limits: Limits, options: Options, job: Job, error: DeployError, now: Time)
    ensures var failures, after := job.retryCount + 1, FailedOnce(limits, options, job, error, now);
      var most := if options.maxAttempts.Some? then options.maxAttempts
                  else if job.maxAttempts.Some? then job.maxAttempts else limits.maxAttempts;
      var threshold := if options.dlqThreshold.Some? then options.dlqThreshold.value else limits.dlqThreshold;
      && after.retryCount == failures && (after.status.Dead? || after.status.Pending?)
      && (after.status.Dead? <==> error.terminal || failures > threshold || (most.Some? && failures >= most.value))
  {
  }

  /**
   * What a failure records: the count, the last error and time, and the first
   * time once and for all; nothing else of the job but its status. The dead
   * letter of a job says the same.
   */
  lemma FailureIsRecorded(limits: Limits, options: Options, job: Job, error: DeployError, now: Time)
    ensures var after := FailedOnce(limits, options, job, error, now);
      && after == job.(retryCount := job.retryCount + 1, lastError := Some(error.summary), lastFailedAt := Some(now),
                       firstFailedAt := after.firstFailedAt, updatedAt := now, status := after.status)
      && after.firstFailedAt.Some?
      && (job.firstFailedAt.Some? ==> after.firstFailedAt == job.firstFailedAt)
      && (job.firstFailedAt.None? ==> after.firstFailedAt == Some(now))
      && LetterOf(after, error, now) ==
         Core(job.id, job.policyId, Payload(job.wallet, job.network, job.policyId, error.terminal), error.summary,
              job.retryCount + 1, after.firstFailedAt.value, now)
  {
  }
}
