/** The in-memory dead-letter store (services/policy-service/src/dlq-store.ts). */
module DeadLetters {
  import opened Wrappers
  import opened OrderedMap

  type Time = nat

  datatype Payload = Payload(wallet: string, network: string, policyId: string, terminal: bool)

  /** What a record says of the failed job; nothing changes it later. */
  datatype Core = Core(
    originalJobId: string, policyId: string, payload: Payload, lastError: string, failureCount: nat,
    firstFailedAt: Time, lastFailedAt: Time)

  datatype Letter = Letter(
    id: string, core: Core, archived: bool, requeueCount: nat, requeueInProgress: bool,
    lastRequeuedAt: Option<Time>, lastRequeuedBy: Option<string>, createdAt: Time, updatedAt: Time)

  /** The fields an administrator may set; absent ones stay. */
  datatype Updates = Updates(
    archived: Option<bool>, requeueCount: Option<nat>, requeueInProgress: Option<bool>,
    lastRequeuedAt: Option<Time>, lastRequeuedBy: Option<string>)

  datatype AuditKind = Move | Requeue | RequeueFailed | Archived

  datatype AuditEvent = AuditEvent(letterId: string, kind: AuditKind, retryCount: nat, createdAt: Time)

  datatype StoreError = NotFound

  type Letters = Entries<string, Letter>

  function NewLetter(id: string, core: Core, now: Time): Letter {
    Letter(id, core, false, 0, false, None, None, now, now)
  }

  function Updated(letter: Letter, u: Updates, now: Time): Letter {
    letter.(
      archived := GetOr(u.archived, letter.archived),
      requeueCount := GetOr(u.requeueCount, letter.requeueCount),
      requeueInProgress := GetOr(u.requeueInProgress, letter.requeueInProgress),
      lastRequeuedAt := if u.lastRequeuedAt.Some? then u.lastRequeuedAt else letter.lastRequeuedAt,
      lastRequeuedBy := if u.lastRequeuedBy.Some? then u.lastRequeuedBy else letter.lastRequeuedBy,
      updatedAt := now)
  }

  function Depth(letters: Letters): nat {
    if letters == [] then 0 else (if letters[0].1.archived then 0 else 1) + Depth(letters[1..])
  }

  function FailuresOf(core: Core, jobId: string): seq<nat> {
    if core.originalJobId == jobId then [core.failureCount] else []
  }

  /** The failure counts of the letters of a job. */
  function FailuresFor(letters: Letters, jobId: string): seq<nat> {
    if letters == [] then [] else FailuresOf(letters[0].1.core, jobId) + FailuresFor(letters[1..], jobId)
  }

  class MemoryDlqStore {
    var records: Letters
    var auditLog: seq<AuditEvent>

    constructor ()
      ensures records == [] && auditLog == []
    {
      records := [];
      auditLog := [];
    }

    /** `id` is the one that was generated. */
    method Insert(id: string, core: Core, now: Time) returns (letter: Letter)
      modifies this
      ensures letter == NewLetter(id, core, now)
      ensures records == Put(old(records), id, letter) && auditLog == old(auditLog)
    {
      letter := NewLetter(id, core, now);
      records := Put(records, id, letter);
    }

    method Find(id: string, includeArchived: bool) returns (r: Option<Letter>)
      ensures r.Some? ==> Get(records, id) == r && (r.value.archived ==> includeArchived)
      ensures r.None? ==> Get(records, id).None? || (Get(records, id).value.archived && !includeArchived)
    {
      r := Get(records, id);
      if r.Some? && r.value.archived && !includeArchived { r := None; }
    }

    method CountOpen() returns (depth: nat)
      ensures depth == Depth(records)
    {
      depth := 0;
      for i := 0 to |records|
        invariant depth + Depth(records[i..]) == Depth(records)
      {
        assert records[i..][0] == records[i] && records[i..][1..] == records[i + 1..];
        if !records[i].1.archived { depth := depth + 1; }
      }
    }

    method Update(id: string, u: Updates, now: Time) returns (r: Result<(), StoreError>)
      modifies this
      ensures auditLog == old(auditLog)
      ensures Get(old(records), id).None? ==> r == Failure(NotFound) && records == old(records)
      ensures Get(old(records), id).Some? ==>
        r == Success(()) && records == Put(old(records), id, Updated(Get(old(records), id).value, u, now))
    {
      var letter := Get(records, id);
      if letter.None? { return Failure(NotFound); }
      records := Put(records, id, Updated(letter.value, u, now));
      r := Success(());
    }

    method RecordAudit(event: AuditEvent)
      modifies this
      ensures auditLog == old(auditLog) + [event] && records == old(records)
    {
      auditLog := auditLog + [event];
    }
  }

  /** A fresh letter adds its failure count to those of its job. */
  lemma FailuresAfterInsert(letters: Letters, letter: Letter, jobId: string)
    requires !Has(letters, letter.id)
    ensures FailuresFor(Put(letters, letter.id, letter), jobId)
         == FailuresFor(letters, jobId) + FailuresOf(letter.core, jobId)
  {
    PutFresh(letters, letter.id, letter);
    FailuresAppend(letters, (letter.id, letter), jobId);
  }

  lemma {:induction false} FailuresAppend(letters: Letters, last: (string, Letter), jobId: string)
    ensures FailuresFor(letters + [last], jobId) == FailuresFor(letters, jobId) + FailuresOf(last.1.core, jobId)
  {
    if letters == [] {
      assert letters + [last] == [last];
    } else {
      assert (letters + [last])[1..] == letters[1..] + [last];
      FailuresAppend(letters[1..], last, jobId);
    }
  }

  /** An update keeps what the letters say of the failed jobs, and which letters there are. */
  lemma {:induction false} UpdateKeepsCores(letters: Letters, id: string, u: Updates, now: Time)
    requires Get(letters, id).Some?
    ensures var after := Put(letters, id, Updated(Get(letters, id).value, u, now));
      && |after| == |letters|
      && (forall i :: 0 <= i < |letters| ==> after[i].0 == letters[i].0 && after[i].1.core == letters[i].1.core)
      && (forall jobId :: FailuresFor(after, jobId) == FailuresFor(letters, jobId))
  {
    if letters[0].0 != id {
      UpdateKeepsCores(letters[1..], id, u, now);
    }
  }

  /** Archiving a letter takes exactly it out of the depth, and restoring it puts it back. */
  lemma {:induction false} DepthAfterUpdate(letters: Letters, id: string, u: Updates, now: Time)
    requires Get(letters, id).Some?
    ensures var before := Get(letters, id).value;
      Depth(Put(letters, id, Updated(before, u, now)))
      == Depth(letters) + (if before.archived then 1 else 0) - (if GetOr(u.archived, before.archived) then 1 else 0)
  {
    if letters[0].0 != id {
      DepthAfterUpdate(letters[1..], id, u, now);
    }
  }

  // ---- What the fields of a record become ----

  /** A new record is not archived and was never requeued; it keeps what it was given. */
  lemma NewLettersAreOpen(id: string, core: Core, now: Time)
    ensures var letter := NewLetter(id, core, now);
      && letter.id == id && letter.core == core && letter.createdAt == letter.updatedAt == now
      && !letter.archived && !letter.requeueInProgress && letter.requeueCount == 0
      && letter.lastRequeuedAt.None? && letter.lastRequeuedBy.None?
  {
  }

  /** So it makes the depth one more. */
  lemma DepthAfterInsert(letters: Letters, id: string, core: Core, now: Time)
    requires !Has(letters, id)
    ensures Depth(Put(letters, id, NewLetter(id, core, now))) == Depth(letters) + 1
  {
    PutFresh(letters, id, NewLetter(id, core, now));
    DepthAppend(letters, (id, NewLetter(id, core, now)));
  }

  lemma {:induction false} DepthAppend(letters: Letters, last: (string, Letter))
    ensures Depth(letters + [last]) == Depth(letters) + if last.1.archived then 0 else 1
  {
    if letters == [] {
      assert letters + [last] == [last];
    } else {
      assert (letters + [last])[1..] == letters[1..] + [last];
      DepthAppend(letters[1..], last);
    }
  }

  /** The positions of the records that are not archived. */
  function OpenPositions(letters: Letters): set<nat> {
    set i: nat | i < |letters| && !letters[i].1.archived
  }

  /** The depth is the number of records that are not archived. */
  lemma {:induction false} DepthCounts(letters: Letters)
    ensures Depth(letters) == |OpenPositions(letters)|
  {
    if letters != [] {
      var n := |letters| - 1;
      DepthCounts(letters[..n]);
      DepthAppend(letters[..n], letters[n]);
      assert letters == letters[..n] + [letters[n]];
      var earlier := OpenPositions(letters[..n]);
      assert OpenPositions(letters) == if letters[n].1.archived then earlier else earlier + {n};
    } else {
      assert OpenPositions(letters) == {};
    }
  }

  /** An update sets each field that is given, keeps each that is not, and stamps the record. */
  lemma UpdateSetsGiven(letter: Letter, u: Updates, now: Time)
    ensures var after := Updated(letter, u, now);
      && after.id == letter.id && after.core == letter.core && after.createdAt == letter.createdAt
      && after.updatedAt == now
      && (if u.archived.Some? then after.archived == u.archived.value else after.archived == letter.archived)
      && (if u.requeueCount.Some? then after.requeueCount == u.requeueCount.value
          else after.requeueCount == letter.requeueCount)
      && (if u.requeueInProgress.Some? then after.requeueInProgress == u.requeueInProgress.value
          else after.requeueInProgress == letter.requeueInProgress)
      && (if u.lastRequeuedAt.Some? then after.lastRequeuedAt == u.lastRequeuedAt
          else after.lastRequeuedAt == letter.lastRequeuedAt)
      && (if u.lastRequeuedBy.Some? then after.lastRequeuedBy == u.lastRequeuedBy
          else after.lastRequeuedBy == letter.lastRequeuedBy)
  {
  }
}
