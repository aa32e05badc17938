/**
 * The upload-job records of backend/src/services/job.service.ts: a table of
 * `UploadJob`s that the job service creates and then updates in place, one
 * `updateOne` per call, each filtered by the job's id. Job ids are handed
 * out by the store in creation order, which also stands for `createdAt`;
 * the clock that stamps `completed_at` is a parameter.
 */
module JobService {

  import opened Wrappers
  import opened IngestionTypes

  /** `JOB_STATUSES`. */
  datatype JobStatus = Pending | Running | Completed | Failed

  function StatusName(s: JobStatus): string {
    match s
    case Pending => "PENDING"
    case Running => "RUNNING"
    case Completed => "COMPLETED"
    case Failed => "FAILED"
  }

  predicate IsTerminal(s: JobStatus) {
    s == Completed || s == Failed
  }

  /** A job's id: its position in creation order. */
  type JobId = nat

  datatype UploadJob = UploadJob(
    id: JobId,
    entityType: EntityType,
    status: JobStatus,
    totalRows: int,
    processedRows: int,
    successCount: int,
    failureCount: int,
    rowErrors: seq<IngestionError>,
    createdBy: string,
    completedAt: Option<int>)

  /** The document `createJob` inserts. */
  function NewJob(id: JobId, entityType: EntityType, totalRows: int, createdBy: Option<string>): UploadJob {
    UploadJob(id, entityType, Pending, totalRows, 0, 0, 0, [], createdBy.GetOr("admin"), None)
  }

  // ----- the `$set` of each update, applied to the matching job -----

  /** `markJobRunning`: the filter also demands status PENDING. */
  function MarkedRunning(j: UploadJob): UploadJob {
    if j.status == Pending then j.(status := Running) else j
  }

  /** `markJobCompleted`, whatever the job's status was. */
  function MarkedCompleted(j: UploadJob, successCount: int, failureCount: int, errors: seq<IngestionError>, now: int): UploadJob {
    j.(status := Completed, successCount := successCount, failureCount := failureCount, rowErrors := errors,
       processedRows := successCount + failureCount, completedAt := Some(now))
  }

  /** The single error a failed job carries. */
  function FailureError(message: string): IngestionError {
    IngestionError(0, "", InsertFailed, message)
  }

  /** `markJobFailed`, whatever the job's status was; the counters are left as they were. */
  function MarkedFailed(j: UploadJob, message: string, now: int): UploadJob {
    j.(status := Failed, completedAt := Some(now), rowErrors := [FailureError(message)])
  }

  /** `updateJobProgress`: only `processed_rows`, with no guard on status or on going backwards. */
  function WithProgress(j: UploadJob, processedRows: int): UploadJob {
    j.(processedRows := processedRows)
  }

  /** `updateOne({ _id: id }, …)`: the job with that id, if any, replaced by `f` of it; every other job as it was. */
  function Updated(jobs: seq<UploadJob>, id: JobId, f: UploadJob -> UploadJob): (r: seq<UploadJob>)
    ensures |r| == |jobs|
    ensures forall k | 0 <= k < |jobs| && k != id :: r[k] == jobs[k]
    ensures id < |jobs| ==> r[id] == f(jobs[id])
  {
    if id < |jobs| then jobs[id := f(jobs[id])] else jobs
  }

  /** Each job's id is its position: ids are unique and `findById` finds at most one job. */
  predicate IdsArePositions(jobs: seq<UploadJob>) {
    forall k | 0 <= k < |jobs| :: jobs[k].id == k
  }

  /** A job matches the filter of `listJobs`: every filter given is equal to the job's field. */
  predicate MatchesFilter(j: UploadJob, entityType: Option<EntityType>, status: Option<JobStatus>) {
    (entityType.Some? ==> j.entityType == entityType.value) && (status.Some? ==> j.status == status.value)
  }

  /** The jobs of `jobs` that match, newest first. */
  function NewestFirst(jobs: seq<UploadJob>, entityType: Option<EntityType>, status: Option<JobStatus>): (r: seq<UploadJob>)
    ensures forall j :: j in r <==> j in jobs && MatchesFilter(j, entityType, status)
    ensures |r| <= |jobs|
  {
    if jobs == [] then []
    else
      var last := jobs[|jobs| - 1];
      var rest := NewestFirst(jobs[..|jobs| - 1], entityType, status);
      assert jobs == jobs[..|jobs| - 1] + [last];
      (if MatchesFilter(last, entityType, status) then [last] else []) + rest
  }

  /** The store of upload jobs, in creation order. */
  class JobStore {
    var jobs: seq<UploadJob>

    ghost predicate Valid()
      reads this
    {
      IdsArePositions(jobs)
    }

    constructor ()
      ensures Valid() && jobs == []
    {
      jobs := [];
    }

    /** `createJob`: a new PENDING job with zero counters and no errors, created by 'admin' unless given. */
    method CreateJob(entityType: EntityType, totalRows: int, createdBy: Option<string>) returns (job: UploadJob)
      requires Valid()
      modifies this
      ensures Valid()
      ensures job == NewJob(|old(jobs)|, entityType, totalRows, createdBy)
      ensures jobs == old(jobs) + [job]
    {
      job := NewJob(|jobs|, entityType, totalRows, createdBy);
      jobs := jobs + [job];
    }

    /** `markJobRunning`: a conditional PENDING to RUNNING; no other job and no other status changes. */
    method MarkJobRunning(id: JobId)
      requires Valid()
      modifies this
      ensures Valid()
      ensures jobs == Updated(old(jobs), id, MarkedRunning)
    {
      if id < |jobs| && jobs[id].status == Pending {
        jobs := jobs[id := jobs[id].(status := Running)];
      }
    }

    /** `markJobCompleted`: COMPLETED with the counts, the errors, processed = success + failure and a completion time. */
    method MarkJobCompleted(id: JobId, successCount: int, failureCount: int, errors: seq<IngestionError>, now: int)
      requires Valid()
      modifies this
      ensures Valid()
      ensures jobs == Updated(old(jobs), id, j => MarkedCompleted(j, successCount, failureCount, errors, now))
    {
      if id < |jobs| {
        jobs := jobs[id := MarkedCompleted(jobs[id], successCount, failureCount, errors, now)];
      }
    }

    /** `markJobFailed`: FAILED with a completion time and one row-0 INSERT_FAILED carrying the message. */
    method MarkJobFailed(id: JobId, message: string, now: int)
      requires Valid()
      modifies this
      ensures Valid()
      ensures jobs == Updated(old(jobs), id, j => MarkedFailed(j, message, now))
    {
      if id < |jobs| {
        jobs := jobs[id := MarkedFailed(jobs[id], message, now)];
      }
    }

    /** `updateJobProgress`: only the processed-row count of that job. */
    method UpdateJobProgress(id: JobId, processedRows: int)
      requires Valid()
      modifies this
      ensures Valid()
      ensures jobs == Updated(old(jobs), id, j => WithProgress(j, processedRows))
    {
      if id < |jobs| {
        jobs := jobs[id := WithProgress(jobs[id], processedRows)];
      }
    }

    /** `getJobById`: the job with that id, or none. */
    function GetJobById(id: JobId): (r: Option<UploadJob>)
      reads this
      requires Valid()
      ensures r.Some? <==> exists j :: j in jobs && j.id == id
      ensures r.Some? ==> r.value in jobs && r.value.id == id
    {
      if id < |jobs| then Some(jobs[id]) else None
    }

    /** `listJobs`: exactly the jobs matching every filter given, newest first. */
    function ListJobs(entityType: Option<EntityType>, status: Option<JobStatus>): (r: seq<UploadJob>)
      reads this
      requires Valid()
      ensures forall j :: j in r <==> j in jobs && MatchesFilter(j, entityType, status)
      ensures IdsDecreasing(r)
    {
      assert IdsArePositions(jobs);
      NewestFirstOrdered(jobs, entityType, status);
      NewestFirst(jobs, entityType, status)
    }
  }

  /** Newest first: ids strictly decreasing. */
  predicate IdsDecreasing(r: seq<UploadJob>) {
    forall a, b | 0 <= a < b < |r| :: r[a].id > r[b].id
  }

  /** The listed jobs are in decreasing id order, that is newest first. */
  lemma {:induction false} NewestFirstOrdered(jobs: seq<UploadJob>, entityType: Option<EntityType>, status: Option<JobStatus>)
    requires IdsArePositions(jobs)
    ensures IdsDecreasing(NewestFirst(jobs, entityType, status))
  {
    if jobs != [] {
      var prefix := jobs[..|jobs| - 1];
      assert IdsArePositions(prefix);
      NewestFirstOrdered(prefix, entityType, status);
      var rest := NewestFirst(prefix, entityType, status);
      var last := jobs[|jobs| - 1];
      if MatchesFilter(last, entityType, status) {
        assert NewestFirst(jobs, entityType, status) == [last] + rest;
        forall j | j in rest ensures j.id < last.id {
          var k :| 0 <= k < |prefix| && prefix[k] == j;
        }
        PrependNewer(last, rest);
      } else {
        assert NewestFirst(jobs, entityType, status) == rest;
      }
    }
  }

  lemma PrependNewer(last: UploadJob, rest: seq<UploadJob>)
    requires IdsDecreasing(rest) && forall j | j in rest :: j.id < last.id
    ensures IdsDecreasing([last] + rest)
  {
    var r := [last] + rest;
    forall a, b | 0 <= a < b < |r| ensures r[a].id > r[b].id {
      assert r[b] == rest[b - 1];
      if a > 0 {
        assert r[a] == rest[a - 1];
      } else {
        assert rest[b - 1] in rest;
      }
    }
  }

  /** Without filters every job is listed, each once. */
  lemma NoFilterListsAll(jobs: seq<UploadJob>)
    requires IdsArePositions(jobs)
    ensures |NewestFirst(jobs, None, None)| == |jobs|
  {
    NoFilterListsAllFrom(jobs);
  }

  lemma {:induction false} NoFilterListsAllFrom(jobs: seq<UploadJob>)
    ensures |NewestFirst(jobs, None, None)| == |jobs|
  {
    if jobs != [] {
      NoFilterListsAllFrom(jobs[..|jobs| - 1]);
    }
  }

  /**
   * The conditional transition changes a job iff it is PENDING, and a
   * second attempt changes nothing: two workers claiming the same job end
   * in the same state as one.
   */
  lemma MarkRunningConditional(jobs: seq<UploadJob>, id: JobId)
    ensures Updated(jobs, id, MarkedRunning) != jobs <==> id < |jobs| && jobs[id].status == Pending
    ensures Updated(Updated(jobs, id, MarkedRunning), id, MarkedRunning) == Updated(jobs, id, MarkedRunning)
  {
    if id < |jobs| && jobs[id].status == Pending {
      assert Updated(jobs, id, MarkedRunning)[id].status == Running;
    }
  }

  /**
   * Completing a job with the counts of an import that got past its gates
   * (failure = total - success) sets processed_rows to that import's total.
   */
  lemma CompletedProcessedIsTotal(j: UploadJob, result: IngestionResult, now: int)
    requires result.failureCount == result.totalRows - result.successCount
    ensures var c := MarkedCompleted(j, result.successCount, result.failureCount, result.errors, now);
            c.processedRows == result.totalRows && c.status == Completed && c.rowErrors == result.errors
            && c.id == j.id && c.totalRows == j.totalRows && c.entityType == j.entityType
  {
  }

  /** Failing a job keeps its counters and progress, and leaves exactly one error, on row 0. */
  lemma FailedKeepsCounts(j: UploadJob, message: string, now: int)
    ensures var f := MarkedFailed(j, message, now);
            && f.status == Failed && f.completedAt == Some(now)
            && f.successCount == j.successCount && f.failureCount == j.failureCount
            && f.processedRows == j.processedRows && f.totalRows == j.totalRows
            && |f.rowErrors| == 1 && f.rowErrors[0].row == 0 && f.rowErrors[0].code == InsertFailed
            && f.rowErrors[0].message == message
  {
  }

  /**
   * Nothing guards a terminal job: a COMPLETED job can be turned FAILED, and
   * its progress can be overwritten, by later calls.
   */
  lemma TerminalJobsAreNotFrozen(j: UploadJob, message: string, now: int, p: int)
    requires j.status == Completed && p != j.processedRows
    ensures MarkedFailed(j, message, now).status == Failed
    ensures WithProgress(j, p).status == Completed && WithProgress(j, p) != j
    ensures MarkedRunning(j) == j
  {
  }
}
