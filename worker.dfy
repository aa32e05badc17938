/**
 * The import worker of backend/src/jobs/worker.ts: a registry of entity
 * configs, and the handling of one queue delivery — decode the body, look up
 * the config, claim the job, run the import, then acknowledge, retry by
 * re-publishing with `x-retry-count + 1`, or dead-letter — with the
 * consumer's safety net around it. The broker channel is a log of the
 * operations issued on it; what the import run does and which job-store
 * writes throw are inputs, the import itself being modelled in `Pipeline`.
 */
module JobWorker {

  import opened Wrappers
  import opened Text
  import opened IngestionTypes
  import opened EntityConfigs
  import opened JobService
  import opened CsvParser
  import opened RowValidator
  import Pipeline

  /** `MAX_RETRIES` of backend/src/config/queue.ts. */
  const MaxRetries: int := 3

  /** `QUEUES`: the work queue of each entity type. */
  function QueueName(t: EntityType): string {
    match t
    case ClassImport => "class_import"
    case SubjectImport => "subject_import"
    case RoomImport => "room_import"
    case StudentImport => "student_import"
    case TeacherImport => "teacher_import"
    case TimetableImport => "timetable_import"
  }

  /** The queue payload `JobMessage`; the entity type is whatever text the body carries. */
  datatype JobMessage = JobMessage(jobId: JobId, entityType: string, totalRows: int, csvPayload: string)

  /**
   * A delivery: the raw content, what `JSON.parse` makes of it (None when it
   * throws), and the `x-retry-count` header if present.
   */
  datatype Delivery = Delivery(content: string, body: Option<JobMessage>, retryHeader: Option<int>)

  /** The retry count of a delivery: its header, or 0. */
  function RetryCount(d: Delivery): int {
    d.retryHeader.GetOr(0)
  }

  /** What the worker does on the broker channel. */
  datatype ChannelOp = Ack | Nack(requeue: bool) | Send(queue: string, content: string, retryCount: int)

  /**
   * One run of `ingestCsv`: it returns a result after reporting some
   * progress, or throws with a message after reporting some progress.
   */
  datatype PipelineRun = Finished(result: IngestionResult, progress: seq<int>) | Crashed(progress: seq<int>, message: string)
  {
    function Progress(): seq<int> {
      match this
      case Finished(_, p) => p
      case Crashed(p, _) => p
    }
  }

  /** Which awaited job-store writes throw during a delivery, with the message of the exception. */
  datatype StoreFaults = StoreFaults(failedWrite: Option<string>, runningWrite: Option<string>, completedWrite: Option<string>)

  /** No job-store write throws. */
  predicate NoFaults(f: StoreFaults) {
    f.failedWrite.None? && f.runningWrite.None? && f.completedWrite.None?
  }

  /** The retry decision of the catch block: re-publish while the count is below `MAX_RETRIES - 1`. */
  predicate ShouldRetry(retryCount: int) {
    retryCount < MaxRetries - 1
  }

  function NoConfigMessage(entityType: string): string {
    "No entity config registered for " + entityType
  }

  function MaxRetriesMessage(message: string): string {
    "Max retries (" + IntToString(MaxRetries) + ") exceeded: " + message
  }

  /** `configRegistry.get(entityType)`: only the six entity types are keys. */
  function LookupConfig(registry: map<EntityType, EntityConfig>, entityType: string): (r: Option<EntityConfig>)
    ensures r.Some? <==> exists t :: t in registry && EntityTypeName(t) == entityType
  {
    match ParseEntityType(entityType)
    case Some(t) => if t in registry then Some(registry[t]) else None
    case None => None
  }

  /** Each progress value written to the job in turn. */
  function ApplyProgress(jobs: seq<UploadJob>, id: JobId, progress: seq<int>): (r: seq<UploadJob>)
    ensures |r| == |jobs|
  {
    if progress == [] then jobs
    else Updated(ApplyProgress(jobs, id, progress[..|progress| - 1]), id, j => WithProgress(j, progress[|progress| - 1]))
  }

  /**
   * What handling one delivery does: the job table afterwards, the channel
   * operations in order, whether an exception escaped the handler, whether
   * the import ran, and whether the job was marked FAILED.
   */
  datatype Handled = Handled(jobs: seq<UploadJob>, ops: seq<ChannelOp>, threw: bool, ranPipeline: bool, markedFailed: bool)

  /** `handleMessage`, as a function of the job table before it. */
  function HandleSpec(jobs: seq<UploadJob>, registry: map<EntityType, EntityConfig>, d: Delivery,
                      run: PipelineRun, faults: StoreFaults, now: int): (h: Handled)
    ensures |h.jobs| == |jobs|
  {
    if d.body.None? then Handled(jobs, [Nack(false)], false, false, false)
    else
      var m := d.body.value;
      var retryCount := RetryCount(d);
      match ParseEntityType(m.entityType)
      case None => NoConfig(jobs, m, faults, now)
      case Some(t) =>
        if t !in registry then NoConfig(jobs, m, faults, now)
        else if faults.runningWrite.Some? then Handled(jobs, [], true, false, false)
        else
          var claimed := Updated(jobs, m.jobId, MarkedRunning);
          var progressed := ApplyProgress(claimed, m.jobId, run.Progress());
          var crash: Option<string> := if run.Crashed? then Some(run.message) else faults.completedWrite;
          if crash.None? then
            var r := run.result;
            Handled(Updated(progressed, m.jobId, j => MarkedCompleted(j, r.successCount, r.failureCount, r.errors, now)),
                    [Ack], false, true, false)
          else if ShouldRetry(retryCount) then
            Handled(progressed, [Nack(false), Send(QueueName(t), d.content, retryCount + 1)], false, true, false)
          else if faults.failedWrite.Some? then Handled(progressed, [], true, true, false)
          else
            Handled(Updated(progressed, m.jobId, j => MarkedFailed(j, MaxRetriesMessage(crash.value), now)),
                    [Nack(false)], false, true, true)
  }

  /** No config for the message's entity type: mark the job FAILED and dead-letter. */
  function NoConfig(jobs: seq<UploadJob>, m: JobMessage, faults: StoreFaults, now: int): (h: Handled)
    ensures |h.jobs| == |jobs|
  {
    if faults.failedWrite.Some? then Handled(jobs, [], true, false, false)
    else Handled(Updated(jobs, m.jobId, j => MarkedFailed(j, NoConfigMessage(m.entityType), now)), [Nack(false)], false, false, true)
  }

  /** The consumer callback: a null message is ignored, and an exception escaping the handler is answered with a nack. */
  function ConsumeSpec(jobs: seq<UploadJob>, registry: map<EntityType, EntityConfig>, msg: Option<Delivery>,
                       run: PipelineRun, faults: StoreFaults, now: int): Handled
  {
    if msg.None? then Handled(jobs, [], false, false, false)
    else
      var h := HandleSpec(jobs, registry, msg.value, run, faults, now);
      if h.threw then h.(ops := h.ops + [Nack(false)]) else h
  }

  class Worker {
    var registry: map<EntityType, EntityConfig>
    var channel: seq<ChannelOp>
    const store: JobStore

    ghost predicate Valid()
      reads this, store
    {
      store.Valid()
    }

    constructor (store: JobStore)
      requires store.Valid()
      ensures Valid() && this.store == store && registry == map[] && channel == []
    {
      this.store := store;
      registry := map[];
      channel := [];
    }

    /** `registerEntityConfig`: a later registration for the same type replaces the earlier one. */
    method RegisterEntityConfig(t: EntityType, config: EntityConfig)
      modifies this`registry
      ensures registry == old(registry)[t := config]
    {
      registry := registry[t := config];
    }

    /** The progress callback, called once per value the import reports. */
    method ReportProgress(id: JobId, progress: seq<int>)
      requires Valid()
      modifies store
      ensures Valid()
      ensures store.jobs == ApplyProgress(old(store.jobs), id, progress)
    {
      ghost var start := store.jobs;
      for i := 0 to |progress|
        invariant store.Valid()
        invariant store.jobs == ApplyProgress(start, id, progress[..i])
      {
        assert progress[..i + 1][..i] == progress[..i];
        store.UpdateJobProgress(id, progress[i]);
      }
      assert progress[..|progress|] == progress;
    }

    /** `handleMessage` on one delivery. */
    method HandleMessage(d: Delivery, run: PipelineRun, faults: StoreFaults, now: int) returns (threw: bool)
      requires Valid()
      modifies this`channel, store
      ensures Valid()
      ensures var h := HandleSpec(old(store.jobs), registry, d, run, faults, now);
              store.jobs == h.jobs && channel == old(channel) + h.ops && threw == h.threw
    {
      threw := false;
      if d.body.None? {
        channel := channel + [Nack(false)];
        return;
      }
      var m := d.body.value;
      var retryCount := RetryCount(d);
      var entityType := ParseEntityType(m.entityType);
      if entityType.None? || entityType.value !in registry {
        if faults.failedWrite.Some? {
          return true;
        }
        store.MarkJobFailed(m.jobId, NoConfigMessage(m.entityType), now);
        channel := channel + [Nack(false)];
        return;
      }
      var t := entityType.value;
      if faults.runningWrite.Some? {
        return true;
      }
      store.MarkJobRunning(m.jobId);
      ReportProgress(m.jobId, run.Progress());
      var crash: Option<string>;
      if run.Crashed? {
        crash := Some(run.message);
      } else if faults.completedWrite.Some? {
        crash := faults.completedWrite;
      } else {
        store.MarkJobCompleted(m.jobId, run.result.successCount, run.result.failureCount, run.result.errors, now);
        channel := channel + [Ack];
        return;
      }
      if retryCount < MaxRetries - 1 {
        channel := channel + [Nack(false)];
        channel := channel + [Send(QueueName(t), d.content, retryCount + 1)];
      } else {
        if faults.failedWrite.Some? {
          return true;
        }
        store.MarkJobFailed(m.jobId, MaxRetriesMessage(crash.value), now);
        channel := channel + [Nack(false)];
      }
    }

    /** The callback `subscribeConsumers` registers on each queue. */
    method OnMessage(msg: Option<Delivery>, run: PipelineRun, faults: StoreFaults, now: int)
      requires Valid()
      modifies this`channel, store
      ensures Valid()
      ensures var h := ConsumeSpec(old(store.jobs), registry, msg, run, faults, now);
              store.jobs == h.jobs && channel == old(channel) + h.ops
    {
      if msg.None? {
        return;
      }
      var threw := HandleMessage(msg.value, run, faults, now);
      if threw {
        channel := channel + [Nack(false)];
      }
    }
  }

  // ----- properties of one delivery -----

  /** A body that is not JSON is dead-lettered at once: one nack without requeue, no job touched, no import. */
  lemma MalformedBodyDeadLettered(jobs: seq<UploadJob>, registry: map<EntityType, EntityConfig>, d: Delivery,
                                  run: PipelineRun, faults: StoreFaults, now: int)
    requires d.body.None?
    ensures var h := HandleSpec(jobs, registry, d, run, faults, now);
            h.jobs == jobs && h.ops == [Nack(false)] && !h.ranPipeline && !h.threw
  {
  }

  /** Every delivery ends with exactly one ack or nack on the channel, once the safety net has run. */
  lemma EachDeliverySettledOnce(jobs: seq<UploadJob>, registry: map<EntityType, EntityConfig>, d: Delivery,
                                run: PipelineRun, faults: StoreFaults, now: int)
    ensures var ops := ConsumeSpec(jobs, registry, Some(d), run, faults, now).ops;
            |set k | 0 <= k < |ops| && !ops[k].Send?| == 1
            && (forall k | 0 <= k < |ops| && ops[k].Send? :: ops[k].retryCount == RetryCount(d) + 1 && ops[k].content == d.content)
  {
    var ops := ConsumeSpec(jobs, registry, Some(d), run, faults, now).ops;
    if |ops| == 1 {
      assert (set k | 0 <= k < |ops| && !ops[k].Send?) == {0};
    } else {
      assert ops[1].Send? && !ops[0].Send?;
      assert (set k | 0 <= k < |ops| && !ops[k].Send?) == {0};
    }
  }

  /**
   * An entity type with no registered config marks the job FAILED with the
   * config message and dead-letters the delivery; the import does not run.
   */
  lemma MissingConfigFailsJob(jobs: seq<UploadJob>, registry: map<EntityType, EntityConfig>, d: Delivery,
                              run: PipelineRun, faults: StoreFaults, now: int)
    requires d.body.Some? && LookupConfig(registry, d.body.value.entityType).None? && faults.failedWrite.None?
    requires d.body.value.jobId < |jobs|
    ensures var h := HandleSpec(jobs, registry, d, run, faults, now);
            var id := d.body.value.jobId;
            && h.ops == [Nack(false)] && !h.ranPipeline && h.markedFailed
            && h.jobs[id].status == JobStatus.Failed
            && h.jobs[id].rowErrors == [FailureError(NoConfigMessage(d.body.value.entityType))]
            && (forall k | 0 <= k < |jobs| && k != id :: h.jobs[k] == jobs[k])
  {
  }

  /**
   * A run that finishes, with no failing write, claims the job if it was
   * PENDING, records the progress, completes the job with the result's
   * counts and errors, and acknowledges the delivery.
   */
  lemma SuccessCompletesAndAcks(jobs: seq<UploadJob>, registry: map<EntityType, EntityConfig>, d: Delivery,
                                result: IngestionResult, progress: seq<int>, faults: StoreFaults, now: int)
    requires d.body.Some? && LookupConfig(registry, d.body.value.entityType).Some? && NoFaults(faults)
    requires d.body.value.jobId < |jobs|
    ensures var h := HandleSpec(jobs, registry, d, Finished(result, progress), faults, now);
            var id := d.body.value.jobId;
            && h.ops == [Ack] && h.ranPipeline && !h.markedFailed
            && h.jobs[id].status == Completed
            && h.jobs[id].successCount == result.successCount && h.jobs[id].failureCount == result.failureCount
            && h.jobs[id].processedRows == result.successCount + result.failureCount
            && h.jobs[id].rowErrors == result.errors
            && h.jobs[id].totalRows == jobs[id].totalRows
            && (forall k | 0 <= k < |jobs| && k != id :: h.jobs[k] == jobs[k])
  {
    var id := d.body.value.jobId;
    ApplyProgressFrame(Updated(jobs, id, MarkedRunning), id, progress);
  }

  /** Progress writes touch only the job they name. */
  lemma {:induction false} ApplyProgressFrame(jobs: seq<UploadJob>, id: JobId, progress: seq<int>)
    ensures forall k | 0 <= k < |jobs| && k != id :: ApplyProgress(jobs, id, progress)[k] == jobs[k]
    ensures id < |jobs| && progress != [] ==>
              ApplyProgress(jobs, id, progress)[id] == jobs[id].(processedRows := progress[|progress| - 1])
    ensures id < |jobs| && progress == [] ==> ApplyProgress(jobs, id, progress)[id] == jobs[id]
  {
    if progress != [] {
      ApplyProgressFrame(jobs, id, progress[..|progress| - 1]);
    }
  }

  /**
   * A crash (of the import, or of the completion write) with a retry count
   * below `MAX_RETRIES - 1` nacks the delivery and re-sends the same content
   * to the entity's queue with the count plus one; the job is left as the
   * claim and the progress reports left it, not FAILED.
   */
  lemma CrashBelowCeilingRetries(jobs: seq<UploadJob>, registry: map<EntityType, EntityConfig>, d: Delivery,
                                 run: PipelineRun, faults: StoreFaults, now: int, t: EntityType)
    requires d.body.Some? && ParseEntityType(d.body.value.entityType) == Some(t) && t in registry
    requires faults.runningWrite.None? && (run.Crashed? || faults.completedWrite.Some?)
    requires RetryCount(d) < MaxRetries - 1
    ensures var h := HandleSpec(jobs, registry, d, run, faults, now);
            var id := d.body.value.jobId;
            && h.ops == [Nack(false), Send(QueueName(t), d.content, RetryCount(d) + 1)]
            && h.jobs == ApplyProgress(Updated(jobs, id, MarkedRunning), id, run.Progress())
            && !h.markedFailed && !h.threw
  {
  }

  /**
   * A crash at the ceiling marks the job FAILED with "Max retries (3)
   * exceeded: …" and nacks without re-sending.
   */
  lemma CrashAtCeilingFailsJob(jobs: seq<UploadJob>, registry: map<EntityType, EntityConfig>, d: Delivery,
                               message: string, progress: seq<int>, faults: StoreFaults, now: int)
    requires d.body.Some? && LookupConfig(registry, d.body.value.entityType).Some? && NoFaults(faults)
    requires d.body.value.jobId < |jobs|
    requires RetryCount(d) >= MaxRetries - 1
    ensures var h := HandleSpec(jobs, registry, d, Crashed(progress, message), faults, now);
            var id := d.body.value.jobId;
            && h.ops == [Nack(false)] && h.markedFailed
            && h.jobs[id].status == JobStatus.Failed
            && h.jobs[id].rowErrors == [FailureError("Max retries (3) exceeded: " + message)]
  {
    var id := d.body.value.jobId;
    ApplyProgressFrame(Updated(jobs, id, MarkedRunning), id, progress);
    assert IntToString(MaxRetries) == "3" by {
      assert DigitChar(3) == '3';
    }
    assert MaxRetriesMessage(message) == "Max retries (3) exceeded: " + message;
  }

  /**
   * A failure of the RUNNING claim escapes the handler: the safety net nacks
   * without requeue, nothing is re-sent and the job keeps its status, so a
   * PENDING job stays PENDING with its message dead-lettered.
   */
  lemma ClaimFailureStrandsJob(jobs: seq<UploadJob>, registry: map<EntityType, EntityConfig>, d: Delivery,
                               run: PipelineRun, faults: StoreFaults, now: int)
    requires d.body.Some? && LookupConfig(registry, d.body.value.entityType).Some? && faults.runningWrite.Some?
    ensures var h := ConsumeSpec(jobs, registry, Some(d), run, faults, now);
            h.jobs == jobs && h.ops == [Nack(false)] && !h.ranPipeline
  {
  }

  // ----- a delivery and its re-sent copies -----

  /** What handling a chain of deliveries gives: the job table, the import runs, and the times the job was marked FAILED. */
  datatype ChainResult = ChainResult(jobs: seq<UploadJob>, runs: nat, failedMarks: nat)

  /**
   * A delivery and every copy it re-sends, each handled in turn with the
   * next run outcome and faults: the copy carries the same content, so it
   * decodes to the same body, and the header the worker set.
   */
  function Chain(jobs: seq<UploadJob>, registry: map<EntityType, EntityConfig>, d: Delivery,
                 attempts: seq<(PipelineRun, StoreFaults)>, now: int): (r: ChainResult)
    ensures |r.jobs| == |jobs|
    decreases |attempts|
  {
    if attempts == [] then ChainResult(jobs, 0, 0)
    else
      var h := ConsumeSpec(jobs, registry, Some(d), attempts[0].0, attempts[0].1, now);
      var here := ChainResult(h.jobs, if h.ranPipeline then 1 else 0, if h.markedFailed then 1 else 0);
      if |h.ops| == 2 && h.ops[1].Send? then
        var rest := Chain(h.jobs, registry, Delivery(d.content, d.body, Some(h.ops[1].retryCount)), attempts[1..], now);
        ChainResult(rest.jobs, here.runs + rest.runs, here.failedMarks + rest.failedMarks)
      else here
  }

  /** A re-send happens only below the ceiling, with the count plus one. */
  lemma ResendOnlyBelowCeiling(jobs: seq<UploadJob>, registry: map<EntityType, EntityConfig>, d: Delivery,
                               run: PipelineRun, faults: StoreFaults, now: int)
    ensures var h := ConsumeSpec(jobs, registry, Some(d), run, faults, now);
            |h.ops| == 2 && h.ops[1].Send? ==>
              ShouldRetry(RetryCount(d)) && h.ops[1].retryCount == RetryCount(d) + 1 && h.ranPipeline && !h.markedFailed
    ensures var h := ConsumeSpec(jobs, registry, Some(d), run, faults, now);
            !(|h.ops| == 2 && h.ops[1].Send?) ==> h.ops == [Ack] || h.ops == [Nack(false)]
  {
  }

  /**
   * A delivery with retry count `c` leads to at most `MAX_RETRIES - c` import
   * runs (at least one) and marks the job FAILED at most once; a first
   * delivery, whose header the publisher sets to 0, leads to at most three.
   */
  lemma {:induction false} ChainBounded(jobs: seq<UploadJob>, registry: map<EntityType, EntityConfig>, d: Delivery,
                                        attempts: seq<(PipelineRun, StoreFaults)>, now: int)
    requires RetryCount(d) >= 0
    ensures var c := Chain(jobs, registry, d, attempts, now);
            c.runs <= (if ShouldRetry(RetryCount(d)) then MaxRetries - RetryCount(d) else 1) && c.failedMarks <= 1
    decreases |attempts|
  {
    if attempts != [] {
      var h := ConsumeSpec(jobs, registry, Some(d), attempts[0].0, attempts[0].1, now);
      ResendOnlyBelowCeiling(jobs, registry, d, attempts[0].0, attempts[0].1, now);
      if |h.ops| == 2 && h.ops[1].Send? {
        var next := Delivery(d.content, d.body, Some(h.ops[1].retryCount));
        ChainBounded(h.jobs, registry, next, attempts[1..], now);
      }
    }
  }

  /** A first delivery is handled by at most three import runs. */
  lemma AtMostThreeRuns(jobs: seq<UploadJob>, registry: map<EntityType, EntityConfig>, content: string, m: JobMessage,
                        attempts: seq<(PipelineRun, StoreFaults)>, now: int)
    ensures Chain(jobs, registry, Delivery(content, Some(m), Some(0)), attempts, now).runs <= 3
  {
    ChainBounded(jobs, registry, Delivery(content, Some(m), Some(0)), attempts, now);
  }

  /** Three crashing runs of a registered import, starting from count 0. */
  predicate ThreeCrashes(attempts: seq<(PipelineRun, StoreFaults)>) {
    |attempts| >= 3 && forall k | 0 <= k < 3 :: attempts[k].0.Crashed? && NoFaults(attempts[k].1)
  }

  /**
   * When the import crashes three times in a row, the job ends FAILED, marked
   * so exactly once, after exactly three runs; a fourth attempt is never made
   * however many more outcomes are offered.
   */
  lemma ThreeCrashesFailOnce(jobs: seq<UploadJob>, registry: map<EntityType, EntityConfig>, content: string, m: JobMessage,
                             attempts: seq<(PipelineRun, StoreFaults)>, now: int)
    requires LookupConfig(registry, m.entityType).Some? && m.jobId < |jobs|
    requires ThreeCrashes(attempts)
    ensures var c := Chain(jobs, registry, Delivery(content, Some(m), Some(0)), attempts, now);
            c.runs == 3 && c.failedMarks == 1 && c.jobs[m.jobId].status == JobStatus.Failed
            && c.jobs[m.jobId].rowErrors == [FailureError("Max retries (3) exceeded: " + attempts[2].0.message)]
  {
    var d0 := Delivery(content, Some(m), Some(0));
    var d1 := Delivery(content, Some(m), Some(1));
    var d2 := Delivery(content, Some(m), Some(2));
    var h0 := ConsumeSpec(jobs, registry, Some(d0), attempts[0].0, attempts[0].1, now);
    assert h0.ops[1] == Send(QueueName(ParseEntityType(m.entityType).value), content, 1);
    var h1 := ConsumeSpec(h0.jobs, registry, Some(d1), attempts[1].0, attempts[1].1, now);
    assert h1.ops[1] == Send(QueueName(ParseEntityType(m.entityType).value), content, 2);
    var h2 := ConsumeSpec(h1.jobs, registry, Some(d2), attempts[2].0, attempts[2].1, now);
    assert attempts[1..][0] == attempts[1] && attempts[1..][1..][0] == attempts[2];
    assert Chain(h1.jobs, registry, d2, attempts[1..][1..], now) == ChainResult(h2.jobs, 1, 1);
    assert |h1.jobs| == |jobs|;
    CrashAtCeilingFailsJob(h1.jobs, registry, d2, attempts[2].0.message, attempts[2].0.progress, attempts[2].1, now);
  }

  // ----- the worker and the import it runs -----

  /**
   * When the worker's run of the import gets past both gates, the completed
   * job accounts for every parsed row: processed = success + failure = the
   * rows the file had, which is the `total_rows` the upload gate recorded
   * for the same file.
   */
  lemma CompletedJobAccountsForEveryRow(jobs: seq<UploadJob>, registry: map<EntityType, EntityConfig>, d: Delivery,
                                        events: seq<CsvEvent>, config: EntityConfig, schema: Schema,
                                        persist: Pipeline.Persist, store: Store, now: int)
    requires DistinctColumns(config.relations)
    requires d.body.Some? && LookupConfig(registry, d.body.value.entityType).Some? && d.body.value.jobId < |jobs|
    requires forall m | m in config.preconditions :: HasAny(store, m)
    requires ParseSpec(events, config.expectedHeaders).errors == []
    ensures var (result, progress) := Pipeline.IngestSpec(events, config, schema, persist, store);
            var h := HandleSpec(jobs, registry, d, Finished(result, progress), StoreFaults(None, None, None), now);
            var job := h.jobs[d.body.value.jobId];
            && job.status == Completed
            && job.processedRows == job.successCount + job.failureCount == |ParseSpec(events, config.expectedHeaders).rows|
  {
    var preconditionErrors := Pipeline.PreconditionErrors(config.preconditions, store);
    assert preconditionErrors == [];
    var rows := ParseSpec(events, config.expectedHeaders).rows;
    Pipeline.ImportRowsCounts(rows, config, schema, persist, store);
    var (result, progress) := Pipeline.IngestSpec(events, config, schema, persist, store);
    SuccessCompletesAndAcks(jobs, registry, d, result, progress, StoreFaults(None, None, None), now);
  }

  /**
   * A required model emptied between upload and processing does not fail
   * the job: it is COMPLETED with no rows processed and only
   * PRECONDITION_FAILED errors.
   */
  lemma PreconditionLostAfterUploadCompletesEmpty(jobs: seq<UploadJob>, registry: map<EntityType, EntityConfig>, d: Delivery,
                                                   events: seq<CsvEvent>, config: EntityConfig, schema: Schema,
                                                   persist: Pipeline.Persist, store: Store, now: int, model: string)
    requires DistinctColumns(config.relations)
    requires d.body.Some? && LookupConfig(registry, d.body.value.entityType).Some? && d.body.value.jobId < |jobs|
    requires model in config.preconditions && !HasAny(store, model)
    ensures var (result, progress) := Pipeline.IngestSpec(events, config, schema, persist, store);
            var h := HandleSpec(jobs, registry, d, Finished(result, progress), StoreFaults(None, None, None), now);
            var job := h.jobs[d.body.value.jobId];
            && job.status == Completed && job.processedRows == 0 && job.successCount == 0
            && job.rowErrors != [] && (forall e | e in job.rowErrors :: e.code == PreconditionFailed && e.row == 0)
  {
    Pipeline.PreconditionFailureAborts(events, events, config, schema, persist, store, model);
    var (result, progress) := Pipeline.IngestSpec(events, config, schema, persist, store);
    SuccessCompletesAndAcks(jobs, registry, d, result, progress, StoreFaults(None, None, None), now);
  }
}
