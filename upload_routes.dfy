/**
 * The upload gate of backend/src/routes/upload.routes.ts: the checks of
 * `POST /:entityType` that decide, in order, whether an import job is
 * created at all — a known entity type, a CSV body, content that is not
 * blank, a header row that matches and no parse error, at least one data
 * row, and a non-empty collection for each required model — then the job
 * record and the hand-off to the queue. The tokenizer's output for the body
 * and the outcome of `publishJob` are inputs.
 */
module UploadRoutes {

  import opened Wrappers
  import opened Text
  import opened IngestionTypes
  import opened EntityConfigs
  import opened CsvParser
  import opened RowValidator
  import opened JobService
  import opened JobWorker
  import Pipeline

  /** The request body as Express hands it over. */
  datatype RequestBody =
    | TextBody(text: string)
      /** a Buffer, already decoded as UTF-8 */
    | BufferBody(decoded: string)
      /** a JSON object; `csv` is its `csv` member when that is a string */
    | JsonBody(csv: Option<string>)
      /** anything else, including no body */
    | OtherBody

  /** The response written: its status code, message, the errors it lists and the job it names. */
  datatype Response =
    | BadRequest(message: string, errors: seq<IngestionError>)
    | EnqueueFailed(message: string, jobId: JobId)
    | Accepted(message: string, jobId: JobId, entityType: EntityType, totalRows: int, status: JobStatus)
  {
    function StatusCode(): int {
      match this
      case BadRequest(_, _) => 400
      case EnqueueFailed(_, _) => 500
      case Accepted(_, _, _, _, _) => 202
    }
  }

  /** What `publishJob` did: it returned whether the channel took the message, or threw. */
  datatype PublishOutcome = Returned(sent: bool) | PublishThrew(message: string)

  const EntityTypesText: string :=
    "CLASS_IMPORT, SUBJECT_IMPORT, ROOM_IMPORT, STUDENT_IMPORT, TEACHER_IMPORT, TIMETABLE_IMPORT"

  function InvalidTypeMessage(entityType: string): string {
    "Invalid entity type: " + entityType + ". Must be one of: " + EntityTypesText
  }

  const NoBodyMessage: string := "Request body must contain CSV data. Send as text/csv, or JSON { \"csv\": \"...\" }"
  const EmptyMessage: string := "CSV content is empty"
  const ParseFailedMessage: string := "CSV validation failed — job not created"
  const NoRowsMessage: string := "CSV contains no data rows"
  const EnqueueFailedMessage: string := "Failed to enqueue job — please retry"

  /** `parts.join(sep)`. */
  function JoinWith(parts: seq<string>, sep: string): string {
    if parts == [] then ""
    else if |parts| == 1 then parts[0]
    else parts[0] + sep + JoinWith(parts[1..], sep)
  }

  const PreconditionPrefix: string := "Import precondition failed — required collections are empty: "
  const PreconditionSuffix: string := ". Create these records before importing."

  function PreconditionMessage(missing: seq<string>): string {
    PreconditionPrefix + JoinWith(missing, ", ") + PreconditionSuffix
  }

  /** The row-0 error the gate lists for an empty required collection. */
  function MissingModelError(m: string): IngestionError {
    IngestionError(0, "", PreconditionFailed, "No " + m + " records exist. Please create " + m + " entries first.")
  }

  function MissingModelErrors(missing: seq<string>): (errs: seq<IngestionError>)
    ensures |errs| == |missing|
    ensures forall k | 0 <= k < |missing| :: errs[k] == MissingModelError(missing[k])
  {
    if missing == [] then [] else [MissingModelError(missing[0])] + MissingModelErrors(missing[1..])
  }

  /**
   * The CSV text of a body: a string or a decoded Buffer as it is, the `csv`
   * member of a JSON object when it is a non-empty string ('' is falsy), and
   * nothing otherwise.
   */
  function CsvContent(body: RequestBody): (r: Option<string>)
    ensures r.Some? <==> !body.OtherBody? && !(body.JsonBody? && (body.csv.None? || body.csv.value == ""))
  {
    match body
    case TextBody(text) => Some(text)
    case BufferBody(decoded) => Some(decoded)
    case JsonBody(csv) => if csv.Some? && csv.value != "" then csv else None
    case OtherBody => None
  }

  /**
   * The required models with no document, in the order the preconditions list
   * them; the source collects them from parallel lookups, so its order is
   * the order the lookups finish.
   */
  function Missing(preconditions: seq<string>, store: Store): (missing: seq<string>)
    ensures |missing| <= |preconditions|
  {
    if preconditions == [] then []
    else
      var rest := Missing(preconditions[..|preconditions| - 1], store);
      var m := preconditions[|preconditions| - 1];
      if HasAny(store, m) then rest else rest + [m]
  }

  /** A model is listed as missing exactly when it is required and has no document. */
  lemma {:induction false} MissingMembers(preconditions: seq<string>, store: Store)
    ensures forall m :: m in Missing(preconditions, store) <==> m in preconditions && !HasAny(store, m)
  {
    if preconditions != [] {
      var init := preconditions[..|preconditions| - 1];
      MissingMembers(init, store);
      assert preconditions == init + [preconditions[|preconditions| - 1]];
    }
  }

  /** The loop over `config.preconditions` that fills `missing`. */
  method CollectMissing(preconditions: seq<string>, store: Store) returns (missing: seq<string>)
    ensures missing == Missing(preconditions, store)
  {
    missing := [];
    for i := 0 to |preconditions|
      invariant missing == Missing(preconditions[..i], store)
    {
      assert preconditions[..i + 1][..i] == preconditions[..i];
      if !HasAny(store, preconditions[i]) {
        missing := missing + [preconditions[i]];
      }
    }
    assert preconditions[..|preconditions|] == preconditions;
  }

  /** Where the gate lets the request through, or the 400 it answers with. */
  datatype Gate = Reject(response: Response) | Admit(entityType: EntityType, csv: string, rowCount: nat)

  /**
   * The synchronous gate. `events` is what the tokenizer makes of the CSV
   * content; the headers it is checked against are those of the entity
   * type's config.
   */
  function GateSpec(entityType: string, body: RequestBody, events: seq<CsvEvent>, store: Store): Gate {
    match ParseEntityType(entityType)
    case None => Reject(BadRequest(InvalidTypeMessage(entityType), []))
    case Some(t) => GateFor(t, ConfigOf(t), body, events, store)
  }

  /** The checks after the entity type, against that type's config. */
  function GateFor(t: EntityType, config: EntityConfig, body: RequestBody, events: seq<CsvEvent>, store: Store): Gate {
    match CsvContent(body)
    case None => Reject(BadRequest(NoBodyMessage, []))
    case Some(csv) =>
      if Trim(csv) == "" then Reject(BadRequest(EmptyMessage, []))
      else GateOnParse(t, csv, ParseSpec(events, config.expectedHeaders), Missing(config.preconditions, store))
  }

  /** The checks on what the parser returned, then on the required models. */
  function GateOnParse(t: EntityType, csv: string, parsed: CsvParseResult, missing: seq<string>): Gate {
    if parsed.errors != [] then Reject(BadRequest(ParseFailedMessage, parsed.errors))
    else if parsed.rows == [] then Reject(BadRequest(NoRowsMessage, []))
    else if missing != [] then Reject(BadRequest(PreconditionMessage(missing), MissingModelErrors(missing)))
    else Admit(t, csv, |parsed.rows|)
  }

  /** Every check after the entity type passes. */
  predicate Passes(config: EntityConfig, body: RequestBody, events: seq<CsvEvent>, store: Store) {
    && CsvContent(body).Some? && Trim(CsvContent(body).value) != ""
    && ParseSpec(events, config.expectedHeaders).errors == []
    && ParseSpec(events, config.expectedHeaders).rows != []
    && (forall m | m in config.preconditions :: HasAny(store, m))
  }

  /** The gate's checks, in the handler's order. */
  method CheckGate(t: EntityType, config: EntityConfig, body: RequestBody, events: seq<CsvEvent>, store: Store)
    returns (g: Gate)
    ensures g == GateFor(t, config, body, events, store)
  {
    var content := CsvContent(body);
    if content.None? {
      return Reject(BadRequest(NoBodyMessage, []));
    }
    var csv := content.value;
    if Trim(csv) == "" {
      return Reject(BadRequest(EmptyMessage, []));
    }
    var parsed := ParseCsv(events, config.expectedHeaders);
    var missing: seq<string> := [];
    if |config.preconditions| > 0 {
      missing := CollectMissing(config.preconditions, store);
    }
    g := CheckParsed(t, csv, parsed, missing);
  }

  /** The early returns after parsing. */
  method CheckParsed(t: EntityType, csv: string, parsed: CsvParseResult, missing: seq<string>) returns (g: Gate)
    ensures g == GateOnParse(t, csv, parsed, missing)
  {
    if parsed.errors != [] {
      return Reject(BadRequest(ParseFailedMessage, parsed.errors));
    }
    if |parsed.rows| == 0 {
      return Reject(BadRequest(NoRowsMessage, []));
    }
    if |missing| > 0 {
      return Reject(BadRequest(PreconditionMessage(missing), MissingModelErrors(missing)));
    }
    g := Admit(t, csv, |parsed.rows|);
  }

  /** The queue message for a created job; the base64 encoding of the payload is not modelled. */
  function MessageFor(id: JobId, t: EntityType, rowCount: nat, csv: string): JobMessage {
    JobMessage(id, EntityTypeName(t), rowCount, csv)
  }

  function AcceptedMessage(rowCount: nat, id: JobId): string {
    "Import job created for " + IntToString(rowCount) + " rows. Track via /api/jobs/" + IntToString(id)
  }

  /** The request's effect: the job table afterwards, the response, and the message handed to `publishJob`. */
  datatype Upload = Upload(jobs: seq<UploadJob>, response: Response, published: Option<JobMessage>)

  /** The whole handler, as a function of the job table before it. */
  function UploadSpec(jobs: seq<UploadJob>, entityType: string, body: RequestBody, events: seq<CsvEvent>,
                      store: Store, publish: PublishOutcome, now: int): Upload
  {
    UploadAfter(jobs, GateSpec(entityType, body, events, store), publish, now)
  }

  /** What the handler does once the gate has answered: a rejection changes nothing, an admission creates and publishes a job. */
  function UploadAfter(jobs: seq<UploadJob>, gate: Gate, publish: PublishOutcome, now: int): Upload {
    match gate
    case Reject(response) => Upload(jobs, response, None)
    case Admit(t, csv, n) =>
      var id := |jobs|;
      var created := jobs + [NewJob(id, t, n, None)];
      var msg := MessageFor(id, t, n, csv);
      match publish
      case PublishThrew(message) =>
        Upload(Updated(created, id, j => MarkedFailed(j, "Failed to enqueue: " + message, now)),
               EnqueueFailed(EnqueueFailedMessage, id), Some(msg))
      case Returned(_) =>
        Upload(created, Accepted(AcceptedMessage(n, id), id, t, n, Pending), Some(msg))
  }

  /** The route handler, writing to the job store. */
  method HandleUpload(jobStore: JobStore, entityType: string, body: RequestBody, events: seq<CsvEvent>,
                      store: Store, publish: PublishOutcome, now: int)
    returns (response: Response, published: Option<JobMessage>)
    requires jobStore.Valid()
    modifies jobStore
    ensures jobStore.Valid()
    ensures var u := UploadSpec(old(jobStore.jobs), entityType, body, events, store, publish, now);
            jobStore.jobs == u.jobs && response == u.response && published == u.published
  {
    var parsedType := ParseEntityType(entityType);
    if parsedType.None? {
      return BadRequest(InvalidTypeMessage(entityType), []), None;
    }
    var t := parsedType.value;
    var gate := CheckGate(t, ConfigOf(t), body, events, store);
    response, published := ApplyGate(jobStore, gate, publish, now);
  }

  /** The handler past the gate: answer a rejection, or create the job and publish it. */
  method ApplyGate(jobStore: JobStore, gate: Gate, publish: PublishOutcome, now: int)
    returns (response: Response, published: Option<JobMessage>)
    requires jobStore.Valid()
    modifies jobStore
    ensures jobStore.Valid()
    ensures var u := UploadAfter(old(jobStore.jobs), gate, publish, now);
            jobStore.jobs == u.jobs && response == u.response && published == u.published
  {
    if gate.Reject? {
      return gate.response, None;
    }
    var t := gate.entityType;
    var job := jobStore.CreateJob(t, gate.rowCount, None);
    published := Some(MessageFor(job.id, t, gate.rowCount, gate.csv));
    match publish {
      case PublishThrew(message) =>
        jobStore.MarkJobFailed(job.id, "Failed to enqueue: " + message, now);
        response := EnqueueFailed(EnqueueFailedMessage, job.id);
      case Returned(_) =>
        response := Accepted(AcceptedMessage(gate.rowCount, job.id), job.id, t, gate.rowCount, Pending);
    }
  }

  // ----- the gate -----

  /** Past the entity type, the gate lets a request through exactly when every later check passes. */
  lemma GateForAdmitsIff(t: EntityType, config: EntityConfig, body: RequestBody, events: seq<CsvEvent>, store: Store)
    ensures GateFor(t, config, body, events, store).Admit? <==> Passes(config, body, events, store)
    ensures GateFor(t, config, body, events, store).Admit? ==>
              GateFor(t, config, body, events, store).rowCount == |ParseSpec(events, config.expectedHeaders).rows|
  {
    var missing := Missing(config.preconditions, store);
    MissingMembers(config.preconditions, store);
    if missing != [] {
      assert missing[0] in missing;
    }
  }

  /**
   * The gate lets a request through exactly when every check passes: the
   * entity type is one of the six, the body carries CSV text that is not
   * blank, parsing reports no error, there is at least one data row, and
   * every required model has a document.
   */
  lemma GateAdmitsIff(entityType: string, body: RequestBody, events: seq<CsvEvent>, store: Store)
    ensures GateSpec(entityType, body, events, store).Admit? <==>
              exists t: EntityType :: EntityTypeName(t) == entityType && Passes(ConfigOf(t), body, events, store)
  {
    match ParseEntityType(entityType)
    case None =>
    case Some(t) =>
      GateForAdmitsIff(t, ConfigOf(t), body, events, store);
  }

  /** A rejected request changes no job, hands nothing to the queue and answers 400. */
  lemma RejectionCreatesNoJob(jobs: seq<UploadJob>, entityType: string, body: RequestBody, events: seq<CsvEvent>,
                              store: Store, publish: PublishOutcome, now: int)
    requires GateSpec(entityType, body, events, store).Reject?
    ensures var u := UploadSpec(jobs, entityType, body, events, store, publish, now);
            u.jobs == jobs && u.published.None? && u.response.StatusCode() == 400
  {
  }

  /** An unknown entity type is answered before the body is looked at. */
  lemma UnknownTypeRejectedFirst(entityType: string, body: RequestBody, events: seq<CsvEvent>, store: Store)
    requires forall t: EntityType :: EntityTypeName(t) != entityType
    ensures GateSpec(entityType, body, events, store) == Reject(BadRequest(InvalidTypeMessage(entityType), []))
  {
  }

  /** A JSON body whose `csv` is the empty string counts as no CSV at all, not as blank content. */
  lemma EmptyJsonCsvIsMissingBody(t: EntityType, events: seq<CsvEvent>, store: Store)
    ensures GateSpec(EntityTypeName(t), JsonBody(Some("")), events, store) == Reject(BadRequest(NoBodyMessage, []))
    ensures GateSpec(EntityTypeName(t), TextBody(""), events, store) == Reject(BadRequest(EmptyMessage, []))
  {
  }

  /** Parse errors are answered with exactly the parser's errors. */
  lemma ParseErrorsReturnedExactly(t: EntityType, config: EntityConfig, body: RequestBody, events: seq<CsvEvent>, store: Store)
    requires CsvContent(body).Some? && Trim(CsvContent(body).value) != ""
    requires ParseSpec(events, config.expectedHeaders).errors != []
    ensures GateFor(t, config, body, events, store)
            == Reject(BadRequest(ParseFailedMessage, ParseSpec(events, config.expectedHeaders).errors))
  {
  }

  /** The errors listed for the missing models: one per required model with no document, each row 0 and PRECONDITION_FAILED. */
  predicate ListsMissing(errs: seq<IngestionError>, preconditions: seq<string>, store: Store) {
    && (forall m | m in preconditions && !HasAny(store, m) :: MissingModelError(m) in errs)
    && (forall k | 0 <= k < |errs| :: errs[k].row == 0 && errs[k].code == PreconditionFailed
          && exists m | m in preconditions && !HasAny(store, m) :: errs[k] == MissingModelError(m))
  }

  lemma MissingModelErrorsList(preconditions: seq<string>, store: Store)
    ensures ListsMissing(MissingModelErrors(Missing(preconditions, store)), preconditions, store)
  {
    var missing := Missing(preconditions, store);
    var errs := MissingModelErrors(missing);
    MissingMembers(preconditions, store);
    forall m | m in preconditions && !HasAny(store, m)
      ensures MissingModelError(m) in errs
    {
      assert m in missing;
      var k :| 0 <= k < |missing| && missing[k] == m;
      assert errs[k] == MissingModelError(m);
    }
    forall k | 0 <= k < |errs|
      ensures exists m | m in preconditions && !HasAny(store, m) :: errs[k] == MissingModelError(m)
    {
      assert missing[k] in missing;
    }
  }

  /**
   * Past parsing, each required model with no document is listed as a
   * row-0 PRECONDITION_FAILED and no other error is listed.
   */
  lemma MissingPreconditionsListed(t: EntityType, config: EntityConfig, body: RequestBody, events: seq<CsvEvent>, store: Store)
    requires CsvContent(body).Some? && Trim(CsvContent(body).value) != ""
    requires ParseSpec(events, config.expectedHeaders).errors == []
    requires ParseSpec(events, config.expectedHeaders).rows != []
    requires exists m | m in config.preconditions :: !HasAny(store, m)
    ensures var g := GateFor(t, config, body, events, store);
            g.Reject? && g.response.BadRequest? && ListsMissing(g.response.errors, config.preconditions, store)
  {
    MissingRejected(t, CsvContent(body).value, ParseSpec(events, config.expectedHeaders), config.preconditions, store);
    MissingModelErrorsList(config.preconditions, store);
  }

  /** With rows and no parse error, a missing required model is answered with the list of missing models. */
  lemma MissingRejected(t: EntityType, csv: string, parsed: CsvParseResult, preconditions: seq<string>, store: Store)
    requires parsed.errors == [] && parsed.rows != []
    requires exists m | m in preconditions :: !HasAny(store, m)
    ensures var missing := Missing(preconditions, store);
            GateOnParse(t, csv, parsed, missing) == Reject(BadRequest(PreconditionMessage(missing), MissingModelErrors(missing)))
  {
    MissingMembers(preconditions, store);
    var m :| m in preconditions && !HasAny(store, m);
    assert m in Missing(preconditions, store);
  }

  /**
   * Only class, subject, room and teacher imports never hit the precondition
   * gate; student imports need a class, timetable imports a class, a
   * teacher, a subject and a room.
   */
  lemma PreconditionGateOnlyForDependentImports(t: EntityType, store: Store)
    ensures Missing(ConfigOf(t).preconditions, store) != [] ==> t == StudentImport || t == TimetableImport
  {
  }

  /** The gate's check of required models agrees with the one the import repeats when the worker runs it. */
  lemma GateAgreesWithImportPreconditions(t: EntityType, store: Store)
    ensures Missing(ConfigOf(t).preconditions, store) == [] <==>
              Pipeline.PreconditionErrors(ConfigOf(t).preconditions, store) == []
  {
    MissingMembers(ConfigOf(t).preconditions, store);
    if Missing(ConfigOf(t).preconditions, store) != [] {
      var m := Missing(ConfigOf(t).preconditions, store)[0];
      assert m in Missing(ConfigOf(t).preconditions, store);
    }
  }

  // ----- the job and the queue -----

  /**
   * A request through the gate creates exactly one job, the next id, PENDING
   * with `total_rows` the parsed row count, and hands `publishJob` a message
   * naming that job, its entity type and row count. Unless publishing throws,
   * the answer is 202 with status PENDING.
   */
  lemma AdmittedCreatesPendingJob(jobs: seq<UploadJob>, entityType: string, body: RequestBody, events: seq<CsvEvent>,
                                  store: Store, sent: bool, now: int)
    requires GateSpec(entityType, body, events, store).Admit?
    ensures var g := GateSpec(entityType, body, events, store);
            var u := UploadSpec(jobs, entityType, body, events, store, Returned(sent), now);
            && u.jobs == jobs + [NewJob(|jobs|, g.entityType, g.rowCount, None)]
            && u.jobs[|jobs|].status == Pending && u.jobs[|jobs|].totalRows == g.rowCount
            && g.rowCount == |ParseSpec(events, ConfigOf(g.entityType).expectedHeaders).rows| > 0
            && u.response.StatusCode() == 202 && u.response.status == Pending
            && u.published == Some(JobMessage(|jobs|, entityType, g.rowCount, g.csv))
  {
    var g := GateSpec(entityType, body, events, store);
    AdmittedPassesImport(entityType, body, events, store);
    AdmitCreatesJob(jobs, g, sent, now);
  }

  /** Past the gate, a publish that returns leaves one new PENDING job and a 202. */
  lemma AdmitCreatesJob(jobs: seq<UploadJob>, g: Gate, sent: bool, now: int)
    requires g.Admit?
    ensures var u := UploadAfter(jobs, g, Returned(sent), now);
            && u.jobs == jobs + [NewJob(|jobs|, g.entityType, g.rowCount, None)]
            && u.jobs[|jobs|].status == Pending && u.jobs[|jobs|].totalRows == g.rowCount
            && u.response.StatusCode() == 202 && u.response.status == Pending
            && u.published == Some(JobMessage(|jobs|, EntityTypeName(g.entityType), g.rowCount, g.csv))
  {
  }

  /** When `publishJob` throws, the job just created is marked FAILED with the reason and the answer is 500. */
  lemma PublishFailureFailsJob(jobs: seq<UploadJob>, entityType: string, body: RequestBody, events: seq<CsvEvent>,
                               store: Store, message: string, now: int)
    requires GateSpec(entityType, body, events, store).Admit?
    ensures var u := UploadSpec(jobs, entityType, body, events, store, PublishThrew(message), now);
            && |u.jobs| == |jobs| + 1 && u.jobs[..|jobs|] == jobs
            && u.jobs[|jobs|].status == JobStatus.Failed
            && u.jobs[|jobs|].rowErrors == [FailureError("Failed to enqueue: " + message)]
            && u.response.StatusCode() == 500 && u.response.jobId == |jobs|
  {
  }

  /** Back-pressure is not checked: a `false` from `publishJob` is answered exactly as a `true`. */
  lemma BackPressureIgnored(jobs: seq<UploadJob>, entityType: string, body: RequestBody, events: seq<CsvEvent>,
                            store: Store, now: int)
    ensures UploadSpec(jobs, entityType, body, events, store, Returned(false), now)
            == UploadSpec(jobs, entityType, body, events, store, Returned(true), now)
  {
  }

  /**
   * From upload to worker: when the queue delivers the published message
   * with the publisher's initial retry count 0, the worker looks up the
   * config registered for that type, and the import of the same events
   * against that config finishes with no job-store write failing, the
   * job ends COMPLETED with every row it was created for processed.
   */
  lemma AcceptedUploadProcessesEveryRow(jobs: seq<UploadJob>, entityType: string, body: RequestBody,
                                        events: seq<CsvEvent>, store: Store, sent: bool, now: int,
                                        registry: map<EntityType, EntityConfig>, content: string,
                                        schema: Schema, persist: Pipeline.Persist, later: int)
    requires GateSpec(entityType, body, events, store).Admit?
    requires var t := GateSpec(entityType, body, events, store).entityType;
             t in registry && registry[t] == ConfigOf(t)
    ensures var t := GateSpec(entityType, body, events, store).entityType;
            var u := UploadSpec(jobs, entityType, body, events, store, Returned(sent), now);
            var (result, progress) := Pipeline.IngestSpec(events, ConfigOf(t), schema, persist, store);
            var h := HandleSpec(u.jobs, registry, Delivery(content, u.published, Some(0)),
                                Finished(result, progress), StoreFaults(None, None, None), later);
            && h.ops == [Ack]
            && h.jobs[|jobs|].status == Completed
            && h.jobs[|jobs|].processedRows == h.jobs[|jobs|].totalRows
  {
    var g := GateSpec(entityType, body, events, store);
    var t := g.entityType;
    AdmittedPassesImport(entityType, body, events, store);
    AdmittedCreatesPendingJob(jobs, entityType, body, events, store, sent, now);
    var u := UploadSpec(jobs, entityType, body, events, store, Returned(sent), now);
    var d := Delivery(content, u.published, Some(0));
    assert LookupConfig(registry, d.body.value.entityType) == Some(ConfigOf(t));
    CompletedJobAccountsForEveryRow(u.jobs, registry, d, events, ConfigOf(t), schema, persist, store, later);
    var (result, progress) := Pipeline.IngestSpec(events, ConfigOf(t), schema, persist, store);
    SuccessCompletesAndAcks(u.jobs, registry, d, result, progress, StoreFaults(None, None, None), later);
  }

  /** What the gate established about an admitted request, restated for the import the worker runs. */
  lemma AdmittedPassesImport(entityType: string, body: RequestBody, events: seq<CsvEvent>, store: Store)
    requires GateSpec(entityType, body, events, store).Admit?
    ensures var g := GateSpec(entityType, body, events, store);
            && ParseEntityType(entityType) == Some(g.entityType)
            && ParseSpec(events, ConfigOf(g.entityType).expectedHeaders).errors == []
            && g.rowCount == |ParseSpec(events, ConfigOf(g.entityType).expectedHeaders).rows| > 0
            && (forall m | m in ConfigOf(g.entityType).preconditions :: HasAny(store, m))
  {
    var t := ParseEntityType(entityType).value;
    GateForAdmitsIff(t, ConfigOf(t), body, events, store);
  }
}
