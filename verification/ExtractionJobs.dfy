/**
 Extraction jobs: numbered append-only attempts, one write-once proposal artifact, and
 completion calls that may arrive late or twice (persistence/extraction_jobs.py). Calls are
 atomic here and a rolled-back call is one that did not happen: those on an existing job hold its
 row lock to the end of their transaction, and `create_job`, which locks nothing, is reduced to an
 atomic call in JobCreation.
 */
module ExtractionJobs {
  import opened Wrappers
  import opened Vocabulary
  import Text

  type JobId = nat
  type Time = int

  datatype JobStatus = Queued | Running | JobSucceeded | JobFailed
  datatype AttemptStatus = Succeeded | Failed

  /** A SHA-256 digest of canonical JSON. */
  datatype Checksum = Sha256(canonical: string)

  /** The source chain and the frozen configuration; the idempotency key digests all of it. */
  datatype JobSpec = JobSpec(
    sourceVersion: nat, review: nat, permission: nat, contentHash: string,
    configuration: string, sensitivity: Sensitivity)
  datatype JobKey = JobKey(spec: JobSpec)

  datatype Job = Job(
    spec: JobSpec, status: JobStatus, attemptCount: nat,
    resultChecksum: Option<Checksum>, errorCode: Option<string>,
    startedAt: Option<Time>, finishedAt: Option<Time>)

  datatype Attempt = Attempt(
    job: JobId, number: nat, status: AttemptStatus,
    resultChecksum: Option<Checksum>, errorCode: Option<string>, startedAt: Time, finishedAt: Time)

  datatype Artifact = Artifact(
    job: JobId, sourceVersion: nat, attemptNumber: nat, proposalId: nat, runId: string,
    schemaVersion: string, payload: string, payloadChecksum: Checksum, sensitivity: Sensitivity)

  /** The tables. `byKey` is the unique index on the idempotency key; attempts and artifacts are in insertion order. */
  datatype Db = Db(jobs: map<JobId, Job>, byKey: map<JobKey, JobId>, attempts: seq<Attempt>, artifacts: seq<Artifact>)

  const EMPTY := Db(map[], map[], [], [])

  datatype Error = Unauthorized | IdTaken | KeyMismatch | JobNotFound | WrongState | BadNumber | OtherOutcome
                 | ArtifactMissing | NotActiveAttempt | EndsBeforeStart | BadChecksum | BadErrorCode
                 | UnsafePayload | ChecksumMismatch | BadText | OtherArtifact | CorruptArtifact

  /** What a worker reports. A checksum or payload that fails its format check is `None`. */
  datatype Outcome = Success(checksum: Option<Checksum>) | Failure(code: string)

  datatype Call =
    | CreateJob(id: JobId, spec: JobSpec, authorized: bool)
    | StartAttempt(job: JobId, now: Time)
    | FinishAttempt(job: JobId, number: int, outcome: Outcome, now: Time)
    | StoreProposal(job: JobId, proposalId: nat, runId: string, schemaVersion: string,
                    payload: Option<string>, checksum: Option<Checksum>)

  datatype Answer =
    | JobIs(id: JobId, created: bool)
    | Started(number: nat)
    | Finished(attempt: Attempt)
    | Stored(artifact: Artifact, created: bool)
    | Raised(error: Error)

  // ----- Queries and validators -----

  /** `select ... where extraction_job_id = j and attempt_number = n`. */
  function FindAttempt(rows: seq<Attempt>, j: JobId, n: int): Option<Attempt>
  {
    if rows == [] then None
    else
      var last := rows[|rows| - 1];
      var found := FindAttempt(rows[..|rows| - 1], j, n);
      if found.Some? then found else if last.job == j && last.number == n then Some(last) else None
  }

  function FindArtifact(rows: seq<Artifact>, j: JobId): Option<Artifact>
  {
    if rows == [] then None
    else
      var last := rows[|rows| - 1];
      var found := FindArtifact(rows[..|rows| - 1], j);
      if found.Some? then found else if last.job == j then Some(last) else None
  }

  /** `list_attempts`, in insertion order. */
  function AttemptsOf(rows: seq<Attempt>, j: JobId): seq<Attempt>
  {
    if rows == [] then []
    else AttemptsOf(rows[..|rows| - 1], j) + (if rows[|rows| - 1].job == j then [rows[|rows| - 1]] else [])
  }

  predicate IsMachineCode(s: string)
  {
    && 1 <= |s| <= 120 && 'a' <= s[0] <= 'z'
    && (forall i :: 0 <= i < |s| ==> 'a' <= s[i] <= 'z' || '0' <= s[i] <= '9' || s[i] == '_')
  }

  /** `_safe_error_code`. */
  function SafeErrorCode(value: string): Option<string>
  {
    if IsMachineCode(Text.Strip(value)) then Some(Text.Strip(value)) else None
  }

  /** `_bounded_text`. */
  function BoundedText(value: string, maximum: nat): Option<string>
  {
    var s := Text.Strip(value);
    if s == [] || |s| > maximum then None else Some(s)
  }

  /** `get_proposal_artifact`: the job's artifact, rechecked against the job and its own checksum. */
  function ProposalArtifact(db: Db, j: JobId): Result<Option<Artifact>, Error>
  {
    var a := FindArtifact(db.artifacts, j);
    if a.None? then Result.Success(None)
    else if j !in db.jobs then Result.Failure(JobNotFound)
    else if a.value.sourceVersion != db.jobs[j].spec.sourceVersion
            || a.value.sensitivity != db.jobs[j].spec.sensitivity
            || Sha256(a.value.payload) != a.value.payloadChecksum then Result.Failure(CorruptArtifact)
    else Result.Success(a)
  }

  predicate HasArtifact(db: Db, j: JobId, checksum: Option<Checksum>)
  {
    var a := ProposalArtifact(db, j);
    a.Success? && a.value.Some? && Some(a.value.value.payloadChecksum) == checksum
  }

  // ----- The calls -----

  function Create(db: Db, id: JobId, spec: JobSpec, authorized: bool): (Answer, Db)
  {
    if !authorized then (Raised(Unauthorized), db)
    else if JobKey(spec) in db.byKey then
      var known := db.byKey[JobKey(spec)];
      if known in db.jobs && db.jobs[known].spec == spec then (JobIs(known, false), db) else (Raised(KeyMismatch), db)
    else if id in db.jobs then (Raised(IdTaken), db)
    else (JobIs(id, true),
          db.(jobs := db.jobs[id := Job(spec, Queued, 0, None, None, None, None)],
              byKey := db.byKey[JobKey(spec) := id]))
  }

  function Start(db: Db, j: JobId, now: Time): (Answer, Db)
  {
    if j !in db.jobs then (Raised(JobNotFound), db)
    else
      var job := db.jobs[j];
      if job.status != Queued && job.status != JobFailed then (Raised(WrongState), db)
      else (Started(job.attemptCount + 1),
            db.(jobs := db.jobs[j := Job(job.spec, Running, job.attemptCount + 1, None, None, Some(now), None)]))
  }

  /** `succeed_attempt` and `fail_attempt` down to `_finish_attempt`. */
  function Finish(db: Db, j: JobId, n: int, outcome: Outcome, now: Time): (Answer, Db)
  {
    match outcome
    case Success(checksum) =>
      if checksum.None? then (Raised(BadChecksum), db) else FinishWith(db, j, n, Succeeded, checksum, None, now)
    case Failure(code) =>
      if SafeErrorCode(code).None? then (Raised(BadErrorCode), db)
      else FinishWith(db, j, n, Failed, None, SafeErrorCode(code), now)
  }

  function FinishWith(db: Db, j: JobId, n: int, status: AttemptStatus, checksum: Option<Checksum>,
                      code: Option<string>, now: Time): (Answer, Db)
  {
    if n <= 0 then (Raised(BadNumber), db)
    else if j !in db.jobs then (Raised(JobNotFound), db)
    else
      var existing := FindAttempt(db.attempts, j, n);
      var job := db.jobs[j];
      if existing.Some? then
        var a := existing.value;
        if a.status != status || a.resultChecksum != checksum || a.errorCode != code then (Raised(OtherOutcome), db)
        else if status == Succeeded && !HasArtifact(db, j, checksum) then (Raised(ArtifactMissing), db)
        else (Finished(a), db)
      else if job.status != Running then (Raised(WrongState), db)
      else if job.attemptCount != n || job.startedAt.None? then (Raised(NotActiveAttempt), db)
      else if status == Succeeded && !HasArtifact(db, j, checksum) then (Raised(ArtifactMissing), db)
      else if now < job.startedAt.value then (Raised(EndsBeforeStart), db)
      else
        var a := Attempt(j, n, status, checksum, code, job.startedAt.value, now);
        (Finished(a),
         db.(attempts := db.attempts + [a],
             jobs := db.jobs[j := job.(status := if status == Succeeded then JobSucceeded else JobFailed,
                                       resultChecksum := checksum, errorCode := code, finishedAt := Some(now))]))
  }

  function Store(db: Db, j: JobId, proposalId: nat, runId: string, schemaVersion: string,
                 payload: Option<string>, checksum: Option<Checksum>): (Answer, Db)
  {
    if j !in db.jobs then (Raised(JobNotFound), db)
    else if payload.None? then (Raised(UnsafePayload), db)
    else if checksum.None? then (Raised(BadChecksum), db)
    else if checksum.value != Sha256(payload.value) then (Raised(ChecksumMismatch), db)
    else if BoundedText(runId, 255).None? || BoundedText(schemaVersion, 120).None? then (Raised(BadText), db)
    else
      var job := db.jobs[j];
      var wanted := Artifact(j, job.spec.sourceVersion, job.attemptCount, proposalId,
                             BoundedText(runId, 255).value, BoundedText(schemaVersion, 120).value,
                             payload.value, checksum.value, job.spec.sensitivity);
      var existing := FindArtifact(db.artifacts, j);
      if existing.Some? then
        // a replay must match in everything but the attempt that wrote it
        if existing.value.(attemptNumber := wanted.attemptNumber) == wanted then (Stored(existing.value, false), db)
        else (Raised(OtherArtifact), db)
      else if job.status != Running || job.attemptCount == 0 then (Raised(WrongState), db)
      else (Stored(wanted, true), db.(artifacts := db.artifacts + [wanted]))
  }

  function Apply(db: Db, call: Call): (Answer, Db)
  {
    match call
    case CreateJob(id, spec, authorized) => Create(db, id, spec, authorized)
    case StartAttempt(j, now) => Start(db, j, now)
    case FinishAttempt(j, n, outcome, now) => Finish(db, j, n, outcome, now)
    case StoreProposal(j, p, run, schema, payload, checksum) => Store(db, j, p, run, schema, payload, checksum)
  }

  function Run(db: Db, calls: seq<Call>): Db
  {
    if calls == [] then db else Apply(Run(db, calls[..|calls| - 1]), calls[|calls| - 1]).1
  }
}
