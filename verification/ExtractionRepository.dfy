/** The repository over mutable tables: each call updates rows in place as the session does. */
module ExtractionRepository {
  import opened Wrappers
  import opened ExtractionJobs

  class ExtractionJobRepository {
    var jobs: map<JobId, Job>
    var byKey: map<JobKey, JobId>
    var attempts: seq<Attempt>
    var artifacts: seq<Artifact>

    constructor ()
      ensures Tables() == EMPTY
    {
      jobs, byKey, attempts, artifacts := map[], map[], [], [];
    }

    function Tables(): Db
      reads this
    {
      Db(jobs, byKey, attempts, artifacts)
    }

    /** `id` is the identifier the row would get. */
    method CreateJob(id: JobId, spec: JobSpec, authorized: bool) returns (answer: Answer)
      modifies this
      ensures (answer, Tables()) == Create(old(Tables()), id, spec, authorized)
    {
      if !authorized {
        return Raised(Unauthorized);
      }
      if JobKey(spec) in byKey {
        var known := byKey[JobKey(spec)];
        if known in jobs && jobs[known].spec == spec {
          return JobIs(known, false);
        }
        return Raised(KeyMismatch);
      }
      if id in jobs {
        return Raised(IdTaken);
      }
      jobs := jobs[id := Job(spec, Queued, 0, None, None, None, None)];
      byKey := byKey[JobKey(spec) := id];
      answer := JobIs(id, true);
    }

    method StartAttempt(j: JobId, now: Time) returns (answer: Answer)
      modifies this
      ensures (answer, Tables()) == Start(old(Tables()), j, now)
    {
      if j !in jobs {
        return Raised(JobNotFound);
      }
      if jobs[j].status != Queued && jobs[j].status != JobFailed {
        return Raised(WrongState);
      }
      jobs := jobs[j := jobs[j].(status := Running)];
      jobs := jobs[j := jobs[j].(attemptCount := jobs[j].attemptCount + 1)];
      jobs := jobs[j := jobs[j].(resultChecksum := None, errorCode := None)];
      jobs := jobs[j := jobs[j].(startedAt := Some(now), finishedAt := None)];
      assert jobs == old(jobs)[j := jobs[j]];
      answer := Started(jobs[j].attemptCount);
    }

    method SucceedAttempt(j: JobId, n: int, checksum: Option<Checksum>, now: Time) returns (answer: Answer)
      modifies this
      ensures (answer, Tables()) == Finish(old(Tables()), j, n, Outcome.Success(checksum), now)
    {
      if checksum.None? {
        return Raised(BadChecksum);
      }
      answer := FinishAttempt(j, n, Succeeded, checksum, None, now);
    }

    method FailAttempt(j: JobId, n: int, code: string, now: Time) returns (answer: Answer)
      modifies this
      ensures (answer, Tables()) == Finish(old(Tables()), j, n, Outcome.Failure(code), now)
    {
      if SafeErrorCode(code).None? {
        return Raised(BadErrorCode);
      }
      answer := FinishAttempt(j, n, Failed, None, SafeErrorCode(code), now);
    }

    method FinishAttempt(j: JobId, n: int, status: AttemptStatus, checksum: Option<Checksum>,
                         code: Option<string>, now: Time) returns (answer: Answer)
      modifies this
      ensures (answer, Tables()) == FinishWith(old(Tables()), j, n, status, checksum, code, now)
    {
      hide FindAttempt, HasArtifact;
      if n <= 0 {
        return Raised(BadNumber);
      }
      if j !in jobs {
        return Raised(JobNotFound);
      }
      var existing := FindAttempt(attempts, j, n);
      if existing.Some? {
        var a := existing.value;
        if a.status == status && a.resultChecksum == checksum && a.errorCode == code {
          if status == Succeeded && !HasArtifact(Tables(), j, checksum) {
            return Raised(ArtifactMissing);
          }
          return Finished(a);
        }
        return Raised(OtherOutcome);
      }
      if jobs[j].status != Running {
        return Raised(WrongState);
      }
      if jobs[j].attemptCount != n || jobs[j].startedAt.None? {
        return Raised(NotActiveAttempt);
      }
      if status == Succeeded && !HasArtifact(Tables(), j, checksum) {
        return Raised(ArtifactMissing);
      }
      if now < jobs[j].startedAt.value {
        return Raised(EndsBeforeStart);
      }
      var attempt := Attempt(j, n, status, checksum, code, jobs[j].startedAt.value, now);
      attempts := attempts + [attempt];
      jobs := jobs[j := jobs[j].(status := if status == Succeeded then JobSucceeded else JobFailed)];
      jobs := jobs[j := jobs[j].(resultChecksum := checksum, errorCode := code)];
      jobs := jobs[j := jobs[j].(finishedAt := Some(now))];
      assert jobs == old(jobs)[j := jobs[j]];
      answer := Finished(attempt);
    }

    method StoreProposalArtifact(j: JobId, proposalId: nat, runId: string, schemaVersion: string,
                                 payload: Option<string>, checksum: Option<Checksum>) returns (answer: Answer)
      modifies this
      ensures (answer, Tables()) == Store(old(Tables()), j, proposalId, runId, schemaVersion, payload, checksum)
    {
      hide FindArtifact, BoundedText;
      if j !in jobs {
        return Raised(JobNotFound);
      }
      if payload.None? {
        return Raised(UnsafePayload);
      }
      if checksum.None? {
        return Raised(BadChecksum);
      }
      if checksum.value != Sha256(payload.value) {
        return Raised(ChecksumMismatch);
      }
      var run, schema := BoundedText(runId, 255), BoundedText(schemaVersion, 120);
      if run.None? || schema.None? {
        return Raised(BadText);
      }
      var existing := FindArtifact(artifacts, j);
      if existing.Some? {
        var a := existing.value;
        if a.job == j && a.sourceVersion == jobs[j].spec.sourceVersion && a.proposalId == proposalId
           && a.runId == run.value && a.schemaVersion == schema.value && a.payloadChecksum == checksum.value
           && a.payload == payload.value && a.sensitivity == jobs[j].spec.sensitivity {
          return Stored(a, false);
        }
        return Raised(OtherArtifact);
      }
      if jobs[j].status != Running || jobs[j].attemptCount == 0 {
        return Raised(WrongState);
      }
      var artifact := Artifact(j, jobs[j].spec.sourceVersion, jobs[j].attemptCount, proposalId, run.value,
                               schema.value, payload.value, checksum.value, jobs[j].spec.sensitivity);
      artifacts := artifacts + [artifact];
      answer := Stored(artifact, true);
    }
  }
}
