/** What every run of repository calls keeps, in any order and with late or repeated workers. */
module ExtractionLifecycle {
  import opened Wrappers
  import opened ExtractionJobs

  // ----- The whole-run invariant -----

  /** The attempts recorded for a job whose row is `job`. */
  ghost predicate History(job: Job, a: seq<Attempt>)
  {
    // numbered 1, 2, ... without a gap; the running one has no row yet
    && |a| == (if job.status == Running then job.attemptCount - 1 else job.attemptCount)
    && (forall i :: 0 <= i < |a| ==> a[i].number == i + 1)
    // only the last attempt of a succeeded job succeeded
    && (forall i :: 0 <= i < |a| ==>
          (a[i].status == Succeeded <==> i == |a| - 1 && job.status == JobSucceeded))
    // the row mirrors the last attempt whenever no attempt is running
    && (job.status == JobSucceeded || job.status == JobFailed ==>
          |a| > 0 && job.resultChecksum == a[|a| - 1].resultChecksum && job.errorCode == a[|a| - 1].errorCode
          && job.startedAt == Some(a[|a| - 1].startedAt) && job.finishedAt == Some(a[|a| - 1].finishedAt))
    && (job.status == Queued ==> job.attemptCount == 0 && job.startedAt.None?)
    && (job.status == Running ==> job.attemptCount > 0 && job.startedAt.Some?)
    && (job.status == Queued || job.status == Running ==>
          job.resultChecksum.None? && job.errorCode.None? && job.finishedAt.None?)
  }

  predicate WellFormed(a: Attempt)
  {
    && a.startedAt <= a.finishedAt
    && match a.status
       case Succeeded => a.resultChecksum.Some? && a.errorCode.None?
       case Failed => a.resultChecksum.None? && a.errorCode.Some? && IsMachineCode(a.errorCode.value)
  }

  /** The job's one artifact fits its row, and carries the result of a succeeded job. */
  ghost predicate ArtifactFits(db: Db, j: JobId)
    requires j in db.jobs
  {
    var found := FindArtifact(db.artifacts, j);
    && (found.Some? ==>
          && found.value.sourceVersion == db.jobs[j].spec.sourceVersion
          && found.value.sensitivity == db.jobs[j].spec.sensitivity
          && found.value.payloadChecksum == Sha256(found.value.payload)
          && 1 <= found.value.attemptNumber <= db.jobs[j].attemptCount)
    && (db.jobs[j].status == JobSucceeded ==>
          found.Some? && db.jobs[j].resultChecksum == Some(found.value.payloadChecksum))
  }

  ghost predicate JobInv(db: Db, j: JobId)
    requires j in db.jobs
  {
    && History(db.jobs[j], AttemptsOf(db.attempts, j))
    && ArtifactFits(db, j)
    && JobKey(db.jobs[j].spec) in db.byKey && db.byKey[JobKey(db.jobs[j].spec)] == j
  }

  ghost predicate Inv(db: Db)
  {
    && (forall j :: j in db.jobs ==> JobInv(db, j))
    && (forall i :: 0 <= i < |db.attempts| ==> db.attempts[i].job in db.jobs && WellFormed(db.attempts[i]))
    && (forall i :: 0 <= i < |db.artifacts| ==> db.artifacts[i].job in db.jobs)
    && (forall i, k :: 0 <= i < k < |db.artifacts| ==> db.artifacts[i].job != db.artifacts[k].job)
    && (forall k :: k in db.byKey ==> db.byKey[k] in db.jobs && db.jobs[db.byKey[k]].spec == k.spec)
  }

  // ----- Lookups against the recorded rows -----

  lemma {:induction false} AttemptsAreRows(rows: seq<Attempt>, j: JobId, i: nat)
    requires i < |AttemptsOf(rows, j)|
    ensures AttemptsOf(rows, j)[i] in rows && AttemptsOf(rows, j)[i].job == j
  {
    var init := rows[..|rows| - 1];
    if i < |AttemptsOf(init, j)| {
      AttemptsAreRows(init, j, i);
    }
  }

  lemma {:induction false} NoRowsNoAttempts(rows: seq<Attempt>, j: JobId)
    requires forall i :: 0 <= i < |rows| ==> rows[i].job != j
    ensures AttemptsOf(rows, j) == []
  {
    if rows != [] {
      NoRowsNoAttempts(rows[..|rows| - 1], j);
    }
  }

  /** With numbers 1, 2, ... the lookup finds attempt `n` exactly when it is among them. */
  lemma {:induction false} FindIsIndex(rows: seq<Attempt>, j: JobId, n: int)
    requires forall i :: 0 <= i < |AttemptsOf(rows, j)| ==> AttemptsOf(rows, j)[i].number == i + 1
    ensures FindAttempt(rows, j, n)
         == if 1 <= n <= |AttemptsOf(rows, j)| then Some(AttemptsOf(rows, j)[n - 1]) else None
  {
    if rows != [] {
      var init := rows[..|rows| - 1];
      var a, b := AttemptsOf(rows, j), AttemptsOf(init, j);
      assert forall i :: 0 <= i < |b| ==> a[i] == b[i];
      FindIsIndex(init, j, n);
      if rows[|rows| - 1].job == j {
        assert a == b + [rows[|rows| - 1]];
        assert a[|b|] == rows[|rows| - 1] && a[|b|].number == |b| + 1;
      } else {
        assert a == b;
      }
    }
  }

  lemma {:induction false} FoundIsRow(rows: seq<Artifact>, j: JobId)
    ensures FindArtifact(rows, j).Some? ==> FindArtifact(rows, j).value in rows && FindArtifact(rows, j).value.job == j
    ensures FindArtifact(rows, j).None? ==> forall i :: 0 <= i < |rows| ==> rows[i].job != j
  {
    if rows != [] {
      FoundIsRow(rows[..|rows| - 1], j);
    }
  }

  // ----- Every call keeps the invariant -----

  lemma CreateKeepsInv(db: Db, id: JobId, spec: JobSpec, authorized: bool)
    requires Inv(db)
    ensures Inv(Create(db, id, spec, authorized).1)
  {
    var after := Create(db, id, spec, authorized).1;
    if after != db {
      FoundIsRow(db.artifacts, id);
      NoRowsNoAttempts(db.attempts, id);
      forall j | j in after.jobs ensures JobInv(after, j) {
        if j != id {
          assert JobInv(db, j);
          assert db.jobs[j].spec != spec;
        }
      }
    }
  }

  lemma StartKeepsInv(db: Db, j: JobId, now: Time)
    requires Inv(db)
    ensures Inv(Start(db, j, now).1)
  {
    var after := Start(db, j, now).1;
    if after != db {
      forall k | k in after.jobs ensures JobInv(after, k) {
        assert JobInv(db, k);
      }
    }
  }

  lemma AppendAttempt(rows: seq<Attempt>, a: Attempt, j: JobId)
    ensures AttemptsOf(rows + [a], j) == if a.job == j then AttemptsOf(rows, j) + [a] else AttemptsOf(rows, j)
  {
    assert (rows + [a])[..|rows|] == rows;
  }

  lemma AppendArtifact(rows: seq<Artifact>, a: Artifact, j: JobId)
    ensures FindArtifact(rows + [a], j)
         == if FindArtifact(rows, j).Some? then FindArtifact(rows, j) else if a.job == j then Some(a) else None
  {
    assert (rows + [a])[..|rows|] == rows;
  }

  /** A call that leaves a job's row, its attempts and the artifacts alone leaves its invariant alone. */
  lemma OtherJobKeeps(db: Db, after: Db, k: JobId)
    requires k in db.jobs && JobInv(db, k) && k in after.jobs && after.jobs[k] == db.jobs[k]
    requires AttemptsOf(after.attempts, k) == AttemptsOf(db.attempts, k)
    requires FindArtifact(after.artifacts, k) == FindArtifact(db.artifacts, k) && after.byKey == db.byKey
    ensures JobInv(after, k)
  {
    hide AttemptsOf, FindArtifact;
  }

  ghost predicate FitsStatus(status: AttemptStatus, checksum: Option<Checksum>, code: Option<string>)
  {
    if status == Succeeded then checksum.Some? && code.None?
    else checksum.None? && code.Some? && IsMachineCode(code.value)
  }

  lemma FinishedJobInv(db: Db, j: JobId, n: int, status: AttemptStatus, checksum: Option<Checksum>,
                       code: Option<string>, now: Time)
    requires j in db.jobs && JobInv(db, j) && FitsStatus(status, checksum, code)
    requires FinishWith(db, j, n, status, checksum, code, now).1 != db
    ensures JobInv(FinishWith(db, j, n, status, checksum, code, now).1, j)
  {
    hide AttemptsOf, FindArtifact, FindAttempt, IsMachineCode;
    var after := FinishWith(db, j, n, status, checksum, code, now).1;
    AppendAttempt(db.attempts, after.attempts[|db.attempts|], j);
  }

  lemma FinishKeepsInv(db: Db, j: JobId, n: int, status: AttemptStatus, checksum: Option<Checksum>,
                       code: Option<string>, now: Time)
    requires Inv(db) && FitsStatus(status, checksum, code)
    ensures Inv(FinishWith(db, j, n, status, checksum, code, now).1)
  {
    hide AttemptsOf, FindArtifact, FindAttempt, JobInv, HasArtifact, IsMachineCode;
    var after := FinishWith(db, j, n, status, checksum, code, now).1;
    if after != db {
      FinishedJobInv(db, j, n, status, checksum, code, now);
      forall k | k in after.jobs && k != j ensures JobInv(after, k) {
        AppendAttempt(db.attempts, after.attempts[|db.attempts|], k);
        OtherJobKeeps(db, after, k);
      }
    }
  }

  lemma StoredJobInv(db: Db, j: JobId, proposalId: nat, runId: string, schemaVersion: string,
                     payload: Option<string>, checksum: Option<Checksum>)
    requires j in db.jobs && JobInv(db, j)
    requires Store(db, j, proposalId, runId, schemaVersion, payload, checksum).1 != db
    ensures JobInv(Store(db, j, proposalId, runId, schemaVersion, payload, checksum).1, j)
  {
    hide AttemptsOf, FindArtifact, BoundedText;
    var after := Store(db, j, proposalId, runId, schemaVersion, payload, checksum).1;
    AppendArtifact(db.artifacts, after.artifacts[|db.artifacts|], j);
  }

  lemma StoreKeepsInv(db: Db, j: JobId, proposalId: nat, runId: string, schemaVersion: string,
                      payload: Option<string>, checksum: Option<Checksum>)
    requires Inv(db)
    ensures Inv(Store(db, j, proposalId, runId, schemaVersion, payload, checksum).1)
  {
    hide AttemptsOf, FindArtifact, JobInv, BoundedText, WellFormed;
    var after := Store(db, j, proposalId, runId, schemaVersion, payload, checksum).1;
    if after != db {
      FoundIsRow(db.artifacts, j);
      StoredJobInv(db, j, proposalId, runId, schemaVersion, payload, checksum);
      forall k | k in after.jobs && k != j ensures JobInv(after, k) {
        AppendArtifact(db.artifacts, after.artifacts[|db.artifacts|], k);
        OtherJobKeeps(db, after, k);
      }
    }
  }

  lemma SafeCodeIsMachineCode(value: string)
    ensures SafeErrorCode(value).Some? ==> IsMachineCode(SafeErrorCode(value).value)
  {
  }

  lemma ApplyKeepsInv(db: Db, call: Call)
    requires Inv(db)
    ensures Inv(Apply(db, call).1)
  {
    hide Inv, FinishWith, IsMachineCode;
    match call
    case CreateJob(id, spec, authorized) => CreateKeepsInv(db, id, spec, authorized);
    case StartAttempt(j, now) => StartKeepsInv(db, j, now);
    case FinishAttempt(j, n, outcome, now) =>
      if outcome.Success? {
        if outcome.checksum.Some? {
          FinishKeepsInv(db, j, n, Succeeded, outcome.checksum, None, now);
        }
      } else if SafeErrorCode(outcome.code).Some? {
        SafeCodeIsMachineCode(outcome.code);
        FinishKeepsInv(db, j, n, Failed, None, SafeErrorCode(outcome.code), now);
      }
    case StoreProposal(j, p, run, schema, payload, checksum) => StoreKeepsInv(db, j, p, run, schema, payload, checksum);
  }

  /** The invariant holds after every run of calls from empty tables. */
  lemma {:induction false} EveryRunKeepsInv(calls: seq<Call>)
    ensures Inv(Run(EMPTY, calls))
  {
    if calls != [] {
      EveryRunKeepsInv(calls[..|calls| - 1]);
      ApplyKeepsInv(Run(EMPTY, calls[..|calls| - 1]), calls[|calls| - 1]);
    }
  }

  // ----- Late and repeated workers -----

  /** The report says what attempt `a` is recorded to have done. */
  predicate Reports(outcome: Outcome, a: Attempt)
  {
    match outcome
    case Success(checksum) => checksum.Some? && a.status == Succeeded && a.resultChecksum == checksum
    case Failure(code) => SafeErrorCode(code).Some? && a.status == Failed && a.errorCode == SafeErrorCode(code)
  }

  lemma FoundFacts(db: Db, j: JobId, n: int)
    requires Inv(db) && FindAttempt(db.attempts, j, n).Some?
    ensures var a := FindAttempt(db.attempts, j, n).value;
      && n > 0 && j in db.jobs && WellFormed(a)
      && (a.status == Succeeded ==> HasArtifact(db, j, a.resultChecksum))
  {
    hide FindAttempt, WellFormed, IsMachineCode, AttemptsOf;
    FindIsRow(db.attempts, j, n);
    assert JobInv(db, j);
    FindIsIndex(db.attempts, j, n);
  }

  lemma {:induction false} FindIsRow(rows: seq<Attempt>, j: JobId, n: int)
    requires FindAttempt(rows, j, n).Some?
    ensures var a := FindAttempt(rows, j, n).value; a in rows && a.job == j && a.number == n
  {
    if FindAttempt(rows[..|rows| - 1], j, n).Some? {
      FindIsRow(rows[..|rows| - 1], j, n);
    }
  }

  /**
   A completion call for an attempt that already ended changes nothing. It returns the stored outcome
   exactly when it reports that outcome, and raises otherwise.
   */
  lemma LateCompletion(db: Db, j: JobId, n: int, outcome: Outcome, now: Time)
    requires Inv(db) && FindAttempt(db.attempts, j, n).Some?
    ensures var a := FindAttempt(db.attempts, j, n).value;
      var (answer, after) := Apply(db, FinishAttempt(j, n, outcome, now));
      after == db && (if Reports(outcome, a) then answer == Finished(a) else answer.Raised?)
  {
    hide Inv, FindAttempt, SafeErrorCode, HasArtifact, IsMachineCode;
    FoundFacts(db, j, n);
  }

  /** Whoever reports, only the running attempt can be ended, and only once; its one row is all that is added. */
  lemma OnlyTheActiveAttemptEnds(db: Db, j: JobId, n: int, outcome: Outcome, now: Time)
    requires Inv(db) && Apply(db, FinishAttempt(j, n, outcome, now)).1 != db
    ensures j in db.jobs && db.jobs[j].status == Running && n == db.jobs[j].attemptCount
    ensures FindAttempt(db.attempts, j, n).None?
    ensures var (answer, after) := Apply(db, FinishAttempt(j, n, outcome, now));
      && answer.Finished? && Reports(outcome, answer.attempt)
      && answer.attempt.job == j && answer.attempt.number == n
      && Some(answer.attempt.startedAt) == db.jobs[j].startedAt && answer.attempt.finishedAt == now
      && after.attempts == db.attempts + [answer.attempt]
      && FindAttempt(after.attempts, j, n) == Some(answer.attempt)
      && after.artifacts == db.artifacts && after.byKey == db.byKey && after.jobs.Keys == db.jobs.Keys
      && (forall k :: k in db.jobs && k != j ==> after.jobs[k] == db.jobs[k])
      && RowEnds(db.jobs[j], after.jobs[j], answer.attempt)
  {
    hide Inv, FindAttempt, SafeErrorCode, HasArtifact, IsMachineCode;
    var answer := Apply(db, FinishAttempt(j, n, outcome, now)).0;
    FindLast(db.attempts, answer.attempt);
  }

  lemma FindLast(rows: seq<Attempt>, a: Attempt)
    requires FindAttempt(rows, a.job, a.number).None?
    ensures FindAttempt(rows + [a], a.job, a.number) == Some(a)
  {
    assert (rows + [a])[..|rows|] == rows;
  }

  /** The job's row takes the attempt's outcome and keeps the rest. */
  predicate RowEnds(before: Job, after: Job, a: Attempt)
  {
    && after.spec == before.spec && after.attemptCount == before.attemptCount && after.startedAt == before.startedAt
    && after.status == (if a.status == Succeeded then JobSucceeded else JobFailed)
    && after.resultChecksum == a.resultChecksum && after.errorCode == a.errorCode
    && after.finishedAt == Some(a.finishedAt)
  }

  predicate RowExtends(before: Job, after: Job)
  {
    && before.spec == after.spec && before.attemptCount <= after.attemptCount
    && (before.status == JobSucceeded ==> before == after)
  }

  /** Rows are only ever added; specifications and finished rows stay. */
  ghost predicate Extends(db: Db, after: Db)
  {
    && db.attempts <= after.attempts && db.artifacts <= after.artifacts
    && (forall j :: j in db.jobs ==> j in after.jobs && RowExtends(db.jobs[j], after.jobs[j]))
    && (forall k :: k in db.byKey ==> k in after.byKey && after.byKey[k] == db.byKey[k])
  }

  lemma ApplyExtends(db: Db, call: Call)
    ensures Extends(db, Apply(db, call).1)
  {
    hide FindAttempt, FindArtifact, BoundedText, SafeErrorCode, HasArtifact;
  }

  lemma {:induction false} RunExtends(db: Db, calls: seq<Call>)
    requires Inv(db)
    ensures Inv(Run(db, calls)) && Extends(db, Run(db, calls))
  {
    hide Inv, Apply;
    if calls != [] {
      var before := Run(db, calls[..|calls| - 1]);
      RunExtends(db, calls[..|calls| - 1]);
      ApplyExtends(before, calls[|calls| - 1]);
      ApplyKeepsInv(before, calls[|calls| - 1]);
    }
  }

  lemma {:induction false} FindSurvives(rows: seq<Attempt>, more: seq<Attempt>, j: JobId, n: int)
    requires rows <= more && FindAttempt(rows, j, n).Some?
    ensures FindAttempt(more, j, n) == FindAttempt(rows, j, n)
  {
    if more == rows {
    } else {
      FindSurvives(rows, more[..|more| - 1], j, n);
    }
  }

  lemma {:induction false} ArtifactSurvives(rows: seq<Artifact>, more: seq<Artifact>, j: JobId)
    requires rows <= more && FindArtifact(rows, j).Some?
    ensures FindArtifact(more, j) == FindArtifact(rows, j)
  {
    if more == rows {
    } else {
      ArtifactSurvives(rows, more[..|more| - 1], j);
    }
  }

  /**
   Write-once: whatever calls come later, in whatever order, the outcome recorded for an attempt stays
   the one recorded, and every later completion call for it is answered by it alone.
   */
  lemma OutcomeIsWriteOnce(db: Db, calls: seq<Call>, j: JobId, n: int, outcome: Outcome, now: Time)
    requires Inv(db) && FindAttempt(db.attempts, j, n).Some?
    ensures var a := FindAttempt(db.attempts, j, n).value;
      var later := Run(db, calls);
      var (answer, after) := Apply(later, FinishAttempt(j, n, outcome, now));
      && FindAttempt(later.attempts, j, n) == Some(a) && after == later
      && (if Reports(outcome, a) then answer == Finished(a) else answer.Raised?)
  {
    hide Inv, Apply, Reports;
    RunExtends(db, calls);
    FindSurvives(db.attempts, Run(db, calls).attempts, j, n);
    LateCompletion(Run(db, calls), j, n, outcome, now);
  }

  /** A stored artifact never changes; storing again returns it or raises, and writes nothing. */
  lemma ArtifactIsWriteOnce(db: Db, calls: seq<Call>, j: JobId, proposalId: nat, runId: string,
                            schemaVersion: string, payload: Option<string>, checksum: Option<Checksum>)
    requires Inv(db) && FindArtifact(db.artifacts, j).Some?
    ensures var artifact := FindArtifact(db.artifacts, j).value;
      var later := Run(db, calls);
      var (answer, after) := Apply(later, StoreProposal(j, proposalId, runId, schemaVersion, payload, checksum));
      && FindArtifact(later.artifacts, j) == Some(artifact) && after == later
      && (answer == Stored(artifact, false) || answer.Raised?)
      && (answer == Stored(artifact, false) ==>
            Some(artifact.payload) == payload && artifact.proposalId == proposalId)
  {
    hide Inv, BoundedText;
    RunExtends(db, calls);
    ArtifactSurvives(db.artifacts, Run(db, calls).artifacts, j);
  }

  /** Success is final: no later call changes the job, records an attempt for it or starts another. */
  lemma SuccessIsFinal(db: Db, calls: seq<Call>, j: JobId)
    requires Inv(db) && j in db.jobs && db.jobs[j].status == JobSucceeded
    ensures var later := Run(db, calls);
      && j in later.jobs && later.jobs[j] == db.jobs[j]
      && AttemptsOf(later.attempts, j) == AttemptsOf(db.attempts, j)
      && FindArtifact(later.artifacts, j) == FindArtifact(db.artifacts, j)
      && Some(FindArtifact(later.artifacts, j).value.payloadChecksum) == later.jobs[j].resultChecksum
  {
    hide Apply, FindAttempt, FindArtifact, AttemptsOf, WellFormed;
    RunExtends(db, calls);
    var later := Run(db, calls);
    assert JobInv(db, j) && JobInv(later, j);
    ArtifactSurvives(db.artifacts, later.artifacts, j);
    AttemptsGrow(db.attempts, later.attempts, j);
  }

  lemma {:induction false} AttemptsGrow(rows: seq<Attempt>, more: seq<Attempt>, j: JobId)
    requires rows <= more
    ensures AttemptsOf(rows, j) <= AttemptsOf(more, j)
  {
    if more != rows {
      AttemptsGrow(rows, more[..|more| - 1], j);
    }
  }

  /** One job for one specification: creating again, with whatever new id, returns the first job. */
  lemma CreateIsIdempotent(db: Db, calls: seq<Call>, id: JobId, other: JobId, spec: JobSpec)
    requires Inv(db) && Create(db, id, spec, true).0.JobIs?
    ensures var (first, after) := Create(db, id, spec, true);
      Create(Run(after, calls), other, spec, true) == (JobIs(first.id, false), Run(after, calls))
  {
    hide Apply;
    var (first, after) := Create(db, id, spec, true);
    CreateKeepsInv(db, id, spec, true);
    RunExtends(after, calls);
  }
}
