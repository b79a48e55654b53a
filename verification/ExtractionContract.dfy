/**
 The extraction calls as a decision table over the rows: when each of them goes through and what it
 leaves; and progress: whatever a run has left, every job that has not succeeded still can.
 */
module ExtractionContract {
  import opened Wrappers
  import opened ExtractionJobs
  import opened ExtractionLifecycle
  import Text

  // ----- Rows -----

  /** The attempt is recorded. */
  predicate Recorded(db: Db, j: JobId, n: int, a: Attempt)
  {
    a in db.attempts && a.job == j && a.number == n
  }

  /** The artifact is stored for the job. */
  predicate StoredFor(db: Db, j: JobId, a: Artifact)
  {
    a in db.artifacts && a.job == j
  }

  /** Text of at most `maximum` characters once stripped, and not blank. */
  predicate IsBounded(value: string, maximum: nat)
  {
    !Text.Blank(value) && |Text.Strip(value)| <= maximum
  }

  /** A lower-case letter, then up to 119 lower-case letters, digits and underscores, inside whitespace. */
  predicate IsSafeCode(code: string)
  {
    var s := Text.Strip(code);
    && 1 <= |s| <= 120 && 'a' <= s[0] <= 'z'
    && forall i :: 0 <= i < |s| ==> 'a' <= s[i] <= 'z' || '0' <= s[i] <= '9' || s[i] == '_'
  }

  /** The report says what the attempt did. */
  predicate Tells(outcome: Outcome, a: Attempt)
  {
    match outcome
    case Success(checksum) => checksum.Some? && a.status == Succeeded && a.resultChecksum == checksum
    case Failure(code) => IsSafeCode(code) && a.status == Failed && a.errorCode == Some(Text.Strip(code))
  }

  lemma BoundedDecided(value: string, maximum: nat)
    ensures BoundedText(value, maximum) == if IsBounded(value, maximum) then Some(Text.Strip(value)) else None
  {
    Text.BlankIsEmpty(value);
  }

  lemma SafeCodeDecided(code: string)
    ensures SafeErrorCode(code) == if IsSafeCode(code) then Some(Text.Strip(code)) else None
  {
    hide Text.Strip;
  }

  lemma TellsDecided(outcome: Outcome, a: Attempt)
    ensures Reports(outcome, a) <==> Tells(outcome, a)
  {
    hide SafeErrorCode, IsSafeCode;
    if outcome.Failure? {
      SafeCodeDecided(outcome.code);
    }
  }

  /** The lookup by number finds the recorded attempt. */
  lemma RecordedDecided(db: Db, j: JobId, n: int, a: Attempt)
    requires Inv(db)
    ensures Recorded(db, j, n, a) <==> FindAttempt(db.attempts, j, n) == Some(a)
  {
    hide FindAttempt, WellFormed, ArtifactFits;
    if FindAttempt(db.attempts, j, n).Some? {
      FindIsRow(db.attempts, j, n);
    }
    if Recorded(db, j, n, a) {
      var i :| 0 <= i < |db.attempts| && db.attempts[i] == a;
      assert a.job in db.jobs && JobInv(db, j);
      FindIsIndex(db.attempts, j, n);
      RowIsAttempt(db.attempts, j, i);
    }
  }

  lemma {:induction false} RowIsAttempt(rows: seq<Attempt>, j: JobId, i: nat)
    requires i < |rows| && rows[i].job == j
    ensures rows[i] in AttemptsOf(rows, j)
  {
    if i < |rows| - 1 {
      RowIsAttempt(rows[..|rows| - 1], j, i);
    }
  }

  /** The lookup by job finds the stored artifact. */
  lemma StoredDecided(db: Db, j: JobId, a: Artifact)
    requires Inv(db)
    ensures StoredFor(db, j, a) <==> FindArtifact(db.artifacts, j) == Some(a)
  {
    hide FindArtifact, JobInv, WellFormed;
    FoundIsRow(db.artifacts, j);
  }

  // ----- The calls -----

  predicate MayStart(db: Db, j: JobId)
  {
    j in db.jobs && (db.jobs[j].status == Queued || db.jobs[j].status == JobFailed)
  }

  /** A job is started exactly if it is queued or has failed: the next attempt runs, its last outcome is cleared. */
  lemma StartDecided(db: Db, j: JobId, now: Time)
    ensures var (answer, after) := Apply(db, StartAttempt(j, now));
      && (answer.Started? <==> MayStart(db, j))
      && (!MayStart(db, j) ==> answer == Raised(if j in db.jobs then WrongState else JobNotFound) && after == db)
      && (MayStart(db, j) ==>
            && answer.number == db.jobs[j].attemptCount + 1
            && after.attempts == db.attempts && after.artifacts == db.artifacts && after.byKey == db.byKey
            && after.jobs.Keys == db.jobs.Keys && (forall k :: k in db.jobs && k != j ==> after.jobs[k] == db.jobs[k])
            && after.jobs[j].spec == db.jobs[j].spec && after.jobs[j].status == Running
            && after.jobs[j].attemptCount == answer.number && after.jobs[j].startedAt == Some(now)
            && after.jobs[j].resultChecksum.None? && after.jobs[j].errorCode.None? && after.jobs[j].finishedAt.None?)
  {
  }

  /** The running attempt can be ended with this report now. */
  ghost predicate MayFinish(db: Db, j: JobId, n: int, outcome: Outcome, now: Time)
  {
    && j in db.jobs && db.jobs[j].status == Running && db.jobs[j].attemptCount == n
    && db.jobs[j].startedAt.Some? && db.jobs[j].startedAt.value <= now
    && match outcome
       case Success(checksum) => exists a :: StoredFor(db, j, a) && Some(a.payloadChecksum) == checksum
       case Failure(code) => IsSafeCode(code)
  }

  lemma HasArtifactDecided(db: Db, j: JobId, checksum: Option<Checksum>)
    requires Inv(db)
    ensures HasArtifact(db, j, checksum) <==> exists a :: StoredFor(db, j, a) && Some(a.payloadChecksum) == checksum
  {
    hide FindArtifact, StoredFor, History;
    if FindArtifact(db.artifacts, j).Some? {
      var a := FindArtifact(db.artifacts, j).value;
      StoredDecided(db, j, a);
      assert j in db.jobs by { StoredHasJob(db, j, a); }
      assert JobInv(db, j);
    }
    if a :| StoredFor(db, j, a) && Some(a.payloadChecksum) == checksum {
      StoredDecided(db, j, a);
    }
  }

  lemma StoredHasJob(db: Db, j: JobId, a: Artifact)
    requires Inv(db) && StoredFor(db, j, a)
    ensures j in db.jobs
  {
    hide JobInv;
    var i :| 0 <= i < |db.artifacts| && db.artifacts[i] == a;
  }

  /** A report is accepted exactly if it tells what is recorded, or ends the running attempt. */
  lemma FinishDecided(db: Db, j: JobId, n: int, outcome: Outcome, now: Time)
    requires Inv(db)
    ensures var (answer, after) := Apply(db, FinishAttempt(j, n, outcome, now));
      && (answer.Finished? <==>
            || (exists a :: Recorded(db, j, n, a) && Tells(outcome, a))
            || MayFinish(db, j, n, outcome, now))
      && (answer.Finished? || (answer.Raised? && after == db))
      && (answer.Finished? ==> Recorded(after, j, n, answer.attempt) && Tells(outcome, answer.attempt))
      && (after != db <==> MayFinish(db, j, n, outcome, now))
  {
    hide FindAttempt, SafeErrorCode, HasArtifact, IsSafeCode, Inv, Recorded, Tells, StoredFor, Apply, Reports;
    match FindAttempt(db.attempts, j, n)
    case Some(a) =>
      RecordedDecided(db, j, n, a);
      TellsDecided(outcome, a);
      LateCompletion(db, j, n, outcome, now);
      RecordedIsOver(db, j, n, outcome, now, a);
      forall b | Recorded(db, j, n, b) ensures b == a {
        RecordedDecided(db, j, n, b);
      }
    case None =>
      forall b ensures !Recorded(db, j, n, b) {
        RecordedDecided(db, j, n, b);
      }
      FreshFinish(db, j, n, outcome, now);
  }

  lemma RecordedIsOver(db: Db, j: JobId, n: int, outcome: Outcome, now: Time, a: Attempt)
    requires Inv(db) && FindAttempt(db.attempts, j, n) == Some(a)
    ensures !MayFinish(db, j, n, outcome, now)
  {
    hide FindAttempt, WellFormed, ArtifactFits;
    if j in db.jobs {
      assert JobInv(db, j);
      FindIsIndex(db.attempts, j, n);
    }
  }

  lemma FreshFinish(db: Db, j: JobId, n: int, outcome: Outcome, now: Time)
    requires Inv(db) && FindAttempt(db.attempts, j, n).None?
    ensures var (answer, after) := Apply(db, FinishAttempt(j, n, outcome, now));
      && (answer.Finished? <==> MayFinish(db, j, n, outcome, now))
      && (after != db <==> MayFinish(db, j, n, outcome, now)) && (answer.Finished? || (answer.Raised? && after == db))
      && (answer.Finished? ==> Recorded(after, j, n, answer.attempt) && Tells(outcome, answer.attempt))
  {
    hide FindAttempt, SafeErrorCode, HasArtifact, IsSafeCode, StoredFor, Inv, Reports, Apply, MayFinish;
    FreshFinishDecided(db, j, n, outcome, now);
    var (answer, after) := Apply(db, FinishAttempt(j, n, outcome, now));
    if after != db {
      OnlyTheActiveAttemptEnds(db, j, n, outcome, now);
      TellsDecided(outcome, answer.attempt);
    }
  }

  lemma FreshFinishDecided(db: Db, j: JobId, n: int, outcome: Outcome, now: Time)
    requires Inv(db) && FindAttempt(db.attempts, j, n).None?
    ensures var (answer, after) := Apply(db, FinishAttempt(j, n, outcome, now));
      && (answer.Finished? <==> MayFinish(db, j, n, outcome, now))
      && (after != db <==> MayFinish(db, j, n, outcome, now)) && (answer.Finished? || (answer.Raised? && after == db))
  {
    hide FindAttempt, SafeErrorCode, HasArtifact, IsSafeCode, StoredFor, WellFormed, ArtifactFits;
    match outcome {
      case Success(checksum) => HasArtifactDecided(db, j, checksum);
      case Failure(code) => SafeCodeDecided(code);
    }
    if j in db.jobs {
      assert JobInv(db, j);
    }
  }

  /** Which error a refused report raises, in the order of its checks. */
  lemma FinishErrorDecided(db: Db, j: JobId, n: int, outcome: Outcome, now: Time)
    requires Inv(db) && Apply(db, FinishAttempt(j, n, outcome, now)).0.Raised?
    ensures var e := Apply(db, FinishAttempt(j, n, outcome, now)).0.error;
      if outcome == Outcome.Success(None) then e == BadChecksum
      else if outcome.Failure? && !IsSafeCode(outcome.code) then e == BadErrorCode
      else if n < 1 then e == BadNumber
      else if j !in db.jobs then e == JobNotFound
      else if exists a :: Recorded(db, j, n, a) then e == OtherOutcome
      else if db.jobs[j].status != Running then e == WrongState
      else if db.jobs[j].attemptCount != n then e == NotActiveAttempt
      else if outcome.Success? && !exists a :: StoredFor(db, j, a) && Some(a.payloadChecksum) == outcome.checksum
      then e == ArtifactMissing
      else e == EndsBeforeStart
  {
    hide FindAttempt, SafeErrorCode, HasArtifact, IsSafeCode, StoredFor, Recorded, Inv, Reports;
    match outcome {
      case Success(checksum) => HasArtifactDecided(db, j, checksum);
      case Failure(code) => SafeCodeDecided(code);
    }
    match FindAttempt(db.attempts, j, n) {
      case Some(a) =>
        RecordedDecided(db, j, n, a);
        LateCompletion(db, j, n, outcome, now);
        FoundFacts(db, j, n);
      case None =>
        forall b ensures !Recorded(db, j, n, b) {
          RecordedDecided(db, j, n, b);
        }
    }
    if j in db.jobs && db.jobs[j].status == Running {
      RunningHasStart(db, j);
    }
  }

  lemma RunningHasStart(db: Db, j: JobId)
    requires Inv(db) && j in db.jobs && db.jobs[j].status == Running
    ensures db.jobs[j].startedAt.Some?
  {
    hide ArtifactFits, AttemptsOf, WellFormed;
    assert JobInv(db, j);
  }

  /** A proposal in order: its text fields bounded, its payload clean, its checksum that of the payload. */
  predicate IsProposal(runId: string, schemaVersion: string, payload: Option<string>, checksum: Option<Checksum>)
  {
    && IsBounded(runId, 255) && IsBounded(schemaVersion, 120)
    && payload.Some? && checksum == Some(Sha256(payload.value))
  }

  /** The artifact is what the call brings, but for the attempt. */
  predicate Brings(db: Db, j: JobId, proposalId: nat, runId: string, schemaVersion: string, payload: string,
                   a: Artifact)
    requires j in db.jobs
  {
    && a.job == j && a.sourceVersion == db.jobs[j].spec.sourceVersion && a.sensitivity == db.jobs[j].spec.sensitivity
    && a.proposalId == proposalId && a.runId == Text.Strip(runId) && a.schemaVersion == Text.Strip(schemaVersion)
    && a.payload == payload && a.payloadChecksum == Sha256(payload)
  }

  /** A proposal in order is stored exactly if its job runs and has none; a stored one is returned to its replay. */
  lemma StoreDecided(db: Db, j: JobId, proposalId: nat, runId: string, schemaVersion: string,
                     payload: Option<string>, checksum: Option<Checksum>)
    requires Inv(db)
    ensures var (answer, after) := Apply(db, StoreProposal(j, proposalId, runId, schemaVersion, payload, checksum));
      var inOrder := j in db.jobs && IsProposal(runId, schemaVersion, payload, checksum);
      && (answer.Stored? || (answer.Raised? && after == db))
      && (answer.Stored? <==>
            && inOrder
            && (|| (exists a ::
                      StoredFor(db, j, a) && Brings(db, j, proposalId, runId, schemaVersion, payload.value, a))
                || (db.jobs[j].status == Running && forall a :: !StoredFor(db, j, a))))
      && (answer.Stored? ==>
            && StoredFor(after, j, answer.artifact)
            && Brings(db, j, proposalId, runId, schemaVersion, payload.value, answer.artifact)
            && (answer.created <==> !StoredFor(db, j, answer.artifact))
            && (answer.created ==> answer.artifact.attemptNumber == db.jobs[j].attemptCount)
            && after == db.(artifacts := db.artifacts + if answer.created then [answer.artifact] else []))
  {
    hide FindArtifact, BoundedText, IsBounded, WellFormed, AttemptsOf, FindAttempt;
    BoundedDecided(runId, 255);
    BoundedDecided(schemaVersion, 120);
    if j in db.jobs {
      assert JobInv(db, j);
    }
    match FindArtifact(db.artifacts, j)
    case Some(a) =>
      StoredDecided(db, j, a);
      forall b | StoredFor(db, j, b) ensures b == a {
        StoredDecided(db, j, b);
      }
    case None =>
      forall b ensures !StoredFor(db, j, b) {
        StoredDecided(db, j, b);
      }
  }

  /** Which error a refused proposal raises, in the order of its checks. */
  lemma StoreErrorDecided(db: Db, j: JobId, proposalId: nat, runId: string, schemaVersion: string,
                          payload: Option<string>, checksum: Option<Checksum>)
    requires Inv(db)
    requires Apply(db, StoreProposal(j, proposalId, runId, schemaVersion, payload, checksum)).0.Raised?
    ensures var e := Apply(db, StoreProposal(j, proposalId, runId, schemaVersion, payload, checksum)).0.error;
      if j !in db.jobs then e == JobNotFound
      else if payload.None? then e == UnsafePayload
      else if checksum.None? then e == BadChecksum
      else if checksum.value != Sha256(payload.value) then e == ChecksumMismatch
      else if !IsBounded(runId, 255) || !IsBounded(schemaVersion, 120) then e == BadText
      else if exists a :: StoredFor(db, j, a) then e == OtherArtifact
      else e == WrongState
  {
    hide FindArtifact, BoundedText, IsBounded, StoredFor, WellFormed, AttemptsOf, FindAttempt, Inv;
    BoundedDecided(runId, 255);
    BoundedDecided(schemaVersion, 120);
    match FindArtifact(db.artifacts, j) {
      case Some(a) => StoredDecided(db, j, a);
      case None =>
        forall b ensures !StoredFor(db, j, b) {
          StoredDecided(db, j, b);
        }
    }
  }

  predicate HasKey(db: Db, spec: JobSpec)
  {
    exists j :: j in db.jobs && db.jobs[j].spec == spec
  }

  /** Creation returns the job of the specification, or adds a queued one under a free identifier. */
  lemma CreateDecided(db: Db, id: JobId, spec: JobSpec, authorized: bool)
    requires Inv(db)
    ensures var (answer, after) := Apply(db, CreateJob(id, spec, authorized));
      if !authorized then answer == Raised(Unauthorized) && after == db
      else if HasKey(db, spec) then
        answer.JobIs? && !answer.created && answer.id in db.jobs && db.jobs[answer.id].spec == spec && after == db
      else if id in db.jobs then answer == Raised(IdTaken) && after == db
      else
        && answer == JobIs(id, true)
        && after.jobs == db.jobs[id := Job(spec, Queued, 0, None, None, None, None)]
        && after.attempts == db.attempts && after.artifacts == db.artifacts
  {
    hide History, ArtifactFits, WellFormed;
    if j :| j in db.jobs && db.jobs[j].spec == spec {
      assert JobInv(db, j);
    }
  }

  // ----- Progress -----

  lemma RunTwo(db: Db, a: Call, b: seq<Call>)
    ensures Run(db, [a] + b) == Run(Apply(db, a).1, b)
    decreases |b|
  {
    hide Apply;
    if b == [] {
      assert [a] + b == [a] && [a][..0] == [];
      assert Run(db, [a]) == Apply(Run(db, []), a).1;
    } else {
      RunTwo(db, a, b[..|b| - 1]);
      assert ([a] + b)[..|[a] + b| - 1] == [a] + b[..|b| - 1];
    }
  }

  /** A running job whose artifact is stored succeeds with the artifact's checksum, at any time from its start on. */
  lemma StoredCanSucceed(db: Db, j: JobId, a: Artifact, now: Time)
    requires Inv(db) && j in db.jobs && db.jobs[j].status == Running && StoredFor(db, j, a)
    requires db.jobs[j].startedAt.Some? ==> db.jobs[j].startedAt.value <= now
    ensures var call := FinishAttempt(j, db.jobs[j].attemptCount, Outcome.Success(Some(a.payloadChecksum)), now);
      Succeeds(Apply(db, call).1, j, a.payloadChecksum)
  {
    hide Apply, Recorded, StoredFor, ArtifactFits, AttemptsOf, WellFormed;
    var n, outcome := db.jobs[j].attemptCount, Outcome.Success(Some(a.payloadChecksum));
    assert JobInv(db, j);
    FinishDecided(db, j, n, outcome, now);
    OnlyTheActiveAttemptEnds(db, j, n, outcome, now);
  }

  predicate Succeeds(db: Db, j: JobId, checksum: Checksum)
  {
    j in db.jobs && db.jobs[j].status == JobSucceeded && db.jobs[j].resultChecksum == Some(checksum)
  }

  /** A running job succeeds: with the artifact it has, or else with one stored now. */
  lemma RunningCanSucceed(db: Db, j: JobId, proposalId: nat, runId: string, schemaVersion: string, payload: string,
                          now: Time) returns (calls: seq<Call>, checksum: Checksum)
    requires Inv(db) && j in db.jobs && db.jobs[j].status == Running
    requires db.jobs[j].startedAt.Some? ==> db.jobs[j].startedAt.value <= now
    requires IsBounded(runId, 255) && IsBounded(schemaVersion, 120)
    ensures |calls| <= 2 && Succeeds(Run(db, calls), j, checksum)
    ensures (forall a :: !StoredFor(db, j, a)) ==> checksum == Sha256(payload)
    ensures forall a :: StoredFor(db, j, a) ==> checksum == a.payloadChecksum
  {
    hide Inv, Apply, Run, StoredFor, IsBounded, Succeeds;
    var n := db.jobs[j].attemptCount;
    if a :| StoredFor(db, j, a) {
      checksum := a.payloadChecksum;
      var finish := FinishAttempt(j, n, Outcome.Success(Some(checksum)), now);
      calls := [finish];
      StoredCanSucceed(db, j, a, now);
      RunOne(db, finish);
      forall b | StoredFor(db, j, b) ensures b == a {
        StoredDecided(db, j, a);
        StoredDecided(db, j, b);
      }
    } else {
      checksum := Sha256(payload);
      var store := StoreProposal(j, proposalId, runId, schemaVersion, Some(payload), Some(checksum));
      var finish := FinishAttempt(j, n, Outcome.Success(Some(checksum)), now);
      StoreDecided(db, j, proposalId, runId, schemaVersion, Some(payload), Some(checksum));
      ApplyKeepsInv(db, store);
      var (answer, after) := Apply(db, store);
      StoredCanSucceed(after, j, answer.artifact, now);
      calls := [store] + [finish];
      RunTwo(db, store, [finish]);
      RunOne(after, finish);
    }
  }

  lemma RunOne(db: Db, call: Call)
    ensures Run(db, [call]) == Apply(db, call).1
  {
    hide Apply;
    assert [call][..0] == [];
    assert Run(db, []) == db;
  }

  /**
   Progress: from the tables any run has left, at most three calls let any job that has not succeeded
   succeed. A queued or failed one is started first.
   */
  lemma EveryJobCanSucceed(before: seq<Call>, j: JobId, proposalId: nat, runId: string, schemaVersion: string,
                           payload: string, now: Time) returns (calls: seq<Call>, checksum: Checksum)
    requires j in Run(EMPTY, before).jobs && Run(EMPTY, before).jobs[j].status != JobSucceeded
    requires var job := Run(EMPTY, before).jobs[j];
      job.status == Running && job.startedAt.Some? ==> job.startedAt.value <= now
    requires IsBounded(runId, 255) && IsBounded(schemaVersion, 120)
    ensures |calls| <= 3 && Succeeds(Run(Run(EMPTY, before), calls), j, checksum)
    ensures (forall a :: !StoredFor(Run(EMPTY, before), j, a)) ==> checksum == Sha256(payload)
    ensures forall a :: StoredFor(Run(EMPTY, before), j, a) ==> checksum == a.payloadChecksum
  {
    hide Inv, Apply, Run, IsBounded, Succeeds;
    EveryRunKeepsInv(before);
    var db := Run(EMPTY, before);
    if db.jobs[j].status == Running {
      calls, checksum := RunningCanSucceed(db, j, proposalId, runId, schemaVersion, payload, now);
    } else {
      var start := StartAttempt(j, now);
      StartDecided(db, j, now);
      ApplyKeepsInv(db, start);
      assert forall a :: StoredFor(Apply(db, start).1, j, a) <==> StoredFor(db, j, a);
      var later: seq<Call>;
      later, checksum := RunningCanSucceed(Apply(db, start).1, j, proposalId, runId, schemaVersion, payload, now);
      calls := [start] + later;
      RunTwo(db, start, later);
    }
  }
}
