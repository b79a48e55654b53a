/**
 The database's own defences for extraction jobs: CHECK and UNIQUE constraints and the ORM
 insert and update guards (persistence/models.py). The repository never trips one, with a
 single exception that is stated exactly.
 */
module DatabaseGuards {
  import opened Wrappers
  import opened Vocabulary
  import opened ExtractionJobs
  import opened ExtractionLifecycle
  import Text

  /** `ck_extraction_jobs_state_payload`. */
  predicate StatePayload(job: Job)
  {
    match job.status
    case Queued =>
      job.attemptCount == 0 && job.startedAt.None? && job.finishedAt.None?
      && job.resultChecksum.None? && job.errorCode.None?
    case Running =>
      job.attemptCount > 0 && job.startedAt.Some? && job.finishedAt.None?
      && job.resultChecksum.None? && job.errorCode.None?
    case JobSucceeded =>
      job.attemptCount > 0 && job.startedAt.Some? && job.finishedAt.Some?
      && job.resultChecksum.Some? && job.errorCode.None?
    case JobFailed =>
      job.attemptCount > 0 && job.startedAt.Some? && job.finishedAt.Some?
      && job.resultChecksum.None? && job.errorCode.Some?
  }

  /** The other CHECKs on a job row: time order and the error code format. */
  predicate JobChecks(job: Job)
  {
    && StatePayload(job)
    && (job.finishedAt.Some? ==> job.startedAt.Some? && job.finishedAt.value >= job.startedAt.value)
    && (job.errorCode.Some? ==> IsMachineCode(job.errorCode.value))
  }

  /** `_guard_extraction_job_insert`. */
  predicate InsertGuard(job: Job)
  {
    job.status == Queued && job.attemptCount == 0
  }

  predicate Transition(before: JobStatus, after: JobStatus)
  {
    match before
    case Queued => after == Running
    case Running => after == JobSucceeded || after == JobFailed
    case JobFailed => after == Running
    case JobSucceeded => false
  }

  /** `_guard_extraction_job_update`. */
  predicate UpdateGuard(before: Job, after: Job)
  {
    && after.spec == before.spec
    && if after.status == before.status then after == before
       else
         && Transition(before.status, after.status)
         && after.attemptCount ==
              before.attemptCount + (if before.status == Queued || before.status == JobFailed then 1 else 0)
  }

  /** The CHECKs on an attempt row. */
  predicate AttemptChecks(a: Attempt)
  {
    && a.number > 0 && a.finishedAt >= a.startedAt
    && (a.errorCode.Some? ==> IsMachineCode(a.errorCode.value))
    && match a.status
       case Succeeded => a.resultChecksum.Some? && a.errorCode.None?
       case Failed => a.resultChecksum.None? && a.errorCode.Some?
  }

  /** The unique keys on attempts: job and number, and (the digest covering the number) job and digest. */
  ghost predicate AttemptsUnique(rows: seq<Attempt>)
  {
    forall i, k :: 0 <= i < k < |rows| ==> rows[i].job != rows[k].job || rows[i].number != rows[k].number
  }

  /** `_guard_extraction_proposal_insert` and the CHECKs on an artifact row. */
  predicate ProposalGuard(db: Db, a: Artifact)
  {
    && a.job in db.jobs && db.jobs[a.job].status == Running
    && db.jobs[a.job].attemptCount == a.attemptNumber && db.jobs[a.job].spec.sensitivity == a.sensitivity
    && db.jobs[a.job].spec.sourceVersion == a.sourceVersion
    && a.attemptNumber > 0 && a.runId != [] && a.schemaVersion != []
  }

  ghost predicate OneArtifactPerJob(rows: seq<Artifact>)
  {
    forall i, k :: 0 <= i < k < |rows| ==> rows[i].job != rows[k].job
  }

  /** `uq_extraction_proposals_proposal_id`. */
  ghost predicate ProposalIdsUnique(rows: seq<Artifact>)
  {
    forall i, k :: 0 <= i < k < |rows| ==> rows[i].proposalId != rows[k].proposalId
  }

  /** The database takes the change from `db` to `after`, unique proposal ids apart. */
  ghost predicate Accepts(db: Db, after: Db)
  {
    && (forall j :: j in after.jobs ==> JobChecks(after.jobs[j]))
    && (forall j :: j in after.jobs ==>
          if j in db.jobs then UpdateGuard(db.jobs[j], after.jobs[j]) else InsertGuard(after.jobs[j]))
    && (forall j, k :: j in after.jobs && k in after.jobs && after.jobs[j].spec == after.jobs[k].spec ==> j == k)
    && (forall j :: j in db.jobs ==> j in after.jobs)
    && db.attempts <= after.attempts && AttemptsUnique(after.attempts)
    && (forall i :: |db.attempts| <= i < |after.attempts| ==> AttemptChecks(after.attempts[i]))
    && db.artifacts <= after.artifacts && OneArtifactPerJob(after.artifacts)
    && (forall i :: |db.artifacts| <= i < |after.artifacts| ==> ProposalGuard(db, after.artifacts[i]))
  }

  lemma InvMeetsJobChecks(db: Db, j: JobId)
    requires Inv(db) && j in db.jobs
    ensures JobChecks(db.jobs[j])
  {
    hide IsMachineCode, ArtifactFits, AttemptsOf, Inv;
    var a := AttemptsOf(db.attempts, j);
    InvOfJob(db, j);
    if a != [] {
      AttemptIsWellFormed(db, j, |a| - 1);
    }
  }

  lemma AttemptIsWellFormed(db: Db, j: JobId, i: nat)
    requires Inv(db) && i < |AttemptsOf(db.attempts, j)|
    ensures WellFormed(AttemptsOf(db.attempts, j)[i])
  {
    hide WellFormed, AttemptsOf, JobInv;
    AttemptsAreRows(db.attempts, j, i);
  }

  lemma {:induction false} NumbersAreUnique(rows: seq<Attempt>, i: nat, k: nat)
    requires i < k < |rows| && rows[i].job == rows[k].job
    requires forall n :: 0 <= n < |AttemptsOf(rows, rows[k].job)| ==> AttemptsOf(rows, rows[k].job)[n].number == n + 1
    ensures rows[i].number != rows[k].number
  {
    var init, j := rows[..|rows| - 1], rows[k].job;
    if k < |init| {
      assert forall n :: 0 <= n < |AttemptsOf(init, j)| ==> AttemptsOf(rows, j)[n] == AttemptsOf(init, j)[n];
      NumbersAreUnique(init, i, k);
    } else {
      var a := AttemptsOf(rows, j);
      assert a == AttemptsOf(init, j) + [rows[k]];
      assert a[|a| - 1] == rows[k];
      RowIsAttempt(init, i);
      var n :| 0 <= n < |AttemptsOf(init, j)| && AttemptsOf(init, j)[n] == rows[i];
      assert a[n] == rows[i];
    }
  }

  lemma {:induction false} RowIsAttempt(rows: seq<Attempt>, i: nat)
    requires i < |rows|
    ensures rows[i] in AttemptsOf(rows, rows[i].job)
  {
    if i < |rows| - 1 {
      RowIsAttempt(rows[..|rows| - 1], i);
    }
  }

  lemma InvMeetsUnique(db: Db)
    requires Inv(db)
    ensures AttemptsUnique(db.attempts) && OneArtifactPerJob(db.artifacts)
    ensures forall j, k :: j in db.jobs && k in db.jobs && db.jobs[j].spec == db.jobs[k].spec ==> j == k
  {
    hide AttemptsOf, FindArtifact, WellFormed;
    forall i, k | 0 <= i < k < |db.attempts|
      ensures db.attempts[i].job != db.attempts[k].job || db.attempts[i].number != db.attempts[k].number
    {
      if db.attempts[i].job == db.attempts[k].job {
        assert JobInv(db, db.attempts[k].job);
        NumbersAreUnique(db.attempts, i, k);
      }
    }
    forall j, k | j in db.jobs && k in db.jobs && db.jobs[j].spec == db.jobs[k].spec ensures j == k {
      assert JobInv(db, j) && JobInv(db, k);
    }
  }

  lemma UpdatesPass(db: Db, call: Call, j: JobId)
    requires Inv(db) && j in Apply(db, call).1.jobs
    ensures var after := Apply(db, call).1;
      if j in db.jobs then UpdateGuard(db.jobs[j], after.jobs[j]) else InsertGuard(after.jobs[j])
  {
    hide AttemptsOf, FindAttempt, FindArtifact, BoundedText, SafeErrorCode, HasArtifact, Inv;
  }

  lemma NewAttemptsPass(db: Db, call: Call)
    requires Inv(db)
    ensures var after := Apply(db, call).1;
            forall i :: |db.attempts| <= i < |after.attempts| ==> AttemptChecks(after.attempts[i])
  {
    hide AttemptsOf, FindAttempt, FindArtifact, HasArtifact, Inv, IsMachineCode, SafeErrorCode;
    if call.FinishAttempt? && call.outcome.Failure? {
      SafeCodeIsMachineCode(call.outcome.code);
    }
  }

  lemma NewArtifactsPass(db: Db, call: Call)
    requires Inv(db)
    ensures var after := Apply(db, call).1;
            forall i :: |db.artifacts| <= i < |after.artifacts| ==> ProposalGuard(db, after.artifacts[i])
  {
    hide AttemptsOf, FindAttempt, FindArtifact, HasArtifact, Inv, IsMachineCode, SafeErrorCode, Finish, Start, Create;
    if call.FinishAttempt? || call.StartAttempt? || call.CreateJob? {
      OnlyStoringAddsArtifacts(db, call);
    }
  }

  lemma OnlyStoringAddsArtifacts(db: Db, call: Call)
    ensures !call.StoreProposal? ==> Apply(db, call).1.artifacts == db.artifacts
  {
    hide FindAttempt, HasArtifact, SafeErrorCode;
  }

  /** The repository refines the guards: on reachable tables no call makes a change the database refuses. */
  lemma NoGuardFires(db: Db, call: Call)
    requires Inv(db)
    ensures Accepts(db, Apply(db, call).1)
  {
    hide Inv, Apply, JobChecks, UpdateGuard, InsertGuard, AttemptChecks, ProposalGuard, AttemptsUnique,
      OneArtifactPerJob;
    var after := Apply(db, call).1;
    ApplyKeepsInv(db, call);
    ApplyExtends(db, call);
    InvMeetsUnique(after);
    NewAttemptsPass(db, call);
    NewArtifactsPass(db, call);
    forall j | j in after.jobs
      ensures JobChecks(after.jobs[j])
      ensures if j in db.jobs then UpdateGuard(db.jobs[j], after.jobs[j]) else InsertGuard(after.jobs[j])
    {
      InvMeetsJobChecks(after, j);
      UpdatesPass(db, call, j);
    }
  }

  /** The guards of the branch of `store_proposal_artifact` that inserts a row. */
  predicate StoresNew(db: Db, call: Call)
  {
    && call.StoreProposal?
    && call.job in db.jobs && db.jobs[call.job].status == Running
    && FindArtifact(db.artifacts, call.job).None?
    && call.payload.Some? && call.checksum == Some(Sha256(call.payload.value))
    && BoundedText(call.runId, 255).Some? && BoundedText(call.schemaVersion, 120).Some?
  }

  /** A call that would insert comes with a proposal id no stored artifact has. */
  predicate BringsFreshId(db: Db, call: Call)
  {
    StoresNew(db, call) ==> forall i :: 0 <= i < |db.artifacts| ==> db.artifacts[i].proposalId != call.proposalId
  }

  lemma InvOfJob(db: Db, j: JobId)
    requires Inv(db) && j in db.jobs
    ensures JobInv(db, j)
  {
  }

  /** On reachable tables the guards decide whether a call inserts. */
  lemma InsertionDecided(db: Db, call: Call)
    requires Inv(db)
    ensures StoresNew(db, call) <==> Apply(db, call).1.artifacts != db.artifacts
    ensures StoresNew(db, call) ==>
              call.StoreProposal? && Apply(db, call).0.Stored? && Apply(db, call).0.created
              && Apply(db, call).1.artifacts == db.artifacts + [Apply(db, call).0.artifact]
              && Apply(db, call).0.artifact.proposalId == call.proposalId
  {
    hide FindAttempt, FindArtifact, BoundedText, SafeErrorCode, HasArtifact, IsMachineCode, AttemptsOf, Finish, Start,
      Create, ArtifactFits, Inv;
    if call.StoreProposal? {
      if call.job in db.jobs {
        assert JobInv(db, call.job) by { InvOfJob(db, call.job); }
      }
    } else {
      hide Apply;
      OnlyStoringAddsArtifacts(db, call);
    }
  }

  /**
   The exception: the repository does not look whether another job uses a proposal id. A call keeps
   proposal ids unique exactly when, should it insert, its id is not used yet.
   */
  lemma ProposalIdsStayUnique(db: Db, call: Call)
    requires Inv(db) && ProposalIdsUnique(db.artifacts)
    ensures ProposalIdsUnique(Apply(db, call).1.artifacts) <==> BringsFreshId(db, call)
  {
    hide Inv, Apply, StoresNew;
    InsertionDecided(db, call);
    var after := Apply(db, call).1;
    if StoresNew(db, call) {
      if i :| 0 <= i < |db.artifacts| && db.artifacts[i].proposalId == call.proposalId {
        assert after.artifacts[i].proposalId == after.artifacts[|db.artifacts|].proposalId;
      }
    }
  }

  /** Every call of the run that would insert brings a fresh proposal id. */
  ghost predicate AllFresh(calls: seq<Call>)
  {
    forall n :: 0 <= n < |calls| ==> BringsFreshId(Run(EMPTY, calls[..n]), calls[n])
  }

  lemma AllFreshSnoc(calls: seq<Call>)
    requires calls != []
    ensures var init, last := calls[..|calls| - 1], calls[|calls| - 1];
            AllFresh(calls) <==> AllFresh(init) && BringsFreshId(Run(EMPTY, init), last)
  {
    hide Run, BringsFreshId;
    var init := calls[..|calls| - 1];
    assert forall n :: 0 <= n < |init| ==> calls[..n] == init[..n] && calls[n] == init[n];
    if AllFresh(calls) {
      forall n | 0 <= n < |init| ensures BringsFreshId(Run(EMPTY, init[..n]), init[n]) {
        assert BringsFreshId(Run(EMPTY, calls[..n]), calls[n]);
      }
    }
  }

  /** Over whole runs: proposal ids are unique in the end exactly when every inserting call brought a fresh one. */
  lemma {:induction false} RunKeepsProposalIds(calls: seq<Call>)
    ensures ProposalIdsUnique(Run(EMPTY, calls).artifacts) <==> AllFresh(calls)
    decreases |calls|
  {
    hide Inv, Apply, BringsFreshId, ProposalIdsUnique, AllFresh;
    if calls == [] {
      NoArtifactsAreUnique();
      assert AllFresh([]) by { NothingIsFresh(); }
    } else {
      var init, last := calls[..|calls| - 1], calls[|calls| - 1];
      var before := Run(EMPTY, init);
      RunKeepsProposalIds(init);
      EveryRunKeepsInv(init);
      AllFreshSnoc(calls);
      ArtifactsGrow(before, last);
      PrefixStaysUnique(before.artifacts, Apply(before, last).1.artifacts);
      if ProposalIdsUnique(before.artifacts) {
        ProposalIdsStayUnique(before, last);
      }
    }
  }

  lemma NothingIsFresh()
    ensures AllFresh([])
  {
  }

  lemma NoArtifactsAreUnique()
    ensures ProposalIdsUnique([])
  {
  }

  lemma ArtifactsGrow(db: Db, call: Call)
    ensures db.artifacts <= Apply(db, call).1.artifacts
  {
    hide Apply;
    ApplyExtends(db, call);
  }

  lemma PrefixStaysUnique(rows: seq<Artifact>, more: seq<Artifact>)
    requires rows <= more
    ensures ProposalIdsUnique(more) ==> ProposalIdsUnique(rows)
  {
  }

  lemma PlainTextsAreBounded()
    ensures BoundedText("run", 255).Some? && BoundedText("v1", 120).Some?
  {
    Text.StripTrimmed("run");
    Text.StripTrimmed("v1");
  }

  lemma StoringKeepsJobs(db: Db, call: Call)
    requires call.StoreProposal?
    ensures Apply(db, call).1.jobs == db.jobs
    ensures Apply(db, call).0.Stored? ==> Apply(db, call).0.artifact.job == call.job || !Apply(db, call).0.created
  {
    hide FindArtifact, BoundedText;
  }

  /** Two running jobs may store under one proposal id: both calls succeed, and the unique key breaks. */
  lemma SharedProposalIdIsMissed(db: Db, j: JobId, k: JobId, id: nat, payload: string)
    requires Inv(db) && j != k && j in db.jobs && k in db.jobs
    requires db.jobs[j].status == db.jobs[k].status == Running
    requires FindArtifact(db.artifacts, j).None? && FindArtifact(db.artifacts, k).None?
    ensures var (first, middle) := Store(db, j, id, "run", "v1", Some(payload), Some(Sha256(payload)));
      var (second, after) := Store(middle, k, id, "run", "v1", Some(payload), Some(Sha256(payload)));
      first.Stored? && first.created && second.Stored? && second.created && !ProposalIdsUnique(after.artifacts)
  {
    hide Store, Inv, FindArtifact, BoundedText;
    PlainTextsAreBounded();
    var one := StoreProposal(j, id, "run", "v1", Some(payload), Some(Sha256(payload)));
    var two := StoreProposal(k, id, "run", "v1", Some(payload), Some(Sha256(payload)));
    InsertionDecided(db, one);
    ApplyKeepsInv(db, one);
    var (first, middle) := Apply(db, one);
    StoringKeepsJobs(db, one);
    AppendArtifact(db.artifacts, first.artifact, k);
    InsertionDecided(middle, two);
    var (second, after) := Apply(middle, two);
    var n := |db.artifacts|;
    assert after.artifacts[n].proposalId == after.artifacts[n + 1].proposalId;
  }

  lemma RunExtended(calls: seq<Call>, call: Call)
    ensures Run(EMPTY, calls + [call]) == Apply(Run(EMPTY, calls), call).1
  {
    assert (calls + [call])[..|calls|] == calls;
  }

  /** Such tables are reachable: two jobs created and started. */
  lemma TwoRunningJobs() returns (calls: seq<Call>)
    ensures var db := Run(EMPTY, calls);
      && Inv(db) && 1 in db.jobs && 2 in db.jobs && db.jobs[1].status == db.jobs[2].status == Running
      && FindArtifact(db.artifacts, 1).None? && FindArtifact(db.artifacts, 2).None?
  {
    hide Inv;
    var one, two := JobSpec(1, 1, 1, "c", "k", Public), JobSpec(2, 1, 1, "c", "k", Public);
    var c1, c2 := [CreateJob(1, one, true)], [CreateJob(1, one, true), CreateJob(2, two, true)];
    RunExtended([], CreateJob(1, one, true));
    RunExtended(c1, CreateJob(2, two, true));
    RunExtended(c2, StartAttempt(1, 0));
    RunExtended(c2 + [StartAttempt(1, 0)], StartAttempt(2, 0));
    assert c1 == [] + [CreateJob(1, one, true)] && c2 == c1 + [CreateJob(2, two, true)];
    calls := c2 + [StartAttempt(1, 0)] + [StartAttempt(2, 0)];
    EveryRunKeepsInv(calls);
  }
}
