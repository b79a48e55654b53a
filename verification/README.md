# MagicForge: verified model of the governed knowledge pipeline

This project models the parts of MagicForge that hold state, branch, or promise something over whole
runs, and proves those promises in Dafny. `dafny verify dfyconfig.toml` checks everything.

## What is modelled

1. **Publication to the vector store.** `Projections`, `VectorStore` and `Governance` hold the
   projections, the manifests, the collection and what every call decides. `Publication` turns
   `write_manifest` into a step system whose batch writes reach points one by one, in any order, and
   which may stop or fail after any step. `Recovery` lets such runs and interrupted clean-ups follow one
   another for any length of time. `Visibility` says which points each state of a run shows.
   `SearchExactness` compares the store-side filter, the client-side rechecks and a reference definition of
   who may read what, with `PathNames` for the spelling of ontology paths; `InterruptedReads` is about
   reading while writes and clean-ups are stopped anywhere. `QdrantService` is the class with the loops;
   `WriteManifest` returns, as a ghost, the run of the step system that it performed. `ManifestContract`,
   `WriteContract` and `SearchContract` say what all this decides as tables over configuration, actor,
   manifest and payload fields.
2. **Extraction jobs.** `ExtractionJobs` defines the repository calls over the tables,
   `ExtractionRepository` is the class that updates rows in place, `ExtractionLifecycle` proves what
   every run keeps, `ExtractionContract` says when each call goes through and that every job can still
   succeed, `JobCreation` reduces racing creations to atomic ones, and `DatabaseGuards` compares all that
   with the CHECK and UNIQUE constraints and the insert and update guards.
3. **Ranked fusion.** `RetrievalFusion` is the dictionary-and-sort loop with the router's channels;
   `PublishedRetrieval` joins it to the published manifest, from the stored points to the fused answer,
   and `RetrievalContract` states that answer in projection fields.
4. **Layered reveals.** `RevealParser` is the line machine, `RevealPartition` says without the machine
   what it does to its input, and `RevealRoundTrip` adds a printer and decides the round trip on lines.
   `RevealText` lifts that to text through `splitlines`, and `RevealReparse` decides on the input lines
   whether a parsed reveal survives being printed and parsed again. `RevealContract` states the format
   with its markers and patterns written out.
5. **Windows and chunks.** `TextWindows` and `Chunking`.
6. **Bootstrap snapshots.** `BootstrapSnapshot` merges two manifests, `SnapshotAccounting` decides the
   merge and its accounting, and `BootstrapSync` makes a collection equal to a manifest through batches
   and pages of any size. `SnapshotContract` states both over roles, levels, markers and ids.
7. **Shared tables.** `AuditPages` (keyset pages over a growing log), `Idempotency` and `IdempotentRuns`
   (one decision, and every interleaving of decisions), `UnitOfWork` (the transaction boundary).

`Sequences`, `Ordering` (stable sort, strict lists), `Text` (`strip`, `casefold`, splitting), `Vocabulary`
(shared enumerations) and `Wrappers` are helpers.

Modelling decisions that hold throughout: a SHA-256 digest or a version 5 UUID (section 5.5 of RFC 9562)
of some content is a datatype constructor applied to that content, so equal digests mean equal content;
UUIDs are numbers whose order is the text order; scores are real numbers; clocks, embeddings and answers
of the store enter as parameters; a raised exception is an error value. A single process writes the
production collection at a time.

## Findings

- A receipt does not imply readiness. `write_manifest` over a collection that is already complete returns
  a receipt without looking at the collection's vectors, which `validate_readiness` then rejects.
  `ReceiptIsReadyExactly` gives the exact condition, `ReceiptWithoutReadiness` a collection that shows it.
- Publication is not atomic for readers. The flip reaches points one by one, so part of a manifest can be
  readable while the rest is stored and not readable; the same holds while a published collection is staged
  again after the check on entry failed. `PartlyVisibleDecided` says exactly when,
  `PartlyVisibleIsReached` gives a run. A clean-up that stops midway leaves a readable part too
  (`InterruptedCleanupShowsPart`); outside of that, starting from an empty collection, nothing is readable
  before everything is stored (`SearchThroughHistory`).
- The per-point checksum is taken after the schema has normalised ontology paths, but the store matches
  filters against paths as they are stored. A respelled path passes verification and readiness, and a search
  by its canonical name misses the point (`RespelledPathIsMissed`). `ExactSelectionDecided` gives the exact
  condition on the collection; the service itself always writes canonical paths (`WriteIsPlain`).
- The extraction repository does not look whether another job uses a proposal id, although the table
  demands it. `ProposalIdsStayUnique` gives the exact condition on the call, `RunKeepsProposalIds` the one
  on whole runs, and `SharedProposalIdIsMissed` an input. Among the rules modelled here it is the only one
  that a run of repository calls can break.
- Asking each channel for `k` results is lossless because identities within a channel are distinct;
  `RepeatsLoseResults` shows that it would not be otherwise.
- Parse, print, parse is not the identity in general: stripping can uncover an indented marker
  (`IndentedMarkerIsUncovered`). `RoundTripDecided` and `TextRoundTripDecided` give the exact condition on
  the reveal, `ReparseDecidedByLines` the one on the lines before they are cleaned.
- Window ends are not monotone. `EndsStepBackDecided` says exactly when an end steps back, and that it
  does so by one character; `EndsCanStepBack` shows a text.

## Model

| member | source | states |
|---|---|---|
| Projections.BuildIsOrderFree | knowledge/projections.py:369-424 | any permutation of the projections builds the same manifest or the same refusal |
| Projections.BuildIsIdempotent | knowledge/projections.py:369-424 | a constructed manifest rebuilds from its own dump, so its validators accept it again |
| Projections.ValidIsCanonical | knowledge/projections.py:369-424 | a valid manifest lists distinct valid projections in increasing point order |
| Projections.AuthorizeKeepsIdentity | knowledge/projections.py:718-737 | authorising succeeds exactly for a pending manifest, a named human and a reason, and keeps id, hash, points and projections |
| Projections.MarkIngestedKeepsIdentity | knowledge/projections.py:739-757 | marking ingested succeeds exactly for a receipt that names this authorised manifest, and changes its status only |
| Projections.HashDeterminesContent | knowledge/projections.py:383-415 | manifests with one hash hold the same projections, corpus, rules, levels and collection |
| Projections.ManifestsExist | knowledge/projections.py:265-287 | for every point id there is a valid authorised manifest that stores exactly it |
| ManifestContract.StorableDecided | knowledge/projections.py:247-287 | what the validators demand of a projection beyond the types and lengths of its fields: marks, statuses, rank, support, text, lists, and no field of another kind |
| ManifestContract.BuildDecided | knowledge/projections.py:369-424 | a manifest is built exactly from valid distinct projections, with rules, the schema and a fitting authorization, when every identity and expectation handed over is met; what its digest covers |
| ManifestContract.AuthorizeDecided | knowledge/projections.py:718-737 | only a pending manifest, only by a named human and with a reason, and it records the two |
| ManifestContract.MarkDecided | knowledge/projections.py:739-757 | only an authorised manifest, only with a receipt for exactly its points |
| ManifestContract.HumanDecided | knowledge/governance.py:122-128 | which names count as human, with the automated actors written out |
| VectorStore.Collection.Create | retrieval/qdrant_service.py:245-251 | creating leaves an empty collection with the requested size and cosine distance |
| VectorStore.Collection.Upsert | retrieval/qdrant_service.py:342-346 | an upsert reaches its points one at a time; every intermediate state is the batch applied that far |
| VectorStore.Collection.SetStatus | retrieval/qdrant_service.py:351-356 | a status patch reaches its points one at a time and skips missing ones |
| VectorStore.Collection.Delete | retrieval/qdrant_service.py:434-439 | exactly the named points go |
| Governance.Index | retrieval/qdrant_service.py:404-407 | every point id of the projections and no other, each with a projection of that id |
| StoredPoints.ValidCarries | retrieval/qdrant_service.py:830-904 | a point the per-point check accepts carries, once its lists are normalised as the schema does, exactly the projection its checksum names |
| StoredPoints.BoundCarries | retrieval/qdrant_service.py:830-856 | a projection bound to a manifest, staged or ingested, is recovered from its payload unchanged |
| StoredPoints.BoundIsValid | retrieval/qdrant_service.py:858-904 | every bound projection passes the per-point check in the state it is stored in |
| StoredPoints.FlipKeepsValid | retrieval/qdrant_service.py:351-360 | changing the review state keeps an accepted point accepted under the new state |
| StoredPoints.StatusIsNotCarried | retrieval/qdrant_service.py:830-856 | the recomputed checksum does not depend on the staging state |
| StoredPoints.RespellingIsAccepted | retrieval/qdrant_service.py:830-904 | the per-point check accepts every spelling of the ontology paths that normalises to the projection's |
| StoredPoints.OmissionIsDefault | knowledge/projections.py:175-228 | leaving a field out says the same as storing its default, with the defaults written out |
| StoredPoints.OthersAreRequired | knowledge/projections.py:175-228 | no field without a default may be left out |
| StoredPoints.OwnIsBearing | retrieval/qdrant_service.py:858-904 | a point is the manifest's own exactly if it carries its projection under its id with these twelve field values |
| PathNames.NormalPathIsCanonical | knowledge/ontology.py:8-25 | whatever a path normalises to normalises to itself |
| PathNames.NormalPathsIsIdempotent | knowledge/ontology.py:28-29 | normalising a list twice is normalising it once |
| PathNames.SamePathsDecided | knowledge/ontology.py:28-29 | a list and its normal form hold the same paths exactly when all its paths are canonical |
| PathNames.CanonicalDecided | knowledge/ontology.py:8-25 | the canonical paths, character by character |
| PathNames.PathDecided | knowledge/ontology.py:11-25 | which paths are refused: blank, with a slash, with an empty segment, or of one segment |
| PathNames.SeparatorsBecomeOne | knowledge/ontology.py:18-19 | whatever stands between two words becomes one underscore |
| PathNames.HumpsAreSplit | knowledge/ontology.py:18-19 | a hump splits two words, and case is dropped |
| Publication.WrittenIsExact | retrieval/qdrant_service.py:450-495 | a collection that passes verification holds the manifest's points and no other |
| Publication.StepKeepsInv | retrieval/qdrant_service.py:314-365 | every step of a write, including a single upsert or flip and a failure, keeps the crash-safety invariant |
| Publication.EveryStateIsCrashSafe | retrieval/qdrant_service.py:314-365 | in every state of every run from any collection: untouched, or only the manifest's own points are stored and none is shown before all of them are; a returned run has published all |
| Visibility.RunShowsExactly | retrieval/qdrant_service.py:314-365 | in every state of every run on a free collection the shown points are exactly those of its phase: those of the start, those not staged again yet, none, those flipped, or all |
| Visibility.PartlyVisibleDecided | retrieval/qdrant_service.py:341-360 | some stored points are readable and some are not exactly in the middle of a flip, or of staging again what was published |
| QdrantService.PartlyVisibleIsReached | retrieval/qdrant_service.py:341-356 | for every manifest of two points or more a run of the service reaches such a state |
| Recovery.StageWrites | retrieval/qdrant_service.py:324-350 | staging over a collection with at most the manifest's points passes the first verification |
| Recovery.PublishWrites | retrieval/qdrant_service.py:351-360 | flipping a verified staging passes the second verification |
| Recovery.WriteDecides | retrieval/qdrant_service.py:314-365 | behind the first checks a write succeeds exactly over a complete, absent or empty fitting collection, then everything is published; otherwise nothing changes |
| WriteContract.WriteSucceedsExactly | retrieval/qdrant_service.py:294-365 | a write succeeds exactly in production mode with writing enabled, on an open service and no bootstrap collection, for a named human with an authorised manifest for this collection, over a complete, absent or empty fitting collection; what receipt and collection then are, and that nothing changes otherwise |
| WriteContract.WriteErrorDecided | retrieval/qdrant_service.py:294-318 | which error a refused write raises |
| WriteContract.AdmissionDecided | retrieval/qdrant_service.py:300-313 | the checks before the collection is looked at, in terms of configuration, actor and manifest |
| WriteContract.FreshWriteStores | retrieval/qdrant_service.py:330-356 | a fresh write stores every projection's fields as they are, the six bindings, and nothing else |
| WriteContract.CompleteDecided | retrieval/qdrant_service.py:450-495 | verification accepts exactly the collections that hold each of the manifest's points, field by field, and no other |
| WriteContract.BootstrapDecided | retrieval/qdrant_service.py:978-983 | which collection names count as bootstrap, with the word written out |
| Recovery.WriteIsIdempotent | retrieval/qdrant_service.py:314-315 | writing again returns the same receipt and changes nothing |
| Recovery.CleanupFrame | retrieval/qdrant_service.py:385-448 | clean-up never touches a foreign point, removes nothing when one of its ids is not its own, and otherwise removes exactly its points |
| Recovery.CleanupDecides | retrieval/qdrant_service.py:393-446 | `cleaned` exactly when every stored point under the manifest's ids is its own, `not_needed` exactly without a collection |
| WriteContract.CleanupDecided | retrieval/qdrant_service.py:385-448 | every answer of a clean-up, and what it removes, in terms of the configuration and the payload fields |
| Recovery.LifeKeepsInv | retrieval/qdrant_service.py:294-448 | any history of interrupted writes and clean-ups of an absent or empty collection stores only the manifest's own points |
| Recovery.RecoveryFromAnyHistory | retrieval/qdrant_service.py:294-448 | from every state of such a history one clean-up empties the collection and one write answers as the first uninterrupted one |
| SearchExactness.PointAgrees | retrieval/qdrant_service.py:662-771 | on an accepted point the store filter, the visibility recheck and the filter recheck ask the same question, and the reference asks it too wherever the stored paths are spelled as in the projection |
| SearchExactness.FiltersAgree | retrieval/qdrant_service.py:922-944 | on every accepted point the store conditions, the recheck and the eight questions about its fields, written out, ask the same |
| SearchExactness.CanonicalFilterMatches | retrieval/qdrant_service.py:922-944 | asked with canonical paths, whatever matches as stored matches as a projection, however it is spelled |
| SearchExactness.PlainPathsDecided | retrieval/qdrant_service.py:922-944 | every filter means the same on a stored payload and on its projection exactly when every stored path is canonical |
| SearchExactness.ClearanceAgrees | retrieval/qdrant_service.py:906-920 | clearance means the same as store conditions, as recheck and on the carried projection |
| SearchExactness.FilterSelectsEligible | retrieval/qdrant_service.py:662-771 | the filter selects from a published collection exactly the projections readable by the caller whose fields share a value with every list asked for, wherever the paths it can see are spelled as in the projections |
| SearchExactness.ExactSelectionDecided | retrieval/qdrant_service.py:662-771 | the selection is exact for every caller and filter exactly when every stored path is canonical |
| SearchExactness.RespelledPathIsMissed | retrieval/qdrant_service.py:450-495 | with a space in front of one stored path verification still passes, and no caller finds that point by the path |
| SearchExactness.PublishedSearchIsExact | retrieval/qdrant_service.py:497-575 | over a published manifest search never raises and returns the store's whole answer, which is the best eligible points wherever the paths the filter can see are spelled as in the projections |
| SearchExactness.SearchNeverLeaks | retrieval/qdrant_service.py:533-571 | over any collection and any answer, a successful search returns only published points of the manifest, field by field, that the caller may read and asked for in their stored spelling; asked with canonical paths also in the projection's |
| SearchContract.FilterDecided | retrieval/qdrant_service.py:662-771 | what the store is asked of any payload at all: ten bindings and marks, level, rank, confidence and the caller's eight lists |
| SearchContract.RecheckDecided | retrieval/qdrant_service.py:533-563 | a hit passes exactly if it is a published point of the manifest, readable and asked for, and which error it raises otherwise |
| SearchContract.SearchDecided | retrieval/qdrant_service.py:497-575 | every answer of a search: who is refused, when it is empty, and otherwise all hits or the error of the first bad one |
| SearchContract.NoManifestNoHit | retrieval/qdrant_service.py:946-976 | without an active manifest no hit is returned |
| InterruptedReads.FilterFindsPublished | retrieval/qdrant_service.py:662-771 | of a manifest's own points, staged or published, the filter finds published ones only |
| InterruptedReads.InterruptedSearchIsSafe | retrieval/qdrant_service.py:497-575 | in every state a publication can be stopped in, search raises nothing, returns shown points the caller may read, and any at all only if every point of the manifest is stored |
| InterruptedReads.SearchThroughHistory | retrieval/qdrant_service.py:294-575 | in every state of every history of interrupted writes and clean-ups of an empty collection search raises nothing and returns eligible points only; if it returns any, every point is stored exactly unless a clean-up has begun to delete and the collection was not emptied since |
| InterruptedReads.InterruptedCleanupShowsPart | retrieval/qdrant_service.py:434-439 | a clean-up stopped after one deletion leaves the other points of a published manifest readable |
| InterruptedReads.WriteIsPlain | retrieval/qdrant_service.py:324-360 | after a receipt every stored path is canonical exactly if it was so in a collection found complete; what the service writes itself always is |
| SearchExactness.ReadinessIsPublished | retrieval/qdrant_service.py:121-222 | readiness accepts exactly a published collection with the configured vectors |
| SearchContract.ReadinessDecided | retrieval/qdrant_service.py:121-222 | a service for the manifest is ready exactly when it is open, is asked about exactly its points and checksums, and the collection is complete with the configured vectors |
| SearchExactness.ReceiptIsReadyExactly | retrieval/qdrant_service.py:314-318 | after a receipt the service is ready exactly if a collection found on entry had the configured vectors |
| SearchExactness.ReceiptWithoutReadiness | retrieval/qdrant_service.py:314-318 | what a service configured for larger vectors has written is a collection for which a receipt is returned and readiness refuses |
| QdrantService.StagingIsChain | retrieval/qdrant_service.py:342-346 | the batch upsert is a chain of single-point steps |
| QdrantService.FlippingIsChain | retrieval/qdrant_service.py:351-356 | the status patch is a chain of single-point steps |
| QdrantService.QdrantService.WriteManifest | retrieval/qdrant_service.py:294-365 | answer and collection are those of the decision function; who may not write is refused with its error and without a change, and otherwise the calls made are a run of the crash-safe step system |
| QdrantService.QdrantService.StageAndPublish | retrieval/qdrant_service.py:319-365 | stage, verify, flip and verify, as a chain of steps ending in the answer |
| QdrantService.QdrantService.CleanupManifestPoints | retrieval/qdrant_service.py:385-448 | the loop answers and deletes as the decision function says |
| QdrantService.QdrantService.SearchDocuments | retrieval/qdrant_service.py:497-575 | the recheck loop returns every hit or the first refusal |
| QdrantService.RefusalIsFinal | retrieval/qdrant_service.py:534-563 | the first hit that fails a recheck decides the answer |
| QdrantService.ClosedServiceIsInert | retrieval/qdrant_service.py:224-236 | a closed service changes nothing and returns no receipt and no hit |
| ExtractionRepository.ExtractionJobRepository.CreateJob | persistence/extraction_jobs.py:234-288 | the idempotent creation, on rows updated in place |
| ExtractionRepository.ExtractionJobRepository.StartAttempt | persistence/extraction_jobs.py:296-313 | the field-by-field start equals the transition decided by `StartDecided` |
| ExtractionRepository.ExtractionJobRepository.SucceedAttempt | persistence/extraction_jobs.py:315-331 | a success report with a malformed checksum changes nothing |
| ExtractionRepository.ExtractionJobRepository.FailAttempt | persistence/extraction_jobs.py:333-349 | a failure report with an unsafe code changes nothing |
| ExtractionRepository.ExtractionJobRepository.FinishAttempt | persistence/extraction_jobs.py:451-538 | the replay-safe completion, on rows updated in place |
| ExtractionRepository.ExtractionJobRepository.StoreProposalArtifact | persistence/extraction_jobs.py:360-428 | the write-once artifact store, on rows appended in place |
| ExtractionLifecycle.ApplyKeepsInv | persistence/extraction_jobs.py:296-538 | every call keeps numbering, outcomes, mirrored job row, artifact fit and key index |
| ExtractionLifecycle.EveryRunKeepsInv | persistence/extraction_jobs.py:296-538 | the invariant holds after every run from empty tables |
| ExtractionLifecycle.LateCompletion | persistence/extraction_jobs.py:470-488 | completing an ended attempt changes nothing and returns the stored outcome exactly when it reports it |
| ExtractionLifecycle.OnlyTheActiveAttemptEnds | persistence/extraction_jobs.py:489-538 | only the running attempt can be ended, once; its one row is added, the job's row takes its outcome, and nothing else changes |
| ExtractionLifecycle.ApplyExtends | persistence/extraction_jobs.py:296-538 | attempts and artifacts are only appended, specifications and succeeded rows stay |
| ExtractionLifecycle.OutcomeIsWriteOnce | persistence/extraction_jobs.py:463-494 | whatever calls come later, a recorded outcome stays and answers every later report |
| ExtractionLifecycle.ArtifactIsWriteOnce | persistence/extraction_jobs.py:390-413 | whatever calls come later, a stored artifact stays; storing again returns it or raises |
| ExtractionLifecycle.SuccessIsFinal | persistence/extraction_jobs.py:299-303 | after success no call changes the job, its attempts or its artifact |
| ExtractionLifecycle.CreateIsIdempotent | persistence/extraction_jobs.py:234-242 | creating the same specification again, after any calls, returns the first job |
| ExtractionLifecycle.FindIsIndex | persistence/extraction_jobs.py:464-469 | with gapless numbers the lookup by number is the position in the history |
| ExtractionContract.StartDecided | persistence/extraction_jobs.py:296-313 | a job is started exactly if it is queued or has failed; the next attempt runs and the last outcome is cleared |
| ExtractionContract.FinishDecided | persistence/extraction_jobs.py:451-538 | a report is accepted exactly if it tells what is recorded or ends the running attempt, a success only with its stored artifact |
| ExtractionContract.StoreDecided | persistence/extraction_jobs.py:360-428 | a proposal in order is stored exactly if its job runs and has none, and a stored one is returned exactly to its replay |
| ExtractionContract.FinishErrorDecided | persistence/extraction_jobs.py:451-505 | which error a refused report raises |
| ExtractionContract.StoreErrorDecided | persistence/extraction_jobs.py:360-415 | which error a refused proposal raises |
| ExtractionContract.CreateDecided | persistence/extraction_jobs.py:234-288 | creation returns the job of the specification, or adds a queued one under a free identifier |
| ExtractionContract.SafeCodeDecided | persistence/extraction_jobs.py:644-650 | which error codes are safe |
| ExtractionContract.EveryJobCanSucceed | persistence/extraction_jobs.py:296-538 | from the tables any run has left, at most three calls let any job that has not succeeded succeed, with its artifact |
| JobCreation.StepKeepsWorld | persistence/extraction_jobs.py:234-288 | every step of every interleaving keeps open inserts apart and the log of decided calls sequential |
| JobCreation.InterleavingIsSequential | persistence/extraction_jobs.py:234-288 | whatever the interleaving, tables and answers are those of the logged calls made one after the other |
| JobCreation.OneJobPerSpecification | persistence/extraction_jobs.py:263-283 | over all interleavings every call for one specification names one job, and at most the first of them creates it |
| JobCreation.ApprovedIsAnswered | persistence/extraction_jobs.py:234-288 | an approved call gets the job of its key, or creates it, or is refused for a taken identifier alone; its key never belongs to another specification |
| JobCreation.StoredIsClaimed | persistence/extraction_jobs.py:234-288 | a job is stored exactly if some call was told that it created it |
| JobCreation.InterleavingKeepsInv | persistence/extraction_jobs.py:234-538 | the committed tables of every interleaving keep the whole-run invariant |
| JobCreation.CreateIsItsSteps | persistence/extraction_jobs.py:234-288 | with no other transaction in the way, select, insert, second read and commit do what the atomic creation does |
| JobCreation.LostInsertReadsWinner | persistence/extraction_jobs.py:267-283 | two calls race, the second loses its insert to the first and answers with its job |
| JobCreation.RollbackFrees | persistence/uow.py:56-60 | a rolled-back insert leaves no trace, and whoever waited for it alone goes on |
| DatabaseGuards.NoGuardFires | persistence/models.py:2262-2370 | on reachable tables no call makes a row change that a CHECK, a uniqueness rule on attempts or a guard refuses |
| DatabaseGuards.InvMeetsJobChecks | persistence/models.py:1128-1142 | the run invariant implies the state, time-order and error-code checks of every job row |
| DatabaseGuards.InvMeetsUnique | persistence/models.py:1255-1260 | the run invariant implies one row an attempt number, one artifact a job and one job a specification |
| DatabaseGuards.UpdatesPass | persistence/models.py:2273-2348 | every update follows an allowed transition with frozen fields unchanged |
| DatabaseGuards.NewAttemptsPass | persistence/models.py:1236-1254 | every new attempt row passes its checks |
| DatabaseGuards.NewArtifactsPass | persistence/models.py:2351-2370 | every new artifact passes the insert guard |
| DatabaseGuards.InsertionDecided | persistence/extraction_jobs.py:378-428 | on reachable tables a call inserts an artifact exactly when the guards of the inserting branch hold |
| DatabaseGuards.ProposalIdsStayUnique | persistence/models.py:1320-1322 | a call keeps proposal ids unique across jobs exactly when, should those guards hold, its id is not used yet |
| DatabaseGuards.RunKeepsProposalIds | persistence/models.py:1320-1322 | after any run proposal ids are unique exactly when every inserting call of it brought a fresh one |
| DatabaseGuards.SharedProposalIdIsMissed | persistence/extraction_jobs.py:390-428 | two running jobs can store under one proposal id |
| DatabaseGuards.TwoRunningJobs | persistence/extraction_jobs.py:296-313 | tables with two running jobs are reachable |
| RetrievalFusion.OfferAll | app/service.py:124-141 | after any offers the dictionary maps every identity to an offer of that identity |
| RetrievalFusion.BestIsOffered | app/service.py:132-141 | the dictionary holds, for every identity offered, one of its offers that no other beats |
| RetrievalFusion.FusionKeepsTheBest | app/service.py:124-147 | for any offers: rank order, no identity twice, each by its best offer, and what is left out is beaten by a full list |
| RetrievalFusion.FusionRefinesFirsts | app/service.py:124-147 | for offers in rank order fusion is: drop later repeats, take the limit |
| RetrievalFusion.TruncationIsLossless | app/service.py:126-131 | asking each channel for `k` distinct results loses nothing of the first `k` |
| RetrievalFusion.RepeatsLoseResults | app/service.py:126-131 | with a repeated identity in a channel truncation can lose a result |
| RetrievalContract.PlanDecided | retrieval/routing.py:36-91 | what each channel of a plan asks for and under which priority, with types, origins, levels and paths written out |
| RetrievalFusion.ChannelsAreRanked | app/service.py:125-138 | ascending priorities and descending scores put all offers in rank order |
| RetrievalFusion.RetrieveIsFirstK | app/service.py:115-147 | for the plan decided by `PlanDecided`, the answer equals the first `k` of the untruncated channel lists without repeats |
| RetrievalFusion.Retrieve | app/service.py:124-147 | the nested loops compute the fusion of everything offered |
| RetrievalFusion.OfferTo | app/service.py:138-141 | the dictionary update of the inner loop |
| RetrievalContract.IdentityDecided | app/service.py:133-137 | results are the same by unit, else by artifact, else by text |
| PublishedRetrieval.AnswerBeginsRanking | retrieval/qdrant_service.py:517-532 | any best-`k` answer is the beginning of a complete ranking |
| PublishedRetrieval.ChannelRanking | app/service.py:126-131 | a channel's search over a published manifest succeeds, and its answer begins a complete ranking of all its filter selects |
| PublishedRetrieval.PublishedRetrievalIsFirstK | app/service.py:115-147 | end to end: every channel's search succeeds with exactly the store's answer, and the fused answer is the first `k` of the channels' complete rankings; these rank exactly the eligible projections, where the question is about attention if every stored path is canonical |
| RetrievalContract.ChannelsAsk | app/service.py:125-131 | each channel asks for exactly the readable projections of the domains that its rank is about |
| RetrievalContract.AnswerDecided | app/service.py:115-147 | the answer to a question, in projection fields: the first `k` of all readable projections of its domains that some rank is about, lowest rank and best score first, each once and under its lowest rank |
| RevealParser.OpeningFenceMatches | app/reveal_parser.py:39 | a line opens a fence exactly when it reads as up to three spaces and a maximal run of three or more marks |
| RevealParser.ClosingFenceMatches | app/reveal_parser.py:122-131 | a line closes a fence exactly when it reads as indent, a run of its mark at least as long, and blanks |
| RevealContract.MarkerLineMatches | app/reveal_parser.py:38 | a line looks like a marker exactly when it reads as the pattern, written out, around a body without brackets and line breaks |
| RevealContract.OrderDecided | app/reveal_parser.py:28-37 | the four markers and their order, written out |
| RevealParser.ParseLines | app/reveal_parser.py:51-102 | the line loop computes the machine's result |
| RevealParser.AppendLine | app/reveal_parser.py:105-114 | a line goes to the active section, or to the lead before the first marker |
| RevealParser.FeedConcat | app/reveal_parser.py:58-85 | the machine reads a concatenation as one part after the other |
| RevealPartition.PartitionIsExact | app/reveal_parser.py:51-88 | the final state is the one tidy partition whose parts and markers rebuild the input line for line |
| RevealPartition.StepKeepsTidy | app/reveal_parser.py:58-85 | one line extends the rebuilt text by itself and keeps orders ascending, parts quiet and fences closed |
| RevealPartition.TidyIsReached | app/reveal_parser.py:58-85 | every tidy partition is what the parser makes of its own rebuilt lines |
| RevealPartition.RejectionDecided | app/reveal_parser.py:72-83 | the machine refuses exactly when some line outside all fences is an unknown, repeated or misplaced marker |
| RevealContract.RefusalDecided | app/reveal_parser.py:58-83 | the same without the machine: on the marker pattern, the four markers, and the lines that open and close fences |
| RevealContract.ParseDecided | app/reveal_parser.py:87-102 | an input that is not refused is a reveal exactly if some act holds more than whitespace; lead, acts in order and synthesis are what its parts hold |
| RevealPartition.InsideFenceIffOpened | app/reveal_parser.py:59-70 | a position is inside a fence exactly when an outside line opened it and no line since closed it |
| RevealRoundTrip.JoinSplit | app/reveal_parser.py:117-119 | joining the lines of a text gives the text |
| RevealRoundTrip.SplitJoin | app/reveal_parser.py:117-119 | joining lines without breaks forgets nothing |
| RevealRoundTrip.CleanSize | app/reveal_parser.py:117-119 | cleaning never adds characters, and keeps all of them only on lines that were clean |
| RevealRoundTrip.PrintThenParse | app/reveal_parser.py:42-102 | a well-formed, printable reveal comes back from its printed lines unchanged |
| RevealRoundTrip.ExtractIsWellFormed | app/reveal_parser.py:90-102 | whatever is parsed has ordered acts and stripped, non-empty contents, each from its own section |
| RevealRoundTrip.OnlyThePrintedState | app/reveal_parser.py:51-102 | only the printed partition of the printed lines reads back as the reveal |
| RevealRoundTrip.RoundTripDecided | app/reveal_parser.py:42-102 | print then parse returns the reveal exactly when it is well-formed and printable |
| RevealRoundTrip.ReparseDecided | app/reveal_parser.py:42-119 | what a parse returned survives print and parse exactly when it is printable |
| RevealRoundTrip.IndentedMarkerIsUncovered | app/reveal_parser.py:117-119 | an indented marker as first content line is text the first time and a marker the second |
| RevealText.LinesAreClear | app/reveal_parser.py:58 | no line of a split text holds a line-break character |
| RevealText.LinesDecided | app/reveal_parser.py:58 | the first line break, with the break characters written out, ends the first line and the rest is split in turn |
| RevealText.SplitLinesJoin | app/reveal_parser.py:58 | joined lines split back into themselves, but for a final empty one |
| RevealText.ParseReveal | app/reveal_parser.py:42-102 | the parser on text: split into lines, then the loop |
| RevealText.TextHasPrintedLines | app/reveal_parser.py:58 | the printed text of a well-formed reveal splits into the printed lines |
| RevealText.ParsedHasPlainBreaks | app/reveal_parser.py:90-119 | whatever is parsed from text is well-formed and uses no line break but the line feed |
| RevealText.TextRoundTripDecided | app/reveal_parser.py:42-119 | on text, print then parse returns the reveal exactly when it is well-formed, printable and uses no other line break |
| RevealReparse.CleanIsTrim | app/reveal_parser.py:117-119 | cleaning drops blank outer lines and strips the outer sides of the first and last inked line, and nothing else |
| RevealReparse.PrintedIsTrimmed | app/reveal_parser.py:90-119 | what is printed of a parsed reveal is the partition of its input, trimmed part by part |
| RevealReparse.ReparseDecidedByLines | app/reveal_parser.py:42-119 | a parsed input survives print and parse exactly when its trimmed parts are still quiet and closed |
| RevealReparse.FlushReparses | app/reveal_parser.py:117-119 | an input whose parts have no outer whitespace on their outer inked lines always survives |
| TextWindows.RFind | knowledge/chunking.py:58 | the last match lying wholly in the range, or -1 when there is none |
| TextWindows.EndOf | knowledge/chunking.py:56-60 | a window is never empty and never longer than `size` |
| TextWindows.NextStart | knowledge/chunking.py:66-69 | the next start moves forward, not past the end, and keeps at most the overlap |
| TextWindows.Windows | knowledge/chunking.py:53-69 | the nested loops stop and yield the stripped raw ranges |
| TextWindows.RangesAreChained | knowledge/chunking.py:53-69 | at most one range a character; starts strictly increase, ranges touch, share at most the overlap and reach the end |
| TextWindows.OverlapIsFull | knowledge/chunking.py:66-69 | of the overlap the next range drops leading whitespace and nothing else |
| TextWindows.EveryPositionIsInARange | knowledge/chunking.py:53-69 | touching ranges leave no position out |
| TextWindows.WindowsCoverTheText | knowledge/chunking.py:53-69 | windows are trimmed non-empty slices within `size`, and every character that is not whitespace is in one |
| TextWindows.CutsFollowBreaks | knowledge/chunking.py:57-60 | a window is cut inside a word only if it holds no break behind its first character, and at the last break otherwise |
| TextWindows.EndsStepBackDecided | knowledge/chunking.py:56-69 | exactly when the next end is smaller, and that it is smaller by one |
| TextWindows.EndsCanStepBack | knowledge/chunking.py:56-69 | a text whose second window ends before its first |
| Chunking.ChunkDocument | knowledge/chunking.py:26-50 | the loops produce the chunks or the first error |
| Chunking.ChunksAreTraceable | knowledge/chunking.py:33-47 | chunk `i` has number `i`, a bounded trimmed text of heading, blank line and a window, and the locators of its section |
| Chunking.ChunksCoverTheDocument | knowledge/chunking.py:33-47 | every character of every section that is not whitespace is in a window some chunk ends with |
| Chunking.FailureDecided | knowledge/chunking.py:48-50 | within valid limits chunking fails exactly on documents of nothing but whitespace |
| Chunking.ErrorDecided | knowledge/chunking.py:72-76 | which error is raised, and when none is |
| Chunking.FittingSectionIsOneChunk | knowledge/chunking.py:35-47 | a section that fits with its heading is one chunk, heading and all |
| Chunking.LimitsDecided | knowledge/chunking.py:35-37 | how much of a chunk the heading leaves to its windows, and how much they overlap |
| Chunking.ChunksAreInOrder | knowledge/chunking.py:33-47 | chunks come in document order, one for each window, each its heading, a blank line and the window |
| Chunking.PrefixedKeepsWindow | knowledge/chunking.py:41 | stripping the prefixed window keeps the window whole at the end |
| BootstrapSnapshot.BuildSnapshot | retrieval/bootstrap_snapshot.py:262-399 | the method makes the digest and ledger checks, scans, and computes the merge decided below |
| BootstrapSnapshot.Scan | retrieval/bootstrap_snapshot.py:297-309 | the dictionary loop finds the first conflict, the distinct projections in order, and the repeated ids |
| BootstrapSnapshot.CountSafePoints | retrieval/bootstrap_snapshot.py:311-318 | the per-input safety count |
| SnapshotAccounting.ConflictDecided | retrieval/bootstrap_snapshot.py:297-308 | there is a conflict exactly when two different projections share an id |
| SnapshotAccounting.RepeatsAreShared | retrieval/bootstrap_snapshot.py:309 | the duplicates are the ids both inputs hold, each once |
| SnapshotAccounting.OutputIsAdmissible | retrieval/bootstrap_snapshot.py:320-345 | the output is the admissible projections in strictly ascending order |
| SnapshotAccounting.LineageIsAccepted | retrieval/bootstrap_snapshot.py:147-185 | baseline plus delta minus duplicates minus excluded is the output, so every lineage validator accepts |
| SnapshotAccounting.MergeDecided | retrieval/bootstrap_snapshot.py:262-399 | a merge of valid manifests succeeds exactly when it is mergeable, never fails an internal check, and composes exactly the admissible content |
| SnapshotAccounting.MergeIsSymmetric | retrieval/bootstrap_snapshot.py:290-399 | with the inputs swapped: same verdict, same conflict verdict, same manifest, duplicates and exclusions |
| SnapshotContract.SnapshotDecided | retrieval/bootstrap_snapshot.py:262-399 | a merge goes through exactly on these digests, ledger, agreeing points, policy and something to keep; the snapshot holds exactly the projections that are neither withheld methods nor named by the policy, and what every count of its lineage counts |
| SnapshotContract.MergeErrorDecided | retrieval/bootstrap_snapshot.py:278-347 | which error a refused merge raises |
| SnapshotContract.IdentifiedDecided | retrieval/bootstrap_v03.py:45-77 | when a bootstrap manifest is identified, what its digest covers, and that expectations handed over are met |
| SnapshotContract.KeepsDecided | retrieval/bootstrap_v03.py:230-242 | which projections are withheld, in roles and levels |
| SnapshotContract.CountDecided | retrieval/bootstrap_snapshot.py:425-443 | the safe count is the number of inputs that are not withheld |
| BootstrapSync.Client.CreateCollection | retrieval/bootstrap_v03.py:182-189 | an absent collection is created empty |
| BootstrapSync.Client.Upsert | retrieval/bootstrap_v03.py:204-208 | a batch overwrites its points in order |
| BootstrapSync.Client.Scroll | retrieval/bootstrap_v03.py:249-255 | a page of any size up to the limit and what is behind it make up what there was to read |
| BootstrapSync.Client.Delete | retrieval/bootstrap_v03.py:261-265 | exactly the named points go |
| BootstrapSync.Client.Retrieve | retrieval/bootstrap_v03.py:285-290 | exactly the stored ones among the ids are returned |
| BootstrapSync.ScrollAll | retrieval/bootstrap_v03.py:245-258 | the scroll loop stops and has seen every id, whatever the page boundaries |
| BootstrapSync.DeleteInBatches | retrieval/bootstrap_v03.py:259-265 | the batches together delete exactly the list |
| BootstrapSync.RemoveStalePoints | retrieval/bootstrap_v03.py:245-265 | exactly the expected points stay, unchanged |
| BootstrapSync.UpsertInBatches | retrieval/bootstrap_v03.py:203-208 | the batches together upsert the whole manifest |
| BootstrapSync.Verify | retrieval/bootstrap_v03.py:281-309 | verification succeeds exactly on a collection of that size in which every manifest point carries its checksum and markers |
| BootstrapSync.VerifyPayloads | retrieval/bootstrap_v03.py:296-309 | the payload loop accepts exactly when every point carries its checksum and markers |
| BootstrapSync.VerifiedIsExact | retrieval/bootstrap_v03.py:281-309 | a verified collection holds no id outside the manifest |
| BootstrapSync.SyncForgetsThePast | retrieval/bootstrap_v03.py:203-209 | upsert and removal leave the manifest's points whatever was there before |
| BootstrapSync.SyncedIsVerified | retrieval/bootstrap_v03.py:281-309 | the synced collection passes every check |
| BootstrapSync.SelectedFacts | retrieval/bootstrap_v03.py:156-162 | exactly the storage-safe projections of sources that are not excluded are written |
| BootstrapSync.WriteV03 | retrieval/bootstrap_v03.py:142-217 | it stops before touching a point, or leaves exactly the manifest's points and cannot fail verification |
| SnapshotContract.SyncDecided | retrieval/bootstrap_v03.py:142-217 | when the writer stops before it touches a point, and that it otherwise leaves exactly the written projections, each with its marker, checksum and manifest |
| SnapshotContract.VerifiedDecided | retrieval/bootstrap_v03.py:281-309 | verification in terms of ids, checksums and markers |
| AuditPages.AuditEventRepository.Append | persistence/audit.py:101-121 | one event is added under a new id, nothing is changed |
| AuditPages.AuditEventRepository.ListPage | persistence/audit.py:151-211 | the two argument errors, and otherwise the page of the cursor with an exact `has_more` |
| AuditPages.Matching | persistence/audit.py:179-205 | exactly the events that meet every given condition and lie beyond the cursor |
| AuditPages.RowsFacts | persistence/audit.py:179-210 | the selected rows are the matching events, each once, strictly newest first |
| AuditPages.TakeTwice | persistence/audit.py:207-211 | fetching one row more decides `has_more` and is not shown |
| AuditPages.RowsBehind | persistence/audit.py:196-205 | with the last row as cursor the next rows are exactly those behind it |
| AuditPages.WalkFacts | persistence/audit.py:174-211 | pages read while events are appended stay strictly newest first and miss no earlier event that is not still ahead |
| AuditPages.FinishedWalkIsComplete | persistence/audit.py:174-211 | a walk told there is no more has every matching event of the first call, none twice, and only matching ones |
| AuditPages.QuietWalkIsTheList | persistence/audit.py:207-211 | without appends the pages are the sorted list cut up and `has_more` is false exactly at its end |
| AuditPages.PageDecided | persistence/audit.py:151-211 | a page field by field: only events asked for, newest first, nothing newer left out, and more exactly if one is left out |
| Idempotency.IdempotencyRepository.Begin | persistence/idempotency.py:57-136 | normalised key, existing record, lost insert with or without a winner at the second read, or fresh record, with the rows each leaves |
| Idempotency.IdempotencyRepository.Complete | persistence/idempotency.py:138-167 | only an in-progress record takes a valid response, once, and then replays it |
| Idempotency.KeyDecided | persistence/idempotency.py:66-69 | when a request has a key, which it is, and which error it raises otherwise |
| Idempotency.SharedKeyDecided | persistence/idempotency.py:66-78 | two requests share a key exactly if actor, scope and key agree, outer whitespace aside |
| Idempotency.RequestDecided | persistence/idempotency.py:79-136 | who owns a key, with a fresh record's lock and expiry, and what a record met answers |
| Idempotency.CompletionDecided | persistence/idempotency.py:138-167 | completing keeps digest and expiry and answers every later request of that digest |
| IdempotentRuns.StepKeepsInv | persistence/idempotency.py:57-167 | every step of every interleaving keeps the invariant |
| IdempotentRuns.AtMostOnce | persistence/idempotency.py:57-167 | over all interleavings at most one committed effect a key, all answers of a key agree in hash and response, and an answered key has had its effect |
| IdempotentRuns.StepExtends | persistence/idempotency.py:118-167 | committed records are never rewritten, effects and answers never taken back |
| IdempotentRuns.LaterAnswersReplay | persistence/idempotency.py:127-133 | once a completion is committed every later answer under its key is that response for that hash |
| IdempotentRuns.BeginIsItsSteps | persistence/idempotency.py:79-116 | select, any steps of others, insert, again any steps of others and a second read decide as `begin` does |
| IdempotentRuns.WinnerIsFound | persistence/idempotency.py:109-115 | in no run is the winner of a lost insert gone at the second read |
| IdempotentRuns.FreshRequestCompletes | persistence/idempotency.py:83-116 | a request nobody made or is making goes through with its effect and its answer |
| IdempotentRuns.RepeatedRequestReplays | persistence/idempotency.py:118-136 | a request made again after it completed gets its response, and another one under its key is refused |
| IdempotentRuns.RollbackLeavesNothing | persistence/uow.py:56-60 | a rolled-back owner leaves no trace and frees the key |
| UnitOfWork.SqlAlchemyUnitOfWork.Enter | persistence/uow.py:29-34 | entering twice is refused, otherwise a transaction opens on the committed content |
| UnitOfWork.SqlAlchemyUnitOfWork.Write | persistence/uow.py:36-40 | the session exists only while active |
| UnitOfWork.SqlAlchemyUnitOfWork.Commit | persistence/uow.py:45-54 | publishes what is staged once; a refused commit rolls back and ends the transaction |
| UnitOfWork.SqlAlchemyUnitOfWork.Rollback | persistence/uow.py:56-60 | ends an open transaction, and is harmless otherwise |
| UnitOfWork.SqlAlchemyUnitOfWork.Exit | persistence/uow.py:62-77 | drops whatever was not committed and allows a new entry |
| UnitOfWork.FinishedIsFinal | persistence/uow.py:45-77 | after the first ending call nothing in the context reaches the database |
| UnitOfWork.OmittedCommitChangesNothing | persistence/uow.py:16-22 | without an accepted commit the database keeps what it had |
| UnitOfWork.FirstEndDecides | persistence/uow.py:45-77 | a context publishes exactly what was staged at its first ending call, and only if that was an accepted commit |
| UnitOfWork.RefusalDecided | persistence/uow.py:29-60 | when each call is refused, and that a commit publishes what is staged exactly when it is not |
| UnitOfWork.StagedIsLastWrite | persistence/uow.py:29-40 | entering reads the database afresh, and what is staged is the last write |

## Left out

- Bootstrap mode of the vector-store service: search and readiness are modelled for production mode; the snapshot writer of bootstrap mode is modelled on its own.
- `validate_readiness` is a function over the collection and not a method, since it changes nothing.
- Embeddings, distances and payload indexes: a score per point and the store's best-`k` contract replace them.
- Failing clients: every store call of a write may fail, which ends the run in the step system; the methods themselves run on a client that answers.
- Two processes writing the production collection at once.
- Pydantic coercion, UUID syntax, and timestamps of receipts and manifests.
- The enumerations, minimum lengths and number ranges of a projection's fields, which only narrow the valid ones.
- Two validators of a projection, which change nothing and only narrow the valid ones: that its id derives from artifact and version, and that its text holds no raw source chunk.
- ExtractionRepository.ExtractionJobRepository.CreateJob: does not model the source, review, permission and citation checks one by one; they enter as one condition, because they only refuse a call before anything is written.
- The branch of `create_job` for SQLite, which inserts without a savepoint and raises when it loses.
- JSON screening of snapshots and payloads enters as "accepted or not".
- QdrantService.QdrantService.Close: does not model releasing the client, clearing the query cache or a failing close; it states only that the service stays closed.
- The foreign keys of the extraction tables, and the checks on columns that are not modelled.
- AuditPages.AuditEventRepository.Append: does not model the screening of roles, metadata and checksums, because it only rejects inputs before the insert.
- Scores that are not numbers, and rounding of scores.
- The chunk's section model admits empty texts and page zero, which the section class refuses.
- Idempotency.IdempotencyRepository.Begin: does not model two sessions on one table; the tables that the insert and the second read meet are parameters, and `IdempotentRuns` has the interleavings.
- The file readers of the snapshot merge.
- The router's term tables: whether a query is about attention, and its domains, are parameters.
- The validators of a caller's authorization, which only rule out some combinations of clearance and levels.
- HTTP routes, sessions, passwords, configuration, ingestion of files, analyzer rubrics, release tooling: request plumbing, finite tables or foreign calls, which would add easy members only.
