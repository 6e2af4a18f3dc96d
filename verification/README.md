# Decision assurance: a verified model of its protocols

This project models the stateful protocols of the decision-assurance service and proves what holds over all their
runs. Everything is Dafny; `dafny verify dfyconfig.toml` checks it.

- **The leased research job queue** (`Job*.dfy`). One table of jobs with an append-only event log. Every repository
  method is one transaction, given as a function on tables and as a method of a class proved equal to it. A run is any
  interleaving of submitters, workers, cancellers, retriers and the recovery sweep, at any clock values. Proved: the
  log replays to the row, lease fencing, a bound on every run, the claim order, the tenant cap, the back-off, and the
  worker's turn in the middle of everybody else's.
- **Deletion against legal holds** (`Lifecycle*.dfy`). The store is a class; each service call is split into its
  repository calls and clock readings, and these steps interleave freely. Proved: hash chains, completion once and for
  good, cases going only unheld, alternating holds, ordered stamps, and what each call answers: as promised alone
  (`LifecyclePromises`, `LifecycleCalls`), and in a race one of a few ways (`LifecycleAnswers`).
- **The research run** (`Research*.dfy`, `EvidenceRules.dfy`, `DecisionHandoff.dfy`, `DecisionContracts.dfy`). One run
  object changed in place by search, extraction, conflict marking, handoff, retry and cancel; providers, caches,
  clocks and cancellation answer freely. Proved: what COMPLETED means, that no transition, save or lookup ever fails,
  that no source is left half-way, what becomes of every result and page the providers gave, that spending stays within
  the budget, and what racing holders of one run can and cannot do to each other.
- **Hash-chained logs and their offline validator** (`AuditChain.dfy`, `LifecycleExport.dfy`, `ResearchExport.dfy`).
- **Idempotency reservations and the tool service around them, the provider circuit breaker, the run codec, and intake
  to verdict** (`Idempotency.dfy`, `Mcp*.dfy`, `CircuitBreaker.dfy`, `RunCodec.dfy`, `Intake*.dfy`,
  `GovernanceEngine.dfy`).

## How to read it

A run is a sequence of operations `ops` with the sequence of states between them, related by `History`; a theorem on
runs speaks of any index of any such history. Methods of classes end in a clause that equates the new state with a
function of the old one (`XxxOn`), or states it field by field. Hashes, digests used as ids and lease tokens are
constructors, hence collision free; tokens are drawn afresh for each claim. Times and identifiers are integers;
identifiers are points of the store's total order. What the environment may answer is an arbitrary value (`*`) or a
parameter; what the providers did answer comes back as ghost results, so that a contract can say what became of it.
What a transaction writes is said twice: as a function, which runs are made of, and outright on the rows, in the
`ensures` of its method (`FailedRow`, `AttachedTo`, `ExecutedAlone`, `SettledBy`) or in a lemma of its own.

## Where the code does less than one might expect

- The tenant limit is read without a lock. `TenantCap` speaks of claims made one at a time; `OverlapBreaksCap` is a run
  of two overlapping claims that breaks the cap, `CapWhenAlone` the guard that keeps it, `TakeOvershootsBy` how far an
  overlap can go, and `OvershootAttained` runs that go that far. Limits do not change during a run.
- The back-off of a failure holds for the next claim whatever the clocks (`NextClaimIsDue`); for later claims it needs
  claim clocks that do not run back (`EveryClaimIsDue`), and `EarlyClaimTakes` is a run where one did.
- The queue invariants need jobs enqueued at attempt 0, as the submitter does
  (`src/decision_assurance/web_research/service.py:76`); this is the hypothesis `AllUnattempted`.
- A start builds its request after reserving its key and before its `try` (`src/decision_assurance/mcp/service.py:85-103`),
  and that request refuses inputs the tool interface accepts. `LeftByMalformedStarts` says exactly which starts leave
  their key reserved for good, `UnknownLocaleLeavesKey` gives one, and `LeftExactly` adds the two other ways: work that
  ends outside `Exception`, and a run the response cannot show.
- The validator resolves an egress event by the transition marker first; `EgressIdResolves` is the exact condition
  under which that names the right run. It cannot see events cut off a stream's end: `OnlyTruncationPasses`.
- A confirmation without re-verification does not look at the required facts again: `ConfirmationKeepsFacts` is the
  exact condition, `RejectedAmountStaysReady` the input, `AmountlessQuoteStaysReady` an intake with it.
- Sequence numbers of a run's events are unique, so a save is a compare-and-swap on the log (`ResearchRaces`). The late
  handoff saves without an event of its own and can undo a stored cancellation: `LateHandoffUndoesCancel` is the run,
  `RowFollowsExactly` the exact condition under which the row keeps up with the log.
- A report confirmed without a re-verification compiles only without findings, so its file passes whatever the
  confirmation did to the facts. `ConfirmedVerdictFits` says when the verdict fits them, `OnlyFourPart` which four steps
  part the two, and `VerdictFitsThroughout` that over a whole run only those do; `ConfirmedSelfApprovalPasses` is the
  input and `SelfApprovedQuotePasses` an intake with it.
- The retry window counts the last wait a provider asked for from the last failed attempt, whichever provider that was.
- A claimed job is always RUNNING, so the worker's first look for a cancelled one never fires and is not in `RunOnce`.
- A status of EVIDENCE_COMPILED is never stored, so the handoff call meets only PARTIALLY_COMPLETED runs that are not
  yet attached.
- The circuit breaker takes an end of window of 0.0 for "closed"; its theorems use that a monotonic clock is not negative.

## Model

| member | source | states |
|---|---|---|
| JobLifecycle.RetryDelayIsUncapped | src/decision_assurance/jobs/lifecycle.py:36-40 | the capped exponent never changes the back-off: it is min(maximum, base * 2^(attempt-1)) for every attempt |
| JobLifecycle.RetryDelayGrows | src/decision_assurance/jobs/lifecycle.py:36-40 | the back-off stays between base and maximum and never shrinks with the attempt |
| JobQueue.PostgresJobRepository.LogEvent | src/decision_assurance/jobs/postgresql.py:519-557 | an event row takes the next sequence number; a clash would drop it |
| JobQueue.PostgresJobRepository.Enqueue | src/decision_assurance/jobs/postgresql.py:36-76 | an enqueue answers with the stored job of the same payload, or stores the job without lease and error, or changes nothing |
| JobQueue.PostgresJobRepository.Requeue | src/decision_assurance/jobs/postgresql.py:78-118 | a COMPLETED, PARTIAL, FAILED or DEAD_LETTER job is queued with attempts 0, no lease and no error; one of two refusals otherwise |
| JobQueue.PostgresJobRepository.Claim | src/decision_assurance/jobs/postgresql.py:212-254 | the job taken is unlocked, waiting, due and within its tenant's limit, precedes every other such one by (available, created, tenant, job), and runs under the token; none is taken exactly when there is none |
| JobQueue.PostgresJobRepository.Heartbeat | src/decision_assurance/jobs/postgresql.py:256-285 | the lease moves on if and only if the token holds an unexpired lease of a running job |
| JobQueue.PostgresJobRepository.Complete | src/decision_assurance/jobs/postgresql.py:287-318 | under the same guard the job ends COMPLETED, or PARTIAL if it is partial, with its lease gone |
| JobQueue.PostgresJobRepository.Fail | src/decision_assurance/jobs/postgresql.py:320-376 | under the same guard and with a reason of 1 to 128 characters: FAILED if not retryable, DEAD_LETTER at the attempt limit, else RETRY_WAIT until now + min(maximum, base * 2^(attempts-1)); the reason noted and the lease gone |
| JobQueue.PostgresJobRepository.Cancel | src/decision_assurance/jobs/postgresql.py:378-413 | a QUEUED, RUNNING or RETRY_WAIT job is cancelled and unleased; a terminal one is returned as it is |
| JobQueue.PostgresJobRepository.RecoverStale | src/decision_assurance/jobs/postgresql.py:415-464 | every selected row goes the way of a retryable failure at the same attempt count, with its back-off; no other row changes, and an exception undoes all of it |
| JobQueue.FirstExists | src/decision_assurance/jobs/postgresql.py:219-247 | any non-empty set of eligible rows has a first one in the claim order |
| JobEffects.FailedAttempt | src/decision_assurance/jobs/postgresql.py:320-376 | at every point of every run a fail leaves exactly that row, or nothing changed without a live lease |
| JobEffects.SweptAttempts | src/decision_assurance/jobs/postgresql.py:415-464 | at every point of every run a sweep leaves exactly those rows and never raises |
| JobEffects.NextClaimIsDue | src/decision_assurance/jobs/postgresql.py:225-247 | the next claim of a waiting job, if nobody requeues it, comes at a clock no earlier than its due time, whatever the clocks |
| JobEffects.BackOffIsWaited | src/decision_assurance/jobs/postgresql.py:344-367 | so after a retryable failure below the limit the next claim comes after the whole back-off |
| JobEffects.SweepIsWaited | src/decision_assurance/jobs/postgresql.py:426-455 | the same after a sweep |
| JobEffects.EveryClaimIsDue | src/decision_assurance/jobs/postgresql.py:225-247 | with claim clocks that do not run back, no claim until the next requeue comes before the due time |
| JobEffects.EarlyClaimTakes | src/decision_assurance/jobs/postgresql.py:344-367 | the run: with a clock that ran back at a later failure, a claim comes before an earlier back-off is over |
| JobEffects.SubmissionsConverge | src/decision_assurance/jobs/postgresql.py:36-76 | at every point of every run a submission for a run with a job answers with that job or refuses another payload, and is stored exactly when the run has none and the id is free |
| JobEffects.LogTellsTheRun | src/decision_assurance/jobs/postgresql.py:519-557 | the event a step logs names its kind, time, correlation, claiming worker and failure reason |
| JobLog.AppendExtends | src/decision_assurance/jobs/postgresql.py:519-557 | on a log numbered 1..n no insert is dropped: the new event gets n+1 |
| JobLog.RecoverKeeps | src/decision_assurance/jobs/postgresql.py:415-464 | the sweep never raises and sends each stale job to RETRY_WAIT or DEAD_LETTER along a legal edge |
| JobLog.StepKeeps | src/decision_assurance/jobs/lifecycle.py:10-27 | every transaction keeps every job's log invariant, moves it along an edge of the table the SQL never consults, and logs exactly the move |
| JobLog.RunKeeps | src/decision_assurance/jobs/postgresql.py:212-464 | in every run each job's log is numbered 1..n and replays, with the policy, to exactly the row's status and attempts |
| JobLog.RunMovesAlongEdges | src/decision_assurance/jobs/lifecycle.py:10-27 | in every run every status change is an allowed edge and is logged exactly once |
| JobLog.OneJobPerRun | src/decision_assurance/jobs/postgresql.py:36-76 | a tenant never has two jobs for one research run |
| JobFencing.LeaseWasGranted | src/decision_assurance/jobs/postgresql.py:212-254 | a token found in a row was handed out by an earlier claim and carried ever since |
| JobFencing.HolderIsUnique | src/decision_assurance/jobs/postgresql.py:212-254 | a token is never in two rows |
| JobFencing.AuthorizedMeansCarried | src/decision_assurance/jobs/postgresql.py:256-376 | a token that authorizes a write has been in the row without interruption since its claim |
| JobFencing.NothingInBetween | src/decision_assurance/jobs/postgresql.py:256-376 | between a claim and an accepted write nobody else claims the job or writes its outcome, and only heartbeats touch the row |
| JobFencing.AtMostOneOutcome | src/decision_assurance/jobs/postgresql.py:287-376 | a token makes at most one complete or fail succeed, under any interleaving and any clock |
| JobFencing.EndedLeaseStaysEnded | src/decision_assurance/jobs/postgresql.py:256-376 | once a claim has ended its token never authorizes a heartbeat, complete or fail again |
| JobWorker.ResearchWorker.RunOnce | src/decision_assurance/jobs/worker.py:45-122 | one turn amid anybody else's transactions: one claim, and the processor's answer written as it is under its token unless a look raised, the job was cancelled or a beat refused; an accepted write leaves the row the answer means, with nobody in between |
| JobWorker.SharedQueue.OthersAct | src/decision_assurance/jobs/worker.py:45-122 | whatever others do between the worker's calls, the transactions made so far are a run, so every theorem on runs applies |
| JobProgress.StepWeight | src/decision_assurance/jobs/postgresql.py:238-464 | a sum over all jobs strictly falls on every effective step but heartbeat, enqueue and requeue, and rises only by new work |
| JobProgress.RunsRunOut | src/decision_assurance/jobs/postgresql.py:238-464 | every run makes at most 2 * max_attempts effective claims, outcomes, cancels and recoveries per job enqueued or requeued |
| JobProgress.ClaimsBounded | src/decision_assurance/jobs/postgresql.py:238-247 | between one queueing and the next a job is claimed at most max_attempts times, and its attempt count is that number |
| JobScheduling.ClaimTakesLeast | src/decision_assurance/jobs/postgresql.py:212-254 | with nothing locked a claim takes the least eligible row, and finds none exactly when every due row's tenant is at its limit |
| JobScheduling.TenantCap | src/decision_assurance/jobs/postgresql.py:225-233 | with claims one at a time no tenant ever runs more jobs than its limit |
| JobOverlap.TakeOvershootsBy | src/decision_assurance/jobs/postgresql.py:225-247 | with the count apart from the take, a take leaves its tenant above the limit by at most the takes between its count and itself |
| JobOverlap.CapWhenAlone | src/decision_assurance/jobs/postgresql.py:225-247 | the cap holds at every point of every run in which no other claim of the tenant takes a row between a claim's count and its take |
| JobOverlap.OvershootAttained | src/decision_assurance/jobs/postgresql.py:225-247 | that bound is tight: for every limit and every number of unseen takes some run has a take that leaves exactly that many above the limit |
| JobOverlap.OverlapBreaksCap | src/decision_assurance/jobs/postgresql.py:225-247 | the run: with a limit of one, two claims that count before either takes leave two jobs running |
| JobScheduling.AttendedHolderKeepsJob | src/decision_assurance/jobs/postgresql.py:256-285 | a holder that beats more often than the lease lasts is never displaced by the sweep, and its next beat in time succeeds |
| LifecycleRepository.InMemoryLifecycleRepository.LastEvent | src/decision_assurance/lifecycle/repository.py:116-127 | the backward scan finds the tip of the stream |
| LifecycleRepository.InMemoryLifecycleRepository.PersistTransition | src/decision_assurance/lifecycle/repository.py:35-69 | the compare-and-swap on status and stream tip, its replays and its conflicts, exactly |
| LifecycleRepository.InMemoryLifecycleRepository.SetHold | src/decision_assurance/lifecycle/repository.py:74-94 | a hold is set and logged only on its stream's tip; an active one is left alone |
| LifecycleRepository.InMemoryLifecycleRepository.ReleaseHold | src/decision_assurance/lifecycle/repository.py:96-114 | the same for releasing |
| LifecycleRepository.InMemoryLifecycleRepository.CompleteDeletion | src/decision_assurance/lifecycle/repository.py:129-148 | completion takes the case away only from EXECUTING, on the tip, with no hold |
| LifecycleSafety.ApplyKeeps | src/decision_assurance/lifecycle/service.py:76-120 | every step of every racing call keeps the invariants of the store and of all calls in flight |
| LifecycleSafety.StreamsAreChains | src/decision_assurance/lifecycle/service.py:177-259 | in every interleaving each stream is a hash chain from nothing and each stored request's hash is its stream's tip |
| LifecycleSafety.CompletedOnce | src/decision_assurance/lifecycle/repository.py:129-148 | a request has exactly one completed event when COMPLETED and none before; COMPLETED is having forgotten the decision |
| LifecycleSafety.CompletedIsFinal | src/decision_assurance/lifecycle/repository.py:35-69 | a completed request is never written again by any call |
| LifecycleSafety.CasesGoOnlyUnheld | src/decision_assurance/lifecycle/repository.py:129-148 | a case disappears only in the step that completes a request for it, and only with no active hold on it |
| LifecycleSafety.HoldsAlternate | src/decision_assurance/lifecycle/repository.py:74-114 | hold streams alternate placed and released, and the hold is active exactly after placed |
| LifecycleSafety.SubmissionKept | src/decision_assurance/lifecycle/service.py:35-74 | all calls with one idempotency key converge on one request that keeps what it was submitted with |
| LifecycleSafety.StampsNeverDecrease | src/decision_assurance/lifecycle/service.py:221-259 | with a clock that never runs back, stamps never decrease along a stream although they are taken outside the lock |
| LifecycleCalls.PilotLifecycleService.RequestDeletion | src/decision_assurance/lifecycle/service.py:35-74 | called alone: the replay, the two refusals, or exactly one new row and its event, BLOCKED_BY_HOLD exactly under a hold |
| LifecycleCalls.PilotLifecycleService.ExecuteDeletion | src/decision_assurance/lifecycle/service.py:76-120 | called alone: held back with one event and nothing gone, or completed with two events and exactly its case gone; never a conflict |
| LifecycleCalls.PilotLifecycleService.PlaceLegalHold | src/decision_assurance/lifecycle/service.py:122-145 | called alone: the case is held afterwards, with one event exactly if it was not before |
| LifecycleCalls.PilotLifecycleService.ReleaseLegalHold | src/decision_assurance/lifecycle/service.py:147-162 | called alone: released, with one event, exactly if it was held |
| LifecycleAnswers.UndisturbedCallKeeps | src/decision_assurance/lifecycle/service.py:35-162 | a call of the interleaved machine whose steps nobody interrupts is over after nine, with the answer and the store the same call promises alone |
| LifecycleAnswers.AnswersInAnyRace | src/decision_assurance/lifecycle/service.py:76-120 | in any race an execution answers with a COMPLETED or BLOCKED_BY_HOLD request, an unknown request or a conflict, never with the refusal of a held case; the other calls likewise |
| LifecycleAnswers.AnswersAreTrue | src/decision_assurance/lifecycle/service.py:35-162 | in any race a call answers with what is stored at that step, and a refusal changes nothing |
| LifecycleAnswers.ExecutionSettles | src/decision_assurance/lifecycle/service.py:76-120 | an execution that has its stream to itself never ends in a conflict: its answer is the stored request, with the completion or the blocking at the tip |
| LifecycleAnswers.OvertakenIsBlocked | src/decision_assurance/lifecycle/service.py:112-120 | a completion that meets an active hold ends BLOCKED_BY_HOLD with a blocked event, if nobody else writes the stream before the call ends |
| AuditChain.TransitionIdResolves | src/decision_assurance/export/validator.py:268-285 | an event id made of stream, marker and number is resolved to its stream whatever the stream contains |
| AuditChain.EgressIdResolves | src/decision_assurance/export/validator.py:268-285 | an egress id is resolved to its run if and only if the run id, with the colon that follows it, does not carry the transition marker after its first character |
| AuditChain.ValidateCore | src/decision_assurance/export/validator.py:202-220 | the one pass with its dictionary of last hashes accepts a list exactly when every stream's subsequence is a chain |
| AuditChain.ShuffleAccepted | src/decision_assurance/export/validator.py:202-220 | any shuffle that keeps per-stream order is accepted too |
| AuditChain.NeighboursShuffle | src/decision_assurance/export/validator.py:202-220 | swapping neighbours of different streams is such a shuffle |
| AuditChain.TipPinsStream | src/decision_assurance/export/validator.py:202-220 | two accepted logs whose streams end in the same event have the same stream throughout |
| AuditChain.OnlyTruncationPasses | src/decision_assurance/export/validator.py:202-220 | among streams made of an accepted one's events the accepted ones are exactly its beginnings: a cut-off tail is not seen |
| LifecycleExport.ValidateLifecycle | src/decision_assurance/export/validator.py:222-241 | the lifecycle pass accepts exactly the logs whose streams are chains of correct hashes |
| LifecycleExport.ServiceLogsAccepted | src/decision_assurance/lifecycle/service.py:221-259 | every export of what the service wrote, at any point of any run, is accepted |
| ResearchExport.RunLogsAccepted | src/decision_assurance/web_research/audit.py:18-88 | the logs of any research runs, exported in any mix, are accepted |
| ResearchAudit.ResearchRun.ApplyTransition | src/decision_assurance/web_research/audit.py:18-47 | refused and unchanged exactly when the lifecycle refuses, or moved, stamped and logged with one event of source, target, actor and payload, linked to the former tip |
| ResearchAudit.ResearchRun.AppendEgressDecision | src/decision_assurance/web_research/audit.py:50-88 | an egress decision is one linked event that moves nothing |
| ResearchAudit.TransitionKeepsLog | src/decision_assurance/web_research/lifecycle.py:10-50 | a transition keeps the log numbered, linked, joined end to end and along legal edges |
| ResearchAudit.EgressKeepsLog | src/decision_assurance/web_research/audit.py:50-88 | so does an egress decision |
| ResearchAudit.StatusIsReplay | src/decision_assurance/web_research/audit.py:18-47 | the run's status is the replay of its log |
| ResearchAudit.TipFixesLog | src/decision_assurance/web_research/audit.py:41-42 | the hash of the last event fixes the whole log |
| EvidenceRules.FoundExactly | src/decision_assurance/web_research/evidence_policy.py:32-68 | exactly the observed reasons are found, each once |
| EvidenceRules.Assess | src/decision_assurance/web_research/evidence_policy.py:24-97 | usable exactly when none of the six blocking reasons is observed; the reasons are exactly the observed ones or the standing remark; a suspected injection is never usable |
| EvidenceRules.ContradictionIsMutual | src/decision_assurance/web_research/conflicts.py:22-33 | contradiction is symmetric |
| EvidenceRules.ConflictingIds | src/decision_assurance/web_research/conflicts.py:36-52 | the pairwise pass finds exactly the items in some clash |
| EvidenceRules.MarkConflictingEvidence | src/decision_assurance/web_research/conflicts.py:36-74 | exactly the clashing items and the sources they came from are marked; everything else stays |
| ResearchCompiler.MarkedExactly | src/decision_assurance/web_research/conflicts.py:36-74 | in a sound run an item is marked if and only if its page contradicts the page of another item |
| ResearchCompiler.Compile | src/decision_assurance/web_research/compiler.py:26-53 | exactly the usable unsuspected items in order, with their own ids, claims and hashes, CONFLICTING, else OUTDATED, else UNVERIFIED, and the time their page was retrieved; it fails exactly when one has no snapshot |
| ResearchCompiler.LookupNeverMisses | src/decision_assurance/web_research/compiler.py:38-40 | in an aligned run every item finds its own snapshot |
| ResearchCompiler.RecordKeeps | src/decision_assurance/web_research/orchestrator.py:509-551 | recording a page with new content keeps evidence and snapshots aligned, distinct and accounted for by a source |
| ResearchCompiler.MarkKeeps | src/decision_assurance/web_research/conflicts.py:53-74 | so does marking conflicts |
| ResearchSelection.StoreDiscovery | src/decision_assurance/web_research/orchestrator.py:411-460 | the sources stored for the first max_search_results results |
| ResearchSelection.DiscoveriesAreDistinct | src/decision_assurance/web_research/orchestrator.py:411-460 | each accepted address becomes one discovered source, with its own id, and refused results become blocked ones |
| ResearchSelection.DiscoveriesAre | src/decision_assurance/web_research/orchestrator.py:411-460 | source by source, in order: each refused result and the first result of each accepted address, with its rank, domain and date |
| ResearchSelection.SelectTakesTheFirst | src/decision_assurance/web_research/selection.py:11-19 | the chosen sources are eligible, distinct and in order, and nothing eligible is passed over but for sources that do not come after it |
| ResearchStore.ResearchRepository.CreateOrGet | src/decision_assurance/web_research/repository.py:45-87 | the row with the fingerprint, else a converging one, else a new row with an unused budget |
| ResearchStore.ResearchRepository.Save | src/decision_assurance/web_research/repository.py:97-185 | refused exactly for an unknown run or a clash with a stored event; else the row is replaced and the new events are inserted |
| ResearchStore.ResearchRepository.ReserveBudget | src/decision_assurance/web_research/repository.py:247-265 | a unit is taken exactly when one is left |
| ResearchRaces.EventsOnlyGrow | src/decision_assurance/migrations/003_web_research_v0_4.sql:65-74 | however several holders of one run race, a stored event is never lost or changed and the stored log stays joined |
| ResearchRaces.SecondWriterRefused | src/decision_assurance/web_research/repository.py:171-185 | of two holders that start from one log and append, the one that saves second is refused |
| ResearchRaces.RowFollowsExactly | src/decision_assurance/web_research/repository.py:97-185 | up to any point of any run the row stood at the end of the stored log throughout if and only if every accepted save came from a copy whose log was not behind |
| ResearchRaces.RowFollowsLog | src/decision_assurance/web_research/repository.py:97-185 | while saves are up to date the row's status is the replay of the whole stored log |
| ResearchRaces.NewsIsUpToDate | src/decision_assurance/web_research/audit.py:18-88 | a save that brings an event not stored yet is up to date |
| ResearchRaces.FinalStatusSurvivesRaces | src/decision_assurance/web_research/orchestrator.py:276-297 | while saves are up to date a stored CANCELLED or COMPLETED run keeps that status whatever executions are in flight |
| ResearchRaces.StaleSaveRegresses | src/decision_assurance/web_research/orchestrator.py:299-330 | a copy that fell behind, saved without an event of its own, is accepted and puts the older row back |
| ResearchRaces.LateHandoffUndoesCancel | src/decision_assurance/web_research/orchestrator.py:299-330 | the run: from any PARTIALLY_COMPLETED row a handoff and a cancel race, the row goes to CANCELLED and back, and the event table keeps the cancellation |
| ResearchOrchestrator.ResearchOrchestrator.Move | src/decision_assurance/web_research/orchestrator.py:148-155 | every transition the orchestrator makes is legal where it is made: none is ever refused |
| ResearchOrchestrator.ResearchOrchestrator.Save | src/decision_assurance/web_research/orchestrator.py:732-743 | no save is refused, and each one here brings an event not stored yet |
| ResearchOrchestrator.ResearchOrchestrator.Reserve | src/decision_assurance/web_research/orchestrator.py:745-766 | one budget unit and one attempt per provider call, refused exactly when the budget is used up |
| ResearchOrchestrator.ResearchOrchestrator.AwaitProvider | src/decision_assurance/web_research/orchestrator.py:832-836 | any number of egress decisions logged and saved during one call leave the stored runs sound |
| ResearchOrchestrator.ResearchOrchestrator.Discover | src/decision_assurance/web_research/orchestrator.py:332-409 | saved with its sources discovered, or saved as failed, or stopped |
| ResearchOrchestrator.ResearchOrchestrator.ObtainSnapshot | src/decision_assurance/web_research/orchestrator.py:617-725 | a page made over to this source from the cache, or the provider's content from the source's own domain, or the source marked citation-only because nobody could be asked or the answer was no such content |
| ResearchOrchestrator.ResearchOrchestrator.SettleCandidate | src/decision_assurance/web_research/orchestrator.py:502-551 | a page with a content the run has makes its source a duplicate and nothing else; a page with new content adds exactly itself and its item, with the source EXTRACTED or REVIEW_REQUIRED by usability; without a page the source is a citation |
| ResearchOrchestrator.ResearchOrchestrator.SkipUnselected | src/decision_assurance/web_research/orchestrator.py:496-501 | exactly the discovered sources that were not chosen are skipped |
| ResearchOrchestrator.ResearchOrchestrator.ExtractSources | src/decision_assurance/web_research/orchestrator.py:502-551 | every candidate settled, nothing left discovered or selected, other sources untouched, and the new snapshots exactly the pages that were the first with their content, in order |
| ResearchInvariants.FirstPagesAre | src/decision_assurance/web_research/orchestrator.py:502-512 | those are, in order, exactly the obtained pages whose content neither the run had nor an earlier page |
| ResearchOrchestrator.ResearchOrchestrator.MarkAndCompile | src/decision_assurance/web_research/orchestrator.py:576-578 | the snapshot lookup always succeeds, and if no source is then partial all is clear |
| ResearchOrchestrator.ResearchOrchestrator.Finalize | src/decision_assurance/web_research/orchestrator.py:553-615 | FAILED exactly with no page and no citation, COMPLETED exactly with pages, no new error and no partial source, else PARTIALLY_COMPLETED; and exactly the eligible items attached in one attach from the expected version |
| ResearchInvariants.NothingPartial | src/decision_assurance/web_research/orchestrator.py:602-604 | no partial source after marking means every item is usable, unsuspected and contradicted by none |
| ResearchOrchestrator.ResearchOrchestrator.Execute | src/decision_assurance/web_research/orchestrator.py:123-167 | a returned run is saved and either as it was stored, or final: made of the first results found, extracted as selected, with the first page of every content, attached as compiled, and FAILED only if no candidate was worked on; one run is touched, nothing is raised but two limit checks, and it stops only when told to |
| ResearchOrchestrator.ResearchOrchestrator.Retry | src/decision_assurance/web_research/orchestrator.py:226-264 | unless stopped, refused exactly for an unknown run, a wrong status or an open retry window, changing nothing; otherwise searched or extracted again as the run stands, and not FAILED once a page was obtained |
| ResearchOrchestrator.WindowExactly | src/decision_assurance/web_research/orchestrator.py:796-813 | the retry window closes the last noted wait after the last failed attempt, and there is one only with both |
| ResearchOrchestrator.ResearchOrchestrator.Cancel | src/decision_assurance/web_research/orchestrator.py:276-297 | refused exactly for an unknown or COMPLETED run; otherwise saved as cancelled with its evidence and log kept |
| ResearchOrchestrator.ResearchOrchestrator.Handoff | src/decision_assurance/web_research/orchestrator.py:299-330 | an attached run comes back as stored; otherwise every eligible item ends up in the decision file; the refusals are exact and change nothing stored |
| ResearchOrchestrator.ResearchOrchestrator.CompletedMeans | src/decision_assurance/web_research/orchestrator.py:602-613 | a stored COMPLETED run has only extracted, duplicate and skipped sources, at least one item, all usable, unsuspected, uncontradicted and in the decision file |
| ResearchOrchestrator.ResearchOrchestrator.SpendingIsBounded | src/decision_assurance/web_research/orchestrator.py:745-774 | provider calls never exceed reserved units, nor those the budget, cancelled executions included; attempts keep both limits |
| ResearchOrchestrator.ResearchOrchestrator.StoredRunIsSound | src/decision_assurance/web_research/orchestrator.py:502-551 | a stored run's log replays to its status, and its items and snapshots stay distinct and matched one to one |
| DecisionHandoff.DecisionEvidenceHandoff.Attach | src/decision_assurance/web_research/compiler.py:68-179 | a fresh attach changes exactly one file: it gets, in order, a row with the id, claims, run, status, time and hash of each item whose id it lacked, the latest observation time and one event linked to the former tip |
| DecisionHandoff.RefusalsExactly | src/decision_assurance/web_research/compiler.py:74-134 | on the inputs alone: which of the eight refusals, else the replay or the fresh attach |
| DecisionHandoff.PayloadListsItems | src/decision_assurance/web_research/compiler.py:89-95 | a handoff id is made of the id, hash and status of every item, in the order of the ids |
| DecisionHandoff.PayloadListsIds | src/decision_assurance/web_research/compiler.py:85-91 | a handoff id lists exactly the ids of its evidence |
| DecisionHandoff.AttachedIsThere | src/decision_assurance/web_research/compiler.py:117-128 | after a successful attach, fresh or replayed, every item is in the file; after a fresh one, with its own row if its id was missing |
| DecisionHandoff.EvidenceOnlyGrows | src/decision_assurance/web_research/compiler.py:117-145 | over any run of handoffs and status changes earlier evidence is never altered, ids stay unique and the file's log stays a chain |
| DecisionHandoff.AttachedStays | src/decision_assurance/web_research/compiler.py:117-128 | at every later point of any run the file still has the row of an item attached afresh, as it was written and as the only one with its id |
| DecisionHandoff.ChangesOnlyExpectedDrafts | src/decision_assurance/web_research/compiler.py:109-112 | a handoff changes a file only while it is DRAFT and only from the expected hash |
| DecisionHandoff.HandoffAtMostOnce | src/decision_assurance/web_research/compiler.py:102-108 | each handoff id takes effect at most once |
| Idempotency.IdempotencyRepository.Reserve | src/decision_assurance/web_research/repository.py:293-329 | reserved, replayed, in progress or refused, exactly |
| Idempotency.IdempotencyRepository.Complete | src/decision_assurance/web_research/repository.py:331-358 | the response is stored only over the caller's open reservation |
| Idempotency.IdempotencyRepository.Release | src/decision_assurance/web_research/repository.py:360-381 | only an open reservation with the same hash is removed |
| McpStart.RefusedExactly | src/decision_assurance/web_research/contracts.py:74-99 | of an input the tool interface accepts, the request built from it refuses exactly a target, locale or language that misses its pattern and a query of no words or more than fifty; every other check always passes |
| McpStart.UnknownLocaleRefused | src/decision_assurance/mcp/contracts.py:27-52 | the locale ?? is accepted and refused |
| McpResponse.WellTypedFits | src/decision_assurance/mcp/service.py:334-399 | a run whose fields have their declared types always fits the response |
| McpService.McpResearchService.WorkAndClose | src/decision_assurance/mcp/service.py:251-261 | a raise releases, a response completes, anything else leaves the reservation |
| McpService.McpResearchService.Mutate | src/decision_assurance/mcp/service.py:189-261 | the bracket alone: taken keys answered, a failure leaves the table as it was, a success leaves exactly its response, completing never fails |
| McpService.McpResearchService.Start | src/decision_assurance/mcp/service.py:67-139 | alone: which refusal, on the input, the decision and the stored entry; on a free key the response of the work answered and kept, a raise given back, and the key left reserved exactly for a malformed input or work that does not close |
| McpService.OneCallerPerKey | src/decision_assurance/mcp/service.py:277-325 | for any concurrent callers at most one is between reserve and close on a key |
| McpService.FinishStores | src/decision_assurance/web_research/repository.py:331-358 | completing never fails for a caller at work |
| McpService.CompletedForGood | src/decision_assurance/web_research/repository.py:293-329 | a completed response never changes; a later reserve gets it, or is refused with another hash |
| McpService.AtMostOneFinish | src/decision_assurance/mcp/service.py:294-310 | two finishes on one key never happen in one run |
| McpService.LeftForGood | src/decision_assurance/web_research/repository.py:293-329 | a reservation left open is never closed and every later call with its key is refused |
| McpService.LeftExactly | src/decision_assurance/mcp/service.py:85-139 | at any point of any run a key is left open if and only if an earlier act left it: a malformed start, interrupted work, or a run that does not fit the response |
| McpService.LeftByMalformedStarts | src/decision_assurance/mcp/service.py:85-103 | when work is not interrupted and runs are well typed, a key is left open if and only if a start that reserved it had a malformed input |
| McpService.UnknownLocaleLeavesKey | src/decision_assurance/mcp/service.py:85-103 | the accepted input with locale ?? leaves its key reserved |
| CircuitBreaker.InMemoryProviderCircuitBreaker.BeforeCall | src/decision_assurance/web_research/circuit_breaker.py:37-47 | admitted or refused, and the probe state, exactly |
| CircuitBreaker.InMemoryProviderCircuitBreaker.RecordFailure | src/decision_assurance/web_research/circuit_breaker.py:54-63 | the count and the opening after a failure, exactly |
| CircuitBreaker.StateMirrorsHistory | src/decision_assurance/web_research/circuit_breaker.py:37-63 | each key's state is a function of the call history alone |
| CircuitBreaker.RefusedExactly | src/decision_assurance/web_research/circuit_breaker.py:37-63 | a call is refused if and only if the threshold of failures came since the last reset, the window of the latest has not passed, and no probe was let through since |
| CircuitBreaker.ProbeFailureReopens | src/decision_assurance/web_research/circuit_breaker.py:43-47 | after a probe one retryable failure opens the circuit for a whole window |
| CircuitBreaker.OtherKeysDoNotMatter | src/decision_assurance/web_research/circuit_breaker.py:65-69 | calls on other keys change nothing for a key |
| IntakeVerification.VerificationDecides | src/decision_assurance/intake/verification.py:152-209 | an embedded governance claim or a policy claim that does not name the policy is rejected even if confirmed; other decisions stand; an undecided fact is trusted exactly if objective with a value |
| IntakeVerification.ComparePolicy | src/decision_assurance/intake/verification.py:211-395 | raises exactly on malformed values; else one numbered finding per breached rule, in rule order |
| IntakeVerification.FindingIffBreached | src/decision_assurance/intake/verification.py:211-395 | a rule has a finding if and only if the facts breach it |
| IntakeVerification.FindingsNameFacts | src/decision_assurance/intake/verification.py:211-395 | every finding names its facts: the first of the rule's kind, or the amount and the approvals that did count |
| IntakeVerification.BuildReport | src/decision_assurance/intake/verification.py:92-150 | the report with its findings and reasons, exactly |
| IntakeVerification.ReadyExactly | src/decision_assurance/intake/verification.py:121-150 | a fresh report is ready if and only if there is a policy, no conflict, nothing unresolved, the three required facts are trusted and nothing awaits a person |
| IntakeRuns.ConflictsNeverReady | src/decision_assurance/intake/verification.py:68-90 | an intake extracted with conflicts is never ready under any sequence of confirm and reverify |
| IntakeRuns.OpenRequirementsStay | src/decision_assurance/intake/verification.py:79-83 | an open requirement other than an approval stays open for good |
| IntakeRuns.CorrectionNeedsReverification | src/decision_assurance/intake/confirmation.py:90-95 | a correction keeps the report not ready until a re-verification that does not raise |
| IntakeRuns.ReverifiedReadyHasFacts | src/decision_assurance/intake/verification.py:68-124 | a report that is ready after a re-verification has its three required facts trusted |
| IntakeRuns.ConfirmationKeepsFacts | src/decision_assurance/intake/confirmation.py:65-95 | a confirmation alone takes a required fact away exactly when it rejects the only trusted one |
| IntakeRuns.RejectedAmountStaysReady | src/decision_assurance/intake/confirmation.py:80-95 | the input: rejecting the one trusted amount of a ready report leaves it ready |
| GovernanceEngine.Validate | src/decision_assurance/engine.py:94-168 | the findings of a request, in order |
| GovernanceEngine.VerdictExactly | src/decision_assurance/engine.py:86-168 | BLOCK exactly when something in the request is forbidden, else REVIEW exactly when something is questionable, else PASS |
| GovernanceEngine.FindingsExactly | src/decision_assurance/engine.py:94-168 | a finding is there if and only if the request grounds its code with that severity and subject |
| GovernanceEngine.Assess | src/decision_assurance/engine.py:25-84 | the assessment carries that verdict, and asks for a person exactly on REVIEW |
| IntakeDecision.CompiledIsValid | src/decision_assurance/decision_file.py:78-94 | evaluating a compiled file is refused exactly when two trusted facts share an id |
| IntakeDecision.CompiledExactly | src/decision_assurance/intake/compiler.py:28-142 | a READY intake with a ready report and a trusted fact compiles into exactly a claim and its evidence per trusted fact, in order, and a constraint per finding, mandatory for five codes |
| IntakeDecision.CompiledVerdict | src/decision_assurance/intake/compiler.py:28-142 | the file's verdict is BLOCK exactly when a finding has one of the five mandatory codes, else REVIEW exactly when there is any, else PASS |
| IntakeDecision.EvaluationOnlyRecords | src/decision_assurance/decision_file.py:144-210 | evaluating records the verdict, keeps the log a chain and changes nothing the verdict rests on |
| IntakeDecision.RunsKeepIdsDistinct | src/decision_assurance/intake/confirmation.py:66-79 | facts with distinct ids keep them through any run, so their compiled file can be evaluated |
| IntakeVerdict.VerdictFollowsPolicy | src/decision_assurance/intake/verification.py:53-150 | at any point of any run at which the report compiles, the verdict is the policy's on the facts at the last verification, the first included; a report confirmed since passes; conflicts never get a file |
| IntakeVerdict.ConfirmedVerdictFits | src/decision_assurance/intake/confirmation.py:76-95 | the verdict on a report confirmed since its last verification fits the facts as they are now if and only if they breach no rule now |
| IntakeVerdict.OnlyGovernanceClaimsMatter | src/decision_assurance/intake/verification.py:211-395 | confirming or rejecting a fact that is no policy, exception, approval or self-approval claim changes no rule's answer |
| IntakeVerdict.OnlyFourPart | src/decision_assurance/intake/confirmation.py:65-95 | from facts that breach no rule, an accepted confirmation or rejection leads to facts that breach one if and only if it confirms a self-approval claim, rejects a policy claim, takes away the only confirmed exception of a too long duration, or leaves too few approvers of a large amount |
| IntakeVerdict.VerdictFitsThroughout | src/decision_assurance/intake/confirmation.py:65-95 | a file compiled after confirmations passes; since the last verification the facts breached no rule at any point if and only if no step was one of those four |
| IntakeVerdict.OtherFactsNeverMatter | src/decision_assurance/intake/verification.py:211-395 | over any run of confirmations and rejections of other facts than governance claims, every rule's answer stays what it was |
| IntakeVerdict.ConfirmedSelfApprovalPasses | src/decision_assurance/cli.py:130-150 | the input: confirming a self-approval claim without re-verifying makes the report ready and its file pass, although the claim breaches a mandatory rule |
| IntakeVerdict.SelfApprovedQuotePasses | src/decision_assurance/cli.py:130-150 | such an intake: an amount, a discount, a margin and a self-approval claim, verified, confirmed and passed under a policy the claim breaches |
| IntakeVerdict.AmountlessQuoteStaysReady | src/decision_assurance/intake/confirmation.py:80-95 | an intake of three facts that is ready after verification and stays ready with its amount rejected |
| RunCodec.RoundTrip | src/decision_assurance/web_research/codec.py:25-35 | a reading recipe that restores a declared type reads every value of it exactly as it was written |
| RunCodec.PassExactly | src/decision_assurance/web_research/codec.py:25-35 | parsed JSON taken as it is gives a value back if and only if the value has no tuple, enum member or object in it |
| RunCodec.ForgottenStepMisreads | src/decision_assurance/web_research/codec.py:38-148 | a tuple, status or object passed through without its step never reads as itself |
| RunCodec.RunAgrees | src/decision_assurance/web_research/codec.py:38-148 | field by field, the reader of a run restores exactly the types its dataclasses declare |
| RunCodec.RunRoundTrip | src/decision_assurance/web_research/codec.py:38-148 | so every well-typed run is read back as it was written |
| RunCodec.WritingIsInjective | src/decision_assurance/web_research/codec.py:25-35 | two different values of one declared type are never written the same |
| RunCodec.OlderRecordReads | src/decision_assurance/web_research/codec.py:107-127 | a record without fields the reader or the class has a fall-back for reads with those |
| RunCodec.OlderAuditEventReads | src/decision_assurance/web_research/codec.py:107-127 | an audit event from before the egress fields reads with the old schema name and those fields empty |

## Left out

- SQL text, connections, row-level security, advisory locks and the PostgreSQL adapters of the lifecycle and research stores: a repository method is one atomic step.
- `submit`: its job insert is that of `enqueue`; the run and budget rows it writes in the same transaction are not part of the queue model.
- SHA-256, HMAC, signatures and JSON bytes: collision-free constructors instead; truncated digests count as collision free too.
- Authorization, role tables, tenants' identity checks, HTTP, MCP transport, sessions, metrics, alerts and release gates: one-branch code around the protocols.
- Regular expressions, HTML stripping, URL and IP rules, case folding: their results are inputs (an address verdict, a page's words and phrases, a value's number or day).
- ISO timestamps: integers, days or ages instead; a malformed publication or fact date is kept as an error case.
- JSON Schema validation of decision files, and the schema checks of evaluation.
- JobScheduling.TenantCap: speaks of claims made one at a time; overlapping ones are `JobOverlap`.
- LifecycleService: the check that a case exists is outside the lock in the source, so no theorem says that a hold implies its case exists.
- ResearchOrchestrator.ResearchOrchestrator.Execute: its contract is for one caller at a time on a run; callers that race on one run are modelled at the grain of load, log and save in `ResearchRaces`.
- The circuit breaker's answer inside the orchestrator is arbitrary; the breaker itself is `CircuitBreaker`.
- Snapshot caching: a cached page is arbitrary; expiry and lookup by address are not modelled.
- The side tables of sources, snapshots, evidence and attempts: insert-or-update copies of the run's own lists.
- Provenance records, authority and relevance scores, titles and texts of sources: carried along, never decided on.
- The copy of the handoff event in the general audit table, and the stored result hash of a handoff.
- Decision files: approvals, review requirements and the canonical action are one assumed flag, untouched by handoff and compilation.
- RunCodec.RunRoundTrip: on data of another type (a number where text is due) the reader's conversions raise here; on what was written by the service they are the identity, as in the source. The request's own checks on reading are not repeated.
- McpResponse.ResponseFits: the response model's lenient conversions (a numeric text for a number) are not modelled; they matter only for runs that do not have their declared types.
- McpService: the hash of a request is any number; authorization is not modelled.
- IntakeVerification.ComparePolicy: decimals are reals, so NaN and infinities count as malformed.
- Extraction of facts from text, and the intake record with its audit events around verification.
- Threads: the worker's heartbeat is an arbitrary schedule of beats, and a failed beat ends it.
