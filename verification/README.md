# A verified model of the job queue, the alert pipeline and the acceptance evidence

This project models three parts of the trading research service in Dafny and proves what they are relied on for.
`dafny verify dfyconfig.toml` checks all of it.

**The durable job queue and its worker.** Background jobs are rows of one table. Sessions enqueue, claim, renew,
finish, fail, cancel and retry them; a claim leases a job for a limited time, and an expired lease can be taken over.
`JobQueue` states every committed transaction as one event and what it does to the rows; `JobRepositories` is the
repository class, proved to commit exactly those events; `QueueAnswers` says in plain fields which calls are accepted and
what they leave behind; `JobWorker` is the worker's cycle with an arbitrary handler and
arbitrary sessions in between. On these rest the results about all reachable tables (`QueueSafety`), about leases over
whole runs (`QueueLeases`), about cycles that lose their lease (`WorkerSafety`), about claims that race and skip locked
rows (`ClaimRaces`), and about the two capacity loops that drain a queue (`QueueDrain`).

**The alert pipeline.** A rule and a market-context source are evaluated (`AlertContracts`, `AlertEvaluation`), the
publication policy decides (`QuietHours`, `PublicationDecisions`), an operator acknowledges or snoozes (`AlertInbox`), and
a simulation and its outcome follow (`AlertLineage`, `AlertOutcomes`). Every stage builds records that other code
validates again; the results say that builders and validators agree, when they do not, and how times chain.

**The evidence evaluators.** `OutcomeLearning` is the review of rates against thresholds, `CapacityGates` the
phase-zero gates, `PhaseEvidence` the evidence of phases two and three with its separate validators, and
`PhaseSixRecord` the acceptance record that is written with derived fields and read back critically.

Times are whole microseconds. Where the order of a table or of two clocks matters, it is a parameter: the time of every
event, the interleaving of sessions, the rows that are locked.

## Where the code does not do what it seems to

Each of these is stated by the lemma named, in most cases with the exact condition.

- `claim_next` stores the trimmed worker id, but the owner check compares the id as given: a worker whose id carries
  outer white space never reports an outcome (`WorkerSafety.PaddedWorkerNeverReports`).
- With a time fixed by the caller of `run_once`, the report after a conflicting heartbeat can still be accepted
  (`WorkerSafety.FrozenCycleReports`, and exactly when by `WorkerSafety.ExpiredCycleIsLostExactlyWhen`); with clocks
  that move on it cannot (`WorkerSafety.SwallowedConflictLosesTheCycle`).
- A queued job with full progress can be enqueued (`QueueSafety.FullProgressCanBeEnqueued`). With attempts left it is
  never claimed (`QueueSafety.FullProgressIsNeverClaimed`), and while it is the first due row that may run every claim
  raises (`JobRepositories.UngrantableRowStopsClaims`); with none left it can be ended, retried by hand and then claimed
  (`QueueSafety.FullProgressIsClaimedExactlyWhen`). What else cannot be granted is told by
  `QueueSafety.GrantRefusedExactlyWhen`.
- A handler error code of more than 100 characters makes a validation error escape the worker's cycle
  (`WorkerSafety.OwnedReportIsRecorded`). The branch of `run_once` for a cancelled claim is dead, because `claim_next`
  never returns such a job.
- The inbox copies states without validating them; the action record is what refuses long actors, and it measures them
  before trimming while the state stores them after (`AlertInbox`).
- A snooze repeated with the same actor, time and duration is offered by the inbox and then violates the key of the
  table of actions (`AlertInbox.RepeatedSnoozeIsOfferedAndRefused`, and exactly when by
  `AlertInbox.OfferedExactlyWhenAccepted`).
- An outcome is awaited one second before it is accepted (`AlertLineage.OutcomeIsAwaitedASecondEarly`).
- A threshold off the grid of 1e-8 can be missed by a rate that equals it (`OutcomeLearning.NeverMissedExactlyWhen`).
- Repeated providers are given as a reason that no phase-zero record can carry, and providers that are distinct only
  until they are trimmed are refused without a reason (`CapacityGates.RepeatedProviderIsNeverRecorded`,
  `CapacityGates.RecordIsBuiltExactlyWhen`).
- Failing evidence of phase three cannot be recorded for a long or blank reference, and blank environment labels are
  refused by phases two and three although a report admits them (`PhaseEvidence`).
- The number one passes for a gate's outcome `true`, and top-level derivatives may be dropped (`PhaseSixRecord`).

## Model

| member | source | states |
|---|---|---|
| `BackgroundJobs.Build` | src/trd_bot/jobs.py:321-349 | a built job is valid exactly when its key, its budget and its run time are admissible, and a valid one also passes every table check |
| `BackgroundJobs.BuiltJobIsFresh` | src/trd_bot/jobs.py:321-349 | what is asked for is what is built: queued, untouched, due at once or at the given time, with the given budget or that of its kind |
| `BackgroundJobs.PolicyFor` | src/trd_bot/jobs.py:72-139 | every kind has a policy that passes the policy validator |
| `BackgroundJobs.RetryDelayAfter` | src/trd_bot/jobs.py:62-69 | the delay exists exactly from the first attempt on, is never negative, and never reads past the list of delays, whatever the budget of the job |
| `BackgroundJobs.BackoffIsAPrefixOfThePolicy` | src/trd_bot/jobs.py:48-69 | the delays of the first k automatic retries add up to the first min(k, max_attempts - 1) delays of the policy |
| `BackgroundJobs.RetriesOfEachKind` | src/trd_bot/jobs.py:72-139 | two automatic retries after 5 and 30 seconds for every kind but the provider import, which has none; five minutes of lease |
| `QueueSafety.ReachableTableIsOk` | src/trd_bot/jobs.py:226-278 | every table reached by any interleaving of all eight transactions satisfies the whole lifecycle validator, every table check and key uniqueness, for arbitrary jobs and clocks |
| `QueueSafety.ExhaustedIsValid` | src/trd_bot/db/background_job_repositories.py:152-166 | the one write that skips validation needs none: the checks of the table already make the exhausted row valid |
| `QueueSafety.ReachableTableIsSound` | src/trd_bot/db/background_job_repositories.py:113-316 | with built jobs, bounded texts and agreeing clocks queued rows can always be granted and no time of a row is ahead of the clock |
| `QueueSafety.NoInternalFault` | src/trd_bot/db/background_job_repositories.py:113-346 | under the same assumptions no operation is ever refused by the validator or by a constraint of the table |
| `QueueSafety.GrantRefusedExactlyWhen` | src/trd_bot/db/background_job_repositories.py:168-184 | without them a due row cannot be granted exactly when its progress is full, it is claimed before it was created, or the worker id is longer than its field |
| `QueueSafety.FullProgressCanBeEnqueued` | src/trd_bot/db/background_job_repositories.py:24-56 | a job with full progress can be enqueued into any table without its key, and is refused to every claim as it is |
| `QueueSafety.FullProgressIsNeverClaimed` | src/trd_bot/db/background_job_repositories.py:113-184 | over any run such a job with attempts left stays as it is or is cancelled and no claim of it is accepted; nor is one without attempts left, if cancellation is requested or the hard limit reached |
| `QueueSafety.FullProgressIsClaimedExactlyWhen` | src/trd_bot/db/background_job_repositories.py:113-316 | some run ends in a grant of a queued job with full progress exactly when it has no attempt left below the hard limit and no cancellation is requested: it is ended, retried by hand and then claimed |
| `QueueSafety.RecedingClockRefusesSuccess` | alembic/versions/20260926_0017_background_jobs.py:62-66 | success violates a table check exactly when the clock is behind the start of the job |
| `QueueSafety.IdentityIsPermanent` | src/trd_bot/db/background_job_repositories.py:342-346 | over any run rows are never deleted and id, kind, key, payload and creation time never change |
| `QueueSafety.EnqueueIsIdempotent` | src/trd_bot/db/background_job_repositories.py:24-72 | after one accepted enqueue every later one with the same kind and key is answered with the same job id, creates nothing and changes nothing, whatever happened in between |
| `QueueSafety.ExactlyOneCreator` | scripts/benchmark_v0_3_release_capacity.py:402-427 | in every history exactly one caller is told that it created the job of a key, once the key is taken at all |
| `QueueAnswers.RowOkExactlyWhen` | src/trd_bot/jobs.py:226-278 | the validator and the checks of the table together leave one set of rows, status by status, which neither describes alone |
| `QueueAnswers.EnqueueIsAcceptedExactlyWhen` | src/trd_bot/db/background_job_repositories.py:24-56 | a job is created exactly if no job of its kind has its key and its id is new; a key of another kind is no obstacle |
| `QueueAnswers.ClaimIsAcceptedExactlyWhen` | src/trd_bot/db/background_job_repositories.py:113-184 | through arguments, selection, validator and table: a claim takes over exactly a queued job from its run time on, or a running one from the expiry of its lease on, that has an attempt left, no request to cancel and progress below 100; with every field of the grant |
| `QueueAnswers.SweepIsAcceptedExactlyWhen` | src/trd_bot/db/background_job_repositories.py:149-166 | exactly the reached rows without an attempt left or with a request to cancel are ended, as failed for want of attempts or as cancelled |
| `QueueAnswers.HeartbeatIsAcceptedExactlyWhen` | src/trd_bot/db/background_job_repositories.py:186-209 | exactly the holder of a live lease may report progress that does not fall and stays below 100; progress and expiry are recorded and nothing else changes |
| `QueueAnswers.SuccessIsAcceptedExactlyWhen` | src/trd_bot/db/background_job_repositories.py:211-234 | exactly the holder of a live lease succeeds, with its result, or cancelled if that was requested |
| `QueueAnswers.FailureIsAcceptedExactlyWhen` | src/trd_bot/db/background_job_repositories.py:236-277 | exactly the holder of a live lease fails: cancelled if requested, queued after exactly the delay while attempts are left, otherwise failed with its code and the first 500 characters of its message |
| `QueueAnswers.CancelIsAcceptedExactlyWhen` | src/trd_bot/db/background_job_repositories.py:279-290 | a request ends a queued job, is noted on a running one, which it changes in nothing else, and leaves a finished one alone |
| `QueueAnswers.RetryIsAcceptedExactlyWhen` | src/trd_bot/db/background_job_repositories.py:292-316 | exactly failed jobs with fewer than ten attempts are queued again, from the start of their progress and with one more attempt |
| `QueueLeases.GrantNamesTheOwner` | src/trd_bot/db/background_job_repositories.py:168-184 | a grant records the trimmed worker, an expiry ahead of the claim and one more attempt |
| `QueueLeases.StaleOwnerIsFenced` | src/trd_bot/db/background_job_repositories.py:318-332 | over any run a worker that does not hold the lease, and is not granted it again, is refused every message, and the table evolves exactly as if it had sent none |
| `QueueLeases.ReclaimFencesThePreviousOwner` | scripts/benchmark_v0_3_release_capacity.py:298-351 | once another worker reclaims an expired lease the previous owner is fenced off for the rest of the run |
| `QueueLeases.ConflictIsFinal` | src/trd_bot/db/background_job_repositories.py:318-332 | with agreeing clocks a lapsed lease stays lapsed until a new grant, even if nobody reclaims the job |
| `QueueLeases.ExpiredLeaseNamesItsOwnerUntilTakenOver` | src/trd_bot/db/background_job_repositories.py:113-332 | an expired lease keeps its owner and its expiry exactly until some session takes the job over, and from then on the owner is a stranger to it |
| `QueueLeases.LiveLeaseIsExclusive` | src/trd_bot/db/background_job_repositories.py:113-332 | while a lease is live and its owner silent, other sessions can change nothing about the job but request its cancellation |
| `QueueLeases.GrantsDoNotOverlap` | src/trd_bot/db/background_job_repositories.py:113-184 | two grants of one job are separated by the expiry of the first lease or by a message of its owner |
| `QueueLeases.DeadWorkersJobIsRecovered` | scripts/benchmark_v0_3_release_capacity.py:298-351 | the job of an owner that falls silent is accepted for another claim exactly from the expiry of its lease on, whatever other sessions do except cancel it |
| `QueueLeases.HeartbeatsKeepTheLease` | src/trd_bot/db/background_job_repositories.py:186-209 | an owner that renews before every expiry still owns the job when the last renewal expires |
| `QueueLeases.QueuedJobWaits` | src/trd_bot/db/background_job_repositories.py:113-150 | a queued job whose run time is ahead of every transaction stays as it is, or is cancelled |
| `QueueLeases.RetryDelayIsRespected` | src/trd_bot/db/background_job_repositories.py:236-277 | after an automatic retry no claim before the delay is accepted |
| `QueueLeases.RetriedJobIsClaimableAfterItsDelay` | src/trd_bot/db/background_job_repositories.py:236-277 | and a claim from the delay on is accepted |
| `QueueLeases.AttemptsCountGrants` | src/trd_bot/db/background_job_repositories.py:168-184 | the attempts of a job are its grants: each accepted claim adds one and nothing else changes them |
| `QueueLeases.GrantsAreBounded` | src/trd_bot/jobs.py:232-233 | without a manual retry a job is granted at most max_attempts times in any run |
| `QueueLeases.ManualRetryBuysOneAttempt` | src/trd_bot/db/background_job_repositories.py:292-316 | a manual retry allows exactly one more grant |
| `QueueLeases.ProgressNeverRecedes` | src/trd_bot/db/background_job_repositories.py:186-209 | between grants, retries and outcomes progress never decreases |
| `QueueLeases.CancellationDominates` | src/trd_bot/db/background_job_repositories.py:211-290 | a running job whose cancellation was requested ends cancelled, and never succeeds, fails or is granted again |
| `QueueLeases.AcceptedCancelIsRecorded` | src/trd_bot/db/background_job_repositories.py:279-290 | an accepted request to cancel an unfinished job leaves it cancelled, or running with the request pending, for good |
| `QueueLeases.FinishedJobsStay` | src/trd_bot/db/background_job_repositories.py:279-316 | a finished job only ever changes by a manual retry after a failure |
| `JobRepositories.JobRepository.FindByKey` | src/trd_bot/db/background_job_repositories.py:58-72 | finds a job exactly when the key is taken, and then the only one that holds it |
| `JobRepositories.JobRepository.Enqueue` | src/trd_bot/db/background_job_repositories.py:24-56 | answers as the transaction on the rows does, with other sessions committing between the lookup and the insert |
| `JobRepositories.JobRepository.ClaimNext` | src/trd_bot/db/background_job_repositories.py:113-184 | ends, each in a transaction of its own and with other sessions committing in between, exactly the due rows that nobody may run before the first that can be granted; grants that one or nothing; raises only for a bad argument or a row whose write is refused |
| `JobRepositories.ClaimAnswers` | src/trd_bot/db/background_job_repositories.py:124-184 | in fields: nothing is granted only if no row that nobody holds is queued and due, or running and expired, with an attempt left and not to be cancelled; a granted one has the least run time, and among equal ones the least creation time |
| `JobRepositories.ClaimEnds` | src/trd_bot/db/background_job_repositories.py:149-166 | what a claim ends on its way has come up and cannot run, and is cancelled or failed accordingly; if nothing is granted all such rows are ended |
| `JobRepositories.UngrantableRowStopsClaims` | src/trd_bot/db/background_job_repositories.py:124-184 | a due row that may run but cannot be granted stops every claim while it comes first: whatever the table around it, the claim raises and grants nothing |
| `JobRepositories.JobRepository.OwnedRunning` | src/trd_bot/db/background_job_repositories.py:318-332 | finds the row exactly for the owner of a live lease |
| `JobRepositories.JobRepository.Heartbeat` | src/trd_bot/db/background_job_repositories.py:186-209 | commits exactly the heartbeat transaction |
| `JobRepositories.JobRepository.Succeed` | src/trd_bot/db/background_job_repositories.py:211-234 | commits exactly the success transaction |
| `JobRepositories.JobRepository.Fail` | src/trd_bot/db/background_job_repositories.py:236-277 | commits exactly the failure transaction: cancelled, queued again after the delay, or failed with a cut message |
| `JobRepositories.JobRepository.RequestCancel` | src/trd_bot/db/background_job_repositories.py:279-290 | commits exactly the cancellation transaction |
| `JobRepositories.JobRepository.RetryFailed` | src/trd_bot/db/background_job_repositories.py:292-316 | commits exactly the manual retry |
| `JobRepositories.CandidatesLeft` | src/trd_bot/db/background_job_repositories.py:124-146 | ending rows takes exactly those rows out of the selection |
| `JobWorker.BackgroundJobContext.Heartbeat` | src/trd_bot/jobs.py:416-429 | sends one heartbeat for its job and keeps the job that the queue answers with |
| `JobWorker.BackgroundJobWorker.RunHandler` | src/trd_bot/jobs.py:525-550 | runs a handler, interleaved with other sessions, to its end or to the first refused heartbeat it does not survive |
| `JobWorker.BackgroundJobWorker.RunOnce` | src/trd_bot/jobs.py:486-558 | one cycle, with other sessions in between everywhere: the earliest row that is due or expired and can run is claimed, and an idle cycle leaves none; the handler runs, one report follows from how it ended, and a job is lost exactly when the lease is no longer owned |
| `JobWorker.LostExactlyWhenNotOwned` | src/trd_bot/jobs.py:525-558 | a report conflicts exactly when the worker does not own a live lease |
| `WorkerSafety.ReclaimedCycleIsLost` | src/trd_bot/jobs.py:486-558 | after another worker has reclaimed the job the table evolves as if the handler had sent no further heartbeat, and the report conflicts and writes nothing, whatever the handler did and however it ended |
| `WorkerSafety.SwallowedConflictLosesTheCycle` | src/trd_bot/jobs.py:541-558 | a heartbeat conflict that the handler or the catch-all turns into a failure makes that failure conflict too, when the clock moves on |
| `WorkerSafety.ExpiredCycleIsLostExactlyWhen` | src/trd_bot/jobs.py:486-558 | once a heartbeat has met its own expired lease, the cycle is lost exactly when its report is not before that expiry or somebody took the job over meanwhile |
| `WorkerSafety.FrozenCycleReports` | src/trd_bot/jobs.py:486-558 | for every job granted to a worker with a trimmed id at a time fixed by the caller there is a cycle that reports although a heartbeat conflicted: the handler beats once when the lease has run out and its failure is recorded as the owner's |
| `WorkerSafety.FrozenClockReopensTheLease` | src/trd_bot/db/background_job_repositories.py:318-332 | for one row, the report after such a conflict is accepted exactly when its time is before the expiry |
| `WorkerSafety.PaddedWorkerNeverReports` | src/trd_bot/db/background_job_repositories.py:318-332 | a worker id with outer white space is stored trimmed and compared as given, so none of its cycles ever reports |
| `WorkerSafety.KeptAliveCycleIsLostExactlyWhenPadded` | src/trd_bot/jobs.py:486-558 | a cycle that renews in time is lost exactly when the worker id is not trimmed |
| `WorkerSafety.OwnedReportIsRecorded` | src/trd_bot/jobs.py:525-556 | the report of an owner is recorded as the end of the handler demands, with its code and message or those of an unexpected error, and the delay of its kind; only a final failure whose code is longer than its field escapes the cycle |
| `ClaimRaces.RaceIsARun` | src/trd_bot/db/background_job_repositories.py:124-184 | whatever claim transactions that lock and skip rows write in any interleaving is a run of the queue, so every table check holds throughout |
| `ClaimRaces.ClaimsAreExclusive` | src/trd_bot/db/background_job_repositories.py:124-184 | in every such interleaving, with a clock of its own for every session, no two sessions return the same job as long as no clock is a whole lease ahead of another |
| `ClaimRaces.WinnersCouldWrite` | src/trd_bot/db/background_job_repositories.py:168-184 | a job whose grant would be refused is won by nobody |
| `ClaimRaces.FailureNamesTheRow` | src/trd_bot/db/background_job_repositories.py:152-184 | a session raises only over a row of the starting table that is due to it and whose write is refused |
| `ClaimRaces.SoundRaceNeverFails` | src/trd_bot/db/background_job_repositories.py:124-184 | on the tables that the service itself produces no session of a race raises |
| `ClaimRaces.EveryPrizeIsWon` | scripts/benchmark_v0_3_release_capacity.py:255-295 | when all have returned and none has raised, every session has won or every job due at the earliest clock is taken: at least min(sessions, runnable jobs due at the earliest clock) winners, at most min(sessions, those due at the latest) |
| `ClaimRaces.OneClockIsExact` | scripts/benchmark_v0_3_release_capacity.py:255-295 | with one reading for all of them there are exactly min(sessions, runnable due jobs) winners, so one due job has one winner |
| `QueueDrain.DrainOverloadBatch` | scripts/benchmark_v0_3_release_capacity.py:189-232 | one worker completes the whole batch, each job once and in claim order; none of the errors the loop raises can occur and the extra cycle finds nothing |
| `QueueDrain.CycleCompletes` | scripts/benchmark_v0_3_release_capacity.py:213-227 | a cycle over a waiting job reports success with full progress and one attempt |
| `QueueDrain.MeasureQueue` | scripts/benchmark_postgresql_capacity.py:304-371 | n claims and n finishes over n due rows: every claim finds a row, rows are taken in order and once, and all end succeeded |
| `Rounding.Nearest` | src/trd_bot/alerts/outcomes.py:41-42 | rounding stays within half a unit and breaks ties to the even neighbour |
| `Rounding.NearestReaches` | src/trd_bot/alerts/outcomes.py:41-42 | a value rounds to n or more exactly from half a unit below n on, the tie itself only for an even n |
| `Rounding.NearestIsMonotone` | src/trd_bot/alerts/outcomes.py:41-42 | rounding preserves order |
| `Rounding.NearestIsOdd` | src/trd_bot/alerts/outcomes.py:41-42 | rounding commutes with negation |
| `AlertOutcomes.BuiltRecordIsConsistent` | src/trd_bot/alerts/outcomes.py:172-292 | once the arguments are admitted the assembled record never fails one of its independently written checks; only the bounds of its fields decide |
| `AlertOutcomes.RefusalNamesTheFirstFault` | src/trd_bot/alerts/outcomes.py:172-197 | each refusal names the first argument that is not as it should be |
| `AlertOutcomes.MetricsAreExact` | src/trd_bot/alerts/outcomes.py:191-227 | return, directional return and both excursions in exact prices, for every trend: which unit each reaches, from the end, the high or the low |
| `AlertOutcomes.RecordTampering` | src/trd_bot/alerts/outcomes.py:147-169 | no flag, threshold, time or price range of an accepted record can be changed past its checks |
| `AlertOutcomes.ExcursionsBracketTheReturn` | src/trd_bot/alerts/outcomes.py:191-227 | adverse <= directional return <= favorable and adverse <= 0 <= favorable, after rounding, for every trend |
| `AlertOutcomes.OppositeTrendsMirror` | src/trd_bot/alerts/outcomes.py:194-222 | swapping up and down negates the return, exchanges the negated excursions and swaps confirmed with false positive |
| `AlertOutcomes.TrendThresholdIsExact` | src/trd_bot/alerts/outcomes.py:211-222 | the exact prices at which a trend is confirmed, neutral or false positive: half a unit short of the threshold |
| `AlertOutcomes.RangingThresholdIsExact` | src/trd_bot/alerts/outcomes.py:211-216 | a ranging call is never neutral, and confirmed exactly up to half a unit past the threshold |
| `AlertOutcomes.RefusedExactlyWhenTheRiseIsTooLarge` | src/trd_bot/alerts/outcomes.py:70-104 | ordered prices are refused exactly when the high, the rise to the peak or the actor exceeds its field, as inequalities between exact prices |
| `QuietHours.QuietHoursEnd` | src/trd_bot/alerts/publication.py:169-190 | an end exists exactly while quiet hours are active |
| `QuietHours.EndIsTheFirstAudibleInstant` | src/trd_bot/alerts/publication.py:169-190 | the end is the one later instant that is not quiet after nothing but quiet, across midnight and for every offset |
| `QuietHours.QuietExactlyInAWindow` | src/trd_bot/alerts/publication.py:98-104 | an instant is quiet exactly inside the window of some local day, which opens at the start and lasts to the next end |
| `QuietHours.EndIsAhead` | src/trd_bot/alerts/publication.py:169-190 | the end is strictly later, and no later than the length of the window |
| `QuietHours.QuietUntilTheEnd` | src/trd_bot/alerts/publication.py:169-190 | every instant of one window has the same end |
| `QuietHours.DayHasTheWindow` | src/trd_bot/alerts/publication.py:98-104 | a day has exactly (end - start) mod 1440 quiet minutes, at least one and not all |
| `QuietHours.SameEveryDay` | src/trd_bot/alerts/publication.py:169-190 | the window and its end repeat every day |
| `CanonicalOrder.StrictIsCanonical` | src/trd_bot/alerts/publication.py:221-239 | a set has only one tuple that is ordered and without repetition |
| `CanonicalOrder.SortedIsStrictExactlyWhen` | src/trd_bot/alerts/evaluations.py:79-91 | a sorted tuple passes the order and uniqueness checks exactly when it was given without repetition |
| `AlertContracts.RuleIsBuiltExactlyWhen` | src/trd_bot/alerts/contracts.py:451-499 | a rule version is built exactly with fitting texts, wanted trends and volatilities in the order of their names, a confidence in (0, 1] and a life of a minute to a day |
| `AlertContracts.ValidRuleIsTheBuiltOne` | src/trd_bot/alerts/contracts.py:424-449 | the validator accepts exactly what the builder makes of the same fields, so every version supersedes the one before |
| `AlertContracts.DraftIsBuiltExactlyWhen` | src/trd_bot/alerts/contracts.py:635-695 | a draft is built exactly for an enabled rule and a live, consumable source with one of its trends and volatilities and enough confidence, in time and with fitting texts; it expires with the source or the life of the rule, whichever is first; a refusal names the first unmet condition |
| `AlertContracts.ValidDraftIsTheBuiltOne` | src/trd_bot/alerts/contracts.py:582-632 | the validator accepts no other draft of a matching rule and source than the one that is built |
| `AlertEvaluation.EvaluateAlert` | src/trd_bot/alerts/jobs.py:169-217 | total on valid rules and sources: it fails exactly when publication reasons are looked at and repeat one |
| `AlertEvaluation.ReasonIsGivenExactlyWhen` | src/trd_bot/alerts/jobs.py:169-217 | each of the eight reasons is given exactly when the first of the three stages that has any has it, in the fields of rule and source |
| `AlertEvaluation.SuppressedExactlyWhen` | src/trd_bot/alerts/evaluations.py:116-181 | a suppression is recorded exactly with reasons that are not repeated and name all that blocks the evaluation, in order |
| `AlertEvaluation.ValidSuppressionIsTheRecordedOne` | src/trd_bot/alerts/evaluations.py:116-181 | the validator accepts no other suppression than the one recorded for its reasons |
| `AlertEvaluation.ValidPublicationIsTheRecordedOne` | src/trd_bot/alerts/evaluations.py:183-215 | and no other publication of a draft than the one recorded for it |
| `AlertEvaluation.ResultIsAcceptedExactlyWhen` | src/trd_bot/alerts/jobs.py:220-232 | the job accepts one result for its intent: the outcome with its own draft |
| `AlertEvaluation.EvaluationPassesEveryValidator` | src/trd_bot/alerts/evaluations.py:116-181 | evaluation, draft and result pass all their validators |
| `AlertEvaluation.PublishedIsValid` | src/trd_bot/alerts/jobs.py:205-217 | for a matching source without blockers and any valid rule, building the draft and the publication both succeed |
| `AlertEvaluation.PublishesExactlyWhen` | src/trd_bot/alerts/jobs.py:169-217 | publishes exactly for an enabled rule, a consumable source with a wanted trend, a wanted volatility and enough confidence, and no publication reason; source_expired never comes without source_not_consumable |
| `AlertEvaluation.ExpiredIsNotConsumable` | src/trd_bot/alerts/contracts.py:221-233 | an expired source is never consumable |
| `AlertEvaluation.SourceIsValidExactlyWhen` | src/trd_bot/alerts/contracts.py:221-233 | a reference is valid exactly if it is consumable for a ready, unexpired assessment of its hour, and otherwise names in order what is not so |
| `AlertEvaluation.PublishedTrendIsDetermined` | src/trd_bot/alerts/contracts.py:316-352 | a published alert never expects an undetermined trend |
| `AlertEvaluation.CapturedSourceIsValid` | src/trd_bot/market_context/product.py:95-112 | what the view works out about an assessment is what the reference works out again from its own fields, so a captured source passes the reference validator; it is consumable exactly for a ready, unexpired assessment of the current hour |
| `AlertEvaluation.RequestIsAccepted` | src/trd_bot/alerts/jobs.py:133-166 | a request built from an assessment passes the checks of its enqueue, and its job is well formed exactly when the key fits its field |
| `AlertEvaluation.EnqueueAcceptsExactly` | src/trd_bot/alerts/jobs.py:153-166 | exactly the jobs that agree with the built one in kind, status, key and times are accepted under an intent, and a job under another intent only for the same key and time |
| `AlertEvaluation.RequestsCollapse` | src/trd_bot/alerts/jobs.py:115-166 | requests for one rule version and source event at any times share one job, in any interleaving, and the intent of the first is kept |
| `AlertEvaluation.OtherRequestsDoNotCollapse` | src/trd_bot/alerts/jobs.py:115-130 | requests that differ in rule, version or event have different keys if the digest tells them apart |
| `PublicationDecisions.BuildDecision` | src/trd_bot/alerts/publication.py:294-332 | a decision is built exactly when every reason is one of the policy; it carries exactly the given reasons, allows exactly if there is none, and keeps the blocking evidence only if it blocks |
| `PublicationDecisions.ValidDecisionIsTheBuiltOne` | src/trd_bot/alerts/publication.py:221-292 | the validator accepts exactly what the builder makes of the same fields |
| `PublicationDecisions.DecisionsAreCanonical` | src/trd_bot/alerts/publication.py:221-292 | two accepted decisions on the same evidence and set of reasons are equal, checksum included |
| `PublicationDecisions.OnlyTheSetOfReasonsMatters` | src/trd_bot/alerts/publication.py:294-332 | permuting or repeating reasons changes nothing |
| `PublicationDecisions.RunEvaluation` | src/trd_bot/db/alert_jobs.py:150-176 | evaluating again with the reasons of any valid decision never fails; it publishes exactly for an enabled rule, a consumable source with the wanted trend, volatility and confidence, and a decision without reasons, and otherwise gives the reasons of the first stage that has any |
| `AlertLineage.SimulationStartsExactlyWhen` | src/trd_bot/alerts/simulations.py:165-209 | a simulation starts exactly within the life of the alert, for an admissible horizon and an actor that fits; a refusal names the first unmet condition |
| `AlertLineage.ValidSimulationIsTheStartedOne` | src/trd_bot/alerts/simulations.py:129-162 | the validator accepts no other simulation of a living alert than the one that is started |
| `AlertLineage.TimesChain` | src/trd_bot/alerts/simulations.py:165-209 | evaluated = created <= started < expires <= source expiry, started + 900 s <= ends <= observed <= recorded; the expected trend is determined and a ranging outcome is never neutral |
| `AlertLineage.PublishedAlertCanBeSimulated` | src/trd_bot/alerts/simulations.py:165-180 | a published alert can be simulated exactly within its life and for an admissible horizon |
| `AlertLineage.OutcomeIsAwaitedASecondEarly` | src/trd_bot/alerts/simulations.py:243-261 | the view awaits the outcome from one second before the horizon, when an outcome is still refused |
| `AlertInbox.StateFollowsTheLog` | src/trd_bot/alerts/inbox.py:83-123 | after any calls the state is the fold of the action log, valid without ever being validated again, and its times never go back; no action is recorded twice |
| `AlertInbox.LogIsInOrder` | src/trd_bot/db/alert_inbox.py:103-170 | after any calls the log is ordered by time within the life of the alert, repeats nothing and goes on after no acknowledgement |
| `AlertInbox.StateIsTheLastAction` | src/trd_bot/db/alert_inbox.py:103-170 | after any calls the state is that of the last action, field by field, or the initial one |
| `AlertInbox.CallIsRecorded` | src/trd_bot/db/alert_inbox.py:103-170 | an effective call appends its own action, with the trimmed actor, its time and the end of the snooze, and leaves the state of that action |
| `AlertInbox.RefusedExactlyWhen` | src/trd_bot/db/alert_inbox.py:103-170 | which calls have nothing left to do, conflict with the state of the alert, or are refused for their time, actor or duration |
| `AlertInbox.CopyIsValidExactlyWhenActorFits` | src/trd_bot/alerts/inbox.py:87-123 | a copied state is valid exactly when the trimmed actor has at most 100 characters |
| `AlertInbox.RecordRefusedExactlyWhenGivenActorIsTooLong` | src/trd_bot/alerts/inbox.py:191-217 | the record of the same action is refused exactly when the actor as given has more than 100 |
| `AlertInbox.StatusMovesForward` | src/trd_bot/alerts/inbox.py:238-274 | for a fixed state the status only moves forward and acknowledged is absorbing |
| `AlertInbox.OfferedExactlyWhenAccepted` | src/trd_bot/db/alert_inbox.py:103-170 | what the inbox offers is exactly what an admissible call is granted, but for a snooze that is already in the log of actions |
| `AlertInbox.RepeatedSnoozeIsOfferedAndRefused` | src/trd_bot/db/alert_inbox.py:139-170 | right after an accepted snooze the same snooze at the same instant is offered and refused, because its record exists already |
| `AlertInbox.SnoozeShows` | src/trd_bot/alerts/inbox.py:238-274 | a snooze shows exactly until its end or the expiry, whichever is first |
| `AlertInbox.QueriesAgreeWithItems` | src/trd_bot/db/alert_inbox.py:204-228 | the SQL condition of each status selects exactly the rows whose item has that status, missing state rows included |
| `AlertInbox.CountsPartitionTheAlerts` | src/trd_bot/alerts/inbox.py:276-297 | the four separately counted statuses add up to the number of alerts |
| `OutcomeLearning.DeriveReview` | src/trd_bot/outcome_learning.py:239-378 | the loops yield exactly the gaps, the signals in order, and the readiness that the samples demand |
| `OutcomeLearning.SignalsAreTheJustifiedOnes` | src/trd_bot/outcome_learning.py:239-378 | the review carries a signal exactly when the counts of the snapshot justify it, with the sample, rate and threshold that justify it |
| `OutcomeLearning.CodeAppearsExactlyWhen` | src/trd_bot/outcome_learning.py:239-378 | each of the eleven codes appears exactly when samples and rates deserve it |
| `OutcomeLearning.ReadyExactlyWhenEnough` | src/trd_bot/outcome_learning.py:353-378 | ready for review exactly when no sample is too small, without data exactly when there is none |
| `OutcomeLearning.ElevatedExactlyWhen` | src/trd_bot/outcome_learning.py:440-467 | a rate warns exactly when its sample is large enough and the exact rate rounds up to the threshold |
| `OutcomeLearning.WarningIsWithinHalfAUnit` | src/trd_bot/outcome_learning.py:440-467 | a warning is within half a unit of its threshold, and on the 1e-8 grid no rate at the threshold is missed |
| `OutcomeLearning.NeverMissedExactlyWhen` | src/trd_bot/outcome_learning.py:464-467 | off the grid a rate at the threshold is missed for some sample exactly when the threshold itself rounds down |
| `OutcomeLearning.StricterPolicyWarnsLess` | src/trd_bot/outcome_learning.py:239-378 | raising thresholds or sample minima never adds a rate warning |
| `OutcomeLearning.RatesAreFractions` | src/trd_bot/outcome_learning.py:123-149 | consistent aggregates only give rates between zero and one |
| `CapacityGates.EvaluateCapacity` | src/trd_bot/phase_zero_acceptance.py:351-430 | the reasons and observations, in order, that the report gives rise to |
| `CapacityGates.ReasonIsGivenExactlyWhen` | src/trd_bot/phase_zero_acceptance.py:351-430 | which reasons appear: for each metric its own budget and direction, its scope if there is no evidence, and the projection by cross-multiplication |
| `CapacityGates.ObservedExactly` | src/trd_bot/phase_zero_acceptance.py:351-430 | exactly the bounded metrics that were measured are recorded, with their values |
| `CapacityGates.ProjectionIsObserved` | src/trd_bot/phase_zero_acceptance.py:412-430 | the projection is recorded exactly for a positive count, as the measured bytes per event times the events of a month |
| `CapacityGates.CapacityPassesExactlyWhenMet` | src/trd_bot/phase_zero_acceptance.py:351-430 | no reason exactly when every scope is complete, every metric keeps its own budget and the projected storage is within its budget |
| `CapacityGates.CapacityIsMonotone` | src/trd_bot/phase_zero_acceptance.py:351-430 | a report at least as good as a passing one passes, with the quotient projection included |
| `CapacityGates.GapsFailTheGate` | src/trd_bot/phase_zero_acceptance.py:253-265 | without a required metric or a complete scope the gate never passes |
| `CapacityGates.EvaluateProviders` | src/trd_bot/phase_zero_acceptance.py:268-316 | the reasons, in order, about the selected providers, and the observations recorded beside them |
| `CapacityGates.ProvidersPassExactlyWhenMet` | src/trd_bot/phase_zero_acceptance.py:268-316 | no reason exactly for distinct providers with complete evidence, each with enough samples, few enough failures and a short enough latency for its budget |
| `CapacityGates.ProvidersAreMonotone` | src/trd_bot/phase_zero_acceptance.py:268-316 | the same monotonicity for the provider gate |
| `CapacityGates.ObservationsAreNotNegative` | src/trd_bot/phase_zero_acceptance.py:95-101 | the observations of a check are accepted by its validator |
| `CapacityGates.RepeatedProviderIsNeverRecorded` | src/trd_bot/phase_zero_acceptance.py:268-316 | repetition is a reason exactly when providers are repeated as given, and such a reason never reaches a record |
| `CapacityGates.RecordIsBuiltExactlyWhen` | src/trd_bot/phase_zero_acceptance.py:433-491 | a freeze record is built exactly when there is a fallback, no provider is blank, the first one fits and all stay distinct once trimmed; nothing that is evaluated can keep it from being built |
| `CapacityGates.RecordTampering` | src/trd_bot/phase_zero_acceptance.py:95-101 | in an accepted record no check can be replaced by one that hides its failures or observes a negative value |
| `CapacityGates.ReadyExactlyWhen` | src/trd_bot/phase_zero_acceptance.py:144-162 | a built record is ready exactly when no cited file is missing, every provider keeps its budgets and every capacity demand is met |
| `CapacityGates.ReadinessIsMonotone` | src/trd_bot/phase_zero_acceptance.py:433-491 | a report at least as good keeps a ready record ready |
| `PhaseEvidence.EvaluateProviders` | src/trd_bot/phase_two_acceptance.py:241-292 | the loops yield exactly the reasons in order and the measured observations |
| `PhaseEvidence.ProviderReasonIsGivenExactlyWhen` | src/trd_bot/phase_two_acceptance.py:241-292 | which reasons appear: for each provider and measure its own budget and direction |
| `PhaseEvidence.ProviderEvidenceAgrees` | src/trd_bot/phase_two_acceptance.py:141-172 | no reason exactly when scope and separately written validator accept; evidence can be recorded exactly when its environment label is not blank |
| `PhaseEvidence.ProviderReasonsCannotBeDropped` | src/trd_bot/phase_two_acceptance.py:141-172 | the evidence of a complete, live scope is accepted without reasons exactly if the evaluator has none |
| `PhaseEvidence.EvaluateJobs` | src/trd_bot/phase_three_acceptance.py:375-475 | the loops yield exactly the reasons in order, the observations, the reference and the count |
| `PhaseEvidence.JobReasonIsGivenExactlyWhen` | src/trd_bot/phase_three_acceptance.py:375-475 | which reasons appear: each metric against its own demand, missing ones included |
| `PhaseEvidence.JobEvidenceAgrees` | src/trd_bot/phase_three_acceptance.py:229-266 | no reason exactly for a complete synthetic benchmark with a trimmed reference that the validator accepts |
| `PhaseEvidence.JobReasonsCannotBeDropped` | src/trd_bot/phase_three_acceptance.py:229-266 | the evidence of a complete, synthetic benchmark is accepted without reasons exactly if the evaluator has none |
| `PhaseEvidence.JobEvidenceIsRecordedExactlyWhen` | src/trd_bot/phase_three_acceptance.py:204-222 | evidence can be recorded exactly when label and reference are not blank and the reference has at most 100 characters |
| `PhaseEvidence.UntrimmedReferenceSplitsThem` | src/trd_bot/phase_three_acceptance.py:217-232 | a reference that only becomes the fixture once trimmed fails the evaluator and satisfies the validator |
| `PhaseSixRecord.WriteRecord` | src/trd_bot/phase_six_acceptance.py:349-359 | the loop writes the document with all derived fields |
| `PhaseSixRecord.GatesTellExitCodes` | src/trd_bot/phase_six_acceptance.py:59-61 | the written outcome of a gate is true exactly if every one of its commands exited with zero |
| `PhaseSixRecord.DocumentTellsExitCodes` | src/trd_bot/phase_six_acceptance.py:243-250 | the written list names, in order, exactly the gates with a command that did not, and the record is ready exactly if there is none |
| `PhaseSixRecord.ParseRecord` | src/trd_bot/phase_six_acceptance.py:366-399 | the popping loops read exactly what the validator and the persisted derivatives admit |
| `PhaseSixRecord.WhatIsReadIsProper` | src/trd_bot/phase_six_acceptance.py:366-399 | whatever is read has the prescribed gates in order, each with proper commands, and they are exactly those of the document |
| `PhaseSixRecord.RoundTrip` | src/trd_bot/phase_six_acceptance.py:349-399 | parsing what was written returns the record, for any gates and commands |
| `PhaseSixRecord.AcceptedExactlyWhen` | src/trd_bot/phase_six_acceptance.py:366-399 | which values of the derived fields are accepted, all at once |
| `PhaseSixRecord.TopLevelTampering` | src/trd_bot/phase_six_acceptance.py:387-394 | a changed top-level derivative is accepted exactly when it is null or unchanged |
| `PhaseSixRecord.DroppedFieldsAreAccepted` | src/trd_bot/phase_six_acceptance.py:374-376 | any of the top-level derivatives may be dropped |
| `PhaseSixRecord.GateTampering` | src/trd_bot/phase_six_acceptance.py:395-398 | a changed outcome of a gate is accepted exactly if it is the truth value of all exit codes being zero, or the number one or zero for it; a dropped one is refused |
| `PhaseSixRecord.ChecksumPinsTheRecord` | src/trd_bot/phase_six_acceptance.py:393-394 | with an injective digest, keeping the checksum leaves no other record to read |

## Left out

- The handler registry, counting and paging of jobs, the job summary, and the sanitising of errors: only easy members.
- SQL, sessions and row locks: a select under `SKIP LOCKED` is a choice among the first unlocked candidates. In
  `ClaimRaces` each session keeps one clock reading, and only claims race; `JobRepositories.JobRepository.ClaimNext` has
  arbitrary sessions around it instead.
- The wording of error texts: a text is who worded it and how long it is. A worker id, an actor or a provider is its
  outer white space and its core.
- A handler is a sequence of heartbeats and of transactions of other sessions, and an end; what it computes and its
  polling for cancellation are not modelled.
- The latencies, percentiles and error messages of the two benchmarks; `QueueDrain.MeasureQueue` starts from the inserted
  rows and takes the clock readings of the statements as given.
- The 28-digit decimal context: quotients are exact and quantisation never overflows before the bounds of the fields.
  Prices are whole multiples of 1e-10.
- Digests and canonical JSON text: a digest is any function of what it covers, injective only where a lemma says so,
  except that the id of an inbox action is taken to tell all actions apart;
  the digests and keys of sources, rules, simulations, outcomes and publication policies, and the deduplication key, are not modelled.
- Time zones with daylight saving: the zone of quiet hours has a fixed offset.
- Text patterns, language strings, and the market-context engine behind an assessment.
- The validators of the learning policy and of its snapshot, beyond the sums that a result needs.
- How the publication repository finds duplicates, cooldowns and snoozes; its decision is a parameter of
  `PublicationDecisions.RunEvaluation`.
- The order in which the inbox lists actions of the same instant, and the countdowns of its items.
- The repository files that a phase-zero requirement cites, the retention and timeframe policies, and the golden evidence
  of phase three: finite lists.
- JSON parsing into values, and the lenient conversions of the validator beyond whole numbers; the parts of the phase-six
  record other than its gates are any document that can be read back.
