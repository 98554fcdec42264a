# AlphaEngine: verified models of its stateful core

This project states, and proves with Dafny 4.11, what six parts of AlphaEngine promise over
whole runs.  `dafny verify dfyconfig.toml` checks all of it.

| part | what it is | files |
|---|---|---|
| worker runtime | a semaphore in front of a thread pool; loop, workers and callbacks change the shared counters | `RuntimeModel`, `BackendRuntime` |
| latest-state feed | one producer per topic, a queue of one frame per consumer, joins, departures and limits | `FeedModel`, `LatestStateFeed` |
| data-quality ledger | de-duplicated findings, escalations that open, resolve and are pruned | `LedgerModel`, `LedgerCooldown`, `LedgerDedupe`, `LedgerConditions`, `LedgerRows`, `LedgerRules`, `DataQualityLedger` |
| stores and migrations | the desk-scoped store on a shared table, SQLite transactions that may fail at every step, the rewrite that makes migrations re-runnable | `TenantModel`, `TenantIsolation`, `TenantRequests`, `PostgrestStore`, `TransactionModel`, `SqliteStore`, `SqliteRows`, `MigrationBundle` |
| ranking and cleaning | BM25 with rank fusion; the cleaning pipeline that logs its own changes | `Bm25`, `Bm25Tokens`, `Bm25Ranking`, `Bm25Results`, `Bm25Order`, `Bm25Fusion`, `Labels`, `Cleaning`, `CleaningReconciles`, `CleaningOutcome`, `CleaningRows`, `CleaningPipeline` |
| schedules, retries, contracts, rota | due times over a run of ticks, the bounded job index, the retry loop, the series check, the on-call grammar | `SchedulerModel`, `JobIndex`, `DataScheduler`, `RetryQueue`, `BarContract`, `OnCall` |

`Sorting`, `Strings` and `Stats` hold what several parts share.

Where the code is concurrent or stateful there are two layers.  A machine (`...Model`) gives the
state, the events and what each does; runs are sequences of events, an event that is not enabled
changes nothing, and the theorems quantify over every run.  A class beside it has the fields of
the source's object and one method per uninterrupted section of code; its `Valid()` says that the
object is where the machine is after the events recorded so far, and every method is proved to
append exactly its event.  What is proved of all runs therefore holds of the object.

I/O, clocks, threads and engines are parameters: an outcome that the code cannot foresee
(a permit offered, a BEGIN that fails, a request that is lost, an attempt that raises) is an
argument of the method or part of the event.

## What the code does that its documentation does not say

- The cooldown of an escalation rule survives `prune` only if it is no longer than the
  retention; the ledger does not compare the two (`LedgerCooldown.CooldownKeptIffRetained`).
- With a window longer than the retention an ingest can leave open an escalation whose findings
  its own closing prune has deleted (`LedgerConditions.OpenMeansHoldingIff`).
- Re-pushing a batch is harmless unless one of its findings was refused as coming from the
  future and has come of age since (`LedgerDedupe.RepushIsHarmless`,
  `LedgerDedupe.RefusedThenEnters`).
- The id of a pruned escalation is given out again if it was the highest; a name remembered from
  then on acknowledges another escalation (`LedgerRows.NextIdRepeatsIff`).
- The header of the migration bundle calls it safe to re-run; the 400-character look-back
  compares neither the table nor the case of the name, so a drop of another table's policy
  leaves a create unguarded (`MigrationBundle.RerunnableIff`,
  `MigrationBundle.OtherTablesDropMisleads`).
- `clean` called with a value of `neg` it does not document logs rows as gone that it keeps
  (`CleaningReconciles.TotalsReconcileIff`, `CleaningReconciles.UnknownPolicyDoesNotClose`).
- SQLite `patch` reads its rows back, after giving up the lock, by a filter that other rows may
  meet, and that no row meets once a filtered column is null (`SqliteRows.AnswersChangedIff`,
  `SqliteRows.VersionedPatchAnswersIff`, `SqliteRows.FreedClaimLooksLost`).
- A block that goes on writing after the engine has rolled its transaction back writes outside
  any transaction: the writes stay, and the block is reported as failed
  (`TransactionModel.FileHoldsCommittedIff`, `TransactionModel.StrayStays`).
- A schedule whose run could not be written down fires again at the next tick
  (`SchedulerModel.DueAgainIff`, `SchedulerModel.UnrecordedRunsAgain`).
- The queue depth an operator reads counts work no worker has begun: any runtime with a worker
  can pass the configured queue size (`RuntimeModel.DepthWithinQueueIff`).
- The first retry waits twice the base delay, since the failure is counted before the delay is
  computed (`RetryQueue.FirstWaitIsTwiceTheBase`); a loop whose ceiling is more than 65,536 times
  its base never calls itself exhausted (`RetryQueue.ExhaustibleIff`).
- The rota's error for a list of no days is never given: a list of days that is read names at
  least one (`OnCall.DaysAreSome`).

## Model

| member | source | states |
|---|---|---|
| `RuntimeModel.BucketsStable` | Part2_Infrastructure/modules/backend_runtime.py:208-212 | one more bucket keeps the table within 64 named ones and `other`, and moves no label that has one |
| `RuntimeModel.OneBucketPerName` | Part2_Infrastructure/modules/backend_runtime.py:208-212 | over every run, two submitted calls of one name are filed under one bucket, then and ever after: the name's own or `other` |
| `RuntimeModel.EffectCounts` | Part2_Infrastructure/modules/backend_runtime.py:248-306 | each section of a call moves every shared counter by exactly what it moves the population that counter stands for |
| `RuntimeModel.NextKeepsInv` | Part2_Infrastructure/modules/backend_runtime.py:146-353 | every step of loop, worker, callback or rebind keeps permits, gauges, totals and label books equal to what they count |
| `RuntimeModel.PermitsConserved` | Part2_Infrastructure/modules/backend_runtime.py:146-353 | in every interleaving free plus held permits are `max_workers + max_queued`; `_queued` and `_running` are the real numbers of unstarted and running calls; their sum with the free permits stays within capacity |
| `RuntimeModel.PermitReturnedOnce` | Part2_Infrastructure/modules/backend_runtime.py:248-351 | a call's permit is given back exactly once, on expiry, pool refusal, cancellation before the start or completion; never-started work never ran |
| `RuntimeModel.LabelBooksBalance` | Part2_Infrastructure/modules/backend_runtime.py:208-285 | at most 65 buckets, each with submitted = completed + failed + never started + in flight |
| `RuntimeModel.DepthBounded` | Part2_Infrastructure/modules/backend_runtime.py:254-263 | `_queued` passes `max_queued` by at most the number of workers not inside a function |
| `RuntimeModel.DepthReached` | Part2_Infrastructure/modules/backend_runtime.py:248-288 | every depth up to `max_workers + max_queued` is reached by some run |
| `RuntimeModel.DepthWithinQueueIff` | Part2_Infrastructure/modules/backend_runtime.py:254-288 | the depth stays within `max_queued` in every run if and only if there is no worker at all |
| `RuntimeModel.EveryCallCanBeServed` | Part2_Infrastructure/modules/backend_runtime.py:248-306 | from every reachable state the workers alone can finish every call that was not refused, or left waiting on a closed loop, and bring all permits home |
| `RuntimeModel.PendingIsWatched` | Part2_Infrastructure/modules/backend_runtime.py:308-326 | in every run, work the pool has queued has not started and has a caller that awaits it |
| `RuntimeModel.GivenUpNeverStarts` | Part2_Infrastructure/modules/backend_runtime.py:317-326 | a caller can always give up on queued work; in every continuation that work is never started and its only fate is to end unstarted |
| `RuntimeModel.GivingUpTooLate` | Part2_Infrastructure/modules/backend_runtime.py:317-326 | given up once a worker has it, the call is in every continuation where it would have been, and so are every other call, the permits and the counters of work |
| `RuntimeModel.RefusalsCounted` | Part2_Infrastructure/modules/backend_runtime.py:229-246 | in every run the saturation, deadline and cancellation counters are the numbers of callers that heard so, and a caller has heard nothing exactly while it waits |
| `RuntimeModel.ToldOnce` | Part2_Infrastructure/modules/backend_runtime.py:308-326 | a caller hears one thing, once |
| `BackendRuntime.Runtime.constructor` | Part2_Infrastructure/modules/backend_runtime.py:116-144 | a new runtime has all its permits and empty counters |
| `BackendRuntime.Runtime.Start` | Part2_Infrastructure/modules/backend_runtime.py:146-172 | the same loop is let through, a closed loop with nothing queued or running is replaced with a fresh semaphore, any other is refused |
| `BackendRuntime.Runtime.Arrive` | Part2_Infrastructure/modules/backend_runtime.py:328-343 | a call of `run` is recorded, holding nothing |
| `BackendRuntime.Runtime.Operation` | Part2_Infrastructure/modules/backend_runtime.py:208-212 | the bucket of a label, created on first use while fewer than 64 exist |
| `BackendRuntime.Runtime.Admit` | Part2_Infrastructure/modules/backend_runtime.py:224-246 | a permit is taken when one is offered and free; otherwise the refusal is counted as a deadline or as saturation |
| `BackendRuntime.Runtime.AdmissionCancelled` | Part2_Infrastructure/modules/backend_runtime.py:234-236 | a caller cancelled while waiting leaves nothing held or counted |
| `BackendRuntime.Runtime.ExpireAfterAdmission` | Part2_Infrastructure/modules/backend_runtime.py:345-351 | a budget that ran out during admission gives the permit back at once |
| `BackendRuntime.Runtime.CountSubmission` | Part2_Infrastructure/modules/backend_runtime.py:252-256 | the submission is counted as queued and under its label |
| `BackendRuntime.Runtime.HandOver` | Part2_Infrastructure/modules/backend_runtime.py:287-306 | the pool takes the work, or the queue count and the permit are undone |
| `BackendRuntime.Runtime.ClaimByWorker` | Part2_Infrastructure/modules/backend_runtime.py:258-260 | a worker claims pending work, of which there are never more than workers |
| `BackendRuntime.Runtime.InvokeBegin` | Part2_Infrastructure/modules/backend_runtime.py:261-267 | queued becomes running |
| `BackendRuntime.Runtime.InvokeRaised` | Part2_Infrastructure/modules/backend_runtime.py:270-274 | a raising function is counted as failed, once, under its label |
| `BackendRuntime.Runtime.InvokeFinally` | Part2_Infrastructure/modules/backend_runtime.py:275-281 | running is lowered whether the function raised or returned |
| `BackendRuntime.Runtime.InvokeCompleted` | Part2_Infrastructure/modules/backend_runtime.py:282-285 | a returning function is counted as completed under its label |
| `BackendRuntime.Runtime.StopWaiting` | Part2_Infrastructure/modules/backend_runtime.py:308-326 | giving up ends queued work unstarted and leaves the stage of claimed or running work as it was; no other call changes, and the deadline or the cancellation is counted |
| `BackendRuntime.Runtime.Answer` | Part2_Infrastructure/modules/backend_runtime.py:311-316 | a caller that still awaits a resolved future gets its answer |
| `BackendRuntime.Runtime.DoneCallback` | Part2_Infrastructure/modules/backend_runtime.py:296-299 | the callback lowers the queue count exactly for work that never started |
| `BackendRuntime.Runtime.ReleaseOnLoop` | Part2_Infrastructure/modules/backend_runtime.py:300-301 | the release goes to the semaphore the call was admitted by |
| `BackendRuntime.Runtime.Status` | Part2_Infrastructure/modules/backend_runtime.py:355-385 | what an operator reads is within the configured bounds |
| `FeedModel.OfferAllAt` | Part2_Infrastructure/modules/latest_state_stream.py:179-184 | one pass of the producer puts its frame into every member's queue and touches no other queue |
| `FeedModel.OfferAllCounts` | Part2_Infrastructure/modules/latest_state_stream.py:179-184 | the frames a pass discards are as many as the queues it found full |
| `FeedModel.NextKeepsInv` | Part2_Infrastructure/modules/latest_state_stream.py:112-208 | every stretch of code between two awaits keeps queues, roster, producers and counters consistent |
| `FeedModel.ConsumersSeeTheNewest` | Part2_Infrastructure/modules/latest_state_stream.py:89-208 | in every run a consumer's frames have strictly increasing sequence numbers, each was the newest of its topic when it left the queue, no queue holds more than one, and offered = taken + coalesced + queued + abandoned |
| `FeedModel.SharedFrames` | Part2_Infrastructure/modules/latest_state_stream.py:49-56 | deliveries with one sequence number are the same frame of the same topic, whichever connections they reached |
| `FeedModel.GaugesAndLimits` | Part2_Infrastructure/modules/latest_state_stream.py:112-173 | `_active` and `_active_sources` are the real numbers of consumers and topics, connected = active + disconnected, no topic is empty, and the three limits hold |
| `FeedModel.OneProducerPerTopic` | Part2_Infrastructure/modules/latest_state_stream.py:136-173 | a running producer belongs to exactly one topic of the table |
| `FeedModel.FeedCanEmpty` | Part2_Infrastructure/modules/latest_state_stream.py:159-173 | from every reachable state departures leave no topic, producer or connection behind |
| `FeedModel.JoinServedIff` | Part2_Infrastructure/modules/latest_state_stream.py:119-145 | in every reachable state a connection is served if and only if fewer than the limit are registered over all topics, and its topic is in the table with a place or is new and the table has one; otherwise only the refusal is counted, with the first limit met as the reason |
| `FeedModel.RosterReached` | Part2_Infrastructure/modules/latest_state_stream.py:119-145 | every number of connections the limits allow is reached by some run, all places taken included |
| `FeedModel.FrameTells` | Part2_Infrastructure/modules/latest_state_stream.py:89-110 | a publication takes the next number and carries the number of frames coalesced so far over all connections there ever were |
| `FeedModel.TotalsKeepGrowing` | Part2_Infrastructure/modules/latest_state_stream.py:93-108 | over every run the coalesced totals of successive frames never go down |
| `FeedModel.EventsCounted` | Part2_Infrastructure/modules/latest_state_stream.py:122-208 | over every run slow connections, cancellations and refusals are counted once each as they happen |
| `FeedModel.EndsExactlyWhen` | Part2_Infrastructure/modules/latest_state_stream.py:149-208 | a late or failed send, a cancellation or the end of the producer ends a connection, and nothing else does |
| `FeedModel.FailureEndsTopic` | Part2_Infrastructure/modules/latest_state_stream.py:150-178 | a producer that fails publishes nothing more while its topic has it, in any continuation; each waiting or sending connection of the topic can end, and no other topic is touched |
| `FeedModel.OverStaysOver` | Part2_Infrastructure/modules/latest_state_stream.py:149-173 | a connection that has ended is sent nothing more in any continuation |
| `FeedModel.LeavingTouchesOneTopic` | Part2_Infrastructure/modules/latest_state_stream.py:159-173 | a departure takes one member out of its topic, keeps the producer for the others and stops it with the last, and changes no other topic |
| `LatestStateFeed.Feed.constructor` | Part2_Infrastructure/modules/latest_state_stream.py:58-87 | each limit is at least one |
| `LatestStateFeed.Feed.Serve` | Part2_Infrastructure/modules/latest_state_stream.py:119-145 | served if and only if the registered connections, counted over the topics, are below the limit and the topic has a place or is new with room for it; a refusal names the first limit met, is counted and changes no table |
| `LatestStateFeed.Feed.Register` | Part2_Infrastructure/modules/latest_state_stream.py:132-144 | a consumer is entered under its topic, which is made with a producer if it is new |
| `LatestStateFeed.Feed.Produce` | Part2_Infrastructure/modules/latest_state_stream.py:178-184 | one frame with the next sequence number is published and offered |
| `LatestStateFeed.Feed.Dispatch` | Part2_Infrastructure/modules/latest_state_stream.py:179-184 | the loop over the queues drops the older frame of a full one and counts it |
| `LatestStateFeed.Feed.Put` | Part2_Infrastructure/modules/latest_state_stream.py:184 | a frame is put only where there is room, so no put can raise |
| `LatestStateFeed.Feed.ProducerRaised` | Part2_Infrastructure/modules/latest_state_stream.py:175-178 | a failing snapshot ends the producer and leaves the topic to its consumers |
| `LatestStateFeed.Feed.TakeFrame` | Part2_Infrastructure/modules/latest_state_stream.py:200-201 | the frame taken is the newest its topic has published |
| `LatestStateFeed.Feed.SendEnded` | Part2_Infrastructure/modules/latest_state_stream.py:202-208 | a send past its budget is counted as slow and ends the consumer |
| `LatestStateFeed.Feed.StopServing` | Part2_Infrastructure/modules/latest_state_stream.py:149-158 | the wait ends the connection, by cancellation, which is counted, or with the producer |
| `LatestStateFeed.Feed.Disconnect` | Part2_Infrastructure/modules/latest_state_stream.py:159-173 | the clean-up removes the connection, empties its queue and settles the gauges |
| `LatestStateFeed.Feed.Unregister` | Part2_Infrastructure/modules/latest_state_stream.py:163-173 | the last consumer takes the topic and its producer along |
| `LatestStateFeed.Feed.Status` | Part2_Infrastructure/modules/latest_state_stream.py:210-227 | the published gauges are the sizes of the real tables and within the limits |
| `LedgerModel.KeptFindings` | Part2_Infrastructure/modules/data_quality_read.py:31-35 | retention keeps exactly the findings observed since the cutoff |
| `LedgerModel.KeptRows` | Part2_Infrastructure/modules/data_quality_read.py:36-39 | retention deletes exactly the escalations resolved before the cutoff |
| `LedgerCooldown.NextKeepsInv` | Part2_Infrastructure/modules/data_quality_rules.py:34-77 | after every call an opening younger than the cooldown is still in the table |
| `LedgerCooldown.OpeningsSpaced` | Part2_Infrastructure/modules/data_quality_rules.py:123-179 | over every run with a clock that does not go back, openings of one rule for one provider are a cooldown apart, if cooldown <= retention |
| `LedgerCooldown.OpeningsInInterval` | Part2_Infrastructure/modules/data_quality_rules.py:123-129 | an interval of length L holds at most L / cooldown + 1 openings of one rule for one provider |
| `LedgerCooldown.CooldownKeptIffRetained` | Part2_Infrastructure/modules/data_quality_read.py:31-40 | the spacing holds over all runs if and only if cooldown <= retention |
| `LedgerCooldown.CooldownKeptInDays` | Part2_Infrastructure/modules/data_quality.py:107-118 | as the settings are given: if and only if the cooldown in minutes is at most 1440 times the retention in days |
| `LedgerDedupe.NextKeepsInv` | Part2_Infrastructure/modules/data_quality_rules.py:47-76 | after every call whatever ever entered is in the table or too old to be admitted |
| `LedgerDedupe.EntersOnce` | Part2_Infrastructure/modules/data_quality_rules.py:47-76 | over every run a finding enters the ledger at most once per (instance, seq), whatever was pushed again or pruned in between |
| `LedgerDedupe.RepushIsHarmless` | Part2_Infrastructure/modules/data_quality_rules.py:50-71 | pushing any earlier batch again adds nothing, if and only if no finding of it was refused as future then, is admissible now and is not in the table |
| `LedgerDedupe.RefusedThenEnters` | Part2_Infrastructure/modules/data_quality_rules.py:50-71 | a finding from more than a minute ahead is refused, and the same push enters it once it has come of age |
| `LedgerConditions.OpenMeansHolding` | Part2_Infrastructure/modules/data_quality_rules.py:72-77 | after an ingest every unresolved escalation's condition is true of the stored findings in the window, if window <= retention |
| `LedgerConditions.OpenedStaysOpen` | Part2_Infrastructure/modules/data_quality_rules.py:131-204 | what an ingest opened is in the table and unresolved when it returns |
| `LedgerConditions.OpenMeansHoldingIff` | Part2_Infrastructure/modules/data_quality_rules.py:72-77 | that every ingest of every run leaves only conditions that hold is true if and only if window <= retention |
| `LedgerRules.StatsAreCounts` | Part2_Infrastructure/modules/data_quality_rules.py:136-147 | the three statistics are the numbers of stored rows of the provider that lie in the window, failed in it, and were fatal in it |
| `LedgerRules.HoldsIffMet` | Part2_Infrastructure/modules/data_quality_rules.py:149-158 | a rule holds if and only if at least `fatal_count` rows in the window were fatal; or at least `min_samples` rows lie in it and the failed ones are more than the rate times their number |
| `LedgerRules.OpensIff` | Part2_Infrastructure/modules/data_quality_rules.py:34-77 | a push opens an escalation of a rule for a provider if and only if it brings an admissible row of that provider, the stored rows meet the rule and no row of both was opened within the cooldown; its count and sample are those numbers of rows |
| `LedgerRules.ResolvedIff` | Part2_Infrastructure/modules/data_quality_rules.py:181-204 | an escalation is resolved if and only if it was unresolved and the stored rows no longer meet its rule; nothing else of it changes |
| `LedgerRules.InsertedRows` | Part2_Infrastructure/modules/data_quality_rules.py:61-71 | the table keeps its rows, gains pushed rows with keys that were not there, and then has the key of every row pushed |
| `LedgerRules.PrunesIff` | Part2_Infrastructure/modules/data_quality_rules.py:75-76 | a push prunes if and only if ten minutes have passed since the last prune, and then leaves exactly what the retention keeps |
| `LedgerRows.NextKeepsRows` | Part2_Infrastructure/modules/data_quality.py:208-233 | no call reuses the id of a stored row, resolves a resolved escalation again or puts a second name against one that is taken |
| `LedgerRows.NextIdRepeatsIff` | Part2_Infrastructure/modules/data_quality_rules.py:164-179 | over every run, the next escalation gets an id that was given before if and only if the row with the highest id so far has been pruned |
| `DataQualityLedger.Ledger.constructor` | Part2_Infrastructure/modules/data_quality.py:93-120 | a new ledger is empty and has not pruned |
| `DataQualityLedger.Ledger.Ingest` | Part2_Infrastructure/modules/data_quality_rules.py:34-77 | stale and future findings are refused, the rest stored, rules run, cleared escalations resolved and old rows pruned when it is time; for each rule and provider an escalation is returned if and only if a row of the provider was admitted, enough stored rows are counted against it and none was opened within the cooldown |
| `DataQualityLedger.Ledger.InsertRows` | Part2_Infrastructure/modules/data_quality_rules.py:61-71 | a row whose (instance, seq) is there is not inserted |
| `DataQualityLedger.Ledger.EvaluateRules` | Part2_Infrastructure/modules/data_quality_rules.py:131-164 | both rules for every provider in order; what is appended is what is returned |
| `DataQualityLedger.Ledger.EvaluateProvider` | Part2_Infrastructure/modules/data_quality_rules.py:135-163 | each rule opens one escalation if and only if the stored rows of the provider in the window meet it and none was opened within the cooldown, and writes the numbers of rows it went by |
| `DataQualityLedger.Ledger.Open` | Part2_Infrastructure/modules/data_quality_rules.py:166-179 | one unresolved row with the next id is appended |
| `DataQualityLedger.Ledger.ResolveCleared` | Part2_Infrastructure/modules/data_quality_rules.py:181-204 | exactly the unresolved escalations whose rule the stored rows in the window no longer meet are stamped |
| `DataQualityLedger.Ledger.Sweep` | Part2_Infrastructure/modules/data_quality_rules.py:181-204 | the periodic sweep resolves and touches nothing else |
| `DataQualityLedger.Ledger.Prune` | Part2_Infrastructure/modules/data_quality_read.py:31-40 | both tables are cut and the number of findings removed is answered |
| `DataQualityLedger.Ledger.DeleteOld` | Part2_Infrastructure/modules/data_quality_read.py:33-39 | the two deletions and the stamp of the last prune |
| `DataQualityLedger.Ledger.Acknowledge` | Part2_Infrastructure/modules/data_quality.py:208-233 | false exactly when no unresolved escalation has the id; otherwise it is taken by the first 120 characters of the name, an earlier name stands and no other row changes |
| `MigrationBundle.BundlePreservesSuccess` | tools/bundle_migrations.py:133-185 | wherever the migrations run as written, the rewritten ones reach the same catalogue |
| `MigrationBundle.RerunnableIff` | tools/bundle_migrations.py:149-162 | the bundle never fails on an existing object, whatever it is run against, if and only if every policy create the look-back leaves unguarded was last preceded by a drop of that policy on that table |
| `MigrationBundle.OtherTablesDropMisleads` | tools/bundle_migrations.py:153-155 | a drop of a same-named policy on another table satisfies the look-back, and the bundle then fails where the policy exists |
| `MigrationBundle.LeftAloneIff` | tools/bundle_migrations.py:150-160 | a policy create is left alone if and only if a drop of a policy starts at most 400 characters before it in its file and names it, up to case; otherwise a drop on its own table is put before it |
| `MigrationBundle.TwiceIsOnce` | tools/bundle_migrations.py:176-185 | run again on what it left, the bundle changes nothing and does not fail |
| `MigrationBundle.BundleAfterMigrations` | tools/bundle_migrations.py:176-185 | a project migrated file by file is left as it is by the bundle |
| `MigrationBundle.MissingIsMissing` | tools/bundle_migrations.py:104-185 | from every catalogue: what the source finds missing the bundle finds missing, and where the bundle finds something missing the source fails too |
| `MigrationBundle.DriftedStays` | tools/bundle_migrations.py:37-45 | a bundle that runs to its end leaves an object that exists under another definition as it is, if the source only ever creates it |
| `TenantIsolation.MatchesScoped` | Part2_Infrastructure/modules/data_ops_postgrest.py:112-121 | the scoped parameters select the rows the caller's filters select, of the store's desk and no other, whatever desk the filters name |
| `TenantIsolation.UniqueByDesk` | Part2_Infrastructure/modules/data_ops_postgrest.py:174-178 | the constraint on (desk, key) is the constraint on the key, desk by desk |
| `TenantIsolation.TargetIsKey` | Part2_Infrastructure/modules/data_ops_postgrest.py:174-179 | a conflict target naming the business key, with or without the desk, is the constraint; any other is refused |
| `TenantIsolation.CallIsolated` | Part2_Infrastructure/modules/data_ops_postgrest.py:135-233 | a call leaves other desks' rows as they were, keeps the constraint, does and answers on its own rows what it would on a table of its own, and returns no other desk's row |
| `TenantIsolation.DesksDoNotMeet` | Part2_Infrastructure/modules/data_ops_postgrest.py:112-233 | over every run of calls by any desks, with requests and answers lost at will, one desk's rows and answers are those of a single-tenant store given its calls |
| `TenantIsolation.AnswersAreOwn` | Part2_Infrastructure/modules/data_ops_postgrest.py:112-233 | no answer in a run shows a store a row of another desk |
| `TenantRequests.FilterTextIff` | Part2_Infrastructure/modules/data_ops_postgrest.py:115-116 | a filter's value is sent as it is if and only if it is a string with a dot among its first twelve characters; anything else is sent as equality with it |
| `TenantRequests.NumbersReadBack` | Part2_Infrastructure/modules/data_ops_postgrest.py:116 | a number is sent as equality with digits that read back as it, whatever its sign |
| `TenantRequests.TextsAre` | Part2_Infrastructure/modules/data_ops_postgrest.py:114-116 | every filter is sent under its column, and nothing else |
| `TenantRequests.FetchReads` | Part2_Infrastructure/modules/data_ops_postgrest.py:135-150 | a fetch reads exactly the desk's rows that every filter holds of, and changes none |
| `TenantRequests.RemoveDeletes` | Part2_Infrastructure/modules/data_ops_postgrest.py:228-233 | a removal deletes exactly those and answers with their number |
| `TenantRequests.PatchWrites` | Part2_Infrastructure/modules/data_ops_postgrest.py:186-205 | a patch that succeeds writes its columns and the desk into exactly those and answers with them as they became |
| `TenantRequests.AddInserts` | Part2_Infrastructure/modules/data_ops_postgrest.py:156-184 | a plain add appends the rows, each stamped with the desk, if and only if they have the same columns and none clashes; else it changes nothing |
| `TenantRequests.TwinRefused` | Part2_Infrastructure/modules/data_ops_postgrest.py:174-178 | a row is refused if and only if the desk has one with the same value in every column of the business key, nulls being equal to nothing |
| `TenantRequests.AddSkips` | Part2_Infrastructure/modules/data_ops_postgrest.py:172-184 | an add that skips duplicates answers with what it added, in order and without a clash; each row it left out has its key in the table, and the first of a key is the one that gets in |
| `TenantRequests.AddMerges` | Part2_Infrastructure/modules/data_ops_postgrest.py:172-184 | an add that merges lays each row over the one it clashes with and appends the others, unless two of its rows clash, and then it writes nothing |
| `PostgrestStore.Store.Open` | Part2_Infrastructure/modules/data_ops_postgrest.py:73-78 | a store is refused without an address, a key and a desk with a name |
| `PostgrestStore.Store.ScopedParams` | Part2_Infrastructure/modules/data_ops_postgrest.py:112-121 | the loop over the filters, the desk set last |
| `PostgrestStore.Store.Fetch` | Part2_Infrastructure/modules/data_ops_postgrest.py:135-150 | reads the desk's matching rows and changes none |
| `PostgrestStore.Store.Add` | Part2_Infrastructure/modules/data_ops_postgrest.py:156-184 | stamps every row with the desk and widens the conflict target; an empty payload is not sent |
| `PostgrestStore.Store.Patch` | Part2_Infrastructure/modules/data_ops_postgrest.py:186-205 | changes the desk's matching rows, which stay with the desk, and answers with them |
| `PostgrestStore.Store.Count` | Part2_Infrastructure/modules/data_ops_postgrest.py:207-226 | counts without changing anything |
| `PostgrestStore.CountsOwn` | Part2_Infrastructure/modules/data_ops_postgrest.py:207-226 | the count is of the desk's own matching rows |
| `PostgrestStore.Store.Remove` | Part2_Infrastructure/modules/data_ops_postgrest.py:228-233 | deletes the desk's matching rows and answers how many |
| `PostgrestStore.SwapsOnce` | Part2_Infrastructure/modules/data_ops_postgrest.py:193-205 | of all patches that filter on one version and replace it, one succeeds; the next finds no row and changes none |
| `TransactionModel.NextKeepsInv` | Part2_Infrastructure/modules/data_ops_store.py:309-374 | whatever fails, each locked region keeps the lock, the connection and the database in order |
| `TransactionModel.LockReturnedOnce` | Part2_Infrastructure/modules/data_ops_store.py:337-374 | every region gives the lock back exactly once, but for the one that holds it |
| `TransactionModel.FreeMeansClean` | Part2_Infrastructure/modules/data_ops_store.py:257-265 | whoever takes the free lock finds the connection absent or outside any transaction |
| `TransactionModel.FileHoldsCommittedIff` | Part2_Infrastructure/modules/data_ops_store.py:350-374 | in every run a file holds the writes of the regions whose COMMIT succeeded, whole, in order, and nothing else, if and only if no region wrote after the engine had rolled it back |
| `TransactionModel.StrayStays` | Part2_Infrastructure/modules/data_ops_store.py:337-374 | one region that did: its transaction is lost, its later write stays, and its caller is told that the block failed |
| `TransactionModel.MemoryHoldsCommittedIff` | Part2_Infrastructure/modules/data_ops_store.py:82-88 | so does an in-memory store, under the same condition, until its connection is dropped |
| `TransactionModel.LostMemoryStaysLost` | Part2_Infrastructure/modules/data_ops_store.py:82-88 | an in-memory store that lost its connection refuses every later use |
| `TransactionModel.CallerIsTold` | Part2_Infrastructure/modules/data_ops_store.py:350-374 | a block that ends without an exception is in the database, all of it in its transaction; one that ends with one left a file as it found it if and only if it wrote nothing after an engine rollback |
| `TransactionModel.EntersIff` | Part2_Infrastructure/modules/data_ops_store.py:337-348 | a block begins if and only if there is a connection or a file that opens and BEGIN succeeds; otherwise nothing is kept and the lock is free |
| `TransactionModel.ExecutesIff` | Part2_Infrastructure/modules/data_ops_store.py:105-107 | a statement on its own is written if and only if there is a connection or a file that opens and it succeeds |
| `SqliteStore.Store.constructor` | Part2_Infrastructure/modules/data_ops_store.py:62-76 | a new store has an open connection and a free lock |
| `SqliteStore.Store.Connection` | Part2_Infrastructure/modules/data_ops_store.py:82-88 | an absent handle is reopened for a file and refused for memory |
| `SqliteStore.Store.DiscardConnection` | Part2_Infrastructure/modules/data_ops_store.py:257-265 | the handle is dropped whatever closing it does |
| `SqliteStore.Store.Enter` | Part2_Infrastructure/modules/data_ops_store.py:337-348 | the lock stays with the block exactly when BEGIN succeeded |
| `SqliteStore.Store.Statement` | Part2_Infrastructure/modules/data_ops_store.py:337-348 | a statement of the block is pending until the end, or commits by itself once the engine has rolled back |
| `SqliteStore.Store.EngineRollsBack` | Part2_Infrastructure/modules/data_ops_store.py:337-348 | the transaction is gone and the connection is open outside one |
| `SqliteStore.Store.Leave` | Part2_Infrastructure/modules/data_ops_store.py:350-374 | commit, or roll back, or drop the handle; the lock is free on every path and the caller is told the truth |
| `SqliteStore.Store.RollBackOrDiscard` | Part2_Infrastructure/modules/data_ops_store.py:357-372 | a rollback that cannot complete costs the handle |
| `SqliteStore.Store.Execute` | Part2_Infrastructure/modules/data_ops_store.py:105-107 | a statement on its own commits itself or leaves nothing |
| `SqliteStore.Store.Close` | Part2_Infrastructure/modules/data_ops_store.py:309-322 | the handle is detached first, and a file keeps what it holds |
| `SqliteRows.Rows.Patch` | Part2_Infrastructure/modules/data_ops_store.py:226-241 | the update, what others write before the lock is taken again, and the read-back by the filter with the patched columns moved |
| `SqliteRows.AnswersChangedIff` | Part2_Infrastructure/modules/data_ops_store.py:226-241 | with no one in between, the answer is the changed rows if and only if no row matched, or the patch's filtered columns are found by the values sent and a fetch by the moved filter just before gave no row that the patch leaves alone |
| `SqliteRows.VersionedPatchAnswersIff` | Part2_Infrastructure/modules/data_ops_store.py:236-241 | a patch that names its row by a unique column answers with the row it changed if and only if it hit none, or its filtered columns are found by the values sent and the row still stands as it left it |
| `SqliteRows.VersionedPatchAnswersAlone` | Part2_Infrastructure/modules/data_ops_store.py:236-241 | with no one in between, the condition is one on the filter and the patch alone |
| `SqliteRows.NulledColumnLooksLost` | Part2_Infrastructure/modules/data_ops_store.py:240-241 | a patch that sets a filtered column to null answers with nothing, whatever it changed |
| `SqliteRows.FreedClaimLooksLost` | Part2_Infrastructure/modules/data_ops_store.py:240-241 | a table, a filter and a patch for which a row is changed and the answer is empty |
| `SqliteRows.FilterReads` | Part2_Infrastructure/modules/data_ops_store.py:155-176 | a null test looks at the cell alone; a comparison is the engine's, and never true of an empty cell |
| `Bm25Tokens.TokensAreTokens` | Part2_Infrastructure/modules/research_bm25.py:163-176 | a token is a non-empty run of word characters and no stop word |
| `Bm25Tokens.TokensApart` | Part2_Infrastructure/modules/research_bm25.py:163-181 | no token straddles two fields of a document |
| `Bm25Tokens.WordIsOneToken` | Part2_Infrastructure/modules/research_bm25.py:163-176 | a word is one token, folded, unless it is a stop word |
| `Bm25Order.DocTokensAreFields` | Part2_Infrastructure/modules/research_bm25.py:179-181 | a document's tokens are those of its fields, one field after the other |
| `Bm25.IdfPositiveIff` | Part2_Infrastructure/modules/research_bm25.py:184-202 | a term has positive weight if and only if fewer than half of the documents contain it |
| `Bm25.RarerWeighsMore` | Part2_Infrastructure/modules/research_bm25.py:184-202 | among terms with weight the rarer weighs more |
| `Bm25.MoreOccurrencesScoreMore` | Part2_Infrastructure/modules/research_bm25.py:229-249 | a term's contribution strictly increases with its count |
| `Bm25.LongerScoresLess` | Part2_Infrastructure/modules/research_bm25.py:229-249 | and strictly decreases with the length of the document |
| `Bm25.Saturates` | Part2_Infrastructure/modules/research_bm25.py:229-249 | and lies strictly between zero and (k1 + 1) times the weight |
| `Bm25Order.ScoreOfMore` | Part2_Infrastructure/modules/research_bm25.py:237-249 | one more term adds to the score its weight times tf(k1 + 1) over tf plus k1 times the mix of one and the relative length, tf being how often the document has it |
| `Bm25Order.WeightIs` | Part2_Infrastructure/modules/research_bm25.py:184-202 | a weight is the logarithm of the smoothed odds of not containing the term, or zero |
| `Bm25Order.FrequencyIsCount` | Part2_Infrastructure/modules/research_bm25.py:306 | a term's frequency is the number of candidates that contain it |
| `Bm25Order.MatchedIsCount` | Part2_Infrastructure/modules/research_bm25.py:241-249 | the matched count is the number of weighted terms in the document |
| `Bm25Order.MoreTermsScoreMore` | Part2_Infrastructure/modules/research_bm25.py:229-249 | of two documents of one length, the one with every weighted term at least as often does not score less, and scores strictly more if it has one more often |
| `Bm25Order.ShorterScoresMore` | Part2_Infrastructure/modules/research_bm25.py:229-249 | of two documents with equal counts of the weighted terms, the strictly shorter one scores strictly more if it contains any |
| `Bm25Order.BetterComesFirst` | Part2_Infrastructure/modules/research_bm25.py:272-349 | of two candidates, one that is better in either sense is ranked, and earlier and with a higher score than the other wherever that is ranked |
| `Bm25Results.ScoreBounds` | Part2_Infrastructure/modules/research_bm25.py:229-249 | a matched document's score is positive and below (k1 + 1) times the summed weights |
| `Bm25Results.MatchedIffHits` | Part2_Infrastructure/modules/research_bm25.py:241-249 | a document is matched exactly when it contains a weighted term |
| `Bm25Results.RankedIffSomeMatch` | Part2_Infrastructure/modules/research_bm25.py:272-331 | there is a ranking if and only if some candidate contains a query term that fewer than half contain, and then there are at least three candidates |
| `Bm25Results.RankingIsTheMatches` | Part2_Infrastructure/modules/research_bm25.py:317-349 | the ranking holds the matching candidates and no others, by score and then id, numbered from one |
| `Bm25Order.RankedInOrder` | Part2_Infrastructure/modules/research_bm25.py:333-338 | rows are numbered from one, by score and, where that is equal, by id |
| `Bm25Order.RankedScore` | Part2_Infrastructure/modules/research_bm25.py:317-321 | what the ranking shows of a candidate is the score and matched count of its own tokens |
| `Bm25Order.AverageIs` | Part2_Infrastructure/modules/research_bm25.py:289-304 | the average length times the candidates is all their tokens |
| `Bm25Order.ReportSays` | Part2_Infrastructure/modules/research_bm25.py:272-349 | each refusal is given exactly under its condition, and a report counts the candidates, the distinct query terms and those that tell candidates apart |
| `Bm25Ranking.OrderDoesNotMatter` | Part2_Infrastructure/modules/research_bm25.py:252-349 | the report depends on the set of candidates and not on their order |
| `Bm25Results.DocumentScore` | Part2_Infrastructure/modules/research_bm25.py:238-249 | the loop over the terms computes the score and the number matched of the function that `ScoreOfMore`, `MoreTermsScoreMore` and `ShorterScoresMore` are about |
| `Bm25Results.ScoreCandidates` | Part2_Infrastructure/modules/research_bm25.py:317-321 | candidates without a match are left out |
| `Bm25Results.RankCandidates` | Part2_Infrastructure/modules/research_bm25.py:252-349 | every refusal with its reason and counts, or the numbered ranking |
| `Bm25Fusion.FuseIsPermutation` | Part2_Infrastructure/modules/research_bm25.py:385-398 | fusing adds, drops and alters no row, sorts them, and leaves `bm25_rank` null exactly for rows BM25 did not rank |
| `Bm25Fusion.FuseForgetsOrder` | Part2_Infrastructure/modules/research_bm25.py:352-398 | the fused list does not depend on the order of the rows |
| `Bm25Fusion.HigherRankScoresMore` | Part2_Infrastructure/modules/research_bm25.py:377-381 | an arm's share is larger for a higher rank, and nothing for none |
| `Bm25Fusion.MovingUpMovesUp` | Part2_Infrastructure/modules/research_bm25.py:372-396 | a higher rank in one arm raises the fused score |
| `Bm25Fusion.FusedRowIs` | Part2_Infrastructure/modules/research_bm25.py:385-397 | a fused row has the rank the ranking gave its id, and its score is the sum of the shares of its three ranks |
| `Bm25Fusion.FusedInOrder` | Part2_Infrastructure/modules/research_bm25.py:352-361 | fused rows come by score, ties by vector rank, lexical rank and id, an absent rank last |
| `Bm25Fusion.FuseRows` | Part2_Infrastructure/modules/research_bm25.py:385-398 | the dictionary of ranks, the appended rows and the sorted copy |
| `Labels.CanonTwice` | Part1_Data_Handling/build_notebook.py:309-318 | a canonical team, service or model label is its own canonical form |
| `Labels.CaseDoesNotMatter` | Part1_Data_Handling/build_notebook.py:309-318 | labels that differ in case alone have one canonical form |
| `Labels.WordsAreHyphenated` | Part1_Data_Handling/build_notebook.py:313-314 | whatever blanks or underscores stand between the words of a service, they become one hyphen |
| `Labels.CanonicalForms` | Part1_Data_Handling/build_notebook.py:309-318 | a canonical team has exactly one capital at the start of every run of letters; a canonical service or model has none, and a service no gap |
| `Stats.MedianKeepsToTheMajority` | Part1_Data_Handling/build_notebook.py:355-364 | a median stays where more than half of the values lie, whatever the others are, infinite ones included |
| `Stats.MedianOfOrdered` | Part1_Data_Handling/build_notebook.py:363-364 | the median of values in order is the middle one, or half way between the middle two |
| `Stats.HalvesToEven` | Part1_Data_Handling/build_notebook.py:463-488 | rounding takes a half to the even neighbour |
| `CleaningReconciles.RateIsRobust` | Part1_Data_Handling/build_notebook.py:355-364 | a minority of rows billed off the rate does not move the rate beyond the prices of the rest and its rounding |
| `CleaningReconciles.RowsReconcile` | Part1_Data_Handling/build_notebook.py:546-554 | rows in less rows logged as dropped are rows out, under every combination of switches |
| `CleaningReconciles.TotalsReconcileIff` | Part1_Data_Handling/build_notebook.py:481-502 | raw totals plus logged changes are the clean totals if and only if the policy for impossible counts is a documented one or those rows add up to nothing |
| `CleaningReconciles.UnknownPolicyDoesNotClose` | Part1_Data_Handling/build_notebook.py:481-502 | one row with a negative count and a policy of another name: the pipeline completes and the totals do not close |
| `CleaningReconciles.RowsKeepTheirSource` | Part1_Data_Handling/build_notebook.py:525-535 | each row out is the row in that `source_row` names, no two name one, and they are in order of date and then of the workbook |
| `CleaningOutcome.OneRowPerKey` | Part1_Data_Handling/build_notebook.py:432-455 | with duplicates dropped no two rows that come out share a key |
| `CleaningOutcome.FilledCostIsThePrice` | Part1_Data_Handling/build_notebook.py:461-462 | an imputed cost is the price of the tokens, to the cent |
| `CleaningOutcome.FilledTokensAreBought` | Part1_Data_Handling/build_notebook.py:463-463 | imputed tokens are what the cost buys, to the token |
| `CleaningOutcome.RestatedIsThePrice` | Part1_Data_Handling/build_notebook.py:504-513 | a restated cost is the price of the tokens, to the cent |
| `CleaningRows.FirstOfEqualsKept` | Part1_Data_Handling/build_notebook.py:433-440 | de-duplication keeps exactly the first of equal rows |
| `CleaningRows.RestatementsSettled` | Part1_Data_Handling/build_notebook.py:444-455 | rows that share a key and differ stop the pipeline, or leave exactly the first or the last of each key; without any, nothing goes |
| `CleaningRows.RateIsWhatMostPay` | Part1_Data_Handling/build_notebook.py:355-364 | the rate of a key lies, to its rounding, where more than half of the rows that show a price of it are billed, counted over the rows of the frame |
| `CleaningRows.BlanksFilled` | Part1_Data_Handling/build_notebook.py:458-472 | exactly the blanks with a rate are filled: a cost with the price of the tokens to the cent, tokens with what the cost buys to the token; nothing else changes |
| `CleaningRows.BlankRowsDropped` | Part1_Data_Handling/build_notebook.py:473-479 | under any other policy exactly the rows with a blank go |
| `CleaningRows.TypicalIsRobust` | Part1_Data_Handling/build_notebook.py:486-487 | the tokens-per-request a count is imputed from lie within bounds that more than half of the service's sound rows meet |
| `CleaningRows.ImpossibleCountsRepaired` | Part1_Data_Handling/build_notebook.py:481-493 | exactly the rows with requests <= 0 are rewritten: an imputed count n has (n - 0.5) typical <= tokens <= (n + 0.5) typical, and under `abs` it is the reported one without its sign |
| `CleaningRows.ImpossibleRowsDropped` | Part1_Data_Handling/build_notebook.py:494-502 | under `drop` exactly those rows go |
| `CleaningRows.OverbilledIff` | Part1_Data_Handling/build_notebook.py:504-506 | a row is an anomaly if and only if it is billed at more than the factor times the price of its tokens |
| `CleaningRows.OverbilledRestated` | Part1_Data_Handling/build_notebook.py:510-517 | exactly the overbilled rows are restated, to the price of their tokens to the cent |
| `CleaningRows.OverbilledDropped` | Part1_Data_Handling/build_notebook.py:514-523 | under `drop` exactly the overbilled rows go |
| `CleaningRows.SoundMeasuresStay` | Part1_Data_Handling/build_notebook.py:399-535 | under every combination of switches each row out has the date, the canonical labels, the tokens and the positive count of requests of the workbook row it names |
| `CleaningPipeline.CleanFrame` | Part1_Data_Handling/build_notebook.py:367-535 | the eight stages over one frame and one register, giving the frame whose rows the stage theorems are about; under a documented policy the register closes |
| `SchedulerModel.DailyDueIff` | Part2_Infrastructure/modules/data_scheduler.py:52-65 | a daily schedule is due exactly when last run < today's slot <= now |
| `SchedulerModel.DailyDueOnDay` | Part2_Infrastructure/modules/data_scheduler.py:57-64 | on each day since the epoch, due exactly when last run < hh:mm of that day <= now |
| `SchedulerModel.EveryDueIff` | Part2_Infrastructure/modules/data_scheduler.py:53-56 | a periodic schedule is due exactly when it is valid and a period has passed since its last run, or since the epoch |
| `SchedulerModel.OncePerSlot` | Part2_Infrastructure/modules/data_scheduler.py:265-315 | over every run of ticks and completions in which runs are recorded, each submission reading its own clock, a daily entry submits at most once per slot and not before it, and a periodic one is found due no sooner than a period after its last submission |
| `SchedulerModel.DueAgainIff` | Part2_Infrastructure/modules/data_scheduler.py:290-296 | an entry that a tick found due is due for the next one, within the period of the tick, if and only if no submission under its id was recorded |
| `SchedulerModel.UnrecordedRunsAgain` | Part2_Infrastructure/modules/data_scheduler.py:290-315 | of two such ticks, the first submits a due entry if and only if the queue takes it, and the second if and only if the queue takes it and nothing under its id was recorded |
| `SchedulerModel.TickIsolates` | Part2_Infrastructure/modules/data_scheduler.py:298-315 | a tick submits every due entry whose own submission succeeds, whatever becomes of the others |
| `SchedulerModel.DueIsAll` | Part2_Infrastructure/modules/data_scheduler.py:265-275 | no due entry is passed over |
| `JobIndex.AttributedOnce` | Part2_Infrastructure/modules/data_scheduler.py:166-185 | the index stays within capacity and a job is attributed no more often than it was remembered |
| `JobIndex.LastOnesStay` | Part2_Infrastructure/modules/data_scheduler.py:166-176 | of new jobs the index holds the last it has room for, in order |
| `JobIndex.StrangersUnattributed` | Part2_Infrastructure/modules/data_scheduler.py:178-185 | a job nobody remembered is no schedule's |
| `JobIndex.OutcomeReachesItsSchedule` | Part2_Infrastructure/modules/data_scheduler.py:203-230 | a finished job is written against the schedule that submitted it, and a second report against none |
| `JobIndex.ScheduleJobIndex.Remember` | Part2_Infrastructure/modules/data_scheduler.py:166-176 | the loop evicts the oldest until the index fits |
| `JobIndex.ScheduleJobIndex.Take` | Part2_Infrastructure/modules/data_scheduler.py:178-185 | the schedule is answered once and removed |
| `JobIndex.ScheduleJobIndex.Reset` | Part2_Infrastructure/modules/data_scheduler.py:187-189 | the index is emptied in place |
| `DataScheduler.Scheduler.DueNow` | Part2_Infrastructure/modules/data_scheduler.py:265-275 | the loop finds the due entries in order |
| `DataScheduler.Scheduler.Submit` | Part2_Infrastructure/modules/data_scheduler.py:277-296 | the run is recorded before the job is remembered |
| `DataScheduler.Scheduler.Tick` | Part2_Infrastructure/modules/data_scheduler.py:298-315 | the jobs submitted and recorded are returned in order |
| `DataScheduler.JobsAre` | Part2_Infrastructure/modules/data_scheduler.py:298-315 | a tick answers with the job of a due entry if and only if it was taken and recorded |
| `DataScheduler.Scheduler.RecordOutcome` | Part2_Infrastructure/modules/data_scheduler.py:203-230 | a job that is no schedule's changes no stamp |
| `BarContract.PassesIffSound` | Part2_Infrastructure/modules/data_jobs.py:69-126 | the contract passes if and only if the series is non-empty, every bar has finite prices and a positive close, none is inverted, and timestamps strictly increase over all pairs |
| `BarContract.NeighboursDecide` | Part2_Infrastructure/modules/data_jobs.py:95-100 | comparing neighbours decides for every pair |
| `BarContract.SortedCounts` | Part2_Infrastructure/modules/data_jobs.py:269-272 | after the sort nothing is out of order and the duplicates are rows less distinct timestamps |
| `BarContract.VerdictForgetsOrder` | Part2_Infrastructure/modules/data_jobs.py:269-272 | the verdict does not depend on the order the rows were fetched in |
| `BarContract.CleanIff` | Part2_Infrastructure/modules/data_jobs.py:272-273 | an outcome is clean exactly for a sound series with enough bars and no gap |
| `BarContract.ReportsExactly` | Part2_Infrastructure/modules/data_jobs.py:69-126 | a report names a kind of fault if and only if the series has it, with the number of bars that have it, and lists exactly the checks it could not make |
| `BarContract.ReportedInOrder` | Part2_Infrastructure/modules/data_jobs.py:101-119 | the kinds come in their order, each at most once |
| `BarContract.OutcomesIff` | Part2_Infrastructure/modules/data_jobs.py:269-273 | empty, rejected, flagged and clean are told apart by soundness, coverage and gaps alone |
| `BarContract.CountFaults` | Part2_Infrastructure/modules/data_jobs.py:88-100 | the loop counts bad prices, inversions, repeats and steps back |
| `BarContract.CheckBarsRows` | Part2_Infrastructure/modules/data_jobs.py:69-126 | the contract with its violations in order |
| `BarContract.RunBackfill` | Part2_Infrastructure/modules/data_jobs.py:253-273 | a range past the cap is refused; the rest is sorted, checked and classified |
| `RetryQueue.DelaysGrow` | Part2_Infrastructure/modules/backoff.py:40-49 | every delay is within [base, ceiling] and none is shorter after one more failure |
| `RetryQueue.DelaysDouble` | Part2_Infrastructure/modules/backoff.py:40-49 | each failure doubles the delay until ceiling or cap |
| `RetryQueue.FirstWaitIsTwiceTheBase` | Part2_Infrastructure/modules/backoff.py:40-61 | the first wait is twice the base, or the ceiling, because the failure is counted first |
| `RetryQueue.ExhaustibleIff` | Part2_Infrastructure/modules/backoff.py:51-56 | some number of failures brings a loop to `exhausted` if and only if its ceiling is at most 65,536 times its base |
| `RetryQueue.Backoff.Make` | Part2_Infrastructure/modules/backoff.py:34-38 | a base that is not positive or a ceiling below it is refused |
| `RetryQueue.Backoff.Failed` | Part2_Infrastructure/modules/backoff.py:58-61 | a failure is counted and the new delay returned |
| `RetryQueue.Backoff.Succeeded` | Part2_Infrastructure/modules/backoff.py:63-66 | recovery is immediate |
| `RetryQueue.LastAttemptIs` | Part2_Infrastructure/modules/jobs.py:245-264 | the loop ends at the first attempt that returns or at the last allowed |
| `RetryQueue.FailsIffAllRaise` | Part2_Infrastructure/modules/jobs.py:245-264 | the last attempt raised if and only if all allowed attempts raised |
| `RetryQueue.JobRecord.constructor` | Part2_Infrastructure/modules/jobs.py:194-198 | a job is given the attempts its kind allows |
| `RetryQueue.Settle` | Part2_Infrastructure/modules/jobs.py:248-264 | an attempt settles the record when it returns or was the last |
| `RetryQueue.Postpone` | Part2_Infrastructure/modules/jobs.py:272-273 | the record shows when the next attempt is due while the worker sleeps |
| `RetryQueue.Runner` | Part2_Infrastructure/modules/jobs.py:231-281 | for every pattern of exceptions the loop ends within its attempts, succeeded exactly if the last attempt did, with `next_attempt_at` null and a total sleep that is the sum of the delays |
| `RetryQueue.RetriesAreFew` | Part2_Infrastructure/modules/jobs.py:105-112 | no kind is tried more than three times or sleeps more than twelve seconds |
| `RetryQueue.AttemptsOfKinds` | Part2_Infrastructure/modules/jobs.py:105-112 | how often each kind may be tried, and how long it sleeps in all if it is tried so often |
| `RetryQueue.SleptInAll` | Part2_Infrastructure/modules/jobs.py:111-112 | n >= 4 attempts would sleep 28 + 30 (n - 4) seconds in all |
| `RetryQueue.SleepBounds` | Part2_Infrastructure/modules/jobs.py:245-278 | the total sleep is within the bounds of as many waits |
| `OnCall.CoversIffInShift` | Part2_Infrastructure/modules/oncall.py:69-92 | an entry covers a moment exactly when, around the circular week, it comes no later than the window is long after the window's start on a named day |
| `OnCall.CoversAroundTheWeek` | Part2_Infrastructure/modules/oncall.py:69-92 | the same in microseconds of a week of seven days, for windows within a day and past midnight alike |
| `OnCall.OnCallAt` | Part2_Infrastructure/modules/oncall.py:152-162 | the first covering entry, or none when none covers |
| `OnCall.RangeGoesForward` | Part2_Infrastructure/modules/oncall.py:103-105 | a range of days goes forward from its first, around the end of the week |
| `OnCall.RangeIsRead` | Part2_Infrastructure/modules/oncall.py:99-105 | two day names and a hyphen are read as the days from the first forward to the second |
| `OnCall.ChunkReadIff` | Part2_Infrastructure/modules/oncall.py:97-109 | a chunk is read if and only if it is a day name, or two with a hyphen between them |
| `OnCall.ChunkForgives` | Part2_Infrastructure/modules/oncall.py:98 | neither case nor the blanks around it matter to a chunk |
| `OnCall.DaysAreSome` | Part2_Infrastructure/modules/oncall.py:110-111 | a list of days that is read names at least one, so the error for no days is never given |
| `OnCall.ParseDays` | Part2_Infrastructure/modules/oncall.py:95-112 | the loop over the chunks adds up their days or stops at the first unknown one |
| `OnCall.TimeRoundTrip` | Part2_Infrastructure/modules/oncall.py:115-119 | a written time is read back |
| `OnCall.TimeReadIff` | Part2_Infrastructure/modules/oncall.py:115-119 | a text is read as a time if and only if it is that time of day in hours and minutes, with or without a leading zero |
| `OnCall.DaysRoundTrip` | Part2_Infrastructure/modules/oncall.py:95-112 | a written set of days is read back |
| `OnCall.ReadsWhatIsWritten` | Part2_Infrastructure/modules/oncall.py:122-141 | a written entry is read back whole, for every non-empty set of days and every window |
| `OnCall.NamesRead` | Part2_Infrastructure/modules/oncall.py:122-134 | a name that was read is not blank, is trimmed and has no `@` |
| `OnCall.RoundTripIff` | Part2_Infrastructure/modules/oncall.py:122-141 | an entry survives writing and reading if and only if its name is such |
| `OnCall.PartsRead` | Part2_Infrastructure/modules/oncall.py:122-141 | an entry with its four parts is valid if and only if it has a name and each part can be read; the first that cannot is its error |
| `OnCall.PartsMissing` | Part2_Infrastructure/modules/oncall.py:122-134 | without a window or with half of one the entry is a blank one that says which part is missing |

## Left out

- Bm25Ranking.Rank: requires k1 > 0 and 0 <= b < 1, as the module's constants are; for other parameters the denominator of a contribution may be zero.
- Bm25Fusion.Fuse: requires ranks counted from one and k >= 0; the source would divide by zero for a rank of -k.
- LedgerModel.Holds: requires min_samples >= 1; with none the source divides by zero on an empty window.
- Cleaning.Clean: a division by a rate, or by a typical tokens-per-request, that is exactly zero stops the model, where pandas carries an infinity on until a later stage stops on it or drops the row.
- Cleaning.Missing: stops on a row that would be imputed from an infinite median price, where pandas carries the infinity on; with a negative `anomaly_factor` such a rate would also mark rows that the model leaves alone.
- SqliteRows.Rows.Patch: a patch of no columns, or with a name that is not a bare identifier, is refused by the source before or by the engine; here it is not asked.
- TransactionModel.Next: a block that begins a transaction of its own is not modelled. It also does not model an interrupt delivered after BEGIN took effect and before it returned.
- TenantIsolation.CallIsolated: relies on the database reading `eq.` on the desk column as equality, and on no key column having `desk_id` in its name; columns the database fills in itself, such as an identity shared by all desks, are not modelled.
- FeedModel.Next: does not model a second cancellation that arrives during the clean-up of `serve`.
- RuntimeModel.Next: `stop`, and admissions in flight while it runs, are not modelled; a loop that closes without draining is followed by the rebind in `start`, and a caller it left waiting can only be dropped.
- SchedulerModel.OncePerSlot: says nothing of two entries whose expressions collapse to one id beyond what it says of each, and assumes clocks that do not go back.
- In the rota, letters and digits are ASCII, blanks are space, tab and line ends; `parse_rota` only splits at semicolons.
- Case folding and title case are those of the ASCII letters; the ranking takes case folding as a parameter.
- Arithmetic is over reals: floating-point rounding is not modelled, except where the source itself calls `round`.
- The runtime's latency percentiles, event-loop lag and startup state; the feed's timestamps and pacing of publications.
- Ledger columns no rule reads, `mark_notified`, the aggregate view, the findings page, and the Postgres procedures that answer the same counts.
- A restart of the ledger process forgets when it last pruned, which only brings the next prune forward; a prune is already possible at any time.
- SQL as text: statements are a datatype, and the offset a look-back compares is given with each; a comment that contains the words of a drop also satisfies the look-back.
- `migrate`, checkpoints, pragmas, `rpc`, column lists and ordering of a fetch.
- The label map the pipeline fills, its prose, its derived ratios, and its idempotence as a whole.
- The grammar of schedule expressions, the jobs' executors and persistence, Celery, and completion hooks other than the one that records a schedule's outcome.
- `rota_health`, the redacted snapshot and the webhook channel.
