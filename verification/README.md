# dbrain: models and proofs

dbrain collects bookmarks, feeds and notes into a local store, serves them on the web, and looks after itself with
schedulers, audits and notifications. This project models the parts of it where correctness depends on more than one
line: algorithms that take short cuts, objects whose methods race, and formats that are written by one file and read
by another. Each part has a Dafny module with the program's own data, its operations in the form the program gives
them (classes that change state, loops over arrays, recursive functions), a reference that says what they are for,
and lemmas for all inputs, all runs or all interleavings.

| file | what it models |
|---|---|
| `edit_distance.dfy` | bounded edit distance between vocabulary words |
| `alias_safety.dfy` | which vocabulary aliases are safe, and singular forms |
| `audit_runs.dfy`, `audit_coordinator.dfy` | the on-demand audit coordinator: its transitions, and the class that performs them in place |
| `audit_history.dfy` | the coordinator refines a history that forgets nothing |
| `audit_lifecycle.dfy` | every interleaving of audit requests and executing runs |
| `audit_rate.dfy` | the one-minute limit on standard audits |
| `top_k.dfy`, `measurements.dfy` | the exact nearest-neighbour oracle and what is measured against it |
| `drain_close.dfy` | requests, shutdowns and the closing of the web server |
| `audit_scheduler.dfy`, `audit_scheduler_run.dfy` | the audit scheduler's life cycle, and one scheduled audit |
| `sync_scheduler.dfy`, `scheduled_sync.dfy` | the sync scheduler's life cycle, and one scheduled sync |
| `error_trees.dfy` | classification of failed syncs |
| `progress_reporter.dfy` | rate-limited progress output |
| `launchd.dfy` | the launchd plist and the doctor command that reads it back |
| `share_query.dfy` | nested URLs in public shares |
| `draft_clusters.dfy` | the draft vocabulary |
| `sorting.dfy`, `arithmetic.dfy` | what the library sort promises, byte order of strings, an option type, 64-bit arithmetic |

Concurrent objects are modelled twice. A class has the program's fields, and each of its methods is one critical
section, proved against a pure transition function. A state machine built from the same transition functions lets
critical sections, goroutines and channels interleave in any order; invariants over every schedule are proved there.
Clock readings are parameters. A critical section's `now` was read before the lock was taken, as in the program.

## What the proofs found

- The one-minute limit on standard audits holds for any two runs, also with a clock read out of order, except for two
  families of readings: a start at Go's zero time is taken for "no start yet", and a reading more than 2^63 ns less
  one minute (about 292 years) behind the last start makes the 64-bit subtraction wrap around.
  `AuditRateLimit.LimitCorrectIff` is the exact condition, `AuditRateLimit.UnmeasurableClocksBreakTheLimit` gives an
  input of each family.
- The sync scheduler's delay lies in [interval, interval + jitter) if and only if the clock reads no earlier than 1970,
  or a multiple of the jitter before it, and the sum fits in 64 bits (`SyncScheduler.DelayInWindowIff`; an input of
  each failing family in `SyncScheduler.DelayBeforeEpoch` and `SyncScheduler.DelayOverflows`).
- What the audit scheduler's Stop promises, that no run is active when it returns and that it does return, holds for
  every Stop during which no Start takes effect, whatever came before it and whatever other Stops do. A Start during
  a Stop is harmless if and only if it finds a loop and so does nothing (`AuditScheduler.StartHarmlessIff`). Otherwise
  it clears `stopping`, and the Stop returns while a run is active (`AuditScheduler.OverlappingStartReturnsEarly`) or
  is left waiting for a run that has ended (`AuditScheduler.OverlappingStartLosesTheSignal`).
- The coordinator's early eviction never shows, for readings in any order, as long as no status question is asked with
  a reading earlier than that of an eviction before it. For two readings this is exact: an eviction changes no later
  answer if and only if they are in order, or the eviction came within a day of zero time
  (`AuditHistory.OrderNeededIff`; a run in which an answer is lost in `AuditHistory.EarlyEvictionIsVisible`).
- Recall is the fraction of the oracle's answers that were found if and only if no matching neighbour is reported
  twice; an index that repeats itself can score above one.
- A plist gives back the selector it was rendered from if and only if its value has no surrounding white space.
- A join of errors is classified by its first known branch, but the same join inside a wrapper is classified by kind.
  It keeps its class if and only if no branch before the primary failure holds an error of the same kind and none
  holds one of a kind that goes first, where of stage failures only the first found matters, and only if its stage is
  known; and no other branch adds a permission error to an Apple Notes failure (`ErrorTrees.WrappingKeepsClassIff`).
  So a cleanup's stage failure can displace the boundary failure that came first
  (`ErrorTrees.WrappedJoinCanLoseThePrimary`).
- The fallback failure type is reached exactly for a failed run without an error, or with an error whose branches are
  all cancellations while some join in it is empty (`ErrorTrees.EmptyJoinsFallBack`).
- The suffix table of the singular forms changes nothing: each of its rows agrees with the two general rules.
- The repository README (README.md:1384-1386) says that a semantic refresh follows every successful sync. The
  code (internal/app/scheduler.go) also runs it after a failed sync, unless that sync was cancelled; the model follows
  the code.

## What is assumed

- Run ids are never reused. For the refinement of the history nothing settles before Go's zero time, and status
  questions are ordered as said above; the safety of every schedule holds for any clock, and the results about the
  rate limit state what they need of it.
- The runner, report store, metrics, webhook, sync lock and close functions answer in any way. Records are deep-cloned
  faithfully. Writers succeed in the progress reporter.
- Strings are sequences of characters; where the program compares bytes, a character stands for a byte.
- Distances are real numbers, and percentile fractions are rationals.

## Model

| member | source | states |
|---|---|---|
| EditDistance.EditDistanceWithin | internal/app/categorize_vocab.go:629-657 | true exactly when some script of at most maxDistance insertions, deletions and substitutions turns one word into the other, for any words and any bound |
| EditDistance.FillRow | internal/app/categorize_vocab.go:638-650 | a table row filled from the row before holds the distances between prefixes, and rowMin is its smallest entry |
| EditDistance.EntryRecurrence | internal/app/categorize_vocab.go:646 | an entry of the table follows from its three neighbours |
| EditDistance.ReachableIffDistance | internal/app/categorize_vocab.go:629-657 | the recurrence the table tabulates is the length of a shortest edit script |
| EditDistance.ScriptAtLeastDistance | internal/app/categorize_vocab.go:629-657 | no script, whatever edits it makes and wherever, is shorter than the recurrence |
| EditDistance.EditChangesDistanceByOne | internal/app/categorize_vocab.go:629-657 | one edit anywhere in a word changes its distance to any other word by at most one |
| EditDistance.DistanceAttained | internal/app/categorize_vocab.go:646 | a script of exactly the recurrence's length exists and works |
| EditDistance.DiagonalAttained | internal/app/categorize_vocab.go:642-646 | a common last byte costs nothing, a different one costs one substitution |
| EditDistance.LengthGapBelowDistance | internal/app/categorize_vocab.go:630-632 | the length difference never exceeds the distance, so the first prune rejects nothing reachable |
| EditDistance.RowMinimumBelowDistance | internal/app/categorize_vocab.go:651-653 | every row has an entry no larger than the final distance, so the early exit rejects nothing reachable |
| AliasSafety.SingularForm | internal/app/categorize_vocab.go:584-606 | visiting the suffix table in any order gives what the two general rules give |
| AliasSafety.TableAgrees | internal/app/categorize_vocab.go:585-598 | every row of the suffix table does what the general rules would do |
| AliasSafety.SingularByEnding | internal/app/categorize_vocab.go:599-605 | what becomes of each ending, with the length thresholds |
| AliasSafety.SingularIsFixed | internal/app/categorize_vocab.go:580-606 | singular forms are representatives: taking the singular of a singular changes nothing |
| AliasSafety.SafeAlias | internal/app/categorize_vocab.go:564-578 | an alias is safe exactly when the words differ, are nonempty, and are a known pair, have equal singulars, or are at least six long and within two edits |
| AliasSafety.SafeBothWays | internal/app/categorize_vocab.go:564-582 | apart from known pairs, safety has no direction |
| AuditRuns.RankInSortedList | web/audit_runs.go:276-288 | in the sorted list a record is outranked by exactly the records listed after it |
| AuditRuns.SortedListKeeps | web/audit_runs.go:276-288 | dropping all but the last hundred keeps exactly the records outranked by fewer than a hundred |
| AuditRuns.ScanStep | web/audit_runs.go:266-275 | one record visited: running ones stay, expired ones go, the others are listed |
| AuditRuns.ScanResult | web/audit_runs.go:264-288 | scanning in any order, sorting and dropping leaves the records running, or unexpired and among the newest hundred |
| AuditCoordinator.AuditRunCoordinator.CleanupLocked | web/audit_runs.go:264-288 | afterwards the table holds exactly the running records and the unexpired ones among the newest hundred, whatever order the map yields; nothing else changes |
| AuditCoordinator.AuditRunCoordinator.VisitLocked | web/audit_runs.go:266-275 | the pass over the map lists every unexpired terminal record once and removes exactly the expired ones |
| AuditCoordinator.AuditRunCoordinator.DropOldest | web/audit_runs.go:285-287 | exactly the given records are deleted |
| AuditCoordinator.AuditRunCoordinator.Start | web/audit_runs.go:112-159 | a request is refused, deduplicated, in conflict, rate limited or started, and the new state and answer are those of the pure transition; only a started run spawns a goroutine |
| AuditCoordinator.AuditRunCoordinator.AdmitLocked | web/audit_runs.go:126-157 | the decision after the eviction, for every combination of active run, profile, clock and id source |
| AuditCoordinator.AuditRunCoordinator.Complete | web/audit_runs.go:180-191 | a run that still owns its record makes it completed, with its report and the time, frees its slot and evicts; otherwise nothing changes |
| AuditCoordinator.AuditRunCoordinator.FinishFailed | web/audit_runs.go:194-207 | a run that still owns its record makes it failed, with the code and the time, frees its slot and evicts; otherwise nothing changes |
| AuditCoordinator.AuditRunCoordinator.Status | web/audit_runs.go:209-250 | the answer is the surviving record's status, with a report only when completed, and the table is evicted |
| AuditHistory.HiddenPersists | web/audit_runs.go:264-288 | a record that expired or was pushed out is never shown again later |
| AuditHistory.SurvivorsOutrank | web/audit_runs.go:276-288 | a record outranked by a hundred in the full history is outranked by a hundred records that survived earlier evictions |
| AuditHistory.CleanupOfSurvivors | web/audit_runs.go:264-288 | evicting after earlier evictions keeps exactly what one eviction of the full history keeps |
| AuditHistory.SettlingShrinks | web/audit_runs.go:182-206 | settling a run never brings an evicted record back |
| AuditHistory.StepRefines | web/audit_runs.go:112-305 | each lock section answers as the full history does, and keeps the table between the filtered and the full history, also when its own reading is out of order |
| AuditHistory.RunRefinesHistory | web/audit_runs.go:112-305 | over any run of starts, settlements, status requests, ticks and cancellation every answer is that of a history that evicts nothing, and the table stays between that history and the part of it kept at the latest reading |
| AuditHistory.TableIsFilteredHistory | web/audit_runs.go:264-305 | after any run, a section that evicts with the latest reading leaves exactly the filtered history |
| AuditHistory.RetentionInNumbers | web/audit_runs.go:264-288 | running records stay, no ended one is shown 24 hours after it ended, and at most 100 are kept |
| AuditHistory.DroppedMakesWay | web/audit_runs.go:276-288 | what is dropped earlier makes way for exactly 100 that ended later, or as late with a larger id |
| AuditHistory.EvictionRelates | web/audit_runs.go:264-288 | an eviction with an earlier reading than one before it removes nothing that the later one would keep |
| AuditHistory.OrderNeededIff | web/audit_runs.go:209-224 | the exact condition on two readings under which an eviction changes no later answer, in any state |
| AuditHistory.EarlyEvictionIsVisible | web/audit_runs.go:209-305 | a run whose readings are out of order and whose last answer misses an evicted record |
| AuditHistory.HistoryIgnoresTicks | web/audit_runs.go:290-305 | cleanup ticks do nothing to the full history |
| AuditHistory.TicksChangeNoAnswer | web/audit_runs.go:290-305 | two runs that differ only in cleanup ticks give the same answers |
| AuditLifecycle.NextKeepsInvariant | web/audit_runs.go:112-305 | every lock section and every step of an executing run keeps the invariant |
| AuditLifecycle.EvictionKeepsInvariant | web/audit_runs.go:264-288 | eviction never touches a running record |
| AuditLifecycle.RequestKeepsInvariant | web/audit_runs.go:112-159 | a request adds one run, spawned and active, or none |
| AuditLifecycle.ExecutionKeepsInvariant | web/audit_runs.go:161-179 | the runner is called once, and a report is saved before the run may complete with it |
| AuditLifecycle.SettleKeepsInvariant | web/audit_runs.go:180-207 | a settlement frees the slot, is counted once, and leaves a completed record only with a saved report |
| AuditLifecycle.EveryScheduleIsSafe | web/audit_runs.go:112-207 | in every reachable state the running records are exactly the active one, no run called the runner or settled twice and every finished one did both once, and a completed record shows an acceptable report that this run saved |
| AuditLifecycle.UnfinishedRunAdvances | web/audit_runs.go:161-207 | an unfinished run can always take its next step and comes closer to the end; the last step finds its guard true, settles for the first time and frees the slot |
| AuditLifecycle.SettlementRecordsVerdict | web/audit_runs.go:180-207 | the last step of a run leaves it completed with the report it saved, or failed with its code |
| AuditLifecycle.AnswersDecide | web/audit_runs.go:161-179 | what each answer of runner, check, store and copy makes of a run, and the code of each failure |
| AuditLifecycle.StatusShowsRecord | web/audit_runs.go:226-250 | a status shows the run, its times, its code, and its report exactly when it completed |
| AuditLifecycle.RequestIsAnswered | web/audit_runs.go:112-159 | in every reachable state, when a request is refused, shared, in conflict, rate limited or started, and with which run |
| AuditRateLimit.RemainingExactly | web/audit_runs.go:137-138 | the wait with its saturating and wrapping durations is positive exactly for a recorded start less than a minute and not about 292 years away |
| AuditRateLimit.LimitCorrectIff | web/audit_runs.go:137-143 | the limit agrees with "less than a minute since the recorded start" exactly when a start is recorded and the reading does not wrap around, or a minute has passed |
| AuditRateLimit.StandardRunsMinuteApart | web/audit_runs.go:137-154 | any two standard runs start at least a minute apart, for any measurable readings in any order |
| AuditRateLimit.UnmeasurableClocksBreakTheLimit | web/audit_runs.go:137-143 | runs with starts less than a minute apart, one for each family of unmeasurable readings |
| AuditRateLimit.RetryAfterIsLeastWait | web/audit_runs.go:138-142 | the advice is 1 to 60 seconds and the least whole number of seconds after which the limit is lifted |
| AuditRateLimit.WaitingSuffices | web/audit_runs.go:137-143 | after waiting that long a standard start is not rate limited, whatever else happened, if no other standard run started |
| TopK.RankingRanks | internal/annbakeoff/run.go:381-413 | the reference ranking is sorted by the comparison, and lists every vector once with its own distance |
| TopK.RankedByDistance | internal/annbakeoff/run.go:411-413 | on distances and ordinals alone: closer first, and of equally close ones the smaller |
| TopK.Search | internal/annbakeoff/run.go:385 | binary search finds the one point before which nothing is beaten and from which everything is |
| TopK.InsertAt | internal/annbakeoff/run.go:389-391 | shifting the tail and writing the gap inserts in place and changes nothing else |
| TopK.InsertThenTruncate | internal/annbakeoff/run.go:385-394 | inserting into the bounded buffer and cutting it equals inserting into the whole ranking and cutting that |
| TopK.Consider | internal/annbakeoff/run.go:384-395 | one candidate turns the closest of the first n vectors into the closest of the first n + 1, also when it is skipped |
| TopK.ExactTopK | internal/annbakeoff/run.go:381-401 | the first min(limit, n) ordinals of the full ranking: closer first, of equally close ones the smaller, and every vector left out is farther, or as far with a larger ordinal |
| Measurements.Percentile | internal/annbakeoff/run.go:446-454 | zero for no samples; otherwise a sample, and for a fraction in (0, 1] the nearest-rank one: at least ceil(p n) samples reach it and fewer lie below |
| Measurements.NearestRankUnique | internal/annbakeoff/run.go:451-453 | that value is unique, so an unstable sort cannot change it |
| Measurements.RanksOrdered | internal/annbakeoff/run.go:446-454 | a higher rank never has a smaller value |
| Measurements.StagePercentiles | internal/annbakeoff/run.go:288-289 | the median never exceeds the 95th percentile |
| Measurements.CountAtPosition | internal/annbakeoff/run.go:451-453 | position i of the sorted samples has at least i + 1 samples up to its value and at most i below it |
| Measurements.CeilExactly | internal/annbakeoff/run.go:452 | the rank is the least integer not below the fraction of the samples |
| Measurements.SpreadIncreases | internal/annbakeoff/run.go:434-436 | the sampled positions never decrease, and increase strictly when there are no more queries than vectors |
| Measurements.QueryOrdinals | internal/annbakeoff/run.go:432-438 | the sampled ordinals are in range, evenly spaced, and distinct when there are no more queries than vectors |
| Measurements.AddInBatches | internal/annbakeoff/run.go:218-238 | the accepted batches concatenate to 0..size-1 in order, all of 512 but the last, and it stops only at a refused batch or a cancellation seen between batches |
| Measurements.Recall | internal/annbakeoff/run.go:415-430 | one for an empty oracle, otherwise the counted fraction, which is the intersection's and lies in [0, 1] when no match is repeated |
| Measurements.MatchesAreCommonIffDistinct | internal/annbakeoff/run.go:423-428 | the count of matching hits is the size of the intersection exactly when no match is repeated |
| Measurements.RepeatedHitOvercounts | internal/annbakeoff/run.go:423-429 | a repeated hit scores above one |
| DrainClose.CloseableHandler.Enter | web/server.go:100-107 | a request is admitted and counted, or refused once closing |
| DrainClose.CloseableHandler.Leave | web/server.go:108-113 | a returning request is uncounted and the last one of a closing handler signals |
| DrainClose.CloseableHandler.RequestClose | web/server.go:124-127 | closing is set for good, and signals at once when nothing is in flight |
| DrainClose.CloseableHandler.Arm | web/server.go:128-134 | only the first caller starts the closing goroutine |
| DrainClose.NextKeepsInvariant | web/server.go:99-152 | every step of requests, shutdowns, the closing goroutine and the owner keeps the invariant and the order of the log |
| DrainClose.DrainsThenCloses | web/server.go:99-276 | over all interleavings the close function runs at most once, with no request in flight, and the store is closed at most once and only after it |
| DrainClose.ClosingIsFinal | web/server.go:99-127 | once closing, nothing is admitted and the requests in flight only become fewer |
| DrainClose.InternalStepsRunOut | web/server.go:211-276 | the program's own steps cannot go on for ever |
| DrainClose.NothingIsForgotten | web/server.go:211-276 | when they have run out every request has returned, a requested close has run, and on every exit of the server the store was closed once, after the handler |
| AuditScheduler.Scheduler.Start | internal/app/audit_scheduler.go:135-149 | a loop is made unless there is one, and stopping is cleared only then |
| AuditScheduler.Scheduler.BeginRun | internal/app/audit_scheduler.go:227-238 | a run is admitted exactly when neither stopping nor running |
| AuditScheduler.Scheduler.EndRun | internal/app/audit_scheduler.go:239-250 | the run is uncounted, and the shared channel closed and forgotten if a Stop waits on it |
| AuditScheduler.Scheduler.BeginStop | internal/app/audit_scheduler.go:166-180 | the channel waited on is closed already, shared with other Stops, or made for the run in flight |
| AuditScheduler.Scheduler.ClearLoop | internal/app/audit_scheduler.go:149-155 | a leaving loop clears the fields only if they are still its own |
| AuditScheduler.NextKeepsInvariant | internal/app/audit_scheduler.go:135-250 | every step keeps: running iff one run is active, no channel closed twice, none closed that someone will still close, the loop that goes on is the one in the fields |
| AuditScheduler.NextServes | internal/app/audit_scheduler.go:162-188 | every step but a Start that takes effect keeps a waiting Stop served: its channel is closed with no run active, or due to be closed by the active run |
| AuditScheduler.NoOverlapNoDoubleClose | internal/app/audit_scheduler.go:135-250 | in every interleaving Running holds iff exactly one run is active, and no channel is closed twice, however many Stops share it |
| AuditScheduler.RunAdmittedIff | internal/app/audit_scheduler.go:227-238 | a run is admitted exactly when none is active and the scheduler is not stopping; a refused one changes nothing |
| AuditScheduler.DoorFollowsStartAndStop | internal/app/audit_scheduler.go:135-180 | a Stop closes the door, an effective Start opens it with a new loop, and nothing else touches it |
| AuditScheduler.StoppedStaysStopped | internal/app/audit_scheduler.go:227-231 | once stopping with no run active, none begins before a Start takes effect |
| AuditScheduler.StopReallyWaits | internal/app/audit_scheduler.go:162-188 | when a Stop returns, during which no Start took effect, no run is active, and none is until a Start takes effect; nothing is asked of what came before |
| AuditScheduler.NoStopIsStuck | internal/app/audit_scheduler.go:162-188 | under the same condition, when runs and loops have finished, that Stop can return |
| AuditScheduler.StartHarmlessIff | internal/app/audit_scheduler.go:135-187 | a Start while a Stop waits keeps what the Stop promises, on every continuation without a further effective Start, iff it finds a loop |
| AuditScheduler.StartBreaksIdle | internal/app/audit_scheduler.go:135-187 | otherwise, with no run active, a run is admitted and the Stop can return while it is active |
| AuditScheduler.StartBreaksActive | internal/app/audit_scheduler.go:239-250 | or, with a run active, that run ends without releasing the Stop |
| AuditScheduler.EndReleasesIffStopping | internal/app/audit_scheduler.go:239-250 | the end of a run releases the waiting Stops exactly when stopping still holds |
| AuditScheduler.OverlappingStartReturnsEarly | internal/app/audit_scheduler.go:146 | a schedule in which a Stop returns while a run is active |
| AuditScheduler.OverlappingStartLosesTheSignal | internal/app/audit_scheduler.go:146 | a schedule in which a Start inside an unfinished Stop leaves that Stop waiting for a run that has ended |
| AuditSchedulerRun.Run.Execute | internal/app/audit_scheduler.go:251-298 | the effects attempted are a prefix of the canonical order, with one finish, as the first failure that matters decides |
| AuditSchedulerRun.Run.Alert | internal/app/audit_scheduler.go:266-298 | the alert half: state read, transition, state written, delivered and acknowledged if asked for |
| AuditSchedulerRun.Run.ConcludedMeans | internal/app/audit_scheduler.go:251-308 | ok iff everything attempted worked; delivery only after the next state was written, acknowledgement only after a delivery that worked; a failure names an effect that failed |
| AuditSchedulerRun.Run.CodesNameEffects | internal/app/audit_scheduler.go:251-296 | for each code, exactly which effect failed and which worked before it |
| AuditSchedulerRun.Run.AttemptsWait | internal/app/audit_scheduler.go:251-291 | for each effect, exactly what must have worked before it is attempted |
| SyncScheduler.DelayInWindowIff | internal/app/scheduler.go:359-369 | the exact condition under which a jittered delay lies in [interval, interval + jitter) |
| SyncScheduler.DelayExactly | internal/app/scheduler.go:359-369 | the interval without jitter, the interval plus the remainder of the reading with it |
| SyncScheduler.DelayBeforeEpoch | internal/app/scheduler.go:365-368 | a reading before 1970 for which the delay is shorter than the interval |
| SyncScheduler.DelayOverflows | internal/app/scheduler.go:368 | an interval and a reading whose sum wraps around to the most negative delay |
| SyncScheduler.Scheduler.Start | internal/app/scheduler.go:271-286 | a loop is made unless there is one |
| SyncScheduler.Scheduler.FinishStop | internal/app/scheduler.go:302-307 | the fields are cleared only if they are still those Stop waited for |
| SyncScheduler.Scheduler.TryRun | internal/app/scheduler.go:378-413 | a launch becomes an actual run exactly when no run is active and the lock is free |
| SyncScheduler.NextKeepsInvariant | internal/app/scheduler.go:271-425 | every step keeps one actual run at most, and every launch in the place in the logs that its phase implies |
| SyncScheduler.NextKeepsPosts | internal/app/scheduler.go:371-376 | every step keeps one post for each actual run and none for anything else |
| SyncScheduler.RunsNeverOverlap | internal/app/scheduler.go:378-425 | at most one launch is actually running, over all launches of all loops |
| SyncScheduler.OnePostPerActualRun | internal/app/scheduler.go:371-497 | a finished launch was skipped and posted nothing, or ran and was posted once, with its own outcome |
| SyncScheduler.TryRunDecides | internal/app/scheduler.go:378-413 | in every reachable state a launch runs exactly when none is running and the lock is free, and is skipped otherwise |
| SyncScheduler.RunGoesOn | internal/app/scheduler.go:371-425 | a run keeps its own outcome through settling, release and post |
| SyncScheduler.ReleaseFreesSlot | internal/app/scheduler.go:411-418 | after a run is released no launch is running |
| SyncScheduler.StopReallyWaits | internal/app/scheduler.go:288-308 | when Stop returns, whatever is in flight belongs to a loop started after that Stop began |
| SyncScheduler.StopWithoutStartLeavesNothing | internal/app/scheduler.go:288-308 | with no Start since, neither a run nor a post is in flight when Stop returns |
| SyncScheduler.StopAllowsRestart | internal/app/scheduler.go:271-308 | after a Stop its loop is gone from the fields, and the next Start makes a loop that launches runs |
| ScheduledSync.Session.Execute | internal/app/scheduler.go:520-639 | for all answers of the collaborators: the effects are one of the protocol's logs, one completion event carries the run's failures iff the sync ran, and the error returned flattens to exactly the failures that occurred, in order |
| ScheduledSync.Session.WithMetrics | internal/app/scheduler.go:540-550 | a store left open on an early return is closed, and nothing else is |
| ScheduledSync.Session.WithMetricsClosed | internal/app/scheduler.go:535-539 | the metrics sink is closed and its error joined behind the failures so far |
| ScheduledSync.Session.WithStore | internal/app/scheduler.go:552-595 | the same from the opened store on, with what is left for the deferred calls |
| ScheduledSync.Session.CloseAndRefresh | internal/app/scheduler.go:571-595 | after a sync that was not cancelled: store close, summary, context and refresh, each with its exit |
| ScheduledSync.Session.Abandon | internal/app/scheduler.go:560-570 | both cancelled exits: completion event, metrics closed, failures in order |
| ScheduledSync.Session.Refresh | internal/app/scheduler.go:596-638 | the exit with a refresh |
| ScheduledSync.Session.Summarize | internal/app/scheduler.go:624-638 | unwritten summaries join the run's error and metrics errors come last, also when nothing else failed |
| ScheduledSync.ProtocolGuarantees | internal/app/scheduler.go:520-639 | what was opened is closed exactly once, and one completion event is emitted iff the sync ran |
| ScheduledSync.ProtocolAttempts | internal/app/scheduler.go:520-616 | exactly when the metrics sink and the store are opened, the sync runs and the refresh starts |
| ScheduledSync.ProtocolOrder | internal/app/scheduler.go:531-623 | metrics, store, sync, store close, refresh, completion event and metrics close come in this order |
| ScheduledSync.SetupFailuresAreReported | internal/app/scheduler.go:527-555 | a failure before the sync is in the error returned, behind its boundary |
| ScheduledSync.RunFailuresAreReported | internal/app/scheduler.go:558-616 | the completion event tells of every failure of sync, store close, summary, context and refresh that was asked for, and of none iff all answered none |
| ScheduledSync.SyncFailuresAreReported | internal/app/scheduler.go:558-595 | so does the error returned, and of a failure to close the metrics sink |
| ScheduledSync.RefreshFailuresAreReported | internal/app/scheduler.go:596-638 | after a refresh the error returned tells of it, of both metrics events, and of the two summaries if it worked |
| ScheduledSync.SucceedsIffNothingFails | internal/app/scheduler.go:520-639 | the call succeeds exactly when all fifteen collaborators answer no error |
| ScheduledSync.NothingIsInvented | internal/app/scheduler.go:520-639 | every failure reported is some collaborator's own answer, behind its own boundary |
| ScheduledSync.MetricsCloseIsLast | internal/app/scheduler.go:535-539 | a failure to close the metrics sink comes last |
| ScheduledSync.JoinCarries | internal/app/scheduler.go:574 | joining two errors, either of which may be nil, carries the failures of the first, then those of the second |
| ScheduledSync.SyncFailureIsNotifiedFirst | internal/app/scheduler.go:520-639 | the types notified are the first occurrences among all failures, and those of a failed sync precede every cleanup's |
| ErrorTrees.CancellationOnlyIff | internal/app/notify_classify.go:105-130 | a cancellation and nothing else: all leaves are cancellations and no join is empty |
| ErrorTrees.WrappingIsTransparentExceptForJoins | internal/app/notify_classify.go:132-180 | wrapping changes no class of an error that is not a join |
| ErrorTrees.SimpleClasses | internal/app/notify_classify.go:143-179 | the class of each single error, and when a permission error counts |
| ErrorTrees.StageBeforeBoundary | internal/app/notify_classify.go:143-153 | a known stage decides, inside or outside a boundary |
| ErrorTrees.BoundaryBeforeRefresh | internal/app/notify_classify.go:152-178 | a boundary decides, inside or outside a refresh error |
| ErrorTrees.WrappingKeepsClassIff | internal/app/notify_classify.go:132-180 | for every tree: a wrapper keeps the class iff the primary failure is not displaced, by an earlier branch of its kind or any branch of a kind that goes first |
| ErrorTrees.ClassOverBranches | internal/app/notify_classify.go:135-142 | the class of a join is that of its first known branch, however joins are nested |
| ErrorTrees.FirstOverBranches | internal/app/notify_classify.go:144-174 | errors.As over a join finds the first such error over its branches in order |
| ErrorTrees.WrappedJoinCanLoseThePrimary | internal/app/notify_classify.go:132-180 | a join with a boundary failure in front that a wrapper turns into its later stage failure |
| ErrorTrees.ClassifyFailureTypes | internal/app/notify_classify.go:182-201 | the two loops compute the failure types |
| ErrorTrees.FailureTypesAreFlat | internal/app/notify_classify.go:182-201 | the failure types are the first occurrences among the classes of the join branches that are not cancellations, however joins are nested |
| ErrorTrees.NestingIrrelevant | internal/app/notify_classify.go:182-201 | errors with the same branches have the same failure types |
| ErrorTrees.AppendNewKeeps | internal/app/notify_classify.go:192-196 | deduplication keeps what was there in front, repeats nothing and loses nothing |
| ErrorTrees.DedupKeepsOrder | internal/app/notify_classify.go:191-198 | failure types stand in the order of their first occurrences |
| ErrorTrees.PrimaryFailureFirst | internal/app/notify_classify.go:182-201 | if one error's branches come first in another, so do its failure types |
| ErrorTrees.FallbackReachedIff | internal/app/notify_classify.go:78-81 | the unknown type is substituted exactly for no error, or for an error with an empty join whose branches are all mere cancellations |
| ErrorTrees.OutcomesOfRun | internal/app/notify_classify.go:63-95 | success without an error, one cancelled outcome for a mere cancellation, otherwise one failure for each class of branch |
| ErrorTrees.EmptyJoinsFallBack | internal/app/notify_classify.go:78-81 | an empty join, and one beside a cancellation, are reported as the unknown type |
| ProgressReporter.Reporter.Report | internal/app/semantic_progress_reporter.go:64-123 | the output stays the reference output of everything observed, and nothing is written after the end |
| ProgressReporter.Reporter.Finish | internal/app/semantic_progress_reporter.go:127-139 | the open block gets one terminal line with the last observed snapshot, once |
| ProgressReporter.RunIsMaximal | internal/app/semantic_progress_reporter.go:91-105 | a block covers a maximal run of one stage, so adjacent blocks are of different stages |
| ProgressReporter.OutputIsBracketed | internal/app/semantic_progress_reporter.go:64-139 | line by line: start, progress, end, all of one stage; then only the start of another stage after an end that succeeded; the last line is what Finish was told |
| ProgressReporter.OutputEnds | internal/app/semantic_progress_reporter.go:92-94 | a terminal line shows the last observed snapshot, even one that was suppressed |
| ProgressReporter.OutputSameStage | internal/app/semantic_progress_reporter.go:109-122 | within a stage one line is added if it is due, none otherwise |
| ProgressReporter.ShownWhenDue | internal/app/semantic_progress_reporter.go:107-117 | a changed snapshot is shown after five seconds and not before, an unchanged one after thirty |
| ProgressReporter.StageIsKnown | internal/app/semantic_progress_reporter.go:151-163 | the six known stages are shown by name, any other as empty |
| ProgressReporter.ProgressIsRateLimited | internal/app/semantic_progress_reporter.go:109-122 | with a clock that does not go backwards a block has at most one progress line plus one for every full five seconds |
| Launchd.Render | internal/app/launchd.go:218-253 | fails exactly for a blank label or binary; otherwise yields the whole document, token by token |
| Launchd.PlistWriter.WriteHead | internal/app/launchd.go:230-236 | everything before the arguments, with text pieces written one after the other read as one token |
| Launchd.PlistWriter.WriteArguments | internal/app/launchd.go:237-241 | one string element per argument, in order |
| Launchd.PlistWriter.WriteEnvironment | internal/app/launchd.go:243-246 | the environment dictionary |
| Launchd.PlistWriter.WriteEnd | internal/app/launchd.go:247-251 | the two flags, each log path under its own key, and the end tags |
| Launchd.ReadProgramArguments | internal/app/doctor.go:410-465 | the loop with its three flags computes the token automaton's result |
| Launchd.ReadsDocument | internal/app/doctor.go:442-446 | the reader stops at the end of the arguments, whatever follows |
| Launchd.ReadsWhatWasRendered | internal/app/doctor.go:410-465 | reading any rendered document gives the nonblank arguments, trimmed, whatever the label, even "ProgramArguments" |
| Launchd.PlistSays | internal/app/launchd.go:218-278 | the document gives the label, the search path, both flags, and each log path under its own key |
| Launchd.NothingWithoutKey | internal/app/doctor.go:420-464 | no array is read unless the key came before it |
| Launchd.ArrayStep | internal/app/doctor.go:428-462 | in the array only the text of string elements is taken, and its end is the answer |
| Launchd.ConfigFromProgramArguments | internal/app/doctor.go:324-344 | the index loop computes the recursive scan, which stops at serve and takes the last selector |
| Launchd.ScanStops | internal/app/doctor.go:324-344 | nothing counts from serve on, nor a selector without a value; a later selector replaces an earlier one |
| Launchd.LaunchdConfigArgs | internal/app/launchd.go:295-312 | config file before root, command line before environment, blank values ignored |
| Launchd.RecoveredIs | internal/app/launchd.go:299-304 | which flag stands for which selector |
| Launchd.TrimFixedIff | internal/app/doctor.go:451 | trimming changes a string exactly when there is space at an end |
| Launchd.RoundTrip | internal/app/launchd.go:218-253 | from the plist of any nonblank binary and selector the doctor reads the program arguments back trimmed, and the selector exactly if and only if its value has no surrounding space, even if it is "serve" or "--root" |
| Launchd.SpaceIsLost | internal/app/doctor.go:451 | a root with a leading space is read back without it |
| ShareQuery.DecodedIs | web/chat_shares.go:926-945 | the bounded decoding is the fixed point of repeated decoding, if one is reached within the given number of changing passes |
| ShareQuery.DecodeComponent | web/chat_shares.go:926-945 | complete exactly when repeated decoding reaches a fixed point without failure within eight changing passes, and then returns it |
| ShareQuery.PublicExternalUrl | web/chat_shares.go:783-820 | terminates for any parsers; a URL passes exactly when it parses as a web URL with a host, no credentials, no protected route, no local or private address, and a query that parses; it keeps its cleaned query |
| ShareQuery.SanitizeQuery | web/chat_shares.go:822-843 | deleting while ranging in any order leaves exactly the keys that are not sensitive and hold no sensitive value |
| ShareQuery.RemovesKey | web/chat_shares.go:830-840 | a key goes exactly when it is sensitive or one of its values is |
| ShareQuery.ContainsSensitiveData | web/chat_shares.go:873-903 | early returns and candidates in order compute the reference predicate, for any parsers |
| ShareQuery.QueryContainsSensitiveData | web/chat_shares.go:905-924 | true past the depth limit, for unparsable queries, and when some key would be removed, in whatever order keys come |
| ShareQuery.SanitizedIsClean | web/chat_shares.go:822-843 | a sanitized query passes the check for sensitive data at the same depth, and sanitizing it again changes nothing |
| ShareQuery.RemovalShows | web/chat_shares.go:812-887 | a URL that loses a key does not come back as it was, which is what the nested check looks at |
| ShareQuery.NestingHidesNothing | web/chat_shares.go:783-924 | whatever is hidden in nested URLs, refused URLs, relative links, bare parameters, fragments or unparsable queries, at any number of levels, is found, or the nesting is refused |
| ShareQuery.RelativeQueryIsFound | web/chat_shares.go:896-901 | a sensitive key in the query of a relative link, or in bare parameters, is found at every depth |
| ShareQuery.HiddenQueryIsFound | web/chat_shares.go:905-924 | the same for a raw query |
| ShareQuery.DeepNestingIsRefused | web/chat_shares.go:880-908 | four levels down no link is followed, and one further no query |
| ShareQuery.SensitiveKeyIff | web/chat_shares.go:845-862 | a key is sensitive exactly when its fixed point names a secret or there is none in time |
| ShareQuery.CleanedExactly | web/chat_shares.go:830-840 | a key is kept, with all its values, exactly when neither it nor any value is sensitive |
| ShareQuery.PlainTextIsKept | web/chat_shares.go:873-903 | a text without links, parameters or fragment is not sensitive |
| ShareQuery.HarmlessLinkIsKept | web/chat_shares.go:873-903 | nor is one whose links come back unchanged and whose own query is clean |
| DraftClusters.CollectEntries | internal/app/categorize_analyze_draft.go:23-35 | every token at or above the threshold is listed once, highest count first, then by token, whatever order the map yields |
| DraftClusters.Group | internal/app/categorize_analyze_draft.go:51-61 | the table holds for every key its tokens in listing order, and the order list every key once by first appearance |
| DraftClusters.KeyIsLetters | internal/app/categorize_analyze_draft.go:39-45 | the key is the lower-case token with exactly its spaces, hyphens and underscores removed |
| DraftClusters.SeparatorsDoNotCount | internal/app/categorize_analyze_draft.go:39-45 | spellings that differ by a separator anywhere have one key |
| DraftClusters.LettersIgnoreSeparators | internal/app/categorize_analyze_draft.go:41-43 | a separator adds nothing to a key, and a token without any is its own key |
| DraftClusters.WriteDraft | internal/app/categorize_analyze_draft.go:16-114 | what is printed is the reference draft of the listed tokens |
| DraftClusters.ListingIsUnique | internal/app/categorize_analyze_draft.go:23-35 | the listing is unique, so the draft does not depend on map order |
| DraftClusters.PrintClusters | internal/app/categorize_analyze_draft.go:73-83 | exactly the clusters with aliases are printed, in order of first appearance |
| DraftClusters.PrintFrequency | internal/app/categorize_analyze_draft.go:102-111 | exactly the entries alone under their key are listed, in listing order |
| DraftClusters.CanonicalIsMostFrequent | internal/app/categorize_analyze_draft.go:29-35 | a canonical form has the highest count of its cluster, the smallest token winning ties |
| DraftClusters.ClusterOrdered | internal/app/categorize_analyze_draft.go:80-82 | within a cluster the most frequent is printed first, equal counts by token |
| DraftClusters.ClustersOrdered | internal/app/categorize_analyze_draft.go:73-83 | the clusters are printed in the order of their canonical forms |
| DraftClusters.FrequencyOrdered | internal/app/categorize_analyze_draft.go:102-111 | the frequency list is printed in listing order with each token's own count |
| DraftClusters.ExactlyOneRole | internal/app/categorize_analyze_draft.go:73-111 | every token at or above the threshold is an alias, a canonical form with aliases or in the frequency list, in exactly one of these roles, and no other token is printed |
| DraftClusters.PrintedOnce | internal/app/categorize_analyze_draft.go:73-111 | and it is printed in that role once |
| DraftClusters.SameClusterIffSameKey | internal/app/categorize_analyze_draft.go:37-61 | two tokens share a printed cluster, or are the same, exactly when they agree in lower case but for separators |
| Sorting.SortedPermutationUnique | web/audit_runs.go:279-284 | under a total order there is one sorted permutation, so an unstable library sort can return no other |

## Left out

- Measurements.Percentile: the product of a floating-point fraction and the sample count is exact here, so rounding that moves a rank is not modelled.
- Measurements.Recall: the average over queries and its floating-point rounding are not modelled.
- AuditRateLimit.RetryAfterIsLeastWait: the rounding of Duration.Seconds before the ceiling is not modelled; the ceiling is taken exactly.
- DrainClose.NothingIsForgotten: handlers without lifecycle cleanup (web/server.go:206-208) and failures before the handler exists are not part of this model; neither is the value of the close error.
- SyncScheduler.OnePostPerActualRun: a post-run function is taken to be configured.
- AuditSchedulerRun.Run.Execute: the alert transition is one answer, which asks for delivery only when a webhook is configured.
- Launchd.RoundTrip: at the level of XML tokens; escaping is taken to be undone by decoding, so characters that XML cannot represent, which the encoder replaces, are not modelled.
- ShareQuery.NestingHidesNothing: needs that deleting keys from the query of an accepted URL changes the URL, a fact about net/url.
- ShareQuery.SanitizedIsClean: needs that parsing a query undoes encoding it, a fact about net/url.
- ShareQuery.PublicExternalUrl: the trimming of punctuation and joined links, the list of protected routes and the reading of addresses are the library's answers.
- ProgressReporter.Reporter.Report: writers that fail, and snapshot fields other than the stage beyond their equality, are not modelled.
- DraftClusters.WriteDraft: cluster values are kept in the table instead of pointers to them; comments and layout of the output are not modelled.
- Map iteration over the audit records works on a local copy of the map that is stored back at the end of the eviction.
- Merging and filtering of vocabulary suggestions (internal/app/categorize_vocab.go:191-223): sets and maps put together without further structure.
- Rewriting of bare links in shared text (linkBarePublicShareURLs): regular expressions.
- The stage gate of the screening run, corpus generation, graph indexes and heap measurements.
- Making a path absolute, for the launchd selector, is the library's answer.
- Panics, and log lines of the schedulers other than the states they follow.
- HTTP routes, commands, configuration, storage, notification transport, and the library behaviour of url, xml and html.
