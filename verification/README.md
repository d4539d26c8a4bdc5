# Verification of the CI monitoring scripts

This project models the stateful parts of `monitoring/scripts` and proves what their
comments and documentation promise about whole histories: no gap in what was listed, no run
accused without proof, one lookup per capture, nothing counted twice, one start to a
fixpoint. Every statement holds for all inputs, all answers of GitHub, Prometheus, Loki and
Kubernetes, and all sequences of steps, unless its contract says otherwise.

    dafny verify dfyconfig.toml

## How it is modelled

- SQLite tables are maps keyed by their primary key, or sequences where row order matters.
  Times are whole seconds; the exceptions are the bisection of the merge queue window
  (microseconds) and test durations (milliseconds).
- GitHub, Prometheus, Loki, Tempo, Kubernetes and the clocks are inputs. An answer, a refusal
  and an exception are told apart wherever the code does.
- What the scripts compute is a function. What they do step by step is a method over the
  fields they update, proved equal to a function of the state before; the promises are then
  lemmas about that function over any number of steps.
- The document cache is also a state machine: one step per locked section, any schedule,
  timeouts and raising builds included.

| file | what it holds |
|---|---|
| `PassLog`, `Backfill`, `BackfillRunner` | the pull-request backfill: planning, listing, storing, pruning |
| `MergeQueueFetch`, `QueueAttempts` | the bisected listing of merge queue runs, and the attempts built from it |
| `CaptureRegistry`, `RegistryPoll`, `Verdict`, `Accusations` | the capture registry, its poll, the verdict on a run, and exactly when it accuses one whose capture was found |
| `DocumentCache`, `SingleFlight`, `SingleFlightProgress`, `SingleFlightOutcome`, `TraceClasses` | the capture document: cache, single flight, what a request gets, span classes, workers |
| `JobHistory`, `ActiveRuns`, `ExporterCycle` | the job history: upsert guard, polling cycle, catch-up |
| `ZombieRuns`, `Strings`, `FailedSteps`, `Migrations` | zombie detection, the failed-step text, the startup migrations |
| `CandidateRuns`, `JUnitOutcomes`, `RollupInput`, `TestRollup`, `RollupRows`, `RollupHistory`, `RollupLosses`, `Percentiles` | the per-test rollup and both percentile rules |
| `ImageIds` | the image ids of a capture |
| `Common`, `Sequences` | shared vocabulary |

## What the code does not keep

Each of these is a proved counterexample, next to the condition under which the promise holds.

- The comment on the catch-up gate says a skipped catch-up is retried in the next cycle
  (`monitoring/scripts/workflow-exporter.py:3234-3235`). The partial list has replaced the
  active list by then, so a run it misses is forgotten: `ActiveRuns.IncompleteFetchForgets`,
  with the exact losses in `ActiveRuns.LostExactlyWhen`.
- A failed job-details fetch logs "will retry next pass". On the catch-up path there is no
  next pass: `ActiveRuns.FailedDetailsAreNotRetried`. The next cycle stores the run exactly when
  the completed list of a counted repository still holds it and its details then answer:
  `ActiveRuns.RetriedExactlyWhen`.
- A run pruned by retention and listed again is counted again: `ActiveRuns.PrunedRunIsCountedAgain`;
  exactly when is `JobHistory.CountsTwiceExactlyWhen`.
- A suite that raises leaves the run's row stored and the run uncounted, also when it is found
  again: `JobHistory.RaisedAttemptIsNeverCounted`.
- Failed-step names that are free of both separators do not always survive the text column: a
  job name that ends with a semicolon, or with the arrow, is cut in the wrong place.
  `FailedSteps.TrailingSemicolonHidesTheTest`; the exact conditions are
  `FailedSteps.EntryRoundTrip`, `FailedSteps.ColumnRoundTrip` and `FailedSteps.DisplayIsFree`, and
  for the failure reason, over any names, `FailedSteps.LiveReasonSurvivesExactlyWhen`.
- The registry records the answers of a poll before it stores the captures they list, and a
  request reads captures and sources one after the other. So it reads "not collected" for a run
  whose capture was just found, in the middle of a poll and also when the poll runs between its
  two reads: `Accusations.AccusedBesideThePoll`. For reads at any two moments, polls apart and in
  either order, `Accusations.ListedRunIsAccusedExactlyWhen`: a listed run is accused only when
  the captures are read before the poll that listed it has stored them, and then exactly when no
  earlier capture of it is stored and all sources vouch for its absence.
- "The cards and the table can never disagree about a run"
  (`monitoring/scripts/ci_observe_runs.py:267-268`): they read the captures at different moments,
  and disagree exactly as in `Accusations.CardsDisagreeExactlyWhen`.
- An exact run lookup has no window, so a run whose capture retention removed is accused:
  `Verdict.PrunedCaptureIsAccusedByExactLookup`, exactly as in
  `Accusations.ExactLookupKeepsItsPromiseExactlyWhen`. A `ci_run_id` label that disagrees with the
  capture id takes the capture from its run: `Verdict.RelabelledCaptureAccusesItsRun`, exactly
  as in `CaptureRegistry.UpsertKeepsRunExactlyWhen`.
- "Ordering the stored rows never decides which source SHA a run is rolled up under" is true
  exactly when the rows that can decide carry the same SHA
  (`CandidateRuns.OrderNeverDecidesExactlyWhen`): the run's own row when it has one
  (`CandidateRuns.OwnRowDecides`), else other rows with the run's URL, unless an own row without
  a SHA stands in their way, else its e2e rows, else all its rows. Two suite rows with different
  SHAs break it: `CandidateRuns.OrderDecidesWithoutOwnRow`.
- An image id that is literally "unknown" is accepted, so a capture can be complete and hold an
  unknown entry (`ImageIds.CompleteWithUnknown`): exactly when some observed pod reports it
  (`ImageIds.UnknownEntryExactlyWhen`, `ImageIds.NoUnknownExactlyWhen`).
- The module documentation of `ci_observe_capture_view.py` gives ten seconds for the short
  cache time (line 26); the constant is 30 seconds (line 253), and the model uses the constant.
- "Never replace a stored day with a thinner pass" (`monitoring/scripts/ci_observe_trends.py:892`)
  holds of runs, not of their tests: a run whose artifacts have partly expired replaces its own
  outcomes by fewer (`RollupLosses.ThinnerPassReplacesTheDay`); exactly when a retained day loses
  a test is `RollupLosses.RetainedTestsOnlyGrowExactlyWhen`.
- The second replacement guard of the rollup never decides for days this version wrote:
  `RollupHistory.CountGuardNeverDecides`.

## Model

| member | source | states |
|---|---|---|
| PassLog.PlanMeaning | monitoring/scripts/ci_observe_prs.py:826-846 | an automatic pass is incremental exactly when a complete full pass ran within the last day, an incremental pass lists again exactly the last two hours of coverage inside retention, and nothing older than retention is listed |
| PassLog.CoverageIsLatest | monitoring/scripts/ci_observe_prs.py:858-870 | the end of coverage is the latest moment a complete pass ran, and there is none exactly when no pass was complete |
| PassLog.PruneKeepsOrForgetsCoverage | monitoring/scripts/ci_observe_prs.py:897-906 | pruning the pass log never moves coverage: it keeps it or forgets it whole, and exactly when it keeps it |
| PassLog.PrunedLogIsBounded | monitoring/scripts/ci_observe_prs.py:897-906 | the pruned log holds at most 2000 rows, none older than the cutoff, and all recent ones while they are that few |
| Backfill.ListingComplete | monitoring/scripts/ci_observe_prs.py:918-938 | stopping at the first page that is wholly too old loses no pull request updated since the floor, and returns none outside retention |
| Backfill.VisitRepoCounts | monitoring/scripts/ci_observe_prs.py:736-792 | every pull request a repository lists is counted once, as stored, skipped or failed, unless the pass stopped there, and then it is not complete |
| Backfill.LimitIsKept | monitoring/scripts/ci_observe_prs.py:759-793 | a pass stores at most its limit over all repositories, and one with a limit of zero |
| Backfill.OkPassStoredItsWindow | monitoring/scripts/ci_observe_prs.py:685-822 | after a pass recorded as ok every pull request that ended in its window is stored |
| Backfill.PassModeExactlyWhen | monitoring/scripts/ci_observe_prs.py:706-711 | exactly when a pass runs full: asked for, forced, no complete full one within a day, or nothing complete on record |
| Backfill.StoppedEarlyExactlyWhenIncomplete | monitoring/scripts/ci_observe_prs.py:736-810 | a pass gives a reason for stopping early exactly when its listing is not complete, and is ok exactly when it is complete and nothing failed |
| Backfill.PassRemovesExactlyWhen | monitoring/scripts/ci_observe_prs.py:1276-1289 | what a pass stored is there, ended inside retention; any other row is gone exactly when a full pass got to its repository, the listing answered and it ended before retention, and is unchanged otherwise |
| Backfill.StoredIsSkipped | monitoring/scripts/ci_observe_prs.py:694-697 | without force a pass neither fetches a stored pull request again nor changes one that is inside retention |
| Backfill.FullPassLeavesNothingOld | monitoring/scripts/ci_observe_prs.py:780-781 | after a complete full pass no listed repository holds a row that ended before retention |
| Backfill.PassCoverage | monitoring/scripts/ci_observe_prs.py:826-906 | one pass, of any kind and with any failure, moves the end of coverage forward, keeps it or forgets it, and moves it only when its listing was complete |
| Backfill.NoGap | monitoring/scripts/ci_observe_prs.py:826-895 | after any passes the windows of the complete ones cover the whole retention span behind the end of coverage |
| Backfill.CoverageNeverMovesBack | monitoring/scripts/ci_observe_prs.py:858-906 | over any passes on a clock that is not set back, coverage is never earlier than it was after any of them, forgotten in between or not |
| Backfill.CoveredPullRequestsAreAccountedFor | monitoring/scripts/ci_observe_prs.py:685-846 | a pull request that ended in the covered span and was never outside retention is stored, or a complete pass listed it and counted it as failed |
| BackfillRunner.FetchClosedPrs | monitoring/scripts/ci_observe_prs.py:918-938 | the page loop returns what the specification of the listing says, failure included |
| BackfillRunner.CIObservePRs.BackfillPass | monitoring/scripts/ci_observe_prs.py:685-822 | one pass over the tables, loops and early exits included, is the step the history lemmas are about |
| MergeQueueFetch.UniqueRunsKeepsEveryId | monitoring/scripts/ci_observe_prs.py:406-412 | de-duplication keeps one run per id and loses no id |
| MergeQueueFetch.ListableComplete | monitoring/scripts/ci_observe_prs.py:956-996 | one listing is complete exactly when the API's cap did not cut it |
| MergeQueueFetch.HalvesGlue | monitoring/scripts/ci_observe_prs.py:983-987 | two halves that share their midpoint lose and duplicate nothing |
| MergeQueueFetch.HalfWindowIsNearest | monitoring/scripts/ci_observe_prs.py:983-987 | a window is split at the microsecond nearest to its middle, the even one of two |
| MergeQueueFetch.FetchRange | monitoring/scripts/ci_observe_prs.py:956-996 | the bisection terminates with a failure some request caused, or with exactly the runs an unlimited query would return, provided windows of one hour fit the cap; a window of one hour is complete exactly when it fits |
| MergeQueueFetch.CompleteExactlyWhen | monitoring/scripts/ci_observe_prs.py:956-996 | at any width the result is complete exactly when some listed window lists every run uncut: if every listed window fits the cap, and only then when no run was created in a second in which two halves meet |
| QueueAttempts.EntryConclusionMeaning | monitoring/scripts/ci_observe_prs.py:466-478 | a queue entry succeeded exactly when every workflow passed or stepped aside, and failed exactly when one failed or was cancelled |
| QueueAttempts.EntryConclusionIsTheMostTelling | monitoring/scripts/ci_observe_prs.py:466-478 | which of the five conclusions an entry without success gets: one some run has and no run outranks |
| QueueAttempts.GroupRuns | monitoring/scripts/ci_observe_prs.py:1128-1135 | the dictionary loop groups the runs by branch and commit in order of first appearance |
| QueueAttempts.AttemptsPartitionRuns | monitoring/scripts/ci_observe_prs.py:1100-1145 | every run of the pull request is in exactly one attempt, and attempts hold no other run |
| QueueAttempts.SameAttemptExactlyWhen | monitoring/scripts/ci_observe_prs.py:1128-1135 | two runs of the pull request are in one attempt exactly when they share branch and commit, both known, or are the same run |
| QueueAttempts.EveryAttemptIsWritten | monitoring/scripts/ci_observe_prs.py:1243-1274 | primary run ids differ, so the keyed replace loses no attempt |
| QueueAttempts.EjectionRule | monitoring/scripts/ci_observe_prs.py:1147-1200 | all attempts but the last are ejected, the last exactly when one of its workflows failed or was cancelled |
| QueueAttempts.AttemptsAreChronological | monitoring/scripts/ci_observe_prs.py:1126-1145 | attempts are in order of their first runs, each led by its earliest run |
| QueueAttempts.ArrivalOrderIrrelevant | monitoring/scripts/ci_observe_prs.py:1100-1145 | with distinct creation times the attempts do not depend on the order GitHub returned the runs in |
| CaptureRegistry.StepsKeepCoverageIffAnswered | monitoring/scripts/workflow-exporter.py:522-564 | in every reachable state a source has a coverage start exactly when it has answered |
| CaptureRegistry.CoverageFrozenAnswersForward | monitoring/scripts/workflow-exporter.py:522-549 | a coverage start never moves once written, a last answer never moves back |
| CaptureRegistry.CoverageIsSetByTheFirstAnswer | monitoring/scripts/workflow-exporter.py:528-549 | a source's coverage starts one day inside its retention at its first complete answer, whatever happens before and after |
| CaptureRegistry.FailingExactlyWhen | monitoring/scripts/workflow-exporter.py:522-564 | a source shows an error exactly when its last answer was one |
| CaptureRegistry.RowsGrowWhileTheyLive | monitoring/scripts/workflow-exporter.py:485-520 | while a row lives no known column becomes empty, "info" never reverts, the first sighting stays and the trace id is written once |
| CaptureRegistry.TraceIsTheFirstWritten | monitoring/scripts/ci_observe_capture_view.py:745-749 | while a row lives its trace id is the first one written for it |
| CaptureRegistry.CaptureStaysOrExpires | monitoring/scripts/workflow-exporter.py:485-569 | a capture stays under its run through any polls, prunes and trace writes inside retention |
| CaptureRegistry.StoredExactlyWhenRetained | monitoring/scripts/workflow-exporter.py:485-569 | in every history a capture is stored exactly while no prune since its last sighting found that sighting older than retention |
| CaptureRegistry.UpsertKeepsRunExactlyWhen | monitoring/scripts/workflow-exporter.py:485-507 | an upsert keeps a capture's run exactly when it names the same run or none |
| RegistryPoll.Registry.Refresh | monitoring/scripts/workflow-exporter.py:325-361 | one poll of three sources is its five steps, with the merged answers upserted once each |
| Verdict.NotCollectedExactlyWhen | monitoring/scripts/ci_observe_runs.py:321-359 | whichever two moments between the poller's statements a request reads captures and sources at, "not collected" is said exactly when no capture is joined, the run ended 15 minutes ago or earlier, and every source answered after its finish, at most 900 s ago, with coverage reaching back to its creation |
| Verdict.NotCollectedNeedsRetainedTelemetry | monitoring/scripts/ci_observe_runs.py:346-359 | a run is accused only if by the time the sources are read every source had answered completely while all the run could have sent was inside its retention |
| Verdict.NotCollectedNeedsHealthyRegistry | monitoring/scripts/workflow-exporter.py:586-647 | it is never said while the registry calls itself partial or unknown |
| Verdict.RegistryStateExactlyWhen | monitoring/scripts/workflow-exporter.py:619-630 | after any statements the registry is ok exactly when all three sources answered completely within 900 s, unknown exactly when none ever did, and partial otherwise |
| Verdict.ReasonIsTheFirstGap | monitoring/scripts/ci_observe_runs.py:330-358 | a run reads "unknown" with a reason exactly when no capture is joined and that reason is the first, in the order of the checks, that its times and the sources' answers leave open |
| Verdict.PairingIsNeeded | monitoring/scripts/ci_observe_runs.py:338-348 | for any three source rows, paired or not, the checks can accuse some run exactly when all have a coverage start and one has answered; only the pairing makes that three answers |
| Verdict.CapturedRunStaysCaptured | monitoring/scripts/ci_observe_runs.py:330-331 | a run with a stored capture reads "capture" in every window query of at most 30 days, whatever happens after and whatever the sources say |
| Accusations.ListedRunIsAccusedExactlyWhen | monitoring/scripts/ci_observe_runs.py:167-172 | for captures and sources read at any two moments of any polls, exactly when a run is accused that a source's last complete answer lists: the captures were read before the upsert of that answer's poll, none was stored under the run by then, and all sources vouch for its absence |
| Accusations.AccusedBesideThePoll | monitoring/scripts/workflow-exporter.py:346-360 | such a run exists for a request inside the poll and for one whose reads the poll separates |
| Accusations.CardsDisagreeExactlyWhen | monitoring/scripts/ci_observe_runs.py:172-178 | the verdict in the table and the one in the cards differ exactly when one of their two capture reads, and not the other, finds a capture of the run upserted and retained |
| Accusations.PruneKeepsCapturedExactlyWhen | monitoring/scripts/workflow-exporter.py:566-569 | after a prune a run reads "capture" exactly when one of its captures was seen within retention |
| Accusations.CapturedExactlyWhen | monitoring/scripts/workflow-exporter.py:485-569 | after any history an exact lookup reads "capture" exactly when some capture of the run was upserted and no prune since found that sighting older than retention |
| Accusations.ExactLookupKeepsItsPromiseExactlyWhen | monitoring/scripts/workflow-exporter.py:566-569 | it keeps reading it through every later step exactly when every later prune spares some capture of the run |
| Verdict.RelabelledCaptureAccusesItsRun | monitoring/scripts/workflow-exporter.py:485-507 | a disagreeing run label accuses the run inside the window |
| Verdict.VerdictCounts | monitoring/scripts/ci_observe_runs.py:260-281 | the three counters are the numbers of rows with each verdict and add up to all rows |
| DocumentCache.ServedDocumentsAreRecent | monitoring/scripts/ci_observe_capture_view.py:323-368 | after any reads, stores and evictions a reader is served the last document stored for its capture: an answer expected to clear for less than 30 seconds, a trace without its session span for less than a minute, anything for less than ten |
| DocumentCache.EvictKeepsLongestSuffix | monitoring/scripts/ci_observe_capture_view.py:365-368 | the survivors of an eviction are the longest suffix of the recency order that fits the cap, or the newest entry alone |
| DocumentCache.TouchKeepsSound | monitoring/scripts/ci_observe_capture_view.py:325-331 | a read keeps the cache bounded and keyed, moves a fresh hit to the end and drops exactly its own expired entry |
| DocumentCache.StoreKeepsSound | monitoring/scripts/ci_observe_capture_view.py:354-368 | a store keeps the cache bounded and never evicts what it stored |
| DocumentCache.Cache.Store | monitoring/scripts/ci_observe_capture_view.py:362-368 | the eviction loop with its running total computes that cache |
| SingleFlight.OneLeaderPerCapture | monitoring/scripts/ci_observe_capture_view.py:332-338 | under any schedule at most one thread builds a capture's document, and an in-flight entry exists exactly while it lives |
| SingleFlight.NoLostWakeUp | monitoring/scripts/ci_observe_capture_view.py:339-351 | the event a waiter holds is set, or a live thread working on the same capture will set it, also when the build raises |
| SingleFlight.ReadersGetTheirOwnDocument | monitoring/scripts/ci_observe_capture_view.py:323-352 | a document handed to a reader was built for the capture it asked for |
| SingleFlightOutcome.RaisesExactlyWhen | monitoring/scripts/ci_observe_capture_view.py:339-352 | under any schedule a finished request raised exactly when its own build or its own store did |
| SingleFlightOutcome.LeaderReturnsItsDocument | monitoring/scripts/ci_observe_capture_view.py:340-352 | a request that built and stored a document can only end by returning that document |
| SingleFlightOutcome.OthersAreServedFromTheCache | monitoring/scripts/ci_observe_capture_view.py:325-331 | a request that built nothing returns what a look of its own found fresh under its key |
| SingleFlight.NeverStuck | monitoring/scripts/ci_observe_capture_view.py:339-351 | while a request is unfinished some thread can take a step of its own without any timeout |
| SingleFlightProgress.EverySchedule | monitoring/scripts/ci_observe_capture_view.py:323-352 | without new requests no schedule of the threads' own steps without timeouts is longer than n(2n + 7) for n requests |
| SingleFlightProgress.EndsWithAllFinished | monitoring/scripts/ci_observe_capture_view.py:323-352 | and when such a schedule can go no further every request has returned or raised |
| SingleFlight.BuildsOnlyWhenNeeded | monitoring/scripts/ci_observe_capture_view.py:325-336 | a reader becomes a builder exactly when nothing fresh is cached and nobody leads |
| SingleFlight.StoredBeforeWoken | monitoring/scripts/ci_observe_capture_view.py:342-351 | from the leader's store until expiry or another store every reader of the capture gets that document and starts no second build |
| TraceClasses.UnclassifiedAndWaits | monitoring/scripts/ci_observe_capture_view.py:1061-1070 | over the raw trace the unclassified rows are exactly the spans of unknown type and the untyped ones that do not poll, the wait rows exactly the waits and the untyped polls |
| TraceClasses.TestsAndPhases | monitoring/scripts/ci_observe_capture_view.py:928-931 | over the raw trace a test span is a row exactly when its name ends with no phase, and else only counted |
| TraceClasses.TypedRows | monitoring/scripts/ci_observe_capture_view.py:951-957 | fixtures, fixture uses and runs are exactly the spans of their type |
| TraceClasses.EntriesCarrySpans | monitoring/scripts/ci_observe_capture_view.py:1031-1059 | the entries are the readable spans in the trace's order, with what those carry |
| TraceClasses.BucketsConserveSpans | monitoring/scripts/ci_observe_capture_view.py:916-1003 | every span is in exactly one bucket |
| TraceClasses.Classify | monitoring/scripts/ci_observe_capture_view.py:916-1003 | rows, phases and sessions add up to the classified spans, and classified plus unclassified is the total exactly when every span was readable |
| TraceClasses.ResolveWorkers | monitoring/scripts/ci_observe_capture_view.py:1072-1093 | the in-place pass gives each span the worker of its nearest ancestor within 32 hops, its own first, whatever was resolved before, on cyclic parents too |
| TraceClasses.NearestWorkerUnique | monitoring/scripts/ci_observe_capture_view.py:1072-1093 | that worker is unique |
| TraceClasses.OwnWorkerExactly | monitoring/scripts/ci_observe_capture_view.py:1072-1093 | a span names its worker by its attribute, and by its name only without one |
| TraceClasses.ResolvesExactlyWhen | monitoring/scripts/ci_observe_capture_view.py:1072-1093 | a parent id resolves exactly to the last span that carries it |
| TraceClasses.BoundIsEnoughForSmallTraces | monitoring/scripts/ci_observe_capture_view.py:1080-1092 | in a trace of at most 32 spans the bound loses no worker |
| JobHistory.StoredIsFirstOfHighest | monitoring/scripts/workflow-exporter.py:1802-1835 | whatever the order of arrival, a stored row is the first record of the highest attempt seen for its id |
| JobHistory.HighestIsStored | monitoring/scripts/workflow-exporter.py:1802-1835 | and that record is always stored |
| JobHistory.ReplayOfOneRun | monitoring/scripts/workflow-exporter.py:1802-1896 | for each id in any history the table is the upsert of the rows offered since retention last removed it |
| JobHistory.AcceptedExactlyWhen | monitoring/scripts/workflow-exporter.py:2756-2768 | a record is accepted exactly when it beats every earlier record of its id since retention last removed the id |
| JobHistory.CounterCountsAccepted | monitoring/scripts/workflow-exporter.py:3057-3074 | the counter equals the number of accepted records whose processing came through to it |
| JobHistory.EachAttemptCountsOnce | monitoring/scripts/workflow-exporter.py:3057-3074 | for a run that retention never removes two accepted records never share an attempt, whatever happens to the others |
| JobHistory.AcceptedAgainExactlyWhen | monitoring/scripts/workflow-exporter.py:1802-1896 | an attempt is accepted again exactly when the run was pruned in between and not outbid since |
| JobHistory.CountsTwiceExactlyWhen | monitoring/scripts/workflow-exporter.py:1885-1896 | so it counts twice exactly when it is forgotten in between and its processing does not raise |
| JobHistory.RaisedAttemptIsNeverCounted | monitoring/scripts/workflow-exporter.py:3057-3074 | an attempt whose processing raised after its row was stored is never counted while the run is not pruned |
| ActiveRuns.PolledExactly | monitoring/scripts/workflow-exporter.py:3127-3147 | exactly which entries a cycle lists and when its fetches count as complete |
| ActiveRuns.HandedExactlyWhen | monitoring/scripts/workflow-exporter.py:3236-3278 | a cycle hands over exactly the tracked runs that its complete fetches no longer list and whose lookups report them completed |
| ActiveRuns.LostExactlyWhen | monitoring/scripts/workflow-exporter.py:3236-3278 | exactly which tracked runs, re-runs included, one cycle drops without handing them over in it; a count that wrongly reads 0 or raises is not a cause |
| ActiveRuns.NothingIsLost | monitoring/scripts/workflow-exporter.py:3094-3278 | over any series of complete cycles with answering lookups a run tracked at any moment, after earlier hand-overs too, is still tracked or was handed over as completed since that moment |
| ActiveRuns.TrackedRunsReachTheTable | monitoring/scripts/workflow-exporter.py:3007-3278 | with answering job details it is still tracked, or was handed over since and its history row has reached the attempt handed over |
| ActiveRuns.OnlyCompletedRunsAreStored | monitoring/scripts/workflow-exporter.py:3247-3271 | no history row is written for a run that is not completed, whatever fails |
| ActiveRuns.TableIsTheReplayOfItsHistory | monitoring/scripts/workflow-exporter.py:3007-3278 | over any cycles, pruning and raising ones included, and however the two discovery paths interleave, table and counter are the replay JobHistory is about, and the counter is the number of counted records |
| ActiveRuns.UnprunedRunIsTheFoldOfItsRows | monitoring/scripts/workflow-exporter.py:1802-1845 | for a run that no cycle prunes the table is the upsert of all rows ever offered, whatever is pruned of the others |
| ActiveRuns.CountedAtMostOnce | monitoring/scripts/workflow-exporter.py:3057-3074 | over any cycles a run that none prunes is counted at most once for each attempt |
| ActiveRuns.AcceptedRunCounts | monitoring/scripts/workflow-exporter.py:3060-3074 | an accepted run adds one for each of its new suites up to the one that raises, and one for itself unless it raises |
| ActiveRuns.ProcessingTwiceIsOnce | monitoring/scripts/workflow-exporter.py:3013-3017 | processing the same run object twice changes nothing more, neither table nor counter |
| ActiveRuns.ProcessedIsStoredExactlyWhen | monitoring/scripts/workflow-exporter.py:3007-3059 | processing stores an attempt exactly when it already was, or the run object shows it or a later one, its event counts and its job details answer |
| ActiveRuns.AcceptedRunStoresItsSuites | monitoring/scripts/workflow-exporter.py:3060-3070 | each suite of an accepted run, up to one that raises, has a row of its own at least at the run's attempt |
| ActiveRuns.IncompleteFetchForgets | monitoring/scripts/workflow-exporter.py:3224-3278 | a run missed by an incomplete fetch is forgotten, however good later cycles are |
| ActiveRuns.FailedDetailsAreNotRetried | monitoring/scripts/workflow-exporter.py:3031-3037 | on the catch-up path a failed details fetch loses the run |
| ActiveRuns.RetriedExactlyWhen | monitoring/scripts/workflow-exporter.py:3031-3037 | an attempt neither tracked nor stored is stored by the next cycle exactly when some counted repository's completed list shows it or a later one with an event that counts and details that answer |
| ExporterCycle.WorkflowExporter.ProcessCompletedRun | monitoring/scripts/workflow-exporter.py:3007-3092 | processing one run, suites and a raise among them included, is the specified step on table and counter |
| ExporterCycle.WorkflowExporter.Collect | monitoring/scripts/workflow-exporter.py:3094-3278 | one polling cycle over the fields is the cycle the lemmas are about |
| ZombieRuns.CachesStaySound | monitoring/scripts/workflow-exporter.py:2505-2551 | over any polls, failures and clock readings the two caches are disjoint, hold at most 5001 entries and say only what the last answer of each attempt said |
| ZombieRuns.ZombieNeedsAnEmptyAnswer | monitoring/scripts/workflow-exporter.py:2505-2551 | a reported zombie's last answered fetch, for that very attempt, was empty and after the grace period |
| ZombieRuns.ZombieExactlyWhen | monitoring/scripts/workflow-exporter.py:2505-2551 | until 5000 attempts were polled a run is reported exactly when its last answered fetch was empty and that answer is still fresh or the run is past the grace period |
| ZombieRuns.RecheckWaits | monitoring/scripts/workflow-exporter.py:2525-2540 | a cached zombie is not fetched again before its recheck time |
| ZombieRuns.SmallHistoriesAreExact | monitoring/scripts/workflow-exporter.py:2541-2551 | until 5000 attempts were polled the caches are exactly the attempts whose last answer was empty, and was not |
| ZombieRuns.FetchesAreRationed | monitoring/scripts/workflow-exporter.py:2505-2540 | then a call happens exactly for a run past the grace period that was not seen with jobs, and for a known zombie only after its recheck interval |
| ZombieRuns.ZombieDetector.IsZombieRun | monitoring/scripts/workflow-exporter.py:2519-2551 | the method over the two cache fields is that step |
| Strings.SplitJoin | monitoring/scripts/workflow-exporter.py:1566-1576 | joining and splitting gives the pieces back exactly when no piece holds the separator, for a separator that does not overlap itself |
| FailedSteps.ExtractFailedSteps | monitoring/scripts/workflow-exporter.py:2690-2707 | the nested loops collect the specified steps |
| FailedSteps.ExtractedExactly | monitoring/scripts/workflow-exporter.py:2690-2707 | those are exactly the failing steps of failing jobs that are not plumbing |
| FailedSteps.ClassifyFailureReason | monitoring/scripts/workflow-exporter.py:1185-1241 | the loops with their early returns give the specified reason |
| FailedSteps.LiveReasonExactly | monitoring/scripts/workflow-exporter.py:1185-1241 | the live e2e reason, job by job: gate exactly when some job failed and no real one did, test exactly when a test step failed in a real one, infra otherwise |
| FailedSteps.OtherReasonsExactly | monitoring/scripts/workflow-exporter.py:1185-1241 | an "ai" run is classified by what became of its diagnosis step, any other category not at all |
| FailedSteps.EntryRoundTrip | monitoring/scripts/workflow-exporter.py:1567-1574 | a printed entry gives back its job and step names exactly when they are clean |
| FailedSteps.ColumnRoundTrip | monitoring/scripts/workflow-exporter.py:1566-1566 | the column holds exactly the printed entries exactly when none holds the semicolon separator |
| FailedSteps.DisplayIsFree | monitoring/scripts/workflow-exporter.py:2703-2706 | what that means for the job and step names themselves |
| FailedSteps.LiveReasonSurvives | monitoring/scripts/workflow-exporter.py:1516-1580 | for names that print cleanly the reason derived from the stored text is the live reason, the gate case with its empty text included |
| FailedSteps.LiveReasonSurvivesExactlyWhen | monitoring/scripts/workflow-exporter.py:1516-1580 | for any names it is exactly when nothing was stored, or the pieces the cuts leave are not all named like gates and show a test step exactly if the failed steps did |
| FailedSteps.PiecesOfFreeNames | monitoring/scripts/workflow-exporter.py:1566-1566 | what those pieces are for names free of the semicolon separator: the whole entry, or the job name without its last semicolon and the rest |
| FailedSteps.TrailingSemicolonHidesTheTest | monitoring/scripts/workflow-exporter.py:1566-1575 | any job name that ends with a semicolon hides its failed test step |
| Migrations.CleanedTwice | monitoring/scripts/workflow-exporter.py:1648-1676 | cleaning a cleaned runner list changes nothing |
| Migrations.CleanedExactly | monitoring/scripts/workflow-exporter.py:1648-1676 | cleaning removes exactly the hosted runners and empty names |
| Migrations.OnePassIsEnough | monitoring/scripts/workflow-exporter.py:1488-1726 | after one pass no migration finds anything to change in a row, for any naming rules |
| Migrations.SettledMeaning | monitoring/scripts/workflow-exporter.py:1488-1726 | what such a row looks like: category by name, pipeline runs filed under automation, reasons that fit the category, own runners only |
| Migrations.StartOfRow | monitoring/scripts/workflow-exporter.py:1488-1726 | what one start makes of a row, column by column |
| Migrations.ReasonAfterStart | monitoring/scripts/workflow-exporter.py:1516-1646 | which reason one start leaves: none on a flow row it moves, by the stored steps on an "ai" row, by the text on another failure, the old one otherwise |
| Migrations.StartupTwice | monitoring/scripts/workflow-exporter.py:1461-1466 | starting twice gives the table that starting once gives |
| Migrations.FreshFailureIsLeftAlone | monitoring/scripts/workflow-exporter.py:1516-1676 | a freshly stored e2e failure with clean names is left unchanged by a start |
| Migrations.JobsTable.RunMigrations | monitoring/scripts/workflow-exporter.py:1461-1726 | the row loops in the source's order compute that table |
| CandidateRuns.EmptyShaNeverWins | monitoring/scripts/ci_observe_trends.py:209-306 | a run is rolled up without a SHA exactly when none of its rows has one |
| CandidateRuns.OwnRowDecides | monitoring/scripts/ci_observe_trends.py:209-220 | the run's own row decides when it has a SHA, in any order of the rows |
| CandidateRuns.OrderNeverDecidesExactlyWhen | monitoring/scripts/ci_observe_trends.py:209-306 | the SHA is the same for every order of the rows exactly when the deciding rows carry the same one |
| CandidateRuns.FirstDecidingRowWins | monitoring/scripts/ci_observe_trends.py:244-304 | a deciding row that comes first gives the SHA |
| CandidateRuns.CreatedIsEarliest | monitoring/scripts/ci_observe_trends.py:275-277 | a run's day comes from the earliest creation time of its e2e rows |
| CandidateRuns.Candidates | monitoring/scripts/ci_observe_trends.py:223-306 | the two dictionary loops find exactly the runs with an e2e row, each with that SHA and time |
| JUnitOutcomes.OutcomeMeaning | monitoring/scripts/ci_observe_trends.py:309-368 | one outcome per test that ran; it passed exactly when no copy failed, with the longest known duration |
| JUnitOutcomes.ParseOutcomes | monitoring/scripts/ci_observe_trends.py:309-368 | the nested loops compute those outcomes in order of first appearance, and nothing when a file is unreadable |
| TestRollup.RollupRows | monitoring/scripts/ci_observe_trends.py:371-414 | the dictionary of groups is the aggregation of the raw rows, key by key |
| TestRollup.GroupMeaning | monitoring/scripts/ci_observe_trends.py:383-393 | runs, passes and durations count the rows of the key, and runs are passes plus failures |
| TestRollup.SumIsAdditive | monitoring/scripts/ci_observe_trends.py:424-434 | the sum behind the mean is the sum |
| TestRollup.RunsAreDistinct | monitoring/scripts/ci_observe_trends.py:371-381 | the runs of an aggregate are the distinct run ids that contain the test |
| TestRollup.AggregateIsTheAggregation | monitoring/scripts/ci_observe_trends.py:572-617 | after any passes and prunes each stored aggregate is the aggregation of the stored raw rows |
| RollupRows.StoredRowsAreTheWritersOutcomes | monitoring/scripts/ci_observe_trends.py:417-440 | after any passes a row is stored exactly when it is, column by column, the outcome of a test in a run of the pass that wrote its day |
| RollupRows.WriterIsTheLast | monitoring/scripts/ci_observe_trends.py:572-617 | that pass is the last one that wrote the day, unless the day was pruned since |
| RollupHistory.AggregatesCountRuns | monitoring/scripts/ci_observe_trends.py:371-434 | so its runs are its passes and failures and the number of stored runs with the test, and its percentiles are singled out among their durations |
| RollupHistory.CoverageNamesTheStoredRuns | monitoring/scripts/ci_observe_trends.py:604-609 | the coverage row of a day names exactly the runs stored for it |
| RollupHistory.RetainedDayOnlyGrows | monitoring/scripts/ci_observe_trends.py:889-932 | without force the runs stored for a retained day only grow |
| RollupHistory.CountGuardNeverDecides | monitoring/scripts/ci_observe_trends.py:908-914 | the guard on the number of runs never decides |
| RollupLosses.WritesExactlyWhen | monitoring/scripts/ci_observe_trends.py:889-914 | a pass writes a day exactly when it lists a run of it and is forced, has pruned it, or read every stored run of it again |
| RollupLosses.PassKeepsTestsExactlyWhen | monitoring/scripts/ci_observe_trends.py:889-932 | a pass keeps the stored tests of a retained day's runs exactly when it does not rewrite the day or shows all of them again |
| RollupLosses.RetainedTestsOnlyGrowExactlyWhen | monitoring/scripts/ci_observe_trends.py:889-932 | so over any passes they only grow exactly when no pass rewrites the day without one of them |
| RollupLosses.ThinnerPassReplacesTheDay | monitoring/scripts/ci_observe_trends.py:489-528 | a run read again with fewer of its tests replaces its stored outcomes |
| RollupHistory.TrendsDb.RollUp | monitoring/scripts/ci_observe_trends.py:861-932 | the per-day loop over the three tables is that pass |
| RollupInput.RunsOfPassAreProper | monitoring/scripts/ci_observe_trends.py:223-368 | whatever rows and files are read, a pass holds each run once and each test once in a run, which the rollup lemmas ask for |
| RollupInput.RollupOfAnyInputs | monitoring/scripts/ci_observe_trends.py:861-932 | so over any sequence of inputs every stored aggregate counts the distinct stored runs with its test, and every day names its stored runs |
| RollupInput.AggregatesCountTheFiles | monitoring/scripts/ci_observe_trends.py:223-434 | over any inputs a stored aggregate counts the runs of its day, label and SHA whose files show the test, and as passes those in which no testcase of it that ran is marked failed; it is stored exactly when there is one |
| RollupInput.ListAndFetch | monitoring/scripts/ci_observe_trends.py:861-885 | the loop over the candidates, oldest first, builds that pass |
| Percentiles.NearestRankExactly | monitoring/scripts/ci_observe_trends.py:163-176 | the nearest rank is the one value that the fraction singles out: enough values not above it, too few below it |
| Percentiles.NearestRankOfTheMultiset | monitoring/scripts/ci_observe_history.py:54-65 | it depends on the values only, not on their order |
| Percentiles.NearestRankMonotone | monitoring/scripts/ci_observe_trends.py:163-176 | a larger fraction never gives a smaller value |
| Percentiles.InterpolatedBetweenNeighbours | monitoring/scripts/ci_observe_prs.py:240-252 | the interpolated percentile lies between its two order statistics after rounding, at most half a second off, and its ends are the minimum and the maximum |
| Percentiles.InterpolatedExactly | monitoring/scripts/ci_observe_prs.py:240-252 | it stands exactly r hundredths of the way from the k-th value to the next, rounded to the nearest second and to the even one of two |
| Percentiles.InterpolatedMonotone | monitoring/scripts/workflow-exporter.py:2118-2135 | it never falls as p grows, across segments and after rounding |
| ImageIds.AllSeenOnResources | monitoring/scripts/ci_observe_capture.py:315-383 | the flag holds exactly when every running pod of a listed Deployment is readable and, for the last Deployment of each name and each of its containers, at least as many of its running pods as it has replicas, one at least, show it with a usable id |
| ImageIds.PlanIsTheLastDeployments | monitoring/scripts/ci_observe_capture.py:300-334 | what is expected is read from the last Deployment of each name |
| ImageIds.EntriesOnResources | monitoring/scripts/ci_observe_capture.py:342-383 | the entries are exactly what the running pods of listed Deployments tell, "unknown" for a container without a usable id, and an unknown one for each container too few pods showed |
| ImageIds.SafeAlphabet | monitoring/scripts/ci_observe_capture.py:418-426 | the characters that survive the rendering |
| ImageIds.RenderedValue | monitoring/scripts/ci_observe_capture.py:385-399 | the value is the joined entries if they fit in 4096 characters, and otherwise the longest prefix that fits with the marker, flagged incomplete |
| ImageIds.OsacImageIds | monitoring/scripts/ci_observe_capture.py:263-399 | "unknown" exactly when no usable Deployment is named; otherwise the walks give that value, "true" exactly when it is uncut and the cluster was wholly seen, and then without unknown entries exactly when no observed pod reports the word |
| ImageIds.CompleteWithUnknown | monitoring/scripts/ci_observe_capture.py:361-373 | a complete capture can hold an unknown entry |
| ImageIds.UnknownEntryExactlyWhen | monitoring/scripts/ci_observe_capture.py:361-383 | an unknown entry is in a complete report exactly when an observed pod reports the word "unknown" as the image id of a container with that entry |
| ImageIds.NoUnknownExactlyWhen | monitoring/scripts/ci_observe_capture.py:342-383 | so a complete report is free of unknown entries exactly when no observed pod reports that word |

## Left out

- Backfill.CoveredPullRequestsAreAccountedFor: assumes one listing is a snapshot (a pull request does not slip between two pages while they are read), that a pull request ends once, and one retention span for all passes, as the service runs them.
- MergeQueueFetch.FetchRange: assumes the runs do not change while one window is bisected.
- ActiveRuns.NothingIsLost: incomplete fetches and failed lookups are premises, because the code drops runs then.
- Verdict.NotCollectedExactlyWhen: an answer after the run's finish, not after the 15 minute grace, because that is what the checks ask for.
- Accusations.ListedRunIsAccusedExactlyWhen: polls follow one another on a clock that is not set back, every label names the run its capture id names, and a request ends within a month of starting; trace writes, which change no verdict, are not interleaved.
- Percentiles.NearestRankExactly: before the rounding to milliseconds; Percentiles uses exact fractions where the scripts use floating point, and both copies of each rule are the same code, so each is modelled once.
- TestRollup.RollupRows: the mean is kept as a sum and a count, without its rounding; a database written before run ids were recorded is not a start state.
- ImageIds.OsacImageIds: JSON decoding; a resource arrives with its fields parsed or marked odd.
- FailedSteps.LiveReasonSurvives: the gate test on job names is any predicate, so its lower-casing is not modelled; the same holds for the workflow categories and the run-name pattern in Migrations.
- HTTP, JSON, XML and ZIP decoding, regular expressions, ISO dates with fractions of a second, SQL syntax, locks around SQLite.
- Document shaping, notes, display strings, dashboards, Prometheus gauges and the by-category counts of the polling cycle.
- Other columns of the job rows (durations, runner, pull-request links), the pull-request timings, and the label of a rolled-up run with several workflows.
- Row limits and row sorting inside the trace tables; the lookups against Tempo.
- The one-off backfill of the job history (`_backfill_range`), which repeats the bisection without returning what it read.
- `ci-observe.py`, `ci_observe_verify.py`, `ci_observe_run_evidence.py`, `post-ci-digest.py`, `itenv`, `infra` and the kubectl and port-forward parts of `ci_observe_capture.py`: process and I/O orchestration.
- Liveness ("every run is eventually stored"): the code does not guarantee it under failed requests.
