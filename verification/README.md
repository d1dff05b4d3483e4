# Verified model of the review engine

This project models, in Dafny, the parts of the code-review system that carry an algorithm or a
protocol, and proves what they promise. `dafny verify dfyconfig.toml` checks everything.

## What is modelled

| file | part of the system |
|---|---|
| `Dags.dfy` (on `Graphs.dfy`, `Ordering.dfy`) | the workflow dependency graph: validation, Kahn levelling over in-degree tables, breadth-first dependents |
| `Runner.dfy`, `StepRecords.dfy` | the workflow executor: a small-step transition system of level opening, step start under a semaphore, plugin return and level close, in any interleaving; the class that performs those actions; a whole run; what its artifacts, blocked steps and status say about what each plugin did |
| `Cycles.dfy` | the import-cycle finder: a three-colour depth-first search with a path stack |
| `JobStore.dfy`, `JobQueue.dfy`, `JobTraces.dfy`, `JobHistories.dfy` | the review-job store with its publish outbox: what each operation does to the store, the class that updates its maps in place, and theorems over whole runs of operations by any number of workers at any clock readings, down to which call explains each field |
| `KnowledgeIndex.dfy`, `KnowledgeDatabase.dfy` (on `Tables.dfy`) | the incremental symbol/import/call index as tables with cascading deletes |
| `ReviewMemory.dfy` | the fold of completed reviews into open findings and historical fixes |
| `Clones.dfy` | clone detection by rolling-window hashes, an inverted index and pair counts |
| `WorkflowPatch.dfy`, `PatchHistories.dfy` | validation of a copilot patch: ordered simulation against list application, and which operation explains each node, edge and issue |
| `Digest.dfy` | the framed byte stream behind the file-set digest, UTF-8 included |
| `Ranks.dfy`, `Spearman.dfy` (on `Reals.dfy`) | tie-averaged ranks and Spearman's correlation |
| `Inheritance.dfy` | inheritance depth on class maps that may be cyclic |
| `Risk.dfy` | file and changeset risk under rule versions 3.0 and 3.1 |
| `Evidence.dfy` | evidence selection under a token budget |

Code that updates state in place is a class or a method with loops, proved equal to a specification
function or to the property itself; the theorems are lemmas about that specification.

## Conventions

- Identifiers that are only compared and sorted (step ids, module names, paths, job ids, function keys)
  are represented by their place in the source's sort order, `Id(rank)`. `Id(0)` is the empty path in the
  knowledge index, where the source uses the empty string for an unbound call.
- Clock readings are integers passed in by the caller, and may go backwards. The store compares ISO-8601
  strings of one fixed format, whose order is the order of the instants.
- Fresh ids (`randomUUID`) are parameters together with the assumption that they are unused.
- Plugins, the parser, the token hash, path normalization, white space, relevance scores and the square
  root are function parameters, so every theorem holds for all of them. A plugin's answer may depend on
  its upstream evidence but not on when it is called.
- A file's content stands for its SHA-256 in the index: two contents with one hash are identified.
- Ranks, correlation and risk use exact reals; `RoundHalfEven` is the rounding the source asks for.

## Findings about the source

- The call edges of an incrementally updated index can differ from those of a rebuild
  (`KnowledgeIndex.IncrementalCallsCanDiffer`): an unchanged file keeps an edge after a second file starts to
  define the callee, and unbound edges are deleted and never reconsidered. `FileCallsEqualRebuildIff` gives the exact condition.
- The review worker's guard (apps/api/src/jobs/worker.ts:99-104) does not exclude `publish_failed`. A run that throws after its
  publication has failed turns the job into `failed` over a failed item (`JobTraces.LateFailureUncouples`), and no later call
  repairs that. `AlwaysCoupled` shows it is the only way the callers can break the correspondence of job and outbox item.
- `markSucceeded`, `markFailed` and `updateStatus` themselves are not guarded by the outbox. Nothing calls `markSucceeded`, and
  only the cancel request calls `updateStatus`. `StepKeepsCouplingIff` says which writes are unsafe.
- A mark checks status, owner and generation but not the lease's expiry: a worker may still finish under an
  expired lease as long as nobody has taken it over (`JobTraces.LateMarkIsAccepted`).
- A plugin that reports itself skipped blocks its dependents but does not fail the run (`StepRecords.OwnSkipBlocksWithoutFailing`).
- A resolved finding is documented to become a historical fix, but fixes are keyed by reference and file: of several findings of one
  file resolved by one review only one is remembered (`ReviewMemory.TwoFixesShareOneKey`), while the `resolved` count still counts every
  row. `ReviewMemory.AllRememberedIff` gives the exact condition.
- Inheritance depth is documented as the longest chain to a root with no known bases. That is what the code returns for every class
  from which no cycle can be reached (`Inheritance.DepthIsLongestRootChain`), but not for two classes that name each other as base, where
  no root exists and the depth is 2 (`Inheritance.CyclicDepthReachesNoRoot`). The condition is sufficient only: where a cycle
  can be reached, a longest chain may still happen to end at a root. On all maps the depth is the longest chain without repetition.
- The medium band has no gate: one medium file beside a clean one is reported as low (`Risk.MediumIsDiluted`).
- The check that skips evidence which does not fit the remaining budget is never taken, since truncation always makes it fit.

## Model

| member | source | states |
|---|---|---|
| Dags.ValidateUnique | engine/workflow/dag.py:41-49 | succeeds iff no step id repeats; otherwise names exactly the repeated ids, sorted |
| Dags.ValidateReferences | engine/workflow/dag.py:51-57 | reports the first self-reference or unknown need in declaration order, and nothing iff every need is another declared step |
| Dags.ComputeLevels | engine/workflow/dag.py:59-86 | decrementing an in-degree table (duplicate needs counted) succeeds iff the graph is acyclic, and then yields its layering; on failure the reported ids are exactly the steps whose needs lead into a cycle |
| Dags.ReleaseLevel | engine/workflow/dag.py:74-80 | processing one level leaves for every step the number of its unsettled needs, and queues exactly those that dropped to zero |
| Dags.Build | engine/workflow/dag.py:33-38 | construction succeeds iff ids are unique, references good and the graph acyclic; otherwise the error of the first check that fails, naming exactly the repeated ids, the first bad reference, or the steps that lead into a cycle |
| Dags.LevelIsLongestChain | engine/workflow/dag.py:59-86 | a step is in level k iff its longest dependency chain has k edges |
| Dags.LevelsPartitionSteps | engine/workflow/dag.py:66-86 | the levels are sorted and contain every step exactly once |
| Dags.NeedsComeEarlier | engine/workflow/dag.py:29-30 | every need of a step lies in a strictly earlier level |
| Dags.NoScheduleHasFewerLevels | engine/workflow/dag.py:98-100 | any schedule that respects the needs runs each step no earlier than its level, and so uses at least as many slots |
| Dags.TransitiveDependents | engine/workflow/dag.py:105-116 | the sorted list of exactly the steps that reach the given one by at least one edge, or the unknown-step error |
| Runner.StepOptions | engine/workflow/runner.py:257-264 | whatever a step's options say, the execution profile is the run's own or else static_readonly |
| Runner.ReachableInvariant | engine/workflow/runner.py:130-150 | every state of every run keeps the executor's invariant: recorded artifacts are right, each step is recorded, blocked or in the open level, the semaphore is respected |
| Runner.FinishedRunIsOutcome | engine/workflow/runner.py:130-150 | a finished run satisfies the local recursion over direct needs, whatever the interleaving |
| Runner.SkippedIffFailedUpstream | engine/workflow/runner.py:130-150 | every step has exactly one artifact; it is the runner's skip iff some transitive dependency was executed, did not succeed and lacks continueOnError, and otherwise what executing it on its upstream evidence gives |
| Runner.OutcomesAgree | engine/workflow/runner.py:130-152 | the recursion has a single solution |
| Runner.RunsAreConfluent | engine/workflow/runner.py:85-174 | any two finished runs, under any interleavings and any two parallelism limits, end in the same artifacts and blocked set |
| Runner.RunsAreBoundedAndInformed | engine/workflow/runner.py:196-249 | at every point at most max_parallelism steps hold the semaphore, and each holder has the artifacts of all its needs, its evidence concatenated in needs order with repetitions |
| Runner.RunsNeverStall | engine/workflow/runner.py:130-150 | a run can always move until its last level has ended, and not after |
| Runner.RunsAreFinite | engine/workflow/runner.py:130-150 | every run has at most two actions per level and two per step |
| Runner.ReportsAgree | engine/workflow/runner.py:152-172 | status, ordered artifacts and listed failures are a function of the workflow: any two outcomes, under any two parallelism limits, are reported alike |
| StepRecords.OptionsPrecedence | engine/workflow/runner.py:260-264 | the options a plugin sees: the run's own win over the read-only profile, and that over the step's |
| StepRecords.ExecutedStepRecord | engine/workflow/runner.py:201-281 | in every outcome an executed step is failed with the resolver's message if it has no plugin, timed out or failed with the message if its plugin overran or raised, skipped with its reason and evidence if the plugin skipped itself, and otherwise succeeded with its evidence |
| StepRecords.BlockedStepRecord | engine/workflow/runner.py:176-187 | a blocked step is skipped with the dependency message and no evidence |
| StepRecords.UpstreamIsReportedEvidence | engine/workflow/runner.py:241-249 | a plugin is handed, need by need in needs order, exactly the evidence that the plugins of its needs reported |
| StepRecords.BlockedIffUpstreamStopped | engine/workflow/runner.py:145-150 | a step is blocked iff a transitive dependency without continueOnError had no plugin, overran, raised or skipped itself |
| StepRecords.RunFailsIffSomeStepBroke | engine/workflow/runner.py:152-162 | a run fails iff some executed step without continueOnError had no plugin, overran or raised, and lists exactly those steps, sorted |
| StepRecords.OwnSkipBlocksWithoutFailing | engine/workflow/runner.py:145-158 | a plugin's own skip blocks everything downstream and does not fail the run |
| Runner.RunState.Begin | engine/workflow/runner.py:131-138 | opening a level is exactly the modelled action: blocked steps get the skip artifact, the others wait |
| Runner.RunState.End | engine/workflow/runner.py:145-150 | closing a level records its artifacts and blocks exactly the dependents of non-succeeding steps without continueOnError |
| Runner.Run | engine/workflow/runner.py:110-174 | under arbitrary scheduling inside levels the run terminates in the one outcome |
| Runner.Summarize | engine/workflow/runner.py:152-172 | artifacts in declaration order; the run fails iff some failed or timed-out step lacks continueOnError, and lists those sorted |
| Runner.RunWorkflow | engine/workflow/runner.py:284-299 | errors exactly for a limit below one or a graph that fails its checks; the graph error is that of the first failing check with its exact payload; otherwise the result of the one outcome |
| Cycles.FindCycles | engine/workflow/builtins.py:203-227 | every reported tuple is a simple cycle, no two have the same set of modules, and every closed walk of the graph has an edge whose ends lie on one reported cycle |
| Cycles.CycleFinder.Visit | engine/workflow/builtins.py:209-222 | visiting a white module finishes everything it reaches through white modules, restores the path, and keeps colours, path, reported cycles and finishing order in agreement |
| Cycles.CycleFinder.CloseCycle | engine/workflow/builtins.py:215-220 | the path from the target on is appended as a cycle iff its module set is new; it is a simple cycle, and afterwards some reported cycle has both ends of the closing edge |
| Cycles.EmptyReportIffAcyclic | engine/workflow/builtins.py:203-227 | the report is empty iff the graph has no cycle |
| Cycles.EveryCyclicComponentIsReported | engine/workflow/builtins.py:203-227 | every strongly connected component with a cycle contains a reported cycle |
| Cycles.ClosedWalkIsCovered | engine/workflow/builtins.py:209-222 | for explored modules every closed walk has an edge on a reported cycle, because the finishing order cannot fall all the way round |
| JobQueue.InMemoryJobQueue.Enqueue | apps/api/src/jobQueue.ts:149-166 | adds one queued job; public_read and local_git jobs get a disabled publication policy |
| JobQueue.InMemoryJobQueue.MarkRunning | apps/api/src/jobQueue.ts:215-227 | only a queued job starts; the whole new store is stated |
| JobQueue.InMemoryJobQueue.MarkSucceeded | apps/api/src/jobQueue.ts:229-243 | an unguarded status write to a known job; the whole new store is stated |
| JobQueue.InMemoryJobQueue.MarkFailed | apps/api/src/jobQueue.ts:245-258 | an unguarded status write to a known job; the whole new store is stated |
| JobQueue.InMemoryJobQueue.UpdateStatus | apps/api/src/jobQueue.ts:510-525 | dispatches to the guarded start, the failure write or a plain overwrite; nothing is returned iff the job is unknown or is to start without being queued |
| JobQueue.InMemoryJobQueue.RecoverStaleRunningJobs | apps/api/src/jobQueue.ts:562-571 | fails and counts exactly the running jobs started before the cutoff |
| JobQueue.InMemoryJobQueue.FailInterruptedRunningJobs | apps/api/src/jobQueue.ts:573-582 | fails and counts exactly the running jobs |
| JobQueue.InMemoryJobQueue.PersistReportAndEnqueuePublish | apps/api/src/jobQueue.ts:260-323 | the three guards in order, success at once under a disabled policy, otherwise awaiting_publish with an outbox item added only if there is none |
| JobQueue.InMemoryJobQueue.ClaimPublishOutboxItem | apps/api/src/jobQueue.ts:330-379 | the in-place double loop has exactly the specified effect on items and jobs |
| JobQueue.InMemoryJobQueue.MarkPublishOutbox | apps/api/src/jobQueue.ts:381-508 | the search for the item and the fencing check have the specified effect; a refused mark leaves the store as it was |
| JobTraces.ClaimTakesFirstDue | apps/api/src/jobQueue.ts:338-376 | a claim hands out the first `limit` due items in map order and leases all due ones if there are fewer |
| JobTraces.ClaimLeasesHandedOut | apps/api/src/jobQueue.ts:338-376 | of all jobs with an item, exactly those whose item is handed out are leased; a due item beyond the limit and its job stay as they were |
| JobTraces.AcceptsIffHoldsLease | apps/api/src/jobQueue.ts:396-398 | a mark is accepted iff it names the current owner and generation of a leased item of a publishing job |
| JobTraces.OneItemAndNoPrivateOnes | apps/api/src/jobQueue.ts:303-320 | in every run each job has at most one item and public_read or local_git jobs never have one |
| JobTraces.AlwaysWellFormed | apps/api/src/jobQueue.ts:346-371 | in every run item ids are unique and owner and expiry are set iff the item is leased |
| JobTraces.GenerationChangesOnClaim | apps/api/src/jobQueue.ts:346-366 | a generation changes only on a claim, by one; a leased item is claimed again only at a reading at or after its expiry |
| JobTraces.TakeoverWaitsForExpiry | apps/api/src/jobQueue.ts:351-366 | between the grant of a lease and its takeover at least the lease duration lies, by the claims' own clock readings |
| JobTraces.RetryWaitsForBackoff | apps/api/src/jobQueue.ts:430-454 | after an accepted retry the item is not claimed before the retry's clock reading plus its backoff |
| JobTraces.LateMarkIsAccepted | apps/api/src/jobQueue.ts:396-398 | a concrete guarded run in which a success mark is accepted one tick after the lease has expired |
| JobTraces.AcceptedMarkHoldsTheLease | apps/api/src/jobQueue.ts:396-408 | an accepted mark comes from the owner of the lease it names, and the item was not touched in between |
| JobTraces.StaleMarkIsFenced | apps/api/src/jobQueue.ts:396-398 | after any later claim a mark with the old generation returns false and leaves the whole store unchanged |
| JobTraces.OneMarkPerGeneration | apps/api/src/jobQueue.ts:400-417 | accepted marks of one item carry strictly increasing generations |
| JobTraces.FinishedItemsAreFrozen | apps/api/src/jobQueue.ts:400-408 | a published, skipped or failed item is never altered again |
| JobTraces.LeasesAreConserved | apps/api/src/jobQueue.ts:358-364 | generation = attempts + takeovers of expired leases + 1 if leased + 1 if published or skipped |
| JobTraces.StepKeepsCouplingIff | apps/api/src/jobQueue.ts:149-525 | of all calls of the store, exactly those status writes break the correspondence of job and item that change the status of a job with an item or put a job without one into a publication phase |
| JobTraces.WorkerFailureKeepsCouplingIff | apps/api/src/jobs/worker.ts:96-106 | under the worker's own guard, failing a job keeps the correspondence iff the job is not publish_failed |
| JobTraces.CancelKeepsCoupling | apps/api/src/review/jobCancel.ts:18-61 | under the cancel request's own guard, cancelling always keeps it |
| JobTraces.AlwaysCoupled | apps/api/src/jobs/worker.ts:96-106 | over all runs in which each caller keeps its own guard, job and item status correspond at a point iff the worker has not failed a publish_failed job before |
| JobTraces.LateFailureUncouples | apps/api/src/jobs/worker.ts:96-106 | a concrete run of the protocol whose last call leaves a failed item under a failed job |
| JobTraces.CouplingInWords | apps/api/src/jobQueue.ts:410-415 | until then: awaiting_publish iff pending or retrying, publishing iff leased, publish_failed iff failed; a succeeded job with an item has it published or skipped |
| JobTraces.UnguardedWriteKeepsCoupling | apps/api/src/jobQueue.ts:229-258 | an unguarded status write keeps the correspondence iff the job is unknown, or has an item and this very status, or has no item and the status is not a publication phase |
| JobHistories.JobIsExplained | apps/api/src/jobQueue.ts:149-582 | in every run the status, report, start, finish and error of each job are those that the last call to write them wrote, and so is the state of its comment |
| JobHistories.JobStep | apps/api/src/jobQueue.ts:149-582 | one call changes a job's fields and comment exactly as written down per field, keeps its mode, policy, installation and creation time, and stamps any change with its clock reading |
| JobHistories.JobKeepsItsTerms | apps/api/src/jobQueue.ts:149-166 | every job keeps the access mode, policy, installation and creation time its enqueue call asked for; only app jobs keep an installation or may publish |
| JobHistories.AcceptedPersistStoresReport | apps/api/src/jobQueue.ts:279-297 | persisting for a running or waiting job stores exactly that report under both policies, and returns without error |
| JobHistories.RefusedPersistSaysWhy | apps/api/src/jobQueue.ts:260-277 | any other persist changes nothing; it says unknown job, wrong status or invalid report exactly in those cases, and returns quietly iff the job is publishing, succeeded or publish_failed |
| JobHistories.ItemHasReport | apps/api/src/jobQueue.ts:292-320 | in every run a job with an outbox item has a result, the report last persisted or recorded, whatever claims, marks and recoveries follow |
| JobHistories.RunningJobsWereStarted | apps/api/src/jobQueue.ts:215-227 | a running job always has a start time |
| JobHistories.StaleIffStartedBefore | apps/api/src/jobQueue.ts:562-571 | recovery picks exactly the running jobs whose last start call read the clock before the cutoff |
| JobHistories.ItemTellsLastTouch | apps/api/src/jobQueue.ts:303-460 | in every run an item shows its last call: who made it, whose lease it is until when, or the mark that settled it, with its error cut to 500 characters, its next attempt and its external id |
| JobHistories.DueIffTimeHasCome | apps/api/src/jobQueue.ts:338-366 | an item is due iff it is new, or the backoff of its last retry is over, and its job awaits publication, or the lease of its last claim has run out and its job is publishing |
| JobHistories.CommentFollowsItem | apps/api/src/jobQueue.ts:299-500 | under the callers' guards the comment state follows the item in every run, late failures included |
| JobHistories.ClipKeepsFront | apps/api/src/jobQueue.ts:449 | stored messages are the first 500 characters |
| KnowledgeDatabase.CountersCount | engine/knowledge/indexer.py:278-313 | skipped, unchanged and indexed count exactly the given files that are too large, already known with this content, or neither |
| KnowledgeDatabase.CountersAddUp | engine/knowledge/indexer.py:278-313 | every given file is counted exactly once |
| KnowledgeDatabase.Database.WriteFile | engine/knowledge/indexer.py:315-350 | replaces the rows of one file, its calls pending, and touches no other file's rows |
| KnowledgeDatabase.Database.ResolveCalls | engine/knowledge/indexer.py:352-375 | binds pending calls to unique definers and deletes the rest, leaving bound edges alone |
| KnowledgeDatabase.Database.IndexFiles | engine/knowledge/indexer.py:265-313 | the loop, the pruning and the rebinding have exactly the specified effect, and the five counters count what happened |
| KnowledgeIndex.RowsAfterIndex | engine/knowledge/indexer.py:282-305 | after a call each file's rows are the new parse, gone, or as before, according to size, hash and pruning |
| KnowledgeIndex.IndexTracksContents | engine/knowledge/indexer.py:278-305 | after any sequence of calls each file's symbol and import rows are the parse of its last accepted content, and its edges are exactly the calls of that content as bound among the contents that counted when the file was last written |
| KnowledgeIndex.RowsAreTheParse | engine/knowledge/indexer.py:325-350 | after any run the symbol and import rows of a recorded Python file that parses are those of its parse and its edges come from the calls of its parse; any other file has no rows |
| KnowledgeIndex.FreshRowsAreTheParse | engine/knowledge/indexer.py:325-375 | the same of a fresh index, with the calls bound among the indexed files |
| KnowledgeIndex.DefinesIffParseLists | engine/knowledge/indexer.py:359-363 | a file defines exactly the names that the parse of its content lists |
| KnowledgeIndex.ContentAfterCall | engine/knowledge/indexer.py:279-303 | a call records the given content unless it is too large; of a file not given or too large the old content stays, unless it is pruned |
| KnowledgeIndex.RepeatedCallChangesNothing | engine/knowledge/indexer.py:288-291 | repeating a call changes no table |
| KnowledgeIndex.PrunedIndexEqualsRebuild | engine/knowledge/indexer.py:299-303 | with pruning and no oversize file the files, symbols and imports equal those of a fresh build |
| KnowledgeIndex.UniqueMeansOnlyDefiner | engine/knowledge/indexer.py:359-363 | the binding table maps a name to a file iff that file alone defines it |
| KnowledgeIndex.FreshIndexIsFaithful | engine/knowledge/indexer.py:352-375 | from an empty index the edges are exactly the calls whose callee one of the files alone defines, bound to that file |
| KnowledgeIndex.RowsEqualRebuild | engine/knowledge/indexer.py:278-305 | after any sequence of calls, pruned or not, files, symbols and imports equal those of a rebuild from the same contents |
| KnowledgeIndex.FileCallsEqualRebuildIff | engine/knowledge/indexer.py:365-375 | after any sequence of calls a file's edges equal those of a rebuild from the same contents iff every name it calls has the unique definer, or the lack of one, that it had when the file was last written |
| KnowledgeIndex.CallsEqualRebuildIff | engine/knowledge/indexer.py:365-375 | the whole table of edges equals a rebuild's iff that holds of every file |
| KnowledgeIndex.RunHasHistory | engine/knowledge/indexer.py:278-305 | every run has a history: the contents recorded by its states follow the acceptance rule call by call |
| KnowledgeIndex.RunEqualsRebuildIff | engine/knowledge/indexer.py:365-375 | for any run whatever, its edges equal a rebuild's from the files it records iff the bindings of every file's last write still stand |
| KnowledgeIndex.UpdateEqualsRebuildIff | engine/knowledge/indexer.py:365-375 | one more call on an index equal to a rebuild leaves it equal to a rebuild iff every file it keeps calls only names with the same unique definer in the contents before and after |
| KnowledgeIndex.IncrementalCallsCanDiffer | engine/knowledge/indexer.py:375 | a concrete pair of calls after which the edges differ from those of a rebuild of the same files |
| ReviewMemory.Memory.UnresolvedFindingsFor | engine/knowledge/indexer.py:412-422 | exactly the open rows of the given files |
| ReviewMemory.Memory.RecordReview | engine/knowledge/indexer.py:424-483 | the new table of reports, `recorded` = kept findings, `resolved` = rows flipped, and one historical fix per file and reference |
| ReviewMemory.ReviewSetsOpen | engine/knowledge/indexer.py:440-481 | on a covered file exactly the reported titles are open afterwards; elsewhere reported titles are added and none is lost |
| ReviewMemory.RowAfterReview | engine/knowledge/indexer.py:435-481 | the review's own rows get the last severity reported for them and its time, and are open; any other row keeps both and is resolved iff it was, or the review covers its file without reporting it |
| ReviewMemory.ReportsIffFindingIsAbout | engine/knowledge/indexer.py:441-449 | a title is reported iff some finding has it on a path that normalizes to the file |
| ReviewMemory.IncomingCount | engine/knowledge/indexer.py:441-449 | a finding is kept iff it names both a file and a title |
| ReviewMemory.OpenIffLastWord | engine/knowledge/indexer.py:435-438 | over any sequence of reviews a title is open on a file iff some review reported it and no later one covered the file without reporting it |
| ReviewMemory.FlippedAreResolved | engine/knowledge/indexer.py:454-473 | the rows flipped are exactly the open rows of covered files that are no longer reported |
| ReviewMemory.AllRememberedIff | engine/knowledge/indexer.py:435-472 | every finding that a review resolves becomes a historical fix iff the rows it resolves agree in title and severity file by file |
| ReviewMemory.TwoFixesShareOneKey | engine/knowledge/indexer.py:462-472 | two reviews after which one of two resolved findings is not remembered |
| Clones.RollStep | engine/analyzers/duplication_analyzer.py:176-180 | dropping the left token and appending the next turns one window's polynomial hash into the next window's, modulo 2^64 - 59 |
| Clones.RollWindows | engine/analyzers/duplication_analyzer.py:168-180 | the loop collects exactly the direct hashes of all windows |
| Clones.BuildIndex | engine/analyzers/duplication_analyzer.py:161-180 | the inverted index lists under each hash exactly the functions that have it |
| Clones.CountShared | engine/analyzers/duplication_analyzer.py:183-194 | whatever the iteration order, each pair's count is the number of hashes common to both |
| Clones.RollingHashClones | engine/analyzers/duplication_analyzer.py:140-214 | the report holds exactly the pairs that share a hash and for which twice the shared hashes reach the threshold times all windows of both; the reported similarity times those windows is twice the shared hashes |
| Clones.SimilarityIsAProportion | engine/analyzers/duplication_analyzer.py:199-201 | a reported similarity is above zero and at most one |
| Clones.SharedCountIsCommonWindows | engine/analyzers/duplication_analyzer.py:147-148 | if no token window of one function shares its hash with a different window of the other, the count is the number of distinct token windows in common |
| Clones.PerfectIffSameHashes | engine/analyzers/duplication_analyzer.py:199-201 | a reported similarity is 1 iff both functions have the same window hashes and neither has one twice |
| Clones.IdenticalFunctionsAreReported | engine/analyzers/duplication_analyzer.py:199-202 | two functions of the same tokens without a repeated window are reported with similarity 1 for every threshold up to 1 |
| Clones.WindowsAreOfTheFunction | engine/analyzers/duplication_analyzer.py:161-166 | with one function per key, a key's window count is that of its function, and only long enough functions have one |
| Clones.HashesAreOfTheFunction | engine/analyzers/duplication_analyzer.py:161-180 | with one function per key, the hashes listed for a key are those of its function |
| WorkflowPatch.SplitOfKey | apps/api/src/http.ts:500-506 | splitting an edge key at the NUL gives back its two ends |
| WorkflowPatch.RemoveNodeAt | apps/api/src/http.ts:500-506 | removes the node and exactly the edges that touch it |
| WorkflowPatch.CollectIssues | apps/api/src/http.ts:508-554 | the loop's issues and final Map and Set are those of the ordered simulation |
| WorkflowPatch.SimulationDecidesValidity | apps/api/src/http.ts:508-554 | no issue is raised iff every operation is valid on the graph that the preceding ones produce |
| WorkflowPatch.ApplicationRefinesEffect | apps/api/src/http.ts:561-584 | applying a valid patch to a well-formed definition gives exactly that graph's nodes and edges, ids unique, no duplicate and no dangling edge |
| WorkflowPatch.ValidatePatch | apps/api/src/http.ts:486-584 | rejected with all issues iff some operation is invalid where it stands; otherwise the patched lists represent the resulting graph |
| PatchHistories.NodeTellsLastOperation | apps/api/src/http.ts:561-582 | after a valid patch a node is there iff the last operation to add or remove it added it; it has that operation's service, the registry's type for it, and the parameters set last, by an update or when it was added |
| PatchHistories.EdgeTellsLastOperation | apps/api/src/http.ts:561-584 | after a valid patch an edge is there iff the last operation to add it, remove it or remove one of its ends added it |
| PatchHistories.PatchKeepsTypes | apps/api/src/http.ts:565-566 | an accepted patch leaves every node with the type the registry gives its service |
| PatchHistories.IssueTellsWhatIsWrong | apps/api/src/http.ts:508-550 | for any patch an issue is raised iff its operation is wrong in the way its code says in the state simulated so far |
| PatchHistories.IssuesAreInOrder | apps/api/src/http.ts:508-550 | issues come in the order of the operations |
| PatchHistories.KnownNodeTellsLastOperation | apps/api/src/http.ts:509-527 | for any patch the simulation knows a node iff the last operation to add it with a registered service or remove it added it |
| PatchHistories.KnownEdgeTellsLastOperation | apps/api/src/http.ts:500-550 | the same of an edge, which is remembered even with unknown ends and goes with the removal of a known end |
| Digest.StreamRoundTrip | engine/workflow/artifacts.py:24-38 | the stream decodes to the exact path-to-content map |
| Digest.StreamIsInjective | engine/workflow/artifacts.py:27-28 | two file sets feed the hash the same bytes iff they are equal |
| Digest.StreamIsCanonical | engine/workflow/artifacts.py:31 | the order in which the dict was filled does not matter |
| Digest.StreamExistsIff | engine/workflow/artifacts.py:32-36 | a stream exists iff every path and content encodes to fewer than 2^64 bytes |
| Digest.FirstFailureWins | engine/workflow/artifacts.py:31-36 | if there is no stream, the first file in path order that has no record decides the exception: an encoding error, or else an overflow of the length |
| Digest.EncodableIffUtf8Char | engine/workflow/artifacts.py:32-33 | exactly the code points that are not surrogates yield a byte sequence that section 4 of RFC 3629 allows |
| Digest.BeforeIsLexicographic | engine/workflow/artifacts.py:31 | paths are sorted by code point at the first difference, a prefix first |
| Digest.DigestFiles | engine/workflow/artifacts.py:24-38 | the loop feeds exactly that stream, or raises |
| Ranks.ComputeRanks | engine/evaluation/metrics.py:44-56 | the loop over runs of ties fills in #smaller + (#equal + 1)/2 for every value |
| Ranks.RanksKeepOrder | engine/evaluation/metrics.py:44-56 | ranks compare exactly as the values do |
| Ranks.RanksAddUp | engine/evaluation/metrics.py:44-56 | ties or not, the ranks sum to n(n+1)/2 |
| Spearman.CauchySchwarz | engine/evaluation/metrics.py:62-64 | the numerator squared is at most the product of the sums of squares |
| Spearman.SpearmanRankCorrelation | engine/evaluation/metrics.py:38-65 | computes the correlation of the two rankings |
| Spearman.CorrelationIsBounded | engine/evaluation/metrics.py:62-65 | the result lies in [-1, 1] for all inputs |
| Spearman.PerfectIffSameOrder | engine/evaluation/metrics.py:38-65 | the result is 1 iff the scores are not all equal and both lists order the files alike, ties included |
| Spearman.OppositeIffReverseOrder | engine/evaluation/metrics.py:38-65 | the result is -1 iff the scores are not all equal and the orders are opposite |
| Spearman.RankDifferenceFormula | engine/evaluation/metrics.py:38-65 | twice the correlation times both roots is the sum of both lists' squared rank deviations less the squared rank differences, ties included |
| Spearman.NothingToCorrelate | engine/evaluation/metrics.py:40-65 | the result is 0 for lists of different or too small length and for constant scores |
| Spearman.ReversalFlipsSign | engine/evaluation/metrics.py:38-65 | reversing one ranking flips the sign |
| Inheritance.InheritanceDepths | engine/analyzers/structural_analyzer.py:88-110 | for every class of a file the length of a longest base chain without repetition in the merged map, [0] without classes |
| Inheritance.DepthIsLongestChain | engine/analyzers/structural_analyzer.py:101-108 | on any map, cyclic or not, some simple base chain has the computed length, none is longer, and it lies between one and the number of classes |
| Inheritance.ProjectNeverShortens | engine/analyzers/structural_analyzer.py:93-97 | resolving across files never makes a class shallower |
| Inheritance.SeenIsIrrelevant | engine/analyzers/structural_analyzer.py:101-108 | for a class from which no cycle can be reached the visited set changes nothing |
| Inheritance.DepthRecurrence | engine/analyzers/structural_analyzer.py:101-108 | a class from which no cycle can be reached is one deeper than its deepest known base |
| Inheritance.DepthsFallIffAcyclic | engine/analyzers/structural_analyzer.py:101-108 | every class is deeper than each of its known bases iff the map has no cycle |
| Inheritance.LongestChainEndsAtRoot | engine/analyzers/structural_analyzer.py:106-108 | where no cycle can be reached every longest chain ends at a class without known bases |
| Inheritance.DepthIsLongestRootChain | engine/analyzers/structural_analyzer.py:77 | where no cycle can be reached the depth is the documented one: some chain to a root has this length and none is longer |
| Inheritance.CyclicDepthReachesNoRoot | engine/analyzers/structural_analyzer.py:77 | a concrete cyclic map with depth 2 on which no class is a root and the documented depth does not exist |
| Risk.RoundingKeepsOrder | engine/models/enums.py:260-267 | half-even rounding is monotone, moves a value by at most one half, and settles ties at an even number |
| Risk.QuantizingKeepsOrder | engine/models/enums.py:260-262 | rounding to four decimals is monotone |
| Risk.QuantizingIsClose | engine/models/enums.py:260-262 | the result has four decimals and is at most half of the last one away |
| Risk.FileRiskIsMonotone | engine/scoring/composer.py:102-130 | raising any signal never lowers a file's risk, thresholds, saturation and rounding included |
| Risk.FileRiskRespectsGates | engine/scoring/composer.py:127-130 | a file's risk is in [0, 1] and rounding never takes it below its security floor |
| Risk.FileRuleUnchanged | engine/evaluation/scoring_eval.py:59-83 | rule versions 3.0 and 3.1 agree on every single file |
| Risk.ComposeChangesetActive | engine/evaluation/scoring_eval.py:145-186 | risk is the largest of blend and applicable floors; band and score follow it, the gate names the floor |
| Risk.ComposeChangesetLegacy | engine/evaluation/scoring_eval.py:86-142 | the branches of the 3.0 rule compute the same maximum with the later peak triggers |
| Risk.ActiveDominatesLegacy | engine/evaluation/scoring_eval.py:86-186 | 3.1 is 3.0 raised to the peak's band floor, so it differs exactly when 3.0 fell below it, which takes a peak in [0.50, 0.60) or [0.75, 0.80) |
| Risk.NeverDiluted | engine/runner.py:250-264 | a changeset is never reported below a high or critical band that one of its files reaches |
| Risk.FindingsAreHeeded | engine/models/enums.py:215-252 | no changeset is below the band of any marker on any finding, wherever it stands, and a low model finding lifts the risk to 0.10 |
| Risk.OnlyMarkersLift | engine/models/enums.py:239-252 | findings without a marker leave the risk to the files |
| Risk.ChangesetIsMonotone | engine/runner.py:239-271 | raising one file's risk never lowers the changeset's |
| Risk.BlendGain | engine/runner.py:242-250 | raising one of several files adds seven tenths of its share to the blend, and three tenths of what the peak gains |
| Risk.BlendOfEquals | engine/runner.py:242-250 | files of equal risk blend to that risk |
| Risk.ChangesetIsOrderFree | engine/runner.py:239-271 | the order of the files and of the findings does not matter |
| Risk.ReportFollowsRisk | engine/models/enums.py:265-267 | a riskier changeset never gets a better score or a lower band, and scores are 0 to 100 |
| Risk.MediumIsDilutedIff | engine/models/enums.py:128-130 | a changeset whose riskiest file is medium is reported low iff its blend is low, no evidence marker sets a floor and no model finding lifts it to 0.25 |
| Risk.MediumIsDiluted | engine/models/enums.py:128-130 | a concrete changeset of that kind |
| Evidence.TruncationFits | engine/retrieval/evidence_pack.py:27-32 | a truncated text fits the remaining budget and is no more expensive than the text |
| Evidence.TruncationKeepsFront | engine/retrieval/evidence_pack.py:27-32 | a text that fits is kept whole, any other is cut to a front of itself, marked as truncated exactly when more than 8 tokens remain |
| Evidence.TokensAreFourCharacters | engine/retrieval/evidence_pack.py:23-24 | a token is four characters, rounded down, and any text costs at least one |
| Evidence.TruncationCutsThere | engine/retrieval/evidence_pack.py:27-32 | a text that does not fit is cut after four characters per token left, less 16 and trailing white space when more than 8 tokens are left |
| Evidence.BlankIffAllSpace | engine/retrieval/hybrid_retriever.py:15-19 | a candidate is dropped iff its content is all white space |
| Evidence.RankingIsBestFirst | engine/retrieval/hybrid_retriever.py:20 | scores never rise along the ranking; equal scores are in id order and equal ids in source order |
| Evidence.RankIsStable | engine/retrieval/hybrid_retriever.py:20 | candidates with equal keys stay in the order given |
| Evidence.RetrieveIsComplete | engine/retrieval/hybrid_retriever.py:9-21 | the ranking is in key order and holds exactly the candidates with content |
| Evidence.SelectEvidence | engine/retrieval/evidence_pack.py:48-75 | takes a front of the ranking, each item cut to the remaining budget, and stops only at the end, at top_k or with the budget spent |
| Evidence.BuildEvidencePack | engine/retrieval/evidence_pack.py:35-122 | used tokens within budget, output no larger than input, selection a front of the ranking, every candidate id selected or discarded, never both, with the right reason |
| Evidence.SelectedOrDiscarded | engine/retrieval/evidence_pack.py:77-106 | selected and discarded ids together are exactly the candidates' ids and do not overlap; each reason tells unranked, out of budget and below cutoff apart |

## Left out

- Runner.Run: wall-clock fields, durations and run ids, because they differ between runs by design.
- Runner.RunState.ReturnStep: a report's raw output, command and exit code, which are copied to the artifact unread.
- Runner.RunWorkflow: progress events, cancellation, resolver errors other than a missing plugin, and one semaphore shared by concurrent runs of the same runner.
- Runner.RunWorkflow: the input digest is a parameter here; its stream is the subject of `Digest.dfy`.
- JobQueue.InMemoryJobQueue.Enqueue: repository, pull request and other payload fields that no operation looks at.
- JobQueue.InMemoryJobQueue.ClaimPublishOutboxItem: the schema re-parse of each claimed item, which can only fail on rows no operation writes.
- JobQueue.InMemoryJobQueue.PersistReportAndEnqueuePublish: a report is an opaque value that is either schema-valid or not.
- The queue's deliveries, agent runs, snapshots, lists and the SQLite-backed store with the same interface.
- KnowledgeDatabase.Database.IndexFiles: SQLite itself, row ids, timestamps and language names; rows are sequences, and deletion of a file row deletes its symbol, import and call rows.
- Clones.RollingHashClones: labels, the final sort by similarity and the rounding of similarity to four decimals for display.
- Clones.SimilarityIsAProportion: needs one function per (file, name, line) key; with repeated keys the window count is that of the last function only.
- WorkflowPatch.ValidatePatch: the final canonical compilation, whose source is not part of this model; issue paths and message texts.
- WorkflowPatch.SplitOfKey: ids are free of NUL, as the schema's id pattern guarantees.
- Digest.DigestFiles: SHA-256 itself.
- Ranks.ComputeRanks: NaN, on which the source's sort is unspecified.
- Spearman.SpearmanRankCorrelation: floating-point rounding; the square root is a parameter and the bounds assume it exact at the two values it is taken of.
- Inheritance.InheritanceDepths: parsing; the recursive walk is a function, since its visited set is copied at every call.
- Risk.ComposeChangesetActive: substring search in lower-cased findings; a finding is the set of markers it contains.
- Risk.FileRiskIsMonotone: custom weights are complete and non-negative; the source's per-key defaults are not modelled.
- Evidence.BuildEvidencePack: how a score is computed from a candidate's file, kind and metadata, the reasons given for it, the compression ratio and the packs' JSON form.
- Plugins other than the cycle finder, parsers, scanners, evolution and style scores, HTTP routing, webhooks, CLI and the kernel packages.
