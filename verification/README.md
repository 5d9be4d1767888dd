# Verification of the learning platform's generation and progress core

A Dafny model of the parts of the platform whose correctness rests on state machines and algorithms,
with proofs of what they promise. `dafny verify dfyconfig.toml` checks everything.

| area | files |
|---|---|
| Text chunker of external research | `Text`, `Segmentation`, `Greedy`, `ChunkSpec`, `Chunking` |
| Generation runs: one live run per slot, execution tokens, stale sweeping, bounded life | `RunTable`, `GenerationRuns`, `RunProtocol` |
| Advisory locks and the way a worker enters a run | `AdvisoryLocks`, `WorkerEntry`, `WorkerProtocol` |
| Batch generation: claims, settlement, counters, chained task calls | `BatchState`, `BatchTasks`, `BatchProtocol` |
| API-key pool and the rotation loop | `KeyPool`, `GroqRotation` |
| Topic forest, subtree rollups, progressive unlocking | `TopicForest`, `Completion`, `LearningUnits`, `Unlocking`, `UnlockGrants` |
| Study-material graph: forward edges, resume router, crashes | `StudyGraph`, `GraphRuns` |
| Hint validation across resumes | `Hints` |

The services and repositories appear as classes whose methods update fields and are proved against
functions on a value of the whole table, pool, batch or store. The safety results are lemmas about
those functions over every sequence of events. The chunker is proved both against an independent
description of its output (`ChunkSpec`: take the longest prefix that fits, again and again) and
against the properties that description should have (words kept, bound respected, fewest chunks, the
one first-fit grouping, nothing but white space lost). What the functions of the other areas mean is
likewise said by lemmas in terms of the rows, keys and answers themselves.

What is taken for granted:

- A committed transaction is one step. `uuid4` tokens are fresh, reads see committed rows, and
  `_lock_keys` is injective. `resume_run` is one step although the code validates before it takes the
  coordinator lock (src/api/core/services/generation_run_service.py:529-533);
  `LateResumeWriteKeepsOneActive` says exactly when a late write is harmless and
  `LateResumeWriteCanRace` gives an interleaving in which it is not.
- The run theorems take `start_run` with its default `supersede_existing=True`, as every caller does;
  `StartWithoutSupersedeKeepsOneActive` says exactly when a start without it would be safe. A conflict
  is raised after the supersede, whose effect the model keeps; `ConflictingStartIsNoop` shows that
  there is none.
- Checkpoints are guarded by status only, not by token, so no token isolation is claimed for them.
  `complete_run` accepts a paused run as well as a running one.
- A claim of a batch step is atomic: there is a single durable worker
  (src/api/core/services/generation_run_service.py:59).
- A session keeps one physical connection while it holds locks. `run_generation_job` binds its session
  to one (src/api/utils/generation_progress/generation_job_executor.py:34-38); sessions of the API and
  of `process_batch` are not bound, and a commit may move them to another connection, which the lock
  theorems do not cover. That the server never gives one key to two connections is Postgres's own
  guarantee, built into the type of its lock table; what is proved is that the sessions' records keep
  to it.
- The worker job reads its run's token before it works on the run. If that read fails, or the database
  fails again when a stranded attempt is to be settled, nothing is settled
  (src/api/batch/tasks.py:160-177); both failures are inputs of `ExecuteGenerationRunJob`.
- A snapshot's percentage is the one derived from its facts when it was loaded, as both services that
  build snapshots do.
- Model calls, clocks and database answers are inputs of the operations. The rotation loop has one
  caller and a fixed clock. `rough_token_count` is the exact floor of 13n/10.
- Graph nodes are arbitrary except that `resolver` never sets `terminal_llm_failure` and a successful
  `concept_checklist` returns a non-empty checklist, as their code shows. A crash is anything that
  drops the run after its last checkpoint, an abort included. The state of a fresh request carries
  whatever its stored parameters could fill in later.

Where the code and its own words differ, the model follows the code:

- One word always counts as one token, so for a target of at least 1 the chunk bound has no
  exception, although comments speak of oversized single tokens
  (src/api/utils/external_research_utils/chunking.py:78-80).
- The header of the unlocking module says that completing a parent unlocks every eligible child
  (src/api/utils/trainee_progress_utils/unlocking.py:5-6). A child that becomes eligible because a
  topic below it is published gets no grant. `PublicationKeepsEagerGrantsExactlyWhen` says, from the
  tables before the publication, exactly which publications break the promise, and
  `LatePublishedGrandchildCanRelock` gives a run in which a trainee is locked out of an open topic.
- The resume router agrees with the forward edges under a condition that `ResumeTakesForwardEdge`
  gives node by node. After `quality_check` it can differ (`PassedDocumentIsCheckedAgain`).
- `count_completed_learning_units` takes no quiz at all to be published unless it is told otherwise
  (src/api/utils/trainee_progress_utils/learning_units.py:116-119), so the completed units bound the
  summed percentage only under the condition of `LowerBoundExactlyWhen`. Every caller in the repository
  meets it by passing the set that the snapshots were derived with.
- `llm_retry_attempts` has no lower bound (src/api/config/llm_config.py:83). The rotation loop returns
  if and only if an attempt is configured or no key is usable (`LoopReturnsExactlyWhen`), and hint
  validation settles nothing with a negative retry setting (`RoundCoversExactlyWhen`).

## Model

| member | source | states |
|---|---|---|
| Text.SplitIsExact | src/api/utils/external_research_utils/chunking.py:63-63 | splitting loses nothing: joining the parts gives the text back, and the cuts are at the leftmost separators |
| Text.NoPartHoldsSeparator | src/api/utils/external_research_utils/chunking.py:33-33 | no part of a split still holds the separator |
| Text.ReplaceIsSplitAndJoin | src/api/utils/external_research_utils/chunking.py:22-22 | replacing is splitting at the old text and joining with the new |
| Segmentation.LineEndsAlike | src/api/utils/external_research_utils/chunking.py:22-22 | a carriage return before a line feed, or alone, is one line feed wherever it stands; with `UnixKeeps` this decides every text |
| Segmentation.CollapseRun | src/api/utils/external_research_utils/chunking.py:16-23 | a line feed, blanks and all line feeds behind them become one paragraph break |
| Segmentation.CollapseKeepsFeed | src/api/utils/external_research_utils/chunking.py:16-23 | any other line feed stays, with the blanks behind it |
| Segmentation.NormalizedShape | src/api/utils/external_research_utils/chunking.py:20-24 | no carriage return, no three line feeds in a row and no surrounding white space is left |
| Segmentation.WordsOfNormalize | src/api/utils/external_research_utils/chunking.py:20-24 | normalising line ends and blank-line runs keeps the words of every text |
| Segmentation.WordsOfSentences | src/api/utils/external_research_utils/chunking.py:17-17 | the sentence split loses and reorders no word |
| Segmentation.SentencesAre | src/api/utils/external_research_utils/chunking.py:17-17 | the text is its sentences with white space between them; every sentence but the last ends in `.`, `!` or `?`, none holds one of these before white space, none but the first can start with a space |
| Segmentation.ParagraphsAre | src/api/utils/external_research_utils/chunking.py:62-63 | paragraphs have words and hold no paragraph break; unless a blank part was dropped they join back to the normalised text |
| Segmentation.PartHasFewerWords | src/api/utils/external_research_utils/chunking.py:103-107 | each of two or more non-blank sentences has strictly fewer words than their segment, which is why the mutual recursion ends |
| Greedy.FirstFitIsFewest | src/api/utils/external_research_utils/chunking.py:82-95 | a first-fit packing has no more groups than any contiguous packing of the same units whose groups fit, even one with units in front |
| Greedy.GroupingIsUnique | src/api/utils/external_research_utils/chunking.py:82-95 | consecutive groups that fit (or are one unit) and could not have taken the next unit are determined by the units and the target |
| Greedy.JoinOfGrouped | src/api/utils/external_research_utils/chunking.py:87-92 | chunks made of such groups join to what the units join to |
| ChunkSpec.CloseRun | src/api/utils/external_research_utils/chunking.py:87-92 | a group that the next unit no longer fits into is exactly the longest fitting prefix of what was left |
| ChunkSpec.CloseLines | src/api/utils/external_research_utils/chunking.py:37-54 | the same for line groups, which a blank line also ends |
| ChunkSpec.LineRunsCut | src/api/utils/external_research_utils/chunking.py:37-42 | a blank line parts the lines before it from the lines behind it and is dropped |
| ChunkSpec.PackSplit | src/api/utils/external_research_utils/chunking.py:127-134 | an oversized unit closes the open group and is replaced by its own hard split, in place |
| ChunkSpec.RunsAreFewest | src/api/utils/external_research_utils/chunking.py:82-95 | longest prefixes taken again and again use the fewest groups of any contiguous packing |
| ChunkSpec.RunsAreGrouped | src/api/utils/external_research_utils/chunking.py:82-95 | the runs are the joins of that one grouping |
| ChunkSpec.PackStretchIsFewest | src/api/utils/external_research_utils/chunking.py:127-146 | between two hard splits each stretch of units that fit is packed on its own and with the fewest chunks |
| ChunkSpec.PackSmall | src/api/utils/external_research_utils/chunking.py:127-146 | units that each fit are only grouped, never cut |
| ChunkSpec.SegmentsAre | src/api/utils/external_research_utils/chunking.py:57-71 | two or more paragraphs are the segments; only a lone paragraph of several lines is cut, between lines; a blank text is its own segment |
| Chunking.HardSplitByWords | src/api/utils/external_research_utils/chunking.py:74-95 | the one first-fit grouping of the words, or the segment itself when it has at most one; all words kept, every chunk within a positive target, fewest chunks of any packing |
| Chunking.HardSplitSegment | src/api/utils/external_research_utils/chunking.py:98-114 | whole sentences grouped first-fit when there are several and each fits, the words of a lone sentence otherwise, oversized sentences split in turn; words kept, bound kept, identity on a segment that fits, and otherwise no more chunks than any packing of its sentences (of the words of a lone sentence) |
| Chunking.Resplit | src/api/utils/external_research_utils/chunking.py:107-114 | the second pass over packed sentences changes nothing when all pieces fit |
| Chunking.PackUnits | src/api/utils/external_research_utils/chunking.py:117-146 | the one first-fit grouping of units that each fit, and in general the specified packing with its hard splits; words kept, bound kept, fewest chunks when any packing of whole units exists; ends for every input |
| Chunking.LineGroups | src/api/utils/external_research_utils/chunking.py:27-54 | without a blank line the one first-fit grouping of the block's lines, and in general the specified groups between blank lines; words kept; fewest groups when no line is blank |
| Chunking.SegmentsFromText | src/api/utils/external_research_utils/chunking.py:57-71 | two or more paragraphs are returned as they are and none holds a paragraph break; a lone paragraph is cut only between its lines; the words are those of the text |
| Chunking.SplitIntoChunks | src/api/utils/external_research_utils/chunking.py:149-171 | for every text and target the chunks' words in order are the text's words, and each chunk counts at most a positive target; for a text with words and a positive target none is blank, and no packing of its segments (paragraphs, or line groups of a lone paragraph) has fewer chunks; segments that each fit are only grouped, and when no paragraph is blank or oversized the chunks join back to the normalised text; a blank text or a target below 1 gives the text back as one chunk |
| Chunking.ResplitSegments | src/api/utils/external_research_utils/chunking.py:164-171 | the final pass is the identity over chunks that fit |
| Chunking.ChunkCleanedPages | src/api/utils/external_research_utils/chunking.py:174-196 | `was_chunked` holds exactly when the page counts more than a positive threshold; otherwise the page is passed through whole |
| Chunking.TokensOfJoin | src/api/utils/external_research_utils/tokens.py:6-10 | joining units with a whitespace joiner counts as the words of the units together |
| GenerationRuns.GenerationRunRepository.Create | src/api/data/repositories/generation_run_repository.py:24-50 | a fresh id gets a running row with its token and no attempts; a taken id changes nothing |
| GenerationRuns.GenerationRunRepository.GetActiveRun | src/api/data/repositories/generation_run_repository.py:81-99 | a latest running, paused or failed run of the slot, or none when there is none |
| GenerationRuns.GenerationRunRepository.CheckpointAfterNode | src/api/data/repositories/generation_run_repository.py:101-132 | only a running row is checkpointed, whoever asks; a step or artifact id that is not given stays |
| GenerationRuns.GenerationRunRepository.FailRun | src/api/data/repositories/generation_run_repository.py:152-180 | fails exactly a running row whose token matches, when one is expected |
| GenerationRuns.GenerationRunRepository.CompleteRun | src/api/data/repositories/generation_run_repository.py:182-216 | completes exactly a running or paused row, stamps it and clears its error |
| GenerationRuns.GenerationRunRepository.MarkRunning | src/api/data/repositories/generation_run_repository.py:218-237 | sets running without looking at the status |
| GenerationRuns.GenerationRunRepository.PauseRun | src/api/data/repositories/generation_run_repository.py:239-258 | pauses exactly a running row |
| GenerationRuns.GenerationRunRepository.AbandonRun | src/api/data/repositories/generation_run_repository.py:260-285 | abandons exactly a running, paused or failed row |
| GenerationRuns.GenerationRunRepository.FindStaleRunningRuns | src/api/data/repositories/generation_run_repository.py:287-299 | lists each running row older than the threshold once, and no other |
| GenerationRuns.GenerationRunRepository.MarkStaleFailed | src/api/data/repositories/generation_run_repository.py:301-333 | fails exactly a running row that is still stale and still carries the sampled token |
| GenerationRuns.GenerationRunRepository.IncrementAttemptCount | src/api/data/repositories/generation_run_repository.py:354-368 | adds one attempt and touches nothing else |
| GenerationRuns.GenerationRunRepository.SupersedeStaleRuns | src/api/data/repositories/generation_run_repository.py:385-415 | supersedes exactly the paused and failed rows of the slot but the spared one, and says whether there was any |
| GenerationRuns.GenerationRunService.StartRun | src/api/core/services/generation_run_service.py:80-118 | supersede unless told not to, look for a running run, create: conflict exactly when the latest live run is running; a started run is new, running and holds the token, and the paused and failed runs of the slot are superseded |
| GenerationRuns.GenerationRunService.ResumeRun | src/api/core/services/generation_run_service.py:523-569 | permitted exactly to the owner of a paused or failed run with unchanged inputs, fewer than 5 attempts and, if it failed, its retry time reached, while no other run is seen running; then one more attempt, running, new token, checkpoint kept; otherwise nothing changes |
| GenerationRuns.GenerationRunService.ShouldContinueExecution | src/api/core/services/generation_run_service.py:126-146 | true exactly for the running attempt that holds the token |
| GenerationRuns.GenerationRunService.PauseRun | src/api/core/services/generation_run_service.py:602-625 | pauses a running run of the mentor, repeats harmlessly, refuses anything else |
| GenerationRuns.GenerationRunService.AbandonRun | src/api/core/services/generation_run_service.py:627-674 | abandons a live run of the mentor, repeats harmlessly, refuses anything else; frees the slot's lock only if this very session holds it |
| GenerationRuns.GenerationRunService.RecoverStaleRuns | src/api/core/services/generation_run_service.py:676-710 | one sweep fails exactly the stale running rows and counts them, and the sweeping session gives up only its own locks of those slots |
| RunProtocol.OneActiveAlways | src/api/core/services/generation_run_service.py:80-118 | one live run per slot, own issued tokens and at most 5 attempts survive every interleaving |
| RunProtocol.ReachableIsSafe | src/api/core/services/generation_run_service.py:523-569 | in every state reachable from the empty table at most one run per slot is running, paused or failed |
| RunProtocol.ConflictingStartIsNoop | src/api/core/services/generation_run_service.py:91-105 | a start rejected with a conflict leaves the table as it was |
| RunTable.MayResumeExactlyWhen | src/api/core/services/generation_run_service.py:407-437 | the conditions of a permitted resume, both ways, read from the row |
| RunTable.WaitingNeverHurts | src/api/core/services/generation_run_service.py:420-425 | a permitted resume stays permitted at every later time on the same table, and the refusal for coming early ends with the retry time |
| RunProtocol.StartConflictsExactlyWhen | src/api/core/services/generation_run_service.py:80-118 | with one live run per slot a start is refused with a conflict if and only if a run of the slot is running, and starts if and only if none is and its id is new |
| RunProtocol.ResumesExactlyWhen | src/api/core/services/generation_run_service.py:523-569 | with one live run per slot no conflict ever stands in the way of a resume |
| RunProtocol.StatusMoves | src/api/data/repositories/generation_run_repository.py:152-415 | the life cycle of every row under every event: where its status goes, and that it stays in all other cases |
| RunProtocol.RowMoves | src/api/data/repositories/generation_run_repository.py:101-415 | owner, slot and creation time never change; token, attempts, checkpoint, error and retry time change with exactly the events that write them |
| RunProtocol.RowsAppear | src/api/core/services/generation_run_service.py:80-118 | only a start makes a row, on a slot without a running run; no row is ever deleted |
| RunProtocol.HandedOutAttemptContinues | src/api/core/services/generation_run_service.py:126-146 | after a start or a resume exactly the attempt with the token handed out may continue |
| RunProtocol.StartWithoutSupersedeKeepsOneActive | src/api/core/services/generation_run_service.py:80-118 | a start told not to supersede keeps one live run per slot if and only if no paused or failed run is on it |
| RunProtocol.LateResumeWriteKeepsOneActive | src/api/core/services/generation_run_service.py:529-545 | a resume write that comes after its checks is safe if and only if no other run of the slot has become live |
| RunProtocol.LateResumeWriteCanRace | src/api/core/services/generation_run_service.py:529-545 | a concrete start between check and write leaves two running runs on one slot |
| RunProtocol.StepIssuesFreshTokens | src/api/data/repositories/generation_run_repository.py:218-237 | no step hands an issued token out again |
| RunProtocol.RefusedForEver | src/api/core/services/generation_run_service.py:126-146 | an attempt told once not to continue is told so in every later state |
| RunProtocol.LostTokenNeverReturns | src/api/data/repositories/generation_run_repository.py:218-237 | a token a run has lost is never its token again |
| RunProtocol.TokenNamesAttempt | src/api/core/services/generation_run_service.py:523-569 | while a run carries a sampled token it has not been resumed since |
| RunProtocol.SampledWriteHitsSampledAttempt | src/api/core/services/generation_run_service.py:676-710 | a sweeper or worker that fails a run by a token sampled earlier only ever fails the attempt it sampled, whatever happened in between |
| RunProtocol.StepSpendsLife | src/api/core/services/generation_run_service.py:407-425 | each status change lowers (5 - attempts, rank of status); a finished run never changes |
| RunProtocol.LifeBoundsChanges | src/api/core/services/generation_run_service.py:407-425 | over any run of events the status changes plus what is left never exceed what there was |
| RunProtocol.LifeIsFinite | src/api/core/services/generation_run_service.py:523-569 | after its creation a run changes status at most 12 times and is resumed at most 5 times |
| RunProtocol.TerminalForEver | src/api/data/repositories/generation_run_repository.py:152-285 | completed, abandoned and superseded are final |
| AdvisoryLocks.Session.TryAcquireGenerationLock | src/api/utils/generation_progress/advisory_lock.py:45-73 | re-entrant acquires keep the count at one; success exactly when the key ends up tracked |
| AdvisoryLocks.Session.ReleaseGenerationLock | src/api/utils/generation_progress/advisory_lock.py:96-116 | gives up the own lock only, and says whether there was one |
| AdvisoryLocks.Session.ReleaseAllGenerationLocks | src/api/utils/generation_progress/advisory_lock.py:119-122 | the connection holds nothing afterwards; other connections keep theirs |
| AdvisoryLocks.RunGenerationJob | src/api/utils/generation_progress/generation_job_executor.py:26-47 | on every path through a job, an exception included, its connection ends with no lock, and starts without the last tenant's |
| AdvisoryLocks.AcquireKeepsSynced | src/api/utils/generation_progress/advisory_lock.py:45-73 | an acquire keeps tracked set and server locks equal with count one, and grants exactly what the server would |
| AdvisoryLocks.ReleaseKeepsSynced | src/api/utils/generation_progress/advisory_lock.py:96-116 | a release keeps them equal and leaves the key unheld by this session |
| AdvisoryLocks.LockStepKeepsSynced | src/api/utils/generation_progress/advisory_lock.py:45-122 | a step of one session keeps every session in agreement and every other session's locks |
| AdvisoryLocks.SyncedAlways | src/api/utils/generation_progress/advisory_lock.py:45-122 | the agreement holds in every interleaving of sessions |
| AdvisoryLocks.NoKeyInTwoSessions | src/api/utils/generation_progress/advisory_lock.py:45-122 | in no reachable state do two sessions hold the same key |
| AdvisoryLocks.ForeignReleaseFreesNothing | src/api/utils/generation_progress/advisory_lock.py:96-116 | a release from a session that does not hold the key, such as an abandon from the API, changes nothing |
| WorkerEntry.AcquireLockForRun | src/api/core/services/generation_run_service.py:162-207 | a worker enters a run only with the lock of its slot, and enters a running run at once when that lock is free or its own; coming back without a run means that the run is not running; it gives up after exactly 25 tries |
| WorkerEntry.FailRunAndRelease | src/api/core/services/generation_run_service.py:239-262 | fails by the token just read and releases the slot's lock if this session had it |
| WorkerEntry.FailRunIfLeftRunning | src/api/batch/tasks.py:142-177 | settles the sampled attempt if it is still running and the database answers; every other row, and every row that is not running, stays |
| WorkerEntry.ExecuteGenerationRunJob | src/api/batch/tasks.py:181-214 | however the job ends and whatever others did, the connection holds no lock, and the attempt whose token was read is not left running unless the database fails again |
| WorkerProtocol.OneWorkerPerSlot | src/api/core/services/generation_run_service.py:162-207 | in every interleaving of workers, mentors and sweepers, two sessions inside runs of one slot are one session, and it holds the slot's lock |
| WorkerProtocol.EntersExactlyWhen | src/api/core/services/generation_run_service.py:162-207 | a worker that tries a running run is inside it afterwards if and only if the slot's lock was free or its own; nobody else is moved |
| WorkerProtocol.StaysInside | src/api/core/services/generation_run_service.py:162-207 | a session leaves a run only by releasing its slot, by ending, or by starting afresh |
| WorkerProtocol.WorkerStepKeepsInv | src/api/core/services/generation_run_service.py:162-207 | entering, releasing, ending and any change of rows keep every session's runs under locks it tracks |
| BatchTasks.CreateBatch | src/api/core/services/batch_orchestration_service.py:136-192 | nothing to do gives no batch; otherwise all steps pending and all counters zero |
| BatchTasks.BatchJob.ClaimNextStep | src/api/core/services/batch_orchestration_service.py:289-360 | skips and blocks in position order, takes the first remaining step, completes the batch when none is left |
| BatchTasks.BatchJob.FinalizeStep | src/api/core/services/batch_orchestration_service.py:362-396 | a running step becomes completed exactly for a completed run and failed otherwise, that one counter rises by one and every other step stays; on any other step it does nothing |
| BatchTasks.BatchJob.AttachGenerationRun | src/api/core/services/batch_orchestration_service.py:398-405 | records the run on that step only |
| BatchTasks.BatchJob.MaybeFinalizeBatch | src/api/core/services/batch_orchestration_service.py:407-418 | completes an open batch exactly when no step is pending or running |
| BatchTasks.BatchJob.ResetStepToPending | src/api/batch/tasks.py:95-100 | reopens the step and forgets its run |
| BatchTasks.BatchJob.CancelBatch | src/api/core/services/batch_orchestration_service.py:243-287 | fails running and skips pending steps with exact counters, and names exactly the runs to abandon |
| BatchTasks.ReconcileRunningStep | src/api/batch/tasks.py:217-264 | a step found running is reopened without a run, settled by a run that is over or re-executed, left alone while paused, and kept for the next call when the re-executed job raises |
| BatchTasks.SettleFromRun | src/api/batch/tasks.py:103-129 | an executed run leaves its step completed exactly if its row ended completed and the batch was not cancelled meanwhile, failed otherwise |
| BatchTasks.MaybeChainNextStep | src/api/batch/tasks.py:267-275 | chains exactly when an open batch has a pending step |
| BatchTasks.WorkLeftIsPending | src/api/batch/tasks.py:267-275 | between calls an open batch is one with a pending step, so the chain neither stops early nor runs on |
| BatchTasks.ClaimFromQuiet | src/api/core/services/batch_orchestration_service.py:304-360 | from a quiet open batch a claim takes a step or completes the batch |
| BatchTasks.RunClaimedStep | src/api/batch/tasks.py:320-381 | a conflict puts the step back as it was; a job that raises leaves it running with its run attached; anything else settles it and chains exactly if work is left |
| BatchTasks.ProcessBatch | src/api/batch/tasks.py:278-381 | without a conflict or an escaping exception each call on a quiet open batch settles at least one step; what an exception leaves running the next call can repair; the step it claims is completed exactly if its run was started and ended completed; a closed batch is left untouched |
| BatchTasks.RunChain | src/api/batch/tasks.py:267-381 | when no job raises, a chain makes at most one call per open step it settles and one per conflict, and at most (retries + 1) per open step in all; it closes the batch unless that many conflicts come in a row; without conflicts n open steps take at most n calls |
| BatchProtocol.ClaimLoopKeeps | src/api/core/services/batch_orchestration_service.py:304-360 | the claim loop keeps frontier and counters through any number of skips and blocks |
| BatchProtocol.DecideMeans | src/api/core/services/batch_orchestration_service.py:306-347 | the topics a claim skips and the topics it blocks |
| BatchProtocol.ClaimMeans | src/api/core/services/batch_orchestration_service.py:289-360 | every pending step before the one taken is skipped or failed by what its topic has, the first that is neither is taken, all others stay |
| BatchProtocol.StepMoves | src/api/core/services/batch_orchestration_service.py:243-418 | what a finalisation, an attachment, a reset and a cancel make of every step |
| BatchProtocol.CancelCounts | src/api/core/services/batch_orchestration_service.py:257-275 | the counters a cancel adds are the numbers of running and pending steps it settles |
| BatchProtocol.StepKeepsInv | src/api/core/services/batch_orchestration_service.py:243-418 | every transition keeps frontier, exact counters, and open exactly while work is left |
| BatchProtocol.InvAlways | src/api/core/services/batch_orchestration_service.py:243-418 | so does every interleaving |
| BatchProtocol.OneAtATimeInOrder | src/api/core/services/batch_orchestration_service.py:289-360 | whenever a step runs, all before it are settled and all after it are pending |
| BatchProtocol.CountersAreExact | src/api/core/services/batch_orchestration_service.py:362-418 | in every reachable state the counters count; a batch is closed exactly when they sum to its total, and then every step is settled |
| BatchProtocol.ClosedIsFrozen | src/api/core/services/batch_orchestration_service.py:243-418 | after completion or cancel nothing a late worker does changes status, steps or counters |
| BatchProtocol.SettledForEver | src/api/core/services/batch_orchestration_service.py:362-396 | a settled step keeps its status for ever |
| BatchProtocol.SettledForAReason | src/api/core/services/batch_orchestration_service.py:243-396 | over any run of events each settled step was settled by one event that explains its outcome |
| BatchProtocol.CompletedByItsRun | src/api/core/services/batch_orchestration_service.py:381-383 | in every run of a new batch a completed step was running and was finalised by a completed run |
| KeyPool.GroqKeyPool.RefreshExpiredRateLimits | src/api/utils/LLM_utils/groq_key_pool.py:35-44 | frees exactly the keys whose cool-down is over |
| KeyPool.GroqKeyPool.AcquireHealthyKey | src/api/utils/LLM_utils/groq_key_pool.py:55-69 | the first usable key from the cursor on, round the ring, and the cursor just behind it |
| KeyPool.GroqKeyPool.MarkBlocked | src/api/utils/LLM_utils/groq_key_pool.py:71-77 | blocks the first key of that alias and moves nothing else |
| KeyPool.GroqKeyPool.MarkRateLimited | src/api/utils/LLM_utils/groq_key_pool.py:79-85 | cools the first key of that alias and moves nothing else |
| KeyPool.GroqKeyPool.AllExhausted | src/api/utils/LLM_utils/groq_key_pool.py:87-91 | true exactly when no key could be handed out |
| KeyPool.GroqKeyPool.EarliestRateLimitRetryAt | src/api/utils/LLM_utils/groq_key_pool.py:93-103 | the minimum cool-down end, none without a cooling key |
| KeyPool.GroqKeyPool.AllBlocked | src/api/utils/LLM_utils/groq_key_pool.py:105-109 | true exactly when every key is blocked |
| KeyPool.ScanReaches | src/api/utils/LLM_utils/groq_key_pool.py:58-68 | the scan never passes over a usable key |
| KeyPool.AcquireMeans | src/api/utils/LLM_utils/groq_key_pool.py:55-69 | none exactly when no key is usable; otherwise the usable key nearest behind the cursor, healthy again, and the cursor just behind it |
| KeyPool.MarkedMeans | src/api/utils/LLM_utils/groq_key_pool.py:71-85 | a blocked key is never usable, a cooled key exactly from the end of its cool-down on, and no other key is touched |
| KeyPool.AcquireApproaches | src/api/utils/LLM_utils/groq_key_pool.py:55-69 | an acquire hands a usable key out or strictly shortens the cursor's distance to it |
| KeyPool.WaitIsDistance | src/api/utils/LLM_utils/groq_key_pool.py:55-69 | a key that stays usable is handed out after at most distance + 1 acquires, however the other keys are marked |
| KeyPool.BoundedWaiting | src/api/utils/LLM_utils/groq_key_pool.py:55-69 | within n acquires on a pool of n keys |
| GroqRotation.RetrySeconds | src/api/utils/LLM_utils/groq_retry.py:96-106 | the header's seconds, at least one, and 60 without a header |
| GroqRotation.RetireKey | src/api/utils/LLM_utils/groq_retry.py:223-349 | marking the key in use as blocked or cooling takes exactly one usable key away |
| GroqRotation.AcquireKeepsUsable | src/api/utils/LLM_utils/groq_retry.py:223-249 | an acquire changes no key's usability and fails exactly when none is usable |
| GroqRotation.SomeKeyIsCooling | src/api/utils/LLM_utils/groq_retry.py:226-249 | with no usable key and not all blocked, there is a retry time and it lies ahead |
| GroqRotation.TryKey | src/api/utils/LLM_utils/groq_retry.py:251-349 | the attempts with one key, any number configured: all answers but the last are infrastructure failures; the last gives the result, or blocks the key, or cools it for the header's seconds; with none configured nothing happens |
| GroqRotation.LoopReturnsExactlyWhen | src/api/utils/LLM_utils/groq_retry.py:225-349 | for every pool, provider and configured number of attempts the loop returns if and only if that number is positive or no key is usable |
| GroqRotation.NoAttemptsNeverReturns | src/api/utils/LLM_utils/groq_retry.py:225-274 | with one healthy key and no attempts configured the loop never returns |
| GroqRotation.LoopTurnRetires | src/api/utils/LLM_utils/groq_retry.py:225-349 | a turn that goes on takes exactly one usable key away, or none when nothing is to be attempted |
| GroqRotation.TakeTurn | src/api/utils/LLM_utils/groq_retry.py:225-349 | one turn of the code is one turn of that loop: it returns a report or retires the key it tried |
| GroqRotation.CallReportsMean | src/api/utils/LLM_utils/groq_retry.py:274-349 | the result of a call told by its last answer, an infrastructure error only after that many failures in a row |
| GroqRotation.CallGroqWithRotation | src/api/utils/LLM_utils/groq_retry.py:204-349 | wherever the loop returns, it does so within usable keys times attempts provider calls; every answer but the last asked for another try; pool exhaustion is the result exactly when all keys are blocked, a pool report exactly when none is usable, and its retry time is the minimum cool-down end |
| GroqRotation.ReportPool | src/api/utils/LLM_utils/groq_retry.py:226-249 | which of the two pool reports is given, and its retry time |
| TopicForest.CollectDescendantIds | src/api/utils/trainee_progress_utils/learning_units.py:18-31 | ends on every forest and lists each strict descendant once and nothing else |
| TopicForest.DescendantCollector.Visit | src/api/utils/trainee_progress_utils/learning_units.py:25-28 | the nested walk appends the subtree in preorder |
| TopicForest.DescendantsExact | src/api/utils/trainee_progress_utils/learning_units.py:18-31 | the preorder has no repeats and holds exactly the nodes whose parent chain meets the root |
| TopicForest.OneBranch | src/api/utils/trainee_progress_utils/learning_units.py:18-31 | subtrees of different siblings are disjoint |
| Completion.ComputeProgressPercentage | src/api/utils/trainee_progress_utils/completion.py:27-36 | 0, 50 or 100: 100 exactly for a complete unit, 50 exactly when there is a quiz and one of reading and quiz is done |
| Completion.ComputeCompletionStatus | src/api/utils/trainee_progress_utils/completion.py:39-66 | completed exactly with the reading done and any quiz passed; not started exactly without that, reading or an attempt |
| Completion.SnapshotFromRow | src/api/utils/trainee_progress_utils/unlocking.py:167-192 | status and percentage of a snapshot never disagree about completion |
| LearningUnits.CountLearningUnits | src/api/utils/trainee_progress_utils/learning_units.py:34-44 | the number of published nodes in the subtree |
| LearningUnits.HasAccessibleLearningContent | src/api/utils/trainee_progress_utils/learning_units.py:47-53 | true exactly when some node of the subtree is published |
| LearningUnits.SumSubtreeProgressPercentage | src/api/utils/trainee_progress_utils/learning_units.py:82-107 | the sum over the published nodes that have a snapshot |
| LearningUnits.CountCompletedLearningUnits | src/api/utils/trainee_progress_utils/learning_units.py:110-136 | the number of published nodes of the subtree that are complete |
| LearningUnits.SumIsExact | src/api/utils/trainee_progress_utils/learning_units.py:82-107 | the sum is 100 per complete unit and 50 per half-done one |
| LearningUnits.RollupBounds | src/api/utils/trainee_progress_utils/learning_units.py:82-136 | for snapshots derived with one quiz set and a count given another: sum <= 100 units, reached exactly when every unit is complete as its snapshot saw it, zero exactly when none is begun, and 100 completed <= sum when the count sees every quiz of the subtree that the snapshots saw |
| LearningUnits.LowerBoundExactlyWhen | src/api/utils/trainee_progress_utils/learning_units.py:110-136 | 100 completed <= sum for every trainee's progress if and only if the count is given every quiz of the subtree that the snapshots were derived with |
| LearningUnits.ReadNodeCountedWithoutItsQuiz | src/api/utils/trainee_progress_utils/learning_units.py:116-119 | a read node counted without its quiz is one completed unit that contributes 50 |
| LearningUnits.DefaultCountBreaksTheBound | src/api/utils/trainee_progress_utils/learning_units.py:116-119 | with the default empty quiz set one node already breaks the bound |
| Unlocking.ResolveNodeAccess | src/api/utils/trainee_progress_utils/unlocking.py:108-150 | the access decision, branch by branch in the product's order |
| Unlocking.AccessFor | src/api/utils/trainee_progress_utils/unlocking.py:108-150 | locked exactly behind a published parent that is not complete, without a grant, with content below |
| Unlocking.AccessMeans | src/api/utils/trainee_progress_utils/unlocking.py:108-150 | the same in the words of the tables: published material below, the parent's own, a grant, the parent's row and quiz |
| Unlocking.GrantsMove | src/api/utils/trainee_progress_utils/unlocking.py:332-513 | which grants exist after each step, both ways, and what a new one records |
| Unlocking.LiveContextDecides | src/api/utils/trainee_progress_utils/unlocking.py:108-150 | deciding on a loaded context that covers the node and its parent is deciding on the tables |
| Unlocking.GrantIsDurable | src/api/utils/trainee_progress_utils/unlocking.py:426-440 | no progress reset, quiz change, publication change or reshaping removes or rewrites a grant |
| Unlocking.GrantedIsNeverLocked | src/api/utils/trainee_progress_utils/unlocking.py:132-134 | a granted node is open whenever it has content |
| Unlocking.AccessIsSticky | src/api/utils/trainee_progress_utils/unlocking.py:378-423 | let through a published parent once, a trainee is never locked out of that node again until its grants are cleared |
| Unlocking.CompletionOpensChildren | src/api/utils/trainee_progress_utils/unlocking.py:332-358 | the same for every eligible child when a completion is processed |
| Unlocking.OpenWritesExactlyWhen | src/api/utils/trainee_progress_utils/unlocking.py:392-423 | opening writes exactly when it lets somebody through a gate without a grant |
| Unlocking.NewGrantIsEarned | src/api/utils/trainee_progress_utils/unlocking.py:312-329 | whatever step writes a grant, its gate was the parent and complete at that moment |
| Unlocking.GrantsAreEarned | src/api/utils/trainee_progress_utils/unlocking.py:312-505 | in every run from no grants, each grant was earned through its recorded gate at some earlier moment |
| Unlocking.PublicationKeepsEagerGrantsExactlyWhen | src/api/utils/trainee_progress_utils/unlocking.py:481-505 | with every eligible child of a gate granted, publishing a node keeps it so if and only if the node is a direct child of that published gate, or each child of the gate that it newly opens is already granted to all who finished the gate |
| Unlocking.LatePublishedGrandchildCanRelock | src/api/utils/trainee_progress_utils/unlocking.py:481-505 | a concrete run in which all grants were in place, a late grandchild opens a node without one, and a reset locks it |
| UnlockGrants.UnlockStore.GrantUnlock | src/api/data/repositories/progress_repositories/trainee_node_unlock_repository.py:47-74 | inserts once and says whether it did |
| UnlockGrants.UnlockStore.EligibleChildrenForUnlock | src/api/utils/trainee_progress_utils/unlocking.py:153-164 | each direct child with content below it, once |
| UnlockGrants.UnlockStore.BatchGrantChildren | src/api/utils/trainee_progress_utils/unlocking.py:332-358 | adds exactly the missing grants of the eligible children and returns exactly those |
| UnlockGrants.UnlockStore.GrantUnlocksAfterNodeCompleted | src/api/utils/trainee_progress_utils/unlocking.py:361-375 | the completion step of the run theorems |
| UnlockGrants.UnlockStore.BuildUnlockProgressContext | src/api/utils/trainee_progress_utils/unlocking.py:227-264 | loads exactly the rows, quiz flags and grants of the ids it was asked for |
| UnlockGrants.UnlockStore.ResolveNodeAccessWithGrant | src/api/utils/trainee_progress_utils/unlocking.py:378-423 | always the pure decision; writes only through a gate the context shows complete |
| UnlockGrants.UnlockStore.AssertTraineeNodeUnlocked | src/api/utils/trainee_progress_utils/unlocking.py:267-309 | the two-row context it loads is enough: answer and grant follow the tables |
| UnlockGrants.UnlockStore.GrantUnlocksForCompletedTrainees | src/api/utils/trainee_progress_utils/unlocking.py:426-478 | grants for every trainee who completes the node now, in any row order, and counts those trainees |
| UnlockGrants.UnlockStore.GrantUnlocksAfterChildContentPublished | src/api/utils/trainee_progress_utils/unlocking.py:481-505 | regrants below the node's own published parent, otherwise nothing |
| UnlockGrants.UnlockStore.ClearUnlocksForReparentedNode | src/api/utils/trainee_progress_utils/unlocking.py:508-513 | removes that node's grants for all trainees, no other, and counts them |
| StudyGraph.EntersPreparation | src/api/control/study_agent/graph/graph.py:81-157 | when a live run enters each node before generation, both ways, read from the raw keys |
| StudyGraph.EntersGeneration | src/api/control/study_agent/graph/graph.py:112-185 | the same for the generator: at first, over a malformed or missing document, or after a failed check |
| StudyGraph.EntersCheck | src/api/control/study_agent/graph/resume_router.py:40-63 | a document goes to its quality check, and a check that failed on infrastructure is repeated; nothing else is checked |
| StudyGraph.Ends | src/api/control/study_agent/graph/graph.py:81-185 | a run ends exactly on a failure flag, a final verdict or an outcome that is no document |
| StudyGraph.ResumeMeans | src/api/control/study_agent/graph/resume_router.py:136-167 | where a resume goes on behind each checkpoint up to generation |
| StudyGraph.ResumeAfterCheckMeans | src/api/control/study_agent/graph/resume_router.py:169-183 | where it goes on behind a quality check |
| StudyGraph.ResumeTakesForwardEdge | src/api/control/study_agent/graph/resume_router.py:136-183 | for every node and state, the resume router takes the forward edge if and only if the stated guards hold |
| StudyGraph.PassedDocumentIsCheckedAgain | src/api/control/study_agent/graph/resume_router.py:169-181 | a run resumed after a passed check runs the check again, where the forward edge ends |
| StudyGraph.HydrateCheckpointState | src/api/control/study_agent/graph/resume_router.py:186-220 | both filling loops in order, with or without a last node, and the resume keys set |
| StudyGraph.FillAllMeaning | src/api/control/study_agent/graph/resume_router.py:193-216 | the checkpoint wins over the request, and of the parameters for one key the first that is supplied |
| StudyGraph.HydrateFills | src/api/control/study_agent/graph/resume_router.py:193-216 | what each key holds after hydration when the checkpoint lacks it: the regeneration goal before the feedback, an empty node id left out, an absent parameter left out |
| StudyGraph.HydrateKeeps | src/api/control/study_agent/graph/resume_router.py:193-220 | what the checkpoint holds stays, the resume keys are set, nothing else appears |
| StudyGraph.HydratedFromNothing | src/api/control/study_agent/graph/resume_router.py:142-143 | an empty checkpoint hydrated from the request starts at `resolver` with no failure on record |
| StudyGraph.HydratedEntersAtResumeEdge | src/api/control/study_agent/graph/graph.py:57-78 | a hydrated checkpoint enters the graph at its resume edge with its data unchanged |
| StudyGraph.SameDataRoutesSame | src/api/control/study_agent/graph/graph.py:81-185 | no edge reads what hydration writes |
| GraphRuns.EdgeKeepsClean | src/api/control/study_agent/graph/graph.py:81-157 | following an edge before generation keeps the failure flags clean |
| GraphRuns.CheckpointsAgree | src/api/utils/generation_progress/graph_runner.py:15-28 | wherever a node succeeded, other than in `quality_check`, the two routers agree |
| GraphRuns.ResumeEntersWalk | src/api/control/study_agent/graph/resume_router.py:136-167 | a resume enters exactly where the checkpointed walk would have gone on |
| GraphRuns.InvAlways | src/api/utils/generation_progress/graph_runner.py:75-97 | the walk invariant holds after any mix of node runs, lost checkpoints, crashes and resumes |
| GraphRuns.CrashesFollowForwardGraph | src/api/utils/generation_progress/graph_runner.py:75-97 | however often a run crashes and is resumed or rerun, its history is one walk of the forward graph from `resolver`, each node on the data the one before left, begun on the fresh request or on its parameters alone |
| GraphRuns.DocumentIsChecked | src/api/control/study_agent/graph/resume_router.py:44-49 | in every walk a generator visit that left a study document and no failure flag is followed by the quality check |
| GraphRuns.EndIsEarned | src/api/control/study_agent/graph/graph.py:166-185 | a walk at its end without a failure flag ends behind a check that passed or failed for good, or behind an outcome that is no document |
| GraphRuns.FinishedRunWasChecked | src/api/utils/generation_progress/graph_runner.py:75-97 | so does every run that has finished, however often it crashed and was resumed |
| GraphRuns.ResumeKeepsPrefix | src/api/utils/generation_progress/graph_runner.py:75-97 | a covered resume keeps exactly the checkpointed visits and goes on along the forward edge behind the last of them |
| GraphRuns.RunOneMeans | src/api/utils/generation_progress/graph_runner.py:79-95 | a visit is checkpointed exactly if its node returned a dictionary without a failure flag on a running row |
| GraphRuns.RunRow.InvokeGraphWithProgress | src/api/utils/generation_progress/graph_runner.py:44-115 | the stream loop's checkpoint columns, its ending and final state are those of the fold of its updates; a node that raises fails the row if it is still running |
| GraphRuns.PlayMeans | src/api/utils/generation_progress/graph_runner.py:75-110 | the updates consumed are the visits added, in order, and what stopped the invocation is the chunk behind them |
| GraphRuns.PlaySaves | src/api/utils/generation_progress/graph_runner.py:88-95 | the checkpoint it leaves is that of the last successful visit on a running row |
| GraphRuns.PlayKeepsInv | src/api/utils/generation_progress/graph_runner.py:75-97 | a whole invocation leaves a checkpoint from which the walk can go on |
| Hints.HintQualityIssue | src/api/control/hint_agent/nodes/hint_nodes.py:345-357 | no issue exactly for three strings that are not blank and hold no banned phrase in any case, the first stripped no longer than the third |
| Hints.LeaksAnswerMeans | src/api/control/hint_agent/nodes/hint_nodes.py:345-352 | a hint leaks exactly if, lower-cased, one of the two banned phrases stands somewhere in it |
| Hints.FirstGoodMeaning | src/api/control/hint_agent/nodes/hint_nodes.py:456-492 | a question gets a hint exactly when some candidate within the budget is good |
| Hints.FirstGoodIsFirst | src/api/control/hint_agent/nodes/hint_nodes.py:456-492 | the hint found is that of the first attempt with a good one |
| Hints.SettleQuestion | src/api/control/hint_agent/nodes/hint_nodes.py:447-492 | the first good candidate wins, and a question is given up only after every candidate was bad; at most `hint_quality_max_retries` regenerations |
| Hints.IndexByQuestion | src/api/control/hint_agent/nodes/hint_nodes.py:434-442 | refused exactly for a repeated question id |
| Hints.SelectQuestions | src/api/control/hint_agent/nodes/hint_nodes.py:426-432 | previously failed questions, else those without a hint |
| Hints.SelectedMeaning | src/api/control/hint_agent/nodes/hint_nodes.py:426-432 | membership in the selection, both ways |
| Hints.SelectedAppend | src/api/control/hint_agent/nodes/hint_nodes.py:426-432 | the selection keeps order and number of the questions |
| Hints.BatchHintMeans | src/api/control/hint_agent/nodes/hint_nodes.py:434-442 | the batch's hint for a question is the one parsed under its id |
| Hints.SettleAllMeaning | src/api/control/hint_agent/nodes/hint_nodes.py:444-511 | each selected question is written or failed by its own candidates alone; all else stays |
| Hints.NewHintsAreGood | src/api/control/hint_agent/nodes/hint_nodes.py:457-477 | each newly written hint passes the quality rule |
| Hints.ValidatedAreNew | src/api/control/hint_agent/nodes/hint_nodes.py:457-477 | the validated list holds exactly the hints that are new |
| Hints.HintRepository.ValidateHintQuality | src/api/control/hint_agent/nodes/hint_nodes.py:409-521 | the returned state and the staged rows are exactly the settled questions; regenerations bounded by questions times retries |
| Hints.HintRepository.PersistHints | src/api/control/hint_agent/nodes/hint_nodes.py:524-575 | everything staged is committed, nothing is written without a hint |
| Hints.RoundCovers | src/api/control/hint_agent/nodes/hint_nodes.py:409-521 | after a run every question is in exactly one of written and failed; hints are kept; after a covering run nothing new fails |
| Hints.RoundCoversExactlyWhen | src/api/control/hint_agent/nodes/hint_nodes.py:454-456 | the cover holds if and only if the retry setting is not negative or nothing was selected |
| Hints.NegativeSettingLosesTheQuestion | src/api/control/hint_agent/nodes/hint_nodes.py:454-456 | with the setting -1 a question without a hint is neither written nor failed |
| Hints.ResumesCover | src/api/control/hint_agent/nodes/hint_nodes.py:426-432 | over any number of resumes, refused batches among them, no question and no hint is lost and the failed set never grows |
| Hints.FailedMeansNoGoodCandidate | src/api/control/hint_agent/nodes/hint_nodes.py:479-488 | a failed question had no good candidate within its budget |

## Left out

- HTTP routes, schemas, authentication, object storage and media tokens.
- Prompts and foreign calls (Groq, Tavily, YouTube, LlamaCloud): their answers are inputs.
- LangGraph internals, among them whether the resume keys survive its channels.
- RunProtocol.LateResumeWriteKeepsOneActive: says when the late write is safe; the coordinator lock that narrows the window is not modelled.
- GenerationRuns.GenerationRunService.AbandonRun: discarding the artifacts of an abandoned study-material run is not modelled.
- GenerationRuns.GenerationRunService.ResumeRun: taken as one transaction; the visible progress position it then projects is not modelled.
- GenerationRuns.GenerationRunService.StartRun: the coordinator lock is the one-transaction assumption, and the progress store is not modelled.
- WorkerProtocol.OneWorkerPerSlot: a session that has released its slot's lock counts as having left its runs, also where its code still has to return.
- WorkerEntry.AcquireLockForRun: back-off sleeps are interference by other sessions of unbounded length.
- BatchTasks.RunChain: claims no bound with exceptions that escape a job; how the queue counts the `retry=3` of `process_batch` is a parameter.
- GroqRotation.CallGroqWithRotation: requires exactly what `LoopReturnsExactlyWhen` shows to be needed for the loop to return; back-off sleeps and provider metadata are left out.
- Chunking.SplitIntoChunks: fewest chunks is claimed among packings of whole segments; where a segment must be hard-split, per stretch between hard splits (`PackStretchIsFewest`) and per segment (`HardSplitSegment`).
- Unlocking.AccessIsSticky: one request is one step on live tables; a panel that reuses one loaded context for several nodes is covered by `ResolveNodeAccessWithGrant` alone.
- Unlocking.GrantsAreEarned: supposes that the batch grant is only called for a trainee who has just completed the node, as its callers do.
- UnlockGrants.UnlockStore.ClearUnlocksForReparentedNode: nothing in the repository calls it; the run theorems treat it as a step that may happen at any time.
- GraphRuns.CrashesFollowForwardGraph: a crash right after a `quality_check` checkpoint is covered only where the routers agree; elsewhere the code leaves the forward walk.
- StudyGraph.HydrateCheckpointState: the coercion of ids and of the retry time, which changes no truth value, is not modelled.
- GraphRuns.RunRow.InvokeGraphWithProgress: the re-invocation after an empty stream is left out; the entry node always yields a chunk.
- Hints.HintQualityIssue: lower-casing is modelled for ASCII letters.
- Hints.HintRepository.PersistHints: quiz diagnostics and timestamps are not modelled; a quiz published meanwhile, which raises, is not either.
- Lifecycle predicates, panel labels, quality-check response projection and unlock messages: finite case tables.
