# Verified model of the data-processing backend

A Dafny model of the parts of the backend whose correctness is hardest to see by reading: the
static analysis that decides whether a regular expression is safe to run, the life of a job under
concurrent workers and cancel calls, the two kinds of paging, the progress tracker, the replacement
escaper and validator, and the cache of language-model answers. Everything is proved for all
inputs, all runs or all reachable states; where the code does less than its documentation says, a
concrete counterexample is proved beside the property that does hold.

`dafny verify dfyconfig.toml` checks the whole project.

## How it is organised

**The regex analyser** (`CharSets`, `RegexTree`, `RegexAnalysis`, `RegexLoops`, `RegexSoundness`,
`RegexPrecision`, `RegexCaptures`, `RegexRisk`, `RegexParses`, `RegexLimits`). `RegexTree` gives the parse tree of a pattern a language
of words, independent of the analysis. `RegexAnalysis` holds the analysis as functions,
`RegexLoops` the code's loops, proved equal to them. The theorems then relate analysis and language:
which characters a match can hold, start with, or do without; at most one alternative matches at any
place; a repeated group that is accepted has a separator in every iteration; and, for two families of
bodies, every text is cut into iterations in at most one way. `RegexCaptures` adds what groups have
captured, for the one question in which backreferences matter: whether a match can be empty.
`RegexPrecision` says exactly what is refused, and, where the analysis approximates nothing, that its
sets and its verdicts on overlap and separation are exact.

Character categories are a parameter (`CharTable`): any table in which digits are word characters
and no word character is a space, which is all that `overlaps` relies on.

**The job protocol** (`JobRow`, `JobProtocol`, `JobSafety`, `JobLiveness`, `JobCancellation`,
`JobStaleness`, `JobApplied`, `JobGeneration`, `JobRaces`, `JobFate`, `JobWorker`). `JobRow` is the row and its conditional
updates, as a class. `JobProtocol` is a state machine: any number of attempts, progress writers,
crashes, redeliveries and cancel calls, interleaved one query at a time; every step can raise, inside
the `try` block and outside it. `JobSafety` proves what every run keeps, `JobLiveness` how
crash-free runs end, `JobCancellation` what a cancel request can still achieve, `JobStaleness` when
saved work is reused and when a finished row is final, `JobApplied` when it is what every attempt
applies, `JobGeneration` that attempts that do not
overlap are never stale. `JobRaces` holds concrete runs. `JobFate` tells, from the outside world's
answers alone, what one attempt makes of a row. `JobWorker` is the task and the cancel call as
statements over the row; each is proved to be a run of the protocol, and the task to meet its fate.

**Paging** (`FileListing`, `ResultPages`). Following the cursors of `list_files` against any server
that makes progress reproduces the filtered listing. The two-query read of a result page equals the
plain slice of the ordered table, and the pages together show the source rows in order.

**Progress** (`Progress`). The tracker and the monitor as classes; what they emit under any sequence
of calls from the two threads (the tracker's lock makes each call atomic).

**Replacements** (`Replacements`). Java's replacement interpreter, the escaper and the validator.

**The cache** (`CacheKeys`, `LlmCache`). Which requests share a key, and what workers that share the
cache can store and find.

## Where the code and its documentation differ

The model follows the code.

- The module comment of `regex_safety.py` (lines 8-10) says that a pattern that can match empty text
  is refused. A backreference is taken to consume something, so `(a?)\1` is accepted and matches
  empty text (`BackreferenceMatchesEmpty`). `EmptyTextExactly` computes which patterns can, for all
  patterns without assertions; `EmptyTextNeeds` gives a necessary condition for the others, which is
  not sufficient (`UnsetNeverEmpty`, `SeenNeverEmpty`). A pattern without backreferences cannot
  (`AcceptedNeverMatchesEmpty`).
- The same comment says that repeated groups whose contents can be split ambiguously are refused.
  `(?:c+dc+)+` is accepted and has a text with two parses (`AcceptedButAmbiguous`). `UniqueParse`
  proves the claim for two families of bodies and makes none about others.
- `_resolve_pattern` says that a retried job never calls the language model twice. A redelivered
  attempt that starts while the first is still asking does, and one of the two applies a pattern that
  the row does not keep (`JobRaces.OverlapAsksTwice`). `ReusedExactly` and `AppliedExactly` say when
  the work is kept, and when it is what every attempt applies: exactly when no attempt is stale, and
  for the latter all are aligned with the row. Attempts that do not overlap until the work is saved
  are neither stale nor out of line (`SavedWorkIsReused`).
- A terminal status is final (`models.py`, lines 24-31), but the row is not: a pattern or
  specification is saved whatever the status, so that a late attempt can change a finished job as the
  API shows it (`SavedAfterTheEnd`). `FrozenExactly` says when none can.
- `cancel_job` refuses only finished jobs (`RefusedIffFinished`). A refused call can nevertheless be
  the one that cancelled the job (`RefusedYetCancelled`); it has left a request exactly when its
  flagging step found the job running and unflagged (`RefusedHasWritten`). A call that returned does
  not promise a cancelled job (`ReturnedYetSucceeded`); `SucceedsExactly` and `CancelledExactly` say
  which attempts decide it.
- `_handle_failure` records why a job failed, unless it raises itself: `cancelJobGroup` is called
  unguarded after a timeout, and a job whose call raises stays RUNNING without a worker
  (`LeftRunning`). `CrashFreeRunsEnd` says that without crashes a job is left unfinished exactly when
  an exception has left the task.
- The cache's comment says that identical inputs reach the model once. Two overlapping requests both
  reach it (`LlmCache.OverlapAsksTwice`). While the cache can be reached and the entry is spared,
  nobody asks again exactly when the key is cached and nobody is asking (`NeverAskedExactly`), and
  every request gets the cached answer exactly when moreover nobody holds another (`OneAnswerExactly`).
- The monitor is said to cancel the group once a cancel is requested (`progress.py`, lines 87-88). It
  sets its flag before it calls `cancelJobGroup`, so a call that raises is never repeated
  (`LostCancel`). The group is stopped exactly when the call goes through at the first tick that finds
  a request (`StoppedExactly`).

## Model

| member | source | states |
|---|---|---|
| CharSets.UnionDenotes | backend/processing/regex_safety.py:131-136 | a union denotes exactly the characters of its two parts |
| CharSets.OverlapsExact | backend/processing/regex_safety.py:138-151 | two sets overlap if and only if some character belongs to both, for any table with digits inside words and words apart from spaces |
| RegexLoops.CollectClass | backend/processing/regex_safety.py:173-190 | the loop over a class gives the set specified for it, whatever the order of its items |
| RegexLoops.CollectConsumed | backend/processing/regex_safety.py:213-227 | the loop, with its recursive calls, gives the specified set of consumable characters |
| RegexLoops.CollectConsumedByAny | backend/processing/regex_safety.py:225-226 | the same over the alternatives of a branch |
| RegexLoops.CollectFirst | backend/processing/regex_safety.py:246-261 | the loop with its early exit gives the specified first-set |
| RegexLoops.Unwrap | backend/processing/regex_safety.py:276-279 | peels every group around a single item and stops at something that is not one |
| RegexLoops.SearchBody | backend/processing/regex_safety.py:297-316 | the loop over a repeated body finds the specified first risk |
| RegexLoops.Search | backend/processing/regex_safety.py:282-294 | the depth-first search with its early returns ends and finds the specified first risk |
| RegexSoundness.ClassCharSetCovers | backend/processing/regex_safety.py:173-190 | every character a class matches, negated or not, is in its set |
| RegexSoundness.ConsumedCovers | backend/processing/regex_safety.py:213-227 | every character of every word of a sequence is in its consumed set |
| RegexSoundness.NullableMatchesEmpty | backend/processing/regex_safety.py:230-243 | a sequence called nullable matches the empty word |
| RegexSoundness.NullableExact | backend/processing/regex_safety.py:230-243 | without backreferences, nullable if and only if the empty word is in the language |
| RegexSoundness.EmptyMatchSeen | backend/processing/regex_safety.py:230-261 | an empty match that is missed comes from a backreference, and the first-set is then universal |
| RegexSoundness.EmptyMatchCanBe | backend/processing/regex_safety.py:230-243 | a sequence that matches the empty word consists of elements that are nullable once backreferences count as such |
| RegexSoundness.CanBeEmptyMatches | backend/processing/regex_safety.py:230-243 | the converse of the previous row |
| RegexSoundness.FirstSound | backend/processing/regex_safety.py:246-261 | the first character of every non-empty word is in the first-set |
| RegexSoundness.AtMostOneAlternative | backend/processing/regex_safety.py:319-324 | when no overlap is reported, two matches at one place of any text are matches of the same alternative |
| RegexSoundness.AcceptedNeverMatchesEmpty | backend/processing/regex_safety.py:85-101 | every match of an accepted pattern without backreferences consumes a character |
| RegexCaptures.CapturesErase | backend/processing/regex_safety.py:196-243 | every word matched with captures is in the language the analysis is proved against, so that it over-approximates what an engine matches |
| RegexCaptures.EmptyTextNeeds | backend/processing/regex_safety.py:85-94 | a pattern with an empty match is nullable once backreferences count as such; an accepted one has a backreference |
| RegexCaptures.EmptyTextExactly | backend/processing/regex_safety.py:85-94 | without assertions: an empty match exists if and only if the computed sets of groups it can capture are not empty; an accepted pattern among them has a backreference |
| RegexCaptures.EmptyMatchEnds | backend/processing/regex_safety.py:230-243 | every empty match of a pattern without assertions captures, as empty words, one of the computed sets of groups |
| RegexCaptures.EndsAreMatched | backend/processing/regex_safety.py:230-243 | each computed set is captured by some empty match |
| RegexCaptures.BackreferenceMatchesEmpty | backend/processing/regex_safety.py:230-243 | `(c?)\1` is accepted and has an empty match, its group and its copy being empty |
| RegexCaptures.UnsetNeverEmpty | backend/processing/regex_safety.py:230-243 | a branch of `(c)` and `\1` is accepted and nullable but for its backreference, and has no empty match |
| RegexCaptures.SeenNeverEmpty | backend/processing/regex_safety.py:230-243 | the same for `(?=(c))\1`, whose reference repeats what the assertion saw |
| RegexRisk.SearchExact | backend/processing/regex_safety.py:282-294 | the search accepts if and only if every wide repeat reachable without entering an atomic or possessive element has a risk-free unwrapped body |
| RegexPrecision.NestedExactly | backend/processing/regex_safety.py:268-273 | a part counts as holding a backtracking repeat if and only if a repeat of more than one iteration can be reached in it without entering an atomic or possessive element |
| RegexPrecision.WideExactly | backend/processing/regex_safety.py:264-265 | a repeat counts as wide if and only if it allows more than ten iterations |
| RegexPrecision.AcceptedExactly | backend/processing/regex_safety.py:85-101 | a pattern passes the structural checks if and only if it is not nullable and, in every reachable repeat of more than ten iterations, the unwrapped body is not nullable, no branch overlaps, and each part with a nested backtracking repeat is separated by another part |
| RegexPrecision.NestedIsRefused | backend/processing/regex_safety.py:304-315 | a backtracking repeat at any depth of a part that no other part separates is refused |
| RegexPrecision.RiskNamed | backend/processing/regex_safety.py:297-316 | the risk that is reported is one that the body has, empty iterations first |
| RegexPrecision.GivesUpExactly | backend/processing/regex_safety.py:173-190 | the set of a class is universal if and only if the class is negated, has an unnamed category or a range of more than 257 characters |
| RegexPrecision.FirstExactly | backend/processing/regex_safety.py:246-261 | on elements the analysis does not approximate, the first-set is exactly the first characters of the words |
| RegexPrecision.ConsumedExactly | backend/processing/regex_safety.py:213-227 | there, the consumed set is exactly the characters of the words |
| RegexPrecision.BranchesOverlapExactly | backend/processing/regex_safety.py:319-324 | there, an overlap is reported if and only if an alternative matches empty text or two different alternatives have words with the same first character |
| RegexPrecision.SeparatesExactly | backend/processing/regex_safety.py:308-313 | there, a part separates another if and only if it matches no empty text and their words share no character |
| RegexRisk.AcceptanceInherited | backend/processing/regex_safety.py:282-294 | an accepted pattern passes its acceptance on to every sub-sequence the search visits |
| RegexRisk.UnwrapKeepsLanguage | backend/processing/regex_safety.py:276-279 | unwrapping groups changes no word of the language |
| RegexRisk.AcceptedBody | backend/processing/regex_safety.py:297-316 | in an accepted pattern the body of a wide repeat is not nullable and none of its parts carries a risk |
| RegexRisk.SolidPart | backend/processing/regex_safety.py:308-313 | a part that is not nullable and not universal matches no empty word, even with backreferences inside |
| RegexRisk.SeparatorWord | backend/processing/regex_safety.py:308-313 | each word of a separator is non-empty and has no character in common with the part it separates |
| RegexRisk.SeparatorBound | backend/processing/regex_safety.py:304-315 | k iterations of an accepted wide repeat hold at least k characters that a part with a backtracking quantifier cannot consume |
| RegexRisk.NoIterationInsideARun | backend/processing/regex_safety.py:304-315 | a run of characters such a part could consume contains no whole iteration |
| RegexParses.ParsesAreTheLanguage | backend/processing/regex_safety.py:282-316 | a word is k iterations of a body if and only if it has a parse of length k |
| RegexParses.UniquePartsParse | backend/processing/regex_safety.py:301-324 | in an accepted wide repeat of any number of parts, each of fixed width, a branch of alternatives of fixed width, or separated from what it can consume by the part that follows, two parses of one text agree in every iteration and cut |
| RegexParses.OneAlternative | backend/processing/regex_safety.py:302-324 | in every accepted wide repeat, the word of a branch in an iteration is matched by one alternative and no other |
| RegexParses.UniquePairParse | backend/processing/regex_safety.py:301-316 | the same uniqueness for a body of two non-nullable parts of which one holds a backtracking quantifier |
| RegexParses.RunsAreDecidable | backend/processing/regex_safety.py:301-316 | two parts that are each one character or a repeat of one with a minimum of at least one are of one of the two kinds |
| RegexParses.UniqueParse | backend/processing/regex_safety.py:282-324 | every text of a repeat of one of the two kinds has exactly one parse, hence one number of iterations, and one alternative for each branch |
| RegexLimits.AcceptedButAmbiguous | backend/processing/regex_safety.py:297-316 | `(?:c+dc+)+` is accepted, yet "cdcccdc" has two different parses |
| RegexLimits.RiskHasACause | backend/processing/regex_safety.py:282-294 | a reported risk is the risk of the body of some wide repeat the search visits |
| RegexLimits.EmptyIterationIsReal | backend/processing/regex_safety.py:297-299 | when the risk is an empty iteration, empty text really is any number of iterations |
| JobRow.JobRecord.constructor | backend/apps/jobs/services.py:43-53 | a new job is queued, at 0 percent of no stage, with its description and pattern and nothing else: no result, error, time or cancel request |
| JobRow.JobRecord.Transition | backend/apps/jobs/models.py:41-62 | moves the status and sets the given fields if the current status allows, and otherwise changes nothing and says so |
| JobRow.MovesExactly | backend/apps/jobs/models.py:27-62 | a move takes place if and only if it does not lead to QUEUED or out of a terminal status, success comes from RUNNING, and the narrowed sources allow it; otherwise the row stays as it is |
| JobRow.JobRecord.Set | backend/apps/jobs/models.py:59-61 | sets each given field and no other |
| JobRow.JobRecord.UpdateProgress | backend/apps/jobs/models.py:64-67 | changes stage and percentage of a running job only |
| JobRow.JobRecord.FlagCancel | backend/apps/jobs/models.py:71-74 | flags a running job, keeping an earlier request |
| JobRow.JobRecord.RequestCancel | backend/apps/jobs/models.py:69-77 | undisturbed, answers whether the job is running |
| JobRow.JobRecord.IsCancelRequested | backend/apps/jobs/models.py:79-80 | answers whether a request is recorded |
| JobRow.JobRecord.SavePattern | backend/apps/jobs/tasks.py:143-147 | stores the generated pattern and changes nothing else |
| JobRow.JobRecord.SaveSpec | backend/apps/jobs/transform_builders.py:88-92 | stores the generated specification and changes nothing else |
| JobSafety.StepKeeps | backend/apps/jobs/models.py:27-80 | every step of every actor keeps the invariant and undoes nothing that is settled |
| JobSafety.RunKeeps | backend/apps/jobs/models.py:27-80 | so does every run |
| JobSafety.ReachableIsConsistent | backend/apps/jobs/models.py:27-67 | in every reachable state: 100 percent, result path and counts exactly on success, error code exactly on failure, finish time exactly when terminal, the code CANCELLED only with a request, no request while queued, and at most one terminal transition ever |
| JobSafety.FinishedIsFrozen | backend/apps/jobs/models.py:27-62 | once a job is finished, no run changes its status, progress, results, error, times or cancel request |
| JobStaleness.FrozenExactly | backend/apps/jobs/tasks.py:132-148 | every run leaves the whole row of a finished job as it is, if and only if no attempt can still ask for, or save, a pattern or specification |
| JobSafety.ServedResultsStay | backend/apps/jobs/services.py:125-129 | results are served exactly when there is a path to read, with the recorded row count, and every later request reads the same |
| JobSafety.RefusedIffFinished | backend/apps/jobs/services.py:96-112 | the final query of a cancel call refuses if and only if the job is finished then, under every interleaving |
| JobSafety.ReturnedIsFlaggedForEver | backend/apps/jobs/services.py:96-112 | a cancel call that returned has left a request that no later step removes or changes |
| JobSafety.QueuedCancelIsFinal | backend/apps/jobs/services.py:96-108 | a cancel call on a queued job fails it at once, and no attempt ever starts it |
| JobSafety.FlaggedAttemptDoesNothing | backend/apps/jobs/tasks.py:74-99 | an attempt that starts after the request reaches neither Spark nor the language model and cannot make the job succeed |
| JobLiveness.ChainRun | backend/apps/jobs/tasks.py:42-129 | along a crash-free run attempts follow each other, and each worker step uses up part of a fixed budget |
| JobLiveness.CrashFreeRunsEnd | backend/apps/jobs/tasks.py:42-129 | a crash-free run has at most MAX_TRANSIENT_RETRIES + 1 attempts and a bounded number of worker steps, and the last attempt can move until it is over; then the job is unfinished if and only if an exception has left the task and no cancel call had failed the job in the queue |
| JobLiveness.LeftRunning | backend/apps/jobs/tasks.py:109-112 | a crash-free run in which cancelling Spark raises after a timeout: no attempt is left and the job stays RUNNING |
| JobCancellation.CancelWritesExactly | backend/apps/jobs/services.py:96-110 | a step of a cancel call changes the row if and only if it fails a queued job or is the first to flag a running one |
| JobCancellation.RefusedHasWritten | backend/apps/jobs/services.py:96-112 | a call refused in the end has left its own request on the job if and only if its flagging step found it running and unflagged |
| JobCancellation.SucceedsExactly | backend/apps/jobs/tasks.py:74-99 | a flagged running job can still succeed in some run if and only if some attempt is past its last check |
| JobCancellation.CancelledExactly | backend/apps/jobs/tasks.py:74-129 | a flagged running job can still end other than as CANCELLED if and only if some attempt is past its last check or recording another failure |
| JobStaleness.FreshRun | backend/apps/jobs/tasks.py:132-148 | without a stale attempt, every run of overlapping, redelivered and crashing attempts keeps what is saved and asks for nothing |
| JobStaleness.StaleAsks | backend/apps/jobs/tasks.py:132-148 | a stale attempt can go on to ask again or to save something else |
| JobStaleness.ReusedExactly | backend/apps/jobs/transform_builders.py:42-94 | once a pattern or specification is saved, every run keeps it and asks for no other, if and only if no attempt is stale |
| JobStaleness.AlignedRun | backend/apps/jobs/transform_builders.py:37-70 | if moreover the attempts have resolved only what is saved, every transforming attempt of every run applies it |
| JobApplied.WalksOn | backend/apps/jobs/tasks.py:74-84 | an attempt that needs no answer can come to transform the data, with exactly the work it is headed for, while nothing else moves |
| JobApplied.StaleUndercuts | backend/apps/jobs/tasks.py:132-148 | with a stale attempt, a redelivered one can come to apply the saved work and the stale one then replace it in the row |
| JobApplied.AppliedExactly | backend/apps/jobs/transform_builders.py:34-94 | for a running job with saved work and no cancel request: in every run every transforming attempt applies what the row has saved, if and only if no attempt is stale and all are aligned with it |
| JobGeneration.SavedWorkIsReused | backend/apps/jobs/tasks.py:132-148 | if attempts do not overlap until something is saved, then in every run from there, overlapping or not, it stays, is not asked for again, and is what every transforming attempt applies |
| JobGeneration.SequentialKeepsSolo | backend/apps/jobs/transform_builders.py:44-94 | along attempts that do not overlap, the only live one and the row agree on what has been saved |
| JobGeneration.SoloIsFresh | backend/apps/jobs/transform_builders.py:44-94 | such attempts are neither stale nor out of line with what is saved |
| JobGeneration.InitialIsSolo | backend/apps/jobs/services.py:43-58 | a submitted job satisfies the starting condition of the two previous rows |
| JobRaces.RefusedYetCancelled | backend/apps/jobs/services.py:96-112 | a run in which a cancel call is refused although it cancelled the job |
| JobRaces.ReturnedYetSucceeded | backend/apps/jobs/services.py:96-112 | a run in which a cancel call returns and the job still succeeds |
| JobRaces.OverlapAsksTwice | backend/apps/jobs/tasks.py:132-148 | a run in which a redelivered attempt asks the language model again, and the first is transforming the data with a pattern the row does not keep |
| JobRaces.SavedAfterTheEnd | backend/apps/jobs/tasks.py:143-147 | a run in which an attempt rewrites the pattern of a job that another attempt has finished as CANCELLED |
| JobWorker.EnterStage | backend/apps/jobs/tasks.py:71-73 | enters the stage in the tracker and writes its percentage to the row as one progress step |
| JobWorker.RaiseIfCancelRequested | backend/apps/jobs/cancellation.py:12-14 | raises exactly as the protocol's check does and otherwise goes on to the next point |
| JobWorker.ResolvePattern | backend/apps/jobs/tasks.py:132-148 | its execution is the protocol's run from resolving to the second check or to the failure; the pattern it returns is the loaded one or the one now saved, and the one the protocol's attempt has resolved |
| JobWorker.AskAndKeepPattern | backend/apps/jobs/tasks.py:141-148 | the pattern it returns is the saved one; if it raises, the row is unchanged |
| JobWorker.GenerateSpec | backend/apps/jobs/transform_builders.py:77-94 | its execution is the protocol's run from the sample to the transformation or to the failure; the specification it returns is the saved one and the one the protocol's attempt applies |
| JobWorker.KeepSpec | backend/apps/jobs/transform_builders.py:88-94 | once the save itself has not raised, the row holds the specification, also when the last check raises |
| JobWorker.BuildTransform | backend/apps/jobs/transform_builders.py:34-74 | what it builds with is the resolved pattern, the loaded specification, or the newly saved one, and is what the protocol's attempt applies |
| JobWorker.RunSpark | backend/apps/jobs/tasks.py:151-183 | given the resolved pattern, its execution is the protocol's run from opening the source to the counts or to the failure |
| JobWorker.TransformAndCount | backend/apps/jobs/tasks.py:174-183 | the pass over the data is given what the protocol's attempt applies |
| JobWorker.HandleFailure | backend/apps/jobs/tasks.py:102-129 | by kind of fault: the code, message and time recorded, the retry with the row left alone, or the exception that leaves it; and so does the protocol |
| JobWorker.FailAfterTimeout | backend/apps/jobs/tasks.py:109-112 | stops Spark before recording TIMEOUT; if stopping raises, nothing is recorded |
| JobWorker.Fail | backend/apps/jobs/tasks.py:197-204 | the row of a running job becomes FAILED with this code, message and time and is otherwise kept; if recording raises, the row is unchanged |
| JobWorker.RunJob | backend/apps/jobs/tasks.py:54-99 | in every world of external answers, with exceptions at any point, the task leaves the row and the ending (finished, retried or left by an exception) of the protocol's run in that world, and of the fate told from the world's answers alone |
| JobWorker.WorkAndSettle | backend/apps/jobs/tasks.py:74-99 | what the `try` block comes to is decided by the first trouble among its points, and is then committed or handled |
| JobFate.SuccessIsThisRun | backend/apps/jobs/tasks.py:74-96 | an attempt leaves a success only without trouble, and then with the row and match counts, path, percentage, times, pattern and specification of this very run |
| JobFate.FailureIsThisFault | backend/apps/jobs/tasks.py:102-129 | an attempt leaves a failure only after trouble, as CANCELLED if and only if a cancel request was recorded, as TIMEOUT or INTERNAL_ERROR only after a time limit or an unexpected exception |
| JobFate.RetryIsTransient | backend/apps/jobs/tasks.py:117-124 | a retry follows only a retryable failure of an uncancelled job, three times at most |
| JobWorker.CancelJob | backend/apps/jobs/services.py:88-112 | every execution is a run of the protocol; undisturbed it refuses exactly the finished jobs and leaves them alone, fails a queued one as CANCELLED with its times, and flags a running one that is not flagged |
| FileListing.S3Client.ListObjects | backend/apps/files/services.py:77-81 | the assumed server: some prefix of the matching objects, truncated if and only if more follow, never an empty truncated answer |
| FileListing.TakeObjects | backend/apps/files/services.py:83-91 | the inner loop stops at the object that fills the page, or has taken the whole answer |
| FileListing.ListFiles | backend/apps/files/services.py:62-98 | whatever sizes of answers the server chooses, the page is the first page_size supported files after the cursor, with a cursor exactly when objects remain |
| FileListing.PageExactly | backend/apps/files/services.py:67-98 | that page holds the first page_size supported files after the cursor or all there are, and has a cursor, the key of its last file, if and only if it is full and an object follows that file |
| FileListing.ResumeAfter | backend/apps/files/services.py:72-79 | listing after the key of a listed object gives exactly what followed it |
| FileListing.PagesFrom | backend/apps/files/services.py:62-98 | following the cursors from any point gives every supported file from there on |
| FileListing.PagesAreFull | backend/apps/files/services.py:67-69 | every page that has a cursor has exactly page_size files |
| FileListing.EveryFileOnce | backend/apps/files/services.py:62-98 | following the cursors to the end gives the supported files under the prefix, in key order, each once, in at most n / page_size + 1 pages |
| ResultPages.TwoQueriesAreSlice | backend/apps/jobs/results.py:51-64 | for unique ids in any storage order, the id range and the range filter give rows [offset, offset + size) of the ordered table, and nothing past its end |
| ResultPages.TwoStepReadIsSlice | backend/apps/jobs/results.py:40-86 | the page is at least 1 and its size between 1 and 500; its i-th row is numbered (page - 1) * size + i + 1 and shows the flag and values of the row at that place of the ordered table; nothing is missing and nothing past the end |
| ResultPages.SliceIsRange | backend/apps/jobs/results.py:51-62 | a slice of increasing rows is exactly the rows between its first and last id |
| ResultPages.TotalPagesExactly | backend/apps/jobs/results.py:35-37 | the least number of pages, at least one, that has room for every row |
| ResultPages.PagesShowTheTable | backend/apps/jobs/results.py:35-86 | pages 1 to total_pages together have as many rows as the table, the i-th numbered i + 1 with the flag and values of the i-th row in id order |
| ResultPages.OrderIsSourceOrder | backend/processing/readers.py:41-43 | with ids partition * 2^33 + index, ordering by id restores the order of the source |
| ResultPages.PagesShowTheSource | backend/processing/readers.py:41-43 | so the i-th row shown is the i-th row of the source, numbered i + 1 |
| Progress.TaskFraction | backend/processing/progress.py:26-32 | a number in 0..1, zero without tasks, one exactly when every task is complete |
| Progress.ProgressTracker.EnterStage | backend/processing/progress.py:62-68 | always emits, never lowers the percentage, and changes nothing for an unknown stage |
| Progress.ProgressTracker.UpdateFraction | backend/processing/progress.py:70-81 | emits only above the current percentage and after the interval, and otherwise changes nothing |
| Progress.EnteringShows | backend/processing/progress.py:62-68 | entering a stage emits at once the larger of the percentage so far and the stage's start |
| Progress.FractionShows | backend/processing/progress.py:70-81 | a fraction is emitted if and only if it lifts the percentage and the interval has passed; the percentage lies in the stage's range, as far along as the fraction, rounded down, with the ends at 0 and 1 |
| Progress.UnknownStageIsSilent | backend/processing/progress.py:72-73 | before a known stage has been entered, fractions change and emit nothing |
| Progress.StagesTile | backend/processing/progress.py:14-23 | the stages follow each other without gap from 0 to 99, and the pass over the data has 80 of it |
| Progress.EmissionsAreOrderly | backend/processing/progress.py:35-81 | under any calls and any clock: percentages stay in 0..99 and never fall; an emission for a fraction is above all earlier ones and at least the interval after the previous; there are at most 99 of them |
| Progress.SparkJobMonitor.Tick | backend/processing/progress.py:143-153 | one tick with every way in which its callbacks can raise |
| Progress.ReportsExactly | backend/processing/progress.py:143-153 | a tick reports the fraction it finds unless one of its callbacks has raised before |
| Progress.CancelsAtMostOnce | backend/processing/progress.py:143-153 | over any ticks the cancel call is made once if some tick found a request, whether or not the call raises, and otherwise never |
| Progress.StoppedExactly | backend/processing/progress.py:143-153 | over any ticks the group is really stopped if and only if the call does not raise at the first tick that finds a request |
| Progress.LostCancel | backend/processing/progress.py:143-153 | a call that raises is lost: the next tick finds the request and does not call again |
| Replacements.TwoPassesAreOne | backend/processing/transforms/regex_replace.py:39-41 | the two replace passes equal one escape per character |
| Replacements.EscapedIsLiteral | backend/processing/transforms/regex_replace.py:39-41 | Java's interpreter gives an escaped text back unchanged, for every text and every match |
| Replacements.AcceptedExactly | backend/processing/specs.py:103-123 | accepts exactly the short texts without backslash in which every dollar sign starts a one-digit reference to a group of the pattern |
| Replacements.RefusedExactly | backend/processing/specs.py:109-115 | the reason of a refusal is the first check that fails: length, backslash, a dollar sign without a group number, then the references |
| Replacements.ReferenceMeans | backend/processing/specs.py:103-107 | `$n` stands for the text of group n, and for nothing when the group took no part in the match |
| Replacements.AcceptedIsSimple | backend/processing/specs.py:103-123 | an accepted replacement never raises in Java, and Java's greedy reading equals the plain substitution |
| Replacements.SecondDigitIsRefused | backend/processing/specs.py:122-123 | a reference followed by another digit is refused |
| Replacements.SecondDigitIsAmbiguous | backend/processing/specs.py:122-123 | because Java reads it as one group or as another group and a digit, depending on the number of groups |
| CacheKeys.NormalizedByWords | backend/apps/llm/cache.py:21-23 | descriptions are normalised alike if and only if they have the same words; normalising is idempotent and leaves no separator |
| CacheKeys.WordsKeepTheText | backend/apps/llm/cache.py:21-23 | the words of a description are its text without the white space, cut into pieces |
| CacheKeys.JoinInjective | backend/apps/llm/cache.py:26-30 | parts without the separator can be read back from the joined text |
| CacheKeys.FingerprintInjective | backend/apps/llm/service.py:200-201 | different samples have different JSON fingerprints, through escapes, surrogate pairs and nesting |
| CacheKeys.FingerprintIsPrintable | backend/apps/llm/service.py:200-201 | a fingerprint is printable ASCII, so it never holds the separator |
| CacheKeys.NormalizationMaterialExact | backend/apps/llm/service.py:105-111 | two normalization requests share their key text if and only if prompt version, model, words of the description and samples agree |
| CacheKeys.PatternMaterialExact | backend/apps/llm/service.py:72-77 | the same for pattern requests |
| CacheKeys.PiiMaterialExact | backend/apps/llm/service.py:140-142 | the same for requests to classify personal data; equal keys have equal columns |
| LlmCache.SuggestionCache.GetCached | backend/apps/llm/cache.py:33-45 | an outage, a missing entry and a malformed entry are all misses |
| LlmCache.SuggestionCache.Store | backend/apps/llm/cache.py:48-52 | stores the entry, or nothing during an outage |
| LlmCache.Complete | backend/apps/llm/service.py:174-190 | an execution is a run of the shared-cache model: it asks exactly when there is no usable entry in reach, stores the suggestion under its key exactly when it asked, accepted and could store, and passes on the error that was raised |
| LlmCache.StepKeeps | backend/apps/llm/service.py:174-190 | every step of every worker, eviction, damage or death keeps the cache invariant |
| LlmCache.OnlyAcceptedIsCached | backend/apps/llm/service.py:174-190 | over any run, each usable entry was accepted by the request that stored it, and each hit repeats the suggestion and result of an earlier miss |
| LlmCache.StoredThenFound | backend/apps/llm/service.py:174-190 | after a worker has stored an answer, the only one at work on its key, every later lookup that reaches the cache is a hit with it while the entry is spared |
| LlmCache.FirstAnswerIsKept | backend/apps/llm/cache.py:1-5 | from an empty cache: once a request has been answered and stored, the same request by any worker is answered from the cache with that suggestion and result |
| LlmCache.AsksExactlyInOutages | backend/apps/llm/cache.py:33-52 | once a key is cached and while it is neither evicted nor damaged, a lookup leads to a new question exactly when the cache cannot be reached |
| LlmCache.NeverAskedExactly | backend/apps/llm/cache.py:1-5 | from any state: in every run that reaches the cache and spares the entry nobody ever asks for the key, if and only if it is cached and nobody is asking already |
| LlmCache.OneAnswerExactly | backend/apps/llm/service.py:174-190 | from any state with a cached, acceptable suggestion: in every such run every request for the key is answered from the cache with it, if and only if no worker is about to answer otherwise |
| LlmCache.OneAnswerForEver | backend/apps/llm/service.py:174-190 | a settled key gets the same suggestion from the cache in every later request |
| LlmCache.OverlapAsksTwice | backend/apps/llm/cache.py:1-5 | a run, without outages, in which two requests for one key both go on to ask the model |

## Left out

- The syntax checks, Python's parser and the JVM compile of a pattern: the model starts from the parse tree.
- The timing probes of `_check_performance`: whether a pattern is fast enough on a given day is not a property of its text. The cache model lets any accepted suggestion be refused for being too slow.
- Conditional groups: `check_syntax` refuses them before the analysis. Case-insensitive matching: the analysis ignores flags, and so does the language.
- RegexTree's language is an over-approximation: anchors and assertions match the empty word, atomic and possessive elements match like their plain counterparts, a backreference matches any word. Uniqueness and separation are therefore stated for more words than an engine accepts.
- RegexCaptures.EmptyTextExactly: covers no assertions, whose captures come from the text around the match. For anchors, atomic groups and possessive repeats its condition is necessary for an engine, and exact only in the language, which has neither the text around the match nor the order of the engine's choices. An iteration that consumes nothing ends its repeat, as in java.util.regex; Python goes on up to the minimum.
- Any claim that an accepted pattern is unambiguous or fast in general: it is false (`AcceptedButAmbiguous`).
- JobWorker.RunJob: a lone attempt, undisturbed between its statements; interleavings are the subject of the protocol it is proved against.
- JobWorker.EnterStage: the write of the progress callback does not raise; an exception there is raised by the step that follows. The tracker's log records the calls of the callback, whether or not they raise.
- The explanation of a generated pattern or specification, which is written and read together with it.
- Spark, S3, DuckDB, Redis, Celery's transport, Ollama, pydantic and the encryption of credentials: each appears as a small assumed contract (the server of `FileListing`, the two queries of `ResultPages`, the world of `JobWorker`, the codec of `LlmCache`). Two overlapping attempts writing the same result files are not modelled.
- Revoking the Celery task and reloading the row at the end of `cancel_job`; the JobNotFound answer for an unknown id.
- The retry delay and its jitter; wall-clock time is a number passed in.
- The result columns and their names, and errors of the database that reads them: pages carry the row and its number.
- File types: how a name decides its type is a parameter of the listing; the modification time is dropped.
- Replacement validation for digits outside ASCII, which Python's `\d` accepts and Java does not read as a group number.
- The SHA-256 digest of a key: the key text is proved injective, collisions are out of scope. Unpaired surrogates in a text are not representable.
- Equality of a cached answer with a fresh one when two prompts share a key: white space differs in the prompt but not in the key.
- Progress fractions and clock readings are exact reals instead of floats.
- `validate_date_normalization`, the limits of `validate_rule_normalization`, `pii_spec_from_suggestion`, the column transforms, masks and sampling: single-step checks or calls into Spark.
- The serializers, previews, health checks, session configuration, deployment files and the frontend.
