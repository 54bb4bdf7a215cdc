# Verified model of vts

vts turns recordings into transcripts: it uploads or downloads media, cuts audio
into segments, transcribes and diarizes them, restructures the text, and serves
and delivers the results. This project models the parts of it where correctness
is not obvious from reading one function, and proves what they keep.

| modules | subject |
|---|---|
| `Text`, `Splitting`, `SplitShapes`, `Chunking`, `RawEntries`, `ChunkLaws`, `ChunkPlan`, `ChunkTimes` | a transcript cut into retrievable chunks: words, speakers, sizes and times |
| `AsrPayload` | a speech recogniser's answer split into flat axes and rebuilt |
| `Delivery`, `DeliveryRuns`, `DeliveryQueue` | the delivery attempts table: claim, deliver, fail, park, reap, retry |
| `AccountMerge`, `ArtifactFold` | one account absorbing another, in the database and on disk |
| `Pipeline`, `Processor` | the step machine that runs, pauses, awaits, fails and resumes a task |
| `Diarization`, `DiarizationRuns` | the job table of the diarization sidecar |
| `Segments` | audio segmentation with silence snapping |
| `Throttle` | the publish throttle and its eviction |
| `Cursor`, `TaskPaging` | keyset paging and its opaque cursor |
| `Upload` | staging and resumable finalizing of a multi-file upload |
| `VttParser`, `WebVtt`, `WebVttTrack`, `WebVttLaws` | subtitles, against the W3C WebVTT parser |
| `CorpusSearch`, `SearchPaging` | ranked search with a threshold, an offset and a fetch cap, and its pages |
| `TokenBudget` | token budgets and the derived window |

A modelled loop, or an object that the program updates in place, is a method or
a class here, proved equal to a function on values; the laws are lemmas about
those functions. Protocols are state machines, and their laws range over every
run.

`dafny verify dfyconfig.toml` checks the project.

## Where the code does less than it says

- `vts/delivery/consumer.py:93`: with `max_attempts` below one a row still fails
  once before it dies; the bound on failures is max(1, max_attempts).
- `vts/services/asr_payload.py:169`: without any sentence, every token after the
  first joins the first token's stand-in sentence; the round trip is exact only
  when there is no token.
- `vts/services/account_merge.py:148`: keys are compared as Python values, so a
  key holding a NULL would count as a collision where the database lets it be.
  None of the keys declared over the owner has a nullable column
  (`vts/db/models.py:245`, `:302`, `:331`, `:602`), so no row is lost today.
- `vts/services/account_merge.py:191`: the old prefix ends in a slash, so a
  stored path that is the old user directory itself would not be rewritten and
  would lose its files.
- `vts/services/redis_bus.py:142`: reading the map inserts a key. Within the
  first interval after clock zero such entries are never evicted, so the ceiling
  does not hold there.
- `vts/services/upload_session.py:35`: the remark on names from a thousand files
  on gives a wrong example; 1000 sorts after 099, but before 101.
- `vts/services/subtitles.py:103`: a speaker name ending in two dashes makes an
  arrow with the closing bracket of its tag, and the cue loses its text.
- `vts/services/media.py:247`: when a cut snaps to a silence point exactly at the
  end, the last core is empty.
- `vts/services/corpus_search.py:272`: the ranking has no tie-breaker and every
  page ranks anew. If equal scores lie across a page boundary, one passage may
  be shown twice and another never.
- `vts/pipeline/token_budget.py:70`: the absolute floor of a segment may exceed
  its input, and then the budget of a window that fits need not fit.
- `vts/services/chunking.py:238`: a short remainder carried into a long turn gives
  the chunk its start but not its end, so when turns overlap the chunk may end
  before an entry it holds.
- `vts/services/chunking.py:303`: the tail fold can never change anything, since
  compaction has already settled the last chunk.

## Model

| member | source | states |
|---|---|---|
| `Text.NormalizeTidy` | vts/services/chunking.py:74-76 | collapsing whitespace keeps the words and leaves either nothing or a text with single inner blanks and no outer ones |
| `Splitting.SentencesTidy` | vts/services/chunking.py:94 | splitting a tidy text into sentences loses nothing: joined by blanks they are the text again, and each is tidy |
| `Splitting.CutLongSentence` | vts/services/chunking.py:105-112 | the hard-cut loop computes the cut sequence whose laws follow |
| `Splitting.HardCutKeepsWords` | vts/services/chunking.py:105-112 | pieces and remainder stay within the cap and keep every word in order; a word is cut only when it alone is longer than the cap |
| `Splitting.PackSentences` | vts/services/chunking.py:95-115 | the packing loop computes the greedy packing whose laws follow |
| `Splitting.PackKeepsWords` | vts/services/chunking.py:95-115 | packing keeps every word of every sentence in order, fragmenting over-long words only |
| `Splitting.PackIsGreedy` | vts/services/chunking.py:97-101 | with no over-long sentence, no two neighbouring pieces would have fitted into one |
| `Splitting.MoveDonors` | vts/services/chunking.py:130-133 | the donor loop moves sentences from the end of the previous piece to the front of the moved list |
| `Splitting.DonationKeepsWords` | vts/services/chunking.py:130-135 | whatever was donated, head and tail together keep the words of the two pieces in order |
| `Splitting.RebalanceStub` | vts/services/chunking.py:124-142 | merge, donate or keep: the pair that replaces the last two pieces |
| `Splitting.RebalanceKeepsWords` | vts/services/chunking.py:123-142 | the stub rebalance never breaks the cap and keeps every word in order |
| `Splitting.SplitLongText` | vts/services/chunking.py:88-143 | the whole splitter computes the specification the two laws below are about |
| `Splitting.SplitKeepsWords` | vts/services/chunking.py:88-143 | for every tidy text and cap: at least one piece, every piece tidy and within the cap, and the words of the pieces are the words of the text in order, cut only where one word exceeds the cap |
| `Splitting.SplitIsProper` | vts/services/chunking.py:88-143 | a text over the cap always yields at least two pieces |
| `Splitting.ConcatFragAll` | vts/services/chunking.py:108-112 | cutting over-long words loses no character |
| `Splitting.FragAllFits` | vts/services/chunking.py:91-92 | words within the cap are never cut |
| `SplitShapes.SentencesAreExact` | vts/services/chunking.py:44 | a text is divided exactly where whitespace follows a full stop, an exclamation mark, a question mark or an ellipsis: every sentence but the last ends like one and none goes on inside |
| `SplitShapes.HardCutIsLate` | vts/services/chunking.py:105-112 | every piece cut off an over-long sentence is as long as the words after it allow: the next word would have reached the cap, unless the cap itself cuts a word |
| `SplitShapes.RebalanceIffPossible` | vts/services/chunking.py:123-142 | a stub joins its predecessor when both fit; else the two are cut again at the last sentence end that leaves both at or above the floor and the second within the cap, if and only if there is one |
| `SplitShapes.DonationPoint` | vts/services/chunking.py:130-133 | the donation stops at the last sentence end from which the tail is no stub |
| `Chunking.CleanEntriesSorted` | vts/services/chunking.py:56-85 | the cleaned entries are a permutation of the usable ones, tidied, with end at or after start, sorted by start |
| `Chunking.ListSpeakers` | vts/services/chunking.py:178-185 | the loop lists speakers in order of first speech |
| `Chunking.SpeakersAreExact` | vts/services/chunking.py:178-185 | as a set, the list is exactly the named speakers of the entries |
| `Chunking.EmitSplitTurn` | vts/services/chunking.py:146-175 | the loop over the pieces of one turn, with interpolated times |
| `Chunking.GatherChunks` | vts/services/chunking.py:206-261 | the main loop with flush, carry and split, over its two lists |
| `Chunking.ChunkRecord.TakeIn` | vts/services/chunking.py:268-277 | absorbing changes the host record in place: text, times and speakers |
| `Chunking.ChunkRecord.AddAll` | vts/services/chunking.py:275-277 | speakers are appended once each, in order |
| `Chunking.CompactRecords` | vts/services/chunking.py:279-297 | the compaction loop over mutable chunk records, including growing the next record before it is visited |
| `Chunking.FoldTailRecord` | vts/services/chunking.py:303-316 | the tail fold over mutable records |
| `Chunking.NumberRecords` | vts/services/chunking.py:318-319 | indices are 0..n-1 and nothing else changes |
| `Chunking.ChunkEntries` | vts/services/chunking.py:188-320 | the whole function on raw entries: fresh distinct records, numbered from zero, with the values the laws of RawEntries and ChunkLaws are about |
| `RawEntries.CleaningIsExact` | vts/services/chunking.py:56-85 | read off the raw list: the entries with both times and at least one word, each exactly once, in time order and stable, and no other; each keeps its start, its words and its non-empty speaker, and an end before the start is the start |
| `RawEntries.OrderIsUnique` | vts/services/chunking.py:84 | there is but one such order |
| `RawEntries.ChunksSayWhatWasSaid` | vts/services/chunking.py:56-320 | end to end from the stored transcript: the chunks carry, in time order, the words of exactly those raw entries, each chunk naming exactly the voices of its words, every chunk within the cap |
| `ChunkPlan.GatherFollowsAPlan` | vts/services/chunking.py:206-261 | gathering follows one plan read off the entries: groups closed only at the target size or for want of room, none growing past the target, and long turns that take a short remainder with them if and only if it fits; each chunk spans its entries and says their words |
| `ChunkPlan.PredecessorFirst` | vts/services/chunking.py:282-297 | a short chunk with room on both sides goes to the one before it |
| `ChunkPlan.AbsorbSpans` | vts/services/chunking.py:268-277 | an absorbing chunk spans both, and its own speakers stay in front |
| `ChunkPlan.SpeakersInOrder` | vts/services/chunking.py:178-185 | speakers stand in the order they first spoke, each named once |
| `ChunkLaws.GatherCovers` | vts/services/chunking.py:206-261 | the gathered chunks cut the spoken words into consecutive runs, each with exactly its speakers, each within the cap |
| `ChunkLaws.GatherFills` | vts/services/chunking.py:249-259 | without over-long turns a chunk is closed only when it reached the target or the next entry would not have fitted |
| `ChunkLaws.CompactCovers` | vts/services/chunking.py:279-297 | absorbing backwards or forwards keeps words, order, speakers and cap |
| `ChunkLaws.CompactSettles` | vts/services/chunking.py:279-297 | after compaction no chunk below the floor has a neighbour with room for it |
| `ChunkLaws.TailFoldIdle` | vts/services/chunking.py:303-316 | on such a list the tail fold changes nothing |
| `ChunkLaws.ChunksCarryEveryWord` | vts/services/chunking.py:188-320 | end to end: every word in order, over-long words in parts only, each chunk naming exactly the speakers whose words it holds, every chunk within the cap |
| `ChunkLaws.ChunksAreSettled` | vts/services/chunking.py:279-316 | end to end: no short chunk has room beside it, so the final tail fold is dead code |
| `ChunkLaws.ChunksKeepEveryCharacter` | vts/services/chunking.py:188-320 | the non-whitespace characters of the chunks in order are those of the entries |
| `ChunkTimes.SplitTurnTiles` | vts/services/chunking.py:146-175 | pieces of a split turn tile it: first start, last end, each piece ending where the next starts |
| `ChunkTimes.SplitTurnShares` | vts/services/chunking.py:160-173 | each piece of a split turn gets exactly the part of the time that its characters are of all characters |
| `ChunkTimes.GatherLine` | vts/services/chunking.py:206-261 | for turns that do not overlap, gathered chunks are ordered and disjoint from the first start to the last end |
| `ChunkTimes.CompactLine` | vts/services/chunking.py:279-297 | compaction keeps that time line |
| `ChunkTimes.ChunksFollowTheClock` | vts/services/chunking.py:188-320 | end to end: chunk times are ordered, disjoint and run from the first start to the last end |
| `AsrPayload.DecomposeRawJson` | vts/services/asr_payload.py:60-115 | the appending loops compute the axes |
| `AsrPayload.SentenceAxisIsExact` | vts/services/asr_payload.py:72-86 | the sentence axis holds, in order, exactly the segments with both times and a text, and the metric axes the values of the same segments |
| `AsrPayload.TokenAxisIsExact` | vts/services/asr_payload.py:87-100 | the token axis holds, in order, exactly the words with a text and both times, with their own times and probability |
| `AsrPayload.Target` | vts/services/asr_payload.py:159-168 | the first window that holds the instant; when none does, the last sentence that starts no later, or the first |
| `AsrPayload.OrphansStayTogether` | vts/services/asr_payload.py:169-171 | without sentences there is one segment, with the times of the first token and all words in order |
| `AsrPayload.FindTarget` | vts/services/asr_payload.py:159-168 | the search finds the first window holding the token, else the last sentence starting earlier, else the first |
| `AsrPayload.RecomposeRawJson` | vts/services/asr_payload.py:118-179 | the rebuilding loops compute the nested answer |
| `AsrPayload.DecomposedIsCanonical` | vts/services/asr_payload.py:60-115 | decomposed axes have one metric slot per sentence |
| `AsrPayload.SortedIsMonotone` | vts/services/asr_payload.py:159-168 | with both axes in time order, later tokens never go to earlier sentences |
| `AsrPayload.NoTokenLost` | vts/services/asr_payload.py:153-172 | whatever the times, rebuilding neither loses nor repeats a token |
| `AsrPayload.OrderKeptIffMonotone` | vts/services/asr_payload.py:153-172 | the flattened words equal the token axis if and only if the assignment is monotone |
| `AsrPayload.RoundTripIffMonotone` | vts/services/asr_payload.py:60-179 | with a sentence, decompose after recompose is the identity if and only if the assignment is monotone; sentences and their metrics always come back in place |
| `AsrPayload.RoundTrip` | vts/services/asr_payload.py:60-179 | in particular for axes in time order |
| `AsrPayload.RoundTripWithoutSentences` | vts/services/asr_payload.py:169-171 | without sentences the tokens come back, but the axes do only when there is no token |
| `AsrPayload.UnsortedTokensAreReordered` | vts/services/asr_payload.py:153-172 | two tokens out of time order that come back swapped |
| `Delivery.BackoffDoubles` | vts/delivery/queue.py:19-21 | the wait starts at the base, doubles with every attempt and never passes the cap |
| `Delivery.DeliveryRepo.CreateDeliveryAttempt` | vts/db/repo.py:1113-1124 | a new pending row, due at once |
| `Delivery.DeliveryRepo.ClaimDueDeliveries` | vts/db/repo.py:1126-1141 | the due pending and parked rows, earliest first, at most the limit, become delivering and are charged an attempt |
| `Delivery.SelectDue` | vts/db/repo.py:1129-1136 | the selection: due rows only, ordered by next attempt, as many as the limit allows |
| `Delivery.MarkClaimed` | vts/db/repo.py:1137-1139 | the loop over the claimed rows |
| `Delivery.DeliveryRepo.ProcessOneDelivery` | vts/delivery/consumer.py:28-120 | the row afterwards, outcome by outcome: the answer and no error; the attempt back and the adapter wait; or the first 2000 characters of the error with min(base * 2^(n-1), cap) to wait, or death; a vanished row is skipped |
| `Delivery.DeliveryRepo.ReapStuckDeliveries` | vts/db/repo.py:1190-1196 | rows delivering for too long become pending again |
| `Delivery.DeliveryRepo.ResetDeliveryForRetry` | vts/db/repo.py:1198-1210 | dead rows of the task and target become pending and due |
| `Delivery.DeliveryRepo.DeliveryTick` | vts/delivery/consumer.py:123-136 | one tick is a possible run of the protocol; a worker that dies leaves its remaining rows delivering |
| `Delivery.EveryRunKeepsTheBooks` | vts/delivery/consumer.py:28-136 | in every run: attempts are claims minus parks and at least one while delivering, rows in flight have a next attempt time, dead rows have spent their attempts after a real failure, and without retries at most max(1, max_attempts) failures occur |
| `Delivery.FirstFailureNeedsNoAllowance` | vts/delivery/consumer.py:92-111 | that bound is the tight one: with max_attempts below one, one failure still happens |
| `Delivery.LedgerCountsEvents` | vts/db/repo.py:1126-1182 | the counters of the invariant are the numbers of claims, parks and failures in the run |
| `Delivery.DeliveredIsFinal` | vts/db/repo.py:1143-1153 | a delivered row never changes again |
| `Delivery.DeadUntilRetried` | vts/db/repo.py:1198-1210 | a dead row changes only when a retry names it |
| `Delivery.NeverStranded` | vts/db/repo.py:1126-1196 | every row in flight becomes claimable, after a reap if its worker died |
| `Delivery.RetryBuysOneAttempt` | vts/db/repo.py:1198-1210 | after a retry the next unparked failure kills the row again |
| `DeliveryRuns.FailureWaitsItsBackoff` | vts/delivery/consumer.py:94-117 | after the n-th attempt fails with attempts left, however the run goes on: until it is next handed out the row is pending and due exactly from the failure time plus min(base * 2^(n-1), cap) on, and whoever claims it does so no earlier |
| `DeliveryRuns.LastFailureKills` | vts/delivery/consumer.py:93-117 | a failure at the last attempt leaves the row dead, with its error, and due at no time |
| `DeliveryRuns.ParkWaitsForTheAdapter` | vts/delivery/consumer.py:71-84 | without its adapter the row gets its attempt back and is due exactly from the adapter wait on, never earlier, in every continuation |
| `DeliveryRuns.SentIsRecorded` | vts/db/repo.py:1143-1153 | a sent delivery keeps the answer of the adapter, and no error, through every later event |
| `DeliveryRuns.ClaimTakes` | vts/db/repo.py:1126-1141 | a row handed out is charged an attempt and counts from the claim as in work |
| `DeliveryRuns.ComesBack` | vts/db/repo.py:1190-1210 | reaped and retried rows come back as they were but for the status; only a retry sets a new time |
| `DeliveryRuns.OthersAreLeftAlone` | vts/db/repo.py:1126-1210 | an event leaves every row alone that it is not about: reaping needs a stuck row, a retry a dead one of that task and target |
| `DeliveryRuns.IdentityIsFixed` | vts/db/repo.py:1113-1210 | no run loses a row or changes whose result goes where, how, and how often it may be tried |
| `DeliveryQueue.EnqueueDeliveries` | vts/delivery/queue.py:24-59 | rows are created for exactly the items that name a target owned by the owner of the task, with the variant of the item, else of the target, else the summary, due at once; the count is their number; old rows stay |
| `AccountMerge.DropCollidingRows` | vts/services/account_merge.py:113-155 | the loop over the unique keys deletes by id and counts |
| `AccountMerge.DroppedExactly` | vts/services/account_merge.py:113-155 | although deletion is interleaved with the checks, exactly the rows that collide in the original table are dropped |
| `AccountMerge.DoomedClashesIffNoNull` | vts/services/account_merge.py:139-152 | a row a key dooms would have violated that key if and only if its values hold no NULL |
| `AccountMerge.DropsExactlyTheClashes` | vts/services/account_merge.py:113-155 | where key columns are never NULL, a row is dropped if and only if moving it would have violated some key |
| `AccountMerge.NullsAreDroppedForNothing` | vts/services/account_merge.py:139-152 | over a nullable key column the merge does drop a row the database would let move |
| `AccountMerge.DeclaredKeysAreHarmless` | vts/db/models.py:301-304 | under the keys the schema declares over the owner, nothing is dropped for a NULL and no key runs over a path |
| `AccountMerge.AbsorbTable` | vts/services/account_merge.py:286-298 | drop, then move, with both counts |
| `AccountMerge.MergeKeepsKeysUnique` | vts/services/account_merge.py:87-155 | every full and partial unique key still holds after the rows moved |
| `AccountMerge.MergeAccountsForEveryRow` | vts/services/account_merge.py:281-298 | rows of the survivor and of strangers are untouched; an absorbed row moves whole or was dropped for a collision; none stays behind |
| `AccountMerge.MergeCountsAddUp` | vts/services/account_merge.py:286-298 | moved plus dropped is what the absorbed account owned |
| `AccountMerge.AccountStore.ChooseAccounts` | vts/services/account_merge.py:249-274 | no account exactly when nobody holds the old address; same account exactly when the addresses agree; in flight exactly when a root is given and some task of either account has a status other than completed, archived, failed and canceled; success in every other case, with the two accounts named |
| `AccountMerge.AccountStore.RevokeSessions` | vts/services/account_merge.py:276-279 | the sessions of both accounts end |
| `AccountMerge.AccountStore.AbsorbTables` | vts/services/account_merge.py:281-298 | every table but the sessions is absorbed; counters go into the report |
| `AccountMerge.AccountStore.RewriteArtifactPaths` | vts/services/account_merge.py:187-223 | paths of the survivor below the old directory are repointed, table by table, and counted |
| `AccountMerge.AccountStore.MergeAccounts` | vts/services/account_merge.py:226-328 | the whole merge on the whole store: refused in exactly the cases above and then nothing is written; otherwise report, tables, users and sessions are as specified, the directory rename and the rewritten rows included |
| `AccountMerge.RenameKeepsNamesUnique` | vts/services/account_merge.py:302-325 | addresses stay unique: the absorbed account goes before its address is taken |
| `AccountMerge.RewriteKeepsKeysUnique` | vts/services/account_merge.py:187-223 | the path rewrite moves no row to another owner and breaks no key that spares path columns |
| `AccountMerge.NothingLeftBehind` | vts/services/account_merge.py:226-328 | after the whole merge, path rewrite included, every unique key of every table holds and no row of any table is left on the deleted user |
| `AccountMerge.KeyOverPathsBreaks` | vts/services/account_merge.py:201-219 | a key over a path column would be broken by the rewrite |
| `AccountMerge.RewriteTouchesOnlyMatches` | vts/services/account_merge.py:201-219 | a row with no path below the old directory is left as it is |
| `AccountMerge.RepointOnce` | vts/services/account_merge.py:201-210 | rewriting a path a second time changes nothing |
| `ArtifactFold.Disk.ApplyArtifactMove` | vts/services/account_merge.py:331-362 | no source, rename, refusal on a collision with nothing moved, or fold |
| `ArtifactFold.Disk.MoveChildren` | vts/services/account_merge.py:360-362 | child by child into the destination, then the empty source goes |
| `ArtifactFold.FoldRefusesIff` | vts/services/account_merge.py:342-361 | the fold is refused exactly when both directories exist and share a child; without a source it changes nothing |
| `ArtifactFold.FileUnder` | vts/services/account_merge.py:191-192 | a path below a user directory names the file at its inner path there |
| `ArtifactFold.RewrittenPathFindsItsFile` | vts/services/account_merge.py:187-362 | a path below the old directory finds the same file at its rewritten place after the fold if and only if its child was there or nothing answers to the new path; a path that named a file always does |
| `ArtifactFold.OtherFilesStay` | vts/services/account_merge.py:331-362 | files and paths outside the old directory are unchanged |
| `ArtifactFold.FileSurvives` | vts/services/account_merge.py:187-362 | a file named by a path is the same file after the fold, at the rewritten path |
| `ArtifactFold.DirectorySurvivesIff` | vts/services/account_merge.py:187-362 | a stored directory keeps every file, at its rewritten path, if and only if it is not the folded directory or one above it, or that directory has no file |
| `ArtifactFold.RowAfterMerge` | vts/services/account_merge.py:281-323 | every row left after the merge is the row of its id, reowned if absorbed; no column comes or goes, a path of the survivor below the old directory is now below the new one, and every other value is as it was |
| `ArtifactFold.StoredPathsSurvive` | vts/services/account_merge.py:187-362 | database rewrite and disk fold agree for every row left in any table, absorbed rows included: each stored path names the file, or the directory with all its files, that it named before |
| `ArtifactFold.FoldIsOnce` | vts/services/account_merge.py:331-362 | a second merge finds nothing to fold and no path to rewrite |
| `Pipeline.FinalizeStepsAreEnabled` | vts/pipeline/types.py:43-45 | every finalize step the DAG lists is enabled whenever the transcript is |
| `Pipeline.EnabledSteps` | vts/pipeline/processor.py:763-782 | which steps run: without a transcript only the download, without prompts all but the four of the summary head, otherwise every one |
| `Pipeline.TailIsTheSelection` | vts/pipeline/types.py:38-45 | selected prompts end the list in the order of their selection, the summary under its own name |
| `Pipeline.DagRespectsFollows` | vts/pipeline/types.py:8-45 | whatever prompts are selected, every step stands after the steps it follows, and the finalize steps after the packed notes |
| `Pipeline.StartedAfterItsInputs` | vts/pipeline/types.py:8-45 | in every run a step starts only once each step it follows is completed or skipped |
| `Processor.TaskProcessor.UpsertStep` | vts/db/repo.py:449-457 | an unknown step is added as pending, a known one is left alone |
| `Processor.TaskProcessor.SetStepStatus` | vts/db/repo.py:469-483 | status and message are set, and starting counts an attempt |
| `Processor.TaskProcessor.RunOneStep` | vts/pipeline/processor.py:537-680 | disabled, already done, run to success, await, pause, failure or interruption: the status each leaves |
| `Processor.TaskProcessor.WalkDag` | vts/pipeline/processor.py:208-225 | the step loop, with its pause and cancellation checks |
| `Processor.TaskProcessor.ProcessTask` | vts/pipeline/processor.py:139-392 | a task that is canceled, completed or archived is left alone; otherwise the task row and the step rows tell exactly what the script of the run says they must |
| `Pipeline.StartsFollowTheDag` | vts/pipeline/processor.py:208-225 | a step starts only when every earlier DAG step is completed or skipped; a run that reaches the end leaves all of them so |
| `Pipeline.RunKeepsPassed` | vts/pipeline/processor.py:574-577 | with artefacts present, a run starts nothing that was passed before and undoes nothing |
| `Pipeline.AwaitLeavesCompleted` | vts/pipeline/processor.py:618-643 | a step that awaits input is left completed, and so is everything before it |
| `Pipeline.ResumesStartLater` | vts/pipeline/processor.py:574-643 | over any sequence of runs, after an await at a step every later run starts only at strictly later steps |
| `Pipeline.AwaitsMoveForward` | vts/pipeline/processor.py:618-643 | awaited steps move strictly forward, so a task awaits at most once per step |
| `Processor.TaskRowTellsTheTruth` | vts/pipeline/processor.py:239-376 | a task is completed only with every DAG step completed or skipped, and names an awaited step exactly while it awaits input |
| `Processor.TheRowsTell` | vts/pipeline/processor.py:208-376 | from the script of the world to the rows: failed with a message exactly when the work taken up at some step failed with it; paused exactly when a pause was asked before or inside a step, or an interruption met the pause flag; canceled exactly when that was seen first; awaiting exactly the step that asked; completed exactly when nothing stopped the run; and the status and message of every step row |
| `Processor.StartsAreCounted` | vts/pipeline/processor.py:537-600 | a run starts exactly the steps whose work it takes up, and the attempts of a step grow by exactly its starts |
| `Diarization.Server.Diarize` | docker/diarization/server.py:450-476 | attach, point at the result, hand over a failure and restart, or start |
| `Diarization.Server.StartJob` | docker/diarization/server.py:479-488 | a new record under the id and a computation for it |
| `Diarization.Server.Register` | docker/diarization/server.py:483-484 | the record itself, replacing a finished one |
| `Diarization.Server.CallHook` | docker/diarization/server.py:415-427 | a flagged job unwinds; another reports progress and is touched |
| `Diarization.Job.Close` | docker/diarization/server.py:432-445 | the record a computation leaves |
| `Diarization.Server.Retire` | docker/diarization/server.py:432-445 | the table a computation leaves: an unwound job is gone |
| `Diarization.Server.FinishJob` | docker/diarization/server.py:432-447 | the end of a computation, done, unwound or failed |
| `Diarization.Server.JobEvents` | docker/diarization/server.py:496-515 | one tick of the stream touches the job and reports it |
| `Diarization.Server.JobResult` | docker/diarization/server.py:519-537 | the collection step: unknown, still running, a failure handed over, or the result, the last two disposing of the job |
| `Diarization.Server.JobCancel` | docker/diarization/server.py:540-548 | cancelling only flags the job |
| `Diarization.Server.ReapJob` | docker/diarization/server.py:578-585 | what the reaper does with one job |
| `Diarization.Server.ReapSnapshot` | docker/diarization/server.py:578-585 | the loop over the ids of the snapshot equals a simultaneous pass |
| `Diarization.Server.ReapJobs` | docker/diarization/server.py:577-585 | a reaper pass on the whole table, which keeps the invariant |
| `Diarization.OneComputationPerId` | docker/diarization/server.py:408-488 | in every reachable state each running computation is the one stored under its id, at most one per id, and a job is shown running exactly while it runs |
| `Diarization.DoneStaysUntilCollected` | docker/diarization/server.py:519-585 | a done result stays the same and is not recomputed until collected or idle past its TTL |
| `Diarization.ReattachStartsNothing` | docker/diarization/server.py:450-462 | asking again for a running or done job starts nothing |
| `Diarization.FailureHandedOverOnce` | docker/diarization/server.py:463-473 | in any run a failure is handed over at most once, by a retry or a collection, and then forgotten |
| `Diarization.ReaperSparesTheLiving` | docker/diarization/server.py:577-585 | a running job stays and is flagged exactly when idle beyond its TTL; a finished one stays, unchanged, exactly while within its TTL; no computation starts or ends |
| `DiarizationRuns.ResultReachesTheCaller` | docker/diarization/server.py:432-537 | from the end of a computation to the answer, over every run that leaves the job alone: the next collection is answered with the very result computed, a renewed request learns that it is done, and after the collection the job is unknown |
| `DiarizationRuns.FailureReachesTheCaller` | docker/diarization/server.py:432-537 | likewise a failure: the next collection reports its message, a renewed request is told it and starts over, the stream ends with it |
| `DiarizationRuns.RunningIsNotHandedOut` | docker/diarization/server.py:450-537 | while a computation goes on nothing is handed out and asking again attaches; once unwound the job is unknown |
| `DiarizationRuns.RequestStarts` | docker/diarization/server.py:450-488 | a request for an unknown job starts one new computation, shown as running without progress |
| `DiarizationRuns.CancelReachesTheComputation` | docker/diarization/server.py:415-418 | a cancelled computation hears of it at every later hook call, whatever happened since |
| `DiarizationRuns.ProgressReachesTheStream` | docker/diarization/server.py:415-515 | a hook call raises exactly when the job is flagged; otherwise the stream shows next what it reported |
| `DiarizationRuns.TouchKeepsAlive` | docker/diarization/server.py:577-585 | a request, a look at the stream or a hook call keeps the job through every reap within its TTL |
| `DiarizationRuns.EndingKeepsAlive` | docker/diarization/server.py:444-445 | so does the end of its computation, and past the TTL the finished job is gone |
| `Segments.BuildSegments` | vts/services/media.py:226-256 | the boundary loop terminates for any silences and any positive target, and computes the segments |
| `Segments.NearestIsNearest` | vts/services/media.py:241-242 | the first of the nearest silences in the window, or none when the window is silent-free |
| `Segments.NextCutIsProper` | vts/services/media.py:239-244 | a cut is the nearest silence if that leaves a core of 45 seconds, else one target length on; cuts are at least min(45, target) and at most target plus window apart |
| `Segments.CutsAreProper` | vts/services/media.py:236-247 | all cuts are proper, the last core is at most the target, the list ends at the duration |
| `Segments.CutsAreFew` | vts/services/media.py:236-247 | the number of cuts from any position on is bounded by the remaining time over min(45, target) |
| `Segments.WidenStaysInside` | vts/services/media.py:250-255 | a widened segment contains its core, stays inside the recording and is at most target plus window plus both overlaps long |
| `Segments.SegmentsCoverTheRecording` | vts/services/media.py:226-256 | the segments start at zero, end at the duration, are in order, and neighbours meet or overlap |
| `Segments.SeamIsTheOverlap` | vts/services/media.py:250-255 | two neighbours share exactly the moments within the overlap of their cut |
| `Segments.NothingIsSkipped` | vts/services/media.py:226-256 | every moment of the recording lies in some segment |
| `Segments.SegmentsAreFew` | vts/services/media.py:226-256 | there are at most duration / min(45, target) + 1 segments |
| `Segments.EmptyTailIffCutSnapsToTheEnd` | vts/services/media.py:238-247 | the last core is empty if and only if the cut before it snapped to a silence point at the very end; without a silence point there it never is |
| `Segments.EmptyTailExample` | vts/services/media.py:240-247 | a plan whose first cut snaps to the end |
| `Segments.FullTailExample` | vts/services/media.py:240-247 | a plan with a silence point at the end and a full last core |
| `Throttle.RedisBus.PublishEvent` | vts/services/redis_bus.py:128-145 | one call: the decision and the whole new map, including the entry that merely reading inserts |
| `Throttle.RedisBus.EvictStaleThrottleKeys` | vts/services/redis_bus.py:87-126 | the age pass and the size pass |
| `Throttle.RedisBus.Delete` | vts/services/redis_bus.py:120-126 | deleting a list of keys |
| `Throttle.AgedIsValid` | vts/services/redis_bus.py:119-121 | the age pass drops exactly the entries idle for more than twenty intervals |
| `Throttle.SizePassDropsTheOldest` | vts/services/redis_bus.py:122-126 | the size pass drops exactly the excess, none newer than one it keeps |
| `Throttle.EvictIsBounded` | vts/services/redis_bus.py:87-126 | after eviction the map is within its ceiling and values are unchanged |
| `Throttle.EvictionNeverChangesADecision` | vts/services/redis_bus.py:87-145 | refinement: with a monotone clock and the ceiling out of reach, every decision is that of a map that never forgets |
| `Throttle.PublishedExactlyWhenDue` | vts/services/redis_bus.py:137-145 | an event goes out if and only if the clock is one interval past zero and every earlier publish of its key is at least one interval back |
| `Throttle.FewKeysAreCalm` | vts/services/redis_bus.py:117-126 | with at most 1024 different keys the size pass never has anything to do |
| `Throttle.FewKeysThrottleExactly` | vts/services/redis_bus.py:87-145 | hence, for any monotone run over that many keys, every decision is that of a map that never forgets, and events go out exactly when due |
| `Throttle.CeilingStep` | vts/services/redis_bus.py:137-145 | one call exceeds the ceiling exactly when it suppresses an unknown key in the first interval after zero with a full map |
| `Throttle.MapStaysUnderTheCeiling` | vts/services/redis_bus.py:117-126 | with the clock one interval past zero the map never exceeds 1024 entries between calls |
| `Throttle.NoCeilingInTheFirstInterval` | vts/services/redis_bus.py:137-143 | before that there is no bound at all: n first calls leave n entries |
| `Cursor.StripThenPad` | vts/mcp/cursor.py:14-16 | the padding stripped by the encoder is exactly what the decoder restores from the length |
| `Cursor.FeedGroup` | vts/mcp/cursor.py:25-29 | three bytes come back from their four symbols |
| `Cursor.Base64RoundTrip` | vts/mcp/cursor.py:14-29 | unpadded URL-safe base64 gives back any bytes |
| `Cursor.PublishedVectors` | vts/mcp/cursor.py:14-16 | vectors of RFC 4648 section 10 and the two URL-safe symbols |
| `Cursor.DecodesIff` | vts/mcp/cursor.py:27-31 | a text without padding decodes exactly when it is ASCII and the padding its length asks for completes the last group; foreign characters carry no data |
| `Cursor.PartitionAtFirstBar` | vts/mcp/cursor.py:33 | the text is divided at its first bar |
| `Cursor.CursorRoundTrip` | vts/mcp/cursor.py:14-43 | decoding an encoded cursor gives back the timestamp and the id |
| `Cursor.DecodeIsExact` | vts/mcp/cursor.py:19-43 | a cursor is read exactly when it carries a time, a bar and an id, divided at the first bar, and each way to fail has its own error |
| `TaskPaging.NarrowByVoice` | vts/mcp/tools.py:347-365 | the person loop and the diarised filter, with the honest empty page |
| `TaskPaging.NarrowIsExact` | vts/mcp/tools.py:347-365 | the narrowed query matches what the query matches and the voice filter asks for; an empty page means it asks for nothing |
| `TaskPaging.ListTasksTool` | vts/mcp/tools.py:298-419 | refusals, the page, has_more, next_cursor and total |
| `TaskPaging.SortedIsExact` | vts/db/repo.py:227-231 | the ordered query is a permutation, strictly descending by (created_at, id) |
| `TaskPaging.CutAtRow` | vts/db/repo.py:223-224 | below the key of a row, the ordered answer is exactly what follows that row |
| `TaskPaging.EverythingIsTheAnswer` | vts/db/repo.py:176-233 | without a cursor the query holds every matching task once, newest first, and the count is its size |
| `TaskPaging.CallHandsOutThePrefix` | vts/mcp/tools.py:367-402 | an accepted call returns the front of what is pending; has_more holds exactly when rows remain; the cursor is accepted again and stands exactly at them |
| `TaskPaging.PagingYieldsEverything` | vts/mcp/tools.py:298-419 | following next_cursor until has_more is false yields exactly the tasks asked for, by status, range, search and voice, each once, newest first with ties by id, as many as the total says |
| `TaskPaging.RefusalsAreExact` | vts/mcp/tools.py:325-336 | a call is refused for its limit, its range or its cursor, in that order, and for nothing else |
| `Upload.NameTellsIndex` | vts/services/upload_session.py:28-38 | a staged name determines its index and what follows it |
| `Upload.NamesApart` | vts/services/upload_session.py:28-38 | final and staging names of one session never collide |
| `Upload.UploadSession.InitMulti` | vts/services/upload_session.py:136-180 | one part per file, existing bytes kept, one sidecar entry per index |
| `Upload.UploadSession.AppendChunkAt` | vts/services/upload_session.py:183-196 | the chunk is appended and the first entry of that index records the new size |
| `Upload.FreshBooksIffPartsEmpty` | vts/services/upload_session.py:154-164 | a new session counts right if and only if no part holds bytes already: those are kept but not counted |
| `Upload.AppendKeepsTheBooks` | vts/services/upload_session.py:183-196 | the sidecar keeps counting exactly the bytes on disk, and other parts are untouched |
| `Upload.AppendsArrive` | vts/services/upload_session.py:183-196 | after any series of appends each part is the concatenation of the chunks sent to it, and the sidecar counts it |
| `Upload.UploadArrives` | vts/services/upload_session.py:136-262 | the whole upload: staged, filled to the declared sizes, finalized with any number of interruptions: the answer names one final file per item in the order of the items, and each is the concatenation of the chunks sent for it |
| `Upload.UploadSession.MissingStaging` | vts/services/upload_session.py:237-245 | the pre-check |
| `Upload.UploadSession.FinalizeMulti` | vts/services/upload_session.py:199-262 | pre-check, renames in index order, sidecar removal; the process may die after any number of entries |
| `Upload.OrderedIsSorted` | vts/services/upload_session.py:232 | every entry is visited once, by ascending index |
| `Upload.MissingIsExact` | vts/services/upload_session.py:237-247 | the missing list names exactly the entries with neither a staged part nor a final file of the declared size |
| `Upload.MissingRenamesNothing` | vts/services/upload_session.py:246-247 | a run that finds an entry missing renames nothing |
| `Upload.FinalizeAnswers` | vts/services/upload_session.py:225-262 | refused exactly when some entry has neither a staged part of any size nor a final file of the declared size, naming exactly those and touching nothing; otherwise one final name per entry in index order |
| `Upload.NameVectors` | vts/services/upload_session.py:28-38 | how final and staging names look, to the character |
| `Upload.RenamedPrefix` | vts/services/upload_session.py:250-256 | after n renames: staged bytes under the final names, staging names gone, every other file as it was |
| `Upload.RenamingResumes` | vts/services/upload_session.py:250-256 | finishing after n renames gives the directory of an uninterrupted run |
| `Upload.ResumesIffSized` | vts/services/upload_session.py:199-262 | an interrupted and re-run finalize ends like one uninterrupted run if and only if every part renamed before the interruption has its declared size |
| `Upload.AnyNumberOfRunsEndsTheSame` | vts/services/upload_session.py:199-262 | with declared sizes, any number of interrupted runs reaches the same files and the same ordered result |
| `Upload.NamesSortByIndex` | vts/services/upload_session.py:31-33 | below a thousand files the names sort in index order |
| `Upload.ThousandSortsEarly` | vts/services/upload_session.py:35-36 | from a thousand on they do not; the counterexample is 1000 against 101, not against 99 |
| `WebVtt.RenderWebvtt` | vts/services/subtitles.py:76-107 | the nested loops produce the track of the emitted cues |
| `WebVttTrack.TrackShowsTheTranscript` | vts/services/subtitles.py:76-107 | the cues read off the blocks: the sentences with both times and a word to show, each once, in the order of the transcript, at their own times clamped at zero, with their words, behind the name of their block if it has one |
| `WebVttTrack.CueTextWords` | vts/services/subtitles.py:64-73 | a cue text has the words of its lines in order but for bare arrows, and is empty exactly when there are none |
| `WebVttTrack.CueTextIsFaithful` | vts/services/subtitles.py:64-73 | without a bare arrow line, a cue text has exactly the words of its sentence |
| `WebVttTrack.LinesKeepWords` | vts/services/subtitles.py:71 | breaking a text into lines loses no word |
| `WebVttTrack.VoiceNameNames` | vts/services/subtitles.py:47-61 | a name keeps its visible characters in order but for angle brackets, and its words if it has none |
| `WebVttTrack.TimestampVectors` | vts/services/subtitles.py:27-44 | how a timestamp looks, to the character |
| `WebVttTrack.TrackLooks` | vts/services/subtitles.py:76-107 | the layout of a track to the character |
| `WebVttLaws.TimestampRoundTrip` | vts/services/subtitles.py:27-44 | a timestamp has minutes and seconds below 60 and reads back as the same milliseconds, negative ones as zero |
| `WebVttLaws.TimingLineReads` | vts/services/subtitles.py:104-106 | a timing line reads back as both times |
| `WebVttLaws.VoiceNameChars` | vts/services/subtitles.py:47-61 | a speaker name holds no line break and no angle bracket |
| `WebVttLaws.CueTextChars` | vts/services/subtitles.py:64-73 | a cue text is a single line |
| `WebVttLaws.CueTextArrows` | vts/services/subtitles.py:64-73 | a cue text holds an arrow exactly when some line of the text does without being nothing else |
| `WebVttLaws.PayloadArrows` | vts/services/subtitles.py:103 | a tagged payload holds an arrow if the text does or if the name ends in two dashes |
| `WebVttLaws.VoiceComesBack` | vts/services/subtitles.py:103 | name and text come back from the payload; without a name, exactly when the text does not look like a voice tag |
| `WebVttLaws.TrackReadsBack` | vts/services/subtitles.py:76-107 | a track parses back to its cues if and only if no payload holds an arrow or a NUL |
| `WebVttLaws.TranscriptReadsBack` | vts/services/subtitles.py:27-107 | the same for whole transcripts, with the condition on names and lines of text |
| `WebVttLaws.DashesSpoilACue` | vts/services/subtitles.py:103 | a speaker whose name ends in two dashes spoils an innocent cue |
| `CorpusSearch.SearchChunks` | vts/services/corpus_search.py:218-310 | the search returns exactly a slice of the qualifying ranking, despite fetch cap and early exits |
| `CorpusSearch.CollectHits` | vts/services/corpus_search.py:276-310 | the loop with its threshold break, offset skip and limit break |
| `CorpusSearch.PageOfFetched` | vts/services/corpus_search.py:248 | the page cut from the fetched rows is the page of the whole ranking |
| `CorpusSearch.QualifyingIsPrefix` | vts/services/corpus_search.py:279-283 | in a ranking the qualifying rows are a prefix, so stopping at the first bad row is right |
| `CorpusSearch.FetchCoversThePage` | vts/services/corpus_search.py:243-248 | for every accepted offset and limit the fetch cap leaves enough candidates for the page |
| `CorpusSearch.CountIsSizeOfRanking` | vts/services/corpus_search.py:177-215 | the count over stored rows is the size of the qualifying ranking |
| `CorpusSearch.PageFillsUpToTheTotal` | vts/services/corpus_search.py:85-310 | refusal exactly for unreachable offsets; otherwise a page holds exactly what the total leaves for it, all at or above the threshold |
| `CorpusSearch.SearchAnswers` | vts/services/corpus_search.py:85-310 | read off the corpus: refused exactly past the fetch cap; otherwise the wanted passages of the ranking from the offset on, as many as the page holds and the wanted passages of the corpus leave, each shown with its own fields |
| `CorpusSearch.QualifyingAreWanted` | vts/services/corpus_search.py:177-215 | the passages that qualify are exactly the corpus rows in scope and at or above the threshold, as often as stored |
| `SearchPaging.ScoresAgree` | vts/services/corpus_search.py:263-274 | two rankings of one corpus have the same score at every position |
| `SearchPaging.PagesAt` | vts/services/corpus_search.py:218-310 | position m of the pages is position m of the ranking its page was cut from |
| `SearchPaging.PagesPartitionTheRanking` | vts/services/corpus_search.py:218-310 | with pairwise different qualifying scores the pages, each ranked anew, are together the front of the ranking, each row once and in order |
| `SearchPaging.PagingIsCompleteIff` | vts/services/corpus_search.py:218-310 | however each page orders equal scores, the pages hand out every qualifying passage exactly once if and only if no tie lies across a page boundary and the total fits the pages |
| `SearchPaging.TieRepeatsAPassage` | vts/services/corpus_search.py:272 | any tie across a page boundary has rankings under which a passage comes twice |
| `SearchPaging.TiedPassagesRepeat` | vts/services/corpus_search.py:272 | two passages of one score, one per page: both pages may show the same one |
| `TokenBudget.ClampIsMedian` | vts/pipeline/token_budget.py:51-57 | between its bounds, the lower bound when they cross, exact at and between them |
| `TokenBudget.TargetRespectsBounds` | vts/pipeline/token_budget.py:60-77 | the target lies between the bounds and is the rounded ratio share where that fits; when the bounds cross the lower one wins |
| `TokenBudget.BoundsAreTight` | vts/pipeline/token_budget.py:68-75 | the lower bound is the least whole number at or above share and floor, the upper the greatest at or below share and cap |
| `TokenBudget.UncapLiftsTheCap` | vts/pipeline/token_budget.py:156-167 | the raised cap no longer binds, nothing else changes, and raising again changes nothing |
| `TokenBudget.TargetAgainstInput` | vts/pipeline/token_budget.py:60-77 | with ratios at most one the target exceeds the input only where the absolute floor does, and then equals it |
| `TokenBudget.WindowIsAvailable` | vts/pipeline/token_budget.py:141-153 | the derived window is half the free context, held between floor and cap |
| `TokenBudget.WindowFitsIffFloorUnneeded` | vts/pipeline/token_budget.py:115-153 | the full window passes the whole-transcript check if and only if it did not need its floor |
| `TokenBudget.FittingIsPossible` | vts/pipeline/token_budget.py:115-138 | passing that check implies that the whole transcript is possible |
| `TokenBudget.SegmentFitsIff` | vts/pipeline/token_budget.py:60-167 | an input up to the window fits the context with its target if and only if the absolute segment floor is at most the input or fits beside it |
| `TokenBudget.DerivedWindowIsSafe` | vts/pipeline/token_budget.py:60-167 | the whole chain for inputs no smaller than the segment floor |
| `TokenBudget.SmallInputOverflows` | vts/pipeline/token_budget.py:60-77 | an input below a large absolute floor overflows the context |

## Left out

- Database, Redis, HTTP, ffmpeg and process plumbing: tables are maps or
  sequences of rows, the media directory is a map from names to bytes, clocks
  are parameters.
- Float rounding: times, ratios and scores are reals, subtitle times are whole
  milliseconds; NaN and infinities are not modelled.
- Type coercion of malformed JSON fields: a field is present with its type or
  absent.
- The order of speakers inside a whole chunk: the list a group of entries gives
  is ordered, an absorbing chunk keeps its own in front, the laws end to end are
  about the set.
- A task without a status: the column is never NULL in the declared schema.
- Stale processing of one delivery row by two workers, and two POSTs for one
  diarization id interleaved inside the upload read.
- Choosing an adapter, reading secrets and resolving a payload: their outcome
  (sent, adapter missing, raised) is a parameter.
- Foreign-key RESTRICT aborts in the account merge, which roll everything back,
  and a crash between two child renames of the directory fold.
- Step bodies, lane waiting, donor cloning, metrics, push messages, the
  recording upsert and the shielded cancellation write: the work of a step and
  the moment of an interruption are parameters.
- The `cancelled` status of a diarization record that has already left the
  table, the progress step names, and the 404 that precedes the event stream.
- Silence detection and the export of segments.
- The clock of the throttle is not tied to real time; several keys with one
  emission time are ordered by insertion, as the dictionary does.
- `isoformat`, `fromisoformat`, UUID and UTF-8 conversions are parameters that
  are only assumed to read back what they print.
- The text search and source-type filters of the task list are one predicate.
- Reordering the files of an upload session after finalizing, its garbage
  collection, and chunks that arrive after a part was renamed.
- WebVTT style and region blocks, cue settings, character references and tags
  other than a leading voice tag.
- Embedding and the vector index: a ranking is an argument, any ordering of the
  rows in scope by score; the corpus does not change between pages.
- Pack and final budgets, and the context-overflow heuristics.
- Authentication, configuration, migrations, schemas and the user interface.
- Splitting.SplitKeepsWords: stated for texts with collapsed whitespace, which
  is the only kind the caller passes.
- ChunkLaws.ChunksCarryEveryWord: stated for caps of at least one character; a
  cap of zero is a configuration the splitter does not terminate on.
