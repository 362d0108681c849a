# Speculative decoding, checked

A Dafny model of MTPLX's speculative-decode drivers and of the data structures around them. The neural
network is an uninterpreted deterministic function of a row's key/value prefix, recurrent state and
token; the drafter is an arbitrary oracle. What is modelled is the bookkeeping that must leave the
committed tokens equal to plain greedy decoding: rollback by overwriting, masked restore, replay,
pending tokens, late commits, offsets, admissions, merges and rebases.

`dafny verify dfyconfig.toml` checks the project.

| file | what it models |
|---|---|
| `Wrappers.dfy` | the option type |
| `TargetModel.dfy` | one row of the target: clean consumption of a context, greedy continuation, a forward over a slab that may hold stale entries |
| `Ledger.dfy` | requests, commits, stop and length, slots and the slack that bounds the number of cycles |
| `RaggedCache.dfy` | per-row offsets over a shared-capacity buffer beside recurrent state |
| `FoldinRow.dfy`, `FoldinLoop.dfy`, `BatchedDecode.dfy` | batched greedy decode: fold-in replay, plain, pipelined repair and serial repair, with refill |
| `MtpPrefill.dfy`, `CohortRow.dfy`, `Cohort.dfy` | the MTP cohort: chunked and resumed prefill, row merge, the cycle, the whole call |
| `GridLevels.dfy`, `Retention.dfy`, `MovingTail.dfy`, `Checkpoints.dfy` | which recurrent checkpoints are kept |
| `AneDevice.dfy`, `AnePipeline.dfy`, `AneMoe.dfy` | two-half prefill pipelines over programs with one output buffer |
| `TargetLayers.dfy`, `TargetPrefix.dfy` | the 40-layer compiled target, its flat state layout, verify, rebase and repair |
| `BlockAttention.dfy` | online softmax over key blocks |
| `Int4Weights.dfy` | INT4 checkpoint conversion |
| `NgramIndex.dfy` | the copy lane's n-gram index and token view |
| `AdaptiveDtemp.dfy` | the draft-temperature controller |
| `SegmentMemo.dfy` | the segment encode memo |

## What was found

* **No room for an admission window.** The refill lane freezes the KV capacity at
  `prompt_len + max_new_tokens + 16` (`mtplx/batched_decode.py:1238-1246`), while an admission prefill
  writes `prompt_len` dummy positions at the offset of every row it does not admit, and
  `freeze_capacity`'s documentation counts on one admission window of room
  (`mtplx/ragged_kv_cache.py:340-356`). The model follows the code and makes the overrun an outcome:
  an admission pass fails exactly when some row it does not admit stands above the capacity less the
  prompt length (`FoldinLoop.Loop.AdmitRows`), and a call exactly when one of its passes does
  (`BatchedDecode.GenerateGreedyBatched`). From the arguments alone: a call never overruns if twice the
  prompt length plus the new tokens plus three fit the capacity, if the cohort has one slot, or if
  nobody waits and there is no pad row or two prompts fit. It always overruns if a padded cohort's
  prompts exceed half the capacity, or if they reach half of it, somebody waits, and there is a pad row
  or the queue does not fill whole cohorts. With nobody waiting this leaves nothing open; the calls in
  between depend on when the model ends each request (`BatchedDecode.OverrunDecided`).
* **Reads left pending by the long-context split.** With `MTPLX_ANE_PREFILL_PIPELINE_LONG=1` the second
  piece starts before the first is evaluated (`mtplx/ane_prefill.py:493-505`), and its runs overwrite
  the outputs both halves of the first piece still read (`AnePipeline.LongSplit`). The first piece is
  right exactly if that changes no share (`AnePipeline.LongSplitRight`, and an instance where it does,
  `AnePipeline.LongSplitIsWrong`). Evaluating both halves before the second piece starts makes all four
  right (`AnePipeline.LongSplitForced`).
* **Retention is confluent for every budget,** not only for one that holds all anchors, as long as the
  records have one size and the prompt end is known or no tail is kept before it
  (`Retention.ThinFirst`). A plan without a prompt end takes the newest checkpoint for it, and such a
  plan is built for a list that is not a sink (`mtplx/generation.py:5971-5973`): there trimming each
  time is trimming once exactly if the tail is at most one token (`MovingTail.PlainConfluent`), and the
  default tail is 64 (`MovingTail.DefaultTailErodes`).

## How the model stands to the code

* A batched forward is row-independent: each row sees only its own tokens, slab and state. This is
  where numerical effects of batching are set aside.
* A KV entry is a function of the prefix below it, the recurrent state and the token; an output of the
  prefix with the entry. Slabs, offsets, frozen and grown capacities are as in the code.
* Cancellation, aborts, failing ANE runs and the contents of an output buffer during a run are
  arbitrary functions; results hold for all of them. An asynchronous evaluation is not a step of its
  own: a read gives the same value whenever it is evaluated before the next run.
* Every poll of a cancellation has its own name, so that any pattern of answers is covered; the polls of
  a row's peers during its prefill are one poll after it.
* A refill run's log of admissions and of admission passes is ghost state that the admissions keep.
* The tokens consumed before each cycle of a compiled-target decode are given with the run, as the primaries
  and accepted drafts of the earlier cycles; the number of tokens a cohort row had when each of its cycles
  began is reported with its stream.
* In the pipelined lane the repair forward is modelled with the submission it repairs, before the held
  commits are drained; the two touch different state.
* The mask's score is below every score and level with itself, and its exponential beside any other
  score is zero, as the smallest finite float's is after rounding.
* Positions of checkpoints are bounded only so that a grid cell index does not outgrow the level given
  to a first checkpoint, which would take a position of more than 2^30 bits.
* An `OrderedDict` is the sequence of its entries in order; a Python list that grows is a `seq` field.
* `default_checkpoint_count` is its default of 8 when a plan names neither bytes nor a count.

## Model

| member | source | states |
|---|---|---|
| `TargetModel.RunRowConsumes` | mtplx/ragged_kv_cache.py:201-277 | a row written over a slab with stale entries past its length leaves exactly the clean keys and recurrent state of the longer context |
| `TargetModel.RunRowOutput` | mtplx/ragged_kv_cache.py:201-277 | each output of such a forward is the clean output at its own position, whatever is stale beyond it |
| `RaggedCache.Cache.Forward` | mtplx/ragged_kv_cache.py:201-277 | a batched forward is, row by row, a one-row forward at that row's own offset |
| `RaggedCache.Cache.GrowTo` | mtplx/ragged_kv_cache.py:183-199 | growth reaches the step-rounded capacity and loses nothing written |
| `RaggedCache.Cache.Reserve` | mtplx/ragged_kv_cache.py:318-338 | room for the next write without changing a frozen capacity |
| `RaggedCache.Cache.Freeze` | mtplx/ragged_kv_cache.py:340-356 | one constant capacity from here on |
| `RaggedCache.Cache.RestoreMasked` | mtplx/cache_state.py:6167-6197 | exactly the masked rows take the snapshot's recurrent state |
| `RaggedCache.Cache.ZeroRows` | mtplx/batched_decode.py:921-950 | exactly the masked rows get a fresh recurrent state |
| `RaggedCache.Cache.Trim` | mtplx/cache_state.py:6159-6164 | every row forgets the verified positions, which stay in the buffer |
| `Ledger.SoloResultUnique` | mtplx/batched_decode.py:1009-1012 | a request has one solo greedy result (cut at the first stop token or at the length limit) |
| `Ledger.SoloResultIs` | mtplx/batched_decode.py:1174-1185 | every token of it is the model's next after the ones before, only the last may be a stop token, and the reason is stop or length accordingly |
| `Ledger.CommitAllGreedy` | mtplx/batched_decode.py:1174-1185 | committing greedy tokens one by one leaves an open greedy stream or exactly the solo result |
| `Ledger.CommitAllFinished` | mtplx/batched_decode.py:1176-1178 | nothing is committed to a finished request |
| `Ledger.DrainHeld` | mtplx/batched_decode.py:805-836 | draining held tokens later gives the stream that committing them at once would |
| `Ledger.Book.Commit` | mtplx/batched_decode.py:1174-1185 | one token goes to the slot's request and to no other |
| `Ledger.Book.Drain` | mtplx/batched_decode.py:805-810 | the held commits of one cycle, each slot's in order, to its own request |
| `Ledger.Book.Admit` | mtplx/batched_decode.py:1296-1299 | a slot serves the assigned request from now on |
| `Ledger.TotalSlackDrops` | mtplx/batched_decode.py:813-819 | a cycle in which some unfinished request decides a token uses up slack |
| `FoldinRow.CycleKeepsRowOk` | mtplx/batched_decode.py:721-793 | for any draft, a fold-in cycle of a fresh or replaying row decides one or two tokens, they are the next greedy ones, and the row again stands exactly after them |
| `FoldinRow.CycleKeepsStanding` | mtplx/batched_decode.py:721-793 | the same for a request with commits still held |
| `FoldinRow.ReplayKeepsRowOk` | mtplx/batched_decode.py:729-766 | a row that missed overwrites its stale draft slot from the rewound recurrent state |
| `FoldinRow.ArCycleKeepsStanding` | mtplx/batched_decode.py:579-598 | a plain decode cycle decides the next greedy token |
| `FoldinRow.RepairCycleKeepsStanding` | mtplx/batched_decode.py:1451-1479 | the verify with uniform repair decides the same two tokens, repaired or not |
| `FoldinRow.CleanRead` | mtplx/batched_decode.py:1250-1294 | an admitted prompt reads nothing of the slab it is written over |
| `FoldinRow.AdmittedStanding` | mtplx/batched_decode.py:1250-1301 | a freshly admitted row stands exactly after its prompt, whatever the slot held before |
| `FoldinRow.StandingBelowOffset` | mtplx/batched_decode.py:1275-1289 | writes past a row's logical length do not disturb it |
| `FoldinLoop.Loop.Submit` | mtplx/batched_decode.py:721-793 | one [B,2] fold-in forward: every live row does its row cycle, idle rows are pinned in bounds |
| `FoldinLoop.Loop.SubmitAr` | mtplx/batched_decode.py:579-598 | one [B,1] forward: every live row does its plain cycle |
| `FoldinLoop.Loop.SubmitRepair` | mtplx/batched_decode.py:1422-1479 | one [B,2] verify and, unless all real rows accept, the rollback and the repair forward |
| `FoldinLoop.Loop.WriteBound` | mtplx/batched_decode.py:735-751 | in refill decode cycles a live row stands at prompt plus decided tokens, a done row is pinned, and every write index is 13 below the frozen capacity; with Step, a finished row runs one more cycle and is then pinned or re-admitted |
| `FoldinLoop.Loop.DrainHeldCommits` | mtplx/batched_decode.py:805-836 | each held commit reaches the request its slot served when it was decided, once; the slot is done exactly if that finishes the request |
| `FoldinLoop.Loop.Step` | mtplx/batched_decode.py:852-863 | submit, drain the cycle before, read: the invariant of every request and slot is kept, and a live row whose held commits finish its request is done after this one further cycle |
| `FoldinLoop.Loop.Flush` | mtplx/batched_decode.py:827-836 | the held commits are drained exactly once |
| `FoldinLoop.Loop.AdmitForward` | mtplx/batched_decode.py:1256-1294 | admitted rows run their prompt from offset zero over zeroed state; every other row is put back |
| `FoldinLoop.Loop.AdmitRows` | mtplx/batched_decode.py:1250-1301 | an admission keeps the invariant, changes the given slots alone, is logged in queue order, and fails exactly when some row that is not admitted would be written past the capacity |
| `FoldinLoop.Loop.OverrunBound` | mtplx/batched_decode.py:1238-1246 | an overrun needs a capacity below two prompt lengths plus the new tokens plus three |
| `FoldinLoop.Loop.ChooseAssign` | mtplx/batched_decode.py:1315-1322 | slot by slot: a finished real slot gets the next queued request while there is one, every other slot nothing |
| `FoldinLoop.TakesAll` | mtplx/batched_decode.py:1315-1322 | so the requests are consecutive and distinct, and either the queue runs out or no finished slot is left without one |
| `FoldinLoop.Loop.EnrolSlots` | mtplx/batched_decode.py:1296-1300 | the given slots take their requests; the log of admissions stays 0, 1, 2, ... and each slot serves what it was admitted last |
| `FoldinLoop.Loop.AdmitIntoFinished` | mtplx/batched_decode.py:1315-1325 | a pass that fits leaves no finished slot while a request is queued, and only slots whose request is finished serve another, a queued one |
| `FoldinLoop.Loop.AdmitQueued` | mtplx/batched_decode.py:1309-1325 | drain first, then admit into every finished slot: a pass happens exactly when a request is queued and a slot is finished, and nothing held leaks into an admitted request |
| `FoldinLoop.Loop.Iterate` | mtplx/batched_decode.py:844-863 | a finished slot is re-admitted at the next cycle boundary: every iteration makes the admission that is due, then one cycle |
| `FoldinLoop.Loop.Enter` | mtplx/batched_decode.py:1303-1307 | the initial cohort enters through the same pass, each request into its own slot, exactly when there is no pad row or two prompt lengths fit |
| `FoldinLoop.Loop.CapNeverBinds` | mtplx/batched_decode.py:1327-1330 | while work is left the cycle cap of each lane is out of reach, under refill too |
| `FoldinLoop.Loop.FinishedIsSolo` | mtplx/batched_decode.py:1510-1524 | a finished request holds its solo greedy result |
| `FoldinLoop.Loop.Run` | mtplx/batched_decode.py:838-866 | fold-in, plain and pipelined runs end with every request's solo result, all requests admitted in order, each to one slot once, every pass in capacity; or the last pass did not fit, which takes a queue and more than one row |
| `FoldinLoop.Loop.RunSerial` | mtplx/batched_decode.py:1365-1413 | so does the serial baseline |
| `BatchedDecode.GenerateGreedyBatched` | mtplx/batched_decode.py:953-1524 | invalid exactly on a refused call; otherwise the streams are, in the caller's order, the solo greedy results of the prompts and then of the queue, for every drafter, dummy row and mix, the queue admitted in order, or an admission overran: exactly when a recorded pass leaves a row that keeps its request without room, never and always under the two conditions on the arguments |
| `BatchedDecode.OverrunDecided` | mtplx/batched_decode.py:1238-1246 | the two conditions exclude each other; they decide every call without waiting requests or of one slot, and where twice the prompt reaches the capacity every call but those whose queue fills whole cohorts |
| `BatchedDecode.RunDecides` | mtplx/batched_decode.py:1238-1325 | no run against them: a row that has been through a cycle stands above its prompt, so where two prompts fill the capacity only whole cohorts without pad rows get in |
| `BatchedDecode.AllSoloAgree` | mtplx/batched_decode.py:1009-1012 | so the four loops, and any two runs of them, report the same streams |
| `BatchedDecode.AdmissionRoom` | mtplx/batched_decode.py:1238-1246 | prompts up to 13 tokens leave room for every admission; from 256 tokens on that exceed the new ones by 48, not even the initial one of a padded cohort has it |
| `BatchedDecode.CapacityIs` | mtplx/batched_decode.py:1238-1246 | the frozen capacity: a margin of 16 above prompt and new tokens, in steps of 32, or the 256-step prefill buffer if that is enough |
| `BatchedDecode.PaddedEntryOverruns` | mtplx/ragged_kv_cache.py:340-356 | 1000 prompt tokens and 100 new ones: 1120 positions for an admission written up to position 2000 |
| `BatchedDecode.Prefill` | mtplx/batched_decode.py:1126-1157 | the batched prefill leaves each row after its own prompt |
| `BatchedDecode.Prepare` | mtplx/batched_decode.py:1073-1246 | rows, ledger and frozen capacity a run starts from |
| `MtpPrefill.PrefillRequest` | mtplx/a3b_mtp_batch.py:2024-2135 | for every chunk size, cold or from a boundary-true restore inside the prompt, the caches hold exactly the prompt, the history pairs every hidden with its next token, and the output is the clean last one; a true boundary is captured at every chunk edge, at these positions alone and in order, and an aborted prefill has a start of them; it aborts exactly if one of its polls says so |
| `MtpPrefill.ChunksIs` | mtplx/a3b_mtp_batch.py:2085-2090 | the number of chunks is the least that reaches the end of the prompt's body |
| `MtpPrefill.PrefillChunk` | mtplx/a3b_mtp_batch.py:2087-2116 | one chunk consumes its tokens once and appends their history pairs |
| `MtpPrefill.RememberExtends` | mtplx/a3b_mtp_batch.py:2099-2108 | appending the pairs of a chunk extends the history of the context |
| `MtpPrefill.MergeRows` | mtplx/a3b_mtp_batch.py:2442-2509 | merged rows keep everything below their logical lengths in one capacity sized by the longest logical row |
| `CohortRow.EmitIsGreedy` | mtplx/a3b_mtp_batch.py:2670-2693 | whatever the draft, the primary, second and bonus of a cycle are the next greedy tokens |
| `CohortRow.KeptIsConsumed` | mtplx/a3b_mtp_batch.py:3222-3266 | the rows the cache keeps are exactly the tokens before the new pending one |
| `CohortRow.LastPrimaryFinishes` | mtplx/a3b_mtp_batch.py:3166-3173 | a row that may not finish the cycle ends with its primary |
| `CohortRow.CommitHolds` | mtplx/a3b_mtp_batch.py:796-848 | keeping one or two verified rows leaves the target caches exactly after them |
| `CohortRow.CommitHistory` | mtplx/a3b_mtp_batch.py:3177-3303 | the MTP history gains the pair of the primary and, on acceptance, of the draft |
| `CohortRow.IdleRowUnchanged` | mtplx/a3b_mtp_batch.py:796-848 | a row with keep zero keeps its offsets, recurrent state and everything below its lengths |
| `CohortRow.CycleKeepsRunning` | mtplx/a3b_mtp_batch.py:3137-3353 | a cycle of a running row emits greedy tokens and moves both lengths by its keep count |
| `CohortRow.CutShortIsPrefix` | mtplx/a3b_mtp_batch.py:3317-3330 | what a cancelled row holds is a prefix of its solo result |
| `CohortRow.CommitSome` | mtplx/a3b_mtp_batch.py:3321-3336 | stopping a commit after any of its tokens leaves an open stream, the solo result or a start of it |
| `Cohort.Batch.RunningLengths` | mtplx/a3b_mtp_batch.py:3126-3135 | for a running row the host bound is prompt plus tokens less the pending one, and the MTP length one less |
| `Cohort.Batch.PollCancels` | mtplx/a3b_mtp_batch.py:3140-3143 | exactly the running rows polled cancelled end, with what they have |
| `Cohort.Batch.Advance` | mtplx/a3b_mtp_batch.py:3146-3312 | the device half of a cycle does every row's cycle and moves the host bounds with the device lengths |
| `Cohort.Batch.CommitRow` | mtplx/a3b_mtp_batch.py:3314-3352 | a row polled cancelled keeps its tokens; else its emitted tokens in order until it stops, is full or is cancelled; no other row changes |
| `Cohort.Batch.EmitTokens` | mtplx/a3b_mtp_batch.py:3321-3336 | the tokens up to the first poll, before or after one, that says cancelled, and without one exactly what the commit rule takes |
| `Cohort.Batch.Cycle` | mtplx/a3b_mtp_batch.py:3137-3353 | the invariant of every row is kept and every running row gains a token; an ended row stays, a row polled cancelled before its commit ends with what it has, and every other row commits the next greedy tokens as polled |
| `Cohort.Batch.BoundNotReached` | mtplx/a3b_mtp_batch.py:3089-3139 | a running row has a token per cycle, so the bounded-cycle error is unreachable |
| `Cohort.Batch.Run` | mtplx/a3b_mtp_batch.py:3137-3353 | the cohort loop ends with every row finished and never exceeds its bound; a row that had ended stays as it is, and every other one ran whole cycles, a token or more each, up to the one it was cut in or done |
| `Cohort.PollEnds` | mtplx/a3b_mtp_batch.py:3140-3143 | a poll that says cancelled ends the row where it is asked: nothing is committed in that cycle or after that token |
| `Cohort.NothingLost` | mtplx/a3b_mtp_batch.py:3317-3336 | what a row committed before its first such poll is in its stream: a token for every cycle without one |
| `Cohort.EnterRow` | mtplx/a3b_mtp_batch.py:2989-3060 | a live row enters with its prompt's caches; it is cancelled, with a placeholder in its slot, exactly if some poll of its own prefill says so |
| `Cohort.ReplaceCancelled` | mtplx/a3b_mtp_batch.py:2978-3068 | exactly the peers polled cancelled after another row's prefill end, and only they are replaced |
| `Cohort.Merge` | mtplx/a3b_mtp_batch.py:3070-3075 | merging the rows keeps what each of them holds |
| `Cohort.GenerateCohort` | mtplx/a3b_mtp_batch.py:2928-3378 | for every draft sequence, mix of peers, chunk size, true restores and cancellations at any poll, an uncancelled request ends with exactly its solo greedy result; a cancelled one ends at the first poll of its own run that says so, with everything committed before it and nothing after, an empty stream if that is a poll of the prefill |
| `GridLevels.XorIsApart` | mtplx/checkpoint_anchors.py:181-200 | the bit length of two cells' XOR is how many low bits must go before they coincide |
| `GridLevels.ChainIsMax` | mtplx/checkpoint_anchors.py:44-47 | along ascending cells the level of the ends is the greater step level: two equal steps need a coarser one between them |
| `Retention.KeptUnique` | mtplx/checkpoint_anchors.py:203-262 | the slots determine the kept set |
| `Retention.GapIsMax` | mtplx/checkpoint_anchors.py:181-200 | the level over a gap is reached by some checkpoint inside it |
| `Retention.ThinnedLevel` | mtplx/checkpoint_anchors.py:44-47 | after thinning a checkpoint ranks as before, or as a dropped one between it and the one now before it |
| `Retention.RankStays` | mtplx/checkpoint_anchors.py:44-47 | thinning to the budget leaves the rank of every unprotected checkpoint it keeps |
| `Retention.AnchorGrown` | mtplx/checkpoint_anchors.py:216-247 | with the prompt end known or no tail a capture moves an anchor only onto itself |
| `Retention.ProtectedMoves` | mtplx/checkpoint_anchors.py:233-247 | only the newest checkpoint can lose its protection, to the new capture |
| `Retention.NothingReturns` | mtplx/checkpoint_anchors.py:203-262 | what is kept after a capture was kept before it |
| `Retention.ThinFirst` | mtplx/checkpoint_anchors.py:44-50 | for every budget, thinning before a capture does not change what is kept after it |
| `Retention.FirstsAreKept` | mtplx/checkpoint_anchors.py:37-41 | with a slot beyond the protected ones per cell of a level, the first captured position of every such cell is kept |
| `Retention.Covered` | mtplx/checkpoint_anchors.py:37-41 | so every captured position is less than one cell of that level above a kept one |
| `Retention.AnchorsFirst` | mtplx/checkpoint_anchors.py:233-247 | with seven slots the record at or below the tail limit, at or below the first image, at the restore point, at the system edge, at the stable prefix, at or below the query edge and the newest are kept if captured; with fewer, nothing is kept in place of one but those before it |
| `Retention.RankDecides` | mtplx/checkpoint_anchors.py:248-251 | of the others one is kept before another because it opens a cell of a level the other does not, or opens the same ones and is newer |
| `MovingTail.SettledConfluent` | mtplx/checkpoint_anchors.py:216-219 | with the prompt end known or no tail, trimming before any admitted capture changes nothing, for every number of slots |
| `MovingTail.ConfluentExactly` | mtplx/checkpoint_anchors.py:216-219 | without a prompt end and a ceiling, with one slot or a tail that is not one token: exactly if there is no tail |
| `MovingTail.PlainConfluent` | mtplx/generation.py:5961-5973 | for a plan of positions alone and two slots or more: exactly if the tail is at most one token |
| `MovingTail.DefaultTailErodes` | mtplx/generation.py:5971-5973 | the default tail of 64, two slots, captures 100, 150, 170 and 220: 100 and 220 trimmed each time, 150 and 220 trimmed once |
| `Checkpoints.AllLevels` | mtplx/checkpoint_anchors.py:181-200 | the loop gives every position its level against the position before it |
| `Checkpoints.ProtectedAnchors` | mtplx/checkpoint_anchors.py:233-247 | the captured anchors in order of protection, each once |
| `Checkpoints.BudgetBytes` | mtplx/checkpoint_anchors.py:170-178 | the plan's bytes, or the record count times the largest record present |
| `Checkpoints.FirstFit` | mtplx/checkpoint_anchors.py:253-261 | what first fit keeps is drawn from the order, and its bytes never exceed the budget |
| `Checkpoints.FitWithin` | mtplx/checkpoint_anchors.py:253-262 | first fit within the budget |
| `Checkpoints.RetainCheckpoints` | mtplx/checkpoint_anchors.py:203-262 | the retained records are the specification's, ascending, for any sizes |
| `Checkpoints.RoomForSlots` | mtplx/checkpoint_anchors.py:253-262 | whatever the sizes, with room for k records of the largest everything k slots would keep is retained |
| `Checkpoints.RetainedAscends` | mtplx/checkpoint_anchors.py:206-213 | what is retained ascends by position, and each is the last admitted record of its position |
| `Checkpoints.IndexIsLast` | mtplx/checkpoint_anchors.py:206-212 | a later capture of a position replaces the earlier one |
| `Checkpoints.BudgetIs` | mtplx/checkpoint_anchors.py:170-178 | the byte budget, or the count, by default eight, of the largest record |
| `Checkpoints.RetainedIsKept` | mtplx/checkpoint_anchors.py:203-262 | with records of one size the retained set is what that many slots keep: anchors in order, then the best ranked |
| `Checkpoints.ThinOnce` | mtplx/checkpoint_anchors.py:44-50 | retaining before a capture does not change what is retained after it |
| `Checkpoints.TrimEachIsTrimOnce` | mtplx/checkpoint_anchors.py:44-50 | with the prompt end known or no tail, trimming after every ascending capture keeps exactly what one trim at the end keeps |
| `Checkpoints.CheckpointSink.Capture` | mtplx/generation.py:6017-6051 | append and trim; a position the plan does not admit is not captured |
| `Checkpoints.CheckpointSink.CaptureAll` | mtplx/checkpoint_anchors.py:265-290 | a prefill's captures leave the sink as one trim over all of them would |
| `AneDevice.Device.Start` | mtplx/ane_prefill.py:427-452 | a run overwrites the program's output: reads keep their values exactly when the pending ones of that program would not differ |
| `AneDevice.Device.Eval` | mtplx/ane_prefill_moe.py:270-273 | evaluating a read fixes its value and changes no other |
| `AnePipeline.Begin` | mtplx/ane_prefill.py:427-452 | staging evaluates the half that enters a layer before the program's next run |
| `AnePipeline.End` | mtplx/ane_prefill.py:455-465 | a joined or failed run both stand for the whole FFN |
| `AnePipeline.StoresStep` | mtplx/ane_prefill.py:398-398 | per layer the cache sees half A and then half B, as a forward of A followed by B would |
| `AnePipeline.SequentialTrace` | mtplx/ane_prefill.py:392-404 | what A through every layer and then B means: each state from the one before it and the layer's cache, B over the caches A left |
| `AnePipeline.PipelineCore` | mtplx/ane_prefill.py:521-540 | the interleaved schedule gives the outputs and caches of A through every layer and then B, whichever runs fail; every read but the two returned is evaluated before its program runs again, and those two stay pending on the last layer's outputs |
| `AnePipeline.LongSplit` | mtplx/ane_prefill.py:493-504 | the long-context split starts its second piece before the first is evaluated: both halves of the first piece join their rows with the ANE share of the second piece's |
| `AnePipeline.LongSplitRight` | mtplx/ane_prefill.py:455-465 | with a join that adds the share, the first piece is right exactly if both pieces have the same shares in the last layer |
| `AnePipeline.LongSplitForced` | mtplx/ane_prefill.py:493-504 | with both halves of the first piece evaluated before the second starts, all four halves and the caches are those of the pieces in turn |
| `AnePipeline.LongSplitIsWrong` | mtplx/ane_prefill.py:493-504 | a one-layer stack on which that gives 6 and 6 for 2 and 2 |
| `AnePipeline.RowBlocks` | mtplx/ane_prefill.py:303-321 | a wide call split into evaluated row blocks is the row-wise FFN of all rows |
| `AneMoe.RunProjection` | mtplx/ane_prefill_moe.py:358-367 | with the last output copy evaluated first, a run changes no earlier read |
| `AneMoe.ProjectedLayer` | mtplx/ane_prefill_moe.py:356-386 | a projected layer does A and then B over one output buffer as the GPU layer would |
| `AneMoe.PipelinedLayers` | mtplx/ane_prefill_moe.py:326-391 | for any placing of the projections both halves and all caches evaluate to A and then B through every layer |
| `AneMoe.EvalNode` | mtplx/ane_prefill_moe.py:360-360 | evaluating a lazy half evaluates every read in its graph to its value |
| `TargetLayers.OneRowLike` | mtplx/a3b_compiled_target_prefix.py:380-387 | stale KV rows past an offset do not show |
| `TargetLayers.RowsPeel` | mtplx/a3b_compiled_target_prefix.py:251-257 | a captured multi-row forward, layer by layer, is its first row through every layer and then the others |
| `TargetLayers.RowsFirst` | mtplx/a3b_compiled_target_prefix.py:260-274 | the state captured after the first row is the one-row state below its offsets |
| `TargetPrefix.RunStands` | mtplx/a3b_compiled_target_prefix.py:251-275 | every row and every mid-window state of a verify is that of one-row forwards |
| `TargetPrefix.PackAt` | mtplx/a3b_compiled_target_prefix.py:28-37 | where each layer's leaves lie in the flat state |
| `TargetPrefix.LoadShadow` | mtplx/a3b_compiled_target_prefix.py:237-250 | the shadow caches are the packed layer states |
| `TargetPrefix.Rebase` | mtplx/a3b_compiled_target_prefix.py:258-274 | captured recurrent rows and attention offsets taken back make up the mid-window state |
| `TargetPrefix.CompiledStep` | mtplx/a3b_compiled_target_prefix.py:225-392 | the M1, M2 and M3 outputs: rows, mid-window states, final state, at their fixed positions |
| `TargetPrefix.RebaseIsRepair` | mtplx/a3b_compiled_target_prefix.py:492-505 | a rebased verify's first row and the state after it are the repair's, whatever follows the correction |
| `TargetPrefix.Route.Forward` | mtplx/a3b_compiled_target_prefix.py:524-577 | a step from the live or a stashed state reports one-row outputs and leaves states after exactly those rows |
| `TargetPrefix.Route.VerifyM2` | mtplx/a3b_compiled_target_prefix.py:489-490 | both rows are one-row forwards; the primary state stands after the first, the live slots after both |
| `TargetPrefix.Route.VerifyM2Rebased` | mtplx/a3b_compiled_target_prefix.py:492-505 | a verify from a stashed state ignores what the live slots hold |
| `TargetPrefix.Route.RepairM1` | mtplx/a3b_compiled_target_prefix.py:521-522 | the one-row continuation from the stashed state |
| `TargetPrefix.Route.VerifyM3` | mtplx/a3b_compiled_target_prefix.py:507-519 | two rebase states: after one row and after two |
| `TargetPrefix.Decode` | mtplx/generation.py:16931-16956 | over any run of accepts and rejects at depth one or two, every row is the one-row forward after the primaries and accepted drafts of the cycles before, the cycle's primary and the drafts before it, and the next state stands after exactly the primaries and accepted drafts |
| `TargetPrefix.CapacityIsEnough` | mtplx/a3b_compiled_target_prefix.py:786-792 | the request capacity has room for the whole decode and wastes less than a step |
| `BlockAttention.Rescale` | mtplx/block_attention.py:84-88 | moving the reference maximum scales denominator and accumulator alike |
| `BlockAttention.JoinBlock` | mtplx/block_attention.py:84-89 | joining a block to the running maximum, denominator and accumulator |
| `BlockAttention.BlockwiseAttention` | mtplx/block_attention.py:40-93 | for any partition, with blocks wholly masked for the query, the running recurrence is the dense masked softmax |
| `BlockAttention.DenseIsCausalSoftmax` | mtplx/block_attention.py:24-37 | with one key allowed the dense form is the softmax-weighted sum of the allowed keys alone |
| `BlockAttention.BlocksAreCausal` | mtplx/block_attention.py:24-37 | over contiguous blocks the mask, shortcut included, allows exactly the positions up to the query |
| `BlockAttention.KeyStands` | mtplx/block_attention.py:24-37 | key j of a block stands at start + j with its own value, and a query sees its score exactly up to its own position |
| `BlockAttention.BlocksTile` | mtplx/block_attention.py:56-75 | the blocks follow one another from position zero |
| `BlockAttention.PartitionsAgree` | mtplx/block_attention.py:40-93 | two partitions of the same keys agree, on causal softmax |
| `Int4Weights.PackedNibbles` | mtplx/compressed_tensors.py:652-658 | every nibble of a packed word comes back |
| `Int4Weights.WordIsNibbles` | mtplx/compressed_tensors.py:641-649 | a word is the sum of its eight nibbles at the powers of sixteen |
| `Int4Weights.EightNibblesFit` | mtplx/compressed_tensors.py:652-658 | the packed sum stays below 2^32 |
| `Int4Weights.ColumnIsNibble` | mtplx/compressed_tensors.py:641-649 | the column fill undoes the AutoAWQ permutation |
| `Int4Weights.AwqNibbleIs` | mtplx/compressed_tensors.py:631-649 | the nibble each column of an AutoAWQ word is in: 0, 4, 1, 5, 2, 6, 3, 7 |
| `Int4Weights.PackRowAt` | mtplx/compressed_tensors.py:652-658 | repacking loses nothing |
| `Int4Weights.ZeroPointAt` | mtplx/compressed_tensors.py:661-673 | row r of the zero points is nibble r mod 8 of word row r div 8 |
| `Int4Weights.ConvertPackedKeepsValues` | mtplx/compressed_tensors.py:506-523 | each element's affine value is the source's (q - zero) * scale, zero 8 when absent |
| `Int4Weights.ConvertAutoAwqKeepsValues` | mtplx/compressed_tensors.py:617-638 | the same through permutation, transpose, repack and zero-point unpack |
| `NgramIndex.OccurrencesExact` | mtplx/context_copy.py:361-368 | a gram's occurrences are exactly the positions where it ends |
| `NgramIndex.LastAreLatest` | mtplx/context_copy.py:390-400 | the candidates are the most recent occurrences: none later than one of them is left out |
| `NgramIndex.Index.Sync` | mtplx/context_copy.py:361-368 | incremental syncing leaves the index of the whole history |
| `NgramIndex.Index.IndexIsUnique` | mtplx/context_copy.py:361-368 | two indexes of one history hold the same grams, however often they were synced |
| `NgramIndex.ExtensionIsLongest` | mtplx/context_copy.py:403-408 | the extension is the longest backward match up to the cap |
| `NgramIndex.MatchIsSuffix` | mtplx/context_copy.py:371-376 | a candidate continues what also precedes the end of the history |
| `NgramIndex.Index.FindExact` | mtplx/context_copy.py:390-413 | of the most recent occurrences the eligible one with the longest extension, the most recent on ties, with that extension, and none exactly if none is eligible |
| `NgramIndex.Index.Scan` | mtplx/context_copy.py:398-413 | the loop with its early exit finds that candidate |
| `NgramIndex.BestIsUnique` | mtplx/context_copy.py:370-376 | there is only one such candidate |
| `NgramIndex.JoinedAt` | mtplx/context_copy.py:188-197 | indexing agrees with the concatenated list, negative and out-of-range indices included |
| `NgramIndex.BoundsAre` | mtplx/context_copy.py:188-190 | the slice bounds case by case: absent, in range, counted from the end, beyond either end, for both directions |
| `NgramIndex.JoinedRange` | mtplx/context_copy.py:188-190 | a range read has the length of its range and steps through it, whatever the sign of the step |
| `NgramIndex.JoinedSlice` | mtplx/context_copy.py:188-190 | so does slicing, for every pair of bounds and every step, a zero step refused |
| `AdaptiveDtemp.ValidationError` | mtplx/adaptive_dtemp.py:206-228 | no error exactly for a schedule in range and in order |
| `AdaptiveDtemp.Controller.ObserveRound` | mtplx/adaptive_dtemp.py:275-311 | one round is the specification's step, and a temperature is returned exactly on a transition |
| `AdaptiveDtemp.Serve` | mtplx/adaptive_dtemp.py:275-311 | a request's rounds in turn lead to the state the whole-run lemmas are about |
| `AdaptiveDtemp.RunIsSteady` | mtplx/adaptive_dtemp.py:275-343 | over any run the average stays in [0,1], a disarmed controller is in the default state, transitions alternate |
| `AdaptiveDtemp.FiresExactly` | mtplx/adaptive_dtemp.py:313-328 | a raise fires exactly on an armed, unboosted, rested controller with its average in the band, a drop exactly on a boosted, rested one below the drop threshold, and nothing else moves a set-point |
| `AdaptiveDtemp.DwellSince` | mtplx/adaptive_dtemp.py:299-301 | the dwell counts the rounds since the last move, the seed satisfying it |
| `AdaptiveDtemp.DisarmedSince` | mtplx/adaptive_dtemp.py:302-310 | disarmed exactly while no average since the last drop was above the raise threshold |
| `AdaptiveDtemp.AverageIs` | mtplx/adaptive_dtemp.py:289-299 | the average is the seed mean and every later observation, weighted by alpha and fading by one minus alpha a round |
| `AdaptiveDtemp.DwellCapsFlips` | mtplx/adaptive_dtemp.py:60-61 | transitions times dwell is at most the rounds since the seed plus one dwell |
| `AdaptiveDtemp.BoostRoundsCount` | mtplx/adaptive_dtemp.py:286-288 | boost_rounds counts exactly the rounds observed in boost |
| `AdaptiveDtemp.ReArmed` | mtplx/adaptive_dtemp.py:302-310 | only an average above the raise threshold re-arms |
| `AdaptiveDtemp.RaiseNeedsRecovery` | mtplx/adaptive_dtemp.py:62-70 | between a drop and a later raise the average was above the raise threshold, so the climb at alpha a round was observed |
| `AdaptiveDtemp.LogIsRight` | mtplx/adaptive_dtemp.py:330-343 | logged set-points alternate, a dwell apart, none before the seed |
| `SegmentMemo.EvictedIsLongest` | mtplx/chat_encode_cache.py:180-186 | eviction leaves the longest recency suffix that fits |
| `SegmentMemo.Memo.Get` | mtplx/chat_encode_cache.py:143-151 | the stored ids or nothing; a hit becomes the most recent entry |
| `SegmentMemo.Memo.Put` | mtplx/chat_encode_cache.py:153-164 | both bounds hold, the stored count is the sum of lengths, an accepted put is retrievable at once |
| `SegmentMemo.PutLeaves` | mtplx/chat_encode_cache.py:153-186 | an accepted put leaves the old entries less its key's and then the new one, less as many of the oldest as must go for the bounds and no more |
| `SegmentMemo.PutRefused` | mtplx/chat_encode_cache.py:153-158 | one that could never fit, or is no int32 array, changes nothing |
| `SegmentMemo.GetMoves` | mtplx/chat_encode_cache.py:143-151 | a get moves its entry to the recent end and loses none |
| `SegmentMemo.Memo.EvictToBounds` | mtplx/chat_encode_cache.py:180-186 | the loop is the longest-suffix specification |
| `SegmentMemo.MemoAgreesWithMap` | mtplx/chat_encode_cache.py:143-186 | after any trace every entry is the last accepted value of its key |
| `SegmentMemo.HitIsLastPut` | mtplx/chat_encode_cache.py:143-151 | a get answers with nothing or the last accepted value |
| `SegmentMemo.EntriesByRecency` | mtplx/chat_encode_cache.py:147-149 | entries stand in the order of their last use |

## Left out

- Numerics: floating point, BF16 tolerances, MLX and Metal kernels, compilation, the numerical self-checks, DeepSeek-V4 islands and whole-MoE lanes; forwards are uninterpreted functions and real numbers stand for floats.
- Stochastic acceptance: sampling routes other than the greedy one; `sampling` is not part of this model.
- Repetition: the literal-repetition trimmer is off in the cohort, so a row stopped by it is not modelled.
- Callbacks, the session bank's commit and restore hooks, telemetry, timing, environment switches: a restore enters as a value that is boundary-true or refused.
- Prompt padding (`left_pad_prompts`) and the comparison helpers of batched decode: pure helpers that would only add easy members.
- Failing projections in the MoE pipeline: a run that raises ends the whole call and leaves no result.
- The sparse and dense cohort sampling routes, the GQA head repeat, `block_for_ext`, the fuzzy anchor, the NVFP4 path: outside the properties proved.
- BlockAttention.BlockwiseAttention: one query row and one value component, because the array operations treat them independently.
- Checkpoints.TrimEachIsTrimOnce: records of one size, because first-fit skipping of larger ones is outside what the module promises; what a moving end takes away is stated exactly in `MovingTail`.
- MovingTail.ConfluentExactly: a tail of exactly one token with two slots or more is decided for plans of positions alone (`MovingTail.PlainConfluent`); beside other anchors it depends on which of them were captured.
- BatchedDecode.GenerateGreedyBatched: calls that meet neither condition on the arguments are decided by the recorded passes, because when a row ends is the model's choice.
- AneMoe.PipelinedLayers: no read of the two programs is pending on entry, as the callers evaluate each chunk.
- TargetPrefix.Decode: the live and the stashed state are the model's whole cache; the draft cache of the lane is not part of this model.
- Grammar-constrained decoding, attention route selection, `mtplx/adaptive.py`, configuration, model loading, downloads, the server and the command line.
