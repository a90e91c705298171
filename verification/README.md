# Verified model of the decompiler's driver programs

The drivers in `examples/` feed binaries to the decompiler library, step its action pipeline,
iterate evidence across whole-program rounds, supervise child processes and rewrite raw p-code.
This project models their algorithms in Dafny and proves what they promise: for every tree,
every interleaving, every section table, every op list. `dafny verify dfyconfig.toml` checks all
of it.

## What is proved

**Stage projection** (`stage_tree`, `stage_frontier`, `stage_executor`, `stage_runs`,
`stage_reader`, `stage_projection`). The emitter flattens an action tree into an indexed table,
arms break points on a computed frontier, runs `perform` until one fires, and writes
`@BEGIN/@END/@SNAP` events. The walk is proved to be a contiguous pre-order encoding; parent
links lead back to the same tree node; a start break set on one node is seen there and nowhere
else. `StageExecutor` is the group executor of `src/action.rs` as a transition system (one
control point stands for the call stack), and the frontier is proved complete against it: until
a break fires, no application starts unseen. Over all runs the frames left open are the
root-to-node path of the node begun last, and the loader of `tools/stage_bisect.py` accepts the
finished stream; which streams it accepts at all is said line by line. A `@RESTART` line stands
in front of exactly those begins whose restart count is new, and each `@END` reports the growth
of its node's test count since its own begin. The begin events are exactly the applications the
executor started if and only if no restart of the root group re-enters a first child that had
already ended at the last pause. Which pipelines can never get there is settled too: exactly
those whose root has a single child or whose first child can never end (it is not
once-per-function, and if it ends on its first change then nothing below it can change
anything). `RestartSlips` is a run whose stream lacks one begin. A restart needs the driver to
install a restart flow: `examples/httpd_decompile.rs` installs none, so its stepper never misses
a start; `examples/curl_decompile.rs`, whose stepper at lines 5790-6230 is the same code,
installs one at line 8194 and can.

**Section overlay** (`overlay`). The claimed-interval walk writes, in place, the byte of the
first chain section containing each address. A piece that reaches past the end of the file is
dropped whole, so first-match lookup is met exactly when no such piece has bytes to lose. The
httpd driver's blind copy takes every byte from the first match if and only if no copied section
overlaps an earlier chain section; a section that leaves the file it skips as a whole. Which
headers form the chain, and which byte ends up at an address, is also said over the raw section
table.

**Worker pools** (`child_pool`, `parallel_pool`). Both pools are sets of worker program
counters, and a run is any sequence of their atomic steps. No slot is processed twice, a failure
emits nothing and stops all further spawns, a drained run holds every function's own block and
prints them in index order, and no interleaving goes on forever. In the in-process pool the
popped jobs and the allocated slots form a bijection although the two are taken in separate
steps, and any two finished runs over the same jobs write the same document for every clean job.
The comment at `examples/parallel_decompile.rs:811-843` speaks of a process-wide typedef latch;
`src/printc.rs` now prints the block per document. The model lets any subset of the documents
carry it, which covers both.

**Parameter-ID iteration** (`evidence_merge`, `evidence_history`, `paramid_rounds`). The merge
loop equals a definition by sets of spellings, hence does not depend on the order of the sites;
it is idempotent, sticky and sound, and what it locks and remembers is said exactly over the
sites. The early stop gives the table of all rounds for every harvest if and only if the first
round runs under the tier of the others; a strict first round before loose ones can stop the
loop while a callee is still to be locked. The comment that the dead memory is the union of all
rounds' evidence is not what the code does. For any number of rounds, `EvidenceHistory` says of
each part of the memory (veto, arity, each slot, return) what it holds and exactly when that is
what one pass over all rounds would hold. Rounds that are each unanimous but differ, in a
spelling or in the arity, are forgotten, and so is a silent site that is alone in its round.

**Child supervisor and process tree** (`supervisor`, `process_tree`). The supervisor is a timed
machine with two reader threads, a channel and five escalation phases. In every run it kills the
tree at most once and only past the cap, pipe holders at most once and only after the reap,
counts at most two completions, returns within the grace plus the re-check window, and hands
back whole streams when both readers ended at EOF. A blocked call may wake up to `lag` late;
computation takes no time. The descendant walk lists exactly the descendants, each once and
before every ancestor; it needs each pid to occur once in the snapshot, not an acyclic table.

**P-code passes** (`pcode`, `rip_fold`, `no_return_halts`, `visit_rank`, over `little_endian`).
Meaning is given by running ops over byte-addressed storage along any control-flow trace. The
RIP fold keeps the history of values and all other storage if and only if every retained read of
a folded temporary would have found its constant. On the ops alone: it is right whatever the
other ops mean if and only if the last writer before each such read is a fold with the same
constant. The halt splice is the one list that erases to its input and has a halt after each
sequenced call to a listed callee. The visit rank is total, injective and ordered by last
creation time, and the creation times minted from it are distinct exactly when each
instruction's ops are contiguous and none has more ops than fit below the times of the next.

**Switch handlers** (`switch_scan`), **digest** (`md5`, `md5_sample`), **sweep** (`sweep`). The
scan tiles its range and is determined by the lifter; the reported handlers are exactly those
guarded by a conditional branch that falls through at most 32 plain instructions to an indirect
jump, said of the lifted ops alone. `md5_hex` computes RFC 1321 (sections 3.1 to 3.5) for every
input; `md5_sample` takes one of the RFC's test vectors through the model's definitions. The
sweep's counters, family counts and records agree class by class, and with honest workers every
selected function is attempted and counted once.

Mutable reference parameters are modelled as values passed in and returned, except the image
buffer and the injected ops, which are arrays changed in place. Files, environment, logging and
everything inside the library but the executor are parameters: the lifter, the harvest, the
clock, the spawned children and the worker's own choices are arbitrary.

## Model

| member | source | states |
|---|---|---|
| `StageTree.StageWalk` | examples/httpd_decompile.rs:7308-7331 | appends a contiguous pre-order encoding of the tree and leaves earlier rows alone |
| `StageTree.EncodedEdge` | examples/httpd_decompile.rs:7308-7331 | every row of an encoded tree sits in its parent's child list at its recorded slot and stands for that child of the parent's node |
| `StageTree.WalkedTable` | examples/httpd_decompile.rs:7308-7331 | the walked table is a tree: parents come earlier and child lists and parent links agree |
| `StageTree.ChainReaches` | examples/httpd_decompile.rs:7334-7354 | following a row's parent links back down the live tree ends at the row's own node |
| `StageTree.ChainInjective` | examples/httpd_decompile.rs:7334-7354 | two rows with the same chain are the same row |
| `StageTree.StageActionOf` | examples/httpd_decompile.rs:7334-7354 | returns the tree node of the row, for every walked tree |
| `StageTree.StageStateOf` | examples/httpd_decompile.rs:7357-7375 | returns the state stored for the row in the group above it, or the root state |
| `StageTree.BreakSlotEffect` | examples/httpd_decompile.rs:7378-7409 | setting a break down one chain changes the state at that chain and at no other |
| `StageTree.BreakKeepsShape` | examples/httpd_decompile.rs:7378-7409 | setting a break leaves the tree's encoding and its state/child lockstep intact |
| `StageTree.StageSetStartBreak` | examples/httpd_decompile.rs:7378-7409 | afterwards the row's own break mask has the start bit, its other bits and all its other fields are unchanged, and so is every other row's state |
| `StageCandidates.WalkIsPipeline` | examples/httpd_decompile.rs:7681-7790 | a walked tree with at least two nodes meets everything the stepper relies on |
| `StageCandidates.StageIsProperAncestor` | examples/httpd_decompile.rs:7438-7447 | true exactly for the proper ancestors |
| `StageCandidates.FirstRunnableMeaning` | examples/httpd_decompile.rs:7414-7431 | the next runnable child is the first from the slot on that has not ended, and none only if all have |
| `StageCandidates.StageNextRunnable` | examples/httpd_decompile.rs:7414-7431 | finds that child |
| `StageCandidates.StageFrontier` | examples/httpd_decompile.rs:7456-7499 | lists exactly the frontier set, each candidate once |
| `StageCandidates.ClimbSound` | examples/httpd_decompile.rs:7456-7499 | candidates met while climbing are not ended and are children of proper ancestors of the current node |
| `StageCandidates.FrontierSound` | examples/httpd_decompile.rs:7456-7499 | every candidate is not ended and is a child of the current node or of one of its ancestors |
| `StageExecutor.StartIsArmed` | src/action.rs:373-446 | in a covered gap the next application to start is an armed candidate with an open path above it |
| `StageExecutor.StepCovered` | src/action.rs:995-1068 | every silent transition of the executor keeps the gap covered |
| `StageExecutor.ResumeCovered` | src/action.rs:373-446 | resuming at a pause with its frontier armed opens a covered gap |
| `StageExecutor.RestartSeen` | src/action.rs:1263-1372 | after a restart the first child starts next, and the frontier contains it if and only if it had not ended |
| `StageRuns.SeenBefore` | examples/httpd_decompile.rs:7790-7886 | in a run without slips every state before the last choice is covered, and the frames begun are the applications started |
| `StageRuns.UnseenStarts` | src/action.rs:1263-1372 | after a restart whose first child had ended at the last pause, that child starts without a pause |
| `StageRuns.BegunExactly` | examples/httpd_decompile.rs:7790-7886 | the frames begun are the applications started, in order, if and only if no such restart happens and the run goes on |
| `StageRuns.TestsCountUnseen` | src/action.rs:373-446 | over any run, count_tests of a node is the number of its starts that no frame was begun for |
| `StageRuns.CurstartCounts` | src/action.rs:1263-1372 | the restart count the stepper reads is the number of restarts called for, until the root converges, and -1 from then on |
| `StageRuns.AdvanceIdle` | src/action.rs:1263-1372 | a first child that cannot end has not ended, and nothing below a first child that ends on change has changed |
| `StageRuns.SlipExists` | src/action.rs:1263-1372 | with a second root child, a first child that can end leads some run to such a restart |
| `StageRuns.NeverMissesExactly` | examples/httpd_decompile.rs:7790-7886 | no choices of the pipeline make the stepper miss a start if and only if the root has one child or its first child can never end |
| `StageRuns.NeverMissesWithoutFlow` | src/action.rs:1312-1324 | a driver without a restart flow never misses a start, whatever its pipeline |
| `StageProjection.PathSplit` | examples/httpd_decompile.rs:7438-7447 | the path of an ancestor is the part of a node's path made of that ancestor's own ancestors |
| `StageProjection.CloseForPause` | examples/httpd_decompile.rs:7845-7867 | the frames left open are exactly the proper ancestors of the paused node, and the closing events are written innermost first |
| `StageReader.AcceptedExactly` | tools/stage_bisect.py:376-547 | a stream is accepted exactly when each line is in order: begins numbered without gaps and below the innermost open frame, ends naming that frame with its snapshot directly behind, no negative restart count; and no frame is left on the stack if and only if every begun number is closed |
| `StageProjection.CloseAccepted` | tools/stage_bisect.py:376-547 | the loader accepts any number of closed frames and is left with the remaining ones open |
| `StageProjection.Perform` | src/action.rs:373-446 | a perform call ends at an armed candidate or at completion, follows the run of pipeline and stepper step by step, and moves no count_tests in a run without slips |
| `StageProjection.OnPause` | examples/httpd_decompile.rs:7845-7882 | after the closing events stands one restart line with the new count if it differs from that of the last pause, and nothing otherwise, then the new begin; the open frames are again the root-to-node path and the stream is accepted |
| `StageProjection.EmitStageProjection` | examples/httpd_decompile.rs:7781-7886 | a finished stream is well bracketed and accepted; its begin and restart lines are, in order, those the pauses of the run call for, a restart line directly before each begin whose restart count is new; every end line names its own begin and the growth of its test count since; the begins are the executor's own start log if and only if the run has no slip, and then no tests are missed |
| `StageProjection.ProjectTree` | examples/httpd_decompile.rs:7681-7886 | from the live tree: refused below two nodes, otherwise the stream is accepted and closed when done, its begin, restart and end lines are those of the run of that tree's pipeline, and the begins are the executor's start log if and only if the run has no slip |
| `StageProjection.RestartSlips` | src/action.rs:1263-1372 | a concrete run whose stream begins nodes 0, 1, 2 while the executor starts 0, 1, 2 and 1 again |
| `Overlay.Claim` | examples/gen_decompile.rs:435-441 | the claimed list stays sorted and covers exactly the sections visited |
| `Overlay.OverlayCopy` | examples/gen_decompile.rs:446-464 | copies the piece clipped to the image, or nothing when it leaves the file; panics exactly when its end in the file overflows |
| `Overlay.ServeSection` | examples/gen_decompile.rs:410-434 | writes exactly the unclaimed addresses of the section whose piece fits the file, unless some piece overflows |
| `Overlay.OverlayBfdNonallocSections` | examples/gen_decompile.rs:379-443 | panics if and only if some unclaimed piece overflows; otherwise every image byte ends as the first-match overlay says, for arbitrary overlaps |
| `Overlay.BackedInRange` | examples/gen_decompile.rs:446-464 | in-file sections never overflow |
| `Overlay.OverlayIsFirstMatch` | examples/gen_decompile.rs:380-464 | with in-file sections the overlay is first-match lookup |
| `Overlay.OverlayExactly` | examples/gen_decompile.rs:446-464 | without that, it is first-match lookup at an address if and only if the piece there fits the file or has no byte for the address |
| `Overlay.TruncatedPieceDropped` | examples/gen_decompile.rs:446-464 | a concrete truncated section whose one present byte is not served |
| `Overlay.OverlayBlind` | examples/httpd_decompile.rs:1603-1638 | the blind copy leaves the byte of the last exposed in-file section containing each address, and skips sections that leave the file |
| `Overlay.BlindAgrees` | examples/httpd_decompile.rs:1603-1638 | the blind copy uses the first match everywhere, where that is copied at all, if and only if no copied section overlaps an earlier chain section |
| `Overlay.BlindImage` | examples/httpd_decompile.rs:1603-1638 | under that condition both produce the same image byte, except where the first match is a truncated section, which the blind copy skips whole |
| `Overlay.ExposedInChain` | examples/gen_decompile.rs:386-404 | a header that is not empty, not a symbol table, not the section-name table and not the loader's own string table is in the chain, behind those before it |
| `Overlay.ChainIsExposed` | examples/gen_decompile.rs:386-404 | nothing else is in the chain |
| `Overlay.HiddenSectionsIgnored` | examples/gen_decompile.rs:394-402 | section tables that differ only in such left-out headers have the same chain |
| `Overlay.FirstExposedServes` | examples/gen_decompile.rs:446-464 | at an address, the first header in the chain that lies there decides: its byte in the file if it is no ALLOC or NOBITS section and lies in the file, the byte before if it has no bytes |
| `Overlay.UncoveredKept` | examples/gen_decompile.rs:405-434 | an address where no header of the chain lies keeps its byte |
| `Overlay.LastExposedCopied` | examples/httpd_decompile.rs:1603-1638 | the blind copy leaves the byte of the last header at the address that is in the chain, has bytes and lies in the file |
| `Overlay.UncopiedKept` | examples/httpd_decompile.rs:1603-1638 | without one the address keeps its byte |
| `ChildPool.MakeSchedule` | examples/gen_decompile.rs:1909-1912 | a permutation of the slots, in index order for one job and by descending size otherwise |
| `ChildPool.ActInv` | examples/gen_decompile.rs:1924-1999 | every atomic step of any worker keeps the pool invariant |
| `ChildPool.NoSlotShared` | examples/gen_decompile.rs:1928-1933 | two workers never hold the same slot, in any interleaving |
| `ChildPool.NoSlotTwice` | examples/gen_decompile.rs:1928-1933 | no slot is supervised twice over a whole run |
| `ChildPool.DrainedIsComplete` | examples/gen_decompile.rs:1924-2014 | a drained run without failure holds every function's own block in its slot |
| `ChildPool.EverySlotSpawned` | examples/gen_decompile.rs:1924-1999 | a drained run without failure has spawned every position exactly once |
| `ChildPool.FailureStops` | examples/gen_decompile.rs:1934-1941 | once a spawn failure is recorded nothing is spawned any more, however the run goes on |
| `ChildPool.FetchedIsGivenUp` | examples/gen_decompile.rs:1934-1941 | a worker that has only fetched a position by then stays there and its next move returns |
| `ChildPool.GivenUpIsNotStored` | examples/gen_decompile.rs:1934-1941 | the position it gives up is never stored |
| `ChildPool.FailureIsReported` | examples/gen_decompile.rs:1967-1976 | a recorded failure is the message of a spawn error of the run |
| `ChildPool.Emit` | examples/gen_decompile.rs:2001-2029 | a broken run emits nothing; otherwise the output is the index-order concatenation and the missing-block exit is never taken |
| `ChildPool.ScheduleIndependent` | examples/gen_decompile.rs:1905-1912 | the blocks do not depend on job count, schedule or interleaving |
| `ChildPool.RunsEnd` | examples/gen_decompile.rs:1924-1999 | every interleaving drains within a bound fixed by work and job count |
| `ParallelPool.CarriedStrip` | examples/parallel_decompile.rs:845-850 | stripping a carried preamble leaves the trimmed body if and only if the body has a visible character |
| `ParallelPool.StripExactly` | examples/parallel_decompile.rs:845-850 | the block is taken off exactly when the text begins with it, and the flag says so |
| `ParallelPool.BlankList` | examples/parallel_decompile.rs:641 | the characters trimmed are the 25 code points with the property White_Space |
| `ParallelPool.PureTextIndependent` | examples/parallel_decompile.rs:811-850 | a clean document's stripped text does not depend on which document carried the preamble |
| `ParallelPool.ActInv` | examples/parallel_decompile.rs:691-717 | every atomic step of any worker keeps jobs and slots in correspondence |
| `ParallelPool.JoinedIsComplete` | examples/parallel_decompile.rs:684-726 | when all workers have ended no slot is empty, every job is stored, and no job is in two slots |
| `ParallelPool.RunsEnd` | examples/parallel_decompile.rs:691-717 | every interleaving ends within a bound fixed by the numbers of jobs and workers, and until then some worker can move |
| `ParallelPool.CollectByIndex` | examples/parallel_decompile.rs:718-729 | drains the slots and sorts by job index |
| `ParallelPool.CollectedInOrder` | examples/parallel_decompile.rs:718-729 | after any run the collected list is, job by job, an outcome of that job |
| `ParallelPool.DocumentsIndependent` | examples/parallel_decompile.rs:1099-1118 | any two finished runs over the same jobs, with any worker counts, interleavings and carriers, write for every clean job the same document: its own trimmed body |
| `EvidenceMerge.MergeCallsiteEvidence` | examples/httpd_decompile.rs:3163-3284 | the loop computes the set-based merge and leaves other callees' memory alone |
| `EvidenceMerge.OrderIndependent` | examples/httpd_decompile.rs:3163-3284 | permuting the sites changes neither the entry nor the memory |
| `EvidenceMerge.MergeIdempotent` | examples/httpd_decompile.rs:3163-3284 | merging the same sites again with the updated memory changes nothing |
| `EvidenceMerge.MergeSticky` | examples/httpd_decompile.rs:3150-3162 | the memory only grows and nothing dead is ever locked |
| `EvidenceMerge.MergeSound` | examples/httpd_decompile.rs:3163-3284 | a lock agrees slot by slot with every evidenced site and has a witness for each slot; a locked return agrees with all typed consumers |
| `EvidenceMerge.ConsideredMeans` | examples/httpd_decompile.rs:3183-3189 | zero-arity sites are left out exactly when some site with slots has arguments |
| `EvidenceMerge.MergeLocks` | examples/httpd_decompile.rs:3163-3284 | exactly what is locked: nothing for a dead or incompletely observed callee or one without one agreed arity; otherwise the return if and only if it is not dead and every typed consumer has one type, the inputs if and only if the arity is positive and every slot is not dead and offered exactly one spelling, and no entry if and only if neither |
| `EvidenceMerge.MergeRemembers` | examples/httpd_decompile.rs:3150-3284 | exactly what is remembered: the veto, the dropped arity, or the slots and the return on which two sites differ |
| `EvidenceMerge.UnanimousRoundsForgotten` | examples/httpd_decompile.rs:3110-3162 | two unanimous rounds that contradict each other: the second one's spelling is locked |
| `EvidenceHistory.RememberEnds` | examples/httpd_decompile.rs:3163-3284 | over any rounds, a callee is vetoed or its arity dropped exactly by the first round that does so by itself |
| `EvidenceHistory.RememberSlot` | examples/httpd_decompile.rs:3163-3284 | a slot is dead exactly when a round reached before that end disagreed on it by itself |
| `EvidenceHistory.RememberReturn` | examples/httpd_decompile.rs:3163-3284 | likewise the return |
| `EvidenceHistory.VetoVersusUnion` | examples/httpd_decompile.rs:3123-3162 | the veto is that of the union of all rounds if and only if a silent site of the union shows up beside another in one reached round, and none vetoes by sites the union's filter drops |
| `EvidenceHistory.ArityVersusUnion` | examples/httpd_decompile.rs:3123-3162 | the arity drop is that of the union if and only if differing arities meet in one reached round, and under a union veto none does |
| `EvidenceHistory.SlotVersusUnion` | examples/httpd_decompile.rs:3123-3162 | a slot is dead as in the union if and only if differing spellings meet in one reached round, and none does when the union ends the callee |
| `EvidenceHistory.ReturnVersusUnion` | examples/httpd_decompile.rs:3123-3162 | the same for the return, apart from conflicts over sites the union's filter drops |
| `EvidenceHistory.PlainSlots` | examples/httpd_decompile.rs:3123-3162 | for any rounds that end nothing, one by one or together, a slot is dead as in the union if and only if a disagreement over all of them is one within a round |
| `EvidenceHistory.PlainSlotsOfTwo` | examples/httpd_decompile.rs:3123-3162 | for two such rounds: unless each is unanimous and they differ |
| `EvidenceHistory.ArityForgotten` | examples/httpd_decompile.rs:3123-3162 | two rounds with different unanimous arities leave no memory although their union drops the callee |
| `EvidenceHistory.LoneSilentForgotten` | examples/httpd_decompile.rs:3123-3162 | a silent site alone in its round leaves no memory although the union vetoes the callee |
| `ParamidRounds.MergeRound` | examples/httpd_decompile.rs:3582-3603 | merging the callees in any order gives the same table and memory |
| `ParamidRounds.RoundTwice` | examples/httpd_decompile.rs:3582-3603 | a second merge of the same records changes neither table nor memory |
| `ParamidRounds.FixedPoint` | examples/httpd_decompile.rs:3604-3620 | once a round reproduces its table, any number of further rounds yields the same state, unless it is a first round under a tier of its own |
| `ParamidRounds.RunParamidIteration` | examples/httpd_decompile.rs:3504-3620 | stops at the first round that reproduces its table, with the table of all the rounds unless that is a first round under a tier of its own |
| `ParamidRounds.EarlyStopExactly` | examples/httpd_decompile.rs:3504-3620 | for any number of rounds from two on, the early stop gives the final table for every harvest if and only if the first round is not strict before loose ones |
| `ParamidRounds.StrictFirstRoundStops` | examples/httpd_decompile.rs:3504-3620 | with a strict first round before loose ones, a harvest that stops there although later rounds lock a callee |
| `ParamidRounds.MemoryIsHistory` | examples/httpd_decompile.rs:3581-3603 | with the sticky memory the loop remembers of an admitted callee what its own rounds of sites, merged one after the other, leave |
| `ParamidRounds.DeadForever` | examples/httpd_decompile.rs:3581-3603 | what is dead after one round is dead after every later one, and no later table locks it |
| `ProcessTree.DescendantPids` | examples/gen_decompile.rs:1297-1336 | exactly the root's descendants, each once, every process before its own parent |
| `ProcessTree.KillTree` | examples/gen_decompile.rs:1338-1344 | signals each descendant once and the root last, and no process before any of its descendants |
| `Supervisor.ActInv` | examples/gen_decompile.rs:1406-1552 | every move of reader, child, clock or supervisor keeps the machine's invariant |
| `Supervisor.EscalatesOnce` | examples/gen_decompile.rs:1459-1539 | one tree kill at most and only past the cap, one holder kill at most, after the reap and after the grace unless a reader died, at most two completions, and no reap while the child lives |
| `Supervisor.ReturnsInTime` | examples/gen_decompile.rs:1500-1540 | returns within grace plus re-check after the reap, within the grace alone when no holder was killed |
| `Supervisor.CaptureIsFaithful` | examples/gen_decompile.rs:1432-1456 | returned buffers are prefixes of the streams, taken after the child's exit; with both readers reported, the buffer of one that ended at EOF is its whole stream; with one unreported, the holders were killed first and, unless a reader died, the re-check window has passed since |
| `Supervisor.ErrorMeansUnkillable` | examples/gen_decompile.rs:1479-1497 | the timeout error means the tree was killed and, counted from the cap, the re-check window passed without a reap |
| `Supervisor.ReapedHasExited` | examples/gen_decompile.rs:1473-1477 | nothing is reaped in a run in which the child has not exited |
| `Supervisor.PollsOften` | examples/gen_decompile.rs:1462-1472 | the child is looked at again within 20 ms |
| `Supervisor.ReaderMovesUntilGone` | examples/gen_decompile.rs:1432-1453 | a reader thread can move until it has reported or died, and then no more |
| `Supervisor.NeverStuck` | examples/gen_decompile.rs:1459-1552 | until it returns, the supervisor can move or time can pass |
| `Supervisor.RunsEnd` | examples/gen_decompile.rs:1459-1552 | under a cap every run is over within a fixed number of moves and a fixed wall time |
| `RipFold.FoldRipRelativeEas` | examples/httpd_decompile.rs:783-850 | the two passes collect, drop and substitute as one function of the op list |
| `RipFold.LookupIsFirst` | examples/httpd_decompile.rs:790-813 | a varnode is folded exactly when some op adds RIP and a constant into it, in either order, and gets the first such constant |
| `RipFold.FoldExactly` | examples/httpd_decompile.rs:783-850 | along any trace the folded ops keep history and other storage if and only if every retained read of a folded temporary sees its constant |
| `RipFold.FoldSafeExactly` | examples/httpd_decompile.rs:783-850 | for a list that keeps RIP, with clean nonempty temporaries that no further two-input addition writes, the fold is right along a trace, for every meaning of the other ops and every start, if and only if each retained read of a temporary has a fold with the same constant as its last writer |
| `RipFold.FoldPreserves` | examples/httpd_decompile.rs:783-850 | in particular with one constant per temporary, written before use |
| `RipFold.FoldedTempsGone` | examples/httpd_decompile.rs:818-848 | afterwards no folded temporary is read, and none is written if and only if all its writers were additions |
| `RipFold.ReassignmentBreaksTheFold` | examples/httpd_decompile.rs:783-850 | a temporary folded twice and then copied ends with the wrong value |
| `NoReturnHalts.SpliceKnownNoReturnHalts` | examples/httpd_decompile.rs:490-540 | the spliced list and the exact set of halted call addresses |
| `NoReturnHalts.SpliceExactly` | examples/httpd_decompile.rs:490-540 | the splice is the one list that erases to the input and has a halt, with the call's sequence number, right after each sequenced listed call and nowhere else |
| `NoReturnHalts.FlagKnownNoReturnHalts` | examples/httpd_decompile.rs:739-771 | marks exactly the RETURNs at recorded addresses, warns once for each, touches nothing else |
| `NoReturnHalts.WarnedInOrder` | examples/httpd_decompile.rs:739-771 | the warnings are the addresses of exactly those RETURNs, in order |
| `NoReturnHalts.MarksExactlyTheHalts` | examples/httpd_decompile.rs:727-771 | every halt is marked, and only halts are if and only if no original RETURN is injected at a halted call's address |
| `NoReturnHalts.SequencedMarks` | examples/httpd_decompile.rs:727-771 | for fully sequenced input that condition is about the input list alone |
| `VisitRank.FlowVisitUniqMap` | examples/httpd_decompile.rs:683-723 | the map ranks visited addresses by last position and the others after them in list order |
| `VisitRank.RankIsTotalAndInjective` | examples/httpd_decompile.rs:698-723 | every visited or lifted instruction has a rank and no two share one |
| `VisitRank.RankByTime` | examples/httpd_decompile.rs:683-705 | visited instructions rank by the creation time of the last op the walk made for them, ties by address |
| `VisitRank.TailOrder` | examples/httpd_decompile.rs:706-722 | unvisited instructions rank after all visited ones and in order of first appearance |
| `VisitRank.MintUniqs` | src/funcdata.rs:8903-8954 | the creation time minted for each op whose opcode converts, or the overflow when one does not fit 32 bits |
| `VisitRank.MintedDistinctly` | src/funcdata.rs:8857-8874 | all minted times differ if and only if each instruction's ops are contiguous and none has more ops than there are times up to any other instruction that does not start below it, saturation and unranked ops included |
| `VisitRank.StrideIsRoomy` | src/funcdata.rs:8868-8874 | at most 4096 ops to an instruction and distinct ranks below 2^20 leave that room, and times then order instructions by rank |
| `SwitchScan.SleighScanRange` | examples/httpd_decompile.rs:6467-6589 | a gap-free chain of records, each the lift at its own address, from start to the first end past the range |
| `SwitchScan.OneTiling` | examples/httpd_decompile.rs:6467-6589 | the scan is determined by the lifter and the range |
| `SwitchScan.FindDispatch` | examples/httpd_decompile.rs:6681-6704 | finds the indirect jump reached over at most 32 plain instructions, and the adjacency test never fails |
| `SwitchScan.BodyFacts` | examples/httpd_decompile.rs:6706-6721 | a handler's body is unique, its size is the address distance covered, and exceeds 256 bytes by at most the length of its last instruction |
| `SwitchScan.PartitionPoint` | examples/httpd_decompile.rs:6662-6664 | counts the entries at or below an address |
| `SwitchScan.OneHandler` | examples/httpd_decompile.rs:6666-6723 | at most one handler per target: that of its earliest guard |
| `SwitchScan.FlowMeans` | examples/httpd_decompile.rs:6481-6507 | the flow of an instruction is that of its last op that transfers control |
| `SwitchScan.HandlerIsLifted` | examples/httpd_decompile.rs:6591-6728 | the handlers found over the records are those of the lifter: at an instruction of the text before every entry, guarded first by a conditional branch whose lift ends in CBRANCH and that falls through at most 32 plain lifts to one ending in BRANCHIND, up to the first jump or past 256 bytes |
| `SwitchScan.ScanSwitchDefaultHandlers` | examples/httpd_decompile.rs:6591-6728 | reports exactly the default handlers, said of the lifted ops and the file bytes alone, by ascending address, and nothing when the section leaves the file |
| `Md5.Pad` | examples/parallel_decompile.rs:758-764 | the padding loop ends with exactly the padding of RFC 1321 |
| `Md5.PadLength` | examples/parallel_decompile.rs:758-764 | the padded length is a multiple of 64 and 9 to 72 bytes longer |
| `Md5.PaddingInjective` | examples/parallel_decompile.rs:758-764 | different messages have different paddings, at every length |
| `Md5.WordReadsBytes` | examples/parallel_decompile.rs:770-778 | a word is the number whose bytes stand in the block, low-order first, and writing it gives them back |
| `Md5.StepsAreRows` | examples/parallel_decompile.rs:779-797 | four steps of the register-turning loop are one row of the RFC's operation list |
| `Md5.LoopIsRounds` | examples/parallel_decompile.rs:779-797 | the 64-step loop with computed index and selector is the four listed rounds |
| `Md5.Md5Hex` | examples/parallel_decompile.rs:737-809 | the result is the RFC 1321 digest in lower-case hex |
| `Md5Sample.SampleDigest` | examples/parallel_decompile.rs:737-809 | the digest of "message digest", evaluated through every constant and table of the model, is that of appendix A.5 of RFC 1321 |
| `Sweep.FamilyTellsStatus` | examples/bin_sweep.rs:669-723 | exactly the failures have a family, and the family key tells which status it came from |
| `Sweep.KnownPanics` | examples/bin_sweep.rs:673-690 | each known panic family is reached by its own signature alone, in this order of tests, and by no faked location or message; other panics are named by their place, or by the head of their text |
| `Sweep.KnownErrors` | examples/bin_sweep.rs:691-712 | the same for errors |
| `Sweep.PipelineErrors` | examples/bin_sweep.rs:698-707 | a failed pipeline is named by at most 56 characters of what stands behind that phrase, up to its next occurrence |
| `Sweep.KnownCrashes` | examples/bin_sweep.rs:713-719 | stack overflows are told from other crashes, which are named by the head of what the child wrote |
| `Sweep.ChosenAreTop` | examples/bin_sweep.rs:1101-1112 | the chosen indices ascend, and every chosen function is ahead of every other by size, address, index |
| `Sweep.SweepOne` | examples/bin_sweep.rs:1116-1275 | one function's record, counted family and counters |
| `Sweep.RetriedOnce` | examples/bin_sweep.rs:1149-1172 | the record repeats what the second spawn says if the first was a worker failure, and what the first says otherwise; a failed spawn is a worker failure and is not retried |
| `Sweep.FamilyFromSpawn` | examples/bin_sweep.rs:1224-1250 | the family is read off that spawn: the panic's place and text, the error's text or the last words of a crash |
| `Sweep.SweepBinary` | examples/bin_sweep.rs:1101-1294 | all records, their tallies and the sorted family counts; outside list-only mode honest spawns give attempted = selected = the sum of the counters |
| `Sweep.Conserved` | examples/bin_sweep.rs:1101-1294 | attempted, selected and the sum of the counters are equal if and only if every record is ok, a failure or skipped, whatever the workers do |
| `Sweep.HonestWorkersConserve` | examples/bin_sweep.rs:961-983 | workers that report ok, panic or error keep every record accounted for |
| `Sweep.FamiliesConserved` | examples/bin_sweep.rs:1250-1289 | the family counts of each failure class add up to that class's status count |
| `Sweep.SkippedAreASuffix` | examples/bin_sweep.rs:1142-1147 | under a clock that never goes back the budget-skipped functions are a suffix of the chosen ones |

## Left out

- scan_switch_cased_handlers: a second scan over the same records with table reads; its tests are single-site and span no further state.
- StageProjection.EmitStageProjection: the result, count and apply columns of `@END` and the snapshot text are not modelled; the events carry number, node and tests.
- StageExecutor.StepCovered: leaf bodies, change counts and the restart limit are not modelled; whether a leaf changed something and how the root continues after a pass are arbitrary choices.
- StageProjection.Perform: an error returned by an action's apply is not an event of its own; it ends the stream where the choices run out, so every statement about a cut-short run covers it.
- Overlay.OverlayCopy: the overflow of a piece's end is the panic of a checked build; an unchecked build would wrap.
- ParallelPool.CollectByIndex: a failed thread spawn, which returns an error before any collection, is not modelled.
- ParamidRounds.RunParamidIteration: harvesting is a function of tier and table; the wall-clock guard that can cut one function's harvest short is not.
- Supervisor.ReturnsInTime: computation between waits takes no time; only blocked calls let the clock run, and they may wake `lag` late.
- ProcessTree.DescendantPids: starts from one snapshot; reading /proc and processes that appear later are not modelled.
- RipFold.FoldPreserves: runs the ops of a trace, so branches that count ops inside one instruction are not resolved; offsets do not wrap at 64 bits.
- NoReturnHalts.MarksExactlyTheHalts: flow overrides registered between splice and injection are not modelled.
- VisitRank.MintUniqs: a 32-bit overflow of the minted time is the panic of a checked build; an unchecked build would wrap.
- VisitRank.MintedDistinctly: speaks of lists whose first op has a sequence number; a leading run without one counts from 1 in the source and in `MintUniqs`.
- SwitchScan.SleighScanRange: the lea constant and compare bound of a record, used only by the cased scan, are not modelled; addresses do not wrap.
- Md5.Md5Hex: the sine table of section 3.4 is taken over as constants; `Md5Sample.SampleDigest` passes through all of them.
- Sweep.SweepBinary: text columns, timings, log files and the ELF header tests before selection are not modelled; a failed spawn's record has no family although its family is counted, as in the source.
- ELF and manifest parsing, environment switches, symbol-database setup, thunk and type-census tables: input plumbing and configuration.
- SLEIGH lifting, action bodies, printing: behind parameters.
