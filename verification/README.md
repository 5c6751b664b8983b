# CoralNPU: models and proofs

This project models the parts of the CoralNPU compiler and runtime whose correctness is hardest to
see, and proves what they promise.

- **Matrix code generation.** `TensorIR` is a small SSA language with one interpreter for the
  source and the lowered program. `ChainAnalysis` is the backward walk that finds an accumulator
  chain, `ChainSoundness` what the chain means, `ChainStarts` which chains of a function's text are
  lowered. `TileRewrite` and `MatrixProgram` rewrite the loop and the function around it so that the
  accumulator lives in a tile register; `MatrixExact`, `MatrixPass` and `MatrixAlways` say exactly
  when that is right, for one run, for one function and for all meanings of its operations;
  `LateStores` and `StraightPass` do so for stores before the loop and for chains without one;
  `MatrixFailures` and `StraightFailures` have functions on which it is not right, `MatmulExample`
  and `MatmulLowering` the one it is for. `TileAssignment` numbers the tiles. `SsaEdits`,
  `ChainTransport`, `ChainMoves` and `PassEdits` show that a rewritten function is again one the pass
  can work on, `PassComposition` and `MatrixLowering` that the pass on all chains of a function is
  right. `TileMemory` lowers block loads and stores to row operations; `CellRefinement`,
  `PassOnCells` and `MatmulCells` carry all of it down to memory cells. Element type and
  multiply-add are abstract, so floating point is covered: the order of additions does not change.
- **Timeline semaphores and the queue.** `Semaphores` is a transition system with one step per
  critical section; `SemaphoreSafety`, `SubmissionOrder` and `WaitPaths` prove properties of every
  run of any number of threads, `SignalDelivery` says what a call has done when it returns, and
  `SemaphoreProgress` that every run ends and where it comes to rest.
- **Tile sizes.** `TileSizes`, `DtcmSearch`, `CrossPass` and `Footprint` model loop classification,
  the register budget, the shrink search and the footprint estimate; `FootprintExact` says when the
  estimate is the number of bytes touched.
- **Simulator dispatch.** `ElfLoader` and `ElfSymbols` load the firmware; `ElfEncoding` and `ElfFile`
  describe the file as the System V ABI lays it out (chapters "ELF Header", "Sections", "Symbol
  Table" and "Program Header") and say what the loader makes of it. `DispatchMemory` and
  `HostDispatch` upload the arguments, `KernelView` is what a kernel finds of them,
  `DispatchRequest` is the request in memory and `RequestEncoding` its C struct, `Firmware` serves
  it, `IssueDispatch` ties them together. `FieldEncoding` has the little-endian fields of both.
- **Small pieces.** `SectionCopy` is the bare-metal copy of `crt.S`; `InstanceText`,
  `InstanceRoundTrip`, `InstanceGrammar` and `SuffixUniqueness` are the check generator's instance
  parser, its grammar and its two suffix printers.

`dafny verify dfyconfig.toml` checks everything.

## Where the code does less than it says

Each of these has failing inputs and an exact condition.

- The loop rewrite copies the yield operands of the old body unmapped
  (`MatrixFailures.CarriedCounterFails`), drops the first carried value with the same initial
  operand (`MatrixFailures.SharedZeroFails`, `MatrixFailures.SharedBlockFails`), and accepts a
  transposed result map (`MatrixFailures.TransposedFails`). `MatrixAlways.AlwaysExact` is the
  condition for all three (`StraightPass.SingleAlways` without a loop), `MatrixPass.PassExact` and
  `MatrixExact.RewriteExact` those for one run.
- It loads the initial block at the loop rather than at the read (`MatrixFailures.LateLoadFails`,
  `LateStores.LateStoreExact`); code that stores nothing in between is safe
  (`MatrixPass.PassExact`), and `MatrixExact.WritebackExact` is the condition for one run.
- Of several contractions outside loops it lowers the first and leaves the others without effect
  (`ChainStarts.OnesFromZero`, `StraightFailures.TwiceFails`, `StraightFailures.TwiceExact`).
- Row operations ignore the column stride (`TileMemory.ColumnsContiguous`).
- A payload above the failure value lets a semaphore's value fall
  (`SemaphoreSafety.SentinelOverrun`, `SemaphoreSafety.ValueFallsOnlyOnFailure`).
- The unroll budget of the comment in `resolveAlignments` holds only with enough registers, and a
  register tile can exceed the DTCM cap (`TileSizes.ResolveAlignments`,
  `CrossPass.WideUnrollExceedsCap`, `CrossPass.RegisterTileFits`).
- More than 255 constants are truncated in the request (`IssueDispatch.TruncatedConstants`,
  `IssueDispatch.CountsExact`).
- The overlap test of `crt_section_copy` also rejects a copy onto itself
  (`SectionCopy.OverlapTestExact`).
- Suffixes differ on leading zeros (`InstanceRoundTrip.LeadingZeroDisagrees`,
  `InstanceRoundTrip.SuffixesAgree`) and collide on groups that start with a negative extent
  (`SuffixUniqueness.SignCollides`, `SuffixUniqueness.SuffixShared`).

## Model

| member | source | states |
|---|---|---|
| MatrixAlways.AlwaysExact | compiler/Transforms/CoralNPUVectorToMatrix.cpp:421-634 | for every function in SSA form whose written vector the analysis traces to one loop, with nothing stored between the read of the initial value and the loop or after the writeback: the lowered function runs and leaves the same memory for every meaning of the operations, all arguments and every trip count, if and only if no earlier carried value has the same initial operand, every other yield is defined before the loop, and no update has the transposed result map |
| MatrixAlways.Counterexample | compiler/Transforms/CoralNPUVectorToMatrix.cpp:548-618 | if one of the three conditions fails, a counting semantics and an initial state on which the source runs and the lowered function does not run or leaves another memory |
| LateStores.LateStoreExact | compiler/Transforms/CoralNPUVectorToMatrix.cpp:468-543 | any number of stores between the read and the loop, of arguments or results of other operations that have nothing to do with the addresses or with what is stored before the read: the lowered function is right for every meaning of the operations if and only if the three conditions of AlwaysExact hold and there is no such store |
| MatrixAlways.Progress | compiler/Transforms/CoralNPUVectorToMatrix.cpp:140-245 | a well-formed vector function runs to its end on a memory that holds every address |
| MatrixPass.PassExact | compiler/Transforms/CoralNPUVectorToMatrix.cpp:421-634 | the pass on a function in SSA form, for every semantics and trip count: a loop that iterates still runs if and only if no earlier carried value has the same initial operand and every other yield is defined before the loop; memory and the other tiles are the same whenever that holds, or the loop does not iterate and the dropped result is the chain's own, unused, or zero |
| PassComposition.AllAgree | compiler/Transforms/CoralNPUVectorToMatrix.cpp:445-724 | the pass on a function with any number of chains, through loops or single contractions, each meeting its conditions, on different operations and different tiles: rewriting them one after the other leaves, for every meaning of the operations and all arguments, a function that runs and leaves the same memory |
| PassComposition.RightMoved | compiler/Transforms/CoralNPUVectorToMatrix.cpp:545-664 | after the rewrite of one chain every other chain is still found, still private, still on a free tile, and still meets its conditions, at its new place |
| PassEdits.LoopIsEdit | compiler/Transforms/CoralNPUVectorToMatrix.cpp:545-634 | the rewritten function with a loop is again in SSA form: one definition for each name, before its uses, with the new names above the old ones |
| PassEdits.SingleIsEdit | compiler/Transforms/CoralNPUVectorToMatrix.cpp:635-664 | the same for the rewrite of a single contraction |
| SsaEdits.EditedSsa | compiler/Transforms/CoralNPUVectorToMatrix.cpp:620-664 | replacing one operation, redirecting its results and inserting the tile operations keeps SSA form when the new operation is well formed |
| MatrixLowering.LowerFunction | compiler/Transforms/CoralNPUVectorToMatrix.cpp:421-729 | the whole pass, for every function in SSA form: the program returned is the rewrite of the traced chains one after the other, each with the first carried position that starts from its initial value; it fails for lack of tiles if and only if more than 16 writes have a chain; if every chain is handled rightly, the function returned agrees with the source for every meaning of its operations |
| MatrixLowering.LowerWorks | compiler/Transforms/CoralNPUVectorToMatrix.cpp:445-724 | the loop over the chains computes that rewrite, whether or not it is right |
| MatrixLowering.PassIsRight | compiler/Transforms/CoralNPUVectorToMatrix.cpp:545-724 | when all chains are handled rightly, the positions searched are the chains' own and the rewrite is the composition that AllAgree speaks of |
| MatrixLowering.FirstIs | compiler/Transforms/CoralNPUVectorToMatrix.cpp:548-555 | the search finds the first position with the initial value, or 0 |
| MatrixLowering.TraceChain | compiler/Transforms/CoralNPUVectorToMatrix.cpp:433-484 | each write gives no chain, a skipped chain, or the rewrite of the loop whose result is written or else of the first update |
| MatrixLowering.LoopTraced | compiler/Transforms/CoralNPUVectorToMatrix.cpp:139-245 | a vector traced to one loop from a read or zero is rewritten as PassExact speaks of |
| MatrixLowering.SingleTraced | compiler/Transforms/CoralNPUVectorToMatrix.cpp:139-245 | a vector traced to one contraction outside loops is rewritten as SingleExact speaks of |
| ChainStarts.LoopFromRead | compiler/Transforms/CoralNPUVectorToMatrix.cpp:457-543 | for every function in SSA form, told from its text alone: the written vector is result `acc` of a loop, the loop's body yields it by supported contractions one on the other from its own block argument, and its initial operand is the read of a block; the pass then rewrites that loop and loads the tile from that block |
| ChainStarts.LoopFromZero | compiler/Transforms/CoralNPUVectorToMatrix.cpp:457-543 | the same from a zero constant: the tile is cleared |
| ChainStarts.OnesFromRead | compiler/Transforms/CoralNPUVectorToMatrix.cpp:457-543 | supported contractions outside loops, one on the other, the first on the read of a block: the pass lowers the first of them and loads the tile from that block |
| ChainStarts.OnesFromZero | compiler/Transforms/CoralNPUVectorToMatrix.cpp:457-543 | the same from a zero constant |
| ChainStarts.OthersSkipped | compiler/Transforms/CoralNPUVectorToMatrix.cpp:460-466 | either kind of chain from another constant, or from a value no operation gives, is skipped |
| ChainStarts.OthersRefused | compiler/Transforms/CoralNPUVectorToMatrix.cpp:206-230 | a written vector from an unsupported contraction or any other operation has no chain |
| ChainStarts.BodyRefused | compiler/Transforms/CoralNPUVectorToMatrix.cpp:206-230 | the same inside a loop body |
| ChainStarts.TraceExact | compiler/Transforms/CoralNPUVectorToMatrix.cpp:433-466 | a write has no chain if and only if the walk is refused or meets no update; a chain is skipped if and only if neither a read nor a zero constant gives its initial value |
| ChainStarts.WalkBodyExact | compiler/Transforms/CoralNPUVectorToMatrix.cpp:150-230 | the walk through a loop body returns a list of contractions if and only if they stand in the body as a chain of supported contractions from the loop's own block argument |
| MatrixLowering.CollectChains | compiler/Transforms/CoralNPUVectorToMatrix.cpp:433-438 | the chains of all writes, in program order |
| MatrixPass.LoopRewritable | compiler/Transforms/CoralNPUVectorToMatrix.cpp:557-618 | what the rewrite relies on (unique names, the chain of updates, the free tile) follows from SSA form and the traced path |
| MatrixProgram.RewriteCorrect | compiler/Transforms/CoralNPUVectorToMatrix.cpp:468-634 | for every trip count, number of carried values and operand stream, the function with the accumulator moved into a tile runs exactly when the loop makes no iteration or yields every other carried value from outside its body (the pass copies the old yield operands without looking them up); it then leaves the same memory and the same other tiles |
| MatrixExact.RewriteExact | compiler/Transforms/CoralNPUVectorToMatrix.cpp:548-618 | the same with the pass's own search for the carried position, for every trip count: which loops that iterate still run, and that a loop without iterations leaves the same memory when the position found is the chain's own, its result is unused, or its value is zero |
| MatrixExact.WrongPosition | compiler/Transforms/CoralNPUVectorToMatrix.cpp:548-563 | if another position is dropped, no loop that iterates can run after the rewrite |
| MatrixExact.IdleExact | compiler/Transforms/CoralNPUVectorToMatrix.cpp:620-633 | another position dropped and no iteration: the lowered function does what the source does with that result replaced by a zero vector |
| MatrixExact.WritebackExact | compiler/Transforms/CoralNPUVectorToMatrix.cpp:666-724 | with nothing stored after the writeback, the lowered function runs and leaves the same memory if and only if the tile holds the accumulated value after the loop, for any initialisation, result map and trip count |
| MatrixExact.SameTarget | compiler/Transforms/CoralNPUVectorToMatrix.cpp:580-612 | the pass does not look at the result map: a chain and the chain with every update untransposed are lowered to the same function |
| MatrixExact.InitStillHolds | compiler/Transforms/CoralNPUVectorToMatrix.cpp:468-543 | if nothing between the initial value and the loop stores to memory, the tile is filled with that value |
| MatrixExact.LateLoadExact | compiler/Transforms/CoralNPUVectorToMatrix.cpp:468-543 | the tile is loaded at the loop and not at the read: without iterations and with nothing stored after the writeback, the two functions agree if and only if the block still holds the initial value |
| TileRewrite.LoopRewriteCorrect | compiler/Transforms/CoralNPUVectorToMatrix.cpp:557-634 | the old and the new loop from related states, for every trip count: same memory, every other result under its new position, exactly under the condition on yields; and the accumulated value in the tile if it started there and no update is transposed |
| TileRewrite.BodySim | compiler/Transforms/CoralNPUVectorToMatrix.cpp:580-612 | one iteration of the emitted body in a related state: each update becomes a tile update and each other operation its clone; untransposed updates keep the tile equal to the accumulator |
| MatrixFailures.TransposedExact | compiler/Transforms/CoralNPUVectorToMatrix.cpp:81-137 | an accepted function with a transposed result map, elements written out: on vectors (a0, a1) and (b0, b1) source and lowered function leave the same memory if and only if a0 * b1 == a1 * b0 |
| MatrixFailures.TransposedFails | compiler/Transforms/CoralNPUVectorToMatrix.cpp:81-137 | vectors on which they leave different memories |
| MatrixFailures.LateLoadFails | compiler/Transforms/CoralNPUVectorToMatrix.cpp:468-543 | read, store to the block, loop with one iteration, write: they agree if and only if the store did not change the block |
| MatrixFailures.CarriedCounterFails | compiler/Transforms/CoralNPUVectorToMatrix.cpp:614-618 | a second carried value yielded from the body: the source runs for every trip count, the lowered function for zero only, whatever the operations mean |
| MatrixFailures.SharedZeroFails | compiler/Transforms/CoralNPUVectorToMatrix.cpp:548-555 | two carried values that start from one constant: the same, and with the chain's own position dropped the lowered function would run |
| MatrixFailures.SharedBlockFails | compiler/Transforms/CoralNPUVectorToMatrix.cpp:548-555 | two carried values that start from one read and no iteration: the lowered function runs and agrees if and only if the value read is zero or the second write covers the first |
| MatrixFailures.SharedBlockConcrete | compiler/Transforms/CoralNPUVectorToMatrix.cpp:548-555 | a state with the value 77 on which they leave different memories |
| MatmulExample.MatmulCorrect | compiler/Transforms/CoralNPUVectorToMatrix.cpp:468-634 | the plain matrix product loop meets every condition: for each number of iterations and each meaning of the operations the rewritten function runs and leaves the same memory |
| MatmulExample.MatmulAlways | compiler/Transforms/CoralNPUVectorToMatrix.cpp:421-634 | as a function in SSA form, the analysis finds its chain and the pass is right whatever its operations mean |
| MatmulExample.MatmulRight | compiler/Transforms/CoralNPUVectorToMatrix.cpp:421-634 | it meets the conditions of the whole pass, whether it starts from zero or from a block in memory |
| MatmulLowering.LowerMatmul | compiler/Transforms/CoralNPUVectorToMatrix.cpp:421-729 | what the pass returns for the matrix product, operation by operation: a block that is read is loaded into tile 0 before the loop, a zero constant clears it; the contraction becomes the tile update, the loop carries nothing, its former result is a zero vector, and the tile is stored; with any other constant the function is unchanged |
| StraightFailures.LowerTwice | compiler/Transforms/CoralNPUVectorToMatrix.cpp:635-664 | what the pass returns for two contractions outside loops: one tile update, and the second contraction on a zero vector |
| StraightFailures.TwiceExact | compiler/Transforms/CoralNPUVectorToMatrix.cpp:635-664 | for every meaning of the operations and every state, source and lowered function both run, and leave the same memory if and only if the second update does not change the value |
| StraightFailures.TwiceFails | compiler/Transforms/CoralNPUVectorToMatrix.cpp:635-664 | over the integers the source stores 2 and the lowered function 1 |
| CellRefinement.RunRefines | compiler/Transforms/CoralNPUMatrixToLLVM.cpp:72-145 | any function, with any number of tiles, iterations and disjoint blocks: a run in which block loads and stores are row operations and tile updates work element by element is a run on whole blocks; and a function without vector writes runs on the cells whenever it runs on the blocks and keeps to the known addresses |
| CellRefinement.StepRefines | compiler/Transforms/CoralNPUMatrixToLLVM.cpp:119-145 | statement by statement: zeroing, loading, updating and storing a tile on cells is the operation on the block, and no other tile or block changes |
| PassOnCells.LoweredOnCells | compiler/Transforms/CoralNPUVectorToMatrix.cpp:421-729 | both lowerings: a function whose writes are all lowered, run with row operations, leaves in the cells the blocks that the source function leaves, for every meaning of its other operations |
| MatmulCells.SourceStoresProduct | compiler/Transforms/CoralNPUVectorToMatrix.cpp:557-634 | with columns of A and rows of B as operands the function stores A * B, element by element, for every number of iterations, and nothing else |
| MatmulCells.CellsHoldProduct | compiler/Transforms/CoralNPUMatrixToLLVM.cpp:119-145 | the lowered function on cells: afterwards cell (i, j) of the addressed block is the dot product of row i of A and column j of B, for every layout of disjoint blocks |
| ChainAnalysis.AnalyzeChain | compiler/Transforms/CoralNPUVectorToMatrix.cpp:140-245 | the backward walk ends although entering a loop goes forward to its yield, and returns the declarative path exactly when there is one with an update; a loop met inside a loop, an unsupported contraction, another operation or an exit past the loop's own block argument gives no chain |
| ChainSoundness.AnalysisFeedsRewrite | compiler/Transforms/CoralNPUVectorToMatrix.cpp:206-245 | a path found through a loop body is the chain the loop rewrite relies on, when no other operation uses the accumulator |
| TileRewrite.EmitBody | compiler/Transforms/CoralNPUVectorToMatrix.cpp:580-612 | the emission loop produces the body of the rewrite |
| TileRewrite.IterateSim | compiler/Transforms/CoralNPUVectorToMatrix.cpp:557-618 | any number of iterations of both loops, including when the new loop cannot run |
| TileRewrite.DanglingYield | compiler/Transforms/CoralNPUVectorToMatrix.cpp:614-618 | a yield operand defined in the old body does not exist in the new one, so no iteration completes |
| MatrixProgram.FindAccIdx | compiler/Transforms/CoralNPUVectorToMatrix.cpp:548-555 | the position of the first init operand equal to the initial value, 0 if there is none |
| MatrixProgram.AccIdxExact | compiler/Transforms/CoralNPUVectorToMatrix.cpp:548-555 | the search finds the chain's own position if and only if no earlier init is the same value |
| MatrixProgram.RunClean | compiler/Transforms/CoralNPUVectorToMatrix.cpp:620-634 | the rest of the function, loops included, runs alike with its uses redirected and keeps the tile |
| StraightPass.SingleAlways | compiler/Transforms/CoralNPUVectorToMatrix.cpp:635-664 | for every function in SSA form whose written vector is one contraction outside loops, with nothing stored in between or after the writeback: the lowered function is right for every meaning of the operations if and only if the result map is not transposed |
| StraightPass.SingleExact | compiler/Transforms/CoralNPUVectorToMatrix.cpp:635-664 | the same for one run: the memories agree if the contraction is not transposed or gives the plain contraction's value, and with nothing stored after the writeback only then |
| StraightPass.StraightExact | compiler/Transforms/CoralNPUVectorToMatrix.cpp:635-664 | the rewritten function leaves the same memory and other tiles if the tile update gives the contraction's value; with nothing stored after the writeback, only then |
| ChainAnalysis.EnterLoop | compiler/Transforms/CoralNPUVectorToMatrix.cpp:186-204 | going from a loop result to its yield keeps the pending answer and lowers the rank |
| ChainAnalysis.LeaveLoop | compiler/Transforms/CoralNPUVectorToMatrix.cpp:162-172 | going from the block argument to the init operand keeps the pending answer |
| ChainSoundness.WalkSound | compiler/Transforms/CoralNPUVectorToMatrix.cpp:140-245 | for any number of loops and updates on the path, the written value is the fold of the updates over the initial value, those of a loop once per iteration with that iteration's operands |
| ChainSoundness.LoopFold | compiler/Transforms/CoralNPUVectorToMatrix.cpp:186-204 | after n iterations the carried value is the fold of the body's updates, n times |
| ChainSoundness.BodyFold | compiler/Transforms/CoralNPUVectorToMatrix.cpp:206-215 | within one iteration the yielded value is the fold of the updates over the block argument |
| TileAssignment.AssignTiles | compiler/Transforms/CoralNPUVectorToMatrix.cpp:441-466 | numbers are drawn for every chain, also skipped ones; the pass fails if and only if there are more than 16 chains, otherwise lowered chains have pairwise different numbers below 16 |
| TileAssignment.InterleavingHarmless | compiler/Transforms/CoralNPUVectorToMatrix.cpp:477-480 | operations on different tiles store, under every interleaving, what each sequence stores alone |
| TileAssignment.EachStoresItsOwn | compiler/Transforms/CoralNPUVectorToMatrix.cpp:604-608 | under every interleaving of the chains' operations each writeback stores its own chain's accumulation, exactly once and at its own address |
| TileAssignment.SharedTileBreaks | compiler/Transforms/CoralNPUVectorToMatrix.cpp:451-456 | two chains on one tile have an interleaving that stores a wrong value |
| TileMemory.LowerMatrixMemOp | compiler/Transforms/CoralNPUMatrixToLLVM.cpp:72-145 | one row operation per row, with the row's descriptor and address; four rows when the size is not constant |
| TileMemory.TssDecodes | compiler/Transforms/CoralNPUMatrixToLLVM.cpp:120-127 | (tile << 27) | row in 32 bits names its tile and row if and only if the tile is below 32 and the row below 2^27 |
| TileMemory.OrBits | compiler/Transforms/CoralNPUMatrixToLLVM.cpp:120-127 | the descriptor's bitwise or, bit by bit |
| TileMemory.ColumnsContiguous | compiler/Transforms/CoralNPUMatrixToLLVM.cpp:129-138 | the row operation reaches the block's elements if and only if the column stride is 1, there is at most one column, or no row |
| TileMemory.RowsApartExact | compiler/Transforms/CoralNPUMatrixToLLVM.cpp:129-138 | rows do not overlap if and only if the row stride is at least the width in size, there is at most one row, or no column |
| TileMemory.BlockAccumulates | compiler/Transforms/CoralNPUMatrixToLLVM.cpp:119-145 | row loads, K rank-1 updates and row stores leave C + A * B in every element of the written block, for every K, offset and stride |
| TileMemory.BlockOnly | compiler/Transforms/CoralNPUMatrixToLLVM.cpp:119-145 | no cell outside the written block changes |
| TileMemory.MacsCompute | compiler/Transforms/CoralNPUVectorToMatrix.cpp:580-612 | K tile updates give each element its ordered sum of products; other tiles are unchanged |
| TileMemory.ProductIsDot | compiler/Transforms/CoralNPUVectorToMatrix.cpp:81-137 | over the integers the reference is the matrix product |
| SemaphoreSafety.NoLostWakeup | runtime/driver/coralnpu_semaphore.c:157-256 | in every reachable state of any number of threads, a waiter asleep on the current epoch whose condition holds is owed a post by some thread |
| SemaphoreSafety.SleeperCanLeave | runtime/driver/coralnpu_semaphore.c:405-443 | once all signal, fail and multi_signal calls have returned, such a waiter can leave at once |
| SemaphoreSafety.ValueFallsOnlyOnFailure | runtime/driver/coralnpu_semaphore.c:185-214 | a step lowers a value if and only if it is the first failure of a semaphore signalled past the failure value |
| SemaphoreSafety.SentinelOverrun | runtime/driver/coralnpu_semaphore.c:185-214 | a payload above the failure value gives a run in which a value falls |
| SemaphoreSafety.NoSpuriousDeadline | runtime/driver/coralnpu_semaphore.c:327-403 | although the condition and the result are two scans with one lock at a time, a wait reports a missed deadline only if it polled or is a finite wait on one semaphore |
| WaitPaths.MissedAfterSleep | runtime/driver/coralnpu_semaphore.c:327-443 | in every run, a call that missed its deadline polled, or is a finite wait on one semaphore that has been asleep |
| WaitPaths.PollsNeverWait | runtime/driver/coralnpu_semaphore.c:285-297 | a call with an immediate deadline is never found waiting |
| WaitPaths.EpochCounts | runtime/driver/coralnpu_semaphore.c:157-256 | in every reachable state the notification epoch is the number of returned calls that had something to tell: first failures, lists signalled, and rejected lists of more than one entry |
| SignalDelivery.ReturnedDid | runtime/driver/coralnpu_semaphore.c:140-256 | in every run, what a returned call has done, in order: with OK every entry of its list was signalled (after the commands of a submission), with OUT_OF_RANGE the entries before a rejected one, with a failed command or wait nothing |
| SignalDelivery.OkSignalledAll | runtime/driver/coralnpu_semaphore.c:216-256 | a multi_signal or submission that returned OK has signalled every entry of its list, in list order and nothing else |
| SignalDelivery.RejectedSignalledBefore | runtime/driver/coralnpu_semaphore.c:230-247 | a call that returned OUT_OF_RANGE met, in some state of the run, an entry not above the current value; it signalled the entries before it and none from it on |
| SignalDelivery.FailedWaitHasReason | runtime/driver/coralnpu_semaphore.c:353-403 | an ABORTED wait lists a failed semaphore; one that missed its deadline saw a semaphore below its payload, for ANY each of them |
| SignalDelivery.SignalsAreShown | runtime/driver/coralnpu_semaphore.c:140-214 | in every run a signalled value is reached, a logged failure is kept with its code, and a returned `fail` leaves its semaphore failed |
| SemaphoreProgress.StepProgresses | runtime/driver/coralnpu_semaphore.c:140-443 | every step of any thread lowers a measure of the steps that are left |
| SemaphoreProgress.RunsEnd | runtime/driver/coralnpu_semaphore.c:140-443 | every run is at most as long as the measure of its first state |
| SemaphoreProgress.StuckRunsAreDone | runtime/driver/coralnpu_semaphore.c:140-443 | where no step is possible, every call has returned except waiters asleep on the current epoch whose condition is false |
| SemaphoreSafety.RunsMoveForward | runtime/driver/coralnpu_semaphore.c:140-214 | with payloads up to the failure value, over any run values never fall, the first failure is kept, the log only grows, and a reached wait point stays reached |
| Semaphores.StepEffect | runtime/driver/coralnpu_semaphore.c:140-256 | every step leaves each semaphore alone, raises its value, or gives it its first failure, and changes no other thread's program point |
| Semaphores.StepTouchesOne | runtime/driver/coralnpu_semaphore.c:140-256 | a step changes at most one semaphore, only while signalling or failing, and posts exactly at the posting point |
| Semaphores.StepShape | runtime/driver/coralnpu_semaphore.c:273-443 | every program point stays inside the lists its call walks |
| SubmissionOrder.CommandsWaitForPayloads | runtime/driver/coralnpu_device.c:499-529 | in every run the deferred commands of a submission begin only after every awaited payload was supplied by signals |
| SubmissionOrder.OkWaitWasSupplied | runtime/driver/coralnpu_semaphore.c:405-443 | a wait that returned OK saw its payloads (one of them for ANY) supplied by signals |
| SubmissionOrder.ValuesFollowTheirCommands | runtime/driver/coralnpu_device.c:517-529 | every non-initial value of an unfailed semaphore was signalled by a call that lists it, and by a submission only after its commands finished |
| SubmissionOrder.DependentNeverFirst | runtime/driver/coralnpu_device.c:499-529 | for timelines signalled in dependency order no run begins a dependent submission before its producer finished |
| SubmissionOrder.ProducerFinishedFirst | runtime/driver/coralnpu_semaphore.c:216-256 | whatever supplies the producer's payload comes after the producer's commands |
| TileSizes.ClassifyLoops | compiler/Transforms/CoralNPUTileSizeSelection.cpp:197-220 | every loop is in the list of its class and in no other, in ascending order |
| TileSizes.RefineLinalgOpLoops | compiler/Transforms/CoralNPUTileSizeSelection.cpp:160-195 | parallel loops are split by which of the two operands depend on them |
| TileSizes.ResolveAlignments | compiler/Transforms/CoralNPUTileSizeSelection.cpp:512-567 | the automatic unroll factor fits the register budget if and only if there are at least two registers more than the vector alignment; it is then the largest that fits or the least that covers every unroll loop, and otherwise 1 |
| DtcmSearch.DtcmPass | compiler/Transforms/CoralNPUTileSizeSelection.cpp:881-995 | the one answer of the search: the first tiling that fits in the sequence that starts with the initial tiles and halves and aligns, each time, the first tile with room for two steps, in the order vector, unroll, batch, reduction; the fallback, from the ranges on in single steps, if and only if that sequence runs out of room without a fit; failure if and only if that one does, too; an initial tiling that fits is returned as it is |
| DtcmSearch.AnswerUnique | compiler/Transforms/CoralNPUTileSizeSelection.cpp:924-995 | for every footprint, limit and start there is at most one such answer |
| DtcmSearch.InitialTilesAre | compiler/Transforms/CoralNPUTileSizeSelection.cpp:924-948 | the initial tile of a loop is its range aligned down to the register step of its class, capped at 64 on the matrix path and 16 otherwise on vector and unroll loops |
| DtcmSearch.ShrunkIsNext | compiler/Transforms/CoralNPUTileSizeSelection.cpp:957-971 | what the loop over one class shrinks is the first tile with room in the order of classes, when the classes before have none |
| DtcmSearch.TilesAreTilings | compiler/Transforms/CoralNPUTileSizeSelection.cpp:924-995 | a returned tile is at least 1 and at most its range |
| DtcmSearch.UnitTilingDecides | compiler/Transforms/CoralNPUTileSizeSelection.cpp:954-995 | for a monotone footprint some tiling fits if and only if the all-ones tiling does |
| DtcmSearch.AlignTileSizes | compiler/Transforms/CoralNPUTileSizeSelection.cpp:580-586 | listed tiles are aligned down, the others are left alone |
| DtcmSearch.ShrinkLoops | compiler/Transforms/CoralNPUTileSizeSelection.cpp:569-578 | halves and aligns the first tile with room for two steps, or reports that there is none |
| DtcmSearch.ShrinkOnce | compiler/Transforms/CoralNPUTileSizeSelection.cpp:957-971 | one round halves and aligns the first tile with room for two steps, in class order, and keeps every tile derived from its base; without a shrink no tile has room |
| DtcmSearch.RecoverStep | compiler/Transforms/CoralNPUTileSizeSelection.cpp:881-918 | the largest register tile of a class, at least 1 |
| DtcmSearch.StartTiles | compiler/Transforms/CoralNPUTileSizeSelection.cpp:924-948 | ranges, aligned by class, then capped on vector and unroll loops |
| DtcmSearch.CapTileSizes | compiler/Transforms/CoralNPUTileSizeSelection.cpp:937-948 | listed tiles are capped, the others are left alone |
| Footprint.EstimateCoversTouched | compiler/Transforms/CoralNPUTileSizeSelection.cpp:246-308 | for linear index expressions the product of spans is never below the bytes of distinct elements a tile touches, at any origin |
| Footprint.TotalCoversTouched | compiler/Transforms/CoralNPUTileSizeSelection.cpp:469-476 | the same for the sum over the operands |
| Footprint.TotalBytesGrow | compiler/Transforms/CoralNPUTileSizeSelection.cpp:469-476 | the estimate never falls when a tile grows |
| Footprint.FitLinear | compiler/Transforms/CoralNPUTileSizeSelection.cpp:924-995 | with linear index expressions the pass fails if and only if no tiling of the loops fits, and a tiling it returns touches at most 5/6 of the limit at any origin |
| Footprint.EstimateOperand | compiler/Transforms/CoralNPUTileSizeSelection.cpp:246-308 | the estimator loop computes element size times the product of spans, with the range for a tile size of zero |
| Footprint.EstimateFootprint | compiler/Transforms/CoralNPUTileSizeSelection.cpp:469-476 | the sum of the operand estimates, a loop without a tile size counted with its whole range |
| FootprintExact.SpanExact | compiler/Transforms/CoralNPUTileSizeSelection.cpp:246-308 | each span is attained: there are two points of the tile whose index values differ by the span less one, and no two differ by more |
| FootprintExact.EstimateExact | compiler/Transforms/CoralNPUTileSizeSelection.cpp:246-308 | for an operand whose indices are distinct single loops the estimate is the number of bytes of the distinct elements the tile touches, at any origin |
| FootprintExact.TotalExact | compiler/Transforms/CoralNPUTileSizeSelection.cpp:469-476 | the same for the sum over such operands |
| FootprintExact.FitExactly | compiler/Transforms/CoralNPUTileSizeSelection.cpp:924-995 | for operations with such operands the pass fails if and only if every tiling touches more than 5/6 of the limit, and a tiling it returns touches no more than that |
| FootprintExact.MatmulFootprint | compiler/Transforms/CoralNPUTileSizeSelection.cpp:469-476 | an m by n by k tile of a matrix product is estimated at exactly the bytes of its three blocks |
| Footprint.BoxSize | compiler/Transforms/CoralNPUTileSizeSelection.cpp:282-307 | a box of index points has as many points as the product of its sides |
| CrossPass.RegisterTileFits | compiler/Transforms/CoralNPUTileSizeSelection.cpp:937-971 | without fallback a register tile is at most the DTCM tile if and only if the cap on parallel tiles leaves room for it |
| CrossPass.SelectTiles | compiler/Transforms/CoralNPUTileSizeSelection.cpp:691-995 | classification, register pass and DTCM pass together: the selection is the register tiles and the one answer of the DTCM search that starts from them, register tiles at most 1 after a fallback; the result is a tiling of the ranges that fits; without fallback each register tile fits exactly when the cap leaves room and each DTCM tile is aligned exactly when the cap kept it so or it was shrunk |
| CrossPass.WideUnrollExceedsCap | compiler/Transforms/CoralNPUTileSizeSelection.cpp:922-948 | the register pass with automatic alignments and 32 registers gives a long unroll loop a tile of 24 (32-bit elements) or 48 (bytes), above the cap of 16 |
| CrossPass.AlignmentKept | compiler/Transforms/CoralNPUTileSizeSelection.cpp:924-971 | through aligning, capping and any number of shrinks a tile is at most its alignment or a multiple of it if and only if the cap kept it so or it was shrunk afterwards |
| CrossPass.MatrixPathAligned | compiler/Transforms/CoralNPUTileSizeSelection.cpp:728-742 | on the matrix path the register tile is below the cap and the cap keeps every parallel range aligned |
| CrossPass.MatrixTilesFit | compiler/Transforms/CoralNPUTileSizeSelection.cpp:728-742 | on the matrix path register tile <= DTCM tile <= range, and parallel DTCM tiles are well aligned |
| CrossPass.RegisterPass | compiler/Transforms/CoralNPUTileSizeSelection.cpp:744-794 | each loop's register tile is the one of its class |
| IssueDispatch.IssueDispatchInline | runtime/sim/simulator_inline.c:94-295 | the firmware is reached if and only if the arguments are set, the image loads with a request of 60 bytes, and everything fits heap and DDR; the first call finds the arguments through the addresses it is handed when the request struct lies outside the heap; OK means uploaded arguments, every call with code 0, and writeable buffers that hold what stands at the addresses the kernel was handed, the others untouched; for a kernel that keeps the request every workgroup was called exactly once |
| IssueDispatch.CheckArguments | runtime/sim/simulator_inline.c:106-123 | OK if and only if the ordinal fits 32 bits and constants and bindings that are counted are set |
| IssueDispatch.LoadAndRun | runtime/sim/simulator_inline.c:125-295 | the rest of the call: the firmware runs if and only if the image loads and its layout has a request of 60 bytes and room for the arguments |
| IssueDispatch.RunFirmware | runtime/sim/simulator_inline.c:247-275 | the verdict after the run, for any kernel: DATA_LOSS if and only if the calls destroyed magic number or version, otherwise OK for a completed run and an internal error for a missing export or a last call with nonzero code |
| IssueDispatch.Execute | runtime/sim/simulator_inline.c:148-275 | a verdict if and only if everything fits; otherwise the failure of the upload |
| IssueDispatch.ClearingKernelReported | runtime/sim/simulator_inline.c:257-261 | a kernel that clears memory ends in DATA_LOSS for every grid that is not empty |
| IssueDispatch.Launch | runtime/sim/simulator_inline.c:148-236 | after upload and the write of the request, the request is accepted and readable at its address, and when the request struct lies outside the heap the kernel finds the arguments: sizes, counts, constants, aligned bindings with their lengths, and zeroed local memory, each through the address it is handed |
| KernelView.UploadedIsFound | runtime/sim/simulator_inline.c:148-236 | seen from the kernel: word i at the constants address is constant i, word i at the pointer address is a 64-aligned address that holds the bytes of binding i, word i at the length address is their number, bindings do not overlap, and the local address points to zeros |
| DispatchRequest.RequestReadBack | runtime/sim/simulator_inline.c:254-255 | reading the request's sixty bytes gives the request back |
| DispatchRequest.RequestRoundTrip | crt/coralnpu_dispatch.h:37-61 | packing the request into its fifteen words and back is the identity |
| RequestEncoding.RequestEncoded | crt/coralnpu_dispatch.h:37-61 | the bytes of a request are the little-endian fields of the C struct in the order of its declaration, each of its width |
| DispatchRequest.StatusWritten | crt/coralnpu_main.c:39-44 | the two bytes of the status change that field and no other |
| DispatchRequest.ReturnCodeWritten | crt/coralnpu_main.c:39-44 | the four bytes of the return code change that field and no other |
| Firmware.Device.RunMain | crt/coralnpu_main.c:46-140 | for any kernel: a refused request is answered with -1, -2, -3 or -4, the first check that fails; otherwise the answer is written over what the calls left, complete with code 0 when no workgroup is due any more, or stopped by the first nonzero code |
| Firmware.Device.RunGrid | crt/coralnpu_main.c:114-135 | for any kernel, also one that writes to the request: every call is the workgroup due by the counts that then stand in memory, and the loop ends when none is due or a code is not 0; a kernel that keeps the request is called for every workgroup in order |
| Firmware.NextPlace | crt/coralnpu_main.c:114-116 | the workgroup due after another stands right behind it in z-y-x order, and none is due exactly after the last |
| Firmware.SteadyOrder | crt/coralnpu_main.c:114-135 | while a kernel leaves the counts alone, the calls in turn are the grid in order, complete when none is due |
| IssueDispatch.RequestAccepted | crt/coralnpu_main.c:49-60 | a request built for any number of constants and bindings passes the firmware's -1 and -2 checks |
| IssueDispatch.CountsExact | runtime/sim/simulator_inline.c:161-164 | the kernel is told the real numbers of constants and bindings if and only if both are at most 255 |
| IssueDispatch.TruncatedConstants | runtime/sim/simulator_inline.c:162 | with 256 constants the kernel is given none |
| IssueDispatch.ReadBack | runtime/sim/simulator_inline.c:277-292 | the second allocation pass meets the same addresses, cannot fail, and writes only writeable buffers of nonzero length |
| HostDispatch.UploadBindings | runtime/sim/simulator_inline.c:202-233 | the loop succeeds if and only if no binding is too long, null with a length, or past the DDR limit; then both tables and all contents are in memory and nothing else below DDR changed |
| HostDispatch.TablesDescribe | runtime/sim/simulator_inline.c:220-232 | word i of the pointer table is the address of the bytes of binding i, word i of the length table their number |
| HostDispatch.AllocateHeap | runtime/sim/simulator_inline.c:166-196 | succeeds if and only if the last block ends inside the heap; the blocks are then aligned, pairwise disjoint and inside |
| HostDispatch.Upload | runtime/sim/simulator_inline.c:166-233 | succeeds if and only if heap blocks and bindings fit; constants, zeroed local memory, tables and bindings are then all in memory |
| DispatchMemory.Allocate | runtime/sim/simulator_inline.c:32-68 | succeeds if and only if the aligned block ends at or below the limit, despite the 64-bit sum, and returns that block |
| DispatchMemory.AlignUpExact | runtime/sim/simulator_inline.c:37-38 | the address is the least multiple of the alignment that is not below the cursor |
| DispatchMemory.DdrRegions | runtime/sim/simulator_inline.c:202-222 | for any number and lengths of bindings the regions are aligned, pairwise disjoint and inside the window |
| DispatchMemory.TableRead | runtime/sim/simulator_inline.c:70-79 | a word written little-endian is read back from its place in the table |
| DispatchMemory.WriteTable | runtime/sim/simulator_inline.c:174-178 | the constants loop writes the whole table and nothing else |
| DispatchMemory.ZeroMem | runtime/sim/simulator_inline.c:81-92 | chunked zeroing clears exactly the range |
| Firmware.OrderedIsOnce | crt/coralnpu_main.c:114-135 | an ordered complete log calls every workgroup of the grid exactly once |
| Firmware.IndexInjective | crt/coralnpu_main.c:114-121 | different workgroups have different places in z-y-x order |
| ElfLoader.LoadSegments | runtime/sim/simulator_elf_loader.c:231-282 | memory and entry flag end up as the program headers say, in order; a bad header stops with its own status and earlier segments stay |
| ElfLoader.LoadedByte | runtime/sim/simulator_elf_loader.c:233-282 | after a successful load every byte is decided by the last PT_LOAD over it, by its file byte or zero; elsewhere memory is as before |
| ElfLoader.OnlyRegionsChange | runtime/sim/simulator_elf_loader.c:48-67 | a byte changes only inside ITCM, DTCM or DDR |
| ElfLoader.EntryExact | runtime/sim/simulator_elf_loader.c:256-289 | the entry flag is set if and only if the entry lies in an executable PT_LOAD |
| ElfLoader.CopyAndFill | runtime/sim/simulator_elf_loader.c:261-281 | file bytes then zeros up to memsz, never rejected, for a validated segment |
| ElfLoader.ZeroFill | runtime/sim/simulator_elf_loader.c:264-281 | no chunk of a validated segment is rejected; the 32-bit cursor wraps only when nothing remains |
| ElfLoader.CopySegment | runtime/sim/simulator_elf_loader.c:69-98 | writes exactly the bytes when the range is in a region, otherwise nothing |
| ElfLoader.RangeFitsExact | runtime/sim/simulator_elf_loader.c:38-46 | the 64-bit test is the exact range test for every length |
| ElfLoader.ValidateSegment | runtime/sim/simulator_elf_loader.c:48-67 | OK if and only if the range is empty or wholly in one region |
| ElfLoader.PartsFit | runtime/sim/simulator_elf_loader.c:48-98 | every part of a range in a region is in the region and inside the address space |
| ElfSymbols.LoadElfWithLayout | runtime/sim/simulator_elf_loader.c:200-319 | succeeds if and only if the headers are well formed, every PT_LOAD is good, the entry is executable, and the three symbols exist with request and heap in DTCM; memory is then overlaid by every PT_LOAD in order; the status of a failure is that of the first failing check |
| ElfSymbols.FindSymbol | runtime/sim/simulator_elf_loader.c:115-198 | the first defined symbol with the name, in section then table order; an error for a bad section table or a malformed symbol table before it, not found otherwise; no read leaves the image |
| ElfSymbols.FindLayout | runtime/sim/simulator_elf_loader.c:293-316 | succeeds if and only if some layout has the symbols' addresses and lies in DTCM, and returns it |
| ElfSymbols.SymbolsUnique | runtime/sim/simulator_elf_loader.c:293-301 | the symbols determine the layout |
| ElfSymbols.DefinesUnique | runtime/sim/simulator_elf_loader.c:115-198 | a name has at most one such definition |
| ElfSymbols.StringEqualsExact | runtime/sim/simulator_elf_loader.c:100-113 | for a name without NUL, true if and only if the name and its terminator stand at the offset inside the table |
| ElfEncoding.SymbolRead | runtime/sim/simulator_elf_loader.c:115-198 | in every image that holds an encoded symbol record, the reader returns its name, value, size and section |
| ElfEncoding.HeaderRead | runtime/sim/simulator_elf_loader.c:233-246 | the same for a program header: type, offset, physical address, sizes and flags |
| ElfEncoding.SectionRead | runtime/sim/simulator_elf_loader.c:115-150 | the same for a section header: type, offset, size, link and entry size |
| ElfEncoding.FileHeaderRead | runtime/sim/simulator_elf_loader.c:200-231 | the same for the file header, identification included |
| ElfFile.LoadFile | runtime/sim/simulator_elf_loader.c:200-319 | the load of a well-formed RISC-V file with the three symbols, described record by record: it succeeds if and only if every PT_LOAD fits its region and the file, the entry is in an executable PT_LOAD, and request and heap lie in DTCM; the layout is then the values and sizes of the records of the three names, and every byte of memory that of the last PT_LOAD over it |
| ElfFile.SymbolsFound | runtime/sim/simulator_elf_loader.c:293-316 | the symbols the loader finds are the first records of the three names |
| ElfFile.FirstIsDefined | runtime/sim/simulator_elf_loader.c:115-198 | the first record with a name, in section then table order, is the definition that the lookup returns |
| ElfFile.SegmentsLoad | runtime/sim/simulator_elf_loader.c:231-289 | the segments load if and only if every PT_LOAD of the file fits its memory region and the file |
| ElfFile.FileIsLoaded | runtime/sim/simulator_elf_loader.c:231-282 | each byte afterwards, from the fields of the last program header over it: a byte of the file or zero |
| SectionCopy.CopySection | crt/crt.S:101-152 | traps on misuse, otherwise the destination holds the old source words, including under partial overlap and a source that wraps, and no other word changes |
| SectionCopy.OverlapTestExact | crt/crt.S:115-132 | the guarded loop is a correct copy of every memory if and only if the mod 2^32 test accepts or source and destination are equal |
| SectionCopy.ForwardCopies | crt/crt.S:134-141 | a forward copy is exact when the gap is zero or at least the length |
| SectionCopy.SmallGapDestroys | crt/crt.S:115-141 | with a smaller gap it goes wrong on every memory whose first source and destination words differ |
| SectionCopy.CopyLoop | crt/crt.S:134-141 | the register loop performs the forward copy |
| SectionCopy.ClearSection | crt/crt.S:47-75 | traps on misuse, otherwise clears exactly the section |
| InstanceText.ParseInstance | tools/check_gen/ParseUtils.cpp:25-62 | the index loop computes the parse of the text, empty on any error |
| InstanceGrammar.ParseExact | tools/check_gen/ParseUtils.cpp:25-62 | the parser accepts exactly the texts of the grammar (groups in parentheses, empty or 64-bit decimal numerals between commas and white space) and returns the numbers they stand for |
| InstanceGrammar.ParsedExact | tools/check_gen/ParseUtils.cpp:25-62 | the result is an instance if and only if the text stands for it, or the text stands for none and the result is empty |
| InstanceGrammar.IntegerExact | tools/check_gen/ParseUtils.cpp:47-52 | a token is accepted if and only if it is an optional minus sign and digits whose value, place by place, fits 64 bits |
| InstanceText.PrintSuffix | tools/check_gen/CheckTestGenerator.cpp:495-508 | the nested loops compute the suffix of the instance |
| InstanceRoundTrip.ParseInstanceToSuffix | tools/check_gen/def.bzl:6-25 | the Bazel loop computes the suffix of the text |
| InstanceGrammar.BazelExact | tools/check_gen/def.bzl:15-25 | for any text, accepted by the parser or not: it is cut at every ")(", each part loses one parenthesis at either end, and its pieces between commas that are not blank are joined with underscores, without white space |
| InstanceGrammar.SeamsExact | tools/check_gen/def.bzl:15 | the cut at ")(" is the only way to write the text as parts without one |
| InstanceRoundTrip.ParseOfText | tools/check_gen/ParseUtils.cpp:25-62 | parsing the canonical text of an instance gives the instance back |
| InstanceRoundTrip.SuffixesAgree | tools/check_gen/def.bzl:6-25 | for every text that parses to a non-empty instance the C++ and the Bazel suffix agree if and only if every token is written canonically |
| InstanceRoundTrip.CanonicalSuffixesAgree | tools/check_gen/CheckTestGenerator.cpp:495-508 | on canonical texts the two suffixes are the same |
| InstanceRoundTrip.LeadingZeroDisagrees | tools/check_gen/def.bzl:22-23 | a leading zero survives only in the Bazel suffix |
| SuffixUniqueness.SuffixShared | tools/check_gen/CheckTestGenerator.cpp:495-508 | any two instances share a suffix if and only if they are equal once every leading minus sign of a group is split off |
| SuffixUniqueness.SuffixInjective | tools/check_gen/CheckTestGenerator.cpp:495-508 | distinct instances of 64-bit integers in which no group starts with a negative extent (the least integer excepted) never share a suffix |
| SuffixUniqueness.SignCollides | tools/check_gen/CheckTestGenerator.cpp:495-508 | every other instance shares its suffix with the one that has an empty group and the positive extent instead |

## Left out

- MLIR, LLVM and IREE library behaviour is assumed: IR verification, `replaceAllUsesWith`, subview
  and cast typing, `iree_notification_t` (an epoch that a waiter reads before it evaluates its
  condition), `getBoundForAffineExpr` on linear expressions.
- Tracing contraction operands through extensions and broadcasts, and the scalable-vector casts of
  the operands: a contraction and its tile update read the same operands here.
- Chain shapes outside `PassComposition.AllAgree`: several straight-line updates (not right, see
  `StraightFailures`), updates before or after the loop, two accumulators in one loop, writes inside
  a loop body, mixed input types.
- The shape and type tests of a supported contraction are one flag of the statement.
- MatrixPass.PassExact: assumes that the writeback is the only use of the accumulator result and
  that nothing else touches the tile; any other use is given a zero vector by the pass.
- MatrixAlways.AlwaysExact: speaks of functions that store nothing after the writeback, because a
  later store could hide the difference.
- LateStores.LateStoreExact: what is stored in between is an argument or the result of an operation
  the pass does not look into; a store of the very value that was read is harmless, so not every
  store does harm.
- MatrixLowering.LowerFunction: gives no program when the first update stands inside a loop whose
  result is not what is written, or when a chain's operation was replaced by an earlier chain.
- TileAssignment.EachStoresItsOwn: operands and initial values are given values; chains that read
  each other's blocks are the subject of `PassComposition.AllAgree`.
- CellRefinement.RunRefines: the cell machine carries out no vector writes, and the other
  operations see whole blocks.
- CrossPass.AlignmentKept: whether a tile was shrunk depends on the footprint, so the condition
  mentions the tile returned.
- The matrix configuration instructions (`msetmtype`, `msettn`): the machine of `TileMemory` is
  configured for the block's rows and columns.
- TileMemory.LowerMatrixMemOp: element width is always 32, because the pass looks for the width at
  a place of the callee's name where no digits stand and then keeps its default; address arithmetic
  does not wrap.
- IR changes in place are modelled as functions from the old to the new program; erasing and
  insertion points appear as the order of statements.
- Semaphores are modelled as values changed by atomic steps, not as objects with mutexes; timepoints,
  wrap-around of the notification epoch and finite timeouts of a list wait are not modelled.
- Wake-up of an ALL wait when one semaphore fails while another is unsignalled: the code treats only
  the failed one as signalled.
- Footprint estimates of pack and unpack operations, symbolic bounds, and overflow of 64-bit
  products.
- DtcmSearch.DtcmPass: the factor 1.2 is the rational 6/5, without rounding.
- Batch loops in the fallback register configuration, and the workgroup tiling pass.
- CrossPass.SelectTiles: ranges are static and positive, as the pass requires.
- IssueDispatch.RunFirmware: kernels are functions of their arguments and memory that return; the
  startup code before `main` is not modelled.
- IssueDispatch.Launch: that the uploaded arguments survive the write of the request is stated for
  a request struct outside the heap, as the linker script places it.
- HostDispatch.Upload: all heap blocks are allocated before the first write; the source interleaves
  both, which differs only in what a failed dispatch leaves behind.
- HostDispatch.AllocateHeap: the bit mask of the alignment is written as a remainder, for the two
  alignments in use.
- Overlap between DDR bindings and DDR segments of the image.
- The workgroup loop of the in-process executable, the executable cache, command buffers, drivers,
  the PJRT client, the linker tool and the other tools: plumbing, or counting.
