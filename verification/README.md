# Prisma core in Dafny

Prisma translates x86_64 code to ARM64 at run time. This project models the parts of its core
whose correctness is not visible from one function body, and proves what they promise:

- **Control flow** — both dominator solvers (`Cfg`, `DomTree`, `Dfs`, `IdomSolver`, `Dominators`,
  `AncestorSolver`, `DomChildren`, `Analysis`), back edges and natural loops (`Loops`, `NaturalLoops`) and the
  common-subexpression pass that forwards tables along the dominator tree (`CseTable`, `GlobalCse`).
- **The IR and its straight-line passes** — one small-step meaning (`Ir`, over `Words`, `Arith`,
  `Scalar`) with the laws of its memory, bits and flags (`LoadStore`, `BitLaws`, `FlagLaws`), the
  validator (`Validate`), constant propagation, algebraic simplification, CSE and copy
  propagation in any composition (`KnownConsts`, `ConstProp`, `Algebraic`, `CopyProp`, `Passes`), dead stores
  (`ByteMemory`, `DeadStore`), branch folding and flag writes (`Conditions`, `BranchFold`, `FlagWrites`).
- **The lowerer** — an ARM64 machine (`Arm`), the emitted code (`AluCode`, `FlagCode`, `RflagsCode`,
  `PairCode`, `LongDivision`, `WideDivision`, `EmittedPermute`, `EmittedRep`), string-loop re-entry (`RepLoops`,
  `RepHops`), liveness and the linear-scan allocator with spilling (`Liveness`, `LiveRefs`, `Pool`,
  `Lowering`) and compiler correctness of whole lists (`Simulation`, `OpSimulation`, `Emission`,
  `Lowering`).
- **The futex wait table** as an interleaved step system over any number of threads (`Futex`,
  `FutexRuns`, `FutexCalls`).
- **The translation cache** as a class over four maps, against a recency list (`CacheModel`,
  `Fnv`, `TranslationCache`).
- **The binary codec** as writer and reader classes, against layout functions (`Wire`, `ParseLaws`,
  `Codec`, `IrStream`, `IrWire`, `IrBytes`).

`Lockstep` and `Identities` hold shared lemmas. `dafny verify dfyconfig.toml` checks everything.

## Where the code does not do what it promises

Each of these is kept as the code has it; the named members say exactly when the promise holds.

- *Dead stores.* A store before an operation that can trap is dropped when a later store covers it,
  although the trap would have shown it (`DeadStore.TrapShowsDrop`, on the accepted list of
  `DeadStore.TrapBetweenValid`). The pass is right on every run that does not leave between a store
  and the store that covers it (`DeadStore.EliminatePreserves`).
- *Branch folding.* A branch on a code that reads one flag is folded to its fallthrough, although the
  comment says such branches are left alone (`BranchFold.FoldExact` is an equivalence,
  `BranchFold.FlagCodeMisfolds` the instance).
- *Lowered values.* Three things make the emitted code part from the IR, and nothing else does:
  division by zero (the folder gives `x / 0` a value, the code leaves with the halt value), a result
  that is not cut to its narrow size (`BinOp`, `Select`, unsigned narrowing `Extend`; for a 32-bit PEXT,
  high source bits that the code cuts off first), and a count register that `WriteFlagsCountZero`
  overwrites although the count is used again. `Simulation.StepDeviates` is the equivalence for one
  statement, `Simulation.LoweredRunExact` for whole runs of any list. Instances on lists the validator
  accepts: `OpSimulation.NarrowingFails`, `OpSimulation.ByteSumFails`, `OpSimulation.CountUsedFails`.
- *Spilling.* Fetching the second operand of a statement can evict the first, and then both are read
  from one register. `Lowering.Lowerer.FetchPair` says exactly when: the second has to be reloaded, no
  register is free, and the first is the ref wanted for longest. Without slots this cannot happen.
- *Futex credits.* A later waiter can take the credit meant for an earlier one
  (`FutexRuns.CreditStolen` on a reachable state, `FutexRuns.TheftIsReachable`); exactly a new
  registration uncovers an address (`FutexRuns.CoveredStep`), and while the word stays away from the
  awaited value there is none (`FutexRuns.AwayNoneRegisters`, `FutexRuns.CoveredWhileAway`).
- *Cache.* An entry larger than the byte cap empties the cache, where the comment says it is kept
  (`CacheModel.NewestSurvives`). Invalidating a page leaves superseded versions behind, and a range that
  ends at 2^64 leaves everything (`CacheModel.InvalidateComplete` is an equivalence; instances
  `CacheModel.PageNotEmptied`, `CacheModel.LastPageKept`); such a version can be neither found nor
  inserted again nor compacted away (`CacheModel.StrandedStays`). Upsert removes only the indexed
  version (`CacheModel.UpsertReplaces`, `CacheModel.UpsertLeavesVersion`). A load and a lowered cap do
  not evict (`CacheModel.LoadExact`, `CacheModel.LoadOverflows`).
- *Codec.* Operator kinds after `Rcr` and the string loops do not come back
  (`IrWire.IrRoundTrip`, `Codec.StmtsRoundTrip`, both equivalences).
- *Sentinel.* `dominators` marks an unprocessed block with the id 0xFFFFFFFF. An entry with that id
  leaves the whole array unprocessed, which is right exactly when the entry is the immediate dominator
  of every other reachable block (`Dominators.SentinelEntryExact`; `Dominators.SentinelChainFails` is an
  instance). A block with that id that is unreachable or has no successor in the function does no harm
  (`Dominators.NamedTerminates`, `Dominators.DominatorsOf`). `global_cse` is right whatever the array
  says (`GlobalCse.CseWith`), because a sole predecessor is always the immediate dominator
  (`GlobalCse.SolePredDominates`).

Passes are specified twice: by the run of the code before and after, and by what the output list looks
like, so that a pass that did nothing would not do.

Two side conditions are the caller's: re-entry of a string loop needs the PC after the loop to differ
from the PC of the loop, as it does in translated code (`RepHops.DispatchExact`), and NZCV must be read
before code that uses it for itself (`Lowering.Compile`).

## Model

| member | source | states |
|---|---|---|
| `Dominators.PredecessorsMap` | core/src/ir/dominators.cpp:27-39 | every block's list holds exactly the blocks that name it as a successor |
| `Dominators.PostorderOf` | core/src/ir/dominators.cpp:59-90 | lists exactly the reachable blocks once, entry last, each other block before one it is a successor of; empty exactly if the entry is missing |
| `Dfs.Postorder` | core/src/ir/dominators.cpp:59-90 | the explicit-stack walk ends and yields such an order on every graph, targets outside the function included |
| `IdomSolver.ReversePostorderIsGood` | core/src/ir/dominators.cpp:92-110 | in reverse postorder the entry is first, ranks differ and every other reachable block has an earlier predecessor |
| `IdomSolver.Intersect` | core/src/ir/dominators.cpp:112-125 | the two-finger loops end where the climb over the array does, and at its result, for any array |
| `IdomSolver.ClimbedIsJoin` | core/src/ir/dominators.cpp:112-125 | on an array that records parents, the climb ends at the nearest common recorded ancestor |
| `IdomSolver.NewParent` | core/src/ir/dominators.cpp:128-143 | the loop over the predecessors folds the climb over the processed ones, for any array |
| `IdomSolver.NewIdomIsMeet` | core/src/ir/dominators.cpp:128-143 | on an array that records parents, the candidate is the lowest node on the chains of all processed predecessors |
| `IdomSolver.Visit` | core/src/ir/dominators.cpp:128-143 | one block's update touches its own cell alone and reports whether it changed |
| `IdomSolver.RevisedUpdates` | core/src/ir/dominators.cpp:128-143 | revising a block keeps every invariant of the iteration, and the new parent lies above the old one |
| `IdomSolver.BlockProgresses` | core/src/ir/dominators.cpp:126-144 | a change lowers the sum of parent ranks; no change leaves the parent on the chain of every predecessor |
| `IdomSolver.Pass` | core/src/ir/dominators.cpp:126-144 | one sweep in reverse postorder, reporting a change exactly when the array differs |
| `IdomSolver.Solve` | core/src/ir/dominators.cpp:112-145 | the changed-until-stable loop ends wherever the sweeps settle, with the settled array, sentinel ids included |
| `IdomSolver.QuietSettles` | core/src/ir/dominators.cpp:112-145 | the sweeps settle if no reachable block with a successor has the sentinel's id |
| `IdomSolver.QuietIsTree` | core/src/ir/dominators.cpp:112-145 | and then the array is the dominator tree under the path definition |
| `IdomSolver.SentinelSettles` | core/src/ir/dominators.cpp:112-145 | with the sentinel as entry id the first sweep changes nothing |
| `DomTree.UpdateKeepsInv` | core/src/ir/dominators.cpp:128-143 | soundness, settledness of the not yet revisited chains and shrinking of chains survive each out-of-order update |
| `DomTree.ParentMovesUp` | core/src/ir/dominators.cpp:128-143 | a new parent is an ancestor of the old one, so chains only shrink |
| `DomTree.FixpointIsDominatorTree` | core/src/ir/dominators.cpp:92-145 | at a sound fixpoint a block is on the chain of another exactly when it dominates it |
| `Dominators.DominatorsOf` | core/src/ir/dominators.cpp:92-145 | every cell is the immediate dominator by the path definition, the entry itself for the entry, and the sentinel exactly for unreachable blocks; all sentinel if the entry is missing or has the sentinel's id |
| `Dominators.NamedTerminates` | core/src/ir/dominators.cpp:92-145 | the iteration ends on every function with unique ids, unless a reachable block other than the entry has the sentinel's id and a successor |
| `Dominators.SentinelEntryExact` | core/src/ir/dominators.cpp:126-143 | with the sentinel as entry id the array is right exactly when the entry is the immediate dominator of all other reachable blocks |
| `Dominators.SentinelChainEnds` | core/src/ir/dominators.cpp:126-143 | a chain of three blocks from such an entry is solved |
| `Dominators.SentinelChainFails` | core/src/ir/dominators.cpp:126-143 | and its array is wrong: the third block's dominator is missing |
| `Loops.ChainContains` | core/src/ir/dominators.cpp:147-165 | the bounded walk answers whether the head is on the recorded chain within 1,000,000 steps, on any array |
| `NaturalLoops.ChainIsAbove` | core/src/ir/dominators.cpp:147-165 | on the solved array that is dominance (always sound, complete within the step bound) |
| `NaturalLoops.BackEdges` | core/src/ir/dominators.cpp:147-175 | all edges returned are back edges, and all back edges are returned; with the sentinel as entry id, exactly the self edges |
| `Loops.LoopBody` | core/src/ir/dominators.cpp:177-213 | the worklist computes exactly the header and the blocks with a path to the tail that avoids the header; a self-edge gives the header alone |
| `Loops.HeaderDominatesBody` | core/src/ir/dominators.cpp:177-213 | the header dominates every block of the body |
| `NaturalLoops.NaturalLoopsOf` | core/src/ir/dominators.cpp:177-213 | one exact loop for every edge returned, and for every back edge |
| `AncestorSolver.IntersectIdoms` | core/src/ir/analysis.cpp:110-133 | the ancestor-set intersection also ends at the nearest common ancestor; its last return is never the deciding one |
| `AncestorSolver.NewIdom` | core/src/ir/analysis.cpp:101-108 | the meet of the predecessors that are the entry or already in the map |
| `AncestorSolver.SolveTree` | core/src/ir/analysis.cpp:339-391 | the map-based iteration ends with the dominator tree, for every block id |
| `AncestorSolver.PostorderRec` | core/src/ir/analysis.cpp:302-328 | the recursive walk yields a postorder of the reachable blocks |
| `Analysis.BuildCfgGraph` | core/src/ir/analysis.cpp:205-300 | refuses a function exactly when block ids or guest-PC markers repeat, the entry is missing or a named target is missing, reporting the first rule broken; otherwise successors and predecessors mirror the terminator, marker and fallthrough edges |
| `Analysis.ComputeDominators` | core/src/ir/analysis.cpp:339-405 | for every accepted function the map has exactly the reachable blocks, nothing for the entry and the immediate dominator for all others; the children lists invert it |
| `DomChildren.ChildrenOf` | core/src/ir/analysis.cpp:393-402 | each block's list holds exactly the blocks it is recorded for, once each and ascending |
| `Analysis.TreeDominates` | core/src/ir/analysis.cpp:187-203 | `dominates` answers the path definition on reachable blocks and false otherwise |
| `Analysis.SolversAgree` | core/src/ir/analysis.cpp:339-405 | when every block ends in Jump, CondJump or an exit both solvers say the same about every block |
| `GlobalCse.SolePredDominates` | core/src/passes/global_cse.cpp:107-120 | a sole predecessor is the immediate dominator, so the dominator comparison is implied |
| `GlobalCse.TablesLocated` | core/src/passes/global_cse.cpp:72-145 | every forwarded entry was defined in a block that dominates the block it reaches |
| `GlobalCse.EntryHolds` | core/src/passes/global_cse.cpp:107-120 | what the table of a block claims at its end holds on entry of every successor it is forwarded to |
| `GlobalCse.RunsPreserved` | core/src/passes/global_cse.cpp:72-145 | after any number of blocks, loops included, original and optimised function are in the same state |
| `GlobalCse.StartTable` | core/src/passes/global_cse.cpp:98-120 | a block starts with the end table of its sole predecessor if that is its recorded dominator, else with none |
| `GlobalCse.OptimiseWith` | core/src/passes/global_cse.cpp:72-145 | the in-place rewriting in reverse postorder forwards tables only along sole predecessors, whatever the array; with the true array it eliminates along all of them |
| `GlobalCse.ChainEliminated` | core/src/passes/global_cse.cpp:107-140 | the last block of a chain of sole predecessors becomes what elimination in the chain's statements in a row leaves of it |
| `GlobalCse.ChainExists` | core/src/passes/global_cse.cpp:107-120 | every reachable block ends such a chain |
| `GlobalCse.Optimise` | core/src/passes/global_cse.cpp:72-145 | with the solver's array: the forwarded tables, the transformed blocks, and elimination along every chain |
| `GlobalCse.CseWith` | core/src/passes/global_cse.cpp:72-145 | with any array of dominators every run of an SSA function is preserved: block trace, values, registers, memory; with the true one all repeats along chains go, and unreachable blocks stay as they are |
| `GlobalCse.GlobalCse` | core/src/passes/global_cse.cpp:72-145 | so it is with the solver's array, whenever the solver ends: runs preserved, repeats eliminated |
| `CseTable.CseStatements` | core/src/passes/cse.cpp:70-103 | from an empty table, a BinOp repeated since the last flush becomes a copy of the first ref that computed it, and nothing else changes |
| `CseTable.TableExact` | core/src/passes/cse.cpp:76-98 | an expression is in the table exactly if a statement since the last flush computed it, with the first such ref |
| `CseTable.CleanedExact` | core/src/passes/cse.cpp:82-97 | what a statement becomes is a copy exactly if an equal BinOp precedes it with no flush between, of the first such ref |
| `CseTable.FlushingExact` | core/src/passes/cse.cpp:53-68 | exactly the ops that write a register, memory or flags and go on flush the table |
| `CseTable.RewriteRuns` | core/src/passes/cse.cpp:70-103 | rewriting with a true table changes no state, and the table is true again at the end |
| `Arith.MulHighU64Exact` | core/src/passes/const_prop.cpp:59-69 | the four-product formula is the high half of the true 128-bit product |
| `Arith.MulHighS64Exact` | core/src/passes/const_prop.cpp:71-77 | likewise for the signed product |
| `BitPermute.BitDeposit` | core/src/passes/const_prop.cpp:34-44 | the lowest-bit loop is the bit-by-bit PDEP |
| `BitPermute.BitExtract` | core/src/passes/const_prop.cpp:46-57 | the lowest-bit loop is the bit-by-bit PEXT |
| `BitPermute.ExtractOfDeposit` | core/src/passes/const_prop.cpp:34-57 | PEXT undoes PDEP up to the mask's population count |
| `BitPermute.DepositOfExtract` | core/src/passes/const_prop.cpp:34-57 | PDEP of PEXT is the masked value |
| `BitLaws.ShiftMoves` | core/src/passes/const_prop.cpp:87-117 | each bit of a shift or rotation comes from the bit its name says, by the count modulo 64; arithmetic shifts fill with the sign |
| `BitLaws.BitwiseEach` | core/src/passes/const_prop.cpp:84-86 | and, or and xor work on each bit alone |
| `Validate.ValidateList` | core/src/ir/validate.cpp:658-748 | accepts exactly the lists with defs before uses, unique defs, results where they belong and matching sizes; otherwise names the first broken rule of the first bad statement |
| `Validate.Verdict` | core/src/ir/validate.cpp:668-746 | no rule is reported exactly when the statement is well formed in its context |
| `Validate.TypedStep` | core/src/ir/validate.cpp:26-71 | on a valid list every bound value fits the size recorded for its ref |
| `Validate.ValidIsWhole` | core/src/ir/validate.cpp:556-656 | in no run of a valid list does an op meet an operand wider than the size it works at, shift counts and refs in two roles apart |
| `Validate.OperandsSized` | core/src/ir/validate.cpp:556-656 | every operand has a required size except shift counts, register writes, truncations and conditions; addresses and jump targets are full words |
| `ConstProp.ConstantPropagate` | core/src/passes/const_prop.cpp:174-238 | every BinOp, Extend and Truncate whose operands are constants of the output is the constant it computes from them; the rest is as it was |
| `KnownConsts.ConstsExact` | core/src/passes/const_prop.cpp:180-190 | a ref is known with a value exactly if the last statement that set it to a constant says so |
| `ConstProp.RewrittenStep` | core/src/passes/const_prop.cpp:174-238 | folding with true constants does what the statement did |
| `Algebraic.SimplifyIsResult` | core/src/passes/algebraic.cpp:40-135 | every identity yields the masked result of the original operation |
| `Algebraic.AlgebraicSimplify` | core/src/passes/algebraic.cpp:138-170 | every BinOp that a known operand decides, or whose operands cancel, is that constant; the rest is as it was |
| `Algebraic.SimplifyExact` | core/src/passes/algebraic.cpp:40-135 | the identity tried first does not matter: which facts about the operands decide the result, and the result |
| `CopyProp.Resolve` | core/src/passes/copy_prop.cpp:25-35 | alias chasing ends at a ref without alias, on any list |
| `CopyProp.RewriteOp` | core/src/passes/copy_prop.cpp:38-153 | every operand and nothing else is replaced by the end of its chain |
| `CopyProp.RewrittenStep` | core/src/passes/copy_prop.cpp:38-153 | under true aliases the rewritten statement does the same |
| `CopyProp.CopyPropagate` | core/src/passes/copy_prop.cpp:158-183 | on valid lists every operand is replaced by what it is a copy of, no operand left is a copy, and results never change |
| `Passes.ApplyValid` | core/src/passes/copy_prop.cpp:158-183 | each of the four passes keeps a valid list valid |
| `Passes.ApplyPreserves` | core/src/passes/cse.cpp:70-103 | each of the four passes ends in the same state: every ref, registers, memory, flags, next PC |
| `Passes.PipelinePreserves` | core/src/passes/const_prop.cpp:174-238 | so does any sequence of them, and the list stays valid |
| `Passes.RunPipeline` | core/src/passes/algebraic.cpp:138-170 | the passes as loops, composed in any order, return a valid list with the same meaning |
| `DeadStore.Eliminate` | core/src/passes/dead_store.cpp:57-93 | scan and filter keep exactly the statements that are not dead by the pending-store rule |
| `DeadStore.DeadExact` | core/src/passes/dead_store.cpp:57-93 | a store is dropped exactly if a later store covers it with no reader of memory in between |
| `DeadStore.EliminatePreserves` | core/src/passes/dead_store.cpp:57-93 | on valid lists, every run that does not leave between a store and its cover ends in the same state, whatever addresses alias or overlap |
| `DeadStore.EliminateStraight` | core/src/passes/dead_store.cpp:57-93 | so every run does if no op that may leave stands between a store and its cover |
| `DeadStore.NoExitsIsStraight` | core/src/passes/dead_store.cpp:57-93 | lists that leave only at their end are straight-line |
| `DeadStore.TrapBetweenValid` | core/src/passes/dead_store.cpp:57-93 | the list with a division between two stores is one the validator accepts |
| `DeadStore.TrapShowsDrop` | core/src/passes/dead_store.cpp:57-93 | a trapping division between two stores shows the dropped one |
| `Conditions.ConditionAtWidth` | core/src/backend/lowering.cpp:1004-1021 | comparing operands shifted up by 64-w decides each of the ten relational codes as the w-bit comparison does |
| `FlagLaws.FlagsAtWidth` | core/src/backend/lowering.cpp:1778-1822 | flags of shifted operands are those of the w-bit op: Z and N of the cut result, C the carry or no-borrow out of w bits, V the w-bit signed overflow |
| `FlagLaws.DirectCodes` | core/src/backend/lowering.cpp:1763-1777 | the six codes that read one flag, after a w-bit comparison |
| `FlagLaws.SignedReading` | core/include/prisma/ir.hpp:45-79 | the signed reading of a size lies in its range and agrees with the value modulo it |
| `FlagLaws.CompareThenJump` | core/src/backend/lowering.cpp:2057-2076 | a jump on the result of a comparison takes the first target exactly if the comparison of the words holds |
| `FlagLaws.CompareThenExit` | core/src/backend/lowering.cpp:2020-2034 | a conditional exit after a comparison is taken exactly if the comparison at its width holds |
| `FlagLaws.CompareThenSelect` | core/src/backend/lowering.cpp:1613-1631 | so is a selection made |
| `LoadStore.LoadAt` | core/src/backend/lowering.cpp:1632-1643 | a load is little endian: byte k of the value is the memory byte k on, addresses wrapping |
| `LoadStore.LoadStored` | core/src/backend/lowering.cpp:1632-1652 | what was stored comes back cut to the size, at every size and address |
| `LoadStore.LoadElsewhere` | core/src/backend/lowering.cpp:1632-1652 | a store to disjoint bytes leaves a load alone |
| `LoadStore.StoreThenLoad` | core/src/backend/lowering.cpp:1632-1652 | so in the IR, through one ref |
| `LoadStore.ValidStoreKeeps` | core/src/ir/validate.cpp:556-656 | in a valid list the very value stored can be loaded again |
| `LoadStore.ExchangeThenLoad` | core/src/backend/lowering.cpp:1672-1714 | an exchange returns the old value and leaves the new one exactly if the old one matched |
| `LoadStore.MergedParts` | core/src/backend/emitter.cpp:76-91 | a register write sets the low part and keeps the rest, except that a 32-bit write clears it |
| `LoadStore.WriteThenRead` | core/src/backend/emitter.cpp:76-91 | a register read after a write of the same size gives the value, cut |
| `BranchFold.FoldBranches` | core/src/passes/branch_fold.cpp:84-148 | a branch that goes by a comparison of constants is decided, undecided conditions counting as not taken; every other statement is as it was |
| `BranchFold.FoldExact` | core/src/passes/branch_fold.cpp:33-79 | the folded branch goes where `csel` would exactly when the code is relational or the fallthrough is right anyway |
| `BranchFold.FlagCodeMisfolds` | core/src/passes/branch_fold.cpp:84-148 | comparing equal constants, a no-carry branch is taken but folded to its fallthrough |
| `BranchFold.FoldPreserves` | core/src/passes/branch_fold.cpp:84-148 | with decided folds and no untracked flag writer the list ends in the same state |
| `FlagWrites.Eliminate` | core/src/passes/flag_write_elim.cpp:29-84 | scan and filter keep exactly the statements not found superseded |
| `FlagWrites.DroppedExact` | core/src/passes/flag_write_elim.cpp:29-84 | a flag write is dropped exactly if no reader comes before the next write |
| `FlagWrites.ReadsExact` | core/src/passes/flag_write_elim.cpp:57-66 | exactly the readers have an outcome that depends on the flags |
| `FlagWrites.WritesExact` | core/src/passes/flag_write_elim.cpp:38-56 | exactly the writers can change them |
| `FlagWrites.EliminatePreserves` | core/src/passes/flag_write_elim.cpp:29-84 | only the final NZCV can differ: no branch, Select, stored RFLAGS, value or memory does |
| `WideDivision.StepRuns` | core/src/backend/lowering.cpp:181-207 | one emitted shift-and-subtract step is one step of restoring division, carry out of the 64-bit remainder included |
| `WideDivision.CoreRuns` | core/src/backend/lowering.cpp:181-207 | the 64 steps leave quotient and remainder of the 128-bit dividend |
| `WideDivision.UnsignedRuns` | core/src/backend/lowering.cpp:1538-1594 | for all operands the unsigned sequence yields the truncated result or leaves with the halt value, exactly when the divisor is zero or the quotient does not fit |
| `WideDivision.SignedRuns` | core/src/backend/lowering.cpp:1538-1594 | likewise for the signed sequence, absolute values, guards and sign fix-up included |
| `WideDivision.GuardIsTrap` | core/src/backend/lowering.cpp:234-253 | the range guard fires exactly on an unrepresentable quotient and never on a remainder |
| `WideDivision.DivisionLaw` | core/src/backend/lowering.cpp:159-267 | every untrapped quotient or remainder satisfies n = q·d + r with the remainder smaller in magnitude than the divisor and of the dividend's sign, a signed remainder whose quotient does not fit included |
| `EmittedPermute.PermuteRuns` | core/src/backend/lowering.cpp:113-148 | the emitted PDEP/PEXT loop ends with the permuted bits and touches only its own registers |
| `EmittedPermute.PermuteFolds` | core/src/backend/lowering.cpp:113-148 | at I32 and I64 that is the folding function's value, except exactly when a 32-bit PEXT would have brought high bits down |
| `BitPermute.DepositLow` | core/src/backend/lowering.cpp:113-148 | PDEP of operands cut to n bits gives the low n bits of PDEP |
| `BitPermute.ExtractLow` | core/src/backend/lowering.cpp:113-148 | PEXT of cut operands does so exactly when nothing taken from above lands among them |
| `AluCode.BinRuns` | core/src/backend/lowering.cpp:1483-1537 | for every operator kind and size the emitted code leaves its 64-bit value in the result register and the flags alone |
| `AluCode.LoweredBinExact` | core/src/backend/lowering.cpp:1483-1537 | that is the folder's value at the op's size exactly when it fits, always at 64 bits |
| `AluCode.BinTraps` | core/src/backend/lowering.cpp:218-223 | division and remainder by zero leave at once with the halt value |
| `AluCode.RolIsRor` | core/src/backend/emitter.cpp:130-135 | rotating right by the negated count rotates left |
| `AluCode.SignedModIsMsub` | core/src/backend/lowering.cpp:1517-1532 | divide and multiply-subtract give the signed remainder, the overflowing quotient included |
| `FlagCode.FlagsRuns` | core/src/backend/lowering.cpp:1778-1822 | the emitted flag code leaves the operator's NZCV of the width-aligned operands |
| `FlagCode.AlignRuns` | core/src/backend/lowering.cpp:1004-1021 | narrow operands are shifted to the top of fresh registers, full words used as they are |
| `FlagCode.CasRuns` | core/src/backend/lowering.cpp:1672-1714 | the compare-and-exchange loop returns the old value and stores the new one exactly if the old matches at the operand width, however many exclusive stores are lost first |
| `PairCode.PairRuns` | core/src/backend/lowering.cpp:1715-1762 | likewise for the two-word exchange: both old words, and both new ones stored exactly if both match |
| `RflagsCode.CountZeroRuns` | core/src/backend/emitter.cpp:459-472 | leaves Z for a zero count and C for a zero source, and overwrites the count register with the latter |
| `RflagsCode.RflagsRuns` | core/src/backend/lowering.cpp:2151-2237 | the emitted bit work leaves the merged RFLAGS word in the frame and its carry bit in the CF slot, for each carry mode and with or without PF and AF |
| `EmittedRep.LoopRuns` | core/src/backend/lowering.cpp:2441-2450 | the emitted element loop does as many elements as its counter says, addresses moving either way |
| `EmittedRep.HopRuns` | core/src/backend/lowering.cpp:2397-2516 | one hop does min(RCX, cap) elements, leaves the rest in RCX and the right next PC in x0 |
| `RepLoops.HopBound` | core/include/prisma/ir.hpp:873-912 | a hop writes all there is or exactly 16 MiB, and makes progress |
| `RepLoops.HopsIsCeiling` | core/include/prisma/ir.hpp:873-912 | the number of hops is the ceiling of RCX over the cap |
| `RepHops.HopsAreLoop` | core/include/prisma/ir.hpp:873-912 | that many hops equal the unclamped loop for any RCX, direction and overlap, with RCX = 0 |
| `RepHops.HopsComeBack` | core/src/backend/lowering.cpp:2397-2516 | every hop before the last asks to be entered again |
| `RepHops.DispatchExact` | core/src/backend/lowering.cpp:2397-2516 | re-entry until the PC after the loop is the whole loop exactly when the two PCs differ or one hop is enough |
| `Liveness.ComputeLiveness` | core/src/backend/lowering.cpp:1023-1300 | every mentioned ref is recorded with the index of its last mention |
| `Pool.EvictKeeps` | core/src/backend/lowering.cpp:963-977 | moving a ref to a slot keeps registers and slots each in exactly one place |
| `Pool.TakeForKeeps` | core/src/backend/lowering.cpp:664-676 | so does giving a ref a register |
| `Pool.PoolCounts` | core/src/backend/lowering.cpp:1360-1366 | free registers, temporaries and refs with a register always add up to ten |
| `Lowering.Lowerer.PickVictim` | core/src/backend/lowering.cpp:948-966 | finds a ref used furthest ahead, or that none is used later |
| `Lowering.Lowerer.SpillOneRef` | core/src/backend/lowering.cpp:935-978 | succeeds exactly if a slot and a ref used later exist, then moves one with the furthest last use; refs with a place keep one |
| `Lowering.Lowerer.AllocateScratch` | core/src/backend/lowering.cpp:664-676 | a register nobody holds goes to the ref, and no other ref loses its place; fails only if no register is free and no wanted ref can be spilled |
| `Lowering.Lowerer.AllocateTemporary` | core/src/backend/lowering.cpp:922-933 | a register nobody holds joins the temporaries; fails as above |
| `Lowering.Lowerer.RegOf` | core/src/backend/lowering.cpp:980-1002 | a held ref is found where it is or reloaded from its slot, which becomes free; fails for a held ref only if the pool is exhausted |
| `Lowering.Lowerer.FetchPair` | core/src/backend/lowering.cpp:1486-1490 | two operands fetched in turn get the same register exactly if the second is in a slot, no register is free and the first is the ref wanted for longest |
| `Lowering.Lowerer.ExpireIntervals` | core/src/backend/lowering.cpp:1303-1321 | temporaries and exactly the refs past their last mention give their registers back |
| `Lowering.Lowerer.LowerStmt` | core/src/backend/lowering.cpp:1451-1839 | keeps the partition of x0..x9 and of the slots; on success the statement's results have a place, no operand is left in a stale slot, and without spilling the new code simulates the statement; without slots it succeeds exactly if the op has an arm, its operands have a place and live refs, results and temporaries fit the pool, and with any number of slots it fails for these reasons alone |
| `Emission.TempsNeeded` | core/src/backend/lowering.cpp:1483-1837 | no op asks for more than six temporaries, and most for none |
| `Lowering.Lowerer.LowerNext` | core/src/backend/lowering.cpp:1376-1381 | between statements exactly the refs bound earlier and mentioned later have a place, one each, for every number of slots |
| `Lowering.Lowerer.Lower` | core/src/backend/lowering.cpp:1338-1384 | after success every register and slot is free again and without spilling the code follows the list from every matching state; a list is lowered if no statement stands in the way, without slots only then, and a failure is the fault of one statement: an op without an arm, an unbound operand, or a demand above the pool |
| `LiveRefs.LiveIsLive` | core/src/backend/lowering.cpp:1303-1321 | the refs held by last use are those bound earlier and mentioned here or later |
| `LiveRefs.BoundIsLive` | core/src/backend/lowering.cpp:980-1002 | in lists that bind before they use, no operand dangles |
| `LiveRefs.FewRefsFit` | core/src/backend/lowering.cpp:664-676 | a list never asks for more registers than it has refs, and the statement's temporaries |
| `LiveRefs.ValidIsBound` | core/src/ir/validate.cpp:658-748 | every validated list has what the lowerer relies on: unique results and operands bound earlier |
| `Emission.CodeSimulates` | core/src/backend/lowering.cpp:1451-1839 | whenever the registers come from a sound pool, the code of any op the lowerer does not refuse simulates it |
| `OpSimulation.ExtendRuns` | core/src/backend/lowering.cpp:2301-2350 | the extension sequence computes the extended value exactly if it is signed or the value fits the target |
| `OpSimulation.ExtendWidens` | core/src/backend/lowering.cpp:2301-2350 | so it does for every value if the target is not narrower |
| `OpSimulation.NarrowingValid` | core/src/backend/lowering.cpp:2301-2350 | the validator accepts an unsigned extension from I64 to I8 |
| `OpSimulation.NarrowingFails` | core/src/backend/lowering.cpp:2301-2350 | its code leaves 256 where the IR has 0 |
| `OpSimulation.ByteSumValid` | core/src/backend/lowering.cpp:1483-1537 | the validator accepts an I8 addition of two loaded bytes |
| `OpSimulation.ByteSumFails` | core/src/backend/lowering.cpp:1483-1537 | its code leaves 255 + 1 = 256 where the IR has 0 |
| `OpSimulation.CountUsedValid` | core/src/backend/lowering.cpp:3391-3408 | the validator accepts a count used after its flags are written |
| `OpSimulation.CountUsedFails` | core/src/backend/lowering.cpp:3391-3408 | by then the code has 0 where the IR still has the count 5 |
| `OpSimulation.LeaveSimulates` | core/src/backend/lowering.cpp:1823-1839 | direct and indirect exits leave the IR's next PC in x0 |
| `OpSimulation.CondRuns` | core/src/backend/lowering.cpp:2020-2034 | the two moves and `csel` pick the branch target by NZCV and spare everything but x0 and x1 |
| `OpSimulation.RepSimulates` | core/src/backend/lowering.cpp:2397-2516 | a string loop as last statement ends like the IR: memory, RCX, RSI, RDI, next PC |
| `Simulation.FollowsStep` | core/src/backend/lowering.cpp:1376-1381 | code that follows a list, then code that simulates a statement, follows the longer list |
| `Simulation.StepDeviates` | core/src/backend/lowering.cpp:1451-1839 | the lowered meaning of a statement is the IR's exactly if it does not divide by zero, fits its size and overwrites no count still wanted |
| `Simulation.LoweredRunExact` | core/src/backend/lowering.cpp:1338-1384 | over any list and start, the lowered run agrees with the IR after every statement exactly when no statement reached deviates so |
| `Simulation.LoweredEndExact` | core/src/backend/lowering.cpp:1338-1384 | with refs bound once and no count wanted again, already the final states agree exactly then |
| `Simulation.FullWidthDeviates` | core/src/backend/lowering.cpp:218-223 | for results at full width that is exactly when no reached division divides by zero |
| `Lowering.CompiledRun` | core/src/backend/lowering.cpp:1338-1384 | if no statement reached deviates: guest registers, flags word and memory of the IR, its next PC in x0, or a matching state at the end of the code |
| `Lowering.CompiledTrap` | core/src/backend/lowering.cpp:209-223 | if the first to deviate divides by zero, the code leaves with the halt value in the state before it |
| `Lowering.Compile` | core/src/backend/lowering.cpp:1338-1384 | compiler correctness end to end: an accepted list is lowered exactly if every op has an arm and no statement needs more than ten registers for live refs, results and temporaries; then its code does what the IR does from every matching state on every run without deviation |
| `Lowering.CorrectFullWidth` | core/src/backend/lowering.cpp:1338-1384 | at full width, on every run that does not divide by zero |
| `Futex.StepInv` | core/include/prisma/futex_wait_table.hpp:51-259 | every step of every thread keeps locks, waiter and user counts, table and credits consistent |
| `FutexRuns.Conservation` | core/include/prisma/futex_wait_table.hpp:93-155 | in every reachable state wake-ups handed out are those taken plus those outstanding; before shutdown credits <= waiters <= users and an entry is mapped exactly while used |
| `FutexRuns.NoUnderflow` | core/include/prisma/futex_wait_table.hpp:93-118 | no counter is decremented at zero |
| `FutexRuns.OneEntryPerAddress` | core/include/prisma/futex_wait_table.hpp:217-259 | all calls on one address use the one mapped entry |
| `FutexRuns.MissedWake` | core/include/prisma/futex_wait_table.hpp:129-134 | a wake that finds no entry means nobody is on that address |
| `FutexRuns.CoveringWake` | core/include/prisma/futex_wait_table.hpp:135-156 | a wake for at least all uncredited waiters leaves nobody uncredited, and everyone who has read the word is asleep by then |
| `FutexCalls.WakeExact` | core/include/prisma/futex_wait_table.hpp:135-156 | any wake hands out exactly what it reports: as many as asked for, or every registered waiter has a credit afterwards, and never more than either |
| `FutexCalls.WakeWakes` | core/include/prisma/futex_wait_table.hpp:135-156 | a wake that asks for somebody while somebody waits uncredited wakes somebody |
| `FutexCalls.WaitEnds` | core/include/prisma/futex_wait_table.hpp:67-118 | a wait ends with each status at exactly one kind of step and for exactly one reason |
| `FutexCalls.TurnedAway` | core/include/prisma/futex_wait_table.hpp:56-66 | a wait is turned away exactly when misaligned or during shutdown, a wake exactly when it asks for nobody, finds nobody or comes during shutdown |
| `FutexCalls.ReachableAligned` | core/include/prisma/futex_wait_table.hpp:56-59 | all entries are at aligned addresses |
| `FutexRuns.CoveredIsWoken` | core/include/prisma/futex_wait_table.hpp:93-118 | a waiter of a covered address that gets the lock is woken |
| `FutexRuns.CoveredStep` | core/include/prisma/futex_wait_table.hpp:60-119 | exactly a new registration on the address uncovers it |
| `FutexRuns.CoveredRun` | core/include/prisma/futex_wait_table.hpp:60-156 | over any run without one, it stays covered |
| `FutexRuns.WakeLeavesNonePending` | core/include/prisma/futex_wait_table.hpp:135-156 | after such a wake nobody stands between reading the word and registering |
| `FutexRuns.AwayNoneRegisters` | core/include/prisma/futex_wait_table.hpp:60-119 | from there, while the word differs from v, no thread expecting v registers |
| `FutexRuns.CoveredWhileAway` | core/include/prisma/futex_wait_table.hpp:60-156 | so if all callers expect v the address stays covered that long |
| `FutexRuns.CreditStolen` | core/include/prisma/futex_wait_table.hpp:93-118 | a later registration can take the credit of an earlier waiter |
| `FutexRuns.TheftIsReachable` | core/include/prisma/futex_wait_table.hpp:51-156 | such a state is reached by a run |
| `CacheModel.EvictedIsShortest` | core/src/cache/translation_cache.cpp:63-77 | eviction removes the shortest prefix of the recency list that brings the rest within the caps |
| `CacheModel.CapsHold` | core/src/cache/translation_cache.cpp:63-77 | both caps hold afterwards |
| `CacheModel.NewestSurvives` | core/src/cache/translation_cache.cpp:63-77 | the newest entry survives exactly if it alone fits the byte cap; otherwise the cache is empty |
| `CacheModel.LookupExact` | core/src/cache/translation_cache.cpp:83-112 | a hit exactly on the indexed version, stale exactly on another; the entry-missing branch is unreachable |
| `CacheModel.InsertThenLookup` | core/src/cache/translation_cache.cpp:114-122 | an inserted entry is found unless it exceeds the byte cap |
| `CacheModel.UpsertThenLookup` | core/src/cache/translation_cache.cpp:124-137 | likewise for upsert |
| `CacheModel.InvalidateExact` | core/src/cache/translation_cache.cpp:178-198 | invalidation forgets exactly the addresses in the page |
| `CacheModel.InvalidateComplete` | core/include/prisma/translation_cache.hpp:112-115 | it drops every entry of the range exactly if all entries there are indexed and the range does not reach 2^64 |
| `CacheModel.InvalidateStrands` | core/src/cache/translation_cache.cpp:178-198 | an entry is afterwards unindexed exactly if it was already or was a superseded version in the page |
| `CacheModel.InsertSupersedes` | core/src/cache/translation_cache.cpp:114-122 | a second version of an address supersedes the first |
| `CacheModel.PageNotEmptied` | core/include/prisma/translation_cache.hpp:112-115 | two inserts from the empty cache, then invalidation: the first version is still there |
| `CacheModel.LastPageKept` | core/include/prisma/translation_cache.hpp:112-115 | invalidating the last page drops nothing, and its entry is still found |
| `CacheModel.UpsertReplaces` | core/include/prisma/translation_cache.hpp:107-110 | upsert, before evicting, leaves no other version of the address exactly if all of them are indexed |
| `CacheModel.UpsertLeavesVersion` | core/include/prisma/translation_cache.hpp:107-110 | after two inserts it leaves the first version |
| `CacheModel.CompactExact` | core/src/cache/translation_cache.cpp:156-176 | compaction changes no lookup and leaves indexed addresses one version |
| `CacheModel.HistoryWithinCaps` | core/src/cache/translation_cache.cpp:83-198 | a history over all operations ends within the caps if no load or lowered cap follows its last successful insert or upsert |
| `CacheModel.LoadExact` | core/src/cache/translation_cache.cpp:422-435 | a load ends within the caps exactly if what it loads does |
| `CacheModel.LoadOverflows` | core/src/cache/translation_cache.cpp:422-435 | a load of two entries into a cache of one does not |
| `CacheModel.StrandedStays` | core/src/cache/translation_cache.cpp:156-198 | an unindexed version is unfindable, uninsertable and uncompactable |
| `TranslationCache.Cache.PickLruKey` | core/src/cache/translation_cache.cpp:30-43 | the smallest tick is the head of the recency list |
| `TranslationCache.Cache.EraseKey` | core/src/cache/translation_cache.cpp:45-55 | the four maps lose the key together, the index only if it pointed there |
| `TranslationCache.Cache.TotalCodeBytes` | core/src/cache/translation_cache.cpp:57-61 | the sum over the map is the sum over the list |
| `TranslationCache.Cache.MaybeEvict` | core/src/cache/translation_cache.cpp:63-77 | the loop ends and evicts from the list's head |
| `TranslationCache.Cache.Lookup` | core/src/cache/translation_cache.cpp:83-112 | result as for the list; a hit moves the key to the end and counts, a miss changes nothing; guest code that differs in one byte from what is indexed is stale |
| `Fnv.Hash` | core/src/cache/translation_cache.cpp:15-24 | the loop computes FNV-1a of the bytes |
| `Fnv.SuffixExact` | core/src/cache/translation_cache.cpp:15-24 | a common ending neither makes nor hides a difference of hashes |
| `Fnv.OneByteShows` | core/src/cache/translation_cache.cpp:15-24 | strings that differ in exactly one byte have different hashes |
| `TranslationCache.ChangeIsStale` | core/src/cache/translation_cache.cpp:83-137 | after insert or upsert under the hash of some bytes, looking up any one-byte change is stale, or unknown if the entry was too large to keep |
| `TranslationCache.Cache.Insert` | core/src/cache/translation_cache.cpp:114-122 | refused exactly on a present key; otherwise newest, indexed, and both caps hold |
| `TranslationCache.Cache.Upsert` | core/src/cache/translation_cache.cpp:124-137 | replaces the indexed version of the address, then as insert |
| `TranslationCache.Cache.InvalidatePage` | core/src/cache/translation_cache.cpp:178-198 | drops the indexed versions of the addresses in the wrapped range |
| `TranslationCache.Cache.Compact` | core/src/cache/translation_cache.cpp:156-176 | drops and counts the superseded versions |
| `TranslationCache.Cache.CommitLoaded` | core/src/cache/translation_cache.cpp:422-435 | loading replaces the contents by a recency list of the loaded entries, hit counts zero, caps kept, nothing evicted |
| `TranslationCache.Cache.SetMaxEntries` | core/include/prisma/translation_cache.hpp:158-159 | the cap changes and nothing is evicted |
| `TranslationCache.Cache.SetMaxBytes` | core/include/prisma/translation_cache.hpp:162-163 | likewise for the byte cap |
| `Codec.StmtsRoundTrip` | core/src/ir/serialization.cpp:1103-1140 | a list comes back from its bytes exactly if it is readable: known tags, enumerators in the decoder's range, at most 1,000,000 items |
| `Codec.StmtsReserialize` | core/src/ir/serialization.cpp:1129-1140 | every accepted byte stream serialises back to itself |
| `Codec.FunctionRoundTrip` | core/src/ir/serialization.cpp:1116-1187 | likewise for functions, block and statement counts included |
| `Codec.FunctionReserialize` | core/src/ir/serialization.cpp:1154-1187 | likewise for functions |
| `Codec.HeaderExact` | core/src/ir/serialization.cpp:1063-1093 | the header check accepts exactly the eight header bytes |
| `ParseLaws.CountedReturn` | core/src/ir/serialization.cpp:1041-1061 | the early length guard rejects no genuine encoding of a counted list |
| `IrStream.SerializeStmtList` | core/src/ir/serialization.cpp:1103-1108 | the writer's appends produce the layout's bytes |
| `IrStream.SerializeWholeFunction` | core/src/ir/serialization.cpp:1116-1126 | likewise for functions |
| `IrStream.DeserializeStmtList` | core/src/ir/serialization.cpp:1129-1140 | the reader succeeds exactly where the layout parses, consumes everything, and its value serialises back to the input |
| `IrStream.DeserializeWholeFunction` | core/src/ir/serialization.cpp:1154-1187 | likewise for functions |
| `IrWire.ReadableExact` | core/src/ir/serialization.cpp:408-485 | an IR op comes back exactly if it has a tag and its operator kind is at most `Rcr` |
| `IrWire.ToWireInjective` | core/src/ir/serialization.cpp:130-344 | two ops that come back and have the same tagged form are the same op |
| `IrWire.IrRoundTrip` | core/src/ir/serialization.cpp:1103-1140 | the bytes of an IR list read back as that list and no other exactly if every op comes back and there are at most 1,000,000 |
| `IrBytes.WrittenBytes` | core/src/ir/serialization.cpp:130-344 | the tagged form and its layout table give byte for byte what the writer's branch for the op puts one after another |
| `IrBytes.CodesAreOrder` | core/include/prisma/ir.hpp:45-125 | each enumerator is coded by its place in its declaration |
| `IrBytes.LeIsU64` | core/src/ir/serialization.cpp:83-87 | words go out low byte first |

## Left out

- Vector, floating point, AES, SHA, string-compare, PTEST and x87 ops, and the assembler wrapper: instruction meanings are definitions in `Arm`.
- Lowering of functions with block labels (`lower(const ir::Function&)`), calls, syscalls, CPUID, traps as ops, segment bases, StoreRflagsFromBits and loading RFLAGS back into NZCV.
- Lowering.Lowerer.Lower: with slots, success is stated for lists that fit the pool and failure with its reason; which larger lists succeed depends on the order of spills and is not stated.
- Simulation with spilling on: a fetched operand may be evicted for a later one (Lowering.Lowerer.FetchPair), so with slots only conservation of registers and slots and the reasons of failure are stated.
- Lowering.Lowerer.LowerStmt: operands, results and temporaries are taken before any instruction of the statement, so with spilling on the stores and reloads come before the statement's own code rather than among it.
- Lowering.Lowerer.Lower: simulation needs NZCV readers to come before the next op whose code uses NZCV without defining it (WideDiv, AtomicCmpxchg, AtomicCmpxchgPair), as the comment on CondJumpRel asks; peak counters are not modelled, and an exhausted pool during a reload is reported as a dangling ref as in the code.
- Lowering.Lowerer.RegOf: does not model that inserting into the slot map may invalidate the iterator used afterwards.
- FlagCode.CasRuns: memory ordering and other cores' stores between the exclusive load and store are not modelled beyond the exclusive store failing any finite number of times; likewise PairCode.PairRuns.
- Dominators.DominatorsOf: that the iteration ends is required of functions where a reachable block other than the entry has the id 0xFFFFFFFF and a successor in the function; for those only the range of the cells is stated.
- NaturalLoops.BackEdges: completeness up to the walk's own bound of 1,000,000 steps.
- DeadStore.EliminatePreserves: one way only, since a run that leaves between a store and its cover may still end alike by storing what was there.
- GlobalCse.GlobalCse: for SSA functions whose in-function edges are Jump and CondJump.
- BranchFold.FoldPreserves: for lists without flag writers the pass does not track, such as Compare.
- CacheModel.HistoryWithinCaps: one way only, since a history with a late load may end within the caps by luck; CacheModel.LoadExact says when.
- TranslationCache.Cache.Lookup: the tick counter is assumed not to wrap at 2^64; hit counts are unbounded.
- `detect_natural_loops`, the loop finder on top of the map-based tree.
- Shutdown liveness, condition-variable fairness and real time in the futex table: timeouts are nondeterministic steps.
- File streams, compression, asynchronous saving and the C interface of the cache; the commit step of loading is modelled.
- Dead code elimination, peephole, loop-invariant motion, strength reduction, tail-call and x87 passes.
- IR ops outside the scalar fragment in the codec's IR view: their tags are covered by the layout functions, not by `IrWire`.
