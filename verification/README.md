# Verification of the ZL toolchain

A Dafny model of the algorithms at the core of ZL, a compiler, virtual machine and package manager, with proofs of
what they promise. Every module follows one source file or one concern of it:

- **Control flow of the MIR** (`Mir*.dfy`): reachability with and without unwind edges, reverse post-order, the
  iterative dominator sweeps against path dominance, dominance frontiers, pruning with renumbering, and the constant
  analysis of SSA functions.
- **Runs of the MIR** (`MirEffects`, `MirExecution`, `MirRunLaws`, `MirEdgeCopies`, `MirOperations`, `MirTypeSafety`,
  `MirFolding`, `MirDeletion`, `MirDeadRounds`, `MirDeadValues`, `MirDeadChains`): the classification of effects, runs
  of functions with edge arguments, loops and handlers, when the code of the backends for edges does what they mean,
  type safety of those runs, the evaluator of constants against them, and the pass that deletes dead values and stores
  without changing any run, with the exact reach of its rounds.
- **Ownership verifier** (`Ownership*.dfy`): the flow analysis that accepts or rejects legacy IR, its termination,
  that it decides whether its flow equations have a solution, and that accepted functions are safe along paths; for
  paths that return to the first block, exactly which faults remain and which functions have them; and the other
  direction, that a function is accepted exactly if no instruction is at fault on any walk.
- **Bytecode compiler** (`SourceLanguage`, `LanguageLaws`, `BytecodeVm`, `CodeShape`, `ExprSimulation`,
  `StmtSimulation`, `Backpatch`, `BytecodeCompiler`, `FunctionCompile`): a backpatching code generator, a source
  semantics and a stack machine, and the theorem that compiled functions and source functions give the same results.
- **Legacy optimizer** (`Legacy*.dfy`, `Int64`, `IntPower`, `Bits`, `Doubles`): the control-flow phases as refinements
  of runs, and the exact 64-bit arithmetic of the folders.
- **Type names** (`TypeName*.dfy`): printer, grammar, stateful parser, their round trip, and what particular texts
  mean.
- **Packages** (`Package*.dfy`, `Lock*.dfy`, `Fingerprints`): resolver, lock validation, the lock file format, and the
  whole way of a lock through its text.
- **Modules, dispatch, overloads** (`ModuleLoading`, `DispatchTables`, `OverloadResolution`).

`Wrappers` and `Sequences` hold what several of these share. The operations that both sides of a theorem use
(operators, loop tests, quoting, fingerprints, moves and loans) have laws of their own in the modules named `...Laws`,
`MirOperations`, `OwnershipExact` and `Fingerprints`, stated by arithmetic, by concrete text or by replay instead of
by the function concerned.

Code that changes things step by step is modelled by classes and methods with loops, each proved against a
specification that is stated by paths, runs, sets or functions; code that computes values is modelled by functions
with lemmas. The file `dfyconfig.toml` lets `dafny verify dfyconfig.toml` take all files together.

## Model

| member | source | states |
|---|---|---|
| `MirFunction.BuildEdges` | src/mir/analysis.cpp:23-42 | Every edge to an existing block is recorded, and each predecessor list holds its sources in block order, once per mention; edges to missing blocks are left out |
| `MirFunction.SuccessorsLaw` | src/mir/instruction.cpp:484-507 | A jump leads to its target, a branch to both its targets, a switch to its cases and then its default, other terminators and absent references nowhere |
| `MirReachability.ComputeReachability` | src/mir/analysis.cpp:70-106 | The two sets are exactly the blocks reachable by paths of normal edges, and by paths that mix normal and unwind edges |
| `MirPostOrder.ComputeReversePostOrder` | src/mir/analysis.cpp:108-139 | The order holds exactly the reachable blocks, once each, the entry first; every other block is entered from an earlier one; an edge that does not go forward closes a cycle of later blocks |
| `MirPostOrder.PushKeeps` | src/mir/analysis.cpp:108-139 | Entering a block keeps the depth-first invariants: stack, settled blocks and retreating edges |
| `MirPostOrder.PopKeeps` | src/mir/analysis.cpp:108-139 | Finishing a block keeps the depth-first invariants |
| `MirDomTree.Intersect` | src/mir/analysis.cpp:157-163 | Walking two chains towards the entry ends at their lowest common ancestor: every common ancestor is at or above the result |
| `MirDominators.MeetOfPredecessors` | src/mir/analysis.cpp:171-175 | The candidate is the meet of all predecessors that already have a dominator |
| `MirDominators.UpdateKeeps` | src/mir/analysis.cpp:165-181 | Moving a block below its new candidate keeps every invariant of the sweep, for every block and in the middle of a sweep |
| `MirDominators.UpdateMovesUp` | src/mir/analysis.cpp:176-179 | An update only ever moves a block up its own chain |
| `MirDominators.UpdateFalls` | src/mir/analysis.cpp:165-181 | Every update lowers the sum of reverse post-order numbers of the stored dominators, so the sweeps end |
| `MirDominators.AncestorOnPath` | src/mir/analysis.cpp:141-182 | At the fixpoint a block on the chain of b lies on every path from the entry to b |
| `MirDominators.FixpointIsDominance` | src/mir/analysis.cpp:141-182 | When a whole sweep changes nothing, the chain of b is exactly the set of blocks on every path from the entry to b |
| `MirDominators.ImmediateDominatorIsClosest` | src/mir/analysis.cpp:141-182 | The stored dominator of b strictly dominates b, and every other strict dominator of b dominates it |
| `MirDominators.ComputeDominators` | src/mir/analysis.cpp:141-182 | The iterative sweeps terminate and leave chains that are exactly path dominance on all reachable blocks |
| `MirControlFlow.ControlFlowGraph.constructor` | src/mir/analysis.cpp:10-48 | The analysis object records edges, reachability, order, dominators and frontiers that are all right for the function |
| `MirControlFlow.ControlFlowGraph.Dominates` | src/mir/analysis.cpp:348-361 | For existing blocks: true exactly when every path from the entry to the block passes through the dominator; for a block that normal edges do not reach, only the block itself |
| `MirControlFlow.ControlFlowGraph.ChainsWhenPlaced` | src/mir/analysis.cpp:283-290 | Stored chains and path dominance agree whether or not the function has a valid entry |
| `MirFrontiers.WalkIsFrontier` | src/mir/analysis.cpp:184-250 | The blocks between a predecessor of b and the dominator of b are exactly those that dominate the predecessor and do not strictly dominate b |
| `MirFrontiers.SinglePredecessorJoinsNothing` | src/mir/analysis.cpp:184-250 | A block with one predecessor, other than the entry, is in no frontier through it, so skipping it loses nothing |
| `MirFrontiers.WalkUp` | src/mir/analysis.cpp:184-250 | The guarded walk towards the stop block adds exactly the blocks below it; the guard never cuts it short |
| `MirFrontiers.ComputeDominanceFrontiers` | src/mir/analysis.cpp:184-250 | b is in the frontier of x exactly when b is not the entry, x dominates a reachable predecessor of b, and x does not strictly dominate b |
| `MirFrontiers.EntryExceptionMatters` | src/mir/analysis.cpp:184-250 | Leaving out the entry differs from the textbook definition exactly when some reachable block jumps back to the entry |
| `MirPrune.PruneCarries` | src/mir/analysis.cpp:292-346 | Pruning keeps exactly the edges among survivors, renamed, in both directions |
| `MirPrune.PathForward` | src/mir/analysis.cpp:292-346 | Every path of the function is a path of the pruned one under the new names |
| `MirPrune.PathBack` | src/mir/analysis.cpp:292-346 | Every path of the pruned function comes from a path of the original |
| `MirPrune.NeverDangling` | src/mir/analysis.cpp:292-346 | On a well-formed function no survivor mentions a removed block, so the dangling case never arises |
| `MirPrune.AllReachableAfter` | src/mir/analysis.cpp:292-346 | Every block that is kept is reachable in the pruned function |
| `MirPrune.PruneTwice` | src/mir/analysis.cpp:292-346 | Pruning a pruned function gives the same function |
| `MirPrune.KeepIsReachable` | src/mir/analysis.cpp:70-106 | The set handed to pruning is exactly the blocks reachable along edges of both kinds |
| `MirPrune.Renumber` | src/mir/analysis.cpp:292-346 | Survivors keep their order and are numbered 1, 2, 3 and so on without gaps |
| `MirPrune.PrunedKeepsCode` | src/mir/analysis.cpp:292-346 | The blocks of the pruned function are exactly copies of the reachable ones under their new names: same instructions, same kind of terminator, targets and handlers renamed in order |
| `MirPrune.CodeCarries` | src/mir/analysis.cpp:292-346 | Along every path the instructions in order are those along the renamed path of the pruned function |
| `MirPrune.MutableFunction.PruneUnreachableBlocks` | src/mir/analysis.cpp:292-346 | A well-formed function becomes its pruned form, whose blocks keep their code; any other becomes that or stays untouched; the count of removed blocks is returned |
| `OwnershipIr.RunTransfer` | src/compiler/ir.cpp:77-207 | The in-place run of a block is the composition of its instruction steps, stopping at the first rejection |
| `OwnershipIr.JoinStates` | src/compiler/ir.cpp:25-59 | The loop computes the pairwise join of all incoming states |
| `OwnershipIr.JoinGood` | src/compiler/ir.cpp:25-59 | With unique definitions a borrow has one source, so a join never makes the conflicting owner 0, and the live set stays the domain of the ownership map |
| `OwnershipIr.JoinGreatest` | src/compiler/ir.cpp:25-59 | The join is the greatest state below both inputs |
| `OwnershipIr.StepGood` | src/compiler/ir.cpp:77-207 | Every instruction keeps the well-formedness of states |
| `OwnershipIr.TransferOrdered` | src/compiler/ir.cpp:77-207 | A block maps a lower state to a lower state |
| `OwnershipIr.TransferAccepts` | src/compiler/ir.cpp:77-207 | A block that accepts a state accepts every higher one |
| `OwnershipVerify.UpdateKeeps` | src/compiler/ir.cpp:253-283 | Storing a new output and queueing the successors keeps the worklist invariant |
| `OwnershipVerify.TotalFalls` | src/compiler/ir.cpp:253-283 | Every stored output lowers a total weight, so the worklist ends |
| `OwnershipVerify.InputFresh` | src/compiler/ir.cpp:253-283 | No block is entered with one of its own definitions already live, so the redefinition check never fires in the analysis |
| `OwnershipVerify.SolutionAccepts` | src/compiler/ir.cpp:253-283 | Any solution of the flow equations bounds the analysis, which therefore never rejects while one exists |
| `OwnershipVerify.AnalyzeFlow` | src/compiler/ir.cpp:253-283 | The worklist terminates; acceptance yields a solution of the flow equations, and rejection means that there is none |
| `OwnershipSound.BlockSound` | src/compiler/ir.cpp:77-207 | A state that approximates a machine makes the block safe on it and approximates it afterwards |
| `OwnershipSound.WalkSound` | src/compiler/ir.cpp:211-287 | Under a solution every block along a path is safe and the stored state approximates the replay |
| `OwnershipSound.AcceptedIsSafe` | src/compiler/ir.cpp:211-287 | On every path of an accepted function that does not return to the first block: no use of a local that is not live or moved, no move of an owner while a borrow of it is active, no returned borrow, every call argument computed |
| `OwnershipSound.AcceptedIsSafeOnAllPaths` | src/compiler/ir.cpp:211-287 | The same on every path when nothing jumps back to the first block, which a caller can see from the successor lists |
| `OwnershipSound.CheckDefinitions` | src/compiler/ir.cpp:236-251 | Accepts exactly when every definition id is defined once |
| `OwnershipSound.LinkBlocks` | src/compiler/ir.cpp:224-234 | Succeeds exactly when all successors exist, and then lists predecessors and successors by position |
| `OwnershipSound.SolutionAnyOrder` | src/compiler/ir.cpp:253-283 | Whether the flow equations have a solution does not depend on the order of predecessor lists |
| `OwnershipSound.VerifyFunction` | src/compiler/ir.cpp:211-287 | Accepts exactly the well-formed functions whose flow equations have a solution; OwnershipComplete.AcceptedExactly tells by walks when they have one |
| `OwnershipSound.Verify` | src/compiler/ir.cpp:211-287 | A module is accepted exactly when all its functions are |
| `OwnershipSound.ReentryIsNotCovered` | src/compiler/ir.cpp:258-262 | A concrete accepted function with a path back through its first block that moves a borrowed owner: the restriction on paths is needed |
| `OwnershipReentry.PathSound` | src/compiler/ir.cpp:253-283 | On every path, the first block included any number of times, the stored state approximates the replay that forgets the loans open on entering the first block |
| `OwnershipReentry.OnlyOldLoansFault` | src/compiler/ir.cpp:253-283 | On every path of an accepted function an instruction faults exactly when it moves an owner with an open loan, and never one whose loan was opened since the first block was last entered |
| `OwnershipReentry.SafeWhenLoansEnded` | src/compiler/ir.cpp:253-283 | A path that comes back to the first block only with no loan open is safe |
| `OwnershipCarried.SafeUnlessCarried` | src/compiler/ir.cpp:211-287 | An accepted function is safe on all paths if and only if no path of its graph borrows an owner, enters the first block again and moves the owner, with nothing in between that ends the loan |
| `OwnershipCarried.OpenedBy` | src/compiler/ir.cpp:129-166 | A loan that is open after a trace was opened by an instruction of it and not ended since |
| `OwnershipCarried.LeftOpen` | src/compiler/ir.cpp:129-166 | A loan that nothing ends is open when the trace has run |
| `OwnershipExact.StepExact` | src/compiler/ir.cpp:77-207 | Where a state describes a set of replay machines exactly (live locals and their kinds, computed values, moved locals, open loans) and no instruction is at fault on any of them, the step accepts and the new state describes the new machines exactly |
| `OwnershipExact.TransferExact` | src/compiler/ir.cpp:77-207 | The same for a whole block that defines everything anew: a block without fault on every machine is accepted, with the exact state after it |
| `OwnershipExact.JoinExact` | src/compiler/ir.cpp:25-59 | The join of two states describes the machines of both exactly |
| `OwnershipComplete.AcceptedExactly` | src/compiler/ir.cpp:211-287 | The verifier accepts a function if and only if it is well formed and no instruction is at fault on any walk from the entries of the analysis; a rejection is always witnessed by one walk |
| `OwnershipComplete.SpentIsMoved` | src/compiler/ir.cpp:81-128 | Where nothing that was moved is defined again without a drop between, the faults of a walk are exactly the unsafe instructions of the replay |
| `OwnershipComplete.SafeLoopIsRejected` | src/compiler/ir.cpp:81-128 | A concrete loop that is safe on every walk and rejected: it defines and moves a local in each turn, and a local defined again still counts as moved |
| `CodeShape.FoldIsEvaluation` | src/compiler/compiler.cpp:800-948 | A folded literal operation, bit operations and shifts with their guard included, always evaluates to the folded constant, raises nothing and changes nothing |
| `CodeShape.FoldsExactly` | src/compiler/compiler.cpp:800-948 | Which literal operations fold: those on two integers whose result exists, powers excepted, equality of two booleans, and logic on two booleans; nothing else |
| `ExprSimulation.ExprSim` | src/compiler/compiler.cpp:677-796 | The code of an expression, wherever it stands, pushes exactly its value on an unchanged stack or raises exactly its error, with variables and log as evaluation leaves them |
| `ExprSimulation.AndSim` | src/compiler/compiler.cpp:992-1007 | Short-circuit and: the right operand is skipped when the left is falsy, and the result is a boolean |
| `ExprSimulation.OrSim` | src/compiler/compiler.cpp:1008-1025 | Short-circuit or, with the inverted test |
| `StmtSimulation.StmtSim` | src/compiler/compiler.cpp:352-590 | The code of a statement reaches the state its execution describes, for normal end, break, continue, return, raise, and for any bound on iterations; the stack is unchanged and only the hidden variables of its own loops are touched |
| `StmtSimulation.ArmsSim` | src/compiler/compiler.cpp:439-458 | The first branch whose condition is truthy runs and control lands after the whole if |
| `StmtSimulation.WhileSim` | src/compiler/compiler.cpp:518-537 | A while loop runs as in the source; continue lands on the condition, break after the loop |
| `StmtSimulation.RepeatSim` | src/compiler/compiler.cpp:540-563 | A repeat loop runs its body first; continue lands on the condition |
| `StmtSimulation.ForLoopSim` | src/compiler/compiler.cpp:477-515 | A for loop keeps its own end and step out of reach of nested loops, tests, runs and advances as in the source; continue lands on the increment |
| `StmtSimulation.ForSetupSim` | src/compiler/compiler.cpp:477-487 | Start, end and step are computed once in that order, with the loop variable bound before end is computed |
| `Backpatch.PatchFills` | src/compiler/compiler.cpp:69-71 | Overwriting the recorded holes of a fragment gives exactly the fragment with those jumps resolved and changes nothing else |
| `Backpatch.LoopHoles` | src/compiler/compiler.cpp:477-563 | A finished loop leaves no open break or continue |
| `Backpatch.ShapeHasNoJoin` | src/compiler/compiler.cpp:439-458 | A finished statement leaves no open jump to the end of an if |
| `BytecodeCompiler.Compiler.PatchJump` | src/compiler/compiler.cpp:69-71 | Only the given jump changes, and it points to the next instruction |
| `BytecodeCompiler.Compiler.PatchAll` | src/compiler/compiler.cpp:511-514 | Exactly the listed addresses become jumps to the target |
| `BytecodeCompiler.Compiler.CompileExpression` | src/compiler/compiler.cpp:677-796 | The code of the expression is appended and nothing emitted before is altered |
| `BytecodeCompiler.Compiler.CompileBinary` | src/compiler/compiler.cpp:952-1050 | Folding, both short-circuit forms and eager operators append the code of the expression |
| `BytecodeCompiler.Compiler.CompileStatement` | src/compiler/compiler.cpp:352-590 | Fails exactly when a break or continue stands outside every loop; otherwise appends the code of the statement and records its open jumps with the innermost loop |
| `BytecodeCompiler.Compiler.CompileIf` | src/compiler/compiler.cpp:439-458 | The arms are appended, every open jump to the end is patched, and open breaks stay recorded |
| `BytecodeCompiler.Compiler.CompileFor` | src/compiler/compiler.cpp:477-515 | As for every statement, with one hidden loop number used up |
| `BytecodeCompiler.Compiler.CompileWhile` | src/compiler/compiler.cpp:518-537 | As for every statement |
| `BytecodeCompiler.Compiler.CompileRepeat` | src/compiler/compiler.cpp:540-563 | As for every statement |
| `FunctionCompile.NeverFallsThrough` | src/compiler/compiler.cpp:37-60 | A body judged unable to fall through never ends normally |
| `FunctionCompile.NothingEscapes` | src/compiler/compiler.cpp:565-590 | A statement that compiles outside a loop never ends by break or continue |
| `FunctionCompile.CompileFunction` | src/compiler/compiler.cpp:292-305 | The body is followed by the implicit return of nil exactly where it can fall through, and stands in the code as the theorems about calls need it |
| `FunctionCompile.FunctionSim` | src/compiler/compiler.cpp:292-305 | A call of the compiled function reaches the result of the source, or still runs after as many steps as the source had iterations |
| `FunctionCompile.CompilationCorrect` | src/compiler/compiler.cpp:292-305 | The machine halts in a state exactly when the source gives that result: same value, error, variables and log, never stuck, and both run forever together |
| `BytecodeVm.HaltsOnce` | src/vm/vm.cpp:680-808 | The machine has at most one halted result for one start |
| `LanguageLaws.ForCounts` | src/vm/vm.cpp:557-575 | A counted loop from a to b by steps of s, whose body ends normally and leaves the loop variable alone, runs exactly for the values a + k*s below b (above b for negative s), in order, and ends normally |
| `LanguageLaws.CountedValues` | src/vm/vm.cpp:557-575 | The number of turns is the number of k with a + k*s short of b |
| `LanguageLaws.ForLogs` | src/vm/vm.cpp:557-575 | A loop that logs its variable logs exactly those values in order |
| `LanguageLaws.ForRaises` | src/vm/vm.cpp:557-575 | A step of zero, or a bound, step or variable that is no integer, raises before the body runs |
| `LanguageLaws.ForOverflows` | src/compiler/compiler.cpp:477-515 | A loop whose variable would leave the 64-bit range raises after the turn in which it does |
| `LanguageLaws.OrderLaw` | src/vm/vm.cpp:505-525 | The comparisons told by addition: the left operand is less exactly when a positive difference leads from it to the right one |
| `LanguageLaws.FalseValues` | src/vm/value.cpp:313-330 | Nil, false and zero are false, everything else is true |
| `LanguageLaws.ExactArithmetic` | src/vm/vm.cpp:395-443 | Sums, differences and products are the mathematical ones where they fit and raise otherwise |
| `LanguageLaws.EqualityLaw` | src/vm/vm.cpp:505-509 | Equality of values of any kinds |
| `LanguageLaws.OnlyIntegers` | src/vm/vm.cpp:505-514 | Every other operator raises on anything but integers |
| `LanguageLaws.DivisionLaw` | src/vm/vm.cpp:444-453 | Quotient and remainder fit together, the remainder is smaller than the divisor with the sign of the dividend; zero divisors and the one quotient that does not fit raise |
| `LanguageLaws.PowerLaw` | src/compiler/native_compiler.cpp:909-922 | Powers by multiplication: exponent zero gives one, one more exponent multiplies once more, negative exponents raise |
| `LanguageLaws.BitLaw` | src/vm/vm.cpp:475-503 | Every bit of and, or, exclusive or and complement is told by the bits of the operands |
| `LanguageLaws.ShiftLaw` | src/vm/vm.cpp:475-503 | Shifts multiply modulo 2^64, divide rounding down, or divide the unsigned pattern; counts outside 0 to 63 raise |
| `LanguageLaws.NegationLaw` | src/vm/vm.cpp:538-555 | Logical negation is true exactly on nil, false and zero; negation is subtraction from zero |
| `Bits.ShiftRightDivides` | src/vm/vm.cpp:475-503 | Shifting the unsigned pattern down and filling with the sign is division by a power of two that rounds down |
| `Bits.BitByBit` | src/vm/vm.cpp:475-503 | Bit k of the and, or and exclusive or of two 64-bit integers is that of their bits k |
| `Bits.BitsDetermine` | src/vm/vm.cpp:475-503 | Integers with the same 64 bits are equal |
| `Int64.CheckedAdd` | src/compiler/ir_optimizer.cpp:38-43 | Succeeds exactly when the mathematical sum fits 64 bits, and is then that sum |
| `Int64.CheckedSub` | src/compiler/ir_optimizer.cpp:44-49 | Succeeds exactly when the mathematical difference fits, and is then that difference |
| `Int64.CheckedMul` | src/compiler/ir_optimizer.cpp:50-62 | Succeeds exactly when the mathematical product fits, and is then that product |
| `Int64.MulGuardExact` | src/compiler/ir_optimizer.cpp:50-62 | The comparisons before the multiplication fire exactly when the product leaves the range |
| `Int64.TruncDiv` | src/compiler/ir_optimizer.cpp:50-62 | The C++ quotient: largest magnitude whose product with the divisor does not exceed the dividend, with the sign of truncation |
| `IntPower.SquareOverflow` | src/compiler/ir_optimizer.cpp:117-152 | No square is 2^63: a square that leaves the range leaves it by more than one |
| `IntPower.SquaringLoop` | src/compiler/ir_optimizer.cpp:117-152 | Squaring with checked products gives the power exactly when the power fits; skipping the last squaring is what lets -2^63 through |
| `IntPower.FoldPower` | src/compiler/ir_optimizer.cpp:117-152 | The folder gives the power exactly when it fits, also on its shortcut for large exponents |
| `IntPower.RuntimePower` | src/compiler/native_compiler.cpp:909-922 | The run-time helper raises on negative exponents and otherwise agrees with the folder |
| `LegacyCfg.RefinesBySteps` | src/compiler/ir_optimizer.cpp:737-852 | If every step of the new program is one or more steps of the old one, the new program refines the old |
| `LegacyCfg.SameBehaviour` | src/compiler/ir_optimizer.cpp:737-852 | Refinement keeps behaviour both ways: the same work in the same order and the same final state, for every way of choosing branches |
| `LegacyPhases.CollapseRefines` | src/compiler/ir_optimizer.cpp:737-749 | Replacing branches with two equal targets by jumps keeps every run |
| `LegacyPhases.HopsRun` | src/compiler/ir_optimizer.cpp:755-791 | Following blocks that only jump does no work |
| `LegacyPhases.ThreadRefines` | src/compiler/ir_optimizer.cpp:755-791 | Redirecting successors along blocks that only jump keeps every run, cycles and missing targets included |
| `LegacyPhases.MergeRefines` | src/compiler/ir_optimizer.cpp:799-826 | Merging a block into its only predecessor keeps every run |
| `LegacyPhases.TrimRefines` | src/compiler/ir_optimizer.cpp:830-852 | Dropping blocks outside a closed set that holds the entry keeps every run |
| `LegacyOptimizer.LegacyFunction.CollapseBranches` | src/compiler/ir_optimizer.cpp:737-749 | The function is rewritten in place, refines the old one, and no collapsible branch is left |
| `LegacyOptimizer.LegacyFunction.FollowJumps` | src/compiler/ir_optimizer.cpp:766-776 | The forwarding target is reached through jumps alone; the walk ends on cycles, and where the jumps end at a block with work of its own it is that block |
| `LegacyOptimizer.LegacyFunction.ComputeForwarding` | src/compiler/ir_optimizer.cpp:756-777 | Every entry forwards a block other than the first along jumps to an existing block; every block but the first from which jumps alone lead to a block with work of its own is forwarded there |
| `LegacyOptimizer.LegacyFunction.ThreadJumps` | src/compiler/ir_optimizer.cpp:755-791 | Up to sixteen rounds of threading refine the old function; afterwards no successor but the entry leads by jumps alone to a block with work of its own, whatever the bound on rounds |
| `LegacyOptimizer.LegacyFunction.MergeOnce` | src/compiler/ir_optimizer.cpp:800-826 | One merge refines the old function and removes one block, or nothing changes; nothing changes only if no block can be merged into its only predecessor |
| `LegacyOptimizer.LegacyFunction.MergeLinear` | src/compiler/ir_optimizer.cpp:793-827 | Merging refines the old function; afterwards no two blocks can be merged, unless all sixteen rounds merged one |
| `LegacyOptimizer.NothingLeft` | src/compiler/ir_optimizer.cpp:755-791 | One round of threading leaves nothing to forward, because jumps of the threaded function are sequences of jumps of the old one |
| `LegacyOptimizer.LegacyFunction.ComputeReachable` | src/compiler/ir_optimizer.cpp:830-841 | The work list collects exactly the ids reachable through successor lists |
| `LegacyOptimizer.LegacyFunction.TrimUnreachable` | src/compiler/ir_optimizer.cpp:830-852 | Exactly the reachable blocks are kept, and all of them are reachable afterwards |
| `LegacyOptimizer.LegacyFunction.OptimizeControlFlow` | src/compiler/ir_optimizer.cpp:737-852 | All phases together: every run does the same work and ends the same way or not at all, for every way of choosing branches |
| `MirConstants.ImpliedMore` | src/mir/dataflow.cpp:366-415 | Knowing more constants never takes an implied constant back |
| `MirConstants.KnownIsRight` | src/mir/dataflow.cpp:366-445 | A table whose entries are implied by the table is right at every point of every run of the function, in every world, through joins, back edges and exceptions, as long as the instructions behind its temporaries fold truly |
| `MirConstants.WrongOtherwise` | src/mir/dataflow.cpp:358-364 | That condition is exact: executing an instruction behind a known temporary that does not fold truly makes the table wrong at once |
| `MirFolding.FoldExact` | src/mir/folding.cpp:157-373 | For every operation that folds: the folded constant stands for what the operation computes at run time exactly if the constants meet a stated condition, which fails only for comparisons of integers that become other doubles |
| `MirFolding.FoldIsExecution` | src/mir/folding.cpp:157-373 | An instruction that folds only produces a value, in every state; the folded constant stands for it under exactly that condition |
| `MirFolding.FoldsComparisonWrongly` | src/mir/folding.cpp:348-368 | The comparison of 2^53 with its successor is true at run time and is folded to false |
| `MirFolding.WidenedDividesDifferently` | src/mir/folding.cpp:327-329 | A widened integer stays an integer at run time and folds to a double, and the two divide differently |
| `MirOperations.MayThrowExactly` | src/mir/effects.cpp:286-411 | A computation without operands of type double is judged able to raise exactly if some operands of the declared types make it raise, or it is -1 - x, x % -1, a power with exponent 0 or 1, or a range test with a constant step other than 0, which never raise |
| `MirOperations.LiteralsFold` | src/mir/folding.cpp:157-371 | Which constants fold: an operation folds exactly if it computes a value on constants of one kind or compares numbers, with tests of types never folding, logic only on truth values and widening only on integers |
| `MirOperations.SameAsMachine` | src/vm/vm.cpp:475-525 | On nil, booleans and integers an operation of the MIR computes what the operator of the language does, and raises where that raises |
| `MirOperations.DoubleArithmetic` | src/vm/vm.cpp:458-466 | On doubles sums, differences and quotients are undone by the inverse operation, or leave the range; zero divisors raise |
| `MirOperations.DoubleRemainder` | src/vm/vm.cpp:467-469 | The remainder of doubles is smaller than the divisor, has the sign of the dividend and is off by a whole multiple of the divisor |
| `MirOperations.DoubleOrder` | src/vm/value.cpp:391-402 | Comparisons of numbers of both kinds told by what has to be added to the one to get the other |
| `MirOperations.RangeLaw` | src/vm/vm.cpp:557-575 | The test of a counted loop on numbers of both kinds |
| `MirOperations.SameAsMachineOnOne` | src/vm/vm.cpp:538-555 | The same for operators with one operand |
| `MirOperations.TextIsSafe` | src/mir/effects.cpp:318-346 | Joining text is never judged able to raise, whatever stands on the other side |
| `MirOperations.TextLaw` | src/mir/effects.cpp:318-346 | Joining text with any value appends what the value prints |
| `MirOperations.IntegerPrints` | src/mir/effects.cpp:318-346 | Integers print in decimal digits that read back as the number |
| `MirOperations.FalseLaw` | src/vm/value.cpp:313-330 | What counts as false |
| `MirOperations.TestLaw` | src/mir/effects.cpp:93-101 | What the tests of types and of nil answer; a value has the type it is given |
| `MirOperations.LogicLaw` | src/vm/vm.cpp:527-536 | And, or and equality on values of all kinds |
| `MirRunLaws.EdgeBinds` | include/zl/mir/function.hpp:72-88 | Following an edge binds every parameter to the argument in its place, all read before any is bound, and changes nothing else |
| `MirRunLaws.HandlerTakes` | src/mir/vm_backend.cpp:1608-1620 | An error goes to the first handler that admits it, with the state at the raise and the error in its local, and otherwise ends the run |
| `MirRunLaws.SwitchTakes` | include/zl/mir/instruction.hpp:590-605 | A switch takes the first case equal to its subject, else the default |
| `MirRunLaws.StoreThenLoad` | src/mir/effects.cpp:102-107 | A load after a store gives what was stored if it is of that local and otherwise what was there, and nothing else changes |
| `MirRunLaws.ComputesOrRaises` | src/mir/effects.cpp:46-105 | An operation that computes puts its value under its result, or raises and leaves everything as it was |
| `MirRunLaws.EffectsStay` | src/mir/effects.cpp:130-140 | An effectful operation sees its operands, its local and the memory, and its effects stay even if it raises |
| `MirRunLaws.LeaveLaw` | include/zl/mir/instruction.hpp:590-605 | How each terminator leaves its block |
| `MirRunLaws.StepLaw` | src/mir/vm_backend.cpp:1608-1620 | A step that raises goes to the handlers of its own block, any other to the next instruction |
| `MirEdgeCopies.EmitEdgeArguments` | src/mir/vm_backend.cpp:1528-1544 | The bytecode backend stores the arguments of an edge one after the other, in their order |
| `MirEdgeCopies.EmitEdgeCopies` | src/native/select.cpp:422-455 | The native backend copies in turn too, and refuses an edge exactly if an argument reads a parameter written by an earlier copy |
| `MirEdgeCopies.InTurnExactly` | src/mir/vm_backend.cpp:1520-1544 | Storing in turn binds the parameters as the edge means, for all values, if and only if no argument reads an earlier parameter, except one that is passed to itself |
| `MirEdgeCopies.NativeIsRight` | src/native/select.cpp:415-455 | What the native backend accepts is right in every state; it refuses more than needed exactly where an argument reads a parameter that is passed to itself |
| `MirEdgeCopies.JumpExactly` | src/mir/vm_backend.cpp:1561-1566 | The bytecode of a jump does what the jump means in every state if and only if its arguments are in that order |
| `MirEdgeCopies.BranchExactly` | src/mir/vm_backend.cpp:1567-1587 | The bytecode of a branch on a computed value does what the branch means in every state if and only if both edges pass every parameter to itself |
| `MirEdgeCopies.SwapIsLost` | src/mir/vm_backend.cpp:1540-1543 | A concrete loop whose edge back exchanges two parameters: in bytecode both become the second |
| `MirEdgeCopies.OldValueIsLost` | src/mir/vm_backend.cpp:1581-1585 | A concrete loop that leaves with a parameter: in bytecode the branch out finds it overwritten for the edge back |
| `MirTypeSafety.LoopsAreChecked` | src/mir/safety.cpp:163-205 | A concrete loop with its counter in a block parameter passes the checks that the theorems about runs ask for |
| `Doubles.RoundKeepsOrder` | src/mir/folding.cpp:348-368 | Turning integers into the nearest doubles keeps their order |
| `Doubles.RoundSmall` | src/mir/folding.cpp:348-368 | Up to 2^53 in size integers are doubles themselves |
| `Doubles.RoundNearest` | src/mir/folding.cpp:327-329 | No double is nearer to the integer than the one it becomes, and of two that are equally near the even one is taken |
| `Doubles.RoundIsDouble` | src/mir/folding.cpp:327-329 | What an integer becomes has at most 53 significant bits |
| `MirConstantAnalysis.AgreedArgument` | src/mir/dataflow.cpp:372-396 | Gives the constant that every edge into the block passes at the position, and nothing exactly when there is none |
| `MirConstantAnalysis.Evaluate` | src/mir/dataflow.cpp:366-415 | Gives exactly the constant that the definition implies from the current table, folding with the shared evaluator |
| `MirConstantAnalysis.QuietIsClosed` | src/mir/dataflow.cpp:417-445 | A table at which a whole round finds nothing is closed under implication |
| `MirConstantAnalysis.ConstantAnalysis.Round` | src/mir/dataflow.cpp:433-444 | A round that reports a change has learned a value; one that does not has nothing left to learn |
| `MirConstantAnalysis.ConstantAnalysis.Rounds` | src/mir/dataflow.cpp:417-445 | The guard on rounds never cuts the fixpoint short; the result is the least table closed under implication |
| `MirConstantAnalysis.ConstantAnalysis.constructor` | src/mir/dataflow.cpp:326-329 | The reported table is justified, closed and least |
| `MirEffects.NeverRaises` | src/mir/effects.cpp:286-386 | An operation judged unable to raise succeeds on all operand values of the declared types, integers, doubles and text |
| `MirEffects.PlainlyPure` | src/mir/effects.cpp:65-101 | The operations that are removable without a further test (bit operations, logic, widening, type tests, null tests) always succeed on well-typed operands |
| `MirEffects.RightRuleExact` | src/mir/effects.cpp:318-370 | For every rule about a constant right operand, over all its opcodes: the operation succeeds exactly when the other operand is one it takes, so the rules rest on the operand types |
| `MirEffects.LeftRuleExact` | src/mir/effects.cpp:318-346 | The same for the rules about a constant left operand |
| `MirEffects.RemovableComputes` | src/mir/effects.cpp:388-411 | A removable instruction that is no load computes a value from every well-typed operand list |
| `MirTypeSafety.ResultFits` | src/mir/effects.cpp:286-411 | What an operation computes has the type that its opcode and operand types promise |
| `MirTypeSafety.RunGood` | src/mir/safety.cpp:163-205 | At every point of every run of a checked function all values have their declared types, every value that is used is there, and every local that is loaded has been set; the run may start with no local set |
| `MirTypeSafety.LocalsStartUnset` | docs/mir-safety.md:75-78 | A function that sets a local and then loads it passes the checks and starts with no local set |
| `MirDeletion.DroppedStep` | src/mir/effects.cpp:388-411 | Reaching an instruction that is to be deleted leaves nothing behind but a result or a local that nothing reads, and never raises |
| `MirDeletion.KeptStep` | src/mir/effects.cpp:388-411 | Every other step happens alike in the original and in the shortened function, through edges, edge arguments, switches and handlers |
| `MirDeletion.OriginalFollowed` | src/mir/effects.cpp:388-411 | For every point of a run of the original there is a point of the shortened function that agrees on all but what is dead |
| `MirDeletion.ShortenedFollowed` | src/mir/effects.cpp:388-411 | For every point of a run of the shortened function there is a point of the original that agrees on all but what is dead |
| `MirDeletion.DeletionIsSafe` | src/mir/effects.cpp:388-411 | Deleting removable instructions whose results no instruction, terminator or edge argument reads, and stores to locals that nothing reads, keeps every run of a control-flow graph: the same ends with the same captured locals, the same heap and output along the way, and no end on either side when there is none on the other, however often the deleted code is reached |
| `MirDeadValues.StaysChecked` | src/mir/opt_dead.cpp:96-157 | A function that passes the checks on types and definitions still passes them after deletion, so rounds can follow one another |
| `MirDeadValues.UsedTemps` | src/mir/opt_dead.cpp:107-110 | Exactly the temporaries that some operand of an instruction, terminator or edge reads |
| `MirDeadValues.SlotsRead` | src/mir/opt_dead.cpp:132-139 | Exactly the locals that some instruction reads |
| `MirDeadValues.RemoveIf` | src/mir/opt_dead.cpp:113-129 | The instructions that the test does not pick stay, in order; progress is reported exactly when one went |
| `MirDeadValues.QuietIsClean` | src/mir/opt_dead.cpp:106-156 | A round finds nothing exactly when no removable unread result and no removable unread store is left |
| `MirDeadValues.DeadValueElimination.Sweep` | src/mir/opt_dead.cpp:111-130 | Deleting from every block what the test picks gives a function that can take the place of the old one |
| `MirDeadValues.DeadValueElimination.Round` | src/mir/opt_dead.cpp:103-157 | One round keeps every run in every world from every start; it reports progress exactly when something was left to delete, and then the function is smaller |
| `MirDeadValues.DeadValueElimination.Eliminate` | src/mir/opt_dead.cpp:96-165 | The whole pass keeps every run; it ends with nothing left to delete or after 64 rounds, and something is left exactly when the function had a chain of 65 deletable instructions, each read by the next directly or through a local |
| `MirDeadValues.CapturedStoreMatters` | src/mir/opt_dead.cpp:179-189 | Deleting an unread store to a captured local changes what is left after the call, so the exclusion of such functions is needed |
| `MirDeadChains.RoundTakesOne` | src/mir/opt_dead.cpp:100-130 | Of a chain of results, each read only by the next, one round deletes only the last |
| `MirDeadRounds.RoundsDelete` | src/mir/opt_dead.cpp:100-157 | After k rounds the function is the one before the pass without the instructions whose round, told from that function alone, is at most k |
| `MirDeadRounds.CleanIsStable` | src/mir/opt_dead.cpp:100-157 | After k rounds nothing is left to delete exactly if no instruction has k + 1 as its round |
| `MirDeadRounds.CleanWithoutLongChain` | src/mir/opt_dead.cpp:100-103 | For every function and every k: k rounds leave something to delete exactly when the function has a chain of k + 1 deletable instructions, each read by the next directly or through a removable store and a load |
| `MirDeadRounds.DeletableBySize` | src/mir/opt_dead.cpp:100-103 | Whether an instruction is deletable shows within as many rounds as there are instructions |
| `MirDeadChains.BoundStopsThePass` | src/mir/opt_dead.cpp:100-103 | The functions that show it: chains of n results, each read only by the next, are checked, and the pass leaves something exactly when n exceeds 64, against the comment that calls the bound only a guard |
| `TypeNames.NumberDecimal` | src/common/type_name.cpp:60-72 | Reading a printed array size gives the size |
| `TypeNameRoundTrip.SameIsEqual` | src/common/type_name.cpp:176-189 | On canonical type names the comparison is equality |
| `TypeNameRoundTrip.PrimaryBack` | src/common/type_name.cpp:48-92 | A printed type that is no union is read back up to what follows it |
| `TypeNameRoundTrip.UnionBack` | src/common/type_name.cpp:25-46 | A printed canonical type is read back as a union or a single type |
| `TypeNameRoundTrip.RoundTrip` | src/common/type_name.cpp:18-169 | Parsing the print of any canonical type name gives it back |
| `TypeNameRoundTrip.RenderInjective` | src/common/type_name.cpp:127-175 | Two canonical type names that print alike are the same |
| `TypeNameUnions.OrderDoesNotMatter` | src/common/type_name.cpp:25-46 | Reordering or repeating union members parses to the same union |
| `TypeNameUnions.CanonicalWhenTwo` | src/common/type_name.cpp:33-45 | A union is canonical exactly when at least two of its members differ |
| `TypeNameUnions.UnionRoundTrip` | src/common/type_name.cpp:33-45 | Printing a union and parsing it back gives it back exactly when at least two members differ |
| `TypeNameParser.Parser.ReadUnion` | src/common/type_name.cpp:25-46 | The stateful parser agrees with the grammar on unions: same type, same text left, flag cleared exactly on a mistake |
| `TypeNameParser.Parser.ReadPrimary` | src/common/type_name.cpp:48-92 | The same for primaries, sizes, arguments and signatures |
| `TypeNameParser.Parser.ReadAll` | src/common/type_name.cpp:18-23 | The whole text is accepted exactly as the grammar accepts it |
| `TypeNameLaws.NameParses` | src/common/type_name.cpp:55-61 | A name alone parses to itself, float and decimal to double, null to nil, for every string of name characters |
| `TypeNameLaws.ParsedIsAliasFree` | src/common/type_name.cpp:48-98 | No type that parses mentions float, decimal or null at any depth |
| `TypeNameLaws.GroupLaw` | src/common/type_name.cpp:50-54 | A type in parentheses is the type |
| `TypeNameLaws.EmptyAngles` | src/common/type_name.cpp:74-83 | An empty argument list is no argument list |
| `TypeNameLaws.TrailingComma` | src/common/type_name.cpp:84-92 | After the last parameter of a function type a comma may stand |
| `TypeNameLaws.BlanksBefore` | src/common/type_name.cpp:107-109 | Blanks before a type do not matter |
| `TypeNameLaws.ConsumeLaw` | src/common/type_name.cpp:100-105 | Blanks before a punctuation mark do not matter, and only that mark is taken |
| `TypeNameLaws.ArrayLooks` | src/common/type_name.cpp:142-148 | How an array type with a size is printed |
| `TypeNameLaws.Characters` | src/common/type_name.cpp:56-109 | The characters of names and of blanks, listed |
| `TypeNameLaws.ArgumentsLook` | src/common/type_name.cpp:149-167 | How a type with arguments is printed |
| `TypeNameLaws.FunctionLooks` | src/common/type_name.cpp:150-160 | How a function type is printed |
| `TypeNameLaws.UnionLooks` | src/common/type_name.cpp:128-141 | How a union is printed, function members in parentheses |
| `PackageResolver.FreshIdentity` | zlpkg/resolver.cpp:159-171 | A new name always comes with a new identity, so its dependencies are always descended into |
| `PackageResolver.PathEntry` | zlpkg/resolver.cpp:81-91 | A path declaration is good exactly if the directory it names holds a package of its name and version; its entry and the declarations that follow from it |
| `PackageResolver.GitEntry` | zlpkg/resolver.cpp:92-106 | The same for a git declaration and the commit fetched for it |
| `PackageResolver.BadEntries` | zlpkg/resolver.cpp:81-156 | A declaration whose package cannot be found or has no manifest that parses is not good |
| `PackageResolver.NamesGrow` | zlpkg/manifest.cpp:61-70 | Which names are valid, character by character |
| `PackageResolver.ManifestsGrow` | zlpkg/manifest.cpp:72-162 | Which manifests parse, one dependency at a time: valid names, none declared twice, no ref beside a path |
| `PackageResolver.RepeatKeeps` | zlpkg/resolver.cpp:109-126 | A repeated name with the same identity is good exactly when its version pin agrees with the recorded version |
| `PackageResolver.RootsOwnEntry` | zlpkg/resolver.cpp:64-70 | First in, first out: a name the root declares carries the declaration of the root |
| `PackageResolver.ResolveAll` | zlpkg/resolver.cpp:49-176 | Terminates where finitely many packages can be reached; succeeds exactly when every reachable declaration finds a package of its name and version and no name stands for two packages; then names and identities are unique, every reachable declaration meets its entry, every entry is asked for, and root names carry the declarations of the root |
| `PackageLock.RebuildAll` | zlpkg/commands.cpp:108-201 | Rebuilds every entry from the world, failing exactly when some entry is no longer what it was |
| `PackageLock.CheckReached` | zlpkg/commands.cpp:203-226 | Accepts exactly when the names in the lock are the names the verified manifests lead to |
| `PackageLock.TryUseLock` | zlpkg/commands.cpp:69-230 | A lock is used exactly when it is fresh, what is returned is every entry rebuilt, and a lock whose versions moved is rewritten with what was rebuilt |
| `PackageLock.FreshMeansUnchanged` | zlpkg/commands.cpp:69-230 | Where a fresh entry was recorded for a manifest and the two texts do not collide, the package declares now what it declared then: same dependencies in the same order, with kinds, sources, refs and versions |
| `PackageLock.FreshForThisRoot` | zlpkg/commands.cpp:69-230 | The same for the root manifest |
| `Fingerprints.FingerprintsAreFnv` | zlpkg/lockfile.cpp:74-113 | A fingerprint is the hexadecimal FNV-1a hash of the byte text of the manifest, or of its dependencies |
| `Fingerprints.DepsTextDetermines` | zlpkg/lockfile.cpp:85-93 | For fields without the separator byte the text determines every field of every dependency, in order |
| `Fingerprints.ManifestTextDetermines` | zlpkg/lockfile.cpp:101-107 | The same for name, version and dependencies of a manifest |
| `Fingerprints.SeparatorConfuses` | zlpkg/lockfile.cpp:74-81 | With the separator byte inside a field two different declarations have one text |
| `Fingerprints.HexReads` | zlpkg/lockfile.cpp:95-99 | Reading the printed fingerprint gives the hash |
| `Fingerprints.KnownHash` | zlpkg/lockfile.cpp:74-81 | A known hash value of FNV-1a |
| `Fingerprints.EmptyFingerprint` | zlpkg/lockfile.cpp:109-113 | The fingerprint of no dependencies is cbf29ce484222325 |
| `PackageLock.RewrittenIsFresh` | zlpkg/commands.cpp:228-230 | A rewritten lock is fresh and rebuilds to itself |
| `LockReuse.Meets` | zlpkg/resolver.cpp:49-176 | Every reachable declaration meets the locked entry of its name: the same package in the same place |
| `LockReuse.OwnLockIsFresh` | zlpkg/commands.cpp:69-230 | A lock written from a resolution is fresh and every entry rebuilds to itself, field by field and in order |
| `LockReuse.EnsureInstalled` | zlpkg/commands.cpp:239-255 | A fresh lock is reused unless an update is asked for, and rewritten exactly when versions moved; otherwise the graph is resolved and a lock written |
| `LockReuse.InstallTwice` | zlpkg/commands.cpp:239-255 | Installing again in an unchanged world gives the same list |
| `LockText.QuoteString` | zlpkg/lockfile.cpp:23-43 | The loop computes the quoted form |
| `LockText.UnescapeString` | zlpkg/lockfile.cpp:46-72 | The loop undoes escapes two characters at a time, keeping unknown escapes and a lone backslash |
| `LockText.UnquoteQuote` | zlpkg/lockfile.cpp:23-72 | Every string survives quoting, with its quotes, backslashes, tabs and line breaks |
| `LockText.LinesJoin` | zlpkg/lockfile.cpp:147-149 | Splitting joined lines gives the lines back |
| `LockFormat.WriteLockFile` | zlpkg/lockfile.cpp:115-137 | The text is the header, the meta section and one section per entry, line by line |
| `LockFormat.ReadEntry` | zlpkg/lockfile.cpp:149-206 | Reading the lines of an entry appends exactly that entry |
| `LockFormat.ReadLockFile` | zlpkg/lockfile.cpp:139-209 | Reads line by line and stops at the first bad line |
| `LockFormat.RoundTrip` | zlpkg/lockfile.cpp:115-211 | Reading back what was written gives the same fingerprint and entries, for valid package names and arbitrary field strings |
| `LockFormat.WriteThenRead` | zlpkg/lockfile.cpp:115-211 | Writing a lock and reading the text gives the lock |
| `LockLaws.EntryLooks` | zlpkg/lockfile.cpp:127-136 | The lines of an entry, character by character: section, kind, source, ref, version, fingerprint, the declared ref only if there is one, directory |
| `LockLaws.MetaLooks` | zlpkg/lockfile.cpp:123-125 | The lines of the first section |
| `LockLaws.EscapesLook` | zlpkg/lockfile.cpp:23-44 | How quotes, backslashes, tabs and line breaks are written, wherever they stand |
| `LockLaws.HandWritten` | zlpkg/lockfile.cpp:149-207 | A hand-written line key = "body", with any blanks around its parts, is read as that key with the body's escapes taken away |
| `LockLaws.EscapesMean` | zlpkg/lockfile.cpp:46-72 | What each escape stands for, unknown ones and a lone backslash included |
| `LockLaws.FieldsMean` | zlpkg/lockfile.cpp:194-207 | Inside an entry each key sets its own field, the last line wins, and other keys are skipped |
| `LockLaws.MetaMeans` | zlpkg/lockfile.cpp:180-197 | The format version must be 1; a field before every section is an error |
| `LockLaws.SectionsMean` | zlpkg/lockfile.cpp:154-171 | Section lines with blanks around them, and unknown sections as errors |
| `LockLaws.SkippedLines` | zlpkg/lockfile.cpp:149-152 | Blank lines and comments, with any blanks in front, change nothing |
| `LockLaws.BadLines` | zlpkg/lockfile.cpp:173-178 | A line without '=' or without a quoted value stops the reading |
| `LockEndToEnd.NamesAreValid` | zlpkg/resolver.cpp:49-176 | Every entry of a resolution has a name that the lock format can carry |
| `LockEndToEnd.InstallThroughText` | zlpkg/commands.cpp:239-255 | Resolve, write the lock as text, read the text and install again: in an unchanged world the text is read, the lock accepted, nothing resolved, and the list is the same |
| `ModuleLoading.LayeredHasNoCycle` | src/compiler/module_loader.cpp:143-184 | Modules that import only modules finished earlier are on no cycle |
| `ModuleLoading.ModuleLoader.LoadInto` | src/compiler/module_loader.cpp:143-184 | A loaded module has all its imports finished, and what was merged is its import tree in pre-order, each module where it first occurs; a failure always has a reason |
| `ModuleLoading.ModuleLoader.ClosesCycle` | src/compiler/module_loader.cpp:168-171 | Importing a module that is still being loaded witnesses a real import cycle through it |
| `ModuleLoading.ModuleLoader.Begin` | src/compiler/module_graph.cpp:9-16 | The module is marked resolved and loading |
| `ModuleLoading.ModuleLoader.End` | src/compiler/module_graph.cpp:22-24 | The loading mark is removed once everything the module imports is finished |
| `ModuleLoading.ModuleLoader.Load` | src/compiler/module_loader.cpp:208-236 | Succeeds exactly when every reachable module exists and none is on a cycle; then every reachable module is merged exactly once, in the pre-order of the import lists |
| `ModuleLoading.AddsLast` | src/compiler/module_loader.cpp:143-184 | In the order of first occurrences a module is added at the end exactly if it has not occurred |
| `DispatchTables.AssignSlots` | src/compiler/dispatch_table.cpp:73-78 | The distinct signatures of methods get distinct slots below their number |
| `DispatchTables.SlotsAreDense` | src/compiler/dispatch_table.cpp:73-80 | Every number below the count is the slot of some signature |
| `DispatchTables.EnterClass` | src/compiler/dispatch_table.cpp:90-99 | The methods of a class overwrite what its ancestors put in the table |
| `DispatchTables.BuildForClass` | src/compiler/dispatch_table.cpp:81-101 | Every slot of a class table holds what walking up its ancestors finds first, or nothing |
| `DispatchTables.BuildDispatchTables` | src/compiler/dispatch_table.cpp:67-114 | Every class has a table, and every slot of it is right |
| `DispatchTables.RegisterFunctions` | src/compiler/compiler.cpp:141-164 | The index holds, for each class and signature, the last function registered under them, static or not |
| `DispatchTables.ResolveFunctionIndex` | src/compiler/compiler.cpp:86-99 | The loop finds the nearest registration on the chain of ancestors |
| `DispatchTables.WalksAgree` | src/compiler/compiler.cpp:86-99 | The compiler's walk and the walk behind the tables agree exactly when the nearest registration on the chain is not static, or there is none |
| `DispatchTables.SlotAgrees` | src/compiler/dispatch_table.cpp:81-101 | A slot of a class table equals what the compiler's walk finds exactly under that condition |
| `DispatchTables.StaticHidesMethod` | src/compiler/compiler.cpp:86-99 | With a method in a class and a static function of the same signature below it, the walk gives the static function and the table the method |
| `OverloadResolution.Resolve` | src/compiler/overload_resolver.cpp:6-137 | The verdict is the only exact candidate, else the only maximal applicable one, else ambiguous or no match |
| `OverloadResolution.SameTypesWin` | src/compiler/overload_resolver.cpp:30-58 | With every identity named, a candidate whose parameters have the types and identities of the arguments is chosen if it is the only one, whatever else is in the list, and the call is ambiguous if there are several |
| `OverloadResolution.MissingNameMatches` | src/compiler/overload_resolver.cpp:35-47 | A missing class name on either side matches every name of the same type, and none of another type |
| `OverloadResolution.OnlyOneTakes` | src/compiler/overload_resolver.cpp:60-82 | Without a candidate of the same types the only one that takes the arguments is chosen, and no match is the verdict exactly if none does |
| `OverloadResolution.MostSpecificWins` | src/compiler/overload_resolver.cpp:84-131 | Without a candidate of the same types, one that takes the arguments and is more specific than every other that does is chosen |
| `OverloadResolution.IncomparableIsAmbiguous` | src/compiler/overload_resolver.cpp:84-137 | Where several candidates take the arguments and none is more specific than another, the call is ambiguous |
| `OverloadResolution.ChoiceIsUnique` | src/compiler/overload_resolver.cpp:6-137 | At most one candidate can be chosen |
| `OverloadResolution.ChoiceReordered` | src/compiler/overload_resolver.cpp:6-137 | The same candidate is chosen whatever the order of the candidates |
| `OverloadResolution.OneVerdict` | src/compiler/overload_resolver.cpp:6-137 | The candidates and arguments determine the verdict |
| `OverloadResolution.VerdictReordered` | src/compiler/overload_resolver.cpp:6-137 | Reordering the candidates keeps the whole verdict: ambiguous stays ambiguous, no match stays no match, a choice stays the same candidate |
| `OverloadResolution.BelowMaximal` | src/compiler/overload_resolver.cpp:84-127 | Every applicable candidate is maximal or lies below a maximal one |
| `OverloadResolution.ChosenIsGreatest` | src/compiler/overload_resolver.cpp:84-131 | With assignability a partial order and the object parameters of the applicable candidates named, the candidate chosen after widening is at least as specific as every applicable one in every parameter |
| `OverloadResolution.GreatestExactly` | src/compiler/overload_resolver.cpp:84-131 | Where no candidate dominates itself in a roundabout way, the candidate chosen after widening is at least as specific as every applicable one exactly if it is so in the parameters where a chain of dominations from it passes over a missing class name |
| `OverloadResolution.ChainExact` | src/compiler/overload_resolver.cpp:84-120 | The head of a chain of dominations is at least as specific as its end exactly if it is so where a class name is missing between |
| `OverloadResolution.NamedNeverLoops` | src/compiler/overload_resolver.cpp:84-120 | With all object parameters named no candidate dominates itself in a roundabout way |
| `OverloadResolution.UnnamedParameterBreaksIt` | src/compiler/overload_resolver.cpp:94-120 | A concrete call where an object parameter without a class name makes the chosen candidate not the most specific |

## Left out

- MirControlFlow.ControlFlowGraph.constructor: identifiers of blocks are taken to be distinct, as
  src/mir/verifier.cpp:677-678 demands; vectors indexed through the id table are maps keyed by id, and frontier
  vectors, sorted and without repetitions, are sets. The children lists of the dominator tree and the list of dead
  blocks would only add easy members.
- MirPrune.MutableFunction.PruneUnreachableBlocks: identifiers of blocks are taken to be distinct here too.
- OwnershipSound.AcceptedIsSafe: covers paths that do not return to the first block, because the source always
  restarts that block from the empty state; OwnershipSound.ReentryIsNotCovered shows the claim fails beyond them, and
  OwnershipReentry.OnlyOldLoansFault and OwnershipCarried.SafeUnlessCarried say exactly how. Ids of locals and of
  temporaries are taken to be disjoint, as src/compiler/ir_lowering.cpp:43 numbers them. The arrays that record which
  blocks were entered are written and never read, so they are not modelled. Nothing is claimed about borrows whose
  owner is dropped, which the source forgets.
- OwnershipComplete.AcceptedExactly: ids of locals and temporaries are taken to be disjoint. A fault of a walk is an
  unsafe instruction of the replay, or a definition of a local that was moved and not dropped since, or the source's
  other demands on ids and names; OwnershipComplete.SafeLoopIsRejected shows that safe functions can be rejected for
  the second reason.
- The bytecode model leaves out try, catch, finally and handlers, owned-local cleanup, type assertions, calls, lambdas
  and objects, and values other than nil, booleans and 64-bit integers; constants and names stand in instructions
  directly instead of in pools. A function body is run in one frame, whose variables are one map over the globals it
  does not change. Hidden loop variables are kept apart from user variables, which the reserved prefix of their names
  does in the source. A log is modelled as a statement only.
- BytecodeVm.HaltsOnce: the machine has only the opcodes the fragment needs, and an instruction without operands
  leaves it stuck instead of throwing.
- LegacyOptimizer.LegacyFunction.MergeOnce: a block whose only predecessor is itself is dropped from the list; the
  source inserts its instructions into its own vector first, which C++ leaves undefined. Such a block is never
  reached.
- The value rewriting, dead expression elimination and removal of empty instructions of the legacy optimizer are not
  modelled; its constant propagation neither.
- MirFolding.FoldExact: powers of doubles are not folded in the model, arithmetic on doubles does not round, and the
  declared result type, without which the source does not fold, is taken to be that of the folded constant.
- MirConstants.KnownIsRight: operands hold constants themselves instead of their numbers in the pool, which holds each
  constant once.
- MirTypeSafety.RunGood: a handler is checked against what is there at every operation that can raise at run time, as
  src/mir/effects.cpp:57-84 lists them; src/mir/instruction.cpp:163-186 marks fewer operations as throwing, so
  src/mir/safety.cpp accepts some functions that are not checked here.
- MirEffects.NeverRaises: operands are taken to have their declared types, which MirTypeSafety.RunGood proves of
  checked functions. Doubles are finite real numbers without rounding, an operation whose result leaves their range
  raises, powers of doubles are not modelled and of a double only the whole part is printed.
- MirDeletion.DeletionIsSafe: one opcode stands for all that are never removable (calls, output, allocation, heap
  access, checks, tasks, threads, locks, lifetime events), and the no-op, which has no result, is left out; what that
  opcode does is a parameter that sees its operands, the local it reads, heap and output. Blocks are named by their
  positions.
- MirEdgeCopies.BranchExactly: a branch on a constant, and one whose two edges lead to one block with parameters, are
  left out; of the bytecode only the stores, the test and the jumps are modelled. Handlers are listed in the order in
  which they are searched, while the source lists the outermost try first and keeps them on a stack.
- MirDeadValues.DeadValueElimination.Eliminate: the note with the counts of what was deleted and the invalidation of
  cached analyses are left out.
- CodeShape.FoldIsEvaluation: folds of doubles and of strings are left out.
- BytecodeCompiler.Compiler.CompileExpression: covers literals, variables, assignments, unary and binary operators.
- BytecodeCompiler.Compiler.CompileBinary: operators overloaded by classes are left out.
- BytecodeCompiler.Compiler.CompileStatement: try, throw and the cleanup of handlers are left out.
- TypeNames.NumberDecimal: characters are classified as in the C locale, and sizes are bounded by 64 bits. Any sorting
  algorithm gives the result of the insertion sort used here, because members that print alike are equal. After a
  mistake the parser model returns no type instead of the placeholder named invalid. Substitution of type parameters
  is left out.
- PackageResolver.ResolveAll: file system and git are a fixed world, directories and commits are read as functions,
  and the memo of fetches, which only caches such a function, is left out. Parsing of manifests is represented by what
  every parsed manifest satisfies. Error messages are left out.
- PackageLock.FreshMeansUnchanged: two different texts with one 64-bit hash, and fields that hold the separator byte,
  are outside its claim, as Fingerprints.SeparatorConfuses shows for the second.
- MirOperations.MayThrowExactly: operands of type double are left to MirEffects.NeverRaises and the rules about
  constants.
- PackageLock.TryUseLock: the check that a directory exists is part of reading its manifest. LockReuse states equality
  with the resolver for an unchanged world in which fetched commits stay cached; version pins and path sources of
  indirect dependencies are not rechecked by the source.
- LockFormat.ReadLockFile: the stream is the text; messages with line numbers are left out.
- LockEndToEnd.InstallThroughText: directories are written and read by two functions of which the second undoes the
  first.
- ModuleLoading.ModuleLoader.Load: each dotted name stands for one file; looking files up relative to the importer,
  parsing, the built-in library and clashes of class names are left out. Only finitely many modules may be reachable.
- DispatchTables.BuildDispatchTables: the mapping from parameter types to dispatch types is an input, class
  hierarchies are acyclic (the source does not end on cycles), and with two declarations of one signature in a class
  the later one counts.
- OverloadResolution.Resolve: assignability is a parameter; the message for a wrong number of arguments and the one
  for no match are one verdict.
- Liveness and other backward analyses, the native code generator, machine code encoding, floating point, strings as
  values in the compiler, the type checker, the parser of the language, garbage collection, tasks and threads, and the
  command line.
