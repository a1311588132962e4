# haybale: a verified model

haybale executes LLVM IR symbolically. It follows one path at a time, keeps what it did not
follow as backtrack points, and asks an SMT solver which branches are feasible. This project
models the four parts of it that are hardest to get right and proves what they are for.

**Path exploration** (`IR`, `Concrete`, `VarMapModel`, `Simulation`, `Following`, `Agenda`,
`Progress`, `Engine`, `DeadEnds`). A small IR has a concrete machine (`Concrete.Step`) with private locals for each
activation. `Engine.ExecutionManager` is the engine: it updates the location, variable map, memory,
call stack, path, backtrack points and solver in place, recurses for calls and resumes saved call
stacks after a revert. A symbolic value is a function from solver models to values. The main theorem is the
contract of `Engine.SymexFunction`: calling `Next` until it returns `None` terminates; every model
of the initial constraints whose concrete run returns lies on exactly one of the paths found; on
that path the returned value evaluates to the value of the run; and every other model has a run
that ends in an error. Every error that ends a run is reported, except a violated assumption and the loop
bound hit by the result of a call inside which the run had been overtaken at a branch. If there is a model and no run violates an assumption, every path has a model, every error
other than `Unsat` is the error of some model's run, and exploration is finite exactly when every run halts. It rests on
`Simulation` (each effect of the engine is one step of the machine, under every model), on `Agenda`
(each pending point stands for models whose runs are exactly where the point resumes) and on a measure
over the models left and, on one path, the steps left or the version slots left and a bound on the
moves between two assignments.

**Memory** (`BitVectors`, `Modular`, `FlatMemory`, `CellMemory`, `ByteMemory`, `MemoryEquivalence`, `Alloc`). Both
memories are proved against one circular sequence of 2^67 bits, whatever strategy is chosen, across
cells and across the end of the address space. Every read of every run is therefore the same in both. Objects
placed by the allocator cannot disturb each other.

**Solver queries and what is built on them** (`SolverModel`, `BinaryDigits`, `SolverUtils`, `MemcpyLengths`,
`HookUtils`). Extreme values of any width, bounded enumeration, the choice of a memcpy length, and
the byte loops for symbolic lengths.

**Aggregates and globals** (`Layout`, `Aggregates`, `Globals`). The two offset computations agree, the paths
of nested types denote nested or disjoint bits, `extractvalue` and `insertvalue` obey the laws of
reading and updating, and a load through a GEP gives what `extractvalue` gives. Globals are
initialized on first reference, also when initializers refer to each other in cycles.

## Where the code and its promises differ

- Writes of less than a byte: the byte memory clears the rest of the byte, the cell memory does not
  (`MemoryEquivalence.SubByteWritesAgreeIff`).
- The loop bound alone does not make exploration finite, even if every block assigns a name:
  `Progress.EndlessNeverHalts` is a one-block program that never halts. Exploration is finite if
  every run halts, which is exact, or by `IR.Ranked`; `Progress.ProgressingIsRanked` gives a condition that can be read
  off each block.
- The minimum search for wide values never pushes, so its constraints on the top chunks stay
  (`SolverUtils.MinRestoresIff`); the maximum search leaves a frame behind when it returns `None`.
- The enumeration does not look at the constraints when the solver knows the value without a query
  (`SolverUtils.GetPossibleSolutions`).
- A symbolic-length memcpy copies upwards, so it differs from the concrete one when the destination
  starts inside the source (`HookUtils.ForwardIsOneShotIff`).
- A revert restores the memory and not the flags that say which globals are initialized
  (`Globals.RevertConsistentIff`, `Globals.RevertLosesInitializer`).
- The flag of a global is set before its initializer is evaluated. If that fails, the first reference is an
  error and the second one an address (`Globals.FailsOnlyOnce`, at an input in `Globals.FailsOnce`;
  `Globals.EvalSucceedsIff` says exactly when it does not happen).
- `max_memcpy_length` is cut off to the width of the length argument where it is asserted and not where
  it is compared. `MemcpyLengths.MaxFitsIff` says exactly when this makes no difference.
- A failed assignment of a call's result is an error in the native return and ends the path silently
  in the resumed one. `Engine.ExecutionManager.ReturnNatively` and `ReturnThroughSavedStack` agree on everything
  else. By `Engine.SymexFunction` only results of calls inside which another model with the same
  history took an alternative that is tried before can get lost (`Engine.ResultLost`), and by the last postcondition of
  `Engine.ExecutionManager.Next` they do: a point that resumes at such a return is not reported.
- Offsets of struct fields pass through 32 bits in a GEP. `Aggregates.GepCorrectIff` says exactly when the offset is
  still right, and `Aggregates.FieldOffsetCutOff` is an input on which it is not.
- An assumption is added to the constraints without a query, so a path without models can be
  reported as a success (`DeadEnds.DeadEndIsReported`). This does not happen if no run violates an
  assumption, in particular if the program has none (`Engine.SymexFunction`, `Engine.NoAssumesHold`).

## Model

| member | source | states |
|---|---|---|
| Engine.SymexFunction | src/symex.rs:135-148 | iterating the manager to the end is finite; each initial model whose concrete run returns is on exactly one path, with the value of that run; each other model's run ends in an error, and that error is reported unless it is a violated assumption or a result lost in a resumed return; if no run violates an assumption, every path has a model, every error but `Unsat` is some run's error, and halting of all runs is enough for finiteness; no `Unsat` is reported when they are squashed |
| Engine.NoAssumesHold | src/hooks/intrinsics.rs:154-178 | a program without assumptions violates none on any input |
| Engine.FindBound | src/symex.rs:135-148 | a rank, or halting of every run from the finitely many models, bounds the length of every path |
| DeadEnds.DeadEndIsReported | src/hooks/intrinsics.rs:171-175 | a program that assumes a falsehood and returns is reported as a success, and no model is left |
| Engine.ExploreAll | src/symex.rs:129-148 | from any resumable state, the remaining models are covered by disjoint sound paths or have failing runs whose errors are reported, with the same exceptions, and no point is left; unless assumptions are violated, paths have models and errors are genuine |
| Engine.ExecutionManager.constructor | src/symex.rs:92-106 | every initial model's concrete start state is represented by the start configuration |
| Engine.ExecutionManager.Next | src/symex.rs:135-148 | one result; the models not returned and not pending fail, with the error that is reported or one of the exceptions; unless assumptions are violated, a path has a model and an error but `Unsat` is that of some model's run; the work left strictly decreases; a point that resumes at a return whose result cannot be assigned is passed over |
| Engine.ExecutionManager.SymexFromCurLocThroughEndOfFunction | src/symex.rs:164-269 | runs to the end of the function or of the whole path, keeping the agenda invariant; every model that is lost fails with the error reported or one of the exceptions |
| Engine.ExecutionManager.SymexNextInstr | src/symex.rs:201-247 | one instruction or call: continues behind it, or ends the path with a result; `Unsat` is squashed exactly if asked to |
| Engine.ExecutionManager.BacktrackAndContinue | src/symex.rs:277-298 | takes up pending points, in order, until one gives a result; skipped ones have only failing runs |
| Engine.ExecutionManager.SymexFromCurLoc | src/symex.rs:311-448 | finishes a resumed path through all saved callers up to the top-level function |
| Engine.ExecutionManager.FinishResumed | src/symex.rs:357-396 | continues in the saved caller; if the result cannot be assigned, every model is lost in the return and the next point is taken up |
| Engine.ExecutionManager.ReturnThroughSavedStack | src/symex.rs:357-396 | leads to the configuration `AfterReturn`, the same one as the native return; fails exactly when the loop bound is hit |
| Engine.ExecutionManager.UnwindThroughSavedStack | src/symex.rs:357-396 | pop, assign and advance give, once logged, `ResumedReturn` |
| Engine.ExecutionManager.ReturnNatively | src/symex.rs:1260-1299 | leads to the configuration `AfterReturn`; fails exactly when the loop bound is hit |
| Engine.ExecutionManager.UnwindNatively | src/symex.rs:1263-1284 | pop, advance, log and assign give `NativeReturn` |
| Engine.ExecutionManager.SymexCall | src/symex.rs:1159-1301 | continues after the call with the caller's stack restored, or delivers the result of the top-level function after backtracking inside the call |
| Engine.ExecutionManager.EnterCallee | src/symex.rs:1232-1256 | saves the caller and assigns the parameters, with the errors for an unknown callee, a wrong number of arguments and the loop bound |
| Engine.ExecutionManager.FinishCall | src/symex.rs:1262-1299 | continues just after the call with the caller's stack; otherwise some model's run hits the loop bound |
| Engine.ExecutionManager.AssignParameters | src/symex.rs:1253-1256 | assigns the parameters in order in the callee, and fails exactly when one of them exceeds the loop bound |
| Engine.ExecutionManager.SymexInstr | src/symex.rs:164-269 | executes one instruction as `Executed` says, keeps exactly the models an assumption permits, and shortens the path |
| Engine.ExecutionManager.ExecuteInstr | src/symex.rs:164-269 | updates state and constraints in place as `Executed` and `Permits` say, errors included |
| Engine.ExecutionManager.SymexTerminator | src/symex.rs:253-268 | a return ends at a value and changes nothing, a branch goes on, an `unreachable` is reported |
| Engine.ExecutionManager.SymexCondBr | src/symex.rs:1652-1692 | the models split into those that take each side; the false side is saved only if the true side is feasible and followed first; infeasible sides are not saved |
| Engine.ExecutionManager.SymexSwitch | src/symex.rs:1698-1752 | the models split over the feasible cases and the default, each part followed or saved once, the first feasible case followed first |
| Engine.ExecutionManager.FeasibleCases | src/symex.rs:1704-1720 | lists, in order, exactly the cases that some model selects |
| Engine.ExecutionManager.SaveAllButFirst | src/symex.rs:1729-1748 | with the first case, the saved ones partition the current models |
| Engine.SwitchPartition | src/symex.rs:1698-1752 | first case, other feasible cases and default are disjoint and cover all models |
| Engine.ExecutionManager.SaveBacktrackingPoint | src/state.rs:1641-1655 | one solver frame and one point more, holding the present configuration |
| Engine.ExecutionManager.RevertToBacktrackingPoint | src/state.rs:1659-1673 | over every run: the constraints, variable map, memory, stack and path held when the point was saved come back, plus the point's constraint; solver depth stays base plus number of points |
| Engine.ExecutionManager.PopPoint | src/state.rs:1660-1669 | one solver frame and one point fewer; the state is that of the point, its path cut to the saved length |
| Agenda.RevertRestoresSave | src/state.rs:1647-1667 | for every point of a valid agenda, whatever was logged since, the reverted configuration is the one held at the save, about to enter the block |
| Agenda.AgendaRevert | src/state.rs:1659-1673 | truncating the path keeps every older point valid, and the popped point's models are where it resumes |
| Agenda.AgendaSave | src/state.rs:1641-1655 | a point saved for models that jump to its block keeps the agenda valid |
| Agenda.AgendaPathGrows | src/state.rs:1542-1546 | logging locations never invalidates a saved point |
| Engine.ExecutionManager.PushCallsite | src/state.rs:1563-1581 | pushes the call and the caller's active locals |
| Engine.ExecutionManager.PopCallsite | src/state.rs:1588-1599 | pops the latest call and restores the caller's locals |
| Engine.ExecutionManager.RecordPathEntry | src/state.rs:1542-1546 | appends the current location and changes nothing else |
| Engine.ExecutionManager.AssignBvToName | src/varmap.rs:90-105 | binds a new version unless the bound is hit, and counts it in both cases |
| VarMapModel.Restored | src/varmap.rs:200-209 | the saved locals come back, all other entries and all version counters stay |
| VarMapModel.RestoreInfo | src/varmap.rs:185-198 | exactly the active locals of the function |
| VarMapModel.RestoreAfterSave | src/varmap.rs:185-209 | whatever a callee assigned, even a recursive one, each caller local has its old value |
| VarMapModel.UnusedShrinks | src/varmap.rs:150-161 | every new version uses up a version slot |
| Simulation.ExecutedSim | src/symex.rs:164-269 | an instruction of the engine is one step of the machine under every model, errors included |
| Simulation.ResultAgrees | src/symex.rs:2098-2111 | the symbolic result is the concrete one under every model, also of a phi |
| Simulation.PhiPredecessor | src/symex.rs:2098-2111 | when a phi executes, the last path entry but one lies in the block control just jumped from |
| Simulation.GoodOperandsKnown | src/state.rs:876-885 | every operand lookup succeeds, so no lookup panics |
| Simulation.EnteredSim | src/symex.rs:1240-1258 | entering a callee is one step of the machine, errors included |
| Simulation.AfterReturnSim | src/symex.rs:1260-1299 | returning is one step of the machine, and fails exactly with it |
| Simulation.ReturnedLocals | src/state.rs:1588-1599 | after a return every local of the caller, recursive or not, has the value of its activation |
| Simulation.ReturnMechanismsAgree | src/symex.rs:357-396 | both orders of assigning, moving on and logging give the same configuration |
| Simulation.JumpSim | src/symex.rs:1642-1646 | a jump is one step of the machine and logs the block it leaves |
| Following.OutcomesExclusive | src/symex.rs:135-148 | a model whose run returns has no failing run and no other value |
| Following.ReturnLost | src/symex.rs:357-396 | the models of a resumed return that fails were overtaken at a branch inside the call |
| Following.BranchOvertakes | src/symex.rs:1652-1752 | a model on a side of a branch is overtaken by every model with the same history on a side tried before |
| Concrete.SelectsFirst | src/symex.rs:2105-2108 | a phi takes the operand of the first entry for the predecessor, and fails only if there is none |
| Concrete.LoadBinds | src/symex.rs:739-746 | a load binds the contents of its address |
| Concrete.LoadAfterStore | src/symex.rs:739-753 | a load after a store binds what was stored at that address, and elsewhere what it would have bound without the store |
| Concrete.OnlyStoresWrite | src/symex.rs:747-753 | no other step changes the memory |
| Concrete.LoopBound | src/varmap.rs:90-105 | a name can be assigned `maxVersion + 1` times and no more |
| Concrete.BranchGoes | src/symex.rs:1652-1752 | a conditional branch goes to its first target iff the condition is not 0, a switch to the matching case or else the default |
| Concrete.CallBinds | src/symex.rs:1235-1256 | a call starts the callee with its parameters bound to the arguments in order, and the caller waits unchanged |
| Concrete.ReturnBinds | src/symex.rs:1263-1284 | a return continues behind the call with the caller's locals and the result bound |
| Agenda.ExecutedShorter | src/varmap.rs:90-105 | each instruction shortens the path measure |
| Agenda.EnteredShorter | src/symex.rs:1240-1258 | so does a call, with parameters by using version slots and without them by rank |
| Agenda.AfterReturnShorter | src/varmap.rs:200-209 | so does a return, since restoring never lowers a counter |
| Agenda.JumpShorter | src/symex.rs:1642-1646 | so does a jump |
| Progress.ProgressingIsRanked | src/varmap.rs:90-105 | if every block assigns a name, or calls a function with parameters, before it calls one without, or calls nothing and ends the function, exploration is finite |
| Progress.EndlessNeverHalts | src/varmap.rs:90-105 | a program whose only block assigns a name, after a call of itself, runs forever without using the loop bound |
| Progress.EndlessIsWellFormed | src/varmap.rs:90-105 | that program is well formed and defines a name in every block |
| SolverModel.Solver.SatWithExtraConstraints | src/solver_utils.rs:31-45 | answers whether a model meets all extra constraints, any number of them, and restores the frames |
| CellMemory.Memory.Read | src/memory.rs:320-380 | all strategies return the current bits at any address, width and alignment |
| CellMemory.Memory.Write | src/memory.rs:383-447 | all strategies change exactly the bits named and no others |
| CellMemory.Memory.ReadWithinCell | src/memory.rs:154-171 | the flat bits, by shifting and slicing |
| CellMemory.Memory.WriteWithinCell | src/memory.rs:175-202 | a flat write, by masking |
| CellMemory.Memory.ReadSmall | src/memory.rs:206-227 | the flat bits, also across two cells and from the last cell to the first |
| CellMemory.Memory.WriteSmall | src/memory.rs:230-266 | a flat write, although the next cell is always rewritten |
| CellMemory.Memory.ReadLargeAligned | src/memory.rs:270-291 | the flat bits, cell by cell |
| CellMemory.Memory.WriteLargeAligned | src/memory.rs:294-316 | a flat write, cell by cell |
| CellMemory.Memory.ReadBytes | src/memory.rs:358-378 | the flat bits, byte by byte |
| CellMemory.Memory.WriteBytes | src/memory.rs:428-444 | a flat write, byte by byte |
| BitVectors.Masked | src/memory.rs:186-201 | clearing and writing masks replace exactly the named bits |
| FlatMemory.ReadInsideWrite | src/memory.rs:320-447 | reading part of what was written gives that part |
| FlatMemory.ReadElsewhere | src/memory.rs:320-447 | reading outside what was written gives the old bits |
| ByteMemory.Memory.Read | src/simple_memory.rs:120-152 | the flat bits |
| ByteMemory.Memory.Write | src/simple_memory.rs:155-198 | a flat write of the value, zero-extended to a byte if it is shorter |
| MemoryEquivalence.Replay | src/simple_memory.rs:202-204 | from equal contents, any sequence of operations gives equal reads and equal contents |
| MemoryEquivalence.SubByteWritesAgreeIff | src/simple_memory.rs:155-198 | after a write of less than a byte the memories agree iff the rest of the byte was clear |
| Alloc.Allocator.Alloc | src/alloc.rs:26-54 | allocations stay in order and disjoint, small ones in one cell, large ones on a boundary, sizes recorded; the cursor moves on only as far as needed |
| Alloc.RequestedBits | src/alloc.rs:26-54 | counted in the bits asked for: no overlap, at most 64 bits in one cell, more on a cell boundary, none at null |
| Alloc.Allocator.GetAllocationSize | src/alloc.rs:58-61 | the size of each non-empty object as it was allocated, `None` exactly for other addresses |
| Alloc.InsideSeparate | src/alloc.rs:26-54 | ranges inside two allocations share no bit |
| Alloc.WriteInside | src/memory.rs:230-266 | a write inside the bits or bytes of one object is read back and changes no read inside another |
| SolverUtils.SearchMax | src/solver_utils.rs:395-421 | the loop finds the greatest feasible value and closes the frames it left open |
| SolverUtils.SearchMin | src/solver_utils.rs:450-476 | the loop finds the least feasible value and closes the frames it left open |
| SolverUtils.BiasedMid | src/solver_utils.rs:404-405 | lies strictly between the bounds, so every iteration shrinks the interval |
| SolverUtils.MaxPossibleSolutionAsU64 | src/solver_utils.rs:372-422 | the greatest feasible value for widths 1 to 64, `None` iff unsatisfiable, frames restored |
| SolverUtils.MinPossibleSolutionAsU64 | src/solver_utils.rs:431-477 | the least feasible value for widths 1 to 64, `None` iff unsatisfiable, frames restored |
| SolverUtils.MaxPossibleSolutionAsBinaryStr | src/solver_utils.rs:491-542 | exactly `width` digits of the greatest feasible value; frames restored on `Some`, one frame left on `None` |
| SolverUtils.MinPossibleSolutionAsBinaryStr | src/solver_utils.rs:556-604 | exactly `width` digits of the least feasible value; the constraints on all but the last chunk stay |
| SolverUtils.MinRestoresIff | src/solver_utils.rs:556-604 | the constraints are unchanged iff all solutions agree on the digits that were fixed |
| SolverUtils.ExtendMax | src/solver_utils.rs:491-542 | a greatest prefix followed by the greatest chunk below it is a greatest prefix |
| SolverUtils.ExtendMin | src/solver_utils.rs:556-604 | a least prefix followed by the least chunk below it is a least prefix |
| SolverUtils.CheckForCommonSolutions | src/solver_utils.rs:219-363 | only feasible values, at most n + 1 of them; every feasible common value is found unless there is no more room; frames restored |
| SolverUtils.EnumerateSolutions | src/solver_utils.rs:176-211 | `Exactly` is the full feasible set and `AtLeast` holds n + 1 feasible values, from at most n + 1 models |
| SolverUtils.GetPossibleSolutions | src/solver_utils.rs:155-211 | exact iff the constraints are satisfiable or the known-value shortcut is not taken |
| MemcpyLengths.GetMemcpyLength | src/hook_utils.rs:193-269 | unless the maximum is cut off to a smaller one: the chosen length is feasible, allowed and what the policy prescribes; the path stays satisfiable; errors only if no length is allowed |
| MemcpyLengths.MaxFitsIff | src/hook_utils.rs:209-224 | cutting the maximum off to the width of the length changes no decision iff it fits, or its cut allows every length |
| MemcpyLengths.ChooseAmong | src/hook_utils.rs:208-268 | the same when several lengths are possible |
| MemcpyLengths.ApplyPolicy | src/hook_utils.rs:225-266 | extremes are the true extremes of allowed lengths, nested preferences terminate |
| HookUtils.MemcpyConcrete | src/hook_utils.rs:141-150 | one read and one write of the whole block |
| HookUtils.OneShotCopies | src/hook_utils.rs:141-150 | the destination then holds what the source held, and ranges outside it are unchanged |
| HookUtils.MemcpySymbolic | src/hook_utils.rs:151-175 | under any model the loop copies n bytes upwards, whatever greater length it runs for |
| HookUtils.ForwardIsOneShotIff | src/hook_utils.rs:141-175 | the loop equals the one-shot copy for every memory iff the destination does not start inside the source after its first byte |
| HookUtils.ForwardKeepsOthers | src/hook_utils.rs:151-175 | bytes outside the destination are unchanged |
| HookUtils.MemsetConcrete | src/hook_utils.rs:50-82 | a block fill, also by the branches for bytes that must be all zeroes or all ones |
| HookUtils.RepeatAt | src/hook_utils.rs:75-79 | each byte of the block is the given one |
| HookUtils.MemsetSymbolic | src/hook_utils.rs:83-107 | a block fill, unconditionally |
| Layout.SizeStable | src/layout.rs:15-39 | the size of a type is the same however many of the definitions after those it uses are in view |
| Layout.GetOffsetConstantIndex | src/layout.rs:90-158 | the byte offset and type of an element, an error exactly when the step is not a number of bytes or the struct is opaque |
| Layout.StructOffset | src/layout.rs:109-122 | the loop over the fields gives the bit offset of the field |
| Layout.ElementsInOrder | src/layout.rs:90-158 | an element ends before every later one starts |
| Layout.ElementInside | src/layout.rs:15-39 | an element lies inside its aggregate |
| Layout.ElementsTile | src/layout.rs:15-39 | elements tile their aggregate: the first starts at 0, each where the one before ends, and the last ends at the size |
| Layout.NoElements | src/layout.rs:15-39 | an aggregate without elements has size 0 |
| Layout.NamedAsDefined | src/layout.rs:123-153 | a named struct has the size and the offsets of its definition |
| Aggregates.ConstIndicesOffset | src/symex.rs:1053-1095 | succeeds exactly when every step is in bytes, and gives the bit position and size the path denotes |
| Aggregates.GepAgrees | src/symex.rs:778-836 | below 2^32 bits, 64-bit GEP arithmetic gives the same offset or the same error |
| Aggregates.GepThroughPointer | src/symex.rs:778-836 | a leading zero index through the pointer only adds the demand for a whole number of bytes |
| Aggregates.GepMeans | src/symex.rs:778-836 | for any indices, constant or symbolic, in range or not, through pointers or not: succeeds iff every step is in bytes and every field index constant; the offset is then, modulo 2^64, the sum of index times element size and of field offsets, less what 32 bits cut off |
| Aggregates.GepCorrectIff | src/symex.rs:796-800 | the offset is that sum iff nothing is cut off, or what is cut off wraps round |
| Aggregates.FieldOffsetCutOff | src/symex.rs:796-800 | a field 2^32 bytes into its struct gets offset 0 |
| Aggregates.FirstStepMeans | src/layout.rs:168-191 | one step: its value, and which error it gives |
| Aggregates.ScalarSizes | src/layout.rs:74-83 | a pointer has as many values as the memory has addresses; sizes of floating-point types |
| Aggregates.PathInside | src/symex.rs:1053-1095 | the element of a path lies inside the aggregate |
| Aggregates.NestedOrApart | src/symex.rs:1053-1095 | two paths denote nested ranges when one continues the other, disjoint ranges otherwise |
| Aggregates.PathConcat | src/symex.rs:1053-1095 | the rest of a path is a path inside the element reached first |
| Aggregates.OverwriteBvSegment | src/symex.rs:1102-1151 | in all four mask cases exactly the named bits are replaced |
| Aggregates.SymexExtractValue | src/symex.rs:1011-1025 | the bits that the path denotes |
| Aggregates.SymexInsertValue | src/symex.rs:1027-1048 | the aggregate with those bits replaced |
| Aggregates.ExtractInserted | src/symex.rs:1011-1048 | extracting what was inserted gives it back, and inserting what was extracted changes nothing |
| Aggregates.ExtractElsewhere | src/symex.rs:1011-1048 | an insert does not change elements on unrelated paths |
| Aggregates.ExtractInside | src/symex.rs:1011-1048 | a longer path extracts from the inserted value |
| Aggregates.ExtractAround | src/symex.rs:1011-1048 | a shorter path extracts the old element with the new part inserted |
| Aggregates.StoredElement | src/symex.rs:739-775 | after a store, the address a GEP computes holds the element |
| Aggregates.StoreGepLoad | src/symex.rs:739-775 | store, GEP and load give what `extractvalue` gives, for every address and strategy |
| Globals.EvalFaithful | src/state.rs:888-968 | evaluation gives the address-only encoding whatever the flags if no initializer it sets off fails, and initializes each newly flagged global exactly once, cycles included |
| Globals.EvalSucceedsIff | src/state.rs:888-968 | evaluation succeeds iff the constant, and every initializer it leads to through globals not yet flagged, has an encoding |
| Globals.OnlyReachable | src/state.rs:903-956 | only globals the constant leads to are flagged |
| Globals.FailsOnlyOnce | src/state.rs:945-954 | for every global, once a reference has failed, the next one gives the address and initializes nothing |
| Globals.FailsOnce | src/state.rs:945-954 | an input on which a reference fails |
| Globals.InitializersInPlace | src/state.rs:945-954 | with disjoint regions, each newly flagged global holds its initializer |
| Globals.ElementsLaid | src/state.rs:894-902 | each element of an aggregate lies whole right behind those before it, the first one lowest |
| Globals.ElementInPlace | src/state.rs:894-902 | each element of an aggregate initializer can be read at its place in the region of the global |
| Globals.ErrorReported | src/state.rs:894-902 | of several failing elements the last is reported, of two failing operands the first |
| Globals.ReferenceDenotes | src/state.rs:903-956 | a reference is 64 bits wide and denotes the address of the global |
| Globals.SelectTakes | src/state.rs:1114-1123 | a select takes its true value iff the condition is not the number 0 |
| Globals.GlobalState.ConstToBv | src/state.rs:888-968 | updates flags and memory in place as the evaluation prescribes |
| Globals.EvalKeepsConsistent | src/state.rs:903-956 | within one path each flagged global has been initialized exactly once |
| Globals.RevertConsistentIff | src/state.rs:1659-1673 | this survives a revert iff the constants evaluated since the save, any number of them, referred only to globals already flagged |
| Globals.RevertLosesInitializer | src/global_allocations.rs:40-48 | one global referred to after a save is enough to lose its initializer |
| Globals.EvaluatedAcrossRevert | src/state.rs:1659-1673 | after a revert the same constant has the same value, and nothing is initialized again |

## Left out

- The solver is an exact oracle over a finite set of models: Boolector, timeouts, unknown answers and the `?` exits they cause are not modelled.
- Invoke, resume, landing pads, throw and abort.
- Hooks, callbacks, watchpoints and the resolution of function pointers; calls name their callee.
- Null-pointer checking and the splitting of paths it does; `max_callstack_depth` is taken as unset.
- Phis of one block are evaluated one after another, as the code does; the simultaneous evaluation of the 'phi' Instruction section of the LLVM Language Reference is not modelled.
- Pure instructions of the engine's IR are arbitrary functions on integers; their bit-vector widths, vector forms, saturating arithmetic and bswap are not modelled.
- Memory in the engine's IR maps addresses to values; its bits are the subject of the memory modules.
- `trust_llvm_assumes` is taken as set; if it is unset the instruction does nothing.
- Engine.SymexFunction: where a run violates an assumption, finiteness and feasibility of paths are not characterized: what the engine does on a path without models depends on which branches follow, and not on any run.
- Memories hold the contents under one model, and whether the solver knows an address is a parameter of each access; arrays of the solver are not modelled.
- MemcpyLengths.GetMemcpyLength: the constants of a policy are taken to fit the width of the length, which is at most 64 bits.
- Aggregates.SymexExtractValue: indices are in range, elements have at least one bit and aggregates fewer than 2^32, since the code panics or truncates otherwise.
- Aggregates.GepAgrees: indices are constants, taken as unsigned; the code zero-extends negative ones.
- Sizes are unbounded integers; overflow of `usize` in the layout functions is not modelled.
- Aliases, linkage, module-private names and the remaining constant expressions (GEP, element and value access) of global initializers; other unary and binary constant expressions are arbitrary functions on bits.
- The variable map and the backtrack points are values that the manager reassigns, because the code copies them whole.
- `realloc`, `State::fork`, `change_solver`, `size_opaque_aware`, bitcode loading, demangling, logging and printing.
