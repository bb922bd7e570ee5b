# PCIT: a verified model of the IR, its interpreter, and the core containers

The PCIT compiler toolchain has an IR ("PIR") with a builder that also rewrites it (`InstrHandler`), an interpreter
(`ExecutionEngineExecutor`), and under both a work-stealing thread pool, arenas, a range map and a once-only map. This
project models the parts of that code whose correctness is not visible in any one function, and proves what they are for.

| module | what it models |
|---|---|
| `ThreadPool`, `PoolStops`, `PoolReport`, `ThreadPoolObjects` | the pool's protocol as a transition system over single atomic accesses and lock sections; how an error stops it and how a thief looks around; what its caller is told; the worker and pool objects |
| `Initialisers`, `GlobalLowering`, `LoweringObject` | initialisers and what occurs in them; lazy lowering of globals by many threads; the engine's tables and the recursion on one thread |
| `MapAllocs`, `MapHistory` | map slots that are filled once while other callers spin; who filled them and with what, over whole runs |
| `Pir` | expressions, instructions, arenas, modules, and the substitution of one operand |
| `PirMachine`, `PirControl`, `PirInstrs`, `PirBigStep` | the interpreter and its object; the edges between blocks and functions; operands, instructions and ends of runs; a recursive evaluator that the machine refines |
| `PirHandler`, `PirSafety`, `PirEdits`, `PirRewrite` | creates and `replaceExpr` on a handler object; which handles are live; whole histories of edits; preservation of meaning |
| `LinearStepAllocs`, `Slots`, `StepAllocs` | power-of-two buffers; the free-list arena, abstractly and as an object over the buffers |
| `RangeMaps` | the unbalanced search tree over address ranges, on heap nodes |
| `Multiples`, `Layout`, `LayoutLaws`, `GlobalPlaces`, `TypeTables` | the rounding mask; sizes, alignments and `CALC_PTR` addresses, and the laws they obey; where lowering writes the parts of a global; the tables of array, struct and union types |
| `Names` | the search for a fresh statement name |
| `Bits`, `Sums` | powers of two and bit widths; sums and duplicate-free sequences |

The opcodes' arithmetic is left open (`PirMachine.Semantics` is any record of functions), so every result about the
interpreter and the rewriting holds for all opcodes.

Some behaviour of the code is not what a reader would expect. Each case comes with the exact condition under which the
code does what one would expect, and an input on which it does not:

- `waitUntilDoneWorking` can report success for a batch in which a task failed: a failing worker subtracts itself from
  `num_working` before it raises `errored`. The report is right in every interleaving exactly if no task has failed
  (`PoolReport.ReportIsRight`, `PoolReport.ReportCanBeWrong`), and right again once all workers are parked
  (`PoolReport.RightAtRest`).
- `replaceExpr` leaves a `CALC_PTR` index alone when the base matches, and visits only the target function although a
  constant may be shared (`PirSafety.SubstitutionComplete`, `PirSafety.ReplaceKeepsClosed`). Pointer bases and integer
  indices are enough (`PirEdits.TypedReplace`); `createCalcPtr` asserts integers only for the later indices of aggregates.
- `delete_expr` moves the insertion point back whatever it deletes, and from 0 to "at the end" (`PirSafety.CursorStays`).
- `CALC_PTR` aligns the members of packed structs, so that the last can lie outside (`Layout.MembersInsideIff`,
  `Layout.PackedEscapes`).
- Lowering a global struct leaves no padding between its members, while `CALC_PTR` expects it: a part is looked for where
  it was written exactly if no struct on the way to it has padding at or before the member taken
  (`GlobalPlaces.FoundIffNoGaps`, `GlobalPlaces.PaddedMemberMissed`).
- Wide integers and unions can have sizes that their alignment does not divide (`Layout.IntAlignmentDivides`,
  `Layout.UnionAlignmentDivides`, `Layout.UnionSizeNotRounded`); then only some elements of an array are aligned
  (`Layout.AlignedElements`).
- A lookup of a global whose initialiser leads into a cycle never returns (`GlobalLowering.ReturnsIffNoCycle`).
- An instruction with two results that does not pass the first name on can get one name twice, also for two different
  requested names such as "x" and "x.1" (`Names.NoForwardIncludeRepeats`).

One more example is there to show why typing is needed: `CALL_VOID` does not clear `ret_value`, so that in code the
builder's own assertions refuse, a value can land in the register of an older call (`PirBigStep.StaleReturnValue`). For
typed code the machine is right in both directions (`PirBigStep.CallRefines`).

## Model

| member | source | states |
|---|---|---|
| `ThreadPool.Shares` | PCIT_core/include/ThreadPool.hpp:67-89 | the shares `work` hands out are consecutive, cover 0..n-1 exactly, are never empty, and differ in size by at most one, for any numbers of tasks and workers |
| `ThreadPool.StartsAreShared` | PCIT_core/include/ThreadPool.hpp:67-89 | the boundaries `work` computes start at 0, end at n and increase strictly |
| `ThreadPool.ActionKeeps` | PCIT_core/include/ThreadPool.hpp:55-323 | every atomic access by any thread, and every step of `work`, keeps the protocol's invariant |
| `ThreadPool.ReachableInv` | PCIT_core/include/ThreadPool.hpp:55-323 | the invariant holds in every state any interleaving of any batches can reach |
| `ThreadPool.AtMostOnce` | PCIT_core/include/ThreadPool.hpp:179-195 | in every interleaving, failing tasks included, no task index is handed out twice and none returns twice |
| `ThreadPool.ExactlyOnce` | PCIT_core/include/ThreadPool.hpp:55-94 | when `num_working` is back to 0 and no task failed, every index in 0..n-1 was handed out exactly once and its task has returned |
| `ThreadPool.Accounting` | PCIT_core/include/ThreadPool.hpp:164-170 | `num_working` is the number of workers not waiting plus those that have exchanged but not yet subtracted, so that it never underflows; errors included |
| `ThreadPool.SignalsOnce` | PCIT_core/include/ThreadPool.hpp:164-175 | in every interleaving of a batch, errors included, each started worker signals at most once and the others never; when `num_working` is back to 0 each started worker has signalled exactly once |
| `ThreadPool.StealGuardSound` | PCIT_core/include/ThreadPool.hpp:236-280 | when `num_stealing` has reached `max_num_working`, every started worker's range is empty |
| `ThreadPool.StepUsesPotential` | PCIT_core/include/ThreadPool.hpp:208-286 | each step of a worker that is not parked lowers a potential built from unclaimed tasks and the stealing loop's failures in a row, whatever the others do |
| `ThreadPool.BatchTerminates` | PCIT_core/include/ThreadPool.hpp:208-286 | under every schedule of a batch, errors included, workers that are not parked take only boundedly many steps |
| `ThreadPool.NeverStalls` | PCIT_core/include/ThreadPool.hpp:208-286 | while `num_working` is not 0 some worker can still step |
| `PoolStops.TellsEveryone` | PCIT_core/include/ThreadPool.hpp:317-323 | from any reachable state, a worker that begins to tell the others and is not interrupted tells them all: everyone who was working or stealing is told to stop, and no other mode changes |
| `PoolStops.TellsInAnyRun` | PCIT_core/include/ThreadPool.hpp:317-323 | in any interleaving, a worker that raised the flag first and has gone on since has stood before every worker of the pool to tell it |
| `PoolStops.FirstErrorTells` | PCIT_core/include/ThreadPool.hpp:317-319 | only the first error is told about |
| `PoolStops.ToldTakesAtMostOne` | PCIT_core/include/ThreadPool.hpp:208-286 | in any interleaving of the rest of the batch, a worker told to stop takes at most one more task of its own range, and none unless it was just about to |
| `PoolStops.LooksAtEveryone` | PCIT_core/include/ThreadPool.hpp:236-280 | in any interleaving, a thief that gives up after failing `max_num_working` times in a row has looked at every worker of the batch since its last success |
| `PoolStops.StealConditions` | PCIT_core/include/ThreadPool.hpp:240-272 | a thief looks on just while `num_stealing` is below the maximum, takes only from a working worker, and gives up for no other reason than these two |
| `PoolStops.StealStarts` | PCIT_core/include/ThreadPool.hpp:237-238 | stealing starts at the first worker with no failure counted |
| `PoolStops.StealSucceeds` | PCIT_core/include/ThreadPool.hpp:257-272 | a steal takes the victim's last task and counts failures afresh |
| `PoolStops.GoesOn` | PCIT_core/include/ThreadPool.hpp:241-246 | after a task that did not fail a worker goes on with its own loop, or with the next victim round the ring |
| `PoolReport.ReportIsRight` | PCIT_core/include/ThreadPool.hpp:97-103 | for n tasks on w workers, any n and w, the report is right in every interleaving exactly if no task has failed |
| `PoolReport.ReportCanBeWrong` | PCIT_core/include/ThreadPool.hpp:172-175 | for every n and w there is an interleaving in which a task fails and success is reported |
| `PoolReport.RightAtRest` | PCIT_core/include/ThreadPool.hpp:317-323 | once all workers are parked the flag is right |
| `ThreadPoolObjects.WorkerObject.StartWorking` | PCIT_core/include/ThreadPool.hpp:142-147 | sets the range and makes the worker ready |
| `ThreadPoolObjects.WorkerObject.ExchangeToTold` | PCIT_core/include/ThreadPool.hpp:149-155 | each of the two compare-exchanges succeeds when the protocol says so, and has the protocol's effect on the worker that is told |
| `ThreadPoolObjects.WorkerObject.TellToStopWorking` | PCIT_core/include/ThreadPool.hpp:149-155 | with nothing in between they are the protocol's one step, or its two steps when the first fails |
| `ThreadPoolObjects.WorkerObject.ExchangeToWaiting` | PCIT_core/include/ThreadPool.hpp:164-170 | the exchange is the protocol's step, and says whether the worker's next access signals the pool |
| `ThreadPoolObjects.WorkerObject.GetTask` | PCIT_core/include/ThreadPool.hpp:179-186 | takes the front of the range, as the protocol's owner does |
| `ThreadPoolObjects.WorkerObject.ExternallyStealTask` | PCIT_core/include/ThreadPool.hpp:188-195 | takes the back of the range, as the protocol's thief does |
| `ThreadPoolObjects.PoolObject.Work` | PCIT_core/include/ThreadPool.hpp:55-94 | both loops give the started workers the shares of the specification, and `num_working` is their number |
| `Initialisers.MentionsAreOccurrences` | PIR/src/ExecutionEngine.cpp:343-444 | the references written for an initialiser are the globals that occur anywhere inside it, through elements, fields and bases: one for each place, in the places' order |
| `GlobalLowering.ActionKeeps` | PIR/src/ExecutionEngine.cpp:317-340 | every request and every step of any thread keeps the invariant of claims, stacks and finished globals |
| `GlobalLowering.ReturnedIsComplete` | PIR/src/ExecutionEngine.cpp:317-340 | in any interleaving a returned global, and every global reachable from it by occurrence, is registered and complete: it holds exactly one reference for each place at which a global occurs in its initialiser, in order |
| `GlobalLowering.LoweredOnce` | PIR/include/ExecutionEngine.hpp:121-136 | each global is lowered at most once, by the one thread that claimed it, and nobody else writes to it |
| `GlobalLowering.NeverDeadlocks` | PIR/src/ExecutionEngine.cpp:317-340 | for any threads and any requests, in every reachable state in which a request that leads into no cycle is pending, some thread can do more than spin, and doing so uses up potential |
| `GlobalLowering.AllServed` | PIR/src/ExecutionEngine.cpp:317-340 | from every reachable state the threads can finish all pending requests that lead into no cycle, each thread handed back what it asked for in order, whatever else was asked for |
| `GlobalLowering.CyclicNeverReturns` | PIR/src/ExecutionEngine.cpp:332-339 | a request for a global that leads into a cycle never returns, in any run |
| `GlobalLowering.ReturnsIffNoCycle` | PIR/src/ExecutionEngine.cpp:317-355 | a request can return, in some run, exactly when following the globals that occur in initialisers leads into no cycle |
| `LoweringObject.LoweringEngine.CheckGlobalLowered` | PIR/include/ExecutionEngine.hpp:121-136 | claims a global just if it was not in the map |
| `LoweringObject.LoweringEngine.GetOrCreateLoweredGlobalValue` | PIR/src/ExecutionEngine.cpp:317-340 | on one thread, clear of cycles, the recursion ends with the global complete, and nothing that was complete or in progress is disturbed |
| `LoweringObject.LoweringEngine.LowerGlobalValue` | PIR/src/ExecutionEngine.cpp:343-444 | appends one reference for each place at which a global occurs in the value, in order, and every such global is complete by then |
| `LoweringObject.LoweringEngine.LowerElements` | PIR/src/ExecutionEngine.cpp:402-430 | the loops over the elements of an array or struct do so element by element |
| `MapAllocs.ActionKeeps` | PCIT_core/include/MapAlloc.hpp:77-107 | every step keeps the invariant; a key keeps its slot and a published value stays |
| `MapAllocs.OnceOnly` | PCIT_core/include/MapAlloc.hpp:47-107 | in every interleaving one caller per slot is told to set it, keys have one slot each, and all values handed out for a slot were published and are equal |
| `MapAllocs.SpinnerHasSetter` | PCIT_core/include/MapAlloc.hpp:31-35 | a caller that spins in vain waits for another caller that was told to set that slot and still can |
| `MapHistory.SetterDecides` | PCIT_core/include/MapAlloc.hpp:47-107 | over whole runs: for each published slot exactly one `get` was told to set it and exactly one `emplaceValue` went through a handle to be set, by the same caller, and every value anyone reads from the slot is the one given there |
| `MapHistory.ReaderGetsKey` | PCIT_core/include/MapAlloc.hpp:47-53 | in every interleaving whoever waits for a key is handed the value of that key's slot when its wait is over |
| `MapHistory.LookupAnswers` | PCIT_core/include/MapAlloc.hpp:77-103 | `get` answers with the slot of its key, to be set just if there was none; `getIfExists` waits for that slot, or returns at once without one |
| `MapAllocs.MapAlloc.FindOrAdd` | PCIT_core/include/MapAlloc.hpp:77-88 | the locked section of `get` does the protocol's step |
| `MapAllocs.MapAlloc.FindSlot` | PCIT_core/include/MapAlloc.hpp:91-103 | the locked section of `getIfExists` does the protocol's step |
| `MapAllocs.MapAlloc.EmplaceValueInto` | PCIT_core/include/MapAlloc.hpp:55-58 | the caller's value is put into the slot of its own handle, and nothing else changes, as in the protocol's step |
| `MapAllocs.MapAlloc.StoreFlag` | PCIT_core/include/MapAlloc.hpp:59 | the flag of that slot is raised, and nothing else changes |
| `MapAllocs.MapAlloc.PollFlag` | PCIT_core/include/MapAlloc.hpp:31-35 | one turn of the wait; a raised flag means that the value is there |
| `Pir.SubstComplete` | PIR/src/InstrHandler.cpp:180-330 | the substitution in one statement reaches every operand, and changes no other, exactly when the statement is no `CALC_PTR` with the original as base and index |
| `PirControl.JumpThenPhi` | PIR/src/ExecutionEngineExecutor.cpp:664-718 | two steps of the machine: a jump goes to its own target, and the phi there gets the value given for the block jumped from |
| `PirControl.BranchThenPhi` | PIR/src/ExecutionEngineExecutor.cpp:676-718 | the same for a branch: the phi's register gets what the branch's block gives it in the target that the condition selects |
| `PirControl.SwitchThenPhi` | PIR/src/ExecutionEngineExecutor.cpp:701-753 | the same for a switch and the block of its first equal case, or its default |
| `PirControl.SwitchGoes` | PIR/src/ExecutionEngineExecutor.cpp:720-753 | a switch goes to the first case equal to the condition, else to the default |
| `PirControl.PhiTakes` | PIR/src/ExecutionEngineExecutor.cpp:701-718 | a phi takes the value given for the previous block, and fails when there is none |
| `PirControl.CallRoundTrip` | PIR/src/ExecutionEngineExecutor.cpp:185-224 | a call and the return of its callee, across both frames: the caller goes on at the next statement with the call's own register holding what the returned expression means among the arguments |
| `PirControl.CallVoidRoundTrip` | PIR/src/ExecutionEngineExecutor.cpp:348-388 | the same for a callee without a result: the caller goes on with what it had |
| `PirControl.WrapLeavesBoth` | PIR/src/ExecutionEngineExecutor.cpp:1203-1219 | both results of a wrap instruction are read back through their extracting expressions |
| `PirInstrs.OperandMeans` | PIR/src/ExecutionEngineExecutor.cpp:2438-2519 | a number means its stored value, `true` 1 and `false` 0, parameter k the k-th argument, anything else what its register holds |
| `PirInstrs.OpComputes` | PIR/src/ExecutionEngineExecutor.cpp:1156-1200 | a value instruction is its own opcode applied to its operands' values in order; it fills its own register and no other, or fails with the opcode's error |
| `PirInstrs.CalcPtrComputes` | PIR/src/ExecutionEngineExecutor.cpp:849-876 | `CALC_PTR` is handed its base's value, and literals and values that put together are its indices' values in order |
| `PirInstrs.IndexExprsAppend` | PIR/src/ExecutionEngineExecutor.cpp:864-870 | the index expressions are listed in order |
| `PirInstrs.IndexExprsOne` | PIR/src/ExecutionEngineExecutor.cpp:864-870 | and literals are not among them |
| `PirInstrs.Stops` | PIR/src/ExecutionEngineExecutor.cpp:630-636 | `ABORT`, `BREAKPOINT` and `UNREACHABLE` end the run, each with its own code and the stack as it is |
| `PirInstrs.ReturnEnds` | PIR/src/ExecutionEngineExecutor.cpp:638-662 | a `RET` on the last frame ends the run with what its operand means, or with no value |
| `PirInstrs.CallDepth` | PIR/src/ExecutionEngineExecutor.cpp:217-220 | a call goes one frame deeper just if that is within `max_call_depth`, and fails otherwise |
| `PirMachine.Executor.RunStep` | PIR/src/ExecutionEngineExecutor.cpp:143-224 | one step of the object is one step of the machine, with its depth check, its error and its output |
| `PirMachine.Executor.DeliverReturn` | PIR/src/ExecutionEngineExecutor.cpp:638-662 | the end of `RET`: into the caller's register, or out of the run |
| `PirMachine.Executor.RunFunctionImpl` | PIR/src/ExecutionEngineExecutor.cpp:132-140 | the loop ends with the machine's outcome after as many steps |
| `PirBigStep.Follows` | PIR/src/ExecutionEngineExecutor.cpp:143-224 | on top of any stack, the machine comes to the end of a call as its recursive evaluation does, and is still running if that ran out of fuel |
| `PirBigStep.CallRefines` | PIR/src/ExecutionEngineExecutor.cpp:132-224 | for well-typed code f(args) on the explicit stack returns v, fails with a code and stack trace, or gets stuck exactly when its recursive evaluation does |
| `PirBigStep.EvalTyped` | PIR/src/ExecutionEngineExecutor.cpp:638-663 | a call returns a value just if its function has one |
| `PirBigStep.LimitOnlyCuts` | PIR/src/ExecutionEngineExecutor.cpp:217-220 | under a smaller `max_call_depth` a call does the same or fails with `EXCEEDED_MAX_CALL_DEPTH` and a stack trace one frame too long |
| `PirBigStep.StaleReturnValue` | PIR/src/ExecutionEngineExecutor.cpp:348-388 | why typing is needed: in badly typed code a `CALL_VOID` overwrites an older call's register, and the machine returns 2 for 1 |
| `PirHandler.InstrHandler.InsertStmt` | PIR/src/InstrHandler.cpp:3819-3828 | inserts at the end, or after the cursor, which moves onto the new statement |
| `PirHandler.InstrHandler.Create` | PIR/src/InstrHandler.cpp:2100-2118 | emplaces the instruction, inserts its statement and returns its handle |
| `PirHandler.InstrHandler.DeleteExpr` | PIR/src/InstrHandler.cpp:3831-3953 | gives the slot back for just the kinds that have one to give, and moves the cursor back |
| `PirHandler.InstrHandler.RewriteBlock` | PIR/src/InstrHandler.cpp:165-810 | the inner loop substitutes in every statement of the block but the original, and finds that |
| `PirHandler.InstrHandler.ReplaceExpr` | PIR/src/InstrHandler.cpp:146-818 | the loops, the removal and the deletion amount to one function of the module, stated without loops |
| `PirSafety.FreshNotMentioned` | PIR/src/InstrHandler.cpp:2112-2117 | a handle about to be handed out, reused slot or not, is no statement and is mentioned by none |
| `PirSafety.NewNumberKeepsClosed` | PIR/src/InstrHandler.cpp:890-902 | a new constant keeps every operand live and local |
| `PirSafety.CreateKeepsClosed` | PIR/src/InstrHandler.cpp:2100-2118 | so does a new statement over operands that may be used, at any insertion point |
| `PirSafety.SubstitutionComplete` | PIR/src/InstrHandler.cpp:283-293 | after `replaceExpr` a statement mentions the original exactly when it was a `CALC_PTR` with it as base and index; otherwise its operands are the old ones with the original replaced |
| `PirSafety.ReplacedIs` | PIR/src/InstrHandler.cpp:146-818 | the whole effect on the module: every block is the old one without the original, its slot is gone, the other instructions of the function have it replaced, all else is as before |
| `PirSafety.StmtNotElsewhere` | PIR/src/InstrHandler.cpp:165-167 | no other function mentions a value of this one's statements, so that visiting the target function's blocks is enough |
| `PirSafety.ReplaceKeepsClosed` | PIR/src/InstrHandler.cpp:146-818 | for every original (statement, extracted result, constant, parameter) `replaceExpr` keeps all operands live and local exactly when its slot is not given back, or no `CALC_PTR` of the function has it as base and index and no other function shares it |
| `PirSafety.CursorStays` | PIR/src/InstrHandler.cpp:3949-3953 | the insertion point stays at its place among the remaining statements exactly in the three cases of `CursorSafe` |
| `PirSafety.CreateAtCursor` | PIR/src/InstrHandler.cpp:3819-3828 | a create puts its statement between what came before the insertion point and what came after, and the insertion point is then past it; no other block changes |
| `PirSafety.CreatesInOrder` | PIR/src/InstrHandler.cpp:3819-3828 | any number of creates in a row come out in the order created, at the one insertion point |
| `PirSafety.DeleteGivesBack` | PIR/src/InstrHandler.cpp:3831-3953 | which kinds of statement lose their slot and which keep it; all other slots stay as they are |
| `PirEdits.CreateKeepsTyped` | PIR/src/InstrHandler.cpp:1691-1708 | a create over typed operands keeps the code typed, also when its handle reuses a slot of another type |
| `PirEdits.TypedReplace` | PIR/src/InstrHandler.cpp:146-159 | in typed code, when a value that is no shared constant is replaced by one of its type, every operand is live and local and the code still typed; a statement, extracted result or constant is mentioned nowhere afterwards |
| `PirEdits.EditsKeepClosed` | PIR/src/InstrHandler.cpp:146-818 | over any sequence of creates and of replacements by values of equal type every operand stays live and local, and the code typed |
| `PirEdits.EditsNeverAlias` | PIR/src/InstrHandler.cpp:3831-3953 | after any such sequence the next handle of any kind, reused slot or not, is no statement and is mentioned by none |
| `PirRewrite.InstrRel` | PIR/src/ExecutionEngineExecutor.cpp:143-932 | the rewritten statement does to related frames what the old one did, where either expression may be read |
| `PirRewrite.OriginalStutters` | PIR/src/ExecutionEngineExecutor.cpp:143-932 | executing the original changes nothing that the new program can see |
| `PirRewrite.RunSim` | PIR/src/ExecutionEngineExecutor.cpp:132-147 | the new program goes through the same frames, blocks and shifted positions as the old one, without the steps at the original |
| `PirRewrite.NewStepsGrow` | PIR/src/ExecutionEngineExecutor.cpp:132-147 | the old program cannot stay at the original: in 2k of its steps the new one makes at least k |
| `PirRewrite.ReplacePreservesMeaning` | PIR/src/InstrHandler.cpp:146-818 | where nothing mentions the original afterwards: if it is effect-free and does not fail, and both have the same value wherever it is used, f(args) has the same outcome before and after `replaceExpr`, value, error and stack trace, in both directions |
| `LinearStepAllocs.LocateBijection` | PCIT_core/include/LinearStepAlloc.hpp:286-303 | ID to (buffer, element) is a bijection with inverse 2^(S+b) - 2^S + e |
| `LinearStepAllocs.LocateBelow` | PCIT_core/include/LinearStepAlloc.hpp:260-276 | the IDs below the size are exactly those of constructed cells |
| `LinearStepAllocs.LinearStepAlloc.CreateNewBuffer` | PCIT_core/include/LinearStepAlloc.hpp:279-284 | a new buffer of twice the size; no element moves |
| `LinearStepAllocs.LinearStepAlloc.EmplaceBack` | PCIT_core/include/LinearStepAlloc.hpp:55-66 | appends, returns the old size cut to 32 bits, and keeps every buffer |
| `LinearStepAllocs.LinearStepAlloc.Set` | PCIT_core/include/LinearStepAlloc.hpp:69-77 | an assignment through `operator[]` changes that element only |
| `Slots.EmplaceRefines` | PCIT_core/include/StepAlloc.hpp:49-61 | a fresh ID is never live, and the map gains just that entry |
| `Slots.EraseRefines` | PCIT_core/include/StepAlloc.hpp:64-74 | erasing a live ID removes just that entry, and the erased stack stays duplicate-free and equal to the empty slots |
| `Slots.ResetIffEmpty` | PCIT_core/include/StepAlloc.hpp:70-73 | the reset fires exactly when nothing is left |
| `Slots.EraseCorrectIffLive` | PCIT_core/include/StepAlloc.hpp:64-74 | an unchecked erase is right exactly when the ID is live |
| `Slots.HistoryRefinesMap` | PCIT_core/include/StepAlloc.hpp:49-74 | over any history with erases of live IDs the arena is a finite map |
| `Slots.EraseThenEmplace` | PCIT_core/include/StepAlloc.hpp:49-74 | the slot erased last is the first to be used again, after which the arena is as if the element had been overwritten; once nothing is alive the IDs start at 0 |
| `Slots.EmplacesCount` | PCIT_core/include/StepAlloc.hpp:49-61 | without erases the IDs are 0, 1, 2 and so on |
| `Slots.LiveFromIncreasing` | PCIT_core/include/StepAlloc.hpp:234-247 | the sequence that iteration is compared with holds exactly the live IDs, in increasing order |
| `StepAllocs.StepAlloc.EmplaceBack` | PCIT_core/include/StepAlloc.hpp:49-61 | the object over the buffers does what the arena does; the ID of a new slot is cut to 32 bits |
| `StepAllocs.StepAlloc.Erase` | PCIT_core/include/StepAlloc.hpp:64-74 | the same, with the reset by reconstruction |
| `StepAllocs.StepAlloc.GetBeginId` | PCIT_core/include/StepAlloc.hpp:330-336 | the first live ID, or the size |
| `StepAllocs.StepAlloc.Next` | PCIT_core/include/StepAlloc.hpp:234-247 | the next live ID, or the size |
| `StepAllocs.StepAlloc.Visited` | PCIT_core/include/StepAlloc.hpp:234-247 | from begin to end by `++` exactly the live IDs are visited, in order |
| `RangeMaps.EmplaceKeepsSearchTree` | PCIT_core/include/RangeMap.hpp:27-52 | after an insert the walk for each node's own first bound still leads to it |
| `RangeMaps.LookupAgrees` | PCIT_core/include/RangeMap.hpp:57-75 | for ranges that meet at most at an endpoint, lookup succeeds exactly when a linear scan does, with a range that contains the value |
| `RangeMaps.LookupIsScan` | PCIT_core/include/RangeMap.hpp:57-75 | for disjoint ranges it is the same range |
| `RangeMaps.InsertsThenLookup` | PIR/include/ExecutionEngine.hpp:142-151 | the same after any sequence of inserts into an empty map |
| `RangeMaps.RangeMap.Emplace` | PCIT_core/include/RangeMap.hpp:27-52 | the loop over heap nodes ends and links the new node where the walk ends; nothing else changes |
| `RangeMaps.RangeMap.LookupValue` | PCIT_core/include/RangeMap.hpp:57-75 | the loop over heap nodes ends with the value of the range found and the offset from its first bound |
| `Multiples.CeilIsLeast` | PCIT_core/include/math.hpp:16-18 | on words of any width the mask trick gives the least multiple at or above its input exactly when the addition does not overflow |
| `Multiples.CeilIsRoundUp` | PCIT_core/include/math.hpp:16-18 | without overflow it is the rounding that the layout's sizes use |
| `Multiples.PeriodExact` | PIR/src/Module.cpp:93-96 | step i of size s reaches a multiple of 2^k exactly when the period of s divides i |
| `Multiples.BitCeilLeast` | PIR/src/Module.cpp:71-73 | the power of two chosen for an integer's bytes is at least that, and less than twice |
| `Layout.ComputeNumBytes` | PIR/src/Module.cpp:61-135 | the loops over members and fields compute the size of the specification, with and without padding |
| `Layout.StructAlignment` | PIR/include/Module.hpp:644-649 | the default alignment is the largest of a member, at least 1 |
| `Layout.RunCalcPtr` | PIR/src/ExecutionEngineExecutor.cpp:849-932 | the loop over the indices reaches the type and address of the specified walk, or its error, the bad and the null base included |
| `LayoutLaws.PrimitiveLayout` | PIR/src/Module.cpp:61-180 | the sizes and alignments of void, bool, pointers, functions and the five floats, as numbers |
| `LayoutLaws.IntLayout` | PIR/src/Module.cpp:65-79 | an integer has the fewest bytes that hold its bits; padded, the next power of two or, from eight pointers on, the next multiple of a pointer; alignment is the next power of two, at most two pointers |
| `LayoutLaws.StructLayout` | PIR/src/ExecutionEngineExecutor.cpp:899-932 | members lie where `CALC_PTR` finds them: the first at 0, each other at the least aligned place after the one before; the struct ends with the last, padded to the least multiple of its alignment |
| `LayoutLaws.PackedLayout` | PIR/src/Module.cpp:103-106 | without padding a packed struct is the sum of its members' unpadded sizes |
| `LayoutLaws.ArrayLayout` | PIR/src/Module.cpp:93-96 | elements lie one right after the other, from the start of the array to its end |
| `LayoutLaws.UnionLayout` | PIR/src/Module.cpp:119-129 | a union is as large as its largest field, and at least one byte |
| `LayoutLaws.OneMoreIndex` | PIR/src/ExecutionEngineExecutor.cpp:879-932 | what one more index does to any `CALC_PTR`: errors stay, arrays and structs refuse an index out of range each in its own way, anything else steps by whole values |
| `LayoutLaws.FirstIndex` | PIR/src/ExecutionEngineExecutor.cpp:849-876 | the bad and the null base, and the first index alone |
| `LayoutLaws.FirstIndexIsElement` | PIR/src/ExecutionEngineExecutor.cpp:873-876 | the first index does what the second one does in an array of such objects |
| `LayoutLaws.FirstIndexShifts` | PIR/src/ExecutionEngineExecutor.cpp:873-876 | for all integers, moving the base by whole objects is moving the first index |
| `LayoutLaws.PlainIndicesAdd` | PIR/src/ExecutionEngineExecutor.cpp:928-932 | into a type with nothing inside, the indices add up |
| `Layout.AlignmentDividesSize` | PIR/src/Module.cpp:61-180 | without unions and wide integers the alignment is a power of two that divides the padded size |
| `Layout.IntAlignmentDivides` | PIR/src/Module.cpp:65-79 | for an integer it does so exactly when it is below the wide threshold or an even number of pointers long |
| `Layout.UnionAlignmentDivides` | PIR/src/Module.cpp:119-129 | a union's alignment divides its size exactly when it is 1 or divides the size of a largest field that is not empty |
| `Layout.UnionOfAlignedFields` | PIR/src/Module.cpp:119-129 | it is enough that a largest field is plain and has the union's own alignment |
| `Layout.UnionSizeNotRounded` | PIR/src/Module.cpp:119-129 | a union whose size its alignment does not divide |
| `Layout.AlignedElements` | PIR/src/ExecutionEngineExecutor.cpp:882-897 | in an aligned array of any type the aligned elements are exactly those at multiples of the period of its size |
| `Layout.PathContained` | PIR/src/ExecutionEngineExecutor.cpp:879-932 | an in-bounds path through arrays and structs that fit, packed ones included, leads to bytes inside the object, at any depth |
| `Layout.PathsSeparate` | PIR/src/ExecutionEngineExecutor.cpp:879-932 | two paths that part at an array index or a struct member lead to disjoint bytes, at any depth |
| `Layout.PathAligned` | PIR/src/ExecutionEngineExecutor.cpp:879-932 | from an aligned base an in-bounds path reaches an address aligned for its type |
| `LayoutLaws.CalcPtrStaysInside` | PIR/src/ExecutionEngineExecutor.cpp:849-932 | a `CALC_PTR` whose first index is one of n objects side by side, and whose others are in bounds, leads to bytes inside them; aligned, if the base is and the objects are plain |
| `LayoutLaws.CalcPtrsSeparate` | PIR/src/ExecutionEngineExecutor.cpp:849-932 | two of them that choose different objects, or part within one, lead to disjoint bytes |
| `GlobalPlaces.RunMemberStart` | PIR/src/ExecutionEngine.cpp:420-429 | the loop over the members of a global struct: where each is written |
| `GlobalPlaces.FoundIffNoGaps` | PIR/src/ExecutionEngine.cpp:402-430 | for every part of every global, `CALC_PTR` looks where lowering wrote it exactly when no struct on the way has padding at or before the member taken |
| `GlobalPlaces.PaddedMemberMissed` | PIR/src/ExecutionEngine.cpp:420-429 | a 32-bit integer written at 65 and looked for at 68 |
| `Layout.MembersInsideIff` | PIR/src/ExecutionEngineExecutor.cpp:899-924 | `CALC_PTR` keeps all members of a struct, packed or not, inside it exactly when the unpadded size of the same struct unpacked is at most the struct's own size |
| `Layout.PackedEscapes` | PIR/src/ExecutionEngineExecutor.cpp:899-924 | a packed struct whose last member `CALC_PTR` places outside |
| `TypeTables.CreateKeepsOrdered` | PIR/include/Module.hpp:608-667 | every entry mentions only handles made before it, over any creates |
| `TypeTables.DenoteStable` | PIR/src/Module.cpp:93-116 | what a handle stands for is found by a recursion that ends, and never changes |
| `TypeTables.ArrayHandlesEqualIff` | PIR/include/Module.hpp:608-624 | however much is created in between, two array handles are equal exactly when element handle and length are |
| `TypeTables.NewHandleMeans` | PIR/include/Module.hpp:608-733 | the handle of a new type stands for the array, struct or union that was asked for, part by part, with its length, alignment and packing |
| `TypeTables.LeafHandlesMean` | PIR/src/Module.cpp:61-91 | the types without a table stand for themselves |
| `TypeTables.ChosenIs` | PIR/include/Module.hpp:644-649 | an explicit alignment is taken as it is; the default is the least that is enough for 1 and for every member |
| `TypeTables.CreateKeepsPlain` | PIR/include/Module.hpp:608-667 | types made from plain parts are plain, so that alignment divides their size |
| `TypeTables.DefaultStructIsPlain` | PIR/include/Module.hpp:644-649 | the default alignment is always a power of two not below any member's |
| `TypeTables.TypeModule.GetOrCreateArrayType` | PIR/include/Module.hpp:608-624 | the scan finds the first equal entry or appends one |
| `TypeTables.TypeModule.GetAlignment` | PIR/src/Module.cpp:138-180 | the recursion through the tables ends and gives the alignment of the type that the handle stands for |
| `TypeTables.TypeModule.CreateStructType` | PIR/include/Module.hpp:633-667 | appends the struct with the explicit alignment, or the default one |
| `TypeTables.TypeModule.CreateUnionType` | PIR/include/Module.hpp:700-733 | the same for a union |
| `Names.NameExistsInFunc` | PIR/src/InstrHandler.cpp:3957-4137 | the loops find a name just if a parameter, alloca, block or statement result has it |
| `Names.AllNamesHas` | PIR/src/InstrHandler.cpp:3957-4137 | the names of a function are those of its parameters, allocas, blocks and statement results |
| `Names.CandidatesAre` | PIR/src/InstrHandler.cpp:4151-4173 | the candidates are the name itself and then name.1, name.2 and so on in decimal; for an empty name from .1 on |
| `Names.DecimalIsWorth` | PIR/src/InstrHandler.cpp:4166-4169 | the suffix is the decimal of its number, without leading zeros |
| `Names.CandidatesDistinct` | PIR/src/InstrHandler.cpp:4151-4173 | no two candidates of the search are equal |
| `Names.FreshNameIsFresh` | PIR/src/InstrHandler.cpp:4145-4174 | the name found is used nowhere, is the first free candidate, and is found after at most one candidate more than names in use |
| `Names.GetStmtNameWithForwardInclude` | PIR/src/InstrHandler.cpp:4145-4174 | the loop ends with that name |
| `Names.WrapNamesFresh` | PIR/src/InstrHandler.cpp:2109-2112 | the two names of a wrap instruction differ from each other and from all others |
| `Names.CreateSAddWrap` | PIR/src/InstrHandler.cpp:2100-2118 | the statement is inserted with just those two names |
| `Names.WithStmtAt` | PIR/src/InstrHandler.cpp:2112-2117 | where the statement goes, and that everything else stays |
| `Names.CreatesKeepUnique` | PIR/src/InstrHandler.cpp:4145-4174 | over any sequence of creates all names of a function stay distinct |
| `Names.SuffixedApart` | PIR/src/InstrHandler.cpp:4166-4169 | suffixed candidates of different names never meet |
| `Names.NoForwardIncludeRepeats` | PIR/src/InstrHandler.cpp:3426-3431 | without the forward include the function's names stop being distinct exactly when the two requested names are equal, or one is unused and is where the search for the other ends |

## Left out

- Thread pool: `shutdown` and stop requests, and batches started after a batch in which a task failed; `work_func` is one step that returns or fails.
- Memory orders: atomic accesses are taken as sequentially consistent, as the source's default orders are.
- PirMachine.Executor.RunFunctionImpl: takes a number of steps, because the original loop need not end; `CallRefines` is about all numbers of steps.
- Loads, stores, allocas, atomics, inline assembly, WASM and debug statements, external functions and calls through pointers: foreign or machine-level.
- Arithmetic of `GenericInt` and `GenericFloat`: their sources are not part of this model; register values are numbers and opcodes are any functions of them.
- Parameters are values: that a parameter points into the caller's register, which does not change while the callee runs, is not modelled.
- `CALC_PTR` in the interpreter reads all its index expressions before it computes; on an error the original still writes a register that the failed run never reads.
- PirHandler.InstrHandler.ReplaceExpr: the operands of one instruction are replaced by a function on the instruction, not by a loop over the instruction's fields in memory; a statement's slot is still overwritten in place, in the original's order.
- PirRewrite.ReplacePreservesMeaning: an original that is a call is not covered, because it is not effect-free in general; a switch counts as a use of all its case values.
- Locks of the containers: `StepAlloc`, `RangeMap` and the type tables are modelled one call at a time.
- `StepAlloc::Iter::operator++` reads the slot before it tests for the end; only `ConstIter` is modelled.
- Layout: sizes and addresses are unbounded; `Multiples.CeilIsLeast` says when 64-bit rounding does not overflow. `BOOL32` has the size of `BOOL`, as in the source.
- TypeTables: function types have no table here; names of structs and unions are not stored.
- LoweringObject.LoweringEngine.LowerGlobalValue: writes the references of a global, in order; where its parts go is in `GlobalPlaces`; the bytes of constants, and the offset that a `CalcPtr` adds to a reference, are not modelled.
- ThreadPool.ReachableInv: a batch started after one in which a task failed is excluded, because a worker of the old batch may still raise the flag or stop others in the new one.
- Names: the suffix is unbounded; of instructions that get several names without a forward include only two names are modelled.
- LoweringObject.LoweringEngine.GetOrCreateLoweredGlobalValue: one thread, so the spin is not a loop there; the transition system in `GlobalLowering` has it. The bytes written are the references, in order; padding and constants are left out.
- MapAllocs: `getExisting`, `emplace` and `hasValue`, which add only easy members.
- Printing, JIT, debugger, pass manager, thread queue and single-threaded work queue.
