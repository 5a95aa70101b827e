# A verified model of the SemantiST core algorithms

SemantiST compiles and fuzzes IEC 61131-3 Structured Text. This project models the algorithms of the
pipeline on which its promises rest, and proves those promises for every input, every run or every
reachable state. Tools that the pipeline launches, clocks, regular expressions over LLVM text, similarity
values and the code under test appear as function parameters: each theorem holds for every choice of them.

Modules, one for each source component:

- `ControlFlow`, `LoopBudget`, `ScanBudget`: loop headers, tick instrumentation, and the scan budget over all
  the activations of one scan, down to "every scan ends or aborts".
- `CallModel`, `CycleEffects`, `EffectFacts`, `EffectModel`: the call-effect walk, fact by fact, and the worklist
  that feeds it.
- `PointerTaint`: the pointer taint loop.
- `Closure`: the dependency postorder.
- `StructLayout`, `RegionLayout`, `TypeLayout`, `PointerOffsets`, `PointerAlignment`: struct and region layout,
  sizes with the shared cache, pointer offsets and when they are aligned.
- `FrameCases`, `RecordText`, `FrameText`: the testcase format from records down to characters. `FrameMeaning`,
  `TextMeaning`, `CanonicalOrder`: which testcase a text describes, and in which order it is listed.
- `ScanRun`, `Executor`: the frame executor on a testcase text. `ScanMeaning`, `ExecutorMeaning`: its steps by the
  positions of the records. `ScanAgreement`: the executor against the parser.
- `HarnessState`, `HarnessRun`: checkpoint, restore and reset, and the executor's steps in such a process.
- `PlanActions`, `PlanCheck`, `PlanExpansion`: the plan language. `PlanMeaning`: its frames, assignment by assignment.
- `CloneFamilies`: union-find and near families. `Minimizer`: delta debugging. `CallBudget`: the concurrent
  call reservation.
- `Lexer`, `UnitSplit`, `Keywords`: the lossless tokenizer and the unit splitter. `Lexemes`, `UnitMeaning`: the texts of
  the tokens, and what the splitter takes for members and namespaces.
- `Graphs`, `Arithmetic`, `Wrappers`: walks, cycles and ranks in finite graphs; products as repeated sums
  (`Times(a, b)` is a * b); optional values and results.

Code that updates state in place is modelled by classes and methods with loops, each proved against a
specification function or a declarative statement; recursion and case analysis are functions.

## What turned out differently from the design

- Canonicalising twice. With a delta_t range in force, `canonicalize` is not always idempotent: a text
  without frame records gets one frame without delta_t, and a second pass lists the scan period; without
  listed delta_t, a second pass refuses when the scan period is out of range. The exact condition is in
  `FrameText.CanonicalizeIdempotentExactly`; `FrameText.EmptyTextNotStable` and `FrameText.UnlistedDtNotStable`
  are accepted inputs of the two kinds.
- Round trip. A testcase is read back from its canonical text exactly when, under a delta_t range, each of
  its frames has a delta_t in it (`FrameText.TextRoundTrip`).
- Executor buffers. A text without a line feed at its end whose lines all go to the same buffer hits the
  size abort of `semantist_v3_execute`. `Executor.OverrunExactly` gives the exact condition,
  `Executor.LoneLineOverruns` a family of inputs; canonical texts never abort.
- Executor and parser. On records that list the frames in order and that both accept, the executor takes the steps of
  the parsed frames exactly when frame 0 sets every field: the parser starts from shared values and defaults, the
  executor from nothing (`ScanAgreement.ExecutorAgrees`).
- Effect extraction. An extractor that answers every name asked for can still leave names unresolved: an answer that
  also has a known name does not join (`EffectModel.ClashStaysOpen`). When two POUs have the same names or none in
  common, everything asked for becomes known and the status is COMPLETE unless the limit or the clock stops the loop
  (`EffectModel.ResolveEffectModel`).
- Plans and BOOL. The plan checker accepts the real 1.0 for a BOOL, and the frame then reads "1.0", which the
  testcase validation refuses. `PlanExpansion.WholeExactly` gives the exact condition, `PlanExpansion.RealBoolAccepted`
  an input.
- Loop ticks. With the limit 2^64 - 1 the 64-bit counter wraps before the comparison can hold, so no scan
  is aborted, calls included (`ScanBudget.VisitsNeverAbort`). A graph keeps the bound on its walks exactly for smaller limits or without cycles
  (`ScanBudget.BudgetedExactly`).
- Recursion. Ticks stand in loops alone. Below that limit, a program has a bound on the block visits of every
  scan that is not aborted exactly when no routine can call itself, through others or not, before a tick
  (`ScanBudget.ScanBoundedExactly`); otherwise there are scans of any size that never tick
  (`ScanBudget.RecursionUnbounded`).
- Phi lines. The tick is meant to follow the phi nodes, but the pass skips lines that start with `phi `, while
  LLVM writes `%x = phi ...`. So a tick stands in front of a phi exactly in header blocks that have one
  (`LoopBudget.PhiAfterTickExactly`); `LoopBudget.TickBeforePhi` is the smallest such block.
- Call budget. A thread between counting and release is counted twice, so a refusal can come early: exactly
  when calls are left, but no more than there are such threads (`CallBudget.RefusalExact`;
  `CallBudget.EarlyRefusal` is a run). The limit itself is never exceeded.
- Checkpoints. Restore equals cold replay even when regions overlap: disjointness is not needed.
- Types of odd width. "Size is a multiple of alignment" holds for a type exactly under the condition in
  `TypeLayout.SizeDividesExactly`: integers of more than 64 bits, alone or in arrays, are the only exceptions.
- Pointers at odd places. `x86_fp80` has size and alignment 10 here, so behind one a pointer can miss the
  multiples of eight: `PointerAlignment.LongDoubleOffEight` is an input, `PointerAlignment.LeavesEvenExactly`
  gives the exact condition, and without such a float the offsets are aligned whatever the integers
  (`PointerAlignment.EvenFloatsAligned`).

## Model

| member | source | states |
|---|---|---|
| `ControlFlow.HeaderSearch.Visit` | compiler/instrumentation/loop_budget.py:83-97 | one call of the depth-first visit: its node is finished, nodes finished before keep their finishing numbers, new headers are open or newly visited, and the search invariant (stack is a walk, edges into non-headers fall) holds again |
| `ControlFlow.HeaderSearch.FollowSuccessors` | compiler/instrumentation/loop_budget.py:88-95 | after the successor loop each successor is on the stack and marked, or finished; only open or newly visited nodes are newly marked |
| `ControlFlow.LoopHeaders` | compiler/instrumentation/loop_budget.py:77-102 | the headers are labels of blocks on cycles, and every cycle of the block graph contains one of them |
| `ControlFlow.HeaderFreeFalls` | compiler/instrumentation/loop_budget.py:92-97 | along a walk that enters no header, finishing numbers strictly fall |
| `ControlFlow.SettledCuts` | compiler/instrumentation/loop_budget.py:99-102 | so a finished search cuts every cycle |
| `ControlFlow.AcyclicNeedsNoHeader` | compiler/instrumentation/loop_budget.py:77-102 | an acyclic function has no header |
| `ControlFlow.RepeatEntersHeader` | compiler/instrumentation/loop_budget.py:77-102 | any walk that repeats a block visits a header in between |
| `ControlFlow.WalkBound` | compiler/instrumentation/loop_budget.py:77-102 | a walk over n blocks with v visits of headers has at most (v + 1) * n blocks |
| `LoopBudget.ParseFunction` | compiler/instrumentation/loop_budget.py:48-70 | prefix and blocks partition the body line by line; labels open blocks, the last terminator gives the successors, phi lines are counted |
| `LoopBudget.ParseUnique` | compiler/instrumentation/loop_budget.py:48-70 | a body has only one such partition |
| `LoopBudget.SuccessorsAre` | compiler/instrumentation/loop_budget.py:64-70 | the successors of a block are the labels of its last terminator line |
| `LoopBudget.InstrumentBlock` | compiler/instrumentation/loop_budget.py:142-152 | a header block gains one tick behind its label and leading phi lines, another block is copied |
| `LoopBudget.TickPlaced` | compiler/instrumentation/loop_budget.py:144-152 | the tick stands in front of the first line behind the label that does not start with `phi ` |
| `LoopBudget.PhiAfterTickExactly` | compiler/instrumentation/loop_budget.py:144-152 | a phi instruction stands behind the tick exactly in a header block that has one |
| `LoopBudget.PhisKeptExactly` | compiler/instrumentation/loop_budget.py:141-152 | a rewritten function keeps its phi instructions in front exactly when no header block has one |
| `LoopBudget.TickBeforePhi` | compiler/instrumentation/loop_budget.py:145-149 | a header block with one phi instruction gets its tick in front of it |
| `LoopBudget.InstrumentFunction` | compiler/instrumentation/loop_budget.py:134-152 | a function is rewritten by its own headers, and the count is the number of header blocks |
| `LoopBudget.FunctionErases` | compiler/instrumentation/loop_budget.py:134-152 | erasing the ticks gives the body back, and their number is the count |
| `LoopBudget.CollectBody` | compiler/instrumentation/loop_budget.py:119-130 | a function body runs from its definition to the first balanced closing line |
| `LoopBudget.Instrument` | compiler/instrumentation/loop_budget.py:105-153 | an instrumented source is left alone; otherwise every function is rewritten, the count is the number of ticks, and erasing ticks and declaration restores the source lines; the declaration stands where the first function starts and nowhere else, and a source without a function comes back unchanged |
| `LoopBudget.InstrumentedParse` | compiler/instrumentation/loop_budget.py:48-70 | parsing the rewritten body gives the same block graph, with one tick in every header block and none elsewhere |
| `ScanBudget.RunCounts` | compiler/harness/v3gen.py:383-393 | from any count, and with any further ticks in called functions, the counter after a walk is the sum of the ticks, until it passes the limit |
| `ScanBudget.BudgetedWalk` | compiler/harness/v3gen.py:383-393 | a walk from count k that is not aborted has at most (limit - k + 1) * n blocks, whatever its calls tick |
| `ScanBudget.ActivationEndsOrAborts` | compiler/harness/v3gen.py:383-393 | every activation of an instrumented function, from any count and with any ticks in its calls, keeps that bound or is aborted |
| `ScanBudget.VisitsCount` | compiler/harness/v3gen.py:383-393 | over a whole tree of activations the counter adds up all ticks |
| `ScanBudget.TreeBound` | compiler/harness/v3gen.py:383-393 | the block visits of a tree of activations are bounded by its ticks, the blocks, the calls in a block and the depth |
| `ScanBudget.ScanEndsOrAborts` | compiler/harness/v3gen.py:383-393 | every scan of instrumented routines whose calls before a tick can be ranked ends within an explicit bound, calls included, or reaches the tick abort |
| `ScanBudget.TicklessEdge` | compiler/harness/v3gen.py:383-393 | the graph of calls before a tick: an edge is a walk from the entry block, without a tick, to a block that may call the other routine |
| `ScanBudget.ScanBoundedExactly` | compiler/harness/v3gen.py:383-393 | for a limit below 2^64 - 1, one bound holds for all scans of instrumented routines that are not aborted exactly when that graph is acyclic |
| `ScanBudget.FunctionIsInstrumented` | compiler/instrumentation/loop_budget.py:134-152 | a rewritten function is instrumented in the sense of that theorem |
| `ScanBudget.RecursionUnbounded` | compiler/harness/v3gen.py:383-393 | on a cycle of that graph there are scans of any number of block visits that execute no tick |
| `ScanBudget.LargestLimitNeverAborts` | compiler/harness/v3gen.py:383-393 | with the limit 2^64 - 1 no walk is aborted |
| `ScanBudget.VisitsNeverAbort` | compiler/harness/v3gen.py:383-393 | nor is a whole tree of activations, from any count |
| `ScanBudget.BudgetedExactly` | compiler/harness/v3gen.py:383-393 | all walks of a graph keep the bound or are aborted exactly when the limit is smaller than 2^64 - 1 or the graph has no cycle |
| `CycleEffects.EnteredExact` | fuzzer/pipeline/goal_tasks.py:63-100 | the nodes that the un-marking search enters are exactly the reachable ones |
| `CycleEffects.RecursExact` | fuzzer/pipeline/goal_tasks.py:68-71 | the search meets a node that it is visiting exactly when a reachable node lies on a cycle |
| `CycleEffects.EffectWalk.Inspect` | fuzzer/pipeline/goal_tasks.py:63-100 | one inspection adds exactly the facts of the names it enters, for any set being visited |
| `CycleEffects.EffectWalk.InspectCalls` | fuzzer/pipeline/goal_tasks.py:87-97 | the call loop adds the facts of the calls and of what they enter |
| `CycleEffects.AbiFacts` | fuzzer/pipeline/goal_tasks.py:45-54 | the reasons and unknowns of the ABI fields |
| `CycleEffects.WalkIsExact` | fuzzer/pipeline/goal_tasks.py:101-104 | the result of the walk is the union of local facts over all reachable names, with recursion exactly on a reachable cycle |
| `CycleEffects.CycleEffects` | fuzzer/pipeline/goal_tasks.py:20-110 | reasons, unknown reasons and mode are the declared unions on every finite call graph |
| `CycleEffects.QuietExact` | fuzzer/pipeline/goal_tasks.py:71-99 | a POU contributes nothing exactly when it is a function without stateful parts whose calls are resolved |
| `CycleEffects.SingleCycleExact` | fuzzer/pipeline/goal_tasks.py:105 | the mode is single_cycle exactly when the ABI is quiet and the reachable call graph is closed, acyclic and effect-free |
| `EffectFacts.ReasonsExact` | fuzzer/pipeline/goal_tasks.py:45-105 | each reason is reported exactly when the ABI gives it or a POU that the calls reach does, by its symbols, calls, stores or state |
| `EffectFacts.UnknownExact` | fuzzer/pipeline/goal_tasks.py:23-105 | each unknown is reported exactly when the ABI, a missing model or target, a reached POU or recursion leaves it open |
| `EffectFacts.ByNameExact` | fuzzer/pipeline/goal_tasks.py:58-60 | a name means the last POU that has it as its name or qualified name |
| `EffectModel.Adopt` | compiler/stg/effects.py:43-47 | exactly those extracted POUs join, in order, that have a name and share none with the POUs before and with those that joined before them |
| `EffectModel.Explore` | compiler/stg/effects.py:30-48 | the worklist ends for every extractor and clock; every round hands out all open names or as many as the limit leaves, each name once, the answer joins the model, and the loop ends for a failure, without open names, at the limit or by the clock alone |
| `EffectModel.ResolveEffectModel` | compiler/stg/effects.py:22-59 | also: unresolved is called minus known, COMPLETE means closed without an error, and BUDGET_EXHAUSTED means incomplete with names left to attempt and the limit or the deadline reached at the last reading of the clock; a coherent extractor that answers every name leaves nothing asked for unknown, and ends COMPLETE unless the limit or the clock stops it |
| `EffectModel.AnswersComplete` | compiler/stg/effects.py:30-48 | whatever the rounds: a coherent extractor that answers every name does not fail and leaves nothing tried unknown |
| `EffectModel.ClashStaysOpen` | compiler/stg/effects.py:45 | an answer that shares a name with its caller does not join, and the name asked for stays unresolved |
| `EffectModel.TargetsUnchanged` | compiler/stg/effects.py:43-47 | extraction does not change which POU a name of the target model means |
| `EffectModel.ClosedResolves` | compiler/stg/effects.py:49-53 | on a complete model every named non-external call is resolved |
| `EffectModel.CompleteLeavesExternalOnly` | fuzzer/pipeline/goal_tasks.py:91-97 | so the effect walk reports an unavailable callee for external calls alone |
| `PointerTaint.PointerSymbols` | fuzzer/pipeline/probe_audit.py:39-45 | the pointer symbols and the greatest pointer width |
| `PointerTaint.Round` | fuzzer/pipeline/probe_audit.py:53-73 | one round keeps taint needed and reports justified, and changes nothing only at a closed set |
| `PointerTaint.PlatformAssumptions` | fuzzer/pipeline/probe_audit.py:36-76 | the bound of len(assignments) + 1 rounds suffices: the loop stops at the least closed set and reports what one pass over it reports |
| `PointerTaint.ReportedExactly` | fuzzer/pipeline/probe_audit.py:56-70 | a (file, line) is reported exactly when an assignment there reads a tainted symbol into a narrower integer |
| `PointerTaint.RecordedExactly` | fuzzer/pipeline/probe_audit.py:58-70 | the record of a key is that of the last such assignment, with the semantic width if there is one |
| `PointerTaint.TaintIsChained` | fuzzer/pipeline/probe_audit.py:54-73 | taint is reachability along assignments from a pointer |
| `Closure.ClosureSearch.Visit` | compiler/intake/closure.py:104-114 | one visit lists its file once behind those listed before, and keeps the finishing order |
| `Closure.DependencyClosure` | compiler/intake/closure.py:97-117 | every reachable existing file except the root is listed exactly once, with a reason that some file states, dependencies first unless they depend back |
| `Closure.AcyclicDependencyFirst` | compiler/intake/closure.py:97-117 | without cycles each file comes after all of its dependencies |
| `StructLayout.PadStep` | compiler/harness/llvm_ir.py:153-154 | the padding step gives the least multiple at or above the offset |
| `StructLayout.AlignUpIsPad` | compiler/harness/contract.py:128-131 | `align_up` gives the same |
| `StructLayout.PadIsLeast` | compiler/harness/contract.py:128-131 | it is aligned, at least the value, and least with both |
| `StructLayout.FieldsFit` | compiler/harness/llvm_ir.py:161-173 | offsets are aligned, ordered, apart and inside the struct size |
| `StructLayout.StructSizeMultiple` | compiler/harness/llvm_ir.py:156-158 | the struct size is the least multiple of its alignment that holds the fields |
| `RegionLayout.Layout` | compiler/harness/contract.py:186-196 | the running offsets, total and alignment of `region_layout` for every base |
| `RegionLayout.RegionsAreStruct` | compiler/harness/contract.py:186-196 | on the same sizes and alignments the two layout algorithms give the same offsets and total |
| `RegionLayout.ZeroFits` | compiler/harness/contract.py:186 | the default base 0 meets the condition on the base |
| `TypeLayout.AcyclicIsRanked` | compiler/harness/llvm_ir.py:132-142 | acyclic definitions can be ranked, so cache-free recursion ends |
| `TypeLayout.NamedSizeAlign` | compiler/harness/llvm_ir.py:132-142 | a named type returns its cache-free layout and leaves the shared cache sound, whatever placeholders it holds for the names being computed |
| `TypeLayout.StructSizeAlign` | compiler/harness/llvm_ir.py:146-158 | the loop over fields gives the struct of their cache-free layouts |
| `TypeLayout.TypeSizeAlign` | compiler/harness/llvm_ir.py:108-143 | for acyclic definitions size and alignment are those of cache-free recursion, with an error exactly for an undefined name; scalars take the least bytes that hold them and are aligned to these, or to 16 beyond 64 bits for an integer, and aggregates follow from their parts |
| `TypeLayout.LayoutMeans` | compiler/harness/llvm_ir.py:108-158 | cache-free recursion gives the least bytes for scalars, count times the element for arrays, and for structs the greatest alignment and the least size for fields at least offsets; the first undefined field is the error |
| `TypeLayout.LayoutRankFree` | compiler/harness/llvm_ir.py:108-143 | the cache-free layout does not depend on the ranking |
| `TypeLayout.FieldLayout` | compiler/harness/llvm_ir.py:161-173 | offsets and sizes of the fields, by cache-free layouts |
| `TypeLayout.FieldLayoutFits` | compiler/harness/llvm_ir.py:146-173 | they are aligned, ordered, apart and inside the size of `struct_size_align` |
| `TypeLayout.RegularDivides` | compiler/harness/llvm_ir.py:108-158 | for types built from power-of-two scalars every alignment is a power of two that divides the size |
| `TypeLayout.IntDividesExactly` | compiler/harness/llvm_ir.py:117-123 | an integer's alignment divides its size exactly under a condition on its bits |
| `TypeLayout.SizeDividesExactly` | compiler/harness/llvm_ir.py:108-158 | the alignment of a type divides its size exactly unless it is, through arrays, an integer of more than 64 bits that is not repeated to a multiple of 16 bytes |
| `PointerOffsets.OffsetsOf` | compiler/harness/contract.py:235-256 | the list is the pointer leaves of the type at the base; for an undefined layout it is empty when the type is itself a dangling name, and otherwise the error names the missing definition |
| `PointerOffsets.ListedIsLeaf` | compiler/harness/contract.py:235-256 | every listed offset is the place of a pointer leaf |
| `PointerOffsets.LeafIsListed` | compiler/harness/contract.py:235-256 | every pointer leaf is listed |
| `PointerOffsets.LeavesSpaced` | compiler/harness/contract.py:235-256 | offsets are in bounds, strictly increasing and at least 8 apart |
| `PointerOffsets.LeavesAligned` | compiler/harness/contract.py:235-256 | offsets are 8-aligned for an aligned base and power-of-two scalars |
| `PointerAlignment.LeavesEvenExactly` | compiler/harness/contract.py:235-256 | for any scalars and base the offsets are 8-aligned exactly when each field with a pointer lies well and an array that holds two pointers or more has elements of a multiple of eight bytes |
| `PointerAlignment.HoldsExactly` | compiler/harness/contract.py:235-256 | a type has an offset in the list exactly when it holds a pointer, through arrays that are not empty, fields and names |
| `PointerAlignment.LeavesMove` | compiler/harness/contract.py:235-256 | the list at a moved base is the list moved |
| `PointerAlignment.HolderIsEven` | compiler/harness/llvm_ir.py:108-158 | without floats of an odd width above eight bytes, a type that holds a pointer has a size and an alignment that are multiples of eight |
| `PointerAlignment.EvenFloatsAligned` | compiler/harness/contract.py:235-256 | then offsets are 8-aligned for every 8-aligned base, whatever the integer widths |
| `PointerAlignment.LongDoubleOffEight` | compiler/harness/llvm_ir.py:124-126 | an array of two structs of an x86_fp80 and a pointer has its pointers at 16 and 46 |
| `HarnessState.RestoreAgrees` | compiler/harness/v3gen.py:324-344 | writing back what was gathered makes the regions agree, overlapping or not |
| `HarnessState.RestoreIsReplay` | compiler/harness/v3gen.py:324-344 | restoring a checkpoint of any prefix into any state and stepping any suffix ends like the cold run of both |
| `HarnessState.Process.Checkpoint` | compiler/harness/v3gen.py:324-333 | the cursor loop writes the regions in order and the harness state |
| `HarnessState.Process.Restore` | compiler/harness/v3gen.py:335-344 | the cursor loop copies them back |
| `HarnessState.Process.Reset` | compiler/harness/generator.py:412-438 | first records the regions, later restores them: they always agree with those at boot |
| `HarnessState.Process.Init` | compiler/harness/v3gen.py:815-827 | whatever ran before, the captured state is that of a fresh process |
| `HarnessState.Process.Step` | compiler/harness/v3gen.py:830-856 | clock and frame index advance with 64-bit wrap-around, ticks restart, the target runs; nothing without init |
| `HarnessState.Process.RunInput` | compiler/harness/v3gen.py:858-861 | over any sequence of inputs in one process each ends as in a fresh process |
| `HarnessState.StepRunsOnce` | compiler/harness/v3gen.py:830-856 | a step runs the target once on the advanced clock and index with no ticks spent, and keeps all other fields |
| `HarnessState.InitMeans` | compiler/harness/v3gen.py:815-827 | init runs the setup on a harness of zeroes and leaves clock, index and budget flag at zero |
| `HarnessRun.CanonicalInProcess` | compiler/harness/v3gen.py:324-344 | the steps of a canonical text, as inputs of the process, give its frame count and the sum of delta_t, and a checkpoint after any frame, restored into any state, leads to the same end |
| `RecordText.ValueOfDecimal` | fuzzer/corpus/frames.py:84-88 | a printed frame number is read back |
| `RecordText.SplitPrefixed` | fuzzer/corpus/frames.py:84-88 | a frame prefix is split off its field name |
| `RecordText.SplitUnlines` | fuzzer/corpus/frames.py:126 | written lines are what splitting into lines yields |
| `RecordText.CutLine` | fuzzer/corpus/frames.py:68-75 | a record line is cut back into name, type and value, commas in the value included |
| `FrameText.ReadsPrinted` | fuzzer/corpus/frames.py:179-215 | reading a printed record gives the record |
| `FrameText.TextYieldsClean` | fuzzer/corpus/frames.py:179-215 | values that were read are trimmed, on one line, and of declared fields |
| `FrameCases.BuildInTurn` | fuzzer/corpus/frames.py:221-237 | the loop that carries `previous` gives each frame what it inherits and its own records, with delta_t or the scan period in range |
| `FrameCases.ParseRecords` | fuzzer/corpus/frames.py:173-249 | collecting, building and validating as the specification `Parse` |
| `FrameMeaning.ParseReads` | fuzzer/corpus/frames.py:173-249 | parsing yields a testcase exactly when the records describe it: a field has the value of its last record in the frame, or that of the frame before, in frame 0 the shared value or the default; frames are numbered without a gap, delta_t is the last given or the scan period, in range; so it refuses exactly when they describe none |
| `FrameMeaning.ValidMeans` | fuzzer/corpus/frames.py:400-416 | a testcase is valid exactly with declared names, the fields and no others in every frame, values that pass, and delta_t from 0 to 2^64 - 1 |
| `FrameCases.ListRecords` | fuzzer/corpus/frames.py:111-126 | the loops of `canonical` list the records of the specification |
| `FrameCases.AddCanonical` | fuzzer/corpus/frames.py:179-215 | collecting the canonical records of a testcase gives back its shared map, values and delta_t |
| `FrameCases.ParseCanonical` | fuzzer/corpus/frames.py:154-249 | canonical records with or without delta_t are read as the same frames, with the scan period or none where delta_t is missing |
| `FrameCases.RoundTrip` | fuzzer/corpus/frames.py:154-249 | with delta_t listed the testcase itself comes back, exactly when every delta_t is given and in range where there is a range |
| `FrameCases.Parsed` | fuzzer/corpus/frames.py:217-249 | an accepted input leaves a valid testcase with a frame, and delta_t in range for all frames or the lone default frame |
| `FrameCases.IdempotentExactly` | fuzzer/corpus/frames.py:282-292 | on records, a second pass changes nothing exactly for stable inputs |
| `FrameText.ParseTestcase` | fuzzer/corpus/frames.py:154-249 | the parser on a text, with its errors |
| `FrameText.CanonicalizeText` | fuzzer/corpus/frames.py:282-292 | `canonicalize` on a text |
| `TextMeaning.TextMeans` | fuzzer/corpus/frames.py:154-249 | a text is accepted with the testcase that its lines describe, and refused for a line that is no record or because the records describe no testcase |
| `TextMeaning.LineMeans` | fuzzer/corpus/frames.py:179-215 | what one line says: cut at its first two commas, trimmed, with its frame prefix, its declared name in any case, and its type token |
| `TextMeaning.SplitCycleIs` | fuzzer/corpus/frames.py:84-88 | a name has a frame number exactly when it is digits, a dot and more |
| `TextMeaning.SplitRejoins` | fuzzer/corpus/frames.py:179 | the lines are the text cut at every line break and nowhere else |
| `TextMeaning.StripIs` | fuzzer/corpus/frames.py:180 | trimming removes spaces at both ends alone |
| `TextMeaning.SpacesListed` | fuzzer/corpus/frames.py:180 | the characters that trimming removes |
| `TextMeaning.BreaksListed` | fuzzer/corpus/frames.py:179 | the characters that end a line |
| `CanonicalOrder.CanonicalInOrder` | fuzzer/corpus/frames.py:111-126 | the canonical records are exactly the values of the testcase, each once: shared fields in their order, then frame by frame the fields in theirs and delta_t |
| `FrameText.TextRoundTrip` | fuzzer/corpus/frames.py:111-126 | parsing the canonical text with delta_t of a valid testcase returns it, exactly under the same condition |
| `FrameText.CanonicalizeIdempotentExactly` | fuzzer/corpus/frames.py:282-292 | `canonicalize` is idempotent on an accepted text exactly when there are no frame fields, or no range, or (delta_t listed) a frame record, or (not listed) an acceptable scan period |
| `FrameText.EmptyTextNotStable` | fuzzer/corpus/frames.py:238-239 | with valid defaults the empty text is accepted, and with a range and listed delta_t a second pass differs |
| `FrameText.UnlistedDtNotStable` | fuzzer/corpus/frames.py:231-235 | a one-frame text with its delta_t in range is accepted, and without listed delta_t a second pass refuses when the scan period is out of range |
| `ScanRun.RunFrames` | compiler/harness/v3gen.py:543-593 | the records of n frames take a step for every frame but the last, each with its values and delta_t or the period |
| `ScanRun.ClockIsElapsed` | compiler/harness/v3gen.py:834 | the wrapping clock is the sum of delta_t mod 2^64 |
| `ScanMeaning.EntriesMean` | compiler/harness/v3gen.py:538-600 | a step is taken where another frame number follows, with the last value of each field so far, in whatever frame that was, and the last delta_t of its frame or the period; the first value refused stops the run |
| `Executor.TokensOfUnlines` | compiler/harness/v3gen.py:506 | `strtok_r` yields the written lines |
| `Executor.OverrunExactly` | compiler/harness/v3gen.py:506-530 | the size abort is hit exactly by texts without a spare line feed whose lines all go to the same buffer |
| `Executor.LoneLineOverruns` | compiler/harness/v3gen.py:522-526 | a lone frame record without a line feed is such a text |
| `Executor.LineIsRec` | compiler/harness/v3gen.py:543-593 | a printed frame record acts on the run as the record |
| `Executor.Harness.Separate` | compiler/harness/v3gen.py:496-530 | the copy loop fills the two buffers in order, or aborts exactly when one would overrun |
| `Executor.Harness.ReadRecord` | compiler/harness/v3gen.py:543-593 | one record: a frame change steps the frame before, a delta_t or a value is taken or refused |
| `Executor.Harness.TakeStep` | compiler/harness/v3gen.py:830-836 | a step is logged and the counters keep agreeing with the log |
| `Executor.Harness.Execute` | compiler/harness/v3gen.py:496-606 | the whole function: abort, refusal or completion with the steps of the specification |
| `ExecutorMeaning.ExecutedMeans` | compiler/harness/v3gen.py:496-606 | so on any text: the steps by the positions of its records, or the line at which it is refused |
| `ExecutorMeaning.TokensMean` | compiler/harness/v3gen.py:506 | `strtok_r` yields the non-empty stretches between line feeds |
| `ExecutorMeaning.KindExactly` | compiler/harness/v3gen.py:507-520 | a line without a comma is dropped, one that starts with digits and a dot is a frame record, others are shared |
| `ExecutorMeaning.RecordSplit` | compiler/harness/v3gen.py:552-555 | a record line gives the name before its first comma and the value behind its second, or is skipped |
| `ExecutorMeaning.NumberRead` | compiler/harness/v3gen.py:556-560 | a frame number below 2^31 is read as it is |
| `ScanAgreement.ExecutorAgrees` | compiler/harness/v3gen.py:538-600 | on records in frame order that parser and executor accept there is one step for each parsed frame, with the last delta_t of the frame or the period, and the same values exactly when frame 0 sets every field |
| `Executor.CanonicalExecutes` | compiler/harness/v3gen.py:496-606 | the canonical text with delta_t of a testcase takes exactly one step for each frame, in order, with its values and delta_t or the period |
| `Executor.ExecuteCanonical` | compiler/harness/v3gen.py:830-836 | and ends with the frame count as index and the sum of delta_t mod 2^64 as clock |
| `PlanCheck.Checker.CheckAction` | fuzzer/llm/plan.py:232-285 | nothing is reported exactly for acceptable actions, and the cost is the static cost through nested repeats |
| `PlanCheck.Checker.CheckInputs` | fuzzer/llm/plan.py:249-254 | nothing is reported exactly when every input is a field with a value of its type |
| `PlanCheck.Validate` | fuzzer/llm/plan.py:172-309 | the normalised actions are returned exactly when they are non-empty, acceptable and within the frame limit, in spite of the early exit |
| `PlanExpansion.NormalisationIdempotent` | fuzzer/llm/plan.py:33-109 | normalising an accepted plan again changes nothing |
| `PlanExpansion.FirstRun` | fuzzer/llm/plan.py:379-403 | running checked actions from any fine frame does not raise and appends as many frames as their cost, all fine |
| `PlanExpansion.AcceptedExpands` | fuzzer/llm/plan.py:360-408 | the expansion of an accepted plan has exactly the summed number of frames, each assigning every field, scalars in their type's range |
| `PlanMeaning.ExpansionMeans` | fuzzer/llm/plan.py:360-408 | each frame of a plan that expands, accepted before or not, gives every field the text of the last value assigned to it by then, or its base value or default |
| `PlanMeaning.ActionNormal` | fuzzer/llm/plan.py:56-106 | the canonical form of an action, key by key, from each of its spellings |
| `PlanMeaning.EachNormal` | fuzzer/llm/plan.py:56-106 | a list is normalised action by action |
| `PlanMeaning.NestsEight` | fuzzer/llm/plan.py:37-38 | a plan that normalises nests no more than eight repeats |
| `PlanMeaning.IntegerRanges` | fuzzer/llm/plan.py:160-168 | the ranges of the integer types of one, two, four and eight bytes |
| `PlanExpansion.WholeExactly` | fuzzer/llm/plan.py:156-157 | every BOOL of the expansion reads 0 or 1 exactly when no action sets a BOOL to a real |
| `PlanExpansion.RealBoolAccepted` | fuzzer/llm/plan.py:156-157 | a plan that does is accepted |
| `PlanExpansion.Expander.Assign` | fuzzer/llm/plan.py:373-377 | the loop over the inputs assigns them all, in any order |
| `PlanExpansion.Expander.Run` | fuzzer/llm/plan.py:379-403 | the closure over `current` and `frames` runs as the specification, and raises with it |
| `PlanExpansion.Expand` | fuzzer/llm/plan.py:360-408 | `expand_plan` with its errors and its own limit |
| `PlanExpansion.ValidateThenExpand` | fuzzer/llm/plan.py:172-408 | validation followed by expansion succeeds or fails as one |
| `CloneFamilies.HalvingKeepsRoots` | compiler/intake/clones.py:74-77 | a path-halving step changes no representative |
| `CloneFamilies.RootIsLeast` | compiler/intake/clones.py:79-85 | the representative is the least key of the connected component |
| `CloneFamilies.UnionFind.Find` | compiler/intake/clones.py:73-77 | find ends, returns the representative, and keeps all of them |
| `CloneFamilies.UnionFind.Union` | compiler/intake/clones.py:79-85 | union joins exactly the two components |
| `CloneFamilies.NearFamilies` | compiler/intake/clones.py:105-121 | near-family ids are the least keys of the components of the similarity graph, although joined pairs are skipped |
| `CloneFamilies.FamiliesUnique` | compiler/intake/clones.py:114-121 | only one assignment is such |
| `CloneFamilies.BucketOrderIrrelevant` | compiler/intake/clones.py:114-121 | so the order of buckets does not matter |
| `Minimizer.TryBlocks` | fuzzer/pipeline/minimize.py:77-89 | the largest block that still triggers is dropped, every larger one having been refused, or all were refused |
| `Minimizer.DeletionRound` | fuzzer/pipeline/minimize.py:74-92 | the walk of a round, step by step: at each index the largest accepted block is cut out, and the walk goes on when none is |
| `Minimizer.DeleteFrames` | fuzzer/pipeline/minimize.py:73-95 | rounds follow each other until one changes nothing or there have been max_rounds; a subsequence is kept, removed + length is the original length, the trigger is kept, and an unchanged round settles every block |
| `Minimizer.CandidatesAre` | fuzzer/pipeline/minimize.py:101-104 | the candidates are the default, or the value itself, and then 0 and 1 unless the value is 0 or 0.0 |
| `Minimizer.SettledIsMinimal` | fuzzer/pipeline/minimize.py:77-95 | then no block of 1, 2, 4, 8, 16 or 32 frames can be dropped |
| `Minimizer.SimplifyField` | fuzzer/pipeline/minimize.py:99-113 | a field takes the first candidate that a probe accepts, those before it having been refused, or keeps its value when all are refused |
| `Minimizer.SimplifyValues` | fuzzer/pipeline/minimize.py:96-113 | every field of every frame is offered its candidates once; length is kept, the number of changed fields is the count, and the last change was accepted |
| `Minimizer.Minimize` | fuzzer/pipeline/minimize.py:46-121 | for any oracle the result is the original or frames whose final probe matched; a deterministic oracle that holds on the input keeps holding; after the deletion phase no block of frames can be dropped, or each round dropped one |
| `CallBudget.StepKeepsInvariant` | fuzzer/llm/client.py:106-109 | every locked block keeps calls + pending within the limit and the in-flight count exact |
| `CallBudget.EveryRunWithinBudget` | fuzzer/llm/client.py:134-136 | in every interleaving `calls` counts the responses and never exceeds the limit, and `tokens` is what they report |
| `CallBudget.ClampNeverActs` | fuzzer/llm/client.py:156-158 | a release always takes exactly one from `_in_flight` |
| `CallBudget.QuiescentIsZero` | fuzzer/llm/client.py:156-158 | with all threads outside nothing stays reserved |
| `CallBudget.RefusalExact` | fuzzer/llm/client.py:106-109 | in every reachable state a refusal is early exactly when calls are left but no more than there are threads between counting and release |
| `CallBudget.EarlyRefusal` | fuzzer/llm/client.py:106-109 | a run in which a call is refused although one is left |
| `Lexer.CommentEnd` | compiler/parser/st.py:255-275 | the least end at which no nested comment is open |
| `Lexer.BlockCommentEnd` | compiler/parser/st.py:255-275 | the loop finds that end |
| `Lexer.CommentCloses` | compiler/parser/st.py:263-275 | a comment ends with a closing pair of its own |
| `Lexer.Scan` | compiler/parser/st.py:278-328 | every token is non-empty and inside the source |
| `Lexemes.ScanFinds` | compiler/parser/st.py:278-328 | the token at each place: longest runs, nested comments, properties and pragmas, quoted strings, direct access, words, numbers and symbols, and an error exactly where none stands |
| `Lexemes.NumberLongest` | compiler/parser/st.py:322-324 | a number token is the longest number text there |
| `Lexemes.SymbolLongest` | compiler/parser/st.py:325-328 | a symbol token is the longest symbol of the table there |
| `Lexer.NewlinesOfPart` | compiler/parser/st.py:341-344 | counting line feeds token by token gives the line and the line start |
| `Lexer.TokenizeLossless` | compiler/parser/st.py:331-346 | the tokens are what the scanner finds, contiguous from 0 to the end, with the lines and columns of their places, and their texts join to the source |
| `Lexer.TokensUnique` | compiler/parser/st.py:331-346 | only one token list covers a source |
| `Lexer.SignificantApart` | compiler/parser/st.py:349-351 | exactly the tokens that are not trivia, in order and apart |
| `UnitSplit.FirstOfIsFirst` | compiler/intake/structure.py:164-169 | the member scan stops at the first END of the member or its owner |
| `UnitSplit.TakeMember` | compiler/intake/structure.py:162-175 | the span of a member, closed or not, and where its owner goes on |
| `UnitMeaning.MemberMeans` | compiler/intake/structure.py:162-175 | a member runs to the first END of its kind with its semicolon, or to the token before the END of its owner |
| `UnitSplit.ScanUnit` | compiler/intake/structure.py:152-176 | members lie in order and apart between keyword and END, every member keyword there is in exactly one of them, and END is the first outside members that no nested opening takes |
| `UnitSplit.PassMarkers` | compiler/intake/structure.py:124-126 | all markers before the token are passed and no other |
| `UnitSplit.NamespaceName` | compiler/intake/structure.py:128-140 | the words of a namespace name joined by dots, and the index behind it |
| `UnitMeaning.NameMeans` | compiler/intake/structure.py:128-140 | the parts are the words at every second token, with dots between them; a dot behind the last word belongs to the name |
| `UnitSplit.TakeUnit` | compiler/intake/structure.py:148-184 | a unit's name, namespaces, span, lines, marker, members and whether it is closed |
| `UnitMeaning.UnitEnds` | compiler/intake/structure.py:177-184 | a unit ends with its END and a semicolon that follows, or with the last token of the file |
| `UnitMeaning.OnlyWordsMean` | compiler/intake/structure.py:127 | only keywords and identifiers have a meaning to the splitter |
| `UnitMeaning.NamespacesMean` | compiler/intake/structure.py:128-143 | the open namespaces are those whose keyword the nesting has not come back to, outermost first |
| `UnitSplit.SplitTokens` | compiler/intake/structure.py:117-186 | units are drawn from their spans, in order and apart, each in the namespaces open before it; every unit keyword that is not part of a namespace name is in one |
| `UnitSplit.SplitUnits` | compiler/intake/structure.py:112-186 | on any source the units lie in order and apart inside it |
| `Keywords.CanonicalIdempotent` | compiler/intake/structure.py:45-55 | a canonical spelling is its own canonical spelling |
| `Keywords.OpensExactly` | compiler/intake/structure.py:19-55 | a word opens a unit exactly in one of the spellings of its keyword, in any case |
| `Keywords.ClosesExactly` | compiler/intake/structure.py:19-55 | a word closes a unit exactly in one of the spellings of the END keyword that the table gives its kind |
| `Keywords.NamespacesExactly` | compiler/intake/structure.py:127-143 | the spellings that open and close a namespace |
| `Keywords.ContainersExactly` | compiler/intake/structure.py:38 | the kinds that have members |
| `Keywords.MembersExactly` | compiler/intake/structure.py:39 | the kinds that are members |
| `Keywords.NestsExactly` | compiler/intake/structure.py:160 | the kinds that do not nest |
| `Keywords.KeywordsSound` | compiler/intake/structure.py:45-55 | the keyword table takes no punctuation for a keyword |

## Left out

- LoopBudget.Instrument: works on lines; splitting the source at line breaks and joining it again, and the regular expressions for labels, definitions and successors, are line attributes here.
- ControlFlow.LoopHeaders: the bound on a walk is relative to the successors that `_parse_function` reads from a terminator's own line.
- ScanBudget.ScanBoundedExactly: counts the block visits of instrumented functions, not the work inside a block; a block may call any of its callees in any order, at most `width` times in all.
- CycleEffects.CycleEffects: names are in upper case already, and `pointer_store` is an attribute of the POU.
- EffectModel.Explore: pending names are taken in any order, where the source sorts them; the dictionaries around the result are not built.
- TypeLayout.TypeSizeAlign: says nothing about cyclic definitions, for which the placeholder (0, 1) enters the result; LLVM does not allow them by value.
- TypeLayout.RegularDivides: holds for power-of-two scalars; other widths have the exact condition of SizeDividesExactly.
- PointerOffsets.LeavesAligned: holds for power-of-two scalars; all types have the exact condition of PointerAlignment.LeavesEvenExactly.
- CloneFamilies.NearFamilies: keys are numbered in sorted order; signatures, bands and the similarity estimate are parameters, library families are not modelled.
- Minimizer.Minimize: the deadline exception and the cycle number of the result are not modelled; probes are an oracle indexed by their position, so an oracle may be inconsistent.
- HarnessState.Process.Restore: a restore before the first reset would let the reset record the restored regions; the model resets first, as every run does.
- HarnessState.Process.Init: the constructor, the pointer setup and the shared records are one function of memory, harness state and records.
- FrameText.ParseTestcase: decoding bytes, init profiles other than cold, digits outside ASCII in frame numbers, and names that are declared twice with different types; `_validate_value`, `str.upper` and delta_t texts other than plain decimal numbers are parameters.
- FrameCases.ListRecords: the order of the dictionary when no field order is given.
- Executor.Harness.Execute: memory allocation failures, and texts with NUL characters; a character is a byte. Values are refused by a parameter, and IN_OUT fields are values of the frame like others.
- ExecutorMeaning.ExecutedMeans: the single-frame variant of the harness, which the generator never turns on.
- Executor.CanonicalExecutes: at most 2^31 frames, since `atoi` reads frame numbers.
- PlanCheck.Validate: plan metadata, evidence references and `start_from`; wrapper keys around the action list; a `TypeError` for an unhashable name counts as a refusal like any other.
- PlanActions.NormAction: does not capture that a raw `inputs` object is updated in place when `field` and `value` are given.
- PlanExpansion.Expander.Run: a pulse on a name that is not a string raises here; the checker refuses it.
- Lexer.Scan: the keyword set and the typed-literal expressions are parameters; upper case is ASCII.
- UnitSplit.TakeUnit: declared names and the marker expression are parameters; namespace names are kept as lists of parts.
- `build_testcase`, frame and prefix hashes: easier than parsing and printing.
- `_bounded_prefixes`, seed bookkeeping and candidate generation: would only add easy members.
- Campaigns, replay, probes, reports, network and compiler launches: side effects around these algorithms.
- Relocation import, KLEE models, sanitizers and environment variables: behaviour outside the modelled state.
- The LLM request, its cache and prompts: only the reservation protocol is modelled.
