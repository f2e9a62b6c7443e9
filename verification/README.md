# Sarif: a verified model of the compiler and runtime core

Sarif compiles a small language through a structured intermediate representation (MIR) to an
interpreter, to WebAssembly and to native code, with a C runtime and a second runtime for
just-in-time code. This project models the parts of it whose correctness rests on invariants over
whole runs, and proves those invariants in Dafny 4.11. `dafny verify dfyconfig.toml` checks
everything.

| files | what they model |
|---|---|
| `Mir.dfy` | MIR syntax and the reference interpreter, as a big-step evaluator with a step budget; arena objects carry a creation stamp |
| `Escape.dfy`, `EscapePrecision.dfy`, `EscapeAnalyzer.dfy`, `EscapeSoundness.dfy` | the interprocedural escape analysis: its transfer and fixed points, what it may mark at most, the in-place analyser, and soundness against the stamps of the interpreter |
| `Wasm.dfy`, `WasmLowering.dfy`, `WasmCorrectness.dfy`, `WasmExamples.dfy`, `WasmLimits.dfy` | a WebAssembly stack machine, the emitted code, step-for-step agreement with the interpreter, programs that are well-formed and what they compute, and where the two part ways |
| `NativeLoops.dfy` | count-down loops and list accesses whose bounds check the native back end drops |
| `ValueEquality.dfy` | branch-free equality of records and payload enums in both back ends |
| `Probing.dfy`, `IndexSpec.dfy`, `TextIndex.dfy`, `JitTextIndex.dfy`, `InternPool.dfy` | linear probing, the two text indexes, and the interning pool |
| `ArenaSpec.dfy`, `JitArena.dfy`, `CArena.dfy` | the two scoped arenas against one stack-of-frames specification |
| `TextMemory.dfy`, `Utf8.dfy`, `TextBuilder.dfy`, `Decimal.dfy`, `ByteViews.dfy` | text and byte strings of the C runtime, and how they are stored in its arena |
| `Imports.dfy`, `EditDistance.dfy` | import resolution over cyclic graphs, and the command suggestion |
| `Bits.dfy` | bitwise operations on natural numbers |

## Main results

* **Escape analysis.** With distinct function names, register numbers within the declared counts, and
  every function whose result gets marked declaring `alloc` and a recognised return type, a function
  without a diagnostic returns no arena data that it or its callees created, in any terminating run, on
  any arguments (`DeclaredSound`). `RunSound` needs only that the functions whose result is not looked
  at are clean, and `SoundExactlyWhenUninspectedClean` shows that this premise is exact. Loops settle
  within value count + slot count + 1 passes, the call graph within function count + 1 rounds, both at
  least fixed points. In the other direction, an instruction is marked exactly for what it creates, passes
  on or calls (`PlainMarksIff`), and a program without creating instructions and loops has no diagnostics
  (`AnalyzeEscapes`).
* **WebAssembly.** For every well-formed program, function, arguments and budget, the emitted code
  returns the interpreter's result, traps when the interpreter fails and runs on when the interpreter
  does (`FunctionAgrees`), for arbitrarily nested `If`, `While` and `Repeat` and for calls. Well-formed are, for instance, a counted
  sum, a recursive factorial and the Euclidean algorithm; their emitted code computes them for every
  argument (`TriangleEmitted`, `FactorialEmitted`, `EuclidEmitted`).
* **Native loops.** Under the entry condition that the lowering takes for granted, code without bounds
  checks and with count-down loops computes what the interpreter computes (`NativeRunAgrees`). The accesses
  that lose their check are exactly those, at any depth, of a list that the body does not write at an index
  loaded from the loop's slot (`TrustedIff`).
* **Runtime structures** refine a map, an injection, a stack of frames, a sequence or an integer over
  every run: `TextIndex.Index.Run`, `JitTextIndex.Index.Run`, `InternPool.Pool.InternAll`,
  `JitArena.Arena.Run`, `CArena.Arena.Run`, `TextBuilder.Build`, `ByteViews.Heap.SliceChain`.
* **Algorithms.** Import resolution reports a cycle if and only if one is reachable; the two-row edit
  distance is the least number of single-byte edits, and a metric.

## Where the code falls short of a property

Each of these is proved on the model; an "if and only if" gives the exact condition under which the
property holds.

* A function that allocates without declaring `alloc`, or with a register count of zero, can return
  arena data undiagnosed (`UndeclaredAllocationLeaks`, `ZeroCountLeaks`). The interpreter gives every
  frame at least one register, the analysis does not.
* Names need not be distinct in the code. The rounds over the call graph settle at some point if and only
  if every definition of a name agrees with the fixed point over the last definitions
  (`IterationSettlesIff`); on a function that returns new text and a namesake that returns a number they
  never do (`NamesakesNeverSettle`).
* After a counted loop, whatever its body, the WebAssembly index slot holds the count; when the body
  leaves the slot alone the interpreter's holds the last index, and they agree if and only if the loop
  did not run and the slot held zero (`IndexSlotAfterLoop`). Nested loops that share a count register share their counter:
  the emitted outer loop stops after one pass for every positive count (`SharedCountRunsOnce`,
  `SharedCountDiffers`). Well-formedness as stated in `WasmLowering` excludes both.
* The remainder of the least 64-bit integer by -1, and no other, stops the interpreter and is 0 in
  WebAssembly (`RemainderDiffersIff`). Programs without remainders meet the same fate on both machines
  (`SameFateWithoutRem`), others when they do not reach it (`SameFate`).
* Bounds checks of loop-indexed list accesses are dropped without a test of the count: a loop that reaches
  its accesses on every iteration goes outside a list if and only if the count exceeds the length of one
  of them (`ReadsOutsideIff`).
* Comparing payload enums dereferences the payload as that of every variant. It does not fault if and only
  if both sides can be read as all of them, pairwise (`FaultFreeIffComparable`), and then the answer is
  right (`EqualIsSame`). In native code, comparing a value of a variant without payload with itself reads
  address zero when another variant carries a record or an enum (`EmptyVariantFaults`); texts are safe,
  because their comparison looks at the handles first (`SafeEqual`). In WebAssembly the payload word of
  such a value is never written, and a stale one can fault as a text (`StaleTextFaults`).
* The C arena rounds with a 32-bit mask: the block covers the request if and only if the request is at
  most 2^32 - 16 bytes (`RoundCoversIff`). So a text, a finished builder or a materialized byte string is
  stored in full if and only if it has at most 2^32 - 24 bytes (`BlockCoversIff`, `Build`,
  `Materialize`); one byte more and its block is empty (`FirstShortBlock`, `TooLongToStore`).
* With all 64 saved scopes of the C arena in use, one more push, any allocations and its pop restore the
  arena if and only if the position has not moved since the 64th push (`TooDeepRestoresIff`). Chunks of
  the arena never start to double by themselves: as long as no request exceeds the smallest chunk, every
  chunk has that size (`ChunksStaySmallest`).
* The number parser takes a range whose start is past its end for the number zero
  (`ParseValidated`); the range form then also looks at one byte past the text when the start is at or
  past its length.
* The text builder's growth loop always ends at exactly the required size, so the intended headroom is
  never kept (`GrownCapacity`).
* The just-in-time index answers 0 for a missing key where the C index answers -1, and compares handles
  where the C index compares contents (`JitTextIndex.Index.Get`, `TextIndex.Index.Get`).

## Model

| member | source | states |
|---|---|---|
| `Mir.MoreFuelSameOutcome` | crates/sarif_codegen/src/lib.rs:9279-9301 | the step budget only decides whether a run ends, never how: a finished or failed run is the same under every larger budget |
| `Escape.TransferInst` | crates/sarif_codegen/src/escape.rs:150-339 | one instruction only adds marks, and only within the two bit vectors |
| `EscapePrecision.PlainMarksIff` | crates/sarif_codegen/src/escape.rs:150-275 | a plain instruction or call marks its register exactly when it makes or changes a text or list, passes on marked data, loads a marked slot or calls an escaping function, and marks nothing else |
| `EscapePrecision.QuietInst` | crates/sarif_codegen/src/escape.rs:150-304 | an instruction that creates nothing, reads nothing marked and calls nothing that escapes leaves the marks as they are, also through nested conditionals |
| `EscapePrecision.NothingEscapes` | crates/sarif_codegen/src/escape.rs:107-124 | the result of a body without creating instructions and loops never escapes, whatever the function declares |
| `EscapePrecision.CanHoldArenaIff` | crates/sarif_codegen/src/escape.rs:421-427 | a type can hold arena data if and only if its text contains "Text", "List" or "Bytes" or begins with an opening bracket |
| `Escape.TransferLoop` | crates/sarif_codegen/src/escape.rs:306-339 | loop passes end at marks that a further pass does not change |
| `Escape.InstMonotone` | crates/sarif_codegen/src/escape.rs:150-339 | more marks or more escaping callees never give fewer marks, through branches and nested loops |
| `Escape.LoopIsBelow` | crates/sarif_codegen/src/escape.rs:306-339 | the loop fixed point is the least one above the marks at entry |
| `Escape.Escaping` | crates/sarif_codegen/src/escape.rs:32-54 | the rounds over the call graph end at a fixed point above the start |
| `Escape.EscapingIsLeast` | crates/sarif_codegen/src/escape.rs:32-54 | that fixed point is below every set that a round does not enlarge |
| `Escape.EscapingStep` | crates/sarif_codegen/src/escape.rs:32-54 | a round that changes the set adds a name and does not move the fixed point |
| `Escape.DiagnosedIffEscaping` | crates/sarif_codegen/src/escape.rs:56-105 | with distinct names a function is diagnosed exactly when its result escapes at the fixed point |
| `EscapeAnalyzer.Env.Mark` | crates/sarif_codegen/src/escape.rs:132-137 | sets one bit, or none when the register is out of range |
| `EscapeAnalyzer.Env.AnyEscaped` | crates/sarif_codegen/src/escape.rs:272-274 | true exactly when one of the registers is marked |
| `EscapeAnalyzer.Env.MustMark` | crates/sarif_codegen/src/escape.rs:150-275 | true exactly when the instruction creates arena data or carries a marked operand or an escaping call's result |
| `EscapeAnalyzer.Env.Analyze` | crates/sarif_codegen/src/escape.rs:144-148 | the in-place pass over a block computes the transfer of the block |
| `EscapeAnalyzer.Env.AnalyzeInst` | crates/sarif_codegen/src/escape.rs:150-339 | the in-place step computes the transfer of the instruction; with nothing to mark it leaves both vectors as they were |
| `EscapeAnalyzer.Env.AnalyzeBranches` | crates/sarif_codegen/src/escape.rs:277-304 | saving, restoring and or-ing the slot vector is the join of the two branches |
| `EscapeAnalyzer.Env.AnalyzeLoop` | crates/sarif_codegen/src/escape.rs:306-339 | the loop ends at the least fixed point within value count + slot count + 1 passes |
| `EscapeAnalyzer.ValueMayEscape` | crates/sarif_codegen/src/escape.rs:107-124 | true exactly when the transfer of the body marks the result |
| `EscapeAnalyzer.AnalyzeFunction` | crates/sarif_codegen/src/escape.rs:65-105 | true exactly for allocating functions of a recognised return type whose result is marked |
| `EscapeAnalyzer.RunRound` | crates/sarif_codegen/src/escape.rs:33-50 | one round rewrites the table entry by entry from the snapshot before it |
| `EscapeAnalyzer.RoundSettlesIff` | crates/sarif_codegen/src/escape.rs:45-53 | a round changes nothing if and only if the table agrees with every function, namesakes included |
| `EscapeAnalyzer.RoundFlags` | crates/sarif_codegen/src/escape.rs:33-53 | a round leaves, for every name, the answer of its last definition: it is a round over the last definitions |
| `EscapeAnalyzer.SolveCallees` | crates/sarif_codegen/src/escape.rs:13-54 | where the rounds settle, the table ends at the least fixed point over the last definitions within function count + 1 rounds; with distinct names at that of the program |
| `EscapeAnalyzer.AnalyzeEscapes` | crates/sarif_codegen/src/escape.rs:12-63 | one diagnostic for each function whose result escapes, in program order; none in a program that creates nothing, and none for a function that does not declare `alloc` or whose type cannot hold arena data |
| `EscapeAnalyzer.ReportedMembers` | crates/sarif_codegen/src/escape.rs:56-62 | a function is reported if and only if it is in the program and its result escapes |
| `EscapeAnalyzer.SettledIff` | crates/sarif_codegen/src/escape.rs:45-53 | on the way up, a table settles exactly when it holds the fixed point and every definition agrees with it |
| `EscapeAnalyzer.IterationSettlesIff` | crates/sarif_codegen/src/escape.rs:13-54 | from the empty table the rounds settle at some point if and only if every definition of a name agrees with the fixed point over the last definitions |
| `EscapeAnalyzer.NamesakesNeverSettle` | crates/sarif_codegen/src/escape.rs:13-54 | on a text-returning function and a number-returning namesake no round ever settles |
| `EscapeAnalyzer.DistinctNamesAgree` | crates/sarif_codegen/src/escape.rs:13-24 | with distinct names the rounds settle, at the fixed point of the program |
| `EscapeSoundness.RunConfined` | crates/sarif_codegen/src/lib.rs:9279-9301 | a run returns only arena data that came in with the arguments or was created in the run |
| `EscapeSoundness.InstSound` | crates/sarif_codegen/src/escape.rs:150-339 | registers and slots left unmarked by the transfer reach nothing created since the function was entered |
| `EscapeSoundness.CalleeSound` | crates/sarif_codegen/src/escape.rs:266-275 | an unflagged callee given older data returns data as old as it was given |
| `EscapeSoundness.RunSound` | crates/sarif_codegen/src/escape.rs:107-357 | a function without a diagnostic returns no arena data created by it or its callees, in every terminating run |
| `EscapeSoundness.DeclaredSound` | crates/sarif_codegen/src/escape.rs:65-105 | the same when every function whose result gets marked declares `alloc` and a recognised type |
| `EscapeSoundness.SoundExactlyWhenUninspectedClean` | crates/sarif_codegen/src/escape.rs:35-44 | absence of diagnostics is sound if and only if it is for the functions whose result is not looked at |
| `EscapeSoundness.UndeclaredAllocationLeaks` | crates/sarif_codegen/src/escape.rs:74-77 | a function that creates text without the `alloc` effect leaks it undiagnosed |
| `EscapeSoundness.ZeroCountLeaks` | crates/sarif_codegen/src/escape.rs:112-123 | so does one whose declared register count is zero |
| `Wasm.RunConcat` | crates/sarif_codegen/src/wasm.rs:652-658 | emitted code composes: running a concatenation is running the parts, unless a part jumps, traps or times out |
| `WasmCorrectness.BinaryAgrees` | crates/sarif_codegen/src/wasm.rs:1940-1966 | the 64-bit instructions wrap, divide, take remainders, trap and combine flags as the interpreter does |
| `Mir.TruncationLaw` | crates/sarif_codegen/src/lib.rs:11781-11799 | quotient times divisor plus remainder is the dividend; the remainder is smaller than the divisor and is zero or has the sign of the dividend |
| `WasmCorrectness.QuotientAndRemainder` | crates/sarif_codegen/src/wasm.rs:1940-1966 | the values that both machines leave for a division and a remainder satisfy that law |
| `WasmCorrectness.ModularArithmetic` | crates/sarif_codegen/src/wasm.rs:1940-1966 | what both machines leave for a sum, difference or product is the 64-bit integer congruent to it modulo 2^64 |
| `WasmCorrectness.OrderOfIntegers` | crates/sarif_codegen/src/wasm.rs:1968-2040 | both machines compare 64-bit integers as integers |
| `WasmCorrectness.CompareAgrees` | crates/sarif_codegen/src/wasm.rs:1968-2040 | the comparison instructions give the word of the interpreter's boolean |
| `WasmCorrectness.BinaryInstAgrees` | crates/sarif_codegen/src/wasm.rs:1407-1461 | a binary instruction's code leaves the stack as it was and defines the same register |
| `WasmCorrectness.AssertAgrees` | crates/sarif_codegen/src/wasm.rs:1590-1598 | an assertion falls through on true and traps on false |
| `WasmCorrectness.ScalarInstAgrees` | crates/sarif_codegen/src/wasm.rs:660-695 | constants, parameters, locals and assertions agree with the interpreter |
| `WasmCorrectness.SeqAgrees` | crates/sarif_codegen/src/wasm.rs:652-658 | a block's code ends with related registers and slots and an untouched stack, traps or times out exactly as the interpreter |
| `WasmCorrectness.IfAgrees` | crates/sarif_codegen/src/wasm.rs:1482-1524 | the same for conditionals, with and without a result |
| `WasmCorrectness.WhileAgrees` | crates/sarif_codegen/src/wasm.rs:1525-1547 | the same for the block/loop/br form of conditional loops |
| `WasmCorrectness.RepeatAgrees` | crates/sarif_codegen/src/wasm.rs:1548-1589 | the same for counted loops with their counter local |
| `WasmCorrectness.CallAgrees` | crates/sarif_codegen/src/wasm.rs:1473-1481 | the same for calls, recursion included |
| `WasmCorrectness.FunctionAgrees` | crates/sarif_codegen/src/wasm.rs:394-478 | an emitted function returns the word of the interpreter's result, traps when it fails, times out when it does |
| `WasmExamples.ExamplesOk` | crates/sarif_codegen/src/wasm.rs:394-478 | the lowering accepts a program with a counted loop, a conditional loop, a conditional with a value and a recursive call |
| `WasmExamples.TriangleEmitted` | crates/sarif_codegen/src/wasm.rs:1548-1589 | the emitted counted loop leaves, for every argument, the sum of the numbers below it modulo 2^64 |
| `WasmExamples.FactorialEmitted` | crates/sarif_codegen/src/wasm.rs:1473-1524 | the emitted recursive function leaves, for every argument, its factorial modulo 2^64 |
| `WasmExamples.EuclidEmitted` | crates/sarif_codegen/src/wasm.rs:1525-1547 | the emitted conditional loop leaves the result of the Euclidean algorithm for every pair of arguments |
| `WasmLimits.SameFate` | crates/sarif_codegen/src/wasm.rs:394-478 | finished, failed and unfinished runs correspond both ways, except for the one remainder |
| `WasmLimits.SameFateWithoutRem` | crates/sarif_codegen/src/wasm.rs:394-478 | they correspond both ways in every program that takes no remainder |
| `WasmLimits.RemainderDiffersIff` | crates/sarif_codegen/src/wasm.rs:1419-1421 | a remainder stops the interpreter for overflow if and only if it is that of the least integer by -1, where the emitted code stores zero |
| `WasmLimits.IndexSlotAfterLoop` | crates/sarif_codegen/src/wasm.rs:1554-1586 | after any well-formed loop the emitted index slot holds the count; with a body that leaves the slot alone it agrees with the interpreter if and only if the loop did not run and the slot held zero |
| `WasmLimits.MachineCountAfter` | crates/sarif_codegen/src/wasm.rs:1563-1586 | an emitted loop ends with the count in its counter and index slot |
| `WasmLimits.SharedCountRunsOnce` | crates/sarif_codegen/src/wasm.rs:1554-1578 | around any inner loop on the same count register, the emitted outer loop ends after one pass, in the state of the interpreter after its first iteration |
| `WasmLimits.SharedCountDiffers` | crates/sarif_codegen/src/wasm.rs:1554-1578 | where the outer body copies its index, the two agree if and only if the count is one |
| `NativeLoops.PairsAvoidDefined` | crates/sarif_codegen/src/native.rs:4560-4613 | a trusted pair names a list the body does not define and an index loaded from the loop's slot |
| `NativeLoops.DefinedIff` | crates/sarif_codegen/src/native.rs:4348-4527 | collected as defined are exactly the registers that some instruction, at any depth, writes |
| `NativeLoops.IndexLoadsIff` | crates/sarif_codegen/src/native.rs:4528-4558 | collected as index registers are exactly those loaded from the index slot by an occurring instruction |
| `NativeLoops.TrustedIff` | crates/sarif_codegen/src/native.rs:4560-4613 | an access loses its check if and only if it occurs in the body at any depth of conditionals and loops, its index is loaded from the index slot and its list is not written in the body |
| `NativeLoops.PlainLoopsLoseTheirCheck` | crates/sarif_codegen/src/native.rs:4560-4613 | a loop that reads or writes a list at its index is well-formed and loses the check |
| `NativeLoops.InstKeeps` | crates/sarif_codegen/src/native.rs:4528-4558 | inside a loop the index registers hold the index of the iteration and the trusted lists stay as they were |
| `NativeLoops.NativeInstAgrees` | crates/sarif_codegen/src/native.rs:2148-2259 | unchecked accesses, also inside nested conditionals and loops, behave as checked ones, and go wild only when a trusted list ends at or before the index |
| `NativeLoops.NativeRepeatAgrees` | crates/sarif_codegen/src/native.rs:4125-4219 | counting down from the count is counting the index up from zero: same iterations, same index slot |
| `NativeLoops.NativeRunAgrees` | crates/sarif_codegen/src/native.rs:4132-4136 | programs whose loops are entered with counts within their trusted lists compute natively what the interpreter computes |
| `NativeLoops.WildBody` | crates/sarif_codegen/src/native.rs:2167-2259 | a body that reads or writes a list ending at or before the index goes wild before it ends |
| `NativeLoops.ReadsOutsideIff` | crates/sarif_codegen/src/native.rs:4132-4136 | a loop that reaches its unchecked reads and writes on every iteration goes outside a list if and only if the count exceeds the length of one of them, and otherwise does what the interpreter does |
| `ValueEquality.EqualIsSame` | crates/sarif_codegen/src/native.rs:975-1136 | when the compiled comparison does not fault it is 1 or 0 by structural equality of the decoded values |
| `ValueEquality.FieldsAreSame` | crates/sarif_codegen/src/wasm.rs:241-264 | and-ing field comparisons is equality of all fields |
| `ValueEquality.VariantsUpTo` | crates/sarif_codegen/src/native.rs:1086-1136 | whatever the payload comparison of a variant not taken leaves, masking removes it |
| `ValueEquality.EqualAtIsSame` | crates/sarif_codegen/src/wasm.rs:316-378 | the same for what is stored at an offset |
| `ValueEquality.TextEqualRight` | runtime/sarif_runtime.c:1481-1518 | on two texts the C, just-in-time and Wasm comparisons all tell whether their bytes are equal |
| `ValueEquality.ByteLoop` | crates/sarif_codegen/src/jit.rs:212-235 | the byte loop ends if and only if the bytes up to the first difference are mapped, and then tells whether there is one |
| `ValueEquality.FaultFreeIffComparable` | crates/sarif_codegen/src/native.rs:1102-1127 | for every kind, no fault if and only if what is compared can be read on both sides as every variant |
| `ValueEquality.SafeEqual` | crates/sarif_codegen/src/wasm.rs:241-378 | when the payloads of an enum are plain words, in native code texts, or one kind in all variants, the comparison of two values never faults and is structural equality |
| `ValueEquality.EmptyVariantFaults` | crates/sarif_codegen/src/native.rs:1102-1127 | a value without payload makes native code read address zero when another variant carries a record or an enum |
| `ValueEquality.StaleTextFaults` | crates/sarif_codegen/src/wasm.rs:2069-2107 | in Wasm the payload word of such a value is not written, and faults when a stale one is taken for a text that is not mapped |
| `TextIndex.HashHandle` | runtime/sarif_runtime.c:1270-1285 | the hash depends on the content alone |
| `TextIndex.FnvVectors` | runtime/sarif_runtime.c:1270-1285 | the hash before the length is mixed in has the published 32-bit FNV-1a values |
| `TextIndex.HandleEq` | runtime/sarif_runtime.c:1287-1307 | true exactly for handles of equal content |
| `TextIndex.ThresholdIsThreeQuarters` | runtime/sarif_runtime.c:1191-1193 | the overflow-safe limit is the floor of three quarters of the capacity |
| `TextIndex.ThresholdGrows` | runtime/sarif_runtime.c:1191-1215 | a table within the limit is not full, and doubling makes room |
| `Probing.HasEmpty` | runtime/sarif_runtime.c:1184-1186 | a table whose load is below its size has a free slot |
| `Probing.AbsentAtEmpty` | runtime/sarif_runtime.c:1250-1267 | a probe that meets a free slot has ruled the key out |
| `Probing.ProbeAround` | runtime/sarif_runtime.c:1261-1265 | a probe that comes back to its start has seen every slot, all taken by other keys |
| `Probing.InsertAt` | runtime/sarif_runtime.c:1342-1349 | filling the free slot that ends a probe keeps every key reachable and stored once, and adds one binding |
| `Probing.UpdateAt` | runtime/sarif_runtime.c:1342-1344 | overwriting a slot with the same key changes that binding alone |
| `Probing.Rehash` | runtime/sarif_runtime.c:1211-1229 | moving every entry to a larger table keeps the map, the load and reachability |
| `Probing.LoadIsSize` | runtime/sarif_runtime.c:1184-1186 | the number of slots taken is the number of keys |
| `TextIndex.Index.EnsureCapacity` | runtime/sarif_runtime.c:1172-1230 | the map stays, there is room below the limit, the capacity doubles exactly when there was none, and it fails exactly when the table must grow and cannot |
| `TextIndex.Index.FindEntry` | runtime/sarif_runtime.c:1232-1268 | finds the key exactly when the map has it, ends, and never reaches the table-full branch |
| `TextIndex.Index.Set` | runtime/sarif_runtime.c:1324-1352 | binds the content, or fails and changes nothing |
| `TextIndex.Index.Get` | runtime/sarif_runtime.c:1354-1373 | the bound value, or -1 |
| `TextIndex.Index.Contains` | runtime/sarif_runtime.c:1375-1390 | true exactly when the content is bound |
| `TextIndex.Index.GetOrInsert` | runtime/sarif_runtime.c:1392-1423 | the bound value with the map unchanged, or the new value bound |
| `TextIndex.Index.Run` | runtime/sarif_runtime.c:1172-1423 | over every run, with any answers of the allocator, the answers and contents up to the first failed growth are those of a map keyed by content; only a setting or inserting call can fail |
| `JitTextIndex.MaskIsRemainder` | crates/sarif_codegen/src/jit.rs:1063-1066 | masking with a power of two less one is the remainder |
| `JitTextIndex.Index.Probe` | crates/sarif_codegen/src/jit.rs:1128-1144 | finds the key exactly when it is bound, or a free slot, before the steps run out |
| `JitTextIndex.Index.Grow` | crates/sarif_codegen/src/jit.rs:1080-1110 | doubles the table and keeps the map |
| `JitTextIndex.Index.FindOrMakeRoom` | crates/sarif_codegen/src/jit.rs:1123-1164 | grows once, to twice the size, exactly when the key is new and more than three quarters are taken, and never fills the table |
| `JitTextIndex.Index.Get` | crates/sarif_codegen/src/jit.rs:1025-1050 | the bound value, or 0 |
| `JitTextIndex.Index.Contains` | crates/sarif_codegen/src/jit.rs:1053-1078 | true exactly when the handle is bound |
| `JitTextIndex.Index.Set` | crates/sarif_codegen/src/jit.rs:1168-1216 | binds the handle |
| `JitTextIndex.Index.GetOrInsert` | crates/sarif_codegen/src/jit.rs:1113-1165 | the bound value, or the default bound |
| `JitTextIndex.Index.Run` | crates/sarif_codegen/src/jit.rs:1025-1216 | over every run the answers and contents are those of a map keyed by handle |
| `InternPool.FoldUnrolled` | runtime/sarif_runtime.c:445-464 | eight steps at a time and a rest loop are the byte-at-a-time fold |
| `InternPool.Hash` | runtime/sarif_runtime.c:445-464 | the unrolled hash is 64-bit FNV-1a |
| `InternPool.FnvVectors` | runtime/sarif_runtime.c:445-464 | the hash has the published 64-bit FNV-1a values |
| `InternPool.AlignIsMask` | runtime/sarif_runtime.c:468-472 | the mask rounds up to a multiple of eight |
| `InternPool.Pool.Alloc` | runtime/sarif_runtime.c:467-492 | new space is in use afterwards and clear of everything that was in use before; it is behind the last chunk's contents, or in a new chunk of 64 KiB or the size of the request exactly when they do not fit |
| `InternPool.Pool.Probe` | runtime/sarif_runtime.c:500-522 | finds the content exactly when it is interned, and reports a full table exactly when it is new and no bucket is free |
| `InternPool.Pool.Intern` | runtime/sarif_runtime.c:494-525 | returns the pointer bound to the content or binds a new one, and ends the program exactly when the content is new and 262144 contents are interned or the size overflows |
| `InternPool.SamePointerIffSameContent` | runtime/sarif_runtime.c:494-535 | interned pointers are equal exactly for equal contents |
| `InternPool.PointerHolds` | runtime/sarif_runtime.c:500-512 | the blob at an interned pointer is the content interned |
| `InternPool.Pool.InternAll` | runtime/sarif_runtime.c:494-525 | a run succeeds if and only if its different contents and those before are at most 262144 and have a size; then pointers are equal exactly for equal contents, and each blob still holds its content at the end |
| `JitArena.AlignUpIsMask` | crates/sarif_codegen/src/jit.rs:104-106 | the mask rounds up to a multiple of sixteen |
| `JitArena.CutKeeps` | crates/sarif_codegen/src/jit.rs:71-73 | truncation at a growth drops no live block and no saved position |
| `JitArena.Arena.Allocate` | crates/sarif_codegen/src/jit.rs:47-114 | adds one live block that covers the request and moves none; it is at the current position when that has room, else in a chunk of its own size or 4 MiB |
| `JitArena.Arena.PushScope` | crates/sarif_codegen/src/jit.rs:79-126 | opens a frame |
| `JitArena.Arena.PopScope` | crates/sarif_codegen/src/jit.rs:86-139 | makes dead exactly the blocks allocated since the matching push, and the position is the one that push saved |
| `JitArena.Arena.Run` | crates/sarif_codegen/src/jit.rs:47-139 | over every interleaving the live blocks are those of the stack of frames, pairwise disjoint, each inside its chunk; a run that stays above a level leaves what is below it as it was |
| `JitArena.Arena.Region` | crates/sarif_codegen/src/jit.rs:79-139 | a balanced region of any run ends at the position, saved scopes and live blocks it started from |
| `CArena.RoundCoversIff` | runtime/sarif_runtime.c:274-277 | rounding covers the request if and only if it is at most 2^32 - 16, and then is the next multiple of 16 |
| `CArena.BumpOk` | runtime/sarif_runtime.c:278-283 | bumping the current chunk keeps the invariant and adds one block |
| `CArena.GrowOk` | runtime/sarif_runtime.c:284-302 | linking a chunk keeps the current chunk last, the saved scopes ordered along the chain, and adds one block |
| `CArena.PushOk` | runtime/sarif_runtime.c:308-326 | saving a scope keeps the invariant and opens a frame |
| `CArena.PopRestores` | runtime/sarif_runtime.c:328-375 | a pop gives back exactly the chain of the matching push |
| `CArena.PopOk` | runtime/sarif_runtime.c:328-375 | a pop keeps the invariant and closes a frame: freed chunks hold no live block |
| `CArena.TooDeepRestoresIff` | runtime/sarif_runtime.c:336-343 | a 65th push, any allocations and a pop restore the chain if and only if the position has not moved since the 64th push |
| `CArena.NextCapBounds` | runtime/sarif_runtime.c:242-256 | a new chunk holds the request, lies between the limits unless the request is larger, and doubles a current chunk above the lower limit |
| `CArena.ChunksStaySmallest` | runtime/sarif_runtime.c:242-256 | as long as no request exceeds the lower limit every chunk has exactly that size |
| `CArena.Arena.Allocate` | runtime/sarif_runtime.c:258-306 | a served request gets a live block that covers it exactly up to 2^32 - 16 bytes, in the current chunk when it has room and else in a new one after it; refused requests change nothing |
| `CArena.Arena.PushScope` | runtime/sarif_runtime.c:308-326 | opens a frame while fewer than 64 are open |
| `CArena.Arena.PopScope` | runtime/sarif_runtime.c:328-375 | the chain is that of the matching push and the blocks since are dead; without an open scope nothing happens |
| `CArena.Arena.Run` | runtime/sarif_runtime.c:242-375 | over every run nested at most 64 deep the live blocks are those of the stack of frames, disjoint and in place |
| `CArena.Arena.Region` | runtime/sarif_runtime.c:308-375 | a balanced region leaves chunks, scopes and live blocks exactly as they were |
| `Utf8.EncodeIsLayout` | runtime/sarif_runtime.c:700-735 | exactly the scalar values are encoded, in the layout of section 3 of RFC 3629; surrogates are refused |
| `Utf8.EncodeDecode` | runtime/sarif_runtime.c:700-735 | decoding by the grammar of section 4 of RFC 3629 gives the code point back, whatever follows |
| `Utf8.DecodeEncode` | runtime/sarif_runtime.c:700-735 | every sequence of the grammar is the encoding of the scalar value it decodes to |
| `Utf8.PointsText` | runtime/sarif_runtime.c:578-580 | a valid text is the encoding of its code points |
| `Utf8.ContinuationIsTail` | runtime/sarif_runtime.c:578-580 | the masked test is true exactly for the bytes 0x80 to 0xbf |
| `Utf8.SliceIsWholePoints` | runtime/sarif_runtime.c:1631-1662 | a code point is in the slice if and only if it starts at or after the first offset and ends at or before the second, for any two offsets the caller passes |
| `Utf8.SliceValid` | runtime/sarif_runtime.c:1631-1662 | a slice of a valid text is valid |
| `Utf8.SliceBlob` | runtime/sarif_runtime.c:1631-1662 | the two boundary loops compute that slice; without them byte k is in it if and only if it is between the offsets and in the text, in order; it is stored in full exactly up to 2^32 - 24 bytes, and a null blob has none |
| `TextBuilder.GrownCapacity` | runtime/sarif_runtime.c:619-647 | the growth loop ends at the larger of capacity and requirement, without overflow |
| `TextBuilder.Builder.Reserve` | runtime/sarif_runtime.c:649-679 | makes room and keeps the contents, exactly when there is room, or memory and a size within 64 bits |
| `TextBuilder.Builder.Append` | runtime/sarif_runtime.c:681-817 | adds exactly the bytes of the piece and is refused exactly for a bad piece, want of memory or a size past 64 bits; then it changes nothing |
| `TextBuilder.AddedMeans` | runtime/sarif_runtime.c:681-817 | the bytes of each piece: the text, the layout of the scalar value, the byte, the bytes between the offsets, the numeral; refused are exactly surrogates and numbers past the last code point, numbers that are no byte, and ranges not inside the text |
| `TextMemory.BlockCoversIff` | runtime/sarif_runtime.c:548-559 | the block of a text holds header and bytes if and only if it has at most 2^32 - 24 bytes |
| `TextMemory.FirstShortBlock` | runtime/sarif_runtime.c:548-559 | one byte more and the block is empty |
| `TextMemory.StoreText` | runtime/sarif_runtime.c:548-563 | a text is stored in full exactly up to that length, and refused exactly within 23 bytes of 2^64 or for want of memory |
| `TextBuilder.Builder.Finish` | runtime/sarif_runtime.c:819-837 | the contents, stored in full exactly up to 2^32 - 24 bytes |
| `TextBuilder.Build` | runtime/sarif_runtime.c:604-837 | over every run of appends the concatenation is stored in full if and only if no piece is refused and it has at most 2^32 - 24 bytes |
| `TextBuilder.TooLongToStore` | runtime/sarif_runtime.c:819-837 | a run of one append of 2^32 - 23 bytes gets an empty block |
| `TextBuilder.JoinedValid` | runtime/sarif_runtime.c:681-817 | texts, code points, bytes below 0x80, slices on boundaries and numbers keep a text valid |
| `Decimal.PrintedFits` | runtime/sarif_runtime.c:783-800 | every 64-bit integer, the least included, prints in 20 bytes |
| `Decimal.PrintedExamples` | runtime/sarif_runtime.c:783-800 | the bytes printed for 0, 7, 42 and -305, the minus sign being the byte 45 and the digits the bytes from 48 |
| `Decimal.FormatI64` | runtime/sarif_runtime.c:783-800 | the digit loop leaves the numeral at the end of the buffer and touches nothing behind it |
| `Decimal.NumberOfDigits` | runtime/sarif_runtime.c:783-800 | reading the digits printed for a number gives the number |
| `Decimal.DigitsOfNumber` | runtime/sarif_runtime.c:783-800 | printing the value of a numeral without leading zeros gives the numeral |
| `Decimal.ParsePrinted` | runtime/sarif_runtime.c:1743-1770 | parsing a printed integer gives it back exactly when it fits 32 bits, and fails otherwise |
| `Decimal.ParseDigits` | runtime/sarif_runtime.c:1758-1767 | the loop accepts exactly digits whose value is within the limit |
| `Decimal.ParseValidated` | runtime/sarif_runtime.c:1743-1770 | accepts exactly an optional minus and digits in the 32-bit range; a range whose start is past its end is zero |
| `Decimal.ParseI32` | runtime/sarif_runtime.c:1778-1784 | the value of the whole text, or zero |
| `Decimal.ParseI32Range` | runtime/sarif_runtime.c:1786-1801 | the value of the clamped range without surrounding spaces, or zero |
| `Decimal.TrimMeans` | runtime/sarif_runtime.c:1786-1801 | trimming removes exactly the bytes 32 before the first and after the last other byte |
| `ByteViews.HeaderBits` | runtime/sarif_runtime.c:407-415 | the tag bit tells views from blobs and the rest of the word is the length |
| `ByteViews.Recognised` | runtime/sarif_runtime.c:407-421 | in a valid heap the tag test and the view accessors are right, and the parent of a view is a blob |
| `ByteViews.Heap.Slice` | runtime/sarif_runtime.c:1664-1688 | the slice, of a blob or of a view, denotes exactly the bytes between the offsets, in order, and nothing when they cross; the other objects stay |
| `ByteViews.Heap.SliceLength` | runtime/sarif_runtime.c:2524-2550 | the same by start and length |
| `ByteViews.Heap.Length` | runtime/sarif_runtime.c:2419-2425 | the length of the sequence |
| `ByteViews.Heap.ByteAt` | runtime/sarif_runtime.c:2427-2453 | the byte of the sequence, zero outside it |
| `ByteViews.Heap.Materialize` | runtime/sarif_runtime.c:2455-2470 | a new blob with the bytes of the sequence, exactly up to 2^32 - 24 bytes; above that the copy runs past its block |
| `ByteViews.Heap.SliceChain` | runtime/sarif_runtime.c:1664-1688 | any chain of slices denotes the sequence sliced again and again |
| `Imports.CyclicByItems` | crates/sarif_frontend/src/lib.rs:138-156 | a module leads back to the stack exactly when one of its imports is on it or does so below it |
| `Imports.CyclicIffCycleReachable` | crates/sarif_frontend/src/lib.rs:147-156 | from an empty stack that is exactly a reachable cycle of registered modules |
| `Imports.TreeIgnoresStack` | crates/sarif_frontend/src/lib.rs:157-166 | without a cycle what an import resolves to does not depend on how it was reached, and nothing registered is left out |
| `Imports.Resolver.ResolveImports` | crates/sarif_frontend/src/lib.rs:131-169 | ends on every database, leaves the stack as it was, and adds exactly one diagnostic for every path through first occurrences to a name on the stack, in depth-first order |
| `Imports.Resolver.ResolveRoot` | crates/sarif_frontend/src/lib.rs:113-125 | from the root: a diagnostic if and only if a cycle is reachable, each naming a module on a cycle, one for every path that returns |
| `EditDistance.LevSymmetric` | apps/sarifc/src/command.rs:100-114 | the distance is symmetric |
| `EditDistance.LevZero` | apps/sarifc/src/command.rs:100-114 | it is zero exactly for equal strings |
| `EditDistance.LevTriangle` | apps/sarifc/src/command.rs:100-114 | it obeys the triangle inequality |
| `EditDistance.LevLeast` | apps/sarifc/src/command.rs:100-114 | no sequence of single-byte edits is shorter |
| `EditDistance.LevReached` | apps/sarifc/src/command.rs:100-114 | some sequence of edits is that short |
| `EditDistance.LevIsDistance` | apps/sarifc/src/command.rs:100-114 | it is the least number of insertions, deletions and substitutions |
| `EditDistance.FillRow` | apps/sarifc/src/command.rs:105-111 | the inner loop derives one row from the one before |
| `EditDistance.EditDistanceOf` | apps/sarifc/src/command.rs:100-114 | the two rolling rows compute the distance |
| `EditDistance.ClosestOf` | apps/sarifc/src/command.rs:116-130 | the first name that no name has fewer edits from, if that takes at most 3 edits; none if every name takes more |
| `EditDistance.ClosestCommand` | apps/sarifc/src/command.rs:85-130 | the same over the command names |

## Left out

- Lists are values in the interpreter model, although the program mutates them behind handles; the ownership pass (crates/sarif_frontend/src/ownership.rs:1568-1576) makes lists affine, so no second handle can tell. Aliasing of list handles is not modelled.
- Of the instructions that create arena data, `ArgText`, `TextConcat`, `ListNew` and `ListSet` stand for all; text slices, builders, pushes and sorts would only add cases to the same match.
- Effect handlers (`Perform`, `Handle`), floating point, bit operations and shifts, text and record instructions in the WebAssembly lowering, unit-valued calls, and `EnumToI32`, `EnumToText` and `I64FromI32`. Bit operations are 32 bits wide in the interpreter and 64 in WebAssembly.
- Encoding of WebAssembly binaries, Cranelift, the C back end, object files and the linker.
- Extra traps that the native lowering emits on a failed bounds check when debugging is switched on.
- Null handles passed to index and builder functions, which answer at once; the model starts from an object.
- Running out of memory inside the interning pool, which ends the program.
- Mutexes: every runtime operation is one atomic step.
- How long a text handle stored in an index stays valid: the text memory behind an index does not change.
- Recursive types: kinds of the equality model are finite trees, and named types are expanded.
- Equality of byte views, whose tagged header word the comparison takes for a length; and what a write past the end of a block destroys.
- The collection of trusted accesses (crates/sarif_codegen/src/native.rs:4348-4613) is modelled by functions on values, not by filling sets in place.
- Emission of WebAssembly code gives instruction sequences, not text appended to a buffer.
- Word-sized loads from and stores to byte strings; storing through a blob that has views.
- Diagnostics that `resolve_module` adds during import resolution, and the spans of diagnostics.
- The key list of the text indexes, list sorting, file, process, clock and network functions, the SQL planner, command-line parsing and report rendering.
- CArena.Arena.Run: states the stack-of-frames law for nesting up to 64 only, because it fails beyond that.
- JitArena.Arena.Allocate: memory is taken to be available; the program aborts otherwise.
