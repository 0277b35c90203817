# A model of the Lishp runtime

Lishp is a small Common Lisp interpreter in C. This project models its four cores in Dafny and proves what they
are for.

**Compiler and stack machine** (`src/runtime/interpreter.c`, `src/runtime/environment.c`). `Bytecode` says what
the `analyze_*` functions emit, `Machine` what `interpret_byte`, `interpret_bytes`, `handle_go_result` and
`interpret_function_call` do to the form stack, the frame stack, the parallel stack of last returns, the
environments and the tag bindings. `Analyzer` and `InterpreterLoop` are the same code in its own form, classes
whose methods append to a byte list, bump tag indices in place and update the stacks, each proved against those
functions. `Evaluator` is an independent reference semantics: a definitional evaluator on forms with one flat
store, in which GO is an outcome travelling outward (Common Lisp HyperSpec, section 5.3 for LET\*, PROGN,
TAGBODY and GO, section 3.8 for QUOTE). Tags are kept as in the code, in one sorted array per environment,
searched under a comparator; `TagOrders` says which tags of a TAGBODY such an array keeps apart, and `FormOrder`
that `form_cmp` is such a comparator. `CompilerTheorem` proves that a run of the analyzed code and the
evaluation give the same answer, in both directions and for every amount of fuel. `SpecialForms` and
`OrdinaryCalls` say which names are special operators and that every other one is a call. `Boundaries`,
`SpecialValues`, `FailedAnalysis` and `TagBoundaries` show what goes wrong for each kind of program that the
theorem's domain (`Evaluator.Compilable`) shuts out, `MachineInvariants` what every code list keeps, compilable
or not, `Verifier*` that compiled code admits one static height of both stacks per instruction, and `Shadowing`
on which programs the assigning LET\* is the standard's.

**Allocator and collector** (`src/runtime/memory_manager.c`, the marker in `src/runtime/runtime.c` and
`interpreter.c`). `Arenas` is the 4 MiB block as a value, `MemoryManagers` the code itself: headers in an
address-to-header map, two linked lists through them (`HeaderLists`), first fit with splitting, the recursive
marker over the object graph of `Objects`, and the sweep. `ArenaRuns` proves tiling, accounting, what
collections free and when they happen, over whole runs; `HeapMoves` and `HeapRuns` add the program's side with
its roots, `HeapLists` what lists built by destructive appends hold, `StoredObjects` that what is stored is
reached, `MarkedObjects` what the marker's roots and its steps are, and `GarbageSafety` with `TagBindings` that
environments with tags are never reused.

**Reader and printer** (`src/runtime/reader.c`, `system_inherents.c`, `types.c`). `Reader` gives reading and
printing as functions of text, `ReaderMachine` the state machine over a moving stream, `CaseConversion`,
`ReaderSyntax`, `ReaderEnds` and `EscapedStrings` what single characters, breaking text and escapes do, against
character tables of their own, `ReadPrint` what reading printed text gives, `StringReading` and `ReadExactly`
when that is the form printed, `Packages` interning and generating symbols (`runtime.c`), `ReaderTables` the
reader over such a table, and `ReadEval` the way from text to value.

**Sorted-array map** (`src/util/map.c`, `src/util/util.c`) with its comparator `form_cmp`. `SortedArrays` is the
array with its shifting loop, `OrderedMaps` the mathematical map it refines, `FormOrder` when the comparator is
lawful, and that the machine's tag maps may use it.

## Where code and comments disagree

- `run_gc` says it removes all allocations still marked grey (`memory_manager.c:96`). It reads `cur->next`
  after `internal_deallocate` has put `cur` in front of the free list, so it goes on through the free list and
  frees only the first garbage chunk. The model does what the code does; `ArenaRuns.CollectionsComplete` says
  exactly when that is complete, `ArenaRuns.CollectAsMeantIff` when it is the sweep the comment describes.
- The `net_effects` table (`interpreter.c:22-27`) is unused and disagrees with `interpret_byte`, which the
  model follows.
- LET\* assigns a variable that is already bound (`environment.c:8-33`) instead of shadowing it. The reference
  evaluator does the same; `Shadowing` relates it to the shadowing one.
- `with_ret` is ignored for special forms (`interpreter.c:332-334`), a GO out of a call's argument is not
  propagated (`interpreter.c:550-557, 913`), only a TAGBODY's own tag bytes are relocated
  (`interpreter.c:177-181`), and empty bodies return what was returned last. Programs that run into these are
  outside `Compilable`, each with a lemma in `Boundaries` or `SpecialValues` showing the difference.
- `cased_char` leaves out the letter z (`reader.c:37-39`), and case is converted between bars as well
  (`reader.c:314-346`). The model does both.

## Model

| member | source | states |
|---|---|---|
| CompilerTheorem.InterpretFollowsEval | src/runtime/interpreter.c:133-399 | for every compilable form, every comparator that orders good tags, and every fuel, what the reference evaluator answers (value and store, error, or no answer yet) is what running the analyzed code answers, with form stack, frames and all other last returns as before |
| CompilerTheorem.EvalFollowsInterpret | src/runtime/interpreter.c:703-737 | conversely every answer of a run is the evaluator's; no run of a compilable form breaks the stack discipline or hands a GO to its caller |
| CompilerTheorem.SameTermination | src/runtime/interpreter.c:852-866 | the run ends for some fuel if and only if the evaluation does |
| Correctness.SimForm | src/runtime/interpreter.c:378-399 | the inductive core: code placed at any offset of any code list simulates its form, TAGBODY loops driven by GO included, and ends just behind it |
| Correctness.SimCall | src/runtime/interpreter.c:317-353 | a call leaves its value in place of function and arguments and restores frames, last returns and bindings |
| Correctness.SimArgs | src/runtime/interpreter.c:877-945 | arguments are evaluated left to right; the list in the scratch slot holds exactly their values in order |
| SpecialForms.IsSpecialForm | src/runtime/interpreter.c:74-94 | the search that stops at the first table entry not below the name finds the five operators, each its own, and nothing else |
| OrdinaryCalls.CallCodeIs | src/runtime/interpreter.c:336-353 | for every symbol with another name: look up the function, push the arguments as they are, call with their number |
| OrdinaryCalls.CallEvalIs | src/runtime/interpreter.c:877-972 | its evaluation applies the global function of that name to the list of the argument values, evaluated in order |
| OrdinaryCalls.CallStops | src/runtime/interpreter.c:893-913 | the first argument without a value decides the call, and the function is not applied |
| OrdinaryCalls.CallInterprets | src/runtime/interpreter.c:852-866 | and interpret() of it ends with that function's value, or ends the program if there is none |
| Correctness.SimLet | src/runtime/interpreter.c:208-270 | LET\* binds in sequence, runs its body and removes what it introduced, however the body is left |
| Correctness.SimTagbody | src/runtime/interpreter.c:133-193 | a TAGBODY runs its statements and restarts behind a tag whenever a GO to it arrives, any number of times |
| TagTable.PositionIsAfterTag | src/runtime/interpreter.c:148-175 | the index recorded last for a tag is where the code of the statements behind the tag's last occurrence starts, always within the statement code |
| TagTable.WithTagsFacts | src/runtime/interpreter.c:469-502 | after the tag bytes the new environment's sorted array answers for exactly the TAGBODY's tags, with their bumped positions, and no other environment's has changed |
| TagOrders.TagLookup | src/util/map.c:144-165 | in a sorted array holding good tags the search finds exactly the tags bound, and finds no other form, whatever the form |
| TagOrders.TagInserted | src/runtime/interpreter.c:469-502 | binding one more good tag, or one of them again, is that update of the map the array stands for |
| FormOrder.FormCmpOrders | src/runtime/types.c:5-28 | form_cmp is zero on no two different forms and a lawful order on all good sets of tags, which is all the compiler theorem asks of the comparator |
| TagBoundaries.StringTag | src/runtime/types.c:20-25 | with a string as tag the GO to it stops the program as unreachable, since the two strings are two objects; the evaluator would go on |
| TagBoundaries.AllFoundIff | src/runtime/interpreter.c:409-414 | under form_cmp an environment's map finds every tag put into it if and only if the tags are good: the wrapping differences of its fixnums put them in order, no two below each other and no three going round |
| TagBoundaries.FixnumFoundIff | src/runtime/types.c:20-22 | of two different fixnum tags of one TAGBODY the first is still found if and only if they are not exactly 2^31 apart |
| TagBoundaries.FixnumTag | src/runtime/interpreter.c:416-445 | at that distance the GO to the first stops the program, where the evaluator would go on |
| TagBindings.RunGrows | src/runtime/interpreter.c:469-502 | whatever code runs, calls and GOs included, no environment's entry in environment_bindings is ever removed |
| MachineInvariants.GoDecides | src/runtime/interpreter.c:635-701 | every GO is decided: exactly the bytecode frames above the innermost frame that binds the tag, or above the nearest call or base frame, are popped, all below is untouched, the chain is never left |
| MachineInvariants.RunSound | src/runtime/interpreter.c:447-737 | whatever the code list, a run keeps frames and last returns parallel, the frames' environments one chain down to the base, and every symbol bound at most once along it |
| MachineInvariants.ExecSound | src/runtime/interpreter.c:447-625 | each instruction keeps that invariant |
| MachineInvariants.CallSound | src/runtime/interpreter.c:877-972 | so does each call, also one that a GO leaves |
| FrameChain.LookupVariableMatches | src/runtime/environment.c:70-92 | looking a symbol of any package up through the frames' environments is looking it up in the flat store |
| FrameChain.LookupFunctionMatches | src/runtime/environment.c:94-116 | the same for functions |
| FrameChain.BindStore | src/runtime/environment.c:8-33 | binding at the top of the chain updates the flat store at that symbol and nowhere else |
| Environments.LookupAfterBind | src/runtime/environment.c:8-92 | after bind_value a symbol of the environment's package has the new value, a symbol of another package keeps its own, and so does every other symbol |
| Environments.OneJump | src/runtime/environment.c:70-92 | looking up a symbol of another package goes to that package's global environment once and then only up its chain |
| Boundaries.RelocationRightIff | src/runtime/interpreter.c:177-181 | a TAGBODY's tag indices are right if and only if its code ends up at the offset it was emitted for |
| Boundaries.NestedTagsAlwaysWrong | src/runtime/interpreter.c:157-184 | a TAGBODY that is a statement of another one has every tag index off by the same non-zero distance |
| Boundaries.EmptyTagbody | src/runtime/interpreter.c:134-137 | (TAGBODY) leaves a NIL on the form stack and returns the last return |
| Boundaries.EmptyProgn | src/runtime/interpreter.c:195-206 | (PROGN) returns the last return, which is NIL only if that was |
| Boundaries.QuotedLetValue | src/runtime/interpreter.c:237-239 | a quoted LET\* value goes to the last return, so that BIND-VALUE underflows an empty stack, aborts on a form below that is no symbol, and otherwise binds that symbol to the variable's name |
| SpecialValues.RetIgnored | src/runtime/interpreter.c:332-334 | whatever the special form, its code is the same with and without with_ret |
| SpecialValues.SpecialLetValue | src/runtime/interpreter.c:208-245 | as a LET\* value every special form that has a value computes it and leaves it in the last return, and BIND-VALUE then underflows, aborts, or binds the symbol below to the variable's name |
| FailedAnalysis.BadHead | src/runtime/interpreter.c:317-346 | a form headed by a list is an assertion, one headed by anything else but a symbol a failure, with nothing emitted |
| FailedAnalysis.BadArguments | src/runtime/interpreter.c:272-301 | special forms without the arguments they need are assertions |
| FailedAnalysis.BadStatement | src/runtime/interpreter.c:148-184 | one statement that fails to analyze makes the whole TAGBODY fail, wherever it stands |
| FailedAnalysis.BadSequence | src/runtime/interpreter.c:195-206 | behind any forms that analyze, an atom in place of the rest of a PROGN is an assertion |
| FailedAnalysis.BadStatements | src/runtime/interpreter.c:176-178 | so is one in place of the rest of a TAGBODY's statements |
| FailedAnalysis.BadBinding | src/runtime/interpreter.c:208-235 | and a LET\* binding that is no list, or whose value part is none, or an atom behind the bindings |
| FailedAnalysis.AssertionsSpread | src/runtime/interpreter.c:272-301 | an assertion in any part is one of the whole special form |
| FailedAnalysis.BadTagbodyRuns | src/runtime/interpreter.c:188-193 | and a TAGBODY that failed succeeds: it leaves an environment open, runs no statement, and answers NIL |
| FailedAnalysis.BadBodyRuns | src/runtime/interpreter.c:260-270 | a LET\* whose body fails to analyze runs the part in front of the failure, where a PROGN ends the program |
| FailedAnalysis.BadArgumentStops | src/runtime/interpreter.c:893-902 | an argument that does not analyze ends the program when its turn comes |
| FailedAnalysis.BadValueLeftOut | src/runtime/interpreter.c:237-239 | a LET\* value that fails to analyze is left out of the code |
| Boundaries.GoOutOfCall | src/runtime/interpreter.c:550-557 | a GO out of an argument leaves the call's frame and scratch slot behind and the tag as the call's value |
| Boundaries.EmptyLet | src/runtime/interpreter.c:247-270 | (LET\* ()) emits nothing and returns the last return, where NIL is due |
| VerifierSound.VerifiedCodeIsSafe | src/runtime/interpreter.c:447-625 | along every path of a run of verified code both stacks have the height computed for the instruction, no instruction underflows them, and a completed run has restored both |
| VerifierStates.GoStep | src/runtime/interpreter.c:635-701 | a GO taken in verified code resumes in the code list now running, at an instruction of the shape the state then has |
| VerifierGos.CompilableVerifies | src/runtime/interpreter.c:133-399 | the code of every compilable form verifies: one static form-stack and frame depth per instruction, agreeing along every fall-through and every GO, also out of LET\* frames |
| VerifierSound.CompiledCodeIsSafe | src/runtime/interpreter.c:703-737 | so compiled code never underflows a stack wherever interpret_bytes is entered with it |
| VerifierShapes.FormFolds | src/runtime/interpreter.c:272-399 | straight through, the code of a form has a shape everywhere and leaves the one it found |
| Shadowing.SameEval | src/runtime/environment.c:8-33 | on programs whose LET\*s bind new names only, the assigning LET\* and the shadowing one of section 5.3 of the HyperSpec give the same result, also when a GO enters a LET\* again |
| Shadowing.InterpretShadows | src/runtime/interpreter.c:208-270 | so the machine implements shadowing on those programs |
| Shadowing.RebindingShows | src/runtime/interpreter.c:503-526 | for one binding of a constant around a constant the two agree if and only if the name is new or already has the value |
| Analyzer.ByteList.IncrementIndicesBy | src/runtime/interpreter.c:99-111 | the in-place loop adds the increment to every BindTag index and changes nothing else |
| Analyzer.AnalyzeForm | src/runtime/interpreter.c:378-395 | appends exactly the specified code for the offset it starts at, with the specified status |
| Analyzer.AnalyzeCons | src/runtime/interpreter.c:317-353 | appends the code of a call or, for exactly the five operator names, of a special form; fails or asserts exactly when specified |
| Analyzer.PushArgs | src/runtime/interpreter.c:303-315 | pushes the argument forms unevaluated, in order, and counts them |
| Analyzer.AnalyzeLetStar | src/runtime/interpreter.c:247-270 | bindings, body, and one pop per binding; a failing body is cut short silently |
| Analyzer.AnalyzeLetStarBindings | src/runtime/interpreter.c:208-245 | one environment per binding; a failing value is ignored |
| Analyzer.AnalyzeProgn | src/runtime/interpreter.c:195-206 | the forms' code one behind the other, stopping at the first failure |
| Analyzer.AnalyzeTagbody | src/runtime/interpreter.c:133-193 | tag bytes with relocated indices in front of the statement code |
| Analyzer.AnalyzeSpecialForm | src/runtime/interpreter.c:272-301 | dispatches to the special form's analyzer |
| InterpreterLoop.Interpreter.PushEnvironment | src/runtime/interpreter.c:1008-1035 | the whole new state: a fresh child environment, frame and NIL last return |
| InterpreterLoop.Interpreter.PopEnvironment | src/runtime/interpreter.c:1037-1049 | the whole new state: the popped last return replaces the one below |
| InterpreterLoop.Interpreter.BindValueRec | src/runtime/environment.c:8-33 | assigns in the nearest environment that binds the symbol, else binds where told |
| InterpreterLoop.Interpreter.CheckValidTag | src/runtime/interpreter.c:416-445 | the walk down the frames answers whether some frame binds the tag |
| InterpreterLoop.Interpreter.HandleGoResult | src/runtime/interpreter.c:635-701 | the unwinding loop reaches the decision of Machine.HandleGo and its state |
| InterpreterLoop.Interpreter.InterpretByte | src/runtime/interpreter.c:447-625 | the state and signal of every instruction |
| InterpreterLoop.Interpreter.EvaluateArguments | src/runtime/interpreter.c:893-945 | the argument loop, which appends to the last cell of the list in the scratch slot |
| InterpreterLoop.Interpreter.InterpretFunctionCall | src/runtime/interpreter.c:877-972 | the state and result of a call |
| InterpreterLoop.Interpreter.InterpretBytes | src/runtime/interpreter.c:703-737 | the loop with its jumps gives Machine.Run's answer and state |
| InterpreterLoop.Interpreter.InterpretForm | src/runtime/interpreter.c:852-866 | analyze, then run: the function the compiler theorem is about |
| Arenas.AllocateValid | src/runtime/memory_manager.c:126-179 | an allocation, split or exact, collecting or not, keeps chunks tiling the block, each on one list, sizes conserved, counters exact |
| Arenas.DeallocateValid | src/runtime/memory_manager.c:181-213 | so does a deallocation |
| Arenas.CollectValid | src/runtime/memory_manager.c:78-108 | so does a collection |
| ArenaRuns.RunValid | src/runtime/memory_manager.c:126-213 | hence every state a run reaches is tiled, listed, conserved and counted |
| ArenaRuns.FirstGrant | src/runtime/memory_manager.c:42-179 | the first request is granted up to 4194256 bytes and at 4194280, at offset 24, and collects from 1024 bytes on |
| ArenaRuns.EveryByteInOneChunk | src/runtime/memory_manager.c:20-31 | every byte of the 4 MiB block belongs to exactly one chunk |
| ArenaRuns.AllocateTakesFirstFit | src/runtime/memory_manager.c:126-145 | allocation fails exactly when no free chunk is of the exact size or leaves room for another header; otherwise it takes the first that is or does |
| ArenaRuns.AllocateKeepsUsed | src/runtime/memory_manager.c:146-179 | a marked chunk in use keeps its size; the chunk handed out has the size asked for, was not in use, and survives the collection it triggers |
| ArenaRuns.DeallocateSucceedsIff | src/runtime/memory_manager.c:181-213 | deallocate passes its assertions if and only if the chunk is in use and the size is the one asked for |
| ArenaRuns.DeallocateUndoesAllocate | src/runtime/memory_manager.c:181-204 | giving a chunk back restores the allocated list, and the next request of that size gets the same address |
| ArenaRuns.PinnedOverRun | src/runtime/memory_manager.c:78-179 | a chunk that every collection of a run finds marked and nobody gives back never moves, changes size or is handed out again |
| ArenaRuns.InspectIsPayload | src/runtime/memory_manager.c:221-224 | the wrapping difference of the two counters is exactly the payload in use |
| ArenaRuns.CollectFreesOne | src/runtime/memory_manager.c:96-103 | one collection gives back the first garbage chunk of the allocated list, and leaves everything else in its order |
| ArenaRuns.CollectionsComplete | src/runtime/memory_manager.c:96-103 | n collections leave exactly the reachable chunks, in their original order, if and only if at most n were garbage |
| ArenaRuns.SweepAllExact | src/runtime/memory_manager.c:96-103 | the sweep as its comment has it, with each link read before its chunk is given back, leaves exactly the reachable chunks in their order and frees all others |
| ArenaRuns.CollectAsMeantIff | src/runtime/memory_manager.c:96-108 | a collection as written does the same if and only if at most one chunk is garbage |
| ArenaRuns.CollectionSchedule | src/runtime/memory_manager.c:9-10 | k collections mean at least 512 * 2^k bytes granted, until the 32-bit threshold has doubled to 0 at the 22nd, from when on every granted request collects |
| Objects.ReachesByChild | src/runtime/runtime.c:293-358 | reachability by paths satisfies the marker's recursion |
| Objects.ReachedStays | src/runtime/runtime.c:394-404 | from closed roots nothing outside is reached |
| MarkedObjects.RootsAreHeld | src/runtime/interpreter.c:779-850 | the roots are exactly the objects the runtime holds: every symbol, interned or exported, global environment and readtable of every package, everything on both stacks, every frame's environment, function environments, tagged environments and tags, the system readtable and the interpreter |
| MarkedObjects.ChildrenArePointedTo | src/runtime/runtime.c:293-358 | the marker follows exactly what an object points to, kind by kind |
| MarkedObjects.MarkedIsClosed | src/runtime/runtime.c:394-404 | what a collection marks has all that is held, and with an object all it points to |
| MarkedObjects.MarkedIsLeast | src/runtime/runtime.c:394-404 | and nothing more: it is the least such set |
| MarkedObjects.SymbolsNeverReused | src/runtime/runtime.c:359-392 | over every run of grants, collections and returns the symbols in the packages' tables and their characters stay in use with their sizes, and no address granted is one of them |
| MarkedObjects.NewSymbolKeptIff | src/runtime/runtime.c:115-131 | a symbol being interned is still in use when it is entered in the table if and only if the allocation of its characters did not collect |
| StoredObjects.CreatedReaches | src/runtime/runtime.c:115-131 | from a created object everything it was created with is reached |
| StoredObjects.ReboundReaches | src/runtime/environment.c:8-62 | from an environment its parent and every symbol, value and function bound in it are reached |
| StoredObjects.FilledReaches | src/runtime/system_inherents.c:273-281 | from a string its characters are reached once they are filled in |
| StoredObjects.AppendedReaches | src/runtime/interpreter.c:917-945 | from an appended cell its value is reached, and from the cell in front the new one |
| MemoryManagers.MemoryManager.constructor | src/runtime/memory_manager.c:42-74 | one free chunk, the whole block |
| MemoryManagers.MemoryManager.MarkObject | src/runtime/runtime.c:293-358 | on a graph with a falling rank the unguarded recursion ends and blackens exactly what is reachable from the object |
| MemoryManagers.MemoryManager.MarkInterpreter | src/runtime/interpreter.c:835-850 | blackens exactly what the stacks, frames, function environments and tag bindings reach |
| MemoryManagers.MemoryManager.MarkPackage | src/runtime/runtime.c:380-392 | blackens exactly what a package's global environment, readtable, interned and exported symbols reach |
| MemoryManagers.MemoryManager.MarkRuntime | src/runtime/runtime.c:394-404 | blackens exactly what is reachable from all roots |
| MemoryManagers.MemoryManager.Sweep | src/runtime/memory_manager.c:96-103 | the walk that continues in the free list frees exactly the first grey chunk |
| MemoryManagers.MemoryManager.RunGc | src/runtime/memory_manager.c:78-108 | marking and sweeping on the headers is Arenas.Collect keeping exactly the reachable chunks and the trigger |
| MemoryManagers.MemoryManager.Allocate | src/runtime/memory_manager.c:126-179 | header splitting and relinking is Arenas.Allocate |
| MemoryManagers.MemoryManager.InternalDeallocate | src/runtime/memory_manager.c:181-204 | unlinks the chunk wherever it is and puts it in front of the free list; false, with nothing changed, exactly for a chunk not in use |
| MemoryManagers.MemoryManager.Deallocate | src/runtime/memory_manager.c:206-213 | is Arenas.Deallocate, with both assertions |
| MemoryManagers.MemoryManager.InspectAllocation | src/runtime/memory_manager.c:221-224 | returns the payload in use |
| HeaderLists.ReleasedChains | src/runtime/memory_manager.c:196-202 | redirecting two links takes a chunk off one list and puts it in front of the other, both still acyclic chains |
| HeapRuns.StepSane | src/runtime/interpreter.c:897-945 | creating objects, filling in a string's or symbol's characters, appending to a private list, closing it, rebinding environments and dropping roots, with collections underneath, keep the heap acyclic, live chunks in use and lists under construction private |
| HeapRuns.TrimSane | src/runtime/memory_manager.c:78-108 | so does taking for live, at every step, exactly what the roots and the lists under construction reach |
| HeapMoves.AppendAcyclic | src/runtime/system_inherents.c:156-170 | replacing the NIL cdr of the private last cell by a fresh cons keeps a rank that falls along every pointer |
| HeapLists.AppendHolds | src/runtime/interpreter.c:917-945 | the list read from its first cell then has the values it had, and the new one behind them |
| HeapLists.ListsHoldAppends | src/runtime/interpreter.c:877-945 | in every state of every run each list under construction, read from its first cell, holds exactly the values appended to it since it was begun, in order, whatever nested lists, new objects, rebindings and collections came in between |
| HeapLists.KnownFormsStay | src/runtime/system_inherents.c:156-170 | no move changes what a form that others may know stands for, to any depth: the destructive append is seen by its own list only |
| HeapRuns.EveryRunIsSane | src/runtime/runtime.c:293-300 | in every state a run of the program reaches, what a collection would keep is exactly what the current roots reach, the marker's recursion on it ends, and all of it is in use |
| GarbageSafety.CollectionFreesGarbage | src/runtime/memory_manager.c:78-108 | a collection with the runtime's marks frees nothing reachable, and at most one chunk |
| GarbageSafety.TaggedNeverReused | src/runtime/interpreter.c:823-850 | over every run of allocations, collections and deallocations, with bindings that only grow, no address granted is at that moment a key of environment_bindings, so that a new environment has no stale tags |
| ReadExactly.ReadUndoesPrint | src/runtime/reader.c:207-381 | for every tree of strings, NIL, T and symbols that print as tokens, reading the printed text gives the form back and stops right behind it if and only if the form is readable (strings, and symbols found under their own unconverted non-numeric name, in non-empty proper lists) and its text parses (no string has a quote, backslash or zero character, and the text between each list's parentheses is well nested for a counter that knows no strings) |
| ReadExactly.ComesBack | src/runtime/reader.c:207-381 | the harder half: nothing else comes back, not by a text cut short nor by one cut in the wrong place |
| ReadExactly.OpenInString | src/runtime/system_inherents.c:104-122 | a list of one string with an open parenthesis prints as text whose reading never ends |
| ReadExactly.GensymNeverReads | src/runtime/types.c:71-78 | what a generated symbol prints as never reads |
| ReadExactly.GensymsPrintApart | src/runtime/types.c:71-78 | two generated symbols print alike if and only if they have one name and one number |
| ReadPrint.SymbolsParse | src/runtime/types.c:30-55 | the text of a tree without strings always parses, so that readability alone decides |
| StringReading.StringUndoesPrint | src/runtime/system_inherents.c:229-292 | a printed string reads back, up to its closing quote, if and only if it has no quote, backslash or zero character, as it is printed without escapes |
| EscapedStrings.StringReadIff | src/runtime/system_inherents.c:190-272 | the text read up to the closing quote is t if and only if what stands there is a writing of t: characters as themselves, or escaped by the table of letters and octal digits |
| EscapedStrings.EscapedReadsBack | src/runtime/system_inherents.c:190-292 | every text without a zero character, written with escapes, reads back as the string, up to exactly the closing quote |
| EscapedStrings.ZeroCutsShort | src/runtime/system_inherents.c:273-290 | with a zero character the string is the text in front of it |
| ReadExactly.QuoteRead | src/runtime/system_inherents.c:294-333 | a quote in front of a readable form's text gives (QUOTE form) |
| ReadPrint.NumberRead | src/runtime/reader.c:86-113 | the decimal digits of a number, zeros in front or not, are read as that number modulo 2^32 below 2^63, and as 2^32 - 1 from there on, where strtol saturates |
| ReadPrint.PrintRead | src/runtime/types.c:30-55 | what reading printed text gives in general, for dotted pairs, NIL, T and other symbols too, and that exactly the text is consumed |
| ReadPrint.ExtractsMatching | src/runtime/system_inherents.c:104-122 | the parenthesis counter extracts a text if and only if it is well nested and followed by the matching close parenthesis |
| ReadPrint.TokenRead | src/runtime/reader.c:277-312 | a run of token characters is read up to the delimiter, which stays in the stream |
| ReadPrint.ReadBackSame | src/runtime/types.c:71-78 | a form is its own reading if and only if it is readable |
| ReadPrint.UpcaseFixes | src/runtime/reader.c:37-77 | with the standard case a name is its own conversion if and only if it has no letter from a to y |
| CaseConversion.ConvertsLetter | src/runtime/reader.c:28-77 | conversion turns each letter into the one at the same place of the other alphabet where the readtable's case says so, small z excepted, and leaves every other character |
| CaseConversion.ConvertsName | src/runtime/reader.c:79-82 | a token's name is letter by letter what its characters become, this name and no other |
| CaseConversion.InvertTwice | src/runtime/reader.c:65-76 | inverting twice gives a name back if and only if it has no capital Z |
| ReaderSyntax.TraitsAre | src/runtime/reader.c:115-186 | the classes of characters, each by the list of its characters |
| ReaderSyntax.TokenReads | src/runtime/reader.c:268-312 | a token of digits alone reads as the number they stand for, place by place, saturated and cut to a word; any other as the symbol named by its converted letters, found in the table or new in the package with number 0 |
| ReaderSyntax.TokenAborts | src/runtime/reader.c:298-299 | a token that runs into a character of no class aborts |
| ReaderSyntax.BarsRead | src/runtime/reader.c:314-346 | text between bars is a symbol's name, digits alone as well, its case converted |
| ReaderSyntax.SpaceSkipped | src/runtime/reader.c:226-240 | the five white space characters in front of a form are skipped |
| ReaderSyntax.Aborts | src/runtime/reader.c:236-262 | a number sign, a closing parenthesis or a character of no class aborts where a form should begin |
| ReaderSyntax.VerticalTab | src/runtime/system_inherents.c:69-79 | a vertical tab is space in front of a list's end and aborts in front of an element |
| ReaderEnds.ListReads | src/runtime/system_inherents.c:101-178 | a list is its well-nested text's elements |
| ReaderEnds.ElementsRead | src/runtime/system_inherents.c:137-170 | which are read in turn: the list has them in order, or the first that is none decides |
| ReaderEnds.OpenListHangs | src/runtime/system_inherents.c:101-122 | without a closing parenthesis for it, reading a list never ends |
| ReaderEnds.OpenStringHangs | src/runtime/system_inherents.c:252-272 | nor does reading a string that is not closed |
| ReaderEnds.BreaksOff | src/runtime/reader.c:314-318 | text that ends between bars or before a form aborts |
| ReaderEnds.QuoteFollows | src/runtime/system_inherents.c:294-333 | a quote reads as (QUOTE form), or fails as what it quotes |
| ReadEval.QuoteInterprets | src/runtime/interpreter.c:286-292 | interpreting (QUOTE form) gives the form, in the machine and in the evaluator |
| ReadEval.QuotedTextGivesForm | src/runtime/system_inherents.c:294-333 | reading a quote and a readable form's text and interpreting it gives the form |
| ReadEval.OperatorsInSmallLetters | src/runtime/reader.c:55-77 | with the standard case every spelling of an operator's name in small letters and capitals reads as the operator |
| ReadPrint.ReadAfterIntern | src/runtime/runtime.c:102-133 | a symbol interned on the way does not change what is read |
| Packages.InternStable | src/runtime/runtime.c:102-133 | interning a name again gives the same symbol, whatever was interned and generated in between, if and only if no symbol was generated under that name |
| Packages.GensymsDiffer | src/runtime/runtime.c:135-173 | symbols generated under one name are numbered upwards over every run |
| Packages.IdsCount | src/runtime/runtime.c:102-173 | the number under a name counts exactly the symbols generated under it |
| Packages.StaysNamed | src/runtime/runtime.c:102-173 | the table keeps holding symbols under their own names, as the reader's round trip needs |
| Packages.StaysOwned | src/runtime/runtime.c:102-173 | every symbol that joins a package's table, interned or generated, is that package's |
| Packages.SymbolsFromStart | src/runtime/runtime.c:102-173 | in a table begun empty the symbol under a name has that name, the package, and as its number how often one was generated under it |
| Packages.InternGives | src/runtime/runtime.c:102-133 | interning a name in the table changes nothing; another adds a symbol with that name, the package and number 0, and nothing else |
| Packages.GensymGives | src/runtime/runtime.c:135-173 | a generated symbol is not the table's of that name, and takes its place only |
| ReaderTables.ReaderInterns | src/runtime/reader.c:351-369 | the symbol the reader gives a name is the one interning it in the current package's table gives |
| ReaderTables.TokenReadsSymbol | src/runtime/reader.c:351-369 | whatever was interned and generated before, a token reads as the symbol of its converted name in the current package, numbered by the symbols generated under it |
| ReaderTables.QuoteIsInterned | src/runtime/system_inherents.c:299-301 | the quote macro's symbol is COMMON-LISP's QUOTE if and only if none was generated under that name |
| Packages.Package.InternSymbol | src/runtime/runtime.c:102-133 | the symbol and the whole new table are those of InternIn, which InternGives and SymbolsFromStart say the meaning of |
| Packages.Package.Gensym | src/runtime/runtime.c:135-173 | the symbol and the whole new table |
| ReaderMachine.Stream.OnlySpaceLeft | src/runtime/system_inherents.c:69-79 | whether only space is left from the stream's position on |
| ReaderMachine.ReadToken | src/runtime/reader.c:277-346 | steps 8 and 9 as a loop: the token, whether it was escaped, and where the stream stands |
| ReaderMachine.ReadForm | src/runtime/reader.c:207-381 | the state machine reads the specified form and leaves the stream behind it |
| ReaderMachine.ExtractList | src/runtime/system_inherents.c:101-122 | the counting loop gives the extracted text and leaves the stream behind the parenthesis |
| ReaderMachine.ReadList | src/runtime/system_inherents.c:124-178 | reading the extracted text form by form, appending each to the last cell, gives the specified list |
| ReaderMachine.ReadDoubleQuote | src/runtime/system_inherents.c:229-292 | the loop reads the string's text up to the closing quote, the one EscapedStrings.StringReadIff describes |
| ReaderMachine.ReadMacro | src/runtime/system_inherents.c:181-333 | the reader macros' results, among them (QUOTE form) for a quoted one |
| OrderedMaps.LookupRefines | src/util/map.c:144-165 | with a lawful comparator the early-exit search finds exactly the mathematical map's keys and values |
| OrderedMaps.InsertMeaning | src/util/map.c:25-67 | inserting is updating the mathematical map |
| OrderedMaps.InsertSorted | src/util/map.c:25-67 | and keeps the keys strictly sorted |
| OrderedMaps.RemoveMeaning | src/util/map.c:69-92 | removing is removing from the mathematical map |
| OrderedMaps.RemoveSorted | src/util/map.c:69-92 | and keeps the keys strictly sorted |
| OrderedMaps.OperationsRefine | src/util/map.c:25-127 | after any sequence of inserts and removes every lookup answers as the mathematical map does |
| SortedArrays.ShiftItems | src/util/util.c:5-14 | the overlapping one-at-a-time moves shift every item by one place and lose none, in both directions |
| SortedArrays.OrderedMap.FindItem | src/util/map.c:144-165 | the loop stops at the specified place |
| SortedArrays.OrderedMap.Insert | src/util/map.c:25-67 | the new entries, growing the array when it is full |
| SortedArrays.OrderedMap.Remove | src/util/map.c:69-92 | the removed value and the new entries |
| SortedArrays.OrderedMap.Get | src/util/map.c:94-109 | the value found, if any |
| SortedArrays.OrderedMap.Ref | src/util/map.c:111-127 | where that value lies |
| FormOrder.ZeroIffIdentical | src/runtime/types.c:5-28 | form_cmp is zero exactly on identical forms |
| FormOrder.TypesInOrder | src/runtime/types.c:5-28 | fixnums come before characters, NIL, T and objects, and objects go by address, counted in objects of four bytes |
| FormOrder.CharsInOrder | src/runtime/types.c:17-19 | characters compare as signed ones: 128 to 255 come before the others |
| FormOrder.LawfulIff | src/runtime/types.c:20-22 | its wrapping subtraction is a lawful total order if and only if all fixnums are below 2^31 |
| FormOrder.TagMapRefines | src/runtime/interpreter.c:409-414 | a map of such tags answers every lookup as the mathematical map does |
| FormOrder.TagLost | src/runtime/types.c:20-22 | with 0 and 2^31 as tags, one that was put in is not found again |

## Left out

- REPL, FORMAT, printf tracing, `FILE` and `tmpfile`: input is text plus a position, output is not modelled.
- Inherent functions: any function from function and argument list to one value or an abort; their side
  effects on the stacks and their own calls into the interpreter are not modelled, except the reader macros.
- Fuel: functions and methods that run code count loop rounds; the theorems hold for every amount, so that
  only non-termination itself is left as "no answer for any fuel".
- Special forms as LET\* values, empty bodies, forms that fail to analyze, GO to a tag of an inner TAGBODY
  compiled into the same code list, GO out of a call's argument: outside the domain of the compiler theorem, each
  with a lemma on what happens instead.
- Strings as tags of a TAGBODY, and fixnum tags of one TAGBODY that their wrapping differences do not put in order:
  outside the domain of the compiler theorem, with `TagBoundaries` on what happens instead; the objects' addresses,
  which order the other tags, are a parameter.
- ReadExactly.ReadUndoesPrint: is about strings, NIL, T and symbols that print as one token; fixnums, characters
  and functions print as text that does not read back, and `Print` does not cover them.
- ReaderMachine.ReadForm: strtol's reading on behind a token without terminator is not modelled.
- MemoryManagers.MemoryManager.MarkObject: dispatches on the kind of object, where the C code has one function
  for objects and one for environments and knows statically which to call.
- HeapRuns.EveryRunIsSane: the roots after each move are given with it; C local variables are no roots in the
  code, and what only they hold between two allocations stays live here only if the given roots reach it.
- SortedArrays.OrderedMap.Insert: failing reallocation; item sizes in bytes are items.
- Raw bytes, alignment, dangling pointers after reallocation: addresses are naturals, frames and environments
  are named by their index, `prev` pointers are indices into the frame stack.
- Reuse of environment addresses: the machine's environments live in a heap that only grows; that addresses
  with tags are not reused is proved on the allocator instead.
- Package import and export, `function_environments`, multiple values, user-defined functions, `#`
  macros: unused, unfinished, or only easy members.
- Running out of memory in the interpreter: the C code writes through a null pointer; `HeapRuns` ends the run.
