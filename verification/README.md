# Lua core, SHA-1 and child waiting: models and proofs

A Dafny model of the parts of this repository that carry the most logic, with proofs of what they are for:
the core of the vendored Lua 5.3.1, the streaming SHA-1, and the way processes are waited for in `luau`.

| part | files |
|---|---|
| incremental garbage collector and string interning | `gc_heap`, `gc_state`, `gc_fields`, `gc_steps`, `gc_proofs`, `gc_mutator`, `gc_runs`, `gc_atomic`, `gc` |
| ephemeron tables | `ephemeron` |
| tables: array part, scatter table, rehash, traversal, borders | `table_nodes`, `table_sizes`, `table_state`, `table_traversal`, `table` |
| expression compiler and the instructions it uses | `integers`, `bytecode`, `code_*`, `expressions`, `jump_lists`, `lcode`, `expression_compiler`, `operator_laws` |
| operator-precedence parser | `lparser_subexpr`, `precedence` |
| pattern matching | `patterns`, `pattern_search`, `lstrlib_match`, `pattern_laws` |
| `%q` and string literals | `quoted`, `llex_string`, `literal_laws` |
| string packing | `packed_integers`, `packing`, `lstrlib_pack`, `byte_order`, `packing_laws` |
| upvalues | `upvalues`, `upvalue_proofs`, `upvalue_runs`, `lfunc` |
| SHA-1 | `sha1_spec`, `sha1_rounds`, `sha1`, `sha1_vector` |
| table.sort | `quicksort` |
| waiting for child processes | `childwait`, `childwait_limits`, `xpio` |
| precompiled chunks | `chunks`, `ldump`, `lundump`, `chunk_layout` |

Code that updates state in place is a class whose methods are proved against functions or relations on the state
as a value; the theorems are about those. A hash collision, a barrier or a jump list is modelled with the same
branches as in the source. Objects are identities in maps, so that a run can be stated as a sequence of states.
Integers have the source's width where it matters: 64-bit Lua integers wrap, 32-bit words are bit vectors.

What a method and its specification both rest on is fixed by laws of its own, written out without it: the fields that
refer to objects (`gc_fields`), what the operators answer (`operator_laws`), their levels (`precedence`), the characters
of a class (`pattern_laws`), escapes (`literal_laws`), the letters of a format (`packing_laws`), the bytes of a chunk
(`chunk_layout`) and of a digest (`sha1_vector`).

Where the code does not keep what it is for on all inputs, the exact condition is stated:

- An exit before the first process object is lost: `ChildWaitLimits.LostExactly`, with the run `FirstExitIsLost`.
- The signal handler blocks over a full pipe: `ChildWaitLimits.StuckExactly` and `BlocksExactly`, with the runs of
  `HandlerMayBlock`; what this leaves of a wait is in `GoesOnExactly`.
- A `z` option loses strings longer than an int: `Packing.RoundTrip`, with the example `LongZstrIsLost`.
- The limits on nesting and on lines: `Subexpr.RoundTrip` and `Quoted.ReadsBack`.
- Functions without a source inside of functions with one: `Chunks.RestoredIsSame`.
- The bit counter after an update of 2^29 bytes or more: `Sha1Streaming.CountIsRight`.

## Model

| member | source | states |
|---|---|---|
| GcRuns.Safety | lua/lua-5.3.1/src/lgc.c:1043-1096 | In every run from a new state, or from any state with the invariant, such as the one in which the collector is first allowed to run: no object reachable from a root in some state has been freed, and none is freed by the next step. A run interleaves collector steps with allocations, stores with their barriers, pushes, pops, upvalue writes, string interning, and new values of the registry and of the metatables of basic types. |
| GcRuns.FieldsAreSafe | lua/lua-5.3.1/src/lgc.c:1043-1096 | The same without paths: in every state of such a run there is a set with all the roots, and with all that the fields of its members refer to, of which nothing has been freed or is freed by the next step. |
| GcFields.AccIsLeast | lua/lua-5.3.1/src/lgc.c:428-545 | To be reachable, in all the statements here, is to be in every set that has the roots - main thread, stack, registry, metatables of basic types, fixed objects - and all that the fields of its members refer to: metatable and slots of a table, metatable and user value of a userdata, prototype and closed upvalues of a Lua closure, values of a C closure, constants of a prototype. |
| GcRuns.RunKeeps | lua/lua-5.3.1/src/lgc.h:14-25 | Every state of every run satisfies the invariant: while marking no black object points to a white one and every gray object but the fixed ones is in exactly one gray list; in a sweep what survives is closed under references. |
| GcRuns.FreedIsGarbage | lua/lua-5.3.1/src/lgc.c:690-748 | Whatever a step frees was reachable from no root before it. |
| GcRuns.GarbageIsFreed | lua/lua-5.3.1/src/lgc.c:332-339 | What is unreachable when a cycle restarts is gone when the cycle reaches GCScallfin, except a short string the program interned again in between. |
| GcRuns.QuietCycle | lua/lua-5.3.1/src/lgc.c:1103-1111 | A cycle with no program step in between ends with exactly the objects that were reachable at its start. |
| GcRuns.AbortedSweepFreesNothing | lua/lua-5.3.1/src/lgc.c:1159-1161 | After a cycle is given up without a flip no sweep step frees anything, whatever the program does meanwhile. |
| GcRuns.AbortKeepsAll | lua/lua-5.3.1/src/lgc.c:955-962 | Entering the sweep from a marking phase keeps the heap and the reachable set as they are. |
| GcRuns.StepsKeep | lua/lua-5.3.1/src/lgc.c:1043-1096 | A run of collector steps alone only removes objects, changes none of those that stay, and leaves the reachable set the same. |
| GcRuns.NextDooms | lua/lua-5.3.1/src/lgc.c:150-186 | A set of garbage objects fixed at the start of a cycle stays garbage over every step, except strings brought back by interning. |
| GcMutator.NextKeeps | lua/lua-5.3.1/src/lgc.c:150-211 | Each program step, with its barrier, and each collector step keeps the invariant. |
| GcMutator.StoreKeeps | lua/lua-5.3.1/src/lgc.c:150-175 | A store followed by the forward or the backward barrier keeps the invariant in every phase. |
| GcMutator.WhitenKeeps | lua/lua-5.3.1/src/lgc.c:156-160 | Whitening the written object in a sweep, as the forward barrier does, keeps the invariant. |
| GcMutator.RerootKeeps | lua/lua-5.3.1/src/lapi.c:222-234 | A new value of the registry, or of a metatable of a basic type, needs no barrier: without one the invariant is kept in every phase. |
| GcMutator.CellKeeps | lua/lua-5.3.1/src/lgc.c:180-186 | A write to a closed upvalue followed by the upvalue barrier keeps the invariant. |
| GcMutator.InternKeeps | lua/lua-5.3.1/src/lstring.c:151-178 | Interning a string, found or new, dead or alive, keeps the invariant. |
| GcMutator.ResurrectKeeps | lua/lua-5.3.1/src/lstring.c:160-162 | A dead string that is asked for again and changes its white is not freed and breaks nothing. |
| GcMutator.FixKeeps | lua/lua-5.3.1/src/lgc.c:189-196 | Moving an object to the list of fixed ones, gray for ever and in no gray list, keeps the invariant. |
| GcProofs.CollectorKeeps | lua/lua-5.3.1/src/lgc.c:1043-1096 | Each of the collector's steps keeps the invariant. |
| GcProofs.FlipKeeps | lua/lua-5.3.1/src/lgc.c:1019-1021 | After 'atomic' flips the white, the objects a sweep will spare are exactly the marked ones, and they are closed under references. |
| GcProofs.EnterSweepFrees | lua/lua-5.3.1/src/lgc.c:955-962 | Entering the sweep frees only objects of the other white from the head of the list and leaves everything else. |
| GcState.AccessibleIsLive | lua/lua-5.3.1/src/lgc.h:94-96 | Under the invariant a reachable object exists and does not carry the white that the sweep frees. |
| GcAtomic.OneShrinks | lua/lua-5.3.1/src/lgc.c:597-599 | Each 'propagatemark' leaves fewer white objects, or as many and a shorter gray list: marking terminates. |
| GcAtomic.LastPass | lua/lua-5.3.1/src/lgc.c:980-1020 | The passes of 'atomic' end with a marked set that holds the roots and is closed under references. |
| Gc.StepProgress | lua/lua-5.3.1/src/lgc.c:1043-1096 | Every collector step goes to the next phase or strictly reduces the white objects, the gray list or the rest of the sweep. |
| Gc.Collector.ReallyMarkObject | lua/lua-5.3.1/src/lgc.c:230-278 | Marks the object and, through userdata, what it must mark at once; every object it blackens refers to marked ones only, and nothing is marked that the object does not lead to. It terminates. |
| Gc.Collector.PropagateMark | lua/lua-5.3.1/src/lgc.c:553-594 | Takes one object off the gray list, marks what it holds and blackens it, or keeps a thread gray in 'grayagain'. |
| Gc.Collector.AtomicMarking | lua/lua-5.3.1/src/lgc.c:980-1017 | When the loops of 'atomic' are done, the marked set contains the roots and is closed under references, and only what the roots lead to was added. |
| Gc.Collector.SweepObjects | lua/lua-5.3.1/src/lgc.c:728-748 | The loop of 'sweeplist' frees the dead ones among the next n objects and whitens the others, and sets the cursor to NULL at the end of the list. |
| Gc.Collector.EnterSweepPhase | lua/lua-5.3.1/src/lgc.c:751-766 | 'sweeptolive' stops at the first object that survives, or at the end of the list. |
| Gc.Collector.SingleStep | lua/lua-5.3.1/src/lgc.c:1043-1096 | One call is one of the collector's steps and keeps the invariant. |
| Gc.Collector.RunTilState | lua/lua-5.3.1/src/lgc.c:1103-1107 | It terminates in a wanted state; on the way objects are only removed and the reachable set stays the same. |
| Gc.Collector.FullGc | lua/lua-5.3.1/src/lgc.c:1155-1171 | From any state, in the middle of a cycle or not, what is left afterwards is exactly what was reachable, unchanged: no root and no field of a survivor refers to a freed object, and of every set that has the roots and all its members' fields refer to nothing outside survives. |
| Gc.Collector.InternShrStr | lua/lua-5.3.1/src/lstring.c:151-178 | Returns the one string with this text, brings it back if it is dead, and leaves it on the stack. |
| Gc.Collector.NewObject | lua/lua-5.3.1/src/lgc.c:203-211 | The new object is white of the current white, first in 'allgc', and anchored. |
| Gc.Collector.FixObject | lua/lua-5.3.1/src/lgc.c:189-196 | The newest object leaves 'allgc' for the fixed ones and turns gray. |
| Gc.Collector.SetTableSlot | lua/lua-5.3.1/src/lapi.c:774-787 | A raw store with its backward barrier is one program step of the runs above. |
| Gc.Collector.SetMetatable | lua/lua-5.3.1/src/lapi.c:822-859 | Setting a metatable with its forward barrier is one program step of the runs above. |
| Gc.Collector.InitRegistry | lua/lua-5.3.1/src/lstate.c:176-188 | In a new state it makes the registry table with the main thread and the table of globals in it, and the invariant holds for that state. |
| Gc.Collector.ReplaceRegistry | lua/lua-5.3.1/src/lapi.c:222-234 | Copying a value to the registry index is one program step of the runs above. |
| Gc.Collector.SetBasicMetatable | lua/lua-5.3.1/src/lapi.c:822-859 | Setting the metatable of a basic type is one program step of the runs above. |
| Gc.Collector.SetUpvalue | lua/lua-5.3.1/src/lvm.c:813-818 | Assigning an upvalue with its barrier is one program step of the runs above. |
| Gc.Collector.CloseUpvalue | lua/lua-5.3.1/src/lfunc.c:83-96 | Closing an upvalue with its barrier is one program step of the runs above. |
| Ephemeron.Atomic.ConvergeEphemerons | lua/lua-5.3.1/src/lgc.c:602-617 | Terminates with the least set that contains the old marks and is closed: a value of an ephemeron table is marked only if its key is (strings always are) or it is otherwise reachable. |
| Ephemeron.LeastIsUnique | lua/lua-5.3.1/src/lgc.c:602-617 | That set does not depend on the order in which the tables are visited. |
| Ephemeron.ClosedSetIs | lua/lua-5.3.1/src/lgc.c:389-425 | What it means to be closed, entry by entry: an entry without a value holds nothing, a string key is held, and a value is held if its key is, or is a string or no object. |
| Ephemeron.ClearedExactly | lua/lua-5.3.1/src/lgc.c:633-645 | Clearing takes the value, and nothing else, of exactly the entries whose key is an unmarked object that is no string. |
| Ephemeron.Atomic.TraverseEphemeron | lua/lua-5.3.1/src/lgc.c:389-425 | Reports a change exactly if it marked something; if not, all entries whose key is marked have a marked value. |
| Ephemeron.Atomic.VisitTables | lua/lua-5.3.1/src/lgc.c:606-615 | One visit to every table; without a change the marks are closed under all ephemeron entries. |
| Ephemeron.Converged | lua/lua-5.3.1/src/lgc.c:602-617 | With nothing gray and no table that would mark anything, the marks are closed. |
| Ephemeron.Atomic.ConvergeAndClear | lua/lua-5.3.1/src/lgc.c:1001-1014 | After convergence and clearing, no marked object holds an unmarked collectable one. |
| Ephemeron.Atomic.ClearKeys | lua/lua-5.3.1/src/lgc.c:633-645 | Exactly the entries with an unmarked key are emptied. |
| Ephemeron.ClearingIsStable | lua/lua-5.3.1/src/lgc.c:633-645 | Clearing twice clears nothing more. |
| Tables.LuaTable.SetField | lua/lua-5.3.1/src/ltable.c:577-583 | Set-then-store is a map update: the key gets the value, or is removed by nil, every other key keeps its value, and only nil and NaN keys are errors; through any rehash. It grows to at most two positions for each key and for the one to come. |
| Tables.LuaTable.SetFields | lua/lua-5.3.1/src/ltable.c:577-583 | Any run of such updates leaves what the same updates make of a map, and takes no more positions than the table had, or than twice the number of keys it had and updates made. |
| Tables.LuaTable.NewKey | lua/lua-5.3.1/src/ltable.c:447-496 | Brent's insertion keeps the invariant of chains and main positions; after a rehash the second try finds room, so it never rehashes twice. |
| Tables.LuaTable.GetFreePos | lua/lua-5.3.1/src/ltable.c:429-437 | Returns the last free node below 'lastfree', or none, in which case no node is free. |
| Tables.LuaTable.MoveColliding | lua/lua-5.3.1/src/ltable.c:470-483 | A node that was out of its main position moves to the free place and the chain that led to it still does. |
| Tables.LuaTable.Collide | lua/lua-5.3.1/src/ltable.c:461-492 | Both cases of a collision insert the key and change no other key's value. |
| TableNodes.PutInPlaceChained | lua/lua-5.3.1/src/ltable.c:489-495 | Filling a free main position keeps every stored key on the chain of its main position. |
| TableNodes.PutAsideChained | lua/lua-5.3.1/src/ltable.c:483-488 | Chaining the new key behind its main position keeps every chain. |
| TableNodes.DisplaceChained | lua/lua-5.3.1/src/ltable.c:470-482 | Moving the colliding node keeps every chain, and each occupied main position is held by a key of its own. |
| TableState.UpdatedContents | lua/lua-5.3.1/src/ltable.c:577-593 | If every key reads as before except one, the table as a map is the old one updated at that key. |
| Tables.LuaTable.Get | lua/lua-5.3.1/src/ltable.c:545-567 | Finds the cell of the key, whatever part it is in; integer-valued float keys are normalised. |
| Tables.LuaTable.GetInt | lua/lua-5.3.1/src/ltable.c:502-519 | Finds the cell of an integer key in the array or on its chain. |
| Tables.LuaTable.Fetch | lua/lua-5.3.1/src/ltable.c:545-567 | Reads what the map holds, or nil. |
| Tables.LuaTable.FindNode | lua/lua-5.3.1/src/ltable.c:505-517 | Walking 'next' links from the main position finds the key if it is stored. |
| TableSizes.ComputeSizes | lua/lua-5.3.1/src/ltable.c:226-245 | Returns the largest power of two n such that more than n/2 of the slots 1..n are in use (0 if none), and how many keys go there. |
| TableSizes.OptimalIsUnique | lua/lua-5.3.1/src/ltable.c:221-225 | There is only one such size. |
| TableSizes.BestIsOptimal | lua/lua-5.3.1/src/ltable.c:231-236 | Stopping when the keys are too few to fill half of the next size loses nothing. |
| TableSizes.CeilLog2 | lua/lua-5.3.1/src/lobject.c:67-82 | The table-driven loop computes the least l with x <= 2^l. |
| Tables.LuaTable.NumUseArray | lua/lua-5.3.1/src/ltable.c:264-287 | The slice counts are those of the non-nil array entries. |
| Tables.LuaTable.NumUseHash | lua/lua-5.3.1/src/ltable.c:290-303 | The slice counts become those of all integer keys, array and hash. |
| Tables.LuaTable.Rehash | lua/lua-5.3.1/src/ltable.c:383-400 | No key's value changes, the array part has the optimal size for the keys with the new one, and the new key has room. |
| Tables.LuaTable.Resize | lua/lua-5.3.1/src/ltable.c:340-372 | No key's value changes, and at least the nodes not needed by the old keys are free. |
| TableState.RehashCounts | lua/lua-5.3.1/src/ltable.c:383-397 | The keys counted by 'rehash' are those stored and the new one, each once. |
| TableState.RehashFits | lua/lua-5.3.1/src/ltable.c:398-399 | The hash part gets a node for each counted key the array part does not take. |
| TableState.Refilled | lua/lua-5.3.1/src/ltable.c:360-370 | When all entries are back, every key reads as before the resize. |
| Tables.LuaTable.SetInt | lua/lua-5.3.1/src/ltable.c:585-596 | An update at an integer key, where there is room for it. |
| Tables.LuaTable.Overwrite | lua/lua-5.3.1/src/ltable.c:577-583 | Overwriting or clearing an existing entry changes neither the keys nor their positions. |
| Tables.LuaTable.Next | lua/lua-5.3.1/src/ltable.c:193-210 | Returns the first live entry after the key's position, or the end. |
| TableTraversal.YieldedOnce | lua/lua-5.3.1/src/ltable.c:193-210 | A traversal, with existing entries overwritten or cleared between the calls, yields no key twice. |
| TableTraversal.YieldsAll | lua/lua-5.3.1/src/ltable.c:193-210 | A finished traversal has yielded every key that had a value throughout, with its value of that time. |
| TableTraversal.YieldedIsLive | lua/lua-5.3.1/src/ltable.c:193-210 | What it yields is in the table at that time, under a normalised key. |
| TableTraversal.NoBadKey | lua/lua-5.3.1/src/ltable.c:166-187 | No call of such a traversal raises "invalid key to 'next'". |
| TableTraversal.WalkIsShort | lua/lua-5.3.1/src/ltable.c:193-210 | It makes at most one call for each position and one more. |
| Tables.LuaTable.GetN | lua/lua-5.3.1/src/ltable.c:627-643 | Terminates with a border: t[n] is not nil or n is 0, and t[n+1] is nil. |
| Tables.LuaTable.UnboundSearch | lua/lua-5.3.1/src/ltable.c:599-620 | Finds a border in the hash part; the linear search is only a fallback for very large indices. |
| TableTraversal.FullPrefix | lua/lua-5.3.1/src/ltable.c:599-620 | A table whose keys 1..n all have values has at least n positions, so the searches end. |
| ExpressionCompiler.Evaluate | lua/lua-5.3.1/src/lparser.c:1042-1069 | For every expression of locals, integers, booleans, nil, arithmetic, comparisons, not, and, or: running the compiled code gives the value of evaluating it directly, errors included. |
| OperatorLaws.Operands | lua/lua-5.3.1/src/lparser.c:925-977 | Constants, locals and parentheses are worth what they hold; an operand that fails makes the operation fail. |
| OperatorLaws.Comparisons | lua/lua-5.3.1/src/lvm.c:305-335 | What direct evaluation gives, on any two expressions with integer values: '<', '<=', '>', '>=', '==' and '~=' are those of the integers. |
| OperatorLaws.Order | lua/lua-5.3.1/src/lvm.c:351-390 | The order is strict and total, '<=' is '<' or '==', and x < x + 1 exactly where adding one does not wrap around. |
| OperatorLaws.OtherValues | lua/lua-5.3.1/src/lvm.c:394-420 | Values of other types are equal or not; ordering them or calculating with them is an error. |
| OperatorLaws.Sums | lua/lua-5.3.1/src/lvm.c:839-890 | '+', '-' and '*' agree with the integers modulo 2^64, and are exact where the result fits. |
| OperatorLaws.Negation | lua/lua-5.3.1/src/lvm.c:981-995 | So does the negation. |
| OperatorLaws.Quotients | lua/lua-5.3.1/src/lvm.c:528-560 | '//' and '%' split x into y times a quotient and a remainder with the sign of y; only the lowest integer divided by -1 wraps around, and 0 is an error. |
| OperatorLaws.LeftShifts | lua/lua-5.3.1/src/lvm.c:569-578 | Shifting left by one more doubles modulo 2^64; by 64 or more nothing is left. |
| OperatorLaws.RightShifts | lua/lua-5.3.1/src/lvm.c:569-578 | x >> n is the quotient of the unsigned x by 2^n. |
| OperatorLaws.OppositeShifts | lua/lua-5.3.1/src/lvm.c:569-578 | A negative count shifts the other way, but for the lowest integer, which shifts everything out. |
| OperatorLaws.Bitwise | lua/lua-5.3.1/src/lvm.c:891-930 | Each bit of '&', '|' and '~' is the and, or and exclusive or of the operands' bits. |
| OperatorLaws.Complement | lua/lua-5.3.1/src/lvm.c:996-1006 | The complement of x is -1 - x. |
| OperatorLaws.Truth | lua/lua-5.3.1/src/lvm.c:1007-1012 | Only nil and false are false, in 'not', 'and' and 'or'; these give one of their operands. |
| ExpressionCompiler.Expression | lua/lua-5.3.1/src/lparser.c:1042-1069 | The code for any expression, at any point of a function, computes its value when it is closed or tested, and the code before it keeps its meaning. |
| ExpressionCompiler.CompileToNext | lua/lua-5.3.1/src/lparser.c:1439-1456 | A local initialised with an expression gets its value in the next register and no other local changes. |
| ExpressionCompiler.CompileToLocal | lua/lua-5.3.1/src/lcode.c:592-598 | Assigning an expression to a local leaves its value there and the other locals alone. |
| Bytecode.Frame.Execute | lua/lua-5.3.1/src/lvm.c:743-760 | The machine's loop runs forward-jumping code as the step-by-step meaning of its instructions says. |
| Integers.Div | lua/lua-5.3.1/src/lvm.c:528-541 | Division built on C's truncating '/' is floor division, wrapped to 64 bits. |
| Integers.Mod | lua/lua-5.3.1/src/lvm.c:548-560 | The remainder of that division, with the sign of the divisor. |
| CodeRuns.AppendExec | lua/lua-5.3.1/src/lcode.c:229-241 | Code emitted later does not change what the code before it does up to its end. |
| CodeRuns.PatchExec | lua/lua-5.3.1/src/lcode.c:167-177 | Patching a set of open jumps makes exactly the runs that left through them go on at their targets; tests that produce values go to one target, the others to the other. |
| CodeRuns.UnvaluedExec | lua/lua-5.3.1/src/lcode.c:161-164 | Turning OP_TESTSET that never stores into OP_TEST changes nothing. |
| CodeRuns.DischargeExec | lua/lua-5.3.1/src/lcode.c:180-183 | Jumps waiting for the next instruction behave the same once they are given its address. |
| JumpLists.Spliced | lua/lua-5.3.1/src/lcode.c:215-226 | Linking the end of one list to another gives the list of both. |
| CodeGen.FuncState.Concat | lua/lua-5.3.1/src/lcode.c:215-226 | The list threaded through the jumps becomes the concatenation of the two, and no other instruction changes. |
| CodeGen.FuncState.NeedValue | lua/lua-5.3.1/src/lcode.c:139-145 | Tells whether some jump of the list does not produce a value. |
| CodeGen.FuncState.PatchTestReg | lua/lua-5.3.1/src/lcode.c:148-158 | Only an OP_TESTSET before the jump is changed, and the result says whether there was one. |
| CodeGen.FuncState.RemoveValues | lua/lua-5.3.1/src/lcode.c:161-164 | All jumps of the list lose their values and the links stay. |
| CodeGen.FuncState.PatchListAux | lua/lua-5.3.1/src/lcode.c:167-177 | Every jump of the list is patched once, although patching destroys the links it follows. |
| CodeGen.FuncState.DischargeJpc | lua/lua-5.3.1/src/lcode.c:180-183 | All pending jumps get the current address and none is pending. |
| CodeGen.FuncState.Jump | lua/lua-5.3.1/src/lcode.c:76-83 | Jumps pending at a jump join its list instead of jumping to it. |
| CodeGen.FuncState.Exp2Reg | lua/lua-5.3.1/src/lcode.c:496-517 | After it the register holds the value on every path, both exit lists are patched, and the loads of true and false are there when a jump needs them. |
| CodeGen.FuncState.Discharge2Reg | lua/lua-5.3.1/src/lcode.c:445-485 | The end of the code leaves the value in the register. |
| CodeGen.FuncState.LoadComparison | lua/lua-5.3.1/src/lcode.c:498-508 | A pending comparison becomes one more true exit and gets its two loads. |
| CodeGen.FuncState.PatchExits | lua/lua-5.3.1/src/lcode.c:510-513 | Exits that carry a value arrive at the end with it, the others at a load. |
| CodeGen.FuncState.Exp2NextReg | lua/lua-5.3.1/src/lcode.c:520-525 | The value is in the first free register, and no other register is taken. |
| CodeGen.FuncState.Exp2AnyReg | lua/lua-5.3.1/src/lcode.c:528-539 | The value is in some register, without exits left. |
| CodeGen.FuncState.Exp2Val | lua/lua-5.3.1/src/lcode.c:548-553 | The value is settled, in a register if exits were pending. |
| CodeGen.FuncState.Exp2RK | lua/lua-5.3.1/src/lcode.c:556-589 | The value is a register or a constant operand. |
| CodeGen.FuncState.GoIfTrue | lua/lua-5.3.1/src/lcode.c:655-676 | Afterwards the code falls through exactly when the value is true; the false exits carry on, the true ones come here. |
| CodeGen.FuncState.GoIfFalse | lua/lua-5.3.1/src/lcode.c:679-699 | The same with true and false exchanged. |
| CodeGen.FuncState.JumpOnCond | lua/lua-5.3.1/src/lcode.c:640-652 | The jump is taken exactly when the value has the given truth; an OP_NOT at the end is absorbed. |
| CodeGen.FuncState.CodeNot | lua/lua-5.3.1/src/lcode.c:702-734 | The code means the negation: exits exchange their lists and lose their values. |
| CodeGen.FuncState.ConstFolding | lua/lua-5.3.1/src/lcode.c:767-787 | Folds exactly when both are numerals without jumps and run time would give a value, and to that value. |
| CodeOperands.FoldWorth | lua/lua-5.3.1/src/lcode.c:750-787 | Folded or not, the expression means the same. |
| CodeGen.FuncState.CodeExpVal | lua/lua-5.3.1/src/lcode.c:794-822 | Emits the operation on its two operands, frees them in stack order, or folds it. |
| CodeGen.FuncState.CodeComp | lua/lua-5.3.1/src/lcode.c:825-838 | A comparison means what its operator says, '>' and '>=' with operands exchanged, '~=' as a failed '=='. |
| CodeGen.FuncState.PrefixExp | lua/lua-5.3.1/src/lcode.c:841-852 | The code means the prefix operator applied to the operand. |
| CodeGen.FuncState.Infix | lua/lua-5.3.1/src/lcode.c:855-882 | Between the operands: 'and' and 'or' leave a branch, the others a settled operand that the second one cannot disturb. |
| CodeGen.FuncState.JoinExits | lua/lua-5.3.1/src/lcode.c:887-898 | The exits of the first operand join those of the second and the result means the short-circuit operator. |
| CodeOperators.ShortCircuit | lua/lua-5.3.1/src/lcode.c:887-898 | 'and' and 'or' evaluate the second operand only where the first did not decide. |
| CodeOperators.InvertedMeans | lua/lua-5.3.1/src/lcode.c:702-734 | Exchanging the exits of code for x whose end is negated gives code for 'not x'. |
| CodeOperators.BothMeans | lua/lua-5.3.1/src/lcode.c:794-838 | Two settled operands and an instruction on them mean the binary operator. |
| CodeClosing.PatchedExitsFills | lua/lua-5.3.1/src/lcode.c:510-513 | Patching the exits of code that fills a register keeps it doing so. |
| CodeClosing.JumpLoadedFills | lua/lua-5.3.1/src/lcode.c:500-508 | A comparison with its loads fills the register with the comparison's value. |
| CodeGen.FuncState.AddK | lua/lua-5.3.1/src/lcode.c:313-337 | The constant is in the table at the returned index, whatever the cache held. |
| CodeGen.FuncState.PatchToHere | lua/lua-5.3.1/src/lcode.c:209-212 | The jumps of the list join those that wait for the next instruction. |
| CodeGen.FuncState.Code | lua/lua-5.3.1/src/lcode.c:229-241 | Appends one instruction after giving pending jumps its address. |
| Subexpr.RoundTrip | lua/lua-5.3.1/src/lparser.c:1019-1069 | Printing any tree with parentheses only where the priority table asks for them and parsing it with limit 0 gives the tree back, exactly when it does not nest deeper than LUAI_MAXCCALLS allows. |
| Precedence.TwoOperators | lua/lua-5.3.1/src/lparser.c:1019-1069 | In 'a o1 b o2 c' the first operator takes b exactly if it is on a higher level, or on the same one and not '..' or '^': or; and; comparisons; |; ~; &; shifts; ..; + -; * / // %; prefix operators; ^. |
| Precedence.PrefixFirst | lua/lua-5.3.1/src/lparser.c:1035-1054 | In 'u a o b' a prefix operator takes a alone, unless o is '^'. |
| Precedence.PrefixSecond | lua/lua-5.3.1/src/lparser.c:1047-1066 | In 'a o u b' it takes b behind any operator. |
| Precedence.DeepestNesting | lua/lua-5.3.1/src/lparser.c:1042-1046 | 199 prefix operators can stand in a row and 200 cannot. |
| Subexpr.FewestParentheses | lua/lua-5.3.1/src/lparser.c:1019-1069 | A text that is parsed as a tree has at least as many parentheses as the printed one: the priority table asks for no pair too many. |
| Subexpr.NoneSpare | lua/lua-5.3.1/src/lparser.c:1019-1069 | Printed without any one of its pairs, a tree is parsed as another one or not at all. |
| Subexpr.PrintedReads | lua/lua-5.3.1/src/lparser.c:1042-1069 | A printed expression is read completely and no further, in any context whose next token binds no tighter. |
| Subexpr.BinReads | lua/lua-5.3.1/src/lparser.c:1055-1066 | Operands parenthesised by the left and right priorities come back on their sides, right-associative operators included. |
| Subexpr.UnReads | lua/lua-5.3.1/src/lparser.c:1047-1054 | A unary operator takes the operand up to UNARY_PRIORITY, also as a right operand. |
| Subexpr.LexState.Subexpr | lua/lua-5.3.1/src/lparser.c:1042-1069 | The recursive loop reads what the grammar with priorities reads, and restores the nesting count. |
| Subexpr.LexState.SimpleExp | lua/lua-5.3.1/src/lparser.c:925-977 | A number or a parenthesised expression. |
| StringMatch.MatchState.Match | lua/lua-5.3.1/src/lstrlib.c:421-520 | Returns the first result of the search in greedy and lazy order, with its captures, or raises the error that is this first result; only where fewer levels are left than the rest of the pattern has characters may it find the pattern too complex instead. A failing call restores the capture level and the captures below it. It terminates. |
| StringMatch.MatchState.MatchAt | lua/lua-5.3.1/src/lstrlib.c:421-520 | A match is found exactly when the pattern has a derivation at this position, and the result is one, the first of the search; an error raised is the first one the search meets, or a pattern as long as the limit on nesting is too complex. |
| PatternLaws.Classes | lua/lua-5.3.1/src/lstrlib.c:278-295 | A pattern of one class: the characters of each of the eleven letters as ranges, and for the upper-case letter exactly the others. |
| PatternLaws.Singles | lua/lua-5.3.1/src/lstrlib.c:321-334 | '.' matches any character, a character without a meaning and an escaped one itself. |
| PatternLaws.Ranges | lua/lua-5.3.1/src/lstrlib.c:298-318 | A range in brackets matches what is between its ends, a negated one what is not. |
| PatternLaws.Lists | lua/lua-5.3.1/src/lstrlib.c:298-318 | Two characters in brackets match either; a class in brackets is the class. |
| PatternLaws.Repetitions | lua/lua-5.3.1/src/lstrlib.c:480-512 | A character with '*', '+', '-' or '?' matches the runs of it whose length the suffix allows. |
| PatternLaws.Longest | lua/lua-5.3.1/src/lstrlib.c:357-369 | With '*' the result is the longest run. |
| PatternLaws.Shortest | lua/lua-5.3.1/src/lstrlib.c:372-382 | With '-' it is the shortest. |
| PatternLaws.Anchors | lua/lua-5.3.1/src/lstrlib.c:438-470 | '$' at the end matches the end of the subject, and '%f' the places where a class begins. |
| PatternLaws.Captures | lua/lua-5.3.1/src/lstrlib.c:385-418 | '()' captures the position, '(c)' the text, and a back reference matches that text again. |
| PatternLaws.Faults | lua/lua-5.3.1/src/lstrlib.c:238-275 | The error of each malformed pattern. |
| PatternSearch.SearchDerives | lua/lua-5.3.1/src/lstrlib.c:421-520 | The backtracking search yields exactly the ends and captures that the pattern derives. |
| PatternSearch.SuffixPrefersLong | lua/lua-5.3.1/src/lstrlib.c:357-369 | For '*', '+', '?' and single items the result comes from the largest number of repetitions after which the rest matches. |
| PatternSearch.GreedyPrefersLong | lua/lua-5.3.1/src/lstrlib.c:357-369 | The greedy loop's first result comes from the longest repetition that works. |
| PatternSearch.LazyPrefersShort | lua/lua-5.3.1/src/lstrlib.c:372-382 | The lazy loop's first result comes from the shortest repetition that works. |
| PatternSearch.CountIsMost | lua/lua-5.3.1/src/lstrlib.c:357-361 | The counted maximum is the largest number of times the item repeats. |
| PatternSearch.SingleDerives | lua/lua-5.3.1/src/lstrlib.c:480-512 | An item with a suffix derives what some allowed number of repetitions and the rest derive. |
| Patterns.BalanceUnique | lua/lua-5.3.1/src/lstrlib.c:337-354 | A balanced string from a position has only one end. |
| Patterns.BalanceFound | lua/lua-5.3.1/src/lstrlib.c:337-354 | The counting scan finds it. |
| Patterns.NoBalance | lua/lua-5.3.1/src/lstrlib.c:337-354 | Where the nesting never returns to zero there is none. |
| Patterns.NodeAt | lua/lua-5.3.1/src/lstrlib.c:421-512 | Every pattern item ends strictly after it starts and inside the pattern. |
| StringMatch.MatchState.MatchBalance | lua/lua-5.3.1/src/lstrlib.c:337-354 | The loop finds the end of the balanced string, if there is one. |
| StringMatch.MatchState.MaxExpand | lua/lua-5.3.1/src/lstrlib.c:357-369 | The greedy loop returns the first result of the greedy search and restores captures between tries. |
| StringMatch.MatchState.MinExpand | lua/lua-5.3.1/src/lstrlib.c:372-382 | The lazy loop returns the first result of the lazy search. |
| StringMatch.MatchState.StartCapture | lua/lua-5.3.1/src/lstrlib.c:385-396 | Opens a capture and undoes it if the rest fails; raises an error over the limit. |
| StringMatch.MatchState.EndCapture | lua/lua-5.3.1/src/lstrlib.c:399-407 | Closes the innermost open capture and reopens it if the rest fails. |
| StringMatch.MatchState.MatchCapture | lua/lua-5.3.1/src/lstrlib.c:410-418 | Succeeds exactly when the captured text occurs here again. |
| StringMatch.MatchState.MatchBracketClass | lua/lua-5.3.1/src/lstrlib.c:298-318 | Membership in a set, with ranges, classes and negation. |
| StringMatch.MatchState.ClassEndOf | lua/lua-5.3.1/src/lstrlib.c:254-275 | The end of a class, or the error for a missing one. |
| StringMatch.MatchState.CaptureToClose | lua/lua-5.3.1/src/lstrlib.c:246-251 | The innermost unfinished capture. |
| Quoted.ReadsBack | lua/lua-5.3.1/src/lstrlib.c:897-919 | The literal written for any byte string is read as exactly that string, whatever follows it, unless it takes the chunk past its limit on lines. |
| LiteralLaws.Written | lua/lua-5.3.1/src/lstrlib.c:897-919 | What is written for each byte: a backslash before quotes, backslashes and newlines, decimal escapes for other control characters, all else as it is. |
| LiteralLaws.LetterEscapes | lua/lua-5.3.1/src/llex.c:414-420 | The letters a, b, f, n, r, t, v stand for the bytes 7, 8, 12, 10, 13, 9, 11. |
| LiteralLaws.SelfEscapes | lua/lua-5.3.1/src/llex.c:425-426 | A backslash or a quote behind a backslash is itself. |
| LiteralLaws.HexEscapes | lua/lua-5.3.1/src/llex.c:345-357 | Two hexadecimal digits of either case give the byte. |
| LiteralLaws.DecimalEscapes | lua/lua-5.3.1/src/llex.c:386-396 | Three decimal digits give the byte, and above 255 an error. |
| LiteralLaws.BreakEscapes | lua/lua-5.3.1/src/llex.c:423-436 | An escaped line break of any kind is one newline; '\z' skips white space. |
| LiteralLaws.Utf8Decodes | lua/lua-5.3.1/src/lobject.c:306-321 | A code point is written as the shortest UTF-8 sequence that decodes to it. |
| LiteralLaws.CodePoints | lua/lua-5.3.1/src/llex.c:360-383 | Code points of one or two hexadecimal digits give their UTF-8 bytes. |
| LiteralLaws.Faults | lua/lua-5.3.1/src/llex.c:403-441 | Other escapes, and a line break in the literal, are errors. |
| Quoted.CharReads | lua/lua-5.3.1/src/lstrlib.c:897-919 | Each byte's escape reads back as the byte, also before a digit. |
| Quoted.AddQuoted | lua/lua-5.3.1/src/lstrlib.c:897-919 | Writes each byte with the escape its successor calls for. |
| StringLexer.WriteAndRead | lua/lua-5.3.1/src/llex.c:399-459 | Writing with 'addquoted' and reading with 'read_string' is the identity on all byte strings, up to the limit on lines. |
| StringLexer.LexState.ReadString | lua/lua-5.3.1/src/llex.c:399-459 | Reads the literal up to its delimiter, or reports the error for an unfinished one or a bad escape. |
| StringLexer.LexState.ReadEscape | lua/lua-5.3.1/src/llex.c:410-452 | Each escape gives its bytes and consumes its characters. |
| StringLexer.LexState.ReadDecEsc | lua/lua-5.3.1/src/llex.c:386-396 | At most three digits, and an error above 255. |
| StringLexer.LexState.IncLineNumber | lua/lua-5.3.1/src/llex.c:151-159 | A line break of one or two characters counts once; the limit is an error. |
| StringLexer.LexState.Zap | lua/lua-5.3.1/src/llex.c:428-436 | Skips white space after '\z' and counts its lines. |
| StringLexer.LexState.Utf8Esc | lua/lua-5.3.1/src/llex.c:360-384 | Writes the code point's bytes, or reports the error. |
| Packing.RoundTrip | lua/lua-5.3.1/src/lstrlib.c:1406-1465 | Unpacking from position 1 what was packed gives back the arguments used and position length + 1, for every format without floats, exactly when no zero-terminated string is longer than an int. |
| PackingLaws.IntegersPacked | lua/lua-5.3.1/src/lstrlib.c:1154-1189 | The bytes for each integer letter: its size, its range or error, the least significant byte first under '<' and the most significant under '>'. |
| PackingLaws.SizedIntegers | lua/lua-5.3.1/src/lstrlib.c:1132-1169 | 'i' and 'I' with a size write that many bytes. |
| PackingLaws.SizeLimits | lua/lua-5.3.1/src/lstrlib.c:1132-1138 | Sizes of 1 to 16 are accepted, no others. |
| PackingLaws.SizedStrings | lua/lua-5.3.1/src/lstrlib.c:1309-1326 | 's' writes the length in its size and then the string, 'c' the string of exactly that length. |
| PackingLaws.OtherLetters | lua/lua-5.3.1/src/lstrlib.c:1316-1338 | 'z' writes the string and a zero, 'x' a zero, a space nothing. |
| PackingLaws.BadLetters | lua/lua-5.3.1/src/lstrlib.c:1173-1186 | 'c' without a size, and a character that is no option, are errors. |
| PackingLaws.Alignments | lua/lua-5.3.1/src/lstrlib.c:1201-1220 | The padding before an integer, and that of 'X', under each largest alignment. |
| PackingLaws.BareAlignment | lua/lua-5.3.1/src/lstrlib.c:1185-1217 | A bare '!' aligns to 8; an alignment that is no power of two is an error. |
| Packing.LongZstrIsLost | lua/lua-5.3.1/src/lstrlib.c:1453-1458 | A concrete format and argument for which it does not: 'z' with 2^31 bytes. |
| Packing.SizeIsKnown | lua/lua-5.3.1/src/lstrlib.c:1347-1370 | 'packsize' gives the packed length, exactly for formats without variable-length strings and lengths up to the largest int. |
| Packing.OneRoundTrip | lua/lua-5.3.1/src/lstrlib.c:1406-1465 | Each option reads back what it wrote. |
| Packing.Padding | lua/lua-5.3.1/src/lstrlib.c:1201-1220 | The least number of bytes that reaches the alignment. |
| PackedIntegers.IntRoundTrip | lua/lua-5.3.1/src/lstrlib.c:1228-1242 | Every integer the range checks let through comes back from its bytes, in sizes 1 to 16, either byte order, signed or not. |
| PackedIntegers.OnlyPackable | lua/lua-5.3.1/src/lstrlib.c:1279-1295 | Only those do: outside of the checked range the bytes lose the integer. |
| PackedIntegers.IntBytesDenote | lua/lua-5.3.1/src/lstrlib.c:1228-1242 | The bytes written are the two's complement of the integer. |
| ByteOrder.BytesAre | lua/lua-5.3.1/src/lstrlib.c:1228-1242 | They are the remainders of dividing by 256 again and again, in the given order. |
| PackedIntegers.PackInt | lua/lua-5.3.1/src/lstrlib.c:1228-1242 | The loops, with the correction of extra sign bytes, write the two's complement in the given order. |
| PackedIntegers.UnpackInt | lua/lua-5.3.1/src/lstrlib.c:1380-1403 | Reads the number the bytes denote, sign-extended, or an error exactly when it does not fit a Lua integer. |
| PackedIntegers.UnreadBytes | lua/lua-5.3.1/src/lstrlib.c:1396-1401 | The bytes beyond the eighth all repeat the sign exactly when the number fits. |
| StringPack.StrPack | lua/lua-5.3.1/src/lstrlib.c:1263-1344 | Packs the arguments option by option, or raises the first error. |
| StringPack.StrPackSize | lua/lua-5.3.1/src/lstrlib.c:1347-1370 | Computes the size or raises the error for a variable-length or too large format. |
| StringPack.StrUnpack | lua/lua-5.3.1/src/lstrlib.c:1406-1465 | Reads the values from a position, relative to the end if negative, or raises the first error. |
| StringPack.NegativePositions | lua/lua-5.3.1/src/lstrlib.c:58-63 | A negative position counts from the end; one before the first byte is none. |
| StringPack.PackThenUnpack | lua/lua-5.3.1/src/lstrlib.c:1263-1465 | Both together: the arguments used come back, exactly when no zero-terminated string is too long. |
| StringPack.Header.GetDetails | lua/lua-5.3.1/src/lstrlib.c:1201-1220 | Reads one option with its size and padding; 'X' takes its alignment from the option after it. |
| StringPack.Header.GetOption | lua/lua-5.3.1/src/lstrlib.c:1154-1189 | Classifies one option and applies the mode changes. |
| UpvalueRuns.PrivateCells | lua/lua-5.3.1/src/lfunc.c:57-96 | Over any run of declaring, capturing, reading, writing, leaving blocks and releasing closures, every read gives what it would if each variable were one private cell. |
| UpvalueRuns.OnePerSlot | lua/lua-5.3.1/src/lfunc.c:57-80 | In every reachable state a slot has at most one open upvalue, the one a capture finds, and each count is the number of references from closures. |
| UpvalueRuns.WritesAreShared | lua/lua-5.3.1/src/lvm.c:794-818 | A write through one closure is seen exactly by those that share the variable, before and after it leaves the stack. |
| UpvalueRuns.RunRefines | lua/lua-5.3.1/src/lfunc.c:57-96 | From any related states a run of the implementation is a run of the machine with private cells. |
| UpvalueProofs.FindsTheOne | lua/lua-5.3.1/src/lfunc.c:57-66 | The search in the sorted list finds a slot's open upvalue if it has one. |
| UpvalueProofs.InsertListed | lua/lua-5.3.1/src/lfunc.c:67-75 | The new upvalue goes where the list stays strictly sorted by slot. |
| UpvalueProofs.CloseHeadRefines | lua/lua-5.3.1/src/lfunc.c:83-96 | Closing an upvalue moves the variable into it; with no references it goes away and nothing is lost. |
| UpvalueProofs.DetachKeeps | lua/lua-5.3.1/src/lgc.c:671-687 | Releasing one reference keeps the counts exact and frees a closed upvalue exactly at the last one. |
| Functions.Thread.FindUpval | lua/lua-5.3.1/src/lfunc.c:57-80 | Returns the slot's upvalue, made if needed, and keeps the invariant. |
| Functions.Thread.Close | lua/lua-5.3.1/src/lfunc.c:83-96 | All upvalues from the level up are closed with their values. |
| Functions.Thread.PushNewClosure | lua/lua-5.3.1/src/lvm.c:608-627 | The new closure refers to the captured upvalues, each counted once more. |
| Functions.Thread.FreeLclosure | lua/lua-5.3.1/src/lgc.c:679-687 | All references of the closure are given up. |
| Functions.Thread.UpvDecCount | lua/lua-5.3.1/src/lgc.c:671-676 | One reference less; a closed upvalue without references is freed. |
| Functions.Thread.InitUpvals | lua/lua-5.3.1/src/lfunc.c:45-54 | The main closure gets new closed upvalues, nil, with one reference each. |
| Functions.Thread.GetUpvalue | lua/lua-5.3.1/src/lvm.c:794-798 | Reads the stack slot or the upvalue's own value. |
| Functions.Thread.SetUpvalue | lua/lua-5.3.1/src/lvm.c:813-818 | Writes the stack slot or the upvalue's own value. |
| Sha1Streaming.HashParts | sha1/sha1.c:201-226 | The digest of a message given in any parts of less than 2^29 bytes each is SHA-1 of FIPS PUB 180-4 of their concatenation: the five words of the hash value, each most significant byte first. |
| Sha1Vector.Abc | sha1/sha1.c:69-72 | SHA-1 as stated here gives the test vector for 'abc' that the source lists. |
| Sha1Spec.DigestWords | sha1/sha1.c:244-247 | The digest read as big-endian words is the hash value. |
| Sha1Streaming.Context.Update | sha1/sha1.c:201-226 | State, buffer and counter go on to stand for the message with the new bytes; the data itself is overwritten where whole blocks lie. |
| Sha1Streaming.Context.Final | sha1/sha1.c:230-265 | Padding byte by byte and appending the length gives the padding of section 5.1.1, and the digest is that of the standard. |
| Sha1Streaming.CountIsRight | sha1/sha1.c:210-211 | The two-word bit counter is right after an update exactly when the bits added, counted modulo 2^64, are fewer than 2^32, as for less than 2^29 bytes, or its low word really overflows. |
| Sha1Streaming.Context.Transform | sha1/sha1.c:129-184 | The unrolled rounds in place compute one step of section 6.1.2, and touch no byte outside of the block. |
| Sha1Rounds.DueWord | sha1/sha1.c:104-105 | The word the sixteen-word window computes is that of the 80-word schedule. |
| Sha1Rounds.WindowMoves | sha1/sha1.c:104-105 | Writing it over the oldest word keeps the window on the last sixteen. |
| Sha1Rounds.RoundInPlace | sha1/sha1.c:108-112 | A round that renames the registers is a round that moves them. |
| Sha1Rounds.SwapMakesBigEndian | sha1/sha1.c:101-102 | The rotate-and-mask swap turns the little-endian word into the big-endian one. |
| Sha1Rounds.SelectedIsCh | sha1/sha1.c:108-109 | The three-operation selection is the standard's Ch. |
| Sha1Rounds.VotedIsMaj | sha1/sha1.c:111 | The majority as written is the standard's Maj. |
| Sha1Rounds.R3 | sha1/sha1.c:111 | One round of the third kind, in place. |
| Sha1Rounds.Rounds1 | sha1/sha1.c:154-158 | The first twenty rounds advance the registers and the window by twenty. |
| Sha1Rounds.Rounds4 | sha1/sha1.c:169-173 | So do the last twenty. |
| Quicksort.AuxSort | lua/lua-5.3.1/src/ltablib.c:258-319 | With any comparison the range stays a permutation of what it was and no index leaves it; with a strict weak order there is no error and it ends sorted; calls nest no deeper than the logarithm of its size. |
| Quicksort.Partition | lua/lua-5.3.1/src/ltablib.c:288-308 | The scans never leave the range; with an order, elements before the pivot's place are not above it and those after not below. |
| Quicksort.ScanUp | lua/lua-5.3.1/src/ltablib.c:290-294 | Stops at the first element not below the pivot, or fails at the upper end. |
| Quicksort.ScanDown | lua/lua-5.3.1/src/ltablib.c:295-299 | Stops at the first element not above the pivot, or fails at the lower end. |
| Quicksort.MedianOfThree | lua/lua-5.3.1/src/ltablib.c:261-282 | First, middle and last element are put in order. |
| Quicksort.SideDone | lua/lua-5.3.1/src/ltablib.c:310-317 | With one side sorted only the other side of the pivot is left to do. |
| Quicksort.HalfIsOneLess | lua/lua-5.3.1/src/ltablib.c:311-317 | Recursing into the smaller half makes the nesting logarithmic. |
| Quicksort.LogBounds | lua/lua-5.3.1/src/ltablib.c:311-317 | A nesting of d needs a range of at least 2^d elements. |
| ChildWaitLimits.NoLostExit | luau/xpio_c.c:837-867 | In every interleaving an exited, unreaped child is announced by a pending signal, a byte in the pipe or a reap in progress, unless it exited before the first process object was made. |
| ChildWaitLimits.LostExactly | luau/xpio_c.c:1630-1634 | Those are the exits that are lost, and no others: the handler is installed with the first process object. |
| ChildWaitLimits.NothingMoreLost | luau/xpio_c.c:1630-1634 | From then on none is lost. |
| ChildWaitLimits.FirstExitIsLost | luau/xpio_c.c:1630-1634 | A concrete run for a child that exits before: the wait for it never ends. |
| ChildWaitLimits.RoomSuffices | luau/xpio_c.c:934-943 | The handler does not block as long as the pipe has room for a byte for each exit. |
| ChildWaitLimits.StuckExactly | luau/xpio_c.c:934-943 | While nobody reads it blocks exactly when more signals are delivered than the pipe has room for. |
| ChildWaitLimits.BlocksExactly | luau/xpio_c.c:934-943 | With each signal delivered at once and nobody reading it blocks exactly when more children exit than the pipe has room for. |
| ChildWaitLimits.HandlerMayBlock | luau/xpio_c.c:934-943 | From any state between calls there is a run in which it does. |
| ChildWaitLimits.PollDoesNotBlock | luau/xpio_c.c:694-739 | A wait does not block while the child of one of its waiters has exited: the pipe is polled and readable, or the handler is due and makes it so; unless that child exited before the first process object was made, or more children exit than the pipe has room for. |
| ChildWaitLimits.GoesOnExactly | luau/xpio_c.c:694-739 | A wait without a limit and without sockets can go on without a further exit exactly when the handler is not blocked and the pipe holds a byte or a signal is pending. |
| ChildWait.PollDelivers | luau/xpio_c.c:726-739 | When 'poll' returns on a readable pipe, in any reachable state, then by the return to the program every waiter whose child had exited is woken, once, whatever happens meanwhile. |
| ChildWait.WaitDelivers | luau/xpio_c.c:733-737 | The part of it inside the call: with the reap due, the call ends with the waiter woken. |
| ChildWait.OnlyRunningLeft | luau/xpio_c.c:862-867 | When a reap ends, each waiter left in the queue has a running child. |
| ChildWait.WokenOnce | luau/xpio_c.c:545-592 | A registration is woken at most once, and not while it still waits. |
| ChildWait.RunKeeps | luau/xpio_c.c:694-739 | Every step of the library and of the kernel keeps the invariant. |
| Xpio.XPQueue.WakeChildWaiters | luau/xpio_c.c:545-592 | Moves exactly the tasks of exited children to the ready list, each once, and counts the others. |
| Xpio.WakesTheSame | luau/xpio_c.c:545-592 | That loop is the step of the protocol. |
| Xpio.ProcList.Update | luau/xpio_c.c:853-860 | The object of a reaped process, and only it, learns its status. |
| Chunks.RoundTrip | lua/lua-5.3.1/src/lundump.c:254-278 | Undumping a dumped tree gives the same tree, or the stripped one; unstripped it fails exactly when a nested function has no source in one that has one. |
| ChunkLayout.ChunkIs | lua/lua-5.3.1/src/ldump.c:186-214 | The chunk written out: the header byte by byte, the number of upvalues, the main function. |
| ChunkLayout.FunctionIs | lua/lua-5.3.1/src/ldump.c:86-181 | A function written out: every field, count, constant tag and string length in its place, nested functions and debug information included. |
| Chunks.FunctionReads | lua/lua-5.3.1/src/lundump.c:198-212 | A function is read back from its bytes with the source its place gives it, and not a byte more is consumed. |
| Chunks.RestoredIsSame | lua/lua-5.3.1/src/ldump.c:166-170 | Eliding a source equal to the enclosing one loses nothing, exactly under that condition. |
| Chunks.RestoredIsStripped | lua/lua-5.3.1/src/ldump.c:147-163 | Stripping removes the debug information of the whole tree and nothing else. |
| Chunks.StringReads | lua/lua-5.3.1/src/lundump.c:89-100 | NULL, empty, short and long strings come back as what they were. |
| Chunks.ConstantReads | lua/lua-5.3.1/src/lundump.c:114-145 | Every constant comes back with its tag. |
| Chunks.PartsPass | lua/lua-5.3.1/src/lundump.c:232-248 | The header written passes the checks of the reader. |
| Dumper.DumpState.Dump | lua/lua-5.3.1/src/ldump.c:202-214 | If the writer never fails the output is the chunk; after a failure nothing more is written, so that the output is a prefix of the chunk. |
| Dumper.DumpState.DumpFunction | lua/lua-5.3.1/src/ldump.c:166-181 | Writes the bytes of the whole tree below the function. |
| Undumper.LoadState.ReadFunction | lua/lua-5.3.1/src/lundump.c:198-212 | The loader's loops read what the format says, or raise its error, on any input. |
| Undumper.LoadState.CheckHeader | lua/lua-5.3.1/src/lundump.c:232-248 | Accepts exactly the header of this machine. |
| Undumper.DumpAndUndump | lua/lua-5.3.1/src/lundump.c:254-278 | Dumping and loading back, through the loops. |

## Left out

Collector:

- Weak-value tables and tables weak in both ways, finalizers, coroutines and the list of threads with upvalues,
  emergency collections, the closure cache, pause and debt tuning: the collector's runs are those of one thread with
  strong references; ephemeron tables are a model of their own, of the atomic phase only.
- Identities are not reused after an object is freed; reference counts of upvalues are in the upvalue model.
- Stack slots above the top, `lua_upvaluejoin` and the cache of C strings.
- Gc.Collector.FullGc: finalizers are not called, because no object of the model has one.

Tables:

- Tables.LuaTable.SetField: fewer than 2^30 positions are asked for before, because the error "table overflow" and the
  counts that wrap beyond are not modelled; `SetFields` shows that a new table stays within over any run of fewer
  than 2^29 updates.
- Tables.LuaTable.NewKey: the same, where it may have to rehash.
- Tables.LuaTable.Rehash: the same.
- Dead keys left by the collector, metamethods, write barriers.
- Tables.LuaTable.Next: a float key with an integer value is not passed, because `lua_next` gives back normalised keys.

Compiler:

- The limit of 255 registers, constants above MAXARG_Bx, jumps too long for an instruction.
- Strings, floats, upvalues, indexing, calls, varargs, `..`, `#`, `^` and `/`; gotos, line information and the
  merging of OP_LOADNIL; the number of active locals stays the same during an expression.
- Subexpr.RoundTrip: atoms are numbers; names, calls, strings and constructors as operands are left out.

Strings:

- Locales other than "C"; the loops of `find`, `gmatch` and `gsub` around the matcher; buffer size limits.
- Float options of `pack`; arguments that would be converted to numbers or strings; the limit on the number of results.
- Packing.RoundTrip: the packed string is shorter than 2^63 bytes, as every Lua string is.
- StringPack.StrUnpack: a length prefix so large that adding it to the position wraps around is an error of its own,
  because what C does then is not modelled.

Upvalues:

- Garbage collection of upvalues by marking, coroutines, and the cache of closures.

SHA-1:

- Big-endian machines and SHA1HANDSOFF; the data passed to an update is promised to nobody afterwards.

Sort:

- Comparison functions with side effects or errors; tables with metamethods; the overflow of `l + u` above 2^30.

Waiting for children:

- Sockets and timeouts are a nondeterministic return of `poll`; `fork` that fails, `kill`, and the destruction of a
  process object while its process runs.
- A second task registered for the same process in the same queue takes the place of the first one, as in the source;
  the statements are about the task that is registered.

Chunks:

- The name of the chunk in messages; a count or size that no memory could hold is reported as one error.
- Sources are compared by content: within one tree equal sources are taken to be one string object, as the compiler
  makes them.
- Undumper.LoadState.ReadFunction: more upvalue names than upvalues, and a NULL string constant, are errors of their
  own, because what C does then is not modelled.

Also left out: the API, the base, debug, I/O, OS and math libraries, the loader of modules, file system bindings, the
build engine written in Lua and its minifier.
