# A verified model of the Lua 5.1 core

This project models the hard parts of a C++ port of the Lua 5.1 interpreter in Dafny and proves
what they are for. Run `dafny verify dfyconfig.toml` in this directory to check all of it.

Code that changes things in place is modelled in place: a class with the source's fields, whose
methods are tied by `ensures` to functions on values. What the source promises is proved about
those functions, over all inputs and all runs. Pointers are identifiers or indices. Hashes, the
comparison of Lua values and character classes are parameters.

- **The incremental collector** (`lgc.cpp`, `lgc.h`, upvalue parts of `lfunc.cpp`). `Heap`,
  `Marking`, `Collector`, `AtomicPhase`, `Sweeping` and `Mutator` define the state and one
  transition for each collector step and each action of the program, at any point of a cycle.
  `Invariant` says what every reachable state satisfies, `Propagation`, `MarkSteps`, `SweepSteps`,
  `Closing`, `Reclaim`, `MutatorSteps` and `WriteSteps` prove that every transition keeps it.
  `Cycle`, `Safety` and `FullCollection` hold the theorems over runs: nothing reachable is freed,
  a cycle ends, and a full collection keeps exactly what it should. `Paths` tells what is
  reachable by the fields of objects, `Pruning` and `WeakEntries` what a full collection leaves of
  every table, and `OpenLists` what becomes of the open upvalues of a thread. `CollectorMachine`
  has the loops of the source on the global state, each proved equal to its transition.
- **Tables** (`ltable.cpp`). `HashPart` has the chained scatter table with Brent's variation,
  `TableContents` what a table means as a map, `TableSizes` the choice of the array size, and
  `LuaTable` the table itself, with the recursion newkey, rehash, resize, set. `StaleKeys` is about
  keys whose objects were freed behind the table's back. `NextCalls` says what repeated `next` does
  in a table as it is, `Resuming` what collections and new keys change about that, and `NextFails`
  has the tables in which it goes wrong. `Traversal` holds the runs of assignments and collections,
  and `next` under updates and collections; `References` are `luaL_ref` and `luaL_unref` on top of
  a table.
- **Short-circuit code** (`lcode.cpp`, run by the cases of `lvm.cpp`). `Bytecode` is the target
  machine, `CodeSpec` the generator on jump lists as sequences, `CodeMeaning` and `ShortCircuit`
  the proof that compiled code means what the expression means, and `CodeSize` how large an
  expression may be before there is an error. `JumpLists` and `FuncState` have the lists as the
  source stores them, threaded through the offsets of the jumps, and carry the theorems over to the
  stored code.
- **Upvalues** (`lfunc.cpp`, `lvm.cpp`). `Upvalues` proves that open and closed upvalues cannot be
  told from shared cells; `UpvalueLists` has the linked lists.
- **Patterns** (`lstrlib.cpp`). `Patterns` has what a pattern can match and the search for it,
  `Matcher` the matcher on its level and capture array. `Choices` says which of the possible
  matches is taken and when there is an error, `Captures` what captures are, `CharSets` what
  classes and sets stand for, `PatternErrors` which patterns never raise one. `Substitution` is the
  loop of `gsub` and the search of `find`.
- **Self-contained algorithms.** `Sorting` (`ltablib.cpp`), `Precedence` with the order of the
  operators in `OperatorOrder` (`lparser.cpp`), `Chunks`, `ChunkRoundTrip`, `ChunkReload`,
  `ChunkPrefix`, `ChunkFormat` and `ChunkIO` (`ldump.cpp`, `lundump.cpp`, `lzio.cpp`), `Interning`
  (`lstring.cpp`), and `Quoting` with the escapes one by one in `Escapes` (`lstrlib.cpp`,
  `llex.cpp`). `Common` has what several modules share.

## Findings

Four properties that one might expect do not hold of the code. In each case the model keeps the
code as it is, shows an input that fails, and proves exactly when the property holds.

- `string.format("%q")` is meant to write a string that the interpreter reads back safely (Lua 5.1
  Reference Manual, section 5.4). It does not escape a carriage return (`lstrlib.cpp:697-713`).
  The string of a newline and a carriage return is read back as a newline alone
  (`Quoting.ReturnSwallowed`), and a carriage return by itself as an unfinished string
  (`Quoting.ReturnUnreadable`). The round trip holds if and only if the string has no carriage
  return and its newlines do not overflow the line counter (`Quoting.QuotingRoundTrip`).
- A table that is weak in keys and values can lose a field. The collector does not look at its
  empty entries (`lgc.cpp:162-163`, `lgc.cpp:320-342`), so such an entry keeps the key of an
  object that is freed. A new string at the same address is then found there
  (`ltable.cpp:395-434`), possibly on a chain that is not its own. Inserting another key in the
  main position of such a string then moves what is there away and leaves the string behind
  (`ltable.cpp:348-360`). `StaleKeys.LosesField` is a table in which this happens.
  `StaleKeys.FieldLost` shows it for every table with such an entry, if there is a value in that
  main position; if there is none, the new key is put there without a move, and
  `StaleKeys.NoFieldLost` says when the chains are sound again. After the store in the entry they
  are sound if and only if the entry fits the new key, a condition on its main position and those
  of the other keys (`StaleKeys.AdoptedChained`). An object that is not a string always fits
  (`StaleKeys.OnlyStringsMisfit`). In any run a table keeps its contents until a string is stored
  in an entry that does not fit (`Traversal.History`).
- In a table that is weak in keys and values, repeated `next` may never end. For the sake of keys
  that are collected during a traversal, `findindex` takes a dead key for any object at its
  address (`ltable.cpp:119-126`). A new object may take over an entry left as above and so come
  behind a dead key with its address, even if the entry fits. `next` then resumes at the dead key,
  and may give the same key again. `NextFails.StuckForever` is a table in which this happens, and
  `NextFails.StuckMade` and `NextFails.StuckCanHappen` show how assignments and collections make
  it. Calls in a table that nothing changes visit all fields in the order of their positions and
  end if and only if each resumes at the field of its key, or further on with no field in between
  (`NextCalls.OrderExactly`). With updates of existing fields and collections between the calls,
  the fields come in order in every table of which this is true both now and after a collection
  (`Traversal.Traverse`); in any other table they do not, if the calls are made at once or after
  one collection (`Resuming.StaysExactly`). They may still come once each in another order
  (`NextFails.CrossedEnds`). `Resuming.AdoptedResumable` is the exact condition under which taking
  over an entry leaves the table so, and a table none of whose collections left an entry always is
  (`Traversal.History`).
- `luaL_unref` does not check that the reference it is given is in use. A free reference given
  back again is handed out twice by `luaL_ref` (`lauxlib.cpp:358-387`;
  `References.ReleasedTwice`). The table of references stays in order if and only if the number
  given back is not on the free list already (`References.RefsKept`).

The exact theorem about full collections also makes an effect visible that is easy to overlook:
clearing weak tables marks the strings it meets (`lgc.cpp:306-312`), so a collection keeps strings
that nothing but weak tables hold (`FullCollection.FullCollectionExact`).

The format of precompiled chunks has no way to write a null source: it means the source of the
enclosing function. No code path meets this. The parser sets the source of every function
(`lparser.cpp:312`) and the loader replaces a null one (`lundump.cpp:149-151`), so whatever the
loader builds comes back the same when it is dumped and loaded again (`ChunkReload.Reloaded`). As
a fact about prototypes, the round trip holds if and only if no function has a null source
(`ChunkRoundTrip.SameIffSources`).

## Model

| member | source | states |
|---|---|---|
| Safety.ReachableNeverFreed | lgc.cpp:512-558 | In every state a run can reach, whatever collector steps, full collections and program actions it is made of, an object reachable from the roots is in the heap, is not dead, and is still in the heap after the next collector step or program action |
| FullCollection.FullCollectionSafe | lgc.cpp:584-605 | The same for a whole full collection: whatever is strongly reachable before it is in the heap after it |
| FullCollection.FullCollectionExact | lgc.cpp:584-605 | From any state the invariant allows, a full collection ends in the pause state, and the objects left are exactly those strongly reachable when its marking began, the fixed ones, and the strings that weak tables hold |
| FullCollection.MarkedExactly | lgc.cpp:483-506 | When the atomic phase has marked everything, the marked objects are exactly the strongly reachable ones |
| FullCollection.AtomicExactly | lgc.cpp:483-510 | After the atomic phase the objects that are not dead are exactly the survivors, both ways |
| Paths.StrongByPaths | lgc.cpp:59-249 | An object is strongly reachable exactly if a path leads to it, from the main thread, the running thread, the registry or a metatable of a basic type, and on from field to field, leaving out the weak parts of tables |
| Paths.LeftExactly | lgc.cpp:584-605 | The objects left by a full collection are those to which such a path led when its marking began, the fixed ones and the strings that weak tables hold |
| Paths.LedToKept | lgc.cpp:584-605 | An object to which a path leads when a full collection is called is there after it |
| WeakEntries.EntriesExactly | lgc.cpp:306-342 | What a full collection leaves of each survivor: an entry or a weak array slot is as it was exactly if what it holds weakly is no object, a string, or strongly reachable, and has the value nil otherwise; tables that are not weak and all other objects hold what they held |
| WeakEntries.ClearedEntries | lgc.cpp:306-342 | Clearing a weak table empties exactly the entries with a key or a value that is white and no string, and with weak values the slots of the array part with such a value |
| Pruning.AtomicMarkPruned | lgc.cpp:144-182 | When marking is over, every marked table has lost the keys of its empty entries, except for tables that are weak in keys and values, whose entries are as they were |
| OpenLists.FoundExactly | lfunc.cpp:40-64 | Of the open upvalues of a thread the one for the slot is found, if there is one, and a new one comes in order only if there is none; what is found is not dead |
| OpenLists.ClosedExactly | lfunc.cpp:77-92 | Closing from a level on closes exactly the open upvalues of these slots, each with the value of its slot, or frees it if it was dead; all others stay open |
| Safety.OpeningInv | lstate.cpp:51-62 | The state that opening a Lua state leaves satisfies the invariant, so runs start somewhere |
| Cycle.SingleStepProgress | lgc.cpp:512-558 | Every step outside the pause state decreases a real measure: the phase, then the set of white objects, then the gray list, bucket or sweep position; so a cycle ends |
| WriteSteps.ActInv | lgc.h:72-94 | Every action of the program (allocation, stack write, table write, write with forward barrier, capture, close, resume and so on) keeps the tricolour invariant in every phase |
| Safety.ActKeepsLive | lgc.cpp:607-645 | No action of the program takes a live object out of the heap |
| MarkSteps.StartedInv | lgc.cpp:462-473 | Marking the roots begins the mark phase with its invariant: gray objects listed, no black object refers to a white one |
| MarkSteps.PropagateMarkInv | lgc.cpp:251-292 | One propagation step keeps the invariant |
| MarkSteps.AtomicInv | lgc.cpp:483-510 | The atomic phase takes the mark invariant to the sweep invariant, where no live object refers to a dead one |
| AtomicPhase.AtomicCloses | lgc.cpp:483-510 | After the atomic phase no marked object refers, weakly or strongly, to a white one |
| AtomicPhase.ClearTablesWorks | lgc.cpp:306-342 | Once the weak tables are cleared, no marked object, weak tables included, refers to a white one |
| Propagation.PropagateMarkKeeps | lgc.cpp:251-292 | A propagation step keeps every marked object settled or waiting, and only adds marks |
| Propagation.PropagateMarkProgress | lgc.cpp:251-292 | A propagation step leaves fewer white objects, or as many and a shorter gray list |
| Marking.MarkObjectContinues | lgc.cpp:59-101 | Marking an object darkens white objects only, puts those to be traversed on the gray list once, and leaves every other colour alone |
| SweepSteps.SweepBucketInv | lgc.cpp:527-534 | Sweeping one bucket of the string table keeps the invariant |
| Reclaim.SweepStepInv | lgc.cpp:376-395 | Sweeping some objects of the root list, threads with their open upvalues included, keeps the invariant and brings the end of the sweep nearer |
| Safety.SweepStepsInvisible | lgc.cpp:521-557 | A step of the sweep phases or the end of a cycle changes nothing the program can see: live objects, their values, the roots |
| Closing.CloseUpvalsInv | lfunc.cpp:77-92 | Closing upvalues in any phase keeps the invariant, whether the upvalue is freed or moved to the root list |
| WriteSteps.WriteTableInv | lgc.cpp:616-622 | Storing values in a table and then calling the backward barrier for each keeps the invariant |
| WriteSteps.WriteForwardInv | lgc.cpp:607-614 | Storing a value in a closure, prototype, userdata or closed upvalue and then calling the forward barrier keeps the invariant, both while marking and while sweeping |
| WriteSteps.SetStackInv | lgc.cpp:270-280 | Stack writes need no barrier: a thread is never black |
| WriteSteps.CaptureInv | lfunc.cpp:40-64 | Finding or making the upvalue of a slot and storing it in the closure under construction keeps the invariant without a barrier |
| MutatorSteps.NewObjectInv | lgc.cpp:624-630 | Linking a new object, white and in front of the root list, keeps the invariant in every phase, also behind the sweep position |
| MutatorSteps.FindStringInv | lstring.cpp:63-81 | Asking for an existing string, which revives it if it is dead, keeps the invariant: no live object ever refers to a dead one |
| CollectorMachine.GlobalState.MarkObject | lgc.cpp:59-101 | The recursive marker computes exactly the marking function, on the fields in place |
| CollectorMachine.GlobalState.TraverseTable | lgc.cpp:144-182 | Traverses a table from its last array slot and node down, takes the weakness from the metatable, removes the keys of empty entries and lists a weak table |
| CollectorMachine.GlobalState.PropagateMark | lgc.cpp:251-292 | Pops the gray list and visits what it finds, by kind |
| CollectorMachine.GlobalState.ClearTables | lgc.cpp:306-342 | Clears the listed weak tables entry by entry, marking the strings it meets; exactly which entries go is WeakEntries.ClearedEntries |
| CollectorMachine.GlobalState.Atomic | lgc.cpp:483-510 | The atomic phase on the fields equals the one the theorems are about: upvalues, weak list, running thread, metatables, gray-again list, clearing, flip of the white |
| CollectorMachine.GlobalState.SweepList | lgc.cpp:376-395 | Sweeps a whole list: what is dead is freed, what stays is whitened, in order |
| CollectorMachine.GlobalState.SweepStep | lgc.cpp:376-395 | Sweeps at most GCSWEEPMAX objects of the root list |
| CollectorMachine.GlobalState.CloseUpvals | lfunc.cpp:77-92 | Closes upvalues down to a level on the collector's own lists |
| CollectorMachine.GlobalState.SingleStep | lgc.cpp:512-558 | One collector step on the fields is the transition of the state machine |
| CollectorMachine.GlobalState.FullGC | lgc.cpp:584-605 | A full collection on the fields is the one of the theorems: reset of the sweep, run to finalization, mark, run to the pause |
| CollectorMachine.GlobalState.Link | lgc.cpp:624-630 | A new object gets the current white and goes to the front of the root list |
| CollectorMachine.GlobalState.BarrierForward | lgc.cpp:607-614 | The macro and the function of the forward barrier: marks the value while propagating, whitens the object otherwise |
| CollectorMachine.GlobalState.BarrierBack | lgc.cpp:616-622 | The macro and the function of the backward barrier: the table turns gray and is put on the gray-again list |
| CollectorMachine.GlobalState.FindUpval | lfunc.cpp:40-64 | Walks the open list of a thread, revives the upvalue it finds or links a new one in order |
| LuaTables.Replay | ltable.cpp:375-470 | After any number of assignments to a new table, erroneous ones included, the table holds exactly what a plain map would hold |
| LuaTables.LuaTable.NewKey | ltable.cpp:340-370 | A key without a place gets one; the contents stay the same. If a node is free nothing is rebuilt; otherwise the table is rebuilt once and the key then finds a free node, so the recursion has depth one, which the termination measure states. It fails only when the table holds the maximal number of keys |
| LuaTables.LuaTable.GetFreePos | ltable.cpp:325-331 | Returns a free node exactly when there is one; no node from lastfree on is free |
| LuaTables.LuaTable.Find | ltable.cpp:409-434 | The walk from the main position compares addresses, as the code does; it finds the key if it is anywhere in the hash part, and otherwise nothing, or the first key on the way whose object was freed at the same address and not marked dead |
| LuaTables.LuaTable.Get | ltable.cpp:409-434 | Finds the place of a key, and reading it gives what the map holds, nil included, also when the place is one left by a freed object |
| LuaTables.LuaTable.Set | ltable.cpp:436-448 | Finds, takes over or makes the place of a key without changing the contents; nil and NaN are refused, exactly those; the chains break exactly when an entry that does not fit is taken over |
| LuaTables.LuaTable.Assign | ltable.cpp:436-448 | Assignment updates the map at the key and nowhere else; an existing field is updated without moving any key; whether the table can still be traversed is stated both ways |
| LuaTables.LuaTable.TakeOver | ltable.cpp:436-448 | Storing through an entry that a freed object left makes the new key its own: the table stays valid exactly if the entry fits the key |
| LuaTables.LuaTable.RawGetI | lapi.cpp:417-421 | Reading under a number gives what the map holds |
| LuaTables.LuaTable.RawSetI | lapi.cpp:503-509 | Storing under a number updates the map there; it fails only when the table cannot grow |
| StaleKeys.AdoptedChained | ltable.cpp:395-434 | When a new object takes over an entry of a freed one, the chains are sound again if and only if the entry fits; if not, no order of the nodes makes them sound |
| StaleKeys.AdoptedOrder | ltable.cpp:395-434 | After that, live keys come before all freed keys with their address, those of other types included, if and only if no such key was met before the entry; that is enough for `next`, which asks less (see Resuming.AdoptedResumable) |
| StaleKeys.OnlyStringsMisfit | ltable.cpp:395-405 | Objects hashed by address always fit the entry they find; only strings, hashed by contents, may not |
| StaleKeys.FieldLost | ltable.cpp:340-360 | In every table with an entry that does not fit, inserting one more key in the main position of the lost one, where there is a value, makes the walk from there miss a field that is there |
| StaleKeys.NoFieldLost | ltable.cpp:340-342 | If there is no value there, the key is put in as it is, and the chains are sound again: always in the entry itself, and in the main position of its key if and only if no key elsewhere has the entry as its main position |
| StaleKeys.LosesField | ltable.cpp:340-370 | The concrete case: a sound table of four nodes in which a new string takes over a freed key and is lost when the number 3 is inserted |
| LuaTables.LuaTable.Resize | ltable.cpp:251-277 | Resizing keeps the key to value map when the hash part has room for the keys outside the array part, and no re-insertion triggers another rebuild |
| LuaTables.LuaTable.Rehash | ltable.cpp:284-301 | Rebuilding for a new key keeps the contents and leaves room for that key; the array part is the largest of which more than half is used, the hash part the smallest power of two that holds the other keys |
| LuaTables.LuaTable.NumUseArray | ltable.cpp:182-205 | Counts the values of the array part exactly, slice by slice |
| LuaTables.LuaTable.NumUseHash | ltable.cpp:207-220 | Counts the pairs of the hash part and the candidates for the array part among them exactly |
| LuaTables.LuaTable.SetNodeVector | ltable.cpp:229-249 | A new hash part is a power of two, empty and chained, and overflows exactly above the maximum |
| LuaTables.LuaTable.constructor | ltable.cpp:303-316 | A new table is empty and has the sizes asked for |
| LuaTables.LuaTable.ResizeArray | ltable.cpp:279-282 | Growing the array part keeps the contents |
| HashPart.OnePredecessor | ltable.cpp:340-370 | At most one link leads to a node |
| HashPart.TakesMain | ltable.cpp:340-370 | Reusing a main position without a value keeps the chains acyclic, every key reachable from its main position, and live keys ahead of dead ones with the same address |
| HashPart.GoesAfter | ltable.cpp:361-366 | Inserting a key behind a colliding node that is in its own main position keeps the same |
| HashPart.MovesOut | ltable.cpp:348-360 | Moving a colliding node that is out of its main position keeps the same |
| TableSizes.ComputeSizes | ltable.cpp:153-171 | Given true slice counts of distinct positive integers, returns the largest power of two n with more than n/2 keys in 1..n (0 if none) and the number of keys in 1..n; the early exits miss nothing |
| TableSizes.Log2 | lobject.cpp:46-65 | The loop with the table of logarithms computes the whole part of the binary logarithm, -1 for zero |
| TableSizes.CeilLog2 | ltable.cpp:173-180 | The slice a positive key is counted in is the one that contains it |
| LuaTables.LuaTable.FindIndex | ltable.cpp:109-131 | The position of a key, dead by now or not, is the first on its chain that has the same address; it is unknown only if no position has it |
| LuaTables.LuaTable.Next | ltable.cpp:133-150 | The first filled position after that of the key, with its key and value |
| NextCalls.OrderExactly | ltable.cpp:104-150 | In a table that nothing changes, repeated calls of next from nil visit the fields in the order of their positions, each once, and end, if and only if the call with the key of each field resumes at the field, or further on with no field in between |
| NextCalls.NeverEnds | ltable.cpp:109-150 | If a field is followed by itself or by one before it, and every field before it by the next one, the calls never end |
| NextCalls.RepeatNext | ltable.cpp:109-150 | The loop of calls on the table as it is stored: no call fails, each gives the pair at the position that the theory names, and the loop comes to the end with all fields in order exactly if the table is resumable and there are more calls than fields |
| NextFails.StuckForever | ltable.cpp:109-131 | A sound table of four nodes and two fields in which repeated calls never end, whatever they visit |
| NextFails.NextOfC | ltable.cpp:133-150 | In that table the call with the second key gives this key again |
| NextFails.StuckMade | ltable.cpp:340-448 | The entries of that table come about one by one: three insertions, an emptied field, a cleared weak entry, a string in a main position without a value, a collection that leaves its key, and a new string that takes over the node, which fits it |
| NextFails.StuckCanHappen | lgc.cpp:320-342 | Each of these acts is one that a program and its collections can make, with no two objects at one address at a time, and they leave the two fields |
| NextFails.StuckSound | ltable.cpp:109-131 | The table satisfies what every valid table does, and holds these two fields |
| NextFails.CrossedEnds | ltable.cpp:109-150 | Without the order the condition would be too strong: a sound table in which the calls visit every field once and end, but not in the order of the nodes |
| Resuming.StaysExactly | ltable.cpp:109-150 | All fields are visited in order, both if the calls are made now and if a collection that kills the keys of empty entries comes first, exactly if the table is resumable now and after such a collection |
| Resuming.LiveFirstStays | ltable.cpp:109-131 | A table in which every key comes before all freed keys with its address is such a table |
| Resuming.AdoptedResumable | ltable.cpp:395-434 | When a new object takes over an entry that fits, such a table stays one if and only if the call with its key skips no field and no call skips its field, now and after a collection |
| Traversal.Traverse | ltable.cpp:109-150 | Calling next from nil, in a table that is resumable now and after a collection, visits every field that is still there once, no field twice, in the order of the positions, with the value it has at the time, and stops, whatever existing fields are updated or cleared, and whatever collections kill or leave empty keys or clear weak entries, between the calls |
| Traversal.History | ltable.cpp:340-370 | After any number of assignments and collections, those of weak tables included, a table holds what a plain map would, unless a string was stored in an entry that does not fit, left by a collection of a table weak in keys and values with no other collection since; without such a collection the table can be traversed as above |
| LuaTables.LuaTable.KillEmpty | lgc.cpp:54-57 | Kills the collectable key of every empty entry, also one whose object is gone already, and changes nothing else; the table stays valid, no stale key is left |
| LuaTables.LuaTable.LeaveEmpty | lgc.cpp:162-163 | In a table weak in keys and values the empty entries stay as they are while their objects go: their keys are stale from then on, and nothing else changes; the table stays valid |
| LuaTables.LuaTable.Clear | lgc.cpp:320-342 | Clearing an entry of a weak table removes its field and no other; its key, if it is an object, dies, and no other key changes or moves |
| LuaTables.LuaTable.GetN | ltable.cpp:502-521 | The length is always a border: the field before it is present (or it is zero) and the field after it is nil |
| LuaTables.LuaTable.UnboundSearch | ltable.cpp:472-496 | So is what the unbounded search finds, the fallback to a linear search included |
| References.RefTable.Ref | lauxlib.cpp:358-377 | A value that is not nil gets a positive reference different from all live ones, and the live ones keep their values |
| References.RefTable.Unref | lauxlib.cpp:379-387 | Puts any reference that is not negative in front of the free list; unless it was free already, it alone leaves the live ones |
| References.RefsKept | lauxlib.cpp:379-387 | The table of references is in order after a reference is given back if and only if it was not free already |
| References.ReleasedTwice | lauxlib.cpp:358-387 | A free reference given back again is handed out twice, to the next value and to a later one, for every table of references |
| References.RefTable.constructor | lauxlib.cpp:358-377 | A new table of references has none |
| ShortCircuit.NextRegTheorem | lcode.cpp:364-369 | Running the code compiled for any and/or/not/comparison expression over locals and globals falls through with the expression's value in the next register, the same events (global reads, comparisons) in the same order, and every register in use untouched |
| ShortCircuit.AssignLocalTheorem | lcode.cpp:341-362 | Compiling into a local variable changes that register alone |
| ShortCircuit.ConditionTheorem | lcode.cpp:482-509 | In condition position the code goes to the body exactly when the value is true and behind it otherwise, with the same events |
| ShortCircuit.JunctionDelivers | lcode.cpp:706-725 | Code for and/or delivers the value and the events of its left operand alone when that decides, otherwise of both in order |
| ShortCircuit.CmpDelivers | lcode.cpp:641-656 | Code for a comparison evaluates both operands in order, then asks its one question, with swapped operands where the operator asks for it |
| CodeMeaning.GoIfTrueDecides | lcode.cpp:482-509 | Code ended by luaK_goiftrue falls through exactly when the value is true |
| CodeMeaning.GoIfFalseDecides | lcode.cpp:511-536 | Code ended by luaK_goiffalse falls through exactly when the value is false |
| CodeMeaning.CodeNotDelivers | lcode.cpp:538-577 | codenot negates the value, also along the exits whose lists it interchanges |
| CodeMeaning.Exp2RegLoads | lcode.cpp:341-362 | exp2reg leaves the value in the register by every way out: fall-through, value-carrying tests, and the instructions that load false and true |
| CodeMeaning.JumpOnCondBranches | lcode.cpp:468-480 | jumponcond branches on the value, also when it takes back a NOT |
| CodeMeaning.Discharge2RegLoads | lcode.cpp:296-332 | discharge2reg leaves the value in the register when nothing leaves the expression early |
| Bytecode.RunDirected | lvm.cpp:537-572 | Giving open jumps their targets changes a run only where it ends with one of them |
| FuncStates.FuncState.ValueToNextReg | lcode.cpp:364-369 | The same as NextRegTheorem for the code as it is stored, with its jump lists threaded through the jumps' own offsets; no error is raised while the registers that the expression can take stay below 250 in all and the code within 131071 instructions |
| FuncStates.FuncState.IfThen | lparser.cpp:1073-1101 | The stored and patched code of `if x then body end` runs the body exactly when the value is true and goes on behind it otherwise; no error is raised within the same bounds, the body included |
| FuncStates.FuncState.FixJump | lcode.cpp:60-67 | Stores the offset; the error is raised exactly if it is beyond 131071 either way |
| CodeSize.ReserveFails | lcode.cpp:168-180 | Reserving registers fails exactly if there would be 250 or more |
| CodeSize.CompileFits | lparser.cpp:786-809 | By the structure of an expression, how many registers it can take and how many instructions it can emit; within the registers compiling raises no error, emits no more, and gives all registers back |
| CodeSize.NextRegFits | lcode.cpp:364-369 | The same with the value stored in the next register |
| CodeSize.ConditionFits | lcode.cpp:482-509 | The same with the value turned into a jump |
| FuncStates.FuncState.Concat | lcode.cpp:154-166 | Concatenating two disjoint lists gives a list of both in order; only a jump of the first list is changed |
| FuncStates.FuncState.PatchListAux | lcode.cpp:124-134 | Walks a threaded list, ends, and sends the members controlled by a TESTSET to the value target and all others to the default target, changing nothing else |
| FuncStates.FuncState.GetJump | lcode.cpp:78-84 | Follows one link of a threaded list |
| FuncStates.FuncState.ListNeedsValue | lcode.cpp:98-105 | Says whether some member of the list carries no value |
| FuncStates.FuncState.PatchTestReg | lcode.cpp:107-117 | Patches the register of a TESTSET or turns it into a TEST, and nothing else |
| FuncStates.FuncState.RemoveListValues | lcode.cpp:119-122 | Turns every TESTSET of the list into a TEST, and nothing else |
| FuncStates.FuncState.DischargeJpc | lcode.cpp:136-139 | The jumps to here get the next instruction as target; open jumps keep their links |
| FuncStates.FuncState.PatchListToHere | lcode.cpp:149-152 | A list joins the jumps to here |
| FuncStates.FuncState.Jump | lcode.cpp:43-49 | Emits a jump and keeps the jumps to here on hold in its list |
| FuncStates.FuncState.Code | lcode.cpp:784-796 | Emits an instruction after settling the jumps to here |
| FuncStates.FuncState.ExpToReg | lcode.cpp:341-362 | exp2reg on the stored code and lists stands for exp2reg on the lists as sequences |
| FuncStates.FuncState.GoIf | lcode.cpp:482-536 | The same for luaK_goiftrue and luaK_goiffalse |
| FuncStates.FuncState.CodeNegation | lcode.cpp:538-577 | The same for codenot |
| FuncStates.FuncState.CodeCondition | lcode.cpp:468-480 | The same for jumponcond |
| FuncStates.FuncState.CodeComparison | lcode.cpp:641-656 | The same for codecomp |
| FuncStates.FuncState.Expression | lparser.cpp:786-809 | The same for a whole expression, with luaK_prefix, luaK_infix and luaK_posfix in the order in which the parser calls them; no error within the bounds above |
| JumpLists.ThreadedJoin | lcode.cpp:154-166 | Linking the last jump of one list to the head of another makes one list |
| JumpLists.RunStored | lvm.cpp:537-572 | When no jump to here is pending, stored code runs like the code it stands for |
| Upvalues.UpvaluesAreCells | lvm.cpp:427-454 | Any run of local accesses, captures, upvalue reads and writes and closes sees exactly what it would see if every captured variable were a shared cell |
| Upvalues.StepRefines | lvm.cpp:712-734 | One step sees the same value as the step on cells and keeps the states related |
| Upvalues.CloseExactly | lfunc.cpp:77-92 | Closing at a level closes exactly the open upvalues of that thread at or above it, each with the value of its slot, and touches no other |
| Upvalues.FindExactly | lfunc.cpp:40-64 | Capturing a slot gives its one open upvalue if there is one and a new one, in order, otherwise |
| Upvalues.StartAgrees | lfunc.cpp:40-64 | A state in which nothing is captured agrees with one cell for each slot |
| UpvalueLists.Threads.FindUpval | lfunc.cpp:40-64 | The walk and the insertion on the linked lists keep the list descending and equal to the ring of all open upvalues, and compute what FindExactly is about |
| UpvalueLists.Threads.Close | lfunc.cpp:77-92 | The loop on the linked lists closes exactly the upvalues at or above the level |
| UpvalueLists.Threads.UnlinkUpval | lfunc.cpp:66-69 | Unlinking takes one upvalue out of the ring and keeps the others in order |
| UpvalueLists.Threads.GetUpval | lvm.cpp:427-431 | Reads through the slot while open and from the upvalue itself afterwards |
| UpvalueLists.Threads.SetUpval | lvm.cpp:449-454 | Writes where reads look |
| Patterns.SearchRight | lstrlib.cpp:363-451 | The matcher's answer is right in full: an end with captures only if the pattern relation derives them, no match only if it derives nothing from there |
| Patterns.MaxRight | lstrlib.cpp:301-314 | `*` and `+` take the longest repetition after which the rest can match |
| Patterns.MinRight | lstrlib.cpp:316-327 | `-` takes the shortest |
| PatternErrors.NeverMalformed | lstrlib.cpp:363-451 | A well-formed pattern never raises an error, on any subject |
| PatternErrors.MatchesIffDerives | lstrlib.cpp:363-451 | On a well-formed pattern there is a match exactly when the pattern relation has a derivation |
| Choices.SearchExactly | lstrlib.cpp:363-451 | The answer is determined without the matcher: an error exactly if trying the alternatives in their order meets one before a match, else the one derivation in which each `*`, `+` and `?` takes as much and each `-` as little as leaves the rest able to match, else no match |
| Choices.ChosenOnce | lstrlib.cpp:301-327 | There is at most one such derivation |
| Captures.DerivesTraces | lstrlib.cpp:329-361 | The captures of a derivation are exactly the places of the subject at which the parentheses were passed: a group records where it opened and where it was closed |
| Captures.SearchRecords | lstrlib.cpp:363-451 | In every match each finished group has the start and the length of the text between these places |
| Captures.GroupsInside | lstrlib.cpp:343-350 | A match of a well-formed pattern leaves no group open, and every group lies within the subject, up to the end of the match |
| Captures.WholeCapture | lstrlib.cpp:329-350 | Matching a well-formed pattern in one pair of parentheses gives the whole match as the first capture |
| CharSets.SetMeans | lstrlib.cpp:185-264 | A set written from characters, ranges and classes ends at its closing bracket, and a character matches it exactly if one of these elements has it, or none with a caret in front |
| CharSets.SingleMeans | lstrlib.cpp:266-279 | What a dot, an escaped character and any other character match, and where they end |
| CharSets.ClassMeans | lstrlib.cpp:206-243 | What each class letter means, upper case for the complement; any other character stands for itself |
| Matchers.MatchState.Match | lstrlib.cpp:363-451 | The mutually recursive matcher on level and capture array terminates, computes the matching function, and on failure leaves the captures as they were |
| Matchers.MatchState.MaxExpand | lstrlib.cpp:301-314 | The same for the loop of max_expand |
| Matchers.MatchState.MinExpand | lstrlib.cpp:316-327 | The same for the loop of min_expand |
| Matchers.MatchState.StartCapture | lstrlib.cpp:329-341 | Opens a capture for the rest of the match and undoes it on failure; too many captures raise |
| Matchers.MatchState.EndCapture | lstrlib.cpp:343-350 | Closes the last open capture for the rest of the match and reopens it on failure |
| Matchers.MatchState.MatchBalance | lstrlib.cpp:281-299 | Ends behind the first place where the delimiters balance |
| Matchers.MatchState.MatchBracketClass | lstrlib.cpp:245-264 | Decides membership in a set of items, ranges and classes, complemented or not |
| Matchers.MatchState.ClassEnd | lstrlib.cpp:181-204 | Ends behind one pattern item or reports a malformed pattern |
| Matchers.MatchState.CaptureToClose | lstrlib.cpp:173-179 | The last capture that is still open |
| Matchers.MatchState.MatchCapture | lstrlib.cpp:352-361 | A back reference matches the captured text again |
| Substitution.MemFind | lstrlib.cpp:453-475 | Finds the first occurrence of a text, or none if there is none |
| Substitution.Find | lstrlib.cpp:503-544 | Finds the first start from which the pattern matches, only the first place if it is anchored |
| Substitution.Gsub | lstrlib.cpp:644-678 | The output is the subject with every match found from left to right, not overlapping, replaced by its value, at most as many as asked for; the rest is copied. An anchored pattern is tried once, at the start. An error is raised exactly if one of these tries raises one |
| Substitution.ReplacedByItself | lstrlib.cpp:644-678 | Replacing every match by its own text gives the subject back |
| Sorting.AuxSort | ltablib.cpp:163-232 | Given a strict weak order, sorts the range, permutes it and touches nothing else, never raises "invalid order function", and recurses at most log2 of the length deep |
| Sorting.Sort | ltablib.cpp:234-242 | The whole table from 1 to n: sorted and a permutation |
| Sorting.Partition | ltablib.cpp:190-219 | Splits the range around the pivot without leaving it, though the scans have no bounds of their own |
| Sorting.MedianOfThree | ltablib.cpp:163-189 | Puts the first, the middle and the last element in order; ranges of up to three are sorted by that |
| Precedence.ParsesExactly | lparser.cpp:786-809 | The operator parser returns a tree and a rest exactly when the tree fits the priorities, spells the tokens before the rest, the operator that follows is too weak for the limit, and the nesting is not too deep |
| Precedence.FittingIsParsed | lparser.cpp:786-809 | Every tree that fits is parsed back from its tokens, or is too deep |
| Precedence.RoundTrip | lparser.cpp:769-809 | Printing any operator tree with parentheses only where the priorities require and parsing gives the tree back |
| Precedence.MinimalIsLeast | lparser.cpp:769-784 | No other way to write the tree that parses back has fewer parentheses |
| OperatorOrder.ParsesByList | lparser.cpp:766-811 | The manual's list of eight ranks alone decides what is parsed: the parser gives a tree exactly if the tokens spell it, operands group as the ranks ask, to the left but for `..` and `^`, and there are no more than 200 levels |
| OperatorOrder.TwoBinary | lparser.cpp:786-809 | Two binary operators between three operands: the second one groups first exactly if it ranks above the first, or both are `..`, or both are `^` |
| OperatorOrder.UnaryFirst | lparser.cpp:786-809 | A unary operator in front of a binary one applies to both operands exactly if the binary one is `^`, and to the first one alone otherwise |
| OperatorOrder.UnarySecond | lparser.cpp:786-809 | A unary operator behind a binary one applies to the second operand |
| OperatorOrder.UnaryBetween | lparser.cpp:786-809 | A unary operator between two binary ones takes the second one along exactly if that is `^` |
| Precedence.LexState.SubExpr | lparser.cpp:786-809 | The loop on the token stream computes the parsing function and returns the first untreated operator |
| ChunkRoundTrip.ChunkBack | lundump.cpp:145-164 | Loading a dumped function gives the function with null sources replaced by the enclosing one (and stripped of debug information if asked), leaves the rest of the stream, and fails exactly when the bytecode checker refuses a function |
| ChunkRoundTrip.SameIffSources | ldump.cpp:100-111 | An unstripped dump is loaded back unchanged exactly when no function of the tree has a null source |
| ChunkRoundTrip.NullSourceChanged | lundump.cpp:149-151 | The concrete case, of a prototype that no code path builds: a null source comes back as "=?" |
| ChunkReload.Reloaded | lundump.cpp:145-190 | Whatever bytes a function was loaded from, dumping it unstripped and loading it again gives the same function |
| ChunkRoundTrip.StrippedLoad | ldump.cpp:83-111 | What stripping keeps: code, constants and nested functions; loading a second time changes nothing |
| ChunkIO.Undump | lundump.cpp:177-190 | The loader computes what the bytes mean, errors included, however the reader cuts the stream into blocks |
| ChunkIO.Dump | ldump.cpp:122-133 | A writer that accepts everything gets exactly the encoding; otherwise a prefix of it, and the status is one the writer gave |
| ChunkIO.DumpThenUndump | ldump.cpp:122-133 | What is written of a function without null sources that the bytecode checker accepts, cut into any blocks, is read back as the same function |
| ChunkIO.ZIO.Read | lzio.cpp:46-59 | Returns the next n bytes of the stream over any number of blocks, or how many are missing |
| ChunkIO.ZIO.Fill | lzio.cpp:13-23 | Gets the next block that is not empty, or the end |
| ChunkIO.ZIO.Lookahead | lzio.cpp:25-35 | Shows the next byte without taking it |
| ChunkIO.LoadState.LoadFunction | lundump.cpp:145-164 | Loads one function with its nested ones as the bytes say |
| ChunkIO.LoadState.LoadString | lundump.cpp:62-72 | Loads a string or a null as the bytes say |
| ChunkIO.LoadState.LoadProtos | lundump.cpp:111-117 | Loads the nested functions, passing the source down |
| ChunkIO.DumpState.DumpFunction | ldump.cpp:100-111 | Writes the encoding of a function, its source elided where it is the enclosing one, until the writer refuses |
| ChunkIO.DumpState.DumpString | ldump.cpp:42-51 | Writes a string with its final zero, or a zero size for a null |
| ChunkFormat.StartsWithHeader | lundump.cpp:195-206 | The first twelve bytes of every chunk, as numbers |
| ChunkFormat.OtherHeaderRefused | lundump.cpp:166-173 | What starts in any other way is refused |
| ChunkFormat.ConstantBytes | ldump.cpp:57-75 | The tag of each type of constant, as a number, and the bytes behind it |
| ChunkFormat.OtherTypeRefused | lundump.cpp:106-107 | Any other tag is refused |
| ChunkFormat.ChunkWritten | ldump.cpp:100-133 | All bytes of the chunk of a function with constants, debug information and a nested function, written out |
| ChunkPrefix.TruncatedRefused | lundump.cpp:38-41 | No proper prefix of a chunk is loaded |
| ChunkPrefix.ChunkGoesOn | lundump.cpp:145-190 | What stands behind a chunk does not change what is loaded, and is left in the stream |
| Interning.StringTable.SameAddressSameText | lstring.cpp:63-81 | In every state of the table two strings have the same address exactly when they have the same contents |
| Interning.StringTable.NewLStr | lstring.cpp:63-81 | Returns the one string with the text, revived if it was dead, or a new one; fails exactly for a new text that is too long; no other string comes, goes or changes |
| Interning.StringTable.Resize | lstring.cpp:13-38 | Relinks every string to its bucket in a table of the new size; no string comes or goes, and nothing happens during the string sweep |
| Interning.StringTable.Grow | lstring.cpp:57-59 | A crowded table doubles |
| Interning.StringTable.SweepStep | lgc.cpp:527-534 | Sweeps one bucket; strings that are not dead stay, and after the last bucket no dead string is left |
| Interning.StringTable.SweepBucket | lgc.cpp:376-395 | Unlinks exactly the dead strings of the bucket from its chain |
| Interning.StringTable.CheckSizes | lgc.cpp:397-408 | A table that is nearly empty halves |
| Quoting.QuotingRoundTrip | llex.cpp:222-294 | The lexer reads a quoted string back exactly when it holds no carriage return and its newlines do not overflow the line counter |
| Quoting.ReadsBack | llex.cpp:222-294 | Without carriage returns the outcome is the string itself, the text behind it and the new line number, or too many lines |
| Quoting.ReturnSwallowed | llex.cpp:96-103 | The concrete case: a newline and a carriage return come back as a newline alone |
| Quoting.ReturnUnreadable | llex.cpp:230-233 | The concrete case: a carriage return by itself is an unfinished string |
| Quoting.LosesReturn | llex.cpp:96-103 | An escaped newline swallows the carriage return behind it, in any string |
| Escapes.Letters | llex.cpp:237-257 | The value of each letter escape |
| Escapes.LineEnd | llex.cpp:258-262 | An escaped line end is a newline, a pair of different ones is one line end, and the line is counted |
| Escapes.OneDigit | llex.cpp:268-279 | The value of one digit when no digit follows |
| Escapes.TwoDigits | llex.cpp:268-279 | The value of two digits when no digit follows |
| Escapes.ThreeDigits | llex.cpp:268-279 | The value of three digits, and that a value above 255 is refused |
| Escapes.Itself | llex.cpp:265-267 | Any other escaped byte stands for itself |
| Escapes.WrittenBytes | lstrlib.cpp:692-717 | What each byte is written as |
| Quoting.Buffer.AddQuoted | lstrlib.cpp:692-717 | The loop appends the quoted form byte by byte |
| Quoting.Lexer.ReadString | llex.cpp:222-294 | The reading loop computes the reading function, errors included, and stops behind the delimiter |
| Quoting.Lexer.IncLineNumber | llex.cpp:96-103 | Skips one newline or a pair of different ones and counts one line |
| Quoting.Lexer.ReadDigits | llex.cpp:266-279 | Reads up to three digits and no more |

## Left out

Weaker than the source, or under a condition of its own:

- FullCollection.FullCollectionExact: the survivors are not only what is strongly reachable but also the fixed objects and the strings that weak tables hold, because the code keeps those.
- WeakEntries.EntriesExactly: told by the state in which the marking of that collection began; userdata with finalizers, whose values go earlier, are left out.
- OpenLists.FoundExactly: for a thread whose open upvalues are in order; finding and closing keep them so, but the collector's invariant does not include it (`UpvalueLists.Threads.FindUpval` has it on the linked lists).
- Safety.ReachableNeverFreed: finalizers do not run in the model (`GCTM`, `luaC_separateudata`), thread stacks hold no slots above their top and are never shrunk, and the mark bits of the `marked` byte are a colour.
- WriteSteps.CaptureInv: a closure is filled before the collector runs again, as the interpreter does it; the model's action demands that it is still white.
- Cycle.SingleStepProgress: the last phase has no finalizer steps, since finalizers are left out.
- CollectorMachine.GlobalState.PropagateMark: does not clear the stack slots above the top (the model has none) and returns no size, because bytes are not counted.
- CollectorMachine.GlobalState.Atomic: without `luaC_separateudata`, `marktmu` and the byte estimate, since finalizers and byte counts are left out.
- CollectorMachine.GlobalState.FullGC: without the threshold that it sets for the next cycle and without finalizers.
- CollectorMachine.GlobalState.SingleStep: runs no finalizers and counts no bytes, so the pacing by `GCthreshold` and `estimate` is not modelled; the size check after a sweep is an action of the program, which may happen at any time outside the string sweep.
- CollectorMachine.GlobalState.Link: a barrier call is part of every write in the model; `lua_setupvalue`, whose barrier names the closure instead of the upvalue written, is not an action.
- LuaTables.Replay: for keys that are there and whose objects have different addresses, and as long as a new field finds fewer than 2^26 others, the number of fields the code can hold; what an overflowing table contains after the error is not stated.
- LuaTables.LuaTable.Assign: the key must not share its address with another object that is there; any two objects alive at once have different addresses.
- LuaTables.LuaTable.ResizeArray: for growing; a shrinking call, which the callers of `luaH_resizearray` never make, would go through `Resize`.
- Traversal.Traverse: requires a table that is resumable now and after a collection; in any other one the fields do not all come in the order of their positions, which its contract promises (`Resuming.StaysExactly`), though they may come in another one; assignments between the calls are to fields that were there at the start, as the manual demands.
- Traversal.History: what a table holds after a string was stored in an entry that does not fit is not followed further; when its first field is lost is `StaleKeys.FieldLost`. That a table can be traversed is stated of runs in which no collection left an entry.
- StaleKeys.AdoptedOrder: the order it is about is stricter than `next` needs, because it counts the freed keys of other types; the condition that is exact for `next` is `Resuming.AdoptedResumable`.
- Resuming.AdoptedResumable: for an entry that fits; what `next` does in a table whose chains are no longer sound is not stated.
- ShortCircuit.NextRegTheorem: for operands that are locals, globals and comparisons. Literal operands take branches (`lcode.cpp:488-495`, `lcode.cpp:514-523`) that ignore jump lists, and the theorem is not true of them: `((1 or false) and true) or false` yields 1. No operation of the expression assigns to a local variable, as a metamethod may.
- CodeSize.CompileFits: an upper bound; an expression beyond it may still compile.
- FuncStates.FuncState.IfThen: the body is straight-line code, and there is no `else`.
- FuncStates.FuncState.Expression: for `and`, `or`, `not` and comparisons over locals and globals.
- FuncStates.FuncState.Concat: the two lists are disjoint, as the callers' always are.
- Upvalues.UpvaluesAreCells: upvalues that the collector has found dead but not yet swept are not in this model; the collector modules have them.
- Sorting.AuxSort: for a comparison that is a strict weak order; for others the code raises an error or reads beyond the range, which is not modelled.
- Precedence.ParsesExactly: simple expressions are one token or parenthesised expressions; their suffixes (calls, fields) are part of the token.
- Substitution.Find: the plain search that the code chooses for patterns without special characters is `Substitution.MemFind`; the choice, and the pushing of captures as results, are not modelled.
- Substitution.Gsub: the value that replaces a match is a function of the match; the expansion of `%1` in replacement strings, table lookups and calls, and their errors, are not modelled.
- Interning.StringTable.NewLStr: the hash function is a parameter; reserved words and `luaS_fix` are not modelled here.
- Interning.StringTable.CheckSizes: the shared buffer that the same function shrinks is not modelled.
- ChunkIO.Undump: the bytecode checker (`ldebug.cpp`) is a parameter, and the loader builds values where the source fills the vectors of a new prototype.
- Matchers.MatchState.Match: character classes are a parameter, and the depth of the C stack is not limited.

Not modelled at all:

- Finalizers, hooks, coroutines as control flow, and the exceptions of `ldo.cpp`; an error is an outcome.
- Memory allocation and its failure (`lmem.cpp`).
- The floating-point corners of keys (negative zero, conversion of a float to an int); a NaN key is refused.
- `luaO_int2fb` and `luaO_fb2int`, constant folding, arithmetic code, and assignments to anything but locals.
- Calls, tables and loops in the code generator, and the rest of the interpreter loop.
- The libraries other than the algorithms named above, the C API, and the stand-alone interpreter.
- The test programs under `test/`: they exercise the interpreter as a whole.
