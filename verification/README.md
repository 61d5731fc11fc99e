# klua: what its Lua core promises, proved

This project models, in Dafny, the parts of klua whose correctness is hard to see from their
code: the Lua 5.4 core that the repository vendors under `src/nativeMain/lua`, klua's memory
limit around it, and the marshalling of strings between Java and Lua. For every part there is
a model on values (functions and what is proved about them) and, where the program works by
changing state, a class or methods with the loops and in-place updates of the original, each
tied by its `ensures` to the functions that the proofs are about.

| part | files | what is proved |
|---|---|---|
| incremental garbage collector | `gc_*.dfy` | no reachable object is freed in any interleaving of collector steps, allocations, guarded stores, unguarded stack writes and interned strings, of whatever a program can get hold of, keys of ephemeron tables included; a full collection from any state keeps exactly what is reachable; convergence of ephemeron tables is a least fixpoint |
| tables | `table*.dfy` | the array part and the chained hash part together are a finite map, through insertion, Brent's moves, rehash, resize and failed allocations; `#t` is a border |
| code generator | `code_*.dfy` | code for short-circuit expressions, run under the meanings of the opcodes, leaves the value of the source expression in the target register; every expression that the registers, constants and jumps have room for compiles, and every instruction fits its fields |
| line information | `line_*.dfy` | every instruction is told the line it was given last, in at most 121 steps, from a table of signed bytes |
| parser | `parser_*.dfy` | the precedence parser accepts exactly the layered grammar of the manual, and undoes a printer with the fewest parentheses |
| patterns | `match_*.dfy` | the backtracking matcher gives the first of a list of successes, and raises no error on a sane pattern; what each letter and sign of a pattern text stands for; the leftmost match and its captures |
| table.sort | `sort_*.dfy` | sorted for every strict weak order, a permutation for any comparison, logarithmic recursion |
| short strings | `string_*.dfy` | equal contents, one object, one bucket |
| binary chunks | `dump_*.dfy` | the bytes of the header, and which error each wrong one gives; undump of dump, stripped or not, exactly when it works |
| string.pack | `pack_*.dfy` | the bytes that each letter of a format packs, and when it packs; unpack of pack, exactly when it works, and packsize |
| strings between Java and Lua | `utf_*.dfy` | the numbers of UTF-8 and UTF-16; both round trips, exactly when they hold, inside the buffers |
| memory limit | `memory_*.dfy` | klua's count, Lua's count and the live blocks agree over every run, and the limit holds; when a request is granted, also after an emergency collection |

`common.dfy` and `results.dfy` hold the few definitions that several parts share.

## Findings

Where the code does less than its comments, documentation or structure suggest, the model
keeps the code, a lemma gives an input, and the exact condition is proved.

- `loadUnsigned` shifts its limit right before it compares, so it refuses the last 128 values
  below it: `DumpRoundTrip.SizeBack` (a size is read back if and only if it is below
  128 * (limit / 128)) and `DumpRoundTrip.LastBandRejected` (INT_MAX is refused).
- The comment above `utf8_to_java` promises U+FFFD for invalid sequences. Continuation bytes
  are never checked: `UtfCodec.NotReplaced` (C3 28 becomes one character, and the parenthesis is lost)
  and `UtfCodec.ReplacesExactly` (the promise holds if and only if every byte that starts no
  character is a continuation byte, a byte F8-FF, or a first byte cut short by the end).
- The short cut of `string.find` for patterns without special characters does not treat `)` as
  special, so it finds a text that the matcher would reject: `MatchFind.PlainSearch` (the short
  cut agrees with matching on every subject if and only if the pattern has no `)`).
- `str_unpack` takes the length of a `z` string through an `int`: `PackRoundTrip.LongZeroString`
  (2^31 ones are packed, and what was packed is refused), `PackRoundTrip.UnpackOfPack` and
  `PackRoundTrip.PackRoundTrips` (what was packed comes back if and only if no `z` string has
  2^31 bytes or more).
- A child prototype without a source, under a parent that has one, gets the parent's source
  when it is loaded: `DumpRoundTrip.DumpRoundTrips`. Neither the compiler nor the loader builds
  such a tree: a compiled child has the source of its parent, and a loaded one inherits it.
- Removing two instructions in a row would make the line table wrong:
  `LineTable.RemoveTwice` and `LineTable.RemovedTwiceWrong`. The code generator never does it;
  this is a limit of the data structure.

## Model

| member | source | states |
|---|---|---|
| GcTheorems.RunSafe | src/nativeMain/lua/lgc.c:209-1618 | After any sequence of collector steps, allocations, guarded stores, stack writes, interned strings and changes of the roots from a new state (`luaC_barrier_`, `luaC_barrierback_`, `luaC_newobj`, `sweeplist`, `atomic`, `singlestep`), in which the program uses whatever it can get hold of, also a key that only an ephemeron table holds, every reachable object is in the heap and does not carry the dead white; while marking, no black object points to a white one. |
| GcMutator.ApplyInv | src/nativeMain/lua/lgc.c:209-268 | Every single step of collector or mutator keeps the invariant of the phase it is taken in; a mutator step may use any reference that a reachable object holds, weakly or not. |
| GcMutator.ObtainableIsLive | src/nativeMain/lua/lgc.h:14-54 | What a program can get hold of, a weak key that a traversal of its table yields included, is never dead. |
| GcMutator.InternInv | src/nativeMain/lua/lstring.c:200-227 | Finding any string of the string table again, dead or not, and putting it on a stack keeps the invariant: `changewhite` revives a dead one. |
| GcSafety.SingleStepInv | src/nativeMain/lua/lgc.c:1570-1618 | Every step of `singlestep` is defined where the invariant holds and keeps it, phase by phase. |
| GcSafety.ReachableIsLive | src/nativeMain/lua/lgc.h:14-54 | Under the invariant, in every phase, nothing reachable is dead: what the sweep may free is garbage. |
| GcSafety.AtomicMarkInv | src/nativeMain/lua/lgc.c:1510-1545 | When `atomic` has marked, the marked set holds the roots and is closed under references and under ephemeron entries with live keys, so nothing reachable is white at the flip. |
| GcSafety.FlipInv | src/nativeMain/lua/lgc.c:1538-1549 | The flip of the white turns exactly the unmarked objects into dead ones and leaves no reference from a live object to a dead one. |
| GcSafety.EnterSweepInv | src/nativeMain/lua/lgc.c:1472-1477 | The first step of the sweep frees dead objects only and keeps every live object as it was. |
| GcSafety.SweepListInv | src/nativeMain/lua/lgc.c:810-831 | Sweeping any number of objects keeps the live objects and their contents, whitens what it passes, and keeps every other object linked once. |
| GcSafety.ClearByKeysAt | src/nativeMain/lua/lgc.c:719-730 | `clearbykeys` frees the entries with dead keys of the tables in its list, and changes no other object. |
| GcMutator.StoreInv | src/nativeMain/lua/lgc.c:209-241 | A store of any live reference followed by the barrier its macro asks for, forward, backward or none, keeps the invariant in every phase. |
| GcMutator.SweepBarrierInv | src/nativeMain/lua/lgc.c:209-241 | A barrier taken in the sweep phase, where the invariant of marking is off, keeps the invariant of the sweep. |
| GcMutator.AllocateInv | src/nativeMain/lua/lgc.c:259-268 | Allocation in any phase, with the new object put on an unguarded stack, keeps the invariant. |
| GcMutator.WriteStores | src/nativeMain/lua/lgc.c:209-241 | A store, whatever its barrier does, leaves its object with the new contents and every other object as it was; what a reachable object refers to after it is reachable, and so is the object itself. |
| GcMutator.NewPushes | src/nativeMain/lua/lgc.c:259-268 | A new object is the only one there is more, empty, of the current white, and on the stack of its thread, through which it is reachable when the thread is. |
| GcMutator.InternPushes | src/nativeMain/lua/lstring.c:200-227 | A string found in the table is on the stack afterwards, reachable when the thread is, and no other object changed. |
| GcTheorems.StepKeepsReachable | src/nativeMain/lua/lgc.c:719-831 | No step of the collector frees or changes a reachable object, but for entries of ephemeron tables whose keys nothing reaches. |
| GcTheorems.StepReach | src/nativeMain/lua/lgc.c:1570-1618 | A step of the collector changes nothing about what is reachable. |
| GcFull.FullCollectionExact | src/nativeMain/lua/lgc.c:1679-1689 | A full collection started in any state of the collector, also in the middle of marking, ends in the pause with exactly the objects that were reachable at its start. |
| GcFull.RunTil | src/nativeMain/lua/lgc.c:1625-1629 | `luaC_runtilstate` terminates in the wanted state and keeps the invariant. |
| GcFull.StepMoves | src/nativeMain/lua/lgc.c:1570-1618 | Every step goes on to the next phase or leaves less work in the current one, which is why a collection ends. |
| GcLeast.ConvergeLeastFixpoint | src/nativeMain/lua/lgc.c:475-515 | `convergeephemerons` ends with the least set that contains what was marked and is closed under strong references and under "marked table, marked key: marked value", whatever the directions of its passes. |
| GcConverge.MarkedSetClosed | src/nativeMain/lua/lgc.c:685-704 | When a pass of `convergeephemerons` marks nothing more, the marked set is closed. |
| GcTricolor.PropagateMarkTri | src/nativeMain/lua/lgc.c:654-667 | Traversing one gray object keeps the invariant: black objects have no white reference, and every gray object is in exactly one gray list. |
| GcTricolor.TraverseEphemeronTri | src/nativeMain/lua/lgc.c:475-515 | `traverseephemeron` keeps the invariant: the table goes to the list that its unmarked keys and values ask for, and stays black only if it needs none. |
| GcTricolor.MarkTri | src/nativeMain/lua/lgc.c:292-323 | Marking an object, with everything it marks at once, keeps the invariant. |
| GcCollector.Collector.Step | src/nativeMain/lua/lgc.c:1570-1618 | `singlestep` on fields updated in place makes exactly the transition the proofs are about, and keeps the invariant. |
| GcCollector.Collector.CollectFull | src/nativeMain/lua/lgc.c:1679-1689 | `fullinc` on fields updated in place leaves exactly the objects reachable before it. |
| GcCollector.Collector.ConvergeTables | src/nativeMain/lua/lgc.c:685-704 | The loops over the ephemeron list, rebuilt while it is walked in alternating directions, compute the fixpoint. |
| GcCollector.Collector.SweepObjects | src/nativeMain/lua/lgc.c:810-831 | The sweep loop, which unlinks and frees in place, is the sweep of the proofs. |
| GcCollector.Collector.WriteObject | src/nativeMain/lua/lgc.c:209-241 | A guarded store in place, of anything the program can get hold of, is the step of the proofs and keeps the invariant. |
| GcCollector.Collector.InternString | src/nativeMain/lua/lstring.c:211-216 | The flip of a dead string and the push in place are the step of the proofs and keep the invariant. |
| GcCollector.Collector.NewObject | src/nativeMain/lua/lgc.c:259-268 | Allocation in place is the step of the proofs and keeps the invariant. |
| LuaTable.Table.Get | src/nativeMain/lua/ltable.c:741-756 | A lookup gives the value that the table has as a finite map for the key, in the array or on the chain, and moves at most the hint `alimit`. |
| LuaTable.Table.GetInt | src/nativeMain/lua/ltable.c:683-705 | An integer lookup finds the slot of the key; when it moves the hint, the size recovered from the hint is the same. |
| LuaTable.Table.GetGeneric | src/nativeMain/lua/ltable.c:255-271 | The walk along a chain ends, and finds a key exactly when some node holds it. |
| LuaTable.Table.Predecessor | src/nativeMain/lua/ltable.c:647-651 | The walk to the node before the colliding one ends at its predecessor. |
| LuaTable.Table.InsertKey | src/nativeMain/lua/ltable.c:621-679 | Insertion into a hash part with room, in all three cases of Brent's variation, keeps every entry, adds the key without a value, and keeps the chains. |
| LuaTable.Table.GetFreePos | src/nativeMain/lua/ltable.c:601-610 | The search for a free position fails only when every node has been used. |
| LuaTable.Table.NewKey | src/nativeMain/lua/ltable.c:621-679 | A new key gets a slot and no contents change; with room it never grows the table, without room it grows it once, so the mutual recursion ends. |
| LuaTable.Table.NewSizes | src/nativeMain/lua/ltable.c:554-573 | `rehash` chooses the largest power of two with more than half of its slots in use, counts the pending key, and asks for room for every entry that does not go to the array. |
| LuaTable.Table.Rehash | src/nativeMain/lua/ltable.c:554-573 | A rehash keeps the contents and makes room for the pending key; it fails, and leaves the contents, only when an allocation is refused or more than 2^30 nodes are needed. |
| LuaTable.Table.Resize | src/nativeMain/lua/ltable.c:509-543 | A resize to a hash part with room for what must go there, shrinking or growing either part, keeps the contents; it fails exactly for more than 2^30 nodes, or when an allocation is refused, and leaves array, nodes and free position as they were. |
| LuaTable.Table.Reinsert | src/nativeMain/lua/ltable.c:464-477 | Reinsertion adds exactly the entries of the old hash part and never needs another rehash. |
| LuaTable.Table.SetKey | src/nativeMain/lua/ltable.c:762-768 | Assignment updates exactly one key of the finite map; it leaves the map and fails only for a nil key, a refused allocation or a table of 2^30 slots. |
| LuaTable.Table.SetInt | src/nativeMain/lua/ltable.c:770-783 | Assignment to an integer key updates exactly that key; it leaves the map and fails only for a refused allocation or a table of 2^30 slots. |
| LuaTable.Table.GetN | src/nativeMain/lua/ltable.c:865-905 | `luaH_getn` returns a border of the contents and changes neither contents nor the size behind the hint. |
| LuaTable.Table.HashSearch | src/nativeMain/lua/ltable.c:797-819 | The doubling search and the binary search after it end at a border, also next to the largest integer. |
| LuaTable.Table.BinSearch | src/nativeMain/lua/ltable.c:822-832 | Binary search between a present and an absent slot ends at a border. |
| TableChain.MoveAwayInv | src/nativeMain/lua/ltable.c:641-662 | Moving the colliding node to the free position keeps the chain invariant: successors unique and acyclic, every key on the chain of its main position, and at a main position in use a key that belongs there. |
| TableChain.ChainAfterInv | src/nativeMain/lua/ltable.c:664-672 | Linking the new node after the colliding one keeps the chain invariant. |
| TableChain.NextInjective | src/nativeMain/lua/ltable.c:613-620 | No two nodes have the same successor: `next` is injective. |
| TableChain.SearchNext | src/nativeMain/lua/ltable.c:255-271 | A step along the chain never passes the key that is searched. |
| TableData.AllAdded | src/nativeMain/lua/ltable.c:464-477 | Putting back every entry of the old hash part on top of the array part gives the old contents. |
| TableSizes.ComputeSizes | src/nativeMain/lua/ltable.c:347-366 | The size chosen is the largest power of two more than half in use, and the count returned is the number of keys that go there, with the wrap-around of the loop variable. |
| TableSizes.NumUseArray | src/nativeMain/lua/ltable.c:385-409 | The slices counted hold, for every power of two, the number of array slots in use up to it. |
| TableSizes.NumUseHash | src/nativeMain/lua/ltable.c:412-425 | The counters grow by the integer keys of the hash part up to each power of two, and the total is the number of entries. |
| TableSizes.SizesFit | src/nativeMain/lua/ltable.c:554-573 | Keys that go to the array and keys that need the hash part are all the keys and the pending one. |
| TableData.RoundUpUnique | src/nativeMain/lua/ltable.c:203-228 | The power of two recovered from a hint between half the size and the size is the size. |
| CodeExpr.CompileCorrect | src/nativeMain/lua/lcode.c:928-934 | For every expression of locals, constants, comparisons, `not`, `and` and `or` that compiles, the code, run under the meanings of the opcodes in any order relation, ends just past itself with the value of the expression in the target register and every lower register unchanged. |
| CodeExpr.ExpressionOk | src/nativeMain/lua/lcode.c:1553-1723 | What the compilation of every expression leaves, value and pending jumps, means the value of the expression: on every path the value is in its place or a pending jump carries it. |
| CodeExpr.ShortFollows | src/nativeMain/lua/lcode.c:1574-1585 | After `and` or `or` the joined lists and the second operand mean the short-circuit value. |
| CodeExp2Reg.Exp2RegOk | src/nativeMain/lua/lcode.c:900-922 | Closing the jump lists, with or without the two boolean loads, puts the right value into the register on every path. |
| CodeExp2Reg.CloseOk | src/nativeMain/lua/lcode.c:900-922 | After the lists are closed every pending jump of the expression lands where its value is, or where its value is loaded. |
| CodeExp2Reg.JumpArrives | src/nativeMain/lua/lcode.c:258-297 | A TESTSET that is patched to keep its value, or turned into a TEST, makes the jump after it arrive with the right register. |
| CodeGoIf.GoIfTrueOk | src/nativeMain/lua/lcode.c:1116-1138 | `luaK_goiftrue` falls through exactly on a true value and leaves the rest to the false list. |
| CodeGoIf.GoIfFalseOk | src/nativeMain/lua/lcode.c:1143-1165 | `luaK_goiffalse` falls through exactly on a false value and leaves the rest to the true list. |
| CodeGoIf.JumpOnCondOk | src/nativeMain/lua/lcode.c:1098-1110 | The jump on a condition, also through a removed NOT, is taken exactly on that truth value. |
| CodeNegate.CodeNotOk | src/nativeMain/lua/lcode.c:1169-1197 | After `codenot` the expression means the negated value; the lists have changed places and their tests produce no values. |
| CodeNegate.UnvaluedRuns | src/nativeMain/lua/lcode.c:276-281 | Tests without a value take the same jumps. |
| CodeOperators.OrderOk | src/nativeMain/lua/lcode.c:1492-1515 | The instruction that `codeorder` chooses, immediate on either side or between registers, decides the comparison of the source operands. |
| CodeOperators.EqOk | src/nativeMain/lua/lcode.c:1522-1545 | The instruction that `codeeq` chooses, immediate, constant or register, decides the equality of the source operands. |
| CodeNil.MergeRuns | src/nativeMain/lua/lcode.c:130-146 | Merging a LOADNIL into the one before it sets the same registers to nil, unless a jump could land between them. |
| CodeRegs.Exp2RKOk | src/nativeMain/lua/lcode.c:1011-1020 | An operand in a register or a constant means the value of the expression in both cases. |
| CodeMachine.RunRepatched | src/nativeMain/lua/lopcodes.h:200-309 | Code in which pending jumps were patched and code was added runs as before up to the jumps, and goes on where the patches lead. |
| CodeThreads.EraseCloseLists | src/nativeMain/lua/lcode.c:153-314 | Closing lists that are threaded through the operands of the jumps does what closing lists of positions does. |
| CodeThreads.ThreadJoined | src/nativeMain/lua/lcode.c:180-195 | Joining two threaded lists gives the thread of the one list after the other, without a cycle. |
| CodeState.FuncState.Concat | src/nativeMain/lua/lcode.c:180-195 | `luaK_concat` threads the second list after the first in the instructions and changes no other jump. |
| CodeState.FuncState.PatchAll | src/nativeMain/lua/lcode.c:287-297 | `patchlistaux` patches every jump of a threaded list and no other instruction. |
| CodeState.FuncState.Exp2Reg | src/nativeMain/lua/lcode.c:900-922 | `exp2reg` on the instruction array does what the proofs say of lists of positions. |
| CodeState.FuncState.GoIfTrue | src/nativeMain/lua/lcode.c:1116-1138 | `luaK_goiftrue` on the instruction array, with threaded lists, does what the proofs say. |
| CodeState.FuncState.Negation | src/nativeMain/lua/lcode.c:1169-1197 | `codenot` on the instruction array, with threaded lists, does what the proofs say. |
| CodeState.FuncState.Posfix | src/nativeMain/lua/lcode.c:1642-1720 | `luaK_posfix` on the instruction array, with threaded lists, does what the proofs say. |
| CodeCompiler.ExpressionToNextReg | src/nativeMain/lua/lcode.c:928-934 | The code that the in-place generator leaves in its array, run under the meanings of the opcodes with every order and all registers, computes the expression into the next register; the code fits the instruction format. It never fails when the registers the expression may need stay below 255, its constants within 0x1FFFFFF, and the code with what it may emit below 2^24 - 1 instructions; otherwise only where the function of the same step does, or when the code is too long for a jump. |
| CodeSuccess.CompileFits | src/nativeMain/lua/lcode.c:474-490 | Every well-scoped expression compiles, and into the next register, when the first free register plus the registers it may need (counted by recursion on the expression) is below 255, the constants of the function plus its literals are at most 0x1FFFFFF, and the code plus what it may emit is shorter than 2^24 - 1; it adds no more constants and instructions than that. |
| CodeSuccess.ExpressionFits | src/nativeMain/lua/lcode.c:1553-1719 | The same for the description of an expression before it is put into a register, by recursion, with the jumps of enclosing expressions waiting. |
| CodeSuccess.StringExactly | src/nativeMain/lua/lcode.c:549-582 | For a string the bounds are exact: it gets into the next register if and only if the first free register is below 254 and it is a constant already or there are fewer than 0x1FFFFFF constants. |
| CodeSuccess.PatchFits | src/nativeMain/lua/lcode.c:166-178 | In code shorter than 2^24 - 1 no jump of a list is too long to be patched, wherever in the code it goes. |
| CodeFields.CompiledEncodable | src/nativeMain/lua/lopcodes.h:38-106 | Every instruction that compiling an expression emits or patches fits its 32-bit word: registers and indices in 8 bits, constants in 17 or 25 bits, immediate operands in 8 or 17 bits in excess notation, jumps in 25. |
| CodeFields.ExpressionInFields | src/nativeMain/lua/lcode.c:405-470 | The same for every step of the recursion over the expression, with the register or the constant its description names. |
| LineTable.RunEncodes | src/nativeMain/lua/lcode.c:337-398 | After any run of emit, fixline and remove-then-emit the table of differences and absolute lines encodes, for every instruction, the line it was given last, and is absolute often enough. |
| LineState.LineAfterRun | src/nativeMain/lua/ldebug.c:87-99 | On the table of any run from a new function, the line found for an instruction is the one it was given last, in at most 121 steps. |
| LineState.GetFuncLine | src/nativeMain/lua/ldebug.c:87-99 | The walk from the base entry gives the line of the instruction in at most MAXIWTHABS + 1 steps. |
| LineState.GetBaseline | src/nativeMain/lua/ldebug.c:56-80 | The search over the absolute lines finds the last one not after the instruction. |
| LineTable.BaseRight | src/nativeMain/lua/ldebug.c:56-80 | Between an absolute line and the next one no instruction is absolute, and none is further than 121 instructions from its base. |
| LineTable.RemoveEncodes | src/nativeMain/lua/lcode.c:361-373 | Removing the last entry leaves the encoding of the lines before it, although `previousline` may be stale. |
| LineTable.RunFitsBytes | src/nativeMain/lua/lcode.c:334-351 | After any run every entry of the table is a signed byte, -128 marks the absolute lines, and of any 122 instructions in a row one has an absolute line. |
| LineTable.SaveEncodes | src/nativeMain/lua/lcode.c:337-354 | Saving a line extends the encoding, also when the state is stale after a removal. |
| LineTable.RemoveTwice | src/nativeMain/lua/lcode.c:361-373 | Two removals in a row, which the code generator never makes, would leave the next line right if and only if it is saved as absolute or the removed absolute line repeated the line before it. |
| LineTable.RemovedTwiceWrong | src/nativeMain/lua/lcode.c:361-373 | A concrete table that two removals and a save would make wrong. |
| LineState.FuncLines.FixLine | src/nativeMain/lua/lcode.c:1726-1729 | `luaK_fixline` on the arrays changes the line of the last instruction and of no other. |
| ParserGrammar.ParseUndoesPrint | src/nativeMain/lua/lparser.c:1227-1282 | For every tree of unary and binary operators, `subexpr` on the printed tokens gives the tree back. |
| ParserGrammar.FewestParens | src/nativeMain/lua/lparser.c:1227-1245 | No sequence of tokens that parses to the tree has fewer parentheses than the printed one. |
| ParserGrammar.ParsesPrinted | src/nativeMain/lua/lparser.c:1250-1282 | Printed under any limit and followed by anything that stops there, an expression is read back and the rest is left. |
| ParserState.LexState.Subexpr | src/nativeMain/lua/lparser.c:1250-1282 | The loop and recursion of `subexpr` over the token stream read exactly what the parser functions read; by the rows below that is the grammar of section 3.4.8 of the Lua manual. |
| ParserLevels.ReadsExactly | src/nativeMain/lua/lparser.c:1227-1282 | The parser accepts a token sequence as a whole if and only if it is a text of the layered grammar of section 3.4.8 of the Lua manual (or; and; comparisons; |; ~; &; shifts; ..; + and -; *, /, // and %; unary operators; ^), with the tree that the text means; levels and tokens are listed apart from the table of priorities. |
| ParserLevels.TwoOperators | src/nativeMain/lua/lparser.c:1227-1241 | For every two binary operators, a op1 b op2 c groups to the left if and only if op1 is on a higher level, or on the same level and neither ^ nor .., and else to the right. |
| ParserLevels.UnaryAndBinary | src/nativeMain/lua/lparser.c:1243-1263 | A unary operator before a binary one takes only the first operand, but for ^, where it takes the power; after a binary operator it belongs to the second operand. |
| ParserLevels.ReadAsMeant | src/nativeMain/lua/lparser.c:1250-1276 | Every text of the grammar, at any level, is read as the tree it means by any limit that lets it in, and reading stops where an operator of a lower level follows. |
| MatchMachine.MatchState.Match | src/nativeMain/lua/lstrlib.c:567-664 | When `match` raises no error, it returns the first of the successes of the pattern in order of preference, or fails exactly when there is none, with captures and depth restored; on a sane pattern it raises no error. What a pattern text stands for is in the rows of MatchLetters. |
| MatchMachine.MatchState.MaxExpand | src/nativeMain/lua/lstrlib.c:503-515 | Greedy repetition tries the longest run first and gives the first success of all. |
| MatchMachine.MatchState.MinExpand | src/nativeMain/lua/lstrlib.c:518-528 | Lazy repetition tries the shortest run first and gives the first success of all. |
| MatchMachine.MatchState.EndCapture | src/nativeMain/lua/lstrlib.c:545-553 | Closing a capture is undone when what follows fails. |
| MatchMachine.MatchState.StartCapture | src/nativeMain/lua/lstrlib.c:531-542 | Opening a capture is undone when what follows fails. |
| MatchMachine.MatchState.MatchBalance | src/nativeMain/lua/lstrlib.c:483-500 | `%b` ends at the delimiter that closes the first one, or nowhere. |
| MatchMachine.MatchState.FindClassEnd | src/nativeMain/lua/lstrlib.c:400-421 | The end of a class is found, and missing exactly when the class is malformed. |
| MatchMachine.MatchState.InSet | src/nativeMain/lua/lstrlib.c:444-464 | The test of a byte against a set is membership in its elements, negated for `^`. |
| MatchMachine.SaneItem | src/nativeMain/lua/lstrlib.c:567-664 | A sane pattern has no malformed item, few enough captures, closes only what is open and refers only to closed captures; this goes on to what follows each item. |
| MatchLetters.SingleMatches | src/nativeMain/lua/lstrlib.c:424-465 | On pattern texts: a class matches one byte if and only if the byte is in the listed ranges, for each of the letters a c d g l p s u w x z, for the upper-case letters their complements, for `.`, a literal, a quoted character, a set of bytes, ranges and letters, and a set with a caret. |
| MatchLetters.SuffixMatches | src/nativeMain/lua/lstrlib.c:503-529 | On pattern texts: a class followed by `*`, `+`, `?` or `-` first ends after the longest run of its bytes, the longest one that is not empty, one byte if there is one, and nothing. |
| MatchLetters.CaptureMatches | src/nativeMain/lua/lstrlib.c:531-565 | On pattern texts: parentheses around a class capture its byte, and `%1` behind them matches the same byte again. |
| MatchLetters.OtherItems | src/nativeMain/lua/lstrlib.c:483-501 | On pattern texts: `()` captures the position, `$` at the end matches at the end only, `%bxy` a balanced string, and `%f` with a set the place where the set is entered. |
| MatchLetters.FindsFirst | src/nativeMain/lua/lstrlib.c:770-813 | A search for the text of a class gives the first byte at or after the start that the class stands for, or nothing when there is none. |
| MatchLetters.FindsHere | src/nativeMain/lua/lstrlib.c:794-808 | With a caret in front the search gives the byte at the start or nothing. |
| MatchLetters.LimitsInNumbers | src/nativeMain/lua/lstrlib.c:345-371 | A pattern of n position captures is sane, so that no search raises an error, if and only if n is at most 32, and one of n optional items if and only if n is at most 199. |
| MatchTheorems.SuccessesDerive | src/nativeMain/lua/lstrlib.c:567-664 | The list of successes is sound and complete for the relation "these items match from here to there with these captures". |
| MatchTheorems.GreedyFirst | src/nativeMain/lua/lstrlib.c:503-515 | Of two runs of a greedy item the longer one is preferred. |
| MatchTheorems.LazyFirst | src/nativeMain/lua/lstrlib.c:518-528 | Of two runs of a lazy item the shorter one is preferred. |
| MatchTheorems.BalanceEnds | src/nativeMain/lua/lstrlib.c:483-500 | The string that `%b` matches is balanced, and no shorter one is. |
| MatchFind.Find | src/nativeMain/lua/lstrlib.c:705-813 | `string.find` and `string.match` give the first success at the leftmost position that has one, with the text or position of each capture; on a sane pattern the matcher raises no error, and "unfinished capture" is raised exactly when there is a match and the pattern leaves a capture open. |
| MatchFind.PushCaptures | src/nativeMain/lua/lstrlib.c:699-740 | The values pushed are the captured parts of the subject, or the whole match when there are none and it is wanted; there is an error exactly when a capture is open. |
| MatchTheorems.CapturesOfSuccess | src/nativeMain/lua/lstrlib.c:531-553 | Every capture of a success lies inside what was matched, and which captures are open depends on the pattern alone. |
| MatchFind.PlainSearch | src/nativeMain/lua/lstrlib.c:743-785 | The short cut for patterns without special characters agrees with matching on every subject if and only if the pattern has no `)`. |
| MatchFind.PlainFind | src/nativeMain/lua/lstrlib.c:670-697 | `lmemfind` finds the first occurrence, or none. |
| SortState.Sorter.Sort | src/nativeMain/lua/ltablib.c:397-412 | `table.sort` leaves a permutation for every comparison, also when it raises, and a sorted table for every strict weak order. |
| SortState.Sorter.AuxSort | src/nativeMain/lua/ltablib.c:343-394 | The recursion stays inside its bounds, permutes them only, sorts them for every strict weak order, and its depth is at most the logarithm of the size, for every comparison. |
| SortState.Sorter.Partition | src/nativeMain/lua/ltablib.c:296-325 | Partition stays inside the range, permutes it, and for a strict weak order does not raise and puts the pivot between what is not above and what is not below it. |
| SortState.Sorter.ChoosePivot | src/nativeMain/lua/ltablib.c:332-337 | The pivot of a large range lies in its middle half. |
| SortOrder.AroundSorted | src/nativeMain/lua/ltablib.c:343-394 | A range whose parts on the two sides of the pivot are sorted is sorted. |
| SortOrder.DepthGrows | src/nativeMain/lua/ltablib.c:343-394 | A call for the smaller part only is at most half as large, so the depth is logarithmic. |
| StringTable.Table.Intern | src/nativeMain/lua/lstring.c:200-227 | Interning returns the object with the given contents if there is one, else a new one; no other contents change their object, but for strings that an emergency collection in one of the allocations frees; it raises only when the object is refused or the table is full. |
| StringTable.Table.UniqueStrings | src/nativeMain/lua/lstring.c:200-227 | Every string is in exactly one bucket, the one of its hash modulo the size, and two strings of the table are the same object exactly when their contents are equal. |
| StringTable.Table.Resize | src/nativeMain/lua/lstring.c:97-118 | Growing, shrinking and a failed shrink keep every string in exactly one right bucket. |
| StringTable.Table.Rehash | src/nativeMain/lua/lstring.c:74-91 | Rehashing in place, bucket by bucket into the same array, loses and duplicates nothing. |
| StringTable.Table.Remove | src/nativeMain/lua/lstring.c:176-184 | Removal takes out one string and keeps the table. |
| StringTable.Table.FreeDead | src/nativeMain/lua/lstring.c:176-184 | A collection takes out exactly the strings it frees. |
| DumpRoundTrip.DumpRoundTrips | src/nativeMain/lua/lundump.c:256-333 | Undump of the unstripped dump gives the same prototype tree and consumes exactly the bytes written, if and only if every number fits and no prototype without a source has a parent with one. |
| DumpRoundTrip.StrippedErases | src/nativeMain/lua/ldump.c:154-226 | Undump of the stripped dump gives the tree without its debug information, or an integer overflow when a number does not fit. |
| DumpRoundTrip.UndumpOfDump | src/nativeMain/lua/lundump.c:256-333 | For every prototype tree, with or without stripping and whatever follows the chunk, undump of dump gives the tree with inherited sources, or an integer overflow exactly when some number does not fit. |
| DumpRoundTrip.FunctionBack | src/nativeMain/lua/lundump.c:256-270 | The same for one function inside a parent, for every source it may inherit. |
| DumpRoundTrip.SizeBack | src/nativeMain/lua/lundump.c:69-80 | A size written by `dumpSize` is read back by `loadUnsigned` if and only if it is below 128 * (limit >> 7); else the load fails with an integer overflow. |
| DumpRoundTrip.LastBandRejected | src/nativeMain/lua/lundump.c:69-80 | INT_MAX and the 127 values before it are refused. |
| DumpRoundTrip.ReloadedSame | src/nativeMain/lua/lundump.c:256-260 | Inheriting sources changes nothing if and only if no prototype without a source has a parent with one. |
| DumpRoundTrip.ConstantBack | src/nativeMain/lua/lundump.c:155-188 | Every constant comes back with its tag, also strings, whose tag is that of their length. |
| DumpState.DumpChunk | src/nativeMain/lua/ldump.c:197-226 | With a writer that may fail at any block, what was written is an initial part of the dump, and all of it when the status is zero. |
| DumpState.Dumper.DumpNumber | src/nativeMain/lua/ldump.c:61-70 | The digits, written from the end of a buffer of ten bytes, stay inside it and are the encoding of the number. |
| DumpLoad.UndumpChunk | src/nativeMain/lua/lundump.c:290-333 | The loader that moves through its input and fills arrays gives what the functions say, errors included, on every input, and loads only what starts with the prescribed header; with more upvalue names than upvalues both stop with an error where the code writes past the array. |
| DumpBytes.HeaderChecked | src/nativeMain/lua/lundump.c:273-308 | A chunk is loaded only if it starts, after the byte that told it from a text, with 4C 75 61 54 00 19 93 0D 0A 1A 0A 04 08 08, the integer and the float; the header is accepted if and only if it does. |
| DumpBytes.HeaderRefused | src/nativeMain/lua/lundump.c:273-308 | The first byte of the header that is wrong or missing decides the error: truncated chunk, not a binary chunk, version mismatch, format mismatch, corrupted chunk, the three sizes, integer or float format mismatch. |
| DumpBytes.HeaderWritten | src/nativeMain/lua/ldump.c:197-207 | What is written starts with these bytes. |
| DumpBytes.SizeWritten | src/nativeMain/lua/ldump.c:61-75 | A number is written in its digits to the base 128, highest first, without a zero in front, with the high bit set on the last digit and on no other. |
| DumpBytes.ConstantWritten | src/nativeMain/lua/ldump.c:108-132 | The tag of each kind of constant, short and long strings included, and what follows it. |
| DumpBytes.SampleWritten | src/nativeMain/lua/ldump.c:154-195 | The bytes, one by one, of a function with a child and something in every vector: the order of all parts. |
| DumpLoad.Loader.ReadUnsigned | src/nativeMain/lua/lundump.c:69-80 | The accumulating loop reads what the digits say, and fails as they do. |
| DumpLoad.Loader.ReadFunction | src/nativeMain/lua/lundump.c:256-270 | One function is read as the functions say, with its source inherited; more upvalue names than upvalues is an error of the model. |
| PackRoundTrip.UnpackOfPack | src/nativeMain/lua/lstrlib.c:1552-1756 | For every format of integers, strings, padding, alignment and byte order, unpack of what pack produced gives the packed values and the position after the last byte, if and only if no `z` string has 2^31 bytes or more. |
| PackRoundTrip.LongZeroString | src/nativeMain/lua/lstrlib.c:1693-1756 | A concrete `z` string, 2^31 ones, that pack takes and unpack refuses. |
| PackRoundTrip.PackRoundTrips | src/nativeMain/lua/lstrlib.c:1552-1756 | When every `c` is exactly filled, the values that come back are the arguments. |
| PackRoundTrip.PackSizeAgrees | src/nativeMain/lua/lstrlib.c:1639-1656 | For formats without `s` and `z`, packsize is the length of every result of pack, or the error for results above 2^31 - 1. |
| PackRoundTrip.IntBack | src/nativeMain/lua/lstrlib.c:1517-1690 | Every integer in range, signed or not, comes back from any size from 1 to 16 in either byte order. |
| PackRoundTrip.ItemBack | src/nativeMain/lua/lstrlib.c:1693-1756 | Every item is read back where it was written, and the position after it is right. |
| PackState.StrPack | src/nativeMain/lua/lstrlib.c:1552-1636 | The loop of `str_pack` produces the packed bytes, or the first error. What the letters of a format mean is in the rows of PackLetters. |
| PackState.StrUnpack | src/nativeMain/lua/lstrlib.c:1693-1756 | The loop of `str_unpack` reads the values and the position, or the first error. |
| PackState.StrPackSize | src/nativeMain/lua/lstrlib.c:1639-1656 | The loop of `str_packsize` adds the sizes up, or gives the first error. |
| PackState.PackInteger | src/nativeMain/lua/lstrlib.c:1517-1531 | The shifting loop and the correction of the sign bytes fill the buffer with the two's complement number in the byte order. |
| PackState.UnpackInteger | src/nativeMain/lua/lstrlib.c:1667-1690 | The loop over the low eight bytes, the sign extension and the check of the other bytes give the number, or the error that it does not fit. |
| PackState.FormatReader.ReadDetails | src/nativeMain/lua/lstrlib.c:1490-1508 | Options, sizes and alignment are read as the grammar of formats says, `X` included. |
| PackLetters.IntegerPacked | src/nativeMain/lua/lstrlib.c:1443-1536 | For b h i l j, B H I L J T and iN, IN with N from 1 to 16, after `<`, `>` or `=`: an integer is packed if and only if it is in the range of its option, and byte k of the result is digit k to the base 256 of its two's complement, from the other end for `>`, in the order of the machine for `=`. |
| PackLetters.IntegerUnpacked | src/nativeMain/lua/lstrlib.c:1667-1691 | The same options unpack an integer, and the position behind it, if and only if the data start with its digits and it is in range; they fail when the data are shorter, and else with no other error than that the number does not fit. |
| PackLetters.ZeroStringPacked | src/nativeMain/lua/lstrlib.c:1619-1626 | `z` packs a string if and only if it has no zero, and adds one. |
| PackLetters.FixedStringPacked | src/nativeMain/lua/lstrlib.c:1598-1607 | `cN` packs a string of at most N bytes, filled up with zeros, and refuses a longer one. |
| PackLetters.CountedStringPacked | src/nativeMain/lua/lstrlib.c:1608-1618 | `s` and `sN` put the length in front, in 8 bytes or in N, and refuse a length that does not fit. |
| PackLetters.IntegerPadded | src/nativeMain/lua/lstrlib.c:1490-1508 | After `!` or `!a` an integer option is padded with zeros to a multiple of the smaller of its size and a, and refused when that is no power of two. |
| PackLetters.OtherLetters | src/nativeMain/lua/lstrlib.c:1443-1482 | `x` is one zero, a space nothing, and a byte that is no letter of a format an error. |
| PackLetters.LengthRefused | src/nativeMain/lua/lstrlib.c:1421-1428 | A length that is not between 1 and 16 is refused. |
| UtfCodec.DecodeUndoesEncode | src/jvmMain/c/klua_jni.c:126-228 | A Java string comes back unchanged from UTF-8, unpaired surrogates and U+0000 included. |
| UtfCodec.CodePointBothWays | src/jvmMain/c/klua_jni.c:143-169 | Every code point that is no surrogate, its units given by section 2.1 of RFC 2781 and its bytes by section 3 of RFC 3629 as numbers, goes from the one to the other and back, wherever it stands in a string. |
| UtfCodec.BytesRoundTrip | src/jvmMain/c/klua_jni.c:126-228 | A byte string comes back unchanged if and only if it is well formed but for surrogates that are not paired; every string that is well formed by section 4 of RFC 3629 does. |
| UtfCodec.ReplacesExactly | src/jvmMain/c/klua_jni.c:178-228 | Malformed bytes are replaced one by one with U+FFFD, as the comment promises, if and only if every byte that starts no character starts no sequence either or asks for more bytes than there are. |
| UtfCodec.NotReplaced | src/jvmMain/c/klua_jni.c:189-224 | C3 28 is malformed and is read as one character. |
| UtfCodec.DecodeEncoded | src/jvmMain/c/klua_jni.c:126-228 | The bytes of a code point are read back as that code point, whatever follows. |
| UtfMarshal.JavaStringToUtf8 | src/jvmMain/c/klua_jni.c:126-176 | Every write stays inside the buffer of 3n + 1 bytes, which ends up with the encoding and a terminator; the answer is null if and only if the string is or memory is refused. |
| UtfMarshal.Utf8ToJava | src/jvmMain/c/klua_jni.c:183-228 | Every write stays inside the buffer of len + 1 units, and the string is the decoding; the answer is null if and only if the bytes are or memory is refused. |
| MemoryLedger.LedgersAgree | src/nativeMain/limits/klua_limits.c:32-47 | Over every run of malloc, realloc, free, setdebt and buffer boxes, failures and emergency collections included, klua's used memory is the size of the live blocks and boxes, is what Lua counts plus the boxes, and never exceeds a positive limit. |
| MemoryLedger.StepBalances | src/nativeMain/lua/lmem.c:132-202 | Every single call keeps the two accounts and the limit. |
| MemoryLedger.ReallocBalances | src/nativeMain/lua/lmem.c:162-176 | A reallocation, also one that fails, collects and tries again, keeps the accounts. |
| MemoryLedger.CollectBalances | src/nativeMain/lua/lmem.c:146-154 | An emergency collection keeps the accounts and the block that is being reallocated. |
| MemoryLedger.SetDebtBalances | src/nativeMain/lua/lstate.c:86-96 | `luaE_setdebt` keeps the sum of bytes and debt, never lets the total overflow, and sets the debt it is given unless the total would. |
| MemoryLedger.BoxBalances | src/nativeMain/lua/lauxlib.c:473-485 | A buffer box changes klua's account and not Lua's. |
| MemoryLedger.TagIgnored | src/nativeMain/lua/lmem.c:188-202 | The tag that `luaM_malloc_` passes as old size with a NULL block changes nothing. |
| MemoryLedger.RefusedExactly | src/nativeMain/limits/klua_limits.c:32-47 | A request is refused if and only if it would go over the limit or the platform refuses it, and then only the reason may change. |
| MemoryLedger.ReallocComes | src/nativeMain/lua/lmem.c:146-176 | Exactly when a block gets its new size, and which block it is: at once when the limit and the platform allow it, after the emergency collection of a built state when it grows and they allow it then, and else not at all, with the block as it was. |
| MemoryLedger.MallocComes | src/nativeMain/lua/lmem.c:188-202 | The same for a new block. |
| MemoryState.LuaMemory.KluaAlloc | src/nativeMain/limits/klua_limits.c:32-47 | `klua_alloc` on the control block in place does what the proofs say. |
| MemoryState.LuaMemory.ReallocBlock | src/nativeMain/lua/lmem.c:162-176 | `luaM_realloc_` on the fields in place does what the proofs say and keeps the accounts. |
| MemoryState.LuaMemory.GrowVector | src/nativeMain/lua/lmem.c:79-101 | A full vector doubles, to at least 4 and at most its limit; the error "too many" is raised exactly when it is full and at the limit, and then nothing changes. |

## Left out

- The memory and instruction limits of klua beyond the allocator: the hook, cancellation and the wall clock depend on asynchronous reads and on time.
- JNI calls, the callback registry, the Kotlin side, the standard libraries other than those above, loadlib, the command line: foreign calls and plumbing.
- Garbage collector, generational mode, weak values and all-weak tables, finalizers, fixed objects and pacing: separable from the incremental core. An object's metatable is one of its strong references.
- Garbage collector, open upvalues: `remarkupvals` and the `twups` list are not in the model, so no closure shares a stack slot with a running thread.
- Garbage collector, weakness that changes: a table is plain or ephemeron from its creation on; setting `__mode` in the middle of a cycle is not in the model.
- Garbage collector, the part of a thread's stack above its top, which `traversethread` clears: a thread is the list of the references on its stack.
- Tables, float keys: normalization of floats with integer values and the error for NaN belong to keys that are opaque here; a key is an integer or some other value with an arbitrary hash.
- Tables, `luaH_next` and the metamethod cache `flags`: traversal order and caches.
- Tables, wrap-around of the key counts: the counts of `rehash` are unbounded numbers.
- LuaTable.Table.Resize: asks for a hash part with room for what must go there. Every caller provides it: `rehash` counts what it needs, `luaH_resizearray` keeps the hash part and its one use grows the array, and `lua_createtable`, OP_NEWTABLE and `init_registry` resize an empty table. A smaller hash part would make the resize rehash while it reinserts.
- Code generator, arithmetic, concatenation, bitwise operators, floats, upvalues, calls, varargs, goto and constant folding: expressions are locals, constants, comparisons, `not`, `and` and `or`. Comparisons have no metamethods and no errors: the order is an arbitrary relation.
- Code generator, the limit MAX_INT on the size of the code and the growth of the code array: an instruction can always be added.
- Parser, the limit on nested C calls, and what a simple expression is made of: a simple expression is one token.
- Patterns, locales and the argument handling of `string.find` (negative `init`), gmatch and gsub: classes are those of the C locale.
- Line information, the growth of the vectors in memory.
- table.sort, a comparison that changes the table it is sorting: the comparison sees values only. Yields across it do not exist.
- Short strings, the hash function, the cache of C strings and long strings: the hash is an arbitrary function of the contents. The flip of the color of a dead string that is interned again is a step of the collector's runs (`GcMutator.InternInv`); the string table does not see colors.
- Short strings, the full collection that `growstrtab` starts when the table has MAX_INT strings: it only raises the error.
- Binary chunks, memory for the arrays: a chunk that announces more elements than memory has is not told apart from one that is too short. Representations of numbers are sequences of bytes of the machine's sizes.
- Binary chunks, the identity of source strings: `dumpFunction` compares the addresses of the sources, the model their contents; the bytes may differ and what is loaded is the same.
- DumpFormat.LoadDebug: does not model what `loadDebug` does when a chunk has more upvalue names than upvalues; the code writes past the array, the model stops there.
- string.pack, the options `f`, `d` and `n`: floats.
- string.pack, arguments that are converted to integers or strings, and the limits of the buffer and of the Lua stack.
- string.unpack, an initial position other than 1: the round trip starts at the first byte.
- Memory, sizes of 2^63 bytes and more, for which the platform is taken to answer NULL, and wrap-around of the counts.
- Memory, `close_state` and the allocations of a state that is not built yet, other than that they are not tried again.
