# r17 verification model

r17 is a record processor written in C++: a small expression language (rlang) compiled to threaded code, and
relational operators (`order_by`, joins, `unique`, `group`, `select`) over streams of records. This project states
in Dafny what its core algorithms do and proves the properties they are there for. A maintainer can verify it with
`dafny verify dfyconfig.toml`.

The files follow the program's own structure. A class, a loop or a structure relinked in place in the C++ is a
class, a loop or a field updated in place here; code that only computes a value is a function. Each such method is
proved equal to a specification function, or against the property itself, and the lemmas are about those
specifications.

* **The expression compiler and its machine.** `DataTypes`, `Tokens`, `FnTable`, `ShuntingYard`, `Headings`,
  `CompilerSpec`, `CompilerState`, `Compiler`, `Machine`, `Vm` follow the source. `Grammar` says what a well-written
  expression is, `Codegen` what code it should become and `Evaluation` what it means; none of the three looks at the
  parser, the compiler or the machine. `ShuntingYardProofs`, `CompilerProofs`, `EvaluationProofs` and `StackTyping`
  connect them: parse, compile, back-patch and run give the value of the tree, and the simulated stack is the real
  one. `Malformed` holds a list of tokens for which the latter is false. `Select` and `SelectCongruence` are the type
  inference of `select`. `ShuntingYardAborts` says which token lists parse at all. `HeadingTexts`, `Variables` and
  `Operators` say in texts, values and symbols alone what the leaves mean: which column of which record a name reads,
  what a literal leaves, which operands an operator takes.
* **The external sort.** `MergeSort`, `MergeSorter`, `StableOrder`, `FixedHeap`, `SkipList`, `ExternalSort`,
  `FileMerger`, `SortManager`, with the record order in `Compare` and `CompareSpecs`: spilling, renumbering and merging
  emit what one in-memory stable sort would. `FieldOrder` and `ColumnOrder` say what that order is by the characters of
  the fields and by the columns of the records.
* **The record multimap and the operators on it.** `Multimap`, `HashTable`, `RecordMultiHashMap`, `JoinHelper`,
  `Joins`, `Unique`, `GroupCount`, `GroupMedian`, `GroupRuns`: a table that rehashes recursively agrees with a list of
  pairs, and the operators with nested-loop definitions. `JoinedRows` says what the rows of the joins are in terms of
  the two files and their headings alone.
* **The native record format.** `CompressedInt`, `RecordFormat`, `RecordStream`.
* **Smaller machines.** `Sha256` (block buffering), `VmHeap` (the arena and the buffer that grows on it),
  `JsonTokenizer`, `Json`, `JsonParser`, `JsonProofs`, `JsonAccepted`, `JsonValues` (the token, pushdown and filter
  pipeline).

Conventions. An abort of the process (`NP1_ASSERT`) is `None` or a result that says so. A function's own computation
(arithmetic, string functions, conversions) is a parameter: `Host` for rlang functions, the hash step `add`, the
SHA-256 block function, the size of a record. Allocation is a parameter too: without `Memory.ample` any request of the
hash map may fail at any time; with it none does. `lt` parameters range over all strict weak orders unless
`OrdersRecords` pins them to a key and the record number.

Properties that turned out to be false of the code have a lemma with the input and another with the exact condition:

* Code compiled from token lists outside the grammar can pop below its branch: `Malformed.AcceptedButUnsound`; exactly
  when it cannot, `StackTyping.AcceptedCodeIsTypedExactly`.
* `skip_list::pop_front` may hide nodes from upper levels, after which `erase` can leave a link to a freed block:
  `SkipList.EraseAfterPopFrontLeavesALink`. Erasing keeps the links right exactly when every link to the node is one
  the search ends on and the loop gets to (`SkipList.EraseLinksExactly`, the contract of `SkipList.SkipList.Erase`).
* A merge sorter sorted twice without an insertion in between may hold a stale link at its last element, as two records
  in descending order show (`MergeSorter.DescendingPairGoesStale`). Threading the elements makes a list exactly when
  that link is null (`MergeSorter.MergeSorter.FixupListPointers`), which it is after a sort exactly when the last
  inserted record came last (`MergeSorter.MergeSorter.Sort`); when it is not, the next sort never ends
  (`MergeSorter.FirstPassNeverEnds`).
* "-05" and "-5" are equal int keys that hash apart: `Compare.NonCanonicalInts`, exact in
  `Compare.EqualIntsHashAlikeExactly`. A negative zero compares below zero: `Compare.IntCompareIsNumeric`.
* `group_median` sorts in heading order, so with the aggregated column anywhere but last a group may come out twice or
  wrongly: `GroupRuns.NotRightWhenNotLast`. It is right for all inputs exactly when the column is the last
  (`GroupRuns.RightExactlyWhenLast`), and for one input exactly when the first run of each group holds its middle and
  every later run is shorter than that (`GroupRuns.MiddlesWrittenExactly`).
* Writing a record and more fields gives the record of all of them exactly when the first record has a field:
  `RecordFormat.MergeIsConcatenation`.
* A JSON string that ends in an escaped backslash is not found to end there: `Json.StringIsRead`, exact.
* What the JSON parser accepts need not be JSON: an array that is never closed, a comma before the closing bracket, and a
  string that goes on behind an escaped backslash pass (`JsonValues.UnclosedIsAccepted`, `CommaBeforeBracketIsAccepted`,
  `StringGoesOnIsAccepted`). `JsonValues.AcceptedIsValueExactly` says for every accepted text when it is a value: these,
  an empty text and several values in a row are all there is. The normal form of a text that is no value may read as
  other tokens, or not be accepted (`JsonProofs.NumbersSideBySide`); exactly when it does not,
  `JsonAccepted.RetokenisedExactly` and `JsonAccepted.NormalFormAcceptedExactly`.
* Where code and wording differ the code is followed: compiler.hpp:636 says it checks the arguments of `else` but looks
  at those of `then`; sha256.hpp:36-38 takes a `size_t` but hashes only its low 32 bits' worth of bytes;
  ext_heap_buffer_output_stream.hpp:72 aborts on an empty write to a full buffer.

## Model

| member | source | states |
|---|---|---|
| ShuntingYard.Parse | np1/rel/rlang/shunting_yard.hpp:48-169 | the in-place loop over tokens with its operator stack aborts exactly where the specification does and otherwise yields its output |
| ShuntingYard.PopUntilParen | np1/rel/rlang/shunting_yard.hpp:77-119 | what a comma or a closing parenthesis moves to the output, down to the nearest open one |
| ShuntingYardProofs.ShuntExpr | np1/rel/rlang/shunting_yard.hpp:73-184 | the invariant of parsing: over any stack that shields it, an expression's tokens emit its post-order except for operators still waiting above that stack |
| ShuntingYardProofs.ShuntBinary | np1/rel/rlang/shunting_yard.hpp:138-184 | left-associative operators at their levels leave the stack in the shape the next operator needs |
| ShuntingYardProofs.ShuntUnary | np1/rel/rlang/shunting_yard.hpp:138-184 | prefix operators wait for their operand and bind tighter than any binary operator |
| ShuntingYardProofs.ShuntCall | np1/rel/rlang/shunting_yard.hpp:108-136 | a call ends with its true argument count and the offsets around its arguments, also with no argument |
| ShuntingYardProofs.ShuntArgs | np1/rel/rlang/shunting_yard.hpp:77-98 | each comma adds one argument to the innermost open call and no other |
| ShuntingYardProofs.ShuntIf | np1/rel/rlang/shunting_yard.hpp:73-136 | if, then and else come out as three calls in a row, each with its own range |
| ShuntingYardProofs.ParseGivesPostOrder | np1/rel/rlang/shunting_yard.hpp:48-184 | for every well-written expression the output is exactly its post-order, with true argument counts and [start, end) offsets |
| ShuntingYardAborts.TokenShape | np1/rel/rlang/shunting_yard.hpp:55-163 | each token keeps the open parentheses on the operator stack, each over its function, or aborts exactly when it is not allowed where it stands |
| ShuntingYardAborts.AcceptedExactly | np1/rel/rlang/shunting_yard.hpp:48-184 | a list of tokens, in the grammar or not, is accepted if and only if it has no unknown token, no semicolon, only operators of the table, balanced parentheses, and commas only directly inside the parentheses of a call |
| FnTable.FindFrom | np1/rel/rlang/fn/fn_table.hpp:703-710 | the overload found is the first match in table order, and none is found only when none matches |
| FnTable.FindIgnoresLowerStack | np1/rel/rlang/fn/fn_table.hpp:110-116 | overload resolution depends on the arguments only, never on what lies below them on the stack |
| FnTable.OperatorTableIsGood | np1/rel/rlang/fn/op.hpp:56-294 | the real operator levels and associativities are what the parsing theorems ask for, whatever functions follow in the table |
| FnTable.OperatorsFirstIsGood | np1/rel/rlang/fn/fn_table.hpp:370-405 | any table whose operators come first, one level and kind per name, is a good one |
| CompilerState.SimulatedStack.Push | np1/rel/rlang/simulated_stack.hpp:21-26 | adds a type unless the byte size would reach the size of the real stack |
| CompilerState.SimulatedStack.Pop | np1/rel/rlang/simulated_stack.hpp:28-33 | undoes the last push; aborts exactly on an empty stack |
| CompilerState.FunctionCallList.PushBack | np1/rel/rlang/vm_function_call_list.hpp:18-22 | appends a call while there is room for it and one more |
| CompilerState.FunctionCallList.Patch | np1/rel/rlang/vm_function_call_list.hpp:29-32 | changes one call and no other |
| CompilerState.LiteralStore.PushBack | np1/rel/rlang/vm_literals.hpp:20-62 | appends a literal within both limits and returns its offset |
| Compiler.FindFunctionStartingAt | np1/rel/rlang/compiler.hpp:885-901 | the scan for then or else by start offset finds what the specification finds |
| Compiler.CreateCall | np1/rel/rlang/compiler.hpp:702-788 | pops the arguments of the resolved overload and pushes its result, or aborts, as specified |
| Compiler.CreateFunctionCall | np1/rel/rlang/compiler.hpp:702-883 | one token changes stack, calls and literals as specified, aborts included |
| Compiler.EndThen | np1/rel/rlang/compiler.hpp:649-663 | patches the if past the branch and the jump behind it, and pops the branch's type |
| Compiler.DoCompileThen | np1/rel/rlang/compiler.hpp:638-663 | the then branch with its back-patched if |
| Compiler.DoCompileElse | np1/rel/rlang/compiler.hpp:665-675 | the else branch with its back-patched jump and the check that both types agree |
| Compiler.DoCompileConditional | np1/rel/rlang/compiler.hpp:618-676 | both branches, compiled recursively into the same stack, calls and literals |
| Compiler.DoCompile | np1/rel/rlang/compiler.hpp:602-698 | the loop over the postfix updates stack, calls and literals in place exactly as the specification, and aborts exactly where it does |
| Compiler.CompileSingleExpression | np1/rel/rlang/compiler.hpp:574-599 | from infix tokens: succeeds exactly when the specification does, with the same code, literals, type and flag |
| CompilerProofs.FindBranches | np1/rel/rlang/compiler.hpp:629-633 | from an if the two searches stop at its own then and else under any nesting |
| CompilerProofs.CompileCallToken | np1/rel/rlang/compiler.hpp:702-788 | a call over arguments of given types compiles exactly when an overload takes them and the result fits |
| CompilerProofs.ComposeConditional | np1/rel/rlang/compiler.hpp:641-671 | two branches that compile on their own compile as a conditional exactly within the limits, with both jumps patched to the right distance |
| CompilerProofs.CompileIf | np1/rel/rlang/compiler.hpp:618-676 | a nested if/then/else compiles to the generator's code in its place |
| CompilerProofs.CompileArgs | np1/rel/rlang/compiler.hpp:617-690 | arguments compile one after the other to the generator's code and types |
| CompilerProofs.CompileExpr | np1/rel/rlang/compiler.hpp:602-698 | going through the tokens is going through the tree: same code, types, literals and aborts, from any state |
| CompilerProofs.CompileExpressionExact | np1/rel/rlang/compiler.hpp:574-698 | a well-written expression compiles if and only if it is well typed and within the stack, call and literal limits, to exactly the generator's code |
| EvaluationProofs.RunsArgs | np1/rel/rlang/fn/fn_table.hpp:609-637 | code of arguments leaves their values in order, after exactly the calls evaluation makes |
| EvaluationProofs.RunsIf | np1/rel/rlang/fn/fn.hpp:177-191 | the chosen branch runs and nothing of the other |
| EvaluationProofs.RunsExpr | np1/rel/rlang/fn/fn_table.hpp:609-637 | placed anywhere in a program, an expression's code computes the value of the tree with the same calls in the same order, and aborts in the same cases |
| EvaluationProofs.PipelineIsEvaluation | np1/rel/rlang/vm.hpp:30-79 | parse, compile and run from an empty stack end at the sentinel with exactly one value, that of tree evaluation with and/or not short-cut |
| StackTyping.StepIsSafe | np1/rel/rlang/fn/fn_table.hpp:76-332 | in typed code every step from a described state goes forward to a described state; only a missing field can stop it |
| StackTyping.RunIsSafe | np1/rel/rlang/vm.hpp:57-79 | every run of typed code ends at the sentinel with the types the compiler ended with, or at a missing field |
| StackTyping.JumpsTyped | np1/rel/rlang/compiler.hpp:641-671 | the two jumps are typed exactly when both branches restore the stack below their result |
| StackTyping.AcceptedCodeIsTypedExactly | np1/rel/rlang/compiler.hpp:602-698 | for every accepted postfix, in the grammar or not, the simulated stack describes the real one at every instruction if and only if every branch restores what it found |
| StackTyping.ExpressionCodeIsTyped | np1/rel/rlang/simulated_stack.hpp:21-33 | for well-written expressions it always does: no underflow, below 1024 bytes, every jump forward |
| Malformed.AcceptedButUnsound | np1/rel/rlang/compiler.hpp:641-671 | a malformed list that parses and compiles and whose code gets stuck |
| Vm.VmStack.Push | np1/rel/rlang/vm_stack.hpp:77-90 | writes a value's words at the pointer; a text takes two |
| Vm.VmStack.Pop | np1/rel/rlang/vm_stack.hpp:78-91 | reads back exactly the value that was pushed last |
| Vm.PopArgs | np1/rel/rlang/fn/fn_table.hpp:119-330 | the arguments come off last first and are handed over in order |
| Vm.Execute | np1/rel/rlang/fn/fn_table.hpp:609-613 | one wrapper call on the word stack is one step of the machine on values |
| Vm.Vm.constructor | np1/rel/rlang/vm.hpp:30-40 | the code ends with the sentinel, or an abort exactly when there is no room for it |
| Vm.Vm.RunAll | np1/rel/rlang/vm.hpp:57-79 | for typed code the run ends, stays inside the stack and leaves what the machine leaves |
| HeadingTexts.SpelledReference | np1/rel/detail/helper.hpp:385-423 | this.name and a name without a dot are this record's, other.name and prev.name the other record's |
| HeadingTexts.UnknownPrefix | np1/rel/detail/helper.hpp:410-416 | any other text before the first dot aborts |
| HeadingTexts.CarriedName | np1/rel/detail/helper.hpp:424-440 | the name of a heading is what stands behind its first colon, or all of it when that colon is missing or last; a tagged name is only matched by itself |
| HeadingTexts.FoundAt | np1/rel/record_ref.hpp:205-231 | a name is found at the first heading that carries it |
| HeadingTexts.NotFound | np1/rel/record_ref.hpp:205-231 | and nowhere when no heading does |
| HeadingTexts.TypedHeading | np1/rel/rlang/dt.hpp:122-142 | the seven texts that give a heading a type, each exactly when it is followed by a colon and more |
| HeadingTexts.MadeHeading | np1/rel/rlang/dt.hpp:96-108 | a heading made for a type has that text, a colon and the name, and is of that type again |
| Variables.VariableIsRead | np1/rel/rlang/compiler.hpp:791-883 | compiling and running a variable leaves the field of the first column that carries its name, in the record its prefix selects, as the type of that column, and sets the flag exactly for the other record; a record too short for it stops the run |
| Variables.RowNumberIsRead | np1/rel/rlang/compiler.hpp:816-823 | _rownum, with any of the prefixes, leaves the number of that record |
| Variables.VariableCompilesExactly | np1/rel/rlang/compiler.hpp:791-883 | a variable compiles if and only if it is so spelled and is _rownum or names a column whose tag is a type; any other prefix aborts |
| Variables.LiteralIsRead | np1/rel/rlang/compiler.hpp:712-734 | a literal leaves what the host converts its text to, as string, int, uint or double by the kind of its token |
| Variables.BooleanIsRead | np1/rel/rlang/compiler.hpp:736-743 | true and false leave their value |
| Variables.GenRefers | np1/rel/rlang/compiler.hpp:679-690 | the generator's flag is whether some variable of the expression starts with other. or prev. |
| Variables.FlagIsExact | np1/rel/rlang/compiler.hpp:679-690 | the compiler says of a well-written expression that it refers to the other record if and only if some variable in it starts with other. or prev. |
| Operators.TableIsExact | np1/rel/rlang/fn/op.hpp:56-294 | the table has an entry exactly for each operator and the operand types it takes, with its result type, word, level and associativity |
| Operators.ResolvedExactly | np1/rel/rlang/fn/fn_table.hpp:703-710 | an operator's symbol or word with given operand types is resolved if and only if the operator takes them, to that entry, whatever functions follow in the table |
| SelectCongruence.CompileCongruence | np1/rel/rlang/compiler.hpp:602-698 | compiling depends on headings only through the type, kind and place each variable resolves to |
| SelectCongruence.RangeResolved | np1/rel/rlang/compiler.hpp:791-883 | whatever compiles has resolved every variable in it |
| Select.InTypedOutputHeadings | np1/rel/rlang/compiler.hpp:409-422 | true exactly when some typed heading has that name |
| Select.RefersOnlyToKnownOutputHeadings | np1/rel/rlang/compiler.hpp:378-406 | true exactly when every reference to the other record is known; aborts only where it could not be true for any headings |
| Select.ExplicitTags | np1/rel/rlang/compiler.hpp:311-327 | the tags that are given are kept; a tag that names no type aborts |
| Select.Pass | np1/rel/rlang/compiler.hpp:338-368 | one pass keeps the types found, makes progress or changes nothing, and aborts only when there is no typing |
| Select.CompileSelect | np1/rel/rlang/compiler.hpp:309-374 | stops within one pass per column plus one, succeeds if and only if the columns have a typing, and compiles each column under it; an untagged column gets the heading int:name and so on by the type its expression leaves, and a column that is just prev.name has the type of that heading |
| Select.CompleteKeeps | np1/rel/rlang/compiler.hpp:345-363 | typing one more column keeps everything worked out before |
| Select.ForcedStep | np1/rel/rlang/compiler.hpp:345-360 | a column compiled early gets the type it has in any typing of the whole |
| Select.LowestIsReady | np1/rel/rlang/compiler.hpp:345-346 | while a typing exists and a column is open, some open column can be compiled |
| Select.TypingIsUnique | np1/rel/rlang/compiler.hpp:309-374 | there is at most one typing |
| Select.TypingPermutes | np1/rel/rlang/compiler.hpp:338-368 | rearranging the columns rearranges the types and nothing else |
| Select.StuckMeansCycle | np1/rel/rlang/compiler.hpp:371-374 | columns left untyped contain a reference to a missing heading or a cycle through prev |
| Select.CycleMeansNoTyping | np1/rel/rlang/compiler.hpp:371-374 | either of the two makes a typing impossible |
| MergeSort.StableSortIsUnique | np1/rel/detail/merge_sort.hpp:10-23 | there is one stable order of the records, so any two stable sorts agree |
| MergeSort.MergeAscending | np1/rel/detail/merge_sort.hpp:79-105 | merging two runs in stable order, the first earlier than the second, gives one |
| MergeSort.PassDoublesRuns | np1/rel/detail/merge_sort.hpp:62-109 | a pass over runs of some length leaves runs of twice that length |
| MergeSort.PassKeepsElements | np1/rel/detail/merge_sort.hpp:62-109 | a pass loses and adds nothing |
| MergeSort.SortIsStable | np1/rel/detail/merge_sort.hpp:40-120 | for every strict weak order the passes give a stable sort: a permutation, in order, equals in insertion order |
| MergeSorter.MergeSorter.FixupListPointers | np1/rel/detail/merge_sort.hpp:147-172 | links the elements in insertion order and leaves the last one's link alone; the outcome is a list if and only if that link is null |
| MergeSorter.DescendingPairGoesStale | np1/rel/detail/merge_sort.hpp:41-120 | two records in descending order: after the sort the last inserted one points to the other, and threading again makes a cycle |
| MergeSorter.FirstPassNeverEnds | np1/rel/detail/merge_sort.hpp:55-109 | with a stale link at the last element, after any number of turns of the two loops neither has ended |
| MergeSorter.MergeSorter.StepAlong | np1/rel/detail/merge_sort.hpp:64-73 | the start of the second run and the length of the first |
| MergeSorter.MergeSorter.MergeRuns | np1/rel/detail/merge_sort.hpp:79-105 | relinking in place appends exactly the merge of the two runs to the list and leaves the rest of it intact |
| MergeSorter.MergeSorter.DoPass | np1/rel/detail/merge_sort.hpp:56-115 | one pass relinks the whole list into the specified order and says whether there was more than one merge |
| MergeSorter.MergeSorter.Sort | np1/rel/detail/merge_sort.hpp:41-120 | from a null link at the last element it terminates with an acyclic list in the one stable order; ready to be sorted again exactly when the last inserted record is last |
| MergeSorter.MergeSorter.WalkSorted | np1/rel/detail/merge_sort.hpp:126-132 | visits the records in list order |
| FixedHeap.FixedHeap.constructor | np1/fixed_homogenous_heap.hpp:17-34 | the free list holds every block once, in address order |
| FixedHeap.FixedHeap.Alloc | np1/fixed_homogenous_heap.hpp:36-42 | takes the first free block; aborts exactly when none is free |
| FixedHeap.FixedHeap.Free | np1/fixed_homogenous_heap.hpp:44-48 | the block is the next one handed out; only its header is written |
| SkipList.SkipList.LowerBoundAndRecordUpdates | np1/skip_list.hpp:271-286 | the first node not less than the key and, on each level, where the search left it |
| SkipList.SkipList.LowerBound | np1/skip_list.hpp:127-138 | the first node in order that is not less than the key, whatever the upper levels have lost |
| SkipList.SkipList.Find | np1/skip_list.hpp:149-161 | null exactly when no element compares equal |
| SkipList.SkipList.Begin | np1/skip_list.hpp:250-253 | the first element, null exactly when the list is empty |
| SkipList.SkipList.Insert | np1/skip_list.hpp:171-196 | inserts at the one sorted place unless an equal element is there; aborts exactly when every block is taken |
| SkipList.SkipList.Erase | np1/skip_list.hpp:200-218 | in any state: finds and removes the equal element if there is one, the lowest level staying right; the upper links stay right if and only if the element is erased cleanly, so always with complete levels |
| SkipList.SkipList.PopFront | np1/skip_list.hpp:235-245 | drops the first element and keeps every other value readable |
| SkipList.InsertKeepsLinked | np1/skip_list.hpp:187-192 | the weak invariant survives insertion: every link goes to a strictly later live node and level 0 is complete |
| SkipList.PopKeepsLinked | np1/skip_list.hpp:238-241 | it survives pop_front |
| SkipList.InsertKeepsComplete | np1/skip_list.hpp:187-192 | the full invariant, every level complete, survives insertion |
| SkipList.EraseKeepsComplete | np1/skip_list.hpp:209-213 | and erasure |
| SkipList.CompleteIsLinked | np1/skip_list.hpp:62-88 | the full invariant implies the weak one |
| SkipList.SearchStopsAtLast | np1/skip_list.hpp:276-282 | with complete levels the search stops on each level at the last node before the key |
| SkipList.UnlinkedAllLevels | np1/skip_list.hpp:209-213 | the loop of erase unlinks exactly the levels of the node |
| SkipList.SearchFinds | np1/skip_list.hpp:271-286 | the search finds the place of the key whatever the upper levels have lost |
| SkipList.EraseLinksExactly | np1/skip_list.hpp:209-213 | from every weakly linked list: after erase the links are right if and only if each link to the node is one the search ended on, on a level the loop gets to |
| SkipList.PopFrontHidesALevel | np1/skip_list.hpp:238-241 | a concrete complete list that pop_front leaves weakly linked only |
| SkipList.EraseAfterPopFrontLeavesALink | np1/skip_list.hpp:200-245 | searching that list for its last element and erasing it leaves a link to a freed block |
| ExternalSort.OperatorIsTotal | np1/rel/detail/sort_manager.hpp:88-111 | an order by key and then record number is a strict total order on numbered records |
| ExternalSort.RangesInOrder | np1/rel/detail/sort_manager.hpp:98-103 | the renumbered ranges of two chunks are disjoint and in chunk order |
| ExternalSort.RenumberingKeepsOrder | np1/rel/detail/sort_manager.hpp:203-228 | renumbered records of different chunks compare as the records they were |
| ExternalSort.ChunkInOrder | np1/rel/detail/sort_manager.hpp:140-151 | a spilled chunk is read back in order |
| ExternalSort.EveryRecordIsRead | np1/rel/detail/sort_manager.hpp:88-137 | each input record is in exactly some place of some chunk |
| ExternalSort.LeastHeadIsLeast | np1/rel/detail/sort_manager.hpp:250-257 | the least head is before everything still unread in any file |
| ExternalSort.EmitLeastHead | np1/rel/detail/sort_manager.hpp:250-264 | emitting it keeps what was emitted a prefix of the sorted output |
| ExternalSort.MergedAll | np1/rel/detail/sort_manager.hpp:115-137 | when every file is read, what was emitted is the in-memory sort of the whole input |
| FileMerger.RoomForOne | np1/rel/detail/sort_manager.hpp:269-280 | the merge set never meets a duplicate and never needs more blocks than there are files |
| FileMerger.FileMerger.constructor | np1/rel/detail/sort_manager.hpp:200-229 | starts with the head of every file and the chunk's renumbering |
| FileMerger.FileMerger.ReadRecord | np1/io/mandatory_mapped_record_input_file.hpp:28-39 | the next record of a file with the next number, none exactly at its end |
| FileMerger.FileMerger.InsertNext | np1/rel/detail/sort_manager.hpp:269-280 | neither the duplicate abort nor the heap abort can happen |
| FileMerger.FileMerger.PopFirst | np1/rel/detail/sort_manager.hpp:251-257 | takes out the head of one file and emits the input record it stands for |
| FileMerger.FileMerger.ReadNextRecord | np1/rel/detail/sort_manager.hpp:245-267 | each call emits one more input record; it ends exactly when the emitted order is the sorted order of the input |
| SortManager.SortManager.Add | np1/rel/detail/sort_manager.hpp:88-111 | aborts exactly on an empty record, or one as large as a chunk that is not the first; otherwise keeps the input so far in chunks and files |
| SortManager.SortManager.Spill | np1/rel/detail/sort_manager.hpp:93-103 | the chunk is written sorted and the next one starts with its own numbering |
| SortManager.SortManager.SortInChild | np1/rel/detail/sort_manager.hpp:99-100 | the file a child writes is the sorted chunk |
| SortManager.SortManager.Finalize | np1/rel/detail/sort_manager.hpp:115-137 | the output, merged or not, is one in-memory sort of the whole input |
| SortManager.OrderBy | np1/rel/order_by.hpp:78-95 | for every input, chunk size and direction: the output of one in-memory sort, or an abort exactly on the unacceptable inputs |
| Compare.StripLeadingSpacesAndZeroes | np1/rel/detail/helper.hpp:84-92 | the cursor loop leaves the text without its leading spaces and zeroes |
| Compare.CompareUints | np1/rel/detail/helper.hpp:117-146 | the two-cursor loop is comparison by length and then by character |
| Compare.AddTextHash | np1/hash/fnv1a64.hpp:31-38 | every character goes into the hash, in order |
| Compare.AddIStringHash | np1/rel/detail/helper.hpp:74-81 | the hash of the folded text |
| Compare.AddNumberHash | np1/rel/detail/helper.hpp:149-184 | the hash of the stripped text, for uint and int alike |
| Compare.CompareIsLex | np1/rel/detail/helper.hpp:34-177 | each comparison is the lexicographic order of a key of the text, hence a total preorder |
| Compare.ComparisonIsOrder | np1/rel/detail/helper.hpp:34-177 | every comparison is antisymmetric and transitive, equality included |
| Compare.StripKeepsValue | np1/rel/detail/helper.hpp:84-92 | stripping keeps the value of a digit string |
| Compare.UintCompareIsNumeric | np1/rel/detail/helper.hpp:117-146 | for digit strings of any length it is numeric comparison |
| Compare.IntCompareIsNumeric | np1/rel/detail/helper.hpp:155-177 | for signed digit strings it is numeric comparison if and only if not a negative zero against a zero |
| Compare.EqualHashesAlike | np1/rel/detail/helper.hpp:34-184 | string, istring, uint and canonical int keys that compare equal hash alike |
| Compare.EqualIntsHashAlikeExactly | np1/rel/detail/helper.hpp:155-184 | of equal ints, the hashed texts agree if and only if the zeroes and spaces behind their minus signs do |
| Compare.NonCanonicalInts | np1/rel/detail/helper.hpp:155-184 | "-05" and "-5" compare equal and hash apart |
| FieldOrder.IStringByCharacters | np1/rel/detail/helper.hpp:48-66 | istrings are ordered by the first place where they differ in more than case, the codes of capitals counting 32 higher, else by length; a NUL common to both ends the comparison |
| FieldOrder.IStringsEqualExactly | np1/rel/detail/helper.hpp:48-66 | without a NUL, istrings compare equal if and only if they have one length and at each place one character or the two cases of one letter |
| FieldOrder.IStringHashedExactly | np1/rel/detail/helper.hpp:74-81 | the same is hashed of two istrings if and only if they differ in case only |
| FieldOrder.StringByCharacters | np1/rel/detail/helper.hpp:34-46 | strings are ordered by the character codes at their first difference, else by length |
| FieldOrder.StripsExactly | np1/rel/detail/helper.hpp:84-92 | stripping a number leaves exactly what follows its leading spaces and zeroes, and that is what is hashed |
| FieldOrder.UintByCharacters | np1/rel/detail/helper.hpp:117-146 | uint fields of any characters are ordered by stripped length, then by signed characters at the first difference |
| FieldOrder.IntByCharacters | np1/rel/detail/helper.hpp:155-177 | a minus sign comes before none, and two of them turn the order round |
| CompareSpecs.SortOperator | np1/rel/detail/compare_specs.hpp:81-101 | the loop over the specs is the operator in its direction |
| CompareSpecs.KeyCompareIsOrder | np1/rel/detail/compare_specs.hpp:87-97 | comparing column by column is a total preorder |
| CompareSpecs.OperatorsOrderRecords | np1/rel/detail/compare_specs.hpp:81-104 | both operators are strict total orders by key and record number, and greater-than is the converse of less-than |
| CompareSpecs.DescendingIsReverse | np1/rel/detail/compare_specs.hpp:103-104 | descending output is exactly the reverse of ascending, ties included |
| CompareSpecs.AscendingIsStable | np1/rel/detail/compare_specs.hpp:103-104 | ascending output is the stable sort of the input by key |
| ColumnOrder.KeyCompareByColumns | np1/rel/detail/compare_specs.hpp:81-101 | the first column in which two records do not compare equal decides, and without one they are equal |
| ColumnOrder.EqualKeyByColumns | np1/rel/detail/compare_specs.hpp:81-101 | keys are equal exactly when every column compares equal |
| ColumnOrder.SortedRows | np1/rel/order_by.hpp:78-95 | the output of order_by is the records of the input, each once, every two of them in the order of the first column that tells them apart, and ties in input order, or reverse input order when descending |
| Multimap.HeteroRecordCompare | np1/rel/detail/record_multihashmap.hpp:21-52 | the loop over two spec lists compares the two keys |
| Multimap.HashRecord | np1/rel/detail/record_multihashmap.hpp:282-299 | the loop hashes exactly the key columns |
| Multimap.CompareTextsIsOrder | np1/rel/detail/record_multihashmap.hpp:21-52 | equal keys are an equivalence |
| Multimap.EqualTextsHashAlike | np1/rel/detail/record_multihashmap.hpp:21-52 | keys that compare equal hash alike |
| HashTable.LookupIsMatching | np1/rel/detail/record_multihashmap.hpp:161-163 | the list in a key's chain is exactly the entries of the whole table with an equal key, in order |
| HashTable.AddToTable | np1/rel/detail/record_multihashmap.hpp:102-116 | adding an entry adds it to what its key finds and leaves other keys alone |
| HashTable.AddToPairs | np1/rel/detail/record_multihashmap.hpp:102-116 | and adds it once to what a visit of the table sees |
| HashTable.SetFrontInTable | np1/rel/detail/record_multihashmap.hpp:250-265 | replacing a front value changes what that key finds and nothing else |
| RecordMultiHashMap.SearchCapacity | rstd/vector.hpp:55-81 | under any pattern of failures it stops, between the minimum and the hint; success without retry is the hint itself |
| RecordMultiHashMap.RecordMultiHashMap.constructor | np1/rel/detail/record_multihashmap.hpp:84-94 | an empty map, or an abort when the first table cannot be had at once |
| RecordMultiHashMap.RecordMultiHashMap.TryInit | np1/rel/detail/record_multihashmap.hpp:306-322 | an empty table strictly larger than the old one |
| RecordMultiHashMap.RecordMultiHashMap.FindEqualList | np1/rel/detail/record_multihashmap.hpp:250-265 | the list for a key in its chain, or none |
| RecordMultiHashMap.RecordMultiHashMap.Find | np1/rel/detail/record_multihashmap.hpp:161-172 | exactly the inserted pairs whose key compares equal, in insertion order |
| RecordMultiHashMap.RecordMultiHashMap.ForEach | np1/rel/detail/record_multihashmap.hpp:185-217 | visits every inserted pair once, equal keys in insertion order |
| RecordMultiHashMap.RecordMultiHashMap.UpdateFront | np1/rel/group.hpp:448-450 | changes the first value of one key and nothing any other key finds |
| RecordMultiHashMap.RecordMultiHashMap.Insert | np1/rel/detail/record_multihashmap.hpp:100-153 | the pair is appended, whether the table stays, grows or fails to grow; recursion through growth ends because the table grows towards its maximum |
| RecordMultiHashMap.RecordMultiHashMap.Grow | np1/rel/detail/record_multihashmap.hpp:126-151 | rehashing, with retries and failures, changes no content |
| RecordMultiHashMap.RecordMultiHashMap.CopyTo | np1/rel/detail/record_multihashmap.hpp:269-277 | the new table, which may grow while it is filled, gets every pair in visiting order |
| JoinHelper.MakeSpecs | np1/rel/detail/compare_spec.hpp:22-50 | one spec per selected heading, its column and kind; aborts exactly when a type has no supported kind |
| JoinHelper.FindCommonAndNonCommonHeadings | np1/rel/detail/join_helper.hpp:22-64 | the common names in order of the first file, and the columns only the second has |
| JoinHelper.FindNonCommon | np1/rel/detail/join_helper.hpp:51-63 | its last loop finds the columns not common |
| JoinedRows.KindsByText | np1/rel/detail/compare_spec.hpp:26-46 | the kind of a key goes by which of string, istring, int and uint its heading starts with |
| JoinedRows.OthersExactly | np1/rel/detail/join_helper.hpp:51-63 | the columns only the second file has are exactly those whose heading the first lacks, in order |
| JoinedRows.MergedHeadings | np1/rel/detail/join_helper.hpp:71-101 | the output headings are those of the first file, then exactly those of the second that the first lacks, in order, each once |
| JoinedRows.MergedRow | np1/rel/detail/join_helper.hpp:71-101 | a row is the first record, then under each further heading the second record's field of that heading |
| JoinedRows.KeysAreCommonHeadings | np1/rel/detail/join_helper.hpp:34-46 | two records have equal keys if and only if their fields compare equal under every heading both files have |
| JoinHelper.CommonAreInBoth | np1/rel/detail/join_helper.hpp:34-46 | the common headings are those in both files |
| JoinHelper.RecordMergeWrite | np1/rel/detail/join_helper.hpp:71-101 | the first record followed by the other columns of the second |
| Joins.ReadIntoMap | np1/rel/join_natural.hpp:44-47 | the map holds the second file in order; with ample memory it aborts exactly when a record lacks a key column |
| Joins.WriteMatches | np1/rel/detail/join_helper.hpp:104-127 | one merged row for each match, in order |
| Joins.Natural | np1/rel/join_natural.hpp:67-93 | the hash join is the nested-loop join, in order; with ample memory it aborts exactly when a record lacks a key column |
| Joins.Left | np1/rel/join_left.hpp:66-108 | that, with one padded row for a record that has no match |
| Joins.Anti | np1/rel/join_anti.hpp:63-87 | exactly the records without a match |
| Joins.MakeRecordWithEmptyFields | np1/rel/join_left.hpp:120-134 | the empty value of each heading's type; aborts exactly when one has none |
| Joins.JoinNatural | np1/rel/join_natural.hpp:26-69 | from headings and records: the output has the headings of the first file and then those only the second has, and one row for each two records that agree under every common heading, ordered by the first and then the second record, each field under its heading; with ample memory it aborts exactly when a common column is of no supported kind or a record lacks one |
| Joins.JoinLeft | np1/rel/join_left.hpp:26-71 | from headings and records: the same rows, and in its place one row for each record of the first file that agrees with none of the second, the further fields being the empty texts of their types; or an abort exactly in those cases and when a heading of the second file has no type |
| Joins.JoinAnti | np1/rel/join_anti.hpp:26-66 | from headings and records: the records of the first file that agree with none of the second under the common headings, in order; or an abort exactly in those cases |
| Joins.NaturalJoinIs | np1/rel/join_natural.hpp:26-93 | the nested-loop join in terms of places in the two files: which pairs, in which order, with which fields |
| Joins.LeftJoinIs | np1/rel/join_left.hpp:26-108 | the same with the unmatched records and their padding |
| Joins.AntiJoinIs | np1/rel/join_anti.hpp:26-87 | the places of the first file without a match |
| Joins.KeysInTexts | np1/rel/detail/compare_spec.hpp:22-50 | the aborts in texts: every common heading starts with string, istring, int or uint, and every record has a field under it |
| Joins.LeftIsNaturalPlusAnti | np1/rel/join_left.hpp:90-108 | as multisets, the left join is the natural join and one padded row for each record of the anti join |
| Unique.Unique | np1/rel/unique.hpp:13-56 | the output is exactly the records that no earlier record equals in every column, in input order; with ample memory it aborts exactly when a record lacks a column |
| Unique.FirstOccurrencesAreFirst | np1/rel/unique.hpp:45-52 | the output in terms of places of the input: those at which no earlier record is equal in every column |
| Unique.FirstOccurrencesCover | np1/rel/unique.hpp:45-52 | a record is new to the output exactly when it is new to the input so far |
| GroupCount.CountIsNumber | np1/rel/group.hpp:444-456 | a group is counted as the number of places at which a record has its columns |
| GroupCount.CountRecord | np1/rel/group.hpp:444-456 | counting one more record in place keeps every group's count right; with ample memory it aborts exactly when the record lacks a column |
| GroupCount.CountAll | np1/rel/group.hpp:267-276 | after the input the map holds the size of every group; with ample memory it aborts exactly when a record lacks a column |
| GroupMedian.OutputMedians | np1/rel/group.hpp:774-800 | over any sequence of sorted records the callbacks write what the walk specifies |
| GroupMedian.WalkIsMedians | np1/rel/group.hpp:774-800 | over contiguous groups the walk writes the ((n+1)/2)-th record of each group |
| GroupMedian.SortedIsContiguous | np1/rel/group.hpp:269-279 | sorting with the aggregated column last makes groups contiguous |
| GroupMedian.OneMedianPerGroup | np1/rel/group.hpp:774-800 | every group that occurs has exactly one record in the output |
| GroupRuns.MiddleSplitsGroup | np1/rel/group.hpp:774-800 | the middle record of a group has as many of the group behind it as before it, or one more |
| GroupRuns.WalkIsWritten | np1/rel/group.hpp:774-800 | over records in any order the callback writes exactly those whose place in their run is the middle of their group |
| GroupRuns.MiddlesWrittenExactly | np1/rel/group.hpp:774-800 | the records written are the middle records of the groups if and only if the first run of each group holds it and every later run is shorter |
| GroupRuns.ContiguousFits | np1/rel/group.hpp:774-800 | groups that stand together always fit |
| GroupRuns.RightExactlyWhenLast | np1/rel/group.hpp:262-279 | for every heading line: the middle records are written for all inputs if and only if the aggregated column is the last |
| GroupRuns.NotRightWhenNotLast | np1/rel/group.hpp:269-271 | wherever else the column stands, and whatever the kinds of the columns, three records for which they are not |
| GroupRuns.GroupMedian | np1/rel/group.hpp:256-280 | with the aggregated column anywhere: what is written, that it is the middle records when the runs fit, and the medians in sorted order when the column is last; with ample memory it aborts exactly when a record lacks a column or the sort does |
| CompressedInt.Compress | np1/compressed_int.hpp:17-27 | the loop writes the encoding |
| CompressedInt.Decompress | np1/rel/record_ref.hpp:23-36 | the loop over the buffer reads it, reports an incomplete number and aborts on an oversized one |
| CompressedInt.RoundTrip | np1/compressed_int.hpp:17-45 | every 64-bit number reads back with its exact length, whatever follows |
| CompressedInt.EncodedBytes | np1/compressed_int.hpp:17-27 | byte k is the k-th digit to the base 128, the last byte alone has its high bit set, and there are no more bytes than digits |
| CompressedInt.DecodeAbortsExactly | np1/rel/record_ref.hpp:23-36 | reading aborts exactly when ten bytes are there and none of them is a last one, and waits exactly when fewer are |
| CompressedInt.PrefixIsIncomplete | np1/compressed_int.hpp:31-45 | every proper prefix of an encoding is incomplete, never malformed |
| CompressedInt.DecodeExtends | np1/rel/record_ref.hpp:23-36 | more bytes never change a verdict |
| CompressedInt.EncodeSize | np1/compressed_int.hpp:12-27 | ten bytes are enough for every 64-bit number |
| RecordFormat.WriteCompleteRecord | np1/rel/record_ref.hpp:547-562 | sizes first, then the fields |
| RecordFormat.WrittenBytes | np1/rel/record_ref.hpp:547-562 | the bytes of a record: the size of what follows, the number of fields, each field behind its length, eight zero bytes |
| RecordFormat.RequiredSizeIsWritten | np1/rel/record_ref.hpp:429-431 | the precomputed size equals the bytes written |
| RecordFormat.EndOfWritten | np1/rel/record_ref.hpp:277-288 | the end finder gives the exact boundary, whatever follows the record |
| RecordFormat.NoEndOfPrefix | np1/rel/record_ref.hpp:277-288 | and none for any proper prefix |
| RecordFormat.EndExtends | np1/rel/record_ref.hpp:277-288 | an end or an abort stays when more bytes arrive |
| RecordFormat.ReadField | np1/rel/record_ref.hpp:112-140 | the cursor walk reads the field, null or abort as specified |
| RecordFormat.FieldsReadBack | np1/rel/record_ref.hpp:112-140 | every written field reads back, and one past the last is null |
| RecordFormat.MergeIsConcatenation | np1/rel/record_ref.hpp:413-419 | writing a record and fields writes the record of all of them if and only if the first has a field |
| RecordStream.Stream.ReadSome | np1/io/mandatory_record_input_stream.hpp:67-69 | reads of any size, empty exactly at the end |
| RecordStream.ScanBuffer | np1/io/mandatory_record_input_stream.hpp:74-85 | hands out exactly the complete records in the buffer |
| RecordStream.MoveUp | np1/io/mandatory_record_input_stream.hpp:87-98 | the incomplete record moves to the front and there is always room behind it |
| RecordStream.ParseRecords | np1/io/mandatory_record_input_stream.hpp:56-102 | however reads split the stream: same records, same numbers, same abort as decoding it at once; every read is offered room |
| RecordStream.WrittenRecordsParse | np1/io/mandatory_record_input_stream.hpp:56-102 | a stream of written records, also cut short in a further one, decodes to them |
| Sha256.Sha256.constructor | np1/hash/sha256.hpp:16-28 | starts with the standard initial words and an empty message |
| Sha256.Sha256.Update | np1/hash/sha256.hpp:36-38 | appends the input, of which only the length modulo 2^32 counts |
| Sha256.Sha256.DoUpdate | np1/hash/sha256.hpp:76-110 | for any split of the message the state is the hash of its whole blocks and the buffer holds the rest; the length is kept modulo 2^64 with its carry |
| Sha256.Sha256.Final | np1/hash/sha256.hpp:41-73 | the digest is the block function over the padded message, block by block |
| Sha256.Hash | np1/hash/sha256.hpp:30-34 | the same for a message given at once |
| Sha256.InitialWords | np1/hash/sha256.hpp:16-28 | each initial word is the first 32 bits of the fractional part of the square root of one of the first eight primes, as section 5.3.2 of FIPS 180-2 asks |
| Sha256.PaddedBytes | np1/hash/sha256.hpp:53-63 | the padded message is the message, a byte 128, fewer than 64 zero bytes and the length |
| Sha256.PaddingIsStandard | np1/hash/sha256.hpp:53-63 | the padding has the least number of zero bits and ends with the length in bits, as section 5.1.1 of FIPS 180-2 asks |
| Sha256.LengthBytes | np1/hash/sha256.hpp:53-57 | the two words put together give the length in bits modulo 2^64, most significant byte first |
| Sha256.CountCarries | np1/hash/sha256.hpp:86-91 | the carry out of the low word is exactly when the sum is below the addend |
| Sha256.BigEndianRoundTrip | np1/hash/sha256.hpp:120-125 | the length field reads back as the number |
| Sha256.BlocksConcat | np1/hash/sha256.hpp:93-105 | blocks of a concatenation are those of its parts in turn |
| VmHeap.VmHeap.AddChunk | np1/rel/rlang/vm_heap.hpp:59-72 | a fresh chunk large enough, made current |
| VmHeap.VmHeap.Alloc | np1/rel/rlang/vm_heap.hpp:24-40 | the block lies in a live chunk apart from every block since the last reset; a chunk is added only if no later one is large enough |
| VmHeap.VmHeap.Reset | np1/rel/rlang/vm_heap.hpp:47-51 | all blocks are given back, all chunks kept |
| VmHeap.BufferOutputStream.constructor | np1/io/ext_heap_buffer_output_stream.hpp:22-27 | an empty buffer in its own block |
| VmHeap.BufferOutputStream.Grow | np1/io/ext_heap_buffer_output_stream.hpp:45-68 | moving to a larger block keeps the contents and every other block's bytes; the copies never overlap |
| VmHeap.BufferOutputStream.WriteSome | np1/io/ext_heap_buffer_output_stream.hpp:41-77 | the contents are the concatenation of all writes; aborts exactly on an empty write to a full buffer |
| VmHeap.BufferOutputStream.Write | np1/io/detail/stream_helper.hpp:44-58 | through the stream helper no write can abort |
| JsonTokenizer.Tokenizer.OnNumber | np1/json/tokenizer.hpp:106-146 | reads exactly a number followed by a stop character or the end, else aborts |
| JsonTokenizer.Tokenizer.OnString | np1/json/tokenizer.hpp:149-161 | reads to the next quote without a backslash right before it, else aborts |
| JsonTokenizer.Tokenizer.OnSpecial | np1/json/tokenizer.hpp:163-169 | reads exactly the expected name followed by a stop character or the end |
| JsonTokenizer.Tokenizer.Next | np1/json/tokenizer.hpp:34-97 | one turn of the loop: white space skipped, then one token, the end or an abort |
| Json.NumberIsRead | np1/json/tokenizer.hpp:106-146 | every number of the grammar is read to its end before any stop character |
| Json.StringIsRead | np1/json/tokenizer.hpp:149-161 | a grammar string is read to its closing quote if and only if it does not end in a backslash |
| Json.TokensAreRead | np1/json/tokenizer.hpp:34-97 | whatever of the four white space characters of RFC 8259, vertical tabs and form feeds is put between them, separated tokens are read back |
| Json.AcceptedIsLayout | np1/json/tokenizer.hpp:34-104 | every text the tokenizer accepts is its tokens with nothing between them but those six characters |
| Json.TokensAreGood | np1/json/tokenizer.hpp:106-146 | in every value a number or literal name is followed by something that stops it |
| Json.JoinedIsText | np1/json/writer.hpp:32-54 | the tokens of a value side by side are its text without white space |
| JsonParser.Stack.Push | np1/json/parser.hpp:44-47 | aborts exactly at depth 100 |
| JsonParser.RawTokenHandler.On | np1/json/parser.hpp:73-289 | the state stack and the event for each token, aborts included |
| JsonParser.StepKeepsStack | np1/json/parser.hpp:70-289 | the outermost state is never popped, so the two aborts for too many closing brackets are unreachable |
| JsonParser.MemberFilter.On | np1/json/parser.hpp:292-379 | which events pass, and the new depth and state |
| JsonParser.RawTokenize | np1/json/tokenizer.hpp:34-97 | tokenizer, handler, filter and buffer interleaved give what the specification gives; the buffer never has to move |
| JsonParser.ValidateAndNormalise | np1/json/parser.hpp:400-409 | the result is the normal form or an abort, in one new block of the heap |
| JsonParser.GetMember | np1/json/parser.hpp:386-398 | the result is the member's text or an abort, in one new block of the heap |
| JsonProofs.FeedValue | np1/json/parser.hpp:70-289 | over a value's tokens, in any state where a value may stand, a steady filter passes all or nothing and only too deep a nesting stops the run |
| JsonProofs.NormaliseValue | np1/json/parser.hpp:400-409 | in every layout a value is normalised to its text without white space, if and only if it is nested less than 100 deep |
| JsonProofs.NormaliseTwice | np1/json/parser.hpp:400-409 | normalising is idempotent on the layouts of values |
| JsonProofs.NormaliseRemovesGaps | np1/json/parser.hpp:400-409 | for every accepted text, JSON or not, exactly the white space between the tokenizer's tokens is removed |
| JsonProofs.MemberOfObject | np1/json/parser.hpp:386-398 | the texts of all members of that name in order; aborts exactly when a name of the outer object has a backslash or the nesting is too deep |
| JsonProofs.OneMember | np1/json/parser.hpp:386-398 | with distinct names that is the member's text, or the empty text when there is none |
| JsonProofs.MemberOfOther | np1/json/parser.hpp:386-398 | any other value has no members |
| JsonProofs.NumbersSideBySide | np1/json/parser.hpp:73-77 | two numbers side by side are accepted; their normal form is not |
| JsonAccepted.TokenizeGivesLexemes | np1/json/tokenizer.hpp:34-168 | every accepted token is one of the grammar, but for strings, which end at the first quote with no backslash right before it |
| JsonAccepted.RetokenisedExactly | np1/json/tokenizer.hpp:106-168 | the texts of tokens side by side read as the same tokens if and only if every number and literal name is followed by a stop |
| JsonAccepted.NormalFormAcceptedExactly | np1/json/parser.hpp:400-409 | for every accepted text: its normal form is accepted if and only if numbers side by side make up one number and all are stopped then, and in that case it is its own normal form |
| JsonValues.ValueShape | np1/json/parser.hpp:186-251 | the tokens of every value balance first at their end and have no comma before a closing bracket |
| JsonValues.ParseValue | np1/json/parser.hpp:70-289 | accepted tokens that start where a value may and close what they open start with a value of the grammar |
| JsonValues.AcceptedIsValueExactly | np1/json/parser.hpp:70-289 | for every accepted text: it is one JSON value if and only if its brackets balance first at its end, no comma stands before a closing bracket and every string ends where the grammar says |
| JsonValues.UnclosedIsAccepted | np1/json/parser.hpp:400-409 | an array that is never closed is accepted and is no value |
| JsonValues.CommaBeforeBracketIsAccepted | np1/json/parser.hpp:247-251 | [1,] is accepted and is no value |
| JsonValues.StringGoesOnIsAccepted | np1/json/tokenizer.hpp:149-161 | a string with an escaped backslash before a quote that is not its end is accepted and is no value |

## Left out

- The lexer and `token_writer`: expressions start from tokens.
- Reading a `select` token list into expressions (compiler.hpp:296-302): the model starts from parsed columns with their heading names.
- Line numbers, file names and error texts of aborts.
- The 32-bit layout, where a text takes one stack word: `str::ref` has 16 bytes here.
- What rlang functions compute (`fn.hpp`, `op.hpp`, machine arithmetic, regex, time, random numbers, UUIDs): a `Host` gives each call a result of its declared type, possibly depending on all calls before it.
- Conversion of literals and fields from text, and doubles: also the host's.
- Expressions that call the `____internal` entries of the function table by name: the theorems ask for ordinary names.
- `vm_heap` use by functions while an expression runs: the heap is modelled on its own.
- Column names in `select` are taken to be distinct and to hold no further type tag (`PlainNames`).
- The `select` copy fast path, which copies field texts and so is not equal to the machine on unnormalised numbers.
- Block addresses of the fixed heap and node addresses of the skip list: blocks are named by number.
- The floating-point draw in `random_level`: any level from 0 to 6 is allowed at every insertion.
- `skip_list::clear` and iterators other than `begin`; `consistent_hash_table`, a thin layer on the list.
- Files, `fork`, temporary files and mappings: a spilled chunk is a sequence, a child sorts a copy of the sorter.
- The process pool and its throughput controller.
- `quick_sort`, which nothing instantiates.
- JoinHelper.MakeSpecs: has no kind for double, bool and ipaddress key columns and aborts on them, where the source makes specs for some and joins refuse doubles later.
- Characters are unsigned bytes and the locale is C; `strncasecmp` stops at a NUL, so istring keys are taken to have none where equal keys must hash alike.
- `int_compare` reads one character past an empty stripped field; it is taken not to be a minus sign.
- Wrap-around of sizes and addresses near 2^64, also in the doubling of the hash table.
- `try_init` computes `min_capacity` and does not use it; neither does the model.
- JoinHelper.RecordMergeWrite: the branch for an empty reference (join_helper.hpp:79-82) is left out, records here always have a start; and a first record without fields is merged, where the source aborts (`RecordFormat.MergeIsConcatenation` says so of the bytes).
- Callbacks that ask parsing or iteration to stop: none of the modelled operators has one.
- `parse_headings`, the headings line of a stream; TSV, CSV and other formats.
- Aggregators other than count and median.
- `record_ref::checksum`, `contains_record`, debugging output.
- The SHA-256 rounds: the block function is a parameter. The OR that joins disjoint bits of the two length words is written as addition.
- `release` and `set_last_char` of the growable buffer, and a reset of the heap while a buffer on it is in use.
- In the JSON pipeline the tokenizer hands each token to the handler by returning it; in the source it calls the handler.
- JSON numbers may have leading zeros, as in the code.
- The set of characters that may follow a backslash in a JSON string: any may here, as in the code.
- Multimap.HeteroRecordCompare: asks that both records have their key columns, where the source aborts; the operators check that first and abort.
- Multimap.HashRecord: the same.
- RecordMultiHashMap.RecordMultiHashMap.FindEqualList: the same.
- RecordMultiHashMap.RecordMultiHashMap.Find: the same, and int keys have no zeroes or spaces behind a minus sign; other equal int keys hash apart (`Compare.EqualIntsHashAlikeExactly`), so the map would not find them.
- RecordMultiHashMap.RecordMultiHashMap.UpdateFront: as for Find.
- RecordMultiHashMap.RecordMultiHashMap.Insert: as for Find.
- GroupMedian.OutputMedians: asks for the key columns, which counting has checked by then.
- MergeSorter.MergeSorter.Sort: asks for the null link at the last element; without it the source does not return.
- RecordFormat.ReadField: aborts when the last field's length goes beyond the record, where the source returns a reference past it.
- StackTyping.AcceptedCodeIsTypedExactly: leaves out lists that call an `____internal` entry by name, and states the condition by a flag the specification of the compiler keeps: whether each branch left the stack below its result as it found it.
- Joins.JoinNatural: which allocations fail is left open unless memory is ample, so without it an abort may happen anywhere; the same holds for the other operators on the hash map.
