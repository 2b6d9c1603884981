# Verified model of the recovery tools

The Python tools of this repository read a PowerPC image and turn it back into
source, layouts and splits. Most of them either refuse or must be exact. This
project models the algorithms that claim rests on and proves, for all inputs,
what each of them gives.

| file | models |
|---|---|
| `LinkSearch.dfy`, `LinkGreedy.dfy` | the bisecting search against a link oracle, and when it is greedy or largest (`tools/linkable.py`) |
| `ControlFlow.dfy`, `FlowRuns.dfy` | recovery of guards and loops from flat words, and how tree and words run (`tools/gen_assetfix.py`) |
| `FieldLayout.dfy`, `FieldOrder.dfy` | a class layout from the offsets the code touches, and when its order of reading shows (`tools/gen_assetfix.py`) |
| `PathConstants.dfy` | constants carried along each path into a block (`tools/gen_wmltypes.py`) |
| `SearchTree.dfy`, `CaseTable.dfy`, `TableSearch.dfy` | a case table out of a search tree of comparisons, and when it is the search (`tools/gen_wmltypes.py`) |
| `BranchRows.dfy`, `RowReading.dfy` | the branches behind a compare, the node read out of them, and when that is right (`tools/gen_wmltypes.py`) |
| `SearchRuns.dfy` | the words of the search run next to that table (`tools/gen_wmltypes.py`) |
| `ShapeCodec.dfy` | the instruction-shape decoder and its re-encoder (`tools/gen_accessors.py`, `tools/gen_typeids.py`) |
| `ShapeMeaning.dfy` | what a shape does on a small PowerPC against the C++ written for it (`tools/gen_accessors.py`) |
| `Mangler.dfy` | the mangled-type grammar, printer and parser (`tools/gen_accessors.py`) |
| `DataCarve.dfy` | the types that put every variable at its address (`tools/dwarf_data_carve.py`) |
| `TypeEmit.dfy` | emission of types after what they hold by value (`tools/dwarf_types.py`) |
| `PoolPrefix.dfy` | the string-pool header (`tools/gen_poolprefix.py`) |
| `LineWrap.dfy` | the line writer (`tools/ninja_syntax.py`) |
| `HeaderRuns.dfy` | headers absorbed and functions gathered into runs (`tools/dwarf_splits.py`) |
| `SplitPlan.dfy`, `SplitPieces.dfy` | units cut into files and remainders (`tools/dwarf_splits.py`) |
| `SplitNames.dfy`, `SplitStretches.dfy`, `LinkOrder.dfy`, `SplitOrder.dfy` | the pieces named, the text each name owns, and the order they link in (`tools/dwarf_splits.py`) |
| `Coverage.dfy` | the size of a union of intervals (`tools/dwarf_data_decl.py`) |
| `Words.dfy`, `Decimal.dfy`, `Wrappers.dfy` | fields of 32-bit words, decimal numbers, `Option` |
| `Sorting.dfy`, `Counting.dfy`, `TextOrder.dfy`, `Worklist.dfy` | `sorted`, counts over sequences, the order of strings, what a worklist explores |

Loops and objects of the source are methods and classes here, each proved
against a specification function or predicate; functions of the source are
functions. Words are numbers below 2^32, registers numbers below 32, and
wrap-around, sign extension and truncation are written out. A link trial, the
effect of an instruction on the machine, the symbolic reading of an instruction,
the alignment of a C++ type and the repository path of a source file are
parameters, so the theorems hold for every choice of them.

## Where the code does not do what it says

Each of these is stated as the exact condition under which the promise holds,
or by a concrete input on which it fails, or both.

* `linkable.py` speaks of the largest subset that links. The result is maximal but
  need not be largest (`MaximalIsNotLargest`): where every subset of a linking set
  links, it is always largest exactly when sets exchange (`LargestExactly`). It is
  what trying one candidate at a time gives, for all inputs, exactly when every
  initial stretch of a linking list links (`SearchIsGreedyExactly`). A negative
  `--chunk` silently loses every candidate; a zero one is an error.
* `Reader.block` accepts a branch out of the function as the last word of a
  nested body. The tree then runs like the code exactly when every such branch
  lands at the end of the tree (`TreeIsCode`, `TreeIsCodeOnlyIfTailsLand`).
* `Fields.put` is free of order exactly when every offset goes by one name, or some
  offset refuses in every order (`OrderFreeExactly`).
* `case_set` records an equality test also where its value can no longer arrive
  (`StrayTestIsRecorded`), and does not look at the side of a node that has no edge
  (`MissingSideIsLost`). The table is the search exactly when the tests are honest
  and the missing sides lead to the default (`TableIsSearch`, `WellPlacedExactly`).
* `extract` reads the branches behind a compare right exactly when the row of them is
  ordinary (`OrdinaryExactly`; with targets that differ, `ReadRightExactly` and
  `PlainExactly`): one branch for each side at most; no `bne` that can be taken; no `b`
  behind a branch for the smaller values alone; `bge` and `ble` only behind the `beq` if
  there is one; and if there is none, no `bgt`, and a `ble` only behind a `bge`. The target
  of a `b` behind a `blt` is lost (`AlwaysIsLost`), and a lone `bgt` is read as `bge`, which
  reaches the table without a refusal (`GreaterIsMisread`). A value compared by `cmplwi` is
  then searched for as a signed one, which is right exactly when it is not negative or the
  node sends smaller and greater values the same way (`OutcomeExactly`).
* A global read, a global store and a virtual-table store mean something else when
  the address register is register 0 with a high half that is not zero, is the stored
  register or the object's own, or is one a function must preserve. Nothing checks that;
  `MeansExactly` is the condition. (Of an equality test the register is checked.)
* `parse_params` reads the mangled single type `void` as no parameters.
* The `ori` form of a constant return decodes but never re-encodes.
* A byte written as `\xHH` swallows a hexadecimal digit that follows it, so the
  pool header is right exactly when no such byte is followed by one.
* The count of dollar signs before a space stops short of the first character
  of the line. An escaped space behind an odd run that starts a piece is broken
  there; it costs a word exactly when another separator follows at once and a word after it.
* The names of recovered files are not entered in `taken` and not checked against the
  units there are, so a unit can come to own two stretches of text. It never does
  exactly when the paths of the recovered files differ, are no unit that keeps text,
  no parent that keeps a remainder and no number given to one (`OneStretchExactly`).
* A run without extent on the border of two parents is attributed in both
  (`TakenOnceExactly`).

## Model

| member | source | states |
|---|---|---|
| LinkSearch.Search | tools/linkable.py:168-205 | for any deterministic oracle: refuses exactly on a dirty baseline, fails exactly on chunk 0; what it keeps links; every candidate ends in exactly one of good and bad in the original order if and only if the chunk is positive or there is nothing to try; between 1+ceil(n/chunk) and 1+2n-ceil(n/chunk) trials, the upper bound reached when nothing links; when subsets of linking sets link no rejected candidate can be added |
| LinkSearch.Drain | tools/linkable.py:180-195 | the worklist: decided candidates followed by the flattened queue are always the original list, and the queue's cost bounds the trials left, for every oracle |
| LinkSearch.StillRejected | tools/linkable.py:189-191 | what was rejected on top of fewer units is rejected on top of more |
| LinkSearch.ChunkCount | tools/linkable.py:179 | the initial blocks number ceil(n/chunk) and can cost 2n-ceil(n/chunk) trials |
| LinkSearch.NothingSplitsIntoNothing | tools/linkable.py:179 | an empty result accounts for the candidates only if there were none: a negative chunk loses them |
| LinkGreedy.GreedyTakesBlock | tools/linkable.py:187-188 | where initial stretches of what links link, a block that links as a whole is taken whole by trying one candidate at a time |
| LinkGreedy.KeptIsGreedy | tools/linkable.py:180-195 | then, from any set kept and any queue of blocks, the bisecting loop keeps what trying one candidate at a time keeps |
| LinkGreedy.SearchIsGreedyExactly | tools/linkable.py:168-205 | the search keeps what one-at-a-time greedy keeps, for every list of candidates and every chunk, if and only if linking is closed under initial stretches |
| LinkGreedy.LargestExactly | tools/linkable.py:1-12 | for an oracle under which subsets of linking sets link: the search keeps a largest linking set, for every list and chunk, if and only if the smaller of two linking sets can always take a unit of the larger |
| LinkGreedy.MaximalIsNotLargest | tools/linkable.py:1-12 | an oracle closed under subsets on which one unit is kept although two others link |
| ControlFlow.BranchResolves | tools/gen_assetfix.py:124-140 | a branch resolves to an index exactly when it is relative and lands inside the function or at its end, its distance being the two's-complement reading of its field |
| ControlFlow.Reader.Block | tools/gen_assetfix.py:380-410 | terminates on every range and nesting; an accepted range is covered by the tree, each operation beginning where the one before it ends |
| ControlFlow.Reader.ReadJump | tools/gen_assetfix.py:385-400 | an unconditional branch is accepted only out of the body as its last word, or forward to a compare that some latch closes |
| ControlFlow.Reader.LatchOf | tools/gen_assetfix.py:412-416 | the first conditional branch back to the body within four words of the compare, None exactly when there is none |
| ControlFlow.Reader.ReadGuard | tools/gen_assetfix.py:418-428 | a guard stands for exactly its branch and the block it skips |
| ControlFlow.Reader.ReadLoop | tools/gen_assetfix.py:430-498 | a loop stands for exactly the jump, the body, a compare without branches and a less-than or not-equal latch back to the body |
| FlowRuns.EveryWordOnce | tools/gen_assetfix.py:380-498 | the words of an accepted tree, listed in order, are lo, lo+1, ..., hi-1: none lost, none read twice |
| FlowRuns.OpsRunFlat | tools/gen_assetfix.py:380-498 | for every machine, state and allowance, running the tree and running the flat words with a program counter execute the same words in the same order and end alike, reading each tail branch as a call |
| FlowRuns.TreeIsCode | tools/gen_assetfix.py:380-498 | with every tail branch landing at the end, tree and words agree without that reading |
| FlowRuns.LastWordLands | tools/gen_assetfix.py:386-392 | a tail branch that is the function's last word lands |
| FlowRuns.TreeIsCodeOnlyIfTailsLand | tools/gen_assetfix.py:386-392 | the converse: if tree and words agree on the machine that enters every guard and loop once, every tail branch lands |
| FlowRuns.Diverges | tools/gen_assetfix.py:386-392 | a run through a tail branch that does not land differs from the code's at some allowance |
| FlowRuns.AllRuns | tools/gen_assetfix.py:380-498 | on that machine an accepted range runs to its end and executes each of its words |
| FieldLayout.Fields.Put | tools/gen_assetfix.py:615-626 | a new offset is recorded, the same member is accepted, int and unsigned int of one size merge to unsigned int, everything else refuses and leaves the map alone |
| FieldLayout.RecordAllIs | tools/gen_assetfix.py:609-626 | with one name per offset, a sequence of puts is accepted if and only if any two at one offset are equal or int against unsigned int; the map then says exactly what the puts say |
| FieldLayout.OrderDoesNotMatter | tools/gen_assetfix.py:609-626 | with one name per offset, two sequences of the same puts give the same map or both refuse |
| FieldLayout.OrderMatters | tools/gen_assetfix.py:615-626 | with two names at one offset, the same three puts are accepted in one order and refused in another |
| FieldOrder.DoomedRefuses | tools/gen_assetfix.py:615-626 | two sizes, two different members that are not both int or unsigned int, two different members of the only type, or two names only unsigned: refused in every order |
| FieldOrder.SomeOrderAccepted | tools/gen_assetfix.py:615-626 | and with none of these at any offset, some order of the puts is accepted |
| FieldOrder.OrderFreeExactly | tools/gen_assetfix.py:609-626 | all orders of the same puts record the same, or all refuse, if and only if every offset goes by one name or some offset refuses in every order |
| FieldLayout.Fields.Render | tools/gen_assetfix.py:628-642 | refuses if and only if some offset is negative or two members overlap; else writes members by offset with padding of exactly the gap before each |
| FieldLayout.FitsExactly | tools/gen_assetfix.py:631-641 | comparing each member with its predecessor alone finds every overlapping pair |
| FieldLayout.SlotsAre | tools/gen_assetfix.py:632 | the members in offset order are those of the map, each once |
| FieldLayout.LayoutFaithful | tools/gen_assetfix.py:628-642 | under natural alignment, a compiler places every member at its recorded offset if and only if every offset is aligned for its type |
| CaseTable.Visitor.VisitNode | tools/gen_wmltypes.py:268-289 | ends on any graph, a cyclic one included; the fields afterwards are those of the specification |
| CaseTable.Visitor.TakeEdge | tools/gen_wmltypes.py:277-289 | an edge to a node is visited, to the epilogue ignored, else recorded for one value or kept as an unreadable range |
| CaseTable.CaseSet | tools/gen_wmltypes.py:264-299 | None exactly when some range is unreadable, else the recorded cases |
| CaseTable.TableIs | tools/gen_wmltypes.py:264-299 | on any graph without cycles, one-edge and shared nodes included: a table is returned if and only if every edge off the nodes leads to the default or carries one value, and it then holds exactly the values the visits write, each with a body written for it |
| CaseTable.VisitedWrites | tools/gen_wmltypes.py:268-289 | one visit, at any point of the walk: every visit that is over has written all it should and refused what it had to, and nothing else is in the table |
| TableSearch.WritesHonest | tools/gen_wmltypes.py:274-289 | what a visit writes for a value is where the search of that value ends, if each test is met by its own value or ends alike |
| TableSearch.UnwrittenDefault | tools/gen_wmltypes.py:264-289 | a value written nowhere ends in the default, if those on missing sides do |
| TableSearch.TableIsSearch | tools/gen_wmltypes.py:264-299 | of a returned table: looking up equals searching for every signed 32-bit value, and no value was written for two ends, if and only if every test is met by its value or ends alike and values on missing sides end in the default or are written elsewhere |
| TableSearch.WellPlacedExactly | tools/gen_wmltypes.py:264-299 | with every test where its value arrives: looking up equals searching for every value if and only if at every node the values on a missing side are none or end in the default |
| TableSearch.BothEdgesSuffice | tools/gen_wmltypes.py:264-299 | and when every node has both edges, always |
| TableSearch.StrayTestIsRecorded | tools/gen_wmltypes.py:274-275 | a tree with a test its value never comes to, on which table and search disagree |
| TableSearch.MissingSideIsLost | tools/gen_wmltypes.py:277-289 | a tree with a one-edge node on which the table calls default what the search sends to a body |
| TableSearch.LaterTestHides | tools/gen_wmltypes.py:274-289 | a tree with a dishonest test whose table is right all the same, because a later test is written over it |
| SearchTree.PassesEndsAlike | tools/gen_wmltypes.py:159-261 | a search ends as it would from any node it passes |
| BranchRows.OrdinaryExactly | tools/gen_wmltypes.py:184-256 | of any row of branches: words and node follow the same branch after each of the three outcomes if and only if the row is ordinary, a condition on the kinds of its branches |
| BranchRows.ReadRightExactly | tools/gen_wmltypes.py:184-256 | with targets: an ordinary row leads words and node to the same address after every outcome, and if the targets differ from each other and from the address behind the row, no other row does |
| BranchRows.UsualRows | tools/gen_wmltypes.py:245-247 | of the rows with a `beq` or none, one other conditional branch or none, and a `b` or none: exactly which are ordinary |
| BranchRows.BothSides | tools/gen_wmltypes.py:190-200 | a `beq` and a branch for each side, with or without a `b`, is ordinary |
| RowReading.NodeReadsRow | tools/gen_wmltypes.py:184-256 | the node recorded for a block leads, after each outcome, to the branch of the row that the reading names: first `beq`, last branch for a side, `b` or fall-through |
| SearchRuns.PlainExactly | tools/gen_wmltypes.py:159-256 | of a block whose compare stands before branches with different targets: its node leads where the words lead after every outcome if and only if the row is ordinary |
| SearchRuns.BlockRuns | tools/gen_wmltypes.py:159-261 | running any such block, ordinary or not, ends where its branches lead on the outcome of its compare with the recorded number, signed or unsigned, and leaves register 4 alone |
| SearchRuns.OutcomeExactly | tools/gen_wmltypes.py:233-237 | a node followed on the outcome of the compare is the node followed on signed numbers if and only if the compare is no `cmplwi`, the value is not negative, or the node sends smaller and greater values the same way |
| SearchRuns.BlockIsNode | tools/gen_wmltypes.py:159-261 | running a block with an ordinary row ends where its node sends the signed value of register 4 if and only if one of those three holds |
| SearchRuns.NotNegativeIsSigned | tools/gen_wmltypes.py:233-237 | one of them holds all along a search for a value that is not negative, and along any search without `cmplwi` |
| SearchRuns.RunFollows | tools/gen_wmltypes.py:159-299 | a run of the words from block to block ends where following the recovered nodes ends, if one of them holds at every compare on the way |
| SearchRuns.TableIsRun | tools/gen_wmltypes.py:159-299 | extraction and table together: under the same condition a run of the search ends where looking up the signed value of register 4 says |
| SearchRuns.ExtractedTableIsRun | tools/gen_wmltypes.py:159-299 | for what `extract` returns, one set of constants to an address and ordinary rows: with every test where its value arrives and missing sides going to the default, the words go where the table says, for every value whose unsigned compares come out signed |
| SearchRuns.AlwaysIsLost | tools/gen_wmltypes.py:196-205 | three words whose node sends every value where they send only the smaller ones |
| SearchRuns.GreaterIsMisread | tools/gen_wmltypes.py:190-256 | five words with a lone `bgt`: both edges everywhere, no test astray, and a table with a body for a value the words send to the default |
| PathConstants.AfterSound | tools/gen_wmltypes.py:206-241 | constants known before a word that is no branch give constants that hold after it, for any effect that keeps to the reported register |
| PathConstants.ScanBlock | tools/gen_wmltypes.py:180-255 | the block loop computes the summary the theorems speak of, fall-through edge included |
| PathConstants.ScanSound | tools/gen_wmltypes.py:180-255 | running a block leaves in the registers what the scan says it leaves |
| PathConstants.CompareSound | tools/gen_wmltypes.py:225-237 | the value recorded for a block is the value its compare reads |
| PathConstants.Extract | tools/gen_wmltypes.py:159-261 | terminates; the states explored are exactly those reached by chains of pushed edges; nodes and unresolved compares are exactly those of the explored states |
| PathConstants.ArrivalSound | tools/gen_wmltypes.py:175-260 | on any execution along the path that pushed a state, the registers hold that state's constants on arrival |
| PathConstants.RecordedIsCompared | tools/gen_wmltypes.py:159-261 | so a comparison value recorded from a hoisted load is the value actually compared |
| ShapeCodec.DecodeExact | tools/gen_accessors.py:371-713 | whatever body decodes, re-encoding the shape gives the very bytes back, over every shape, register and displacement |
| ShapeCodec.WordsExact | tools/gen_accessors.py:371-713 | the same on words |
| ShapeCodec.DecodeInjective | tools/gen_accessors.py:371-605 | two bodies with one shape are one body |
| ShapeCodec.PackUnpack | tools/gen_accessors.py:371-380 | unpacking bytes to big-endian words and packing them is the identity |
| ShapeCodec.HalvesBijection | tools/gen_typeids.py:153-165 | joining a high half and a sign-extended low half is a bijection with 32-bit values, inverted by the carry split |
| ShapeCodec.ReturnExact | tools/gen_typeids.py:122-165 | a decoded constant return re-encodes to itself if and only if its low half was not put in with `ori` |
| ShapeMeaning.ConstSetDoes | tools/gen_accessors.py:371-605 | stores of one constant truncate it at each width, in order, as the assignments written do |
| ShapeMeaning.EqConstDoes | tools/gen_accessors.py:572-582 | load, subtract, count zeros and shift return 1 if and only if the field equals the constant, under 32-bit wrap-around |
| ShapeMeaning.AddMemDoes | tools/gen_accessors.py:371-605 | load, add, store adds the argument to the member modulo 2^32 |
| ShapeMeaning.GlobalDoes | tools/gen_accessors.py:2078-2209 | reads, stores and addresses of globals through a usable register do what the C++ does |
| ShapeMeaning.ShapeMeans | tools/gen_accessors.py:2078-2209 | from every state, the words of an integer shape without a call do to memory and result what its C++ body says, and change no other register than those the calling convention gives a function (0 and 3 to 12) |
| ShapeMeaning.MeansExactly | tools/gen_accessors.py:2078-2209 | for every body that decodes to such a shape: it means its C++ from every state if and only if its address register is usable: one a function may change, and not 0, the stored one or the object where that matters |
| ShapeMeaning.GGetAstray | tools/gen_accessors.py:2078-2209 | for any global read through an unusable register, a state from which it is not the C++ read |
| ShapeMeaning.GSetAstray | tools/gen_accessors.py:2078-2209 | for any store with an unusable register, a state from which it is not the assignment |
| ShapeMeaning.VTableAstray | tools/gen_accessors.py:2078-2209 | the same for a virtual-table store |
| ShapeMeaning.EqConstAstray | tools/gen_accessors.py:572-582 | for an equality test through a wrong register, a state from which it is not the test |
| Mangler.ReadParts | tools/gen_accessors.py:200-214 | the loop over the parts of a qualified name reads what the recursive grammar reads |
| Mangler.ParseParams | tools/gen_accessors.py:290-308 | the loop gives the specified list: types to the end of the string, that mangle back to it, with usable names |
| Mangler.PartsRoundTrip | tools/gen_accessors.py:200-214 | identifier parts behind their lengths read back, whatever follows them |
| Mangler.TypeRoundTrip | tools/gen_accessors.py:181-234 | parsing a mangled type followed by anything gives that type and what follows, for every tree over basics, pointers, references, const and names of up to nine parts |
| Mangler.ListRoundTrip | tools/gen_accessors.py:294-300 | types run together come apart again |
| Mangler.ParamsRoundTrip | tools/gen_accessors.py:290-308 | a list comes back from its mangled form if and only if it is not the single type void |
| Mangler.MangleInjective | tools/gen_accessors.py:226-234 | no two lists mangle alike |
| DataCarve.Spell | tools/dwarf_data_carve.py:77-86 | a declaration of that size and alignment, None exactly when no scalar or array has them |
| DataCarve.ChooseBest | tools/dwarf_data_carve.py:263-276 | the first alignment that works is the largest that can, and none works only if no type at all would |
| DataCarve.PlanSection | tools/dwarf_data_carve.py:205-287 | plans if and only if the section starts on eight, its symbols can be named by one file and some choice of types reproduces every address and size; its own choice then reproduces them, with the largest alignment any reproducing choice has at each variable; the rounded range holds the section and stops at the next variable |
| DataCarve.FitsReproduces | tools/dwarf_data_carve.py:205-287 | placing declarations one after the other reproduces the section exactly when each fits from where the one before it ends |
| DataCarve.NoBetter | tools/dwarf_data_carve.py:263-283 | no choice that reproduces the whole section has a larger alignment at a variable, and a failure there leaves no such choice |
| DataCarve.Cut | tools/dwarf_data_carve.py:343-355 | taking a range out of its owner leaves non-empty pieces, and each address of the owner in exactly one of them or the range |
| TypeEmit.Emitter.Emit | tools/dwarf_types.py:359-382 | ends on a cyclic graph, and leaves the seen set and the order of the specification |
| TypeEmit.Emitter.EmitAll | tools/dwarf_types.py:378-381 | the same over a list of names |
| TypeEmit.EmitsReachable | tools/dwarf_types.py:359-382 | on any graph each type at most once, and exactly the composites and enums reachable by value from the request |
| TypeEmit.EmitTopological | tools/dwarf_types.py:359-382 | one emission keeps everything after what it holds by value, given a rank that falls along containment |
| TypeEmit.AcyclicIsTopological | tools/dwarf_types.py:751-753 | with acyclic containment the whole order is topological |
| TypeEmit.TopologicalExactly | tools/dwarf_types.py:456-486 | the order is topological if and only if containment among the reachable types is acyclic |
| PoolPrefix.PoolStrings | tools/gen_poolprefix.py:92-101 | the scanning loop yields the specified strings with their offsets |
| PoolPrefix.StringsAreThePool | tools/gen_poolprefix.py:92-101 | those strings, each with its NUL, are the pool's bytes from the start, with no NUL left behind them |
| PoolPrefix.PrefixIsPrefix | tools/gen_poolprefix.py:343-344 | the strings in front of the unit's own are an initial stretch, and so are their bytes |
| PoolPrefix.GroupLiterals | tools/gen_poolprefix.py:366-381 | the groups carry the strings in order, no two begin alike, only a repeat is appended to a group, and each is recorded at its pool offset |
| PoolPrefix.SpelledExactly | tools/gen_poolprefix.py:192-206 | a string compiles back to itself if and only if no byte written in hexadecimal is followed by a hexadecimal digit |
| PoolPrefix.HeaderIsPool | tools/gen_poolprefix.py:366-444 | compiled with identical literals folded, the header lays down the strings' bytes if and only if every string can be so spelled |
| PoolPrefix.StringsWhereTheyWere | tools/gen_poolprefix.py:366-444 | then every original string stands, with its NUL, at its original offset |
| LineWrap.CountDollarsBeforeIndex | tools/ninja_syntax.py:161-168 | counts the run of dollar signs before an index, never the one at index 0 |
| LineWrap.BreakOpen | tools/ninja_syntax.py:161-168 | a space taken for unescaped is escaped exactly when nothing but an odd run of dollar signs stands before it |
| LineWrap.FindCut | tools/ninja_syntax.py:176-197 | the rightmost breakable space within the room, else the first one beyond it, else none; both searches end |
| LineWrap.Writer.Line | tools/ninja_syntax.py:170-205 | ends for every width and indent and appends exactly the specified pieces |
| LineWrap.WordsKeptExactly | tools/ninja_syntax.py:170-205 | reading the pieces back gives the words of the line if and only if no break runs two of them together |
| LineWrap.WordsKept | tools/ninja_syntax.py:170-205 | no width or indent changes the words of a line in which no odd run of dollar signs starts a word and is followed by two spaces |
| LineWrap.AwkwardStartBreaks | tools/ninja_syntax.py:161-197 | and a line that begins so, with a word to follow, loses one at some width, for every indent |
| LineWrap.AwkwardBehindEven | tools/ninja_syntax.py:161-197 | behind a separator such a word need not do harm: a line with one that keeps its words at every width and indent |
| HeaderRuns.AbsorbHeaders | tools/dwarf_splits.py:127-167 | the nested loops give each header's function the file on both its sides if that is one file, and count the headers and the moves |
| HeaderRuns.AbsorbConserves | tools/dwarf_splits.py:127-167 | addresses and their order stay; only headers' functions change, each to its nearest source file on both sides |
| HeaderRuns.BlockMovesWhole | tools/dwarf_splits.py:151-165 | a maximal block of headers moves whole or not at all: exactly when one source file is on both its sides |
| HeaderRuns.AbsorbTwice | tools/dwarf_splits.py:127-167 | a second application sorts nothing, changes nothing and moves nothing |
| HeaderRuns.RunsOf | tools/dwarf_splits.py:112-122 | the functions fall apart into the runs in order: one file each, gaps of at most 64, the largest end, and no two neighbours could be one |
| HeaderRuns.RunsConserve | tools/dwarf_splits.py:112-122 | the counts of the runs add up to the number of functions, and each run starts at a function of its file |
| HeaderRuns.RunsAreProper | tools/dwarf_splits.py:112-122 | runs of functions that end where they begin or later do so too, and of functions that are not empty are not empty |
| SplitPlan.Plan | tools/dwarf_splits.py:227-307 | the loops compute the specified plan, with the runs of each file counted over all parents |
| SplitPlan.RangeTiled | tools/dwarf_splits.py:280-306 | for runs of any extent: the pieces of a parent's range follow each other from its start to its end, no remainder empty, no two neighbouring remainders, each attributed piece a whole eligible run |
| SplitPieces.PlanApart | tools/dwarf_splits.py:227-307 | over disjoint ranges no two pieces of the plan overlap, and no header is taken |
| SplitPieces.PlanOnce | tools/dwarf_splits.py:272-306 | with no eligible run inside two parents, no source file is taken twice, whatever the limit |
| SplitPieces.TakenOnceExactly | tools/dwarf_splits.py:272-306 | when the limit is not reached: no source file is taken twice if and only if no eligible run lies inside two parents |
| SplitPieces.ProperFunctionsSuffice | tools/dwarf_splits.py:112-122 | runs gathered from functions that are not empty never do |
| SplitPlan.PlanLimit | tools/dwarf_splits.py:299-300 | no more files are taken than the limit allows |
| SplitPlan.RangeServed | tools/dwarf_splits.py:280-306 | an eligible run is passed over only if a taken one that comes before it reaches over its beginning, or the limit is reached |
| SplitPlan.OnlyRun | tools/dwarf_splits.py:272-275 | a file counted once has one run inside the parents |
| SplitNames.FreeName | tools/dwarf_splits.py:378-383 | the unbounded loop ends, at the least free number after the last one |
| SplitNames.ChunkStems | tools/dwarf_splits.py:380 | a chunk's name gives its parent's stem and its number, so chunks of different parents or numbers never share one |
| SplitNames.NameParent | tools/dwarf_splits.py:355-392 | the first remainder keeps the parent's name, the r-th later one gets the r-th number no unit has, files their paths, in order; a parent without a remainder keeps its name without text |
| SplitNames.NameSegments | tools/dwarf_splits.py:355-392 | every parent, in the order they come, gets exactly those rows for its pieces sorted: no number given to one parent disturbs another |
| SplitOrder.PlanCutsUnits | tools/dwarf_splits.py:227-307 | every plan cuts only units there are, so all its pieces can be named |
| SplitStretches.StretchesAre | tools/dwarf_splits.py:355-392 | any name owns, afterwards, what text it kept, a stretch for each recovered file with that path, and one if it is what a remainder is called |
| SplitStretches.OneStretchExactly | tools/dwarf_splits.py:355-392 | no unit owns two stretches of text, old lines included, if and only if none kept two, the taken paths differ, and none is a unit that keeps text, a parent with a remainder, or one of a parent's first m-1 free numbers, m being its remainders |
| SplitStretches.NewPathsSuffice | tools/dwarf_splits.py:355-392 | distinct paths that are no unit and no parent's number are enough |
| SplitStretches.NumberedPathCollides | tools/dwarf_splits.py:355-392 | being no unit is not: a file whose path is the first number of a parent with two remainders shares its name with one |
| LinkOrder.AroundIsCycle | tools/dwarf_splits.py:227-245 | a unit with text on both sides of another's comes before it and after it: a cycle |
| LinkOrder.AcyclicExactly | tools/dwarf_splits.py:227-245 | over disjoint text: the order in which some text of one unit lies before some of another's has no cycle if and only if no unit surrounds another, and if and only if it puts all units in one line |
| SplitOrder.LinesStayApart | tools/dwarf_splits.py:227-392 | the lines written and the lines that stay do not overlap and are not empty |
| SplitOrder.SplitIsLinear | tools/dwarf_splits.py:227-392 | so under the condition of one stretch each, the whole of the new splits.txt is one line of units without a cycle; and in any case it has one exactly when a unit surrounds another |
| Coverage.Measure | tools/dwarf_data_decl.py:184-199 | the merged intervals are in order, non-empty and never touch, cover exactly the addresses the clipped variables cover, and their lengths add up to the number of those addresses |
| Coverage.TotalIsSize | tools/dwarf_data_decl.py:199 | for intervals that do not overlap, the sum of the lengths is the size of their union |

## Left out

- FlowRuns.OpsRunFlat: the symbolic reading of `step` and `call`, and what the recovered statements say in C++, are parameters that decide refusal; the theorem is about which words run, not about the text.
- ControlFlow.Reader.ReadLoop: `loop` and `idxloop` are one method; their further refusals (bounds that do not read, several advances) are one parameter.
- FieldLayout.LayoutFaithful: a class with a base begins behind the base; only base-less classes are laid out. The recorded size is taken to be the size the compiler gives the type.
- TableSearch.TableIsSearch: the nodes have no cycle, which `extract` does not check; on a cycle the walk still ends (`CaseTable.Visitor.VisitNode`) and the search need not.
- SearchRuns.TableIsRun: the compare of a block stands directly before its branches. A row that is not ordinary is left out also where some of its targets are the same address and the reading is right by that.
- PathConstants.ArrivalSound: instructions that write more than `writes` reports (load-multiple, update forms) are outside; the branches `branch` does not recognise are taken to fall through.
- ShapeMeaning.MeansExactly: floating-point shapes and shapes with a call have no meaning here, only exact re-encoding.
- Mangler.TypeRoundTrip: digits are ASCII and names hold no line break, where the source's regular expressions stop.
- DataCarve.PlanSection: the sections of a unit are planned one at a time; how a symbol is classified (`anon_blob`, `qualifier`) is an input, and a declaration of zero elements counts as a type, as in the source.
- LineWrap.WordsKept: texts hold no line break and do not end in a dollar sign without its character; such a text is no single line to a reader, wrapped or not.
- PoolPrefix.HeaderIsPool: C trigraphs, the 80-column comments and the padding array; a hexadecimal escape too large for a byte is read modulo 256, which does not affect the condition.
- HeaderRuns.AbsorbHeaders: which names are source files is a parameter.
- SplitPlan.Plan: the pattern that picks the parent units, and the parsing of the splits file, are inputs.
- SplitNames.NameSegments: `src_path` is a parameter; of the pattern that picks parents only the ending `.cpp` is used; constructor tables, data sections and the rewriting of the files are not modelled.
- TypeEmit.EmitsReachable: `deps_of` is an input list for each type; `_resolve_names`, `group_unions` and forward declarations are not modelled.
- `split_symbol`, `demangle`, `field_types`, `class_order` and `dependency_order`: further name handling and orderings that would add members of the same kind.
- `escape` and `expand` of the ninja writer: one-pass substitutions.
- Reading ELF and DWARF, builds, reports and the text of generated files: input, output and presentation.
