# TimeFuzz: a verified model

TimeFuzz is a directed black-box fuzzer for interactive programs. It derives inputs from a grammar, remembers
which inputs have been tested, chooses the inputs that the next generation extends, and saves its state in a
chain of incremental files. This project models the parts of it that carry state from step to step and proves
what they keep. `dafny verify dfyconfig.toml` checks everything.

| files | what they model |
|---|---|
| `Grammar.dfy`, `EarleyChart.dfy`, `EarleyBackPointers.dfy`, `EarleyParser.dfy`, `EarleyCounts.dfy`, `EarleyLimits.dfy` | the Earley recogniser: its chart is exactly the set of valid items, each as often as it has derivations, with exactly the back pointers that it should have, and its loops end on exactly the inputs that finish no unit cycle |
| `TrieHistory.dfy`, `TreeNodes.dfy`, `ExclusionTree.dfy` | the exclusion tree on the heap, against the plain history of added inputs |
| `Buffers.dfy`, `NodeRecords.dfy`, `TreeFiles.dfy` | the byte records of tree nodes: their layout byte for byte, written, read, linked again |
| `FilterFunctions.dfy`, `SourceOrders.dfy` | choosing sources: budgets, drain, widening in the order of the pool and when it ends, the better half, what the comparators put first and when they are orders |
| `IPCommManager.dfy` | the write queues to the tests: linked lists and short writes |
| `Generation.dfy` | quotas of a generation, in whole steps and in single memory accesses, and the limits for which they hold; the source rotation |
| `SaveChain.dfy` | full and incremental saves, what they write and what their headers name, how long the chain gets, when a load keeps every form covered, what it brings back |
| `OrderedSets.dfy`, `StableSet.dfy`, `SessionData.dfy` | the bounded top lists and their comparators |
| `FormFlags.dfy` | counted flags and their mask |
| `Basics.dfy` | types and facts that several files share |

## How it is modelled

Each object that the program updates in place is a class with the same fields and methods. A method is proved
against a function of the old state (a turn of the parser, a step of a run, a record as bytes), and lemmas say
what holds of that function over all inputs and all runs. Heap structures carry a ghost value that an
invariant ties to the real fields: the tree has a map from paths to node states and the history of added
inputs, the write queues have a sequence of chunks per test and two ledgers of bytes.

Things that come from outside are parameters: what a pipe accepts, whether a test is alive, which input a
controller counts for, which inputs a score bound selects, whether a save file can be opened.

Where a property does not hold of the code, the code is kept and the boundary is proved:

* The acceptance test of the parser ignores where a finished root began. `AcceptsExactly` says which inputs it
  accepts, `AcceptedButNotDerivable` and the run `ParseNested` show one that is not derivable, and acceptance is
  derivability when the root is on no right-hand side.
* The parser ends on an input exactly if no node that unit expansions lead back to itself is asked for at some
  position and derives the input from there to a later one: `EndsIff`. `Parse` requires no more than that;
  `LoopNeverEnds` says which column is never left otherwise, `SmallestLoop` shows the smallest grammar.
* Completions may exceed grants, because a repeated test completes again. In whole steps the active count is then the
  largest surplus of grants over ends in any stretch that lasts until now (`ActiveIsLargestSurplus`), which is what is
  outstanding if nothing ends twice. In single accesses the repair of a negative count can
  fall between the two halves of a grant. The active limit then holds under every interleaving exactly if the
  simultaneous limit is not above it: `ActiveLimitIff`. If nothing is taken back that was not generated, a target
  within the active limit is as good: `ActiveLimitIffGenerated`. `OneCompletionTooMany` exceeds it for all other limits.
* The source rotation spends one of its turns on wrapping round. It never starves a source, but a single
  eligible source is returned only by every other call: `SingleSourceAlternates`.
* The list of prior saves is replaced on a load only if the loaded header is not empty. `LoadKeepsOrder` says
  exactly when the list stays increasing; `StalePriorsAreNamedAgain` shows a header that names a save twice.
  `MissingPriorBlocksLoad` and `DeletedFormComesBack` show what the chain does not guarantee.
* A load leaves every form covered by the chain exactly if the unchanged forms of the table are held, as they are,
  in the saves that the load makes the chain: `LoadCoversIff`. `LoadOverTheTableIsNotCovered` is a run without that.
* A load does not overwrite, so the oldest record of a form wins: `OldestRecordWins`. A form comes back as it was
  saved exactly if that record is the current one (`ReloadBringsBackEveryForm`); `ReloadCanBeStale` shows a run.
* The widening loop ends with a positive loss threshold; without one `FilterFunctions.EndsIff` says when,
  and `WidensForever` shows that it may not.
* The two orders by gain divide by a score. `OrdersExactlyIf` says on which sets of inputs they are orders,
  `GainIsNoOrder` shows one on which they are not.
* A mask of flags that share bits loses bits: `UnsetKeepsUnionIff` says exactly when, `SharedBitIsLost` shows it.

The comment on truncation in `include/StableSet.h` speaks of the smallest element; the code removes the last
one in the order, and so does the model.

## Model

| member | source | states |
|---|---|---|
| EarleyParsing.EarleyParser.CreateChart | include/EarleyParser.h:466-479 | the first column holds one unstarted state per expansion of the root, in order, and all other columns are empty |
| EarleyParsing.EarleyParser.StateExists | include/EarleyParser.h:624-636 | the first state of a column with the same node, expansion, origin and progress, or -1 |
| EarleyParsing.EarleyParser.Predictor | include/EarleyParser.h:544-576 | adds every expansion of the expected node that the column does not have yet, and one more back pointer to those that it has |
| EarleyBackPointers.EachAskerIsNamed | include/EarleyParser.h:544-576 | in every parsed chart the first state of a predicted expansion names each state of its column that waits for its node, once for each time that the expansion is listed, names nothing else, and names them in their order behind the empty reason of the root |
| EarleyBackPointers.EachExpansionNamesIt | include/EarleyParser.h:544-576 | so every state that waits for a node is named by a state of each expansion of that node |
| EarleyBackPointers.EachFinishedIsPointedTo | include/EarleyParser.h:604-622 | in every parsed chart a finished state is pointed to by exactly one advanced state for each state that waits for it in the column where it began |
| EarleyBackPointers.PredictTurnReasons | include/EarleyParser.h:556-573 | a turn that predicts adds the asking state to the reasons of every state that is there or new, and changes no other reason |
| EarleyParsing.EarleyParser.Scanner | include/EarleyParser.h:577-603 | pushes the advanced state to the next column exactly when the expected node is the next input symbol, without looking for a duplicate |
| EarleyParsing.EarleyParser.Completer | include/EarleyParser.h:604-622 | pushes every state of the origin column that waits for the finished node, advanced, without looking for a duplicate |
| EarleyParsing.EarleyParser.Parse | include/EarleyParser.h:480-507 | without empty expansions, the two loops are a run of the machine of single turns to its end, on every input that finishes no unit cycle, and leave a justified, saturated chart with exactly the back pointers of all turns |
| EarleyParsing.EarleyParser.FinishedRoots | include/EarleyParser.h:509-541 | finds exactly the finished states of the root in the last column, in order |
| Rewriting.DerivesIffRewrites | include/EarleyParser.h:462-465 | derivability, stated on the two fields of the grammar: a list derives a word exactly if replacing nodes, none of them a sequence, by expansions that they have leads to the word, and none of its nodes can be replaced |
| EarleyCounts.Recognise | include/EarleyParser.h:466-541 | on those inputs, accepts exactly when the root derives a suffix at whose start it can be asked for, and finds exactly as many finished roots as there are derivations of it; derivability, and the derivations of the input, if the root is on no right-hand side |
| EarleyCounts.CopiesAreDerivations | include/EarleyParser.h:544-622 | after every run that ends, the number of copies of a state in its column is the number of derivations of what it has covered |
| EarleyCounts.RootsAreDerivations | include/EarleyParser.h:509-541 | the finished roots of the last column, from which the trees are built, are as many as there are derivations of the root |
| EarleyCounts.EntriesAreDerivations | include/EarleyParser.h:544-622 | labelled with what they stand for, the copies of a state in a column are exactly its derivations |
| EarleyCounts.TurnLabels | include/EarleyParser.h:486-505 | every turn of the inner loop keeps the copies of every state labelled with different derivations |
| EarleyCounts.MovesOverTree | include/EarleyParser.h:544-622 | a copy of a state moves over every derivation of its next nodes, and is labelled with what it had joined with that derivation |
| EarleyCounts.NewJoined | include/EarleyParser.h:604-622 | no completion pushes what an earlier one has pushed, although duplicates are not looked for |
| EarleyChart.ChartIsExact | include/EarleyParser.h:480-622 | a parsed chart has an item in a column exactly when a left-to-right derivation from the root can be in it there |
| EarleyChart.Sound | include/EarleyParser.h:544-622 | soundness: the part before the dot of every state derives the input between origin and column, and the state can be reached |
| EarleyChart.Present | include/EarleyParser.h:544-622 | completeness: every valid item is in its column |
| EarleyChart.Moves | include/EarleyParser.h:544-622 | if A->.ab with origin k is in the chart and a derives input[k..i], then A->a.b is in column i |
| EarleyChart.CompleteKeepsJustified | include/EarleyParser.h:604-622 | completion keeps every back pointer justified: a completed state for the last node, or the state before the last symbol |
| EarleyChart.PredictKeepsJustified | include/EarleyParser.h:544-576 | prediction, including the extra back pointers on states that exist, keeps every state justified |
| EarleyChart.ScanKeepsJustified | include/EarleyParser.h:577-603 | scanning keeps every state justified |
| EarleyChart.AcceptsExactly | include/EarleyParser.h:509-514 | what the acceptance test, which ignores the origin, accepts: some suffix that the root derives where it is asked for |
| EarleyChart.DerivableIsAccepted | include/EarleyParser.h:509-541 | every derivable input is accepted |
| EarleyChart.AcceptanceIsDerivability | include/EarleyParser.h:509-541 | acceptance and derivability agree when the root occurs on no right-hand side |
| EarleyTermination.AdvancedIsSmaller | include/EarleyParser.h:486-505 | a state that a completion finishes has an earlier origin, or the same origin and a smaller unit rank |
| EarleyTermination.RankFalls | include/EarleyParser.h:604-622 | unless a unit cycle is finished, the number of nodes asked for above a finished node falls strictly along unit expansions |
| EarleyParsing.PredictMeasure | include/EarleyParser.h:544-576 | a prediction uses up the finite pool of predictions of the column or only shortens the worklist |
| EarleyParsing.CompleteMeasure | include/EarleyParser.h:604-622 | a completion pays for all states that it pushes although duplicates are not looked for |
| EarleyParsing.TurnMeasure | include/EarleyParser.h:486-505 | every turn of the inner loop, of whichever kind, brings the end of the column closer |
| EarleyLimits.AcceptedButNotDerivable | include/EarleyParser.h:509-514 | a grammar and a word that every parsed chart accepts although the root does not derive it |
| EarleyLimits.ParseNested | include/EarleyParser.h:480-541 | the parser takes that grammar, ends on that word and accepts it, although the root does not derive it |
| EarleyLimits.EndsIff | include/EarleyParser.h:480-507 | for every grammar without empty expansions and every input, the run ends exactly if no node of a unit cycle is asked for and derives the input up to a later position |
| EarleyLimits.RunEnds | include/EarleyParser.h:480-507 | without such a node a number of turns leads from every position of a run to its end |
| EarleyLimits.UnitCycleNeverEnds | include/EarleyParser.h:486-505 | once a node of a unit cycle is finished in a later column, any number of turns leaves that column unfinished |
| EarleyLimits.CycleIsFinished | include/EarleyParser.h:544-622 | on an input with such a node, a completed chart would hold a finished node of the cycle |
| EarleyLimits.LoopNeverEnds | include/EarleyParser.h:480-507 | with such a node the run from a fresh chart is not over after any number of turns |
| EarleyLimits.SmallestLoop | include/EarleyParser.h:480-507 | the smallest grammar with a unit cycle: the run ends on the empty input and never on one symbol |
| TreeNodes.ExclusionTreeNode.HasChild | src/ExclusionTree.cpp:30-37 | finds a child with the string id if and only if there is one |
| TreeNodes.Data.GetIDFromString | src/Data.cpp:1744-1760 | one id per string, never two strings with one id, earlier ids unchanged |
| TreeNodes.Data.CreateForm | include/Data.h:306-326 | a fresh form under a fresh id; every registered form stays under its own id |
| TreeNodes.Data.DeleteForm | include/Data.h:375-394 | the form is marked deleted and leaves the registry unless it was in a save |
| ExclusionTrees.ExclusionTree.constructor | src/ExclusionTree.cpp:239-246 | the new tree is the tree of the empty history |
| ExclusionTrees.ExclusionTree.AddInput | src/ExclusionTree.cpp:248-311 | every state that any calls can reach is the tree of the history of accepted calls, with exact counters, registered, undeleted nodes, and as depth the length of the longest accepted input that no earlier decision had cut off |
| ExclusionTrees.ExclusionTree.FindOrCreate | src/ExclusionTree.cpp:260-289 | stops exactly if a decided leaf lies on the path, else makes every prefix a node |
| ExclusionTrees.ExclusionTree.Descend | src/ExclusionTree.cpp:264-288 | one step down: to the child for the string, which is created exactly if it is missing, unless a decided leaf is there |
| ExclusionTrees.ExclusionTree.Record | src/ExclusionTree.cpp:290-307 | a decision makes the node a leaf and removes everything below it; any other result only changes the node |
| ExclusionTrees.ExclusionTree.DeleteChildrenIntern | src/ExclusionTree.cpp:439-474 | the stack loop removes every descendant and nothing else, marks each deleted, and keeps the counters exact |
| ExclusionTrees.ExclusionTree.DrainStack | src/ExclusionTree.cpp:447-462 | the loop ends and leaves the counters, the registry and the delete marks exact for the nodes that remain |
| ExclusionTrees.ExclusionTree.RemoveTop | src/ExclusionTree.cpp:449-461 | one turn of that loop: the top node leaves the counters and the registry, its children take its place |
| TreeNodes.PopStack | src/ExclusionTree.cpp:450-455 | replacing the top of the stack by its children keeps the stack a list of different nodes, none below another |
| ExclusionTrees.ExclusionTree.HasPrefix | src/ExclusionTree.cpp:319-360 | true exactly if a prefix of the input was ever decided, or the last result recorded at the input is Unfinished; names the first decision on the way, or the input itself |
| ExclusionTrees.ExclusionTree.HasPrefixAndShortestExtension | src/ExclusionTree.cpp:362-430 | the same answer from the plain history, and otherwise an extension exactly if any decided or unfinished input that was ever added extends the input; it names a shortest of them all |
| ExclusionTrees.ExclusionTree.ShortestExtension | src/ExclusionTree.cpp:409-429 | the breadth-first search ends and names a marked extension of least length, or reports that there is none |
| TreeNodes.FirstIsShortest | src/ExclusionTree.cpp:413-420 | the first marked node taken from the queue is a shortest marked extension |
| TreeNodes.PopQueue | src/ExclusionTree.cpp:413-427 | replacing the head of the queue by its children keeps the queue sorted by length and free of nodes below another |
| TrieHistory.TreeIsItsHistory | src/ExclusionTree.cpp:248-311 | after any sequence of additions, which paths the tree has and what each node says, read off the history alone |
| TrieHistory.LeavesAreMinimalDecisions | src/ExclusionTree.cpp:290-302 | the leaves are exactly the prefix-minimal decided inputs, in whatever order they were added |
| TrieHistory.LeavesEndPaths | src/ExclusionTree.cpp:299-302 | no leaf has anything below it |
| TrieHistory.AnsweredIff | src/ExclusionTree.cpp:331-359 | what the walk down the tree answers is what the history says |
| TrieHistory.NearestIsKnown | src/ExclusionTree.cpp:409-429 | pruning loses no answer: where nothing on the way was decided, a search in the tree finds what a search in the whole history would find |
| TrieHistory.KnownHasMarked | src/ExclusionTree.cpp:299-302 | whatever was known below the input is in the tree or has been cut off by something nearer |
| TrieHistory.AddDescribes | src/ExclusionTree.cpp:248-311 | adding to a tree that a history describes gives the tree that the longer history describes |
| TreeNodes.SearchByID | src/ExclusionTree.cpp:264-265 | searching children by interned id is searching them by string |
| Buffers.NumberOfFixed | include/BufferOperations.h:126-145 | a number that fits its width is read back |
| Buffers.FixedOfNumber | include/BufferOperations.h:228-236 | every string of bytes is the writing of the number it is read as |
| Buffers.ArrayBuffer.WriteWord | include/BufferOperations.h:136-145 | writes the eight bytes behind what is written, or refuses exactly if they do not fit |
| Buffers.ArrayBuffer.ReadWord | include/BufferOperations.h:228-236 | reads the next eight bytes, or fails exactly if there are fewer |
| Buffers.ByteOfFixed | include/BufferOperations.h:126-145 | byte i of a written number is the number divided by the i-th power of 256, modulo 256 |
| NodeRecords.WholeIsLaid | include/Record.h:28-50 | the layout of a written record, byte for byte: size, type, versions, ids, flag bits 0 and 63, children, the bytes of each of the eight results |
| NodeRecords.LaidIsRead | src/ExclusionTree.cpp:162-179 | bytes of that layout, whoever wrote them, are read as that record, whatever follows |
| NodeRecords.WhatIsRead | src/ExclusionTree.cpp:113-179 | nothing but a record of version 3 is read; bit 0 of the flag word says whether the node is a leaf, bit 63 whether it is deleted, whatever the other bits are |
| NodeRecords.SizeIsExact | src/ExclusionTree.cpp:68-74 | the body of a record has exactly the announced size, and the whole record twelve bytes more |
| NodeRecords.RecordRoundTrip | src/ExclusionTree.cpp:162-179 | reading what was written for a node gives its id, flags, label, child ids in order, result and input id, whatever follows |
| NodeRecords.RecordsAreDistinct | src/ExclusionTree.cpp:82-112 | different records are written differently |
| NodeRecords.FlagsRoundTrip | include/ExclusionTree.h:23-38 | leaf flag and deleted flag survive in the 64-bit flag word |
| TreeFiles.WriteData | src/ExclusionTree.cpp:82-112 | with the announced length every check passes, the buffer is filled exactly, and the bytes are laid out as versions, id, flag bits, label, children, result code and input id of the node |
| TreeFiles.CreateRecord | include/Record.h:28-50 | writes size, type and body of the node's record, byte for byte |
| TreeFiles.ReadData | src/ExclusionTree.cpp:113-183 | succeeds exactly if the bytes are a record of the current version with enough data; then the new node has what the record says; bytes of the layout of a record give that record |
| TreeFiles.SaveNodes | src/Data.cpp:263-412 | in whatever order the table is walked, one record per node is written |
| TreeFiles.LoadNodes | src/Data.cpp:960-976 | one registered node per record that is not deleted, each with the fields of its record |
| TreeFiles.InitializeEarly | src/ExclusionTree.cpp:184-201 | the ids in the child slots are replaced by the nodes they name, in order |
| TreeFiles.LinkAll | src/Data.cpp:1206-1211 | linking all nodes, in any order, gives each the children that its ids name |
| TreeFiles.RelinkedIsLinked | src/ExclusionTree.cpp:184-201 | the loaded nodes form one tree over the same paths, with the same child order |
| TreeFiles.RelinkedIsSame | src/ExclusionTree.cpp:82-201 | the loaded tree has the same labels, results, leaf marks and counts |
| TreeFiles.SaveAndLoad | src/ExclusionTree.cpp:82-201 | writing every node of a reachable tree, reading the bytes and linking in any order gives the tree of the same history |
| FilterFunctions.DistributeBudget | include/FilterFunctions.h:42-62 | controller j ends with the minimum of its tests and the closed form (target + n - 1 - j) div n; also for no controllers and negative targets |
| FilterFunctions.SplitIsFair | include/FilterFunctions.h:42-62 | the shares differ by at most one unless saturated, the first controllers get what is left over, the shares never exceed what a controller has, and sum to at most the target, or exactly the target if nobody is saturated |
| FilterFunctions.Drain | include/FilterFunctions.h:99-134 | ends although an insertion may add nothing; each controller gives its best results, as many as its share allows, if the target is not reached or the shares do not add up to more than it |
| FilterFunctions.DrainTurn | include/FilterFunctions.h:113-133 | every turn takes a result, spends a controller, or comes closer to one that is not spent |
| FilterFunctions.GatherChosen | include/FilterFunctions.h:119-123 | inserting a result keeps the candidates equal, up to equivalence, to what was chosen |
| FilterFunctions.WidenOnce | include/FilterFunctions.h:148-175 | one pass looks at a first part of the pool and at no other input: everything in that part is settled, only inputs from it are added, each of them eligible and within its share, never beyond the limit, and the part is the whole pool unless the limit is reached |
| FilterFunctions.AddedComeFirst | include/FilterFunctions.h:148-174 | from a sorted pool no input that is left over comes before one that was added, unless it is not eligible, an equivalent candidate is there or its controller's share is used up |
| FilterFunctions.LeftOverComesLater | include/FilterFunctions.h:136-177 | the same for every pass of the selection, at the limit too |
| FilterFunctions.BoundsFall | include/FilterFunctions.h:137-147 | the fraction and the bound of every pass: the bound falls in equal steps with a positive threshold and best score and is never below zero in a pass that is made |
| FilterFunctions.Widen | include/FilterFunctions.h:136-177 | whenever the loop ends at all: it makes exactly the passes up to the first at which it may stop, takes each pool in its order, gathers at most twice the target, and misses nothing of the last pool while there is room |
| FilterFunctions.PassesOfSelection | include/FilterFunctions.h:136-177 | the bound of every pass of the selection and when its passes may stop, in closed form |
| FilterFunctions.EndsIff | include/FilterFunctions.h:136-177 | with a threshold above zero the loop ends; with any other one, if no pass after pass m sees anything new, exactly if it does not start or the limit is reached by then |
| FilterFunctions.NothingNewIf | include/FilterFunctions.h:143-147 | no pass sees anything new if the threshold or the best score is zero, or if a higher bound selects fewer inputs |
| FilterFunctions.NothingLeft | include/FilterFunctions.h:143-147 | with a negative threshold and a positive best score there is a pass from which on no score reaches the bound |
| FilterFunctions.WidensForever | include/FilterFunctions.h:140-177 | with a threshold of zero and no inputs the loop does not end |
| FilterFunctions.SelectionEndsIf | include/FilterFunctions.h:136-177 | the selection ends with every positive loss threshold, and with any if the widening does not start |
| FilterFunctions.TakeBetterHalf | include/FilterFunctions.h:179-183 | the loop whose bound shrinks while it runs takes the better half, rounded up, but at most the target |
| FilterFunctions.FilterSet | include/FilterFunctions.h:17-184 | every controller contributes its best results within its share, whatever the others do; these are widened by exactly the passes up to the first after which the loop may stop, at the falling bound; nothing eligible at the last bound is missed while there is room; the targets are the better half of the candidates, at most the target number, in strict order, before every candidate that is not selected, each a result of a controller or an input below every limit that is set, unfinished or failing and long enough; required is an order and that the widening ends |
| FilterFunctions.TargetsInValues | include/SessionFunctions.h:31-78 | what each of the four orders makes of the targets: they have a higher score than every candidate that is not selected, or less length per score |
| SourceOrders.GainInValues | include/SessionFunctions.h:31-70 | the gain comparison multiplied out: with positive scores the input with less length per score comes first, and before one without a score comes every one with a positive score |
| SourceOrders.OrdersExactlyIf | include/SessionFunctions.h:31-78 | on every set of inputs the two orders by score are strict weak orders; the two by gain are exactly if no gain is zero divided by zero, or no two inputs of the set are told apart |
| SourceOrders.GainIsNoOrder | include/SessionFunctions.h:31-70 | three inputs, one with neither length nor score, on which neither order by gain is one |
| SourceOrders.ScoreComparatorsAreOrders | include/SessionFunctions.h:50-78 | the comparators by score put exactly the higher score first, and are strict weak orders of all inputs |
| SourceOrders.SourceComparatorsAreOrders | include/SessionFunctions.h:31-78 | all four comparators are strict weak orders of the inputs whose gains are numbers |
| IPCommManagers.WriteData.constructor | src/IPCommManager.cpp:5-13 | the request keeps its own copy of the bytes asked for |
| IPCommManagers.IPCommManager.Write | src/IPCommManager.cpp:26-52 | the bytes join the end of the test's queue and no other queue changes; which requests are refused and which are ignored |
| IPCommManagers.IPCommManager.LinkNew | src/IPCommManager.cpp:37-47 | the list walk ends and the new node becomes the last one |
| IPCommManagers.IPCommManager.TestWrite | src/Test.cpp:346-369 | the pipe delivers a first part of the bytes between offset and length, any number of them, or fails; nothing else is delivered |
| IPCommManagers.IPCommManager.ServeHead | src/IPCommManager.cpp:85-110 | one write: the pipe is handed exactly the rest of the first request; what it accepts is what that request loses; the node is shortened or deleted, or the whole queue is given up on failure |
| IPCommManagers.IPCommManager.ServeQueue | src/IPCommManager.cpp:64-116 | only this test's queue changes; it is given up exactly if the test is gone or the pipe fails, and left only if the pipe takes no more |
| IPCommManagers.IPCommManager.PerformWritesInternal | src/IPCommManager.cpp:54-122 | over one pass in any order: what the pipes took, followed by what is pending, is what was submitted for every test; which queues are dropped, and that nothing of them is left; all others only deliver more |
| IPCommManagers.IPCommManager.Drop | src/IPCommManager.cpp:64-97 | giving a queue up deletes each of its nodes once and touches no other list |
| IPCommManagers.IPCommManager.DeleteForward | src/IPCommManager.cpp:92-96 | deletes every node of the list, each once, and follows none that is deleted |
| IPCommManagers.IPCommManager.DeleteWithLookahead | src/IPCommManager.cpp:67-73 | deletes every node of the list, each once, and follows none that is deleted |
| IPCommManagers.DeliverBalances | src/IPCommManager.cpp:85-104 | a write of any length keeps delivered followed by pending equal to submitted |
| GenerationQuotas.QuotasHold | src/Generation.cpp:51-115 | in every state of every run active inputs and generated size are within their limits, the active inputs are not negative, and generated size is grants minus fails minus removals |
| GenerationQuotas.GrantIsLargest | src/Generation.cpp:51-75 | in every state of every run a grant is refused exactly if the target or the active limit is reached, and otherwise one more input would exceed one of the three limits |
| GenerationQuotas.ActiveIsLargestSurplus | src/Generation.cpp:77-87 | after any run, whatever ends how often, the active count is the largest surplus of grants over fails and completions in any stretch that lasts until now and holds no reset |
| GenerationQuotas.EndsIff | src/Generation.cpp:191-194 | after any run the generation is over exactly when no such stretch has a surplus and the target is met |
| GenerationQuotas.ActiveIsExact | src/Generation.cpp:77-87 | if no more inputs end than were granted, the active count is what is outstanding since the last reset and is never repaired |
| GenerationQuotas.EndsWhenDone | src/Generation.cpp:191-194 | if no more inputs end than were granted: the generation is over exactly when nothing is outstanding and the target is met |
| GenerationQuotas.TargetHoldsInterleaved | src/Generation.cpp:51-164 | under every interleaving of single memory accesses of grants, fails, removals, completions and resets the generated size stays within the target |
| GenerationQuotas.ActiveHoldsInterleaved | src/Generation.cpp:51-204 | so does the active count, negative counts and their repairs included, if the simultaneous limit is not above the active one, or the target is not and nothing is taken back that was not generated |
| GenerationQuotas.ActiveLimitIff | src/Generation.cpp:51-204 | every interleaving keeps the active limit exactly if the simultaneous limit is not above it |
| GenerationQuotas.ActiveLimitIffGenerated | src/Generation.cpp:51-204 | if nothing is taken back that was not generated: exactly if the simultaneous limit or the target is not above it |
| GenerationQuotas.CountIsExactInterleaved | src/Generation.cpp:51-164 | while no more inputs end than were granted, no interleaving makes the active count differ from what is outstanding, apart from an open step |
| GenerationQuotas.OneCompletionTooMany | src/Generation.cpp:156-164 | for all limits of which a single grant can exceed the active one: five accesses that do exceed it by one |
| Generations.Generation.CanGenerate | src/Generation.cpp:51-75 | a grant is the minimum of the three allowances and is refused exactly if the target is met or enough is active |
| Generations.Generation.FailGeneration | src/Generation.cpp:77-87 | fails are taken from both counters, the active one not below zero |
| Generations.Generation.SetInputCompleted | src/Generation.cpp:156-164 | a completion is taken from the active counter, not below zero |
| Generations.Generation.ResetActiveInputs | src/Generation.cpp:201-204 | nothing is active any more; nothing else changes |
| Generations.Generation.RemoveGeneratedInput | src/Generation.cpp:99-115 | the generated size falls exactly if the input was listed |
| Generations.Generation.GetRandomSource | src/Generation.cpp:274-335 | returns what one search of the rotation returns and leaves the cursor where the search leaves it; no returned source has reached a limit that is set, and if none is returned all others have |
| SourceRotation.ScanFindsFirst | src/Generation.cpp:302-317 | the search returns the eligible source that comes first from the cursor on, and none exactly if none comes up within its turns |
| SourceRotation.PickIsSound | src/Generation.cpp:302-317 | a returned source is eligible; none is returned exactly if no source is eligible except the one just before the cursor |
| SourceRotation.NotTwiceNothing | src/Generation.cpp:302-317 | two calls in a row cannot both return none if a source is eligible at both, and the second returns it |
| SourceRotation.NoStarvation | src/Generation.cpp:302-317 | while the eligibility of others changes at will, a source that stays eligible is returned by the call after its distance from the cursor is used up, at the latest |
| SourceRotation.ReturnedInEveryWindow | src/Generation.cpp:302-317 | a source that stays eligible is returned by one of any n + 1 calls in a row, wherever the cursor stands |
| SourceRotation.EachOnce | src/Generation.cpp:302-317 | with two or more sources, all eligible, any n calls in a row return each once |
| SourceRotation.SingleSourceAlternates | src/Generation.cpp:302-317 | a single source is returned by every other call only |
| SaveLoading.Data.GetSaveName | src/Data.cpp:68-78 | the last number joins the prior saves and a new number is used, also if the file is then not opened |
| SaveLoading.Data.Save | src/Data.cpp:90-412 | header, selection of records, cleared marks and cleared prior saves of a full or incremental save |
| SaveLoading.Data.LoadIntern | src/Data.cpp:591-748 | prior saves are read first and in order; if one is missing nothing is read; the list is replaced only by a header that is not empty |
| SaveLoading.Data.Load | src/Data.cpp:471-528 | loads the highest number on disk and continues behind it |
| SaveLoading.Data.LoadNumber | src/Data.cpp:530-589 | loads the given number and continues behind the highest one |
| SaveLoading.Data.ReadRecords | include/Data.h:333-347 | a record that is not deleted is registered unless the table has the form |
| SaveLoading.Data.DeleteForm | include/Data.h:354-373 | a form that was saved stays, marked and changed; any other leaves the table |
| SaveChains.WhatASaveWrites | src/Data.cpp:109-412 | which saves are full; a full one writes every form and names no save, an incremental one leaves out exactly the unchanged forms and names the whole chain |
| SaveChains.DeletionIsWrittenIffSaved | include/Data.h:354-373 | a deletion goes into the next save, also an incremental one, exactly if the form was written before |
| SaveChains.ChainsAreShort | src/Data.cpp:109-182 | if every n-th save is full, over runs of saves that open and of loads of the highest save that leave no older chain in front of it, no chain and no header with its save has more than n saves |
| SaveChains.SavedFormsAreCovered | src/Data.cpp:155-412 | after every save of a run whose loads meet the condition of LoadCoversIff, each form of the table is stored, as it is then, in that save or one that its header names |
| SaveChains.RunCovers | src/Data.cpp:68-748 | the invariant behind it, over creations, changes, deletions, saves that open or not, loads over any table, clears and restarts |
| SaveChains.LoadCoversIff | src/Data.cpp:710-748 | a load, over whatever table, leaves every form covered exactly if the unchanged, undeleted forms of the table are held, as they are, in the chain that the load leaves |
| SaveChains.LoadKeepsOrder | src/Data.cpp:710-719 | a load keeps the list increasing exactly if the header names saves, or no prior saves are left over, or they are older than the file |
| SaveChains.HeadersAreIncreasing | src/Data.cpp:155-182 | in every run whose loads meet that condition every header on disk is strictly increasing and below its own number |
| SaveChains.StalePriorsAreNamedAgain | src/Data.cpp:710-719 | a run after which a header names one save twice |
| SaveChains.ReloadedIsWhatTheChainHolds | src/Data.cpp:719-748 | a load into an empty table brings back exactly the forms of which some save of the chain has an undeleted record, or none if a save is missing |
| SaveChains.OldestRecordWins | include/Data.h:333-347 | reading a chain into an empty table gives each form the content of the first undeleted record of the chain |
| SaveChains.ReloadedIsTheOldestRecord | src/Data.cpp:719-748 | each form that a load into an empty table brings back has the content of the oldest undeleted record of the chain |
| SaveChains.ReloadBringsBackEveryForm | src/Data.cpp:155-748 | if every save could be written, a new process can load the last one and gets every undeleted form, as it was saved exactly if the oldest undeleted record of the chain is the current one |
| SaveChains.ReloadCanBeStale | include/Data.h:333-347 | a run after which a changed and saved form is loaded with its earlier content |
| SaveChains.FullSaveRestoresTheTable | src/Data.cpp:173-412 | a full save and a load restore exactly the undeleted forms as they were |
| SaveChains.MissingPriorBlocksLoad | src/Data.cpp:721-731 | a run whose last save cannot be loaded because an earlier file was never opened |
| SaveChains.DeletedFormComesBack | include/Data.h:333-347 | a run after which a deleted form is loaded again |
| SaveChains.LoadOverTheTableIsNotCovered | include/Data.h:333-347 | a load into a table that is not empty can leave a form without a copy in the chain |
| OrderedSets.InsertKeepsSorted | include/StableSet.h:325-331 | inserting behind equivalent elements keeps the order |
| StableSet.StableMultiset.Trunc | include/StableSet.h:180-188 | cuts to the limit from the end; each removed element is reported |
| StableSet.StableMultiset.Insert | include/StableSet.h:325-331 | the contents are the first k of the stable sort of everything inserted since the last clear; the callbacks balance |
| StableSet.StableMultiset.Clear | include/StableSet.h:316-323 | every element is reported as removed and the history starts anew |
| StableSet.StableUniqueSet.Insert | include/StableSet.h:142-146 | the contents are the first k of what an unbounded set would hold |
| StableSet.SortAllIsStable | include/StableSet.h:325-331 | repeated insertion is a stable sort: a permutation with times, ordered by element and then by time |
| StableSet.InsertThenTake | include/StableSet.h:180-188 | cutting off early loses nothing |
| StableSet.SortUniqueIsFirstComers | include/StableSet.h:142-146 | the set keeps exactly the first comer of each class of equivalent elements |
| StableSet.ContentsAreTheBest | include/StableSet.h:180-331 | contents and callbacks after any run: the best k, and insertions minus removals is the size |
| SessionData.ComparatorsAreOrders | include/SessionData.h:70-116 | the three comparators are strict weak orders on nodes, and equivalent nodes agree in all three values |
| SessionData.TopListIsBest | include/SessionData.h:70-116 | what each of the three kinds of top list keeps, in the values: every node left out or further back has a lower primary score, or the same and a lower secondary score, or both the same and is not shorter; likewise by secondary score, and by length with the longer first |
| FlaggedForms.Form.SetFlag | src/Form.cpp:346-353 | one more copy of the flag, its bits in the mask |
| FlaggedForms.Form.UnsetFlag | src/Form.cpp:355-366 | one copy less; the bits leave the mask with the last copy |
| FlaggedForms.Form.HasFlag | src/Form.cpp:368-371 | while the mask is the union of the flags: whether some flag that is set shares a bit with the one asked for |
| FlaggedForms.Form.WriteData | src/Form.cpp:273-292 | version, identity, mask, number of flags and every copy of every flag, byte for byte |
| FlaggedForms.LaidIsRead | src/Form.cpp:294-322 | bytes of that layout are read as that identity, mask and flags, whatever follows |
| FlaggedForms.Form.ReadData | src/Form.cpp:294-322 | a form of the current version is read as written, and its flags are added to those that are there; another version is refused and changes nothing |
| FlaggedForms.FormRoundTrip | src/Form.cpp:273-322 | the bytes written for a form are readable and parse to its identity, mask and flags, whatever follows |
| FlaggedForms.WriteAndRead | src/Form.cpp:273-322 | written and read into a new form, flags with their counts and the mask are restored |
| FlagSets.MaskIsUnion | src/Form.cpp:346-366 | with flags of one bit each the mask is the union of the flags after every run |
| FlagSets.ReadsAsSetIff | src/Form.cpp:346-371 | such a flag reads as set exactly if in some tail of the run it was set more often than unset |
| FlagSets.CopiesAreCounted | src/Form.cpp:346-366 | there are as many copies as sets minus unsets that found one |
| FlagSets.CopiesAreTheLargestSurplus | src/Form.cpp:346-366 | the number of copies is the largest surplus of sets over unsets in any tail of the run |
| FlagSets.UnsetKeepsUnionIff | src/Form.cpp:355-366 | removing a flag keeps the mask the union exactly unless the last copy of a flag goes that shares a bit with another one |
| FlagSets.SharedBitIsLost | src/Form.cpp:355-366 | a run after which a flag that is there reads as not set |

## Left out

- Recognise: the trees that `expandNode` builds from the back pointers, and printing them; only the chart is modelled.
- Parse: empty expansions, with which the completer would append to the column that it walks; they are excluded by a precondition, as are the inputs on which the loops do not end.
- CopiesAreDerivations: a root whose list names one expansion twice, which would start it twice; expansions are objects with an identity of their own.
- Predictor: grammar nodes and expansions are numbers instead of shared pointers, and a back pointer is a column and an index instead of an address.
- AddInput: locks, and the change marks that the calls set on forms; a call is one step.
- DeleteChildrenIntern: the second loop over the children of the node, which the first part has already emptied.
- CreateForm: overflow of the 64-bit form ids, and forms of other types in the same registry.
- GetIDFromString: the unlocked first look-up, and interning after a load, which starts again at the first id because the counter is not stored.
- ReadData: record versions 1 and 2 of nodes, which the program still reads, are refused, and result codes other than the eight of the enumeration read as none.
- ReadData: streams that end within the first 24 bytes of a record, from which the program would read undefined numbers.
- InitializeEarly: an id that no node has is dropped, where the program leaves a slot that is not a pointer.
- SaveAndLoad: the record of the tree object itself (root id and counters), compression, and records of other types between those of the nodes.
- SaveAndLoad: says nothing about the string counter of the loading process; all other parts of the invariant of the tree are stated.
- FilterSet: removing controllers without results beforehand, the tracing of parents that decides which controller an input counts for, and the unused budget decrement; the order is a parameter, and scores, bounds and fractions are reals.
- Widen: a loop that does not end has no result, so it is required that the loop ends; rounding of the fraction is not modelled.
- EndsIff: nothing is said of a negative threshold together with a negative best score.
- GainInValues: negative scores; nothing is said of them beyond the comparison of the quotients.
- SourceComparatorsAreOrders: negative zero as a score, which would give a quotient of the other sign.
- PerformWritesInternal: queue entries without a node, which never occur, and the semaphore and thread around the call.
- Write: the semaphore.
- CanGenerate: changes of the limits during a run.
- ActiveLimitIff: weak memory; the accesses of one step are interleaved, each of them is atomic.
- ActiveIsLargestSurplus: a negative simultaneous limit, with which a grant takes inputs back.
- GetRandomSource: the conversion of the cursor to a 32-bit result, the spin flag, and `CheckSourceValidity`, which removes sources.
- Save: the contents of records, the callback, LZMA, and the session objects that are read in place instead of registered; forms are an id with a content number.
- ChainsAreShort: a load by number; numbering then continues behind the highest save, so that such a chain can get longer.
- Load: file names that do not parse, and files that someone else removes.
- StableMultiset: a limit that changes, and the constructors and inserts that take several elements.
- ComparatorsAreOrders: scores that are not numbers, and the weak pointers to the inputs.
- HasFlag: `StrippedForm`, whose flags are a mask without counts.
- `ordered_multiset`, delta debugging, grammar construction, task and execution control, Lua, evaluation, the user interface, logging, crash handling.
