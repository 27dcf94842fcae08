# Query dispatch and messaging, verified

A Dafny model of the core of the distributed query system: the translation of a physical plan into
work items and parallel batches, the concurrent dispatch of those batches, the disjoint sets and the
join tree built from them, the message stream between C++ and Python peers, the completion tracker
and the server's client registry. Check everything with `dafny verify dfyconfig.toml`.

## What is proved

- **Plans.** The explicit-stack walk equals a recursive post-order on every finite plan, cyclic ones
  included. The levels are the lowest any batching can reach and give the fewest batches. Batched and
  sequential execution yield, for every operator semantics, the values of evaluating the DAG recursively.
- **Concurrent dispatch.** Any number of queries send, wait, execute and report under every interleaving.
  No item is sent before its dependencies are reported if and only if no depended-on item id is shared
  with a query of the same plan id. Plan ids are drawn at random and nothing checks them for
  collisions, so two queries can share one; `Dispatcher.CollidingPlanIdsAreUnsafe` is a concrete case.
  With one report per item runs are bounded, and those that cannot go on have finished all queries if and
  only if no two share plan id and item id.
- **Join trees.** Path compression refines graph connectivity. For all FROM lists and predicates there is an exact
  condition for the built tree with its filters to mean the query, for all data and all conditions (for
  predicates about FROM tables: they connect all of them), and one for the tree to be left-deep.
- **Message streams.** Over every cutting of a stream whose first receive brings at least 4 bytes, the C++ callbacks see
  exactly the messages that have arrived; with a shorter first receive the client's delimiter scan leaves its
  zeroed buffer. The Python client delivers exactly what has arrived unless a receive leaves 1 to 3 bytes of
  a message or shows an unknown enum value, which ends its thread; it notices the end of the stream
  exactly if nothing is held over.
- **Tracker and registry.** What every history of the tracker keeps, and what every run of the server keeps
  about its two client indexes. The retrying send ends, delivers at most once, and there is an exact
  condition for it to remove only failing or aborted clients.

## How it is modelled

| files | what they hold |
|---|---|
| `Sequences.dfy` | listing chosen elements of a sequence in order |
| `PlanGraph.dfy`, `WorkItems.dfy`, `Translator.dfy`, `Evaluation.dfy` | plans as graphs of addressed nodes; levels and batches; the loops of the translator; meaning of plans |
| `CompletionTracker.dfy`, `Dispatcher.dfy`, `Liveness.dfy` | the monitor and its histories; concurrent queries as a state machine; whether they can finish |
| `DisjointSets.dfy`, `Components.dfy`, `JoinTrees.dfy`, `JoinMeaning.dfy`, `JoinShape.dfy` | the union-find class; connectivity; the join tree builder; its meaning; its shape |
| `Wire.dfy`, `Framing.dfy`, `Receiver.dfy`, `Sessions.dfy` | header codec; frames of a byte stream; in-place extraction; receive loops |
| `PythonParser.dfy`, `PythonClient.dfy` | the Python parser; the Python receive thread |
| `Registry.dfy`, `KeyOrder.dfy`, `Retries.dfy`, `TcpServer.dfy` | the two indexes and server runs; iteration by key; whom failed sends remove; the server's operations |

Assumptions:

- A plan's root is not null, child pointers point at plan nodes, and node ids are distinct where a statement says so.
  An operator's payload is one opaque string; an operator is any function of it and of the dependencies' values.
- Random plan ids, random choices of a client, the results of `recv` and `send` and the answers of a connecting client are
  parameters or arbitrary.
- Table names are not empty; `""` is what `find` answers for unknown names. The unordered map of scans is a
  list in arbitrary order.
- The receive buffer has room for one header past the receive area, because the extraction loop reads the size field
  before it tests the remaining bytes (cpp/code/src/Utility.cpp:125).
- The copy at cpp/code/src/Utility.cpp:157 goes byte by byte upwards. Its source and destination may overlap, which
  section 7.24.2.1 of ISO C11 leaves undefined for `memcpy`.
- A delimiter scan that leaves the buffer ends the session in the model (`overrun`); the source reads foreign memory
  from there on. The client's buffer is zeroed at first, the server's holds anything (cpp/code/src/TCPServer.cpp:36).
- Callbacks do not write to the buffer.
- Each method of the completion tracker is one atomic step, and a wait steps when its predicate holds. The order of compute
  units' work and of their reports is arbitrary; an item is executed at most once.
- Two registered clients can have the same socket handle: one found unfit for registration is still registered after
  its handle was closed (cpp/code/src/TCPServer.cpp:118-121), and the operating system can hand the number out again.
- A removed client keeps its fields in the model; the source frees it.
- Clearing a list goes on at the same position after a removal. The source keeps using an iterator over the vector it
  erased from (cpp/code/src/TCPServer.cpp:473-475, 711), which std::vector invalidates.

Where the source and its documentation differ, the model follows the source:

- The comment at cpp/code/src/SQLToLogicalPlanTranslator/JoinTreeBuilder.cpp:189 promises a left-deep tree. A predicate
  whose second table is already joined with others puts a JOIN on the right (`JoinShape.NotAlwaysLeftDeep`).
- docs/LogicalOptimizer/LogicalOptimizer.md:487 ends in a single root. For unconnected FROM tables the builder silently returns
  the tree of one component only.
- The Python enums know unit types up to 6 and package types up to 13; proto/UnitDefinition.proto goes up to 7 and 17. The Python
  side raises on the others, as `PythonClient.SessionOutcome` states.

## Model

| member | source | states |
|---|---|---|
| `PlanGraph.PostOrderIsReachable` | cpp/code/include/Translator.hpp:95-116 | the reference walk emits exactly the nodes reachable from the root through non-null children, each once, the root last, on cyclic plans too |
| `PlanGraph.PostOrderChildrenFirst` | cpp/code/include/Translator.hpp:104-116 | every node comes after all its children if and only if no cycle is reachable from the root |
| `PlanGraph.VisitEmits` | cpp/code/include/Translator.hpp:104-116 | entering an unseen node emits nothing twice and nothing seen before, and leaves no pointer out of what was seen or emitted |
| `PlanGraph.VisitTopological` | cpp/code/include/Translator.hpp:104-116 | in an acyclic plan everything an entered node emits comes after those of its children that had not been seen before |
| `PlanGraph.VisitReachable` | cpp/code/include/Translator.hpp:104-116 | entering a node emits only nodes reachable from it |
| `PlanGraph.ChildrenInOrder` | cpp/code/include/Translator.hpp:106-111 | an earlier child of the root comes before a later one that cannot be reached from the children before it |
| `Translator.WalkPlan` | cpp/code/include/Translator.hpp:90-116 | the explicit-stack loop computes the reference post-order; it ends on every finite plan by a measure of unseen nodes, then unexplored child slots, and keeps its stack a root path |
| `Translator.ResumeEnters` | cpp/code/include/Translator.hpp:106-111 | pushing an unseen child leaves what the stack is still going to emit unchanged, up to the nodes newly seen |
| `Translator.ResumeLeaves` | cpp/code/include/Translator.hpp:112-115 | popping a finished frame emits its node next, then the frames below |
| `Translator.ResumeStarts` | cpp/code/include/Translator.hpp:98-99 | the stack holding only the root frame is going to emit the reference post-order |
| `Translator.EnterKeepsWalk` | cpp/code/include/Translator.hpp:104-111 | pushing an unseen child keeps the stack a root path whose frames each point at the frame above, and keeps emitted plus still-to-come nodes equal to the reference walk |
| `Translator.SkipKeepsWalk` | cpp/code/include/Translator.hpp:106-108 | passing a null or seen child keeps both and leaves fewer unexplored child slots |
| `Translator.LeaveKeepsWalk` | cpp/code/include/Translator.hpp:112-115 | popping a finished frame keeps both, its node emitted |
| `Translator.AssignIds` | cpp/code/include/Translator.hpp:118-123 | exactly the emitted nodes get an id, and it is their node id |
| `Translator.DependencyIds` | cpp/code/include/Translator.hpp:133-138 | the dependency list names the node ids of the non-null children in child order |
| `Translator.DependsOnIsChild` | cpp/code/include/Translator.hpp:133-138 | with distinct node ids an item depends on a node's id if and only if that node is a child |
| `Translator.CreateWorkItems` | cpp/code/include/Translator.hpp:89-138 | the work items are those of the reference post-order, in its order, and all carry the plan id |
| `Translator.LinearItem` | cpp/code/include/Translator.hpp:128-131 | the k-th item carries the plan id and the id and operator of the k-th node |
| `Translator.LinearCarriesPlanId` | cpp/code/include/Translator.hpp:130-130 | every item of the list and of every batch carries the plan id |
| `Translator.LinearIsWellOrdered` | cpp/code/include/Translator.hpp:128-138 | with distinct node ids every dependency names an earlier item if and only if no cycle is reachable from the root |
| `Translator.CreateQueryPlan` | cpp/code/include/Translator.hpp:322-335 | the sequential plan carries the plan id and the same linear items, which all carry it too |
| `Translator.LevelOf` | cpp/code/include/Translator.hpp:303-308 | one more than the highest level among the dependencies that have one, else 0 |
| `Translator.ComputeLevels` | cpp/code/include/Translator.hpp:299-311 | levels of all items in list order, and the highest level in use |
| `Translator.GroupByLevel` | cpp/code/include/Translator.hpp:299-319 | the groups are, level by level, the items of that level in list order |
| `Translator.CreateWorkItemsParallel` | cpp/code/include/Translator.hpp:292-320 | the parallel plan is the level grouping of the linear items of the same root, and the items of every batch carry the plan id |
| `WorkItems.LevelsAreTightBatching` | cpp/code/include/Translator.hpp:302-311 | every dependency has a strictly lower level, and every item sits just above its highest dependency |
| `WorkItems.LevelsAreLowest` | cpp/code/include/Translator.hpp:302-311 | no assignment of batches that respects dependencies puts any item into an earlier batch |
| `WorkItems.LevelIsLongestChain` | cpp/code/include/Translator.hpp:302-311 | an item's level is the length of its longest dependency chain: one of that length exists and none is longer |
| `WorkItems.FewestBatches` | cpp/code/include/Translator.hpp:302-319 | no assignment of batches that respects dependencies uses fewer batches |
| `WorkItems.BatchesAreLevels` | cpp/code/include/Translator.hpp:313-317 | a batch holds exactly the items of its level |
| `WorkItems.BatchIsInListOrder` | cpp/code/include/Translator.hpp:314-317 | a batch lists the items of its level in the order of the linear list |
| `WorkItems.NoEmptyBatch` | cpp/code/include/Translator.hpp:313-317 | no batch is empty |
| `WorkItems.DependenciesInEarlierBatches` | cpp/code/include/Translator.hpp:304-317 | a dependency lies in a strictly earlier batch, so no two items of one batch depend on each other |
| `WorkItems.BatchesPartition` | cpp/code/include/Translator.hpp:314-317 | the batches hold the linear items, each exactly as often as the list does |
| `Evaluation.ApplyIsEval` | cpp/code/include/Translator.hpp:129-138 | executing an item on its dependencies' values gives the value of recursively evaluating its node, for every operator semantics |
| `Evaluation.RunAgrees` | cpp/code/include/Translator.hpp:322-335 | executing items in any order that starts none too early yields for each its recursively evaluated value |
| `Evaluation.StartableGivesResult` | cpp/code/include/Translator.hpp:292-335 | every reordering of the linear items that starts none too early completes with the plan's result |
| `Evaluation.BatchedEqualsSequential` | cpp/code/include/Translator.hpp:292-335 | batches in order, with any order inside each batch, give the same values as the sequential plan, and both are those of recursive evaluation of the DAG |
| `DisjointSets.DSU.Add` | cpp/code/include/SQLToLogicalPlanTranslator/JoinTreeBuilder.hpp:30-30 | a new name becomes its own group; a known one changes nothing |
| `DisjointSets.DSU.Find` | cpp/code/include/SQLToLogicalPlanTranslator/JoinTreeBuilder.hpp:32-40 | answers the representative, or the empty string for an unknown name; keeps the forest and all representatives; makes exactly the walked path point at the root; ends by decreasing height |
| `DisjointSets.DSU.Unite` | cpp/code/include/SQLToLogicalPlanTranslator/JoinTreeBuilder.hpp:42-49 | true exactly when two different groups of known names were merged; the first argument's representative stays |
| `DisjointSets.UniteKeepsForest` | cpp/code/include/SQLToLogicalPlanTranslator/JoinTreeBuilder.hpp:47-47 | hanging one root under another keeps the parent map a forest with the merged representatives |
| `DisjointSets.CompressKeepsForest` | cpp/code/include/SQLToLogicalPlanTranslator/JoinTreeBuilder.hpp:39-39 | pointing a name at its representative keeps the forest and every representative |
| `DisjointSets.Execute` | cpp/code/include/SQLToLogicalPlanTranslator/JoinTreeBuilder.hpp:26-50 | every answer in a sequence of calls is the one of plain group bookkeeping without parent pointers |
| `Components.SameGroupIffLinked` | cpp/code/include/SQLToLogicalPlanTranslator/JoinTreeBuilder.hpp:30-49 | after any calls two added names have the same representative if and only if a chain of unite calls on added names links them |
| `Components.RepDescribesLinks` | cpp/code/include/SQLToLogicalPlanTranslator/JoinTreeBuilder.hpp:30-49 | representatives respect every link, and every name is linked to its representative |
| `Components.UniteMergesExactly` | cpp/code/include/SQLToLogicalPlanTranslator/JoinTreeBuilder.hpp:44-48 | a merging unite joins exactly the two groups, and every name of them gets the first argument's representative |
| `Components.MergesAreNamesMinusGroups` | cpp/code/include/SQLToLogicalPlanTranslator/JoinTreeBuilder.hpp:42-49 | the number of unite calls that return true is the number of names minus the number of connected components |
| `Components.MergesAreOrderIndependent` | cpp/code/include/SQLToLogicalPlanTranslator/JoinTreeBuilder.hpp:19-23 | two call sequences with the same names and links have equally many merging calls, whatever the order |
| `JoinTrees.PlaceComparison` | cpp/code/src/SQLToLogicalPlanTranslator/JoinTreeBuilder.cpp:245-277 | a predicate between two groups joins their subtrees, the first table's on the left, under the first group's representative; one inside a group becomes a filter |
| `JoinTrees.SidedAfter` | cpp/code/src/SQLToLogicalPlanTranslator/JoinTreeBuilder.cpp:264-270 | of every JOIN in every subtree the predicate's first table, if scanned, is on the left and its second on the right |
| `JoinTrees.BuildJoinTree` | cpp/code/src/SQLToLogicalPlanTranslator/JoinTreeBuilder.cpp:222-293 | throws exactly for an empty FROM or an unresolved table; otherwise the tree holds the FROM tables of the first table's group, every predicate of that group is in the tree or a filter, nothing else is, each JOIN has its predicate's first table on the left and its second on the right, filters plus merges make up all comparisons, and tree and filters are those whose shape and meaning `JoinShape.LeftDeepIff` and `JoinMeaning.MeaningKeptIff` state |
| `JoinTrees.BuildProgress` | cpp/code/src/SQLToLogicalPlanTranslator/JoinTreeBuilder.cpp:241-277 | after any predicates each group's subtree holds exactly the group's FROM tables, and every predicate sits in its group's subtree or among the filters |
| `JoinTrees.FiltersCount` | cpp/code/src/SQLToLogicalPlanTranslator/JoinTreeBuilder.cpp:256-262 | filters are exactly the comparisons that merged nothing |
| `JoinTrees.FinalTree` | cpp/code/src/SQLToLogicalPlanTranslator/JoinTreeBuilder.cpp:279-292 | the final look-up always finds a tree, so the internal error is never thrown |
| `JoinMeaning.SameGroupIffConnected` | cpp/code/src/SQLToLogicalPlanTranslator/JoinTreeBuilder.cpp:241-277 | two tables end up in one group if and only if the predicates connect them |
| `JoinMeaning.TreeCoversFirstComponent` | cpp/code/src/SQLToLogicalPlanTranslator/JoinTreeBuilder.cpp:279-292 | the returned tree scans exactly the FROM tables that the predicates connect with the first one |
| `JoinMeaning.FilterIffLinkedBefore` | cpp/code/src/SQLToLogicalPlanTranslator/JoinTreeBuilder.cpp:254-262 | a predicate becomes a filter if and only if, at one of its places in the list, the predicates before it already link its tables |
| `JoinMeaning.FiltersAreInOrder` | cpp/code/src/SQLToLogicalPlanTranslator/JoinTreeBuilder.cpp:257-262 | the filters are the predicates whose tables were linked before, each as often as it was and in the order of the predicates |
| `JoinMeaning.KeptMeansTheQuery` | cpp/code/src/SQLToLogicalPlanTranslator/JoinTreeBuilder.cpp:222-293 | under the condition of `JoinMeaning.MeaningKeptIff`, tree and filters select exactly the query's answers, for all data and all conditions |
| `JoinMeaning.CompleteIff` | cpp/code/src/SQLToLogicalPlanTranslator/JoinTreeBuilder.cpp:264-276 | the tree has no null child if and only if the predicates link the first table with FROM tables only |
| `JoinMeaning.IncompleteChangesMeaning` | cpp/code/src/SQLToLogicalPlanTranslator/JoinTreeBuilder.cpp:264-276 | a tree with a null child selects nothing, which the query does not mean |
| `JoinMeaning.MissingTableChangesMeaning` | cpp/code/src/SQLToLogicalPlanTranslator/JoinTreeBuilder.cpp:279-292 | a FROM table missing from the tree changes the meaning: that it is empty goes unnoticed |
| `JoinMeaning.DroppedPredicateChangesMeaning` | cpp/code/src/SQLToLogicalPlanTranslator/JoinTreeBuilder.cpp:279-292 | a predicate that is neither in the tree nor a filter changes the meaning: that it alone fails goes unnoticed |
| `JoinMeaning.CrossProductLosesTable` | cpp/code/src/SQLToLogicalPlanTranslator/JoinTreeBuilder.cpp:279-292 | FROM a, b without predicates: the built tree does not mean the query |
| `JoinMeaning.MeaningKeptIff` | cpp/code/src/SQLToLogicalPlanTranslator/JoinTreeBuilder.cpp:222-293 | for all FROM lists and predicates: tree and filters mean the query if and only if the predicates link all FROM tables with each other and with no other table, and every predicate about other tables becomes a filter |
| `JoinMeaning.ScannedKeptIffConnected` | cpp/code/src/SQLToLogicalPlanTranslator/JoinTreeBuilder.cpp:222-293 | for predicates about FROM tables that condition is: the predicates connect all FROM tables |
| `JoinMeaning.SplitIsOrderIndependent` | cpp/code/include/SQLToLogicalPlanTranslator/JoinTreeBuilder.hpp:19-23 | the same tables and predicates in any order give equally many JOINs and equally many filters |
| `JoinShape.LeftDeepIff` | cpp/code/src/SQLToLogicalPlanTranslator/JoinTreeBuilder.cpp:189-189 | for all FROM lists and predicates: the tree is left-deep if and only if every predicate of the first table's component that joins two groups has a second table linked to no other table by the predicates before it |
| `JoinShape.NotAlwaysLeftDeep` | cpp/code/src/SQLToLogicalPlanTranslator/JoinTreeBuilder.cpp:189-189 | FROM a, b, c with predicates a-b and then c-a: the tree is not left-deep |
| `JoinShape.ShapesAfter` | cpp/code/src/SQLToLogicalPlanTranslator/JoinTreeBuilder.cpp:241-277 | after any predicates each group's subtree is a JOIN iff the group has two names, and left-deep iff its predicates each added one table |
| `Wire.DigitOfLittleEndian` | cpp/code/include/TCPServer.hpp:50-60 | the i-th byte of a field is the i-th lowest digit to base 256 |
| `Wire.FieldsOfEncoding` | cpp/code/include/TCPServer.hpp:50-60 | where each field of the header stands, and the payload behind it |
| `Wire.DelimiterBytes` | python/msg.py:37-37 | the delimiter on the wire is B1 0B DB 5A |
| `Wire.ValueOfLittleEndian` | cpp/code/include/TCPServer.hpp:50-60 | reading a little-endian field gives back every number that fits its width |
| `Wire.LittleEndianOfValue` | cpp/code/include/TCPServer.hpp:50-60 | every field's bytes are the little-endian form of their value |
| `Wire.DecodeEncode` | cpp/code/include/TCPServer.hpp:50-60 | decoding undoes encoding for every message whose fields fit |
| `Wire.EncodeDecode` | cpp/code/include/TCPServer.hpp:50-60 | encoding undoes decoding for every frame that starts with the delimiter and has the size it names |
| `Wire.SerializeItemToMemory` | cpp/code/include/Utility.hpp:43-49 | caller memory holds the header with the payload's size modulo 4 GiB, the payload, then its old bytes; below 4 GiB that is the encoded message; the size is header plus payload |
| `Framing.BytesAreConserved` | cpp/code/src/Utility.cpp:125-163 | frames found and bytes held over make up the input, in order, and no whole frame is held over |
| `Framing.FramesIncremental` | cpp/code/src/Utility.cpp:125-163 | extracting held-over plus new bytes continues exactly where extraction of the stream so far stopped |
| `Framing.FramesAreEncodings` | cpp/code/include/Utility.hpp:43-49 | well-formed frames are exactly the encodings of messages |
| `Framing.FramesOfStream` | cpp/code/src/Utility.cpp:125-163 | of any received prefix of a stream the frames found are those whose last byte has arrived, and the rest is the received part of the next |
| `Framing.SpaceIffFramesFit` | cpp/code/src/TCPClient.cpp:126-127 | the space left is positive at every point of a stream if and only if every frame fits the receive area |
| `Receiver.CallsAreMessages` | cpp/code/src/Utility.cpp:137-140 | the callbacks for encoded messages get exactly the messages of registered types, header and payload, in order |
| `Receiver.WithTypeSelects` | cpp/code/src/Utility.cpp:138-140 | the messages of registered types are exactly those, each once and in order |
| `Receiver.ScanForDelimiter` | cpp/code/src/Utility.cpp:106-110 | stops at the first delimiter, or leaves the buffer exactly if there is none |
| `Receiver.SizeField` | cpp/code/src/Utility.cpp:119-125 | reading the size field before testing the remaining bytes never changes a decision: stale bytes after the received part do not matter |
| `Receiver.ConsumeFrames` | cpp/code/src/Utility.cpp:119-150 | one callback per whole frame of a registered type, ending at the first byte of the incomplete rest; depends only on the received bytes |
| `Receiver.MoveToFront` | cpp/code/src/Utility.cpp:156-157 | the ascending copy puts the old bytes at the front and leaves everything behind them, overlapping or not |
| `Receiver.ExtractItems` | cpp/code/src/Utility.cpp:101-164 | where the scan stops; if it does: callbacks for exactly the frames of the received bytes, the held-over bytes at the front, all other bytes of the buffer as before |
| `Sessions.PrefixIsClean` | cpp/code/src/Utility.cpp:106-107 | every prefix of a well-formed stream has a delimiter, as far as it goes, at the start of each frame |
| `Sessions.ChunkKeepsDelim` | cpp/code/src/Utility.cpp:106-112 | after a receive lands behind the held-over bytes the first four buffer bytes are the delimiter, even if only 1 to 3 bytes of the message are there |
| `Sessions.RestKeepsDelim` | cpp/code/src/Utility.cpp:156-163 | moving the held-over bytes to the front leaves the delimiter there, stale bytes completing it |
| `Sessions.Session.Receive` | cpp/code/src/TCPClient.cpp:126-141 | one receive: the callbacks so far are those of the stream so far and its rest is at the front; once four bytes have come the delimiter scan stops at offset 0; before that it stops iff the memory holds a delimiter |
| `Sessions.ZeroedScanStopsIff` | cpp/code/src/Utility.cpp:106-110 | in zeroed memory the delimiter scan stops if and only if at least four bytes of the stream have come |
| `Sessions.SpaceIsOffered` | cpp/code/src/TCPServer.cpp:48-53 | if every message fits, each receive is offered at least one byte, so the server's overflow guard stays idle |
| `Sessions.ListenLoop` | cpp/code/src/TCPClient.cpp:125-143 | for every script of receives the loop stops at the first one that brings no data and sets the abort flag, having taken exactly the bytes before, unless a delimiter scan leaves the buffer before that |
| `Sessions.ReceiverLoop` | cpp/code/src/TCPServer.cpp:47-69 | the server's receiver retries temporary failures; it marks the client aborted exactly on an orderly end or as soon as a frame that does not fit has filled the receive area; it takes exactly the bytes before; all receives before are data or temporary failures, and it ends at an orderly end, an error or a full area |
| `Sessions.ClientSession` | cpp/code/src/TCPClient.cpp:113-146 | for every well-formed stream and every cutting into receives that fit the space offered: the scan leaves the buffer if and only if the first receive brings 1 to 3 bytes; otherwise the callbacks saw exactly the frames whose last byte arrived, once, in order, and the held-over bytes are the received part of the next |
| `Sessions.ServerSession` | cpp/code/src/TCPServer.cpp:33-72 | the same for the server's receiver in memory with any contents: the scan can leave the buffer only within the first 3 bytes; the receiver stops early only when a frame does not fit; the client ends up aborted exactly if the area is full or the connection ended |
| `Sessions.MessagesDelivered` | cpp/code/src/TCPClient.cpp:113-146 | for a stream of encoded messages the callbacks saw exactly the messages of registered types that have arrived, in order |
| `PythonParser.ReadHeader` | python/msg.py:45-54 | raises exactly on a wrong delimiter or an unknown enum value, otherwise finds where the payload ends |
| `PythonParser.ParseFromBytes` | python/msg.py:40-68 | the generator loop yields exactly what the recursive parse of the bytes says, and raises where it does |
| `PythonParser.PartialHeader` | python/msg.py:44-56 | a frame of which only the first bytes are there raises exactly if fewer than 4 are or if they show an unknown enum value, and is otherwise found incomplete |
| `PythonParser.ShowsUnknownIff` | python/msg.py:48-50 | of the first n bytes of any message the parser sees an unknown enum value if and only if the bytes of an enum field that are there, read as a number, exceed the last known value |
| `PythonParser.UnknownIsShown` | python/msg.py:48-50 | an unknown unit type is seen from 8 bytes on, an unknown package type from 16 bytes on |
| `PythonParser.RaisesOnUnknownType` | python/msg.py:50-50 | 16 bytes of a message with package type 14 raise, although the message is incomplete |
| `PythonParser.KnownShowsNothing` | python/msg.py:48-50 | a frame with known enum values never shows an unknown one, however much of it is there |
| `PythonParser.ParseFramesThen` | python/msg.py:44-68 | parsing whole frames followed by anything yields the frames before the first with an unknown enum value and raises there, or yields all and parses the rest |
| `PythonParser.ParsePartial` | python/msg.py:44-68 | the incomplete rest yields one incomplete object, or raises if it is 1 to 3 bytes long or shows an unknown enum value |
| `PythonParser.ParseUndoesEncode` | python/msg.py:40-68 | parsing the concatenation of any messages with known enum values gives back those messages, complete and in order |
| `PythonClient.SizeOf` | python/msg.py:95-97 | the size of a message is header plus payload length, which is what dropping processed bytes relies on |
| `PythonClient.HandleMessages` | python/client.py:150-159 | counts the bytes of the complete messages before the first incomplete one and calls back those of registered types |
| `PythonClient.ReceiveMessages` | python/client.py:139-160 | the receive thread is turn-by-turn accumulate, parse, deliver, drop, until end of stream or an exception |
| `PythonClient.TurnOnStream` | python/client.py:145-160 | one turn delivers the whole frames, keeps the rest and drops exactly the delivered bytes, or dies where parsing raises, having delivered the frames before |
| `PythonClient.SessionOutcome` | python/client.py:139-160 | for every well-formed stream, every chunking and any number of empty receives after it: the thread dies if and only if some receive leaves 1 to 3 bytes of a message or shows an unknown enum value, having delivered exactly the messages before; otherwise each arrived message was delivered once, in order, the rest is kept, and the end is noticed if and only if nothing is kept |
| `PythonClient.SurvivesIffNoStub` | python/client.py:139-160 | for streams with known enum values: nothing raises if and only if no receive leaves 1 to 3 bytes of a message |
| `PythonClient.TurnAtEnd` | python/client.py:145-149 | an empty receive ends the thread if nothing is held over and otherwise changes nothing |
| `PythonClient.SpinsOnTruncatedStream` | python/client.py:144-149 | a peer that closes after 8 bytes of a header: after any number of empty receives the thread still runs with the same 8 bytes |
| `CompletionTracker.WorkCompletionTracker.MarkCompleted` | cpp/code/include/WorkCompletionTracker.h:22-28 | extends a legal history by a mark |
| `CompletionTracker.WorkCompletionTracker.WaitNextCompletions` | cpp/code/include/WorkCompletionTracker.h:30-48 | a released wait returns true and consumes all its ids, or returns false and consumes none exactly when the tracker is stopped; the history stays legal |
| `CompletionTracker.WorkCompletionTracker.Stop` | cpp/code/include/WorkCompletionTracker.h:50-56 | extends the history by a stop and changes no completion |
| `CompletionTracker.CompletedIffMarkedLast` | cpp/code/include/WorkCompletionTracker.h:22-48 | in every history the completed set is exactly the ids whose latest event is a mark rather than a successful wait |
| `CompletionTracker.WaitTakesFreshMarks` | cpp/code/include/WorkCompletionTracker.h:33-47 | a successful wait takes only ids marked since they were last taken |
| `CompletionTracker.WaitsNeverOutnumberMarks` | cpp/code/include/WorkCompletionTracker.h:22-48 | successful waits containing an id, plus a pending completion of it, never outnumber its marks |
| `CompletionTracker.NoWaitSucceedsAfterStop` | cpp/code/include/WorkCompletionTracker.h:33-56 | after stop no wait returns true |
| `CompletionTracker.WaitStaysEnabled` | cpp/code/include/WorkCompletionTracker.h:33-47 | a wait that can go on still can after any marks and any successful waits on other ids, until stop |
| `Dispatcher.StepKeepsInvariant` | cpp/code/src/optimizer/QueryManager.cpp:176-211 | every send, wait, execution, report and shutdown of any query keeps the invariant of all of them |
| `Dispatcher.RunKeepsInvariant` | cpp/code/src/optimizer/QueryManager.cpp:176-211 | the invariant holds after every run of any number of concurrent queries |
| `Dispatcher.NeverSentTooEarly` | cpp/code/src/optimizer/QueryManager.cpp:176-211 | under every interleaving an item is sent only after all its dependencies have been executed and marked completed |
| `Dispatcher.ValueIsEval` | cpp/code/src/optimizer/QueryManager.cpp:176-211 | whatever a query has executed has the value of recursive evaluation of its plan |
| `Dispatcher.FinishedQueryHasResult` | cpp/code/src/optimizer/QueryManager.cpp:176-211 | a query whose dispatcher went through all batches has the recursively evaluated value of every node of its plan whose id no other query of the same plan id uses |
| `Dispatcher.FirstBatchStartsWithFirstItem` | cpp/code/src/optimizer/QueryManager.cpp:179-179 | the plan id read from the first item of the first batch is that of the whole query |
| `Dispatcher.LinearIsPlan` | cpp/code/include/Translator.hpp:292-294 | the items made from an acyclic plan are well ordered and carry one plan id, the one drawn |
| `Dispatcher.ShutdownEndsWaits` | cpp/code/src/optimizer/QueryManager.cpp:206-209 | after a shutdown no wait succeeds, every waiting query gives up, and one that did sends nothing more |
| `Dispatcher.SharedDependencySentTooEarly` | cpp/code/src/optimizer/QueryManager.cpp:179-209 | if a query of the same plan id has an item on which an item of this query depends, some run that reports each item once sends the latter before the former was executed or reported: the wait takes the other query's completion |
| `Dispatcher.SafeIffDependenciesApart` | cpp/code/src/optimizer/QueryManager.cpp:176-211 | no run of the system sends an item too early if and only if no depended-on item id is shared with another query of the same plan id |
| `Dispatcher.DistinctPlanIdsAreSafe` | cpp/code/src/optimizer/QueryManager.cpp:176-211 | distinct plan ids are enough for that |
| `Dispatcher.CollidingPlanIdsAreUnsafe` | cpp/code/include/Translator.hpp:293-294 | a concrete pair of queries that drew the same plan id and can send too early |
| `Liveness.LiveIffIdsApart` | cpp/code/include/WorkCompletionTracker.h:22-48 | over all runs that report each item at most once and are not shut down: all queries can always still finish, if and only if every run that cannot go on has finished all queries, if and only if no two queries share plan id and item id |
| `Liveness.RunsAreBounded` | cpp/code/src/optimizer/QueryManager.cpp:176-211 | such runs have bounded length, whatever ids are shared |
| `Liveness.CollidingPlanIdsGetStuck` | cpp/code/include/Translator.hpp:293-294 | the concrete pair of queries that drew the same plan id can get stuck |
| `Liveness.StepKeepsLive` | cpp/code/src/optimizer/QueryManager.cpp:176-211 | with ids apart every step keeps each report in the tracker until the query's own wait takes it |
| `Liveness.ApartIsLive` | cpp/code/src/optimizer/QueryManager.cpp:176-211 | with ids apart all queries can finish after every run, even one that reported items twice, without a further repeated report |
| `Liveness.StuckIsFinished` | cpp/code/src/optimizer/QueryManager.cpp:176-211 | with ids apart a run that cannot go on has finished all queries |
| `Liveness.LoseCompletion` | cpp/code/include/WorkCompletionTracker.h:24-26 | two queries that share an id can both report it, each item being reported once, and leave one completion for both |
| `Liveness.SharedNeverFinishes` | cpp/code/include/WorkCompletionTracker.h:30-48 | from there no continuation with one report per item finishes all queries, and one of them gets stuck: a query waits forever |
| `Registry.InsertKeepsConsistent` | cpp/code/src/TCPServer.cpp:169-171 | inserting a client under an unused uuid keeps both indexes in agreement |
| `Registry.RemoveKeepsConsistent` | cpp/code/src/TCPServer.cpp:701-713 | removal by type and pointer keeps both indexes in agreement, whatever type and client are given |
| `Registry.RemovedIsGone` | cpp/code/src/TCPServer.cpp:701-713 | removal takes exactly that client out of both indexes |
| `Registry.RunKeepsServer` | cpp/code/src/TCPServer.cpp:136-174 | in every run of connects and removals the two indexes hold the same clients, once, under their own type and uuid |
| `Registry.InsertNeverOverwrites` | cpp/code/src/TCPServer.cpp:136-174 | a registration adds its client and overwrites no entry, although the lock is released between check and insertion |
| `TcpServer.TCPServer.Register` | cpp/code/src/TCPServer.cpp:127-174 | registers the client under the first uuid it offers that is free, all earlier ones being taken, or leaves everything as it was if every uuid offered is taken |
| `TcpServer.TCPServer.HasClients` | cpp/code/src/TCPServer.cpp:216-222 | true exactly when some type has a client |
| `TcpServer.TCPServer.RemoveClientOfType` | cpp/code/src/TCPServer.cpp:701-713 | takes the client out of both indexes and sets its abort flag; an unlisted client is left alone; a list for the type exists afterwards |
| `TcpServer.TCPServer.FindClient` | cpp/code/src/TCPServer.cpp:684-690 | finds a registered client with the handle if and only if there is one, and the first in key and list order |
| `TcpServer.TCPServer.RemoveClient` | cpp/code/src/TCPServer.cpp:681-693 | removes the first client with the handle in key and list order, and nothing exactly if there is none |
| `TcpServer.TCPServer.SendTo` | cpp/code/src/TCPServer.cpp:438-452 | delivers exactly if the client is not aborted and the socket takes the message; otherwise removes one client with its handle, which is the client itself if and only if no other with that handle comes before it |
| `TcpServer.TCPServer.SendToAnyOfType` | cpp/code/src/TCPServer.cpp:356-382 | ends for every pattern of failures, every random choice and any handles; at most one client receives the message; it ends undelivered only with the type's list empty or absent; whoever is removed has the handle of a failing or aborted client of the type, and is one itself under the exact condition of `Retries.OnlyBlamedIff` |
| `Retries.OnlyBlamedIff` | cpp/code/src/TCPServer.cpp:356-382 | whatever is tried and whatever fails, only failing or aborted clients of the type are removed if and only if every client that comes before one of the type on the same handle is an aborted client of the type |
| `Retries.LoseShadow` | cpp/code/src/TCPServer.cpp:438-449 | failing sends to a client remove every client on its handle that comes before it, though none of those was tried |
| `Retries.SharedHandleLosesOther` | cpp/code/src/TCPServer.cpp:684-690 | two live clients on one handle: retrying for the type of the second can remove the first |
| `Retries.TriesLose` | cpp/code/src/TCPServer.cpp:356-382 | after any tries exactly the clients removed are missing, and each has the handle of a failing or aborted client of the type |
| `Retries.FailedWereTried` | cpp/code/src/TCPServer.cpp:444-447 | only clients that were tried and whose socket did not take the message count as failed |
| `Retries.DistinctHasNoShadows` | cpp/code/src/TCPServer.cpp:684-690 | with distinct handles nobody comes before a client on its handle |
| `Retries.FirstIsUnique` | cpp/code/src/TCPServer.cpp:684-690 | of the clients with one handle only one comes first |
| `Retries.DistinctComesFirst` | cpp/code/src/TCPServer.cpp:684-690 | with distinct handles every client comes first, so a failed send removes the client itself |
| `Retries.SharedHandleShadows` | cpp/code/src/TCPServer.cpp:684-690 | two clients on one handle: the one of the lower type comes first, so a failed send to the other removes the wrong one |
| `Retries.LoseOne` | cpp/code/src/TCPServer.cpp:701-713 | a removal loses exactly one client and leaves the lists of types that lost none |
| `Retries.DistinctBlame` | cpp/code/src/TCPServer.cpp:356-382 | with distinct handles every removed client is of the type and was itself aborted or failed |
| `TcpServer.TCPServer.ClearType` | cpp/code/src/TCPServer.cpp:470-478 | one type's list becomes its clients that are not aborted, in order; the other lists stay |
| `TcpServer.LiveSelects` | cpp/code/src/TCPServer.cpp:470-478 | what is left of a list are exactly its clients that are not aborted, each once and in order |
| `TcpServer.TCPServer.ClearAborted` | cpp/code/src/TCPServer.cpp:466-482 | every list becomes its clients that are not aborted, in order, and the uuid index loses exactly the aborted ones |
| `TcpServer.ClearedClients` | cpp/code/src/TCPServer.cpp:466-482 | with both indexes in agreement, clearing the lists clears exactly the aborted clients of the uuid index |
| `KeyOrder.KeysAreInOrder` | cpp/code/src/TCPServer.cpp:250-250 | iteration meets every unit type once, in ascending order |
| `TcpServer.TCPServer.GetUuidForUnitType` | cpp/code/src/TCPServer.cpp:243-271 | each live client's name with its own uuid, in list order, for the type; or, when the type is undefined, one such stretch for every type, in ascending order of types |
| `TcpServer.PairsPairUp` | cpp/code/src/TCPServer.cpp:262-268 | the i-th pair is the i-th client's name and uuid |

## Left out

- Sockets, timeouts, threads, memory management and logging: foreign calls.
- Protobuf messages and their serialisation: a payload is an opaque byte string.
- Per-operator payloads and the enum mappings of cpp/code/include/Translator.hpp: each is settled by reading one branch.
- `sendToAll`, `sendToAllOfType`, `rerouteToAnyOfType` and the monitor output of the server: with failing sends the first three iterate over lists they change, or over stale copies.
- `closeConnection`: it empties one index only; the statements about the registry are for runs before it.
- Parsing, queueing and optimising queries, `buildJoinTreeFromOrder`, pushing the extra filters down, and the physical optimizer.
- Sequential queries (cpp/code/src/optimizer/QueryManager.cpp:162-174) that run next to parallel ones: they draw plan ids from the same generator; what their reports do to the tracker is not modelled.
- The example programs, argument parsing, plan printing and Graphviz output, and the Python benchmark plans: user interface and easy members.
- Sessions.ClientSession: for well-formed streams only; after a corrupt delimiter the source reads past its buffer or trusts arbitrary sizes.
- TcpServer.TCPServer.Register: a registration is one step here; that removals may come between its check and its insertion is in `Registry.InsertNeverOverwrites`. Failed sends and receives of the collision exchange end like an exhausted list of answers.
- Sessions.ReceiverLoop: an abort flag set by another thread in the middle is not modelled; it would only end the loop early. The same holds for `Sessions.ListenLoop`.
- TcpServer.TCPServer.ClearAborted: abort flags do not change during the call.
