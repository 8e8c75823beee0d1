# Verified models of a stateless model checker and its companions

The repository holds a model checker for C and C++ concurrency (under
`assignment3/model-checker`) with its own heap, and two bounded queues (under
`assignment2`). This project models the parts of them where a small data
structure, kept up to date step by step, has to agree with a simple
mathematical definition, and proves that it does.

| modules | what they model | main results |
|---|---|---|
| `Digraph`, `LinearOrders`, `CycleGraphSpec`, `CycleGraphRuns`, `CycleGraph` | the graph of modification-order constraints, with RMW chains, cycle search, transactions and rollback | the cycle flag is down exactly when a total order meets all requests; a rollback restores everything; the exact condition under which `addRMWEdge` misses no cycle |
| `ClockVectors`, `HappensBeforeSpec`, `HappensBefore` | clock vectors, with synchronization that is found late and then propagated | the clock test is reachability over program order, thread creation and synchronization, in every state |
| `RaceSpec`, `RaceReports`, `ShadowWord`, `RaceDetector`, `RacesInExecutions` | the lossy race detector on expanded records and on packed words | which pairs of accesses are reported, in terms of the trace; something is reported exactly when two accesses race; and, over executions, exactly when two conflicting accesses are unordered by happens-before |
| `TreeIndex`, `TreeTrie`, `TreeLinks`, `TreeBinsSpec`, `TreeSearch`, `BestFitSpec`, `LeftSpine`, `TreeInsert`, `TreeRings`, `TreeBins`, `BinMaps` | the bitwise tries of large free chunks in the allocator | insertion and removal keep the trie and change exactly one chunk; the sizes for which the bin index is right; the search is best fit exactly for those |
| `Tiling`, `HeapSpec`, `HeapPolicy`, `Heap` | malloc, free and realloc on one segment, on top of the tries | every run keeps the chunks gapless and disjoint, no two free neighbours, headers and footers right, every free chunk filed once; which chunk malloc takes, large ones of a size first in, first out, and what becomes of the rest and of the designated victim; when it fails; when realloc stays in place |
| `NonBlockingQueue`, `NonBlockingCalls`, `BlockingQueue`, `BlockingCalls`, `RingSlots` | both queues as steps of any number of threads | every step refines a bounded first-in first-out queue, and no slot has two owners; every call comes back only after it has added its own item or with the one it removed; the lock-free one keeps its bounds exactly for capacities other than 1 |
| `Snapshotter` | the copy-on-write snapshots | a rollback restores the memory of the snapshot on both of its paths, and earlier snapshots stay good |
| `ScSearch`, `ScOffers`, `ScAnalysis`, `OrdersInExecutions` | the backtracking search for a sequentially consistent order | it ends, its result interleaves all threads, it puts nothing before what it has seen, and it has a cycle only if all orders that may be chosen have one; which of these orders it is |
| `HashTableSpec`, `HashTableRuns`, `HashTable` | the hash table that most of the above use | after every sequence of puts it is the map of the last values; every search ends, exactly for capacities from 4 |
| `Collections` | options and sequences without duplicates | used by the others |

Where the source changes objects in place, a class with the same fields is proved
against a specification on values, and the results are proved about that
specification and the invariant `Valid()` of the class. The concurrent protocols
are state machines whose schedule is arbitrary.

Behaviour that a reader may not expect. Where code and comments disagree, the model
follows the code:

- The comment at `assignment3/model-checker/malloc.c:2894` gives each bin its
  smallest size. The macro for x86 keeps the shifted size in 32 bits at line 2825,
  so that sizes of a tebibyte and more can get a bin of small sizes
  (`IndexInBinIff`, `TebibyteMisfiled`). Requests of such a size may miss a chunk
  that fits (`MissedFit`).
- The comment at `assignment3/model-checker/cyclegraph.cc:260-265` says that the
  transfer of edges adds no cycle. That holds under the condition
  `TransferSafe`, which both of its cases imply, and not beyond
  (`FlagExactIffTransferSafe`, `UnsafeStepInexact`, `MissedCycleIsReachable`).
- A second reader on a packed word reports a race with the last write twice, once
  from the word and once from the record made of it
  (`assignment3/model-checker/datarace.cc:342-353`).
- `NonBlockingQueue` takes any capacity, but with capacity 1 it loses its bound
  (`BoundedIffTwo`).
- `HashTable` masks its indices, so that its capacity has to be a power of two. Below
  4 it can fill up, and a search for a key that is not there then never ends
  (`SearchesEndIff`).

`dafny verify dfyconfig.toml` checks the project.

## Model

| member | source | states |
|---|---|---|
| `Digraph.AddEdgeCyclic` | assignment3/model-checker/cyclegraph.cc:198-227 | One more edge makes a cycle exactly when its target already reached its source; this is what makes one search per new edge enough. |
| `Digraph.FanOutAcyclic` | assignment3/model-checker/cyclegraph.cc:266-272 | Edges passed on from a store to its RMW close no cycle when nothing they lead to gets back to the RMW. |
| `LinearOrders.OrderExists` | assignment3/model-checker/cyclegraph.cc:207-226 | An acyclic graph whose RMW pairs are chained has a total order of its nodes that respects all edges and keeps every pair adjacent. |
| `CycleGraphSpec.ChainForced` | assignment3/model-checker/cyclegraph.cc:207-219 | In every total order that meets the requests, what comes after a store comes after the whole chain of RMWs that read from it. |
| `CycleGraphSpec.AddNodeEdgeEdges` | assignment3/model-checker/cyclegraph.cc:198-227 | A new edge adds itself and one from the end of its source's RMW chain (unless the chain holds the target), and nothing else; vectors stay free of duplicates and mirrored. |
| `CycleGraphSpec.StillChained` | assignment3/model-checker/cyclegraph.cc:207-226 | The repeated edge is what keeps every successor of a store reachable from the store's RMW. |
| `CycleGraphSpec.AddEdgeConsistent` | assignment3/model-checker/cyclegraph.cc:294-303 | addEdge keeps the whole invariant, whatever the two nodes: the flag is exact, every edge is forced by the requests, RMW chains stay in one piece, everything requested is there. |
| `CycleGraphSpec.AddRMWEdgeSound` | assignment3/model-checker/cyclegraph.cc:242-275 | addRMWEdge with a fresh reader keeps all of the invariant but the exactness of the flag, whatever edges there are: forced edges, chains in one piece, everything requested there. |
| `CycleGraphSpec.AddRMWEdgeConsistent` | assignment3/model-checker/cyclegraph.cc:242-275 | The flag stays exact as well when no other successor of the store leads to the RMW. |
| `CycleGraphSpec.DocumentedCasesAreSafe` | assignment3/model-checker/cyclegraph.cc:260-265 | Each of the two cases named in the comment (the RMW has no incoming edges yet, or the store no outgoing ones) makes the transfer of edges safe. |
| `CycleGraphSpec.FlagExactIffTransferSafe` | assignment3/model-checker/cyclegraph.cc:242-275 | After addRMWEdge the flag is exact if and only if it was raised before, the store had an RMW already, or no other successor of the store leads to the RMW. |
| `CycleGraphSpec.MissedCycle` | assignment3/model-checker/cyclegraph.cc:242-275 | Outside that condition the transferred edges always close a cycle and the flag always misses it, as the transfer does not search. |
| `CycleGraphRuns.MissedCycleIsReachable` | assignment3/model-checker/cyclegraph.cc:242-275 | A run of three operations that ends there: with a store before another and that before a third, the third read atomically from the first leaves a cycle and the flag down. |
| `CycleGraphSpec.FlagDownIffOrderExists` | assignment3/model-checker/cyclegraph.cc:504-507 | The flag is down if and only if there is a total order of all nodes that meets every addEdge as `before` and every addRMWEdge as `immediately before`. |
| `CycleGraphSpec.NothingBetween` | assignment3/model-checker/cyclegraph.cc:207-226 | What follows a store follows the RMW that reads from it; without a cycle, nothing is ordered strictly between the two (29.3 paragraph 12 of ISO/IEC 14882:2011). |
| `CycleGraphRuns.NothingBetweenInRuns` | assignment3/model-checker/cyclegraph.cc:207-226 | Both hold after every run, whatever addRMWEdges it has made. |
| `CycleGraphRuns.UndoEdgesRestores` | assignment3/model-checker/cyclegraph.cc:490-493 | Popping one edge per entry of the rollback vector, front to back, gives back both edge vectors of every node, though the entries are replayed in the order of the additions. |
| `CycleGraphRuns.UndoRMWsRestores` | assignment3/model-checker/cyclegraph.cc:495-496 | Clearing the recorded RMW pointers gives back the pointers of the last commit. |
| `CycleGraphRuns.RollbackRestores` | assignment3/model-checker/cyclegraph.cc:490-501 | A rollback restores every edge vector, back-edge vector, RMW pointer and the flag as of the last commit; newer nodes stay, isolated. |
| `CycleGraphRuns.AddRMWEdgeExtends` | assignment3/model-checker/cyclegraph.cc:242-275 | addRMWEdge records all it adds, so that it can be undone. |
| `CycleGraphRuns.AddEdgeExtends` | assignment3/model-checker/cyclegraph.cc:294-303 | addEdge records all it adds, so that it can be undone. |
| `CycleGraphRuns.StepLawful` | assignment3/model-checker/cyclegraph.cc:474-501 | Every addEdge, commit and rollback, and every addRMWEdge with a fresh reader, keeps both the graph and the remembered last commit sound, and the way from the one to the other undoable. |
| `CycleGraphRuns.StepExact` | assignment3/model-checker/cyclegraph.cc:474-501 | The flag, now and after a rollback, stays exact under every operation except for one kind: an addRMWEdge keeps it exact if and only if it was raised, the store had an RMW already, or the transfer is safe. |
| `CycleGraphRuns.RollbackLawful` | assignment3/model-checker/cyclegraph.cc:490-501 | After a rollback the history is lawful again, the flag exact if it was at the commit, and the graph is the last commit with the new nodes isolated. |
| `CycleGraphRuns.EveryRunExact` | assignment3/model-checker/cyclegraph.cc:474-507 | After every run whose addRMWEdges each meet that condition, the flag is up exactly for a directed cycle or a second RMW of one store, and down exactly when a modification order exists. |
| `CycleGraphRuns.UnsafeStepInexact` | assignment3/model-checker/cyclegraph.cc:242-275 | The first addRMWEdge of a run that does not meet the condition leaves a cycle and the flag down, whatever the run before it. |
| `CycleGraph.CycleGraph.CheckReachable` | assignment3/model-checker/cyclegraph.cc:395-415 | The search with an explicit stack ends and finds the target if and only if there is a path. |
| `CycleGraph.CycleGraph.NodeAddEdge` | assignment3/model-checker/cyclegraph.cc:614-622 | Adds an edge and its back edge unless the edge is there; tells which. |
| `CycleGraph.CycleGraph.AddNodeEdge` | assignment3/model-checker/cyclegraph.cc:198-227 | The new graph is the specified one: edge, cycle check, and the walk down the RMW chain; the result tells whether the edge is new. |
| `CycleGraph.CycleGraph.FollowChain` | assignment3/model-checker/cyclegraph.cc:207-219 | The walk down the RMW chain ends, at the chain's last node or at the target, and adds the edge from there. |
| `CycleGraph.CycleGraph.AddEdge` | assignment3/model-checker/cyclegraph.cc:294-303 | Keeps the invariant of the class, and an exact flag exact; the new graph is the specified one. The result is true if and only if the requested edge was not there before. |
| `CycleGraph.CycleGraph.AddRMWEdge` | assignment3/model-checker/cyclegraph.cc:242-275 | Keeps the invariant of the class for every fresh reader; the new graph is the specified one; an exact flag stays exact if and only if it was raised, the store had an RMW already, or the transfer is safe. |
| `CycleGraph.CycleGraph.SetRMW` | assignment3/model-checker/cyclegraph.cc:636-642 | The pointer is set once; a second RMW leaves it alone and raises the flag. |
| `CycleGraph.CycleGraph.TransferEdges` | assignment3/model-checker/cyclegraph.cc:266-272 | The RMW gets every successor of the store but itself, each at most once, all of them recorded for rollback. |
| `CycleGraph.CycleGraph.CommitChanges` | assignment3/model-checker/cyclegraph.cc:482-487 | The present graph becomes the one to roll back to, and a new transaction may start (lines 474-479); an exact flag stays exact. |
| `CycleGraph.CycleGraph.RemoveEdge` | assignment3/model-checker/cyclegraph.cc:583-592 | Pops the newest edge and deletes its back edge. |
| `CycleGraph.CycleGraph.RollbackChanges` | assignment3/model-checker/cyclegraph.cc:490-501 | The graph is that of the last commit with the nodes made since isolated, the flag is exact if it was then, and a new transaction may start. |
| `CycleGraph.VectorRemove` | assignment3/model-checker/cyclegraph.cc:567-577 | Deletes the first occurrence only. |
| `CycleGraph.CycleGraph.CheckForCycles` | assignment3/model-checker/cyclegraph.cc:504-507 | While the flag is exact, the answer is yes if and only if no modification order meets the requests. |
| `RaceSpec.OrderedTransitive` | assignment3/model-checker/datarace.cc:71-75 | Under the laws of clocks, ordered-before is transitive along a trace. |
| `RaceSpec.SilentMeansOrdered` | assignment3/model-checker/datarace.cc:175-208 | If a step reports nothing, every earlier access that conflicts with it is ordered before it, including those the record has dropped. |
| `RaceSpec.ReportsAreRaces` | assignment3/model-checker/datarace.cc:256-312 | Every report names two accesses of the trace that conflict and are not ordered. |
| `RaceSpec.SilentIsRaceFree` | assignment3/model-checker/datarace.cc:175-312 | A trace without a report has no two conflicting unordered accesses. |
| `RaceSpec.ReportsIffRace` | assignment3/model-checker/datarace.cc:175-312 | For every trace that obeys the laws of clocks: something is reported if and only if two of its accesses race, though reads are dropped when subsumed and on every write. |
| `RaceReports.RecordIs` | assignment3/model-checker/datarace.cc:175-312 | Said of positions in a trace that obeys the laws of clocks: the record holds, in order, the reads since the last write that are ordered before no later read, and that write. |
| `RaceReports.ReportsExactly` | assignment3/model-checker/datarace.cc:175-312 | Each access reports, whatever was reported before it, just its races with the last write and, if it writes, with those reads: each once, reads first and in order. |
| `RaceReports.AllReportsExactly` | assignment3/model-checker/datarace.cc:175-312 | So the positions determine the whole list of reports: pair (i, k) is in it if and only if the accesses conflict, are not ordered, and i is the last write before k, or k writes and i is a read since then that is ordered before no read between them. |
| `RaceDetector.RaceRecord.CheckWrite` | assignment3/model-checker/datarace.cc:175-208 | Reports exactly the races of a write with the record, reads first, then the last write (which these are in the trace: `RaceReports.ReportsExactly`); the record then holds the write alone. |
| `RaceDetector.RaceRecord.CheckRead` | assignment3/model-checker/datarace.cc:256-312 | Reports exactly the race with the last write; the record keeps, in order, the reads the new one does not subsume, and the new one. |
| `RaceDetector.RaceRecord.Compact` | assignment3/model-checker/datarace.cc:272-292 | The in-place compaction keeps exactly the reads that are not subsumed, in their order. |
| `RaceDetector.Shadow.ExpandRecord` | assignment3/model-checker/datarace.cc:81-103 | The expanded record stands for the same last write and reads as the word did. |
| `RaceDetector.Shadow.RaceCheckWrite` | assignment3/model-checker/datarace.cc:211-253 | Word or record, the entry and the reported races are those of the plain detector on the same accesses. |
| `RaceDetector.Shadow.RaceCheckRead` | assignment3/model-checker/datarace.cc:315-358 | The same for reads, on the word, when it has to be expanded for a second reader, and on the record; only a second reader on a word repeats the report of a race with the last write. |
| `RaceDetector.Shadow.HaveRaces` | assignment3/model-checker/datarace.cc:175-358 | For every sequence of accesses to a location: something was reported if and only if two of them race. |
| `ShadowWord.OrIsSum` | assignment3/model-checker/datarace.h:86 | Or-ing the shifted fields of a 64-bit word gives the sum by which the word is modelled. |
| `ShadowWord.DecodeEncode` | assignment3/model-checker/datarace.h:69-86 | Within the limits of the fields, each of the four fields is read back as it was encoded, and the word is marked as packed. |
| `ShadowWord.PackWrite` | assignment3/model-checker/datarace.cc:223-252 | The word written for a write stands for the record that the plain detector would keep. |
| `ShadowWord.PackRead` | assignment3/model-checker/datarace.cc:347-357 | The word written for a read that subsumes the one before stands for the record that the plain detector would keep. |
| `HappensBefore.NewClockVector` | assignment3/model-checker/clockvector.cc:17-30 | The parent's clocks, with the action's own number for its thread; at least as long as both need. |
| `HappensBefore.Merge` | assignment3/model-checker/clockvector.cc:42-62 | Each clock is the larger of the two; the result tells whether a clock grew. |
| `HappensBefore.Execution.SynchronizedSince` | assignment3/model-checker/clockvector.cc:75-82 | Whether the action's number is within the vector's clock for its thread, 0 beyond the end of the vector. |
| `HappensBeforeSpec.ClockTestIsReach` | assignment3/model-checker/execution.cc:1165-1173 | In every state where the vectors are exact, the clock test between two actions holds if and only if there is a path of program order, thread creation and accepted synchronization between them (1.10 of ISO/IEC 14882:2011). |
| `HappensBeforeSpec.NextAction` | assignment3/model-checker/execution.cc:2359-2365 | A new action that inherits the vector of its thread's last action, or of the creating action, keeps the vectors exact. |
| `HappensBeforeSpec.FirstAction` | assignment3/model-checker/execution.cc:2359-2365 | So does one without a parent. |
| `HappensBeforeSpec.SynchronizeExact` | assignment3/model-checker/execution.cc:2127-2144 | Merging release heads into an action, however old, and propagating the vector to all that happens after it keeps the vectors exact. |
| `HappensBeforeSpec.PropagatedGrowing` | assignment3/model-checker/execution.cc:2134-2142 | After the propagation clocks grow along every edge again, also along edges between actions that were both updated. |
| `HappensBefore.Execution.NewAction` | assignment3/model-checker/execution.cc:1076-1102 | The new action gets the next number and an exact vector; older vectors stay. |
| `HappensBefore.Execution.SetCreation` | assignment3/model-checker/execution.cc:2359-2365 | The creating action becomes the parent of the thread's first action, if there is none yet; the parent of no other thread's next action changes. |
| `HappensBefore.Execution.Synchronize` | assignment3/model-checker/execution.cc:1165-1173 | Refused, with the flag set, if the second action comes first in the trace; otherwise the second vector becomes the merge of both. |
| `HappensBefore.Execution.PropagateClockvector` | assignment3/model-checker/execution.cc:2127-2144 | The walk back from the newest action merges the vector into exactly the actions that happen after the acquire. |
| `HappensBefore.Execution.SynchronizeLate` | assignment3/model-checker/execution.cc:2165-2189 | Every release head that comes before the acquire reaches it afterwards, no edge is added but from such a head to the acquire, vectors only grow and stay exact. The result tells whether the acquire had not yet seen one of these heads, and without such a head nothing changes; the flag is raised if and only if a head comes after the acquire. |
| `HappensBefore.Execution.SynchronizeCurrent` | assignment3/model-checker/action.cc:511-517 | Synchronization of the newest action adds exactly one edge and keeps the vectors exact. |
| `HappensBefore.Execution.HappensBefore` | assignment3/model-checker/action.cc:530-533 | True if and only if the second action can be reached from the first. |
| `RacesInExecutions.OrderedIsHappensBefore` | assignment3/model-checker/datarace.cc:71-75 | What the detector takes for ordered is happens-before in the execution: over later actions of the same thread, at the moment of the later access. |
| `RacesInExecutions.ExecutionsObeyClockLaws` | assignment3/model-checker/datarace.cc:71-75 | The accesses of every execution obey the laws of clocks that the detector relies on, even if vectors are updated late. |
| `RacesInExecutions.ReportsIffUnordered` | assignment3/model-checker/datarace.cc:175-312 | In every execution something is reported if and only if two conflicting accesses are not ordered by happens-before. |
| `TreeIndex.KeyTopBit` | assignment3/model-checker/malloc.c:2886-2892 | The sign bit of the size shifted left is the bit that the descent has to look at next. |
| `TreeIndex.BinPrefix` | assignment3/model-checker/malloc.c:2886-2897 | All sizes of a bin agree above the bit that the bin's shift brings to the top. |
| `TreeIndex.IndexInBin` | assignment3/model-checker/malloc.c:2821-2833 | For every size from 256 bytes up to a tebibyte, the index is that of the bin whose range (minsize of it to minsize of the next) holds the size. |
| `TreeIndex.IndexInBinIff` | assignment3/model-checker/malloc.c:2821-2833 | The index is right if and only if the size is below a tebibyte or its remainder by a tebibyte is at least the smallest size of the last bin (0xc0_0000). |
| `TreeIndex.IndexOfRemainder` | assignment3/model-checker/malloc.c:2821-2833 | A size gets the index of its remainder by a tebibyte, as the shifted size is kept in 32 bits. |
| `TreeIndex.TebibyteMisfiled` | assignment3/model-checker/malloc.c:2821-2833 | A chunk of exactly a tebibyte gets index 0, the bin of the smallest large chunks. |
| `TreeTrie.PathUsed` | assignment3/model-checker/malloc.c:3636-3662 | All places between a used place and its root are used, so that the descent by the bits of a size meets it. |
| `TreeTrie.SizeAbsent` | assignment3/model-checker/malloc.c:3636-3662 | A size that is at no used place of its path is nowhere in the bin: joining the ring of an equal size or hanging a new leaf is right. |
| `TreeTrie.ReplaceByLeaf` | assignment3/model-checker/malloc.c:3693-3740 | Any leaf below a place may take that place without breaking the prefix rule; an inner node might not. |
| `TreeTrie.LeftBelowRight` | assignment3/model-checker/malloc.c:4427-4432 | All sizes in a left subtree are below all sizes in the right one. |
| `TreeTrie.BinOrder` | assignment3/model-checker/malloc.c:4438-4446 | All sizes of a bin are below all sizes of the bins after it. |
| `TreeBinsSpec.StartBinKeeps` | assignment3/model-checker/malloc.c:3630-3637 | A first chunk of a bin keeps the invariant: trie, size rings, child and parent links, bin roots and map bits. |
| `TreeBinsSpec.HangKeeps` | assignment3/model-checker/malloc.c:3642-3651 | A new leaf keeps it. |
| `TreeBinsSpec.JoinKeeps` | assignment3/model-checker/malloc.c:3658-3665 | A chunk of a size that is there joins that ring behind its first chunk and keeps it. |
| `TreeBinsSpec.LeaveKeeps` | assignment3/model-checker/malloc.c:3696-3702 | A chunk that is not the first of its ring leaves and keeps it. |
| `TreeBinsSpec.LeaveFirstKeeps` | assignment3/model-checker/malloc.c:3696-3761 | The first chunk of a ring leaves, its place and tree links going to the ring's last chunk. |
| `TreeBinsSpec.DropKeeps` | assignment3/model-checker/malloc.c:3717-3733 | A leaf is cut off and keeps it. |
| `TreeBinsSpec.ReplaceKeeps` | assignment3/model-checker/malloc.c:3706-3761 | A chunk alone at an inner place leaves; the rightmost leaf below comes to its place with all its ring. |
| `TreeRings.RingsJoin` | assignment3/model-checker/malloc.c:3658-3665 | In terms of sizes: a chunk that joins a ring comes second in the list of its size, and the lists of all other sizes stay. |
| `TreeRings.RingsLeave` | assignment3/model-checker/malloc.c:3696-3702 | A chunk that leaves a ring is missing from the list of its size, which keeps its order; the lists of other sizes stay. |
| `TreeRings.RingsReplace` | assignment3/model-checker/malloc.c:3706-3761 | Moving a leaf with its ring to another place changes the list of no size but that of the chunk that left. |
| `TreeBins.Bins.Insert` | assignment3/model-checker/malloc.c:3625-3674 | For every size, the fields afterwards are those before with the computed index and the chunk linked where the descent by its bits ends: as the first of its bin, next in the ring of an equal size, or as a new leaf. If the index is right for the size, the invariant of all trees holds, the filed chunks are those before and this one, all places in use keep their sizes, and the ring of its size has it behind the first chunk or alone. |
| `TreeInsert.InsertedIsMet` | assignment3/model-checker/malloc.c:3376-3396 | Whatever the size, the heap checker's search, which takes the same index and bits, meets the chunk after it was inserted; for a wrong index (`IndexInBinIff`) it is the range check at lines 3287-3288 that fails. |
| `TreeBins.Bins.InsertDescent` | assignment3/model-checker/malloc.c:3638-3658 | The descent ends at a chunk of the same size or where the path has its first unused place. |
| `TreeBins.Bins.RightmostLeaf` | assignment3/model-checker/malloc.c:3707-3722 | The replacement is the leaf below the chunk that right children, where there are any, lead to, or there is none and the chunk is a leaf; the link to it is cut. |
| `TreeBins.Bins.Relink` | assignment3/model-checker/malloc.c:3723-3761 | What pointed to the chunk points to its replacement, which gets its children; an empty bin's bit is cleared. |
| `TreeBins.Bins.Unlink` | assignment3/model-checker/malloc.c:3693-3762 | The invariant of all trees holds afterwards, and the filed chunks are those before without this one; its ring goes on without it, in its order, and all other rings are as before. |
| `TreeBins.Bins.Find` | assignment3/model-checker/malloc.c:3376-3396 | The search of the heap checker finds a chunk if and only if it is filed. |
| `TreeSearch.PathStep` | assignment3/model-checker/malloc.c:4419-4436 | One step down the path of the request: nothing better than the best so far is lost, as the deepest right subtree not taken holds the smallest sizes above the path. |
| `TreeSearch.TurnAside` | assignment3/model-checker/malloc.c:4431-4433 | At the end of the path, what is not yet beaten is in the right subtree left aside last. |
| `TreeSearch.NextBinCovers` | assignment3/model-checker/malloc.c:4438-4446 | If nothing in the bin fits, the next bin in use holds the best fit. |
| `TreeSearch.LeftmostStep` | assignment3/model-checker/malloc.c:4448-4455 | Going to the leftmost child loses nothing better than the best so far. |
| `TreeBins.Bins.SearchPath` | assignment3/model-checker/malloc.c:4415-4437 | The first loop ends with the best fit of the path and a subtree that covers the rest. |
| `TreeBins.Bins.SearchLeftmost` | assignment3/model-checker/malloc.c:4448-4455 | The second loop ends with nothing better anywhere. |
| `TreeBins.Bins.BestFit` | assignment3/model-checker/malloc.c:4409-4462 | A chunk found fits, is smaller than a designated victim that fits, and is the first one of its size. If the index of the request is right, the chunk has the smallest size that fits of all filed chunks, and none is found only if none fits or the designated victim fits at least as well. If it is wrong, the outcome is decided by the last bin alone: a chunk is found if and only if the path of the request leaves nothing aside, the last bin is the next one in use, and its leftmost descent passes a size that fits and beats the designated victim; it then is the smallest that the descent passes. |
| `TreeBins.Bins.MissedFit` | assignment3/model-checker/malloc.c:4409-4462 | For every request that its index is wrong for, there are aligned chunks in the bins, with gaps between them in memory, of which one fits by less than a tebibyte too much, and the search finds none; so the search is best fit in all states if and only if the index is right. |
| `TreeBins.Bins.SmallestFit` | assignment3/model-checker/malloc.c:4480-4497 | For a small request: the smallest of all filed chunks, and the first one of its size. |
| `BinMaps.NextMarked` | assignment3/model-checker/malloc.c:2912-2918 | If the least of the left bits of the map is that of a bin, this is the first bin in use after the given one; without left bits there is none. |
| `BinMaps.LeastLeftIsNextBin` | assignment3/model-checker/malloc.c:2911-2918 | The least of the left bits of a 32-bit map is the bit of the bin that the search over the set of bins goes to next; there are no left bits exactly when that search finds none. |
| `BinMaps.LeastIsFirstBin` | assignment3/model-checker/malloc.c:2911-2912 | The least bit of the map is that of the first bin in use. |
| `Tiling.Disjoint` | assignment3/model-checker/malloc.c:3408-3424 | Chunks do not overlap. |
| `Tiling.EveryAddressInOneChunk` | assignment3/model-checker/malloc.c:3408-3424 | Every address from the base to the limit is in exactly one chunk. |
| `Tiling.LiveDetermines` | assignment3/model-checker/malloc.c:2142-2150 | The chunks in use determine the whole row: two rows of one segment with the same chunks in use, and no two free neighbours, are the same. |
| `Tiling.RecutRow` | assignment3/model-checker/malloc.c:3248-3256 | A stretch of free chunks, or of one chunk and its free neighbours, may be cut anew into one or two chunks, if a free one among them has neighbours in use; the row stays without gap, overlap or two free neighbours. |
| `Tiling.RecutTags` | assignment3/model-checker/malloc.c:3241-3261 | The header and footer writes of all these cuts are right: size, in-use bits of the chunk and of its left neighbour, and the footer of a free chunk. |
| `HeapSpec.NeighboursOf` | assignment3/model-checker/malloc.c:3241-3256 | Whatever the run: no two chunks overlap, no two neighbours are both free (counting designated victim and top), a chunk's pinuse bit tells whether its left neighbour is in use, and a free left neighbour's size is in prev_foot. |
| `HeapSpec.FiledOnce` | assignment3/model-checker/malloc.c:3408-3424 | Every free chunk is the designated victim or in exactly one bin, that of its size, and no other chunk is in a bin. |
| `HeapSpec.PayloadsApart` | assignment3/model-checker/malloc.c:2142-2150 | The payload of a chunk in use, its last word being the next chunk's prev_foot, overlaps no header and no other payload. |
| `HeapSpec.PayloadMayOverlap` | assignment3/model-checker/malloc.c:2142-2150 | Any value in the prev_foot word behind a chunk in use keeps the heap in order. |
| `HeapSpec.CoalesceOrderly` | assignment3/model-checker/malloc.c:5586-5680 | Merging a freed chunk with its free neighbours keeps the heap in order. |
| `HeapSpec.ResizeOrderly` | assignment3/model-checker/malloc.c:4786-4863 | Cutting a chunk in use anew, with its free right neighbour, keeps the heap in order. |
| `Heap.PadRequest` | assignment3/model-checker/malloc.c:2213-2217 | The next multiple of 8 with room for the header. |
| `Heap.RequestSize` | assignment3/model-checker/malloc.c:2219-2221 | Room for the request and the header, a multiple of 8, at least a chunk, and less than a chunk too large. |
| `Heap.Heap.constructor` | assignment3/model-checker/malloc.c:5374-5428 | A fresh segment, at any address and of any length, is one chunk in use for the allocator itself and the top chunk, in order; the invariant of the class holds if and only if the segment is shorter than a tebibyte. |
| `Heap.Heap.WriteLastWord` | assignment3/model-checker/malloc.c:2142-2150 | The program may write the last word of its payload: the heap stays in order. |
| `Heap.Heap.InsertChunk` | assignment3/model-checker/malloc.c:3547-3563 | A free chunk that is in no bin is put into the bin of its size, in front of a small bin and behind the first chunk of its size in a tree; the heap stays in order, and all other bins and the designated victim are as before. |
| `Heap.Heap.UnlinkChunk` | assignment3/model-checker/malloc.c:3566-3589 | A filed chunk is taken out of its bin, whose order stays; the heap stays in order, and all other bins and the designated victim are as before. |
| `Heap.Heap.ReplaceDv` | assignment3/model-checker/malloc.c:3611-3620 | The old designated victim, if any, is filed; the new chunk is the designated victim, with its size. |
| `Heap.Heap.UseDv` | assignment3/model-checker/malloc.c:5544-5562 | The designated victim serves the request, as a whole if less than a chunk would be left; what is left is the designated victim. |
| `Heap.Heap.SplitTop` | assignment3/model-checker/malloc.c:5564-5575 | The bottom of the top chunk serves the request, and the top starts behind it. |
| `Heap.Heap.UseSmall` | assignment3/model-checker/malloc.c:5499-5520 | The first chunk of the bin serves the request; a remainder of at least a chunk is then the designated victim, otherwise that is as before. |
| `Heap.Heap.UseSmallestLarge` | assignment3/model-checker/malloc.c:4480-4515 | The smallest large chunk serves a small request; a remainder of at least a chunk is then the designated victim, otherwise that is as before. |
| `Heap.Heap.UseLarge` | assignment3/model-checker/malloc.c:4409-4477 | The best fitting large chunk serves the request unless the designated victim fits as well; a remainder is filed. |
| `Heap.Heap.SmallFromBins` | assignment3/model-checker/malloc.c:5480-5528 | A small request is served from a bin by the smallest chunk that fits, the first of its bin, if the bins are to be preferred to the designated victim; what is left of it is the designated victim if it is a chunk, and the old one is then filed. Otherwise nothing changes. |
| `Heap.Heap.LargeFromBins` | assignment3/model-checker/malloc.c:5536-5542 | A large request is served by the first chunk of the best size unless the designated victim is to be preferred; what is left of it is filed, and the designated victim stays. Otherwise nothing changes. |
| `Heap.Heap.UseDvOrTop` | assignment3/model-checker/malloc.c:5544-5577 | What the bins do not serve is served by the designated victim if it fits, which keeps the rest, or else by the bottom of the top, which leaves the bins and the victim alone, or else by nothing. |
| `Heap.Heap.Malloc` | assignment3/model-checker/malloc.c:5472-5584 | Over every run the heap stays in order. Exactly one more chunk is in use, disjoint from all others and too large by less than a chunk, and it is the one that the policy names: the smallest filed chunk that fits, and the first of its bin, if that is preferred, else the designated victim, else the top. The bins and the designated victim afterwards are stated: a small request served from a bin leaves the rest as the victim, its own use shrinks the victim, and nothing else changes it. 0 is returned only if no free chunk and not the top fits, and then no field of the heap or of its trees has changed. Payloads are aligned. |
| `HeapPolicy.ServedVictim` | assignment3/model-checker/malloc.c:5512-5562 | Whatever the request: the designated victim changes only when a small request is served from a bin, to what is left of that chunk if it is one, and when it serves the request itself, to what is left of it or to none. |
| `HeapPolicy.AddedTurns` | assignment3/model-checker/malloc.c:3547-3563 | A chunk that is filed gets the first turn of a small bin, and the last one of its size in a tree bin: large chunks of equal size are used first in, first out (as lines 2344-2345 say), and small ones last in, first out (lines 152-158). No other bin or size is affected. |
| `HeapPolicy.TakenTurns` | assignment3/model-checker/malloc.c:3566-3589 | Whichever chunk is taken out, also the first of a ring, whose place goes to the ring's last chunk, the others keep their turns. |
| `HeapPolicy.FirstHasTurn` | assignment3/model-checker/malloc.c:3592-3609 | The chunk that the searches find in a bin is the one whose turn it is. |
| `HeapPolicy.TakingUndoesAdding` | assignment3/model-checker/malloc.c:3547-3589 | Filing a chunk and taking it out again leaves every bin as it was, in its order. |
| `HeapSpec.SmallBinChosen` | assignment3/model-checker/malloc.c:5480-5520 | The first small bin in use from the request's own on holds the smallest filed chunks that fit. |
| `HeapSpec.LargeChosen` | assignment3/model-checker/malloc.c:4409-4477 | Without a small chunk that fits, the best large one is the best of all filed chunks. |
| `Heap.Heap.FreeForward` | assignment3/model-checker/malloc.c:5600-5660 | Merging with what comes after: a chunk in use, the top, the designated victim or a filed free chunk. |
| `Heap.Heap.DisposeChunk` | assignment3/model-checker/malloc.c:4338-4404 | A chunk is in use no more and has been merged with the free chunks on both sides; the heap is in order. |
| `Heap.Heap.Free` | assignment3/model-checker/malloc.c:5586-5685 | Exactly this chunk is in use no more, and the heap is in order: no free neighbours, filed once, headers right. The bins afterwards are stated: free neighbours have left theirs, and the merged chunk is filed unless it is the designated victim or part of the top. The victim takes in the freed chunk and its neighbours if it is one of them, is gone if they become part of the top, and otherwise stays. Null is ignored. |
| `HeapPolicy.FreedVictim` | assignment3/model-checker/malloc.c:5600-5660 | What becomes of the designated victim, whatever bins are involved: it takes in a freed stretch that it is part of or next to, unless the top does, and otherwise stays. |
| `Heap.Heap.TryRealloc` | assignment3/model-checker/malloc.c:4786-4863 | Succeeds if and only if there is room in place; then only this chunk has changed, to the new size or less than a chunk more, and what is left is freed or, out of the designated victim, is the victim. Otherwise no field of the heap or of its trees has changed. |
| `Heap.Heap.Realloc` | assignment3/model-checker/malloc.c:5707-5752 | The chunk stays where it is if and only if there is room; otherwise it is replaced by a new one with room, the one that malloc would choose, and freed, or no field of the heap or of its trees changes because nothing fits. All other chunks in use are as before, and the bins and the designated victim are stated in each case. |
| `NonBlockingQueue.InitInv` | assignment2/noblocking_queue.hpp:41-47 | The initial seq numbers, slot i holding i, meet the invariant for every capacity from 2 on. |
| `NonBlockingQueue.ClaimTail` | assignment2/noblocking_queue.hpp:49-68 | After a thread's swap of tail it owns the position, and alone has its slot, whatever round the other threads are in; the invariant is kept. |
| `NonBlockingQueue.SlotsHaveOneOwner` | assignment2/noblocking_queue.hpp:41-88 | Two threads between their swap and their store of seq never have the same slot, be they adders or removers, of the same position or of positions whole rounds apart. |
| `NonBlockingQueue.ClaimHead` | assignment2/noblocking_queue.hpp:70-88 | The same for removers and head. |
| `NonBlockingQueue.StepInv` | assignment2/noblocking_queue.hpp:41-88 | Every load, swap and store of every thread keeps the invariant; weak swaps may fail for no reason. |
| `NonBlockingQueue.StepRefinesQueue` | assignment2/noblocking_queue.hpp:41-88 | Every step is a step of a bounded first-in first-out queue or leaves it alone: swaps of tail append, swaps of head take the first. |
| `NonBlockingQueue.EveryRunIsFifo` | assignment2/noblocking_queue.hpp:41-88 | For any number of threads and every schedule: head <= tail <= head + capacity, the value returned for a position is the one added there, every position passed by head has been returned or is with one thread, no position is returned twice, and no slot has two owners, adders or removers. What each call adds or returns is stated by `NonBlockingCalls.EveryCallIsServed`. |
| `NonBlockingQueue.ReturnsOnce` | assignment2/noblocking_queue.hpp:70-88 | A step that returns a value returns the one added at a position that no step has returned before; no other step returns anything. |
| `NonBlockingQueue.AddBlockedIff` | assignment2/noblocking_queue.hpp:49-68 | An adder finds its slot taken if and only if the queue is full or the value there is still being removed. |
| `NonBlockingQueue.RemoveBlockedIff` | assignment2/noblocking_queue.hpp:70-88 | A remover finds nothing if and only if the queue is empty or its first value is still being added. |
| `NonBlockingQueue.BoundedIffTwo` | assignment2/noblocking_queue.hpp:41-88 | The bounds hold in every run if and only if the capacity is not 1: with one slot, `taken` and `free for the next round` are the same seq number. |
| `NonBlockingCalls.StepObeys` | assignment2/noblocking_queue.hpp:49-88 | What a thread shows of a step (a call begins, tail or head is swapped, a call ends) obeys the law of calls: one swap between begin and end, of tail for the item the call began with, of head for the item it ends with. |
| `NonBlockingCalls.EveryCallIsServed` | assignment2/noblocking_queue.hpp:49-88 | In every run, the events of every thread are calls one after the other, each a begin, one swap and an end: an add ends only after its own item was logged at the position it swapped tail from, a remove only with the item logged at the position it swapped head from. No call is lost, doubled, or comes back without its swap. |
| `NonBlockingCalls.AddGetsThrough` | assignment2/noblocking_queue.hpp:49-68 | From any state in which the slot of tail is free, an adder that runs on its own is back within seven steps, with its item added. |
| `NonBlockingCalls.RemoveGetsThrough` | assignment2/noblocking_queue.hpp:70-88 | The same for a remover when the slot of head is filled; it returns that slot's value. |
| `NonBlockingCalls.SwappedGetsThrough` | assignment2/noblocking_queue.hpp:57-86 | After its swap, a thread on its own ends its call within two steps. |
| `BlockingQueue.StepLocks` | assignment2/blocking_queue.hpp:29-54 | A thread takes only a free lock and gives back only its own. |
| `BlockingQueue.StoreStep` | assignment2/blocking_queue.hpp:35 | The item goes to a slot that holds none of the queued items, although removers run at the same time. |
| `BlockingQueue.LoadStep` | assignment2/blocking_queue.hpp:48 | The item loaded is the oldest one that was not removed. |
| `BlockingQueue.StepInv` | assignment2/blocking_queue.hpp:29-54 | Every access of every thread keeps the invariant, for every capacity, and also if waiting threads wake up for no reason. |
| `BlockingQueue.StepRefinesQueue` | assignment2/blocking_queue.hpp:29-54 | Every step is a step of a bounded first-in first-out queue or leaves it alone: increments of the size append, decrements take the first. What the thread returns is stated by `BlockingCalls.EveryCallIsServed` and `BlockingCalls.ReturnedAreRemoved`. |
| `BlockingQueue.EveryRunIsFifo` | assignment2/blocking_queue.hpp:29-54 | For any number of threads and every schedule: the values removed are the first of those added, in order, 0 <= size <= capacity, at most one thread writes and one reads, and never the same slot at once. |
| `BlockingCalls.EveryCallIsServed` | assignment2/blocking_queue.hpp:29-54 | In every run, the events of every thread are calls one after the other: an add ends only after it has counted its own item up, a remove only with the item that it has counted down; no call comes back without. |
| `BlockingCalls.ReturnedAreRemoved` | assignment2/blocking_queue.hpp:40-54 | In every run the values that calls return, in the order in which the head lock is given back, followed by the one that its owner has still to return, are the items removed. |
| `BlockingCalls.GetsThrough` | assignment2/blocking_queue.hpp:29-54 | A call that has to wait neither for its lock nor for the size comes to its end, on its own, in at most six steps. |
| `BlockingCalls.MayGoUnless` | assignment2/blocking_queue.hpp:29-54 | In every run a thread has to wait only if its lock is taken, or the queue is full for an adder or empty for a remover. |
| `Snapshotter.RestoredInParts` | assignment3/model-checker/snapshot.cc:238-243 | Records from a later snapshot on matter only for pages without an earlier record since the snapshot restored. |
| `Snapshotter.FaultSound` | assignment3/model-checker/snapshot.cc:106-132 | Saving a protected page and opening it keeps every snapshot restorable. |
| `Snapshotter.WriteSound` | assignment3/model-checker/snapshot.cc:106-132 | Writing an opened page keeps every snapshot restorable. |
| `Snapshotter.FastSound` | assignment3/model-checker/snapshot.cc:221-226 | The fast path keeps its records and open pages; the last snapshot and all earlier ones stay restorable. |
| `Snapshotter.BackSound` | assignment3/model-checker/snapshot.cc:238-246 | The general path drops the records since the snapshot; all earlier ones stay restorable. |
| `Snapshotter.Snapshots.Write` | assignment3/model-checker/snapshot.cc:106-132 | The page is written, after it was saved and opened if it was protected, no other page is saved or opened, and all snapshots stay good; or the backing store is full and nothing has changed. |
| `Snapshotter.Snapshots.HandleFault` | assignment3/model-checker/snapshot.cc:106-132 | Appends the page to the backing store and opens it, unless the store is full. |
| `Snapshotter.Snapshots.TakeSnapshot` | assignment3/model-checker/snapshot.cc:200-217 | The memory of this moment can be restored from now on; all pages are protected, and no record is added. |
| `Snapshotter.Snapshots.CopyAll` | assignment3/model-checker/snapshot.cc:221-226 | Copying every record since the snapshot back, in order, restores it, as no page is there twice. |
| `Snapshotter.Snapshots.CopyEarliest` | assignment3/model-checker/snapshot.cc:238-243 | Copying back only the first record of each page restores the snapshot. |
| `Snapshotter.Snapshots.RollBack` | assignment3/model-checker/snapshot.cc:219-247 | On both paths memory is what it was when the snapshot was taken, the snapshots up to it stay good, and the later ones are gone. The fast path (to the last snapshot) keeps all records and open pages; the general one drops the records made since the snapshot and protects every page. |
| `ScSearch.SomethingIsNext` | assignment3/model-checker/scanalysis.cc:149-206 | As long as a thread has an action left, there is a next action: of the remaining ones, that with the smallest number is not blocked by happens-before. |
| `OrdersInExecutions.ExecutionsAreForward` | assignment3/model-checker/scanalysis.cc:149-206 | What that rests on holds in every execution with exact clock vectors: of two listed actions of different threads, the one that the vectors put first has the smaller number. |
| `ScOffers.NextActionsAreOffers` | assignment3/model-checker/scanalysis.cc:149-206 | Said of actions alone: an action is offered if and only if it is the first left of its thread and its vector has seen the first left of no other thread; where that holds for no action, the same by the vectors of the execution. The offers come in the order of their threads. |
| `ScOffers.OneList` | assignment3/model-checker/scanalysis.cc:149-206 | That description fits one list only. |
| `ScOffers.PossibleIff` | assignment3/model-checker/scanalysis.cc:266-288 | The orders that the search may run through are those in which each action was on offer after those before it, and was the pruned one where pruning picked one. |
| `ScOffers.SeenComeFirst` | assignment3/model-checker/scanalysis.cc:149-206 | If the vectors of the analysis are nowhere below those of the execution and numbers grow in each list, no such order puts an action before one of another thread that its clock vector has seen. |
| `ScSearch.ThreadListsSplit` | assignment3/model-checker/scanalysis.cc:319-333 | List t holds exactly the actions of thread t in the order of the trace. |
| `ScSearch.TakenInOrder` | assignment3/model-checker/scanalysis.cc:279-281 | What has been taken of a thread is the beginning of its list, in order. |
| `ScSearch.CompleteInterleaves` | assignment3/model-checker/scanalysis.cc:255-317 | An order that ends with nothing next interleaves the complete lists of all threads. |
| `ScSearch.AheadStep` | assignment3/model-checker/scanalysis.cc:268-288 | Taking the first option of a new choice skips no order without a cycle. |
| `ScSearch.AheadAfterCycle` | assignment3/model-checker/scanalysis.cc:293-308 | Nor does the next option at the last choice that has one, after a cycle. |
| `ScSearch.NothingAhead` | assignment3/model-checker/scanalysis.cc:293-308 | If a cycle is found with no option left, every order that the search may run through has a cycle. |
| `ScSearch.RankGrows` | assignment3/model-checker/scanalysis.cc:299-303 | The choices after a rollback are a larger number, whatever came after the one that was raised. |
| `ScSearch.RollbackProgress` | assignment3/model-checker/scanalysis.cc:299-308 | After a rollback no order without a cycle has been skipped, and the number of the choices has grown. |
| `ScOffers.WhatIsFound` | assignment3/model-checker/scanalysis.cc:255-317 | Which order the search ends with: of all complete orders without a cycle the one that takes the lowest thread where they first differ or, if there is none, the one to fall back on. |
| `ScAnalysis.Analysis.BuildVectors` | assignment3/model-checker/scanalysis.cc:319-333 | The trace, split by threads. |
| `ScAnalysis.Analysis.GetNextActions` | assignment3/model-checker/scanalysis.cc:149-206 | The count and the front of the array are what may be taken next: just the actions that are first left of their thread and have seen no other such action, by the vectors of the analysis or, if these leave nothing, by those of the execution; in the order of their threads. |
| `ScAnalysis.Analysis.TakeNext` | assignment3/model-checker/scanalysis.cc:268-288 | The action taken is the only one, the pruned one, the one chosen before the rollback, or the first option; lastchoice is the last choice with another option. |
| `ScAnalysis.Analysis.GenerateSC` | assignment3/model-checker/scanalysis.cc:255-317 | The search ends. Its result interleaves the action lists of all threads, and it has a cycle if and only if every order that the search may run through has one. Every action was on offer when it was taken, and the pruned one if pruning picked one. If the vectors of the analysis are nowhere below those of the execution, no action comes before one of another thread that it has seen. Without a cycle the result is the first such order by the threads taken; with one, it takes the highest threads up to the first cycle and the lowest from there on. |
| `HashTableSpec.SomeSlotIsEmpty` | assignment3/model-checker/hashtable.h:107-108 | A table with more slots than keys has an empty slot. |
| `HashTableSpec.SearchEnds` | assignment3/model-checker/hashtable.h:113-121 | A search that has seen no empty slot has not gone all the way round. |
| `HashTableSpec.KeyAbsent` | assignment3/model-checker/hashtable.h:140-147 | A search that meets an empty slot before its key is right to give up. |
| `HashTableSpec.InsertSound` | assignment3/model-checker/hashtable.h:113-126 | A new key at the end of its search keeps every other key findable, and the map gets just this key and value. |
| `HashTableRuns.MaskIsRemainder` | assignment3/model-checker/hashtable.h:114 | For a power of two, the index cut by the mask is the remainder by the capacity. |
| `HashTableRuns.RehashSound` | assignment3/model-checker/hashtable.h:194-208 | Moving slots, empty ones included, to a larger table keeps what was moved findable. |
| `HashTableRuns.PutGood` | assignment3/model-checker/hashtable.h:103-126 | A put sets one key and keeps all others and the load bound, whether the table grows or not. |
| `HashTableRuns.PutsGood` | assignment3/model-checker/hashtable.h:103-126 | After every sequence of puts into a table of at least three slots, however often it has grown, the table stands for the last value of each key. |
| `HashTableRuns.SearchesEndIff` | assignment3/model-checker/hashtable.h:107-126 | With the load factor 0.5 and a power of two as capacity: in all tables that puts lead to from the empty one, the search for every key ends, if and only if the capacity is at least 4. Below, for every hash function, as many different puts as there are slots lead to a table in which the search for another key goes round for ever. |
| `HashTable.HashTable.constructor` | assignment3/model-checker/hashtable.h:56-65 | A table of empty slots for every capacity; it is ready for use, as an empty map, if and only if the capacity is a power of two from 4 on. |
| `HashTable.HashTable.Probe` | assignment3/model-checker/hashtable.h:112-121 | The loop ends at the first slot of the key's way that holds the key or is empty; the mask takes it round the end of the table. |
| `HashTable.HashTable.Put` | assignment3/model-checker/hashtable.h:103-126 | The table is the same map with this key set to this value, whether it had to grow or not, and slot by slot the one specified. |
| `HashTable.HashTable.Get` | assignment3/model-checker/hashtable.h:133-148 | The value that the key was put with last, or 0. |
| `HashTable.HashTable.Contains` | assignment3/model-checker/hashtable.h:155-170 | True if and only if the key was put. |
| `HashTable.HashTable.Reset` | assignment3/model-checker/hashtable.h:93-96 | The empty map. |
| `HashTable.HashTable.CopyBin` | assignment3/model-checker/hashtable.h:194-208 | The entry goes to the first empty slot of its way in the new table. |
| `HashTable.HashTable.CopyBins` | assignment3/model-checker/hashtable.h:191-208 | All slots of the old table are moved, in order, as specified. |
| `HashTable.HashTable.Resize` | assignment3/model-checker/hashtable.h:176-211 | The same map in a larger table with the new mask and threshold. |

## Left out

- CycleGraph.CycleGraph.AddRMWEdge: requires a fresh reader, one that has no RMW and reads from no other store: the source asserts the one (line 251), and an RMW reads once; what the flag is worth without `TransferSafe` is part of the contract.
- TreeBins.Bins.BestFit: for a request that its index is wrong for, the result need not be the best fit; the contract says what it is.
- Heap.Heap.constructor: on a segment of a tebibyte or more, at whatever address, the heap is in order at the start, but operations are specified for shorter ones only, in which every chunk is filed in the bin of its size (`IndexInBinIff`).
- TreeBins.Bins.Insert: after the insertion of a chunk that its index is wrong for, what the fields are is stated, and later operations on such trees are not specified.
- RaceDetector.Shadow.RaceCheckRead: the repeated report of a second reader is part of the contract, not left out of the reports.
- The nodes of the cycle graph and the chunks of the heap are keys and addresses, and each field of such an object is a map; that two pointers may be the same object is then equality of keys, and writing through a wrong pointer is not modelled.
- CycleGraph: `resolvePromise`, `mergeNodes` and `checkPromise`, which are documented as not reversible; the shared `discovered` and `queue` are local to the search.
- RaceDetector: the shadow table that maps addresses to entries, the capacity of a record's arrays, what a report prints, and races that are held back until the execution is known to be feasible.
- HappensBefore: clock vectors are sequences and action numbers are positions in the trace plus one; uninitialized actions with number 0, promises, and which release heads are found are not modelled (any list of heads may be found, at any time).
- Heap: further segments, directly mapped chunks, footers, trimming, aligned allocation, calloc, locks and `sys_alloc`, which fails; payloads and the copy in realloc; header words are records of a size and two flags, and the small bins are sequences in the order of their rings.
- TreeBins: the tree map is a set of bin numbers; that the bit tricks on a 32-bit word pick the same bin is stated by `BinMaps.LeastLeftIsNextBin`. Corruption checks are taken to succeed.
- NonBlockingQueue: weak memory orders, wrap-around of positions at the width of a word, and the backoff.
- BlockingQueue: weak memory orders and liveness; a waiting thread may wake up at any time, so that notifications do not matter.
- Snapshotter: memory regions added after the first snapshot, page addresses, and the process exit on a full backing store, which is a result that changes nothing.
- ScAnalysis: `computeCV`, `updateConstraints` and the choice made by `pruneArray` are arbitrary functions of the actions chosen so far, so that the results hold for all of them; that only `computeCV` finds a new cycle is taken from the assertion at `assignment3/model-checker/scanalysis.cc:203`.
- HashTable.HashTable.constructor: operations are specified for powers of two from 4 on; `SearchesEndIff` says what happens below.
- HashTable: capacities that are not powers of two, for which the mask does not reach all slots; the shift of the key is an arbitrary hash function, and its cut to 32 bits drops nothing that the mask keeps; the load factor is its default; wrap-around of the capacity and failing allocation.
- The sieve and the philosophers under `assignment1`, and the list, counter and deadlock variants beside them, are not modelled.
- Scheduling, fairness, promises and backtracking of the model checker, the fence inference, printing and option parsing.
