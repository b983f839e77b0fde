# Verified models of the C projects

A Dafny model of the parts of this repository that are hard to get right: the
strongly connected components of a directed graph, breadth-first shortest paths,
sparse matrix algebra, the cursor-based list beneath them, the reader-writer lock,
the bounded queue, and the table of URI locks of the HTTP server.  `dafny verify
dfyconfig.toml` checks everything.

What updates fields and arrays in C is a class here, with the same loops and
branches; loop bodies are often methods of their own.  Each such method is proved
against functions and predicates on values, and the theorems are lemmas about those.
Code that several threads run at once is a transition system over an unbounded set
of threads, whose steps are made of the same functions as the classes.

| part | files |
|---|---|
| list | `Lists`, `ListArrays`, `SortedLists` |
| depth-first search and components | `Digraphs`, `DfsModel`, `Forests`, `Stamps`, `Scc`, `DfsOrder`, `ArcCounts`, `GraphSort`, `GraphDfs`, `FindComponents` |
| breadth-first search | `ShortestPaths`, `BfsQueue`, `GraphBfs` |
| matrices | `Sums`, `SparseRows`, `RowMerges`, `SparseMatrices`, `EntryLists`, `Matrices`, `MatrixOps`, `MatrixArithmetic`, `MatrixProducts`, `MatrixEquality` |
| lock, table, queue | `RwLock`, `RwEntry`, `RwFairness`, `UriTable`, `UriLocks`, `UriSafety`, `UriRuns`, `BoundedQueue`, `QueueCalls` |

Main results, in one line each:

- `FindComponents.FindComponents`: the printed lists are the strongly connected components, in topological order, and in which order their vertices come.
- `Forests.WhitePathTheorem`, `Forests.NestedIffDescends`, `Stamps.StampsAreABijection`: the white-path and parenthesis theorems, and the stamps.
- `UriSafety.UriExclusion`, `UriSafety.AllCanFinish`: per-URI exclusion over table and locks together, and that every reachable state can be brought to rest.
- `UriRuns.ReaderGetsUriIff`, `UriRuns.WriterGetsUriIff`, `UriRuns.SlotPassesAtMostTwo`: exactly who is let in to a URI, and who may pass whom.
- `RwLock.StepKeepsInv`, `RwEntry.ReaderEntersIff`, `RwFairness.TwoSidedIff`: safety of the lock under three policies, who gets in, and exactly which policies protect both sides.
- `QueueCalls.Linearizable`, `BoundedQueue.RunRefines`: all interleavings of calls are linearizable to an atomic bounded queue.
- `GraphBfs.Graph.Bfs`, `GraphBfs.PathFound`, `BfsQueue.ParentsAreDetermined`: least distances, shortest paths out of the parents, and which ones.
- `MatrixProducts.Product`, `MatrixEquality.Equals`, `SparseMatrices.ProductAssociates`: the sparse operations are the dense ones, and the laws that follow.

Where code and documentation differ, the model follows the code:

- List.h says that `delete` leaves the cursor undefined.  After a delete in the middle the cursor pointer is null but the index still reads as defined (List.c:516-517).  `Lists.List.Delete` says exactly when; `MoveFront` and `MoveBack` repair it.
- Graph.h of the breadth-first-search project says that `getPath` appends.  The code prepends a path of at least one arc (Graph.c:194-204).  `GraphBfs.AppendsIff` says exactly when the two agree; `GraphBfs.PrependsSometimes` is an example where they do not.
- The README of the concurrent data structures promises that neither readers nor writers starve.  `RwFairness.TwoSidedIff` shows that passing is bounded on both sides exactly for N_WAY with a positive quota.
- `DFS` checks the length of S only (Graph.c:268).  That S lists every vertex is a precondition here; the caller establishes it and `DFS` re-establishes it.

A thread's step is one section that holds a mutex, or one statement of queue_push
and queue_pop.  A wait may end without a broadcast.  `double` is the type `real`,
so cancellation is exact.

## Model

| member | source | states |
|---|---|---|
| FindComponents.FindComponents | Graph ADT with DFS and Strongly Connected Components/FindComponents.c:120-183 | for every graph: the printed lists partition the vertices, two vertices share a list exactly if each reaches the other, `counter` is the number of lists, and every arc between two lists leads to a later one; read from the last list to the first, the vertices stand in falling order of the finish times of the second search, and the two searches are those of G and of its one canonical transpose |
| Scc.BlocksJoin | Graph ADT with DFS and Strongly Connected Components/FindComponents.c:162-183 | the lists, the last one first, are S as the second search leaves it: no vertex changes places with another |
| Scc.BlocksAreComponents | Graph ADT with DFS and Strongly Connected Components/FindComponents.c:136-183 | cutting the second-pass order at the roots gives exactly the strongly connected components, each once, in topological order of the condensation |
| Scc.ComponentCount | Graph ADT with DFS and Strongly Connected Components/FindComponents.c:144-159 | the roots counted before printing are as many as the components printed afterwards |
| Scc.TreeIsMutual | Graph ADT with DFS and Strongly Connected Components/FindComponents.c:140-183 | a tree of the second search lies within one component of G |
| Scc.MutualSameRoot | Graph ADT with DFS and Strongly Connected Components/FindComponents.c:140-183 | a component of G has vertices of one second-pass tree only |
| Scc.ArcOrdersComponents | Graph ADT with DFS and Strongly Connected Components/Graph.c:266-303 | for an arc from one component to another, the last vertex of the first to finish does so after every vertex of the second |
| Scc.OutsideFinishesBefore | Graph ADT with DFS and Strongly Connected Components/Graph.c:266-303 | the last vertex of a component to finish does so after everything it reaches outside the component |
| Scc.PassesDone | Graph ADT with DFS and Strongly Connected Components/FindComponents.c:131-140 | searching G, transposing it and searching the transpose in the order of finish meets the assumptions of the component theorems |
| Scc.SortPermutes | Graph ADT with DFS and Strongly Connected Components/Graph.c:305-339 | the reordering of S loses and repeats no vertex |
| Scc.SortDecreasing | Graph ADT with DFS and Strongly Connected Components/Graph.c:305-339 | the reordered S falls strictly in finish time |
| Scc.SortIsOrder | Graph ADT with DFS and Strongly Connected Components/Graph.c:305-350 | after a search S lists every vertex again, by falling finish time |
| FindComponents.CountRoots | Graph ADT with DFS and Strongly Connected Components/FindComponents.c:144-155 | `counter` is the number of vertices without a parent |
| FindComponents.CutComponents | Graph ADT with DFS and Strongly Connected Components/FindComponents.c:162-183 | the backward walk over S cuts it into blocks, each beginning at a root and holding no other, that together are all of S |
| FindComponents.CollectComponents | Graph ADT with DFS and Strongly Connected Components/FindComponents.c:144-183 | counting and cutting after any two passes gives the list of components and its length |
| FindComponents.AllVertices | Graph ADT with DFS and Strongly Connected Components/FindComponents.c:120-125 | the first list handed to DFS is 1 .. n |
| Forests.WhitePathTheorem | Graph ADT with DFS and Strongly Connected Components/Graph.c:230-263 | a visit blackens exactly the vertices reachable by white paths at its start, and touches nothing else |
| Forests.NestedIffDescends | Graph ADT with DFS and Strongly Connected Components/Graph.c:230-263 | two [discover, finish] intervals are nested exactly along tree descent |
| Forests.DfsIsForest | Graph ADT with DFS and Strongly Connected Components/Graph.c:266-303 | after DFS all vertices are black, intervals are nested or disjoint, parents are arcs with enclosing intervals, and roots come in the order of S |
| Forests.TreePath | Graph ADT with DFS and Strongly Connected Components/Graph.c:230-263 | nested intervals are joined by a path of the graph that never leaves the outer one |
| Forests.PathEnclosed | Graph ADT with DFS and Strongly Connected Components/Graph.c:230-263 | on every path some vertex no younger than the start encloses the end |
| Stamps.StampsAreABijection | Graph ADT with DFS and Strongly Connected Components/Graph.c:274-303 | the 2n stamps of a search are 1 .. 2n, each used once |
| DfsModel.VisitGrown | Graph ADT with DFS and Strongly Connected Components/Graph.c:230-263 | what one visit of any white vertex keeps and adds: stamps, colours, parents, arcs met |
| DfsModel.VisitAllGrown | Graph ADT with DFS and Strongly Connected Components/Graph.c:288-303 | the same for a run of visits, none of whose vertices stays white |
| DfsModel.VisitAllInOrder | Graph ADT with DFS and Strongly Connected Components/Graph.c:239-303 | a vertex that becomes a child in a loop over a list is discovered after everything new that stands before it in the list; likewise a root in the loop over S |
| DfsOrder.VisitChildren | Graph ADT with DFS and Strongly Connected Components/Graph.c:230-263 | one visit takes the neighbours of every vertex it reaches in list order |
| DfsOrder.NeighborsInOrder | Graph ADT with DFS and Strongly Connected Components/Graph.c:239-303 | in the finished forest a child of u is discovered after all that stands before it in the list of u, and after an earlier child has finished |
| GraphDfs.Graph.constructor | Graph ADT with DFS and Strongly Connected Components/Graph.c:41-68 | newGraph: no arcs, `size` right, all vertices white, without parent and stamps |
| GraphDfs.Graph.AddArc | Graph ADT with DFS and Strongly Connected Components/Graph.c:151-203 | addArc inserts an arc unless it is there and counts it once; other lists stay; `size` remains the number of arcs and the lists strictly sorted |
| GraphDfs.WithArcAdds | Graph ADT with DFS and Strongly Connected Components/Graph.c:151-203 | exactly the arc (u, v) is added |
| GraphDfs.WithArcCanonical | Graph ADT with DFS and Strongly Connected Components/Graph.c:151-203 | strictly sorted neighbour lists stay so |
| GraphDfs.WithArcCounts | Graph ADT with DFS and Strongly Connected Components/Graph.c:151-203 | `size` grows as the number of arcs does |
| GraphDfs.Graph.DfsVisit | Graph ADT with DFS and Strongly Connected Components/Graph.c:230-263 | the recursion through shared list cursors computes the visit of the model, leaves the lists' contents alone, and moves no cursor of a vertex that was gray or black |
| GraphDfs.Graph.VisitNeighbors | Graph ADT with DFS and Strongly Connected Components/Graph.c:239-255 | the loop over the neighbours visits those that are white, in list order |
| GraphDfs.Graph.VisitNeighbor | Graph ADT with DFS and Strongly Connected Components/Graph.c:243-254 | one round of the loop over the neighbours, including the recursive call |
| GraphDfs.Graph.Search | Graph ADT with DFS and Strongly Connected Components/Graph.c:285-303 | the outer loop visits from every vertex of S that is still white |
| GraphDfs.Graph.Dfs | Graph ADT with DFS and Strongly Connected Components/Graph.c:266-354 | DFS leaves the stamps of the modelled search and S sorted by falling finish time |
| GraphSort.InsertVertex | Graph ADT with DFS and Strongly Connected Components/Graph.c:316-335 | the inner loop puts v behind the last vertex that does not finish before it |
| GraphSort.Reorder | Graph ADT with DFS and Strongly Connected Components/Graph.c:305-350 | S ends up sorted by finish time, cell by cell in place |
| GraphDfs.Graph.Transpose | Graph ADT with DFS and Strongly Connected Components/Graph.c:358-397 | the transpose has exactly the reversed arcs, sorted, and the copied fields; its copied `size` is the number of its arcs |
| GraphDfs.TransposeUnique | Graph ADT with DFS and Strongly Connected Components/Graph.c:358-397 | a graph has one canonical transpose |
| GraphDfs.TransposeInvolution | Graph ADT with DFS and Strongly Connected Components/Graph.c:358-397 | transposing twice gives the graph back |
| ArcCounts.TransposeArcCount | Graph ADT with DFS and Strongly Connected Components/Graph.c:392 | the copied `size` is right: arcs counted by tails and by heads are equally many |
| GraphDfs.Graph.CopyGraph | Graph ADT with DFS and Strongly Connected Components/Graph.c:399-418 | copyGraph: the same graph and fields in new objects |
| Lists.List.constructor | Graph ADT with DFS and Strongly Connected Components/List.c:60-77 | a new list represents the empty sequence, cursor undefined |
| Lists.List.Front | Graph ADT with DFS and Strongly Connected Components/List.c:113-122 | the first element |
| Lists.List.Back | Graph ADT with DFS and Strongly Connected Components/List.c:124-133 | the last element |
| Lists.List.Get | Graph ADT with DFS and Strongly Connected Components/List.c:135-144 | the element at the cursor |
| Lists.List.Clear | Graph ADT with DFS and Strongly Connected Components/List.c:181-196 | the list becomes empty, cursor undefined |
| Lists.List.Set | Graph ADT with DFS and Strongly Connected Components/List.c:198-207 | the element at the cursor is overwritten, the rest stays |
| Lists.List.MoveFront | Graph ADT with DFS and Strongly Connected Components/List.c:209-216 | cursor to the front; repairs a stale cursor |
| Lists.List.MoveBack | Graph ADT with DFS and Strongly Connected Components/List.c:218-225 | cursor to the back; repairs a stale cursor |
| Lists.List.MovePrev | Graph ADT with DFS and Strongly Connected Components/List.c:227-243 | one step back, undefined before the front |
| Lists.List.MoveNext | Graph ADT with DFS and Strongly Connected Components/List.c:245-261 | one step on, undefined behind the back |
| Lists.List.Prepend | Graph ADT with DFS and Strongly Connected Components/List.c:263-298 | one element in front; the cursor stays on its element |
| Lists.List.Append | Graph ADT with DFS and Strongly Connected Components/List.c:300-329 | one element behind; the cursor stays on its element |
| Lists.List.InsertBefore | Graph ADT with DFS and Strongly Connected Components/List.c:332-366 | one element before the cursor, which stays on its element |
| Lists.List.InsertAfter | Graph ADT with DFS and Strongly Connected Components/List.c:368-402 | one element after the cursor, which stays on its element |
| Lists.List.DeleteFront | Graph ADT with DFS and Strongly Connected Components/List.c:405-445 | the first element goes; the cursor stays on its element or becomes undefined |
| Lists.List.DeleteBack | Graph ADT with DFS and Strongly Connected Components/List.c:448-483 | the last element goes; the cursor stays on its element or becomes undefined |
| Lists.List.Delete | Graph ADT with DFS and Strongly Connected Components/List.c:485-522 | the element at the cursor goes; the cursor is properly undefined exactly if it stood at an end, otherwise the index is off |
| Lists.Equals | Graph ADT with DFS and Strongly Connected Components/List.c:146-175 | true exactly for two lists with the same elements in the same order |
| Lists.Elements | Graph ADT with DFS and Strongly Connected Components/List.c:527-544 | what printList writes, front first |
| Lists.CopyList | Graph ADT with DFS and Strongly Connected Components/List.c:546-563 | a copy with the same elements, in new nodes, cursor undefined |
| SortedLists.InsertedAtIndex | Graph ADT with DFS and Strongly Connected Components/Graph.c:182-199 | the place where addArc's backward walk stops is the sorted place |
| SortedLists.SortedInsertKeeps | Graph ADT with DFS and Strongly Connected Components/Graph.c:182-199 | the insertion keeps the order, and strict order for a new element |
| SortedLists.SortedInsertCounts | Graph ADT with BFS & Shortest Paths/Graph.c:263-290 | the insertion adds one occurrence of the element and changes no other number of occurrences |
| SortedLists.SortedUnique | Graph ADT with DFS and Strongly Connected Components/Graph.c:151-203 | a strictly sorted list is determined by its elements |
| SortedLists.InsertOnce | Graph ADT with DFS and Strongly Connected Components/Graph.c:160-199 | the list part of the depth-first-search addArc |
| SortedLists.InsertAgain | Graph ADT with BFS & Shortest Paths/Graph.c:263-290 | the list part of the breadth-first-search addArc |
| RwLock.Lock.constructor | Concurrent Data Structures/rwlock.c:19-37 | a new lock: nobody active, nobody waiting |
| RwLock.Lock.ReaderArrival | Concurrent Data Structures/rwlock.c:54-90 | reader_lock up to its first wait, as the step of the transition system; who is let in is `RwEntry.ReaderEntersIff` |
| RwLock.Lock.ReaderTurn | Concurrent Data Structures/rwlock.c:58-87 | one test of reader_lock's loop, and the entry, as the step of the transition system |
| RwLock.Lock.ReaderUnlock | Concurrent Data Structures/rwlock.c:92-101 | reader_unlock, and when it broadcasts |
| RwLock.Lock.WriterArrival | Concurrent Data Structures/rwlock.c:103-132 | writer_lock up to its first wait |
| RwLock.Lock.WriterTurn | Concurrent Data Structures/rwlock.c:107-129 | one test of writer_lock's loop, and the entry |
| RwLock.Lock.WriterUnlock | Concurrent Data Structures/rwlock.c:134-147 | writer_unlock, the quota reset, and when it broadcasts |
| RwLock.StepKeepsInv | Concurrent Data Structures/rwlock.c:54-147 | every step of any thread, under all three policies and with spurious wakeups, keeps the invariant: counters count threads, exclusion, no lost wakeup, quota |
| RwLock.ReachableInv | Concurrent Data Structures/rwlock.c:19-147 | the invariant holds in every reachable state, for any number of threads |
| RwLock.WriterAlone | Concurrent Data Structures/rwlock.c:54-147 | beside a writer nobody holds the lock |
| RwLock.BroadcastSettles | Concurrent Data Structures/rwlock.c:92-147 | an unlock leaves nobody asleep who could enter |
| RwLock.SomeoneMayEnter | Concurrent Data Structures/rwlock.c:54-147 | if nobody holds the lock and someone waits, an awake waiter can enter and its next step does |
| RwLock.QuotaCounts | Concurrent Data Structures/rwlock.c:71-83 | in every run readers_since_last_write is the number of readers that passed a waiting writer since the last release |
| RwLock.ReadersPassAtMostN | Concurrent Data Structures/rwlock.c:71-83 | N_WAY: between releases at most N readers pass a waiting writer |
| RwLock.WriterPassesAfterN | Concurrent Data Structures/rwlock.c:120-125 | N_WAY: a writer passes waiting readers only after exactly N of them have passed |
| RwEntry.ReaderEntersIff | Concurrent Data Structures/rwlock.c:54-90 | a reader's test lets it in exactly if nobody writes and, under WRITERS, nobody waits to write, or under N_WAY nobody waits to write or fewer than N have passed; otherwise it sleeps.  Readers inside are no obstacle |
| RwEntry.WriterEntersIff | Concurrent Data Structures/rwlock.c:103-132 | a writer's test lets it in exactly if nobody reads or writes and, under READERS, nobody waits to read, or under N_WAY nobody waits to read or N have passed; otherwise it sleeps |
| RwEntry.ReadersShare | Concurrent Data Structures/rwlock.c:54-90 | while nobody writes or waits to write, whoever comes to read gets in under every policy, and whoever reads goes on reading |
| RwEntry.ReaderEntersAfter | Concurrent Data Structures/rwlock.c:71-83 | N_WAY, every run: with a writer waiting a reader gets in exactly while fewer than N have passed since the last writer_unlock |
| RwEntry.WriterEntersAfter | Concurrent Data Structures/rwlock.c:120-125 | N_WAY, every run: with a reader waiting a writer gets in exactly once N have passed since the last writer_unlock |
| RwEntry.OthersNotice | Concurrent Data Structures/rwlock.c:54-147 | no step moves another thread, except that an unlock wakes everyone who sleeps |
| RwFairness.ReadersPassBoundedIff | Concurrent Data Structures/rwlock.c:54-90 | readers can pass a waiting writer without bound exactly under READERS |
| RwFairness.WritersPassBoundedIff | Concurrent Data Structures/rwlock.c:103-132 | writers can pass a waiting reader without bound exactly under WRITERS, and under N_WAY with a quota that is not positive |
| RwFairness.TwoSidedIff | Concurrent Data Structures/rwlock.c:54-147 | both sides are protected from unbounded passing exactly by N_WAY with a positive quota |
| RwFairness.ReadersOvertakeForever | Concurrent Data Structures/rwlock.c:59-63 | a READERS run in which readers pass a waiting writer as often as one likes |
| RwFairness.WritersOvertakeForever | Concurrent Data Structures/rwlock.c:114-125 | a WRITERS run, or an N_WAY run without quota, in which writers pass a waiting reader as often as one likes |
| UriTable.FindFromFinds | Multi-Threaded HTTP Server/httpserver.c:155-164 | the search answers the first slot of the URI, and -1 exactly if there is none |
| UriTable.FreeFromFinds | Multi-Threaded HTTP Server/httpserver.c:169-175 | the search answers the first unused slot, and -1 exactly if there is none |
| UriTable.GetThenReturn | Multi-Threaded HTTP Server/httpserver.c:166-190 | job_return_lock undoes job_get_lock: the table is as before |
| UriTable.JobTable.constructor | Multi-Threaded HTTP Server/httpserver.c:55-63 | all slots empty |
| UriTable.JobTable.FindUri | Multi-Threaded HTTP Server/httpserver.c:155-164 | job_find_uri |
| UriTable.JobTable.GetLock | Multi-Threaded HTTP Server/httpserver.c:166-179 | job_get_lock: the slot it picks and the table it leaves |
| UriTable.JobTable.ReturnLock | Multi-Threaded HTTP Server/httpserver.c:181-190 | job_return_lock: the table it leaves |
| UriLocks.NextKeepsInv | Multi-Threaded HTTP Server/httpserver.c:155-222 | every step of table, job lock and slot locks together keeps the invariant, and job_get_lock finds a slot in it |
| UriLocks.SlotAlwaysFound | Multi-Threaded HTTP Server/httpserver.c:166-179 | pigeonhole: with at most as many workers as slots a caller of job_get_lock gets one |
| UriLocks.FindsOwnSlot | Multi-Threaded HTTP Server/httpserver.c:199-222 | job_find_uri at the end of a session finds the slot the session was given |
| UriSafety.ReachableInv | Multi-Threaded HTTP Server/httpserver.c:44-222 | the invariant holds in every reachable state of any number of workers not above num_threads; what the policies of the locks do is in `UriRuns` |
| UriRuns.FromStart | Multi-Threaded HTTP Server/httpserver.c:44-68 | in every run the job lock stays a READERS lock and the locks of the slots N_WAY locks with quota 2 |
| UriRuns.JobEntersIff | Multi-Threaded HTTP Server/httpserver.c:44-54 | every run: a reader gets the job lock exactly if nobody writes under it, a writer exactly if nobody reads, writes, or waits to read |
| UriRuns.HoldsWhatItAskedFor | Multi-Threaded HTTP Server/httpserver.c:192-222 | every run: what a thread holds is the URI and the mode of its last call |
| UriRuns.ReaderGetsUriIff | Multi-Threaded HTTP Server/httpserver.c:192-197 | every run: a reader gets its URI exactly if nobody holds it for writing, and nobody waits to write it or fewer than 2 readers have passed at its slot since a writer last left; other readers are no obstacle |
| UriRuns.WriterGetsUriIff | Multi-Threaded HTTP Server/httpserver.c:208-213 | every run: a writer gets its URI exactly if nobody holds it, and nobody waits to read it or 2 readers have passed at its slot since a writer last left |
| UriRuns.SlotPassesAtMostTwo | Multi-Threaded HTTP Server/httpserver.c:52-54 | every run: the counter of a slot is the number of readers that passed a waiting writer there since a writer last left, at most 2 |
| UriRuns.WriterPassesAfterTwo | Multi-Threaded HTTP Server/httpserver.c:52-54 | every run: a writer passes readers that wait at its slot only after exactly 2 have passed it |
| UriRuns.ReadersShareUri | Multi-Threaded HTTP Server/httpserver.c:192-197 | a reachable state in which two threads hold one URI for reading |
| UriRuns.HoldersStay | Multi-Threaded HTTP Server/httpserver.c:192-222 | whoever holds a URI goes on holding it while other threads move |
| UriSafety.UriExclusion | Multi-Threaded HTTP Server/httpserver.c:192-222 | while a thread holds a URI for writing no other thread holds it in any mode, although slots are reused |
| UriSafety.ReleasesWhatItTook | Multi-Threaded HTTP Server/httpserver.c:199-222 | the lock released is the one acquired, and its holder can always release it |
| UriSafety.NeverOutOfSlots | Multi-Threaded HTTP Server/httpserver.c:166-179 | job_get_lock never runs past its table |
| UriSafety.TableCounts | Multi-Threaded HTTP Server/httpserver.c:166-190 | live URIs are distinct, uri_count counts sessions, and uri_list is NULL exactly where it is 0 |
| UriSafety.FreeSlotsAreQuiet | Multi-Threaded HTTP Server/httpserver.c:181-222 | while the job lock is free, an unused slot has a lock without holders and waiters |
| UriSafety.NoNestedWait | Multi-Threaded HTTP Server/httpserver.c:192-222 | nobody waits for a URI lock while holding or awaiting the job lock |
| UriSafety.SomeoneMoves | Multi-Threaded HTTP Server/httpserver.c:192-222 | while a session is open, some step that is neither a spurious wakeup nor a fruitless retry can be taken |
| UriSafety.AllCanFinish | Multi-Threaded HTTP Server/httpserver.c:192-222 | from every reachable state some run without new sessions and spurious wakeups ends all sessions |
| UriSafety.MoverMovesOn | Multi-Threaded HTTP Server/httpserver.c:192-222 | such a step shortens its own session and, with `OthersStay`, no other gets longer |
| UriSafety.OthersStay | Multi-Threaded HTTP Server/httpserver.c:192-222 | a step leaves the sessions of all other threads where they are |
| BoundedQueue.StepKeepsInv | Concurrent Data Structures/queue.c:69-101 | every step of any number of producers and consumers keeps the invariant: tokens conserved, mutexes owned, indices and cells right |
| BoundedQueue.StepConserves | Concurrent Data Structures/queue.c:69-101 | tokens of both semaphores plus those carried by threads under way account for every slot and every element |
| BoundedQueue.FirstInFirstOut | Concurrent Data Structures/queue.c:69-101 | in every run what is read from the ring is a prefix of what is written to it, and the rest, at most `size` values, is in the ring; `QueueCalls.Linearizable` ties both to the callers |
| BoundedQueue.RunRefines | Concurrent Data Structures/queue.c:69-101 | the writes and reads of every run, however pushes and pops overlap, are a run of an atomic bounded queue |
| QueueCalls.Linearizable | Concurrent Data Structures/queue.c:69-101 | every run: it has the events of an atomic bounded queue, each thread's events are its calls in order and with their arguments, save for a call not yet in effect, and what its calls return are the values of its events, save for one not yet returned |
| QueueCalls.CallsAreEvents | Concurrent Data Structures/queue.c:69-78 | from any state: what a thread enqueues is what it passed to queue_push, call by call, and it dequeues once a queue_pop |
| QueueCalls.AnswersAreEvents | Concurrent Data Structures/queue.c:86-101 | from any state: what queue_pop hands out is what it dequeued, call by call |
| QueueCalls.StepsPerCall | Concurrent Data Structures/queue.c:69-101 | a call takes six steps of its thread, however the others move; so it ends unless a semaphore or mutex holds it up |
| BoundedQueue.WriteAndReadApart | Concurrent Data Structures/queue.c:74-96 | a write and a read in progress under the two mutexes touch different cells |
| BoundedQueue.RoomToWrite | Concurrent Data Structures/queue.c:74-78 | a producer past its semaphore and mutex has room at the cell it writes |
| BoundedQueue.ElementToRead | Concurrent Data Structures/queue.c:91-95 | a consumer past its semaphore and mutex reads the oldest element |
| BoundedQueue.StuckOnlyAtSemaphores | Concurrent Data Structures/queue.c:69-101 | calls come to a stop exactly when pushes wait for a full and pops for an empty queue and nobody is inside |
| BoundedQueue.QuietRing | Concurrent Data Structures/queue.c:69-101 | whenever all calls have returned, the ring fields represent exactly what is waiting |
| BoundedQueue.Queue.constructor | Concurrent Data Structures/queue.c:21-41 | queue_new: an empty ring with all slots available |
| BoundedQueue.Queue.PutIn | Concurrent Data Structures/queue.c:77-78 | the critical section of queue_push |
| BoundedQueue.Queue.TakeOut | Concurrent Data Structures/queue.c:94-95 | the critical section of queue_pop |
| BoundedQueue.QueuePush | Concurrent Data Structures/queue.c:69-84 | queue_push without company appends; it sleeps exactly on a full queue and is false exactly for a NULL queue, and then nothing changes |
| BoundedQueue.QueuePop | Concurrent Data Structures/queue.c:86-101 | queue_pop without company takes the oldest value; it sleeps exactly on an empty queue and is false exactly for a NULL queue, and then nothing changes |
| ShortestPaths.DiscoverKeeps | Graph ADT with BFS & Shortest Paths/Graph.c:325-331 | finding a white neighbour keeps the invariant of the search |
| ShortestPaths.SkipKeeps | Graph ADT with BFS & Shortest Paths/Graph.c:325-331 | a neighbour that is not white is near enough already |
| ShortestPaths.FinishKeeps | Graph ADT with BFS & Shortest Paths/Graph.c:316-335 | finishing a vertex keeps the invariant; distances in the queue never fall and differ by at most one |
| ShortestPaths.WalksAreLonger | Graph ADT with BFS & Shortest Paths/Graph.c:295-340 | no walk from the source is shorter than the distance BFS leaves |
| ShortestPaths.SearchIsOptimal | Graph ADT with BFS & Shortest Paths/Graph.c:295-340 | distances are least over all walks; INF, white and unreachable coincide |
| ShortestPaths.TreePathIsPath | Graph ADT with BFS & Shortest Paths/Graph.c:197-203 | the parents spell a path of distance + 1 vertices, at distances 0, 1, 2 and so on |
| ShortestPaths.PrependIsAppendIff | Graph ADT with BFS & Shortest Paths/Graph.c:195-203 | putting a path before a list is putting it behind exactly if the list is copies of the path |
| GraphBfs.Graph.constructor | Graph ADT with BFS & Shortest Paths/Graph.c:42-68 | newGraph: no arcs, no source, all vertices white, without parent and distance |
| GraphBfs.Graph.AddArc | Graph ADT with BFS & Shortest Paths/Graph.c:255-293 | addArc: the list of u stays ascending and gains v once, repeats included; no other list changes; `size` grows by one, and a finished search's tree stays a tree |
| GraphBfs.WithArcOrdered | Graph ADT with BFS & Shortest Paths/Graph.c:263-290 | an ascending list stays so and gains exactly one v; all other lists are the same |
| GraphBfs.ArcAdded | Graph ADT with BFS & Shortest Paths/Graph.c:255-293 | one arc more; old trees stay trees |
| GraphBfs.Graph.Reset | Graph ADT with BFS & Shortest Paths/Graph.c:299-308 | the arrays at the start of BFS satisfy its invariant |
| GraphBfs.Graph.Explore | Graph ADT with BFS & Shortest Paths/Graph.c:315-336 | one vertex leaves the queue, its neighbours are met, and it turns black |
| GraphBfs.Graph.Run | Graph ADT with BFS & Shortest Paths/Graph.c:315-336 | the outer loop terminates and keeps the invariant until the queue is empty |
| GraphBfs.Graph.Bfs | Graph ADT with BFS & Shortest Paths/Graph.c:295-340 | BFS leaves least distances for every source and every graph, and terminates; vertices enter the queue in the order in which they are met, and the parent is who met them |
| BfsQueue.ParentIsEarliest | Graph ADT with BFS & Shortest Paths/Graph.c:325-331 | the parent of a vertex is the first vertex of the queue that has an arc to it |
| BfsQueue.ParentsAreDetermined | Graph ADT with BFS & Shortest Paths/Graph.c:295-340 | two searches of one graph from one source take the same vertices in the same order and give them the same parents |
| BfsQueue.SearchIsInOrder | Graph ADT with BFS & Shortest Paths/Graph.c:315-336 | at the end the queue has held exactly the vertices within reach, each at its first place in the order of the queue and of the lists |
| BfsQueue.DiscoverQueueing | Graph ADT with BFS & Shortest Paths/Graph.c:326-332 | a white neighbour enters the queue at the first place at which it stands |
| GraphBfs.Graph.GetDist | Graph ADT with BFS & Shortest Paths/Graph.c:135-150 | after BFS the distance from the source to u; INF exactly if there is no source or no path; a defined answer is always the length of some path |
| GraphBfs.Graph.GetParent | Graph ADT with BFS & Shortest Paths/Graph.c:118-133 | NIL exactly without a source, for the source, and for what the search did not reach; otherwise the tail of an arc to u, one nearer to the source |
| GraphBfs.Graph.HasPath | Graph ADT with BFS & Shortest Paths/Graph.c:176-192 | the climb to the source terminates and succeeds exactly if the distance is defined |
| GraphBfs.Graph.GetPath | Graph ADT with BFS & Shortest Paths/Graph.c:152-211 | getPath terminates and leaves the source alone, the path before the list, or NIL behind it |
| GraphBfs.PathFound | Graph ADT with BFS & Shortest Paths/Graph.c:152-211 | into an empty list: a shortest path of getDist(u) + 1 vertices, or NIL alone exactly if u is unreachable |
| GraphBfs.AppendsIff | Graph ADT with BFS & Shortest Paths/Graph.c:152-211 | getPath appends, as its header promises, exactly if u is the source, or unreachable, or the list is copies of the path |
| GraphBfs.PrependsSometimes | Graph ADT with BFS & Shortest Paths/Graph.c:195-203 | a graph and a list on which getPath prepends |
| SparseRows.CanonicalUnique | Matrix ADT with Sparse Matrix Operations/Matrix.c:114-152 | a dense row has one canonical list of entries |
| SparseRows.SetCellSets | Matrix ADT with Sparse Matrix Operations/Matrix.c:167-244 | changeEntry on a row sets one column, including to zero, and keeps the row sorted and free of zeros |
| SparseRows.SetCellAt | Matrix ADT with Sparse Matrix Operations/Matrix.c:190-243 | what changeEntry does where its walk stops |
| SparseRows.ScaledScales | Matrix ADT with Sparse Matrix Operations/Matrix.c:297-310 | scaling the entries scales the dense row |
| RowMerges.MergeDotIsTotal | Matrix ADT with Sparse Matrix Operations/Matrix.c:416-448 | vectorDot over matching columns is the full dense sum |
| RowMerges.MergeBoth | Matrix ADT with Sparse Matrix Operations/Matrix.c:348-354 | the round of sum with equal columns, cancellation included |
| RowMerges.MergeLeft | Matrix ADT with Sparse Matrix Operations/Matrix.c:356-383 | the rounds of sum in which one row moves on alone |
| RowMerges.MergeEnd | Matrix ADT with Sparse Matrix Operations/Matrix.c:336-384 | at the end of both rows the dense sum is complete |
| SparseMatrices.SameDenseIffSame | Matrix ADT with Sparse Matrix Operations/Matrix.c:114-152 | dense matrices agree exactly if the canonical entries do |
| SparseMatrices.CountIsSupport | Matrix ADT with Sparse Matrix Operations/Matrix.c:109-112 | nnz is the number of non-zero entries of the dense matrix |
| SparseMatrices.TransposeCount | Matrix ADT with Sparse Matrix Operations/Matrix.c:279-280 | the copied nnz is right: counting by rows and by columns agree |
| SparseMatrices.TransposeStep | Matrix ADT with Sparse Matrix Operations/Matrix.c:262-276 | appending alone keeps the rows of the transpose sorted |
| SparseMatrices.TransposeInvolution | Matrix ADT with Sparse Matrix Operations/Matrix.c:253-283 | transposing twice gives the matrix back |
| SparseMatrices.TransposeOfProduct | Matrix ADT with Sparse Matrix Operations/Matrix.c:253-483 | the transpose of A B is the product of the transposes, the other way round |
| SparseMatrices.ProductAssociates | Matrix ADT with Sparse Matrix Operations/Matrix.c:451-483 | (A B) C and A (B C) are the same matrix |
| SparseMatrices.ProductDistributes | Matrix ADT with Sparse Matrix Operations/Matrix.c:319-483 | A (B + C) and A B + A C are the same matrix |
| SparseMatrices.SumCommutes | Matrix ADT with Sparse Matrix Operations/Matrix.c:319-391 | A + B and B + A are the same matrix |
| SparseMatrices.DiffUndoesSum | Matrix ADT with Sparse Matrix Operations/Matrix.c:319-413 | (A + B) - B is A |
| EntryLists.ChangeRow | Matrix ADT with Sparse Matrix Operations/Matrix.c:167-244 | changeEntry's walk and its change in place of a list of entry objects |
| EntryLists.SetData | Matrix ADT with Sparse Matrix Operations/Matrix.c:211 | writing one entry's data changes no other cell |
| Matrices.Matrix.constructor | Matrix ADT with Sparse Matrix Operations/Matrix.c:61-76 | newMatrix: the zero matrix |
| Matrices.Matrix.ChangeEntry | Matrix ADT with Sparse Matrix Operations/Matrix.c:167-244 | entry (i, j) is set and no other, and nnz stays right |
| MatrixOps.Transpose | Matrix ADT with Sparse Matrix Operations/Matrix.c:253-283 | the result is canonical, transposed, and has a right nnz |
| MatrixOps.ScalarMult | Matrix ADT with Sparse Matrix Operations/Matrix.c:286-316 | the dense matrix is multiplied, by zero too, and stays canonical |
| MatrixOps.Copy | Matrix ADT with Sparse Matrix Operations/Matrix.c:248-251 | the same matrix in new objects |
| MatrixArithmetic.Sum | Matrix ADT with Sparse Matrix Operations/Matrix.c:319-391 | the dense sum, canonical, also when both arguments are one object |
| MatrixArithmetic.Diff | Matrix ADT with Sparse Matrix Operations/Matrix.c:394-413 | the dense difference, canonical, also when both arguments are one object |
| MatrixProducts.VectorDot | Matrix ADT with Sparse Matrix Operations/Matrix.c:416-448 | the merge of two rows |
| MatrixProducts.AllMultiplied | Matrix ADT with Sparse Matrix Operations/Matrix.c:451-483 | the entries vectorDot gives on the transpose are those of the dense product |
| MatrixProducts.Product | Matrix ADT with Sparse Matrix Operations/Matrix.c:451-483 | the dense product, canonical, also when both arguments are one object |
| MatrixEquality.Equals | Matrix ADT with Sparse Matrix Operations/Matrix.c:114-152 | true exactly if the dense matrices are identical, even when both arguments share cursors |

## Left out

- HTTP parsing, responses, sockets and file access: regular expressions, the file system and code that is not in the repository.
- `memory.c` and `Lex.c`: system calls, and an insertion sort of the kind already proved for `DFS`.
- File reading, the print functions and the test drivers; `printList` appears only as the sequence it writes.
- malloc failure, free, and the `*_delete` and `free*` functions; Dafny's memory is collected.
- Machine integers: `int` fields are unbounded, and the conversion of N from uint32_t is the identity.
- Floating point: rounding and underflow are not modelled; with `real` the laws hold exactly.
- `concatList`: nothing modelled calls it, and in the matrix version it shares data pointers.
- `addEdge` and `size` after it: the code subtracts 1 for self-loops and repeats too, so `size` is right for graphs built with `addArc` only.
- `makeNull`, `makeZero`, `getSize`, `size`, `NNZ` and the like: one assignment or one `clear` a row.
- Preconditions stand for the checks that end the program (`exit(EXIT_FAILURE)`), as the headers state them.
- Slot 0 of the arrays of lists holds a list that is never used, where the source has a null pointer; the array pointers themselves never change.
- GraphDfs.Graph.CopyGraph: the source makes empty lists first and overwrites them with copies; here the array is made of the copies.
- Lists.List.MovePrev: with a stale cursor away from the front the source follows a null pointer; the caller must rule that out, as for `MoveNext`, `InsertBefore` and `InsertAfter`.
- UriTable.JobTable.GetLock: with a full table the source writes before its arrays; the precondition rules that out and `UriSafety.NeverOutOfSlots` discharges it.
- BoundedQueue.QueuePush: the call alone; that it sleeps is its outcome, and what happens after it wakes is in the transition system, as for `QueuePop`.
- SparseMatrices.ProductAssociates: over exact reals; with rounding the equality fails for the source's double.
- SparseMatrices.ProductDistributes: over exact reals; with rounding the equality fails for the source's double.
- SparseMatrices.DiffUndoesSum: over exact reals; with rounding the equality fails for the source's double.
- EntryLists.ChangeRow: one function in the source, here a walk followed by the change, with nnz updated by the difference; `scalarMult` tests for 0 before it makes its result, not after.
- UriRuns.SlotPassesAtMostTwo: passes are counted by slot; a slot that has been given to another URI keeps its count, as the code does.
- Individual waiting times: which waiter the scheduler picks is open, so the results are safety, bounded passing and the possibility to go on.
- The audit lock of the server and the flag `done`, which `main` never sets.
