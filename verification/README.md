# A verified model of the simulator's graph kernels and memory-system state machines

This Dafny project models the algorithmic core of a ChampSim-based simulator and of the graph suites
(GAP and Ligra) that come with it, and proves what that core is for. `dafny verify dfyconfig.toml`
checks everything. The subjects, and the modules that treat them:

* **Connected components** (`Graphs`, `Forest`, `LinkProtocol`, `CompressProtocol`, `Afforest`,
  `HookProtocol`, `SerialComponents`). The lock-free `Link`, the racing `Compress` and the unsynchronised
  hooking of Shiloach-Vishkin are state machines in which every shared read, write and compare-and-swap is
  a step of its own. Both kernels end, under every interleaving, with the smallest id of each component,
  hence with the same array.
* **Shortest paths** (`ShortestPaths`, `DeltaStepping`, `DeltaProtocol`). Delta-stepping with lazy
  bins, frontier filter and bin fusion ends with the true distances, which are also the checker's: once as
  the loops of a single thread, and once for any number of threads under every interleaving of their reads,
  compare-and-swaps and barriers.
* **Breadth-first search** (`BreadthFirstTree`, `BreadthFirst`, `TopDownProtocol`, `BottomUpProtocol`,
  `ConcurrentSearch`). The direction-optimising search returns a breadth-first tree; stale frontier bits are
  harmless; one queue slot per vertex is enough. Proved for the loops of one thread, and for threads that race
  for vertices, flush local buffers and set bits with plain stores, over whole searches.
* **Graph building** (`Sorting`, `CsrSpec`, `BuildSteps`, `BuildOrdinary`, `ScatterProtocol`, `BuildInPlace`,
  `BuildSymmetric`, `BuildMain`). The builder that reuses the edge list's memory returns exactly the
  symmetric closure, and the same arrays as the ordinary builder.
* **Triangle counting** (`TriangleSpec`, `TriangleCount`, `Relabelling`). The merge without end check stays
  inside the list, the count is the number of triangles, and relabelling does not change it.
* **Buckets and integer sort** (`BucketQueue`, `Buckets`, `StableSorting`, `RadixSort`). Successive calls
  return every identifier once, in order of bucket number; the low-digit-first sort is stable.
* **OPTgen** (`IntervalScheduling`, `OptGen`). The greedy ring decides optimally: Belady's bound.
* **Page table walker** (`PageTree`, `PageWalkSpec`, `PageWalker`). MMU cache entries always equal what a
  walk from CR3 reads; the five-level tree agrees with the flat table; frames are never shared.
* **Reorder buffer** (`RobState`, `ReorderBuffer`). Register dependence and wake-up: nothing
  executes before its operands are written, and the ready rings never overflow.
* **DRAM controller** (`DramSpec`, `DramController`). Bank bookkeeping, the row-hit-first scheduler, bus
  spacing and conservation of requests.
* **LRU** (`LruSpec`, `LruCache`), the **re-reference matrix** (`ReReference`) and **fastset** (`FastSet`).

`Basics`, `Arith`, `Pigeonhole` and `Shares` hold what several of them use.

Where the source updates arrays and fields, the model is a class or a method over arrays, proved against
functions on plain values whose properties are the lemmas beside it. Where the source runs threads, the
model is a transition system and the theorems speak of every run. Sizes (vertices, ways, banks, queue
lengths, windows, digits) are parameters; nothing is bounded unless the source fixes it.

Some places where the code differs from what its comments or names suggest; the model follows the code:

* `src/page_table_walker.cc:125-129` and `390-392` combine the frame with the page offset by a logical `&&`,
  so the data returned carries the right frame but the offset 1; `PageWalker.DataKeepsFrame` says exactly
  when that is the right offset.
* `inc/set.h:223` makes `join` with a bound of 512 or more touch a ninth word; `FastSet.LimitFits` is the
  exact condition, and `Join` asks for it only on the path that reaches the loop.
* `src/dram_controller.cc` takes address 0 for an empty slot and drops a request silently when a queue has
  no free slot; `AddRq` and `AddWq` state exactly which requests are queued.
* `data/gapbs/src/builder.h:250-253` reads `invs_needed` one past its end in the last turn of its loop and
  adds what it finds to `total_missing_inv`, by which step 2 then shifts every copy. `GrowOffsets` holds for
  any such word; the symmetric build in place is proved for a zero there.

## Model

| member | source | states |
|---|---|---|
| `Forest.HookRoot` | data/gapbs/src/cc.cc:46-54 | hanging a root below a smaller vertex redirects exactly the trees of that root and keeps `comp[x] <= x` |
| `Forest.ShortcutRoot` | data/gapbs/src/cc.cc:65-67 | pointing an entry at a smaller vertex of its own tree moves no root |
| `Forest.RootIsSmallest` | data/gapbs/src/cc.cc:41-58 | if no tree crosses components and every edge is joined, the root of v is the smallest id of its component |
| `Forest.LabelsUnique` | data/gapbs/src/cc.cc:94-149 | the array that labels each vertex with its component's smallest id is unique |
| `LinkProtocol.StepKeepsInv` | data/gapbs/src/cc.cc:42-58 | any single read or compare-and-swap of any thread keeps all threads' invariants, keeps `comp[x] <= x`, only lowers entries and never separates joined vertices |
| `LinkProtocol.StepWorks` | data/gapbs/src/cc.cc:45-57 | each step lowers the bound on the steps its thread has left, whatever the others do; the bound grows with max(p1, p2) |
| `LinkProtocol.Reachable` | data/gapbs/src/cc.cc:42-58 | in every state any interleaving reaches, the invariant holds and no two components have been merged |
| `LinkProtocol.LinkPhaseTerminates` | data/gapbs/src/cc.cc:106-114 | no schedule of concurrent links runs longer than a fixed number of steps, and an unfinished phase can always step |
| `LinkProtocol.LinkPhaseServes` | data/gapbs/src/cc.cc:106-140 | when all links are done, under every interleaving, each job's edges are joined (or its vertex carries the skipped label) and nothing else is |
| `CompressProtocol.StepKeepsRoots` | data/gapbs/src/cc.cc:65-67 | no step of a concurrent compress moves a root |
| `CompressProtocol.CompressTerminates` | data/gapbs/src/cc.cc:62-69 | concurrent compress cannot run forever and never gets stuck |
| `CompressProtocol.CompressFlattens` | data/gapbs/src/cc.cc:62-69 | under every interleaving it ends in the one flat forest with the same roots |
| `Afforest.Sampling` | data/gapbs/src/cc.cc:103-115 | after r sampling rounds every vertex is joined with its first r neighbours and no tree crosses components |
| `Afforest.OutEdgeServed` | data/gapbs/src/cc.cc:123-131 | an edge left out by the sampling offset was linked earlier, so serving a vertex joins all its out-edges or gives it the skipped label |
| `Afforest.InEdgeServed` | data/gapbs/src/cc.cc:132-145 | the same edge seen from its head, for directed and undirected graphs |
| `Afforest.AfforestCorrect` | data/gapbs/src/cc.cc:94-149 | for every graph, interleaving and sampled label, `comp[v]` ends as the smallest id of v's weakly connected component |
| `Afforest.OutcomeExists` | data/gapbs/src/cc.cc:94-149 | every graph, number of rounds and sampled label has such an outcome |
| `HookProtocol.StepKeepsInv` | data/gapbs/src/cc_sv.cc:63-75 | one read or store of one hooking thread keeps the round invariant |
| `HookProtocol.RoundTerminates` | data/gapbs/src/cc_sv.cc:63-75 | a round of unsynchronised hooking is finite and never stuck, under every interleaving |
| `HookProtocol.RoundProgress` | data/gapbs/src/cc_sv.cc:60-82 | rounds start from stars and end in stars; a round that changed something lowers the sum of `comp`, one that did not has found the labels |
| `HookProtocol.ShiloachVishkinCorrect` | data/gapbs/src/cc_sv.cc:50-85 | the outer loop terminates within Sum(0..n-1)+1 rounds with the smallest id of each component |
| `HookProtocol.ExecutionExists` | data/gapbs/src/cc_sv.cc:50-85 | every graph has such an execution |
| `HookProtocol.SameAsAfforest` | data/gapbs/src/cc_sv.cc:50-85 | the result is the same array as every outcome of `Afforest` |
| `SerialComponents.Link` | data/gapbs/src/cc.cc:42-58 | one thread, no race lost: u and v end up joined, nothing joined is separated, no component boundary is crossed |
| `SerialComponents.LinkRetries` | data/gapbs/src/cc.cc:55-56 | a failed attempt retries with a strictly smaller max(p1, p2), still tied to u and v |
| `SerialComponents.Compress` | data/gapbs/src/cc.cc:62-69 | one thread, in place: every entry becomes the root it led to |
| `SerialComponents.HookAllEdges` | data/gapbs/src/cc_sv.cc:63-75 | one thread: a pass either lowers some entry below its value at the start, or changes nothing and then all edges are joined |
| `SerialComponents.ShiloachVishkin` | data/gapbs/src/cc_sv.cc:50-85 | one thread: the imperative kernel terminates and labels components by smallest id |
| `DeltaStepping.BinIsQuotient` | data/gapbs/src/sssp.cc:76-76 | the bin used by the specification is the quotient by delta |
| `DeltaStepping.BinFilter` | data/gapbs/src/sssp.cc:109-109 | the frontier filter `dist[u] >= delta * curr` compares bins |
| `DeltaStepping.RelaxSettles` | data/gapbs/src/sssp.cc:71-84 | after an edge list has been relaxed none of its edges can be relaxed again |
| `DeltaStepping.RelaxAttained` | data/gapbs/src/sssp.cc:71-84 | relaxing keeps every label the length of a real walk |
| `DeltaStepping.StaleIsSettled` | data/gapbs/src/sssp.cc:107-111 | an entry whose bin is below the current one has nothing left to relax |
| `DeltaStepping.TakeEntry` | data/gapbs/src/sssp.cc:107-119 | relaxing an entry, stale or not, keeps: every vertex with a relaxable edge is in the work list or in the bin of its distance, no bin below the current one holds anything; it changes nothing or lowers the sum of distances |
| `DeltaStepping.SkipEntry` | data/gapbs/src/sssp.cc:109-110 | dropping an entry below the current bin keeps the same invariant |
| `DeltaStepping.TakeBin` | data/gapbs/src/sssp.cc:136-142 | taking the next bin as frontier keeps it |
| `DeltaStepping.NothingWaiting` | data/gapbs/src/sssp.cc:101-101 | when no bin holds anything, the labels are the true shortest distances |
| `DeltaStepping.RelaxEdges` | data/gapbs/src/sssp.cc:68-85 | the loop computes the specified distances and bins |
| `DeltaStepping.Fuse` | data/gapbs/src/sssp.cc:112-119 | bin fusion, with any threshold, keeps the invariant and terminates |
| `DeltaStepping.NextBin` | data/gapbs/src/sssp.cc:120-126 | the vote yields the least non-empty bin, or the end mark exactly when all bins are empty |
| `DeltaStepping.Iterate` | data/gapbs/src/sssp.cc:101-145 | each iteration lowers the sum of distances, or keeps it and lowers the number of stored entries |
| `DeltaStepping.DeltaStep` | data/gapbs/src/sssp.cc:87-150 | one thread: terminates with the shortest distance of every vertex (kDistInf where unreachable or farther) for every delta >= 1 and non-negative weights |
| `DeltaStepping.OracleDistances` | data/gapbs/src/sssp.cc:163-181 | the checker's queue loop computes the same shortest distances |
| `ShortestPaths.RelaxedIsShortest` | data/gapbs/src/sssp.cc:160-191 | labels that are lengths of walks and admit no relaxation are the shortest distances |
| `ShortestPaths.ShortestUnique` | data/gapbs/src/sssp.cc:184-190 | the array of shortest distances is unique, so kernel and checker agree |
| `DeltaProtocol.StepLowers` | data/gapbs/src/sssp.cc:68-85 | under any interleaving a step keeps every distance the length of a walk and lowers the sum of distances or leaves them all alone |
| `DeltaProtocol.SwapBin` | data/gapbs/src/sssp.cc:74-80 | a compare-and-swap that succeeds, even on a stale read of the source, stores a distance of no earlier bin than the current one |
| `DeltaProtocol.StepCovers` | data/gapbs/src/sssp.cc:107-126 | after any step every edge that could lower a distance belongs to no finished bin and is pending with some thread: in its share, its bins, its hands, or the next frontier |
| `DeltaProtocol.NextIterationKeeps` | data/gapbs/src/sssp.cc:127-145 | so does the exchange of bins at the barriers, however the next frontier is handed out |
| `DeltaProtocol.DeltaStepCorrect` | data/gapbs/src/sssp.cc:87-150 | for every number of threads and every interleaving the final array is the shortest distances |
| `DeltaProtocol.DeltaStepTerminates` | data/gapbs/src/sssp.cc:101-145 | no schedule runs forever: the pair of sum of distances and remaining work falls with every step |
| `DeltaProtocol.Progress` | data/gapbs/src/sssp.cc:101-145 | and none gets stuck before the end, barriers included |
| `DeltaProtocol.SameAsSerial` | data/gapbs/src/sssp.cc:87-150 | the threads end with the array of the single-threaded loop and of the checker |
| `IntervalScheduling.GreedyFeasible` | inc/optgen.h:73-102 | accepting intervals that still fit never exceeds the capacity at any time |
| `IntervalScheduling.Exchange` | inc/optgen.h:73-102 | a selection that agrees with the greedy one on k requests can be changed to agree on one more without becoming smaller |
| `IntervalScheduling.GreedyOptimal` | inc/optgen.h:73-110 | no selection within the capacity is larger than the greedy one when requests arrive in the order of their ends (Belady's optimum) |
| `OptGen.SlotIsRemainder` | inc/optgen.h:83-83 | the slot function is the remainder by the ring length |
| `OptGen.OptGen.AddAccess` | inc/optgen.h:66-69 | clearing the slot of the new quantum keeps the ring equal to the loads of the accepted intervals |
| `OptGen.OptGen.ScanWindow` | inc/optgen.h:76-84 | the scan around the ring answers whether the interval fits among the accepted ones |
| `OptGen.OptGen.RaiseWindow` | inc/optgen.h:87-94 | exactly the slots of the interval are raised by one |
| `OptGen.OptGen.ShouldCache` | inc/optgen.h:73-102 | answers true iff the interval, which may be empty, fits; afterwards the ring is the load of the accepted intervals within one window |
| `OptGen.OptGen.GetNumOptHits` | inc/optgen.h:104-109 | `num_cache` is the maximum number of reuse intervals any selection within the capacity could accept |
| `OptGen.OptGen.NeverOverCapacity` | inc/optgen.h:58-102 | each slot counts the accepted intervals covering its time and never exceeds the cache size |
| `BreadthFirstTree.DepthIsShortest` | data/gapbs/src/bfs.cc:122-173 | the depth used in the statement is the length of a shortest path |
| `BreadthFirstTree.CertificateSuffices` | data/gapbs/src/bfs.cc:168-172 | a level labelling closed under edges is exactly the breadth-first distance |
| `BreadthFirst.BitIsFresh` | data/gapbs/src/bfs.cc:53-60 | a set bit that leads to an unvisited vertex belongs to the current level, so stale bits never supply a parent |
| `BreadthFirst.BitsAge` | data/gapbs/src/bfs.cc:141-167 | bits left in `front` by an earlier bottom-up phase stay harmless across top-down steps |
| `BreadthFirst.TDStep` | data/gapbs/src/bfs.cc:67-89 | one thread: claims exactly the next level, appends each of its vertices once, within one slot per vertex |
| `TopDownProtocol.StepCounts` | data/gapbs/src/bfs.cc:74-86 | under any interleaving each vertex found in the step is in exactly one buffer, or in one reserved slot, once |
| `TopDownProtocol.LogDistinct` | data/gapbs/src/sliding_queue.h:97-108 | so nothing is pushed twice and the reserved slots never exceed one per vertex |
| `TopDownProtocol.StepSlots` | data/gapbs/src/sliding_queue.h:103-108 | a flush, its reservation and its copy being separate steps, fills exactly the slots it reserved |
| `TopDownProtocol.StepCovers` | data/gapbs/src/bfs.cc:74-84 | every edge out of the window has a visited target or will still be looked at by some thread |
| `TopDownProtocol.TopDownTerminates` | data/gapbs/src/bfs.cc:67-89 | no schedule of the step runs longer than a fixed number of steps, and none gets stuck |
| `TopDownProtocol.TopDownCorrect` | data/gapbs/src/bfs.cc:67-89 | the concurrent step ends as the single-threaded one: the next level complete, queued, each vertex once |
| `BreadthFirst.BUStep` | data/gapbs/src/bfs.cc:46-64 | one thread: claims exactly the next level, sets exactly its bits and counts it |
| `BottomUpProtocol.StepKeepsInv` | data/gapbs/src/bfs.cc:50-62 | under any interleaving of reads, parent writes and the load and store of a word of bits, no chunk is in two hands, every vertex is settled or still to come, and every vertex found has its bit or a thread setting it |
| `BottomUpProtocol.StepCovers` | data/gapbs/src/bfs.cc:50-62 | every vertex has been looked at or some thread will still come to it |
| `BottomUpProtocol.StoredWord` | data/gapbs/src/bfs.cc:59-59 | the plain, not atomic, store of a word loses nobody else's bit, since a word never crosses a chunk |
| `BottomUpProtocol.BottomUpTerminates` | data/gapbs/src/bfs.cc:46-64 | no schedule of the step runs longer than a fixed number of steps, and none gets stuck |
| `BottomUpProtocol.BottomUpCorrect` | data/gapbs/src/bfs.cc:46-64 | the concurrent step ends as the single-threaded one: the next level complete, its bits and no others set, its vertices counted |
| `BreadthFirst.QueueToBitmap` | data/gapbs/src/bfs.cc:92-98 | adds the window's vertices to the bits |
| `BreadthFirst.BitmapToQueue` | data/gapbs/src/bfs.cc:100-112 | the window becomes the vertices of the bitmap, without overflowing the queue |
| `BreadthFirst.BottomUpPhase` | data/gapbs/src/bfs.cc:147-155 | the bottom-up loop terminates, advances whole levels and leaves exact bits |
| `BreadthFirst.Turn` | data/gapbs/src/bfs.cc:140-167 | one turn in either direction keeps the search invariant and visits something or empties the window |
| `BreadthFirst.DOBFS` | data/gapbs/src/bfs.cc:122-173 | one thread: terminates for every alpha, beta >= 1; `parent[v] >= 0` iff v is reachable, and each parent is one level nearer the source |
| `ConcurrentSearch.RoundKeeps` | data/gapbs/src/bfs.cc:140-167 | one round of either direction, its steps concurrent, keeps the search invariant and visits something or empties the window |
| `ConcurrentSearch.SweepsKeep` | data/gapbs/src/bfs.cc:147-155 | so do the concurrent bottom-up steps of one round, however many the test asks for |
| `ConcurrentSearch.SearchCorrect` | data/gapbs/src/bfs.cc:122-173 | for any number of threads, any interleavings and any choice of directions, a search whose window is empty has found the breadth-first tree |
| `ConcurrentSearch.SearchTerminates` | data/gapbs/src/bfs.cc:139-167 | no search takes more rounds than there are vertices, and one that is not over can take a round in either direction to its end |
| `BreadthFirst.SlidingQueue.PushBack` | data/gapbs/src/sliding_queue.h:44-46 | appends within the shared array |
| `Sorting.UniqueStrict` | data/gapbs/src/builder.h:201-202 | unique on a sorted range leaves a strictly sorted one with the same members |
| `CsrSpec.CsrUnique` | data/gapbs/src/builder.h:159-186 | offsets and neighbour array are determined by the neighbour sets |
| `CsrSpec.ScatterSlot` | data/gapbs/src/builder.h:305-313 | every fetch-and-add yields a free slot inside its key's range |
| `CsrSpec.ScatterStep` | data/gapbs/src/builder.h:305-313 | one insertion keeps: each key's insertions so far lie in its own range, in order |
| `CsrSpec.ScatterEnd` | data/gapbs/src/builder.h:305-313 | after all insertions every list is the selection of its key |
| `BuildSteps.CountDegrees` | data/gapbs/src/builder.h:80-91 | counts the insertions of each key, for all three flags |
| `BuildSteps.DegreesAgree` | data/gapbs/src/builder.h:301-313 | the counts do not depend on the order of the insertions |
| `BuildSteps.PrefixSum` | data/gapbs/src/builder.h:93-103 | running sums |
| `BuildSteps.ParallelPrefixSum` | data/gapbs/src/builder.h:105-137 | the blocked prefix sum equals the plain one for every block size |
| `BuildOrdinary.MakeCSR` | data/gapbs/src/builder.h:299-314 | for every order of the fetch-and-adds each list holds that order's insertions of its key |
| `ScatterProtocol.NewSlot` | data/gapbs/src/builder.h:309-312 | under any interleaving of fetch-and-adds and stores, a fetch-and-add yields a slot no pending store goes to |
| `ScatterProtocol.FetchKeeps` | data/gapbs/src/builder.h:309-312 | and keeps the invariant: each slot given out holds its value or a thread is about to store it |
| `ScatterProtocol.ScatterTerminates` | data/gapbs/src/builder.h:305-313 | every schedule takes two steps for each insertion at most and never gets stuck or out of bounds |
| `ScatterProtocol.ScatterCorrect` | data/gapbs/src/builder.h:305-313 | under every interleaving the neighbour array ends as if each fetch-and-add had stored at once, in their order |
| `BuildOrdinary.SquishCSR` | data/gapbs/src/builder.h:141-170 | lists become sorted, duplicate-free and loop-free, same neighbours otherwise |
| `BuildOrdinary.BuildDirection` | data/gapbs/src/builder.h:328-362 | ordinary build and squish give the ascending listing of the wanted neighbour sets |
| `BuildInPlace.SquishedEdgesSpec` | data/gapbs/src/builder.h:199-205 | sort, unique and remove_if leave the strictly sorted edges without loops |
| `BuildInPlace.SlotIsIndex` | data/gapbs/src/builder.h:206-212 | with sorted sources the slot of edge k is k |
| `BuildInPlace.WordKIsFree` | data/gapbs/src/builder.h:210-212 | writing word k of the edge memory leaves every unread edge readable |
| `BuildInPlace.OverwriteWithTargets` | data/gapbs/src/builder.h:210-212 | the copy through the edge list's own memory ends with all targets in order |
| `BuildInPlace.RevertOffsets` | data/gapbs/src/builder.h:215-217 | shifting down restores the range starts |
| `BuildInPlace.ScatterInverse` | data/gapbs/src/builder.h:227-233 | walking the finished lists builds every incoming list |
| `BuildInPlace.MakeDirectedInPlace` | data/gapbs/src/builder.h:197-234 | both sides equal the ascending neighbour sets of the edge list |
| `BuildSymmetric.BinarySearch` | data/gapbs/src/builder.h:241-243 | the search is right on every range partitioned by its key, sorted or not |
| `BuildSymmetric.SearchFindsInverse` | data/gapbs/src/builder.h:239-246 | in step 1 the search tells whether the inverse edge exists |
| `BuildSymmetric.CountMissing` | data/gapbs/src/builder.h:236-247 | counts the missing inverses of each vertex |
| `BuildSymmetric.GrowOffsets` | data/gapbs/src/builder.h:248-253 | every offset grows by the room of the vertices before it; the word read past the end of `invs_needed` in the last turn, whatever it is, reaches only the total |
| `BuildSymmetric.SpreadOne` | data/gapbs/src/builder.h:264-268 | one list moves up, last element first, though source and target overlap |
| `BuildSymmetric.Spread` | data/gapbs/src/builder.h:260-271 | the backward spread loses nothing: every list reaches the end of its grown range |
| `BuildSymmetric.ReversedPartition` | data/gapbs/src/builder.h:274-280 | a partly filled list (added sources, latest first, then old targets) is partitioned by the searched key |
| `BuildSymmetric.SearchUnsorted` | data/gapbs/src/builder.h:274-280 | so each search of step 3 finds the key iff the inverse edge exists |
| `BuildSymmetric.RoomLeft` | data/gapbs/src/builder.h:280-283 | when an inverse is added a free slot is left |
| `BuildSymmetric.FillStep` | data/gapbs/src/builder.h:280-283 | adding one inverse fills one free slot and disturbs no other list |
| `BuildSymmetric.FillAll` | data/gapbs/src/builder.h:272-285 | step 3 adds exactly the missing inverses, though lists grow while they are walked |
| `BuildMain.RoomFits` | data/gapbs/src/builder.h:254-255 | the enlarged graph fits into the memory the edge list had |
| `BuildMain.SymmetricList` | data/gapbs/src/builder.h:286-287 | each sorted list is the ascending listing of the symmetric neighbour set |
| `BuildMain.MakeSymmetricInPlace` | data/gapbs/src/builder.h:197-290 | returns exactly the symmetric closure without self-loops, lists sorted and duplicate-free |
| `BuildMain.SymmetricBuildersAgree` | data/gapbs/src/builder.h:316-363 | in-place and ordinary builder return the same offsets and neighbours, for every order of the fetch-and-adds |
| `BuildMain.DirectedBuildersAgree` | data/gapbs/src/builder.h:316-363 | the same for directed graphs, out and in |
| `BucketQueue.ToRangeIs` | data/ligra/ligra/bucket.h:319-324 | the slot of a number: null below the window, the remainder inside, the overflow bucket beyond |
| `BucketQueue.MoveDest` | data/ligra/ligra/bucket.h:108-119 | the destination of a move is its slot, or null when it stays in the overflow bucket |
| `BucketQueue.MoveKeeps` | data/ligra/ligra/bucket.h:108-119 | a legal move, its stale entry left behind, keeps the invariant and makes the identifier live |
| `BucketQueue.UnpackKeeps` | data/ligra/ligra/bucket.h:251-307 | dealing the overflow bucket out into the next window loses nobody |
| `BucketQueue.JumpKeeps` | data/ligra/ligra/bucket.h:292-299 | the jump to the least number left keeps every entry ahead of the window |
| `BucketQueue.TakeReturns` | data/ligra/ligra/bucket.h:341-358 | what the filter keeps is exactly the live identifiers with the least number |
| `BucketQueue.TakeKeeps` | data/ligra/ligra/bucket.h:341-358 | emptying the current bucket keeps the invariant |
| `BucketQueue.InitKeeps` | data/ligra/ligra/bucket.h:47-85 | the filled structure holds exactly the identifiers with a bucket |
| `BucketQueue.RunSettled` | data/ligra/ligra/bucket.h:94-104 | over any run of calls and moves, no identifier is lost or returned twice |
| `BucketQueue.RunOrderly` | data/ligra/ligra/bucket.h:94-104 | later calls return no smaller number and none of the earlier identifiers |
| `BucketQueue.RunDrained` | data/ligra/ligra/bucket.h:94-104 | once a call reports the null bucket everybody has been returned |
| `Buckets.Buckets.constructor` | data/ligra/ligra/bucket.h:47-85 | establishes the invariant from any map |
| `Buckets.Buckets.UpdateBucketsSeq` | data/ligra/ligra/bucket.h:225-238 | appends in order and counts exactly what it stored |
| `Buckets.Buckets.MoveAll` | data/ligra/ligra/bucket.h:108-138 | a batch of legal moves makes its identifiers live |
| `Buckets.Buckets.Unpack` | data/ligra/ligra/bucket.h:251-307 | the mismatch exit is never taken; `num_elms` stays the number of stored entries |
| `Buckets.Buckets.NextBucket` | data/ligra/ligra/bucket.h:94-104 | terminates and returns exactly the live identifiers with the least bucket number, or the null bucket iff there are none |
| `StableSorting.StableSortUnique` | data/ligra/ligra/blockRadixSort.h:190-195 | two stable sorts of a sequence are equal |
| `StableSorting.StableSortIsGather` | data/ligra/ligra/blockRadixSort.h:190-195 | a stable sort is a permutation with the same bucket starts |
| `StableSorting.LowThenHigh` | data/ligra/ligra/blockRadixSort.h:138-151 | stable by the low part, then stable by the high part, is stable by the whole key |
| `RadixSort.Log2Up` | data/ligra/ligra/blockRadixSort.h:36-42 | the least number of bits for i values |
| `RadixSort.DigitOnTop` | data/ligra/ligra/blockRadixSort.h:129-136 | a digit extracted by shift and mask sits on top of the bits below it |
| `RadixSort.RoundBits` | data/ligra/ligra/blockRadixSort.h:142-143 | each digit has between 1 and 8 bits |
| `RadixSort.PlacesDiffer` | data/ligra/ligra/blockRadixSort.h:63-71 | no two elements get the same place |
| `RadixSort.RadixBlock` | data/ligra/ligra/blockRadixSort.h:53-72 | also with counts and offsets in one array: the block is the stable gather and the offsets end as class starts |
| `RadixSort.RadixStepSerial` | data/ligra/ligra/blockRadixSort.h:74-80 | one digit is sorted stably; the bucket array holds the class starts |
| `RadixSort.RadixLoopBottomUp` | data/ligra/ligra/blockRadixSort.h:138-151 | low digits first is a stable sort by all bits |
| `RadixSort.OffsetsFromSorted` | data/ligra/ligra/blockRadixSort.h:225-235 | scanning the sorted array and the backward minimum give the number of keys below each i |
| `RadixSort.ISortX` | data/ligra/ligra/blockRadixSort.h:196-236 | a stable sort by key for every bound m, and `bucketOffsets[i]` is the number of keys below i on both paths |
| `TriangleSpec.SixOrders` | data/gapbs/src/tc.cc:109-124 | closed ordered triples are six times the triangles |
| `TriangleSpec.RenamedTriangles` | data/gapbs/src/builder.h:367-401 | renaming vertices keeps the number of triangles |
| `TriangleCount.MergeFinds` | data/gapbs/src/tc.cc:59-66 | where the pointer stops decides whether w is a neighbour of u |
| `TriangleCount.CountForEdge` | data/gapbs/src/tc.cc:56-68 | the unchecked pointer stays inside u's list and the pair's triangles are counted |
| `TriangleCount.OrderedCount` | data/gapbs/src/tc.cc:52-71 | equals the number of triangles |
| `TriangleCount.TCVerifier` | data/gapbs/src/tc.cc:109-128 | the sum of intersections is divisible by 6; the checker accepts exactly the triangle count |
| `Relabelling.SortRanks` | data/gapbs/src/builder.h:376-388 | new ids are a permutation in order of decreasing degree, and of decreasing old id where degrees are equal |
| `Relabelling.FillRow` | data/gapbs/src/builder.h:393-397 | one list under its new name, sorted, other lists untouched |
| `Relabelling.RelabelByDegree` | data/gapbs/src/builder.h:367-401 | the result is the graph under the new names; `new_ids[u] < new_ids[v]` iff u has the larger degree, or the same degree and the larger id |
| `Relabelling.Hybrid` | data/gapbs/src/tc.cc:95-100 | the count is the same whatever the heuristic answers |
| `PageWalkSpec.UpIsIndex` | src/page_table_walker.cc:1016-1038 | index and offset of an address are its leading digits and its digit at a level |
| `PageWalkSpec.DigitsRebuild` | src/page_table_walker.cc:1065-1092 | five nine-bit digits and the page offset rebuild every address below 2^57 |
| `PageWalkSpec.TrailSuffix` | src/page_table_walker.cc:26-74 | a walk started at a hit reads exactly the last entries of the walk from CR3 |
| `PageWalkSpec.EntryInPage` | src/page_table_walker.cc:190-202 | the address read lies in the table page the walk has come to; entries of eight bytes do not overlap |
| `PageWalkSpec.SamePrefix` | src/page_table_walker.cc:26-74 | addresses with the same leading digits are walked alike, so a tag determines the base |
| `PageWalkSpec.PscStays` | src/page_table_walker.cc:718-759 | entries of the MMU caches stay true when pages are added |
| `PageWalkSpec.FillKeeps` | src/page_table_walker.cc:994-1014 | filling in the base of a complete walk keeps the caches true |
| `PageWalkSpec.LevelsPresent` | src/page_table_walker.cc:81-116 | a walk that reaches the data page finds every level present |
| `PageWalkSpec.FaultCases` | src/page_table_walker.cc:718-759 | what a served fault maps, address by address: each new table page, the faulting page, and no other |
| `PageTree.TreeAgrees` | src/page_table_walker.cc:761-954 | the tree and the flat page table agree on every address |
| `PageTree.FramesDiffer` | src/page_table_walker.cc:761-954 | no two pages, table or data, share a frame |
| `PageTree.RootKeeps` | src/page_table_walker.cc:723-730 | the root page keeps the tree well formed |
| `PageTree.ChildKeeps` | src/page_table_walker.cc:732-743 | so does a table page below an empty entry |
| `PageTree.DataKeeps` | src/page_table_walker.cc:745-750 | and a data page, which the tree then maps |
| `PageWalker.DataKeepsFrame` | src/page_table_walker.cc:125-129 | the data returned carries the right frame; its page offset is right iff it is 1 |
| `PageWalker.PageTableWalker.HandlePageFault` | src/page_table_walker.cc:718-759 | adds a table page in each frame but the last, for exactly the missing levels, maps the address to the last frame, and maps nothing else |
| `PageWalker.PageTableWalker.CheckHit` | src/page_table_walker.cc:1040-1063 | answers iff the tag is cached, with the base of a walk from CR3 |
| `PageWalker.PageTableWalker.FillMmuCache` | src/page_table_walker.cc:994-1014 | the tag is cached afterwards, other caches are unchanged, all entries are true |
| `PageWalker.PageTableWalker.DeepestHit` | src/page_table_walker.cc:285-342 | the lowest level with a cached base, and that base is the one a walk from CR3 reads |
| `PageWalker.PageTableWalker.Accept` | src/page_table_walker.cc:279-406 | the first request is served at once; any other starts at the deepest hit, at the entry a walk from CR3 reads there, and changes nothing else |
| `PageWalker.PageTableWalker.SendNext` | src/page_table_walker.cc:190-202 | one level further, at the entry the walk from CR3 reads |
| `PageWalker.PageTableWalker.FillCaches` | src/page_table_walker.cc:79-112 | the bases of the complete walk are cached for all levels up to where it started; the caches of the levels above are as before |
| `PageWalker.PageTableWalker.Resume` | src/page_table_walker.cc:10-242 | pending at the next entry of the walk from CR3, dropped with nothing changed, or translated to the mapped frame with the caches filled; if an entry was missing exactly its pages have been added, otherwise the entries read are those of the walk from CR3 from the starting level down |
| `PageWalker.ResumedIff` | src/page_table_walker.cc:26-74 | dropped iff an entry is missing and the request is a droppable one, pending iff none is missing and levels remain; a droppable request never maps a page |
| `RobState.ReadyMeansWritten` | src/ooo_cpu.cc:934-1006 | an instruction with no outstanding source has all its youngest older writers completed |
| `RobState.CounterIsOutstanding` | src/ooo_cpu.cc:972-1006 | `num_reg_dependent` is the number of source links whose producer has not completed |
| `RobState.EnteredOnce` | src/ooo_cpu.cc:893-932 | a non-memory instruction enters a ready ring exactly once |
| `RobState.LinkStep` | src/ooo_cpu.cc:972-1006 | linking one source register to its youngest uncompleted writer keeps the invariant of the backward sweep |
| `RobState.AgeDone` | src/ooo_cpu.cc:934-970 | looking at one older entry leaves the sweep's invariant one age further |
| `RobState.FinishSchedule` | src/ooo_cpu.cc:893-932 | at the end of the sweep the buffer's invariant holds for the scheduled entry |
| `RobState.LinkedIffYoungestOpen` | src/ooo_cpu.cc:934-1006 | after the sweep each source is linked to its youngest older writer that has not completed, and to nothing else |
| `RobState.Start0Keeps` | src/ooo_cpu.cc:1008-1035 | starting the head of the first ready ring keeps the invariant |
| `RobState.StartMemKeeps` | src/ooo_cpu.cc:1073-1126 | so does sending off a memory instruction whose registers are ready |
| `RobState.ReleaseOne` | src/ooo_cpu.cc:1767-1810 | releasing one link lowers exactly its consumer's counter |
| `RobState.WokenCounts` | src/ooo_cpu.cc:1767-1810 | once a producer has completed every consumer counts exactly its sources that waited for it no more, and those left with none, and no others, have joined the first ring |
| `RobState.WokenFields` | src/ooo_cpu.cc:1767-1810 | an instruction left with nothing to wait for becomes ready, INFLIGHT if it is a memory access and COMPLETED as to scheduling otherwise; no other field of any entry changes |
| `RobState.RetireKeeps` | src/ooo_cpu.cc:1988-2145 | retirement takes nobody's producer away |
| `RobState.AddKeeps` | src/ooo_cpu.cc:462-499 | a new entry at the tail keeps the invariant |
| `ReorderBuffer.ReorderBuffer.AddToRob` | src/ooo_cpu.cc:462-499 | the slot at the tail holds exactly the instruction given, now the youngest; nothing else changes |
| `ReorderBuffer.ReorderBuffer.AddAndSchedule` | src/ooo_cpu.cc:462-1006 | dispatch and scheduling together: each source of the instruction given is linked to the youngest instruction before it that writes the register and has not completed, and to nothing else |
| `ReorderBuffer.ReadyRing.Push` | src/ooo_cpu.cc:911-931 | appends; the overflow check never fires |
| `ReorderBuffer.LookBack` | src/ooo_cpu.cc:934-970 | the backward scan around the array links every source register to its youngest uncompleted writer |
| `ReorderBuffer.ReorderBuffer.DoScheduling` | src/ooo_cpu.cc:893-932 | each source is linked to its youngest older writer that has not completed, other entries gain links to this one only, and it is in the second ring iff it waits for nobody and is no memory access |
| `ReorderBuffer.ReorderBuffer.ExecuteNext0` | src/ooo_cpu.cc:1008-1035 | only the head of the ring changes; what starts to execute has the youngest older writer of each source completed |
| `ReorderBuffer.ReorderBuffer.ExecuteNext1` | src/ooo_cpu.cc:1037-1058 | the same for the second ring |
| `ReorderBuffer.ReorderBuffer.StartMemory` | src/ooo_cpu.cc:1073-1126 | the same for a memory instruction |
| `ReorderBuffer.ReorderBuffer.RegRawRelease` | src/ooo_cpu.cc:1767-1810 | all links of a completed producer are released, in any order of consumers, without ring overflow; nothing else changes |
| `ReorderBuffer.ReorderBuffer.CompleteExecution` | src/ooo_cpu.cc:1661-1765 | an instruction has completed afterwards iff it had before, or it was executing, its cycle has come and, for a memory access, no access is outstanding; only then are consumers woken, by as many sources as waited for it |
| `ReorderBuffer.ReorderBuffer.RetireOne` | src/ooo_cpu.cc:1988-2145 | the oldest leaves, its slot emptied and the head moved on, iff it has completed, its latency is over and the write queue has room for all its stores |
| `DramSpec.DecodeRebuilds` | src/dram_controller.cc:753-797 | from the lowest bits up an address is its channel, bank, column, rank and row, each below its bound |
| `DramSpec.DecodeUnique` | src/dram_controller.cc:753-797 | so they determine an address within the capacity |
| `DramSpec.MappingOk` | src/dram_controller.cc:762-797 | two addresses compete for one row of one bank iff rank, bank and row agree |
| `DramSpec.WorkingIffOne` | src/dram_controller.cc:129-232 | a bank works iff exactly one scheduled entry maps to it, and `request_index` is that entry |
| `DramSpec.ScheduleKeeps` | src/dram_controller.cc:234-281 | starting a request on an idle bank keeps that |
| `DramSpec.ReleaseKeeps` | src/dram_controller.cc:6-67 | so does taking one back or removing it |
| `DramController.OldestHit` | src/dram_controller.cc:137-200 | the oldest request whose bank is idle with its row open |
| `DramController.OldestReady` | src/dram_controller.cc:202-232 | otherwise the oldest request whose bank is idle |
| `DramController.StartKeeps` | src/dram_controller.cc:234-281 | one start keeps bank states, counters, bus spacing and conservation of requests |
| `DramController.FinishKeeps` | src/dram_controller.cc:303-406 | one transfer keeps them; the request moves from the queue to the served ones |
| `DramController.SwitchKeeps` | src/dram_controller.cc:85-127 | with nothing scheduled the other queue may take over |
| `DramController.DramQueue.UpdateScheduleCycle` | src/dram_controller.cc:649-686 | finds the first of the oldest waiting entries |
| `DramController.DramQueue.UpdateProcessCycle` | src/dram_controller.cc:688-716 | finds the first of the oldest entries in service |
| `DramController.OldestCases` | src/dram_controller.cc:649-716 | what the searches find, entry by entry: older than any other candidate, or as old and before it |
| `DramController.DramChannel.Schedule` | src/dram_controller.cc:129-301 | row hits first, then oldest: exactly the chosen request and its bank start, due after tCAS if the row was open in the bank and after tRP + tRCD + tCAS if not, or nothing changes |
| `DramController.StartCases` | src/dram_controller.cc:234-281 | the request that starts and its bank, field by field, from the bank before |
| `DramController.StartOrder` | src/dram_controller.cc:137-232 | whichever request starts, no other startable one is a row hit when it is not, nor of its kind and older, nor as old and before it |
| `DramController.NoStart` | src/dram_controller.cc:202-236 | nothing starts only if no waiting request has a free bank |
| `DramController.HitNotLater` | src/dram_controller.cc:240-243 | of two requests that start in the same cycle a row hit is never due after a miss |
| `DramController.DramChannel.Process` | src/dram_controller.cc:303-477 | the sanity check never fires; the oldest scheduled request is transferred, or delayed because bus or bank is not ready, and nothing else changes |
| `DramController.ProcessCases` | src/dram_controller.cc:322-406 | nothing while the bank is not due; the bank waits for a busy bus; otherwise the slot is emptied, the bank idle with its row still open, and the bus busy for the return time |
| `DramController.DramChannel.ResetRemainRequests` | src/dram_controller.cc:6-67 | exactly the scheduled requests go back and their banks are freed, with the row left open iff the bank was due within tCAS; the counter is zero, as the sanity checks want |
| `DramController.WithdrawCases` | src/dram_controller.cc:22-49 | a request taken back waits from the current cycle on; its bank is idle, with the row open iff the bank was due within tCAS |
| `DramController.DramChannel.Operate` | src/dram_controller.cc:69-127 | a cycle keeps everything (requests accepted = served + stored, transfers the return time apart) and is a mode switch at the water marks followed by at most one start and one transfer |
| `DramController.DramChannel.AddRq` | src/dram_controller.cc:479-595 | a read is answered during the warm-up or by the first pending write to its address, merged with the first pending read, queued in a free slot iff its address is not zero, or dropped by a full queue |
| `DramController.DramChannel.AddWq` | src/dram_controller.cc:597-643 | a write is queued iff the warm-up is over, its address is not zero, not pending, and there is room |
| `LruSpec.ResidentIffRecent` | replacement/base_replacement.cc:40-79 | a tag is in the set iff it is among the most recent distinct tags, one per way |
| `LruSpec.FieldsOnto` | replacement/base_replacement.cc:146-155 | the `lru` fields take every value from 0 to NUM_WAY-1 |
| `LruSpec.HitKeeps` | replacement/base_replacement.cc:146-155 | a hit moves its tag to the front of the recency order |
| `LruSpec.FillKeeps` | src/cache.cc:2950-3038 | so does filling an unused way |
| `LruSpec.ReplaceKeeps` | replacement/base_replacement.cc:40-79 | and replacing the way with the largest field |
| `LruCache.LruSet.LruVictim` | replacement/base_replacement.cc:40-79 | a victim always exists: the first unused way, else the least recently used one |
| `LruCache.LruSet.LruUpdate` | replacement/base_replacement.cc:146-155 | more recent ways age by one, the way becomes 0 |
| `LruCache.LruSet.Access` | replacement/base_replacement.cc:16-36 | hit iff the tag is among the most recent ones; writeback hits do not count as accesses |
| `LruCache.ResidentAfterRun` | replacement/base_replacement.cc:16-79 | over every run: residency is recency, and the fields are a permutation |
| `ReReference.LastUseIsLast` | src/cache.cc:58-70 | the first pass records the last neighbour of a line that falls into an epoch |
| `ReReference.LayoutCovers` | src/cache.cc:59-65 | epochs and lines are stretches of consecutive vertices that cover all vertices; an epoch is as short and the lines as few as that allows |
| `ReReference.ByteUsed` | src/cache.cc:84-89 | a used non-final epoch's byte is the sub-epoch of the last use, at most 127, nothing truncated |
| `ReReference.ByteUnused` | src/cache.cc:90-103 | an unused epoch's byte is 128 + min(127, epochs to the next use) |
| `ReReference.ByteNever` | src/cache.cc:90-103 | it is 255 if there is none |
| `ReReference.ByteDescribes` | src/cache.cc:75-104 | the byte computed backwards has the meaning stated of the graph alone |
| `ReReference.FirstPass` | src/cache.cc:62-70 | the flat table ends as the last uses, every index in bounds |
| `ReReference.SecondPass` | src/cache.cc:73-104 | the flat matrix ends as the bytes, every index in bounds |
| `ReReference.CreateReRefMatrix` | src/cache.cc:58-104 | for every non-empty graph each byte means what it should: below 128 iff the line is used in that non-final epoch, and so on; the final epoch is 127 or 255 |
| `FastSet.WithBitHas` | inc/set.h:39-43 | setting a bit by shift and or changes no other bit |
| `FastSet.LimitFits` | inc/set.h:221-228 | the words a join with bound n touches are inside the array iff n < MAX_SIZE, and cover all values up to n |
| `FastSet.FastSet.InsertSmall` | inc/set.h:55-73 | the sorted array stays sorted, gains exactly x, and nothing if x was there |
| `FastSet.FastSet.SearchSmall` | inc/set.h:76-120 | linear and binary search are membership |
| `FastSet.FastSet.SmallToBit` | inc/set.h:124-134 | the words hold exactly the array's values |
| `FastSet.FastSet.Insert` | inc/set.h:147-170 | adds exactly x, across the switch of representation |
| `FastSet.FastSet.Search` | inc/set.h:175-193 | is membership in every representation |
| `FastSet.FastSet.Join` | inc/set.h:198-228 | is the union (of a large operand, its values in the words up to n), also of a set with itself |
| `FastSet.FastSet.Expand` | inc/set.h:232-261 | lists the members in strictly ascending order |
| `Sorting.AscendingUnique` | inc/set.h:232-261 | such a listing is determined by the members |
| `FastSet.Replay` | inc/set.h:147-228 | any sequence of insertions and joins on values below the bound yields the mathematical set |
| `FastSet.ReplayAndList` | inc/set.h:232-261 | and its listing, within an array of n slots |

## Left out

- DeltaStepping.DeltaStep: one thread; the threads are in `DeltaProtocol.DeltaStepCorrect`. Both assume that `frontier` is large enough and that distances do not overflow 32 bits.
- BreadthFirst.DOBFS: one thread; the threads are in `ConcurrentSearch.SearchCorrect`.
- BreadthFirst.BUStep: one thread; the threads are in `BottomUpProtocol.BottomUpCorrect`. Bits are booleans; a word of them is a slice.
- BreadthFirst.TDStep: one thread; the threads are in `TopDownProtocol.TopDownCorrect`. The scout count only steers the heuristic and is not specified; the search is proved correct for any choice of directions.
- ConcurrentSearch.UpRound: the loops that turn the window into bits and back again are one step each, with any order of the vertices in the window.
- SerialComponents.Link: one thread; the interleavings are in `LinkProtocol`.
- SerialComponents.Compress: one thread; the interleavings are in `CompressProtocol`.
- SerialComponents.HookAllEdges: one thread; the interleavings are in `HookProtocol`.
- SerialComponents.ShiloachVishkin: one thread; the interleavings are in `HookProtocol.ShiloachVishkinCorrect`.
- LinkProtocol, CompressProtocol, HookProtocol, DeltaProtocol, TopDownProtocol, BottomUpProtocol, ScatterProtocol: memory accesses are sequentially consistent, and a copy into slots a thread has reserved for itself is one step.
- Afforest: how the label to skip is sampled; it is an arbitrary label.
- BuildOrdinary, BuildInPlace, BuildSymmetric: unweighted edges; the C++ library's sort, unique, remove and binary search are modelled by functions and a method that meet their specifications. Offsets stand for pointers into the neighbour array.
- BuildInPlace.Realloc: `realloc` always succeeds; the exit when it fails is not modelled.
- BuildMain.MakeSymmetricInPlace: the word behind `invs_needed`, which `builder.h:252` adds to `total_missing_inv` in its last turn, is taken to be zero; with any other value the behaviour of the C++ code is undefined.
- BuildOrdinary.MakeCSR: one fetch-and-add and its store are one step; the interleavings of the two halves are in `ScatterProtocol.ScatterCorrect`.
- Relabelling.Hybrid: the sampling heuristic is an arbitrary answer; the exit for directed graphs is a precondition.
- Buckets: decreasing order and the parallel branch of `update_buckets` (same contents, chosen for large batches only).
- RadixSort.RadixLoopBottomUp: the serial step only; several blocks per step are left out.
- RadixSort.ISortX: the low-digit-first path with the serial step; high digits first (its split uses floating point) is left out, and so are the bucket offsets of an empty array on the long-key path, where the code reads its first element.
- OptGen: histories longer than the ring between two uses of a line; `add_prefetch`.
- PageWalker: one walk in flight, requests of the read queue only; the prefetch queue is left out. Addresses are below 2^57 and not zero, physical frames are any fresh numbers below 2^52-1 (the random search), no page has been swapped out, and the way a cache replaces is arbitrary. Table pages live in an arena and are named by index, not by pointer. Queue occupancies and cycles are left out.
- RobState, ReorderBuffer: any unscheduled entry may be scheduled next (the source scans in order); widths, the load and store queues and the memory-order links are left out; cycles, outstanding accesses and queue occupancies are parameters of the operations; `num_searched` limits are timing.
- ReorderBuffer.ReorderBuffer.CompleteExecution: what it tells the branch predictor and the fetch unit is left out.
- ReorderBuffer.ReorderBuffer.RetireOne: the stores it sends off and the store-queue entries it frees are left out.
- DramController: one channel of several independent ones, one clock for all requests; event cycles stay below the largest value; responses to the cores and statistics are left out.
- LruCache: one set, no invalidation; sets do not interact.
- ReReference.CreateReRefMatrix: 32-bit overflow of table sizes; the matrix of the other distance kind, which is compiled out.
- FastSet: the two members of the union are two arrays, of which the values are lost when the words are cleared.
- The cache's request handling (`handle_read`, `handle_prefetch`, `handle_fill` beyond lookup and fill, merging): a timing model whose merging rules are not stated anywhere.
- Floating-point kernels (PageRank, betweenness centrality, collaborative filtering), branch predictors, prefetchers, graph generators, command line, traces, statistics and printing.
