# Verification of Huron's core algorithms in Dafny

Huron finds and repairs false sharing. Its profiler records which thread touches which bytes of which
allocation, a post-processing pass computes a new layout for the bytes, a compiler pass rewrites loads and
stores to the new places, and a modified Lockless allocator provides the memory. This project models the
algorithms these parts rest on and proves that they do what they are for. `dafny verify dfyconfig.toml`
checks everything.

| part | files | main results |
|---|---|---|
| shared notions | `Basics` | predecessor lookup in sets of keys, sorting |
| layout repair | `Segments`, `MergeSegments`, `Placement`, `Layout`, `Relocation`, `Exactness`, `Repair` | the emitted lines are one injective relocation of exactly the recorded bytes; any trace reads the same values; bytes used by different threads share no cache line; the layout is the only one the accesses call for |
| loop unrolling and redirection | `LoopIR`, `Unroll`, `UnrollCorrect`, `Divisors`, `UnrollTrips`, `Redirects` | unrolled code computes what the loop computes; latches are dropped exactly when that is right; copy k gets line k |
| repair driver | `RepairFile`, `RepairOutcome` | one file for all allocations: when its lines are right for every one of them, down to whole traces; the input decides the file |
| the repaired loop | `RepairedLoop` | the unrolled and redirected loop on relocated memory computes what the original loop computes |
| call graph | `CallGraph` | thread sets are the exact closure of the hints |
| tree of free blocks | `BTree`, `BTreeInsert`, `BTreeDelete`, `BTreeNode`, `BTreeSlots`, `FreeTree` | refinement of a sorted list, also slot by slot, balance, best fit, spare nodes never run out |
| separators and regions | `BoundaryTags`, `TagSteps`, `Region`, `SmallRing` | exact tiling, no two free neighbours, recoverable offsets, a list kept inside the separators |
| slabs and fast lists | `Slab`, `FastBins` | disjoint objects, exact free chain; conservation and the exact failing case |
| remote frees | `HazardQueue`, `HazardSafety`, `HazardQueues`, `HazardRuns` | hazard-pointer safety over every run |
| locks | `FutexMutex`, `LiveIndex`, `LiveIndexRuns`, `LiveIndexHistory` | mutual exclusion, no lost wake-up, lookups that agree with a scan, identifiers never reused |

Concurrent code is a state machine: a state, the actions threads can take, a step function, and lemmas about
every legal sequence of actions by any number of threads. Sequential code that updates fields is a class whose
`Valid()` is kept by every method. Addresses and sizes are unbounded integers; where the width of a word or a
comparison matters it is written out.

## What the proofs found

- `DefaultUnrollLoop` passes the unroll count as the trip count, so the loop is replaced by that many copies.
  `UnrollTrips.DefaultExact` proves that this preserves the loop if and only if it makes exactly that many
  iterations; `UnrollTrips.DefaultBreaks` shows a loop of one iteration that two lines turn into two.
- The lines of all repaired allocations go into one file and are grouped by instruction and thread alone. If an
  instruction works on several repaired allocations, each copy gets one of their lines. `RepairFile.RightIff` proves
  exactly when that is right: the line handed out for a range must move as far as the allocation's own line for it.
  It always is for an instruction that a thread uses on one repaired allocation (`RepairFile.LoneRight`). Where the
  ranges inside each allocation move alike, it is exactly if all allocations move alike (`RepairFile.AlikeIff`).
  `RepairOutcome.TwoAllocations` gives two allocations for which every result of the pass is right apart and wrong
  together, and `RepairOutcome.RedirectTwo` the lines the pass then hands out.
- An instruction with one line is redirected where it stands, also if its loop is unrolled for the sake of another
  instruction; its clones are never entered into the table. `Redirects.ServedIff` proves that every copy has its line
  if and only if a loop does not hold both kinds, and `Redirects.MixedLoop` shows a loop that does.
- `fast_alloc` moves a block that is too small one bin down, which has no meaning in bin 0.
  `FastBins.FastLists.Alloc` proves the exact condition under which this happens (requests below 64 bytes that
  meet a smaller block first) and `FastBins.SmallEscapes` brings it about with one free and one request.
- The comparison that ends a slab also rejects an object that would end exactly at the end of the slab
  (`Slab.FreshIff`, `Slab.LastSlotLost`).
- The test by which the tree decides that a node has few children follows three links instead of counting. It
  is right for every number of children except two (`BTreeNode.Node.FewChildren`); a node that had at least
  four never has two (`BTreeSlots.DeleteTest`).

## Model

| member | source | states |
|---|---|---|
| Segments.MergeNeighbors | postprocess/Utils.h:139-155 | joined ranges cover the same bytes, every input range lies inside one of them, no result touches the next, the order of starts is kept, and the result is the left-to-right joining |
| MergeSegments.JoinOverlaps | postprocess/Repair.cpp:181-196 | the first pass yields disjoint ordered ranges; each entry lies inside the range that absorbed it and its mask is included; every inner point of a result is straddled by an entry |
| MergeSegments.JoinTouches | postprocess/Repair.cpp:200-211 | the second pass keeps masks exactly and leaves no touching neighbours of equal mask |
| MergeSegments.Merge | postprocess/Repair.cpp:181-212 | both passes together: disjoint, reduced, nothing covered that was not covered before, no bit without a source, and no range joined without need |
| MergeSegments.CellsCompose | postprocess/Repair.cpp:181-212 | in every part of a merged range that no recorded range crosses all threads of the range are at work |
| Placement.GroupByMask | postprocess/Repair.cpp:63-67 | each mask's group is the list of its ranges in order |
| Placement.GroupsPackable | postprocess/Repair.cpp:63-67 | the groups hold exactly the merged ranges, pairwise disjoint, none empty |
| Placement.CalcRemapping | postprocess/Repair.cpp:249-263 | every range is placed at the offset given by all ranges before it plus one line per group boundary, under its start as key |
| Placement.ImagesApart | postprocess/Repair.cpp:249-263 | images of different ranges do not overlap, and of different groups are a cache line apart |
| Layout.GetThreadAffinity | postprocess/Repair.cpp:214-223 | an entry per recorded range, with exactly the bits of the threads that use it |
| OrderedKeys.Floor | postprocess/Repair.cpp:272-274 | the largest key not above the argument |
| Layout.AllEqual.Next | postprocess/Utils.h:235-242 | keeps the flag true to the sequence of values offered |
| Layout.AllEqual.IsAllEqual | postprocess/Utils.h:244-246 | true exactly if all values offered were equal |
| Layout.RemapEntry | postprocess/Repair.cpp:266-286 | one line for all ranges exactly if they move alike, else one line per range, and adding a line's displacement moves each range by its own shift |
| Layout.Remap | postprocess/Repair.cpp:265-287 | every recorded range of every key is served by the lines of that key, and no other key gets lines |
| Relocation.RangeImage | postprocess/Repair.cpp:271-279 | the lookup finds the merged range that holds a byte, and the byte's new place |
| Relocation.RelocInjective | postprocess/Repair.cpp:249-263 | different covered bytes move to different places |
| Relocation.RelocInBounds | postprocess/Repair.cpp:249-263 | every covered byte moves into the new size |
| Relocation.SizeFormula | postprocess/Repair.cpp:249-263 | the new size is the number of covered bytes plus 64 per gap between groups |
| Relocation.NoLineShared | postprocess/Repair.cpp:252-260 | for any address of the block, bytes of ranges with different masks never fall into the same 64-byte line |
| Relocation.InsideMapped | postprocess/Repair.cpp:272-276 | the assertions of remap hold for every range inside a merged range |
| Relocation.RedirectIsReloc | postprocess/Repair.cpp:277-285 | redirection by the emitted lines is the relocation, also where equal displacements were collapsed to one line |
| Relocation.TracePreserved | postprocess/Repair.cpp:265-287 | any interleaving of loads and stores inside the recorded ranges reads the same values after redirection |
| Relocation.ContentsExist | postprocess/Repair.cpp:249-263 | every memory has a relocated counterpart, so the trace theorem applies to every initial memory |
| Repair.Normalize | postprocess/Repair.cpp:50-53 | ranges of each key are joined without changing what is covered and are ordered by start |
| Repair.MasksExact | postprocess/Repair.cpp:61-62 | a merged range has exactly the threads that use a range inside it |
| Repair.MergedExact | postprocess/Repair.cpp:61-62 | the merged ranges are those the relation calls for: exactly the recorded bytes and threads, joined only where a range straddles or both sides are used by all threads |
| Exactness.RangesUnique | postprocess/Repair.cpp:181-212 | there is only one such set of ranges |
| Exactness.PlanUnique | postprocess/Repair.cpp:61-69 | the recorded ranges determine merged ranges, groups and places |
| Exactness.LinesUnique | postprocess/Repair.cpp:266-286 | and the lines of every key |
| Exactness.CoveredHeld | postprocess/Repair.cpp:61-62 | the bytes that are moved are exactly the recorded ones |
| Exactness.RecordedSize | postprocess/Repair.cpp:249-263 | the new size is the number of recorded bytes plus 64 for every further set of threads that some clump of recorded bytes has |
| Exactness.ClumpAround | postprocess/Repair.cpp:181-196 | every recorded byte belongs to a clump of bytes that hang together by overlapping ranges |
| Exactness.ClumpsApart | postprocess/Repair.cpp:252-260 | bytes of clumps not used by the same threads never share a 64-byte line, for any address of the block |
| Repair.TakenCovers | postprocess/Repair.cpp:40-43 | a range replaced by static analysis covers the access exactly if the analysed range covers the accessed part of an element |
| Repair.LayoutPass.Insert | postprocess/Repair.cpp:37-47 | the accessed range, or the analysed one moved to the accessed element, is appended to its key; all other keys stay |
| Repair.LayoutPass.Arrange | postprocess/Repair.cpp:61-70 | whatever relation it is given: the plan the relation determines, lines that follow it, the exact thread sets and the new size |
| Repair.LayoutPass.Compute | postprocess/Repair.cpp:49-70 | the ranges of each key are the sorted ones with touching neighbours joined, and the plan is the one they determine |
| Repair.LayoutPass.constructor | postprocess/Repair.cpp:17-26 | the same from the raw list of accesses and the analysis |
| UnrollTrips.TurnMod | RedirectPtr/CustomUnrollLoop.cpp:655-661 | the copy that runs as iteration k is number k - 1 modulo the count |
| Unroll.Incoming | RedirectPtr/CustomUnrollLoop.cpp:547-556 | the value a header phi receives in a copy, with the first clone reading the original body |
| Unroll.CloneMap | RedirectPtr/CustomUnrollLoop.cpp:544-564 | the running map after a copy, all phis looked up before it changes |
| Unroll.CloneOnce | RedirectPtr/CustomUnrollLoop.cpp:534-632 | one copy: renamed code, latch condition, exit values, running map, and one reported clone per hooked instruction |
| Unroll.Clone | RedirectPtr/CustomUnrollLoop.cpp:526-632 | all copies and, for every hooked instruction, its clones in order |
| Unroll.DropPhis | RedirectPtr/CustomUnrollLoop.cpp:636-638 | replacing the phis one after the other replaces all of them everywhere by their preheader values |
| Unroll.RetargetPhis | RedirectPtr/CustomUnrollLoop.cpp:639-649 | a kept phi receives the value of the last copy |
| Unroll.UnrollLoop | RedirectPtr/CustomUnrollLoop.cpp:526-651 | the unrolled program in terms of the renaming function |
| UnrollCorrect.BodyAgrees | RedirectPtr/CustomUnrollLoop.cpp:623-631 | a copy of the body does to its renamed values what the body does |
| UnrollCorrect.EnterAt | RedirectPtr/CustomUnrollLoop.cpp:547-564 | header phis read the old values simultaneously, so they may swap |
| UnrollCorrect.RunAgrees | RedirectPtr/CustomUnrollLoop.cpp:526-651 | after any number of copies the unrolled code is in the state of as many iterations |
| UnrollCorrect.SameOutcome | RedirectPtr/CustomUnrollLoop.cpp:566-579 | memory and exit values agree whenever the loop is left |
| UnrollTrips.Decide | RedirectPtr/CustomUnrollLoop.cpp:315-409 | exactly when the loop is left alone, unrolled completely, or with a run-time count; the copies never exceed the count asked for nor a known trip count |
| UnrollTrips.UnknownCount | RedirectPtr/CustomUnrollLoop.cpp:400-409 | without a known trip count latches are kept at the multiples of the greatest common divisor of unroll count and trip multiple |
| UnrollTrips.Wire | RedirectPtr/CustomUnrollLoop.cpp:655-707 | which latch is conditional, falls through or leaves |
| UnrollTrips.TripsExactly | RedirectPtr/CustomUnrollLoop.cpp:655-707 | the unrolled loop makes the original number of iterations if and only if the plan is exact for it |
| UnrollTrips.PromisedExact | RedirectPtr/CustomUnrollLoop.cpp:400-409 | the plan is exact for a known trip count, for multiples of a trip multiple reduced by gcd, and for run-time counts divisible by the unroll count |
| UnrollTrips.UnrollPreserves | RedirectPtr/CustomUnrollLoop.cpp:526-707 | in those cases the unrolled loop has the same iterations, memory and exit values |
| UnrollTrips.DefaultExact | RedirectPtr/CustomUnrollLoop.cpp:833-841 | with the count passed as trip count the loop is preserved exactly if it makes that many iterations |
| UnrollTrips.DefaultBreaks | RedirectPtr/CustomUnrollLoop.cpp:833-841 | a loop that makes one iteration and no longer does when unrolled twice |
| Sorting.SortContents | RedirectPtr/Utils.h:27-28 | sorting keeps the elements |
| Sorting.SortUnique | RedirectPtr/Utils.h:27-28 | the sorted sequence depends on the elements alone |
| Redirects.BuildInfo | RedirectPtr/Utils.h:20-29 | each thread gets exactly its lines, sorted |
| Redirects.UnrollCount | RedirectPtr/UnrollLoopPass.h:63-83 | the common number of lines, or failure exactly if two instructions disagree |
| Redirects.StoreOne | RedirectPtr/UnrollLoopPass.h:87-93 | the original gets part 0 and clone i part i + 1 |
| Redirects.StoreHooks | RedirectPtr/UnrollLoopPass.h:85-95 | every copy of every hooked instruction has its entry, and nothing else does |
| Redirects.UnrollGroup | RedirectPtr/UnrollLoopPass.h:19-31 | succeeds exactly if all instructions have the same positive number of lines, and then yields the unrolled loop and the table |
| Redirects.Aligned | RedirectPtr/UnrollLoopPass.h:85-95 | the copy that runs as any iteration k carries line k modulo the count, index in range |
| Redirects.GroupLoop | RedirectPtr/GroupFuncLoop.h:91-102 | the loop is unrolled exactly if some instruction has several lines, and then needs a common number of them; part c is entered for copy c as far as there are parts |
| Redirects.ServedIff | RedirectPtr/GroupFuncLoop.h:91-102 | every copy of every instruction has its entry if and only if the loop does not mix instructions of one and of several lines |
| Redirects.MixedLoop | RedirectPtr/GroupFuncLoop.h:91-102 | a loop in which a clone is left without its line |
| RepairFile.RepairPass.InsertLines | postprocess/Repair.cpp:325-326 | the lines of each program counter are appended in order |
| RepairFile.RepairPass.Compute | postprocess/Repair.cpp:321-331 | every allocation gets the repair its accesses determine, its lines join those of the allocations before, and exactly the changed sizes are listed |
| RepairFile.RepairPass.PrintLayout | postprocess/Repair.cpp:362-375 | the file holds the lines of each program counter, sorted |
| RepairFile.GetThreaded | RedirectPtr/Utils.h:59-70 | a thread gets exactly its lines of the file, sorted |
| RepairFile.FileOrder | RedirectPtr/Utils.h:20-29 | what a thread gets does not depend on the order of the lines in the file |
| RepairFile.FileHands | RedirectPtr/Utils.h:20-29 | writing the file and reading it back gives a thread its lines of all allocations |
| RepairFile.LinesInOrder | RedirectPtr/Utils.h:27-28 | the repair pass emits the lines of a key already in sorted order |
| RepairFile.OwnRelocates | postprocess/Repair.cpp:277-285 | the lines of one allocation move every byte of its recorded ranges to its new place |
| RepairFile.RightIff | postprocess/Repair.cpp:322-326 | with the common file, every recorded byte of every allocation moves to its new place if and only if line k of all lines sorted together moves as far as the allocation's own line for range k |
| RepairFile.LoneRight | postprocess/Repair.cpp:322-326 | it does for an instruction and thread that occur in one repaired allocation |
| RepairFile.OneLineIff | postprocess/Repair.cpp:322-326 | for allocations with at most one line each it does if and only if they all move by the same distance |
| RepairFile.OneLineMeans | postprocess/Repair.cpp:280-285 | an allocation has at most one line for a key exactly if its ranges move alike |
| RepairFile.AlikeIff | postprocess/Repair.cpp:322-326 | where the ranges inside each allocation move alike the file is right exactly if all allocations move alike |
| RepairFile.PairWrong | postprocess/Repair.cpp:322-326 | two allocations whose first ranges move differently are redirected rightly apart and wrongly together |
| RepairOutcome.RepairUnique | postprocess/Repair.cpp:321-331 | the accesses to an allocation determine ranges, groups, places and lines of its repair |
| RepairOutcome.RightDecided | postprocess/Repair.cpp:321-375 | what every thread is handed, and whether it is right, is decided by the input |
| RepairOutcome.TwoAllocations | postprocess/Repair.cpp:322-326 | two allocations for which every result of the pass is right apart and wrong together |
| RepairOutcome.RedirectTwo | postprocess/Repair.cpp:321-375 | the pass, applied to them, hands thread 0 the lines 0 to 0 and 64 to 0 |
| RepairFile.CopiesRelocate | RedirectPtr/GroupFuncLoop.h:33-37 | the copy that runs as iteration k, of an unrolled loop or of one left alone, carries a table entry whose displacement moves every byte of the recorded ranges its line serves to its new place |
| RepairFile.FilePreserves | postprocess/Repair.cpp:321-331 | any interleaving of accesses to all repaired allocations by instructions with compatible lines reads the same values after redirection by the file |
| RepairedLoop.RunTwin | RedirectPtr/GroupFuncLoop.h:59-72 | a program whose accesses the table suits and its redirected form on relocated memory have the same values after any number of copies |
| RepairedLoop.CopyArgs | RedirectPtr/CustomUnrollLoop.cpp:623-631 | every instruction of a copy finds the operands the original finds in that iteration |
| RepairedLoop.OneLineServes | RedirectPtr/GroupFuncLoop.h:100-101 | the line of an instruction that has only one serves all recorded ranges in every iteration |
| RepairedLoop.LoopPreserved | RedirectPtr/GroupFuncLoop.h:19-49 | end to end: the loop as the pass leaves it, on relocated memory, has the iterations, exit values and memory of the original loop, for any number of iterations if it is left alone |
| RepairedLoop.MovedRelated | RedirectPtr/GroupFuncLoop.h:19-49 | every memory has a relocated counterpart for all allocations at once |
| CallGraph.Graph.HintThreads | RedirectPtr/CallGraph.h:96-102 | a hint counts exactly for functions of the graph and keeps thread sets accounted for |
| CallGraph.Graph.AddEdge | RedirectPtr/CallGraph.h:50-53 | one more edge, recorded on both sides |
| CallGraph.Graph.AddFunc | RedirectPtr/CallGraph.h:147-163 | new functions are complete, old ones unchanged except for the parent's new edge |
| CallGraph.Graph.AddStartFunc | RedirectPtr/CallGraph.h:92-94 | the graph stays complete: its edges are exactly the calls between defined functions |
| CallGraph.Graph.GoNext | RedirectPtr/CallGraph.h:76-87 | the search spreads threads to every caller it reaches and adds none that no hint accounts for |
| CallGraph.Graph.Propagate | RedirectPtr/CallGraph.h:104-106 | each function's threads are exactly those hinted for functions it reaches, with cycles and in any order |
| CallGraph.Graph.Cleanup | RedirectPtr/CallGraph.h:107-119 | exactly the functions without threads disappear, together with all edges to them |
| CallGraph.Graph.PropagateThreads | RedirectPtr/CallGraph.h:104-120 | the result in terms of calls and hints alone |
| CallGraph.CallersSurvive | RedirectPtr/CallGraph.h:82-85 | a function has at least the threads of each function it calls |
| BTreeInsert.Pos | others/tmi/src/ll_alloc.c:2637-2657 | the first entry whose key is large enough |
| BTreeInsert.InsertFlatSorted | others/tmi/src/ll_alloc.c:2674-2700 | the reference list stays sorted |
| BTreeInsert.InsertFlatContents | others/tmi/src/ll_alloc.c:2674-2700 | the reference list gains exactly the block |
| BTreeInsert.PutAtDelivers | others/tmi/src/ll_alloc.c:2777-2876 | a new entry in one node: order, legal sizes, both halves of a split, and the key reported upwards |
| BTreeInsert.InsertDelivers | others/tmi/src/ll_alloc.c:2777-2957 | insertion below any well-formed node refines sorted-list insertion and keeps depth, keys and node sizes |
| BTreeDelete.SearchFinds | others/tmi/src/ll_alloc.c:2637-2657 | the descent finds the position a scan of the list finds |
| BTreeDelete.FirstFitBest | others/tmi/src/ll_alloc.c:2660-2671 | that position holds the smallest size at or above the request |
| BTreeDelete.PairOk | others/tmi/src/ll_alloc.c:2406-2537 | rebalancing two neighbours keeps order and keys and leaves 4 to 16 children |
| BTreeDelete.DeleteDrops | others/tmi/src/ll_alloc.c:2539-2635 | removal below any well-formed node removes exactly the named block and keeps the shape |
| BTreeNode.InsertThreaded | others/tmi/src/ll_alloc.c:2944-2951 | the four link writes insert the slot into the list |
| BTreeNode.DeleteThreaded | others/tmi/src/ll_alloc.c:2615-2619 | unlinking removes exactly the slot |
| BTreeNode.FullIff | others/tmi/src/ll_alloc.c:2937-2942 | the mask is empty exactly when 16 slots are in use |
| BTreeNode.Node.constructor | others/tmi/src/ll_alloc.c:910-917 | an empty node |
| BTreeNode.Node.InsertAfter | others/tmi/src/ll_alloc.c:2928-2957 | the children gain the entry behind the given slot |
| BTreeNode.Node.Delete | others/tmi/src/ll_alloc.c:2608-2619 | the children lose exactly the entry of the slot |
| BTreeNode.Node.Scan | others/tmi/src/ll_alloc.c:2642-2654 | the slot of the first child whose key is large enough, 0 if there is none |
| BTreeNode.Node.FewChildren | others/tmi/src/ll_alloc.c:2631-2632 | the three-step test means at most three children exactly if there are not two |
| BTreeSlots.GapAppend | others/tmi/src/ll_alloc.c:2442-2452 | a slot linked behind the open end of a list moves the open end on |
| BTreeSlots.GapClose | others/tmi/src/ll_alloc.c:2493-2495 | the last two writes close the list |
| BTreeSlots.Count | others/tmi/src/ll_alloc.c:2425-2426 | the number of children |
| BTreeSlots.MoveFront | others/tmi/src/ll_alloc.c:2436-2459 | the first entries of the right node move to the end of the left one, in order |
| BTreeSlots.MoveBack | others/tmi/src/ll_alloc.c:2467-2495 | the last entries of the left node move to the front of the right one, in order |
| BTreeSlots.MergeInto | others/tmi/src/ll_alloc.c:2503-2524 | all entries of the left node precede those of the right one |
| BTreeSlots.MergeAux | others/tmi/src/ll_alloc.c:2406-2537 | rebalancing slot by slot refines rebalancing on lists, with the key reported to the parent |
| BTreeSlots.SplitAux | others/tmi/src/ll_alloc.c:2777-2876 | splitting slot by slot refines the split on lists, with the key of the new node and the report upwards |
| BTreeSlots.NodeInsert | others/tmi/src/ll_alloc.c:2928-2957 | insertion into one node, full or not, refines insertion on lists |
| BTreeSlots.DeleteTest | others/tmi/src/ll_alloc.c:2608-2634 | after a removal from a node of four or more the test along the links decides as counting would |
| FreeTree.TakenBound | others/tmi/src/ll_alloc.c:2777-2794 | an insertion takes at most one spare node per internal level |
| FreeTree.FreeTree.constructor | others/tmi/src/ll_alloc.c:1656-1660 | an empty tree of height 2 |
| FreeTree.FreeTree.InsertNode | others/tmi/src/ll_alloc.c:2777-2957 | the blocks become the sorted insertion; the spare list never runs dry, also when the root splits |
| FreeTree.FreeTree.Refill | others/tmi/src/ll_alloc.c:2705-2717 | spare nodes from slabs as far as they go |
| FreeTree.FreeTree.CarveOne | others/tmi/src/ll_alloc.c:2722-2771 | the smallest block leaves the tree and yields spare nodes, at least four if more are needed |
| FreeTree.FreeTree.CarveUp | others/tmi/src/ll_alloc.c:2719-2772 | carves up exactly a run of the smallest blocks, none if there are enough spare nodes |
| FreeTree.FreeTree.Cleanup | others/tmi/src/ll_alloc.c:2702-2772 | ends with enough spare nodes and never asks an empty tree; blocks used up are the smallest ones |
| FreeTree.FreeTree.Insert | others/tmi/src/ll_alloc.c:2959-2984 | sorted insertion followed by that refill |
| FreeTree.FreeTree.Remove | others/tmi/src/ll_alloc.c:2660-2671 | the smallest block that is large enough is removed, or there is none |
| FreeTree.FreeTree.DeleteNode | others/tmi/src/ll_alloc.c:2539-2635 | removal with the collapse of the root |
| FreeTree.Run | others/tmi/src/ll_alloc.c:2702-2984 | over any run of insertions and removals no block is lost, duplicated or invented |
| BoundaryTags.TilesExactly | others/tmi/src/ll_alloc.c:2210-2253 | every unit of a region lies in exactly one block |
| TagSteps.RebuildsOffset | others/tmi/src/ll_alloc.c:867-875 | the offset destroyed by the small list is rebuilt correctly from the right neighbour |
| TagSteps.ReadsLeft | others/tmi/src/ll_alloc.c:891-896 | the flags in front of a block lead to its free left neighbour |
| TagSteps.SplitTags | others/tmi/src/ll_alloc.c:919-926 | splitting keeps all separators true |
| TagSteps.RightTags | others/tmi/src/ll_alloc.c:4003-4025 | absorbing the right neighbour leaves only the separator behind it to fix |
| TagSteps.LeftTags | others/tmi/src/ll_alloc.c:4028-4053 | so does being absorbed by the left one |
| TagSteps.CloseTags | others/tmi/src/ll_alloc.c:840-846 | marking a block free keeps all separators true |
| TagSteps.TakeTags | others/tmi/src/ll_alloc.c:848-858 | so does marking it used |
| Region.Region.constructor | others/tmi/src/ll_alloc.c:4419-4439 | a new region is one block between two edges |
| Region.Region.Split | others/tmi/src/ll_alloc.c:3872-3907 | splits exactly if the remainder is worth having, and how |
| Region.Region.Detach | others/tmi/src/ll_alloc.c:4003-4022 | a free block leaves the list its size decides, the ring in the separators included |
| Region.Region.Take | others/tmi/src/ll_alloc.c:4138-4178 | a free block becomes used, everything else stays; the ring lists the remaining blocks of 16 bytes |
| Region.Region.MergeRight | others/tmi/src/ll_alloc.c:3989-4025 | the block with its free right neighbour: same units free, same blocks in use |
| Region.Region.MergeLeft | others/tmi/src/ll_alloc.c:4028-4053 | the same to the left; afterwards no neighbour is free |
| Region.Region.Close | others/tmi/src/ll_alloc.c:3909-3930 | the block is marked free and filed by size, a block of 16 bytes at the end of the ring |
| Region.Region.Free | others/tmi/src/ll_alloc.c:3933-4056 | exactly the units of the block become free and all other blocks in use stay, separators and ring stay true together; the region is given back exactly if nothing else is in use, it is small enough, and it is not wanted |
| SmallRing.SmallList.Insert | others/tmi/src/ll_alloc.c:3118-3134 | the block is last in the ring, and how the memory changes |
| SmallRing.SmallList.Remove | others/tmi/src/ll_alloc.c:3136-3146 | exactly the block leaves the ring and its separator is rebuilt |
| SmallRing.SmallList.DelFirst | others/tmi/src/ll_alloc.c:3148-3165 | the first block, with its separator rebuilt, or none exactly if the ring is empty |
| SmallRing.SmallList.Merge | others/tmi/src/ll_alloc.c:3167-3185 | the blocks of the other list follow in order |
| SmallRing.LinksKeepTags | others/tmi/src/ll_alloc.c:616-636 | links written into separators of listed blocks leave all separators true |
| SmallRing.FreedTags | others/tmi/src/ll_alloc.c:3118-3134 | freeing a block of 16 bytes, links included, keeps all separators true |
| SmallRing.TakenTags | others/tmi/src/ll_alloc.c:3136-3146 | so does taking one off the list |
| Slab.StartUnit | others/tmi/src/ll_alloc.c:1604-1616 | for every random number all objects fit behind the header |
| Slab.Slab.constructor | others/tmi/src/ll_alloc.c:3483-3536 | a new slab without live objects |
| Slab.Slab.Alloc | others/tmi/src/ll_alloc.c:3610-3647 | a new live object, disjoint from all others and inside the slab, taken from the chain first |
| Slab.Slab.Free | others/tmi/src/ll_alloc.c:3538-3568 | the object moves to the front of the chain; idle exactly if nothing is live |
| Slab.Slab.UserWrite | others/tmi/src/ll_alloc.c:3553-3555 | writes to live objects never disturb the chain |
| Slab.Slab.Recycle | others/tmi/src/ll_alloc.c:3553-3626 | allocation undoes the last free |
| Slab.FreshIff | others/tmi/src/ll_alloc.c:3629-3635 | which fresh objects are ever handed out |
| Slab.LastSlotLost | others/tmi/src/ll_alloc.c:3629-3635 | the last 64-byte object counted in the total is not |
| FastBins.Log2Exact | others/tmi/src/ll_alloc.c:1223-1234 | the position of the highest bit |
| FastBins.BinMono | others/tmi/src/ll_alloc.c:1223-1234 | larger sizes never go to lower bins, and all bins exist |
| FastBins.BinZero | others/tmi/src/ll_alloc.c:1223-1234 | bin 0 is exactly for sizes below 64 |
| FastBins.TooSmall | others/tmi/src/ll_alloc.c:4091-4112 | only the request's own bin can hold blocks that are too small, and they belong one bin lower as well |
| FastBins.FastLists.Free | others/tmi/src/ll_alloc.c:1260-1278 | the block goes to the front of the bin of its size and no other block moves |
| FastBins.FastLists.Search | others/tmi/src/ll_alloc.c:4091-4112 | one bin: a fitting block or none, nothing lost |
| FastBins.FastLists.Alloc | others/tmi/src/ll_alloc.c:4066-4125 | a block at least as large as asked, or none and then no scanned bin held one; no block lost; the exact condition for leaving the lists |
| FastBins.SmallEscapes | others/tmi/src/ll_alloc.c:4105-4112 | after a block of 16 bytes was freed, a request for 32 pushes it below bin 0 |
| HazardSafety.ProtocolStep | others/tmi/src/ll_alloc.c:1456-1550 | who may touch whose queue: kept by every step of every thread |
| HazardQueues.LastNode | others/tmi/src/ll_alloc.c:1503-1507 | while a dead queue is drained, a node without successor is the last one |
| HazardQueues.InvStep | others/tmi/src/ll_alloc.c:1280-1550 | chains, freed prefixes and open links: kept by every step |
| HazardRuns.Reachable | others/tmi/src/ll_alloc.c:1456-1582 | the invariants hold in every reachable state |
| HazardRuns.PushSafe | others/tmi/src/ll_alloc.c:1543-1545 | each of the three writes of a push acts on a queue that is neither gone nor being drained and on no freed node |
| HazardRuns.SealedForever | others/tmi/src/ll_alloc.c:1490-1504 | after the hazard scan no step of any later run adds to the dead queue |
| HazardRuns.FreedInOrder | others/tmi/src/ll_alloc.c:1294-1321 | the freed nodes of a queue are exactly the first ones pushed |
| HazardRuns.FreedOnce | others/tmi/src/ll_alloc.c:1294-1321 | no node is handed to the allocator twice |
| HazardRuns.NothingLeft | others/tmi/src/ll_alloc.c:1503-1514 | when a reaped thread is gone every node ever pushed to it is free |
| HazardRuns.Accounted | others/tmi/src/ll_alloc.c:1522-1550 | in every reachable state each remote free is in flight, queued at a thread that is there, or freed |
| FutexMutex.ExclusiveStep | others/tmi/src/ll_alloc.c:468-523 | at most one owner, and the locked byte says whether there is one |
| FutexMutex.AttendedStep | others/tmi/src/ll_alloc.c:480-513 | while somebody sleeps the lock is held or somebody will see to it; if contended is clear somebody is about to wake or grab |
| FutexMutex.Safe | others/tmi/src/ll_alloc.c:463-523 | both in every reachable state |
| FutexMutex.NoSleepForever | others/tmi/src/ll_alloc.c:487-513 | from every such state with a free lock and a sleeper, steps of two threads put one of them inside |
| LiveIndex.LookupIsScan | runtime/MallocInfo.h:132-148 | looking at the predecessor alone gives the answer of a scan of disjoint blocks |
| LiveIndexRuns.LockKeeps | runtime/SharedSpinLock.h:16-52 | the reader count is exact, one writer at most, and no reader beside a writer inside |
| LiveIndexRuns.Excluded | runtime/SharedSpinLock.h:16-52 | mutual exclusion in every reachable state, with optimistic readers coming and retreating |
| LiveIndexRuns.ReadersSafe | runtime/MallocInfo.h:132-148 | a reader never sees a half-changed index or a stale position |
| LiveIndexRuns.FoundNow | runtime/MallocInfo.h:132-148 | when a lookup leaves the lock its answer is the one a scan gives in that state |
| LiveIndexHistory.LookupAnswers | runtime/MallocInfo.h:132-148 | over any run: the value a lookup returns is the one a scan gives in some state between its call and its return |
| LiveIndexRuns.IdsUnique | runtime/MallocInfo.h:100-112 | blocks live at the same time have different identifiers |
| LiveIndexHistory.NeverReused | runtime/MallocInfo.h:100-112 | over any run: an identifier seen live in two states names the same block |
| LiveIndexHistory.TotalGrows | runtime/MallocInfo.h:100-112 | over any run: the record is only appended to and the next identifier never falls |
| LiveIndexRuns.TotalStep | runtime/MallocInfo.h:100-112 | the record has exactly one entry per identifier given out |
| LiveIndexRuns.Reachable | runtime/MallocInfo.h:100-148 | all of this in every reachable state |

## Left out

- Repair.LayoutPass.Compute: the optional extrapolation to more threads (`is_linear`, `extra_polate`), which reads
  ranges that need not exist and a difference that need not be set; everything behind it is
  `Repair.LayoutPass.Arrange`, proved for any relation.
- Repair.LayoutPass.constructor: thread ids are below 31, because `1 << thread` is an `int`; there is at least one
  access, and the element size of the analysis is positive, because the code dereferences and divides without a test.
- RepairFile.RepairPass.Compute: the same conditions for every allocation; reading and writing the text of the files
  and the lines of changed allocation sites behind `print_malloc` are not modelled.
- RepairFile.RightIff: where an instruction has several lines, iteration k works on the k-th range recorded for it,
  which is what the numbering of lines presumes.
- RepairedLoop.LoopPreserved: the same presumption; hooked instructions are loads and stores of one byte; calls and allocations in the table
  are not run.
- BTreeSlots.Count: the mask of a node is a set, so the bit arithmetic of `btree_count` is its cardinality.
- SmallRing.SmallList.Insert: one region holds the blocks of a list, and its head is written 0.
- Unroll.UnrollLoop: the body is one straight-line block; several blocks, sub-loops, peeling, LCSSA, dominator
  and loop-info updates and later simplification are services of LLVM.
- UnrollTrips.Decide: whether a remainder loop could be generated is an input, and that loop is not modelled.
- CallGraph.Graph.AddFunc: every call names its function; calls through pointers have no edge.
- FreeTree.FreeTree.InsertNode: nodes hold their children as a list; `BTreeSlots` refines insertion, splitting and
  rebalancing of nodes down to slots and links, one or two nodes at a time. Parent pointers, the packing of keys and
  links into one word and the sharing of memory between nodes and blocks are not modelled.
- BTreeNode.Node.InsertAfter: any free slot may be chosen, the source takes the lowest; likewise
  `BTreeSlots.MoveFront`, `BTreeSlots.MoveBack` and `BTreeSlots.MergeInto`.
- Region.Region.Free: which list a free block is in is modelled, the links inside the lists only for the smallest
  blocks (`SmallRing`); the fast lists are separate (`FastBins`), so a remainder of a split simply stays in use.
- Slab.Slab.Free: objects of other threads go through the queues of `HazardQueue`; the lists of slabs and chunks
  of slabs are not modelled.
- HazardRuns.Accounted: a node stands for one remote free, so a block that is reused and freed again is a new
  node; `free_nomem`, which uses no hazard pointer, is not part of the model.
- LiveIndexRuns.Reachable: one call of `insert` at a time, as its comment demands, and new blocks disjoint from
  the live ones; memory accesses are sequentially consistent. The bounding interval behind `contain` is not
  modelled.
- FutexMutex.Safe: memory accesses are sequentially consistent.
- The copy of the allocator with plain mmap, its Windows, 32-bit, debug, fork, mremap and statistics code.
- The clone lookup of the redirection pass, the instrumentation passes, detection and its graphs, log parsing.
- The page diffing of `tmimem.cpp`, the hooks, the perf and ptrace code and the bundled libraries.
