# RTMLton's heaps: a verified model

A Dafny model of the garbage-collected heaps in RTMLton's C runtime (`runtime/gc`), with proofs of what
the code promises. `dafny verify dfyconfig.toml` checks all of it.

The chunked real-time heap:

- `Chunk.dfy`: the IN_USE, MARK, GREY and RED bits of a chunk header, and that masking the word does what
  the model of the bits says.
- `ChunkHeap.dfy`, `Reservation.dfy`: the FIFO free list in an array of fixed-size chunks, allocation of
  linked chunks, and the protocol by which threads reserve before they allocate.
- `ArrayTree.dfy`, `ArrayIndex.dfy`: large arrays as trees with 75 pointers per node: building, counting,
  indexing, walking over the leaves, enumerating pointer slots.
- `ArrayAllocation.dfy`: array allocation as a whole, from the number of elements over reservation and free
  list to the finished tree.
- `FloatingPoint.dfy`: what rounding does to the floating-point expression in array indexing, in each of the
  formats in which C may evaluate it.
- `Marking.dfy`, `Sweep.dfy`: the depth-first marker, the worklist that stack marking leaves behind, the
  sweep, and whole cycles.
- `TriColour.dfy`: the strong tri-colour invariant under any interleaving of object scans, allocations and
  barriered writes.
- `Handshake.dfy`: how mutators and the collector agree on a cycle, for any number of threads.
- `ConcurrentMarking.dfy`: both together: the tri-colour invariant in every run of mutators, marker, sweep and
  protocol, with scans and writes broken into their steps.
- `ThreadStacks.dfy`: which stacks a cycle sees, and what becomes of objects that only other stacks reach.
- `Stacklet.dfy`, `StackRuns.dfy`: ML stacks as doubly linked chunks that grow and shrink, copying a stack, and
  whole runs of stack operations.

The classic collectors kept in the tree:

- `MarkCompact.dfy`: Jonkers' pointer-threading compaction on a word-addressed memory.
- `Cheney.dfy`: copying with weak pointers.
- `CrossMap.dfy`, `CardScan.dfy`: the incremental cross map, and the minor collection that finds old
  pointers through cards.
- `MinorCollections.dfy`: any number of minor collections with the program running in between.
- `Probing.dfy`, `HashCons.dfy`: the hash-cons table with double hashing.
- `MapSizes.dfy`: the inverse of the card and cross map sizes.

`Arithmetic.dfy` holds facts about products, quotients and powers of two that several of these need,
`Reachability.dfy` what is reached in a graph, `Wrappers.dfy` the option type.

Objects and chunks are named by index, except in `MarkCompact.dfy`, where headers have their low bit set
and addresses do not. Floating-point expressions are taken exactly, and `FloatingPoint.dfy` says when the one in
array indexing gives the same. Clocks, statistics and printing are left away; a result of `calloc` is a parameter.

## What the proofs found

- `updateCrossMap` casts the byte offset of the old generation's end to 8 bits before scaling it
  (generational.c:385-386), so the last entry is 0 instead of 64 exactly when the end is card-aligned
  (`CrossMap.LastEntryExact`, `CrossMap.LastEntryWrong`). The check and the card scan never rely on that entry.
- Indexing an array finds the child to follow with a division and a product of floating-point numbers (um.c:319).
  What they are rounded to depends on FLT_EVAL_METHOD, the format in which C evaluates such expressions:
  - In the 32-bit x86 build (runtime/Makefile:15 and 134; um_constants.h:10 excludes 64 bits) it is the extended
    format with 64 bits, and only the argument of `floor` is rounded to a double. Then the pointer is right for every
    distance in a slice whose cast to float is exact (`FloatingPoint.PointerRightWhen`), though the product before it
    becomes a double is not (`FloatingPoint.ExtendedProduct`). So every element of a tree with room for less than 2^24
    is found (`FloatingPoint.AlwaysRight`). Up to 2^32 elements a slice is right throughout if and only if its cast is
    exact (`FloatingPoint.ExtendedRightWhen`).
  - In single precision a distance of 49 or 63 whole children gives the child before, in double precision one of 55.
    So the search goes wrong for exactly those elements that start a leaf whose number, written to the base 75, ends
    in such a digit but for zeros (`FloatingPoint.SamePath`): in single precision first for the one that starts
    leaf 49, element 14700 of an array of bytes, in double precision for leaf 55 (`FloatingPoint.FirstMissed`). A
    level further down it then asks for the 76th of 75 pointers (`FloatingPoint.PastTheTable`).
  - The cast of the slice is to float in every format. For 31640625 elements of four bytes it is rounded down, and
    the last element is looked for behind the 76th pointer whatever the format (`FloatingPoint.LastOfLargeSlice`).
- The leaf chain of an array tree breaks after every 5625 leaves, so the walk over the leaves, and the
  enumeration of pointer arrays that uses it, can be complete only up to that size (`ArrayIndex.WalkComplete`,
  `ArrayIndex.LastLeafMissed`).
- The enumeration of an array whose elements are several pointers counts the unused end of each leaf as
  elements, so it may stop before the last leaf (`ArrayIndex.PointersVisited` has the exact condition): of 75
  pairs the last one is missed (`ArrayIndex.LastPairMissed`). Elements of 1, 3, 5, 15, 25 or 75 pointers leave
  nothing unused (`ArrayIndex.NoWaste`).
- Writes by the main thread before it has synchronised have no barrier and need none: nothing is marked then
  (`ConcurrentMarking.UnsyncedNeedsNoBarrier`). With scans and writes taken as single steps no interleaving breaks
  the strong tri-colour invariant (`ConcurrentMarking.WholeStrong`). When they are interleaved, exactly the stores
  of a white reference into a marked object, or into a slot that the scan under way has passed, break it
  (`ConcurrentMarking.StepKeeps`, `ConcurrentMarking.RunKeeps`), and both happen (`ConcurrentMarking.RacesBreak`).
  These steps make up the atomic ones (`ConcurrentMarking.ScanRefines`, `ConcurrentMarking.WriteRefines`), and in any
  heap whole cycles can be run with them (`ConcurrentMarking.WholeCycle`).
- Only `rtSync[0]` is reset after a cycle and threads from 2 on start out as synchronised, so their stacks
  are never marked (`Handshake.SyncedForGood`). A cycle keeps exactly what globals and the stack of the main thread
  reach (`ThreadStacks.KeptByMain`). An object that only frames of other threads reach is freed by the second cycle
  at the latest (`ThreadStacks.OtherStacksFreed`), even while it is in use (`ThreadStacks.LostObject`).
- The sweep's assertion on unmarked chunks, ISUNMARKED, is true of every header word
  (`Chunk.IsUnmarkedAlways`).
- A reservation of no chunks would still reserve one and break the cover of the free list exactly when
  everything free is reserved; the assertion at um.c:22 rules it out (`Reservation.EmptyRequest`).
- The sweep clears one flag per cycle, so a grey chunk of a dead object survives one sweep
  (`Sweep.DeadFreedWhen`) but not two (`Sweep.FloatingGarbage`). The header of a freed chunk is left as it
  was: only a local copy is cleaned.
- `STACKLET_Raise` drops frames without lowering StackDepth, so StackDepth is an upper bound for the
  number of the current frame; with the default ratios shrinking is safe all the same
  (`Stacklet.DefaultsSafe`).
- A shrink keeps the frames in use and finds a chunk to trim if and only if
  `index + 1 < size * (1 - ratio) <= size - 1` (`Stacklet.Thread.Shrink`, `Stacklet.Thread.MaybeGrowStack`).
  Accepted settings violate it: a shrink threshold of 0.95, or `stack-current-grow-threshold 100.0`, which
  init.c:229 stores in the shrink threshold, cuts off the current frame of a stack of 20 chunks with 19 in use
  (`Stacklet.LiveFrameTrimmed`), and a shrink ratio of 0.0 makes line 229 of garbage-collection.c follow a
  NULL link (`Stacklet.NothingToTrim`).
- The loop of `markStack` over the frames in use runs before it tests for its end: it meets the current frame
  if and only if there is one below it, and else runs off the end of the stack (`Marking.StopsAtCurrent`,
  `Marking.Marker.MarkStack`).
- The comment in `maybe_growstack` speaks of growth by 25%; the code adds 1.25 times the size
  (`Stacklet.Thread.Grow`).
- `growHashTableMaybe` counts re-inserted elements again, so `elementsLengthCur` is only an upper bound;
  half of the slots stay free nevertheless (`HashCons.Table.GrowHashTableMaybe`).

## Model

| member | source | states |
|---|---|---|
| Chunk.PaintWord | runtime/gc/ummark.c:267-277 | masking a header word in MARK or GREY mode changes the four flags as the model's `Paint` says, for every word |
| Chunk.ClearMark | runtime/gc/garbage-collection.c:579 | clearing MARK leaves the other flags alone |
| Chunk.ClearGrey | runtime/gc/garbage-collection.c:591 | clearing GREY leaves the other flags alone |
| Chunk.IsUnmarkedAlways | runtime/gc/um_constants.h:43 | the ISUNMARKED macro holds of every header word |
| ChunkHeap.ListAppend | runtime/gc/umheap.c:217-229 | linking a chunk behind the tail appends it to the list that the links spell out |
| ChunkHeap.ListPop | runtime/gc/umheap.c:39-51 | taking the head leaves the links of the rest of the list |
| ChunkHeap.ListConcat | runtime/gc/umheap.c:292-296 | linking one list behind another concatenates them |
| ChunkHeap.HowMany | runtime/gc/umheap.c:349-368 | the loop makes exactly the chunks that start more than one step before the end, and all of them fit |
| ChunkHeap.Heap.constructor | runtime/gc/umheap.c:329-375 | a new heap has all its chunks on the free list in address order |
| ChunkHeap.Heap.InsertChunkToFL | runtime/gc/umheap.c:208-252 | the chunk goes to the end of the free list; free and allocated chunks still partition the heap and fl_chunks is the length |
| ChunkHeap.Heap.InsertChunkToSubList | runtime/gc/umheap.c:255-274 | the same for the sweep's own list, the free list untouched |
| ChunkHeap.Heap.AddSweepListToFL | runtime/gc/umheap.c:278-310 | the free list becomes old list followed by the sweep's list, which is emptied |
| ChunkHeap.Heap.AllocNext | runtime/gc/umheap.c:33-63 | the oldest free chunk is handed out, grey if the thread has synchronised and red otherwise |
| ChunkHeap.Heap.AllocateChunks | runtime/gc/umheap.c:103-136 | the first chunks of the free list, in order, linked forth and back, in use and not marked, grey if the thread has synchronised and red if not; everything else untouched; the error exit exactly when more is asked than the heap has |
| ChunkHeap.Heap.AllocateArrayChunks | runtime/gc/umheap.c:177-205 | the same for array chunks with the same colours, linked one way and not yet in use |
| ChunkHeap.ReserveAllocation | runtime/gc/um.c:21-52 | on the heap, a reservation is the protocol's step and keeps reservations covered |
| ChunkHeap.AllocateReserved | runtime/gc/umheap.c:117-135 | an allocation that was reserved never meets an empty list or the error exit, hands out chunks of the stated colour, takes them off what the thread is owed and keeps reservations covered |
| ChunkHeap.AllocateArrayReserved | runtime/gc/umheap.c:177-205 | the same for array chunks |
| ChunkHeap.ColoursAre | runtime/gc/umheap.c:53-57 | no chunk that is handed out is marked, each is either grey or red by whether its thread has synchronised, and all but chunks of arrays are in use |
| Reservation.StepCovered | runtime/gc/um.c:33-50 | every step keeps: outstanding reservations add up to `reserved`, which the free list covers; a reserved allocation finds its chunks |
| Reservation.RunCovered | runtime/gc/umheap.c:103-136 | the same over every run of any number of threads, so the assertion `numChunks <= reserved` never fails |
| Reservation.RunConserves | runtime/gc/umheap.c:58-59 | over every run, what was handed out and not released is what the free list has lost |
| Reservation.EmptyRequest | runtime/gc/um.c:22-49 | a request for no chunks keeps the cover exactly when something free is not reserved |
| ArrayTree.CountAdd | runtime/gc/umarray-allocate.c:222-239 | the repeated ceilings of a full tree and of the rest add up |
| ArrayTree.CountTop | runtime/gc/umarray-allocate.c:232-239 | a tree that is large enough has one chunk on its top level |
| ArrayTree.NextChild | runtime/gc/umarray-allocate.c:111-132 | what is left in the pool is one node, its subtree and the rest; a subtree that is not full is the last one |
| ArrayTree.LeafStep | runtime/gc/umarray-allocate.c:83-101 | one more leaf under a node keeps the tree, the links and everything else |
| ArrayTree.NodeStep | runtime/gc/umarray-allocate.c:111-142 | a finished subtree becomes the next child, with the leaves of both linked into one chain |
| ArrayTree.LinksJoin | runtime/gc/umarray-allocate.c:134-142 | chains of leaves join, except that they break after every 5625 leaves |
| ArrayTree.PrevLeaf | runtime/gc/umarray-allocate.c:138-141 | the last pointer of the previous child is its last leaf, never NULL |
| ArrayTree.Store.GetLengthOfList | runtime/gc/umarray-allocate.c:26-36 | the length of the chunk list |
| ArrayTree.Store.Pop | runtime/gc/umarray-allocate.c:60-67 | the head of the list, unlinked; the rest is a list still |
| ArrayTree.Store.LinkLeaves | runtime/gc/umarray-allocate.c:80-104 | up to 75 leaves in list order as the children of the node, each linked to the next |
| ArrayTree.Store.CreateArrayTree | runtime/gc/umarray-allocate.c:69-146 | exactly the counted chunks are used, in list order; all leaves are at the same depth, from the left, and pointers have no gaps; no pop meets an empty list |
| ArrayTree.Store.AddChild | runtime/gc/umarray-allocate.c:111-143 | one turn of the loop keeps all of that, and the pool is empty exactly when the leaves are all placed |
| ArrayIndex.Ipow | runtime/gc/umarray-allocate.c:6-22 | squaring computes the exact power |
| ArrayIndex.CountChunks | runtime/gc/umarray-allocate.c:232-251 | the loop computes the sum of repeated ceilings, and at least one chunk |
| ArrayIndex.ArrayAllocate | runtime/gc/umarray-allocate.c:264-292 | given its chunks, they become an array of the wanted length, all of them used and in the order of the list, for every height that is not too small |
| ArrayIndex.TreeHeight | runtime/gc/umarray-allocate.c:216-218 | the logarithm to the base 75, rounded up: the least height with room for the leaves |
| ArrayAllocation.LinkedIsPool | runtime/gc/umheap.c:189-199 | the chunks that allocation has linked up are a list to build a tree from |
| ArrayAllocation.GCArrayAllocate | runtime/gc/umarray-allocate.c:197-293 | from the number of elements: fails exactly when the array is larger than the heap, waits exactly when its chunks are not free beside those reserved, else builds the array from just the oldest free chunks, grey or red by whether the thread has synchronised; reservations stay covered |
| ArrayIndex.NextLeaf | runtime/gc/um.c:319-331 | the quotient names the child below which the element lies, and e0 stays the first element of the subtree |
| ArrayIndex.Descend | runtime/gc/um.c:347-348 | the pointer that is followed is not NULL and the leaf is below it |
| ArrayIndex.FindLeaf | runtime/gc/um.c:290-350 | the search ends at leaf index / elements per chunk |
| ArrayIndex.UmArrayOffset | runtime/gc/um.c:208-383 | with line 319 taken exactly, an element of the tree is where a flat array of leaves has it: leaf index / epc, byte (index % epc) * elemSize + offset |
| ArrayIndex.PlaceInPayload | runtime/gc/um.c:363 | that byte is inside the payload |
| ArrayIndex.PlacesApart | runtime/gc/um.c:208-383 | distinct elements share no byte |
| FloatingPoint.NextRounded | runtime/gc/um.c:319 | with quotient and product rounded to 24, 53 or 64 bits and the argument of floor to a double, the pointer is that of the child that holds the element, or of the one before if the distance is 49 or 63 whole children in single precision, 55 in double precision |
| FloatingPoint.ExactPointer | runtime/gc/um.c:319 | without rounding the pointer is always that of the child that holds the element |
| FloatingPoint.PointerRightWhen | runtime/gc/um.c:319 | in slices whose cast to float is exact, of up to 12 million elements in single precision and up to 2^32 in the others, the pointer is right exactly when the distance is none of these: in extended precision always |
| FloatingPoint.SamePath | runtime/gc/um.c:306-350 | in trees of such slices the whole search is right exactly for the elements that do not start a leaf, or whose leaf number has a lowest non-zero digit to the base 75 other than 49 and 63 in single precision, 55 in double precision; in extended precision for all |
| FloatingPoint.AlwaysRight | runtime/gc/um.c:306-350 | in extended precision, the format of the 32-bit x86 build, every element of a tree with room for less than 2^24 is found |
| FloatingPoint.FirstMissed | runtime/gc/um.c:319 | in single precision the first element for which the search goes wrong is the one that starts leaf 49, in double precision leaf 55 |
| FloatingPoint.PastTheTable | runtime/gc/um.c:319-347 | in every format a distance of a whole slice gives 75, one more than the last pointer of a node |
| FloatingPoint.TooLarge | runtime/gc/um.c:319 | in single precision with larger children the pointer may also be one too high: a concrete distance |
| FloatingPoint.ExtendedProduct | runtime/gc/um.c:319 | in extended precision the product itself falls short at 49 and 63 whole children: it is right because floor takes a double |
| FloatingPoint.ExtendedRightWhen | runtime/gc/um.c:319 | in extended precision every element of a slice of up to 2^32 is found if and only if the cast of the slice to float is exact |
| FloatingPoint.LastOfLargeSlice | runtime/gc/um.c:319-347 | in every format the pointer found for the last of 31640625 elements is the 76th of 75 |
| ArrayIndex.UmWalkArrayLeafs | runtime/gc/umarray-allocate.c:163-194 | from a node its first leaf, from a leaf the next one |
| ArrayIndex.WalkLeaves | runtime/gc/umarray-allocate.c:163-194 | repeated calls give the leaves in the order of indexing, then NULL, up to the first break of the chain |
| ArrayIndex.WalkComplete | runtime/gc/umarray-allocate.c:134-142 | the walk reaches all leaves exactly when there are at most 5625, as in every tree of height 1 or 2 |
| ArrayIndex.LastLeafMissed | runtime/gc/umarray-allocate.c:134-142 | the walk over 421876 four-byte elements misses the last of 5626 leaves |
| ArrayIndex.ForeachPointer | runtime/gc/foreach.c:228-241 | on an array of elements of any number of pointers the callback is tried on all slots of the first leaves, in order, up to the end of the walk or to where the room in the leaves adds up to the bytes of the elements |
| ArrayIndex.PointersVisited | runtime/gc/foreach.c:235-241 | no slot comes twice; every pointer of every element comes if and only if there are at most 5625 leaves and the room in all leaves but the last is less than the elements need |
| ArrayIndex.PointerVisited | runtime/gc/foreach.c:236-239 | which pointers come: those of the elements in the leaves that are gone through |
| ArrayIndex.NoWaste | runtime/gc/foreach.c:235-239 | elements that fill their leaves, as single pointers do, always meet the second condition |
| ArrayIndex.LastPairMissed | runtime/gc/foreach.c:235-239 | an array of 75 pairs has three leaves, and the last is not gone through |
| ArrayIndex.ForeachMixed | runtime/gc/foreach.c:242-257 | with line 319 taken exactly, on mixed arrays of any height each pointer of each element is visited at its place, in order |
| Marking.Graph.MarkStep | runtime/gc/ummark.c:267-300 | marking an object that was shaded makes all its chunks marked, grey and not red |
| Marking.Graph.ShadeStep | runtime/gc/ummark.c:271-307 | shading changes only chunks that are neither grey nor marked |
| Marking.Graph.RunCloses | runtime/gc/ummark.c:207-247 | if every pointer from a marked to an unmarked object was a slot on the worklist, the marked set ends closed under pointers |
| Marking.Graph.MarkedExactly | runtime/gc/garbage-collection.c:505-521 | the marked set is then the old one and what the roots reach, neither more nor less |
| Marking.Marker.MarkUMArrayChunks | runtime/gc/ummark.c:516-550 | every chunk of the array tree is painted and no other |
| Marking.Marker.MarkChunk | runtime/gc/ummark.c:249-359 | every chunk of the object is painted and no other |
| Marking.Marker.IsMarked | runtime/gc/ummark.c:362-387 | an object counts as marked by its first chunk |
| Marking.Marker.Scan | runtime/gc/ummark.c:490-498 | the object and its children are shaded and then the object is marked |
| Marking.Marker.UmDfsMarkObjects | runtime/gc/ummark.c:459-513 | terminates; what it marks is reached, everything a newly marked object points to is marked, chunks of newly marked objects end black and all others as they were |
| Marking.Marker.AddToWorklist | runtime/gc/ummark.c:51-95 | the slot is appended, the array doubled when full |
| Marking.Marker.UmDfsMarkObjectsToWorklist | runtime/gc/ummark.c:553-613 | marks just this object and queues its slots, so that every pointer from marked to unmarked is a shaded slot on the worklist |
| Marking.Marker.IsWorklistShaded | runtime/gc/ummark.c:186-204 | the check at the start of a collection succeeds |
| Marking.Marker.MarkWorklist | runtime/gc/ummark.c:207-247 | every target of a queued slot is marked and the worklist ends empty |
| Marking.Marker.StartMarking | runtime/gc/garbage-collection.c:505-521 | marked afterwards: what was marked before and what globals and queued slots reach; closed under pointers; worklist empty |
| Marking.Marker.MarkStack | runtime/gc/garbage-collection.c:458-502 | succeeds if and only if the current frame is not the first; then marks exactly the targets of thread pointers and used frames, keeps the worklist complete, marks every chunk of the stack and no other chunk outside objects; otherwise goes through all frames before it follows a NULL link |
| Marking.StopsAtCurrent | runtime/gc/garbage-collection.c:481-489 | the loop over the used frames meets the current chunk if and only if it does not start there, and else stops at the NULL link |
| Sweep.FreedListHas | runtime/gc/garbage-collection.c:545-702 | the freed chunks are those of normal objects and arrays, in use, that are red with collectAll or neither red, marked nor grey |
| Sweep.FreedListOrdered | runtime/gc/garbage-collection.c:545-547 | freed chunks come in address order, each of them once |
| Sweep.SweptChunk | runtime/gc/garbage-collection.c:545-702 | the outcome for each chunk: freed as above; a red one that is not freed stays as it is, else MARK is dropped, or GREY if there is none; stack and weak chunks, free ones and those not in use keep type and header |
| Sweep.SweepHeap | runtime/gc/garbage-collection.c:524-722 | in both modes the free list becomes old list followed by the freed chunks in address order, and of each chunk of the heap it is stated whether it is freed and which flag it loses; stack chunks are passed over |
| Sweep.LiveKept | runtime/gc/garbage-collection.c:576-585 | no chunk of a live object is freed; after marking it is marked and not red |
| Sweep.DeadFreedWhen | runtime/gc/garbage-collection.c:558-620 | a chunk of a dead object goes to the free list at once exactly when it was red or not grey, and loses its shade otherwise |
| Sweep.NothingMarked | runtime/gc/garbage-collection.c:576-579 | no chunk of an object is marked after the sweep |
| Sweep.FloatingGarbage | runtime/gc/garbage-collection.c:632-697 | a chunk whose object is dead at the start of two cycles in a row is on the free list after the second |
| Sweep.PerformUMGC | runtime/gc/garbage-collection.c:724-766 | marking then sweeping: what was marked or is reached lives, the free list grows by the freed chunks, and stack chunks, weak chunks and those not in use are left alone |
| Sweep.LiveIsReached | runtime/gc/garbage-collection.c:458-521 | with all stacks marked, live is exactly reached from globals and stacks |
| Sweep.MarkStacks | runtime/gc/garbage-collection.c:458-502 | after all mutators have marked their stacks, marked is exactly what the stacks point to |
| Sweep.Collect | runtime/gc/garbage-collection.c:458-766 | a whole collection with mutators stopped keeps exactly what globals and stacks reach: none of those chunks is freed or left marked; stack chunks, weak chunks and those not in use are never freed, and only chunks of the stacks themselves get a mark; every other chunk is freed exactly when it is red or neither marked nor grey after marking |
| TriColour.Shared.WriteBarrier | runtime/gc/um.c:147-206 | shades the source of a write exactly when the destination is a stack slot or marked |
| TriColour.Shared.WB | include/c-chunk.h:97-107 | the field written holds the source and no other slot changes; the source is shaded if it is white, the thread has synchronised and the destination is marked, and no other header changes |
| TriColour.Shared.WBStack | runtime/gc/um.c:153-177 | a write to a stack slot shades the source, if it is white, whenever the thread has synchronised, and nothing else |
| TriColour.Shared.ScanObject | runtime/gc/ummark.c:489-498 | an object that was not marked is marked and grey and not red, its children are grey or marked, all other headers and all fields are as before; a marked object is left alone |
| TriColour.Shared.Allocate | runtime/gc/umheap.c:53-57 | a new object is in use, not marked, grey if its thread has synchronised and else red; the others are untouched and the strong invariant survives |
| TriColour.PlainWriteStrong | include/c-chunk.h:99-100 | a write keeps the invariant exactly when the object is not marked or the reference not white |
| TriColour.StepStrong | runtime/gc/um.c:147-206 | every step keeps the strong invariant, but for an unsynchronised write, which keeps it exactly when safe |
| TriColour.AllSyncedStrong | include/c-chunk.h:97-107 | once all threads have synchronised, no interleaving breaks the invariant |
| Handshake.MutatorInv | runtime/gc/garbage-collection.c:922-982 | each step of a mutator keeps the protocol's invariant |
| Handshake.CollectorInv | runtime/gc/garbage-collection.c:319-391 | each step of the collector keeps it |
| Handshake.CollectorGetsLock | runtime/gc/garbage-collection.c:324-327 | the collector takes the lock when nobody has it and waits otherwise |
| Handshake.CollectorSleeps | runtime/gc/garbage-collection.c:326-327 | without a request it gives up the lock and nothing else changes |
| Handshake.CollectorCollects | runtime/gc/garbage-collection.c:326-385 | with a request, two steps on it runs under the lock with all else as it was; four steps later it has ended: the request is gone, only rtSync[0] is reset, nobody counts as having marked, the lock is free |
| Handshake.CollectsAnyway | runtime/gc/garbage-collection.c:326-385 | the same in every interleaving with any number of mutator steps |
| Handshake.CallBegins | runtime/gc/garbage-collection.c:922-932 | a thread that has synchronised does not call; another waits for the lock, takes it when it is free and goes on to mark its stack |
| Handshake.CallEnds | runtime/gc/garbage-collection.c:953-981 | the call ends with the stack marked, the thread synchronised and the lock free, and with a request exactly when all others have synchronised |
| Handshake.AgreementHolds | runtime/gc/garbage-collection.c:319-391 | in every interleaving: dirty means all mutators are synchronised, the collector runs only under the lock, and the assertions of lines 471 and 932 hold |
| Handshake.OneInSection | runtime/gc/garbage-collection.c:929-981 | at most one mutator is in the critical section |
| Handshake.MainStackMarked | runtime/gc/garbage-collection.c:953-976 | when a collection is requested the main thread has marked its stack since the last one |
| Handshake.SyncedForGood | runtime/gc/garbage-collection.c:372-373 | a thread that counts as synchronised from the start never marks its stack |
| ThreadStacks.OnlyMainMarks | runtime/gc/garbage-collection.c:372-373 | in every interleaving, when a cycle is requested the main thread has marked its stack and no other thread has |
| ThreadStacks.KeptByMain | runtime/gc/garbage-collection.c:458-521 | a cycle that starts from what the protocol has marked keeps exactly what globals and the stack of the main thread reach |
| ThreadStacks.OtherStacksFreed | runtime/gc/garbage-collection.c:545-702 | the chunk of an object that only stacks of other threads reach is freed by the second of two cycles at the latest |
| ThreadStacks.LostObject | runtime/gc/init.c:431-436 | a run of three threads in which a cycle frees an object that a live frame of thread 2 points to |
| ConcurrentMarking.StepCore | runtime/gc/garbage-collection.c:319-391 | whatever mutators write, every step keeps: only the main thread and the collector mark, what is marked during a sweep is still to be swept, and nothing is marked from the end of a cycle until the main thread marks its stack |
| ConcurrentMarking.UnsyncedNeedsNoBarrier | include/c-chunk.h:97-107 | in every reachable state a thread that has not synchronised is the main thread, and no object is marked or being scanned |
| ConcurrentMarking.StepKeeps | runtime/gc/um.c:147-206 | a step keeps the strong tri-colour invariant, extended to the slots that the scan under way has passed, if and only if it is not a store of a white reference into such a slot or a marked object |
| ConcurrentMarking.RunKeeps | runtime/gc/ummark.c:489-498 | in every run the first such store is where the invariant first fails |
| ConcurrentMarking.WholeStrong | include/c-chunk.h:97-107 | when no scan is interleaved with a write, nor a barrier with other steps before its store, the invariant holds in every reachable state of any number of threads outside of a sweep, with no other condition on writes |
| ConcurrentMarking.RacesBreak | runtime/gc/ummark.c:489-498 | two runs from an unmarked heap in which a synchronised thread breaks it: a store during a scan, and a scan between barrier and store |
| ConcurrentMarking.WriteRefines | include/c-chunk.h:97-107 | barrier and store, one after the other, are the atomic write of TriColour.Shared.WB and change nothing else |
| ConcurrentMarking.StackWriteRefines | runtime/gc/um.c:153-177 | so is a stack write |
| ConcurrentMarking.AllocateRefines | runtime/gc/umheap.c:53-57 | so is an allocation |
| ConcurrentMarking.SyncRefines | runtime/gc/garbage-collection.c:953 | so is the synchronising of a thread |
| ConcurrentMarking.ScanRefines | runtime/gc/ummark.c:489-498 | shading the object, shading its children one by one and marking it are the atomic scan of TriColour.Shared.ScanObject and change nothing else |
| ConcurrentMarking.SweepObjectIs | runtime/gc/garbage-collection.c:560-620 | sweeping an object leaves a red header alone and else drops MARK, or GREY if there is none |
| ConcurrentMarking.SweepEnds | runtime/gc/garbage-collection.c:361-385 | from every state in which the collector runs and nothing is being scanned, sweep and cycle can be ended with nothing marked |
| ConcurrentMarking.WholeCycle | runtime/gc/garbage-collection.c:319-391 | in every heap, for any number of threads and any object, a whole cycle can be run: call, marking of the object, collection, sweep; at the end the object has lost its mark and kept its shade, nothing is marked and the request is gone |
| Stacklet.ChainJoin | runtime/gc/garbage-collection.c:208-212 | linking new chunks behind the last one gives one chain |
| Stacklet.ChainCut | runtime/gc/garbage-collection.c:229-230 | cutting leaves a chain |
| Stacklet.DefaultsSafe | runtime/gc/init.c:356-359 | with the default ratios every shrink keeps the frames in use, for StackDepth at least the number of the current frame |
| Stacklet.LiveFrameTrimmed | runtime/gc/init.c:225-266 | accepted settings under which a shrink cuts off the current frame |
| Stacklet.NothingToTrim | runtime/gc/init.c:248-255 | a shrink ratio of 0.0 is accepted and leaves no chunk to trim |
| Stacklet.Thread.Grow | runtime/gc/garbage-collection.c:202-212 | the larger of ten chunks and 1.25 times the size, without its fraction, is added at the end; frames, current frame and depth stay |
| Stacklet.Thread.Shrink | runtime/gc/garbage-collection.c:223-231 | for every ratio from 0 to 1: the chain is cut to its share, rounded up and at least one; a NULL link is followed if and only if the share is more than all chunks but one; the frames in use and the next chunk survive if and only if the share takes them in |
| Stacklet.Thread.MaybeGrowStack | runtime/gc/garbage-collection.c:169-237 | the size of the stack in each case: unchanged, with the memory, if growth is off or the stack small, or between the thresholds; grown at the end by the larger of ten chunks and the ratio's share without its fraction if that is forced or the use is beyond the threshold; cut to the share that is kept, rounded up, if the use is low; the frames in use survive if and only if there is nothing to shrink or the shrink keeps them |
| Stacklet.Thread.Push | include/c-chunk.h:330-371 | push and pop of a stack of frames; the current frame keeps a successor, the chain its recorded length, and StackDepth stays the number of the current frame if it was |
| Stacklet.Thread.Return | include/c-chunk.h:373-388 | goes on where the frame below says, if there is one |
| Stacklet.Thread.Raise | include/c-chunk.h:390-409 | unwinds to the frame after the handler's and leaves the depth alone, which is then right exactly when no frame was dropped |
| Stacklet.Thread.CallAndReturn | include/c-chunk.h:330-388 | a call and its return leave the frames as they were, but for the return address |
| Stacklet.UmCopyStack | runtime/gc/umstack.c:117-191 | the copy has the same frames, the next chunk, depth, current frame and exception frame; the original is unchanged |
| StackRuns.Step | include/c-chunk.h:330-409 | each operation on the chunks does to the frames, the depth and the exception frame what it does to a plain list |
| StackRuns.Run | include/c-chunk.h:330-409 | so does every run of calls, returns, raises, writes and resizings |
| StackRuns.CallAndPop | include/c-chunk.h:330-371 | on the plain list a call and its pop restore frames, depth and exception frame, but for the return address |
| StackRuns.RaiseUnwinds | include/c-chunk.h:390-409 | an exception drops just the frames above the one after the handler's |
| MarkCompact.ThreadStep | runtime/gc/mark-compact.c:48-62 | threading a slot adds it to the chain that hangs off its target's header |
| MarkCompact.UnthreadStep | runtime/gc/mark-compact.c:208-221 | unthreading a slot gives it the new address and takes it off the chain |
| MarkCompact.OldGeneration.ThreadInternalObjptr | runtime/gc/mark-compact.c:48-62 | swaps slot and header word |
| MarkCompact.OldGeneration.UpdateForwardPointers | runtime/gc/mark-compact.c:91-227 | pointers to later objects and from globals get their new address; every gap of four words or more before a live object is one word8 vector that fills it |
| MarkCompact.OldGeneration.UpdateBackwardPointersAndSlide | runtime/gc/mark-compact.c:229-362 | the other pointers get theirs, marks are cleared and objects slide down |
| MarkCompact.OldGeneration.MarkCompactGC | runtime/gc/mark-compact.c:392-394 | every live object is at its address less the gap before it with its contents, pointers changed to the new addresses; globals too; oldGenSize is the sum of live sizes |
| MarkCompact.DestBelow | runtime/gc/mark-compact.c:316-328 | objects only move down |
| MarkCompact.PointersFollow | runtime/gc/mark-compact.c:229-362 | a pointer slot of a moved object holds the new address of its target |
| MarkCompact.MovedHead | runtime/gc/mark-compact.c:311-316 | a moved object keeps type and size and has no mark |
| MarkCompact.CompactedHeap | runtime/gc/mark-compact.c:355-362 | the old generation is then the live objects end to end in their old order |
| MarkCompact.SlotsAre | runtime/gc/foreach.c:105-171 | the pointer slots of an object are exactly pointer `j` of element `i`, data before pointers |
| Cheney.CopyOne | runtime/gc/forward.c:87-118 | copying moves an object's words from one side of the account to the other |
| Cheney.ForwardScanning | runtime/gc/forward.c:45-121 | copying one more object disturbs no copy made before |
| Cheney.Collector.ForwardObjptr | runtime/gc/forward.c:30-128 | an object is copied once; the slot gets the address of the copy |
| Cheney.Collector.ForeachObjptrInRange | runtime/gc/foreach.c:317-342 | the scan of the growing to-space ends with every copy scanned |
| Cheney.Collector.UpdateWeaksForCheneyCopy | runtime/gc/cheney-copy.c:14-38 | weak pointers to copied objects are updated and the others cleared |
| Cheney.ReachedIsCopied | runtime/gc/cheney-copy.c:79-88 | copied is exactly reached along strong pointers |
| Cheney.NoPointerBack | runtime/gc/cheney-copy.c:79-88 | nothing in to-space points back |
| Cheney.WeakSurvives | runtime/gc/cheney-copy.c:14-38 | a weak object stays valid exactly when its target is strongly reached |
| Cheney.CopyIsomorphic | runtime/gc/forward.c:30-128 | the copy has the shape of the original, pointer by pointer |
| Cheney.MajorCheneyCopyGC | runtime/gc/cheney-copy.c:49-88 | a major collection copies all this within toLimit and redirects the globals |
| CrossMap.LastEntryExact | runtime/gc/generational.c:385-386 | the entry for the end is right exactly when the end is not card-aligned |
| CrossMap.LastEntryWrong | runtime/gc/generational.c:385-386 | one object that fills the first card: the entry is 0 and should be 64 |
| CrossMap.NextBoundary | runtime/gc/generational.c:364-380 | moving to the next object keeps all entries but the last card's right |
| CrossMap.OldGeneration.Extend | runtime/gc/cheney-copy.c:145 | the old generation may grow without the map following |
| CrossMap.OldGeneration.UpdateCrossMap | runtime/gc/generational.c:325-395 | the incremental map equals the map computed from all objects, but for the last entry |
| CrossMap.OldGeneration.Recompute | runtime/gc/generational.c:304-317 | the check's own map holds the last boundary of every card |
| CrossMap.OldGeneration.IsCrossMapOk | runtime/gc/generational.c:294-322 | the check says whether all entries below the last card are right |
| CrossMap.OldGeneration.UpdateAndCheck | runtime/gc/generational.c:388-390 | after an update the check succeeds |
| CardScan.SkipCard | runtime/gc/forward.c:206-220 | at an unmarked card the scan may go on at its last boundary |
| CardScan.CleanNext | runtime/gc/forward.c:198-199 | forwarding one object cleans everything up to the next |
| CardScan.Scanner.MarkedCard | runtime/gc/forward.c:179-205 | a marked card is scanned to its end and the scan moves to the card of the next object |
| CardScan.Scanner.UnmarkedCard | runtime/gc/forward.c:206-220 | an unmarked card is skipped without missing a nursery pointer |
| CardScan.Scanner.ForwardInterGenerationalObjptrs | runtime/gc/forward.c:147-225 | terminates with no old slot holding a nursery pointer |
| CardScan.CopyNursery | runtime/gc/cheney-copy.c:130-142 | globals, old slots and copies hold what they held with nursery pointers replaced; exactly the reached objects are copied |
| CardScan.MinorCheneyCopyGC | runtime/gc/cheney-copy.c:102-154 | the old generation grows by the copies, or by the nursery as it is when minor collection is off |
| MinorCollections.Store | runtime/gc/generational.c:68-87 | a write to an old slot with card marking keeps pointers into the nursery in marked cards |
| MinorCollections.MinorGC | runtime/gc/cheney-copy.c:102-154 | the promoted objects, slots and all, are part of the old generation as the next collection needs it described |
| MinorCollections.SettledNames | runtime/gc/cheney-copy.c:102-154 | a pointer to copy `q` becomes the old pointer to the object whose boundaries are where copy `q` lies |
| MinorCollections.Collections | runtime/gc/cheney-copy.c:102-154 | any number of minor collections with any allocations and writes in between: each finds the old generation as it needs it and leaves no pointer into the nursery |
| Probing.OddCancels | runtime/gc/hash-cons.c:23-26 | a power of two that divides a multiple by an odd number divides the other factor |
| Probing.SlotAtIs | runtime/gc/hash-cons.c:126-156 | with 32-bit wrap-around the slots are an arithmetic progression modulo the table size |
| Probing.ProbesDistinct | runtime/gc/hash-cons.c:23-26 | as many probes as there are slots never repeat one |
| Probing.ProbesVisitAll | runtime/gc/hash-cons.c:23-26 | probing visits every slot |
| HashCons.LargestFit | runtime/gc/hash-cons.c:57-78 | the largest power of two that fits, at least 64 |
| HashCons.View.RoomLeft | runtime/gc/hash-cons.c:131-158 | as long as a slot is free, probing finds one |
| HashCons.View.NotThere | runtime/gc/hash-cons.c:137-153 | contents not met before an empty slot are not in the table |
| HashCons.Table.SameContents | runtime/gc/hash-cons.c:165-182 | the comparison decides equality of contents, whatever lies past the end of the stored object |
| HashCons.Table.Search | runtime/gc/hash-cons.c:125-184 | the probe loop ends at the representative of the contents or proves there is none |
| HashCons.Table.InsertHashTableElem | runtime/gc/hash-cons.c:99-185 | insertion is insertion into a map from contents to representatives |
| HashCons.Table.Reinsert | runtime/gc/hash-cons.c:215-220 | the grown table represents the same map |
| HashCons.Table.GrowHashTableMaybe | runtime/gc/hash-cons.c:187-227 | growth keeps the map; half the slots are free for as long as insertion is allowed, one always |
| HashCons.Table.ComputeHash | runtime/gc/hash-cons.c:258-261 | the hash is a function of the contents |
| HashCons.Table.HashConsPointer | runtime/gc/hash-cons.c:229-280 | a later object with the same contents gets the stored representative, and exactly then its bytes are counted; objects with identity are left alone |
| MapSizes.GuessFits | runtime/gc/generational.c:207-222 | the closed-form first guess never leaves too little room |
| MapSizes.InvertSizeofMaps | runtime/gc/generational.c:188-251 | the result fits with its maps and one page more does not; the loop terminates |
| MapSizes.FitsLargest | runtime/gc/generational.c:188-196 | what fits is exactly what is no larger than the result |

## Left out

- What marking finds while mutators run: the write barrier shades an object without queueing it. The
  whole cycle is proved with mutators stopped, the tri-colour invariant with mutators running.
- ConcurrentMarking.WholeStrong: says nothing about the time of a sweep, which may clear the shade of an object
  that one not yet swept points to.
- Liveness of the wait in GC_collect, and the free-list wait of a blocked mutator.
- Sweep.FloatingGarbage: assumes that between the two cycles nothing touches a chunk of a dead object.
- Sweep.MarkStacks: asks for a frame below the current one in every stack, without which markStack fails.
- Marking.Marker.MarkStack: leaves out the resizing of the stack at its end, which Stacklet models on its
  own, and the bits on the chunks that the resizing allocates.
- Stack chunks as targets of the depth-first marker; Sweep.SweepHeap states that the sweep passes over them.
- Weak pointers in the chunked heap: the marker follows them like others.
- ArrayIndex.NextLeaf: takes the expression of line 319 exactly, and with it ArrayIndex.FindLeaf,
  ArrayIndex.UmArrayOffset and ArrayIndex.ForeachMixed. FloatingPoint.AlwaysRight shows that the 32-bit x86 build
  finds the same leaf in every tree with room for less than 2^24 elements; FloatingPoint.SamePath has the
  condition for the other formats.
- FloatingPoint.SamePath: in single precision trees with room for more than 12 million elements, where rounding goes
  wrong for further elements (FloatingPoint.TooLarge), and in every format trees with a slice whose cast is not exact.
- FloatingPoint.NextRounded: exponents are unbounded, which the 32-bit distances and slices never notice.
- ArrayTree.Store.CreateArrayTree: works on values of chunk records; the address arithmetic between an
  object and its chunk is not modelled, nor is UM_CPointer_offset.
- ArrayIndex.ArrayAllocate: takes height and chunks as given; ArrayAllocation.GCArrayAllocate computes and
  allocates them, with the logarithm taken exactly.
- ArrayAllocation.GCArrayAllocate: the IN_USE bit that array chunks get is kept with the chunk records, not in
  the heap's header word.
- MarkCompact.OldGeneration.MarkCompactGC: takes the marked objects to be the reachable ones, and starts
  after the mark phase and the update of weak objects. Stack objects, whose reserved space shrinks, are
  outside its tags.
- Cheney.Collector.ForwardObjptr: copies whole objects as values and keeps forwarding pointers beside them, where
  the code writes them over the object; the shrinking of reserved stack space is not modelled.
- CardScan.MinorCheneyCopyGC: describes the objects that it moves into the old generation by the copies;
  MinorCollections.MinorGC lists their slots.
- MinorCollections.Collections: clearing the card map after a collection is left out; marked cards without
  nursery pointers do no harm.
- HashCons.Table.HashConsPointer: the contents of objects are fixed while the table is in use.
- Stacklet.Thread.Push: the check that a frame leaves room for the next header is not modelled.
- Handshake.AgreementHolds: taking and releasing the lock are single steps; the statistics and the attempt
  counter are not modelled.
- IntInf, profiling, signals, world save and load, argument parsing, mmap and the platform files.
