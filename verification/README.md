# evalynOS kernel core in Dafny

A Dafny model of the memory-management and blocking core of the evalynOS kernel, with proofs of what its data
structures, allocators and protocols keep. `dafny verify dfyconfig.toml` checks everything.

The code that works by changing things in place is modelled as classes with methods and loops. Memory that is linked by
addresses (tree nodes, heap nodes, list nodes, page tables) is a field that maps addresses to records, and the methods
write records as the C code writes fields; a ghost field holds the shape or sequence that the memory represents, and
`Valid()` ties the two together. Protocols between threads are step systems over states, and their theorems range over
all runs of any length with any number of threads.

- **Red-black tree** (`Rb*.dfy`): shapes and zippers (`RbShape`), records in memory (`RbMemory`), the cases of the
  fixups (`RbFixup`), descent and insertion (`RbInsertion`), relinking and removal (`RbRemoval`), searches (`RbSearch`),
  and the tree itself (`RbTree`, module `RedBlackTree`). A node with two children is removed by relinking; the proof
  shows that the relink is an exchange of two addresses.
- **Page tables** (`Page*.dfy`, `Paging.dfy`): index arithmetic, the shape of the radix tree, the effect of an update on
  translation, counted entries and cursors, the levels at which walks end, and mapping, unmapping, splitting and walking
  in place. Pages and frames are numbered in units of the base page.
- **Range allocator** (`Vmem*.dfy`): the arena as a pure sequence of segments (`VmemParts`, `VmemFree`), the views that
  must agree on it (`VmemViews`), the search for room (`VmemFit`), and the allocator (`Vmem`, module `VmemAllocator`),
  whose tree of allocated segments is the linked red-black tree above. The arena may end in a rest smaller than the
  quantum, as the user address space does, and at 2^64, as the kernel's does.
- **Hand-off mutex** (`Mutex.dfy`), **waiting, waking and switching** (`Sched.dfy`, with order and progress in
  `SchedOrder.dfy` and what a wait returns in `SchedCalls.dfy` and `SchedStale.dfy`) and **futexes** (`Futex.dfy`, with
  whole calls in `FutexCalls.dfy` and the keys in `FutexKeys.dfy`).
- **Buddy allocator** (`Buddy*.dfy`) and the **slab allocator** above it (`Slab.dfy`).
- **Pairing heap** behind the timeouts (`Heap*.dfy`, `PairingHeap.dfy`) and the **linked list** (`LinkedList.dfy`).
- **Line-number machine** (`Leb128.dfy`, `Sleb128.dfy`, `LineRows.dfy`, `LineProgram.dfy`, and an assembler in
  `LineAssembler.dfy`) against section 6.2 of the DWARF 4 standard, and **ticks to nanoseconds** (`Clock.dfy`).
- `Bits.dfy` and `Lists.dfy` hold the shared arithmetic and list facts.

Some properties do not hold of the code as written; the model keeps the code and states exactly when they do:

- `find_reciprocal_shift` finds the largest shift if and only if no shift that the bisection tries has lost the bits
  that would have refused it (`Clock.FindReciprocalShift`).
- `paging_get_paddr` returns the base of the leaf, which is the translation if and only if the page is a multiple of the
  size of the level at which its walk ends (`Paging.PageTable.GetPaddr`); so the key of a futex word is its physical
  address in the same case, and only then is no wakeup of the word missed (`FutexKeys.KeyOf`,
  `FutexKeys.UserWordNotMissedIff`).
- Splitting a leaf of level 3 makes leaves of level 2 whether or not the machine has them; so every page is mapped at a
  level that the machine supports if leaves at level 3 imply leaves at level 2 (`Paging.PageTable.LeavesSupported`), and
  otherwise not (`Paging.SplitUnsupported`).
- A waker takes a thread off a list before it exchanges the thread's state, and in between the thread can be woken by its
  timeout and begin another wait. A wait ends only through its own waker or timeout if no such waker holds the thread as
  it begins (`SchedulingCalls.WaitReturns`), and otherwise may not (`SchedulingStale.StaleWaker`).
- Freeing what `vmem_alloc` returned restores the segments if and only if the allocation did not swallow a last rest of
  the arena smaller than the quantum and ends below 2^64 (`VmemFree.AllocFreeRestores`).
- A request to `vmem_alloc` that rounds to 0 leaves the allocator valid if and only if less than a quantum is left of the
  first segment at which its search stops; otherwise it leaves an empty segment behind (`VmemAllocator.Vmem.Alloc`).
- In an arena that ends at 2^64 a request for a fixed address can be led to a last free segment of just its size, which
  trips the assertion in `vmem_alloc`; this happens if and only if that segment is the first at which the search stops
  (`VmemAllocator.Vmem.Alloc`). And `vmem_free` frees exactly the allocated prefix of its range if and only if it does
  not come to a last segment that ends at 2^64 (`VmemFree.WrapHarmlessIff`).
- A range of memory whose end wraps in 64 bits is not donated to the buddy allocator at all
  (`BuddyAllocator.Buddies.AddRange`).
- A nearest search answers null also when all members are UINT64_MAX away (`RedBlackTree.RbTree.SearchNearest`).
- A slab page that holds a single object is never given back (`SlabAllocator.Slab.Free`).
- The line-number machine finds the row of the full row matrix if and only if the sequence in which it first stops is
  the first that covers the address and no row at or below the address follows the stop there, or it stops nowhere and
  no sequence covers the address (`LineRows.SameRowIff`).

## Model

| member | source | states |
|---|---|---|
| RedBlackTree.RbTree.Remove | kernel/src/utils/dstruct/rbtree.c:300-364 | From a valid tree and any member: key order, no red node under a red one, equal black height, black root and all parent links are kept, and the contents, by node identity and in order, are the old ones without exactly this node; no record outside the tree is written |
| RedBlackTree.RbTree.Insert | kernel/src/utils/dstruct/rbtree.c:209-243 | The same invariants are kept and the contents are the old ones with exactly the new node added, after every equal key; no record outside the tree is written |
| RedBlackTree.RbTree.Shallow | kernel/src/utils/dstruct/rbtree.c:159-364 | Every valid tree, however it was built, has height at most 2 log2(n + 1) |
| RedBlackTree.RbTree.constructor | kernel/src/utils/dstruct/rbtree.c:209-243 | An empty tree is valid |
| RedBlackTree.RbTree.RemoveAt | kernel/src/utils/dstruct/rbtree.c:300-364 | Removal with the position of the node: the in-order sequence loses that position and nothing else |
| RedBlackTree.RbTree.CutNode | kernel/src/utils/dstruct/rbtree.c:341-363 | Splicing out a node with at most one child, with recolouring or fixup, gives a red-black tree whose order is the old one without that node |
| RedBlackTree.RbTree.Relink | kernel/src/utils/dstruct/rbtree.c:305-339 | The pointer and colour writes for a node with two children exchange the addresses of the node and its successor everywhere, both when the successor is its direct child and when it is deeper |
| RedBlackTree.RbTree.RelinkPointers | kernel/src/utils/dstruct/rbtree.c:310-332 | The whole of those pointer writes, record by record |
| RedBlackTree.RbTree.SuccessorTakesPlace | kernel/src/utils/dstruct/rbtree.c:310-328 | The writes that put the successor where the node was |
| RedBlackTree.RbTree.NodeTakesPlace | kernel/src/utils/dstruct/rbtree.c:330-332 | The writes that put the node where the successor was |
| RedBlackTree.RbTree.RemoveFixup | kernel/src/utils/dstruct/rbtree.c:245-298 | Starting one black short anywhere below the root, the loop ends with a red-black tree of unchanged order |
| RedBlackTree.RbTree.RemoveFixupStep | kernel/src/utils/dstruct/rbtree.c:254-297 | One round repairs the tree or moves the missing black exactly one level up, order unchanged |
| RedBlackTree.RbTree.NephewCases | kernel/src/utils/dstruct/rbtree.c:265-296 | Cases 6, 5, 4 and 2 with a black sibling; a red parent always ends the loop |
| RedBlackTree.RbTree.LiftSibling | kernel/src/utils/dstruct/rbtree.c:257-263 | Case 3: after recolouring and rotation the memory represents the tree with the red sibling lifted |
| RedBlackTree.RbTree.LiftDistant | kernel/src/utils/dstruct/rbtree.c:268-275 | Case 6: the memory represents the tree with the sibling lifted over the parent |
| RedBlackTree.RbTree.LiftClose | kernel/src/utils/dstruct/rbtree.c:277-284 | Case 5: the memory represents the tree with the close nephew lifted over the parent |
| RedBlackTree.RbTree.InsertAt | kernel/src/utils/dstruct/rbtree.c:209-243 | Insertion with the position where the key belongs |
| RedBlackTree.RbTree.DescendToLeaf | kernel/src/utils/dstruct/rbtree.c:214-231 | The descent ends at the one leaf place that keeps key order, equal keys going right |
| RedBlackTree.RbTree.InsertFixup | kernel/src/utils/dstruct/rbtree.c:159-207 | From one red-red fault anywhere, the loop ends with a red-black tree of unchanged order |
| RedBlackTree.RbTree.InsertFixupStep | kernel/src/utils/dstruct/rbtree.c:168-203 | One round repairs the tree or moves the fault exactly two levels up, order unchanged |
| RedBlackTree.RbTree.RecolourUncle | kernel/src/utils/dstruct/rbtree.c:197-202 | Case 2: recolouring moves the fault to the grandparent |
| RedBlackTree.RbTree.RotateGrandparent | kernel/src/utils/dstruct/rbtree.c:183-195 | Cases 5 and 6: the tree is red-black, order unchanged |
| RedBlackTree.RbTree.Straighten | kernel/src/utils/dstruct/rbtree.c:184-188 | Case 5: the memory represents the tree with the red child made the outer one |
| RedBlackTree.RbTree.LiftGrandparent | kernel/src/utils/dstruct/rbtree.c:190-193 | Case 6: the memory represents the tree with the parent lifted over the grandparent |
| RedBlackTree.RbTree.BlackenRoot | kernel/src/utils/dstruct/rbtree.c:205-206 | Case 3: a red root turned black gives a red-black tree |
| RedBlackTree.RbTree.RotateSubtree | kernel/src/utils/dstruct/rbtree.c:52-72 | Exactly the records that a rotation rewires are written, including the root pointer or the parent's child pointer |
| RedBlackTree.RbTree.Rotate | kernel/src/utils/dstruct/rbtree.c:52-72 | The memory then represents the rotated subtree in the same place |
| RedBlackTree.RbTree.Rekey | kernel/src/mem/vmem.c:30-33 | The key of a node that is out of the tree may change, and with it nothing about the tree |
| RedBlackTree.RbTree.Minimum | kernel/src/utils/dstruct/rbtree.c:16-21 | The leftmost node of any subtree, null for none |
| RedBlackTree.RbTree.Next | kernel/src/utils/dstruct/rbtree.c:30-39 | The node after the given one in the in-order sequence, null after the last |
| RedBlackTree.RbTree.Successor | kernel/src/utils/dstruct/rbtree.c:30-39 | The next member in key order |
| RedBlackTree.RbTree.FindExact | kernel/src/utils/dstruct/rbtree.c:74-86 | A member with the key, and null exactly if there is none |
| RedBlackTree.RbTree.SearchExact | kernel/src/utils/dstruct/rbtree.c:74-86 | The same on any valid tree |
| RedBlackTree.RbTree.FindNearest | kernel/src/utils/dstruct/rbtree.c:88-107 | A member at least distance from the query |
| RedBlackTree.RbTree.SearchNearest | kernel/src/utils/dstruct/rbtree.c:88-107 | The nearest member; null exactly if every member is UINT64_MAX away, so not only for an empty tree |
| RedBlackTree.MissesFarMember | kernel/src/utils/dstruct/rbtree.c:88-107 | Where that shows: a tree with one member, of key UINT64_MAX and so out of reach of 0, for which the search answers null |
| RedBlackTree.RbTree.FindLesserEqual | kernel/src/utils/dstruct/rbtree.c:109-126 | A member with the greatest key at or below the query, null exactly if all keys are above |
| RedBlackTree.RbTree.SearchLesserEqual | kernel/src/utils/dstruct/rbtree.c:109-126 | The same on any valid tree |
| RbShape.HeightBound | kernel/src/utils/dstruct/rbtree.c:159-364 | A red-black tree of n nodes has height at most 2 log2(n + 1) |
| RbShape.RotKeepsOrder | kernel/src/utils/dstruct/rbtree.c:52-72 | A rotation keeps the in-order sequence |
| RbMemory.RepRotate | kernel/src/utils/dstruct/rbtree.c:52-72 | The records a rotation writes represent the rotated shape, and nothing else changes |
| RbMemory.PackedWord | kernel/src/utils/dstruct/rbtree.c:7-10 | On even addresses the four macros on the packed word read and write exactly one of parent and colour, and the packing is injective |
| RbFixup.LiftedBalanced | kernel/src/utils/dstruct/rbtree.c:190-193 | Case 6 of insertion restores colour and black-height balance |
| RbFixup.DistantLiftedBalanced | kernel/src/utils/dstruct/rbtree.c:268-275 | Case 6 of removal restores the missing black |
| RbFixup.CloseLiftedBalanced | kernel/src/utils/dstruct/rbtree.c:277-284 | Case 5 of removal restores the missing black |
| RbRemoval.RelinkExchanges | kernel/src/utils/dstruct/rbtree.c:305-339 | On any memory with mutual links the relink writes are the exchange of two addresses |
| RbRemoval.SwapRep | kernel/src/utils/dstruct/rbtree.c:305-339 | Exchanging two addresses in memory exchanges them in the shape that the memory represents |
| Paging.PageTable.UnmapRange | kernel/src/arch/generic/paging/unmap.c:19-102 | For every page of the address space: translations in the range are gone and every other page keeps frame and protection, across split leaves; afterwards each counted non-root table counts exactly its present entries and none is empty |
| Paging.PageTable.MapRange | kernel/src/arch/generic/paging/map.c:24-107 | For every page of the address space: page v + i of the range maps to frame p + i with the protection and every other translation is unchanged; reference counts stay exact; the up/down cursor terminates. And for every page the level at which its walk then ends: in the range the highest level at which the machine has leaves, the leaf lies in the range, its frames are aligned and no table stood; outside it the highest level, at most that of before, at which the slot of the page has no page of the range |
| PageLevels.LevelsDone | kernel/src/arch/generic/paging/map.c:38-104 | Once the loop has passed over the range, every walk ends at that level |
| PageLevels.LevelsDown | kernel/src/arch/generic/paging/map.c:69-103 | Going down happens only where no larger leaf fits, and lowers exactly the walks through that slot |
| PageLevels.LevelsFilled | kernel/src/arch/generic/paging/map.c:52-82 | Writing leaves moves no end of a walk, and those just written are the largest that fit |
| PageLevels.LowestIsWhole | kernel/src/arch/generic/paging/map.c:84-103 | Outside the range the tables that the loop has made are just those whose slots have pages of the range |
| Paging.PageTable.LeavesSupported | kernel/src/arch/generic/paging/helpers.h:43-48 | Every page is mapped at a level at which the machine has leaves, if it has them at level 2 when it has them at level 3 |
| Paging.SplitUnsupported | kernel/src/arch/generic/paging/split.c:5-27 | A machine with leaves at level 3 only, where mapping one page over a leaf leaves others mapped at level 2 |
| Paging.PageTable.NothingMappedNothingKept | kernel/src/arch/generic/paging/unmap.c:10-102 | Once nothing is mapped, an address space without pinned tables consists of its root alone |
| Paging.PageTable.SplitLeaf | kernel/src/arch/generic/paging/split.c:5-27 | Replacing a large leaf by a table of smaller ones keeps every translation and every count, and the walks of just its pages end one level lower |
| Paging.PageTable.AllocTable | kernel/src/arch/generic/paging/split.c:11-14 | A new zeroed table that is no live table, with count 0 |
| Paging.PageTable.LinkTable | kernel/src/arch/generic/paging/map.c:85-92 | Hanging in an empty table keeps every translation, and the counts except that the new table at the cursor is empty |
| Paging.PageTable.TryFreeTable | kernel/src/arch/generic/paging/unmap.c:10-17 | Frees and unlinks the table if it is counted, empty and not the root, keeping every translation; otherwise changes nothing and no table is empty |
| Paging.PageTable.FreeUpwards | kernel/src/arch/generic/paging/unmap.c:42-46 | Frees the chain of emptied tables; afterwards no counted table is empty and every translation is kept |
| Paging.PageTable.UnmapUp | kernel/src/arch/generic/paging/unmap.c:33-40 | Leaving a table at its end keeps the cursor and the part already unmapped right |
| Paging.PageTable.UnmapSkip | kernel/src/arch/generic/paging/unmap.c:53-61 | Skipping an absent entry advances by at least one page and stays within the range |
| Paging.PageTable.ClearEntries | kernel/src/arch/generic/paging/unmap.c:66-70 | Clears exactly the run and counts exactly the entries that were present |
| Paging.PageTable.UnmapPages | kernel/src/arch/generic/paging/unmap.c:63-76 | The part already unmapped grows by the run, counts stay exact |
| Paging.PageTable.UnmapLeaf | kernel/src/arch/generic/paging/unmap.c:79-89 | The part already unmapped grows by the whole large leaf |
| Paging.PageTable.UnmapDown | kernel/src/arch/generic/paging/unmap.c:90-98 | Going down, with a split first where a leaf straddles the range, changes no translation |
| Paging.PageTable.FillEntries | kernel/src/arch/generic/paging/map.c:56-60 | Points exactly the run at consecutive frames and counts the entries that were absent |
| Paging.PageTable.MapPages | kernel/src/arch/generic/paging/map.c:52-67 | The part already mapped grows by the run, counts stay exact |
| Paging.PageTable.MapLeaf | kernel/src/arch/generic/paging/map.c:73-82 | One large leaf maps its whole entry, replacing a leaf or an absent entry; it is the largest that fits its pages |
| Paging.PageTable.MapDown | kernel/src/arch/generic/paging/map.c:84-103 | Going down through a new, split or existing table changes no translation |
| Paging.PageTable.MapUp | kernel/src/arch/generic/paging/map.c:39-45 | Leaving a table at its end keeps the cursor right |
| Paging.PageTable.UpdateRefcnt | kernel/src/arch/generic/paging/helpers.h:22-28 | Adds to the count of a counted table, leaves a pinned one alone |
| Paging.PageTable.FindLeaf | kernel/src/arch/generic/paging/get.c:3-20 | Finds a leaf exactly for the pages that have a translation, which is the frame of the leaf plus the offset in it, at a level that may have leaves |
| Paging.PageTable.GetPaddr | kernel/src/arch/generic/paging/get.c:22-28 | Returns the frame of the leaf, so the translation itself if and only if the page is a multiple of the size of the level at which its walk ends; 0 if there is no translation |
| Paging.LargeLeafDiffers | kernel/src/arch/generic/paging/get.c:22-28 | Where it is not: page 1 of a level-2 leaf at frame 512 translates to 513 |
| Paging.PageTable.GetProt | kernel/src/arch/generic/paging/get.c:30-35 | The protection of the translation, 0 if there is none |
| Paging.PageTable.constructor | kernel/src/mem/address_space.c:17-28 | A new address space maps nothing |
| PageMath.IndexOfSlot | kernel/src/arch/generic/paging/helpers.h:10-13 | The index of a page is the slot of the aligned table that holds it |
| PageMath.SlotOfIndex | kernel/src/arch/generic/paging/helpers.h:10-13 | The converse: the slot named by the index holds the page |
| PageMath.ChildAligned | kernel/src/arch/generic/paging/helpers.h:10-13 | An entry covers exactly what the table below it covers |
| PageCount.CursorUp | kernel/src/arch/generic/paging/helpers.h:14-14 | PARENT_PAGING_INDEX of an address just past a table is one past that table's own index in its parent |
| PageCount.CursorDown | kernel/src/arch/generic/paging/map.c:101-103 | Entering the table in the cursor's entry keeps the cursor on the same page |
| PageCount.CursorSkip | kernel/src/arch/generic/paging/unmap.c:55-59 | Advancing within an entry moves the index exactly when the end of the entry is reached |
| PageCount.SplitKeeps | kernel/src/arch/generic/paging/split.c:19-25 | A table that spells a leaf out translates every page as the leaf did |
| PageCount.ClearRun | kernel/src/arch/generic/paging/unmap.c:66-70 | Clearing a run of a table is the flat removal of the pages it covers |
| PageCount.FillRun | kernel/src/arch/generic/paging/map.c:56-60 | Filling a run of a table is the flat update of the pages it covers |
| PageUpdate.PruneWalk | kernel/src/arch/generic/paging/unmap.c:10-17 | Unlinking an empty table keeps every translation |
| PageUpdate.GraftWalk | kernel/src/arch/generic/paging/map.c:84-92 | Hanging in a table that spells out the old entry keeps every translation |
| VmemAllocator.Vmem.Alloc | kernel/src/mem/vmem.c:188-250 | For any request and address: succeeds exactly if the address is aligned and there is room (the whole range free for a fixed address, some free run long enough for any address); then exactly the returned range (with a last rest below the quantum) becomes allocated, and list, freelists, bitmap and linked tree still agree, tile the arena and are coalesced; on failure nothing changes. The assertion on the address found fails if and only if the first segment at which the search stops is overrun. The allocation is cut out of the first segment at which the search stops, where the search says. For a request that rounds to 0: when it succeeds, what it leaves, and that the allocator stays valid if and only if the first segment at which the search stops has less than a quantum left, a condition on the state before the call |
| VmemAllocator.Vmem.Free | kernel/src/mem/vmem.c:264-354 | For any address and length: frees exactly the longest allocated prefix of the rounded range, over any number of segments, terminates, and all views stay in agreement; only where that comes to a last segment ending at 2^64 is this freed to its end |
| VmemAllocator.Vmem.FindSegment | kernel/src/mem/vmem.c:252-262 | The search of the linked red-black tree finds a segment exactly for the allocated addresses, and the one that a scan of the list finds |
| VmemAllocator.Vmem.TreeInsert | kernel/src/mem/vmem.c:239-247 | Inserting into the linked tree adds exactly the segment, under its present base, and keeps the tree red-black and ordered |
| VmemAllocator.Vmem.TreeRemove | kernel/src/mem/vmem.c:288-288 | Removing from the linked tree takes out exactly the segment |
| VmemAllocator.Vmem.constructor | kernel/src/mem/vmem.c:35-51 | The arena, which may end at 2^64, is one free segment and the views agree |
| VmemAllocator.Vmem.FlistDel | kernel/src/mem/vmem.c:99-103 | The segment leaves its bucket and the bit is cleared exactly if that is now empty |
| VmemAllocator.Vmem.ScanBucket | kernel/src/mem/vmem.c:148-161 | For any size: finds the first segment of the bucket at which the search stops, with its start, and null exactly if there is none |
| VmemAllocator.Vmem.FitAlloc | kernel/src/mem/vmem.c:137-185 | For any size: the first segment in search order at which the search stops, and null exactly if no free segment stops it |
| VmemAllocator.Vmem.SplitFront | kernel/src/mem/vmem.c:207-220 | Splitting off the front keeps the views in agreement |
| VmemAllocator.Vmem.TakeFront | kernel/src/mem/vmem.c:222-249 | Putting the front, of any length, in use, with or without a rest, keeps the views in agreement |
| VmemAllocator.Vmem.Carve | kernel/src/mem/vmem.c:205-249 | The segments are then those of the pure allocation |
| VmemAllocator.Vmem.KeepFront | kernel/src/mem/vmem.c:290-303 | Keeping the part before the range in use keeps the views in agreement |
| VmemAllocator.Vmem.KeepBack | kernel/src/mem/vmem.c:305-317 | Keeping the part after the range in use keeps the views in agreement; nothing is kept of a segment whose end wraps to 0 |
| VmemAllocator.Vmem.Absorb | kernel/src/mem/vmem.c:327-347 | Merging two neighbours keeps the views in agreement |
| VmemAllocator.Vmem.MergePrev | kernel/src/mem/vmem.c:323-335 | Merges with the neighbour before exactly if that is free |
| VmemAllocator.Vmem.MergeNext | kernel/src/mem/vmem.c:337-348 | Merges with the neighbour after exactly if that is free |
| VmemAllocator.Vmem.Release | kernel/src/mem/vmem.c:350-352 | Filing the freed segment completes the views |
| VmemAllocator.Vmem.Coalesce | kernel/src/mem/vmem.c:321-352 | After merging on both sides no two neighbours are free |
| VmemAllocator.Vmem.FreeSegment | kernel/src/mem/vmem.c:278-353 | One round frees exactly the part of the range in one segment, or all of the rest of a segment that ends at 2^64 |
| VmemFit.AcceptedIff | kernel/src/mem/vmem.c:150-158 | For any size: the three wrapping 64-bit tests accept exactly the segments that can hold the request, and a segment of just this size that ends at 2^64 above the address asked for |
| VmemFit.SwallowsRestIff | kernel/src/mem/vmem.c:188-250 | Which segment decides about a request that rounds to 0: the one at which the search stops |
| VmemFit.OneFirstHit | kernel/src/mem/vmem.c:145-184 | The search order determines the segment at which the search stops |
| VmemFit.TopMisleads | kernel/src/mem/vmem.c:150-158 | A search that is led to such a segment: the last page below 2^64 for a request at 8192 |
| VmemAllocator.MisledIff | kernel/src/mem/vmem.c:196-201 | The assertion on the address found fails exactly if the segment at which the search stops is overrun, and never in an arena that ends below 2^64 |
| VmemAllocator.EmptyRequestRun | kernel/src/mem/vmem.c:188-250 | A run: the first request of an arena of two pages is for no bytes, and leaves the allocator invalid |
| VmemAllocator.MisledRun | kernel/src/mem/vmem.c:196-201 | A run: an arena up to 2^64 with its last page left, and a request for a page at 8192 that trips the assertion |
| VmemAllocator.WrapRun | kernel/src/mem/vmem.c:264-354 | A run: freeing one page of an allocation that takes an arena up to 2^64 frees all of it |
| VmemViews.FileFree | kernel/src/mem/vmem.c:94-97 | Filing a free segment in the bucket of its size brings it into agreement with all views |
| VmemViews.Unfile | kernel/src/mem/vmem.c:99-103 | Taking a free segment off its bucket leaves all other segments filed and the bitmap right |
| VmemFit.BucketTooSmall | kernel/src/mem/vmem.c:142-146 | A segment two buckets below that of the request is too small |
| VmemFit.SearchComplete | kernel/src/mem/vmem.c:142-184 | If the buckets from the ceiling of log2 on and the one below hold no fitting segment then no free segment fits |
| VmemParts.RunInSegment | kernel/src/mem/vmem.c:137-185 | In a coalesced arena every free run lies in one free segment |
| VmemParts.AllocPartsTaken | kernel/src/mem/vmem.c:188-250 | Byte by byte: allocation adds the granted range and nothing else |
| VmemParts.AllocPartsValid | kernel/src/mem/vmem.c:188-250 | Allocation keeps the tiling and coalescing |
| VmemParts.EmptyRequest | kernel/src/mem/vmem.c:188-250 | After an allocation of 0 bytes the arena is tiled and coalesced if and only if less than a quantum is left of the segment |
| VmemParts.EmptyRequestBreaks | kernel/src/mem/vmem.c:188-250 | An arena of two free pages where it is not |
| VmemParts.FreeStepTaken | kernel/src/mem/vmem.c:278-353 | Byte by byte: a round frees the part of the range in one segment |
| VmemParts.FreeStepValid | kernel/src/mem/vmem.c:278-353 | A round keeps the tiling and coalescing |
| VmemFree.FreedPrefix | kernel/src/mem/vmem.c:264-354 | Byte by byte: the loop frees exactly the bytes of the range that no free byte of it precedes |
| VmemFree.FreePartsValid | kernel/src/mem/vmem.c:264-354 | The loop keeps the tiling and coalescing |
| VmemFree.AllocFreeRestores | kernel/src/mem/vmem.c:188-354 | Freeing what was just allocated restores the previous segments if and only if no last rest below the quantum was swallowed and the allocation ends below 2^64 |
| VmemFree.WrapHarmlessIff | kernel/src/mem/vmem.c:281-317 | Exactly the allocated prefix of the range is freed if and only if freeing does not come to a last segment that ends at 2^64 |
| VmemFree.WrapFreesAll | kernel/src/mem/vmem.c:281-317 | Where it does: freeing one page of an allocation up to 2^64 frees all of it |
| VmemFree.TopStep | kernel/src/mem/vmem.c:277-319 | Whether the last segment is reached does not change from round to round |
| Bits.Log2Bounds | kernel/src/libc/math.h:8-11 | log2ull is the index of the highest set bit |
| Bits.Log2CeilBounds | kernel/src/libc/math.h:13-16 | log2ullceil is the least k with n at most 2^k |
| Bits.AlignUpBounds | kernel/src/utils/lib.h:20-20 | Rounding up gives the least multiple at or above, where that is below 2^64 |
| Bits.AlignUpWraps | kernel/src/utils/lib.h:20-20 | It gives 0 for a positive number exactly if no multiple at or above it is below 2^64 |
| HandOffMutex.RunInv | kernel/src/utils/locks/mutex.c:11-57 | The invariant holds in every state of every interleaving of any number of threads |
| HandOffMutex.StepInv | kernel/src/utils/locks/mutex.c:11-57 | Every atomic step of lock, claim and unlock keeps the invariant |
| HandOffMutex.QueueChange | kernel/src/utils/locks/mutex.c:11-57 | A step leaves the queue alone, parks its thread at the end, or wakes the first thread |
| HandOffMutex.MutualExclusion | kernel/src/utils/locks/mutex.c:25-57 | In every reachable state at most one thread owns the mutex or is passing it on |
| HandOffMutex.NoStrandedWaiter | kernel/src/utils/locks/mutex.c:11-57 | Nobody is queued while the word is UNLOCKED or LOCKED, a queued thread always has somebody who will hand over, and the word is UNLOCKED exactly if nobody owns it |
| HandOffMutex.NoDeadlock | kernel/src/utils/locks/mutex.c:11-57 | While somebody is queued, the owner or the thread inside the wait-list lock can take a step |
| HandOffMutex.NoBarging | kernel/src/utils/locks/mutex.c:25-57 | While threads are queued only the first of them can come into the mutex |
| HandOffMutex.SecondWakeup | kernel/src/utils/locks/mutex.c:50-56 | A failed second compare-exchange sees LOCKED_WAITERS and its wakeup finds a waiter and hands the mutex to it |
| HandOffMutex.Fifo | kernel/src/utils/locks/mutex.c:25-57 | Over any stretch of a run in which a thread stays queued, every thread that was behind it or comes later is behind it |
| HandOffMutex.FewSteps | kernel/src/utils/locks/mutex.c:25-57 | In any run a thread takes at most 12 steps of its own from asking for the mutex to having given it back, however many others run meanwhile |
| HandOffMutex.OwnStepAdvances | kernel/src/utils/locks/mutex.c:25-57 | Every step of a thread brings it closer to the end of its call |
| HandOffMutex.PassesOn | kernel/src/utils/locks/mutex.c:39-57 | While threads are queued, whoever gives the mutex up wakes the first of them |
| HandOffMutex.Uncontended | kernel/src/utils/locks/mutex.c:11-43 | An unlocked mutex is taken in two steps without the wait list, or back off the wait list; the word is then LOCKED, and unlocking is one exchange that leaves all as it was |
| HandOffMutex.Contended | kernel/src/utils/locks/mutex.c:25-33 | A thread that finds the mutex taken goes to the wait list at once |
| Scheduling.RunInv | kernel/src/sched/scheduler.c:45-127 | The invariant holds in every state of every interleaving of any number of threads, CPUs and wakers |
| Scheduling.StepInv | kernel/src/sched/scheduler.c:45-127 | Every step keeps the invariant |
| Scheduling.ThreadInv | kernel/src/sched/wait.c:20-80 | Every step of a thread in wait_impl keeps it |
| Scheduling.WakeInv | kernel/src/sched/wait.c:92-145 | Every step of a waker or of the timeout handler keeps it, with the exchange after the lock is dropped |
| Scheduling.PickInv | kernel/src/sched/scheduler.c:55-86 | Picking the next thread keeps it |
| Scheduling.FinalizeInv | kernel/src/sched/scheduler.c:88-127 | Every step of completing a switch keeps it |
| Scheduling.ExactlyOnePlace | kernel/src/sched/scheduler.c:55-127 | In every reachable state each thread is in exactly one place (current on one CPU, on its way onto or off one, in one run queue once, parked, or carried by one waker) |
| Scheduling.NoPanic | kernel/src/sched/scheduler.c:93-127 | The thread switched away from is never found BLOCKED, so the panic is unreachable |
| Scheduling.NoLostWakeup | kernel/src/sched/wait.c:20-145 | A BLOCKED thread is still on its object's list or among the timeouts, or a waker that took it off is about to exchange its state |
| SchedulingCalls.WaitReturns | kernel/src/sched/wait.c:20-80 | For every wait in every run: on an object it returns WOKEN if and only if a waker took it off the list meanwhile, CONDITION_MET only if nobody took it off anything, and for a timeout alone TIMED_OUT if and only if it was taken off the timeouts. Unless a waker of an earlier wait held the thread as the wait began, a wait whose condition is not met ends only after a waker took it off its list or its timeout passed |
| SchedulingStale.StaleWaker | kernel/src/sched/wait.c:92-145 | Where a waker did: a run in which a wait without a timeout ends though nobody takes it off its list, and returns TIMED_OUT |
| SchedulingOrder.WaitersFifo | kernel/src/sched/wait.c:46-46 | Over any stretch of a run in which a thread stays on a wait list, every thread that was behind it or comes later is behind it |
| SchedulingOrder.WakesTheFirst | kernel/src/sched/wait.c:97-107 | A waker takes the thread that is ahead of all that stay, and leaves those in order |
| SchedulingOrder.RunQueueFifo | kernel/src/sched/scheduler.c:45-53 | The same of a run queue |
| SchedulingOrder.PicksTheFirst | kernel/src/sched/scheduler.c:65-86 | The next thread is the one ahead of all that stay in the run queue, and the idle thread only if there is none |
| SchedulingOrder.PickedRuns | kernel/src/sched/scheduler.c:82-92 | The thread picked is the one that then runs |
| SchedulingOrder.StepAdvances | kernel/src/sched/wait.c:20-145 | Every step of a wait, a switch or a wake brings it closer to its end |
| SchedulingOrder.OthersKeep | kernel/src/sched/wait.c:20-145 | Nobody else takes it further from it |
| SchedulingOrder.NeverStuck | kernel/src/sched/scheduler.c:55-127 | In every reachable state every CPU can take a step |
| SchedulingOrder.CanBePreempted | kernel/src/sched/scheduler.c:55-67 | A CPU that idles or executes a thread with preemption on can be interrupted, and then takes the first thread of its run queue |
| Scheduling.RegistrationsInScope | kernel/src/sched/wait.c:28-77 | A token or timeout entry belongs to a thread that is still inside the wait for it |
| Futex.RunInv | kernel/src/syscalls/futex.c:41-118 | The invariant holds in every state of every interleaving of waits, wakes and writes |
| Futex.StepInv | kernel/src/syscalls/futex.c:41-118 | Every step keeps the invariant |
| Futex.RegisterInv | kernel/src/syscalls/futex.c:62-75 | Finding or making the entry and counting oneself keeps it |
| Futex.CompareInv | kernel/src/syscalls/futex.c:41-46 | Comparing under the wait-list lock, and queueing, keeps it |
| Futex.ReleaseInv | kernel/src/syscalls/futex.c:80-85 | Giving up the entry, and freeing it if last, keeps it |
| Futex.WakeStepInv | kernel/src/syscalls/futex.c:105-115 | Each thread a wake takes off the list keeps it |
| Futex.OneCountedEntry | kernel/src/syscalls/futex.c:62-85 | One entry for each key, its count equal to the number of waiters between registration and release, and positive |
| Futex.NoUseAfterFree | kernel/src/syscalls/futex.c:62-115 | No waiter or waker refers to an entry that has been freed |
| Futex.FreedByTheLast | kernel/src/syscalls/futex.c:80-85 | A release frees the entry exactly if the thread is its only waiter |
| FutexCalls.WakeTakes | kernel/src/syscalls/futex.c:94-118 | For every wake of a key with an entry, in every run: it takes exactly count threads off the front of the list, in order, each from sleeping to leaving as woken, or all there are, and returns how many; who comes meanwhile joins at the end |
| FutexCalls.WakeOfNobody | kernel/src/syscalls/futex.c:108-111 | A wake of a key without an entry returns 0, and nobody sleeps on the key |
| FutexCalls.WaitReturns | kernel/src/syscalls/futex.c:41-92 | For every wait in every run: it compares the word at its own key with the value given, once; it returns EAGAIN if and only if they differ then, and otherwise returns only after a wake took it off the list |
| FutexCalls.SleepersFifo | kernel/src/syscalls/futex.c:78-78 | As long as a thread sleeps on a key, nobody who was behind it or came later gets ahead of it |
| FutexCalls.OwnStepAdvances | kernel/src/syscalls/futex.c:51-118 | Every step of a thread brings it closer to the end of its call |
| FutexKeys.KeyOf | kernel/src/syscalls/futex.c:54-60 | The key of a word is its physical address if and only if its page is a multiple of the size of the level at which the walk of the page ends |
| FutexKeys.UserWordNotMissedIff | kernel/src/syscalls/futex.c:41-118 | No wakeup of the user's own physical word is missed, in any run, if and only if its page is a multiple of the size of the level at which the walk of the page ends |
| Futex.NoneMissedIff | kernel/src/syscalls/futex.c:41-118 | No wakeup of a word registered under a key is missed, over all runs, if and only if the key is the address of the word |
| Futex.MissedRunIs | kernel/src/syscalls/futex.c:41-118 | A run that misses one otherwise: the thread compares the word at the key and sleeps |
| FutexKeys.SameKeyIff | kernel/src/syscalls/futex.c:58-60 | Two words have the same key exactly if they are at the same offset in pages of leaves with the same first frame |
| FutexKeys.SharedKey | kernel/src/syscalls/futex.c:58-60 | Different words at the same offset in different pages of a large leaf share a key |
| Futex.NoMissedWake | kernel/src/syscalls/futex.c:41-118 | After a wake that leaves nobody queued, nobody sleeps on a value that the word has not had since |
| BuddyAllocator.Buddies.Allocate | kernel/src/mem/buddy.c:70-121 | Fails exactly if no free block is large enough; otherwise a block of the order, aligned to its size, goes from free to outstanding and no other outstanding block changes; blocks still partition the donated pages, tags and lists agree, and everything stays coalesced |
| BuddyAllocator.Buddies.Free | kernel/src/mem/buddy.c:123-158 | Gives back exactly that block; blocks partition the donated pages, tags and lists agree and no two free buddies of a root block are left unmerged |
| BuddyAllocator.Buddies.AddRange | kernel/src/mem/buddy.c:35-50 | In 64-bit words: donates exactly the whole pages of the byte range, as root blocks such that every aligned block of them lies in one, keeping the invariant, if and only if the end of the range does not wrap or it holds no whole page; otherwise nothing is donated |
| BuddyAllocator.TopPageLost | kernel/src/mem/buddy.c:35-50 | The last page below 2^64 is such a range |
| BuddyAllocator.Buddies.AddPages | kernel/src/mem/buddy.c:40-49 | The greedy loop donates every page once, in aligned root blocks as large as can be: every aligned block of the pages, of any order, lies in one root |
| BuddyAllocator.Buddies.AddBlock | kernel/src/mem/buddy.c:27-33 | A new root block keeps the invariant |
| BuddyAllocator.Buddies.SplitDown | kernel/src/mem/buddy.c:97-112 | The loop of halvings, with tags and lists kept |
| BuddyAllocator.Buddies.JoinUp | kernel/src/mem/buddy.c:130-153 | The loop of joins stops exactly where no further join is possible, never crossing a root block |
| BuddyAllocator.Buddies.constructor | kernel/src/mem/buddy.c:24-25 | No memory donated |
| BuddyAllocator.BuddyPage | kernel/src/mem/buddy.c:131-138 | The buddy's page-frame entry says FREE with this order exactly if the buddy is a whole free block of the same root |
| BuddyBlocks.BuddyFacts | kernel/src/mem/buddy.c:133-133 | The exclusive-or with the size is an involution that names the other half of the aligned block of the next order |
| BuddyBlocks.BuddyInside | kernel/src/mem/buddy.c:131-138 | The buddy of a block below the root order is inside the same root |
| BuddyBlocks.HalveOk | kernel/src/mem/buddy.c:102-112 | Halving keeps the partition of the donated pages into aligned blocks of one root each |
| BuddyBlocks.JoinOk | kernel/src/mem/buddy.c:131-153 | Joining keeps it |
| BuddyRuns.SplitToOk | kernel/src/mem/buddy.c:97-112 | Splitting keeps the partition and coalescing |
| BuddyRuns.ReleasedOk | kernel/src/mem/buddy.c:123-158 | Releasing keeps the partition and coalescing |
| BuddyRuns.ReleaseUndoesSplit | kernel/src/mem/buddy.c:97-158 | Releasing after any splitting is releasing without it |
| BuddyRuns.FreeAfterAllocate | kernel/src/mem/buddy.c:70-158 | Freeing a block just allocated restores the same blocks whatever splitting took place |
| PairingHeap.PHeap.Insert | kernel/src/utils/dstruct/pheap.c:63-66 | Adds exactly the node, keeping heap order, links and removal marks |
| PairingHeap.PHeap.Pop | kernel/src/utils/dstruct/pheap.c:68-77 | Takes out exactly one node, which has a least key; null exactly if empty |
| PairingHeap.PHeap.Remove | kernel/src/utils/dstruct/pheap.c:79-89 | Takes out exactly the given node wherever it is |
| PairingHeap.PHeap.RemoveInner | kernel/src/utils/dstruct/pheap.c:81-88 | The same for a node other than the head, whose stale sibling links are never followed |
| PairingHeap.PHeap.TryRemove | kernel/src/utils/dstruct/pheap.c:91-95 | For any node ever inserted, under whatever keys: takes it out exactly if it is in the heap, told by the mark alone |
| PairingHeap.PHeap.Rekey | kernel/src/sched/wait.c:52-52 | A node that is out of the heap may get another key, and with it nothing about the heap changes |
| HeapShape.OrderedRekeyed | kernel/src/sched/wait.c:52-52 | Heap order depends on the keys of members only |
| PairingHeap.PHeap.Peek | kernel/src/utils/dstruct/pheap.h:23-25 | A node with a least key, null exactly if empty |
| PairingHeap.PHeap.PopNextDue | kernel/src/sched/wait.c:126-137 | One section under the lock: takes out a node with a least key if it is due, and finds none exactly if no node is due at that moment |
| PairingHeap.PHeap.PopDue | kernel/src/sched/wait.c:122-145 | Undisturbed, the loop takes out exactly the nodes due at the sampled time, each once, in nondecreasing order of wakeup time |
| PairingHeap.PHeap.MergeChildren | kernel/src/utils/dstruct/pheap.c:40-61 | The two passes give the merged tree of all children |
| PairingHeap.PHeap.PairUp | kernel/src/utils/dstruct/pheap.c:41-52 | First pass: pairs are melded and chained, last first |
| PairingHeap.PHeap.FoldUp | kernel/src/utils/dstruct/pheap.c:54-60 | Second pass: the chain is melded into one tree |
| PairingHeap.PHeap.MeldNodes | kernel/src/utils/dstruct/pheap.c:27-38 | The memory represents the meld of the two trees |
| PairingHeap.PHeap.Attach | kernel/src/utils/dstruct/pheap.c:6-12 | The writes of attaching a child |
| PairingHeap.PHeap.Detach | kernel/src/utils/dstruct/pheap.c:14-25 | The writes of detaching a node |
| PairingHeap.PHeap.constructor | kernel/src/utils/dstruct/pheap.c:63-66 | An empty heap |
| HeapMemory.AttachRep | kernel/src/utils/dstruct/pheap.c:6-12 | Those writes represent the second tree as first child of the first |
| HeapMemory.DetachTree | kernel/src/utils/dstruct/pheap.c:14-25 | Those writes leave the rest of the tree and the node with its children, wherever the node was |
| HeapShape.RootIsMinimum | kernel/src/utils/dstruct/pheap.c:68-77 | The root of a heap-ordered tree has the least key |
| HeapShape.MergedFacts | kernel/src/utils/dstruct/pheap.c:40-61 | Merging the children keeps them all, in heap order |
| HeapShape.MeldFacts | kernel/src/utils/dstruct/pheap.c:27-38 | Melding keeps all nodes and heap order |
| HeapShape.CutFacts | kernel/src/utils/dstruct/pheap.c:14-25 | Cutting a node leaves all other nodes, in heap order, in two disjoint parts |
| SlabAllocator.Slab.Malloc | kernel/src/mem/spalloc.c:34-63 | Exactly one object that was not live becomes live; a new page is taken exactly if no page has free objects; free counts, stacks and the partial list stay right |
| SlabAllocator.Slab.Free | kernel/src/mem/spalloc.c:65-87 | Exactly this object stops being live; the page goes back exactly if it held at least two objects and this was the last live one |
| SlabAllocator.KeepsLonePage | kernel/src/mem/spalloc.c:65-87 | Where a page is not given back: objects of half a page, one to a page |
| SlabAllocator.SingleObjectLayout | kernel/src/mem/spalloc.c:26-28 | The layout of such objects |
| SlabAllocator.Slab.StackObjects | kernel/src/mem/spalloc.c:50-52 | The stack holds every object of the page once |
| SlabAllocator.Slab.constructor | kernel/src/mem/spalloc.c:16-31 | No pages |
| SlabAllocator.LayoutForOk | kernel/src/mem/spalloc.c:16-31 | Every permitted size and alignment gives at least one aligned object clear of the header, with less padding than the alignment, and as many as fit in the page |
| SlabAllocator.SlotsApart | kernel/src/mem/spalloc.c:26-28 | Objects lie in their page, clear of the header, and do not overlap, across all pages |
| SlabAllocator.SlotAligned | kernel/src/mem/spalloc.c:26-28 | Objects have the alignment asked for |
| SlabAllocator.AllFree | kernel/src/mem/spalloc.c:81-86 | The count reaches the objects per page exactly if all objects are free |
| LinkedList.List.Prepend | kernel/src/utils/dstruct/llist.c:56-65 | Inserts exactly before the given node, forward and backward links, ends and count right, nothing else written |
| LinkedList.List.Append | kernel/src/utils/dstruct/llist.c:45-54 | Inserts exactly after the given node |
| LinkedList.List.Delete | kernel/src/utils/dstruct/llist.c:67-78 | Takes out exactly the node and marks it by linking it to itself |
| LinkedList.List.TryDelete | kernel/src/utils/dstruct/llist.c:80-86 | For a node in the list or taken off it: tells which by the mark and deletes exactly if it is in |
| LinkedList.List.PushFront | kernel/src/utils/dstruct/llist.c:14-21 | Adds the node in front |
| LinkedList.List.PushBack | kernel/src/utils/dstruct/llist.c:23-30 | Adds the node at the back |
| LinkedList.List.PopFront | kernel/src/utils/dstruct/llist.c:33-37 | Takes off the first node, null for an empty list |
| LinkedList.List.InitialNode | kernel/src/utils/dstruct/llist.c:3-9 | A list of one node |
| LinkedList.List.constructor | kernel/src/utils/dstruct/llist.c:3-9 | An empty list |
| LineProgram.Find | kernel/src/loader/dwarf/line.c:166-281 | For every byte sequence and address: the early-exit machine never reads past the end and finds the row of the first stop in the full matrix; that is the row the matrix gives if and only if the sequence of the stop is the first that covers the address and no row at or below it follows the stop there (or nothing stops the machine and no sequence covers the address) |
| LineProgram.MachineFindsRow | kernel/src/loader/dwarf/line.c:166-281 | The same for watching the events of a program, and that ascending programs with nonzero file registers meet the condition |
| LineAssembler.MatrixRoundTrip | kernel/src/loader/dwarf/line.c:166-281 | For every header that has the instructions up to set_file, and every matrix of 64-bit words: the program that writes its rows by special instructions where they fit, and otherwise by const_add_pc, fixed_advance_pc, advance_pc, set_address, advance_line, set_file and copy, gives exactly that matrix |
| LineAssembler.Assembled | kernel/src/loader/dwarf/line.c:174-278 | For every header and every sequence of instructions that it has: the machine shows what the instructions mean by the standard |
| LineAssembler.DoesIt | kernel/src/loader/dwarf/line.c:174-278 | For every instruction but define_file, every operand and whatever follows: the machine goes on just behind it, with the registers and the row or end that the standard gives |
| LineAssembler.DoesSpecial | kernel/src/loader/dwarf/line.c:179-189 | A special instruction advances address and line by what its opcode was computed from |
| LineAssembler.DoesNumber | kernel/src/loader/dwarf/line.c:237-269 | Instructions with a LEB128 operand |
| LineAssembler.DoesSetAddress | kernel/src/loader/dwarf/line.c:209-214 | An address of one to eight bytes |
| LineProgram.RunExtended | kernel/src/loader/dwarf/line.c:192-227 | What an extended instruction does to position and registers, whether it ends a sequence, and that bad lengths, truncated operands and unknown instructions give up |
| LineProgram.RunStandard | kernel/src/loader/dwarf/line.c:229-277 | What a standard instruction does to position and registers, whether it emits a row, and that truncated operands and unknown instructions give up |
| LineProgram.ReadBytes | kernel/src/loader/dwarf/helpers.h:48-54 | The little-endian value of the bytes, and failure exactly if there are too few |
| LineRows.WatchIsLookup | kernel/src/loader/dwarf/line.c:40-46 | What a watcher of events finds, and exactly when that is what the full matrix gives |
| LineRows.SameRowIff | kernel/src/loader/dwarf/line.c:40-46 | On row positions, for all matrices and addresses: the row of the first stop is the row the matrix gives if and only if the matrix bears the stop out |
| LineRows.WatchRow | kernel/src/loader/dwarf/line.c:166-281 | Watching the events one by one finds the row of the first stop in the matrix |
| LineRows.WellFormedInStep | kernel/src/loader/dwarf/line.c:40-46 | Ascending sequences with nonzero file registers bear every stop out |
| LineRows.DescendingDiffers | kernel/src/loader/dwarf/line.c:40-46 | Where addresses go down the two differ at one address and agree at another: a concrete matrix |
| LineProgram.FindsEarlierRow | kernel/src/loader/dwarf/line.c:166-281 | The bytes of a program whose addresses go down, for which the machine finds another line than the matrix |
| LineProgram.FindsNoRow | kernel/src/loader/dwarf/line.c:166-281 | The bytes of a program with a row of file 0, which the machine does not find |
| LineRows.FileZeroDiffers | kernel/src/loader/dwarf/line.c:186-187 | Where a row has file 0 the two differ: a concrete matrix |
| Leb128.ReadUleb | kernel/src/loader/dwarf/helpers.h:5-26 | The loop reads what the byte-by-byte definition gives, and fails exactly where that does |
| Leb128.RoundTrip | kernel/src/loader/dwarf/helpers.h:5-26 | Reading back any encoded number that fits gives the number and exactly its bytes, whatever follows |
| Sleb128.ReadSleb | kernel/src/loader/dwarf/helpers.h:32-46 | The unsigned reading, sign-extended |
| Sleb128.SignedRoundTrip | kernel/src/loader/dwarf/helpers.h:32-46 | Reading back any encoded signed 64-bit number gives the number and exactly its bytes |
| Clock.FindReciprocalShift | kernel/src/libc/math.c:3-16 | For all 64-bit inputs the bisection returns the largest shift that keeps the multiplier within 64 bits if and only if the inputs are faithful: numerator at least denominator, or no probe of the bisection above the right shift looks small enough for having lost bits |
| Clock.FaithfulIff | kernel/src/libc/math.c:3-16 | Faithfulness, stated on 64-bit words, is that every probe above the largest shift is refused |
| Clock.SmallIsFaithful | kernel/src/libc/math.c:3-16 | Numerators below 2^32 with denominator below numerator * 2^32 are faithful |
| Clock.MultipleIsNotFaithful | kernel/src/libc/math.c:3-16 | Multiples of 2^32 below the denominator are not: the shift returned is too large |
| Clock.MultiplierFits | kernel/src/arch/x86_64/timer/timer.c:51-52 | The multiplier fits 64 bits exactly if numerator * 2^shift is below denominator * 2^64 |
| Clock.ConversionError | kernel/src/arch/x86_64/timer/timer.c:80-89 | The converted time is at most the exact one, and below it by less than ticks / 2^shift + 1 |
| Clock.ConvertedMono | kernel/src/arch/x86_64/timer/timer.c:80-89 | Conversion never decreases |
| Clock.Wallclock.constructor | kernel/src/arch/x86_64/timer/timer.c:51-52 | For any frequency below 10^9 * 2^32 Hz the shift is the largest and the multiplier exact |
| Clock.Wallclock.GetTicks | kernel/src/arch/x86_64/timer/timer.c:62-78 | Polls less than a counter period apart give the true tick count modulo 2^64 |
| Clock.Wallclock.GetNs | kernel/src/arch/x86_64/timer/timer.c:80-89 | The time read is the converted tick count and, until a word overflows, never less than before |

## Left out

- Alloc: the arena starts above address 0, which is the answer for no room, and the quantum is a power of two.
- Free: the buddy allocator requires the order that was allocated, as its callers pass it; the range allocator's Free takes any range.
- AddRange: a start above the last page below 2^64 rounds up to address 0, which the source asserts against.
- PopDue: one undisturbed loop; the source drops the lock between pops, and what each section under the lock does is stated by PopNextDue.
- GetTicks: the counter and its sampling are parameters; polls are less than a counter period apart.
- FlistDel: freelists and the segment list are sequences of segment identities; the pointer writes are in LinkedList.
- Find: the rows found are not resolved to file names.
- The mirror images rbtree_maximum, rbtree_predecessor and rbtree_search_greater, the strict form of the lesser search, and llist_pop_back.
- C memory orderings and spinning: atomics are sequentially consistent and sections under a lock are single steps.
- Page-table entry encodings, TLB flushes, intermediate protection flags, paging_early_map_page, tables of other than 512 entries, and failure of page allocation; the count of the root table, half of which is copied from the kernel's.
- vmem_add_segment for a second span, vmem_init's reservations and free_vmem_allocator.
- Thread exit and reaping, the reaper list, preemption counters and bring-up of CPUs.
- Mutex and futex waits with timeouts, the address checks and protection checks of the futex calls, and, in the models of mutex and futexes, wakers of earlier waits: there a wait ends only through its own waker.
- buddy_init's walk over the boot memory map and the panic of allocations that must not fail.
- The slab's magic number; the page that the buddy allocator supplies is a parameter.
- Parsing of the line-number header, directory and file tables, lookup of file names, DWARF64, and the operation index of line programs with several operations an instruction, which the source does not keep.
- The paravirtual clock and the choice of a clock source.
- Drivers, interrupt entry, consoles, ELF loading, the archive reader and the remaining system calls.
