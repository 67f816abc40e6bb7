# Nyy kernel: allocators, page tables, waits and interrupts

A model of the parts of the Nyy kernel that hold most of its reasoning, and proofs about them.

- **Vmem arenas** (`SegFit`, `SegmentQueue`, `SegmentPool`, `Vmem`, `VmemRuns`): one queue of boundary
  tags in address order, with freelists and an address hash over it. Allocation splits a free segment,
  freeing coalesces, and arenas import spans from a source and give them back. The queue is shown to be
  canonical, so freeing undoes allocating and the order of frees does not matter.
- **Red-black trees** (`RbTree`, `RbLinks`, `RbInsert`, `RbRemove`, `RbDelete`, `RbLookup`): the macros of
  `sys/tree.h` on nodes with child, parent and colour fields, against a tree with a focus; and **splay
  trees** (`Splay`), with the two spines that a splay builds in place.
- **Page tables and the direct map** (`Paging`, `PageMap`, `Hhdm`): four levels of tables in frames that
  are never shared, read by a walk that honours page-size bits and combines rights; `vm_port_map` with
  1 GiB pages native or emulated; and the remapping of physical memory with the largest pages that fit.
- **Physical pages and wired memory** (`Pm`, `Wired`) and **slab caches** (`Slab`, `SlabCache`).
- **Waits, events and the mutex** (`Waits`, `WaitOrder`, `Dispatch`, `Mutex`): a system of atomic steps taken
  by any number of threads in any order, one step per critical section.
- **Interrupt levels, software interrupts and deferred procedure calls** (`Dpc`) under nested interrupts,
  and **timers** (`Timers`).
- **printf** (`Numerals`, `Format`, `FormatText`, `FormatMeaning`, `Readback`, `Printf`) and the **symbol map** (`Symbols`).

Imperative code is modelled by classes and methods that change their state in place. Their contracts tie
the new state to functions on values, and the theorems are about those. `Word64` holds the arithmetic of
64-bit words and `Sequences` two notions about lists.

Where a property one would expect does not hold of the code, the model keeps the code, gives an input
that shows it, and states exactly when the property holds:

- `seg_fit` can accept an address outside a segment at the very top of the address space, and refuses a
  segment that ends at 2^64.
- A constrained `vmem_xalloc` can run out of descriptors while it imports in vain; `vmem_alloc` cannot.
- `vmem_add` can accept a span that overlaps a queued one.
- A write-combining entry of the memory map becomes write-through in its aligned 2 MiB blocks.
- `pm_add_region` miscounts regions smaller than their own descriptors.
- A signal of a synchronisation event is lost if every listed wait has timed out already. The routine for
  timeouts, `wait_timer_exp`, is there, but `sched_wait_single` does not arm a timer yet
  (`kernel/sched/dispatch.c:108`), so no caller produces such a wait today.
- `sched_unwait` fails its assertion if a signal arrives between joining a list and falling asleep.
- The mutex can lose its signal to a waiter and is then never held again.
- `%0*d` with a negative width fills up with zeros on the right.

`dafny verify dfyconfig.toml` checks the whole project.

## Model

| member | source | states |
|---|---|---|
| `SegFit.FitIsLeastIff` | kernel/lib/vmem.c:104-140 | for every segment of the address space and every request, `seg_fit` returns the least address that satisfies alignment, phase, bounds and size, and fails only if there is none, if and only if neither of two things happens: rounding up wraps at the top and the low address it ends at is accepted, or the segment ends at 2^64, which is 0 in a word, although its first on-phase address would do |
| `SegFit.FitCanLeaveTheSegment` | kernel/lib/vmem.c:104-140 | a concrete segment at the top of the address space for which `seg_fit` accepts an address outside the segment |
| `SegFit.FitCanMissTheSegment` | kernel/lib/vmem.c:112-116 | a free segment that ends at 2^64 and is refused although its first address is admissible |
| `SegFit.CandidateIsLeast` | kernel/lib/vmem.c:118-129 | without wrap-around at the top, rounding `start - phase` up and adding the phase gives the least congruent address from `start` on, even where `start - phase` wraps below zero |
| `SegFit.CandidateAfterWrap` | kernel/lib/vmem.c:118-129 | where the rounding wraps at the top, the address it ends at |
| `SegmentQueue.SegmentsDisjoint` | kernel/lib/vmem.c:402-466 | in a well-formed queue no two segments of any spans overlap |
| `SegmentQueue.LiveDisjoint` | kernel/lib/vmem.c:402-482 | no two live blocks overlap |
| `SegmentQueue.BodyCanonical` | kernel/lib/vmem.c:402-557 | within a span the segment sequence is determined by the span and the set of live blocks |
| `SegmentQueue.QueueCanonical` | kernel/lib/vmem.c:402-557 | the whole queue, type, base and size of every segment, is determined by its spans and its live blocks |
| `SegmentQueue.PlacedOk` | kernel/lib/vmem.c:402-466 | splitting a free segment in up to three keeps every span tiled in address order with no two free neighbours, adds exactly the block to the live ones and its size to the live bytes |
| `SegmentQueue.FreedOk` | kernel/lib/vmem.c:510-557 | coalescing on both sides keeps the same, removes exactly the block, and never merges across a span |
| `SegmentQueue.DroppedOk` | kernel/lib/vmem.c:544-554 | removing a span leaves a well-formed queue of the others |
| `SegmentQueue.AddedOk` | kernel/lib/vmem.c:194-221 | adding a span that is clear of the others keeps the queue well-formed and every live block |
| `SegmentQueue.WhollyFree` | kernel/lib/vmem.c:544-545 | a span is one free segment exactly if it has no live block, which is what the comparison of sizes tests |
| `SegmentPool.Pool.Take` | kernel/lib/vmem.c:61-74 | the first descriptor of the pool, which no longer contains it |
| `SegmentPool.Pool.Give` | kernel/lib/vmem.c:76-82 | the descriptor is at the head of the pool again |
| `SegmentPool.Pool.Repopulate` | kernel/lib/vmem.c:84-102 | 64 fresh descriptors in front of the old ones, exactly if fewer than 128 were left |
| `Vmem.ListOf` | kernel/lib/vmem.c:49-49 | list i holds exactly the sizes from 2^(i+1) up to 2^(i+2), and lies within the array for every 64-bit size from 2 on |
| `Vmem.Arena.constructor` | kernel/lib/vmem.c:244-276 | an arena without spans, with empty indexes |
| `Vmem.Arena.Init` | kernel/lib/vmem.c:244-282 | the initial span is queued only without a source, and its size is then counted twice in the free and total statistics; the total goes on top of what the structure held |
| `Vmem.Arena.IndexesExact` | kernel/lib/vmem.c:152-187 | in every valid arena each free segment is in exactly the freelist of its size, each allocated one in exactly the bucket of its address, and nothing else is in either index |
| `Vmem.Arena.Unlist` | kernel/lib/vmem.c:407-408 | only the removed segment leaves its freelist |
| `Vmem.Arena.AddToFreelist` | kernel/lib/vmem.c:184-187 | a segment that was in no index is at the head of the right freelist |
| `Vmem.Arena.HashInsert` | kernel/lib/vmem.c:159-162 | a segment that was in no index is at the head of the right bucket |
| `Vmem.Arena.Unhash` | kernel/lib/vmem.c:507-508 | only the removed segment leaves its bucket |
| `Vmem.Arena.FindFit` | kernel/lib/vmem.c:377-389 | scanning upwards from the freelist of the size finds a segment in the lowest list that has one with a fitting address, and meets every free segment that is large enough before it gives up |
| `Vmem.Arena.FindInList` | kernel/lib/vmem.c:378-389 | the first segment of one list that fits |
| `Vmem.Arena.CutFront` | kernel/lib/vmem.c:410-436 | the part below the block becomes a free segment of its own, in the queue and in its freelist |
| `Vmem.Arena.TakeFront` | kernel/lib/vmem.c:440-460 | the block is cut off the front of the segment, and the rest stays free |
| `Vmem.Arena.TakeWhole` | kernel/lib/vmem.c:461-466 | the segment itself becomes the block and the spare descriptor goes back |
| `Vmem.Arena.CutBack` | kernel/lib/vmem.c:440-466 | both cases of the second split |
| `Vmem.Arena.Carve` | kernel/lib/vmem.c:402-469 | the segment is replaced in the queue by the pieces below, of and above the block, and unused descriptors return to the pool |
| `Vmem.Arena.MergeRight` | kernel/lib/vmem.c:510-522 | a free right neighbour is absorbed and its descriptor returned |
| `Vmem.Arena.MergeLeft` | kernel/lib/vmem.c:524-535 | a free left neighbour is absorbed and its descriptor returned |
| `Vmem.Arena.Coalesce` | kernel/lib/vmem.c:510-535 | both merges together replace the neighbours that are free by one segment |
| `Vmem.Arena.FindBlock` | kernel/lib/vmem.c:496-505 | the bucket scan finds the one queued block that starts at the address, and it has the size the caller names |
| `Vmem.Arena.ReleaseAt` | kernel/lib/vmem.c:507-542 | the freed block and its free neighbours are one free segment, and the left neighbour of that is a span marker or allocated: the assertion holds |
| `Vmem.Arena.RemoveSpan` | kernel/lib/vmem.c:549-552 | marker and segment leave the queue and both descriptors go back |
| `Vmem.Arena.XFree` | kernel/lib/vmem.c:490-562 | exactly the block stops being live; the span goes back to the source if and only if it was imported, spans can be returned and this was its last live block; if every imported span was busy before, every one is afterwards exactly if spans can be returned or this was not the last block of one; in_use and free change by the size modulo 2^64; the set of descriptors is unchanged |
| `Vmem.FreeKeepsBusy` | kernel/lib/vmem.c:544-557 | what freeing a block, or dropping its span, does to the spans without live blocks |
| `Vmem.Arena.AddInternal` | kernel/lib/vmem.c:194-221 | a marker and one free segment at the end of the queue, in the right lists; the queue stays well-formed if and only if the span is clear of all others |
| `Vmem.Arena.Contains` | kernel/lib/vmem.c:169-182 | true exactly if one queued segment covers the range, as 64-bit words compare |
| `Vmem.CoveredIff` | kernel/lib/vmem.c:169-182 | below 2^64 the assertion of `vmem_add` sees exactly the ranges that lie in one span |
| `Vmem.Arena.Add` | kernel/lib/vmem.c:298-306 | passes the assertion exactly if no queued segment covers the span; free and total are then raised by the size, and the arena stays valid if and only if the span is clear of all others |
| `Vmem.AddedIff` | kernel/lib/vmem.c:194-221 | the same on the queue as a value |
| `Vmem.OverlapCanPass` | kernel/lib/vmem.c:169-182 | a span that overlaps a queued one and passes the assertion |
| `Vmem.Arena.Search` | kernel/lib/vmem.c:377-392 | the least admissible address in a free segment of the lowest list that can serve the request, or a proof that no free segment contains an admissible address |
| `Vmem.Arena.FindOrImport` | kernel/lib/vmem.c:347-400 | a span is imported only when no queued free segment contains an admissible address; the descriptors run out if and only if the imports they allow are made in vain and the source offers another |
| `Vmem.DryIff` | kernel/lib/vmem.c:61-74 | how the way the search loop ends tells whether the descriptors ran out |
| `Vmem.Arena.XAlloc` | kernel/lib/vmem.c:308-482 | the block lies in one span between the caller's bounds, at the caller's phase of the caller's alignment or of the quantum, at the least such address of a free segment that is less than twice as large as any other that could serve; it is clear of every live block and only it becomes live; spans are those before and the imports; in_use and free change by the size; no descriptor is lost; without a block no span holds an admissible address, or the descriptors ran out, which happens if and only if the pool after the refill allows fewer imports than the source offers and those it allows are in vain; if every imported span was busy before, every one is afterwards exactly if at most one import was made, or none without a block |
| `Vmem.ChosenMeans` | kernel/lib/vmem.c:377-389 | a segment from the lowest list is less than twice as large as any other that could serve |
| `Vmem.BusyAfter` | kernel/lib/vmem.c:394-396 | of the spans imported for one request all but the last stay idle |
| `Vmem.Arena.Prepare` | kernel/lib/vmem.c:337-345 | the two descriptors of a block, and the exact number left in the pool after the refill |
| `Vmem.Arena.Commit` | kernel/lib/vmem.c:402-478 | carving and accounting for the chosen block |
| `Vmem.Arena.Alloc` | kernel/lib/vmem.c:484-488 | the base of a free segment that is large enough and less than twice as large as any other; or of the one import, made exactly if no free segment is large enough, the source answers and descriptors are left; without the bootstrap flag the descriptors never run out, whatever the source answers; if no imported span was wholly free before, none is afterwards |
| `Vmem.AnywhereFair` | kernel/lib/vmem.c:104-140 | requests for multiples of the quantum never wrap: `seg_fit` is right on every free segment of spans that end below 2^64 |
| `Vmem.RoomyIff` | kernel/lib/vmem.c:484-488 | an unconstrained request can be served exactly if some free segment is large enough |
| `Vmem.ImportFits` | kernel/lib/vmem.c:223-242 | a span imported for an unconstrained request can serve it |
| `VmemRuns.FreesToOk` | kernel/lib/vmem.c:490-562 | any sequence of frees, with or without hand-back, leaves a well-formed queue with exactly the other blocks live and exactly the spans that are not imported or still have a block |
| `VmemRuns.StepRemaining` | kernel/lib/vmem.c:490-562 | one free takes away exactly the span it empties |
| `VmemRuns.FreeOrderIrrelevant` | kernel/lib/vmem.c:490-562 | freeing the same blocks in any two orders gives the same segment sequence and hands the same spans back |
| `VmemRuns.AllocThenFree` | kernel/lib/vmem.c:308-562 | a constrained allocation and its free restore the queue segment by segment, in_use and free |
| `VmemRuns.ImportThenFree` | kernel/lib/vmem.c:484-567 | an allocation, with an import or without, and its free restore the queue: an imported span has gone back |
| `VmemRuns.DescriptorsCanRunOut` | kernel/lib/vmem.c:61-102 | a source that answers odd pages to a request for an even one: 31 imports in vain, and none left for the 32nd |
| `RbTree.HeightLogarithmic` | kernel/include/sys/tree.h:46-55 | 2 to the height is at most (n + 1) squared, that is, the height is at most 2 lg(n + 1) |
| `RbLinks.RotateLeft` | kernel/include/sys/tree.h:335-353 | on linked nodes with parents the rotation is the tree rotation, with all links consistent and the same nodes |
| `RbLinks.RotateRight` | kernel/include/sys/tree.h:355-373 | the mirror image |
| `RbInsert.RecoloredOk` | kernel/include/sys/tree.h:409-414 | recolouring keeps black counts and moves the only possible red pair two levels up |
| `RbInsert.RotatedOk` | kernel/include/sys/tree.h:415-423 | the rotations leave no red pair and the same black counts |
| `RbInsert.Recolor` | kernel/include/sys/tree.h:409-414 | on the linked nodes |
| `RbInsert.FixLeft` | kernel/include/sys/tree.h:415-423 | the two rotations under a left parent, on the linked nodes |
| `RbInsert.FixRight` | kernel/include/sys/tree.h:432-440 | the two rotations under a right parent, on the linked nodes |
| `RbInsert.InsertColor` | kernel/include/sys/tree.h:400-442 | from a tree that is red-black but for a red pair at the new node to a red-black tree with the same in-order sequence and consistent links |
| `RbInsert.Insert` | kernel/include/sys/tree.h:587-616 | a red-black tree again; the new element exactly in its place in the in-order sequence, or the element with an equal key is returned and nothing changes |
| `RbRemove.LoweredOk` | kernel/include/sys/tree.h:452-456 | a red sibling: rotation keeps the deficit where it is |
| `RbRemove.DarkenedOk` | kernel/include/sys/tree.h:457-464 | two black nephews: the deficit moves to the parent |
| `RbRemove.BorrowedOk` | kernel/include/sys/tree.h:464-481 | a red nephew: the deficit is gone |
| `RbRemove.BorrowLeft` | kernel/include/sys/tree.h:464-481 | on the linked nodes |
| `RbRemove.BorrowRight` | kernel/include/sys/tree.h:499-513 | the mirror image |
| `RbRemove.RemoveColor` | kernel/include/sys/tree.h:444-518 | from a tree in which one position lacks a black node to a red-black tree with the same in-order sequence |
| `RbDelete.Unlink` | kernel/include/sys/tree.h:569-580 | an element with at most one child is replaced by that child, all links consistent |
| `RbDelete.Replace` | kernel/include/sys/tree.h:549-560 | an element takes over another one's links, colour and place |
| `RbDelete.Leftmost` | kernel/include/sys/tree.h:531-533 | the leftmost node of the right subtree, which is the successor |
| `RbDelete.RemoveInner` | kernel/include/sys/tree.h:529-567 | removal of an element with two children |
| `RbDelete.Remove` | kernel/include/sys/tree.h:520-585 | a red-black tree of the same elements in the same order without exactly the removed one |
| `RbLookup.Nfind` | kernel/include/sys/tree.h:636-655 | the first element whose key is not less than the wanted one, or none |
| `RbLookup.Next` | kernel/include/sys/tree.h:657-676 | the successor in the in-order sequence, or none |
| `RbRemove.Round` | kernel/include/sys/tree.h:450-514 | one turn of the loop either repairs the tree or moves the deficit, up or below a red parent, without touching the order |
| `Splay.RotateRight` | kernel/include/sys/tree.h:81-85 | on linked nodes with both spines in place, the tree rotation |
| `Splay.RotateLeft` | kernel/include/sys/tree.h:87-91 | the mirror image |
| `Splay.LinkLeft` | kernel/include/sys/tree.h:93-97 | the root goes to the end of the right spine, its left subtree becomes the tree in the middle, and nothing else moves |
| `Splay.LinkRight` | kernel/include/sys/tree.h:99-103 | the mirror image |
| `Splay.Assemble` | kernel/include/sys/tree.h:105-110 | both open links are closed and the root gets the two trees: one tree of exactly the nodes of spines and middle |
| `Splay.AssembledOrder` | kernel/include/sys/tree.h:105-110 | where the descent has stopped, the assembled tree has the in-order sequence of the parts, smaller elements left of the root and larger ones right of it |
| `Splay.SplayFrom` | kernel/include/sys/tree.h:202-234 | the whole descent keeps the in-order sequence and the nodes, and ends |
| `Splay.SplayTo` | kernel/include/sys/tree.h:202-273 | after splaying to a key or to either end, every element on the left is below the target and every element on the right above it |
| `Splay.KeyAtRoot` | kernel/include/sys/tree.h:120-130 | splayed to a key, the tree has it at the root or nowhere |
| `Splay.Find` | kernel/include/sys/tree.h:120-130 | the element with the key, or none if no element has it; the order is unchanged |
| `Splay.Attach` | kernel/include/sys/tree.h:166-177 | the new element goes over the two sides of the splayed tree |
| `Splay.Insert` | kernel/include/sys/tree.h:157-179 | the element is at the root and exactly in its place in the in-order sequence, or the one with an equal key is returned and the order is unchanged |
| `Splay.Detach` | kernel/include/sys/tree.h:188-196 | the root leaves the order, whichever side is empty |
| `Splay.Remove` | kernel/include/sys/tree.h:181-200 | exactly the element with the key leaves the in-order sequence and the nodes, and the argument is returned; or no element has the key and the order is unchanged |
| `Splay.Next` | kernel/include/sys/tree.h:132-144 | the successor in the in-order sequence, or none |
| `Splay.MinMax` | kernel/include/sys/tree.h:146-151 | the first or the last element, at the root |
| `Paging.WrittenInside` | kernel/platform/amd64/vm.c:194-196 | an address that goes through a written entry is translated by it, whatever large pages lie elsewhere |
| `Paging.WrittenOutside` | kernel/platform/amd64/vm.c:194-196 | every other address keeps its translation |
| `Paging.ExtendedWalk` | kernel/platform/amd64/vm.c:45-85 | a new empty table changes no translation |
| `Paging.TableBits` | kernel/platform/amd64/vm.c:53-54 | the word of an entry for a new table |
| `Paging.HighBitsIgnored` | kernel/platform/amd64/vm.c:29-43 | the bits above bit 47 take no part in a walk |
| `PageMap.AddressSpace.constructor` | kernel/platform/amd64/vm.c:220-225 | a fresh zeroed frame as top table translates nothing |
| `PageMap.AddressSpace.Descend` | kernel/platform/amd64/vm.c:45-55 | the table below, or a fresh zeroed one, with every translation unchanged; no frame is shared between tables |
| `PageMap.AddressSpace.PteWalk` | kernel/platform/amd64/vm.c:33-92 | the entry for an address in the table of the wanted level; tables are created on the way only if asked for, from frames at the front of the free list, and no translation changes |
| `PageMap.AddressSpace.MapOne` | kernel/platform/amd64/vm.c:125-197 | exactly the page of the address leads to the frame; the processor allows a write, user access and a fetch exactly as asked for, a fetch also without NX, and the PAT index is 0, 1, 3 and 5 for write-back, write-through, uncached and write-combining, 1 for a large write-combining page; every other address keeps its translation and large pages stay out of it |
| `PageMap.AddressSpace.GrantMeans` | kernel/platform/amd64/vm.c:159-192 | what the processor makes of the rights of a mapping |
| `PageMap.AddressSpace.EntryBits` | kernel/platform/amd64/vm.c:8-21 | the word of a new entry, bit by bit |
| `PageMap.AddressSpace.Emulate` | kernel/platform/amd64/vm.c:137-151 | 512 mappings of 2 MiB have the effect of one of 1 GiB that starts at the 2 MiB boundary below the address |
| `PageMap.AddressSpace.Map` | kernel/platform/amd64/vm.c:125-197 | `vm_port_map` for 4 KiB, 2 MiB and 1 GiB pages, native or emulated, with the same statement about rights and memory types |
| `PageMap.AddressSpace.Unmap` | kernel/platform/amd64/vm.c:99-123 | exactly the page leads nowhere afterwards; no table or frame changes hands |
| `PageMap.AddressSpace.TranslatePaddr` | kernel/platform/amd64/vm.c:199-205 | the frame address of a mapped 4 KiB page; none only if the page is not mapped; otherwise the address held by the entry of the last table, present or not |
| `PageMap.Install` | kernel/platform/amd64/vm.c:194-196 | what writing one entry changes |
| `Hhdm.PageRights` | kernel/platform/amd64/vm.c:130-192 | a page of either loop gives its addresses exactly the rights stated for them: as a 4 KiB page, or without PAT in an aligned 2 MiB block within the entry, whether mapped by 2 MiB or 1 GiB pages |
| `Hhdm.LargestFits` | kernel/boot/map.c:31-47 | the page the second loop picks is aligned, ends within the entry and is the largest that does |
| `Hhdm.Step` | kernel/boot/map.c:21-46 | one mapping extends the direct map by its page, with the rights stated for each address |
| `Hhdm.RemapEntry` | kernel/boot/map.c:6-53 | every address of the entry is reached at the base of the direct map plus the address, with exact rights: writable, not for users, not executable with NX, global with PGE, PAT index 0, 1, 3 or 5, but without PAT if huge pages are used and the aligned 2 MiB block of the address lies in the entry; all other addresses keep their translation; the same with 1 GiB pages native or emulated |
| `Hhdm.RemapAll` | kernel/platform/limine-generic/entry.c:236-250 | the same for a whole memory map of disjoint entries |
| `Hhdm.HugeLikePlain` | kernel/boot/map.c:6-53 | address spaces built with and without huge pages, on processors with and without 1 GiB pages, lead to the same places, and translate identically if and only if no write-combining entry has room for an aligned 2 MiB block |
| `Hhdm.HasBlockIff` | kernel/boot/map.c:12-42 | the test on the first aligned address tells whether any aligned 2 MiB block fits |
| `Hhdm.RegionAgrees` | kernel/platform/amd64/vm.c:130-192 | huge and plain pages give all addresses of one entry the same rights if and only if the entry is not write-combining or has no room for a block |
| `Hhdm.FrameBufferLosesPat` | kernel/platform/limine-generic/entry.c:242-247 | a frame buffer whose aligned blocks become write-through while its remainder stays write-combining, and one that keeps its memory type |
| `Pm.Lookup` | kernel/vm/pm.c:121-142 | the page descriptor whose page contains the address, or none if no region does |
| `Pm.LookupInverse` | kernel/vm/pm.c:121-142 | every address on a page leads back to its descriptor: lookup inverts PG2P |
| `Pm.PagesApart` | kernel/vm/pm.c:91-94 | no two descriptors have one address |
| `Pm.PhysicalMemory.Allocate` | kernel/vm/pm.c:96-107 | the front of the free list, which is free before, in use and off the list afterwards |
| `Pm.PhysicalMemory.Release` | kernel/vm/pm.c:144-154 | the page is at the end of the free list |
| `Pm.PhysicalMemory.AddRegion` | kernel/vm/pm.c:33-74 | the pages behind the descriptors join the free list; total minus used stays the number of free pages if and only if the descriptors fit into the region, because the subtraction that rejects small regions wraps |
| `Pm.RegionCounts` | kernel/vm/pm.c:38-68 | when the totals after adding a region are right |
| `Pm.OverheadHolds` | kernel/vm/pm.c:38-39 | the reserved pages hold the header and a descriptor for every page, and are no more than needed |
| `Pm.SmallRegionMiscounts` | kernel/vm/pm.c:38-68 | a region of half a page after which total minus used is 2^64 - 1 |
| `Wired.AllocWired` | kernel/vm/kmem.c:14-32 | page i of the stretch is the i-th frame taken, writable, write-through, not for users, not global and not executable with NX; every frame that was free is still free, backs the stretch or became a table, exactly one of these; total minus used stays right |
| `Wired.FreeWired` | kernel/vm/kmem.c:34-46 | the frames are found again through the tables and returned in order, each once; the stretch leads nowhere and all else is unchanged |
| `Wired.AllocThenFree` | kernel/vm/kmem.c:14-46 | together they restore every translation and give back every frame but those that became tables |
| `Slab.Plan` | kernel/lib/slab.c:168-226 | the chunk is the least multiple of the alignment that holds the object; the alignment is the one asked for, raised to 8, or 16 for objects over 8 bytes and 8 for the others; small chunks and the header share a page; otherwise the fewest pages that hold sixteen chunks, and the assertion fails exactly for chunks over 2048 |
| `Slab.AlignmentIs` | kernel/lib/slab.c:179-185 | the alignment is a power of two, a multiple of 8 and of the one asked for, and no larger than that takes |
| `Slab.ChunksApart` | kernel/lib/slab.c:48-53 | different chunks of a slab do not overlap |
| `Slab.ChunkAligned` | kernel/lib/slab.c:48-75 | chunks are aligned if the alignment divides the page size |
| `Slab.HeaderFound` | kernel/lib/slab.c:146-149 | rounding a small chunk's address up finds the header of its own slab, behind every chunk |
| `Slab.FullFreelist` | kernel/lib/slab.c:80-111 | a free list as long as the capacity holds every chunk |
| `SlabCache.LiveObjects` | kernel/lib/slab.c:80-166 | objects that are out are disjoint, aligned and clear of every header |
| `SlabCache.LiveAligned` | kernel/lib/slab.c:179-210 | every object that is out has the alignment the caller asked for |
| `SlabCache.IdleIff` | kernel/lib/slab.c:231-241 | nothing is out exactly if no slab has references |
| `SlabCache.ListedIff` | kernel/lib/slab.c:80-111 | the first list is empty exactly if every slab is full |
| `SlabCache.TakenOk` | kernel/lib/slab.c:80-93 | taking a chunk keeps reference count plus free list equal to the capacity and a slab on the full list exactly if they are equal; the chunk was not out before and only it is new |
| `SlabCache.GivenOk` | kernel/lib/slab.c:95-111 | giving a chunk back keeps the same; only it is no longer out |
| `SlabCache.GrownOk` | kernel/lib/slab.c:117-125 | a new slab on pages of its own puts nothing out |
| `SlabCache.DestroyedOk` | kernel/lib/slab.c:238-255 | removing a slab without references changes nothing that is out |
| `SlabCache.Cache.constructor` | kernel/lib/slab.c:187-203 | an empty cache |
| `SlabCache.Create` | kernel/lib/slab.c:168-229 | an empty cache with that alignment, or the failed assertion |
| `SlabCache.Cache.NewSlab` | kernel/lib/slab.c:37-78 | exactly the chunks are on the free list, each once |
| `SlabCache.Cache.Alloc` | kernel/lib/slab.c:113-136 | an object that was not out, and only it is new: the first free chunk of the first slab; a slab is added exactly if all are full, on the pages handed out for it; the assertion that the slab has room holds |
| `SlabCache.Cache.FindBufctl` | kernel/lib/slab.c:151-161 | the descriptor of a large object is found |
| `SlabCache.Cache.SlabAlloc` | kernel/lib/slab.c:80-93 | the step on the linked slabs |
| `SlabCache.Cache.SlabFree` | kernel/lib/slab.c:95-111 | the step on the linked slabs |
| `SlabCache.Cache.Free` | kernel/lib/slab.c:138-166 | exactly the object is no longer out, its slab being recovered from the address or the descriptor; it is the first free chunk of that slab |
| `SlabCache.Cache.Destroy` | kernel/lib/slab.c:231-261 | 0 exactly if nothing is out, and then every slab's pages are given back; otherwise only slabs without references are |
| `Waits.FirstLive` | kernel/sched/dispatch.c:153-163 | the oldest listed block whose wait has not ended |
| `Waits.WaitKeeps` | kernel/sched/dispatch.c:70-106 | joining the list or taking the signal keeps the invariant: count equals list length, a block is listed exactly while its Dequeued flag is clear, no event is signalled while a block is listed, no wait was ended twice |
| `Waits.LeaveKeeps` | kernel/sched/dispatch.c:34-62 | taking the block off after waking keeps it, and the underflow panic is unreachable |
| `Waits.ExpireKeeps` | kernel/sched/dispatch.c:15-32 | a timeout keeps it |
| `Waits.SatisfyKeeps` | kernel/sched/dispatch.c:148-171 | draining the list keeps it |
| `Waits.SignalKeeps` | kernel/lib/event.c:25-49 | signalling keeps it |
| `Waits.StepKeeps` | kernel/sched/dispatch.c:15-171 | every step keeps it |
| `Waits.EveryRun` | kernel/sched/dispatch.c:15-171 | it holds in every state that any run of any number of threads and events reaches |
| `Waits.SignalWakesOldest` | kernel/sched/dispatch.c:148-171 | a single wake passes over stale blocks, wakes the first remaining waiter of the list and touches nobody else; if all are stale nobody is woken |
| `WaitOrder.InOrderNext` | kernel/sched/dispatch.c:70-171 | every step keeps each list in the order in which the waits of its threads came |
| `WaitOrder.FirstComeFirst` | kernel/sched/dispatch.c:103-103 | in every run a thread stands before another on a list exactly if its wait came first |
| `WaitOrder.WakesFirstCome` | kernel/sched/dispatch.c:148-171 | in every run a signal of a synchronisation event wakes, among the threads that still wait for it, the one whose wait came first, and no other |
| `Waits.SignalWakesAll` | kernel/lib/event.c:34-39 | a notification event wakes every waiter whose wait has not ended and stays signalled |
| `Waits.SignalKeptIff` | kernel/lib/event.c:25-49 | a signal wakes somebody or stays pending if and only if the event is a notification, nobody is listed or some listed wait has not ended; otherwise it is lost |
| `Waits.SignalCanBeLost` | kernel/lib/event.c:25-49 | a run of one thread whose wait times out, after which a signal of the event changes nothing but the list |
| `Waits.KeptWithoutTimeouts` | kernel/lib/event.c:25-49 | in every run without timeouts each signal wakes somebody or stays pending |
| `Waits.PanicIff` | kernel/sched/dispatch.c:117-146 | the assertion in `sched_unwait` fails exactly if a signal reaches a live block whose thread has joined the list but does not sleep yet |
| `Waits.OneProcessorSafe` | kernel/sched/dispatch.c:70-115 | in runs where nothing comes between joining the list and sleeping it never fails |
| `Waits.TwoProcessorsPanic` | kernel/sched/dispatch.c:103-113 | a run of one thread and one signal in which it fails |
| `Dispatch.Dispatcher.BeginWait` | kernel/sched/dispatch.c:70-106 | the wait is over at once exactly if the event was signalled; a synchronisation event loses the signal by it, a notification keeps it; otherwise the block is last on the list; the invariant is kept |
| `Dispatch.Dispatcher.FallAsleep` | kernel/sched/dispatch.c:48-51 | the thread that goes to sleep is on the list of an event that is not signalled, and has not been woken, so the next signal finds it; the invariant is kept |
| `Dispatch.Dispatcher.EndWait` | kernel/sched/dispatch.c:53-62 | the status the thread was woken with, a timeout or that of a wake; the thread is on no list afterwards and no signal count changes |
| `Dispatch.Dispatcher.WaitTimerExpired` | kernel/sched/dispatch.c:15-32 | a sleeping thread is resumed exactly once, with the status of a timeout, and its block stays listed; any other thread is left alone; the invariant is kept |
| `Dispatch.Dispatcher.Satisfy` | kernel/sched/dispatch.c:148-171 | the draining loop does what the specification of the step says, block by block |
| `Dispatch.Dispatcher.EventSignal` | kernel/lib/event.c:25-49 | the step, and whether the event was signalled before; other events are untouched, and a signalled one is left as it is |
| `Dispatch.Dispatcher.EventReset` | kernel/lib/event.c:4-12 | the event is not signalled afterwards, the old count is returned and nothing else changes |
| `Mutex.TryKeeps` | kernel/lib/mutex.c:19-26 | taking the mutex: the owner is free, and signal, owner and releases under way count at most one together |
| `Mutex.TurnKeeps` | kernel/lib/mutex.c:27-30 | waiting for the event keeps that |
| `Mutex.ReturnKeeps` | kernel/lib/mutex.c:28-30 | a woken or timed-out waiter returns with STATUS_TIMEOUT and is not the owner |
| `Mutex.HandKeeps` | kernel/lib/mutex.c:40-40 | the signal of a release keeps it |
| `Mutex.MoveKeeps` | kernel/lib/mutex.c:16-41 | so does every step of every thread, and neither assertion fails |
| `Mutex.MutualExclusion` | kernel/lib/mutex.c:9-41 | in every run from `mutex_init` at most one thread holds the mutex, it is the owner, and no assertion has failed |
| `Mutex.TokenLostIff` | kernel/lib/mutex.c:16-41 | the count drops from one to zero exactly if a thread that found the mutex taken takes the signal in its wait, or a release signals while somebody is listed |
| `Mutex.LostForGood` | kernel/lib/mutex.c:16-41 | once it is zero nobody holds the mutex in any later state |
| `Mutex.TokenCanBeLost` | kernel/lib/mutex.c:16-41 | a run of two threads that gets there |
| `Mutex.UncontendedKeepsToken` | kernel/lib/mutex.c:16-41 | while no thread waits for the mutex the count stays one |
| `Dpc.FloorsRise` | kernel/irq/irql.c:6-22 | nested calls never go below the level of the calls they interrupted |
| `Dpc.OneDispatch` | kernel/irq/int.c:25-37 | at most one dispatch is in progress |
| `Dpc.EnqueueKeeps` | kernel/irq/dpc.c:30-45 | an enqueue keeps queue, count, flags and the pending bit in agreement |
| `Dpc.DrawKeeps` | kernel/irq/dpc.c:61-74 | so does drawing a procedure |
| `Dpc.LowerKeeps` | kernel/irq/irql.c:14-22 | lowering the level keeps the invariant |
| `Dpc.LoopKeeps` | kernel/irq/int.c:25-37 | so does the dispatch loop |
| `Dpc.StepKeeps` | kernel/irq/int.c:9-49 | so does every step, interrupts included |
| `Dpc.StepAgrees` | kernel/irq/dpc.c:30-77 | every step keeps: what has begun followed by what is queued is what was accepted, told from the events and the stack |
| `Dpc.ExactlyOnceInOrder` | kernel/irq/dpc.c:30-77 | in every run the procedures whose bodies were entered followed by those queued are, in order and with the contexts of their own enqueues, the enqueues that came when all earlier ones of the procedure had begun |
| `Dpc.BegunAtDispatch` | kernel/irq/dpc.c:56-77 | in every run a body is entered at dispatch level, inside exactly one dispatch, and is the first of the queue |
| `Dpc.LowerLeavesNone` | kernel/irq/irql.c:14-22 | in every run, when lowering to a level below dispatch returns, the level is the one asked for, no procedure is queued and everything accepted has begun |
| `Dpc.LowerCompletes` | kernel/irq/int.c:25-37 | left to itself, lowering the level below dispatch ends, with that level, the interrupts as they were and every queued procedure begun in order |
| `Dpc.LevelsNest` | kernel/platform/amd64/int.c:160-171 | the level an interrupt handler returns to is not above the current one: the assertion in `irql_lower` holds |
| `Dpc.LevelSet` | kernel/irq/irql.c:6-22 | raising and lowering set the level asked for |
| `Dpc.InterruptReturns` | kernel/platform/amd64/int.c:160-171 | a handler runs at the level of its interrupt and goes back to the level and the calls it came from |
| `Timers.QueueOk` | kernel/lib/time.c:191-219 | installing keeps: a timer is Queued exactly if it has an engine and is in that engine's heap, with the deadline it was installed with |
| `Timers.CancelOk` | kernel/lib/time.c:165-189 | cancelling keeps it |
| `Timers.FireOk` | kernel/lib/time.c:137-143 | firing the least deadline keeps it, and the firing is on time and in order |
| `Timers.FiresOnce` | kernel/lib/time.c:109-163 | between two firings of a timer it was installed again, with the deadline of the second |
| `Timers.Clockwork.Install` | kernel/lib/time.c:191-219 | the timer is queued on the engine |
| `Timers.Clockwork.Uninstall` | kernel/lib/time.c:165-189 | the timer is off every heap and cancelled |
| `Timers.Clockwork.Set` | kernel/lib/time.c:90-102 | the deadline changes only after a queued timer was cancelled |
| `Timers.Clockwork.Expire` | kernel/lib/time.c:137-143 | the timer is off the heap and has fired |
| `Timers.Clockwork.Progress` | kernel/lib/time.c:109-163 | every reading of the clock but the last fires a timer; when it returns, every timer left on the engine has its deadline after the last reading, the least of them is announced and the hardware armed with it, or with 0, whatever the callbacks installed or cancelled; otherwise every reading has fired a timer, or a callback failed; without callbacks and with a clock that does not go back exactly the timers that are due have fired |
| `Timers.Clockwork.Turn` | kernel/lib/time.c:115-143 | one turn of the loop |
| `Numerals.UtoaRev` | kernel/include/nanoprintf.h:472-482 | the digits in reverse, at most 22 of the 23 places for any 64-bit number in base 8, 10 or 16 |
| `Numerals.DigitsValue` | kernel/include/nanoprintf.h:472-482 | reading the digits gives the number |
| `Numerals.DigitsLength` | kernel/include/nanoprintf.h:472-482 | n digits suffice exactly below the n-th power of the base |
| `Numerals.WordDigits` | kernel/include/nanoprintf.h:68-74 | the conversion buffer is large enough |
| `Format.Parse` | kernel/include/nanoprintf.h:289-470 | a specification ends within the format: the cursor does not pass the terminator |
| `Format.FieldWidth` | kernel/include/nanoprintf.h:986-1028 | a padded field is exactly as wide as asked for unless its content is wider |
| `FormatText.ParseRoundTrip` | kernel/include/nanoprintf.h:289-470 | every specification written down in canonical form is parsed back to itself, whatever follows it |
| `FormatMeaning.Letters` | kernel/include/nanoprintf.h:379-466 | which letter asks for which conversion |
| `FormatMeaning.LengthLetters` | kernel/include/nanoprintf.h:351-377 | which letters ask for which length |
| `FormatMeaning.UpperLetters` | kernel/include/nanoprintf.h:379-466 | upper-case digits are asked for by X and B |
| `FormatMeaning.FlagSet` | kernel/include/nanoprintf.h:300-312 | the set of flags counts, not their order |
| `FormatMeaning.TakesArguments` | kernel/include/nanoprintf.h:764-955 | a conversion takes one argument, none for %%, and one more for each star |
| `FormatMeaning.StarValues` | kernel/include/nanoprintf.h:764-779 | a star width is the absolute value, to the left if negative; a negative star precision is none |
| `FormatMeaning.Bits` | kernel/include/nanoprintf.h:818-899 | the argument modulo 2 to the number of bits of its length, in the range of the type |
| `FormatMeaning.TextPayload` | kernel/include/nanoprintf.h:807-816 | %s prints the text up to its end, the first zero or the precision, whichever comes first |
| `FormatMeaning.CharPayload` | kernel/include/nanoprintf.h:797-805 | %c prints the low byte, %% a percent sign |
| `FormatMeaning.SignedPayload` | kernel/include/nanoprintf.h:818-848 | sign and digits of %d: no leading zero, and nothing for zero with precision zero |
| `FormatMeaning.UnsignedPayload` | kernel/include/nanoprintf.h:849-909 | prefix and digits of %u, %o, %x and %b |
| `FormatMeaning.PointerPayload` | kernel/include/nanoprintf.h:911-918 | 0x and the digits of the word |
| `FormatMeaning.Justified` | kernel/include/nanoprintf.h:957-1029 | blanks to the left or right of the whole, zeros between sign and prefix and the digits, as many as are missing to the width |
| `FormatMeaning.PlainText` | kernel/include/nanoprintf.h:759-761 | text without percent signs is printed as it is |
| `Readback.ReadLayout` | kernel/include/nanoprintf.h:957-1028 | what any integer field reads back as |
| `Readback.IntegerRoundTrip` | kernel/include/nanoprintf.h:764-1028 | an integer conversion reads back as its argument, the most negative one included, for all flags, widths and precisions, if and only if it is not filled up with zeros on the right |
| `Readback.WrittenRoundTrip` | kernel/include/nanoprintf.h:289-1028 | which never happens for a width written in the format |
| `Readback.ZerosOnTheRight` | kernel/include/nanoprintf.h:764-772 | but does for `%0*d` with a negative width |
| `Printf.Sink.Put` | kernel/include/nanoprintf.h:724-741 | the character is counted, and stored if there is room |
| `Printf.Sink.PutReversed` | kernel/include/nanoprintf.h:1022-1022 | the digits in the right order |
| `Printf.Sink.PutBinary` | kernel/include/nanoprintf.h:1018-1019 | the binary digits |
| `Printf.BinLen` | kernel/include/nanoprintf.h:685-721 | the number of binary digits |
| `Printf.ParseFormatSpec` | kernel/include/nanoprintf.h:289-470 | the loops compute the specified parse |
| `Printf.ConvertNumber` | kernel/include/nanoprintf.h:849-899 | the conversion buffer is not overrun, the leading octal zero included |
| `Printf.ConvertArg` | kernel/include/nanoprintf.h:795-955 | sign, prefix, digits and remaining precision of every conversion |
| `Printf.ConvertUnsigned` | kernel/include/nanoprintf.h:853-909 | the same for the unsigned ones |
| `Printf.PrintField` | kernel/include/nanoprintf.h:995-1029 | the field is printed as laid out |
| `Printf.Print` | kernel/include/nanoprintf.h:764-1029 | one specification prints its field and takes its arguments |
| `Printf.Vpprintf` | kernel/include/nanoprintf.h:751-1033 | what is printed and counted is a function of the format and the arguments only |
| `Printf.Vsnprintf` | kernel/include/nanoprintf.h:1055-1074 | a buffer of n > 0 characters holds the first min(len, n - 1) of the unbounded output, then a zero; len is returned whatever n is |
| `Symbols.Strtoaddr` | kernel/lib/symbols.c:84-92 | the hexadecimal value modulo 2^64 |
| `Symbols.HexRoundTrip` | kernel/lib/symbols.c:74-92 | printing an address and reading it gives it back |
| `Symbols.ParseMap` | kernel/lib/symbols.c:94-127 | the symbols of the complete lines, in order: address up to the first blank, name after the last |
| `Symbols.MapRoundTrip` | kernel/lib/symbols.c:94-127 | a printed symbol map is parsed back to its entries |
| `Symbols.LookupAddress` | kernel/lib/symbols.c:47-60 | in an ascending list, the last symbol that begins strictly below the address |

## Left out

- Spinlocks, memory ordering, start-up of further processors and context switches: each critical section is one atomic step, and `sched_resume` makes a thread ready.
- RB_FIND, RB_PREV and RB_MINMAX in `sys/tree.h`, which follow RB_NFIND and RB_NEXT, and the RBT functions behind it, whose code is not part of this model. The number of steps a splay saves later is not modelled.
- In the arenas: `murmur64` is any function from addresses to the 16 buckets; instant fit and next fit, which are never chosen; `nocross`, which is asserted to be zero; `vmem_destroy` and `vmem_dump`. The lists of `sys/queue.h` are sequences of objects.
- Vmem.Arena.XAlloc: sizes, phases and spans are multiples of the quantum, and `seg_fit` is right on every free segment, by its exact condition. The answers of the source are a parameter; that the source may itself take descriptors from the shared pool, or refill it, is not modelled.
- Vmem.Arena.Alloc: spans end below 2^64, since `vmem_alloc` bounds the end of a block by 2^64 - 1.
- Vmem.Arena.Add: what an arena does after an overlapping span was added is not modelled.
- PageMap.AddressSpace.MapOne: physical addresses from 2^52 on, which would spill into the flag bits, and mapping below an existing large page, whose entry the walk would take for a table, are not modelled; neither are the TLB and the accessed and dirty bits.
- PageMap.AddressSpace.Descend: an entry that maps a large page, which the source would follow as a table, is excluded.
- PageMap.AddressSpace.PteWalk: the same on the whole way.
- PageMap.AddressSpace.Map: the same for each page of the mapping.
- PageMap.AddressSpace.Unmap: the same.
- Hhdm.RemapEntry: entries are page-aligned, as the source's final assertion needs.
- Pm.PhysicalMemory.AddRegion: for a region smaller than one page the marking of descriptors runs past the array in the source; that write is not modelled.
- SlabCache.Cache.Alloc: the descriptors of large slabs and chunks come from two further caches in the source; here they are new objects. Constructors and destructors of objects are not modelled, and the list of descriptors, which the source never initialises, is taken to start empty.
- `kmalloc` and `kfree`: the choice of a size class is a scan of twelve constants.
- Dispatch.Dispatcher.BeginWait: waiting for several objects at once is not implemented in the source.
- Dpc: `dpc_dequeue` and the preemption at the end of `dpc_interrupt`; code is assumed to return to the level it started from.
- Timers.Clockwork.Progress: the heap is a set with a minimum, clock readings and callbacks are parameters, and waiters of a timer are those of `Waits`. The relocking of the object lock in `timer_set` is not modelled.
- Printf.Vpprintf: the count is a number without bound, where the source keeps an `int`.
- Printf.Vsnprintf: arguments that do not match the format count as zero or empty; counts beyond the range of `int` and widths that overflow it are not modelled.
- Symbols.Strtoaddr: for more than 16 digits the source shifts by more than the width of the word, which C leaves undefined; the model gives the value modulo 2^64.
- Symbols.ParseMap: lines without two blanks, for which the source computes wrapped lengths, are excluded.
- Devices, boot protocols, consoles, the log ring and the string routines.
