# Verified model of ukoOS's memory management and its neighbours

This project models, in Dafny, the parts of the ukoOS kernel in which several data structures have to agree
after every step, and proves what they promise.

- **Virtual addresses** (`mm/virtual_alloc.c`). `Lists`, `TreapShape` and `Treap` hold the intrusive ring and
  the parent-linked treap as mutable nodes; `Tiles` is the theory of the address-ordered list as a tiling;
  `VirtualAlloc` keeps list, treap by address and treap by size together through splits and merges. The
  invariant `Valid` of `VmaAllocator` says that the three structures hold the same VMAs and that these tile
  the range with no two free neighbours; every operation is proved to keep it.
- **Physical frames and page tables** (`mm/physical_alloc.c`, `arch/riscv64/paging.c`). `PhysicalMemory` is one
  memory of frames of words. The free lists of `PhysicalAlloc` lie in its free frames; `Reservations` is the
  loop that subtracts reservations from a region; the tables of `Paging` lie in frames taken from the allocator.
  What a table entry means is not taken from the code but from the translation of section 4.3.2 of the RISC-V
  Privileged Architecture 20211203 (`PageTree.Translate`), on entries in the layout of section 4.4 (`Pte`).
- **Heap** (`mm/alloc.c`, `mm/alloc/`). `HeapPages` has one page with its masked free lists and the shuffle that
  fills them; `Heap` has segments, page lists, the full list and `pages_direct`, for one hart; `HeapRings` has
  the page lists as the rings that they are; `HeapStuck` is a run that ends in a failed assertion; `HeapSegments`
  takes the segments from the allocator of addresses.
- **Crypto** (`crypto/subtle/`). `BlockHash` and `Blake2` state RFC 7693, `Blake2Streaming` and `Blake2OneShot`
  are the kernel's two ways through it; `ChaCha20` is RFC 7539. Words are numbers below 2^32 or 2^64 and every
  wrap-around is written out; `BitWords` and `Rotations` prove that this is the arithmetic of machine words, and
  `Blake2sVectors`, `Blake2bVectors` and `ChaChaVectors` the worked examples of the two standards with it.
- **Devicetree and devices** (`devicetree.c`, `device.c`). `FdtTokens` and `FdtParser` are the structure-block
  parser, first on tokens and then on bytes, and `FdtNodes` says by the places of the tokens which node comes out;
  `TreeWalks` are the walks that need no stack.
- **Number formatting** (`print.c`). `NumberFormat`.

A panic, a failed assertion or a `TODO` of the kernel is an outcome (`Halted`, `Panicked`) where it can happen;
the assertions that a row names are proved to hold. `random()` gives any number. Memory for
VMA metadata, and address space for heap segments, come from parameters that may refuse or stop.

Where the code departs from what its comments say, the code is modelled and the departure is stated exactly:

- `treap_remove` always raises the left child first: `Treaps.Treap.Remove` says when heap order survives,
  `TreapShape.RemovalMayBreakHeap` is an input for which it does not.
- `treap_insert` masks its draw after testing it for zero: `Treaps.MaskedDraw`; `Insert` says that the treap is in
  order again exactly if the masked draw is not zero.
- `consider_physical_memory` takes the last reservation ahead, not the lowest: `Reservations.CleanIffOrdered`
  gives the exact condition, `DescendingIsOrdered` and `AscendingOverlaps` an order that meets it and one that
  does not. An empty reservation can keep the loop going for ever: `EndsIff` says exactly when it ends.
- `add_physical_chunk` goes wrong for a chunk at frame 0 and for one that ends at exactly 4 GiB:
  `PhysicalAlloc.Allocator.AddChunk` says that it is right for all others and wrong for these, and when a link is
  written where there is no memory; `PhysicalAlloc.UnsoundChunks` has two of them.
- `mm_paging_walk` asserts less than Sv39 requires: `Pte.AliasIffNotCanonical`, `Pte.NotCanonical`. It takes a
  superpage for a table: `PageTree.Tree.AgreesIffOutside`.
- `alloc_generic` can fail its own assertion: `Heap.Heap.AllocGeneric` gives the exact condition, and
  `HeapStuck.DrainAndFree` a run that meets it.
- A parse failure inside a nested node panics: `FdtTokens.NestedFailureHalts`, `NestedFailure`, on bytes `FdtParser.HaltsIff`.

## Model

| member | source | states |
|---|---|---|
| `Lists.Push` | src/kernel/include/list.h:98-107 | the ring gains the element at its end; all other links stay a ring |
| `Lists.Unshift` | src/kernel/include/list.h:86-96 | the element stands right after the given one, wherever in the ring that is |
| `Lists.Shift` | src/kernel/include/list.h:109-119 | the first element leaves and is self-linked; the rest is the ring without it |
| `Lists.Remove` | src/kernel/include/list.h:134-143 | exactly the element leaves, and the ring closes over it |
| `Treaps.Treap.Rotate` | src/kernel/mm/virtual_alloc.c:175-203 | on the linked nodes: the in-order sequence, every node outside the rotation and all values and priorities stay; parent, side and root links agree again |
| `TreapShape.Shape.RotatedOk` | src/kernel/mm/virtual_alloc.c:175-203 | a rotation gives one binary tree with the same in-order sequence |
| `Treaps.Treap.Insert` | src/kernel/mm/virtual_alloc.c:208-263 | adds exactly one node, before the nodes that are not smaller and after the smaller ones; a sorted tree stays sorted, a heap-ordered one heap-ordered; all members have a priority again if and only if the masked draw is not zero |
| `Treaps.Treap.RiseUp` | src/kernel/mm/virtual_alloc.c:246-262 | the second loop of the insertion ends, keeps the in-order sequence and restores the heap order |
| `Treaps.InsertedSorted` | src/kernel/mm/virtual_alloc.c:228-241 | insertion at the place found keeps the sequence sorted, equal values included |
| `Treaps.Treap.Remove` | src/kernel/mm/virtual_alloc.c:268-302 | removes exactly one node and leaves it detached; the heap order survives if and only if the stated condition on the node's children holds |
| `Treaps.RemovedSorted` | src/kernel/mm/virtual_alloc.c:268-302 | removal keeps the sequence sorted |
| `Treaps.SunkRemoved` | src/kernel/mm/virtual_alloc.c:272-300 | after the rotations the node is a leaf; cutting it off is the removal, and heap order is kept exactly under the condition |
| `TreapShape.RemovalMayBreakHeap` | src/kernel/mm/virtual_alloc.c:275-286 | a heap-ordered tree of three nodes whose root cannot be removed without breaking the heap order, because the left child always rises |
| `Treaps.MaskedDraw` | src/kernel/mm/virtual_alloc.c:215-221 | the masked priority is zero for exactly one of the draws that the redraw lets through |
| `Tiles.CarveKeeps` | src/kernel/mm/virtual_alloc.c:459-493 | taking pages out of a free tile keeps the tiling gap-free, overlap-free and coalesced, and adds exactly that one used tile |
| `Tiles.ReleasedKeeps` | src/kernel/mm/virtual_alloc.c:606-652 | giving a tile back keeps the tiling and leaves no two free neighbours; exactly that used tile is gone |
| `Tiles.Canonical` | src/kernel/mm/virtual_alloc.c:26-46 | the tile list is determined by the used tiles: two coalesced tilings of one range with the same used tiles are equal |
| `Tiles.ReleasedCarve` | src/kernel/mm/virtual_alloc.c:629-652 | freeing right after allocating restores the same tile list |
| `Tiles.NothingUsed` | src/kernel/mm/virtual_alloc.c:629-652 | with nothing used there is one free tile over the whole range |
| `Tiles.FitsIffFreeRun` | src/kernel/mm/virtual_alloc.c:437-456 | a free tile of a size exists exactly when that many consecutive pages are free |
| `Tiles.CarvableIffAllFree` | src/kernel/mm/virtual_alloc.c:532-547 | a range lies in one free tile exactly when all its pages are free |
| `Tiles.CarveTakes` | src/kernel/mm/virtual_alloc.c:459-493 | page by page: exactly the pages asked for are free no longer |
| `Tiles.ReleaseGives` | src/kernel/mm/virtual_alloc.c:629-652 | page by page: exactly the pages of the tile become free |
| `Tiles.RunKeeps` | src/kernel/mm/virtual_alloc.c:26-46 | after any legal sequence of takes and gives the tiling is intact and coalesced |
| `Tiles.GivingAllBack` | src/kernel/mm/virtual_alloc.c:629-652 | giving back everything, in any order, ends with one free tile |
| `VirtualAlloc.VmaAllocator.MarkFree` | src/kernel/mm/virtual_alloc.c:635 | a VMA enters the treap by size; list, treap by address and treap by size agree again |
| `VirtualAlloc.VmaAllocator.AddVma` | src/kernel/mm/virtual_alloc.c:480-484 | a new VMA enters list and treap by address at the same place |
| `VirtualAlloc.VmaAllocator.DropVma` | src/kernel/mm/virtual_alloc.c:615-618 | a VMA leaves all three structures, which agree without it |
| `VirtualAlloc.VmaAllocator.Find` | src/kernel/mm/virtual_alloc.c:413-429 | returns the one VMA that covers the address; the final assertion holds |
| `VirtualAlloc.VmaAllocator.SmallestFit` | src/kernel/mm/virtual_alloc.c:437-451 | finds a smallest free VMA that is large enough, null exactly when there is none |
| `VirtualAlloc.VmaAllocator.Alloc` | src/kernel/mm/virtual_alloc.c:434-494 | fails exactly when no free tile fits; otherwise the pages at the start of a smallest fitting tile, and nothing else, become used, and all other used VMAs keep their bounds; it halts exactly when a split finds no memory for its metadata |
| `VirtualAlloc.VmaAllocator.AllocByAddr` | src/kernel/mm/virtual_alloc.c:527-601 | fails for lack of space exactly when some page of the range is not free, for lack of metadata exactly when a leftover needs it; failure changes nothing, success carves out exactly the range |
| `VirtualAlloc.VmaAllocator.Merge` | src/kernel/mm/virtual_alloc.c:606-627 | a free VMA swallows its free successor in all three structures |
| `VirtualAlloc.VmaAllocator.Free` | src/kernel/mm/virtual_alloc.c:629-652 | exactly the VMA's tile becomes free and merges with both neighbours where they are free; every other used VMA keeps its bounds |
| `VirtualAlloc.VmaAllocator.AllocAligned` | src/kernel/mm/virtual_alloc.c:498-525 | the net effect is to take exactly the returned, aligned pages; it fails for lack of space exactly if nothing fits, or the first tile tried is not aligned and nothing fits with padding, and then the tiles are as they were; it halts exactly if a call needs metadata that is not there, or the padded size is over the bound |
| `VirtualAlloc.VmaAllocator.NeverHalts` | src/kernel/mm/virtual_alloc.c:498-525 | with all metadata and a padded size within the bound no assertion fails |
| `VirtualAlloc.VmaAllocator.EnoughSpace` | src/kernel/mm/virtual_alloc.c:498-525 | nor does it lack space where as many pages in a row are free as the padded size has |
| `VirtualAlloc.VmaAllocator.AllocFree` | src/kernel/mm/virtual_alloc.c:520-524 | the last call of the aligned allocation succeeds on pages that are free, unless a leftover needs metadata that is missing |
| `VirtualAlloc.VmaAllocator.GiveBack` | src/kernel/mm/virtual_alloc.c:511-519 | allocating and freeing inside the aligned allocation restores the tile list and moves no used VMA |
| `VirtualAlloc.VmaAllocator.AlignedInside` | src/kernel/mm/virtual_alloc.c:515-521 | the aligned range lies inside the padded one |
| `VirtualAlloc.InitAllocator` | src/kernel/mm/virtual_alloc.c:352-376 | starts with one free tile over the whole range, in all three structures |
| `Align.AlignDownIs` | src/kernel/include/align.h:12-15 | the greatest aligned address that is not above |
| `Align.AlignUpIs` | src/kernel/include/align.h:17-19 | the least aligned address that is not below |
| `PhysicalAlloc.PushedOk` | src/kernel/mm/physical_alloc.c:30-38 | a link written to the first frame of a free range makes memory hold the longer list; the frame sets add up |
| `PhysicalAlloc.PoppedOk` | src/kernel/mm/physical_alloc.c:40-60 | what the list in memory is after the first frame was taken, for links of one frame and of more |
| `PhysicalAlloc.ListFrame` | src/kernel/mm/physical_alloc.c:30-60 | writes outside the free frames do not disturb a list that lies in them |
| `PhysicalAlloc.FreeList.Push` | src/kernel/mm/physical_alloc.c:30-38 | what is written where, and the new head |
| `PhysicalAlloc.FreeList.Pop` | src/kernel/mm/physical_alloc.c:40-60 | fails exactly on the empty list; otherwise exactly the returned frame leaves, and nothing outside the list's frames is written |
| `PhysicalAlloc.Allocator.Alloc` | src/kernel/mm/physical_alloc.c:242-250 | fails exactly when no eligible frame is free; the frame returned is eligible, below 4 GiB if so asked, and the only one that leaves the free set; memory above 4 GiB is preferred |
| `PhysicalAlloc.Allocator.FreeFrame` | src/kernel/mm/physical_alloc.c:252-261 | exactly the frame is added to the free set; nothing else is written |
| `PhysicalAlloc.Allocator.AddChunk` | src/kernel/mm/physical_alloc.c:62-92 | whatever the lists hold, the parts stay together; for a chunk that is not free yet, the lists in memory hold the old free frames and its whole pages if and only if it does not begin at frame 0 or end at exactly 4 GiB; for one that ends there the list below holds its frames and the pages; a link is written where there is no memory exactly if it ends there and memory does too |
| `PhysicalAlloc.UnsoundChunks` | src/kernel/mm/physical_alloc.c:78-87 | two chunks for which it goes wrong, 2 GiB of memory from 0x80000000 one of them |
| `PhysicalAlloc.Allocator.Unsound` | src/kernel/mm/physical_alloc.c:78-87 | after such a chunk no lists in memory hold the frames that should be free |
| `PhysicalAlloc.Allocator.WriteHeld` | src/kernel/mm/physical_alloc.c:242-261 | a client that writes to a frame it holds leaves the free lists intact |
| `PhysicalAlloc.WholePagesAre` | src/kernel/mm/physical_alloc.c:63-70 | rounding start up and end down leaves exactly the pages that lie inside as a whole |
| `Reservations.BumpUp` | src/kernel/mm/physical_alloc.c:112-118 | ends, at the first address from the given one on that no reservation has |
| `Reservations.EndsIff` | src/kernel/mm/physical_alloc.c:112-132 | the loop ends if and only if no address of the region is free of reservations and its own top |
| `Reservations.NonEmptyNeverStalls` | src/kernel/mm/physical_alloc.c:112-132 | so only an empty reservation can keep it going |
| `Reservations.FindTop` | src/kernel/mm/physical_alloc.c:124-128 | the start of the last reservation in the list that starts ahead, or the end |
| `Reservations.ChunksAreOk` | src/kernel/mm/physical_alloc.c:105-133 | wherever the loop ends, the chunks are disjoint, in order, and cover every free address of the region |
| `Reservations.CleanIffOrdered` | src/kernel/mm/physical_alloc.c:105-133 | the chunks touch no reservation if and only if, from the end of every free stretch, the last reservation ahead in the list is the one that ends the stretch |
| `Reservations.DescendingIsOrdered` | src/kernel/mm/physical_alloc.c:124-128 | descending start order is enough for that |
| `Reservations.AscendingOverlaps` | src/kernel/mm/physical_alloc.c:124-128 | a list in ascending order whose first chunk runs over a reservation |
| `Reservations.EmptyReservationStays` | src/kernel/mm/physical_alloc.c:120-132 | a list with an empty reservation on which the loop never ends, and one on which it does |
| `Reservations.ChunksAreUnreserved` | src/kernel/mm/physical_alloc.c:105-133 | for an ordered list the whole pages of the chunks are exactly the pages of the region without a reserved address |
| `Reservations.FindChunks` | src/kernel/mm/physical_alloc.c:105-133 | the loop, for every region and list on which it ends: its calls of `add_physical_chunk` are those chunks, in order, and clean exactly for an ordered list |
| `Reservations.ConsiderMemory` | src/kernel/mm/physical_alloc.c:105-133 | on every list on which the loop ends; if no chunk of the run begins at frame 0 or ends at 4 GiB, the free set grows by exactly the whole pages of the chunks, for an ordered list by exactly the unreserved pages; a link is written to nowhere exactly if a chunk of the run ends at 4 GiB and there is no memory |
| `Pte.DecodeEncode` | src/kernel/arch/riscv64/paging.c:19-32 | a page table entry survives being written as 64 bits and read back |
| `Pte.EncodeDecode` | src/kernel/arch/riscv64/paging.c:19-32 | and 64 bits survive being read as an entry |
| `Pte.FieldsOf` | src/kernel/arch/riscv64/paging.c:19-32 | which bits of the word are which field |
| `Pte.KeyIsPage` | src/kernel/arch/riscv64/paging.c:98-99 | the three indices are the digits of the page number, the highest first |
| `Pte.CanonicalKeys` | src/kernel/arch/riscv64/paging.c:98-99 | canonical pages with the same three indices are the same page |
| `Pte.AliasIffNotCanonical` | src/kernel/arch/riscv64/paging.c:95 | the assertion on bits 63 to 39 lets through an alias of a canonical page exactly when the address is not canonical |
| `Pte.NotCanonical` | src/kernel/arch/riscv64/paging.c:95 | an address that the assertion lets through although it is not canonical, and the page that it aliases |
| `PageTree.Tree.GrownOk` | src/kernel/arch/riscv64/paging.c:111-123 | a fresh zeroed frame, linked, keeps the tables an unshared tree |
| `PageTree.Tree.GrownSame` | src/kernel/arch/riscv64/paging.c:111-139 | and the hardware's translation of every page stays the same |
| `PageTree.Tree.WrittenElsewhere` | src/kernel/arch/riscv64/paging.c:191-192 | writing one last-level entry changes the hardware's translation of exactly one page |
| `PageTree.Tree.LastLevel` | src/kernel/arch/riscv64/paging.c:93-144 | outside superpages the hardware's walk is the entry at the end of the software's walk |
| `PageTree.Tree.AgreesIffOutside` | src/kernel/arch/riscv64/paging.c:109-139 | the software's walk, which takes every valid entry for a pointer, agrees with the hardware's on a page of 4 KiB if and only if no leaf is on the way |
| `PageTree.SuperpageMisread` | src/kernel/arch/riscv64/paging.c:109-139 | tables with a superpage on which the two disagree |
| `Paging.LeafFor` | src/kernel/arch/riscv64/paging.c:157-189 | which flags the six permissions become |
| `Paging.PageTables.NewTable` | src/kernel/arch/riscv64/paging.c:112-122 | a new table comes from the free frames, is empty and is linked in one place; no translation changes |
| `Paging.PageTables.Walk` | src/kernel/arch/riscv64/paging.c:93-144 | finds the last-level entry; without `alloc` it changes nothing; it succeeds exactly if no table is missing, or `alloc` is asked for and there are as many free frames as tables missing, and takes exactly so many; no translation changes |
| `Paging.PageTables.Map` | src/kernel/arch/riscv64/paging.c:146-193 | on success exactly the one page is translated anew, to the frame and flags asked for; on failure, even after linking tables, no translation changes; it halts exactly when the page is mapped, and lacks memory exactly with fewer free frames than missing tables; free frames and table frames together are conserved |
| `Paging.PageTables.Unmap` | src/kernel/arch/riscv64/paging.c:195-216 | succeeds exactly when the page is mapped, gives back the frame that was mapped, and exactly that page is translated no more; tables and free frames stay |
| `ExclusiveOr.XorTwice` | src/kernel/mm/alloc/block.c:24-36 | unmasking a masked reference gives the address back |
| `HeapPages.RefsAreValid` | src/kernel/mm/alloc/block.c:13-44 | every reference made from an aligned address passes the validity check |
| `HeapPages.BlockAsserts` | src/kernel/mm/alloc/block.c:11-29 | every block of a page is in its bounds, aligned, and in the top 2^56 bytes, so the assertions on it hold |
| `HeapPages.Page.Asserts` | src/kernel/mm/alloc/block.c:31-44 | so do those on every reference in the page's lists |
| `SizeClasses.ClassOfSizeIs` | src/kernel/mm/alloc/size_classes.h:101-110 | the class of a size is the least whose blocks are large enough |
| `SizeClasses.DirectIndexClass` | src/kernel/mm/alloc/heap.h:126-145 | the entry of `pages_direct` for a size is of the class of that size |
| `SizeClasses.IndexRange` | src/kernel/mm/alloc/heap.c:48-63 | the entries set for a class are exactly those whose sizes are of the class |
| `HeapPages.Geometry` | src/kernel/mm/alloc/page.c:254-273 | the blocks of every class begin after the header, are aligned, and fill the page to its end |
| `HeapPages.BlockIn` | src/kernel/mm/alloc/page.c:254-273 | a block lies inside its page and is aligned to its size |
| `HeapPages.PageOfPtr` | src/kernel/mm/alloc/page.c:245-252 | from any address in a small or large block, and from a huge block, the owning page and segment are found |
| `HeapPages.BlocksApart` | src/kernel/mm/alloc/page.c:254-273 | different blocks of one segment do not overlap |
| `HeapPages.Page.FreePop` | src/kernel/mm/alloc/page.h:154-167 | takes the first free block, null exactly when there is none; blocks stay partitioned |
| `HeapPages.Page.LocalFreePush` | src/kernel/mm/alloc/page.c:304-309 | a block handed out goes to the front of the local list; blocks stay partitioned and the count is right |
| `HeapPages.Page.Collect` | src/kernel/mm/alloc/page.c:275-287 | the local list becomes the free list exactly when the free list is empty |
| `HeapPages.Page.FillBuffer` | src/kernel/mm/alloc/page.c:95-101 | the buffer holds the first blocks of the page, each once |
| `HeapPages.Page.PushBuffered` | src/kernel/mm/alloc/page.c:104-125 | whatever the random numbers are, every block ends up in the free list exactly once |
| `HeapPages.Page.PushFew` | src/kernel/mm/alloc/page.c:126-137 | and so it does with fewer than 16 blocks |
| `HeapPages.Page.InitSmallOrLarge` | src/kernel/mm/alloc/page.c:72-138 | the free list, read through the cookie, is a permutation of all blocks of the page |
| `HeapPages.Page.InitHuge` | src/kernel/mm/alloc/page.c:144-158 | the free list is the one block after the header |
| `HeapPages.Popped` | src/kernel/mm/alloc/page.h:154-167 | handing out the first free block keeps the partition, and the block was not handed out before |
| `HeapPages.PushedBack` | src/kernel/mm/alloc/page.c:289-309 | taking a block back keeps the partition |
| `HeapLists.UnlinkedOk` | src/kernel/mm/alloc/page.c:211-231 | a page that leaves its list is in no other |
| `HeapRings.PageRings.Link` | src/kernel/mm/alloc/page.c:134-135 | `list_push` on the links inside the page records: the rings hold the lists with the page at the end of one, and no other ring changes |
| `HeapRings.PageRings.Unlink` | src/kernel/mm/alloc/page.c:228-231 | `list_remove` on those links: the page leaves its list, and no other ring changes |
| `HeapRings.PageRings.First` | src/kernel/mm/alloc/heap.c:40-65 | the first page behind the head, null exactly for the empty list |
| `HeapRings.PageRings.Next` | src/kernel/mm/alloc.c:112-116 | the page after a page, null exactly at the end of the list |
| `HeapRings.PageRings.IsSole` | src/kernel/mm/alloc/page.c:221-222 | the test on `prev` and `next` holds if and only if the page is alone in its list |
| `HeapRings.PageRings.IsUnlinked` | src/kernel/mm/alloc/segment.c:103 | a page's link is an empty ring if and only if the page is in no list |
| `HeapLists.OneMoreUsed` | src/kernel/mm/alloc/page.c:12-35 | taking a page into use adds one to the pages in use of its segment |
| `Heap.Heap.UpdateDirect` | src/kernel/mm/alloc/heap.c:40-65 | exactly the entries of the class point to the first page of its list, which is a live page of the class |
| `Heap.Heap.OthersUnused` | src/kernel/mm/alloc/segment.c:95-111 | with one page in use all other pages of the segment are unused |
| `Heap.Heap.UnlinkAll` | src/kernel/mm/alloc/segment.c:98-111 | the check for exactly one unlinked page holds; the others leave the unused list |
| `Heap.Heap.SegmentFree` | src/kernel/mm/alloc/segment.c:95-111 | the segment and its pages are gone, everything else is as before |
| `Heap.Heap.PageFree` | src/kernel/mm/alloc/page.c:211-243 | an empty page stays exactly when `pages_direct` needs it and it is alone in its list; otherwise it leaves, exactly the entries of its class go to the first page left, and it becomes unused, or its segment and all pages of that go, exactly if no other page of the segment is in use |
| `Heap.Heap.Found` | src/kernel/mm/alloc/page.c:245-252 | every block of a page in use leads back to that page through the segment header |
| `Heap.Heap.Elsewhere` | src/kernel/mm/alloc.c:13-43 | a block that its page has not handed out is handed out by no page |
| `Heap.Heap.Free` | src/kernel/mm/alloc.c:13-43 | exactly the block is handed out no longer, and no other page is touched; a full page goes to the end of the list of its class, another one stays if blocks of it are in use, or if `pages_direct` needs it and has no other; any other page leaves its list and becomes unused if another page of its segment is in use, and otherwise exactly its segment and the pages of that are gone; all other lists, pages and segments are as before |
| `Heap.Heap.TryFirst` | src/kernel/mm/alloc.c:115-139 | one round of the search: a usable page is found, an empty one freed unless it has to stay, an exhausted one moved to the full list |
| `Heap.Heap.FindPage` | src/kernel/mm/alloc.c:110-141 | returns the first usable page with the blocks that it has to allocate, null exactly if there is none; the pages before it, or all but exactly when the search is stuck, are where a formula on the state before says: empty ones given up, the others in the full list, segments without a page in use gone |
| `Heap.Heap.UnusedIff` | src/kernel/mm/alloc.c:110-141 | so whether such a search leaves an unused page is told by the state before it |
| `Heap.Heap.PageNewSmall` | src/kernel/mm/alloc/page.c:160-172 | the first unused page becomes a page of the class; a new segment comes exactly if no page is unused and there is space; null, and a halt, exactly otherwise |
| `Heap.Heap.PageNewLarge` | src/kernel/mm/alloc/page.c:174-191 | a segment of its own, at the space found, for a large class |
| `Heap.Heap.PageNewHuge` | src/kernel/mm/alloc/page.c:193-209 | a segment of its own, at the space found and of the size needed, for a huge block |
| `Heap.Heap.AllocSmall` | src/kernel/mm/alloc.c:45-66 | one more block of the right size is handed out, or no block changes; the exact conditions for a halt and for null |
| `Heap.Heap.AllocGeneric` | src/kernel/mm/alloc.c:95-158 | halts exactly when the last page of the class is empty and no page before it is usable, for classes in `pages_direct`, or when a new segment is needed and the size is too large for a VMA or `segment_alloc` stops; null exactly when one is needed and there is no space; the block is the first of the first usable page, if there is one, and in a new segment exactly if one is needed |
| `Heap.Heap.Alloc` | src/kernel/include/mm/alloc.h:41-61 | hands out exactly one more block, which was not handed out before and is large enough, or changes no block; halts, and returns null, under exact conditions on the state before, the size and the answer of `segment_alloc`; with a free block in the page of `pages_direct` it is the first of these, and nothing else changes, and otherwise it is the first block of the first usable page or in a new segment, as the state before says; the heap invariant holds after every call |
| `Heap.Heap.Alignment` | src/kernel/include/mm/alloc.h:35-38 | every block handed out is aligned to the least power of two not below the size that was asked for, up to 64 |
| `Heap.BoundIs` | src/kernel/mm/alloc/page.c:193-197 | of all 64-bit sizes, wrap-around included, exactly those up to 2^38 bytes with the header pass the assertions on the size of a segment |
| `Heap.SegmentAlloc` | src/kernel/mm/alloc/segment.c:17-25 | stops exactly for the other sizes, before it looks for space |
| `HeapSegments.FreePagesHaveRoom` | src/kernel/mm/alloc/segment.c:17-32 | aligned pages that were free in the allocator of addresses overlap no segment of the heap, and are its tile once they are taken |
| `HeapSegments.FindSpace` | src/kernel/mm/alloc/segment.c:17-52 | there is no space left exactly where the aligned allocation finds none; it stops exactly for want of metadata or frames, or with a padded size over the bound; what is found is room for a segment, exactly its pages are taken, and segments stay used VMAs; with everything granted and enough free pages in a row, space is found |
| `HeapSegments.GiveSpaceBack` | src/kernel/mm/alloc/segment.c:113-135 | the search finds the VMA of the segment, with exactly its bounds; freeing it takes exactly its tile from the used ones and makes exactly its pages free, and every other segment stays a used VMA |
| `HeapSegments.SpaceRestored` | src/kernel/mm/alloc/segment.c:113-135 | taking space for a segment and giving it back restores the list of VMAs |
| `HeapSegments.StillBacked` | src/kernel/mm/alloc/segment.c:113-135 | when a segment and its VMA go, the other segments keep theirs |
| `Heap.Heap.PageAsserts` | src/kernel/mm/alloc/block.c:11-44 | in every valid heap the assertions on blocks, references and the index of a page hold for every page in use |
| `Heap.Heap.LiveBlock` | src/kernel/include/mm/alloc.h:32-40 | in every valid heap a block handed out lies in its segment, is aligned to its size, and leads back to its page |
| `Heap.Heap.NoOverlap` | src/kernel/include/mm/alloc.h:32-40 | in every valid heap no two blocks handed out overlap, small, large or huge |
| `Heap.InitHeap` | src/kernel/mm/alloc/heap.c:10-38 | all assertions of the initialisation hold; every entry of `pages_direct` is set, to the one page of its class |
| `HeapStuck.EmptiedIsStuck` | src/kernel/mm/alloc.c:119-146 | a sole page of a class in `pages_direct`, with nothing handed out, leaves the search stuck |
| `HeapStuck.DrainAndFree` | src/kernel/mm/alloc.c:119-146 | for every size up to 1024, from a new heap: allocating all blocks of the page, freeing them and allocating again fails the assertion |
| `Words.RotateBack` | src/kernel/crypto/subtle/rfc7539.c:13-23 | rotating one way and the other gives the word back |
| `Words.RotateMovesBits` | src/kernel/crypto/subtle/rfc7693.c:49-59 | a rotation to the right by n moves bit k + n, counted around the word, to place k |
| `BitWords.Sum32` | src/kernel/crypto/subtle/rfc7693.c:49-59 | on the values of machine words, addition modulo 2^32 is that of the machine |
| `BitWords.Sum64` | src/kernel/crypto/subtle/rfc7693.c:197-207 | and so modulo 2^64 |
| `BitWords.Xor64` | src/kernel/crypto/subtle/rfc7693.c:197-207 | exclusive or is that of the machine |
| `Rotations.Rotate32By7` | src/kernel/crypto/subtle/rfc7693.c:58 | rotation is that of the machine; the other numbers of bits have lemmas of their own |
| `Words.XorBytes` | src/kernel/crypto/subtle/rfc7539.c:92-94 | exclusive or of words is exclusive or of their bytes |
| `Words.BytesBack` | src/kernel/crypto/subtle/rfc7693.c:134-137 | bytes read as a little-endian word and written again are the same bytes |
| `BlockHash.AbsorbedPrefix` | src/kernel/crypto/subtle/rfc7693.c:127-155 | more input does not change what the full blocks before it gave |
| `BlockHash.HeldIs` | src/kernel/crypto/subtle/rfc7693.c:131-146 | a full block is held back until more input comes |
| `Blake2.MixQuarterRound` | src/kernel/crypto/subtle/rfc7693.c:49-59 | in place, the function G of section 3.1 of RFC 7693; lines 197-207 are the same for 64 bits |
| `Blake2.MixDoubleRound` | src/kernel/crypto/subtle/rfc7693.c:65-76 | in place, one round of section 3.2 of RFC 7693 |
| `Blake2.CompressInPlace` | src/kernel/crypto/subtle/rfc7693.c:78-100 | in place, the function F of section 3.2 of RFC 7693, the counter in two halves; lines 222-244 are the same for 64 bits |
| `Blake2.FFits` | src/kernel/crypto/subtle/rfc7693.c:78-100 | chaining values stay words of 32 or 64 bits |
| `Blake2.ConstantsFit` | src/kernel/crypto/subtle/rfc7693.c:31-38 | the initial vectors of both variants are eight words of their width, so this holds for both |
| `Blake2.IvIsRoots` | src/kernel/crypto/subtle/rfc7693.c:31-38 | the initial vectors are the first 64 and 32 bits of the fractional parts of the square roots of the first eight primes |
| `Blake2.RowsArePermutations` | src/kernel/crypto/subtle/rfc7693.c:17-29 | every row of the schedule takes every word of a block |
| `Blake2.ColumnsIs` | src/kernel/crypto/subtle/rfc7693.c:65-76 | the four columns of a round do not touch each other; `DiagonalsIs` for the diagonals |
| `Blake2sVectors.GIs` | src/kernel/crypto/subtle/rfc7693.c:49-59 | the function G, on machine words, is what the processor computes |
| `Blake2sVectors.AllRounds` | src/kernel/crypto/subtle/rfc7693.c:323-334 | the rounds on "abc", on the states that Appendix B of RFC 7693 prints |
| `Blake2sVectors.HashOfAbc` | src/kernel/crypto/subtle/rfc7693.c:323-334 | the BLAKE2s hash of "abc" of Appendix B |
| `Blake2bVectors.AllRounds` | src/kernel/crypto/subtle/rfc7693.c:306-321 | the rounds on "abc" of Appendix A |
| `Blake2bVectors.HashOfAbc` | src/kernel/crypto/subtle/rfc7693.c:306-321 | the BLAKE2b hash of "abc" of Appendix A |
| `Blake2Streaming.Hasher.constructor` | src/kernel/crypto/subtle/rfc7693.c:102-125 | the state after the key block alone, held back; the assertions hold |
| `Blake2Streaming.Hasher.Update` | src/kernel/crypto/subtle/rfc7693.c:127-155 | the input grows by the data, and state, buffer and counter are again the function of the whole input that the invariant states |
| `Blake2Streaming.Hasher.Determined` | src/kernel/crypto/subtle/rfc7693.c:127-155 | two hashers that have had the same bytes in whatever pieces hold the same state; counter and buffer together count the input |
| `Blake2Streaming.Hasher.Finish` | src/kernel/crypto/subtle/rfc7693.c:157-187 | the digest of section 3.3 of RFC 7693 of everything that went in |
| `Blake2Streaming.HashAll` | src/kernel/crypto/subtle/rfc7693.c:189-195 | the hash of section 3.3 of RFC 7693, keyed, unkeyed and empty inputs included |
| `Blake2OneShot.HashAll` | src/kernel/crypto/subtle/rfc7693.c:246-303 | the one-shot loop meets the same specification for BLAKE2b |
| `Blake2OneShot.OneBlock` | src/kernel/crypto/subtle/rfc7693.c:276-291 | what one block, the last or another, does to the state |
| `ChaCha20.QuarterUndone` | src/kernel/crypto/subtle/rfc7539.c:13-23 | the quarter round has an inverse on one side |
| `ChaCha20.QuarterDone` | src/kernel/crypto/subtle/rfc7539.c:13-23 | and on the other: it is a bijection |
| `ChaCha20.RoundsUndone` | src/kernel/crypto/subtle/rfc7539.c:25-34 | so the double rounds are a bijection on states |
| `ChaCha20.RoundsDone` | src/kernel/crypto/subtle/rfc7539.c:25-34 | in both directions |
| `ChaChaVectors.QuarterIs` | src/kernel/crypto/subtle/rfc7539.c:13-23 | the quarter round, on machine words, is what the processor computes |
| `ChaChaVectors.QuarterExample` | src/kernel/crypto/subtle/rfc7539.c:102-110 | the example of section 2.1.1 of RFC 7539 |
| `ChaChaVectors.BlockExample` | src/kernel/crypto/subtle/rfc7539.c:138-185 | the example of section 2.3.2: key, nonce and counter in place, ten double rounds, and the bytes of the block |
| `ChaCha20.QuarterRound` | src/kernel/crypto/subtle/rfc7539.c:13-23 | in place, the quarter round of section 2.1 of RFC 7539 |
| `ChaCha20.StateInit` | src/kernel/crypto/subtle/rfc7539.c:36-49 | in place, constants, key, counter and nonce of section 2.3 of RFC 7539 |
| `ChaCha20.BlockInPlace` | src/kernel/crypto/subtle/rfc7539.c:51-58 | in place, the block function of section 2.3 of RFC 7539 |
| `ChaCha20.KeyStream` | src/kernel/crypto/subtle/rfc7539.c:60-77 | writes the key stream of section 2.4 of RFC 7539 for every length, the counter wrapping at 2^32 |
| `ChaCha20.Encrypt` | src/kernel/crypto/subtle/rfc7539.c:79-100 | turns the buffer into its exclusive or with the key stream, for every length |
| `ChaCha20.EncryptedIsXor` | src/kernel/crypto/subtle/rfc7539.c:79-100 | encryption is exclusive or with what the key stream function writes |
| `ChaCha20.EncryptTwice` | src/kernel/crypto/subtle/rfc7539.c:79-100 | encryption is its own inverse |
| `ChaCha20.EncryptInParts` | src/kernel/crypto/subtle/rfc7539.c:79-100 | data can be split at any multiple of 64 bytes, with the counter advanced modulo 2^32 |
| `FdtTokens.RunDoc` | src/kernel/devicetree.c:72-184 | the tokens of a node, in any state that may take one, add that node and nothing else |
| `FdtTokens.RunWithoutNops` | src/kernel/devicetree.c:172-174 | `FDT_NOP` tokens before `FDT_END` change nothing |
| `FdtTokens.ParsedBack` | src/kernel/devicetree.c:63-211 | every document's tokens, with `FDT_NOP` anywhere before `FDT_END`, give that document, order kept |
| `FdtTokens.OnlyTrees` | src/kernel/devicetree.c:63-211 | a tree comes out only of its own tokens, balanced, with `FDT_END` last |
| `FdtTokens.ParsesIff` | src/kernel/devicetree.c:63-211 | both directions: the token sequences accepted are exactly those of documents |
| `FdtTokens.NestedFailureHalts` | src/kernel/devicetree.c:208-210 | for every sequence of tokens the parser panics if and only if the first token out of place, or the end of the block, comes with two nodes open or more |
| `FdtTokens.NestedFailure` | src/kernel/devicetree.c:208-210 | a block that ends in a nested node panics, one that ends in the root returns no tree |
| `FdtNodes.Places` | src/kernel/devicetree.c:72-184 | the places of the properties, or of the begins of nodes, at one depth: all of them, in order |
| `FdtNodes.TreeIsSpelled` | src/kernel/devicetree.c:72-184 | a tree that comes out is spelled by its tokens: the name of each node is in its begin token, its properties are the property tokens at its own depth, in order, and its children the nodes one level below, in order |
| `FdtNodes.OneTree` | src/kernel/devicetree.c:63-211 | tokens spell one tree at most |
| `FdtNodes.ParsesNodeIff` | src/kernel/devicetree.c:63-211 | the parser returns a node if and only if the tokens spell it, with `FDT_NOP` around it and `FDT_END` last |
| `FdtParser.TokenRead` | src/kernel/devicetree.c:72-184 | the bytes of a token, padding and name offset included, are read back as that token |
| `FdtParser.LexedRun` | src/kernel/devicetree.c:63-211 | where the bytes read as tokens the parser does what the machine does on the tokens |
| `FdtParser.ParsesBytesIff` | src/kernel/devicetree.c:63-211 | for every memory content: a document comes out if and only if the bytes read as tokens to the end of the block, all allocations succeed, and the tokens are the document's own, balanced, with `FDT_END` last |
| `FdtParser.ParsedNodeIff` | src/kernel/devicetree.c:63-211 | for every memory content: the node returned is the one that the tokens spell, by their places and nothing else |
| `FdtParser.HaltsIff` | src/kernel/devicetree.c:63-211 | for every memory content the parser panics exactly at bytes it cannot read and at failures, of an allocation too, with two nodes open or more |
| `FdtParser.BlockParsedBack` | src/kernel/devicetree.c:63-211 | the bytes of tokens, as section 5.4 of the Devicetree Specification lays them out, parse to a document if and only if the tokens are that document's, with `FDT_NOP` anywhere before `FDT_END` |
| `FdtParser.Parse` | src/kernel/devicetree.c:63-211 | the loop, with its flags and open nodes, for every memory content and every pattern of failing allocations: it returns a node if and only if the bytes read as tokens to the end of the block, all allocations succeed and the tokens are those of that node, and panics exactly where `HaltsFrom` says |
| `TreeWalks.PrintDevices` | src/kernel/device.c:22-53 | visits every device once, in pre-order, with its true depth; the assertions on the depth hold |
| `TreeWalks.Enumerate` | src/kernel/devicetree.c:747-782 | visits every node but the root exactly once, children before parents, and ends |
| `TreeWalks.Free` | src/kernel/devicetree.c:461-489 | releases every node exactly once, children before parents, and exactly the properties of all nodes, in order; a released node or property may hold anything from then on, and no step is taken on one |
| `TreeWalks.Detach` | src/kernel/devicetree.c:472-477 | the release of a first child leaves the links of all other nodes as the walk needs them |
| `TreeWalks.OneVisit` | src/kernel/devicetree.c:461-489 | a visit is to a node not visited before, after all its children |
| `TreeWalks.AddDevice` | src/kernel/device.c:10-20 | a device that is added comes last among its parent's children; every tree that is built is one the walks are right on |
| `TreeWalks.GrownOk` | src/kernel/device.c:10-20 | the tree with one more node is a tree |
| `NumberFormat.DigitsValue` | src/kernel/print.c:134-137 | the digits read back to the number |
| `NumberFormat.DigitsFit` | src/kernel/print.c:128-138 | a number of so many bits has at most as many digits |
| `NumberFormat.SignedMagnitude` | src/kernel/print.c:112-115 | for every 64-bit signed number, the least one included, the digits are those of its absolute value |
| `NumberFormat.FillDigits` | src/kernel/print.c:128-138 | never needs more than the 64 places of the buffer, which holds the numeral backwards |
| `NumberFormat.ParseArguments` | src/kernel/print.c:75-107 | fails if and only if there is an unknown character, and then reports what follows the first; otherwise the last of `b`, `o` and `x` gives the base, the last number the padding modulo 2^64, and a run of digits that begins with 0 the zero padding |
| `NumberFormat.ShownBack` | src/kernel/print.c:75-107 | every combination of flags has an argument string that reads back to it |
| `NumberFormat.OutputIs` | src/kernel/print.c:140-182 | the length is the larger of the padding and the sum of the parts, and the end is in digits of the base, without a leading zero, and reads back to the number |
| `NumberFormat.PartsAre` | src/kernel/print.c:140-182 | where prefix, padding and digits are, on the sides that the flags choose, and of what character the padding is |
| `NumberFormat.PrefixIs` | src/kernel/print.c:140-182 | a minus exactly for a sign, then `0b`, `0o` or `0x` exactly for its base, if asked for |
| `NumberFormat.FormatNumber` | src/kernel/print.c:72-183 | writes exactly that output for every argument string, sign and number, or the error text |

## Left out

- VirtualAlloc.PutIn: the two treaps of the allocator are only given draws whose low 31 bits are not all zero; with the one other draw `Treaps.Treap.Insert` leaves a VMA that counts as not being in the treap.
- VirtualAlloc.VmaAllocator.Alloc: whether metadata can be had is a parameter; the recursion into the heap is not modelled. The modelled allocation of metadata by `vma_alloc` halts as the source's `TODO` does.
- VirtualAlloc.VmaAllocator.Free: takes the VMA's number in the list as a ghost argument; `vma_free` of a null pointer does nothing and is not modelled.
- VirtualAlloc.InitAllocator: addresses are natural numbers; the assertion that the range lies in one half of the address space is not used.
- Reservations.ConsiderMemory: requires that the loop ends and that the pages of the region are memory; the chunks are collected first and added in order afterwards. What the lists hold after a chunk at frame 0 or one that ends at 4 GiB is said by `AddChunk` alone.
- PhysicalAlloc.Allocator.AddChunk: printing is left out; addresses are below 2^56 so that `paddr_offset` does not panic.
- Paging.PageTables.Walk: requires a page outside superpages, where it agrees with the hardware, and Sv39 mode; so do `Map` and `Unmap`. Access and dirty bits, privilege and alignment checks of the hardware's walk are left out.
- Heap.Heap.Alloc: one hart, an empty list of delayed frees. How `segment_alloc` ends once it looks for space is a parameter (`Space`), which is consulted where the source calls it; the frames that it maps are not modelled.
- Heap.Heap.Free: which page comes where in the list of unused pages is not said, only which pages are in it.
- Heap.Heap.SegmentFree: ends before the VMA is given back, which `HeapSegments.GiveSpaceBack` does; that the segment's memory is unmapped and its frames are freed is not modelled.
- Heap.Heap: runs on page lists that are sequences and asks `loc` in which list a page is; `HeapRings` proves of the source's rings that they take every one of these steps and answer every one of these questions in the same way, but the two classes are not put together.
- HeapPages.Page: of a block only its first word is modelled, and clearing the rest is not.
- FdtParser.Parse: works on values; the open nodes are a sequence in place of parent links, the allocations for one token succeed or fail together, and memory ends at a panic.
- TreeWalks.TreeNode: lists of children have forward links and a tail, null stands for the list head, and the properties are a sequence of objects. What `devicetree_enumerate` does at a node, and the closing lines of `print_devices`, are left out.
- NumberFormat.FormatNumber: the end of the arguments ends a number too; in the source the byte after them does.
- Blake2Streaming.Hasher.Update: requires fewer than 2^64 bytes in all, beyond which the source's assertion on the counter fails.
- Clearing of secrets, entropy and `random.c`.
- `realloc`, `iomem_map`, `iomem_unmap`, `mm_init_physical`, `reserved_memory_to_array`, `devicetree_add_reservation`: glue around the modelled functions.
- Remote frees and the atomics on `page->remote`: the source's remote path is a `TODO`.
- Drivers, SBI calls, assembly, linker scripts and build files.
- The remaining formatters of `print.c`, `symbolicate.c`, `init.c`, the builtins and the SWAR helpers.
