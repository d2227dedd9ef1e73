# WaddleOS memory and data structures

This project models the parts of the WaddleOS kernel that manage memory, in the form the C code has, and proves what
they promise.

- **The heap allocator** (`kernel/mem/wdmalloc.c`): a best-fit, boundary-tag allocator over one byte region.
  `HeapLayout` says what the allocator does to blocks and freelist; `Wdmalloc` is the code itself, a class that loads and
  stores the little-endian fields of 12-byte headers in a byte array, and every method of it is proved to refine its
  layout operation. `HeapSafety`, `HeapTheorems`, `HeapMerging`, `HeapOutcomes` and `HeapRuns` prove properties of
  layouts, of each call's outcome and of whole runs; `HeapContents` and `HeapClient` carry them back to the bytes that clients own. `Bytes`, `HeapMemory` and
  `HeapHeaders` connect bytes, header fields and layouts.
- **`memmove` and `memcmp`** (`lib/string.c`): module `CString`.
- **Bitmaps** (`kernel/drivers/bitmap.c`): `Words` has the 64-bit operators, `Bitmaps` the class over memory bits, in
  which neighbouring bitmaps may share a word.
- **The page allocator and the page tables** (`kernel/mem/paging.c`, `kernel/mem/paging.h`): `PagePool` has runs of page
  requests, `Pools` the pools and where their bitmaps lie, `PageTree` the tree of tables and the processor's walk, `Paging` the
  kernel's code, `Addresses` its address arithmetic.
- **Circular lists** (`kernel/sched/list.c`): `Lists` has the pointer surgery, `ListWorld` any number of lists over one
  stock of elements.

Addresses are numbers and 0 is NULL. A failed `ASSERT` halts the kernel, so assertions are preconditions.
`0xDEADBEEFBABECAFE` marks used headers. A heap *layout* is *sound* when its blocks tile the region, every header names the
true size of the block before it, and the freelist holds exactly the free blocks, each once. A heap object is *valid* when
its bytes hold the headers of a sound layout, with the links of the freelist in the free ones and the magic word in the used
ones.

## What the proofs found

- A heap needs 15 bits for its sizes, so it works for 13 to 32779 bytes. The kernel sets up 40960: the first header then reads
  as allocated and every allocation fails (`HeapClient.FirstMalloc`).
- `wdfree` and `wdrealloc` return early when the freelist is empty, so a heap that has ever been full stays full for good
  (`HeapRuns.EmptyFreelistIsForever`). One allocation is enough to fill a fresh heap (`HeapRuns.FullHeapExample`).
- `wdmalloc(0)` may carve a block whose payload starts at the very end of the heap, and does so on every fresh heap
  (`HeapMerging.UnfreeableExample`). `wdfree` can never free that pointer (`HeapMerging.FreeMallocSplit`,
  `HeapTheorems.FreeUsed`).
- A `wdrealloc` that moves a block leaks the old one exactly when the only free block takes the new one whole or the old pointer
  is the end of the heap (`HeapContents.LeaksIs`, with an example in `HeapContents.LeakExample`).
- A growing `wdrealloc` leaves two free neighbours exactly when it takes the previous block alone although the next one is free,
  and splits (`HeapMerging.GrowNoFreePair`, with an example in `HeapMerging.StrandedExample`). All other calls keep free blocks
  apart.
- `memmove` copies forward only. That is right exactly when the target does not start inside the source
  (`CString.ForwardCopyIsMemmove`); `wdrealloc` never asks for more (`Wdmalloc.Heap.Move`).
- `bitmap_set` shifts an `int`, so setting a bit is only certain for bits 0 to 30 of a word (`Bitmaps.SetExact`).
  `bitmap_init_buf` clears every bit only when the bit count is a multiple of 8 (`Bitmaps.InitClearsAll`).
- `k_ptov` wraps around for physical memory beyond 2 GiB, so the loop of `page_tables_init` maps that memory at the bottom of the
  address space (`Paging.VpnOfPage`, `Paging.Kernel.InitTables`).
- `pde_init` does not look at the page it is given: when the pool is exhausted it links the frame at 2 GiB and returns a NULL
  table, after which no set of tables from the pool fits the memory as a tree (`Paging.NullEntry`, with an example in
  `Paging.ExhaustedExample`). Building the tables works out exactly when the pool has enough pages left
  (`Paging.Kernel.InitTables`).
- `paging_init` puts the user pool's bitmaps on kernel pages of which only those under the kernel's own bitmaps are marked as
  taken. Zeroing a page wipes the bits on it, so the user pool loses bits as soon as the kernel asks for its first page, exactly
  when its bitmap does not fit behind the kernel's on the marked pages (`Pools.UserBitmapsSheltered`, `Pools.FirstPageWipes`);
  that is so with 32768 pages in the pools (`Pools.WipedExample`). Where no free page holds bitmap bits, the pools do not disturb
  each other (`Pools.GetPages`, `Pools.Serve`).
- `list_push` onto an empty list does not ask whether the element is on another list, unlike onto a non-empty one. The lists stay
  sound exactly when the element was detached (`ListWorld.Perform`, with an example in `ListWorld.StolenExample`).

## Model

| member | source | states |
|---|---|---|
| `Bytes.LoadStored` | kernel/mem/wdmalloc.c:17-24 | A load of a header field returns the value last stored there. |
| `HeapMemory.FieldWritten` | kernel/mem/wdmalloc.c:17-24 | Storing one field of the packed header changes that field and leaves the other two. |
| `HeapMemory.HeaderWritten` | kernel/mem/wdmalloc.c:17-24 | Storing one field of one header leaves every other header in memory as it was. |
| `HeapMemory.HeaderFields` | kernel/mem/wdmalloc.c:16-24 | The two sizes are the first two byte pairs of the packed header, low byte first, and the link or magic word the next eight bytes. |
| `CString.MemMove` | lib/string.c:9-21 | What the forward copy leaves in memory, for every overlap: a target above the source repeats a pattern. |
| `CString.ForwardCopyCorrect` | lib/string.c:9-21 | Without such an overlap the forward copy is a copy through a temporary. |
| `CString.ForwardCopyWrong` | lib/string.c:9-21 | For every other overlap there is a memory on which it is not. |
| `CString.ForwardCopyIsMemmove` | lib/string.c:9-21 | The forward copy is a `memmove` on all memories if and only if the target does not start inside the source. |
| `CString.MemCmp` | lib/string.c:23-44 | For every word size, comparing word by word gives the result of comparing byte by byte and reads nothing past the `n` bytes. |
| `CString.FirstDifferenceMeans` | lib/string.c:23-44 | That result is 0 exactly when all bytes agree, otherwise the difference at the first differing byte. |
| `HeapSafety.InitialSound` | kernel/mem/wdmalloc.c:35-46 | A heap of 13 to 32779 bytes starts sound and without free neighbours. |
| `HeapSafety.MallocSound` | kernel/mem/wdmalloc.c:48-104 | `wdmalloc` keeps every sound layout sound, for every size, and changes nothing when it returns NULL. |
| `HeapSafety.MallocUsed` | kernel/mem/wdmalloc.c:72-103 | The live blocks after `wdmalloc` are those before, with their sizes, and the new one, which has `n` to `n + 11` bytes. |
| `HeapSafety.CoalesceSound` | kernel/mem/wdmalloc.c:113-183 | `coalesce`, in all four cases, turns a layout with one unlisted free block into a sound one. |
| `HeapSafety.FreeSound` | kernel/mem/wdmalloc.c:317-331 | `wdfree` keeps the layout sound, for live pointers and for pointers outside the heap. |
| `HeapSafety.GatherSound` | kernel/mem/wdmalloc.c:206-250 | The two or three neighbours that a growing `wdrealloc` chooses become one block that covers the old one; tiling, back tags and the rest of the freelist stay right. |
| `HeapSafety.ChooseIs` | kernel/mem/wdmalloc.c:206-234 | The scenarios of a growing `wdrealloc` in terms of the neighbours: the next block if both hold `n` bytes, else the previous one, else both, else none. |
| `HeapSafety.SettleSound` | kernel/mem/wdmalloc.c:252-278 | Placing the grown block, with or without splitting off the surplus, makes the layout sound again. |
| `HeapSafety.ShrinkSound` | kernel/mem/wdmalloc.c:288-311 | A shrinking `wdrealloc` keeps the layout sound. |
| `HeapSafety.GrowNull` | kernel/mem/wdmalloc.c:279-287 | A growing `wdrealloc` that returns NULL has changed no block. |
| `HeapSafety.ReallocSound` | kernel/mem/wdmalloc.c:185-315 | `wdrealloc` keeps every sound layout sound, for NULL and every live pointer, in all scenarios. |
| `Wdmalloc.Heap.Init` | kernel/mem/wdmalloc.c:35-46 | `wdmalloc_init` makes a valid heap of one free block up to 32779 bytes; beyond, the first header reads as allocated. It writes nothing but that header. |
| `Wdmalloc.Heap.HeaderBytes` | kernel/mem/wdmalloc.c:8-24 | In a valid heap the bytes of every header are the size before, the size with bit 15 set if used, and the eight bytes of 0xDEADBEEFBABECAFE if used or the address of the next listed block if free. |
| `Wdmalloc.Heap.Search` | kernel/mem/wdmalloc.c:51-66 | The search loop over the links finds the best fit of the listed blocks, with its predecessor. |
| `Wdmalloc.Heap.Malloc` | kernel/mem/wdmalloc.c:48-104 | In every state, also before `wdmalloc_init` and on an oversize heap, where it returns NULL: the byte-level `wdmalloc` refines the layout operation, keeps the heap valid, changes no byte of a live payload or outside the heap, and no byte at all when it returns NULL. |
| `Wdmalloc.Heap.Find` | kernel/mem/wdmalloc.c:131-138 | The linear search finds the listed neighbour and its predecessor, so its assertion never fails. |
| `Wdmalloc.Heap.Coalesce` | kernel/mem/wdmalloc.c:113-183 | The header writes of all four merge cases produce the headers and links of the merged layout. |
| `Wdmalloc.Heap.Free` | kernel/mem/wdmalloc.c:317-331 | The byte-level `wdfree` refines the layout operation, keeps the heap valid and every live payload unchanged; before `wdmalloc_init` and on an oversize heap it does nothing. |
| `Wdmalloc.Heap.Drop` | kernel/mem/wdmalloc.c:236-250 | One pass over the links removes both chosen blocks, wherever they are, and keeps the order of the others. |
| `Wdmalloc.Heap.Move` | kernel/mem/wdmalloc.c:258-283 | Every payload move is one that the forward-only `memmove` does right. |
| `Wdmalloc.Heap.ChooseRoom` | kernel/mem/wdmalloc.c:193-234 | Reading the tags, the code picks the scenario that the layout calls for. |
| `Wdmalloc.Heap.GrowHere` | kernel/mem/wdmalloc.c:236-278 | Growing in place leaves a valid heap, the old bytes at the start of the new payload and every other live payload unchanged. |
| `Wdmalloc.Heap.GrowElsewhere` | kernel/mem/wdmalloc.c:279-287 | The same for a block that moves; NULL leaves all bytes as they were. |
| `Wdmalloc.Heap.ReallocShrink` | kernel/mem/wdmalloc.c:288-311 | Shrinking keeps the remaining bytes in place, every other payload unchanged and the heap valid. |
| `Wdmalloc.Heap.Realloc` | kernel/mem/wdmalloc.c:185-315 | The byte-level `wdrealloc` refines the layout operation; the returned block starts with the old bytes; other live payloads do not change; a NULL for a non-zero size leaves memory unchanged. Before `wdmalloc_init` and on an oversize heap it returns NULL. |
| `HeapTheorems.Tiles` | kernel/mem/wdmalloc.c:35-331 | In a sound heap every byte of the region, and no other, lies in exactly one block. |
| `HeapTheorems.LivePayloads` | kernel/mem/wdmalloc.c:35-331 | Live payloads lie in the heap and are pairwise disjoint, header included. |
| `HeapTheorems.BestFitIs` | kernel/mem/wdmalloc.c:57-66 | The search yields the smallest adequate block, the earliest listed among equals, or none if none is adequate. |
| `HeapTheorems.MallocFails` | kernel/mem/wdmalloc.c:68-69 | `wdmalloc` returns NULL if and only if no free block of the heap holds `n` bytes. |
| `HeapTheorems.MallocBest` | kernel/mem/wdmalloc.c:57-104 | Otherwise it hands out the end of the best fit, as a new pointer with `n` to `n + 11` bytes. |
| `HeapTheorems.CoalesceUsed` | kernel/mem/wdmalloc.c:113-183 | `coalesce` leaves every live block live, with its size. |
| `HeapTheorems.FreeUsed` | kernel/mem/wdmalloc.c:317-331 | `wdfree` ends the life of its block and of no other; it does nothing exactly when the freelist is empty or the pointer is the heap's end. |
| `HeapTheorems.ShrinkUsed` | kernel/mem/wdmalloc.c:288-311 | Shrinking keeps the set of live blocks and all other sizes, and leaves room for `n`. |
| `HeapTheorems.GrowHereUsed` | kernel/mem/wdmalloc.c:206-278 | Growing in place replaces the block by one with room for `n` and keeps all others. |
| `HeapTheorems.GrowElsewhereUsed` | kernel/mem/wdmalloc.c:279-287 | Moving adds a block with room for `n`; the old one goes unless `wdfree` ignores it. |
| `HeapOutcomes.MallocOutcome` | kernel/mem/wdmalloc.c:72-103 | Of the best fit exactly the last `n` bytes are handed out if 12 more are there, and the freelist stays; otherwise all of it, and its entry is dropped from the list. |
| `HeapOutcomes.FreeOutcome` | kernel/mem/wdmalloc.c:113-183 | The freed block and its free neighbours become one block. By index of the freelist: it takes the place of a free next block, is covered by a free previous block, drops the next one's entry if both are free, and goes to the front if neither is. |
| `HeapOutcomes.ShrinkOutcome` | kernel/mem/wdmalloc.c:288-311 | A shrinking `wdrealloc` returns the same pointer; with at least 16 bytes left over the block has exactly `n`, and the rest is a free block that merges with a free next one and takes its place on the list, or goes to the front; otherwise nothing changes. |
| `HeapOutcomes.GrowOutcome` | kernel/mem/wdmalloc.c:193-287 | A growing `wdrealloc` returns the same pointer if the next block gives room, else that of the previous block if it does, alone or with the next; the size is exactly `n` if 16 bytes are left over, which go to the front of the list, else all the bytes; the used neighbours leave the list, which keeps its order. Without room it returns what `wdmalloc` does. |
| `HeapOutcomes.WithoutDrops` | kernel/mem/wdmalloc.c:236-250 | The pass over the freelist drops exactly the chosen blocks and keeps the order of the others. |
| `HeapOutcomes.ReallocElse` | kernel/mem/wdmalloc.c:185-292 | With an empty freelist `wdrealloc` does nothing; to 0 bytes it is `wdfree`. |
| `HeapContents.MallocContents` | kernel/mem/wdmalloc.c:48-104 | As a map from live blocks to bytes: `wdmalloc` adds one entry and changes none, or returns NULL and changes nothing. |
| `HeapContents.FreeContents` | kernel/mem/wdmalloc.c:317-331 | `wdfree` removes exactly its entry, if it takes effect. |
| `HeapContents.LeaksIs` | kernel/mem/wdmalloc.c:279-287 | The old block outlives a move if and only if, before the call, no neighbour has room, another free block does, and that is the only one and too small to split, or the old pointer is the heap's end. |
| `HeapContents.LeakExample` | kernel/mem/wdmalloc.c:279-287 | A sound heap on which a call leaks. |
| `HeapClient.LeakReached` | kernel/mem/wdmalloc.c:48-331 | Four calls lead from a fresh heap to that one. |
| `HeapContents.ReallocFailsIs` | kernel/mem/wdmalloc.c:185-315 | `wdrealloc` of a live pointer returns NULL if and only if the freelist is empty, or it frees a block that has bytes, or the block has to grow and neither its neighbours nor any free block have room. |
| `HeapContents.ReallocUsed` | kernel/mem/wdmalloc.c:185-315 | Which blocks are live, with which sizes, after any `wdrealloc` that returns a pointer. |
| `HeapContents.ReallocContents` | kernel/mem/wdmalloc.c:185-315 | `wdrealloc` trades its entry for the one it returns and changes no other; the old entry stays exactly when it leaks. |
| `HeapContents.ReallocStarts` | kernel/mem/wdmalloc.c:252-287 | The new entry has `n` to `n + 15` bytes and starts with the old ones, as many as fit `n`. |
| `HeapContents.ReallocZero` | kernel/mem/wdmalloc.c:288-292 | `wdrealloc` to 0 that returns NULL removes exactly its entry. |
| `HeapContents.Allocate` | kernel/mem/wdmalloc.c:48-104 | The same about the bytes in memory, for the code of `wdmalloc`, with the exact condition for NULL. |
| `HeapContents.Release` | kernel/mem/wdmalloc.c:317-331 | The same for the code of `wdfree`. |
| `HeapContents.Resize` | kernel/mem/wdmalloc.c:185-315 | The same for the code of `wdrealloc`, in all its cases, NULL pointer included, with the exact condition for NULL. |
| `HeapContents.StoreByte` | kernel/mem/wdmalloc.c:16-24 | A client that stores a byte through a live pointer changes that byte of its entry, and neither a header nor another entry. |
| `HeapMerging.CoalesceAt` | kernel/mem/wdmalloc.c:126-182 | `coalesce` replaces the adjacent free blocks by one that covers them and leaves every other block. |
| `HeapMerging.CoalesceNoFreePair` | kernel/mem/wdmalloc.c:126-182 | If free neighbours occur only around the block, none are left. |
| `HeapMerging.MallocNoFreePair` | kernel/mem/wdmalloc.c:72-103 | `wdmalloc` keeps free blocks apart. |
| `HeapMerging.FreeNoFreePair` | kernel/mem/wdmalloc.c:317-331 | `wdfree` keeps free blocks apart. |
| `HeapMerging.ShrinkNoFreePair` | kernel/mem/wdmalloc.c:288-311 | A shrinking `wdrealloc` keeps free blocks apart. |
| `HeapMerging.GrowNoFreePair` | kernel/mem/wdmalloc.c:206-287 | A growing `wdrealloc` keeps free blocks apart if and only if it does not take the previous block alone, with the next one free, and split. |
| `HeapMerging.StrandedExample` | kernel/mem/wdmalloc.c:215-221 | A sound heap on which such a call leaves two free neighbours. |
| `HeapRuns.StrandedReached` | kernel/mem/wdmalloc.c:48-331 | Four calls lead from a fresh heap to that one. |
| `HeapMerging.AllFreed` | kernel/mem/wdmalloc.c:113-183 | A sound heap with nothing live and no free neighbours is the one free block it started as. |
| `HeapMerging.FreeMallocSplit` | kernel/mem/wdmalloc.c:72-89 | Freeing what `wdmalloc` split off restores blocks and freelist order exactly, unless 0 bytes were asked for and the block split is the last of the heap; then it changes nothing. |
| `HeapMerging.FreeMallocWhole` | kernel/mem/wdmalloc.c:90-103 | Freeing a block taken whole restores the blocks and moves this one to the front of the freelist, unless it was the only free block or is an empty one at the heap's end; then it changes nothing. |
| `HeapMerging.UnfreeableExample` | kernel/mem/wdmalloc.c:72-89 | On every fresh heap of at least 24 bytes `wdmalloc(0)` returns the heap's end, and freeing it changes nothing. |
| `HeapRuns.RunSound` | kernel/mem/wdmalloc.c:35-331 | After every run of calls with live pointers on a heap of 13 to 32779 bytes the layout is sound. |
| `HeapRuns.StepNoFreePair` | kernel/mem/wdmalloc.c:48-331 | One call keeps free blocks apart if and only if it is not the stranding kind of `wdrealloc`. |
| `HeapRuns.RunNoFreePair` | kernel/mem/wdmalloc.c:48-331 | So does every run without such calls. |
| `HeapRuns.RunAllFreed` | kernel/mem/wdmalloc.c:35-331 | Such a run after which nothing is live ends in the layout `wdmalloc_init` set up. |
| `HeapRuns.EmptyFreelistIsForever` | kernel/mem/wdmalloc.c:48-331 | Once the freelist is empty no run changes the layout and every allocation returns NULL. |
| `HeapRuns.FullHeapExample` | kernel/mem/wdmalloc.c:48-331 | On every fresh heap one allocation empties the freelist, and no run changes the layout afterwards. |
| `HeapClient.StepKeepsBlock` | kernel/mem/wdmalloc.c:48-331 | No call moves, resizes or frees a block it is not about. |
| `HeapClient.Perform` | kernel/mem/wdmalloc.c:48-331 | For the code: each call, and each store by the client, keeps the heap valid, takes the layout step, does to the map from pointers to bytes what it should, and leaves place, size and bytes of all other live blocks. |
| `HeapClient.Replay` | kernel/mem/wdmalloc.c:48-331 | The same over every run of calls and stores, step by step, for blocks old and new; blocks that the run never names keep place, size and bytes throughout. |
| `HeapClient.ReadBack` | kernel/mem/wdmalloc.c:48-331 | In every run a byte of an object, once allocated and stored, is read back until it is overwritten, freed or cut off, wherever `wdrealloc` has moved the object. |
| `HeapClient.FirstMalloc` | kernel/main.c:13-35 | The first allocation succeeds if and only if the region has at most 32779 bytes and room for the request; the kernel's own region has 40960. |
| `Words.DecValue` | kernel/drivers/bitmap.c:64-79 | Subtracting one from a word of bits subtracts one from the number it stands for. |
| `Words.MaskBits` | kernel/drivers/bitmap.c:60-79 | `((1 << n) - 1) << s` has exactly the bits `s` to `s + n - 1`. |
| `Bitmaps.FlippedTwice` | kernel/drivers/bitmap.c:44-81 | Flipping a range twice restores it. |
| `Bitmaps.FlippedAt` | kernel/drivers/bitmap.c:44-81 | A bit is inverted exactly when it lies in the range. |
| `Bitmaps.FlippedJoin` | kernel/drivers/bitmap.c:44-81 | Flipping two adjacent ranges flips their union. |
| `Bitmaps.Bitmap.Flip` | kernel/drivers/bitmap.c:45-81 | In the one-word, two-word and many-word cases: exactly the bits `a` to `b` are inverted, and no other bit of memory. |
| `Bitmaps.Bitmap.Get` | kernel/drivers/bitmap.c:34-42 | The masked word tells the bit. |
| `Bitmaps.Bitmap.Set` | kernel/drivers/bitmap.c:23-32 | Clearing a bit, and setting one of the low 31 of a word, changes that bit of memory and no other. |
| `Bitmaps.SetExact` | kernel/drivers/bitmap.c:31-31 | No other case can be relied on: exact if and only if it clears or the offset is below 31. |
| `Bitmaps.Bitmap.Test` | kernel/drivers/bitmap.c:85-104 | The single pass returns the least start of a long enough run in the range, and -1 exactly when there is none. |
| `Bitmaps.Bitmap.TestAndFlip` | kernel/drivers/bitmap.c:109-120 | It inverts that run and nothing else; -1 leaves memory unchanged. |
| `Bitmaps.Bitmap.InitBuf` | kernel/drivers/bitmap.c:14-21 | It clears the whole bytes and nothing else. |
| `Bitmaps.InitClearsAll` | kernel/drivers/bitmap.c:14-21 | All bits are clear afterwards, whatever was there, if and only if their number is a multiple of 8. |
| `Bitmaps.PackedFlip` | kernel/mem/paging.c:75-82 | Of two bitmaps packed back to back, flipping in either leaves the other unchanged although they share a word. |
| `Bitmaps.PackedClear` | kernel/mem/paging.c:75-82 | So does clearing a bit. |
| `PagePool.TakenStays` | kernel/mem/paging.c:244-262 | In every run of requests pages once handed out stay taken. |
| `PagePool.RunInPool` | kernel/mem/paging.c:244-262 | In every run the ranges handed out lie in the pool. |
| `PagePool.RunDisjoint` | kernel/mem/paging.c:244-262 | In every run no two ranges share a page. |
| `PagePool.CountFlipped` | kernel/drivers/bitmap.c:109-120 | Flipping a clear run of `n` bits raises the number of set bits by `n`. |
| `PagePool.TookCount` | kernel/mem/paging.c:250-251 | A success raises the number of taken pages by exactly the pages asked for, NULL leaves it. |
| `PagePool.TookOne` | kernel/mem/paging.c:264-266 | A request for one page succeeds while any page is free. |
| `Paging.TookOneIff` | kernel/mem/paging.c:264-266 | It fails if and only if all are taken. |
| `PagePool.RunCount` | kernel/mem/paging.c:244-262 | After every run the pages taken are those before plus those granted. |
| `PagePool.TookMeans` | kernel/mem/paging.c:250-251 | NULL exactly when no run of `n` free pages exists; otherwise the first such run, which alone is then taken. |
| `Pools.Pool.GetPages` | kernel/mem/paging.c:250-261 | The code takes the least free run and returns its address, or NULL exactly when there is none; if asked it zeroes all `n` pages, and the bits that lie on them, and no others; otherwise it writes nothing outside the bitmap. The pool's own bitmap survives. |
| `Pools.Pool.Serve` | kernel/mem/paging.c:244-262 | Over every run of requests to one pool the addresses returned are disjoint page ranges in the pool, and the count of taken pages adds up. |
| `Pools.RunSheltered` | kernel/mem/paging.c:244-262 | If no free page holds bits of a bitmap, no free run of pages does. |
| `Pools.WipedKeeps` | kernel/mem/paging.c:257-259 | Zeroing pages spares the bits of a bitmap, whatever they are, if and only if none of them lies on those pages. |
| `Pools.ServedSpares` | kernel/mem/paging.c:244-262 | A bitmap of which no free page holds a bit keeps its bits, and stays so placed. |
| `Pools.ServedMeans` | kernel/mem/paging.c:257-259 | With the flag and a page found, all `n` pages and the bits on them are zeroed and no others; otherwise nothing is. |
| `Pools.ServedElsewhere` | kernel/mem/paging.c:244-262 | The pages of the other pool keep their contents. |
| `Pools.TakeFrom` | kernel/mem/paging.c:250-261 | Serving a request from one of two pools: exactly which pages are taken and zeroed, and which bits of the other bitmap are wiped with them. |
| `Pools.GetPages` | kernel/mem/paging.c:244-262 | The same with the flag that picks the pool; if no free page of either pool holds bits of the other's bitmap, both pools stay valid, the other one keeps its bits, and this remains so. |
| `PagePool.LedgerStep` | kernel/mem/paging.c:244-262 | One more request to either pool keeps all ranges handed out taken and disjoint, and the counts per pool right. |
| `Pools.Serve` | kernel/mem/paging.c:244-262 | Over every run of requests that choose pool and zeroing per call, the ranges lie in the pool asked for, are disjoint within and across the pools, and account for the pages taken from each. |
| `Pools.KernelBitmapsSheltered` | kernel/mem/paging.c:73-88 | The kernel pool's own bitmaps lie on the pages marked for them. |
| `Pools.MetadataIs` | kernel/mem/paging.c:75-76 | The bytes of a bitmap and the pages marked for two of them, rounded up. |
| `Pools.UserBitmapsSheltered` | kernel/mem/paging.c:222-231 | With only the pages for its bitmaps marked, no free kernel page holds a bit of the user pool's bitmap if and only if that fits behind the kernel's on the marked pages, for every number of pages from 2 on. |
| `Pools.FirstPageWipes` | kernel/mem/paging.c:175-176 | The first page the kernel takes holds bits of the user pool's bitmap if and only if it does not fit there. |
| `Pools.WipedExample` | kernel/mem/paging.c:222-231 | It does not with two pools of 16384 pages. |
| `Addresses.OffsetsOfVpn` | kernel/mem/paging.h:6-10 | The four index macros read the fields of the 36-bit page number. |
| `PageTree.EntryFields` | kernel/mem/paging.h:16-64 | From the entry built by `SET_BITS`, `GET_BITS` reads back the frame, present and writable set, user and page size clear. |
| `PageTree.SetBitsIs` | kernel/mem/paging.h:16-19 | For every value and field, `GET_BITS` reads back what `SET_BITS` wrote, cut to the field, and the bits above and below stay. |
| `PageTree.WalkIs` | kernel/mem/paging.h:6-32 | When the tables form a tree, the four-level walk (section 4.5 of the Intel SDM, Volume 3A), which would also take large pages, ends at the leaf table of the page, or fails where a table is missing; no page is open to user code. |
| `PageTree.GrowTree` | kernel/mem/paging.c:121-132 | Linking a fresh zeroed page below a missing entry keeps the tables a tree, each with one parent entry. |
| `PageTree.GrowKeepsWalks` | kernel/mem/paging.c:121-132 | It changes no translation. |
| `PageTree.SetLeaf` | kernel/mem/paging.c:143-152 | Writing a leaf entry changes the translation of its own page and of no other, and keeps the tree. |
| `PageTree.FrameExact` | kernel/mem/paging.c:147-147 | The frame stored is the address asked for if and only if that is page-aligned and below 2^51. |
| `Addresses.PtovVtop` | kernel/mem/paging.c:34-40 | Physical pages below 2 GiB convert to higher-half addresses and back, in 64-bit arithmetic. |
| `Paging.AllottedGrows` | kernel/mem/paging.c:123-124 | A page the bitmap allocator hands out is none of the existing tables: freshness follows from the bitmap. |
| `Paging.VpnOfPage` | kernel/mem/paging.c:179-183 | Physical pages below 2 GiB appear from `PHYS_BASE` on, those above from address 0 on; no two share a virtual page. |
| `Paging.SameTables` | kernel/mem/paging.c:118-141 | The root determines all tables: any tree with the same root has the old tables where they were. |
| `Paging.NullEntry` | kernel/mem/paging.c:118-141 | After the entry made without a page, no set of tables from the pool with this root fits the memory as a tree. |
| `Paging.Kernel.AddTable` | kernel/mem/paging.c:121-132 | A missing table takes one zeroed page from the pool and joins the tree; with no page left NULL comes back, exactly the entry for the frame at 2 GiB has been written, and no tree is left. |
| `Paging.Kernel.PdeInit` | kernel/mem/paging.c:118-141 | Returns the next table, existing or new; a new one costs one page and is linked by exactly its frame, present and writable; the tree is kept and no translation changes. It returns NULL if and only if the table is missing and no page is free, with the effect just named. |
| `Paging.ExhaustedExample` | kernel/mem/paging.c:118-176 | A pool of one page reaches that state: its root table links the frame at 2 GiB. |
| `Paging.TooSmallExample` | kernel/mem/paging.c:175-187 | With it not even one page can be mapped. |
| `Paging.Kernel.PteInit` | kernel/mem/paging.c:143-152 | The page translates to the low 39 bits of the frame given, writable and closed to user code, and the entry is exactly that frame with the bits for present and writable; every other page translates as before, with its rights. |
| `Paging.Kernel.MapPage` | kernel/mem/paging.c:154-173 | Afterwards `vaddr` translates to the low 39 bits of the frame of `paddr`, writable and closed to user code, every other page as before, rights included; exactly the missing tables on the way are added, one page each. It gets there if and only if the pool has those pages; otherwise no tree is left. |
| `Paging.TablesStep` | kernel/mem/paging.c:179-187 | One more page needs one more table of a level exactly at the multiples of that level's reach. |
| `Paging.TablesBelow2GiB` | kernel/mem/paging.c:179-187 | For 1 to 2^19 pages the tables are `2 + ceil(N/512) + ceil(N/2^18)`. |
| `Paging.SpansNext` | kernel/mem/paging.c:121-138 | The tables missing on the way to the next page are those that the count says. |
| `Paging.Kernel.NewRoot` | kernel/mem/paging.c:175-176 | A fresh root table: a tree in which nothing translates; NULL if and only if no page is free. |
| `Paging.Kernel.InitTables` | kernel/mem/paging.c:175-187 | For every total up to the 2^36 virtual pages: every physical page below it translates from the address `k_ptov` gives, writable and closed to user code, no other virtual page is mapped, and exactly `Tables(N)` pages went into tables, which for N from 1 to 2^19 is `2 + ceil(N/512) + ceil(N/2^18)`. It works out if and only if the pool has that many pages. |
| `Lists.Head.constructor` | kernel/sched/list.c:6-9 | An empty list. |
| `Lists.Head.InsertBetween` | kernel/sched/list.c:11-24 | The ring with the element inserted: links mutually inverse, length right, the element owned by this list. |
| `Lists.Head.Unlink` | kernel/sched/list.c:26-39 | The ring without the element, which is detached; all others stay. |
| `Lists.Head.Get` | kernel/sched/list.c:41-59 | Walking from the nearer end finds the element at the index. |
| `Lists.Head.Insert` | kernel/sched/list.c:61-79 | Refines insertion into a sequence at every index. |
| `Lists.Head.Remove` | kernel/sched/list.c:81-98 | Refines removal from a sequence at every index. |
| `Lists.Head.Push` | kernel/sched/list.c:100-113 | Refines appending. |
| `Lists.Head.PushFirst` | kernel/sched/list.c:115-121 | Refines prepending, by appending and turning the ring. |
| `Lists.Head.Pop` | kernel/sched/list.c:123-130 | Refines dropping the last element. |
| `Lists.Head.PopFirst` | kernel/sched/list.c:132-140 | Refines dropping the first element; `first` is null exactly when the list is empty. |
| `ListWorld.Owners` | kernel/sched/list.c:11-39 | Over all lists: `head` names the one list that has the element and is null exactly when none has. |
| `ListWorld.NowhereIs` | kernel/sched/list.c:14-14 | A null `head` means that no list has the element. |
| `ListWorld.Perform` | kernel/sched/list.c:61-140 | One operation is one sequence operation on its list, leaves the others alone, and keeps all lists sound if and only if an added element was detached. |
| `ListWorld.AppliedAt` | kernel/sched/list.c:61-140 | Which element is at which position after each operation. |
| `ListWorld.StolenExample` | kernel/sched/list.c:100-113 | An element pushed onto two lists ends up counted by both. |
| `ListWorld.Replay` | kernel/sched/list.c:61-140 | Every run over any number of lists does to them what it does to plain sequences, and elements may be reused after removal. |

## Left out

- `wdcalloc`: a wrapper around `wdmalloc` that does not clear memory.
- Misuse of the heap: double frees, stale pointers and overruns of a payload.
- Setting up the pools (`memory_pool_init` and `paging_init`): marking reserved regions and placing the two bitmaps. The page
  allocator starts from initialised pools that lie in the top 2 GiB.
- Bitmaps.Bitmap.Set: for a set value at offset 31 and above it states only which word may change, because the shift is undefined there.
- What the code does through the NULL table that an exhausted pool leaves it: `Paging.Kernel.MapPage` and
  `Paging.Kernel.InitTables` say when it comes to that, and stop there.
- More than 2^36 physical pages, for which there are not enough virtual pages.
- The walk reads the 39 frame bits that the kernel's macros name; bit 51 of an entry, which the kernel never sets, is not read.
- Pages and bitmaps share memory only where pages are zeroed. Entries of tables do not reach bitmaps because no table lies on a page
  that holds bits of its pool's bitmap, which `Paging.Kernel.Valid` says; the two pinned bitmaps are only placed, not modelled.
- Entries of a table are numbers, so the bytes of a page table are not modelled; neither are CR3, the TLB and page faults.
- `paging_get_pages` with 0 pages or more than the pool has fails an assertion and is not modelled.
- `list_foreach`, which calls foreign code, and the width of `len`.
- The insertion sort of the memory map and the multiboot tag walk, which would only add easy members.
- The loader, interrupts, timers, terminal, serial port, logging, and the scheduler, which has no policy yet.
