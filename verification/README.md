# A verified model of the kernel core

This project models the core of a bare-metal i386 kernel in Dafny: the four stacked memory allocators, the process
manager and scheduler that use them, the ring buffers between interrupts and the rest, and the scrollback terminal.
Each stateful part is an imperative Dafny class in the shape of the C code (arrays, linked headers, link fields, loops).
Each class is proved against a value-level model, and the laws are proved about that model over every run.

| file | what it holds |
|---|---|
| `words.dfy` | 32-bit wrap-around, alignment and page arithmetic, two control characters |
| `pmm.dfy` | the frame bitmap, its two scans, the counter, and boot from the memory map |
| `heap_model.dfy` | the heap as a list of blocks, and runs of clients that keep the rules |
| `heap_memory.dfy`, `kmalloc.dfy` | the bytes of heap memory, the doubly linked headers among them, and the allocator that writes them |
| `paging.dfy` | two-level page tables in physical memory, accessed through the current translation, refining a map from pages to frame and flags |
| `ownership.dfy` | one owner per frame: tables, vmalloc pages, process pages; the identity map; isolation of processes |
| `vmalloc_model.dfy` | regions, the break, and mappings half done or undone |
| `frame_budget.dfy` | how a page-by-page mapping ends, from the number of free frames alone |
| `memory_laws.dfy` | what each memory operation does to the state of memory, and the lemmas behind it |
| `process_heap.dfy` | where the heap of a process lies and what is granted out of it |
| `kernel_memory.dfy` | class `Kernel`: boot, mapping, vmalloc with rollback, vfree, process memory, over one allocator and one heap |
| `rings.dfy`, `kernel_signals.dfy`, `keyboard.dfy` | rings as bounded queues under interrupts; signal dispatch; the line editor |
| `process_model.dfy` | the process manager as a state machine: create, fork, wait, exit, signals, sockets, ticks |
| `process_laws.dfy` | what every run keeps: list shape, parent forest, sound waits |
| `call_meanings.dfy`, `deliveries.dfy`, `turns.dfy` | what each call, a delivery of signals and a tick answer and change, told by pids, owners, statuses and queues alone |
| `exits.dfy` | from an exit or a fatal signal to the wait that collects it, over whole runs |
| `scheduling.dfy`, `zombies.dfy`, `orphans.dfy` | no wait deadlock, bounded waiting; final zombies, signal delivery; why collection must be childless |
| `lists.dfy`, `process_table.dfy` | the sixteen linked structs, proved to do what the state machine does, call by call and over whole runs |
| `kernel_system.dfy` | processes and memory together: the listed processes, and only they, hold five frames each; whole runs, action by action |
| `terminal.dfy` | video memory as a cache of a window of the scroll buffer |

Process bodies are not modelled as code: a context switch is one step in which the picked process makes any sequence of
calls on its own behalf. Interrupts arrive between critical sections, as sequences given to the dispatcher and the reader.
A panic is a halt, and nothing is claimed after it; nor is anything claimed after a stray access, which is one through a
physical address that the current directory does not translate to itself.

## Where the code falls short of its intent

Each of these is proved, with the exact condition under which the code does meet the property.

- `kmalloc` of more than 0x7FFFFFE0 and at most 0xFFFFFFF8 bytes asks `kbrk` for a wrapped increment and hands out a block
  that ends past `heap_max`, or NULL for a few of the largest sizes; larger requests round to 16 bytes
  (`Kmalloc.KernelHeap.Kmalloc`, `HeapModel.RoundedCovers`).
- Page tables and process pages are written through their physical addresses, which lead to the right frame only in the
  identity map below 16 MB. `vmalloc` goes astray exactly when the frame for a missing table lies above it, and process
  creation exactly when, with two or more frames free, fewer than five and not all of them lie below it
  (`Paging.TableClearedIff`, `KernelMemory.Kernel.Vmalloc`, `FrameBudget.ServedIff`,
  `KernelMemory.Kernel.ProcessMemoryMap`). `KernelMemory.Kernel.StrayTables` is a run of two requests that does so;
  with no free frame above 16 MB it cannot happen (`MemoryLaws.NeverStray`, `MemoryLaws.SmallMachine`).
- `kfree` trusts whatever its pointer leads to. Freeing a pointer that is no longer live changes nothing exactly when the
  twenty bytes before it do not have the magic, which is a panic, or read "free"; a later header or payload over them makes
  the code panic or write into the block list (`Kmalloc.KernelHeap.Kfree`, with the run `Kmalloc.StaleHeader`).
- A memory-map entry whose rounded base or whose end wraps 32 bits frees the wrong frames (`Pmm.EntryFreesExactlyItsFrames`).
- `pmm_alloc_frame` never finds a free frame in the last, partial byte of the bitmap (`Pmm.FrameAllocator.FindFree`).
- Process creation with two to four frames left, all below 16 MB, fails and leaks the frame of its page table
  (`KernelMemory.Kernel.ProcessMemoryMap`).
- A memory report whose bytes leave 32 bits wraps, and memory is taken for smaller than it is (`Pmm.TotalMemoryMeaning`).
- `process_memory_alloc` accepts a request whose sum wraps, and moves the break down (`MemoryLaws.MemoryAllocSound`).
- A process page mapped while the kernel has a table at the process region appears in the kernel's own address space
  (`MemoryLaws.IsolationNeedsEmptyRegion`).
- Collecting a process that has children breaks the parent forest, and a run from boot exists in which slot reuse then
  leads to two processes waiting for each other (`ProcessLaws.ReleaseForest`, `Orphans.OrphansDeadlock`).
- A zombie that waits for a live child stops being a zombie (`Zombies.WaitRevives`).
- `socket_send` reports failure for a value it has queued when the signal queue is full (`Zombies.SocketSendReport`).
- A backspace at column 0 below the first screen leaves video memory one line off (`Terminal.StaleWindow`).

## Premises

- Heap: only `kmalloc` calls `kbrk`. The laws of `HeapModel` over runs are about clients that ask for at most 0x7FFFFFE0
  bytes, free NULL or live payloads, and write into their own payloads; `Kmalloc.KernelHeap.RunOps` takes any client.
- vmalloc: rounding and adding the break do not wrap 32 bits, the current directory is the kernel's, nothing else moves the
  break, and while a process lives the request ends at or below the process region at 0x02000000. A run leaves out or ends
  at a call that does not meet this (`MemoryLaws.Permitted`, `KernelSystem.Stops`).
- Layout: the image, its 64 KB reserve and the 8 MB heap lie within the identity-mapped first 16 MB, and the static
  directories and tables lie inside the image at distinct places.
- A process is collected by another process or the kernel, so that its directory is not the current one; the model of `wait`
  guarantees it.
- The forest, deadlock freedom and exact children lists hold for runs in which everyone collected is childless. List shape and
  sound waits need no such premise. Finality of zombies needs that no zombie waits for a live child. Pids do not wrap.
- Processes have the default signal handler.

## Model

| member | source | states |
|---|---|---|
| `Pmm.FrameAllocator.BitmapSet` | kernel/src/pmm.c:23-26 | exactly the bit of the given frame becomes set; every other frame tests as before |
| `Pmm.FrameAllocator.BitmapClear` | kernel/src/pmm.c:28-31 | exactly the bit of the given frame becomes clear; every other frame tests as before |
| `Pmm.FrameAllocator.FindFree` | kernel/src/pmm.c:39-53 | the byte-skipping scan returns the lowest free frame among whole bytes, and -1 only if there is none |
| `Pmm.FrameAllocator.FindFreeRegion` | kernel/src/pmm.c:56-75 | the region scan returns the lowest run of count free frames, and -1 only if no run exists |
| `Pmm.FrameAllocator.ScansAgree` | kernel/src/pmm.c:39-75 | both scans name the same frame for a run of one when total_frames is a multiple of 8 |
| `Pmm.FrameAllocator.AllocFrame` | kernel/src/pmm.c:133-144 | takes the lowest scannable free frame and nothing else; 0 means nothing was free there (or frame 0 itself was taken); used_frames stays the number of set bits |
| `Pmm.FrameAllocator.FreeFrame` | kernel/src/pmm.c:147-159 | exactly the frame of the address becomes free; addresses beyond memory change nothing; the counter stays exact |
| `Pmm.FrameAllocator.AllocFrames` | kernel/src/pmm.c:162-179 | takes the lowest run of count free frames, or changes nothing when count is 0 or no run exists |
| `Pmm.FrameAllocator.FreeFrames` | kernel/src/pmm.c:182-192 | frees exactly the frames of the range, counted modulo 2^32, that exist |
| `Pmm.FrameAllocator.IsFrameAllocated` | kernel/src/pmm.c:195-202 | true exactly for used frames and for frames beyond memory |
| `Pmm.FrameAllocator.MarkFrameUsed` | kernel/src/pmm.c:205-212 | a managed frame becomes used and is counted once, however often it is marked; other addresses change nothing |
| `Pmm.FrameAllocator.MarkRegionUsed` | kernel/src/pmm.c:215-226 | exactly the managed frames that the region touches become used |
| `Pmm.FrameAllocator.MarkRegionFree` | kernel/src/pmm.c:229-240 | exactly the frames between the rounded-up base and the truncated end become free |
| `Pmm.FrameAllocator.Init` | kernel/src/pmm.c:78-130 | after boot a managed frame is free exactly when some available range offers it and nothing keeps it back |
| `Pmm.EntryFreesExactlyItsFrames` | kernel/src/pmm.c:229-240 | for a 32-bit map entry, "freed" and "wholly inside" agree on all managed frames if and only if EntryExact, the condition on address wrap-around, holds |
| `Pmm.LastPageEntryFreesEverything` | kernel/src/pmm.c:231-232 | a concrete entry near the end of the address space whose base wraps on rounding: every frame of the machine is freed |
| `Pmm.BootMapMeaning` | kernel/src/pmm.c:100-129 | for exact entries, free after boot means wholly inside one available entry, at or above 1 MB, and clear of the image and the 64 KB behind it |
| `Pmm.KeptBackMeaning` | kernel/src/pmm.c:121-129 | what boot keeps back is the first 1 MB and every frame touched by the image or the 64 KB behind it |
| `Pmm.FallbackMeaning` | kernel/src/pmm.c:116-119 | without a memory map, exactly the whole frames between 1 MB and the end of memory are offered, whatever memory size was reported |
| `Pmm.TotalMemoryMeaning` | kernel/src/pmm.c:86-96 | total_memory is the reported size cut at 128 MB if and only if its bytes stay within 32 bits or wrap to 128 MB and more; 16 MB without a report |
| `Pmm.TotalMemoryWraps` | kernel/src/pmm.c:88 | a report just above 4 GB that wraps to 4 MB |
| `Pmm.ReachesMeaning` | kernel/src/pmm.c:182-192 | the frames freed are those that a loop of count turns from the first frame on visits, counting in 32 bits |
| `HeapModel.FirstFit` | kernel/src/kmalloc.c:111-123 | the index of the first free block that is large enough, none before it, or the list length |
| `HeapModel.FindLive` | kernel/src/kmalloc.c:245-264 | the live block whose payload the pointer is, or none |
| `HeapModel.AddressOrder` | kernel/src/kmalloc.c:126-167 | list order is address order and blocks do not overlap |
| `HeapModel.JoinUndoesSplit` | kernel/src/kmalloc.c:126-167 | coalescing a split block with its rest gives the original list |
| `HeapModel.SplitKeeps` | kernel/src/kmalloc.c:126-145 | splitting keeps the blocks tiling the same range, with sizes multiples of 8 and at least 16 |
| `HeapModel.JoinKeeps` | kernel/src/kmalloc.c:148-167 | coalescing keeps the blocks tiling the same range |
| `HeapModel.CarveGrants` | kernel/src/kmalloc.c:185-191 | taking a found block keeps all heap invariants, hands out an 8-aligned block at least as large as asked, and touches no other live block |
| `HeapModel.GrowGrants` | kernel/src/kmalloc.c:193-220 | a block made at the old break keeps all heap invariants and is new among the live blocks |
| `HeapModel.AllocKeeps` | kernel/src/kmalloc.c:170-224 | kmalloc keeps the invariants; NULL exactly for size 0 or when no block fits and growth would pass heap_max, and then the heap is unchanged; otherwise one new live block of at least the request |
| `HeapModel.AllocCuts` | kernel/src/kmalloc.c:126-191 | the first block that fits is cut to exactly the rounded size, with the rest a free block of its own, when the rest can hold a header and 16 bytes, and is handed out whole otherwise; all other blocks stay |
| `HeapModel.AllocGrows` | kernel/src/kmalloc.c:193-223 | only without such a block the heap grows, by exactly a header and the rounded size |
| `HeapModel.AllocTight` | kernel/src/kmalloc.c:126-224 | no block handed out exceeds the rounded request by 40 bytes or more |
| `HeapModel.RoundedCovers` | kernel/src/kmalloc.c:176-180 | the rounded size covers the request if and only if size <= 0xFFFFFFF8; every larger request rounds to 16 bytes |
| `HeapModel.RoundedLeast` | kernel/src/kmalloc.c:176-180 | the rounded size is the least multiple of 8 that holds the request and 16 bytes |
| `HeapModel.FirstFitIsLowest` | kernel/src/kmalloc.c:111-123 | whenever a free block fits, the result lies in the lowest-addressed one |
| `HeapModel.FreedNoTwoFree` | kernel/src/kmalloc.c:148-167 | two-sided coalescing leaves no two adjacent free blocks |
| `HeapModel.FreeKeeps` | kernel/src/kmalloc.c:245-272 | kfree of a live payload keeps the heap tiled, sized and without adjacent free blocks |
| `HeapModel.FreeLive` | kernel/src/kmalloc.c:245-272 | kfree ends the life of exactly the block whose payload the pointer is |
| `HeapModel.HeapDetermined` | kernel/src/kmalloc.c:148-167 | between given ends the live blocks determine the whole list, so what kfree leaves is determined by what stays live |
| `HeapModel.AllocThenFree` | kernel/src/kmalloc.c:170-272 | kmalloc then kfree of the result leaves the live blocks of before |
| `HeapModel.AllocThenFreeRestores` | kernel/src/kmalloc.c:170-272 | if the heap need not grow, kmalloc then kfree restores the whole block list |
| `HeapModel.AllocPayloads` | kernel/src/kmalloc.c:170-224 | a non-NULL result is a new payload and no other payload is lost |
| `HeapModel.FreePayloads` | kernel/src/kmalloc.c:245-272 | kfree of a live payload removes exactly that payload from the live ones |
| `HeapModel.RunKeeps` | kernel/src/kmalloc.c:170-272 | tiling, sizes, alignment and no adjacent free blocks hold after every run in which clients free NULL or live payloads and write into their own |
| `HeapModel.AllFreedIsOneBlock` | kernel/src/kmalloc.c:148-167 | once all allocations of such a run are freed, a heap that has grown is a single free block of heap_size minus one header |
| `HeapModel.LiveDisjoint` | kernel/src/kmalloc.c:170-224 | payloads of different live blocks never overlap and are 8-aligned |
| `HeapModel.StatsAccount` | kernel/src/kmalloc.c:291-310 | used plus free plus one header per free block is the size of the heap |
| `HeapModel.TallyMeaning` | kernel/src/kmalloc.c:291-310 | the number of allocations is the number of live blocks, and all others are free |
| `HeapModel.TallyConcat` | kernel/src/kmalloc.c:291-310 | the figures of a list in two parts add up |
| `HeapMemory.SplitLinked` | kernel/src/kmalloc.c:126-145 | the six stores of a split, on any memory whose headers spell out the list, leave headers that spell out the split list, and touch no byte outside the headers of that list |
| `HeapMemory.JoinLinked` | kernel/src/kmalloc.c:148-167 | the stores of a coalescing step leave headers that spell out the joined list, prev still inverse to next, and touch no byte outside its headers |
| `HeapMemory.FreeLinked` | kernel/src/kmalloc.c:262-271 | the stores of kfree on a block of the list realise the model's release, leave its old header reading free with its magic, and touch nothing but that header and the headers of the new list |
| `HeapMemory.AppendLinked` | kernel/src/kmalloc.c:201-220 | the stores that link a new last block leave headers that spell out the longer list, and touch no byte outside its headers |
| `Kmalloc.KernelHeap.constructor` | kernel/src/kmalloc.c:57-75 | the heap starts empty at the page behind the 64 KB that follow the image, whatever memory holds |
| `Kmalloc.KernelHeap.Kbrk` | kernel/src/kmalloc.c:78-108 | the break moves by the increment in 32-bit arithmetic; growth past heap_max is refused and changes nothing; a decrease below heap_start stops at heap_start |
| `Kmalloc.KernelHeap.FindFreeBlock` | kernel/src/kmalloc.c:111-123 | the walk over the headers in memory finds exactly the first fit of the model |
| `Kmalloc.KernelHeap.SplitBlock` | kernel/src/kmalloc.c:126-145 | the stores of a split realise the model's split when the rest can hold a block, and nothing otherwise; no byte outside headers changes |
| `Kmalloc.KernelHeap.TakeBlock` | kernel/src/kmalloc.c:185-191 | the found-block path realises the model's allocation on the headers in memory; no byte outside headers changes |
| `Kmalloc.KernelHeap.LinkLast` | kernel/src/kmalloc.c:201-220 | the new header is written and linked behind the last block; no byte outside headers changes |
| `Kmalloc.KernelHeap.Grow` | kernel/src/kmalloc.c:193-223 | the growth path for every 32-bit size: exact up to 0x7FFFFFE0; beyond that the break moves the wrong way and a block past heap_max is handed out, or NULL with nothing changed, exactly as stated |
| `Kmalloc.KernelHeap.Kmalloc` | kernel/src/kmalloc.c:170-224 | for every 32-bit size the heap in memory does what the model does, except for MAX_REQUEST < size <= 0xFFFFFFF8, where the block handed out provably ends past heap_max; NULL changes nothing; no byte outside headers ever changes |
| `Kmalloc.KernelHeap.CoalesceNext` | kernel/src/kmalloc.c:150-157 | on whatever memory holds, the stores of the first half of coalesce_blocks |
| `Kmalloc.KernelHeap.CoalescePrev` | kernel/src/kmalloc.c:159-166 | on whatever memory holds, the stores of the second half of coalesce_blocks |
| `Kmalloc.KernelHeap.Kfree` | kernel/src/kmalloc.c:245-272 | for any pointer, on the bytes really in memory: panic exactly when the magic is missing, release exactly when the header reads used, otherwise no byte changes; the release of a live payload is the model's |
| `Kmalloc.KernelHeap.KfreeTwice` | kernel/src/kmalloc.c:245-272 | an immediate second kfree of the same pointer changes nothing |
| `Kmalloc.KernelHeap.LiveReadsUsed` | kernel/src/kmalloc.c:251-264 | the header before a live payload has the magic, reads used, and carries the size of the block |
| `Kmalloc.KernelHeap.RunOps` | kernel/src/kmalloc.c:170-272 | any sequence of kmalloc, kfree and byte writes with any arguments does what the model does up to the first operation the code does not survive, which a client that keeps the rules never issues; blocks not freed keep exactly the bytes their owner wrote |
| `Kmalloc.StaleHeader` | kernel/src/kmalloc.c:245-272 | a run after which a second kfree is not harmless: the header left behind by coalescing is half overwritten, keeps its magic and reads used, although the pointer is dead |
| `Kmalloc.KernelHeap.Ksize` | kernel/src/kmalloc.c:275-288 | ksize of a live payload is the size of its block; 0 without a header |
| `Kmalloc.KernelHeap.GetStats` | kernel/src/kmalloc.c:291-310 | the walk counts every block and the figures account for every byte of the heap |
| `Paging.WithTableKeeps` | kernel/src/paging.c:118-145 | getting or creating a table, its pointer leading to its frame, changes no translation and keeps the directory well formed |
| `Paging.MapRefines` | kernel/src/paging.c:147-166 | mapping, as far as ThroughIsDirect reaches, sets the translation of that page to exactly the frame and flags and changes no other, even when a table is made |
| `Paging.UnmapRefines` | kernel/src/paging.c:174-190 | unmapping, as far as UnmapIsDirect reaches, removes the translation of that page and of no other |
| `Paging.ThroughIsDirect` | kernel/src/paging.c:118-166 | with the table accessed by its physical address under the current directory, the code does what the direct mapping does whenever both accesses lead to the table's frame |
| `Paging.UnmapIsDirect` | kernel/src/paging.c:174-215 | the same for unmapping, and for the walk in software, which then reads what the processor reads |
| `Paging.TableClearedIff` | kernel/src/paging.c:123-137 | a new table comes out cleared whatever its frame held if and only if its physical address leads to that frame |
| `Paging.RightsAreRequested` | kernel/src/paging.c:123-141 | write and user rights of directory and table together equal the rights requested for the page |
| `Paging.PhysicalMeaning` | kernel/src/paging.c:198-215 | for every offset the physical address is that offset in the frame the page walk finds, and 0 without a mapping |
| `Paging.WordMeaning` | kernel/src/paging.c:161 | an entry keeps the frame and all twelve flag bits |
| `Paging.OrUserMeaning` | kernel/src/paging.c:138-140 | granting user rights to a directory entry sets that bit and no other |
| `Paging.IndexMeaning` | kernel/include/paging.h:30-31 | directory and table index are the two halves of the page number |
| `Paging.PagingRefinesMap` | kernel/src/paging.c:118-215 | over every sequence of map and unmap in the current directory in which each table's address leads to the table at its turn, no access faults and the page walk computes the plain map from pages to frame and flags |
| `Ownership.KernelWf` | kernel/src/paging.c:74-95 | the invariant makes the kernel directory well formed: its tables exist, are distinct and are writable |
| `Ownership.MapKernelKeeps` | kernel/src/paging.c:147-166 | a kernel mapping to fresh frames, a new table among them from below 16 MB, keeps one owner per frame and every process isolated |
| `Ownership.UnmapKernelKeeps` | kernel/src/paging.c:174-190 | a kernel unmapping keeps one owner per frame and every process isolated |
| `Ownership.CreateKeeps` | kernel/src/process.c:457-511 | a finished slot becomes a process that owns its five frames, all below 16 MB, alone; directories and tables of kernel and other processes are as before |
| `Ownership.ReleaseKeeps` | kernel/src/process.c:155-180 | release gives back exactly the five frames of the process and changes no other address space |
| `Ownership.UserPagesAreOwn` | kernel/src/process.c:439-511 | in user mode a process reaches its four pages at its slot's addresses and nothing else |
| `Ownership.Isolation` | kernel/src/process.c:439-511 | what a process reaches in user mode is in use, not reserved, no vmalloc page, and out of reach of every other process |
| `Ownership.LowReaches` | kernel/src/paging.c:84-95 | below 16 MB a physical address leads to its own frame, under the kernel directory and under the directory of every live process |
| `Ownership.HighUnreached` | kernel/src/paging.c:130-131 | at 16 MB and above the address of a fresh frame leads to another frame or faults, under each of these directories |
| `VmallocModel.RoundingCovers` | kernel/src/vmalloc.c:134-135 | the 32-bit rounding gives enough pages if and only if size <= 0xFFFFF000 |
| `VmallocModel.RangeCheck` | kernel/src/vmalloc.c:137-141 | the range check lets through a region that does not fit if and only if base plus rounded size leaves 32 bits |
| `VmallocModel.AboveBreak` | kernel/src/vmalloc.c:48-62 | the break is page aligned and nothing at or above it is mapped |
| `VmallocModel.PushRegion` | kernel/src/vmalloc.c:174-187 | a region linked at the break keeps regions disjoint, exactly mapped, and the break their highest end |
| `VmallocModel.RemoveRegion` | kernel/src/vmalloc.c:193-232 | unlinking a region keeps the rest disjoint and exactly mapped, with the break the highest end left |
| `VmallocModel.PartialStep` | kernel/src/vmalloc.c:152-172 | one more page mapped: fresh, distinct and cleared, every other translation and all data as before |
| `VmallocModel.RollbackStep` | kernel/src/vmalloc.c:155-161 | one page undone returns exactly its frame and its translation |
| `VmallocModel.ShrinkStep` | kernel/src/vmalloc.c:213-222 | one page of vfree unmaps exactly that page and frees exactly its frame |
| `FrameBudget.ServedIff` | kernel/src/vmalloc.c:149-172 | the mapping loop is served if and only if the free frames cover all pages and all missing tables and every missing table finds one below 16 MB at its turn |
| `FrameBudget.StarvedIff` | kernel/src/vmalloc.c:152-166 | it is rolled back if and only if the last frame is gone before some page, with all earlier tables below 16 MB |
| `FrameBudget.NoTableIff` | kernel/src/paging.c:123-128 | it panics if and only if the last frame goes to a page whose table is missing, with all earlier tables below 16 MB |
| `FrameBudget.CostCounts` | kernel/src/vmalloc.c:149-172 | a mapping costs one frame for each page and one for each missing table |
| `MemoryLaws.NeverStray` | kernel/src/paging.c:130-131 | with no free frame at 16 MB or above, no mapping and no process creation strays |
| `KernelMemory.Kernel.PagingInit` | kernel/src/paging.c:74-95 | after paging_init the first 16 MB translate to themselves and nothing else is mapped |
| `KernelMemory.Kernel.InitFrames` | kernel/src/kmalloc.c:57-70 | after the heap reservation no frame of the first 1 MB, the image, the reserve or the heap range is free |
| `KernelMemory.Kernel.Boot` | kernel/src/main.c:444-471 | boot establishes every memory invariant: identity map below 16 MB and no other table, no regions, no processes |
| `KernelMemory.Kernel.TakeFrame` | kernel/src/pmm.c:133-144 | a frame handed out is fresh and comes from below 16 MB as long as one is free there; 0 comes exactly when no frame is left for the scan |
| `KernelMemory.Kernel.GetOrCreateTable` | kernel/src/paging.c:118-145 | the table found or made; with one missing, panic exactly when no frame is left and a stray access exactly when none is left below 16 MB |
| `KernelMemory.Kernel.MapPageInDirectory` | kernel/src/paging.c:147-166 | writes through the physical addresses what the model's mapping writes, taking at most one frame, for the table; panic and stray access exactly as for the table |
| `KernelMemory.Kernel.MapOnePage` | kernel/src/vmalloc.c:152-172 | one vmalloc page: a fresh cleared frame mapped; failure, panic and stray access each exactly when the free frames, in all and below 16 MB, leave no other way |
| `KernelMemory.Kernel.UnmapOnePage` | kernel/src/vmalloc.c:214-222 | one page unmapped and exactly its frame freed |
| `KernelMemory.Kernel.Rollback` | kernel/src/vmalloc.c:155-161 | undoing any number of mapped pages restores every translation and frees every data frame |
| `KernelMemory.Kernel.MapRegion` | kernel/src/vmalloc.c:149-172 | all pages fresh, distinct and cleared, or everything undone; which of the four ways it ends is decided by the free frames and the missing tables alone, and the frames taken are those it costs |
| `KernelMemory.Kernel.VmallocHighestEnd` | kernel/src/vmalloc.c:48-62 | the highest end of any region, or the start of the range |
| `KernelMemory.Kernel.FindRegion` | kernel/src/vmalloc.c:64-85 | the first region that starts at the pointer, or none |
| `KernelMemory.Kernel.Vmalloc` | kernel/src/vmalloc.c:127-190 | how it ends is decided before the call by range, descriptor and free frames; all or nothing: a region of the requested size in fresh cleared pages at the old break with every other translation kept, or everything restored but new page tables and heap growth |
| `KernelMemory.Kernel.LinkRegion` | kernel/src/vmalloc.c:174-187 | list, counters and break track the new region |
| `KernelMemory.Kernel.Vfree` | kernel/src/vmalloc.c:193-232 | panic exactly on a pointer that starts no region; otherwise exactly its pages are unmapped, exactly their frames and its descriptor freed, and the break drops to the highest region left |
| `KernelMemory.Kernel.UnmapRegion` | kernel/src/vmalloc.c:213-222 | exactly the pages of the region are unmapped and exactly their frames freed |
| `KernelMemory.Kernel.VmallocThenVfree` | kernel/src/vmalloc.c:127-232 | unless vmalloc panics or strays, exactly as told for it, vmalloc then vfree restores translations, regions, break, counters and live heap blocks; only new page tables keep their frames |
| `KernelMemory.Kernel.Vsize` | kernel/src/vmalloc.c:235-247 | the requested size of the region that starts at the pointer, 0 if none does |
| `KernelMemory.Kernel.StrayTables` | kernel/src/paging.c:123-161 | with 1027 to 2051 frames free below 16 MB after boot and at least 2052 in all, vmalloc of 8 MB succeeds and the next page goes astray: its table lies above the identity map |
| `KernelMemory.Kernel.AllocProcessPage` | kernel/src/process.c:439-455 | a fresh cleared page mapped for the user; failure exactly with no frame left, panic exactly when the only frame left is needed for the table, and a stray access exactly when page or table would lie above 16 MB |
| `KernelMemory.Kernel.ProcessMemoryMap` | kernel/src/process.c:457-511 | success exactly with at least five frames free below 16 MB, taking exactly five and changing no translation outside the slot; panic exactly with one frame left in all; with two to four left, all below 16 MB, failure leaks the frame of the page table; a stray access otherwise |
| `KernelMemory.Kernel.ReleasePages` | kernel/src/process.c:155-172 | every recorded page is unmapped from the slot's table and exactly those frames are freed |
| `KernelMemory.Kernel.ProcessMemoryRelease` | kernel/src/process.c:155-180 | exactly the five frames of a process that is not running come back, the directory entry is cleared, no other address space changes |
| `KernelMemory.Kernel.ForkMemory` | kernel/src/process.c:699-727 | data, bss and heap contents and the break offset equal the source's, in frames that were free before, and a break inside the source's heap is one inside the child's; the source and all other spaces are untouched |
| `KernelMemory.Kernel.ProcessMemoryAlloc` | kernel/src/process.c:513-541 | the break moves exactly when the 32-bit sum passes the range check; the old break is what process_mmap returns; from a break in the heap and without a wrap, accepted means that the range fits, and each of its bytes leads to the heap page of the process |
| `KernelMemory.Kernel.MmapAll` | kernel/src/process.c:527-541 | over any sequence of requests that do not wrap the grants follow one another in the heap page of the process, and no two share a byte |
| `ProcessHeap.HeapPage` | kernel/src/process.c:476-500 | of all addresses exactly those of the heap range of a slot lead to the third page of its process, the one that fork copies as the heap |
| `ProcessHeap.HeapPlace` | kernel/src/process.c:49-52 | the heap range starts 0x2000 bytes into the 0x20000 bytes of the slot, counted from 0x02000000 |
| `ProcessHeap.GrantInside` | kernel/src/process.c:513-525 | from a break in the heap an accepted request lies in the heap if and only if its sum stays within 32 bits, and every request that fits is accepted |
| `ProcessHeap.ForkedBreak` | kernel/src/process.c:724 | the break of a forked process stands where the source's stands in its own heap |
| `MemoryLaws.MemoryAllocSound` | kernel/src/process.c:519 | for every break, the range check accepts exactly the requests that fit if and only if the sum stays within 32 bits; otherwise the break moves down |
| `MemoryLaws.IsolationNeedsEmptyRegion` | kernel/src/paging.c:106-116 | mapping a process page leaves the kernel's translations alone if and only if the kernel directory has no table at the process region |
| `KernelMemory.Kernel.Run` | kernel/src/process.c:155-180 | every run of vmalloc, vfree, create, fork and collect, call by call: each does what its contract says of the state before and after it, a call whose premises fail is left out, the run ends early exactly at a panic or a stray access, and otherwise with one owner per frame, sound regions, isolation and a sound heap |
| `Rings.FullMeans` | kernel/src/process.c:673-697 | a ring is full exactly at capacity minus one, empty exactly when the indices meet |
| `Rings.EnqueueAppends` | kernel/src/process.c:562-571 | storing at the tail appends to the queue the ring stands for |
| `Rings.DequeueDrops` | kernel/src/process.c:584-586 | advancing the head removes the oldest element |
| `Rings.FirstInFirstOut` | kernel/src/signals.c:42-92 | for every interleaving of critical sections: old contents and accepted elements, in order, are the removed elements and the new contents |
| `Rings.RingBuffer.TryPut` | kernel/src/signals.c:51-63 | accepted exactly while fewer than capacity minus one are queued, and then appended |
| `Rings.RingBuffer.TryTake` | kernel/src/signals.c:73-83 | the oldest element comes out; nothing exactly when the queue is empty |
| `Rings.RingBuffer.Pending` | kernel/src/signals.c:94-107 | the pending count is the length of the queue |
| `Rings.AdmittedStep` | kernel/src/signals.c:42-64 | one element more of a batch is taken in exactly when there is room behind those before it |
| `KernelSignals.SignalQueue.Schedule` | kernel/src/signals.c:42-64 | signals 1 to 31 are queued while fewer than 63 are pending; all else is refused without a change |
| `KernelSignals.SignalQueue.Interrupt` | kernel/src/signals.c:42-64 | of the signals of an interrupt exactly those in range are taken in, in order, as long as there is room |
| `KernelSignals.ScheduleStep` | kernel/src/signals.c:42-64 | one signal more of an interrupt is taken in exactly when it is in range and there is room behind those before it |
| `KernelSignals.DrainedAll` | kernel/src/signals.c:66-92 | while everything fits and the dispatcher does not run dry first, all that was pending and all that arrives is handled, in order |
| `KernelSignals.SignalQueue.DispatchPending` | kernel/src/signals.c:66-92 | with interrupts scheduling signals between critical sections, those out of range refused, everything pending or accepted meanwhile is handled once, in order, and the queue ends empty |
| `Keyboard.KeyboardBuffer.QueueChar` | kernel/src/keyboard.c:29-39 | a key is appended, or lost when 255 are pending |
| `Keyboard.KeyboardBuffer.GetChar` | kernel/src/keyboard.c:113-141 | the oldest key, waiting for interrupts as long as there is none: key, remaining queue and accepted keys are exactly those that the arrivals determine |
| `Keyboard.LookMeaning` | kernel/src/keyboard.c:113-141 | a wait returns the oldest pending key, or else the first key of the first interrupts that bring any; it still waits exactly when nothing is pending and no more keys come |
| `Keyboard.LookConserves` | kernel/src/keyboard.c:113-141 | while waiting for a key none is lost or made up |
| `Keyboard.ReadConserves` | kernel/src/keyboard.c:143-169 | while reading a line no key is lost or made up, and a reader that still waits has emptied the queue |
| `Keyboard.TypedPlain` | kernel/src/keyboard.c:151-165 | without backspaces the line is what was typed |
| `Keyboard.TypedTakenBack` | kernel/src/keyboard.c:154-159 | a key followed by a backspace leaves no trace, wherever it was typed |
| `Keyboard.TypedLeading` | kernel/src/keyboard.c:154-159 | a backspace on an empty line is ignored |
| `Keyboard.KeyboardBuffer.GetLine` | kernel/src/keyboard.c:143-169 | reads exactly the keys that queue and arrivals determine; the buffer receives what they leave after editing, NUL-terminated within its size, up to the first newline or a full buffer |
| `ProcessModel.FreeSlot` | kernel/src/process.c:54-67 | the lowest slot from 1 on that is not in use, or none |
| `ProcessModel.FindFrom` | kernel/src/process.c:381-393 | a listed process with the pid, or -1 when no listed process has it |
| `Scheduling.PickFromFirst` | kernel/src/process.c:826-847 | the scan returns the first runnable process in list order from its start, and -1 exactly when there is none |
| `CallMeanings.PickMeaning` | kernel/src/process.c:826-847 | a picked process is listed, has an entry and neither waits nor has ended; nobody is picked exactly when there is no such process |
| `Scheduling.CandidateMeaning` | kernel/src/process.c:835-844 | the candidates follow the list from the cursor on, from its end go on at its head, and end with the cursor |
| `ProcessLaws.BootedInv` | kernel/src/process.c:337-364 | the machine after process_init satisfies every invariant |
| `CallMeanings.BootMeaning` | kernel/src/process.c:337-364 | after boot the kernel is alone, in slot 0 with pid 1, as a thread of root without an entry; the next pid is 2 |
| `ProcessLaws.Found` | kernel/src/process.c:381-393 | a listed process is the one found under its pid |
| `ProcessLaws.TerminateEvolves` | kernel/src/process.c:786-802 | no lost wakeup: an exit keeps every wait sound, because whoever waited for the process is woken |
| `ProcessLaws.DeliverEvolves` | kernel/src/process.c:576-603 | signal delivery keeps the tree, all zombies and all waits sound |
| `ProcessLaws.CreateKeeps` | kernel/src/process.c:258-293 | creation keeps shape, forest and waits |
| `ProcessLaws.ReleaseForest` | kernel/src/process.c:182-196 | collecting a process keeps the parent forest if and only if it has no children left |
| `ProcessLaws.ReleaseWaits` | kernel/src/process.c:182-196 | collecting a zombie keeps every wait sound |
| `ProcessLaws.BlockKeeps` | kernel/src/process.c:759-767 | a wait that blocks waits for a listed, live child of the caller |
| `ProcessLaws.CallKeeps` | kernel/src/process.c:751-802 | every allowed call keeps shape and waits, and the forest under childless collection |
| `ProcessLaws.RunKeeps` | kernel/src/process.c:849-903 | between ticks of every allowed run: ascending list with the kernel first, blank unused slots, every waiting process has a live target that is its child, and the forest under childless collection |
| `CallMeanings.CreateMeaning` | kernel/src/process.c:258-293 | a process is created exactly when a slot is free and memory is found: in the lowest free slot, last in the list, under the next pid, ready, with the given owner and entry, child of the caller and blank otherwise; without memory only a pid is used up |
| `CallMeanings.ForkMeaning` | kernel/src/process.c:699-727 | exactly a listed process other than the kernel and with an entry is forked; the child is its child with its owner and last signal |
| `CallMeanings.ForkNobody` | kernel/src/process.c:703-705 | forking a pid that nobody has is refused without a change |
| `CallMeanings.WaitAnswers` | kernel/src/process.c:751-779 | refused, blocking and collecting, each as an if-and-only-if over pid, parent and status; the kernel may wait for anyone; the code returned is that of the zombie |
| `CallMeanings.WaitBlocks` | kernel/src/process.c:755-767 | a refused wait changes nothing; one that blocks changes the caller alone, and the kernel goes on running |
| `CallMeanings.WaitCollects` | kernel/src/process.c:769-778 | exactly the collected slot is blanked and unlisted, the cursor leaves it, a waiting caller becomes a thread, and nothing else changes |
| `CallMeanings.ExitMeaning` | kernel/src/process.c:786-802 | a live process other than the kernel ends with exactly its code, and exactly a parent that waits for it becomes ready; otherwise an exit has no effect |
| `CallMeanings.SignalMeaning` | kernel/src/process.c:198-210 | done exactly when a listed process has the pid, the sender is root's, itself or of the same owner, and fewer than 15 signals are pending; then exactly that signal is appended; otherwise nothing changes |
| `CallMeanings.SendMeaning` | kernel/src/process.c:637-655 | with fewer than seven values pending the value is appended, and signal 17 with it while fewer than 15 are pending, which alone decides the answer; otherwise nothing changes |
| `CallMeanings.ReceiveMeaning` | kernel/src/process.c:657-671 | the oldest value comes out and is recorded; an empty socket refuses |
| `CallMeanings.ReceiveAll` | kernel/src/process.c:657-671 | as many receives as values are pending return them all in order |
| `CallMeanings.SentArrives` | kernel/src/process.c:637-671 | a value sent is what the receiver reads after the values sent before it |
| `Scheduling.PickIsNearest` | kernel/src/process.c:826-847 | if anyone can run, the picker returns the nearest runnable process after the cursor |
| `Scheduling.NoCircularWait` | kernel/src/process.c:751-779 | along any chain of waiting processes the pid strictly grows, so no chain closes |
| `Scheduling.WaitLeadsToActive` | kernel/src/process.c:751-802 | following the waits from any waiting process ends at one that neither waits nor has ended |
| `Scheduling.NoWaitDeadlock` | kernel/src/process.c:826-847 | while anyone waits the picker finds a process, unless an active process was created without an entry |
| `Scheduling.TickMovesCloser` | kernel/src/process.c:849-877 | a tick picks the process or brings the cursor strictly closer to it |
| `Scheduling.BoundedWaiting` | kernel/src/process.c:826-877 | while the list is unchanged, a process that stays runnable is picked within as many ticks as the cursor is steps away, at most the length of the list |
| `Zombies.DeliverMeaning` | kernel/src/process.c:576-603 | a live process is handed its signals up to and including the first TERM or KILL, which ends it with 128 plus the signal; without one, all of them |
| `Zombies.DeliverToZombie` | kernel/src/process.c:584-599 | a zombie is handed one signal at a time, to no effect on status and exit code |
| `Zombies.DeliverToKernel` | kernel/src/process.c:786-790 | the kernel process is handed everything and survives |
| `Deliveries.DeliverOne` | kernel/src/process.c:576-603 | delivery, process by process: what the target's queue makes of it, and a waiting parent woken exactly when it dies |
| `Deliveries.DeliverAllMeaning` | kernel/src/process.c:879-889 | told by the queues before: the kernel's is emptied; a zombie loses one signal; a live process with TERM or KILL pending is a zombie with 128 plus the first of them and what came behind it still queued; any other has an empty queue and its status, unless it waits and its child dies here |
| `Deliveries.DeliverAllKeeps` | kernel/src/process.c:879-889 | nothing but queues, statuses, codes and the record of the last signal changes, and that record is of the last signal handed over |
| `Turns.StartedMeaning` | kernel/src/process.c:849-868 | when the picked process gets the processor all pending signals have been delivered, cursor and current process are its own, and it runs |
| `Turns.QueuesEmpty` | kernel/src/process.c:891-903 | at that moment no live process has a signal pending |
| `Turns.DispatchMeaning` | kernel/src/process.c:857-868 | whatever is pending for it, the picked process is handed its signals first and runs unless it then waits or has ended |
| `Turns.TickMeaning` | kernel/src/process.c:891-903 | a tick is delivery, the calls of the picked process if there is one, and the way back to the kernel |
| `Turns.SettleMeaning` | kernel/src/process.c:870-875 | on the way back a process that still runs becomes ready, the kernel is current, and nothing else changes |
| `Turns.RunRests` | kernel/src/process.c:849-903 | between the events of every allowed run the kernel is current and nobody has the status of a running process |
| `Zombies.ZombiesAreFinal` | kernel/src/process.c:751-802 | after any run in which no zombie waits for a live child, an ended process is still there with its first exit code, or was collected exactly once with that code and its pid is never found again |
| `Exits.ExitCodeReturned` | kernel/src/process.c:751-802 | in any allowed run, what a live process exits with is what every later wait that collects it returns, and at most one does; until then it stays a zombie with that code |
| `Exits.KillLands` | kernel/src/process.c:576-621 | a TERM or KILL sent with success to a live process makes it, with the next tick and whatever runs in it, a zombie with the code of the first fatal signal in its queue, which every later wait returns |
| `Exits.FatalTick` | kernel/src/process.c:879-903 | the same from any queue that holds a fatal signal |
| `Zombies.WaitRevives` | kernel/src/process.c:759-766 | a wait takes its caller out of the zombie state if and only if the target is a live child of the caller |
| `Zombies.SocketSendReport` | kernel/src/process.c:637-655 | the value is queued exactly when the socket has room; failure is reported although it was queued if and only if the signal queue is full |
| `Orphans.OrphansDeadlock` | kernel/src/process.c:182-196 | a concrete run with one collection of a process that still has a child: its slot is reused, two processes with entries wait for each other, and nobody can run |
| `Lists.Unlink` | kernel/src/process.c:85-103 | cutting an element out of a linked list leaves the links spelling out the rest |
| `Lists.Append` | kernel/src/process.c:69-83 | writing the last link appends to the list |
| `Lists.Push` | kernel/src/process.c:105-121 | linking in front of the head prepends to the list |
| `ProcessTable.Table.constructor` | kernel/src/process.c:337-364 | the zeroed table with the kernel in slot 0 stands for the booted machine |
| `ProcessTable.Table.FindFreeSlot` | kernel/src/process.c:54-67 | the search over the table finds the lowest unused slot |
| `ProcessTable.Table.AllocateSlot` | kernel/src/process.c:54-67 | exactly that slot is zeroed and marked used |
| `ProcessTable.Table.LinkGlobal` | kernel/src/process.c:69-83 | the walk to the tail appends the process to the list from process_head |
| `ProcessTable.Table.UnlinkGlobal` | kernel/src/process.c:85-103 | exactly the process leaves the list and no other process changes; a process that is not in the list changes nothing |
| `ProcessTable.Table.LinkChild` | kernel/src/process.c:105-121 | the process becomes the first of its parent's children |
| `ProcessTable.Table.UnlinkChild` | kernel/src/process.c:123-147 | exactly the process leaves its parent's list; all other children lists keep their members |
| `ProcessTable.Table.Create` | kernel/src/process.c:258-293 | the linked table does what the model's creation does, keeping children lists exact |
| `ProcessTable.Table.Fork` | kernel/src/process.c:699-727 | the linked table does what the model's fork does |
| `ProcessTable.Table.Release` | kernel/src/process.c:182-196 | the linked table does what the model's release does; children lists stay exact if the process was childless |
| `ProcessTable.Table.GetByPid` | kernel/src/process.c:381-393 | the list walk finds what the model finds |
| `ProcessTable.Table.Exit` | kernel/src/process.c:786-802 | does to the table what the model's exit does to the machine |
| `ProcessTable.Table.Deliver` | kernel/src/process.c:576-603 | does what the model's delivery does, and counts the signals handed over |
| `ProcessTable.Table.DeliverAll` | kernel/src/process.c:879-889 | delivers to every listed process in list order |
| `ProcessTable.Table.Queue` | kernel/src/process.c:553-574 | appends to the signal queue while fewer than 15 are pending |
| `ProcessTable.Table.SendSignal` | kernel/src/process.c:605-614 | queues exactly when the target exists, the sender may signal it and there is room |
| `ProcessTable.Table.SocketSend` | kernel/src/process.c:637-655 | does what the model's socket_send does, with its misleading report |
| `ProcessTable.Table.SocketReceive` | kernel/src/process.c:657-671 | the oldest value comes out, or failure with no change |
| `ProcessTable.Table.PendingCounts` | kernel/src/process.c:673-697 | both counts are the lengths of the queues |
| `ProcessTable.Table.Wait` | kernel/src/process.c:751-779 | does what the model's wait does: refuse, block, or collect with the exit code |
| `ProcessTable.Table.PickNext` | kernel/src/process.c:826-847 | the circular walk terminates and returns what the model picks |
| `ProcessTable.Table.Dispatch` | kernel/src/process.c:857-868 | cursor, current process, delivery and status as in the model |
| `ProcessTable.Table.Settle` | kernel/src/process.c:870-875 | a process still running becomes ready and the kernel is current again |
| `ProcessTable.Table.Tick` | kernel/src/process.c:849-903 | one tick over the linked table is one tick of the model |
| `ProcessTable.Table.RunEvents` | kernel/src/process.c:849-903 | every run over the linked table is a run of the model; with childless collection each children list stays exactly the processes naming its owner parent |
| `ProcessTable.BootAndRun` | kernel/src/process.c:337-364 | from boot, every allowed run ends with list shape, forest, sound waits and exact children lists |
| `KernelSystem.System.Boot` | kernel/src/main.c:444-475 | memory and process table agree after boot |
| `KernelSystem.System.Create` | kernel/src/process.c:258-293 | a process is created exactly when a slot is free and so are five frames below 16 MB, and takes exactly five; panic and stray access exactly as for its memory |
| `KernelSystem.System.ForkListed` | kernel/src/process.c:699-727 | a fork succeeds exactly when a slot is free and so are five frames below 16 MB, and takes exactly five; panic and stray access exactly as for its memory |
| `KernelSystem.System.Wait` | kernel/src/process.c:751-779 | collecting a process gives back exactly its five frames; any other wait touches no memory |
| `KernelSystem.System.SwitchTo` | kernel/src/process.c:857-868 | a picked process that runs does so in its own address space, and one that waits or has ended leaves the kernel's in place |
| `KernelSystem.System.PerformCall` | kernel/src/process.c:155-293 | a call is the model's call, with a creation finding memory exactly when five frames below 16 MB are free; where it cannot go on, the reason is named; frames in use move by five for each process that joins or leaves the list |
| `KernelSystem.System.TickOnce` | kernel/src/process.c:849-903 | a tick with real memory is the model's tick of the same calls, begins and ends in the kernel's address space, and stops only inside a call that cannot go on |
| `KernelSystem.System.RunSystem` | kernel/src/process.c:849-903 | any run of kernel calls, ticks, vmalloc and vfree is carried out action by action, each doing what it should to processes and memory, up to the end or to the first action that cannot go on, for a named reason; a whole run leaves memory sound with exactly the listed processes holding memory, is the model's run of the same calls, and keeps the process invariants whenever that run is allowed |
| `Terminal.TypeKeeps` | kernel/src/main.c:122-172 | every character keeps all cells at or after the cursor blank |
| `Terminal.TypeAllKeeps` | kernel/src/main.c:174-178 | so does every stream |
| `Terminal.NewlineMeaning` | kernel/src/main.c:144-156 | a newline, wherever it is typed, resets the column and steps down; in the last of the 200 lines the text moves up instead |
| `Terminal.PrintMeaning` | kernel/src/main.c:158-171 | a printed character goes into the cell of the cursor, which moves right, and from column 79 on as after a newline |
| `Terminal.EraseMeaning` | kernel/src/main.c:132-141 | a backspace steps back one cell, over the end of the line above if need be, and blanks the cell it comes to |
| `Terminal.WrittenStands` | kernel/src/main.c:174-178 | a text without control characters that fits into the line stands there, and everything else is as before |
| `Terminal.StartMeaning` | kernel/src/main.c:34-36 | the cursor's line is the last visible one, or the display starts at the top |
| `Terminal.WindowMeaning` | kernel/src/main.c:188-191 | cell by cell, the window is the 25 lines from the given one on |
| `Terminal.BackspaceUndoes` | kernel/src/main.c:132-171 | a backspace takes back a printed character if and only if printing it did not scroll the whole buffer |
| `Terminal.ScrolledWindow` | kernel/src/main.c:65-73 | scrolling video memory agrees with a full refresh when the line coming into view is blank |
| `Terminal.StaleWindow` | kernel/src/main.c:132-142 | after a backspace at column 0 below the first screen, video memory is the new window if and only if the lines in view were uniform |
| `Terminal.StaleExample` | kernel/src/main.c:132-142 | one printed character a line above the window is enough for a stale display |
| `Terminal.Display.ScrollBuffer` | kernel/src/main.c:55-62 | the buffer moves up one line with a blank last line |
| `Terminal.Display.VgaScroll` | kernel/src/main.c:65-73 | video memory moves up one line with a blank last line |
| `Terminal.Display.Refresh` | kernel/src/main.c:180-193 | video memory becomes the window that ends scroll_offset lines above the live one |
| `Terminal.Display.PutcharAt` | kernel/src/main.c:105-113 | the cell changes in the buffer, and in video memory exactly when the live view shows it |
| `Terminal.Display.NewLine` | kernel/src/main.c:144-156 | the cursor goes to the next line and video memory shows the live window |
| `Terminal.Display.Putchar` | kernel/src/main.c:122-172 | the text changes as the model says; video memory equals the live window except exactly after a backspace at column 0 below the first screen over lines that are not uniform |
| `Terminal.Display.Write` | kernel/src/main.c:174-178 | for every stream without such a backspace, video memory equals the live window throughout |
| `Terminal.Display.ScrollUp` | kernel/src/main.c:195-202 | the offset, in 32-bit arithmetic, stays within the history and video memory shows that window |
| `Terminal.Display.ScrollDown` | kernel/src/main.c:204-211 | the offset drops, not below 0, and video memory shows that window |

## Left out

- Ports, PIC, PIT, serial line and cursor registers: device behaviour with no invariant inside the kernel.
- CR0 and CR3 loads, TLB flushes, interrupt stubs and the context-switch assembly: a switch is one step of the model.
- GDT and IDT setup: fixed constants.
- The shell, the panic screen and the dump printers: user interface.
- `kmalloc_aligned`: nothing calls it, and its result is not a pointer that `kfree` accepts.
- `vbrk`: nothing calls it; the break is proved to track the highest region without it.
- Custom signal handlers and kernel signal callbacks: the default handler is modelled, and dispatch records what is handled.
- `exec_fn` with a caller-chosen base, and the demo processes and their spawners: only the default slot addresses are modelled.
- The wrap-around of pids, tick and switch counters, `rights`, `runtime_*` fields and run statistics of a process.
- Scancode decoding: the keyboard model starts from characters.
- The walk over the memory map by entry size: the map is a sequence of entries; the upper halves of addresses and lengths are
  present in the entry and ignored, as in the code.
- KernelMemory.Kernel.ProcessMemoryMap: the four calls of alloc_process_page are one loop over four pages.
- KernelMemory.Kernel.Vmalloc: requests that wrap 32 bits are outside its contract; VmallocModel.RoundingCovers and
  VmallocModel.RangeCheck say exactly which they are.
- `socket_create` as a call: only creation makes it, on a socket that is empty already.
- ProcessTable.Table.Wait: the parent is the current process, which is what every caller passes.
- Kmalloc.KernelHeap.Kfree: the header of a pointer is read at that address modulo 2^32 in a memory whose unwritten bytes are
  0; that a read or write at an unmapped address faults, which is a panic, is not modelled.
- The fields of a region descriptor as bytes of the heap: the list of regions is a sequence, and each region keeps its block.
- Reads and writes of user programs: isolation is stated about what the page walk lets them reach.
- The colour of cells, which is one constant after start-up, and the start-up header.
