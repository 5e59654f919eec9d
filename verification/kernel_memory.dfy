/** The memory side of the kernel: paging, vmalloc and process pages over one frame allocator and one heap
    (kernel/src/paging.c, kernel/src/vmalloc.c and the memory functions of kernel/src/process.c). */
module KernelMemory {
  import opened Words
  import opened Paging
  import opened Ownership
  import opened VmallocModel
  import opened FrameBudget
  import opened MemoryLaws
  import opened ProcessHeap
  import Pmm
  import Kmalloc
  import HeapModel
  import HeapMemory

  class Kernel {
    const L: Layout
    const pmm: Pmm.FrameAllocator
    const heap: Kmalloc.KernelHeap
    var ram: Ram
    var current: nat
    var regions: seq<Region>
    var vmallocCurrent: nat
    var totalRegions: nat
    var totalPages: nat
    var procs: seq<ProcMem>

    /** The allocator is sound, every frame has at most one owner, and the current directory is one of ours. */
    ghost predicate FramesOk()
      reads this`ram, this`procs, this`current, pmm, pmm.bitmap
    {
      && pmm.Valid() && pmm.totalFrames == L.total && Inv(L, ram, pmm.used, procs)
      && CurrentOk(L, procs, current)
    }

    ghost predicate RegionsTracked()
      reads this`ram, this`regions, this`vmallocCurrent, this`totalRegions, this`totalPages
    {
      && VInv(L, ram, regions, vmallocCurrent)
      && totalRegions == |regions| && totalPages == SumPages(regions)
    }

    ghost predicate Valid()
      reads this, pmm, pmm.bitmap, heap
    {
      FramesOk() && heap.Valid() && RegionsTracked() && MetaOk(regions, heap.Live())
    }

    /** Frames that pmm_alloc_frame can still hand out. */
    ghost function Available(): set<nat>
      reads pmm
    {
      FreeFrames(pmm.ScanLimit(), pmm.used)
    }

    /** Those of them in the identity map. */
    ghost function Low(): set<nat>
      reads pmm
    {
      LowFrames(pmm.ScanLimit(), pmm.used)
    }

    /** Everything the operations below work on. */
    ghost function Now(): MemoryState
      reads this, pmm, heap
    {
      MemoryState(ram, pmm.used, procs, regions, vmallocCurrent, heap.View())
    }

    // ---- Boot ----

    /** The static data before boot; memory is whatever RAM held. */
    constructor (layout: Layout, memory: Ram, bytes: HeapMemory.Mem)
      requires LayoutOk(layout)
      ensures L == layout && ram == memory && fresh(pmm) && fresh(pmm.bitmap) && fresh(heap)
      ensures pmm.bitmap.Length == Pmm.BITMAP_SIZE && heap.Valid() && heap.blocks == []
    {
      L := layout;
      pmm := new Pmm.FrameAllocator();
      heap := new Kmalloc.KernelHeap(layout.kernelEnd * PAGE_SIZE, bytes);
      ram, current := memory, 0;
      regions, vmallocCurrent, totalRegions, totalPages, procs := [], 0, 0, 0, [];
    }

    /** pmm_init, paging_init, the heap reservation of kmalloc_init, vmalloc_init and the memory part of
        process_init. */
    method Boot(info: Pmm.BootInfo)
      requires info.WordSized() && LayoutOk(L) && RamOk(ram) && |ram| == L.frames
      requires L.total == info.TotalMemory() / PAGE_SIZE && pmm.bitmap.Length == Pmm.BITMAP_SIZE
      requires info.kernelStart == 0x10_0000 && info.kernelEnd == L.kernelEnd * PAGE_SIZE
      requires heap.Valid()
      modifies this, pmm, pmm.bitmap
      ensures Valid() && current == L.kdir && regions == [] && procs == seq(SLOTS, i => NO_MEMORY)
      ensures forall vp: nat | vp < PAGES ::
                Lookup(ram, L.kdir, vp) == if vp < VMALLOC_PAGE then Word(vp, PAGE_KERNEL) else 0
      ensures vmallocCurrent == VMALLOC_START && forall i: nat | 4 <= i < ENTRIES :: !HasTable(ram, L.kdir, i)
    {
      InitFrames(info);
      PagingInit();
      regions, vmallocCurrent, totalRegions, totalPages := [], VMALLOC_START, 0, 0;
      procs := seq(SLOTS, i => NO_MEMORY);
      BootInv(L, ram, pmm.used, procs);
    }

    /** pmm_init, and the reservation of the heap range by kmalloc_init. */
    method InitFrames(info: Pmm.BootInfo)
      requires info.WordSized() && LayoutOk(L) && pmm.bitmap.Length == Pmm.BITMAP_SIZE
      requires L.total == info.TotalMemory() / PAGE_SIZE
      requires info.kernelStart == 0x10_0000 && info.kernelEnd == L.kernelEnd * PAGE_SIZE
      modifies pmm, pmm.bitmap
      ensures pmm.Valid() && pmm.totalFrames == L.total
      ensures forall f: nat | f < L.total && Reserved(L, f) :: f in pmm.used
    {
      pmm.Init(info);
      ghost var booted := pmm.used;
      pmm.MarkRegionUsed((L.kernelEnd + 16) * 4096, 8 * 1024 * 1024);
      assert forall f: nat | f < L.total && info.KeptBack(f) :: f in booted;
      BootReserves(info, L, pmm.used);
    }

    /** paging_init: the directory is cleared and the first 16 MB are mapped to themselves. */
    method PagingInit()
      requires LayoutOk(L) && RamOk(ram) && |ram| == L.frames
      modifies this`ram, this`current
      ensures RamOk(ram) && |ram| == L.frames && current == L.kdir
      ensures IdentityMapped(L, ram, 4) && (forall i: nat | 4 <= i :: Entry(ram, L.kdir, i) == 0)
    {
      ram := ram[L.kdir := ZeroPage()];
      for i := 0 to 4
        invariant RamOk(ram) && |ram| == L.frames
        invariant IdentityMapped(L, ram, i) && (forall k: nat | i <= k :: Entry(ram, L.kdir, k) == 0)
      {
        ghost var before := ram;
        FillIdentityTable(i);
        ghost var filled := ram;
        assert filled[L.kdir] == before[L.kdir];
        assert forall k: nat :: Entry(filled, L.kdir, k) == Entry(before, L.kdir, k);
        ram := Store(ram, L.kdir, i, Word(StaticTable(L, i), PAGE_KERNEL));
        assert forall k: nat | k != i :: Entry(ram, L.kdir, k) == Entry(filled, L.kdir, k);
      }
      current := L.kdir;
    }

    /** The inner loop of paging_init. */
    method FillIdentityTable(i: nat)
      requires LayoutOk(L) && RamOk(ram) && |ram| == L.frames && i < 4
      modifies this`ram
      ensures ram == old(ram)[StaticTable(L, i) := IdentityPage(i)]
    {
      var t := StaticTable(L, i);
      for j := 0 to ENTRIES
        invariant |ram| == |old(ram)| && |ram[t]| == ENTRIES && ram[t][..j] == IdentityPage(i)[..j]
        invariant forall g: nat | g < |ram| && g != t :: ram[g] == old(ram)[g]
      {
        ram := Store(ram, t, j, Word(i * 1024 + j, PAGE_KERNEL));
      }
      assert ram[t] == ram[t][..ENTRIES] && IdentityPage(i) == IdentityPage(i)[..ENTRIES];
    }

    // ---- Frames and page tables ----

    /** pmm_alloc_frame, as a frame number; 0 is out of memory. */
    method TakeFrame() returns (f: nat)
      requires FramesOk()
      modifies pmm`usedFrames, pmm`used, pmm.bitmap
      ensures FramesOk() && (f == 0 <==> old(Available()) == {})
      ensures f == 0 ==> pmm.used == old(pmm.used)
      ensures f != 0 ==>
                && f !in old(pmm.used) && f < L.total && pmm.used == old(pmm.used) + {f} && f in old(Available())
                && !Reserved(L, f) && Unheld(L, ram, procs, f) && (f < VMALLOC_PAGE <==> |old(Low())| > 0)
                && |Available()| == |old(Available())| - 1 && |Low()| == Less(|old(Low())|, 1)
    {
      hide Inv, Reserved, Unheld;
      ZeroIsTaken(L, ram, pmm.used, procs);
      ghost var was := Available();
      var address := pmm.AllocFrame();
      f := Pfn(address);
      if f != 0 {
        TakeKeeps(L, ram, old(pmm.used), procs, f);
        assert f in was && forall g | g in was :: f <= g;
        TakeLowest(pmm.ScanLimit(), old(pmm.used), f);
      }
    }

    /** paging_get_or_create_table. The value is the frame of the table. A table that has to be made is cleared through
        its physical address, which is astray when the frame lies above the identity map. */
    method GetOrCreateTable(dir: nat, vp: nat, flags: nat, ghost frame: nat) returns (r: Outcome, ghost t: nat)
      requires FramesOk() && IsDirectory(L, dir) && dir < |ram| && frame < |ram| && 4 <= DirIndex(vp)
      requires HasTable(ram, dir, DirIndex(vp)) ==> 0 < TableOf(ram, dir, DirIndex(vp)) < |ram|
      modifies this`ram, pmm`usedFrames, pmm`used, pmm.bitmap
      ensures pmm.Valid() && t < |old(ram)| && (r.Done? || r.Halted? || r.Stray?)
      ensures r.Halted? <==> !HasTable(old(ram), dir, DirIndex(vp)) && old(Available()) == {}
      ensures r.Stray? <==> !HasTable(old(ram), dir, DirIndex(vp)) && old(Available()) != {} && old(Low()) == {}
      ensures r.Halted? ==> ram == old(ram)
      ensures r.Done? ==> ram == WithTable(old(ram), dir, vp, flags, t) && r.value == TableFor(old(ram), dir, vp, t)
      ensures HasTable(old(ram), dir, DirIndex(vp)) ==> t == frame && pmm.used == old(pmm.used)
      ensures r.Done? && !HasTable(old(ram), dir, DirIndex(vp)) ==>
                && t !in old(pmm.used) && 0 < t < L.total && t < VMALLOC_PAGE && pmm.used == old(pmm.used) + {t}
                && t in old(Available()) && !Reserved(L, t) && Unheld(L, old(ram), procs, t)
                && |Available()| == |old(Available())| - 1 && |Low()| == Less(|old(Low())|, 1)
    {
      hide Inv, Reserved, Unheld, Lookup, CurrentOk, Pmm.FrameAllocator.Valid;
      t := frame;
      var i := DirIndex(vp);
      LayoutTables(L, ram, pmm.used, procs, dir);
      if !Present(ram[dir][i]) {
        var table := TakeFrame();
        if table == 0 {
          return Halted, t;
        }
        FreshReached(L, ram, pmm.used, procs, current, table);
        if !Reaches(ram, current, table) {
          return Stray, t;
        }
        t := table;
        ram := ram[Frame(Lookup(ram, current, table)) := ZeroPage()];
        ram := Store(ram, dir, i, table * 4096 + PAGE_KERNEL + if User(flags) then 4 else 0);
        r := Done(table);
      } else {
        OrUserParts(ram[dir][i]);
        if User(flags) {
          ram := Store(ram, dir, i, OrUser(ram[dir][i]));
        }
        r := Done(Frame(ram[dir][i]));
      }
    }

    /** paging_map_page_in_directory, whose table is written through its physical address. With the table missing, it
        halts exactly when no frame is left and strays exactly when none is left in the identity map. */
    method MapPageInDirectory(dir: nat, vp: nat, frame: nat, flags: nat) returns (r: Outcome, ghost t: nat)
      requires FramesOk() && IsDirectory(L, dir) && dir < |ram| && frame < |ram| && !Reserved(L, frame)
               && 4 <= DirIndex(vp)
      requires HasTable(ram, dir, DirIndex(vp)) ==>
                 0 < TableOf(ram, dir, DirIndex(vp)) < |ram| && TableOf(ram, dir, DirIndex(vp)) < VMALLOC_PAGE
      modifies this`ram, pmm`usedFrames, pmm`used, pmm.bitmap
      ensures pmm.Valid() && t < |old(ram)| && (r.Done? || r.Halted? || r.Stray?)
      ensures r.Halted? <==> !HasTable(old(ram), dir, DirIndex(vp)) && old(Available()) == {}
      ensures r.Stray? <==> !HasTable(old(ram), dir, DirIndex(vp)) && old(Available()) != {} && old(Low()) == {}
      ensures r.Done? ==> ram == MapIn(old(ram), dir, vp, frame, flags, t)
      ensures HasTable(old(ram), dir, DirIndex(vp)) ==> t == frame && pmm.used == old(pmm.used)
      ensures r.Done? && !HasTable(old(ram), dir, DirIndex(vp)) ==>
                && t !in old(pmm.used) && 0 < t < L.total && t < VMALLOC_PAGE && pmm.used == old(pmm.used) + {t}
                && t in old(Available()) && !Reserved(L, t) && Unheld(L, old(ram), procs, t)
                && |Available()| == |old(Available())| - 1 && |Low()| == Less(|old(Low())|, 1)
    {
      hide Inv, Reserved, Unheld, Lookup, CurrentOk, WithTable, Pmm.FrameAllocator.Valid, DirIndex, TableIndex;
      r, t := GetOrCreateTable(dir, vp, flags, frame);
      if r.Done? {
        TableStillReached(L, old(ram), old(pmm.used), procs, current, dir, vp, flags, t, r.value);
        ram := Store(ram, Frame(Lookup(ram, current, r.value)), TableIndex(vp), Word(frame, flags));
      }
    }

    // ---- vmalloc ----

    /** One page of vmalloc: a frame, its mapping and its clearing, which goes through the new mapping. */
    method MapOnePage(vp: nat) returns (r: Outcome, ghost f: nat, ghost t: nat)
      requires FramesOk() && current == L.kdir && VMALLOC_PAGE <= vp < PAGES && Lookup(ram, L.kdir, vp) == 0
      requires DirIndex(vp) != REGION_DIR || NobodyLives(procs)
      modifies this`ram, pmm`usedFrames, pmm`used, pmm.bitmap
      ensures r.Failed? <==> old(Available()) == {}
      ensures r.Halted? <==> |old(Available())| == 1 && !HasTable(old(ram), L.kdir, DirIndex(vp))
      ensures r.Stray? <==>
                |old(Available())| >= 2 && !HasTable(old(ram), L.kdir, DirIndex(vp)) && |old(Low())| < 2
      ensures !r.Outside? && (r.Failed? ==> FramesOk() && ram == old(ram) && pmm.used == old(pmm.used))
      ensures r.Done? ==>
                && pmm.Valid() && pmm.totalFrames == L.total
                && Mappable(L, old(ram), old(pmm.used), procs, vp, f, t)
                && WfSpace(old(ram), L.kdir) && f < |old(ram)| && t < |old(ram)|
                && ram == MapAndClear(L, old(ram), vp, f, t) && pmm.used == old(pmm.used) + {f} + {t}
                && TookFrames(if HasTable(old(ram), L.kdir, DirIndex(vp)) then 1 else 2)
    {
      hide Inv, MapIn, WfSpace, Entry, Lookup, TableOf, HasTable, Reserved, Unheld;
      f, t := 0, 0;
      KernelTableFrame(L, ram, pmm.used, procs, vp);
      var frame := TakeFrame();
      if frame == 0 {
        return Failed, f, t;
      }
      f := frame;
      DirIndexRange(vp);
      r, t := MapPageInDirectory(current, vp, frame, PAGE_KERNEL);
      if !r.Done? {
        return;
      }
      MappedFrame(L, old(ram), old(pmm.used), procs, vp, f, t);
      ram := ram[Frame(Lookup(ram, current, vp)) := ZeroPage()];
      r := Done(frame);
    }

    /** The allocator handed out n frames, those of the identity map first. */
    twostate predicate TookFrames(n: nat)
      reads pmm
    {
      |Available()| == |old(Available())| - n && |Low()| == Less(old(|Low()|), n)
    }

    /** One page of a rollback or of vfree: look up the frame, unmap, free. The walk in software and the store reach
        the table through its physical address. */
    method UnmapOnePage(vp: nat)
      requires FramesOk() && current == L.kdir && VMALLOC_PAGE <= vp < PAGES && Lookup(ram, L.kdir, vp) != 0
      modifies this`ram, pmm`usedFrames, pmm`used, pmm.bitmap
      ensures FramesOk() && WfSpace(old(ram), L.kdir) && ram == UnmapIn(old(ram), L.kdir, vp)
      ensures pmm.used == old(pmm.used) - {Frame(Lookup(old(ram), L.kdir, vp))}
    {
      UnmapAndFreeKeeps(L, ram, pmm.used, procs, vp);
      KernelPointers(L, ram, pmm.used, procs, vp);
      PfnOfFrame(Frame(Lookup(ram, current, vp)));
      var phys := PhysicalThrough(ram, current, current, vp, 0);
      ram := UnmapThrough(ram, current, current, vp).ram;
      pmm.FreeFrame(phys);
    }

    /** One iteration of the rollback loop. */
    method UndoPage(vp: nat, ghost ram0: Ram, ghost used0: set<nat>, ghost left: seq<nat>)
      requires FramesOk() && current == L.kdir && VMALLOC_PAGE <= vp && vp + |left| <= PAGES && left != []
      requires Partial(L, ram0, used0, ram, pmm.used, vp, left) && Lookup(ram0, L.kdir, vp) == 0
      modifies this`ram, pmm`usedFrames, pmm`used, pmm.bitmap
      ensures FramesOk() && Partial(L, ram0, used0, ram, pmm.used, vp + 1, left[1..])
    {
      hide Inv, Partial;
      RollbackStep(L, ram0, used0, ram, pmm.used, procs, vp, left);
      UnmapOnePage(vp);
    }

    /** The rollback loop of vmalloc, over the pages mapped so far. */
    method Rollback(first: nat, n: nat, ghost ram0: Ram, ghost used0: set<nat>, ghost taken: seq<nat>)
      requires FramesOk() && current == L.kdir && VMALLOC_PAGE <= first && first + n <= PAGES && n == |taken|
      requires Partial(L, ram0, used0, ram, pmm.used, first, taken)
      requires forall vp: nat | first <= vp < first + n :: Lookup(ram0, L.kdir, vp) == 0
      modifies this`ram, pmm`usedFrames, pmm`used, pmm.bitmap
      ensures FramesOk() && Undone(L, ram0, used0, ram, pmm.used)
    {
      hide Inv, Partial, Undone;
      var vp := first;
      ghost var left := taken;
      for j := 0 to n
        invariant vp == first + j && |left| == n - j
        invariant FramesOk() && Partial(L, ram0, used0, ram, pmm.used, vp, left)
      {
        UndoPage(vp, ram0, used0, left);
        vp := vp + 1;
        left := left[1..];
      }
      PartialIsUndone(L, ram0, used0, ram, pmm.used, vp);
    }

    /** One iteration of the mapping loop, on top of the pages already taken. */
    method MapNextPage(vp: nat, ghost first: nat, ghost n: nat, ghost ram0: Ram, ghost used0: set<nat>,
                       ghost taken: seq<nat>)
      returns (r: Outcome, ghost f: nat)
      requires FramesOk() && current == L.kdir && VMALLOC_PAGE <= first && first + n <= PAGES
      requires Partial(L, ram0, used0, ram, pmm.used, first, taken) && vp == first + |taken| < first + n
      requires TablesFor(L, ram0, ram, first, |taken|)
      requires forall vq: nat | first <= vq < first + n :: Lookup(ram0, L.kdir, vq) == 0
      requires NobodyLives(procs) || first + n <= REGION_PAGE
      modifies this`ram, pmm`usedFrames, pmm`used, pmm.bitmap
      ensures r.Done? ==> FramesOk() && Partial(L, ram0, used0, ram, pmm.used, first, taken + [f])
      ensures r.Done? ==> TablesFor(L, ram0, ram, first, |taken| + 1)
      ensures r.Failed? ==> FramesOk() && ram == old(ram) && pmm.used == old(pmm.used)
      ensures |taken| < |Needs(L, ram0, first, n)| == n
      ensures PageEnds(r, Needs(L, ram0, first, n)[|taken|], |old(Available())|, |old(Low())|)
      ensures r.Done? ==> TookFrames(if Needs(L, ram0, first, n)[|taken|] then 2 else 1)
    {
      hide Inv, OnlyNewTables, KeepsData, Took, TablesFor, NobodyLives, HasTable, Entry, Lookup, MapAndClear;
      BelowRegion(vp, first + n);
      NeedsNow(L, ram0, ram, first, n, |taken|, vp);
      assert Lookup(ram, L.kdir, vp) == Lookup(ram0, L.kdir, vp);
      ghost var t;
      r, f, t := MapOnePage(vp);
      if r.Done? {
        PartialStep(L, ram0, used0, old(ram), old(pmm.used), procs, first, taken, vp, f, t);
        MapTables(L, ram0, old(ram), old(pmm.used), procs, first, |taken|, vp, f, t);
      }
    }

    /** The mapping loop of vmalloc: n fresh pages from page first on, or a rollback. The free frames alone decide
        which of the four ways it ends. */
    method MapRegion(first: nat, n: nat) returns (r: Outcome, ghost taken: seq<nat>)
      requires FramesOk() && current == L.kdir && VMALLOC_PAGE <= first && first + n <= PAGES
      requires forall vp: nat | first <= vp < first + n :: Lookup(ram, L.kdir, vp) == 0
      requires NobodyLives(procs) || first + n <= REGION_PAGE
      modifies this`ram, pmm`usedFrames, pmm`used, pmm.bitmap
      ensures Ends(r, FateOf(Needs(L, old(ram), first, n), |old(Available())|, |old(Low())|))
      ensures r.Done? ==> FramesOk() && |taken| == n && Partial(L, old(ram), old(pmm.used), ram, pmm.used, first, taken)
      ensures r.Done? ==> TablesFor(L, old(ram), ram, first, n)
      ensures r.Done? ==> TookFrames(Cost(Needs(L, old(ram), first, n)))
      ensures r.Failed? ==> FramesOk() && Undone(L, old(ram), old(pmm.used), ram, pmm.used)
    {
      hide Inv, Partial, Undone, TablesFor, NobodyLives, Lookup, CurrentOk, Pmm.FrameAllocator.Valid, FateOf, Cost;
      ghost var ram0, used0 := ram, pmm.used;
      ghost var needs, free, low := Needs(L, ram, first, n), |Available()|, |Low()|;
      taken := [];
      PartialStart(L, ram, pmm.used, first);
      TablesStart(L, ram, first);
      FateStart(needs, free, low);
      for i := 0 to n
        invariant FramesOk() && |taken| == i && Partial(L, ram0, used0, ram, pmm.used, first, taken)
        invariant TablesFor(L, ram0, ram, first, i) && free == |Available()| + Cost(needs[..i])
        invariant |Low()| == Less(low, Cost(needs[..i]))
        invariant FateOf(needs, free, low) == FateOf(needs[i..], |Available()|, |Low()|)
      {
        ghost var f, n1, low1 := 0, |Available()|, |Low()|;
        FateStep(needs, i, n1, low1);
        r, f := MapNextPage(first + i, first, n, ram0, used0, taken);
        if r.Halted? || r.Stray? {
          return;
        }
        if r.Failed? {
          Rollback(first, i, ram0, used0, taken);
          return;
        }
        taken := taken + [f];
      }
      r := Done(0);
      FateEnd(needs, |Available()|, |Low()|);
    }

    /** vmalloc_highest_end. */
    method VmallocHighestEnd() returns (highest: nat)
      ensures highest == HighestEnd(regions)
    {
      highest := VMALLOC_START;
      for k := 0 to |regions|
        invariant highest == HighestEnd(regions[..k])
      {
        assert regions[..k + 1][..k] == regions[..k];
        var end := regions[k].virtAddr + regions[k].mappedSize;
        if end > highest {
          highest := end;
        }
      }
      assert regions[..|regions|] == regions;
    }

    /** vmalloc_find_region: the first region that starts at ptr, or the length of the list. */
    method FindRegion(ptr: nat) returns (k: nat)
      ensures k <= |regions| && (k < |regions| ==> regions[k].virtAddr == ptr)
      ensures forall j | 0 <= j < k :: regions[j].virtAddr != ptr
    {
      k := 0;
      while k < |regions|
        invariant k <= |regions| && forall j | 0 <= j < k :: regions[j].virtAddr != ptr
      {
        if regions[k].virtAddr == ptr {
          return;
        }
        k := k + 1;
      }
    }

    /** vsize. */
    method Vsize(ptr: nat) returns (size: nat)
      requires RegionsTracked()
      ensures forall k | 0 <= k < |regions| && regions[k].virtAddr == ptr :: size == regions[k].size
      ensures (forall k | 0 <= k < |regions| :: regions[k].virtAddr != ptr) ==> size == 0
    {
      if ptr == 0 {
        return 0;
      }
      var k := FindRegion(ptr);
      if k == |regions| {
        return 0;
      }
      SameStart(regions, k);
      return regions[k].size;
    }

    /** A region descriptor from the heap, as kmalloc(sizeof(vm_region_t)). */
    method NewDescriptor() returns (meta: nat)
      requires heap.Valid()
      modifies heap`heapEnd, heap`blockList, heap`mem, heap`totalAllocations, heap`blocks
      ensures heap.Valid() && (heap.View(), meta) == HeapModel.Alloc(old(heap.View()), 24)
      ensures meta == 0 ==> heap.Live() == old(heap.Live())
      ensures meta != 0 ==> meta !in old(heap.Live()) && heap.Live() == old(heap.Live()) + {meta}
    {
      HeapModel.AllocPayloads(heap.View(), 24);
      HeapModel.AllocKeeps(heap.View(), 24);
      meta := heap.Kmalloc(24);
    }

    /** vmalloc. It fails unless the range fits and the heap grants a descriptor, and then the free frames decide. Done
        maps fresh cleared pages at the old break, takes the frames that pages and missing tables cost, and changes no
        other translation; Failed leaves every translation, region, counter, live heap block and data frame as it was,
        apart from new page tables. The request must not wrap 32 bits, and must not reach the process region while a
        process is live. */
    method Vmalloc(size: nat) returns (r: Outcome, ghost taken: seq<nat>)
      requires Valid() && current == L.kdir && size + 4095 + vmallocCurrent < U32
      requires NobodyLives(procs) || vmallocCurrent + size <= REGION_PAGE * 4096
      modifies this`ram, this`regions, this`vmallocCurrent, this`totalRegions, this`totalPages
      modifies pmm`usedFrames, pmm`used, pmm.bitmap
      modifies heap`heapEnd, heap`blockList, heap`mem, heap`totalAllocations, heap`blocks, heap`totalFrees
      ensures VmallocEnds(L, pmm.ScanLimit(), old(Now()), size, r)
      ensures r.Done? ==>
                && Valid() && r.value == old(vmallocCurrent) && |taken| == PageCount(size) > 0
                && regions != [] && regions[0].virtAddr == old(vmallocCurrent) && regions[0].size == size
                && regions[0].numPages == PageCount(size) && regions[0].mappedSize == PageCount(size) * 4096
                && vmallocCurrent == old(vmallocCurrent) + PageCount(size) * 4096
                && Partial(L, old(ram), old(pmm.used), ram, pmm.used, old(vmallocCurrent) / 4096, taken)
                && TablesFor(L, old(ram), ram, old(vmallocCurrent) / 4096, PageCount(size))
                && TookFrames(Cost(Needs(L, old(ram), old(vmallocCurrent) / 4096, PageCount(size))))
                && heap.View() == HeapModel.Alloc(old(heap.View()), 24).0
                && (exists meta ::
                      && meta !in old(heap.Live()) && heap.Live() == old(heap.Live()) + {meta}
                      && regions == [NewRegion(meta, old(vmallocCurrent), size)] + old(regions))
      ensures r.Failed? ==>
                && Valid() && Undone(L, old(ram), old(pmm.used), ram, pmm.used) && heap.Live() == old(heap.Live())
                && regions == old(regions) && vmallocCurrent == old(vmallocCurrent)
                && totalRegions == old(totalRegions) && totalPages == old(totalPages)
    {
      hide Inv, Undone, VInv, Partial, Kmalloc.Realises, FateOf, Needs, HeapModel.Alloc, TablesFor, Cost;
      taken := [];
      NothingUndone(L, ram, pmm.used);
      if size == 0 {
        return Failed, taken;
      }
      var numPages := (size + PAGE_SIZE - 1) / PAGE_SIZE;
      var allocSize := numPages * PAGE_SIZE;
      if vmallocCurrent + allocSize > VMALLOC_END {
        return Failed, taken;
      }
      r, taken := AllocateRegion(size, numPages);
    }

    /** vmalloc once the range is known to fit. */
    method AllocateRegion(size: nat, numPages: nat) returns (r: Outcome, ghost taken: seq<nat>)
      requires Valid() && current == L.kdir && size + 4095 < U32 && numPages == PageCount(size) > 0
      requires vmallocCurrent + numPages * PAGE_SIZE <= VMALLOC_END
      requires NobodyLives(procs) || vmallocCurrent + size <= REGION_PAGE * 4096
      modifies this`ram, this`regions, this`vmallocCurrent, this`totalRegions, this`totalPages
      modifies pmm`usedFrames, pmm`used, pmm.bitmap
      modifies heap`heapEnd, heap`blockList, heap`mem, heap`totalAllocations, heap`blocks, heap`totalFrees
      ensures if HeapModel.Alloc(old(heap.View()), 24).1 == 0 then r.Failed?
              else
                var needs := Needs(L, old(ram), old(vmallocCurrent) / 4096, numPages);
                Ends(r, FateOf(needs, |old(Available())|, |old(Low())|))
      ensures r.Done? ==>
                && Valid() && r.value == old(vmallocCurrent) && |taken| == numPages
                && vmallocCurrent == old(vmallocCurrent) + numPages * 4096
                && Partial(L, old(ram), old(pmm.used), ram, pmm.used, old(vmallocCurrent) / 4096, taken)
                && TablesFor(L, old(ram), ram, old(vmallocCurrent) / 4096, numPages)
                && TookFrames(Cost(Needs(L, old(ram), old(vmallocCurrent) / 4096, numPages)))
                && heap.View() == HeapModel.Alloc(old(heap.View()), 24).0
                && (exists meta ::
                      && meta !in old(heap.Live()) && heap.Live() == old(heap.Live()) + {meta}
                      && regions == [NewRegion(meta, old(vmallocCurrent), size)] + old(regions))
      ensures r.Failed? ==>
                && Valid() && Undone(L, old(ram), old(pmm.used), ram, pmm.used) && heap.Live() == old(heap.Live())
                && regions == old(regions) && vmallocCurrent == old(vmallocCurrent)
                && totalRegions == old(totalRegions) && totalPages == old(totalPages)
    {
      hide Inv, Undone, VInv, Partial, Kmalloc.Realises, FateOf, Needs, HeapModel.Alloc, TablesFor, Cost;
      NothingUndone(L, ram, pmm.used);
      var meta := NewDescriptor();
      if meta == 0 {
        return Failed, [];
      }
      r, taken := MapAndLink(meta, size, numPages);
      if r.Failed? {
        DropDescriptor(meta);
      } else if r.Done? {
        MetaPush(old(regions), NewRegion(meta, old(vmallocCurrent), size), old(heap.Live()));
      }
    }

    /** The part of vmalloc between the descriptor's allocation and its release on failure. */
    method MapAndLink(meta: nat, size: nat, numPages: nat) returns (r: Outcome, ghost taken: seq<nat>)
      requires FramesOk() && RegionsTracked() && current == L.kdir && size + 4095 < U32
               && numPages == PageCount(size) > 0
      requires vmallocCurrent + numPages * PAGE_SIZE <= VMALLOC_END
      requires NobodyLives(procs) || vmallocCurrent + size <= REGION_PAGE * 4096
      modifies this`ram, this`regions, this`vmallocCurrent, this`totalRegions, this`totalPages
      modifies pmm`usedFrames, pmm`used, pmm.bitmap
      ensures var needs := Needs(L, old(ram), old(vmallocCurrent) / 4096, numPages);
              Ends(r, FateOf(needs, |old(Available())|, |old(Low())|))
      ensures r.Done? ==>
                && FramesOk() && RegionsTracked() && r.value == old(vmallocCurrent) && |taken| == numPages
                && vmallocCurrent == old(vmallocCurrent) + numPages * 4096
                && Partial(L, old(ram), old(pmm.used), ram, pmm.used, old(vmallocCurrent) / 4096, taken)
                && TablesFor(L, old(ram), ram, old(vmallocCurrent) / 4096, numPages)
                && TookFrames(Cost(Needs(L, old(ram), old(vmallocCurrent) / 4096, numPages)))
                && regions == [NewRegion(meta, old(vmallocCurrent), size)] + old(regions)
      ensures r.Failed? ==>
                && FramesOk() && RegionsTracked() && Undone(L, old(ram), old(pmm.used), ram, pmm.used)
                && regions == old(regions) && vmallocCurrent == old(vmallocCurrent)
                && totalRegions == old(totalRegions) && totalPages == old(totalPages)
    {
      hide Inv, Undone, VInv, FateOf, Needs, TablesFor, Cost;
      AboveBreak(L, ram, regions, vmallocCurrent);
      var virtAddr := vmallocCurrent;
      RangeInPages(virtAddr, size, numPages);
      r, taken := MapRegion(virtAddr / 4096, numPages);
      if r.Failed? {
        UndoneRegions(L, old(ram), old(pmm.used), ram, pmm.used, regions, vmallocCurrent);
      } else if r.Done? {
        LinkRegion(meta, size, numPages, old(ram), old(pmm.used), taken);
        r := Done(virtAddr);
      }
    }

    /** kfree of a descriptor. */
    method DropDescriptor(meta: nat)
      requires heap.Valid() && meta in heap.Live()
      modifies heap`mem, heap`blocks, heap`totalFrees
      ensures heap.Valid() && heap.Live() == old(heap.Live()) - {meta}
    {
      var panicked := heap.Kfree(meta);
    }

    /** The last part of vmalloc: the descriptor joins the list, and counters and break move. */
    method LinkRegion(meta: nat, size: nat, numPages: nat, ghost ram0: Ram, ghost used0: set<nat>,
                      ghost taken: seq<nat>)
      requires VInv(L, ram0, regions, vmallocCurrent) && totalRegions == |regions| && totalPages == SumPages(regions)
      requires numPages == |taken| == PageCount(size) > 0 && size + 4095 < U32
      requires vmallocCurrent + numPages * PAGE_SIZE <= VMALLOC_END
      requires Extends(L, ram0, ram, vmallocCurrent / 4096, taken)
      modifies this`regions, this`vmallocCurrent, this`totalRegions, this`totalPages
      ensures RegionsTracked() && regions == [NewRegion(meta, old(vmallocCurrent), size)] + old(regions)
      ensures vmallocCurrent == old(vmallocCurrent) + numPages * 4096
    {
      hide VInv, Extends, SumPages, HighestEnd;
      var region := Region(meta, vmallocCurrent, size, numPages * PAGE_SIZE, numPages);
      AboveBreak(L, ram0, regions, vmallocCurrent);
      NewRegionOk(region, size);
      ExtendsMaps(L, ram0, ram, region, taken);
      PushRegion(L, ram0, ram, regions, vmallocCurrent, region);
      regions := [region] + regions;
      totalRegions := totalRegions + 1;
      totalPages := totalPages + numPages;
      vmallocCurrent := vmallocCurrent + numPages * PAGE_SIZE;
    }

    /** The unmapping loop of vfree over the pages of one region. */
    method UnmapRegion(first: nat, n: nat)
      requires FramesOk() && current == L.kdir && VMALLOC_PAGE <= first && first + n <= PAGES
      requires forall vp: nat | first <= vp < first + n :: Lookup(ram, L.kdir, vp) != 0
      modifies this`ram, pmm`usedFrames, pmm`used, pmm.bitmap
      ensures FramesOk() && Shrunk(L, old(ram), old(pmm.used), ram, pmm.used, first, n)
    {
      hide Inv, Shrunk;
      ghost var ram0, used0 := ram, pmm.used;
      NothingShrunk(L, ram, pmm.used, first);
      for i := 0 to n
        invariant FramesOk() && Shrunk(L, ram0, used0, ram, pmm.used, first, i)
      {
        var vp := first + i;
        ShrinkStep(L, ram0, used0, ram, pmm.used, procs, first, i, vp);
        KernelPointers(L, ram, pmm.used, procs, vp);
        var paddr := PhysicalThrough(ram, current, current, vp, 0);
        if paddr != 0 {
          UnmapOnePage(vp);
        }
      }
    }

    /** vfree. A pointer that starts no region is a panic; otherwise exactly the pages of that region are unmapped,
        exactly their frames become free, and the break drops to the highest region left. */
    method Vfree(ptr: nat) returns (panicked: bool)
      requires Valid() && current == L.kdir
      modifies this`ram, this`regions, this`vmallocCurrent, this`totalRegions, this`totalPages
      modifies pmm`usedFrames, pmm`used, pmm.bitmap
      modifies heap`mem, heap`blocks, heap`totalFrees
      ensures panicked <==> ptr != 0 && forall k | 0 <= k < |old(regions)| :: old(regions)[k].virtAddr != ptr
      ensures panicked || ptr == 0 ==> Valid() && Now() == old(Now())
      ensures !panicked && ptr != 0 ==>
                exists k: nat ::
                  && k < |old(regions)| && old(regions)[k].virtAddr == ptr
                  && Valid() && regions == RemoveAt(old(regions), k)
                  && Shrunk(L, old(ram), old(pmm.used), ram, pmm.used, old(regions)[k].First(),
                            old(regions)[k].numPages)
                  && heap.Live() == old(heap.Live()) - {old(regions)[k].meta}
    {
      hide Inv, Shrunk, VInv, Kmalloc.Realises;
      if ptr == 0 {
        return false;
      }
      var k := FindRegion(ptr);
      if k == |regions| {
        return true;
      }
      panicked := false;
      DropRegion(k);
    }

    /** vfree once the region is found. */
    method DropRegion(k: nat)
      requires Valid() && current == L.kdir && k < |regions|
      modifies this`ram, this`regions, this`vmallocCurrent, this`totalRegions, this`totalPages
      modifies pmm`usedFrames, pmm`used, pmm.bitmap
      modifies heap`mem, heap`blocks, heap`totalFrees
      ensures Valid() && regions == RemoveAt(old(regions), k)
      ensures Shrunk(L, old(ram), old(pmm.used), ram, pmm.used, old(regions)[k].First(), old(regions)[k].numPages)
      ensures heap.Live() == old(heap.Live()) - {old(regions)[k].meta}
    {
      hide Inv, Shrunk, VInv, Kmalloc.Realises, MetaOk, SumPages, HighestEnd;
      var region := regions[k];
      MappedRegion(L, ram, regions, vmallocCurrent, k);
      SumWithout(regions, k);
      MetaRemove(regions, k, heap.Live());
      regions := RemoveAt(regions, k);
      UnmapRegion(region.virtAddr / 4096, region.numPages);
      ShrunkRegions(L, old(ram), old(pmm.used), ram, pmm.used, old(regions), old(vmallocCurrent), k);
      totalRegions := totalRegions - 1;
      totalPages := totalPages - region.numPages;
      DropDescriptor(region.meta);
      vmallocCurrent := VmallocHighestEnd();
    }

    /** vmalloc then vfree of the result, unless it halts or strays as told for vmalloc, restores every translation,
        the region list, the break, the counters and the live heap blocks; of the frames, only those of new page
        tables stay taken. */
    method VmallocThenVfree(size: nat) returns (r: Outcome)
      requires Valid() && current == L.kdir && size + 4095 + vmallocCurrent < U32
      requires NobodyLives(procs) || vmallocCurrent + size <= REGION_PAGE * 4096
      modifies this`ram, this`regions, this`vmallocCurrent, this`totalRegions, this`totalPages
      modifies pmm`usedFrames, pmm`used, pmm.bitmap
      modifies heap`heapEnd, heap`blockList, heap`mem, heap`totalAllocations, heap`blocks, heap`totalFrees
      ensures VmallocEnds(L, pmm.ScanLimit(), old(Now()), size, r)
      ensures r.Done? || r.Failed? ==>
                && Valid() && regions == old(regions) && vmallocCurrent == old(vmallocCurrent)
                && totalRegions == old(totalRegions) && totalPages == old(totalPages)
                && heap.Live() == old(heap.Live()) && Undone(L, old(ram), old(pmm.used), ram, pmm.used)
    {
      hide Inv, Shrunk, VInv, Kmalloc.Realises, Undone, Partial, MetaOk, SumPages, HighestEnd, VmallocEnds, TablesFor,
           Cost, Needs;
      ghost var taken;
      r, taken := Vmalloc(size);
      if r.Done? {
        ghost var ram1, used1, mid, brk := ram, pmm.used, regions, vmallocCurrent;
        NewIsFirst(L, old(ram), ram1, old(regions), mid, old(vmallocCurrent), brk);
        var panicked := Vfree(r.value);
        ghost var k: nat :| k < |mid| && mid[k].virtAddr == r.value && regions == RemoveAt(mid, k)
                            && Shrunk(L, ram1, used1, ram, pmm.used, mid[k].First(), mid[k].numPages)
                            && heap.Live() == old(heap.Live()) + {mid[0].meta} - {mid[k].meta};
        assert k == 0 && RemoveAt(mid, 0) == old(regions);
        RoundTrip(L, old(ram), old(pmm.used), ram1, used1, ram, pmm.used, mid[0].First(), taken);
        TrackedTwice(L, old(ram), ram, regions, old(vmallocCurrent), vmallocCurrent);
      }
    }

    // ---- Process memory ----

    /** alloc_process_page: one fresh page, mapped for the user at page vp of a process directory that is not in use,
        and cleared through its physical address. */
    method AllocProcessPage(dir: nat, vp: nat) returns (r: Outcome, ghost t: nat)
      requires FramesOk() && IsDirectory(L, dir) && dir < |ram| && 4 <= DirIndex(vp) && !Structure(L, ram, procs, dir)
      requires HasTable(ram, dir, DirIndex(vp)) ==>
                 var table := TableOf(ram, dir, DirIndex(vp));
                 0 < table < |ram| && table < VMALLOC_PAGE && !Structure(L, ram, procs, table)
      modifies this`ram, pmm`usedFrames, pmm`used, pmm.bitmap
      ensures pmm.Valid() && pmm.totalFrames == L.total && t < |old(ram)|
      ensures SlotPageEnds(r, HasTable(old(ram), dir, DirIndex(vp)), |old(Available())|, |old(Low())|)
      ensures r.Failed? ==> ram == old(ram) && pmm.used == old(pmm.used)
      ensures r.Done? ==>
                && r.value !in old(pmm.used) && r.value < L.total && r.value < |old(ram)| == |ram|
                      && r.value < VMALLOC_PAGE
                && Cleared(ram, MapIn(old(ram), dir, vp, r.value, PAGE_USER_RW, t), r.value)
                && pmm.used == old(pmm.used) + {r.value} + {t}
                && TookFrames(if HasTable(old(ram), dir, DirIndex(vp)) then 1 else 2)
      ensures r.Done? && HasTable(old(ram), dir, DirIndex(vp)) ==> t == r.value
      ensures r.Done? && !HasTable(old(ram), dir, DirIndex(vp)) ==>
                t !in old(pmm.used) && t != r.value && t < L.total && t < VMALLOC_PAGE && t in old(Available())
    {
      hide Inv, Reserved, Unheld, Lookup, CurrentOk, MapIn, Structure, Pmm.FrameAllocator.Valid, HasTable, TableOf,
           DirIndex;
      FramesExist(L, ram, pmm.used, procs);
      t := 0;
      var page := TakeFrame();
      if page == 0 {
        return Failed, t;
      }
      ghost var taken := pmm.used;
      r, t := MapPageInDirectory(dir, vp, page, PAGE_USER_RW);
      if !r.Done? {
        return;
      }
      PageReached(L, old(ram), taken, procs, current, dir, vp, page, t);
      if !Reaches(ram, current, page) {
        return Stray, t;
      }
      ram := ram[Frame(Lookup(ram, current, page)) := ZeroPage()];
      r := Done(page);
    }

    /** The next page of a slot under construction; the first one brings the page table with it. */
    method BuildNextPage(slot: nat, pages: seq<nat>, ghost t0: nat, ghost ram0: Ram, ghost used0: set<nat>)
      returns (r: Outcome, ghost t: nat)
      requires FramesOk() && slot < SLOTS && !procs[slot].live && |pages| < 4 && (pages == [] ==> t0 == 0)
      requires Inv(L, ram0, used0, procs) && Progress(L, ram0, used0, ram, pmm.used, slot, t0, pages)
      modifies this`ram, pmm`usedFrames, pmm`used, pmm.bitmap
      ensures SlotPageEnds(r, pages != [], |old(Available())|, |old(Low())|)
      ensures r.Failed? ==> FramesOk() && ram == old(ram) && pmm.used == old(pmm.used)
      ensures r.Done? ==>
                && FramesOk() && Progress(L, ram0, used0, ram, pmm.used, slot, t, pages + [r.value])
                && TookFrames(if pages == [] then 2 else 1)
                && (if pages == [] then t in old(Available()) else t == t0)
    {
      hide Inv, Progress, MapIn, Cleared, HasTable, TableOf, Structure, CurrentOk;
      DirectoryFrame(L, ram, pmm.used, procs, slot);
      TableSoFar(L, ram0, used0, ram, pmm.used, procs, slot, t0, pages);
      SlotIsOutside(L, ram0, used0, ram, pmm.used, procs, slot, t0, pages);
      var vp := SlotPage(slot) + |pages|;
      ghost var spare;
      r, spare := AllocProcessPage(ProcDir(L, slot), vp);
      t := if pages == [] then spare else t0;
      if r.Done? {
        ProgressStep(L, ram0, used0, old(ram), old(pmm.used), slot, t0, pages, vp, r.value, spare, ram);
        ProgressKeeps(L, ram0, used0, ram, pmm.used, procs, slot, t, pages + [r.value]);
      }
    }

    /** The page part of process_release_memory: each page is unmapped from the slot's table t and its frame freed. */
    method ReleasePages(slot: nat, pages: seq<nat>, ghost t: nat)
      requires pmm.Valid() && RamOk(ram) && slot < SLOTS && ProcDir(L, slot) < |ram| && |pages| <= 4
      requires pages != [] ==> Entry(ram, ProcDir(L, slot), REGION_DIR) == Word(t, PAGE_USER_RW)
      requires t < |ram| && t != ProcDir(L, slot) && 0 !in pages
      requires IdentityFrom(L, ram, current) && (pages != [] ==> t < VMALLOC_PAGE && !Reserved(L, t))
      modifies this`ram, pmm`usedFrames, pmm`used, pmm.bitmap
      ensures pmm.Valid() && pmm.used == old(pmm.used) - (set f | f in pages)
      ensures |ram| == |old(ram)| && RamOk(ram) && forall g: nat | g < |ram| && g != t :: ram[g] == old(ram)[g]
      ensures pages == [] ==> ram == old(ram)
    {
      hide Pmm.FrameAllocator.Valid, RamOk, Word, SlotPage, Pfn, IdentityFrom, Reserved;
      ghost var ram0, used0 := ram, pmm.used;
      for k := 0 to |pages|
        invariant pmm.Valid() && forall f :: f in pmm.used <==> f in used0 && f !in pages[..k]
        invariant |ram| == |ram0| && RamOk(ram) && forall g: nat | g < |ram| && g != t :: ram[g] == ram0[g]
        invariant IdentityFrom(L, ram, current) && (k == 0 ==> ram == ram0)
      {
        assert pages[k] in pages && pages[..k + 1] == pages[..k] + [pages[k]];
        ReleasePage(slot, k, pages[k], t);
      }
      assert pages[..|pages|] == pages;
    }

    /** One page of process_release_memory: a recorded page is unmapped and its frame freed. */
    method ReleasePage(slot: nat, k: nat, page: nat, ghost t: nat)
      requires pmm.Valid() && RamOk(ram) && slot < SLOTS && k < 4 && ProcDir(L, slot) < |ram|
      requires t < |ram| && t != ProcDir(L, slot) && Entry(ram, ProcDir(L, slot), REGION_DIR) == Word(t, PAGE_USER_RW)
      requires IdentityFrom(L, ram, current) && t < VMALLOC_PAGE && !Reserved(L, t)
      modifies this`ram, pmm`usedFrames, pmm`used, pmm.bitmap
      ensures pmm.Valid() && pmm.used == if page == 0 then old(pmm.used) else old(pmm.used) - {page}
      ensures |ram| == |old(ram)| && RamOk(ram) && forall g: nat | g < |ram| && g != t :: ram[g] == old(ram)[g]
      ensures IdentityFrom(L, ram, current)
    {
      hide Pmm.FrameAllocator.Valid, RamOk, Word, SlotPage, Pfn, IdentityFrom, Reserved;
      if page != 0 {
        UnmapSlotPage(slot, k, t);
        PfnOfFrame(page);
        pmm.FreeFrame(page * 4096);
      }
    }

    /** paging_unmap_page_in_directory for page k of a slot whose table is t. */
    method UnmapSlotPage(slot: nat, k: nat, ghost t: nat)
      requires RamOk(ram) && slot < SLOTS && k < 4 && ProcDir(L, slot) < |ram| && t < |ram| && t != ProcDir(L, slot)
      requires Entry(ram, ProcDir(L, slot), REGION_DIR) == Word(t, PAGE_USER_RW)
      requires IdentityFrom(L, ram, current) && t < VMALLOC_PAGE && !Reserved(L, t)
      modifies this`ram
      ensures |ram| == |old(ram)| && RamOk(ram) && forall g: nat | g < |ram| && g != t :: ram[g] == old(ram)[g]
      ensures Entry(ram, t, 32 * slot + k) == 0 && IdentityFrom(L, ram, current)
    {
      FlagWords(t);
      SlotIndex(slot, k);
      assert Reaches(ram, current, t);
      hide IdentityFrom, Lookup;
      UnmapIsDirect(ram, current, ProcDir(L, slot), SlotPage(slot) + k, 0);
      ram := UnmapThrough(ram, current, ProcDir(L, slot), SlotPage(slot) + k).ram;
      IdentityKept(L, old(ram), ram, current, t);
    }

    /** process_memory_map for a free slot. CreateEnds tells how it ends: it succeeds exactly when five frames are free
        in the identity map. Success takes five frames and changes no translation outside the slot; failure changes none
        at all, but for 2 to 4 free frames it leaks the frame of the page table it made. */
    method ProcessMemoryMap(slot: nat) returns (r: Outcome)
      requires FramesOk() && slot < SLOTS && !procs[slot].live && !HasTable(ram, L.kdir, REGION_DIR)
      modifies this`ram, this`procs, pmm`usedFrames, pmm`used, pmm.bitmap
      ensures CreateEnds(|old(Available())|, |old(Low())|, r)
      ensures r.Done? || r.Failed? ==> FramesOk() && SpacesKept(L, old(ram), ram, old(procs))
      ensures r.Done? ==>
                && procs == old(procs)[slot := procs[slot]] && procs[slot].live && |procs[slot].pages| == 4
                && procs[slot].heapBreak == HeapStart(slot) && |pmm.used| == |old(pmm.used)| + 5
                && Progress(L, old(ram), old(pmm.used), ram, pmm.used, slot, procs[slot].table, procs[slot].pages)
      ensures r.Failed? ==> procs == old(procs)
      ensures r.Failed? && old(Available()) == {} ==> pmm.used == old(pmm.used)
      ensures r.Failed? && old(Available()) != {} ==>
                exists t :: t in old(Available()) && pmm.used == old(pmm.used) + {t}
    {
      hide Inv, Progress, CurrentOk, SpacesKept;
      LowAreFree(pmm.ScanLimit(), pmm.used);
      ghost var ram0, used0, n, low := ram, pmm.used, |Available()|, |Low()|;
      ProgressStart(L, ram, pmm.used, procs, slot);
      ram := ram[ProcDir(L, slot) := ram[L.kdir]];
      ProgressKeeps(L, ram0, used0, ram, pmm.used, procs, slot, 0, []);
      var pages: seq<nat> := [];
      ghost var t := 0;
      while |pages| < 4
        invariant FramesOk() && |pages| <= 4 && Progress(L, ram0, used0, ram, pmm.used, slot, t, pages)
        invariant |Available()| == n - FramesFor(|pages|) && |Low()| == low - FramesFor(|pages|)
        invariant if pages == [] then t == 0 && Available() == old(Available()) else t in old(Available())
        invariant procs == old(procs)
        decreases 4 - |pages|
      {
        ghost var table;
        r, table := BuildNextPage(slot, pages, t, ram0, used0);
        if r.Halted? || r.Stray? {
          return;
        }
        if r.Failed? {
          AbandonSlot(slot, pages, t, ram0, used0);
          return;
        }
        t := table;
        pages := pages + [r.value];
      }
      ProgressKeeps(L, ram0, used0, ram, pmm.used, procs, slot, t, pages);
      FiveMore(L, ram0, used0, ram, pmm.used, slot, t, pages);
      FinishSlot(slot, pages, t, ram0, used0);
      r := Done(slot);
    }

    /** process_release_memory on a live process whose directory is not the current one: exactly its five frames become
        free, its directory entry is cleared, and no other address space changes. */
    method ProcessMemoryRelease(slot: nat)
      requires FramesOk() && slot < SLOTS && procs[slot].live && current != ProcDir(L, slot)
      modifies this`ram, this`procs, pmm`usedFrames, pmm`used, pmm.bitmap
      ensures FramesOk() && procs == old(procs)[slot := NO_MEMORY] && SpacesKept(L, old(ram), ram, procs)
      ensures pmm.used == old(pmm.used) - ((set f | f in old(procs)[slot].pages) + {old(procs)[slot].table})
      ensures |pmm.used| == |old(pmm.used)| - 5
      ensures Entry(ram, ProcDir(L, slot), REGION_DIR) == 0
    {
      hide Inv, SpacesKept, Pmm.FrameAllocator.Valid, Reserved, CurrentOk;
      DirectoryFrame(L, ram, pmm.used, procs, slot);
      ghost var m := procs[slot];
      ghost var back := (set f | f in m.pages) + {m.table};
      ReturnFrames(slot);
      ReleaseKeeps(L, old(ram), ram, old(pmm.used), procs, slot);
      OtherCurrent(L, procs, current, slot);
      FewerFrames(old(pmm.used), pmm.used, back);
      procs := procs[slot := NO_MEMORY];
    }

    /** The writes and frees of process_release_memory. */
    method ReturnFrames(slot: nat)
      requires FramesOk() && slot < SLOTS && procs[slot].live
      modifies this`ram, pmm`usedFrames, pmm`used, pmm.bitmap
      ensures pmm.Valid() && |ram| == |old(ram)| && RamOk(ram) && ProcDir(L, slot) < |ram|
      ensures pmm.used == old(pmm.used) - ((set f | f in procs[slot].pages) + {procs[slot].table})
      ensures forall g: nat | g < |ram| && g != ProcDir(L, slot) && g != procs[slot].table :: ram[g] == old(ram)[g]
      ensures Entry(ram, ProcDir(L, slot), REGION_DIR) == 0
    {
      hide Inv, Pmm.FrameAllocator.Valid, Reserved, CurrentOk;
      ProcessShape(L, ram, pmm.used, procs, slot);
      CurrentIdentity(L, ram, pmm.used, procs, current);
      var m := procs[slot];
      ReleasePages(slot, m.pages, m.table);
      ram := Store(ram, ProcDir(L, slot), REGION_DIR, 0);
      PfnOfFrame(m.table);
      pmm.FreeFrame(m.table * 4096);
    }

    /** The memory side of fork_process: the child gets its own five frames, with data, bss and heap pages equal to the
        source's and the same break offset; the source and every other address space are untouched. */
    method ForkMemory(source: nat, child: nat) returns (r: Outcome)
      requires FramesOk() && source < SLOTS && child < SLOTS && procs[source].live && !procs[child].live
      modifies this`ram, this`procs, pmm`usedFrames, pmm`used, pmm.bitmap
      ensures CreateEnds(|old(Available())|, |old(Low())|, r)
      ensures r.Done? ==>
                && FramesOk() && procs == old(procs)[child := procs[child]] && procs[child].live
                && |pmm.used| == |old(pmm.used)| + 5
                && SpacesKept(L, old(ram), ram, old(procs))
                && |procs[source].pages| == 4 && |procs[child].pages| == 4 && source != child
                && (forall f | f in procs[child].pages :: f !in old(pmm.used))
                && (forall k | 0 <= k < 3 ::
                      SamePageContents(old(ram), procs[source].pages[k], ram, procs[child].pages[k]))
                && Wrap(procs[child].heapBreak - HeapStart(child)) == Wrap(procs[source].heapBreak - HeapStart(source))
                && (BreakOk(source, procs[source].heapBreak) ==> BreakOk(child, procs[child].heapBreak))
                && Touched(L, old(ram), ram, child, pmm.used - old(pmm.used))
      ensures r.Failed? ==> FramesOk() && procs == old(procs) && SpacesKept(L, old(ram), ram, procs)
      ensures r.Failed? && old(Available()) == {} ==> pmm.used == old(pmm.used)
      ensures r.Failed? && old(Available()) != {} ==>
                exists t :: t in old(Available()) && pmm.used == old(pmm.used) + {t}
    {
      hide Inv, Progress, SpacesKept, Touched, SamePageContents, Copied, Pmm.FrameAllocator.Valid, CurrentOk,
           MemoryLaws.CreateEnds;
      ProcessShape(L, ram, pmm.used, procs, source);
      ghost var ram0, used0, procs0 := ram, pmm.used, procs;
      r := ProcessMemoryMap(child);
      EndsOneWay(|old(Available())|, |old(Low())|, r);
      if !r.Done? {
        return;
      }
      var m, c := procs[source], procs[child];
      ghost var built := ram;
      CopyPages(source, child);
      ForkedMemory(L, ram0, used0, built, ram, pmm.used, procs0, procs, source, child);
      var heapBreak := Wrap(HeapStart(child) + Wrap(m.heapBreak - HeapStart(source)));
      WrapOffset(HeapStart(child), m.heapBreak - HeapStart(source));
      if BreakOk(source, m.heapBreak) {
        ForkedBreak(source, child, m.heapBreak, heapBreak);
      }
      BreakKeeps(L, ram, pmm.used, procs, child, heapBreak);
      SameLives(L, procs, current, child, heapBreak);
      procs := procs[child := c.(heapBreak := heapBreak)];
    }

    /** The three process_memcpy calls of fork_process. */
    method CopyPages(source: nat, child: nat)
      requires FramesOk() && source < SLOTS && child < SLOTS && source != child && procs[source].live
               && procs[child].live
      modifies this`ram
      ensures FramesOk() && SpacesKept(L, old(ram), ram, procs)
      ensures |procs[source].pages| == 4 && |procs[child].pages| == 4
      ensures Copied(old(ram), ram, procs[source].pages, procs[child].pages)
    {
      hide Inv, SpacesKept, CurrentOk;
      ProcessShape(L, ram, pmm.used, procs, source);
      ProcessShape(L, ram, pmm.used, procs, child);
      DistinctPages(L, ram, pmm.used, procs, source, child);
      LowPages(L, ram, pmm.used, procs, source);
      var m, c := procs[source].pages, procs[child].pages;
      CopyPage(child, m[0], c[0], 0);
      ghost var one := ram;
      CopyPage(child, m[1], c[1], 1);
      SpacesKeptTwice(L, old(ram), one, ram, procs);
      ghost var two := ram;
      CopyPage(child, m[2], c[2], 2);
      SpacesKeptTwice(L, old(ram), two, ram, procs);
    }

    /** process_memcpy of one page into page k of a live process, both by their physical addresses. */
    method CopyPage(slot: nat, from: nat, to: nat, ghost k: nat)
      requires FramesOk() && slot < SLOTS && procs[slot].live && k < 4 && |procs[slot].pages| == 4
               && to == procs[slot].pages[k]
      requires from < |ram| && from < VMALLOC_PAGE
      modifies this`ram
      ensures FramesOk() && SpacesKept(L, old(ram), ram, procs)
      ensures to < |old(ram)| && ram == old(ram)[to := old(ram)[from]]
    {
      hide Inv, Holds, Lookup, CurrentOk;
      ProcessShape(L, ram, pmm.used, procs, slot);
      DataPage(L, ram, pmm.used, procs, slot, k);
      LowReaches(L, ram, pmm.used, procs, current, from);
      LowReaches(L, ram, pmm.used, procs, current, to);
      FillKeeps(L, ram, pmm.used, procs, to, ram[from]);
      OutsideKeeps(L, ram, ram[to := ram[from]], pmm.used, procs);
      var page := ram[Frame(Lookup(ram, current, from))];
      ram := ram[Frame(Lookup(ram, current, to)) := page];
    }

    /** process_memory_alloc, with the 32-bit wrap-around of its range check; process_mmap returns the old break.
        Unless the sum wraps, an accepted request is granted out of the process's heap page. */
    method ProcessMemoryAlloc(slot: nat, size: nat) returns (ok: bool, oldBreak: nat)
      requires FramesOk() && slot < SLOTS && procs[slot].live && size < U32
      modifies this`procs
      ensures FramesOk() && oldBreak == old(procs)[slot].heapBreak
      ensures ok <==> size > 0 && Wrap(oldBreak + size) <= HeapStart(slot) + PAGE_SIZE
      ensures procs ==
              if ok then old(procs)[slot := old(procs)[slot].(heapBreak := Wrap(oldBreak + size))] else old(procs)
      ensures |procs[slot].pages| == 4
      ensures BreakOk(slot, oldBreak) && oldBreak + size < U32 ==>
                && BreakOk(slot, procs[slot].heapBreak)
                && (size > 0 ==> (ok <==> Inside(slot, Grant(oldBreak, size))))
                && (ok ==> procs[slot].heapBreak == oldBreak + size)
      ensures ok && BreakOk(slot, oldBreak) && oldBreak + size < U32 ==>
                forall a | oldBreak <= a < oldBreak + size ::
                  UserPage(ram, ProcDir(L, slot), a / 4096) == Word(procs[slot].pages[2], PAGE_USER_RW)
    {
      hide Inv, CurrentOk, UserPage, Word, HeapStart;
      ProcessShape(L, ram, pmm.used, procs, slot);
      if size > 0 && BreakOk(slot, procs[slot].heapBreak) {
        GrantInside(slot, procs[slot].heapBreak, size);
      }
      HeapBytes(L, ram, pmm.used, procs, slot, procs[slot].heapBreak, size);
      oldBreak := procs[slot].heapBreak;
      if size == 0 || Wrap(oldBreak + size) > HeapStart(slot) + PAGE_SIZE {
        return false, oldBreak;
      }
      BreakKeeps(L, ram, pmm.used, procs, slot, Wrap(oldBreak + size));
      SameLives(L, procs, current, slot, Wrap(oldBreak + size));
      procs := procs[slot := procs[slot].(heapBreak := Wrap(oldBreak + size))];
      ok := true;
    }

    /** Any sequence of process_mmap calls whose sums do not wrap: the grants lie one behind the other in the
        process's heap page, and no two of them share a byte. */
    method MmapAll(slot: nat, sizes: seq<nat>) returns (grants: seq<Grant>)
      requires FramesOk() && slot < SLOTS && procs[slot].live && BreakOk(slot, procs[slot].heapBreak)
      requires forall size | size in sizes :: HeapStart(slot) + PAGE_SIZE + size < U32
      modifies this`procs
      ensures FramesOk() && procs[slot].live && |procs[slot].pages| == 4 && procs[slot].pages == old(procs)[slot].pages
      ensures Consecutive(grants, old(procs)[slot].heapBreak, procs[slot].heapBreak)
      ensures forall g | g in grants :: Inside(slot, g) && g.size in sizes
      ensures forall i, j | 0 <= i < j < |grants| :: grants[i].base + grants[i].size <= grants[j].base
      ensures forall g, a | g in grants && g.base <= a < g.base + g.size ::
                UserPage(ram, ProcDir(L, slot), a / 4096) == Word(procs[slot].pages[2], PAGE_USER_RW)
    {
      hide Inv, CurrentOk, UserPage, Word, HeapStart;
      ProcessShape(L, ram, pmm.used, procs, slot);
      grants := [];
      ghost var pages := procs[slot].pages;
      for i := 0 to |sizes|
        invariant FramesOk() && |procs| == SLOTS && procs[slot].live && procs[slot].pages == pages
        invariant BreakOk(slot, procs[slot].heapBreak)
        invariant Consecutive(grants, old(procs)[slot].heapBreak, procs[slot].heapBreak)
        invariant forall g | g in grants :: Inside(slot, g) && g.size in sizes
      {
        ghost var brk := procs[slot].heapBreak;
        assert sizes[i] in sizes;
        var ok, base := ProcessMemoryAlloc(slot, sizes[i]);
        if ok {
          ConsecutiveMore(grants, old(procs)[slot].heapBreak, brk, Grant(base, sizes[i]));
          grants := grants + [Grant(base, sizes[i])];
        }
      }
      GrantsMapped(L, ram, pmm.used, procs, slot, grants, old(procs)[slot].heapBreak, procs[slot].heapBreak);
    }

    /** process_release_memory on a half-built slot: its pages go back, its unrecorded table does not. */
    method AbandonSlot(slot: nat, pages: seq<nat>, ghost t: nat, ghost ram0: Ram, ghost used0: set<nat>)
      requires FramesOk() && slot < SLOTS && !procs[slot].live && |pages| < 4 && Inv(L, ram0, used0, procs)
      requires Progress(L, ram0, used0, ram, pmm.used, slot, t, pages)
      modifies this`ram, pmm`usedFrames, pmm`used, pmm.bitmap
      ensures FramesOk() && SpacesKept(L, ram0, ram, procs)
      ensures pmm.used == if pages == [] then used0 else used0 + {t}
    {
      hide Inv, Progress, CurrentOk, Reserved;
      ghost var ram1, used1 := ram, pmm.used;
      DirectoryFrame(L, ram, pmm.used, procs, slot);
      CurrentIdentity(L, ram, pmm.used, procs, current);
      TableSoFar(L, ram0, used0, ram, pmm.used, procs, slot, t, pages);
      ReleasePages(slot, pages, if pages == [] then 0 else t);
      AbandonKeeps(L, ram0, used0, ram1, used1, ram, procs, slot, t, pages);
    }

    /** The end of process_memory_map: the table's frame is read back from the directory and the slot is complete. */
    method FinishSlot(slot: nat, pages: seq<nat>, ghost t: nat, ghost ram0: Ram, ghost used0: set<nat>)
      requires FramesOk() && slot < SLOTS && !procs[slot].live && |pages| == 4 && Inv(L, ram0, used0, procs)
      requires Progress(L, ram0, used0, ram, pmm.used, slot, t, pages) && !HasTable(ram0, L.kdir, REGION_DIR)
      modifies this`procs
      ensures FramesOk() && procs == old(procs)[slot := ProcMem(true, pages, t, HeapStart(slot))]
    {
      hide Inv, Progress, CurrentOk;
      DirectoryFrame(L, ram, pmm.used, procs, slot);
      TableSoFar(L, ram0, used0, ram, pmm.used, procs, slot, t, pages);
      var table := Frame(ram[ProcDir(L, slot)][REGION_DIR]);
      var m := ProcMem(true, pages, table, HeapStart(slot));
      StillCurrent(L, procs, current, slot, m);
      ProgressDone(L, ram0, used0, ram, pmm.used, procs, slot, m);
      procs := procs[slot := m];
    }

    /** paging_switch_directory to the address space of a live process. */
    method SwitchDirectory(slot: nat)
      requires Valid() && slot < SLOTS && |procs| == SLOTS && procs[slot].live
      modifies this`current
      ensures Valid() && current == ProcDir(L, slot)
    {
      hide Inv, VInv, Kmalloc.Realises, MetaOk;
      current := ProcDir(L, slot);
    }

    /** process_switch_to_kernel_space. */
    method SwitchToKernel()
      requires Valid()
      modifies this`current
      ensures Valid() && current == L.kdir
    {
      hide Inv, VInv, Kmalloc.Realises, MetaOk;
      current := L.kdir;
    }

    // ---- Each operation on the whole state ----

    /** process_memory_map. */
    method CreateMemory(slot: nat) returns (r: Outcome)
      requires Valid() && |procs| == SLOTS && Permitted(L, Now(), Create(slot))
      modifies this`ram, this`procs, pmm`usedFrames, pmm`used, pmm.bitmap
      ensures Did(L, pmm.ScanLimit(), old(Now()), Create(slot), r, Now())
      ensures r.Done? || r.Failed? ==> Valid() && |procs| == SLOTS
    {
      hide Inv, VInv, Kmalloc.Realises, MetaOk, Progress, SpacesKept, CurrentOk;
      r := ProcessMemoryMap(slot);
      if r.Done? || r.Failed? {
        SpacesTracked(L, old(ram), ram, old(procs), regions, vmallocCurrent);
      }
    }

    /** The memory side of fork_process. */
    method ForkProcessMemory(source: nat, child: nat) returns (r: Outcome)
      requires Valid() && |procs| == SLOTS && Permitted(L, Now(), Fork(source, child))
      modifies this`ram, this`procs, pmm`usedFrames, pmm`used, pmm.bitmap
      ensures Did(L, pmm.ScanLimit(), old(Now()), Fork(source, child), r, Now())
      ensures r.Done? || r.Failed? ==> Valid() && |procs| == SLOTS
    {
      hide Inv, VInv, Kmalloc.Realises, MetaOk, Progress, SpacesKept, Touched, SamePageContents, CurrentOk;
      r := ForkMemory(source, child);
      if r.Done? || r.Failed? {
        SpacesTracked(L, old(ram), ram, old(procs), regions, vmallocCurrent);
      }
    }

    /** process_release_memory. */
    method CollectMemory(slot: nat)
      requires Valid() && |procs| == SLOTS && Permitted(L, Now(), Collect(slot)) && current != ProcDir(L, slot)
      modifies this`ram, this`procs, pmm`usedFrames, pmm`used, pmm.bitmap
      ensures Valid() && Did(L, pmm.ScanLimit(), old(Now()), Collect(slot), Done(slot), Now()) && |procs| == SLOTS
    {
      hide Inv, VInv, Kmalloc.Realises, MetaOk, SpacesKept, CurrentOk;
      ProcessMemoryRelease(slot);
      SpacesTracked(L, old(ram), ram, procs, regions, vmallocCurrent);
    }

    /** vmalloc. */
    method AllocateRange(size: nat) returns (r: Outcome)
      requires Valid() && current == L.kdir && Permitted(L, Now(), MemoryOp.Vmalloc(size))
      modifies this`ram, this`regions, this`vmallocCurrent, this`totalRegions, this`totalPages
      modifies pmm`usedFrames, pmm`used, pmm.bitmap
      modifies heap`heapEnd, heap`blockList, heap`mem, heap`totalAllocations, heap`blocks, heap`totalFrees
      ensures Did(L, pmm.ScanLimit(), old(Now()), MemoryOp.Vmalloc(size), r, Now())
      ensures r.Done? || r.Failed? ==> Valid()
    {
      hide Inv, VInv, Kmalloc.Realises, MetaOk, Partial, Undone, VmallocEnds, NobodyLives, TablesFor, Cost, Needs;
      ghost var taken;
      r, taken := Vmalloc(size);
      if r.Done? {
        ghost var meta :| meta !in old(heap.Live()) && heap.Live() == old(heap.Live()) + {meta}
                          && regions == [NewRegion(meta, old(vmallocCurrent), size)] + old(regions);
        assert VmallocDone(L, old(Now()), size, Now(), taken, meta);
      }
    }

    /** vfree; a pointer to no region is a panic. */
    method FreeRange(ptr: nat) returns (r: Outcome)
      requires Valid() && current == L.kdir
      modifies this`ram, this`regions, this`vmallocCurrent, this`totalRegions, this`totalPages
      modifies pmm`usedFrames, pmm`used, pmm.bitmap
      modifies heap`mem, heap`blocks, heap`totalFrees
      ensures Did(L, pmm.ScanLimit(), old(Now()), MemoryOp.Vfree(ptr), r, Now())
      ensures r.Done? ==> Valid()
    {
      hide Inv, VInv, Kmalloc.Realises, MetaOk, Shrunk;
      var panicked := Vfree(ptr);
      if panicked {
        return Halted;
      }
      r := Done(0);
      if ptr != 0 {
        ghost var k: nat :|
          && k < |old(regions)| && old(regions)[k].virtAddr == ptr && regions == RemoveAt(old(regions), k)
          && Shrunk(L, old(ram), old(pmm.used), ram, pmm.used, old(regions)[k].First(), old(regions)[k].numPages)
          && heap.Live() == old(heap.Live()) - {old(regions)[k].meta};
        assert VfreeDone(L, old(Now()), ptr, Now(), k);
      }
    }

    // ---- Whole runs ----

    /** Any sequence of the memory calls keeps every invariant: one owner per frame, disjoint regions backed page by
        page, isolated processes, a sound heap. Each step does what Did says of it, a call whose premises fail is left
        out, and the run ends early exactly with a panic or a stray access. */
    method Run(ops: seq<MemoryOp>) returns (outcomes: seq<Outcome>, ghost steps: seq<Step>)
      requires Valid() && current == L.kdir
      modifies this, pmm, pmm.bitmap, heap
      ensures |outcomes| == |steps| <= |ops| && Path(L, pmm.ScanLimit(), old(Now()), steps, Now())
      ensures forall i | 0 <= i < |steps| :: steps[i].op == ops[i] && steps[i].outcome == outcomes[i]
      ensures forall i | 0 <= i < |steps| - 1 :: !outcomes[i].Halted? && !outcomes[i].Stray?
      ensures steps == [] || (!outcomes[|steps| - 1].Halted? && !outcomes[|steps| - 1].Stray?) ==>
                |steps| == |ops| && Valid() && current == L.kdir
    {
      hide Inv, VInv, Kmalloc.Realises, MetaOk, Did, CurrentOk, Pmm.FrameAllocator.Valid;
      ghost var limit, start := pmm.ScanLimit(), Now();
      outcomes, steps := [], [];
      for i := 0 to |ops|
        invariant Valid() && current == L.kdir && pmm.ScanLimit() == limit
        invariant |outcomes| == |steps| == i && Path(L, limit, start, steps, Now())
        invariant forall k | 0 <= k < i :: steps[k].op == ops[k] && steps[k].outcome == outcomes[k]
        invariant forall k | 0 <= k < i :: !outcomes[k].Halted? && !outcomes[k].Stray?
      {
        ghost var before := Now();
        var r := Perform(ops[i]);
        ghost var step := Step(before, ops[i], r, Now());
        PathStep(L, limit, start, steps, before, step);
        outcomes, steps := outcomes + [r], steps + [step];
        if r.Halted? || r.Stray? {
          return;
        }
      }
    }

    method Perform(op: MemoryOp) returns (r: Outcome)
      requires Valid() && current == L.kdir
      modifies this`ram, this`regions, this`vmallocCurrent, this`totalRegions, this`totalPages, this`procs
      modifies pmm`usedFrames, pmm`used, pmm.bitmap
      modifies heap`heapEnd, heap`blockList, heap`mem, heap`totalAllocations, heap`blocks, heap`totalFrees
      ensures Did(L, pmm.ScanLimit(), old(Now()), op, r, Now())
      ensures !r.Halted? && !r.Stray? ==> Valid()
    {
      hide Inv, VInv, Kmalloc.Realises, MetaOk, Did, CurrentOk, Pmm.FrameAllocator.Valid;
      DirectoryFrame(L, ram, pmm.used, procs, 0);
      var permitted := IsPermitted(op);
      if !permitted {
        NotDone(L, pmm.ScanLimit(), Now(), op);
        return Outside;
      }
      match op {
        case Vmalloc(size) => r := AllocateRange(size);
        case Vfree(ptr) => r := FreeRange(ptr);
        case Create(slot) => r := CreateMemory(slot);
        case Fork(source, child) => r := ForkProcessMemory(source, child);
        case Collect(slot) =>
          DirectoryFrame(L, ram, pmm.used, procs, slot);
          CollectMemory(slot);
          r := Done(slot);
      }
      NeverOutside(L, pmm.ScanLimit(), old(Now()), op, r, Now());
    }

    /** The premises of a call, which only look at the state. */
    method IsPermitted(op: MemoryOp) returns (b: bool)
      requires Valid() && |procs| == SLOTS && L.kdir < |ram| && RamOk(ram)
      ensures b <==> Permitted(L, Now(), op)
    {
      hide Inv, VInv, Kmalloc.Realises, MetaOk;
      match op {
        case Vmalloc(size) =>
          var nobody := true;
          for s := 0 to SLOTS
            invariant nobody <==> forall q: nat | q < s :: !procs[q].live
          {
            nobody := nobody && !procs[s].live;
          }
          b := size + 4095 + vmallocCurrent < U32 && (nobody || vmallocCurrent + size <= REGION_PAGE * 4096);
        case Vfree(_) => b := true;
        case Create(slot) => b := slot < |procs| && !procs[slot].live && !HasTable(ram, L.kdir, REGION_DIR);
        case Fork(source, child) =>
          b := source < |procs| && child < |procs| && procs[source].live && !procs[child].live;
        case Collect(slot) => b := slot < |procs| && procs[slot].live;
      }
    }

    /** Two requests after boot that leave the identity map. With at least 1027 but fewer than 2052 free frames below
        16 MB, and at least 2052 in all, 8 MB are granted, and the next page strays: the frame for its table lies
        above the identity map, so that the code clears and fills a page of the first region instead. */
    method StrayTables() returns (first: Outcome, second: Outcome)
      requires Valid() && current == L.kdir && vmallocCurrent == VMALLOC_START && heap.blocks == []
      requires heap.heapEnd == heap.heapStart && forall i: nat | 4 <= i < ENTRIES :: !HasTable(ram, L.kdir, i)
      requires NobodyLives(procs) && 1027 <= |Low()| < 2052 <= |Available()|
      modifies this, pmm, pmm.bitmap, heap
      ensures first.Done? && second.Stray?
    {
      hide Inv, VInv, Kmalloc.Realises, MetaOk, Partial, Undone, FateOf, NobodyLives, Needs, TablesFor, Cost,
           HeapModel.Alloc, HasTable, PageCount;
      heap.HeapSize();
      TwoDescriptors(heap.View());
      FreshRange();
      EightMegabytes(L, ram, |Available()|, |Low()|);
      ghost var before := ram;
      ghost var taken;
      first, taken := Vmalloc(0x80_0000);
      OneMorePage(L, before, ram, |Available()|, |Low()|);
      second, taken := Vmalloc(4096);
    }
  }
}
