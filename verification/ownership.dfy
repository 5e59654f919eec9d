/** Who owns each physical frame: page tables, vmalloc pages and process pages over one physical memory
    (kernel/src/paging.c, kernel/src/vmalloc.c, kernel/src/process.c). */
module Ownership {
  import opened Paging

  /** Where the linker put the static objects; every field is a frame number or a count of frames.
      The image starts at 1 MB and is followed by 64 KB of reserve and by the 8 MB heap range. */
  datatype Layout = Layout(frames: nat, total: nat, kernelEnd: nat, kdir: nat, ktabs: nat, pdirs: nat)

  const SLOTS: nat := 16
  const REGION_DIR: nat := 8
  const REGION_PAGE: nat := 0x2000
  const VMALLOC_PAGE: nat := 0x1000
  const PAGES: nat := 0x10_0000

  /** End of the frames that the allocator must never hand out: the first 1 MB, the image, the reserve, the heap. */
  function ReservedEnd(L: Layout): nat {
    L.kernelEnd + 16 + 2048
  }

  predicate Reserved(L: Layout, f: nat) {
    f < ReservedEnd(L)
  }

  ghost predicate LayoutOk(L: Layout) {
    && L.total <= L.frames <= PAGES && ReservedEnd(L) <= 4096 && L.kernelEnd <= L.frames
    && 256 <= L.kdir < L.kernelEnd
    && 256 <= L.ktabs && L.ktabs + 4 <= L.kernelEnd
    && 256 <= L.pdirs && L.pdirs + SLOTS <= L.kernelEnd
    && !(L.ktabs <= L.kdir < L.ktabs + 4) && !(L.pdirs <= L.kdir < L.pdirs + SLOTS)
    && (L.ktabs + 4 <= L.pdirs || L.pdirs + SLOTS <= L.ktabs)
  }

  /** The frames of one process: data, bss, heap and stack pages, and its page table. */
  datatype ProcMem = ProcMem(live: bool, pages: seq<nat>, table: nat, heapBreak: nat)

  const NO_MEMORY := ProcMem(false, [0, 0, 0, 0], 0, 0)

  /** First virtual page of a slot (PROCESS_PAGE_REGION_BASE + slot * PROCESS_VIRTUAL_STRIDE). */
  function SlotPage(slot: nat): nat {
    REGION_PAGE + 32 * slot
  }

  /** The static page directory of a slot. */
  function ProcDir(L: Layout, s: nat): nat {
    L.pdirs + s
  }

  /** The two memories translate every page of the directory alike. */
  ghost predicate SameSpace(ram: Ram, ram': Ram, dir: nat) {
    forall vp: nat :: Lookup(ram', dir, vp) == Lookup(ram, dir, vp)
  }

  /** Everything a frame can be used for. */
  datatype Use = KernelTable(i: nat) | KernelPage(vp: nat) | ProcessTable(slot: nat) | ProcessPage(slot: nat, k: nat)

  /** The frame held by a use, or 0. */
  function Holds(L: Layout, ram: Ram, procs: seq<ProcMem>, u: Use): nat {
    match u
    case KernelTable(i) => if 4 <= i < ENTRIES && HasTable(ram, L.kdir, i) then TableOf(ram, L.kdir, i) else 0
    case KernelPage(vp) => if VMALLOC_PAGE <= vp < PAGES then Frame(Lookup(ram, L.kdir, vp)) else 0
    case ProcessTable(s) => if s < |procs| && procs[s].live then procs[s].table else 0
    case ProcessPage(s, k) =>
      if s < |procs| && procs[s].live && k < 4 && k < |procs[s].pages| then procs[s].pages[k] else 0
  }

  /** The statically allocated table of the identity map for directory entry i. */
  function StaticTable(L: Layout, i: nat): nat {
    L.ktabs + i
  }

  /** Kernel entries map whole frames with PAGE_KERNEL, starting with the identity map of the first 16 MB. */
  ghost predicate KernelOk(L: Layout, ram: Ram) {
    && (forall i: nat | i < 4 :: Entry(ram, L.kdir, i) == Word(StaticTable(L, i), PAGE_KERNEL))
    && (forall i: nat | i < ENTRIES && HasTable(ram, L.kdir, i) ::
          && Entry(ram, L.kdir, i) == Word(TableOf(ram, L.kdir, i), PAGE_KERNEL)
          && 0 < TableOf(ram, L.kdir, i) < |ram|)
    && (forall i: nat | i < ENTRIES && !HasTable(ram, L.kdir, i) :: Entry(ram, L.kdir, i) == 0)
    && (forall vp: nat | vp < VMALLOC_PAGE :: Lookup(ram, L.kdir, vp) == Word(vp, PAGE_KERNEL))
    && (forall vp: nat | VMALLOC_PAGE <= vp < PAGES && Lookup(ram, L.kdir, vp) != 0 ::
          && Lookup(ram, L.kdir, vp) == Word(Frame(Lookup(ram, L.kdir, vp)), PAGE_KERNEL)
          && Frame(Lookup(ram, L.kdir, vp)) != 0)
  }

  /** A live process: its own table maps exactly its four pages, and the rest of its directory is copied
      from the kernel's. */
  ghost predicate ProcessOk(L: Layout, ram: Ram, s: nat, m: ProcMem) {
    && |m.pages| == 4 && m.table != 0 && (forall k | 0 <= k < 4 :: m.pages[k] != 0)
    && Entry(ram, ProcDir(L, s), REGION_DIR) == Word(m.table, PAGE_USER_RW)
    && TableMaps(ram, m.table, s, m.pages)
    && (forall i: nat | i < 4 :: Entry(ram, ProcDir(L, s), i) == Entry(ram, L.kdir, i))
    && (forall i: nat | i < ENTRIES && i != REGION_DIR ::
          Entry(ram, ProcDir(L, s), i) == 0 || Entry(ram, ProcDir(L, s), i) == Entry(ram, L.kdir, i))
  }

  /** The code reaches tables and process pages through pointers with their physical addresses, so they lie in the
      identity map of the first 16 MB; pages of vmalloc may lie anywhere. */
  predicate Placed(u: Use, f: nat) {
    u.KernelPage? || f < VMALLOC_PAGE
  }

  ghost predicate Owned(L: Layout, ram: Ram, used: set<nat>, procs: seq<ProcMem>) {
    forall u: Use | Holds(L, ram, procs, u) != 0 ::
      && Holds(L, ram, procs, u) in used && !Reserved(L, Holds(L, ram, procs, u))
      && Placed(u, Holds(L, ram, procs, u))
  }

  /** No frame has two uses. */
  ghost predicate Unique(L: Layout, ram: Ram, procs: seq<ProcMem>) {
    forall u: Use, v: Use | Holds(L, ram, procs, u) != 0 && Holds(L, ram, procs, u) == Holds(L, ram, procs, v) :: u == v
  }

  /** What every run of vmalloc, vfree, process creation, fork and collection keeps. */
  ghost predicate Inv(L: Layout, ram: Ram, used: set<nat>, procs: seq<ProcMem>) {
    && LayoutOk(L) && RamOk(ram) && |ram| == L.frames && |procs| == SLOTS
    && (forall f | f in used :: f < L.total)
    && (forall f: nat | f < L.total && Reserved(L, f) :: f in used)
    && KernelOk(L, ram) && Owned(L, ram, used, procs) && Unique(L, ram, procs)
    && (forall s: nat | s < SLOTS && procs[s].live ::
          ProcessOk(L, ram, s, procs[s]) && !HasTable(ram, L.kdir, REGION_DIR))
  }

  ghost predicate Unheld(L: Layout, ram: Ram, procs: seq<ProcMem>, f: nat) {
    forall u: Use :: Holds(L, ram, procs, u) != f
  }

  lemma KernelWf(L: Layout, ram: Ram, used: set<nat>, procs: seq<ProcMem>)
    requires Inv(L, ram, used, procs)
    ensures WfSpace(ram, L.kdir)
  {
    forall i: nat | i < ENTRIES && HasTable(ram, L.kdir, i)
      ensures TableOf(ram, L.kdir, i) != L.kdir && Writable(Entry(ram, L.kdir, i))
    {
      FlagWords(TableOf(ram, L.kdir, i));
      KernelTableKind(L, ram, used, procs, i);
    }
    forall i: nat, j: nat | i < j < ENTRIES && HasTable(ram, L.kdir, i) && HasTable(ram, L.kdir, j)
      ensures TableOf(ram, L.kdir, i) != TableOf(ram, L.kdir, j)
    {
      KernelTableKind(L, ram, used, procs, i);
      KernelTableKind(L, ram, used, procs, j);
      assert 4 <= i ==> KernelTable(i) != KernelTable(j);
    }
    forall vp: nat | vp < PAGES
      ensures !User(Lookup(ram, L.kdir, vp))
    {
      KernelNotUser(L, ram, vp);
    }
  }

  /** The first four tables are static, the others are owned frames. */
  lemma KernelTableKind(L: Layout, ram: Ram, used: set<nat>, procs: seq<ProcMem>, i: nat)
    requires Inv(L, ram, used, procs) && i < ENTRIES && HasTable(ram, L.kdir, i)
    ensures i < 4 ==> TableOf(ram, L.kdir, i) == StaticTable(L, i)
    ensures i >= 4 ==>
              && Holds(L, ram, procs, KernelTable(i)) == TableOf(ram, L.kdir, i)
              && !Reserved(L, TableOf(ram, L.kdir, i)) && TableOf(ram, L.kdir, i) in used
  {
    if i < 4 {
      FlagWords(StaticTable(L, i));
    } else {
      assert Holds(L, ram, procs, KernelTable(i)) == TableOf(ram, L.kdir, i);
    }
  }

  lemma KernelNotUser(L: Layout, ram: Ram, vp: nat)
    requires KernelOk(L, ram) && vp < PAGES
    ensures !User(Lookup(ram, L.kdir, vp))
  {
    hide Lookup, Entry, HasTable, TableOf;
    FlagWords(vp);
    FlagWords(Frame(Lookup(ram, L.kdir, vp)));
  }

  // ---- Access through physical addresses ----

  /** The current directory is the kernel's or that of a live process. */
  ghost predicate CurrentOk(L: Layout, procs: seq<ProcMem>, cur: nat) {
    cur == L.kdir || exists s: nat :: s < SLOTS && s < |procs| && procs[s].live && cur == ProcDir(L, s)
  }

  /** The first four tables of the directory are the static ones of the identity map. */
  ghost predicate StartsWithIdentity(L: Layout, ram: Ram, cur: nat) {
    forall i: nat | i < 4 :: Entry(ram, cur, i) == Word(StaticTable(L, i), PAGE_KERNEL)
  }

  lemma CurrentStarts(L: Layout, ram: Ram, used: set<nat>, procs: seq<ProcMem>, cur: nat)
    requires Inv(L, ram, used, procs) && CurrentOk(L, procs, cur)
    ensures StartsWithIdentity(L, ram, cur) && cur < |ram| && cur < ReservedEnd(L)
    ensures !(L.ktabs <= cur < L.ktabs + 4)
  {
    hide Owned, Unique, Lookup;
  }

  lemma LowIndex(p: nat)
    requires p < VMALLOC_PAGE
    ensures DirIndex(p) < 4 && p < PAGES
  {
  }

  /** A directory that starts with the static tables translates the first 16 MB as the kernel does. */
  lemma LowAlike(L: Layout, ram: Ram, a: nat, b: nat, p: nat)
    requires StartsWithIdentity(L, ram, a) && StartsWithIdentity(L, ram, b) && p < VMALLOC_PAGE
    ensures Lookup(ram, a, p) == Lookup(ram, b, p)
  {
    hide Word, Entry;
    LowIndex(p);
  }

  /** Below 16 MB a physical address leads to its own frame, in the kernel's space and in every process's. */
  lemma LowReaches(L: Layout, ram: Ram, used: set<nat>, procs: seq<ProcMem>, cur: nat, p: nat)
    requires Inv(L, ram, used, procs) && CurrentOk(L, procs, cur) && p < VMALLOC_PAGE
    ensures Reaches(ram, cur, p)
  {
    hide Owned, Unique, Lookup;
    CurrentStarts(L, ram, used, procs, cur);
    LowAlike(L, ram, cur, L.kdir, p);
    FlagWords(p);
  }

  /** At 16 MB and above, the address of a frame that nothing maps leads to another frame or to none. */
  lemma HighUnreached(L: Layout, ram: Ram, used: set<nat>, procs: seq<ProcMem>, cur: nat, t: nat)
    requires Inv(L, ram, used, procs) && CurrentOk(L, procs, cur) && VMALLOC_PAGE <= t < PAGES
             && Unheld(L, ram, procs, t)
    ensures !Reaches(ram, cur, t)
  {
    assert Holds(L, ram, procs, KernelPage(t)) != t;
    if cur != L.kdir {
      var s: nat :| s < SLOTS && s < |procs| && procs[s].live && cur == ProcDir(L, s);
      ProcessUnreached(L, ram, used, procs, s, t);
    }
  }

  lemma ProcessUnreached(L: Layout, ram: Ram, used: set<nat>, procs: seq<ProcMem>, s: nat, t: nat)
    requires Inv(L, ram, used, procs) && s < SLOTS && procs[s].live && VMALLOC_PAGE <= t < PAGES
    requires Unheld(L, ram, procs, t) && !Reaches(ram, L.kdir, t)
    ensures !Reaches(ram, ProcDir(L, s), t)
  {
    var d, i := ProcDir(L, s), DirIndex(t);
    DirIndexBound(t);
    if i == REGION_DIR {
      OwnTable(L, ram, s, procs[s], TableIndex(t));
      var j := TableIndex(t);
      if 32 * s <= j < 32 * s + 4 {
        FlagWords(procs[s].pages[j - 32 * s]);
        assert Holds(L, ram, procs, ProcessPage(s, j - 32 * s)) != t;
      }
    } else if Entry(ram, d, i) == 0 {
      assert !Present(0);
    }
  }

  /** Creating a table elsewhere, or changing a directory entry from 16 MB on, leaves the identity map in place. */
  lemma LowStays(L: Layout, ram: Ram, ram': Ram, cur: nat, p: nat)
    requires StartsWithIdentity(L, ram, cur) && p < VMALLOC_PAGE && L.ktabs + 4 <= |ram| && |ram'| == |ram|
    requires forall i: nat | i < 4 :: Entry(ram', cur, i) == Entry(ram, cur, i)
    requires forall i: nat | i < 4 :: ram'[StaticTable(L, i)] == ram[StaticTable(L, i)]
    ensures Lookup(ram', cur, p) == Lookup(ram, cur, p)
  {
    LowIndex(p);
    var i := DirIndex(p);
    FlagWords(StaticTable(L, i));
    assert ram'[StaticTable(L, i)] == ram[StaticTable(L, i)];
  }

  // ---- Frames come and go ----

  lemma TakeKeeps(L: Layout, ram: Ram, used: set<nat>, procs: seq<ProcMem>, f: nat)
    requires Inv(L, ram, used, procs) && f < L.total && f !in used
    ensures Inv(L, ram, used + {f}, procs) && !Reserved(L, f) && f != 0 && Unheld(L, ram, procs, f)
  {
  }

  lemma GiveBackKeeps(L: Layout, ram: Ram, used: set<nat>, procs: seq<ProcMem>, f: nat)
    requires Inv(L, ram, used, procs) && !Reserved(L, f) && Unheld(L, ram, procs, f)
    ensures Inv(L, ram, used - {f}, procs)
  {
  }

  // ---- Writes that touch no directory and no table ----

  /** A frame that some page walk reads. */
  ghost predicate Structure(L: Layout, ram: Ram, procs: seq<ProcMem>, f: nat) {
    || f == L.kdir
    || (exists i: nat :: i < ENTRIES && HasTable(ram, L.kdir, i) && TableOf(ram, L.kdir, i) == f)
    || (exists s: nat :: s < |procs| && procs[s].live && (f == ProcDir(L, s) || f == procs[s].table))
  }

  ghost predicate SameStructure(L: Layout, ram: Ram, ram': Ram, procs: seq<ProcMem>) {
    && |ram'| == |ram| && RamOk(ram')
    && forall f: nat | f < |ram| && Structure(L, ram, procs, f) :: ram'[f] == ram[f]
  }

  lemma OutsideKernel(L: Layout, ram: Ram, ram': Ram, used: set<nat>, procs: seq<ProcMem>)
    requires Inv(L, ram, used, procs) && SameStructure(L, ram, ram', procs)
    ensures forall i: nat :: Entry(ram', L.kdir, i) == Entry(ram, L.kdir, i)
    ensures SameSpace(ram, ram', L.kdir)
    ensures forall u: Use :: Holds(L, ram', procs, u) == Holds(L, ram, procs, u)
  {
    assert ram'[L.kdir] == ram[L.kdir];
    forall vp: nat
      ensures Lookup(ram', L.kdir, vp) == Lookup(ram, L.kdir, vp)
    {
      var i := DirIndex(vp);
      if HasTable(ram, L.kdir, i) {
        var t := TableOf(ram, L.kdir, i);
        assert Structure(L, ram, procs, t);
        assert ram'[t] == ram[t];
      }
    }
  }

  /** Such writes change no translation of the kernel or of any process, and keep the invariant. */
  lemma OutsideKeeps(L: Layout, ram: Ram, ram': Ram, used: set<nat>, procs: seq<ProcMem>)
    requires Inv(L, ram, used, procs) && SameStructure(L, ram, ram', procs)
    ensures Inv(L, ram', used, procs)
    ensures SameSpace(ram, ram', L.kdir)
    ensures forall s: nat | s < SLOTS && procs[s].live :: SameSpace(ram, ram', ProcDir(L, s))
  {
    OutsideKernel(L, ram, ram', used, procs);
    forall s: nat | s < SLOTS && procs[s].live
      ensures ProcessOk(L, ram', s, procs[s])
      ensures SameSpace(ram, ram', ProcDir(L, s))
    {
      OutsideProcess(L, ram, ram', used, procs, s);
      OutsideProcessSpace(L, ram, ram', used, procs, s);
    }
  }

  lemma OutsideProcess(L: Layout, ram: Ram, ram': Ram, used: set<nat>, procs: seq<ProcMem>, s: nat)
    requires Inv(L, ram, used, procs) && SameStructure(L, ram, ram', procs)
    requires s < SLOTS && procs[s].live
    ensures ProcessOk(L, ram', s, procs[s])
  {
    ProcessTableFrame(L, ram, used, procs, s);
    assert ram'[ProcDir(L, s)] == ram[ProcDir(L, s)];
    assert ram'[procs[s].table] == ram[procs[s].table];
    assert ram'[L.kdir] == ram[L.kdir];
    ProcessOkLocal(L, ram, ram', s, procs[s]);
  }

  /** ProcessOk reads three frames only. */
  lemma ProcessOkLocal(L: Layout, ram: Ram, ram': Ram, s: nat, m: ProcMem)
    requires ProcessOk(L, ram, s, m) && |ram'| == |ram|
    requires ProcDir(L, s) < |ram| && m.table < |ram| && L.kdir < |ram|
    requires ram'[ProcDir(L, s)] == ram[ProcDir(L, s)] && ram'[m.table] == ram[m.table] && ram'[L.kdir] == ram[L.kdir]
    ensures ProcessOk(L, ram', s, m)
  {
    assert forall j: nat :: Entry(ram', m.table, j) == Entry(ram, m.table, j);
    assert forall i: nat :: Entry(ram', ProcDir(L, s), i) == Entry(ram, ProcDir(L, s), i);
    assert forall i: nat :: Entry(ram', L.kdir, i) == Entry(ram, L.kdir, i);
  }

  lemma OutsideProcessSpace(L: Layout, ram: Ram, ram': Ram, used: set<nat>, procs: seq<ProcMem>, s: nat)
    requires Inv(L, ram, used, procs) && SameStructure(L, ram, ram', procs)
    requires s < SLOTS && procs[s].live
    ensures SameSpace(ram, ram', ProcDir(L, s))
  {
  }

  lemma ProcessTableFrame(L: Layout, ram: Ram, used: set<nat>, procs: seq<ProcMem>, s: nat)
    requires Inv(L, ram, used, procs) && s < SLOTS && procs[s].live
    ensures procs[s].table in used && procs[s].table < L.total && !Reserved(L, procs[s].table)
    ensures Holds(L, ram, procs, ProcessTable(s)) == procs[s].table
  {
    assert Holds(L, ram, procs, ProcessTable(s)) == procs[s].table;
  }

  /** A frame outside the reserved range that holds no table is no structure. */
  lemma DataIsNoStructure(L: Layout, ram: Ram, used: set<nat>, procs: seq<ProcMem>, f: nat)
    requires Inv(L, ram, used, procs) && !Reserved(L, f)
    requires forall i: nat :: Holds(L, ram, procs, KernelTable(i)) != f
    requires forall s: nat :: Holds(L, ram, procs, ProcessTable(s)) != f
    ensures !Structure(L, ram, procs, f)
  {
    forall i: nat | i < ENTRIES && HasTable(ram, L.kdir, i)
      ensures TableOf(ram, L.kdir, i) != f
    {
      KernelTableKind(L, ram, used, procs, i);
      assert Holds(L, ram, procs, KernelTable(i)) != f;
    }
    forall s: nat | s < |procs| && procs[s].live
      ensures f != ProcDir(L, s) && f != procs[s].table
    {
      assert Holds(L, ram, procs, ProcessTable(s)) != f;
    }
  }

  /** Filling a frame that holds no table, such as a data page or a fresh frame. */
  lemma FillKeeps(L: Layout, ram: Ram, used: set<nat>, procs: seq<ProcMem>, f: nat, page: seq<nat>)
    requires Inv(L, ram, used, procs) && f < |ram| && !Reserved(L, f) && |page| == ENTRIES
    requires forall i: nat :: Holds(L, ram, procs, KernelTable(i)) != f
    requires forall s: nat :: Holds(L, ram, procs, ProcessTable(s)) != f
    ensures SameStructure(L, ram, ram[f := page], procs)
    ensures Inv(L, ram[f := page], used, procs)
    ensures forall u: Use :: Holds(L, ram[f := page], procs, u) == Holds(L, ram, procs, u)
    ensures SameSpace(ram, ram[f := page], L.kdir)
    ensures forall i: nat :: Entry(ram[f := page], L.kdir, i) == Entry(ram, L.kdir, i)
  {
    DataIsNoStructure(L, ram, used, procs, f);
    OutsideKernel(L, ram, ram[f := page], used, procs);
    OutsideKeeps(L, ram, ram[f := page], used, procs);
  }

  // ---- Kernel mappings (vmalloc and vfree) ----

  /** An unheld frame outside the reserved range can become a table of the kernel directory. */
  lemma UnheldIsFresh(L: Layout, ram: Ram, used: set<nat>, procs: seq<ProcMem>, t: nat)
    requires Inv(L, ram, used, procs) && t < |ram| && !Reserved(L, t) && Unheld(L, ram, procs, t)
    ensures FreshFor(ram, L.kdir, t) && !Structure(L, ram, procs, t)
  {
    forall i: nat
      ensures Holds(L, ram, procs, KernelTable(i)) != t && Holds(L, ram, procs, ProcessTable(i)) != t
    {
    }
    DataIsNoStructure(L, ram, used, procs, t);
  }

  /** Directory and translations after a kernel page is mapped. */
  lemma MapKernelView(L: Layout, ram: Ram, used: set<nat>, procs: seq<ProcMem>, vp: nat, f: nat, t: nat)
    requires Inv(L, ram, used, procs) && VMALLOC_PAGE <= vp < PAGES && FreshFor(ram, L.kdir, t)
    ensures var r := MapIn(ram, L.kdir, vp, f, PAGE_KERNEL, t);
            var i := DirIndex(vp);
            && 4 <= i < ENTRIES && |r| == |ram| && RamOk(r)
            && (forall k: nat | k != i :: Entry(r, L.kdir, k) == Entry(ram, L.kdir, k))
            && Entry(r, L.kdir, i) == (if HasTable(ram, L.kdir, i) then Entry(ram, L.kdir, i) else Word(t, PAGE_KERNEL))
            && HasTable(r, L.kdir, i)
            && Lookup(r, L.kdir, vp) == Word(f, PAGE_KERNEL)
            && (forall vq: nat | vq < PAGES && vq != vp :: Lookup(r, L.kdir, vq) == Lookup(ram, L.kdir, vq))
            && TableOf(r, L.kdir, i) == (if HasTable(ram, L.kdir, i) then TableOf(ram, L.kdir, i) else t)
            && (forall g: nat | g < |ram| && g != L.kdir && g != TableOf(r, L.kdir, i) :: r[g] == ram[g])
  {
    KernelWf(L, ram, used, procs);
    MapRefines(ram, L.kdir, vp, f, PAGE_KERNEL, t);
    MapWrites(ram, L.kdir, vp, f, t);
    DirIndexRange(vp);
    FlagWords(t);
    FlagWords(f);
  }

  lemma DirIndexRange(vp: nat)
    requires VMALLOC_PAGE <= vp < PAGES
    ensures 4 <= DirIndex(vp) < ENTRIES && DirIndex(vp) == vp / 1024
  {
  }

  lemma MapKernelHolds(L: Layout, ram: Ram, used: set<nat>, procs: seq<ProcMem>, vp: nat, f: nat, t: nat)
    requires Inv(L, ram, used, procs) && VMALLOC_PAGE <= vp < PAGES && FreshFor(ram, L.kdir, t)
    ensures var r := MapIn(ram, L.kdir, vp, f, PAGE_KERNEL, t);
            forall u: Use :: Holds(L, r, procs, u) ==
              if u == KernelPage(vp) then f
              else if u == KernelTable(DirIndex(vp)) && !HasTable(ram, L.kdir, DirIndex(vp)) then t
              else Holds(L, ram, procs, u)
  {
    MapKernelView(L, ram, used, procs, vp, f, t);
    var r := MapIn(ram, L.kdir, vp, f, PAGE_KERNEL, t);
    FlagWords(f);
    assert Holds(L, r, procs, KernelPage(vp)) == f;
    assert Holds(L, r, procs, KernelTable(DirIndex(vp))) == TableOf(r, L.kdir, DirIndex(vp));
    forall u: Use
      ensures Holds(L, r, procs, u) ==
              if u == KernelPage(vp) then f
              else if u == KernelTable(DirIndex(vp)) && !HasTable(ram, L.kdir, DirIndex(vp)) then t
              else Holds(L, ram, procs, u)
    {
      HoldsElsewhere(L, ram, r, procs, vp, u);
    }
  }

  /** Uses away from page vp and its table hold what they held. */
  lemma HoldsElsewhere(L: Layout, ram: Ram, r: Ram, procs: seq<ProcMem>, vp: nat, u: Use)
    requires u.KernelTable? && u.i != DirIndex(vp) ==> Entry(r, L.kdir, u.i) == Entry(ram, L.kdir, u.i)
    requires u.KernelPage? && u.vp < PAGES && u.vp != vp ==> Lookup(r, L.kdir, u.vp) == Lookup(ram, L.kdir, u.vp)
    ensures u != KernelPage(vp) && u != KernelTable(DirIndex(vp)) ==> Holds(L, r, procs, u) == Holds(L, ram, procs, u)
  {
  }

  /** Giving unheld frames to two uses that held nothing keeps ownership exclusive. */
  lemma GrantKeepsUnique(L: Layout, ram: Ram, r: Ram, used: set<nat>, procs: seq<ProcMem>, a: Use, f: nat, b: Use,
                         t: nat)
    requires Owned(L, ram, used, procs) && Unique(L, ram, procs)
    requires f in used && !Reserved(L, f) && Unheld(L, ram, procs, f)
    requires t in used && !Reserved(L, t) && Unheld(L, ram, procs, t) && (f != t || a == b)
    requires Placed(a, f) && Placed(b, t)
    requires forall u: Use ::
               Holds(L, r, procs, u) == if u == a then f else if u == b then t else Holds(L, ram, procs, u)
    ensures Owned(L, r, used, procs) && Unique(L, r, procs)
  {
  }

  lemma MapKernelOk(L: Layout, ram: Ram, used: set<nat>, procs: seq<ProcMem>, vp: nat, f: nat, t: nat)
    requires Inv(L, ram, used, procs) && VMALLOC_PAGE <= vp < PAGES && FreshFor(ram, L.kdir, t) && f != 0 && t != 0
    ensures KernelOk(L, MapIn(ram, L.kdir, vp, f, PAGE_KERNEL, t))
  {
    var r := MapIn(ram, L.kdir, vp, f, PAGE_KERNEL, t);
    MapKernelView(L, ram, used, procs, vp, f, t);
    FlagWords(f);
    FlagWords(t);
    forall k: nat | k < ENTRIES && k != DirIndex(vp)
      ensures HasTable(r, L.kdir, k) == HasTable(ram, L.kdir, k) && TableOf(r, L.kdir, k) == TableOf(ram, L.kdir, k)
    {
    }
  }

  lemma MapKernelProcess(L: Layout, ram: Ram, used: set<nat>, procs: seq<ProcMem>, vp: nat, f: nat, t: nat, s: nat)
    requires Inv(L, ram, used, procs) && VMALLOC_PAGE <= vp < PAGES && FreshFor(ram, L.kdir, t)
    requires !Reserved(L, t) && Unheld(L, ram, procs, t) && s < SLOTS && procs[s].live
    ensures ProcessOk(L, MapIn(ram, L.kdir, vp, f, PAGE_KERNEL, t), s, procs[s])
  {
    var r := MapIn(ram, L.kdir, vp, f, PAGE_KERNEL, t);
    var i, d, p := DirIndex(vp), ProcDir(L, s), procs[s].table;
    MapKernelView(L, ram, used, procs, vp, f, t);
    FlagWords(t);
    ProcessTableFrame(L, ram, used, procs, s);
    var changed := TableOf(r, L.kdir, i);
    if HasTable(ram, L.kdir, i) {
      KernelTableKind(L, ram, used, procs, i);
      assert Holds(L, ram, procs, KernelTable(i)) == changed;
    }
    assert changed != p && changed != d;
    assert r[d] == ram[d] && r[p] == ram[p];
    assert forall j: nat :: Entry(r, p, j) == Entry(ram, p, j);
    assert forall k: nat :: Entry(r, d, k) == Entry(ram, d, k);
    assert TableMaps(ram, p, s, procs[s].pages);
  }

  /** Mapping an unheld frame at an unmapped kernel page, with an unheld frame for the table if one is needed. */
  lemma MapKernelKeeps(L: Layout, ram: Ram, used: set<nat>, procs: seq<ProcMem>, vp: nat, f: nat, t: nat)
    requires Inv(L, ram, used, procs) && VMALLOC_PAGE <= vp < PAGES && Lookup(ram, L.kdir, vp) == 0
    requires f in used && f != 0 && !Reserved(L, f) && Unheld(L, ram, procs, f)
    requires t in used && t != 0 && !Reserved(L, t) && Unheld(L, ram, procs, t)
    requires HasTable(ram, L.kdir, DirIndex(vp)) || (t != f && t < VMALLOC_PAGE)
    requires DirIndex(vp) != REGION_DIR || forall s: nat | s < SLOTS :: !procs[s].live
    ensures FreshFor(ram, L.kdir, t) && Inv(L, MapIn(ram, L.kdir, vp, f, PAGE_KERNEL, t), used, procs)
  {
    UnheldIsFresh(L, ram, used, procs, t);
    var r := MapIn(ram, L.kdir, vp, f, PAGE_KERNEL, t);
    MapKernelView(L, ram, used, procs, vp, f, t);
    MapKernelHolds(L, ram, used, procs, vp, f, t);
    MapKernelOk(L, ram, used, procs, vp, f, t);
    var page, table := KernelPage(vp), KernelTable(DirIndex(vp));
    if HasTable(ram, L.kdir, DirIndex(vp)) {
      GrantKeepsUnique(L, ram, r, used, procs, page, f, page, f);
    } else {
      GrantKeepsUnique(L, ram, r, used, procs, page, f, table, t);
    }
    forall s: nat | s < SLOTS && procs[s].live
      ensures ProcessOk(L, r, s, procs[s]) && !HasTable(r, L.kdir, REGION_DIR)
    {
      MapKernelProcess(L, ram, used, procs, vp, f, t, s);
    }
  }

  /** Translations and holdings after a kernel page is unmapped. */
  lemma UnmapKernelView(L: Layout, ram: Ram, used: set<nat>, procs: seq<ProcMem>, vp: nat)
    requires Inv(L, ram, used, procs) && VMALLOC_PAGE <= vp < PAGES
    ensures WfSpace(ram, L.kdir)
    ensures var r := UnmapIn(ram, L.kdir, vp);
            && |r| == |ram| && RamOk(r)
            && (forall k: nat :: Entry(r, L.kdir, k) == Entry(ram, L.kdir, k))
            && Lookup(r, L.kdir, vp) == 0
            && (forall vq: nat | vq < PAGES && vq != vp :: Lookup(r, L.kdir, vq) == Lookup(ram, L.kdir, vq))
            && (var i := DirIndex(vp);
                forall g: nat | g < |ram| && (HasTable(ram, L.kdir, i) ==> g != TableOf(ram, L.kdir, i)) ::
                  r[g] == ram[g])
  {
    KernelWf(L, ram, used, procs);
    UnmapRefines(ram, L.kdir, vp);
    assert UnmapIn(ram, L.kdir, vp)[L.kdir] == ram[L.kdir];
  }

  lemma UnmapKernelHolds(L: Layout, ram: Ram, used: set<nat>, procs: seq<ProcMem>, vp: nat)
    requires Inv(L, ram, used, procs) && VMALLOC_PAGE <= vp < PAGES
    ensures WfSpace(ram, L.kdir)
    ensures forall u: Use :: Holds(L, UnmapIn(ram, L.kdir, vp), procs, u) ==
              if u == KernelPage(vp) then 0 else Holds(L, ram, procs, u)
  {
    UnmapKernelView(L, ram, used, procs, vp);
    var r := UnmapIn(ram, L.kdir, vp);
    forall u: Use
      ensures Holds(L, r, procs, u) == if u == KernelPage(vp) then 0 else Holds(L, ram, procs, u)
    {
      HoldsElsewhere(L, ram, r, procs, vp, u);
    }
  }

  lemma UnmapKernelKeeps(L: Layout, ram: Ram, used: set<nat>, procs: seq<ProcMem>, vp: nat)
    requires Inv(L, ram, used, procs) && VMALLOC_PAGE <= vp < PAGES
    ensures WfSpace(ram, L.kdir) && Inv(L, UnmapIn(ram, L.kdir, vp), used, procs)
  {
    var r := UnmapIn(ram, L.kdir, vp);
    UnmapKernelView(L, ram, used, procs, vp);
    UnmapKernelHolds(L, ram, used, procs, vp);
    assert KernelOk(L, r);
    assert Unique(L, r, procs);
    forall s: nat | s < SLOTS && procs[s].live
      ensures ProcessOk(L, r, s, procs[s])
    {
      ProcessTableFrame(L, ram, used, procs, s);
      var i := DirIndex(vp);
      if HasTable(ram, L.kdir, i) {
        KernelTableKind(L, ram, used, procs, i);
        assert KernelTable(i) != ProcessTable(s);
      }
      ProcessOkLocal(L, ram, r, s, procs[s]);
    }
  }

  // ---- Process address spaces ----

  /** Table t maps the given pages at the place of slot s and nothing else. */
  ghost predicate TableMaps(ram: Ram, t: nat, s: nat, pages: seq<nat>) {
    forall j: nat | j < ENTRIES ::
      Entry(ram, t, j) == if 32 * s <= j < 32 * s + |pages| then Word(pages[j - 32 * s], PAGE_USER_RW) else 0
  }

  /** Memory ram0 after the directory of slot s was copied and its first |pages| pages were mapped through table t. */
  ghost predicate Building(L: Layout, ram0: Ram, ram: Ram, s: nat, t: nat, pages: seq<nat>) {
    && |ram| == |ram0| && RamOk(ram) && s < SLOTS && |pages| <= 4
    && (forall i: nat | i < ENTRIES && i != REGION_DIR :: Entry(ram, ProcDir(L, s), i) == Entry(ram0, L.kdir, i))
    && Entry(ram, ProcDir(L, s), REGION_DIR) == (if pages == [] then 0 else Word(t, PAGE_USER_RW))
    && (pages != [] ==> t < |ram| && t != ProcDir(L, s) && t !in pages && TableMaps(ram, t, s, pages))
    && (forall k | 0 <= k < |pages| :: pages[k] < |ram| && ram[pages[k]] == ZeroPage())
    && (forall g: nat | g < |ram| && g != ProcDir(L, s) && (pages != [] ==> g != t) && g !in pages :: ram[g] == ram0[g])
  }

  lemma SlotIndex(s: nat, k: nat)
    requires s < SLOTS && k < 4
    ensures DirIndex(SlotPage(s) + k) == REGION_DIR && TableIndex(SlotPage(s) + k) == 32 * s + k
    ensures SlotPage(s) + k < PAGES
  {
  }

  /** Mapping and clearing one more page of the slot; the first one also creates the table. */
  lemma BuildFirst(L: Layout, ram0: Ram, ram: Ram, s: nat, t: nat, f: nat)
    requires Building(L, ram0, ram, s, t, []) && ProcDir(L, s) < |ram|
    requires t < |ram| && f < |ram| && t != f && t != ProcDir(L, s) && f != ProcDir(L, s)
    ensures !HasTable(ram, ProcDir(L, s), REGION_DIR)
    ensures var r := MapIn(ram, ProcDir(L, s), SlotPage(s), f, PAGE_USER_RW, t);
            |r| == |ram| && Building(L, ram0, r[f := ZeroPage()], s, t, [f])
  {
    SlotIndex(s, 0);
    var d := ProcDir(L, s);
    var r := MapIn(ram, d, SlotPage(s), f, PAGE_USER_RW, t);
    assert User(PAGE_USER_RW);
    var table: seq<nat> := ZeroPage()[32 * s := Word(f, PAGE_USER_RW)];
    var dir: seq<nat> := ram[d][REGION_DIR := Word(t, PAGE_USER_RW)];
    assert r == ram[t := table][d := dir];
  }

  lemma BuildNext(L: Layout, ram0: Ram, ram: Ram, s: nat, t: nat, pages: seq<nat>, f: nat, spare: nat)
    requires Building(L, ram0, ram, s, t, pages) && 1 <= |pages| < 4 && ProcDir(L, s) < |ram| && spare < |ram|
    requires f < |ram| && f != t && f != ProcDir(L, s) && f !in pages
    ensures HasTable(ram, ProcDir(L, s), REGION_DIR) && TableOf(ram, ProcDir(L, s), REGION_DIR) == t
    ensures DirIndex(SlotPage(s) + |pages|) == REGION_DIR
    ensures var r := MapIn(ram, ProcDir(L, s), SlotPage(s) + |pages|, f, PAGE_USER_RW, spare);
            |r| == |ram| && Building(L, ram0, r[f := ZeroPage()], s, t, pages + [f])
  {
    FlagWords(t);
    MapInExisting(ram, ProcDir(L, s), s, |pages|, f, t, spare);
    var table: seq<nat> := ram[t][32 * s + |pages| := Word(f, PAGE_USER_RW)];
    BuildTable(ram, s, t, pages, f);
    BuildFrames(L, ram0, ram, s, t, pages, f, table);
  }

  /** Mapping page k of a slot whose table exists is one store into that table. */
  lemma MapInExisting(ram: Ram, d: nat, s: nat, k: nat, f: nat, t: nat, spare: nat)
    requires RamOk(ram) && d < |ram| && t < |ram| && spare < |ram| && t != d && s < SLOTS && k < 4
    requires Entry(ram, d, REGION_DIR) == Word(t, PAGE_USER_RW)
    ensures HasTable(ram, d, REGION_DIR) && TableOf(ram, d, REGION_DIR) == t && DirIndex(SlotPage(s) + k) == REGION_DIR
    ensures MapIn(ram, d, SlotPage(s) + k, f, PAGE_USER_RW, spare) == Store(ram, t, 32 * s + k, Word(f, PAGE_USER_RW))
  {
    SlotIndex(s, k);
    FlagWords(t);
    var vp := SlotPage(s) + k;
    assert WithTable(ram, d, vp, PAGE_USER_RW, spare) == ram by {
      assert ram[d][DirIndex(vp)] == OrUser(ram[d][DirIndex(vp)]);
      assert ram[d][REGION_DIR := ram[d][REGION_DIR]] == ram[d];
    }
  }

  lemma BuildTable(ram: Ram, s: nat, t: nat, pages: seq<nat>, f: nat)
    requires RamOk(ram) && t < |ram| && s < SLOTS && |pages| < 4 && f < |ram| && f != t && TableMaps(ram, t, s, pages)
    ensures TableMaps(Store(ram, t, 32 * s + |pages|, Word(f, PAGE_USER_RW))[f := ZeroPage()], t, s, pages + [f])
  {
    var r := Store(ram, t, 32 * s + |pages|, Word(f, PAGE_USER_RW))[f := ZeroPage()];
    assert r[t] == ram[t][32 * s + |pages| := Word(f, PAGE_USER_RW)];
    forall j: nat | j < ENTRIES && j != 32 * s + |pages|
      ensures Entry(r, t, j) == Entry(ram, t, j)
    {
    }
  }

  lemma BuildFrames(L: Layout, ram0: Ram, ram: Ram, s: nat, t: nat, pages: seq<nat>, f: nat, table: seq<nat>)
    requires Building(L, ram0, ram, s, t, pages) && 1 <= |pages| < 4 && ProcDir(L, s) < |ram|
    requires f < |ram| && f != t && f != ProcDir(L, s) && f !in pages && |table| == ENTRIES
    requires TableMaps(ram[t := table][f := ZeroPage()], t, s, pages + [f])
    ensures Building(L, ram0, ram[t := table][f := ZeroPage()], s, t, pages + [f])
  {
  }

  /** While a slot is being built, nothing that another page walk reads has changed. */
  lemma BuildingIsOutside(L: Layout, ram0: Ram, ram: Ram, used: set<nat>, procs: seq<ProcMem>,
                          s: nat, t: nat, pages: seq<nat>)
    requires Inv(L, ram0, used, procs) && Building(L, ram0, ram, s, t, pages) && !procs[s].live
    requires pages != [] ==> t !in used && t < L.total
    requires forall f | f in pages :: f !in used && f < L.total
    ensures SameStructure(L, ram0, ram, procs)
  {
    DeadDirectory(L, ram0, used, procs, s);
    forall f: nat | f < |ram0| && Structure(L, ram0, procs, f)
      ensures ram[f] == ram0[f]
    {
      StructureIsUsed(L, ram0, used, procs, f);
    }
  }

  /** A structure frame is marked used, or lies beyond the managed frames. */
  lemma StructureIsUsed(L: Layout, ram: Ram, used: set<nat>, procs: seq<ProcMem>, f: nat)
    requires Inv(L, ram, used, procs) && Structure(L, ram, procs, f)
    ensures f in used || f >= L.total
  {
    if i: nat :| i < ENTRIES && HasTable(ram, L.kdir, i) && TableOf(ram, L.kdir, i) == f {
      KernelTableKind(L, ram, used, procs, i);
      assert i < 4 ==> Reserved(L, f);
    } else if s: nat :| s < |procs| && procs[s].live && f == procs[s].table {
      ProcessTableFrame(L, ram, used, procs, s);
    } else {
      assert Reserved(L, f);
    }
  }

  /** The directory of a dead slot is read by no other page walk. */
  lemma DeadDirectory(L: Layout, ram: Ram, used: set<nat>, procs: seq<ProcMem>, s: nat)
    requires Inv(L, ram, used, procs) && s < SLOTS && !procs[s].live
    ensures !Structure(L, ram, procs, ProcDir(L, s))
  {
    var f := ProcDir(L, s);
    assert Reserved(L, f) && f != L.kdir;
    forall i: nat | i < ENTRIES && HasTable(ram, L.kdir, i)
      ensures TableOf(ram, L.kdir, i) != f
    {
      KernelTableKind(L, ram, used, procs, i);
      assert i < 4 ==> L.ktabs <= TableOf(ram, L.kdir, i) < L.ktabs + 4;
    }
    forall q: nat | q < |procs| && procs[q].live
      ensures f != ProcDir(L, q) && f != procs[q].table
    {
      assert q != s;
      ProcessTableFrame(L, ram, used, procs, q);
    }
  }

  /** A fully built slot becomes a live process that owns exactly its five frames. */
  lemma CreateKeeps(L: Layout, ram0: Ram, ram: Ram, used: set<nat>, used': set<nat>, procs: seq<ProcMem>,
                    s: nat, m: ProcMem)
    requires Inv(L, ram0, used, procs) && Building(L, ram0, ram, s, m.table, m.pages) && !procs[s].live
    requires m.live && |m.pages| == 4 && !HasTable(ram0, L.kdir, REGION_DIR)
    requires m.table !in used && m.table < L.total && m.table < VMALLOC_PAGE
    requires forall f | f in m.pages :: f !in used && f < L.total && f < VMALLOC_PAGE
    requires forall i, j | 0 <= i < j < 4 :: m.pages[i] != m.pages[j]
    requires used' == used + {m.table} + (set f | f in m.pages)
    ensures Inv(L, ram, used', procs[s := m])
    ensures SameStructure(L, ram0, ram, procs)
  {
    BuildingIsOutside(L, ram0, ram, used, procs, s, m.table, m.pages);
    OutsideKernel(L, ram0, ram, used, procs);
    OutsideKeeps(L, ram0, ram, used, procs);
    CreateOwns(L, ram, used, used', procs, s, m);
    var procs' := procs[s := m];
    forall q: nat | q < SLOTS && procs'[q].live
      ensures ProcessOk(L, ram, q, procs'[q])
    {
      if q == s {
        BuiltProcess(L, ram0, ram, s, m);
      }
    }
  }

  lemma BuiltProcess(L: Layout, ram0: Ram, ram: Ram, s: nat, m: ProcMem)
    requires Building(L, ram0, ram, s, m.table, m.pages) && |m.pages| == 4 && m.table != 0
    requires forall k | 0 <= k < 4 :: m.pages[k] != 0
    requires forall i: nat :: Entry(ram, L.kdir, i) == Entry(ram0, L.kdir, i)
    ensures ProcessOk(L, ram, s, m)
  {
  }

  lemma CreateOwns(L: Layout, ram: Ram, used: set<nat>, used': set<nat>, procs: seq<ProcMem>, s: nat, m: ProcMem)
    requires Inv(L, ram, used, procs) && s < SLOTS && !procs[s].live && m.live && |m.pages| == 4
    requires m.table !in used && m.table < L.total && m.table < VMALLOC_PAGE && m.table !in m.pages
    requires forall f | f in m.pages :: f !in used && f < L.total && f < VMALLOC_PAGE
    requires forall i, j | 0 <= i < j < 4 :: m.pages[i] != m.pages[j]
    requires used' == used + {m.table} + (set f | f in m.pages)
    ensures Owned(L, ram, used', procs[s := m]) && Unique(L, ram, procs[s := m])
    ensures m.table != 0 && forall k | 0 <= k < 4 :: m.pages[k] != 0
  {
    var procs' := procs[s := m];
    assert Reserved(L, 0) && 0 in used;
    assert forall k | 0 <= k < 4 :: m.pages[k] in m.pages;
    forall u: Use
      ensures Holds(L, ram, procs', u) ==
              if u == ProcessTable(s) then m.table
              else if u.ProcessPage? && u.slot == s && u.k < 4 then m.pages[u.k]
              else Holds(L, ram, procs, u)
    {
    }
    forall u: Use | Holds(L, ram, procs', u) != 0
      ensures Holds(L, ram, procs', u) in used' && !Reserved(L, Holds(L, ram, procs', u))
      ensures Placed(u, Holds(L, ram, procs', u))
    {
    }
    forall u: Use, v: Use | Holds(L, ram, procs', u) != 0 && Holds(L, ram, procs', u) == Holds(L, ram, procs', v)
      ensures u == v
    {
      assert Holds(L, ram, procs, u) != 0 ==> Holds(L, ram, procs, u) in used;
      assert Holds(L, ram, procs, v) != 0 ==> Holds(L, ram, procs, v) in used;
    }
  }

  /** Forgetting a process leaves its five frames unheld. */
  lemma ForgetKeeps(L: Layout, ram: Ram, used: set<nat>, procs: seq<ProcMem>, s: nat)
    requires Inv(L, ram, used, procs) && s < SLOTS && procs[s].live
    ensures Inv(L, ram, used, procs[s := NO_MEMORY])
    ensures Unheld(L, ram, procs[s := NO_MEMORY], procs[s].table) && !Reserved(L, procs[s].table)
    ensures forall k | 0 <= k < 4 ::
              Unheld(L, ram, procs[s := NO_MEMORY], procs[s].pages[k]) && !Reserved(L, procs[s].pages[k])
    ensures procs[s].table !in procs[s].pages && procs[s].table in used
    ensures forall f | f in procs[s].pages :: f in used
    ensures forall i, j | 0 <= i < j < 4 :: procs[s].pages[i] != procs[s].pages[j]
  {
    var procs' := procs[s := NO_MEMORY];
    var m := procs[s];
    forall u: Use
      ensures Holds(L, ram, procs', u) ==
              if u == ProcessTable(s) || (u.ProcessPage? && u.slot == s) then 0 else Holds(L, ram, procs, u)
    {
    }
    assert Holds(L, ram, procs, ProcessTable(s)) == m.table;
    forall k: nat | k < 4
      ensures Holds(L, ram, procs, ProcessPage(s, k)) == m.pages[k]
    {
    }
    forall i, j | 0 <= i < j < 4
      ensures m.pages[i] != m.pages[j]
    {
      assert ProcessPage(s, i) != ProcessPage(s, j);
    }
  }

  /** A slot under construction: what was taken since (ram0, used0), and where it was written. */
  ghost predicate Progress(L: Layout, ram0: Ram, used0: set<nat>, ram: Ram, used: set<nat>, s: nat, t: nat,
                           pages: seq<nat>) {
    && Building(L, ram0, ram, s, t, pages)
    && used == used0 + (set f | f in pages) + (if pages == [] then {} else {t})
    && (pages != [] ==> t !in used0 && t < L.total && t < VMALLOC_PAGE)
    && (forall f | f in pages :: f !in used0 && f < L.total && f < VMALLOC_PAGE)
    && (forall i, j | 0 <= i < j < |pages| :: pages[i] != pages[j])
  }

  /** Frames other than the slot's directory and the taken ones are as in ram0. */
  ghost predicate Touched(L: Layout, ram0: Ram, ram: Ram, s: nat, taken: set<nat>) {
    && |ram| == |ram0| && RamOk(ram)
    && forall g: nat | g < |ram| && g != ProcDir(L, s) && g !in taken :: ram[g] == ram0[g]
  }

  lemma ProgressTouched(L: Layout, ram0: Ram, used0: set<nat>, ram: Ram, used: set<nat>, s: nat, t: nat,
                        pages: seq<nat>)
    requires Progress(L, ram0, used0, ram, used, s, t, pages)
    ensures Touched(L, ram0, ram, s, used - used0)
  {
  }

  /** Writes to a dead slot's directory and to fresh frames leave every address space and the invariant alone. */
  lemma TouchedKeeps(L: Layout, ram0: Ram, used0: set<nat>, ram: Ram, taken: set<nat>, procs: seq<ProcMem>, s: nat)
    requires Inv(L, ram0, used0, procs) && s < SLOTS && !procs[s].live && Touched(L, ram0, ram, s, taken)
    requires forall f | f in taken :: f !in used0 && f < L.total
    ensures Inv(L, ram, used0, procs) && SpacesKept(L, ram0, ram, procs)
  {
    hide Inv;
    DeadDirectory(L, ram0, used0, procs, s);
    forall f: nat | f < |ram0| && Structure(L, ram0, procs, f)
      ensures ram[f] == ram0[f]
    {
      StructureIsUsed(L, ram0, used0, procs, f);
    }
    OutsideKeeps(L, ram0, ram, used0, procs);
  }

  /** The kernel and every live process translate every page as before. */
  ghost predicate SpacesKept(L: Layout, ram0: Ram, ram: Ram, procs: seq<ProcMem>) {
    && SameSpace(ram0, ram, L.kdir)
    && forall s: nat | s < SLOTS && s < |procs| && procs[s].live :: SameSpace(ram0, ram, ProcDir(L, s))
  }

  /** Taking any set of free frames keeps the invariant. */
  lemma TakeAllKeeps(L: Layout, ram: Ram, used: set<nat>, procs: seq<ProcMem>, taken: set<nat>)
    requires Inv(L, ram, used, procs) && forall f | f in taken :: f < L.total
    ensures Inv(L, ram, used + taken, procs)
  {
  }

  lemma ProgressKeeps(L: Layout, ram0: Ram, used0: set<nat>, ram: Ram, used: set<nat>, procs: seq<ProcMem>,
                      s: nat, t: nat, pages: seq<nat>)
    requires Inv(L, ram0, used0, procs) && s < SLOTS && !procs[s].live
    requires Progress(L, ram0, used0, ram, used, s, t, pages)
    ensures Inv(L, ram, used, procs) && SpacesKept(L, ram0, ram, procs)
    ensures forall f | f in used - used0 :: f < L.total && f < |ram| && !Reserved(L, f)
  {
    ProgressTouched(L, ram0, used0, ram, used, s, t, pages);
    TouchedKeeps(L, ram0, used0, ram, used - used0, procs, s);
    TakeAllKeeps(L, ram, used0, procs, used - used0);
    assert used0 + (used - used0) == used;
  }

  /** paging_copy_directory starts the construction. */
  lemma ProgressStart(L: Layout, ram0: Ram, used0: set<nat>, procs: seq<ProcMem>, s: nat)
    requires Inv(L, ram0, used0, procs) && s < SLOTS && !HasTable(ram0, L.kdir, REGION_DIR)
    ensures ProcDir(L, s) < |ram0| && L.kdir < |ram0|
    ensures Progress(L, ram0, used0, ram0[ProcDir(L, s) := ram0[L.kdir]], used0, s, 0, [])
  {
  }

  lemma ProgressFirst(L: Layout, ram0: Ram, used0: set<nat>, ram: Ram, used: set<nat>, s: nat, f: nat, t: nat)
    requires Progress(L, ram0, used0, ram, used, s, 0, []) && ProcDir(L, s) < |ram| && L.total <= |ram|
    requires f !in used && t !in used && f != t && f < L.total && t < L.total && f < VMALLOC_PAGE && t < VMALLOC_PAGE
    requires f != ProcDir(L, s) && t != ProcDir(L, s)
    ensures !HasTable(ram, ProcDir(L, s), REGION_DIR) && DirIndex(SlotPage(s)) == REGION_DIR
    ensures var r := MapIn(ram, ProcDir(L, s), SlotPage(s), f, PAGE_USER_RW, t);
            |r| == |ram| && Progress(L, ram0, used0, r[f := ZeroPage()], used + {f} + {t}, s, t, [f])
  {
    SlotIndex(s, 0);
    BuildFirst(L, ram0, ram, s, t, f);
  }

  lemma ProgressNext(L: Layout, ram0: Ram, used0: set<nat>, ram: Ram, used: set<nat>, s: nat, t: nat, pages: seq<nat>,
                     f: nat)
    requires Progress(L, ram0, used0, ram, used, s, t, pages) && 1 <= |pages| < 4 && ProcDir(L, s) < |ram|
             && L.total <= |ram|
    requires f !in used && f < L.total && f < VMALLOC_PAGE && f != ProcDir(L, s)
    ensures HasTable(ram, ProcDir(L, s), REGION_DIR) && TableOf(ram, ProcDir(L, s), REGION_DIR) == t < |ram|
    ensures DirIndex(SlotPage(s) + |pages|) == REGION_DIR
    ensures var r := MapIn(ram, ProcDir(L, s), SlotPage(s) + |pages|, f, PAGE_USER_RW, f);
            |r| == |ram| && Progress(L, ram0, used0, r[f := ZeroPage()], used + {f}, s, t, pages + [f])
  {
    BuildNext(L, ram0, ram, s, t, pages, f, f);
  }

  /** The finished slot becomes a live process. */
  lemma ProgressDone(L: Layout, ram0: Ram, used0: set<nat>, ram: Ram, used: set<nat>, procs: seq<ProcMem>, s: nat,
                     m: ProcMem)
    requires Inv(L, ram0, used0, procs) && s < SLOTS && !procs[s].live && !HasTable(ram0, L.kdir, REGION_DIR)
    requires Progress(L, ram0, used0, ram, used, s, m.table, m.pages) && |m.pages| == 4 && m.live
    ensures Inv(L, ram, used, procs[s := m])
  {
    hide Inv;
    CreateKeeps(L, ram0, ram, used0, used, procs, s, m);
  }

  /** Ownership depends on what the uses hold and on nothing else. */
  lemma SameHolds(L: Layout, ram: Ram, used: set<nat>, procs: seq<ProcMem>, procs': seq<ProcMem>)
    requires Owned(L, ram, used, procs) && Unique(L, ram, procs)
    requires forall u: Use :: Holds(L, ram, procs', u) == Holds(L, ram, procs, u)
    ensures Owned(L, ram, used, procs') && Unique(L, ram, procs')
  {
    hide Holds, Reserved;
  }

  lemma BreakHolds(L: Layout, ram: Ram, procs: seq<ProcMem>, s: nat, b: nat, u: Use)
    requires s < |procs|
    ensures Holds(L, ram, procs[s := procs[s].(heapBreak := b)], u) == Holds(L, ram, procs, u)
  {
    hide Lookup, Entry, HasTable, TableOf, Frame;
  }

  lemma BreakProcess(L: Layout, ram: Ram, s: nat, m: ProcMem, b: nat)
    requires ProcessOk(L, ram, s, m)
    ensures ProcessOk(L, ram, s, m.(heapBreak := b))
  {
    hide TableMaps, Entry, Word;
  }

  /** The heap break is bookkeeping only. */
  lemma BreakKeeps(L: Layout, ram: Ram, used: set<nat>, procs: seq<ProcMem>, s: nat, b: nat)
    requires Inv(L, ram, used, procs) && s < |procs|
    ensures Inv(L, ram, used, procs[s := procs[s].(heapBreak := b)])
  {
    hide Holds, TableMaps, Entry, KernelOk, Owned, Unique, ProcessOk, LayoutOk, Reserved, HasTable;
    var procs' := procs[s := procs[s].(heapBreak := b)];
    forall u: Use
      ensures Holds(L, ram, procs', u) == Holds(L, ram, procs, u)
    {
      BreakHolds(L, ram, procs, s, b, u);
    }
    SameHolds(L, ram, used, procs, procs');
    forall q: nat | q < SLOTS && procs'[q].live
      ensures ProcessOk(L, ram, q, procs'[q])
    {
      assert procs[q].live;
      BreakProcess(L, ram, q, procs[q], b);
    }
  }

  lemma SpacesKeptTwice(L: Layout, a: Ram, b: Ram, c: Ram, procs: seq<ProcMem>)
    requires SpacesKept(L, a, b, procs) && SpacesKept(L, b, c, procs)
    ensures SpacesKept(L, a, c, procs)
  {
  }

  // ---- Releasing a process ----

  lemma GiveAllBackKeeps(L: Layout, ram: Ram, used: set<nat>, procs: seq<ProcMem>, back: set<nat>)
    requires Inv(L, ram, used, procs)
    requires forall f | f in back :: !Reserved(L, f) && Unheld(L, ram, procs, f)
    ensures Inv(L, ram, used - back, procs)
  {
  }

  /** Releasing a process returns exactly its five frames and changes no other address space. */
  lemma ReleaseKeeps(L: Layout, ram0: Ram, ram: Ram, used: set<nat>, procs: seq<ProcMem>, s: nat)
    requires Inv(L, ram0, used, procs) && s < |procs| && procs[s].live
    requires |ram| == |ram0| && RamOk(ram)
    requires forall g: nat | g < |ram| && g != ProcDir(L, s) && g != procs[s].table :: ram[g] == ram0[g]
    ensures var back := (set f | f in procs[s].pages) + {procs[s].table};
            && Inv(L, ram, used - back, procs[s := NO_MEMORY]) && SpacesKept(L, ram0, ram, procs[s := NO_MEMORY])
            && back <= used && |back| == 5 && 0 !in back
  {
    hide Inv, Structure, Unheld;
    FivePages(L, ram0, used, procs, s);
    var m, procs' := procs[s], procs[s := NO_MEMORY];
    var back := (set f | f in m.pages) + {m.table};
    ForgetKeeps(L, ram0, used, procs, s);
    FiveFrames(m.pages, m.table);
    ZeroReserved(L, back);
    DeadDirectory(L, ram0, used, procs', s);
    UnheldIsFresh(L, ram0, used, procs', m.table);
    GiveAllBackKeeps(L, ram0, used, procs', back);
    OutsideKeeps(L, ram0, ram, used - back, procs');
  }

  lemma FivePages(L: Layout, ram: Ram, used: set<nat>, procs: seq<ProcMem>, s: nat)
    requires Inv(L, ram, used, procs)
    ensures |procs| == SLOTS
    ensures s < SLOTS && procs[s].live ==> |procs[s].pages| == 4 && procs[s].table < |ram|
  {
    if s < SLOTS && procs[s].live {
      ProcessTableFrame(L, ram, used, procs, s);
    }
  }

  lemma ZeroReserved(L: Layout, back: set<nat>)
    requires forall f | f in back :: !Reserved(L, f)
    ensures 0 !in back
  {
  }

  lemma {:induction false} DistinctCount(s: seq<nat>, c: set<nat>)
    requires forall i, j | 0 <= i < j < |s| :: s[i] != s[j]
    requires forall f :: f in c <==> f in s
    ensures |c| == |s|
  {
    if s != [] {
      var front, last := s[..|s| - 1], s[|s| - 1];
      assert s == front + [last];
      DistinctCount(front, c - {last});
    }
  }

  lemma FiveFrames(pages: seq<nat>, t: nat)
    requires |pages| == 4 && t !in pages && forall i, j | 0 <= i < j < 4 :: pages[i] != pages[j]
    ensures |(set f | f in pages) + {t}| == 5
  {
    DistinctCount(pages + [t], (set f | f in pages) + {t});
  }

  /** What a user-mode access can reach: the present entry, if directory and table both grant user rights. */
  ghost function UserPage(ram: Ram, dir: nat, vp: nat): nat {
    if User(Entry(ram, dir, DirIndex(vp))) && User(Lookup(ram, dir, vp)) then Lookup(ram, dir, vp) else 0
  }

  /** A live process reaches its four pages at its slot's addresses and nothing else. */
  lemma UserPagesAreOwn(L: Layout, ram: Ram, used: set<nat>, procs: seq<ProcMem>, s: nat, vp: nat)
    requires Inv(L, ram, used, procs) && s < SLOTS && procs[s].live && vp < PAGES
    ensures UserPage(ram, ProcDir(L, s), vp) ==
            if SlotPage(s) <= vp < SlotPage(s) + 4 then Word(procs[s].pages[vp - SlotPage(s)], PAGE_USER_RW) else 0
  {
    var d, i := ProcDir(L, s), DirIndex(vp);
    if i == REGION_DIR {
      ProcessTableFrame(L, ram, used, procs, s);
      RegionPage(vp);
      OwnTable(L, ram, s, procs[s], TableIndex(vp));
    } else {
      SlotNotElsewhere(s, vp);
      if Entry(ram, d, i) == 0 {
        assert !User(0);
      } else {
        KernelEntryNotUser(L, ram, i);
      }
    }
  }

  lemma OwnTable(L: Layout, ram: Ram, s: nat, m: ProcMem, j: nat)
    requires ProcessOk(L, ram, s, m) && s < SLOTS && j < ENTRIES
    ensures var d, e := Entry(ram, ProcDir(L, s), REGION_DIR), Entry(ram, m.table, j);
            && Present(d) && User(d) && Frame(d) == m.table
            && (if 32 * s <= j < 32 * s + 4 then e == Word(m.pages[j - 32 * s], PAGE_USER_RW) && Present(e) && User(e)
                  && e != 0
                else e == 0 && !Present(e) && !User(e))
  {
    FlagWords(m.table);
    assert TableMaps(ram, m.table, s, m.pages);
    if 32 * s <= j < 32 * s + 4 {
      FlagWords(m.pages[j - 32 * s]);
    }
  }

  lemma KernelEntryNotUser(L: Layout, ram: Ram, i: nat)
    requires KernelOk(L, ram) && i < ENTRIES
    ensures !User(Entry(ram, L.kdir, i))
  {
    if HasTable(ram, L.kdir, i) {
      FlagWords(TableOf(ram, L.kdir, i));
    } else {
      assert Entry(ram, L.kdir, i) == 0;
    }
  }

  lemma RegionPage(vp: nat)
    requires vp < PAGES && DirIndex(vp) == REGION_DIR
    ensures vp == REGION_PAGE + TableIndex(vp)
  {
  }

  lemma SlotNotElsewhere(s: nat, vp: nat)
    requires s < SLOTS && vp < PAGES && DirIndex(vp) != REGION_DIR
    ensures !(SlotPage(s) <= vp < SlotPage(s) + 4)
  {
  }

  /** No two processes can reach a common frame in user mode, and none can reach a kernel or vmalloc frame. */
  lemma Isolation(L: Layout, ram: Ram, used: set<nat>, procs: seq<ProcMem>, s: nat, vp: nat)
    requires Inv(L, ram, used, procs) && s < SLOTS && procs[s].live && vp < PAGES
    requires UserPage(ram, ProcDir(L, s), vp) != 0
    ensures var f := Frame(UserPage(ram, ProcDir(L, s), vp));
            && f in used && !Reserved(L, f)
            && (forall q: nat, vq: nat | q < SLOTS && q != s && procs[q].live && vq < PAGES &&
                  UserPage(ram, ProcDir(L, q), vq) != 0 :: Frame(UserPage(ram, ProcDir(L, q), vq)) != f)
            && (forall vq: nat | VMALLOC_PAGE <= vq < PAGES && Lookup(ram, L.kdir, vq) != 0 ::
                  Frame(Lookup(ram, L.kdir, vq)) != f)
  {
    UserPagesAreOwn(L, ram, used, procs, s, vp);
    var k := vp - SlotPage(s);
    var u, f := ProcessPage(s, k), procs[s].pages[k];
    FlagWords(f);
    assert Holds(L, ram, procs, u) == f;
    forall q: nat, vq: nat | q < SLOTS && q != s && procs[q].live && vq < PAGES && UserPage(ram, ProcDir(L, q), vq) != 0
      ensures Frame(UserPage(ram, ProcDir(L, q), vq)) != f
    {
      UserPagesAreOwn(L, ram, used, procs, q, vq);
      var g := procs[q].pages[vq - SlotPage(q)];
      FlagWords(g);
      assert Holds(L, ram, procs, ProcessPage(q, vq - SlotPage(q))) == g;
    }
    forall vq: nat | VMALLOC_PAGE <= vq < PAGES && Lookup(ram, L.kdir, vq) != 0
      ensures Frame(Lookup(ram, L.kdir, vq)) != f
    {
      assert KernelPage(vq) != u;
      assert Holds(L, ram, procs, KernelPage(vq)) == Frame(Lookup(ram, L.kdir, vq));
    }
  }
}
