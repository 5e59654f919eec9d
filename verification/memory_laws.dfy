/** What the memory operations of the kernel do to its state as a value, and the lemmas behind them
    (kernel/src/paging.c, kernel/src/vmalloc.c and the memory functions of kernel/src/process.c). */
module MemoryLaws {
  import opened Words
  import opened Paging
  import opened Ownership
  import opened VmallocModel
  import opened FrameBudget
  import Pmm
  import HeapModel

  // ---- The state of memory, and what each operation does to it ----

  /** How a call ends. Halted is panic. Stray means that the code goes on through the address of a frame that does not
      lead to that frame. Outside means that a premise failed and the call is not made. */
  datatype Outcome = Done(value: nat) | Failed | Halted | Stray | Outside

  datatype MemoryOp =
    | Vmalloc(size: nat)
    | Vfree(ptr: nat)
    | Create(slot: nat)
    | Fork(source: nat, child: nat)
    | Collect(slot: nat)

  datatype MemoryState =
    MemoryState(ram: Ram, used: set<nat>, procs: seq<ProcMem>, regions: seq<Region>, brk: nat, heap: HeapModel.Heap)

  /** The frames that the allocator, which scans the frames below limit, can still hand out. */
  ghost function FreeFrames(limit: nat, used: set<nat>): set<nat> {
    set f: nat | f < limit && f !in used
  }

  /** Those of them in the identity map. */
  ghost function LowFrames(limit: nat, used: set<nat>): set<nat> {
    set f: nat | f < limit && f < VMALLOC_PAGE && f !in used
  }

  /** Taking the lowest free frame takes one from the identity map as long as there is one. */
  lemma TakeLowest(limit: nat, used: set<nat>, f: nat)
    requires f in FreeFrames(limit, used) && forall g | g in FreeFrames(limit, used) :: f <= g
    ensures FreeFrames(limit, used + {f}) == FreeFrames(limit, used) - {f}
    ensures |FreeFrames(limit, used + {f})| == |FreeFrames(limit, used)| - 1
    ensures |LowFrames(limit, used + {f})| == Less(|LowFrames(limit, used)|, 1)
    ensures f < VMALLOC_PAGE <==> |LowFrames(limit, used)| > 0
  {
    var low := LowFrames(limit, used);
    assert LowFrames(limit, used + {f}) == low - {f};
    if g :| g in low {
      assert g in FreeFrames(limit, used);
    }
    assert f < VMALLOC_PAGE <==> f in low;
  }

  lemma LowAreFree(limit: nat, used: set<nat>)
    ensures |LowFrames(limit, used)| <= |FreeFrames(limit, used)|
  {
    var low, free := LowFrames(limit, used), FreeFrames(limit, used);
    assert low <= free && |free| == |low| + |free - low|;
  }

  /** On a machine of up to 16 MB, or with nothing free above, no access strays. */
  lemma {:induction false} NeverStray(needs: seq<bool>, n: nat)
    ensures FateOf(needs, n, n) != StrayTable
    ensures forall r: Outcome | CreateEnds(n, n, r) :: !r.Stray?
  {
    if needs != [] && n > 0 {
      NeverStray(needs[1..], if needs[0] then Less(n, 2) else n - 1);
    }
  }

  lemma SmallMachine(limit: nat, used: set<nat>)
    requires limit <= VMALLOC_PAGE
    ensures LowFrames(limit, used) == FreeFrames(limit, used)
  {
  }

  /** No live process: then vmalloc may reach into the process region. */
  ghost predicate NobodyLives(procs: seq<ProcMem>) {
    forall s: nat | s < SLOTS && s < |procs| :: !procs[s].live
  }

  /** What a caller must check: a vmalloc request must not wrap 32 bits, and must not reach the process region while a
      process is live; a process is only created while the kernel has no table at that region. */
  ghost predicate Permitted(L: Layout, s: MemoryState, op: MemoryOp) {
    match op
    case Vmalloc(size) =>
      size + 4095 + s.brk < U32 && (NobodyLives(s.procs) || s.brk + size <= REGION_PAGE * 4096)
    case Vfree(_) => true
    case Create(slot) => slot < |s.procs| && !s.procs[slot].live && !HasTable(s.ram, L.kdir, REGION_DIR)
    case Fork(source, child) => source < |s.procs| && child < |s.procs| && s.procs[source].live && !s.procs[child].live
    case Collect(slot) => slot < |s.procs| && s.procs[slot].live
  }

  ghost predicate Ends(r: Outcome, f: Fate) {
    match f
    case Served => r.Done?
    case Starved => r.Failed?
    case NoTable => r.Halted?
    case StrayTable => r.Stray?
  }

  /** The range fits and the heap grants a descriptor. */
  ghost predicate VmallocFits(brk: nat, heap: HeapModel.Heap, size: nat) {
    size > 0 && brk + PageCount(size) * 4096 <= VMALLOC_END && HeapModel.Alloc(heap, 24).1 != 0
  }

  /** How vmalloc ends, from the state before the call. */
  ghost predicate VmallocEnds(L: Layout, limit: nat, s: MemoryState, size: nat, r: Outcome) {
    if VmallocFits(s.brk, s.heap, size) then
      var needs := Needs(L, s.ram, s.brk / 4096, PageCount(size));
      Ends(r, FateOf(needs, |FreeFrames(limit, s.used)|, |LowFrames(limit, s.used)|))
    else
      r.Failed?
  }

  /** The descriptor meta, and taken frames cleared and mapped at the old break. */
  ghost predicate VmallocDone(L: Layout, s: MemoryState, size: nat, t: MemoryState, taken: seq<nat>, meta: nat) {
    && |taken| == PageCount(size) > 0 && Partial(L, s.ram, s.used, t.ram, t.used, s.brk / 4096, taken)
    && meta !in HeapModel.Payloads(s.heap.blocks)
    && HeapModel.Payloads(t.heap.blocks) == HeapModel.Payloads(s.heap.blocks) + {meta}
    && t.regions == [NewRegion(meta, s.brk, size)] + s.regions && t.procs == s.procs
  }

  ghost predicate VmallocUndone(L: Layout, s: MemoryState, t: MemoryState) {
    && Undone(L, s.ram, s.used, t.ram, t.used) && HeapModel.Payloads(t.heap.blocks) == HeapModel.Payloads(s.heap.blocks)
    && t.regions == s.regions && t.brk == s.brk && t.procs == s.procs
  }

  ghost predicate NoRegionAt(rs: seq<Region>, ptr: nat) {
    forall k | 0 <= k < |rs| :: rs[k].virtAddr != ptr
  }

  /** Region k, which starts at ptr, is gone with its pages, their frames and its descriptor. */
  ghost predicate VfreeDone(L: Layout, s: MemoryState, ptr: nat, t: MemoryState, k: nat) {
    && k < |s.regions| && s.regions[k].virtAddr == ptr && t.regions == RemoveAt(s.regions, k)
    && Shrunk(L, s.ram, s.used, t.ram, t.used, s.regions[k].First(), s.regions[k].numPages)
    && HeapModel.Payloads(t.heap.blocks) == HeapModel.Payloads(s.heap.blocks) - {s.regions[k].meta}
          && t.procs == s.procs
  }

  /** How process_memory_map ends with n frames free, low of them in the identity map. */
  ghost predicate CreateEnds(n: nat, low: nat, r: Outcome) {
    && (r.Done? <==> low >= 5) && (r.Halted? <==> n == 1)
    && (r.Failed? <==> n == 0 || (2 <= n <= 4 && low == n))
    && (r.Stray? <==> low < 5 && n >= 2 && low < n) && !r.Outside?
  }

  /** The slot has its own five frames, and no other address space changed. */
  ghost predicate Created(L: Layout, s: MemoryState, slot: nat, t: MemoryState) {
    && slot < |s.procs| == |t.procs| && t.procs == s.procs[slot := t.procs[slot]] && t.procs[slot].live
    && SpacesKept(L, s.ram, t.ram, s.procs) && |t.used| == |s.used| + 5
    && t.regions == s.regions && t.brk == s.brk && t.heap == s.heap
  }

  /** Nothing but the frame of a page table may have been lost. */
  ghost predicate NotCreated(L: Layout, limit: nat, s: MemoryState, t: MemoryState) {
    && t.procs == s.procs && SpacesKept(L, s.ram, t.ram, s.procs)
    && t.regions == s.regions && t.brk == s.brk && t.heap == s.heap
    && (FreeFrames(limit, s.used) == {} ==> t.used == s.used)
    && (FreeFrames(limit, s.used) != {} ==> exists f :: f in FreeFrames(limit, s.used) && t.used == s.used + {f})
  }

  ghost predicate Forked(L: Layout, s: MemoryState, source: nat, child: nat, t: MemoryState) {
    && Created(L, s, child, t) && source < |s.procs| && source != child
    && |t.procs[source].pages| == 4 && |t.procs[child].pages| == 4
    && (forall k | 0 <= k < 3 :: SamePageContents(s.ram, t.procs[source].pages[k], t.ram, t.procs[child].pages[k]))
  }

  ghost predicate Collected(L: Layout, s: MemoryState, slot: nat, t: MemoryState) {
    && slot < |s.procs| && t.procs == s.procs[slot := NO_MEMORY] && SpacesKept(L, s.ram, t.ram, t.procs)
    && t.used == s.used - ((set f | f in s.procs[slot].pages) + {s.procs[slot].table}) && |t.used| == |s.used| - 5
    && t.regions == s.regions && t.brk == s.brk && t.heap == s.heap
  }

  /** Operation op led from state s to state t and ended with r. After Halted and Stray nothing is said about t. */
  ghost predicate Did(L: Layout, limit: nat, s: MemoryState, op: MemoryOp, r: Outcome, t: MemoryState) {
    var n, low := |FreeFrames(limit, s.used)|, |LowFrames(limit, s.used)|;
    if !Permitted(L, s, op) then r.Outside? && t == s else
    match op
    case Vmalloc(size) =>
      && VmallocEnds(L, limit, s, size, r)
      && (r.Done? ==> r.value == s.brk && exists taken, meta :: VmallocDone(L, s, size, t, taken, meta))
      && (r.Failed? ==> VmallocUndone(L, s, t))
    case Vfree(ptr) =>
      && (if ptr != 0 && NoRegionAt(s.regions, ptr) then r.Halted? else r.Done?)
      && (ptr == 0 ==> t == s)
      && (ptr != 0 && r.Done? ==> exists k: nat :: VfreeDone(L, s, ptr, t, k))
    case Create(slot) =>
      && CreateEnds(n, low, r) && (r.Done? ==> Created(L, s, slot, t)) && (r.Failed? ==> NotCreated(L, limit, s, t))
    case Fork(source, child) =>
      && CreateEnds(n, low, r) && (r.Done? ==> Forked(L, s, source, child, t))
            && (r.Failed? ==> NotCreated(L, limit, s, t))
    case Collect(slot) => r.Done? && Collected(L, s, slot, t)
  }

  lemma NotDone(L: Layout, limit: nat, s: MemoryState, op: MemoryOp)
    requires !Permitted(L, s, op)
    ensures Did(L, limit, s, op, Outside, s)
  {
  }

  lemma NeverOutside(L: Layout, limit: nat, s: MemoryState, op: MemoryOp, r: Outcome, t: MemoryState)
    requires Permitted(L, s, op) && Did(L, limit, s, op, r, t)
    ensures !r.Outside? && (op.Vfree? ==> r.Done? || r.Halted?)
  {
  }

  /** One operation of a run. */
  datatype Step = Step(before: MemoryState, op: MemoryOp, outcome: Outcome, after: MemoryState)

  /** The steps lead from s to t, each doing what its operation does. */
  ghost predicate Path(L: Layout, limit: nat, s: MemoryState, steps: seq<Step>, t: MemoryState) {
    && (forall i | 0 <= i < |steps| :: Did(L, limit, steps[i].before, steps[i].op, steps[i].outcome, steps[i].after))
    && (forall i, j | 0 <= i && j == i + 1 && j < |steps| :: steps[j].before == steps[i].after)
    && (if steps == [] then s == t else s == steps[0].before && t == steps[|steps| - 1].after)
  }

  lemma PathStep(L: Layout, limit: nat, s: MemoryState, steps: seq<Step>, t: MemoryState, x: Step)
    requires Path(L, limit, s, steps, t) && x.before == t && Did(L, limit, t, x.op, x.outcome, x.after)
    ensures Path(L, limit, s, steps + [x], x.after)
  {
    hide Did;
  }

  // ---- Addresses of tables and pages ----

  predicate IsDirectory(L: Layout, dir: nat) {
    dir == L.kdir || L.pdirs <= dir < L.pdirs + SLOTS
  }

  /** Creating or finding a table for an address from 16 MB on leaves the identity map in place. */
  lemma TableStillReached(L: Layout, ram: Ram, used: set<nat>, procs: seq<ProcMem>, cur: nat,
                          dir: nat, vp: nat, flags: nat, t: nat, p: nat)
    requires Inv(L, ram, used, procs) && CurrentOk(L, procs, cur) && IsDirectory(L, dir) && DirIndex(vp) >= 4
    requires t < |ram| && !Reserved(L, t) && p < VMALLOC_PAGE && dir < |ram|
    ensures RamOk(ram) && TableIndex(vp) < ENTRIES && Reaches(WithTable(ram, dir, vp, flags, t), cur, p)
    ensures var r := WithTable(ram, dir, vp, flags, t); |r| == |ram| && RamOk(r)
  {
    LowReaches(L, ram, used, procs, cur, p);
    CurrentStarts(L, ram, used, procs, cur);
    LayoutTables(L, ram, used, procs, dir);
    hide Inv, LayoutOk;
    WithTableWrites(ram, dir, vp, flags, t);
    var r := WithTable(ram, dir, vp, flags, t);
    hide WithTable;
    forall i: nat | i < 4
      ensures Entry(r, cur, i) == Entry(ram, cur, i) && r[StaticTable(L, i)] == ram[StaticTable(L, i)]
    {
      if cur != dir {
        assert r[cur] == ram[cur];
      }
    }
    LowStays(L, ram, r, cur, p);
  }

  lemma LayoutTables(L: Layout, ram: Ram, used: set<nat>, procs: seq<ProcMem>, dir: nat)
    requires Inv(L, ram, used, procs) && IsDirectory(L, dir)
    ensures RamOk(ram) && L.ktabs + 4 <= |ram| && dir < |ram| && dir < ReservedEnd(L) && L.ktabs + 4 <= ReservedEnd(L)
    ensures L.total <= |ram|
    ensures forall i: nat | i < 4 :: StaticTable(L, i) != dir
  {
  }

  /** Mapping through a directory and a table that no page walk reads leaves every address space alone. */
  lemma MapIsOutside(L: Layout, ram: Ram, used: set<nat>, procs: seq<ProcMem>, dir: nat, vp: nat, f: nat, flags: nat,
                     t: nat)
    requires Inv(L, ram, used, procs) && dir < |ram| && t < |ram| && t != dir && !Structure(L, ram, procs, dir)
    requires TableFor(ram, dir, vp, t) < |ram| && !Structure(L, ram, procs, TableFor(ram, dir, vp, t))
    ensures var r := MapIn(ram, dir, vp, f, flags, t);
            && SameStructure(L, ram, r, procs) && Inv(L, r, used, procs)
            && forall u: Use :: Holds(L, r, procs, u) == Holds(L, ram, procs, u)
  {
    hide Inv, Structure;
    FramesExist(L, ram, used, procs);
    WithTableWrites(ram, dir, vp, flags, t);
    var r := MapIn(ram, dir, vp, f, flags, t);
    assert |r| == |ram| && RamOk(r);
    forall g: nat | g < |ram| && Structure(L, ram, procs, g)
      ensures r[g] == ram[g]
    {
    }
    OutsideKernel(L, ram, r, used, procs);
    OutsideKeeps(L, ram, r, used, procs);
  }

  /** A fresh frame taken for a process is reached by its address exactly when it lies in the identity map. */
  lemma FreshReached(L: Layout, ram: Ram, used: set<nat>, procs: seq<ProcMem>, cur: nat, t: nat)
    requires Inv(L, ram, used, procs) && CurrentOk(L, procs, cur) && t < L.total && Unheld(L, ram, procs, t)
    ensures Reaches(ram, cur, t) <==> t < VMALLOC_PAGE
  {
    if t < VMALLOC_PAGE {
      LowReaches(L, ram, used, procs, cur, t);
    } else {
      HighUnreached(L, ram, used, procs, cur, t);
    }
  }

  /** The directory starts with the static tables, and the addresses of the first 16 MB lead to their frames. */
  ghost predicate IdentityFrom(L: Layout, ram: Ram, cur: nat) {
    && StartsWithIdentity(L, ram, cur) && cur < ReservedEnd(L) && !(L.ktabs <= cur < L.ktabs + 4)
    && L.ktabs + 4 <= ReservedEnd(L) && L.ktabs + 4 <= |ram|
    && forall p: nat | p < VMALLOC_PAGE :: Reaches(ram, cur, p)
  }

  lemma CurrentIdentity(L: Layout, ram: Ram, used: set<nat>, procs: seq<ProcMem>, cur: nat)
    requires Inv(L, ram, used, procs) && CurrentOk(L, procs, cur)
    ensures IdentityFrom(L, ram, cur)
  {
    CurrentStarts(L, ram, used, procs, cur);
    LayoutTables(L, ram, used, procs, L.kdir);
    forall p: nat | p < VMALLOC_PAGE
      ensures Reaches(ram, cur, p)
    {
      LowReaches(L, ram, used, procs, cur, p);
    }
  }

  lemma IdentityKept(L: Layout, ram: Ram, ram': Ram, cur: nat, t: nat)
    requires IdentityFrom(L, ram, cur) && !Reserved(L, t) && |ram'| == |ram|
    requires forall g: nat | g < |ram| && g != t :: ram'[g] == ram[g]
    ensures IdentityFrom(L, ram', cur)
  {
    forall i: nat | i < 4
      ensures Entry(ram', cur, i) == Entry(ram, cur, i) && ram'[StaticTable(L, i)] == ram[StaticTable(L, i)]
    {
    }
    forall p: nat | p < VMALLOC_PAGE
      ensures Reaches(ram', cur, p)
    {
      assert Reaches(ram, cur, p);
      LowStays(L, ram, ram', cur, p);
    }
  }

  // ---- One process ----

  /** What the invariant says about one live process. */
  lemma ProcessShape(L: Layout, ram: Ram, used: set<nat>, procs: seq<ProcMem>, s: nat)
    requires Inv(L, ram, used, procs) && s < SLOTS && procs[s].live
    ensures |procs| == SLOTS && |procs[s].pages| == 4 && 0 !in procs[s].pages && procs[s].table < |ram|
    ensures RamOk(ram) && ProcDir(L, s) < |ram| && procs[s].table != ProcDir(L, s) && !HasTable(ram, L.kdir, REGION_DIR)
    ensures Entry(ram, ProcDir(L, s), REGION_DIR) == Word(procs[s].table, PAGE_USER_RW)
    ensures !Reserved(L, procs[s].table) && procs[s].table < VMALLOC_PAGE
    ensures forall k | 0 <= k < 4 :: procs[s].pages[k] in used && procs[s].pages[k] < |ram|
  {
    ProcessTableFrame(L, ram, used, procs, s);
    assert Placed(ProcessTable(s), procs[s].table);
    forall k: nat | k < 4
      ensures procs[s].pages[k] in used
    {
      assert Holds(L, ram, procs, ProcessPage(s, k)) == procs[s].pages[k];
    }
  }

  /** A page of a process is no table. */
  lemma DataPage(L: Layout, ram: Ram, used: set<nat>, procs: seq<ProcMem>, s: nat, k: nat)
    requires Inv(L, ram, used, procs) && s < SLOTS && procs[s].live && k < 4
    ensures |procs[s].pages| == 4 && procs[s].pages[k] < |ram| && !Reserved(L, procs[s].pages[k])
    ensures procs[s].pages[k] < VMALLOC_PAGE
    ensures forall i: nat :: Holds(L, ram, procs, KernelTable(i)) != procs[s].pages[k]
    ensures forall q: nat :: Holds(L, ram, procs, ProcessTable(q)) != procs[s].pages[k]
  {
    assert Holds(L, ram, procs, ProcessPage(s, k)) == procs[s].pages[k];
    HeldOnce(L, ram, used, procs, ProcessPage(s, k), procs[s].pages[k]);
  }

  lemma FiveMore(L: Layout, ram0: Ram, used0: set<nat>, ram: Ram, used: set<nat>, s: nat, t: nat, pages: seq<nat>)
    requires Progress(L, ram0, used0, ram, used, s, t, pages) && |pages| == 4
    ensures |used| == |used0| + 5
  {
    var taken := (set f | f in pages) + {t};
    FiveFrames(pages, t);
    assert used == used0 + taken && used0 !! taken;
  }

  lemma FewerFrames(used0: set<nat>, used: set<nat>, back: set<nat>)
    requires back <= used0 && used == used0 - back
    ensures |used| == |used0| - |back|
  {
  }

  ghost predicate SamePageContents(ram0: Ram, f: nat, ram: Ram, g: nat) {
    f < |ram0| && g < |ram| && ram[g] == ram0[f]
  }

  /** The first three pages of `to` now hold what those of `from` held, and no other frame changed. */
  ghost predicate Copied(ram0: Ram, ram: Ram, from: seq<nat>, to: seq<nat>)
    requires |from| == 4 && |to| == 4
  {
    && |ram| == |ram0| && RamOk(ram)
    && (forall k | 0 <= k < 3 :: SamePageContents(ram0, from[k], ram, to[k]))
    && (forall g: nat | g < |ram| && g != to[0] && g != to[1] && g != to[2] :: ram[g] == ram0[g])
  }

  lemma DistinctPages(L: Layout, ram: Ram, used: set<nat>, procs: seq<ProcMem>, a: nat, b: nat)
    requires Inv(L, ram, used, procs) && a < SLOTS && b < SLOTS && a != b && procs[a].live && procs[b].live
    ensures |procs[a].pages| == 4 && |procs[b].pages| == 4
    ensures forall i: nat, j: nat | i < 4 && j < 4 :: procs[a].pages[i] != procs[b].pages[j]
    ensures forall i: nat, j: nat | i < j < 4 :: procs[b].pages[i] != procs[b].pages[j]
  {
    assert forall i: nat | i < 4 :: Holds(L, ram, procs, ProcessPage(a, i)) == procs[a].pages[i];
    assert forall i: nat | i < 4 :: Holds(L, ram, procs, ProcessPage(b, i)) == procs[b].pages[i];
    forall i: nat, j: nat | i < 4 && j < 4
      ensures procs[a].pages[i] != procs[b].pages[j]
    {
      assert ProcessPage(a, i) != ProcessPage(b, j);
    }
    forall i: nat, j: nat | i < j < 4
      ensures procs[b].pages[i] != procs[b].pages[j]
    {
      assert ProcessPage(b, i) != ProcessPage(b, j);
    }
  }

  /** Building the child and then copying three pages is a fork. */
  lemma ForkedMemory(L: Layout, ram0: Ram, used0: set<nat>, built: Ram, ram: Ram, used: set<nat>, procs0: seq<ProcMem>,
               procs: seq<ProcMem>, s: nat, c: nat)
    requires Inv(L, ram0, used0, procs0) && s < SLOTS && c < SLOTS && s != c && procs0[s].live
    requires |procs| == SLOTS && procs[s] == procs0[s] && |procs[s].pages| == 4 && |procs[c].pages| == 4
    requires procs == procs0[c := procs[c]] && !procs0[c].live
    requires Progress(L, ram0, used0, built, used, c, procs[c].table, procs[c].pages)
    requires SpacesKept(L, ram0, built, procs0) && SpacesKept(L, built, ram, procs)
    requires Copied(built, ram, procs[s].pages, procs[c].pages)
    ensures Touched(L, ram0, ram, c, used - used0) && SpacesKept(L, ram0, ram, procs0)
    ensures forall f | f in procs[c].pages :: f !in used0
    ensures forall k | 0 <= k < 3 :: SamePageContents(ram0, procs[s].pages[k], ram, procs[c].pages[k])
  {
    hide Inv;
    ProcessShape(L, ram0, used0, procs0, s);
    ProgressTouched(L, ram0, used0, built, used, c, procs[c].table, procs[c].pages);
    forall k | 0 <= k < 3
      ensures SamePageContents(ram0, procs[s].pages[k], ram, procs[c].pages[k])
    {
      var f := procs[s].pages[k];
      PageIsNoDirectory(L, ram0, used0, procs0, s, k, c);
      assert built[f] == ram0[f];
    }
    assert forall k | 0 <= k < 4 :: procs[c].pages[k] in procs[c].pages;
  }

  lemma PageIsNoDirectory(L: Layout, ram: Ram, used: set<nat>, procs: seq<ProcMem>, s: nat, k: nat, c: nat)
    requires Inv(L, ram, used, procs) && s < SLOTS && procs[s].live && k < 4 && c < SLOTS
    ensures |procs[s].pages| == 4 && procs[s].pages[k] != ProcDir(L, c) && procs[s].pages[k] in used
  {
    DataPage(L, ram, used, procs, s, k);
    ProcessShape(L, ram, used, procs, s);
  }

  lemma AbandonKeeps(L: Layout, ram0: Ram, used0: set<nat>, ram1: Ram, used1: set<nat>, ram: Ram, procs: seq<ProcMem>,
                     s: nat, t: nat, pages: seq<nat>)
    requires Inv(L, ram0, used0, procs) && s < SLOTS && !procs[s].live
    requires Progress(L, ram0, used0, ram1, used1, s, t, pages)
    requires |ram| == |ram1| && RamOk(ram)
    requires forall g: nat | g < |ram| && g != (if pages == [] then 0 else t) :: ram[g] == ram1[g]
    requires pages == [] ==> ram == ram1
    ensures used1 - (set f | f in pages) == if pages == [] then used0 else used0 + {t}
    ensures Inv(L, ram, used1 - (set f | f in pages), procs) && SpacesKept(L, ram0, ram, procs)
  {
    hide Inv;
    ProgressTouched(L, ram0, used0, ram1, used1, s, t, pages);
    var kept := used1 - (set f | f in pages);
    assert kept == if pages == [] then used0 else used0 + {t};
    TouchedKeeps(L, ram0, used0, ram, used1 - used0, procs, s);
    TakeAllKeeps(L, ram, used0, procs, kept - used0);
    assert used0 + (kept - used0) == kept;
  }

  function HeapStart(slot: nat): nat {
    SlotPage(slot) * 4096 + 2 * 4096
  }

  /** One call of alloc_process_page, seen from the construction of its slot. */
  lemma ProgressStep(L: Layout, ram0: Ram, used0: set<nat>, ram: Ram, used: set<nat>, s: nat, t: nat, pages: seq<nat>,
                     vp: nat, f: nat, spare: nat, r: Ram)
    requires Progress(L, ram0, used0, ram, used, s, t, pages) && |pages| < 4 && vp == SlotPage(s) + |pages|
    requires ProcDir(L, s) < |ram| && L.total <= |ram| && RamOk(ram) && spare < |ram|
    requires HasTable(ram, ProcDir(L, s), DirIndex(vp)) ==> TableOf(ram, ProcDir(L, s), DirIndex(vp)) < |ram|
    requires f !in used && f < L.total && f < VMALLOC_PAGE && f != ProcDir(L, s)
    requires if pages == [] then t == 0 && spare !in used && spare != f && spare < L.total && spare < VMALLOC_PAGE
                                 && spare != ProcDir(L, s)
             else spare == f
    requires Cleared(r, MapIn(ram, ProcDir(L, s), vp, f, PAGE_USER_RW, spare), f)
    ensures Progress(L, ram0, used0, r, used + {f} + {spare}, s, if pages == [] then spare else t, pages + [f])
  {
    hide Progress, MapIn;
    if pages == [] {
      assert pages + [f] == [f] && vp == SlotPage(s);
      ProgressFirst(L, ram0, used0, ram, used, s, f, spare);
    } else {
      ProgressNext(L, ram0, used0, ram, used, s, t, pages, f);
      assert used + {f} + {f} == used + {f};
    }
  }

  /** A slot under construction has its table exactly when it has a page. */
  lemma TableSoFar(L: Layout, ram0: Ram, used0: set<nat>, ram: Ram, used: set<nat>, procs: seq<ProcMem>,
                   s: nat, t: nat, pages: seq<nat>)
    requires Inv(L, ram0, used0, procs) && s < SLOTS && Progress(L, ram0, used0, ram, used, s, t, pages)
    ensures |pages| < 4 ==> DirIndex(SlotPage(s) + |pages|) == REGION_DIR
    ensures HasTable(ram, ProcDir(L, s), REGION_DIR) <==> pages != []
    ensures pages != [] ==>
              && 0 < TableOf(ram, ProcDir(L, s), REGION_DIR) == t < |ram| && t != ProcDir(L, s)
              && t < VMALLOC_PAGE && t < L.total && t !in used0 && !Reserved(L, t)
              && Entry(ram, ProcDir(L, s), REGION_DIR) == Word(t, PAGE_USER_RW)
    ensures 0 !in pages
  {
    hide Inv;
    if |pages| < 4 {
      SlotIndex(s, |pages|);
    }
    FlagWords(t);
    ZeroIsTaken(L, ram0, used0, procs);
    FreshUnreserved(L, ram0, used0, procs, t);
  }

  lemma FreshUnreserved(L: Layout, ram: Ram, used: set<nat>, procs: seq<ProcMem>, t: nat)
    requires Inv(L, ram, used, procs)
    ensures t < L.total && t !in used ==> !Reserved(L, t)
  {
  }

  lemma ZeroIsTaken(L: Layout, ram: Ram, used: set<nat>, procs: seq<ProcMem>)
    requires Inv(L, ram, used, procs)
    ensures L.total > 0 ==> 0 in used
  {
  }

  lemma SpacesTracked(L: Layout, ram0: Ram, ram: Ram, procs: seq<ProcMem>, rs: seq<Region>, brk: nat)
    requires SpacesKept(L, ram0, ram, procs) && VInv(L, ram0, rs, brk)
    ensures VInv(L, ram, rs, brk)
  {
  }

  lemma WrapOffset(start: nat, offset: int)
    ensures Wrap(Wrap(start + Wrap(offset)) - start) == Wrap(offset)
  {
  }

  /** The range check of process_memory_alloc accepts exactly the requests that fit, unless the sum leaves 32 bits:
      then it accepts, and moves the break down, where a later request may find it. */
  lemma MemoryAllocSound(start: nat, brk: nat, size: nat)
    requires brk <= start + PAGE_SIZE < U32 && 0 < size < U32
    ensures (Wrap(brk + size) <= start + PAGE_SIZE <==> brk + size <= start + PAGE_SIZE) <==> brk + size < U32
    ensures brk + size >= U32 ==> Wrap(brk + size) < brk
  {
  }

  /** Memory after the kernel directory is copied for a slot and the slot's first page is mapped to frame f. */
  ghost function FirstPageMapped(ram: Ram, kdir: nat, d: nat, s: nat, f: nat, t: nat): Ram
    requires RamOk(ram) && kdir < |ram| && d < |ram| && t < |ram| && s < SLOTS
    requires HasTable(ram, kdir, REGION_DIR) ==> TableOf(ram, kdir, REGION_DIR) < |ram|
  {
    SlotIndex(s, 0);
    MapIn(ram[d := ram[kdir]], d, SlotPage(s), f, PAGE_USER_RW, t)
  }

  /** A process page mapped while the kernel has a table at the process region shows up in the kernel's own space. */
  lemma SharedTable(ram: Ram, kdir: nat, d: nat, s: nat, f: nat, t: nat)
    requires RamOk(ram) && kdir < |ram| && d < |ram| && t < |ram| && s < SLOTS && kdir != d
    requires HasTable(ram, kdir, REGION_DIR) && TableOf(ram, kdir, REGION_DIR) < |ram|
    requires TableOf(ram, kdir, REGION_DIR) != kdir && TableOf(ram, kdir, REGION_DIR) != d
    ensures Lookup(FirstPageMapped(ram, kdir, d, s, f, t), kdir, SlotPage(s)) == Word(f, PAGE_USER_RW)
  {
    SlotIndex(s, 0);
    FlagWords(f);
    var copied := ram[d := ram[kdir]];
    var w := WithTable(copied, d, SlotPage(s), PAGE_USER_RW, t);
    var r := FirstPageMapped(ram, kdir, d, s, f, t);
    assert w[kdir] == ram[kdir];
    assert r == Store(w, TableOf(ram, kdir, REGION_DIR), 32 * s, Word(f, PAGE_USER_RW));
    assert r[kdir] == ram[kdir];
  }

  lemma FreshTable(ram: Ram, kdir: nat, d: nat, s: nat, f: nat, t: nat)
    requires RamOk(ram) && kdir < |ram| && d < |ram| && t < |ram| && s < SLOTS && kdir != d && t != d
    requires !HasTable(ram, kdir, REGION_DIR)
    ensures var r := FirstPageMapped(ram, kdir, d, s, f, t);
            |r| == |ram| && RamOk(r) && forall g: nat | g < |ram| && g != d && g != t :: r[g] == ram[g]
  {
  }

  /** Mapping a process page leaves the kernel's translations alone exactly when the kernel directory has no table at
      the process region: otherwise the copied entry makes the two directories share that table. */
  lemma IsolationNeedsEmptyRegion(L: Layout, ram: Ram, used: set<nat>, procs: seq<ProcMem>, s: nat, f: nat, t: nat)
    requires Inv(L, ram, used, procs) && s < SLOTS && !procs[s].live && t !in used && t < L.total
    ensures RamOk(ram) && L.kdir < |ram| && ProcDir(L, s) < |ram| && t < |ram|
    ensures HasTable(ram, L.kdir, REGION_DIR) ==> TableOf(ram, L.kdir, REGION_DIR) < |ram|
    ensures SameSpace(ram, FirstPageMapped(ram, L.kdir, ProcDir(L, s), s, f, t), L.kdir)
            <==> !HasTable(ram, L.kdir, REGION_DIR)
  {
    hide Inv, FirstPageMapped;
    DirectoryFrame(L, ram, used, procs, s);
    RegionTable(L, ram, used, procs, s);
    if HasTable(ram, L.kdir, REGION_DIR) {
      SharedTable(ram, L.kdir, ProcDir(L, s), s, f, t);
      FlagWords(f);
    } else {
      FreshTable(ram, L.kdir, ProcDir(L, s), s, f, t);
      TouchedKeeps(L, ram, used, FirstPageMapped(ram, L.kdir, ProcDir(L, s), s, f, t), {t}, procs, s);
    }
  }

  lemma KernelTableFrame(L: Layout, ram: Ram, used: set<nat>, procs: seq<ProcMem>, vp: nat)
    requires Inv(L, ram, used, procs) && vp < PAGES
    ensures L.kdir < |ram| && L.total <= |ram|
    ensures HasTable(ram, L.kdir, DirIndex(vp)) ==>
              0 < TableOf(ram, L.kdir, DirIndex(vp)) < |ram| && TableOf(ram, L.kdir, DirIndex(vp)) < VMALLOC_PAGE
  {
    var i := DirIndex(vp);
    if HasTable(ram, L.kdir, i) {
      DirIndexBound(vp);
      KernelTableKind(L, ram, used, procs, i);
      assert i >= 4 ==> Placed(KernelTable(i), Holds(L, ram, procs, KernelTable(i)));
    }
  }

  lemma RegionTable(L: Layout, ram: Ram, used: set<nat>, procs: seq<ProcMem>, s: nat)
    requires Inv(L, ram, used, procs) && s < SLOTS
    ensures L.kdir != ProcDir(L, s) && !User(Lookup(ram, L.kdir, SlotPage(s)))
    ensures HasTable(ram, L.kdir, REGION_DIR) ==>
              var table := TableOf(ram, L.kdir, REGION_DIR);
              table < |ram| && table != L.kdir && table != ProcDir(L, s)
  {
    KernelNotUser(L, ram, SlotPage(s));
    if HasTable(ram, L.kdir, REGION_DIR) {
      KernelTableKind(L, ram, used, procs, REGION_DIR);
    }
  }

  /** r is m with frame f cleared. */
  ghost predicate Cleared(r: Ram, m: Ram, f: nat) {
    f < |m| && r == m[f := ZeroPage()]
  }

  lemma FramesExist(L: Layout, ram: Ram, used: set<nat>, procs: seq<ProcMem>)
    requires Inv(L, ram, used, procs)
    ensures RamOk(ram) && 0 < |ram| && L.total <= |ram|
  {
  }

  lemma DirectoryFrame(L: Layout, ram: Ram, used: set<nat>, procs: seq<ProcMem>, s: nat)
    requires Inv(L, ram, used, procs) && s < SLOTS
    ensures 0 < ProcDir(L, s) < |ram| && L.kdir < |ram| && L.total <= |ram| && RamOk(ram) && |procs| == SLOTS
    ensures L.kdir != ProcDir(L, s)
    ensures forall f | f < L.total && f !in used :: f < |ram| && f != ProcDir(L, s) && f != 0
  {
  }

  lemma NothingShrunk(L: Layout, ram: Ram, used: set<nat>, first: nat)
    ensures Shrunk(L, ram, used, ram, used, first, 0)
  {
  }

  lemma MappedRegion(L: Layout, ram: Ram, rs: seq<Region>, brk: nat, k: nat)
    requires VInv(L, ram, rs, brk) && k < |rs|
    ensures VMALLOC_PAGE <= rs[k].First() && rs[k].First() + rs[k].numPages <= PAGES
    ensures forall vp: nat | rs[k].First() <= vp < rs[k].First() + rs[k].numPages :: Lookup(ram, L.kdir, vp) != 0
  {
  }

  lemma ShrunkRegions(L: Layout, ram0: Ram, used0: set<nat>, ram: Ram, used: set<nat>, rs: seq<Region>, brk: nat,
                      k: nat)
    requires VInv(L, ram0, rs, brk) && k < |rs| && Shrunk(L, ram0, used0, ram, used, rs[k].First(), rs[k].numPages)
    ensures VInv(L, ram, RemoveAt(rs, k), HighestEnd(RemoveAt(rs, k)))
  {
    RemoveRegion(L, ram0, ram, rs, brk, k);
  }

  lemma MetaRemove(rs: seq<Region>, k: nat, live: set<nat>)
    requires MetaOk(rs, live) && k < |rs|
    ensures rs[k].meta in live && MetaOk(RemoveAt(rs, k), live - {rs[k].meta})
  {
  }

  /** The region just made is the only one at its address, and its pages were unmapped before. */
  lemma NewIsFirst(L: Layout, ram0: Ram, ram: Ram, rs0: seq<Region>, rs: seq<Region>, brk0: nat, brk: nat)
    requires VInv(L, ram0, rs0, brk0) && VInv(L, ram, rs, brk) && |rs| == |rs0| + 1 && rs[0].virtAddr == brk0
    ensures brk0 != 0 && forall k | 0 <= k < |rs| && rs[k].virtAddr == brk0 :: k == 0
    ensures rs[0].First() + rs[0].numPages <= PAGES
    ensures forall vp: nat | rs[0].First() <= vp < rs[0].First() + rs[0].numPages :: Lookup(ram0, L.kdir, vp) == 0
  {
  }

  lemma TrackedTwice(L: Layout, ram0: Ram, ram: Ram, rs: seq<Region>, a: nat, b: nat)
    requires VInv(L, ram0, rs, a) && VInv(L, ram, rs, b)
    ensures a == b
  {
  }

  /** Mapping fresh frames and then unmapping the same pages is an undone mapping. */
  lemma RoundTrip(L: Layout, ram0: Ram, used0: set<nat>, ram1: Ram, used1: set<nat>, ram2: Ram, used2: set<nat>,
                  first: nat, taken: seq<nat>)
    requires Partial(L, ram0, used0, ram1, used1, first, taken) && first + |taken| <= PAGES
    requires Shrunk(L, ram1, used1, ram2, used2, first, |taken|)
    requires forall vp: nat | first <= vp < first + |taken| :: Lookup(ram0, L.kdir, vp) == 0
    ensures Undone(L, ram0, used0, ram2, used2)
  {
    SameTables(L, ram0, ram1, ram2);
    TakenFrames(L, ram0, ram1, first, taken);
    forall g | g in used0 && g < |ram0| && FreshFor(ram0, L.kdir, g)
      ensures ram2[g] == ram0[g]
    {
      DataStaysData(L, ram0, used0, ram1, g);
      assert g in used1;
    }
  }

  lemma TakenFrames(L: Layout, ram0: Ram, ram: Ram, first: nat, taken: seq<nat>)
    requires Extends(L, ram0, ram, first, taken) && first + |taken| <= PAGES
    ensures FramesOf(L, ram, first, |taken|) == set f | f in taken
  {
    var s, t := FramesOf(L, ram, first, |taken|), set f | f in taken;
    forall j | 0 <= j < |taken|
      ensures taken[j] in s
    {
      ExtendsAt(L, ram0, ram, first, taken, j, first + j);
    }
    forall vp: nat | first <= vp < first + |taken|
      ensures Frame(Lookup(ram, L.kdir, vp)) in t
    {
      ExtendsAt(L, ram0, ram, first, taken, vp - first, vp);
      assert taken[vp - first] in taken;
    }
  }

  /** Every region has a live heap block of its own for its descriptor. */
  ghost predicate MetaOk(rs: seq<Region>, live: set<nat>) {
    && (forall k | 0 <= k < |rs| :: rs[k].meta in live)
    && (forall j, k | 0 <= j < k < |rs| :: rs[j].meta != rs[k].meta)
  }

  lemma MetaPush(rs: seq<Region>, r: Region, live: set<nat>)
    requires MetaOk(rs, live) && r.meta !in live
    ensures MetaOk([r] + rs, live + {r.meta})
  {
  }

  lemma RangeInPages(brk: nat, size: nat, n: nat)
    requires brk % 4096 == 0 && VMALLOC_START <= brk && n == PageCount(size) && size + 4095 < U32
    requires brk + n * 4096 <= VMALLOC_END
    ensures VMALLOC_PAGE <= brk / 4096 && brk / 4096 + n <= PAGES
    ensures brk + size <= REGION_PAGE * 4096 ==> brk / 4096 + n <= REGION_PAGE
  {
  }

  /** The descriptor that vmalloc(size) fills in at the given break. */
  function NewRegion(meta: nat, brk: nat, size: nat): Region {
    Region(meta, brk, size, PageCount(size) * 4096, PageCount(size))
  }

  lemma NewRegionOk(r: Region, size: nat)
    requires size + 4095 < U32 && r.numPages == PageCount(size) > 0 && r.size == size
    requires r.virtAddr % 4096 == 0 && VMALLOC_START <= r.virtAddr
    requires r.mappedSize == r.numPages * 4096 && r.End() <= VMALLOC_END
    ensures r.Ok()
  {
  }

  lemma ExtendsMaps(L: Layout, ram0: Ram, ram: Ram, r: Region, taken: seq<nat>)
    requires Extends(L, ram0, ram, r.First(), taken) && r.numPages == |taken|
    ensures forall vp: nat | vp < PAGES ::
              if r.Has(vp) then Lookup(ram, L.kdir, vp) != 0 else Lookup(ram, L.kdir, vp) == Lookup(ram0, L.kdir, vp)
  {
  }

  lemma NothingUndone(L: Layout, ram: Ram, used: set<nat>)
    ensures Undone(L, ram, used, ram, used)
  {
  }

  lemma UndoneRegions(L: Layout, ram0: Ram, used0: set<nat>, ram: Ram, used: set<nat>, rs: seq<Region>, brk: nat)
    requires Undone(L, ram0, used0, ram, used) && VInv(L, ram0, rs, brk)
    ensures VInv(L, ram, rs, brk)
  {
  }

  /** Two regions never start at the same address. */
  lemma SameStart(rs: seq<Region>, k: nat)
    requires RegionsOk(rs) && k < |rs|
    ensures forall j | 0 <= j < |rs| && rs[j].virtAddr == rs[k].virtAddr :: j == k
  {
  }

  /** Pages below the process region use other directory entries. */
  lemma BelowRegion(vp: nat, end: nat)
    requires vp < end
    ensures end <= REGION_PAGE ==> DirIndex(vp) != REGION_DIR
  {
  }

  /** Table i of the identity map. */
  function IdentityPage(i: nat): (p: seq<nat>)
    ensures |p| == ENTRIES && forall j | 0 <= j < ENTRIES :: p[j] == Word(i * 1024 + j, PAGE_KERNEL)
  {
    seq<nat>(ENTRIES, (j: nat) => Word(i * 1024 + j, PAGE_KERNEL))
  }

  /** The first n entries of the kernel directory name its static tables, which map frames to themselves. */
  ghost predicate IdentityMapped(L: Layout, ram: Ram, n: nat) {
    forall i: nat | i < n ::
      && Entry(ram, L.kdir, i) == Word(StaticTable(L, i), PAGE_KERNEL)
      && StaticTable(L, i) < |ram| && ram[StaticTable(L, i)] == IdentityPage(i)
  }

  /** After the heap range is marked, no reserved frame is free. */
  lemma BootReserves(info: Pmm.BootInfo, L: Layout, used: set<nat>)
    requires LayoutOk(L) && info.WordSized()
    requires info.kernelStart == 0x10_0000 && info.kernelEnd == L.kernelEnd * PAGE_SIZE
    requires forall f: nat | f < L.total ::
               info.KeptBack(f) || Pmm.Reserves((L.kernelEnd + 16) * 4096, 8 * 1024 * 1024, f) ==> f in used
    ensures forall f: nat | f < L.total && Reserved(L, f) :: f in used
  {
    forall f: nat | f < L.total && Reserved(L, f)
      ensures f in used
    {
      Pmm.KeptBackMeaning(info, f);
      Pmm.ReservesMeaning((L.kernelEnd + 16) * 4096, 8 * 1024 * 1024, f);
    }
  }

  lemma IdentityLookup(L: Layout, ram: Ram, vp: nat)
    requires IdentityMapped(L, ram, 4) && (forall i: nat | 4 <= i :: Entry(ram, L.kdir, i) == 0) && vp < PAGES
    ensures Lookup(ram, L.kdir, vp) == if vp < VMALLOC_PAGE then Word(vp, PAGE_KERNEL) else 0
  {
    var i, j := vp / 1024, vp % 1024;
    assert DirIndex(vp) == i && TableIndex(vp) == j && vp == i * 1024 + j;
    if i < 4 {
      FlagWords(StaticTable(L, i));
      FlagWords(vp);
    }
  }

  /** The invariant holds at boot. */
  lemma BootInv(L: Layout, ram: Ram, used: set<nat>, procs: seq<ProcMem>)
    requires LayoutOk(L) && RamOk(ram) && |ram| == L.frames && |procs| == SLOTS
    requires IdentityMapped(L, ram, 4) && forall i: nat | 4 <= i :: Entry(ram, L.kdir, i) == 0
    requires forall f | f in used :: f < L.total
    requires forall f: nat | f < L.total && Reserved(L, f) :: f in used
    requires forall s: nat | s < SLOTS :: procs[s] == NO_MEMORY
    ensures Inv(L, ram, used, procs) && VInv(L, ram, [], VMALLOC_START)
    ensures forall vp: nat | vp < PAGES ::
              Lookup(ram, L.kdir, vp) == if vp < VMALLOC_PAGE then Word(vp, PAGE_KERNEL) else 0
  {
    BootKernel(L, ram);
    forall u: Use
      ensures Holds(L, ram, procs, u) == 0
    {
      BootHolds(L, ram, procs, u);
    }
    assert Unique(L, ram, procs);
  }

  lemma BootHolds(L: Layout, ram: Ram, procs: seq<ProcMem>, u: Use)
    requires forall i: nat | 4 <= i :: Entry(ram, L.kdir, i) == 0
    requires forall vp: nat | VMALLOC_PAGE <= vp < PAGES :: Lookup(ram, L.kdir, vp) == 0
    requires forall s: nat | s < |procs| :: procs[s] == NO_MEMORY
    ensures Holds(L, ram, procs, u) == 0
  {
  }

  lemma BootKernel(L: Layout, ram: Ram)
    requires LayoutOk(L) && RamOk(ram) && |ram| == L.frames
    requires IdentityMapped(L, ram, 4) && forall i: nat | 4 <= i :: Entry(ram, L.kdir, i) == 0
    ensures KernelOk(L, ram)
    ensures forall vp: nat | vp < PAGES ::
              Lookup(ram, L.kdir, vp) == if vp < VMALLOC_PAGE then Word(vp, PAGE_KERNEL) else 0
  {
    forall vp: nat | vp < PAGES
      ensures Lookup(ram, L.kdir, vp) == if vp < VMALLOC_PAGE then Word(vp, PAGE_KERNEL) else 0
    {
      IdentityLookup(L, ram, vp);
    }
    forall i: nat
      ensures HasTable(ram, L.kdir, i) <==> i < 4
      ensures i < 4 ==> TableOf(ram, L.kdir, i) == StaticTable(L, i)
    {
      FlagWords(StaticTable(L, i));
      assert i >= 4 ==> Entry(ram, L.kdir, i) == 0;
    }
  }

  // ---- The budget of a mapping in progress ----

  /** How one page ends, with `free` frames left and low of them in the identity map. */
  ghost predicate PageEnds(r: Outcome, need: bool, free: nat, low: nat) {
    if free == 0 then r.Failed?
    else if !need then r.Done?
    else if free == 1 then r.Halted?
    else if low < 2 then r.Stray?
    else r.Done?
  }

  lemma FateStart(needs: seq<bool>, free: nat, low: nat)
    ensures needs[0..] == needs && Cost(needs[..0]) == 0
  {
  }

  /** One page of the budget, in the middle of a mapping. */
  lemma FateStep(needs: seq<bool>, i: nat, free: nat, low: nat)
    requires i < |needs|
    ensures Cost(needs[..i + 1]) == Cost(needs[..i]) + if needs[i] then 2 else 1
    ensures forall r: Outcome | PageEnds(r, needs[i], free, low) ::
              if r.Done? then
                var cost := if needs[i] then 2 else 1;
                free >= cost && FateOf(needs[i..], free, low) == FateOf(needs[i + 1..], free - cost, Less(low, cost))
              else Ends(r, FateOf(needs[i..], free, low))
  {
    assert needs[..i + 1][..i] == needs[..i];
    assert needs[i..][1..] == needs[i + 1..];
  }

  lemma FateEnd(needs: seq<bool>, free: nat, low: nat)
    ensures FateOf(needs[|needs|..], free, low) == Served && needs[..|needs|] == needs
  {
  }

  lemma TablesStart(L: Layout, ram: Ram, first: nat)
    ensures TablesFor(L, ram, ram, first, 0)
  {
  }

  lemma MapTables(L: Layout, ram0: Ram, ram: Ram, used: set<nat>, procs: seq<ProcMem>,
                  first: nat, k: nat, vp: nat, f: nat, t: nat)
    requires Inv(L, ram, used, procs) && Mappable(L, ram, used, procs, vp, f, t) && VMALLOC_PAGE <= first
    requires TablesFor(L, ram0, ram, first, k) && vp == first + k < PAGES
    ensures WfSpace(ram, L.kdir) && t < |ram| && f < |ram|
    ensures TablesFor(L, ram0, MapAndClear(L, ram, vp, f, t), first, k + 1)
  {
    hide Inv, Mappable, TablesFor;
    MapAndClearView(L, ram, used, procs, vp, f, t);
    hide MapAndClear;
    FlagWords(t);
    TablesForStep(L, ram0, ram, MapAndClear(L, ram, vp, f, t), first, k, vp);
  }

  /** The kernel's own tables are reached by their addresses. */
  lemma KernelPointers(L: Layout, ram: Ram, used: set<nat>, procs: seq<ProcMem>, vp: nat)
    requires Inv(L, ram, used, procs) && vp < PAGES
    ensures RamOk(ram) && L.kdir < |ram|
    ensures HasTable(ram, L.kdir, DirIndex(vp)) ==>
              TableOf(ram, L.kdir, DirIndex(vp)) < |ram| && Reaches(ram, L.kdir, TableOf(ram, L.kdir, DirIndex(vp)))
    ensures UnmapThrough(ram, L.kdir, L.kdir, vp) == Went(UnmapIn(ram, L.kdir, vp))
    ensures Lookup(ram, L.kdir, vp) != 0 ==>
              PhysicalThrough(ram, L.kdir, L.kdir, vp, 0) == GetPhysical(ram, L.kdir, vp, 0)
  {
    hide Inv, Lookup;
    FramesExist(L, ram, used, procs);
    KernelTableFrame(L, ram, used, procs, vp);
    if HasTable(ram, L.kdir, DirIndex(vp)) {
      LowReaches(L, ram, used, procs, L.kdir, TableOf(ram, L.kdir, DirIndex(vp)));
    }
    UnmapIsDirect(ram, L.kdir, L.kdir, vp, 0);
  }

  // ---- Pages of a slot under construction ----

  /** Frames that a slot with k pages has taken. */
  function FramesFor(k: nat): nat {
    if k == 0 then 0 else k + 1
  }

  /** How one page of a slot ends; both the page and a new table must come from the identity map. */
  ghost predicate SlotPageEnds(r: Outcome, hasTable: bool, free: nat, low: nat) {
    if free == 0 then r.Failed?
    else if !hasTable && free == 1 then r.Halted?
    else if low < (if hasTable then 1 else 2) then r.Stray?
    else r.Done?
  }

  lemma EndsOneWay(n: nat, low: nat, r: Outcome)
    requires CreateEnds(n, low, r)
    ensures r.Done? || r.Failed? || r.Halted? || r.Stray?
  {
  }

  /** A page just mapped into a directory that nobody uses is reached by its address exactly when it lies in the
      identity map. */
  lemma PageReached(L: Layout, ram: Ram, used: set<nat>, procs: seq<ProcMem>, cur: nat, dir: nat, vp: nat, page: nat,
                    t: nat)
    requires Inv(L, ram, used, procs) && CurrentOk(L, procs, cur) && IsDirectory(L, dir) && dir < |ram|
    requires !Structure(L, ram, procs, dir) && page < L.total && Unheld(L, ram, procs, page)
    requires t < |ram| && !Reserved(L, t)
    requires if HasTable(ram, dir, DirIndex(vp)) then
               var table := TableOf(ram, dir, DirIndex(vp));
               table < |ram| && !Structure(L, ram, procs, table)
             else Unheld(L, ram, procs, t)
    ensures RamOk(ram) && L.total <= |ram|
    ensures var r := MapIn(ram, dir, vp, page, PAGE_USER_RW, t);
            |r| == |ram| && (Reaches(r, cur, page) <==> page < VMALLOC_PAGE)
  {
    hide Inv, Structure, MapIn, Reaches, CurrentOk;
    FramesExist(L, ram, used, procs);
    LayoutTables(L, ram, used, procs, dir);
    if !HasTable(ram, dir, DirIndex(vp)) {
      UnheldIsFresh(L, ram, used, procs, t);
    }
    MapIsOutside(L, ram, used, procs, dir, vp, page, PAGE_USER_RW, t);
    FreshReached(L, MapIn(ram, dir, vp, page, PAGE_USER_RW, t), used, procs, cur, page);
  }

  /** Neither the directory nor the table of a slot under construction is read by a page walk. */
  lemma SlotIsOutside(L: Layout, ram0: Ram, used0: set<nat>, ram: Ram, used: set<nat>, procs: seq<ProcMem>,
                      s: nat, t: nat, pages: seq<nat>)
    requires Inv(L, ram0, used0, procs) && s < SLOTS && !procs[s].live
    requires Progress(L, ram0, used0, ram, used, s, t, pages)
    ensures IsDirectory(L, ProcDir(L, s)) && !Structure(L, ram, procs, ProcDir(L, s))
    ensures pages != [] ==> !Structure(L, ram, procs, t)
  {
    hide Inv, Structure, Building;
    ProgressTouched(L, ram0, used0, ram, used, s, t, pages);
    TouchedKeeps(L, ram0, used0, ram, used - used0, procs, s);
    DeadDirectory(L, ram, used0, procs, s);
    if pages != [] && Structure(L, ram, procs, t) {
      StructureIsUsed(L, ram, used0, procs, t);
    }
  }

  lemma OtherCurrent(L: Layout, procs: seq<ProcMem>, cur: nat, s: nat)
    requires CurrentOk(L, procs, cur) && s < |procs| && cur != ProcDir(L, s)
    ensures CurrentOk(L, procs[s := NO_MEMORY], cur)
  {
    if cur != L.kdir {
      var q: nat :| q < SLOTS && q < |procs| && procs[q].live && cur == ProcDir(L, q);
      assert procs[s := NO_MEMORY][q].live;
    }
  }

  lemma StillCurrent(L: Layout, procs: seq<ProcMem>, cur: nat, s: nat, m: ProcMem)
    requires CurrentOk(L, procs, cur) && s < |procs| && m.live
    ensures CurrentOk(L, procs[s := m], cur)
  {
    if cur != L.kdir {
      var q: nat :| q < SLOTS && q < |procs| && procs[q].live && cur == ProcDir(L, q);
      assert procs[s := m][q].live;
    }
  }

  lemma SameLives(L: Layout, procs: seq<ProcMem>, cur: nat, s: nat, b: nat)
    requires CurrentOk(L, procs, cur) && s < |procs| && procs[s].live
    ensures CurrentOk(L, procs[s := procs[s].(heapBreak := b)], cur)
  {
    StillCurrent(L, procs, cur, s, procs[s].(heapBreak := b));
  }

  lemma LowPages(L: Layout, ram: Ram, used: set<nat>, procs: seq<ProcMem>, s: nat)
    requires Inv(L, ram, used, procs) && s < SLOTS && procs[s].live
    ensures |procs[s].pages| == 4 && forall k: nat | k < 4 :: procs[s].pages[k] < VMALLOC_PAGE
  {
    hide Inv;
    ProcessShape(L, ram, used, procs, s);
    forall k: nat | k < 4
      ensures procs[s].pages[k] < VMALLOC_PAGE
    {
      DataPage(L, ram, used, procs, s, k);
    }
  }

  // ---- A run that leaves the identity map ----

  lemma TwoDescriptors(h: HeapModel.Heap)
    requires h.blocks == [] && h.end == h.start && h.max == h.start + HeapModel.HEAP_BYTES
    ensures HeapModel.Alloc(h, 24).1 != 0 && HeapModel.Alloc(HeapModel.Alloc(h, 24).0, 24).1 != 0
  {
    hide HeapModel.FirstFit;
    var g := HeapModel.Alloc(h, 24).0;
    assert g.blocks == [HeapModel.Block(h.end, 24, false)];
  }

  lemma FreshRange()
    ensures PageCount(0x80_0000) == 2048 && PageCount(4096) == 1
  {
  }

  /** Costs when only pages 0 and 1024 need a table. */
  lemma {:induction false} CostOfTwo(needs: seq<bool>, i: nat)
    requires i <= |needs| <= 2048 && forall k: nat | k < |needs| :: needs[k] <==> k == 0 || k == 1024
    ensures Cost(needs[..i]) == i + (if i > 0 then 1 else 0) + if i > 1024 then 1 else 0
  {
    if i > 0 {
      CostOfTwo(needs, i - 1);
      assert needs[..i][..i - 1] == needs[..i - 1];
    }
  }

  lemma EightMegabytes(L: Layout, ram: Ram, n: nat, low: nat)
    requires forall i: nat | 4 <= i < ENTRIES :: !HasTable(ram, L.kdir, i)
    requires 1027 <= low <= n && n >= 2050
    ensures PageCount(0x80_0000) == 2048 && VMALLOC_START / 4096 == 4096
    ensures var needs := Needs(L, ram, 4096, 2048); FateOf(needs, n, low) == Served && Cost(needs) == 2050
  {
    hide HasTable;
    var needs := Needs(L, ram, 4096, 2048);
    forall k: nat | k < |needs|
      ensures needs[k] <==> k == 0 || k == 1024
    {
      TwoTables(k);
    }
    hide Needs;
    assert needs[..2048] == needs;
    CostOfTwo(needs, 2048);
    CostOfTwo(needs, 1024);
    ServedIff(needs, n, low);
  }

  lemma TwoTables(k: nat)
    requires k < 2048
    ensures 4 <= (4096 + k) / 1024 < 6 && ((4096 + k) % 1024 == 0 <==> k == 0 || k == 1024)
  {
  }

  lemma OneMorePage(L: Layout, ram0: Ram, ram: Ram, n: nat, low: nat)
    requires (forall i: nat | 4 <= i < ENTRIES :: !HasTable(ram0, L.kdir, i)) && n >= 2 && low < 2
    ensures PageCount(4096) == 1 && (VMALLOC_START + 2048 * 4096) / 4096 == 6144
    ensures TablesFor(L, ram0, ram, 4096, 2048) ==> FateOf(Needs(L, ram, 6144, 1), n, low) == StrayTable
  {
    hide HasTable;
    if TablesFor(L, ram0, ram, 4096, 2048) {
      assert !HasTable(ram, L.kdir, 6);
      var needs := Needs(L, ram, 6144, 1);
      assert needs[0];
    }
  }
}
