/** vmalloc's region list as a value, and the state of a page-by-page mapping in progress (kernel/src/vmalloc.c). */
module VmallocModel {
  import opened Words
  import opened Paging
  import opened Ownership

  const VMALLOC_START: nat := 0x0100_0000
  const VMALLOC_END: nat := 0x1000_0000

  /** A region descriptor; meta is the kmalloc block that holds it. */
  datatype Region = Region(meta: nat, virtAddr: nat, size: nat, mappedSize: nat, numPages: nat)
  {
    function End(): nat { virtAddr + mappedSize }
    function First(): nat { virtAddr / 4096 }
    predicate Has(vp: nat) { First() <= vp < First() + numPages }

    ghost predicate Ok() {
      && virtAddr == First() * 4096 && mappedSize == numPages * 4096 && numPages >= 1
      && mappedSize - 4096 < size <= mappedSize
      && VMALLOC_START <= virtAddr && End() <= VMALLOC_END
    }
  }

  /** What vmalloc_highest_end computes. */
  function HighestEnd(rs: seq<Region>): (e: nat)
    ensures e >= VMALLOC_START
    ensures forall k | 0 <= k < |rs| :: rs[k].End() <= e
    ensures e == VMALLOC_START || exists k :: 0 <= k < |rs| && rs[k].End() == e
  {
    if rs == [] then VMALLOC_START else
    var e := HighestEnd(rs[..|rs| - 1]);
    var last := rs[|rs| - 1].End();
    if last > e then last else e
  }

  function SumPages(rs: seq<Region>): nat {
    if rs == [] then 0 else rs[0].numPages + SumPages(rs[1..])
  }

  ghost predicate InSome(rs: seq<Region>, vp: nat) {
    exists k :: 0 <= k < |rs| && rs[k].Has(vp)
  }

  ghost predicate Apart(a: Region, b: Region) {
    a.End() <= b.virtAddr || b.End() <= a.virtAddr
  }

  /** Regions are well formed and disjoint, exactly their pages are mapped, and the break is their highest end. */
  ghost predicate VInv(L: Layout, ram: Ram, rs: seq<Region>, brk: nat) {
    RegionsOk(rs) && MappedExactly(L, ram, rs) && brk == HighestEnd(rs)
  }

  ghost predicate RegionsOk(rs: seq<Region>) {
    && (forall k | 0 <= k < |rs| :: rs[k].Ok())
    && (forall j, k | 0 <= j < k < |rs| :: Apart(rs[j], rs[k]))
  }

  ghost predicate MappedExactly(L: Layout, ram: Ram, rs: seq<Region>) {
    forall vp: nat | VMALLOC_PAGE <= vp < PAGES :: Lookup(ram, L.kdir, vp) != 0 <==> InSome(rs, vp)
  }

  /** The break is page aligned, and nothing at or above it is mapped. */
  lemma AboveBreak(L: Layout, ram: Ram, rs: seq<Region>, brk: nat)
    requires VInv(L, ram, rs, brk)
    ensures VMALLOC_START <= brk <= VMALLOC_END && brk % 4096 == 0
    ensures forall vp: nat | brk / 4096 <= vp < PAGES :: Lookup(ram, L.kdir, vp) == 0
  {
    forall vp: nat | brk / 4096 <= vp < PAGES
      ensures !InSome(rs, vp)
    {
      forall k | 0 <= k < |rs|
        ensures !rs[k].Has(vp)
      {
        assert rs[k].Ok() && rs[k].End() <= brk;
      }
    }
  }

  lemma {:induction false} HighestEndIs(rs: seq<Region>, e: nat)
    requires e >= VMALLOC_START && forall k | 0 <= k < |rs| :: rs[k].End() <= e
    requires e == VMALLOC_START || exists k :: 0 <= k < |rs| && rs[k].End() == e
    ensures HighestEnd(rs) == e
  {
  }

  lemma PushRegion(L: Layout, ram0: Ram, ram: Ram, rs: seq<Region>, brk: nat, r: Region)
    requires VInv(L, ram0, rs, brk) && r.Ok() && r.virtAddr == brk
    requires forall vp: nat | vp < PAGES ::
               if r.Has(vp) then Lookup(ram, L.kdir, vp) != 0 else Lookup(ram, L.kdir, vp) == Lookup(ram0, L.kdir, vp)
    ensures VInv(L, ram, [r] + rs, r.End())
    ensures SumPages([r] + rs) == r.numPages + SumPages(rs)
  {
    PushOk(rs, r);
    PushMapped(L, ram0, ram, rs, r);
    assert ([r] + rs)[1..] == rs;
  }

  lemma PushOk(rs: seq<Region>, r: Region)
    requires RegionsOk(rs) && r.Ok() && r.virtAddr == HighestEnd(rs)
    ensures RegionsOk([r] + rs) && HighestEnd([r] + rs) == r.End()
  {
    hide HighestEnd, Region.Ok;
    var rs' := [r] + rs;
    assert rs'[0] == r;
    forall k | 0 <= k < |rs'|
      ensures rs'[k].Ok() && rs'[k].End() <= r.End()
    {
      assert k > 0 ==> rs'[k] == rs[k - 1] && rs[k - 1].End() <= HighestEnd(rs);
    }
    forall j, k | 0 <= j < k < |rs'|
      ensures Apart(rs'[j], rs'[k])
    {
      assert rs'[k] == rs[k - 1] && rs[k - 1].End() <= HighestEnd(rs);
      assert j > 0 ==> rs'[j] == rs[j - 1];
    }
    HighestEndIs(rs', r.End());
  }

  lemma PushMapped(L: Layout, ram0: Ram, ram: Ram, rs: seq<Region>, r: Region)
    requires MappedExactly(L, ram0, rs)
    requires forall vp: nat | vp < PAGES ::
               if r.Has(vp) then Lookup(ram, L.kdir, vp) != 0 else Lookup(ram, L.kdir, vp) == Lookup(ram0, L.kdir, vp)
    ensures MappedExactly(L, ram, [r] + rs)
  {
    forall vp: nat | VMALLOC_PAGE <= vp < PAGES
      ensures Lookup(ram, L.kdir, vp) != 0 <==> InSome([r] + rs, vp)
    {
      InSomePush(rs, r, vp);
    }
  }

  function RemoveAt(rs: seq<Region>, k: nat): seq<Region>
    requires k < |rs|
  {
    rs[..k] + rs[k + 1..]
  }

  lemma RemoveRegion(L: Layout, ram0: Ram, ram: Ram, rs: seq<Region>, brk: nat, k: nat)
    requires VInv(L, ram0, rs, brk) && k < |rs|
    requires forall vp: nat | vp < PAGES ::
               Lookup(ram, L.kdir, vp) == if rs[k].Has(vp) then 0 else Lookup(ram0, L.kdir, vp)
    ensures VInv(L, ram, RemoveAt(rs, k), HighestEnd(RemoveAt(rs, k)))
  {
    RemoveOk(rs, k);
    RemoveMapped(L, ram0, ram, rs, k);
  }

  lemma RemoveOk(rs: seq<Region>, k: nat)
    requires RegionsOk(rs) && k < |rs|
    ensures RegionsOk(RemoveAt(rs, k))
  {
  }

  lemma RemoveMapped(L: Layout, ram0: Ram, ram: Ram, rs: seq<Region>, k: nat)
    requires RegionsOk(rs) && MappedExactly(L, ram0, rs) && k < |rs|
    requires forall vp: nat | vp < PAGES ::
               Lookup(ram, L.kdir, vp) == if rs[k].Has(vp) then 0 else Lookup(ram0, L.kdir, vp)
    ensures MappedExactly(L, ram, RemoveAt(rs, k))
  {
    forall vp: nat | VMALLOC_PAGE <= vp < PAGES
      ensures Lookup(ram, L.kdir, vp) != 0 <==> InSome(RemoveAt(rs, k), vp)
    {
      InSomeRemove(rs, k, vp);
    }
  }

  lemma InSomePush(rs: seq<Region>, r: Region, vp: nat)
    ensures InSome([r] + rs, vp) <==> r.Has(vp) || InSome(rs, vp)
  {
    var rs' := [r] + rs;
    if r.Has(vp) {
      assert rs'[0].Has(vp);
    }
    if k :| 0 <= k < |rs| && rs[k].Has(vp) {
      assert rs'[k + 1].Has(vp);
    }
  }

  lemma InSomeRemove(rs: seq<Region>, k: nat, vp: nat)
    requires RegionsOk(rs) && k < |rs|
    ensures InSome(RemoveAt(rs, k), vp) <==> InSome(rs, vp) && !rs[k].Has(vp)
  {
    var rs' := RemoveAt(rs, k);
    assert forall j | 0 <= j < |rs'| :: rs'[j] == if j < k then rs[j] else rs[j + 1];
    if rs[k].Has(vp) {
      ApartPages(rs, k, vp);
    } else if j :| 0 <= j < |rs| && rs[j].Has(vp) {
      assert rs'[if j < k then j else j - 1].Has(vp);
    }
  }

  /** No page belongs to two regions. */
  lemma ApartPages(rs: seq<Region>, k: nat, vp: nat)
    requires RegionsOk(rs) && k < |rs| && rs[k].Has(vp)
    ensures forall j | 0 <= j < |rs| && j != k :: !rs[j].Has(vp)
  {
  }

  lemma {:induction false} SumWithout(rs: seq<Region>, k: nat)
    requires k < |rs|
    ensures SumPages(rs) == rs[k].numPages + SumPages(RemoveAt(rs, k))
  {
    if k == 0 {
      assert RemoveAt(rs, 0) == rs[1..];
    } else {
      SumWithout(rs[1..], k - 1);
      assert RemoveAt(rs, k)[1..] == RemoveAt(rs[1..], k - 1);
    }
  }

  /** The page count and the range check of vmalloc, in 32-bit arithmetic. */
  function PageCount(size: nat): nat {
    Wrap(size + 4095) / 4096
  }

  /** Rounding covers the request exactly when it does not wrap. */
  lemma RoundingCovers(size: nat)
    requires 0 < size < U32
    ensures PageCount(size) * 4096 >= size <==> size <= 0xFFFF_F000
  {
  }

  /** The wrapped range check accepts a region that does not fit exactly when the sum leaves 32 bits. */
  lemma RangeCheck(brk: nat, size: nat)
    requires VMALLOC_START <= brk <= VMALLOC_END && 0 < size < U32
    ensures (Wrap(brk + PageCount(size) * 4096) <= VMALLOC_END && brk + PageCount(size) * 4096 > VMALLOC_END) <==>
            brk + PageCount(size) * 4096 >= U32
  {
  }

  // ---- A mapping in progress ----

  /** Tables the kernel directory has in ram and did not have in ram0. */
  ghost function NewTables(L: Layout, ram0: Ram, ram: Ram): set<nat> {
    set i: nat | i < ENTRIES && !HasTable(ram0, L.kdir, i) && HasTable(ram, L.kdir, i) :: TableOf(ram, L.kdir, i)
  }

  /** The kernel translates the pages first, first + 1, ... to the taken frames and all others as in ram0. */
  ghost predicate Extends(L: Layout, ram0: Ram, ram: Ram, first: nat, taken: seq<nat>) {
    forall vp: nat | vp < PAGES :: Lookup(ram, L.kdir, vp) ==
      if first <= vp < first + |taken| then Word(taken[vp - first], PAGE_KERNEL) else Lookup(ram0, L.kdir, vp)
  }

  /** The kernel directory only gained tables, none of them from frames in use at the start. */
  ghost predicate OnlyNewTables(L: Layout, ram0: Ram, used0: set<nat>, ram: Ram) {
    && (forall i: nat | i < ENTRIES && HasTable(ram0, L.kdir, i) :: Entry(ram, L.kdir, i) == Entry(ram0, L.kdir, i))
    && NewTables(L, ram0, ram) !! used0
  }

  /** Frames in use at the start that are neither the kernel directory nor one of its tables keep their contents. */
  ghost predicate KeepsData(L: Layout, ram0: Ram, used0: set<nat>, ram: Ram) {
    && |ram| == |ram0|
    && forall g | g in used0 && g < |ram0| && FreshFor(ram0, L.kdir, g) :: ram[g] == ram0[g]
  }

  /** The taken frames are new, distinct and cleared, and with the new tables they are all that was taken. */
  ghost predicate Took(L: Layout, ram0: Ram, used0: set<nat>, ram: Ram, used: set<nat>, taken: seq<nat>) {
    && used == used0 + NewTables(L, ram0, ram) + (set f | f in taken)
    && (forall f | f in taken :: f !in used0 && f !in NewTables(L, ram0, ram) && f < |ram| && ram[f] == ZeroPage())
    && (forall i, j | 0 <= i < j < |taken| :: taken[i] != taken[j])
  }

  ghost predicate Partial(L: Layout, ram0: Ram, used0: set<nat>, ram: Ram, used: set<nat>, first: nat,
                          taken: seq<nat>) {
    && Extends(L, ram0, ram, first, taken) && OnlyNewTables(L, ram0, used0, ram)
    && KeepsData(L, ram0, used0, ram) && Took(L, ram0, used0, ram, used, taken)
  }

  /** Nothing is left of a mapping except tables it made: every translation, and the contents of every frame
      in use at the start, are as before, and only frames of new tables stay taken. */
  ghost predicate Undone(L: Layout, ram0: Ram, used0: set<nat>, ram: Ram, used: set<nat>) {
    && (forall vp: nat | vp < PAGES :: Lookup(ram, L.kdir, vp) == Lookup(ram0, L.kdir, vp))
    && OnlyNewTables(L, ram0, used0, ram) && KeepsData(L, ram0, used0, ram)
    && used == used0 + NewTables(L, ram0, ram)
  }

  lemma PartialIsUndone(L: Layout, ram0: Ram, used0: set<nat>, ram: Ram, used: set<nat>, first: nat)
    requires Partial(L, ram0, used0, ram, used, first, [])
    ensures Undone(L, ram0, used0, ram, used)
  {
  }

  lemma PartialStart(L: Layout, ram: Ram, used: set<nat>, first: nat)
    ensures Partial(L, ram, used, ram, used, first, []) && NewTables(L, ram, ram) == {}
  {
  }

  /** Memory after one more page is mapped to frame f and cleared; t is the frame for a new table, if one is needed. */
  function MapAndClear(L: Layout, ram: Ram, vp: nat, f: nat, t: nat): Ram
    requires WfSpace(ram, L.kdir) && t < |ram| && f < |ram|
  {
    var r := MapIn(ram, L.kdir, vp, f, PAGE_KERNEL, t);
    if f < |r| then r[f := ZeroPage()] else r
  }

  /** Frame f can be mapped at page vp, with frame t for the table if one is missing. */
  ghost predicate Mappable(L: Layout, ram: Ram, used: set<nat>, procs: seq<ProcMem>, vp: nat, f: nat, t: nat) {
    && VMALLOC_PAGE <= vp < PAGES && Lookup(ram, L.kdir, vp) == 0
    && f !in used && f < L.total && t < L.total
    && (if HasTable(ram, L.kdir, DirIndex(vp)) then t == f else t !in used && t != f && t < VMALLOC_PAGE)
    && (DirIndex(vp) != REGION_DIR || forall s: nat | s < SLOTS && s < |procs| :: !procs[s].live)
  }

  lemma MappableIsFree(L: Layout, ram: Ram, used: set<nat>, procs: seq<ProcMem>, vp: nat, f: nat, t: nat)
    requires Inv(L, ram, used, procs) && Mappable(L, ram, used, procs, vp, f, t)
    ensures Inv(L, ram, used + {f} + {t}, procs) && WfSpace(ram, L.kdir) && FreshFor(ram, L.kdir, t)
    ensures f != 0 && t != 0 && !Reserved(L, f) && !Reserved(L, t)
    ensures Unheld(L, ram, procs, f) && Unheld(L, ram, procs, t)
  {
    TakeKeeps(L, ram, used, procs, f);
    if t != f {
      TakeKeeps(L, ram, used + {f}, procs, t);
    } else {
      assert used + {f} + {t} == used + {f};
    }
    KernelWf(L, ram, used, procs);
    UnheldIsFresh(L, ram, used, procs, t);
  }

  /** Mapping keeps the invariant, and frame f is then no table. */
  lemma MapThenFill(L: Layout, ram: Ram, used: set<nat>, procs: seq<ProcMem>, vp: nat, f: nat, t: nat)
    requires Inv(L, ram, used, procs) && Mappable(L, ram, used, procs, vp, f, t)
    ensures WfSpace(ram, L.kdir) && FreshFor(ram, L.kdir, t)
    ensures var m := MapIn(ram, L.kdir, vp, f, PAGE_KERNEL, t);
            var r := MapAndClear(L, ram, vp, f, t);
            && f < |m| == |ram| && r == m[f := ZeroPage()] && Inv(L, r, used + {f} + {t}, procs)
            && SameSpace(m, r, L.kdir) && forall i: nat :: Entry(r, L.kdir, i) == Entry(m, L.kdir, i)
  {
    MapThenNoTable(L, ram, used, procs, vp, f, t);
    FillKeeps(L, MapIn(ram, L.kdir, vp, f, PAGE_KERNEL, t), used + {f} + {t}, procs, f, ZeroPage());
  }

  lemma MapThenNoTable(L: Layout, ram: Ram, used: set<nat>, procs: seq<ProcMem>, vp: nat, f: nat, t: nat)
    requires Inv(L, ram, used, procs) && Mappable(L, ram, used, procs, vp, f, t)
    ensures WfSpace(ram, L.kdir) && FreshFor(ram, L.kdir, t) && f < |ram| && !Reserved(L, f)
    ensures var m := MapIn(ram, L.kdir, vp, f, PAGE_KERNEL, t);
            && |m| == |ram| && Inv(L, m, used + {f} + {t}, procs)
            && (forall i: nat :: Holds(L, m, procs, KernelTable(i)) != f)
            && (forall s: nat :: Holds(L, m, procs, ProcessTable(s)) != f)
  {
    MappableIsFree(L, ram, used, procs, vp, f, t);
    var used' := used + {f} + {t};
    MapKernelKeeps(L, ram, used', procs, vp, f, t);
    MapKernelHolds(L, ram, used', procs, vp, f, t);
    var m := MapIn(ram, L.kdir, vp, f, PAGE_KERNEL, t);
    HeldOnce(L, m, used', procs, KernelPage(vp), f);
  }

  lemma HeldOnce(L: Layout, ram: Ram, used: set<nat>, procs: seq<ProcMem>, u: Use, f: nat)
    requires Inv(L, ram, used, procs) && Holds(L, ram, procs, u) == f != 0
    ensures forall v: Use | v != u :: Holds(L, ram, procs, v) != f
  {
  }

  lemma MappedFrame(L: Layout, ram: Ram, used: set<nat>, procs: seq<ProcMem>, vp: nat, f: nat, t: nat)
    requires Inv(L, ram, used, procs) && Mappable(L, ram, used, procs, vp, f, t)
    ensures WfSpace(ram, L.kdir) && FreshFor(ram, L.kdir, t) && f < |ram|
    ensures var m := MapIn(ram, L.kdir, vp, f, PAGE_KERNEL, t);
            && Frame(Lookup(m, L.kdir, vp)) == f && f < |m| && m[f := ZeroPage()] == MapAndClear(L, ram, vp, f, t)
            && Inv(L, MapAndClear(L, ram, vp, f, t), used + {f} + {t}, procs)
  {
    MapThenFill(L, ram, used, procs, vp, f, t);
    MapKernelView(L, ram, used, procs, vp, f, t);
    FlagWords(f);
  }

  /** What one iteration of the mapping loop does to directory, translations, frames and invariant. */
  lemma MapAndClearView(L: Layout, ram: Ram, used: set<nat>, procs: seq<ProcMem>, vp: nat, f: nat, t: nat)
    requires Inv(L, ram, used, procs) && Mappable(L, ram, used, procs, vp, f, t)
    ensures WfSpace(ram, L.kdir) && FreshFor(ram, L.kdir, t) && f < |ram|
    ensures var r := MapAndClear(L, ram, vp, f, t);
            var i := DirIndex(vp);
            && Inv(L, r, used + {f} + {t}, procs) && i < ENTRIES && |r| == |ram| && r[f] == ZeroPage()
            && (forall k: nat | k != i :: Entry(r, L.kdir, k) == Entry(ram, L.kdir, k))
            && Entry(r, L.kdir, i) == (if HasTable(ram, L.kdir, i) then Entry(ram, L.kdir, i) else Word(t, PAGE_KERNEL))
            && Lookup(r, L.kdir, vp) == Word(f, PAGE_KERNEL)
            && (forall vq: nat | vq < PAGES && vq != vp :: Lookup(r, L.kdir, vq) == Lookup(ram, L.kdir, vq))
            && (forall g: nat | g < |ram| && g != t && g != f && FreshFor(ram, L.kdir, g) :: r[g] == ram[g])
  {
    MapThenFill(L, ram, used, procs, vp, f, t);
    MapKernelView(L, ram, used, procs, vp, f, t);
  }

  /** One iteration of the mapping loop. */
  lemma PartialStep(L: Layout, ram0: Ram, used0: set<nat>, ram: Ram, used: set<nat>, procs: seq<ProcMem>,
                    first: nat, taken: seq<nat>, vp: nat, f: nat, t: nat)
    requires Inv(L, ram, used, procs) && Partial(L, ram0, used0, ram, used, first, taken) && VMALLOC_PAGE <= first
    requires vp == first + |taken| && Mappable(L, ram, used, procs, vp, f, t)
    ensures WfSpace(ram, L.kdir) && f < |ram| && t < |ram|
    ensures var r := MapAndClear(L, ram, vp, f, t);
            && Inv(L, r, used + {f} + {t}, procs)
            && Partial(L, ram0, used0, r, used + {f} + {t}, first, taken + [f])
  {
    MapAndClearView(L, ram, used, procs, vp, f, t);
    var r := MapAndClear(L, ram, vp, f, t);
    ExtendsStep(L, ram0, ram, r, first, taken, f);
    NewTablesStep(L, ram0, ram, r, DirIndex(vp), t);
    StillData(L, ram0, used0, ram, used, procs, first, taken);
    PartialFrames(L, ram0, used0, ram, used, r, taken, f, t, HasTable(ram, L.kdir, DirIndex(vp)));
    OldTablesStay(L, ram0, ram, r, DirIndex(vp));
  }

  lemma ExtendsStep(L: Layout, ram0: Ram, ram: Ram, r: Ram, first: nat, taken: seq<nat>, f: nat)
    requires Extends(L, ram0, ram, first, taken)
    requires Lookup(r, L.kdir, first + |taken|) == Word(f, PAGE_KERNEL)
    requires forall vq: nat | vq < PAGES && vq != first + |taken| :: Lookup(r, L.kdir, vq) == Lookup(ram, L.kdir, vq)
    ensures Extends(L, ram0, r, first, taken + [f])
  {
  }

  lemma OldTablesStay(L: Layout, ram0: Ram, ram: Ram, r: Ram, i: nat)
    requires forall k: nat | k < ENTRIES && HasTable(ram0, L.kdir, k) :: Entry(ram, L.kdir, k) == Entry(ram0, L.kdir, k)
    requires forall k: nat | k != i :: Entry(r, L.kdir, k) == Entry(ram, L.kdir, k)
    requires HasTable(ram, L.kdir, i) ==> Entry(r, L.kdir, i) == Entry(ram, L.kdir, i)
    ensures forall k: nat | k < ENTRIES && HasTable(ram0, L.kdir, k) :: Entry(r, L.kdir, k) == Entry(ram0, L.kdir, k)
  {
  }

  /** The frames whose contents the step must preserve are no tables. */
  lemma StillData(L: Layout, ram0: Ram, used0: set<nat>, ram: Ram, used: set<nat>, procs: seq<ProcMem>,
                  first: nat, taken: seq<nat>)
    requires Inv(L, ram, used, procs) && Partial(L, ram0, used0, ram, used, first, taken)
    requires VMALLOC_PAGE <= first && first + |taken| <= PAGES
    ensures forall g | g in taken || (g in used0 && g < |ram0| && FreshFor(ram0, L.kdir, g)) :: FreshFor(ram, L.kdir, g)
  {
    forall g | g in used0 && g < |ram0| && FreshFor(ram0, L.kdir, g)
      ensures FreshFor(ram, L.kdir, g)
    {
      DataStaysData(L, ram0, used0, ram, g);
    }
    forall g | g in taken
      ensures FreshFor(ram, L.kdir, g)
    {
      TakenIsData(L, ram0, ram, used, procs, first, taken, g);
    }
  }

  /** A data frame of the start never becomes a table. */
  lemma DataStaysData(L: Layout, ram0: Ram, used0: set<nat>, ram: Ram, g: nat)
    requires OnlyNewTables(L, ram0, used0, ram) && g in used0 && FreshFor(ram0, L.kdir, g) && |ram| == |ram0|
    ensures FreshFor(ram, L.kdir, g)
  {
  }

  lemma TakenIsData(L: Layout, ram0: Ram, ram: Ram, used: set<nat>, procs: seq<ProcMem>, first: nat, taken: seq<nat>,
                    g: nat)
    requires Inv(L, ram, used, procs) && Extends(L, ram0, ram, first, taken) && g in taken && g < |ram|
    requires VMALLOC_PAGE <= first && first + |taken| <= PAGES
    ensures FreshFor(ram, L.kdir, g) && g != 0 && !Reserved(L, g)
  {
    var j :| 0 <= j < |taken| && taken[j] == g;
    var vp := first + j;
    ExtendsAt(L, ram0, ram, first, taken, j, vp);
    PageIsData(L, ram, used, procs, vp);
  }

  lemma ExtendsAt(L: Layout, ram0: Ram, ram: Ram, first: nat, taken: seq<nat>, j: nat, vp: nat)
    requires Extends(L, ram0, ram, first, taken) && j < |taken| && vp == first + j < PAGES
    ensures Lookup(ram, L.kdir, vp) != 0 && Frame(Lookup(ram, L.kdir, vp)) == taken[j]
  {
  }

  /** The frame behind a mapped vmalloc page is no table. */
  lemma PageIsData(L: Layout, ram: Ram, used: set<nat>, procs: seq<ProcMem>, vp: nat)
    requires Inv(L, ram, used, procs) && VMALLOC_PAGE <= vp < PAGES && Lookup(ram, L.kdir, vp) != 0
    ensures var g := Frame(Lookup(ram, L.kdir, vp));
            g in used && g < |ram| && FreshFor(ram, L.kdir, g) && g != 0 && !Reserved(L, g)
  {
    var g := Frame(Lookup(ram, L.kdir, vp));
    var u := KernelPage(vp);
    assert Holds(L, ram, procs, u) == g;
    forall i: nat | i < ENTRIES && HasTable(ram, L.kdir, i)
      ensures TableOf(ram, L.kdir, i) != g
    {
      KernelTableKind(L, ram, used, procs, i);
      assert u != KernelTable(i);
    }
  }

  lemma NewTablesStep(L: Layout, ram0: Ram, ram: Ram, r: Ram, i: nat, t: nat)
    requires i < ENTRIES
    requires forall k: nat | k != i :: Entry(r, L.kdir, k) == Entry(ram, L.kdir, k)
    requires Entry(r, L.kdir, i) == (if HasTable(ram, L.kdir, i) then Entry(ram, L.kdir, i) else Word(t, PAGE_KERNEL))
    requires HasTable(ram0, L.kdir, i) ==> HasTable(ram, L.kdir, i)
    ensures NewTables(L, ram0, r) == NewTables(L, ram0, ram) + (if HasTable(ram, L.kdir, i) then {} else {t})
  {
    hide Entry, Word, Present, Frame;
    FlagWords(t);
    forall k: nat
      ensures HasTable(r, L.kdir, k) <==> HasTable(ram, L.kdir, k) || k == i
      ensures HasTable(r, L.kdir, k) ==>
                TableOf(r, L.kdir, k) == if k == i && !HasTable(ram, L.kdir, i) then t else TableOf(ram, L.kdir, k)
    {
    }
    hide HasTable, TableOf;
    var after, before := NewTables(L, ram0, r), NewTables(L, ram0, ram);
    forall f | f in after
      ensures f in before || (f == t && !HasTable(ram, L.kdir, i))
    {
      var k: nat :| k < ENTRIES && !HasTable(ram0, L.kdir, k) && HasTable(r, L.kdir, k) && TableOf(r, L.kdir, k) == f;
    }
    forall f | f in before
      ensures f in after
    {
      var k: nat :| k < ENTRIES && !HasTable(ram0, L.kdir, k) && HasTable(ram, L.kdir, k)
          && TableOf(ram, L.kdir, k) == f;
      assert HasTable(r, L.kdir, k) && TableOf(r, L.kdir, k) == f;
    }
  }

  lemma PartialFrames(L: Layout, ram0: Ram, used0: set<nat>, ram: Ram, used: set<nat>, r: Ram, taken: seq<nat>,
                      f: nat, t: nat, had: bool)
    requires KeepsData(L, ram0, used0, ram) && Took(L, ram0, used0, ram, used, taken)
             && OnlyNewTables(L, ram0, used0, ram)
    requires |r| == |ram| && f !in used && f < |r| && r[f] == ZeroPage()
             && (if had then t == f else t !in used && t != f)
    requires NewTables(L, ram0, r) == NewTables(L, ram0, ram) + (if had then {} else {t})
    requires forall g: nat | g < |ram| && g != t && g != f && FreshFor(ram, L.kdir, g) :: r[g] == ram[g]
    requires forall g | g in taken || (g in used0 && g < |ram0| && FreshFor(ram0, L.kdir, g)) ::
             FreshFor(ram, L.kdir, g)
    ensures KeepsData(L, ram0, used0, r) && Took(L, ram0, used0, r, used + {f} + {t}, taken + [f])
    ensures NewTables(L, ram0, r) !! used0
  {
  }

  // ---- Which pages need a new table ----

  /** Page i of the range needs a table when its directory entry is empty and no earlier page of the range filled it. */
  ghost function Needs(L: Layout, ram: Ram, first: nat, n: nat): seq<bool> {
    seq(n, i requires 0 <= i => !HasTable(ram, L.kdir, (first + i) / 1024) && (i == 0 || (first + i) % 1024 == 0))
  }

  /** Beyond the tables of ram0, the directory has exactly those for the first k pages of the range. */
  ghost predicate TablesFor(L: Layout, ram0: Ram, ram: Ram, first: nat, k: nat) {
    forall i: nat | i < ENTRIES ::
      HasTable(ram, L.kdir, i) <==> HasTable(ram0, L.kdir, i) || (k > 0 && first / 1024 <= i <= (first + k - 1) / 1024)
  }

  lemma NeedsNow(L: Layout, ram0: Ram, ram: Ram, first: nat, n: nat, k: nat, vp: nat)
    requires TablesFor(L, ram0, ram, first, k) && k < n && vp == first + k < PAGES && VMALLOC_PAGE <= first
    ensures Needs(L, ram0, first, n)[k] <==> !HasTable(ram, L.kdir, DirIndex(vp))
  {
    hide HasTable;
    DirIndexRange(vp);
  }

  lemma TablesForStep(L: Layout, ram0: Ram, ram: Ram, r: Ram, first: nat, k: nat, vp: nat)
    requires TablesFor(L, ram0, ram, first, k) && vp == first + k < PAGES && VMALLOC_PAGE <= first
    requires forall i: nat | i != DirIndex(vp) :: Entry(r, L.kdir, i) == Entry(ram, L.kdir, i)
    requires HasTable(r, L.kdir, DirIndex(vp))
    ensures TablesFor(L, ram0, r, first, k + 1)
  {
    hide Entry, Present;
    DirIndexRange(vp);
    assert k > 0 ==> (vp - 1) / 1024 == vp / 1024 || (vp - 1) / 1024 + 1 == vp / 1024;
    forall i: nat | i < ENTRIES
      ensures HasTable(r, L.kdir, i) <==> HasTable(ram0, L.kdir, i) || first / 1024 <= i <= vp / 1024
    {
      if i != DirIndex(vp) {
        assert HasTable(r, L.kdir, i) == HasTable(ram, L.kdir, i);
      }
    }
  }

  // ---- Unmapping: rollback and vfree ----

  /** Unmapping a page and giving its frame back keeps the invariant. */
  lemma UnmapAndFreeKeeps(L: Layout, ram: Ram, used: set<nat>, procs: seq<ProcMem>, vp: nat)
    requires Inv(L, ram, used, procs) && VMALLOC_PAGE <= vp < PAGES && Lookup(ram, L.kdir, vp) != 0
    ensures WfSpace(ram, L.kdir)
    ensures Inv(L, UnmapIn(ram, L.kdir, vp), used - {Frame(Lookup(ram, L.kdir, vp))}, procs)
  {
    var f := Frame(Lookup(ram, L.kdir, vp));
    var r := UnmapIn(ram, L.kdir, vp);
    UnmapKernelKeeps(L, ram, used, procs, vp);
    UnmapKernelHolds(L, ram, used, procs, vp);
    HeldOnce(L, ram, used, procs, KernelPage(vp), f);
    GiveBackKeeps(L, r, used, procs, f);
  }

  /** Unmapping writes to one kernel table only. */
  lemma UnmapData(L: Layout, ram: Ram, used: set<nat>, procs: seq<ProcMem>, vp: nat, g: nat)
    requires Inv(L, ram, used, procs) && VMALLOC_PAGE <= vp < PAGES && FreshFor(ram, L.kdir, g)
    ensures WfSpace(ram, L.kdir) && g < |UnmapIn(ram, L.kdir, vp)| && UnmapIn(ram, L.kdir, vp)[g] == ram[g]
  {
    UnmapKernelView(L, ram, used, procs, vp);
  }

  lemma SameTables(L: Layout, ram0: Ram, ram: Ram, r: Ram)
    requires forall k: nat :: Entry(r, L.kdir, k) == Entry(ram, L.kdir, k)
    ensures NewTables(L, ram0, r) == NewTables(L, ram0, ram)
    ensures forall k: nat ::
              HasTable(r, L.kdir, k) == HasTable(ram, L.kdir, k) && TableOf(r, L.kdir, k) == TableOf(ram, L.kdir, k)
  {
  }

  /** One iteration of the rollback loop undoes the first page still mapped. */
  lemma RollbackStep(L: Layout, ram0: Ram, used0: set<nat>, ram: Ram, used: set<nat>, procs: seq<ProcMem>,
                     first: nat, taken: seq<nat>)
    requires Inv(L, ram, used, procs) && Partial(L, ram0, used0, ram, used, first, taken) && taken != []
    requires VMALLOC_PAGE <= first && first + |taken| <= PAGES && Lookup(ram0, L.kdir, first) == 0
    ensures WfSpace(ram, L.kdir) && Lookup(ram, L.kdir, first) == Word(taken[0], PAGE_KERNEL) != 0
    ensures Frame(Lookup(ram, L.kdir, first)) == taken[0]
    ensures Inv(L, UnmapIn(ram, L.kdir, first), used - {taken[0]}, procs)
    ensures Partial(L, ram0, used0, UnmapIn(ram, L.kdir, first), used - {taken[0]}, first + 1, taken[1..])
  {
    FlagWords(taken[0]);
    UnmapAndFreeKeeps(L, ram, used, procs, first);
    UnmapKernelView(L, ram, used, procs, first);
    var r := UnmapIn(ram, L.kdir, first);
    SameTables(L, ram0, ram, r);
    StillData(L, ram0, used0, ram, used, procs, first, taken);
    forall g | g in taken || (g in used0 && g < |ram0| && FreshFor(ram0, L.kdir, g))
      ensures r[g] == ram[g]
    {
      UnmapData(L, ram, used, procs, first, g);
    }
    RollbackFrames(L, ram0, used0, ram, used, r, taken);
    ExtendsDrop(L, ram0, ram, r, first, taken);
  }

  lemma ExtendsDrop(L: Layout, ram0: Ram, ram: Ram, r: Ram, first: nat, taken: seq<nat>)
    requires Extends(L, ram0, ram, first, taken) && taken != [] && Lookup(ram0, L.kdir, first) == 0
    requires Lookup(r, L.kdir, first) == 0
    requires forall vq: nat | vq < PAGES && vq != first :: Lookup(r, L.kdir, vq) == Lookup(ram, L.kdir, vq)
    ensures Extends(L, ram0, r, first + 1, taken[1..])
  {
  }

  lemma RollbackFrames(L: Layout, ram0: Ram, used0: set<nat>, ram: Ram, used: set<nat>, r: Ram, taken: seq<nat>)
    requires KeepsData(L, ram0, used0, ram) && Took(L, ram0, used0, ram, used, taken) && taken != [] && |r| == |ram|
    requires NewTables(L, ram0, r) == NewTables(L, ram0, ram)
    requires forall g | g in taken || (g in used0 && g < |ram0| && FreshFor(ram0, L.kdir, g)) :: r[g] == ram[g]
    ensures KeepsData(L, ram0, used0, r) && Took(L, ram0, used0, r, used - {taken[0]}, taken[1..])
  {
  }

  /** The frames behind pages first, ..., first + n - 1 of the kernel. */
  ghost function FramesOf(L: Layout, ram: Ram, first: nat, n: nat): set<nat> {
    set vp: nat | first <= vp < first + n :: Frame(Lookup(ram, L.kdir, vp))
  }

  /** The first n pages of a region are unmapped and their frames given back; all else is as in ram0. */
  ghost predicate Shrunk(L: Layout, ram0: Ram, used0: set<nat>, ram: Ram, used: set<nat>, first: nat, n: nat) {
    && (forall vp: nat | vp < PAGES :: Lookup(ram, L.kdir, vp) ==
          if first <= vp < first + n then 0 else Lookup(ram0, L.kdir, vp))
    && (forall k: nat :: Entry(ram, L.kdir, k) == Entry(ram0, L.kdir, k))
    && KeepsData(L, ram0, used0, ram)
    && used == used0 - FramesOf(L, ram0, first, n)
  }

  lemma ShrunkPages(L: Layout, ram0: Ram, used0: set<nat>, ram: Ram, used: set<nat>, r: Ram, first: nat, n: nat,
                    vp: nat)
    requires Shrunk(L, ram0, used0, ram, used, first, n) && vp == first + n < PAGES && Lookup(r, L.kdir, vp) == 0
    requires forall vq: nat | vq < PAGES && vq != vp :: Lookup(r, L.kdir, vq) == Lookup(ram, L.kdir, vq)
    requires (forall k: nat :: Entry(r, L.kdir, k) == Entry(ram, L.kdir, k)) && KeepsData(L, ram0, used0, r)
    ensures Shrunk(L, ram0, used0, r, used - {Frame(Lookup(ram0, L.kdir, vp))}, first, n + 1)
  {
  }

  /** One iteration of the vfree loop. */
  lemma ShrinkStep(L: Layout, ram0: Ram, used0: set<nat>, ram: Ram, used: set<nat>, procs: seq<ProcMem>,
                   first: nat, n: nat, vp: nat)
    requires Inv(L, ram, used, procs) && Shrunk(L, ram0, used0, ram, used, first, n)
    requires VMALLOC_PAGE <= first && vp == first + n < PAGES && Lookup(ram0, L.kdir, vp) != 0
    ensures WfSpace(ram, L.kdir) && Lookup(ram, L.kdir, vp) == Lookup(ram0, L.kdir, vp)
    ensures var f := Frame(Lookup(ram, L.kdir, vp));
            && f != 0 && Inv(L, UnmapIn(ram, L.kdir, vp), used - {f}, procs)
            && Shrunk(L, ram0, used0, UnmapIn(ram, L.kdir, vp), used - {f}, first, n + 1)
  {
    UnmapAndFreeKeeps(L, ram, used, procs, vp);
    UnmapKernelView(L, ram, used, procs, vp);
    var r := UnmapIn(ram, L.kdir, vp);
    SameTables(L, ram0, ram0, ram);
    forall g | g in used0 && g < |ram0| && FreshFor(ram0, L.kdir, g)
      ensures r[g] == ram0[g]
    {
      assert FreshFor(ram, L.kdir, g);
      UnmapData(L, ram, used, procs, vp, g);
    }
    ShrunkPages(L, ram0, used0, ram, used, r, first, n, vp);
  }
}
