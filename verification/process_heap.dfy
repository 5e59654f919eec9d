/** Where the heap of a process lies, and what process_mmap hands out of it (process_memory_map, process_memory_alloc
    and process_mmap in kernel/src/process.c). */
module ProcessHeap {
  import opened Words
  import opened Paging
  import opened Ownership
  import opened MemoryLaws

  /** The heap starts two pages into the 128 KB of its slot, which start at 0x02000000. */
  lemma HeapPlace(s: nat)
    requires s < SLOTS
    ensures HeapStart(s) == 0x0200_0000 + s * 0x2_0000 + 0x2000 && HeapStart(s) % PAGE_SIZE == 0
    ensures HeapStart(s) + PAGE_SIZE < 0x0220_0000
  {
  }

  /** An address lies in the heap of slot s. */
  predicate InHeap(s: nat, a: nat) {
    HeapStart(s) <= a < HeapStart(s) + PAGE_SIZE
  }

  /** In user mode the heap addresses of a live process lead to its third page, the one that fork copies as the heap,
      and no other address of the process does. */
  lemma HeapPage(L: Layout, ram: Ram, used: set<nat>, procs: seq<ProcMem>, s: nat, a: nat)
    requires Inv(L, ram, used, procs) && s < SLOTS && procs[s].live && a < U32
    ensures |procs[s].pages| == 4
    ensures UserPage(ram, ProcDir(L, s), a / 4096) == Word(procs[s].pages[2], PAGE_USER_RW) <==> InHeap(s, a)
  {
    hide Inv, UserPage, Word;
    ProcessShape(L, ram, used, procs, s);
    HeapPlace(s);
    PageOf(a);
    UserPagesAreOwn(L, ram, used, procs, s, a / 4096);
    PagesApart(L, ram, used, procs, s);
    WordsApart(procs[s].pages[2]);
    var k := a / 4096 - SlotPage(s);
    if 0 <= k < 4 {
      FlagWords(procs[s].pages[k]);
      FlagWords(procs[s].pages[2]);
    }
  }

  lemma PageOf(a: nat)
    requires a < U32
    ensures a / 4096 < PAGES && a / 4096 * 4096 <= a < a / 4096 * 4096 + 4096
  {
  }

  lemma WordsApart(f: nat)
    ensures Word(f, PAGE_USER_RW) != 0
  {
    FlagWords(f);
  }

  lemma PagesApart(L: Layout, ram: Ram, used: set<nat>, procs: seq<ProcMem>, s: nat)
    requires Inv(L, ram, used, procs) && s < SLOTS && procs[s].live
    ensures |procs[s].pages| == 4 && forall j, k | 0 <= j < k < 4 :: procs[s].pages[j] != procs[s].pages[k]
  {
    ForgetKeeps(L, ram, used, procs, s);
  }

  // ---- The break ----

  /** The break lies in the heap, or at its end. */
  predicate BreakOk(s: nat, brk: nat) {
    HeapStart(s) <= brk <= HeapStart(s) + PAGE_SIZE
  }

  /** A range that process_mmap handed out. */
  datatype Grant = Grant(base: nat, size: nat)

  /** All of it is heap of slot s. */
  predicate Inside(s: nat, g: Grant) {
    g.size > 0 && HeapStart(s) <= g.base && g.base + g.size <= HeapStart(s) + PAGE_SIZE
  }

  /** From a good break, an accepted request is granted out of the heap exactly when its sum stays within 32 bits;
      then the break moves to its end. Every request that fits is accepted. */
  lemma GrantInside(s: nat, brk: nat, size: nat)
    requires s < SLOTS && BreakOk(s, brk) && 0 < size < U32
    ensures Wrap(brk + size) <= HeapStart(s) + PAGE_SIZE ==> (Inside(s, Grant(brk, size)) <==> brk + size < U32)
    ensures Inside(s, Grant(brk, size)) ==> Wrap(brk + size) == brk + size && BreakOk(s, brk + size)
    ensures brk + size < U32 ==> (Wrap(brk + size) <= HeapStart(s) + PAGE_SIZE <==> Inside(s, Grant(brk, size)))
  {
    HeapPlace(s);
  }

  /** The grants follow one another between two breaks. */
  ghost predicate Consecutive(grants: seq<Grant>, from: nat, to: nat) {
    && (grants == [] ==> from == to)
    && (grants != [] ==> grants[0].base == from && grants[|grants| - 1].base + grants[|grants| - 1].size == to)
    && forall i, j | 0 <= i && j == i + 1 && j < |grants| :: grants[j].base == grants[i].base + grants[i].size
  }

  lemma ConsecutiveMore(grants: seq<Grant>, from: nat, to: nat, g: Grant)
    requires Consecutive(grants, from, to) && g.base == to
    ensures Consecutive(grants + [g], from, to + g.size)
  {
  }

  /** Consecutive grants share no byte. */
  lemma {:induction false} GrantsApart(grants: seq<Grant>, from: nat, to: nat, i: nat, j: nat)
    requires Consecutive(grants, from, to) && i < j < |grants|
    ensures grants[i].base + grants[i].size <= grants[j].base
    decreases j
  {
    if i + 1 < j {
      GrantsApart(grants, from, to, i, j - 1);
      assert grants[j].base == grants[j - 1].base + grants[j - 1].size;
    }
  }

  /** A forked break stands where the source's stands in its own heap. */
  lemma ForkedBreak(source: nat, child: nat, brk: nat, brk': nat)
    requires source < SLOTS && child < SLOTS && BreakOk(source, brk)
    requires brk' == Wrap(HeapStart(child) + Wrap(brk - HeapStart(source)))
    ensures BreakOk(child, brk') && brk' - HeapStart(child) == brk - HeapStart(source)
  {
    HeapPlace(source);
    HeapPlace(child);
  }

  /** The bytes of a range inside the heap lead to the heap page. */
  lemma HeapBytes(L: Layout, ram: Ram, used: set<nat>, procs: seq<ProcMem>, s: nat, base: nat, size: nat)
    requires Inv(L, ram, used, procs) && s < SLOTS && procs[s].live
    ensures |procs[s].pages| == 4
    ensures Inside(s, Grant(base, size)) ==>
              forall a | base <= a < base + size ::
                UserPage(ram, ProcDir(L, s), a / 4096) == Word(procs[s].pages[2], PAGE_USER_RW)
  {
    hide Inv, UserPage, Word;
    ProcessShape(L, ram, used, procs, s);
    HeapPlace(s);
    if Inside(s, Grant(base, size)) {
      forall a | base <= a < base + size
        ensures UserPage(ram, ProcDir(L, s), a / 4096) == Word(procs[s].pages[2], PAGE_USER_RW)
      {
        HeapPage(L, ram, used, procs, s, a);
      }
    }
  }

  lemma GrantsMapped(L: Layout, ram: Ram, used: set<nat>, procs: seq<ProcMem>, s: nat, grants: seq<Grant>, from: nat,
                     to: nat)
    requires Inv(L, ram, used, procs) && s < SLOTS && procs[s].live && Consecutive(grants, from, to)
    requires forall g | g in grants :: Inside(s, g)
    ensures |procs[s].pages| == 4
    ensures forall i, j | 0 <= i < j < |grants| :: grants[i].base + grants[i].size <= grants[j].base
    ensures forall g, a | g in grants && g.base <= a < g.base + g.size ::
              UserPage(ram, ProcDir(L, s), a / 4096) == Word(procs[s].pages[2], PAGE_USER_RW)
  {
    hide Inv, UserPage, Word, Inside;
    ProcessShape(L, ram, used, procs, s);
    forall i, j | 0 <= i < j < |grants|
      ensures grants[i].base + grants[i].size <= grants[j].base
    {
      GrantsApart(grants, from, to, i, j);
    }
    forall g | g in grants
      ensures forall a | g.base <= a < g.base + g.size ::
                UserPage(ram, ProcDir(L, s), a / 4096) == Word(procs[s].pages[2], PAGE_USER_RW)
    {
      HeapBytes(L, ram, used, procs, s, g.base, g.size);
    }
  }
}
