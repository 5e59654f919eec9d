/** Two-level 32-bit paging over physical memory (kernel/src/paging.c; section 4.3 of the Intel SDM Vol. 3A). */
module Paging {
  import opened Words

  /** Physical memory: 1024 words per frame. Directories, tables and data pages all live here. */
  type Ram = seq<seq<nat>>

  const ENTRIES: nat := 1024
  const PAGE_KERNEL: nat := 3
  const PAGE_USER_RW: nat := 7

  function Frame(w: nat): nat { w / 4096 }

  /** Bits 0, 1 and 2 of an entry. */
  predicate Present(w: nat) { w % 2 == 1 }
  predicate Writable(w: nat) { w % 4 >= 2 }
  predicate User(w: nat) { w % 8 >= 4 }

  /** w | PAGE_USER. */
  function OrUser(w: nat): nat {
    if User(w) then w else w + 4
  }

  /** (phys_addr & 0xFFFFF000) | (flags & 0xFFF), for the frame of phys_addr. */
  function Word(frame: nat, flags: nat): nat {
    frame * 4096 + flags % 4096
  }

  function DirIndex(vp: nat): nat { vp / 1024 % 1024 }
  function TableIndex(vp: nat): nat { vp % 1024 }

  function ZeroPage(): (p: seq<nat>)
    ensures |p| == ENTRIES && forall i | 0 <= i < ENTRIES :: p[i] == 0
  {
    seq(ENTRIES, i => 0)
  }

  ghost predicate RamOk(ram: Ram) {
    forall f | 0 <= f < |ram| :: |ram[f]| == ENTRIES
  }

  /** Entry i of the page in frame f; memory that does not exist reads as 0. */
  function Entry(ram: Ram, f: nat, i: nat): nat {
    if f < |ram| && i < |ram[f]| then ram[f][i] else 0
  }

  function Store(ram: Ram, f: nat, i: nat, w: nat): Ram
    requires f < |ram| && i < |ram[f]|
  {
    var page: seq<nat> := ram[f][i := w];
    ram[f := page]
  }

  /** The page walk: the present table entry that maps virtual page vp, or 0. */
  function Lookup(ram: Ram, dir: nat, vp: nat): nat {
    var d := Entry(ram, dir, DirIndex(vp));
    if !Present(d) then 0 else
    var e := Entry(ram, Frame(d), TableIndex(vp));
    if Present(e) then e else 0
  }

  /** paging_get_physical_in_directory, for the address at offset in page vp. */
  function GetPhysical(ram: Ram, dir: nat, vp: nat, offset: nat): nat {
    var e := Lookup(ram, dir, vp);
    if e == 0 then 0 else Frame(e) * 4096 + offset
  }

  predicate HasTable(ram: Ram, dir: nat, i: nat) { Present(Entry(ram, dir, i)) }
  function TableOf(ram: Ram, dir: nat, i: nat): nat { Frame(Entry(ram, dir, i)) }

  /** A directory whose tables exist and are not shared, every directory entry writable, and every
      user page under a user directory entry. */
  ghost predicate WfSpace(ram: Ram, dir: nat) {
    && RamOk(ram) && dir < |ram|
    && (forall i: nat | i < ENTRIES && HasTable(ram, dir, i) ::
          TableOf(ram, dir, i) < |ram| && TableOf(ram, dir, i) != dir && Writable(Entry(ram, dir, i)))
    && (forall i: nat, j: nat | i < j < ENTRIES && HasTable(ram, dir, i) && HasTable(ram, dir, j) ::
          TableOf(ram, dir, i) != TableOf(ram, dir, j))
    && (forall vp: nat | vp < 0x10_0000 && User(Lookup(ram, dir, vp)) :: User(Entry(ram, dir, DirIndex(vp))))
  }

  /** Frame t holds neither the directory nor one of its tables. */
  ghost predicate FreshFor(ram: Ram, dir: nat, t: nat) {
    t < |ram| && t != dir && forall i: nat | i < ENTRIES && HasTable(ram, dir, i) :: TableOf(ram, dir, i) != t
  }

  // ---- Mapping and unmapping ----

  /** What paging_get_or_create_table does to memory; t is the frame the allocator would hand out. */
  function WithTable(ram: Ram, dir: nat, vp: nat, flags: nat, t: nat): Ram
    requires RamOk(ram) && dir < |ram| && t < |ram|
  {
    var d := ram[dir][DirIndex(vp)];
    if !Present(d) then
      var cleared := ram[t := ZeroPage()];
      Store(cleared, dir, DirIndex(vp), t * 4096 + PAGE_KERNEL + if User(flags) then 4 else 0)
    else if User(flags) then
      Store(ram, dir, DirIndex(vp), OrUser(d))
    else
      ram
  }

  /** What paging_map_page_in_directory does to memory. */
  function MapIn(ram: Ram, dir: nat, vp: nat, frame: nat, flags: nat, t: nat): Ram
    requires RamOk(ram) && dir < |ram| && t < |ram|
    requires HasTable(ram, dir, DirIndex(vp)) ==> TableOf(ram, dir, DirIndex(vp)) < |ram|
  {
    var r := WithTable(ram, dir, vp, flags, t);
    var table := if HasTable(ram, dir, DirIndex(vp)) then TableOf(ram, dir, DirIndex(vp)) else t;
    Store(r, table, TableIndex(vp), Word(frame, flags))
  }

  /** What paging_unmap_page_in_directory does to memory. */
  function UnmapIn(ram: Ram, dir: nat, vp: nat): Ram
    requires RamOk(ram) && dir < |ram|
    requires HasTable(ram, dir, DirIndex(vp)) ==> TableOf(ram, dir, DirIndex(vp)) < |ram|
  {
    if HasTable(ram, dir, DirIndex(vp)) then Store(ram, TableOf(ram, dir, DirIndex(vp)), TableIndex(vp), 0) else ram
  }

  // ---- Access through pointers ----

  /** The code reaches a page table, or a page it clears or copies, through a pointer with the frame's own address. The
      access goes where the current directory cur translates that page. */
  datatype Access = Went(ram: Ram) | Fault

  /** Page p of the current directory is frame p, so that such a pointer leads to the frame it names. */
  predicate Reaches(ram: Ram, cur: nat, p: nat) {
    Lookup(ram, cur, p) != 0 && Frame(Lookup(ram, cur, p)) == p
  }

  function ClearAt(ram: Ram, cur: nat, p: nat): Access {
    var e := Lookup(ram, cur, p);
    if e == 0 || Frame(e) >= |ram| then Fault else Went(ram[Frame(e) := ZeroPage()])
  }

  function StoreAt(ram: Ram, cur: nat, p: nat, i: nat, w: nat): Access {
    var e := Lookup(ram, cur, p);
    if e == 0 || Frame(e) >= |ram| || i >= |ram[Frame(e)]| then Fault else Went(Store(ram, Frame(e), i, w))
  }

  /** paging_get_or_create_table; directories are static and lie in the identity map. */
  function TableThrough(ram: Ram, cur: nat, dir: nat, vp: nat, flags: nat, t: nat): Access
    requires RamOk(ram) && dir < |ram|
  {
    var i := DirIndex(vp);
    var d := ram[dir][i];
    if !Present(d) then
      match ClearAt(ram, cur, t)
      case Fault => Fault
      case Went(r) => Went(Store(r, dir, i, t * 4096 + PAGE_KERNEL + if User(flags) then 4 else 0))
    else if User(flags) then
      Went(Store(ram, dir, i, OrUser(d)))
    else
      Went(ram)
  }

  /** paging_map_page_in_directory. */
  function MapThrough(ram: Ram, cur: nat, dir: nat, vp: nat, frame: nat, flags: nat, t: nat): Access
    requires RamOk(ram) && dir < |ram|
  {
    match TableThrough(ram, cur, dir, vp, flags, t)
    case Fault => Fault
    case Went(r) => StoreAt(r, cur, TableOf(r, dir, DirIndex(vp)), TableIndex(vp), Word(frame, flags))
  }

  /** paging_unmap_page_in_directory. */
  function UnmapThrough(ram: Ram, cur: nat, dir: nat, vp: nat): Access {
    if !HasTable(ram, dir, DirIndex(vp)) then Went(ram)
    else StoreAt(ram, cur, TableOf(ram, dir, DirIndex(vp)), TableIndex(vp), 0)
  }

  /** paging_get_physical_in_directory: the walk in software, which reads the table through a pointer. */
  function PhysicalThrough(ram: Ram, cur: nat, dir: nat, vp: nat, offset: nat): nat {
    if !HasTable(ram, dir, DirIndex(vp)) then 0 else
    var e := Entry(ram, Frame(Lookup(ram, cur, TableOf(ram, dir, DirIndex(vp)))), TableIndex(vp));
    if Present(e) then Frame(e) * 4096 + offset else 0
  }

  /** The table that mapping vp uses: the one in place, or t. */
  function TableFor(ram: Ram, dir: nat, vp: nat, t: nat): nat {
    if HasTable(ram, dir, DirIndex(vp)) then TableOf(ram, dir, DirIndex(vp)) else t
  }

  /** Both pointers that mapping vp follows, to clear a new table and to store the entry, lead to the table. */
  ghost predicate Reached(ram: Ram, cur: nat, dir: nat, vp: nat, flags: nat, t: nat)
    requires RamOk(ram) && dir < |ram| && t < |ram|
  {
    && (HasTable(ram, dir, DirIndex(vp)) || Reaches(ram, cur, t))
    && Reaches(WithTable(ram, dir, vp, flags, t), cur, TableFor(ram, dir, vp, t))
  }

  /** Where the pointers hold, the code does what MapIn and UnmapIn say, and reads what the processor reads. */
  lemma ThroughIsDirect(ram: Ram, cur: nat, dir: nat, vp: nat, frame: nat, flags: nat, t: nat)
    requires WfSpace(ram, dir) && FreshFor(ram, dir, t) && Reached(ram, cur, dir, vp, flags, t)
    ensures MapThrough(ram, cur, dir, vp, frame, flags, t) == Went(MapIn(ram, dir, vp, frame, flags, t))
  {
    WithTableWrites(ram, dir, vp, flags, t);
    TableEntryParts(Entry(ram, dir, DirIndex(vp)), flags, t);
    assert TableThrough(ram, cur, dir, vp, flags, t) == Went(WithTable(ram, dir, vp, flags, t));
  }

  lemma UnmapIsDirect(ram: Ram, cur: nat, dir: nat, vp: nat, offset: nat)
    requires RamOk(ram) && dir < |ram|
    requires HasTable(ram, dir, DirIndex(vp)) ==>
               TableOf(ram, dir, DirIndex(vp)) < |ram| && Reaches(ram, cur, TableOf(ram, dir, DirIndex(vp)))
    ensures UnmapThrough(ram, cur, dir, vp) == Went(UnmapIn(ram, dir, vp))
    ensures Lookup(ram, dir, vp) != 0 ==>
              PhysicalThrough(ram, cur, dir, vp, offset) == GetPhysical(ram, dir, vp, offset)
  {
  }

  /** In the current directory itself one look at the table's page decides. */
  lemma ReachedHere(ram: Ram, dir: nat, vp: nat, flags: nat, t: nat)
    requires WfSpace(ram, dir) && FreshFor(ram, dir, t)
    ensures Reached(ram, dir, dir, vp, flags, t) <==> Reaches(ram, dir, TableFor(ram, dir, vp, t))
  {
    WithTableLookup(ram, dir, vp, flags, t, TableFor(ram, dir, vp, t));
  }

  /** A new table comes out cleared, whatever its frame held, exactly when its pointer leads to its frame. */
  lemma TableClearedIff(ram: Ram, cur: nat, dir: nat, vp: nat, flags: nat, t: nat)
    requires RamOk(ram) && dir < |ram| && FreshFor(ram, cur, t) && t != dir && !HasTable(ram, dir, DirIndex(vp))
    ensures (forall page: seq<nat> | |page| == ENTRIES :: ClearsTable(ram, cur, dir, vp, flags, t, page))
            <==> Reaches(ram, cur, t)
  {
    forall page: seq<nat> | |page| == ENTRIES
      ensures Reaches(ram, cur, t) ==> ClearsTable(ram, cur, dir, vp, flags, t, page)
      ensures !Reaches(ram, cur, t) && ClearsTable(ram, cur, dir, vp, flags, t, page) ==> page == ZeroPage()
    {
      FreshLookup(ram, cur, t, page, t);
      assert ram[t := page][dir] == ram[dir];
    }
    var dirty: seq<nat> := ZeroPage()[0 := 1];
    assert dirty[0] != ZeroPage()[0];
    assert ClearsTable(ram, cur, dir, vp, flags, t, dirty) ==> Reaches(ram, cur, t) || dirty == ZeroPage();
  }

  /** What a fresh frame holds matters to no translation. */
  lemma FreshLookup(ram: Ram, cur: nat, t: nat, page: seq<nat>, vp: nat)
    requires FreshFor(ram, cur, t)
    ensures Lookup(ram[t := page], cur, vp) == Lookup(ram, cur, vp)
  {
    DirIndexBound(vp);
    var i := DirIndex(vp);
    assert Entry(ram[t := page], cur, i) == Entry(ram, cur, i);
    if HasTable(ram, cur, i) {
      assert TableOf(ram, cur, i) != t;
    }
  }

  lemma DirIndexBound(vp: nat)
    ensures DirIndex(vp) < ENTRIES
  {
  }

  ghost predicate ClearsTable(ram: Ram, cur: nat, dir: nat, vp: nat, flags: nat, t: nat, page: seq<nat>)
    requires RamOk(ram) && dir < |ram| && t < |ram| && |page| == ENTRIES
  {
    var after := TableThrough(ram[t := page], cur, dir, vp, flags, t);
    after.Went? && t < |after.ram| && after.ram[t] == ZeroPage()
  }

  /** paging_get_physical_in_directory: the frame that the page walk finds and the offset in it, or 0 without a mapping;
      the walk in software does the same wherever it reaches the table. */
  lemma PhysicalMeaning(ram: Ram, dir: nat, vp: nat, offset: nat)
    requires offset < 4096
    ensures var (e, a) := (Lookup(ram, dir, vp), GetPhysical(ram, dir, vp, offset));
            if e == 0 then a == 0 else a / 4096 == e / 4096 && a % 4096 == offset
  {
    var e := Lookup(ram, dir, vp);
    Div4096(Frame(e) * 4096 + offset, Frame(e), offset);
  }

  lemma WordParts(frame: nat, flags: nat)
    ensures Frame(Word(frame, flags)) == frame
    ensures Present(Word(frame, flags)) == Present(flags)
    ensures Writable(Word(frame, flags)) == Writable(flags)
    ensures User(Word(frame, flags)) == User(flags)
  {
    var q, r := flags / 4096, flags % 4096;
    LowBits(frame, r);
    LowBits(q, r);
    assert flags == q * 4096 + r;
  }

  /** An entry keeps the frame and the twelve flag bits apart. */
  lemma WordMeaning(frame: nat, flags: nat)
    ensures Word(frame, flags) / 4096 == frame && Word(frame, flags) % 4096 == flags % 4096
  {
    Div4096(Word(frame, flags), frame, flags % 4096);
  }

  /** Setting the user bit changes no other bit. */
  lemma OrUserMeaning(w: nat)
    ensures OrUser(w) % 4 == w % 4 && OrUser(w) / 8 == w / 8 && OrUser(w) / 4 % 2 == 1
  {
    ThreeBits(w / 8, w % 8);
    ThreeBits(w / 8, if w % 8 >= 4 then w % 8 else w % 8 + 4);
  }

  lemma ThreeBits(q: nat, r: nat)
    requires r < 8
    ensures var x := 8 * q + r; x / 8 == q && x % 4 == r % 4 && x / 4 % 2 == r / 4
  {
    var x := 8 * q + r;
    Mod4(x, 2 * q + r / 4, r % 4);
    assert x / 4 == 2 * q + r / 4;
  }

  /** The ten high bits of a page number select the directory entry, the ten low bits the table entry. */
  lemma IndexMeaning(vp: nat)
    requires vp < 0x10_0000
    ensures DirIndex(vp) < 1024 && TableIndex(vp) < 1024 && vp == DirIndex(vp) * 1024 + TableIndex(vp)
  {
  }

  /** The two flag combinations that the kernel uses. */
  lemma FlagWords(f: nat)
    ensures var k := Word(f, PAGE_KERNEL); Frame(k) == f && Present(k) && Writable(k) && !User(k) && k != 0
    ensures var u := Word(f, PAGE_USER_RW); Frame(u) == f && Present(u) && Writable(u) && User(u) && u != 0
  {
    LowBits(f, 3);
    LowBits(f, 7);
    assert Word(f, PAGE_KERNEL) == f * 4096 + 3 && Word(f, PAGE_USER_RW) == f * 4096 + 7;
    assert Present(3) && Writable(3) && !User(3);
    assert Present(7) && Writable(7) && User(7);
  }

  lemma Mod2(x: nat, q: nat, r: nat)
    requires x == 2 * q + r && r < 2
    ensures x % 2 == r
  {
  }

  lemma Mod4(x: nat, q: nat, r: nat)
    requires x == 4 * q + r && r < 4
    ensures x % 4 == r
  {
  }

  lemma Mod8(x: nat, q: nat, r: nat)
    requires x == 8 * q + r && r < 8
    ensures x % 8 == r
  {
  }

  lemma Div4096(x: nat, q: nat, r: nat)
    requires x == 4096 * q + r && r < 4096
    ensures x / 4096 == q
  {
  }

  lemma PfnOfFrame(f: nat)
    ensures Pfn(f * 4096) == f
  {
  }

  lemma LowBits(q: nat, r: nat)
    requires r < 4096
    ensures (q * 4096 + r) / 4096 == q
    ensures Present(q * 4096 + r) == Present(r)
    ensures Writable(q * 4096 + r) == Writable(r)
    ensures User(q * 4096 + r) == User(r)
  {
    var x := q * 4096 + r;
    Div4096(x, q, r);
    Mod2(x, 2048 * q + r / 2, r % 2);
    Mod4(x, 1024 * q + r / 4, r % 4);
    Mod8(x, 512 * q + r / 8, r % 8);
  }

  lemma OrUserParts(w: nat)
    ensures User(OrUser(w)) && Frame(OrUser(w)) == Frame(w)
    ensures Present(OrUser(w)) == Present(w) && Writable(OrUser(w)) == Writable(w)
  {
    if !User(w) {
      var x := w + 4;
      Mod2(x, w / 2 + 2, w % 2);
      Mod4(x, w / 4 + 1, w % 4);
      Mod8(x, w / 8, w % 8 + 4);
      OrUserFrame(w);
    }
  }

  lemma OrUserFrame(w: nat)
    requires w % 8 < 4
    ensures (w + 4) / 4096 == w / 4096
  {
  }

  lemma SamePage(vp: nat, vq: nat)
    requires vp < 0x10_0000 && vq < 0x10_0000 && DirIndex(vp) == DirIndex(vq) && TableIndex(vp) == TableIndex(vq)
    ensures vp == vq
  {
  }

  /** The directory entry that getting or creating a table leaves behind. */
  function TableEntry(d: nat, flags: nat, t: nat): nat {
    if Present(d) then (if User(flags) then OrUser(d) else d)
    else t * 4096 + PAGE_KERNEL + if User(flags) then 4 else 0
  }

  lemma TableEntryParts(d: nat, flags: nat, t: nat)
    ensures var e := TableEntry(d, flags, t);
            && Present(e) && Frame(e) == (if Present(d) then Frame(d) else t)
            && (Present(d) ==> Writable(e) == Writable(d)) && (!Present(d) ==> Writable(e))
            && (User(e) <==> User(flags) || (Present(d) && User(d)))
  {
    if Present(d) {
      OrUserParts(d);
    } else {
      LowBits(t, 3);
      LowBits(t, 7);
      assert Present(3) && Writable(3) && !User(3) && Present(7) && Writable(7) && User(7);
    }
  }

  lemma WithTableWrites(ram: Ram, dir: nat, vp: nat, flags: nat, t: nat)
    requires RamOk(ram) && dir < |ram| && t < |ram| && t != dir
    ensures var w := WithTable(ram, dir, vp, flags, t);
            var i := DirIndex(vp);
            && |w| == |ram| && RamOk(w)
            && (forall k: nat | k != i :: Entry(w, dir, k) == Entry(ram, dir, k))
            && Entry(w, dir, i) == TableEntry(Entry(ram, dir, i), flags, t)
            && (forall g: nat | g < |ram| && g != dir && (HasTable(ram, dir, i) || g != t) :: w[g] == ram[g])
            && (!HasTable(ram, dir, i) ==> w[t] == ZeroPage())
  {
  }

  lemma WithTableLookup(ram: Ram, dir: nat, vp: nat, flags: nat, t: nat, vq: nat)
    requires WfSpace(ram, dir) && FreshFor(ram, dir, t)
    ensures Lookup(WithTable(ram, dir, vp, flags, t), dir, vq) == Lookup(ram, dir, vq)
  {
    var w := WithTable(ram, dir, vp, flags, t);
    var i := DirIndex(vq);
    WithTableWrites(ram, dir, vp, flags, t);
    TableEntryParts(Entry(ram, dir, DirIndex(vp)), flags, t);
    if HasTable(ram, dir, i) {
      assert TableOf(w, dir, i) == TableOf(ram, dir, i) != t;
      assert w[TableOf(ram, dir, i)] == ram[TableOf(ram, dir, i)];
    }
  }

  /** Getting or creating the table changes no translation and keeps the directory well formed. */
  lemma WithTableKeeps(ram: Ram, dir: nat, vp: nat, flags: nat, t: nat)
    requires WfSpace(ram, dir) && FreshFor(ram, dir, t)
    ensures var r := WithTable(ram, dir, vp, flags, t);
            && WfSpace(r, dir) && |r| == |ram| && HasTable(r, dir, DirIndex(vp))
            && (User(flags) ==> User(Entry(r, dir, DirIndex(vp))))
            && TableOf(r, dir, DirIndex(vp)) == TableFor(ram, dir, vp, t)
            && forall vq: nat :: Lookup(r, dir, vq) == Lookup(ram, dir, vq)
  {
    var r := WithTable(ram, dir, vp, flags, t);
    WithTableWrites(ram, dir, vp, flags, t);
    TableEntryParts(Entry(ram, dir, DirIndex(vp)), flags, t);
    forall vq: nat
      ensures Lookup(r, dir, vq) == Lookup(ram, dir, vq)
    {
      WithTableLookup(ram, dir, vp, flags, t, vq);
    }
    forall i: nat | i < ENTRIES && i != DirIndex(vp)
      ensures HasTable(r, dir, i) == HasTable(ram, dir, i) && TableOf(r, dir, i) == TableOf(ram, dir, i)
    {
      assert Entry(r, dir, i) == Entry(ram, dir, i);
    }
    forall vq: nat | vq < 0x10_0000 && User(Lookup(r, dir, vq))
      ensures User(Entry(r, dir, DirIndex(vq)))
    {
      assert User(Lookup(ram, dir, vq));
      assert HasTable(ram, dir, DirIndex(vq));
    }
  }

  /** Mapping one page sets its translation to exactly the requested frame and flags (nothing when the
      flags lack PRESENT) and changes no other translation, even when it has to create a table. ThroughIsDirect tells
      when the code does this. */
  lemma MapRefines(ram: Ram, dir: nat, vp: nat, frame: nat, flags: nat, t: nat)
    requires WfSpace(ram, dir) && FreshFor(ram, dir, t) && vp < 0x10_0000
    ensures var r := MapIn(ram, dir, vp, frame, flags, t);
            && WfSpace(r, dir) && |r| == |ram|
            && Lookup(r, dir, vp) == (if Present(flags) then Word(frame, flags) else 0)
            && forall vq: nat | vq < 0x10_0000 && vq != vp :: Lookup(r, dir, vq) == Lookup(ram, dir, vq)
  {
    WithTableKeeps(ram, dir, vp, flags, t);
    WordParts(frame, flags);
    StoreInTable(WithTable(ram, dir, vp, flags, t), dir, vp, Word(frame, flags));
  }

  /** Where a kernel mapping writes: one table, and one directory entry when the table is new. */
  lemma MapWrites(ram: Ram, dir: nat, vp: nat, frame: nat, t: nat)
    requires WfSpace(ram, dir) && FreshFor(ram, dir, t)
    ensures var r := MapIn(ram, dir, vp, frame, PAGE_KERNEL, t);
            var i := DirIndex(vp);
            var table := if HasTable(ram, dir, i) then TableOf(ram, dir, i) else t;
            && |r| == |ram| && RamOk(r)
            && (forall k: nat | k != i :: Entry(r, dir, k) == Entry(ram, dir, k))
            && Entry(r, dir, i) == (if HasTable(ram, dir, i) then Entry(ram, dir, i) else Word(t, PAGE_KERNEL))
            && (forall g: nat | g < |ram| && g != dir && g != table :: r[g] == ram[g])
  {
  }

  lemma UnmapRefines(ram: Ram, dir: nat, vp: nat)
    requires WfSpace(ram, dir) && vp < 0x10_0000
    ensures var r := UnmapIn(ram, dir, vp);
            && WfSpace(r, dir) && |r| == |ram|
            && Lookup(r, dir, vp) == 0
            && forall vq: nat | vq < 0x10_0000 && vq != vp :: Lookup(r, dir, vq) == Lookup(ram, dir, vq)
  {
    if HasTable(ram, dir, DirIndex(vp)) {
      StoreInTable(ram, dir, vp, 0);
    }
  }

  /** Writing the table entry of vp changes the translation of vp and of no other page. */
  lemma StoreInTable(ram: Ram, dir: nat, vp: nat, w: nat)
    requires WfSpace(ram, dir) && vp < 0x10_0000 && HasTable(ram, dir, DirIndex(vp))
    requires User(w) ==> User(Entry(ram, dir, DirIndex(vp)))
    ensures var r := Store(ram, TableOf(ram, dir, DirIndex(vp)), TableIndex(vp), w);
            && WfSpace(r, dir) && |r| == |ram|
            && Lookup(r, dir, vp) == (if Present(w) then w else 0)
            && forall vq: nat | vq < 0x10_0000 && vq != vp :: Lookup(r, dir, vq) == Lookup(ram, dir, vq)
  {
    var table := TableOf(ram, dir, DirIndex(vp));
    var r := Store(ram, table, TableIndex(vp), w);
    assert r[dir] == ram[dir];
    assert forall i: nat | i < ENTRIES :: Entry(r, dir, i) == Entry(ram, dir, i);
    forall vq: nat
      ensures Lookup(r, dir, vq) == Lookup(ram, dir, vq) ||
              (DirIndex(vq) == DirIndex(vp) && TableIndex(vq) == TableIndex(vp))
    {
      var i := DirIndex(vq);
      if i != DirIndex(vp) && HasTable(ram, dir, i) {
        assert TableOf(ram, dir, i) != table;
        assert r[TableOf(ram, dir, i)] == ram[TableOf(ram, dir, i)];
      }
    }
    forall vq: nat | vq < 0x10_0000 && vq != vp
      ensures Lookup(r, dir, vq) == Lookup(ram, dir, vq)
    {
      if DirIndex(vq) == DirIndex(vp) && TableIndex(vq) == TableIndex(vp) {
        SamePage(vp, vq);
      }
    }
  }

  /** The rights of a page under section 4.6 of the Intel SDM Vol. 3A, directory and table combined,
      are the rights in the entry that the mapping asked for. */
  lemma RightsAreRequested(ram: Ram, dir: nat, vp: nat)
    requires WfSpace(ram, dir) && vp < 0x10_0000 && Lookup(ram, dir, vp) != 0
    ensures var d, e := Entry(ram, dir, DirIndex(vp)), Lookup(ram, dir, vp);
            && (Writable(d) && Writable(e) <==> Writable(e))
            && (User(d) && User(e) <==> User(e))
  {
  }

  // ---- Any sequence of map and unmap ----

  /** paging_map_page and paging_unmap_page, which work on the current directory. */
  datatype MapOp = Map(vp: nat, frame: nat, flags: nat, spare: nat) | Unmap(vp: nat)

  function Apply(ram: Ram, dir: nat, op: MapOp): Access
    requires RamOk(ram) && dir < |ram|
  {
    match op
    case Map(vp, frame, flags, t) => MapThrough(ram, dir, dir, vp, frame, flags, t)
    case Unmap(vp) => UnmapThrough(ram, dir, dir, vp)
  }

  /** The plain map that paging refines: virtual page to (frame, flags) word. */
  function ApplyAbstract(m: map<nat, nat>, op: MapOp): map<nat, nat> {
    match op
    case Map(vp, frame, flags, _) => if Present(flags) then m[vp := Word(frame, flags)] else m - {vp}
    case Unmap(vp) => m - {vp}
  }

  ghost predicate Agrees(ram: Ram, dir: nat, m: map<nat, nat>) {
    forall vp: nat | vp < 0x10_0000 :: Lookup(ram, dir, vp) == if vp in m then m[vp] else 0
  }

  /** A spare frame is fresh when a table is missing, and the table's pointer leads to the table. */
  ghost predicate Applicable(ram: Ram, dir: nat, op: MapOp) {
    && WfSpace(ram, dir) && op.vp < 0x10_0000
    && (op.Map? ==> FreshFor(ram, dir, op.spare) && Reaches(ram, dir, TableFor(ram, dir, op.vp, op.spare)))
    && (op.Unmap? && HasTable(ram, dir, DirIndex(op.vp)) ==> Reaches(ram, dir, TableOf(ram, dir, DirIndex(op.vp))))
  }

  ghost predicate Runnable(ram: Ram, dir: nat, ops: seq<MapOp>)
    decreases |ops|
  {
    && WfSpace(ram, dir)
    && (ops == [] ||
        (&& Applicable(ram, dir, ops[0])
         && (var next := Apply(ram, dir, ops[0]); next.Went? ==> Runnable(next.ram, dir, ops[1..]))))
  }

  function RunMaps(ram: Ram, dir: nat, ops: seq<MapOp>): Access
    decreases |ops|
  {
    if ops == [] then Went(ram)
    else if !(dir < |ram|) || exists f | 0 <= f < |ram| :: |ram[f]| != ENTRIES then Fault
    else
      match Apply(ram, dir, ops[0])
      case Fault => Fault
      case Went(r) => RunMaps(r, dir, ops[1..])
  }

  function RunAbstract(m: map<nat, nat>, ops: seq<MapOp>): map<nat, nat>
    decreases |ops|
  {
    if ops == [] then m else RunAbstract(ApplyAbstract(m, ops[0]), ops[1..])
  }

  lemma ApplyRefines(ram: Ram, dir: nat, m: map<nat, nat>, op: MapOp)
    requires Applicable(ram, dir, op) && Agrees(ram, dir, m)
    ensures var a := Apply(ram, dir, op);
            a.Went? && WfSpace(a.ram, dir) && Agrees(a.ram, dir, ApplyAbstract(m, op))
  {
    match op {
      case Map(vp, frame, flags, t) =>
        ReachedHere(ram, dir, vp, flags, t);
        ThroughIsDirect(ram, dir, dir, vp, frame, flags, t);
        MapRefines(ram, dir, vp, frame, flags, t);
      case Unmap(vp) =>
        UnmapIsDirect(ram, dir, dir, vp, 0);
        UnmapRefines(ram, dir, vp);
    }
  }

  /** Over every run of map and unmap in which each table's pointer leads to the table, no access faults and the page
      walk computes the plain map. */
  lemma {:induction false} PagingRefinesMap(ram: Ram, dir: nat, m: map<nat, nat>, ops: seq<MapOp>)
    requires Runnable(ram, dir, ops) && Agrees(ram, dir, m)
    ensures var a := RunMaps(ram, dir, ops);
            a.Went? && WfSpace(a.ram, dir) && Agrees(a.ram, dir, RunAbstract(m, ops))
    decreases |ops|
  {
    hide Apply, ApplyAbstract, Agrees, Applicable;
    if ops != [] {
      ApplyRefines(ram, dir, m, ops[0]);
      PagingRefinesMap(Apply(ram, dir, ops[0]).ram, dir, ApplyAbstract(m, ops[0]), ops[1..]);
    }
  }
}
