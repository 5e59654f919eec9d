/** The bytes of heap memory and the block headers in them (kernel/src/kmalloc.c): where a header lies, what it
    reads as, and what each write of the list code does to it and to everything else. */
module HeapMemory {
  import opened Words
  import opened HeapModel

  type Byte = x: nat | x < 256

  /** Memory as bytes at their addresses; a byte that was never written reads as 0. */
  type Mem = map<nat, Byte>

  const BLOCK_MAGIC: nat := 0xDEAD_BEEF

  function Cell(m: Mem, a: nat): Byte {
    if a in m then m[a] else 0
  }

  /** The little-endian word at a, aligned or not. */
  function At(m: Mem, a: nat): (w: nat)
    ensures w < U32
  {
    Cell(m, a) + 0x100 * Cell(m, a + 1) + 0x1_0000 * Cell(m, a + 2) + 0x100_0000 * Cell(m, a + 3)
  }

  /** The four byte writes of a word store. */
  function Put(m: Mem, a: nat, v: nat): (r: Mem)
    ensures At(r, a) == Wrap(v)
    ensures forall x: nat | !(a <= x < a + 4) :: Cell(r, x) == Cell(m, x)
  {
    BytesOfWord(v);
    m[a := v % 0x100][a + 1 := v / 0x100 % 0x100][a + 2 := v / 0x1_0000 % 0x100][a + 3 := v / 0x100_0000 % 0x100]
  }

  lemma BytesOfWord(v: nat)
    ensures v % 0x100 + 0x100 * (v / 0x100 % 0x100) + 0x1_0000 * (v / 0x1_0000 % 0x100)
            + 0x100_0000 * (v / 0x100_0000 % 0x100) == Wrap(v)
  {
    OneMoreByte(v, 0x100);
    OneMoreByte(v, 0x1_0000);
    OneMoreByte(v, 0x100_0000);
  }

  lemma OneMoreByte(v: nat, k: nat)
    requires k == 0x100 || k == 0x1_0000 || k == 0x100_0000
    ensures v % (k * 0x100) == v % k + k * (v / k % 0x100)
  {
    var q, r := v / k, v % k;
    assert q == q / 0x100 * 0x100 + q % 0x100;
    if k == 0x100 {
      assert v == q / 0x100 * 0x1_0000 + 0x100 * (q % 0x100) + r;
    } else if k == 0x1_0000 {
      assert v == q / 0x100 * 0x100_0000 + 0x1_0000 * (q % 0x100) + r;
    } else {
      assert v == q / 0x100 * 0x1_0000_0000 + 0x100_0000 * (q % 0x100) + r;
    }
  }

  /** block_header_t: size at 0, the byte free at 4, next at 8, prev at 12, magic at 16; a next or prev of 0 is NULL. */
  datatype Header = Header(size: nat, free: bool, next: nat, prev: nat)

  function HeaderAt(m: Mem, a: nat): (h: Header)
    ensures h.size < U32 && h.next < U32 && h.prev < U32
  {
    Header(At(m, a), Cell(m, a + 4) != 0, At(m, a + 8), At(m, a + 12))
  }

  predicate HasMagic(m: Mem, a: nat) {
    At(m, a + 16) == BLOCK_MAGIC
  }

  /** The twenty bytes of a header at a. */
  predicate In(a: nat, x: nat) {
    a <= x < a + 20
  }

  /** Two headers that share no byte. */
  predicate Far(a: nat, b: nat) {
    a + 20 <= b || b + 20 <= a
  }

  /** Only bytes of the header at a differ. */
  ghost predicate Only(m: Mem, r: Mem, a: nat) {
    forall x: nat | !In(a, x) :: Cell(r, x) == Cell(m, x)
  }

  ghost predicate Same(m: Mem, r: Mem, a: nat) {
    HeaderAt(r, a) == HeaderAt(m, a) && HasMagic(r, a) == HasMagic(m, a)
  }

  lemma WordSame(m: Mem, r: Mem, a: nat)
    requires Cell(r, a) == Cell(m, a) && Cell(r, a + 1) == Cell(m, a + 1)
    requires Cell(r, a + 2) == Cell(m, a + 2) && Cell(r, a + 3) == Cell(m, a + 3)
    ensures At(r, a) == At(m, a)
  {
  }

  lemma HeaderSame(m: Mem, r: Mem, a: nat)
    requires forall x: nat | In(a, x) :: Cell(r, x) == Cell(m, x)
    ensures Same(m, r, a)
  {
    hide Cell, At;
    WordSame(m, r, a);
    WordSame(m, r, a + 8);
    WordSame(m, r, a + 12);
    WordSame(m, r, a + 16);
  }

  lemma FarSame(m: Mem, r: Mem, p: nat, a: nat)
    requires Only(m, r, p) && Far(a, p)
    ensures Same(m, r, a)
  {
    hide HeaderAt, HasMagic, Cell;
    HeaderSame(m, r, a);
  }

  // ---- Writes to one header ----

  lemma StoreReads(m: Mem, p: nat, k: nat, v: nat)
    requires k == 0 || k == 8 || k == 12 || k == 16
    ensures var r := Put(m, p + k, v);
            && Only(m, r, p) && At(r, p + k) == Wrap(v) && Cell(r, p + 4) == Cell(m, p + 4)
            && (k != 0 ==> At(r, p) == At(m, p)) && (k != 8 ==> At(r, p + 8) == At(m, p + 8))
            && (k != 12 ==> At(r, p + 12) == At(m, p + 12)) && (k != 16 ==> At(r, p + 16) == At(m, p + 16))
  {
    hide Put, Cell;
    var r := Put(m, p + k, v);
    if k != 0 {
      WordSame(m, r, p);
    }
    if k != 8 {
      WordSame(m, r, p + 8);
    }
    if k != 12 {
      WordSame(m, r, p + 12);
    }
    if k != 16 {
      WordSame(m, r, p + 16);
    }
  }

  function SetSize(m: Mem, p: nat, size: nat): (r: Mem)
    ensures HeaderAt(r, p) == HeaderAt(m, p).(size := Wrap(size))
    ensures HasMagic(r, p) == HasMagic(m, p) && Only(m, r, p)
  {
    StoreReads(m, p, 0, size);
    Put(m, p + 0, size)
  }

  function SetFree(m: Mem, p: nat, free: bool): (r: Mem)
    ensures HeaderAt(r, p) == HeaderAt(m, p).(free := free)
    ensures HasMagic(r, p) == HasMagic(m, p) && Only(m, r, p)
  {
    m[p + 4 := if free then 1 else 0]
  }

  function SetNext(m: Mem, p: nat, next: nat): (r: Mem)
    ensures HeaderAt(r, p) == HeaderAt(m, p).(next := Wrap(next))
    ensures HasMagic(r, p) == HasMagic(m, p) && Only(m, r, p)
  {
    StoreReads(m, p, 8, next);
    Put(m, p + 8, next)
  }

  function SetPrev(m: Mem, p: nat, prev: nat): (r: Mem)
    ensures HeaderAt(r, p) == HeaderAt(m, p).(prev := Wrap(prev))
    ensures HasMagic(r, p) == HasMagic(m, p) && Only(m, r, p)
  {
    StoreReads(m, p, 12, prev);
    Put(m, p + 12, prev)
  }

  function SetMagic(m: Mem, p: nat): (r: Mem)
    ensures HeaderAt(r, p) == HeaderAt(m, p) && HasMagic(r, p) && Only(m, r, p)
  {
    StoreReads(m, p, 16, BLOCK_MAGIC);
    Put(m, p + 16, BLOCK_MAGIC)
  }

  function PutHeader(m: Mem, p: nat, h: Header): (r: Mem)
    ensures HeaderAt(r, p) == Header(Wrap(h.size), h.free, Wrap(h.next), Wrap(h.prev))
    ensures HasMagic(r, p) && Only(m, r, p)
  {
    SetPrev(SetNext(SetMagic(SetFree(SetSize(m, p, h.size), p, h.free), p), p, h.next), p, h.prev)
  }

  /** p->prev = prev for a pointer that may be NULL. */
  function Relink(m: Mem, p: nat, prev: nat): (r: Mem)
    ensures p == 0 ==> r == m
    ensures p != 0 ==> HeaderAt(r, p) == HeaderAt(m, p).(prev := Wrap(prev)) && HasMagic(r, p) == HasMagic(m, p)
    ensures Only(m, r, p)
  {
    if p == 0 then m else SetPrev(m, p, prev)
  }

  // ---- The writes of the list code, on any memory ----

  /** split_block once the rest is known to be large enough. */
  function SplitWrites(m: Mem, p: nat, n: nat): Mem
    requires At(m, p) >= n + HEADER_SIZE
  {
    var h, rest := HeaderAt(m, p), p + HEADER_SIZE + n;
    var m1 := PutHeader(m, rest, Header(h.size - n - HEADER_SIZE, true, h.next, p));
    var m2 := Relink(m1, h.next, rest);
    SetSize(SetNext(m2, p, rest), p, n)
  }

  /** The writes by which block p absorbs the block at its next. */
  function JoinWrites(m: Mem, p: nat): Mem {
    var q := HeaderAt(m, p).next;
    var m1 := SetSize(m, p, HeaderAt(m, p).size + HEADER_SIZE + HeaderAt(m, q).size);
    var m2 := SetNext(m1, p, HeaderAt(m1, q).next);
    Relink(m2, HeaderAt(m2, p).next, p)
  }

  /** The first half of coalesce_blocks. */
  function MergeNextWrites(m: Mem, p: nat): Mem {
    var q := HeaderAt(m, p).next;
    if q != 0 && HeaderAt(m, q).free then JoinWrites(m, p) else m
  }

  /** The second half of coalesce_blocks: the block before p absorbs it. */
  function MergePrevWrites(m: Mem, p: nat): Mem {
    var q := HeaderAt(m, p).prev;
    if q != 0 && HeaderAt(m, q).free then
      var m1 := SetSize(m, q, HeaderAt(m, q).size + HEADER_SIZE + HeaderAt(m, p).size);
      var m2 := SetNext(m1, q, HeaderAt(m1, p).next);
      Relink(m2, HeaderAt(m2, p).next, q)
    else m
  }

  /** What kfree writes once it takes the block at p for a used one. */
  function FreeWrites(m: Mem, p: nat): Mem {
    MergePrevWrites(MergeNextWrites(SetFree(m, p, true), p), p)
  }

  // ---- The list ----

  ghost function NextOf(bs: seq<Block>, i: nat): nat {
    if i + 1 < |bs| then bs[i + 1].addr else 0
  }

  ghost function PrevOf(bs: seq<Block>, i: nat): nat {
    if 0 < i <= |bs| then bs[i - 1].addr else 0
  }

  ghost predicate Node(m: Mem, bs: seq<Block>, i: nat)
    requires i < |bs|
  {
    && HasMagic(m, bs[i].addr)
    && HeaderAt(m, bs[i].addr) == Header(bs[i].size, bs[i].free, NextOf(bs, i), PrevOf(bs, i))
  }

  /** The headers spell out the list bs, with prev inverting next. */
  ghost predicate Linked(m: Mem, head: nat, bs: seq<Block>) {
    && head == (if bs == [] then 0 else bs[0].addr)
    && forall i: nat | i < |bs| :: Node(m, bs, i)
  }

  ghost predicate Differ(bs: seq<Block>, i: nat, j: nat)
    requires i < |bs| && j < |bs|
  {
    i != j ==> Far(bs[i].addr, bs[j].addr)
  }

  ghost predicate Distinct(bs: seq<Block>) {
    && (forall i: nat | i < |bs| :: 0 < bs[i].addr < U32 && bs[i].size < U32)
    && (forall i: nat, j: nat | i < |bs| && j < |bs| :: Differ(bs, i, j))
  }

  /** x is in no header of the list. */
  ghost predicate Outside(bs: seq<Block>, x: nat) {
    forall i: nat | i < |bs| :: !In(bs[i].addr, x)
  }

  lemma TiledDistinct(bs: seq<Block>, lo: nat, hi: nat)
    requires Tiled(bs, lo, hi) && 0 < lo <= hi < U32
    ensures Distinct(bs)
    ensures forall i: nat | i < |bs| :: lo <= bs[i].addr < bs[i].End() <= hi
  {
    forall i: nat | i < |bs|
      ensures lo <= bs[i].addr < bs[i].End() <= hi
    {
      Bounds(bs, lo, hi, i);
    }
    forall i: nat, j: nat | i < |bs| && j < |bs|
      ensures Differ(bs, i, j)
    {
      if i != j {
        AddressOrder(bs, lo, hi, if i < j then i else j, if i < j then j else i);
      }
    }
  }

  lemma DistinctAppend(bs: seq<Block>, lo: nat, hi: nat, b: Block)
    requires Tiled(bs, lo, hi) && 0 < lo <= hi < U32 && b.addr == hi && b.size < U32
    ensures Distinct(bs + [b])
  {
    TiledDistinct(bs, lo, hi);
    var s := bs + [b];
    forall i: nat, j: nat | i < |s| && j < |s|
      ensures Differ(s, i, j)
    {
      if i < |bs| && j < |bs| {
        assert Differ(bs, i, j);
      }
    }
  }

  /** A node whose header reads as before, with the same neighbours, is a node of the new list. */
  lemma SameNode(m: Mem, r: Mem, bs: seq<Block>, s: seq<Block>, i: nat, k: nat)
    requires i < |bs| && k < |s| && Node(m, bs, i) && Same(m, r, bs[i].addr)
    requires s[k] == bs[i] && NextOf(s, k) == NextOf(bs, i) && PrevOf(s, k) == PrevOf(bs, i)
    ensures Node(r, s, k)
  {
  }

  // ---- Splitting ----

  /** Headers far from the three that a split touches read as before. */
  lemma SplitSame(m: Mem, p: nat, n: nat, a: nat)
    requires At(m, p) >= n + HEADER_SIZE && p + HEADER_SIZE + n < U32 && Far(a, p) && Far(a, p + HEADER_SIZE + n)
    requires HeaderAt(m, p).next != 0 ==> Far(a, HeaderAt(m, p).next)
    ensures Same(m, SplitWrites(m, p, n), a)
  {
    hide PutHeader, Relink, SetSize, SetNext, HeaderAt, HasMagic, At, Cell;
    var h, rest := HeaderAt(m, p), p + HEADER_SIZE + n;
    SizeField(m, p);
    var m1 := PutHeader(m, rest, Header(h.size - n - HEADER_SIZE, true, h.next, p));
    var m2 := Relink(m1, h.next, rest);
    var m3 := SetNext(m2, p, rest);
    FarSame(m, m1, rest, a);
    if h.next != 0 {
      FarSame(m1, m2, h.next, a);
    }
    FarSame(m2, m3, p, a);
    FarSame(m3, SetSize(m3, p, n), p, a);
  }

  lemma SizeField(m: Mem, p: nat)
    ensures HeaderAt(m, p).size == At(m, p)
  {
  }

  /** What a split leaves in the three headers it touches, and that it touches no other word. */
  lemma SplitReads(m: Mem, p: nat, n: nat)
    requires At(m, p) >= n + HEADER_SIZE && p + HEADER_SIZE + n < U32
    requires var q := HeaderAt(m, p).next; q != 0 ==> Far(q, p) && Far(q, p + HEADER_SIZE + n)
    ensures var (r, h, rest) := (SplitWrites(m, p, n), HeaderAt(m, p), p + HEADER_SIZE + n);
            && HeaderAt(r, p) == h.(size := n, next := rest) && HasMagic(r, p) == HasMagic(m, p)
            && h.size >= n + HEADER_SIZE && HasMagic(r, rest)
            && HeaderAt(r, rest) == Header(h.size - n - HEADER_SIZE, true, h.next, p)
            && (h.next != 0 ==> HeaderAt(r, h.next) == HeaderAt(m, h.next).(prev := rest))
            && (h.next != 0 ==> HasMagic(r, h.next) == HasMagic(m, h.next))
            && (forall x: nat | !In(p, x) && !In(rest, x) && (h.next != 0 ==> !In(h.next, x)) ::
                  Cell(r, x) == Cell(m, x))
  {
    hide PutHeader, Relink, SetSize, SetNext, HeaderAt, HasMagic, At, Cell;
    var h, rest := HeaderAt(m, p), p + HEADER_SIZE + n;
    SizeField(m, p);
    var m1 := PutHeader(m, rest, Header(h.size - n - HEADER_SIZE, true, h.next, p));
    var m2 := Relink(m1, h.next, rest);
    var m3 := SetNext(m2, p, rest);
    var m4 := SetSize(m3, p, n);
    FarSame(m, m1, rest, p);
    if h.next != 0 {
      FarSame(m1, m2, h.next, p);
      FarSame(m1, m2, h.next, rest);
      FarSame(m, m1, rest, h.next);
      FarSame(m2, m3, p, h.next);
      FarSame(m3, m4, p, h.next);
    }
    FarSame(m2, m3, p, rest);
    FarSame(m3, m4, p, rest);
  }

  lemma SplitLinked(m: Mem, head: nat, bs: seq<Block>, i: nat, n: nat)
    requires Linked(m, head, bs) && Distinct(bs) && i < |bs| && bs[i].size >= n + HEADER_SIZE
             && bs[i].addr + HEADER_SIZE + n < U32
    requires forall k: nat | k < |bs| :: Far(bs[k].addr, bs[i].addr + HEADER_SIZE + n)
    ensures Node(m, bs, i) && At(m, bs[i].addr) == bs[i].size
    ensures Linked(SplitWrites(m, bs[i].addr, n), head, Split(bs, i, n))
    ensures forall x: nat | Outside(Split(bs, i, n), x) :: Cell(SplitWrites(m, bs[i].addr, n), x) == Cell(m, x)
  {
    hide HeaderAt, HasMagic, Far, At, Cell;
    assert Node(m, bs, i);
    var p := bs[i].addr;
    SizeField(m, p);
    var r, s := SplitWrites(m, p, n), Split(bs, i, n);
    assert i + 1 < |bs| ==> Node(m, bs, i + 1) && Differ(bs, i + 1, i);
    SplitReads(m, p, n);
    hide SplitWrites;
    assert s[i].addr == p && s[i + 1].addr == p + HEADER_SIZE + n && (i + 1 < |bs| ==> s[i + 2] == bs[i + 1]);
    forall k: nat | k < |s|
      ensures Node(r, s, k)
    {
      SplitNode(m, bs, i, n, r, s, k);
    }
    forall x: nat | Outside(s, x)
      ensures Cell(r, x) == Cell(m, x)
    {
      assert !In(s[i].addr, x) && !In(s[i + 1].addr, x) && (i + 1 < |bs| ==> !In(s[i + 2].addr, x));
    }
  }

  lemma SplitNode(m: Mem, bs: seq<Block>, i: nat, n: nat, r: Mem, s: seq<Block>, k: nat)
    requires (forall j: nat | j < |bs| :: Node(m, bs, j)) && Distinct(bs) && i < |bs| && bs[i].size >= n + HEADER_SIZE
             && bs[i].addr + HEADER_SIZE + n < U32
    requires forall j: nat | j < |bs| :: Far(bs[j].addr, bs[i].addr + HEADER_SIZE + n)
    requires At(m, bs[i].addr) == bs[i].size && r == SplitWrites(m, bs[i].addr, n) && s == Split(bs, i, n) && k < |s|
    requires HasMagic(r, bs[i].addr) && HasMagic(r, bs[i].addr + HEADER_SIZE + n)
    requires HeaderAt(r, bs[i].addr) == HeaderAt(m, bs[i].addr).(size := n, next := bs[i].addr + HEADER_SIZE + n)
    requires HeaderAt(r, bs[i].addr + HEADER_SIZE + n)
             == Header(bs[i].size - n - HEADER_SIZE, true, NextOf(bs, i), bs[i].addr)
    requires i + 1 < |bs| ==>
               && HeaderAt(r, bs[i + 1].addr) == HeaderAt(m, bs[i + 1].addr).(prev := bs[i].addr + HEADER_SIZE + n)
               && HasMagic(r, bs[i + 1].addr)
    ensures Node(r, s, k)
  {
    hide HeaderAt, HasMagic, Far, SplitWrites;
    assert Node(m, bs, i);
    if k < i {
      assert Node(m, bs, k) && Differ(bs, k, i) && (i + 1 < |bs| ==> Differ(bs, k, i + 1));
      SplitSame(m, bs[i].addr, n, bs[k].addr);
      SameNode(m, r, bs, s, k, k);
    } else if k == i {
      assert PrevOf(s, k) == PrevOf(bs, k) && s[k + 1].addr == bs[i].addr + HEADER_SIZE + n;
    } else if k == i + 1 {
      assert i + 1 < |bs| ==> s[k + 1] == bs[i + 1];
    } else if k == i + 2 {
      assert Node(m, bs, i + 1) && s[k] == bs[i + 1] && (k + 1 < |s| ==> s[k + 1] == bs[i + 2]);
    } else {
      assert Node(m, bs, k - 1) && Differ(bs, k - 1, i) && Differ(bs, k - 1, i + 1);
      SplitSame(m, bs[i].addr, n, bs[k - 1].addr);
      assert s[k] == bs[k - 1] && s[k - 1] == bs[k - 2] && (k + 1 < |s| ==> s[k + 1] == bs[k]);
      SameNode(m, r, bs, s, k - 1, k);
    }
  }

  // ---- Joining ----

  /** What a join leaves in the two headers it touches, and that it touches no other byte. */
  lemma JoinReads(m: Mem, p: nat, q: nat, t: nat)
    requires q == HeaderAt(m, p).next && Far(q, p) && t == HeaderAt(m, q).next && (t != 0 ==> Far(t, p)) && p < U32
    requires HeaderAt(m, p).size + HEADER_SIZE + HeaderAt(m, q).size < U32
    ensures var (r, h) := (JoinWrites(m, p), HeaderAt(m, p));
            && HeaderAt(r, p) == h.(size := h.size + HEADER_SIZE + HeaderAt(m, q).size, next := t)
            && HasMagic(r, p) == HasMagic(m, p)
            && (t != 0 ==> HeaderAt(r, t) == HeaderAt(m, t).(prev := p) && HasMagic(r, t) == HasMagic(m, t))
            && (forall x: nat | !In(p, x) && (t != 0 ==> !In(t, x)) :: Cell(r, x) == Cell(m, x))
  {
    hide Relink, SetSize, SetNext, HeaderAt, HasMagic, At, Cell;
    var m1 := SetSize(m, p, HeaderAt(m, p).size + HEADER_SIZE + HeaderAt(m, q).size);
    FarSame(m, m1, p, q);
    var m2 := SetNext(m1, p, t);
    if t != 0 {
      FarSame(m, m1, p, t);
      FarSame(m1, m2, p, t);
      FarSame(m2, Relink(m2, t, p), t, p);
    }
  }

  /** Headers far from the two that a join touches read as before. */
  lemma JoinSame(m: Mem, r: Mem, p: nat, t: nat, a: nat)
    requires forall x: nat | !In(p, x) && (t != 0 ==> !In(t, x)) :: Cell(r, x) == Cell(m, x)
    requires Far(a, p) && (t != 0 ==> Far(a, t))
    ensures Same(m, r, a)
  {
    hide HeaderAt, HasMagic, At, Cell;
    HeaderSame(m, r, a);
  }

  lemma JoinLinked(m: Mem, head: nat, bs: seq<Block>, i: nat)
    requires Linked(m, head, bs) && Distinct(bs) && i + 1 < |bs|
    requires bs[i].size + HEADER_SIZE + bs[i + 1].size < U32
    ensures Linked(JoinWrites(m, bs[i].addr), head, Join(bs, i))
    ensures forall x: nat | Outside(Join(bs, i), x) :: Cell(JoinWrites(m, bs[i].addr), x) == Cell(m, x)
  {
    hide HeaderAt, HasMagic, Far, At, Cell;
    assert Node(m, bs, i) && Node(m, bs, i + 1) && Differ(bs, i + 1, i);
    assert i + 2 < |bs| ==> Node(m, bs, i + 2) && Differ(bs, i + 2, i);
    var p, t, r, s := bs[i].addr, NextOf(bs, i + 1), JoinWrites(m, bs[i].addr), Join(bs, i);
    JoinReads(m, p, bs[i + 1].addr, t);
    hide JoinWrites;
    assert s[i].addr == p && (i + 2 < |bs| ==> s[i + 1] == bs[i + 2]);
    forall k: nat | k < |s|
      ensures Node(r, s, k)
    {
      JoinNode(m, bs, i, r, s, k);
    }
    forall x: nat | Outside(s, x)
      ensures Cell(r, x) == Cell(m, x)
    {
      assert !In(s[i].addr, x) && (i + 2 < |bs| ==> !In(s[i + 1].addr, x));
    }
  }

  lemma JoinNode(m: Mem, bs: seq<Block>, i: nat, r: Mem, s: seq<Block>, k: nat)
    requires (forall j: nat | j < |bs| :: Node(m, bs, j)) && Distinct(bs) && i + 1 < |bs|
    requires s == Join(bs, i) && k < |s| && HasMagic(r, bs[i].addr)
    requires HeaderAt(r, bs[i].addr)
             == Header(bs[i].size + HEADER_SIZE + bs[i + 1].size, bs[i].free, NextOf(bs, i + 1), PrevOf(bs, i))
    requires var t := NextOf(bs, i + 1);
             && (forall x: nat | !In(bs[i].addr, x) && (t != 0 ==> !In(t, x)) :: Cell(r, x) == Cell(m, x))
             && (t != 0 ==> HeaderAt(r, t) == HeaderAt(m, t).(prev := bs[i].addr) && HasMagic(r, t) == HasMagic(m, t))
    ensures Node(r, s, k)
  {
    hide HeaderAt, HasMagic, Far, At, Cell;
    var t := NextOf(bs, i + 1);
    if k < i {
      assert Node(m, bs, k) && Differ(bs, k, i) && (i + 2 < |bs| ==> Differ(bs, k, i + 2));
      JoinSame(m, r, bs[i].addr, t, bs[k].addr);
      SameNode(m, r, bs, s, k, k);
    } else if k == i {
      assert NextOf(s, k) == t && PrevOf(s, k) == PrevOf(bs, k);
    } else if k == i + 1 {
      assert Node(m, bs, k + 1) && s[k] == bs[k + 1] && s[k - 1].addr == bs[i].addr;
      assert k + 1 < |s| ==> s[k + 1] == bs[k + 2];
    } else {
      assert Node(m, bs, k + 1) && Differ(bs, k + 1, i) && Differ(bs, k + 1, i + 2);
      JoinSame(m, r, bs[i].addr, t, bs[k + 1].addr);
      assert s[k] == bs[k + 1] && s[k - 1] == bs[k] && (k + 1 < |s| ==> s[k + 1] == bs[k + 2]);
      SameNode(m, r, bs, s, k + 1, k);
    }
  }

  /** The second half of coalesce_blocks is the previous block absorbing p. */
  lemma PrevJoins(m: Mem, p: nat, q: nat)
    requires q == HeaderAt(m, p).prev && HeaderAt(m, q).next == p && Far(p, q) && q != 0 && HeaderAt(m, q).free
    ensures MergePrevWrites(m, p) == JoinWrites(m, q)
  {
    hide Relink, SetSize, SetNext, HeaderAt, HasMagic, At, Cell;
    var m1 := SetSize(m, q, HeaderAt(m, q).size + HEADER_SIZE + HeaderAt(m, p).size);
    var m2 := SetNext(m1, q, HeaderAt(m1, p).next);
    FarSame(m1, m2, q, p);
  }

  // ---- Marking and appending ----

  lemma MarkLinked(m: Mem, head: nat, bs: seq<Block>, i: nat, f: bool)
    requires Linked(m, head, bs) && Distinct(bs) && i < |bs|
    ensures Linked(SetFree(m, bs[i].addr, f), head, bs[i := bs[i].(free := f)])
  {
    hide SetFree, HeaderAt, HasMagic, Far, At, Cell;
    var r, s := SetFree(m, bs[i].addr, f), bs[i := bs[i].(free := f)];
    forall k: nat | k < |s|
      ensures Node(r, s, k)
    {
      assert Node(m, bs, k) && Differ(bs, k, i);
      assert NextOf(s, k) == NextOf(bs, k) && PrevOf(s, k) == PrevOf(bs, k);
      if k != i {
        FarSame(m, r, bs[i].addr, bs[k].addr);
      }
    }
  }

  /** The writes that put a new last block of n bytes behind p. */
  function AppendWrites(m: Mem, p: nat, a: nat, n: nat): Mem {
    SetPrev(SetNext(PutHeader(m, a, Header(n, false, 0, 0)), p, a), a, p)
  }

  lemma AppendReads(m: Mem, p: nat, a: nat, n: nat)
    requires Far(p, a) && p < U32 && a < U32 && n < U32
    ensures var r := AppendWrites(m, p, a, n);
            && HeaderAt(r, a) == Header(n, false, 0, p) && HasMagic(r, a)
            && HeaderAt(r, p) == HeaderAt(m, p).(next := a) && HasMagic(r, p) == HasMagic(m, p)
            && (forall x: nat | !In(a, x) && !In(p, x) :: Cell(r, x) == Cell(m, x))
  {
    hide PutHeader, SetPrev, SetNext, HeaderAt, HasMagic, At, Cell;
    var m1 := PutHeader(m, a, Header(n, false, 0, 0));
    var m2 := SetNext(m1, p, a);
    FarSame(m, m1, a, p);
    FarSame(m1, m2, p, a);
    FarSame(m2, SetPrev(m2, a, p), a, p);
  }

  lemma AppendLinked(m: Mem, head: nat, bs: seq<Block>, b: Block)
    requires Linked(m, head, bs) && Distinct(bs + [b]) && bs != [] && !b.free
    ensures var p := bs[|bs| - 1].addr;
            && Linked(AppendWrites(m, p, b.addr, b.size), head, bs + [b])
            && forall x: nat | Outside(bs + [b], x) :: Cell(AppendWrites(m, p, b.addr, b.size), x) == Cell(m, x)
  {
    hide HeaderAt, HasMagic, Far, At, Cell;
    var n, s := |bs|, bs + [b];
    var p := bs[n - 1].addr;
    var r := AppendWrites(m, p, b.addr, b.size);
    assert s[n] == b && s[n - 1] == bs[n - 1] && Differ(s, n - 1, n);
    AppendReads(m, p, b.addr, b.size);
    hide AppendWrites;
    forall k: nat | k < |s|
      ensures Node(r, s, k)
    {
      if k < n - 1 {
        assert Node(m, bs, k) && Differ(s, k, n) && Differ(s, k, n - 1);
        JoinSame(m, r, p, b.addr, bs[k].addr);
        SameNode(m, r, bs, s, k, k);
      } else if k == n - 1 {
        assert Node(m, bs, k) && PrevOf(s, k) == PrevOf(bs, k);
      }
    }
    forall x: nat | Outside(s, x)
      ensures Cell(r, x) == Cell(m, x)
    {
      assert !In(s[n].addr, x) && !In(s[n - 1].addr, x);
    }
  }

  // ---- Releasing a block ----

  /** A header that kfree takes for a block already free. */
  ghost predicate ReadsFree(m: Mem, a: nat) {
    HasMagic(m, a) && HeaderAt(m, a).free
  }

  /** A join takes no header out of the list but the absorbed one. */
  lemma JoinOutside(bs: seq<Block>, i: nat, x: nat)
    requires i + 1 < |bs| && Outside(Join(bs, i), x) && !In(bs[i + 1].addr, x)
    ensures Outside(bs, x)
  {
    var s := Join(bs, i);
    forall k: nat | k < |bs|
      ensures !In(bs[k].addr, x)
    {
      assert k != i + 1 ==> bs[k].addr == s[if k <= i then k else k - 1].addr;
    }
  }

  lemma JoinedLinked(m: Mem, head: nat, bs: seq<Block>, lo: nat, hi: nat, i: nat)
    requires Linked(m, head, bs) && Tiled(bs, lo, hi) && 0 < lo <= hi < U32 && i + 1 < |bs|
    ensures Linked(JoinWrites(m, bs[i].addr), head, Join(bs, i))
    ensures forall x: nat | Outside(Join(bs, i), x) :: Cell(JoinWrites(m, bs[i].addr), x) == Cell(m, x)
  {
    hide JoinWrites, Linked, Join, Cell, Distinct;
    TiledDistinct(bs, lo, hi);
    assert bs[i + 1].addr == bs[i].End();
    JoinLinked(m, head, bs, i);
  }

  lemma MergeNextLinked(m: Mem, head: nat, bs: seq<Block>, lo: nat, hi: nat, i: nat)
    requires Linked(m, head, bs) && Tiled(bs, lo, hi) && 0 < lo <= hi < U32 && i < |bs|
    ensures var r := MergeNextWrites(m, bs[i].addr);
            && Linked(r, head, MergeNext(bs, i))
            && forall x: nat | Outside(MergeNext(bs, i), x) :: Cell(r, x) == Cell(m, x)
  {
    hide JoinWrites, HeaderAt, HasMagic, Cell, Tiled;
    TiledDistinct(bs, lo, hi);
    assert Node(m, bs, i) && (i + 1 < |bs| ==> Node(m, bs, i + 1));
    hide Linked;
    if i + 1 < |bs| {
      JoinedLinked(m, head, bs, lo, hi, i);
    }
  }

  lemma MergePrevLinked(m: Mem, head: nat, bs: seq<Block>, lo: nat, hi: nat, i: nat)
    requires Linked(m, head, bs) && Tiled(bs, lo, hi) && 0 < lo <= hi < U32 && i < |bs| && bs[i].free
    ensures var r := MergePrevWrites(m, bs[i].addr);
            && Linked(r, head, MergePrev(bs, i)) && ReadsFree(r, bs[i].addr)
            && forall x: nat | Outside(MergePrev(bs, i), x) :: Cell(r, x) == Cell(m, x)
  {
    hide MergePrevWrites, JoinWrites, HeaderAt, HasMagic, Cell, Tiled, Far;
    TiledDistinct(bs, lo, hi);
    assert Node(m, bs, i) && (i > 0 ==> Node(m, bs, i - 1) && Differ(bs, i, i - 1));
    hide Linked, Distinct;
    if i > 0 && bs[i - 1].free {
      PrevJoins(m, bs[i].addr, bs[i - 1].addr);
      JoinedLinked(m, head, bs, lo, hi, i - 1);
      JoinKeepsFree(m, head, bs, lo, hi, i - 1);
    } else {
      NoPrevMerge(m, bs[i].addr);
    }
  }

  lemma NoPrevMerge(m: Mem, p: nat)
    requires HeaderAt(m, p).prev == 0 || !HeaderAt(m, HeaderAt(m, p).prev).free
    ensures MergePrevWrites(m, p) == m
  {
  }

  /** The header of an absorbed block stays behind as it was. */
  lemma JoinKeepsFree(m: Mem, head: nat, bs: seq<Block>, lo: nat, hi: nat, i: nat)
    requires Linked(m, head, bs) && Tiled(bs, lo, hi) && 0 < lo <= hi < U32 && i + 1 < |bs| && bs[i + 1].free
    ensures ReadsFree(JoinWrites(m, bs[i].addr), bs[i + 1].addr)
  {
    hide JoinWrites, HeaderAt, HasMagic, Cell, Far;
    TiledDistinct(bs, lo, hi);
    assert bs[i + 1].addr == bs[i].End();
    hide Tiled;
    assert Node(m, bs, i) && Node(m, bs, i + 1) && Differ(bs, i + 1, i);
    assert i + 2 < |bs| ==> Node(m, bs, i + 2) && Differ(bs, i + 2, i) && Differ(bs, i + 1, i + 2);
    JoinReads(m, bs[i].addr, bs[i + 1].addr, NextOf(bs, i + 1));
    JoinSame(m, JoinWrites(m, bs[i].addr), bs[i].addr, NextOf(bs, i + 1), bs[i + 1].addr);
  }

  /** The writes of kfree on a block of the list mark and coalesce it, leave its header reading "free", and touch
      nothing but that header and the headers of the new list. */
  lemma FreeLinked(m: Mem, head: nat, bs: seq<Block>, lo: nat, hi: nat, i: nat)
    requires Linked(m, head, bs) && Tiled(bs, lo, hi) && Sized(bs) && 0 < lo <= hi < U32 && i < |bs|
    ensures var r := FreeWrites(m, bs[i].addr);
            && Linked(r, head, Freed(bs, i)) && ReadsFree(r, bs[i].addr)
            && forall x: nat | !In(bs[i].addr, x) && Outside(Freed(bs, i), x) :: Cell(r, x) == Cell(m, x)
  {
    hide SetFree, MergeNextWrites, MergePrevWrites, Linked, Tiled, Sized, Distinct, Cell, HeaderAt, MergeNext,
         MergePrev;
    hide ReadsFree;
    TiledDistinct(bs, lo, hi);
    MarkLinked(m, head, bs, i, true);
    MarkKeeps(bs, lo, hi, i, true);
    var a, m1 := bs[i := bs[i].(free := true)], SetFree(m, bs[i].addr, true);
    MergeNextLinked(m1, head, a, lo, hi, i);
    MergeNextKeeps(a, lo, hi, i);
    var b, m2 := MergeNext(a, i), MergeNextWrites(m1, a[i].addr);
    MergePrevLinked(m2, head, b, lo, hi, i);
    forall x: nat | !In(bs[i].addr, x) && Outside(Freed(bs, i), x)
      ensures Cell(FreeWrites(m, bs[i].addr), x) == Cell(m, x)
    {
      MergePrevOutside(b, i, x);
    }
  }

  lemma MarkOutside(bs: seq<Block>, i: nat, f: bool, x: nat)
    requires i < |bs| && Outside(bs[i := bs[i].(free := f)], x)
    ensures Outside(bs, x) && !In(bs[i].addr, x)
  {
    var s := bs[i := bs[i].(free := f)];
    forall k: nat | k < |bs|
      ensures !In(bs[k].addr, x)
    {
      assert s[k].addr == bs[k].addr;
    }
  }

  lemma MergePrevOutside(bs: seq<Block>, i: nat, x: nat)
    requires i < |bs| && Outside(MergePrev(bs, i), x) && !In(bs[i].addr, x)
    ensures Outside(bs, x)
  {
    hide Outside, Join;
    if i > 0 && bs[i - 1].free {
      JoinOutside(bs, i - 1, x);
    }
  }

  lemma MergeNextKeeps(bs: seq<Block>, lo: nat, hi: nat, i: nat)
    requires Tiled(bs, lo, hi) && Sized(bs) && i < |bs|
    ensures Tiled(MergeNext(bs, i), lo, hi) && Sized(MergeNext(bs, i))
  {
    hide Tiled, Sized, Join;
    if i + 1 < |bs| {
      JoinKeeps(bs, lo, hi, i);
    }
  }

  /** No header of the list lies in a payload. */
  lemma PayloadOutside(bs: seq<Block>, lo: nat, hi: nat, b: Block, x: nat)
    requires Tiled(bs, lo, hi) && b in bs && b.Payload() <= x < b.End()
    ensures Outside(bs, x)
  {
    var i :| 0 <= i < |bs| && bs[i] == b;
    forall k: nat | k < |bs|
      ensures !In(bs[k].addr, x)
    {
      if k < i {
        AddressOrder(bs, lo, hi, k, i);
      } else if i < k {
        AddressOrder(bs, lo, hi, i, k);
      }
    }
  }

  /** Writing where no header lies leaves the list as it is. */
  lemma WriteLinked(m: Mem, head: nat, bs: seq<Block>, x: nat, v: Byte)
    requires Linked(m, head, bs) && Outside(bs, x)
    ensures Linked(m[x := v], head, bs)
  {
    hide HeaderAt, HasMagic;
    var r := m[x := v];
    forall i: nat | i < |bs|
      ensures Node(r, bs, i)
    {
      assert Node(m, bs, i) && !In(bs[i].addr, x);
      HeaderSame(m, r, bs[i].addr);
    }
  }
}
