/** The kernel heap as a value: a list of blocks in address order, and what kmalloc and kfree do to it
    (kernel/src/kmalloc.c). The linked headers that realise it are in kmalloc.dfy. */
module HeapModel {
  import opened Words

  const HEADER_SIZE: nat := 24
  const MIN_BLOCK_SIZE: nat := 16
  const HEAP_BYTES: nat := 8 * 1024 * 1024

  /** The largest request whose header-plus-payload still fits the int that kbrk takes. */
  const MAX_REQUEST: nat := 0x7FFF_FFE0

  datatype Block = Block(addr: nat, size: nat, free: bool)
  {
    function End(): nat { addr + HEADER_SIZE + size }
    function Payload(): nat { addr + HEADER_SIZE }
  }

  datatype Heap = Heap(start: nat, end: nat, max: nat, blocks: seq<Block>)

  /** Consecutive blocks touch, the first starts at lo and the last ends at hi. */
  ghost predicate Tiled(bs: seq<Block>, lo: nat, hi: nat) {
    && (bs == [] ==> lo == hi)
    && (bs != [] ==> bs[0].addr == lo && bs[|bs| - 1].End() == hi)
    && forall i, j | 0 <= i && j == i + 1 && j < |bs| :: bs[j].addr == bs[i].End()
  }

  ghost predicate Sized(bs: seq<Block>) {
    forall i | 0 <= i < |bs| :: bs[i].size % 8 == 0 && bs[i].size >= MIN_BLOCK_SIZE
  }

  ghost predicate NoTwoFree(bs: seq<Block>) {
    forall i, j | 0 <= i && j == i + 1 && j < |bs| :: !(bs[i].free && bs[j].free)
  }

  /** What every run keeps. */
  ghost predicate Inv(h: Heap) {
    && 0 < h.start && h.start % 8 == 0 && h.end <= h.max && h.max == h.start + HEAP_BYTES
    && h.max <= 0x7000_0000
    && Tiled(h.blocks, h.start, h.end) && Sized(h.blocks) && NoTwoFree(h.blocks)
  }

  /** The addresses handed out and not yet freed. */
  ghost function Payloads(bs: seq<Block>): set<nat> {
    set b | b in LiveBlocks(bs) :: b.Payload()
  }

  ghost function LiveBlocks(bs: seq<Block>): set<Block> {
    set b | b in bs && !b.free
  }

  /** ALIGN and the minimum, in 32 bits. */
  function Rounded(size: nat): nat {
    var n := Wrap(size + 7) / 8 * 8;
    if n < MIN_BLOCK_SIZE then MIN_BLOCK_SIZE else n
  }

  /** Index of the first free block of at least n bytes, or the length of the list. */
  function FirstFit(bs: seq<Block>, n: nat): (i: nat)
    ensures i <= |bs|
    ensures i < |bs| ==> bs[i].free && bs[i].size >= n
    ensures forall k | 0 <= k < i :: !(bs[k].free && bs[k].size >= n)
  {
    if bs == [] then 0
    else if bs[0].free && bs[0].size >= n then 0
    else 1 + FirstFit(bs[1..], n)
  }

  /** Cuts block i after n bytes; the rest becomes a free block. */
  function Split(bs: seq<Block>, i: nat, n: nat): seq<Block>
    requires i < |bs| && bs[i].size >= n + HEADER_SIZE
  {
    bs[..i]
    + [bs[i].(size := n), Block(bs[i].addr + HEADER_SIZE + n, bs[i].size - n - HEADER_SIZE, true)]
    + bs[i + 1..]
  }

  /** Block i absorbs block i + 1. */
  function Join(bs: seq<Block>, i: nat): seq<Block>
    requires i + 1 < |bs|
  {
    bs[..i] + [bs[i].(size := bs[i].size + HEADER_SIZE + bs[i + 1].size)] + bs[i + 2..]
  }

  function Carve(bs: seq<Block>, i: nat, n: nat): seq<Block>
    requires i < |bs| && bs[i].size >= n
  {
    var cut := if bs[i].size >= n + HEADER_SIZE + MIN_BLOCK_SIZE then Split(bs, i, n) else bs;
    cut[i := cut[i].(free := false)]
  }

  function MergeNext(bs: seq<Block>, i: nat): (r: seq<Block>)
    requires i < |bs|
    ensures i < |r| && r[i].addr == bs[i].addr && r[i].free == bs[i].free
  {
    if i + 1 < |bs| && bs[i + 1].free then Join(bs, i) else bs
  }

  function MergePrev(bs: seq<Block>, i: nat): seq<Block>
    requires i < |bs|
  {
    if i > 0 && bs[i - 1].free then Join(bs, i - 1) else bs
  }

  function Freed(bs: seq<Block>, i: nat): seq<Block>
    requires i < |bs|
  {
    MergePrev(MergeNext(bs[i := bs[i].(free := true)], i), i)
  }

  function Alloc(h: Heap, size: nat): (Heap, nat) {
    if size == 0 then (h, 0) else AllocRounded(h, Rounded(size))
  }

  /** kmalloc once the size is rounded: the new heap and the payload address, or 0 for NULL. */
  function AllocRounded(h: Heap, n: nat): (Heap, nat) {
    var i := FirstFit(h.blocks, n);
    if i < |h.blocks| then
      (h.(blocks := Carve(h.blocks, i, n)), h.blocks[i].Payload())
    else if h.end + HEADER_SIZE + n > h.max then
      (h, 0)
    else
      (h.(blocks := h.blocks + [Block(h.end, n, false)], end := h.end + HEADER_SIZE + n), h.end + HEADER_SIZE)
  }

  /** Index of the live block whose payload starts at ptr, or the length of the list. */
  function FindLive(bs: seq<Block>, ptr: nat): (i: nat)
    ensures i <= |bs|
    ensures i < |bs| ==> !bs[i].free && bs[i].Payload() == ptr
    ensures forall k | 0 <= k < i :: bs[k].free || bs[k].Payload() != ptr
  {
    if bs == [] then 0
    else if !bs[0].free && bs[0].Payload() == ptr then 0
    else 1 + FindLive(bs[1..], ptr)
  }

  /** kfree of a live payload; NULL changes nothing, and neither does a pointer whose header reads "free". What the
      code does with any other pointer is told by KernelHeap.Kfree. */
  function Free(h: Heap, ptr: nat): Heap {
    var i := FindLive(h.blocks, ptr);
    if i < |h.blocks| then h.(blocks := Freed(h.blocks, i)) else h
  }

  // ---- Order and disjointness ----

  /** List order is address order, and no two blocks overlap. */
  lemma {:induction false} AddressOrder(bs: seq<Block>, lo: nat, hi: nat, i: nat, j: nat)
    requires Tiled(bs, lo, hi) && i < j < |bs|
    ensures bs[i].End() <= bs[j].addr
    decreases j
  {
    if i + 1 < j {
      AddressOrder(bs, lo, hi, i, j - 1);
      assert bs[j].addr == bs[j - 1].End();
    }
  }

  lemma {:induction false} Bounds(bs: seq<Block>, lo: nat, hi: nat, i: nat)
    requires Tiled(bs, lo, hi) && i < |bs|
    ensures lo <= bs[i].addr && bs[i].End() <= hi
  {
    if i > 0 {
      AddressOrder(bs, lo, hi, 0, i);
    }
    if i < |bs| - 1 {
      AddressOrder(bs, lo, hi, i, |bs| - 1);
    }
  }

  lemma {:induction false} Aligned(bs: seq<Block>, lo: nat, hi: nat, i: nat)
    requires Tiled(bs, lo, hi) && Sized(bs) && lo % 8 == 0 && i < |bs|
    ensures bs[i].addr % 8 == 0 && bs[i].End() % 8 == 0
  {
    if i > 0 {
      Aligned(bs, lo, hi, i - 1);
      assert bs[i].addr == bs[i - 1].End();
    }
    EndAligned(bs[i].addr, bs[i].size);
  }

  lemma EndAligned(addr: nat, size: nat)
    requires addr % 8 == 0 && size % 8 == 0
    ensures (addr + HEADER_SIZE + size) % 8 == 0
  {
  }

  // ---- Splitting and joining ----

  lemma SplitKeeps(bs: seq<Block>, lo: nat, hi: nat, i: nat, n: nat)
    requires Tiled(bs, lo, hi) && Sized(bs) && i < |bs| && n % 8 == 0 && n >= MIN_BLOCK_SIZE
    requires bs[i].size >= n + HEADER_SIZE + MIN_BLOCK_SIZE
    ensures Tiled(Split(bs, i, n), lo, hi) && Sized(Split(bs, i, n))
  {
    var s := Split(bs, i, n);
    forall k, j | 0 <= k && j == k + 1 && j < |s|
      ensures s[j].addr == s[k].End()
    {
      if j < i {} else if j == i {} else if j == i + 1 {} else {
        assert s[j] == bs[j - 1];
        assert k > i + 1 ==> s[k] == bs[k - 1];
      }
    }
    forall k | 0 <= k < |s|
      ensures s[k].size % 8 == 0 && s[k].size >= MIN_BLOCK_SIZE
    {
      assert k > i + 1 ==> s[k] == bs[k - 1];
    }
  }

  lemma JoinKeeps(bs: seq<Block>, lo: nat, hi: nat, i: nat)
    requires Tiled(bs, lo, hi) && Sized(bs) && i + 1 < |bs|
    ensures Tiled(Join(bs, i), lo, hi) && Sized(Join(bs, i))
  {
    var s := Join(bs, i);
    assert bs[i + 1].addr == bs[i].End();
    forall k, j | 0 <= k && j == k + 1 && j < |s|
      ensures s[j].addr == s[k].End()
    {
      if j > i {
        assert s[j] == bs[j + 1];
        assert k > i ==> s[k] == bs[k + 1];
      }
    }
    forall k | 0 <= k < |s|
      ensures s[k].size % 8 == 0 && s[k].size >= MIN_BLOCK_SIZE
    {
      assert k > i ==> s[k] == bs[k + 1];
    }
  }

  /** Coalescing undoes splitting. */
  lemma JoinUndoesSplit(bs: seq<Block>, i: nat, n: nat)
    requires i < |bs| && bs[i].size >= n + HEADER_SIZE
    ensures Join(Split(bs, i, n), i) == bs
  {
  }

  lemma MarkKeeps(bs: seq<Block>, lo: nat, hi: nat, i: nat, f: bool)
    requires Tiled(bs, lo, hi) && Sized(bs) && i < |bs|
    ensures Tiled(bs[i := bs[i].(free := f)], lo, hi) && Sized(bs[i := bs[i].(free := f)])
  {
  }

  lemma LiveConcat(a: seq<Block>, b: seq<Block>)
    ensures LiveBlocks(a + b) == LiveBlocks(a) + LiveBlocks(b)
  {
  }

  lemma LiveParts(pre: seq<Block>, mid: seq<Block>, post: seq<Block>)
    ensures LiveBlocks(pre + mid + post) == LiveBlocks(pre) + LiveBlocks(mid) + LiveBlocks(post)
  {
  }

  // ---- Allocation ----

  lemma CarveKeeps(bs: seq<Block>, lo: nat, hi: nat, i: nat, n: nat)
    requires Tiled(bs, lo, hi) && Sized(bs) && i < |bs| && bs[i].free
    requires n % 8 == 0 && MIN_BLOCK_SIZE <= n <= bs[i].size
    ensures Tiled(Carve(bs, i, n), lo, hi) && Sized(Carve(bs, i, n))
  {
    if bs[i].size >= n + HEADER_SIZE + MIN_BLOCK_SIZE {
      SplitKeeps(bs, lo, hi, i, n);
      MarkKeeps(Split(bs, i, n), lo, hi, i, false);
    } else {
      MarkKeeps(bs, lo, hi, i, false);
    }
  }

  lemma CarveNoTwoFree(bs: seq<Block>, i: nat, n: nat)
    requires NoTwoFree(bs) && i < |bs| && bs[i].free && n <= bs[i].size
    ensures NoTwoFree(Carve(bs, i, n))
  {
  }

  /** Carving block i turns it into a live block and touches no other live block. */
  lemma CarveLive(bs: seq<Block>, i: nat, n: nat)
    requires i < |bs| && bs[i].free && n <= bs[i].size
    ensures i < |Carve(bs, i, n)|
    ensures LiveBlocks(Carve(bs, i, n)) == LiveBlocks(bs) + {Carve(bs, i, n)[i]}
  {
    var c := Carve(bs, i, n);
    var pre, post := bs[..i], bs[i + 1..];
    assert bs == pre + [bs[i]] + post;
    LiveParts(pre, [bs[i]], post);
    if bs[i].size >= n + HEADER_SIZE + MIN_BLOCK_SIZE {
      assert c == pre + [c[i], c[i + 1]] + post;
      LiveParts(pre, [c[i], c[i + 1]], post);
    } else {
      assert c == pre + [c[i]] + post;
      LiveParts(pre, [c[i]], post);
    }
  }

  /** b is a new live block of at least size bytes with payload p, and nothing else became or stopped being live. */
  ghost predicate Grants(h: Heap, g: Heap, p: nat, size: nat, b: Block) {
    && b in g.blocks && b.Payload() == p && b.size >= size && p % 8 == 0
    && b !in LiveBlocks(h.blocks) && LiveBlocks(g.blocks) == LiveBlocks(h.blocks) + {b}
  }

  lemma RoundedSize(size: nat)
    requires size <= MAX_REQUEST
    ensures Rounded(size) % 8 == 0 && MIN_BLOCK_SIZE <= Rounded(size) <= 0x7FFF_FFE0 && size <= Rounded(size)
  {
  }

  /** Rounding covers the request exactly when it does not wrap; beyond that every request rounds to 16 bytes. */
  lemma RoundedCovers(size: nat)
    requires 0 < size < U32
    ensures Rounded(size) >= size <==> size <= 0xFFFF_FFF8
    ensures size > 0xFFFF_FFF8 ==> Rounded(size) == 16
  {
  }

  /** The rounded size is the least multiple of 8 that holds the request and 16 bytes. */
  lemma RoundedLeast(size: nat, n: nat)
    requires 0 < size <= 0xFFFF_FFF8
    ensures Rounded(size) % 8 == 0 && Rounded(size) >= size && Rounded(size) >= 16
    ensures n % 8 == 0 && n >= size && n >= 16 ==> Rounded(size) <= n
  {
  }

  lemma CarveGrants(h: Heap, i: nat, n: nat)
    requires Inv(h) && i < |h.blocks| && h.blocks[i].free && n % 8 == 0 && MIN_BLOCK_SIZE <= n <= h.blocks[i].size
    ensures var g := h.(blocks := Carve(h.blocks, i, n));
            && Inv(g) && i < |g.blocks| && !g.blocks[i].free
            && Grants(h, g, h.blocks[i].Payload(), n, g.blocks[i])
  {
    CarveKeeps(h.blocks, h.start, h.end, i, n);
    CarveNoTwoFree(h.blocks, i, n);
    CarveLive(h.blocks, i, n);
    Aligned(h.blocks, h.start, h.end, i);
    var c := Carve(h.blocks, i, n);
    assert c[i].addr == h.blocks[i].addr && c[i].size >= n && c[i] in c;
    NotLive(h.blocks, h.start, h.end, i, c[i]);
  }

  lemma GrowGrants(h: Heap, n: nat)
    requires Inv(h) && n % 8 == 0 && MIN_BLOCK_SIZE <= n && h.end + HEADER_SIZE + n <= h.max
    ensures var b := Block(h.end, n, false);
            var g := h.(blocks := h.blocks + [b], end := h.end + HEADER_SIZE + n);
            Inv(g) && Grants(h, g, b.Payload(), n, b)
  {
    var b := Block(h.end, n, false);
    LiveConcat(h.blocks, [b]);
    AppendKeeps(h.blocks, h.start, h.end, b);
    hide Tiled, Sized, NoTwoFree;
    EndOfHeapAligned(h);
    if b in h.blocks {
      var k :| 0 <= k < |h.blocks| && h.blocks[k] == b;
      Bounds(h.blocks, h.start, h.end, k);
    }
  }

  lemma EndOfHeapAligned(h: Heap)
    requires Inv(h)
    ensures h.end % 8 == 0
  {
    if h.blocks != [] {
      Aligned(h.blocks, h.start, h.end, |h.blocks| - 1);
    }
  }

  lemma AppendKeeps(bs: seq<Block>, lo: nat, hi: nat, b: Block)
    requires Tiled(bs, lo, hi) && Sized(bs) && NoTwoFree(bs)
    requires b.addr == hi && b.size % 8 == 0 && b.size >= MIN_BLOCK_SIZE && !b.free
    ensures Tiled(bs + [b], lo, b.End()) && Sized(bs + [b]) && NoTwoFree(bs + [b])
  {
  }

  /** A result of kmalloc is a fresh live block of at least the request, 8-aligned, and nothing else
      changed; NULL means no free block fits and growth would pass heap_max, and the heap is unchanged. */
  lemma AllocKeeps(h: Heap, size: nat)
    requires Inv(h) && size <= MAX_REQUEST
    ensures Inv(Alloc(h, size).0) && Alloc(h, size).0.start == h.start
    ensures Alloc(h, size).1 == 0 ==> Alloc(h, size).0 == h
    ensures Alloc(h, size).1 == 0 <==>
            || size == 0
            || ((forall b | b in h.blocks && b.free :: b.size < Rounded(size))
                && h.end + HEADER_SIZE + Rounded(size) > h.max)
    ensures Alloc(h, size).1 != 0 ==> exists b :: Grants(h, Alloc(h, size).0, Alloc(h, size).1, size, b)
  {
    if size > 0 {
      RoundedSize(size);
      var n := Rounded(size);
      var i := FirstFit(h.blocks, n);
      if i < |h.blocks| {
        CarveGrants(h, i, n);
        assert h.blocks[i] in h.blocks;
        assert Grants(h, Alloc(h, size).0, Alloc(h, size).1, size, Carve(h.blocks, i, n)[i]);
      } else if h.end + HEADER_SIZE + n <= h.max {
        GrowGrants(h, n);
        assert Grants(h, Alloc(h, size).0, Alloc(h, size).1, size, Block(h.end, n, false));
      }
    }
  }

  /** The first free block that can hold n bytes is at place i. */
  ghost predicate Fits(bs: seq<Block>, n: nat, i: nat) {
    i < |bs| && bs[i].free && bs[i].size >= n && forall k | 0 <= k < i :: !(bs[k].free && bs[k].size >= n)
  }

  /** Block i gives way to a live block of n bytes and a free one of the rest, when the rest can hold a header and 16
      bytes, and to a live block of its own size otherwise; the other blocks stay. */
  ghost predicate Cut(before: seq<Block>, n: nat, i: nat, after: seq<Block>) {
    && i < |before|
    && var b := before[i];
       if b.size >= n + 24 + 16 then
         after == before[..i]
                  + [Block(b.addr, n, false), Block(b.addr + 24 + n, b.size - n - 24, true)] + before[i + 1..]
       else
         after == before[..i] + [Block(b.addr, b.size, false)] + before[i + 1..]
  }

  /** kmalloc into the first free block that can hold the request cuts that block, and nothing else changes. */
  lemma AllocCuts(h: Heap, size: nat, i: nat)
    requires Inv(h) && 0 < size <= MAX_REQUEST && Fits(h.blocks, Rounded(size), i)
    ensures var (g, p) := Alloc(h, size);
            && i < |h.blocks| && p == h.blocks[i].addr + 24 && Cut(h.blocks, Rounded(size), i, g.blocks)
            && g.start == h.start && g.end == h.end && g.max == h.max
  {
    FitIsFirst(h.blocks, Rounded(size), i);
    hide FirstFit, Rounded, Inv, Carve, Fits, Cut;
    CarveIs(h.blocks, i, Rounded(size));
  }

  lemma FitIsFirst(bs: seq<Block>, n: nat, i: nat)
    requires Fits(bs, n, i)
    ensures FirstFit(bs, n) == i && bs[i].free && bs[i].size >= n
  {
  }

  lemma CarveIs(bs: seq<Block>, i: nat, n: nat)
    requires i < |bs| && bs[i].free && bs[i].size >= n
    ensures Cut(bs, n, i, Carve(bs, i, n))
  {
  }

  /** Without such a block the heap grows by exactly a header and the rounded size, or the request fails. */
  lemma AllocGrows(h: Heap, size: nat)
    requires Inv(h) && 0 < size <= MAX_REQUEST && forall i: nat :: !Fits(h.blocks, Rounded(size), i)
    ensures var n := Rounded(size);
            Alloc(h, size) ==
            if h.end + 24 + n > h.max then (h, 0)
            else (h.(blocks := h.blocks + [Block(h.end, n, false)], end := h.end + 24 + n), h.end + 24)
  {
    var i := FirstFit(h.blocks, Rounded(size));
    assert i == |h.blocks| by {
      assert !Fits(h.blocks, Rounded(size), i);
    }
  }

  /** No block handed out is larger than the rounded request by 40 bytes or more. */
  lemma AllocTight(h: Heap, size: nat)
    requires Inv(h) && size <= MAX_REQUEST && Alloc(h, size).1 != 0
    ensures exists b ::
              Grants(h, Alloc(h, size).0, Alloc(h, size).1, size, b) && Rounded(size) <= b.size < Rounded(size) + 40
  {
    hide Inv, Rounded, Alloc, Grants, Fits, Cut;
    ZeroIsRefused(h, size);
    var (n, (g, p)) := (Rounded(size), Alloc(h, size));
    AllocKeeps(h, size);
    var b :| Grants(h, g, p, size, b);
    if i: nat :| Fits(h.blocks, n, i) {
      AllocCuts(h, size, i);
      CutSize(h, g, p, size, n, i, b);
    } else {
      AllocGrows(h, size);
      GrownSize(h, g, p, size, n, b);
    }
  }

  lemma ZeroIsRefused(h: Heap, size: nat)
    ensures Alloc(h, size).1 != 0 ==> size > 0
  {
  }

  lemma CutSize(h: Heap, g: Heap, p: nat, size: nat, n: nat, i: nat, b: Block)
    requires Inv(g) && Grants(h, g, p, size, b) && Fits(h.blocks, n, i) && p == h.blocks[i].addr + 24
    requires Cut(h.blocks, n, i, g.blocks)
    ensures n <= b.size < n + 40
  {
    hide Inv;
    assert g.blocks[i].Payload() == p && g.blocks[i] in g.blocks;
    SamePayloadSameBlock(g, g.blocks[i]);
  }

  lemma GrownSize(h: Heap, g: Heap, p: nat, size: nat, n: nat, b: Block)
    requires Inv(g) && Grants(h, g, p, size, b) && g.blocks == h.blocks + [Block(h.end, n, false)] && p == h.end + 24
    ensures b.size == n
  {
    hide Inv;
    assert g.blocks[|h.blocks|] in g.blocks;
    SamePayloadSameBlock(g, g.blocks[|h.blocks|]);
  }

  /** No live block starts where the free block i starts. */
  lemma NotLive(bs: seq<Block>, lo: nat, hi: nat, i: nat, b: Block)
    requires Tiled(bs, lo, hi) && i < |bs| && bs[i].free && b.addr == bs[i].addr
    ensures b !in LiveBlocks(bs)
  {
    if b in LiveBlocks(bs) {
      var k :| 0 <= k < |bs| && bs[k] == b;
      if k < i {
        AddressOrder(bs, lo, hi, k, i);
      } else if i < k {
        AddressOrder(bs, lo, hi, i, k);
      }
    }
  }

  /** First fit: the block used is the lowest-addressed free block that is large enough. */
  lemma FirstFitIsLowest(h: Heap, size: nat, k: nat)
    requires Inv(h) && 0 < size <= MAX_REQUEST && k < |h.blocks|
    requires h.blocks[k].free && h.blocks[k].size >= Rounded(size)
    ensures 0 < Alloc(h, size).1 <= h.blocks[k].Payload()
    ensures exists b :: b in h.blocks && b.free && b.Payload() == Alloc(h, size).1
  {
    var i := FirstFit(h.blocks, Rounded(size));
    assert h.blocks[i] in h.blocks;
    if i < k {
      AddressOrder(h.blocks, h.start, h.end, i, k);
    }
  }

  // ---- Release ----

  lemma FreedKeeps(bs: seq<Block>, lo: nat, hi: nat, i: nat)
    requires Tiled(bs, lo, hi) && Sized(bs) && i < |bs|
    ensures Tiled(Freed(bs, i), lo, hi) && Sized(Freed(bs, i))
  {
    MarkKeeps(bs, lo, hi, i, true);
    var a := bs[i := bs[i].(free := true)];
    var b := a;
    if i + 1 < |a| && a[i + 1].free {
      JoinKeeps(a, lo, hi, i);
      b := Join(a, i);
    }
    if i > 0 && b[i - 1].free {
      JoinKeeps(b, lo, hi, i - 1);
    }
  }

  /** Two-sided coalescing leaves no two adjacent free blocks. */
  lemma FreedNoTwoFree(bs: seq<Block>, i: nat)
    requires NoTwoFree(bs) && i < |bs|
    ensures NoTwoFree(Freed(bs, i))
  {
  }

  lemma JoinLive(bs: seq<Block>, i: nat)
    requires i + 1 < |bs| && bs[i].free && bs[i + 1].free
    ensures LiveBlocks(Join(bs, i)) == LiveBlocks(bs)
  {
  }

  lemma MarkLive(bs: seq<Block>, lo: nat, hi: nat, i: nat)
    requires Tiled(bs, lo, hi) && i < |bs| && !bs[i].free
    ensures LiveBlocks(bs[i := bs[i].(free := true)]) == LiveBlocks(bs) - {bs[i]}
  {
    var a := bs[i := bs[i].(free := true)];
    assert bs == bs[..i] + [bs[i]] + bs[i + 1..];
    assert a == bs[..i] + [a[i]] + bs[i + 1..];
    LiveParts(bs[..i], [bs[i]], bs[i + 1..]);
    LiveParts(bs[..i], [a[i]], bs[i + 1..]);
    forall k | 0 <= k < |bs| && k != i
      ensures bs[k] != bs[i]
    {
      AddressOrder(bs, lo, hi, if k < i then k else i, if k < i then i else k);
    }
  }

  /** Releasing a live block removes exactly it from the live blocks. */
  lemma FreedLive(bs: seq<Block>, lo: nat, hi: nat, i: nat)
    requires Tiled(bs, lo, hi) && i < |bs| && !bs[i].free
    ensures LiveBlocks(Freed(bs, i)) == LiveBlocks(bs) - {bs[i]}
  {
    MarkLive(bs, lo, hi, i);
    var a := bs[i := bs[i].(free := true)];
    var b := a;
    if i + 1 < |a| && a[i + 1].free {
      JoinLive(a, i);
      b := Join(a, i);
    }
    if i > 0 && b[i - 1].free {
      JoinLive(b, i - 1);
    }
  }

  lemma FreeKeeps(h: Heap, ptr: nat)
    requires Inv(h)
    ensures Inv(Free(h, ptr)) && Free(h, ptr).start == h.start
  {
    var i := FindLive(h.blocks, ptr);
    if i < |h.blocks| {
      FreedKeeps(h.blocks, h.start, h.end, i);
      FreedNoTwoFree(h.blocks, i);
    }
  }

  /** kfree ends the life of exactly the block whose payload is ptr, if there is one. */
  lemma FreeLive(h: Heap, ptr: nat)
    requires Inv(h)
    ensures var i := FindLive(h.blocks, ptr);
            LiveBlocks(Free(h, ptr).blocks) ==
            if i < |h.blocks| then LiveBlocks(h.blocks) - {h.blocks[i]} else LiveBlocks(h.blocks)
  {
    var i := FindLive(h.blocks, ptr);
    if i < |h.blocks| {
      FreedLive(h.blocks, h.start, h.end, i);
    }
  }

  // ---- The live blocks determine the list ----

  /** Where one list has a free block, another with the same live blocks has one that is no longer. */
  lemma FreeNoLonger(h: Heap, g: Heap, k: nat)
    requires Inv(h) && Inv(g) && g.end == h.end && LiveBlocks(g.blocks) == LiveBlocks(h.blocks)
    requires k < |h.blocks| && k < |g.blocks| && h.blocks[k].addr == g.blocks[k].addr && h.blocks[k].free
    ensures g.blocks[k].size <= h.blocks[k].size
  {
    var (b, c) := (h.blocks[k], g.blocks[k]);
    if b.size < c.size {
      Bounds(g.blocks, g.start, g.end, k);
      assert k + 1 < |h.blocks|;
      var next := h.blocks[k + 1];
      assert next in LiveBlocks(h.blocks);
      assert next in g.blocks;
      var j :| 0 <= j < |g.blocks| && g.blocks[j] == next;
      if j < k {
        AddressOrder(g.blocks, g.start, g.end, j, k);
      } else if k < j {
        AddressOrder(g.blocks, g.start, g.end, k, j);
      }
    }
  }

  /** A live block of one list is the block at that address in the other. */
  lemma LiveSame(h: Heap, g: Heap, k: nat)
    requires Inv(h) && Inv(g) && LiveBlocks(g.blocks) == LiveBlocks(h.blocks)
    requires k < |h.blocks| && k < |g.blocks| && h.blocks[k].addr == g.blocks[k].addr && !h.blocks[k].free
    ensures g.blocks[k] == h.blocks[k]
  {
    assert h.blocks[k] in LiveBlocks(h.blocks);
    assert h.blocks[k] in g.blocks && g.blocks[k] in g.blocks;
    SamePayloadSameBlock(g, g.blocks[k]);
  }

  lemma {:induction false} SameUpTo(h: Heap, g: Heap, k: nat)
    requires Inv(h) && Inv(g) && g.start == h.start && g.end == h.end && LiveBlocks(g.blocks) == LiveBlocks(h.blocks)
    requires k <= |h.blocks| && k <= |g.blocks|
    ensures h.blocks[..k] == g.blocks[..k]
  {
    if k > 0 {
      var j := k - 1;
      SameUpTo(h, g, j);
      SameAddress(h, g, j);
      if h.blocks[j].free && g.blocks[j].free {
        FreeNoLonger(h, g, j);
        FreeNoLonger(g, h, j);
      } else if h.blocks[j].free {
        LiveSame(g, h, j);
      } else {
        LiveSame(h, g, j);
      }
    }
  }

  lemma SameAddress(h: Heap, g: Heap, k: nat)
    requires Inv(h) && Inv(g) && g.start == h.start && k < |h.blocks| && k < |g.blocks|
             && h.blocks[..k] == g.blocks[..k]
    ensures h.blocks[k].addr == g.blocks[k].addr
  {
    if k > 0 {
      assert h.blocks[..k][k - 1] == g.blocks[..k][k - 1];
    }
  }

  /** Between given ends, the live blocks determine the whole list: the free blocks are the gaps. In particular what
      kfree leaves is determined by what stays live. */
  lemma HeapDetermined(h: Heap, g: Heap)
    requires Inv(h) && Inv(g) && g.start == h.start && g.end == h.end && LiveBlocks(g.blocks) == LiveBlocks(h.blocks)
    ensures h.blocks == g.blocks
  {
    if |h.blocks| <= |g.blocks| {
      SameUpTo(h, g, |h.blocks|);
      NoMore(h, g);
    } else {
      SameUpTo(g, h, |g.blocks|);
      NoMore(g, h);
    }
  }

  lemma NoMore(h: Heap, g: Heap)
    requires Inv(h) && Inv(g) && g.start == h.start && g.end == h.end && |h.blocks| <= |g.blocks|
    requires h.blocks[..|h.blocks|] == g.blocks[..|h.blocks|]
    ensures h.blocks == g.blocks
  {
    var n := |h.blocks|;
    assert h.blocks[..n] == h.blocks && g.blocks[..|g.blocks|] == g.blocks;
    assert n > 0 ==> h.blocks[n - 1] == g.blocks[..n][n - 1];
    if n < |g.blocks| {
      Bounds(g.blocks, g.start, g.end, n);
    }
  }

  // ---- Round trips and whole runs ----

  /** kmalloc then kfree of the result leaves the live blocks of before. */
  lemma AllocThenFree(h: Heap, size: nat)
    requires Inv(h) && size <= MAX_REQUEST
    ensures LiveBlocks(Free(Alloc(h, size).0, Alloc(h, size).1).blocks) == LiveBlocks(h.blocks)
  {
    var (g, p) := Alloc(h, size);
    AllocKeeps(h, size);
    if p != 0 {
      var b :| Grants(h, g, p, size, b);
      GrantThenFree(h, g, p, size, b);
    }
  }

  lemma GrantThenFree(h: Heap, g: Heap, p: nat, size: nat, b: Block)
    requires Inv(g) && Grants(h, g, p, size, b)
    ensures LiveBlocks(Free(g, p).blocks) == LiveBlocks(h.blocks)
  {
    FreeLive(g, p);
    SamePayloadSameBlock(g, b);
    assert b in LiveBlocks(g.blocks);
    var k :| 0 <= k < |g.blocks| && g.blocks[k] == b;
    assert FindLive(g.blocks, p) < |g.blocks|;
  }

  /** When the heap did not have to grow, kmalloc then kfree restores it exactly. */
  lemma AllocThenFreeRestores(h: Heap, size: nat)
    requires Inv(h) && 0 < size <= MAX_REQUEST && FirstFit(h.blocks, Rounded(size)) < |h.blocks|
    ensures Free(Alloc(h, size).0, Alloc(h, size).1) == h
  {
    var n := Rounded(size);
    var i := FirstFit(h.blocks, n);
    var (g, p) := Alloc(h, size);
    RoundedSize(size);
    CarveGrants(h, i, n);
    var k := FindLive(g.blocks, p);
    if k < i {
      AddressOrder(g.blocks, g.start, g.end, k, i);
    }
    assert k == i;
    CarveThenFreed(h.blocks, i, n);
  }

  lemma CarveThenFreed(bs: seq<Block>, i: nat, n: nat)
    requires NoTwoFree(bs) && i < |bs| && bs[i].free && n <= bs[i].size
    ensures i < |Carve(bs, i, n)| && Freed(Carve(bs, i, n), i) == bs
  {
  }

  /** Distinct live blocks have distinct payloads. */
  lemma SamePayloadSameBlock(h: Heap, b: Block)
    requires Inv(h) && b in h.blocks
    ensures forall c | c in h.blocks && c.Payload() == b.Payload() :: c == b
  {
    var i :| 0 <= i < |h.blocks| && h.blocks[i] == b;
    forall c | c in h.blocks && c.Payload() == b.Payload()
      ensures c == b
    {
      var k :| 0 <= k < |h.blocks| && h.blocks[k] == c;
      if i < k {
        AddressOrder(h.blocks, h.start, h.end, i, k);
      } else if k < i {
        AddressOrder(h.blocks, h.start, h.end, k, i);
      }
    }
  }

  /** A non-NULL result is a new live payload, and no live payload is lost. */
  lemma AllocPayloads(h: Heap, size: nat)
    requires Inv(h) && size <= MAX_REQUEST
    ensures var (g, p) := Alloc(h, size);
            p != 0 ==> p !in Payloads(h.blocks) && Payloads(g.blocks) == Payloads(h.blocks) + {p}
  {
    AllocKeeps(h, size);
    var (g, p) := Alloc(h, size);
    if p != 0 {
      var b :| Grants(h, g, p, size, b);
      GrantPayloads(h, g, p, size, b);
    }
  }

  lemma GrantPayloads(h: Heap, g: Heap, p: nat, size: nat, b: Block)
    requires Inv(g) && Grants(h, g, p, size, b)
    ensures p !in Payloads(h.blocks) && Payloads(g.blocks) == Payloads(h.blocks) + {p}
  {
    SamePayloadSameBlock(g, b);
    assert forall c | c in LiveBlocks(h.blocks) :: c in LiveBlocks(g.blocks) && c != b;
    forall q | q in Payloads(h.blocks)
      ensures q in Payloads(g.blocks) && q != p
    {
      var c :| c in LiveBlocks(h.blocks) && c.Payload() == q;
    }
    assert b in LiveBlocks(g.blocks);
  }

  lemma FreePayloads(h: Heap, ptr: nat)
    requires Inv(h)
    ensures Payloads(Free(h, ptr).blocks) == Payloads(h.blocks) - {ptr}
    ensures ptr !in Payloads(h.blocks) ==> Free(h, ptr) == h
  {
    FreeLive(h, ptr);
    var i := FindLive(h.blocks, ptr);
    if i < |h.blocks| {
      assert h.blocks[i] in LiveBlocks(h.blocks);
      SamePayloadSameBlock(h, h.blocks[i]);
      PayloadsWithout(LiveBlocks(h.blocks), h.blocks[i]);
    } else {
      forall c | c in LiveBlocks(h.blocks)
        ensures c.Payload() != ptr
      {
        var k :| 0 <= k < |h.blocks| && h.blocks[k] == c;
      }
    }
  }

  lemma PayloadsWithout(live: set<Block>, b: Block)
    requires forall c | c in live && c.Payload() == b.Payload() :: c == b
    ensures (set c | c in live - {b} :: c.Payload()) == (set c | c in live :: c.Payload()) - {b.Payload()}
  {
  }

  /** What a client of the heap does: calls, and byte writes through its pointers. */
  datatype Op = Kmalloc(size: nat) | Kfree(ptr: nat) | Write(addr: nat, value: nat)

  function Apply(h: Heap, op: Op): Heap {
    match op
    case Kmalloc(size) => Alloc(h, size).0
    case Kfree(ptr) => Free(h, ptr)
    case Write(_, _) => h
  }

  function Run(h: Heap, ops: seq<Op>): Heap
    decreases |ops|
  {
    if ops == [] then h else Apply(Run(h, ops[..|ops| - 1]), ops[|ops| - 1])
  }

  /** a is a byte of a live payload. */
  ghost predicate InLive(bs: seq<Block>, a: nat) {
    exists b :: b in LiveBlocks(bs) && b.Payload() <= a < b.End()
  }

  /** A client that keeps the rules: sizes the int of kbrk can carry, frees of NULL or of live payloads, writes to
      its own payloads. */
  ghost predicate Lawful(h: Heap, op: Op) {
    match op
    case Kmalloc(size) => size <= MAX_REQUEST
    case Kfree(ptr) => ptr == 0 || ptr in Payloads(h.blocks)
    case Write(addr, value) => InLive(h.blocks, addr) && value < 256
  }

  ghost predicate LawfulRun(h: Heap, ops: seq<Op>) {
    forall k | 0 <= k < |ops| :: Lawful(Run(h, ops[..k]), ops[k])
  }

  lemma ApplyKeeps(h: Heap, op: Op)
    requires Inv(h) && Lawful(h, op)
    ensures Inv(Apply(h, op)) && Apply(h, op).start == h.start
  {
    match op {
      case Kmalloc(size) => AllocKeeps(h, size);
      case Kfree(ptr) => FreeKeeps(h, ptr);
      case Write(_, _) =>
    }
  }

  lemma LawfulPrefix(h: Heap, ops: seq<Op>, n: nat)
    requires LawfulRun(h, ops) && n <= |ops|
    ensures LawfulRun(h, ops[..n])
  {
    forall k | 0 <= k < n
      ensures Lawful(Run(h, ops[..n][..k]), ops[..n][k])
    {
      assert ops[..n][..k] == ops[..k];
    }
  }

  /** Every lawful run keeps the heap tiled. */
  lemma {:induction false} RunKeeps(h: Heap, ops: seq<Op>)
    requires Inv(h) && LawfulRun(h, ops)
    ensures Inv(Run(h, ops)) && Run(h, ops).start == h.start
    decreases |ops|
  {
    hide Inv, Apply, Lawful;
    if ops != [] {
      var n := |ops| - 1;
      LawfulPrefix(h, ops, n);
      RunKeeps(h, ops[..n]);
      ApplyKeeps(Run(h, ops[..n]), ops[n]);
    }
  }

  /** Once every allocation has been freed, a heap that has grown is one free block. */
  lemma {:induction false} AllFreedIsOneBlock(h: Heap, ops: seq<Op>)
    requires Inv(h) && LawfulRun(h, ops)
    requires LiveBlocks(Run(h, ops).blocks) == {} && Run(h, ops).end > h.start
    ensures var g := Run(h, ops);
            && h.start + HEADER_SIZE <= g.end
            && g.blocks == [Block(h.start, g.end - h.start - HEADER_SIZE, true)]
  {
    hide Inv, Run, LiveBlocks, LawfulRun;
    RunKeeps(h, ops);
    OneFreeBlock(Run(h, ops));
  }

  lemma OneFreeBlock(g: Heap)
    requires Inv(g) && LiveBlocks(g.blocks) == {} && g.end > g.start
    ensures g.start + HEADER_SIZE <= g.end
    ensures g.blocks == [Block(g.start, g.end - g.start - HEADER_SIZE, true)]
  {
    assert |g.blocks| > 1 ==> !(g.blocks[0].free && g.blocks[1].free);
    forall i | 0 <= i < |g.blocks|
      ensures g.blocks[i].free
    {
      assert g.blocks[i] !in LiveBlocks(g.blocks);
    }
  }

  /** Live payloads never overlap. */
  lemma LiveDisjoint(h: Heap, b: Block, c: Block)
    requires Inv(h) && b in LiveBlocks(h.blocks) && c in LiveBlocks(h.blocks) && b != c
    ensures b.Payload() + b.size <= c.addr || c.Payload() + c.size <= b.addr
    ensures h.start <= b.addr && b.End() <= h.end && b.Payload() % 8 == 0
  {
    var i :| 0 <= i < |h.blocks| && h.blocks[i] == b;
    var k :| 0 <= k < |h.blocks| && h.blocks[k] == c;
    Bounds(h.blocks, h.start, h.end, i);
    Aligned(h.blocks, h.start, h.end, i);
    AddressOrder(h.blocks, h.start, h.end, if i < k then i else k, if i < k then k else i);
  }

  // ---- Statistics ----

  datatype Stats = Stats(usedSize: nat, freeSize: nat, numAllocations: nat, numFree: nat)

  function Tally(bs: seq<Block>): Stats {
    if bs == [] then Stats(0, 0, 0, 0) else
    var t := Tally(bs[..|bs| - 1]);
    Counted(t, bs[|bs| - 1])
  }

  function Counted(t: Stats, b: Block): Stats {
    if b.free then t.(freeSize := t.freeSize + b.size, numFree := t.numFree + 1)
    else t.(usedSize := t.usedSize + b.size + HEADER_SIZE, numAllocations := t.numAllocations + 1)
  }

  /** The statistics of a list in two parts add up. */
  lemma {:induction false} TallyConcat(a: seq<Block>, b: seq<Block>)
    ensures var (s, t, u) := (Tally(a), Tally(b), Tally(a + b));
            && u.usedSize == s.usedSize + t.usedSize && u.freeSize == s.freeSize + t.freeSize
            && u.numAllocations == s.numAllocations + t.numAllocations && u.numFree == s.numFree + t.numFree
    decreases |b|
  {
    if b == [] {
      assert a + b == a;
    } else {
      TallyConcat(a, b[..|b| - 1]);
      assert (a + b)[..|a + b| - 1] == a + b[..|b| - 1];
    }
  }

  /** The number of allocations is the number of live blocks, and the used bytes are their payloads with a header
      each. */
  lemma {:induction false} TallyMeaning(bs: seq<Block>, lo: nat, hi: nat)
    requires Tiled(bs, lo, hi)
    ensures Tally(bs).numAllocations == |LiveBlocks(bs)| && Tally(bs).numFree == |bs| - |LiveBlocks(bs)|
    ensures Tally(bs).usedSize >= 24 * |LiveBlocks(bs)|
  {
    if bs != [] {
      var (front, last) := (bs[..|bs| - 1], bs[|bs| - 1]);
      assert bs == front + [last];
      TallyMeaning(front, lo, last.addr);
      LiveConcat(front, [last]);
      if last in front {
        var k :| 0 <= k < |front| && front[k] == last;
        AddressOrder(bs, lo, hi, k, |bs| - 1);
      }
      assert LiveBlocks([last]) == if last.free then {} else {last};
    }
  }

  lemma TallyEmpty(bs: seq<Block>)
    ensures Tally(bs[..0]) == Stats(0, 0, 0, 0)
  {
  }

  lemma TallyStep(bs: seq<Block>, i: nat)
    requires i < |bs|
    ensures Tally(bs[..i + 1]) == Counted(Tally(bs[..i]), bs[i])
  {
    assert bs[..i + 1][..i] == bs[..i];
  }

  lemma HeapSpan(h: Heap)
    requires Inv(h)
    ensures 0 < h.start <= h.end <= h.max <= 0x7000_0000 && Tiled(h.blocks, h.start, h.end)
  {
    if h.blocks != [] {
      Bounds(h.blocks, h.start, h.end, 0);
    }
  }

  /** The statistics account for every byte of the heap. */
  lemma {:induction false} StatsAccount(bs: seq<Block>, lo: nat, hi: nat)
    requires Tiled(bs, lo, hi)
    ensures lo + Tally(bs).usedSize + Tally(bs).freeSize + HEADER_SIZE * Tally(bs).numFree == hi
  {
    if bs != [] {
      var front := bs[..|bs| - 1];
      StatsAccount(front, lo, bs[|bs| - 1].addr);
    }
  }
}
