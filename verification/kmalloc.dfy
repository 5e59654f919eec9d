/** The kernel heap in memory (kernel/src/kmalloc.c): doubly linked block headers among the clients' bytes. */
module Kmalloc {
  import opened Words
  import opened HeapModel
  import opened HeapMemory

  /** Memory m with list head `head` holds exactly the heap h. */
  ghost predicate Realises(m: Mem, head: nat, h: Heap) {
    Inv(h) && Linked(m, head, h.blocks)
  }

  /** Where kfree and ksize look for the header. */
  function HeaderOf(ptr: nat): nat {
    Wrap(ptr - HEADER_SIZE)
  }

  /** kfree goes on to release: the magic is there and the block reads "used". */
  predicate Releases(m: Mem, ptr: nat) {
    ptr != 0 && HasMagic(m, HeaderOf(ptr)) && !HeaderAt(m, HeaderOf(ptr)).free
  }

  lemma HeapPlace(kernelEnd: nat)
    requires 0 < kernelEnd <= 0x6000_0000
    ensures var s := AlignUp(kernelEnd + 0x1_0000);
            s % 256 == 0 && s % 8 == 0 && 0 < s <= 0x6002_0000
  {
  }

  lemma EmptyHeap(kernelEnd: nat, memory: Mem)
    requires 0 < kernelEnd <= 0x6000_0000
    ensures var s := AlignUp(kernelEnd + 0x1_0000);
            s % 256 == 0 && s <= 0x6002_0000 && Realises(memory, 0, Heap(s, s, s + HEAP_BYTES, []))
  {
    hide AlignUp;
    HeapPlace(kernelEnd);
  }

  class KernelHeap {
    var heapStart: nat
    var heapEnd: nat
    var heapMax: nat
    var blockList: nat
    var mem: Mem
    var totalAllocations: nat
    var totalFrees: nat
    ghost var blocks: seq<Block>

    ghost function View(): Heap
      reads this`heapStart, this`heapEnd, this`heapMax, this`blocks
    {
      Heap(heapStart, heapEnd, heapMax, blocks)
    }

    ghost predicate Valid()
      reads this`heapStart, this`heapEnd, this`heapMax, this`blocks, this`mem, this`blockList
    {
      Realises(mem, blockList, View())
    }

    /** The payload addresses handed out and not yet freed. */
    ghost function Live(): set<nat>
      reads this`blocks
    {
      Payloads(blocks)
    }

    lemma HeapSize()
      requires Valid()
      ensures heapMax == heapStart + HEAP_BYTES
    {
    }

    /** kmalloc_init, given where the kernel image ends and whatever memory holds. */
    constructor (kernelEnd: nat, memory: Mem)
      requires 0 < kernelEnd <= 0x6000_0000
      ensures Valid() && blocks == [] && heapEnd == heapStart == AlignUp(kernelEnd + 0x1_0000) && mem == memory
      ensures heapMax == heapStart + HEAP_BYTES && heapStart % 256 == 0 && heapStart <= 0x6002_0000
      ensures totalAllocations == totalFrees == 0
    {
      hide AlignUp;
      EmptyHeap(kernelEnd, memory);
      heapStart := AlignUp(kernelEnd + 0x1_0000);
      heapEnd := AlignUp(kernelEnd + 0x1_0000);
      heapMax := AlignUp(kernelEnd + 0x1_0000) + 8 * 1024 * 1024;
      mem, blockList, totalAllocations, totalFrees, blocks := memory, 0, 0, 0, [];
    }

    /** kbrk, with the 32-bit wrap-around of its additions; -1 is the refusal. */
    method Kbrk(increment: int) returns (r: int)
      requires -0x8000_0000 <= increment < 0x8000_0000
      modifies this`heapEnd
      ensures increment == 0 ==> heapEnd == old(heapEnd) == r
      ensures increment > 0 && Wrap(old(heapEnd) + increment) > heapMax ==> r == -1 && heapEnd == old(heapEnd)
      ensures increment > 0 && Wrap(old(heapEnd) + increment) <= heapMax ==>
                r == old(heapEnd) && heapEnd == Wrap(r + increment)
      ensures increment < 0 && Wrap(old(heapEnd) + increment) >= heapStart ==>
                r == old(heapEnd) && heapEnd == Wrap(r + increment)
      ensures increment < 0 && Wrap(old(heapEnd) + increment) < heapStart ==> r == old(heapEnd) && heapEnd == heapStart
    {
      var oldEnd := heapEnd;
      if increment == 0 {
        return heapEnd;
      }
      if increment > 0 {
        var newEnd := Wrap(heapEnd + increment);
        if newEnd > heapMax {
          return -1;
        }
        heapEnd := newEnd;
      } else {
        var newEnd := Wrap(heapEnd + increment);
        if newEnd < heapStart {
          newEnd := heapStart;
        }
        heapEnd := newEnd;
      }
      return oldEnd;
    }

    method FindFreeBlock(n: nat) returns (p: nat)
      requires Valid()
      ensures var i := FirstFit(blocks, n);
              (p != 0 <==> i < |blocks|) && (p != 0 ==> p == blocks[i].addr && n <= HEAP_BYTES)
    {
      hide HeaderAt, HasMagic, FirstFit;
      HeapSpan(View());
      TiledDistinct(blocks, heapStart, heapEnd);
      p := blockList;
      ghost var i: nat := 0;
      while p != 0
        invariant i <= |blocks| && p == if i < |blocks| then blocks[i].addr else 0
        invariant forall k | 0 <= k < i :: !(blocks[k].free && blocks[k].size >= n)
        decreases |blocks| - i
      {
        assert Node(mem, blocks, i);
        if HeaderAt(mem, p).free && HeaderAt(mem, p).size >= n {
          assert i == FirstFit(blocks, n);
          return;
        }
        p := HeaderAt(mem, p).next;
        i := i + 1;
      }
    }

    /** split_block: cuts the block at p after n bytes when the rest can hold a block of its own. */
    method SplitBlock(p: nat, n: nat, ghost i: nat)
      requires Valid() && i < |blocks| && p == blocks[i].addr
      requires n % 8 == 0 && MIN_BLOCK_SIZE <= n <= blocks[i].size
      modifies this`mem, this`blocks
      ensures Linked(mem, blockList, blocks) && Tiled(blocks, heapStart, heapEnd)
      ensures blocks == if old(blocks)[i].size >= n + HEADER_SIZE + MIN_BLOCK_SIZE
                        then Split(old(blocks), i, n) else old(blocks)
      ensures forall x: nat | Outside(blocks, x) :: Cell(mem, x) == Cell(old(mem), x)
    {
      hide Tiled, Sized, Distinct, Split, HeaderAt, HasMagic, Cell, At, PutHeader, Relink, SetNext, SetSize;
      HeapSpan(View());
      TiledDistinct(blocks, heapStart, heapEnd);
      assert Node(mem, blocks, i);
      if HeaderAt(mem, p).size >= n + HEADER_SIZE + MIN_BLOCK_SIZE {
        SplitKeeps(blocks, heapStart, heapEnd, i, n);
        NoBlockInside(blocks, heapStart, heapEnd, i, n);
        SplitLinked(mem, blockList, blocks, i, n);
        SizeField(mem, p);
        ghost var after := SplitWrites(mem, p, n);
        var next, rest := HeaderAt(mem, p).next, p + HEADER_SIZE + n;
        mem := PutHeader(mem, rest, Header(HeaderAt(mem, p).size - n - HEADER_SIZE, true, next, p));
        mem := Relink(mem, next, rest);
        mem := SetNext(mem, p, rest);
        mem := SetSize(mem, p, n);
        assert mem == after;
        blocks := Split(blocks, i, n);
      }
    }

    /** The found-block path of kmalloc: split if worth it, then mark as used. */
    method TakeBlock(p: nat, n: nat, ghost i: nat)
      requires Valid() && i < |blocks| && p == blocks[i].addr && blocks[i].free
      requires n % 8 == 0 && MIN_BLOCK_SIZE <= n <= blocks[i].size
      modifies this`mem, this`blocks
      ensures Valid() && blocks == Carve(old(blocks), i, n)
      ensures forall x: nat | Outside(blocks, x) :: Cell(mem, x) == Cell(old(mem), x)
    {
      hide Inv, Linked, Tiled, Distinct, Split, SetFree, Cell, HeaderAt, HasMagic;
      HeapSpan(View());
      CarveGrants(View(), i, n);
      SplitBlock(p, n, i);
      TiledDistinct(blocks, heapStart, heapEnd);
      CutAt(old(blocks), i, n);
      MarkLinked(mem, blockList, blocks, i, false);
      mem := SetFree(mem, p, false);
      ghost var cut := blocks;
      blocks := blocks[i := blocks[i].(free := false)];
      forall x: nat | Outside(blocks, x)
        ensures Cell(mem, x) == Cell(old(mem), x)
      {
        MarkOutside(cut, i, false, x);
      }
    }

    /** Writes the header of a new block and walks to the last block to link it. */
    method LinkLast(memory: nat, n: nat, ghost oldEnd: nat)
      requires Tiled(blocks, heapStart, oldEnd) && 0 < heapStart <= oldEnd < U32 && memory == oldEnd && n < U32
      requires Linked(mem, blockList, blocks)
      modifies this`mem, this`blocks, this`blockList
      ensures blocks == old(blocks) + [Block(memory, n, false)]
      ensures Linked(mem, blockList, blocks) && HasMagic(mem, memory) && HeaderAt(mem, memory).size == n
      ensures forall x: nat | Outside(blocks, x) :: Cell(mem, x) == Cell(old(mem), x)
    {
      hide HeaderAt, HasMagic, Cell, At, PutHeader, SetNext, SetPrev;
      ghost var b := Block(memory, n, false);
      TiledDistinct(blocks, heapStart, oldEnd);
      DistinctAppend(blocks, heapStart, oldEnd, b);
      var before := mem;
      mem := PutHeader(mem, memory, Header(n, false, 0, 0));
      if blockList == 0 {
        assert blocks == [];
        blockList := memory;
        blocks := [b];
        assert Node(mem, blocks, 0) && forall x: nat | Outside(blocks, x) :: !In(blocks[0].addr, x);
        return;
      }
      var last := LastBlock(before, memory, n);
      AppendLinked(before, blockList, blocks, b);
      mem := SetNext(mem, last, memory);
      mem := SetPrev(mem, memory, last);
      assert mem == AppendWrites(before, last, memory, n);
      blocks := blocks + [b];
      assert Node(mem, blocks, |blocks| - 1);
    }

    /** The walk to the end of the list, which the new header does not disturb. */
    method LastBlock(ghost before: Mem, memory: nat, n: nat) returns (last: nat)
      requires Linked(before, blockList, blocks) && blocks != [] && Distinct(blocks + [Block(memory, n, false)])
      requires mem == PutHeader(before, memory, Header(n, false, 0, 0))
      ensures last == blocks[|blocks| - 1].addr
    {
      hide HeaderAt, HasMagic, Cell, At, PutHeader;
      ghost var i: nat, s := 0, blocks + [Block(memory, n, false)];
      last := blockList;
      forall k: nat | k < |blocks|
        ensures blocks[k].addr > 0
      {
        assert s[k] == blocks[k];
      }
      assert Node(before, blocks, i) && s[i] == blocks[i] && Differ(s, i, |blocks|);
      FarSame(before, mem, memory, last);
      while HeaderAt(mem, last).next != 0
        invariant i < |blocks| && last == blocks[i].addr && HeaderAt(mem, last).next == NextOf(blocks, i)
        decreases |blocks| - i
      {
        last := HeaderAt(mem, last).next;
        i := i + 1;
        assert Node(before, blocks, i) && s[i] == blocks[i] && Differ(s, i, |blocks|);
        FarSame(before, mem, memory, last);
      }
    }

    /** The growth path of kmalloc, for every rounded size n a 32-bit word can hold. */
    method Grow(n: nat) returns (p: nat)
      requires Valid() && n % 8 == 0 && MIN_BLOCK_SIZE <= n < U32
      modifies this`heapEnd, this`blockList, this`mem, this`blocks
      ensures n <= MAX_REQUEST ==>
                && Valid()
                && (old(heapEnd) + HEADER_SIZE + n > heapMax ==> p == 0)
                && (old(heapEnd) + HEADER_SIZE + n <= heapMax ==>
                      && p == old(heapEnd) + HEADER_SIZE && heapEnd == p + n
                      && blocks == old(blocks) + [Block(old(heapEnd), n, false)])
      ensures n > MAX_REQUEST ==> (p == 0 <==> Refused(old(heapEnd), heapMax, n))
      ensures n > MAX_REQUEST && p != 0 ==> PastMax(mem, old(heapEnd), heapMax, n, p)
      ensures p == 0 ==> View() == old(View()) && mem == old(mem) && blockList == old(blockList)
      ensures forall x: nat | Outside(blocks, x) :: Cell(mem, x) == Cell(old(mem), x)
    {
      hide Inv, Linked, Tiled, Distinct, Cell, HeaderAt, HasMagic;
      HeapSpan(View());
      ghost var before := View();
      GrowthArithmetic(n, heapEnd);
      var totalSize := Wrap(HEADER_SIZE + n);
      var memory := Kbrk(AsInt(totalSize));
      if memory == -1 {
        return 0;
      }
      LinkLast(memory, n, before.end);
      if n <= MAX_REQUEST {
        GrowGrants(before, n);
      }
      return memory + HEADER_SIZE;
    }

    /** kmalloc after rounding: first fit, or growth. */
    method AllocateRounded(n: nat) returns (p: nat)
      requires Valid() && n % 8 == 0 && MIN_BLOCK_SIZE <= n < U32
      modifies this`heapEnd, this`blockList, this`mem, this`totalAllocations, this`blocks
      ensures n <= MAX_REQUEST ==> Valid() && (View(), p) == AllocRounded(old(View()), n)
      ensures n > MAX_REQUEST ==> (p == 0 <==> Refused(old(heapEnd), heapMax, n))
      ensures n > MAX_REQUEST && p != 0 ==> PastMax(mem, old(heapEnd), heapMax, n, p)
      ensures p == 0 ==> View() == old(View()) && mem == old(mem) && blockList == old(blockList)
      ensures forall x: nat | Outside(blocks, x) :: Cell(mem, x) == Cell(old(mem), x)
      ensures totalAllocations == old(totalAllocations) + if p == 0 then 0 else 1
    {
      hide Inv, Linked, Carve, Cell, HeaderAt, HasMagic;
      p := FindFreeBlock(n);
      ghost var i := FirstFit(blocks, n);
      if p != 0 {
        TakeBlock(p, n, i);
        totalAllocations := totalAllocations + 1;
        return p + HEADER_SIZE;
      }
      p := Grow(n);
      if p != 0 {
        totalAllocations := totalAllocations + 1;
      }
    }

    /** kmalloc. Up to MAX_REQUEST bytes, and for sizes that round to nothing, it is the model's Alloc;
        in between the break moves the wrong way and a block past heap_max is handed out. It writes to headers
        only, and a refusal writes nothing. */
    method Kmalloc(size: nat) returns (p: nat)
      requires Valid() && size < U32
      modifies this`heapEnd, this`blockList, this`mem, this`totalAllocations, this`blocks
      ensures size <= MAX_REQUEST || size > 0xFFFF_FFF8 ==> Valid() && (View(), p) == Alloc(old(View()), size)
      ensures MAX_REQUEST < size <= 0xFFFF_FFF8 ==> (p == 0 <==> Refused(old(heapEnd), heapMax, Rounded(size)))
      ensures MAX_REQUEST < size <= 0xFFFF_FFF8 && p != 0 ==> PastMax(mem, old(heapEnd), heapMax, Rounded(size), p)
      ensures p == 0 ==> Valid() && View() == old(View()) && mem == old(mem) && blockList == old(blockList)
      ensures forall x: nat | Outside(blocks, x) :: Cell(mem, x) == Cell(old(mem), x)
      ensures totalAllocations == old(totalAllocations) + if p == 0 then 0 else 1
    {
      hide Cell, HeaderAt, HasMagic, Realises, PastMax, Refused;
      if size == 0 {
        return 0;
      }
      var n := Wrap(size + 7) / 8 * 8;
      if n < MIN_BLOCK_SIZE {
        n := MIN_BLOCK_SIZE;
      }
      RoundedCases(size);
      p := AllocateRounded(n);
    }

    /** The first half of coalesce_blocks, on whatever memory holds. */
    method CoalesceNext(p: nat)
      modifies this`mem
      ensures mem == MergeNextWrites(old(mem), p)
    {
      hide HeaderAt, HasMagic, Cell, At, SetSize, SetNext, Relink;
      var q := HeaderAt(mem, p).next;
      if q != 0 && HeaderAt(mem, q).free {
        mem := SetSize(mem, p, HeaderAt(mem, p).size + HEADER_SIZE + HeaderAt(mem, q).size);
        mem := SetNext(mem, p, HeaderAt(mem, q).next);
        mem := Relink(mem, HeaderAt(mem, p).next, p);
      }
    }

    /** The second half of coalesce_blocks. */
    method CoalescePrev(p: nat)
      modifies this`mem
      ensures mem == MergePrevWrites(old(mem), p)
    {
      hide HeaderAt, HasMagic, Cell, At, SetSize, SetNext, Relink;
      var q := HeaderAt(mem, p).prev;
      if q != 0 && HeaderAt(mem, q).free {
        mem := SetSize(mem, q, HeaderAt(mem, q).size + HEADER_SIZE + HeaderAt(mem, p).size);
        mem := SetNext(mem, q, HeaderAt(mem, p).next);
        mem := Relink(mem, HeaderAt(mem, p).next, q);
      }
    }

    /** kfree of any pointer at all. It panics exactly when the magic is missing and releases exactly when the header
        reads "used"; otherwise it writes nothing. Releasing a live payload is the model's Free. */
    method Kfree(ptr: nat) returns (panicked: bool)
      requires Valid()
      modifies this`mem, this`blocks, this`totalFrees
      ensures panicked <==> ptr != 0 && !HasMagic(old(mem), HeaderOf(ptr))
      ensures Releases(old(mem), ptr) ==>
                mem == FreeWrites(old(mem), HeaderOf(ptr)) && totalFrees == old(totalFrees) + 1
      ensures !Releases(old(mem), ptr) ==> mem == old(mem) && totalFrees == old(totalFrees)
      ensures ptr in old(Live()) ==>
                && Valid() && View() == Free(old(View()), ptr) && Live() == old(Live()) - {ptr}
                && Releases(old(mem), ptr) && ptr >= HEADER_SIZE && ReadsFree(mem, ptr - HEADER_SIZE)
                && forall x: nat | !In(ptr - HEADER_SIZE, x) && Outside(blocks, x) :: Cell(mem, x) == Cell(old(mem), x)
      ensures ptr !in old(Live()) ==> View() == old(View())
    {
      hide Cell, HeaderAt, HasMagic, Inv, Linked, FreeWrites, MergeNextWrites, MergePrevWrites, Freed, ReadsFree,
           SetFree;
      panicked := false;
      if ptr == 0 {
        LiveReadsUsed(ptr);
        return;
      }
      ghost var m, i := mem, FindLive(blocks, ptr);
      LiveReadsUsed(ptr);
      var p := HeaderOf(ptr);
      if !HasMagic(mem, p) {
        return true;
      }
      if HeaderAt(mem, p).free {
        return;
      }
      mem := SetFree(mem, p, true);
      totalFrees := totalFrees + 1;
      CoalesceNext(p);
      CoalescePrev(p);
      FreeSteps(m, p);
      if i < |blocks| {
        ReleasedLive(m, blockList, View(), ptr);
        blocks := Freed(blocks, i);
      }
    }

    /** A live payload sits behind a header that reads "used". */
    lemma LiveReadsUsed(ptr: nat)
      requires Valid()
      ensures ptr in Live() <==> FindLive(blocks, ptr) < |blocks|
      ensures ptr in Live() ==>
                && Releases(mem, ptr) && ptr >= HEADER_SIZE && HeaderOf(ptr) == ptr - HEADER_SIZE
                && forall b | b in LiveBlocks(blocks) && b.Payload() == ptr ::
                      HeaderAt(mem, ptr - HEADER_SIZE).size == b.size
    {
      hide HeaderAt, HasMagic;
      var i := FindLive(blocks, ptr);
      if i < |blocks| {
        assert Node(mem, blocks, i);
        assert blocks[i] in LiveBlocks(blocks);
        HeapSpan(View());
        Bounds(blocks, heapStart, heapEnd, i);
        SamePayloadSameBlock(View(), blocks[i]);
      }
    }

    /** An immediate second kfree of the same pointer changes nothing. */
    method KfreeTwice(ptr: nat) returns (panicked: bool)
      requires Valid() && ptr in Live()
      modifies this`mem, this`blocks, this`totalFrees
      ensures Valid() && View() == Free(old(View()), ptr) && totalFrees == old(totalFrees) + 1 && !panicked
    {
      hide Realises, Free, HeaderAt, HasMagic, FreeWrites, Cell, At, Outside, Payloads;
      LiveReadsUsed(ptr);
      var first := Kfree(ptr);
      panicked := Kfree(ptr);
      assert ptr !in Live();
    }

    /** ksize of a live payload is the size of its block. */
    method Ksize(ptr: nat) returns (size: nat)
      requires Valid()
      ensures ptr == 0 || !HasMagic(mem, HeaderOf(ptr)) ==> size == 0
      ensures forall b | b in LiveBlocks(blocks) && b.Payload() == ptr :: size == b.size
    {
      hide HeaderAt, HasMagic, Realises;
      LiveReadsUsed(ptr);
      if ptr == 0 || !HasMagic(mem, HeaderOf(ptr)) {
        return 0;
      }
      return HeaderAt(mem, HeaderOf(ptr)).size;
    }

    /** Whether ptr is a live payload. */
    method IsLive(ptr: nat) returns (live: bool)
      requires Valid()
      ensures live <==> ptr in Live()
    {
      hide HeaderAt, HasMagic, FindLive, Inv;
      LiveReadsUsed(ptr);
      HeapSpan(View());
      TiledDistinct(blocks, heapStart, heapEnd);
      var p := blockList;
      ghost var i: nat := 0;
      while p != 0
        invariant i <= |blocks| && p == if i < |blocks| then blocks[i].addr else 0
        invariant forall k | 0 <= k < i :: blocks[k].free || blocks[k].Payload() != ptr
        decreases |blocks| - i
      {
        assert Node(mem, blocks, i);
        if !HeaderAt(mem, p).free && p + HEADER_SIZE == ptr {
          assert blocks[i] in LiveBlocks(blocks);
          return true;
        }
        p := HeaderAt(mem, p).next;
        i := i + 1;
      }
      return false;
    }

    /** Whether a is a byte of a live payload. */
    method IsPayload(a: nat) returns (inside: bool)
      requires Valid()
      ensures inside <==> InLive(blocks, a)
    {
      hide HeaderAt, HasMagic, Inv;
      HeapSpan(View());
      TiledDistinct(blocks, heapStart, heapEnd);
      var p := blockList;
      ghost var i: nat := 0;
      while p != 0
        invariant i <= |blocks| && p == if i < |blocks| then blocks[i].addr else 0
        invariant forall k | 0 <= k < i :: blocks[k].free || !(blocks[k].Payload() <= a < blocks[k].End())
        decreases |blocks| - i
      {
        assert Node(mem, blocks, i);
        var h := HeaderAt(mem, p);
        if !h.free && p + HEADER_SIZE <= a < p + HEADER_SIZE + h.size {
          assert blocks[i] in LiveBlocks(blocks);
          return true;
        }
        p := h.next;
        i := i + 1;
      }
      return false;
    }

    /** One operation of a client, refused exactly when the code would leave the model. */
    method Perform(op: Op) returns (ok: bool)
      requires Valid()
      modifies this`heapEnd, this`blockList, this`mem, this`totalAllocations, this`totalFrees, this`blocks
      ensures Valid() && (ok <==> Follows(old(mem), old(View()), op))
      ensures ok ==> View() == Apply(old(View()), op) && KeepsData(old(mem), old(blocks), mem, blocks, op)
      ensures !ok ==> View() == old(View()) && mem == old(mem)
    {
      hide HeaderAt, HasMagic, Inv, Linked, Cell, Alloc, Free, InLive, KeepsData, Refused, FreeWrites, Outside;
      ghost var m, h := mem, View();
      match op {
        case Kmalloc(size) =>
          if size >= U32 || (MAX_REQUEST < size <= 0xFFFF_FFF8 && !Refused(heapEnd, heapMax, Rounded(size))) {
            return false;
          }
          var p := Kmalloc(size);
          if MAX_REQUEST < size <= 0xFFFF_FFF8 {
            TooLarge(h, size);
          }
          AllocKeepsData(m, h, mem, View(), size);
          return true;
        case Kfree(ptr) =>
          var live := IsLive(ptr);
          LiveReadsUsed(ptr);
          FreePayloads(h, ptr);
          if !live && ptr != 0 && (!HasMagic(mem, HeaderOf(ptr)) || Releases(mem, ptr)) {
            return false;
          }
          var panicked := Kfree(ptr);
          FreeKeepsData(m, h, mem, View(), ptr);
          return true;
        case Write(addr, value) =>
          var inside := IsPayload(addr);
          if !inside || value >= 256 {
            return false;
          }
          WriteKeepsData(m, blockList, h, addr, value);
          mem := mem[addr := value];
          return true;
      }
    }

    /** Any sequence of calls with any sizes and pointers, and of writes: it proceeds as the model does up to the
        first operation that the code would not survive, which a lawful client never issues; and a block that is
        not freed keeps exactly the bytes its owner wrote. */
    method RunOps(ops: seq<Op>) returns (n: nat)
      requires Valid()
      modifies this`heapEnd, this`blockList, this`mem, this`totalAllocations, this`totalFrees, this`blocks
      ensures n <= |ops| && Valid() && View() == Run(old(View()), ops[..n])
      ensures n < |ops| ==> !Follows(mem, View(), ops[n])
      ensures LawfulRun(old(View()), ops) ==> n == |ops|
      ensures forall b, a | OwnByte(old(blocks), b, a) && HeapModel.Op.Kfree(b.Payload()) !in ops[..n] ::
                b in LiveBlocks(blocks) && Cell(mem, a) == Written(ops[..n], a, Cell(old(mem), a))
    {
      hide Follows, Realises, Cell, Apply, Lawful, Run, Written, KeepsData;
      n := 0;
      ghost var h, m, bs := View(), mem, blocks;
      StartRun(h, ops);
      while n < |ops|
        invariant n <= |ops| && Valid() && View() == Run(h, ops[..n])
        invariant forall b, a | OwnByte(bs, b, a) && HeapModel.Op.Kfree(b.Payload()) !in ops[..n] ::
                    b in LiveBlocks(blocks) && Cell(mem, a) == Written(ops[..n], a, Cell(m, a))
      {
        ghost var m1, h1 := mem, View();
        RunStep(h, ops, n);
        var ok := Perform(ops[n]);
        if !ok {
          if LawfulRun(h, ops) {
            assert Lawful(Run(h, ops[..n]), ops[n]);
            LawfulFollows(m1, h1, ops[n]);
          }
          return;
        }
        DataStep(m, bs, ops, n, m1, h1.blocks, mem, blocks);
        n := n + 1;
      }
    }

    /** kmalloc_get_stats: the walk over the list accounts for every byte of the heap. */
    method GetStats() returns (heapSize: nat, s: Stats)
      requires Valid()
      ensures heapSize == heapEnd - heapStart && s == Tally(blocks)
      ensures s.usedSize + s.freeSize + HEADER_SIZE * s.numFree == heapSize
    {
      hide Inv, Tally, Tiled, HeaderAt, HasMagic;
      HeapSpan(View());
      TiledDistinct(blocks, heapStart, heapEnd);
      StatsAccount(blocks, heapStart, heapEnd);
      heapSize := heapEnd - heapStart;
      s := Stats(0, 0, 0, 0);
      TallyEmpty(blocks);
      var p := blockList;
      ghost var i: nat := 0;
      while p != 0
        invariant i <= |blocks| && p == if i < |blocks| then blocks[i].addr else 0
        invariant s == Tally(blocks[..i])
        decreases |blocks| - i
      {
        assert Node(mem, blocks, i);
        TallyStep(blocks, i);
        var h := HeaderAt(mem, p);
        if h.free {
          s := s.(freeSize := s.freeSize + h.size, numFree := s.numFree + 1);
        } else {
          s := s.(usedSize := s.usedSize + h.size + HEADER_SIZE, numAllocations := s.numAllocations + 1);
        }
        p := h.next;
        i := i + 1;
      }
      assert blocks[..i] == blocks;
    }
  }

  /** The operations after which the code still realises the model: no oversized block, and no kfree of a pointer that
      is neither NULL nor live unless its header reads "free". */
  ghost predicate Follows(m: Mem, h: Heap, op: Op) {
    match op
    case Kmalloc(size) =>
      size < U32 && (MAX_REQUEST < size <= 0xFFFF_FFF8 ==> Refused(h.end, h.max, Rounded(size)))
    case Kfree(ptr) => ptr == 0 || ptr in Payloads(h.blocks) || ReadsFree(m, HeaderOf(ptr))
    case Write(addr, value) => InLive(h.blocks, addr) && value < 256
  }

  /** a is a byte of the live block b. */
  ghost predicate OwnByte(bs: seq<Block>, b: Block, a: nat) {
    b in LiveBlocks(bs) && b.Payload() <= a < b.End()
  }

  /** What a client last wrote to a. */
  function Written(ops: seq<Op>, a: nat, before: nat): nat {
    if ops == [] then before else
    var op := ops[|ops| - 1];
    if op.Write? && op.addr == a then op.value else Written(ops[..|ops| - 1], a, before)
  }

  /** Live blocks that op does not free stay live, and their bytes change by its write alone. */
  ghost predicate KeepsData(m: Mem, bs: seq<Block>, m': Mem, bs': seq<Block>, op: Op) {
    forall b, a | OwnByte(bs, b, a) && op != HeapModel.Op.Kfree(b.Payload()) ::
      b in LiveBlocks(bs') && Cell(m', a) == if op.Write? && op.addr == a then op.value else Cell(m, a)
  }

  lemma AllocLive(h: Heap, size: nat)
    ensures LiveBlocks(h.blocks) <= LiveBlocks(Alloc(h, size).0.blocks)
  {
    if size > 0 {
      var n := Rounded(size);
      var i := FirstFit(h.blocks, n);
      if i < |h.blocks| {
        CarveLive(h.blocks, i, n);
      } else {
        LiveConcat(h.blocks, [Block(h.end, n, false)]);
      }
    }
  }

  lemma TooLarge(h: Heap, size: nat)
    requires Inv(h) && MAX_REQUEST < size <= 0xFFFF_FFF8
    ensures Alloc(h, size) == (h, 0)
  {
    hide Rounded;
    RoundedCases(size);
    var i := FirstFit(h.blocks, Rounded(size));
    if i < |h.blocks| {
      Bounds(h.blocks, h.start, h.end, i);
    }
  }

  lemma AllocKeepsData(m: Mem, h: Heap, m': Mem, h': Heap, size: nat)
    requires Inv(h') && Alloc(h, size).0 == h'
    requires forall x: nat | Outside(h'.blocks, x) :: Cell(m', x) == Cell(m, x)
    ensures KeepsData(m, h.blocks, m', h'.blocks, HeapModel.Op.Kmalloc(size))
  {
    hide Cell, Alloc, Tiled, Sized, NoTwoFree, Outside;
    AllocLive(h, size);
    forall b, a | OwnByte(h.blocks, b, a)
      ensures Outside(h'.blocks, a)
    {
      assert b in LiveBlocks(h'.blocks);
      PayloadOutside(h'.blocks, h'.start, h'.end, b, a);
    }
  }

  lemma FreeKeepsData(m: Mem, h: Heap, m': Mem, h': Heap, ptr: nat)
    requires Inv(h) && Inv(h') && h' == Free(h, ptr)
    requires ptr !in Payloads(h.blocks) ==> m' == m
    requires ptr in Payloads(h.blocks) && ptr >= HEADER_SIZE ==>
               forall x: nat | !In(ptr - HEADER_SIZE, x) && Outside(h'.blocks, x) :: Cell(m', x) == Cell(m, x)
    ensures KeepsData(m, h.blocks, m', h'.blocks, HeapModel.Op.Kfree(ptr))
  {
    hide Cell, Free, Tiled, Sized, NoTwoFree, Outside;
    FreeLive(h, ptr);
    FreePayloads(h, ptr);
    if ptr in Payloads(h.blocks) {
      var c :| c in LiveBlocks(h.blocks) && c.Payload() == ptr;
      SamePayloadSameBlock(h, c);
      forall b, a | OwnByte(h.blocks, b, a) && b.Payload() != ptr
        ensures b in LiveBlocks(h'.blocks) && !In(ptr - HEADER_SIZE, a) && Outside(h'.blocks, a)
      {
        LiveDisjoint(h, b, c);
        assert b in LiveBlocks(h'.blocks);
        PayloadOutside(h'.blocks, h'.start, h'.end, b, a);
      }
    }
  }

  lemma WriteKeepsData(m: Mem, head: nat, h: Heap, addr: nat, value: nat)
    requires Realises(m, head, h) && InLive(h.blocks, addr) && value < 256
    ensures Realises(m[addr := value], head, h)
    ensures KeepsData(m, h.blocks, m[addr := value], h.blocks, HeapModel.Op.Write(addr, value))
  {
    hide Linked, Tiled, Sized, NoTwoFree, Outside;
    var b :| b in LiveBlocks(h.blocks) && b.Payload() <= addr < b.End();
    PayloadOutside(h.blocks, h.start, h.end, b, addr);
    WriteLinked(m, head, h.blocks, addr, value);
  }

  lemma StartRun(h: Heap, ops: seq<Op>)
    ensures Run(h, ops[..0]) == h && forall a, v :: Written(ops[..0], a, v) == v
  {
  }

  lemma RunStep(h: Heap, ops: seq<Op>, n: nat)
    requires n < |ops|
    ensures Run(h, ops[..n + 1]) == Apply(Run(h, ops[..n]), ops[n])
  {
    assert ops[..n + 1][..n] == ops[..n];
  }

  /** A lawful operation is one the code follows. */
  lemma LawfulFollows(m: Mem, h: Heap, op: Op)
    requires Lawful(h, op)
    ensures Follows(m, h, op)
  {
  }

  lemma DataStep(m: Mem, bs: seq<Block>, ops: seq<Op>, n: nat, m1: Mem, bs1: seq<Block>, m2: Mem, bs2: seq<Block>)
    requires n < |ops| && KeepsData(m1, bs1, m2, bs2, ops[n])
    requires forall b, a | OwnByte(bs, b, a) && HeapModel.Op.Kfree(b.Payload()) !in ops[..n] ::
               b in LiveBlocks(bs1) && Cell(m1, a) == Written(ops[..n], a, Cell(m, a))
    ensures forall b, a | OwnByte(bs, b, a) && HeapModel.Op.Kfree(b.Payload()) !in ops[..n + 1] ::
              b in LiveBlocks(bs2) && Cell(m2, a) == Written(ops[..n + 1], a, Cell(m, a))
  {
    hide Cell;
    var more := ops[..n + 1];
    assert more[..n] == ops[..n] && more[n] == ops[n];
    forall b, a | OwnByte(bs, b, a) && HeapModel.Op.Kfree(b.Payload()) !in more
      ensures b in LiveBlocks(bs2) && Cell(m2, a) == Written(more, a, Cell(m, a))
    {
      assert HeapModel.Op.Kfree(b.Payload()) !in ops[..n] && OwnByte(bs1, b, a);
    }
  }

  /** A request beyond MAX_REQUEST is refused only when its growth wraps to a small positive one that does not fit. */
  predicate Refused(end: nat, max: nat, n: nat) {
    n > 0xFFFF_FFE8 && end + HEADER_SIZE + n - U32 > max
  }

  /** The block that a larger request gets otherwise: it starts at the old break and ends past heap_max. */
  ghost predicate PastMax(m: Mem, end: nat, max: nat, n: nat, p: nat) {
    p == end + HEADER_SIZE && HasMagic(m, end) && HeaderAt(m, end).size == n && p + n > max
  }

  lemma CutAt(bs: seq<Block>, i: nat, n: nat)
    requires i < |bs| && bs[i].size >= n
    ensures var cut := if bs[i].size >= n + HEADER_SIZE + MIN_BLOCK_SIZE then Split(bs, i, n) else bs;
            i < |cut| && cut[i].addr == bs[i].addr
  {
  }

  lemma FreeSteps(m: Mem, p: nat)
    ensures MergePrevWrites(MergeNextWrites(SetFree(m, p, true), p), p) == FreeWrites(m, p)
  {
  }

  lemma ReleasedLive(m: Mem, head: nat, h: Heap, ptr: nat)
    requires Realises(m, head, h) && FindLive(h.blocks, ptr) < |h.blocks| && HeaderOf(ptr) == ptr - HEADER_SIZE
    ensures var (r, g) := (FreeWrites(m, HeaderOf(ptr)), Free(h, ptr));
            && Realises(r, head, g) && Payloads(g.blocks) == Payloads(h.blocks) - {ptr}
            && ReadsFree(r, HeaderOf(ptr))
            && forall x: nat | !In(HeaderOf(ptr), x) && Outside(g.blocks, x) :: Cell(r, x) == Cell(m, x)
  {
    hide FreeWrites, Freed, HeaderAt, HasMagic, Cell, Linked, Tiled, Sized, NoTwoFree, ReadsFree;
    HeapSpan(h);
    FreePayloads(h, ptr);
    FreeKeeps(h, ptr);
    FreeLinked(m, head, h.blocks, h.start, h.end, FindLive(h.blocks, ptr));
  }

  /** How the requested growth reads as the int that kbrk takes. */
  lemma GrowthArithmetic(n: nat, end: nat)
    requires n % 8 == 0 && MIN_BLOCK_SIZE <= n < U32 && end <= 0x7000_0000
    ensures n <= MAX_REQUEST ==>
              AsInt(Wrap(HEADER_SIZE + n)) == HEADER_SIZE + n && Wrap(end + HEADER_SIZE + n) == end + HEADER_SIZE + n
    ensures MAX_REQUEST < n < 0xFFFF_FFE8 ==> AsInt(Wrap(HEADER_SIZE + n)) < 0
    ensures n == 0xFFFF_FFE8 ==> AsInt(Wrap(HEADER_SIZE + n)) == 0
    ensures n > 0xFFFF_FFE8 ==>
              && AsInt(Wrap(HEADER_SIZE + n)) == HEADER_SIZE + n - U32 > 0
              && Wrap(end + (HEADER_SIZE + n - U32)) == end + HEADER_SIZE + n - U32
  {
  }

  lemma RoundedCases(size: nat)
    requires size < U32
    ensures Rounded(size) % 8 == 0 && Rounded(size) >= MIN_BLOCK_SIZE
    ensures size <= MAX_REQUEST ==> size <= Rounded(size) <= MAX_REQUEST
    ensures MAX_REQUEST < size <= 0xFFFF_FFF8 ==> size <= Rounded(size) <= 0xFFFF_FFF8
    ensures size > 0xFFFF_FFF8 ==> Rounded(size) == 16
    ensures MAX_REQUEST < size <= 0xFFFF_FFE8 ==> Rounded(size) <= 0xFFFF_FFE8
    ensures 0xFFFF_FFE8 < size <= 0xFFFF_FFF8 ==> Rounded(size) >= 0xFFFF_FFF0
  {
  }

  /** The header that a split writes lands inside block i, clear of every header in the list. */
  lemma NoBlockInside(bs: seq<Block>, lo: nat, hi: nat, i: nat, n: nat)
    requires Tiled(bs, lo, hi) && i < |bs| && n >= MIN_BLOCK_SIZE && n + HEADER_SIZE + MIN_BLOCK_SIZE <= bs[i].size
    ensures forall k: nat | k < |bs| :: Far(bs[k].addr, bs[i].addr + HEADER_SIZE + n)
    ensures bs[i].addr + HEADER_SIZE + n <= hi
  {
    Bounds(bs, lo, hi, i);
    forall k: nat | k < |bs|
      ensures Far(bs[k].addr, bs[i].addr + HEADER_SIZE + n)
    {
      if k < i {
        AddressOrder(bs, lo, hi, k, i);
      } else if i < k {
        AddressOrder(bs, lo, hi, i, k);
      }
    }
  }

  // ---- A stale pointer that is not harmless ----

  /** The block lists of StaleHeader, step by step. */
  ghost function ThreeBlocks(s: nat): Heap {
    Heap(s, s + 128, s + HEAP_BYTES, [Block(s, 24, false), Block(s + 48, 16, false), Block(s + 88, 16, false)])
  }

  ghost function MiddleFree(s: nat): Heap {
    ThreeBlocks(s).(blocks := [Block(s, 24, false), Block(s + 48, 16, true), Block(s + 88, 16, false)])
  }

  ghost function Merged(s: nat): Heap {
    ThreeBlocks(s).(blocks := [Block(s, 64, true), Block(s + 88, 16, false)])
  }

  ghost function Reused(s: nat): Heap {
    ThreeBlocks(s).(blocks := [Block(s, 16, false), Block(s + 40, 24, true), Block(s + 88, 16, false)])
  }

  lemma StaleGrowth(s: nat)
    ensures var h := Heap(s, s, s + HEAP_BYTES, []);
            Alloc(Alloc(Alloc(h, 24).0, 16).0, 16) == (ThreeBlocks(s), s + 112)
    ensures var h := Heap(s, s, s + HEAP_BYTES, []);
            Alloc(h, 24).1 == s + 24 && Alloc(Alloc(h, 24).0, 16).1 == s + 72
  {
    hide FirstFit;
    var one := Alloc(Heap(s, s, s + HEAP_BYTES, []), 24).0;
    assert one.blocks == [Block(s, 24, false)];
    var two := Alloc(one, 16).0;
    assert two.blocks == [Block(s, 24, false), Block(s + 48, 16, false)];
    assert Alloc(two, 16).0.blocks == ThreeBlocks(s).blocks;
  }

  lemma StaleFrees(s: nat)
    ensures Free(ThreeBlocks(s), s + 72) == MiddleFree(s) && Free(MiddleFree(s), s + 24) == Merged(s)
  {
    hide FindLive;
    var a, b := ThreeBlocks(s).blocks, MiddleFree(s).blocks;
    assert FindLive(a, s + 72) == 1 by {
      assert !a[1].free && a[1].Payload() == s + 72;
    }
    assert FindLive(b, s + 24) == 0 by {
      assert !b[0].free && b[0].Payload() == s + 24;
    }
  }

  lemma StaleReuse(s: nat)
    ensures Alloc(Merged(s), 16) == (Reused(s), s + 24)
  {
    hide FirstFit;
    var bs := Merged(s).blocks;
    assert FirstFit(bs, 16) == 0 by {
      assert bs[0].free && bs[0].size >= 16;
    }
    assert Carve(bs, 0, 16) == Reused(s).blocks;
  }

  lemma StaleLive(s: nat)
    ensures s + 24 in Payloads(MiddleFree(s).blocks) && s + 72 in Payloads(ThreeBlocks(s).blocks)
    ensures s + 72 !in Payloads(Reused(s).blocks)
  {
    assert MiddleFree(s).blocks[0] in LiveBlocks(MiddleFree(s).blocks);
    assert ThreeBlocks(s).blocks[1] in LiveBlocks(ThreeBlocks(s).blocks);
  }

  /** Neither merging nor reuse writes where the header left at s + 48 keeps its magic. */
  lemma StaleMagic(m: Mem, r: Mem, s: nat, bs: seq<Block>)
    requires bs == Merged(s).blocks || bs == Reused(s).blocks
    requires HasMagic(m, s + 48) && forall x: nat | !In(s, x) && Outside(bs, x) :: Cell(r, x) == Cell(m, x)
    ensures HasMagic(r, s + 48)
  {
    hide Cell, At;
    forall x: nat | s + 64 <= x < s + 68
      ensures !In(s, x) && Outside(bs, x)
    {
    }
    WordSame(m, r, s + 64);
  }

  /** Reuse puts the low byte of s, which is 0, where that header keeps its free flag. */
  lemma StaleFlag(r: Mem, head: nat, s: nat)
    requires s % 256 == 0 && Linked(r, head, Reused(s).blocks)
    ensures !HeaderAt(r, s + 48).free
  {
    hide Cell, At, HasMagic;
    assert Node(r, Reused(s).blocks, 1);
    LowByte(r, s + 52);
  }

  lemma LowByte(m: Mem, a: nat)
    ensures At(m, a) % 256 == Cell(m, a)
  {
  }

  /** kmalloc(24), kmalloc(16), kmalloc(16) on a fresh heap. */
  method AllocateThree(heap: KernelHeap) returns (a: nat, b: nat, c: nat)
    requires heap.Valid() && heap.View() == Heap(heap.heapStart, heap.heapStart, heap.heapStart + HEAP_BYTES, [])
    modifies heap
    ensures heap.Valid() && heap.View() == ThreeBlocks(heap.heapStart) && heap.heapStart == old(heap.heapStart)
    ensures a == heap.heapStart + 24 && b == heap.heapStart + 72 && c == heap.heapStart + 112
  {
    hide Cell, Alloc, Realises, ThreeBlocks, Outside;
    StaleGrowth(heap.heapStart);
    a := heap.Kmalloc(24);
    b := heap.Kmalloc(16);
    c := heap.Kmalloc(16);
  }

  /** A second kfree is not harmless once the memory has been used again: kmalloc(24), kmalloc(16), kmalloc(16), then
      kfree of the second, kfree of the first and kmalloc(16) leave the second pointer dead, yet its old header has the
      magic and reads "used", so that kfree of it would write into the list. */
  method StaleHeader(kernelEnd: nat, memory: Mem) returns (heap: KernelHeap, b: nat)
    requires 0 < kernelEnd <= 0x6000_0000
    ensures heap.Valid() && b !in heap.Live() && Releases(heap.mem, b)
    ensures !Follows(heap.mem, heap.View(), HeapModel.Op.Kfree(b))
  {
    hide AlignUp, Cell, HeaderAt, HasMagic, Alloc, Free, FreeWrites, Inv, Linked, Outside, In, ThreeBlocks,
         MiddleFree, Merged, Reused, Payloads;
    heap := new KernelHeap(kernelEnd, memory);
    ghost var s := heap.heapStart;
    StaleFrees(s);
    StaleReuse(s);
    StaleLive(s);
    var a, c;
    a, b, c := AllocateThree(heap);
    var panicked := heap.Kfree(b);
    ghost var m := heap.mem;
    panicked := heap.Kfree(a);
    StaleMagic(m, heap.mem, s, Merged(s).blocks);
    m := heap.mem;
    a := heap.Kmalloc(16);
    StaleMagic(m, heap.mem, s, Reused(s).blocks);
    StaleFlag(heap.mem, heap.blockList, s);
  }
}
