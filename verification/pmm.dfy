/** The physical frame allocator (kernel/src/pmm.c): one bit per 4 KB frame. */
module Pmm {
  import opened Words

  const MAX_MEMORY: nat := 128 * 1024 * 1024
  const MAX_FRAMES: nat := 32768
  const BITMAP_SIZE: nat := 4096

  predicate BitSet(b: bv8, j: nat)
    requires j < 8
  {
    b & (1 << j) != 0
  }

  lemma SetOneBit(b: bv8, j: nat, k: nat)
    requires j < 8 && k < 8
    ensures BitSet(b | (1 << j), k) == (j == k || BitSet(b, k))
  {
  }

  lemma ClearOneBit(b: bv8, j: nat, k: nat)
    requires j < 8 && k < 8
    ensures BitSet(b & !(1 << j), k) == (j != k && BitSet(b, k))
  {
    var m: bv8, n: bv8 := 1 << j, 1 << k;
    OneHot(j);
    OneHot(k);
  }

  /** The eight masks are the eight powers of two. */
  lemma OneHot(j: nat)
    requires j < 8
    ensures (1 as bv8) << j == [1, 2, 4, 8, 16, 32, 64, 128][j]
  {
  }

  /** A byte whose eight bits are all set is 0xFF: what lets the scan skip whole bytes. */
  lemma FullByte(b: bv8)
    ensures b == 0xFF <==> forall j: nat | j < 8 :: BitSet(b, j)
  {
    forall j: nat | j < 8 && b == 0xFF
      ensures BitSet(b, j)
    {
      OneHot(j);
    }
    if forall j: nat | j < 8 :: BitSet(b, j) {
      OneHot(0); OneHot(1); OneHot(2); OneHot(3);
      OneHot(4); OneHot(5); OneHot(6); OneHot(7);
      assert BitSet(b, 0) && BitSet(b, 1) && BitSet(b, 2) && BitSet(b, 3);
      assert BitSet(b, 4) && BitSet(b, 5) && BitSet(b, 6) && BitSet(b, 7);
    }
  }

  /** Frames that pmm_mark_region_free clears, before the cut at total_frames. */
  predicate Frees(base: nat, length: nat, f: nat) {
    Pfn(AlignUp(base)) <= f < Pfn(Wrap(base + length))
  }

  /** Frames that pmm_mark_region_used sets, before the cut at total_frames. */
  predicate Reserves(base: nat, length: nat, f: nat) {
    Pfn(base) <= f < Pfn(AlignUp(Wrap(base + length)))
  }

  /** Frame f is among first, first + 1, ..., counted modulo 2^32. */
  predicate Reaches(first: nat, count: nat, f: nat) {
    first <= f < first + count || f + U32 < first + count
  }

  /** One Multiboot memory-map entry (section 3.3 of the Multiboot Specification 0.6.96). */
  datatype MapEntry = MapEntry(addrLow: nat, addrHigh: nat, lenLow: nat, lenHigh: nat, kind: nat)

  /** What the boot loader and the linker hand to pmm_init. */
  datatype BootInfo = BootInfo(hasMemory: bool, memUpper: nat, hasMap: bool, entries: seq<MapEntry>,
                               kernelStart: nat, kernelEnd: nat)
  {
    ghost predicate WordSized() {
      && memUpper < U32 && kernelStart <= kernelEnd && kernelEnd < U32
      && forall e | e in entries :: e.addrLow < U32 && e.addrHigh < U32 && e.lenLow < U32 && e.lenHigh < U32
    }

    function TotalMemory(): nat {
      if hasMemory then
        var t := Wrap(Wrap(memUpper + 1024) * 1024);
        if t > MAX_MEMORY then MAX_MEMORY else t
      else 16 * 1024 * 1024
    }

    /** Some available range covers frame f. */
    ghost predicate Offered(f: nat) {
      if hasMap then exists e :: e in entries && e.kind == 1 && Frees(e.addrLow, e.lenLow, f)
      else Frees(0x10_0000, Wrap(TotalMemory() - 0x10_0000), f)
    }

    ghost predicate KeptBack(f: nat) {
      || Reserves(0, 0x10_0000, f)
      || Reserves(kernelStart, Wrap(kernelEnd - kernelStart), f)
      || Reserves(kernelEnd, 0x1_0000, f)
    }
  }

  class FrameAllocator {
    const bitmap: array<bv8>
    var totalMemory: nat
    var totalFrames: nat
    var usedFrames: nat
    ghost var used: set<nat>

    ghost predicate Sized()
      reads this
    {
      bitmap.Length == BITMAP_SIZE && totalFrames <= MAX_FRAMES
    }

    predicate Test(frame: nat)
      requires bitmap.Length == BITMAP_SIZE && frame < MAX_FRAMES
      reads bitmap
    {
      BitSet(bitmap[frame / 8], frame % 8)
    }

    /** used holds exactly the frames below total_frames whose bit is set, the counter is its size,
        and every bit above total_frames stays set. */
    ghost predicate Valid()
      reads this, bitmap
    {
      && Sized()
      && (forall f | f in used :: f < totalFrames)
      && (forall f: nat {:trigger Test(f)} | f < MAX_FRAMES :: Test(f) <==> f in used || totalFrames <= f)
      && usedFrames == |used|
    }

    /** How far the single-frame scan looks: whole bytes only. */
    function ScanLimit(): nat
      reads this
    {
      totalFrames / 8 * 8
    }

    constructor ()
      ensures bitmap.Length == BITMAP_SIZE && fresh(bitmap)
    {
      bitmap := new bv8[BITMAP_SIZE];
      totalMemory, totalFrames, usedFrames, used := 0, 0, 0, {};
    }

    method BitmapSet(frame: nat)
      requires bitmap.Length == BITMAP_SIZE && frame < MAX_FRAMES
      modifies bitmap
      ensures forall f: nat | f < MAX_FRAMES :: Test(f) == (f == frame || old(Test(f)))
    {
      ghost var b := bitmap[frame / 8];
      bitmap[frame / 8] := bitmap[frame / 8] | (1 << (frame % 8));
      forall f: nat | f < MAX_FRAMES
        ensures Test(f) == (f == frame || old(Test(f)))
      {
        SetOneBit(b, frame % 8, f % 8);
      }
    }

    method BitmapClear(frame: nat)
      requires bitmap.Length == BITMAP_SIZE && frame < MAX_FRAMES
      modifies bitmap
      ensures forall f: nat | f < MAX_FRAMES :: Test(f) == (f != frame && old(Test(f)))
    {
      ghost var b := bitmap[frame / 8];
      bitmap[frame / 8] := bitmap[frame / 8] & !(1 << (frame % 8));
      forall f: nat | f < MAX_FRAMES
        ensures Test(f) == (f != frame && old(Test(f)))
      {
        ClearOneBit(b, frame % 8, f % 8);
      }
    }

    /** The byte-skipping scan: the lowest free frame among whole bytes, or -1 only if there is none. */
    method FindFree() returns (r: int)
      requires Sized()
      ensures -1 <= r < ScanLimit()
      ensures r >= 0 ==> !Test(r) && forall f: nat | f < r :: Test(f)
      ensures r < 0 ==> forall f: nat | f < ScanLimit() :: Test(f)
    {
      for i := 0 to totalFrames / 8
        invariant forall f: nat | f < 8 * i :: Test(f)
      {
        ByteBits(i);
        if bitmap[i] != 0xFF {
          r := ScanByte(i);
          return;
        }
      }
      return -1;
    }

    /** The inner loop of the scan, over one byte that has a clear bit. */
    method ScanByte(i: nat) returns (r: int)
      requires Sized() && i < totalFrames / 8
      requires exists f: nat :: 8 * i <= f < 8 * i + 8 && !Test(f)
      ensures 8 * i <= r < 8 * i + 8 && !Test(r)
      ensures forall f: nat | 8 * i <= f < r :: Test(f)
    {
      for j := 0 to 8
        invariant forall f: nat | 8 * i <= f < 8 * i + j :: Test(f)
      {
        var frame := i * 8 + j;
        if frame < totalFrames && !Test(frame) {
          return frame;
        }
      }
      assert false;
    }

    lemma ByteBits(i: nat)
      requires Sized() && i < BITMAP_SIZE
      ensures bitmap[i] == 0xFF <==> forall f: nat | 8 * i <= f < 8 * i + 8 :: Test(f)
    {
      FullByte(bitmap[i]);
      forall f: nat | 8 * i <= f < 8 * i + 8
        ensures Test(f) == BitSet(bitmap[i], f - 8 * i)
      {
      }
      forall j: nat | j < 8
        ensures Test(8 * i + j) == BitSet(bitmap[i], j)
      {
      }
    }

    /** count free frames starting at s. */
    ghost predicate FreeRun(s: nat, count: nat)
      requires Sized()
      reads this, bitmap
    {
      s + count <= totalFrames && forall f: nat | s <= f < s + count :: !Test(f)
    }

    /** The bit-by-bit scan: the lowest run of count free frames, or -1 only if no run exists. */
    method FindFreeRegion(count: nat) returns (r: int)
      requires Sized() && count > 0
      ensures -1 <= r < totalFrames
      ensures r >= 0 ==> FreeRun(r, count) && forall s: nat | s < r :: !FreeRun(s, count)
      ensures r < 0 ==> forall s: nat :: !FreeRun(s, count)
    {
      var consecutive, startFrame := 0, 0;
      for frame := 0 to totalFrames
        invariant consecutive < count && consecutive <= frame
        invariant consecutive > 0 ==> startFrame == frame - consecutive
        invariant forall f: nat | frame - consecutive <= f < frame :: !Test(f)
        invariant consecutive < frame ==> Test(frame - consecutive - 1)
        invariant forall s: nat | s + count <= frame :: !FreeRun(s, count)
      {
        if !Test(frame) {
          if consecutive == 0 {
            startFrame := frame;
          }
          consecutive := consecutive + 1;
          if consecutive >= count {
            return startFrame;
          }
          assert consecutive < frame + 1 ==> Test(frame - consecutive);
          assert forall s: nat | s + count == frame + 1 :: !FreeRun(s, count);
        } else {
          consecutive := 0;
        }
      }
      return -1;
    }

    /** The two scans agree on one frame when total_frames is a multiple of 8. */
    method ScansAgree() returns (one: int, region: int)
      requires Sized() && totalFrames % 8 == 0
      ensures one == region
    {
      one := FindFree();
      region := FindFreeRegion(1);
      if one >= 0 {
        assert FreeRun(one, 1);
      }
      if region >= 0 {
        assert !Test(region);
        assert forall s: nat | s < region :: !Test(s) ==> FreeRun(s, 1);
      }
    }

    /** Sets the bit of one frame, counting it if it was clear. */
    method SetFrame(frame: nat)
      requires Valid() && frame < totalFrames
      modifies this`usedFrames, this`used, bitmap
      ensures Valid() && used == old(used) + {frame}
    {
      if !Test(frame) {
        BitmapSet(frame);
        usedFrames := usedFrames + 1;
        used := used + {frame};
      }
    }

    /** Clears the bit of one frame, discounting it if it was set. */
    method ClearFrame(frame: nat)
      requires Valid() && frame < totalFrames
      modifies this`usedFrames, this`used, bitmap
      ensures Valid() && used == old(used) - {frame}
    {
      if Test(frame) {
        BitmapClear(frame);
        usedFrames := usedFrames - 1;
        used := used - {frame};
      }
    }

    /** The marking loop shared by allocation of many frames and by region marking. */
    method SetRange(first: nat, limit: nat)
      requires Valid() && limit <= totalFrames
      modifies this`usedFrames, this`used, bitmap
      ensures Valid() && forall f: nat :: f in used <==> f in old(used) || first <= f < limit
    {
      if first < limit {
        for frame := first to limit
          invariant Valid() && forall f: nat :: f in used <==> f in old(used) || first <= f < frame
        {
          SetFrame(frame);
        }
      }
    }

    /** The clearing loop shared by freeing of many frames and by region freeing. */
    method ClearRange(first: nat, limit: nat)
      requires Valid() && limit <= totalFrames
      modifies this`usedFrames, this`used, bitmap
      ensures Valid() && forall f: nat :: f in used <==> f in old(used) && !(first <= f < limit)
    {
      if first < limit {
        for frame := first to limit
          invariant Valid() && forall f: nat :: f in used <==> f in old(used) && !(first <= f < frame)
        {
          ClearFrame(frame);
        }
      }
    }

    lemma SetBitsAreUsed(limit: nat)
      requires Valid() && limit <= totalFrames
      requires forall f: nat | f < limit :: Test(f)
      ensures forall f: nat | f < limit :: f in used
    {
      forall f: nat | f < limit
        ensures f in used
      {
        assert Test(f);
      }
    }

    /** Marks the lowest scannable free frame and returns its address. 0 means that nothing was free,
        or that frame 0 itself was free: it is then taken although the caller is told otherwise. */
    method AllocFrame() returns (address: nat)
      requires Valid()
      modifies this`usedFrames, this`used, bitmap
      ensures Valid()
      ensures address == 0 ==>
                || (used == old(used) && forall f: nat | f < ScanLimit() :: f in used)
                || (0 !in old(used) && used == old(used) + {0})
      ensures address != 0 ==>
                && address % PAGE_SIZE == 0
                && Pfn(address) < ScanLimit()
                && Pfn(address) !in old(used)
                && used == old(used) + {Pfn(address)}
                && forall f: nat | f < Pfn(address) :: f in old(used)
    {
      var frame := FindFree();
      SetBitsAreUsed(if frame < 0 then ScanLimit() else frame);
      if frame < 0 {
        return 0;
      }
      SetFrame(frame);
      return frame * 4096;
    }

    method FreeFrame(address: nat)
      requires Valid()
      modifies this`usedFrames, this`used, bitmap
      ensures Valid() && used == old(used) - {Pfn(address)}
    {
      var frame := Pfn(address);
      if frame >= totalFrames {
        return;
      }
      ClearFrame(frame);
    }

    /** Takes the lowest run of count free frames, or changes nothing when no such run exists. */
    method AllocFrames(count: nat) returns (address: nat)
      requires Valid()
      modifies this`usedFrames, this`used, bitmap
      ensures Valid()
      ensures address == 0 ==>
                || (used == old(used) && (count == 0 || forall s: nat :: !FreeRun(s, count)))
                || (old(FreeRun(0, count)) && forall f: nat :: f in used <==> f in old(used) || f < count)
      ensures address != 0 ==>
                && count > 0
                && address % PAGE_SIZE == 0
                && old(FreeRun(Pfn(address), count))
                && (forall s: nat | s < Pfn(address) :: old(!FreeRun(s, count)))
                && forall f: nat :: f in used <==> f in old(used) || Pfn(address) <= f < Pfn(address) + count
    {
      if count == 0 {
        return 0;
      }
      var start := FindFreeRegion(count);
      if start < 0 {
        return 0;
      }
      forall s: nat | s < start
        ensures old(!FreeRun(s, count))
      {
        assert !FreeRun(s, count);
      }
      SetRange(start, start + count);
      return start * 4096;
    }

    /** Frees exactly the frames of the range, which may wrap past the last 32-bit frame number. */
    method FreeFrames(address: nat, count: nat)
      requires Valid() && address < U32 && count < U32
      modifies this`usedFrames, this`used, bitmap
      ensures Valid()
      ensures forall f: nat :: f in used <==> f in old(used) && !Reaches(Pfn(address), count, f)
    {
      var first := Pfn(address);
      for i := 0 to count
        invariant Valid()
        invariant forall f: nat :: f in used <==> f in old(used) && !Reaches(first, i, f)
      {
        var frame := Wrap(first + i);
        if frame < totalFrames {
          ClearFrame(frame);
        }
      }
    }

    method IsFrameAllocated(address: nat) returns (r: bool)
      requires Valid()
      ensures r == (Pfn(address) >= totalFrames || Pfn(address) in used)
    {
      if Pfn(address) >= totalFrames {
        return true;
      }
      return Test(Pfn(address));
    }

    method MarkFrameUsed(address: nat)
      requires Valid()
      modifies this`usedFrames, this`used, bitmap
      ensures Valid() && used == if Pfn(address) < totalFrames then old(used) + {Pfn(address)} else old(used)
    {
      var frame := Pfn(address);
      if frame < totalFrames {
        SetFrame(frame);
      }
    }

    method MarkRegionUsed(base: nat, length: nat)
      requires Valid()
      modifies this`usedFrames, this`used, bitmap
      ensures Valid()
      ensures forall f: nat :: f in used <==> f in old(used) || (f < totalFrames && Reserves(base, length, f))
    {
      var endFrame := Pfn(AlignUp(Wrap(base + length)));
      SetRange(Pfn(base), if endFrame < totalFrames then endFrame else totalFrames);
    }

    method MarkRegionFree(base: nat, length: nat)
      requires Valid()
      modifies this`usedFrames, this`used, bitmap
      ensures Valid()
      ensures forall f: nat :: f in used <==> f in old(used) && !Frees(base, length, f)
    {
      var endFrame := Pfn(Wrap(base + length));
      ClearRange(Pfn(AlignUp(base)), if endFrame < totalFrames then endFrame else totalFrames);
    }

    /** After boot a managed frame is free exactly when some range offers it and nothing keeps it back. */
    method Init(info: BootInfo)
      requires bitmap.Length == BITMAP_SIZE && info.WordSized()
      modifies this, bitmap
      ensures Valid()
      ensures totalMemory == info.TotalMemory() && totalFrames == totalMemory / PAGE_SIZE
      ensures forall f: nat | f < totalFrames :: f !in used <==> info.Offered(f) && !info.KeptBack(f)
    {
      ReserveAll(info);
      if info.hasMap {
        for k := 0 to |info.entries|
          invariant Valid() && totalMemory == info.TotalMemory() && totalFrames == totalMemory / PAGE_SIZE
          invariant forall f: nat | f < totalFrames ::
              f !in used <==> exists e :: e in info.entries[..k] && e.kind == 1 && Frees(e.addrLow, e.lenLow, f)
        {
          var e := info.entries[k];
          assert info.entries[..k + 1] == info.entries[..k] + [e];
          if e.kind == 1 {
            MarkRegionFree(e.addrLow, e.lenLow);
          }
        }
        assert info.entries[..|info.entries|] == info.entries;
      } else {
        MarkRegionFree(0x10_0000, Wrap(totalMemory - 0x10_0000));
      }
      assert forall f: nat | f < totalFrames :: f !in used <==> info.Offered(f);
      MarkRegionUsed(0, 0x10_0000);
      MarkRegionUsed(info.kernelStart, Wrap(info.kernelEnd - info.kernelStart));
      MarkRegionUsed(info.kernelEnd, 64 * 1024);
    }

    /** The first half of pmm_init: the size of memory is settled and every frame starts as used. */
    method ReserveAll(info: BootInfo)
      requires bitmap.Length == BITMAP_SIZE
      modifies this, bitmap
      ensures Valid()
      ensures totalMemory == info.TotalMemory() && totalFrames == totalMemory / PAGE_SIZE
      ensures forall f: nat :: f in used <==> f < totalFrames
    {
      for i := 0 to BITMAP_SIZE
        invariant forall k: nat | k < i :: bitmap[k] == 0xFF
      {
        bitmap[i] := 0xFF;
      }
      if info.hasMemory {
        totalMemory := Wrap(Wrap(info.memUpper + 1024) * 1024);
        if totalMemory > MAX_MEMORY {
          totalMemory := MAX_MEMORY;
        }
      } else {
        totalMemory := 16 * 1024 * 1024;
      }
      totalFrames := totalMemory / PAGE_SIZE;
      usedFrames := totalFrames;
      used := Span(0, totalFrames);
      SpanSize(totalFrames);
      AllSetAtBoot();
    }

    lemma AllSetAtBoot()
      requires Sized() && forall k: nat | k < BITMAP_SIZE :: bitmap[k] == 0xFF
      ensures forall f: nat | f < MAX_FRAMES :: Test(f)
    {
    }
  }

  lemma SpanSize(n: nat)
    ensures |Span(0, n)| == n
  {
    if n == 0 {
      assert Span(0, n) == {};
    } else {
      SpanSize(n - 1);
      assert Span(0, n) == Span(0, n - 1) + {n - 1};
    }
  }

  /** The frames a, a+1, ..., b-1. */
  ghost function Span(a: nat, b: nat): set<nat> {
    set f: nat | f < b && Within(a, f, b)
  }

  predicate Within(a: nat, f: nat, b: nat) {
    a <= f < b
  }

  /** Frame f lies wholly inside the range an entry describes. */
  predicate Inside(e: MapEntry, f: nat) {
    && e.addrHigh * U32 + e.addrLow <= f * PAGE_SIZE
    && (f + 1) * PAGE_SIZE <= e.addrHigh * U32 + e.addrLow + e.lenHigh * U32 + e.lenLow
  }

  /** What a 32-bit entry must satisfy for the boot code to free exactly the frames inside it. */
  predicate EntryExact(e: MapEntry, total: nat) {
    if e.addrLow <= 0xFFFF_F000 then
      e.addrLow + e.lenLow < U32 || total * PAGE_SIZE <= e.addrLow + 4095
    else
      U32 <= e.addrLow + e.lenLow < U32 + PAGE_SIZE
  }

  /** For a 32-bit entry, "freed" and "wholly inside" agree on all managed frames iff EntryExact holds. */
  lemma EntryFreesExactlyItsFrames(e: MapEntry, total: nat)
    requires e.addrHigh == 0 && e.lenHigh == 0 && e.addrLow < U32 && e.lenLow < U32
    requires 0 < total <= MAX_FRAMES
    ensures EntryExact(e, total) <==> forall f: nat | f < total :: Frees(e.addrLow, e.lenLow, f) <==> Inside(e, f)
  {
    if !EntryExact(e, total) {
      var f := if e.addrLow <= 0xFFFF_F000 then (e.addrLow + 4095) / 4096 else 0;
      assert f < total && Frees(e.addrLow, e.lenLow, f) != Inside(e, f);
    }
  }

  /** An entry that starts in the last page, off its boundary, frees every frame of the machine. */
  lemma LastPageEntryFreesEverything(f: nat)
    requires f < MAX_FRAMES
    ensures Frees(0xFFFF_F800, 0x400, f) && !Inside(MapEntry(0xFFFF_F800, 0, 0x400, 0, 1), f)
  {
  }

  /** The memory map, read geometrically: what the boot contract means when every available entry is exact. */
  lemma BootMapMeaning(info: BootInfo, total: nat, f: nat)
    requires info.WordSized() && info.hasMap && 0 < total <= MAX_FRAMES && f < total
    requires info.kernelEnd + 0x1_0FFF < U32
    requires forall e | e in info.entries && e.kind == 1 :: e.addrHigh == 0 && e.lenHigh == 0 && EntryExact(e, total)
    ensures (info.Offered(f) && !info.KeptBack(f)) <==>
            && (exists e :: e in info.entries && e.kind == 1 && Inside(e, f))
            && 0x10_0000 <= f * PAGE_SIZE
            && ((f + 1) * PAGE_SIZE <= info.kernelStart || info.kernelEnd + 0x1_0000 <= f * PAGE_SIZE)
  {
    forall e | e in info.entries && e.kind == 1
      ensures Frees(e.addrLow, e.lenLow, f) <==> Inside(e, f)
    {
      EntryFreesExactlyItsFrames(e, total);
    }
    KeptBackMeaning(info, f);
  }

  lemma KeptBackMeaning(info: BootInfo, f: nat)
    requires info.WordSized() && info.kernelEnd + 0x1_0FFF < U32
    ensures info.KeptBack(f) <==>
            || f * PAGE_SIZE < 0x10_0000
            || (info.kernelStart < (f + 1) * PAGE_SIZE && f * PAGE_SIZE < info.kernelEnd + 0x1_0000)
  {
    ReservesMeaning(0, 0x10_0000, f);
    ReservesMeaning(info.kernelStart, info.kernelEnd - info.kernelStart, f);
    ReservesMeaning(info.kernelEnd, 0x1_0000, f);
  }

  /** A reserved region takes every frame it touches. */
  lemma ReservesMeaning(base: nat, length: nat, f: nat)
    requires base + length + 4095 < U32
    ensures Wrap(length) == length
    ensures Reserves(base, length, f) <==> base < (f + 1) * PAGE_SIZE && f * PAGE_SIZE < base + length
  {
    PageBounds(base, f);
    PageBounds(base + length, f);
  }

  lemma PageBounds(x: nat, f: nat)
    requires x + 4095 < U32
    ensures Wrap(x) == x
    ensures f < Pfn(AlignUp(x)) <==> f * PAGE_SIZE < x
    ensures Pfn(x) <= f <==> x < (f + 1) * PAGE_SIZE
  {
  }

  /** Without a memory map the frames from 1 MB to the end of memory are offered, whatever memory size was reported. */
  lemma FallbackMeaning(info: BootInfo, f: nat)
    requires info.WordSized() && !info.hasMap && f < info.TotalMemory() / PAGE_SIZE
    ensures info.Offered(f) <==> 0x10_0000 <= f * PAGE_SIZE && (f + 1) * PAGE_SIZE <= info.TotalMemory()
  {
  }

  /** The memory that the boot loader reports, in bytes. */
  function Reported(info: BootInfo): nat {
    (info.memUpper + 1024) * 1024
  }

  /** total_memory is what was reported, cut at 128 MB, exactly when the bytes stay within 32 bits or wrap to 128 MB and
      more; without a report it is 16 MB. */
  lemma TotalMemoryMeaning(info: BootInfo)
    requires info.WordSized()
    ensures !info.hasMemory ==> info.TotalMemory() == 0x100_0000
    ensures info.hasMemory ==>
              (info.TotalMemory() == (if Reported(info) < 0x800_0000 then Reported(info) else 0x800_0000)
               <==> Reported(info) < U32 || Reported(info) % U32 >= 0x800_0000)
  {
    if info.hasMemory {
      WrapTwice(info.memUpper);
    }
  }

  lemma WrapTwice(memUpper: nat)
    requires memUpper < U32
    ensures Wrap(Wrap(memUpper + 1024) * 1024) == (memUpper + 1024) * 1024 % U32
  {
    var x := memUpper + 1024;
    if x >= U32 {
      assert Wrap(x) == x - U32;
      WrapShift((x - U32) * 1024, 1024);
    }
  }

  lemma {:induction false} WrapShift(y: nat, k: nat)
    ensures (y + k * U32) % U32 == y % U32
  {
    if k > 0 {
      WrapShift(y, k - 1);
      assert (y + (k - 1) * U32 + U32) % U32 == (y + (k - 1) * U32) % U32;
    }
  }

  /** Reporting 4 GB and a little wraps: 4 MB are found. */
  lemma TotalMemoryWraps(info: BootInfo)
    requires info.hasMemory && info.memUpper == 0x40_0C00
    ensures Reported(info) == U32 + 0x40_0000 && info.TotalMemory() == 0x40_0000
  {
  }

  /** The i-th frame number of a loop that starts at first and counts in 32 bits. */
  predicate Nth(first: nat, i: nat, f: nat) {
    Wrap(first + i) == f
  }

  /** Reaches says which frames such a loop visits in count turns. */
  lemma ReachesMeaning(first: nat, count: nat, f: nat)
    requires first < U32 && count <= U32 && f < U32
    ensures Reaches(first, count, f) <==> exists i: nat :: i < count && Nth(first, i, f)
  {
    if Reaches(first, count, f) {
      assert Nth(first, if first <= f then f - first else f + U32 - first, f);
    }
    if i: nat :| i < count && Nth(first, i, f) {
      assert first + i < 2 * U32;
    }
  }
}
