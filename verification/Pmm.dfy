/**
 The physical frame allocator: a bitmap with one bit per frame, scanned linearly, set up from the
 memory map the boot loader passes. The number of bits in a word, and with it the address width, is
 a parameter.
 */
module Pmm {
  import opened Bits
  import opened Frames

  // ---- the bitmap as a set of frames ---------------------------------------------------------------

  ghost predicate Covers(words: seq<nat>, width: nat, total: nat) {
    width > 0 && total <= width * |words|
  }

  ghost function Held(words: seq<nat>, width: nat, total: nat): set<nat>
    requires Covers(words, width, total)
  {
    set f: nat | f < total && (f / width < |words| && Test(words, width, f))
  }

  lemma HeldIs(words: seq<nat>, width: nat, total: nat, f: nat)
    requires Covers(words, width, total) && f < total
    ensures f / width < |words| && (f in Held(words, width, total) <==> Test(words, width, f))
  {
    WordInRange(f, width, |words|);
  }

  /** Writing one bit adds or removes one frame, and the count of set bits follows. */
  lemma HeldMark(words: seq<nat>, width: nat, total: nat, f: nat, v: bool)
    requires Covers(words, width, total) && f < total
    ensures f / width < |words|
    ensures Covers(Mark(words, width, f, v), width, total)
    ensures Held(Mark(words, width, f, v), width, total)
         == if v then Held(words, width, total) + {f} else Held(words, width, total) - {f}
    ensures Count(Mark(words, width, f, v), width, total)
         == Count(words, width, total) + (if v then 1 else 0) - (if f in Held(words, width, total) then 1 else 0)
  {
    hide Test, Mark;
    HeldIs(words, width, total, f);
    MarkCovers(words, width, f, v);
    CountMark(words, width, total, f, v);
    forall g: nat | g < total
      ensures g in Held(Mark(words, width, f, v), width, total) <==>
        if g == f then v else g in Held(words, width, total)
    {
      HeldIs(words, width, total, g);
      HeldIs(Mark(words, width, f, v), width, total, g);
      MarkReads(words, width, f, v, g);
    }
  }

  lemma MarkCovers(words: seq<nat>, width: nat, f: nat, v: bool)
    requires width > 0 && f / width < |words|
    ensures |Mark(words, width, f, v)| == |words|
  {
  }

  /** The counter is right when no bit, or every bit, is set. */
  lemma HeldAll(words: seq<nat>, width: nat, total: nat)
    requires Covers(words, width, total) && Held(words, width, total) == Range(0, total)
    ensures Count(words, width, total) == total
  {
    CountFull(words, width, total);
    forall m: nat | m < total && m / width < |words|
      ensures Test(words, width, m)
    {
      assert m in Held(words, width, total);
    }
  }

  // ---- the memory map ------------------------------------------------------------------------------

  const WORD64: nat := 0x1_0000_0000_0000_0000

  datatype MapEntry = MapEntry(addr: nat, len: nat, available: bool)

  predicate EntryOk(e: MapEntry) { e.addr < WORD64 && e.len < WORD64 }

  /** How wide the machine is: bits per bitmap word, and the top address it can use, if it is limited. */
  datatype Machine = Machine(width: nat, word: nat, ceiling: nat)

  /** mm/pmm.c clips everything at 0xFFFFFFFF; arthic64/mm/pmm.c does not clip. */
  const Pmm32: Machine := Machine(32, 0x1_0000_0000, 0xFFFF_FFFF)
  const Pmm64: Machine := Machine(64, WORD64, WORD64)

  predicate MachineOk(m: Machine) {
    && m.width > 0 && m.width % 8 == 0 && 0 < m.ceiling <= m.word <= WORD64 && m.word % PAGE_SIZE == 0
    && m.word < m.ceiling + PAGE_SIZE
  }

  function Min(a: nat, b: nat): nat { if a <= b then a else b }

  /** The 64-bit end of an entry. */
  function EndOf(e: MapEntry): nat { (e.addr + e.len) % WORD64 }

  function Highest(entries: seq<MapEntry>): nat {
    if entries == [] then 0
    else
      var rest, last := Highest(entries[..|entries| - 1]), entries[|entries| - 1];
      if last.available && EndOf(last) > rest then EndOf(last) else rest
  }

  function TotalFrames(m: Machine, entries: seq<MapEntry>): nat { Min(Highest(entries), m.ceiling) / PAGE_SIZE }

  /** Unsigned arithmetic of the machine. */
  function Wrapped(a: nat, word: nat): nat
    requires word > 0
  {
    a % word
  }

  lemma WrappedOnce(a: nat, word: nat)
    requires 0 < word && a < word + word
    ensures Wrapped(a, word) == if a < word then a else a - word
  {
  }

  /** The frames mark_region visits, before the cut at total_frames. */
  function FirstFrame(base: nat): nat { base / PAGE_SIZE }

  function LastFrame(m: Machine, base: nat, length: nat): nat
    requires m.word > 0
  {
    Wrapped(base + length + PAGE_SIZE - 1, m.word) / PAGE_SIZE
  }

  function Region(m: Machine, base: nat, length: nat): set<nat>
    requires m.word > 0
  {
    Range(FirstFrame(base), LastFrame(m, base, length))
  }

  /** The length passed on for an entry: clipped to the ceiling. */
  function Clipped(m: Machine, e: MapEntry): nat
    requires e.addr < m.ceiling && m.word > 0
  {
    if EndOf(e) > m.ceiling then m.ceiling - e.addr else Wrapped(e.len, m.word)
  }

  /** The frames that freeing the entry makes available. */
  function Freed(m: Machine, e: MapEntry): set<nat>
    requires m.word > 0
  {
    if e.available && e.addr < m.ceiling then Region(m, e.addr, Clipped(m, e)) else {}
  }

  function FreedBy(m: Machine, entries: seq<MapEntry>): set<nat>
    requires m.word > 0
  {
    if entries == [] then {} else FreedBy(m, entries[..|entries| - 1]) + Freed(m, entries[|entries| - 1])
  }

  const KERNEL_START: nat := 0x100000

  function BitmapAddr(m: Machine, kernelEnd: nat): nat
    requires m.word > 0
  {
    Wrapped(kernelEnd + PAGE_SIZE - 1, m.word) / PAGE_SIZE * PAGE_SIZE
  }

  function BitmapBytes(total: nat): nat { (total + 7) / 8 }

  /** The bitmap starts at the first page boundary from the end of the kernel on, and has a bit for every frame. */
  lemma BitmapPlace(m: Machine, kernelEnd: nat, total: nat)
    requires m.word > 0 && kernelEnd + PAGE_SIZE - 1 < m.word
    ensures kernelEnd <= BitmapAddr(m, kernelEnd) < kernelEnd + PAGE_SIZE && BitmapAddr(m, kernelEnd) % PAGE_SIZE == 0
    ensures total <= 8 * BitmapBytes(total) < total + 8
  {
    assert (kernelEnd + PAGE_SIZE - 1) % m.word == kernelEnd + PAGE_SIZE - 1;
  }

  /** Low memory, the kernel and the bitmap. */
  function Ours(m: Machine, kernelEnd: nat, total: nat): set<nat>
    requires m.word > 0 && kernelEnd >= KERNEL_START
  {
    Region(m, 0, KERNEL_START) + Region(m, KERNEL_START, kernelEnd - KERNEL_START)
    + Region(m, BitmapAddr(m, kernelEnd), BitmapBytes(total))
  }

  /** What pmm_init leaves in use. */
  function Initially(m: Machine, entries: seq<MapEntry>, kernelEnd: nat): set<nat>
    requires m.word > 0 && kernelEnd >= KERNEL_START
  {
    var total := TotalFrames(m, entries);
    (Range(0, total) - FreedBy(m, entries)) + Ours(m, kernelEnd, total) * Range(0, total)
  }

  // ---- what the set-up amounts to --------------------------------------------------------------------

  /** A byte of frame f. */
  predicate InFrame(f: nat, a: nat) { f * PAGE_SIZE <= a < (f + 1) * PAGE_SIZE }

  /** Without a wrap of the rounded end, mark_region covers exactly the frames its range touches. */
  lemma RegionTouches(m: Machine, base: nat, length: nat, f: nat)
    requires MachineOk(m) && base + length + PAGE_SIZE - 1 < m.word && length > 0
    ensures f in Region(m, base, length) <==> exists a :: base <= a < base + length && InFrame(f, a)
  {
    hide Wrapped;
    WrappedOnce(base + length + PAGE_SIZE - 1, m.word);
    var end := base + length;
    if f in Region(m, base, length) {
      var a := if base >= f * PAGE_SIZE then base else f * PAGE_SIZE;
      assert InFrame(f, a);
    }
  }

  /** With a wrap it covers nothing. */
  lemma RegionWraps(m: Machine, base: nat, length: nat)
    requires MachineOk(m) && base < m.word && base + length <= m.word <= base + length + PAGE_SIZE - 1
    ensures Region(m, base, length) == {}
  {
    hide Wrapped;
    WrappedOnce(base + length + PAGE_SIZE - 1, m.word);
    assert LastFrame(m, base, length) == 0;
  }

  /** All of frame f lies inside the range. */
  predicate Whole(f: nat, base: nat, length: nat) { base <= f * PAGE_SIZE && (f + 1) * PAGE_SIZE <= base + length }

  /** Rounding outward is used for freeing too: frames that are only partly RAM become free, except
      when both ends of the range are page boundaries. */
  lemma FreesOnlyWholeFrames(m: Machine, base: nat, length: nat)
    requires MachineOk(m) && base + length + PAGE_SIZE - 1 < m.word
    ensures (forall f :: f in Region(m, base, length) ==> Whole(f, base, length))
       <==> base % PAGE_SIZE == 0 && (base + length) % PAGE_SIZE == 0
  {
    hide Wrapped;
    WrappedOnce(base + length + PAGE_SIZE - 1, m.word);
    var end := base + length;
    var first, last := FirstFrame(base), LastFrame(m, base, length);
    if base % PAGE_SIZE != 0 {
      assert first in Region(m, base, length) && !Whole(first, base, length);
    } else if end % PAGE_SIZE != 0 {
      assert last - 1 in Region(m, base, length) && !Whole(last - 1, base, length);
    }
  }

  /** One entry running up to the top of the 32-bit address space frees nothing at all. */
  lemma TopOfMemoryLost()
    ensures MachineOk(Pmm32) && Freed(Pmm32, MapEntry(0x100000, 0xFFF0_0000, true)) == {}
    ensures TotalFrames(Pmm32, [MapEntry(0x100000, 0xFFF0_0000, true)]) == 0xFFFFF
  {
    var e := MapEntry(0x100000, 0xFFF0_0000, true);
    assert EndOf(e) == 0x1_0000_0000 && Clipped(Pmm32, e) == 0xFFEF_FFFF;
    RegionWraps(Pmm32, 0x100000, 0xFFEF_FFFF);
    assert [e][..0] == [];
    assert Highest([e][..0]) == 0;
  }

  /** The kernel and its bitmap fit in the address space. */
  predicate Fits(m: Machine, kernelEnd: nat, total: nat) {
    KERNEL_START < kernelEnd && kernelEnd + 2 * PAGE_SIZE + BitmapBytes(total) < m.word
  }

  /** Every byte of low memory, of the kernel and of the bitmap is in a frame that stays used,
      frame 0 among them, whatever the memory map says. */
  lemma ProtectsItself(m: Machine, entries: seq<MapEntry>, kernelEnd: nat, f: nat, a: nat)
    requires MachineOk(m) && Fits(m, kernelEnd, TotalFrames(m, entries))
    requires InFrame(f, a) && f < TotalFrames(m, entries)
    requires a < kernelEnd || 0 <= a - BitmapAddr(m, kernelEnd) < BitmapBytes(TotalFrames(m, entries))
    ensures f in Initially(m, entries, kernelEnd)
  {
    hide Wrapped, TotalFrames, Region, InFrame;
    WrappedOnce(kernelEnd + PAGE_SIZE - 1, m.word);
    var total := TotalFrames(m, entries);
    var at := BitmapAddr(m, kernelEnd);
    assert at <= kernelEnd + PAGE_SIZE - 1;
    if a < KERNEL_START {
      RegionTouches(m, 0, KERNEL_START, f);
    } else if a < kernelEnd {
      RegionTouches(m, KERNEL_START, kernelEnd - KERNEL_START, f);
    } else {
      RegionTouches(m, at, BitmapBytes(total), f);
    }
  }

  // ---- which frames are free after pmm_init -------------------------------------------------------------

  /** The entry has a byte in frame f. An entry without bytes that starts inside a frame counts as well: it is
      rounded outward like any other. */
  ghost predicate Claims(e: MapEntry, f: nat) {
    || (exists a :: e.addr <= a < e.addr + e.len && InFrame(f, a))
    || (e.len == 0 && e.addr % PAGE_SIZE != 0 && InFrame(f, e.addr))
  }

  /** The end of the entry, rounded up to a page, is an address of the machine. An entry that reaches beyond the
      ceiling is not of this kind: it is clipped to an end that wraps when it is rounded up. */
  predicate Reachable(m: Machine, e: MapEntry) { e.addr + e.len + PAGE_SIZE - 1 < m.word }

  lemma EmptyRegion(m: Machine, base: nat, f: nat)
    requires MachineOk(m) && base + PAGE_SIZE - 1 < m.word
    ensures f in Region(m, base, 0) <==> base % PAGE_SIZE != 0 && InFrame(f, base)
  {
    hide Wrapped;
    WrappedOnce(base + PAGE_SIZE - 1, m.word);
  }

  /** What one entry frees: nothing unless it is available and within reach, and then exactly the frames it claims. */
  lemma EntryFrees(m: Machine, e: MapEntry, f: nat)
    requires MachineOk(m) && e.addr + e.len < WORD64
    ensures f in Freed(m, e) <==> e.available && Reachable(m, e) && Claims(e, f)
  {
    hide Wrapped, Region, InFrame;
    assert EndOf(e) == e.addr + e.len;
    if e.available && e.addr < m.ceiling {
      if e.addr + e.len > m.ceiling {
        RegionWraps(m, e.addr, m.ceiling - e.addr);
      } else if Reachable(m, e) {
        WrappedOnce(e.len, m.word);
        if e.len == 0 {
          EmptyRegion(m, e.addr, f);
        } else {
          RegionTouches(m, e.addr, e.len, f);
        }
      } else {
        TopEntry(m, e);
      }
    }
  }

  lemma TopEntry(m: Machine, e: MapEntry)
    requires MachineOk(m) && !Reachable(m, e) && e.addr < m.ceiling && e.addr + e.len <= m.ceiling
    ensures Region(m, e.addr, Wrapped(e.len, m.word)) == {}
  {
    hide Wrapped;
    WrappedOnce(e.len, m.word);
    WrappedOnce(e.addr + Wrapped(e.len, m.word) + PAGE_SIZE - 1, m.word);
  }

  lemma {:induction false} SomeEntryFrees(m: Machine, entries: seq<MapEntry>, f: nat)
    requires m.word > 0
    ensures f in FreedBy(m, entries) <==> exists e :: e in entries && f in Freed(m, e)
  {
    hide Freed;
    if entries != [] {
      var n := |entries| - 1;
      SomeEntryFrees(m, entries[..n], f);
      assert entries == entries[..n] + [entries[n]];
      assert entries[n] in entries;
      if f in FreedBy(m, entries[..n]) {
        var e :| e in entries[..n] && f in Freed(m, e);
        assert e in entries;
      }
    }
  }

  /** A byte of frame f is low memory, the kernel's or the bitmap's. */
  ghost predicate Reserved(m: Machine, kernelEnd: nat, total: nat, f: nat)
    requires m.word > 0
  {
    exists a: nat :: InFrame(f, a)
      && (a < kernelEnd || 0 <= a - BitmapAddr(m, kernelEnd) < BitmapBytes(total))
  }

  lemma OursIs(m: Machine, kernelEnd: nat, total: nat, f: nat)
    requires MachineOk(m) && Fits(m, kernelEnd, total) && f < total
    ensures f in Ours(m, kernelEnd, total) <==> Reserved(m, kernelEnd, total, f)
  {
    hide Wrapped, Region, InFrame;
    WrappedOnce(kernelEnd + PAGE_SIZE - 1, m.word);
    var at := BitmapAddr(m, kernelEnd);
    assert at <= kernelEnd + PAGE_SIZE - 1;
    RegionTouches(m, 0, KERNEL_START, f);
    RegionTouches(m, KERNEL_START, kernelEnd - KERNEL_START, f);
    RegionTouches(m, at, BitmapBytes(total), f);
  }

  /** Some available entry within reach has a byte in frame f, and the kernel has none. */
  ghost predicate FreeAtFirst(m: Machine, entries: seq<MapEntry>, kernelEnd: nat, total: nat, f: nat)
    requires m.word > 0
  {
    && (exists e :: e in entries && e.available && Reachable(m, e) && Claims(e, f))
    && !Reserved(m, kernelEnd, total, f)
  }

  /** Which frames pmm_init leaves free, for every memory map whose entries end below 2^64. */
  lemma FreeExactly(m: Machine, entries: seq<MapEntry>, kernelEnd: nat, f: nat)
    requires MachineOk(m) && Fits(m, kernelEnd, TotalFrames(m, entries)) && f < TotalFrames(m, entries)
    requires forall e :: e in entries ==> e.addr + e.len < WORD64
    ensures f !in Initially(m, entries, kernelEnd) <==>
      FreeAtFirst(m, entries, kernelEnd, TotalFrames(m, entries), f)
  {
    hide Freed, FreedBy, Ours, Claims, Reserved, TotalFrames;
    SomeEntryFrees(m, entries, f);
    OursIs(m, kernelEnd, TotalFrames(m, entries), f);
    forall e | e in entries
      ensures f in Freed(m, e) <==> e.available && Reachable(m, e) && Claims(e, f)
    {
      EntryFrees(m, e, f);
    }
  }

  /** A frame in which no available entry has a byte (a device, a hole in the map) is never handed out. */
  lemma UnclaimedForever(m: Machine, entries: seq<MapEntry>, kernelEnd: nat, ops: seq<Op>, f: nat)
    requires MachineOk(m) && Fits(m, kernelEnd, TotalFrames(m, entries)) && f < TotalFrames(m, entries)
    requires forall e :: e in entries ==> e.addr + e.len < WORD64 && (e.available ==> !Claims(e, f))
    requires Disciplined(Pool(TotalFrames(m, entries), Initially(m, entries, kernelEnd), {}), ops)
    ensures var end := Run(Pool(TotalFrames(m, entries), Initially(m, entries, kernelEnd), {}), ops);
            f in end.used && f !in end.given
  {
    hide TotalFrames, Run, Disciplined, Initially, BitmapAddr, InFrame, Claims, Reserved;
    var start := Pool(TotalFrames(m, entries), Initially(m, entries, kernelEnd), {});
    FreeExactly(m, entries, kernelEnd, f);
    ZeroFrame();
    ProtectsItself(m, entries, kernelEnd, 0, 0);
    assert Accounted(start, Initially(m, entries, kernelEnd));
    RunAccounted(start, ops, Initially(m, entries, kernelEnd));
  }

  /** From pmm_init on, in every run that frees only what it was given: low memory, the kernel and the
      bitmap are never handed out, and the used frames are those left out by pmm_init plus those given. */
  lemma ProtectedForever(m: Machine, entries: seq<MapEntry>, kernelEnd: nat, ops: seq<Op>, f: nat, a: nat)
    requires MachineOk(m) && Fits(m, kernelEnd, TotalFrames(m, entries))
    requires InFrame(f, a) && f < TotalFrames(m, entries)
    requires a < kernelEnd || 0 <= a - BitmapAddr(m, kernelEnd) < BitmapBytes(TotalFrames(m, entries))
    requires Disciplined(Pool(TotalFrames(m, entries), Initially(m, entries, kernelEnd), {}), ops)
    ensures var end := Run(Pool(TotalFrames(m, entries), Initially(m, entries, kernelEnd), {}), ops);
            && Accounted(end, Initially(m, entries, kernelEnd)) && f in end.used && f !in end.given
  {
    hide TotalFrames, Run, Disciplined, Initially, BitmapAddr, InFrame;
    var start := Pool(TotalFrames(m, entries), Initially(m, entries, kernelEnd), {});
    ZeroFrame();
    ProtectsItself(m, entries, kernelEnd, f, a);
    ProtectsItself(m, entries, kernelEnd, 0, 0);
    assert Accounted(start, Initially(m, entries, kernelEnd));
    RunAccounted(start, ops, Initially(m, entries, kernelEnd));
  }

  lemma ZeroFrame()
    ensures InFrame(0, 0)
  {
  }

  // ---- steps of the methods --------------------------------------------------------------------------

  /** The first pass of pmm_init. */
  method FindHighest(entries: seq<MapEntry>) returns (highest: nat)
    ensures highest == Highest(entries) < WORD64
    ensures forall e :: e in entries && e.available ==> EndOf(e) <= highest
    ensures highest > 0 ==> exists e :: e in entries && e.available && EndOf(e) == highest
  {
    highest := 0;
    for i := 0 to |entries|
      invariant highest == Highest(entries[..i]) < WORD64
      invariant forall j :: 0 <= j < i && entries[j].available ==> EndOf(entries[j]) <= highest
      invariant highest > 0 ==> exists e :: e in entries && e.available && EndOf(e) == highest
    {
      assert entries[..i + 1][..i] == entries[..i];
      var end := (entries[i].addr + entries[i].len) % WORD64;
      if entries[i].available && end > highest {
        highest := end;
      }
    }
    assert entries[..|entries|] == entries;
  }

  lemma LowestIs(used: set<nat>, total: nat)
    ensures forall f :: 0 <= f < total && f !in used && (forall g :: 0 <= g < f ==> g in used) ==>
      Lowest(used, total, 0) == f
    ensures (forall g :: 0 <= g < total ==> g in used) ==> Lowest(used, total, 0) == total
  {
  }

  /** The scan of pmm_alloc_frames has a run of `length` free frames behind it, and no earlier one. */
  ghost predicate Scanning(used: set<nat>, total: nat, count: nat, start: nat, length: nat) {
    FreeRun(used, total, start, length) && forall g :: 0 <= g < start ==> !FreeRun(used, total, g, count)
  }

  lemma ScanStart(used: set<nat>, total: nat, count: nat)
    ensures Scanning(used, total, count, 0, 0)
  {
  }

  lemma ScanStep(used: set<nat>, total: nat, count: nat, start: nat, length: nat)
    requires Scanning(used, total, count, start, length) && length < count && start + length < total
    ensures start + length in used ==> Scanning(used, total, count, start + length + 1, 0)
    ensures start + length !in used ==> Scanning(used, total, count, start, length + 1)
  {
    var f := start + length;
    if f in used {
      forall g | start <= g <= f
        ensures !FreeRun(used, total, g, count)
      {
        assert FreeRun(used, total, g, count) ==> f !in used || g + count <= f;
      }
    }
  }

  lemma ScanDone(used: set<nat>, total: nat, count: nat, start: nat, length: nat)
    requires Scanning(used, total, count, start, length) && 0 < count
    ensures length == count ==> FreeRun(used, total, start, count)
    ensures length == count ==> LowestRun(used, total, count, 0) == start < total
    ensures length < count && start + length == total ==> LowestRun(used, total, count, 0) == total
  {
    var r := LowestRun(used, total, count, 0);
    assert r < total ==> FreeRun(used, total, r, count);
  }

  lemma PerformNothing(p: Pool)
    ensures Perform(p, TakeRun(0)) == (p, 0)
  {
  }

  lemma PerformRun(p: Pool, count: nat)
    requires count > 0
    ensures var f := LowestRun(p.used, p.total, count, 0);
            && Perform(p, TakeRun(count)).1 == (if f < p.total then f else 0)
            && Perform(p, TakeRun(count)).0.used == if f < p.total then p.used + Range(f, f + count) else p.used
  {
  }

  lemma BitmapFits(total: nat, width: nat)
    requires width > 0 && width % 8 == 0
    ensures 8 * ((total + 7) / 8) <= width * ((total + width - 1) / width)
  {
    var n, w := (total + width - 1) / width, width / 8;
    assert total <= n * width by {
      assert total + width - 1 == n * width + (total + width - 1) % width;
    }
    assert width * n == 8 * (w * n);
  }

  /** kmemset of the bitmap to 0xFF: every byte is eight set bits. */
  method FillBitmap(memory: nat -> nat, width: nat, total: nat) returns (words: seq<nat>)
    requires width > 0 && width % 8 == 0
    ensures Covers(words, width, total) && Held(words, width, total) == Range(0, total)
  {
    hide Mark, Test, Range, Held;
    var count := (total + width - 1) / width;
    words := seq(count, i requires 0 <= i < count => memory(i));
    var bits := 8 * ((total + 7) / 8);
    BitmapFits(total, width);
    for n := 0 to bits
      invariant Covers(words, width, bits)
      invariant forall f :: 0 <= f < n ==> f in Held(words, width, bits)
    {
      HeldMark(words, width, bits, n, true);
      words := Mark(words, width, n, true);
    }
    HeldFewer(words, width, total, bits);
  }

  lemma HeldFewer(words: seq<nat>, width: nat, total: nat, bits: nat)
    requires Covers(words, width, bits) && total <= bits && forall f :: 0 <= f < bits ==> f in Held(words, width, bits)
    ensures Covers(words, width, total) && Held(words, width, total) == Range(0, total)
  {
  }

  // ---- the allocator ---------------------------------------------------------------------------------

  class FrameAllocator {
    const machine: Machine
    var words: seq<nat>
    var total: nat
    var used: nat

    ghost predicate Valid()
      reads this
    {
      && MachineOk(machine) && Covers(words, machine.width, total) && used == Count(words, machine.width, total)
      && total * PAGE_SIZE <= machine.word
    }

    /** The frames in use. */
    ghost function Used(): set<nat>
      requires Valid()
      reads this
    {
      Held(words, machine.width, total)
    }

    constructor (machine: Machine)
      requires MachineOk(machine)
      ensures Valid() && this.machine == machine && total == 0
    {
      this.machine := machine;
      words, total, used := [], 0, 0;
    }

    /** frame_test */
    method FrameTest(f: nat) returns (v: bool)
      requires Valid() && f < total
      ensures v == (f in Used())
    {
      HeldIs(words, machine.width, total, f);
      v := Test(words, machine.width, f);
    }

    /** frame_set or frame_clear, with the counter moved when the bit changes. */
    method SetFrame(f: nat, v: bool)
      requires Valid() && f < total && (f in Used()) != v
      modifies this`words, this`used
      ensures Valid() && Used() == if v then old(Used()) + {f} else old(Used()) - {f}
    {
      hide Held, Count, Test, Mark;
      HeldMark(words, machine.width, total, f, v);
      words := Mark(words, machine.width, f, v);
      used := if v then used + 1 else used - 1;
    }

    /** mark_region */
    method MarkRegion(base: nat, length: nat, mark: bool)
      requires Valid()
      modifies this`words, this`used
      ensures Valid()
      ensures Used() == if mark then old(Used()) + Region(machine, base, length) * Range(0, total)
                        else old(Used()) - Region(machine, base, length)
    {
      hide Held, Count, Covers, Valid, Wrapped, Range;
      var first := base / PAGE_SIZE;
      HeldBelow();
      var last := Wrapped(base + length + PAGE_SIZE - 1, machine.word) / PAGE_SIZE;
      var f := first;
      while f < last && f < total
        invariant first <= f && (f <= last || f == first) && (f <= total || f == first)
        invariant Valid()
        invariant Used() ==
          if mark then old(Used()) + Range(first, f) * Range(0, total)
          else old(Used()) - Range(first, f)
        decreases total - f
      {
        var set_ := FrameTest(f);
        if set_ != mark {
          SetFrame(f, mark);
        }
        f := f + 1;
      }
      assert Region(machine, base, length) * Range(0, total) == Range(first, f) * Range(0, total);
    }

    /** pmm_init. `memory` is what the words of the bitmap held before. */
    method Init(memory: nat -> nat, entries: seq<MapEntry>, kernelEnd: nat)
      requires Valid() && KERNEL_START <= kernelEnd && forall e :: e in entries ==> EntryOk(e)
      modifies this
      ensures Valid() && total == TotalFrames(machine, entries)
      ensures Used() == Initially(machine, entries, kernelEnd)
      ensures forall e :: e in entries && e.available ==> Min(EndOf(e), machine.ceiling) / PAGE_SIZE <= total
      ensures total > 0 ==> exists e ::
        e in entries && e.available && Min(EndOf(e), machine.ceiling) / PAGE_SIZE == total
      ensures Fits(machine, kernelEnd, total) && (forall e :: e in entries ==> e.addr + e.len < WORD64) ==>
        forall f :: 0 <= f < total ==> (f !in Used() <==> FreeAtFirst(machine, entries, kernelEnd, total, f))
    {
      hide Held, Count, Covers, Region, Wrapped, FreedBy, Range, Highest, FreeAtFirst;
      var highest := FindHighest(entries);
      if highest > machine.ceiling {
        highest := machine.ceiling;
      }
      total := highest / PAGE_SIZE;
      var bitmapAddr := Wrapped(kernelEnd + PAGE_SIZE - 1, machine.word) / PAGE_SIZE * PAGE_SIZE;
      var bitmapBytes := (total + 7) / 8;
      words := FillBitmap(memory, machine.width, total);
      used := total;
      HeldAll(words, machine.width, total);
      FreeAvailable(entries);
      MarkRegion(0, KERNEL_START, true);
      MarkRegion(KERNEL_START, kernelEnd - KERNEL_START, true);
      MarkRegion(bitmapAddr, bitmapBytes, true);
      if Fits(machine, kernelEnd, total) && forall e :: e in entries ==> e.addr + e.len < WORD64 {
        forall f | 0 <= f < total
          ensures f !in Initially(machine, entries, kernelEnd) <==>
            FreeAtFirst(machine, entries, kernelEnd, total, f)
        {
          FreeExactly(machine, entries, kernelEnd, f);
        }
      }
    }

    /** The second pass of pmm_init. */
    method FreeAvailable(entries: seq<MapEntry>)
      requires Valid()
      modifies this`words, this`used
      ensures Valid() && Used() == old(Used()) - FreedBy(machine, entries)
    {
      hide Held, Count, Covers, Region, Wrapped, Range, Valid;
      HeldBelow();
      for i := 0 to |entries|
        invariant Valid()
        invariant Used() == old(Used()) - FreedBy(machine, entries[..i])
      {
        assert entries[..i + 1][..i] == entries[..i];
        var e := entries[i];
        if e.available && e.addr < machine.ceiling {
          var length := if (e.addr + e.len) % WORD64 > machine.ceiling then machine.ceiling - e.addr
            else Wrapped(e.len, machine.word);
          MarkRegion(e.addr, length, false);
        }
      }
      assert entries[..|entries|] == entries;
    }

    /** pmm_alloc_frame */
    method AllocFrame() returns (addr: nat)
      requires Valid()
      modifies this`words, this`used
      ensures Valid() && addr < machine.word
      ensures var after := Perform(Pool(total, old(Used()), {}), Take);
              Used() == after.0.used && addr == after.1 * PAGE_SIZE
    {
      hide Held, Count, Covers;
      LowestIs(Used(), total);
      for f := 0 to total
        invariant unchanged(this) && Valid()
        invariant forall g :: 0 <= g < f ==> g in Used()
      {
        var taken := FrameTest(f);
        if !taken {
          SetFrame(f, true);
          return f * PAGE_SIZE;
        }
      }
      return 0;
    }

    /** Frame 0 is never on offer, so 0 soundly means failure. */
    ghost predicate Guarded()
      reads this
    {
      Valid() && (total > 0 ==> 0 in Used())
    }

    /** pmm_alloc_frame as its callers use it: a frame number, 0 when no frame is free. */
    method TakeFrame() returns (f: nat)
      requires Guarded()
      modifies this`words, this`used
      ensures Guarded() && (f == 0 <==> forall g :: 0 <= g < total ==> g in old(Used()))
      ensures f == 0 ==> Used() == old(Used())
      ensures f != 0 ==> f < total && f !in old(Used()) && Used() == old(Used()) + {f}
    {
      hide Held, Count, Covers;
      var addr := AllocFrame();
      f := addr / PAGE_SIZE;
    }

    /** pmm_free_frame for a frame number. Its callers return only frames that are in use: no frame is
        freed twice. */
    method ReturnFrame(f: nat)
      requires Guarded() && f != 0 && f in Used()
      modifies this`words, this`used
      ensures Guarded() && Used() == old(Used()) - {f}
    {
      hide Held, Count, Covers;
      HeldBelow();
      FreeFrame(f * PAGE_SIZE);
    }

    /** pmm_alloc_frames as its callers use it. */
    method TakeFrames(count: nat) returns (f: nat)
      requires Guarded()
      modifies this`words, this`used
      ensures Guarded()
      ensures (f == 0 <==> count == 0 || forall g :: 0 <= g < total ==> !FreeRun(old(Used()), total, g, count))
      ensures f == 0 ==> Used() == old(Used())
      ensures f != 0 ==> FreeRun(old(Used()), total, f, count) && Used() == old(Used()) + Range(f, f + count)
    {
      hide Held, Count, Covers;
      ghost var before := Used();
      var addr := AllocFrames(count);
      f := addr / PAGE_SIZE;
      assert FreeRun(before, total, 0, count) ==> count == 0 || 0 !in before;
    }

    /** pmm_alloc_frames */
    method AllocFrames(count: nat) returns (addr: nat)
      requires Valid()
      modifies this`words, this`used
      ensures Valid() && addr < machine.word
      ensures var after := Perform(Pool(total, old(Used()), {}), TakeRun(count));
              Used() == after.0.used && addr == after.1 * PAGE_SIZE
    {
      hide Held, Count, Covers, Range, Perform, LowestRun, Valid, FreeRun;
      HeldBelow();
      PerformNothing(Pool(total, Used(), {}));
      ScanStart(Used(), total, count);
      if count == 0 {
        return 0;
      }
      PerformRun(Pool(total, Used(), {}), count);
      var start, length := 0, 0;
      for f := 0 to total
        invariant unchanged(this) && Valid()
        invariant 0 <= start && start + length == f && 0 <= length < count
        invariant Scanning(Used(), total, count, start, length)
      {
        ScanStep(Used(), total, count, start, length);
        var taken := FrameTest(f);
        if taken {
          length := 0;
          start := f + 1;
        } else {
          length := length + 1;
          if length == count {
            ScanDone(Used(), total, count, start, length);
            TakeAll(start, count);
            return start * PAGE_SIZE;
          }
        }
      }
      ScanDone(Used(), total, count, start, length);
      return 0;
    }

    /** The inner loop of pmm_alloc_frames. */
    method TakeAll(start: nat, count: nat)
      requires Valid() && FreeRun(Used(), total, start, count)
      modifies this`words, this`used
      ensures Valid() && Used() == old(Used()) + Range(start, start + count)
    {
      hide Held, Count, Covers;
      for i := 0 to count
        invariant Valid() && Used() == old(Used()) + Range(start, start + i)
      {
        SetFrame(start + i, true);
      }
    }

    /** pmm_free_frame */
    method FreeFrame(addr: nat)
      requires Valid()
      modifies this`words, this`used
      ensures Valid() && Used() == Perform(Pool(total, old(Used()), {}), Give(addr / PAGE_SIZE)).0.used
    {
      hide Held, Count, Covers;
      var frame := addr / PAGE_SIZE;
      if frame < total {
        var taken := FrameTest(frame);
        if taken {
          SetFrame(frame, false);
        }
      }
    }

    lemma HeldBelow()
      requires Valid()
      ensures MachineOk(machine) && total * PAGE_SIZE <= machine.word
      ensures forall f :: f in Used() ==> f in Range(0, total)
    {
    }
  }
}
