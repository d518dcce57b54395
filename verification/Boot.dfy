/**
 Bringing the memory side of the 32-bit kernel up: frames, page tables, heap, and a loader on top. The
 subsystems' invariants hold together, on the same frames.
 */
module Boot {
  import opened Frames
  import Pmm
  import opened PageTables
  import opened AddressSpaces
  import opened Paging32
  import opened LoaderModel
  import opened Programs
  import Loader
  import HeapModel
  import Heap
  import opened Multiples

  const HEAP_FRAMES: nat := 256

  /** The kernel's static tables lie in its image, in two frames of memory. */
  predicate ImageHolds(m: Pmm.Machine, entries: seq<Pmm.MapEntry>, kernelEnd: nat, pdpt: nat, pd: nat) {
    && pdpt != pd && pdpt != 0 && pd != 0 && pdpt < Pmm.TotalFrames(m, entries) && pd < Pmm.TotalFrames(m, entries)
    && pdpt * PAGE_SIZE < kernelEnd && pd * PAGE_SIZE < kernelEnd
  }

  /** The frames below the end of the kernel are in use after pmm_init. */
  lemma ImageInUse(m: Pmm.Machine, entries: seq<Pmm.MapEntry>, kernelEnd: nat, f: nat)
    requires Pmm.MachineOk(m) && Pmm.Fits(m, kernelEnd, Pmm.TotalFrames(m, entries)) && f < Pmm.TotalFrames(m, entries)
    requires f * PAGE_SIZE < kernelEnd
    ensures f in Pmm.Initially(m, entries, kernelEnd)
  {
    hide Pmm.TotalFrames, Pmm.Initially;
    Pmm.ProtectsItself(m, entries, kernelEnd, f, f * PAGE_SIZE);
  }

  /** Memory of at most 512 MB is mapped below the addresses programs use. */
  lemma MappedBelowPrograms(total: nat)
    requires total * PAGE_SIZE <= USER_LOAD_ADDR
    ensures Needed(total) * 0x20_0000 <= USER_LOAD_ADDR
  {
  }

  lemma HeapRegion(total: nat, f: nat)
    requires f != 0 && f + HEAP_FRAMES <= total && total * PAGE_SIZE < WORD
    ensures HeapModel.RegionOk(Heap.Heap32, f * PAGE_SIZE, f * PAGE_SIZE + HEAP_FRAMES * PAGE_SIZE)
  {
    hide Multiple;
    Heap.Instances();
    TimesIsMultiple(8, f * 512);
    TimesIsMultiple(8, f * 512 + HEAP_FRAMES * 512);
  }

  /** Nobody is running yet. */
  lemma NobodyResident(tasks: seq<TaskRecord>, blocks: seq<HeapModel.Block>, info: map<nat, Info>, now: Start,
      kernelPdpt: nat, h: HeapModel.Shape)
    requires |tasks| == |blocks| == MAX_PROGRAMS && now.keys <= now.used
    ensures var programs := seq(MAX_PROGRAMS, _ => NoProgram);
            && Residents(programs, tasks, now.used, now.keys, now.spaces, kernelPdpt)
            && BlocksOk(programs, tasks, blocks, now.live, h)
            && AllLow(programs, info) && Balanced(programs, tasks, blocks, info, now, now)
  {
  }

  /** pmm_init */
  method FramesUp(memory: nat -> nat, entries: seq<Pmm.MapEntry>, kernelEnd: nat, pdpt: nat, pd: nat)
      returns (frames: Pmm.FrameAllocator)
    requires forall e :: e in entries ==> Pmm.EntryOk(e)
    requires Pmm.Fits(Pmm.Pmm32, kernelEnd, Pmm.TotalFrames(Pmm.Pmm32, entries))
    requires ImageHolds(Pmm.Pmm32, entries, kernelEnd, pdpt, pd)
    ensures fresh(frames) && frames.Guarded() && frames.total == Pmm.TotalFrames(Pmm.Pmm32, entries)
    ensures frames.Used() == Pmm.Initially(Pmm.Pmm32, entries, kernelEnd) && pdpt in frames.Used()
    ensures pd in frames.Used()
  {
    hide Pmm.TotalFrames, Pmm.Initially, Pmm.Held, Pmm.Covers;
    ImageInUse(Pmm.Pmm32, entries, kernelEnd, 0);
    ImageInUse(Pmm.Pmm32, entries, kernelEnd, pdpt);
    ImageInUse(Pmm.Pmm32, entries, kernelEnd, pd);
    frames := new Pmm.FrameAllocator(Pmm.Pmm32);
    frames.Init(memory, entries, kernelEnd);
  }

  /** kheap_init on frames taken for it. */
  method HeapUp(frames: Pmm.FrameAllocator, heap: Heap.KHeap)
    requires frames.Guarded() && frames.total * PAGE_SIZE < WORD && heap.Valid() && heap.Absent()
    requires heap.h == Heap.Heap32
    modifies frames, heap
    ensures heap.Valid() && frames.Guarded() && frames.total == old(frames.total) && old(frames.Used()) <= frames.Used()
  {
    hide Pmm.Held, Pmm.Covers, HeapModel.Inv, Heap.HeadersOk, Heap.NoForgery, Range;
    var region := frames.TakeFrames(HEAP_FRAMES);
    if region != 0 {
      HeapRegion(frames.total, region);
    }
    heap.Init(region * PAGE_SIZE, HEAP_FRAMES * PAGE_SIZE);
  }

  /** pmm_init, paging_init, kheap_init. It returns false where the kernel would halt. */
  method BringUp(memory: nat -> nat, entries: seq<Pmm.MapEntry>, kernelEnd: nat, pdpt: nat, pd: nat, hasNx: bool,
      textStart: nat, roEnd: nat)
      returns (ok: bool, loader: Loader.ProgramLoader)
    requires forall e :: e in entries ==> Pmm.EntryOk(e)
    requires Pmm.Fits(Pmm.Pmm32, kernelEnd, Pmm.TotalFrames(Pmm.Pmm32, entries))
    requires ImageHolds(Pmm.Pmm32, entries, kernelEnd, pdpt, pd)
    requires Pmm.TotalFrames(Pmm.Pmm32, entries) * PAGE_SIZE <= USER_LOAD_ADDR && roEnd + PAGE_SIZE <= WORD
    ensures ok ==> loader.Valid() && loader.heap.Valid() && loader.AllResident() && loader.Serving(loader.Now())
    ensures ok ==> loader.pager.active == pdpt && loader.pager.spaces == {pdpt} && loader.pager.nx == hasNx
    ensures ok ==> Pmm.Initially(Pmm.Pmm32, entries, kernelEnd) <= loader.pager.frames.Used()
    ensures ok ==>
      IdentityMapped(loader.pager.mem, pdpt, loader.pager.kernel, textStart / PAGE_SIZE,
        (roEnd + PAGE_SIZE - 1) / PAGE_SIZE)
  {
    hide Pmm.TotalFrames, Pmm.Initially, Pmm.Held, Pmm.Covers, TablesOk, IdentityMapped, UsersUp, Residents, BlocksOk,
         AllLow, Balanced, HeapModel.Inv, Heap.HeadersOk, Heap.NoForgery, Range;
    Heap.Instances();
    var frames := FramesUp(memory, entries, kernelEnd, pdpt, pd);
    var pager := new Pager(frames, pdpt, pd);
    var heap := new Heap.KHeap(Heap.Heap32);
    loader := new Loader.ProgramLoader(pager, heap);
    ok := pager.Init(hasNx, textStart, roEnd);
    if !ok {
      return;
    }
    MappedBelowPrograms(frames.total);
    HeapUp(frames, heap);
    NobodyResident(loader.tasks, loader.blocks, pager.info, loader.Now(), pdpt, heap.h);
  }
}
