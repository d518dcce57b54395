/**
 The program loader: it reads an ELF file, builds an address space for it, copies and maps its
 segments, stack and arguments, and undoes all of it when the program ends or loading fails.

 Reading the file and parsing its headers are inputs. Program headers are records; the physical bytes
 of frames that are not page tables are a function from addresses to values.
 */
module Loader {
  import opened Frames
  import Pmm
  import opened PageTables
  import opened AddressSpaces
  import opened Paging32
  import opened LoaderModel
  import opened Programs
  import HeapModel
  import Heap

  class ProgramLoader {
    const pager: Pager
    const heap: Heap.KHeap
    var programs: seq<Program>
    var tasks: seq<TaskRecord>
    var ram: Ram

    /** The heap blocks of the task structures. */
    ghost var blocks: seq<HeapModel.Block>

    ghost predicate Valid()
      reads this, pager, pager.frames
    {
      && pager.Valid() && pager.kernel * 0x20_0000 <= USER_LOAD_ADDR && UsersUp(pager.mem, pager.spaces, pager.kernel)
      && |programs| == |tasks| == |blocks| == MAX_PROGRAMS
    }

    /** The program in slot n is being built in the active space: beyond `base`, the frames in use are
        its bytes and its tables. `labels` are the page tables of everyone else. */
    ghost predicate Builds(n: nat, base: set<nat>, labels: map<nat, Info>)
      reads this, pager, pager.frames
    {
      && Valid() && n < |programs| && programs[n].pageDir == pager.active && pager.active != pager.kernelPdpt
      && !programs[n].inUse
      && BuildsOn(programs[n], pager.frames.Used(), pager.mem.Keys, pager.info, base, labels)
    }

    constructor (pager: Pager, heap: Heap.KHeap)
      ensures this.pager == pager && this.heap == heap && programs == seq(MAX_PROGRAMS, _ => NoProgram)
      ensures |tasks| == |blocks| == MAX_PROGRAMS
    {
      this.pager, this.heap := pager, heap;
      programs := seq(MAX_PROGRAMS, _ => NoProgram);
      tasks := seq(MAX_PROGRAMS, _ => TaskRecord(0, 0));
      blocks := seq(MAX_PROGRAMS, _ => HeapModel.Block(0, 0, false));
      ram := _ => 0;
    }

    /** The loops that map consecutive pages to consecutive frames. */
    method MapRun(start: nat, first: nat, count: nat, flags: Flags) returns (ok: bool)
      requires Valid() && start < WORD && start % PAGE_SIZE == 0
      modifies pager`mem, pager`info, pager.frames
      ensures Valid() && pager.MadeTables()
      ensures !ok ==> pager.Exhausted()
      ensures USER_LOAD_ADDR <= start && start + count * PAGE_SIZE <= 0x4000_0000 ==>
        && OnlyRun(old(pager.mem), pager.mem, pager.spaces, pager.active, start, count)
        && (ok ==> MappedRun(pager.mem, pager.active, start, first, count, pager.Supported(flags)))
        && pager.active in old(pager.mem) && pager.active in pager.mem
        && pager.mem[pager.active] == old(pager.mem)[pager.active]
    {
      hide OneMore, TablesOk, Reach, Leaf, OnlyPage, SameLeaves, PdsWiden, UsersUp, Effective, PathOf, OnlyRun,
           MappedRun, InRun, Pmm.Held, Pmm.Covers;
      ghost var inUser := USER_LOAD_ADDR <= start && start + count * PAGE_SIZE <= 0x4000_0000;
      ghost var spaces, root := pager.spaces, pager.active;
      SpacesHaveRoots(pager.mem, pager.info, spaces, pager.kernelPdpt, pager.kernelPd, pager.kernel);
      if inUser {
        RunStart(pager.mem, spaces, root, start, first, count, pager.Supported(flags));
      }
      for i := 0 to count
        invariant Valid() && pager.MadeTables()
        invariant inUser ==>
          && OnlyRun(old(pager.mem), pager.mem, spaces, root, start, i)
          && MappedRun(pager.mem, root, start, first, i, pager.Supported(flags))
        invariant inUser ==> root in old(pager.mem) && root in pager.mem && pager.mem[root] == old(pager.mem)[root]
      {
        ghost var before := pager.mem;
        ok := pager.Map((start + i * PAGE_SIZE) % WORD, first + i, flags);
        if inUser {
          RunStep(old(pager.mem), before, pager.mem, spaces, root, pager.kernel, start, first, count, i,
            pager.Supported(flags), ok);
        }
        if !ok {
          return;
        }
      }
      ok := true;
    }

    /** pmm_free_frame for `count` consecutive frames. */
    method ReturnRun(first: nat, count: nat)
      requires pager.frames.Guarded() && 0 !in Range(first, first + count)
      requires Range(first, first + count) <= pager.frames.Used()
      modifies pager.frames
      ensures pager.frames.Guarded() && pager.frames.total == old(pager.frames.total)
      ensures pager.frames.Used() == old(pager.frames.Used()) - Range(first, first + count)
    {
      hide Pmm.Held, Pmm.Covers;
      for i := 0 to count
        invariant pager.frames.Guarded() && pager.frames.total == old(pager.frames.total)
        invariant pager.frames.Used() == old(pager.frames.Used()) - Range(first, first + i)
      {
        pager.frames.ReturnFrame(first + i);
      }
    }

    /** Map `count` frames taken for this purpose; give them back if that fails. */
    method MapOrReturn(start: nat, first: nat, count: nat, flags: Flags, ghost used: set<nat>) returns (ok: bool)
      requires Valid() && start < WORD && start % PAGE_SIZE == 0 && first != 0
      requires pager.frames.Used() == used + Range(first, first + count) && used !! Range(first, first + count)
      requires pager.mem.Keys <= used
      modifies pager`mem, pager`info, pager.frames
      ensures Valid() && Grows(old(pager.info), pager.info, pager.active)
      ensures pager.frames.total == old(pager.frames.total)
      ensures pager.info.Keys == pager.mem.Keys && old(pager.mem).Keys <= pager.mem.Keys
      ensures (pager.mem.Keys - old(pager.mem).Keys) !! (used + Range(first, first + count))
      ensures pager.frames.Used() ==
        used + (if ok then Range(first, first + count) else {}) + (pager.mem.Keys - old(pager.mem).Keys)
      ensures USER_LOAD_ADDR <= start && start + count * PAGE_SIZE <= 0x4000_0000 ==>
        && OnlyRun(old(pager.mem), pager.mem, pager.spaces, pager.active, start, count)
        && (ok ==> MappedRun(pager.mem, pager.active, start, first, count, pager.Supported(flags)))
        && pager.active in old(pager.mem) && pager.active in pager.mem
        && pager.mem[pager.active] == old(pager.mem)[pager.active]
    {
      hide TablesOk, OnlyRun, MappedRun, Grows, Range, Pmm.Held, Pmm.Covers;
      ok := MapRun(start, first, count, flags);
      KeysAgree(pager.mem, pager.info, pager.spaces, pager.kernelPdpt, pager.kernelPd, pager.kernel);
      if !ok {
        ReturnRun(first, count);
      }
    }

    /** Loading one segment leaves the other address spaces alone, and all other pages of its own. */
    twostate predicate LeavesRest(ph: ProgramHeader, fileSize: nat)
      reads this, pager
    {
      && OnlySpace(old(pager.mem), pager.mem, pager.spaces, pager.active)
      && (Accepted(ph, fileSize) ==>
           && PageStart(ph) + PagesFor(ph) * PAGE_SIZE <= WORD
           && OnlyRun(old(pager.mem), pager.mem, pager.spaces, pager.active, PageStart(ph), PagesFor(ph)))
    }

    /** load_segment. `lost` says that the segment strays: bytes have been written over frames that are not
        its own, or pages of the kernel are about to be remapped. What the kernel does from there on is
        not part of this model, and nothing is promised. */
    method LoadSegment(n: nat, file: seq<nat>, ph: ProgramHeader, ghost base: set<nat>, ghost labels: map<nat, Info>)
        returns (ok: bool, lost: bool)
      requires Builds(n, base, labels) && HeaderOk(ph) && |file| < WORD
      modifies this`programs, this`ram, pager`mem, pager`info, pager.frames
      ensures lost ==> Accepted(ph, |file|) && Strays(ph)
      ensures ok ==> !lost && !Strays(ph)
      ensures !lost ==> Builds(n, base, labels) && SameBytes(old(ram), ram, old(pager.frames.Used()))
      ensures !lost ==> programs == old(programs)[n := programs[n]] && Data(old(programs)[n]) <= Data(programs[n])
      ensures !lost ==> programs[n].stack == old(programs)[n].stack && programs[n].args == old(programs)[n].args
      ensures !lost && !ok ==> programs == old(programs)
      ensures ok ==> Accepted(ph, |file|) && |programs[n].segments| == |old(programs)[n].segments| + 1 <= MAX_SEGMENTS
      ensures !lost && NoWrap(ph) ==> LeavesRest(ph, |file|)
      ensures ok && NoWrap(ph) ==> Loaded(pager.mem, ram, pager.active, Data(programs[n]), file, ph, pager.nx)
      ensures ok && NoWrap(ph) && pager.nx && !(ph.w && ph.x) ==>
        (Protected(old(pager.mem), pager.active, pager.kernel) ==> Protected(pager.mem, pager.active, pager.kernel))
    {
      hide Protected, TablesOk, OnlyRun, OnlySpace, Loaded, SameBytes, Data, PagesFor, BuildsOn, UsersUp, Strays,
           Pmm.Held, Pmm.Covers;
      KeysAgree(pager.mem, pager.info, pager.spaces, pager.kernelPdpt, pager.kernelPd, pager.kernel);
      Untouching(pager.mem, pager.spaces, pager.active, ram, pager.frames.Used());
      if Accepted(ph, |file|) {
        AcceptedRange(ph, |file|);
      }
      ok, lost := false, false;
      var pages := PagesFor(ph);
      if pages == 0 || |programs[n].segments| >= MAX_SEGMENTS {
        return;
      }
      if ph.filesz > ph.memsz {
        return;
      }
      if ph.offset > |file| || ph.filesz > |file| - ph.offset {
        return;
      }
      if ph.vaddr < USER_LOAD_ADDR || (ph.vaddr + ph.memsz) % WORD > USER_STACK_TOP {
        return;
      }
      AcceptedRange(ph, |file|);
      ghost var used := pager.frames.Used();
      var phys := pager.frames.TakeFrames(pages);
      if phys == 0 {
        return;
      }
      FreshRun(used, pager.frames.total, phys, pages);
      ok, lost := PlaceSegment(n, file, ph, phys, used, base, labels);
    }

    /** The part of load_segment after its checks, with frames taken from `phys` on. */
    method PlaceSegment(n: nat, file: seq<nat>, ph: ProgramHeader, phys: nat, ghost used: set<nat>,
        ghost base: set<nat>, ghost labels: map<nat, Info>) returns (ok: bool, lost: bool)
      requires Valid() && n < |programs| && programs[n].pageDir == pager.active && pager.active != pager.kernelPdpt
      requires !programs[n].inUse
      requires BuildsOn(programs[n], used, pager.mem.Keys, pager.info, base, labels) && pager.mem.Keys <= used
      requires phys != 0
      requires pager.frames.Used() == used + Range(phys, phys + PagesFor(ph))
      requires used !! Range(phys, phys + PagesFor(ph))
      requires HeaderOk(ph) && Accepted(ph, |file|) && |programs[n].segments| < MAX_SEGMENTS
      modifies this`programs, this`ram, pager`mem, pager`info, pager.frames
      ensures lost <==> Strays(ph)
      ensures !lost ==> Builds(n, base, labels) && SameBytes(old(ram), ram, used)
      ensures !lost ==> programs == old(programs)[n := programs[n]] && Data(old(programs)[n]) <= Data(programs[n])
      ensures !lost ==> programs[n].stack == old(programs)[n].stack && programs[n].args == old(programs)[n].args
      ensures !lost && !ok ==> programs == old(programs)
      ensures ok ==> !lost && |programs[n].segments| == |old(programs)[n].segments| + 1
      ensures !lost && NoWrap(ph) ==> LeavesRest(ph, |file|)
      ensures ok && NoWrap(ph) ==> Loaded(pager.mem, ram, pager.active, Data(programs[n]), file, ph, pager.nx)
      ensures ok && NoWrap(ph) && pager.nx && !(ph.w && ph.x) ==>
        (Protected(old(pager.mem), pager.active, pager.kernel) ==> Protected(pager.mem, pager.active, pager.kernel))
    {
      hide Protected, TablesOk, OnlyRun, OnlySpace, MappedRun, Loaded, SameBytes, Data, DataApart, Placed, Range,
           PagesFor, BuildsOn, Accepted, UsersUp, Pmm.Held, Pmm.Covers;
      var start, within, pages := ph.vaddr / PAGE_SIZE * PAGE_SIZE, ph.vaddr % PAGE_SIZE, PagesFor(ph);
      ghost var prog := programs[n];
      AcceptedRange(ph, |file|);
      AcceptedFile(ph, |file|);
      ram := Zeroed(ram, phys * PAGE_SIZE, pages * PAGE_SIZE);
      ram := Copied(ram, phys * PAGE_SIZE + within, file[ph.offset..ph.offset + ph.filesz]);
      PlacedIs(old(ram), phys, file, ph);
      ok, lost := false, Strays(ph);
      if lost {
        return;
      }
      PlacedKeeps(old(ram), phys, file, ph, used);
      ok := Attach(n, Segment(start, phys, pages), FlagsForSegment(ph), used, base, labels);
      if NoWrap(ph) {
        RunInSpace(old(pager.mem), pager.mem, pager.spaces, pager.active, start, pages);
        if ok {
          SegmentLoaded(pager.mem, old(ram), pager.active, Data(programs[n]), file, ph, pager.nx, phys);
          if pager.nx && !(ph.w && ph.x) && Protected(old(pager.mem), pager.active, pager.kernel) {
            RunProtected(old(pager.mem), pager.mem, pager.spaces, pager.active, pager.kernel, start, phys, pages,
              pager.Supported(FlagsForSegment(ph)));
          }
        }
      }
    }

    /** Map the frames of a segment and record it. */
    method Attach(n: nat, segment: Segment, flags: Flags, ghost used: set<nat>, ghost base: set<nat>,
        ghost labels: map<nat, Info>) returns (ok: bool)
      requires Valid() && segment.vaddr < WORD && segment.vaddr % PAGE_SIZE == 0 && segment.phys != 0
      requires n < |programs| && programs[n].pageDir == pager.active && pager.active != pager.kernelPdpt
      requires !programs[n].inUse
      requires BuildsOn(programs[n], used, pager.mem.Keys, pager.info, base, labels) && pager.mem.Keys <= used
      requires pager.frames.Used() == used + Range(segment.phys, segment.phys + segment.pages)
      requires used !! Range(segment.phys, segment.phys + segment.pages)
      modifies this`programs, pager`mem, pager`info, pager.frames
      ensures Builds(n, base, labels)
      ensures programs ==
        if ok then old(programs)[n := old(programs)[n].(segments := old(programs)[n].segments + [segment])]
        else old(programs)
      ensures Data(old(programs)[n]) <= Data(programs[n])
      ensures (ok ==> Range(segment.phys, segment.phys + segment.pages) <= Data(programs[n]))
      ensures USER_LOAD_ADDR <= segment.vaddr && segment.vaddr + segment.pages * PAGE_SIZE <= 0x4000_0000 ==>
        && OnlyRun(old(pager.mem), pager.mem, pager.spaces, pager.active, segment.vaddr, segment.pages)
        && (ok ==>
             MappedRun(pager.mem, pager.active, segment.vaddr, segment.phys, segment.pages, pager.Supported(flags)))
        && pager.active in old(pager.mem) && pager.active in pager.mem
        && pager.mem[pager.active] == old(pager.mem)[pager.active]
    {
      hide TablesOk, OnlyRun, MappedRun, Data, DataApart, Grows, Range, BuildsOn, Gains, Pmm.Held, Pmm.Covers;
      ghost var prog, r := programs[n], Range(segment.phys, segment.phys + segment.pages);
      BuildsFacts(prog, used, pager.mem.Keys, pager.info, base, labels);
      ok := MapOrReturn(segment.vaddr, segment.phys, segment.pages, flags, used);
      if !ok {
        GainsNothing(prog);
        BuildsMore(prog, prog, {}, used, old(pager.mem).Keys, old(pager.info), pager.mem.Keys, pager.info, base,
          labels);
        return;
      }
      GainsSegment(prog, segment);
      BuildsMore(prog, prog.(segments := prog.segments + [segment]), r, used, old(pager.mem).Keys, old(pager.info),
        pager.mem.Keys, pager.info, base, labels);
      GainsData(prog, prog.(segments := prog.segments + [segment]), r);
      programs := programs[n := programs[n].(segments := programs[n].segments + [segment])];
    }

    /** The loop of loader_run over the program headers. */
    method LoadAll(n: nat, file: seq<nat>, headers: seq<ProgramHeader>, ghost base: set<nat>,
        ghost labels: map<nat, Info>) returns (ok: bool, lost: bool)
      requires Builds(n, base, labels) && |file| < WORD && forall j :: 0 <= j < |headers| ==> HeaderOk(headers[j])
      modifies this`programs, this`ram, pager`mem, pager`info, pager.frames
      ensures lost ==> AnyStrays(headers, |file|)
      ensures !lost ==>
        Builds(n, base, labels) && programs == old(programs)[n := programs[n]] && SameBytes(old(ram), ram, base)
      ensures !lost ==> programs[n].stack == old(programs)[n].stack && programs[n].args == old(programs)[n].args
      ensures !lost && AllNoWrap(headers) ==> OnlySpace(old(pager.mem), pager.mem, pager.spaces, pager.active)
      ensures ok ==> !lost
      ensures ok && AllNoWrap(headers) ==>
        ImageOk(pager.mem, ram, pager.active, Data(programs[n]), file, headers, pager.nx)
      ensures ok && AllNoWrap(headers) && Separate(headers) && pager.nx ==>
        (Protected(old(pager.mem), pager.active, pager.kernel) ==> Protected(pager.mem, pager.active, pager.kernel))
    {
      hide Protected, TablesOk, OnlyRun, OnlySpace, Loaded, LoadedUpTo, ImageOk, SameBytes, Data, PagesFor, BuildsOn,
           Accepted, Lonely, NoWrap, Strays, UsersUp, Pmm.Held, Pmm.Covers;
      ghost var root, sane := pager.active, AllNoWrap(headers);
      LoadStart(pager.mem, pager.info, pager.spaces, pager.kernelPdpt, pager.kernelPd, pager.kernel, ram, root,
        Data(programs[n]), file, headers, pager.nx);
      SameBytesSelf(ram, base);
      lost := false;
      for i := 0 to |headers|
        invariant Builds(n, base, labels) && programs == old(programs)[n := programs[n]] && pager.active == root
        invariant !lost
        invariant programs[n].stack == old(programs)[n].stack && programs[n].args == old(programs)[n].args
        invariant SameBytes(old(ram), ram, base)
        invariant sane ==> OnlySpace(old(pager.mem), pager.mem, pager.spaces, root)
        invariant sane ==> LoadedUpTo(pager.mem, ram, root, Data(programs[n]), file, headers, pager.nx, i)
        invariant sane && Separate(headers) && pager.nx && Protected(old(pager.mem), root, pager.kernel) ==>
          Protected(pager.mem, root, pager.kernel)
      {
        if headers[i].load {
          ghost var mem1, ram1, own1, used1 := pager.mem, ram, Data(programs[n]), pager.frames.Used();
          BuildsFacts(programs[n], used1, pager.mem.Keys, pager.info, base, labels);
          ok, lost := LoadSegment(n, file, headers[i], base, labels);
          if lost {
            return;
          }
          SegmentKept(old(ram), ram1, ram, base, own1, used1);
          if sane {
            OnlySpaceTwice(old(pager.mem), mem1, pager.mem, pager.spaces, root);
          }
          if !ok {
            return;
          }
          if sane {
            LoadedNext(mem1, pager.mem, ram1, ram, pager.spaces, root, own1, Data(programs[n]), file, headers,
              pager.nx, i);
          }
        } else if sane {
          LoadedSkip(pager.mem, ram, root, Data(programs[n]), file, headers, pager.nx, i);
        }
      }
      if sane {
        LoadedEnd(pager.mem, ram, root, Data(programs[n]), file, headers, pager.nx);
      }
      ok := true;
    }

    /** Frames taken for the stack are cleared, recorded and mapped. */
    method PlaceStack(n: nat, stack: nat, ghost file: seq<nat>, ghost headers: seq<ProgramHeader>,
        ghost used: set<nat>, ghost base: set<nat>, ghost labels: map<nat, Info>) returns (ok: bool)
      requires Valid() && n < |programs| && programs[n].pageDir == pager.active && pager.active != pager.kernelPdpt
      requires !programs[n].inUse
      requires BuildsOn(programs[n], used, pager.mem.Keys, pager.info, base, labels) && pager.mem.Keys <= used
      requires stack != 0 && programs[n].stack == 0
      requires pager.frames.Used() == used + Range(stack, stack + STACK_PAGES)
      requires used !! Range(stack, stack + STACK_PAGES)
      modifies this`programs, this`ram, pager`mem, pager`info, pager.frames
      ensures Builds(n, base, labels) && programs == old(programs)[n := programs[n]]
      ensures programs[n].args == old(programs)[n].args
      ensures SameBytes(old(ram), ram, base)
      ensures OnlySpace(old(pager.mem), pager.mem, pager.spaces, pager.active)
      ensures ok ==> StackOk(pager.mem, ram, pager.active, programs[n].stack, pager.nx)
      ensures ok && pager.nx && Protected(old(pager.mem), pager.active, pager.kernel) ==>
        Protected(pager.mem, pager.active, pager.kernel)
      ensures ImageOk(old(pager.mem), old(ram), pager.active, Data(old(programs)[n]), file, headers, pager.nx) ==>
        ImageOk(pager.mem, ram, pager.active, Data(programs[n]), file, headers, pager.nx)
    {
      hide Protected, TablesOk, OnlyRun, MappedRun, OnlySpace, ImageOk, StackOk, SameBytes, Data, DataApart, Range,
           BuildsOn, Gains, Grows, UsersUp, Pmm.Held, Pmm.Covers;
      ghost var prog, bottom := programs[n], STACK_BOTTOM;
      BuildsFacts(prog, used, pager.mem.Keys, pager.info, base, labels);
      GainsStack(prog, stack);
      GainsData(prog, prog.(stack := stack), Range(stack, stack + STACK_PAGES));
      ZeroedKeeps(ram, stack, STACK_PAGES, used);
      SameBytesFewer(ram, Zeroed(ram, stack * PAGE_SIZE, STACK_PAGES * PAGE_SIZE), used, Data(prog));
      SameBytesFewer(ram, Zeroed(ram, stack * PAGE_SIZE, STACK_PAGES * PAGE_SIZE), used, base);
      programs := programs[n := programs[n].(stack := stack)];
      ram := Zeroed(ram, stack * PAGE_SIZE, USER_STACK_SIZE);
      ok := MapRun(STACK_BOTTOM, stack, STACK_PAGES, Flags(true, true, true, true));
      KeysAgree(pager.mem, pager.info, pager.spaces, pager.kernelPdpt, pager.kernelPd, pager.kernel);
      if ok {
        StackMade(pager.mem, old(ram), pager.active, stack, pager.nx);
        if pager.nx && Protected(old(pager.mem), pager.active, pager.kernel) {
          RunProtected(old(pager.mem), pager.mem, pager.spaces, pager.active, pager.kernel, STACK_BOTTOM, stack,
            STACK_PAGES, pager.Supported(Flags(true, true, true, true)));
        }
      }
      BuildsMore(prog, prog.(stack := stack), Range(stack, stack + STACK_PAGES), used, old(pager.mem).Keys,
        old(pager.info), pager.mem.Keys, pager.info, base, labels);
      RunInSpace(old(pager.mem), pager.mem, pager.spaces, pager.active, bottom, STACK_PAGES);
      if ImageOk(old(pager.mem), old(ram), pager.active, Data(prog), file, headers, pager.nx) {
        ImageKept(old(pager.mem), pager.mem, old(ram), ram, pager.spaces, pager.active, Data(prog), Data(programs[n]),
          file, headers, pager.nx, bottom, STACK_PAGES);
      }
    }

    /** The stack of the program. */
    method AddStack(n: nat, ghost file: seq<nat>, ghost headers: seq<ProgramHeader>, ghost base: set<nat>,
        ghost labels: map<nat, Info>) returns (ok: bool)
      requires Builds(n, base, labels) && programs[n].stack == 0
      modifies this`programs, this`ram, pager`mem, pager`info, pager.frames
      ensures Builds(n, base, labels) && programs == old(programs)[n := programs[n]]
      ensures programs[n].args == old(programs)[n].args
      ensures SameBytes(old(ram), ram, base)
      ensures OnlySpace(old(pager.mem), pager.mem, pager.spaces, pager.active)
      ensures ok ==> StackOk(pager.mem, ram, pager.active, programs[n].stack, pager.nx)
      ensures ok && pager.nx && Protected(old(pager.mem), pager.active, pager.kernel) ==>
        Protected(pager.mem, pager.active, pager.kernel)
      ensures ImageOk(old(pager.mem), old(ram), pager.active, Data(old(programs)[n]), file, headers, pager.nx) ==>
        ImageOk(pager.mem, ram, pager.active, Data(programs[n]), file, headers, pager.nx)
    {
      hide Protected, TablesOk, OnlyRun, MappedRun, OnlySpace, ImageOk, StackOk, SameBytes, Data, Range, BuildsOn,
           UsersUp, Pmm.Held, Pmm.Covers;
      KeysAgree(pager.mem, pager.info, pager.spaces, pager.kernelPdpt, pager.kernelPd, pager.kernel);
      Untouching(pager.mem, pager.spaces, pager.active, ram, base);
      ghost var used := pager.frames.Used();
      var stack := pager.frames.TakeFrames(STACK_PAGES);
      if stack == 0 {
        return false;
      }
      FreshRun(used, pager.frames.total, stack, STACK_PAGES);
      ok := PlaceStack(n, stack, file, headers, used, base, labels);
    }

    /** The argument page. Without a frame for it the program runs without arguments. */
    method AddArgs(n: nat, args: seq<nat>, ghost file: seq<nat>, ghost headers: seq<ProgramHeader>,
        ghost base: set<nat>, ghost labels: map<nat, Info>) returns (ghost mapped: bool)
      requires Builds(n, base, labels) && programs[n].args == 0
      modifies this`programs, this`ram, pager`mem, pager`info, pager.frames
      ensures Builds(n, base, labels) && programs == old(programs)[n := programs[n]]
      ensures programs[n].stack == old(programs)[n].stack
      ensures programs[n].args != 0 ==> ArgsOk(ram, programs[n].args, args)
      ensures mapped ==> programs[n].args != 0 && ArgsMapped(pager.mem, pager.active, programs[n].args, pager.nx)
      ensures !mapped ==> pager.Exhausted()
      ensures mapped && Protected(old(pager.mem), pager.active, pager.kernel) ==>
        Protected(pager.mem, pager.active, pager.kernel)
      ensures StackOk(old(pager.mem), old(ram), pager.active, programs[n].stack, pager.nx) ==>
        StackOk(pager.mem, ram, pager.active, programs[n].stack, pager.nx)
      ensures SameBytes(old(ram), ram, base)
      ensures OnlySpace(old(pager.mem), pager.mem, pager.spaces, pager.active)
      ensures ImageOk(old(pager.mem), old(ram), pager.active, Data(old(programs)[n]), file, headers, pager.nx) ==>
        ImageOk(pager.mem, ram, pager.active, Data(programs[n]), file, headers, pager.nx)
    {
      hide Protected, TablesOk, OnlyRun, MappedRun, OnlySpace, ImageOk, StackOk, ArgsOk, ArgsText, SameBytes, Data,
           DataApart, BuildsOn, Gains, Grows, UsersUp, Pmm.Held, Pmm.Covers;
      ghost var prog, used := programs[n], pager.frames.Used();
      KeysAgree(pager.mem, pager.info, pager.spaces, pager.kernelPdpt, pager.kernelPd, pager.kernel);
      Untouching(pager.mem, pager.spaces, pager.active, ram, base);
      BuildsFacts(prog, used, pager.mem.Keys, pager.info, base, labels);
      var frame := pager.frames.TakeFrame();
      if frame == 0 {
        return false;
      }
      GainsArgs(prog, frame);
      GainsData(prog, prog.(args := frame), {frame});
      programs := programs[n := programs[n].(args := frame)];
      var text := ArgsText(args);
      ArgsMade(ram, frame, args);
      ArgsKeep(ram, frame, text, Data(prog));
      ArgsKeep(ram, frame, text, base);
      ram := Copied(Zeroed(ram, frame * PAGE_SIZE, PAGE_SIZE), frame * PAGE_SIZE, text + [0]);
      var done := MapRun(USER_ARGS_ADDR, frame, 1, Flags(true, false, true, true));
      KeysAgree(pager.mem, pager.info, pager.spaces, pager.kernelPdpt, pager.kernelPd, pager.kernel);
      BuildsMore(prog, prog.(args := frame), {frame}, used, old(pager.mem).Keys, old(pager.info), pager.mem.Keys,
        pager.info, base, labels);
      RunInSpace(old(pager.mem), pager.mem, pager.spaces, pager.active, USER_ARGS_ADDR, 1);
      mapped := done;
      if done && Protected(old(pager.mem), pager.active, pager.kernel) {
        RunProtected(old(pager.mem), pager.mem, pager.spaces, pager.active, pager.kernel, USER_ARGS_ADDR, frame, 1,
          pager.Supported(Flags(true, false, true, true)));
      }
      if StackOk(old(pager.mem), old(ram), pager.active, prog.stack, pager.nx) {
        StackInUse(old(pager.mem), old(ram), pager.active, prog, pager.nx);
        StackKept(old(pager.mem), pager.mem, old(ram), ram, pager.spaces, pager.active, Data(prog), prog.stack,
          pager.nx);
      }
      if ImageOk(old(pager.mem), old(ram), pager.active, Data(prog), file, headers, pager.nx) {
        ImageKept(old(pager.mem), pager.mem, old(ram), ram, pager.spaces, pager.active, Data(prog), Data(programs[n]),
          file, headers, pager.nx, USER_ARGS_ADDR, 1);
      }
    }

    /** The first part of unload: the frames with the program's bytes. */
    method ReturnData(prog: Program)
      requires pager.frames.Guarded() && DataApart(prog) && Data(prog) <= pager.frames.Used()
      modifies pager.frames
      ensures pager.frames.Guarded() && pager.frames.total == old(pager.frames.total)
      ensures pager.frames.Used() == old(pager.frames.Used()) - Data(prog)
    {
      hide SegmentFrames, SegmentsApart, Range, Pmm.Held, Pmm.Covers;
      SegmentsNone(prog.segments);
      for i := 0 to |prog.segments|
        invariant pager.frames.Guarded() && pager.frames.total == old(pager.frames.total)
        invariant pager.frames.Used() == old(pager.frames.Used()) - SegmentFrames(prog.segments[..i])
      {
        SegmentsPrefix(prog.segments, i);
        ReturnRun(prog.segments[i].phys, prog.segments[i].pages);
      }
      assert prog.segments[..|prog.segments|] == prog.segments;
      if prog.args != 0 {
        pager.frames.ReturnFrame(prog.args);
      }
      if prog.stack != 0 {
        ReturnRun(prog.stack, STACK_PAGES);
      }
    }

    /** unload. With everything of the program in the first gigabyte, exactly its frames are returned,
        each once. */
    method Unload(n: nat)
      requires Valid() && n < |programs| && DataApart(programs[n])
      requires Data(programs[n]) <= pager.frames.Used() && Data(programs[n]) !! pager.mem.Keys
      requires programs[n].pageDir in pager.spaces && programs[n].pageDir != pager.active
      requires programs[n].pageDir != pager.kernelPdpt
      modifies this`programs, pager`mem, pager`info, pager`spaces, pager.frames
      ensures Valid() && programs == old(programs)[n := NoProgram]
      ensures pager.spaces == old(pager.spaces) - {old(programs)[n].pageDir}
      ensures SameLeaves(old(pager.mem), pager.mem, pager.spaces)
      ensures SameOwners(old(pager.info), pager.info, old(programs)[n].pageDir)
      ensures old(programs)[n].pageDir in old(pager.mem) && |old(pager.mem)[old(programs)[n].pageDir]| == ENTRIES
      ensures Low(old(pager.mem), old(programs)[n].pageDir) ==>
        && pager.frames.Used() == old(pager.frames.Used()) - Footprint(old(programs)[n], old(pager.info))
        && pager.mem.Keys == old(pager.mem).Keys - Owned(old(pager.info), old(programs)[n].pageDir)
      ensures old(pager.frames.Used()) - Footprint(old(programs)[n], old(pager.info)) <=
        pager.frames.Used() <= old(pager.frames.Used())
      ensures pager.mem.Keys <= old(pager.mem).Keys && pager.frames.total == old(pager.frames.total)
      ensures pager.active == old(pager.active)
    {
      hide TablesOk, SameLeaves, SameOwners, DataApart, Data, Low, Owned, UsersUp, Pmm.Held, Pmm.Covers;
      var prog := programs[n];
      RootNonzero(pager.mem, pager.info, pager.spaces, pager.kernelPdpt, pager.kernelPd, pager.kernel, prog.pageDir);
      ReturnData(prog);
      pager.DestroySpace(prog.pageDir);
      programs := programs[n := NoProgram];
    }

    /** Work in progress: the active space is new, and `spaces0` are all the others. */
    ghost predicate InProgress(n: nat, base: set<nat>, labels: map<nat, Info>, spaces0: set<nat>)
      reads this, pager, pager.frames
    {
      && Builds(n, base, labels) && pager.kernelPdpt in spaces0
      && pager.active !in spaces0 && pager.spaces == spaces0 + {pager.active}
    }

    /** Nothing outside the space `dir` has changed, and the space stays below the first gigabyte. */
    ghost predicate TidyAt(dir: nat, mem0: Memory, spaces0: set<nat>)
      reads this, pager
    {
      && dir in pager.mem && |pager.mem[dir]| == ENTRIES && Low(pager.mem, dir)
      && SameLeaves(mem0, pager.mem, spaces0)
    }

    /** All is as before the attempt. */
    ghost predicate Undone(base: set<nat>, labels: map<nat, Info>, mem0: Memory, spaces0: set<nat>)
      reads this, pager, pager.frames
    {
      && Left(base, labels, spaces0) && pager.frames.Used() == base && pager.mem.Keys == labels.Keys
      && SameLeaves(mem0, pager.mem, spaces0)
    }

    /** After a failure, at worst some frames are missing. */
    ghost predicate Left(base: set<nat>, labels: map<nat, Info>, spaces0: set<nat>)
      reads this, pager, pager.frames
    {
      && Valid() && base <= pager.frames.Used() && pager.mem.Keys * base <= labels.Keys && pager.spaces == spaces0
      && SameLabels(labels, pager.info, spaces0)
    }

    /** The way out of a failed load: back to the kernel's space, and unload. */
    method Abandon(n: nat, ghost base: set<nat>, ghost labels: map<nat, Info>, ghost mem0: Memory,
        ghost spaces0: set<nat>)
      requires InProgress(n, base, labels, spaces0)
      modifies this`programs, pager`mem, pager`info, pager`spaces, pager`active, pager.frames
      ensures pager.active == pager.kernelPdpt && programs == old(programs)[n := NoProgram]
      ensures Left(base, labels, spaces0)
      ensures old(TidyAt(pager.active, mem0, spaces0)) ==> Undone(base, labels, mem0, spaces0)
    {
      hide TablesOk, SameLeaves, SameOwners, SameLabels, BuildsOn, Data, DataApart, Owned, Low, UsersUp, Pmm.Held,
           Pmm.Covers;
      ghost var prog, mem1, info1 := programs[n], pager.mem, pager.info;
      BuildsUndone(prog, pager.frames.Used(), pager.mem.Keys, pager.info, base, labels);
      pager.Switch(pager.kernelPdpt);
      Unload(n);
      UndoneLabels(labels, info1, pager.info, prog.pageDir, spaces0);
      if SameLeaves(mem0, mem1, spaces0) {
        SameLeavesTwice(mem0, mem1, pager.mem, spaces0);
      }
    }

    /** A new address space for the program in slot n, and the switch to it. */
    method OpenSpace(n: nat, ghost labels: map<nat, Info>) returns (ok: bool)
      requires Valid() && n < |programs| && programs[n] == NoProgram && labels == pager.info
      modifies this`programs, pager`mem, pager`info, pager`spaces, pager`active, pager.frames
      ensures n < |programs| && programs == old(programs)[n := programs[n]] && programs[n].stack == 0
      ensures programs[n].args == 0
      ensures ok ==>
        && InProgress(n, old(pager.frames.Used()), labels, old(pager.spaces))
        && TidyAt(pager.active, old(pager.mem), old(pager.spaces))
        && Protected(pager.mem, pager.active, pager.kernel)
      ensures !ok ==> programs == old(programs) && pager.active == old(pager.active)
      ensures !ok ==> Undone(old(pager.frames.Used()), labels, old(pager.mem), old(pager.spaces))
    {
      hide Protected, Leaf, TablesOk, SameLeaves, SameLabels, BuildsOn, Owned, Grows, Low, UsersUp, SameBytes,
           Pmm.Held, Pmm.Covers;
      ghost var base, mem0, spaces0 := pager.frames.Used(), pager.mem, pager.spaces;
      KeysAgree(pager.mem, pager.info, pager.spaces, pager.kernelPdpt, pager.kernelPd, pager.kernel);
      KernelIn(pager.mem, pager.info, pager.spaces, pager.kernelPdpt, pager.kernelPd, pager.kernel);
      NothingDone(mem0, ram, labels, base, spaces0);
      var dir := pager.CreateSpace();
      if dir == 0 {
        return false;
      }
      KeysAgree(pager.mem, pager.info, pager.spaces, pager.kernelPdpt, pager.kernelPd, pager.kernel);
      FreshProtected(pager.mem, dir, pager.kernelPdpt, pager.kernel);
      BuildsStart(dir, pager.frames.Used(), pager.mem.Keys, pager.info, base, labels);
      programs := programs[n := programs[n].(pageDir := dir)];
      pager.Switch(dir);
      ok := true;
    }

    /** The middle of loader_run: an address space, and the segments in it. */
    method LoadImage(n: nat, elf: ElfFile, ghost labels: map<nat, Info>) returns (ok: bool, lost: bool)
      requires Valid() && n < |programs| && programs[n] == NoProgram && ElfOk(elf) && labels == pager.info
      modifies this`programs, this`ram, pager`mem, pager`info, pager`spaces, pager`active, pager.frames
      ensures lost ==> AnyStrays(elf.headers, |elf.bytes|)
      ensures !lost ==>
        Valid() && programs == old(programs)[n := programs[n]] && SameBytes(old(ram), ram, old(pager.frames.Used()))
      ensures ok ==>
        && !lost && InProgress(n, old(pager.frames.Used()), labels, old(pager.spaces)) && programs[n].stack == 0
        && programs[n].args == 0
      ensures ok && AllNoWrap(elf.headers) ==> TidyAt(pager.active, old(pager.mem), old(pager.spaces))
      ensures ok && AllNoWrap(elf.headers) ==>
        ImageOk(pager.mem, ram, pager.active, Data(programs[n]), elf.bytes, elf.headers, pager.nx)
      ensures ok && AllNoWrap(elf.headers) && Separate(elf.headers) && pager.nx ==>
        Protected(pager.mem, pager.active, pager.kernel)
      ensures !lost && !ok ==> programs[n] == NoProgram && Left(old(pager.frames.Used()), labels, old(pager.spaces))
      ensures !lost && !ok ==> pager.active == old(pager.active) || pager.active == pager.kernelPdpt
      ensures !lost && !ok && AllNoWrap(elf.headers) ==>
        Undone(old(pager.frames.Used()), labels, old(pager.mem), old(pager.spaces))
    {
      hide Separate, Protected, TablesOk, SameLeaves, SameLabels, OnlySpace, BuildsOn, Data, Low, ImageOk, AllNoWrap,
           AnyStrays, UsersUp, SameBytes, Pmm.Held, Pmm.Covers;
      ghost var base, mem0, spaces0 := pager.frames.Used(), pager.mem, pager.spaces;
      SameBytesSelf(ram, base);
      lost := false;
      ok := OpenSpace(n, labels);
      if !ok {
        return;
      }
      ghost var mem1 := pager.mem;
      ok, lost := LoadAll(n, elf.bytes, elf.headers, base, labels);
      if lost {
        return;
      }
      if AllNoWrap(elf.headers) {
        TidyStill(mem0, mem1, pager.mem, spaces0, pager.active);
      }
      if !ok {
        Abandon(n, base, labels, mem0, spaces0);
      }
    }

    /** The program in slot n is complete. */
    ghost predicate Ready(n: nat, base: set<nat>, labels: map<nat, Info>, spaces0: set<nat>)
      reads this, pager, pager.frames
    {
      && Valid() && n < |programs| && !programs[n].inUse && programs[n].pageDir !in spaces0
      && pager.kernelPdpt in spaces0
      && pager.spaces == spaces0 + {programs[n].pageDir}
      && BuildsOn(programs[n], pager.frames.Used(), pager.mem.Keys, pager.info, base, labels)
    }

    /** What a program finds besides its segments: a stack and, unless memory ran out on the way, its arguments. */
    ghost predicate EnvironmentOk(n: nat, args: seq<nat>, mapped: bool)
      reads this, pager
    {
      && n < |programs| && StackOk(pager.mem, ram, programs[n].pageDir, programs[n].stack, pager.nx)
      && (programs[n].args != 0 ==> ArgsOk(ram, programs[n].args, args))
      && (mapped ==> programs[n].args != 0 && ArgsMapped(pager.mem, programs[n].pageDir, programs[n].args, pager.nx))
    }

    /** Every segment that shares no page with another, nor with stack and arguments, is in place. */
    ghost predicate ImageAt(n: nat, elf: ElfFile)
      requires n < |programs|
      reads this, pager
    {
      ImageOk(pager.mem, ram, programs[n].pageDir, Data(programs[n]), elf.bytes, elf.headers, pager.nx)
    }

    /** The end of loader_run: stack and arguments, then back to the kernel's space. */
    method Finish(n: nat, elf: ElfFile, args: seq<nat>, ghost base: set<nat>, ghost labels: map<nat, Info>,
        ghost mem0: Memory, ghost spaces0: set<nat>)
        returns (ok: bool, ghost mapped: bool)
      requires InProgress(n, base, labels, spaces0) && programs[n].stack == 0 && programs[n].args == 0
      modifies this`programs, this`ram, pager`mem, pager`info, pager`spaces, pager`active, pager.frames
      ensures Valid() && programs == old(programs)[n := programs[n]] && pager.active == pager.kernelPdpt
      ensures SameBytes(old(ram), ram, base)
      ensures ok ==>
        && Ready(n, base, labels, spaces0) && programs[n].pageDir == old(programs)[n].pageDir
        && EnvironmentOk(n, args, mapped)
      ensures ok && !mapped ==> pager.Exhausted()
      ensures ok && old(TidyAt(pager.active, mem0, spaces0)) ==> TidyAt(programs[n].pageDir, mem0, spaces0)
      ensures ok && old(ImageAt(n, elf)) ==> ImageAt(n, elf)
      ensures ok && mapped && pager.nx && old(Protected(pager.mem, pager.active, pager.kernel)) ==>
        Protected(pager.mem, programs[n].pageDir, pager.kernel)
      ensures !ok ==> programs[n] == NoProgram && Left(base, labels, spaces0)
      ensures !ok && old(TidyAt(pager.active, mem0, spaces0)) ==> Undone(base, labels, mem0, spaces0)
    {
      hide Protected, TablesOk, SameLeaves, SameLabels, OnlySpace, MappedRun, BuildsOn, Data, Low, ImageOk, StackOk,
           ArgsOk, ArgsMapped, SameBytes, UsersUp, Pmm.Held, Pmm.Covers;
      ghost var tidy, dir := TidyAt(pager.active, mem0, spaces0), pager.active;
      mapped := false;
      SameBytesSelf(ram, base);
      if |programs[n].segments| == 0 {
        Abandon(n, base, labels, mem0, spaces0);
        return false, false;
      }
      ok := AddStack(n, elf.bytes, elf.headers, base, labels);
      if tidy {
        TidyStill(mem0, old(pager.mem), pager.mem, spaces0, dir);
      }
      if !ok {
        Abandon(n, base, labels, mem0, spaces0);
        return;
      }
      ghost var mem1, ram1 := pager.mem, ram;
      mapped := AddArgs(n, args, elf.bytes, elf.headers, base, labels);
      SameBytesTwice(old(ram), ram1, ram, base);
      if tidy {
        TidyStill(mem0, mem1, pager.mem, spaces0, dir);
      }
      pager.Switch(pager.kernelPdpt);
    }

    /** The memory side of task_create_ex: a task structure and a kernel stack, or nothing. */
    method CreateTask(taskSize: nat, enabled: bool)
        returns (ok: bool, task: nat, stack: nat, ghost block: HeapModel.Block)
      requires Valid() && heap.Valid() && taskSize < heap.h.word
      modifies heap`mem, heap`blocks, pager.frames
      ensures Valid() && heap.Valid() && pager.frames.total == old(pager.frames.total)
      ensures !ok ==>
        && pager.frames.Used() == old(pager.frames.Used())
        && HeapModel.Live(heap.blocks) == HeapModel.Live(old(heap.blocks))
      ensures ok ==> !old(pager.Exhausted())
      ensures ok ==> stack != 0 && old(pager.frames.Used()) !! Range(stack, stack + STACK_FRAMES)
      ensures ok ==> pager.frames.Used() == old(pager.frames.Used()) + Range(stack, stack + STACK_FRAMES)
      ensures ok ==>
        && block !in HeapModel.Live(old(heap.blocks))
        && HeapModel.Live(heap.blocks) == HeapModel.Live(old(heap.blocks)) + {block}
        && HeapModel.Payload(heap.h, block) == task
    {
      hide TablesOk, UsersUp, Range, HeapModel.Live, HeapModel.ShapeOk, Heap.KHeap.Ready, Heap.KHeap.Absent, Pmm.Held,
           Pmm.Covers;
      ok, stack := false, 0;
      if !enabled {
        task, block := 0, HeapModel.Block(0, 0, false);
        return;
      }
      task, block := heap.Acquire(taskSize);
      if task == 0 {
        return;
      }
      ghost var used := pager.frames.Used();
      stack := pager.frames.TakeFrames(STACK_FRAMES);
      if stack == 0 {
        heap.Dispose(task, block);
        return;
      }
      FreshRun(used, pager.frames.total, stack, STACK_FRAMES);
      assert stack in Range(stack, stack + STACK_FRAMES) && stack < pager.frames.total;
      ok := true;
    }

    /** The first slot that is not in use. */
    method FreeSlot() returns (n: nat)
      requires |programs| == MAX_PROGRAMS
      ensures n <= MAX_PROGRAMS && (forall i :: 0 <= i < n ==> programs[i].inUse)
      ensures (n < MAX_PROGRAMS ==> !programs[n].inUse)
    {
      for i := 0 to MAX_PROGRAMS
        invariant forall j :: 0 <= j < i ==> programs[j].inUse
      {
        if !programs[i].inUse {
          return i;
        }
      }
      return MAX_PROGRAMS;
    }

    /** All running programs, side by side. */
    ghost predicate AllResident()
      reads this, pager, pager.frames, heap
      requires pager.frames.Valid()
    {
      && Residents(programs, tasks, pager.frames.Used(), pager.mem.Keys, pager.spaces, pager.kernelPdpt)
      && BlocksOk(programs, tasks, blocks, HeapModel.Live(heap.blocks), heap.h)
    }

    /** loader_run from reading the file to leaving the new address space. */
    method Build(n: nat, elf: ElfFile, args: seq<nat>, ghost labels: map<nat, Info>)
        returns (ok: bool, lost: bool, ghost mapped: bool)
      requires Valid() && heap.Valid() && MAX_PROGRAM < heap.h.word && n < |programs| && programs[n] == NoProgram
      requires ElfOk(elf) && labels == pager.info
      modifies this`programs, this`ram, pager`mem, pager`info, pager`spaces, pager`active, pager.frames, heap`mem,
        heap`blocks
      ensures lost ==> AnyStrays(elf.headers, |elf.bytes|)
      ensures !lost ==>
        && Valid() && heap.Valid() && programs == old(programs)[n := programs[n]]
        && SameBytes(old(ram), ram, old(pager.frames.Used()))
      ensures !lost ==> HeapModel.Live(heap.blocks) == HeapModel.Live(old(heap.blocks))
      ensures ok ==>
        !lost && Ready(n, old(pager.frames.Used()), labels, old(pager.spaces)) && pager.active == pager.kernelPdpt
      ensures ok ==> EnvironmentOk(n, args, mapped) && (!mapped ==> pager.Exhausted())
      ensures ok && AllNoWrap(elf.headers) ==> TidyAt(programs[n].pageDir, old(pager.mem), old(pager.spaces))
      ensures ok && AllNoWrap(elf.headers) ==> ImageAt(n, elf)
      ensures ok && mapped && AllNoWrap(elf.headers) && Separate(elf.headers) && pager.nx ==>
        Protected(pager.mem, programs[n].pageDir, pager.kernel)
      ensures !lost && !ok ==> programs[n] == NoProgram && Left(old(pager.frames.Used()), labels, old(pager.spaces))
      ensures !lost && !ok ==> pager.active == old(pager.active) || pager.active == pager.kernelPdpt
      ensures !lost && !ok && AllNoWrap(elf.headers) ==>
        Undone(old(pager.frames.Used()), labels, old(pager.mem), old(pager.spaces))
    {
      hide Protected, Separate, TablesOk, SameLeaves, SameLabels, BuildsOn, Data, Low, ImageOk, EnvironmentOk,
           AllNoWrap, AnyStrays, SameBytes, UsersUp, HeapModel.Live, HeapModel.ShapeOk, Heap.KHeap.Ready,
           Heap.KHeap.Absent, Pmm.Held, Pmm.Covers;
      ghost var base, mem0, spaces0 := pager.frames.Used(), pager.mem, pager.spaces;
      KeysAgree(pager.mem, pager.info, pager.spaces, pager.kernelPdpt, pager.kernelPd, pager.kernel);
      NothingDone(mem0, ram, labels, base, spaces0);
      ok, lost, mapped := false, false, false;
      var file;
      ghost var block;
      file, block := heap.Acquire(MAX_PROGRAM);
      if file == 0 {
        return;
      }
      if !elf.good {
        heap.Dispose(file, block);
        return;
      }
      ok, lost := LoadImage(n, elf, labels);
      if lost {
        return;
      }
      ghost var ram1 := ram;
      heap.Dispose(file, block);
      if ok {
        ok, mapped := Finish(n, elf, args, base, labels, mem0, spaces0);
        SameBytesTwice(old(ram), ram1, ram, base);
      }
    }

    /** A program was started in slot n: beyond what was in use, exactly its own frames and tables and its
        task's are, and the others are where they were. */
    ghost predicate Started(n: nat, base: set<nat>, labels: map<nat, Info>, spaces0: set<nat>)
      reads this, pager, pager.frames
    {
      && Valid() && n < |programs| && programs[n].inUse && programs[n].pageDir !in spaces0
      && pager.spaces == spaces0 + {programs[n].pageDir}
      && pager.frames.Used() == base + Own(programs[n], tasks[n]) + Owned(pager.info, programs[n].pageDir)
      && base !! Own(programs[n], tasks[n]) && base !! Owned(pager.info, programs[n].pageDir)
      && pager.mem.Keys == labels.Keys + Owned(pager.info, programs[n].pageDir) && labels.Keys <= base
      && SameLabels(labels, pager.info, spaces0)
    }

    /** The last part of loader_run: the program becomes a task, or is unloaded. A task needs a stack, so a
        program that starts found memory for its arguments as well. */
    method Launch(n: nat, taskSize: nat, enabled: bool, ghost mapped: bool, ghost base: set<nat>,
        ghost labels: map<nat, Info>, ghost mem0: Memory, ghost spaces0: set<nat>)
        returns (ok: bool)
      requires Ready(n, base, labels, spaces0) && heap.Valid() && taskSize < heap.h.word
      requires pager.active == pager.kernelPdpt && (!mapped ==> pager.Exhausted())
      requires Residents(programs, tasks, base, labels.Keys, spaces0, pager.kernelPdpt)
      requires BlocksOk(programs, tasks, blocks, HeapModel.Live(heap.blocks), heap.h)
      modifies this`programs, this`tasks, this`blocks, pager`mem, pager`info, pager`spaces, pager.frames, heap`mem,
        heap`blocks
      ensures Valid() && heap.Valid() && AllResident() && pager.active == pager.kernelPdpt
      ensures ok ==>
        mapped && Started(n, base, labels, spaces0) && pager.mem == old(pager.mem) && pager.info == old(pager.info)
      ensures ok ==>
        && programs == old(programs)[n := old(programs)[n].(inUse := true)] && tasks == old(tasks)[n := tasks[n]]
        && blocks == old(blocks)[n := blocks[n]]
      ensures ok ==>
        && blocks[n] !in HeapModel.Live(old(heap.blocks))
        && HeapModel.Live(heap.blocks) == HeapModel.Live(old(heap.blocks)) + {blocks[n]}
      ensures !ok ==> HeapModel.Live(heap.blocks) == HeapModel.Live(old(heap.blocks)) && Left(base, labels, spaces0)
      ensures !ok ==> programs == old(programs)[n := NoProgram] && tasks == old(tasks) && blocks == old(blocks)
      ensures !ok && old(TidyAt(programs[n].pageDir, mem0, spaces0)) ==> Undone(base, labels, mem0, spaces0)
    {
      hide TablesOk, SameLeaves, SameOwners, SameLabels, BuildsOn, Residents, BlocksOk, Data, DataApart, Footprint,
           Owned, Own, Low, UsersUp, Range, HeapModel.Live, HeapModel.ShapeOk, Heap.KHeap.Ready, Heap.KHeap.Absent,
           Pmm.Held, Pmm.Covers;
      ghost var prog, mem1, info1, used := programs[n], pager.mem, pager.info, pager.frames.Used();
      KeysAgree(pager.mem, pager.info, pager.spaces, pager.kernelPdpt, pager.kernelPd, pager.kernel);
      BuildsUndone(prog, used, pager.mem.Keys, pager.info, base, labels);
      DataRunning(prog, pager.info);
      programs := programs[n := programs[n].(inUse := true)];
      var task, stack;
      ghost var block;
      ok, task, stack, block := CreateTask(taskSize, enabled);
      if ok {
        tasks, blocks := tasks[n := TaskRecord(task, stack)], blocks[n := block];
        LaunchedIs(old(programs), old(tasks), n, prog.(inUse := true), TaskRecord(task, stack), used, pager.mem.Keys,
          pager.info, base, labels, spaces0, pager.kernelPdpt, prog);
        BlocksJoin(old(programs), old(tasks), old(blocks), HeapModel.Live(old(heap.blocks)), heap.h, n,
          prog.(inUse := true), TaskRecord(task, stack), block);
      } else {
        Unload(n);
        UndoneLabels(labels, info1, pager.info, prog.pageDir, spaces0);
        assert programs == old(programs)[n := NoProgram];
        LaunchUndone(old(programs), tasks, n, base, labels.Keys, spaces0, pager.frames.Used(), pager.mem.Keys,
          pager.kernelPdpt);
        BlocksIdle(old(programs), tasks, blocks, HeapModel.Live(old(heap.blocks)), heap.h, n, NoProgram);
        if SameLeaves(mem0, mem1, spaces0) {
          SameLeavesTwice(mem0, mem1, pager.mem, spaces0);
        }
      }
    }

    /** Slot n was free, and no other slot changed. */
    twostate predicate OnlySlot(n: nat)
      reads this
    {
      && n <= |old(programs)| == |programs|
      && if n < |programs| then !old(programs)[n].inUse && programs ==
           old(programs)[n := programs[n]] else programs == old(programs)
    }

    /** loader_run. For a file none of whose segments strays: a run that fails leaves the heap as it was, and
        frames, page tables and address spaces too if no segment wraps; one that succeeds has taken exactly
        the program's frames and its task's, and the program finds its image, its stack and its arguments.
        Either way the bytes of all frames that were in use are untouched. */
    method Run(elf: ElfFile, args: seq<nat>, taskSize: nat, enabled: bool) returns (ok: bool, lost: bool, n: nat)
      requires Valid() && heap.Valid() && AllResident() && ElfOk(elf) && MAX_PROGRAM < heap.h.word
      requires taskSize < heap.h.word
      modifies this, pager`mem, pager`info, pager`spaces, pager`active, pager.frames, heap`mem, heap`blocks
      ensures lost ==> AnyStrays(elf.headers, |elf.bytes|)
      ensures ok ==> !lost
      ensures !lost ==>
        Valid() && heap.Valid() && AllResident() && OnlySlot(n) && SameBytes(old(ram), ram, old(pager.frames.Used()))
      ensures !lost ==> pager.active == old(pager.active) || pager.active == pager.kernelPdpt
      ensures ok ==>
        Started(n, old(pager.frames.Used()), old(pager.info), old(pager.spaces)) && EnvironmentOk(n, args, true)
      ensures ok ==>
        && tasks == old(tasks)[n := tasks[n]] && blocks == old(blocks)[n := blocks[n]]
        && RightsOk(pager.mem, programs[n].pageDir)
      ensures ok ==>
        && blocks[n] !in HeapModel.Live(old(heap.blocks))
        && HeapModel.Live(heap.blocks) == HeapModel.Live(old(heap.blocks)) + {blocks[n]}
      ensures ok && AllNoWrap(elf.headers) ==> TidyAt(programs[n].pageDir, old(pager.mem), old(pager.spaces))
      ensures ok && AllNoWrap(elf.headers) ==> ImageAt(n, elf)
      ensures ok && AllNoWrap(elf.headers) && Separate(elf.headers) && pager.nx ==>
        Protected(pager.mem, programs[n].pageDir, pager.kernel)
      ensures !lost && !ok ==>
        HeapModel.Live(heap.blocks) == HeapModel.Live(old(heap.blocks)) && tasks == old(tasks) && blocks == old(blocks)
      ensures !lost && !ok ==>
        (n < |programs| ==> !programs[n].inUse) && Left(old(pager.frames.Used()), old(pager.info), old(pager.spaces))
      ensures !lost && !ok && AllNoWrap(elf.headers) ==>
        Undone(old(pager.frames.Used()), old(pager.info), old(pager.mem), old(pager.spaces))
    {
      hide Protected, Separate, TablesOk, SameLeaves, SameLabels, BuildsOn, Residents, BlocksOk, Data, Own, Owned,
           Low, ImageOk, EnvironmentOk, AllNoWrap, AnyStrays, SameBytes, UsersUp, RightsOk, Range, HeapModel.Live,
           HeapModel.ShapeOk, Heap.KHeap.Ready, Heap.KHeap.Absent, Pmm.Held, Pmm.Covers;
      ghost var base, mem0, labels, spaces0 := pager.frames.Used(), pager.mem, pager.info, pager.spaces;
      KeysAgree(pager.mem, pager.info, pager.spaces, pager.kernelPdpt, pager.kernelPd, pager.kernel);
      NothingDone(mem0, ram, labels, base, spaces0);
      ok, lost := false, false;
      n := FreeSlot();
      if n == MAX_PROGRAMS {
        return;
      }
      ghost var slots := programs;
      ResidentsIdle(programs, tasks, n, NoProgram, base, labels.Keys, spaces0, pager.kernelPdpt);
      BlocksIdle(programs, tasks, blocks, HeapModel.Live(heap.blocks), heap.h, n, NoProgram);
      programs := programs[n := NoProgram];
      ghost var mapped;
      ok, lost, mapped := Build(n, elf, args, labels);
      if lost {
        return;
      }
      if ok {
        ResidentsIdle(slots[n := NoProgram], tasks, n, programs[n], base, labels.Keys, spaces0, pager.kernelPdpt);
        BlocksIdle(slots[n := NoProgram], tasks, blocks, HeapModel.Live(heap.blocks), heap.h, n, programs[n]);
        assert slots[n := NoProgram][n := programs[n]] == programs;
        ok := Complete(n, elf, args, taskSize, enabled, mapped, base, labels, mem0, spaces0);
      } else {
        assert programs == slots[n := NoProgram];
        ResidentsGrow(programs, tasks, base, labels.Keys, spaces0, pager.frames.Used(), pager.mem.Keys, pager.spaces,
          pager.kernelPdpt);
      }
      assert programs == slots[n := programs[n]];
    }

    /** Launch, for what loader_run promises. */
    method Complete(n: nat, ghost elf: ElfFile, ghost args: seq<nat>, taskSize: nat, enabled: bool, ghost mapped: bool,
        ghost base: set<nat>, ghost labels: map<nat, Info>, ghost mem0: Memory, ghost spaces0: set<nat>)
        returns (ok: bool)
      requires Ready(n, base, labels, spaces0) && heap.Valid() && taskSize < heap.h.word
      requires pager.active == pager.kernelPdpt
      requires EnvironmentOk(n, args, mapped) && (!mapped ==> pager.Exhausted())
      requires Residents(programs, tasks, base, labels.Keys, spaces0, pager.kernelPdpt)
      requires BlocksOk(programs, tasks, blocks, HeapModel.Live(heap.blocks), heap.h)
      modifies this`programs, this`tasks, this`blocks, pager`mem, pager`info, pager`spaces, pager.frames, heap`mem,
        heap`blocks
      ensures Valid() && heap.Valid() && AllResident() && pager.active == pager.kernelPdpt
      ensures programs == old(programs)[n := programs[n]]
      ensures ok ==> Started(n, base, labels, spaces0) && EnvironmentOk(n, args, true)
      ensures ok ==>
        && tasks == old(tasks)[n := tasks[n]] && blocks == old(blocks)[n := blocks[n]]
        && RightsOk(pager.mem, programs[n].pageDir)
      ensures ok ==>
        && blocks[n] !in HeapModel.Live(old(heap.blocks))
        && HeapModel.Live(heap.blocks) == HeapModel.Live(old(heap.blocks)) + {blocks[n]}
      ensures ok && old(TidyAt(programs[n].pageDir, mem0, spaces0)) ==> TidyAt(programs[n].pageDir, mem0, spaces0)
      ensures ok && old(ImageAt(n, elf)) ==> ImageAt(n, elf)
      ensures ok ==> mapped && pager.mem == old(pager.mem) && programs[n].pageDir == old(programs)[n].pageDir
      ensures !ok ==>
        && !programs[n].inUse && HeapModel.Live(heap.blocks) == HeapModel.Live(old(heap.blocks)) && tasks == old(tasks)
        && blocks == old(blocks)
      ensures !ok ==> Left(base, labels, spaces0)
      ensures !ok && old(TidyAt(programs[n].pageDir, mem0, spaces0)) ==> Undone(base, labels, mem0, spaces0)
    {
      hide TablesOk, SameLeaves, SameLabels, BuildsOn, Residents, BlocksOk, Data, Own, Owned, Low, ImageOk, StackOk,
           ArgsOk, ArgsMapped, UsersUp, RightsOk, Range, HeapModel.Live, HeapModel.ShapeOk, Heap.KHeap.Ready,
           Heap.KHeap.Absent, Pmm.Held, Pmm.Covers;
      DataRunning(programs[n], pager.info);
      ok := Launch(n, taskSize, enabled, mapped, base, labels, mem0, spaces0);
      if ok {
        RightsHold(pager.mem, pager.info, pager.spaces, pager.kernelPdpt, pager.kernelPd, pager.kernel,
          programs[n].pageDir);
      }
    }

    /** program_cleanup and the rest of reap: the program's frames, its task's stack and structure. */
    method Reap(n: nat)
      requires Valid() && heap.Valid() && AllResident() && n < |programs| && programs[n].inUse
      requires programs[n].pageDir != pager.active
      modifies this`programs, pager`mem, pager`info, pager`spaces, pager.frames, heap`mem, heap`blocks
      ensures Valid() && heap.Valid() && AllResident() && programs == old(programs)[n := NoProgram]
      ensures pager.active == old(pager.active)
      ensures pager.spaces == old(pager.spaces) - {old(programs)[n].pageDir}
      ensures SameLeaves(old(pager.mem), pager.mem, pager.spaces)
      ensures SameOwners(old(pager.info), pager.info, old(programs)[n].pageDir)
      ensures HeapModel.Live(heap.blocks) == HeapModel.Live(old(heap.blocks)) - {blocks[n]}
      ensures LowIn(old(pager.info), old(programs)[n].pageDir) ==>
        && pager.frames.Used() ==
             old(pager.frames.Used()) - Own(old(programs)[n], tasks[n]) - Owned(old(pager.info),
               old(programs)[n].pageDir)
        && pager.mem.Keys == old(pager.mem).Keys - Owned(old(pager.info), old(programs)[n].pageDir)
    {
      hide TablesOk, SameLeaves, SameOwners, Residents, BlocksOk, Data, DataApart, Footprint, Owned, Low, LowIn,
           UsersUp, Range, HeapModel.Live, HeapModel.ShapeOk, Heap.KHeap.Ready, Heap.KHeap.Absent, Pmm.Held,
           Pmm.Covers;
      ghost var running, used, keys, spaces, info :=
        programs, pager.frames.Used(), pager.mem.Keys, pager.spaces, pager.info;
      KeysAgree(pager.mem, pager.info, pager.spaces, pager.kernelPdpt, pager.kernelPd, pager.kernel);
      ResidentAt(programs, tasks, n, used, keys, spaces, pager.kernelPdpt);
      BlocksLeave(programs, tasks, blocks, HeapModel.Live(heap.blocks), heap.h, n);
      LowIs(pager.mem, pager.info, pager.spaces, pager.kernelPdpt, pager.kernelPd, pager.kernel, programs[n].pageDir);
      ReapSets(programs[n], tasks[n], info, keys);
      Unload(n);
      ReturnRun(tasks[n].stack, STACK_FRAMES);
      ResidentsLeave(running, tasks, n, used, keys, spaces, pager.frames.Used(), pager.mem.Keys, pager.kernelPdpt);
      heap.Dispose(tasks[n].task, blocks[n]);
    }

    /** What is in use now. */
    ghost function Now(): Start
      requires pager.frames.Valid()
      reads this, pager, pager.frames, heap
    {
      Start(pager.frames.Used(), pager.mem.Keys, pager.spaces, HeapModel.Live(heap.blocks))
    }

    /** Between requests: all subsystems in order, programs side by side and low, and the books balanced
        against the start. */
    ghost predicate Serving(start: Start)
      reads this, pager, pager.frames, heap
    {
      && Valid() && heap.Valid() && MAX_PROGRAM < heap.h.word
      && AllResident() && AllLow(programs, pager.info) && Balanced(programs, tasks, blocks, pager.info, Now(), start)
    }

    /** One request to load a program. */
    method ServeLoad(elf: ElfFile, args: seq<nat>, taskSize: nat, enabled: bool, ghost start: Start)
      requires Serving(start) && ElfOk(elf) && AllNoWrap(elf.headers) && taskSize < heap.h.word
      modifies this, pager`mem, pager`info, pager`spaces, pager`active, pager.frames, heap`mem, heap`blocks
      ensures Serving(start) && SameLeaves(old(pager.mem), pager.mem, start.spaces)
      ensures SameBytes(old(ram), ram, start.used)
    {
      hide Protected, Separate, TablesOk, SameLeaves, SameLabels, Residents, BlocksOk, Balanced, AllLow, Own, Owned,
           Low, LowIn, ImageOk, EnvironmentOk, AllNoWrap, AnyStrays, SameBytes, UsersUp, RightsOk, Range,
           HeapModel.Live, HeapModel.ShapeOk, Heap.KHeap.Ready, Heap.KHeap.Absent, Pmm.Held, Pmm.Covers;
      ghost var now, slots, tasks0, blocks0, info0, mem0, ram0 :=
        Now(), programs, tasks, blocks, pager.info, pager.mem, ram;
      KeysAgree(pager.mem, pager.info, pager.spaces, pager.kernelPdpt, pager.kernelPd, pager.kernel);
      NoneStrays(elf.headers, |elf.bytes|);
      StartWithin(programs, tasks, blocks, pager.info, now, start);
      var ok, lost, n := Run(elf, args, taskSize, enabled);
      SameBytesFewer(ram0, ram, now.used, start.used);
      SameLeavesFewer(mem0, pager.mem, now.spaces, start.spaces);
      if ok {
        LowIs(pager.mem, pager.info, pager.spaces, pager.kernelPdpt, pager.kernelPd, pager.kernel, programs[n].pageDir);
        LoadedBooks(slots, tasks0, blocks0, info0, now, start, n, programs[n], tasks[n], blocks[n], pager.info, Now());
      } else {
        FailedBooks(slots, tasks, blocks, info0, now, start, programs, pager.info);
      }
    }

    /** task_schedule hands the processor to a task of the program in that slot, or else to one of the kernel's. */
    method ServeSwitch(n: nat, ghost start: Start)
      requires Serving(start)
      modifies pager`active
      ensures Serving(start)
      ensures pager.active == if n < |programs| && programs[n].inUse then programs[n].pageDir else pager.kernelPdpt
    {
      hide TablesOk, SameLeaves, Residents, BlocksOk, Balanced, AllLow, Own, Owned, Low, LowIn, UsersUp, Range,
           HeapModel.Live, HeapModel.ShapeOk, Heap.KHeap.Ready, Heap.KHeap.Absent, Pmm.Held, Pmm.Covers;
      KernelIn(pager.mem, pager.info, pager.spaces, pager.kernelPdpt, pager.kernelPd, pager.kernel);
      var dir := 0;
      if n < MAX_PROGRAMS && programs[n].inUse {
        ResidentAt(programs, tasks, n, pager.frames.Used(), pager.mem.Keys, pager.spaces, pager.kernelPdpt);
        dir := programs[n].pageDir;
      }
      pager.Switch(dir);
    }

    /** One request to clean up after a program, if there is one in that slot. The scheduler passes over the
        task whose space is active. */
    method ServeEnd(n: nat, ghost start: Start)
      requires Serving(start)
      modifies this`programs, pager`mem, pager`info, pager`spaces, pager.frames, heap`mem, heap`blocks
      ensures Serving(start) && SameLeaves(old(pager.mem), pager.mem, start.spaces)
    {
      hide TablesOk, SameLeaves, SameOwners, Residents, BlocksOk, Balanced, AllLow, Own, Owned, Low, LowIn, UsersUp,
           Range, HeapModel.Live, HeapModel.ShapeOk, Heap.KHeap.Ready, Heap.KHeap.Absent, Pmm.Held, Pmm.Covers;
      ghost var now, slots, info0, mem0 := Now(), programs, pager.info, pager.mem;
      KeysAgree(pager.mem, pager.info, pager.spaces, pager.kernelPdpt, pager.kernelPd, pager.kernel);
      SameLeavesSelf(mem0, start.spaces);
      if n >= MAX_PROGRAMS || !programs[n].inUse || programs[n].pageDir == pager.active {
        return;
      }
      ResidentAt(programs, tasks, n, now.used, now.keys, now.spaces, pager.kernelPdpt);
      Reap(n);
      GoneBooks(slots, tasks, blocks, info0, now, start, n, pager.info, Now(), pager.kernelPdpt, heap.h);
      SameLeavesFewer(mem0, pager.mem, pager.spaces, start.spaces);
    }

    /** Any sequence of loads, ends and switches between programs, with up to four of them side by side: when
        none is left running, frames, page tables, address spaces and live heap blocks are exactly those of the
        start, and neither the bytes nor the translations that were there at the start have changed meanwhile. */
    method Serve(requests: seq<Request>, ghost start: Start)
      requires Serving(start) && forall i :: 0 <= i < |requests| && requests[i].Load? ==>
        ElfOk(requests[i].elf) && AllNoWrap(requests[i].elf.headers) && requests[i].taskSize < heap.h.word
      modifies this, pager`mem, pager`info, pager`spaces, pager`active, pager.frames, heap`mem, heap`blocks
      ensures Serving(start) && SameLeaves(old(pager.mem), pager.mem, start.spaces)
      ensures SameBytes(old(ram), ram, start.used)
      ensures (forall i :: 0 <= i < |programs| ==> !programs[i].inUse) ==> Now() == start
    {
      hide SameLeaves, SameBytes, Valid, AllResident, AllLow, Balanced, AllNoWrap, ElfOk, HeapModel.Live,
           Heap.KHeap.Valid;
      SameLeavesSelf(pager.mem, start.spaces);
      SameBytesSelf(ram, start.used);
      for i := 0 to |requests|
        invariant Serving(start) && SameLeaves(old(pager.mem), pager.mem, start.spaces)
        invariant SameBytes(old(ram), ram, start.used)
      {
        ghost var mem1, ram1 := pager.mem, ram;
        match requests[i] {
          case Load(elf, args, taskSize, enabled) =>
            ServeLoad(elf, args, taskSize, enabled, start);
            SameBytesTwice(old(ram), ram1, ram, start.used);
          case End(n) =>
            ServeEnd(n, start);
          case Resume(n) =>
            ServeSwitch(n, start);
            SameLeavesSelf(mem1, start.spaces);
        }
        SameLeavesTwice(old(pager.mem), mem1, pager.mem, start.spaces);
      }
      Sizes();
      if forall i :: 0 <= i < |programs| ==> !programs[i].inUse {
        AllGone(programs, tasks, blocks, pager.info, Now(), start);
      }
    }

    lemma Sizes()
      requires Valid()
      ensures |programs| == |tasks| == |blocks| && pager.frames.Valid()
    {
    }
  }

  datatype Request =
    | Load(elf: ElfFile, args: seq<nat>, taskSize: nat, enabled: bool)
    | End(slot: nat)
    | Resume(slot: nat)

  lemma SameLeavesFewer(mem: Memory, mem': Memory, spaces: set<nat>, fewer: set<nat>)
    requires SameLeaves(mem, mem', spaces) && fewer <= spaces
    ensures SameLeaves(mem, mem', fewer)
  {
    hide Leaf;
  }

  // ---- steps of the methods ---------------------------------------------------------------------------------

  lemma BuildsFacts(prog: Program, used: set<nat>, keys: set<nat>, info: map<nat, Info>, base: set<nat>,
      labels: map<nat, Info>)
    requires BuildsOn(prog, used, keys, info, base, labels)
    ensures DataApart(prog) && Data(prog) <= used && info.Keys == keys && base <= used
  {
    hide DataApart, Data, Owned;
  }

  lemma FreshRun(used: set<nat>, total: nat, first: nat, count: nat)
    requires FreeRun(used, total, first, count)
    ensures used !! Range(first, first + count)
  {
  }

  lemma PlacedIs(ram: Ram, phys: nat, file: seq<nat>, ph: ProgramHeader)
    requires ph.offset + ph.filesz <= |file|
    ensures Placed(ram, phys, file, ph) ==
      Copied(Zeroed(ram, phys * PAGE_SIZE, PagesFor(ph) * PAGE_SIZE), phys * PAGE_SIZE + Within(ph),
        file[ph.offset..ph.offset + ph.filesz])
  {
  }

  lemma GainsData(prog: Program, prog': Program, r: set<nat>)
    requires Gains(prog, prog', r)
    ensures Data(prog) <= Data(prog') && r <= Data(prog')
  {
    hide Data, DataApart;
  }

  lemma LoadStart(mem: Memory, info: map<nat, Info>, spaces: set<nat>, kernelPdpt: nat, kernelPd: nat, kernel: nat,
      ram: Ram, root: nat, own: set<nat>, file: seq<nat>, headers: seq<ProgramHeader>, nx: bool)
    requires TablesOk(mem, info, spaces, kernelPdpt, kernelPd, kernel) && root in spaces
    ensures OnlySpace(mem, mem, spaces, root) && LoadedUpTo(mem, ram, root, own, file, headers, nx, 0)
  {
    hide Leaf, TablesOk;
    KeysAgree(mem, info, spaces, kernelPdpt, kernelPd, kernel);
  }

  lemma LoadedSkip(mem: Memory, ram: Ram, root: nat, own: set<nat>, file: seq<nat>, headers: seq<ProgramHeader>,
      nx: bool, i: nat)
    requires i < |headers| && !headers[i].load && LoadedUpTo(mem, ram, root, own, file, headers, nx, i)
    ensures LoadedUpTo(mem, ram, root, own, file, headers, nx, i + 1)
  {
    hide Loaded, Accepted, Lonely;
  }

  lemma LoadedEnd(mem: Memory, ram: Ram, root: nat, own: set<nat>, file: seq<nat>, headers: seq<ProgramHeader>,
      nx: bool)
    requires LoadedUpTo(mem, ram, root, own, file, headers, nx, |headers|)
    ensures ImageOk(mem, ram, root, own, file, headers, nx)
  {
    hide Loaded, Accepted, Lonely;
  }

  lemma ArgsKeep(ram: Ram, frame: nat, text: seq<nat>, others: set<nat>)
    requires |text| < USER_ARGS_MAX && frame !in others
    ensures SameBytes(ram, Copied(Zeroed(ram, frame * PAGE_SIZE, PAGE_SIZE), frame * PAGE_SIZE, text + [0]), others)
  {
    forall f, i | f in others && 0 <= i < PAGE_SIZE
      ensures Copied(Zeroed(ram, frame * PAGE_SIZE, PAGE_SIZE), frame * PAGE_SIZE, text + [0])(Byte(f, i)) ==
        ram(Byte(f, i))
    {
      assert f < frame || f > frame;
    }
  }

  lemma SegmentsNone(segments: seq<Segment>)
    ensures SegmentFrames(segments[..0]) == {}
  {
  }

  lemma RootNonzero(mem: Memory, info: map<nat, Info>, spaces: set<nat>, kernelPdpt: nat, kernelPd: nat, kernel: nat,
      root: nat)
    requires TablesOk(mem, info, spaces, kernelPdpt, kernelPd, kernel) && root in spaces
    ensures root != 0
  {
    hide Reach, Rooted, SharesAt, PdRights;
  }

  lemma SameLeavesSelf(mem: Memory, spaces: set<nat>)
    ensures SameLeaves(mem, mem, spaces)
  {
  }

  lemma DataRunning(prog: Program, info: map<nat, Info>)
    ensures Data(prog.(inUse := true)) == Data(prog) && (DataApart(prog) ==> DataApart(prog.(inUse := true)))
    ensures Footprint(prog.(inUse := true), info) == Data(prog) + Owned(info, prog.pageDir)
  {
    hide SegmentFrames, SegmentsApart, Owned;
  }

  lemma StackInUse(mem: Memory, ram: Ram, root: nat, prog: Program, nx: bool)
    requires StackOk(mem, ram, root, prog.stack, nx)
    ensures Range(prog.stack, prog.stack + STACK_PAGES) <= Data(prog)
  {
    StackInData(prog);
  }

  lemma SameBytesSelf(ram: Ram, frames: set<nat>)
    ensures SameBytes(ram, ram, frames)
  {
  }

  lemma SegmentKept(ram: Ram, mid: Ram, ram': Ram, base: set<nat>, own: set<nat>, used: set<nat>)
    requires SameBytes(ram, mid, base) && SameBytes(mid, ram', used) && base <= used && own <= used
    ensures SameBytes(ram, ram', base) && SameBytes(mid, ram', own)
  {
    SameBytesFewer(mid, ram', used, base);
    SameBytesFewer(mid, ram', used, own);
    SameBytesTwice(ram, mid, ram', base);
  }

  lemma NothingDone(mem: Memory, ram: Ram, labels: map<nat, Info>, frames: set<nat>, spaces: set<nat>)
    ensures SameLeaves(mem, mem, spaces) && SameBytes(ram, ram, frames) && SameLabels(labels, labels, spaces)
  {
  }

  lemma UndoneLabels(labels: map<nat, Info>, info1: map<nat, Info>, info: map<nat, Info>, root: nat, spaces: set<nat>)
    requires SameOwners(labels, info1, root) && SameOwners(info1, info, root) && root !in spaces
    ensures SameLabels(labels, info, spaces)
  {
    hide SameOwners, SameLabels;
    OwnersAreLabels(labels, info1, root, spaces);
    OwnersAreLabels(info1, info, root, spaces);
    LabelsTwice(labels, info1, info, spaces);
  }

  /** A complete program with its task takes its place beside the others. */
  lemma LaunchedIs(programs: seq<Program>, tasks: seq<TaskRecord>, n: nat, running: Program, t: TaskRecord,
      used: set<nat>, keys: set<nat>, info: map<nat, Info>, base: set<nat>, labels: map<nat, Info>, spaces0: set<nat>,
      kernelPdpt: nat, prog: Program)
    requires BuildsOn(prog, used, keys, info, base, labels) && n < |programs| && !programs[n].inUse
    requires running == prog.(inUse := true)
    requires Residents(programs, tasks, base, labels.Keys, spaces0, kernelPdpt) && prog.pageDir !in spaces0
    requires kernelPdpt in spaces0
    requires t.stack != 0 && used !! StackFrames(t) && keys <= used
    ensures Residents(programs[n := running], tasks[n := t], used + StackFrames(t), keys, spaces0 + {prog.pageDir},
      kernelPdpt)
    ensures used + StackFrames(t) == base + Own(running, t) + Owned(info, prog.pageDir)
    ensures base !! Own(running, t) && base !! Owned(info, prog.pageDir)
    ensures keys == labels.Keys + Owned(info, prog.pageDir) && labels.Keys <= base
    ensures SameLabels(labels, info, spaces0)
  {
    hide SegmentFrames, SegmentsApart, Owned, Range, Residents, SameOwners, SameLabels;
    assert Data(running) == Data(prog) && DataApart(running);
    BuildsOwners(prog, used, keys, info, base, labels);
    OwnersAreLabels(labels, info, prog.pageDir, spaces0);
    ResidentsJoin(programs, tasks, n, running, t, base, labels.Keys, spaces0, used + StackFrames(t), keys,
      spaces0 + {prog.pageDir}, kernelPdpt);
  }

  lemma LaunchUndone(programs: seq<Program>, tasks: seq<TaskRecord>, n: nat, base: set<nat>, keys: set<nat>,
      spaces: set<nat>, used': set<nat>, keys': set<nat>, kernelPdpt: nat)
    requires n < |programs| && !programs[n].inUse && Residents(programs, tasks, base, keys, spaces, kernelPdpt)
    requires base <= used' && keys' * base <= keys
    ensures Residents(programs[n := NoProgram], tasks, used', keys', spaces, kernelPdpt)
  {
    hide Residents;
    ResidentsIdle(programs, tasks, n, NoProgram, base, keys, spaces, kernelPdpt);
    ResidentsGrow(programs[n := NoProgram], tasks, base, keys, spaces, used', keys', spaces, kernelPdpt);
  }

  lemma ReapSets(prog: Program, t: TaskRecord, info: map<nat, Info>, keys: set<nat>)
    requires Own(prog, t) !! keys && info.Keys == keys && Data(prog) !! StackFrames(t) && t.stack != 0
    ensures Footprint(prog, info) == Data(prog) + Owned(info, prog.pageDir) && Owned(info, prog.pageDir) <= keys
    ensures StackFrames(t) == Range(t.stack, t.stack + STACK_FRAMES) && StackFrames(t) !! Footprint(prog, info)
    ensures StackFrames(t) !! keys
    ensures Own(prog, t) == Data(prog) + StackFrames(t) && 0 !in StackFrames(t)
  {
    hide Data, Range;
  }

  lemma Untouching(mem: Memory, spaces: set<nat>, root: nat, ram: Ram, own: set<nat>)
    requires root in mem
    ensures SameBytes(ram, ram, own) && OnlySpace(mem, mem, spaces, root)
    ensures forall start: nat, count: nat :: start + count * PAGE_SIZE <= WORD ==>
      OnlyRun(mem, mem, spaces, root, start, count)
  {
    hide Leaf, PathOf;
  }

  lemma RunStart(mem: Memory, spaces: set<nat>, root: nat, start: nat, first: nat, count: nat, flags: Flags)
    requires start + count * PAGE_SIZE <= WORD
    ensures OnlyRun(mem, mem, spaces, root, start, 0) && MappedRun(mem, root, start, first, 0, flags)
  {
    hide Leaf, PathOf;
  }

  lemma RunStep(mem: Memory, mid: Memory, mem': Memory, spaces: set<nat>, root: nat, kernel: nat, start: nat,
      first: nat, count: nat, i: nat, flags: Flags, ok: bool)
    requires start % PAGE_SIZE == 0 && USER_LOAD_ADDR <= start && start + count * PAGE_SIZE <= 0x4000_0000 && i < count
    requires kernel * 0x20_0000 <= USER_LOAD_ADDR && root in spaces
    requires OnlyRun(mem, mid, spaces, root, start, i) && MappedRun(mid, root, start, first, i, flags)
    requires if ok then
      OnlyPage(mid, mem', spaces, root, kernel, PathOf((start + i * PAGE_SIZE) % WORD), Make(first + i, flags))
      else SameLeaves(mid, mem', spaces)
    ensures (start + i * PAGE_SIZE) % WORD == start + i * PAGE_SIZE < 0x4000_0000
    ensures OnlyRun(mem, mem', spaces, root, start, i + 1) && OnlyRun(mem, mem', spaces, root, start, count)
    ensures ok ==> MappedRun(mem', root, start, first, i + 1, flags)
  {
    hide Leaf, PathOf, KernelPath, InRun, MappedRun;
    var va := RunPage(start, i);
    assert va == start + i * PAGE_SIZE;
    UserPath(va, kernel);
    forall page: seq<nat>
      ensures InRun(page, start, i + 1) <==> InRun(page, start, i) || page == PathOf(va)
      ensures InRun(page, start, i + 1) ==> InRun(page, start, count)
    {
      InRunStep(page, start, i, count);
    }
    if ok {
      MappedStep(mid, mem', spaces, root, kernel, start, first, i, flags);
    }
  }

  lemma InRunStep(page: seq<nat>, start: nat, i: nat, count: nat)
    requires i < count && start + count * PAGE_SIZE <= WORD
    ensures InRun(page, start, i + 1) <==> InRun(page, start, i) || page == PathOf(RunPage(start, i))
    ensures InRun(page, start, i + 1) ==> InRun(page, start, count)
  {
    hide PathOf;
  }

  lemma MappedStep(mid: Memory, mem': Memory, spaces: set<nat>, root: nat, kernel: nat, start: nat, first: nat, i: nat,
      flags: Flags)
    requires start % PAGE_SIZE == 0 && start + (i + 1) * PAGE_SIZE <= WORD && root in spaces
    requires MappedRun(mid, root, start, first, i, flags)
    requires OnlyPage(mid, mem', spaces, root, kernel, PathOf(RunPage(start, i)), Make(first + i, flags))
    ensures MappedRun(mem', root, start, first, i + 1, flags)
  {
    hide Leaf, PathOf, KernelPath;
    forall j | 0 <= j < i + 1
      ensures Leaf(mem', root, PathOf(RunPage(start, j))) == Make(first + j, flags)
    {
      PathOfUnique(RunPage(start, i), RunPage(start, j));
    }
  }
}
