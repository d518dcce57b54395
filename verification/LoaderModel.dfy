/**
 What the program loader promises: which segments it accepts, what a loaded segment looks like to the
 program, and which frames a program owns.
 */
module LoaderModel {
  import opened Frames
  import opened PageTables
  import opened AddressSpaces
  import opened Paging32

  const USER_LOAD_ADDR: nat := 0x2000_0000
  const USER_STACK_TOP: nat := 0x2020_0000
  const USER_STACK_SIZE: nat := 8192
  const STACK_BOTTOM: nat := USER_STACK_TOP - USER_STACK_SIZE
  const USER_ARGS_ADDR: nat := 0x2010_0000
  const USER_ARGS_MAX: nat := 256
  const MAX_SEGMENTS: nat := 8
  const MAX_PROGRAMS: nat := 4
  const MAX_PROGRAM: nat := 65536
  const STACK_PAGES: nat := USER_STACK_SIZE / PAGE_SIZE
  const STACK_FRAMES: nat := 2

  // ---- segments -----------------------------------------------------------------------------------------

  /** A program header; `load` is type == PT_LOAD, `w` and `x` are PF_W and PF_X. */
  datatype ProgramHeader = ProgramHeader(load: bool, offset: nat, vaddr: nat, filesz: nat, memsz: nat, w: bool, x: bool)

  predicate HeaderOk(ph: ProgramHeader) {
    ph.offset < WORD && ph.vaddr < WORD && ph.filesz < WORD && ph.memsz < WORD
  }

  function PageStart(ph: ProgramHeader): nat { ph.vaddr / PAGE_SIZE * PAGE_SIZE }
  function Within(ph: ProgramHeader): nat { ph.vaddr % PAGE_SIZE }

  /** In 32-bit arithmetic. */
  function PagesFor(ph: ProgramHeader): nat { (Within(ph) + ph.memsz + PAGE_SIZE - 1) % WORD / PAGE_SIZE }

  /** The checks of load_segment. */
  predicate Accepted(ph: ProgramHeader, fileSize: nat) {
    && PagesFor(ph) != 0
    && ph.filesz <= ph.memsz
    && ph.offset <= fileSize && ph.filesz <= fileSize - ph.offset
    && ph.vaddr >= USER_LOAD_ADDR && (ph.vaddr + ph.memsz) % WORD <= USER_STACK_TOP
  }

  predicate NoWrap(ph: ProgramHeader) { ph.vaddr + ph.memsz < WORD }

  /** The bytes from the file do not fit the frames taken for the segment, or its pages run past the top of
      the address space and on from address 0, where the kernel is. */
  predicate Strays(ph: ProgramHeader) {
    Within(ph) + ph.filesz > PagesFor(ph) * PAGE_SIZE || PageStart(ph) + PagesFor(ph) * PAGE_SIZE > WORD
  }

  /** An accepted segment lies in the region set aside for programs if and only if its end does not
      wrap around the 32-bit address space, and then its pages cover it. */
  lemma AcceptedRange(ph: ProgramHeader, fileSize: nat)
    requires HeaderOk(ph) && Accepted(ph, fileSize)
    ensures NoWrap(ph) <==> ph.vaddr + ph.memsz <= USER_STACK_TOP
    ensures NoWrap(ph) ==> PageStart(ph) + PagesFor(ph) * PAGE_SIZE <= USER_STACK_TOP
    ensures NoWrap(ph) ==> Within(ph) + ph.memsz <= PagesFor(ph) * PAGE_SIZE && !Strays(ph)
    ensures USER_LOAD_ADDR <= PageStart(ph) < WORD && PageStart(ph) + Within(ph) == ph.vaddr
  {
    if NoWrap(ph) {
      assert (ph.vaddr + ph.memsz) % WORD == ph.vaddr + ph.memsz;
    }
  }

  /** A segment whose end does not wrap is accepted if and only if it covers a byte or starts inside a page, its
      bytes from the file are no more than its size and inside the file, and it lies in the region for programs. */
  lemma AcceptedExactly(ph: ProgramHeader, fileSize: nat)
    requires HeaderOk(ph) && NoWrap(ph)
    ensures Accepted(ph, fileSize) <==> (
        && (ph.memsz > 0 || ph.vaddr % PAGE_SIZE != 0)
        && ph.filesz <= ph.memsz && ph.offset + ph.filesz <= fileSize
        && USER_LOAD_ADDR <= ph.vaddr && ph.vaddr + ph.memsz <= USER_STACK_TOP)
  {
    assert (ph.vaddr + ph.memsz) % WORD == ph.vaddr + ph.memsz;
    if ph.vaddr + ph.memsz <= USER_STACK_TOP {
      var sum := Within(ph) + ph.memsz + PAGE_SIZE - 1;
      assert sum % WORD == sum;
    }
  }

  /** A wrapping segment that passes every check, two pages long, whose second page would be page 0. */
  const WrappingHeader: ProgramHeader := ProgramHeader(true, 0, 0xFFFF_FFFF, 0, 0x201, false, false)

  lemma WrappingSegmentAccepted()
    ensures HeaderOk(WrappingHeader) && Accepted(WrappingHeader, 0) && !NoWrap(WrappingHeader) && Strays(WrappingHeader)
    ensures PagesFor(WrappingHeader) == 2 && (PageStart(WrappingHeader) + PAGE_SIZE) % WORD == 0
  {
    var ph := WrappingHeader;
    assert PagesFor(ph) == 2 && PageStart(ph) == 0xFFFF_F000;
  }

  /** A segment whose size wraps when it is rounded up to pages: every check passes, one frame is taken, and
      32 KB are copied into it. */
  const SpillingHeader: ProgramHeader := ProgramHeader(true, 0, 0x2000_0FFF, 0x8000, 0xFFFF_FFFF, false, false)

  lemma SpillingSegmentAccepted(file: seq<nat>, phys: nat)
    requires |file| == 0x8000
    ensures HeaderOk(SpillingHeader) && Accepted(SpillingHeader, |file|) && PagesFor(SpillingHeader) == 1
    ensures Strays(SpillingHeader)
    ensures exists ram: Ram, a: nat :: Outside(a, phys, 1) && Placed(ram, phys, file, SpillingHeader)(a) != ram(a)
  {
    var ph := SpillingHeader;
    assert PagesFor(ph) == 1 && Within(ph) == 0xFFF;
    hide PagesFor, Within;
    WritesOnlyItsFrames(ph, file, phys);
  }

  /** flags_for_segment */
  function FlagsForSegment(ph: ProgramHeader): Flags { Flags(true, ph.w, true, !ph.x) }

  function DropNx(flags: Flags, nx: bool): Flags { if nx then flags else flags.(nx := false) }

  // ---- the image ------------------------------------------------------------------------------------------

  type Ram = nat -> nat

  function ByteOf(file: seq<nat>, ph: ProgramHeader, i: nat): nat
    requires ph.offset + ph.filesz <= |file|
  {
    if i < ph.filesz then file[ph.offset + i] else 0
  }

  /** The physical address behind a virtual one. */
  ghost function Physical(mem: Memory, root: nat, va: nat): nat
    requires va < WORD
  {
    Leaf(mem, root, PathOf(va)).frame * PAGE_SIZE + va % PAGE_SIZE
  }

  /** At va the program sees byte i of its segment, with the segment's permissions, in a frame of its own. */
  ghost predicate LoadedAt(mem: Memory, ram: Ram, root: nat, own: set<nat>, file: seq<nat>, ph: ProgramHeader,
      nx: bool, va: nat)
    requires va < WORD && ph.vaddr <= va && ph.offset + ph.filesz <= |file|
  {
    var leaf := Leaf(mem, root, PathOf(va));
    && leaf.present && leaf.user && (leaf.write <==> ph.w) && (leaf.nx <==> nx && !ph.x) && leaf.frame in own
    && ram(Physical(mem, root, va)) == ByteOf(file, ph, va - ph.vaddr)
  }

  ghost predicate Loaded(mem: Memory, ram: Ram, root: nat, own: set<nat>, file: seq<nat>, ph: ProgramHeader, nx: bool) {
    && ph.offset + ph.filesz <= |file| && NoWrap(ph)
    && forall va {:trigger LoadedAt(mem, ram, root, own, file, ph, nx, va)} :: ph.vaddr <= va < ph.vaddr + ph.memsz ==>
         LoadedAt(mem, ram, root, own, file, ph, nx, va)
  }

  function Zeroed(ram: Ram, start: nat, n: nat): Ram { (a: nat) => if start <= a < start + n then 0 else ram(a) }

  function Copied(ram: Ram, start: nat, bytes: seq<nat>): Ram {
    (a: nat) => if start <= a < start + |bytes| then bytes[a - start] else ram(a)
  }

  /** The frames of a segment zeroed, then the bytes from the file copied in. */
  function Placed(ram: Ram, phys: nat, file: seq<nat>, ph: ProgramHeader): Ram
    requires ph.offset + ph.filesz <= |file|
  {
    Copied(Zeroed(ram, phys * PAGE_SIZE, PagesFor(ph) * PAGE_SIZE), phys * PAGE_SIZE + Within(ph),
      file[ph.offset..ph.offset + ph.filesz])
  }

  /** Bytes of these frames are the same. */
  ghost predicate SameBytes(ram: Ram, ram': Ram, frames: set<nat>) {
    forall f, i :: f in frames && 0 <= i < PAGE_SIZE ==> ram'(Byte(f, i)) == ram(Byte(f, i))
  }

  function Byte(f: nat, i: nat): nat { f * PAGE_SIZE + i }

  lemma SameBytesTwice(ram: Ram, mid: Ram, ram': Ram, frames: set<nat>)
    requires SameBytes(ram, mid, frames) && SameBytes(mid, ram', frames)
    ensures SameBytes(ram, ram', frames)
  {
    hide Byte;
  }

  lemma SameBytesFewer(ram: Ram, ram': Ram, frames: set<nat>, fewer: set<nat>)
    requires SameBytes(ram, ram', frames) && fewer <= frames
    ensures SameBytes(ram, ram', fewer)
  {
    hide Byte;
  }

  /** Pages start, start + 4096, .. of the space map frames first, first + 1, .. */
  ghost predicate MappedRun(mem: Memory, root: nat, start: nat, first: nat, count: nat, flags: Flags)
    requires start + count * PAGE_SIZE <= WORD
  {
    forall i {:trigger RunPage(start, i)} :: 0 <= i < count ==>
      Leaf(mem, root, PathOf(RunPage(start, i))) == Make(first + i, flags)
  }

  function RunPage(start: nat, i: nat): nat { start + i * PAGE_SIZE }

  /** Page `page` is one of the run. */
  ghost predicate InRun(page: seq<nat>, start: nat, count: nat)
    requires start + count * PAGE_SIZE <= WORD
  {
    exists i: nat {:trigger RunPage(start, i)} :: i < count && page == PathOf(RunPage(start, i))
  }

  /** Outside the run, and in every other space, all pages are as before. */
  ghost predicate OnlyRun(mem: Memory, mem': Memory, spaces: set<nat>, root: nat, start: nat, count: nat)
    requires start + count * PAGE_SIZE <= WORD
  {
    forall r, page: seq<nat> :: r in spaces && |page| == DEPTH && (r != root || !InRun(page, start, count)) ==>
      Leaf(mem', r, page) == Leaf(mem, r, page)
  }

  lemma RunPageOf(start: nat, va: nat, i: nat)
    requires start % PAGE_SIZE == 0 && start <= va < WORD && i == (va - start) / PAGE_SIZE
    requires start + i * PAGE_SIZE < WORD
    ensures PathOf(va) == PathOf(RunPage(start, i)) && va == RunPage(start, i) + va % PAGE_SIZE
  {
    hide PathOf;
    assert va / PAGE_SIZE == RunPage(start, i) / PAGE_SIZE;
    PathOfUnique(va, RunPage(start, i));
  }

  /** A segment copied to fresh frames and mapped is loaded. */
  lemma SegmentLoaded(mem: Memory, ram: Ram, root: nat, own: set<nat>, file: seq<nat>, ph: ProgramHeader, nx: bool,
      phys: nat)
    requires HeaderOk(ph) && Accepted(ph, |file|) && NoWrap(ph)
    requires PageStart(ph) + PagesFor(ph) * PAGE_SIZE <= WORD
    requires MappedRun(mem, root, PageStart(ph), phys, PagesFor(ph), DropNx(FlagsForSegment(ph), nx))
    requires Range(phys, phys + PagesFor(ph)) <= own
    ensures Loaded(mem, Placed(ram, phys, file, ph), root, own, file, ph, nx)
  {
    hide MappedRun, Accepted, PagesFor;
    AcceptedRange(ph, |file|);
    AcceptedFile(ph, |file|);
    var ram' := Placed(ram, phys, file, ph);
    forall va | ph.vaddr <= va < ph.vaddr + ph.memsz
      ensures LoadedAt(mem, ram', root, own, file, ph, nx, va)
    {
      SegmentByte(mem, ram, root, own, file, ph, nx, phys, va);
    }
  }

  lemma AcceptedFile(ph: ProgramHeader, fileSize: nat)
    requires Accepted(ph, fileSize)
    ensures ph.offset + ph.filesz <= fileSize && ph.filesz <= ph.memsz
  {
  }

  lemma SegmentByte(mem: Memory, ram: Ram, root: nat, own: set<nat>, file: seq<nat>, ph: ProgramHeader, nx: bool,
      phys: nat, va: nat)
    requires HeaderOk(ph) && ph.offset + ph.filesz <= |file| && NoWrap(ph) && ph.vaddr <= va < ph.vaddr + ph.memsz
    requires PageStart(ph) + Within(ph) == ph.vaddr && Within(ph) + ph.memsz <= PagesFor(ph) * PAGE_SIZE
    requires PageStart(ph) + PagesFor(ph) * PAGE_SIZE <= WORD
    requires MappedRun(mem, root, PageStart(ph), phys, PagesFor(ph), DropNx(FlagsForSegment(ph), nx))
    requires Range(phys, phys + PagesFor(ph)) <= own
    ensures LoadedAt(mem, Placed(ram, phys, file, ph), root, own, file, ph, nx, va)
  {
    hide PathOf, Leaf, PagesFor, Range;
    var start := PageStart(ph);
    var i := (va - start) / PAGE_SIZE;
    assert start % PAGE_SIZE == 0;
    assert i < PagesFor(ph);
    RunPageOf(start, va, i);
    assert Leaf(mem, root, PathOf(RunPage(start, i))) == Make(phys + i, DropNx(FlagsForSegment(ph), nx));
    assert phys + i in Range(phys, phys + PagesFor(ph));
    assert Physical(mem, root, va) == phys * PAGE_SIZE + Within(ph) + (va - ph.vaddr);
  }

  /** Later mappings of other pages and writes to other frames leave a loaded segment alone. */
  lemma LoadedKept(mem: Memory, mem': Memory, ram: Ram, ram': Ram, spaces: set<nat>, root: nat, own: set<nat>,
      own': set<nat>, file: seq<nat>, ph: ProgramHeader, nx: bool, start: nat, count: nat)
    requires Loaded(mem, ram, root, own, file, ph, nx) && root in spaces && own <= own'
    requires start + count * PAGE_SIZE <= WORD && start % PAGE_SIZE == 0
    requires OnlyRun(mem, mem', spaces, root, start, count) && SameBytes(ram, ram', own)
    requires ph.vaddr + ph.memsz <= start || start + count * PAGE_SIZE <= PageStart(ph) || count == 0
    ensures Loaded(mem', ram', root, own', file, ph, nx)
  {
    hide PathOf, Leaf, OnlyRun;
    forall va | ph.vaddr <= va < ph.vaddr + ph.memsz
      ensures LoadedAt(mem', ram', root, own', file, ph, nx, va)
    {
      assert LoadedAt(mem, ram, root, own, file, ph, nx, va);
      OutsideRun(start, count, va);
      KeptLeaf(mem, mem', spaces, root, start, count, va);
      var f := Leaf(mem, root, PathOf(va)).frame;
      assert Physical(mem, root, va) == Byte(f, va % PAGE_SIZE);
    }
  }

  lemma KeptLeaf(mem: Memory, mem': Memory, spaces: set<nat>, root: nat, start: nat, count: nat, va: nat)
    requires start + count * PAGE_SIZE <= WORD && OnlyRun(mem, mem', spaces, root, start, count) && root in spaces
    requires va < WORD && !InRun(PathOf(va), start, count)
    ensures Leaf(mem', root, PathOf(va)) == Leaf(mem, root, PathOf(va))
  {
    hide Leaf, InRun;
  }

  lemma OutsideRun(start: nat, count: nat, va: nat)
    requires start + count * PAGE_SIZE <= WORD && start % PAGE_SIZE == 0 && va < WORD
    requires va < start || start + count * PAGE_SIZE <= va / PAGE_SIZE * PAGE_SIZE || count == 0
    ensures !InRun(PathOf(va), start, count)
  {
    hide PathOf;
    forall i: nat | i < count
      ensures PathOf(va) != PathOf(RunPage(start, i))
    {
      PathOfUnique(va, RunPage(start, i));
    }
  }

  // ---- several segments -------------------------------------------------------------------------------------

  predicate AllNoWrap(headers: seq<ProgramHeader>) {
    forall j :: 0 <= j < |headers| && headers[j].load ==> NoWrap(headers[j])
  }

  /** Some accepted segment strays. */
  ghost predicate AnyStrays(headers: seq<ProgramHeader>, fileSize: nat) {
    exists j :: 0 <= j < |headers| && headers[j].load && Accepted(headers[j], fileSize) && Strays(headers[j])
  }

  /** None does when none wraps. */
  lemma NoneStrays(headers: seq<ProgramHeader>, fileSize: nat)
    requires AllNoWrap(headers) && forall j :: 0 <= j < |headers| ==> HeaderOk(headers[j])
    ensures !AnyStrays(headers, fileSize)
  {
    hide Strays, NoWrap;
    forall j | 0 <= j < |headers| && headers[j].load && Accepted(headers[j], fileSize)
      ensures !Strays(headers[j])
    {
      AcceptedRange(headers[j], fileSize);
    }
  }

  predicate PagesApart(a: ProgramHeader, b: ProgramHeader) {
    || PageStart(a) + PagesFor(a) * PAGE_SIZE <= PageStart(b)
    || PageStart(b) + PagesFor(b) * PAGE_SIZE <= PageStart(a)
  }

  /** Segment j shares no page with another segment. */
  predicate Lonely(headers: seq<ProgramHeader>, j: nat)
    requires j < |headers|
  {
    headers[j].load && forall k :: 0 <= k < |headers| && k != j && headers[k].load ==>
      PagesApart(headers[j], headers[k])
  }

  /** Nor with the stack and the argument page. */
  predicate ClearOfStack(ph: ProgramHeader) {
    && ph.vaddr + ph.memsz <= STACK_BOTTOM
    && (ph.vaddr + ph.memsz <= USER_ARGS_ADDR || USER_ARGS_ADDR + PAGE_SIZE <= PageStart(ph))
  }

  /** All segments before i that stand alone are loaded. */
  ghost predicate LoadedUpTo(mem: Memory, ram: Ram, root: nat, own: set<nat>, file: seq<nat>,
      headers: seq<ProgramHeader>, nx: bool, i: nat)
    requires i <= |headers|
  {
    forall j :: 0 <= j < i && headers[j].load ==>
      Accepted(headers[j], |file|) && (Lonely(headers, j) ==> Loaded(mem, ram, root, own, file, headers[j], nx))
  }

  /** The next segment is loaded without disturbing those before it. */
  lemma LoadedNext(mem: Memory, mem': Memory, ram: Ram, ram': Ram, spaces: set<nat>, root: nat, own: set<nat>,
      own': set<nat>, file: seq<nat>, headers: seq<ProgramHeader>, nx: bool, i: nat)
    requires i < |headers| && headers[i].load && (forall j :: 0 <= j < |headers| ==> HeaderOk(headers[j]))
    requires AllNoWrap(headers)
    requires LoadedUpTo(mem, ram, root, own, file, headers, nx, i) && root in spaces && own <= own'
    requires SameBytes(ram, ram', own)
    requires Accepted(headers[i], |file|) && PageStart(headers[i]) + PagesFor(headers[i]) * PAGE_SIZE <= WORD
    requires OnlyRun(mem, mem', spaces, root, PageStart(headers[i]), PagesFor(headers[i]))
    requires Loaded(mem', ram', root, own', file, headers[i], nx)
    ensures LoadedUpTo(mem', ram', root, own', file, headers, nx, i + 1)
  {
    hide Loaded, OnlyRun, SameBytes, PagesFor, Accepted;
    forall j | 0 <= j < i && headers[j].load && Lonely(headers, j)
      ensures Loaded(mem', ram', root, own', file, headers[j], nx)
    {
      AcceptedRange(headers[j], |file|);
      assert PagesApart(headers[j], headers[i]);
      LoadedKept(mem, mem', ram, ram', spaces, root, own, own', file, headers[j], nx, PageStart(headers[i]),
        PagesFor(headers[i]));
    }
  }

  /** Pages mapped outside a segment leave all such segments loaded. */
  ghost predicate ImageOk(mem: Memory, ram: Ram, root: nat, own: set<nat>, file: seq<nat>, headers: seq<ProgramHeader>,
      nx: bool) {
    forall j :: 0 <= j < |headers| && headers[j].load && Lonely(headers, j) && ClearOfStack(headers[j]) ==>
      Loaded(mem, ram, root, own, file, headers[j], nx)
  }

  lemma ImageKept(mem: Memory, mem': Memory, ram: Ram, ram': Ram, spaces: set<nat>, root: nat, own: set<nat>,
      own': set<nat>, file: seq<nat>, headers: seq<ProgramHeader>, nx: bool, start: nat, count: nat)
    requires ImageOk(mem, ram, root, own, file, headers, nx) && root in spaces && own <= own'
    requires SameBytes(ram, ram', own)
    requires (start == STACK_BOTTOM && count == STACK_PAGES) || (start == USER_ARGS_ADDR && count == 1)
    requires OnlyRun(mem, mem', spaces, root, start, count)
    ensures ImageOk(mem', ram', root, own', file, headers, nx)
  {
    hide Loaded, OnlyRun, SameBytes, Lonely;
    forall j | 0 <= j < |headers| && headers[j].load && Lonely(headers, j) && ClearOfStack(headers[j])
      ensures Loaded(mem', ram', root, own', file, headers[j], nx)
    {
      LoadedKept(mem, mem', ram, ram', spaces, root, own, own', file, headers[j], nx, start, count);
    }
  }

  /** Two zeroed pages below USER_STACK_TOP, writable and not executable. */
  ghost predicate StackOk(mem: Memory, ram: Ram, root: nat, stack: nat, nx: bool) {
    && stack != 0 && MappedRun(mem, root, STACK_BOTTOM, stack, STACK_PAGES, Flags(true, true, true, nx))
    && forall f, i :: stack <= f < stack + STACK_PAGES && 0 <= i < PAGE_SIZE ==> ram(Byte(f, i)) == 0
  }

  /** What fits of the argument string: 255 bytes, and a terminator. */
  function ArgsText(args: seq<nat>): seq<nat> { if |args| < USER_ARGS_MAX then args else args[..USER_ARGS_MAX - 1] }

  ghost predicate ArgsOk(ram: Ram, frame: nat, args: seq<nat>) {
    forall i :: 0 <= i < PAGE_SIZE ==>
      ram(Byte(frame, i)) == if i < |args| && i < USER_ARGS_MAX - 1 then args[i] else 0
  }

  ghost predicate ArgsMapped(mem: Memory, root: nat, frame: nat, nx: bool) {
    MappedRun(mem, root, USER_ARGS_ADDR, frame, 1, Flags(true, false, true, nx))
  }

  /** On every user page of the program the processor allows exactly what the page's own entry says. */
  ghost predicate RightsOk(mem: Memory, root: nat) {
    forall va: nat {:trigger PathOf(va)} ::
      USER_LOAD_ADDR <= va < WORD && Leaf(mem, root, PathOf(va)).present && Leaf(mem, root, PathOf(va)).user ==>
      Effective(mem, root, PathOf(va), 1) == Leaf(mem, root, PathOf(va))
  }

  /** What the processor allows a program on a byte of a loaded segment: writing if and only if the header says so,
      executing if and only if the header says so or the processor cannot forbid it. */
  lemma SegmentRights(mem: Memory, ram: Ram, root: nat, own: set<nat>, file: seq<nat>, ph: ProgramHeader, nx: bool,
      va: nat)
    requires Loaded(mem, ram, root, own, file, ph, nx) && RightsOk(mem, root) && USER_LOAD_ADDR <= ph.vaddr
    requires ph.vaddr <= va < ph.vaddr + ph.memsz
    ensures var e := Effective(mem, root, PathOf(va), 1);
            e.present && e.user && (e.write <==> ph.w) && (!e.nx <==> ph.x || !nx)
  {
    hide Effective, Leaf, PathOf;
    assert LoadedAt(mem, ram, root, own, file, ph, nx, va);
  }

  // ---- no page both writable and executable -----------------------------------------------------------------

  predicate Sealed(e: Entry) { e.present && e.write ==> e.nx }

  /** No page of the space, the kernel's own aside, is both writable and executable. */
  ghost predicate Protected(mem: Memory, root: nat, kernel: nat) {
    forall page: seq<nat> :: |page| == DEPTH && !KernelPath(page, kernel) ==> Sealed(Leaf(mem, root, page))
  }

  /** No segment asks to be both writable and executable. */
  predicate Separate(headers: seq<ProgramHeader>) {
    forall j :: 0 <= j < |headers| && headers[j].load ==> !(headers[j].w && headers[j].x)
  }

  /** A run of pages with sealed flags. */
  lemma RunProtected(mem: Memory, mem': Memory, spaces: set<nat>, root: nat, kernel: nat, start: nat, first: nat,
      count: nat, flags: Flags)
    requires start + count * PAGE_SIZE <= WORD && root in spaces && Sealed(Make(0, flags))
    requires OnlyRun(mem, mem', spaces, root, start, count) && MappedRun(mem', root, start, first, count, flags)
    requires Protected(mem, root, kernel)
    ensures Protected(mem', root, kernel)
  {
    hide Leaf, PathOf, KernelPath;
    forall page: seq<nat> | |page| == DEPTH && !KernelPath(page, kernel)
      ensures Sealed(Leaf(mem', root, page))
    {
      if InRun(page, start, count) {
        var i: nat :| i < count && page == PathOf(RunPage(start, i));
        assert Leaf(mem', root, PathOf(RunPage(start, i))) == Make(first + i, flags);
      } else {
        assert Leaf(mem', root, page) == Leaf(mem, root, page);
      }
    }
  }

  lemma FreshProtected(mem: Memory, root: nat, kernelPdpt: nat, kernel: nat)
    requires forall page: seq<nat> :: |page| == DEPTH ==>
      Leaf(mem, root, page) == if KernelPath(page, kernel) then Leaf(mem, kernelPdpt, page) else Zero
    ensures Protected(mem, root, kernel)
  {
    hide Leaf, KernelPath;
  }

  /** User pages are not the kernel's. */
  lemma UserPath(va: nat, kernel: nat)
    requires USER_LOAD_ADDR <= va < WORD && kernel * 0x20_0000 <= USER_LOAD_ADDR
    ensures !KernelPath(PathOf(va), kernel)
  {
  }

  lemma RightsHold(mem: Memory, info: map<nat, Info>, spaces: set<nat>, kernelPdpt: nat, kernelPd: nat, kernel: nat,
      root: nat)
    requires TablesOk(mem, info, spaces, kernelPdpt, kernelPd, kernel) && UsersUp(mem, spaces, kernel) && root in spaces
    requires kernel * 0x20_0000 <= USER_LOAD_ADDR
    ensures RightsOk(mem, root)
  {
    hide TablesOk, UsersUp, Leaf, Effective, PathOf, KernelPath;
    forall va: nat | USER_LOAD_ADDR <= va < WORD && Leaf(mem, root, PathOf(va)).present
        && Leaf(mem, root, PathOf(va)).user
      ensures Effective(mem, root, PathOf(va), 1) == Leaf(mem, root, PathOf(va))
    {
      UserPath(va, kernel);
      EffectiveUser(mem, info, spaces, kernelPdpt, kernelPd, kernel, root, PathOf(va));
    }
  }

  /** The argument page leaves the stack alone. */
  lemma StackKept(mem: Memory, mem': Memory, ram: Ram, ram': Ram, spaces: set<nat>, root: nat, own: set<nat>,
      stack: nat, nx: bool)
    requires StackOk(mem, ram, root, stack, nx) && Range(stack, stack + STACK_PAGES) <= own && root in spaces
    requires OnlyRun(mem, mem', spaces, root, USER_ARGS_ADDR, 1) && SameBytes(ram, ram', own)
    ensures StackOk(mem', ram', root, stack, nx)
  {
    hide PathOf, Leaf, OnlyRun;
    forall i | 0 <= i < STACK_PAGES
      ensures Leaf(mem', root, PathOf(RunPage(STACK_BOTTOM, i))) ==
        Make(stack + i, Flags(true, true, true, nx))
    {
      var va := RunPage(STACK_BOTTOM, i);
      OutsideRun(USER_ARGS_ADDR, 1, va);
      KeptLeaf(mem, mem', spaces, root, USER_ARGS_ADDR, 1, va);
    }
  }

  lemma StackMade(mem: Memory, ram: Ram, root: nat, stack: nat, nx: bool)
    requires stack != 0
    requires MappedRun(mem, root, STACK_BOTTOM, stack, STACK_PAGES, Flags(true, true, true, nx))
    ensures StackOk(mem, Zeroed(ram, stack * PAGE_SIZE, USER_STACK_SIZE), root, stack, nx)
  {
    hide MappedRun;
  }

  lemma ArgsMade(ram: Ram, frame: nat, args: seq<nat>)
    ensures |ArgsText(args)| < USER_ARGS_MAX
    ensures ArgsOk(Copied(Zeroed(ram, frame * PAGE_SIZE, PAGE_SIZE), frame * PAGE_SIZE, ArgsText(args) + [0]), frame,
      args)
  {
  }

  lemma StackInData(prog: Program)
    ensures prog.stack != 0 ==> Range(prog.stack, prog.stack + STACK_PAGES) <= Data(prog)
  {
  }

  /** Only the space `root` changed, and not its root table. */
  ghost predicate OnlySpace(mem: Memory, mem': Memory, spaces: set<nat>, root: nat) {
    && root in mem && root in mem' && mem'[root] == mem[root]
    && forall r, page: seq<nat> :: r in spaces && r != root && |page| == DEPTH ==>
         Leaf(mem', r, page) == Leaf(mem, r, page)
  }

  lemma OnlySpaceTwice(mem: Memory, mid: Memory, mem': Memory, spaces: set<nat>, root: nat)
    requires OnlySpace(mem, mid, spaces, root) && OnlySpace(mid, mem', spaces, root)
    ensures OnlySpace(mem, mem', spaces, root)
  {
    hide Leaf;
  }

  lemma RunInSpace(mem: Memory, mem': Memory, spaces: set<nat>, root: nat, start: nat, count: nat)
    requires start + count * PAGE_SIZE <= WORD && OnlyRun(mem, mem', spaces, root, start, count)
    requires root in mem && root in mem' && mem'[root] == mem[root]
    ensures OnlySpace(mem, mem', spaces, root)
  {
    hide Leaf, InRun;
  }

  // ---- what a program owns ----------------------------------------------------------------------------------

  datatype Segment = Segment(vaddr: nat, phys: nat, pages: nat)

  /** struct program. Frames are given by number; 0 stands for none. */
  datatype Program = Program(pageDir: nat, segments: seq<Segment>, stack: nat, args: nat, inUse: bool)

  const NoProgram: Program := Program(0, [], 0, 0, false)

  ghost function SegmentFrames(segments: seq<Segment>): set<nat> {
    if segments == [] then {}
    else
      var last := segments[|segments| - 1];
      SegmentFrames(segments[..|segments| - 1]) + Range(last.phys, last.phys + last.pages)
  }

  ghost predicate SegmentsApart(segments: seq<Segment>) {
    segments != [] ==>
      var last := segments[|segments| - 1];
      SegmentsApart(segments[..|segments| - 1])
        && SegmentFrames(segments[..|segments| - 1]) !! Range(last.phys, last.phys + last.pages)
  }

  ghost function ArgsFrames(prog: Program): set<nat> { if prog.args == 0 then {} else {prog.args} }
  ghost function StackOf(prog: Program)
      : set<nat> { if prog.stack == 0 then {} else Range(prog.stack, prog.stack + STACK_PAGES) }

  /** The frames holding the program's bytes. */
  ghost function Data(prog: Program): set<nat> { SegmentFrames(prog.segments) + ArgsFrames(prog) + StackOf(prog) }

  /** No frame is recorded twice. */
  ghost predicate DataApart(prog: Program) {
    && SegmentsApart(prog.segments) && SegmentFrames(prog.segments) !! ArgsFrames(prog)
    && SegmentFrames(prog.segments) + ArgsFrames(prog) !! StackOf(prog) && 0 !in Data(prog)
  }

  /** All frames of a program: its bytes and its page tables. */
  ghost function Footprint(prog: Program, info: map<nat, Info>): set<nat> { Data(prog) + Owned(info, prog.pageDir) }

  /** Building a program in the space `root`: beyond `base`, the frames in use are its bytes and its
      tables. `labels` are the page tables of everyone else. */
  ghost predicate BuildsOn(prog: Program, used: set<nat>, keys: set<nat>, info: map<nat, Info>, base: set<nat>,
      labels: map<nat, Info>) {
    && DataApart(prog) && info.Keys == keys
    && used == base + Footprint(prog, info) && base !! Footprint(prog, info) && Data(prog) !! Owned(info, prog.pageDir)
    && keys == labels.Keys + Owned(info, prog.pageDir) && labels.Keys <= base
    && forall t :: t in labels ==> t in info && info[t] == labels[t]
  }

  /** The program got the frames r on top of what it had. */
  ghost predicate Gains(prog: Program, prog': Program, r: set<nat>) {
    prog'.pageDir == prog.pageDir && Data(prog') == Data(prog) + r && DataApart(prog')
  }

  lemma GainsSegment(prog: Program, segment: Segment)
    requires DataApart(prog) && Data(prog) !! Range(segment.phys, segment.phys + segment.pages) && segment.phys != 0
    ensures Gains(prog, prog.(segments := prog.segments + [segment]), Range(segment.phys, segment.phys + segment.pages))
  {
    assert (prog.segments + [segment])[..|prog.segments|] == prog.segments;
  }

  lemma GainsStack(prog: Program, stack: nat)
    requires DataApart(prog) && prog.stack == 0 && stack != 0 && Data(prog) !! Range(stack, stack + STACK_PAGES)
    ensures Gains(prog, prog.(stack := stack), Range(stack, stack + STACK_PAGES))
  {
  }

  lemma GainsArgs(prog: Program, args: nat)
    requires DataApart(prog) && prog.args == 0 && args != 0 && args !in Data(prog)
    ensures Gains(prog, prog.(args := args), {args})
  {
  }

  /** Frames taken for bytes and for tables are accounted for. */
  lemma BuildsMore(prog: Program, prog': Program, r: set<nat>, used: set<nat>, keys: set<nat>, info: map<nat, Info>,
      keys': set<nat>, info': map<nat, Info>, base: set<nat>, labels: map<nat, Info>)
    requires BuildsOn(prog, used, keys, info, base, labels) && Gains(prog, prog', r) && r !! used
    requires Grows(info, info', prog.pageDir) && info'.Keys == keys' && keys <= keys' && (keys' - keys) !! (used + r)
    ensures BuildsOn(prog', used + r + (keys' - keys), keys', info', base, labels)
  {
    hide DataApart, Data, Owned;
    OwnedGrows(info, info', prog.pageDir);
  }

  lemma GainsNothing(prog: Program)
    requires DataApart(prog)
    ensures Gains(prog, prog, {})
  {
    hide Data;
  }

  /** load_segment writes only to the frames it took, whatever they and the rest of memory held, if and only
      if the bytes from the file fit them. */
  lemma WritesOnlyItsFrames(ph: ProgramHeader, file: seq<nat>, phys: nat)
    requires ph.offset + ph.filesz <= |file| && PagesFor(ph) != 0
    ensures (forall ram: Ram, a: nat :: Outside(a, phys, PagesFor(ph)) ==> Placed(ram, phys, file, ph)(a) == ram(a))
       <==> Within(ph) + ph.filesz <= PagesFor(ph) * PAGE_SIZE
  {
    hide PagesFor;
    var end := (phys + PagesFor(ph)) * PAGE_SIZE;
    if Within(ph) + ph.filesz > PagesFor(ph) * PAGE_SIZE {
      var i := end - (phys * PAGE_SIZE + Within(ph));
      var other: Ram := (a: nat) => file[ph.offset + i] + 1;
      assert Outside(end, phys, PagesFor(ph));
      assert Placed(other, phys, file, ph)(end) == file[ph.offset..ph.offset + ph.filesz][i];
    }
  }

  /** Not in one of the frames first, .., first + pages - 1. */
  predicate Outside(a: nat, first: nat, pages: nat) { a < first * PAGE_SIZE || (first + pages) * PAGE_SIZE <= a }

  /** So a segment that fits leaves the bytes of all other frames alone. */
  lemma PlacedKeeps(ram: Ram, phys: nat, file: seq<nat>, ph: ProgramHeader, others: set<nat>)
    requires ph.offset + ph.filesz <= |file| && Within(ph) + ph.filesz <= PagesFor(ph) * PAGE_SIZE
    requires others !! Range(phys, phys + PagesFor(ph))
    ensures SameBytes(ram, Placed(ram, phys, file, ph), others)
  {
    hide PagesFor, Within, Range;
    forall f, i | f in others && 0 <= i < PAGE_SIZE
      ensures Placed(ram, phys, file, ph)(Byte(f, i)) == ram(Byte(f, i))
    {
      assert f < phys || phys + PagesFor(ph) <= f;
    }
  }

  lemma ZeroedKeeps(ram: Ram, first: nat, pages: nat, others: set<nat>)
    requires others !! Range(first, first + pages)
    ensures SameBytes(ram, Zeroed(ram, first * PAGE_SIZE, pages * PAGE_SIZE), others)
  {
    forall f, i | f in others && 0 <= i < PAGE_SIZE
      ensures Zeroed(ram, first * PAGE_SIZE, pages * PAGE_SIZE)(Byte(f, i)) == ram(Byte(f, i))
    {
      assert f < first || first + pages <= f;
    }
  }

  lemma SegmentsPrefix(segments: seq<Segment>, i: nat)
    requires i < |segments| && SegmentsApart(segments)
    ensures SegmentFrames(segments[..i + 1]) ==
      SegmentFrames(segments[..i]) + Range(segments[i].phys, segments[i].phys + segments[i].pages)
    ensures SegmentFrames(segments[..i]) !! Range(segments[i].phys, segments[i].phys + segments[i].pages)
    ensures SegmentFrames(segments[..i + 1]) <= SegmentFrames(segments)
    decreases |segments|
  {
    assert segments[..i + 1][..i] == segments[..i];
    if i + 1 < |segments| {
      var init := segments[..|segments| - 1];
      assert init[..i + 1] == segments[..i + 1] && init[..i] == segments[..i];
      SegmentsPrefix(init, i);
    } else {
      assert segments[..i + 1] == segments;
    }
  }

  /** Undoing: with the program's frames gone, what is left is the base. */
  lemma BuildsUndone(prog: Program, used: set<nat>, keys: set<nat>, info: map<nat, Info>, base: set<nat>,
      labels: map<nat, Info>)
    requires BuildsOn(prog, used, keys, info, base, labels)
    ensures used - Data(prog) - Owned(info, prog.pageDir) == base && keys - Owned(info, prog.pageDir) == labels.Keys
    ensures Data(prog) !! keys && Data(prog) <= used && DataApart(prog) && Owned(info, prog.pageDir) <= keys
    ensures base <= used
    ensures SameOwners(labels, info, prog.pageDir)
  {
    hide Data, DataApart, Owned, SameOwners;
    BuildsOwners(prog, used, keys, info, base, labels);
  }

  lemma BuildsStart(dir: nat, used: set<nat>, keys: set<nat>, info: map<nat, Info>, base: set<nat>,
      labels: map<nat, Info>)
    requires info.Keys == keys && labels.Keys <= keys && Owned(info, dir) == keys - labels.Keys
    requires used == base + Owned(info, dir)
    requires Owned(info, dir) !! base && labels.Keys <= base && Grows(labels, info, dir)
    ensures BuildsOn(NoProgram.(pageDir := dir), used, keys, info, base, labels)
  {
    hide Owned;
  }

  lemma TidyStill(mem0: Memory, mem: Memory, mem': Memory, spaces0: set<nat>, root: nat)
    requires root in mem && |mem[root]| == ENTRIES && Low(mem, root) && SameLeaves(mem0, mem, spaces0)
    requires root !in spaces0
    requires OnlySpace(mem, mem', spaces0 + {root}, root)
    ensures root in mem' && |mem'[root]| == ENTRIES && Low(mem', root) && SameLeaves(mem0, mem', spaces0)
  {
    hide Leaf;
  }

  /** What the file system and the header checks deliver: the bytes, and the program headers if the file is
      an executable whose header table lies inside it. */
  datatype ElfFile = ElfFile(bytes: seq<nat>, good: bool, headers: seq<ProgramHeader>)

  predicate ElfOk(elf: ElfFile) {
    |elf.bytes| <= MAX_PROGRAM && forall j :: 0 <= j < |elf.headers| ==> HeaderOk(elf.headers[j])
  }

  /** The tables of other spaces are still theirs. */
  lemma BuildsOwners(prog: Program, used: set<nat>, keys: set<nat>, info: map<nat, Info>, base: set<nat>,
      labels: map<nat, Info>)
    requires BuildsOn(prog, used, keys, info, base, labels)
    ensures SameOwners(labels, info, prog.pageDir)
  {
    hide DataApart, Data;
    forall t | t in info && info[t].owner.Space? && info[t].owner != Space(prog.pageDir)
      ensures t in labels && info[t] == labels[t]
    {
      assert t in labels || t in Owned(info, prog.pageDir);
    }
  }
}
