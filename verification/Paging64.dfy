/**
 The four-level page tables of the 64-bit kernel.

 Entries are records rather than packed words. Table frames come from the frame allocator.
 */
module Paging64 {
  import opened Multiples
  import opened Frames
  import Pmm
  import opened PageTables

  const DEPTH: nat := 4

  // ---- addresses ----------------------------------------------------------------------------------------

  function Pml4Index(v: nat): nat { v / 0x80_0000_0000 % 512 }
  function PdptIndex(v: nat): nat { v / 0x4000_0000 % 512 }
  function PdIndex(v: nat): nat { v / 0x20_0000 % 512 }
  function PtIndex(v: nat): nat { v / 0x1000 % 512 }

  function PathOf(v: nat): (path: seq<nat>)
    ensures |path| == DEPTH && forall i :: 0 <= i < DEPTH ==> path[i] < ENTRIES
  {
    [Pml4Index(v), PdptIndex(v), PdIndex(v), PtIndex(v)]
  }

  /** The page number: 48 address bits less the 12 of the offset. */
  function PageNumber(v: nat): nat { v / PAGE_SIZE % 0x10_0000_0000 }

  lemma Shifts(v: nat)
    ensures v / 0x20_0000 == v / 0x1000 / 512
    ensures v / 0x4000_0000 == v / 0x20_0000 / 512
    ensures v / 0x80_0000_0000 == v / 0x4000_0000 / 512
  {
  }

  lemma LowDigit(n: nat)
    ensures n % 0x10_0000_0000 == n / 512 % 0x800_0000 * 512 + n % 512
    ensures n % 0x800_0000 == n / 512 % 0x4_0000 * 512 + n % 512
    ensures n % 0x4_0000 == n / 512 % 512 * 512 + n % 512
  {
    var m, d := n / 512, n % 512;
    Remainder(n, 0x10_0000_0000, m / 0x800_0000, m % 0x800_0000 * 512 + d);
    Remainder(n, 0x800_0000, m / 0x4_0000, m % 0x4_0000 * 512 + d);
    Remainder(n, 0x4_0000, m / 512, m % 512 * 512 + d);
  }

  lemma PageNumberDigits(v: nat)
    ensures PageNumber(v) == ((Pml4Index(v) * 512 + PdptIndex(v)) * 512 + PdIndex(v)) * 512 + PtIndex(v)
  {
    Shifts(v);
    LowDigit(v / 0x1000);
    LowDigit(v / 0x20_0000);
    LowDigit(v / 0x4000_0000);
  }

  /** Two addresses share a path exactly when they lie on the same page. */
  lemma PathOfUnique(v: nat, w: nat)
    ensures PathOf(v) == PathOf(w) <==> PageNumber(v) == PageNumber(w)
  {
    hide Pml4Index, PdptIndex, PdIndex, PtIndex, PageNumber;
    PageNumberDigits(v);
    PageNumberDigits(w);
    assert forall i :: 0 <= i < DEPTH ==> PathOf(v)[i] < ENTRIES && PathOf(w)[i] < ENTRIES;
    var a, b := PathOf(v), PathOf(w);
    assert a[0] == Pml4Index(v) && a[1] == PdptIndex(v) && a[2] == PdIndex(v) && a[3] == PtIndex(v);
    assert b[0] == Pml4Index(w) && b[1] == PdptIndex(w) && b[2] == PdIndex(w) && b[3] == PtIndex(w);
  }

  // ---- what an operation may change ---------------------------------------------------------------------

  ghost predicate SameLeaves(mem: Memory, mem': Memory, root: nat) {
    forall page: seq<nat> :: |page| == DEPTH ==> Leaf(mem', root, page) == Leaf(mem, root, page)
  }

  /** The page at `path` now has the entry e, and no other page changed. */
  ghost predicate OnlyPage(mem: Memory, mem': Memory, root: nat, path: seq<nat>, e: Entry) {
    forall page: seq<nat> :: |page| == DEPTH ==>
      Leaf(mem', root, page) == if page == path then e else Leaf(mem, root, page)
  }

  /** The lowest-level tables are those there were and the one at `path`, if it is that long. */
  ghost predicate TablesGrow(mem: Memory, mem': Memory, root: nat, path: seq<nat>) {
    forall p: seq<nat> :: |p| == DEPTH - 1 ==> (Reach(mem', root, p).To? <==> Reach(mem, root, p).To? || p == path)
  }

  ghost predicate SameTables(mem: Memory, mem': Memory, root: nat) {
    forall p: seq<nat> :: |p| == DEPTH - 1 ==> (Reach(mem', root, p).To? <==> Reach(mem, root, p).To?)
  }

  /** Upper levels always grant write and user access and never forbid execution. */
  ghost predicate BroadAt(e: Entry) { e.present ==> e.write && e.user && !e.nx }

  ghost predicate Broad(mem: Memory, info: map<nat, Info>) {
    forall t, i {:trigger mem[t][i]} :: t in mem && t in info && |info[t].path| + 1 < DEPTH && 0 <= i < |mem[t]| ==>
      BroadAt(mem[t][i])
  }

  lemma {:induction false} BroadGrants(mem: Memory, info: map<nat, Info>, root: nat, path: seq<nat>)
    requires TreeOk(mem, info, DEPTH) && IsRoot(mem, info, root) && Broad(mem, info) && |path| < DEPTH
    requires Reach(mem, root, path).To?
    ensures Granted(mem, root, path, 0) == Rights(true, true, false)
    decreases |path|
  {
    hide TreeOk;
    if path != [] {
      var up, i := path[..|path| - 1], path[|path| - 1];
      BroadGrants(mem, info, root, up);
      ReachInfo(mem, info, DEPTH, root, up);
      var t := Reach(mem, root, up).table;
      assert BroadAt(mem[t][i]);
    }
  }

  /** So what the processor allows on a mapped page is what its own entry says. */
  lemma EffectiveIsLeaf(mem: Memory, info: map<nat, Info>, root: nat, page: seq<nat>)
    requires TreeOk(mem, info, DEPTH) && IsRoot(mem, info, root) && Broad(mem, info) && |page| == DEPTH
    requires Leaf(mem, root, page).present
    ensures Effective(mem, root, page, 0) == Leaf(mem, root, page)
  {
    hide TreeOk;
    BroadGrants(mem, info, root, page[..DEPTH - 1]);
  }

  /** No mapped page is both writable and executable. */
  ghost predicate WriteXorExecute(mem: Memory, root: nat) {
    forall page: seq<nat> :: |page| == DEPTH && Leaf(mem, root, page).present ==>
      !Leaf(mem, root, page).write || Leaf(mem, root, page).nx
  }

  lemma BroadHang(mem: Memory, info: map<nat, Info>, t: nat, i: nat, c: nat, e: Entry)
    requires CanHang(mem, info, DEPTH, t, i, c, e) && Broad(mem, info) && BroadAt(e)
    ensures Broad(Hang(mem, t, i, c, e), HangInfo(info, t, i, c))
  {
    hide TreeOk;
    var mem', info' := Hang(mem, t, i, c, e), HangInfo(info, t, i, c);
    forall u, j | u in mem' && u in info' && |info'[u].path| + 1 < DEPTH && 0 <= j < |mem'[u]|
      ensures BroadAt(mem'[u][j])
    {
      if u != c {
        assert u in mem && u in info && info'[u] == info[u];
        assert BroadAt(mem[u][j]);
      }
    }
  }

  lemma BroadPut(mem: Memory, info: map<nat, Info>, t: nat, i: nat, e: Entry)
    requires Broad(mem, info) && t in mem && t in info && i < |mem[t]| && (|info[t].path| + 1 < DEPTH ==> BroadAt(e))
    ensures Broad(Put(mem, t, i, e), info)
  {
  }

  /** An entry for an upper level. */
  function Upper(frame: nat): Entry { Entry(frame, true, true, true, false) }

  /** Everything about hanging a new table, for the space at `root`. */
  lemma Grown(mem: Memory, info: map<nat, Info>, root: nat, path: seq<nat>, t: nat, i: nat, c: nat)
    requires CanHang(mem, info, DEPTH, t, i, c, Upper(c)) && IsRoot(mem, info, root) && Broad(mem, info)
    requires |path| + 1 < DEPTH && Reach(mem, root, path) == To(t)
    ensures var mem', info' := Hang(mem, t, i, c, Upper(c)), HangInfo(info, t, i, c);
            && TreeOk(mem', info', DEPTH) && IsRoot(mem', info', root) && Broad(mem', info')
            && SameLeaves(mem, mem', root) && Reach(mem', root, path + [i]) == To(c)
            && mem'.Keys == mem.Keys + {c} && info'[c].path == path + [i] && TablesGrow(mem, mem', root, path + [i])
  {
    hide TreeOk, Broad, Reach;
    var e := Upper(c);
    HangTree(mem, info, DEPTH, t, i, c, e);
    HangLeaf(mem, info, DEPTH, t, i, c, e);
    BroadHang(mem, info, t, i, c, e);
    ReachInfo(mem, info, DEPTH, root, path);
    HangReach(mem, info, DEPTH, t, i, c, e, root, path + [i]);
    ReachStep(mem, info, root, path, i, t);
    forall p: seq<nat> | |p| == DEPTH - 1
      ensures Reach(Hang(mem, t, i, c, e), root, p).To? <==> Reach(mem, root, p).To? || p == path + [i]
    {
      HangReach(mem, info, DEPTH, t, i, c, e, root, p);
    }
  }

  lemma ReachStep(mem: Memory, info: map<nat, Info>, root: nat, path: seq<nat>, i: nat, t: nat)
    requires TreeOk(mem, info, DEPTH) && IsRoot(mem, info, root) && |path| + 1 < DEPTH
    requires Reach(mem, root, path) == To(t) && i < ENTRIES
    ensures t in mem && t in info && |mem[t]| == ENTRIES && info[t].path == path
    ensures Reach(mem, root, path + [i]) == if mem[t][i].present then To(mem[t][i].frame) else Nil
    ensures mem[t][i].present ==> mem[t][i].frame in mem
    ensures !mem[t][i].present <==> mem[t][i].frame == 0
  {
    ReachInfo(mem, info, DEPTH, root, path);
    ChildIs(mem, info, DEPTH, t, i);
    assert (path + [i])[..|path|] == path;
    TreeAt(mem, info, DEPTH, t, i);
  }

  /** What each step of the walk relates: the tables are in order and hold the same translation. */
  ghost predicate TablesOk(mem: Memory, info: map<nat, Info>, root: nat) {
    TreeOk(mem, info, DEPTH) && IsRoot(mem, info, root) && Broad(mem, info)
  }

  lemma LeafPut(mem: Memory, info: map<nat, Info>, root: nat, path: seq<nat>, t: nat, e: Entry)
    requires TablesOk(mem, info, root) && |path| == DEPTH && path[DEPTH - 1] < ENTRIES
    requires Reach(mem, root, path[..DEPTH - 1]) == To(t)
    ensures t in mem && |mem[t]| == ENTRIES
    ensures TablesOk(Put(mem, t, path[DEPTH - 1], e), info, root)
    ensures OnlyPage(mem, Put(mem, t, path[DEPTH - 1], e), root, path, e)
    ensures Leaf(mem, root, path) == mem[t][path[DEPTH - 1]]
  {
    hide TreeOk, Reach, Broad;
    ReachInfo(mem, info, DEPTH, root, path[..DEPTH - 1]);
    LeafWrite(mem, info, DEPTH, t, path[DEPTH - 1], e);
    BroadPut(mem, info, t, path[DEPTH - 1], e);
    assert path == path[..DEPTH - 1] + [path[DEPTH - 1]];
  }

  // ---- page numbers and paths ---------------------------------------------------------------------------

  predicate Indices(page: seq<nat>) {
    |page| == DEPTH && page[0] < ENTRIES && page[1] < ENTRIES && page[2] < ENTRIES && page[3] < ENTRIES
  }

  function Number(page: seq<nat>): nat
    requires |page| == DEPTH
  {
    ((page[0] * 512 + page[1]) * 512 + page[2]) * 512 + page[3]
  }

  /** Below 1 GB, page n is the one whose path spells n. */
  lemma PathOfPage(n: nat, page: seq<nat>)
    requires n < 0x4_0000 && |page| == DEPTH
    ensures page == PathOf(n * PAGE_SIZE) <==> Indices(page) && Number(page) == n
  {
    hide Pml4Index, PdptIndex, PdIndex, PtIndex;
    var path := PathOf(n * PAGE_SIZE);
    PageNumberDigits(n * PAGE_SIZE);
    assert PageNumber(n * PAGE_SIZE) == n;
    assert path[0] == Pml4Index(n * PAGE_SIZE) && path[1] == PdptIndex(n * PAGE_SIZE)
        && path[2] == PdIndex(n * PAGE_SIZE) && path[3] == PtIndex(n * PAGE_SIZE);
    assert Indices(path) && Number(path) == n;
    if Indices(page) && Number(page) == n {
      SameDigits(page[0], page[1], page[2], page[3], path[0], path[1], path[2], path[3]);
      assert page == path;
    }
  }

  lemma SameDigits(a: nat, b: nat, c: nat, d: nat, a': nat, b': nat, c': nat, d': nat)
    requires a < 512 && b < 512 && c < 512 && d < 512 && a' < 512 && b' < 512 && c' < 512 && d' < 512
    requires ((a * 512 + b) * 512 + c) * 512 + d == ((a' * 512 + b') * 512 + c') * 512 + d'
    ensures a == a' && b == b' && c == c' && d == d'
  {
  }

  const Plain: Flags := Flags(true, true, false, false)
  const CodeFlags: Flags := Flags(true, false, false, false)
  const DataFlags: Flags := Flags(true, true, false, true)

  /** The flags paging_init leaves on page n. */
  function KernelFlags(n: nat, textStart: nat, roEnd: nat): Flags {
    if textStart <= n * PAGE_SIZE < roEnd then CodeFlags else DataFlags
  }

  /** The entry of page n of the kernel: read-only and executable for code and constants, writable and not
      executable for everything else, and never open to user mode. */
  predicate KernelPage(e: Entry, n: nat, code: bool) {
    e.present && e.frame == n && !e.user && (e.write <==> !code) && (e.nx <==> !code)
  }

  /** Every page below `limit` maps the frame of the same number; those below `done` have their final flags. */
  ghost predicate Identity(mem: Memory, root: nat, limit: nat, done: nat, textStart: nat, roEnd: nat) {
    forall page: seq<nat> :: |page| == DEPTH ==>
      Leaf(mem, root, page) ==
        if Indices(page) && Number(page) < limit then
          Make(Number(page), if Number(page) < done then KernelFlags(Number(page), textStart, roEnd) else Plain)
        else Zero
  }

  lemma IdentityGrows(mem: Memory, mem': Memory, root: nat, n: nat, textStart: nat, roEnd: nat)
    requires Identity(mem, root, n, 0, textStart, roEnd) && n < 0x4_0000
    requires OnlyPage(mem, mem', root, PathOf(n * PAGE_SIZE), Make(n, Plain))
    ensures Identity(mem', root, n + 1, 0, textStart, roEnd)
  {
    hide Leaf, PathOf;
    forall page: seq<nat> | |page| == DEPTH
      ensures Leaf(mem', root, page) ==
        if Indices(page) && Number(page) < n + 1 then Make(Number(page), Plain)
        else Zero
    {
      PathOfPage(n, page);
    }
  }

  lemma IdentityFlagged(mem: Memory, mem': Memory, root: nat, limit: nat, n: nat, textStart: nat, roEnd: nat)
    requires Identity(mem, root, limit, n, textStart, roEnd) && n < limit <= 0x4_0000
    requires OnlyPage(mem, mem', root, PathOf(n * PAGE_SIZE), Make(n, KernelFlags(n, textStart, roEnd)))
    ensures Identity(mem', root, limit, n + 1, textStart, roEnd)
  {
    hide Leaf, PathOf, KernelFlags;
    forall page: seq<nat> | |page| == DEPTH
      ensures Leaf(mem', root, page) ==
        if Indices(page) && Number(page) < limit then
          Make(Number(page), if Number(page) < n + 1 then KernelFlags(Number(page), textStart, roEnd) else Plain)
        else Zero
    {
      PathOfPage(n, page);
    }
  }

  lemma IdentityAt(mem: Memory, root: nat, limit: nat, n: nat, textStart: nat, roEnd: nat)
    requires Identity(mem, root, limit, n, textStart, roEnd) && n < limit <= 0x4_0000
    ensures Leaf(mem, root, PathOf(n * PAGE_SIZE)) == Make(n, Plain)
    ensures Reach(mem, root, PathOf(n * PAGE_SIZE)[..DEPTH - 1]).To?
  {
    PathOfPage(n, PathOf(n * PAGE_SIZE));
  }

  lemma IdentityPage(mem: Memory, root: nat, limit: nat, n: nat, textStart: nat, roEnd: nat)
    requires Identity(mem, root, limit, limit, textStart, roEnd) && n < limit <= 0x4_0000
    requires textStart % PAGE_SIZE == 0 && roEnd % PAGE_SIZE == 0
    ensures KernelPage(Leaf(mem, root, PathOf(n * PAGE_SIZE)), n, textStart / PAGE_SIZE <= n < roEnd / PAGE_SIZE)
  {
    hide Leaf;
    PathOfPage(n, PathOf(n * PAGE_SIZE));
  }

  /** The number of a lowest-level table: pages 512 n to 512 n + 511 are in table n. */
  function TableNumber(path: seq<nat>): nat
    requires |path| == DEPTH - 1
  {
    (path[0] * 512 + path[1]) * 512 + path[2]
  }

  /** The lowest-level tables are exactly those of the pages below `limit`. */
  ghost predicate TablesFor(mem: Memory, root: nat, limit: nat) {
    forall p: seq<nat> :: |p| == DEPTH - 1 ==>
      (Reach(mem, root, p).To? <==> p[0] < ENTRIES && p[1] < ENTRIES && p[2] < ENTRIES && TableNumber(p) * 512 < limit)
  }

  lemma TableOfPage(n: nat, p: seq<nat>)
    requires n < 0x4_0000 && |p| == DEPTH - 1
    ensures p == PathOf(n * PAGE_SIZE)[..DEPTH - 1] <==>
      p[0] < ENTRIES && p[1] < ENTRIES && p[2] < ENTRIES && TableNumber(p) == n / 512
  {
    var page := p + [n % 512];
    PathOfPage(n, page);
    PathOfPage(n, PathOf(n * PAGE_SIZE));
    assert page[..DEPTH - 1] == p;
    hide PathOf;
    if p == PathOf(n * PAGE_SIZE)[..DEPTH - 1] {
      var path := PathOf(n * PAGE_SIZE);
      assert Number(path) == TableNumber(p) * 512 + path[3];
    }
  }

  lemma TablesForNext(mem: Memory, mem': Memory, root: nat, n: nat)
    requires TablesFor(mem, root, n) && n < 0x4_0000 && TablesGrow(mem, mem', root, PathOf(n * PAGE_SIZE)[..DEPTH - 1])
    ensures TablesFor(mem', root, n + 1)
  {
    hide Reach, PathOf, TableNumber;
    forall p: seq<nat> | |p| == DEPTH - 1
      ensures Reach(mem', root, p).To? <==>
        p[0] < ENTRIES && p[1] < ENTRIES && p[2] < ENTRIES && TableNumber(p) * 512 < n + 1
    {
      TableOfPage(n, p);
    }
  }

  lemma TablesForSame(mem: Memory, mem': Memory, root: nat, limit: nat)
    requires TablesFor(mem, root, limit)
    requires forall path: seq<nat> :: |path| < DEPTH ==> Reach(mem', root, path) == Reach(mem, root, path)
    ensures TablesFor(mem', root, limit)
  {
    hide Reach, TableNumber;
  }

  /** Once all flags are in place, no page is both writable and executable. */
  lemma IdentityProtects(mem: Memory, root: nat, limit: nat, textStart: nat, roEnd: nat)
    requires Identity(mem, root, limit, limit, textStart, roEnd)
    ensures WriteXorExecute(mem, root)
  {
  }

  lemma FreshRoot(root: nat)
    requires root != 0
    ensures var mem, info := map[root := ZeroTable()], map[root := Info(Space(root), [])];
            && TablesOk(mem, info, root) && TablesFor(mem, root, 0)
            && forall page: seq<nat> :: |page| == DEPTH ==> Leaf(mem, root, page) == Zero
  {
    var mem, info := map[root := ZeroTable()], map[root := Info(Space(root), [])];
    assert TableOk(mem, info, DEPTH, root);
    forall page: seq<nat> | |page| == DEPTH
      ensures Leaf(mem, root, page) == Zero
    {
      FreshReach(mem, root, page[..DEPTH - 1]);
    }
    forall p: seq<nat> | |p| == DEPTH - 1
      ensures Reach(mem, root, p) == Nil
    {
      FreshReach(mem, root, p);
    }
  }

  lemma FreshReach(mem: Memory, root: nat, path: seq<nat>)
    requires mem == map[root := ZeroTable()] && path != []
    ensures Reach(mem, root, path) == Nil
    decreases |path|
  {
    if |path| > 1 {
      FreshReach(mem, root, path[..|path| - 1]);
    }
  }

  // ---- changing flags -----------------------------------------------------------------------------------

  /** The entry of a page after its flags were set: nothing happens when its table does not exist. */
  ghost function Flagged(mem: Memory, root: nat, page: seq<nat>, flags: Flags): Entry
    requires |page| == DEPTH
  {
    if Reach(mem, root, page[..DEPTH - 1]).To? then Make(Leaf(mem, root, page).frame, flags) else Leaf(mem, root, page)
  }

  function UserFlags(writable: bool): Flags { Flags(true, writable, true, writable) }

  ghost function PageAddr(first: nat, k: nat): nat { first + k * PAGE_SIZE }

  /** One of the pages at first, first + 4096, .. below end. */
  ghost predicate Visited(page: seq<nat>, first: nat, end: nat) {
    exists k: nat :: PageAddr(first, k) < end && page == PathOf(PageAddr(first, k))
  }

  /** The pages visited, within 48 bits, are those that start below the end and not before the first. */
  lemma VisitedIs(va: nat, first: nat, end: nat)
    requires va < 0x1_0000_0000_0000 && first % PAGE_SIZE == 0 && end <= 0x1_0000_0000_0000
    ensures Visited(PathOf(va), first, end) <==> first <= va / PAGE_SIZE * PAGE_SIZE < end
  {
    hide PathOf;
    var page := va / PAGE_SIZE * PAGE_SIZE;
    PathOfUnique(va, page);
    if first <= page < end {
      var k := (page - first) / PAGE_SIZE;
      assert PageAddr(first, k) == page;
    }
    if Visited(PathOf(va), first, end) {
      var k: nat :| PageAddr(first, k) < end && PathOf(va) == PathOf(PageAddr(first, k));
      PathOfUnique(va, PageAddr(first, k));
    }
  }

  ghost predicate FlaggedIn(mem: Memory, mem': Memory, root: nat, first: nat, end: nat, flags: Flags) {
    && (forall path: seq<nat> :: |path| < DEPTH ==> Reach(mem', root, path) == Reach(mem, root, path))
    && forall page: seq<nat> :: |page| == DEPTH ==>
         Leaf(mem', root, page) ==
           if Visited(page, first, end) then Flagged(mem, root, page, flags)
           else Leaf(mem, root, page)
  }

  /** Giving a range to user mode keeps writable and executable apart. */
  lemma UserKeepsProtection(mem: Memory, mem': Memory, root: nat, first: nat, end: nat, writable: bool)
    requires FlaggedIn(mem, mem', root, first, end, UserFlags(writable)) && WriteXorExecute(mem, root)
    ensures WriteXorExecute(mem', root)
  {
    hide Leaf, Reach, Visited;
  }

  /** It does create mappings. After paging_init, a page n at or beyond the end of memory that lies in the
      range becomes present, on physical frame 0, if and only if the last page of memory is in the same
      lowest-level table; otherwise it stays unmapped. */
  lemma UserBeyondMemory(mem: Memory, mem': Memory, root: nat, limit: nat, textStart: nat, roEnd: nat, first: nat,
      end: nat, writable: bool, n: nat)
    requires Identity(mem, root, limit, limit, textStart, roEnd) && TablesFor(mem, root, limit) && limit <= n < 0x4_0000
    requires FlaggedIn(mem, mem', root, first, end, UserFlags(writable)) && Visited(PathOf(n * PAGE_SIZE), first, end)
    ensures Leaf(mem', root, PathOf(n * PAGE_SIZE)) ==
      if n / 512 * 512 < limit then Entry(0, true, writable, true, writable)
      else Zero
  {
    hide Reach, Visited, PathOf, Leaf;
    var page := PathOf(n * PAGE_SIZE);
    PathOfPage(n, page);
    TableOfPage(n, page[..DEPTH - 1]);
    assert Leaf(mem, root, page) == Zero;
    assert Leaf(mem', root, page) == Flagged(mem, root, page, UserFlags(writable));
  }

  /** With the end of memory inside a table, the very next page is such a page. */
  lemma FrameZeroExposed(mem: Memory, mem': Memory, root: nat, limit: nat, textStart: nat, roEnd: nat)
    requires Identity(mem, root, limit, limit, textStart, roEnd) && TablesFor(mem, root, limit) && limit < 0x4_0000
    requires limit % 512 != 0
    requires FlaggedIn(mem, mem', root, limit * PAGE_SIZE, (limit + 1) * PAGE_SIZE, UserFlags(true))
    ensures Leaf(mem', root, PathOf(limit * PAGE_SIZE)) == Entry(0, true, true, true, true)
  {
    hide Reach, PathOf, Leaf, FlaggedIn, Identity, TablesFor;
    assert PageAddr(limit * PAGE_SIZE, 0) == limit * PAGE_SIZE;
    assert Visited(PathOf(limit * PAGE_SIZE), limit * PAGE_SIZE, (limit + 1) * PAGE_SIZE);
    UserBeyondMemory(mem, mem', root, limit, textStart, roEnd, limit * PAGE_SIZE, (limit + 1) * PAGE_SIZE, true, limit);
  }

  lemma FlaggedStart(mem: Memory, root: nat, first: nat, flags: Flags)
    ensures FlaggedIn(mem, mem, root, first, first, flags)
  {
    hide Leaf, Reach;
  }

  /** One more page of the range done. */
  lemma FlaggedStep(mem: Memory, mid: Memory, mem': Memory, root: nat, first: nat, k: nat, end: nat, flags: Flags)
    requires FlaggedIn(mem, mid, root, first, PageAddr(first, k), flags) && PageAddr(first, k) < end
    requires forall path: seq<nat> :: |path| < DEPTH ==> Reach(mem', root, path) == Reach(mid, root, path)
    requires OnlyPage(mid, mem', root, PathOf(PageAddr(first, k)),
      Flagged(mid, root, PathOf(PageAddr(first, k)), flags))
    ensures FlaggedIn(mem, mem', root, first, PageAddr(first, k + 1), flags)
  {
    hide Leaf, Reach, PathOf, Visited;
    var here, next := PageAddr(first, k), PageAddr(first, k + 1);
    forall page: seq<nat> | |page| == DEPTH
      ensures Leaf(mem', root, page) ==
        if Visited(page, first, next) then Flagged(mem, root, page, flags)
        else Leaf(mem, root, page)
    {
      VisitedNext(page, first, k);
    }
  }

  lemma VisitedNext(page: seq<nat>, first: nat, k: nat)
    ensures Visited(page, first, PageAddr(first, k + 1)) <==>
      Visited(page, first, PageAddr(first, k)) || page == PathOf(PageAddr(first, k))
  {
    hide PathOf;
    var here, next := PageAddr(first, k), PageAddr(first, k + 1);
    if page == PathOf(here) {
      assert here < next;
    } else if Visited(page, first, next) {
      var j: nat :| PageAddr(first, j) < next && page == PathOf(PageAddr(first, j));
      assert j != k;
      assert PageAddr(first, j) < here;
    }
  }

  class Pager {
    const frames: Pmm.FrameAllocator
    var mem: Memory
    var pml4: nat
    var mappedLimit: nat
    ghost var info: map<nat, Info>

    ghost predicate Valid()
      reads this, frames
    {
      frames.Guarded() && TablesOk(mem, info, pml4) && mem.Keys <= frames.Used()
    }

    /** Frames left the pool only to become tables. */
    twostate predicate OnlyTables()
      requires old(frames.Valid()) && frames.Valid()
      reads this, frames
    {
      && old(mem).Keys <= mem.Keys && frames.total == old(frames.total)
      && frames.Used() == old(frames.Used()) + (mem.Keys - old(mem).Keys)
      && (mem.Keys - old(mem).Keys) !! old(frames.Used())
    }

    /** Before paging_init. */
    constructor (frames: Pmm.FrameAllocator)
      ensures this.frames == frames && mem == map[] && pml4 == 0
    {
      this.frames := frames;
      mem, pml4, mappedLimit, info := map[], 0, 0, map[];
    }

    /** next_level, from the table t that `path` leads to. 0 means there is none. */
    method NextLevel(t: nat, i: nat, create: bool, ghost path: seq<nat>) returns (c: nat)
      requires Valid() && i < ENTRIES && |path| + 1 < DEPTH && Reach(mem, pml4, path) == To(t)
      modifies this`mem, this`info, frames
      ensures Valid() && SameLeaves(old(mem), mem, pml4) && OnlyTables()
      ensures !create ==> mem == old(mem) && info == old(info)
      ensures Reach(mem, pml4, path + [i]) == if c == 0 then Nil else To(c)
      ensures c != 0 ==> TablesGrow(old(mem), mem, pml4, path + [i])
      ensures c == 0 ==> SameTables(old(mem), mem, pml4)
      ensures create && c == 0 ==> forall f :: 0 <= f < frames.total ==> f in frames.Used()
    {
      hide TreeOk, Broad, Reach;
      ReachStep(mem, info, pml4, path, i, t);
      if !mem[t][i].present {
        if !create {
          return 0;
        }
        var frame := frames.TakeFrame();
        if frame == 0 {
          return 0;
        }
        Grown(mem, info, pml4, path, t, i, frame);
        info := HangInfo(info, t, i, frame);
        mem := Hang(mem, t, i, frame, Upper(frame));
      }
      c := mem[t][i].frame;
    }

    /** The walk of paging_map: the table for va, made where it is missing, or 0. */
    method Descend(va: nat) returns (pt: nat)
      requires Valid()
      modifies this`mem, this`info, frames
      ensures Valid() && OnlyTables() && SameLeaves(old(mem), mem, pml4)
      ensures pt != 0 ==>
        Reach(mem, pml4, PathOf(va)[..DEPTH - 1]) == To(pt) && TablesGrow(old(mem), mem, pml4, PathOf(va)[..DEPTH - 1])
      ensures pt == 0 ==> forall f :: 0 <= f < frames.total ==> f in frames.Used()
    {
      hide TablesOk, Reach, Leaf, Pmm.Held, Pmm.Covers, PathOf;
      ghost var path := PathOf(va);
      Prefixes(va);
      RootReached(mem, info, pml4);
      var pdpt := NextLevel(pml4, Pml4Index(va), true, []);
      if pdpt == 0 {
        return 0;
      }
      var pd := NextLevel(pdpt, PdptIndex(va), true, path[..1]);
      if pd == 0 {
        return 0;
      }
      pt := NextLevel(pd, PdIndex(va), true, path[..2]);
    }

    /** paging_map. It fails only when no frame is left for a table, and then changes no translation. */
    method Map(va: nat, frame: nat, flags: Flags) returns (ok: bool)
      requires Valid()
      modifies this`mem, this`info, frames
      ensures Valid() && OnlyTables()
      ensures ok ==>
        && OnlyPage(old(mem), mem, pml4, PathOf(va), Make(frame, flags))
        && TablesGrow(old(mem), mem, pml4, PathOf(va)[..DEPTH - 1])
      ensures !ok ==> SameLeaves(old(mem), mem, pml4) && forall f :: 0 <= f < frames.total ==> f in frames.Used()
    {
      hide TablesOk, Reach, Leaf, Pmm.Held, Pmm.Covers;
      var pt := Descend(va);
      if pt == 0 {
        return false;
      }
      LeafPut(mem, info, pml4, PathOf(va), pt, Make(frame, flags));
      LeafPutReach(mem, info, pml4, PathOf(va), pt, Make(frame, flags));
      mem := Put(mem, pt, PtIndex(va), Make(frame, flags));
      ok := true;
    }

    /** entry_for: the table holding the entry of va, or 0. */
    method EntryFor(va: nat) returns (pt: nat)
      requires Valid()
      modifies this`mem, this`info, frames
      ensures Valid() && mem == old(mem) && info == old(info) && frames.Used() == old(frames.Used())
      ensures frames.total == old(frames.total)
      ensures Reach(mem, pml4, PathOf(va)[..DEPTH - 1]) == if pt == 0 then Nil else To(pt)
    {
      hide TreeOk, Broad, Reach, Leaf, IsRoot;
      ghost var path := PathOf(va);
      Prefixes(va);
      RootReached(mem, info, pml4);
      var pdpt := NextLevel(pml4, Pml4Index(va), false, []);
      if pdpt == 0 {
        MissingAbove(mem, pml4, path, 1);
        return 0;
      }
      var pd := NextLevel(pdpt, PdptIndex(va), false, path[..1]);
      if pd == 0 {
        MissingAbove(mem, pml4, path, 2);
        return 0;
      }
      pt := NextLevel(pd, PdIndex(va), false, path[..2]);
    }

    /** paging_set_flags */
    method SetFlags(va: nat, flags: Flags)
      requires Valid()
      modifies this`mem, this`info, frames
      ensures Valid() && frames.Used() == old(frames.Used()) && frames.total == old(frames.total)
      ensures mem.Keys == old(mem).Keys
      ensures OnlyPage(old(mem), mem, pml4, PathOf(va), Flagged(old(mem), pml4, PathOf(va), flags))
      ensures forall path: seq<nat> :: |path| < DEPTH ==> Reach(mem, pml4, path) == Reach(old(mem), pml4, path)
    {
      hide TreeOk, Broad, Reach, Leaf, IsRoot;
      var pt := EntryFor(va);
      if pt == 0 {
        return;
      }
      ghost var e := Make(Leaf(mem, pml4, PathOf(va)).frame, flags);
      LeafPut(mem, info, pml4, PathOf(va), pt, e);
      LeafPutReach(mem, info, pml4, PathOf(va), pt, e);
      mem := Put(mem, pt, PtIndex(va), Make(mem[pt][PtIndex(va)].frame, flags));
    }

    /** paging_unmap */
    method Unmap(va: nat)
      requires Valid()
      modifies this`mem, this`info, frames
      ensures Valid() && frames.Used() == old(frames.Used()) && mem.Keys == old(mem).Keys
      ensures OnlyPage(old(mem), mem, pml4, PathOf(va), Zero)
    {
      hide TreeOk, Broad, Reach, IsRoot;
      var pt := EntryFor(va);
      if pt == 0 {
        return;
      }
      LeafPut(mem, info, pml4, PathOf(va), pt, Zero);
      mem := Put(mem, pt, PtIndex(va), Zero);
    }

    /** The two loops of paging_init, for page-aligned bounds of code and constants. */
    method MapKernel(text: nat, ro: nat) returns (ok: bool)
      requires frames.Guarded() && mem == map[]
      modifies this, frames
      ensures ok ==> Valid() && mappedLimit == CappedTop(frames.total) * PAGE_SIZE
      ensures ok ==> Identity(mem, pml4, CappedTop(frames.total), CappedTop(frames.total), text, ro)
      ensures ok ==> WriteXorExecute(mem, pml4) && TablesFor(mem, pml4, CappedTop(frames.total))
      ensures ok ==> frames.Used() == old(frames.Used()) + mem.Keys
    {
      hide TablesOk, Reach, Leaf, Identity, OnlyPage, SameLeaves, TablesFor, TablesGrow, PathOf, Pmm.Held, Pmm.Covers;
      ok := false;
      var root := frames.TakeFrame();
      if root == 0 {
        return;
      }
      FreshRoot(root);
      mem, info, pml4 := map[root := ZeroTable()], map[root := Info(Space(root), [])], root;
      var limit := CappedTop(frames.total);
      IdentityEmpty(mem, pml4, text, ro);
      for n := 0 to limit
        invariant Valid() && pml4 == root && frames.total == old(frames.total)
        invariant frames.Used() == old(frames.Used()) + mem.Keys
        invariant Identity(mem, pml4, n, 0, text, ro) && TablesFor(mem, pml4, n)
      {
        ghost var before := mem;
        var mapped := Map(n * PAGE_SIZE, n, Plain);
        if !mapped {
          return;
        }
        IdentityGrows(before, mem, pml4, n, text, ro);
        TablesForNext(before, mem, pml4, n);
      }
      mappedLimit := limit * PAGE_SIZE;
      for n := 0 to limit
        invariant Valid() && pml4 == root && frames.total == old(frames.total)
        invariant frames.Used() == old(frames.Used()) + mem.Keys
        invariant mappedLimit == limit * PAGE_SIZE
        invariant Identity(mem, pml4, limit, n, text, ro) && TablesFor(mem, pml4, limit)
      {
        ghost var before := mem;
        IdentityAt(mem, pml4, limit, n, text, ro);
        if text <= n * PAGE_SIZE < ro {
          SetFlags(n * PAGE_SIZE, CodeFlags);
        } else {
          SetFlags(n * PAGE_SIZE, DataFlags);
        }
        IdentityFlagged(before, mem, pml4, limit, n, text, ro);
        TablesForSame(before, mem, pml4, limit);
      }
      IdentityProtects(mem, pml4, limit, text, ro);
      ok := true;
    }

    /** paging_init. `textStart` and `roEnd` bound the kernel's code and constants. It returns false
        where the kernel would print a message and halt. */
    method Init(textStart: nat, roEnd: nat) returns (ok: bool)
      requires frames.Guarded() && mem == map[]
      modifies this, frames
      ensures ok ==> Valid() && mappedLimit == CappedTop(frames.total) * PAGE_SIZE
      ensures ok ==> mappedLimit == Pmm.Min(frames.total * PAGE_SIZE, 0x4000_0000)
      ensures ok ==> Identity(mem, pml4, CappedTop(frames.total), CappedTop(frames.total),
        textStart / PAGE_SIZE * PAGE_SIZE, (roEnd + PAGE_SIZE - 1) / PAGE_SIZE * PAGE_SIZE)
      ensures ok ==> forall n: nat :: n < CappedTop(frames.total) ==>
        KernelPage(Leaf(mem, pml4, PathOf(n * PAGE_SIZE)), n,
          textStart / PAGE_SIZE <= n < (roEnd + PAGE_SIZE - 1) / PAGE_SIZE)
      ensures ok ==> WriteXorExecute(mem, pml4) && TablesFor(mem, pml4, CappedTop(frames.total))
      ensures ok ==> frames.Used() == old(frames.Used()) + mem.Keys
    {
      hide TablesOk, Reach, Leaf, Identity, TablesFor, PathOf, WriteXorExecute, Pmm.Held, Pmm.Covers;
      var text, ro := textStart / PAGE_SIZE * PAGE_SIZE, (roEnd + PAGE_SIZE - 1) / PAGE_SIZE * PAGE_SIZE;
      ok := MapKernel(text, ro);
      if ok {
        forall n: nat | n < CappedTop(frames.total)
          ensures KernelPage(Leaf(mem, pml4, PathOf(n * PAGE_SIZE)), n, text / PAGE_SIZE <= n < ro / PAGE_SIZE)
        {
          IdentityPage(mem, pml4, CappedTop(frames.total), n, text, ro);
        }
      }
    }

    /** Set the user bit in entry i of the upper-level table t. */
    method Relax(t: nat, i: nat, ghost path: seq<nat>) returns (c: nat)
      requires Valid() && i < ENTRIES && |path| + 1 < DEPTH && Reach(mem, pml4, path) == To(t)
      modifies this`mem
      ensures Valid() && mem.Keys == old(mem).Keys
      ensures forall up: seq<nat> :: |up| < DEPTH ==> Reach(mem, pml4, up) == Reach(old(mem), pml4, up)
      ensures SameLeaves(old(mem), mem, pml4)
      ensures Reach(mem, pml4, path + [i]) == if c == 0 then Nil else To(c)
    {
      hide TreeOk, Broad, Reach, Leaf, Pmm.Held, Pmm.Covers;
      ReachStep(mem, info, pml4, path, i, t);
      ghost var e := mem[t][i].(user := true);
      FlagWrite(mem, info, DEPTH, t, i, e);
      BroadRelax(mem, info, t, i);
      mem := Put(mem, t, i, mem[t][i].(user := true));
      c := mem[t][i].frame;
    }

    /** The body of paging_make_user's loop for one page. */
    method MakeUserPage(va: nat, flags: Flags)
      requires Valid()
      modifies this`mem, this`info, frames
      ensures Valid() && frames.Used() == old(frames.Used()) && frames.total == old(frames.total)
      ensures mem.Keys == old(mem).Keys
      ensures OnlyPage(old(mem), mem, pml4, PathOf(va), Flagged(old(mem), pml4, PathOf(va), flags))
      ensures forall path: seq<nat> :: |path| < DEPTH ==> Reach(mem, pml4, path) == Reach(old(mem), pml4, path)
    {
      hide TablesOk, Reach, Leaf, Pmm.Held, Pmm.Covers, PathOf;
      ghost var path := PathOf(va);
      Prefixes(va);
      RootReached(mem, info, pml4);
      var pdpt := Relax(pml4, Pml4Index(va), []);
      if pdpt == 0 {
        MissingAbove(mem, pml4, path, 1);
        return;
      }
      var pd := Relax(pdpt, PdptIndex(va), path[..1]);
      if pd == 0 {
        MissingAbove(mem, pml4, path, 2);
        return;
      }
      var _ := Relax(pd, PdIndex(va), path[..2]);
      SetFlags(va, flags);
    }

    /** paging_make_user */
    method MakeUser(start: nat, end: nat, writable: bool)
      requires Valid()
      modifies this`mem, this`info, frames
      ensures Valid() && frames.Used() == old(frames.Used()) && mem.Keys == old(mem).Keys
      ensures FlaggedIn(old(mem), mem, pml4, start / PAGE_SIZE * PAGE_SIZE, end, Flags(true, writable, true, writable))
      ensures WriteXorExecute(old(mem), pml4) ==> WriteXorExecute(mem, pml4)
    {
      hide TablesOk, Reach, Leaf, Pmm.Held, Pmm.Covers, FlaggedIn, OnlyPage, PathOf, WriteXorExecute;
      var flags := UserFlags(writable);
      var first := start / PAGE_SIZE * PAGE_SIZE;
      var addr := first;
      ghost var k := 0;
      FlaggedStart(mem, pml4, first, flags);
      while addr < end
        invariant addr == PageAddr(first, k) && Valid()
        invariant frames.Used() == old(frames.Used()) && frames.total == old(frames.total) && mem.Keys == old(mem).Keys
        invariant FlaggedIn(old(mem), mem, pml4, first, addr, flags)
        invariant k > 0 ==> PageAddr(first, k - 1) < end
      {
        ghost var before := mem;
        MakeUserPage(addr, flags);
        FlaggedStep(old(mem), before, mem, pml4, first, k, end, flags);
        addr := addr + PAGE_SIZE;
        k := k + 1;
      }
      FlaggedEnd(old(mem), mem, pml4, first, k, end, flags);
      if WriteXorExecute(old(mem), pml4) {
        UserKeepsProtection(old(mem), mem, pml4, first, end, writable);
      }
    }
  }

  // ---- steps of the methods -------------------------------------------------------------------------------

  /** The pages paging_init maps: all of memory, up to the gigabyte the boot code has mapped. */
  function CappedTop(total: nat): nat { if total * PAGE_SIZE > 0x4000_0000 then 0x4_0000 else total }

  lemma IdentityEmpty(mem: Memory, root: nat, textStart: nat, roEnd: nat)
    requires forall page: seq<nat> :: |page| == DEPTH ==> Leaf(mem, root, page) == Zero
    ensures Identity(mem, root, 0, 0, textStart, roEnd)
  {
  }

  lemma BroadRelax(mem: Memory, info: map<nat, Info>, t: nat, i: nat)
    requires Broad(mem, info) && t in mem && t in info && i < |mem[t]|
    ensures Broad(Put(mem, t, i, mem[t][i].(user := true)), info)
  {
  }

  /** The rounded range ends where the last page starts below `end`. */
  lemma FlaggedEnd(mem: Memory, mem': Memory, root: nat, first: nat, k: nat, end: nat, flags: Flags)
    requires FlaggedIn(mem, mem', root, first, PageAddr(first, k), flags) && end <= PageAddr(first, k)
    requires k > 0 ==> PageAddr(first, k - 1) < end
    ensures FlaggedIn(mem, mem', root, first, end, flags)
  {
    hide Leaf, Reach, PathOf, Visited, Flagged;
    forall page: seq<nat>
      ensures Visited(page, first, PageAddr(first, k)) == Visited(page, first, end)
    {
      VisitedSame(page, first, k, end);
    }
  }

  lemma VisitedSame(page: seq<nat>, first: nat, k: nat, end: nat)
    requires end <= PageAddr(first, k) && (k > 0 ==> PageAddr(first, k - 1) < end)
    ensures Visited(page, first, PageAddr(first, k)) == Visited(page, first, end)
  {
    hide PathOf;
    if Visited(page, first, PageAddr(first, k)) {
      var j: nat :| PageAddr(first, j) < PageAddr(first, k) && page == PathOf(PageAddr(first, j));
      assert PageAddr(first, j) <= PageAddr(first, k - 1);
    }
  }

  lemma Prefixes(va: nat)
    ensures PathOf(va)[..1] == [] + [Pml4Index(va)] && PathOf(va)[..2] == PathOf(va)[..1] + [PdptIndex(va)]
    ensures PathOf(va)[..3] == PathOf(va)[..2] + [PdIndex(va)] && PathOf(va)[3] == PtIndex(va)
  {
  }

  lemma RootReached(mem: Memory, info: map<nat, Info>, root: nat)
    requires TablesOk(mem, info, root)
    ensures Reach(mem, root, []) == To(root)
  {
  }

  lemma MissingAbove(mem: Memory, root: nat, path: seq<nat>, n: nat)
    requires n < |path| && Reach(mem, root, path[..n]) == Nil
    ensures forall m :: n <= m <= |path| ==> Reach(mem, root, path[..m]) == Nil
  {
    for m := n to |path|
      invariant forall j :: n <= j <= m ==> Reach(mem, root, path[..j]) == Nil
    {
      assert path[..m + 1][..m] == path[..m];
    }
  }

  lemma LeafPutReach(mem: Memory, info: map<nat, Info>, root: nat, path: seq<nat>, t: nat, e: Entry)
    requires TablesOk(mem, info, root) && |path| == DEPTH && path[DEPTH - 1] < ENTRIES
    requires Reach(mem, root, path[..DEPTH - 1]) == To(t)
    ensures t in mem && |mem[t]| == ENTRIES
    ensures forall up: seq<nat> :: |up| < DEPTH ==>
      Reach(Put(mem, t, path[DEPTH - 1], e), root, up) == Reach(mem, root, up)
  {
    hide TreeOk, Reach, Broad;
    ReachInfo(mem, info, DEPTH, root, path[..DEPTH - 1]);
    PutSame(mem, info, DEPTH, t, path[DEPTH - 1], e);
    forall up: seq<nat> | |up| < DEPTH
      ensures Reach(Put(mem, t, path[DEPTH - 1], e), root, up) == Reach(mem, root, up)
    {
      SamePointersReach(mem, Put(mem, t, path[DEPTH - 1], e), info, DEPTH, root, up);
    }
  }
}
