/**
 The PAE page tables of the 32-bit kernel: one set of tables for the kernel, and an address space of
 its own for each program, sharing the kernel's lowest-level tables.
 */
module Paging32 {
  import opened Frames
  import Pmm
  import opened PageTables
  import opened AddressSpaces

  const WORD: nat := 0x1_0000_0000

  // ---- addresses ----------------------------------------------------------------------------------------

  function PdptIndex(v: nat): nat { v / 0x4000_0000 }
  function PdIndex(v: nat): nat { v / 0x20_0000 % 512 }
  function PtIndex(v: nat): nat { v / 0x1000 % 512 }

  function PathOf(v: nat): (path: seq<nat>)
    requires v < WORD
    ensures |path| == DEPTH && path[0] < 4 && path[1] < ENTRIES && path[2] < ENTRIES
  {
    [PdptIndex(v), PdIndex(v), PtIndex(v)]
  }

  lemma PageDigits(v: nat)
    requires v < WORD
    ensures v / PAGE_SIZE == (PdptIndex(v) * 512 + PdIndex(v)) * 512 + PtIndex(v)
  {
    assert v / 0x20_0000 == v / 0x1000 / 512 && v / 0x4000_0000 == v / 0x1000 / 512 / 512;
  }

  /** Two addresses share a path exactly when they lie on the same page. */
  lemma PathOfUnique(v: nat, w: nat)
    requires v < WORD && w < WORD
    ensures PathOf(v) == PathOf(w) <==> v / PAGE_SIZE == w / PAGE_SIZE
  {
    hide PdptIndex, PdIndex, PtIndex;
    PageDigits(v);
    PageDigits(w);
    var a, b := PathOf(v), PathOf(w);
    assert a[0] == PdptIndex(v) && a[1] == PdIndex(v) && a[2] == PtIndex(v);
    assert b[0] == PdptIndex(w) && b[1] == PdIndex(w) && b[2] == PtIndex(w);
  }

  // ---- permissions of the directory level ----------------------------------------------------------------

  ghost function PdEntry(mem: Memory, root: nat, a: nat, b: nat): Entry { EntryAt(mem, Reach(mem, root, [a]), b) }

  /** A directory entry is new, or has gained the user bit at most. */
  ghost predicate Widens(e: Entry, e': Entry) { e' == e || !e.present || e' == e.(user := true) }

  /** Directory entries only widen, and only in the space `root`. */
  ghost predicate PdsWiden(mem: Memory, mem': Memory, spaces: set<nat>, root: nat) {
    forall r, a: nat, b: nat :: r in spaces ==>
      PdEntry(mem', r, a, b) == PdEntry(mem, r, a, b)
        || (r == root && Widens(PdEntry(mem, r, a, b), PdEntry(mem', r, a, b)))
  }

  lemma PdsWidenTwice(mem: Memory, mid: Memory, mem': Memory, spaces: set<nat>, root: nat)
    requires PdsWiden(mem, mid, spaces, root) && PdsWiden(mid, mem', spaces, root)
    ensures PdsWiden(mem, mem', spaces, root)
  {
    hide PdEntry;
    forall r, a: nat, b: nat | r in spaces
      ensures PdEntry(mem', r, a, b) == PdEntry(mem, r, a, b)
        || (r == root && Widens(PdEntry(mem, r, a, b), PdEntry(mem', r, a, b)))
    {
      var e1, e2, e3 := PdEntry(mem, r, a, b), PdEntry(mid, r, a, b), PdEntry(mem', r, a, b);
      assert e2 == e1 || (r == root && Widens(e1, e2));
      assert e3 == e2 || (r == root && Widens(e2, e3));
    }
  }

  /** Every user page of the space itself lies under a directory entry that lets user mode through. (A
      page of the kernel may be open to user mode in one space and not in another.) */
  ghost predicate UserUp(mem: Memory, root: nat, kernel: nat) {
    forall page: seq<nat> ::
      |page| == DEPTH && !KernelPath(page, kernel) && Leaf(mem, root, page).present && Leaf(mem, root, page).user ==>
      PdEntry(mem, root, page[0], page[1]).user
  }

  ghost predicate UsersUp(mem: Memory, spaces: set<nat>, kernel: nat) {
    forall r :: r in spaces ==> UserUp(mem, r, kernel)
  }

  lemma GrantedIsPd(mem: Memory, root: nat, page: seq<nat>)
    requires |page| == DEPTH
    ensures var e := PdEntry(mem, root, page[0], page[1]);
            Granted(mem, root, page[..2], 1) == Rights(e.write, e.user, e.nx)
    ensures Leaf(mem, root, page).present ==> PdEntry(mem, root, page[0], page[1]).present
  {
    assert page[..2][..1] == [page[0]];
  }

  /** A page whose entry did not change keeps what the processor allows on it. */
  lemma KeepsRights(mem: Memory, mem': Memory, spaces: set<nat>, root: nat, kernel: nat, r: nat, page: seq<nat>)
    requires PdsWiden(mem, mem', spaces, root) && r in spaces && |page| == DEPTH
    requires (r == root ==> UserUp(mem, root, kernel) && !KernelPath(page, kernel))
    requires Leaf(mem', r, page) == Leaf(mem, r, page) && Leaf(mem, r, page).present
    ensures Effective(mem', r, page, 1) == Effective(mem, r, page, 1)
  {
    hide PdEntry, Leaf, Granted, Reach;
    GrantedIsPd(mem, r, page);
    GrantedIsPd(mem', r, page);
    assert PdEntry(mem', r, page[0], page[1]) == PdEntry(mem, r, page[0], page[1])
        || (r == root && Widens(PdEntry(mem, r, page[0], page[1]), PdEntry(mem', r, page[0], page[1])));
  }

  /** The directory entry lets through what the page asks for. */
  ghost predicate LetsThrough(e: Entry, user: bool) { e.present && e.write && !e.nx && (user ==> e.user) }

  lemma EffectiveIs(mem: Memory, root: nat, page: seq<nat>, frame: nat, flags: Flags)
    requires |page| == DEPTH && Leaf(mem, root, page) == Make(frame, flags)
    requires LetsThrough(PdEntry(mem, root, page[0], page[1]), flags.user)
    ensures Effective(mem, root, page, 1) == Make(frame, flags)
  {
    hide PdEntry, Leaf, Granted, Reach;
    GrantedIsPd(mem, root, page);
  }

  /** Writing one page keeps every user page under a user directory entry, if that page is, or is the
      kernel's. */
  lemma MapKeepsUserUp(mem: Memory, mem': Memory, spaces: set<nat>, root: nat, kernel: nat, path: seq<nat>, e: Entry)
    requires UsersUp(mem, spaces, kernel) && root in spaces && |path| == DEPTH && PdsWiden(mem, mem', spaces, root)
    requires OnlyPage(mem, mem', spaces, root, kernel, path, e)
    requires e.present && e.user ==> PdEntry(mem', root, path[0], path[1]).user || KernelPath(path, kernel)
    ensures UsersUp(mem', spaces, kernel)
  {
    hide PdEntry, Leaf, KernelPath;
    forall r, page: seq<nat> | r in spaces && |page| == DEPTH && !KernelPath(page, kernel)
        && Leaf(mem', r, page).present && Leaf(mem', r, page).user
      ensures PdEntry(mem', r, page[0], page[1]).user
    {
      if page != path || r != root {
        assert Leaf(mem', r, page) == Leaf(mem, r, page);
        assert UserUp(mem, r, kernel);
        assert PdEntry(mem', r, page[0], page[1]) == PdEntry(mem, r, page[0], page[1])
            || Widens(PdEntry(mem, r, page[0], page[1]), PdEntry(mem', r, page[0], page[1]));
        LeafUnderPd(mem, r, page);
      }
    }
  }

  /** Making tables keeps it. */
  lemma WalkKeepsUserUp(mem: Memory, mem': Memory, spaces: set<nat>, root: nat, kernel: nat)
    requires UsersUp(mem, spaces, kernel) && PdsWiden(mem, mem', spaces, root) && SameLeaves(mem, mem', spaces)
    ensures UsersUp(mem', spaces, kernel)
  {
    hide PdEntry, Leaf, KernelPath;
    forall r, page: seq<nat> | r in spaces && |page| == DEPTH && !KernelPath(page, kernel)
        && Leaf(mem', r, page).present && Leaf(mem', r, page).user
      ensures PdEntry(mem', r, page[0], page[1]).user
    {
      assert Leaf(mem', r, page) == Leaf(mem, r, page);
      assert UserUp(mem, r, kernel);
      assert PdEntry(mem', r, page[0], page[1]) == PdEntry(mem, r, page[0], page[1])
          || Widens(PdEntry(mem, r, page[0], page[1]), PdEntry(mem', r, page[0], page[1]));
      LeafUnderPd(mem, r, page);
    }
  }

  /** So on a user page of the space itself the processor allows what the page's own entry says. */
  lemma EffectiveUser(mem: Memory, info: map<nat, Info>, spaces: set<nat>, kernelPdpt: nat, kernelPd: nat, kernel: nat,
      root: nat, page: seq<nat>)
    requires TablesOk(mem, info, spaces, kernelPdpt, kernelPd, kernel) && UsersUp(mem, spaces, kernel) && root in spaces
    requires |page| == DEPTH && !KernelPath(page, kernel) && Leaf(mem, root, page).present && Leaf(mem, root, page).user
    ensures Effective(mem, root, page, 1) == Leaf(mem, root, page)
  {
    hide TreeOk, Rooted, SharesAt, Leaf, Granted, Reach;
    GrantedIsPd(mem, root, page);
    assert UserUp(mem, root, kernel);
    ReachInfo(mem, info, DEPTH, root, [page[0]]);
  }

  lemma LeafUnderPd(mem: Memory, root: nat, page: seq<nat>)
    requires |page| == DEPTH && Leaf(mem, root, page).present
    ensures PdEntry(mem, root, page[0], page[1]).present
  {
    GrantedIsPd(mem, root, page);
  }

  // ---- the invariant of the tables --------------------------------------------------------------------------

  ghost predicate TablesOk(mem: Memory, info: map<nat, Info>, spaces: set<nat>, kernelPdpt: nat, kernelPd: nat,
      kernel: nat) {
    && SpacesOk(mem, info, spaces, kernelPdpt, kernel) && PdRights(mem, info)
    && Reach(mem, kernelPdpt, [0]) == To(kernelPd)
    && (forall r :: r in spaces ==> Reach(mem, r, [0]).To?)
  }

  /** Old tables keep their labels; new ones belong to `root`. */
  ghost predicate Grows(info: map<nat, Info>, info': map<nat, Info>, root: nat) {
    && (forall t :: t in info ==> t in info' && info'[t] == info[t])
    && (forall t :: t in info' && t !in info ==> info'[t].owner == Space(root))
  }

  /** The tables of other spaces stay theirs, at the same places. */
  ghost predicate SameOwners(info: map<nat, Info>, info': map<nat, Info>, root: nat) {
    && (forall t :: t in info && info[t].owner.Space? && info[t].owner != Space(root) ==>
         t in info' && info'[t] == info[t])
    && (forall t :: t in info' && info'[t].owner.Space? && info'[t].owner != Space(root) ==>
         t in info && info'[t] == info[t])
  }

  /** The same for a given set of spaces. */
  ghost predicate SameLabels(info: map<nat, Info>, info': map<nat, Info>, spaces: set<nat>) {
    && (forall t :: t in info && info[t].owner.Space? && info[t].owner.root in spaces ==>
         t in info' && info'[t] == info[t])
    && (forall t :: t in info' && info'[t].owner.Space? && info'[t].owner.root in spaces ==>
         t in info && info'[t] == info[t])
  }

  /** All tables of the space lie in the first gigabyte, going by their labels. */
  ghost predicate LowIn(info: map<nat, Info>, root: nat) {
    forall t :: t in info && info[t].owner == Space(root) ==> info[t].path == [] || info[t].path[0] == 0
  }

  /** Which is what the root table says. */
  lemma LowIs(mem: Memory, info: map<nat, Info>, spaces: set<nat>, kernelPdpt: nat, kernelPd: nat, kernel: nat,
      root: nat)
    requires TablesOk(mem, info, spaces, kernelPdpt, kernelPd, kernel) && root in spaces
    ensures root in mem && |mem[root]| == ENTRIES && (Low(mem, root) <==> LowIn(info, root))
  {
    hide TreeOk, Reach, Rooted, SharesAt, PdRights;
    TreeSize(mem, info, DEPTH, root);
    if Low(mem, root) {
      forall t | t in info && info[t].owner == Space(root)
        ensures info[t].path == [] || info[t].path[0] == 0
      {
        LowPath(mem, info, spaces, kernelPdpt, kernel, root, t);
      }
    } else {
      var a :| 1 <= a < ENTRIES && mem[root][a].present;
      HighTable(mem, info, spaces, kernelPdpt, kernel, root, a);
    }
  }

  lemma LabelsKept(info: map<nat, Info>, info': map<nat, Info>, spaces: set<nat>, r: nat)
    requires SameLabels(info, info', spaces) && r in spaces
    ensures Owned(info', r) == Owned(info, r) && (LowIn(info', r) <==> LowIn(info, r))
  {
  }

  lemma OwnersAreLabels(info: map<nat, Info>, info': map<nat, Info>, root: nat, spaces: set<nat>)
    requires SameOwners(info, info', root) && root !in spaces
    ensures SameLabels(info, info', spaces)
  {
  }

  lemma LabelsTwice(info: map<nat, Info>, mid: map<nat, Info>, info': map<nat, Info>, spaces: set<nat>)
    requires SameLabels(info, mid, spaces) && SameLabels(mid, info', spaces)
    ensures SameLabels(info, info', spaces)
  {
  }

  lemma HungPds(mem: Memory, info: map<nat, Info>, spaces: set<nat>, kernelPdpt: nat, kernelPd: nat, kernel: nat,
      root: nat, path: seq<nat>, t: nat, i: nat, c: nat, e: Entry)
    requires TablesOk(mem, info, spaces, kernelPdpt, kernelPd, kernel) && CanHang(mem, info, DEPTH, t, i, c, e)
    requires root in spaces && |path| < 2 && Reach(mem, root, path) == To(t) && info[t] == Info(Space(root), path)
    ensures PdsWiden(mem, Hang(mem, t, i, c, e), spaces, root)
  {
    hide TreeOk, Reach, Rooted, SharesAt;
    var mem' := Hang(mem, t, i, c, e);
    forall r, a: nat, b: nat | r in spaces
      ensures PdEntry(mem', r, a, b) == PdEntry(mem, r, a, b)
        || (r == root && Widens(PdEntry(mem, r, a, b), PdEntry(mem', r, a, b)))
    {
      HangReach(mem, info, DEPTH, t, i, c, e, r, [a]);
      ReachInfo(mem, info, DEPTH, r, [a]);
    }
  }

  lemma HungRights(mem: Memory, info: map<nat, Info>, t: nat, i: nat, c: nat, e: Entry)
    requires PdRights(mem, info) && CanHang(mem, info, DEPTH, t, i, c, e) && (|info[t].path| == 1 ==> e.write && !e.nx)
    ensures PdRights(Hang(mem, t, i, c, e), HangInfo(info, t, i, c))
  {
    hide TreeOk;
    var mem': Memory, info' := Hang(mem, t, i, c, e), HangInfo(info, t, i, c);
    forall u: nat, j: int | u in mem' && u in info' && |info'[u].path| == 1 && 0 <= j < |mem'[u]| && mem'[u][j].present
      ensures mem'[u][j].write && !mem'[u][j].nx
    {
      if u != c {
        assert u in mem && info'[u] == info[u];
        assert mem[u][j].present ==> mem[u][j].write && !mem[u][j].nx;
      }
    }
  }

  lemma Hung(mem: Memory, info: map<nat, Info>, spaces: set<nat>, kernelPdpt: nat, kernelPd: nat, kernel: nat,
      root: nat, path: seq<nat>, t: nat, i: nat, c: nat, e: Entry)
    requires TablesOk(mem, info, spaces, kernelPdpt, kernelPd, kernel) && root in spaces && |path| < 2
    requires Reach(mem, root, path) == To(t) && i < ENTRIES
    requires t in mem && |mem[t]| == ENTRIES && !mem[t][i].present && c !in mem && c != 0 && e.present && e.frame == c
    requires path != [] ==> e.write && !e.nx
    ensures t in info && info[t] == Info(Space(root), path)
    ensures TablesOk(Hang(mem, t, i, c, e), HangInfo(info, t, i, c), spaces, kernelPdpt, kernelPd, kernel)
    ensures SameLeaves(mem, Hang(mem, t, i, c, e), spaces) && PdsWiden(mem, Hang(mem, t, i, c, e), spaces, root)
    ensures Reach(Hang(mem, t, i, c, e), root, path + [i]) == To(c)
    ensures Grows(info, HangInfo(info, t, i, c), root) && Hang(mem, t, i, c, e).Keys == mem.Keys + {c}
  {
    hide TreeOk, Reach, Rooted, SharesAt, PdRights;
    ReachInfo(mem, info, DEPTH, root, path);
    TreeKeys(mem, info);
    TableHung(mem, info, spaces, kernelPdpt, kernel, root, path, t, i, c, e);
    HungPds(mem, info, spaces, kernelPdpt, kernelPd, kernel, root, path, t, i, c, e);
    HungRights(mem, info, t, i, c, e);
    forall r | r in spaces
      ensures Reach(Hang(mem, t, i, c, e), r, [0]) == Reach(mem, r, [0])
    {
      HangReach(mem, info, DEPTH, t, i, c, e, r, [0]);
    }
  }

  /** Setting the user bit of a directory entry of the space `root`. */
  lemma Relaxed(mem: Memory, info: map<nat, Info>, spaces: set<nat>, kernelPdpt: nat, kernelPd: nat, kernel: nat,
      root: nat, a: nat, b: nat, pd: nat)
    requires TablesOk(mem, info, spaces, kernelPdpt, kernelPd, kernel) && root in spaces
    requires Reach(mem, root, [a]) == To(pd) && b < ENTRIES
    ensures pd in mem && |mem[pd]| == ENTRIES
    ensures var mem' := Put(mem, pd, b, mem[pd][b].(user := true));
            && TablesOk(mem', info, spaces, kernelPdpt, kernelPd, kernel) && SameLeaves(mem, mem', spaces)
            && PdsWiden(mem, mem', spaces, root)
            && (forall r, up: seq<nat> :: r in spaces && |up| < DEPTH ==> Reach(mem', r, up) == Reach(mem, r, up))
            && mem'.Keys == mem.Keys && PdEntry(mem', root, a, b).user
  {
    hide TreeOk, Reach, Rooted, SharesAt;
    ReachInfo(mem, info, DEPTH, root, [a]);
    TreeSize(mem, info, DEPTH, pd);
    var mem' := Put(mem, pd, b, mem[pd][b].(user := true));
    DirectoryWrite(mem, info, spaces, kernelPdpt, kernel, pd, b, mem[pd][b].(user := true));
    forall r, a', b': nat | r in spaces
      ensures PdEntry(mem', r, a', b') == PdEntry(mem, r, a', b')
        || (r == root && Widens(PdEntry(mem, r, a', b'), PdEntry(mem', r, a', b')))
    {
      ReachInfo(mem, info, DEPTH, r, [a']);
      NotShared(mem, info, spaces, kernelPdpt, kernel, root, [a]);
    }
  }

  lemma NotShared(mem: Memory, info: map<nat, Info>, spaces: set<nat>, kernelPdpt: nat, kernel: nat, root: nat,
      path: seq<nat>)
    requires SpacesOk(mem, info, spaces, kernelPdpt, kernel) && root in spaces && |path| < 2
    requires Reach(mem, root, path).To?
    ensures var t := Reach(mem, root, path).table; t in mem && t in info && info[t] == Info(Space(root), path)
  {
    hide TreeOk, Reach, Rooted, SharesAt;
    ReachInfo(mem, info, DEPTH, root, path);
  }

  /** Writing the entry of one page. */
  lemma Written(mem: Memory, info: map<nat, Info>, spaces: set<nat>, kernelPdpt: nat, kernelPd: nat, kernel: nat,
      root: nat, path: seq<nat>, t: nat, e: Entry)
    requires TablesOk(mem, info, spaces, kernelPdpt, kernelPd, kernel) && root in spaces && |path| == DEPTH
    requires path[2] < ENTRIES
    requires Reach(mem, root, path[..2]) == To(t)
    ensures t in mem && |mem[t]| == ENTRIES && Leaf(mem, root, path) == mem[t][path[2]]
    ensures TablesOk(Put(mem, t, path[2], e), info, spaces, kernelPdpt, kernelPd, kernel)
    ensures OnlyPage(mem, Put(mem, t, path[2], e), spaces, root, kernel, path, e)
    ensures PdsWiden(mem, Put(mem, t, path[2], e), spaces, root)
    ensures forall r, a: nat, b: nat :: r in spaces ==>
      PdEntry(Put(mem, t, path[2], e), r, a, b) == PdEntry(mem, r, a, b)
    ensures forall r, up: seq<nat> :: r in spaces && |up| < DEPTH ==>
      Reach(Put(mem, t, path[2], e), r, up) == Reach(mem, r, up)
  {
    hide TreeOk, Reach, Rooted, SharesAt;
    PageWrite(mem, info, spaces, kernelPdpt, kernel, root, path, t, e);
    ReachInfo(mem, info, DEPTH, root, path[..2]);
    forall r, a: nat, b: nat | r in spaces
      ensures PdEntry(Put(mem, t, path[2], e), r, a, b) == PdEntry(mem, r, a, b)
    {
      ReachInfo(mem, info, DEPTH, r, [a]);
    }
  }

  class Pager {
    const frames: Pmm.FrameAllocator
    const kernelPdpt: nat
    const kernelPd: nat
    var mem: Memory
    var active: nat
    var kernel: nat
    var mappedLimit: nat
    var nx: bool

    ghost var info: map<nat, Info>
    ghost var spaces: set<nat>

    ghost predicate Valid()
      reads this, frames
    {
      && frames.Guarded() && mem.Keys <= frames.Used() && active in spaces
      && TablesOk(mem, info, spaces, kernelPdpt, kernelPd, kernel)
    }

    /** What making tables may do: frames leave the pool only to become tables of the active space. */
    twostate predicate MadeTables()
      requires old(frames.Valid()) && frames.Valid()
      reads this, frames
    {
      && Grows(old(info), info, active) && old(mem).Keys <= mem.Keys && frames.total == old(frames.total)
      && frames.Used() == old(frames.Used()) + (mem.Keys - old(mem).Keys)
      && (mem.Keys - old(mem).Keys) !! old(frames.Used())
    }

    ghost predicate Exhausted()
      requires frames.Valid()
      reads this, frames
    {
      forall f :: 0 <= f < frames.total ==> f in frames.Used()
    }

    /** Before paging_init. The kernel's own PDPT and directory are part of its image. */
    constructor (frames: Pmm.FrameAllocator, kernelPdpt: nat, kernelPd: nat)
      ensures this.frames == frames && this.kernelPdpt == kernelPdpt && this.kernelPd == kernelPd && mem == map[]
    {
      this.frames, this.kernelPdpt, this.kernelPd := frames, kernelPdpt, kernelPd;
      mem, active, kernel, mappedLimit, nx := map[], kernelPdpt, 0, 0, false;
      info, spaces := map[], {};
    }

    /** Take a frame, clear it and hang it under entry i of t as a new table. 0 when no frame is left. */
    method NewTable(t: nat, i: nat, e: Flags, ghost path: seq<nat>) returns (c: nat)
      requires Valid() && |path| < 2 && Reach(mem, active, path) == To(t) && i < ENTRIES
      requires t in mem && |mem[t]| == ENTRIES && !mem[t][i].present && e.present && (path != [] ==> e.write && !e.nx)
      modifies this`mem, this`info, frames
      ensures Valid() && MadeTables() && SameLeaves(old(mem), mem, spaces) && PdsWiden(old(mem), mem, spaces, active)
      ensures c == 0 ==> Exhausted() && mem == old(mem) && info == old(info)
      ensures OneMore(old(mem).Keys, mem.Keys)
      ensures c != 0 ==>
        && Reach(mem, active, path + [i]) == To(c) && t in mem && mem == Hang(old(mem), t, i, c, Make(c, e))
        && c !in old(mem)
    {
      hide OneMore, TablesOk, Reach, PdsWiden, SameLeaves, Grows, Pmm.Held, Pmm.Covers;
      NoChange(mem, info, spaces, active);
      c := frames.TakeFrame();
      if c != 0 {
        Hung(mem, info, spaces, kernelPdpt, kernelPd, kernel, active, path, t, i, c, Make(c, e));
        info := HangInfo(info, t, i, c);
        mem := Hang(mem, t, i, c, Make(c, e));
      }
      MoreBy(old(mem).Keys, mem.Keys, c);
    }

    /** The first part of paging_map: the directory for va, made if missing. 0 when no frame is left. */
    method Directory(va: nat) returns (pd: nat)
      requires Valid() && va < WORD
      modifies this`mem, this`info, frames
      ensures Valid() && MadeTables() && SameLeaves(old(mem), mem, spaces) && PdsWiden(old(mem), mem, spaces, active)
      ensures pd != 0 ==> Reach(mem, active, [PdptIndex(va)]) == To(pd)
      ensures pd == 0 ==> Exhausted() && mem.Keys == old(mem).Keys
      ensures OneMore(old(mem).Keys, mem.Keys)
      ensures va < 0x4000_0000 ==> pd != 0 && mem == old(mem)
    {
      hide OneMore, TablesOk, Reach, PdsWiden, SameLeaves, Grows, Hang, Pmm.Held, Pmm.Covers;
      var a := PdptIndex(va);
      NoChange(mem, info, spaces, active);
      MoreBy(mem.Keys, mem.Keys, 0);
      RootEntry(mem, info, spaces, kernelPdpt, kernelPd, kernel, active, a);
      assert [] + [a] == [a];
      if mem[active][a].present {
        return mem[active][a].frame;
      }
      pd := NewTable(active, a, Flags(true, false, false, false), []);
    }

    /** The second part: the lowest-level table, made if missing, with the user bit above it. */
    method TableOf(pd: nat, va: nat, user: bool) returns (pt: nat)
      requires Valid() && va < WORD && Reach(mem, active, [PdptIndex(va)]) == To(pd)
      modifies this`mem, this`info, frames
      ensures Valid() && MadeTables() && SameLeaves(old(mem), mem, spaces) && PdsWiden(old(mem), mem, spaces, active)
      ensures pt != 0 ==>
        && Reach(mem, active, PathOf(va)[..2]) == To(pt)
        && LetsThrough(PdEntry(mem, active, PdptIndex(va), PdIndex(va)), user)
      ensures pt == 0 ==> Exhausted() && mem.Keys == old(mem).Keys
      ensures OneMore(old(mem).Keys, mem.Keys)
      ensures active in old(mem) && active in mem && mem[active] == old(mem)[active]
    {
      hide OneMore, TablesOk, Reach, PdsWiden, SameLeaves, Grows, PdEntry, Pmm.Held, Pmm.Covers;
      var a, b := PdptIndex(va), PdIndex(va);
      assert PathOf(va)[..2] == [a] + [b];
      NoChange(mem, info, spaces, active);
      MoreBy(mem.Keys, mem.Keys, 0);
      PdFacts(mem, info, spaces, kernelPdpt, kernelPd, kernel, active, a, b, pd);
      if mem[pd][b].present {
        if user {
          Relaxed(mem, info, spaces, kernelPdpt, kernelPd, kernel, active, a, b, pd);
          mem := Put(mem, pd, b, mem[pd][b].(user := true));
          PdFacts(mem, info, spaces, kernelPdpt, kernelPd, kernel, active, a, b, pd);
        }
        return mem[pd][b].frame;
      }
      pt := NewTable(pd, b, Flags(true, true, user, false), [a]);
      if pt != 0 {
        HangKeepsPd(old(mem), active, a, b, pd, pt, mem, Make(pt, Flags(true, true, user, false)));
      }
    }

    /** NX is dropped when the processor lacks it. */
    function Supported(flags: Flags): Flags
      reads this
    {
      if nx then flags else flags.(nx := false)
    }

    /** The walk of paging_map. 0 when no frame is left. */
    method Walk(va: nat, user: bool) returns (pt: nat)
      requires Valid() && va < WORD
      modifies this`mem, this`info, frames
      ensures Valid() && MadeTables() && SameLeaves(old(mem), mem, spaces) && PdsWiden(old(mem), mem, spaces, active)
      ensures pt != 0 ==>
        && Reach(mem, active, PathOf(va)[..2]) == To(pt)
        && LetsThrough(PdEntry(mem, active, PdptIndex(va), PdIndex(va)), user)
      ensures pt == 0 ==> Exhausted() && OneMore(old(mem).Keys, mem.Keys)
      ensures active in old(mem) && active in mem && (va < 0x4000_0000 ==> mem[active] == old(mem)[active])
    {
      hide OneMore, TablesOk, Reach, PdsWiden, SameLeaves, PdEntry, PathOf, Pmm.Held, Pmm.Covers;
      SpacesHaveRoots(mem, info, spaces, kernelPdpt, kernelPd, kernel);
      var pd := Directory(va);
      if pd == 0 {
        SpacesHaveRoots(mem, info, spaces, kernelPdpt, kernelPd, kernel);
        return 0;
      }
      ghost var mid := mem;
      pt := TableOf(pd, va, user);
      PdsWidenTwice(old(mem), mid, mem, spaces, active);
      SameLeavesTwice(old(mem), mid, mem, spaces);
    }

    /** paging_map. On success exactly one page changed, in the active space only or, for a page of the
        kernel, in all of them; what the processor allows on it is what was asked for. On failure no
        page of any space changed and no frame is left. */
    method Map(va: nat, frame: nat, flags: Flags) returns (ok: bool)
      requires Valid() && va < WORD
      modifies this`mem, this`info, frames
      ensures Valid() && MadeTables() && PdsWiden(old(mem), mem, spaces, active)
      ensures ok ==> OnlyPage(old(mem), mem, spaces, active, kernel, PathOf(va), Make(frame, Supported(flags)))
      ensures ok ==> Effective(mem, active, PathOf(va), 1) == Make(frame, Supported(flags))
      ensures UsersUp(old(mem), spaces, kernel) ==> UsersUp(mem, spaces, kernel)
      ensures !ok ==> SameLeaves(old(mem), mem, spaces) && Exhausted() && OneMore(old(mem).Keys, mem.Keys)
      ensures active in old(mem) && active in mem && (va < 0x4000_0000 ==> mem[active] == old(mem)[active])
    {
      hide OneMore, TablesOk, Reach, Leaf, Granted, Effective, PdEntry, PdsWiden, OnlyPage, SameLeaves, UsersUp, Grows,
           PdptIndex, PdIndex, Pmm.Held, Pmm.Covers;
      var pt := Walk(va, flags.user);
      if pt == 0 {
        if UsersUp(old(mem), spaces, kernel) {
          WalkKeepsUserUp(old(mem), mem, spaces, active, kernel);
        }
        return false;
      }
      var f := Supported(flags);
      MappedPage(old(mem), mem, info, spaces, kernelPdpt, kernelPd, kernel, active, PathOf(va), pt, frame, f);
      mem := Put(mem, pt, PtIndex(va), Make(frame, f));
      ok := true;
    }

    /** entry_for: the table holding the entry of va, or 0. */
    method EntryFor(va: nat) returns (pt: nat)
      requires Valid() && va < WORD
      ensures Reach(mem, active, PathOf(va)[..2]) == if pt == 0 then Nil else To(pt)
    {
      hide TablesOk, Reach, PdEntry, Pmm.Held, Pmm.Covers;
      var a, b := PdptIndex(va), PdIndex(va);
      assert PathOf(va)[..2] == [a] + [b];
      RootEntry(mem, info, spaces, kernelPdpt, kernelPd, kernel, active, a);
      if !mem[active][a].present {
        MissingBelow(mem, active, a, b);
        return 0;
      }
      var pd := mem[active][a].frame;
      PdFacts(mem, info, spaces, kernelPdpt, kernelPd, kernel, active, a, b, pd);
      if !mem[pd][b].present {
        return 0;
      }
      pt := mem[pd][b].frame;
    }

    /** *entry = e, for the entry of va. */
    method WriteEntry(va: nat, pt: nat, e: Entry)
      requires Valid() && va < WORD && Reach(mem, active, PathOf(va)[..2]) == To(pt)
      modifies this`mem
      ensures Valid() && mem.Keys == old(mem).Keys && OnlyPage(old(mem), mem, spaces, active, kernel, PathOf(va), e)
      ensures forall r, a: nat, b: nat :: r in spaces ==> PdEntry(mem, r, a, b) == PdEntry(old(mem), r, a, b)
      ensures forall r, up: seq<nat> :: r in spaces && |up| < DEPTH ==> Reach(mem, r, up) == Reach(old(mem), r, up)
    {
      hide TablesOk, Reach, PdEntry, OnlyPage, PdsWiden, Leaf, Pmm.Held, Pmm.Covers;
      Written(mem, info, spaces, kernelPdpt, kernelPd, kernel, active, PathOf(va), pt, e);
      mem := Put(mem, pt, PtIndex(va), e);
    }

    /** paging_set_flags */
    method SetFlags(va: nat, flags: Flags)
      requires Valid() && va < WORD
      modifies this`mem
      ensures Valid() && mem.Keys == old(mem).Keys
      ensures OnlyPage(old(mem), mem, spaces, active, kernel, PathOf(va), Flagged(old(mem), active, PathOf(va), flags))
      ensures forall r, a: nat, b: nat :: r in spaces ==> PdEntry(mem, r, a, b) == PdEntry(old(mem), r, a, b)
      ensures forall r, up: seq<nat> :: r in spaces && |up| < DEPTH ==> Reach(mem, r, up) == Reach(old(mem), r, up)
    {
      hide TablesOk, Reach, PdEntry, OnlyPage, Leaf, Pmm.Held, Pmm.Covers;
      Rewritten(mem, info, spaces, kernelPdpt, kernelPd, kernel, active, PathOf(va));
      var pt := EntryFor(va);
      if pt != 0 {
        FlaggedTable(mem, info, spaces, kernelPdpt, kernelPd, kernel, active, PathOf(va), pt);
        WriteEntry(va, pt, Make(mem[pt][PtIndex(va)].frame, flags));
      }
    }

    /** paging_unmap */
    method Unmap(va: nat)
      requires Valid() && va < WORD
      modifies this`mem
      ensures Valid() && mem.Keys == old(mem).Keys
      ensures OnlyPage(old(mem), mem, spaces, active, kernel, PathOf(va), Zero)
    {
      hide TablesOk, Reach, PdEntry, OnlyPage, Leaf, Pmm.Held, Pmm.Covers;
      Rewritten(mem, info, spaces, kernelPdpt, kernelPd, kernel, active, PathOf(va));
      var pt := EntryFor(va);
      if pt != 0 {
        WriteEntry(va, pt, Zero);
      } else {
        Unreached(mem, active, PathOf(va));
      }
    }

    /** paging_switch */
    method Switch(root: nat)
      requires Valid() && (root == 0 || root in spaces)
      modifies this`active
      ensures Valid() && active == if root == 0 then kernelPdpt else root
    {
      hide Reach, TreeOk, Rooted, SharesAt, PdRights, Pmm.Held, Pmm.Covers;
      active := if root == 0 then kernelPdpt else root;
    }

    /** The first part of paging_create_address_space: two frames or none. */
    method TakeTwo() returns (root: nat, pd: nat)
      requires frames.Guarded()
      modifies frames
      ensures frames.Guarded() && frames.total == old(frames.total)
      ensures root == 0 <==> !HasFree(frames.total, old(frames.Used()), 2)
      ensures root == 0 ==> frames.Used() == old(frames.Used())
      ensures root != 0 ==>
        && pd != 0 && root != pd && root !in old(frames.Used()) && pd !in old(frames.Used())
        && frames.Used() == old(frames.Used()) + {root} + {pd}
    {
      hide HasFree, Pmm.Held, Pmm.Covers;
      ghost var used := frames.Used();
      frames.HeldBelow();
      root := frames.TakeFrame();
      pd := 0;
      if root == 0 {
        OneFree(frames.total, used, 0);
        return;
      }
      pd := frames.TakeFrame();
      if pd == 0 {
        OneFree(frames.total, used, root);
        frames.ReturnFrame(root);
        return 0, 0;
      }
      TwoFree(frames.total, used, root, pd);
    }

    /** The loop of paging_create_address_space: a directory with the kernel's entries and no others. */
    method KernelPart() returns (table: Table)
      requires kernelPd in mem && kernel <= |mem[kernelPd]| == ENTRIES
      ensures table == CopyDirectory(mem[kernelPd], kernel)
    {
      table := ZeroTable();
      for i := 0 to kernel
        invariant |table| == ENTRIES
        invariant forall j :: 0 <= j < ENTRIES ==> table[j] == if j < i then mem[kernelPd][j] else Zero
      {
        table := table[i := mem[kernelPd][i]];
      }
      assert table == CopyDirectory(mem[kernelPd], kernel);
    }

    /** paging_create_address_space. 0 when there are not two frames left, and then nothing changed. */
    method CreateSpace() returns (root: nat)
      requires Valid()
      modifies this`mem, this`info, this`spaces, frames
      ensures Valid() && frames.total == old(frames.total)
      ensures root == 0 ==>
        mem == old(mem) && info == old(info) && spaces == old(spaces) && frames.Used() == old(frames.Used())
      ensures root != 0 ==>
        root !in old(spaces) && spaces == old(spaces) + {root} && SameLeaves(old(mem), mem, old(spaces))
      ensures root != 0 ==> forall page: seq<nat> :: |page| == DEPTH ==>
        Leaf(mem, root, page) == if KernelPath(page, kernel) then Leaf(mem, kernelPdpt, page) else Zero
      ensures root != 0 ==>
        Owned(info, root) == mem.Keys - old(mem).Keys && frames.Used() == old(frames.Used()) + Owned(info, root)
      ensures root != 0 ==>
        && old(mem).Keys <= mem.Keys && Owned(info, root) !! old(frames.Used()) && root in mem && |mem[root]| == ENTRIES
        && Low(mem, root)
      ensures UsersUp(old(mem), old(spaces), kernel) ==> UsersUp(mem, spaces, kernel)
      ensures root != 0 ==> Grows(old(info), info, root)
      ensures root != 0 ==> TwoMore(old(mem).Keys, mem.Keys)
      ensures root == 0 <==> !HasFree(frames.total, old(frames.Used()), 2)
    {
      hide HasFree, TwoMore, TablesOk, Reach, SameLeaves, Leaf, Owned, UsersUp, Low, Grows, Pmm.Held, Pmm.Covers,
           CreatedInfo, CopyDirectory, ZeroTable, KernelPath, PdptEntry;
      var pd;
      root, pd := TakeTwo();
      if root == 0 {
        return;
      }
      SpaceMade(mem, info, spaces, kernelPdpt, kernelPd, kernel, root, pd);
      info, spaces := CreatedInfo(info, root, pd), spaces + {root};
      var table := KernelPart();
      mem := mem[root := ZeroTable()[0 := PdptEntry(pd)]][pd := table];
      assert mem == CreatedMem(old(mem), kernelPd, kernel, root, pd);
      MoreByTwo(old(mem).Keys, mem.Keys, root, pd);
    }

    /** paging_destroy_address_space. Every table of the space is returned, each once, if and only if the
        space maps nothing above the first gigabyte; no other space notices. */
    method DestroySpace(root: nat)
      requires Valid() && (root == 0 || root == kernelPdpt || (root in spaces && root != active))
      modifies this`mem, this`info, this`spaces, frames
      ensures Valid() && frames.total == old(frames.total)
      ensures root == 0 || root == kernelPdpt ==>
        mem == old(mem) && info == old(info) && spaces == old(spaces) && frames.Used() == old(frames.Used())
      ensures root != 0 && root != kernelPdpt ==>
        && spaces == old(spaces) - {root} && SameLeaves(old(mem), mem, spaces) && root in old(mem)
        && |old(mem)[root]| == ENTRIES
        && mem.Keys <= old(mem).Keys && old(mem).Keys - mem.Keys <= Owned(old(info), root)
        && frames.Used() == old(frames.Used()) - (old(mem).Keys - mem.Keys)
        && (old(mem).Keys - mem.Keys == Owned(old(info), root) <==> Low(old(mem), root))
      ensures SameOwners(old(info), info, root)
      ensures UsersUp(old(mem), old(spaces), kernel) ==> UsersUp(mem, spaces, kernel)
    {
      hide TablesOk, Reach, SameLeaves, Leaf, Low, Freed, UsersUp, Pmm.Held, Pmm.Covers, DestroyedInfo;
      if root == 0 || root == kernelPdpt {
        return;
      }
      RootEntry(mem, info, spaces, kernelPdpt, kernelPd, kernel, root, 0);
      var pd := mem[root][0].frame;
      SpaceGone(mem, info, spaces, kernelPdpt, kernelPd, kernel, root, pd);
      if mem[root][0].present {
        ReturnTables(root, pd);
        frames.ReturnFrame(pd);
      }
      frames.ReturnFrame(root);
      var freed := Freed(mem, root, pd, kernel);
      info, spaces := DestroyedInfo(info, freed, root), spaces - {root};
      mem := mem - freed;
    }

    /** The loop of paging_destroy_address_space. */
    method ReturnTables(root: nat, pd: nat)
      requires Valid() && root in spaces && Reach(mem, root, [0]) == To(pd) && pd in mem && |mem[pd]| == ENTRIES
      requires kernel <= ENTRIES
      modifies frames
      ensures frames.Guarded() && frames.total == old(frames.total)
      ensures frames.Used() == old(frames.Used()) - Held(mem, pd, kernel, ENTRIES)
    {
      hide TablesOk, Reach, Pmm.Held, Pmm.Covers, Held;
      HeldNone(mem, pd, kernel);
      for i := kernel to ENTRIES
        invariant frames.Guarded() && frames.total == old(frames.total)
        invariant frames.Used() == old(frames.Used()) - Held(mem, pd, kernel, i)
      {
        HeldStep(mem, info, spaces, kernelPdpt, kernelPd, kernel, root, pd, i);
        if mem[pd][i].present {
          frames.ReturnFrame(mem[pd][i].frame);
        }
      }
    }

    /** The body of paging_make_user's loop for one page. */
    method MakeUserPage(va: nat, flags: Flags)
      requires Valid() && va < WORD
      modifies this`mem
      ensures Valid() && mem.Keys == old(mem).Keys
      ensures OnlyPage(old(mem), mem, spaces, active, kernel, PathOf(va), Flagged(old(mem), active, PathOf(va), flags))
      ensures forall r, up: seq<nat> :: r in spaces && |up| < DEPTH ==> Reach(mem, r, up) == Reach(old(mem), r, up)
      ensures UsersUp(old(mem), spaces, kernel) ==> UsersUp(mem, spaces, kernel)
    {
      hide TablesOk, Reach, OnlyPage, SameLeaves, PdsWiden, PdEntry, UsersUp, Leaf, PathOf, Pmm.Held, Pmm.Covers;
      var a, b := PdptIndex(va), PdIndex(va);
      RootEntry(mem, info, spaces, kernelPdpt, kernelPd, kernel, active, a);
      NoChange(mem, info, spaces, active);
      if mem[active][a].present {
        var pd := mem[active][a].frame;
        Relaxed(mem, info, spaces, kernelPdpt, kernelPd, kernel, active, a, b, pd);
        mem := Put(mem, pd, b, mem[pd][b].(user := true));
      }
      ghost var mid := mem;
      FlaggedSame(old(mem), mid, spaces, active, PathOf(va), flags);
      SetFlags(va, flags);
      OnlyPageAfter(old(mem), mid, mem, spaces, active, kernel, PathOf(va), Flagged(mid, active, PathOf(va), flags));
      if UsersUp(old(mem), spaces, kernel) {
        PdsWidenSame(old(mem), mid, mem, spaces, active);
        FlaggedUnderPd(old(mem), mid, active, va, flags);
        MapKeepsUserUp(old(mem), mem, spaces, active, kernel, PathOf(va), Flagged(mid, active, PathOf(va), flags));
      }
    }

    /** paging_make_user, for every range on which its loop comes to an end. */
    method MakeUser(start: nat, end: nat, writable: bool)
      requires Valid() && end < WORD && Returns(start, end)
      modifies this`mem
      ensures Valid() && mem.Keys == old(mem).Keys
      ensures FlaggedIn(old(mem), mem, spaces, active, kernel, start / PAGE_SIZE * PAGE_SIZE, end,
        Flags(true, writable, true, writable && nx))
      ensures UsersUp(old(mem), spaces, kernel) ==> UsersUp(mem, spaces, kernel)
    {
      hide Returns, UsersUp, TablesOk, Reach, OnlyPage, Leaf, PathOf, FlaggedIn, Visited, Pmm.Held, Pmm.Covers;
      var flags := Supported(UserFlags(writable));
      var first := start / PAGE_SIZE * PAGE_SIZE;
      var addr := first;
      ghost var k := 0;
      FlaggedStart(mem, spaces, active, kernel, first, if first < end then first else end, flags);
      while addr < end
        invariant addr == PageAddr(first, k) && Valid() && mem.Keys == old(mem).Keys
        invariant UsersUp(old(mem), spaces, kernel) ==> UsersUp(mem, spaces, kernel)
        invariant FlaggedIn(old(mem), mem, spaces, active, kernel, first, if addr < end then addr else end, flags)
      {
        ghost var before := mem;
        MakeUserPage(addr, flags);
        FlaggedStep(old(mem), before, mem, spaces, active, kernel, first, k, end, flags);
        NextPage(start, end, k);
        addr := (addr + PAGE_SIZE) % WORD;
        k := k + 1;
      }
    }

    /** paging_init, up to switching the tables on. It returns false where the kernel would halt. */
    method Init(hasNx: bool, textStart: nat, roEnd: nat) returns (ok: bool)
      requires frames.Guarded() && mem == map[] && roEnd + PAGE_SIZE <= WORD
      requires kernelPdpt in frames.Used() && kernelPd in frames.Used() && kernelPdpt != kernelPd && kernelPdpt != 0
      requires kernelPd != 0
      modifies this, frames
      ensures ok ==>
        Valid() && spaces == {kernelPdpt} && active == kernelPdpt && nx == hasNx && kernel == Needed(frames.total)
      ensures ok ==> mappedLimit == kernel * 0x20_0000 && UsersUp(mem, spaces, kernel)
      ensures ok ==> IdentityMapped(mem, kernelPdpt, kernel, textStart / PAGE_SIZE, (roEnd + PAGE_SIZE - 1) / PAGE_SIZE)
      ensures ok ==> frames.Used() == old(frames.Used()) + mem.Keys
      ensures frames.Guarded() && frames.total == old(frames.total)
    {
      hide TablesOk, Reach, OnlyPage, Leaf, PathOf, IdentityMapped, UsersUp, Building, Needed, Pmm.Held, Pmm.Covers;
      nx := hasNx;
      active := kernelPdpt;
      ok := BuildTables();
      if !ok {
        return;
      }
      var k, last := textStart / PAGE_SIZE, (roEnd + PAGE_SIZE - 1) / PAGE_SIZE;
      ghost var first := k;
      while k < last
        invariant first <= k && Valid() && spaces == {kernelPdpt} && active == kernelPdpt && nx == hasNx
        invariant kernel == Needed(frames.total)
        invariant mappedLimit == kernel * 0x20_0000 && frames.Used() == old(frames.Used()) + mem.Keys
        invariant frames.total == old(frames.total)
        invariant IdentityMapped(mem, kernelPdpt, kernel, first, k)
        invariant (k <= last || k == first) && LeavesShared(info)
      {
        ghost var before := mem;
        var pt := EntryFor(k * PAGE_SIZE);
        if pt != 0 {
          FlaggedTable(mem, info, spaces, kernelPdpt, kernelPd, kernel, active, PathOf(k * PAGE_SIZE), pt);
          PtIndexIs(k * PAGE_SIZE);
          WriteEntry(k * PAGE_SIZE, pt, Make(mem[pt][PtIndex(k * PAGE_SIZE)].frame, Flags(true, false, false, false)));
        }
        ReadOnlyStep(before, mem, info, spaces, kernelPdpt, kernelPd, kernel, first, k, pt);
        k := k + 1;
      }
      IdentityEnd(mem, kernelPdpt, kernel, first, k, last);
      NoUsers(mem, kernelPdpt, kernel, first, last);
    }

    /** The part of paging_init that builds the kernel's tables. */
    method BuildTables() returns (ok: bool)
      requires frames.Guarded() && mem == map[] && active == kernelPdpt
      requires kernelPdpt in frames.Used() && kernelPd in frames.Used() && kernelPdpt != kernelPd && kernelPdpt != 0
      requires kernelPd != 0
      modifies this`mem, this`info, this`spaces, this`kernel, this`mappedLimit, frames
      ensures ok ==>
        Valid() && spaces == {kernelPdpt} && kernel == Needed(frames.total) && mappedLimit == kernel * 0x20_0000
      ensures ok ==> LeavesShared(info) && forall first: nat :: IdentityMapped(mem, kernelPdpt, kernel, first, first)
      ensures ok ==> frames.Used() == old(frames.Used()) + mem.Keys
      ensures frames.Guarded() && frames.total == old(frames.total)
    {
      hide TablesOk, Reach, Leaf, Building, IdentityMapped, Needed, Pmm.Held, Pmm.Covers;
      mem := map[kernelPdpt := ZeroTable(), kernelPd := ZeroTable()];
      var needed := Needed(frames.total);
      ghost var tables := [];
      BuildStart(kernelPdpt, kernelPd);
      for i := 0 to needed
        invariant frames.Guarded() && frames.total == old(frames.total) && |tables| == i && needed <= ENTRIES
        invariant mem.Keys <= frames.Used() && frames.Used() == old(frames.Used()) + mem.Keys
        invariant Building(mem, kernelPdpt, kernelPd, tables)
      {
        var pt := frames.TakeFrame();
        if pt == 0 {
          return false;
        }
        BuildStep(mem, kernelPdpt, kernelPd, tables, pt);
        var table := FillTable(i);
        mem := mem[pt := table];
        mem := mem[kernelPd := mem[kernelPd][i := Entry(pt, true, true, false, false)]];
        tables := tables + [pt];
      }
      Built(mem, kernelPdpt, kernelPd, tables);
      mem := mem[kernelPdpt := mem[kernelPdpt][0 := PdptEntry(kernelPd)]];
      mappedLimit := needed * 0x20_0000;
      kernel := needed;
      info, spaces := BuiltInfo(kernelPdpt, kernelPd, tables), {kernelPdpt};
      ok := true;
    }
  }

  // ---- the kernel's tables ----------------------------------------------------------------------------------

  /** How many directory entries cover all of memory, in 32-bit arithmetic. */
  /** paging_init maps all of RAM if and only if there is at most a gigabyte of it, which is what one directory
      covers; within two megabytes of the top of the address space the rounding wraps, and it maps nothing. */
  lemma MapsAllOfRam(total: nat)
    requires total * PAGE_SIZE < WORD
    ensures total * PAGE_SIZE <= Needed(total) * 0x20_0000 <==> total * PAGE_SIZE <= 0x4000_0000
    ensures total * PAGE_SIZE <= 0x4000_0000 ==> Needed(total) * 0x20_0000 < total * PAGE_SIZE + 0x20_0000
    ensures 0x4000_0000 < total * PAGE_SIZE <= WORD - 0x20_0000 ==> Needed(total) * 0x20_0000 == 0x4000_0000
    ensures total * PAGE_SIZE > WORD - 0x20_0000 ==> Needed(total) == 0
  {
    var top := total * PAGE_SIZE;
    var sum := top + 0x20_0000 - 1;
    assert sum % WORD == if sum < WORD then sum else sum - WORD;
  }

  function Needed(total: nat): (n: nat)
    ensures n <= ENTRIES
  {
    var n := (total * PAGE_SIZE + 0x20_0000 - 1) % WORD / 0x20_0000;
    if n > ENTRIES then ENTRIES else n
  }

  function IdentityTable(i: nat): (t: Table)
    ensures |t| == ENTRIES && forall j :: 0 <= j < ENTRIES ==> t[j] == Entry(i * 512 + j, true, true, false, false)
  {
    seq(ENTRIES, j requires 0 <= j < ENTRIES => Entry(i * 512 + j, true, true, false, false))
  }

  method FillTable(i: nat) returns (t: Table)
    ensures t == IdentityTable(i)
  {
    t := ZeroTable();
    for j := 0 to ENTRIES
      invariant |t| == ENTRIES && forall l :: 0 <= l < j ==> t[l] == Entry(i * 512 + l, true, true, false, false)
    {
      var physical := i * 0x20_0000 + j * PAGE_SIZE;
      t := t[j := Entry(physical / PAGE_SIZE, true, true, false, false)];
    }
  }

  /** The kernel's tables while paging_init builds them. */
  ghost predicate Building(mem: Memory, pdpt: nat, pd: nat, tables: seq<nat>) {
    && pdpt != pd && pdpt != 0 && pd != 0 && |tables| <= ENTRIES
    && (forall i :: 0 <= i < |tables| ==> tables[i] != 0 && tables[i] != pdpt && tables[i] != pd)
    && (forall i, j :: 0 <= i < j < |tables| ==> tables[i] != tables[j])
    && (forall t :: t in mem <==> t == pdpt || t == pd || t in tables)
    && mem[pdpt] == ZeroTable() && |mem[pd]| == ENTRIES
    && (forall i :: 0 <= i < ENTRIES ==>
         mem[pd][i] == if i < |tables| then Entry(tables[i], true, true, false, false) else Zero)
    && (forall i :: 0 <= i < |tables| ==> mem[tables[i]] == IdentityTable(i))
  }

  lemma BuildStart(pdpt: nat, pd: nat)
    requires pdpt != pd && pdpt != 0 && pd != 0
    ensures Building(map[pdpt := ZeroTable(), pd := ZeroTable()], pdpt, pd, [])
  {
  }

  lemma BuildStep(mem: Memory, pdpt: nat, pd: nat, tables: seq<nat>, pt: nat)
    requires Building(mem, pdpt, pd, tables) && |tables| < ENTRIES && pt !in mem && pt != 0
    ensures pdpt in mem && pd in mem && |mem[pd]| == ENTRIES && pt != pd
    ensures Building(mem[pt := IdentityTable(|tables|)][pd := mem[pd][|tables| := Entry(pt, true, true, false, false)]],
      pdpt, pd, tables + [pt])
  {
  }

  ghost function BuiltInfo(pdpt: nat, pd: nat, tables: seq<nat>): map<nat, Info> {
    map t | t in [pdpt, pd] + tables ::
      if t == pdpt then Info(Space(pdpt), []) else if t == pd then Info(Space(pdpt), [0])
        else Info(Shared, [0, Position(tables, t)])
  }

  ghost function Position(s: seq<nat>, t: nat): (i: nat)
    requires t in s
    ensures i < |s| && s[i] == t
  {
    var i :| 0 <= i < |s| && s[i] == t; i
  }

  /** All lowest-level tables are the kernel's. */
  ghost predicate LeavesShared(info: map<nat, Info>) {
    forall t :: t in info && |info[t].path| == 2 ==> info[t].owner == Shared
  }

  lemma BuiltInfoAt(pdpt: nat, pd: nat, tables: seq<nat>, i: nat)
    requires i < |tables| && tables[i] != pdpt && tables[i] != pd
    requires forall i, j :: 0 <= i < j < |tables| ==> tables[i] != tables[j]
    ensures tables[i] in BuiltInfo(pdpt, pd, tables) && BuiltInfo(pdpt, pd, tables)[tables[i]] == Info(Shared, [0, i])
  {
    assert tables[i] in tables;
    var j := Position(tables, tables[i]);
    assert j == i;
  }

  lemma BuiltTree(mem: Memory, pdpt: nat, pd: nat, tables: seq<nat>, mem': Memory)
    requires Building(mem, pdpt, pd, tables) && mem' == mem[pdpt := ZeroTable()[0 := PdptEntry(pd)]]
    ensures TreeOk(mem', BuiltInfo(pdpt, pd, tables), DEPTH)
  {
    hide IdentityTable, TableOk, BuiltInfo;
    var info := BuiltInfo(pdpt, pd, tables);
    BuiltKeys(mem, pdpt, pd, tables, mem');
    forall t | t in mem'
      ensures TableOk(mem', info, DEPTH, t)
    {
      if t == pd {
        BuiltDirectory(mem, pdpt, pd, tables, mem');
      } else {
        BuiltOther(mem, pdpt, pd, tables, mem', t);
      }
    }
  }

  lemma BuiltKeys(mem: Memory, pdpt: nat, pd: nat, tables: seq<nat>, mem': Memory)
    requires Building(mem, pdpt, pd, tables) && mem' == mem[pdpt := ZeroTable()[0 := PdptEntry(pd)]]
    ensures mem'.Keys == BuiltInfo(pdpt, pd, tables).Keys && 0 !in mem'
  {
    hide IdentityTable;
  }

  lemma BuiltDirectory(mem: Memory, pdpt: nat, pd: nat, tables: seq<nat>, mem': Memory)
    requires Building(mem, pdpt, pd, tables) && mem' == mem[pdpt := ZeroTable()[0 := PdptEntry(pd)]]
    requires pd in BuiltInfo(pdpt, pd, tables)
    ensures TableOk(mem', BuiltInfo(pdpt, pd, tables), DEPTH, pd)
  {
    hide IdentityTable, BuiltInfo;
    var info := BuiltInfo(pdpt, pd, tables);
    BuiltOwners(pdpt, pd, tables);
    forall i | 0 <= i < ENTRIES
      ensures EntryOk(mem', info, DEPTH, pd, i)
    {
      if i < |tables| {
        BuiltInfoAt(pdpt, pd, tables, i);
        assert tables[i] in tables;
      }
    }
  }

  lemma BuiltOther(mem: Memory, pdpt: nat, pd: nat, tables: seq<nat>, mem': Memory, t: nat)
    requires Building(mem, pdpt, pd, tables) && mem' == mem[pdpt := ZeroTable()[0 := PdptEntry(pd)]] && t in mem'
    requires t in BuiltInfo(pdpt, pd, tables) && t != pd
    ensures TableOk(mem', BuiltInfo(pdpt, pd, tables), DEPTH, t)
  {
    hide BuiltInfo;
    BuiltOwners(pdpt, pd, tables);
    if t != pdpt {
      var i := Position(tables, t);
      BuiltInfoAt(pdpt, pd, tables, i);
    }
  }

  lemma BuiltReach(mem: Memory, pdpt: nat, pd: nat, tables: seq<nat>, mem': Memory, path: seq<nat>)
    requires Building(mem, pdpt, pd, tables) && mem' == mem[pdpt := ZeroTable()[0 := PdptEntry(pd)]] && |path| < DEPTH
    ensures Reach(mem', pdpt, path)
         == if path == [] then To(pdpt) else if path == [0] then To(pd)
            else if |path| == 2 && KernelPath(path, |tables|) then To(tables[path[1]]) else Nil
  {
    if |path| == 1 {
      assert path[..0] == [];
      assert path[0] == 0 ==> path == [0];
    } else if |path| == 2 {
      assert path[..1] == [path[0]];
      BuiltReach(mem, pdpt, pd, tables, mem', path[..1]);
      if path[0] == 0 && path[1] < ENTRIES {
        assert path[1] < |tables| ==> tables[path[1]] in tables;
        assert Child(mem', pd, path[1]) == if path[1] < |tables| then To(tables[path[1]]) else Nil;
      }
    }
  }

  lemma Built(mem: Memory, pdpt: nat, pd: nat, tables: seq<nat>)
    requires Building(mem, pdpt, pd, tables)
    ensures pdpt in mem && mem[pdpt] == ZeroTable() && LeavesShared(BuiltInfo(pdpt, pd, tables))
    ensures var mem' := mem[pdpt := ZeroTable()[0 := PdptEntry(pd)]];
            && TablesOk(mem', BuiltInfo(pdpt, pd, tables), {pdpt}, pdpt, pd, |tables|) && mem'.Keys == mem.Keys
            && forall first: nat :: IdentityMapped(mem', pdpt, |tables|, first, first)
  {
    hide TreeOk, Reach;
    var mem' := mem[pdpt := ZeroTable()[0 := PdptEntry(pd)]];
    BuiltTree(mem, pdpt, pd, tables, mem');
    forall path: seq<nat> | |path| < DEPTH
      ensures Reach(mem', pdpt, path) == if path == [] then To(pdpt) else if path == [0] then To(pd)
        else if |path| == 2 && KernelPath(path, |tables|) then To(tables[path[1]]) else Nil
    {
      BuiltReach(mem, pdpt, pd, tables, mem', path);
    }
    BuiltSpaces(mem, pdpt, pd, tables, mem');
    forall first: nat
      ensures IdentityMapped(mem', pdpt, |tables|, first, first)
    {
      BuiltIdentity(mem, pdpt, pd, tables, mem', first);
    }
  }

  lemma BuiltIdentity(mem: Memory, pdpt: nat, pd: nat, tables: seq<nat>, mem': Memory, first: nat)
    requires Building(mem, pdpt, pd, tables) && mem' == mem[pdpt := ZeroTable()[0 := PdptEntry(pd)]]
    ensures IdentityMapped(mem', pdpt, |tables|, first, first)
  {
    hide Reach;
    forall page: seq<nat> | |page| == DEPTH
      ensures Leaf(mem', pdpt, page) ==
        if KernelPath(page, |tables|) && page[2] < ENTRIES then
          Entry(page[1] * 512 + page[2], true, true, false, false)
        else Zero
    {
      BuiltReach(mem, pdpt, pd, tables, mem', page[..2]);
    }
  }

  lemma BuiltSpaces(mem: Memory, pdpt: nat, pd: nat, tables: seq<nat>, mem': Memory)
    requires Building(mem, pdpt, pd, tables) && mem' == mem[pdpt := ZeroTable()[0 := PdptEntry(pd)]]
    requires TreeOk(mem', BuiltInfo(pdpt, pd, tables), DEPTH)
    requires forall path: seq<nat> :: |path| < DEPTH ==>
      Reach(mem', pdpt, path) == if path == [] then To(pdpt) else if path == [0] then To(pd)
        else if |path| == 2 && KernelPath(path, |tables|) then To(tables[path[1]]) else Nil
    ensures TablesOk(mem', BuiltInfo(pdpt, pd, tables), {pdpt}, pdpt, pd, |tables|)
    ensures LeavesShared(BuiltInfo(pdpt, pd, tables))
  {
    hide TreeOk, Reach, BuiltInfo, PdRights;
    var info := BuiltInfo(pdpt, pd, tables);
    BuiltOwners(pdpt, pd, tables);
    BuiltRights(mem, pdpt, pd, tables, mem');
    forall i | 0 <= i < |tables|
      ensures SharesAt(mem', info, pdpt, pdpt, i)
    {
      BuiltInfoAt(pdpt, pd, tables, i);
    }
  }

  lemma BuiltOwners(pdpt: nat, pd: nat, tables: seq<nat>)
    requires pdpt != pd
    ensures var info := BuiltInfo(pdpt, pd, tables);
            && pdpt in info && info[pdpt] == Info(Space(pdpt), []) && pd in info && info[pd] == Info(Space(pdpt), [0])
            && forall t :: t in info && t != pdpt && t != pd ==>
                 info[t].owner == Shared && |info[t].path| == 2 && KernelPath(info[t].path, |tables|)
  {
    assert pdpt in [pdpt, pd] + tables && pd in [pdpt, pd] + tables;
  }

  lemma BuiltRights(mem: Memory, pdpt: nat, pd: nat, tables: seq<nat>, mem': Memory)
    requires Building(mem, pdpt, pd, tables) && mem' == mem[pdpt := ZeroTable()[0 := PdptEntry(pd)]]
    ensures PdRights(mem', BuiltInfo(pdpt, pd, tables))
  {
    hide BuiltInfo;
    BuiltOwners(pdpt, pd, tables);
    var info := BuiltInfo(pdpt, pd, tables);
    forall t: nat, i: int | t in mem' && t in info && |info[t].path| == 1 && 0 <= i < |mem'[t]| && mem'[t][i].present
      ensures mem'[t][i].write && !mem'[t][i].nx
    {
      assert t == pd;
    }
  }

  // ---- the read-only pages of the kernel

  lemma PtIndexIs(va: nat)
    requires va < WORD
    ensures PathOf(va)[2] == PtIndex(va)
  {
  }

  lemma PathOfPage(n: nat, page: seq<nat>)
    requires n * PAGE_SIZE < WORD && |page| == DEPTH && page[0] == 0 && page[1] < ENTRIES && page[2] < ENTRIES
    ensures page == PathOf(n * PAGE_SIZE) <==> page[1] * 512 + page[2] == n
  {
    hide PdptIndex, PdIndex, PtIndex;
    PageDigits(n * PAGE_SIZE);
    var path := PathOf(n * PAGE_SIZE);
    assert path[0] == PdptIndex(n * PAGE_SIZE) && path[1] == PdIndex(n * PAGE_SIZE)
        && path[2] == PtIndex(n * PAGE_SIZE);
    assert n == (path[0] * 512 + path[1]) * 512 + path[2];
    if page[1] * 512 + page[2] == n {
      assert page == path;
    }
  }

  lemma ReadOnlyStep(mem: Memory, mem': Memory, info: map<nat, Info>, spaces: set<nat>, kernelPdpt: nat, kernelPd: nat,
      kernel: nat, first: nat, k: nat, pt: nat)
    requires TablesOk(mem, info, spaces, kernelPdpt, kernelPd, kernel) && LeavesShared(info) && k * PAGE_SIZE < WORD
    requires first <= k
    requires IdentityMapped(mem, kernelPdpt, kernel, first, k)
    requires Reach(mem, kernelPdpt, PathOf(k * PAGE_SIZE)[..2]) == if pt == 0 then Nil else To(pt)
    requires pt == 0 ==> mem' == mem
    requires pt != 0 ==>
      OnlyPage(mem, mem', spaces, kernelPdpt, kernel, PathOf(k * PAGE_SIZE),
        Make(Leaf(mem, kernelPdpt, PathOf(k * PAGE_SIZE)).frame, Flags(true, false, false, false)))
    ensures IdentityMapped(mem', kernelPdpt, kernel, first, k + 1)
  {
    hide TreeOk, Rooted, SharesAt, Reach, Leaf, PathOf, PdRights;
    var path := PathOf(k * PAGE_SIZE);
    ReachInfo(mem, info, DEPTH, kernelPdpt, path[..2]);
    if pt == 0 {
      Unreached(mem, kernelPdpt, path);
    }
    forall page: seq<nat> | |page| == DEPTH
      ensures Leaf(mem', kernelPdpt, page)
           == if KernelPath(page, kernel) && page[2] < ENTRIES then
                var n := page[1] * 512 + page[2]; Entry(n, true, !(first <= n < k + 1), false, false)
              else Zero
    {
      if KernelPath(page, kernel) && page[2] < ENTRIES {
        PathOfPage(k, page);
      }
    }
  }

  lemma NoUsers(mem: Memory, root: nat, kernel: nat, first: nat, last: nat)
    requires IdentityMapped(mem, root, kernel, first, last)
    ensures UsersUp(mem, {root}, kernel)
  {
    hide Leaf, PdEntry;
  }

  lemma IdentityEnd(mem: Memory, root: nat, kernel: nat, first: nat, k: nat, last: nat)
    requires IdentityMapped(mem, root, kernel, first, k) && last <= k && (k == last || k == first)
    ensures IdentityMapped(mem, root, kernel, first, last)
  {
    hide Leaf;
  }

  ghost predicate IdentityMapped(mem: Memory, root: nat, kernel: nat, first: nat, last: nat) {
    forall page: seq<nat> :: |page| == DEPTH ==>
      Leaf(mem, root, page) ==
        if KernelPath(page, kernel) && page[2] < ENTRIES then
          var n := page[1] * 512 + page[2]; Entry(n, true, !(first <= n < last), false, false)
        else Zero
  }

  /** The tables held by entries first, .., last - 1 of a directory. */
  ghost function Held(mem: Memory, pd: nat, first: nat, last: nat): set<nat>
    requires pd in mem && |mem[pd]| == ENTRIES && last <= ENTRIES
  {
    set i | first <= i < last && mem[pd][i].present :: mem[pd][i].frame
  }

  /** The entry of a page after its flags were set: nothing happens when its table does not exist. */
  ghost function Flagged(mem: Memory, root: nat, page: seq<nat>, flags: Flags): Entry
    requires |page| == DEPTH
  {
    if Reach(mem, root, page[..2]).To? then Make(Leaf(mem, root, page).frame, flags) else Leaf(mem, root, page)
  }

  // ---- steps of the methods ---------------------------------------------------------------------------------

  /** The last write of paging_map, after a walk from `mem` to `mid`. */
  lemma MappedPage(mem: Memory, mid: Memory, info: map<nat, Info>, spaces: set<nat>, kernelPdpt: nat, kernelPd: nat,
      kernel: nat, root: nat, path: seq<nat>, pt: nat, frame: nat, f: Flags)
    requires TablesOk(mid, info, spaces, kernelPdpt, kernelPd, kernel) && root in spaces && |path| == DEPTH
    requires path[2] < ENTRIES
    requires Reach(mid, root, path[..2]) == To(pt) && LetsThrough(PdEntry(mid, root, path[0], path[1]), f.user)
    requires SameLeaves(mem, mid, spaces) && PdsWiden(mem, mid, spaces, root)
    ensures pt in mid && |mid[pt]| == ENTRIES && pt != root
    ensures var mem' := Put(mid, pt, path[2], Make(frame, f));
            && TablesOk(mem', info, spaces, kernelPdpt, kernelPd, kernel) && PdsWiden(mem, mem', spaces, root)
            && OnlyPage(mem, mem', spaces, root, kernel, path, Make(frame, f))
            && Effective(mem', root, path, 1) == Make(frame, f)
            && (UsersUp(mem, spaces, kernel) ==> UsersUp(mem', spaces, kernel))
            && mem'.Keys == mid.Keys
  {
    hide TablesOk, Reach, Leaf, Granted, Effective, PdEntry, PdsWiden, OnlyPage, SameLeaves, UsersUp;
    var e := Make(frame, f);
    Written(mid, info, spaces, kernelPdpt, kernelPd, kernel, root, path, pt, e);
    NotActive(mid, info, spaces, kernelPdpt, kernelPd, kernel, root, path[..2], pt);
    var mem' := Put(mid, pt, path[2], e);
    PdsWidenTwice(mem, mid, mem', spaces, root);
    OnlyPageAfter(mem, mid, mem', spaces, root, kernel, path, e);
    LeafIs(mid, mem', spaces, root, kernel, path, e);
    EffectiveIs(mem', root, path, frame, f);
    if UsersUp(mem, spaces, kernel) {
      MapKeepsUserUp(mem, mem', spaces, root, kernel, path, e);
    }
  }

  // ---- flags over a range

  function UserFlags(writable: bool): Flags { Flags(true, writable, true, writable) }

  ghost function PageAddr(first: nat, k: nat): nat { first + k * PAGE_SIZE }

  /** The pages visited are those that start below the end and not before the first. */
  lemma VisitedIs(va: nat, first: nat, end: nat)
    requires va < WORD && first % PAGE_SIZE == 0 && end <= WORD
    ensures Visited(PathOf(va), first, end) <==> first <= va / PAGE_SIZE * PAGE_SIZE < end
  {
    hide PathOf;
    var page := va / PAGE_SIZE * PAGE_SIZE;
    PathOfUnique(va, page);
    if first <= page < end {
      var k := (page - first) / PAGE_SIZE;
      assert PageAddr(first, k) == page;
    }
    if Visited(PathOf(va), first, end) {
      var k: nat :| PageAddr(first, k) < end && PathOf(va) == PathOf(PageAddr(first, k));
      PathOfUnique(va, PageAddr(first, k));
    }
  }

  /** What a caller of paging_make_user can check: no page, or the last page of the address space not among them. */
  predicate Returns(start: nat, end: nat) {
    start / PAGE_SIZE * PAGE_SIZE >= end || end + PAGE_SIZE <= WORD
  }

  lemma NextPage(start: nat, end: nat, k: nat)
    requires Returns(start, end) && PageAddr(start / PAGE_SIZE * PAGE_SIZE, k) < end
    ensures PageAddr(start / PAGE_SIZE * PAGE_SIZE, k + 1)
         == (PageAddr(start / PAGE_SIZE * PAGE_SIZE, k) + PAGE_SIZE) % WORD
  {
  }

  /** The 32-bit loop counter gets past the end if and only if the range does not hold the last page. */
  lemma MakeUserReturns(start: nat, end: nat)
    requires start < WORD && end < WORD
    ensures Returns(start, end) <==> exists k: nat :: PageAddr(start / PAGE_SIZE * PAGE_SIZE, k) % WORD >= end
  {
    var first := start / PAGE_SIZE * PAGE_SIZE;
    if Returns(start, end) {
      var k := if first >= end then 0 else (end - first + PAGE_SIZE - 1) / PAGE_SIZE;
      assert PageAddr(first, k) % WORD >= end;
    } else {
      forall k: nat ensures PageAddr(first, k) % WORD < end {
        assert PageAddr(first, k) == (start / PAGE_SIZE + k) * PAGE_SIZE;
      }
    }
  }

  /** One of the pages at first, first + 4096, .. below end. */
  ghost predicate Visited(page: seq<nat>, first: nat, end: nat)
    requires end <= WORD
  {
    exists k: nat :: PageAddr(first, k) < end && page == PathOf(PageAddr(first, k))
  }

  /** Exactly the pages of the range that have a table got the flags: in one space, or for the kernel's
      pages in all. */
  ghost predicate FlaggedIn(mem: Memory, mem': Memory, spaces: set<nat>, root: nat, kernel: nat, first: nat, end: nat,
      flags: Flags)
    requires end <= WORD
  {
    && (forall r, up: seq<nat> :: r in spaces && |up| < DEPTH ==> Reach(mem', r, up) == Reach(mem, r, up))
    && forall r, page: seq<nat> :: r in spaces && |page| == DEPTH ==>
         Leaf(mem', r, page) ==
           if Visited(page, first, end) && (r == root || KernelPath(page, kernel)) then
             Flagged(mem, root, page, flags)
           else Leaf(mem, r, page)
  }

  lemma FlaggedSame(mem: Memory, mid: Memory, spaces: set<nat>, root: nat, path: seq<nat>, flags: Flags)
    requires SameLeaves(mem, mid, spaces) && root in spaces && |path| == DEPTH
    requires forall r, up: seq<nat> :: r in spaces && |up| < DEPTH ==> Reach(mid, r, up) == Reach(mem, r, up)
    ensures Flagged(mid, root, path, flags) == Flagged(mem, root, path, flags)
  {
    hide Reach, Leaf;
  }

  lemma PdsWidenSame(mem: Memory, mid: Memory, mem': Memory, spaces: set<nat>, root: nat)
    requires PdsWiden(mem, mid, spaces, root)
    requires forall r, a: nat, b: nat :: r in spaces ==> PdEntry(mem', r, a, b) == PdEntry(mid, r, a, b)
    ensures PdsWiden(mem, mem', spaces, root)
  {
    hide PdEntry;
  }

  /** The directory entry above a page with a table has just got its user bit. */
  lemma FlaggedUnderPd(mem: Memory, mid: Memory, root: nat, va: nat, flags: Flags)
    requires va < WORD && root in mem && PdptIndex(va) < |mem[root]| && Reach(mem, root, [])== To(root)
    requires Reach(mid, root, PathOf(va)[..2]) == Reach(mem, root, PathOf(va)[..2])
    requires mem[root][PdptIndex(va)].present ==> PdEntry(mid, root, PdptIndex(va), PdIndex(va)).user
    ensures Flagged(mid, root, PathOf(va), flags).present ==> PdEntry(mid, root, PathOf(va)[0], PathOf(va)[1]).user
  {
    hide PdptIndex, PdIndex, PtIndex;
    var path := PathOf(va);
    assert path[..2][..1] == [path[0]] && [path[0]][..0] == [];
    assert Reach(mem, root, [path[0]]) == Child(mem, root, path[0]);
  }

  lemma FlaggedStart(mem: Memory, spaces: set<nat>, root: nat, kernel: nat, first: nat, end: nat, flags: Flags)
    requires end <= first && end <= WORD
    ensures FlaggedIn(mem, mem, spaces, root, kernel, first, end, flags)
  {
    hide Reach, Leaf, PathOf;
  }

  lemma FlaggedStep(mem: Memory, mid: Memory, mem': Memory, spaces: set<nat>, root: nat, kernel: nat, first: nat,
      k: nat, end: nat, flags: Flags)
    requires PageAddr(first, k) < end < WORD && root in spaces
    requires FlaggedIn(mem, mid, spaces, root, kernel, first, PageAddr(first, k), flags)
    requires forall r, up: seq<nat> :: r in spaces && |up| < DEPTH ==> Reach(mem', r, up) == Reach(mid, r, up)
    requires OnlyPage(mid, mem', spaces, root, kernel, PathOf(PageAddr(first, k)),
      Flagged(mid, root, PathOf(PageAddr(first, k)), flags))
    ensures FlaggedIn(mem, mem', spaces, root, kernel, first,
      if PageAddr(first, k + 1) < end then PageAddr(first, k + 1) else end, flags)
  {
    hide Reach, Leaf, PathOf, Visited, KernelPath;
    var here, next := PageAddr(first, k), if PageAddr(first, k + 1) < end then PageAddr(first, k + 1) else end;
    forall r, page: seq<nat> | r in spaces && |page| == DEPTH
      ensures Leaf(mem', r, page) ==
        if Visited(page, first, next) && (r == root || KernelPath(page, kernel)) then
          Flagged(mem, root, page, flags)
        else Leaf(mem, r, page)
    {
      VisitedNext(page, first, k, next);
      assert Reach(mid, root, page[..2]) == Reach(mem, root, page[..2]);
    }
  }

  lemma VisitedNext(page: seq<nat>, first: nat, k: nat, next: nat)
    requires PageAddr(first, k) < next <= PageAddr(first, k + 1) && next <= WORD
    ensures Visited(page, first, next) <==>
      Visited(page, first, PageAddr(first, k)) || page == PathOf(PageAddr(first, k))
  {
    hide PathOf;
    var here := PageAddr(first, k);
    if page != PathOf(here) && Visited(page, first, next) {
      var j: nat :| PageAddr(first, j) < next && page == PathOf(PageAddr(first, j));
      assert j != k;
      assert PageAddr(first, j) < here;
    }
  }

  lemma HeldNone(mem: Memory, pd: nat, first: nat)
    requires pd in mem && |mem[pd]| == ENTRIES && first <= ENTRIES
    ensures Held(mem, pd, first, first) == {}
  {
  }

  lemma HeldStep(mem: Memory, info: map<nat, Info>, spaces: set<nat>, kernelPdpt: nat, kernelPd: nat, kernel: nat,
      root: nat, pd: nat, i: nat)
    requires TablesOk(mem, info, spaces, kernelPdpt, kernelPd, kernel) && root in spaces
    requires Reach(mem, root, [0]) == To(pd)
    requires pd in mem && |mem[pd]| == ENTRIES && kernel <= i < ENTRIES
    ensures Held(mem, pd, kernel, i + 1) ==
      Held(mem, pd, kernel, i) + if mem[pd][i].present then {mem[pd][i].frame} else {}
    ensures mem[pd][i].present ==>
      mem[pd][i].frame in mem && mem[pd][i].frame != 0 && mem[pd][i].frame !in Held(mem, pd, kernel, i)
  {
    hide TreeOk, Reach, Rooted, SharesAt, PdRights;
    TreeKeys(mem, info);
    if mem[pd][i].present {
      PastKernel(mem, info, spaces, kernelPdpt, kernel, root, pd, i);
      forall j | kernel <= j < i && mem[pd][j].present
        ensures mem[pd][j].frame != mem[pd][i].frame
      {
        PastKernel(mem, info, spaces, kernelPdpt, kernel, root, pd, j);
        assert [0, j][1] != [0, i][1];
      }
    }
  }

  /** Everything about the end of an address space. */
  lemma SpaceGone(mem: Memory, info: map<nat, Info>, spaces: set<nat>, kernelPdpt: nat, kernelPd: nat, kernel: nat,
      root: nat, pd: nat)
    requires TablesOk(mem, info, spaces, kernelPdpt, kernelPd, kernel) && root in spaces && root != kernelPdpt
    requires Reach(mem, root, [0]) == To(pd)
    ensures pd in mem && |mem[pd]| == ENTRIES && root in mem && |mem[root]| == ENTRIES && kernel <= ENTRIES && root != 0
    ensures pd != 0 && pd != root
    ensures var freed := Freed(mem, root, pd, kernel);
            && TablesOk(mem - freed, DestroyedInfo(info, freed, root), spaces - {root}, kernelPdpt, kernelPd, kernel)
            && SameLeaves(mem, mem - freed, spaces - {root}) && freed <= Owned(info, root) && freed <= mem.Keys
            && (freed == Owned(info, root) <==> Low(mem, root))
            && freed == Held(mem, pd, kernel, ENTRIES) + {root, pd}
            && pd !in Held(mem, pd, kernel, ENTRIES) && root !in Held(mem, pd, kernel, ENTRIES)
    ensures SameOwners(info, DestroyedInfo(info, Freed(mem, root, pd, kernel), root), root)
    ensures UsersUp(mem, spaces, kernel) ==> UsersUp(mem - Freed(mem, root, pd, kernel), spaces - {root}, kernel)
  {
    hide TreeOk, Reach, Rooted, SharesAt, PdRights, Low, UsersUp;
    Destroyed(mem, info, spaces, kernelPdpt, kernel, root, pd);
    FreedIsAll(mem, info, spaces, kernelPdpt, kernel, root, pd);
    TreeKeys(mem, info);
    NotShared(mem, info, spaces, kernelPdpt, kernel, root, [0]);
    DestroyedRights(mem, info, Freed(mem, root, pd, kernel), root);
    if UsersUp(mem, spaces, kernel) {
      KeptUserUp(mem, mem - Freed(mem, root, pd, kernel), info, spaces, kernelPdpt, kernel, spaces - {root});
    }
    forall i | kernel <= i < ENTRIES && mem[pd][i].present
      ensures mem[pd][i].frame != pd && mem[pd][i].frame != root
    {
      PastKernel(mem, info, spaces, kernelPdpt, kernel, root, pd, i);
    }
  }

  lemma DestroyedRights(mem: Memory, info: map<nat, Info>, freed: set<nat>, root: nat)
    requires PdRights(mem, info)
    ensures PdRights(mem - freed, DestroyedInfo(info, freed, root))
  {
  }

  lemma MissingBelow(mem: Memory, root: nat, a: nat, b: nat)
    requires root in mem && a < |mem[root]| && !mem[root][a].present
    ensures Reach(mem, root, [a] + [b]) == Nil
  {
    assert ([a] + [b])[..1] == [a] && [a][..0] == [];
    assert Reach(mem, root, [a]) == Child(mem, root, a);
  }

  lemma Unreached(mem: Memory, root: nat, page: seq<nat>)
    requires |page| == DEPTH && Reach(mem, root, page[..2]) == Nil
    ensures Leaf(mem, root, page) == Zero
  {
  }

  /** Leaving all entries alone is rewriting one with what it held. */
  lemma Rewritten(mem: Memory, info: map<nat, Info>, spaces: set<nat>, kernelPdpt: nat, kernelPd: nat, kernel: nat,
      root: nat, path: seq<nat>)
    requires TablesOk(mem, info, spaces, kernelPdpt, kernelPd, kernel) && root in spaces && |path| == DEPTH
    ensures OnlyPage(mem, mem, spaces, root, kernel, path, Leaf(mem, root, path))
  {
    hide Leaf, Reach, SpacesOk, PdRights;
    forall r, page: seq<nat> | r in spaces && |page| == DEPTH && page == path && KernelPath(path, kernel)
      ensures Leaf(mem, r, page) == Leaf(mem, root, path)
    {
      KernelSame(mem, info, spaces, kernelPdpt, kernel, r, page);
      KernelSame(mem, info, spaces, kernelPdpt, kernel, root, page);
    }
  }

  lemma FlaggedTable(mem: Memory, info: map<nat, Info>, spaces: set<nat>, kernelPdpt: nat, kernelPd: nat, kernel: nat,
      root: nat, path: seq<nat>, pt: nat)
    requires TablesOk(mem, info, spaces, kernelPdpt, kernelPd, kernel) && root in spaces && |path| == DEPTH
    requires path[2] < ENTRIES && Reach(mem, root, path[..2]) == To(pt)
    ensures pt in mem && |mem[pt]| == ENTRIES && Leaf(mem, root, path) == mem[pt][path[2]]
  {
    hide TreeOk, Reach, Rooted, SharesAt, PdRights;
    ReachInfo(mem, info, DEPTH, root, path[..2]);
    TreeSize(mem, info, DEPTH, pt);
  }

  /** Everything about a new address space. */
  lemma SpaceMade(mem: Memory, info: map<nat, Info>, spaces: set<nat>, kernelPdpt: nat, kernelPd: nat, kernel: nat,
      pdpt: nat, pd: nat)
    requires TablesOk(mem, info, spaces, kernelPdpt, kernelPd, kernel) && pdpt !in mem && pd !in mem && pdpt != pd
    requires pdpt != 0 && pd != 0
    ensures kernelPd in mem && kernel <= |mem[kernelPd]| == ENTRIES && pdpt !in spaces
    ensures var mem', info' := CreatedMem(mem, kernelPd, kernel, pdpt, pd), CreatedInfo(info, pdpt, pd);
            && TablesOk(mem', info', spaces + {pdpt}, kernelPdpt, kernelPd, kernel) && SameLeaves(mem, mem', spaces)
            && (forall page: seq<nat> :: |page| == DEPTH ==>
                 Leaf(mem', pdpt, page) == if KernelPath(page, kernel) then Leaf(mem', kernelPdpt, page) else Zero)
            && Owned(info', pdpt) == {pdpt, pd} && mem'.Keys == mem.Keys + {pdpt, pd}
            && pdpt in mem' && |mem'[pdpt]| == ENTRIES && Low(mem', pdpt)
            && (UsersUp(mem, spaces, kernel) ==> UsersUp(mem', spaces + {pdpt}, kernel))
            && Grows(info, info', pdpt)
  {
    hide TreeOk, Reach, Leaf, Rooted, SharesAt, UsersUp, CreatedMem, CreatedInfo, Low, Owned, PdRights, Grows;
    ReachInfo(mem, info, DEPTH, kernelPdpt, [0]);
    TreeSize(mem, info, DEPTH, kernelPd);
    TreeKeys(mem, info);
    CreatedFacts(mem, info, kernelPd, kernel, pdpt, pd);
    Created(mem, info, spaces, kernelPdpt, kernelPd, kernel, pdpt, pd);
    CreatedOwns(mem, info, spaces, kernelPdpt, kernelPd, kernel, pdpt, pd);
    CreatedRights(mem, info, kernelPd, kernel, pdpt, pd);
    var mem' := CreatedMem(mem, kernelPd, kernel, pdpt, pd);
    forall r | r in spaces
      ensures Reach(mem', r, [0]) == Reach(mem, r, [0])
    {
      UntouchedReach(mem, mem', info, DEPTH, r, [0]);
    }
    if UsersUp(mem, spaces, kernel) {
      KeptUserUp(mem, mem', info, spaces, kernelPdpt, kernel, spaces);
      CreatedUserUp(mem', spaces, kernelPdpt, kernel, pdpt);
    }
  }

  lemma CreatedOwns(mem: Memory, info: map<nat, Info>, spaces: set<nat>, kernelPdpt: nat, kernelPd: nat, kernel: nat,
      pdpt: nat, pd: nat)
    requires SpacesOk(mem, info, spaces, kernelPdpt, kernel) && kernelPd in mem && kernel <= |mem[kernelPd]| == ENTRIES
    requires pdpt !in mem && pd !in mem && pdpt != pd && mem.Keys == info.Keys && pdpt !in spaces
    ensures Owned(CreatedInfo(info, pdpt, pd), pdpt) == {pdpt, pd} && Grows(info, CreatedInfo(info, pdpt, pd), pdpt)
    ensures var mem' := CreatedMem(mem, kernelPd, kernel, pdpt, pd);
            pdpt in mem' && |mem'[pdpt]| == ENTRIES && Low(mem', pdpt)
  {
    hide SpacesOk;
    OwnersKnown(mem, info, spaces, kernelPdpt, kernel);
  }

  lemma CreatedRights(mem: Memory, info: map<nat, Info>, kernelPd: nat, kernel: nat, pdpt: nat, pd: nat)
    requires PdRights(mem, info) && kernelPd in mem && kernel <= |mem[kernelPd]| == ENTRIES && pdpt !in mem
    requires pd !in mem && pdpt != pd
    requires kernelPd in info && |info[kernelPd].path| == 1
    ensures PdRights(CreatedMem(mem, kernelPd, kernel, pdpt, pd), CreatedInfo(info, pdpt, pd))
  {
    var mem': Memory, info' := CreatedMem(mem, kernelPd, kernel, pdpt, pd), CreatedInfo(info, pdpt, pd);
    forall t: nat, i: int | t in mem' && t in info' && |info'[t].path| == 1 && 0 <= i < |mem'[t]| && mem'[t][i].present
      ensures mem'[t][i].write && !mem'[t][i].nx
    {
      if t == pd {
        assert mem'[t][i] == mem[kernelPd][i];
      }
    }
  }

  lemma CreatedUserUp(mem: Memory, spaces: set<nat>, kernelPdpt: nat, kernel: nat, pdpt: nat)
    requires UsersUp(mem, spaces, kernel)
    requires forall page: seq<nat> :: |page| == DEPTH ==>
      Leaf(mem, pdpt, page) == if KernelPath(page, kernel) then Leaf(mem, kernelPdpt, page) else Zero
    ensures UsersUp(mem, spaces + {pdpt}, kernel)
  {
    hide Leaf, PdEntry;
  }

  /** Spaces whose tables are untouched keep their user pages under user directory entries. */
  lemma KeptUserUp(mem: Memory, mem': Memory, info: map<nat, Info>, spaces: set<nat>, kernelPdpt: nat, kernel: nat,
      left: set<nat>)
    requires SpacesOk(mem, info, spaces, kernelPdpt, kernel) && UsersUp(mem, spaces, kernel) && left <= spaces
    requires forall r :: r in left ==> Untouched(mem, mem', info, r)
    ensures UsersUp(mem', left, kernel)
  {
    hide Leaf, Reach, TreeOk, Rooted, SharesAt;
    forall r, page: seq<nat> | r in left && |page| == DEPTH && !KernelPath(page, kernel)
        && Leaf(mem', r, page).present && Leaf(mem', r, page).user
      ensures PdEntry(mem', r, page[0], page[1]).user
    {
      assert UserUp(mem, r, kernel);
      UntouchedLeaf(mem, mem', info, DEPTH, r, page);
      UntouchedReach(mem, mem', info, DEPTH, r, [page[0]]);
      ReachInfo(mem, info, DEPTH, r, [page[0]]);
    }
  }

  lemma SpacesHaveRoots(mem: Memory, info: map<nat, Info>, spaces: set<nat>, kernelPdpt: nat, kernelPd: nat,
      kernel: nat)
    requires TablesOk(mem, info, spaces, kernelPdpt, kernelPd, kernel)
    ensures forall r :: r in spaces ==> r in mem && |mem[r]| == ENTRIES
  {
    hide TreeOk, Reach, Rooted, SharesAt;
    forall r | r in spaces
      ensures r in mem && |mem[r]| == ENTRIES
    {
      TreeSize(mem, info, DEPTH, r);
    }
  }

  lemma RootEntry(mem: Memory, info: map<nat, Info>, spaces: set<nat>, kernelPdpt: nat, kernelPd: nat, kernel: nat,
      root: nat, a: nat)
    requires TablesOk(mem, info, spaces, kernelPdpt, kernelPd, kernel) && root in spaces && a < ENTRIES
    ensures root in mem && |mem[root]| == ENTRIES && Reach(mem, root, []) == To(root)
    ensures mem[root][a].present ==> Reach(mem, root, [a]) == To(mem[root][a].frame) && mem[root][a].frame != 0
    ensures a == 0 ==> mem[root][a].present
  {
    hide TreeOk, Rooted, SharesAt;
    ReachChild(mem, info, root, [], a, root);
    assert [] + [a] == [a];
  }

  lemma PdFacts(mem: Memory, info: map<nat, Info>, spaces: set<nat>, kernelPdpt: nat, kernelPd: nat, kernel: nat,
      root: nat, a: nat, b: nat, pd: nat)
    requires TablesOk(mem, info, spaces, kernelPdpt, kernelPd, kernel) && root in spaces
    requires Reach(mem, root, [a]) == To(pd) && b < ENTRIES
    ensures pd in mem && |mem[pd]| == ENTRIES && pd != root && root in mem && PdEntry(mem, root, a, b) == mem[pd][b]
    ensures mem[pd][b].present ==>
      Reach(mem, root, [a] + [b]) == To(mem[pd][b].frame) && mem[pd][b].frame != 0 && mem[pd][b].write && !mem[pd][b].nx
    ensures !mem[pd][b].present ==> Reach(mem, root, [a] + [b]) == Nil
  {
    hide TreeOk, Rooted, SharesAt, Reach;
    NotShared(mem, info, spaces, kernelPdpt, kernel, root, [a]);
    ReachChild(mem, info, root, [a], b, pd);
  }

  lemma NoChange(mem: Memory, info: map<nat, Info>, spaces: set<nat>, root: nat)
    ensures SameLeaves(mem, mem, spaces) && PdsWiden(mem, mem, spaces, root) && Grows(info, info, root)
  {
    hide Leaf, PdEntry;
  }

  lemma HangKeepsPd(mem: Memory, root: nat, a: nat, b: nat, pd: nat, c: nat, mem': Memory, e: Entry)
    requires Reach(mem, root, [a]) == To(pd) && pd in mem && |mem[pd]| == ENTRIES && c !in mem && pd != root
    requires b < ENTRIES
    requires mem' == Hang(mem, pd, b, c, e) && Reach(mem', root, [a] + [b]) == To(c)
    ensures PdEntry(mem', root, a, b) == e
  {
    assert ([a] + [b])[..1] == [a] && [a][..0] == [];
    assert Reach(mem', root, [a]) == Child(mem', root, a);
    assert Reach(mem, root, [a]) == Child(mem, root, a);
  }

  lemma NotActive(mem: Memory, info: map<nat, Info>, spaces: set<nat>, kernelPdpt: nat, kernelPd: nat, kernel: nat,
      root: nat, path: seq<nat>, t: nat)
    requires TablesOk(mem, info, spaces, kernelPdpt, kernelPd, kernel) && root in spaces && |path| == 2
    requires Reach(mem, root, path) == To(t)
    ensures t != root
  {
    hide TreeOk, Rooted, SharesAt, Reach;
    ReachInfo(mem, info, DEPTH, root, path);
  }

  lemma SameLeavesTwice(mem: Memory, mid: Memory, mem': Memory, spaces: set<nat>)
    requires SameLeaves(mem, mid, spaces) && SameLeaves(mid, mem', spaces)
    ensures SameLeaves(mem, mem', spaces)
  {
    hide Leaf;
  }

  lemma OnlyPageAfter(mem: Memory, mid: Memory, mem': Memory, spaces: set<nat>, root: nat, kernel: nat, path: seq<nat>,
      e: Entry)
    requires SameLeaves(mem, mid, spaces) && OnlyPage(mid, mem', spaces, root, kernel, path, e)
    ensures OnlyPage(mem, mem', spaces, root, kernel, path, e)
  {
    hide Leaf, KernelPath;
  }

  lemma LeafIs(mem: Memory, mem': Memory, spaces: set<nat>, root: nat, kernel: nat, path: seq<nat>, e: Entry)
    requires OnlyPage(mem, mem', spaces, root, kernel, path, e) && root in spaces && |path| == DEPTH
    ensures Leaf(mem', root, path) == e
  {
    hide Leaf, KernelPath;
  }

  lemma KeysAgree(mem: Memory, info: map<nat, Info>, spaces: set<nat>, kernelPdpt: nat, kernelPd: nat, kernel: nat)
    requires TablesOk(mem, info, spaces, kernelPdpt, kernelPd, kernel)
    ensures mem.Keys == info.Keys && forall r :: r in spaces ==> r in mem
  {
    hide Reach, Rooted, SharesAt, PdRights;
  }

  lemma KernelIn(mem: Memory, info: map<nat, Info>, spaces: set<nat>, kernelPdpt: nat, kernelPd: nat, kernel: nat)
    requires TablesOk(mem, info, spaces, kernelPdpt, kernelPd, kernel)
    ensures kernelPdpt in spaces && 0 !in spaces
  {
    hide Reach, Rooted, SharesAt, PdRights, TableOk;
  }

  lemma OwnedGrows(info: map<nat, Info>, info': map<nat, Info>, root: nat)
    requires Grows(info, info', root)
    ensures Owned(info', root) == Owned(info, root) + (info'.Keys - info.Keys) && SameOwners(info, info', root)
  {
  }

  // ---- above the first gigabyte -------------------------------------------------------------------------------

  /** The frames that nobody holds. */
  ghost function FreeFrames(total: nat, used: set<nat>): set<nat> {
    set f | 0 <= f < total && f !in used
  }

  ghost predicate HasFree(total: nat, used: set<nat>, n: nat) { |FreeFrames(total, used)| >= n }

  /** At most one table more, and exactly two. */
  ghost predicate OneMore(before: set<nat>, after: set<nat>) { |after - before| <= 1 }

  ghost predicate TwoMore(before: set<nat>, after: set<nat>) { |after - before| == 2 }

  lemma MoreBy(before: set<nat>, after: set<nat>, f: nat)
    requires after <= before + {f}
    ensures OneMore(before, after)
  {
    Smaller(after - before, {f});
  }

  lemma MoreByTwo(before: set<nat>, after: set<nat>, f: nat, g: nat)
    requires after == before + {f, g} && f !in before && g !in before && f != g
    ensures TwoMore(before, after)
  {
    assert after - before == {f, g};
  }

  lemma OneFree(total: nat, used: set<nat>, f: nat)
    requires forall g :: 0 <= g < total ==> g in used + {f}
    ensures !HasFree(total, used, 2)
  {
    forall g | g in FreeFrames(total, used)
      ensures g == f
    {
      assert g in used + {f};
    }
    Smaller(FreeFrames(total, used), {f});
  }

  lemma TwoFree(total: nat, used: set<nat>, f: nat, g: nat)
    requires f < total && g < total && f !in used && g !in used && f != g
    ensures HasFree(total, used, 2)
  {
    Smaller({f, g}, FreeFrames(total, used));
  }

  lemma FewerFree(total: nat, used: set<nat>)
    requires !HasFree(total, used, 2)
    ensures !HasFree(total, used, 4)
  {
  }

  lemma {:induction false} Smaller(a: set<nat>, b: set<nat>)
    requires a <= b
    ensures |a| <= |b|
  {
    if a != {} {
      var x :| x in a;
      Smaller(a - {x}, b - {x});
    }
  }

  /** Three tables were taken, and no frame is left: there were fewer than four. */
  lemma Spent(total: nat, used: set<nat>, k0: set<nat>, k1: set<nat>, k2: set<nat>)
    requires TwoMore(k0, k1) && OneMore(k1, k2)
    requires forall f :: 0 <= f < total ==> f in used + (k1 - k0) + (k2 - k1)
    ensures !HasFree(total, used, 4)
  {
    var a, b := k1 - k0, k2 - k1;
    forall f | f in FreeFrames(total, used)
      ensures f in a + b
    {
      assert f in used + (k1 - k0) + (k2 - k1);
    }
    Smaller(FreeFrames(total, used), a + b);
    assert |a + b| <= |a| + |b|;
  }

  /** A space that maps a page above the first gigabyte is not low. */
  lemma HighPage(mem: Memory, root: nat, page: seq<nat>)
    requires root in mem && |mem[root]| == ENTRIES && |page| == DEPTH && page[0] >= 1 && Leaf(mem, root, page).present
    ensures !Low(mem, root)
  {
    assert page[..2][..1] == [page[0]] && [page[0]][..0] == [];
    assert Reach(mem, root, [page[0]]) == Child(mem, root, page[0]);
  }

  /** A space with one page at the top of the address space, created, used and destroyed, costs frames that
      nobody gets back. Four free frames are enough for that to happen. */
  method HighPageLeaks(pager: Pager, frame: nat) returns (ok: bool)
    requires pager.Valid() && pager.active == pager.kernelPdpt
    modifies pager, pager.frames
    ensures pager.Valid() && pager.spaces == old(pager.spaces) && pager.active == pager.kernelPdpt
    ensures ok ==> old(pager.frames.Used()) < pager.frames.Used()
    ensures HasFree(pager.frames.total, old(pager.frames.Used()), 4) ==> ok
  {
    hide HasFree, OneMore, TwoMore, TablesOk, Reach, Leaf, SameLeaves, OnlyPage, PdsWiden, UsersUp, Effective, Low,
         Owned, Grows, PathOf, Pmm.Held, Pmm.Covers;
    KernelIn(pager.mem, pager.info, pager.spaces, pager.kernelPdpt, pager.kernelPd, pager.kernel);
    ghost var used, mem0 := pager.frames.Used(), pager.mem;
    var root := pager.CreateSpace();
    if root == 0 {
      FewerFree(pager.frames.total, used);
      return false;
    }
    ghost var mem1, info1 := pager.mem, pager.info;
    KeysAgree(pager.mem, pager.info, pager.spaces, pager.kernelPdpt, pager.kernelPd, pager.kernel);
    pager.Switch(root);
    ok := pager.Map(0xFFFF_F000, frame, Flags(true, false, true, false));
    KeysAgree(pager.mem, pager.info, pager.spaces, pager.kernelPdpt, pager.kernelPd, pager.kernel);
    SpacesHaveRoots(pager.mem, pager.info, pager.spaces, pager.kernelPdpt, pager.kernelPd, pager.kernel);
    OwnedGrows(info1, pager.info, root);
    if !ok {
      Spent(pager.frames.total, used, mem0.Keys, mem1.Keys, pager.mem.Keys);
    }
    if ok {
      TopPage();
      LeafIs(mem1, pager.mem, pager.spaces, root, pager.kernel, PathOf(0xFFFF_F000),
        Make(frame, pager.Supported(Flags(true, false, true, false))));
      HighPage(pager.mem, root, PathOf(0xFFFF_F000));
    }
    pager.Switch(pager.kernelPdpt);
    pager.DestroySpace(root);
  }

  // ---- a task switch between two calls of paging_map --------------------------------------------------------------

  /** The active space once tasks with these address spaces have run one after the other, `prev` being that of the
      task interrupted: task_schedule switches when the number changes, and 0 stands for the kernel's space. */
  function ActiveAfter(active: nat, prev: nat, dirs: seq<nat>, kernelPdpt: nat): nat
    decreases |dirs|
  {
    if dirs == [] then active
    else
      var now := if dirs[0] == prev then active else if dirs[0] == 0 then kernelPdpt else dirs[0];
      ActiveAfter(now, dirs[0], dirs[1..], kernelPdpt)
  }

  /** A kernel task that had switched to some space finds it active again when it resumes if and only if none but
      kernel tasks ran meanwhile; otherwise it finds the kernel's. */
  lemma {:induction false} ActiveOnReturn(active: nat, prev: nat, dirs: seq<nat>, kernelPdpt: nat)
    requires if dirs == [] then prev == 0 else dirs[|dirs| - 1] == 0
    ensures ActiveAfter(active, prev, dirs, kernelPdpt)
         == if prev == 0 && forall i :: 0 <= i < |dirs| ==> dirs[i] == 0 then active else kernelPdpt
    decreases |dirs|
  {
    if dirs != [] {
      var now := if dirs[0] == prev then active else if dirs[0] == 0 then kernelPdpt else dirs[0];
      ActiveOnReturn(now, dirs[0], dirs[1..], kernelPdpt);
      assert forall i :: 0 < i < |dirs| ==> dirs[i] == dirs[1..][i - 1];
    }
  }

  /** paging_map on behalf of space `dir` after such an interruption: the page lands in `dir` if and only if no
      program ran meanwhile. Otherwise it lands in the kernel's space, and `dir` has no page there. */
  method MapOnReturn(pager: Pager, dir: nat, dirs: seq<nat>, va: nat, frame: nat, flags: Flags) returns (ok: bool)
    requires pager.Valid() && pager.active == dir && dir != pager.kernelPdpt && va < WORD
    requires dirs != [] && dirs[|dirs| - 1] == 0
    requires forall i :: 0 <= i < |dirs| ==> dirs[i] == 0 || dirs[i] in pager.spaces
    requires !KernelPath(PathOf(va), pager.kernel)
    modifies pager, pager.frames
    ensures pager.Valid() && pager.spaces == old(pager.spaces)
    ensures ok ==>
      var mine := forall i :: 0 <= i < |dirs| ==> dirs[i] == 0;
      var e := Make(frame, pager.Supported(flags));
      && Leaf(pager.mem, dir, PathOf(va)) == (if mine then e else Leaf(old(pager.mem), dir, PathOf(va)))
      && Leaf(pager.mem, pager.kernelPdpt, PathOf(va)) ==
           (if mine then Leaf(old(pager.mem), pager.kernelPdpt, PathOf(va)) else e)
  {
    hide TablesOk, Reach, Leaf, SameLeaves, OnlyPage, PdsWiden, UsersUp, Effective, Low, Owned, Grows, PathOf,
         KernelPath, Pmm.Held, Pmm.Covers;
    KernelIn(pager.mem, pager.info, pager.spaces, pager.kernelPdpt, pager.kernelPd, pager.kernel);
    ActiveOnReturn(dir, 0, dirs, pager.kernelPdpt);
    var prev := 0;
    for i := 0 to |dirs|
      invariant pager.Valid() && pager.mem == old(pager.mem) && pager.spaces == old(pager.spaces)
      invariant pager.kernel == old(pager.kernel)
      invariant ActiveAfter(pager.active, prev, dirs[i..], pager.kernelPdpt)
             == ActiveAfter(dir, 0, dirs, pager.kernelPdpt)
    {
      assert dirs[i..][0] == dirs[i] && dirs[i..][1..] == dirs[i + 1..];
      if dirs[i] != prev {
        pager.Switch(dirs[i]);
      }
      prev := dirs[i];
    }
    ghost var mem0, now := pager.mem, pager.active;
    ok := pager.Map(va, frame, flags);
    if ok {
      PageElsewhere(mem0, pager.mem, pager.spaces, now, pager.kernel, PathOf(va), Make(frame, pager.Supported(flags)),
        dir);
      PageElsewhere(mem0, pager.mem, pager.spaces, now, pager.kernel, PathOf(va), Make(frame, pager.Supported(flags)),
        pager.kernelPdpt);
    }
  }

  lemma PageElsewhere(mem: Memory, mem': Memory, spaces: set<nat>, active: nat, kernel: nat, page: seq<nat>, e: Entry,
      r: nat)
    requires OnlyPage(mem, mem', spaces, active, kernel, page, e) && r in spaces && |page| == DEPTH
    requires !KernelPath(page, kernel)
    ensures Leaf(mem', r, page) == if r == active then e else Leaf(mem, r, page)
  {
  }

  lemma TopPage()
    ensures PathOf(0xFFFF_F000)[0] == 3
  {
  }
}
