/**
 Several address spaces over three-level (PAE) tables. The lowest-level tables of the kernel are
 shared: every space reaches them by the same path. All other tables belong to one space.
 */
module AddressSpaces {
  import opened PageTables

  const DEPTH: nat := 3

  /** Tables of the first `kernel` entries of the first page directory belong to the kernel. */
  predicate KernelPath(path: seq<nat>, kernel: nat) {
    |path| >= 2 && path[0] == 0 && path[1] < kernel
  }

  /** Each space reaches the kernel's table i, the same one in all of them. */
  ghost predicate SharesAt(mem: Memory, info: map<nat, Info>, kernelRoot: nat, root: nat, i: nat) {
    var p := Reach(mem, root, [0, i]);
    p.To? && p == Reach(mem, kernelRoot, [0, i]) && p.table in info && info[p.table].owner == Shared
  }

  ghost predicate Rooted(mem: Memory, info: map<nat, Info>, spaces: set<nat>, t: nat)
    requires t in info
  {
    info[t].owner.Space? ==> info[t].owner.root in spaces && Reach(mem, info[t].owner.root, info[t].path) == To(t)
  }

  ghost predicate SpacesOk(mem: Memory, info: map<nat, Info>, spaces: set<nat>, kernelRoot: nat, kernel: nat) {
    && TreeOk(mem, info, DEPTH) && kernelRoot in spaces && kernel <= ENTRIES
    && (forall r :: r in spaces ==> IsRoot(mem, info, r))
    && (forall t {:trigger Rooted(mem, info, spaces, t)} :: t in info ==> Rooted(mem, info, spaces, t))
    && (forall t :: t in info && info[t].owner == Shared ==> KernelPath(info[t].path, kernel))
    && (forall r, i {:trigger SharesAt(mem, info, kernelRoot, r, i)} :: r in spaces && 0 <= i < kernel ==>
         SharesAt(mem, info, kernelRoot, r, i))
  }

  /** Page directory entries always grant write access and never forbid execution. */
  ghost predicate PdRights(mem: Memory, info: map<nat, Info>) {
    forall t, i {:trigger mem[t][i]} ::
      t in mem && t in info && |info[t].path| == 1 && 0 <= i < |mem[t]| && mem[t][i].present ==>
      mem[t][i].write && !mem[t][i].nx
  }

  // ---- what an operation may change ---------------------------------------------------------------------

  ghost predicate SameLeaves(mem: Memory, mem': Memory, spaces: set<nat>) {
    forall r, page: seq<nat> :: r in spaces && |page| == DEPTH ==> Leaf(mem', r, page) == Leaf(mem, r, page)
  }

  /** The page at `path` has the entry e: in the space `root` alone, or in all spaces when the page is
      the kernel's. No other page of any space changed. */
  ghost predicate OnlyPage(mem: Memory, mem': Memory, spaces: set<nat>, root: nat, kernel: nat, path: seq<nat>,
      e: Entry) {
    forall r, page: seq<nat> :: r in spaces && |page| == DEPTH ==>
      Leaf(mem', r, page) == if page == path && (r == root || KernelPath(path, kernel)) then e else Leaf(mem, r, page)
  }

  /** Kernel pages mean the same in every space. */
  lemma KernelSame(mem: Memory, info: map<nat, Info>, spaces: set<nat>, kernelRoot: nat, kernel: nat, r: nat,
      page: seq<nat>)
    requires SpacesOk(mem, info, spaces, kernelRoot, kernel) && r in spaces && |page| == DEPTH
    requires KernelPath(page, kernel)
    ensures Leaf(mem, r, page) == Leaf(mem, kernelRoot, page)
  {
    hide TreeOk, Reach;
    assert page[..2] == [0, page[1]];
    assert SharesAt(mem, info, kernelRoot, r, page[1]);
  }

  /** Which spaces reach a table of the space `root`. */
  lemma WhoReaches(mem: Memory, info: map<nat, Info>, spaces: set<nat>, kernelRoot: nat, kernel: nat, root: nat,
      path: seq<nat>, r: nat)
    requires SpacesOk(mem, info, spaces, kernelRoot, kernel) && root in spaces && r in spaces && |path| == 2
    requires Reach(mem, root, path).To?
    ensures Reach(mem, r, path) == Reach(mem, root, path) <==> r == root || KernelPath(path, kernel)
  {
    hide TreeOk, Reach;
    ReachInfo(mem, info, DEPTH, root, path);
    ReachInfo(mem, info, DEPTH, r, path);
    if KernelPath(path, kernel) {
      assert path == [0, path[1]];
      assert SharesAt(mem, info, kernelRoot, r, path[1]) && SharesAt(mem, info, kernelRoot, root, path[1]);
    }
  }

  // ---- writes that keep all pointers ----------------------------------------------------------------------

  lemma SpacesSamePointers(mem: Memory, mem': Memory, info: map<nat, Info>, spaces: set<nat>, kernelRoot: nat,
      kernel: nat)
    requires SpacesOk(mem, info, spaces, kernelRoot, kernel) && SamePointers(mem, mem', info, DEPTH)
    ensures SpacesOk(mem', info, spaces, kernelRoot, kernel)
    ensures forall r, path: seq<nat> :: r in spaces && |path| < DEPTH ==> Reach(mem', r, path) == Reach(mem, r, path)
  {
    hide TreeOk, Reach;
    SamePointersTree(mem, mem', info, DEPTH);
    forall r, path: seq<nat> | r in spaces && |path| < DEPTH
      ensures Reach(mem', r, path) == Reach(mem, r, path)
    {
      SamePointersReach(mem, mem', info, DEPTH, r, path);
    }
    RebuildSpaces(mem, mem', info, info, spaces, spaces, kernelRoot, kernel);
  }

  /** The invariant carries over when old paths still lead to the same tables. */
  lemma RebuildSpaces(mem: Memory, mem': Memory, info: map<nat, Info>, info': map<nat, Info>, spaces: set<nat>,
      spaces': set<nat>, kernelRoot: nat, kernel: nat)
    requires SpacesOk(mem, info, spaces, kernelRoot, kernel) && TreeOk(mem', info', DEPTH) && kernelRoot in spaces'
    requires spaces' <= spaces
    requires forall r :: r in spaces' ==> IsRoot(mem', info', r)
    requires forall t :: t in info' && t in info ==> info'[t] == info[t] || info'[t].owner == Leaked
    requires forall t :: t in info' && t !in info ==> info'[t].owner.Space? && Rooted(mem', info', spaces', t)
    requires spaces' == spaces || forall t :: t in info && t in info' && info'[t].owner.Space? ==>
      info'[t].owner.root in spaces'
    requires forall r, path: seq<nat> :: r in spaces' && |path| < DEPTH && Reach(mem, r, path).To? ==>
      Reach(mem', r, path) == Reach(mem, r, path)
    requires forall t :: t in info && info[t].owner == Shared ==> t in info' && info'[t] == info[t]
    ensures SpacesOk(mem', info', spaces', kernelRoot, kernel)
  {
    hide TreeOk, Reach;
    forall t | t in info'
      ensures Rooted(mem', info', spaces', t)
    {
      if t in info {
        assert Rooted(mem, info, spaces, t);
        if info'[t].owner.Space? {
          TreePath(mem, info, t);
        }
      }
    }
    forall r, i | r in spaces' && 0 <= i < kernel
      ensures SharesAt(mem', info', kernelRoot, r, i)
    {
      assert SharesAt(mem, info, kernelRoot, r, i);
      assert SharesAt(mem, info, kernelRoot, kernelRoot, i);
    }
  }

  lemma TreeKeys(mem: Memory, info: map<nat, Info>)
    requires TreeOk(mem, info, DEPTH)
    ensures mem.Keys == info.Keys && 0 !in mem
  {
  }

  lemma TreePath(mem: Memory, info: map<nat, Info>, t: nat)
    requires TreeOk(mem, info, DEPTH) && t in info
    ensures t in mem && |info[t].path| < DEPTH
  {
    assert TableOk(mem, info, DEPTH, t);
  }

  /** Writing the entry of one page. */
  lemma PageWrite(mem: Memory, info: map<nat, Info>, spaces: set<nat>, kernelRoot: nat, kernel: nat, root: nat,
      path: seq<nat>, t: nat, e: Entry)
    requires SpacesOk(mem, info, spaces, kernelRoot, kernel) && root in spaces && |path| == DEPTH && path[2] < ENTRIES
    requires Reach(mem, root, path[..2]) == To(t)
    ensures t in mem && |mem[t]| == ENTRIES && Leaf(mem, root, path) == mem[t][path[2]]
    ensures SpacesOk(Put(mem, t, path[2], e), info, spaces, kernelRoot, kernel)
    ensures OnlyPage(mem, Put(mem, t, path[2], e), spaces, root, kernel, path, e)
    ensures forall r, up: seq<nat> :: r in spaces && |up| < DEPTH ==>
      Reach(Put(mem, t, path[2], e), r, up) == Reach(mem, r, up)
  {
    hide TreeOk, Reach, Rooted, SharesAt;
    ReachInfo(mem, info, DEPTH, root, path[..2]);
    TreeSize(mem, info, DEPTH, t);
    LeafWrite(mem, info, DEPTH, t, path[2], e);
    PutSame(mem, info, DEPTH, t, path[2], e);
    SpacesSamePointers(mem, Put(mem, t, path[2], e), info, spaces, kernelRoot, kernel);
    assert path == path[..2] + [path[2]];
    forall r, page: seq<nat> | r in spaces && |page| == DEPTH
      ensures Leaf(Put(mem, t, path[2], e), r, page)
           == if page == path && (r == root || KernelPath(path, kernel)) then e else Leaf(mem, r, page)
    {
      WhoReaches(mem, info, spaces, kernelRoot, kernel, root, path[..2], r);
    }
  }

  /** Changing the permission bits of a directory entry. */
  lemma DirectoryWrite(mem: Memory, info: map<nat, Info>, spaces: set<nat>, kernelRoot: nat, kernel: nat, t: nat,
      i: nat, e: Entry)
    requires SpacesOk(mem, info, spaces, kernelRoot, kernel) && t in mem && t in info && |info[t].path| < 2
    requires i < ENTRIES && |mem[t]| == ENTRIES
    requires e.present == mem[t][i].present && e.frame == mem[t][i].frame
    ensures SpacesOk(Put(mem, t, i, e), info, spaces, kernelRoot, kernel)
    ensures SameLeaves(mem, Put(mem, t, i, e), spaces)
    ensures forall r, up: seq<nat> :: r in spaces && |up| < DEPTH ==>
      Reach(Put(mem, t, i, e), r, up) == Reach(mem, r, up)
  {
    hide TreeOk, Reach, Rooted, SharesAt;
    FlagWrite(mem, info, DEPTH, t, i, e);
    PutSame(mem, info, DEPTH, t, i, e);
    SpacesSamePointers(mem, Put(mem, t, i, e), info, spaces, kernelRoot, kernel);
  }

  // ---- a new table --------------------------------------------------------------------------------------

  lemma TableHung(mem: Memory, info: map<nat, Info>, spaces: set<nat>, kernelRoot: nat, kernel: nat, root: nat,
      path: seq<nat>, t: nat, i: nat, c: nat, e: Entry)
    requires SpacesOk(mem, info, spaces, kernelRoot, kernel) && CanHang(mem, info, DEPTH, t, i, c, e)
    requires root in spaces && |path| < 2 && Reach(mem, root, path) == To(t)
    ensures SpacesOk(Hang(mem, t, i, c, e), HangInfo(info, t, i, c), spaces, kernelRoot, kernel)
    ensures SameLeaves(mem, Hang(mem, t, i, c, e), spaces)
    ensures Reach(Hang(mem, t, i, c, e), root, path + [i]) == To(c)
    ensures info[t].owner == Space(root) && info[t].path == path
  {
    hide TreeOk, Reach, SharesAt;
    var mem', info' := Hang(mem, t, i, c, e), HangInfo(info, t, i, c);
    TreeKeys(mem, info);
    ReachInfo(mem, info, DEPTH, root, path);
    HangTree(mem, info, DEPTH, t, i, c, e);
    HangLeaf(mem, info, DEPTH, t, i, c, e);
    forall r, up: seq<nat> | r in spaces && |up| < DEPTH && Reach(mem, r, up).To?
      ensures Reach(mem', r, up) == Reach(mem, r, up)
    {
      HangReach(mem, info, DEPTH, t, i, c, e, r, up);
    }
    ReachChild(mem, info, root, path, i, t);
    HangReach(mem, info, DEPTH, t, i, c, e, root, path + [i]);
    RebuildSpaces(mem, mem', info, info', spaces, spaces, kernelRoot, kernel);
  }

  lemma ReachChild(mem: Memory, info: map<nat, Info>, root: nat, path: seq<nat>, i: nat, t: nat)
    requires TreeOk(mem, info, DEPTH) && IsRoot(mem, info, root) && |path| < 2 && Reach(mem, root, path) == To(t)
    requires i < ENTRIES
    ensures t in mem && t in info && |mem[t]| == ENTRIES && info[t].path == path
    ensures Reach(mem, root, path + [i]) == if mem[t][i].present then To(mem[t][i].frame) else Nil
    ensures mem[t][i].present ==> mem[t][i].frame in mem && mem[t][i].frame != 0
  {
    ReachInfo(mem, info, DEPTH, root, path);
    ChildIs(mem, info, DEPTH, t, i);
    assert (path + [i])[..|path|] == path;
    TreeAt(mem, info, DEPTH, t, i);
  }

  // ---- creating a space -----------------------------------------------------------------------------------

  /** A page directory holding the kernel's entries and nothing else. */
  function CopyDirectory(pd: Table, kernel: nat): (t: Table)
    requires kernel <= |pd| == ENTRIES
    ensures |t| == ENTRIES && forall i :: 0 <= i < ENTRIES ==> t[i] == if i < kernel then pd[i] else Zero
  {
    seq(ENTRIES, i requires 0 <= i < ENTRIES => if i < kernel then pd[i] else Zero)
  }

  /** A PDPT entry holds only the present bit and the address. */
  function PdptEntry(pd: nat): Entry { Entry(pd, true, false, false, false) }

  function CreatedMem(mem: Memory, kernelPd: nat, kernel: nat, pdpt: nat, pd: nat): Memory
    requires kernelPd in mem && kernel <= |mem[kernelPd]| == ENTRIES
  {
    mem[pdpt := ZeroTable()[0 := PdptEntry(pd)]][pd := CopyDirectory(mem[kernelPd], kernel)]
  }

  ghost function CreatedInfo(info: map<nat, Info>, pdpt: nat, pd: nat): map<nat, Info> {
    info[pdpt := Info(Space(pdpt), [])][pd := Info(Space(pdpt), [0])]
  }

  ghost predicate CanCreate(mem: Memory, info: map<nat, Info>, spaces: set<nat>, kernelRoot: nat, kernelPd: nat,
      kernel: nat, pdpt: nat, pd: nat) {
    && SpacesOk(mem, info, spaces, kernelRoot, kernel) && Reach(mem, kernelRoot, [0]) == To(kernelPd)
    && kernelPd in mem && |mem[kernelPd]| == ENTRIES
    && pdpt !in mem && pd !in mem && pdpt != pd && pdpt != 0 && pd != 0
  }

  /** Entry i of the kernel's directory leads to its shared table. */
  lemma KernelTable(mem: Memory, info: map<nat, Info>, spaces: set<nat>, kernelRoot: nat, kernelPd: nat, kernel: nat,
      i: nat)
    requires SpacesOk(mem, info, spaces, kernelRoot, kernel) && Reach(mem, kernelRoot, [0]) == To(kernelPd)
    requires i < kernel
    ensures kernelPd in mem && |mem[kernelPd]| == ENTRIES && mem[kernelPd][i].present
    ensures var t := mem[kernelPd][i].frame;
            t in mem && t in info && info[t] == Info(Shared, [0, i]) && Reach(mem, kernelRoot, [0, i]) == To(t)
  {
    hide TreeOk, Rooted;
    assert SharesAt(mem, info, kernelRoot, kernelRoot, i);
    assert [0] + [i] == [0, i];
    ReachChild(mem, info, kernelRoot, [0], i, kernelPd);
    ReachInfo(mem, info, DEPTH, kernelRoot, [0, i]);
  }

  lemma CreatedTree(mem: Memory, info: map<nat, Info>, spaces: set<nat>, kernelRoot: nat, kernelPd: nat, kernel: nat,
      pdpt: nat, pd: nat)
    requires CanCreate(mem, info, spaces, kernelRoot, kernelPd, kernel, pdpt, pd)
    ensures TreeOk(CreatedMem(mem, kernelPd, kernel, pdpt, pd), CreatedInfo(info, pdpt, pd), DEPTH)
  {
    hide Reach, Rooted, SharesAt;
    var mem', info' := CreatedMem(mem, kernelPd, kernel, pdpt, pd), CreatedInfo(info, pdpt, pd);
    forall t | t in mem'
      ensures TableOk(mem', info', DEPTH, t)
    {
      if t in mem {
        assert TableOk(mem, info, DEPTH, t);
        forall i | 0 <= i < ENTRIES
          ensures EntryOk(mem', info', DEPTH, t, i)
        {
          assert EntryOk(mem, info, DEPTH, t, i);
        }
      } else if t == pd {
        forall i | 0 <= i < ENTRIES
          ensures EntryOk(mem', info', DEPTH, t, i)
        {
          if i < kernel {
            KernelTable(mem, info, spaces, kernelRoot, kernelPd, kernel, i);
          }
        }
      }
    }
  }

  /** Where paths of the new space lead. */
  lemma CreatedReach(mem: Memory, info: map<nat, Info>, spaces: set<nat>, kernelRoot: nat, kernelPd: nat, kernel: nat,
      pdpt: nat, pd: nat, path: seq<nat>)
    requires CanCreate(mem, info, spaces, kernelRoot, kernelPd, kernel, pdpt, pd) && |path| < DEPTH
    ensures Reach(CreatedMem(mem, kernelPd, kernel, pdpt, pd), pdpt, path)
         == if path == [] then To(pdpt)
            else if path == [0] then To(pd)
            else if |path| == 2 && KernelPath(path, kernel) then Reach(mem, kernelRoot, path)
            else Nil
  {
    hide TreeOk, SharesAt, Rooted;
    var mem' := CreatedMem(mem, kernelPd, kernel, pdpt, pd);
    if |path| == 1 {
      assert path[..0] == [];
      assert path[0] == 0 ==> path == [0];
    } else if |path| == 2 {
      assert path[..1] == [path[0]];
      CreatedReach(mem, info, spaces, kernelRoot, kernelPd, kernel, pdpt, pd, path[..1]);
      if KernelPath(path, kernel) {
        assert path == [0, path[1]];
        KernelTable(mem, info, spaces, kernelRoot, kernelPd, kernel, path[1]);
      }
    }
  }

  /** The new space maps the kernel's pages and nothing else; the old spaces are as they were. */
  lemma Created(mem: Memory, info: map<nat, Info>, spaces: set<nat>, kernelRoot: nat, kernelPd: nat, kernel: nat,
      pdpt: nat, pd: nat)
    requires CanCreate(mem, info, spaces, kernelRoot, kernelPd, kernel, pdpt, pd)
    ensures pdpt !in spaces
    ensures SpacesOk(CreatedMem(mem, kernelPd, kernel, pdpt, pd), CreatedInfo(info, pdpt, pd), spaces + {pdpt},
      kernelRoot, kernel)
    ensures SameLeaves(mem, CreatedMem(mem, kernelPd, kernel, pdpt, pd), spaces)
    ensures forall page: seq<nat> :: |page| == DEPTH ==>
      Leaf(CreatedMem(mem, kernelPd, kernel, pdpt, pd), pdpt, page) ==
        if KernelPath(page, kernel) then Leaf(mem, kernelRoot, page)
        else Zero
    ensures Reach(CreatedMem(mem, kernelPd, kernel, pdpt, pd), pdpt, [0]) == To(pd)
    ensures Reach(CreatedMem(mem, kernelPd, kernel, pdpt, pd), kernelRoot, [0]) == To(kernelPd)
  {
    hide TreeOk, Reach, CreatedMem;
    var mem', info' := CreatedMem(mem, kernelPd, kernel, pdpt, pd), CreatedInfo(info, pdpt, pd);
    CreatedTree(mem, info, spaces, kernelRoot, kernelPd, kernel, pdpt, pd);
    CreatedFacts(mem, info, kernelPd, kernel, pdpt, pd);
    forall r, path: seq<nat> | r in spaces && |path| < DEPTH
      ensures Reach(mem', r, path) == Reach(mem, r, path)
    {
      UntouchedReach(mem, mem', info, DEPTH, r, path);
    }
    forall r, page: seq<nat> | r in spaces && |page| == DEPTH
      ensures Leaf(mem', r, page) == Leaf(mem, r, page)
    {
      UntouchedLeaf(mem, mem', info, DEPTH, r, page);
    }
    forall path: seq<nat> | |path| < DEPTH
      ensures Reach(mem', pdpt, path) == if path == [] then To(pdpt) else if path == [0] then To(pd)
        else if |path| == 2 && KernelPath(path, kernel) then Reach(mem, kernelRoot, path) else Nil
    {
      CreatedReach(mem, info, spaces, kernelRoot, kernelPd, kernel, pdpt, pd, path);
    }
    CreatedOk(mem, info, spaces, kernelRoot, kernelPd, kernel, pdpt, pd, mem', info');
    forall page: seq<nat> | |page| == DEPTH
      ensures Leaf(mem', pdpt, page) == if KernelPath(page, kernel) then Leaf(mem, kernelRoot, page) else Zero
    {
      CreatedLeaf(mem, info, spaces, kernelRoot, kernel, mem', pdpt, page);
    }
  }

  lemma CreatedLeaf(mem: Memory, info: map<nat, Info>, spaces: set<nat>, kernelRoot: nat, kernel: nat, mem': Memory,
      pdpt: nat, page: seq<nat>)
    requires SpacesOk(mem, info, spaces, kernelRoot, kernel) && |page| == DEPTH
    requires forall t :: t in mem ==> t in mem' && mem'[t] == mem[t]
    requires Reach(mem', pdpt, page[..2]) ==
      if KernelPath(page[..2], kernel) then Reach(mem, kernelRoot, page[..2])
      else Nil
    ensures Leaf(mem', pdpt, page) == if KernelPath(page, kernel) then Leaf(mem, kernelRoot, page) else Zero
  {
    hide TreeOk, Reach, Rooted, SharesAt;
    ReachInfo(mem, info, DEPTH, kernelRoot, page[..2]);
    assert KernelPath(page[..2], kernel) == KernelPath(page, kernel);
  }

  lemma CreatedFacts(mem: Memory, info: map<nat, Info>, kernelPd: nat, kernel: nat, pdpt: nat, pd: nat)
    requires TreeOk(mem, info, DEPTH) && kernelPd in mem && kernel <= |mem[kernelPd]| == ENTRIES && pdpt !in mem
    requires pd !in mem && pdpt != pd
    ensures mem.Keys == info.Keys
    ensures CreatedMem(mem, kernelPd, kernel, pdpt, pd).Keys == mem.Keys + {pdpt, pd}
    ensures forall t :: t in mem ==>
      t in CreatedMem(mem, kernelPd, kernel, pdpt, pd) && CreatedMem(mem, kernelPd, kernel, pdpt, pd)[t] == mem[t]
  {
  }

  lemma CreatedRooted(mem: Memory, info: map<nat, Info>, spaces: set<nat>, kernelRoot: nat, kernelPd: nat, kernel: nat,
      pdpt: nat, pd: nat, mem': Memory, info': map<nat, Info>)
    requires CanCreate(mem, info, spaces, kernelRoot, kernelPd, kernel, pdpt, pd) && TreeOk(mem', info', DEPTH)
    requires mem'.Keys == mem.Keys + {pdpt, pd} && mem.Keys == info.Keys && info' == CreatedInfo(info, pdpt, pd)
    requires forall r, path: seq<nat> :: r in spaces && |path| < DEPTH ==> Reach(mem', r, path) == Reach(mem, r, path)
    requires forall path: seq<nat> :: |path| < DEPTH ==>
      Reach(mem', pdpt, path) == if path == [] then To(pdpt) else if path == [0] then To(pd)
        else if |path| == 2 && KernelPath(path, kernel) then Reach(mem, kernelRoot, path) else Nil
    ensures forall t :: t in info' ==> Rooted(mem', info', spaces + {pdpt}, t)
  {
    hide TreeOk, Reach;
    forall t | t in info'
      ensures Rooted(mem', info', spaces + {pdpt}, t)
    {
      if t in info {
        assert Rooted(mem, info, spaces, t);
        TreePath(mem, info, t);
      }
    }
  }

  lemma CreatedShares(mem: Memory, info: map<nat, Info>, spaces: set<nat>, kernelRoot: nat, kernelPd: nat, kernel: nat,
      pdpt: nat, pd: nat, mem': Memory, info': map<nat, Info>)
    requires CanCreate(mem, info, spaces, kernelRoot, kernelPd, kernel, pdpt, pd) && TreeOk(mem', info', DEPTH)
    requires mem'.Keys == mem.Keys + {pdpt, pd} && mem.Keys == info.Keys && info' == CreatedInfo(info, pdpt, pd)
    requires forall r, path: seq<nat> :: r in spaces && |path| < DEPTH ==> Reach(mem', r, path) == Reach(mem, r, path)
    requires forall path: seq<nat> :: |path| < DEPTH ==>
      Reach(mem', pdpt, path) == if path == [] then To(pdpt) else if path == [0] then To(pd)
        else if |path| == 2 && KernelPath(path, kernel) then Reach(mem, kernelRoot, path) else Nil
    ensures forall r, i :: r in spaces + {pdpt} && 0 <= i < kernel ==> SharesAt(mem', info', kernelRoot, r, i)
  {
    hide TreeOk, Reach;
    forall r, i | r in spaces + {pdpt} && 0 <= i < kernel
      ensures SharesAt(mem', info', kernelRoot, r, i)
    {
      KernelTable(mem, info, spaces, kernelRoot, kernelPd, kernel, i);
      if r != pdpt {
        assert SharesAt(mem, info, kernelRoot, r, i);
      }
    }
  }

  lemma CreatedOk(mem: Memory, info: map<nat, Info>, spaces: set<nat>, kernelRoot: nat, kernelPd: nat, kernel: nat,
      pdpt: nat, pd: nat, mem': Memory, info': map<nat, Info>)
    requires CanCreate(mem, info, spaces, kernelRoot, kernelPd, kernel, pdpt, pd) && TreeOk(mem', info', DEPTH)
    requires mem'.Keys == mem.Keys + {pdpt, pd} && mem.Keys == info.Keys && info' == CreatedInfo(info, pdpt, pd)
    requires forall r, path: seq<nat> :: r in spaces && |path| < DEPTH ==> Reach(mem', r, path) == Reach(mem, r, path)
    requires forall path: seq<nat> :: |path| < DEPTH ==>
      Reach(mem', pdpt, path) == if path == [] then To(pdpt) else if path == [0] then To(pd)
        else if |path| == 2 && KernelPath(path, kernel) then Reach(mem, kernelRoot, path) else Nil
    ensures SpacesOk(mem', info', spaces + {pdpt}, kernelRoot, kernel)
  {
    CreatedRooted(mem, info, spaces, kernelRoot, kernelPd, kernel, pdpt, pd, mem', info');
    CreatedShares(mem, info, spaces, kernelRoot, kernelPd, kernel, pdpt, pd, mem', info');
    hide TreeOk, Rooted, SharesAt;
  }

  // ---- destroying a space ---------------------------------------------------------------------------------

  /** The frames paging_destroy_address_space returns: the root, the first directory, and the tables
      that directory holds past the kernel's. */
  function Freed(mem: Memory, root: nat, pd: nat, kernel: nat): set<nat>
    requires pd in mem && |mem[pd]| == ENTRIES
  {
    {root, pd} + set i | kernel <= i < ENTRIES && mem[pd][i].present :: mem[pd][i].frame
  }

  ghost function Owned(info: map<nat, Info>, root: nat): set<nat> {
    set t | t in info && info[t].owner == Space(root)
  }

  /** Nothing of the space lies above the first gigabyte. */
  predicate Low(mem: Memory, root: nat)
    requires root in mem && |mem[root]| == ENTRIES
  {
    forall a :: 1 <= a < ENTRIES ==> !mem[root][a].present
  }

  /** A table of the space is returned exactly when it lies in the first gigabyte. */
  lemma FreedIs(mem: Memory, info: map<nat, Info>, spaces: set<nat>, kernelRoot: nat, kernel: nat, root: nat, pd: nat,
      t: nat)
    requires SpacesOk(mem, info, spaces, kernelRoot, kernel) && root in spaces && Reach(mem, root, [0]) == To(pd)
    ensures pd in mem && |mem[pd]| == ENTRIES
    ensures t in Freed(mem, root, pd, kernel) <==>
      t in Owned(info, root) && (info[t].path == [] || info[t].path[0] == 0)
  {
    hide TreeOk, Reach;
    ReachInfo(mem, info, DEPTH, root, [0]);
    TreeSize(mem, info, DEPTH, pd);
    if t in Freed(mem, root, pd, kernel) && t != root && t != pd {
      var i :| kernel <= i < ENTRIES && mem[pd][i].present && mem[pd][i].frame == t;
      PastKernel(mem, info, spaces, kernelRoot, kernel, root, pd, i);
    }
    if t in Owned(info, root) && (info[t].path == [] || info[t].path[0] == 0) {
      OwnedIsFreed(mem, info, spaces, kernelRoot, kernel, root, pd, t);
    }
  }

  lemma PastKernel(mem: Memory, info: map<nat, Info>, spaces: set<nat>, kernelRoot: nat, kernel: nat, root: nat,
      pd: nat, i: nat)
    requires SpacesOk(mem, info, spaces, kernelRoot, kernel) && root in spaces && Reach(mem, root, [0]) == To(pd)
    requires kernel <= i < ENTRIES && pd in mem && |mem[pd]| == ENTRIES && mem[pd][i].present
    ensures mem[pd][i].frame in info && info[mem[pd][i].frame] == Info(Space(root), [0, i])
  {
    hide TreeOk, Rooted, SharesAt;
    assert [0] + [i] == [0, i];
    ReachChild(mem, info, root, [0], i, pd);
    ReachInfo(mem, info, DEPTH, root, [0, i]);
  }

  lemma OwnedIsFreed(mem: Memory, info: map<nat, Info>, spaces: set<nat>, kernelRoot: nat, kernel: nat, root: nat,
      pd: nat, t: nat)
    requires SpacesOk(mem, info, spaces, kernelRoot, kernel) && root in spaces && Reach(mem, root, [0]) == To(pd)
    requires t in Owned(info, root) && (info[t].path == [] || info[t].path[0] == 0) && pd in mem && |mem[pd]| == ENTRIES
    ensures t in Freed(mem, root, pd, kernel)
  {
    hide TreeOk;
    assert Rooted(mem, info, spaces, t);
    TreePath(mem, info, t);
    var path := info[t].path;
    if |path| == 1 {
      assert path == [0];
    } else if |path| == 2 {
      var i := path[1];
      assert path == [0, i] && path[..1] == [0];
      assert i < kernel ==> SharesAt(mem, info, kernelRoot, root, i);
      assert Child(mem, pd, i) == To(t);
    }
  }

  /** So the space gives back all its tables if and only if it maps nothing above the first gigabyte. */
  lemma FreedIsAll(mem: Memory, info: map<nat, Info>, spaces: set<nat>, kernelRoot: nat, kernel: nat, root: nat,
      pd: nat)
    requires SpacesOk(mem, info, spaces, kernelRoot, kernel) && root in spaces && Reach(mem, root, [0]) == To(pd)
    ensures pd in mem && |mem[pd]| == ENTRIES && root in mem && |mem[root]| == ENTRIES
    ensures Freed(mem, root, pd, kernel) <= Owned(info, root)
    ensures Freed(mem, root, pd, kernel) == Owned(info, root) <==> Low(mem, root)
  {
    hide TreeOk, Rooted, SharesAt, Reach, Freed;
    FreedIs(mem, info, spaces, kernelRoot, kernel, root, pd, root);
    TreeSize(mem, info, DEPTH, root);
    var freed, owned := Freed(mem, root, pd, kernel), Owned(info, root);
    forall t
      ensures t in freed <==> t in owned && (info[t].path == [] || info[t].path[0] == 0)
    {
      FreedIs(mem, info, spaces, kernelRoot, kernel, root, pd, t);
    }
    if Low(mem, root) {
      forall t | t in owned
        ensures info[t].path == [] || info[t].path[0] == 0
      {
        LowPath(mem, info, spaces, kernelRoot, kernel, root, t);
      }
    } else {
      var a :| 1 <= a < ENTRIES && mem[root][a].present;
      HighTable(mem, info, spaces, kernelRoot, kernel, root, a);
      assert mem[root][a].frame in owned && mem[root][a].frame !in freed;
    }
  }

  lemma LowPath(mem: Memory, info: map<nat, Info>, spaces: set<nat>, kernelRoot: nat, kernel: nat, root: nat, t: nat)
    requires SpacesOk(mem, info, spaces, kernelRoot, kernel) && root in spaces && root in mem && |mem[root]| == ENTRIES
    requires Low(mem, root)
    requires t in Owned(info, root)
    ensures info[t].path == [] || info[t].path[0] == 0
  {
    hide TreeOk, SharesAt;
    assert Rooted(mem, info, spaces, t);
    TreePath(mem, info, t);
    var path := info[t].path;
    if path != [] {
      assert path[..1] == [path[0]];
      assert Reach(mem, root, path[..1]).To? by {
        assert |path| == 1 ==> path[..1] == path;
      }
      assert path[..1][..0] == [] && Reach(mem, root, []) == To(root);
      assert Child(mem, root, path[0]).To?;
    }
  }

  lemma HighTable(mem: Memory, info: map<nat, Info>, spaces: set<nat>, kernelRoot: nat, kernel: nat, root: nat, a: nat)
    requires SpacesOk(mem, info, spaces, kernelRoot, kernel) && root in spaces && root in mem && |mem[root]| == ENTRIES
    requires 1 <= a < ENTRIES && mem[root][a].present
    ensures mem[root][a].frame in Owned(info, root) && info[mem[root][a].frame].path == [a]
  {
    hide TreeOk, Rooted, SharesAt;
    ReachChild(mem, info, root, [], a, root);
    assert [] + [a] == [a];
    ReachInfo(mem, info, DEPTH, root, [a]);
  }

  ghost function DestroyedInfo(info: map<nat, Info>, freed: set<nat>, root: nat): map<nat, Info> {
    map t | t in info && t !in freed :: if info[t].owner == Space(root) then Info(Leaked, info[t].path) else info[t]
  }

  lemma DestroyedTree(mem: Memory, info: map<nat, Info>, spaces: set<nat>, kernelRoot: nat, kernel: nat, root: nat,
      pd: nat)
    requires SpacesOk(mem, info, spaces, kernelRoot, kernel) && root in spaces && Reach(mem, root, [0]) == To(pd)
    requires pd in mem && |mem[pd]| == ENTRIES
    ensures TreeOk(mem - Freed(mem, root, pd, kernel), DestroyedInfo(info, Freed(mem, root, pd, kernel), root), DEPTH)
  {
    hide Rooted, SharesAt, Reach, Freed;
    var freed := Freed(mem, root, pd, kernel);
    var mem', info' := mem - freed, DestroyedInfo(info, freed, root);
    forall t
      ensures t in freed <==> t in Owned(info, root) && (info[t].path == [] || info[t].path[0] == 0)
    {
      FreedIs(mem, info, spaces, kernelRoot, kernel, root, pd, t);
    }
    forall t | t in mem'
      ensures TableOk(mem', info', DEPTH, t)
    {
      assert TableOk(mem, info, DEPTH, t);
      forall i | 0 <= i < ENTRIES
        ensures EntryOk(mem', info', DEPTH, t, i)
      {
        assert EntryOk(mem, info, DEPTH, t, i);
      }
    }
  }

  /** Destroying a space leaves every other space as it was. */
  lemma Destroyed(mem: Memory, info: map<nat, Info>, spaces: set<nat>, kernelRoot: nat, kernel: nat, root: nat, pd: nat)
    requires SpacesOk(mem, info, spaces, kernelRoot, kernel) && root in spaces && root != kernelRoot
    requires Reach(mem, root, [0]) == To(pd)
    ensures pd in mem && |mem[pd]| == ENTRIES
    ensures SpacesOk(mem - Freed(mem, root, pd, kernel), DestroyedInfo(info, Freed(mem, root, pd, kernel), root),
      spaces - {root}, kernelRoot, kernel)
    ensures SameLeaves(mem, mem - Freed(mem, root, pd, kernel), spaces - {root})
    ensures forall r, path: seq<nat> :: r in spaces - {root} && |path| < DEPTH ==>
      Reach(mem - Freed(mem, root, pd, kernel), r, path) == Reach(mem, r, path)
  {
    hide TreeOk, Reach, Freed;
    FreedIs(mem, info, spaces, kernelRoot, kernel, root, pd, root);
    var freed := Freed(mem, root, pd, kernel);
    var mem', info' := mem - freed, DestroyedInfo(info, freed, root);
    TreeKeys(mem, info);
    DestroyedTree(mem, info, spaces, kernelRoot, kernel, root, pd);
    forall t
      ensures t in freed ==> t in Owned(info, root)
    {
      FreedIs(mem, info, spaces, kernelRoot, kernel, root, pd, t);
    }
    forall r | r in spaces - {root}
      ensures Untouched(mem, mem', info, r)
    {
    }
    forall r, path: seq<nat> | r in spaces - {root} && |path| < DEPTH
      ensures Reach(mem', r, path) == Reach(mem, r, path)
    {
      UntouchedReach(mem, mem', info, DEPTH, r, path);
    }
    forall r, page: seq<nat> | r in spaces - {root} && |page| == DEPTH
      ensures Leaf(mem', r, page) == Leaf(mem, r, page)
    {
      UntouchedLeaf(mem, mem', info, DEPTH, r, page);
    }
    OwnersKnown(mem, info, spaces, kernelRoot, kernel);
    RebuildSpaces(mem, mem', info, info', spaces, spaces - {root}, kernelRoot, kernel);
  }

  lemma OwnersKnown(mem: Memory, info: map<nat, Info>, spaces: set<nat>, kernelRoot: nat, kernel: nat)
    requires SpacesOk(mem, info, spaces, kernelRoot, kernel)
    ensures forall t :: t in info && info[t].owner.Space? ==> info[t].owner.root in spaces
  {
    forall t | t in info && info[t].owner.Space?
      ensures info[t].owner.root in spaces
    {
      assert Rooted(mem, info, spaces, t);
    }
  }
}
