/**
 Radix page tables of any depth, as a map from table frames to tables of 512 entries.

 Every table carries a ghost label: the indices that lead to it, and the address space it belongs to.
 The labels are what make a write to one entry change one page of one address space: a table is
 reached by a single index path, in every space that reaches it at all.
 */
module PageTables {

  const ENTRIES: nat := 512

  /** A page-table entry: the frame it points to and the bits of it that the kernel uses. */
  datatype Entry = Entry(frame: nat, present: bool, write: bool, user: bool, nx: bool)

  type Table = seq<Entry>
  type Memory = map<nat, Table>

  const Zero: Entry := Entry(0, false, false, false, false)

  function ZeroTable(): (t: Table)
    ensures |t| == ENTRIES && forall i :: 0 <= i < ENTRIES ==> t[i] == Zero
  {
    seq(ENTRIES, _ => Zero)
  }

  datatype Ptr = Nil | To(table: nat)

  /** A table belongs to the address space with the given root, or is shared by all of them (the
      kernel's), or is part of a space that no longer exists. */
  datatype Owner = Space(root: nat) | Shared | Leaked

  datatype Info = Info(owner: Owner, path: seq<nat>)

  datatype Flags = Flags(present: bool, write: bool, user: bool, nx: bool)

  function Make(frame: nat, f: Flags): Entry { Entry(frame, f.present, f.write, f.user, f.nx) }

  // ---- walking ---------------------------------------------------------------------------------------

  /** Follow one entry. */
  function Child(mem: Memory, t: nat, i: nat): Ptr {
    if t in mem && i < |mem[t]| && mem[t][i].present && mem[t][i].frame in mem then To(mem[t][i].frame) else Nil
  }

  /** The table that a path of indices leads to. */
  function Reach(mem: Memory, root: nat, path: seq<nat>): Ptr {
    if path == [] then (if root in mem then To(root) else Nil)
    else
      match Reach(mem, root, path[..|path| - 1])
      case Nil => Nil
      case To(t) => Child(mem, t, path[|path| - 1])
  }

  function EntryAt(mem: Memory, p: Ptr, i: nat): Entry {
    if p.To? && p.table in mem && i < |mem[p.table]| then mem[p.table][i] else Zero
  }

  /** The entry that maps a page: all zero when a table is missing on the way. */
  function Leaf(mem: Memory, root: nat, page: seq<nat>): Entry
    requires page != []
  {
    EntryAt(mem, Reach(mem, root, page[..|page| - 1]), page[|page| - 1])
  }

  // ---- the invariant ----------------------------------------------------------------------------------

  /** Where entry i of table t may point. */
  ghost predicate EntryOk(mem: Memory, info: map<nat, Info>, depth: nat, t: nat, i: nat)
    requires t in mem && t in info && i < |mem[t]|
  {
    |info[t].path| + 1 < depth ==>
      if mem[t][i].present then
        var c := mem[t][i].frame;
        && c in mem && c in info && info[c].path == info[t].path + [i]
        && (info[c].owner == info[t].owner || info[c].owner == Shared)
      else mem[t][i].frame == 0
  }

  ghost predicate TableOk(mem: Memory, info: map<nat, Info>, depth: nat, t: nat)
    requires t in mem && t in info
  {
    && |mem[t]| == ENTRIES && |info[t].path| < depth
    && forall i {:trigger EntryOk(mem, info, depth, t, i)} :: 0 <= i < ENTRIES ==> EntryOk(mem, info, depth, t, i)
  }

  ghost predicate TreeOk(mem: Memory, info: map<nat, Info>, depth: nat) {
    && mem.Keys == info.Keys && 0 !in mem
    && forall t {:trigger TableOk(mem, info, depth, t)} :: t in mem ==> TableOk(mem, info, depth, t)
  }

  ghost predicate IsRoot(mem: Memory, info: map<nat, Info>, root: nat) {
    root in mem && root in info && info[root] == Info(Space(root), [])
  }

  lemma TreeAt(mem: Memory, info: map<nat, Info>, depth: nat, t: nat, i: nat)
    requires TreeOk(mem, info, depth) && t in mem && i < ENTRIES
    ensures t in info && |mem[t]| == ENTRIES && |info[t].path| < depth && EntryOk(mem, info, depth, t, i)
  {
    assert TableOk(mem, info, depth, t);
  }

  /** A table reached by a path has that path as its label, and belongs to the space or to all. */
  lemma {:induction false} ReachInfo(mem: Memory, info: map<nat, Info>, depth: nat, root: nat, path: seq<nat>)
    requires TreeOk(mem, info, depth) && IsRoot(mem, info, root) && |path| < depth
    ensures Reach(mem, root, path).To? ==>
      var t := Reach(mem, root, path).table;
      t in mem && t in info && info[t].path == path && (info[t].owner == Space(root) || info[t].owner == Shared)
  {
    hide TreeOk;
    if path != [] && Reach(mem, root, path).To? {
      var up, i := path[..|path| - 1], path[|path| - 1];
      ReachInfo(mem, info, depth, root, up);
      var t := Reach(mem, root, up).table;
      assert path == up + [i];
      TreeSize(mem, info, depth, t);
      TreeAt(mem, info, depth, t, i);
    }
  }

  lemma TreeSize(mem: Memory, info: map<nat, Info>, depth: nat, t: nat)
    requires TreeOk(mem, info, depth) && t in mem
    ensures t in info && |mem[t]| == ENTRIES
  {
    assert TableOk(mem, info, depth, t);
  }

  /** Entries are followed exactly when they are present. */
  lemma ChildIs(mem: Memory, info: map<nat, Info>, depth: nat, t: nat, i: nat)
    requires TreeOk(mem, info, depth) && t in mem && i < ENTRIES && t in info && |info[t].path| + 1 < depth
    ensures |mem[t]| == ENTRIES && Child(mem, t, i) == if mem[t][i].present then To(mem[t][i].frame) else Nil
    ensures !mem[t][i].present <==> mem[t][i].frame == 0
  {
    TreeAt(mem, info, depth, t, i);
    assert 0 !in mem;
  }

  // ---- three kinds of writes ----------------------------------------------------------------------------

  function Put(mem: Memory, t: nat, i: nat, e: Entry): Memory
    requires t in mem && i < |mem[t]|
  {
    mem[t := mem[t][i := e]]
  }

  /** A write that leaves every pointer of the upper levels alone. */
  ghost predicate SamePointers(mem: Memory, mem': Memory, info: map<nat, Info>, depth: nat) {
    && mem.Keys == mem'.Keys == info.Keys
    && (forall t :: t in mem ==> |mem'[t]| == |mem[t]|)
    && (forall t, i {:trigger mem'[t][i]} :: t in mem && 0 <= i < |mem[t]| && |info[t].path| + 1 < depth ==>
          mem'[t][i].present == mem[t][i].present && mem'[t][i].frame == mem[t][i].frame)
  }

  lemma SamePointersTree(mem: Memory, mem': Memory, info: map<nat, Info>, depth: nat)
    requires TreeOk(mem, info, depth) && SamePointers(mem, mem', info, depth)
    ensures TreeOk(mem', info, depth)
  {
    forall t | t in mem'
      ensures TableOk(mem', info, depth, t)
    {
      assert TableOk(mem, info, depth, t);
      forall i | 0 <= i < ENTRIES
        ensures EntryOk(mem', info, depth, t, i)
      {
        assert EntryOk(mem, info, depth, t, i);
      }
    }
  }

  lemma {:induction false} SamePointersReach(mem: Memory, mem': Memory, info: map<nat, Info>, depth: nat, root: nat,
      path: seq<nat>)
    requires TreeOk(mem, info, depth) && SamePointers(mem, mem', info, depth) && IsRoot(mem, info, root)
    requires |path| < depth
    ensures Reach(mem', root, path) == Reach(mem, root, path)
  {
    hide TreeOk;
    if path != [] {
      var up, i := path[..|path| - 1], path[|path| - 1];
      SamePointersReach(mem, mem', info, depth, root, up);
      ReachInfo(mem, info, depth, root, up);
    }
  }

  lemma PutSame(mem: Memory, info: map<nat, Info>, depth: nat, t: nat, i: nat, e: Entry)
    requires TreeOk(mem, info, depth) && t in mem && i < ENTRIES
    ensures t in info && |mem[t]| == ENTRIES
    ensures |info[t].path| + 1 < depth ==>
      e.present == mem[t][i].present && e.frame == mem[t][i].frame ==> SamePointers(mem, Put(mem, t, i, e), info, depth)
    ensures |info[t].path| + 1 >= depth ==> SamePointers(mem, Put(mem, t, i, e), info, depth)
  {
    TreeSize(mem, info, depth, t);
  }

  /** A write to a lowest-level table changes the one page it stands for, in the spaces that reach the
      table, and nothing else anywhere. */
  lemma LeafWrite(mem: Memory, info: map<nat, Info>, depth: nat, t: nat, i: nat, e: Entry)
    requires TreeOk(mem, info, depth) && t in mem && t in info && |info[t].path| + 1 == depth && i < ENTRIES
    ensures |mem[t]| == ENTRIES && TreeOk(Put(mem, t, i, e), info, depth)
    ensures forall root, page: seq<nat> :: IsRoot(mem, info, root) && |page| == depth ==>
      Leaf(Put(mem, t, i, e), root, page)
      == if page == info[t].path + [i] && Reach(mem, root, info[t].path) == To(t) then e else Leaf(mem, root, page)
  {
    hide TreeOk, Reach;
    PutSame(mem, info, depth, t, i, e);
    var mem' := Put(mem, t, i, e);
    SamePointersTree(mem, mem', info, depth);
    forall root, page: seq<nat> | IsRoot(mem, info, root) && |page| == depth
      ensures Leaf(mem', root, page)
           == if page == info[t].path + [i] && Reach(mem, root, info[t].path) == To(t) then e else Leaf(mem, root, page)
    {
      var up := page[..depth - 1];
      SamePointersReach(mem, mem', info, depth, root, up);
      ReachInfo(mem, info, depth, root, up);
      assert page == up + [page[depth - 1]];
    }
  }

  /** Changing the permission bits of an upper-level entry changes no translation. */
  lemma FlagWrite(mem: Memory, info: map<nat, Info>, depth: nat, t: nat, i: nat, e: Entry)
    requires TreeOk(mem, info, depth) && t in mem && t in info && |info[t].path| + 1 < depth && i < ENTRIES
    requires |mem[t]| == ENTRIES
    requires e.present == mem[t][i].present && e.frame == mem[t][i].frame
    ensures TreeOk(Put(mem, t, i, e), info, depth)
    ensures forall root, path: seq<nat> :: IsRoot(mem, info, root) && |path| < depth ==>
      Reach(Put(mem, t, i, e), root, path) == Reach(mem, root, path)
    ensures forall root, page: seq<nat> :: IsRoot(mem, info, root) && |page| == depth ==>
      Leaf(Put(mem, t, i, e), root, page) == Leaf(mem, root, page)
  {
    hide TreeOk, Reach;
    PutSame(mem, info, depth, t, i, e);
    var mem' := Put(mem, t, i, e);
    SamePointersTree(mem, mem', info, depth);
    forall root, path: seq<nat> | IsRoot(mem, info, root) && |path| < depth
      ensures Reach(mem', root, path) == Reach(mem, root, path)
    {
      SamePointersReach(mem, mem', info, depth, root, path);
    }
    forall root, page: seq<nat> | IsRoot(mem, info, root) && |page| == depth
      ensures Leaf(mem', root, page) == Leaf(mem, root, page)
    {
      var up := page[..depth - 1];
      SamePointersReach(mem, mem', info, depth, root, up);
      ReachInfo(mem, info, depth, root, up);
    }
  }

  /** A space is untouched when the tables it may reach are. */
  ghost predicate Untouched(mem: Memory, mem': Memory, info: map<nat, Info>, root: nat) {
    forall t :: t in mem && t in info && (info[t].owner == Space(root) || info[t].owner == Shared) ==>
      t in mem' && mem'[t] == mem[t]
  }

  lemma {:induction false} UntouchedReach(mem: Memory, mem': Memory, info: map<nat, Info>, depth: nat, root: nat,
      path: seq<nat>)
    requires TreeOk(mem, info, depth) && IsRoot(mem, info, root) && Untouched(mem, mem', info, root) && |path| < depth
    ensures Reach(mem', root, path) == Reach(mem, root, path)
  {
    hide TreeOk;
    if path != [] {
      var up, i := path[..|path| - 1], path[|path| - 1];
      UntouchedReach(mem, mem', info, depth, root, up);
      ReachInfo(mem, info, depth, root, up);
      if Reach(mem, root, up).To? && i < ENTRIES {
        TreeAt(mem, info, depth, Reach(mem, root, up).table, i);
      } else if Reach(mem, root, up).To? {
        TreeSize(mem, info, depth, Reach(mem, root, up).table);
      }
    }
  }

  lemma UntouchedLeaf(mem: Memory, mem': Memory, info: map<nat, Info>, depth: nat, root: nat, page: seq<nat>)
    requires TreeOk(mem, info, depth) && IsRoot(mem, info, root) && Untouched(mem, mem', info, root)
    requires |page| == depth > 0
    ensures Leaf(mem', root, page) == Leaf(mem, root, page)
  {
    hide TreeOk, Reach;
    UntouchedReach(mem, mem', info, depth, root, page[..depth - 1]);
    ReachInfo(mem, info, depth, root, page[..depth - 1]);
  }

  // ---- growing ------------------------------------------------------------------------------------------

  /** A fresh, zeroed table c hung under entry i of t. */
  function Hang(mem: Memory, t: nat, i: nat, c: nat, e: Entry): Memory
    requires t in mem && i < |mem[t]|
  {
    mem[c := ZeroTable()][t := mem[t][i := e]]
  }

  ghost function HangInfo(info: map<nat, Info>, t: nat, i: nat, c: nat): map<nat, Info>
    requires t in info
  {
    info[c := Info(info[t].owner, info[t].path + [i])]
  }

  ghost predicate CanHang(mem: Memory, info: map<nat, Info>, depth: nat, t: nat, i: nat, c: nat, e: Entry) {
    && TreeOk(mem, info, depth) && t in mem && t in info && i < ENTRIES && |mem[t]| == ENTRIES
    && |info[t].path| + 1 < depth && !mem[t][i].present
    && c !in mem && c != 0 && e.present && e.frame == c
  }

  lemma HangTree(mem: Memory, info: map<nat, Info>, depth: nat, t: nat, i: nat, c: nat, e: Entry)
    requires CanHang(mem, info, depth, t, i, c, e)
    ensures TreeOk(Hang(mem, t, i, c, e), HangInfo(info, t, i, c), depth)
  {
    var mem', info' := Hang(mem, t, i, c, e), HangInfo(info, t, i, c);
    forall u | u in mem'
      ensures TableOk(mem', info', depth, u)
    {
      assert TableOk(mem, info, depth, t);
      if u != c {
        assert TableOk(mem, info, depth, u);
        forall j | 0 <= j < ENTRIES
          ensures EntryOk(mem', info', depth, u, j)
        {
          assert EntryOk(mem, info, depth, u, j);
        }
      }
    }
  }

  /** Paths that led somewhere lead to the same place; only the new table becomes reachable. */
  lemma {:induction false} HangReach(mem: Memory, info: map<nat, Info>, depth: nat, t: nat, i: nat, c: nat, e: Entry,
      root: nat, path: seq<nat>)
    requires CanHang(mem, info, depth, t, i, c, e) && IsRoot(mem, info, root) && |path| < depth
    ensures Reach(Hang(mem, t, i, c, e), root, path)
         == if Reach(mem, root, path) == Nil && path == info[t].path + [i]
           && Reach(mem, root, info[t].path) == To(t) then To(c)
            else Reach(mem, root, path)
  {
    hide TreeOk;
    var mem' := Hang(mem, t, i, c, e);
    if path != [] {
      var up, j := path[..|path| - 1], path[|path| - 1];
      assert path == up + [j];
      HangReach(mem, info, depth, t, i, c, e, root, up);
      ReachInfo(mem, info, depth, root, up);
      HangReachStep(mem, info, depth, t, i, c, e, root, up, j);
    }
  }

  lemma HangReachStep(mem: Memory, info: map<nat, Info>, depth: nat, t: nat, i: nat, c: nat, e: Entry, root: nat,
      up: seq<nat>, j: nat)
    requires CanHang(mem, info, depth, t, i, c, e) && |up| + 1 < depth
    requires Reach(mem, root, up).To? ==>
      var u := Reach(mem, root, up).table; u in mem && u in info && info[u].path == up
    requires Reach(Hang(mem, t, i, c, e), root, up)
          == if Reach(mem, root, up) == Nil && up == info[t].path + [i] && Reach(mem, root, info[t].path) == To(t)
             then To(c) else Reach(mem, root, up)
    ensures Reach(mem, root, up).To? ==>
      Child(Hang(mem, t, i, c, e), Reach(mem, root, up).table, j)
      == if Reach(mem, root, up) == To(t) && j == i then To(c) else Child(mem, Reach(mem, root, up).table, j)
    ensures Child(Hang(mem, t, i, c, e), c, j) == Nil
    ensures Reach(mem, root, up) == To(t) ==> up == info[t].path
    ensures up + [j] == info[t].path + [i] <==> up == info[t].path && j == i
  {
    assert up + [j] == info[t].path + [i] ==>
      (up + [j])[|up|] == (info[t].path + [i])[|up|] && (up + [j])[..|up|] == (info[t].path + [i])[..|up|];
    if Reach(mem, root, up).To? {
      var u := Reach(mem, root, up).table;
      assert TableOk(mem, info, depth, u);
      if j < ENTRIES {
        assert EntryOk(mem, info, depth, u, j);
      }
    }
  }

  /** So no page changes its meaning in any space. */
  lemma HangLeaf(mem: Memory, info: map<nat, Info>, depth: nat, t: nat, i: nat, c: nat, e: Entry)
    requires CanHang(mem, info, depth, t, i, c, e)
    ensures forall root, page: seq<nat> :: IsRoot(mem, info, root) && |page| == depth ==>
      Leaf(Hang(mem, t, i, c, e), root, page) == Leaf(mem, root, page)
  {
    hide TreeOk, Reach;
    forall root, page: seq<nat> | IsRoot(mem, info, root) && |page| == depth
      ensures Leaf(Hang(mem, t, i, c, e), root, page) == Leaf(mem, root, page)
    {
      var up := page[..depth - 1];
      HangReach(mem, info, depth, t, i, c, e, root, up);
      ReachInfo(mem, info, depth, root, up);
    }
  }

  // ---- effective permissions ------------------------------------------------------------------------------

  datatype Rights = Rights(write: bool, user: bool, nx: bool)

  /** What the levels above let through: write and user bits are ANDed, no-execute is ORed. The
      first `skip` levels hold no permission bits. */
  function Granted(mem: Memory, root: nat, path: seq<nat>, skip: nat): Rights
    decreases |path|
  {
    if |path| <= skip || path == [] then Rights(true, true, false)
    else
      var up, i := path[..|path| - 1], path[|path| - 1];
      var above, e := Granted(mem, root, up, skip), EntryAt(mem, Reach(mem, root, up), i);
      Rights(above.write && e.write, above.user && e.user, above.nx || e.nx)
  }

  /** What the processor allows on a page. */
  function Effective(mem: Memory, root: nat, page: seq<nat>, skip: nat): Entry
    requires page != []
  {
    var leaf, above := Leaf(mem, root, page), Granted(mem, root, page[..|page| - 1], skip);
    leaf.(write := leaf.write && above.write, user := leaf.user && above.user, nx := leaf.nx || above.nx)
  }
}
