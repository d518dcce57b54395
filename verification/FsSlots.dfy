/**
 Which blocks a growing file takes, slot by slot.

 Growth never renames a block that a file already names, and every slot it adds names a block that the
 bitmap on disk still calls free: that bitmap is not written before the directory is.
 */
module FsSlots {
  import opened FsLayout
  import opened FsModel
  import opened FsCrash
  import opened FsGrow

  /** Every live slot stays live and names the same block. */
  ghost predicate SlotsKept(diskA: Disk, a: Directory, diskB: Disk, b: Directory) {
    && |a| == |b|
    && forall j: nat, i: nat :: j < |a| && Live(a[j], i) ==>
         && Live(b[j], i) && |a[j].direct| == |b[j].direct| == 8
         && SlotBlock(diskB, b[j], i) == SlotBlock(diskA, a[j], i)
  }

  /** The bitmap on disk calls block b free. */
  ghost predicate Unmarked(disk: Disk, b: nat) {
    |disk| >= FS_DATA_START && b < 4096 && !Used(disk[FS_BITMAP_SECTOR], b)
  }

  /** Every slot that b has and a has not names a block that the bitmap on disk calls free. */
  ghost predicate NewSlots(a: Entry, disk: Disk, b: Entry) {
    forall i: nat :: Live(b, i) && !Live(a, i) ==> |b.direct| == 8 && Unmarked(disk, SlotBlock(disk, b, i))
  }

  /** Between c and c' file k went from s to s' bytes that count. */
  ghost predicate Gains(c: Core, s: nat, c': Core, s': nat, k: nat) {
    && k < |c.dir| == |c'.dir| && |c'.disk| == |c.disk| >= FS_DATA_START
    && c'.disk[FS_BITMAP_SECTOR] == c.disk[FS_BITMAP_SECTOR]
    && SlotsKept(c.disk, GrownDir(c, k, s), c'.disk, GrownDir(c', k, s'))
    && NewSlots(Grown(c, k, s), c'.disk, Grown(c', k, s'))
  }

  lemma GainsRefl(c: Core, k: nat, size: nat, m: FileMap)
    requires Growing(c, k, size, m)
    ensures Gains(c, size, c, size, k)
  {
    hide Behind, View;
    assert forall j :: 0 <= j < FS_MAX_FILES ==> EntryOk(GrownDir(c, k, size)[j]);
  }

  /** The bitmap and the owners in memory play no part in it. */
  lemma GainsFrame(c: Core, d: Core, s: nat, c': Core, s': nat, k: nat)
    requires Gains(d, s, c', s', k) && c.dir == d.dir && c.disk == d.disk
    ensures Gains(c, s, c', s', k)
  {
    hide Live, SlotBlock;
    assert GrownDir(c, k, s) == GrownDir(d, k, s);
  }

  lemma SlotsKeptTrans(diskA: Disk, a: Directory, diskB: Disk, b: Directory, diskC: Disk, c: Directory)
    requires SlotsKept(diskA, a, diskB, b) && SlotsKept(diskB, b, diskC, c)
    ensures SlotsKept(diskA, a, diskC, c)
  {
    hide Live;
    forall j: nat, i: nat | j < |a| && Live(a[j], i)
      ensures Live(c[j], i) && |a[j].direct| == |c[j].direct| == 8
      ensures SlotBlock(diskC, c[j], i) == SlotBlock(diskA, a[j], i)
    {
      assert Live(b[j], i);
    }
  }

  lemma GainsTrans(a: Core, sa: nat, b: Core, sb: nat, c: Core, sc: nat, k: nat)
    requires Gains(a, sa, b, sb, k) && Gains(b, sb, c, sc, k)
    ensures Gains(a, sa, c, sc, k)
  {
    hide Live;
    SlotsKeptTrans(a.disk, GrownDir(a, k, sa), b.disk, GrownDir(b, k, sb), c.disk, GrownDir(c, k, sc));
    forall i: nat | Live(Grown(c, k, sc), i) && !Live(Grown(a, k, sa), i)
      ensures |Grown(c, k, sc).direct| == 8 && Unmarked(c.disk, SlotBlock(c.disk, Grown(c, k, sc), i))
    {
      if Live(Grown(b, k, sb), i) {
        assert Live(GrownDir(b, k, sb)[k], i);
      }
    }
  }

  /** Giving up a growth leaves the blocks named before it, and at most a new indirect block. */
  lemma GainsShrink(c: Core, s: nat, c': Core, s': nat, k: nat)
    requires Gains(c, s, c', s', k) && s <= s'
    ensures Gains(c, s, c', s, k)
  {
    var dir', small := GrownDir(c', k, s'), GrownDir(c', k, s);
    assert Blocks(s) <= Blocks(s');
    forall j: nat, i: nat | j < |c.dir| && Live(GrownDir(c, k, s)[j], i)
      ensures Live(small[j], i) && SlotBlock(c'.disk, small[j], i) == SlotBlock(c'.disk, dir'[j], i)
    {
    }
    forall i: nat | Live(Grown(c', k, s), i) && !Live(Grown(c, k, s), i)
      ensures |Grown(c', k, s).direct| == 8 && Unmarked(c'.disk, SlotBlock(c'.disk, Grown(c', k, s), i))
    {
      assert Live(Grown(c', k, s'), i);
    }
  }

  /** A block write that no file notices keeps every slot. */
  lemma HarmlessSlots(total: nat, dir: Directory, bitmap: Sector, disk: Disk, owner: Owner, b: nat, s: Sector)
    requires Inv(total, dir, bitmap, disk, owner) && b < total && Harmless(dir, disk, owner, b, s)
    ensures SlotsKept(disk, dir, PutBlock(disk, b, s), dir)
  {
    forall j: nat, i: nat | j < |dir| && Live(dir[j], i)
      ensures SlotBlock(PutBlock(disk, b, s), dir[j], i) == SlotBlock(disk, dir[j], i) && |dir[j].direct| == 8
    {
      HarmlessBlocks(total, dir, bitmap, disk, owner, b, s, j, i);
      assert EntryOk(dir[j]);
    }
  }

  /** block_set in the entry itself. */
  lemma GainsDirect(c: Core, k: nat, size: nat, m: FileMap, b: nat)
    requires Growing(c, k, size, m) && b < c.total && Blocks(size) < 8
    ensures Gains(c, size, WithDirect(c, k, size, b), size, k)
  {
    hide Behind, View;
    var dir, dir' := GrownDir(c, k, size), GrownDir(WithDirect(c, k, size, b), k, size);
    forall j: nat, i: nat | j < |dir| && Live(dir[j], i)
      ensures Live(dir'[j], i) && |dir[j].direct| == |dir'[j].direct| == 8
      ensures SlotBlock(c.disk, dir'[j], i) == SlotBlock(c.disk, dir[j], i)
    {
      assert EntryOk(dir[j]);
    }
  }

  /** block_set taking an indirect block. */
  lemma GainsIndirect(c: Core, k: nat, size: nat, m: FileMap, b: nat)
    requires Growing(c, k, size, m) && c.dir[k].indirect == 0
    requires 0 < b < c.total <= 4096 && FS_DATA_START + c.total <= |c.disk| && Used(c.bitmap, b) && b !in c.owner
    requires Unmarked(c.disk, b)
    ensures Gains(c, size, WithIndirect(c, k, b), size, k)
  {
    hide Behind, View;
    var c' := WithIndirect(c, k, b);
    var dir, dir' := GrownDir(c, k, size), GrownDir(c', k, size);
    HarmlessSlots(c.total, dir, c.bitmap, c.disk, c.owner, b, Zeros(512));
    assert EntryOk(dir[k]);
    forall j: nat, i: nat | j < |dir| && Live(dir[j], i)
      ensures Live(dir'[j], i) && |dir[j].direct| == |dir'[j].direct| == 8
      ensures SlotBlock(c'.disk, dir'[j], i) == SlotBlock(c.disk, dir[j], i)
    {
      assert j == k ==> i < 8;
    }
  }

  /** block_set in the indirect block. */
  lemma GainsSlot(c: Core, k: nat, size: nat, m: FileMap, b: nat)
    requires Growing(c, k, size, m) && b < c.total && c.dir[k].indirect != 0
    requires 8 <= Blocks(size) < FS_MAX_BLOCKS && FS_DATA_START + c.dir[k].indirect < |c.disk|
    ensures Gains(c, size, WithSlot(c, k, size, b), size, k)
  {
    hide Inv, Behind, View, FileBytes, Harmless, BlockAt, Live, SlotsKept;
    var dir := GrownDir(c, k, size);
    var ib := c.dir[k].indirect;
    GrowingRange(c, k, size, m);
    assert CanGrow(c.total, dir, c.bitmap, c.disk, c.owner, k);
    StoreHarmless(c.total, dir, c.bitmap, c.disk, c.owner, k, b);
    HarmlessSlots(c.total, dir, c.bitmap, c.disk, c.owner, ib,
      StoreU32(c.disk[FS_DATA_START + ib], 4 * (Blocks(size) - 8), b));
  }

  /** The data of a fresh block. */
  lemma GainsFill(c: Core, k: nat, size: nat, m: FileMap, b: nat, chunk: seq<Byte>)
    requires Growing(c, k, size, m) && size % 512 == 0 && 0 < |chunk| <= 512 && Blocks(size) < FS_MAX_BLOCKS
    requires b < c.total <= 4096 && FS_DATA_START + c.total <= |c.disk| && b !in c.owner && Unmarked(c.disk, b)
    requires Blocks(size) >= 8 ==> c.dir[k].indirect != 0
    requires BlockAt(c.disk, Grown(c, k, size), Blocks(size)) == b
    ensures Gains(c, size, WithFill(c, k, size, b, chunk), size + |chunk|, k)
  {
    hide Behind, View, Patch, Inv, BlockAt;
    var c' := WithFill(c, k, size, b, chunk);
    var dir, dir' := GrownDir(c, k, size), GrownDir(c', k, size + |chunk|);
    HarmlessSlots(c.total, dir, c.bitmap, c.disk, c.owner, b, Patch(Zeros(512), 0, chunk));
    assert Blocks(size + |chunk|) == Blocks(size) + 1;
    forall j: nat, i: nat | j < |dir| && Live(dir[j], i)
      ensures Live(dir'[j], i) && |dir[j].direct| == |dir'[j].direct| == 8
      ensures SlotBlock(c'.disk, dir'[j], i) == SlotBlock(c.disk, dir[j], i)
    {
      ResizedSlot(c'.disk, dir[j], dir'[j].size, i);
    }
    FilledSlot(c, k, size, b, chunk);
  }

  /** The slot just past the end, in the indirect block or not, is not touched by the data written to b. */
  lemma FilledSlot(c: Core, k: nat, size: nat, b: nat, chunk: seq<Byte>)
    requires k < |c.dir| == FS_MAX_FILES && |c.dir[k].direct| == 8 && |chunk| <= 512 && Blocks(size) < FS_MAX_BLOCKS
    requires Inv(c.total, GrownDir(c, k, size), c.bitmap, c.disk, c.owner) && b < c.total && b !in c.owner
    requires Blocks(size) >= 8 ==> c.dir[k].indirect != 0
    requires BlockAt(c.disk, Grown(c, k, size), Blocks(size)) == b
    ensures BlockAt(WithFill(c, k, size, b, chunk).disk, Grown(c, k, size + |chunk|), Blocks(size)) == b
  {
    hide Patch;
    var e := Grown(c, k, size);
    if Blocks(size) >= 8 {
      assert Live(e, INDIRECT_SLOT);
      OwnedInRange(c.total, GrownDir(c, k, size), c.bitmap, c.disk, c.owner, k, INDIRECT_SLOT);
    }
  }

  /** Data added to the last block takes no block at all. */
  lemma GainsPatch(c: Core, k: nat, size: nat, m: FileMap, b: nat, chunk: seq<Byte>)
    requires Growing(c, k, size, m) && size % 512 != 0 && size % 512 + |chunk| <= 512
    requires b < c.total && FS_DATA_START + c.total <= |c.disk| && b == BlockAt(c.disk, Grown(c, k, size), size / 512)
    ensures Gains(c, size, WithPatch(c, size, b, chunk), size + |chunk|, k)
  {
    hide Inv, Behind, View, Patch, Harmless, FileBytes, BlockAt;
    var c', s := WithPatch(c, size, b, chunk), Patch(c.disk[FS_DATA_START + b], size % 512, chunk);
    var dir, dir' := GrownDir(c, k, size), GrownDir(c', k, size + |chunk|);
    InPlaceHarmless(c.total, dir, c.bitmap, c.disk, c.owner, k, chunk);
    HarmlessSlots(c.total, dir, c.bitmap, c.disk, c.owner, b, s);
    WithinLastBlock(size, |chunk|);
    forall j: nat, i: nat | j < |dir| && Live(dir[j], i)
      ensures Live(dir'[j], i) && |dir[j].direct| == |dir'[j].direct| == 8
      ensures SlotBlock(c'.disk, dir'[j], i) == SlotBlock(c.disk, dir[j], i)
    {
      ResizedSlot(c'.disk, dir[j], dir'[j].size, i);
    }
  }

  lemma ResizedSlot(disk: Disk, e: Entry, size: nat, i: nat)
    requires |e.direct| == 8
    ensures SlotBlock(disk, e.(size := size), i) == SlotBlock(disk, e, i)
  {
  }

  /** A block free in memory is free on disk, and so is a fresh one. */
  lemma FreeOnDisk(c: Core, k: nat, size: nat, m: FileMap, b: nat)
    requires Growing(c, k, size, m) && b < 4096 && !Used(c.bitmap, b)
    ensures Unmarked(c.disk, b)
  {
    hide Inv, View;
  }
}
