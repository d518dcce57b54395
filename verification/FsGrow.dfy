/**
 One file growing, step by step, while the disk side stays put.

 write_at allocates, links and fills blocks one at a time and only afterwards raises the size in
 the directory. The invariant that carries the loop is the full invariant of a directory in which
 the file already has the size written so far; the real entry keeps its old size until the end.
 */
module FsGrow {
  import opened FsLayout
  import opened FsModel
  import opened FsCrash
  import Bits

  /** A snapshot of the file system: memory side, disk, and ghost owners of both sides. */
  datatype Core = Core(total: nat, dir: Directory, bitmap: Sector, disk: Disk, owner: Owner, saved: Owner)

  /** Entry k as it would stand if `size` bytes of it counted. */
  ghost function Grown(c: Core, k: nat, size: nat): Entry
    requires k < |c.dir|
  {
    c.dir[k].(size := size, used := true)
  }

  ghost function GrownDir(c: Core, k: nat, size: nat): Directory
    requires k < |c.dir|
  {
    c.dir[k := Grown(c, k, size)]
  }

  /** Writing into file k has got as far as `size` bytes; a mount would still show m. */
  ghost predicate Growing(c: Core, k: nat, size: nat, m: FileMap) {
    && k < |c.dir| == FS_MAX_FILES && |c.dir[k].direct| == 8 && c.dir[k].size <= size
    && Inv(c.total, GrownDir(c, k, size), c.bitmap, c.disk, c.owner)
    && Behind(c.total, GrownDir(c, k, size), c.bitmap, c.disk, c.owner, c.saved, k, m)
    && |c.disk| >= FS_DATA_START && Tracks(DirOnDisk(c.disk), c.dir, k)
  }

  /** The real entry k still has the size, state and name it has on disk. */
  ghost predicate Tracks(onDisk: Directory, dir: Directory, k: nat) {
    && NoLarger(onDisk, dir) && k < |dir|
    && onDisk[k].size == dir[k].size && onDisk[k].used == dir[k].used
    && (dir[k].used ==> onDisk[k].name == dir[k].name)
  }

  lemma GrowingRange(c: Core, k: nat, size: nat, m: FileMap)
    requires Growing(c, k, size, m)
    ensures FS_DATA_START + c.total <= |c.disk| && c.total <= 4096 && size <= MAX_SIZE
    ensures Blocks(size) > 8 ==> c.dir[k].indirect != 0
    ensures c.dir[k].indirect != 0 ==> c.dir[k].indirect < c.total
    ensures forall b :: b in c.owner ==> b < c.total && Used(c.bitmap, b)
  {
    var e := GrownDir(c, k, size)[k];
    assert EntryOk(e);
    if e.indirect != 0 {
      assert Live(e, INDIRECT_SLOT);
      OwnedInRange(c.total, GrownDir(c, k, size), c.bitmap, c.disk, c.owner, k, INDIRECT_SLOT);
    }
  }

  /** block_alloc hands out a block that no slot of any file names, on either side. */
  lemma GrowMark(c: Core, k: nat, size: nat, m: FileMap, b: nat)
    requires Growing(c, k, size, m) && b < c.total <= 4096 && !Used(c.bitmap, b)
    ensures Growing(c.(bitmap := MarkBlock(c.bitmap, b, true)), k, size, m)
    ensures b !in c.owner
  {
    var dir := GrownDir(c, k, size);
    MarkMore(c.total, dir, c.bitmap, c.disk, c.owner, b);
    MarkBlockReads(c.bitmap, b, true);
    hide Inv, View;
    BehindGrows(c.total, dir, c.bitmap, c.disk, c.owner, c.saved, k, m, dir, MarkBlock(c.bitmap, b, true), c.owner)
      by { SameFilesRefl(c.total, dir, c.bitmap, c.disk, c.owner, k); }
  }

  lemma SameFilesRefl(total: nat, dir: Directory, bitmap: Sector, disk: Disk, owner: Owner, k: nat)
    requires Inv(total, dir, bitmap, disk, owner)
    ensures SameFiles(disk, dir, disk, dir, k)
  {
  }

  ghost function Bytes(c: Core, k: nat, size: nat): seq<Byte>
    requires k < |c.dir| && |c.dir[k].direct| == 8
  {
    FileBytes(c.disk, Grown(c, k, size))
  }

  /** block_set in the entry itself. */
  lemma GrowDirect(c: Core, k: nat, size: nat, m: FileMap, b: nat)
    requires Growing(c, k, size, m) && b < c.total && Blocks(size) < 8
    ensures Growing(WithDirect(c, k, size, b), k, size, m)
    ensures Bytes(WithDirect(c, k, size, b), k, size) == Bytes(c, k, size)
    ensures BlockAt(c.disk, Grown(WithDirect(c, k, size, b), k, size), Blocks(size)) == b
  {
    var dir, c' := GrownDir(c, k, size), WithDirect(c, k, size, b);
    var dir' := GrownDir(c', k, size);
    StoreDirect(c.total, dir, c.bitmap, c.disk, c.owner, k, b);
    assert dir' == dir[k := SlotStored(dir[k], Blocks(size), b)];
    assert SameFile(c.disk, dir[k], c.disk, dir'[k]);
    SameFilesExcept(c.disk, dir, c.disk, dir', k);
    hide Inv, View, SameFile, FileBytes;
    BehindGrows(c.total, dir, c.bitmap, c.disk, c.owner, c.saved, k, m, dir', c.bitmap, c.owner);
  }

  ghost function WithDirect(c: Core, k: nat, size: nat, b: nat): Core
    requires k < |c.dir| && |c.dir[k].direct| == 8 && Blocks(size) < 8
  {
    c.(dir := c.dir[k := c.dir[k].(direct := c.dir[k].direct[Blocks(size) := b])])
  }

  /** block_set taking a fresh indirect block and zeroing it. */
  lemma GrowIndirect(c: Core, k: nat, size: nat, m: FileMap, b: nat)
    requires Growing(c, k, size, m) && c.dir[k].indirect == 0
    requires 0 < b < c.total <= 4096 && FS_DATA_START + c.total <= |c.disk| && Used(c.bitmap, b) && b !in c.owner
    ensures Growing(WithIndirect(c, k, b), k, size, m)
    ensures Bytes(WithIndirect(c, k, b), k, size) == Bytes(c, k, size)
    ensures CrashPoint(c.total, PutBlock(c.disk, b, Zeros(512)), m, m)
  {
    hide Inv, Behind, View, FileBytes, Harmless, BlockAt;
    var dir, c' := GrownDir(c, k, size), WithIndirect(c, k, b);
    var dir' := GrownDir(c', k, size);
    AttachIndirect(c.total, dir, c.bitmap, c.disk, c.owner, k, b);
    assert dir' == dir[k := dir[k].(indirect := b)];
    assert SameFile(c.disk, dir[k], c'.disk, dir'[k]);
    SameFilesExcept(c.disk, dir, c'.disk, dir', k);
    hide SameFiles, SameFile;
    BehindWrite(c.total, dir, c.bitmap, c.disk, c.owner, c.saved, k, m, b, Zeros(512), dir', c'.owner);
  }

  ghost function WithIndirect(c: Core, k: nat, b: nat): Core
    requires k < |c.dir| && FS_DATA_START + b < |c.disk|
  {
    c.(dir := c.dir[k := c.dir[k].(indirect := b)], disk := PutBlock(c.disk, b, Zeros(512)),
       owner := c.owner[b := (k, INDIRECT_SLOT)])
  }

  /** block_set in an indirect block the file already has. */
  lemma GrowIndirectSlot(c: Core, k: nat, size: nat, m: FileMap, b: nat)
    requires Growing(c, k, size, m) && b < c.total && c.dir[k].indirect != 0
    requires 8 <= Blocks(size) < FS_MAX_BLOCKS && FS_DATA_START + c.dir[k].indirect < |c.disk|
    ensures Growing(WithSlot(c, k, size, b), k, size, m)
    ensures Bytes(WithSlot(c, k, size, b), k, size) == Bytes(c, k, size)
    ensures BlockAt(WithSlot(c, k, size, b).disk, Grown(c, k, size), Blocks(size)) == b
    ensures CrashPoint(c.total, WithSlot(c, k, size, b).disk, m, m)
  {
    hide Inv, View, FileBytes, Harmless;
    var dir, c' := GrownDir(c, k, size), WithSlot(c, k, size, b);
    var ib := c.dir[k].indirect;
    StoreIndirect(c.total, dir, c.bitmap, c.disk, c.owner, k, b);
    assert SameFile(c.disk, dir[k], c'.disk, dir[k]);
    SameFilesExcept(c.disk, dir, c'.disk, dir, k);
    BehindWrite(c.total, dir, c.bitmap, c.disk, c.owner, c.saved, k, m, ib, c'.disk[FS_DATA_START + ib], dir, c.owner);
  }

  ghost function WithSlot(c: Core, k: nat, size: nat, b: nat): Core
    requires k < |c.dir| && b < U32 && 8 <= Blocks(size) < FS_MAX_BLOCKS && FS_DATA_START + c.dir[k].indirect < |c.disk|
  {
    c.(disk := SlotStoredDisk(c.disk, c.dir[k], Blocks(size), b))
  }

  /** The data of a fresh block. */
  lemma GrowFill(c: Core, k: nat, size: nat, m: FileMap, b: nat, chunk: seq<Byte>)
    requires Growing(c, k, size, m) && size % 512 == 0 && 0 < |chunk| <= 512 && Blocks(size) < FS_MAX_BLOCKS
    requires Blocks(size) >= 8 ==> c.dir[k].indirect != 0
    requires b < c.total <= 4096 && FS_DATA_START + c.total <= |c.disk| && Used(c.bitmap, b) && b !in c.owner
    requires BlockAt(c.disk, Grown(c, k, size), Blocks(size)) == b
    ensures Growing(WithFill(c, k, size, b, chunk), k, size + |chunk|, m)
    ensures Bytes(WithFill(c, k, size, b, chunk), k, size + |chunk|) == Bytes(c, k, size) + chunk
    ensures CrashPoint(c.total, WithFill(c, k, size, b, chunk).disk, m, m)
  {
    hide Inv, Behind, View, SameFiles, FileBytes, Harmless, BlockAt, Patch;
    var dir, c' := GrownDir(c, k, size), WithFill(c, k, size, b, chunk);
    var dir' := GrownDir(c', k, size + |chunk|);
    GrowFresh(c.total, dir, c.bitmap, c.disk, c.owner, k, b, chunk);
    assert dir' == dir[k := dir[k].(size := size + |chunk|)];
    BehindWrite(c.total, dir, c.bitmap, c.disk, c.owner, c.saved, k, m, b, Patch(Zeros(512), 0, chunk), dir', c'.owner);
  }

  ghost function WithFill(c: Core, k: nat, size: nat, b: nat, chunk: seq<Byte>): Core
    requires FS_DATA_START + b < |c.disk| && |chunk| <= 512
  {
    c.(disk := PutBlock(c.disk, b, Patch(Zeros(512), 0, chunk)), owner := c.owner[b := (k, Blocks(size))])
  }

  /** The block a partly filled file ends in is a real block. */
  lemma LastBlock(c: Core, k: nat, size: nat, m: FileMap)
    requires Growing(c, k, size, m) && size % 512 != 0
    ensures BlockAt(c.disk, Grown(c, k, size), size / 512) < c.total
    ensures size / 512 < FS_MAX_BLOCKS && size / 512 < Blocks(size)
  {
    InPlaceHarmless(c.total, GrownDir(c, k, size), c.bitmap, c.disk, c.owner, k, []);
  }

  /** Data added to the partly filled last block. */
  lemma GrowPatch(c: Core, k: nat, size: nat, m: FileMap, b: nat, chunk: seq<Byte>)
    requires Growing(c, k, size, m) && size % 512 != 0 && size % 512 + |chunk| <= 512
    requires b < c.total && FS_DATA_START + c.total <= |c.disk| && b == BlockAt(c.disk, Grown(c, k, size), size / 512)
    ensures Growing(WithPatch(c, size, b, chunk), k, size + |chunk|, m)
    ensures Bytes(WithPatch(c, size, b, chunk), k, size + |chunk|) == Bytes(c, k, size) + chunk
    ensures CrashPoint(c.total, WithPatch(c, size, b, chunk).disk, m, m)
  {
    hide Inv, Behind, View, SameFiles, FileBytes, Harmless, BlockAt, Patch;
    var dir, c' := GrownDir(c, k, size), WithPatch(c, size, b, chunk);
    var dir' := GrownDir(c', k, size + |chunk|);
    var s := Patch(c.disk[FS_DATA_START + b], size % 512, chunk);
    GrowInPlace(c.total, dir, c.bitmap, c.disk, c.owner, k, chunk, b, s);
    assert dir' == dir[k := dir[k].(size := size + |chunk|)];
    BehindWrite(c.total, dir, c.bitmap, c.disk, c.owner, c.saved, k, m, b, s, dir', c.owner);
  }

  ghost function WithPatch(c: Core, size: nat, b: nat, chunk: seq<Byte>): Core
    requires FS_DATA_START + b < |c.disk| && size % 512 + |chunk| <= 512
  {
    c.(disk := PutBlock(c.disk, b, Patch(c.disk[FS_DATA_START + b], size % 512, chunk)))
  }

  /** Giving up: what counts goes back to `start` bytes. */
  lemma GrowAbandon(c: Core, k: nat, size: nat, start: nat, m: FileMap)
    requires Growing(c, k, size, m) && c.dir[k].size == start
    ensures Growing(c, k, start, m)
    ensures Bytes(c, k, start) == Bytes(c, k, size)[..start]
  {
    var dir, dir' := GrownDir(c, k, size), GrownDir(c, k, start);
    Shrink(c.total, dir, c.bitmap, c.disk, c.owner, k, start);
    assert dir' == dir[k := dir[k].(size := start)];
    hide Inv, View, SameFile, FileBytes;
    BehindGrows(c.total, dir, c.bitmap, c.disk, c.owner, c.saved, k, m, dir', c.bitmap, c.owner);
  }
}
