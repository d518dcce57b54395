/**
 ArthicFS: format, mount, create, append, read and delete over a disk of sectors.

 The disk is an array of sectors whose reads and writes succeed. `history` records the disk after
 every sector write, so a crash is a choice of one element of it.
 */
module Fs {
  import opened FsLayout
  import opened FsModel
  import opened FsCrash
  import opened FsGrow
  import opened FsUpdate
  import opened FsSlots
  import opened FsSound
  import Bits

  /** The new part of the history holds only disks that mount as `a` or as `b`. */
  ghost predicate SafeSince(before: seq<Disk>, after: seq<Disk>, total: nat, a: FileMap, b: FileMap) {
    && |before| <= |after| && after[..|before|] == before
    && forall x :: |before| <= x < |after| ==> CrashPoint(total, after[x], a, b)
  }

  lemma SafeStep(h0: seq<Disk>, h1: seq<Disk>, total: nat, a: FileMap, b: FileMap, d: Disk)
    requires SafeSince(h0, h1, total, a, b) && CrashPoint(total, d, a, b)
    ensures SafeSince(h0, h1 + [d], total, a, b)
  {
  }

  lemma SafeTrans(h0: seq<Disk>, h1: seq<Disk>, h2: seq<Disk>, total: nat, a: FileMap, b: FileMap)
    requires SafeSince(h0, h1, total, a, b) && SafeSince(h1, h2, total, a, b)
    ensures SafeSince(h0, h2, total, a, b)
  {
    hide CrashPoint;
    assert h2[..|h0|] == h2[..|h1|][..|h0|];
    forall x | |h0| <= x < |h2|
      ensures CrashPoint(total, h2[x], a, b)
    {
      if x < |h1| {
        assert h2[x] == h2[..|h1|][x] == h1[x];
      }
    }
  }

  /** The new part of the history holds only disks that are in full order and mount as `m`. */
  ghost predicate QuietSince(before: seq<Disk>, after: seq<Disk>, total: nat, m: FileMap) {
    && |before| <= |after| && after[..|before|] == before
    && forall x :: |before| <= x < |after| ==> Sound(total, after[x]) && CrashPoint(total, after[x], m, m)
  }

  lemma QuietRefl(h: seq<Disk>, total: nat, m: FileMap)
    ensures QuietSince(h, h, total, m)
  {
  }

  lemma QuietStep(h0: seq<Disk>, h1: seq<Disk>, c: Core, k: nat, size: nat, m: FileMap)
    requires QuietSince(h0, h1, c.total, m) && Growing(c, k, size, m)
    ensures QuietSince(h0, h1 + [c.disk], c.total, m)
  {
    hide CrashPoint, Sound, Growing;
    CrashInData(c, k, size, m);
  }

  lemma QuietTrans(h0: seq<Disk>, h1: seq<Disk>, h2: seq<Disk>, total: nat, m: FileMap)
    requires QuietSince(h0, h1, total, m) && QuietSince(h1, h2, total, m)
    ensures QuietSince(h0, h2, total, m)
  {
    hide CrashPoint, Sound;
    assert h2[..|h0|] == h2[..|h1|][..|h0|];
    forall x | |h0| <= x < |h2|
      ensures Sound(total, h2[x]) && CrashPoint(total, h2[x], m, m)
    {
      if x < |h1| {
        assert h2[x] == h2[..|h1|][x] == h1[x];
      }
    }
  }

  lemma QuietIsSafe(h0: seq<Disk>, h1: seq<Disk>, total: nat, m: FileMap, m': FileMap)
    requires QuietSince(h0, h1, total, m)
    ensures SafeSince(h0, h1, total, m, m')
  {
    hide Sound;
    forall x | |h0| <= x < |h1|
      ensures CrashPoint(total, h1[x], m, m')
    {
      assert CrashPoint(total, h1[x], m, m);
    }
  }

  // ---- crash points, by number -----------------------------------------------------

  const COMMIT_WRITES: nat := FS_DIR_SECTORS + 1

  /** The disk n sector writes into the commit that ends the history is in full order. */
  ghost predicate SoundAt(h: seq<Disk>, total: nat, n: nat)
    requires 1 <= n <= COMMIT_WRITES <= |h|
  {
    Sound(total, h[|h| - COMMIT_WRITES - 1 + n])
  }

  /** Every disk of the new part of the history, the last `tail` left aside, is in full order. */
  ghost predicate SoundSince(before: seq<Disk>, after: seq<Disk>, total: nat, tail: nat) {
    |before| + tail <= |after| && forall x :: |before| <= x < |after| - tail ==> Sound(total, after[x])
  }

  /** n sectors of the directory, one after the other. */
  ghost predicate DirectoryWrites(before: seq<Disk>, after: seq<Disk>, disk: Disk, dir: Directory, n: nat) {
    && |after| >= |before| + n && after[..|before|] == before
    && forall i :: 0 <= i < n ==> DirectoryWrite(disk, dir, after, |before|, i)
  }

  /** Element base + i of the history is the disk with i + 1 sectors of the directory written. */
  ghost predicate DirectoryWrite(disk: Disk, dir: Directory, h: seq<Disk>, base: nat, i: nat) {
    base + i < |h| && Committing(disk, dir, h[base + i], i + 1)
  }

  lemma DirectoryWritesKept(before: seq<Disk>, after: seq<Disk>, disk: Disk, dir: Directory, n: nat, d: Disk)
    requires DirectoryWrites(before, after, disk, dir, n)
    ensures DirectoryWrites(before, after + [d], disk, dir, n)
  {
    hide Committing;
    var after' := after + [d];
    assert after'[..|before|] == after[..|before|];
    forall i | 0 <= i < n
      ensures DirectoryWrite(disk, dir, after', |before|, i)
    {
      assert DirectoryWrite(disk, dir, after, |before|, i);
    }
  }

  lemma DirectoryWritesMore(before: seq<Disk>, after: seq<Disk>, disk: Disk, dir: Directory, n: nat, d: Disk)
    requires DirectoryWrites(before, after, disk, dir, n) && |after| == |before| + n
    requires Committing(disk, dir, d, n + 1)
    ensures DirectoryWrites(before, after + [d], disk, dir, n + 1)
  {
    hide Committing;
    DirectoryWritesKept(before, after, disk, dir, n, d);
    assert DirectoryWrite(disk, dir, after + [d], |before|, n);
  }

  lemma SoundRefl(h: seq<Disk>, total: nat)
    ensures SoundSince(h, h, total, 0)
  {
  }

  // ---- space ----------------------------------------------------------------------

  /** Blocks a file of `size` bytes takes: its data blocks, and an indirect block past the eighth. */
  function Cost(size: nat): nat {
    Blocks(size) + if Blocks(size) > 8 then 1 else 0
  }

  /** Blocks that writing up to byte `target` takes from the pool, starting at byte `offset`. */
  function Needed(offset: nat, hasIndirect: bool, target: nat): int {
    Blocks(target) - Blocks(offset) + if !hasIndirect && Blocks(target) > 8 then 1 else 0
  }

  function TotalCost(dir: Directory, n: nat): nat
    requires n <= |dir|
  {
    if n == 0 then 0 else TotalCost(dir, n - 1) + if dir[n - 1].used then Cost(dir[n - 1].size) else 0
  }

  lemma {:induction false} TotalCostPut(dir: Directory, n: nat, k: nat, e: Entry)
    requires k < |dir| && n <= |dir|
    ensures TotalCost(dir[k := e], n) == TotalCost(dir, n)
      + if k < n then (if e.used then Cost(e.size) else 0) - (if dir[k].used then Cost(dir[k].size) else 0) else 0
  {
    if n > 0 {
      TotalCostPut(dir, n - 1, k, e);
    }
  }

  /** Only files past their eighth block hold an indirect block. */
  ghost predicate TightIndirect(dir: Directory) {
    forall k :: 0 <= k < |dir| && dir[k].used ==> (dir[k].indirect != 0 <==> Blocks(dir[k].size) > 8)
  }

  /** Every marked block is accounted for by some file. */
  ghost predicate ExactSpace(total: nat, dir: Directory, bitmap: Sector) {
    total <= 4096 && UsedCount(bitmap, total) == TotalCost(dir, |dir|) && TightIndirect(dir)
  }

  /** With exact accounting and no files left, no block is marked. */
  lemma NoFilesNoBlocks(total: nat, dir: Directory, bitmap: Sector)
    requires ExactSpace(total, dir, bitmap) && forall k :: 0 <= k < |dir| ==> !dir[k].used
    ensures forall b :: 0 <= b < total ==> !Used(bitmap, b)
  {
    TotalCostNone(dir, |dir|);
    Bits.CountZero(bitmap, 8, total);
  }

  lemma {:induction false} TotalCostNone(dir: Directory, n: nat)
    requires n <= |dir| && forall k :: 0 <= k < n ==> !dir[k].used
    ensures TotalCost(dir, n) == 0
  {
    if n > 0 {
      TotalCostNone(dir, n - 1);
    }
  }

  class ArthicFS {
    var disk: Disk
    var totalBlocks: nat
    var dataStart: nat
    var mounted: bool
    var bitmap: Sector
    var directory: Directory

    ghost var owner: Owner
    ghost var saved: Owner
    ghost var history: seq<Disk>

    ghost function Snap(): Core
      reads this
    {
      Core(totalBlocks, directory, bitmap, disk, owner, saved)
    }

    ghost function Free(): nat
      reads this
    {
      if totalBlocks <= 4096 then FreeCount(bitmap, totalBlocks) else 0
    }

    ghost predicate Valid()
      reads this
    {
      mounted ==> dataStart == FS_DATA_START && AtRest(Snap())
    }

    /** The file system as a map from names to byte strings. */
    ghost function Files(): FileMap
      requires Valid()
      reads this
    {
      if mounted then View(directory, disk) else map[]
    }

    ghost predicate Exact()
      reads this
    {
      mounted ==> ExactSpace(totalBlocks, directory, bitmap)
    }

    /** Exact accounting, in memory and on the disk. */
    ghost predicate Accounted()
      reads this
    {
      && Exact()
      && (mounted ==> |disk| >= FS_DATA_START && DirOnDisk(disk) == directory && disk[FS_BITMAP_SECTOR] == bitmap)
    }

    /** The bitmap on disk marks every block that an entry in memory names. */
    ghost predicate Saved()
      reads this
    {
      mounted ==> MarkedUpTo(directory, disk, FS_DIR_SECTORS, FS_MAX_FILES)
    }

    constructor (sectors: Disk)
      ensures Valid() && !mounted && disk == sectors && history == []
    {
      disk, totalBlocks, dataStart, mounted := sectors, 0, 0, false;
      bitmap, directory := Zeros(512), [];
      owner, saved, history := map[], map[], [];
    }

    /** ata_write_sector */
    method WriteSector(lba: nat, s: Sector)
      requires lba < |disk|
      modifies this`disk, this`history
      ensures disk == old(disk)[lba := s] && history == old(history) + [disk]
    {
      disk := disk[lba := s];
      history := history + [disk];
    }

    // ---- growing one file ------------------------------------------------------------

    /** block_alloc: the lowest free block. */
    method BlockAlloc() returns (b: nat)
      requires totalBlocks <= 4096
      modifies this`bitmap
      ensures b == NO_BLOCK <==> old(Free()) == 0
      ensures b == NO_BLOCK ==> bitmap == old(bitmap)
      ensures b != NO_BLOCK ==>
        b < totalBlocks && !Used(old(bitmap), b) && forall c :: 0 <= c < b ==> Used(old(bitmap), c)
      ensures b != NO_BLOCK ==> bitmap == MarkBlock(old(bitmap), b, true) && Free() == old(Free()) - 1
    {
      b := 0;
      while b < totalBlocks
        invariant b <= totalBlocks && bitmap == old(bitmap)
        invariant forall c :: 0 <= c < b ==> Used(bitmap, c)
      {
        if !Used(bitmap, b) {
          Bits.CountMark(bitmap, 8, totalBlocks, b, true);
          AllUsed(bitmap, totalBlocks);
          bitmap := MarkBlock(bitmap, b, true);
          return;
        }
        b := b + 1;
      }
      AllUsed(bitmap, totalBlocks);
      b := NO_BLOCK;
    }

    /** The part of block_set that gives file k an indirect block when it has none. The block just
        allocated for data is lower than the one found here, so the indirect block is not number 0. */
    method EnsureIndirect(k: nat, block: nat, ghost size: nat, ghost m: FileMap) returns (ok: bool)
      requires Growing(Snap(), k, size, m) && dataStart == FS_DATA_START
      requires block < totalBlocks <= 4096 && forall c :: 0 <= c <= block ==> Used(bitmap, c)
      modifies this
      ensures unchanged(`totalBlocks, `dataStart, `mounted, `saved)
      ensures SameMeta(old(directory), directory, k)
      ensures Growing(Snap(), k, size, m) && QuietSince(old(history), history, totalBlocks, m)
      ensures Bytes(Snap(), k, size) == old(Bytes(Snap(), k, size))
      ensures block in owner ==> block in old(owner)
      ensures Used(bitmap, block)
      ensures ok == (old(directory[k].indirect) != 0 || old(Free()) > 0)
      ensures Free() == old(Free()) - if old(directory[k].indirect) == 0 && ok then 1 else 0
      ensures old(directory[k].indirect) != 0 || !ok ==> directory == old(directory)
      ensures ok ==> directory[k].indirect != 0
      ensures Gains(old(Snap()), size, Snap(), size, k)
    {
      hide Growing, Gains, QuietSince, FileBytes;
      assert k < |directory| && |directory[k].direct| == 8 by { GrowingShape(Snap(), k, size, m); }
      QuietRefl(history, totalBlocks, m);
      GainsRefl(Snap(), k, size, m);
      if directory[k].indirect != 0 {
        return true;
      }
      var b := BlockAlloc();
      if b == NO_BLOCK {
        return false;
      }
      ghost var c0 := old(Snap());
      FreeOnDisk(c0, k, size, m, b);
      assert Used(c0.bitmap, 0);
      GrowingRange(c0, k, size, m);
      GrowMark(c0, k, size, m, b);
      ghost var c1 := Snap();
      MarkBlockReads(c0.bitmap, b, true);
      GrowIndirect(c1, k, size, m, b);
      GainsIndirect(c1, k, size, m, b);
      owner := owner[b := (k, INDIRECT_SLOT)];
      directory := directory[k := directory[k].(indirect := b)];
      WriteSector(dataStart + b, Zeros(512));
      assert Snap() == WithIndirect(c1, k, b);
      GainsFrame(c0, c1, size, Snap(), size, k);
      QuietStep(old(history), old(history), Snap(), k, size, m);
      ok := true;
    }

    /** block_set for the block just past what has been written. */
    method BlockSet(k: nat, index: nat, block: nat, ghost size: nat, ghost m: FileMap) returns (ok: bool)
      requires Growing(Snap(), k, size, m) && dataStart == FS_DATA_START
      requires index == Blocks(size) && index < FS_MAX_BLOCKS
      requires block < totalBlocks <= 4096 && block !in owner && forall c :: 0 <= c <= block ==> Used(bitmap, c)
      modifies this
      ensures unchanged(`totalBlocks, `dataStart, `mounted, `saved)
      ensures SameMeta(old(directory), directory, k)
      ensures Growing(Snap(), k, size, m) && QuietSince(old(history), history, totalBlocks, m)
      ensures Bytes(Snap(), k, size) == old(Bytes(Snap(), k, size))
      ensures block !in owner && Used(bitmap, block)
      ensures ok == (index < 8 || old(directory[k].indirect) != 0 || old(Free()) > 0)
      ensures Free() == old(Free()) - if index >= 8 && old(directory[k].indirect) == 0 && ok then 1 else 0
      ensures index < 8 || old(directory[k].indirect) != 0 || !ok ==>
        directory[k].indirect == old(directory[k].indirect)
      ensures ok && index >= 8 ==> directory[k].indirect != 0
      ensures ok ==> BlockAt(disk, Grown(Snap(), k, size), index) == block
      ensures Gains(old(Snap()), size, Snap(), size, k)
    {
      hide Growing, Gains, QuietSince, FileBytes, BlockAt;
      GrowingShape(Snap(), k, size, m);
      QuietRefl(history, totalBlocks, m);
      if index < FS_DIRECT_BLOCKS {
        GrowDirect(Snap(), k, size, m, block);
        GainsDirect(Snap(), k, size, m, block);
        directory := directory[k := directory[k].(direct := directory[k].direct[index := block])];
        assert Snap() == WithDirect(old(Snap()), k, size, block);
        return true;
      }
      ok := EnsureIndirect(k, block, size, m);
      if !ok {
        return;
      }
      ghost var c1, h1 := Snap(), history;
      GrowingShape(c1, k, size, m);
      GrowingRange(c1, k, size, m);
      GrowIndirectSlot(c1, k, size, m, block);
      GainsSlot(c1, k, size, m, block);
      var at := dataStart + directory[k].indirect;
      WriteSector(at, StoreU32(disk[at], 4 * (index - 8), block));
      assert Snap() == WithSlot(c1, k, size, block);
      GainsTrans(old(Snap()), size, c1, size, Snap(), size, k);
      QuietStep(old(history), h1, Snap(), k, size, m);
    }

    /** block_alloc then block_set: the next block of file k, linked in but still empty. */
    method TakeBlock(k: nat, index: nat, ghost size: nat, ghost m: FileMap) returns (block: nat)
      requires Growing(Snap(), k, size, m) && dataStart == FS_DATA_START
      requires index == Blocks(size) && index < FS_MAX_BLOCKS
      modifies this
      ensures unchanged(`totalBlocks, `dataStart, `mounted)
      ensures QuietSince(old(history), history, totalBlocks, m)
      ensures BlockTaken(old(Snap()), Snap(), k, size, block, m)
    {
      hide Growing, Gains, QuietSince, FileBytes, BlockAt, FreeCount;
      ghost var c0 := Snap();
      GrowingShape(c0, k, size, m);
      GrowingRange(c0, k, size, m);
      QuietRefl(history, totalBlocks, m);
      GainsRefl(c0, k, size, m);
      block := BlockAlloc();
      if block == NO_BLOCK {
        return;
      }
      FreeOnDisk(c0, k, size, m, block);
      GrowMark(c0, k, size, m, block);
      MarkBlockReads(c0.bitmap, block, true);
      assert Snap() == c0.(bitmap := MarkBlock(c0.bitmap, block, true));
      ghost var c1 := Snap();
      var ok := BlockSet(k, index, block, size, m);
      GainsFrame(c0, c1, size, Snap(), size, k);
      UnmarkedFrame(c0, size, Snap(), size, k, block);
      if !ok {
        block := NO_BLOCK;
      }
    }

    /** One pass of the loop in write_at: at most one block's worth of data at `position`. */
    method WriteChunk(k: nat, position: nat, chunk: seq<Byte>, ghost m: FileMap) returns (ok: bool)
      requires Growing(Snap(), k, position, m) && dataStart == FS_DATA_START
      requires 0 < |chunk| && position % 512 + |chunk| <= 512
      requires position == directory[k].size || position % 512 == 0
      modifies this
      ensures unchanged(`totalBlocks, `dataStart, `mounted)
      ensures QuietSince(old(history), history, totalBlocks, m)
      ensures ChunkDone(old(Snap()), Snap(), k, position, chunk, m, ok)
    {
      hide Growing, Gains, QuietSince, FileBytes, BlockAt, BlockTaken, ChunkDone, FreeCount;
      ghost var c0 := Snap();
      GrowingShape(c0, k, position, m);
      GrowingRange(c0, k, position, m);
      QuietRefl(history, totalBlocks, m);
      var index, within := position / 512, position % 512;
      if index >= FS_MAX_BLOCKS {
        ChunkFailed(c0, c0, k, position, chunk, m);
        return false;
      }
      var block := BlockAt(disk, directory[k], index);
      NeedsBlock(c0, k, position, m);
      if index >= Blocks(directory[k].size) || block == NO_BLOCK {
        block := TakeBlock(k, index, position, m);
        ghost var c1, h1 := Snap(), history;
        if block == NO_BLOCK {
          ChunkFailed(c0, c1, k, position, chunk, m);
          return false;
        }
        ChunkFilled(c0, c1, k, position, block, chunk, m);
        owner := owner[block := (k, index)];
        WriteSector(dataStart + block, Patch(Zeros(512), within, chunk));
        assert Snap() == WithFill(c1, k, position, block, chunk);
        ChunkGrowing(c0, Snap(), k, position, chunk, m);
        QuietStep(old(history), h1, Snap(), k, position + |chunk|, m);
      } else {
        ChunkPatched(c0, k, position, block, chunk, m);
        WriteSector(dataStart + block, Patch(disk[dataStart + block], within, chunk));
        assert Snap() == WithPatch(c0, position, block, chunk);
        ChunkGrowing(c0, Snap(), k, position, chunk, m);
        QuietStep(old(history), old(history), Snap(), k, position + |chunk|, m);
      }
      ok := true;
    }

    /** write_at, called with offset == entry->size: append `data` block by block, and on failure
        leave the file at the size it had. It succeeds exactly when the file stays within 136 blocks
        and the pool holds every block it needs. */
    method WriteAt(k: nat, data: seq<Byte>, ghost m: FileMap) returns (ok: bool)
      requires k < |directory| && Growing(Snap(), k, directory[k].size, m) && dataStart == FS_DATA_START
      modifies this
      ensures unchanged(`dataStart, `mounted)
      ensures QuietSince(old(history), history, totalBlocks, m)
      ensures Written(old(Snap()), Snap(), k, data, m, ok)
    {
      hide Growing, Gains, QuietSince, FileBytes, ChunkDone, Progress, Written;
      ghost var c0 := Snap();
      var offset, written := directory[k].size, 0;
      ProgressStart(c0, k, data, m);
      QuietRefl(history, totalBlocks, m);
      while written < |data|
        invariant 0 <= written <= |data|
        invariant unchanged(`totalBlocks, `dataStart, `mounted)
        invariant written == 0 || written == |data| || (offset + written) % 512 == 0
        invariant QuietSince(old(history), history, totalBlocks, m)
        invariant Progress(c0, Snap(), k, data, written, m)
      {
        var position := offset + written;
        var chunk := 512 - position % 512;
        if chunk > |data| - written {
          chunk := |data| - written;
        }
        ghost var c1, h1 := Snap(), history;
        ProgressShape(c0, c1, k, data, written, m);
        ok := WriteChunk(k, position, data[written..written + chunk], m);
        ProgressStep(c0, c1, Snap(), k, data, written, chunk, m, ok);
        QuietTrans(old(history), h1, history, totalBlocks, m);
        if !ok {
          return;
        }
        written := written + chunk;
      }
      ProgressEnd(c0, Snap(), k, data, m);
      ok := true;
    }

    // ---- committing ------------------------------------------------------------------

    /** write_directory: sixteen sector writes. When the directory on disk differs from the one in
        memory at a single entry, each of them is a crash point between the two maps. */
    method WriteDirectory(ghost k: nat)
      requires EncodableDir(directory) && |disk| >= FS_DATA_START
      modifies this`disk, this`history
      ensures Committing(old(disk), directory, disk, FS_DIR_SECTORS)
      ensures |history| == |old(history)| + FS_DIR_SECTORS
      ensures DirectoryWrites(old(history), history, old(disk), directory, FS_DIR_SECTORS)
      ensures old(Committable(Snap(), k)) ==>
        SafeSince(old(history), history, totalBlocks, DiskMap(old(disk)), MapOf(directory, old(disk)))
    {
      hide CrashPoint, SafeSince, View, Committing, EncodableDir, SameFiles, Readable, Mountable, Committable,
           DirectoryWrite;
      ghost var safe := Committable(Snap(), k);
      ghost var a, b := DiskMap(disk), MapOf(directory, disk);
      CommitBegin(disk, directory);
      SafeRefl(history, totalBlocks, a, b);
      var i := 0;
      while i < FS_DIR_SECTORS
        invariant 0 <= i <= FS_DIR_SECTORS
        invariant Committing(old(disk), directory, disk, i) && |disk| >= FS_DATA_START
        invariant |history| == |old(history)| + i && DirectoryWrites(old(history), history, old(disk), directory, i)
        invariant safe ==> SafeSince(old(history), history, totalBlocks, a, b)
      {
        CommitStep(old(disk), directory, disk, i);
        ghost var h1 := history;
        WriteSector(FS_DIR_START + i, DirSector(directory, i));
        DirectoryWritesMore(old(history), h1, old(disk), directory, i, disk);
        if safe {
          CommitCrashPoint(old(Snap()), disk, k, i + 1);
          SafeStep(old(history), h1, totalBlocks, a, b, disk);
        }
        i := i + 1;
      }
    }

    /** The tail of every update: directory first, then bitmap. Afterwards disk and memory agree. */
    method Commit(ghost k: nat)
      requires Committable(Snap(), k) && dataStart == FS_DATA_START && mounted
      modifies this`disk, this`history, this`saved
      ensures Valid() && Files() == View(directory, old(disk))
      ensures |disk| >= FS_DATA_START && DirOnDisk(disk) == directory && disk[FS_BITMAP_SECTOR] == bitmap
      ensures SafeSince(old(history), history, totalBlocks, DiskMap(old(disk)), View(directory, old(disk)))
      ensures |history| == |old(history)| + COMMIT_WRITES && history[|history| - 1] == disk
      ensures DirectoryWrites(old(history), history, old(disk), directory, FS_DIR_SECTORS) && Saved()
    {
      hide CrashPoint, SafeSince, View, Committing, SameFiles, Readable, Mountable, Behind, Inv, DirectoryWrites,
           Marked;
      CommitStart(Snap(), k);
      WriteDirectory(k);
      ghost var d1, h1 := disk, history;
      assert |disk| >= FS_DATA_START by { CommittingShape(old(disk), directory, disk, FS_DIR_SECTORS); }
      WriteSector(FS_BITMAP_SECTOR, bitmap);
      saved := owner;
      ghost var a, b := DiskMap(old(disk)), View(directory, old(disk));
      Settled(totalBlocks, old(disk), directory, bitmap, d1, owner, disk);
      assert CrashPoint(totalBlocks, disk, a, b) by { CrashWeaken(totalBlocks, disk, a, b); }
      SafeStep(old(history), h1, totalBlocks, a, b, disk);
      DirectoryWritesKept(old(history), h1, old(disk), directory, FS_DIR_SECTORS, disk);
      AgreeingMarks(Snap());
    }

    /** The end of fs_create and fs_append: the entry takes its new size, then directory and bitmap are written.
        c0 is the state the call found, c1 that with entry k ready to grow. */
    method Publish(k: nat, data: seq<Byte>, ghost c0: Core, ghost c1: Core, ghost m: FileMap, ghost h0: seq<Disk>)
      requires mounted && dataStart == FS_DATA_START && k < |directory| && Written(c1, Snap(), k, data, m, true)
      requires QuietSince(h0, history, totalBlocks, m) && Prepared(c0, c1, k)
      modifies this`directory, this`disk, this`history, this`saved
      ensures Valid() && |c1.dir[k].direct| == 8 && Files() == m[c1.dir[k].name := Bytes(c1, k, c1.dir[k].size) + data]
      ensures SafeSince(h0, history, totalBlocks, m, Files()) && Find(directory, c1.dir[k].name, 0) == k
      ensures Saved() && SoundSince(h0, history, totalBlocks, COMMIT_WRITES)
      ensures SoundAt(history, totalBlocks, COMMIT_WRITES)
      ensures forall n :: 1 <= n <= FS_DIR_SECTORS ==> (SoundAt(history, totalBlocks, n) <==>
          && MarkedUpTo(c0.dir, c0.disk, n, FS_MAX_FILES)
          && (k / 4 < n ==> Blocks(c1.dir[k].size + |data|) == Blocks(c1.dir[k].size)))
      ensures ExactSpace(c0.total, c0.dir, c0.bitmap) ==> Accounted()
    {
      hide AtRest, Growing, View, SafeSince, QuietSince, FileBytes, Written, Committable, ExactSpace, FreeCount,
           SoundAt, MarkedUpTo, SoundSince, DirectoryWrites, DirOnDisk, CrashPoint, Sound;
      ghost var c2, h2 := Snap(), history;
      WrittenShape(c1, c2, k, data, m, true);
      var size := directory[k].size + |data|;
      FinishWrite(c2, k, size, m);
      directory := directory[k := directory[k].(size := size, used := true)];
      assert Snap() == c2.(dir := GrownDir(c2, k, size));
      Commit(k);
      QuietIsSafe(h0, h2, totalBlocks, m, Files());
      SafeTrans(h0, h2, history, totalBlocks, m, Files());
      QuietIsSound(h0, h2, totalBlocks, m);
      WriteSound(c0, c1, c2, k, data, m, h0, h2, history);
      LastSound(Snap(), history);
      FindUsed(directory, k);
      if ExactSpace(c0.total, c0.dir, c0.bitmap) {
        ExactAfterWrite(c0, c1, c2, k, data, m);
      }
    }

    // ---- the public operations -------------------------------------------------------

    /** find_entry */
    method FindEntry(name: Name) returns (k: nat)
      ensures k == Find(directory, name, 0)
    {
      k := 0;
      while k < |directory| && !HasName(directory, k, name)
        invariant k <= |directory|
        invariant Find(directory, name, 0) == Find(directory, name, k)
      {
        k := k + 1;
      }
    }

    /** find_free_entry */
    method FindFreeEntry() returns (k: nat)
      ensures k <= |directory| && (k < |directory| ==> !directory[k].used)
      ensures forall j :: 0 <= j < k ==> directory[j].used
    {
      k := 0;
      while k < |directory| && directory[k].used
        invariant k <= |directory|
        invariant forall j :: 0 <= j < k ==> directory[j].used
      {
        k := k + 1;
      }
    }

    /** A directory slot is available. */
    ghost predicate HasRoom()
      reads this
    {
      exists k :: 0 <= k < |directory| && !directory[k].used
    }

    /** fs_create. A failed create changes no file; a successful one adds exactly this file; at every
        sector write in between, a mount shows the map before or the map after. */
    method Create(name: Name, data: seq<Byte>) returns (ok: bool)
      requires Valid() && forall i :: 0 <= i < |name| ==> name[i] != 0
      modifies this
      ensures Valid() && mounted == old(mounted) && totalBlocks == old(totalBlocks)
      ensures Files() == if ok then old(Files())[name := data] else old(Files())
      ensures SafeSince(old(history), history, old(totalBlocks), old(Files()), Files())
      ensures ok <==> mounted && ValidName(name) && name !in old(Files()) && old(HasRoom())
                      && |data| <= MAX_SIZE && Cost(|data|) <= old(Free())
      ensures ok && old(Exact()) ==> Accounted()
      ensures old(Accounted()) && (ok || !(mounted && ValidName(name) && name !in old(Files()) && old(HasRoom()))) ==>
        Accounted()
      ensures ok ==> Free() == old(Free()) - Cost(|data|)
      ensures Saved() <==> ok || old(Saved())
      ensures SoundSince(old(history), history, totalBlocks, if ok then COMMIT_WRITES else 0)
      ensures ok ==> SoundAt(history, totalBlocks, COMMIT_WRITES)
      ensures ok ==> forall n :: 1 <= n <= FS_DIR_SECTORS ==> (SoundAt(history, totalBlocks, n) <==>
          && old(MarkedUpTo(directory, disk, n, FS_MAX_FILES))
          && (Find(directory, name, 0) / 4 < n ==> data == []))
    {
      hide AtRest, Growing, View, SafeSince, QuietSince, FileBytes, Written, Committable, ExactSpace, FreeCount,
           SoundAt, MarkedUpTo, SoundSince, DirectoryWrites, DirOnDisk, UniqueNames, CrashPoint;
      SafeRefl(history, totalBlocks, Files(), Files());
      SoundRefl(history, totalBlocks);
      if !mounted || name == [] || |name| >= FS_NAME_MAX {
        return false;
      }
      ghost var c0, m := Snap(), Files();
      RestShape(c0);
      ViewHas(directory, disk, name);
      var found := FindEntry(name);
      if found < FS_MAX_FILES {
        return false;
      }
      var k := FindFreeEntry();
      if k == FS_MAX_FILES {
        return false;
      }
      StartCreate(c0, k, name);
      directory := directory[k := BLANK.(name := name)];
      ghost var c1 := Snap();
      ok := WriteAt(k, data, m);
      ghost var c2, h2 := Snap(), history;
      QuietIsSafe(old(history), history, totalBlocks, m, m);
      QuietIsSound(old(history), history, totalBlocks, m);
      WrittenShape(c1, c2, k, data, m, ok);
      if !ok {
        AbandonCreate(c2, k, m);
        FailedCreateMarks(c0, c1, c2, k, data, m);
        directory := directory[k := BLANK];
        return;
      }
      assert [] + data == data;
      Publish(k, data, c0, c1, m, old(history));
    }

    /** The named file exists, stays within 136 blocks, and the pool holds what it still needs. */
    ghost predicate Fits(name: Name, more: nat)
      reads this
    {
      mounted && var k := Find(directory, name, 0); k < |directory| && CanWrite(directory[k], more, Free())
    }

    /** An append to the named file, if it fails, leaves it an indirect block that only memory knows of. */
    ghost predicate Strands(name: Name, more: nat)
      reads this
    {
      mounted && var k := Find(directory, name, 0); k < |directory| && TakesIndirect(directory[k], more, Free())
    }

    /** fs_append */
    method Append(name: Name, data: seq<Byte>) returns (ok: bool)
      requires Valid() && forall i :: 0 <= i < |name| ==> name[i] != 0
      modifies this
      ensures Valid() && mounted == old(mounted) && totalBlocks == old(totalBlocks)
      ensures ok ==> name in old(Files()) && Files() == old(Files())[name := old(Files())[name] + data]
      ensures !ok ==> Files() == old(Files())
      ensures SafeSince(old(history), history, old(totalBlocks), old(Files()), Files())
      ensures ok <==> old(Fits(name, |data|))
      ensures ok && old(Exact()) ==> Accounted()
      ensures old(Accounted()) && (ok || !(mounted && name in old(Files()))) ==> Accounted()
      ensures Saved() <==> ok || (old(Saved()) && !old(Strands(name, |data|)))
      ensures Find(directory, name, 0) == old(Find(directory, name, 0))
      ensures !ok && old(Strands(name, |data|)) ==>
        var k := Find(directory, name, 0); k < |directory| && !Marked(disk, directory[k])
      ensures SoundSince(old(history), history, totalBlocks, if ok then COMMIT_WRITES else 0)
      ensures ok ==> SoundAt(history, totalBlocks, COMMIT_WRITES)
      ensures ok ==> forall n :: 1 <= n <= FS_DIR_SECTORS ==> (SoundAt(history, totalBlocks, n) <==>
          && old(MarkedUpTo(directory, disk, n, FS_MAX_FILES))
          && (old(Find(directory, name, 0)) / 4 < n ==>
                Blocks(|old(Files())[name] + data|) == Blocks(|old(Files())[name]|)))
    {
      hide AtRest, Growing, View, SafeSince, QuietSince, FileBytes, Written, Committable, ExactSpace, FreeCount,
           SoundAt, CanWrite, MarkedUpTo, SoundSince, DirectoryWrites, Marked;
      SafeRefl(history, totalBlocks, Files(), Files());
      SoundRefl(history, totalBlocks);
      if !mounted {
        return false;
      }
      ghost var c0, m := Snap(), Files();
      RestShape(c0);
      ViewHas(directory, disk, name);
      var k := FindEntry(name);
      if k == FS_MAX_FILES {
        return false;
      }
      StartAppend(c0, k);
      ok := WriteAt(k, data, m);
      ghost var c2, h2 := Snap(), history;
      WrittenShape(c0, c2, k, data, m, ok);
      QuietIsSafe(old(history), history, totalBlocks, m, m);
      QuietIsSound(old(history), history, totalBlocks, m);
      if !ok {
        assert m[name] + [] == m[name];
        AbandonAppend(c2, k, m);
        FailedAppendMarks(c0, c2, k, data, m);
        FindUsed(directory, k);
        return;
      }
      Publish(k, data, c0, c0, m, old(history));
    }

    /** The loop of fs_delete over the data blocks, then the indirect block: every block of the file
        is cleared once, and no block of another file. */
    method ReleaseBlocks(k: nat)
      requires mounted && Valid() && k < FS_MAX_FILES && k < |directory| && directory[k].used
      modifies this`bitmap
      ensures forall b :: b in owner && owner[b].0 != k ==> b < 4096 && Used(bitmap, b)
      ensures totalBlocks <= 4096 && UsedCount(bitmap, totalBlocks) == UsedCount(old(bitmap), totalBlocks)
                - Blocks(directory[k].size) - if directory[k].indirect != 0 then 1 else 0
    {
      hide AtRest, View, UsedCount;
      ghost var c := Snap();
      RestShape(c);
      ReleaseStart(c, k);
      var blocks, i := Blocks(directory[k].size), 0;
      while i < blocks
        invariant 0 <= i <= blocks
        invariant Releasing(c, k, bitmap, i)
      {
        var block := BlockAt(disk, directory[k], i);
        ReleaseStep(c, k, bitmap, i);
        if block != NO_BLOCK {
          bitmap := MarkBlock(bitmap, block, false);
        }
        i := i + 1;
      }
      ReleaseEnd(c, k, bitmap);
      if directory[k].indirect != 0 {
        bitmap := MarkBlock(bitmap, directory[k].indirect, false);
      }
    }

    /** fs_delete */
    method Delete(name: Name) returns (ok: bool)
      requires Valid() && forall i :: 0 <= i < |name| ==> name[i] != 0
      modifies this
      ensures Valid() && mounted == old(mounted) && totalBlocks == old(totalBlocks)
      ensures ok <==> mounted && name in old(Files())
      ensures Files() == if ok then old(Files()) - {name} else old(Files())
      ensures SafeSince(old(history), history, old(totalBlocks), old(Files()), Files())
      ensures old(Exact()) ==> Exact()
      ensures (ok && old(Exact())) || old(Accounted()) ==> Accounted()
      ensures Saved() <==> ok || old(Saved())
      ensures |history| == |old(history)| + if ok then COMMIT_WRITES else 0
      ensures ok ==> SoundAt(history, totalBlocks, COMMIT_WRITES)
      ensures ok ==> forall n :: 1 <= n <= FS_DIR_SECTORS ==> (SoundAt(history, totalBlocks, n) <==>
          old(MarkedUpTo(directory, disk, n, Find(directory, name, 0))))
      ensures old(Saved()) ==> SoundSince(old(history), history, totalBlocks, 0)
    {
      hide AtRest, View, SafeSince, CrashPoint, FileBytes, Committable, ExactSpace, UsedCount, SoundAt, MarkedUpTo,
           DirectoryWrites;
      SafeRefl(history, totalBlocks, Files(), Files());
      if !mounted {
        return false;
      }
      ghost var c0, m := Snap(), Files();
      RestShape(c0);
      ViewHas(directory, disk, name);
      var k := FindEntry(name);
      if k == FS_MAX_FILES {
        return false;
      }
      ReleaseBlocks(k);
      assert c0.owner == owner;
      FinishDelete(c0, k, bitmap);
      if old(Exact()) {
        ExactAfterDelete(c0, k, bitmap);
      }
      directory := directory[k := BLANK];
      owner := WithoutFile(owner, k);
      Commit(k);
      DeleteSound(c0, k, bitmap, old(history), history);
      LastSound(Snap(), history);
      if old(Saved()) {
        DeleteAllSound(c0, k, old(history), history);
      }
      ok := true;
    }

    /** fs_format */
    method Format() returns (ok: bool)
      modifies this
      ensures ok <==> |old(disk)| > FS_DATA_START
      ensures ok ==> mounted && Valid() && Files() == map[] && Accounted() && Saved() && |disk| == |old(disk)|
      ensures ok ==> totalBlocks == if |disk| - FS_DATA_START > 4096 then 4096 else |disk| - FS_DATA_START
      ensures !ok ==> unchanged(this)
    {
      hide AtRest, View, Committing, Committable, SafeSince, DirOnDisk, EncodableDir, DirOk, ExactSpace, SuperSector,
           MapOf, DiskMap, CrashPoint, DirSector;
      var sectors := |disk|;
      if sectors <= FS_DATA_START {
        return false;
      }
      var blocks := sectors - FS_DATA_START;
      if blocks > SECTOR_SIZE * 8 {
        blocks := SECTOR_SIZE * 8;
      }
      totalBlocks, dataStart := blocks, FS_DATA_START;
      directory := seq(FS_MAX_FILES, _ => BLANK);
      bitmap := Zeros(512);
      owner, saved := map[], map[];
      WriteSector(0, SuperSector(totalBlocks));
      ghost var d1 := disk;
      BlankEncodable(directory);
      WriteDirectory(0);
      ghost var d2 := disk;
      CommittingShape(d1, directory, d2, FS_DIR_SECTORS);
      WriteSector(FS_BITMAP_SECTOR, bitmap);
      Formatted(totalBlocks, d1, directory, d2);
      AgreeingMarks(Snap());
      mounted := true;
      ok := true;
    }

    /** fs_mount. `was` stands for the owners the disk was left with. */
    method Mount(ghost was: Owner) returns (ok: bool)
      requires |disk| >= FS_DATA_START
      modifies this
      ensures disk == old(disk) && history == old(history)
      ensures ok == mounted == (U32At(disk[0], 0) == FS_MAGIC)
      ensures ok ==> totalBlocks == U32At(disk[0], 4) && dataStart == U32At(disk[0], 8)
      ensures ok ==> directory == DirOnDisk(disk) && bitmap == disk[FS_BITMAP_SECTOR]
      ensures CleanDisk(U32At(disk[0], 4), disk, was) ==>
        ok && Valid() && Saved() && Files() == DiskMap(disk)
      ensures old(mounted && Accounted() && Valid()) ==> Accounted()
    {
      if mounted && Valid() {
        RestIsClean(Snap());
        MountTotal(Snap());
      }
      mounted := false;
      if U32At(disk[0], 0) != FS_MAGIC {
        return false;
      }
      totalBlocks, dataStart := U32At(disk[0], 4), U32At(disk[0], 8);
      directory := DirOnDisk(disk);
      bitmap := disk[FS_BITMAP_SECTOR];
      owner, saved := was, was;
      mounted := true;
      ok := true;
      if CleanDisk(totalBlocks, disk, was) {
        AgreeingMarks(Snap());
      }
    }

    /** fs_read: needs no more than a disk on which every file is readable, so it serves after a
        crash as well. */
    method Read(name: Name, max: nat) returns (ok: bool, data: seq<Byte>)
      requires mounted ==> dataStart == FS_DATA_START && Readable(totalBlocks, directory, disk)
      ensures ok <==> mounted && name in View(directory, disk)
      ensures ok ==> data <= View(directory, disk)[name] && |data| <= max
      ensures ok ==> |data| == max || data == View(directory, disk)[name]
    {
      ok, data := false, [];
      if !mounted {
        return;
      }
      ViewHas(directory, disk, name);
      var k := FindEntry(name);
      if k == FS_MAX_FILES {
        return;
      }
      hide View;
      var e := directory[k];
      var size := if e.size > max then max else e.size;
      var copied, index := 0, 0;
      ghost var bytes := FileBytes(disk, e);
      while copied < size
        invariant 0 <= copied <= size
        invariant copied == size || copied == 512 * index
        invariant data == bytes[..copied]
      {
        var block := BlockAt(disk, e, index);
        assert index < Blocks(e.size);
        if block == NO_BLOCK {
          assert false;
        }
        var buffer := disk[dataStart + block];
        var chunk := if size - copied > 512 then 512 else size - copied;
        ReadChunk(disk, e, index, chunk);
        data := data + buffer[..chunk];
        copied := copied + chunk;
        index := index + 1;
      }
      ok := true;
    }

    /** fs_stats: with exact accounting, the used count is the sum of the files' own costs. */
    method Stats() returns (total: nat, used: nat, files: nat)
      requires Valid()
      ensures !mounted ==> total == 0 && used == 0 && files == 0
      ensures mounted ==> total == totalBlocks <= 4096 && used == UsedCount(bitmap, total)
      ensures mounted ==> files == FileCount(directory, |directory|)
      ensures mounted && Exact() ==> used == TotalCost(directory, |directory|)
    {
      total, used, files := 0, 0, 0;
      if !mounted {
        return;
      }
      RestShape(Snap());
      hide AtRest, View, DirOk, Readable, DiskMap;
      var b := 0;
      while b < totalBlocks
        invariant 0 <= b <= totalBlocks && used == UsedCount(bitmap, b)
      {
        if Used(bitmap, b) {
          used := used + 1;
        }
        b := b + 1;
      }
      var i := 0;
      while i < FS_MAX_FILES
        invariant 0 <= i <= FS_MAX_FILES && files == FileCount(directory, i)
      {
        if directory[i].used {
          files := files + 1;
        }
        i := i + 1;
      }
      total := totalBlocks;
    }
  }

  // ---- crash points of the calls ----------------------------------------------------------

  lemma QuietIsSound(h0: seq<Disk>, h1: seq<Disk>, total: nat, m: FileMap)
    requires QuietSince(h0, h1, total, m)
    ensures SoundSince(h0, h1, total, 0)
  {
    hide Sound, CrashPoint;
  }

  lemma LastSound(c: Core, h: seq<Disk>)
    requires AtRest(c) && |h| >= COMMIT_WRITES && h[|h| - 1] == c.disk
    ensures SoundAt(h, c.total, COMMIT_WRITES)
  {
    hide AtRest, Sound;
    RestIsSound(c);
  }

  /** c is c0 with entry k ready to grow: as it was, or introduced under a new name. */
  ghost predicate Prepared(c0: Core, c: Core, k: nat) {
    && k < |c0.dir| && c0.disk == c.disk && c0.total == c.total && c0.bitmap == c.bitmap
    && |c.dir| == |c0.dir| && c.dir == c0.dir[k := c.dir[k]]
    && ((c0.dir[k] == c.dir[k] && c.dir[k].used)
        || (c0.dir[k] == BLANK && c.dir[k].size == 0 && c.dir[k].indirect == 0))
  }

  lemma WrittenGrew(c: Core, c': Core, k: nat, data: seq<Byte>, m: FileMap, ok: bool)
    requires Written(c, c', k, data, m, ok)
    ensures k < |c.dir| == |c'.dir|
    ensures var size := c.dir[k].size + if ok then |data| else 0;
            && Growing(c', k, size, m)
            && Grew(c, c', k, c.dir[k].size, size)
            && (ok ==> (TookNone(c, c', k, c.dir[k].size, size) <==> Blocks(size) == Blocks(c.dir[k].size)))
            && (!ok ==> (TookNone(c, c', k, c.dir[k].size, size) <==> !TakesIndirect(c.dir[k], |data|, FreeIn(c))))
  {
    hide Gains, FileBytes, FreeCount, Behind;
    var size := c.dir[k].size + if ok then |data| else 0;
    GrowingRange(c', k, size, m);
    forall j | 0 <= j < FS_MAX_FILES && j != k
      ensures c'.dir[j] == c.dir[j] && |c.dir[j].direct| == 8
    {
      assert EntryOk(GrownDir(c', k, size)[j]);
    }
    assert ok && c.dir[k].indirect == 0 && Blocks(size) > 8 ==> Blocks(c.dir[k].size) <= 8;
  }

  /** The commit of a create or an append, point by point. c0 is the state the call found, c that with entry k
      ready to grow, c' that with the data written. */
  lemma WriteSound(c0: Core, c: Core, c': Core, k: nat, data: seq<Byte>, m: FileMap, h0: seq<Disk>, h1: seq<Disk>,
      h: seq<Disk>)
    requires Written(c, c', k, data, m, true) && Prepared(c0, c, k) && k < |c'.dir|
    requires SoundSince(h0, h1, c'.total, 0)
    requires |h| == |h1| + COMMIT_WRITES
    requires DirectoryWrites(h1, h, c'.disk, GrownDir(c', k, c.dir[k].size + |data|), FS_DIR_SECTORS)
    ensures SoundSince(h0, h, c'.total, COMMIT_WRITES)
    ensures forall n :: 1 <= n <= FS_DIR_SECTORS ==> (SoundAt(h, c'.total, n) <==>
              && MarkedUpTo(c0.dir, c0.disk, n, FS_MAX_FILES)
              && (k / 4 < n ==> Blocks(c.dir[k].size + |data|) == Blocks(c.dir[k].size)))
  {
    hide Written, Growing, Grew, TookNone, Sound, MarkedUpTo, Committing;
    WrittenGrew(c, c', k, data, m, true);
    var start, size := c.dir[k].size, c.dir[k].size + |data|;
    forall x | |h0| <= x < |h1|
      ensures Sound(c'.total, h[x])
    {
      assert h[..|h1|][x] == h1[x];
    }
    forall n | 1 <= n <= FS_DIR_SECTORS
      ensures SoundAt(h, c'.total, n) <==>
          MarkedUpTo(c0.dir, c0.disk, n, FS_MAX_FILES) && (k / 4 < n ==> Blocks(size) == Blocks(start))
    {
      assert DirectoryWrite(c'.disk, GrownDir(c', k, size), h, |h1|, n - 1);
      GrownCrash(c', k, size, m, h[|h1| + (n - 1)], n);
      WriteMarks(c0.dir, c, c', k, start, size, n);
    }
  }

  lemma GrownCrash(c: Core, k: nat, size: nat, m: FileMap, disk: Disk, n: nat)
    requires Growing(c, k, size, m) && Committing(c.disk, GrownDir(c, k, size), disk, n)
    ensures Sound(c.total, disk) <==> MarkedUpTo(GrownDir(c, k, size), c.disk, n, FS_MAX_FILES)
  {
    FinishWrite(c, k, size, m);
    hide Inv, View, Committing, Committable, Sound, MarkedUpTo, SameFiles;
    CrashInDirectory(c.(dir := GrownDir(c, k, size)), k, c.owner, disk, n);
  }

  lemma FailedCreateMarks(c0: Core, c: Core, c': Core, k: nat, data: seq<Byte>, m: FileMap)
    requires Written(c, c', k, data, m, false) && k < |c.dir| == |c0.dir| && c0.disk == c.disk && k < |c'.dir|
    requires (forall j :: 0 <= j < |c0.dir| && j != k ==> c0.dir[j] == c.dir[j]) && c0.dir[k] == BLANK
    ensures MarkedUpTo(c'.dir[k := BLANK], c'.disk, FS_DIR_SECTORS, FS_MAX_FILES)
       <==> MarkedUpTo(c0.dir, c0.disk, FS_DIR_SECTORS, FS_MAX_FILES)
  {
    hide Written, Growing, Grew, MarkedUpTo;
    WrittenGrew(c, c', k, data, m, false);
    AbandonedMarks(c0.dir, c, c', k, c.dir[k].size, c.dir[k].size, FS_DIR_SECTORS);
  }

  lemma FailedAppendMarks(c: Core, c': Core, k: nat, data: seq<Byte>, m: FileMap)
    requires Written(c, c', k, data, m, false) && k < |c.dir| && k < |c'.dir| && c.dir[k].used
    requires c'.dir[k].used && c'.dir[k].size == c.dir[k].size
    ensures MarkedUpTo(c'.dir, c'.disk, FS_DIR_SECTORS, FS_MAX_FILES)
       <==> MarkedUpTo(c.dir, c.disk, FS_DIR_SECTORS, FS_MAX_FILES) && !TakesIndirect(c.dir[k], |data|, FreeIn(c))
    ensures TakesIndirect(c.dir[k], |data|, FreeIn(c)) ==> !Marked(c'.disk, c'.dir[k])
  {
    hide Written, Growing, Grew, MarkedUpTo, TookNone, TakesIndirect;
    WrittenGrew(c, c', k, data, m, false);
    GrewShape(c, c', k, c.dir[k].size, c.dir[k].size);
    WriteMarks(c.dir, c, c', k, c.dir[k].size, c.dir[k].size, FS_DIR_SECTORS);
    GrownMarks(c, c', k, c.dir[k].size, c.dir[k].size);
    assert GrownDir(c', k, c.dir[k].size) == c'.dir && Grown(c', k, c.dir[k].size) == c'.dir[k];
  }

  /** The commit of a delete, point by point. */
  lemma DeleteSound(c: Core, k: nat, bitmap': Sector, h0: seq<Disk>, h: seq<Disk>)
    requires AtRest(c) && k < FS_MAX_FILES == |c.dir| && c.dir[k].used
    requires forall b :: b in c.owner && c.owner[b].0 != k ==> b < 4096 && Used(bitmap', b)
    requires |h| == |h0| + COMMIT_WRITES && DirectoryWrites(h0, h, c.disk, c.dir[k := BLANK], FS_DIR_SECTORS)
    ensures forall n :: 1 <= n <= FS_DIR_SECTORS ==> (SoundAt(h, c.total, n) <==> MarkedUpTo(c.dir, c.disk, n, k))
  {
    hide AtRest, Sound, MarkedUpTo, Committing;
    forall n | 1 <= n <= FS_DIR_SECTORS
      ensures SoundAt(h, c.total, n) <==> MarkedUpTo(c.dir, c.disk, n, k)
    {
      assert DirectoryWrite(c.disk, c.dir[k := BLANK], h, |h0|, n - 1);
      CrashInDelete(c, k, bitmap', h[|h0| + (n - 1)], n);
    }
  }

  lemma DeleteAllSound(c: Core, k: nat, h0: seq<Disk>, h: seq<Disk>)
    requires |h| == |h0| + COMMIT_WRITES && SoundAt(h, c.total, COMMIT_WRITES)
    requires forall n :: 1 <= n <= FS_DIR_SECTORS ==> (SoundAt(h, c.total, n) <==> MarkedUpTo(c.dir, c.disk, n, k))
    requires MarkedUpTo(c.dir, c.disk, FS_DIR_SECTORS, FS_MAX_FILES) && |c.dir| == FS_MAX_FILES
    ensures SoundSince(h0, h, c.total, 0)
  {
    hide Sound, Marked;
    forall x | |h0| <= x < |h|
      ensures Sound(c.total, h[x])
    {
      var n := x - |h0| + 1;
      assert SoundAt(h, c.total, n) by {
        if n <= FS_DIR_SECTORS {
          assert MarkedUpTo(c.dir, c.disk, n, k);
        }
      }
    }
  }

  lemma MountTotal(c: Core)
    requires AtRest(c)
    ensures |c.disk| >= FS_DATA_START && U32At(c.disk[0], 4) == c.total && U32At(c.disk[0], 0) == FS_MAGIC
  {
  }

  lemma ReadChunk(disk: Disk, e: Entry, index: nat, chunk: nat)
    requires |e.direct| == 8 && chunk <= 512 && 512 * index + chunk <= e.size
    requires FS_DATA_START + BlockAt(disk, e, index) < |disk|
    ensures FileBytes(disk, e)[..512 * index] + disk[FS_DATA_START + BlockAt(disk, e, index)][..chunk]
         == FileBytes(disk, e)[..512 * index + chunk]
  {
    var bytes, s := FileBytes(disk, e), disk[FS_DATA_START + BlockAt(disk, e, index)];
    forall q | 0 <= q < chunk
      ensures bytes[512 * index + q] == s[q]
    {
      assert (512 * index + q) / 512 == index && (512 * index + q) % 512 == q;
    }
  }

  function FileCount(dir: Directory, n: nat): nat
    requires n <= |dir|
  {
    if n == 0 then 0 else FileCount(dir, n - 1) + if dir[n - 1].used then 1 else 0
  }

  /** The names of the first n entries. */
  ghost function NamesUpTo(dir: Directory, n: nat): set<Name>
    requires n <= |dir|
  {
    set k | 0 <= k < n && dir[k].used :: dir[k].name
  }

  lemma {:induction false} FileCountNames(dir: Directory, n: nat)
    requires UniqueNames(dir) && n <= |dir|
    ensures |NamesUpTo(dir, n)| == FileCount(dir, n)
  {
    if n == 0 {
      assert NamesUpTo(dir, 0) == {};
    } else {
      FileCountNames(dir, n - 1);
      var name := dir[n - 1].name;
      assert NamesUpTo(dir, n) == NamesUpTo(dir, n - 1) + if dir[n - 1].used then {name} else {};
      assert dir[n - 1].used ==> name !in NamesUpTo(dir, n - 1);
    }
  }

  lemma {:induction false} FileCountFull(dir: Directory, n: nat)
    requires n <= |dir|
    ensures FileCount(dir, n) <= n
    ensures FileCount(dir, n) < n <==> exists k :: 0 <= k < n && !dir[k].used
  {
    if n > 0 {
      FileCountFull(dir, n - 1);
    }
  }

  /** A slot is free exactly when there are fewer than 64 files. */
  lemma RoomIsFewFiles(dir: Directory, disk: Disk)
    requires DirOk(dir)
    ensures |View(dir, disk)| == FileCount(dir, |dir|)
    ensures |View(dir, disk)| < FS_MAX_FILES <==> exists k :: 0 <= k < |dir| && !dir[k].used
    ensures View(dir, disk) == map[] ==> forall k :: 0 <= k < |dir| ==> !dir[k].used
  {
    FileCountNames(dir, |dir|);
    FileCountFull(dir, |dir|);
    assert View(dir, disk).Keys == Names(dir) == NamesUpTo(dir, |dir|);
    assert |View(dir, disk)| == |View(dir, disk).Keys|;
    forall k | 0 <= k < |dir| && dir[k].used
      ensures dir[k].name in View(dir, disk)
    {
    }
  }

  lemma BlankEncodable(dir: Directory)
    requires |dir| == FS_MAX_FILES && forall k :: 0 <= k < FS_MAX_FILES ==> dir[k] == BLANK
    ensures EncodableDir(dir)
  {
  }

  /** A freshly formatted disk is at rest, empty and exactly accounted for. */
  lemma Formatted(total: nat, d1: Disk, dir: Directory, d2: Disk)
    requires 0 < total <= 4096 && FS_DATA_START + total <= |d1| && d1[0] == SuperSector(total)
    requires |dir| == FS_MAX_FILES && forall k :: 0 <= k < FS_MAX_FILES ==> dir[k] == BLANK
    requires Committing(d1, dir, d2, FS_DIR_SECTORS)
    ensures AtRest(Core(total, dir, Zeros(512), d2[FS_BITMAP_SECTOR := Zeros(512)], map[], map[]))
    ensures DirOk(dir) && View(dir, d2[FS_BITMAP_SECTOR := Zeros(512)]) == map[]
    ensures ExactSpace(total, dir, Zeros(512)) && DirOnDisk(d2[FS_BITMAP_SECTOR := Zeros(512)]) == dir
  {
    SuperRoundTrip(total);
    assert Inv(total, dir, Zeros(512), d1, map[]);
    Settled(total, d1, dir, Zeros(512), d2, map[], d2[FS_BITMAP_SECTOR := Zeros(512)]);
    assert Names(dir) == {};
    TotalCostNone(dir, |dir|);
    forall m: nat | m < total && m / 8 < 512
      ensures !Bits.Test(Zeros(512), 8, m)
    {
      ZeroBits(m % 8);
    }
    Bits.CountZero(Zeros(512), 8, total);
  }

  lemma {:induction false} ZeroBits(i: nat)
    ensures !Bits.Bit(0, i)
  {
    if i > 0 {
      ZeroBits(i - 1);
    }
  }

  // ---- releasing ---------------------------------------------------------------------

  /** The first i data blocks of file k have been cleared in `bitmap`. */
  ghost predicate Releasing(c: Core, k: nat, bitmap: Sector, i: nat) {
    && c.total <= 4096 && k < |c.dir| && |c.dir[k].direct| == 8
    && (forall b :: b in c.owner && c.owner[b].0 != k ==> b < 4096 && Used(bitmap, b))
    && (forall j: nat :: j >= i && Live(c.dir[k], j) ==>
          SlotBlock(c.disk, c.dir[k], j) < c.total && Used(bitmap, SlotBlock(c.disk, c.dir[k], j)))
    && UsedCount(bitmap, c.total) == UsedCount(c.bitmap, c.total) - i
  }

  lemma ReleaseStart(c: Core, k: nat)
    requires AtRest(c) && k < |c.dir| && c.dir[k].used
    ensures Releasing(c, k, c.bitmap, 0)
  {
    forall j: nat | Live(c.dir[k], j)
      ensures SlotBlock(c.disk, c.dir[k], j) < c.total && Used(c.bitmap, SlotBlock(c.disk, c.dir[k], j))
    {
      OwnedInRange(c.total, c.dir, c.bitmap, c.disk, c.owner, k, j);
    }
  }

  /** Clearing slot i: it was marked, it is no other file's, and no other slot of this file names it. */
  lemma ReleaseSlot(c: Core, k: nat, bitmap: Sector, i: nat, slot: nat)
    requires AtRest(c) && Releasing(c, k, bitmap, i) && i <= slot && Live(c.dir[k], slot)
    requires c.dir[k].used && k < FS_MAX_FILES
    ensures SlotBlock(c.disk, c.dir[k], slot) < c.total
    ensures var bitmap' := MarkBlock(bitmap, SlotBlock(c.disk, c.dir[k], slot), false);
            && (forall b :: b in c.owner && c.owner[b].0 != k ==> Used(bitmap', b))
            && (forall j: nat :: j >= i && j != slot && Live(c.dir[k], j) ==>
                  SlotBlock(c.disk, c.dir[k], j) < c.total && Used(bitmap', SlotBlock(c.disk, c.dir[k], j)))
            && UsedCount(bitmap', c.total) == UsedCount(bitmap, c.total) - 1
  {
    hide Behind, View, EntryOk;
    var b := SlotBlock(c.disk, c.dir[k], slot);
    OwnedInRange(c.total, c.dir, c.bitmap, c.disk, c.owner, k, slot);
    MarkBlockReads(bitmap, b, false);
    Bits.CountMark(bitmap, 8, c.total, b, false);
    forall j: nat | j >= i && j != slot && Live(c.dir[k], j)
      ensures SlotBlock(c.disk, c.dir[k], j) != b
    {
      OwnedInRange(c.total, c.dir, c.bitmap, c.disk, c.owner, k, j);
    }
  }

  lemma ReleaseStep(c: Core, k: nat, bitmap: Sector, i: nat)
    requires AtRest(c) && Releasing(c, k, bitmap, i) && c.dir[k].used && k < FS_MAX_FILES && i < Blocks(c.dir[k].size)
    ensures BlockAt(c.disk, c.dir[k], i) < c.total
    ensures Releasing(c, k, MarkBlock(bitmap, BlockAt(c.disk, c.dir[k], i), false), i + 1)
  {
    assert i < FS_MAX_BLOCKS && Live(c.dir[k], i) by { RestEntry(c, k); SizeBound(c, k); }
    assert SlotBlock(c.disk, c.dir[k], i) == BlockAt(c.disk, c.dir[k], i);
    ReleaseSlot(c, k, bitmap, i, i);
  }

  lemma SizeBound(c: Core, k: nat)
    requires AtRest(c) && k < FS_MAX_FILES && c.dir[k].used
    ensures Blocks(c.dir[k].size) <= FS_MAX_BLOCKS
  {
    assert EntryOk(c.dir[k]);
  }

  lemma ReleaseEnd(c: Core, k: nat, bitmap: Sector)
    requires AtRest(c) && k < FS_MAX_FILES && k < |c.dir| && c.dir[k].used
    requires Releasing(c, k, bitmap, Blocks(c.dir[k].size))
    ensures c.dir[k].indirect != 0 ==> c.dir[k].indirect < c.total
    ensures c.dir[k].indirect != 0 ==>
      var bitmap' := MarkBlock(bitmap, c.dir[k].indirect, false);
      && (forall b :: b in c.owner && c.owner[b].0 != k ==> Used(bitmap', b))
      && UsedCount(bitmap', c.total) == UsedCount(bitmap, c.total) - 1
  {
    if c.dir[k].indirect != 0 {
      SizeBound(c, k);
      assert SlotBlock(c.disk, c.dir[k], INDIRECT_SLOT) == c.dir[k].indirect;
      ReleaseSlot(c, k, bitmap, Blocks(c.dir[k].size), INDIRECT_SLOT);
    }
  }

  lemma ExactAfterDelete(c: Core, k: nat, bitmap: Sector)
    requires ExactSpace(c.total, c.dir, c.bitmap) && k < |c.dir| && c.dir[k].used
    requires UsedCount(bitmap, c.total) == UsedCount(c.bitmap, c.total)
               - Blocks(c.dir[k].size) - if c.dir[k].indirect != 0 then 1 else 0
    ensures ExactSpace(c.total, c.dir[k := BLANK], bitmap)
  {
    TotalCostPut(c.dir, |c.dir|, k, BLANK);
  }

  ghost function MapOf(dir: Directory, disk: Disk): FileMap {
    if DirOk(dir) then View(dir, disk) else map[]
  }

  lemma CommitBegin(disk: Disk, dir: Directory)
    requires |disk| >= FS_DATA_START && EncodableDir(dir)
    ensures Committing(disk, dir, disk, 0)
  {
  }

  lemma CommitStart(c: Core, k: nat)
    requires Committable(c, k)
    ensures |c.disk| >= FS_DATA_START && DirOk(c.dir) && EncodableDir(c.dir) && DirOk(DirOnDisk(c.disk))
    ensures Readable(c.total, c.dir, c.disk) && SuperOk(c.total, c.disk) && Mountable(c.total, c.disk)
    ensures k < FS_MAX_FILES && SameFiles(c.disk, DirOnDisk(c.disk), c.disk, c.dir, k)
    ensures DiskMap(c.disk) == View(DirOnDisk(c.disk), c.disk) && MapOf(c.dir, c.disk) == View(c.dir, c.disk)
  {
    InvReadable(c.total, c.dir, c.bitmap, c.disk, c.owner);
  }

  lemma CommitCrashPoint(c: Core, disk: Disk, k: nat, n: nat)
    requires Committable(c, k) && Committing(c.disk, c.dir, disk, n)
    ensures CrashPoint(c.total, disk, DiskMap(c.disk), MapOf(c.dir, c.disk))
  {
    hide Committing, View, Inv, SameFiles;
    CommitStart(c, k);
    CommitCrash(c.total, c.disk, c.dir, disk, k, n);
  }

  lemma CommittingShape(before: Disk, dir: Directory, disk: Disk, n: nat)
    requires Committing(before, dir, disk, n)
    ensures |disk| == |before| >= FS_DATA_START
  {
  }

  lemma CrashWeaken(total: nat, disk: Disk, a: FileMap, b: FileMap)
    requires CrashPoint(total, disk, b, b)
    ensures CrashPoint(total, disk, a, b)
  {
  }

  // ---- what one pass and the whole loop of write_at achieve --------------------------------

  ghost function FreeIn(c: Core): nat {
    if c.total <= 4096 then FreeCount(c.bitmap, c.total) else 0
  }

  /** Only entry k changed, and of it only the block numbers; the disk side's owners did not move. */
  ghost predicate SameShape(c: Core, c': Core, k: nat) {
    SameMeta(c.dir, c'.dir, k) && c.total == c'.total && c.saved == c'.saved
  }

  /** A block was taken for the slot just past `size`, or none could be and nothing readable changed. */
  ghost predicate BlockTaken(c: Core, c': Core, k: nat, size: nat, block: nat, m: FileMap) {
    && k < |c.dir| == |c'.dir| && |c.dir[k].direct| == |c'.dir[k].direct| == 8
    && SameShape(c, c', k)
    && Growing(c', k, size, m)
    && Bytes(c', k, size) == Bytes(c, k, size)
    && var had, cost := c.dir[k].indirect != 0, if c.dir[k].indirect == 0 && Blocks(size) >= 8 then 2 else 1;
    && (block != NO_BLOCK <==> cost <= FreeIn(c))
    && (block != NO_BLOCK ==>
          && FreeIn(c') == FreeIn(c) - cost
          && block < c'.total <= 4096 && Used(c'.bitmap, block) && block !in c'.owner && Unmarked(c'.disk, block)
          && BlockAt(c'.disk, Grown(c', k, size), Blocks(size)) == block
          && (c'.dir[k].indirect != 0 <==> had || Blocks(size) >= 8))
    && (block == NO_BLOCK ==> c'.dir[k].indirect == c.dir[k].indirect)
    && (had ==> c'.dir[k].indirect != 0)
    && Gains(c, size, c', size, k)
  }

  /** Which passes of write_at allocate: exactly those that start on a block boundary. */
  lemma NeedsBlock(c: Core, k: nat, position: nat, m: FileMap)
    requires Growing(c, k, position, m) && (position == c.dir[k].size || position % 512 == 0)
    ensures var block := BlockAt(c.disk, c.dir[k], position / 512);
            && (position / 512 >= Blocks(c.dir[k].size) || block == NO_BLOCK <==> position % 512 == 0)
            && (position % 512 == 0 ==> position / 512 == Blocks(position))
            && (position % 512 != 0 ==> block < c.total)
  {
    hide Inv, Behind, BlockAt;
    if position % 512 != 0 {
      LastBlock(c, k, position, m);
      GrownBlockAt(c, k, position, position / 512);
      GrowingRange(c, k, position, m);
    }
  }

  lemma ChunkFailed(c: Core, c': Core, k: nat, position: nat, chunk: seq<Byte>, m: FileMap)
    requires Growing(c, k, position, m)
    requires (c' == c && position / 512 >= FS_MAX_BLOCKS)
      || (position % 512 == 0 && BlockTaken(c, c', k, position, NO_BLOCK, m))
    ensures ChunkDone(c, c', k, position, chunk, m, false)
  {
    hide Gains, Behind, FileBytes, BlockAt, FreeCount;
    assert Bytes(c, k, position) + [] == Bytes(c, k, position);
    GainsRefl(c, k, position, m);
    hide Inv;
  }

  lemma ChunkFilled(c: Core, c1: Core, k: nat, position: nat, block: nat, chunk: seq<Byte>, m: FileMap)
    requires position % 512 == 0 && 0 < |chunk| <= 512 && position / 512 < FS_MAX_BLOCKS
    requires BlockTaken(c, c1, k, position, block, m) && block != NO_BLOCK
    ensures FS_DATA_START + block < |c1.disk|
    ensures ChunkDone(c, WithFill(c1, k, position, block, chunk), k, position, chunk, m, true)
  {
    hide Growing, Gains, FileBytes, BlockAt, FreeCount;
    GrowingRange(c1, k, position, m);
    assert Blocks(position) == position / 512;
    GrowFill(c1, k, position, m, block, chunk);
    GainsFill(c1, k, position, m, block, chunk);
    GainsTrans(c, position, c1, position, WithFill(c1, k, position, block, chunk), position + |chunk|, k);
  }

  lemma ChunkPatched(c: Core, k: nat, position: nat, block: nat, chunk: seq<Byte>, m: FileMap)
    requires Growing(c, k, position, m) && position % 512 != 0 && position % 512 + |chunk| <= 512
    requires block == BlockAt(c.disk, c.dir[k], position / 512) && block < c.total
    ensures FS_DATA_START + block < |c.disk|
    ensures ChunkDone(c, WithPatch(c, position, block, chunk), k, position, chunk, m, true)
  {
    hide Growing, Gains, FileBytes, BlockAt, FreeCount;
    GrowingShape(c, k, position, m);
    GrowingRange(c, k, position, m);
    GrownBlockAt(c, k, position, position / 512);
    GrowPatch(c, k, position, m, block, chunk);
    GainsPatch(c, k, position, m, block, chunk);
  }

  ghost predicate ChunkDone(c: Core, c': Core, k: nat, position: nat, chunk: seq<Byte>, m: FileMap, ok: bool) {
    var reached := if ok then position + |chunk| else position;
    && k < |c.dir| == |c'.dir| && |c.dir[k].direct| == |c'.dir[k].direct| == 8
    && SameShape(c, c', k)
    && Growing(c', k, reached, m)
    && Bytes(c', k, reached) == Bytes(c, k, position) + (if ok then chunk else [])
    && var had := c.dir[k].indirect != 0;
    && ok == (position < MAX_SIZE && ChunkCost(position, had) <= FreeIn(c))
    && (ok ==> FreeIn(c') == FreeIn(c) - ChunkCost(position, had))
    && (ok && !had ==> (c'.dir[k].indirect != 0 <==> position % 512 == 0 && Blocks(position) >= 8))
    && (had ==> c'.dir[k].indirect != 0) && (!ok ==> c'.dir[k].indirect == c.dir[k].indirect)
    && Gains(c, position, c', reached, k)
  }

  lemma ChunkGrowing(c: Core, c': Core, k: nat, position: nat, chunk: seq<Byte>, m: FileMap)
    requires ChunkDone(c, c', k, position, chunk, m, true)
    ensures Growing(c', k, position + |chunk|, m)
  {
  }

  lemma UnmarkedFrame(c: Core, s: nat, c': Core, s': nat, k: nat, b: nat)
    requires Gains(c, s, c', s', k) && Unmarked(c.disk, b)
    ensures Unmarked(c'.disk, b)
  {
  }

  /** `written` bytes of `data` are in the file that had c0.dir[k].size bytes at the start. */
  ghost predicate Progress(c0: Core, c: Core, k: nat, data: seq<Byte>, written: nat, m: FileMap) {
    && k < |c0.dir| == |c.dir| && |c0.dir[k].direct| == |c.dir[k].direct| == 8 && written <= |data|
    && var offset, had := c0.dir[k].size, c0.dir[k].indirect != 0;
    && SameShape(c0, c, k)
    && Growing(c, k, offset + written, m)
    && Bytes(c, k, offset + written) == Bytes(c0, k, offset) + data[..written]
    && offset + written <= MAX_SIZE && (!had ==> Blocks(offset) <= 8)
    && FreeIn(c) == FreeIn(c0) - Needed(offset, had, offset + written)
    && (c.dir[k].indirect != 0 <==> had || Blocks(offset + written) > 8)
    && Gains(c0, offset, c, offset + written, k)
  }

  /** The outcome of write_at: everything, or a file whose readable bytes are as before. */
  ghost predicate Written(c0: Core, c: Core, k: nat, data: seq<Byte>, m: FileMap, ok: bool) {
    && k < |c0.dir| == |c.dir| && |c0.dir[k].direct| == |c.dir[k].direct| == 8
    && var offset, had := c0.dir[k].size, c0.dir[k].indirect != 0;
    var reached := if ok then offset + |data| else offset;
    && SameShape(c0, c, k)
    && Growing(c, k, reached, m)
    && Bytes(c, k, reached) == Bytes(c0, k, offset) + (if ok then data else [])
    && (ok <==> CanWrite(c0.dir[k], |data|, FreeIn(c0)))
    && (ok ==> FreeIn(c) == FreeIn(c0) - Needed(offset, had, reached))
    && (!had ==> Blocks(offset) <= 8)
    && (c.dir[k].indirect != 0 <==> had || TakesIndirect(c0.dir[k], |data|, FreeIn(c0)))
    && Gains(c0, offset, c, reached, k)
  }

  /** write_at, successful or not, reaches the ninth block of file e and finds an indirect block for it. */
  predicate TakesIndirect(e: Entry, more: nat, free: nat) {
    e.indirect == 0 && Blocks(e.size + more) > 8 && Blocks(e.size) + free >= 10
  }

  lemma WrittenShape(c0: Core, c: Core, k: nat, data: seq<Byte>, m: FileMap, ok: bool)
    requires Written(c0, c, k, data, m, ok)
    ensures k < |c0.dir| == |c.dir| && |c0.dir[k].direct| == |c.dir[k].direct| == 8
    ensures var offset := c0.dir[k].size;
            var reached := if ok then offset + |data| else offset;
            && c.dir[k].size == offset && c.dir[k].name == c0.dir[k].name && c.dir[k].used == c0.dir[k].used
            && Growing(c, k, reached, m)
            && Bytes(c, k, reached) == Bytes(c0, k, offset) + (if ok then data else [])
            && (ok <==> CanWrite(c0.dir[k], |data|, FreeIn(c0)))
            && (ok ==> FreeIn(c) == FreeIn(c0) - Needed(offset, c0.dir[k].indirect != 0, reached))
    ensures forall j :: 0 <= j < |c.dir| && j != k ==> c.dir[j] == c0.dir[j]
    ensures c.total == c0.total
  {
    hide Growing, FileBytes;
  }

  /** A successful write keeps the accounting exact: c0 at rest, c1 ready to write, c2 written. */
  lemma ExactAfterWrite(c0: Core, c1: Core, c2: Core, k: nat, data: seq<Byte>, m: FileMap)
    requires ExactSpace(c0.total, c0.dir, c0.bitmap) && k < |c0.dir|
    requires c1.total == c0.total && c1.bitmap == c0.bitmap && |c1.dir| == |c0.dir|
    requires c1.dir == c0.dir[k := c1.dir[k]]
    requires if c0.dir[k].used then c1.dir[k] == c0.dir[k] else c1.dir[k].size == 0 && c1.dir[k].indirect == 0
    requires Written(c1, c2, k, data, m, true)
    ensures ExactSpace(c2.total, GrownDir(c2, k, c1.dir[k].size + |data|), c2.bitmap)
  {
    hide Growing, FileBytes;
    var e := Grown(c2, k, c1.dir[k].size + |data|);
    assert GrownDir(c2, k, c1.dir[k].size + |data|) == c0.dir[k := e];
    TotalCostPut(c0.dir, |c0.dir|, k, e);
    assert Needed(c1.dir[k].size, c1.dir[k].indirect != 0, e.size)
        == Cost(e.size) - if c0.dir[k].used then Cost(c0.dir[k].size) else 0;
  }

  lemma ProgressStart(c: Core, k: nat, data: seq<Byte>, m: FileMap)
    requires k < |c.dir| && Growing(c, k, c.dir[k].size, m)
    ensures Progress(c, c, k, data, 0, m)
  {
    GrowingRange(c, k, c.dir[k].size, m);
    assert Bytes(c, k, c.dir[k].size) + data[..0] == Bytes(c, k, c.dir[k].size);
  }

  lemma ProgressShape(c0: Core, c: Core, k: nat, data: seq<Byte>, written: nat, m: FileMap)
    requires Progress(c0, c, k, data, written, m)
    ensures k < |c0.dir| == |c.dir| && c.dir[k].size == c0.dir[k].size
    ensures Growing(c, k, c0.dir[k].size + written, m)
  {
  }

  lemma ProgressStep(c0: Core, c: Core, c': Core, k: nat, data: seq<Byte>, written: nat, chunk: nat, m: FileMap,
      ok: bool)
    requires Progress(c0, c, k, data, written, m) && 0 < chunk && written + chunk <= |data|
    requires written == 0 || (c0.dir[k].size + written) % 512 == 0
    requires (c0.dir[k].size + written) % 512 + chunk <= 512
    requires ChunkDone(c, c', k, c0.dir[k].size + written, data[written..written + chunk], m, ok)
    ensures ok ==> Progress(c0, c', k, data, written + chunk, m)
    ensures !ok ==> Written(c0, c', k, data, m, false)
  {
    hide Progress, Written, ChunkDone;
    if ok {
      ProgressMore(c0, c, c', k, data, written, chunk, m);
    } else {
      ProgressFails(c0, c, c', k, data, written, chunk, m);
    }
  }

  lemma ProgressMore(c0: Core, c: Core, c': Core, k: nat, data: seq<Byte>, written: nat, chunk: nat, m: FileMap)
    requires Progress(c0, c, k, data, written, m) && 0 < chunk && written + chunk <= |data|
    requires written == 0 || (c0.dir[k].size + written) % 512 == 0
    requires (c0.dir[k].size + written) % 512 + chunk <= 512
    requires ChunkDone(c, c', k, c0.dir[k].size + written, data[written..written + chunk], m, true)
    ensures Progress(c0, c', k, data, written + chunk, m)
  {
    hide Growing, Gains, Bytes, FreeIn, Needed, ChunkCost, Blocks;
    var offset, had := c0.dir[k].size, c0.dir[k].indirect != 0;
    ChunkArith(offset, had, offset + written, chunk, offset + |data|);
    var piece := data[written..written + chunk];
    assert |piece| == chunk && data[..written] + piece == data[..written + chunk];
    GainsTrans(c0, offset, c, offset + written, c', offset + written + chunk, k);
    assert Bytes(c0, k, offset) + data[..written] + piece == Bytes(c0, k, offset) + (data[..written] + piece);
  }

  lemma ProgressFails(c0: Core, c: Core, c': Core, k: nat, data: seq<Byte>, written: nat, chunk: nat, m: FileMap)
    requires Progress(c0, c, k, data, written, m) && 0 < chunk && written + chunk <= |data|
    requires written == 0 || (c0.dir[k].size + written) % 512 == 0
    requires (c0.dir[k].size + written) % 512 + chunk <= 512
    requires ChunkDone(c, c', k, c0.dir[k].size + written, data[written..written + chunk], m, false)
    ensures Written(c0, c', k, data, m, false)
  {
    hide Growing, Gains, Bytes, FreeIn, Needed, ChunkCost, Blocks;
    var offset, had := c0.dir[k].size, c0.dir[k].indirect != 0;
    ChunkArith(offset, had, offset + written, chunk, offset + |data|);
    GrowAbandon(c', k, offset + written, offset, m);
    GainsTrans(c0, offset, c, offset + written, c', offset + written, k);
    GainsShrink(c0, offset, c', offset + written, k);
    IndirectArith(offset, had, offset + written, offset + |data|, FreeIn(c0));
    assert |Bytes(c0, k, offset)| == offset by { BytesSize(c0, k, offset); }
  }

  lemma BytesSize(c: Core, k: nat, size: nat)
    requires k < |c.dir| && |c.dir[k].direct| == 8
    ensures |Bytes(c, k, size)| == size
  {
  }

  lemma ProgressEnd(c0: Core, c: Core, k: nat, data: seq<Byte>, m: FileMap)
    requires Progress(c0, c, k, data, |data|, m)
    ensures Written(c0, c, k, data, m, true)
  {
    hide Growing, FileBytes, FreeCount;
    assert data[..|data|] == data;
  }

  /** The exact condition for write_at to succeed at the end of file e. */
  predicate CanWrite(e: Entry, more: nat, free: nat) {
    e.size + more <= MAX_SIZE && Needed(e.size, e.indirect != 0, e.size + more) <= free
  }

  /** Stepping `Needed` by one chunk. */
  lemma ChunkArith(offset: nat, had: bool, position: nat, chunk: nat, target: nat)
    requires offset <= position && 0 < chunk && position % 512 + chunk <= 512 && position + chunk <= target
    requires position == offset || position % 512 == 0
    requires !had ==> Blocks(offset) <= 8
    ensures Needed(offset, had, position + chunk)
         == Needed(offset, had, position) + ChunkCost(position, had || Blocks(position) > 8)
    ensures Needed(offset, had, position) + ChunkCost(position, had || Blocks(position) > 8) <=
      Needed(offset, had, target)
    ensures Blocks(position + chunk) > 8 <==> Blocks(position) > 8 || (position % 512 == 0 && Blocks(position) >= 8)
    ensures position >= MAX_SIZE ==> target > MAX_SIZE
    ensures position < MAX_SIZE ==> position + chunk <= MAX_SIZE
  {
    assert Blocks(position + chunk) == Blocks(position) + if position % 512 == 0 then 1 else 0;
    assert Blocks(position + chunk) <= Blocks(target);
  }

  /** Where a failing write_at stops, it has an indirect block if and only if `TakesIndirect` said so. */
  lemma IndirectArith(offset: nat, had: bool, position: nat, target: nat, free: nat)
    requires offset <= position < target && position <= MAX_SIZE && (!had ==> Blocks(offset) <= 8)
    requires position == offset || position % 512 == 0
    requires Needed(offset, had, position) <= free
    requires position >= MAX_SIZE
      || Needed(offset, had, position) + ChunkCost(position, had || Blocks(position) > 8) > free
    ensures !had ==> (Blocks(position) > 8 <==> Blocks(target) > 8 && Blocks(offset) + free >= 10)
  {
    assert Blocks(offset) <= Blocks(position) <= Blocks(target);
    assert position % 512 == 0 ==> Blocks(target) > Blocks(position);
  }

  /** Blocks one chunk takes from the pool. */
  function ChunkCost(position: nat, hasIndirect: bool): nat {
    if position % 512 != 0 then 0 else if !hasIndirect && Blocks(position) >= 8 then 2 else 1
  }

  lemma GrownBlockAt(c: Core, k: nat, size: nat, i: nat)
    requires k < |c.dir| && |c.dir[k].direct| == 8
    ensures BlockAt(c.disk, Grown(c, k, size), i) == BlockAt(c.disk, c.dir[k], i)
  {
  }

  lemma GrowingShape(c: Core, k: nat, size: nat, m: FileMap)
    requires Growing(c, k, size, m)
    ensures k < |c.dir| == FS_MAX_FILES && |c.dir[k].direct| == 8 && c.dir[k].size <= size
  {
  }

  lemma SafeRefl(h: seq<Disk>, total: nat, a: FileMap, b: FileMap)
    ensures SafeSince(h, h, total, a, b)
  {
  }

  ghost predicate SameMeta(a: Directory, b: Directory, k: nat) {
    && |a| == |b|
    && (forall j :: 0 <= j < |a| && j != k ==> a[j] == b[j])
    && (k < |a| ==>
         a[k].name == b[k].name && a[k].size == b[k].size && a[k].used == b[k].used && |a[k].direct| == |b[k].direct|)
  }
}
