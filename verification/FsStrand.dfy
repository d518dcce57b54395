/**
 A disk that a crash in fs_delete leaves out of order.

 A failed append can leave its file an indirect block that only memory knows of. The next commit, of whatever
 file, writes that entry to the disk one sector ahead of the bitmap.
 */
module FsStrand {
  import opened FsLayout
  import opened FsModel
  import opened FsCrash
  import opened FsGrow
  import opened FsUpdate
  import opened FsSound
  import opened Fs

  /** An append that fails after taking an indirect block, then a delete of another file: from the moment the
      entry of the first file is on disk until the bitmap is, the disk is not in order. */
  method AppendThenDelete(fs: ArthicFS, a: Name, data: seq<Byte>, b: Name) returns (appended: bool, deleted: bool)
    requires fs.Valid() && fs.mounted
    requires (forall i :: 0 <= i < |a| ==> a[i] != 0) && forall i :: 0 <= i < |b| ==> b[i] != 0
    requires fs.Strands(a, |data|) && !fs.Fits(a, |data|) && b in fs.Files() && a != b
    modifies fs
    ensures !appended && deleted && fs.Valid() && fs.mounted && fs.Files() == old(fs.Files()) - {b}
    ensures |fs.history| >= |old(fs.history)| + COMMIT_WRITES && old(Find(fs.directory, a, 0)) < FS_MAX_FILES
    ensures forall n :: old(Find(fs.directory, a, 0)) / 4 < n <= FS_DIR_SECTORS ==>
      !SoundAt(fs.history, fs.totalBlocks, n)
    ensures SafeSince(old(fs.history), fs.history, fs.totalBlocks, old(fs.Files()), fs.Files())
  {
    hide AtRest, View, SafeSince, Marked, SoundAt, TakesIndirect, CanWrite, DirOnDisk, Sound;
    ghost var m := fs.Files();
    RestShape(fs.Snap());
    appended := fs.Append(a, data);
    RestShape(fs.Snap());
    ViewHas(fs.directory, fs.disk, a);
    ghost var h1 := fs.history;
    assert old(Find(fs.directory, a, 0)) / 4 < FS_DIR_SECTORS;
    deleted := fs.Delete(b);
    SafeBoth(old(fs.history), h1, fs.history, fs.totalBlocks, m, fs.Files());
  }

  const FIRST: Name := [65]
  const SECOND: Name := [66]

  /** Such a disk exists, eleven blocks from fs_format: a file of eight blocks, one of a single block, an append
      of two more to the first, and the power fails while the second is being deleted. */
  method Stranded(fs: ArthicFS, first: seq<Byte>, second: seq<Byte>, more: seq<Byte>)
    requires |fs.disk| == FS_DATA_START + 11 && |first| == 4096 && |second| == 512 && |more| == 1024
    modifies fs
    ensures fs.Valid() && fs.mounted && fs.Files() == map[FIRST := first]
    ensures |fs.history| >= COMMIT_WRITES && !SoundAt(fs.history, fs.totalBlocks, FS_DIR_SECTORS)
    ensures CrashPoint(fs.totalBlocks, fs.history[|fs.history| - 2], map[FIRST := first, SECOND := second], fs.Files())
  {
    hide AtRest, View, SafeSince, Marked, SoundAt, Sound, ExactSpace, CrashPoint, FreeCount, DirOnDisk;
    TwoFiles(fs, first, second);
    ghost var m, h := fs.Files(), fs.history;
    OneIndirect(fs.Snap(), FIRST);
    assert fs.Strands(FIRST, |more|) && !fs.Fits(FIRST, |more|);
    var appended, deleted := AppendThenDelete(fs, FIRST, more, SECOND);
    LastPoint(h, fs.history, fs.totalBlocks, m, fs.Files());
  }

  /** Two blocks are left once both files are there. */
  method TwoFiles(fs: ArthicFS, first: seq<Byte>, second: seq<Byte>)
    requires |fs.disk| == FS_DATA_START + 11 && |first| == 4096 && |second| == 512
    modifies fs
    ensures fs.Valid() && fs.mounted && fs.Files() == map[FIRST := first, SECOND := second]
    ensures fs.Accounted() && fs.Free() == 2
  {
    hide AtRest, View, SafeSince, MarkedUpTo, SoundAt, SoundSince, ExactSpace, FreeCount, DirOnDisk;
    var ok := fs.Format();
    AllFree(fs.Snap());
    ok := fs.Create(FIRST, first);
    Space(fs.Snap());
    ok := fs.Create(SECOND, second);
  }

  lemma LastPoint(h0: seq<Disk>, h: seq<Disk>, total: nat, a: FileMap, b: FileMap)
    requires SafeSince(h0, h, total, a, b) && |h| >= |h0| + COMMIT_WRITES
    ensures CrashPoint(total, h[|h| - 2], a, b)
  {
  }

  lemma AllFree(c: Core)
    requires AtRest(c) && ExactSpace(c.total, c.dir, c.bitmap)
    ensures DirOk(c.dir) && c.total <= 4096
    ensures View(c.dir, c.disk) == map[] ==> FreeCount(c.bitmap, c.total) == c.total
    ensures View(c.dir, c.disk) == map[] ==> exists k :: 0 <= k < |c.dir| && !c.dir[k].used
  {
    RestShape(c);
    RoomIsFewFiles(c.dir, c.disk);
    if View(c.dir, c.disk) == map[] {
      TotalCostNone(c.dir, |c.dir|);
    }
  }

  lemma Space(c: Core)
    requires AtRest(c)
    ensures DirOk(c.dir)
    ensures |View(c.dir, c.disk)| < FS_MAX_FILES ==> exists k :: 0 <= k < |c.dir| && !c.dir[k].used
  {
    RoomIsFewFiles(c.dir, c.disk);
  }

  /** With exact accounting, a file of eight blocks has no indirect block. */
  lemma OneIndirect(c: Core, name: Name)
    requires AtRest(c) && ExactSpace(c.total, c.dir, c.bitmap)
    ensures DirOk(c.dir)
    ensures name in View(c.dir, c.disk) ==>
      var k := Find(c.dir, name, 0);
      && k < |c.dir| && c.dir[k].size == |View(c.dir, c.disk)[name]|
      && (c.dir[k].indirect != 0 <==> Blocks(c.dir[k].size) > 8)
  {
    hide View;
    ViewHas(c.dir, c.disk, name);
  }

  lemma SafeBoth(h0: seq<Disk>, h1: seq<Disk>, h2: seq<Disk>, total: nat, m: FileMap, m': FileMap)
    requires SafeSince(h0, h1, total, m, m) && SafeSince(h1, h2, total, m, m')
    ensures SafeSince(h0, h2, total, m, m')
  {
    assert SafeSince(h0, h1, total, m, m');
    SafeTrans(h0, h1, h2, total, m, m');
  }
}
