/**
 After which crashes a mounted disk is in full order: not only readable, but safe to write to.

 The directory reaches the disk before the bitmap does. In between, the disk is in order if and only if
 the old bitmap already marks every block that the part of the directory already written names.
 */
module FsSound {
  import opened FsLayout
  import opened FsModel
  import opened FsCrash
  import opened FsGrow
  import opened FsUpdate
  import opened FsSlots

  /** The disk a completed update leaves behind. */
  ghost predicate CleanDisk(total: nat, disk: Disk, owner: Owner) {
    |disk| >= FS_DATA_START && AtRest(Core(total, DirOnDisk(disk), disk[FS_BITMAP_SECTOR], disk, owner, owner))
  }

  /** Between updates the disk is always clean, whatever failed updates left in memory. */
  lemma RestIsClean(c: Core)
    requires AtRest(c)
    ensures CleanDisk(U32At(c.disk[0], 4), c.disk, c.saved) && DiskMap(c.disk) == View(c.dir, c.disk)
  {
    Remount(c);
    RestShape(c);
  }

  /** Mounting the disk gives a file system in full order. */
  ghost predicate Sound(total: nat, disk: Disk) {
    exists owner :: CleanDisk(total, disk, owner)
  }

  lemma CleanIs(total: nat, disk: Disk, owner: Owner)
    requires SuperOk(total, disk) && Inv(total, DirOnDisk(disk), disk[FS_BITMAP_SECTOR], disk, owner)
    ensures CleanDisk(total, disk, owner)
  {
    hide Inv, View, FileBytes;
    SameFilesRefl(total, DirOnDisk(disk), disk[FS_BITMAP_SECTOR], disk, owner, FS_MAX_FILES);
  }

  lemma RestIsSound(c: Core)
    requires AtRest(c)
    ensures Sound(c.total, c.disk)
  {
    hide Inv, View, FileBytes, CleanDisk;
    CleanIs(c.total, c.disk, c.saved);
  }

  /** A crash while data is being written: the disk is sound, and shows the map before the call. */
  lemma CrashInData(c: Core, k: nat, size: nat, m: FileMap)
    requires Growing(c, k, size, m)
    ensures Sound(c.total, c.disk) && CrashPoint(c.total, c.disk, m, m)
  {
    hide Inv, View, FileBytes, CleanDisk, CrashPoint;
    CleanIs(c.total, c.disk, c.saved);
    BehindIsMountable(c.total, GrownDir(c, k, size), c.bitmap, c.disk, c.owner, c.saved, k, m);
  }

  // ---- the bitmap on disk against the directory in memory -----------------------------------

  /** The bitmap on disk marks every block that the entry names. */
  ghost predicate Marked(disk: Disk, e: Entry) {
    |disk| >= FS_DATA_START && |e.direct| == 8 && forall i: nat :: Live(e, i) ==>
      SlotBlock(disk, e, i) < 4096 && Used(disk[FS_BITMAP_SECTOR], SlotBlock(disk, e, i))
  }

  /** It does so for the entries of the first n directory sectors, entry `except` left aside. */
  ghost predicate MarkedUpTo(dir: Directory, disk: Disk, n: nat, except: nat) {
    forall j: nat :: j < |dir| && j / 4 < n && j != except ==> Marked(disk, dir[j])
  }

  /** One set of owners for the directory in memory and the directory on disk. */
  ghost predicate Joint(c: Core, all: Owner) {
    && SuperOk(c.total, c.disk)
    && Inv(c.total, DirOnDisk(c.disk), c.disk[FS_BITMAP_SECTOR], c.disk, c.saved)
    && SubOwner(c.owner, all) && SubOwner(c.saved, all)
  }

  /** The owners a half-written directory is left with. */
  ghost function Remaining(c: Core, all: Owner): Owner
    requires |c.disk| >= FS_DATA_START
  {
    map b | b in all && b < 4096 && b < c.total && Used(c.disk[FS_BITMAP_SECTOR], b) && all[b].0 < FS_MAX_FILES ::
      all[b]
  }

  lemma HalfOwned(c: Core, k: nat, all: Owner, mixed: Directory, n: nat)
    requires Committable(c, k) && Joint(c, all) && Mixed(DirOnDisk(c.disk), c.dir, mixed, n) && DirOk(mixed)
    requires MarkedUpTo(c.dir, c.disk, n, FS_MAX_FILES)
    ensures Inv(c.total, mixed, c.disk[FS_BITMAP_SECTOR], c.disk, Remaining(c, all))
  {
    hide View, SameFiles, Readable, Mountable, EntryOk, BlockAt;
    var owner := Remaining(c, all);
    forall j: nat, i: nat | j < FS_MAX_FILES && Live(mixed[j], i)
      ensures SlotBlock(c.disk, mixed[j], i) in owner && owner[SlotBlock(c.disk, mixed[j], i)] == (j, i)
    {
      if j / 4 < n {
        OwnedInRange(c.total, c.dir, c.bitmap, c.disk, c.owner, j, i);
        assert Marked(c.disk, c.dir[j]);
      } else {
        OwnedInRange(c.total, DirOnDisk(c.disk), c.disk[FS_BITMAP_SECTOR], c.disk, c.saved, j, i);
      }
    }
  }

  lemma HalfReadable(c: Core, k: nat, disk: Disk, n: nat)
    requires Committable(c, k) && Committing(c.disk, c.dir, disk, n)
    ensures DirOk(DirOnDisk(disk)) && DirOk(c.dir)
  {
    InvReadable(c.total, c.dir, c.bitmap, c.disk, c.owner);
    hide Inv, View;
    MixedView(c.total, DirOnDisk(c.disk), c.dir, DirOnDisk(disk), c.disk, k, n);
  }

  lemma SoundMarks(total: nat, disk: Disk, j: nat)
    requires Sound(total, disk) && j < FS_MAX_FILES
    ensures |disk| >= FS_DATA_START && Marked(disk, DirOnDisk(disk)[j])
  {
    hide View, Behind;
    var owner :| CleanDisk(total, disk, owner);
    assert EntryOk(DirOnDisk(disk)[j]);
  }

  lemma MarkedFrame(a: Disk, b: Disk, e: Entry)
    requires |a| == |b| >= FS_DATA_START && forall x :: FS_BITMAP_SECTOR <= x < |a| ==> a[x] == b[x]
    ensures Marked(a, e) <==> Marked(b, e)
  {
    assert |e.direct| == 8 ==> forall i: nat :: SlotBlock(a, e, i) == SlotBlock(b, e, i);
  }

  /** A crash after n sectors of the directory have been written: the disk is sound if and only if its bitmap
      marks every block that those n sectors name. */
  lemma CrashInDirectory(c: Core, k: nat, all: Owner, disk: Disk, n: nat)
    requires Committable(c, k) && Joint(c, all) && Committing(c.disk, c.dir, disk, n)
    ensures Sound(c.total, disk) <==> MarkedUpTo(c.dir, c.disk, n, FS_MAX_FILES)
  {
    hide View, FileBytes, Readable, SameFiles, Marked, Inv, Sound, Mountable, DirOnDisk;
    HalfReadable(c, k, disk, n);
    if MarkedUpTo(c.dir, c.disk, n, FS_MAX_FILES) {
      HalfOwned(c, k, all, DirOnDisk(disk), n);
      InvFrame(c.total, DirOnDisk(disk), c.disk[FS_BITMAP_SECTOR], c.disk, disk, Remaining(c, all));
      SoundFrom(c.total, disk, Remaining(c, all));
    }
    if Sound(c.total, disk) {
      forall j: nat | j < |c.dir| && j / 4 < n
        ensures Marked(c.disk, c.dir[j])
      {
        SoundMarks(c.total, disk, j);
        MarkedFrame(c.disk, disk, c.dir[j]);
      }
    }
  }

  lemma SoundFrom(total: nat, disk: Disk, owner: Owner)
    requires SuperOk(total, disk) && Inv(total, DirOnDisk(disk), disk[FS_BITMAP_SECTOR], disk, owner)
    ensures Sound(total, disk)
  {
    hide CleanDisk;
    CleanIs(total, disk, owner);
  }

  // ---- the same, told before the call -------------------------------------------------------

  /** fs_delete: every block that another file's entry names, as far as the directory is written. */
  lemma CrashInDelete(c: Core, k: nat, bitmap': Sector, disk: Disk, n: nat)
    requires AtRest(c) && k < FS_MAX_FILES == |c.dir| && c.dir[k].used
    requires forall b :: b in c.owner && c.owner[b].0 != k ==> b < 4096 && Used(bitmap', b)
    requires Committing(c.disk, c.dir[k := BLANK], disk, n)
    ensures Sound(c.total, disk) <==> MarkedUpTo(c.dir, c.disk, n, k)
  {
    hide View, FileBytes, SameFiles, Marked, Sound, Committing, Inv;
    FinishDelete(c, k, bitmap');
    var c' := c.(dir := c.dir[k := BLANK], bitmap := bitmap', owner := WithoutFile(c.owner, k));
    CrashInDirectory(c', k, c.owner, disk, n);
    BlankMarked(c.disk);
    assert forall j: nat :: j < FS_MAX_FILES && j != k ==> c'.dir[j] == c.dir[j];
    assert c'.dir[k] == BLANK;
    if MarkedUpTo(c'.dir, c.disk, n, FS_MAX_FILES) {
      forall j: nat | j < |c.dir| && j / 4 < n && j != k
        ensures Marked(c.disk, c.dir[j])
      {
        assert Marked(c.disk, c'.dir[j]);
      }
    }
  }

  lemma BlankMarked(disk: Disk)
    requires |disk| >= FS_DATA_START
    ensures Marked(disk, BLANK)
  {
  }

  /** fs_create and fs_append: c is the state before the call with entry k ready to grow from `start` bytes,
      c' has it grown to `size`. */
  ghost predicate Grew(c: Core, c': Core, k: nat, start: nat, size: nat) {
    && k < |c.dir| == |c'.dir| == FS_MAX_FILES && |c.dir[k].direct| == |c'.dir[k].direct| == 8 && start <= size
    && Gains(c, start, c', size, k)
    && (forall j :: 0 <= j < |c.dir| && j != k ==> c'.dir[j] == c.dir[j] && |c.dir[j].direct| == 8)
    && c.dir[k].size == start && size <= MAX_SIZE
  }

  /** The growth took no block for file k. */
  ghost predicate TookNone(c: Core, c': Core, k: nat, start: nat, size: nat)
    requires k < |c.dir| == |c'.dir|
  {
    Blocks(size) == Blocks(start) && (c'.dir[k].indirect != 0 ==> c.dir[k].indirect != 0)
  }

  lemma KeptMarks(c: Core, c': Core, k: nat, start: nat, size: nat, j: nat)
    requires Grew(c, c', k, start, size) && j < |c.dir| && j != k
    ensures Marked(c.disk, c.dir[j]) <==> Marked(c'.disk, c'.dir[j])
  {
    var dir := GrownDir(c, k, start);
    assert forall i: nat :: Live(dir[j], i) ==> SlotBlock(c'.disk, c'.dir[j], i) == SlotBlock(c.disk, c.dir[j], i);
  }

  lemma GrownMarks(c: Core, c': Core, k: nat, start: nat, size: nat)
    requires Grew(c, c', k, start, size)
    ensures Marked(c'.disk, Grown(c', k, size)) <==>
      Marked(c.disk, Grown(c, k, start)) && TookNone(c, c', k, start, size)
  {
    hide Gains, BlockAt;
    var e, e' := Grown(c, k, start), Grown(c', k, size);
    GainsEntry(c, c', k, start, size);
    assert Blocks(start) <= Blocks(size) <= INDIRECT_SLOT;
    if Blocks(size) != Blocks(start) {
      assert Live(e', Blocks(start)) && !Live(e, Blocks(start));
    } else if c'.dir[k].indirect != 0 && c.dir[k].indirect == 0 {
      assert Live(e', INDIRECT_SLOT) && !Live(e, INDIRECT_SLOT);
    }
  }

  lemma GainsEntry(c: Core, c': Core, k: nat, start: nat, size: nat)
    requires Gains(c, start, c', size, k) && |c.dir[k].direct| == |c'.dir[k].direct| == 8
    ensures forall i: nat :: Live(Grown(c, k, start), i) ==>
      Live(Grown(c', k, size), i)
        && SlotBlock(c'.disk, Grown(c', k, size), i) == SlotBlock(c.disk, Grown(c, k, start), i)
    ensures forall i: nat :: Live(Grown(c', k, size), i) && !Live(Grown(c, k, start), i) ==>
      Unmarked(c'.disk, SlotBlock(c'.disk, Grown(c', k, size), i))
    ensures |c.disk| == |c'.disk| >= FS_DATA_START && c'.disk[FS_BITMAP_SECTOR] == c.disk[FS_BITMAP_SECTOR]
  {
    hide BlockAt;
    forall i: nat | Live(Grown(c, k, start), i)
      ensures Live(Grown(c', k, size), i)
      ensures SlotBlock(c'.disk, Grown(c', k, size), i) == SlotBlock(c.disk, Grown(c, k, start), i)
    {
      assert Live(GrownDir(c, k, start)[k], i);
    }
  }

  /** Marks after a growth against marks before it, `dir` being the directory the call found: only a write
      that took no block can leave its own entry marked. */
  lemma WriteMarks(dir: Directory, c: Core, c': Core, k: nat, start: nat, size: nat, n: nat)
    requires Grew(c, c', k, start, size)
    requires |dir| == |c.dir| && (forall j :: 0 <= j < |dir| && j != k ==> dir[j] == c.dir[j])
    requires (dir[k] == c.dir[k] && dir[k].used) || (dir[k] == BLANK && start == 0 && c.dir[k].indirect == 0)
    ensures MarkedUpTo(GrownDir(c', k, size), c'.disk, n, FS_MAX_FILES)
       <==> MarkedUpTo(dir, c.disk, n, FS_MAX_FILES) && (k / 4 < n ==> TookNone(c, c', k, start, size))
  {
    hide Grew, Gains, TookNone;
    GrewShape(c, c', k, start, size);
    GrownMarks(c, c', k, start, size);
    var dir' := GrownDir(c', k, size);
    assert Marked(c.disk, dir[k]) <==> Marked(c.disk, Grown(c, k, start)) by { SameMarks(c, k, start, dir[k]); }
    hide Marked;
    forall j: nat | j < |dir| && j != k
      ensures Marked(c.disk, dir[j]) <==> Marked(c'.disk, dir'[j])
    {
      KeptMarks(c, c', k, start, size, j);
    }
    assert dir'[k] == Grown(c', k, size);
  }

  /** A create that failed leaves the marks of the others as they were. */
  lemma AbandonedMarks(dir: Directory, c: Core, c': Core, k: nat, start: nat, size: nat, n: nat)
    requires Grew(c, c', k, start, size)
    requires |dir| == |c.dir| && (forall j :: 0 <= j < |dir| && j != k ==> dir[j] == c.dir[j]) && dir[k] == BLANK
    ensures MarkedUpTo(c'.dir[k := BLANK], c'.disk, n, FS_MAX_FILES) <==> MarkedUpTo(dir, c.disk, n, FS_MAX_FILES)
  {
    hide Grew, Gains;
    GrewShape(c, c', k, start, size);
    BlankMarked(c.disk);
    BlankMarked(c'.disk);
    var dir' := c'.dir[k := BLANK];
    hide Marked;
    forall j: nat | j < |dir|
      ensures Marked(c.disk, dir[j]) <==> Marked(c'.disk, dir'[j])
    {
      if j != k {
        KeptMarks(c, c', k, start, size, j);
      }
    }
  }

  lemma GrewShape(c: Core, c': Core, k: nat, start: nat, size: nat)
    requires Grew(c, c', k, start, size)
    ensures k < |c.dir| == |c'.dir| == FS_MAX_FILES && |c'.disk| == |c.disk| >= FS_DATA_START
    ensures c.dir[k].size == start
    ensures |c.dir[k].direct| == 8
    ensures forall j :: 0 <= j < |c.dir| && j != k ==> c'.dir[j] == c.dir[j]
  {
  }

  lemma SameMarks(c: Core, k: nat, start: nat, e: Entry)
    requires k < |c.dir| && |c.disk| >= FS_DATA_START && c.dir[k].size == start && |c.dir[k].direct| == 8
    requires (e == c.dir[k] && e.used) || (e == BLANK && start == 0 && c.dir[k].indirect == 0)
    ensures Marked(c.disk, e) <==> Marked(c.disk, Grown(c, k, start))
  {
    assert e.used ==> Grown(c, k, start) == e;
  }

  /** Where directory and bitmap in memory are those on disk, every block named is marked. */
  lemma AgreeingMarks(c: Core)
    requires AtRest(c) && |c.disk| >= FS_DATA_START && c.disk[FS_BITMAP_SECTOR] == c.bitmap
    ensures MarkedUpTo(c.dir, c.disk, FS_DIR_SECTORS, FS_MAX_FILES)
  {
    hide Behind, View;
    forall j: nat | j < |c.dir|
      ensures Marked(c.disk, c.dir[j])
    {
      assert EntryOk(c.dir[j]);
    }
  }
}
