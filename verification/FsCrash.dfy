/**
 What a crash leaves: the disk as some prefix of the sector writes made it.

 A recovered disk is judged by what mounting it and reading every file would show. The memory
 state of the file system runs ahead of the disk between commits, so two invariants are kept side
 by side: one for the directory and bitmap in memory, one for the directory and bitmap on disk.
 */
module FsCrash {
  import opened FsLayout
  import opened FsModel

  type FileMap = map<Name, seq<Byte>>

  /** The superblock fields fs_mount looks at. */
  ghost predicate SuperOk(total: nat, disk: Disk) {
    && FS_DATA_START + total <= |disk|
    && U32At(disk[0], 0) == FS_MAGIC && U32At(disk[0], 4) == total && U32At(disk[0], 8) == FS_DATA_START
  }

  /** fs_mount accepts the disk and every file on it can be read to its end. */
  ghost predicate Mountable(total: nat, disk: Disk) {
    SuperOk(total, disk) && Readable(total, DirOnDisk(disk), disk)
  }

  /** The name-to-bytes map that mounting the disk gives. */
  ghost function Recovered(total: nat, disk: Disk): FileMap
    requires Mountable(total, disk)
  {
    View(DirOnDisk(disk), disk)
  }

  /** Mounting this disk shows exactly the map `a` or exactly the map `b`. */
  ghost predicate CrashPoint(total: nat, disk: Disk, a: FileMap, b: FileMap) {
    Mountable(total, disk) && (Recovered(total, disk) == a || Recovered(total, disk) == b)
  }

  ghost predicate SubOwner(a: Owner, b: Owner) {
    forall x :: x in a ==> x in b && b[x] == a[x]
  }

  ghost predicate MarksKept(a: Sector, b: Sector) {
    forall x :: 0 <= x < 4096 && Used(a, x) ==> Used(b, x)
  }

  ghost predicate NoLarger(a: Directory, b: Directory) {
    |a| == |b| && forall j :: 0 <= j < |a| ==> a[j].size <= b[j].size
  }

  /** The disk side: its own directory and bitmap satisfy the invariant, and it trails the memory
      side (`dir`, `bitmap`, `owner`) only at entry k. `m` is what a mount would show now. */
  ghost predicate Behind(total: nat, dir: Directory, bitmap: Sector, disk: Disk, owner: Owner, saved: Owner, k: nat,
      m: FileMap) {
    && SuperOk(total, disk)
    && Inv(total, DirOnDisk(disk), disk[FS_BITMAP_SECTOR], disk, saved)
    && SubOwner(saved, owner)
    && MarksKept(disk[FS_BITMAP_SECTOR], bitmap)
    && NoLarger(DirOnDisk(disk), dir)
    && SameFiles(disk, DirOnDisk(disk), disk, dir, k)
    && View(DirOnDisk(disk), disk) == m
  }

  lemma DirFrame(a: Disk, b: Disk)
    requires |a| == |b| && |a| >= FS_DATA_START
    requires forall x :: 1 <= x < FS_BITMAP_SECTOR ==> a[x] == b[x]
    ensures DirOnDisk(a) == DirOnDisk(b)
  {
    forall k | 0 <= k < FS_MAX_FILES
      ensures EntryOnDisk(a, k) == EntryOnDisk(b, k)
    {
      assert a[FS_DIR_START + k / 4] == b[FS_DIR_START + k / 4];
    }
  }

  lemma SameFilesTrans(diskA: Disk, a: Directory, diskB: Disk, b: Directory, diskC: Disk, c: Directory, k: nat)
    requires SameFiles(diskA, a, diskB, b, k) && SameFiles(diskB, b, diskC, c, k)
    ensures SameFiles(diskA, a, diskC, c, k)
  {
    forall j | 0 <= j < |a| && j != k
      ensures SameFile(diskA, a[j], diskC, c[j])
    {
      assert SameFile(diskA, a[j], diskB, b[j]);
      assert SameFile(diskB, b[j], diskC, c[j]);
    }
  }

  lemma SameFilesSym(diskA: Disk, a: Directory, diskB: Disk, b: Directory, k: nat)
    requires SameFiles(diskA, a, diskB, b, k)
    ensures SameFiles(diskB, b, diskA, a, k)
  {
    forall j | 0 <= j < |a| && j != k
      ensures SameFile(diskB, b[j], diskA, a[j])
    {
      assert SameFile(diskA, a[j], diskB, b[j]);
    }
  }

  lemma SameFilesExcept(diskA: Disk, a: Directory, diskB: Disk, b: Directory, k: nat)
    requires SameFiles(diskA, a, diskB, b, FS_MAX_FILES) && |a| == FS_MAX_FILES
    ensures SameFiles(diskA, a, diskB, b, k)
  {
  }

  lemma BehindIsMountable(total: nat, dir: Directory, bitmap: Sector, disk: Disk, owner: Owner, saved: Owner, k: nat,
      m: FileMap)
    requires Behind(total, dir, bitmap, disk, owner, saved, k, m)
    ensures CrashPoint(total, disk, m, m)
  {
    InvReadable(total, DirOnDisk(disk), disk[FS_BITMAP_SECTOR], disk, saved);
  }

  /** The disk side after a harmless block write: same directory, same files, same map. */
  lemma SavedWrite(total: nat, disk: Disk, saved: Owner, m: FileMap, b: nat, s: Sector)
    requires SuperOk(total, disk) && Inv(total, DirOnDisk(disk), disk[FS_BITMAP_SECTOR], disk, saved)
    requires View(DirOnDisk(disk), disk) == m
    requires b < total && Harmless(DirOnDisk(disk), disk, saved, b, s)
    ensures SuperOk(total, PutBlock(disk, b, s))
    ensures DirOnDisk(PutBlock(disk, b, s)) == DirOnDisk(disk)
    ensures Inv(total, DirOnDisk(disk), disk[FS_BITMAP_SECTOR], PutBlock(disk, b, s), saved)
    ensures SameFiles(disk, DirOnDisk(disk), PutBlock(disk, b, s), DirOnDisk(disk), FS_MAX_FILES)
    ensures View(DirOnDisk(disk), PutBlock(disk, b, s)) == m
  {
    var disk' := PutBlock(disk, b, s);
    DirFrame(disk, disk');
    HarmlessWrite(total, DirOnDisk(disk), disk[FS_BITMAP_SECTOR], disk, saved, b, s);
    SameView(disk, DirOnDisk(disk), disk', DirOnDisk(disk));
  }

  /** Writing a block harmlessly while a file grows: a mount still shows the map it showed before. */
  lemma BehindWrite(total: nat, dir: Directory, bitmap: Sector, disk: Disk, owner: Owner, saved: Owner, k: nat,
      m: FileMap, b: nat, s: Sector, dir': Directory, owner': Owner)
    requires Behind(total, dir, bitmap, disk, owner, saved, k, m)
    requires |dir| == FS_MAX_FILES && b < total && Harmless(dir, disk, owner, b, s)
    requires NoLarger(dir, dir') && SubOwner(owner, owner')
    requires SameFiles(disk, dir, PutBlock(disk, b, s), dir', k)
    ensures Behind(total, dir', bitmap, PutBlock(disk, b, s), owner', saved, k, m)
    ensures DirOnDisk(PutBlock(disk, b, s)) == DirOnDisk(disk)
    ensures CrashPoint(total, PutBlock(disk, b, s), m, m)
  {
    var disk' := PutBlock(disk, b, s);
    var d := DirOnDisk(disk);
    HarmlessDown(dir, owner, d, saved, disk, b, s);
    SavedWrite(total, disk, saved, m, b, s);
    hide Inv, Harmless, View, SameFile, DirOnDisk, SuperOk;
    SameFilesExcept(disk, d, disk', d, k);
    SameFilesSym(disk, d, disk', d, k);
    SameFilesTrans(disk', d, disk, d, disk, dir, k);
    SameFilesTrans(disk', d, disk, dir, disk', dir', k);
    BehindIsMountable(total, dir', bitmap, disk', owner', saved, k, m);
  }

  /** The memory side may mark more blocks, own more blocks and grow entry k. */
  lemma BehindGrows(total: nat, dir: Directory, bitmap: Sector, disk: Disk, owner: Owner, saved: Owner, k: nat,
      m: FileMap, dir': Directory, bitmap': Sector, owner': Owner)
    requires Behind(total, dir, bitmap, disk, owner, saved, k, m)
    requires MarksKept(bitmap, bitmap') && SubOwner(owner, owner')
    requires NoLarger(DirOnDisk(disk), dir') && SameFiles(disk, dir, disk, dir', k)
    ensures Behind(total, dir', bitmap', disk, owner', saved, k, m)
  {
    hide Inv, View, SameFile, DirOnDisk;
    SameFilesTrans(disk, DirOnDisk(disk), disk, dir, disk, dir', k);
  }

  // ---- committing ------------------------------------------------------------------

  /** Data sectors equal: every file reads the same. */
  lemma DataFrame(a: Disk, b: Disk, dir: Directory)
    requires |a| == |b| && forall x :: FS_DATA_START <= x < |a| ==> a[x] == b[x]
    requires forall k :: 0 <= k < |dir| ==> |dir[k].direct| == 8
    ensures SameFiles(a, dir, b, dir, |dir|)
    ensures forall k: nat, i: nat :: k < |dir| ==> BlockAt(a, dir[k], i) == BlockAt(b, dir[k], i)
  {
    forall k | 0 <= k < |dir|
      ensures FileBytes(a, dir[k]) == FileBytes(b, dir[k])
    {
      forall p | 0 <= p < dir[k].size
        ensures ByteAt(a, dir[k], p) == ByteAt(b, dir[k], p)
      {
        assert BlockAt(a, dir[k], p / 512) == BlockAt(b, dir[k], p / 512);
      }
    }
  }

  /** A directory with its first n sectors new and the rest old. */
  ghost predicate Mixed(old': Directory, new': Directory, mixed: Directory, n: nat) {
    && |mixed| == |old'| == |new'|
    && forall j :: 0 <= j < |mixed| ==> mixed[j] == if j / 4 < n then new'[j] else old'[j]
  }

  lemma MixedAgrees(total: nat, old': Directory, new': Directory, mixed: Directory, disk: Disk, k: nat, n: nat)
    requires Readable(total, old', disk) && Readable(total, new', disk) && k < FS_MAX_FILES
    requires SameFiles(disk, old', disk, new', k) && Mixed(old', new', mixed, n)
    ensures SameFiles(disk, mixed, disk, if k / 4 < n then new' else old', FS_MAX_FILES)
  {
    hide BlockAt, FileBytes;
    forall j | 0 <= j < FS_MAX_FILES
      ensures SameFile(disk, mixed[j], disk, (if k / 4 < n then new' else old')[j])
    {
      assert j != k ==> SameFile(disk, old'[j], disk, new'[j]);
    }
  }

  /** Half-written directory: the one entry that changed sits in one sector, so the map is the old
      one until that sector is written and the new one from then on. */
  lemma MixedView(total: nat, old': Directory, new': Directory, mixed: Directory, disk: Disk, k: nat, n: nat)
    requires Readable(total, old', disk) && Readable(total, new', disk) && k < FS_MAX_FILES
    requires SameFiles(disk, old', disk, new', k) && Mixed(old', new', mixed, n)
    ensures Readable(total, mixed, disk)
    ensures View(mixed, disk) == if k / 4 < n then View(new', disk) else View(old', disk)
  {
    var whole := if k / 4 < n then new' else old';
    MixedAgrees(total, old', new', mixed, disk, k, n);
    assert UniqueNames(mixed) by {
      forall i, j | 0 <= i < j < |mixed| && mixed[i].used && mixed[j].used
        ensures mixed[i].name != mixed[j].name
      {
        assert SameFile(disk, mixed[i], disk, whole[i]) && SameFile(disk, mixed[j], disk, whole[j]);
      }
    }
    SameView(disk, mixed, disk, whole);
  }

  /** The disk differs from `before` in directory sectors only, the first n of which are new. */
  ghost predicate Committing(before: Disk, dir: Directory, disk: Disk, n: nat) {
    && |disk| == |before| && |disk| >= FS_DATA_START
    && disk[0] == before[0]
    && (forall x :: FS_BITMAP_SECTOR <= x < |disk| ==> disk[x] == before[x])
    && Mixed(DirOnDisk(before), dir, DirOnDisk(disk), n)
  }

  lemma CommitStep(before: Disk, dir: Directory, disk: Disk, n: nat)
    requires Committing(before, dir, disk, n) && n < FS_DIR_SECTORS && EncodableDir(dir)
    ensures Committing(before, dir, disk[FS_DIR_START + n := DirSector(dir, n)], n + 1)
  {
    hide EntryOnDisk, DirSector, Encodable;
    var disk' := disk[FS_DIR_START + n := DirSector(dir, n)];
    forall k | 0 <= k < FS_MAX_FILES
      ensures EntryOnDisk(disk', k) == if k / 4 < n + 1 then dir[k] else DirOnDisk(before)[k]
    {
      DirSectorWritten(disk, dir, n, k);
      assert DirOnDisk(disk)[k] == EntryOnDisk(disk, k);
    }
  }

  /** Every point inside write_directory is a crash point between the old map and the new one. */
  lemma CommitCrash(total: nat, before: Disk, dir: Directory, disk: Disk, k: nat, n: nat)
    requires Committing(before, dir, disk, n) && k < FS_MAX_FILES
    requires Mountable(total, before) && Readable(total, dir, before)
    requires SameFiles(before, DirOnDisk(before), before, dir, k)
    ensures CrashPoint(total, disk, View(DirOnDisk(before), before), View(dir, before))
  {
    var mixed := DirOnDisk(disk);
    MixedView(total, DirOnDisk(before), dir, mixed, before, k, n);
    DataFrame(before, disk, mixed);
    SameView(before, mixed, disk, mixed);
  }

  /** After the last directory sector the directory on disk is the one in memory. */
  lemma Committed(before: Disk, dir: Directory, disk: Disk)
    requires Committing(before, dir, disk, FS_DIR_SECTORS) && |dir| == FS_MAX_FILES
    ensures DirOnDisk(disk) == dir
  {
    forall j | 0 <= j < FS_MAX_FILES
      ensures DirOnDisk(disk)[j] == dir[j]
    {
      assert j / 4 < FS_DIR_SECTORS;
    }
  }

  lemma InvFrame(total: nat, dir: Directory, bitmap: Sector, a: Disk, b: Disk, owner: Owner)
    requires Inv(total, dir, bitmap, a, owner)
    requires |a| == |b| && forall x :: FS_DATA_START <= x < |a| ==> a[x] == b[x]
    ensures Inv(total, dir, bitmap, b, owner)
    ensures View(dir, b) == View(dir, a)
  {
    DataFrame(a, b, dir);
    SameView(a, dir, b, dir);
    forall k: nat, i: nat | k < FS_MAX_FILES && Live(dir[k], i)
      ensures SlotBlock(b, dir[k], i) == SlotBlock(a, dir[k], i)
    {
    }
  }

  /** Once the bitmap sector is written too, disk and memory agree completely. */
  lemma Settled(total: nat, before: Disk, dir: Directory, bitmap: Sector, disk: Disk, owner: Owner, after: Disk)
    requires SuperOk(total, before) && Inv(total, dir, bitmap, before, owner)
    requires Committing(before, dir, disk, FS_DIR_SECTORS)
    requires after == disk[FS_BITMAP_SECTOR := bitmap]
    ensures Inv(total, dir, bitmap, after, owner)
    ensures DirOnDisk(after) == dir
    ensures View(dir, after) == View(dir, before)
    ensures Behind(total, dir, bitmap, after, owner, owner, FS_MAX_FILES, View(dir, before))
    ensures CrashPoint(total, after, View(dir, before), View(dir, before))
  {
    Committed(before, dir, disk);
    DirFrame(disk, after);
    InvFrame(total, dir, bitmap, before, after, owner);
    BehindIsMountable(total, dir, bitmap, after, owner, owner, FS_MAX_FILES, View(dir, before));
  }
}
