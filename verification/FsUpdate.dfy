/**
 The start and the end of each update: a consistent state becomes a growing file, and a grown or
 abandoned file becomes a consistent state again.
 */
module FsUpdate {
  import opened FsLayout
  import opened FsModel
  import opened FsCrash
  import opened FsGrow

  /** At rest: memory and disk agree on every file, and a mount would show the map in memory. */
  ghost predicate AtRest(c: Core) {
    && Inv(c.total, c.dir, c.bitmap, c.disk, c.owner)
    && Behind(c.total, c.dir, c.bitmap, c.disk, c.owner, c.saved, FS_MAX_FILES, View(c.dir, c.disk))
  }

  /** Memory is consistent and differs from the directory on disk, as far as reading goes, at
      entry k alone. */
  ghost predicate Committable(c: Core, k: nat) {
    && k < FS_MAX_FILES
    && Inv(c.total, c.dir, c.bitmap, c.disk, c.owner)
    && Mountable(c.total, c.disk)
    && SameFiles(c.disk, DirOnDisk(c.disk), c.disk, c.dir, k)
  }

  /** The map that mounting a readable disk would give. */
  ghost function DiskMap(disk: Disk): FileMap {
    if |disk| >= FS_DATA_START && DirOk(DirOnDisk(disk)) then View(DirOnDisk(disk), disk) else map[]
  }

  lemma RestShape(c: Core)
    requires AtRest(c)
    ensures |c.dir| == FS_MAX_FILES && c.total <= 4096 && FS_DATA_START + c.total <= |c.disk| && DirOk(c.dir)
    ensures DiskMap(c.disk) == View(c.dir, c.disk) && Readable(c.total, c.dir, c.disk)
  {
    InvReadable(c.total, c.dir, c.bitmap, c.disk, c.owner);
  }

  lemma RestEntry(c: Core, k: nat)
    requires AtRest(c) && k < FS_MAX_FILES
    ensures SameFile(c.disk, DirOnDisk(c.disk)[k], c.disk, c.dir[k])
    ensures !c.dir[k].used ==> c.dir[k] == BLANK && DirOnDisk(c.disk)[k] == BLANK
  {
    assert EntryOk(c.dir[k]) && EntryOk(DirOnDisk(c.disk)[k]);
  }

  lemma RestTracks(c: Core, k: nat)
    requires AtRest(c) && k < FS_MAX_FILES
    ensures NoLarger(DirOnDisk(c.disk), c.dir) && Tracks(DirOnDisk(c.disk), c.dir, k)
  {
    assert SameFile(c.disk, DirOnDisk(c.disk)[k], c.disk, c.dir[k]);
  }

  lemma BehindFrom(c: Core, k: nat, dir': Directory, m: FileMap)
    requires Behind(c.total, c.dir, c.bitmap, c.disk, c.owner, c.saved, FS_MAX_FILES, m) && |c.dir| == FS_MAX_FILES
    requires SameFiles(c.disk, c.dir, c.disk, dir', k) && NoLarger(DirOnDisk(c.disk), dir')
    ensures Behind(c.total, dir', c.bitmap, c.disk, c.owner, c.saved, k, m)
  {
    hide Inv, View, SameFile;
    SameFilesExcept(c.disk, DirOnDisk(c.disk), c.disk, c.dir, k);
    SameFilesTrans(c.disk, DirOnDisk(c.disk), c.disk, c.dir, c.disk, dir', k);
  }

  /** fs_create has put the name into a free entry; nothing is written yet. */
  lemma StartCreate(c: Core, k: nat, name: Name)
    requires AtRest(c) && k < FS_MAX_FILES == |c.dir| && !c.dir[k].used
    requires ValidName(name) && Find(c.dir, name, 0) == FS_MAX_FILES
    ensures Growing(c.(dir := c.dir[k := BLANK.(name := name)]), k, 0, View(c.dir, c.disk))
    ensures Bytes(c.(dir := c.dir[k := BLANK.(name := name)]), k, 0) == []
  {
    var c' := c.(dir := c.dir[k := BLANK.(name := name)]);
    var dir' := GrownDir(c', k, 0);
    RestEntry(c, k);
    RestTracks(c, k);
    assert dir' == c.dir[k := BLANK.(name := name, used := true)];
    Introduce(c.total, c.dir, c.bitmap, c.disk, c.owner, k, name);
    hide Inv, View, SameFiles, SameFile, FileBytes;
    BehindFrom(c, k, dir', View(c.dir, c.disk));
  }

  /** fs_append starts from the file as it is. */
  lemma StartAppend(c: Core, k: nat)
    requires AtRest(c) && k < FS_MAX_FILES == |c.dir| && c.dir[k].used
    ensures Growing(c, k, c.dir[k].size, View(c.dir, c.disk))
    ensures |c.dir[k].direct| == 8 && Bytes(c, k, c.dir[k].size) == FileBytes(c.disk, c.dir[k])
    ensures c.dir[k].name in View(c.dir, c.disk) && View(c.dir, c.disk)[c.dir[k].name] == FileBytes(c.disk, c.dir[k])
  {
    hide View, SameFiles, SameFile, FileBytes;
    assert GrownDir(c, k, c.dir[k].size) == c.dir;
    RestTracks(c, k);
    ViewAt(c.dir, c.disk, k);
    SameFilesRefl(c.total, c.dir, c.bitmap, c.disk, c.owner, k);
    BehindFrom(c, k, c.dir, View(c.dir, c.disk));
  }

  /** The write finished and the entry takes its new size: ready to commit the new map. */
  lemma FinishWrite(c: Core, k: nat, size: nat, m: FileMap)
    requires Growing(c, k, size, m)
    ensures Committable(c.(dir := GrownDir(c, k, size)), k)
    ensures DiskMap(c.disk) == m && DirOk(GrownDir(c, k, size))
    ensures View(GrownDir(c, k, size), c.disk) == m[c.dir[k].name := Bytes(c, k, size)]
  {
    var dir' := GrownDir(c, k, size);
    BehindIsMountable(c.total, dir', c.bitmap, c.disk, c.owner, c.saved, k, m);
    ViewPut(c.disk, DirOnDisk(c.disk), c.disk, dir', k);
  }

  /** A failed create blanks the entry: at rest again, with the map it started from. */
  lemma AbandonCreate(c: Core, k: nat, m: FileMap)
    requires k < |c.dir| && Growing(c, k, c.dir[k].size, m) && !c.dir[k].used
    ensures AtRest(c.(dir := c.dir[k := BLANK])) && DirOk(c.dir[k := BLANK])
    ensures View(c.dir[k := BLANK], c.disk) == m
  {
    var dir, dir' := GrownDir(c, k, c.dir[k].size), c.dir[k := BLANK];
    var onDisk := DirOnDisk(c.disk);
    Blank(c.total, dir, c.bitmap, c.disk, c.owner, k);
    assert dir' == dir[k := BLANK];
    assert EntryOk(onDisk[k]);
    SameFilesTrans(c.disk, onDisk, c.disk, dir, c.disk, dir', k);
    assert SameFile(c.disk, onDisk[k], c.disk, dir'[k]);
    assert SameFiles(c.disk, onDisk, c.disk, dir', FS_MAX_FILES);
    SameView(c.disk, onDisk, c.disk, dir');
  }

  /** A failed append leaves the entry at its size: at rest again, with the map it started from. */
  lemma AbandonAppend(c: Core, k: nat, m: FileMap)
    requires k < |c.dir| && Growing(c, k, c.dir[k].size, m) && c.dir[k].used
    requires c.dir[k].name in m && Bytes(c, k, c.dir[k].size) == m[c.dir[k].name]
    ensures AtRest(c) && DirOk(c.dir)
    ensures View(c.dir, c.disk) == m
  {
    var onDisk := DirOnDisk(c.disk);
    assert GrownDir(c, k, c.dir[k].size) == c.dir;
    ViewAt(onDisk, c.disk, k);
    assert SameFile(c.disk, onDisk[k], c.disk, c.dir[k]);
    assert SameFiles(c.disk, onDisk, c.disk, c.dir, FS_MAX_FILES);
    SameView(c.disk, onDisk, c.disk, c.dir);
  }

  /** fs_delete has cleared the file's bits and blanked its entry. */
  lemma FinishDelete(c: Core, k: nat, bitmap': Sector)
    requires AtRest(c) && k < FS_MAX_FILES == |c.dir| && c.dir[k].used
    requires forall b :: b in c.owner && c.owner[b].0 != k ==> b < 4096 && Used(bitmap', b)
    ensures Committable(c.(dir := c.dir[k := BLANK], bitmap := bitmap', owner := WithoutFile(c.owner, k)), k)
    ensures DiskMap(c.disk) == View(c.dir, c.disk) && DirOk(c.dir[k := BLANK])
    ensures View(c.dir[k := BLANK], c.disk) == View(c.dir, c.disk) - {c.dir[k].name}
  {
    var dir' := c.dir[k := BLANK];
    var onDisk := DirOnDisk(c.disk);
    Released(c.total, c.dir, c.bitmap, bitmap', c.disk, c.owner, k);
    Blank(c.total, c.dir, c.bitmap, c.disk, c.owner, k);
    BehindIsMountable(c.total, c.dir, c.bitmap, c.disk, c.owner, c.saved, FS_MAX_FILES, View(c.dir, c.disk));
    ViewRemove(c.disk, c.dir, c.disk, dir', k);
    hide Inv, View, SameFile;
    SameFilesExcept(c.disk, onDisk, c.disk, c.dir, k);
    SameFilesTrans(c.disk, onDisk, c.disk, c.dir, c.disk, dir', k);
  }

  /** Reading the directory and bitmap back from the disk: a mount between updates. */
  lemma Remount(c: Core)
    requires AtRest(c)
    ensures AtRest(c.(dir := DirOnDisk(c.disk), bitmap := c.disk[FS_BITMAP_SECTOR], owner := c.saved))
    ensures DirOk(DirOnDisk(c.disk)) && View(DirOnDisk(c.disk), c.disk) == View(c.dir, c.disk)
  {
    var onDisk := DirOnDisk(c.disk);
    SameFilesRefl(c.total, onDisk, c.disk[FS_BITMAP_SECTOR], c.disk, c.saved, FS_MAX_FILES);
  }
}
