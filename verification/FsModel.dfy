/**
 What an ArthicFS disk means: which blocks a file has, which bytes it reads as, who owns each
 block, and what survives when one sector changes.

 A block is identified by its number; block b lives in sector FS_DATA_START + b. A *slot* is a
 place in a file that names a block: slots 0 .. 135 are the data blocks, slot 136 is the indirect
 block. The ghost map `owner` sends every owned block to the one slot that names it, so two slots
 can never name the same block.
 */
module FsModel {
  import opened FsLayout
  import Bits

  // ---- bitmap --------------------------------------------------------------------

  predicate Used(bitmap: Sector, b: nat)
    requires b < 4096
  {
    Bits.Test(bitmap, 8, b)
  }

  function MarkBlock(bitmap: Sector, b: nat, v: bool): (r: Sector)
    requires b < 4096
    ensures r == Bits.Mark(bitmap, 8, b, v)
  {
    assert Bits.Pow2(8) == 256;
    Bits.SetBitFits(bitmap[b / 8], b % 8, v, 8);
    bitmap[b / 8 := Bits.SetBit(bitmap[b / 8], b % 8, v)]
  }

  lemma MarkBlockReads(bitmap: Sector, b: nat, v: bool)
    requires b < 4096
    ensures forall c :: 0 <= c < 4096 ==> Used(MarkBlock(bitmap, b, v), c) == if c == b then v else Used(bitmap, c)
  {
    forall c | 0 <= c < 4096
      ensures Used(MarkBlock(bitmap, b, v), c) == if c == b then v else Used(bitmap, c)
    {
      Bits.MarkReads(bitmap, 8, b, v, c);
    }
  }

  function UsedCount(bitmap: Sector, total: nat): nat
    requires total <= 4096
  {
    Bits.Count(bitmap, 8, total)
  }

  function FreeCount(bitmap: Sector, total: nat): nat
    requires total <= 4096
  {
    total - UsedCount(bitmap, total)
  }

  lemma AllUsed(bitmap: Sector, total: nat)
    requires total <= 4096
    ensures FreeCount(bitmap, total) == 0 <==> forall b :: 0 <= b < total ==> Used(bitmap, b)
  {
    Bits.CountFull(bitmap, 8, total);
    if forall b :: 0 <= b < total ==> Used(bitmap, b) {
      forall m: nat | m < total && m / 8 < |bitmap|
        ensures Bits.Test(bitmap, 8, m)
      {
        assert Used(bitmap, m);
      }
    }
  }

  // ---- a file's blocks and bytes ---------------------------------------------------

  /** Number of blocks a file of `size` bytes occupies. */
  function Blocks(size: nat): nat { (size + 511) / 512 }

  const MAX_SIZE: nat := FS_MAX_BLOCKS * 512
  const INDIRECT_SLOT: nat := 136

  /** block_at: block `i` of the file, through the indirect block past the eighth. */
  function BlockAt(disk: Disk, e: Entry, i: nat): (b: nat)
    requires |e.direct| == FS_DIRECT_BLOCKS
  {
    if i < FS_DIRECT_BLOCKS then e.direct[i]
    else if e.indirect == 0 || FS_DATA_START + e.indirect >= |disk| || i - 8 >= FS_PER_INDIRECT then NO_BLOCK
    else U32At(disk[FS_DATA_START + e.indirect], 4 * (i - 8))
  }

  function ByteAt(disk: Disk, e: Entry, p: nat): Byte
    requires |e.direct| == FS_DIRECT_BLOCKS
  {
    var b := BlockAt(disk, e, p / 512);
    if FS_DATA_START + b < |disk| then disk[FS_DATA_START + b][p % 512] else 0
  }

  /** The readable contents of a file: `size` bytes gathered block by block. */
  function FileBytes(disk: Disk, e: Entry): (bytes: seq<Byte>)
    requires |e.direct| == FS_DIRECT_BLOCKS
    ensures |bytes| == e.size
    ensures forall p :: 0 <= p < e.size ==> bytes[p] == ByteAt(disk, e, p)
  {
    seq(e.size, p requires 0 <= p < e.size => ByteAt(disk, e, p))
  }

  // ---- the directory ---------------------------------------------------------------

  predicate HasName(dir: Directory, k: nat, name: Name)
    requires k < |dir|
  {
    dir[k].used && dir[k].name == name
  }

  /** Index of the first used entry called `name` at or after `from`; |dir| when there is none. */
  function Find(dir: Directory, name: Name, from: nat): (k: nat)
    requires from <= |dir|
    ensures from <= k <= |dir|
    ensures k < |dir| ==> HasName(dir, k, name)
    ensures forall j :: from <= j < k ==> !HasName(dir, j, name)
    decreases |dir| - from
  {
    if from == |dir| || HasName(dir, from, name) then from else Find(dir, name, from + 1)
  }

  predicate UniqueNames(dir: Directory) {
    forall j, k :: 0 <= j < k < |dir| && dir[j].used && dir[k].used ==> dir[j].name != dir[k].name
  }

  ghost predicate EntryOk(e: Entry) {
    && Encodable(e)
    && (e.used ==> ValidName(e.name) && e.size <= MAX_SIZE && (Blocks(e.size) > 8 ==> e.indirect != 0))
    && (!e.used ==> e == BLANK)
  }

  ghost predicate DirOk(dir: Directory) {
    && |dir| == FS_MAX_FILES
    && (forall k :: 0 <= k < FS_MAX_FILES ==> EntryOk(dir[k]))
    && UniqueNames(dir)
  }

  ghost function Names(dir: Directory): set<Name> {
    set k | 0 <= k < |dir| && dir[k].used :: dir[k].name
  }

  /** The file system as its user sees it: a map from names to byte strings. */
  ghost function View(dir: Directory, disk: Disk): (m: map<Name, seq<Byte>>)
    requires DirOk(dir)
  {
    map name | name in Names(dir) :: Contents(dir, disk, name)
  }

  /** Contents of the file find_entry picks for `name`. */
  ghost function Contents(dir: Directory, disk: Disk, name: Name): seq<Byte>
    requires DirOk(dir)
  {
    var k := Find(dir, name, 0);
    if k < FS_MAX_FILES then FileBytes(disk, dir[k]) else []
  }

  lemma FindUsed(dir: Directory, k: nat)
    requires UniqueNames(dir) && k < |dir| && dir[k].used
    ensures Find(dir, dir[k].name, 0) == k
  {
    assert HasName(dir, k, dir[k].name);
  }

  lemma ViewHas(dir: Directory, disk: Disk, name: Name)
    requires DirOk(dir)
    ensures name in View(dir, disk) <==> Find(dir, name, 0) < FS_MAX_FILES
    ensures name in View(dir, disk) ==> View(dir, disk)[name] == FileBytes(disk, dir[Find(dir, name, 0)])
  {
    hide EntryOk;
    var k := Find(dir, name, 0);
    assert k < FS_MAX_FILES ==> dir[k].name in Names(dir);
    if name in Names(dir) {
      var j: nat :| j < |dir| && dir[j].used && dir[j].name == name;
      FindUsed(dir, j);
    }
  }

  lemma ViewAt(dir: Directory, disk: Disk, k: nat)
    requires DirOk(dir) && k < FS_MAX_FILES && dir[k].used
    ensures dir[k].name in View(dir, disk)
    ensures View(dir, disk)[dir[k].name] == FileBytes(disk, dir[k])
  {
    hide View;
    FindUsed(dir, k);
    ViewHas(dir, disk, dir[k].name);
  }

  /** Two entries that read alike. */
  ghost predicate SameFile(diskA: Disk, a: Entry, diskB: Disk, b: Entry) {
    && |a.direct| == 8 && |b.direct| == 8
    && a.used == b.used && a.name == b.name && a.size == b.size
    && FileBytes(diskA, a) == FileBytes(diskB, b)
  }

  ghost predicate SameFiles(diskA: Disk, a: Directory, diskB: Disk, b: Directory, except: nat) {
    |a| == |b| && forall j :: 0 <= j < |a| && j != except ==> SameFile(diskA, a[j], diskB, b[j])
  }

  /** A name that is not involved in the change of entry `k` reads the same on both sides. */
  lemma SameElsewhere(diskA: Disk, a: Directory, diskB: Disk, b: Directory, k: nat, name: Name)
    requires DirOk(a) && DirOk(b)
    requires SameFiles(diskA, a, diskB, b, k)
    requires k < FS_MAX_FILES ==> !HasName(a, k, name) && !HasName(b, k, name)
    ensures name in View(a, diskA) <==> name in View(b, diskB)
    ensures name in View(a, diskA) ==> View(a, diskA)[name] == View(b, diskB)[name]
  {
    hide EntryOk, View, FileBytes;
    ViewHas(a, diskA, name);
    ViewHas(b, diskB, name);
    var i, j := Find(a, name, 0), Find(b, name, 0);
    assert j < FS_MAX_FILES ==> SameFile(diskA, a[j], diskB, b[j]) && HasName(a, j, name);
    if i < FS_MAX_FILES {
      assert SameFile(diskA, a[i], diskB, b[i]);
      FindUsed(b, i);
    }
  }

  lemma SameView(diskA: Disk, a: Directory, diskB: Disk, b: Directory)
    requires DirOk(a) && DirOk(b)
    requires SameFiles(diskA, a, diskB, b, FS_MAX_FILES)
    ensures View(a, diskA) == View(b, diskB)
  {
    hide DirOk, SameFiles, View;
    forall name
      ensures name in View(a, diskA) <==> name in View(b, diskB)
      ensures name in View(a, diskA) ==> View(a, diskA)[name] == View(b, diskB)[name]
    {
      SameElsewhere(diskA, a, diskB, b, FS_MAX_FILES, name);
    }
  }

  /** Entry k of the new directory holds a file that is new, or has new contents; nothing else moved. */
  lemma ViewPut(diskA: Disk, a: Directory, diskB: Disk, b: Directory, k: nat)
    requires DirOk(a) && DirOk(b) && k < FS_MAX_FILES
    requires SameFiles(diskA, a, diskB, b, k)
    requires b[k].used && (a[k].used ==> a[k].name == b[k].name)
    ensures View(b, diskB) == View(a, diskA)[b[k].name := FileBytes(diskB, b[k])]
  {
    hide EntryOk, SameFiles, View;
    ViewAt(b, diskB, k);
    forall name | name != b[k].name
      ensures name in View(a, diskA) <==> name in View(b, diskB)
      ensures name in View(a, diskA) ==> View(a, diskA)[name] == View(b, diskB)[name]
    {
      SameElsewhere(diskA, a, diskB, b, k, name);
    }
  }

  /** Entry k was blanked; nothing else moved. */
  lemma ViewRemove(diskA: Disk, a: Directory, diskB: Disk, b: Directory, k: nat)
    requires DirOk(a) && DirOk(b) && k < FS_MAX_FILES
    requires SameFiles(diskA, a, diskB, b, k)
    requires a[k].used && !b[k].used
    ensures View(b, diskB) == View(a, diskA) - {a[k].name}
  {
    hide EntryOk, View;
    ViewHas(b, diskB, a[k].name);
    var j := Find(b, a[k].name, 0);
    assert j < FS_MAX_FILES ==> SameFile(diskA, a[j], diskB, b[j]);
    forall name | name != a[k].name
      ensures name in View(a, diskA) <==> name in View(b, diskB)
      ensures name in View(a, diskA) ==> View(a, diskA)[name] == View(b, diskB)[name]
    {
      SameElsewhere(diskA, a, diskB, b, k, name);
    }
  }

  // ---- readable disks --------------------------------------------------------------

  /** Every in-size data block of every file is a real block, so fs_read cannot fail part-way. */
  ghost predicate Readable(total: nat, dir: Directory, disk: Disk) {
    && FS_DATA_START + total <= |disk| && total <= 4096
    && DirOk(dir)
    && forall k: nat, i: nat :: 0 <= k < FS_MAX_FILES && 0 <= i < Blocks(dir[k].size) ==>
         BlockAt(disk, dir[k], i) < total
  }

  // ---- ownership -------------------------------------------------------------------

  type Owner = map<nat, (nat, nat)>

  predicate Live(e: Entry, i: nat) {
    e.used && (i < Blocks(e.size) || (i == INDIRECT_SLOT && e.indirect != 0))
  }

  function SlotBlock(disk: Disk, e: Entry, i: nat): nat
    requires |e.direct| == FS_DIRECT_BLOCKS
  {
    if i == INDIRECT_SLOT then e.indirect else BlockAt(disk, e, i)
  }

  /** Owned blocks are real and marked in the bitmap. */
  ghost predicate OwnerMarked(total: nat, bitmap: Sector, owner: Owner)
    requires total <= 4096
  {
    forall b :: b in owner ==> b < total && Used(bitmap, b) && owner[b].0 < FS_MAX_FILES
  }

  /** Every block a file names is owned by the slot that names it. */
  ghost predicate SlotsOwned(dir: Directory, disk: Disk, owner: Owner)
    requires DirOk(dir)
  {
    forall k: nat, i: nat :: 0 <= k < FS_MAX_FILES && Live(dir[k], i) ==>
      SlotBlock(disk, dir[k], i) in owner && owner[SlotBlock(disk, dir[k], i)] == (k, i)
  }

  /** The state invariant of a mounted file system. */
  ghost predicate Inv(total: nat, dir: Directory, bitmap: Sector, disk: Disk, owner: Owner) {
    && FS_DATA_START + total <= |disk| && total <= 4096
    && DirOk(dir)
    && OwnerMarked(total, bitmap, owner)
    && SlotsOwned(dir, disk, owner)
  }

  lemma InvReadable(total: nat, dir: Directory, bitmap: Sector, disk: Disk, owner: Owner)
    requires Inv(total, dir, bitmap, disk, owner)
    ensures Readable(total, dir, disk)
  {
    forall k: nat, i: nat | 0 <= k < FS_MAX_FILES && 0 <= i < Blocks(dir[k].size)
      ensures BlockAt(disk, dir[k], i) < total
    {
      assert Live(dir[k], i) && SlotBlock(disk, dir[k], i) == BlockAt(disk, dir[k], i);
    }
  }

  /** The blocks named by two different slots are different blocks, in range and marked used. */
  lemma BlocksDistinct(total: nat, dir: Directory, bitmap: Sector, disk: Disk, owner: Owner, k: nat, i: nat, k': nat,
      i': nat)
    requires Inv(total, dir, bitmap, disk, owner)
    requires k < FS_MAX_FILES && Live(dir[k], i) && k' < FS_MAX_FILES && Live(dir[k'], i')
    ensures SlotBlock(disk, dir[k], i) < total && Used(bitmap, SlotBlock(disk, dir[k], i))
    ensures SlotBlock(disk, dir[k], i) == SlotBlock(disk, dir[k'], i') ==> k == k' && i == i'
  {
  }

  // ---- sector writes that no file notices --------------------------------------------

  /** Replace the contents of block b. */
  function PutBlock(disk: Disk, b: nat, s: Sector): (d: Disk)
    requires FS_DATA_START + b < |disk|
    ensures |d| == |disk|
  {
    disk[FS_DATA_START + b := s]
  }

  /** Overwriting block b with s leaves every byte within a file's size, and every indirect slot
      within it, as it was. */
  ghost predicate Harmless(dir: Directory, disk: Disk, owner: Owner, b: nat, s: Sector)
    requires |dir| == FS_MAX_FILES && FS_DATA_START + b < |disk|
  {
    b in owner ==>
      var (k, i) := owner[b];
      && k < FS_MAX_FILES
      && (i < FS_MAX_BLOCKS ==>
           forall q :: 0 <= q < 512 && 512 * i + q < dir[k].size ==> s[q] == disk[FS_DATA_START + b][q])
      && (i == INDIRECT_SLOT ==> forall j :: 0 <= j < 128 && 8 + j < Blocks(dir[k].size) ==>
            U32At(s, 4 * j) == U32At(disk[FS_DATA_START + b], 4 * j))
  }

  lemma HarmlessBlocks(total: nat, dir: Directory, bitmap: Sector, disk: Disk, owner: Owner, b: nat, s: Sector, k: nat,
      i: nat)
    requires Inv(total, dir, bitmap, disk, owner)
    requires b < total && Harmless(dir, disk, owner, b, s)
    requires k < FS_MAX_FILES && Live(dir[k], i)
    ensures SlotBlock(PutBlock(disk, b, s), dir[k], i) == SlotBlock(disk, dir[k], i)
  {
    if 8 <= i < INDIRECT_SLOT {
      assert Live(dir[k], INDIRECT_SLOT);
      assert SlotBlock(disk, dir[k], INDIRECT_SLOT) == dir[k].indirect;
    }
  }

  lemma HarmlessBytes(total: nat, dir: Directory, bitmap: Sector, disk: Disk, owner: Owner, b: nat, s: Sector, k: nat)
    requires Inv(total, dir, bitmap, disk, owner)
    requires b < total && Harmless(dir, disk, owner, b, s)
    requires k < FS_MAX_FILES
    ensures FileBytes(PutBlock(disk, b, s), dir[k]) == FileBytes(disk, dir[k])
  {
    var e, disk' := dir[k], PutBlock(disk, b, s);
    forall p | 0 <= p < e.size
      ensures ByteAt(disk', e, p) == ByteAt(disk, e, p)
    {
      var i := p / 512;
      assert Live(e, i) && i < FS_MAX_BLOCKS;
      HarmlessBlocks(total, dir, bitmap, disk, owner, b, s, k, i);
      assert SlotBlock(disk, e, i) == BlockAt(disk, e, i);
      assert p == 512 * i + p % 512;
    }
  }

  /** A harmless write keeps the invariant and every file's bytes. */
  lemma HarmlessWrite(total: nat, dir: Directory, bitmap: Sector, disk: Disk, owner: Owner, b: nat, s: Sector)
    requires Inv(total, dir, bitmap, disk, owner)
    requires b < total && Harmless(dir, disk, owner, b, s)
    ensures Inv(total, dir, bitmap, PutBlock(disk, b, s), owner)
    ensures SameFiles(disk, dir, PutBlock(disk, b, s), dir, FS_MAX_FILES)
  {
    var disk' := PutBlock(disk, b, s);
    forall k: nat, i: nat | 0 <= k < FS_MAX_FILES && Live(dir[k], i)
      ensures SlotBlock(disk', dir[k], i) == SlotBlock(disk, dir[k], i)
    {
      HarmlessBlocks(total, dir, bitmap, disk, owner, b, s, k, i);
    }
    forall k | 0 <= k < FS_MAX_FILES
      ensures FileBytes(disk', dir[k]) == FileBytes(disk, dir[k])
    {
      HarmlessBytes(total, dir, bitmap, disk, owner, b, s, k);
    }
  }

  /** What is harmless to a directory is harmless to one with the same owners and no larger files. */
  lemma HarmlessDown(dir: Directory, owner: Owner, small: Directory, smallOwner: Owner, disk: Disk, b: nat, s: Sector)
    requires |dir| == FS_MAX_FILES && |small| == FS_MAX_FILES && FS_DATA_START + b < |disk|
    requires Harmless(dir, disk, owner, b, s)
    requires b in smallOwner ==> b in owner && owner[b] == smallOwner[b]
    requires forall k :: 0 <= k < FS_MAX_FILES ==> small[k].size <= dir[k].size
    ensures Harmless(small, disk, smallOwner, b, s)
  {
    if b in smallOwner {
      var k := owner[b].0;
      assert Blocks(small[k].size) <= Blocks(dir[k].size);
    }
  }

  // ---- growing a file ----------------------------------------------------------------

  ghost predicate CanGrow(total: nat, dir: Directory, bitmap: Sector, disk: Disk, owner: Owner, k: nat) {
    Inv(total, dir, bitmap, disk, owner) && k < FS_MAX_FILES && dir[k].used
  }

  /** Overwrite part of a sector: what kmemcpy into sector_buffer leaves. */
  function Patch(s: Sector, within: nat, chunk: seq<Byte>): (r: Sector)
    requires within + |chunk| <= 512
  {
    s[..within] + chunk + s[within + |chunk|..]
  }

  lemma PatchReads(s: Sector, within: nat, chunk: seq<Byte>)
    requires within + |chunk| <= 512
    ensures Patch(s, within, chunk)[within..within + |chunk|] == chunk
  {
  }

  /** Bytes of the file after its last block has been patched and its size raised. */
  lemma GrownBytes(disk: Disk, e: Entry, disk': Disk, e': Entry, chunk: seq<Byte>)
    requires |e.direct| == 8 && |e'.direct| == 8 && e'.size == e.size + |chunk|
    requires forall p :: 0 <= p < e.size ==> ByteAt(disk', e', p) == ByteAt(disk, e, p)
    requires forall q :: 0 <= q < |chunk| ==> ByteAt(disk', e', e.size + q) == chunk[q]
    ensures FileBytes(disk', e') == FileBytes(disk, e) + chunk
  {
    var a, b := FileBytes(disk', e'), FileBytes(disk, e) + chunk;
    forall p | 0 <= p < e'.size
      ensures a[p] == b[p]
    {
      if p >= e.size {
        var q := p - e.size;
        assert ByteAt(disk', e', e.size + q) == chunk[q];
      }
    }
  }

  /** The bytes of a chunk that landed in block b, slot i, of the grown file. */
  lemma ChunkBytes(disk: Disk, e: Entry, i: nat, b: nat, within: nat, chunk: seq<Byte>)
    requires |e.direct| == 8 && FS_DATA_START + b < |disk| && BlockAt(disk, e, i) == b
    requires within + |chunk| <= 512 && disk[FS_DATA_START + b][within..within + |chunk|] == chunk
    ensures forall q :: 0 <= q < |chunk| ==> ByteAt(disk, e, 512 * i + within + q) == chunk[q]
  {
    var s := disk[FS_DATA_START + b];
    forall q | 0 <= q < |chunk|
      ensures ByteAt(disk, e, 512 * i + within + q) == chunk[q]
    {
      assert (512 * i + within + q) / 512 == i && (512 * i + within + q) % 512 == within + q;
      assert s[within..within + |chunk|][q] == s[within + q];
    }
  }

  /** Only the size field differs, so every byte below the smaller size reads the same. */
  lemma ResizedBytes(disk: Disk, e: Entry, size: nat)
    requires |e.direct| == 8 && size >= e.size
    ensures forall p :: 0 <= p < e.size ==> ByteAt(disk, e.(size := size), p) == FileBytes(disk, e)[p]
  {
    forall p | 0 <= p < e.size
      ensures ByteAt(disk, e.(size := size), p) == ByteAt(disk, e, p)
    {
      assert BlockAt(disk, e.(size := size), p / 512) == BlockAt(disk, e, p / 512);
    }
  }

  /** The block and sector an in-place append touches. */
  lemma InPlaceHarmless(total: nat, dir: Directory, bitmap: Sector, disk: Disk, owner: Owner, k: nat, chunk: seq<Byte>)
    requires CanGrow(total, dir, bitmap, disk, owner, k)
    requires dir[k].size % 512 != 0 && dir[k].size % 512 + |chunk| <= 512
    ensures var e := dir[k];
            var b := BlockAt(disk, e, e.size / 512);
            && Live(e, e.size / 512) && e.size / 512 < FS_MAX_BLOCKS
            && b < total
            && Harmless(dir, disk, owner, b, Patch(disk[FS_DATA_START + b], e.size % 512, chunk))
  {
    var e := dir[k];
    var i, within := e.size / 512, e.size % 512;
    assert e.size == 512 * i + within;
    assert Live(e, i) && i < FS_MAX_BLOCKS;
    assert SlotBlock(disk, e, i) == BlockAt(disk, e, i);
    OwnedInRange(total, dir, bitmap, disk, owner, k, i);
  }

  lemma OwnedInRange(total: nat, dir: Directory, bitmap: Sector, disk: Disk, owner: Owner, k: nat, i: nat)
    requires Inv(total, dir, bitmap, disk, owner) && k < FS_MAX_FILES && Live(dir[k], i)
    ensures var b := SlotBlock(disk, dir[k], i);
            b < total && Used(bitmap, b) && b in owner && owner[b] == (k, i)
  {
  }

  /** Replacing entry k on the right keeps the agreement everywhere else. */
  lemma SameButOne(diskA: Disk, a: Directory, diskB: Disk, b: Directory, k: nat, e: Entry)
    requires SameFiles(diskA, a, diskB, b, FS_MAX_FILES) && |b| == FS_MAX_FILES && k < |b|
    ensures SameFiles(diskA, a, diskB, b[k := e], k)
  {
    forall j | 0 <= j < |a| && j != k
      ensures SameFile(diskA, a[j], diskB, b[k := e][j])
    {
      assert SameFile(diskA, a[j], diskB, b[j]);
    }
  }

  lemma WithinLastBlock(size: nat, more: nat)
    requires size % 512 != 0 && size % 512 + more <= 512
    ensures Blocks(size + more) == Blocks(size) == size / 512 + 1
    ensures size <= MAX_SIZE ==> size + more <= MAX_SIZE
  {
  }

  /** Patching the last block behind the end of the file appends the chunk. */
  lemma InPlaceBytes(disk: Disk, e: Entry, b: nat, within: nat, chunk: seq<Byte>)
    requires |e.direct| == 8 && FS_DATA_START + b < |disk|
    requires within == e.size % 512 && within + |chunk| <= 512 && BlockAt(disk, e, e.size / 512) == b
    requires disk[FS_DATA_START + b][within..within + |chunk|] == chunk
    ensures FileBytes(disk, e.(size := e.size + |chunk|)) == FileBytes(disk, e) + chunk
  {
    var e', i := e.(size := e.size + |chunk|), e.size / 512;
    assert e.size == 512 * i + within;
    assert BlockAt(disk, e', i) == BlockAt(disk, e, i);
    ResizedBytes(disk, e, e'.size);
    ChunkBytes(disk, e', i, b, within, chunk);
    GrownBytes(disk, e, disk, e', chunk);
  }

  /** Appending into the partly filled last block. */
  lemma GrowInPlace(total: nat, dir: Directory, bitmap: Sector, disk: Disk, owner: Owner, k: nat, chunk: seq<Byte>,
      b: nat, s: Sector)
    requires CanGrow(total, dir, bitmap, disk, owner, k)
    requires dir[k].size % 512 != 0 && dir[k].size % 512 + |chunk| <= 512
    requires b < total && b == BlockAt(disk, dir[k], dir[k].size / 512)
    requires s == Patch(disk[FS_DATA_START + b], dir[k].size % 512, chunk)
    ensures Harmless(dir, disk, owner, b, s)
    ensures Inv(total, dir[k := dir[k].(size := dir[k].size + |chunk|)], bitmap, PutBlock(disk, b, s), owner)
    ensures SameFiles(disk, dir, PutBlock(disk, b, s), dir[k := dir[k].(size := dir[k].size + |chunk|)], k)
    ensures FileBytes(PutBlock(disk, b, s), dir[k].(size := dir[k].size + |chunk|)) == FileBytes(disk, dir[k]) + chunk
  {
    hide Harmless, OwnerMarked, SlotsOwned, FileBytes, Blocks, Patch;
    var e := dir[k];
    var i, within := e.size / 512, e.size % 512;
    InPlaceHarmless(total, dir, bitmap, disk, owner, k, chunk);
    var disk' := PutBlock(disk, b, s);
    HarmlessWrite(total, dir, bitmap, disk, owner, b, s);
    HarmlessBlocks(total, dir, bitmap, disk, owner, b, s, k, i);
    WithinLastBlock(e.size, |chunk|);
    assert e.size <= MAX_SIZE && BlockAt(disk', e, i) == b;
    PatchReads(disk[FS_DATA_START + b], within, chunk);
    hide EntryOk, BlockAt;
    SameButOne(disk, dir, disk', dir, k, e.(size := e.size + |chunk|));
    GrowSize(total, dir, bitmap, disk', owner, k, e.size + |chunk|);
    assert SameFile(disk, e, disk', e);
    InPlaceBytes(disk', e, b, within, chunk);
  }

  /** Raising the size within the blocks already held. */
  lemma GrowSize(total: nat, dir: Directory, bitmap: Sector, disk: Disk, owner: Owner, k: nat, size: nat)
    requires CanGrow(total, dir, bitmap, disk, owner, k)
    requires Blocks(size) == Blocks(dir[k].size) && size <= MAX_SIZE
    ensures Inv(total, dir[k := dir[k].(size := size)], bitmap, disk, owner)
  {
    var dir' := dir[k := dir[k].(size := size)];
    forall k': nat, i: nat | 0 <= k' < FS_MAX_FILES && Live(dir'[k'], i)
      ensures SlotBlock(disk, dir'[k'], i) in owner && owner[SlotBlock(disk, dir'[k'], i)] == (k', i)
    {
      assert Live(dir[k'], i) && SlotBlock(disk, dir'[k'], i) == SlotBlock(disk, dir[k'], i);
    }
  }

  /** The invariant survives marking more blocks. */
  lemma MarkMore(total: nat, dir: Directory, bitmap: Sector, disk: Disk, owner: Owner, b: nat)
    requires Inv(total, dir, bitmap, disk, owner) && b < total
    ensures Inv(total, dir, MarkBlock(bitmap, b, true), disk, owner)
  {
    MarkBlockReads(bitmap, b, true);
  }

  /** A block nobody owns may be overwritten and then given to a slot that is not live. */
  lemma GiveSlot(total: nat, dir: Directory, bitmap: Sector, disk: Disk, owner: Owner, b: nat, k: nat, i: nat)
    requires Inv(total, dir, bitmap, disk, owner)
    requires b < total && Used(bitmap, b) && b !in owner && k < FS_MAX_FILES
    ensures Inv(total, dir, bitmap, disk, owner[b := (k, i)])
  {
    forall k': nat, i': nat | 0 <= k' < FS_MAX_FILES && Live(dir[k'], i')
      ensures SlotBlock(disk, dir[k'], i') != b
    {
      assert SlotBlock(disk, dir[k'], i') in owner;
    }
  }

  /** Taking an indirect block: only a file that has none, and only a block that is not number 0. */
  lemma AttachIndirect(total: nat, dir: Directory, bitmap: Sector, disk: Disk, owner: Owner, k: nat, b: nat)
    requires CanGrow(total, dir, bitmap, disk, owner, k)
    requires dir[k].indirect == 0 && 0 < b < total && Used(bitmap, b) && b !in owner
    ensures var disk' := PutBlock(disk, b, Zeros(512));
            var dir' := dir[k := dir[k].(indirect := b)];
            && Harmless(dir, disk, owner, b, Zeros(512))
            && Inv(total, dir', bitmap, disk', owner[b := (k, INDIRECT_SLOT)])
            && SameFiles(disk, dir, disk', dir', FS_MAX_FILES)
  {
    var disk' := PutBlock(disk, b, Zeros(512));
    HarmlessWrite(total, dir, bitmap, disk, owner, b, Zeros(512));
    GiveSlot(total, dir, bitmap, disk', owner, b, k, INDIRECT_SLOT);
    var e, e' := dir[k], dir[k].(indirect := b);
    var dir', owner' := dir[k := e'], owner[b := (k, INDIRECT_SLOT)];
    assert Blocks(e.size) <= 8;
    forall k': nat, i: nat | 0 <= k' < FS_MAX_FILES && Live(dir'[k'], i)
      ensures SlotBlock(disk', dir'[k'], i) in owner' && owner'[SlotBlock(disk', dir'[k'], i)] == (k', i)
    {
      if k' != k || i != INDIRECT_SLOT {
        assert Live(dir[k'], i) && SlotBlock(disk', dir'[k'], i) == SlotBlock(disk', dir[k'], i);
      }
    }
    forall p | 0 <= p < e.size
      ensures ByteAt(disk', e', p) == ByteAt(disk', e, p)
    {
      assert p / 512 < 8;
    }
    assert FileBytes(disk', e') == FileBytes(disk', e);
  }

  /** Where block_set records block b as block `i`: in the entry, or in the indirect block. */
  function SlotStored(e: Entry, i: nat, b: nat): Entry
    requires |e.direct| == 8
  {
    if i < FS_DIRECT_BLOCKS then e.(direct := e.direct[i := b]) else e
  }

  function SlotStoredDisk(disk: Disk, e: Entry, i: nat, b: nat): (d: Disk)
    requires i < FS_MAX_BLOCKS && b < U32
    requires i >= 8 ==> FS_DATA_START + e.indirect < |disk|
    ensures |d| == |disk|
  {
    if i < FS_DIRECT_BLOCKS then disk
    else PutBlock(disk, e.indirect, StoreU32(disk[FS_DATA_START + e.indirect], 4 * (i - 8), b))
  }

  lemma StoreHarmless(total: nat, dir: Directory, bitmap: Sector, disk: Disk, owner: Owner, k: nat, b: nat)
    requires CanGrow(total, dir, bitmap, disk, owner, k)
    requires b < total && 8 <= Blocks(dir[k].size) < FS_MAX_BLOCKS && dir[k].indirect != 0
    ensures dir[k].indirect < total
    ensures Harmless(dir, disk, owner, dir[k].indirect,
                     StoreU32(disk[FS_DATA_START + dir[k].indirect], 4 * (Blocks(dir[k].size) - 8), b))
  {
    var e, i := dir[k], Blocks(dir[k].size);
    assert Live(e, INDIRECT_SLOT);
    OwnedInRange(total, dir, bitmap, disk, owner, k, INDIRECT_SLOT);
    hide OwnerMarked, SlotsOwned, DirOk, U32At, StoreU32;
    var s := disk[FS_DATA_START + e.indirect];
    forall j | 0 <= j < 128
      ensures U32At(StoreU32(s, 4 * (i - 8), b), 4 * j) == if j == i - 8 then b else U32At(s, 4 * j)
    {
      StoreLoadU32(s, i - 8, b, j);
    }
  }

  lemma StoreIndirect(total: nat, dir: Directory, bitmap: Sector, disk: Disk, owner: Owner, k: nat, b: nat)
    requires CanGrow(total, dir, bitmap, disk, owner, k)
    requires b < total && 8 <= Blocks(dir[k].size) < FS_MAX_BLOCKS && dir[k].indirect != 0
    ensures dir[k].indirect < total
    ensures var disk' := SlotStoredDisk(disk, dir[k], Blocks(dir[k].size), b);
            && Harmless(dir, disk, owner, dir[k].indirect, disk'[FS_DATA_START + dir[k].indirect])
            && Inv(total, dir, bitmap, disk', owner)
            && SameFiles(disk, dir, disk', dir, FS_MAX_FILES)
            && BlockAt(disk', dir[k], Blocks(dir[k].size)) == b
  {
    hide OwnerMarked, SlotsOwned, Harmless, SameFiles, U32At, StoreU32, EntryOk;
    StoreHarmless(total, dir, bitmap, disk, owner, k, b);
    var e, i := dir[k], Blocks(dir[k].size);
    var s := disk[FS_DATA_START + e.indirect];
    HarmlessWrite(total, dir, bitmap, disk, owner, e.indirect, StoreU32(s, 4 * (i - 8), b));
    StoreLoadU32(s, i - 8, b, i - 8);
  }

  lemma StoreDirect(total: nat, dir: Directory, bitmap: Sector, disk: Disk, owner: Owner, k: nat, b: nat)
    requires CanGrow(total, dir, bitmap, disk, owner, k)
    requires b < total && Blocks(dir[k].size) < 8
    ensures var i := Blocks(dir[k].size);
            var dir' := dir[k := SlotStored(dir[k], i, b)];
            && Inv(total, dir', bitmap, disk, owner)
            && SameFiles(disk, dir, disk, dir', FS_MAX_FILES)
            && BlockAt(disk, dir'[k], i) == b
  {
    var e, i := dir[k], Blocks(dir[k].size);
    var e' := SlotStored(e, i, b);
    var dir' := dir[k := e'];
    forall k': nat, i': nat | 0 <= k' < FS_MAX_FILES && Live(dir'[k'], i')
      ensures SlotBlock(disk, dir'[k'], i') in owner && owner[SlotBlock(disk, dir'[k'], i')] == (k', i')
    {
      assert Live(dir[k'], i') && SlotBlock(disk, dir'[k'], i') == SlotBlock(disk, dir[k'], i');
    }
    forall p | 0 <= p < e.size
      ensures ByteAt(disk, e', p) == ByteAt(disk, e, p)
    {
      assert p / 512 < i;
    }
    assert FileBytes(disk, e') == FileBytes(disk, e);
  }

  /** Slot i of file k, just past its end, becomes live and names the block it was given. */
  lemma FreshSlots(total: nat, dir: Directory, bitmap: Sector, disk: Disk, owner: Owner, k: nat, b: nat, size: nat)
    requires CanGrow(total, dir, bitmap, disk, owner, k)
    requires Blocks(dir[k].size) < FS_MAX_BLOCKS && Blocks(size) == Blocks(dir[k].size) + 1
    requires Blocks(dir[k].size) >= 8 ==> dir[k].indirect != 0
    requires b in owner && owner[b] == (k, Blocks(dir[k].size))
    requires BlockAt(disk, dir[k], Blocks(dir[k].size)) == b
    ensures Inv(total, dir[k := dir[k].(size := size)], bitmap, disk, owner)
  {
    var e, i := dir[k], Blocks(dir[k].size);
    var e' := e.(size := size);
    var dir' := dir[k := e'];
    forall k': nat, i': nat | k' < FS_MAX_FILES && Live(dir'[k'], i')
      ensures SlotBlock(disk, dir'[k'], i') in owner && owner[SlotBlock(disk, dir'[k'], i')] == (k', i')
    {
      if k' == k && i' == i {
        assert BlockAt(disk, e', i) == b;
      } else {
        assert Live(dir[k'], i') && SlotBlock(disk, dir'[k'], i') == SlotBlock(disk, dir[k'], i');
      }
    }
  }

  /** Filling a block that slot i of the file names, just past the end, appends the chunk. */
  lemma FreshBytes(disk: Disk, e: Entry, b: nat, chunk: seq<Byte>)
    requires |e.direct| == 8 && FS_DATA_START + b < |disk| && 0 < |chunk| <= 512
    requires e.size % 512 == 0 && BlockAt(disk, e, Blocks(e.size)) == b
    requires disk[FS_DATA_START + b][0..|chunk|] == chunk
    ensures FileBytes(disk, e.(size := e.size + |chunk|)) == FileBytes(disk, e) + chunk
  {
    var e', i := e.(size := e.size + |chunk|), Blocks(e.size);
    assert e.size == 512 * i;
    assert BlockAt(disk, e', i) == BlockAt(disk, e, i);
    ResizedBytes(disk, e, e'.size);
    ChunkBytes(disk, e', i, b, 0, chunk);
    GrownBytes(disk, e, disk, e', chunk);
  }

  /** Writing a block nobody owns: harmless, and it can then be handed to slot i of file k. */
  lemma FreshBlock(total: nat, dir: Directory, bitmap: Sector, disk: Disk, owner: Owner, k: nat, b: nat, s: Sector)
    requires CanGrow(total, dir, bitmap, disk, owner, k)
    requires Blocks(dir[k].size) < FS_MAX_BLOCKS && (Blocks(dir[k].size) >= 8 ==> dir[k].indirect != 0)
    requires b < total && Used(bitmap, b) && b !in owner && BlockAt(disk, dir[k], Blocks(dir[k].size)) == b
    ensures var i := Blocks(dir[k].size);
            var disk' := PutBlock(disk, b, s);
            && Harmless(dir, disk, owner, b, s)
            && Inv(total, dir, bitmap, disk', owner[b := (k, i)])
            && SameFiles(disk, dir, disk', dir, FS_MAX_FILES)
            && BlockAt(disk', dir[k], i) == b
  {
    var e, i := dir[k], Blocks(dir[k].size);
    HarmlessWrite(total, dir, bitmap, disk, owner, b, s);
    GiveSlot(total, dir, bitmap, PutBlock(disk, b, s), owner, b, k, i);
    if i >= 8 {
      assert Live(e, INDIRECT_SLOT);
      OwnedInRange(total, dir, bitmap, disk, owner, k, INDIRECT_SLOT);
    }
  }

  /** The new last block is filled and the size raised over it. */
  lemma GrowFresh(total: nat, dir: Directory, bitmap: Sector, disk: Disk, owner: Owner, k: nat, b: nat,
      chunk: seq<Byte>)
    requires CanGrow(total, dir, bitmap, disk, owner, k)
    requires dir[k].size % 512 == 0 && 0 < |chunk| <= 512 && Blocks(dir[k].size) < FS_MAX_BLOCKS
    requires Blocks(dir[k].size) >= 8 ==> dir[k].indirect != 0
    requires b < total && Used(bitmap, b) && b !in owner && BlockAt(disk, dir[k], Blocks(dir[k].size)) == b
    ensures var i := Blocks(dir[k].size);
            var s := Patch(Zeros(512), 0, chunk);
            var disk' := PutBlock(disk, b, s);
            var dir' := dir[k := dir[k].(size := dir[k].size + |chunk|)];
            && Harmless(dir, disk, owner, b, s)
            && Inv(total, dir', bitmap, disk', owner[b := (k, i)])
            && SameFiles(disk, dir, disk', dir', k)
            && FileBytes(disk', dir'[k]) == FileBytes(disk, dir[k]) + chunk
  {
    var e, i := dir[k], Blocks(dir[k].size);
    var s := Patch(Zeros(512), 0, chunk);
    var disk' := PutBlock(disk, b, s);
    FreshBlock(total, dir, bitmap, disk, owner, k, b, s);
    hide Harmless, OwnerMarked, SlotsOwned, EntryOk, ByteAt;
    assert s[0..|chunk|] == chunk;
    assert Blocks(e.size + |chunk|) == i + 1;
    FreshSlots(total, dir, bitmap, disk', owner[b := (k, i)], k, b, e.size + |chunk|);
    SameButOne(disk, dir, disk', dir, k, e.(size := e.size + |chunk|));
    assert SameFile(disk, e, disk', e);
    FreshBytes(disk', e, b, chunk);
  }

  /** Abandoning a growth: the size goes back, the extra blocks stay marked but nameless. */
  lemma Shrink(total: nat, dir: Directory, bitmap: Sector, disk: Disk, owner: Owner, k: nat, size: nat)
    requires CanGrow(total, dir, bitmap, disk, owner, k) && size <= dir[k].size
    ensures var dir' := dir[k := dir[k].(size := size)];
            && Inv(total, dir', bitmap, disk, owner)
            && SameFiles(disk, dir, disk, dir', k)
            && FileBytes(disk, dir'[k]) == FileBytes(disk, dir[k])[..size]
  {
    var e, e' := dir[k], dir[k].(size := size);
    var dir' := dir[k := e'];
    assert Blocks(size) <= Blocks(e.size);
    forall k': nat, i: nat | 0 <= k' < FS_MAX_FILES && Live(dir'[k'], i)
      ensures SlotBlock(disk, dir'[k'], i) in owner && owner[SlotBlock(disk, dir'[k'], i)] == (k', i)
    {
      assert Live(dir[k'], i) && SlotBlock(disk, dir'[k'], i) == SlotBlock(disk, dir[k'], i);
    }
    forall p | 0 <= p < size
      ensures ByteAt(disk, e', p) == ByteAt(disk, e, p)
    {
    }
    assert FileBytes(disk, e') == FileBytes(disk, e)[..size];
  }

  /** Blanking an entry keeps the invariant for everyone else. */
  lemma Blank(total: nat, dir: Directory, bitmap: Sector, disk: Disk, owner: Owner, k: nat)
    requires Inv(total, dir, bitmap, disk, owner) && k < FS_MAX_FILES
    ensures Inv(total, dir[k := BLANK], bitmap, disk, owner)
    ensures SameFiles(disk, dir, disk, dir[k := BLANK], k)
  {
    var dir' := dir[k := BLANK];
    forall k': nat, i: nat | 0 <= k' < FS_MAX_FILES && Live(dir'[k'], i)
      ensures SlotBlock(disk, dir'[k'], i) in owner && owner[SlotBlock(disk, dir'[k'], i)] == (k', i)
    {
      assert k' != k && Live(dir[k'], i);
    }
  }

  /** Introducing an empty file with a new name in a free entry. */
  lemma Introduce(total: nat, dir: Directory, bitmap: Sector, disk: Disk, owner: Owner, k: nat, name: Name)
    requires Inv(total, dir, bitmap, disk, owner) && k < FS_MAX_FILES && !dir[k].used
    requires ValidName(name) && Find(dir, name, 0) == FS_MAX_FILES
    ensures var dir' := dir[k := BLANK.(name := name, used := true)];
            && Inv(total, dir', bitmap, disk, owner)
            && SameFiles(disk, dir, disk, dir', k)
            && FileBytes(disk, dir'[k]) == []
  {
    var dir' := dir[k := BLANK.(name := name, used := true)];
    forall k': nat, i: nat | 0 <= k' < FS_MAX_FILES && Live(dir'[k'], i)
      ensures SlotBlock(disk, dir'[k'], i) in owner && owner[SlotBlock(disk, dir'[k'], i)] == (k', i)
    {
      assert k' != k && Live(dir[k'], i);
    }
    forall j | 0 <= j < FS_MAX_FILES && dir[j].used
      ensures dir[j].name != name
    {
      assert !HasName(dir, j, name);
    }
  }

  // ---- releasing a file --------------------------------------------------------------

  ghost function WithoutFile(owner: Owner, k: nat): Owner {
    map b | b in owner && owner[b].0 != k :: owner[b]
  }

  /** Clearing bits that belong to file k alone, after its entry is gone. */
  lemma Released(total: nat, dir: Directory, bitmap: Sector, bitmap': Sector, disk: Disk, owner: Owner, k: nat)
    requires Inv(total, dir, bitmap, disk, owner) && k < FS_MAX_FILES
    requires forall b :: b in owner && owner[b].0 != k ==> Used(bitmap', b)
    ensures Inv(total, dir[k := BLANK], bitmap', disk, WithoutFile(owner, k))
  {
    Blank(total, dir, bitmap, disk, owner, k);
  }
}
