/**
 The on-disk format of ArthicFS: constants, directory entries and their byte encoding.

 The disk understands nothing but 512-byte sectors, so every structure is written out in bytes
 here: little-endian 32-bit fields, 128-byte directory entries, four entries to a sector.
 */
module FsLayout {

  type Byte = x: nat | x < 256

  const SECTOR_SIZE: nat := 512
  const FS_MAGIC: nat := 0x41525432
  const FS_NAME_MAX: nat := 32
  const FS_MAX_FILES: nat := 64
  const FS_DIR_START: nat := 1
  const FS_DIR_SECTORS: nat := 16
  const FS_BITMAP_SECTOR: nat := 17
  const FS_DATA_START: nat := 18
  const FS_DIRECT_BLOCKS: nat := 8
  const FS_PER_INDIRECT: nat := 128
  const FS_MAX_BLOCKS: nat := 136
  const ENTRY_SIZE: nat := 128

  /** The value block_alloc and block_at return for "no block". */
  const NO_BLOCK: nat := 0xFFFF_FFFF
  const U32: nat := 0x1_0000_0000

  type Sector = s: seq<Byte> | |s| == 512 witness seq(512, _ => 0)
  type Disk = seq<Sector>

  function Zeros(n: nat): (z: seq<Byte>)
    ensures |z| == n
    ensures forall i :: 0 <= i < n ==> z[i] == 0
  {
    seq(n, _ => 0)
  }

  // ---- 32-bit little-endian fields -------------------------------------------

  function PutU32(n: nat): (b: seq<Byte>)
    requires n < U32
    ensures |b| == 4
  {
    [n % 256, n / 256 % 256, n / 65536 % 256, n / 16777216]
  }

  function U32At(s: seq<Byte>, at: nat): (n: nat)
    requires at + 4 <= |s|
    ensures n < U32
  {
    s[at] as int + 256 * s[at + 1] as int + 65536 * s[at + 2] as int + 16777216 * s[at + 3] as int
  }

  /** Store a 32-bit field in a sector, as the cast-and-assign in block_set does. */
  function StoreU32(s: Sector, at: nat, n: nat): (r: Sector)
    requires at + 4 <= 512 && n < U32
  {
    s[..at] + PutU32(n) + s[at + 4..]
  }

  lemma PutGetU32(n: nat, pre: seq<Byte>, post: seq<Byte>)
    requires n < U32
    ensures U32At(pre + PutU32(n) + post, |pre|) == n
  {
    var b := PutU32(n);
    var s := pre + b + post;
    assert s[|pre|] == b[0] && s[|pre| + 1] == b[1] && s[|pre| + 2] == b[2] && s[|pre| + 3] == b[3];
    assert n / 65536 == n / 256 / 256 && n / 16777216 == n / 65536 / 256;
  }

  /** A stored field reads back, and every aligned field beside it is untouched. */
  lemma StoreLoadU32(s: Sector, slot: nat, n: nat, other: nat)
    requires slot < FS_PER_INDIRECT && other < FS_PER_INDIRECT && n < U32
    ensures U32At(StoreU32(s, 4 * slot, n), 4 * other) == if other == slot then n else U32At(s, 4 * other)
  {
    var at := 4 * slot;
    if other == slot {
      PutGetU32(n, s[..at], s[at + 4..]);
    } else {
      var r := StoreU32(s, at, n);
      var o := 4 * other;
      assert r[o] == s[o] && r[o + 1] == s[o + 1] && r[o + 2] == s[o + 2] && r[o + 3] == s[o + 3];
    }
  }

  // ---- directory entries -------------------------------------------------------

  /** A C string without its terminator. */
  type Name = seq<Byte>

  predicate ValidName(n: Name) {
    0 < |n| < FS_NAME_MAX && forall i :: 0 <= i < |n| ==> n[i] != 0
  }

  datatype Entry = Entry(name: Name, size: nat, used: bool, direct: seq<nat>, indirect: nat)

  /** What `kmemset(entry, 0, sizeof(*entry))` leaves behind. */
  const BLANK: Entry := Entry([], 0, false, [0, 0, 0, 0, 0, 0, 0, 0], 0)

  /** Every field fits the width the packed struct gives it. */
  predicate Encodable(e: Entry) {
    && |e.name| < FS_NAME_MAX && (forall i :: 0 <= i < |e.name| ==> e.name[i] != 0)
    && e.size < U32 && e.indirect < U32
    && |e.direct| == FS_DIRECT_BLOCKS
    && (forall i :: 0 <= i < FS_DIRECT_BLOCKS ==> e.direct[i] < U32)
  }

  function PutU32s(ns: seq<nat>): (b: seq<Byte>)
    requires forall i :: 0 <= i < |ns| ==> ns[i] < U32
    ensures |b| == 4 * |ns|
  {
    if ns == [] then [] else PutU32s(ns[..|ns| - 1]) + PutU32(ns[|ns| - 1])
  }

  lemma {:induction false} PutGetU32s(ns: seq<nat>, i: nat, pre: seq<Byte>, post: seq<Byte>)
    requires i < |ns|
    requires forall i :: 0 <= i < |ns| ==> ns[i] < U32
    ensures U32At(pre + PutU32s(ns) + post, |pre| + 4 * i) == ns[i]
  {
    var last := |ns| - 1;
    var init := PutU32s(ns[..last]);
    if i == last {
      PutGetU32(ns[i], pre + init, post);
      assert pre + PutU32s(ns) + post == pre + init + PutU32(ns[i]) + post;
    } else {
      PutGetU32s(ns[..last], i, pre, PutU32(ns[last]) + post);
      assert pre + PutU32s(ns) + post == pre + init + (PutU32(ns[last]) + post);
    }
  }

  function Fields(e: Entry): (ns: seq<nat>)
    requires Encodable(e)
    ensures |ns| == 11 && forall i :: 0 <= i < 11 ==> ns[i] < U32
  {
    [e.size, if e.used then 1 else 0] + e.direct + [e.indirect]
  }

  function EncodeEntry(e: Entry): (b: seq<Byte>)
    requires Encodable(e)
    ensures |b| == ENTRY_SIZE
  {
    e.name + Zeros(FS_NAME_MAX - |e.name|) + PutU32s(Fields(e)) + Zeros(52)
  }

  /** The bytes before the first NUL. */
  function CString(b: seq<Byte>): (n: Name)
    ensures |n| <= |b|
  {
    if b == [] || b[0] == 0 then [] else [b[0]] + CString(b[1..])
  }

  function DecodeEntry(b: seq<Byte>): Entry
    requires |b| == ENTRY_SIZE
  {
    Entry(CString(b[..FS_NAME_MAX]), U32At(b, 32), U32At(b, 36) != 0,
          seq(FS_DIRECT_BLOCKS, i requires 0 <= i < FS_DIRECT_BLOCKS => U32At(b, 40 + 4 * i)), U32At(b, 72))
  }

  lemma {:induction false} CStringPadded(n: Name, pad: seq<Byte>)
    requires forall i :: 0 <= i < |n| ==> n[i] != 0
    requires pad == [] || pad[0] == 0
    ensures CString(n + pad) == n
  {
    if n == [] {
      assert n + pad == pad;
    } else {
      assert (n + pad)[1..] == n[1..] + pad;
      CStringPadded(n[1..], pad);
    }
  }

  lemma FieldOfEntry(e: Entry, i: nat)
    requires Encodable(e) && i < 11
    ensures U32At(EncodeEntry(e), 32 + 4 * i) == Fields(e)[i]
  {
    PutGetU32s(Fields(e), i, e.name + Zeros(FS_NAME_MAX - |e.name|), Zeros(52));
  }

  /** Where the fields of an entry are in its 128 bytes. */
  lemma EntryLayout(e: Entry)
    requires Encodable(e)
    ensures EncodeEntry(e)[..|e.name|] == e.name && EncodeEntry(e)[|e.name|] == 0
    ensures U32At(EncodeEntry(e), 32) == e.size && (U32At(EncodeEntry(e), 36) != 0 <==> e.used)
    ensures forall i :: 0 <= i < FS_DIRECT_BLOCKS ==> U32At(EncodeEntry(e), 40 + 4 * i) == e.direct[i]
    ensures U32At(EncodeEntry(e), 72) == e.indirect
  {
    FieldOfEntry(e, 0);
    FieldOfEntry(e, 1);
    FieldOfEntry(e, 10);
    forall i | 0 <= i < FS_DIRECT_BLOCKS
      ensures U32At(EncodeEntry(e), 40 + 4 * i) == e.direct[i]
    {
      FieldOfEntry(e, 2 + i);
    }
  }

  /** Reading back a directory entry gives the entry that was written. */
  lemma EntryRoundTrip(e: Entry)
    requires Encodable(e)
    ensures DecodeEntry(EncodeEntry(e)) == e
  {
    var b := EncodeEntry(e);
    var d := DecodeEntry(b);
    assert b[..FS_NAME_MAX] == e.name + Zeros(FS_NAME_MAX - |e.name|);
    CStringPadded(e.name, Zeros(FS_NAME_MAX - |e.name|));
    FieldOfEntry(e, 0);
    FieldOfEntry(e, 1);
    FieldOfEntry(e, 10);
    forall i | 0 <= i < FS_DIRECT_BLOCKS
      ensures d.direct[i] == e.direct[i]
    {
      FieldOfEntry(e, 2 + i);
    }
    assert d.direct == e.direct;
  }

  // ---- whole sectors -----------------------------------------------------------

  type Directory = seq<Entry>

  predicate EncodableDir(dir: Directory) {
    |dir| == FS_MAX_FILES && forall k :: 0 <= k < FS_MAX_FILES ==> Encodable(dir[k])
  }

  /** The i-th of the sectors write_directory writes: entries 4i .. 4i+3. */
  function DirSector(dir: Directory, i: nat): (s: Sector)
    requires EncodableDir(dir) && i < FS_DIR_SECTORS
  {
    EncodeEntry(dir[4 * i]) + EncodeEntry(dir[4 * i + 1]) + EncodeEntry(dir[4 * i + 2]) + EncodeEntry(dir[4 * i + 3])
  }

  /** Entry k as it sits in its directory sector. */
  function EntryOnDisk(disk: Disk, k: nat): Entry
    requires |disk| >= FS_DATA_START && k < FS_MAX_FILES
  {
    var at := ENTRY_SIZE * (k % 4);
    DecodeEntry(disk[FS_DIR_START + k / 4][at..at + ENTRY_SIZE])
  }

  /** What read_directory loads. */
  function DirOnDisk(disk: Disk): (dir: Directory)
    requires |disk| >= FS_DATA_START
    ensures |dir| == FS_MAX_FILES
    ensures forall k :: 0 <= k < FS_MAX_FILES ==> dir[k] == EntryOnDisk(disk, k)
  {
    seq(FS_MAX_FILES, k requires 0 <= k < FS_MAX_FILES => EntryOnDisk(disk, k))
  }

  lemma DirSectorRoundTrip(dir: Directory, k: nat)
    requires EncodableDir(dir) && k < FS_MAX_FILES
    ensures DecodeEntry(DirSector(dir, k / 4)[ENTRY_SIZE * (k % 4)..ENTRY_SIZE * (k % 4) + ENTRY_SIZE]) == dir[k]
  {
    EntryRoundTrip(dir[k]);
    var s, at := DirSector(dir, k / 4), ENTRY_SIZE * (k % 4);
    assert k == 4 * (k / 4) + k % 4;
    assert s[at..at + ENTRY_SIZE] == EncodeEntry(dir[k]);
  }

  /** Writing directory sector i moves exactly entries 4i .. 4i+3 to disk. */
  lemma DirSectorWritten(disk: Disk, dir: Directory, i: nat, k: nat)
    requires |disk| >= FS_DATA_START && EncodableDir(dir) && i < FS_DIR_SECTORS && k < FS_MAX_FILES
    ensures EntryOnDisk(disk[FS_DIR_START + i := DirSector(dir, i)], k)
         == if k / 4 == i then dir[k] else EntryOnDisk(disk, k)
  {
    if k / 4 == i {
      DirSectorRoundTrip(dir, k);
    }
  }

  /** The superblock sector: magic, total_blocks, data_start, max_files, padding. */
  function SuperSector(totalBlocks: nat): (s: Sector)
    requires totalBlocks < U32
  {
    PutU32s([FS_MAGIC, totalBlocks, FS_DATA_START, FS_MAX_FILES]) + Zeros(496)
  }

  lemma SuperRoundTrip(totalBlocks: nat)
    requires totalBlocks < U32
    ensures var s := SuperSector(totalBlocks);
            && U32At(s, 0) == FS_MAGIC && U32At(s, 4) == totalBlocks
            && U32At(s, 8) == FS_DATA_START && U32At(s, 12) == FS_MAX_FILES
  {
    var ns := [FS_MAGIC, totalBlocks, FS_DATA_START, FS_MAX_FILES];
    assert [] + PutU32s(ns) + Zeros(496) == SuperSector(totalBlocks);
    PutGetU32s(ns, 0, [], Zeros(496));
    PutGetU32s(ns, 1, [], Zeros(496));
    PutGetU32s(ns, 2, [], Zeros(496));
    PutGetU32s(ns, 3, [], Zeros(496));
  }
}
