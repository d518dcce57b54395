/**
 Whole runs of ArthicFS against a plain map from names to byte strings.
 */
module FsRun {
  import opened FsLayout
  import opened FsModel
  import opened FsCrash
  import opened FsGrow
  import opened FsUpdate
  import opened FsSound
  import opened Fs

  datatype Op =
    | DoCreate(name: Name, data: seq<Byte>)
    | DoAppend(name: Name, data: seq<Byte>)
    | DoDelete(name: Name)
    | DoRead(name: Name, max: nat)
    | DoMount

  datatype Outcome = Outcome(ok: bool, data: seq<Byte>)

  /** Names are C strings. */
  predicate WellFormed(op: Op) {
    op.DoMount? || forall i :: 0 <= i < |op.name| ==> op.name[i] != 0
  }

  /** One step of the plain map: what each call may answer and what it does to the map. */
  ghost predicate Legal(m: FileMap, op: Op, out: Outcome, m': FileMap) {
    match op
    case DoCreate(name, data) =>
      if out.ok then ValidName(name) && name !in m && |data| <= MAX_SIZE && m' == m[name := data] else m' == m
    case DoAppend(name, data) =>
      if out.ok then name in m && |m[name]| + |data| <= MAX_SIZE && m' == m[name := m[name] + data] else m' == m
    case DoDelete(name) =>
      (out.ok <==> name in m) && m' == m - {name}
    case DoRead(name, max) =>
      && (out.ok <==> name in m) && m' == m
      && (out.ok ==> out.data <= m[name] && |out.data| <= max && (|out.data| == max || out.data == m[name]))
    case DoMount =>
      out.ok && m' == m
  }

  /** write_at was called and failed: the name was good, the directory had a slot or the file existed, and
      yet the call was refused. */
  ghost predicate WriteFailed(m: FileMap, op: Op, out: Outcome) {
    match op
    case DoCreate(name, _) => !out.ok && ValidName(name) && name !in m && |m| < FS_MAX_FILES
    case DoAppend(name, _) => !out.ok && name in m
    case _ => false
  }

  ghost predicate NoWriteFailed(maps: seq<FileMap>, ops: seq<Op>, outs: seq<Outcome>)
    requires |maps| == |ops| + 1 && |outs| == |ops|
  {
    forall i :: 0 <= i < |ops| ==> !WriteFailed(maps[i], ops[i], outs[i])
  }

  /** No append was refused for want of space. */
  ghost predicate NoAppendFailed(ops: seq<Op>, outs: seq<Outcome>)
    requires |outs| == |ops|
  {
    forall i :: 0 <= i < |ops| ==> !FailedAppend(ops[i], outs[i])
  }

  predicate FailedAppend(op: Op, out: Outcome) { op.DoAppend? && !out.ok }

  /** Every disk written during a delete mounts as a file system in full order. */
  ghost predicate DeletesSoundly(history: seq<Disk>, marks: seq<nat>, total: nat, ops: seq<Op>)
    requires |marks| == |ops| + 1
  {
    forall i, x :: 0 <= i < |ops| && marks[i] <= x < marks[i + 1] ==> ops[i].DoDelete? ==> SoundDisk(history, total, x)
  }

  ghost predicate SoundDisk(history: seq<Disk>, total: nat, x: nat) {
    x < |history| && Sound(total, history[x])
  }

  /** maps[i] is the map before the i-th call. */
  ghost predicate Behaves(maps: seq<FileMap>, ops: seq<Op>, outs: seq<Outcome>) {
    && |ops| == |outs| && |maps| == |ops| + 1
    && forall i :: 0 <= i < |ops| ==> Legal(maps[i], ops[i], outs[i], maps[i + 1])
  }

  /** marks[i] is the length of the history before the i-th call. Every disk written during that call
      mounts as the map before it or the map after it. */
  ghost predicate CrashesSafely(history: seq<Disk>, marks: seq<nat>, total: nat, maps: seq<FileMap>) {
    && |marks| == |maps| > 0 && marks[|marks| - 1] == |history|
    && (forall i :: 0 <= i < |marks| ==> marks[i] <= |history|)
    && forall i, x :: 0 <= i < |maps| - 1 && marks[i] <= x < marks[i + 1] ==> DuringCall(history, total, maps, i, x)
  }

  ghost predicate DuringCall(history: seq<Disk>, total: nat, maps: seq<FileMap>, i: nat, x: nat)
    requires i < |maps| - 1 && x < |history|
  {
    CrashPoint(total, history[x], maps[i], maps[i + 1])
  }

  lemma BehavesStep(maps: seq<FileMap>, ops: seq<Op>, outs: seq<Outcome>, op: Op, out: Outcome, m: FileMap)
    requires Behaves(maps, ops, outs) && Legal(maps[|ops|], op, out, m)
    ensures Behaves(maps + [m], ops + [op], outs + [out])
  {
    hide Legal;
    forall i | 0 <= i < |ops + [op]|
      ensures Legal((maps + [m])[i], (ops + [op])[i], (outs + [out])[i], (maps + [m])[i + 1])
    {
    }
  }

  lemma CrashStep(h0: seq<Disk>, h1: seq<Disk>, marks: seq<nat>, total: nat, maps: seq<FileMap>, m: FileMap)
    requires CrashesSafely(h0, marks, total, maps)
    requires SafeSince(h0, h1, total, maps[|maps| - 1], m)
    ensures CrashesSafely(h1, marks + [|h1|], total, maps + [m])
  {
    hide CrashPoint;
    var maps', marks' := maps + [m], marks + [|h1|];
    forall i, x | 0 <= i < |maps'| - 1 && marks'[i] <= x < marks'[i + 1]
      ensures DuringCall(h1, total, maps', i, x)
    {
      if i < |maps| - 1 {
        assert marks[i] <= x < marks[i + 1];
        assert DuringCall(h0, total, maps, i, x);
        assert h1[..|h0|][x] == h0[x];
      }
    }
  }

  /** One call. */
  method Perform(fs: ArthicFS, op: Op) returns (out: Outcome)
    requires fs.Valid() && fs.mounted && WellFormed(op)
    modifies fs
    ensures fs.Valid() && fs.mounted && fs.totalBlocks == old(fs.totalBlocks)
    ensures Legal(old(fs.Files()), op, out, fs.Files())
    ensures SafeSince(old(fs.history), fs.history, fs.totalBlocks, old(fs.Files()), fs.Files())
    ensures old(fs.Accounted()) && !WriteFailed(old(fs.Files()), op, out) ==> fs.Accounted()
    ensures old(fs.Saved()) && !FailedAppend(op, out) ==> fs.Saved()
    ensures old(fs.Saved()) && op.DoDelete? ==> SoundSince(old(fs.history), fs.history, fs.totalBlocks, 0)
  {
    hide SoundSince, SoundAt, MarkedUpTo, Marked, AtRest, View, SafeSince, CleanDisk, FreeCount, ExactSpace, DirOnDisk;
    ghost var m := fs.Files();
    RoomAtRest(fs.Snap());
    SafeRefl(fs.history, fs.totalBlocks, m, m);
    RestShape(fs.Snap());
    RestIsClean(fs.Snap());
    match op
    case DoCreate(name, data) =>
      var ok := fs.Create(name, data);
      out := Outcome(ok, []);
    case DoAppend(name, data) =>
      AppendSize(fs.Snap(), name);
      var ok := fs.Append(name, data);
      out := Outcome(ok, []);
    case DoDelete(name) =>
      var ok := fs.Delete(name);
      out := Outcome(ok, []);
    case DoRead(name, max) =>
      var ok, data := fs.Read(name, max);
      out := Outcome(ok, data);
    case DoMount =>
      MountTotal(fs.Snap());
      var ok := fs.Mount(fs.saved);
      out := Outcome(ok, []);
  }

  lemma RoomAtRest(c: Core)
    requires AtRest(c)
    ensures DirOk(c.dir) && (|View(c.dir, c.disk)| < FS_MAX_FILES <==> exists k :: 0 <= k < |c.dir| && !c.dir[k].used)
  {
    RoomIsFewFiles(c.dir, c.disk);
  }

  lemma AppendSize(c: Core, name: Name)
    requires AtRest(c)
    ensures DirOk(c.dir) && forall k :: k == Find(c.dir, name, 0) && k < |c.dir| ==>
              name in View(c.dir, c.disk) && |View(c.dir, c.disk)[name]| == c.dir[k].size
  {
    ViewHas(c.dir, c.disk, name);
  }

  /** Any sequence of calls, from any state reached since fs_format: the answers are those of a map
      from names to byte strings, and a crash after any sector write leaves a disk that mounts as
      the map before or after the call it interrupted. */
  method Run(fs: ArthicFS, ops: seq<Op>) returns (outs: seq<Outcome>, ghost maps: seq<FileMap>, ghost marks: seq<nat>)
    requires fs.Valid() && fs.mounted && forall i :: 0 <= i < |ops| ==> WellFormed(ops[i])
    modifies fs
    ensures fs.Valid() && fs.mounted
    ensures Behaves(maps, ops, outs) && maps[0] == old(fs.Files()) && maps[|ops|] == fs.Files()
    ensures CrashesSafely(fs.history, marks, fs.totalBlocks, maps) && marks[0] == |old(fs.history)|
    ensures old(fs.Accounted()) && NoWriteFailed(maps, ops, outs) ==> fs.Accounted()
    ensures old(fs.Saved()) && NoAppendFailed(ops, outs) ==>
      fs.Saved() && |marks| == |ops| + 1 && DeletesSoundly(fs.history, marks, fs.totalBlocks, ops)
  {
    hide SoundSince, DeletesSoundly, MarkedUpTo, FailedAppend, AtRest, View, SafeSince, CrashPoint, CrashesSafely,
         Legal, Behaves, WriteFailed;
    outs, maps, marks := [], [fs.Files()], [|fs.history|];
    RunStart(fs.history, fs.totalBlocks, maps[0]);
    var n := 0;
    assert ops[..0] == [];
    while n < |ops|
      invariant 0 <= n <= |ops| == |ops| && |outs| == n && |maps| == n + 1
      invariant fs.Valid() && fs.mounted && fs.totalBlocks == old(fs.totalBlocks)
      invariant Behaves(maps, ops[..n], outs) && maps[0] == old(fs.Files()) && maps[n] == fs.Files()
      invariant old(fs.Accounted()) && NoWriteFailed(maps, ops[..n], outs) ==> fs.Accounted()
      invariant CrashesSafely(fs.history, marks, fs.totalBlocks, maps) && |marks| == n + 1
      invariant old(fs.Saved()) && NoAppendFailed(ops[..n], outs) ==>
        fs.Saved() && DeletesSoundly(fs.history, marks, fs.totalBlocks, ops[..n])
      invariant marks[0] == |old(fs.history)|
    {
      ghost var h := fs.history;
      var out := Perform(fs, ops[n]);
      CrashStep(h, fs.history, marks, fs.totalBlocks, maps, fs.Files());
      BehavesStep(maps, ops[..n], outs, ops[n], out, fs.Files());
      FailedStep(maps, ops[..n], outs, ops[n], out, fs.Files());
      AppendFailedStep(ops[..n], outs, ops[n], out);
      if old(fs.Saved()) && NoAppendFailed(ops[..n], outs) {
        DeleteStep(h, fs.history, marks, fs.totalBlocks, maps, fs.Files(), ops[..n], ops[n]);
      }
      assert ops[..n] + [ops[n]] == ops[..n + 1];
      outs, maps, marks := outs + [out], maps + [fs.Files()], marks + [|fs.history|];
      n := n + 1;
    }
    assert ops[..n] == ops;
  }

  lemma FailedStep(maps: seq<FileMap>, ops: seq<Op>, outs: seq<Outcome>, op: Op, out: Outcome, m: FileMap)
    requires |maps| == |ops| + 1 && |outs| == |ops|
    ensures NoWriteFailed(maps + [m], ops + [op], outs + [out]) ==>
      NoWriteFailed(maps, ops, outs) && !WriteFailed(maps[|ops|], op, out)
  {
    hide WriteFailed;
    var maps', ops', outs' := maps + [m], ops + [op], outs + [out];
    if NoWriteFailed(maps', ops', outs') {
      assert !WriteFailed(maps'[|ops|], ops'[|ops|], outs'[|ops|]);
      forall i | 0 <= i < |ops|
        ensures !WriteFailed(maps[i], ops[i], outs[i])
      {
        assert !WriteFailed(maps'[i], ops'[i], outs'[i]);
      }
    }
  }

  lemma AppendFailedStep(ops: seq<Op>, outs: seq<Outcome>, op: Op, out: Outcome)
    requires |outs| == |ops|
    ensures NoAppendFailed(ops + [op], outs + [out]) ==> NoAppendFailed(ops, outs) && !FailedAppend(op, out)
  {
    hide FailedAppend;
    var ops', outs' := ops + [op], outs + [out];
    if NoAppendFailed(ops', outs') {
      assert !FailedAppend(ops'[|ops|], outs'[|ops|]);
      forall i | 0 <= i < |ops|
        ensures !FailedAppend(ops[i], outs[i])
      {
        assert !FailedAppend(ops'[i], outs'[i]);
      }
    }
  }

  lemma DeleteStep(h0: seq<Disk>, h1: seq<Disk>, marks: seq<nat>, total: nat, maps: seq<FileMap>, m: FileMap,
      ops: seq<Op>, op: Op)
    requires CrashesSafely(h0, marks, total, maps) && SafeSince(h0, h1, total, maps[|maps| - 1], m)
    requires |marks| == |ops| + 1 && DeletesSoundly(h0, marks, total, ops)
    requires op.DoDelete? ==> SoundSince(h0, h1, total, 0)
    ensures DeletesSoundly(h1, marks + [|h1|], total, ops + [op])
  {
    hide CrashPoint, Sound;
    var marks', ops' := marks + [|h1|], ops + [op];
    forall i, x | 0 <= i < |ops'| && marks'[i] <= x < marks'[i + 1] && ops'[i].DoDelete?
      ensures SoundDisk(h1, total, x)
    {
      if i < |ops| {
        assert marks[i] <= x < marks[i + 1];
        assert SoundDisk(h0, total, x);
        assert h1[..|h0|][x] == h0[x];
      }
    }
  }

  /** Exact space accounting over runs: when no write_at failed, fs_stats reports as used exactly what the
      files cost, and once every file has been deleted no block is marked. */
  method RunAndCount(fs: ArthicFS, ops: seq<Op>) returns (outs: seq<Outcome>, used: nat, ghost maps: seq<FileMap>)
    requires fs.Valid() && fs.mounted && fs.Accounted() && forall i :: 0 <= i < |ops| ==> WellFormed(ops[i])
    modifies fs
    ensures fs.Valid() && fs.mounted && Behaves(maps, ops, outs) && maps[0] == old(fs.Files())
    ensures maps[|ops|] == fs.Files()
    ensures NoWriteFailed(maps, ops, outs) ==> used == TotalCost(fs.directory, |fs.directory|)
    ensures NoWriteFailed(maps, ops, outs) && fs.Files() == map[] ==>
      used == 0 && fs.totalBlocks <= 4096 && forall b :: 0 <= b < fs.totalBlocks ==> !Used(fs.bitmap, b)
  {
    hide AtRest, View, CrashesSafely, Legal, NoWriteFailed, DirOnDisk;
    var total, files;
    ghost var marks;
    outs, maps, marks := Run(fs, ops);
    total, used, files := fs.Stats();
    if NoWriteFailed(maps, ops, outs) && fs.Files() == map[] {
      NoneAtRest(fs.Snap());
      NoFilesNoBlocks(fs.totalBlocks, fs.directory, fs.bitmap);
      TotalCostNone(fs.directory, |fs.directory|);
    }
  }

  lemma NoneAtRest(c: Core)
    requires AtRest(c)
    ensures DirOk(c.dir) && (View(c.dir, c.disk) == map[] ==> forall k :: 0 <= k < |c.dir| ==> !c.dir[k].used)
  {
    RoomIsFewFiles(c.dir, c.disk);
  }

  lemma RunStart(h: seq<Disk>, total: nat, m: FileMap)
    ensures CrashesSafely(h, [|h|], total, [m]) && Behaves([m], [], []) && DeletesSoundly(h, [|h|], total, [])
  {
  }
}
