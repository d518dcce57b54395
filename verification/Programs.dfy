/**
 Programs side by side: which frames, page tables, address spaces and heap blocks each of them holds, and
 that nothing else is held on their behalf.
 */
module Programs {
  import opened Frames
  import opened PageTables
  import opened AddressSpaces
  import opened Paging32
  import opened LoaderModel
  import HeapModel

  /** The task running a program: its structure on the heap and its kernel stack. */
  datatype TaskRecord = TaskRecord(task: nat, stack: nat)

  ghost function StackFrames(t: TaskRecord): set<nat> { Range(t.stack, t.stack + STACK_FRAMES) }

  /** All frames held by a program and its task, page tables aside. */
  ghost function Own(prog: Program, t: TaskRecord): set<nat> { Data(prog) + StackFrames(t) }

  /** A program's frames are in use, none twice, and none is a page table; its space exists. */
  ghost predicate Resident(prog: Program, t: TaskRecord, used: set<nat>, keys: set<nat>, spaces: set<nat>,
      kernelPdpt: nat) {
    && DataApart(prog) && t.stack != 0 && Data(prog) !! StackFrames(t)
    && Own(prog, t) <= used && Own(prog, t) !! keys
    && prog.pageDir in spaces && prog.pageDir != kernelPdpt
  }

  /** All running programs are resident, and no two of them share a frame or a space. */
  ghost predicate Residents(programs: seq<Program>, tasks: seq<TaskRecord>, used: set<nat>, keys: set<nat>,
      spaces: set<nat>, kernelPdpt: nat) {
    && |tasks| == |programs|
    && (forall i :: 0 <= i < |programs| && programs[i].inUse ==>
         Resident(programs[i], tasks[i], used, keys, spaces, kernelPdpt))
    && (forall i, j :: 0 <= i < j < |programs| && programs[i].inUse && programs[j].inUse ==>
          Own(programs[i], tasks[i]) !! Own(programs[j], tasks[j]) && programs[i].pageDir != programs[j].pageDir)
  }

  /** Each running program's task structure is a live heap block of its own. */
  ghost predicate BlocksOk(programs: seq<Program>, tasks: seq<TaskRecord>, blocks: seq<HeapModel.Block>,
      live: set<HeapModel.Block>, h: HeapModel.Shape) {
    && |tasks| == |programs| == |blocks|
    && (forall i :: 0 <= i < |programs| && programs[i].inUse ==>
         blocks[i] in live && HeapModel.Payload(h, blocks[i]) == tasks[i].task)
    && (forall i, j :: 0 <= i < j < |programs| && programs[i].inUse && programs[j].inUse ==> blocks[i] != blocks[j])
  }

  /** No running program has mapped anything above the first gigabyte. */
  ghost predicate AllLow(programs: seq<Program>, info: map<nat, Info>) {
    forall i :: 0 <= i < |programs| && programs[i].inUse ==> LowIn(info, programs[i].pageDir)
  }

  // ---- coming and going ------------------------------------------------------------------------------------

  /** New frames and tables come from outside what was in use. */
  lemma ResidentsGrow(programs: seq<Program>, tasks: seq<TaskRecord>, used: set<nat>, keys: set<nat>, spaces: set<nat>,
      used': set<nat>, keys': set<nat>, spaces': set<nat>, kernelPdpt: nat)
    requires Residents(programs, tasks, used, keys, spaces, kernelPdpt) && used <= used' && keys' * used <= keys
    requires spaces <= spaces'
    ensures Residents(programs, tasks, used', keys', spaces', kernelPdpt)
  {
    hide Own, Data, DataApart, StackFrames;
  }

  lemma ResidentsIdle(programs: seq<Program>, tasks: seq<TaskRecord>, n: nat, prog: Program, used: set<nat>,
      keys: set<nat>, spaces: set<nat>, kernelPdpt: nat)
    requires n < |programs| && !programs[n].inUse && !prog.inUse
    requires Residents(programs, tasks, used, keys, spaces, kernelPdpt)
    ensures Residents(programs[n := prog], tasks, used, keys, spaces, kernelPdpt)
  {
    hide Own, Data, DataApart, StackFrames;
  }

  /** A program joins with frames that nobody used before and a space that did not exist. */
  lemma ResidentsJoin(programs: seq<Program>, tasks: seq<TaskRecord>, n: nat, prog: Program, t: TaskRecord,
      used: set<nat>, keys: set<nat>, spaces: set<nat>, used': set<nat>, keys': set<nat>, spaces': set<nat>,
      kernelPdpt: nat)
    requires n < |programs| && !programs[n].inUse && Residents(programs, tasks, used, keys, spaces, kernelPdpt)
    requires used <= used' && keys' * used <= keys && spaces <= spaces'
    requires Resident(prog, t, used', keys', spaces', kernelPdpt) && Own(prog, t) !! used && prog.pageDir !in spaces
    ensures Residents(programs[n := prog], tasks[n := t], used', keys', spaces', kernelPdpt)
  {
    hide Own, Data, DataApart, StackFrames;
  }

  /** A program leaves and takes only its own with it. */
  lemma ResidentsLeave(programs: seq<Program>, tasks: seq<TaskRecord>, n: nat, used: set<nat>, keys: set<nat>,
      spaces: set<nat>, used': set<nat>, keys': set<nat>, kernelPdpt: nat)
    requires n < |programs| && programs[n].inUse && Residents(programs, tasks, used, keys, spaces, kernelPdpt)
    requires used - Own(programs[n], tasks[n]) - keys <= used' && keys' <= keys
    ensures Residents(programs[n := NoProgram], tasks, used', keys', spaces - {programs[n].pageDir}, kernelPdpt)
  {
    hide Own, Data, DataApart, StackFrames;
  }

  lemma ResidentAt(programs: seq<Program>, tasks: seq<TaskRecord>, n: nat, used: set<nat>, keys: set<nat>,
      spaces: set<nat>, kernelPdpt: nat)
    requires Residents(programs, tasks, used, keys, spaces, kernelPdpt) && n < |programs| && programs[n].inUse
    ensures n < |tasks| && Resident(programs[n], tasks[n], used, keys, spaces, kernelPdpt)
  {
  }

  lemma BlocksJoin(programs: seq<Program>, tasks: seq<TaskRecord>, blocks: seq<HeapModel.Block>,
      live: set<HeapModel.Block>, h: HeapModel.Shape, n: nat, prog: Program, t: TaskRecord, block: HeapModel.Block)
    requires BlocksOk(programs, tasks, blocks, live, h) && n < |programs| && !programs[n].inUse
    requires block !in live && HeapModel.Payload(h, block) == t.task
    ensures BlocksOk(programs[n := prog], tasks[n := t], blocks[n := block], live + {block}, h)
  {
  }

  lemma BlocksLeave(programs: seq<Program>, tasks: seq<TaskRecord>, blocks: seq<HeapModel.Block>,
      live: set<HeapModel.Block>, h: HeapModel.Shape, n: nat)
    requires BlocksOk(programs, tasks, blocks, live, h) && n < |programs| && programs[n].inUse
    ensures blocks[n] in live && HeapModel.Payload(h, blocks[n]) == tasks[n].task
    ensures BlocksOk(programs[n := NoProgram], tasks, blocks, live - {blocks[n]}, h)
  {
  }

  lemma BlocksIdle(programs: seq<Program>, tasks: seq<TaskRecord>, blocks: seq<HeapModel.Block>,
      live: set<HeapModel.Block>, h: HeapModel.Shape, n: nat, prog: Program)
    requires BlocksOk(programs, tasks, blocks, live, h) && n < |programs| && !programs[n].inUse && !prog.inUse
    ensures BlocksOk(programs[n := prog], tasks, blocks, live, h)
  {
  }

  // ---- the books -------------------------------------------------------------------------------------------

  ghost function Owns(programs: seq<Program>, tasks: seq<TaskRecord>): set<nat>
    requires |tasks| == |programs|
  {
    set i, f | 0 <= i < |programs| && programs[i].inUse && f in Own(programs[i], tasks[i]) :: f
  }

  ghost function Tables(programs: seq<Program>, info: map<nat, Info>): set<nat> {
    set i, t | 0 <= i < |programs| && programs[i].inUse && t in Owned(info, programs[i].pageDir) :: t
  }

  ghost function Dirs(programs: seq<Program>): set<nat> {
    set i | 0 <= i < |programs| && programs[i].inUse :: programs[i].pageDir
  }

  ghost function Structures(programs: seq<Program>, blocks: seq<HeapModel.Block>): set<HeapModel.Block>
    requires |blocks| == |programs|
  {
    set i | 0 <= i < |programs| && programs[i].inUse :: blocks[i]
  }

  /** What was there before any of the programs. */
  datatype Start = Start(used: set<nat>, keys: set<nat>, spaces: set<nat>, live: set<HeapModel.Block>)

  /** Everything in use was in use at the start or belongs to a running program, and never both. */
  ghost predicate Balanced(programs: seq<Program>, tasks: seq<TaskRecord>, blocks: seq<HeapModel.Block>,
      info: map<nat, Info>, now: Start, start: Start)
    requires |tasks| == |programs| == |blocks|
  {
    && now.used == start.used + Owns(programs, tasks) + Tables(programs, info)
    && start.used !! Owns(programs, tasks) && start.used !! Tables(programs, info)
    && now.keys == start.keys + Tables(programs, info) && start.keys <= start.used
    && now.spaces == start.spaces + Dirs(programs) && start.spaces !! Dirs(programs)
    && now.live == start.live + Structures(programs, blocks) && start.live !! Structures(programs, blocks)
  }

  /** With nobody running, everything is as it was at the start. */
  lemma AllGone(programs: seq<Program>, tasks: seq<TaskRecord>, blocks: seq<HeapModel.Block>, info: map<nat, Info>,
      now: Start, start: Start)
    requires |tasks| == |programs| == |blocks| && Balanced(programs, tasks, blocks, info, now, start)
    requires forall i :: 0 <= i < |programs| ==> !programs[i].inUse
    ensures now == start
  {
    hide Own, Owned;
    assert Owns(programs, tasks) == {} && Tables(programs, info) == {};
  }

  /** Labels of running programs' tables do not move while others come and go. */
  lemma TablesKept(programs: seq<Program>, info: map<nat, Info>, info': map<nat, Info>, spaces: set<nat>)
    requires SameLabels(info, info', spaces) && Dirs(programs) <= spaces
    ensures Tables(programs, info') == Tables(programs, info) && (AllLow(programs, info) ==> AllLow(programs, info'))
  {
    hide Owned, SameLabels, LowIn;
    forall i | 0 <= i < |programs| && programs[i].inUse
      ensures Owned(info', programs[i].pageDir) == Owned(info, programs[i].pageDir)
      ensures LowIn(info', programs[i].pageDir) <==> LowIn(info, programs[i].pageDir)
    {
      assert programs[i].pageDir in Dirs(programs);
      LabelsKept(info, info', spaces, programs[i].pageDir);
    }
  }

  /** A program starts. */
  lemma BalancedJoin(programs: seq<Program>, tasks: seq<TaskRecord>, blocks: seq<HeapModel.Block>,
      info: map<nat, Info>, now: Start, start: Start, n: nat, prog: Program, t: TaskRecord, block: HeapModel.Block,
      info': map<nat, Info>, now': Start)
    requires |tasks| == |programs| == |blocks| && Balanced(programs, tasks, blocks, info, now, start)
    requires n < |programs| && !programs[n].inUse && prog.inUse && SameLabels(info, info', now.spaces)
    requires now'.used == now.used + Own(prog, t) + Owned(info', prog.pageDir) && now.used !! Own(prog, t)
    requires now.used !! Owned(info', prog.pageDir)
    requires now'.keys == now.keys + Owned(info', prog.pageDir)
    requires now'.spaces == now.spaces + {prog.pageDir} && prog.pageDir !in now.spaces
    requires now'.live == now.live + {block} && block !in now.live
    ensures Balanced(programs[n := prog], tasks[n := t], blocks[n := block], info', now', start)
  {
    hide Own, Owned, SameLabels;
    TablesKept(programs, info, info', now.spaces);
    var programs', tasks', blocks' := programs[n := prog], tasks[n := t], blocks[n := block];
    OwnsJoin(programs, tasks, n, prog, t);
    TablesJoin(programs, info', n, prog);
    DirsJoin(programs, n, prog);
    StructuresJoin(programs, blocks, n, prog, block);
  }

  lemma OwnsJoin(programs: seq<Program>, tasks: seq<TaskRecord>, n: nat, prog: Program, t: TaskRecord)
    requires |tasks| == |programs| && n < |programs| && !programs[n].inUse && prog.inUse
    ensures Owns(programs[n := prog], tasks[n := t]) == Owns(programs, tasks) + Own(prog, t)
  {
    hide Own;
    var programs', tasks' := programs[n := prog], tasks[n := t];
    forall f
      ensures f in Owns(programs', tasks') <==> f in Owns(programs, tasks) || f in Own(prog, t)
    {
      if f in Owns(programs, tasks) {
        var i :| 0 <= i < |programs| && programs[i].inUse && f in Own(programs[i], tasks[i]);
        assert programs'[i] == programs[i] && tasks'[i] == tasks[i];
      }
      if f in Own(prog, t) {
        assert programs'[n].inUse && f in Own(programs'[n], tasks'[n]);
      }
    }
  }

  lemma TablesJoin(programs: seq<Program>, info: map<nat, Info>, n: nat, prog: Program)
    requires n < |programs| && !programs[n].inUse && prog.inUse
    ensures Tables(programs[n := prog], info) == Tables(programs, info) + Owned(info, prog.pageDir)
  {
    hide Owned;
    var programs' := programs[n := prog];
    forall f
      ensures f in Tables(programs', info) <==> f in Tables(programs, info) || f in Owned(info, prog.pageDir)
    {
      if f in Tables(programs, info) {
        var i :| 0 <= i < |programs| && programs[i].inUse && f in Owned(info, programs[i].pageDir);
        assert programs'[i] == programs[i];
      }
      if f in Owned(info, prog.pageDir) {
        assert programs'[n].inUse && f in Owned(info, programs'[n].pageDir);
      }
    }
  }

  lemma DirsJoin(programs: seq<Program>, n: nat, prog: Program)
    requires n < |programs| && !programs[n].inUse && prog.inUse
    ensures Dirs(programs[n := prog]) == Dirs(programs) + {prog.pageDir}
  {
    var programs' := programs[n := prog];
    forall d
      ensures d in Dirs(programs') <==> d in Dirs(programs) || d == prog.pageDir
    {
      if d in Dirs(programs) {
        var i :| 0 <= i < |programs| && programs[i].inUse && d == programs[i].pageDir;
        assert programs'[i] == programs[i];
      }
      assert programs'[n].inUse && programs'[n].pageDir == prog.pageDir;
    }
  }

  lemma StructuresJoin(programs: seq<Program>, blocks: seq<HeapModel.Block>, n: nat, prog: Program,
      block: HeapModel.Block)
    requires |blocks| == |programs| && n < |programs| && !programs[n].inUse && prog.inUse
    ensures Structures(programs[n := prog], blocks[n := block]) == Structures(programs, blocks) + {block}
  {
    var programs', blocks' := programs[n := prog], blocks[n := block];
    forall b
      ensures b in Structures(programs', blocks') <==> b in Structures(programs, blocks) || b == block
    {
      if b in Structures(programs, blocks) {
        var i :| 0 <= i < |programs| && programs[i].inUse && b == blocks[i];
        assert programs'[i] == programs[i] && blocks'[i] == blocks[i];
      }
      assert programs'[n].inUse && blocks'[n] == block;
    }
  }

  /** A program ends. */
  lemma BalancedLeave(programs: seq<Program>, tasks: seq<TaskRecord>, blocks: seq<HeapModel.Block>,
      info: map<nat, Info>, now: Start, start: Start, n: nat, info': map<nat, Info>, now': Start, kernelPdpt: nat,
      h: HeapModel.Shape)
    requires |tasks| == |programs| == |blocks| && Balanced(programs, tasks, blocks, info, now, start)
    requires Residents(programs, tasks, now.used, now.keys, now.spaces, kernelPdpt)
    requires BlocksOk(programs, tasks, blocks, now.live, h)
    requires n < |programs| && programs[n].inUse && info.Keys == now.keys
    requires SameOwners(info, info', programs[n].pageDir)
    requires now'.used == now.used - Own(programs[n], tasks[n]) - Owned(info, programs[n].pageDir)
    requires now'.keys == now.keys - Owned(info, programs[n].pageDir)
    requires now'.spaces == now.spaces - {programs[n].pageDir} && now'.live == now.live - {blocks[n]}
    ensures Balanced(programs[n := NoProgram], tasks, blocks, info', now', start)
  {
    hide Own, Owned, SameOwners, Owns, Tables, Dirs, Structures;
    var rest, prog := programs[n := NoProgram], programs[n];
    assert rest[n := prog] == programs && tasks[n := tasks[n]] == tasks && blocks[n := blocks[n]] == blocks;
    OwnsJoin(rest, tasks, n, prog, tasks[n]);
    TablesJoin(rest, info, n, prog);
    DirsJoin(rest, n, prog);
    StructuresJoin(rest, blocks, n, prog, blocks[n]);
    RestApart(programs, tasks, blocks, info, now, n, kernelPdpt, h);
    RestTables(rest, info, info', prog.pageDir);
  }

  /** The others share nothing with the program in slot n. */
  lemma RestApart(programs: seq<Program>, tasks: seq<TaskRecord>, blocks: seq<HeapModel.Block>, info: map<nat, Info>,
      now: Start, n: nat, kernelPdpt: nat, h: HeapModel.Shape)
    requires |tasks| == |programs| == |blocks| && n < |programs| && programs[n].inUse && info.Keys == now.keys
    requires Residents(programs, tasks, now.used, now.keys, now.spaces, kernelPdpt)
    requires BlocksOk(programs, tasks, blocks, now.live, h)
    ensures var rest := programs[n := NoProgram];
            && Owns(rest, tasks) !! Own(programs[n], tasks[n]) && Owns(rest, tasks) !! Owned(info, programs[n].pageDir)
            && Tables(rest, info) !! Own(programs[n], tasks[n])
            && Tables(rest, info) !! Owned(info, programs[n].pageDir)
            && programs[n].pageDir !in Dirs(rest) && blocks[n] !in Structures(rest, blocks)
  {
    hide Own, DataApart, Data, StackFrames;
    var rest := programs[n := NoProgram];
    assert Resident(programs[n], tasks[n], now.used, now.keys, now.spaces, kernelPdpt);
    forall i | 0 <= i < |programs| && rest[i].inUse
      ensures i != n && rest[i] == programs[i] && Own(programs[i], tasks[i]) !! Own(programs[n], tasks[n])
      ensures Own(programs[i], tasks[i]) !! now.keys && programs[i].pageDir != programs[n].pageDir
      ensures blocks[i] != blocks[n]
    {
      assert Resident(programs[i], tasks[i], now.used, now.keys, now.spaces, kernelPdpt);
    }
  }

  lemma RestTables(rest: seq<Program>, info: map<nat, Info>, info': map<nat, Info>, root: nat)
    requires SameOwners(info, info', root) && root !in Dirs(rest)
    ensures Tables(rest, info') == Tables(rest, info) && (AllLow(rest, info) ==> AllLow(rest, info'))
  {
    OwnersAreLabels(info, info', root, Dirs(rest));
    TablesKept(rest, info, info', Dirs(rest));
  }

  // ---- the books, request by request ---------------------------------------------------------------------------

  lemma StartWithin(programs: seq<Program>, tasks: seq<TaskRecord>, blocks: seq<HeapModel.Block>, info: map<nat, Info>,
      now: Start, start: Start)
    requires |tasks| == |programs| == |blocks| && Balanced(programs, tasks, blocks, info, now, start)
    ensures start.used <= now.used && start.spaces <= now.spaces && Dirs(programs) <= now.spaces
  {
    hide Owns, Tables, Dirs, Structures;
  }

  lemma LoadedBooks(programs: seq<Program>, tasks: seq<TaskRecord>, blocks: seq<HeapModel.Block>, info: map<nat, Info>,
      now: Start, start: Start, n: nat, prog: Program, t: TaskRecord, block: HeapModel.Block, info': map<nat, Info>,
      now': Start)
    requires |tasks| == |programs| == |blocks| && Balanced(programs, tasks, blocks, info, now, start)
    requires AllLow(programs, info)
    requires n < |programs| && !programs[n].inUse && prog.inUse && SameLabels(info, info', now.spaces)
    requires LowIn(info', prog.pageDir)
    requires now'.used == now.used + Own(prog, t) + Owned(info', prog.pageDir) && now.used !! Own(prog, t)
    requires now.used !! Owned(info', prog.pageDir)
    requires now'.keys == now.keys + Owned(info', prog.pageDir)
    requires now'.spaces == now.spaces + {prog.pageDir} && prog.pageDir !in now.spaces
    requires now'.live == now.live + {block} && block !in now.live
    ensures Balanced(programs[n := prog], tasks[n := t], blocks[n := block], info', now', start)
    ensures AllLow(programs[n := prog], info')
  {
    hide Balanced, Own, Owned, SameLabels, LowIn, Dirs, Tables;
    BalancedJoin(programs, tasks, blocks, info, now, start, n, prog, t, block, info', now');
    StartWithin(programs, tasks, blocks, info, now, start);
    TablesKept(programs, info, info', now.spaces);
  }

  lemma FailedBooks(programs: seq<Program>, tasks: seq<TaskRecord>, blocks: seq<HeapModel.Block>, info: map<nat, Info>,
      now: Start, start: Start, programs': seq<Program>, info': map<nat, Info>)
    requires |tasks| == |programs| == |blocks| == |programs'| && Balanced(programs, tasks, blocks, info, now, start)
    requires AllLow(programs, info)
    requires forall i :: 0 <= i < |programs| ==>
      programs'[i] == programs[i] || (!programs[i].inUse && !programs'[i].inUse)
    requires SameLabels(info, info', now.spaces)
    ensures Balanced(programs', tasks, blocks, info', now, start) && AllLow(programs', info')
  {
    hide Own, Owned, SameLabels, LowIn;
    StartWithin(programs, tasks, blocks, info, now, start);
    TablesKept(programs, info, info', now.spaces);
    assert Owns(programs', tasks) == Owns(programs, tasks);
    assert Tables(programs', info') == Tables(programs, info');
    assert Dirs(programs') == Dirs(programs);
    assert Structures(programs', blocks) == Structures(programs, blocks);
  }

  lemma GoneBooks(programs: seq<Program>, tasks: seq<TaskRecord>, blocks: seq<HeapModel.Block>, info: map<nat, Info>,
      now: Start, start: Start, n: nat, info': map<nat, Info>, now': Start, kernelPdpt: nat, h: HeapModel.Shape)
    requires |tasks| == |programs| == |blocks| && Balanced(programs, tasks, blocks, info, now, start)
    requires AllLow(programs, info)
    requires Residents(programs, tasks, now.used, now.keys, now.spaces, kernelPdpt)
    requires BlocksOk(programs, tasks, blocks, now.live, h)
    requires n < |programs| && programs[n].inUse && info.Keys == now.keys
    requires SameOwners(info, info', programs[n].pageDir)
    requires LowIn(info, programs[n].pageDir) ==>
      && now'.used == now.used - Own(programs[n], tasks[n]) - Owned(info, programs[n].pageDir)
      && now'.keys == now.keys - Owned(info, programs[n].pageDir)
    requires now'.spaces == now.spaces - {programs[n].pageDir} && now'.live == now.live - {blocks[n]}
    ensures Balanced(programs[n := NoProgram], tasks, blocks, info', now', start)
    ensures AllLow(programs[n := NoProgram], info')
    ensures start.spaces <= now'.spaces
  {
    hide Balanced, Own, Owned, SameOwners, LowIn, Residents, BlocksOk, Owns, Tables, Structures;
    BalancedLeave(programs, tasks, blocks, info, now, start, n, info', now', kernelPdpt, h);
    RestApart(programs, tasks, blocks, info, now, n, kernelPdpt, h);
    RestTables(programs[n := NoProgram], info, info', programs[n].pageDir);
    StartWithin(programs[n := NoProgram], tasks, blocks, info', now', start);
  }
}
