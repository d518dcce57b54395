# Arthic, verified in Dafny

Arthic is a small operating system kernel for 32-bit x86, with a second, 64-bit kernel beside it. This
project models the parts of it whose correctness cannot be read off a single function and proves what
they promise, over all inputs and over whole runs.

**ArthicFS** (`FsLayout`, `FsModel`, `FsCrash`, `FsGrow`, `FsUpdate`, `FsSlots`, `FsSound`, `Fs`, `FsStrand`,
`FsRun`). The disk is a
sequence of raw 512-byte sectors. The directory, the bitmap and the indirect blocks are encoded and
decoded byte by byte. `FsRun.Run` shows that any sequence of create, append, delete, read and mount
answers as a map from names to byte strings would, and that cutting the power after any single sector
write leaves a disk that mounts as the map before or the map after the call that was interrupted. The
exact success conditions of create and append are part of the contracts. `FsRun.RunAndCount` adds the
accounting: in a run in which no write failed, the used count is what the files cost, and with all files
deleted no block is marked. Whether the disk of a crash is also safe to write to is settled exactly, sector
write by sector write, in the contracts of create, append and delete (`FsSound.CrashInDirectory`), and
`FsStrand.Stranded` is a run from format in which a crash during a delete leaves a disk that is not.

**Scheduler, mutex and pipe** (`Seqs`, `SchedModel`, `KernelModel`, `KernelSteps`, `KernelSafety`,
`KernelLive`, `KernelKill`, `KernelFair`, `KernelCalls`, `KernelSleep`, `Links`, `KernelCode`). Every section that
runs with interrupts off is one step of a state machine, and a run is any interleaving of steps. Safety (one ring, one running task,
mutual exclusion, no byte lost, nothing freed that is still queued) holds with `task_kill` included. Whole
calls are followed through every interleaving: what pipe_write was given is what its steps put in, pipe_read
and mutex_lock return with what they were asked for, task_sleep sleeps as long as it should and no longer. A
run never loses a wakeup if and only if `task_kill` never hits a woken task that a parked one is counting
on, and an explicit run from boot (`KernelKill`) does lose one. `KernelCode.Machine` is the code itself,
over next pointers, wait_next chains, heads and tails: each method takes the abstract machine by exactly one of its steps.

**Kernel heap** (`Multiples`, `HeapModel`, `Heap`). Headers in memory, linked both ways, against a list of
blocks in address order; alignment, header size and word size are parameters.

**Frames, page tables, loader** (`Bits`, `Frames`, `Pmm`, `PageTables`, `Paging64`, `AddressSpaces`,
`Paging32`, `LoaderModel`, `Programs`, `Loader`, `Boot`). The frame bitmap refines a set. Page tables of any depth
carry ghost labels (the index path that leads to a table, and the space that owns it), from which it
follows that one write changes one page of one address space. The four-level tables and the PAE tables
with several address spaces are built on that, the loader on the PAE tables, the frame allocator and the
heap together. `Loader.ProgramLoader.Serve` takes any sequence of loads, ends and switches between up to four programs
side by side: with none left running, frames, tables, spaces and live heap blocks are those of the start.

## Assumptions

- Disk reads and writes succeed, and a crash keeps a prefix of the sector writes.
- Callers of the mutex and the pipes are tasks other than task 0 (`Links.EnqueueAgain` shows what a
  task that does not block does to a queue), and a lock that is taken is unlocked only by the task that holds
  it (`KernelSteps.UnlockNeedsHolder`: exactly then mutual exclusion survives). Task 0 does not exit
  (`KernelSafety.ExitNeedsAnother`: exactly then the scheduler invariant survives). Taking the next id in
  task_create_ex is not interrupted by another task_create_ex. Fairness is for rings of at most 65 tasks, the reach of one
  scan. The tick counter does not wrap.
- Memory that holds no block header never holds the heap's magic number.
- For the loader, RAM ends at or below 0x20000000, so that the identity mapping stays below the addresses
  of programs, and no other task runs while a program is being loaded or unloaded
  (`Paging32.MapOnReturn` says what happens to the mappings otherwise).
- The physical bytes of ordinary frames, the page tables and the heap's headers are three maps. They are one
  memory in the machine; what keeps them apart is that the loader's writes through physical addresses change no
  byte of a frame that was in use, which is part of the contract of `Loader.ProgramLoader.Run`. The payloads in the
  heap's own frames, where fs_read puts the file and task_create_ex its structure, are not among those bytes.
  Where a segment makes the code write outside the frames taken for it, or remap the kernel's own pages, the model
  ends (`lost`) and promises nothing.
- Page-table entries are records (frame, present, write, user, no-execute) rather than packed words.

## Where the code and its comments disagree

The model follows the code.

- The repository's README speaks of a 32-entry directory and 12 direct blocks; the code has 64 entries and
  8 direct blocks (`include/fs.h`).
- The writes of create are ordered so that a power failure wastes at most an unreferenced block (`fs/fs.c:327-330`).
  That holds while data is written. Once the new entry is on disk and until the bitmap is, a block is referenced
  and not marked, unless the file is empty (`Fs.ArthicFS.Create`). A delete does the same if and only if memory
  names a block that the bitmap on disk does not mark, which a failed append can leave behind
  (`Fs.ArthicFS.Append`, `Fs.ArthicFS.Delete`, `FsStrand.Stranded`).
- `mark_region` is said to round outward when marking frames used; it does so when freeing as well, so
  frames that are only partly RAM become free unless both ends of the region are page boundaries
  (`Pmm.FreesOnlyWholeFrames`, both directions). A region whose rounded end wraps frees nothing
  (`Pmm.RegionWraps`, `Pmm.EntryFrees`): every entry reaching beyond 4 GB is lost (`Pmm.TopOfMemoryLost`).
- `kmalloc` promises at least the requested size; it delivers that if and only if rounding the request up
  does not wrap (`HeapModel.MallocFacts`, `Heap.HugeRequestGranted`).
- `paging_make_user` is said never to create mappings; after paging_init it makes a page beyond the end of
  memory present, on physical frame 0, if and only if the last page of memory lies in the same lowest-level
  table (`Paging64.UserBeyondMemory`, `Paging64.FrameZeroExposed`).
- `load_segment` is said to refuse anything outside the region of programs; what it accepts lies inside if
  and only if the segment's end does not wrap (`LoaderModel.AcceptedRange`,
  `LoaderModel.WrappingSegmentAccepted`). It is said to guard against malformed sizes; it writes only to the
  frames it took if and only if the bytes from the file fit them, which a size that wraps when rounded up to
  pages breaks (`LoaderModel.WritesOnlyItsFrames`, `LoaderModel.SpillingSegmentAccepted`).
- `paging_init` of the 32-bit kernel is said to identity-map all of RAM; it does so if and only if there is at most
  a gigabyte of it (`Paging32.MapsAllOfRam`).
- `paging_destroy_address_space` returns all tables of a space if and only if the space maps nothing above
  the first gigabyte (`AddressSpaces.FreedIsAll`; `Paging32.HighPageLeaks` loses frames).
- `loader_run` switches to the new space so that its mappings land there (`kernel/loader.c:293-305`). After a timer
  tick they do if and only if no program ran before it resumed; otherwise they land in the kernel's space
  (`Paging32.ActiveOnReturn`, `Paging32.MapOnReturn`).
- `task_block` calls it correct, if wasteful, that task 0 spins instead of blocking. mutex_lock and the pipes then
  enqueue task 0 again while it is still queued, which loses every waiter behind it, or the whole queue if there
  is none behind it (`Links.EnqueueAgain`).
- `task_kill` is declared to return 0 for a BLOCKED task (`include/task.h`); it returns -1
  (`KernelCode.Machine.TaskKill`). That refusal keeps the queues intact, but a pipe or a mutex still loses a
  wakeup if and only if the task killed is a woken one that a parked one is counting on
  (`KernelLive.KillLive`, `KernelKill.KillLosesWakeup`).

## Model

| member | source | states |
|---|---|---|
| `Bits.SetBitReads` | mm/pmm.c:57-70 | setting or clearing bit i of a word changes bit i and no other |
| `Bits.MarkReads` | fs/fs.c:57-68 | marking an item of a packed bitmap changes that item and no other, for any word width |
| `Bits.CountMark` | mm/pmm.c:85-97 | flipping one bit moves the number of set bits by exactly one; rewriting a bit leaves it |
| `FsLayout.StoreLoadU32` | fs/fs.c:117-149 | a 32-bit slot stored in an indirect block reads back, and every other slot is untouched |
| `FsLayout.EntryRoundTrip` | include/fs.h:64-71 | decoding the 128 bytes of an encoded directory entry gives the entry back |
| `FsLayout.EntryLayout` | include/fs.h:64-71 | name, size, used flag, the eight direct blocks and the indirect block lie at bytes 0, 32, 36, 40 and 72 of an encoded entry |
| `FsLayout.DirSectorWritten` | fs/fs.c:46-55 | writing directory sector i puts exactly entries 4i to 4i+3 on disk and leaves the others |
| `FsLayout.SuperRoundTrip` | fs/fs.c:173-207 | the superblock written by format reads back with magic, block count and data start |
| `FsModel.BlocksDistinct` | fs/fs.c:82-149 | in every state satisfying the invariant, the blocks (data and indirect) named by two different slots of any files differ, are below total_blocks and are marked used |
| `FsModel.InvReadable` | fs/fs.c:359-397 | under the invariant every in-size block of every file is a real block, so a read cannot fail part-way |
| `FsModel.ViewPut` | fs/fs.c:293-357 | changing one entry and no other file's bytes changes the map of names to contents at that one name |
| `FsModel.ViewRemove` | fs/fs.c:399-429 | blanking one entry removes exactly its name from the map |
| `FsModel.HarmlessWrite` | fs/fs.c:238-291 | writing a block that no file reads within its size keeps the invariant and every file's bytes |
| `FsModel.GrowInPlace` | fs/fs.c:238-291 | filling up the last block behind the end of a file appends exactly the chunk |
| `FsModel.GrowFresh` | fs/fs.c:238-291 | filling a newly linked block and raising the size appends exactly the chunk and keeps ownership |
| `FsModel.AttachIndirect` | fs/fs.c:117-149 | attaching a block other than number 0 as the indirect block keeps the invariant; that the block is not number 0 is proved in `Fs.ArthicFS.EnsureIndirect` |
| `FsModel.StoreDirect` | fs/fs.c:117-149 | recording a block in the entry past the end of a file changes no file's bytes, and the slot then reads as that block |
| `FsModel.StoreIndirect` | fs/fs.c:117-149 | the same through the indirect block |
| `FsModel.Shrink` | fs/fs.c:238-291 | giving up a growth restores the bytes; the extra blocks stay marked and belong to nobody |
| `FsModel.Introduce` | fs/fs.c:293-335 | a new name in a free entry adds an empty file |
| `FsModel.Released` | fs/fs.c:399-429 | clearing bits owned by a deleted file alone keeps the invariant for all others |
| `FsCrash.MixedView` | fs/fs.c:46-55 | with the directory half written the map is the old one until the sector holding the changed entry is written and the new one from then on |
| `FsCrash.BehindWrite` | fs/fs.c:238-291 | while a file grows in memory, every block write leaves what a mount would show unchanged |
| `FsCrash.CommitCrash` | fs/fs.c:46-55 | every point inside write_directory mounts as exactly the old or exactly the new map |
| `FsCrash.Settled` | fs/fs.c:46-55 | after directory and bitmap are written, disk and memory agree completely |
| `FsGrow.GrowMark` | fs/fs.c:82-91 | a block handed out by block_alloc is named by no slot of any file, in memory or on disk |
| `FsGrow.GrowIndirect` | fs/fs.c:117-149 | taking and zeroing an indirect block changes no readable byte and no mountable map |
| `FsGrow.GrowIndirectSlot` | fs/fs.c:117-149 | the same for a slot stored in an existing indirect block |
| `FsGrow.GrowFill` | fs/fs.c:238-291 | writing the data of a fresh block extends the file being written and not what a mount shows |
| `FsGrow.GrowPatch` | fs/fs.c:238-291 | the same for data added to a partly filled last block |
| `FsGrow.GrowAbandon` | fs/fs.c:238-291 | a failed write returns to the bytes it started from |
| `FsUpdate.StartCreate` | fs/fs.c:293-335 | putting the name into a free entry starts a growth from the empty file while a mount still shows the old map |
| `FsUpdate.FinishWrite` | fs/fs.c:293-357 | after a finished write memory differs from the disk's map at this file alone |
| `FsUpdate.AbandonCreate` | fs/fs.c:319-322 | a failed create leaves the map it started from |
| `FsUpdate.AbandonAppend` | fs/fs.c:337-357 | a failed append leaves the map it started from |
| `FsUpdate.FinishDelete` | fs/fs.c:399-429 | after a delete memory differs from the disk's map by exactly the deleted name |
| `FsUpdate.Remount` | fs/fs.c:153-171 | reading directory and bitmap back between updates gives the same map |
| `Fs.ArthicFS.BlockAlloc` | fs/fs.c:82-91 | returns the lowest free block and marks it, or fails exactly when no block is free |
| `Fs.ArthicFS.EnsureIndirect` | fs/fs.c:117-149 | gives the file an indirect block that is not number 0, or fails when none is free; a mount shows the same map throughout |
| `Fs.ArthicFS.BlockSet` | fs/fs.c:117-149 | links a block in as the next block of the file, across the direct/indirect boundary |
| `Fs.ArthicFS.TakeBlock` | fs/fs.c:255-270 | takes and links the next block, or fails exactly when the pool is too small, changing no readable byte |
| `Fs.ArthicFS.WriteChunk` | fs/fs.c:243-288 | one pass of write_at appends one chunk or changes nothing readable |
| `Fs.ArthicFS.WriteAt` | fs/fs.c:238-291 | appends all data, succeeding exactly when the file stays within 136 blocks and the pool holds every block needed; otherwise the file's readable bytes are as before |
| `Fs.ArthicFS.WriteDirectory` | fs/fs.c:46-55 | each of the sixteen sector writes is a crash point between the old and the new map |
| `Fs.ArthicFS.Commit` | fs/fs.c:327-335 | directory first, bitmap second: atomic on disk, and memory and disk agree afterwards |
| `Fs.ArthicFS.Publish` | fs/fs.c:324-334 | the end of create and append: the new map, its crash points, and which of them are in full order |
| `Fs.ArthicFS.FindEntry` | fs/fs.c:216-223 | the entry holding the name, or none exactly when the map does not have it |
| `Fs.ArthicFS.FindFreeEntry` | fs/fs.c:225-232 | an unused entry, or none exactly when all 64 are used |
| `Fs.ArthicFS.Create` | fs/fs.c:293-335 | success exactly when name, slot, size and free blocks allow it; then exactly this file is added; otherwise no file changes; all crash points show the old or the new map; exact accounting is kept unless write_at was called and failed. Every crash point before the directory is in full order; n directory sectors in, it is so if and only if those sectors' other files are marked on disk and either the new entry is not among them or the file is empty, so never for a non-empty file between directory and bitmap |
| `Fs.ArthicFS.Append` | fs/fs.c:337-357 | success exactly when the file exists, stays within 136 blocks and the pool suffices; then exactly the data is appended; otherwise no file changes; crash points and accounting as for create, with an append that takes no block in place of an empty file. A failed append leaves a block named in memory that is not marked on disk if and only if there was one before or it reached the ninth block and found an indirect block |
| `Fs.ArthicFS.ReleaseBlocks` | fs/fs.c:408-417 | every block of the file is cleared once, and no block of another file |
| `Fs.ArthicFS.Delete` | fs/fs.c:399-429 | succeeds exactly when the file exists; removes it and returns its blocks; crash points show the old or the new map; exact accounting is kept. n directory sectors in, the disk is in full order if and only if the other files' blocks in those sectors are marked on disk, which can be told before the call and holds throughout when nothing is left over from a failed append |
| `Fs.ArthicFS.Format` | fs/fs.c:173-207 | an empty, mounted, exactly accounted file system, if the disk is large enough |
| `Fs.ArthicFS.Mount` | fs/fs.c:153-171 | accepts exactly a disk with the magic number, shows the map that is on it, and keeps exact accounting |
| `Fs.ArthicFS.Read` | fs/fs.c:359-397 | returns the first max bytes of the file's contents, also on a disk mounted after a crash |
| `Fs.ArthicFS.Stats` | fs/fs.c:464-481 | the used count is the number of marked blocks, which with exact accounting is the sum of the files' own costs |
| `Fs.TotalCostPut` | fs/fs.c:464-481 | replacing one entry moves the total cost by the difference of the two entries' costs |
| `Fs.NoFilesNoBlocks` | fs/fs.c:399-429 | with exact accounting and no files left, no block is marked |
| `Fs.ExactAfterWrite` | fs/fs.c:238-335 | a successful write keeps the number of marked blocks equal to the sum of the files' costs |
| `Fs.ExactAfterDelete` | fs/fs.c:399-429 | so does a delete |
| `Fs.RoomIsFewFiles` | fs/fs.c:225-232 | a directory slot is free exactly when the map has fewer than 64 names |
| `FsSlots.GainsTrans` | fs/fs.c:238-291 | growth never renames a block that a file names, and every slot it adds names a block that the bitmap on disk calls free; this holds over any number of steps |
| `FsSlots.GainsShrink` | fs/fs.c:337-352 | a write that is given up leaves its file the blocks it had, and at most a new indirect block |
| `FsSlots.GainsFill` | fs/fs.c:255-286 | the step that fills a fresh block does so |
| `FsSlots.GainsIndirect` | fs/fs.c:127-141 | so does the step that takes an indirect block |
| `FsSound.CrashInData` | fs/fs.c:238-291 | a disk left by a crash while data is written mounts as the map before the call, in full order and safe to write to |
| `FsSound.CrashInDirectory` | fs/fs.c:46-55 | a disk left after n of the sixteen directory sectors is in full order if and only if its bitmap, not yet rewritten, marks every block that those n sectors name |
| `FsSound.CrashInDelete` | fs/fs.c:399-429 | for a delete: if and only if it marks every block that the entries of the other files, as far as written, name in memory before the call |
| `FsSound.WriteMarks` | fs/fs.c:238-335 | a write leaves every named block marked if and only if they were marked before and it took no block |
| `FsSound.AgreeingMarks` | fs/fs.c:334-334 | once the bitmap is written, every named block is marked on disk |
| `FsStrand.AppendThenDelete` | fs/fs.c:337-429 | an append that fails after taking an indirect block, then a delete of another file: a crash from the sector with the first file's entry up to the bitmap leaves a disk that is not in order |
| `FsStrand.Stranded` | fs/fs.c:127-134 | this happens eleven blocks from format, while the disk still mounts and reads as a map before or after the delete |
| `FsRun.Perform` | fs/fs.c:293-429 | each call is a legal step of a plain map, all sector writes inside it are crash points between its two maps, exact accounting is kept unless a write failed, and so are the marks on disk unless an append failed |
| `FsRun.Run` | fs/fs.c:153-429 | every sequence of calls behaves like a map from names to byte strings, every disk written during a call mounts as the map before or after that very call, with no failed write the accounting stays exact, and with no failed append every disk written during a delete is in full order |
| `FsRun.RunAndCount` | fs/fs.c:464-481 | after a run without a failed write, fs_stats reports as used the sum of the files' costs, and with every file deleted no block is marked |
| `FsRun.CrashStep` | fs/fs.c:46-55 | crash safety of a run extends by crash safety of one more call |
| `SchedModel.ScanRearranges` | kernel/task.c:212-234 | the scan of task_schedule only moves tasks between passed, ahead and reaped |
| `SchedModel.ScanReaps` | kernel/task.c:212-234 | it reaps FINISHED tasks only and stops at a READY one |
| `SchedModel.ScanReaches` | kernel/task.c:212-234 | a READY task within reach is never skipped |
| `SchedModel.ReapFacts` | kernel/task.c:158-173 | reaped tasks are FINISHED, not current and not task 0 |
| `SchedModel.FallbackIsReady` | kernel/task.c:236-245 | when task 0 is not current it is READY, so falling back on it is legal |
| `SchedModel.ScheduleInv` | kernel/task.c:194-293 | task_schedule keeps the ring invariant and leaves exactly one RUNNING task, current |
| `SchedModel.ScheduleFacts` | kernel/task.c:194-293 | it frees the reaped tasks and moves others only among READY, RUNNING and SLEEPING |
| `SchedModel.ScheduleSleepers` | kernel/task.c:181-192 | after task_schedule a sleeper sleeps on if and only if its time has not come or it is beyond the 65 tasks looked at, and every other one is READY or RUNNING |
| `SchedModel.SpawnInv` | kernel/task.c:145-154 | splicing in a new task keeps the ring invariant |
| `SchedModel.DistanceFalls` | kernel/task.c:181-251 | the ring distance from current to a READY task strictly falls at every call that does not run it |
| `KernelModel.NeverBothStuck` | kernel/pipe.c:67-133 | readers and writers of one pipe are never both parked with nobody on the way |
| `KernelModel.ParkedMeansNothingToDo` | kernel/pipe.c:67-133 | a parked reader faces data, or a parked writer room, only while a woken peer is on its way |
| `KernelSteps.QPark` | kernel/lock.c:61-71 | joining a queue keeps every queued task BLOCKED, in its retry loop and on one queue |
| `KernelSteps.QWake` | kernel/pipe.c:52-65 | waking the oldest waiter keeps the queue invariants |
| `KernelSteps.UnlockNeedsHolder` | kernel/lock.c:116-127 | mutual exclusion survives an unlock exactly when the lock is free or the caller holds it |
| `KernelSafety.ExitNeedsAnother` | kernel/task.c:425-450 | the invariant survives task_exit exactly when the caller is not task 0 |
| `KernelSafety.StepSafe` | kernel/task.c:194-376 | every step of every kind, task_kill included, keeps the safety invariant |
| `KernelSafety.ReachableScheduler` | kernel/task.c:64-324 | in every reachable state one ring holds task 0 and current, task 0 is READY or RUNNING, only current can be RUNNING, and every queued task is BLOCKED and in the ring |
| `KernelSafety.ReachableObjects` | kernel/lock.c:88-127 | in every reachable state at most one task is between mutex_lock returning and mutex_unlock, exactly while the word is set; what came out of a pipe followed by the ring's contents is what went in, with write_pos = (read_pos + count) mod 256 and count at most 256 |
| `KernelSafety.ReapedSafely` | kernel/task.c:158-173 | a task that leaves the ring was FINISHED, neither current nor task 0, on no queue, and is gone for good |
| `KernelLive.FedLive` | kernel/pipe.c:67-96 | one byte more: with readers parked there are still as many woken readers as bytes |
| `KernelLive.DrainedLive` | kernel/pipe.c:98-133 | one place more: with writers parked there are still as many woken writers as free places |
| `KernelLive.UnlockLive` | kernel/lock.c:116-127 | unlocking with waiters leaves a woken waiter on its way |
| `KernelLive.KillLive` | kernel/task.c:332-376 | task_kill keeps the no-lost-wakeup invariant if and only if every queue the task was woken from can spare it: nobody parked there, nothing to be had, or enough others on their way |
| `KernelLive.StepLive` | kernel/pipe.c:52-133 | a step keeps the no-lost-wakeup invariant if and only if it is not such a kill |
| `KernelLive.RunLive` | kernel/pipe.c:52-133 | no wakeup is lost in any state of a run if and only if no step of it is such a kill |
| `KernelLive.ReachableLive` | kernel/lock.c:88-127 | from boot, under any interleaving, throughout a run if and only if it has no such kill: a free lock with a queue has a woken waiter on its way; parked readers facing bytes and parked writers facing room have that many woken peers |
| `KernelCalls.WritePass` | kernel/pipe.c:68-93 | one pass of pipe_write: the bytes that entered the pipe, followed by those left, are those left before, and the call is over exactly when none is left |
| `KernelCalls.ReadPass` | kernel/pipe.c:102-130 | one pass of pipe_read: the count grows by the bytes that left the pipe, never beyond max; it ends only with max bytes, or with some and an empty pipe |
| `KernelCalls.PipeHands` | kernel/pipe.c:67-133 | bytes enter a pipe only at a step of a writer in a call on it, and leave it only at a step of a reader |
| `KernelCalls.WriteCall` | kernel/pipe.c:67-96 | over every interleaving, at every point of pipe_write the bytes its own steps put into the pipe, in order, followed by those still to go, are the bytes it was given; when it returns it has put in exactly those |
| `KernelCalls.ReadCall` | kernel/pipe.c:98-133 | likewise the bytes its own steps took out number got, at most max; pipe_read returns with max bytes, or with at least one and the pipe empty |
| `KernelCalls.LockCall` | kernel/lock.c:88-114 | mutex_lock waits for the lock it was asked for, returns holding that one, and changes the caller's hold on no other |
| `KernelCalls.FirstInFirstOut` | kernel/pipe.c:40-65 | a step leaves a wait queue as it is, appends the current task, or removes the first |
| `KernelSleep.WakingStep` | kernel/task.c:181-293 | a call of task_schedule wakes a sleeper exactly when its time has come, with at most 65 tasks |
| `KernelSleep.SleepsLongEnough` | kernel/task.c:392-407 | over every interleaving, a task that calls task_sleep(d) at tick T is SLEEPING in every state with ticks < T + d unless it is killed |
| `KernelSleep.WakesInTime` | kernel/task.c:181-192 | and with at most 65 tasks it is READY or RUNNING after the first call of task_schedule at tick T + d or later |
| `KernelFair.StepDistance` | kernel/task.c:194-251 | over all steps, a waiting task's ring distance never grows and falls at every call of task_schedule |
| `KernelFair.Fairness` | kernel/task.c:181-251 | a task that stays READY waits through fewer calls than its ring distance, so it runs within ring length minus one calls |
| `KernelKill.HandsToNext` | kernel/task.c:194-252 | with nobody asleep and the next task READY, task_schedule hands over to it and changes nothing else |
| `KernelKill.TheRun` | kernel/pipe.c:67-133 | an explicit run from boot: two readers park, a writer writes one byte and wakes the first |
| `KernelKill.KillLosesWakeup` | kernel/task.c:332-376 | after it no wakeup is lost, and killing the woken reader leaves the other parked in front of the byte with nobody on the way |
| `Links.RotateLinked` | kernel/task.c:194-293 | the chain of next pointers spells the ring from any of its tasks |
| `Links.UnlinkLinked` | kernel/task.c:158-173 | prev->next = dead->next removes exactly the dead task from the ring |
| `Links.SpliceLinked` | kernel/task.c:145-154 | the two assignments of task_create_ex insert exactly the new task after current |
| `Links.EnqueueLinked` | kernel/lock.c:61-71 | enqueue appends, empty queue or not |
| `Links.DequeueLinked` | kernel/lock.c:73-86 | dequeue removes the head and resets the tail when it was the last |
| `Links.EnqueueTwiceLoops` | kernel/lock.c:61-71 | enqueueing the task that is last on the queue once more ties it to itself: the chain is no list at all |
| `Links.EnqueueAgain` | kernel/task.c:308-324 | for a task at any place of the queue, which only task 0 can be: the chain then spells a list if and only if the task was not last, and that list ends with it, so every waiter behind it is lost |
| `KernelCode.Machine.constructor` | kernel/task.c:64-95 | task_init gives a machine that represents the initial abstract state |
| `KernelCode.Machine.WakeSleepers` | kernel/task.c:181-192 | the lap over next pointers makes READY exactly the sleepers among the first 65 tasks whose time has come, and changes no other task |
| `KernelCode.Machine.ScanRing` | kernel/task.c:212-234 | the loop over pointers with unlinking computes the abstract scan and keeps the ring linked |
| `KernelCode.Machine.TaskSchedule` | kernel/task.c:194-293 | refines the abstract task_schedule |
| `KernelCode.Machine.HandOver` | kernel/task.c:247-252 | the switch refines the abstract one |
| `KernelCode.Machine.TimerTick` | kernel/task.c:181-192 | a tick is the abstract step, and the counter grows by one |
| `KernelCode.Machine.TaskYield` | kernel/task.c:387-390 | yield is the abstract step |
| `KernelCode.Machine.TaskCreate` | kernel/task.c:102-154 | creation is the abstract step: a task with an unused id, READY, right after current in the ring, and no other task changes |
| `KernelCode.Machine.TaskSleep` | kernel/task.c:392-407 | going to sleep is the abstract step: the caller is SLEEPING until ticks + delay and no other task changes; task 0 stays as it is |
| `KernelCode.Machine.TaskExit` | kernel/task.c:425-450 | exit is the abstract step, and the machine is in order afterwards exactly when the caller was not task 0 |
| `KernelCode.Machine.TaskById` | kernel/task.c:478-490 | finds a task exactly when it is among the first 65 from task 0 |
| `KernelCode.Machine.TaskKill` | kernel/task.c:332-376 | marks FINISHED exactly the tasks that are findable, not task 0, not dead and not BLOCKED, answers -1 exactly for the BLOCKED ones and 0 for the rest, and changes no other task |
| `KernelCode.Machine.Enqueue` | kernel/pipe.c:40-50 | appends to one queue and leaves all other queues as they are |
| `KernelCode.Machine.Dequeue` | kernel/lock.c:73-86 | takes the head of one queue and leaves all other queues as they are |
| `KernelCode.Machine.ParkOn` | kernel/task.c:308-324 | joining a queue and blocking is the abstract step, rescheduling included |
| `KernelCode.Machine.WakeWaiter` | kernel/pipe.c:52-65 | wakes the oldest waiter, as the abstract step does |
| `KernelCode.Machine.MutexTryLock` | kernel/lock.c:88-114 | one pass of mutex_lock is the abstract step; it acquires exactly when the lock was free, and then the caller is the only holder |
| `KernelCode.Machine.MutexUnlock` | kernel/lock.c:116-127 | unlocking a free lock or one's own is the abstract step: the word is clear and the caller no longer holds it |
| `KernelCode.Machine.PipeTryWrite` | kernel/pipe.c:67-96 | one pass of pipe_write is the abstract step; exactly when there is room, its byte is appended to what the pipe was given and leaves what is still to go |
| `KernelCode.Machine.PipeTryRead` | kernel/pipe.c:98-133 | one pass of pipe_read is the abstract step; the byte it returns is the oldest one produced and not consumed, it is appended to what came out, and the count grows with it |
| `HeapModel.AlignUpFacts` | mm/kheap.c:60-61 | rounding up gives the next multiple, or 0 exactly when the sum wraps |
| `HeapModel.LivePayloads` | mm/kheap.c:89-155 | live payloads are aligned, inside the heap, and at least a header apart |
| `HeapModel.CarvedInv` | mm/kheap.c:119-155 | taking a block, split or not, keeps tiling, alignment and no two adjacent free blocks |
| `HeapModel.MallocFacts` | mm/kheap.c:139-155 | kmalloc fails exactly when no free block fits; otherwise adds one live block, from the lowest place that fits, that holds the request if and only if rounding did not wrap; it is the rounded request or a whole free block with less than a header and a unit to spare; a free block it leaves has at least a unit; the free bytes shrink by the block and its header; the shape is kept |
| `HeapModel.CarvedBytes` | mm/kheap.c:119-155 | the free bytes shrink by exactly the payload taken and its header, split or not |
| `HeapModel.ReleasedInv` | mm/kheap.c:158-206 | freeing merges on both sides, keeps the shape and removes exactly one live block |
| `HeapModel.FreeFacts` | mm/kheap.c:177-206 | kfree removes exactly the live block at that pointer; any other pointer changes nothing |
| `HeapModel.NothingLive` | mm/kheap.c:104-110 | a heap in shape has no live block if and only if it is the single initial block |
| `HeapModel.RunInv` | mm/kheap.c:139-206 | every run of kmalloc and kfree keeps the heap in shape |
| `HeapModel.FreeAll` | mm/kheap.c:139-206 | after any run, freeing the live blocks in any order restores the single initial block |
| `Heap.KHeap.Init` | mm/kheap.c:89-111 | one free block over the whole region, or no heap when there is no memory |
| `Heap.KHeap.Split` | mm/kheap.c:119-137 | headers after a split spell out the divided list, links both ways included |
| `Heap.KHeap.Kmalloc` | mm/kheap.c:139-155 | the walk over headers returns what first fit on the list returns and leaves its list |
| `Heap.KHeap.MergeWithNext` | mm/kheap.c:158-175 | headers after a merge spell out the merged list, and the absorbed header loses its magic number |
| `Heap.KHeap.Kfree` | mm/kheap.c:177-206 | bad, double and null frees are ignored; others release exactly that block |
| `Heap.KHeap.Release` | mm/kheap.c:198-205 | the block is free and merged with its free neighbours on both sides |
| `Heap.KHeap.Acquire` | mm/kheap.c:139-155 | a caller of kmalloc gets exactly one more live block, less than a header and a unit larger than the rounded request, and the free bytes shrink by that block; or nothing changed |
| `Heap.KHeap.Dispose` | mm/kheap.c:177-206 | freeing a live block removes exactly that one |
| `Heap.KHeap.Stats` | mm/kheap.c:208-221 | used bytes are those of live blocks with their headers, and used plus free is the whole heap |
| `HeapModel.BytesAll` | mm/kheap.c:208-221 | every byte of the heap is in a free or a used block |
| `Heap.HugeRequestGranted` | mm/kheap.c:139-155 | a request of 4294967295 bytes gets a payload of 0 bytes |
| `Frames.PerformAccounted` | mm/pmm.c:179-244 | the used frames are always those never on offer plus those handed out; 0 is returned exactly on failure |
| `Frames.RunAccounted` | mm/pmm.c:179-244 | the same over every run that frees only what it was given, and returning everything restores the initial set |
| `Pmm.HeldMark` | mm/pmm.c:57-70 | one bit written is one frame in or out of the used set, and the count follows |
| `Pmm.RegionTouches` | mm/pmm.c:80-98 | without a wrap mark_region covers exactly the frames its range touches |
| `Pmm.RegionWraps` | mm/pmm.c:80-98 | with a wrap of the rounded end it covers nothing |
| `Pmm.FreesOnlyWholeFrames` | mm/pmm.c:72-98 | freeing a region frees only whole frames if and only if both ends are page boundaries |
| `Pmm.TopOfMemoryLost` | mm/pmm.c:152-168 | an entry running up to 4 GB frees nothing |
| `Pmm.EntryFrees` | mm/pmm.c:152-168 | a memory map entry whose 64-bit end does not wrap frees exactly the frames it has a byte in if it is available and its rounded end is an address, and otherwise nothing: an entry that reaches beyond 4 GB is lost |
| `Pmm.FreeExactly` | mm/pmm.c:100-177 | a frame below total is free after pmm_init if and only if some such available entry has a byte in it and low memory, kernel and bitmap have none |
| `Pmm.UnclaimedForever` | mm/pmm.c:140-168 | a frame in which no available entry has a byte is never handed out in a run that frees only what it was given |
| `Pmm.BitmapPlace` | mm/pmm.c:129-138 | the bitmap starts at the first page boundary from the end of the kernel on and has a bit for every frame |
| `Pmm.ProtectsItself` | mm/pmm.c:170-176 | every byte of low memory, kernel and bitmap is in a frame that is used after pmm_init, whatever the map says |
| `Pmm.ProtectedForever` | mm/pmm.c:133-244 | and stays used, and is never handed out, in every run that frees only what it was given |
| `Pmm.FindHighest` | mm/pmm.c:110-127 | the highest end of an available entry |
| `Pmm.FillBitmap` | mm/pmm.c:140-150 | whatever the memory held, every frame below total is marked afterwards |
| `Pmm.FrameAllocator.FrameTest` | mm/pmm.c:67-70 | whether a frame is in use |
| `Pmm.FrameAllocator.SetFrame` | mm/pmm.c:57-65 | one frame joins or leaves the used set and used_frames stays the number of set bits |
| `Pmm.FrameAllocator.MarkRegion` | mm/pmm.c:80-98 | the used set gains or loses exactly the frames of the region below total |
| `Pmm.FrameAllocator.Init` | mm/pmm.c:100-177 | the number of frames is that below the highest end of an available entry, cut at the ceiling; and a frame is free if and only if an available entry within reach has a byte in it and low memory, kernel and bitmap have none |
| `Pmm.FrameAllocator.AllocFrame` | mm/pmm.c:179-189 | hands out the lowest free frame, or fails when there is none |
| `Pmm.FrameAllocator.AllocFrames` | mm/pmm.c:191-226 | hands out the lowest free run of the length asked for, or fails exactly when there is none |
| `Pmm.FrameAllocator.FreeFrame` | mm/pmm.c:233-244 | returns one frame; a free or foreign frame changes nothing |
| `Pmm.FrameAllocator.TakeFrame` | mm/pmm.c:179-189 | with frame 0 in use, 0 is returned exactly when no frame is free |
| `Pmm.FrameAllocator.TakeFrames` | mm/pmm.c:191-226 | the same for runs |
| `PageTables.ReachInfo` | arthic64/mm/paging.c:56-79 | a table reached by a path carries that path as its label and belongs to the space or to all |
| `PageTables.LeafWrite` | arthic64/mm/paging.c:81-96 | a write to a lowest-level table changes the one page it stands for, in the spaces that reach the table, and nothing else |
| `PageTables.FlagWrite` | arthic64/mm/paging.c:265-274 | changing permission bits of an upper entry changes no translation |
| `PageTables.HangReach` | arthic64/mm/paging.c:56-79 | after hanging a fresh table, old paths lead where they led and only the new table becomes reachable |
| `PageTables.HangLeaf` | arthic64/mm/paging.c:56-79 | and no page of any space changes its meaning |
| `PageTables.UntouchedLeaf` | mm/paging.c:378-435 | a space whose own and shared tables are untouched translates as before |
| `Paging64.PathOfUnique` | arthic64/mm/paging.c:43-53 | two addresses share their four indices exactly when they are on the same 48-bit page |
| `Paging64.EffectiveIsLeaf` | arthic64/mm/paging.c:66-76 | upper levels grant write and user and never forbid execution, so what the processor allows on a page is what its own entry says |
| `Paging64.UserKeepsProtection` | arthic64/mm/paging.c:258-278 | paging_make_user keeps every page from being both writable and executable |
| `Paging64.UserBeyondMemory` | arthic64/mm/paging.c:248-278 | after paging_init, a page beyond the end of memory that lies in the range is mapped to frame 0 if and only if the last page of memory is in the same lowest-level table, and otherwise stays unmapped |
| `Paging64.FrameZeroExposed` | arthic64/mm/paging.c:258-278 | so when memory ends inside a table, the next page given to user mode is physical frame 0, writable |
| `Paging64.Pager.NextLevel` | arthic64/mm/paging.c:56-79 | follows or makes one level without changing any translation; fails only without a free frame |
| `Paging64.Pager.Map` | arthic64/mm/paging.c:81-96 | on success exactly one page has the new entry; on failure no page changed and no frame is left |
| `Paging64.Pager.EntryFor` | arthic64/mm/paging.c:98-110 | the table holding the entry, or none exactly when a level is missing |
| `Paging64.Pager.SetFlags` | arthic64/mm/paging.c:112-120 | exactly one page keeps its frame and gets the flags, if its table exists |
| `Paging64.Pager.Unmap` | arthic64/mm/paging.c:122-130 | exactly one page becomes unmapped |
| `Paging64.Pager.Init` | arthic64/mm/paging.c:189-241 | every page below the limit is identity-mapped, code read-only and executable, all else writable and not executable; no other page is mapped; the lowest-level tables are exactly those of the mapped pages |
| `Paging64.Pager.MakeUserPage` | arthic64/mm/paging.c:265-277 | one page gets the flags, if its table exists, and no other page changes |
| `Paging64.Pager.MakeUser` | arthic64/mm/paging.c:258-278 | exactly the pages of the range with a table get the user flags, and no page becomes writable and executable |
| `Paging64.VisitedIs` | arthic64/mm/paging.c:258-278 | the pages of the range are those that start below its end and not before its first page |
| `AddressSpaces.KernelSame` | mm/paging.c:400-405 | kernel pages translate identically in every address space |
| `AddressSpaces.WhoReaches` | mm/paging.c:378-411 | a lowest-level table of a space is reached by that space alone, or by all when it is the kernel's |
| `AddressSpaces.PageWrite` | mm/paging.c:187-187 | writing one entry changes one page, in one space or for kernel pages in all |
| `AddressSpaces.Created` | mm/paging.c:378-411 | a new space maps the kernel's pages and nothing else, and the old spaces are as they were |
| `AddressSpaces.FreedIsAll` | mm/paging.c:413-435 | a destroyed space returns all its tables if and only if it maps nothing above the first gigabyte |
| `AddressSpaces.Destroyed` | mm/paging.c:413-435 | no other space notices |
| `Paging32.PathOfUnique` | mm/paging.c:14-17 | two addresses share their indices exactly when they are on the same page |
| `Paging32.KeepsRights` | mm/paging.c:169-178 | setting the user bit above other pages changes nothing the processor allows on them, as long as user pages lie under user directory entries |
| `Paging32.EffectiveUser` | mm/paging.c:169-187 | then the processor allows on a user page of the space itself exactly what the page's own entry says |
| `Paging32.MapKeepsUserUp` | mm/paging.c:162-187 | writing one page keeps every user page of every space under a user directory entry, if that page is, or is the kernel's |
| `Paging32.Pager.Map` | mm/paging.c:141-191 | on success exactly one page changed, in the active space or for kernel pages in all, with effective permissions as asked up to NX support; on failure no page of any space changed and no frame is left; new frames are tables of the active space |
| `Paging32.Pager.EntryFor` | mm/paging.c:104-128 | the table holding the entry, or none exactly when a level is missing |
| `Paging32.Pager.SetFlags` | mm/paging.c:130-139 | one page keeps its frame and gets the flags, if its table exists |
| `Paging32.Pager.Unmap` | mm/paging.c:193-201 | one page becomes unmapped |
| `Paging32.Pager.Init` | mm/paging.c:268-321 | the kernel's space identity-maps all covered memory, code and constants read-only, and nothing else |
| `Paging32.MapsAllOfRam` | mm/paging.c:280-310 | all of RAM is mapped if and only if there is at most a gigabyte of it; beyond that a gigabyte is, and within two megabytes of 4 GB nothing |
| `Paging32.Pager.BuildTables` | mm/paging.c:275-310 | the tables built are the kernel's shared tables, on distinct fresh frames |
| `Paging32.Pager.MakeUser` | mm/paging.c:355-369 | exactly the pages of the range with a table get the user flags |
| `Paging32.MakeUserReturns` | mm/paging.c:355-369 | the loop of paging_make_user ends if and only if the range is empty or stops short of the last page of the address space |
| `Paging32.VisitedIs` | mm/paging.c:355-369 | the pages of the range are those that start below its end and not before its first page |
| `Paging32.Pager.CreateSpace` | mm/paging.c:378-411 | a new space with the kernel's pages, on two fresh frames; or, exactly when fewer than two frames are free, nothing changed |
| `Paging32.Pager.DestroySpace` | mm/paging.c:413-435 | tables are returned, each once, all of them exactly when the space is below the first gigabyte; other spaces translate as before |
| `Paging32.LowIs` | mm/paging.c:413-435 | whether a space lies below the first gigabyte can be told from the places of its tables |
| `Paging32.HighPageLeaks` | mm/paging.c:413-435 | a space with one page at the top of the address space, created, used and destroyed, leaves fewer free frames than before, and four free frames are enough for that |
| `Paging32.ActiveOnReturn` | kernel/task.c:265-266 | a kernel task that had switched spaces finds its choice active on return if and only if none but kernel tasks ran meanwhile, and otherwise the kernel's space |
| `Paging32.MapOnReturn` | kernel/loader.c:302-305 | paging_map then lands in the space being built if and only if no program ran meanwhile, and otherwise in the kernel's, leaving the other without the page |
| `LoaderModel.AcceptedRange` | kernel/loader.c:116-139 | an accepted segment lies in the region of programs if and only if its end does not wrap, and then its pages cover it |
| `LoaderModel.AcceptedExactly` | kernel/loader.c:121-139 | a segment whose end does not wrap is accepted if and only if it is not empty at a page boundary, its file bytes are no more than its size and inside the file, and it lies in the region for programs |
| `LoaderModel.WrappingSegmentAccepted` | kernel/loader.c:116-139 | a header that passes every check although its end wraps and its second page would be page 0 |
| `LoaderModel.WritesOnlyItsFrames` | kernel/loader.c:141-149 | load_segment writes only to the frames it took if and only if the bytes from the file fit them |
| `LoaderModel.SpillingSegmentAccepted` | kernel/loader.c:121-149 | a header that passes every check, gets one frame, and has bytes outside it changed |
| `LoaderModel.NoneStrays` | kernel/loader.c:121-139 | no segment strays when none wraps |
| `LoaderModel.SegmentLoaded` | kernel/loader.c:145-160 | a segment copied to fresh frames and mapped shows its file bytes, then zeros, on user pages that are writable if and only if the header says w and not executable if and only if it does not say x and the processor can forbid it |
| `LoaderModel.LoadedKept` | kernel/loader.c:116-174 | mapping other pages and writing other frames leaves a loaded segment as it is |
| `LoaderModel.LoadedNext` | kernel/loader.c:307-322 | loading one more segment keeps the earlier ones that share no page with it |
| `LoaderModel.StackKept` | kernel/loader.c:343-373 | the argument page leaves the stack as it is |
| `LoaderModel.BuildsMore` | kernel/loader.c:141-165 | frames taken for bytes and for tables are exactly accounted to the program |
| `LoaderModel.RightsHold` | kernel/loader.c:74-89 | on every user page of a program the processor allows exactly what the page's own entry says |
| `LoaderModel.SegmentRights` | kernel/loader.c:74-89 | what the processor allows on a loaded byte: writing exactly with w, executing exactly with x or without NX support |
| `LoaderModel.RunProtected` | kernel/loader.c:74-89 | mapping a run of pages that are not both writable and executable keeps a space free of pages that are |
| `Programs.ResidentsJoin` | kernel/loader.c:383-396 | a program that starts shares no frame and no space with those already running |
| `Programs.ResidentsLeave` | kernel/loader.c:176-207 | a program that ends takes only its own with it |
| `Programs.BalancedJoin` | kernel/loader.c:240-396 | a start adds exactly the program's frames, tables, space and task block to what is in use |
| `Programs.BalancedLeave` | kernel/loader.c:176-217 | an end removes exactly those |
| `Programs.AllGone` | kernel/loader.c:91-114 | with the books balanced and nobody running, everything in use is what was in use at the start |
| `Loader.ProgramLoader.MapRun` | kernel/loader.c:153-160 | consecutive pages map consecutive frames, and no other page of any space changes |
| `Loader.ProgramLoader.LoadSegment` | kernel/loader.c:116-174 | unless the segment strays: a rejected or failed one leaves the program's frames as they were, an accepted one is recorded, accounted for and, if it does not wrap, loaded; no byte of a frame that was in use changes |
| `Loader.ProgramLoader.LoadAll` | kernel/loader.c:307-322 | unless one strays: segments that share no page with others are loaded at the end; other address spaces and the bytes of all frames in use before are untouched |
| `Loader.ProgramLoader.AddStack` | kernel/loader.c:333-353 | a zeroed, writable stack, non-executable where supported, is mapped and recorded; the image stays |
| `Loader.ProgramLoader.AddArgs` | kernel/loader.c:355-373 | the argument page holds the first 255 bytes of the string and a terminator and is mapped read-only; without a frame for it or its table the program goes without; image and stack stay |
| `Loader.ProgramLoader.ReturnData` | kernel/loader.c:176-194 | every recorded frame is returned exactly once |
| `Loader.ProgramLoader.Unload` | kernel/loader.c:176-207 | exactly the program's frames, page tables included, come back if it stays below the first gigabyte; other spaces are untouched |
| `Loader.ProgramLoader.Abandon` | kernel/loader.c:315-321 | giving up restores frames, tables and spaces |
| `Loader.ProgramLoader.LoadImage` | kernel/loader.c:294-322 | unless a segment strays: the new space holds the image, or, if no segment wraps, everything is as before |
| `Loader.ProgramLoader.Finish` | kernel/loader.c:326-375 | the program has its stack and, unless memory ran out, its argument page mapped; or everything is as before |
| `Loader.ProgramLoader.CreateTask` | kernel/task.c:102-122 | a task structure and a kernel stack are taken, or nothing is |
| `Loader.ProgramLoader.FreeSlot` | kernel/loader.c:244-249 | the first slot not in use |
| `Loader.ProgramLoader.Launch` | kernel/loader.c:377-396 | the program becomes a task or is unloaded; one that becomes a task has its argument page mapped, since memory was left for a stack |
| `Loader.ProgramLoader.Run` | kernel/loader.c:240-396 | unless a segment strays: no byte of a frame in use changes, the payloads in the heap's frames aside, other slots stay, running programs stay disjoint; failure leaves the live heap blocks and, if no segment wraps, frames, tables and spaces as they were; success takes exactly the program's frames and its task's, with image, stack, arguments and effective rights in place, and, with NX and no segment both writable and executable, no page of the program is both |
| `Loader.ProgramLoader.Reap` | kernel/task.c:158-173 | program_cleanup and reap return exactly the program's frames, its task's stack and its task structure, whatever other programs came and went meanwhile |
| `Loader.ProgramLoader.Serve` | kernel/loader.c:176-396 | over any sequence of loads, ends and switches of programs whose segments do not wrap, up to four side by side: once none is running, frames, tables, spaces and live heap blocks are those of the start, and neither bytes nor translations of the start changed meanwhile |
| `Boot.FramesUp` | kernel/main.c:76-76 | pmm_init establishes the frame allocator's invariant, with the kernel's tables in use |
| `Boot.HeapUp` | kernel/main.c:78-78 | kheap_init on frames taken from the allocator gives a valid heap |
| `Boot.BringUp` | kernel/main.c:76-78 | after the three initialisations the invariants of frames, page tables, heap and loader hold together, with balanced books |

## Left out

- Disk errors in ArthicFS: the code uses one value for "unset" and "read failed", so runs with errors need another specification.
- fs_list, kprintf output, the terminal, the shell and the system calls: only easy properties.
- ATA, serial, keyboard and timer drivers, GDT, IDT, TSS, canaries and assembly: hardware set-up; a context switch, a CR3 load and an invlpg are step boundaries or have no effect in the model.
- The packing of page-table entries into 64-bit words, the accessed and dirty bits, and the translation caches.
- The walk over variable-size records of the memory map: entries are a sequence.
- ELF header checks and header parsing: the loader takes the file's bytes, a verdict and a list of program headers; the entry point, read after the buffer is freed, is not part of this model.
- Concurrency inside kmalloc, the frame allocator and the loader: these are sequential, while the scheduler part covers interleavings of its own steps.
- The switch of address spaces and of the TSS inside task_schedule: the scheduler part knows no page directories.
- Loader.ProgramLoader.Serve: switches happen between loads and ends, not inside them; Paging32.MapOnReturn says what one inside a load does to the mappings.
- FIFO acquisition of the mutex: a woken waiter may lose the race and rejoin at the tail; only wake order is first in, first out.
- Loader.ProgramLoader.Run: the image, and that a failed load leaves frames, tables and spaces as they were, are for files whose segments do not wrap around the address space; for a file with a straying segment nothing is promised from the moment it strays.
- Loader.ProgramLoader.LoadSegment: after a segment has strayed nothing is promised, since page tables, heap and other programs may have been overwritten.
- Pmm.FreeExactly: not for memory map entries whose 64-bit end wraps, which no boot loader reports.
- Paging32.Pager.MakeUser: not for a range holding the last page of the address space, on which the code never returns (Paging32.MakeUserReturns).
- KernelCode.Machine.MutexTryLock: not for task 0, which task_block does not park (Links.EnqueueAgain shows what follows).
- KernelCode.Machine.PipeTryWrite: not for task 0, for the same reason.
- KernelCode.Machine.PipeTryRead: not for task 0, for the same reason.
- KernelCode.Machine.MutexUnlock: not for a taken lock that the caller does not hold, which mutex_unlock accepts; KernelSteps.UnlockNeedsHolder says that mutual exclusion is lost exactly then.
- KernelCode.Machine.TaskCreate: the ring part only; its memory side, failures included, is Loader.ProgramLoader.CreateTask, and that two tasks may read the same next id when interrupted is not modelled.
- Paging32.Pager.DestroySpace: not for the active space, which the code does not refuse and no caller passes.
- Writing to a file system mounted from a disk that, by FsSound.CrashInDirectory, is not in order: only mounting and reading are covered there.
- The 64-bit heap and frame allocator have no members of their own: they are the instances `Heap64` and `Pmm64` of the parameters.
