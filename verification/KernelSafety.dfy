/**
 Safety over every interleaving: the scheduler invariant, mutual exclusion, queue integrity, pipe
 contents, and reaping.
 */
module KernelSafety {
  import opened Seqs
  import opened SchedModel
  import opened KernelModel
  import opened KernelSteps

  /** The parts of the invariant that scheduling does not touch. */
  ghost predicate Rest(k: Kernel) {
    && OpOf(k.ops, 0) == Idle
    && (forall m :: 0 <= m < |k.locks| ==> LockOk(k.locks[m]))
    && (forall p :: 0 <= p < |k.pipes| ==> PipeOk(k.pipes[p]))
  }

  lemma RescheduledSafe(k: Kernel)
    requires RingInv(k.sched) && QK(k) && Rest(k)
    ensures Safe(Rescheduled(k))
  {
    hide Schedule, Swept, RingInv, QInv, Undisturbed;
    ScheduleInv(k.sched);
    ScheduleFacts(k.sched);
    ReapFacts(k.sched);
    QRun(k.sched.tasks, Schedule(k.sched).tasks, k.ops, k.queues, k.woken);
  }

  lemma ParkedSafe(k: Kernel, q: QueueId)
    requires SchedModel.Inv(k.sched) && QK(k) && Rest(k) && Current(k) != 0 && Executing(k)
    requires Parks(OpOf(k.ops, Current(k)), q) && NeverWoken(k.woken, Current(k))
    ensures Safe(Parked(k, q))
  {
    hide QInv, Schedule;
    var cur := Current(k);
    SetTaskInv(k.sched, cur, k.sched.tasks[cur].(state := Blocked));
    QPark(k.sched.tasks, cur, q, k.ops, k.queues, k.woken);
    RescheduledSafe(Park(k, q));
  }

  lemma WokeSafe(k: Kernel, q: QueueId)
    requires Safe(k) && Executing(k)
    ensures Safe(Woke(k, q))
  {
    var queue := Queue(k.queues, q);
    if queue != [] {
      var t := queue[0];
      QHead(k, q);
      QWake(k.sched.tasks, q, k.ops, k.queues, k.woken);
      hide QInv;
      SetTaskInv(k.sched, t, k.sched.tasks[t].(state := Ready));
    }
  }

  /** A task outside every retry loop is nobody's woken waiter. */
  lemma IdleNeverWoken(k: Kernel, t: Id)
    requires QK(k) && OpOf(k.ops, t) == Idle
    ensures NeverWoken(k.woken, t)
  {
  }

  lemma BeginSafe(k: Kernel, op: Op)
    requires Safe(k) && Executing(k) && Current(k) != 0 && OpOf(k.ops, Current(k)) == Idle
    ensures Safe(WithOp(k, Current(k), op))
  {
    hide QInv;
    IdleNeverWoken(k, Current(k));
    QSetOp(k.sched.tasks, Current(k), op, k.ops, k.queues, k.woken);
  }

  /** Leaving the set of woken waiters, and then whatever the retry decides. */
  lemma RetrySafe(k: Kernel, q: QueueId)
    requires Safe(k) && Executing(k) && OpOf(k.ops, Current(k)) != Idle && QueueOf(OpOf(k.ops, Current(k))) == q
    ensures Safe(Retrying(k, q, Current(k))) && NeverWoken(Retrying(k, q, Current(k)).woken, Current(k))
    ensures Current(k) != 0
  {
    hide QInv;
    QRetry(k.sched.tasks, Current(k), q, k.ops, k.queues, k.woken);
  }

  lemma DoneSafe(k: Kernel, op: Op)
    requires Safe(k) && Executing(k) && Current(k) != 0 && NeverWoken(k.woken, Current(k))
    ensures Safe(WithOp(k, Current(k), op))
  {
    hide QInv;
    QSetOp(k.sched.tasks, Current(k), op, k.ops, k.queues, k.woken);
  }

  lemma LockPutSafe(k: Kernel, m: nat, l: Lock)
    requires Safe(k) && m < |k.locks| && LockOk(l)
    ensures Safe(k.(locks := k.locks[m := l]))
  {
    hide QInv, SchedModel.Inv;
  }

  lemma PipePutSafe(k: Kernel, p: nat, pipe: Pipe)
    requires Safe(k) && p < |k.pipes| && PipeOk(pipe)
    ensures Safe(k.(pipes := k.pipes[p := pipe]))
  {
    hide QInv, SchedModel.Inv;
  }

  lemma TryLockSafe(k: Kernel)
    requires Safe(k) && Enabled(k, TryLock)
    ensures Safe(TriedLock(k))
  {
    hide QInv, Schedule, PipeOk;
    var cur := Current(k);
    var m := OpOf(k.ops, cur).lock;
    var l, k1 := k.locks[m], Retrying(k, LockQueue(m), cur);
    RetrySafe(k, LockQueue(m));
    assert LockOk(l);
    if !l.locked {
      DoneSafe(k1, Idle);
      LockPutSafe(WithOp(k1, cur, Idle), m, l.(locked := true, holders := l.holders + {cur}));
    } else {
      var k2 := k1.(locks := k.locks[m := l.(contended := l.contended + 1)]);
      assert LockOk(l);
      LockPutSafe(k1, m, l.(contended := l.contended + 1));
      assert Executing(k2);
      ParkedSafe(k2, LockQueue(m));
    }
  }

  lemma UnlockSafe(k: Kernel, m: nat)
    requires Safe(k) && Enabled(k, Unlock(m))
    ensures Safe(Unlocked(k, m))
  {
    hide QInv;
    assert LockOk(k.locks[m]);
    UnlockNeedsHolder(k.locks[m], Current(k));
    var l := Opened(k.locks[m], Current(k));
    LockPutSafe(k, m, l);
    WokeSafe(k.(locks := k.locks[m := l]), LockQueue(m));
  }

  lemma PipePut(pipe: Pipe, c: char)
    requires PipeOk(pipe) && pipe.ring.count < PIPE_CAPACITY
    ensures PipeOk(Fed(pipe, c))
  {
    PutContents(pipe.ring, c);
    assert pipe.consumed + (Contents(pipe.ring) + [c]) == pipe.produced + [c];
  }

  lemma PipeTake(pipe: Pipe)
    requires PipeOk(pipe) && pipe.ring.count > 0
    ensures PipeOk(Drained(pipe))
  {
    TakeContents(pipe.ring);
    var c := pipe.ring.buffer[pipe.ring.readPos];
    assert pipe.consumed + [c] + Contents(Take(pipe.ring)) == pipe.consumed + ([c] + Contents(Take(pipe.ring)));
  }

  /** A byte moved through pipe p: the task's loop advances, the pipe changes, the other side wakes. */
  lemma MovedSafe(k: Kernel, next: Op, p: nat, pipe: Pipe, q: QueueId)
    requires Safe(k) && Executing(k) && Current(k) != 0 && NeverWoken(k.woken, Current(k))
    requires p < |k.pipes| && PipeOk(pipe)
    ensures Safe(Moved(k, next, p, pipe, q))
  {
    hide QInv;
    var k2 := WithOp(k, Current(k), next);
    DoneSafe(k, next);
    PipePutSafe(k2, p, pipe);
    var k3 := k2.(pipes := k.pipes[p := pipe]);
    assert Executing(k3);
    WokeSafe(k3, q);
  }

  /** Nothing to do: the task counts itself and parks. */
  lemma StuckSafe(k: Kernel, p: nat, pipe: Pipe, q: QueueId)
    requires Safe(k) && Executing(k) && Current(k) != 0 && NeverWoken(k.woken, Current(k))
    requires p < |k.pipes| && PipeOk(pipe) && Parks(OpOf(k.ops, Current(k)), q)
    ensures Safe(Stuck(k, p, pipe, q))
  {
    hide QInv, SchedModel.Inv, RingInv, PipeOk, LockOk, Schedule;
    PipePutSafe(k, p, pipe);
    var k2 := k.(pipes := k.pipes[p := pipe]);
    assert Executing(k2);
    ParkedSafe(k2, q);
  }

  lemma TryWriteSafe(k: Kernel)
    requires Safe(k) && Enabled(k, TryWrite)
    ensures Safe(TriedWrite(k))
  {
    hide QInv, RingOk, Fed, Moved, Stuck, LockOk;
    var cur := Current(k);
    var op := OpOf(k.ops, cur);
    var q, pipe, k1 := WriteQueue(op.pipe), k.pipes[op.pipe], Retrying(k, WriteQueue(op.pipe), cur);
    assert PipeOk(pipe) && RingOk(pipe.ring);
    CountedOk(pipe);
    RetrySafe(k, q);
    if pipe.ring.count < PIPE_CAPACITY {
      PipePut(pipe, op.left[0]);
      MovedSafe(k1, if |op.left| == 1 then Idle else op.(left := op.left[1..]), op.pipe, Fed(pipe, op.left[0]),
        ReadQueue(op.pipe));
    } else {
      StuckSafe(k1, op.pipe, pipe.(blockedWrites := pipe.blockedWrites + 1), q);
    }
  }

  /** The read loop ends: enough bytes, or some bytes and no more to be had. */
  lemma TryReadEnds(k: Kernel)
    requires Safe(k) && Enabled(k, TryRead)
    requires var op := OpOf(k.ops, Current(k)); op.got >= op.max || (op.got > 0 && k.pipes[op.pipe].ring.count == 0)
    ensures Safe(TriedRead(k))
  {
    hide QInv, Contents, Drained, Moved, Stuck, LockOk, PipeOk;
    var q := QueueOf(OpOf(k.ops, Current(k)));
    RetrySafe(k, q);
    DoneSafe(Retrying(k, q, Current(k)), Idle);
  }

  lemma TryReadTakes(k: Kernel, p: nat, got: nat, max: nat, pipe: Pipe)
    requires Safe(k) && Enabled(k, TryRead) && OpOf(k.ops, Current(k)) == Reading(p, got, max)
    requires pipe == k.pipes[p] && RingOk(pipe.ring) && got < max && pipe.ring.count > 0
    ensures Safe(TriedRead(k))
  {
    hide QInv, PipeOk, RingOk, Drained, Moved, Stuck, LockOk;
    var k1 := Retrying(k, ReadQueue(p), Current(k));
    RetrySafe(k, ReadQueue(p));
    PipeTake(pipe);
    MovedSafe(k1, Reading(p, got + 1, max), p, Drained(pipe), WriteQueue(p));
    assert TriedRead(k) == Moved(k1, Reading(p, got + 1, max), p, Drained(pipe), WriteQueue(p));
  }

  lemma TryReadParks(k: Kernel)
    requires Safe(k) && Enabled(k, TryRead)
    requires var op := OpOf(k.ops, Current(k)); op.got < op.max && op.got == 0 && k.pipes[op.pipe].ring.count == 0
    ensures Safe(TriedRead(k))
  {
    hide QInv, Contents, Drained, Moved, Stuck, LockOk, PipeOk;
    var op := OpOf(k.ops, Current(k));
    assert PipeOk(k.pipes[op.pipe]);
    RetrySafe(k, ReadQueue(op.pipe));
    var pipe := k.pipes[op.pipe];
    CountedOk(pipe);
    StuckSafe(Retrying(k, ReadQueue(op.pipe), Current(k)), op.pipe, pipe.(blockedReads := pipe.blockedReads + 1),
      ReadQueue(op.pipe));
  }

  lemma TryReadSafe(k: Kernel)
    requires Safe(k) && Enabled(k, TryRead)
    ensures Safe(TriedRead(k))
  {
    hide TriedRead, Contents;
    var op := OpOf(k.ops, Current(k));
    var count := k.pipes[op.pipe].ring.count;
    assert PipeOk(k.pipes[op.pipe]);
    if op.got >= op.max || (op.got > 0 && count == 0) {
      TryReadEnds(k);
    } else if count > 0 {
      TryReadTakes(k, op.pipe, op.got, op.max, k.pipes[op.pipe]);
    } else {
      TryReadParks(k);
    }
  }

  lemma CountedOk(pipe: Pipe)
    requires PipeOk(pipe)
    ensures PipeOk(pipe.(blockedReads := pipe.blockedReads + 1))
    ensures PipeOk(pipe.(blockedWrites := pipe.blockedWrites + 1))
  {
  }

  lemma KillSafe(k: Kernel, id: Id)
    requires Safe(k)
    ensures Safe(Killed(k, id))
  {
    if Killable(k, id) {
      SetTaskInv(k.sched, id, k.sched.tasks[id].(state := Finished));
      QForget(k.sched.tasks, id, k.ops, k.queues, k.woken);
      QSetTask(k.sched.tasks, id, k.sched.tasks[id].(state := Finished), k.ops, k.queues, Forget(k.woken, id));
      hide QInv;
    }
  }

  /** The running task marks itself SLEEPING or FINISHED. */
  lemma MarkSafe(k: Kernel, task: Task)
    requires Safe(k) && Executing(k) && Current(k) != 0 && OpOf(k.ops, Current(k)) == Idle
    requires task.state == Sleeping || task.state == Finished
    ensures Safe(k.(sched := k.sched.(tasks := k.sched.tasks[Current(k) := task])))
  {
    hide QInv;
    SetTaskInv(k.sched, Current(k), task);
    IdleNeverWoken(k, Current(k));
    QSetTask(k.sched.tasks, Current(k), task, k.ops, k.queues, k.woken);
  }

  lemma ExitSafe(k: Kernel)
    requires Safe(k) && Executing(k) && Current(k) != 0 && OpOf(k.ops, Current(k)) == Idle
    ensures Safe(WithState(k, Current(k), Finished))
  {
    MarkSafe(k, k.sched.tasks[Current(k)].(state := Finished));
  }

  /** task_exit does not look who calls it: the invariant survives exactly when it is not task 0. */
  lemma ExitNeedsAnother(k: Kernel)
    requires Safe(k) && Executing(k) && OpOf(k.ops, Current(k)) == Idle
    ensures Safe(WithState(k, Current(k), Finished)) <==> Current(k) != 0
  {
    hide QInv, PipeOk, LockOk;
    if Current(k) != 0 {
      ExitSafe(k);
    }
  }

  lemma CreateSafe(k: Kernel)
    requires Safe(k)
    ensures Safe(k.(sched := Spawn(k.sched)))
  {
    SpawnInv(k.sched);
    QSetTask(k.sched.tasks, k.sched.nextId, Task(Ready, 0), k.ops, k.queues, k.woken);
    hide QInv, SchedModel.Inv;
  }

  lemma TickSafe(k: Kernel)
    requires Safe(k)
    ensures Safe(k.(sched := k.sched.(ticks := k.sched.ticks + 1)))
  {
  }

  /** Every step keeps the invariant, task_kill included. */
  lemma StepSafe(k: Kernel, step: Step)
    requires Safe(k) && Enabled(k, step)
    ensures Safe(Next(k, step))
  {
    hide QInv, RingInv, Schedule, Rescheduled, Spawn, Killed, TriedLock, Unlocked, TriedWrite, TriedRead, PipeOk,
         LockOk;
    match step
    case Tick => TickSafe(k);
    case Yield => RescheduledSafe(k);
    case Create => CreateSafe(k);
    case Kill(id) => KillSafe(k, id);
    case Sleep(d) => MarkSafe(k, Task(Sleeping, k.sched.ticks + d));
    case Exit => ExitSafe(k);
    case BeginLock(m) => BeginSafe(k, Locking(m));
    case TryLock => TryLockSafe(k);
    case Unlock(m) => UnlockSafe(k, m);
    case BeginWrite(p, data) => BeginSafe(k, Writing(p, data));
    case TryWrite => TryWriteSafe(k);
    case BeginRead(p, max) => BeginSafe(k, Reading(p, 0, max));
    case TryRead => TryReadSafe(k);
  }

  lemma HasCurrent(k: Kernel)
    requires Safe(k)
    ensures k.sched.ring != [] && Current(k) in k.sched.tasks
  {
  }

  // ---- runs --------------------------------------------------------------------------

  /** The kernel after task_init, with freshly initialised locks and pipes. */
  ghost function Boot(locks: nat, pipes: nat): Kernel {
    Kernel(Sched([0], map[0 := Task(Running, 0)], 0, 1, 0, []), map[], map[], map[],
           seq(locks, _ => Lock(false, 0, {})),
           seq(pipes, _ => Pipe(Ring(seq(PIPE_CAPACITY, _ => '\0'), 0, 0, 0), 0, 0, [], [])))
  }

  lemma BootSafe(locks: nat, pipes: nat)
    ensures Safe(Boot(locks, pipes))
  {
    var k := Boot(locks, pipes);
    assert Members([0]) == {0};
    forall p | 0 <= p < pipes
      ensures PipeOk(k.pipes[p])
    {
      assert Contents(k.pipes[p].ring) == [];
    }
  }

  /** `steps` can be taken one after the other from k, in any interleaving the machine allows. */
  ghost predicate CanRun(k: Kernel, steps: seq<Step>)
    requires Safe(k)
    decreases |steps|
  {
    if steps == [] then true
    else Enabled(k, steps[0]) && (StepSafe(k, steps[0]); CanRun(Next(k, steps[0]), steps[1..]))
  }

  /** The state a run ends in. That it is again a safe state is what makes the run go on. */
  ghost function After(k: Kernel, steps: seq<Step>): (k': Kernel)
    requires Safe(k) && CanRun(k, steps)
    ensures Safe(k')
    decreases |steps|
  {
    if steps == [] then k
    else StepSafe(k, steps[0]); After(Next(k, steps[0]), steps[1..])
  }

  /** In every reachable state: one ring holds task 0 and current, task 0 is READY or RUNNING, only
      current can be RUNNING, and every task on any wait queue is BLOCKED and still in the ring. */
  lemma ReachableScheduler(locks: nat, pipes: nat, steps: seq<Step>)
    requires Safe(Boot(locks, pipes)) && CanRun(Boot(locks, pipes), steps)
    ensures var k := After(Boot(locks, pipes), steps);
            && 0 in k.sched.ring && Distinct(k.sched.ring)
            && 0 in k.sched.tasks && Runnable(k.sched.tasks[0])
            && (forall t :: t in k.sched.tasks && k.sched.tasks[t].state == Running ==> t == Current(k))
            && (forall q, t :: t in Queue(k.queues, q) ==> t in k.sched.ring && k.sched.tasks[t].state == Blocked)
            && Distinct(k.sched.reaped) && (forall t :: t in k.sched.reaped ==> t !in k.sched.ring)
  {
    hide After, CanRun, Distinct, PipeOk, LockOk;
    var k := After(Boot(locks, pipes), steps);
    forall q, t | t in Queue(k.queues, q)
      ensures t in k.sched.ring && k.sched.tasks[t].state == Blocked
    {
      assert t in k.sched.tasks.Keys && t in Members(k.sched.ring);
    }
    forall t | t in k.sched.reaped
      ensures t !in k.sched.ring
    {
      assert t !in k.sched.tasks.Keys;
      assert t in k.sched.ring ==> t in Members(k.sched.ring);
    }
  }

  /** In every reachable state at most one task is between mutex_lock returning and mutex_unlock, and
      only while the lock word is set; and what has come out of a pipe, followed by what is in its
      ring, is what went in, with the positions where the count puts them. */
  lemma ReachableObjects(locks: nat, pipes: nat, steps: seq<Step>, m: nat, p: nat)
    requires Safe(Boot(locks, pipes)) && CanRun(Boot(locks, pipes), steps)
    ensures var k := After(Boot(locks, pipes), steps);
            && (m < |k.locks| ==> forall a, b :: a in k.locks[m].holders && b in k.locks[m].holders ==> a == b)
            && (m < |k.locks| ==> (k.locks[m].locked <==> k.locks[m].holders != {}))
            && (p < |k.pipes| ==> RingOk(k.pipes[p].ring))
            && (p < |k.pipes| ==> k.pipes[p].consumed + Contents(k.pipes[p].ring) == k.pipes[p].produced)
  {
    var k := After(Boot(locks, pipes), steps);
    if m < |k.locks| {
      assert LockOk(k.locks[m]);
    }
    if p < |k.pipes| {
      assert PipeOk(k.pipes[p]);
    }
  }

  /** Reaping, at the moment it happens: a task that leaves the ring was FINISHED, was neither the
      current task nor task 0, was on no queue, and is gone for good. */
  lemma ReapedSafely(k: Kernel, t: Id)
    requires Safe(k) && t in k.sched.tasks && t !in Rescheduled(k).sched.tasks
    ensures k.sched.tasks[t].state == Finished && t != Current(k) && t != 0
    ensures forall q :: t !in Queue(k.queues, q)
    ensures t in Rescheduled(k).sched.reaped && t !in k.sched.reaped
  {
    hide Schedule, Swept, Undisturbed, Distinct, PipeOk, LockOk, QueuesDistinct, BlockedOk, WokenOk;
    ReapFacts(k.sched);
    ScheduleFacts(k.sched);
    assert t in Swept(k.sched).1.dead;
  }
}
