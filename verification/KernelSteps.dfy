/**
 The steps of the kernel state machine, and the two invariants over every run.
 */
module KernelSteps {
  import opened Seqs
  import opened SchedModel
  import opened KernelModel

  datatype Step =
    | Tick                                        // the timer increments its counter
    | Yield                                       // task_schedule, from the timer or from task_yield
    | Create                                      // task_create_ex
    | Sleep(delay: nat)                           // task_sleep up to its call of task_schedule
    | Exit                                        // task_exit, task_terminate up to task_schedule
    | Kill(id: Id)                                // task_kill
    | BeginLock(lock: nat) | TryLock              // mutex_lock: entry, one pass of its loop
    | Unlock(lock: nat)                           // mutex_unlock
    | BeginWrite(pipe: nat, data: seq<char>) | TryWrite
    | BeginRead(pipe: nat, max: nat) | TryRead

  // ---- what keeps the queue invariant --------------------------------------------------

  ghost predicate NeverWoken(woken: map<QueueId, set<Id>>, t: Id) {
    forall q :: t !in WokenFrom(woken, q)
  }

  /** Rescheduling, reaping included: FINISHED tasks are on no queue, so none that is freed is. */
  lemma QRun(tasks: map<Id, Task>, tasks': map<Id, Task>, ops: map<Id, Op>, queues: map<QueueId, seq<Id>>,
      woken: map<QueueId, set<Id>>)
    requires QInv(tasks, ops, queues, woken)
    requires forall t :: t in tasks' ==> t in tasks && Undisturbed(tasks[t], tasks'[t])
    requires forall t :: t in tasks && t !in tasks' ==> tasks[t].state == Finished
    ensures QInv(tasks', ops, queues, woken)
  {
  }

  /** A task that is not parked changes state, or a new task appears. */
  lemma QSetTask(tasks: map<Id, Task>, t: Id, task: Task, ops: map<Id, Op>, queues: map<QueueId, seq<Id>>,
      woken: map<QueueId, set<Id>>)
    requires QInv(tasks, ops, queues, woken)
    requires t in tasks ==> tasks[t].state != Blocked
    requires task.state != Blocked && (Runnable(task) || NeverWoken(woken, t))
    ensures QInv(tasks[t := task], ops, queues, woken)
  {
  }

  lemma QSetOp(tasks: map<Id, Task>, t: Id, op: Op, ops: map<Id, Op>, queues: map<QueueId, seq<Id>>,
      woken: map<QueueId, set<Id>>)
    requires QInv(tasks, ops, queues, woken)
    requires t in tasks ==> tasks[t].state != Blocked
    requires NeverWoken(woken, t)
    ensures QInv(tasks, ops[t := op], queues, woken)
  {
  }

  lemma QRetry(tasks: map<Id, Task>, t: Id, q: QueueId, ops: map<Id, Op>, queues: map<QueueId, seq<Id>>,
      woken: map<QueueId, set<Id>>)
    requires QInv(tasks, ops, queues, woken) && OpOf(ops, t) != Idle && QueueOf(OpOf(ops, t)) == q
    ensures QInv(tasks, ops, queues, woken[q := WokenFrom(woken, q) - {t}])
    ensures NeverWoken(woken[q := WokenFrom(woken, q) - {t}], t)
  {
    var woken' := woken[q := WokenFrom(woken, q) - {t}];
    forall q', t' | t' in WokenFrom(woken', q')
      ensures t' != t && t' in WokenFrom(woken, q')
    {
      assert t' in WokenFrom(woken, q');
    }
  }

  lemma QForget(tasks: map<Id, Task>, t: Id, ops: map<Id, Op>, queues: map<QueueId, seq<Id>>,
      woken: map<QueueId, set<Id>>)
    requires QInv(tasks, ops, queues, woken)
    ensures QInv(tasks, ops, queues, Forget(woken, t)) && NeverWoken(Forget(woken, t), t)
  {
    forall q
      ensures WokenFrom(Forget(woken, t), q) == WokenFrom(woken, q) - {t}
    {
    }
  }

  ghost function Forget(woken: map<QueueId, set<Id>>, t: Id): map<QueueId, set<Id>> {
    map q | q in woken :: woken[q] - {t}
  }

  /** Joining a queue: the task is on no queue yet, because only BLOCKED tasks are. */
  lemma QPark(tasks: map<Id, Task>, t: Id, q: QueueId, ops: map<Id, Op>, queues: map<QueueId, seq<Id>>,
      woken: map<QueueId, set<Id>>)
    requires QInv(tasks, ops, queues, woken) && t in tasks && tasks[t].state != Blocked
    requires Parks(OpOf(ops, t), q) && NeverWoken(woken, t)
    ensures QInv(SetState(tasks, t, Blocked), ops, queues[q := Queue(queues, q) + [t]], woken)
  {
    var tasks', queues' := SetState(tasks, t, Blocked), queues[q := Queue(queues, q) + [t]];
    assert QueueOf(OpOf(ops, t)) == q;
    assert t !in Queue(queues, q);
    DistinctConcat(Queue(queues, q), [t]);
    forall q', t' | t' in Queue(queues', q')
      ensures t' in tasks' && tasks'[t'].state == Blocked && Parks(OpOf(ops, t'), q')
    {
      assert t' in Queue(queues, q') || (t' == t && q' == q);
    }
    forall q'
      ensures Distinct(Queue(queues', q'))
    {
      assert Distinct(Queue(queues, q'));
    }
    assert Queue(queues', q)[|Queue(queues', q)| - 1] == t;
    forall t' | t' in tasks' && tasks'[t'].state == Blocked
      ensures OpOf(ops, t') != Idle && t' in Queue(queues', QueueOf(OpOf(ops, t')))
    {
      if t' != t {
        assert t' in Queue(queues, QueueOf(OpOf(ops, t')));
      }
    }
  }

  lemma QWake(tasks: map<Id, Task>, q: QueueId, ops: map<Id, Op>, queues: map<QueueId, seq<Id>>,
      woken: map<QueueId, set<Id>>)
    requires QInv(tasks, ops, queues, woken) && Queue(queues, q) != []
    ensures var t := Queue(queues, q)[0];
            && t in tasks && tasks[t].state == Blocked
            && QInv(SetState(tasks, t, Ready), ops, queues[q := Queue(queues, q)[1..]],
                 woken[q := WokenFrom(woken, q) + {t}])
  {
    var queue := Queue(queues, q);
    var t := queue[0];
    assert t in queue;
    var tasks', queues' := SetState(tasks, t, Ready), queues[q := queue[1..]];
    var woken' := woken[q := WokenFrom(woken, q) + {t}];
    assert Distinct(queue);
    forall q'
      ensures Distinct(Queue(queues', q'))
    {
      assert Distinct(Queue(queues, q'));
    }
    forall q', t' | t' in WokenFrom(woken', q')
      ensures t' in tasks' && Runnable(tasks'[t']) && Parks(OpOf(ops, t'), q')
    {
      assert t' in WokenFrom(woken, q') || (t' == t && q' == q);
    }
    forall q', t' | t' in Queue(queues', q')
      ensures t' in tasks' && tasks'[t'].state == Blocked && Parks(OpOf(ops, t'), q')
    {
      assert t' in Queue(queues, q');
      assert Parks(OpOf(ops, t), q);
    }
    forall t' | t' in tasks' && tasks'[t'].state == Blocked
      ensures OpOf(ops, t') != Idle && t' in Queue(queues', QueueOf(OpOf(ops, t')))
    {
      assert t' in Queue(queues, QueueOf(OpOf(ops, t')));
      assert queue == [t] + queue[1..];
    }
  }

  // ---- when a step may happen ------------------------------------------------------------

  /** The current task is executing its own code: not on its way into the scheduler. */
  ghost predicate Executing(k: Kernel)
    requires SchedModel.Inv(k.sched)
  {
    k.sched.tasks[Current(k)].state == Running
  }

  ghost predicate Enabled(k: Kernel, step: Step)
    requires Safe(k)
  {
    var cur := Current(k);
    var op := OpOf(k.ops, cur);
    match step
    case Tick => true
    case Yield => true
    case Create => Executing(k) && op == Idle
    case Kill(_) => Executing(k) && op == Idle
    case Sleep(_) => Executing(k) && op == Idle && cur != 0
    case Exit => Executing(k) && op == Idle && cur != 0
    case BeginLock(m) => Executing(k) && op == Idle && cur != 0 && m < |k.locks|
    case TryLock => Executing(k) && op.Locking? && op.lock < |k.locks|
    case Unlock(m) => Executing(k) && op == Idle && m < |k.locks| && (k.locks[m].locked ==> cur in k.locks[m].holders)
    case BeginWrite(p, _) => Executing(k) && op == Idle && cur != 0 && p < |k.pipes|
    case TryWrite => Executing(k) && op.Writing? && op.pipe < |k.pipes| && op.left != []
    case BeginRead(p, _) => Executing(k) && op == Idle && cur != 0 && p < |k.pipes|
    case TryRead => Executing(k) && op.Reading? && op.pipe < |k.pipes|
  }

  // ---- what each step does ----------------------------------------------------------------

  ghost predicate QK(k: Kernel) {
    QInv(k.sched.tasks, k.ops, k.queues, k.woken)
  }

  /** task_schedule as a step of the whole system. */
  ghost function Rescheduled(k: Kernel): Kernel
    requires RingInv(k.sched)
  {
    k.(sched := Schedule(k.sched))
  }

  /** enqueue, task_block: park on queue q and give up the CPU. */
  ghost function Parked(k: Kernel, q: QueueId): Kernel
    requires SchedModel.Inv(k.sched) && Current(k) != 0
  {
    SetTaskInv(k.sched, Current(k), k.sched.tasks[Current(k)].(state := Blocked));
    Rescheduled(Park(k, q))
  }

  ghost function Woke(k: Kernel, q: QueueId): Kernel
    requires QK(k)
  {
    QHead(k, q);
    WakeOne(k, q)
  }

  lemma QHead(k: Kernel, q: QueueId)
    requires QK(k)
    ensures Queue(k.queues, q) != [] ==>
      Queue(k.queues, q)[0] in k.sched.tasks && k.sched.tasks[Queue(k.queues, q)[0]].state == Blocked
  {
    if Queue(k.queues, q) != [] {
      assert Queue(k.queues, q)[0] in Queue(k.queues, q);
    }
  }

  /** task_kill: refuses task 0, tasks it cannot find, dead tasks and BLOCKED tasks. */
  ghost predicate Killable(k: Kernel, id: Id)
    requires Safe(k)
  {
    && id != 0 && Findable(k.sched, id) && id in k.sched.tasks
    && k.sched.tasks[id].state != Finished && k.sched.tasks[id].state != Blocked
  }

  ghost function Killed(k: Kernel, id: Id): Kernel
    requires Safe(k)
  {
    if Killable(k, id) then WithState(k, id, Finished).(woken := Forget(k.woken, id)) else k
  }

  ghost function TriedLock(k: Kernel): Kernel
    requires Safe(k) && Enabled(k, TryLock)
  {
    var cur := Current(k);
    var m := OpOf(k.ops, cur).lock;
    var l, k1 := k.locks[m], Retrying(k, LockQueue(m), cur);
    if !l.locked then
      WithOp(k1, cur, Idle).(locks := k.locks[m := l.(locked := true, holders := l.holders + {cur})])
    else
      Parked(k1.(locks := k.locks[m := l.(contended := l.contended + 1)]), LockQueue(m))
  }

  /** The lock after task t has called mutex_unlock. */
  ghost function Opened(l: Lock, t: Id): Lock {
    l.(locked := false, holders := l.holders - {t})
  }

  /** mutex_unlock asks nobody who holds the lock: mutual exclusion survives the call exactly when the
      lock is free or the caller is the task that holds it. */
  lemma UnlockNeedsHolder(l: Lock, t: Id)
    requires LockOk(l)
    ensures LockOk(Opened(l, t)) <==> (l.locked ==> t in l.holders)
  {
    if l.locked {
      var h :| h in l.holders;
      assert l.holders == {h};
    }
  }

  ghost function Unlocked(k: Kernel, m: nat): Kernel
    requires Safe(k) && Enabled(k, Unlock(m))
  {
    Woke(k.(locks := k.locks[m := Opened(k.locks[m], Current(k))]), LockQueue(m))
  }

  /** A byte moved through pipe p: the loop of the current task advances, the pipe becomes `pipe`,
      and the oldest waiter on the other side is woken. */
  ghost function Moved(k: Kernel, next: Op, p: nat, pipe: Pipe, q: QueueId): Kernel
    requires k.sched.ring != [] && QK(k) && NeverWoken(k.woken, Current(k)) && p < |k.pipes|
    requires Current(k) in k.sched.tasks && k.sched.tasks[Current(k)].state != Blocked
  {
    QSetOp(k.sched.tasks, Current(k), next, k.ops, k.queues, k.woken);
    Woke(WithOp(k, Current(k), next).(pipes := k.pipes[p := pipe]), q)
  }

  /** Nothing to do on pipe p: the pipe counts it, and the current task parks. */
  ghost function Stuck(k: Kernel, p: nat, pipe: Pipe, q: QueueId): Kernel
    requires SchedModel.Inv(k.sched) && Current(k) != 0 && p < |k.pipes|
  {
    Parked(k.(pipes := k.pipes[p := pipe]), q)
  }

  ghost function TriedWrite(k: Kernel): Kernel
    requires Safe(k) && Enabled(k, TryWrite)
  {
    var op, pipe := OpOf(k.ops, Current(k)), k.pipes[OpOf(k.ops, Current(k)).pipe];
    var q := WriteQueue(op.pipe);
    assert PipeOk(pipe);
    QRetry(k.sched.tasks, Current(k), q, k.ops, k.queues, k.woken);
    var k1 := Retrying(k, q, Current(k));
    if pipe.ring.count < PIPE_CAPACITY then
      Moved(k1, if |op.left| == 1 then Idle else op.(left := op.left[1..]), op.pipe, Fed(pipe, op.left[0]),
        ReadQueue(op.pipe))
    else
      Stuck(k1, op.pipe, pipe.(blockedWrites := pipe.blockedWrites + 1), q)
  }

  ghost function TriedRead(k: Kernel): Kernel
    requires Safe(k) && Enabled(k, TryRead)
  {
    var op, pipe := OpOf(k.ops, Current(k)), k.pipes[OpOf(k.ops, Current(k)).pipe];
    var q := ReadQueue(op.pipe);
    assert PipeOk(pipe);
    QRetry(k.sched.tasks, Current(k), q, k.ops, k.queues, k.woken);
    var k1 := Retrying(k, q, Current(k));
    if op.got >= op.max then WithOp(k1, Current(k), Idle)
    else if pipe.ring.count > 0 then Moved(k1, op.(got := op.got + 1), op.pipe, Drained(pipe), WriteQueue(op.pipe))
    else if op.got > 0 then WithOp(k1, Current(k), Idle)
    else Stuck(k1, op.pipe, pipe.(blockedReads := pipe.blockedReads + 1), q)
  }

  ghost function Next(k: Kernel, step: Step): Kernel
    requires Safe(k) && Enabled(k, step)
  {
    var cur := Current(k);
    match step
    case Tick => k.(sched := k.sched.(ticks := k.sched.ticks + 1))
    case Yield => Rescheduled(k)
    case Create => k.(sched := Spawn(k.sched))
    case Kill(id) => Killed(k, id)
    case Sleep(d) => k.(sched := k.sched.(tasks := k.sched.tasks[cur := Task(Sleeping, k.sched.ticks + d)]))
    case Exit => WithState(k, cur, Finished)
    case BeginLock(m) => WithOp(k, cur, Locking(m))
    case TryLock => TriedLock(k)
    case Unlock(m) => Unlocked(k, m)
    case BeginWrite(p, data) => if data == [] then k else WithOp(k, cur, Writing(p, data))
    case TryWrite => TriedWrite(k)
    case BeginRead(p, max) => WithOp(k, cur, Reading(p, 0, max))
    case TryRead => TriedRead(k)
  }
}
