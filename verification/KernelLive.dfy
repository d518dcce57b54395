/**
 No lost wakeups, over every interleaving, and exactly which uses of task_kill lose one.
 */
module KernelLive {
  import opened Seqs
  import opened SchedModel
  import opened KernelModel
  import opened KernelSteps
  import opened KernelSafety

  /** Whoever is parked on q can do without the woken task t: nobody is parked, there is nothing to be
      had, or enough others are on their way. */
  ghost predicate Spare(k: Kernel, q: QueueId, t: Id) {
    var others := WokenFrom(k.woken, q) - {t};
    match q
    case LockQueue(m) => m < |k.locks| && Queue(k.queues, q) != [] && !k.locks[m].locked ==> others != {}
    case ReadQueue(p) => p < |k.pipes| && Queue(k.queues, q) != [] ==> k.pipes[p].ring.count <= |others|
    case WriteQueue(p) => p < |k.pipes| && Queue(k.queues, q) != [] ==>
      PIPE_CAPACITY - k.pipes[p].ring.count <= |others|
  }

  /** The step does not kill a woken task that a parked one is counting on. */
  ghost predicate Gentle(k: Kernel, step: Step)
    requires Safe(k)
  {
    step.Kill? && Killable(k, step.id) ==> forall q :: step.id in WokenFrom(k.woken, q) ==> Spare(k, q, step.id)
  }

  /** What waking the oldest waiter of q does to the queues: it moves from q to the woken of q,
      where it was not before. */
  lemma WokeFacts(k: Kernel, q: QueueId)
    requires QK(k)
    ensures Woke(k, q).locks == k.locks && Woke(k, q).pipes == k.pipes
    ensures forall q' :: q' != q ==> Queue(Woke(k, q).queues, q') == Queue(k.queues, q')
                                     && WokenFrom(Woke(k, q).woken, q') == WokenFrom(k.woken, q')
    ensures Queue(k.queues, q) == [] ==> Queue(Woke(k, q).queues, q) == []
    ensures Queue(k.queues, q) != [] ==>
      WokenFrom(Woke(k, q).woken, q) == WokenFrom(k.woken, q) + {Queue(k.queues, q)[0]}
    ensures Queue(k.queues, q) != [] ==> Queue(k.queues, q)[0] !in WokenFrom(k.woken, q)
  {
    QHead(k, q);
  }

  lemma ParkedFacts(k: Kernel, q: QueueId)
    requires SchedModel.Inv(k.sched) && Current(k) != 0
    ensures Parked(k, q).locks == k.locks && Parked(k, q).pipes == k.pipes && Parked(k, q).woken == k.woken
    ensures forall q' :: q' != q ==> Queue(Parked(k, q).queues, q') == Queue(k.queues, q')
  {
    hide Schedule;
  }

  lemma RetryFacts(k: Kernel, q: QueueId, t: Id)
    ensures forall q' ::
      WokenFrom(Retrying(k, q, t).woken, q') == if q' == q then WokenFrom(k.woken, q) - {t} else WokenFrom(k.woken, q')
  {
  }

  ghost predicate SameLocks(k: Kernel, k': Kernel, except: nat) {
    && |k.locks| == |k'.locks|
    && forall m: nat :: m < |k.locks| && m != except ==>
         && k.locks[m].locked == k'.locks[m].locked
         && Queue(k.queues, LockQueue(m)) == Queue(k'.queues, LockQueue(m))
         && WokenFrom(k.woken, LockQueue(m)) == WokenFrom(k'.woken, LockQueue(m))
  }

  ghost predicate SamePipes(k: Kernel, k': Kernel, except: nat) {
    && |k.pipes| == |k'.pipes|
    && forall p: nat :: p < |k.pipes| && p != except ==>
         && k.pipes[p].ring.count == k'.pipes[p].ring.count
         && Queue(k.queues, ReadQueue(p)) == Queue(k'.queues, ReadQueue(p))
         && Queue(k.queues, WriteQueue(p)) == Queue(k'.queues, WriteQueue(p))
         && WokenFrom(k.woken, ReadQueue(p)) == WokenFrom(k'.woken, ReadQueue(p))
         && WokenFrom(k.woken, WriteQueue(p)) == WokenFrom(k'.woken, WriteQueue(p))
  }

  /** Only lock m and pipe p may have changed. */
  lemma LiveFrame(k: Kernel, k': Kernel, m: nat, p: nat)
    requires Live(k) && SameLocks(k, k', m) && SamePipes(k, k', p)
    requires m < |k'.locks| ==> LockLive(k', m)
    requires p < |k'.pipes| ==> PipeLive(k', p)
    ensures Live(k')
  {
    forall i | 0 <= i < |k'.locks|
      ensures LockLive(k', i)
    {
      assert LockLive(k, i);
    }
    forall i | 0 <= i < |k'.pipes|
      ensures PipeLive(k', i)
    {
      assert PipeLive(k, i);
    }
  }

  lemma TryLockLive(k: Kernel, m: nat)
    requires Safe(k) && Live(k) && Enabled(k, TryLock) && OpOf(k.ops, Current(k)) == Locking(m)
    ensures Live(TriedLock(k))
  {
    hide QInv, PipeOk, Parked;
    var cur, k' := Current(k), TriedLock(k);
    var k1 := Retrying(k, LockQueue(m), cur);
    RetryFacts(k, LockQueue(m), cur);
    RetrySafe(k, LockQueue(m));
    if k.locks[m].locked {
      ParkedFacts(k1.(locks := k.locks[m := k.locks[m].(contended := k.locks[m].contended + 1)]), LockQueue(m));
    }
    assert k'.locks[m].locked;
    LiveFrame(k, k', m, |k.pipes|);
  }

  lemma UnlockLive(k: Kernel, m: nat)
    requires Safe(k) && Live(k) && Enabled(k, Unlock(m))
    ensures Live(Unlocked(k, m))
  {
    hide QInv, Woke;
    var k' := Unlocked(k, m);
    WokeFacts(k.(locks := k.locks[m := Opened(k.locks[m], Current(k))]), LockQueue(m));
    assert LockLive(k', m);
    LiveFrame(k, k', m, |k.pipes|);
  }

  /** Counting: losing one woken task and one unit of what it was woken for, or gaining one of each. */
  lemma LoseOne(s: set<Id>, t: Id)
    ensures |s - {t}| >= |s| - 1
  {
    if t in s {
      assert s == (s - {t}) + {t};
    } else {
      assert s - {t} == s;
    }
  }

  lemma GainOne(s: set<Id>, t: Id)
    requires t !in s
    ensures |s + {t}| == |s| + 1
  {
  }

  /** One byte more: a writer's retry is spent, one parked reader is on its way. */
  lemma FedLive(k: Kernel, p: nat, next: Op, c: char)
    requires Safe(k) && Live(k) && Executing(k) && Current(k) != 0 && p < |k.pipes|
    requires OpOf(k.ops, Current(k)).Writing? && OpOf(k.ops, Current(k)).pipe == p
    requires k.pipes[p].ring.count < PIPE_CAPACITY
    requires RingOk(k.pipes[p].ring) && QK(Retrying(k, WriteQueue(p), Current(k)))
    requires NeverWoken(Retrying(k, WriteQueue(p), Current(k)).woken, Current(k))
    ensures Live(Moved(Retrying(k, WriteQueue(p), Current(k)), next, p, Fed(k.pipes[p], c), ReadQueue(p)))
  {
    hide QInv, Woke, RingOk, PipeOk, LockOk, NeverWoken;
    var cur := Current(k);
    var k1 := Retrying(k, WriteQueue(p), cur);
    var k' := Moved(k1, next, p, Fed(k.pipes[p], c), ReadQueue(p));
    var k2 := WithOp(k1, cur, next).(pipes := k1.pipes[p := Fed(k.pipes[p], c)]);
    QSetOp(k1.sched.tasks, cur, next, k1.ops, k1.queues, k1.woken);
    RetryFacts(k, WriteQueue(p), cur);
    WokeFacts(k2, ReadQueue(p));
    assert PipeLive(k, p);
    LoseOne(WokenFrom(k.woken, WriteQueue(p)), cur);
    if Queue(k.queues, ReadQueue(p)) != [] {
      GainOne(WokenFrom(k.woken, ReadQueue(p)), Queue(k.queues, ReadQueue(p))[0]);
    }
    assert PipeLive(k', p);
    LiveFrame(k, k', |k.locks|, p);
  }

  lemma DrainedLive(k: Kernel, p: nat, next: Op)
    requires Safe(k) && Live(k) && Executing(k) && Current(k) != 0 && p < |k.pipes|
    requires OpOf(k.ops, Current(k)).Reading? && OpOf(k.ops, Current(k)).pipe == p && k.pipes[p].ring.count > 0
    requires RingOk(k.pipes[p].ring) && QK(Retrying(k, ReadQueue(p), Current(k)))
    requires NeverWoken(Retrying(k, ReadQueue(p), Current(k)).woken, Current(k))
    ensures Live(Moved(Retrying(k, ReadQueue(p), Current(k)), next, p, Drained(k.pipes[p]), WriteQueue(p)))
  {
    hide QInv, Woke, RingOk, PipeOk, LockOk, NeverWoken;
    var cur := Current(k);
    var k1 := Retrying(k, ReadQueue(p), cur);
    var k' := Moved(k1, next, p, Drained(k.pipes[p]), WriteQueue(p));
    var k2 := WithOp(k1, cur, next).(pipes := k1.pipes[p := Drained(k.pipes[p])]);
    QSetOp(k1.sched.tasks, cur, next, k1.ops, k1.queues, k1.woken);
    RetryFacts(k, ReadQueue(p), cur);
    WokeFacts(k2, WriteQueue(p));
    assert PipeLive(k, p);
    LoseOne(WokenFrom(k.woken, ReadQueue(p)), cur);
    if Queue(k.queues, WriteQueue(p)) != [] {
      GainOne(WokenFrom(k.woken, WriteQueue(p)), Queue(k.queues, WriteQueue(p))[0]);
    }
    assert PipeLive(k', p);
    LiveFrame(k, k', |k.locks|, p);
  }

  /** Parking on an empty or a full pipe: there is nothing a woken peer would be needed for. */
  lemma StuckLive(k: Kernel, p: nat, pipe: Pipe, q: QueueId)
    requires Safe(k) && Live(k) && Executing(k) && Current(k) != 0 && p < |k.pipes|
    requires OpOf(k.ops, Current(k)) != Idle && q == QueueOf(OpOf(k.ops, Current(k)))
    requires pipe.ring == k.pipes[p].ring
    requires (q == ReadQueue(p) && pipe.ring.count == 0) || (q == WriteQueue(p) && pipe.ring.count == PIPE_CAPACITY)
    ensures Live(Stuck(Retrying(k, q, Current(k)), p, pipe, q))
  {
    hide QInv, Parked, PipeOk, LockOk;
    var k1 := Retrying(k, q, Current(k));
    var k' := Stuck(k1, p, pipe, q);
    RetryFacts(k, q, Current(k));
    ParkedFacts(k1.(pipes := k1.pipes[p := pipe]), q);
    assert PipeLive(k, p);
    assert PipeLive(k', p);
    LiveFrame(k, k', |k.locks|, p);
  }

  lemma TryWriteLive(k: Kernel, p: nat, left: seq<char>, pipe: Pipe)
    requires Safe(k) && Live(k) && Enabled(k, TryWrite) && OpOf(k.ops, Current(k)) == Writing(p, left)
    requires pipe == k.pipes[p] && PipeOk(pipe) && RingOk(pipe.ring)
    ensures Live(TriedWrite(k))
  {
    hide QInv, RingInv, Moved, Stuck, Fed, Contents, LockOk, Live;
    var next: Op := if |left| == 1 then Idle else Writing(p, left[1..]);
    RetrySafe(k, WriteQueue(p));
    if pipe.ring.count < PIPE_CAPACITY {
      FedLive(k, p, next, left[0]);
    } else {
      StuckLive(k, p, pipe.(blockedWrites := pipe.blockedWrites + 1), WriteQueue(p));
    }
  }

  /** A reader that leaves its loop without reading was not a woken waiter, or the pipe is empty. */
  lemma ReadEndsLive(k: Kernel, p: nat, got: nat, max: nat)
    requires Safe(k) && Live(k) && Executing(k) && OpOf(k.ops, Current(k)) == Reading(p, got, max) && p < |k.pipes|
    requires got >= max || k.pipes[p].ring.count == 0
    ensures Live(WithOp(Retrying(k, ReadQueue(p), Current(k)), Current(k), Idle))
  {
    var cur := Current(k);
    var k' := WithOp(Retrying(k, ReadQueue(p), cur), cur, Idle);
    RetryFacts(k, ReadQueue(p), cur);
    assert PipeLive(k, p);
    if got >= max {
      assert cur !in WokenFrom(k.woken, ReadQueue(p));
      assert WokenFrom(k.woken, ReadQueue(p)) - {cur} == WokenFrom(k.woken, ReadQueue(p));
    }
    assert PipeLive(k', p);
    LiveFrame(k, k', |k.locks|, p);
  }

  lemma TryReadLive(k: Kernel, p: nat, got: nat, max: nat, pipe: Pipe)
    requires Safe(k) && Live(k) && Enabled(k, TryRead) && OpOf(k.ops, Current(k)) == Reading(p, got, max)
    requires pipe == k.pipes[p] && PipeOk(pipe) && RingOk(pipe.ring)
    ensures Live(TriedRead(k))
  {
    hide QInv, RingInv, Moved, Stuck, Drained, Contents, LockOk, Live;
    RetrySafe(k, ReadQueue(p));
    if got >= max || (pipe.ring.count == 0 && got > 0) {
      ReadEndsLive(k, p, got, max);
    } else if pipe.ring.count > 0 {
      DrainedLive(k, p, Reading(p, got + 1, max));
    } else {
      StuckLive(k, p, pipe.(blockedReads := pipe.blockedReads + 1), ReadQueue(p));
    }
  }

  /** Locks, pipes, queues and woken waiters as before. */
  lemma LiveSame(k: Kernel, k': Kernel)
    requires Live(k) && k.locks == k'.locks && k.pipes == k'.pipes && k.queues == k'.queues
    requires forall q :: WokenFrom(k'.woken, q) == WokenFrom(k.woken, q)
    ensures Live(k')
  {
    LiveFrame(k, k', |k.locks|, |k.pipes|);
  }

  lemma KilledWoken(k: Kernel, id: Id, q: QueueId)
    requires Safe(k) && Killable(k, id)
    ensures WokenFrom(Killed(k, id).woken, q) == WokenFrom(k.woken, q) - {id}
    ensures Queue(Killed(k, id).queues, q) == Queue(k.queues, q)
    ensures Killed(k, id).locks == k.locks && Killed(k, id).pipes == k.pipes
  {
  }

  /** k' is k with t gone from all the sets of woken tasks. */
  ghost predicate Loses(k: Kernel, k': Kernel, t: Id) {
    && k'.locks == k.locks && k'.pipes == k.pipes
    && forall q :: Queue(k'.queues, q) == Queue(k.queues, q) && WokenFrom(k'.woken, q) == WokenFrom(k.woken, q) - {t}
  }

  lemma SpareLock(k: Kernel, k': Kernel, t: Id, m: nat)
    requires Loses(k, k', t) && m < |k.locks| && LockLive(k, m)
    ensures LockLive(k', m) <==> t in WokenFrom(k.woken, LockQueue(m)) ==> Spare(k, LockQueue(m), t)
  {
    var woken := WokenFrom(k.woken, LockQueue(m));
    assert t !in woken ==> woken - {t} == woken;
  }

  lemma SparePipe(k: Kernel, k': Kernel, t: Id, p: nat)
    requires Loses(k, k', t) && p < |k.pipes| && PipeLive(k, p)
    ensures PipeLive(k', p) <==>
      && (t in WokenFrom(k.woken, ReadQueue(p)) ==> Spare(k, ReadQueue(p), t))
      && (t in WokenFrom(k.woken, WriteQueue(p)) ==> Spare(k, WriteQueue(p), t))
  {
    var readers, writers := WokenFrom(k.woken, ReadQueue(p)), WokenFrom(k.woken, WriteQueue(p));
    assert t !in readers ==> readers - {t} == readers;
    assert t !in writers ==> writers - {t} == writers;
  }

  /** The guarantee survives exactly when every queue can spare the dead task. */
  lemma SpareExact(k: Kernel, k': Kernel, t: Id)
    requires Live(k) && Loses(k, k', t)
    ensures Live(k') <==> forall q :: t in WokenFrom(k.woken, q) ==> Spare(k, q, t)
  {
    hide LockLive, PipeLive, Loses;
    assert k'.locks == k.locks && k'.pipes == k.pipes by {
      LosesObjects(k, k', t);
    }
    forall m: nat | m < |k.locks|
      ensures LockLive(k', m) <==> t in WokenFrom(k.woken, LockQueue(m)) ==> Spare(k, LockQueue(m), t)
    {
      SpareLock(k, k', t, m);
    }
    forall p: nat | p < |k.pipes|
      ensures PipeLive(k', p) <==> (t in WokenFrom(k.woken, ReadQueue(p)) ==> Spare(k, ReadQueue(p), t))
                                   && (t in WokenFrom(k.woken, WriteQueue(p)) ==> Spare(k, WriteQueue(p), t))
    {
      SparePipe(k, k', t, p);
    }
    forall q | t in WokenFrom(k.woken, q)
      ensures Live(k') ==> Spare(k, q, t)
    {
      match q
      case LockQueue(m) => assert m < |k.locks| && Live(k') ==> LockLive(k', m);
      case ReadQueue(p) => assert p < |k.pipes| && Live(k') ==> PipeLive(k', p);
      case WriteQueue(p) => assert p < |k.pipes| && Live(k') ==> PipeLive(k', p);
    }
  }

  lemma LosesObjects(k: Kernel, k': Kernel, t: Id)
    requires Loses(k, k', t)
    ensures k'.locks == k.locks && k'.pipes == k.pipes
  {
  }

  /** task_kill keeps the no-lost-wakeup invariant if and only if every queue can spare the task. */
  lemma KillLive(k: Kernel, id: Id)
    requires Safe(k) && Live(k)
    ensures Live(Killed(k, id)) <==> Gentle(k, Kill(id))
  {
    hide Live, Spare, QInv, PipeOk, LockOk, Killed, Killable;
    KilledSame(k, id);
    if Killable(k, id) {
      forall q
        ensures WokenFrom(Killed(k, id).woken, q) == WokenFrom(k.woken, q) - {id}
        ensures Queue(Killed(k, id).queues, q) == Queue(k.queues, q)
      {
        KilledWoken(k, id, q);
      }
      KilledWoken(k, id, LockQueue(0));
      SpareExact(k, Killed(k, id), id);
    }
  }

  lemma KilledSame(k: Kernel, id: Id)
    requires Safe(k)
    ensures !Killable(k, id) ==> Killed(k, id) == k
  {
  }

  /** A step keeps the no-lost-wakeup invariant if and only if it is gentle. */
  lemma StepLive(k: Kernel, step: Step)
    requires Safe(k) && Live(k) && Enabled(k, step)
    ensures Live(Next(k, step)) <==> Gentle(k, step)
  {
    hide QInv, Schedule, Spawn, Killed, Killable, TriedLock, Unlocked, TriedWrite, TriedRead, Contents, LockOk, Live,
         Spare;
    var op := OpOf(k.ops, Current(k));
    assert forall p :: 0 <= p < |k.pipes| ==> PipeOk(k.pipes[p]);
    match step
    case Kill(id) => KillLive(k, id);
    case TryLock => TryLockLive(k, op.lock);
    case Unlock(m) => UnlockLive(k, m);
    case TryWrite => TryWriteLive(k, op.pipe, op.left, k.pipes[op.pipe]);
    case TryRead => TryReadLive(k, op.pipe, op.got, op.max, k.pipes[op.pipe]);
    case _ => LiveSame(k, Next(k, step));
  }

  // ---- whole runs ------------------------------------------------------------------------

  /** A run in which task_kill never hits a woken task that somebody is counting on. */
  ghost predicate GentleRun(k: Kernel, steps: seq<Step>)
    requires Safe(k) && CanRun(k, steps)
    decreases |steps|
  {
    if steps == [] then true
    else Gentle(k, steps[0]) && (StepSafe(k, steps[0]); GentleRun(Next(k, steps[0]), steps[1..]))
  }

  /** No wakeup is lost in any state of the run. */
  ghost predicate LiveThrough(k: Kernel, steps: seq<Step>)
    requires Safe(k) && CanRun(k, steps)
    decreases |steps|
  {
    Live(k) && (steps != [] ==> (StepSafe(k, steps[0]); LiveThrough(Next(k, steps[0]), steps[1..])))
  }

  /** A run never loses a wakeup if and only if it is gentle. */
  lemma {:induction false} RunLive(k: Kernel, steps: seq<Step>)
    requires Safe(k) && Live(k) && CanRun(k, steps)
    ensures LiveThrough(k, steps) <==> GentleRun(k, steps)
    decreases |steps|
  {
    hide Safe, Live, Gentle, Enabled, Next;
    if steps != [] {
      StepSafe(k, steps[0]);
      StepLive(k, steps[0]);
      if Gentle(k, steps[0]) {
        RunLive(Next(k, steps[0]), steps[1..]);
      }
    }
  }

  lemma {:induction false} LiveAtEnd(k: Kernel, steps: seq<Step>)
    requires Safe(k) && CanRun(k, steps) && LiveThrough(k, steps)
    ensures Live(After(k, steps))
    decreases |steps|
  {
    hide Safe, Live, Enabled, Next;
    if steps != [] {
      StepSafe(k, steps[0]);
      LiveAtEnd(Next(k, steps[0]), steps[1..]);
    }
  }

  lemma BootLive(locks: nat, pipes: nat)
    ensures Live(Boot(locks, pipes))
  {
  }

  /** From boot, whatever the interleaving: a free lock with parked tasks has a woken one on its way;
      a parked reader facing data, or a parked writer facing room, has woken peers on their way, as
      many as there are bytes or free places. This holds throughout a run if and only if the run is
      gentle. */
  lemma ReachableLive(locks: nat, pipes: nat, steps: seq<Step>)
    requires Safe(Boot(locks, pipes)) && CanRun(Boot(locks, pipes), steps)
    ensures LiveThrough(Boot(locks, pipes), steps) <==> GentleRun(Boot(locks, pipes), steps)
    ensures GentleRun(Boot(locks, pipes), steps) ==> Live(After(Boot(locks, pipes), steps))
  {
    hide Safe, Live, Boot, CanRun, After, GentleRun, LiveThrough;
    BootLive(locks, pipes);
    RunLive(Boot(locks, pipes), steps);
    if GentleRun(Boot(locks, pipes), steps) {
      LiveAtEnd(Boot(locks, pipes), steps);
    }
  }
}
