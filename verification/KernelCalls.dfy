/**
 Whole calls of pipe_write, pipe_read and mutex_lock, from entry to return, over every interleaving.

 A call spans many steps of its task with steps of other tasks in between. What it did is read off the
 states of the run: the bytes that appeared in a pipe's history at the task's own steps.
 */
module KernelCalls {
  import opened Seqs
  import opened SchedModel
  import opened KernelModel
  import opened KernelSteps
  import opened KernelSafety

  /** In no state of the run but the last has task t come out of its call. */
  ghost predicate InCall(k: Kernel, steps: seq<Step>, t: Id)
    requires Safe(k) && CanRun(k, steps)
    decreases |steps|
  {
    steps != [] ==>
      OpOf(k.ops, t) != Idle && (StepSafe(k, steps[0]); InCall(Next(k, steps[0]), steps[1..], t))
  }

  /** What `after` has beyond `before`. */
  function Growth(before: seq<char>, after: seq<char>): seq<char> {
    if |before| <= |after| then after[|before|..] else []
  }

  ghost function Produced(k: Kernel, p: nat): seq<char> { if p < |k.pipes| then k.pipes[p].produced else [] }

  ghost function Consumed(k: Kernel, p: nat): seq<char> { if p < |k.pipes| then k.pipes[p].consumed else [] }

  /** The bytes that entered pipe p at the steps of task t, in order. */
  ghost function Wrote(k: Kernel, steps: seq<Step>, t: Id, p: nat): seq<char>
    requires Safe(k) && CanRun(k, steps)
    decreases |steps|
  {
    if steps == [] then []
    else
      StepSafe(k, steps[0]);
      var k' := Next(k, steps[0]);
      (if Current(k) == t then Growth(Produced(k, p), Produced(k', p)) else []) + Wrote(k', steps[1..], t, p)
  }

  /** The bytes that left pipe p at the steps of task t, in order. */
  ghost function Took(k: Kernel, steps: seq<Step>, t: Id, p: nat): seq<char>
    requires Safe(k) && CanRun(k, steps)
    decreases |steps|
  {
    if steps == [] then []
    else
      StepSafe(k, steps[0]);
      var k' := Next(k, steps[0]);
      (if Current(k) == t then Growth(Consumed(k, p), Consumed(k', p)) else []) + Took(k', steps[1..], t, p)
  }

  /** What a writer has still to write, and how much a reader has read. */
  function Left(op: Op): seq<char> { if op.Writing? then op.left else [] }

  /** Nothing is in pipe p. */
  ghost predicate Empty(k: Kernel, p: nat) {
    p < |k.pipes| && |k.pipes[p].ring.buffer| == PIPE_CAPACITY && Contents(k.pipes[p].ring) == []
  }

  // ---- one step ------------------------------------------------------------------------------

  lemma WokeFields(k: Kernel, q: QueueId)
    requires QK(k)
    ensures Woke(k, q).ops == k.ops && Woke(k, q).pipes == k.pipes && Woke(k, q).locks == k.locks
    ensures Woke(k, q).queues == k.queues
      || (Queue(k.queues, q) != [] && Woke(k, q).queues == k.queues[q := Queue(k.queues, q)[1..]])
  {
    hide QInv;
    QHead(k, q);
  }

  lemma MovedFields(k: Kernel, next: Op, p: nat, pipe: Pipe, q: QueueId)
    requires k.sched.ring != [] && QK(k) && NeverWoken(k.woken, Current(k)) && p < |k.pipes|
    requires Current(k) in k.sched.tasks && k.sched.tasks[Current(k)].state != Blocked
    ensures var k' := Moved(k, next, p, pipe, q);
            k'.ops == k.ops[Current(k) := next] && k'.pipes == k.pipes[p := pipe] && k'.locks == k.locks
  {
    hide QInv, Woke;
    QSetOp(k.sched.tasks, Current(k), next, k.ops, k.queues, k.woken);
    WokeFields(WithOp(k, Current(k), next).(pipes := k.pipes[p := pipe]), q);
  }

  lemma StuckFields(k: Kernel, p: nat, pipe: Pipe, q: QueueId)
    requires SchedModel.Inv(k.sched) && Current(k) != 0 && p < |k.pipes|
    ensures var k' := Stuck(k, p, pipe, q);
            k'.ops == k.ops && k'.pipes == k.pipes[p := pipe] && k'.locks == k.locks
  {
    hide Schedule;
  }

  /** What a pass of pipe_write leaves, locks and the calls of other tasks aside. */
  lemma WriteFields(k: Kernel)
    requires Safe(k) && Enabled(k, TryWrite)
    ensures var op, p, k' := OpOf(k.ops, Current(k)), OpOf(k.ops, Current(k)).pipe, Next(k, TryWrite);
            && k'.locks == k.locks && RingOk(k.pipes[p].ring)
            && k'.pipes == k.pipes[p := k'.pipes[p]]
            && k'.ops == k.ops[Current(k) := OpOf(k'.ops, Current(k))]
            && (if k.pipes[p].ring.count < PIPE_CAPACITY then
                  && k'.pipes[p].produced == k.pipes[p].produced + [op.left[0]]
                  && OpOf(k'.ops, Current(k)) == if |op.left| == 1 then Idle else Writing(p, op.left[1..])
                else k'.pipes[p].produced == k.pipes[p].produced && k'.ops == k.ops)
            && k'.pipes[p].consumed == k.pipes[p].consumed
  {
    hide QInv, LockOk, RingInv, Moved, Stuck, Contents;
    HasCurrent(k);
    var op, q := OpOf(k.ops, Current(k)), QueueOf(OpOf(k.ops, Current(k)));
    var pipe, k1 := k.pipes[op.pipe], Retrying(k, q, Current(k));
    assert PipeOk(pipe);
    QRetry(k.sched.tasks, Current(k), q, k.ops, k.queues, k.woken);
    if pipe.ring.count < PIPE_CAPACITY {
      MovedFields(k1, if |op.left| == 1 then Idle else op.(left := op.left[1..]), op.pipe, Fed(pipe, op.left[0]),
        ReadQueue(op.pipe));
    } else {
      StuckFields(k1, op.pipe, pipe.(blockedWrites := pipe.blockedWrites + 1), q);
    }
  }

  /** And a pass of pipe_read. */
  lemma ReadFields(k: Kernel)
    requires Safe(k) && Enabled(k, TryRead)
    ensures var op, p, k' := OpOf(k.ops, Current(k)), OpOf(k.ops, Current(k)).pipe, Next(k, TryRead);
            && k'.locks == k.locks && RingOk(k.pipes[p].ring)
            && k'.pipes == k.pipes[p := k'.pipes[p]]
            && k'.ops == k.ops[Current(k) := OpOf(k'.ops, Current(k))]
            && (if op.got >= op.max || (op.got > 0 && k.pipes[p].ring.count == 0) then
                  OpOf(k'.ops, Current(k)) == Idle && k'.pipes == k.pipes
                else if k.pipes[p].ring.count > 0 then
                  && k'.pipes[p].consumed == k.pipes[p].consumed + [k.pipes[p].ring.buffer[k.pipes[p].ring.readPos]]
                  && OpOf(k'.ops, Current(k)) == Reading(p, op.got + 1, op.max)
                else k'.pipes[p].consumed == k.pipes[p].consumed && k'.ops == k.ops)
            && k'.pipes[p].produced == k.pipes[p].produced
  {
    hide QInv, LockOk, RingInv, Moved, Stuck, Contents;
    HasCurrent(k);
    var op, q := OpOf(k.ops, Current(k)), QueueOf(OpOf(k.ops, Current(k)));
    var pipe, k1 := k.pipes[op.pipe], Retrying(k, q, Current(k));
    assert PipeOk(pipe);
    QRetry(k.sched.tasks, Current(k), q, k.ops, k.queues, k.woken);
    if op.got >= op.max || (op.got > 0 && pipe.ring.count == 0) {
    } else if pipe.ring.count > 0 {
      MovedFields(k1, op.(got := op.got + 1), op.pipe, Drained(pipe), WriteQueue(op.pipe));
    } else {
      StuckFields(k1, op.pipe, pipe.(blockedReads := pipe.blockedReads + 1), q);
    }
  }

  /** And a pass of mutex_lock. */
  lemma LockFields(k: Kernel)
    requires Safe(k) && Enabled(k, TryLock)
    ensures var op, m, k' := OpOf(k.ops, Current(k)), OpOf(k.ops, Current(k)).lock, Next(k, TryLock);
            && k'.pipes == k.pipes && LockOk(k.locks[m]) && k'.locks == k.locks[m := k'.locks[m]]
            && k'.ops == k.ops[Current(k) := OpOf(k'.ops, Current(k))]
            && (if k.locks[m].locked then k'.locks[m].holders == k.locks[m].holders && k'.ops == k.ops
                else k'.locks[m].holders == k.locks[m].holders + {Current(k)} && OpOf(k'.ops, Current(k)) == Idle)
  {
    hide QInv, PipeOk, RingInv, Schedule;
    HasCurrent(k);
    assert LockOk(k.locks[OpOf(k.ops, Current(k)).lock]);
  }

  lemma UnlockFields(k: Kernel, m: nat)
    requires Safe(k) && Enabled(k, Unlock(m))
    ensures var k' := Next(k, Unlock(m));
            k'.ops == k.ops && k'.pipes == k.pipes && k'.locks == k.locks[m := Opened(k.locks[m], Current(k))]
  {
    hide QInv, LockOk, PipeOk, RingInv, Woke;
    HasCurrent(k);
    WokeFields(k.(locks := k.locks[m := Opened(k.locks[m], Current(k))]), LockQueue(m));
  }

  /** Everything a step may change of calls, pipes and locks, apart from the passes of the three loops. */
  lemma OtherFields(k: Kernel, step: Step)
    requires Safe(k) && Enabled(k, step) && step != TryLock && step != TryWrite && step != TryRead
    ensures var k' := Next(k, step);
            && (k'.ops == k.ops[Current(k) := OpOf(k'.ops, Current(k))] || k'.ops == k.ops)
            && k'.pipes == k.pipes && (!step.Unlock? ==> k'.locks == k.locks)
  {
    hide QInv, LockOk, PipeOk, RingInv, Schedule, Unlocked;
    if step.Unlock? {
      UnlockFields(k, step.lock);
    }
  }

  /** Only a writer in a call on pipe p puts bytes into it, and only a reader in a call on it takes bytes out. */
  lemma PipeHands(k: Kernel, step: Step, p: nat)
    requires Safe(k) && Enabled(k, step) && p < |k.pipes|
    ensures var k', op := Next(k, step), OpOf(k.ops, Current(k));
            && |k'.pipes| == |k.pipes|
            && (k'.pipes[p].produced != k.pipes[p].produced ==> op.Writing? && op.pipe == p && step == TryWrite)
            && (k'.pipes[p].consumed != k.pipes[p].consumed ==> op.Reading? && op.pipe == p && step == TryRead)
  {
    hide QInv, PipeOk, LockOk, RingOk, RingInv, Next;
    if step == TryWrite {
      WriteFields(k);
    } else if step == TryRead {
      ReadFields(k);
    } else if step == TryLock {
      LockFields(k);
    } else {
      OtherFields(k, step);
    }
  }

  /** A step of another task leaves the call of t where it is. */
  lemma OthersStep(k: Kernel, step: Step, t: Id)
    requires Safe(k) && Enabled(k, step) && Current(k) != t
    ensures OpOf(Next(k, step).ops, t) == OpOf(k.ops, t) && |Next(k, step).pipes| == |k.pipes|
  {
    hide QInv, PipeOk, LockOk, RingOk, RingInv, Next, Parked;
    if step == TryWrite {
      WriteFields(k);
    } else if step == TryRead {
      ReadFields(k);
    } else if step == TryLock {
      LockFields(k);
    } else {
      OtherFields(k, step);
    }
  }

  lemma SameOps(k: Kernel, step: Step)
    requires Safe(k) && Enabled(k, step) && OpOf(k.ops, Current(k)) != Idle && step != TryLock && step != TryWrite
    requires step != TryRead
    ensures Next(k, step).ops == k.ops && !step.Unlock?
  {
    hide QInv, PipeOk, LockOk, RingInv, Schedule;
  }

  /** A task inside a call is interrupted, or takes the next pass of its loop. */
  lemma OwnStep(k: Kernel, step: Step)
    requires Safe(k) && Enabled(k, step) && OpOf(k.ops, Current(k)) != Idle && step != TryLock && step != TryWrite
    requires step != TryRead
    ensures Next(k, step).ops == k.ops && Next(k, step).pipes == k.pipes && Next(k, step).locks == k.locks
  {
    hide QInv, PipeOk, LockOk, RingOk, RingInv, Next;
    OtherFields(k, step);
    SameOps(k, step);
  }

  /** One pass of pipe_write: the bytes that went in, followed by those left, are those left before. */
  lemma WritePass(k: Kernel)
    requires Safe(k) && Enabled(k, TryWrite)
    ensures var t, k' := Current(k), Next(k, TryWrite);
            var p := OpOf(k.ops, t).pipe;
            && Produced(k, p) <= Produced(k', p) && |k'.pipes| == |k.pipes|
            && Growth(Produced(k, p), Produced(k', p)) + Left(OpOf(k'.ops, t)) == Left(OpOf(k.ops, t))
            && (OpOf(k'.ops, t) == Idle || (OpOf(k'.ops, t).Writing? && OpOf(k'.ops, t).pipe == p))
            && (OpOf(k'.ops, t) == Idle <==> Left(OpOf(k'.ops, t)) == [])
  {
    hide QInv, PipeOk, LockOk, RingOk, RingInv, Next;
    WriteFields(k);
  }

  /** One pass of pipe_read: at most one byte comes out, `got` counts it, and the loop ends with `max` bytes or with
      some bytes and an empty pipe. */
  lemma ReadPass(k: Kernel)
    requires Safe(k) && Enabled(k, TryRead)
    ensures var t, k' := Current(k), Next(k, TryRead);
            var p, op, op' := OpOf(k.ops, t).pipe, OpOf(k.ops, t), OpOf(k'.ops, t);
            var out := Growth(Consumed(k, p), Consumed(k', p));
            && Consumed(k, p) <= Consumed(k', p) && |k'.pipes| == |k.pipes|
            && (op'.Reading? ==> op'.pipe == p && op'.max == op.max && op'.got == op.got + |out|)
            && (op'.Reading? && op.got <= op.max ==> op'.got <= op.max)
            && (!op'.Reading? ==> op' == Idle && out == [])
            && (op' == Idle ==> op.got >= op.max || (op.got > 0 && Empty(k', p)))
  {
    hide QInv, PipeOk, LockOk, RingInv, Next;
    ReadFields(k);
  }

  /** One pass of mutex_lock: still waiting for the same lock, or holding that one. */
  lemma LockPass(k: Kernel)
    requires Safe(k) && Enabled(k, TryLock)
    ensures var t, k' := Current(k), Next(k, TryLock);
            var m := OpOf(k.ops, t).lock;
            && |k'.locks| == |k.locks|
            && (OpOf(k'.ops, t) == Locking(m) || (OpOf(k'.ops, t) == Idle && t in k'.locks[m].holders))
            && (OpOf(k'.ops, t) == Idle ==> k.locks[m].holders == {})
            && forall i :: 0 <= i < |k.locks| && (i != m || OpOf(k'.ops, t) != Idle) ==>
                 k'.locks[i].holders == k.locks[i].holders
  {
    hide QInv, PipeOk, RingInv, Next;
    LockFields(k);
  }

  /** No other task takes a lock for t, or takes one away from it. */
  lemma OthersLocks(k: Kernel, step: Step, t: Id, m: nat)
    requires Safe(k) && Enabled(k, step) && Current(k) != t && m < |k.locks|
    ensures |Next(k, step).locks| == |k.locks|
    ensures t in Next(k, step).locks[m].holders <==> t in k.locks[m].holders
  {
    hide QInv, PipeOk, LockOk, RingOk, RingInv, Next;
    if step == TryWrite {
      WriteFields(k);
    } else if step == TryRead {
      ReadFields(k);
    } else if step == TryLock {
      LockFields(k);
    } else {
      OtherFields(k, step);
      if step.Unlock? {
        UnlockFields(k, step.lock);
      }
    }
  }

  // ---- calls -----------------------------------------------------------------------------------

  /** What one step of the system does to a writer in its call. */
  lemma WriterStep(k: Kernel, step: Step, t: Id, p: nat, left: seq<char>)
    requires Safe(k) && Enabled(k, step) && OpOf(k.ops, t) == Writing(p, left) && left != []
    ensures var k' := Next(k, step);
            var op' := OpOf(k'.ops, t);
            && (if Current(k) == t then Growth(Produced(k, p), Produced(k', p)) else []) + Left(op') == left
            && (op' == Idle || (op'.Writing? && op'.pipe == p && op'.left != []))
  {
    hide Safe, Next, Growth;
    HasCurrent(k);
    if Current(k) != t {
      OthersStep(k, step, t);
    } else if step == TryWrite {
      WritePass(k);
    } else {
      assert step != TryLock && step != TryRead;
      OwnStep(k, step);
      NoGrowth(Produced(k, p));
    }
  }

  lemma NoGrowth(s: seq<char>)
    ensures Growth(s, s) == []
  {
  }

  lemma Glue(a: seq<char>, b: seq<char>, c: seq<char>)
    ensures a + (b + c) == (a + b) + c
  {
  }

  lemma {:induction false} WriterRun(k: Kernel, steps: seq<Step>, t: Id, p: nat, left: seq<char>)
    requires Safe(k) && CanRun(k, steps) && InCall(k, steps, t)
    requires if left == [] then OpOf(k.ops, t) == Idle else OpOf(k.ops, t) == Writing(p, left)
    ensures var op' := OpOf(After(k, steps).ops, t);
            && Wrote(k, steps, t, p) + Left(op') == left
            && (op' == Idle || (op'.Writing? && op'.pipe == p && op'.left != []))
    decreases |steps|
  {
    hide Safe, Next, Growth, Enabled;
    HasCurrent(k);
    if steps != [] {
      StepSafe(k, steps[0]);
      WriterStep(k, steps[0], t, p, left);
      var k' := Next(k, steps[0]);
      var put := if Current(k) == t then Growth(Produced(k, p), Produced(k', p)) else [];
      var left' := Left(OpOf(k'.ops, t));
      WriterRun(k', steps[1..], t, p, left');
      Glue(put, Wrote(k', steps[1..], t, p), Left(OpOf(After(k, steps).ops, t)));
    }
  }

  /** pipe_write: at every point of the call the bytes it has put into the pipe, followed by those it has not, are
      the bytes it was given; when it returns it has put in exactly those. */
  lemma WriteCall(k: Kernel, p: nat, data: seq<char>, steps: seq<Step>)
    requires Safe(k) && Enabled(k, BeginWrite(p, data)) && Safe(Next(k, BeginWrite(p, data)))
    requires CanRun(Next(k, BeginWrite(p, data)), steps)
    requires InCall(Next(k, BeginWrite(p, data)), steps, Current(k))
    ensures var k1, t := Next(k, BeginWrite(p, data)), Current(k);
            var op := OpOf(After(k1, steps).ops, t);
            && Wrote(k1, steps, t, p) + Left(op) == data
            && (op == Idle ==> Wrote(k1, steps, t, p) == data)
            && (op != Idle ==> op.Writing? && op.pipe == p)
            && Produced(k1, p) == Produced(k, p)
  {
    hide Safe, CanRun, InCall, After, Wrote;
    HasCurrent(k);
    WriterRun(Next(k, BeginWrite(p, data)), steps, Current(k), p, data);
  }

  lemma ReaderStep(k: Kernel, step: Step, t: Id, p: nat, got: nat, max: nat)
    requires Safe(k) && Enabled(k, step) && OpOf(k.ops, t) == Reading(p, got, max) && got <= max && p < |k.pipes|
    ensures var k' := Next(k, step);
            var op' := OpOf(k'.ops, t);
            var out := if Current(k) == t then Growth(Consumed(k, p), Consumed(k', p)) else [];
            && |k'.pipes| == |k.pipes|
            && (op' != Idle ==> op' == Reading(p, got + |out|, max) && got + |out| <= max)
            && (op' == Idle ==> out == [] && Current(k) == t && (got == max || (got > 0 && Empty(k', p))))
  {
    hide Safe, Next, Growth;
    HasCurrent(k);
    if Current(k) != t {
      OthersStep(k, step, t);
    } else if step == TryRead {
      ReadPass(k);
    } else {
      assert step != TryLock && step != TryWrite;
      OwnStep(k, step);
      NoGrowth(Consumed(k, p));
    }
  }

  lemma {:induction false} ReaderRun(k: Kernel, steps: seq<Step>, t: Id, p: nat, got: nat, max: nat)
    requires Safe(k) && CanRun(k, steps) && InCall(k, steps, t)
    requires OpOf(k.ops, t) == Reading(p, got, max) && got <= max && p < |k.pipes|
    ensures var op', n := OpOf(After(k, steps).ops, t), got + |Took(k, steps, t, p)|;
            && n <= max
            && (op' != Idle ==> op' == Reading(p, n, max))
            && (op' == Idle ==> n == max || (n > 0 && Empty(After(k, steps), p)))
    decreases |steps|
  {
    hide Safe, Next, Growth, Enabled, Empty;
    HasCurrent(k);
    if steps != [] {
      StepSafe(k, steps[0]);
      ReaderStep(k, steps[0], t, p, got, max);
      var k' := Next(k, steps[0]);
      var out := if Current(k) == t then Growth(Consumed(k, p), Consumed(k', p)) else [];
      if OpOf(k'.ops, t) == Idle {
        assert steps[1..] == [];
      } else {
        ReaderRun(k', steps[1..], t, p, got + |out|, max);
      }
    }
  }

  /** pipe_read: at every point of the call `got` is the number of bytes it has taken out of the pipe, at most `max`;
      it returns with `max` bytes, or with at least one and the pipe empty. */
  lemma ReadCall(k: Kernel, p: nat, max: nat, steps: seq<Step>)
    requires Safe(k) && Enabled(k, BeginRead(p, max)) && Safe(Next(k, BeginRead(p, max)))
    requires CanRun(Next(k, BeginRead(p, max)), steps)
    requires InCall(Next(k, BeginRead(p, max)), steps, Current(k))
    ensures var k1, t := Next(k, BeginRead(p, max)), Current(k);
            var op, took := OpOf(After(k1, steps).ops, t), Took(k1, steps, t, p);
            && |took| <= max
            && (op != Idle ==> op == Reading(p, |took|, max))
            && (op == Idle ==> |took| == max || (|took| > 0 && Empty(After(k1, steps), p)))
            && Consumed(k1, p) == Consumed(k, p)
  {
    hide Safe, CanRun, InCall, After, Took;
    HasCurrent(k);
    ReaderRun(Next(k, BeginRead(p, max)), steps, Current(k), p, 0, max);
  }

  lemma LockerStep(k: Kernel, step: Step, t: Id, m: nat)
    requires Safe(k) && Enabled(k, step) && OpOf(k.ops, t) == Locking(m) && m < |k.locks|
    ensures var k' := Next(k, step);
            && |k'.locks| == |k.locks|
            && (OpOf(k'.ops, t) == Locking(m) || (OpOf(k'.ops, t) == Idle && t in k'.locks[m].holders))
            && forall i :: 0 <= i < |k.locks| && (i != m || OpOf(k'.ops, t) != Idle) ==>
                 (t in k'.locks[i].holders <==> t in k.locks[i].holders)
  {
    hide Safe, Next;
    HasCurrent(k);
    if Current(k) != t {
      OthersStep(k, step, t);
      OthersLocks(k, step, t, m);
      forall i | 0 <= i < |k.locks|
        ensures |Next(k, step).locks| == |k.locks| && (t in Next(k, step).locks[i].holders <==> t in k.locks[i].holders)
      {
        OthersLocks(k, step, t, i);
      }
    } else if step == TryLock {
      LockPass(k);
    } else {
      assert step != TryWrite && step != TryRead;
      OwnStep(k, step);
    }
  }

  lemma {:induction false} LockerRun(k: Kernel, steps: seq<Step>, t: Id, m: nat)
    requires Safe(k) && CanRun(k, steps) && InCall(k, steps, t) && OpOf(k.ops, t) == Locking(m) && m < |k.locks|
    ensures var k' := After(k, steps);
            && |k'.locks| == |k.locks|
            && (OpOf(k'.ops, t) == Locking(m) || (OpOf(k'.ops, t) == Idle && t in k'.locks[m].holders))
            && forall i :: 0 <= i < |k.locks| && (i != m || OpOf(k'.ops, t) != Idle) ==>
                 (t in k'.locks[i].holders <==> t in k.locks[i].holders)
    decreases |steps|
  {
    hide Safe, Next, Enabled;
    HasCurrent(k);
    if steps != [] {
      StepSafe(k, steps[0]);
      LockerStep(k, steps[0], t, m);
      var k' := Next(k, steps[0]);
      if OpOf(k'.ops, t) == Idle {
        assert steps[1..] == [];
      } else {
        LockerRun(k', steps[1..], t, m);
      }
    }
  }

  /** mutex_lock: the call returns holding the lock it was asked for and no other that the task did not hold before;
      until then it waits for that very lock. */
  lemma LockCall(k: Kernel, m: nat, steps: seq<Step>)
    requires Safe(k) && Enabled(k, BeginLock(m)) && Safe(Next(k, BeginLock(m)))
    requires CanRun(Next(k, BeginLock(m)), steps) && InCall(Next(k, BeginLock(m)), steps, Current(k))
    ensures var k', t := After(Next(k, BeginLock(m)), steps), Current(k);
            && |k'.locks| == |k.locks|
            && (OpOf(k'.ops, t) == Locking(m) || (OpOf(k'.ops, t) == Idle && t in k'.locks[m].holders))
            && forall i :: 0 <= i < |k.locks| && (i != m || OpOf(k'.ops, t) != Idle) ==>
                 (t in k'.locks[i].holders <==> t in k.locks[i].holders)
  {
    hide Safe, CanRun, InCall, After;
    HasCurrent(k);
    LockerRun(Next(k, BeginLock(m)), steps, Current(k), m);
  }

  // ---- the order of the queues -------------------------------------------------------------------

  /** Queue q after a step: as it was, with the current task joined at the end, or without its first task. */
  ghost predicate Orderly(queue: seq<Id>, queue': seq<Id>, t: Id) {
    queue' == queue || queue' == queue + [t] || (queue != [] && queue' == queue[1..])
  }

  lemma ParkOrder(k: Kernel, p: nat, pipe: Pipe, q: QueueId, q': QueueId)
    requires SchedModel.Inv(k.sched) && Current(k) != 0 && p < |k.pipes|
    ensures Orderly(Queue(k.queues, q'), Queue(Stuck(k, p, pipe, q).queues, q'), Current(k))
  {
    hide Schedule;
  }

  lemma WakeOrder(k: Kernel, q: QueueId, q': QueueId)
    requires QK(k) && k.sched.ring != []
    ensures Orderly(Queue(k.queues, q'), Queue(Woke(k, q).queues, q'), Current(k))
  {
    hide QInv, Woke;
    WokeFields(k, q);
  }

  lemma MoveOrder(k: Kernel, next: Op, p: nat, pipe: Pipe, q: QueueId, q': QueueId)
    requires k.sched.ring != [] && QK(k) && NeverWoken(k.woken, Current(k)) && p < |k.pipes|
    requires Current(k) in k.sched.tasks && k.sched.tasks[Current(k)].state != Blocked
    ensures Orderly(Queue(k.queues, q'), Queue(Moved(k, next, p, pipe, q).queues, q'), Current(k))
  {
    hide QInv, Woke;
    QSetOp(k.sched.tasks, Current(k), next, k.ops, k.queues, k.woken);
    WakeOrder(WithOp(k, Current(k), next).(pipes := k.pipes[p := pipe]), q, q');
  }

  lemma WriteOrder(k: Kernel, q: QueueId)
    requires Safe(k) && Enabled(k, TryWrite)
    ensures Orderly(Queue(k.queues, q), Queue(Next(k, TryWrite).queues, q), Current(k))
  {
    hide QInv, LockOk, RingInv, Moved, Stuck, Contents, Orderly;
    HasCurrent(k);
    var op, wq := OpOf(k.ops, Current(k)), QueueOf(OpOf(k.ops, Current(k)));
    var pipe, k1 := k.pipes[op.pipe], Retrying(k, wq, Current(k));
    assert PipeOk(pipe);
    QRetry(k.sched.tasks, Current(k), wq, k.ops, k.queues, k.woken);
    if pipe.ring.count < PIPE_CAPACITY {
      MoveOrder(k1, if |op.left| == 1 then Idle else op.(left := op.left[1..]), op.pipe, Fed(pipe, op.left[0]),
        ReadQueue(op.pipe), q);
    } else {
      ParkOrder(k1, op.pipe, pipe.(blockedWrites := pipe.blockedWrites + 1), wq, q);
    }
  }

  lemma ReadOrder(k: Kernel, q: QueueId)
    requires Safe(k) && Enabled(k, TryRead)
    ensures Orderly(Queue(k.queues, q), Queue(Next(k, TryRead).queues, q), Current(k))
  {
    hide QInv, LockOk, RingInv, Moved, Stuck, Contents;
    HasCurrent(k);
    var op, rq := OpOf(k.ops, Current(k)), QueueOf(OpOf(k.ops, Current(k)));
    var pipe, k1 := k.pipes[op.pipe], Retrying(k, rq, Current(k));
    assert PipeOk(pipe);
    QRetry(k.sched.tasks, Current(k), rq, k.ops, k.queues, k.woken);
    if op.got >= op.max || (op.got > 0 && pipe.ring.count == 0) {
    } else if pipe.ring.count > 0 {
      MoveOrder(k1, op.(got := op.got + 1), op.pipe, Drained(pipe), WriteQueue(op.pipe), q);
    } else {
      ParkOrder(k1, op.pipe, pipe.(blockedReads := pipe.blockedReads + 1), rq, q);
    }
  }

  lemma LockOrder(k: Kernel, step: Step, q: QueueId)
    requires Safe(k) && Enabled(k, step) && step != TryWrite && step != TryRead
    ensures Orderly(Queue(k.queues, q), Queue(Next(k, step).queues, q), Current(k))
  {
    hide QInv, LockOk, PipeOk, RingInv, Schedule, Woke;
    HasCurrent(k);
    if step.Unlock? {
      WakeOrder(k.(locks := k.locks[step.lock := Opened(k.locks[step.lock], Current(k))]), LockQueue(step.lock), q);
    }
  }

  /** Waiters join at the end of a queue and leave it from the front: first in, first out. */
  lemma FirstInFirstOut(k: Kernel, step: Step, q: QueueId)
    requires Safe(k) && Enabled(k, step)
    ensures Orderly(Queue(k.queues, q), Queue(Next(k, step).queues, q), Current(k))
  {
    hide QInv, LockOk, PipeOk, RingInv, Next, Orderly;
    if step == TryWrite {
      WriteOrder(k, q);
    } else if step == TryRead {
      ReadOrder(k, q);
    } else {
      LockOrder(k, step, q);
    }
  }
}
