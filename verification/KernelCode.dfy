/**
 The scheduler, the mutex and the pipe as code over task structures and pointers.

 Every interrupts-off section is a method. Each is proved to take the abstract machine by exactly
 the step of the same name, so every theorem about runs of the machine is one about this code. The
 ghost field `k` is the abstract state.
 */
module KernelCode {
  import opened Seqs
  import opened Links
  import opened SchedModel
  import opened KernelModel
  import opened KernelSteps
  import opened KernelSafety
  import KernelCalls

  datatype LockWord = LockWord(locked: bool, contended: nat)
  datatype PipeRecord = PipeRecord(ring: Ring, blockedReads: nat, blockedWrites: nat)

  function PtrAt(m: map<QueueId, Ptr>, q: QueueId): Ptr { if q in m then m[q] else Nil }

  /** tasks after wake_sleepers has visited the first i tasks of `from`. */
  ghost function WokenUpTo(tasks: map<Id, Task>, ticks: nat, from: seq<Id>, i: nat): map<Id, Task>
    requires i <= |from|
  {
    map t | t in tasks :: if t in from[..i] then Woken(tasks[t], ticks) else tasks[t]
  }

  lemma WokenStep(tasks: map<Id, Task>, ticks: nat, from: seq<Id>, i: nat)
    requires Distinct(from) && i < |from| && from[i] in tasks
    ensures from[i] in WokenUpTo(tasks, ticks, from, i) && WokenUpTo(tasks, ticks, from, i)[from[i]] == tasks[from[i]]
    ensures WokenUpTo(tasks, ticks, from, i + 1) ==
      WokenUpTo(tasks, ticks, from, i)[from[i] := Woken(tasks[from[i]], ticks)]
  {
    assert from[..i + 1] == from[..i] + [from[i]];
    assert from[i] !in from[..i];
  }

  lemma LapStart(s: Sched, next: map<Id, Id>)
    requires RingInv(s) && Linked(next, s.ring)
    ensures 0 in s.ring && |FromZero(s.ring)| == |s.ring| > 0 && FromZero(s.ring)[0] == 0 && Distinct(FromZero(s.ring))
    ensures Linked(next, FromZero(s.ring))
    ensures forall i :: 0 <= i < |s.ring| ==> FromZero(s.ring)[i] in s.tasks
    ensures WokenUpTo(s.tasks, s.ticks, FromZero(s.ring), 0) == s.tasks
  {
    hide Linked, Distinct;
    var z := IndexOf(s.ring, 0);
    RotateLinked(next, s.ring, z);
    RotateDistinct(s.ring, z);
    RotateSame(s.ring, z);
    forall i | 0 <= i < |s.ring|
      ensures FromZero(s.ring)[i] in s.tasks
    {
      assert FromZero(s.ring)[i] in FromZero(s.ring);
    }
  }

  /** Following one next pointer from the i-th task of the lap. */
  lemma LapStep(s: Sched, next: map<Id, Id>, i: nat)
    requires 0 in s.ring && i < |s.ring| && Distinct(FromZero(s.ring)) && FromZero(s.ring)[0] == 0
    requires Linked(next, FromZero(s.ring))
    ensures FromZero(s.ring)[i] in next
    ensures var t := next[FromZero(s.ring)[i]];
            (t != 0 <==> i + 1 < |s.ring|) && (i + 1 < |s.ring| ==> t == FromZero(s.ring)[i + 1])
  {
    hide FromZero;
    LinkedAt(next, FromZero(s.ring), i);
  }

  lemma LapEnd(s: Sched)
    requires 0 in s.ring
    ensures WokenUpTo(s.tasks, s.ticks, FromZero(s.ring), LapLength(s.ring)) == Wake(s).tasks
    ensures Wake(s).tasks.Keys == s.tasks.Keys
  {
  }

  // ---- the scan of task_schedule ---------------------------------------------------------

  ghost function FullScan(w: Sched): Scan
    requires w.ring != [] && forall t :: t in w.ring ==> t in w.tasks
  {
    ScanFrom(w.tasks, [w.ring[0]], w.ring[1..], [], GUARD)
  }

  /** Part-way through the scan: the ring is `kept + rest`, the tasks in `dead` have been freed, and
      going on from here gives what the whole scan gives. */
  ghost predicate Sweeping(w: Sched, next: map<Id, Id>, tasks: map<Id, Task>, kept: seq<Id>, rest: seq<Id>,
      dead: seq<Id>, guard: nat) {
    && w.ring != [] && (forall t :: t in w.ring ==> t in w.tasks)
    && kept != [] && kept[0] == w.ring[0] && guard <= GUARD
    && Distinct(kept + rest + dead) && (forall t :: t in kept + rest + dead ==> t in w.tasks)
    && Linked(next, kept + rest)
    && tasks == Without(w.tasks, dead)
    && (forall t :: t in rest ==> t in w.tasks)
    && ScanFrom(w.tasks, kept, rest, dead, GUARD - guard) == FullScan(w)
  }

  lemma SweepStart(w: Sched, next: map<Id, Id>)
    requires RingInv(w) && Linked(next, w.ring)
    ensures Sweeping(w, next, w.tasks, [w.ring[0]], w.ring[1..], [], 0)
  {
    hide Linked, Distinct, ScanFrom;
    assert [w.ring[0]] + w.ring[1..] == w.ring;
    assert [w.ring[0]] + w.ring[1..] + [] == w.ring;
    assert Without(w.tasks, []) == w.tasks;
    assert forall t :: t in w.ring ==> t in Members(w.ring);
  }

  /** scan->next is the next candidate, or current again after a full lap. */
  lemma SweepCandidate(w: Sched, next: map<Id, Id>, tasks: map<Id, Task>, kept: seq<Id>, rest: seq<Id>, dead: seq<Id>,
      guard: nat)
    requires Sweeping(w, next, tasks, kept, rest, dead, guard)
    ensures var scan := kept[|kept| - 1];
            && scan in next
            && next[scan] == (if rest == [] then kept[0] else rest[0])
            && (next[scan] == kept[0] <==> rest == [])
    ensures rest != [] ==> rest[0] in tasks && rest[0] in w.tasks && tasks[rest[0]] == w.tasks[rest[0]]
  {
    hide ScanFrom, Linked;
    var ring := kept + rest;
    assert ring[|kept| - 1] == kept[|kept| - 1];
    LinkedAt(next, ring, |kept| - 1);
    if rest != [] {
      var all := kept + rest + dead;
      assert all[0] == kept[0] && all[|kept|] == rest[0];
      forall j | 0 <= j < |dead|
        ensures dead[j] != rest[0]
      {
        assert all[|kept| + |rest| + j] == dead[j];
      }
    }
  }

  lemma SweepReap(w: Sched, next: map<Id, Id>, tasks: map<Id, Task>, kept: seq<Id>, rest: seq<Id>, dead: seq<Id>,
      guard: nat)
    requires Sweeping(w, next, tasks, kept, rest, dead, guard) && guard < GUARD && rest != []
    requires rest[0] in w.tasks && w.tasks[rest[0]].state == Finished
    ensures rest[0] in next && kept[|kept| - 1] != rest[0]
    ensures Sweeping(w, Unlink(next, kept[|kept| - 1], rest[0]), tasks - {rest[0]}, kept, rest[1..], dead + [rest[0]],
      guard + 1)
  {
    hide Linked, Distinct;
    var t, tail := rest[0], rest[1..];
    assert kept + rest == kept + [t] + tail;
    DistinctParts(kept + rest, dead);
    UnlinkLinked(next, kept, t, tail);
    MoveToEnd(kept, t, tail, dead);
    assert kept + rest + dead == kept + [t] + tail + dead;
    assert tasks - {t} == Without(w.tasks, dead + [t]);
  }

  lemma MoveToEnd(kept: seq<Id>, t: Id, tail: seq<Id>, dead: seq<Id>)
    requires Distinct(kept + [t] + tail + dead)
    ensures Distinct(kept + tail + (dead + [t]))
    ensures forall x :: x in kept + tail + (dead + [t]) <==> x in kept + [t] + tail + dead
  {
    hide Distinct;
    assert multiset(kept + [t] + tail + dead) == multiset(kept + tail + (dead + [t]));
    DistinctPermuted(kept + [t] + tail + dead, kept + tail + (dead + [t]));
    SameElements(kept + [t] + tail + dead, kept + tail + (dead + [t]));
  }

  lemma SweepSkip(w: Sched, next: map<Id, Id>, tasks: map<Id, Task>, kept: seq<Id>, rest: seq<Id>, dead: seq<Id>,
      guard: nat)
    requires Sweeping(w, next, tasks, kept, rest, dead, guard) && guard < GUARD && rest != []
    requires rest[0] in w.tasks && w.tasks[rest[0]].state != Finished && w.tasks[rest[0]].state != Ready
    ensures Sweeping(w, next, tasks, kept + [rest[0]], rest[1..], dead, guard + 1)
  {
    hide Linked, Distinct;
    assert kept + [rest[0]] + rest[1..] == kept + rest;
  }

  /** The scan stops: at a READY task, after a full lap, or when the guard runs out. */
  lemma SweepEnd(w: Sched, next: map<Id, Id>, tasks: map<Id, Task>, kept: seq<Id>, rest: seq<Id>, dead: seq<Id>,
      guard: nat, found: bool)
    requires Sweeping(w, next, tasks, kept, rest, dead, guard)
    requires if found then guard < GUARD && rest != [] && rest[0] in w.tasks && w.tasks[rest[0]].state == Ready
             else guard == GUARD || rest == []
    ensures FullScan(w) == Scan(kept, rest, dead, found)
    ensures Linked(next, kept + rest) && tasks == Without(w.tasks, dead)
  {
    hide Linked, Distinct;
  }

  class Machine {
    var tasks: map<Id, Task>
    var next: map<Id, Id>
    var waitNext: map<Id, Ptr>
    var current: Id
    var ticks: nat
    var nextId: nat
    var switches: nat
    var head: map<QueueId, Ptr>
    var tail: map<QueueId, Ptr>
    var locks: seq<LockWord>
    var pipes: seq<PipeRecord>

    ghost var k: Kernel

    /** The ring of task structures spells out the abstract scheduler state. */
    ghost predicate SchedRep(s: Sched)
      reads this
    {
      && Linked(next, s.ring) && current == s.ring[0] && tasks == s.tasks
      && ticks == s.ticks && nextId == s.nextId && switches == s.switches
      && waitNext.Keys == tasks.Keys
    }

    ghost predicate QueueRep(queues: map<QueueId, seq<Id>>)
      reads this
    {
      forall q :: Queued(PtrAt(head, q), PtrAt(tail, q), waitNext, Queue(queues, q))
    }

    ghost predicate ObjectRep(k: Kernel)
      reads this
    {
      && |locks| == |k.locks| && |pipes| == |k.pipes|
      && (forall m :: 0 <= m < |locks| ==> locks[m] == LockWord(k.locks[m].locked, k.locks[m].contended))
      && (forall p :: 0 <= p < |pipes| ==>
           pipes[p] == PipeRecord(k.pipes[p].ring, k.pipes[p].blockedReads, k.pipes[p].blockedWrites))
    }

    ghost predicate Valid()
      reads this
    {
      Safe(k) && SchedRep(k.sched) && QueueRep(k.queues) && ObjectRep(k)
    }

    /** task_init, with the locks and pipes freshly initialised. */
    constructor (lockCount: nat, pipeCount: nat)
      ensures Valid() && k == Boot(lockCount, pipeCount)
    {
      tasks, next, waitNext := map[0 := Task(Running, 0)], map[0 := 0], map[0 := Nil];
      current, ticks, nextId, switches := 0, 0, 1, 0;
      head, tail := map[], map[];
      locks := seq(lockCount, _ => LockWord(false, 0));
      pipes := seq(pipeCount, _ => PipeRecord(Ring(seq(PIPE_CAPACITY, _ => '\0'), 0, 0, 0), 0, 0));
      k := Boot(lockCount, pipeCount);
      new;
      BootSafe(lockCount, pipeCount);
      assert Follower([0], 0) == 0;
    }

    // ---- task.c --------------------------------------------------------------------------

    /** wake_sleepers: a lap of at most 65 tasks from task 0. */
    method WakeSleepers(ghost s: Sched)
      requires RingInv(s) && SchedRep(s)
      modifies this`tasks
      ensures SchedRep(Wake(s))
      ensures 0 in s.ring && tasks.Keys == old(tasks).Keys
      ensures forall t :: t in tasks && old(tasks)[t].state == Sleeping && old(tasks)[t].wakeTick <= ticks ==>
        (Findable(s, t) ==> tasks[t] == old(tasks)[t].(state := Ready))
      ensures forall t :: t in tasks && (old(tasks)[t].state != Sleeping || ticks < old(tasks)[t].wakeTick) ==>
        tasks[t] == old(tasks)[t]
    {
      hide RingInv, Linked, FromZero, Distinct, WokenUpTo;
      LapStart(s, next);
      ghost var from := FromZero(s.ring);
      ghost var i := 0;
      var t, guard, again := 0, 0, true;
      while again
        invariant 0 <= i <= LapLength(s.ring)
        invariant tasks == WokenUpTo(s.tasks, s.ticks, from, i)
        invariant again ==> i == guard < LapLength(s.ring) && t == from[i]
        invariant !again ==> i == LapLength(s.ring)
        decreases again, LapLength(s.ring) - i
      {
        assert t in s.tasks;
        WokenStep(s.tasks, s.ticks, from, i);
        if tasks[t].state == Sleeping && ticks >= tasks[t].wakeTick {
          tasks := tasks[t := tasks[t].(state := Ready)];
        }
        LapStep(s, next, i);
        t := next[t];
        i := i + 1;
        again := t != 0 && guard < GUARD;
        guard := guard + 1;
      }
      LapEnd(s);
    }

    /** The loop of task_schedule: walk the ring for a READY task, reaping FINISHED ones on the way. */
    method ScanRing(ghost w: Sched) returns (found: bool, chosen: Id, ghost r: Scan)
      requires RingInv(w) && SchedRep(w)
      modifies this`next, this`tasks, this`waitNext
      ensures w.ring != [] && (forall t :: t in w.ring ==> t in w.tasks) && r == FullScan(w) && r.found == found
      ensures Linked(next, r.kept + r.rest) && tasks == Without(w.tasks, r.dead)
      ensures waitNext == old(waitNext) - Members(r.dead)
      ensures found ==> r.rest != [] && chosen == r.rest[0]
    {
      hide RingInv, Linked, Distinct, ScanFrom, Sweeping, Without, FullScan;
      RingTasks(w);
      SweepStart(w, next);
      ghost var kept, rest, dead := [w.ring[0]], w.ring[1..], [];
      var scan, guard := current, 0;
      found, chosen := false, 0;
      assert waitNext - Members([]) == waitNext;
      while guard < GUARD
        invariant 0 <= guard <= GUARD && !found
        invariant Sweeping(w, next, tasks, kept, rest, dead, guard)
        invariant kept != [] && scan == kept[|kept| - 1] && kept[0] == current
        invariant waitNext == old(waitNext) - Members(dead)
      {
        SweepCandidate(w, next, tasks, kept, rest, dead, guard);
        var candidate := next[scan];
        if candidate == current {
          break;
        }
        if tasks[candidate].state == Finished {
          SweepReap(w, next, tasks, kept, rest, dead, guard);
          assert Members(dead + [candidate]) == Members(dead) + {candidate};
          next := Unlink(next, scan, candidate);
          tasks := tasks - {candidate};
          waitNext := waitNext - {candidate};
          rest, dead := rest[1..], dead + [candidate];
        } else if tasks[candidate].state == Ready {
          found, chosen := true, candidate;
          break;
        } else {
          SweepSkip(w, next, tasks, kept, rest, dead, guard);
          kept, rest := kept + [candidate], rest[1..];
          scan := candidate;
        }
        guard := guard + 1;
      }
      if !found && guard < GUARD {
        SweepCandidate(w, next, tasks, kept, rest, dead, guard);
      }
      SweepEnd(w, next, tasks, kept, rest, dead, guard, found);
      r := Scan(kept, rest, dead, found);
    }

    /** task_schedule */
    method TaskSchedule(ghost s: Sched)
      requires RingInv(s) && SchedRep(s)
      modifies this`next, this`tasks, this`waitNext, this`current, this`switches
      ensures SchedRep(Schedule(s))
      ensures waitNext == old(waitNext) - Members(Swept(s).1.dead)
    {
      hide RingInv, Linked, ScanFrom, Swept, Wake, Target, Schedule, Without, FullScan;
      WakeRing(s);
      WakeSleepers(s);
      var found, chosen;
      ghost var r;
      found, chosen, r := ScanRing(Wake(s));
      SweptIs(s);
      ChosenIs(s);
      if !found {
        if tasks[current].state == Running {
          StayIs(s);
          return;
        }
        chosen := 0;
      }
      HandOver(s, chosen);
    }

    /** The tail of task_schedule: hand the CPU over. */
    method HandOver(ghost s: Sched, chosen: Id)
      requires RingInv(s) && SchedRep(Swept(s).0)
      requires 0 < Target(s) < |Swept(s).0.ring| && chosen == Swept(s).0.ring[Target(s)]
      modifies this`tasks, this`current, this`switches
      ensures SchedRep(Schedule(s))
    {
      hide RingInv, Linked, Swept, Target, Schedule;
      SwitchIs(s, next);
      if tasks[current].state == Running {
        tasks := tasks[current := tasks[current].(state := Ready)];
      }
      tasks := tasks[chosen := tasks[chosen].(state := Running)];
      current := chosen;
      switches := switches + 1;
    }

    /** task_schedule as the tail of a step whose other effects have led to `mid`. */
    method Reschedule(ghost mid: Kernel)
      requires RingInv(mid.sched) && QK(mid) && Rest(mid)
      requires SchedRep(mid.sched) && QueueRep(mid.queues) && ObjectRep(mid)
      modifies this
      ensures k == Rescheduled(mid) && Valid()
    {
      hide RingInv, QInv, Rest, Linked, Schedule, Swept, Queued;
      RescheduledSafe(mid);
      ghost var before := waitNext;
      TaskSchedule(mid.sched);
      QueuesSurvive(mid, head, tail, before);
      k := Rescheduled(mid);
    }

    /** The timer interrupt: one tick. */
    method TimerTick()
      requires Valid()
      modifies this`ticks, this`k
      ensures Valid() && k == Next(old(k), Step.Tick) && ticks == old(ticks) + 1
    {
      StepSafe(k, Step.Tick);
      k := Next(k, Step.Tick);
      ticks := ticks + 1;
    }

    /** task_yield, or the timer preempting the current task. */
    method TaskYield()
      requires Valid()
      modifies this
      ensures Valid() && k == Next(old(k), Yield)
    {
      hide QInv, PipeOk, LockOk, Schedule, Linked, Queued;
      Reschedule(k);
    }

    /** The ring part of task_create_ex. */
    method TaskCreate() returns (id: Id)
      requires Valid() && Enabled(k, Create)
      modifies this
      ensures Valid() && k == Next(old(k), Create) && id == old(nextId)
      ensures id !in old(tasks) && tasks == old(tasks)[id := Task(Ready, 0)] && current == old(current)
      ensures k.sched.ring == [current, id] + old(k.sched.ring)[1..]
    {
      hide PipeOk, LockOk, Schedule, Queued, Distinct, Linked, QInv, RingInv;
      StepSafe(k, Create);
      RingTasks(k.sched);
      NewIdUnused(k.sched);
      SpliceLinked(next, k.sched.ring, nextId);
      QueuesSurviveAdd(head, tail, waitNext, k, nextId);
      id := nextId;
      tasks := tasks[id := Task(Ready, 0)];
      next := next[id := next[current]][current := id];
      waitNext := waitNext[id := Nil];
      nextId := nextId + 1;
      k := Next(k, Create);
    }

    /** task_sleep up to its call of task_schedule. Task 0 waits for the timer instead, which only the
        timer's own steps end. */
    method TaskSleep(delay: nat)
      requires Valid() && Executing(k) && OpOf(k.ops, Current(k)) == Idle
      modifies this`tasks, this`k
      ensures Valid()
      ensures if old(current) == 0 then k == old(k)
        else Enabled(old(k), Step.Sleep(delay)) && k == Next(old(k), Step.Sleep(delay))
      ensures tasks == if current == 0 then old(tasks) else old(tasks)[current := Task(Sleeping, ticks + delay)]
    {
      hide PipeOk, LockOk, Schedule, Queued, Linked, QInv, Distinct, Members;
      if current == 0 {
        return;
      }
      StepSafe(k, Step.Sleep(delay));
      tasks := tasks[current := Task(Sleeping, ticks + delay)];
      k := Next(k, Step.Sleep(delay));
    }

    /** task_exit and task_terminate up to task_schedule. Nothing keeps task 0 from calling them; the
        machine is in order afterwards exactly when it did not. */
    method TaskExit()
      requires Valid() && Executing(k) && OpOf(k.ops, Current(k)) == Idle
      modifies this`tasks, this`k
      ensures Valid() <==> old(current) != 0
      ensures tasks == old(tasks)[old(current) := old(tasks)[old(current)].(state := Finished)]
      ensures old(current) != 0 ==> Enabled(old(k), Exit) && k == Next(old(k), Exit)
    {
      hide PipeOk, LockOk, Schedule, Queued, Linked, QInv;
      ExitNeedsAnother(k);
      tasks := tasks[current := tasks[current].(state := Finished)];
      k := WithState(k, current, Finished);
    }

    /** task_by_id: a lap of at most 65 tasks from task 0. */
    method TaskById(id: Id) returns (found: bool)
      requires RingInv(k.sched) && SchedRep(k.sched)
      ensures 0 in k.sched.ring && found == Findable(k.sched, id)
    {
      hide RingInv, Linked, FromZero, Distinct, WokenUpTo;
      LapStart(k.sched, next);
      ghost var from := FromZero(k.sched.ring);
      var i, t, guard, again := 0, 0, 0, true;
      while again
        invariant 0 <= i <= LapLength(k.sched.ring) && |from| == |k.sched.ring|
        invariant id !in from[..i]
        invariant again ==> i == guard < LapLength(k.sched.ring) && t == from[i]
        invariant !again ==> i == LapLength(k.sched.ring)
        decreases again, LapLength(k.sched.ring) - i
      {
        if t == id {
          assert Visited(k.sched.ring)[i] == id;
          return true;
        }
        assert from[..i + 1] == from[..i] + [from[i]];
        LapStep(k.sched, next, i);
        t := next[t];
        i := i + 1;
        again := t != 0 && guard < GUARD;
        guard := guard + 1;
      }
      return false;
    }

    /** task_kill: 1 when the task was marked FINISHED, 0 and -1 for the refusals. */
    method TaskKill(id: Id) returns (r: int)
      requires Valid() && Enabled(k, Kill(id))
      modifies this`tasks, this`k
      ensures Valid() && k == Next(old(k), Kill(id))
      ensures -1 <= r <= 1 && (r == 1 <==> Killable(old(k), id))
      ensures r == -1 <==> (
          && id != 0 && Findable(old(k).sched, id) && id in old(k).sched.tasks
          && old(k).sched.tasks[id].state == Blocked)
      ensures r == 0 <==> (
          || id == 0 || !Findable(old(k).sched, id)
          || (id in old(tasks) && old(tasks)[id].state == Finished))
      ensures tasks == if r == 1 then old(tasks)[id := old(tasks)[id].(state := Finished)] else old(tasks)
    {
      hide PipeOk, LockOk, Schedule, Queued, Linked, QInv, Visited;
      StepSafe(k, Kill(id));
      KillRange(k, id);
      if id == 0 {
        return 0;
      }
      var found := TaskById(id);
      if !found || tasks[id].state == Finished {
        return 0;
      }
      if tasks[id].state == Blocked {
        return -1;
      }
      tasks := tasks[id := tasks[id].(state := Finished)];
      k := Next(k, Kill(id));
      return 1;
    }

    // ---- lock.c and pipe.c -----------------------------------------------------------------

    /** enqueue */
    method Enqueue(q: QueueId, t: Id, ghost queues: map<QueueId, seq<Id>>)
      requires AllQueued(head, tail, waitNext, queues) && Apart(queues) && QueuesDistinct(queues)
      requires t in waitNext && forall q' :: t !in Queue(queues, q')
      modifies this`head, this`tail, this`waitNext
      ensures AllQueued(head, tail, waitNext, queues[q := Queue(queues, q) + [t]])
      ensures waitNext.Keys == old(waitNext.Keys)
    {
      hide AllQueued, Apart, QueuesDistinct;
      EnqueueAll(head, tail, waitNext, queues, q, t);
      waitNext := waitNext[t := Nil];
      var last := PtrAt(tail, q);
      if last != Nil {
        waitNext := waitNext[last.id := To(t)];
      } else {
        head := head[q := To(t)];
      }
      tail := tail[q := To(t)];
    }

    /** dequeue, and the queue part of wake_one */
    method Dequeue(q: QueueId, ghost queues: map<QueueId, seq<Id>>) returns (t: Ptr)
      requires AllQueued(head, tail, waitNext, queues) && Apart(queues) && QueuesDistinct(queues)
      modifies this`head, this`tail, this`waitNext
      ensures t == if Queue(queues, q) == [] then Nil else To(Queue(queues, q)[0])
      ensures AllQueued(head, tail, waitNext,
        if Queue(queues, q) == [] then queues else queues[q := Queue(queues, q)[1..]])
      ensures waitNext.Keys == old(waitNext.Keys)
    {
      hide AllQueued, Apart, QueuesDistinct;
      DequeueAll(head, tail, waitNext, queues, q);
      t := PtrAt(head, q);
      if t == Nil {
        return;
      }
      var second := waitNext[t.id];
      head := head[q := second];
      if second == Nil {
        tail := tail[q := Nil];
      }
      waitNext := waitNext[t.id := Nil];
    }

    /** Join queue q and block: the tail of a pass that could not go on. */
    method ParkOn(q: QueueId, ghost mid: Kernel)
      requires MayPark(mid, q)
      requires SchedRep(mid.sched) && QueueRep(mid.queues) && ObjectRep(mid)
      modifies this
      ensures Valid() && k == Parked(mid, q)
    {
      hide QInv, Rest, Linked, Queued, Schedule, RingInv;
      ParkReady(mid, q, head, tail, waitNext);
      Enqueue(q, current, mid.queues);
      tasks := tasks[current := tasks[current].(state := Blocked)];
      Reschedule(Park(mid, q));
    }

    /** wake_one: the oldest waiter of q becomes READY. */
    method WakeWaiter(q: QueueId, ghost mid: Kernel)
      requires Safe(mid) && Executing(mid)
      requires SchedRep(mid.sched) && QueueRep(mid.queues) && ObjectRep(mid)
      modifies this
      ensures Valid() && k == Woke(mid, q)
    {
      hide QInv, Linked, Queued, RingInv, PipeOk, LockOk;
      WokeSafe(mid, q);
      WakeReady(mid, q, head, tail, waitNext);
      var t := Dequeue(q, mid.queues);
      if t != Nil && tasks[t.id].state == Blocked {
        tasks := tasks[t.id := tasks[t.id].(state := Ready)];
      }
      k := Woke(mid, q);
    }

    /** One pass of the loop in mutex_lock: exchange 1 into the word; 0 came out means it is ours. */
    method MutexTryLock(m: nat) returns (acquired: bool)
      requires Valid() && Enabled(k, TryLock) && OpOf(k.ops, Current(k)) == Locking(m)
      modifies this
      ensures Valid() && k == Next(old(k), TryLock)
      ensures acquired == !old(locks[m].locked)
      ensures acquired ==> k.locks[m].holders == {old(current)}
    {
      hide QInv, Linked, Queued, PipeOk, LockOk, TriedLock, Parked, RingInv, NeverWoken;
      LockPass(k, m);
      var word := locks[m];
      if !word.locked {
        locks := locks[m := word.(locked := true)];
        k := Next(k, TryLock);
        return true;
      }
      locks := locks[m := LockWord(true, word.contended + 1)];
      ParkOn(LockQueue(m), LockMid(k, m));
      acquired := false;
    }

    /** mutex_unlock */
    method MutexUnlock(m: nat)
      requires Valid() && Enabled(k, Unlock(m))
      modifies this
      ensures Valid() && k == Next(old(k), Unlock(m))
      ensures !locks[m].locked && k.locks[m].holders == old(k.locks[m].holders) - {old(current)}
    {
      hide QInv, Linked, Queued, PipeOk, Contents;
      ghost var mid := k.(locks := k.locks[m := Opened(k.locks[m], Current(k))]);
      LockPutSafe(k, m, mid.locks[m]);
      locks := locks[m := locks[m].(locked := false)];
      WakeWaiter(LockQueue(m), mid);
    }

    /** One pass of the inner loop in pipe_write, for the byte c. */
    method PipeTryWrite(p: nat, c: char, ghost left: seq<char>) returns (done: bool)
      requires Valid() && Enabled(k, TryWrite) && OpOf(k.ops, Current(k)) == Writing(p, left) && left[0] == c
      modifies this
      ensures Valid() && k == Next(old(k), TryWrite)
      ensures done == (old(pipes[p].ring.count) < PIPE_CAPACITY)
      ensures k.pipes[p].produced == old(k.pipes[p].produced) + if done then [c] else []
      ensures KernelCalls.Left(OpOf(k.ops, old(current))) == if done then left[1..] else left
    {
      hide QInv, Linked, Queued, PipeOk, LockOk, TriedWrite, Parked, Woke, RingInv, NeverWoken;
      WritePass(k, p, left);
      KernelCalls.WriteFields(k);
      var pipe := pipes[p];
      var r := pipe.ring;
      if r.count < PIPE_CAPACITY {
        pipes := pipes[p := pipe.(ring :=
          Ring(r.buffer[r.writePos := c], r.readPos, (r.writePos + 1) % PIPE_CAPACITY, r.count + 1))];
        WakeWaiter(ReadQueue(p), WriteMid(k, p, left));
        return true;
      }
      pipes := pipes[p := pipe.(blockedWrites := pipe.blockedWrites + 1)];
      ParkOn(WriteQueue(p), FullMid(k, p));
      done := false;
    }

    /** One pass of the loop in pipe_read. `got` is how many bytes this call has so far. */
    method PipeTryRead(p: nat, got: nat, max: nat) returns (more: bool, byte: char)
      requires Valid() && Enabled(k, TryRead) && OpOf(k.ops, Current(k)) == Reading(p, got, max) && got < max
      modifies this
      ensures Valid() && k == Next(old(k), TryRead)
      ensures more == (old(pipes[p].ring.count) > 0)
      ensures more ==> Oldest(old(k.pipes[p]), byte)
      ensures k.pipes[p].consumed == old(k.pipes[p].consumed) + if more then [byte] else []
      ensures more ==> OpOf(k.ops, old(current)) == Reading(p, got + 1, max)
      ensures !more ==> OpOf(k.ops, old(current)) == if got > 0 then Idle else Reading(p, 0, max)
    {
      hide QInv, Linked, Queued, PipeOk, LockOk, TriedRead, Parked, Woke, RingInv, NeverWoken, Oldest;
      ReadPass(k, p, got, max);
      KernelCalls.ReadFields(k);
      var pipe := pipes[p];
      var r := pipe.ring;
      more, byte := false, '\0';
      if r.count > 0 {
        more, byte := true, r.buffer[r.readPos];
        pipes := pipes[p := pipe.(ring := Ring(r.buffer, (r.readPos + 1) % PIPE_CAPACITY, r.writePos, r.count - 1))];
        WakeWaiter(WriteQueue(p), ReadMid(k, p, got, max));
      } else if got > 0 {
        k := Next(k, TryRead);
      } else {
        pipes := pipes[p := pipe.(blockedReads := pipe.blockedReads + 1)];
        ParkOn(ReadQueue(p), EmptyMid(k, p));
      }
    }

    /** Entering mutex_lock, pipe_write or pipe_read: nothing is shared yet. */
    ghost method Enter(step: Step)
      requires Valid() && Enabled(k, step) && (step.BeginLock? || step.BeginWrite? || step.BeginRead?)
      modifies this`k
      ensures Valid() && k == Next(old(k), step)
    {
      hide QInv, Linked, Queued, PipeOk, LockOk, RingInv;
      StepSafe(k, step);
      k := Next(k, step);
    }
  }

  // ---- the states in which a pass parks or wakes ---------------------------------------------

  ghost function LockMid(k: Kernel, m: nat): Kernel
    requires k.sched.ring != [] && m < |k.locks|
  {
    Retrying(k, LockQueue(m), Current(k)).(locks := k.locks[m := k.locks[m].(contended := k.locks[m].contended + 1)])
  }

  ghost function WriteMid(k: Kernel, p: nat, left: seq<char>): Kernel
    requires k.sched.ring != [] && p < |k.pipes| && RingOk(k.pipes[p].ring) && left != []
  {
    WithOp(Retrying(k, WriteQueue(p), Current(k)), Current(k), if |left| == 1 then Idle else Writing(p, left[1..]))
    .(pipes := k.pipes[p := Fed(k.pipes[p], left[0])])
  }

  ghost function FullMid(k: Kernel, p: nat): Kernel
    requires k.sched.ring != [] && p < |k.pipes|
  {
    Retrying(k, WriteQueue(p), Current(k)).(pipes :=
      k.pipes[p := k.pipes[p].(blockedWrites := k.pipes[p].blockedWrites + 1)])
  }

  ghost function ReadMid(k: Kernel, p: nat, got: nat, max: nat): Kernel
    requires k.sched.ring != [] && p < |k.pipes| && RingOk(k.pipes[p].ring) && k.pipes[p].ring.count > 0
  {
    WithOp(Retrying(k, ReadQueue(p), Current(k)), Current(k), Reading(p, got + 1, max)).(pipes :=
      k.pipes[p := Drained(k.pipes[p])])
  }

  ghost function EmptyMid(k: Kernel, p: nat): Kernel
    requires k.sched.ring != [] && p < |k.pipes|
  {
    Retrying(k, ReadQueue(p), Current(k)).(pipes :=
      k.pipes[p := k.pipes[p].(blockedReads := k.pipes[p].blockedReads + 1)])
  }

  /** All that ParkOn asks of the state it parks in. */
  ghost predicate MayPark(mid: Kernel, q: QueueId) {
    && SchedModel.Inv(mid.sched) && QK(mid) && Rest(mid) && Current(mid) != 0 && Executing(mid)
    && Parks(OpOf(mid.ops, Current(mid)), q) && NeverWoken(mid.woken, Current(mid))
  }

  lemma LockPass(k: Kernel, m: nat)
    requires Safe(k) && Enabled(k, TryLock) && OpOf(k.ops, Current(k)) == Locking(m)
    ensures k.sched.ring != [] && Safe(Next(k, TryLock))
    ensures !k.locks[m].locked ==> k.locks[m].holders == {}
    ensures !k.locks[m].locked ==>
      var k' := Next(k, TryLock);
      k'.sched == k.sched && k'.queues == k.queues && k'.pipes == k.pipes
      && k'.locks == k.locks[m := k.locks[m].(locked := true, holders := k.locks[m].holders + {Current(k)})]
    ensures k.locks[m].locked ==>
      MayPark(LockMid(k, m), LockQueue(m)) && Next(k, TryLock) == Parked(LockMid(k, m), LockQueue(m))
  {
    hide QInv, PipeOk, Schedule;
    StepSafe(k, TryLock);
    RetrySafe(k, LockQueue(m));
    assert LockOk(k.locks[m]);
    LockPutSafe(Retrying(k, LockQueue(m), Current(k)), m, k.locks[m].(contended := k.locks[m].contended + 1));
  }

  lemma WritePass(k: Kernel, p: nat, left: seq<char>)
    requires Safe(k) && Enabled(k, TryWrite) && OpOf(k.ops, Current(k)) == Writing(p, left)
    ensures k.sched.ring != [] && PipeOk(k.pipes[p]) && RingOk(k.pipes[p].ring)
    ensures k.pipes[p].ring.count < PIPE_CAPACITY ==>
      Safe(WriteMid(k, p, left)) && Executing(WriteMid(k, p, left))
        && Next(k, TryWrite) == Woke(WriteMid(k, p, left), ReadQueue(p))
    ensures k.pipes[p].ring.count >= PIPE_CAPACITY ==>
      MayPark(FullMid(k, p), WriteQueue(p)) && Next(k, TryWrite) == Parked(FullMid(k, p), WriteQueue(p))
  {
    hide QInv, Schedule, LockOk, Contents, Woke, Parked;
    RetrySafe(k, WriteQueue(p));
    PipeAt(k, p);
    CountedOk(k.pipes[p]);
    var k1 := Retrying(k, WriteQueue(p), Current(k));
    if k.pipes[p].ring.count < PIPE_CAPACITY {
      PipePut(k.pipes[p], left[0]);
      MovedMid(k1, if |left| == 1 then Idle else Writing(p, left[1..]), p, Fed(k.pipes[p], left[0]));
    } else {
      PipePutSafe(k1, p, k.pipes[p].(blockedWrites := k.pipes[p].blockedWrites + 1));
    }
  }

  lemma ReadPass(k: Kernel, p: nat, got: nat, max: nat)
    requires Safe(k) && Enabled(k, TryRead) && OpOf(k.ops, Current(k)) == Reading(p, got, max) && got < max
    ensures k.sched.ring != [] && PipeOk(k.pipes[p]) && RingOk(k.pipes[p].ring)
    ensures k.pipes[p].ring.count > 0 ==>
      && Oldest(k.pipes[p], k.pipes[p].ring.buffer[k.pipes[p].ring.readPos])
      && Safe(ReadMid(k, p, got, max)) && Executing(ReadMid(k, p, got, max))
      && Next(k, TryRead) == Woke(ReadMid(k, p, got, max), WriteQueue(p))
    ensures k.pipes[p].ring.count == 0 && got > 0 ==>
      var k' := Next(k, TryRead);
      Safe(k') && k'.sched == k.sched && k'.queues == k.queues && k'.pipes == k.pipes && k'.locks == k.locks
    ensures k.pipes[p].ring.count == 0 && got == 0 ==>
      MayPark(EmptyMid(k, p), ReadQueue(p)) && Next(k, TryRead) == Parked(EmptyMid(k, p), ReadQueue(p))
  {
    hide QInv, Schedule, LockOk, Contents, Woke, Parked;
    RetrySafe(k, ReadQueue(p));
    PipeAt(k, p);
    CountedOk(k.pipes[p]);
    var k1 := Retrying(k, ReadQueue(p), Current(k));
    if k.pipes[p].ring.count > 0 {
      PipeTake(k.pipes[p]);
      OldestByte(k.pipes[p]);
      MovedMid(k1, Reading(p, got + 1, max), p, Drained(k.pipes[p]));
    } else if got > 0 {
      StepSafe(k, TryRead);
    } else {
      PipePutSafe(k1, p, k.pipes[p].(blockedReads := k.pipes[p].blockedReads + 1));
    }
  }

  /** c is the first byte produced that nobody has consumed. */
  ghost predicate Oldest(pipe: Pipe, c: char) {
    |pipe.consumed| < |pipe.produced| && pipe.produced[|pipe.consumed|] == c
  }

  lemma OldestByte(pipe: Pipe)
    requires PipeOk(pipe) && pipe.ring.count > 0
    ensures Oldest(pipe, pipe.ring.buffer[pipe.ring.readPos])
  {
    TakeContents(pipe.ring);
    assert Contents(pipe.ring)[0] == pipe.ring.buffer[pipe.ring.readPos];
  }

  lemma PipeAt(k: Kernel, p: nat)
    requires Safe(k) && p < |k.pipes|
    ensures PipeOk(k.pipes[p]) && RingOk(k.pipes[p].ring)
  {
  }

  lemma MovedMid(k: Kernel, next: Op, p: nat, pipe: Pipe)
    requires Safe(k) && Executing(k) && Current(k) != 0 && NeverWoken(k.woken, Current(k)) && p < |k.pipes|
    requires PipeOk(pipe)
    ensures Safe(WithOp(k, Current(k), next).(pipes := k.pipes[p := pipe]))
  {
    hide QInv, PipeOk, LockOk;
    DoneSafe(k, next);
    PipePutSafe(WithOp(k, Current(k), next), p, pipe);
  }

  // ---- the queues together -----------------------------------------------------------------

  ghost predicate AllQueued(head: map<QueueId, Ptr>, tail: map<QueueId, Ptr>, waitNext: map<Id, Ptr>,
      queues: map<QueueId, seq<Id>>) {
    forall q :: Queued(PtrAt(head, q), PtrAt(tail, q), waitNext, Queue(queues, q))
  }

  /** No task is on two queues: it has only one wait_next field. */
  ghost predicate Apart(queues: map<QueueId, seq<Id>>) {
    forall q, q', t :: t in Queue(queues, q) && t in Queue(queues, q') ==> q == q'
  }

  lemma QInvApart(tasks: map<Id, Task>, ops: map<Id, Op>, queues: map<QueueId, seq<Id>>, woken: map<QueueId, set<Id>>)
    requires QInv(tasks, ops, queues, woken)
    ensures Apart(queues) && QueuesDistinct(queues)
    ensures forall q, t :: t in Queue(queues, q) ==> t in tasks && tasks[t].state == Blocked
  {
    forall q, q', t | t in Queue(queues, q) && t in Queue(queues, q')
      ensures q == q'
    {
      assert Parks(OpOf(ops, t), q) && Parks(OpOf(ops, t), q');
    }
  }

  lemma EnqueueAll(head: map<QueueId, Ptr>, tail: map<QueueId, Ptr>, waitNext: map<Id, Ptr>,
      queues: map<QueueId, seq<Id>>, q: QueueId, t: Id)
    requires AllQueued(head, tail, waitNext, queues) && Apart(queues) && QueuesDistinct(queues)
    requires t in waitNext && forall q' :: t !in Queue(queues, q')
    ensures PtrAt(tail, q) != Nil ==> PtrAt(tail, q).id in waitNext
    ensures var head' := if PtrAt(tail, q) == Nil then head[q := To(t)] else head;
            AllQueued(head', tail[q := To(t)], Chained(PtrAt(tail, q), waitNext, t),
              queues[q := Queue(queues, q) + [t]])
  {
    hide Queued;
    var queue := Queue(queues, q);
    var waitNext', queues' := Chained(PtrAt(tail, q), waitNext, t), queues[q := queue + [t]];
    var head' := if PtrAt(tail, q) == Nil then head[q := To(t)] else head;
    TailIs(PtrAt(head, q), PtrAt(tail, q), waitNext, queue);
    forall q'
      ensures Queued(PtrAt(head', q'), PtrAt(tail[q := To(t)], q'), waitNext', Queue(queues', q'))
    {
      if q' == q {
        EnqueueLinked(PtrAt(head, q), PtrAt(tail, q), waitNext, queue, t);
      } else {
        QueuedFrame(PtrAt(head, q'), PtrAt(tail, q'), waitNext, waitNext', Queue(queues, q'));
      }
    }
  }

  lemma TailIs(head: Ptr, tail: Ptr, waitNext: map<Id, Ptr>, queue: seq<Id>)
    requires Queued(head, tail, waitNext, queue)
    ensures tail == Nil <==> queue == []
    ensures tail != Nil ==> tail.id in queue && tail.id in waitNext
    ensures head == if queue == [] then Nil else To(queue[0])
  {
    if queue != [] {
      QueuedAt(head, tail, waitNext, queue, |queue| - 1);
    }
  }

  lemma DequeueAll(head: map<QueueId, Ptr>, tail: map<QueueId, Ptr>, waitNext: map<Id, Ptr>,
      queues: map<QueueId, seq<Id>>, q: QueueId)
    requires AllQueued(head, tail, waitNext, queues) && Apart(queues) && QueuesDistinct(queues)
    ensures PtrAt(head, q) == if Queue(queues, q) == [] then Nil else To(Queue(queues, q)[0])
    ensures Queue(queues, q) != [] ==> Queue(queues, q)[0] in waitNext
    ensures Queue(queues, q) != [] ==>
      var second := waitNext[Queue(queues, q)[0]];
      AllQueued(head[q := second], if second == Nil then tail[q := Nil] else tail, waitNext[Queue(queues, q)[0] := Nil],
                queues[q := Queue(queues, q)[1..]])
  {
    hide Queued;
    var queue := Queue(queues, q);
    TailIs(PtrAt(head, q), PtrAt(tail, q), waitNext, queue);
    if queue != [] {
      DequeueLinked(PtrAt(head, q), PtrAt(tail, q), waitNext, queue);
      var second, waitNext', queues' := waitNext[queue[0]], waitNext[queue[0] := Nil], queues[q := queue[1..]];
      var tail' := if second == Nil then tail[q := Nil] else tail;
      forall q'
        ensures Queued(PtrAt(head[q := second], q'), PtrAt(tail', q'), waitNext', Queue(queues', q'))
      {
        if q' != q {
          assert queue[0] in queue;
          QueuedFrame(PtrAt(head, q'), PtrAt(tail, q'), waitNext, waitNext', Queue(queues, q'));
        }
      }
    }
  }

  lemma ParkReady(mid: Kernel, q: QueueId, head: map<QueueId, Ptr>, tail: map<QueueId, Ptr>, waitNext: map<Id, Ptr>)
    requires SchedModel.Inv(mid.sched) && QK(mid) && Rest(mid) && Current(mid) != 0 && Executing(mid)
    requires Parks(OpOf(mid.ops, Current(mid)), q) && NeverWoken(mid.woken, Current(mid))
    requires forall q :: Queued(PtrAt(head, q), PtrAt(tail, q), waitNext, Queue(mid.queues, q))
    ensures AllQueued(head, tail, waitNext, mid.queues) && Apart(mid.queues) && QueuesDistinct(mid.queues)
    ensures mid.sched.ring != [] && Current(mid) in mid.sched.tasks
    ensures forall q' :: Current(mid) !in Queue(mid.queues, q')
    ensures RingInv(Park(mid, q).sched) && QK(Park(mid, q)) && Rest(Park(mid, q))
  {
    hide QInv, Queued, PipeOk, LockOk;
    var cur := Current(mid);
    QInvApart(mid.sched.tasks, mid.ops, mid.queues, mid.woken);
    SetTaskInv(mid.sched, cur, mid.sched.tasks[cur].(state := Blocked));
    QPark(mid.sched.tasks, cur, q, mid.ops, mid.queues, mid.woken);
  }

  lemma WakeReady(mid: Kernel, q: QueueId, head: map<QueueId, Ptr>, tail: map<QueueId, Ptr>, waitNext: map<Id, Ptr>)
    requires Safe(mid)
    requires forall q :: Queued(PtrAt(head, q), PtrAt(tail, q), waitNext, Queue(mid.queues, q))
    ensures AllQueued(head, tail, waitNext, mid.queues) && Apart(mid.queues) && QueuesDistinct(mid.queues)
    ensures Queue(mid.queues, q) != [] ==> Queue(mid.queues, q)[0] in mid.sched.tasks
  {
    hide QInv, Queued, PipeOk, LockOk;
    QInvApart(mid.sched.tasks, mid.ops, mid.queues, mid.woken);
    QHead(mid, q);
  }

  /** Freed tasks are on no queue, so no queue loses a link. */
  lemma QueuesSurvive(mid: Kernel, head: map<QueueId, Ptr>, tail: map<QueueId, Ptr>, waitNext: map<Id, Ptr>)
    requires RingInv(mid.sched) && QK(mid)
    requires forall q :: Queued(PtrAt(head, q), PtrAt(tail, q), waitNext, Queue(mid.queues, q))
    ensures forall q ::
      Queued(PtrAt(head, q), PtrAt(tail, q), waitNext - Members(Swept(mid.sched).1.dead), Queue(mid.queues, q))
  {
    hide Queued, Swept, RingInv, QueuesDistinct, BlockedOk, WokenOk;
    ReapFacts(mid.sched);
    var dead := Swept(mid.sched).1.dead;
    forall q
      ensures Queued(PtrAt(head, q), PtrAt(tail, q), waitNext - Members(dead), Queue(mid.queues, q))
    {
      forall t | t in Queue(mid.queues, q) && t in waitNext
        ensures t in waitNext - Members(dead)
      {
        assert mid.sched.tasks[t].state == Blocked;
      }
      QueuedFrame(PtrAt(head, q), PtrAt(tail, q), waitNext, waitNext - Members(dead), Queue(mid.queues, q));
    }
  }

  lemma QueuesSurviveAdd(head: map<QueueId, Ptr>, tail: map<QueueId, Ptr>, waitNext: map<Id, Ptr>, k: Kernel, id: Id)
    requires QK(k) && id !in k.sched.tasks
    requires forall q :: Queued(PtrAt(head, q), PtrAt(tail, q), waitNext, Queue(k.queues, q))
    ensures forall q :: Queued(PtrAt(head, q), PtrAt(tail, q), waitNext[id := Nil], Queue(k.queues, q))
  {
    hide Queued, QueuesDistinct, BlockedOk, WokenOk;
    forall q
      ensures Queued(PtrAt(head, q), PtrAt(tail, q), waitNext[id := Nil], Queue(k.queues, q))
    {
      QueuedFrame(PtrAt(head, q), PtrAt(tail, q), waitNext, waitNext[id := Nil], Queue(k.queues, q));
    }
  }

  lemma NewIdUnused(s: Sched)
    requires RingInv(s)
    ensures s.nextId !in s.tasks && s.nextId !in s.ring && Distinct(s.ring)
  {
    assert s.nextId in s.ring ==> s.nextId in Members(s.ring);
  }

  lemma KillRange(k: Kernel, id: Id)
    requires Safe(k)
    ensures 0 in k.sched.ring && (Findable(k.sched, id) ==> id in k.sched.tasks)
  {
    VisitedInRing(k.sched.ring);
    RingTasks(k.sched);
    hide Visited;
  }

  lemma WakeRing(s: Sched)
    requires RingInv(s)
    ensures 0 in s.ring && RingInv(Wake(s)) && Wake(s).ring == s.ring
  {
    WakeFacts(s);
    hide Wake;
  }

  /** The sweep of the abstract machine, in the terms the loop leaves behind. */
  lemma SweptIs(s: Sched)
    requires RingInv(s) && (forall t :: t in Wake(s).ring ==> t in Wake(s).tasks) && Wake(s).ring != []
    ensures Swept(s).1 == FullScan(Wake(s))
    ensures Swept(s).0.ring == Swept(s).1.kept + Swept(s).1.rest
    ensures Swept(s).0.tasks == Without(Wake(s).tasks, Swept(s).1.dead)
    ensures Swept(s).0.tasks.Keys == s.tasks.Keys - Members(Swept(s).1.dead)
    ensures Swept(s).0.ring != [] && Swept(s).0.ring[0] == s.ring[0] && s.ring[0] in Swept(s).0.tasks
    ensures Swept(s).0.ticks == s.ticks && Swept(s).0.nextId == s.nextId && Swept(s).0.switches == s.switches
    ensures 0 in Swept(s).0.tasks
  {
    SweptFacts(s);
    SweptKeys(s);
    hide RingInv, ScanFrom;
    assert 0 in Members(Swept(s).0.ring) && s.ring[0] in Members(Swept(s).0.ring);
  }

  /** Which task it switches to. */
  lemma ChosenIs(s: Sched)
    requires RingInv(s) && Swept(s).0.ring != [] && Swept(s).0.ring[0] in Swept(s).0.tasks
    ensures var swept, r := Swept(s).0, Swept(s).1;
            && (r.found ==> Target(s) == |r.kept| < |swept.ring| && r.rest != [] && swept.ring[Target(s)] == r.rest[0])
            && (!r.found && swept.tasks[swept.ring[0]].state == Running ==> Target(s) == 0)
            && (!r.found && swept.tasks[swept.ring[0]].state != Running ==>
                 0 < Target(s) < |swept.ring| && swept.ring[Target(s)] == 0)
    ensures Swept(s).1.found ==> Target(s) > 0
  {
    SweptFacts(s);
    TargetFacts(s);
    SweptInv(s);
    SweptRing(s);
    hide Swept, RingInv;
    var swept := Swept(s).0;
    if !Swept(s).1.found && swept.tasks[swept.ring[0]].state != Running {
      assert swept.ring[IndexOf(swept.ring, 0)] == 0;
    }
  }

  lemma StayIs(s: Sched)
    requires RingInv(s) && Target(s) == 0
    ensures Schedule(s) == Swept(s).0
  {
  }

  lemma SweptRing(s: Sched)
    requires RingInv(s)
    ensures Swept(s).0.ring == Swept(s).1.kept + Swept(s).1.rest
  {
  }

  /** The switch of the abstract machine, field by field. */
  lemma SwitchIs(s: Sched, next: map<Id, Id>)
    requires RingInv(s) && Linked(next, Swept(s).0.ring) && 0 < Target(s) < |Swept(s).0.ring|
    ensures var swept, s' := Swept(s).0, Schedule(s);
            && s'.ring != [] && s'.ring[0] == swept.ring[Target(s)] && Linked(next, s'.ring)
            && swept.ring[0] in swept.tasks && s'.ring[0] in swept.tasks && swept.ring[0] != s'.ring[0]
            && s'.tasks ==
                 (if swept.tasks[swept.ring[0]].state == Running then SetState(swept.tasks, swept.ring[0], Ready)
                   else swept.tasks)
                           [s'.ring[0] := swept.tasks[s'.ring[0]].(state := Running)]
            && s'.switches == swept.switches + 1 && s'.ticks == swept.ticks && s'.nextId == swept.nextId
            && s'.tasks.Keys == swept.tasks.Keys
  {
    hide Swept, Target, Linked, Distinct;
    TargetFacts(s);
    SweptInv(s);
    RotateLinked(next, Swept(s).0.ring, Target(s));
    SwitchTasks(Swept(s).0, Target(s), Schedule(s));
  }

  lemma RingTasks(s: Sched)
    requires RingInv(s)
    ensures s.ring != [] && (forall t :: t in s.ring ==> t in s.tasks) && s.ring[0] in s.tasks && 0 in s.ring
    ensures 0 in s.tasks
  {
    assert forall t :: t in s.ring ==> t in Members(s.ring);
  }
}
