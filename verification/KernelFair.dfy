/**
 Round-robin fairness over whole runs.
 */
module KernelFair {
  import opened Seqs
  import opened SchedModel
  import opened KernelModel
  import opened KernelSteps
  import opened KernelSafety

  /** The step ends in a call of task_schedule. */
  ghost predicate Reschedules(k: Kernel, step: Step)
    requires Safe(k) && Enabled(k, step)
  {
    var op := OpOf(k.ops, Current(k));
    match step
    case Yield => true
    case TryLock => k.locks[op.lock].locked
    case TryWrite => k.pipes[op.pipe].ring.count >= PIPE_CAPACITY
    case TryRead => op.got < op.max && op.got == 0 && k.pipes[op.pipe].ring.count == 0
    case _ => false
  }

  /** The scheduler's state at that call: as it was, except that the current task may have blocked. */
  ghost function Entering(k: Kernel, step: Step): Sched
    requires Safe(k)
  {
    if step == Yield then k.sched
    else k.sched.(tasks := SetState(k.sched.tasks, Current(k), Blocked))
  }

  /** t is READY and waiting for its turn. */
  ghost predicate Waits(k: Kernel, t: Id)
    requires Safe(k)
  {
    t in k.sched.ring && t != Current(k) && t in k.sched.tasks && k.sched.tasks[t].state == Ready
  }

  lemma EnteringInv(k: Kernel, step: Step)
    requires Safe(k) && Enabled(k, step) && Reschedules(k, step)
    ensures RingInv(Entering(k, step)) && Entering(k, step).ring == k.sched.ring
    ensures forall t :: t in k.sched.tasks && t != Current(k) ==> Entering(k, step).tasks[t] == k.sched.tasks[t]
  {
    hide PipeOk, LockOk, QInv;
    if step != Yield {
      SetTaskInv(k.sched, Current(k), k.sched.tasks[Current(k)].(state := Blocked));
    }
  }

  lemma StepSchedules(k: Kernel, step: Step)
    requires Safe(k) && Enabled(k, step) && Reschedules(k, step) && RingInv(Entering(k, step))
    ensures Next(k, step).sched == Schedule(Entering(k, step))
  {
    hide Schedule, QInv, RingOk, Contents;
    var op := OpOf(k.ops, Current(k));
    if step == TryWrite || step == TryRead {
      assert PipeOk(k.pipes[op.pipe]);
    }
  }

  lemma StepKeepsRing(k: Kernel, step: Step)
    requires Safe(k) && Enabled(k, step) && !Reschedules(k, step) && step != Create
    ensures Next(k, step).sched.ring == k.sched.ring
  {
    hide Schedule, QInv, RingOk, Contents, LockOk;
  }

  /** Number of calls of task_schedule in a run. */
  ghost function Calls(k: Kernel, steps: seq<Step>): nat
    requires Safe(k) && CanRun(k, steps)
    decreases |steps|
  {
    if steps == [] then 0
    else
      StepSafe(k, steps[0]);
      (if Reschedules(k, steps[0]) then 1 else 0) + Calls(Next(k, steps[0]), steps[1..])
  }

  /** t is READY and not running in every state of the run, and no task is created meanwhile. */
  ghost predicate WaitsThrough(k: Kernel, steps: seq<Step>, t: Id)
    requires Safe(k) && CanRun(k, steps)
    decreases |steps|
  {
    && Waits(k, t)
    && (steps != [] ==> steps[0] != Create && (StepSafe(k, steps[0]); WaitsThrough(Next(k, steps[0]), steps[1..], t)))
  }

  /** One step: the ring distance of a waiting task never grows, and falls at every call. */
  lemma StepDistance(k: Kernel, step: Step, t: Id)
    requires Safe(k) && Enabled(k, step) && step != Create && Waits(k, t) && |k.sched.ring| <= GUARD + 1
    requires Safe(Next(k, step)) && Waits(Next(k, step), t)
    ensures Distance(Next(k, step).sched, t) + (if Reschedules(k, step) then 1 else 0) <= Distance(k.sched, t)
    ensures |Next(k, step).sched.ring| <= GUARD + 1
  {
    hide QInv, PipeOk, LockOk, Schedule, Next, Reschedules, Enabled;
    if Reschedules(k, step) {
      EnteringInv(k, step);
      StepSchedules(k, step);
      DistanceFalls(Entering(k, step), t);
    } else {
      StepKeepsRing(k, step);
    }
  }

  /** With at most 65 tasks, a task that stays READY waits through fewer calls of task_schedule than
      its ring distance: it runs within ring-length minus one calls. */
  lemma {:induction false} Fairness(k: Kernel, steps: seq<Step>, t: Id)
    requires Safe(k) && CanRun(k, steps) && WaitsThrough(k, steps, t) && |k.sched.ring| <= GUARD + 1
    ensures Calls(k, steps) < Distance(k.sched, t) < |k.sched.ring|
    decreases |steps|
  {
    hide Safe, Next, Reschedules, Enabled;
    WaitingDistance(k, t);
    if steps != [] {
      StepSafe(k, steps[0]);
      var k' := Next(k, steps[0]);
      WaitingDistance(k', t);
      StepDistance(k, steps[0], t);
      Fairness(k', steps[1..], t);
    }
  }

  lemma WaitingDistance(k: Kernel, t: Id)
    requires Safe(k) && Waits(k, t)
    ensures 0 < Distance(k.sched, t) < |k.sched.ring|
  {
  }
}
