/**
 How long task_sleep sleeps, over every interleaving.
 */
module KernelSleep {
  import opened Seqs
  import opened SchedModel
  import opened KernelModel
  import opened KernelSteps
  import opened KernelSafety
  import opened KernelFair

  /** Task t is SLEEPING until tick `wake`. */
  ghost predicate Asleep(k: Kernel, t: Id, wake: nat) {
    t in k.sched.tasks && k.sched.tasks[t] == Task(Sleeping, wake)
  }

  /** Nobody kills t, and task_schedule is not called at tick `wake` or later. */
  ghost predicate LeftAlone(k: Kernel, steps: seq<Step>, t: Id, wake: nat)
    requires Safe(k) && CanRun(k, steps)
    decreases |steps|
  {
    steps != [] ==>
      && steps[0] != Kill(t) && (Reschedules(k, steps[0]) ==> k.sched.ticks < wake)
      && (StepSafe(k, steps[0]); LeftAlone(Next(k, steps[0]), steps[1..], t, wake))
  }

  /** A step without a call of task_schedule changes nothing about a task that is asleep, unless it kills it. */
  lemma QuietStep(k: Kernel, step: Step, t: Id, wake: nat)
    requires Safe(k) && Enabled(k, step) && Asleep(k, t, wake) && !Reschedules(k, step) && step != Kill(t)
    ensures Asleep(Next(k, step), t, wake)
  {
    hide Schedule, PipeOk, LockOk, QueuesDistinct, BlockedOk, WokenOk;
  }

  /** A call of task_schedule wakes it exactly when its time has come. */
  lemma WakingStep(k: Kernel, step: Step, t: Id, wake: nat)
    requires Safe(k) && Enabled(k, step) && Asleep(k, t, wake) && Reschedules(k, step)
    ensures k.sched.ticks < wake ==> Asleep(Next(k, step), t, wake)
    ensures wake <= k.sched.ticks && |k.sched.ring| <= GUARD + 1 ==>
      t in Next(k, step).sched.tasks && Runnable(Next(k, step).sched.tasks[t])
    ensures Next(k, step).sched.ticks == k.sched.ticks
  {
    hide QInv, PipeOk, LockOk, Schedule, Next, Visited;
    EnteringInv(k, step);
    StepSchedules(k, step);
    assert Asleep(k, t, wake) && t == Current(k) ==> step == Yield;
    ScheduleSleepers(Entering(k, step), t);
    ScheduleFacts(Entering(k, step));
  }

  lemma TicksGrow(k: Kernel, step: Step)
    requires Safe(k) && Enabled(k, step) && !Reschedules(k, step)
    ensures k.sched.ticks <= Next(k, step).sched.ticks
  {
    hide Schedule, QInv, PipeOk, LockOk;
  }

  lemma {:induction false} StillAsleep(k: Kernel, steps: seq<Step>, t: Id, wake: nat)
    requires Safe(k) && CanRun(k, steps) && Asleep(k, t, wake) && LeftAlone(k, steps, t, wake)
    ensures Asleep(After(k, steps), t, wake)
    decreases |steps|
  {
    hide Safe, Next, Enabled, Reschedules, Asleep;
    if steps != [] {
      StepSafe(k, steps[0]);
      if Reschedules(k, steps[0]) {
        WakingStep(k, steps[0], t, wake);
      } else {
        QuietStep(k, steps[0], t, wake);
      }
      StillAsleep(Next(k, steps[0]), steps[1..], t, wake);
    }
  }

  /** Nobody kills t. */
  predicate Spared(steps: seq<Step>, t: Id) { Kill(t) !in steps }

  lemma {:induction false} ClockRuns(k: Kernel, steps: seq<Step>)
    requires Safe(k) && CanRun(k, steps)
    ensures k.sched.ticks <= After(k, steps).sched.ticks
    decreases |steps|
  {
    hide Safe, Next, Enabled, Reschedules;
    if steps != [] {
      StepSafe(k, steps[0]);
      StepClock(k, steps[0]);
      ClockRuns(Next(k, steps[0]), steps[1..]);
    }
  }

  lemma StepClock(k: Kernel, step: Step)
    requires Safe(k) && Enabled(k, step)
    ensures k.sched.ticks <= Next(k, step).sched.ticks
  {
    hide QInv, PipeOk, LockOk, Schedule, Next, Reschedules, Enabled;
    if Reschedules(k, step) {
      EnteringInv(k, step);
      StepSchedules(k, step);
      ScheduleFacts(Entering(k, step));
    } else {
      TicksGrow(k, step);
    }
  }

  /** As long as the clock has not reached `wake`, nothing but task_kill ends the sleep. */
  lemma {:induction false} EarlyIsAlone(k: Kernel, steps: seq<Step>, t: Id, wake: nat)
    requires Safe(k) && CanRun(k, steps) && Spared(steps, t) && After(k, steps).sched.ticks < wake
    ensures LeftAlone(k, steps, t, wake)
    decreases |steps|
  {
    hide Safe, Next, Enabled, Reschedules;
    if steps != [] {
      StepSafe(k, steps[0]);
      ClockRuns(k, steps);
      assert steps[0] in steps && forall s :: s in steps[1..] ==> s in steps;
      EarlyIsAlone(Next(k, steps[0]), steps[1..], t, wake);
    }
  }

  lemma FallsAsleep(k: Kernel, d: nat)
    requires Safe(k) && Enabled(k, Sleep(d))
    ensures Asleep(Next(k, Sleep(d)), Current(k), k.sched.ticks + d)
  {
    hide Schedule, QInv, PipeOk, LockOk;
  }

  /** task_sleep(d) at tick T: whatever else happens, the caller is SLEEPING in every state with ticks < T + d unless
      it is killed. */
  lemma SleepsLongEnough(k: Kernel, d: nat, steps: seq<Step>)
    requires Safe(k) && Enabled(k, Sleep(d)) && Safe(Next(k, Sleep(d))) && CanRun(Next(k, Sleep(d)), steps)
    requires Spared(steps, Current(k))
    ensures var k', t := After(Next(k, Sleep(d)), steps), Current(k);
            k'.sched.ticks < k.sched.ticks + d ==> t in k'.sched.tasks && k'.sched.tasks[t].state == Sleeping
  {
    hide Safe, CanRun, After, LeftAlone, Next, Enabled;
    HasCurrent(k);
    FallsAsleep(k, d);
    var k1, t, wake := Next(k, Sleep(d)), Current(k), k.sched.ticks + d;
    if After(k1, steps).sched.ticks < wake {
      EarlyIsAlone(k1, steps, t, wake);
      StillAsleep(k1, steps, t, wake);
    }
  }

  /** And with at most 65 tasks it is READY or RUNNING after the first call of task_schedule at tick T + d or later. */
  lemma WakesInTime(k: Kernel, d: nat, steps: seq<Step>, step: Step)
    requires Safe(k) && Enabled(k, Sleep(d)) && Safe(Next(k, Sleep(d))) && CanRun(Next(k, Sleep(d)), steps)
    requires LeftAlone(Next(k, Sleep(d)), steps, Current(k), k.sched.ticks + d)
    requires var k1 := After(Next(k, Sleep(d)), steps);
             && Enabled(k1, step) && Reschedules(k1, step)
             && k.sched.ticks + d <= k1.sched.ticks && |k1.sched.ring| <= GUARD + 1
    ensures var k2, t := Next(After(Next(k, Sleep(d)), steps), step), Current(k);
            t in k2.sched.tasks && Runnable(k2.sched.tasks[t])
  {
    hide Safe, CanRun, After, LeftAlone, Reschedules, Next, Enabled;
    HasCurrent(k);
    FallsAsleep(k, d);
    var k0, t, wake := Next(k, Sleep(d)), Current(k), k.sched.ticks + d;
    StillAsleep(k0, steps, t, wake);
    WakingStep(After(k0, steps), step, t, wake);
  }
}
