/**
 The round-robin scheduler as a state machine: the ring of tasks, their states, and what one call
 of task_schedule does to them.

 `ring` lists the tasks in the order of their next pointers, starting at the running one, so
 ring[0] is `current` and the ring distance of a task is its index. Task 0 is the fallback.
 */
module SchedModel {
  import opened Seqs

  type Id = nat

  datatype State = Ready | Running | Sleeping | Blocked | Finished

  datatype Task = Task(state: State, wakeTick: nat)

  datatype Sched = Sched(
    ring: seq<Id>, tasks: map<Id, Task>, ticks: nat, nextId: nat, switches: nat, reaped: seq<Id>)

  /** Bound on the candidates one call of task_schedule looks at. */
  const GUARD: nat := 64

  ghost function Members(ring: seq<Id>): set<Id> {
    set t | t in ring
  }

  /** The invariant that holds even inside a step, when the current task has just marked itself
      SLEEPING, BLOCKED or FINISHED on its way into the scheduler. */
  ghost predicate RingInv(s: Sched) {
    && s.ring != [] && Distinct(s.ring) && 0 in s.ring
    && s.tasks.Keys == Members(s.ring)
    && (s.tasks[0].state == Ready || s.tasks[0].state == Running)
    && (s.ring[0] == 0 ==> s.tasks[0].state == Running)
    && (forall t :: t in s.tasks && s.tasks[t].state == Running ==> t == s.ring[0])
    && (forall t :: t in s.tasks || t in s.reaped ==> t < s.nextId)
    && Distinct(s.reaped) && (forall t :: t in s.reaped ==> t !in s.tasks)
  }

  /** The state invariant between steps. */
  ghost predicate Inv(s: Sched) {
    RingInv(s) && s.tasks[s.ring[0]].state != Ready && s.tasks[s.ring[0]].state != Blocked
  }

  /** Exactly one task is RUNNING and it is the current one. */
  ghost predicate OneRunning(s: Sched)
    requires RingInv(s)
  {
    forall t :: t in s.tasks ==> (s.tasks[t].state == Running <==> t == s.ring[0])
  }

  // ---- wake_sleepers ---------------------------------------------------------------

  /** The tasks wake_sleepers visits: at most 65, starting at task 0. */
  ghost function Visited(ring: seq<Id>): seq<Id>
    requires 0 in ring
  {
    FromZero(ring)[..LapLength(ring)]
  }

  ghost function FromZero(ring: seq<Id>): (r: seq<Id>)
    requires 0 in ring
    ensures |r| == |ring|
  {
    Rotate(ring, IndexOf(ring, 0))
  }

  function LapLength(ring: seq<Id>): (n: nat)
    ensures n <= |ring|
  {
    if |ring| <= GUARD + 1 then |ring| else GUARD + 1
  }

  function Woken(t: Task, ticks: nat): Task {
    if t.state == Sleeping && ticks >= t.wakeTick then t.(state := Ready) else t
  }

  ghost function Wake(s: Sched): (s': Sched)
    requires 0 in s.ring
  {
    s.(tasks := map t | t in s.tasks :: if t in Visited(s.ring) then Woken(s.tasks[t], s.ticks) else s.tasks[t])
  }

  // ---- the scan --------------------------------------------------------------------

  /** `kept` are the tasks already passed, `rest` those still ahead, `dead` those reaped. */
  datatype Scan = Scan(kept: seq<Id>, rest: seq<Id>, dead: seq<Id>, found: bool)

  ghost function ScanFrom(tasks: map<Id, Task>, kept: seq<Id>, rest: seq<Id>, dead: seq<Id>, guard: nat): (r: Scan)
    requires forall t :: t in rest ==> t in tasks
    decreases guard
  {
    if guard == 0 || rest == [] then Scan(kept, rest, dead, false)
    else if tasks[rest[0]].state == Finished then ScanFrom(tasks, kept, rest[1..], dead + [rest[0]], guard - 1)
    else if tasks[rest[0]].state == Ready then Scan(kept, rest, dead, true)
    else ScanFrom(tasks, kept + [rest[0]], rest[1..], dead, guard - 1)
  }

  ghost function Bag(kept: seq<Id>, rest: seq<Id>, dead: seq<Id>): multiset<Id> { multiset(kept + rest + dead) }

  /** The scan only moves tasks between its three lists. */
  lemma {:induction false} ScanRearranges(tasks: map<Id, Task>, kept: seq<Id>, rest: seq<Id>, dead: seq<Id>, guard: nat)
    requires forall t :: t in rest ==> t in tasks
    ensures var r := ScanFrom(tasks, kept, rest, dead, guard);
            Bag(r.kept, r.rest, r.dead) == Bag(kept, rest, dead)
    decreases guard
  {
    hide Bag;
    if guard > 0 && rest != [] && tasks[rest[0]].state != Ready {
      if tasks[rest[0]].state == Finished {
        ScanRearranges(tasks, kept, rest[1..], dead + [rest[0]], guard - 1);
        SetAside(kept, rest, dead);
      } else {
        ScanRearranges(tasks, kept + [rest[0]], rest[1..], dead, guard - 1);
        PassBy(kept, rest, dead);
      }
    }
  }

  lemma PassBy(kept: seq<Id>, rest: seq<Id>, dead: seq<Id>)
    requires rest != []
    ensures Bag(kept + [rest[0]], rest[1..], dead) == Bag(kept, rest, dead)
  {
    assert kept + [rest[0]] + rest[1..] + dead == kept + rest + dead;
  }

  lemma SetAside(kept: seq<Id>, rest: seq<Id>, dead: seq<Id>)
    requires rest != []
    ensures Bag(kept, rest[1..], dead + [rest[0]]) == Bag(kept, rest, dead)
  {
    assert rest == [rest[0]] + rest[1..];
    assert multiset(kept + rest + dead) == multiset(kept) + (multiset{rest[0]} + multiset(rest[1..])) + multiset(dead);
  }

  /** It reaps FINISHED tasks only and stops at a READY one. */
  lemma {:induction false} ScanReaps(tasks: map<Id, Task>, kept: seq<Id>, rest: seq<Id>, dead: seq<Id>, guard: nat)
    requires forall t :: t in rest ==> t in tasks
    requires forall t :: t in dead ==> t in tasks && tasks[t].state == Finished
    ensures var r := ScanFrom(tasks, kept, rest, dead, guard);
            && (forall t :: t in r.dead ==> t in tasks && tasks[t].state == Finished)
            && (r.found ==> r.rest != [] && r.rest[0] in tasks && tasks[r.rest[0]].state == Ready)
    decreases guard
  {
    if guard > 0 && rest != [] && tasks[rest[0]].state != Ready {
      if tasks[rest[0]].state == Finished {
        ScanReaps(tasks, kept, rest[1..], dead + [rest[0]], guard - 1);
      } else {
        ScanReaps(tasks, kept + [rest[0]], rest[1..], dead, guard - 1);
      }
    }
  }

  /** What is still ahead when it stops is a tail of what was ahead when it started. */
  lemma {:induction false} ScanOrder(tasks: map<Id, Task>, kept: seq<Id>, rest: seq<Id>, dead: seq<Id>, guard: nat)
    requires forall t :: t in rest ==> t in tasks
    ensures var r := ScanFrom(tasks, kept, rest, dead, guard);
            kept <= r.kept && |r.rest| <= |rest| && r.rest == rest[|rest| - |r.rest|..]
    decreases guard
  {
    if guard > 0 && rest != [] && tasks[rest[0]].state != Ready {
      if tasks[rest[0]].state == Finished {
        ScanOrder(tasks, kept, rest[1..], dead + [rest[0]], guard - 1);
      } else {
        ScanOrder(tasks, kept + [rest[0]], rest[1..], dead, guard - 1);
      }
    }
  }

  /** A READY task within reach of the guard is never skipped: the scan stops at or before it. */
  lemma {:induction false} ScanReaches(tasks: map<Id, Task>, kept: seq<Id>, rest: seq<Id>, dead: seq<Id>, guard: nat,
      i: nat)
    requires forall t :: t in rest ==> t in tasks
    requires i < |rest| && i < guard && tasks[rest[i]].state == Ready
    ensures var r := ScanFrom(tasks, kept, rest, dead, guard);
            r.found && |r.rest| >= |rest| - i
    decreases guard
  {
    if i > 0 && tasks[rest[0]].state != Ready {
      var kept', dead' := if tasks[rest[0]].state == Finished then kept else kept + [rest[0]],
                          if tasks[rest[0]].state == Finished then dead + [rest[0]] else dead;
      ScanReaches(tasks, kept', rest[1..], dead', guard - 1, i - 1);
    }
  }

  // ---- task_schedule ---------------------------------------------------------------

  ghost function Without(tasks: map<Id, Task>, dead: seq<Id>): map<Id, Task> {
    map t | t in tasks && t !in dead :: tasks[t]
  }

  ghost function SetState(tasks: map<Id, Task>, t: Id, st: State): map<Id, Task>
    requires t in tasks
  {
    tasks[t := tasks[t].(state := st)]
  }

  /** Hand the CPU to the j-th task of the ring. */
  ghost function SwitchTo(s: Sched, j: nat): Sched
    requires 0 < j < |s.ring| && forall t :: t in s.ring ==> t in s.tasks
  {
    var cur, next := s.ring[0], s.ring[j];
    var yielded := if s.tasks[cur].state == Running then SetState(s.tasks, cur, Ready) else s.tasks;
    s.(ring := Rotate(s.ring, j), tasks := SetState(yielded, next, Running), switches := s.switches + 1)
  }

  /** After waking sleepers and scanning: the ring without the reaped tasks. */
  ghost function Swept(s: Sched): (r: (Sched, Scan))
    requires RingInv(s)
  {
    var w := Wake(s);
    assert forall t :: t in s.ring ==> t in s.tasks;
    var r := ScanFrom(w.tasks, [w.ring[0]], w.ring[1..], [], GUARD);
    (w.(ring := r.kept + r.rest, tasks := Without(w.tasks, r.dead), reaped := w.reaped + r.dead), r)
  }

  /** Where task_schedule goes after the sweep: the READY task the scan stopped at, or else nowhere
      (0) when the current task can carry on, or else task 0. */
  ghost function Target(s: Sched): (j: nat)
    requires RingInv(s)
  {
    SweptFacts(s);
    var (swept, r) := Swept(s);
    if r.found then |r.kept|
    else if swept.tasks[swept.ring[0]].state == Running then 0
    else IndexOf(swept.ring, 0)
  }

  /** task_schedule */
  ghost function Schedule(s: Sched): (s': Sched)
    requires RingInv(s)
  {
    TargetFacts(s);
    if Target(s) == 0 then Swept(s).0 else SwitchTo(Swept(s).0, Target(s))
  }

  lemma WakeFacts(s: Sched)
    requires RingInv(s)
    ensures var w := Wake(s);
            && w.tasks.Keys == s.tasks.Keys && w.ring == s.ring
            && (forall t :: t in s.tasks ==>
                 w.tasks[t] == s.tasks[t]
                   || (s.tasks[t].state == Sleeping && w.tasks[t] == s.tasks[t].(state := Ready)))
  {
  }

  /** The sweep splits the ring into the tasks that stay and the tasks that are reaped. */
  lemma SweepSplits(ring: seq<Id>, tasks: map<Id, Task>)
    requires ring != [] && Distinct(ring) && forall t :: t in ring ==> t in tasks
    ensures var r := ScanFrom(tasks, [ring[0]], ring[1..], [], GUARD);
            && Distinct(r.kept + r.rest) && Distinct(r.dead)
            && (forall t :: t in r.kept + r.rest ==> t in ring && t !in r.dead)
            && (forall t :: t in ring ==> t in r.kept + r.rest || t in r.dead)
            && (forall t :: t in r.dead ==> t in ring && tasks[t].state == Finished)
            && (r.found ==> r.rest != [] && tasks[r.rest[0]].state == Ready)
            && r.kept != [] && r.kept[0] == ring[0]
  {
    hide ScanFrom, Distinct;
    var r := ScanFrom(tasks, [ring[0]], ring[1..], [], GUARD);
    ScanRearranges(tasks, [ring[0]], ring[1..], [], GUARD);
    ScanReaps(tasks, [ring[0]], ring[1..], [], GUARD);
    ScanOrder(tasks, [ring[0]], ring[1..], [], GUARD);
    assert [ring[0]] + ring[1..] + [] == ring;
    SplitRing(ring, r.kept + r.rest, r.dead);
  }

  /** What the sweep leaves: a ring of live tasks that still holds task 0 and current. */
  lemma SweptFacts(s: Sched)
    requires RingInv(s)
    ensures var (swept, r) := Swept(s);
            && swept.ring != [] && swept.ring[0] == s.ring[0] && Distinct(swept.ring) && 0 in swept.ring
            && swept.tasks.Keys == Members(swept.ring)
            && (forall t :: t in swept.tasks ==> t in s.tasks && swept.tasks[t] == Wake(s).tasks[t])
            && 0 < |r.kept| && (r.found ==> |r.kept| < |swept.ring| && swept.tasks[swept.ring[|r.kept|]].state == Ready)
            && (swept.tasks[swept.ring[0]].state != Running ==> swept.ring[0] != 0)
  {
    hide Wake, ScanFrom;
    WakeFacts(s);
    assert forall t :: t in s.ring ==> t in s.tasks;
    SweepSplits(s.ring, Wake(s).tasks);
  }

  /** The reaper frees FINISHED tasks only, never the current one and never task 0. */
  lemma ReapFacts(s: Sched)
    requires RingInv(s)
    ensures var dead := Swept(s).1.dead;
            && Distinct(dead)
            && (forall t :: t in dead ==> t in s.tasks && s.tasks[t].state == Finished && t != s.ring[0] && t != 0)
            && (forall t :: t in s.tasks && t !in dead ==> t in Swept(s).0.ring)
            && (forall t :: t in dead ==> t !in Swept(s).0.ring)
  {
    hide Wake, ScanFrom;
    WakeFacts(s);
    assert forall t :: t in s.ring ==> t in s.tasks;
    SweepSplits(s.ring, Wake(s).tasks);
  }

  /** The new RUNNING task, and the old one if it was still runnable; nobody else changes. */
  lemma SwitchTasks(s: Sched, j: nat, s': Sched)
    requires RingInv(s) && 0 < j < |s.ring| && s' == SwitchTo(s, j)
    ensures s'.ring == Rotate(s.ring, j) && s'.ring[0] == s.ring[j] != s.ring[0]
    ensures s'.tasks.Keys == s.tasks.Keys && s'.reaped == s.reaped && s'.ticks == s.ticks && s'.nextId == s.nextId
    ensures s'.tasks[s.ring[j]] == s.tasks[s.ring[j]].(state := Running)
    ensures s'.tasks[s.ring[0]] ==
      if s.tasks[s.ring[0]].state == Running then s.tasks[s.ring[0]].(state := Ready) else s.tasks[s.ring[0]]
    ensures forall t :: t in s.tasks && t != s.ring[0] && t != s.ring[j] ==> s'.tasks[t] == s.tasks[t]
  {
  }

  /** Handing over the CPU leaves exactly one RUNNING task, the one it went to. */
  lemma SwitchInv(s: Sched, j: nat, s': Sched)
    requires RingInv(s) && 0 < j < |s.ring| && s' == SwitchTo(s, j) && s.tasks[s.ring[j]].state == Ready
    ensures Inv(s') && OneRunning(s')
  {
    hide SwitchTo, Rotate, Distinct;
    SwitchTasks(s, j, s');
    RotateSame(s.ring, j);
    RotateDistinct(s.ring, j);
    assert Members(s'.ring) == Members(s.ring);
    assert forall t :: t in s'.tasks && s'.tasks[t].state == Running ==> t == s'.ring[0];
  }

  /** A switch to a READY task keeps every promise other tasks rely on. */
  lemma SwitchUndisturbed(s: Sched, j: nat, s': Sched, t: Id)
    requires RingInv(s) && 0 < j < |s.ring| && s' == SwitchTo(s, j) && s.tasks[s.ring[j]].state == Ready
    requires t in s.tasks
    ensures t in s'.tasks && Undisturbed(s.tasks[t], s'.tasks[t])
  {
    SwitchTasks(s, j, s');
    hide SwitchTo, Rotate, Distinct;
  }

  lemma SweptInv(s: Sched)
    requires RingInv(s)
    ensures RingInv(Swept(s).0)
  {
    hide Wake, ScanFrom, Swept, Distinct;
    SweptFacts(s);
    ReapFacts(s);
    WakeFacts(s);
    SweptKeys(s);
    DistinctConcat(s.reaped, Swept(s).1.dead);
  }

  /** Task 0 stays schedulable: when it is not the current task it is READY, so falling back on it
      is always a legal switch. */
  lemma FallbackIsReady(s: Sched)
    requires RingInv(s) && s.tasks[s.ring[0]].state != Running
    ensures s.ring[0] != 0 && s.tasks[0].state == Ready
    ensures IndexOf(s.ring, 0) > 0
  {
  }

  predicate Runnable(t: Task) { t.state == Ready || t.state == Running }

  /** The part of a task's state other tasks rely on: a schedule only moves tasks among READY, RUNNING
      and SLEEPING. */
  ghost predicate Undisturbed(a: Task, b: Task) {
    && (a.state == Blocked <==> b.state == Blocked)
    && (a.state == Finished <==> b.state == Finished)
    && (Runnable(a) ==> Runnable(b))
    && a.wakeTick == b.wakeTick
  }

  lemma TargetFacts(s: Sched)
    requires RingInv(s)
    ensures forall t :: t in Swept(s).0.ring ==> t in Swept(s).0.tasks
    ensures Target(s) < |Swept(s).0.ring|
    ensures Target(s) > 0 ==> Swept(s).0.tasks[Swept(s).0.ring[Target(s)]].state == Ready
    ensures Target(s) == 0 ==>
      Swept(s).0.ring[0] in Swept(s).0.tasks && Swept(s).0.tasks[Swept(s).0.ring[0]].state == Running
  {
    SweptFacts(s);
    SweptInv(s);
    hide Swept;
    var swept := Swept(s).0;
    if !Swept(s).1.found && swept.tasks[swept.ring[0]].state != Running {
      FallbackIsReady(swept);
    }
  }

  /** task_schedule keeps the ring invariant, and afterwards exactly one task, current, is RUNNING. */
  lemma ScheduleInv(s: Sched)
    requires RingInv(s)
    ensures Inv(Schedule(s)) && OneRunning(Schedule(s))
  {
    hide Swept, Target, SwitchTo, Distinct;
    TargetFacts(s);
    var j := Target(s);
    SweptInv(s);
    SweptFacts(s);
    if j > 0 {
      SwitchInv(Swept(s).0, j, Schedule(s));
    }
  }

  lemma SweptUndisturbed(s: Sched, t: Id)
    requires RingInv(s) && t in Swept(s).0.tasks
    ensures t in s.tasks && Undisturbed(s.tasks[t], Swept(s).0.tasks[t])
    ensures s.tasks[t].state == Ready ==> Swept(s).0.tasks[t].state == Ready
  {
    hide Swept, Wake, RingInv, Distinct;
    SweptFacts(s);
    WakeFacts(s);
  }

  lemma ScheduleKeys(s: Sched)
    requires RingInv(s)
    ensures Schedule(s).reaped == s.reaped + Swept(s).1.dead
    ensures Schedule(s).ticks == s.ticks && Schedule(s).nextId == s.nextId
    ensures Schedule(s).tasks.Keys == Swept(s).0.tasks.Keys == s.tasks.Keys - Members(Swept(s).1.dead)
  {
    TargetFacts(s);
    SweptInv(s);
    SweptKeys(s);
    hide Swept, Target, SwitchTo, RingInv, Distinct;
    if Target(s) > 0 {
      SwitchTasks(Swept(s).0, Target(s), Schedule(s));
    }
  }

  lemma ScheduleTask(s: Sched, t: Id)
    requires RingInv(s) && t in Swept(s).0.tasks
    ensures t in s.tasks && t in Schedule(s).tasks && Undisturbed(s.tasks[t], Schedule(s).tasks[t])
  {
    TargetFacts(s);
    SweptInv(s);
    SweptUndisturbed(s, t);
    hide Swept, Target, SwitchTo, RingInv, Distinct;
    if Target(s) > 0 {
      SwitchUndisturbed(Swept(s).0, Target(s), Schedule(s), t);
    }
  }

  /** What task_schedule does to the tasks: it frees the reaped ones and moves the others only among
      READY, RUNNING and SLEEPING. */
  lemma ScheduleFacts(s: Sched)
    requires RingInv(s)
    ensures Schedule(s).reaped == s.reaped + Swept(s).1.dead
    ensures Schedule(s).ticks == s.ticks && Schedule(s).nextId == s.nextId
    ensures Schedule(s).tasks.Keys == s.tasks.Keys - Members(Swept(s).1.dead)
    ensures forall t :: t in Schedule(s).tasks ==> Undisturbed(s.tasks[t], Schedule(s).tasks[t])
  {
    hide Swept, Schedule, RingInv, Undisturbed;
    ScheduleKeys(s);
    forall t | t in Schedule(s).tasks
      ensures Undisturbed(s.tasks[t], Schedule(s).tasks[t])
    {
      ScheduleTask(s, t);
    }
  }

  lemma SweptSleeper(s: Sched, t: Id)
    requires RingInv(s) && t in s.tasks && s.tasks[t].state == Sleeping
    ensures t in Swept(s).0.tasks
    ensures Swept(s).0.tasks[t] ==
      if s.tasks[t].wakeTick <= s.ticks && Findable(s, t) then s.tasks[t].(state := Ready) else s.tasks[t]
  {
    hide ScanFrom, Visited, Swept, Distinct;
    SweptFacts(s);
    SweptKeys(s);
    ReapFacts(s);
  }

  /** Who sleeps on through a call of task_schedule: a sleeper whose time has not come, or one beyond the 65 tasks
      that wake_sleepers looks at. Every other sleeper is READY or RUNNING afterwards. */
  lemma ScheduleSleepers(s: Sched, t: Id)
    requires RingInv(s) && t in s.tasks && s.tasks[t].state == Sleeping
    ensures t in Schedule(s).tasks
    ensures s.ticks < s.tasks[t].wakeTick || !Findable(s, t) ==> Schedule(s).tasks[t] == s.tasks[t]
    ensures s.tasks[t].wakeTick <= s.ticks && Findable(s, t) ==> Runnable(Schedule(s).tasks[t])
    ensures |s.ring| <= GUARD + 1 ==> Findable(s, t)
  {
    hide Wake, Visited, Swept, Target, SwitchTo, Distinct;
    TargetFacts(s);
    SweptInv(s);
    SweptSleeper(s, t);
    VisitedInRing(s.ring);
    assert t in Members(s.ring);
    if Target(s) > 0 {
      SwitchTasks(Swept(s).0, Target(s), Schedule(s));
    }
  }

  lemma SweptKeys(s: Sched)
    requires RingInv(s)
    ensures Swept(s).0.tasks.Keys == s.tasks.Keys - Members(Swept(s).1.dead)
    ensures Swept(s).0.reaped == s.reaped + Swept(s).1.dead
    ensures Swept(s).0.ticks == s.ticks && Swept(s).0.nextId == s.nextId
  {
    WakeFacts(s);
    hide Wake, ScanFrom;
  }

  // ---- single-task changes ------------------------------------------------------------

  /** A task other than task 0 leaves the RUNNING state, or moves between other states. */
  lemma SetTaskInv(s: Sched, t: Id, task: Task)
    requires RingInv(s) && t in s.tasks && t != 0 && task.state != Running
    ensures RingInv(s.(tasks := s.tasks[t := task]))
  {
  }

  /** task_create_ex splices the new task in right after the current one. */
  ghost function Spawn(s: Sched): Sched
    requires s.ring != []
  {
    s.(ring := [s.ring[0], s.nextId] + s.ring[1..], tasks := s.tasks[s.nextId := Task(Ready, 0)],
       nextId := s.nextId + 1)
  }

  lemma SpawnRing(ring: seq<Id>, id: Id)
    requires ring != [] && Distinct(ring) && id !in ring
    ensures Distinct([ring[0], id] + ring[1..])
    ensures forall t :: t in [ring[0], id] + ring[1..] <==> t in ring || t == id
  {
    var ring' := [ring[0], id] + ring[1..];
    assert ring == [ring[0]] + ring[1..];
    DistinctConcat([id], ring);
    assert multiset(ring') == multiset([id] + ring);
    DistinctPermuted([id] + ring, ring');
    SameElements([id] + ring, ring');
  }

  lemma SpawnInv(s: Sched)
    requires Inv(s)
    ensures Inv(Spawn(s))
  {
    assert s.nextId !in s.ring by {
      assert s.nextId !in s.tasks;
      assert s.nextId in s.ring ==> s.nextId in Members(s.ring);
    }
    SpawnRing(s.ring, s.nextId);
    hide Distinct;
    assert Members(Spawn(s).ring) == Members(s.ring) + {s.nextId};
  }

  /** The tasks task_by_id can find: the first 65 from task 0 on. */
  ghost predicate Findable(s: Sched, id: Id)
    requires 0 in s.ring
  {
    id in Visited(s.ring)
  }

  lemma VisitedInRing(ring: seq<Id>)
    requires 0 in ring
    ensures forall t :: t in Visited(ring) ==> t in ring
    ensures |ring| <= GUARD + 1 ==> forall t :: t in ring ==> t in Visited(ring)
  {
    RotateSame(ring, IndexOf(ring, 0));
    assert |ring| <= GUARD + 1 ==> Visited(ring) == FromZero(ring);
  }

  // ---- fairness --------------------------------------------------------------------

  /** Ring distance from the current task. */
  ghost function Distance(s: Sched, t: Id): nat
    requires t in s.ring
  {
    IndexOf(s.ring, t)
  }

  lemma ScanPlace(s: Sched, t: Id)
    requires RingInv(s) && |s.ring| <= GUARD + 1 && t in s.ring && t != s.ring[0] && s.tasks[t].state == Ready
    ensures var r := Swept(s).1;
            var i := Distance(s, t) - 1 - (|s.ring| - 1 - |r.rest|);
            r.found && 0 <= i < |r.rest| && r.rest[i] == t
  {
    WakeFacts(s);
    hide Wake;
    var tasks, rest, i := Wake(s).tasks, s.ring[1..], Distance(s, t) - 1;
    assert rest[i] == t;
    assert forall u :: u in rest ==> u in s.ring;
    ScanReaches(tasks, [s.ring[0]], rest, [], GUARD, i);
    ScanOrder(tasks, [s.ring[0]], rest, [], GUARD);
  }

  /** Round-robin fairness of one call: a READY task gets strictly closer to the CPU. */
  lemma DistanceFalls(s: Sched, t: Id)
    requires RingInv(s) && |s.ring| <= GUARD + 1 && t in s.ring && t != s.ring[0] && s.tasks[t].state == Ready
    ensures t in Schedule(s).ring && Distance(Schedule(s), t) < Distance(s, t)
    ensures |Schedule(s).ring| <= |s.ring|
  {
    hide RingInv, ScanFrom, Wake;
    ScanPlace(s, t);
    SweptFacts(s);
    ScheduleInv(s);
    var (swept, r) := Swept(s);
    var i := Distance(s, t) - 1 - (|s.ring| - 1 - |r.rest|);
    assert swept.ring == r.kept + r.rest;
    ScheduleInv(s);
    ScanShrinks(s);
    var ring' := Schedule(s).ring;
    assert ring' == Rotate(swept.ring, |r.kept|);
    assert ring' == r.rest + r.kept;
    assert ring'[i] == t;
    assert Distinct(ring') by { InvDistinct(Schedule(s)); }
    IndexIs(ring', i);
  }

  lemma InvDistinct(s: Sched)
    requires RingInv(s)
    ensures Distinct(s.ring)
  {
  }

  lemma ScanShrinks(s: Sched)
    requires RingInv(s)
    ensures |Swept(s).1.kept| + |Swept(s).1.rest| <= |s.ring|
  {
    WakeFacts(s);
    assert forall t :: t in s.ring ==> t in s.tasks;
    ScanRearranges(Wake(s).tasks, [s.ring[0]], s.ring[1..], [], GUARD);
    var r := Swept(s).1;
    assert |multiset(r.kept + r.rest + r.dead)| == |r.kept| + |r.rest| + |r.dead|;
    assert |multiset([s.ring[0]] + s.ring[1..] + [])| == |s.ring|;
  }
}
