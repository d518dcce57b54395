/**
 A run from boot in which task_kill loses a wakeup.

 Tasks 3 and 2 park as readers of an empty pipe; task 1 writes one byte, which wakes task 3; then task
 1 kills task 3 before it has retried. Task 2 stays parked in front of the byte.
 */
module KernelKill {
  import opened Seqs
  import opened SchedModel
  import opened KernelModel
  import opened KernelSteps
  import opened KernelSafety
  import opened KernelLive

  /** With nobody asleep and the next task READY, task_schedule hands over to it. */
  lemma HandsToNext(s: Sched)
    requires RingInv(s) && |s.ring| >= 2 && s.ring[1] in s.tasks && s.tasks[s.ring[1]].state == Ready
    requires forall t :: t in s.tasks ==> s.tasks[t].state != Sleeping
    ensures forall t :: t in s.ring ==> t in s.tasks
    ensures Schedule(s) == SwitchTo(s, 1)
  {
    assert forall t :: t in s.ring ==> t in Members(s.ring);
    assert Wake(s).tasks == s.tasks;
    assert Wake(s) == s;
    assert [s.ring[0]] + s.ring[1..] == s.ring;
    assert Without(s.tasks, []) == s.tasks;
    assert s.reaped + [] == s.reaped;
    assert Swept(s).0 == s;
  }

  function Ready0(): Task { Task(Ready, 0) }
  function Running0(): Task { Task(Running, 0) }
  function Blocked0(): Task { Task(Blocked, 0) }

  function Empty(blocked: nat): Pipe {
    Pipe(Ring(seq(PIPE_CAPACITY, _ => '\0'), 0, 0, 0), blocked, 0, [], [])
  }

  function Holding(blocked: nat): Pipe {
    Pipe(Ring(seq(PIPE_CAPACITY, _ => '\0')[0 := 'x'], 0, 1, 1), blocked, 0, ['x'], [])
  }

  /** The three tasks exist and task 0 is running. */
  ghost function Created(): Kernel {
    Kernel(Sched([0, 3, 2, 1], map[0 := Running0(), 1 := Ready0(), 2 := Ready0(), 3 := Ready0()], 0, 4, 0, []),
           map[], map[], map[], [], [Empty(0)])
  }

  /** Task 3 is running. */
  ghost function First(): Kernel {
    Created().(sched := Sched([3, 2, 1, 0], map[0 := Ready0(), 1 := Ready0(), 2 := Ready0(), 3 := Running0()], 0, 4, 1,
      []))
  }

  /** Task 3 is parked, task 2 is running. */
  ghost function Second(): Kernel {
    Kernel(Sched([2, 1, 0, 3], map[0 := Ready0(), 1 := Ready0(), 2 := Running0(), 3 := Blocked0()], 0, 4, 2, []),
           map[3 := Reading(0, 0, 1)], map[ReadQueue(0) := [3]], map[ReadQueue(0) := {}], [], [Empty(1)])
  }

  /** Tasks 3 and 2 are parked, task 1 is running. */
  ghost function Third(): Kernel {
    Kernel(Sched([1, 0, 3, 2], map[0 := Ready0(), 1 := Running0(), 2 := Blocked0(), 3 := Blocked0()], 0, 4, 3, []),
           map[2 := Reading(0, 0, 1), 3 := Reading(0, 0, 1)], map[ReadQueue(0) := [3, 2]], map[ReadQueue(0) := {}], [],
             [Empty(2)])
  }

  /** Task 1 has written a byte and task 3 is on its way to read it. */
  ghost function Woken(): Kernel {
    Kernel(Sched([1, 0, 3, 2], map[0 := Ready0(), 1 := Running0(), 2 := Blocked0(), 3 := Ready0()], 0, 4, 3, []),
           map[1 := Idle, 2 := Reading(0, 0, 1), 3 := Reading(0, 0, 1)],
           map[ReadQueue(0) := [2]], map[ReadQueue(0) := {3}, WriteQueue(0) := {}], [], [Holding(2)])
  }

  // ---- one step after the other ----------------------------------------------------------

  /** A run that starts with `step`, which leads to k'. */
  lemma Prepend(k: Kernel, step: Step, k': Kernel, rest: seq<Step>)
    requires Safe(k) && Enabled(k, step) && Next(k, step) == k' && Safe(k') && CanRun(k', rest)
    ensures CanRun(k, [step] + rest) && After(k, [step] + rest) == After(k', rest)
  {
    hide Safe, Enabled, Next;
    assert ([step] + rest)[1..] == rest;
  }

  /** Step by step: k can take the step, and it leads to k'. */
  ghost predicate Leads(k: Kernel, step: Step, k': Kernel) {
    Safe(k) && Enabled(k, step) && Next(k, step) == k' && Safe(k')
  }

  lemma CreateOne(k: Kernel)
    requires Safe(k) && k.ops == map[] && k.sched.ring != [] && 0 in k.sched.tasks && k.sched.ring[0] == 0
    requires k.sched.tasks[0] == Running0()
    ensures Leads(k, Create, k.(sched := Spawn(k.sched)))
  {
    hide Safe, Spawn;
    StepSafe(k, Create);
  }

  lemma Creates()
    ensures Safe(Boot(0, 1)) && CanRun(Boot(0, 1), [Create, Create, Create])
    ensures After(Boot(0, 1), [Create, Create, Create]) == Created()
  {
    hide Safe, Enabled, Next, CanRun, After;
    BootSafe(0, 1);
    var k0 := Boot(0, 1);
    CreateOne(k0);
    var k1 := k0.(sched := Sched([0, 1], map[0 := Running0(), 1 := Ready0()], 0, 2, 0, []));
    assert k0.(sched := Spawn(k0.sched)) == k1;
    CreateOne(k1);
    var k2 := k0.(sched := Sched([0, 2, 1], map[0 := Running0(), 1 := Ready0(), 2 := Ready0()], 0, 3, 0, []));
    assert k1.(sched := Spawn(k1.sched)) == k2;
    CreateOne(k2);
    assert k2.(sched := Spawn(k2.sched)) == Created();
    Stay(Created());
    Prepend(k2, Create, Created(), []);
    assert [Create] + [] == [Create];
    Prepend(k1, Create, k2, [Create]);
    assert [Create] + [Create] == [Create, Create];
    Prepend(k0, Create, k1, [Create, Create]);
    assert [Create] + [Create, Create] == [Create, Create, Create];
  }

  lemma Stay(k: Kernel)
    requires Safe(k)
    ensures CanRun(k, []) && After(k, []) == k
  {
  }

  lemma YieldNext(k: Kernel)
    requires Safe(k) && |k.sched.ring| >= 2 && k.sched.ring[1] in k.sched.tasks
    requires k.sched.tasks[k.sched.ring[1]].state == Ready
    requires forall t :: t in k.sched.tasks ==> k.sched.tasks[t].state != Sleeping
    ensures forall t :: t in k.sched.ring ==> t in k.sched.tasks
    ensures Leads(k, Yield, k.(sched := SwitchTo(k.sched, 1)))
  {
    hide Schedule, QInv, PipeOk, LockOk, SwitchTo;
    StepSafe(k, Yield);
    HandsToNext(k.sched);
  }

  lemma Yields()
    requires Safe(Created())
    ensures Leads(Created(), Yield, First())
  {
    hide Leads, Safe;
    YieldNext(Created());
    assert SwitchTo(Created().sched, 1) == First().sched;
  }

  /** A reader begins. */
  lemma Begins(k: Kernel, t: Id)
    requires Safe(k) && k.sched.ring != [] && k.sched.ring[0] == t != 0 && t in k.sched.tasks
    requires k.sched.tasks[t] == Running0()
    requires OpOf(k.ops, t) == Idle && |k.pipes| == 1
    ensures Leads(k, BeginRead(0, 1), k.(ops := k.ops[t := Reading(0, 0, 1)]))
  {
    hide Safe;
    StepSafe(k, BeginRead(0, 1));
  }

  /** A reader finds the pipe empty and parks. */
  ghost function ParkedOn(k: Kernel, t: Id): Kernel
    requires t in k.sched.tasks && |k.pipes| == 1
  {
    k.(sched := k.sched.(tasks := k.sched.tasks[t := k.sched.tasks[t].(state := Blocked)]),
       queues := k.queues[ReadQueue(0) := Queue(k.queues, ReadQueue(0)) + [t]],
       woken := k.woken[ReadQueue(0) := WokenFrom(k.woken, ReadQueue(0)) - {t}],
       pipes := [k.pipes[0].(blockedReads := k.pipes[0].blockedReads + 1)])
  }

  lemma ReaderParks(k: Kernel, t: Id)
    requires Safe(k) && |k.sched.ring| >= 2 && k.sched.ring[0] == t != 0 && t in k.sched.tasks
    requires k.sched.tasks[t] == Running0()
    requires OpOf(k.ops, t) == Reading(0, 0, 1) && |k.pipes| == 1 && k.pipes[0].ring.count == 0
    requires k.sched.ring[1] in k.sched.tasks && k.sched.tasks[k.sched.ring[1]].state == Ready && k.sched.ring[1] != t
    requires forall u :: u in k.sched.tasks ==> k.sched.tasks[u].state != Sleeping
    ensures var mid := ParkedOn(k, t);
            && (forall u :: u in mid.sched.ring ==> u in mid.sched.tasks)
            && Leads(k, TryRead, mid.(sched := SwitchTo(mid.sched, 1)))
  {
    hide Schedule, QInv, PipeOk, LockOk, SwitchTo, RingInv;
    StepSafe(k, TryRead);
    var mid := ParkedOn(k, t);
    SetTaskInv(k.sched, t, k.sched.tasks[t].(state := Blocked));
    HandsToNext(mid.sched);
    assert k.pipes[0 := k.pipes[0].(blockedReads := k.pipes[0].blockedReads + 1)] == mid.pipes;
  }

  lemma ParkedIs(k: Kernel, t: Id, k': Kernel)
    requires t in k.sched.tasks && |k.pipes| == 1 && |k'.pipes| == 1 && k'.ops == k.ops && k'.locks == k.locks
    requires k'.pipes[0] == k.pipes[0].(blockedReads := k.pipes[0].blockedReads + 1)
    requires k'.queues == k.queues[ReadQueue(0) := Queue(k.queues, ReadQueue(0)) + [t]]
    requires WokenFrom(k.woken, ReadQueue(0)) == {} && k'.woken == k.woken[ReadQueue(0) := {}]
    ensures ParkedOn(k, t).(sched := k'.sched) == k'
  {
    assert {} - {t} == {};
  }

  lemma FirstParks()
    requires Safe(First())
    ensures Leads(First(), BeginRead(0, 1), First().(ops := map[3 := Reading(0, 0, 1)]))
    ensures Leads(First().(ops := map[3 := Reading(0, 0, 1)]), TryRead, Second())
  {
    hide Safe, Next, Enabled;
    Begins(First(), 3);
    var k := First().(ops := map[3 := Reading(0, 0, 1)]);
    assert First().ops[3 := Reading(0, 0, 1)] == k.ops;
    ReaderParks(k, 3);
    assert SwitchTo(ParkedOn(k, 3).sched, 1) == Second().sched;
    assert [] + [3] == [3];
    ParkedIs(k, 3, Second());
  }

  lemma SecondParks()
    requires Safe(Second())
    ensures Leads(Second(), BeginRead(0, 1), Second().(ops := Third().ops))
    ensures Leads(Second().(ops := Third().ops), TryRead, Third())
  {
    hide Safe, Next, Enabled;
    Begins(Second(), 2);
    var k := Second().(ops := Third().ops);
    assert Second().ops[2 := Reading(0, 0, 1)] == k.ops;
    ReaderParks(k, 2);
    assert SwitchTo(ParkedOn(k, 2).sched, 1) == Third().sched;
    assert [3] + [2] == [3, 2];
    ParkedIs(k, 2, Third());
  }

  /** A writer of one byte finds room and wakes the reader at the head of the queue. */
  ghost function FedBy(k: Kernel, t: Id, c: char, r: Id): Kernel
    requires r in k.sched.tasks && |k.pipes| == 1 && RingOk(k.pipes[0].ring) && Queue(k.queues, ReadQueue(0)) != []
  {
    k.(sched := k.sched.(tasks := k.sched.tasks[r := k.sched.tasks[r].(state := Ready)]),
       ops := k.ops[t := Idle],
       queues := k.queues[ReadQueue(0) := Queue(k.queues, ReadQueue(0))[1..]],
       woken := k.woken[WriteQueue(0) := WokenFrom(k.woken, WriteQueue(0)) - {t}]
         [ReadQueue(0) := WokenFrom(k.woken, ReadQueue(0)) + {r}],
       pipes := [Fed(k.pipes[0], c)])
  }

  lemma WriterFeeds(k: Kernel, t: Id, c: char, r: Id)
    requires Safe(k) && k.sched.ring != [] && k.sched.ring[0] == t != 0 && t in k.sched.tasks
    requires k.sched.tasks[t] == Running0()
    requires OpOf(k.ops, t) == Writing(0, [c]) && |k.pipes| == 1 && RingOk(k.pipes[0].ring)
    requires k.pipes[0].ring.count < PIPE_CAPACITY
    requires Queue(k.queues, ReadQueue(0)) != [] && Queue(k.queues, ReadQueue(0))[0] == r && r in k.sched.tasks
    requires k.sched.tasks[r].state == Blocked
    ensures Leads(k, TryWrite, FedBy(k, t, c, r))
  {
    hide QInv, SchedModel.Inv, LockOk, Contents, Fed;
    StepSafe(k, TryWrite);
    assert k.pipes[0 := Fed(k.pipes[0], c)] == [Fed(k.pipes[0], c)];
  }

  lemma WriterWakes()
    requires Safe(Third())
    ensures Leads(Third(), BeginWrite(0, ['x']), Third().(ops := Third().ops[1 := Writing(0, ['x'])]))
    ensures Leads(Third().(ops := Third().ops[1 := Writing(0, ['x'])]), TryWrite, Woken())
  {
    hide Safe, QInv;
    StepSafe(Third(), BeginWrite(0, ['x']));
    var k := Third().(ops := Third().ops[1 := Writing(0, ['x'])]);
    assert Leads(Third(), BeginWrite(0, ['x']), k);
    hide Next, Enabled;
    WriterFeeds(k, 1, 'x', 3);
    FedIs(k);
  }

  lemma FedIs(k: Kernel)
    requires k == Third().(ops := Third().ops[1 := Writing(0, ['x'])])
    ensures FedBy(k, 1, 'x', 3) == Woken()
  {
    assert [] + ['x'] == ['x'];
    assert Fed(Empty(2), 'x') == Holding(2);
    assert [3, 2][1..] == [2];
    assert {} - {1} == {} && {} + {3} == {3};
  }

  // ---- the whole run -------------------------------------------------------------------------

  function Script(): seq<Step> {
    [Create, Create, Create] + [Yield, BeginRead(0, 1), TryRead, BeginRead(0, 1), TryRead, BeginWrite(0, ['x']),
      TryWrite]
  }

  lemma {:induction false} RunOn(k: Kernel, first: seq<Step>, second: seq<Step>)
    requires Safe(k) && CanRun(k, first) && CanRun(After(k, first), second)
    ensures CanRun(k, first + second) && After(k, first + second) == After(After(k, first), second)
    decreases |first|
  {
    hide Safe, Enabled, Next;
    if first == [] {
      assert first + second == second;
    } else {
      StepSafe(k, first[0]);
      RunOn(Next(k, first[0]), first[1..], second);
      assert (first + second)[1..] == first[1..] + second;
      assert (first + second)[0] == first[0];
    }
  }

  lemma Chain(k: Kernel, step: Step, k': Kernel, rest: seq<Step>, end: Kernel)
    requires Leads(k, step, k') && Safe(k') && CanRun(k', rest) && After(k', rest) == end
    ensures Safe(k) && CanRun(k, [step] + rest) && After(k, [step] + rest) == end
  {
    hide Safe, Enabled, Next;
    Prepend(k, step, k', rest);
  }

  lemma TheRun()
    ensures Safe(Boot(0, 1)) && CanRun(Boot(0, 1), Script()) && After(Boot(0, 1), Script()) == Woken()
  {
    hide Safe, Enabled, Next, CanRun, After, Boot, Created, First, Second, Third, Woken;
    Creates();
    Yields();
    FirstParks();
    SecondParks();
    WriterWakes();
    Stay(Woken());
    var third := Third().(ops := Third().ops[1 := Writing(0, ['x'])]);
    var second := Second().(ops := Third().ops);
    var first := First().(ops := map[3 := Reading(0, 0, 1)]);
    Chain(third, TryWrite, Woken(), [], Woken());
    Chain(Third(), BeginWrite(0, ['x']), third, [TryWrite] + [], Woken());
    Chain(second, TryRead, Third(), [BeginWrite(0, ['x'])] + ([TryWrite] + []), Woken());
    Chain(Second(), BeginRead(0, 1), second, [TryRead] + ([BeginWrite(0, ['x'])] + ([TryWrite] + [])), Woken());
    var half := [BeginRead(0, 1)] + ([TryRead] + ([BeginWrite(0, ['x'])] + ([TryWrite] + [])));
    Chain(first, TryRead, Second(), half, Woken());
    Chain(First(), BeginRead(0, 1), first, [TryRead] + half, Woken());
    Chain(Created(), Yield, First(), [BeginRead(0, 1)] + ([TryRead] + half), Woken());
    var rest := [Yield] + ([BeginRead(0, 1)] + ([TryRead] + half));
    RunOn(Boot(0, 1), [Create, Create, Create], rest);
    assert rest == [Yield, BeginRead(0, 1), TryRead, BeginRead(0, 1), TryRead, BeginWrite(0, ['x']), TryWrite];
  }

  lemma WokenLive()
    ensures Live(Woken())
  {
    assert PipeLive(Woken(), 0);
  }

  lemma WokenKilled()
    requires Safe(Woken())
    ensures Killable(Woken(), 3) && Enabled(Woken(), Kill(3))
    ensures !Live(Killed(Woken(), 3))
  {
    hide Safe, QInv, PipeOk;
    assert FromZero([1, 0, 3, 2]) == [0, 3, 2, 1];
    assert Visited(Woken().sched.ring)[1] == 3;
    var k := Killed(Woken(), 3);
    assert Killable(Woken(), 3);
    assert Forget(Woken().woken, 3)[ReadQueue(0)] == {};
    assert !PipeLive(k, 0);
  }

  /** The run happens, loses no wakeup up to here, and loses one if task 3 is killed now. */
  lemma KillLosesWakeup()
    ensures Safe(Boot(0, 1)) && CanRun(Boot(0, 1), Script())
    ensures var k := After(Boot(0, 1), Script()); Enabled(k, Kill(3)) && Live(k) && !Live(Next(k, Kill(3)))
  {
    hide Safe, Live, Killed, Killable, CanRun, After, Woken;
    TheRun();
    WokenKilled();
    WokenLive();
  }
}
