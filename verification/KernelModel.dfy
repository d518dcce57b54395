/**
 Tasks, mutexes and pipes as one concurrent state machine.

 On one CPU every interrupts-off section runs to completion, so a step is one such section of the
 current task, a timer tick, or a call of task_schedule. A run interleaves them in any order.

 The wait queues of all locks and pipes are kept in one map. `woken` is a history variable: the
 tasks a wake-up has taken off a queue that have not yet gone round their retry loop. `holders`,
 `produced` and `consumed` are history variables too.
 */
module KernelModel {
  import opened Seqs
  import opened SchedModel

  const PIPE_CAPACITY: nat := 256

  /** Which retry loop a task is in. */
  datatype Op =
    | Idle
    | Locking(lock: nat)
    | Writing(pipe: nat, left: seq<char>)
    | Reading(pipe: nat, got: nat, max: nat)

  datatype QueueId = LockQueue(lock: nat) | ReadQueue(pipe: nat) | WriteQueue(pipe: nat)

  datatype Lock = Lock(locked: bool, contended: nat, holders: set<Id>)

  datatype Ring = Ring(buffer: seq<char>, readPos: nat, writePos: nat, count: nat)

  datatype Pipe = Pipe(ring: Ring, blockedReads: nat, blockedWrites: nat, produced: seq<char>, consumed: seq<char>)

  datatype Kernel = Kernel(
    sched: Sched, ops: map<Id, Op>, queues: map<QueueId, seq<Id>>, woken: map<QueueId, set<Id>>,
    locks: seq<Lock>, pipes: seq<Pipe>)

  function OpOf(ops: map<Id, Op>, t: Id): Op { if t in ops then ops[t] else Idle }

  function Queue(queues: map<QueueId, seq<Id>>, q: QueueId): seq<Id> { if q in queues then queues[q] else [] }

  function WokenFrom(woken: map<QueueId, set<Id>>, q: QueueId): set<Id> { if q in woken then woken[q] else {} }

  /** The retry loop `op` may park its task on queue q. A reader parks only with nothing read yet. */
  predicate Parks(op: Op, q: QueueId) {
    match op
    case Idle => false
    case Locking(m) => q == LockQueue(m)
    case Writing(p, _) => q == WriteQueue(p)
    case Reading(p, got, max) => q == ReadQueue(p) && got == 0 && max > 0
  }

  function QueueOf(op: Op): QueueId
    requires op != Idle
  {
    match op
    case Locking(m) => LockQueue(m)
    case Writing(p, _) => WriteQueue(p)
    case Reading(p, _, _) => ReadQueue(p)
  }

  // ---- the queue invariant -----------------------------------------------------------

  /** A task on a queue is alive, BLOCKED, and inside the retry loop of that queue. */
  ghost predicate QueuedOk(tasks: map<Id, Task>, ops: map<Id, Op>, queues: map<QueueId, seq<Id>>) {
    forall q, t :: t in Queue(queues, q) ==> t in tasks && tasks[t].state == Blocked && Parks(OpOf(ops, t), q)
  }

  ghost predicate QueuesDistinct(queues: map<QueueId, seq<Id>>) {
    forall q :: Distinct(Queue(queues, q))
  }

  /** Every BLOCKED task is on the queue its retry loop parks it on, so somebody can wake it. */
  ghost predicate BlockedOk(tasks: map<Id, Task>, ops: map<Id, Op>, queues: map<QueueId, seq<Id>>) {
    forall t :: t in tasks && tasks[t].state == Blocked ==>
      OpOf(ops, t) != Idle && t in Queue(queues, QueueOf(OpOf(ops, t)))
  }

  /** A woken task is alive, able to run, and about to retry. */
  ghost predicate WokenOk(tasks: map<Id, Task>, ops: map<Id, Op>, woken: map<QueueId, set<Id>>) {
    forall q, t :: t in WokenFrom(woken, q) ==> t in tasks && Runnable(tasks[t]) && Parks(OpOf(ops, t), q)
  }

  ghost predicate QInv(tasks: map<Id, Task>, ops: map<Id, Op>, queues: map<QueueId, seq<Id>>,
      woken: map<QueueId, set<Id>>) {
    && QueuedOk(tasks, ops, queues) && QueuesDistinct(queues)
    && BlockedOk(tasks, ops, queues) && WokenOk(tasks, ops, woken)
  }

  // ---- locks and pipes ---------------------------------------------------------------

  /** Mutual exclusion: the word is set exactly while some task is between mutex_lock returning and
      mutex_unlock, and there is at most one such task. */
  ghost predicate LockOk(l: Lock) {
    && (l.locked <==> l.holders != {})
    && (forall a, b :: a in l.holders && b in l.holders ==> a == b)
  }

  /** The bytes in the ring, oldest first. */
  function Contents(r: Ring): (s: seq<char>)
    requires |r.buffer| == PIPE_CAPACITY
    ensures |s| == r.count
  {
    seq(r.count, i requires 0 <= i < r.count => r.buffer[(r.readPos + i) % PIPE_CAPACITY])
  }

  ghost predicate RingOk(r: Ring) {
    && |r.buffer| == PIPE_CAPACITY && r.readPos < PIPE_CAPACITY && r.count <= PIPE_CAPACITY
    && r.writePos == (r.readPos + r.count) % PIPE_CAPACITY
  }

  /** Nothing is lost, duplicated or reordered: what came out, followed by what is inside, is what
      went in. */
  ghost predicate PipeOk(p: Pipe) {
    RingOk(p.ring) && p.consumed + Contents(p.ring) == p.produced
  }

  function Put(r: Ring, c: char): Ring
    requires |r.buffer| == PIPE_CAPACITY && r.writePos < PIPE_CAPACITY
  {
    Ring(r.buffer[r.writePos := c], r.readPos, (r.writePos + 1) % PIPE_CAPACITY, r.count + 1)
  }

  function Take(r: Ring): Ring
    requires r.count > 0
  {
    Ring(r.buffer, (r.readPos + 1) % PIPE_CAPACITY, r.writePos, r.count - 1)
  }

  /** One byte in, one byte out, as the pipe's history sees it. */
  ghost function Fed(p: Pipe, c: char): Pipe
    requires RingOk(p.ring)
  {
    p.(ring := Put(p.ring, c), produced := p.produced + [c])
  }

  ghost function Drained(p: Pipe): Pipe
    requires RingOk(p.ring) && p.ring.count > 0
  {
    p.(ring := Take(p.ring), consumed := p.consumed + [p.ring.buffer[p.ring.readPos]])
  }

  lemma PutContents(r: Ring, c: char)
    requires RingOk(r) && r.count < PIPE_CAPACITY
    ensures RingOk(Put(r, c)) && Contents(Put(r, c)) == Contents(r) + [c]
  {
    var r' := Put(r, c);
    forall i | 0 <= i < r.count
      ensures Contents(r')[i] == Contents(r)[i]
    {
      assert (r.readPos + i) % PIPE_CAPACITY != r.writePos;
    }
  }

  lemma TakeContents(r: Ring)
    requires RingOk(r) && r.count > 0
    ensures RingOk(Take(r)) && [r.buffer[r.readPos]] + Contents(Take(r)) == Contents(r)
  {
    var r' := Take(r);
    forall i | 0 <= i < r'.count
      ensures Contents(r')[i] == Contents(r)[i + 1]
    {
      assert (r'.readPos + i) % PIPE_CAPACITY == (r.readPos + (i + 1)) % PIPE_CAPACITY;
    }
    assert Contents(r)[0] == r.buffer[r.readPos];
  }

  // ---- the whole-system invariants -----------------------------------------------------

  /** Holds in every reachable state, whatever is killed. */
  ghost predicate Safe(k: Kernel) {
    && SchedModel.Inv(k.sched)
    && QInv(k.sched.tasks, k.ops, k.queues, k.woken)
    && OpOf(k.ops, 0) == Idle
    && (forall m :: 0 <= m < |k.locks| ==> LockOk(k.locks[m]))
    && (forall p :: 0 <= p < |k.pipes| ==> PipeOk(k.pipes[p]))
  }

  /** A free lock with a queue has a woken waiter on its way. */
  ghost predicate LockLive(k: Kernel, m: nat)
    requires m < |k.locks|
  {
    !k.locks[m].locked && Queue(k.queues, LockQueue(m)) != [] ==> WokenFrom(k.woken, LockQueue(m)) != {}
  }

  /** With readers parked, every byte in the pipe has a woken reader on its way; with writers
      parked, every free place has a woken writer on its way. */
  ghost predicate PipeLive(k: Kernel, p: nat)
    requires p < |k.pipes|
  {
    && (Queue(k.queues, ReadQueue(p)) != [] ==> k.pipes[p].ring.count <= |WokenFrom(k.woken, ReadQueue(p))|)
    && (Queue(k.queues, WriteQueue(p)) != [] ==>
         PIPE_CAPACITY - k.pipes[p].ring.count <= |WokenFrom(k.woken, WriteQueue(p))|)
  }

  /** No wakeup is ever lost. */
  ghost predicate Live(k: Kernel) {
    && (forall m :: 0 <= m < |k.locks| ==> LockLive(k, m))
    && (forall p :: 0 <= p < |k.pipes| ==> PipeLive(k, p))
  }

  /** Reader and writer sides of one pipe are never both parked with nobody on the way. */
  lemma NeverBothStuck(k: Kernel, p: nat)
    requires Live(k) && p < |k.pipes|
    requires Queue(k.queues, ReadQueue(p)) != [] && Queue(k.queues, WriteQueue(p)) != []
    ensures WokenFrom(k.woken, ReadQueue(p)) != {} || WokenFrom(k.woken, WriteQueue(p)) != {}
  {
    assert PipeLive(k, p);
  }

  /** A parked reader faces data only while a woken reader is on its way; likewise a parked writer
      and room. */
  lemma ParkedMeansNothingToDo(k: Kernel, p: nat)
    requires Live(k) && p < |k.pipes|
    ensures Queue(k.queues, ReadQueue(p)) != [] && WokenFrom(k.woken, ReadQueue(p)) == {} ==> k.pipes[p].ring.count == 0
    ensures Queue(k.queues, WriteQueue(p)) != [] && WokenFrom(k.woken, WriteQueue(p)) == {} && PipeOk(k.pipes[p]) ==>
      k.pipes[p].ring.count == PIPE_CAPACITY
  {
    assert PipeLive(k, p);
  }

  // ---- building blocks of the steps ------------------------------------------------------

  function Current(k: Kernel): Id
    requires k.sched.ring != []
  {
    k.sched.ring[0]
  }

  ghost function WithState(k: Kernel, t: Id, st: State): Kernel
    requires t in k.sched.tasks
  {
    k.(sched := k.sched.(tasks := SetState(k.sched.tasks, t, st)))
  }

  ghost function WithOp(k: Kernel, t: Id, op: Op): Kernel {
    k.(ops := k.ops[t := op])
  }

  /** The current task is no longer "woken": it is retrying now. */
  ghost function Retrying(k: Kernel, q: QueueId, t: Id): Kernel {
    k.(woken := k.woken[q := WokenFrom(k.woken, q) - {t}])
  }

  /** Join queue q and block: the tail of every retry loop. */
  ghost function Park(k: Kernel, q: QueueId): Kernel
    requires k.sched.ring != [] && Current(k) in k.sched.tasks
  {
    WithState(k, Current(k), Blocked).(queues := k.queues[q := Queue(k.queues, q) + [Current(k)]])
  }

  /** Take the oldest waiter off queue q, if any, and make it READY. */
  ghost function WakeOne(k: Kernel, q: QueueId): Kernel
    requires Queue(k.queues, q) != [] ==> Queue(k.queues, q)[0] in k.sched.tasks
  {
    var queue := Queue(k.queues, q);
    if queue == [] then k
    else
      var t := queue[0];
      var k' := if k.sched.tasks[t].state == Blocked then WithState(k, t, Ready) else k;
      k'.(queues := k.queues[q := queue[1..]], woken := k.woken[q := WokenFrom(k.woken, q) + {t}])
  }
}
