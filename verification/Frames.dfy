/**
 Physical frames as a set: which frames are used, and which the allocator has handed out.
 */
module Frames {

  const PAGE_SIZE: nat := 4096

  /** The lowest frame below `total` that is not used, or `total`. */
  function Lowest(used: set<nat>, total: nat, from: nat): (f: nat)
    requires from <= total
    ensures from <= f <= total
    ensures forall g :: from <= g < f ==> g in used
    ensures f < total ==> f !in used
    decreases total - from
  {
    if from == total || from !in used then from else Lowest(used, total, from + 1)
  }

  /** The frames first, first + 1, .., first + count - 1 exist and none is used. */
  predicate FreeRun(used: set<nat>, total: nat, first: nat, count: nat) {
    first + count <= total && forall f :: first <= f < first + count ==> f !in used
  }

  function Range(first: nat, last: nat): (s: set<nat>)
    ensures forall f :: f in s <==> first <= f < last
  {
    if first >= last then {} else Range(first, last - 1) + {last - 1}
  }

  /** The start of the lowest free run, or `total` when there is none. */
  function LowestRun(used: set<nat>, total: nat, count: nat, from: nat): (f: nat)
    requires from <= total
    ensures from <= f <= total
    ensures forall g :: from <= g < f ==> !FreeRun(used, total, g, count)
    ensures f < total ==> FreeRun(used, total, f, count)
    decreases total - from
  {
    if from == total || FreeRun(used, total, from, count) then from else LowestRun(used, total, count, from + 1)
  }

  // ---- the allocator seen from outside -----------------------------------------------------------

  /** `given` are the frames handed out and not yet returned. */
  datatype Pool = Pool(total: nat, used: set<nat>, given: set<nat>)

  datatype Op = Take | TakeRun(count: nat) | Give(frame: nat)

  /** What one call does, and the frame number it returns, 0 standing for failure. */
  function Perform(p: Pool, op: Op): (Pool, nat) {
    match op
    case Take =>
      var f := Lowest(p.used, p.total, 0);
      if f < p.total then (p.(used := p.used + {f}, given := p.given + {f}), f) else (p, 0)
    case TakeRun(count) =>
      var f := LowestRun(p.used, p.total, count, 0);
      if 0 < count && f < p.total then
        (p.(used := p.used + Range(f, f + count), given := p.given + Range(f, f + count)), f) else (p, 0)
    case Give(frame) =>
      (if frame < p.total then p.(used := p.used - {frame}, given := p.given - {frame}) else p, 0)
  }

  /** Callers return only what they were given. */
  predicate Disciplined(p: Pool, ops: seq<Op>)
    decreases |ops|
  {
    ops != [] ==> (ops[0].Give? ==> ops[0].frame in p.given) && Disciplined(Perform(p, ops[0]).0, ops[1..])
  }

  function Run(p: Pool, ops: seq<Op>): Pool
    decreases |ops|
  {
    if ops == [] then p else Run(Perform(p, ops[0]).0, ops[1..])
  }

  /** The frames in use are those never on offer and those handed out. */
  predicate Accounted(p: Pool, reserved: set<nat>) {
    && p.used == reserved + p.given && reserved !! p.given
    && (forall f :: f in p.given ==> f < p.total)
    && (p.total > 0 ==> 0 in reserved)
  }

  lemma PerformAccounted(p: Pool, op: Op, reserved: set<nat>)
    requires Accounted(p, reserved) && (op.Give? ==> op.frame in p.given)
    ensures Accounted(Perform(p, op).0, reserved)
    ensures op.Take? ==> (Perform(p, op).1 == 0 <==> forall f :: 0 <= f < p.total ==> f in p.used)
    ensures op.TakeRun? ==>
      (Perform(p, op).1 == 0 <==> op.count == 0 || forall f :: 0 <= f < p.total ==>
        !FreeRun(p.used, p.total, f, op.count))
    ensures Perform(p, op).1 != 0 ==> Perform(p, op).1 !in reserved
  {
    match op {
      case Take =>
        var f := Lowest(p.used, p.total, 0);
        assert f < p.total ==> f !in p.used;
      case TakeRun(count) =>
        var f := LowestRun(p.used, p.total, count, 0);
        assert f < p.total ==> FreeRun(p.used, p.total, f, count);
      case Give(_) =>
    }
  }

  /** In every run, frames never on offer stay used, 0 only ever means failure, and once everything
      has been returned the used set is what it was at the start. */
  lemma {:induction false} RunAccounted(p: Pool, ops: seq<Op>, reserved: set<nat>)
    requires Accounted(p, reserved) && Disciplined(p, ops)
    ensures Accounted(Run(p, ops), reserved)
    ensures Run(p, ops).given == {} ==> Run(p, ops).used == reserved
    decreases |ops|
  {
    hide Perform, Accounted;
    if ops != [] {
      PerformAccounted(p, ops[0], reserved);
      RunAccounted(Perform(p, ops[0]).0, ops[1..], reserved);
    } else {
      AllReturned(p, reserved);
    }
  }

  lemma AllReturned(p: Pool, reserved: set<nat>)
    requires Accounted(p, reserved)
    ensures p.given == {} ==> p.used == reserved
  {
  }
}
