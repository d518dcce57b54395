/**
 The two kinds of list the task structures are threaded on: the circular ring of `next` pointers
 and the intrusive wait queues of `wait_next` pointers.

 A pointer is the number of the task it points at. The maps hold live tasks only, so following a
 pointer to a task that has been freed would be an access outside the map.
 */
module Links {
  import opened Seqs

  datatype Ptr = Nil | To(id: nat)

  /** The element after the i-th, going round. */
  function Follower(ring: seq<nat>, i: nat): nat
    requires i < |ring|
  {
    if i + 1 < |ring| then ring[i + 1] else ring[0]
  }

  /** The next pointers run once round `ring`, and only live tasks have one. */
  ghost predicate Linked(next: map<nat, nat>, ring: seq<nat>) {
    && ring != []
    && (forall t :: t in next <==> t in ring)
    && (forall i {:trigger Follower(ring, i)} :: 0 <= i < |ring| ==>
         ring[i] in next && next[ring[i]] == Follower(ring, i))
  }

  lemma LinkedAt(next: map<nat, nat>, ring: seq<nat>, i: nat)
    requires Linked(next, ring) && i < |ring|
    ensures ring[i] in next && next[ring[i]] == Follower(ring, i)
  {
  }

  /** The ring can be read from any of its elements. */
  lemma RotateLinked(next: map<nat, nat>, ring: seq<nat>, j: nat)
    requires Linked(next, ring) && j < |ring|
    ensures Linked(next, Rotate(ring, j))
  {
    var r, n := Rotate(ring, j), |ring|;
    RotateSame(ring, j);
    forall i | 0 <= i < n
      ensures r[i] in next && next[r[i]] == Follower(r, i)
    {
      var k := if i + j < n then i + j else i + j - n;
      assert r[i] == ring[k];
      LinkedAt(next, ring, k);
    }
  }

  /** prev->next = dead->next, and the dead task is gone. */
  function Unlink(next: map<nat, nat>, prev: nat, dead: nat): map<nat, nat>
    requires dead in next && prev != dead
  {
    (map t | t in next && t != dead :: next[t])[prev := next[dead]]
  }

  lemma UnlinkAt(next: map<nat, nat>, kept: seq<nat>, dead: nat, rest: seq<nat>, i: nat)
    requires kept != [] && Distinct(kept + [dead] + rest) && Linked(next, kept + [dead] + rest)
    requires i < |kept + rest| && dead in next && kept[|kept| - 1] != dead
    ensures var next' := Unlink(next, kept[|kept| - 1], dead);
            (kept + rest)[i] in next' && next'[(kept + rest)[i]] == Follower(kept + rest, i)
  {
    hide Linked;
    var old', new', n := kept + [dead] + rest, kept + rest, |kept|;
    var k := if i < n then i else i + 1;
    assert new'[i] == old'[k] && old'[n] == dead && old'[n - 1] == kept[n - 1];
    LinkedAt(next, old', k);
    LinkedAt(next, old', n);
    assert k != n && old'[k] != dead;
    if i != n - 1 {
      assert old'[k] != kept[n - 1];
      assert Follower(old', k) == Follower(new', i);
    } else {
      assert Follower(old', n) == Follower(new', i);
    }
  }

  lemma MiddleGone(kept: seq<nat>, dead: nat, rest: seq<nat>)
    requires Distinct(kept + [dead] + rest)
    ensures dead !in kept + rest
    ensures forall t :: t in kept + [dead] + rest <==> t == dead || t in kept + rest
  {
    hide Distinct;
    assert multiset(kept + [dead] + rest) == multiset([dead] + (kept + rest));
    SplitRing(kept + [dead] + rest, [dead], kept + rest);
    assert dead in [dead];
  }

  lemma UnlinkLinked(next: map<nat, nat>, kept: seq<nat>, dead: nat, rest: seq<nat>)
    requires kept != [] && Distinct(kept + [dead] + rest) && Linked(next, kept + [dead] + rest)
    ensures dead in next && kept[|kept| - 1] != dead
    ensures Linked(Unlink(next, kept[|kept| - 1], dead), kept + rest)
  {
    hide Distinct;
    var new', prev := kept + rest, kept[|kept| - 1];
    MiddleGone(kept, dead, rest);
    assert dead in kept + [dead] + rest;
    assert new'[|kept| - 1] == prev;
    var next' := Unlink(next, prev, dead);
    forall i | 0 <= i < |new'|
      ensures new'[i] in next' && next'[new'[i]] == Follower(new', i)
    {
      UnlinkAt(next, kept, dead, rest, i);
    }
    assert prev in new';
    forall t
      ensures t in next' <==> t in new'
    {
    }
  }

  lemma SpliceAt(next: map<nat, nat>, ring: seq<nat>, id: nat, i: nat)
    requires Linked(next, ring) && id !in ring && Distinct(ring) && i <= |ring|
    ensures ring[0] in next
    ensures var next' := next[id := next[ring[0]]][ring[0] := id];
            var r := [ring[0], id] + ring[1..];
            r[i] in next' && next'[r[i]] == Follower(r, i)
  {
    var r := [ring[0], id] + ring[1..];
    LinkedAt(next, ring, 0);
    if i >= 2 {
      assert r[i] == ring[i - 1] && r[i] != ring[0] && r[i] != id;
      LinkedAt(next, ring, i - 1);
    }
  }

  /** t->next = current->next; current->next = t. */
  lemma SpliceLinked(next: map<nat, nat>, ring: seq<nat>, id: nat)
    requires Linked(next, ring) && id !in ring && Distinct(ring)
    ensures ring[0] in next
    ensures Linked(next[id := next[ring[0]]][ring[0] := id], [ring[0], id] + ring[1..])
  {
    LinkedAt(next, ring, 0);
    var next', r := next[id := next[ring[0]]][ring[0] := id], [ring[0], id] + ring[1..];
    forall i | 0 <= i < |r|
      ensures r[i] in next' && next'[r[i]] == Follower(r, i)
    {
      SpliceAt(next, ring, id, i);
    }
    assert ring == [ring[0]] + ring[1..];
    forall t
      ensures t in next' <==> t in r
    {
      assert t in ring <==> t == ring[0] || t in ring[1..];
    }
  }

  // ---- wait queues ---------------------------------------------------------------------

  function Behind(queue: seq<nat>, i: nat): Ptr
    requires i < |queue|
  {
    if i + 1 < |queue| then To(queue[i + 1]) else Nil
  }

  /** head, tail and the wait_next chain spell out `queue`. */
  ghost predicate Queued(head: Ptr, tail: Ptr, waitNext: map<nat, Ptr>, queue: seq<nat>) {
    if queue == [] then head == Nil && tail == Nil
    else
      && head == To(queue[0]) && tail == To(queue[|queue| - 1])
      && forall i {:trigger Behind(queue, i)} :: 0 <= i < |queue| ==>
           queue[i] in waitNext && waitNext[queue[i]] == Behind(queue, i)
  }

  lemma QueuedAt(head: Ptr, tail: Ptr, waitNext: map<nat, Ptr>, queue: seq<nat>, i: nat)
    requires Queued(head, tail, waitNext, queue) && i < |queue|
    ensures head == To(queue[0]) && tail == To(queue[|queue| - 1])
    ensures queue[i] in waitNext && waitNext[queue[i]] == Behind(queue, i)
  {
    assert Behind(queue, i) == Behind(queue, i);
  }

  /** Changing links of tasks that are not on the queue leaves it alone. */
  lemma QueuedFrame(head: Ptr, tail: Ptr, waitNext: map<nat, Ptr>, waitNext': map<nat, Ptr>, queue: seq<nat>)
    requires Queued(head, tail, waitNext, queue)
    requires forall t :: t in queue && t in waitNext ==> t in waitNext' && waitNext'[t] == waitNext[t]
    ensures Queued(head, tail, waitNext', queue)
  {
    forall i | 0 <= i < |queue|
      ensures queue[i] in waitNext' && waitNext'[queue[i]] == Behind(queue, i)
    {
      QueuedAt(head, tail, waitNext, queue, i);
    }
  }

  function Chained(tail: Ptr, waitNext: map<nat, Ptr>, t: nat): map<nat, Ptr> {
    if tail == Nil then waitNext[t := Nil] else waitNext[t := Nil][tail.id := To(t)]
  }

  /** enqueue appends, whether or not the queue was empty: but only a task that is not on it yet. */
  lemma EnqueueLinked(head: Ptr, tail: Ptr, waitNext: map<nat, Ptr>, queue: seq<nat>, t: nat)
    requires Queued(head, tail, waitNext, queue) && Distinct(queue) && t !in queue
    ensures Queued(if tail == Nil then To(t) else head, To(t), Chained(tail, waitNext, t), queue + [t])
  {
    var waitNext', q' := Chained(tail, waitNext, t), queue + [t];
    forall i | 0 <= i < |q'|
      ensures q'[i] in waitNext' && waitNext'[q'[i]] == Behind(q', i)
    {
      if i < |queue| {
        assert q'[i] == queue[i];
        QueuedAt(head, tail, waitNext, queue, i);
      }
    }
  }

  /** Enqueueing a task that is already the last one ties it to itself: the chain never ends, so the
      queue is not a list of anything. mutex_lock and the pipes can do this only if task 0, which
      task_block does not park, calls them. */
  lemma EnqueueTwiceLoops(head: Ptr, tail: Ptr, waitNext: map<nat, Ptr>, queue: seq<nat>, t: nat, any: seq<nat>)
    requires Queued(head, tail, waitNext, queue) && queue != [] && queue[|queue| - 1] == t
    ensures Chained(tail, waitNext, t)[t] == To(t)
    ensures !Queued(if tail == Nil then To(t) else head, To(t), Chained(tail, waitNext, t), any)
  {
    var waitNext' := Chained(tail, waitNext, t);
    QueuedAt(head, tail, waitNext, queue, |queue| - 1);
    assert any != [] && any[|any| - 1] == t ==> waitNext'[any[|any| - 1]] == To(t) != Behind(any, |any| - 1);
  }

  lemma {:induction false} SpelledAlike(head: Ptr, tail: Ptr, waitNext: map<nat, Ptr>, a: seq<nat>, b: seq<nat>, i: nat)
    requires Queued(head, tail, waitNext, a) && Queued(head, tail, waitNext, b) && i < |a|
    ensures i < |b| && a[i] == b[i]
  {
    QueuedAt(head, tail, waitNext, a, i);
    if i > 0 {
      SpelledAlike(head, tail, waitNext, a, b, i - 1);
      QueuedAt(head, tail, waitNext, a, i - 1);
      QueuedAt(head, tail, waitNext, b, i - 1);
    }
  }

  /** The pointers spell at most one list. */
  lemma SpelledOnce(head: Ptr, tail: Ptr, waitNext: map<nat, Ptr>, a: seq<nat>, b: seq<nat>)
    requires Queued(head, tail, waitNext, a) && Queued(head, tail, waitNext, b)
    ensures a == b
  {
    hide Queued;
    if |a| > |b| {
      SpelledAlike(head, tail, waitNext, a, b, |b|);
    }
    if |b| > |a| {
      SpelledAlike(head, tail, waitNext, b, a, |a|);
    }
    forall i | 0 <= i < |a|
      ensures a[i] == b[i]
    {
      SpelledAlike(head, tail, waitNext, a, b, i);
    }
  }

  lemma EnqueueMiddle(head: Ptr, tail: Ptr, waitNext: map<nat, Ptr>, queue: seq<nat>, p: nat)
    requires Queued(head, tail, waitNext, queue) && Distinct(queue) && p + 1 < |queue|
    ensures Queued(head, To(queue[p]), Chained(tail, waitNext, queue[p]), queue[..p + 1])
  {
    var waitNext', short := Chained(tail, waitNext, queue[p]), queue[..p + 1];
    QueuedAt(head, tail, waitNext, queue, p);
    forall i | 0 <= i <= p
      ensures short[i] in waitNext' && waitNext'[short[i]] == Behind(short, i)
    {
      QueuedAt(head, tail, waitNext, queue, i);
      assert queue[i] != queue[|queue| - 1] && (i < p ==> queue[i] != queue[p]);
    }
  }

  /** Enqueueing the task at place p of the queue once more. From the middle, it leaves the list that ends with
      that task: all waiters behind it are lost. From the end, it leaves no list at all. */
  lemma EnqueueAgain(head: Ptr, tail: Ptr, waitNext: map<nat, Ptr>, queue: seq<nat>, p: nat, any: seq<nat>)
    requires Queued(head, tail, waitNext, queue) && Distinct(queue) && p < |queue|
    ensures tail != Nil
    ensures Queued(head, To(queue[p]), Chained(tail, waitNext, queue[p]), any)
       <==> p + 1 < |queue| && any == queue[..p + 1]
  {
    hide Queued, Chained, Distinct;
    QueuedAt(head, tail, waitNext, queue, p);
    if p + 1 == |queue| {
      EnqueueTwiceLoops(head, tail, waitNext, queue, queue[p], any);
    } else {
      EnqueueMiddle(head, tail, waitNext, queue, p);
      if Queued(head, To(queue[p]), Chained(tail, waitNext, queue[p]), any) {
        SpelledOnce(head, To(queue[p]), Chained(tail, waitNext, queue[p]), any, queue[..p + 1]);
      }
    }
  }

  lemma DequeueLinked(head: Ptr, tail: Ptr, waitNext: map<nat, Ptr>, queue: seq<nat>)
    requires Queued(head, tail, waitNext, queue) && Distinct(queue) && queue != []
    ensures queue[0] in waitNext
    ensures var head' := waitNext[queue[0]];
            Queued(head', if head' == Nil then Nil else tail, waitNext[queue[0] := Nil], queue[1..])
  {
    var rest, waitNext' := queue[1..], waitNext[queue[0] := Nil];
    QueuedAt(head, tail, waitNext, queue, 0);
    forall i | 0 <= i < |rest|
      ensures rest[i] in waitNext' && waitNext'[rest[i]] == Behind(rest, i)
    {
      QueuedAt(head, tail, waitNext, queue, i + 1);
      assert rest[i] == queue[i + 1] != queue[0];
    }
  }
}
