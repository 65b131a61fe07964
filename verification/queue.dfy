/**
 * The waiting queue (src/Queue.ts): a list of user ids with a guarded
 * add and a filtering remove, each followed by an optional callback.
 */
module Queues {
  import opened SeqUtil

  /** The queue after `addToQueue(userId)`: unchanged when the id is already there, else the id at the tail. */
  function QueueAdd(queue: seq<string>, userId: string): (r: seq<string>)
    ensures userId in queue ==> r == queue
    ensures userId !in queue ==> |r| == |queue| + 1 && r[..|queue|] == queue && r[|queue|] == userId
  {
    if userId in queue then queue else queue + [userId]
  }

  /** The queue after `removeFromQueue(userId)`: every occurrence gone, the rest in order. */
  function QueueRemove(queue: seq<string>, userId: string): (r: seq<string>)
    ensures userId !in r
    ensures userId !in queue ==> r == queue
    ensures forall i :: 0 <= i < |queue| && queue[i] != userId ==> queue[i] in r
  {
    if userId !in queue then queue else Without(queue, userId)
  }

  /** Adding keeps the queue duplicate-free. */
  lemma QueueAddNoDup(queue: seq<string>, userId: string)
    requires NoDup(queue)
    ensures NoDup(QueueAdd(queue, userId))
  {
    if userId !in queue {
      var r := queue + [userId];
      forall i, j | 0 <= i < j < |r| ensures r[i] != r[j] {
        if j == |queue| {
          assert r[i] == queue[i];
        }
      }
    }
  }

  /** Removing keeps the queue duplicate-free. */
  lemma QueueRemoveNoDup(queue: seq<string>, userId: string)
    requires NoDup(queue)
    ensures NoDup(QueueRemove(queue, userId))
  {
    if userId in queue {
      WithoutNoDup(queue, userId);
    }
  }

  datatype QueueOp = Add(userId: string) | Remove(userId: string)

  /** The queue after a sequence of operations, applied in order. */
  function Run(queue: seq<string>, ops: seq<QueueOp>): seq<string>
    decreases |ops|
  {
    if ops == [] then queue
    else
      var next := match ops[0]
        case Add(u) => QueueAdd(queue, u)
        case Remove(u) => QueueRemove(queue, u);
      Run(next, ops[1..])
  }

  /** Any sequence of adds and removes keeps a duplicate-free queue duplicate-free. */
  lemma {:induction false} RunNoDup(queue: seq<string>, ops: seq<QueueOp>)
    requires NoDup(queue)
    ensures NoDup(Run(queue, ops))
    decreases |ops|
  {
    if ops != [] {
      match ops[0]
      case Add(u) => QueueAddNoDup(queue, u); RunNoDup(QueueAdd(queue, u), ops[1..]);
      case Remove(u) => QueueRemoveNoDup(queue, u); RunNoDup(QueueRemove(queue, u), ops[1..]);
    }
  }

  /** Adding an absent id and then removing it gives back the original queue. */
  lemma {:induction false} AddThenRemove(queue: seq<string>, userId: string)
    requires userId !in queue
    ensures QueueRemove(QueueAdd(queue, userId), userId) == queue
  {
    AppendThenWithout(queue, userId);
  }

  /** One add to an empty queue gives length 1; removing it again gives length 0. */
  lemma AddRemoveScenario(userId: string)
    ensures |QueueAdd([], userId)| == 1
    ensures QueueRemove(QueueAdd([], userId), userId) == []
  {
    AddThenRemove([], userId);
  }

  /** The queue; the source keeps the list in a static field of a singleton. */
  class Queue {
    var queue: seq<string>

    ghost predicate Valid()
      reads this
    {
      NoDup(queue)
    }

    constructor ()
      ensures queue == [] && Valid()
    {
      queue := [];
    }

    /** `addToQueue(userId, cb)`; `fired` says whether the callback runs. */
    method AddToQueue(userId: string) returns (fired: bool)
      modifies this
      ensures fired <==> userId !in old(queue)
      ensures queue == QueueAdd(old(queue), userId)
      ensures old(Valid()) ==> Valid()
    {
      if userId in queue {
        return false;
      }
      queue := queue + [userId];
      fired := true;
      if NoDup(old(queue)) {
        QueueAddNoDup(old(queue), userId);
      }
    }

    /** `removeFromQueue(userId, cb)`; `fired` says whether the callback runs. */
    method RemoveFromQueue(userId: string) returns (fired: bool)
      modifies this
      ensures fired <==> userId in old(queue)
      ensures queue == QueueRemove(old(queue), userId)
      ensures old(Valid()) ==> Valid()
    {
      if userId !in queue {
        return false;
      }
      queue := Without(queue, userId);
      fired := true;
      if NoDup(old(queue)) {
        QueueRemoveNoDup(old(queue), userId);
      }
    }

    /** `getQueue`. */
    method GetQueue() returns (q: seq<string>)
      ensures q == queue
    {
      q := queue;
    }
  }
}
