// Queues watched from outside: who joined and who left, in which order, told
// from the members alone.
module Queues {
  import opened Lists

  // The record gets whoever is in the one queue and not in the other.
  ghost predicate Noted<T(!new)>(before: seq<T>, after: seq<T>, record: seq<T>, record': seq<T>) {
    if exists x :: x in after && x !in before
    then exists x :: x in after && x !in before && record' == record + [x]
    else record' == record
  }

  ghost predicate Watched<T(!new)>(before: seq<T>, after: seq<T>, joined: seq<T>, joined': seq<T>,
                                   left: seq<T>, left': seq<T>) {
    Noted(before, after, joined, joined') && Noted(after, before, left, left')
  }

  // First in, first out: those in the queue are those who joined less those
  // who left, in the order of joining.
  ghost predicate InOrder<T>(queue: seq<T>, joined: seq<T>, left: seq<T>) { joined == left + queue }

  lemma OneJoins<T(!new)>(queue: seq<T>, x: T, joined: seq<T>, joined': seq<T>, left: seq<T>, left': seq<T>)
    requires InOrder(queue, joined, left) && x !in queue
    requires Watched(queue, queue + [x], joined, joined', left, left')
    ensures InOrder(queue + [x], joined', left')
  {
    assert x in queue + [x];
    assert left + queue + [x] == left + (queue + [x]);
  }

  lemma FirstLeaves<T(!new)>(queue: seq<T>, joined: seq<T>, joined': seq<T>, left: seq<T>, left': seq<T>)
    requires InOrder(queue, joined, left) && NoRepeats(queue) && queue != []
    requires Watched(queue, queue[1..], joined, joined', left, left')
    ensures InOrder(queue[1..], joined', left') && left' == left + [queue[0]]
  {
    forall x | x in queue && x !in queue[1..]
      ensures x == queue[0]
    {
      assert queue == [queue[0]] + queue[1..];
    }
    assert queue[0] in queue && queue[0] !in queue[1..];
    assert left + queue == left + [queue[0]] + queue[1..];
  }

  lemma NobodyMoves<T(!new)>(queue: seq<T>, joined: seq<T>, joined': seq<T>, left: seq<T>, left': seq<T>)
    requires InOrder(queue, joined, left) && Watched(queue, queue, joined, joined', left, left')
    ensures InOrder(queue, joined', left')
  {
  }
}
