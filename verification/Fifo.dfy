/** The bounded FIFO queue that all the concurrent queues are compared with. */
module Fifo {

  datatype Event<T> = Silent | Enqueued(objs: seq<T>) | Dequeued(objs: seq<T>)

  /** A bulk enqueue adds its objects next to each other at the back; a bulk dequeue removes from the
      front. */
  ghost predicate FifoStep<T>(q: seq<T>, e: Event<T>, q': seq<T>, capacity: nat) {
    match e
    case Silent => q' == q
    case Enqueued(objs) => |objs| >= 1 && q' == q + objs && |q'| <= capacity
    case Dequeued(objs) => |objs| >= 1 && q == objs + q'
  }

  ghost function EnqPart<T>(e: Event<T>): seq<T> { if e.Enqueued? then e.objs else [] }

  ghost function DeqPart<T>(e: Event<T>): seq<T> { if e.Dequeued? then e.objs else [] }

  /** What went in is what came out, in order, followed by what is still inside. */
  lemma Ledger<T>(enq: seq<T>, deq: seq<T>, q: seq<T>, e: Event<T>, q': seq<T>, capacity: nat)
    requires enq == deq + q && FifoStep(q, e, q', capacity)
    ensures enq + EnqPart(e) == deq + DeqPart(e) + q'
  {
    match e
    case Enqueued(objs) => assert (deq + q) + objs == (deq + []) + q';
    case Dequeued(objs) => assert (deq + q) + [] == (deq + objs) + q';
    case Silent => assert (deq + q) + [] == (deq + []) + q';
  }

  /** A queue kept as a log of all objects ever put in and the number of those taken out. */
  lemma LogMoves<T>(log: seq<T>, taken: nat, e: Event<T>, log': seq<T>, taken': nat)
    requires taken <= |log| && taken' <= |log'|
    requires log' == log + EnqPart(e) && taken' == taken + |DeqPart(e)| && (!e.Silent? ==> |e.objs| == 1)
    requires e.Dequeued? ==> taken < |log| && e.objs == [log[taken]]
    ensures FifoStep(log[taken..], e, log'[taken'..], |log'| - taken')
  {
  }

  lemma LargerCapacity<T>(q: seq<T>, e: Event<T>, q': seq<T>, c: nat, d: nat)
    requires FifoStep(q, e, q', c) && c <= d
    ensures FifoStep(q, e, q', d)
  {
  }
}
