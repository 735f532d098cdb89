/** The multi-producer/multi-consumer ring of inc/fast/ringbuf.h as a step machine.

    Any number of threads run enqueue and dequeue calls. Every atomic load, compare-and-swap and
    store of a shared index is one step, and so is every single slot read or write; a schedule is an
    arbitrary sequence of (thread, action) pairs. Indices are unbounded counters here;
    module RingTable relates them to the wrapped machine words of the program.
 */
module RingProtocol {
  import opened Slots
  import opened Fifo

  type Tid = nat

  datatype Behavior = Fixed | Variable

  /** Where a thread stands inside a call, with the local variables it still needs. */
  datatype Pc<T> =
    | Idle
    | EnqStart(objs: seq<T>, beh: Behavior)
    | EnqHead(objs: seq<T>, beh: Behavior, head: nat)
    | EnqCas(objs: seq<T>, beh: Behavior, head: nat, n: nat)
    | EnqCopy(items: seq<T>, head: nat, i: nat)
    | EnqPublish(items: seq<T>, head: nat)
    | EnqReturn(ret: int)
    | DeqStart(max: nat, beh: Behavior)
    | DeqHead(max: nat, beh: Behavior, head: nat)
    | DeqCas(max: nat, beh: Behavior, head: nat, n: nat)
    | DeqCopy(n: nat, head: nat, got: seq<T>)
    | DeqPublish(n: nat, head: nat, got: seq<T>)
    | DeqReturn(ret: int, got: seq<T>)

  /** A call starts a new operation; any other step continues the one in progress. A weak
      compare-and-swap may fail although the values agree, which the schedule decides. */
  datatype Action<T> =
    | CallEnq(objs: seq<T>, beh: Behavior)
    | CallDeq(max: nat, beh: Behavior)
    | Continue(spurious: bool)

  /** The shared ring, every thread's position, and three history variables that no step reads:
      log[k] is the object that index k was reserved for, prodOwner[k] and consOwner[k] the threads
      that reserved index k for writing and for reading. */
  datatype State<T> = State(
    size: nat, sp: bool, sc: bool,
    prodHead: nat, prodTail: nat, consHead: nat, consTail: nat,
    ring: seq<T>,
    pcs: map<Tid, Pc<T>>,
    log: seq<T>, prodOwner: seq<Tid>, consOwner: seq<Tid>)

  const ENOBUFS: int := 105
  const ENOENT: int := 2

  predicate Producing<T>(pc: Pc<T>) {
    pc.EnqStart? || pc.EnqHead? || pc.EnqCas? || pc.EnqCopy? || pc.EnqPublish?
  }

  predicate Consuming<T>(pc: Pc<T>) {
    pc.DeqStart? || pc.DeqHead? || pc.DeqCas? || pc.DeqCopy? || pc.DeqPublish?
  }

  ghost predicate Init<T>(s: State<T>) {
    && s.size >= 1
    && s.prodHead == s.prodTail == s.consHead == s.consTail == 0
    && |s.ring| == s.size
    && (forall t :: t in s.pcs ==> s.pcs[t].Idle?)
    && s.log == [] && s.prodOwner == [] && s.consOwner == []
  }

  // ----- one step of one thread

  function GoTo<T>(s: State<T>, t: Tid, pc: Pc<T>): State<T> {
    s.(pcs := s.pcs[t := pc])
  }

  /** Loads cons.tail, computes the free entries and decides how many objects to reserve. */
  function CheckRoom<T>(objs: seq<T>, beh: Behavior, head: nat, size: nat, consTail: nat): Pc<T>
    requires head <= consTail + size - 1
  {
    var free := size - 1 + consTail - head;
    if |objs| > free then
      if beh.Fixed? then EnqReturn(-ENOBUFS)
      else if free == 0 then EnqReturn(0)
      else EnqCas(objs, beh, head, free)
    else EnqCas(objs, beh, head, |objs|)
  }

  /** Loads prod.tail, computes the available entries and decides how many to take. */
  function CheckEntries<T>(max: nat, beh: Behavior, head: nat, prodTail: nat): Pc<T>
    requires head <= prodTail
  {
    var entries := prodTail - head;
    if max > entries then
      if beh.Fixed? then DeqReturn(-ENOENT, [])
      else if entries == 0 then DeqReturn(0, [])
      else DeqCas(max, beh, head, entries)
    else DeqCas(max, beh, head, max)
  }

  /** The invariant facts without which a step could not even index the table. */
  ghost predicate Indexable<T>(s: State<T>, t: Tid) {
    && s.size >= 1 && |s.ring| == s.size && t in s.pcs
    && match s.pcs[t]
       case EnqHead(_, _, head) => head <= s.consTail + s.size - 1
       case EnqCas(objs, _, _, n) => n <= |objs|
       case DeqHead(_, _, head) => head <= s.prodTail
       case _ => true
  }

  function Reserve<T>(s: State<T>, t: Tid, objs: seq<T>, head: nat, n: nat): State<T>
    requires n <= |objs|
  {
    s.(prodHead := head + n, pcs := s.pcs[t := EnqCopy(objs[..n], head, 0)],
       log := s.log + objs[..n], prodOwner := s.prodOwner + seq(n, _ => t))
  }

  function Take<T>(s: State<T>, t: Tid, head: nat, n: nat): State<T> {
    s.(consHead := head + n, pcs := s.pcs[t := DeqCopy(n, head, [])],
       consOwner := s.consOwner + seq(n, _ => t))
  }

  function StepEnq<T>(s: State<T>, t: Tid, spurious: bool): State<T>
    requires Indexable(s, t) && Producing(s.pcs[t])
  {
    match s.pcs[t]
    case EnqStart(objs, beh) =>
      GoTo(s, t, EnqHead(objs, beh, s.prodHead))
    case EnqHead(objs, beh, head) =>
      GoTo(s, t, CheckRoom(objs, beh, head, s.size, s.consTail))
    case EnqCas(objs, beh, head, n) =>
      if s.sp || (!spurious && s.prodHead == head) then Reserve(s, t, objs, head, n)
      else GoTo(s, t, EnqStart(objs, beh))
    case EnqCopy(items, head, i) =>
      if i < |items| then
        s.(ring := s.ring[Slot(head + i, s.size) := items[i]],
           pcs := s.pcs[t := EnqCopy(items, head, i + 1)])
      else if s.sp || s.prodTail == head then GoTo(s, t, EnqPublish(items, head))
      else s
    case EnqPublish(items, head) =>
      s.(prodTail := head + |items|, pcs := s.pcs[t := EnqReturn(|items|)])
  }

  function StepDeq<T>(s: State<T>, t: Tid, spurious: bool): State<T>
    requires Indexable(s, t) && Consuming(s.pcs[t])
  {
    match s.pcs[t]
    case DeqStart(max, beh) =>
      GoTo(s, t, DeqHead(max, beh, s.consHead))
    case DeqHead(max, beh, head) =>
      GoTo(s, t, CheckEntries(max, beh, head, s.prodTail))
    case DeqCas(max, beh, head, n) =>
      if s.sc || (!spurious && s.consHead == head) then Take(s, t, head, n)
      else GoTo(s, t, DeqStart(max, beh))
    case DeqCopy(n, head, got) =>
      if |got| < n then
        GoTo(s, t, DeqCopy(n, head, got + [s.ring[Slot(head + |got|, s.size)]]))
      else if s.sc || s.consTail == head then GoTo(s, t, DeqPublish(n, head, got))
      else s
    case DeqPublish(n, head, got) =>
      s.(consTail := head + n, pcs := s.pcs[t := DeqReturn(n, got)])
  }

  function Step<T>(s: State<T>, t: Tid, a: Action<T>): State<T>
    requires Indexable(s, t)
  {
    var pc := s.pcs[t];
    match a
    case CallEnq(objs, beh) => if pc.Idle? then GoTo(s, t, EnqStart(objs, beh)) else s
    case CallDeq(max, beh) => if pc.Idle? then GoTo(s, t, DeqStart(max, beh)) else s
    case Continue(spurious) =>
      if Producing(pc) then StepEnq(s, t, spurious)
      else if Consuming(pc) then StepDeq(s, t, spurious)
      else GoTo(s, t, Idle)
  }

  /** What the callers owe: at least one object per request on the multi-producer (multi-consumer) form,
      and at most one producer (consumer) at a time on the single-producer (single-consumer) form. */
  ghost predicate Allowed<T>(s: State<T>, t: Tid, a: Action<T>) {
    && t in s.pcs
    && (a.CallEnq? && !s.sp ==> |a.objs| >= 1)
    && (a.CallDeq? && !s.sc ==> a.max >= 1)
    && (a.CallEnq? && s.sp ==> forall u :: u in s.pcs ==> !Producing(s.pcs[u]))
    && (a.CallDeq? && s.sc ==> forall u :: u in s.pcs ==> !Consuming(s.pcs[u]))
  }

  // ----- the invariant

  /** Index k's object is in its slot. */
  ghost predicate Holds<T>(s: State<T>, k: nat)
    requires s.size >= 1 && |s.ring| == s.size && k < |s.log|
  {
    s.ring[Slot(k, s.size)] == s.log[k]
  }

  ghost predicate Shape<T>(s: State<T>) {
    && s.size >= 1 && |s.ring| == s.size
    && s.consTail <= s.consHead <= s.prodTail <= s.prodHead <= s.consTail + s.size - 1
    && |s.log| == |s.prodOwner| == s.prodHead
    && |s.consOwner| == s.consHead
  }

  /** A producer's reservation [head, head + |items|): unpublished, its own, and logged. */
  ghost predicate Reserved<T>(s: State<T>, t: Tid, items: seq<T>, head: nat)
    requires Shape(s)
  {
    && (s.sp || |items| >= 1)
    && s.prodTail <= head && head + |items| <= s.prodHead
    && s.log[head..head + |items|] == items
    && (forall k :: head <= k < head + |items| ==> s.prodOwner[k] == t)
  }

  /** A consumer's reservation [head, head + n): unreleased and its own. */
  ghost predicate Taken<T>(s: State<T>, t: Tid, n: nat, head: nat)
    requires Shape(s)
  {
    && (s.sc || n >= 1)
    && s.consTail <= head && head + n <= s.consHead
    && (forall k :: head <= k < head + n ==> s.consOwner[k] == t)
  }

  ghost predicate ThreadOk<T>(s: State<T>, t: Tid)
    requires Shape(s) && t in s.pcs
  {
    match s.pcs[t]
    case EnqStart(objs, _) => s.sp || |objs| >= 1
    case EnqHead(objs, _, head) => (s.sp || |objs| >= 1) && head <= s.prodHead
    case EnqCas(objs, _, head, n) =>
      (s.sp || 1 <= n) && n <= |objs| && head <= s.prodHead && head + n <= s.consTail + s.size - 1
    case EnqCopy(items, head, i) =>
      && Reserved(s, t, items, head) && i <= |items|
      && (forall k :: head <= k < head + i ==> Holds(s, k))
    case EnqPublish(items, head) =>
      && Reserved(s, t, items, head) && head == s.prodTail
      && (forall k :: head <= k < head + |items| ==> Holds(s, k))
    case DeqStart(max, _) => s.sc || max >= 1
    case DeqHead(max, _, head) => (s.sc || max >= 1) && head <= s.consHead
    case DeqCas(max, _, head, n) => (s.sc || 1 <= n) && n <= max && head <= s.consHead && head + n <= s.prodTail
    case DeqCopy(n, head, got) =>
      && Taken(s, t, n, head) && |got| <= n && got == s.log[head..head + |got|]
    case DeqPublish(n, head, got) =>
      && Taken(s, t, n, head) && |got| == n && got == s.log[head..head + n] && head == s.consTail
    case _ => true
  }

  /** Thread t is in flight with a producer reservation that contains index k. */
  ghost predicate ProducerAt<T>(s: State<T>, t: Tid, k: nat) {
    && t in s.pcs
    && (s.pcs[t].EnqCopy? || s.pcs[t].EnqPublish?)
    && s.pcs[t].head <= k < s.pcs[t].head + |s.pcs[t].items|
  }

  ghost predicate ConsumerAt<T>(s: State<T>, t: Tid, k: nat) {
    && t in s.pcs
    && (s.pcs[t].DeqCopy? || s.pcs[t].DeqPublish?)
    && s.pcs[t].head <= k < s.pcs[t].head + s.pcs[t].n
  }

  /** Every unpublished (unreleased) index belongs to a thread that is still in flight. */
  ghost predicate Covered<T>(s: State<T>)
    requires Shape(s)
  {
    && (forall k :: s.prodTail <= k < s.prodHead ==> ProducerAt(s, s.prodOwner[k], k))
    && (forall k :: s.consTail <= k < s.consHead ==> ConsumerAt(s, s.consOwner[k], k))
  }

  /** Every published, unreleased index still has its object in its slot. */
  ghost predicate Stored<T>(s: State<T>)
    requires Shape(s)
  {
    forall k :: s.consTail <= k < s.prodTail ==> Holds(s, k)
  }

  /** The lone producer of a single-producer ring sees its own indices unchanged. */
  ghost predicate OwnProducer<T>(s: State<T>, t: Tid)
    requires t in s.pcs
  {
    match s.pcs[t]
    case EnqStart(_, _) => s.prodTail == s.prodHead
    case EnqHead(_, _, head) => s.prodTail == s.prodHead == head
    case EnqCas(_, _, head, _) => s.prodTail == s.prodHead == head
    case EnqCopy(items, head, _) => s.prodTail == head && s.prodHead == head + |items|
    case EnqPublish(items, head) => s.prodTail == head && s.prodHead == head + |items|
    case _ => true
  }

  ghost predicate OwnConsumer<T>(s: State<T>, t: Tid)
    requires t in s.pcs
  {
    match s.pcs[t]
    case DeqStart(_, _) => s.consTail == s.consHead
    case DeqHead(_, _, head) => s.consTail == s.consHead == head
    case DeqCas(_, _, head, _) => s.consTail == s.consHead == head
    case DeqCopy(n, head, _) => s.consTail == head && s.consHead == head + n
    case DeqPublish(n, head, _) => s.consTail == head && s.consHead == head + n
    case _ => true
  }

  ghost predicate SoleProducer<T>(s: State<T>) {
    s.sp ==>
      && (forall t, u :: t in s.pcs && u in s.pcs && Producing(s.pcs[t]) && Producing(s.pcs[u]) ==> t == u)
      && (forall t :: t in s.pcs ==> OwnProducer(s, t))
  }

  ghost predicate SoleConsumer<T>(s: State<T>) {
    s.sc ==>
      && (forall t, u :: t in s.pcs && u in s.pcs && Consuming(s.pcs[t]) && Consuming(s.pcs[u]) ==> t == u)
      && (forall t :: t in s.pcs ==> OwnConsumer(s, t))
  }

  ghost predicate Inv<T>(s: State<T>) {
    && Shape(s)
    && (forall t :: t in s.pcs ==> ThreadOk(s, t))
    && Covered(s) && Stored(s)
    && SoleProducer(s) && SoleConsumer(s)
  }

  lemma InvIndexable<T>(s: State<T>, t: Tid)
    requires Inv(s) && t in s.pcs
    ensures Indexable(s, t)
  {
    assert ThreadOk(s, t);
  }

  lemma InitInv<T>(s: State<T>)
    requires Init(s)
    ensures Inv(s)
  {
  }

  // ----- every step keeps the invariant

  /** s' is a later state: counters only grow, histories are extended, and no object that
      may still be needed is overwritten. */
  ghost predicate Extends<T>(s: State<T>, s': State<T>)
    requires Shape(s) && Shape(s')
  {
    && s'.size == s.size && s'.sp == s.sp && s'.sc == s.sc
    && s.prodHead <= s'.prodHead && s.prodTail <= s'.prodTail
    && s.consHead <= s'.consHead && s.consTail <= s'.consTail
    && s.log <= s'.log && s.prodOwner <= s'.prodOwner && s.consOwner <= s'.consOwner
    && (forall k :: s'.consTail <= k < s.prodHead && Holds(s, k) ==> Holds(s', k))
  }

  /** The step left thread u where it was and did not publish past its reservation. */
  ghost predicate Undisturbed<T>(s: State<T>, s': State<T>, u: Tid) {
    && u in s.pcs && u in s'.pcs && s'.pcs[u] == s.pcs[u]
    && match s.pcs[u]
       case EnqCopy(_, head, _) => s'.prodTail <= head
       case EnqPublish(_, head) => s'.prodTail == head
       case DeqCopy(_, head, _) => s'.consTail <= head
       case DeqPublish(_, head, _) => s'.consTail == head
       case _ => true
  }

  lemma ThreadFrame<T>(s: State<T>, s': State<T>, u: Tid)
    requires Shape(s) && Shape(s') && Extends(s, s')
    requires Undisturbed(s, s', u) && ThreadOk(s, u)
    ensures ThreadOk(s', u)
  {
    match s.pcs[u]
    case EnqCopy(items, h, i) => ReservedFrame(s, s', u, items, h); hide Reserved;
    case EnqPublish(items, h) => ReservedFrame(s, s', u, items, h); hide Reserved;
    case DeqCopy(n, h, got) => TakenFrame(s, s', u, n, h, |got|); hide Taken, Holds;
    case DeqPublish(n, h, got) => TakenFrame(s, s', u, n, h, n); hide Taken, Holds;
    case _ => hide Holds;
  }

  lemma TakenFrame<T>(s: State<T>, s': State<T>, u: Tid, n: nat, head: nat, m: nat)
    requires Shape(s) && Shape(s') && Extends(s, s') && Taken(s, u, n, head) && s'.consTail <= head && m <= n
    ensures Taken(s', u, n, head) && s'.log[head..head + m] == s.log[head..head + m]
  {
    hide Holds;
  }

  lemma ReservedFrame<T>(s: State<T>, s': State<T>, u: Tid, items: seq<T>, head: nat)
    requires Shape(s) && Shape(s') && Extends(s, s')
    requires Reserved(s, u, items, head) && s'.prodTail <= head
    ensures Reserved(s', u, items, head)
  {
    assert s'.log[head..head + |items|] == s.log[head..head + |items|];
  }

  /** Assembles the invariant from the moving thread's own facts and the frame of the others. */
  lemma InvFrame<T>(s: State<T>, s': State<T>, t: Tid)
    requires Inv(s) && t in s.pcs && s'.pcs.Keys == s.pcs.Keys
    requires Shape(s') && Extends(s, s') && ThreadOk(s', t)
    requires forall u :: u in s.pcs && u != t ==> Undisturbed(s, s', u)
    requires Covered(s')
    requires forall k :: s.prodTail <= k < s'.prodTail ==> Holds(s', k)
    requires SoleProducer(s') && SoleConsumer(s')
    ensures Inv(s')
  {
    forall u | u in s'.pcs ensures ThreadOk(s', u) {
      if u != t {
        assert ThreadOk(s, u);
        ThreadFrame(s, s', u);
      }
    }
    forall k | s'.consTail <= k < s'.prodTail ensures Holds(s', k) {
      if k < s.prodTail {
        assert Holds(s, k);
      }
    }
  }

  lemma SoleProducerStep<T>(s: State<T>, s': State<T>, t: Tid)
    requires SoleProducer(s) && s'.sp == s.sp && t in s.pcs && t in s'.pcs
    requires s'.pcs == s.pcs[t := s'.pcs[t]]
    requires s.sp ==> OwnProducer(s', t)
    requires s.sp && Producing(s'.pcs[t]) ==>
      Producing(s.pcs[t]) || forall u :: u in s.pcs ==> !Producing(s.pcs[u])
    requires s'.prodHead != s.prodHead || s'.prodTail != s.prodTail ==> Producing(s.pcs[t])
    ensures SoleProducer(s')
  {
    if s.sp {
      forall u | u in s'.pcs ensures OwnProducer(s', u) {
        assert u != t ==> OwnProducer(s, u);
      }
    }
  }

  lemma SoleConsumerStep<T>(s: State<T>, s': State<T>, t: Tid)
    requires SoleConsumer(s) && s'.sc == s.sc && t in s.pcs && t in s'.pcs
    requires s'.pcs == s.pcs[t := s'.pcs[t]]
    requires s.sc ==> OwnConsumer(s', t)
    requires s.sc && Consuming(s'.pcs[t]) ==>
      Consuming(s.pcs[t]) || forall u :: u in s.pcs ==> !Consuming(s.pcs[u])
    requires s'.consHead != s.consHead || s'.consTail != s.consTail ==> Consuming(s.pcs[t])
    ensures SoleConsumer(s')
  {
    if s.sc {
      forall u | u in s'.pcs ensures OwnConsumer(s', u) {
        assert u != t ==> OwnConsumer(s, u);
      }
    }
  }

  /** The step neither takes up nor gives up a reservation. */
  ghost predicate SameReservation<T>(pre: Pc<T>, pc: Pc<T>) {
    if pre.EnqCopy? then (pc.EnqCopy? || pc.EnqPublish?) && pc.head == pre.head && pc.items == pre.items
    else if pre.DeqCopy? then (pc.DeqCopy? || pc.DeqPublish?) && pc.head == pre.head && pc.n == pre.n
    else !pre.EnqPublish? && !pre.DeqPublish?
  }

  lemma CoveredSame<T>(s: State<T>, s': State<T>, t: Tid)
    requires Shape(s) && Shape(s') && Covered(s)
    requires t in s.pcs && t in s'.pcs && s'.pcs == s.pcs[t := s'.pcs[t]]
    requires SameReservation(s.pcs[t], s'.pcs[t])
    requires s'.prodHead == s.prodHead && s'.prodTail == s.prodTail && s'.prodOwner == s.prodOwner
    requires s'.consHead == s.consHead && s'.consTail == s.consTail && s'.consOwner == s.consOwner
    ensures Covered(s')
  {
    forall k | s'.prodTail <= k < s'.prodHead ensures ProducerAt(s', s'.prodOwner[k], k) {
      assert ProducerAt(s, s.prodOwner[k], k);
    }
    forall k | s'.consTail <= k < s'.consHead ensures ConsumerAt(s', s'.consOwner[k], k) {
      assert ConsumerAt(s, s.consOwner[k], k);
    }
  }

  /** Steps that change nothing but the thread's own position. */
  lemma LocalStepInv<T>(s: State<T>, t: Tid, pc: Pc<T>)
    requires Inv(s) && t in s.pcs
    requires ThreadOk(GoTo(s, t, pc), t)
    requires SameReservation(s.pcs[t], pc)
    requires SoleProducer(GoTo(s, t, pc)) && SoleConsumer(GoTo(s, t, pc))
    ensures Inv(GoTo(s, t, pc))
  {
    var s' := GoTo(s, t, pc);
    CoveredSame(s, s', t);
    assert forall u :: u in s.pcs && u != t ==> ThreadOk(s, u);
    InvFrame(s, s', t);
  }

  lemma CallInv<T>(s: State<T>, t: Tid, a: Action<T>)
    requires Inv(s) && Allowed(s, t, a) && !a.Continue?
    ensures Indexable(s, t) && Inv(Step(s, t, a))
  {
    InvIndexable(s, t);
    if s.pcs[t].Idle? {
      var s' := Step(s, t, a);
      assert s.sp && a.CallEnq? && s.prodTail < s.prodHead ==> ProducerAt(s, s.prodOwner[s.prodTail], s.prodTail);
      assert s.sc && a.CallDeq? && s.consTail < s.consHead ==> ConsumerAt(s, s.consOwner[s.consTail], s.consTail);
      SoleProducerStep(s, s', t);
      SoleConsumerStep(s, s', t);
      LocalStepInv(s, t, s'.pcs[t]);
    }
  }

  /** The loads of an enqueue: prod.head, then cons.tail with the room check. */
  lemma EnqLoadInv<T>(s: State<T>, t: Tid, spurious: bool)
    requires Inv(s) && t in s.pcs && (s.pcs[t].EnqStart? || s.pcs[t].EnqHead?)
    ensures Indexable(s, t) && Inv(StepEnq(s, t, spurious))
  {
    InvIndexable(s, t);
    var s' := StepEnq(s, t, spurious);
    assert ThreadOk(s, t) && (s.sp ==> OwnProducer(s, t));
    assert ThreadOk(s', t);
    SoleProducerStep(s, s', t);
    SoleConsumerStep(s, s', t);
    LocalStepInv(s, t, s'.pcs[t]);
  }

  lemma DeqLoadInv<T>(s: State<T>, t: Tid, spurious: bool)
    requires Inv(s) && t in s.pcs && (s.pcs[t].DeqStart? || s.pcs[t].DeqHead?)
    ensures Indexable(s, t) && Inv(StepDeq(s, t, spurious))
  {
    InvIndexable(s, t);
    var s' := StepDeq(s, t, spurious);
    assert ThreadOk(s, t) && (s.sc ==> OwnConsumer(s, t));
    assert ThreadOk(s', t);
    SoleProducerStep(s, s', t);
    SoleConsumerStep(s, s', t);
    LocalStepInv(s, t, s'.pcs[t]);
  }

  /** A failed compare-and-swap goes back to the start of the loop. */
  lemma RetryInv<T>(s: State<T>, t: Tid, pc: Pc<T>)
    requires Inv(s) && t in s.pcs
    requires
      || (s.pcs[t].EnqCas? && !s.sp && pc == EnqStart(s.pcs[t].objs, s.pcs[t].beh))
      || (s.pcs[t].DeqCas? && !s.sc && pc == DeqStart(s.pcs[t].max, s.pcs[t].beh))
      || (!Producing(s.pcs[t]) && !Consuming(s.pcs[t]) && pc == Idle)
    ensures Inv(GoTo(s, t, pc))
  {
    var s' := GoTo(s, t, pc);
    assert ThreadOk(s, t);
    SoleProducerStep(s, s', t);
    SoleConsumerStep(s, s', t);
    LocalStepInv(s, t, pc);
  }

  /** A producer that has written its last slot waits for its turn to publish. */
  lemma EnqWaitInv<T>(s: State<T>, t: Tid, spurious: bool)
    requires Inv(s) && t in s.pcs && s.pcs[t].EnqCopy? && s.pcs[t].i == |s.pcs[t].items|
    ensures Indexable(s, t) && Inv(StepEnq(s, t, spurious))
  {
    InvIndexable(s, t);
    var s' := StepEnq(s, t, spurious);
    assert ThreadOk(s, t) && (s.sp ==> OwnProducer(s, t));
    if s' != s {
      var EnqCopy(items, head, i) := s.pcs[t];
      forall k | head <= k < head + i ensures Holds(s', k) { assert Holds(s, k); }
      ReservedFrame(s, s', t, items, head);
      SoleProducerStep(s, s', t);
      SoleConsumerStep(s, s', t);
      LocalStepInv(s, t, s'.pcs[t]);
    }
  }

  /** A consumer reads one slot of its reservation and finds the logged object there. */
  lemma ReadInv<T>(s: State<T>, t: Tid, spurious: bool)
    requires Inv(s) && t in s.pcs && s.pcs[t].DeqCopy? && |s.pcs[t].got| < s.pcs[t].n
    ensures Indexable(s, t) && Inv(StepDeq(s, t, spurious))
  {
    InvIndexable(s, t);
    var s' := StepDeq(s, t, spurious);
    assert ThreadOk(s, t) && (s.sc ==> OwnConsumer(s, t));
    var DeqCopy(n, head, got) := s.pcs[t];
    assert ThreadOk(s', t) by {
      assert Holds(s, head + |got|);
      assert s.log[head..head + |got| + 1] == s.log[head..head + |got|] + [s.log[head + |got|]];
    }
    SoleProducerStep(s, s', t);
    SoleConsumerStep(s, s', t);
    LocalStepInv(s, t, s'.pcs[t]);
  }

  /** A consumer that has read its last slot waits for its turn to release. */
  lemma DeqWaitInv<T>(s: State<T>, t: Tid, spurious: bool)
    requires Inv(s) && t in s.pcs && s.pcs[t].DeqCopy? && |s.pcs[t].got| >= s.pcs[t].n
    ensures Indexable(s, t) && Inv(StepDeq(s, t, spurious))
  {
    InvIndexable(s, t);
    var s' := StepDeq(s, t, spurious);
    assert ThreadOk(s, t) && (s.sc ==> OwnConsumer(s, t));
    if s' != s {
      assert ThreadOk(s', t);
      SoleProducerStep(s, s', t);
      SoleConsumerStep(s, s', t);
      LocalStepInv(s, t, s'.pcs[t]);
    }
  }

  /** The successful compare-and-swap on prod.head. */
  lemma ReserveInv<T>(s: State<T>, t: Tid)
    requires Inv(s) && t in s.pcs && s.pcs[t].EnqCas? && s.prodHead == s.pcs[t].head
    requires s.pcs[t].n <= |s.pcs[t].objs|
    ensures Inv(Reserve(s, t, s.pcs[t].objs, s.pcs[t].head, s.pcs[t].n))
  {
    var EnqCas(objs, beh, head, n) := s.pcs[t];
    var s' := Reserve(s, t, objs, head, n);
    assert ThreadOk(s, t) && (s.sp ==> OwnProducer(s, t));
    assert Shape(s');
    assert ThreadOk(s', t) by { assert s'.log[head..head + n] == objs[..n]; }
    forall u | u in s.pcs && u != t ensures Undisturbed(s, s', u) { assert ThreadOk(s, u); }
    assert Extends(s, s') by {
      forall k | s'.consTail <= k < s.prodHead && Holds(s, k) ensures Holds(s', k) { }
    }
    CoveredReserve(s, s', t);
    SoleProducerStep(s, s', t);
    SoleConsumerStep(s, s', t);
    InvFrame(s, s', t);
  }

  lemma CoveredReserve<T>(s: State<T>, s': State<T>, t: Tid)
    requires Shape(s) && Shape(s') && Covered(s) && t in s.pcs && s.pcs[t].EnqCas?
    requires s.prodHead == s.pcs[t].head && s.pcs[t].n <= |s.pcs[t].objs|
    requires s' == Reserve(s, t, s.pcs[t].objs, s.pcs[t].head, s.pcs[t].n)
    ensures Covered(s')
  {
    forall k | s'.prodTail <= k < s'.prodHead ensures ProducerAt(s', s'.prodOwner[k], k) {
      if k < s.prodHead {
        assert ProducerAt(s, s.prodOwner[k], k);
      }
    }
    forall k | s'.consTail <= k < s'.consHead ensures ConsumerAt(s', s'.consOwner[k], k) {
      assert ConsumerAt(s, s.consOwner[k], k);
    }
  }

  /** The successful compare-and-swap on cons.head. */
  lemma TakeInv<T>(s: State<T>, t: Tid)
    requires Inv(s) && t in s.pcs && s.pcs[t].DeqCas? && s.consHead == s.pcs[t].head
    ensures Inv(Take(s, t, s.pcs[t].head, s.pcs[t].n))
  {
    var DeqCas(max, beh, head, n) := s.pcs[t];
    var s' := Take(s, t, head, n);
    assert ThreadOk(s, t) && (s.sc ==> OwnConsumer(s, t));
    assert Shape(s');
    assert ThreadOk(s', t);
    forall u | u in s.pcs && u != t ensures Undisturbed(s, s', u) { assert ThreadOk(s, u); }
    assert Extends(s, s') by {
      forall k | s'.consTail <= k < s.prodHead && Holds(s, k) ensures Holds(s', k) { }
    }
    CoveredTake(s, s', t);
    SoleProducerStep(s, s', t);
    SoleConsumerStep(s, s', t);
    InvFrame(s, s', t);
  }

  lemma CoveredTake<T>(s: State<T>, s': State<T>, t: Tid)
    requires Shape(s) && Shape(s') && Covered(s) && t in s.pcs && s.pcs[t].DeqCas?
    requires s.consHead == s.pcs[t].head
    requires s' == Take(s, t, s.pcs[t].head, s.pcs[t].n)
    ensures Covered(s')
  {
    forall k | s'.prodTail <= k < s'.prodHead ensures ProducerAt(s', s'.prodOwner[k], k) {
      assert ProducerAt(s, s.prodOwner[k], k);
    }
    forall k | s'.consTail <= k < s'.consHead ensures ConsumerAt(s', s'.consOwner[k], k) {
      if k < s.consHead {
        assert ConsumerAt(s, s.consOwner[k], k);
      }
    }
  }

  /** Writing one reserved slot disturbs no index that is reserved, published or being read. */
  lemma WriteInv<T>(s: State<T>, t: Tid, spurious: bool)
    requires Inv(s) && t in s.pcs && s.pcs[t].EnqCopy? && s.pcs[t].i < |s.pcs[t].items|
    ensures Indexable(s, t) && Inv(StepEnq(s, t, spurious))
  {
    InvIndexable(s, t);
    var s' := StepEnq(s, t, spurious);
    var EnqCopy(items, head, i) := s.pcs[t];
    assert ThreadOk(s, t) && (s.sp ==> OwnProducer(s, t));
    assert Shape(s');
    WriteKeeps(s, s', head + i);
    assert s.log[head..head + |items|][i] == s.log[head + i];
    assert Extends(s, s');
    forall u | u in s.pcs && u != t ensures Undisturbed(s, s', u) { assert ThreadOk(s, u); }
    ReservedFrame(s, s', t, items, head);
    forall k | head <= k < head + i + 1 ensures Holds(s', k) {
      if k < head + i {
        assert Holds(s, k);
      }
    }
    CoveredSame(s, s', t);
    SoleProducerStep(s, s', t);
    SoleConsumerStep(s, s', t);
    InvFrame(s, s', t);
  }

  lemma WriteKeeps<T>(s: State<T>, s': State<T>, x: nat)
    requires Shape(s) && Shape(s') && s'.size == s.size && s'.log == s.log && s'.consTail == s.consTail
    requires s.consTail <= x < s.prodHead
    requires forall j :: 0 <= j < s.size && j != Slot(x, s.size) ==> s'.ring[j] == s.ring[j]
    ensures forall k :: s'.consTail <= k < s.prodHead && k != x && Holds(s, k) ==> Holds(s', k)
  {
    forall k | s'.consTail <= k < s.prodHead && k != x && Holds(s, k) ensures Holds(s', k) {
      if Slot(k, s.size) == Slot(x, s.size) {
        if k <= x { SlotInjective(k, x, s.size); } else { SlotInjective(x, k, s.size); }
      }
    }
  }

  /** Storing prod.tail publishes exactly this thread's reservation. */
  lemma PublishInv<T>(s: State<T>, t: Tid, spurious: bool)
    requires Inv(s) && t in s.pcs && s.pcs[t].EnqPublish?
    ensures Indexable(s, t) && Inv(StepEnq(s, t, spurious))
  {
    InvIndexable(s, t);
    var s' := StepEnq(s, t, spurious);
    var EnqPublish(items, head) := s.pcs[t];
    assert ThreadOk(s, t) && (s.sp ==> OwnProducer(s, t));
    assert Shape(s');
    forall k | s'.consTail <= k < s.prodHead && Holds(s, k) ensures Holds(s', k) { }
    assert Extends(s, s');
    forall u | u in s.pcs && u != t ensures Undisturbed(s, s', u) {
      assert ThreadOk(s, u);
      if s.pcs[u].EnqCopy? || s.pcs[u].EnqPublish? {
        assert s.prodOwner[s.pcs[u].head] == u;
      }
    }
    forall k | s'.prodTail <= k < s'.prodHead ensures ProducerAt(s', s'.prodOwner[k], k) {
      assert ProducerAt(s, s.prodOwner[k], k);
    }
    forall k | s'.consTail <= k < s'.consHead ensures ConsumerAt(s', s'.consOwner[k], k) {
      assert ConsumerAt(s, s.consOwner[k], k);
    }
    forall k | s.prodTail <= k < s'.prodTail ensures Holds(s', k) { assert Holds(s, k); }
    SoleProducerStep(s, s', t);
    SoleConsumerStep(s, s', t);
    InvFrame(s, s', t);
  }

  /** Storing cons.tail releases exactly this thread's slots. */
  lemma ReleaseInv<T>(s: State<T>, t: Tid, spurious: bool)
    requires Inv(s) && t in s.pcs && s.pcs[t].DeqPublish?
    ensures Indexable(s, t) && Inv(StepDeq(s, t, spurious))
  {
    InvIndexable(s, t);
    var s' := StepDeq(s, t, spurious);
    var DeqPublish(n, head, got) := s.pcs[t];
    assert ThreadOk(s, t) && (s.sc ==> OwnConsumer(s, t));
    assert Shape(s');
    forall k | s'.consTail <= k < s.prodHead && Holds(s, k) ensures Holds(s', k) { }
    assert Extends(s, s');
    forall u | u in s.pcs && u != t ensures Undisturbed(s, s', u) {
      assert ThreadOk(s, u);
      if s.pcs[u].DeqCopy? || s.pcs[u].DeqPublish? {
        assert s.consOwner[s.pcs[u].head] == u;
      }
    }
    forall k | s'.prodTail <= k < s'.prodHead ensures ProducerAt(s', s'.prodOwner[k], k) {
      assert ProducerAt(s, s.prodOwner[k], k);
    }
    forall k | s'.consTail <= k < s'.consHead ensures ConsumerAt(s', s'.consOwner[k], k) {
      assert ConsumerAt(s, s.consOwner[k], k);
    }
    SoleProducerStep(s, s', t);
    SoleConsumerStep(s, s', t);
    InvFrame(s, s', t);
  }

  lemma StepEnqInv<T>(s: State<T>, t: Tid, z: bool)
    requires Inv(s) && t in s.pcs && Producing(s.pcs[t])
    ensures Indexable(s, t) && Inv(StepEnq(s, t, z))
  {
    InvIndexable(s, t);
    assert ThreadOk(s, t) && (s.sp ==> OwnProducer(s, t));
    hide Inv;
    match s.pcs[t]
    case EnqStart(_, _) => EnqLoadInv(s, t, z);
    case EnqHead(_, _, _) => EnqLoadInv(s, t, z);
    case EnqCas(objs, beh, head, n) =>
      if s.sp || (!z && s.prodHead == head) { ReserveInv(s, t); } else { RetryInv(s, t, EnqStart(objs, beh)); }
    case EnqCopy(items, _, i) =>
      if i < |items| { WriteInv(s, t, z); } else { EnqWaitInv(s, t, z); }
    case EnqPublish(_, _) => PublishInv(s, t, z);
  }

  lemma StepDeqInv<T>(s: State<T>, t: Tid, z: bool)
    requires Inv(s) && t in s.pcs && Consuming(s.pcs[t])
    ensures Indexable(s, t) && Inv(StepDeq(s, t, z))
  {
    InvIndexable(s, t);
    assert ThreadOk(s, t) && (s.sc ==> OwnConsumer(s, t));
    hide Inv;
    match s.pcs[t]
    case DeqStart(_, _) => DeqLoadInv(s, t, z);
    case DeqHead(_, _, _) => DeqLoadInv(s, t, z);
    case DeqCas(max, beh, head, n) =>
      if s.sc || (!z && s.consHead == head) { TakeInv(s, t); } else { RetryInv(s, t, DeqStart(max, beh)); }
    case DeqCopy(n, _, got) =>
      if |got| < n { ReadInv(s, t, z); } else { DeqWaitInv(s, t, z); }
    case DeqPublish(_, _, _) => ReleaseInv(s, t, z);
  }

  /** Every step of every thread keeps the ring invariant. */
  lemma StepInv<T>(s: State<T>, t: Tid, a: Action<T>)
    requires Inv(s) && Allowed(s, t, a)
    ensures Indexable(s, t) && Inv(Step(s, t, a)) && Step(s, t, a).size == s.size
  {
    InvIndexable(s, t);
    hide Inv;
    if !a.Continue? {
      CallInv(s, t, a);
    } else if Producing(s.pcs[t]) {
      StepEnqInv(s, t, a.spurious);
    } else if Consuming(s.pcs[t]) {
      StepDeqInv(s, t, a.spurious);
    } else {
      RetryInv(s, t, Idle);
    }
  }

  // ----- refinement of a bounded FIFO queue

  /** The abstract queue: published and not yet claimed by a consumer. */
  ghost function Queue<T>(s: State<T>): seq<T>
    requires Shape(s)
  {
    s.log[s.consHead..s.prodTail]
  }

  /** An enqueue takes effect when it stores prod.tail, a dequeue when it moves cons.head. */
  ghost function Effect<T>(s: State<T>, t: Tid, a: Action<T>): Event<T>
    requires Inv(s) && t in s.pcs
  {
    assert ThreadOk(s, t);
    if !a.Continue? then Silent
    else match s.pcs[t]
      case EnqPublish(items, _) => if items == [] then Silent else Enqueued(items)
      case DeqCas(_, _, head, n) =>
        if n > 0 && (s.sc || (!a.spurious && s.consHead == head)) then Dequeued(s.log[head..head + n]) else Silent
      case _ => Silent
  }

  /** No step but a publication or a claim moves an end of the abstract queue. */
  lemma SilentStep<T>(s: State<T>, t: Tid, a: Action<T>)
    requires Shape(s) && Indexable(s, t)
    requires a.Continue? && s.pcs[t].EnqPublish? ==> s.pcs[t].items == [] && s.pcs[t].head == s.prodTail
    requires a.Continue? && s.pcs[t].DeqCas? ==>
      || (!s.sc && (a.spurious || s.consHead != s.pcs[t].head)) || (s.pcs[t].n == 0 && s.consHead == s.pcs[t].head)
    ensures var s' := Step(s, t, a);
      s'.consHead == s.consHead && s'.prodTail == s.prodTail && s.log <= s'.log
  {
    hide Slot, Shape;
    if a.Continue? && Producing(s.pcs[t]) {
      hide StepDeq;
    } else {
      hide StepEnq;
    }
  }

  lemma PublishEffect<T>(s: State<T>, t: Tid, spurious: bool)
    requires Shape(s) && Indexable(s, t) && s.pcs[t].EnqPublish? && ThreadOk(s, t) && s.pcs[t].items != []
    requires Shape(StepEnq(s, t, spurious))
    ensures FifoStep(Queue(s), Enqueued(s.pcs[t].items), Queue(StepEnq(s, t, spurious)), s.size - 1)
  {
    var n := |s.pcs[t].items|;
    assert s.log[s.consHead..s.prodTail] + s.log[s.prodTail..s.prodTail + n] == s.log[s.consHead..s.prodTail + n];
  }

  lemma ClaimEffect<T>(s: State<T>, t: Tid, n: nat)
    requires Shape(s) && 1 <= n && s.consHead + n <= s.prodTail
    requires Shape(Take(s, t, s.consHead, n))
    ensures FifoStep(Queue(s), Dequeued(s.log[s.consHead..s.consHead + n]), Queue(Take(s, t, s.consHead, n)), s.size - 1)
  {
    var m := s.consHead + n;
    assert s.log[s.consHead..s.prodTail] == s.log[s.consHead..m] + s.log[m..s.prodTail];
  }

  /** Each step is a step of a FIFO queue of capacity size - 1: a bulk enqueue adds all its objects
      next to each other at the back, a bulk dequeue removes that many from the front. */
  lemma StepRefinesFifo<T>(s: State<T>, t: Tid, a: Action<T>)
    requires Inv(s) && Allowed(s, t, a)
    ensures Indexable(s, t) && Inv(Step(s, t, a))
    ensures FifoStep(Queue(s), Effect(s, t, a), Queue(Step(s, t, a)), s.size - 1)
  {
    StepInv(s, t, a);
    var s' := Step(s, t, a);
    assert Shape(s) && Shape(s') && ThreadOk(s, t) && (s.sc ==> OwnConsumer(s, t));
    hide Inv, FifoStep;
    if a.Continue? && s.pcs[t].EnqPublish? && s.pcs[t].items != [] {
      PublishEffect(s, t, a.spurious);
    } else if a.Continue? && s.pcs[t].DeqCas? && s.pcs[t].n > 0 && (s.sc || (!a.spurious && s.consHead == s.pcs[t].head)) {
      ClaimEffect(s, t, s.pcs[t].n);
    } else {
      hide Queue;
      SilentStep(s, t, a);
      SilentQueue(s, s');
    }
  }

  lemma SilentQueue<T>(s: State<T>, s': State<T>)
    requires Shape(s) && Shape(s')
    requires s'.consHead == s.consHead && s'.prodTail == s.prodTail && s.log <= s'.log
    ensures FifoStep(Queue(s), Silent, Queue(s'), s.size - 1)
  {
  }

  /** A run from an initial ring under an arbitrary schedule. */
  ghost predicate IsRun<T>(run: seq<State<T>>, sched: seq<(Tid, Action<T>)>) {
    && Path(run, sched)
    && Init(run[0])
    && forall i :: 0 <= i < |sched| ==> Allowed(run[i], sched[i].0, sched[i].1)
  }

  /** The states a schedule passes through, whatever the callers ask for. */
  ghost predicate Path<T>(run: seq<State<T>>, sched: seq<(Tid, Action<T>)>) {
    && |run| == |sched| + 1
    && forall i :: 0 <= i < |sched| ==>
         && Indexable(run[i], sched[i].0)
         && run[i + 1] == Step(run[i], sched[i].0, sched[i].1)
  }

  lemma {:induction false} RunInv<T>(run: seq<State<T>>, sched: seq<(Tid, Action<T>)>, i: nat)
    requires IsRun(run, sched) && i <= |sched|
    ensures Inv(run[i]) && run[i].size == run[0].size
  {
    hide Inv, Step, Init, Indexable;
    if i == 0 {
      InitInv(run[0]);
    } else {
      RunInv(run, sched, i - 1);
      StepInv(run[i - 1], sched[i - 1].0, sched[i - 1].1);
    }
  }

  ghost function EventAt<T>(run: seq<State<T>>, sched: seq<(Tid, Action<T>)>, i: nat): Event<T>
    requires IsRun(run, sched) && i < |sched|
  {
    RunInv(run, sched, i);
    Effect(run[i], sched[i].0, sched[i].1)
  }

  /** All objects enqueued by the first i steps, in the order the calls took effect. */
  ghost function EnqHistory<T>(run: seq<State<T>>, sched: seq<(Tid, Action<T>)>, i: nat): seq<T>
    requires IsRun(run, sched) && i <= |sched|
  {
    if i == 0 then [] else EnqHistory(run, sched, i - 1) + EnqPart(EventAt(run, sched, i - 1))
  }

  ghost function DeqHistory<T>(run: seq<State<T>>, sched: seq<(Tid, Action<T>)>, i: nat): seq<T>
    requires IsRun(run, sched) && i <= |sched|
  {
    if i == 0 then [] else DeqHistory(run, sched, i - 1) + DeqPart(EventAt(run, sched, i - 1))
  }

  /** Over every run and every schedule: the objects dequeued so far are exactly the first objects
      enqueued, in order and once each, and the rest is what the ring still offers. */
  lemma {:induction false} RunIsFifo<T>(run: seq<State<T>>, sched: seq<(Tid, Action<T>)>, i: nat)
    requires IsRun(run, sched) && i <= |sched|
    ensures Inv(run[i])
    ensures EnqHistory(run, sched, i) == DeqHistory(run, sched, i) + Queue(run[i])
    ensures |Queue(run[i])| <= run[0].size - 1
  {
    RunInv(run, sched, i);
    assert |Queue(run[i])| <= run[i].size - 1;
    if i == 0 {
      assert run[0].log == [];
    } else {
      RunIsFifo(run, sched, i - 1);
      hide Inv, Step, Indexable, Queue, Effect, FifoStep, EnqPart, DeqPart;
      var s, t, a := run[i - 1], sched[i - 1].0, sched[i - 1].1;
      StepRefinesFifo(s, t, a);
      Ledger(EnqHistory(run, sched, i - 1), DeqHistory(run, sched, i - 1),
             Queue(s), EventAt(run, sched, i - 1), Queue(run[i]), s.size - 1);
    }
  }

  // ----- what single calls may rely on

  /** Two producers (two consumers) in flight never hold a common index. */
  lemma ReservationsDisjoint<T>(s: State<T>, t: Tid, u: Tid, k: nat)
    requires Inv(s) && t != u
    ensures !(ProducerAt(s, t, k) && ProducerAt(s, u, k))
    ensures !(ConsumerAt(s, t, k) && ConsumerAt(s, u, k))
  {
    if t in s.pcs && u in s.pcs {
      assert ThreadOk(s, t) && ThreadOk(s, u);
      assert ProducerAt(s, t, k) ==> s.prodOwner[k] == t;
      assert ConsumerAt(s, t, k) ==> s.consOwner[k] == t;
    }
  }

  /** Whenever something is reserved but unpublished, the producer whose turn it is to publish is in
      flight, so nobody waits for a thread that has left. Likewise for consumers. */
  lemma NextPublisherInFlight<T>(s: State<T>)
    requires Inv(s)
    ensures s.prodTail < s.prodHead ==>
      var t := s.prodOwner[s.prodTail]; ProducerAt(s, t, s.prodTail) && s.pcs[t].head == s.prodTail
    ensures s.consTail < s.consHead ==>
      var t := s.consOwner[s.consTail]; ConsumerAt(s, t, s.consTail) && s.pcs[t].head == s.consTail
  {
    if s.prodTail < s.prodHead {
      var t := s.prodOwner[s.prodTail];
      assert ProducerAt(s, t, s.prodTail);
      assert ThreadOk(s, t);
    }
    if s.consTail < s.consHead {
      var t := s.consOwner[s.consTail];
      assert ConsumerAt(s, t, s.consTail);
      assert ThreadOk(s, t);
    }
  }

  /** An enqueue that gives up does so at an instant (its load of cons.tail) when the ring really had
      fewer free entries than it asked for, although it compares with a possibly stale prod.head. */
  lemma EnqueueRefusalIsTrue<T>(s: State<T>, t: Tid, spurious: bool)
    requires Inv(s) && t in s.pcs && s.pcs[t].EnqHead?
    requires Indexable(s, t) && StepEnq(s, t, spurious).pcs[t].EnqReturn?
    ensures var free := s.size - 1 - (s.prodHead - s.consTail);
      free < |s.pcs[t].objs| && (s.pcs[t].beh.Variable? ==> free == 0)
  {
    assert ThreadOk(s, t);
  }

  /** A dequeue that gives up does so at an instant when the abstract queue really was too short. */
  lemma DequeueRefusalIsTrue<T>(s: State<T>, t: Tid, spurious: bool)
    requires Inv(s) && t in s.pcs && s.pcs[t].DeqHead?
    requires Indexable(s, t) && StepDeq(s, t, spurious).pcs[t].DeqReturn?
    ensures |Queue(s)| < s.pcs[t].max && (s.pcs[t].beh.Variable? ==> Queue(s) == [])
  {
    assert ThreadOk(s, t);
  }

  /** The assertions in the single-producer and single-consumer forms never fail. */
  lemma SingleFormAssertions<T>(s: State<T>, t: Tid)
    requires Inv(s) && t in s.pcs
    ensures s.sp && (s.pcs[t].EnqCopy? || s.pcs[t].EnqPublish?) ==> s.prodTail == s.pcs[t].head
    ensures s.sc && (s.pcs[t].DeqCopy? || s.pcs[t].DeqPublish?) ==> s.consTail == s.pcs[t].head
  {
    assert (s.sp ==> OwnProducer(s, t)) && (s.sc ==> OwnConsumer(s, t));
  }

  /** As long as a consumer holds a claim it is the same claim, and the log is never rewritten. */
  lemma ClaimPersists<T>(s: State<T>, t: Tid, u: Tid, a: Action<T>)
    requires Indexable(s, u) && t in s.pcs && ConsumerHolds(s.pcs[t])
    ensures var s' := Step(s, u, a);
      && s.log <= s'.log && t in s'.pcs
      && (ConsumerHolds(s'.pcs[t]) ==> s'.pcs[t].head == s.pcs[t].head && s'.pcs[t].n == s.pcs[t].n)
  {
    if u == t && a.Continue? {
      var s' := StepDeq(s, t, a.spurious);
      assert Step(s, t, a) == s';
    } else {
      StepKeepsOthers(s, t, u, a);
    }
  }

  lemma StepKeepsOthers<T>(s: State<T>, t: Tid, u: Tid, a: Action<T>)
    requires Indexable(s, u) && t in s.pcs
    requires t != u || (!a.Continue? && !s.pcs[t].Idle?)
    ensures var s' := Step(s, u, a);
      s.log <= s'.log && t in s'.pcs && s'.pcs[t] == s.pcs[t]
  {
    if a.Continue? && Producing(s.pcs[u]) {
      EnqKeepsOthers(s, t, u, a.spurious);
    } else if a.Continue? && Consuming(s.pcs[u]) {
      DeqKeepsOthers(s, t, u, a.spurious);
    }
  }

  lemma EnqKeepsOthers<T>(s: State<T>, t: Tid, u: Tid, z: bool)
    requires Indexable(s, u) && Producing(s.pcs[u]) && t in s.pcs && t != u
    ensures var s' := StepEnq(s, u, z);
      s.log <= s'.log && t in s'.pcs && s'.pcs[t] == s.pcs[t]
  {
  }

  lemma DeqKeepsOthers<T>(s: State<T>, t: Tid, u: Tid, z: bool)
    requires Indexable(s, u) && Consuming(s.pcs[u]) && t in s.pcs && t != u
    ensures var s' := StepDeq(s, u, z);
      s.log <= s'.log && t in s'.pcs && s'.pcs[t] == s.pcs[t]
  {
  }

  predicate ConsumerHolds<T>(pc: Pc<T>) { pc.DeqCopy? || pc.DeqPublish? }

  /** A dequeue that claimed its objects at step i and next stands elsewhere at step j has returned exactly
      the objects the abstract queue gave up at step i, and their number, whatever ran in between. */
  lemma DequeueReturnsItsClaim<T>(run: seq<State<T>>, sched: seq<(Tid, Action<T>)>, i: nat, j: nat, t: Tid, objs: seq<T>)
    requires IsRun(run, sched) && i < j <= |sched| && t == sched[i].0 && EventAt(run, sched, i) == Dequeued(objs)
    requires Holding(run, t, i, j) && !Holding(run, t, i, j + 1)
    ensures t in run[j].pcs && run[j].pcs[t] == DeqReturn(|objs|, objs)
  {
    assert |run| == |sched| + 1;
    hide Inv, Step, Indexable, EventAt, Effect, IsRun;
    StepTo(run, sched, j);
    if j == i + 1 {
      ClaimMade(run, sched, i);
    } else {
      AboutToReturn(run, sched, i, j - 1);
      LeavesClaim(run[j - 1], t, sched[j - 1].0, sched[j - 1].1);
    }
  }

  /** Thread t holds a claim after step i and up to step j. */
  ghost predicate Holding<T>(run: seq<State<T>>, t: Tid, i: nat, j: nat) {
    j <= |run| && forall m :: i < m < j ==> t in run[m].pcs && ConsumerHolds(run[m].pcs[t])
  }

  lemma StepTo<T>(run: seq<State<T>>, sched: seq<(Tid, Action<T>)>, j: nat)
    requires IsRun(run, sched) && 0 < j <= |sched|
    ensures Inv(run[j - 1]) && Indexable(run[j - 1], sched[j - 1].0)
    ensures run[j] == Step(run[j - 1], sched[j - 1].0, sched[j - 1].1)
  {
    RunInv(run, sched, j - 1);
    hide Inv, Step, Indexable;
  }

  lemma ClaimMade<T>(run: seq<State<T>>, sched: seq<(Tid, Action<T>)>, i: nat)
    requires IsRun(run, sched) && i < |sched| && EventAt(run, sched, i).Dequeued?
    ensures sched[i].0 in run[i + 1].pcs && run[i + 1].pcs[sched[i].0].DeqCopy?
  {
    RunInv(run, sched, i);
    hide Inv, Step;
    ClaimStart(run[i], sched[i].0, sched[i].1);
  }

  /** The only way out of a claim is the return. */
  lemma LeavesClaim<T>(s: State<T>, t: Tid, u: Tid, a: Action<T>)
    requires Inv(s) && Indexable(s, u) && t in s.pcs && ConsumerHolds(s.pcs[t])
    ensures t in Step(s, u, a).pcs
    ensures var pc := Step(s, u, a).pcs[t];
      ConsumerHolds(pc) || (s.pcs[t].DeqPublish? && pc == DeqReturn(|s.pcs[t].got|, s.pcs[t].got))
  {
    assert ThreadOk(s, t);
    hide Inv;
    if u == t && a.Continue? {
      assert Step(s, t, a) == StepDeq(s, t, a.spurious);
      hide ThreadOk;
    } else {
      hide ThreadOk;
      StepKeepsOthers(s, t, u, a);
    }
  }

  lemma AboutToReturn<T>(run: seq<State<T>>, sched: seq<(Tid, Action<T>)>, i: nat, j: nat)
    requires IsRun(run, sched) && i < j <= |sched|
    requires EventAt(run, sched, i).Dequeued?
    requires forall m :: i < m <= j ==> sched[i].0 in run[m].pcs && ConsumerHolds(run[m].pcs[sched[i].0])
    ensures run[j].pcs[sched[i].0].DeqPublish? ==>
      run[j].pcs[sched[i].0].got == EventAt(run, sched, i).objs
  {
    var t := sched[i].0;
    RunInv(run, sched, j);
    ClaimAt(run, sched, i, j);
    assert ThreadOk(run[j], t);
    var pc := run[j].pcs[t];
    if pc.DeqPublish? {
      assert run[j].log[pc.head..pc.head + pc.n] == run[i].log[pc.head..pc.head + pc.n];
    }
  }

  lemma {:induction false} ClaimAt<T>(run: seq<State<T>>, sched: seq<(Tid, Action<T>)>, i: nat, j: nat)
    requires IsRun(run, sched) && i < j <= |sched|
    requires EventAt(run, sched, i).Dequeued?
    requires forall m :: i < m <= j ==> sched[i].0 in run[m].pcs && ConsumerHolds(run[m].pcs[sched[i].0])
    ensures run[i].log <= run[j].log
    ensures var pc := run[j].pcs[sched[i].0];
      && ConsumerHolds(pc) && pc.head + pc.n <= |run[i].log|
      && EventAt(run, sched, i).objs == run[i].log[pc.head..pc.head + pc.n]
  {
    hide Inv, Effect, Step, Indexable, Allowed, Init;
    RunInv(run, sched, i);
    if j == i + 1 {
      ClaimStart(run[i], sched[i].0, sched[i].1);
    } else {
      ClaimAt(run, sched, i, j - 1);
      ClaimPersists(run[j - 1], sched[i].0, sched[j - 1].0, sched[j - 1].1);
    }
  }

  lemma ClaimStart<T>(s: State<T>, t: Tid, a: Action<T>)
    requires Inv(s) && Indexable(s, t) && Effect(s, t, a).Dequeued?
    ensures var s' := Step(s, t, a); var pc := s'.pcs[t];
      && s'.log == s.log && pc.DeqCopy? && pc.head + pc.n <= |s.log|
      && Effect(s, t, a).objs == s.log[pc.head..pc.head + pc.n]
  {
    assert ThreadOk(s, t);
    hide Inv;
  }
}
