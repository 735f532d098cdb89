/** The ticket queue of inc/fast/mpmc_bounded_queue.h as a step machine over any number of threads.

    Every atomic load, compare-and-swap, fetch-add and store is one step, and so is the write and the
    read of a slot's data. Tickets are unbounded counters.
 */
module MpmcQueue {
  import opened Slots
  import opened Fifo

  type Tid = nat

  datatype Pc<T> =
    | Idle
    | TryEnq(e: T)
    | TryEnqTurn(e: T, hd: nat)
    | TryEnqCas(e: T, hd: nat)
    | TryEnqReload(e: T, hd: nat, headThen: nat, turnThen: nat)
    | WaitEnq(e: T)
    | EnqSpin(e: T, k: nat)
    | EnqWrite(e: T, k: nat)
    | EnqStore(e: T, k: nat)
    | EnqDone(ok: bool)
    | TryDeq
    | TryDeqTurn(tl: nat)
    | TryDeqCas(tl: nat)
    | TryDeqReload(tl: nat, tailThen: nat, turnThen: nat)
    | WaitDeq
    | DeqSpin(k: nat)
    | DeqRead(k: nat)
    | DeqStore(k: nat, v: T)
    | DeqDone(k: nat, v: T)
    | DeqFailed

  datatype Action<T> = CallTryEnq(e: T) | CallTryDeq | CallWaitEnq(e: T) | CallWaitDeq | Continue

  /** The shared queue, the threads, and history variables that no step reads: log[k] is the value of
      the enqueuer with ticket k; the owners name the thread that drew each ticket. The values headThen,
      tailThen and turnThen inside a position record what the failed test saw and are not read either. */
  datatype State<T> = State(
    sz: nat, head: nat, tail: nat,
    turns: seq<nat>, data: seq<T>,
    pcs: map<Tid, Pc<T>>,
    log: seq<T>, enqOwner: seq<Tid>, deqOwner: seq<Tid>)

  ghost predicate Init<T>(s: State<T>) {
    && s.sz >= 1 && s.head == s.tail == 0
    && |s.turns| == |s.data| == s.sz
    && (forall i :: 0 <= i < s.sz ==> s.turns[i] == 0)
    && (forall t :: t in s.pcs ==> s.pcs[t].Idle?)
    && s.log == [] && s.enqOwner == [] && s.deqOwner == []
  }

  ghost predicate Indexable<T>(s: State<T>, t: Tid) {
    s.sz >= 1 && |s.turns| == |s.data| == s.sz && t in s.pcs
  }

  function TurnOf<T>(s: State<T>, k: nat): nat
    requires s.sz >= 1 && |s.turns| == s.sz
  {
    s.turns[Slot(k, s.sz)]
  }

  /** The turn value at which ticket k may write its slot; one more lets ticket k be read. */
  function EnqTurn(k: nat, sz: nat): nat
    requires sz >= 1
  {
    Round(k, sz) * 2
  }

  function DeqTurn(k: nat, sz: nat): nat
    requires sz >= 1
  {
    1 + Round(k, sz) * 2
  }

  // ----- one step of one thread

  function GoTo<T>(s: State<T>, t: Tid, pc: Pc<T>): State<T> {
    s.(pcs := s.pcs[t := pc])
  }

  function ClaimHead<T>(s: State<T>, t: Tid, e: T, pc: Pc<T>): State<T> {
    s.(head := s.head + 1, pcs := s.pcs[t := pc], log := s.log + [e], enqOwner := s.enqOwner + [t])
  }

  function ClaimTail<T>(s: State<T>, t: Tid, pc: Pc<T>): State<T> {
    s.(tail := s.tail + 1, pcs := s.pcs[t := pc], deqOwner := s.deqOwner + [t])
  }

  function StoreTurn<T>(s: State<T>, t: Tid, k: nat, turn: nat, pc: Pc<T>): State<T>
    requires s.sz >= 1 && |s.turns| == s.sz
  {
    s.(turns := s.turns[Slot(k, s.sz) := turn], pcs := s.pcs[t := pc])
  }

  predicate Enqueuing<T>(pc: Pc<T>) {
    || pc.TryEnq? || pc.TryEnqTurn? || pc.TryEnqCas? || pc.TryEnqReload? || pc.WaitEnq?
    || pc.EnqSpin? || pc.EnqWrite? || pc.EnqStore?
  }

  predicate Dequeuing<T>(pc: Pc<T>) {
    || pc.TryDeq? || pc.TryDeqTurn? || pc.TryDeqCas? || pc.TryDeqReload? || pc.WaitDeq?
    || pc.DeqSpin? || pc.DeqRead? || pc.DeqStore?
  }

  function StepEnq<T>(s: State<T>, t: Tid): State<T>
    requires Indexable(s, t) && Enqueuing(s.pcs[t])
  {
    match s.pcs[t]
    case TryEnq(e) => GoTo(s, t, TryEnqTurn(e, s.head))
    case TryEnqTurn(e, hd) =>
      if TurnOf(s, hd) == EnqTurn(hd, s.sz) then GoTo(s, t, TryEnqCas(e, hd))
      else GoTo(s, t, TryEnqReload(e, hd, s.head, TurnOf(s, hd)))
    case TryEnqCas(e, hd) =>
      if s.head == hd then ClaimHead(s, t, e, EnqWrite(e, hd))
      else GoTo(s, t, TryEnqTurn(e, s.head))
    case TryEnqReload(e, hd, _, _) =>
      if s.head == hd then GoTo(s, t, EnqDone(false))
      else GoTo(s, t, TryEnqTurn(e, s.head))
    case WaitEnq(e) => ClaimHead(s, t, e, EnqSpin(e, s.head))
    case EnqSpin(e, k) =>
      if TurnOf(s, k) == EnqTurn(k, s.sz) then GoTo(s, t, EnqWrite(e, k)) else s
    case EnqWrite(e, k) => GoTo(s.(data := s.data[Slot(k, s.sz) := e]), t, EnqStore(e, k))
    case EnqStore(e, k) => StoreTurn(s, t, k, EnqTurn(k, s.sz) + 1, EnqDone(true))
  }

  function StepDeq<T>(s: State<T>, t: Tid): State<T>
    requires Indexable(s, t) && Dequeuing(s.pcs[t])
  {
    match s.pcs[t]
    case TryDeq => GoTo(s, t, TryDeqTurn(s.tail))
    case TryDeqTurn(tl) =>
      if TurnOf(s, tl) == DeqTurn(tl, s.sz) then GoTo(s, t, TryDeqCas(tl))
      else GoTo(s, t, TryDeqReload(tl, s.tail, TurnOf(s, tl)))
    case TryDeqCas(tl) =>
      if s.tail == tl then ClaimTail(s, t, DeqRead(tl))
      else GoTo(s, t, TryDeqTurn(s.tail))
    case TryDeqReload(tl, _, _) =>
      if s.tail == tl then GoTo(s, t, DeqFailed)
      else GoTo(s, t, TryDeqTurn(s.tail))
    case WaitDeq => ClaimTail(s, t, DeqSpin(s.tail))
    case DeqSpin(k) =>
      if TurnOf(s, k) == DeqTurn(k, s.sz) then GoTo(s, t, DeqRead(k)) else s
    case DeqRead(k) => GoTo(s, t, DeqStore(k, s.data[Slot(k, s.sz)]))
    case DeqStore(k, v) => StoreTurn(s, t, k, DeqTurn(k, s.sz) + 1, DeqDone(k, v))
  }

  function Step<T>(s: State<T>, t: Tid, a: Action<T>): State<T>
    requires Indexable(s, t)
  {
    var pc := s.pcs[t];
    if a.Continue? then
      if Enqueuing(pc) then StepEnq(s, t)
      else if Dequeuing(pc) then StepDeq(s, t)
      else GoTo(s, t, Idle)
    else if !pc.Idle? then s
    else GoTo(s, t,
      match a
      case CallTryEnq(e) => TryEnq(e)
      case CallTryDeq => TryDeq
      case CallWaitEnq(e) => WaitEnq(e)
      case CallWaitDeq => WaitDeq)
  }

  // ----- the invariant

  ghost predicate Shape<T>(s: State<T>) {
    && s.sz >= 1 && |s.turns| == |s.data| == s.sz
    && |s.log| == |s.enqOwner| == s.head && |s.deqOwner| == s.tail
  }

  ghost predicate EnqHolds<T>(s: State<T>, t: Tid, k: nat) {
    t in s.pcs && (s.pcs[t].EnqSpin? || s.pcs[t].EnqWrite? || s.pcs[t].EnqStore?) && s.pcs[t].k == k
  }

  ghost predicate DeqHolds<T>(s: State<T>, t: Tid, k: nat) {
    t in s.pcs && (s.pcs[t].DeqSpin? || s.pcs[t].DeqRead? || s.pcs[t].DeqStore?) && s.pcs[t].k == k
  }

  /** What a slot's turn says about ticket k: not before the ticket is drawn, drawn but unfinished only
      while its owner is at work, and full exactly with the value of ticket k. */
  ghost predicate TicketOk<T>(s: State<T>, k: nat)
    requires Shape(s)
  {
    var turn := TurnOf(s, k);
    && (turn <= EnqTurn(k, s.sz) ==> k >= s.head || EnqHolds(s, s.enqOwner[k], k))
    && (turn > EnqTurn(k, s.sz) ==> k < s.head)
    && (turn <= DeqTurn(k, s.sz) ==> k >= s.tail || DeqHolds(s, s.deqOwner[k], k))
    && (turn > DeqTurn(k, s.sz) ==> k < s.tail)
    && (turn == DeqTurn(k, s.sz) ==> s.data[Slot(k, s.sz)] == s.log[k])
  }

  ghost predicate ThreadOk<T>(s: State<T>, t: Tid)
    requires Shape(s) && t in s.pcs
  {
    match s.pcs[t]
    case TryEnqTurn(_, hd) => hd <= s.head
    case TryEnqCas(_, hd) => hd <= s.head && TurnOf(s, hd) >= EnqTurn(hd, s.sz)
    case TryEnqReload(_, hd, headThen, turnThen) =>
      && hd <= headThen <= s.head
      && (headThen == hd ==> turnThen < EnqTurn(hd, s.sz))
    case EnqSpin(e, k) =>
      k < s.head && s.enqOwner[k] == t && s.log[k] == e && TurnOf(s, k) <= EnqTurn(k, s.sz)
    case EnqWrite(e, k) =>
      k < s.head && s.enqOwner[k] == t && s.log[k] == e && TurnOf(s, k) == EnqTurn(k, s.sz)
    case EnqStore(e, k) =>
      && k < s.head && s.enqOwner[k] == t && s.log[k] == e && TurnOf(s, k) == EnqTurn(k, s.sz)
      && s.data[Slot(k, s.sz)] == e
    case TryDeqTurn(tl) => tl <= s.tail
    case TryDeqCas(tl) => tl <= s.tail && TurnOf(s, tl) >= DeqTurn(tl, s.sz)
    case TryDeqReload(tl, tailThen, turnThen) =>
      && tl <= tailThen <= s.tail
      && (tailThen == tl ==> turnThen < DeqTurn(tl, s.sz))
    case DeqSpin(k) =>
      k < s.tail && s.deqOwner[k] == t && TurnOf(s, k) <= DeqTurn(k, s.sz)
    case DeqRead(k) =>
      k < s.tail && s.deqOwner[k] == t && TurnOf(s, k) == DeqTurn(k, s.sz)
    case DeqStore(k, v) =>
      && k < s.tail && s.deqOwner[k] == t && TurnOf(s, k) == DeqTurn(k, s.sz)
      && k < s.head && s.log[k] == v
    case DeqDone(k, v) => k < s.head && s.log[k] == v
    case _ => true
  }

  ghost predicate Inv<T>(s: State<T>) {
    && Shape(s)
    && (forall k: nat :: TicketOk(s, k))
    && (forall t :: t in s.pcs ==> ThreadOk(s, t))
  }

  lemma InitInv<T>(s: State<T>)
    requires Init(s)
    ensures Inv(s)
  {
  }

  // ----- every step keeps the invariant

  /** Steps that change only the thread's own position, without taking up or giving up a ticket. */
  lemma LocalInv<T>(s: State<T>, t: Tid, pc: Pc<T>)
    requires Inv(s) && t in s.pcs
    requires ThreadOk(GoTo(s, t, pc), t)
    requires forall k :: EnqHolds(s, t, k) ==> EnqHolds(GoTo(s, t, pc), t, k)
    requires forall k :: DeqHolds(s, t, k) ==> DeqHolds(GoTo(s, t, pc), t, k)
    ensures Inv(GoTo(s, t, pc))
  {
    hide Slot, Round;
    var s' := GoTo(s, t, pc);
    forall k: nat ensures TicketOk(s', k) {
      assert TicketOk(s, k) && TurnOf(s', k) == TurnOf(s, k);
    }
    forall u | u in s'.pcs ensures ThreadOk(s', u) {
      assert ThreadOk(s, u);
    }
  }

  lemma ClaimHeadInv<T>(s: State<T>, t: Tid, e: T, pc: Pc<T>)
    requires Inv(s) && t in s.pcs
    requires (s.pcs[t].TryEnqCas? && s.pcs[t].hd == s.head && pc == EnqWrite(e, s.head))
          || (s.pcs[t].WaitEnq? && pc == EnqSpin(e, s.head))
    ensures Inv(ClaimHead(s, t, e, pc))
  {
    hide Slot, Round;
    var s' := ClaimHead(s, t, e, pc);
    assert TicketOk(s, s.head) && ThreadOk(s, t);
    forall k: nat ensures TicketOk(s', k) {
      assert TicketOk(s, k) && TurnOf(s', k) == TurnOf(s, k);
    }
    forall u | u in s'.pcs ensures ThreadOk(s', u) {
      assert ThreadOk(s, u);
    }
  }

  lemma ClaimTailInv<T>(s: State<T>, t: Tid, pc: Pc<T>)
    requires Inv(s) && t in s.pcs
    requires (s.pcs[t].TryDeqCas? && s.pcs[t].tl == s.tail && pc == DeqRead(s.tail))
          || (s.pcs[t].WaitDeq? && pc == DeqSpin(s.tail))
    ensures Inv(ClaimTail(s, t, pc))
  {
    hide Slot, Round;
    var s' := ClaimTail(s, t, pc);
    assert TicketOk(s, s.tail) && ThreadOk(s, t);
    forall k: nat ensures TicketOk(s', k) {
      assert TicketOk(s, k) && TurnOf(s', k) == TurnOf(s, k);
    }
    forall u | u in s'.pcs ensures ThreadOk(s', u) {
      assert ThreadOk(s, u);
    }
  }

  /** Writing the data of a slot whose turn has come to this enqueuer hurts nobody else. */
  lemma WriteInv<T>(s: State<T>, t: Tid)
    requires Inv(s) && t in s.pcs && s.pcs[t].EnqWrite?
    ensures Inv(StepEnq(s, t))
  {
    hide Slot, Round;
    var s' := StepEnq(s, t);
    var k0 := s.pcs[t].k;
    assert ThreadOk(s, t);
    forall k: nat ensures TicketOk(s', k) {
      assert TicketOk(s, k) && TurnOf(s', k) == TurnOf(s, k);
    }
    forall u | u in s'.pcs ensures ThreadOk(s', u) {
      assert ThreadOk(s, u);
      if u != t && s.pcs[u].EnqStore? && Slot(s.pcs[u].k, s.sz) == Slot(k0, s.sz) {
        RoundsOrdered(s.pcs[u].k, k0, s.sz);
      }
    }
  }

  /** A finished enqueue (half 0) or dequeue (half 1) of ticket k0 moves its slot's turn up by one. */
  lemma StoreTicket<T>(s: State<T>, s': State<T>, t: Tid, k0: nat, half: nat, k: nat)
    requires Inv(s) && t in s.pcs && half < 2
    requires TurnOf(s, k0) == EnqTurn(k0, s.sz) + half
    requires half == 0 ==> s.pcs[t].EnqStore? && s.pcs[t].k == k0
    requires half == 1 ==> s.pcs[t].DeqStore? && s.pcs[t].k == k0
    requires t in s'.pcs && !Enqueuing(s'.pcs[t]) && !Dequeuing(s'.pcs[t])
    requires s' == StoreTurn(s, t, k0, EnqTurn(k0, s.sz) + half + 1, s'.pcs[t])
    ensures TicketOk(s', k)
  {
    hide Slot, Round;
    assert TicketOk(s, k) && TicketOk(s, k0) && ThreadOk(s, t);
    if Slot(k, s.sz) == Slot(k0, s.sz) {
      RoundsOrdered(k, k0, s.sz);
    }
  }

  lemma StoreThread<T>(s: State<T>, s': State<T>, t: Tid, k0: nat, half: nat, u: Tid)
    requires Inv(s) && t in s.pcs && u in s.pcs && u != t && half < 2
    requires TurnOf(s, k0) == EnqTurn(k0, s.sz) + half
    requires half == 0 ==> s.pcs[t].EnqStore? && s.pcs[t].k == k0
    requires half == 1 ==> s.pcs[t].DeqStore? && s.pcs[t].k == k0
    requires t in s'.pcs && s' == StoreTurn(s, t, k0, EnqTurn(k0, s.sz) + half + 1, s'.pcs[t])
    ensures ThreadOk(s', u)
  {
    hide Slot, Round;
    assert ThreadOk(s, u) && ThreadOk(s, t);
    match s.pcs[u]
    case TryEnqCas(_, hd) => StoreMonotone(s, s', t, k0, half, hd);
    case TryDeqCas(tl) => StoreMonotone(s, s', t, k0, half, tl);
    case EnqSpin(_, k) => if Slot(k, s.sz) == Slot(k0, s.sz) { RoundsOrdered(k, k0, s.sz); }
    case EnqWrite(_, k) => if Slot(k, s.sz) == Slot(k0, s.sz) { RoundsOrdered(k, k0, s.sz); }
    case EnqStore(_, k) => if Slot(k, s.sz) == Slot(k0, s.sz) { RoundsOrdered(k, k0, s.sz); }
    case DeqSpin(k) => if Slot(k, s.sz) == Slot(k0, s.sz) { RoundsOrdered(k, k0, s.sz); }
    case DeqRead(k) => if Slot(k, s.sz) == Slot(k0, s.sz) { RoundsOrdered(k, k0, s.sz); }
    case DeqStore(k, _) => if Slot(k, s.sz) == Slot(k0, s.sz) { RoundsOrdered(k, k0, s.sz); }
    case _ =>
  }

  lemma StoreMonotone<T>(s: State<T>, s': State<T>, t: Tid, k0: nat, half: nat, k: nat)
    requires Shape(s) && t in s'.pcs
    requires TurnOf(s, k0) == EnqTurn(k0, s.sz) + half
    requires s' == StoreTurn(s, t, k0, EnqTurn(k0, s.sz) + half + 1, s'.pcs[t])
    ensures TurnOf(s, k) <= TurnOf(s', k)
  {
    hide Slot, Round;
  }

  lemma StoreInv<T>(s: State<T>, t: Tid)
    requires Inv(s) && t in s.pcs && (s.pcs[t].EnqStore? || s.pcs[t].DeqStore?)
    ensures Inv(if s.pcs[t].EnqStore? then StepEnq(s, t) else StepDeq(s, t))
  {
    hide Slot, Round;
    var s' := if s.pcs[t].EnqStore? then StepEnq(s, t) else StepDeq(s, t);
    var k0, half := s.pcs[t].k, if s.pcs[t].EnqStore? then 0 else 1;
    assert ThreadOk(s, t);
    assert Shape(s') && ThreadOk(s', t);
    forall k: nat ensures TicketOk(s', k) {
      StoreTicket(s, s', t, k0, half, k);
    }
    forall u | u in s'.pcs ensures ThreadOk(s', u) {
      if u != t {
        StoreThread(s, s', t, k0, half, u);
      }
    }
  }

  /** Every step of every thread, try and wait forms mixed freely, keeps the invariant. */
  lemma StepInv<T>(s: State<T>, t: Tid, a: Action<T>)
    requires Inv(s) && t in s.pcs
    ensures Indexable(s, t) && Inv(Step(s, t, a))
  {
    hide Slot, Round;
    assert ThreadOk(s, t);
    var pc := s.pcs[t];
    if !a.Continue? {
      if pc.Idle? { LocalInv(s, t, Step(s, t, a).pcs[t]); }
    } else if Enqueuing(pc) {
      StepEnqInv(s, t);
    } else if Dequeuing(pc) {
      StepDeqInv(s, t);
    } else {
      LocalInv(s, t, Idle);
    }
  }

  lemma StepEnqInv<T>(s: State<T>, t: Tid)
    requires Inv(s) && t in s.pcs && Enqueuing(s.pcs[t])
    ensures Inv(StepEnq(s, t))
  {
    hide Slot, Round;
    assert ThreadOk(s, t);
    var s' := StepEnq(s, t);
    match s.pcs[t]
    case TryEnqTurn(e, hd) =>
      assert TicketOk(s, hd);
      LocalInv(s, t, s'.pcs[t]);
    case TryEnqCas(e, hd) =>
      if s.head == hd { ClaimHeadInv(s, t, e, EnqWrite(e, hd)); } else { LocalInv(s, t, s'.pcs[t]); }
    case WaitEnq(e) => ClaimHeadInv(s, t, e, EnqSpin(e, s.head));
    case EnqSpin(e, k) => if s' != s { LocalInv(s, t, s'.pcs[t]); }
    case EnqWrite(_, _) => WriteInv(s, t);
    case EnqStore(_, _) => StoreInv(s, t);
    case TryEnq(_) => LocalInv(s, t, s'.pcs[t]);
    case TryEnqReload(_, _, _, _) => LocalInv(s, t, s'.pcs[t]);
  }

  lemma StepDeqInv<T>(s: State<T>, t: Tid)
    requires Inv(s) && t in s.pcs && Dequeuing(s.pcs[t])
    ensures Inv(StepDeq(s, t))
  {
    hide Slot, Round;
    assert ThreadOk(s, t);
    var s' := StepDeq(s, t);
    match s.pcs[t]
    case TryDeqTurn(tl) =>
      assert TicketOk(s, tl);
      LocalInv(s, t, s'.pcs[t]);
    case TryDeqCas(tl) =>
      if s.tail == tl { ClaimTailInv(s, t, DeqRead(tl)); } else { LocalInv(s, t, s'.pcs[t]); }
    case WaitDeq => ClaimTailInv(s, t, DeqSpin(s.tail));
    case DeqSpin(k) => if s' != s { LocalInv(s, t, s'.pcs[t]); }
    case DeqRead(k) =>
      assert TicketOk(s, k);
      LocalInv(s, t, s'.pcs[t]);
    case DeqStore(_, _) => StoreInv(s, t);
    case TryDeq => LocalInv(s, t, s'.pcs[t]);
    case TryDeqReload(_, _, _) => LocalInv(s, t, s'.pcs[t]);
  }

  // ----- what the steps guarantee, try and wait forms mixed

  /** Thread t has been let into slot i and has not yet stored the slot's next turn. */
  ghost predicate Inside<T>(s: State<T>, t: Tid, i: nat)
    requires s.sz >= 1
  {
    && t in s.pcs
    && (s.pcs[t].EnqWrite? || s.pcs[t].EnqStore? || s.pcs[t].DeqRead? || s.pcs[t].DeqStore?)
    && Slot(s.pcs[t].k, s.sz) == i
  }

  /** At most one thread works on a slot at a time. */
  lemma SlotExclusive<T>(s: State<T>, t: Tid, u: Tid, i: nat)
    requires Inv(s) && Inside(s, t, i) && Inside(s, u, i)
    ensures t == u
  {
    hide Slot, Round;
    assert ThreadOk(s, t) && ThreadOk(s, u);
    RoundsOrdered(s.pcs[t].k, s.pcs[u].k, s.sz);
  }

  /** A slot's turn only ever goes up, by one, and only by the thread inside the slot. */
  lemma TurnsClimb<T>(s: State<T>, t: Tid, a: Action<T>, i: nat)
    requires Inv(s) && t in s.pcs && i < s.sz
    ensures Indexable(s, t) && Inv(Step(s, t, a)) && Step(s, t, a).sz == s.sz
    ensures var s' := Step(s, t, a);
      s'.turns[i] == s.turns[i] || (s'.turns[i] == s.turns[i] + 1 && Inside(s, t, i))
  {
    hide Slot, Round;
    StepInv(s, t, a);
    assert ThreadOk(s, t);
    hide Inv;
  }

  /** A try-enqueue draws a ticket only when there is room, a try-dequeue only when there is a value. */
  lemma TryClaims<T>(s: State<T>, t: Tid)
    requires Inv(s) && t in s.pcs
    ensures s.pcs[t].TryEnqCas? && s.pcs[t].hd == s.head ==> s.head < s.tail + s.sz
    ensures s.pcs[t].TryDeqCas? && s.pcs[t].tl == s.tail ==> s.tail < s.head
  {
    assert ThreadOk(s, t);
    if s.pcs[t].TryEnqCas? && s.pcs[t].hd == s.head && s.head >= s.sz {
      var k := s.head - s.sz;
      assert TicketOk(s, k);
      SlotPeriodic(k, s.sz);
      hide Slot, Round;
    }
    if s.pcs[t].TryDeqCas? && s.pcs[t].tl == s.tail {
      assert TicketOk(s, s.tail);
    }
  }

  // ----- runs

  ghost predicate IsRun<T>(run: seq<State<T>>, sched: seq<(Tid, Action<T>)>) {
    && |run| == |sched| + 1 && Init(run[0])
    && forall i :: 0 <= i < |sched| ==>
         && Indexable(run[i], sched[i].0)
         && run[i + 1] == Step(run[i], sched[i].0, sched[i].1)
  }

  lemma {:induction false} RunInv<T>(run: seq<State<T>>, sched: seq<(Tid, Action<T>)>, i: nat)
    requires IsRun(run, sched) && i <= |sched|
    ensures Inv(run[i])
  {
    hide Inv, Step, Init;
    if i == 0 {
      InitInv(run[0]);
    } else {
      RunInv(run, sched, i - 1);
      StepInv(run[i - 1], sched[i - 1].0, sched[i - 1].1);
    }
  }

  lemma LogGrows<T>(s: State<T>, t: Tid, a: Action<T>)
    requires Indexable(s, t)
    ensures s.log <= Step(s, t, a).log && s.head <= Step(s, t, a).head && Step(s, t, a).sz == s.sz
  {
    hide Slot, Round;
  }

  lemma {:induction false} RunLogGrows<T>(run: seq<State<T>>, sched: seq<(Tid, Action<T>)>, i: nat, j: nat)
    requires IsRun(run, sched) && i <= j <= |sched|
    ensures run[i].log <= run[j].log && run[i].sz == run[j].sz
  {
    hide Step, Init;
    if i < j {
      RunLogGrows(run, sched, i, j - 1);
      LogGrows(run[j - 1], sched[j - 1].0, sched[j - 1].1);
    }
  }

  /** The dequeuer with ticket k returns the value of the enqueuer with ticket k, however far apart in
      the run the two are and whatever forms of the operations they use. */
  lemma TicketsPair<T>(run: seq<State<T>>, sched: seq<(Tid, Action<T>)>, i: nat, j: nat, t: Tid, u: Tid, k: nat)
    requires IsRun(run, sched) && i <= j <= |sched|
    requires EnqHolds(run[i], t, k)
    requires u in run[j].pcs && run[j].pcs[u].DeqDone? && run[j].pcs[u].k == k
    ensures run[j].pcs[u].v == run[i].pcs[t].e
  {
    RunInv(run, sched, i);
    RunInv(run, sched, j);
    RunLogGrows(run, sched, i, j);
    assert ThreadOk(run[i], t) && ThreadOk(run[j], u);
  }

  /** No two threads ever draw the same ticket. */
  lemma TicketsDistinct<T>(s: State<T>, t: Tid, u: Tid, k: nat)
    requires Inv(s)
    ensures EnqHolds(s, t, k) && EnqHolds(s, u, k) ==> t == u
    ensures DeqHolds(s, t, k) && DeqHolds(s, u, k) ==> t == u
  {
    if t in s.pcs && u in s.pcs {
      assert ThreadOk(s, t) && ThreadOk(s, u);
    }
  }

  // ----- refused try operations

  /** What a try-enqueue about to re-read head saw was really the case at an earlier instant. */
  lemma {:induction false} ReloadSawIt<T>(run: seq<State<T>>, sched: seq<(Tid, Action<T>)>, j: nat, t: Tid) returns (i: nat)
    requires IsRun(run, sched) && j <= |sched|
    requires t in run[j].pcs && run[j].pcs[t].TryEnqReload?
    ensures i < j && run[i].sz == run[j].sz >= 1 && |run[i].turns| == run[i].sz
    ensures var pc := run[j].pcs[t];
      run[i].head == pc.headThen && TurnOf(run[i], pc.hd) == pc.turnThen
    ensures forall m :: i < m <= j ==> t in run[m].pcs && run[m].pcs[t] == run[j].pcs[t]
  {
    assert j > 0;
    var s, u, a := run[j - 1], sched[j - 1].0, sched[j - 1].1;
    assert run[j] == Step(s, u, a);
    LogGrows(s, u, a);
    if t in s.pcs && s.pcs[t] == run[j].pcs[t] {
      i := ReloadSawIt(run, sched, j - 1, t);
    } else {
      OnlyOwnSteps(s, u, a, t);
      i := j - 1;
    }
  }

  lemma OnlyOwnSteps<T>(s: State<T>, u: Tid, a: Action<T>, t: Tid)
    requires Indexable(s, u)
    requires t in Step(s, u, a).pcs && Step(s, u, a).pcs[t].TryEnqReload?
    requires t !in s.pcs || s.pcs[t] != Step(s, u, a).pcs[t]
    ensures var pc := Step(s, u, a).pcs[t];
      pc.headThen == s.head && pc.turnThen == TurnOf(s, pc.hd)
  {
    hide Slot, Round;
    assert t == u;
    assert a.Continue? && Enqueuing(s.pcs[u]);
  }

  /** The ticket one table before head has not been released by its dequeuer. */
  ghost predicate NoRoomAt<T>(s: State<T>) {
    s.sz >= 1 && |s.turns| == s.sz && s.head >= s.sz && TurnOf(s, s.head - s.sz) <= DeqTurn(s.head - s.sz, s.sz)
  }

  /** The enqueuer of the ticket tail stands at has not come, or is still at work. */
  ghost predicate NothingAt<T>(s: State<T>) {
    && Shape(s) && TurnOf(s, s.tail) <= EnqTurn(s.tail, s.sz)
    && (s.tail >= s.head || EnqHolds(s, s.enqOwner[s.tail], s.tail))
  }

  /** Where a call has been since the instant that made it fail. */
  predicate FailingEnq<T>(pc: Pc<T>) { pc.TryEnqReload? || pc == EnqDone(false) }
  predicate FailingDeq<T>(pc: Pc<T>) { pc.TryDeqReload? || pc.DeqFailed? }

  /** Wherever in a run an enqueue reports failure, there was an earlier instant, from which on the thread was
      on its way to that report, with no room. */
  lemma {:induction false} FailedEnqueueHadNoRoom<T>(run: seq<State<T>>, sched: seq<(Tid, Action<T>)>, j: nat, t: Tid) returns (i: nat)
    requires IsRun(run, sched) && j <= |sched| && t in run[j].pcs && run[j].pcs[t] == EnqDone(false)
    ensures i < j && Inv(run[i]) && NoRoomAt(run[i])
    ensures forall m :: i < m <= j ==> t in run[m].pcs && FailingEnq(run[m].pcs[t])
  {
    assert j > 0;
    var s, u, a := run[j - 1], sched[j - 1].0, sched[j - 1].1;
    assert run[j] == Step(s, u, a);
    hide Step, Indexable, NoRoomAt;
    if t in s.pcs && s.pcs[t] == EnqDone(false) {
      i := FailedEnqueueHadNoRoom(run, sched, j - 1, t);
    } else {
      AnswersFalse(s, u, a, t);
      i := ReloadFoundNoRoom(run, sched, j - 1, t);
    }
  }

  lemma ReloadFoundNoRoom<T>(run: seq<State<T>>, sched: seq<(Tid, Action<T>)>, j: nat, t: Tid) returns (i: nat)
    requires IsRun(run, sched) && j <= |sched| && t in run[j].pcs && run[j].pcs[t].TryEnqReload? && run[j].head == run[j].pcs[t].hd
    ensures i < j && Inv(run[i]) && NoRoomAt(run[i])
    ensures forall m :: i < m <= j ==> t in run[m].pcs && run[m].pcs[t] == run[j].pcs[t]
  {
    RunInv(run, sched, j);
    assert ThreadOk(run[j], t);
    i := ReloadSawIt(run, sched, j, t);
    RunInv(run, sched, i);
    hide Inv, IsRun;
    NoRoom(run[i], run[j].pcs[t].hd);
  }

  lemma AnswersFalse<T>(s: State<T>, u: Tid, a: Action<T>, t: Tid)
    requires Indexable(s, u) && t in Step(s, u, a).pcs && (t in s.pcs ==> s.pcs[t] != Step(s, u, a).pcs[t])
    ensures Step(s, u, a).pcs[t] == EnqDone(false) ==> t in s.pcs && s.pcs[t].TryEnqReload? && s.head == s.pcs[t].hd
    ensures Step(s, u, a).pcs[t].DeqFailed? ==> t in s.pcs && s.pcs[t].TryDeqReload? && s.tail == s.pcs[t].tl
  {
    hide Slot, Round;
    assert t == u;
  }

  lemma NoRoom<T>(s: State<T>, hd: nat)
    requires s.sz >= 1 && |s.turns| == s.sz
    requires TurnOf(s, hd) < EnqTurn(hd, s.sz)
    ensures hd >= s.sz && TurnOf(s, hd - s.sz) <= DeqTurn(hd - s.sz, s.sz)
  {
    if hd < s.sz {
      DivModUnique(hd, s.sz, 0, hd);
    } else {
      SlotPeriodic(hd - s.sz, s.sz);
    }
  }

  /** What a try-dequeue about to re-read tail saw was really the case at an earlier instant. */
  lemma {:induction false} ReloadSawTail<T>(run: seq<State<T>>, sched: seq<(Tid, Action<T>)>, j: nat, t: Tid) returns (i: nat)
    requires IsRun(run, sched) && j <= |sched|
    requires t in run[j].pcs && run[j].pcs[t].TryDeqReload?
    ensures i < j && run[i].sz == run[j].sz >= 1 && |run[i].turns| == run[i].sz
    ensures var pc := run[j].pcs[t];
      run[i].tail == pc.tailThen && TurnOf(run[i], pc.tl) == pc.turnThen
    ensures forall m :: i < m <= j ==> t in run[m].pcs && run[m].pcs[t] == run[j].pcs[t]
  {
    assert j > 0;
    var s, u, a := run[j - 1], sched[j - 1].0, sched[j - 1].1;
    assert run[j] == Step(s, u, a);
    LogGrows(s, u, a);
    if t in s.pcs && s.pcs[t] == run[j].pcs[t] {
      i := ReloadSawTail(run, sched, j - 1, t);
    } else {
      OnlyOwnDequeueSteps(s, u, a, t);
      i := j - 1;
    }
  }

  lemma OnlyOwnDequeueSteps<T>(s: State<T>, u: Tid, a: Action<T>, t: Tid)
    requires Indexable(s, u)
    requires t in Step(s, u, a).pcs && Step(s, u, a).pcs[t].TryDeqReload?
    requires t !in s.pcs || s.pcs[t] != Step(s, u, a).pcs[t]
    ensures var pc := Step(s, u, a).pcs[t];
      pc.tailThen == s.tail && pc.turnThen == TurnOf(s, pc.tl)
  {
    hide Slot, Round;
    assert t == u;
    assert a.Continue? && Dequeuing(s.pcs[u]);
  }

  /** Wherever in a run a dequeue reports failure, there was an earlier instant, from which on the thread was
      on its way to that report, with nothing to read at tail. */
  lemma {:induction false} FailedDequeueFoundNothing<T>(run: seq<State<T>>, sched: seq<(Tid, Action<T>)>, j: nat, t: Tid) returns (i: nat)
    requires IsRun(run, sched) && j <= |sched| && t in run[j].pcs && run[j].pcs[t].DeqFailed?
    ensures i < j && Inv(run[i]) && NothingAt(run[i])
    ensures forall m :: i < m <= j ==> t in run[m].pcs && FailingDeq(run[m].pcs[t])
  {
    assert j > 0;
    var s, u, a := run[j - 1], sched[j - 1].0, sched[j - 1].1;
    assert run[j] == Step(s, u, a);
    hide Step, Indexable, NothingAt;
    if t in s.pcs && s.pcs[t].DeqFailed? {
      i := FailedDequeueFoundNothing(run, sched, j - 1, t);
    } else {
      AnswersFalse(s, u, a, t);
      i := ReloadFoundNothing(run, sched, j - 1, t);
    }
  }

  lemma ReloadFoundNothing<T>(run: seq<State<T>>, sched: seq<(Tid, Action<T>)>, j: nat, t: Tid) returns (i: nat)
    requires IsRun(run, sched) && j <= |sched| && t in run[j].pcs && run[j].pcs[t].TryDeqReload? && run[j].tail == run[j].pcs[t].tl
    ensures i < j && Inv(run[i]) && NothingAt(run[i])
    ensures forall m :: i < m <= j ==> t in run[m].pcs && run[m].pcs[t] == run[j].pcs[t]
  {
    RunInv(run, sched, j);
    assert ThreadOk(run[j], t);
    i := ReloadSawTail(run, sched, j, t);
    RunInv(run, sched, i);
    hide Inv, IsRun, NothingAt;
    NothingThere(run[i]);
  }

  lemma NothingThere<T>(s: State<T>)
    requires Inv(s) && TurnOf(s, s.tail) < DeqTurn(s.tail, s.sz)
    ensures NothingAt(s)
  {
    assert TicketOk(s, s.tail);
  }

  // ----- try operations only: a bounded FIFO queue

  predicate TryPc<T>(pc: Pc<T>) {
    !pc.WaitEnq? && !pc.EnqSpin? && !pc.WaitDeq? && !pc.DeqSpin?
  }

  ghost predicate TryInv<T>(s: State<T>) {
    && Inv(s) && s.tail <= s.head <= s.tail + s.sz
    && forall t :: t in s.pcs ==> TryPc(s.pcs[t])
  }

  /** The queue's contents: tickets drawn by enqueuers and not yet by dequeuers. */
  ghost function Queue<T>(s: State<T>): seq<T>
    requires TryInv(s)
  {
    s.log[s.tail..]
  }

  /** Enqueue and dequeue take effect at the compare-and-swap on head and on tail. */
  ghost function Effect<T>(s: State<T>, t: Tid, a: Action<T>): Event<T>
    requires TryInv(s) && t in s.pcs
  {
    TryClaims(s, t);
    if !a.Continue? then Silent
    else match s.pcs[t]
      case TryEnqCas(e, hd) => if s.head == hd then Enqueued([e]) else Silent
      case TryDeqCas(tl) => if s.tail == tl then Dequeued([s.log[tl]]) else Silent
      case _ => Silent
  }

  /** What a step of a try operation does to the two tickets and the log. */
  lemma TryStepMoves<T>(s: State<T>, t: Tid, a: Action<T>)
    requires TryInv(s) && t in s.pcs && !a.CallWaitEnq? && !a.CallWaitDeq?
    ensures Indexable(s, t) && |s.log| == s.head && Step(s, t, a).sz == s.sz
    ensures var e := Effect(s, t, a); var s' := Step(s, t, a);
      && s'.log == s.log + EnqPart(e) && s'.tail == s.tail + |DeqPart(e)| && (!e.Silent? ==> |e.objs| == 1)
      && s'.head == s.head + |EnqPart(e)| && s'.tail <= s'.head <= s'.tail + s.sz
      && (e.Dequeued? ==> s.tail < |s.log| && e.objs == [s.log[s.tail]])
      && s'.pcs.Keys == s.pcs.Keys && TryPc(s'.pcs[t])
  {
    hide Slot, Round;
    TryClaims(s, t);
    assert Shape(s);
    hide Inv;
    if Effect(s, t, a).Silent? {
      QuietStep(s, t, a);
      hide Step;
    }
  }

  lemma TryStepRefinesFifo<T>(s: State<T>, t: Tid, a: Action<T>)
    requires TryInv(s) && t in s.pcs && !a.CallWaitEnq? && !a.CallWaitDeq?
    ensures Indexable(s, t) && TryInv(Step(s, t, a))
    ensures FifoStep(Queue(s), Effect(s, t, a), Queue(Step(s, t, a)), s.sz)
    ensures Step(s, t, a).sz == s.sz
  {
    StepInv(s, t, a);
    TryStepMoves(s, t, a);
    OthersStay(s, t, a);
    hide Inv, Step, Effect, FifoStep, Indexable;
    var s', e := Step(s, t, a), Effect(s, t, a);
    LogMoves(s.log, s.tail, e, s'.log, s'.tail);
    LargerCapacity(s.log[s.tail..], e, s'.log[s'.tail..], |s'.log| - s'.tail, s.sz);
  }

  lemma OthersStay<T>(s: State<T>, t: Tid, a: Action<T>)
    requires Indexable(s, t)
    ensures var s' := Step(s, t, a); forall u :: u in s'.pcs && u != t ==> u in s.pcs && s'.pcs[u] == s.pcs[u]
  {
    hide Slot, Round;
  }

  lemma QuietStep<T>(s: State<T>, t: Tid, a: Action<T>)
    requires Indexable(s, t) && TryPc(s.pcs[t]) && !a.CallWaitEnq? && !a.CallWaitDeq?
    requires a.Continue? && s.pcs[t].TryEnqCas? ==> s.head != s.pcs[t].hd
    requires a.Continue? && s.pcs[t].TryDeqCas? ==> s.tail != s.pcs[t].tl
    ensures var s' := Step(s, t, a);
      && s'.head == s.head && s'.tail == s.tail && s'.log == s.log && s'.sz == s.sz
      && s'.pcs.Keys == s.pcs.Keys && TryPc(s'.pcs[t])
  {
    hide Slot, Round;
  }

  ghost predicate TryOnly<T>(sched: seq<(Tid, Action<T>)>) {
    forall i :: 0 <= i < |sched| ==> !sched[i].1.CallWaitEnq? && !sched[i].1.CallWaitDeq?
  }

  lemma {:induction false} RunTryInv<T>(run: seq<State<T>>, sched: seq<(Tid, Action<T>)>, i: nat)
    requires IsRun(run, sched) && TryOnly(sched) && i <= |sched|
    ensures TryInv(run[i]) && run[i].sz == run[0].sz
  {
    hide Step, Inv;
    if i == 0 {
      InitInv(run[0]);
    } else {
      RunTryInv(run, sched, i - 1);
      hide TryInv, Queue, Effect;
      TryStepRefinesFifo(run[i - 1], sched[i - 1].0, sched[i - 1].1);
    }
  }

  ghost function EventAt<T>(run: seq<State<T>>, sched: seq<(Tid, Action<T>)>, i: nat): Event<T>
    requires IsRun(run, sched) && TryOnly(sched) && i < |sched|
  {
    RunTryInv(run, sched, i);
    Effect(run[i], sched[i].0, sched[i].1)
  }

  ghost function EnqHistory<T>(run: seq<State<T>>, sched: seq<(Tid, Action<T>)>, i: nat): seq<T>
    requires IsRun(run, sched) && TryOnly(sched) && i <= |sched|
  {
    if i == 0 then [] else EnqHistory(run, sched, i - 1) + EnqPart(EventAt(run, sched, i - 1))
  }

  ghost function DeqHistory<T>(run: seq<State<T>>, sched: seq<(Tid, Action<T>)>, i: nat): seq<T>
    requires IsRun(run, sched) && TryOnly(sched) && i <= |sched|
  {
    if i == 0 then [] else DeqHistory(run, sched, i - 1) + DeqPart(EventAt(run, sched, i - 1))
  }

  /** Every run of try operations is a run of a FIFO queue of capacity sz. */
  lemma {:induction false} TryRunIsFifo<T>(run: seq<State<T>>, sched: seq<(Tid, Action<T>)>, i: nat)
    requires IsRun(run, sched) && TryOnly(sched) && i <= |sched|
    ensures TryInv(run[i])
    ensures EnqHistory(run, sched, i) == DeqHistory(run, sched, i) + Queue(run[i])
    ensures |Queue(run[i])| <= run[0].sz
  {
    RunTryInv(run, sched, i);
    assert |Queue(run[i])| <= run[i].sz;
    if i == 0 {
      assert run[0].log == [];
    } else {
      TryRunIsFifo(run, sched, i - 1);
      hide Inv, Step, Queue, Effect, FifoStep, Indexable, EnqPart, DeqPart;
      var s := run[i - 1];
      TryStepRefinesFifo(s, sched[i - 1].0, sched[i - 1].1);
      Ledger(EnqHistory(run, sched, i - 1), DeqHistory(run, sched, i - 1),
             Queue(s), EventAt(run, sched, i - 1), Queue(run[i]), s.sz);
    }
  }
}
