/** Runs of the ring that show what its callers must not do, and how stale a loaded index can get. They
    start from any state of the right kind, not from one chosen for the purpose. */
module RingRuns {
  import opened Slots
  import opened RingProtocol

  /** Some schedule leads from s to s'; a polite one only makes calls that callers are allowed. */
  ghost predicate Reaches<T(!new)>(s: State<T>, s': State<T>, polite: bool) {
    exists run: seq<State<T>>, sched: seq<(Tid, Action<T>)> ::
      Path(run, sched) && Starts(run, sched, s, s') && (polite ==> Polite(run, sched))
  }

  ghost predicate Starts<T>(run: seq<State<T>>, sched: seq<(Tid, Action<T>)>, s: State<T>, s': State<T>) {
    |run| == |sched| + 1 && run[0] == s && run[|sched|] == s'
  }

  ghost predicate Polite<T>(run: seq<State<T>>, sched: seq<(Tid, Action<T>)>) {
    |run| == |sched| + 1 && forall i :: 0 <= i < |sched| ==> Allowed(run[i], sched[i].0, sched[i].1)
  }

  lemma ReachesHere<T(!new)>(s: State<T>, polite: bool)
    ensures Reaches(s, s, polite)
  {
    var run, sched: seq<(Tid, Action<T>)> := [s], [];
    assert Path(run, sched) && Starts(run, sched, s, s) && Polite(run, sched);
  }

  lemma ReachesOn<T(!new)>(s: State<T>, m: State<T>, t: Tid, a: Action<T>, polite: bool)
    requires Reaches(s, m, polite) && Indexable(m, t) && (polite ==> Allowed(m, t, a))
    ensures Reaches(s, Step(m, t, a), polite)
  {
    var run, sched :| Path(run, sched) && Starts(run, sched, s, m) && (polite ==> Polite(run, sched));
    var run', sched' := run + [Step(m, t, a)], sched + [(t, a)];
    hide Step, Indexable, Allowed;
    assert Path(run', sched');
    assert Starts(run', sched', s, Step(m, t, a));
    assert polite ==> Polite(run', sched');
  }

  /** A polite schedule from an initial ring is one of the runs about which the invariant and the FIFO
      theorems speak. */
  lemma PoliteIsRun<T(!new)>(s: State<T>, s': State<T>)
    requires Init(s) && Reaches(s, s', true)
    ensures exists run, sched :: IsRun(run, sched) && Starts(run, sched, s, s')
    ensures Inv(s')
  {
    var run, sched :| Path(run, sched) && Starts(run, sched, s, s') && Polite(run, sched);
    assert IsRun(run, sched);
    RunInv(run, sched, |sched|);
  }

  // ----- single calls, run without interruption

  lemma GoToTwice<T>(s: State<T>, t: Tid, a: Pc<T>, b: Pc<T>)
    ensures GoTo(GoTo(s, t, a), t, b) == GoTo(s, t, b)
  {
    assert s.pcs[t := a][t := b] == s.pcs[t := b];
  }

  lemma GoToSame<T>(s: State<T>, t: Tid)
    requires t in s.pcs
    ensures GoTo(s, t, s.pcs[t]) == s
  {
    assert s.pcs[t := s.pcs[t]] == s.pcs;
  }

  /** One step of a thread that changes only its own position. */
  lemma Moves<T(!new)>(s0: State<T>, s: State<T>, t: Tid, pc: Pc<T>, pc': Pc<T>, polite: bool)
    requires Reaches(s0, GoTo(s, t, pc), polite) && Indexable(GoTo(s, t, pc), t)
    requires Step(GoTo(s, t, pc), t, Continue(false)) == GoTo(GoTo(s, t, pc), t, pc')
    ensures Reaches(s0, GoTo(s, t, pc'), polite)
  {
    hide Step, Indexable;
    GoToTwice(s, t, pc, pc');
    ReachesOn(s0, GoTo(s, t, pc), t, Continue(false), polite);
  }

  /** A ring of the multi-producer and multi-consumer form with no enqueue under way. */
  ghost predicate QuietTail<T>(s: State<T>) {
    && s.size >= 1 && |s.ring| == s.size && !s.sp && s.prodTail == s.prodHead
    && s.consTail <= s.prodHead <= s.consTail + s.size - 1
  }

  /** An enqueue up to its compare-and-swap. */
  lemma EnqueueStarts<T(!new)>(s0: State<T>, s: State<T>, t: Tid, objs: seq<T>, polite: bool)
    requires Reaches(s0, s, polite) && QuietTail(s) && t in s.pcs && s.pcs[t].Idle?
    requires s.prodHead + |objs| <= s.consTail + s.size - 1 && (polite ==> objs != [])
    ensures Reaches(s0, GoTo(s, t, EnqHead(objs, Fixed, s.prodHead)), polite)
    ensures Reaches(s0, GoTo(s, t, EnqCas(objs, Fixed, s.prodHead, |objs|)), polite)
  {
    ReachesOn(s0, s, t, CallEnq(objs, Fixed), polite);
    hide Reaches;
    Moves(s0, s, t, EnqStart(objs, Fixed), EnqHead(objs, Fixed, s.prodHead), polite);
    Moves(s0, s, t, EnqHead(objs, Fixed, s.prodHead), EnqCas(objs, Fixed, s.prodHead, |objs|), polite);
  }

  /** The ring after one object has been enqueued. */
  ghost function WithOne<T>(s: State<T>, t: Tid, x: T): State<T>
    requires s.size >= 1 && |s.ring| == s.size
  {
    s.(ring := s.ring[Slot(s.prodHead, s.size) := x], prodHead := s.prodHead + 1, log := s.log + [x], prodOwner := s.prodOwner + [t])
  }

  /** The compare-and-swap and the copy of one object. */
  lemma EnqueueReserves<T(!new)>(s0: State<T>, s: State<T>, t: Tid, x: T, polite: bool)
    requires QuietTail(s) && t in s.pcs && s.prodHead + 1 <= s.consTail + s.size - 1
    requires Reaches(s0, GoTo(s, t, EnqCas([x], Fixed, s.prodHead, 1)), polite)
    ensures Reaches(s0, GoTo(WithOne(s, t, x), t, EnqCopy([x], s.prodHead, 1)), polite)
  {
    var h := s.prodHead;
    var m := GoTo(s, t, EnqCas([x], Fixed, h, 1));
    ReachesOn(s0, m, t, Continue(false), polite);
    var r := s.(prodHead := h + 1, log := s.log + [x], prodOwner := s.prodOwner + [t]);
    assert [x][..1] == [x] && seq(1, _ => t) == [t];
    GoToTwice(s, t, EnqCas([x], Fixed, h, 1), EnqCopy([x], h, 0));
    assert Step(m, t, Continue(false)) == GoTo(r, t, EnqCopy([x], h, 0));
    hide Reaches;
    EnqueueCopies(s0, s, t, x, r, polite);
  }

  lemma EnqueueCopies<T(!new)>(s0: State<T>, s: State<T>, t: Tid, x: T, r: State<T>, polite: bool)
    requires s.size >= 1 && |s.ring| == s.size && t in s.pcs
    requires r == s.(prodHead := s.prodHead + 1, log := s.log + [x], prodOwner := s.prodOwner + [t])
    requires Reaches(s0, GoTo(r, t, EnqCopy([x], s.prodHead, 0)), polite)
    ensures Reaches(s0, GoTo(WithOne(s, t, x), t, EnqCopy([x], s.prodHead, 1)), polite)
  {
    var h := s.prodHead;
    hide Reaches;
    ReachesOn(s0, GoTo(r, t, EnqCopy([x], h, 0)), t, Continue(false), polite);
    GoToTwice(r, t, EnqCopy([x], h, 0), EnqCopy([x], h, 1));
    assert Step(GoTo(r, t, EnqCopy([x], h, 0)), t, Continue(false)) == GoTo(WithOne(s, t, x), t, EnqCopy([x], h, 1));
  }

  lemma EnqueueOne<T(!new)>(s0: State<T>, s: State<T>, t: Tid, x: T, polite: bool)
    requires Reaches(s0, s, polite) && QuietTail(s) && t in s.pcs && s.pcs[t].Idle?
    requires s.prodHead + 1 <= s.consTail + s.size - 1
    ensures Reaches(s0, WithOne(s, t, x).(prodTail := s.prodHead + 1), polite)
  {
    var h, w := s.prodHead, WithOne(s, t, x);
    hide Reaches;
    EnqueueStarts(s0, s, t, [x], polite);
    EnqueueReserves(s0, s, t, x, polite);
    Moves(s0, w, t, EnqCopy([x], h, 1), EnqPublish([x], h), polite);
    EnqueueEnds(s0, w, t, x, h, polite);
    GoToSame(w.(prodTail := h + 1), t);
  }

  lemma EnqueueEnds<T(!new)>(s0: State<T>, w: State<T>, t: Tid, x: T, h: nat, polite: bool)
    requires t in w.pcs && w.size >= 1 && |w.ring| == w.size && Reaches(s0, GoTo(w, t, EnqPublish([x], h)), polite)
    ensures Reaches(s0, GoTo(w.(prodTail := h + 1), t, Idle), polite)
  {
    var m, v := GoTo(w, t, EnqPublish([x], h)), w.(prodTail := h + 1);
    ReachesOn(s0, m, t, Continue(false), polite);
    GoToTwice(w, t, EnqPublish([x], h), EnqReturn(1));
    assert Step(m, t, Continue(false)) == GoTo(v, t, EnqReturn(1));
    hide Reaches;
    Moves(s0, v, t, EnqReturn(1), Idle, polite);
  }

  /** A ring of the multi-consumer form with no dequeue under way and n objects to take. */
  ghost predicate QuietHead<T>(s: State<T>, n: nat) {
    s.size >= 1 && |s.ring| == s.size && !s.sc && s.consTail == s.consHead && s.consHead + n <= s.prodTail
  }

  /** A dequeue up to its compare-and-swap. */
  lemma DequeueStarts<T(!new)>(s0: State<T>, s: State<T>, t: Tid, n: nat, polite: bool)
    requires Reaches(s0, s, polite) && QuietHead(s, n) && t in s.pcs && s.pcs[t].Idle? && (polite ==> n > 0)
    ensures Reaches(s0, GoTo(s, t, DeqCas(n, Fixed, s.consHead, n)), polite)
  {
    ReachesOn(s0, s, t, CallDeq(n, Fixed), polite);
    hide Reaches;
    Moves(s0, s, t, DeqStart(n, Fixed), DeqHead(n, Fixed, s.consHead), polite);
    Moves(s0, s, t, DeqHead(n, Fixed, s.consHead), DeqCas(n, Fixed, s.consHead, n), polite);
  }

  ghost function TakenOne<T>(s: State<T>, t: Tid): State<T> {
    s.(consHead := s.consHead + 1, consOwner := s.consOwner + [t])
  }

  lemma DequeueClaims<T(!new)>(s0: State<T>, s: State<T>, t: Tid, polite: bool)
    requires QuietHead(s, 1) && t in s.pcs && Reaches(s0, GoTo(s, t, DeqCas(1, Fixed, s.consHead, 1)), polite)
    ensures Reaches(s0, GoTo(TakenOne(s, t), t, DeqCopy(1, s.consHead, [])), polite)
  {
    var h := s.consHead;
    var m := GoTo(s, t, DeqCas(1, Fixed, h, 1));
    hide Reaches;
    ReachesOn(s0, m, t, Continue(false), polite);
    assert seq(1, _ => t) == [t];
    GoToTwice(s, t, DeqCas(1, Fixed, h, 1), DeqCopy(1, h, []));
    assert Step(m, t, Continue(false)) == GoTo(TakenOne(s, t), t, DeqCopy(1, h, []));
  }

  lemma DequeueEnds<T(!new)>(s0: State<T>, w: State<T>, t: Tid, h: nat, got: seq<T>, polite: bool)
    requires t in w.pcs && w.size >= 1 && |w.ring| == w.size && Reaches(s0, GoTo(w, t, DeqPublish(|got|, h, got)), polite)
    ensures Reaches(s0, GoTo(w.(consTail := h + |got|), t, Idle), polite)
  {
    var m, v := GoTo(w, t, DeqPublish(|got|, h, got)), w.(consTail := h + |got|);
    hide Reaches;
    ReachesOn(s0, m, t, Continue(false), polite);
    GoToTwice(w, t, DeqPublish(|got|, h, got), DeqReturn(|got|, got));
    assert Step(m, t, Continue(false)) == GoTo(v, t, DeqReturn(|got|, got));
    Moves(s0, v, t, DeqReturn(|got|, got), Idle, polite);
  }

  lemma DequeueOne<T(!new)>(s0: State<T>, s: State<T>, t: Tid, polite: bool)
    requires Reaches(s0, s, polite) && QuietHead(s, 1) && t in s.pcs && s.pcs[t].Idle?
    ensures Reaches(s0, TakenOne(s, t).(consTail := s.consHead + 1), polite)
  {
    var h, w := s.consHead, TakenOne(s, t);
    hide Reaches;
    DequeueStarts(s0, s, t, 1, polite);
    DequeueClaims(s0, s, t, polite);
    var got := [s.ring[Slot(h, s.size)]];
    assert [] + got == got;
    Moves(s0, w, t, DeqCopy(1, h, []), DeqCopy(1, h, got), polite);
    Moves(s0, w, t, DeqCopy(1, h, got), DeqPublish(1, h, got), polite);
    DequeueEnds(s0, w, t, h, got, polite);
    GoToSame(w.(consTail := h + 1), t);
  }

  // ----- requests for no objects on the multi forms

  /** Nothing in flight can publish the index prod.tail stands at. */
  ghost predicate Wedged<T>(s: State<T>) {
    && !s.sp && s.prodTail < s.prodHead
    && forall t :: t in s.pcs ==> (s.pcs[t].EnqCopy? ==> s.pcs[t].head > s.prodTail) && !s.pcs[t].EnqPublish?
  }

  /** A wedged ring stays wedged: no later enqueue is ever published, however it is scheduled. */
  lemma WedgedForever<T>(s: State<T>, t: Tid, a: Action<T>)
    requires Wedged(s) && Indexable(s, t)
    ensures Wedged(Step(s, t, a)) && Step(s, t, a).prodTail == s.prodTail
  {
    if a.Continue? && Producing(s.pcs[t]) { hide StepDeq; } else { hide StepEnq; }
  }

  /** An enqueue of no objects, up to the store of prod.tail. */
  lemma EmptyEnqueueWaits<T(!new)>(s: State<T>, t: Tid)
    requires QuietTail(s) && t in s.pcs && s.pcs[t].Idle?
    ensures Reaches(s, GoTo(s, t, EnqPublish([], s.prodHead)), false)
  {
    var h := s.prodHead;
    ReachesHere(s, false);
    hide Reaches;
    EnqueueStarts(s, s, t, [], false);
    var m := GoTo(s, t, EnqCas([], Fixed, h, 0));
    ReachesOn(s, m, t, Continue(false), false);
    var none: seq<T>, nobody: seq<Tid> := [], seq(0, _ => t);
    assert s.log + none[..0] == s.log && s.prodOwner + nobody == s.prodOwner;
    GoToTwice(s, t, EnqCas([], Fixed, h, 0), EnqCopy([], h, 0));
    assert Step(m, t, Continue(false)) == GoTo(s, t, EnqCopy([], h, 0));
    Moves(s, s, t, EnqCopy([], h, 0), EnqPublish([], h), false);
  }

  /** On every multi-producer ring with room for an object and no enqueue under way, an enqueue of no
      objects can move prod.tail backwards: thread t asks for none, thread u enqueues x meanwhile, then t
      stores its old tail. Both calls return, and x is never published. */
  lemma EmptyEnqueueWedgesRing<T(!new)>(s: State<T>, t: Tid, u: Tid, x: T) returns (s': State<T>)
    requires Inv(s) && QuietTail(s) && s.prodHead + 1 <= s.consTail + s.size - 1
    requires t in s.pcs && u in s.pcs && t != u && s.pcs[t].Idle? && s.pcs[u].Idle?
    ensures Reaches(s, s', false) && Wedged(s') && s'.log == s.log + [x] && s'.prodTail == s.prodTail
    ensures s'.pcs.Keys == s.pcs.Keys && s'.pcs[t] == EnqReturn(0) && forall v :: v in s.pcs && v != t ==> s'.pcs[v] == s.pcs[v]
  {
    var h := s.prodHead;
    NoneInFlight(s);
    EmptyEnqueueWaits(s, t);
    var m := GoTo(s, t, EnqPublish([], h));
    hide Reaches, Inv, StepDeq;
    EnqueueOne(s, m, u, x, false);
    var m2 := WithOne(m, u, x).(prodTail := h + 1);
    ReachesOn(s, m2, t, Continue(false), false);
    s' := Step(m2, t, Continue(false));
  }

  lemma NoneInFlight<T>(s: State<T>)
    requires Inv(s)
    ensures QuietTail(s) ==> forall v :: v in s.pcs ==> !s.pcs[v].EnqCopy? && !s.pcs[v].EnqPublish?
    ensures QuietHead(s, 0) ==> forall v :: v in s.pcs ==> !s.pcs[v].DeqCopy? && !s.pcs[v].DeqPublish?
  {
    assert forall v :: v in s.pcs ==> ThreadOk(s, v);
  }

  /** Nothing in flight can release the index cons.tail stands at. */
  ghost predicate WedgedBehind<T>(s: State<T>) {
    && !s.sc && s.consTail < s.consHead
    && forall t :: t in s.pcs ==> (s.pcs[t].DeqCopy? ==> s.pcs[t].head > s.consTail) && !s.pcs[t].DeqPublish?
  }

  /** No slot from cons.tail on is ever released again, so the ring runs full for good. */
  lemma WedgedBehindForever<T>(s: State<T>, t: Tid, a: Action<T>)
    requires WedgedBehind(s) && Indexable(s, t)
    ensures WedgedBehind(Step(s, t, a)) && Step(s, t, a).consTail == s.consTail
  {
    if a.Continue? && Producing(s.pcs[t]) { hide StepDeq; } else { hide StepEnq; }
  }

  lemma EmptyDequeueWaits<T(!new)>(s: State<T>, t: Tid)
    requires QuietHead(s, 0) && t in s.pcs && s.pcs[t].Idle?
    ensures Reaches(s, GoTo(s, t, DeqPublish(0, s.consHead, [])), false)
  {
    var h := s.consHead;
    ReachesHere(s, false);
    hide Reaches;
    DequeueStarts(s, s, t, 0, false);
    var m := GoTo(s, t, DeqCas(0, Fixed, h, 0));
    ReachesOn(s, m, t, Continue(false), false);
    var nobody: seq<Tid> := seq(0, _ => t);
    assert s.consOwner + nobody == s.consOwner;
    GoToTwice(s, t, DeqCas(0, Fixed, h, 0), DeqCopy(0, h, []));
    assert Step(m, t, Continue(false)) == GoTo(s, t, DeqCopy(0, h, []));
    Moves(s, s, t, DeqCopy(0, h, []), DeqPublish(0, h, []), false);
  }

  /** The same for a dequeue of no objects on every multi-consumer ring that holds an object. */
  lemma EmptyDequeueWedgesRing<T(!new)>(s: State<T>, t: Tid, u: Tid) returns (s': State<T>)
    requires Inv(s) && QuietHead(s, 1)
    requires t in s.pcs && u in s.pcs && t != u && s.pcs[t].Idle? && s.pcs[u].Idle?
    ensures Reaches(s, s', false) && WedgedBehind(s') && s'.consHead == s.consHead + 1 && s'.consTail == s.consTail
    ensures s'.pcs.Keys == s.pcs.Keys && s'.pcs[t] == DeqReturn(0, []) && forall v :: v in s.pcs && v != t ==> s'.pcs[v] == s.pcs[v]
  {
    var h := s.consHead;
    NoneInFlight(s);
    EmptyDequeueWaits(s, t);
    var m := GoTo(s, t, DeqPublish(0, h, []));
    hide Reaches, Inv, StepEnq;
    DequeueOne(s, m, u, false);
    var m2 := TakenOne(m, u).(consTail := h + 1);
    ReachesOn(s, m2, t, Continue(false), false);
    s' := Step(m2, t, Continue(false));
  }

  // ----- stale indices

  /** A producer's free entries lie between 0 and size - 1 if and only if cons.tail has not passed the
      prod.head it loaded; where it has, prod.head has moved on and the compare-and-swap fails. */
  lemma FreeEntriesBounded<T>(s: State<T>, t: Tid)
    requires Inv(s) && t in s.pcs && s.pcs[t].EnqHead?
    ensures var free := s.size - 1 + s.consTail - s.pcs[t].head;
      0 <= free && (free <= s.size - 1 <==> s.consTail <= s.pcs[t].head)
    ensures s.consTail > s.pcs[t].head ==> s.prodHead != s.pcs[t].head
  {
    assert ThreadOk(s, t);
  }

  /** Every empty multi-producer and multi-consumer ring with room can get there, by calls of one object
      each. */
  lemma FreeEntriesGoStale<T(!new)>(s: State<T>, t: Tid, u: Tid, x: T) returns (s': State<T>)
    requires QuietTail(s) && QuietHead(s, 0) && s.consHead == s.prodTail && s.size >= 2
    requires t in s.pcs && u in s.pcs && t != u && s.pcs[t].Idle? && s.pcs[u].Idle?
    ensures Reaches(s, s', true) && t in s'.pcs && s'.pcs[t].EnqHead? && s'.size == s.size
    ensures s'.size - 1 + s'.consTail - s'.pcs[t].head == s'.size
  {
    var h := s.prodHead;
    ReachesHere(s, true);
    hide Reaches;
    EnqueueStarts(s, s, t, [x], true);
    var m := GoTo(s, t, EnqHead([x], Fixed, h));
    EnqueueOne(s, m, u, x, true);
    var m2 := WithOne(m, u, x).(prodTail := h + 1);
    DequeueOne(s, m2, u, true);
    s' := TakenOne(m2, u).(consTail := h + 1);
  }
}
