/** What whole calls on the ring return, over every run: a call of an enqueue or a dequeue from the step that
    starts it to the step at which its thread stands at the return. */
module RingCalls {
  import opened Fifo
  import opened RingProtocol

  /** What the steps of thread t from i to j - 1 added to the abstract queue, and what they took from it. */
  ghost function Put<T>(run: seq<State<T>>, sched: seq<(Tid, Action<T>)>, t: Tid, i: nat, j: nat): seq<T>
    requires IsRun(run, sched) && i <= j <= |sched|
    decreases j
  {
    if i == j then []
    else Put(run, sched, t, i, j - 1) + if sched[j - 1].0 == t then EnqPart(EventAt(run, sched, j - 1)) else []
  }

  ghost function Got<T>(run: seq<State<T>>, sched: seq<(Tid, Action<T>)>, t: Tid, i: nat, j: nat): seq<T>
    requires IsRun(run, sched) && i <= j <= |sched|
    decreases j
  {
    if i == j then []
    else Got(run, sched, t, i, j - 1) + if sched[j - 1].0 == t then DeqPart(EventAt(run, sched, j - 1)) else []
  }

  /** Thread t makes the call a at step i and is under way with it up to step j. */
  ghost predicate UnderWay<T>(run: seq<State<T>>, sched: seq<(Tid, Action<T>)>, t: Tid, a: Action<T>, i: nat, j: nat) {
    && IsRun(run, sched) && i < j <= |sched| && sched[i] == (t, a) && t in run[i].pcs && run[i].pcs[t].Idle?
    && forall m :: i < m < j ==> t in run[m].pcs && (Producing(run[m].pcs[t]) || Consuming(run[m].pcs[t]))
  }

  // ----- enqueue

  /** n objects are what a call for objs may settle on: all of them, or fewer if it is variable. */
  predicate Settles<T>(objs: seq<T>, beh: Behavior, n: nat) {
    n <= |objs| && (beh.Fixed? ==> n == |objs|)
  }

  /** Where an enqueue of objs stands when it has put in the objects of put. */
  ghost predicate Enqueues<T>(pc: Pc<T>, objs: seq<T>, beh: Behavior, put: seq<T>) {
    match pc
    case EnqStart(o, b) => o == objs && b == beh && put == []
    case EnqHead(o, b, _) => o == objs && b == beh && put == []
    case EnqCas(o, b, _, n) => o == objs && b == beh && Settles(objs, beh, n) && put == []
    case EnqCopy(items, _, _) => Settles(objs, beh, |items|) && items == objs[..|items|] && put == []
    case EnqPublish(items, _) => Settles(objs, beh, |items|) && items == objs[..|items|] && put == []
    case EnqReturn(ret) =>
      || (0 <= ret && Settles(objs, beh, ret) && put == objs[..ret])
      || (ret == -ENOBUFS && beh.Fixed? && put == [])
    case _ => false
  }

  lemma EnqueueMoves<T>(s: State<T>, t: Tid, a: Action<T>, objs: seq<T>, beh: Behavior, put: seq<T>)
    requires Inv(s) && Indexable(s, t) && Producing(s.pcs[t]) && Enqueues(s.pcs[t], objs, beh, put)
    ensures Enqueues(Step(s, t, a).pcs[t], objs, beh, put + EnqPart(Effect(s, t, a)))
    ensures EnqPart(Effect(s, t, a)) != [] ==> put == []
  {
    hide Inv;
    assert put + [] == put;
    if a.Continue? {
      match s.pcs[t]
      case EnqPublish(items, _) => assert put + items == items; assert items == [] ==> objs[..0] == [];
      case _ =>
    }
  }

  lemma OtherMoves<T>(s: State<T>, t: Tid, u: Tid, a: Action<T>)
    requires Indexable(s, u) && t in s.pcs && t != u
    ensures t in Step(s, u, a).pcs && Step(s, u, a).pcs[t] == s.pcs[t] && s.log <= Step(s, u, a).log
  {
    StepKeepsOthers(s, t, u, a);
  }

  /** One event of thread t between i and j put in, or took, all of this. */
  ghost predicate AtOnce<T>(run: seq<State<T>>, sched: seq<(Tid, Action<T>)>, t: Tid, i: nat, j: nat, e: Event<T>)
    requires IsRun(run, sched) && j <= |sched|
  {
    exists m :: i < m < j && sched[m].0 == t && EventAt(run, sched, m) == e
  }

  lemma LaterAtOnce<T>(run: seq<State<T>>, sched: seq<(Tid, Action<T>)>, t: Tid, i: nat, j: nat, e: Event<T>)
    requires IsRun(run, sched) && i < j < |sched|
    ensures AtOnce(run, sched, t, i, j, e) ==> AtOnce(run, sched, t, i, j + 1, e)
    ensures sched[j].0 == t && EventAt(run, sched, j) == e ==> AtOnce(run, sched, t, i, j + 1, e)
  {
    hide IsRun, EventAt;
  }

  /** The last step of a run up to j. */
  lemma LastStep<T>(run: seq<State<T>>, sched: seq<(Tid, Action<T>)>, j: nat)
    requires IsRun(run, sched) && 0 < j <= |sched|
    ensures var s, u, a := run[j - 1], sched[j - 1].0, sched[j - 1].1;
      Inv(s) && Indexable(s, u) && run[j] == Step(s, u, a) && EventAt(run, sched, j - 1) == Effect(s, u, a)
  {
    StepTo(run, sched, j);
    hide Inv, Step, Indexable;
  }

  lemma CallStarts<T>(s: State<T>, t: Tid, a: Action<T>)
    requires Inv(s) && Indexable(s, t) && s.pcs[t].Idle? && !a.Continue?
    ensures var pc := Step(s, t, a).pcs[t]; pc == if a.CallEnq? then EnqStart(a.objs, a.beh) else DeqStart(a.max, a.beh)
    ensures Effect(s, t, a) == Silent
  {
    hide Inv;
  }

  lemma EnqueueBegins<T>(run: seq<State<T>>, sched: seq<(Tid, Action<T>)>, t: Tid, i: nat)
    requires IsRun(run, sched) && i < |sched| && sched[i].0 == t && sched[i].1.CallEnq? && t in run[i].pcs && run[i].pcs[t].Idle?
    ensures t in run[i + 1].pcs && Enqueues(run[i + 1].pcs[t], sched[i].1.objs, sched[i].1.beh, Put(run, sched, t, i, i + 1))
    ensures Put(run, sched, t, i, i + 1) == []
  {
    assert |run| == |sched| + 1;
    hide IsRun, EventAt, Effect, Inv;
    LastStep(run, sched, i + 1);
    CallStarts(run[i], t, sched[i].1);
    assert Put(run, sched, t, i, i) == [];
  }

  /** Where a call of an enqueue stands, step by step. */
  lemma {:induction false} EnqueueProgress<T>(run: seq<State<T>>, sched: seq<(Tid, Action<T>)>, t: Tid, objs: seq<T>, beh: Behavior, i: nat, j: nat)
    requires UnderWay(run, sched, t, CallEnq(objs, beh), i, j)
    ensures t in run[j].pcs && Enqueues(run[j].pcs[t], objs, beh, Put(run, sched, t, i, j))
    ensures Put(run, sched, t, i, j) != [] ==> AtOnce(run, sched, t, i, j, Enqueued(Put(run, sched, t, i, j)))
    decreases j
  {
    hide Inv, Step, Indexable, IsRun, EventAt, Effect, AtOnce, Enqueues;
    if j == i + 1 {
      EnqueueBegins(run, sched, t, i);
    } else {
      EnqueueProgress(run, sched, t, objs, beh, i, j - 1);
      EnqueueOneStep(run, sched, t, objs, beh, i, j);
    }
  }

  lemma EnqueueOneStep<T>(run: seq<State<T>>, sched: seq<(Tid, Action<T>)>, t: Tid, objs: seq<T>, beh: Behavior, i: nat, j: nat)
    requires IsRun(run, sched) && i + 1 < j <= |sched| && t in run[j - 1].pcs
    requires var put := Put(run, sched, t, i, j - 1);
      Enqueues(run[j - 1].pcs[t], objs, beh, put) && (put != [] ==> AtOnce(run, sched, t, i, j - 1, Enqueued(put)))
    requires Producing(run[j - 1].pcs[t]) || Consuming(run[j - 1].pcs[t])
    ensures t in run[j].pcs && Enqueues(run[j].pcs[t], objs, beh, Put(run, sched, t, i, j))
    ensures Put(run, sched, t, i, j) != [] ==> AtOnce(run, sched, t, i, j, Enqueued(Put(run, sched, t, i, j)))
  {
    LastStep(run, sched, j);
    var s, u, a := run[j - 1], sched[j - 1].0, sched[j - 1].1;
    var put, e := Put(run, sched, t, i, j - 1), EventAt(run, sched, j - 1);
    assert Producing(s.pcs[t]);
    hide Inv, Step, Indexable, IsRun, EventAt, Effect, AtOnce, Enqueues;
    assert put + [] == put;
    LaterAtOnce(run, sched, t, i, j - 1, Enqueued(put));
    if u == t {
      EnqueueMoves(s, t, a, objs, beh, put);
      assert EnqPart(e) != [] ==> e == Enqueued(EnqPart(e)) && [] + EnqPart(e) == EnqPart(e);
      LaterAtOnce(run, sched, t, i, j - 1, e);
    } else {
      OtherMoves(s, t, u, a);
    }
  }

  /** What an enqueue returns. A positive answer is the number of objects it put in, its first ones and in
      one piece; a fixed enqueue puts in all; any other answer means that it put in nothing. */
  lemma EnqueueReturns<T>(run: seq<State<T>>, sched: seq<(Tid, Action<T>)>, t: Tid, objs: seq<T>, beh: Behavior, i: nat, j: nat)
    requires UnderWay(run, sched, t, CallEnq(objs, beh), i, j) && (t in run[j].pcs ==> !Producing(run[j].pcs[t]))
    ensures t in run[j].pcs && run[j].pcs[t].EnqReturn?
    ensures var ret, put := run[j].pcs[t].ret, Put(run, sched, t, i, j);
      && (ret > 0 <==> put != []) && (ret > 0 ==> ret <= |objs| && put == objs[..ret])
      && (put != [] ==> AtOnce(run, sched, t, i, j, Enqueued(put)))
      && (beh.Fixed? ==> ret == |objs| || ret == -ENOBUFS) && (beh.Variable? ==> 0 <= ret <= |objs|)
  {
    EnqueueProgress(run, sched, t, objs, beh, i, j);
  }

  // ----- dequeue

  /** Where a dequeue of at most max objects stands when it has taken the objects of got. */
  ghost predicate Dequeues<T>(s: State<T>, pc: Pc<T>, max: nat, beh: Behavior, got: seq<T>) {
    match pc
    case DeqStart(m, b) => m == max && b == beh && got == []
    case DeqHead(m, b, _) => m == max && b == beh && got == []
    case DeqCas(m, b, _, n) => m == max && b == beh && n <= max && (beh.Fixed? ==> n == max) && got == []
    case DeqCopy(n, head, _) => n <= max && (beh.Fixed? ==> n == max) && head + n <= |s.log| && got == s.log[head..head + n]
    case DeqPublish(n, head, _) => n <= max && (beh.Fixed? ==> n == max) && head + n <= |s.log| && got == s.log[head..head + n]
    case DeqReturn(ret, objs) =>
      && objs == got
      && (if ret < 0 then ret == -ENOENT && beh.Fixed? && got == [] else ret == |got| <= max && (beh.Fixed? ==> ret == max))
    case _ => false
  }

  lemma DequeueMoves<T>(s: State<T>, t: Tid, a: Action<T>, max: nat, beh: Behavior, got: seq<T>)
    requires Inv(s) && Indexable(s, t) && Consuming(s.pcs[t]) && Dequeues(s, s.pcs[t], max, beh, got)
    ensures Dequeues(Step(s, t, a), Step(s, t, a).pcs[t], max, beh, got + DeqPart(Effect(s, t, a)))
    ensures DeqPart(Effect(s, t, a)) != [] ==> got == []
  {
    hide Inv;
    assert got + [] == got;
    if a.Continue? && s.pcs[t].DeqCas? {
      DequeueClaims(s, t, a, max, beh);
      assert [] + DeqPart(Effect(s, t, a)) == DeqPart(Effect(s, t, a));
      hide Step;
    } else {
      DequeueCopies(s, t, a, max, beh, got);
      hide Step;
    }
  }

  lemma DequeueCopies<T>(s: State<T>, t: Tid, a: Action<T>, max: nat, beh: Behavior, got: seq<T>)
    requires Inv(s) && Indexable(s, t) && Consuming(s.pcs[t]) && Dequeues(s, s.pcs[t], max, beh, got)
    requires !(a.Continue? && s.pcs[t].DeqCas?)
    ensures Effect(s, t, a) == Silent && Dequeues(Step(s, t, a), Step(s, t, a).pcs[t], max, beh, got)
  {
    var pc := s.pcs[t];
    assert ThreadOk(s, t);
    assert pc.DeqPublish? ==> |pc.got| == pc.n && pc.got == s.log[pc.head..pc.head + pc.n];
    hide Inv, ThreadOk;
    if a.Continue? {
      DequeueWorks(s, t, a.spurious, max, beh, got);
      hide StepDeq, Dequeues;
    }
  }

  lemma DequeueWorks<T>(s: State<T>, t: Tid, spurious: bool, max: nat, beh: Behavior, got: seq<T>)
    requires Indexable(s, t) && Consuming(s.pcs[t]) && !s.pcs[t].DeqCas? && Dequeues(s, s.pcs[t], max, beh, got)
    requires var pc := s.pcs[t]; pc.DeqPublish? ==> pc.head + pc.n <= |s.log| && |pc.got| == pc.n && pc.got == s.log[pc.head..pc.head + pc.n]
    ensures var s' := StepDeq(s, t, spurious); Dequeues(s', s'.pcs[t], max, beh, got)
  {
  }

  lemma DequeueClaims<T>(s: State<T>, t: Tid, a: Action<T>, max: nat, beh: Behavior)
    requires Inv(s) && Indexable(s, t) && s.pcs[t].DeqCas? && a.Continue? && Dequeues(s, s.pcs[t], max, beh, [])
    ensures Dequeues(Step(s, t, a), Step(s, t, a).pcs[t], max, beh, DeqPart(Effect(s, t, a)))
  {
    assert ThreadOk(s, t) && (s.sc ==> OwnConsumer(s, t));
    hide Inv, StepEnq;
    var DeqCas(_, _, head, n) := s.pcs[t];
    assert head + n <= |s.log| && (n == 0 ==> s.log[head..head + n] == []);
    hide ThreadOk, OwnConsumer;
  }

  lemma DequeueKept<T>(s: State<T>, s': State<T>, pc: Pc<T>, max: nat, beh: Behavior, got: seq<T>)
    requires Dequeues(s, pc, max, beh, got) && s.log <= s'.log
    ensures Dequeues(s', pc, max, beh, got)
  {
    match pc
    case DeqCopy(n, head, _) => assert s'.log[head..head + n] == s.log[head..head + n];
    case DeqPublish(n, head, _) => assert s'.log[head..head + n] == s.log[head..head + n];
    case _ =>
  }

  lemma DequeueBegins<T>(run: seq<State<T>>, sched: seq<(Tid, Action<T>)>, t: Tid, i: nat)
    requires IsRun(run, sched) && i < |sched| && sched[i].0 == t && sched[i].1.CallDeq? && t in run[i].pcs && run[i].pcs[t].Idle?
    ensures t in run[i + 1].pcs && Dequeues(run[i + 1], run[i + 1].pcs[t], sched[i].1.max, sched[i].1.beh, Got(run, sched, t, i, i + 1))
    ensures Got(run, sched, t, i, i + 1) == []
  {
    assert |run| == |sched| + 1;
    hide IsRun, EventAt, Effect, Inv;
    LastStep(run, sched, i + 1);
    CallStarts(run[i], t, sched[i].1);
    assert Got(run, sched, t, i, i) == [];
  }

  lemma {:induction false} DequeueProgress<T>(run: seq<State<T>>, sched: seq<(Tid, Action<T>)>, t: Tid, max: nat, beh: Behavior, i: nat, j: nat)
    requires UnderWay(run, sched, t, CallDeq(max, beh), i, j)
    ensures t in run[j].pcs && Dequeues(run[j], run[j].pcs[t], max, beh, Got(run, sched, t, i, j))
    ensures Got(run, sched, t, i, j) != [] ==> AtOnce(run, sched, t, i, j, Dequeued(Got(run, sched, t, i, j)))
    decreases j
  {
    hide Inv, Step, Indexable, IsRun, EventAt, Effect, AtOnce, Dequeues;
    if j == i + 1 {
      DequeueBegins(run, sched, t, i);
    } else {
      DequeueProgress(run, sched, t, max, beh, i, j - 1);
      DequeueOneStep(run, sched, t, max, beh, i, j);
    }
  }

  lemma DequeueOneStep<T>(run: seq<State<T>>, sched: seq<(Tid, Action<T>)>, t: Tid, max: nat, beh: Behavior, i: nat, j: nat)
    requires IsRun(run, sched) && i + 1 < j <= |sched| && t in run[j - 1].pcs
    requires var got := Got(run, sched, t, i, j - 1);
      Dequeues(run[j - 1], run[j - 1].pcs[t], max, beh, got) && (got != [] ==> AtOnce(run, sched, t, i, j - 1, Dequeued(got)))
    requires Producing(run[j - 1].pcs[t]) || Consuming(run[j - 1].pcs[t])
    ensures t in run[j].pcs && Dequeues(run[j], run[j].pcs[t], max, beh, Got(run, sched, t, i, j))
    ensures Got(run, sched, t, i, j) != [] ==> AtOnce(run, sched, t, i, j, Dequeued(Got(run, sched, t, i, j)))
  {
    LastStep(run, sched, j);
    var s, u, a := run[j - 1], sched[j - 1].0, sched[j - 1].1;
    var got, e := Got(run, sched, t, i, j - 1), EventAt(run, sched, j - 1);
    assert Consuming(s.pcs[t]);
    hide Inv, Step, Indexable, IsRun, EventAt, Effect, AtOnce, Dequeues;
    assert got + [] == got;
    LaterAtOnce(run, sched, t, i, j - 1, Dequeued(got));
    if u == t {
      DequeueMoves(s, t, a, max, beh, got);
      assert DeqPart(e) != [] ==> e == Dequeued(DeqPart(e)) && [] + DeqPart(e) == DeqPart(e);
      LaterAtOnce(run, sched, t, i, j - 1, e);
    } else {
      OtherMoves(s, t, u, a);
      DequeueKept(s, run[j], s.pcs[t], max, beh, got);
    }
  }

  /** What a dequeue returns: the objects it took from the queue, in one piece, and their number; a fixed one
      takes all it asked for or nothing. */
  lemma DequeueReturns<T>(run: seq<State<T>>, sched: seq<(Tid, Action<T>)>, t: Tid, max: nat, beh: Behavior, i: nat, j: nat)
    requires UnderWay(run, sched, t, CallDeq(max, beh), i, j) && (t in run[j].pcs ==> !Consuming(run[j].pcs[t]))
    ensures t in run[j].pcs && run[j].pcs[t].DeqReturn?
    ensures var ret, got := run[j].pcs[t].ret, run[j].pcs[t].got;
      && got == Got(run, sched, t, i, j) && (ret >= 0 ==> ret == |got| <= max)
      && (got != [] ==> AtOnce(run, sched, t, i, j, Dequeued(got)))
      && (beh.Fixed? ==> ret == max || (ret == -ENOENT && got == [])) && (beh.Variable? ==> ret >= 0)
  {
    DequeueProgress(run, sched, t, max, beh, i, j);
  }

  // ----- when a call gives up

  /** The test of an enqueue: it gives up if and only if the free entries it computes are too few for a fixed
      call, or none for a variable one; otherwise it goes for as many as it can have. Where prod.head has not
      moved since it was loaded, the free entries are those the ring has. */
  lemma EnqueueGivesUpIff<T>(s: State<T>, t: Tid, spurious: bool)
    requires Inv(s) && t in s.pcs && s.pcs[t].EnqHead?
    ensures Indexable(s, t)
    ensures var EnqHead(objs, beh, head) := s.pcs[t]; var free := s.size - 1 + s.consTail - head;
      var pc := StepEnq(s, t, spurious).pcs[t];
      && (pc.EnqReturn? <==> |objs| > free && (beh.Fixed? || free == 0))
      && (pc.EnqReturn? ==> pc.ret == if beh.Fixed? then -ENOBUFS else 0)
      && (!pc.EnqReturn? ==> pc == EnqCas(objs, beh, head, if |objs| <= free then |objs| else free))
      && (head == s.prodHead ==> free == s.size - 1 - (s.prodHead - s.consTail))
  {
    assert ThreadOk(s, t);
  }

  lemma DequeueGivesUpIff<T>(s: State<T>, t: Tid, spurious: bool)
    requires Inv(s) && t in s.pcs && s.pcs[t].DeqHead?
    ensures Indexable(s, t)
    ensures var DeqHead(max, beh, head) := s.pcs[t]; var entries := s.prodTail - head;
      var pc := StepDeq(s, t, spurious).pcs[t];
      && (pc.DeqReturn? <==> max > entries && (beh.Fixed? || entries == 0))
      && (pc.DeqReturn? ==> pc == DeqReturn(if beh.Fixed? then -ENOENT else 0, []))
      && (!pc.DeqReturn? ==> pc == DeqCas(max, beh, head, if max <= entries then max else entries))
      && (head == s.consHead ==> entries == |Queue(s)|)
  {
    assert ThreadOk(s, t);
  }
}
