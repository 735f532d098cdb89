/** What whole calls on the ticket queue answer, over every run: a call from the step that starts it to the
    step at which its thread stands at the answer. */
module MpmcCalls {
  import opened MpmcQueue

  /** The values for which the steps of thread t from i to j - 1 drew enqueue tickets. */
  ghost function Put<T>(run: seq<State<T>>, sched: seq<(Tid, Action<T>)>, t: Tid, i: nat, j: nat): seq<T>
    requires IsRun(run, sched) && i <= j <= |sched|
    decreases j
  {
    if i == j then []
    else
      LogGrows(run[j - 1], sched[j - 1].0, sched[j - 1].1);
      Put(run, sched, t, i, j - 1) + if sched[j - 1].0 == t then run[j].log[|run[j - 1].log|..] else []
  }

  /** The dequeue tickets they drew. */
  ghost function Took<T>(run: seq<State<T>>, sched: seq<(Tid, Action<T>)>, t: Tid, i: nat, j: nat): seq<nat>
    requires IsRun(run, sched) && i <= j <= |sched|
    decreases j
  {
    if i == j then []
    else Took(run, sched, t, i, j - 1) + if sched[j - 1].0 == t && run[j].tail != run[j - 1].tail then [run[j - 1].tail] else []
  }

  ghost predicate UnderWay<T>(run: seq<State<T>>, sched: seq<(Tid, Action<T>)>, t: Tid, a: Action<T>, i: nat, j: nat) {
    && IsRun(run, sched) && i < j <= |sched| && sched[i] == (t, a) && t in run[i].pcs && run[i].pcs[t].Idle?
    && forall m :: i < m < j ==> t in run[m].pcs && (Enqueuing(run[m].pcs[t]) || Dequeuing(run[m].pcs[t]))
  }

  lemma OtherMoves<T>(s: State<T>, t: Tid, u: Tid, a: Action<T>)
    requires Indexable(s, u) && t in s.pcs && t != u
    ensures t in Step(s, u, a).pcs && Step(s, u, a).pcs[t] == s.pcs[t]
  {
  }

  // ----- enqueue

  /** Where an enqueue of e stands when it has drawn tickets for the values of put. */
  ghost predicate Enqueues<T>(pc: Pc<T>, e: T, wait: bool, put: seq<T>) {
    match pc
    case TryEnq(x) => x == e && !wait && put == []
    case TryEnqTurn(x, _) => x == e && !wait && put == []
    case TryEnqCas(x, _) => x == e && !wait && put == []
    case TryEnqReload(x, _, _, _) => x == e && !wait && put == []
    case WaitEnq(x) => x == e && wait && put == []
    case EnqSpin(x, _) => x == e && put == [e]
    case EnqWrite(x, _) => x == e && put == [e]
    case EnqStore(x, _) => x == e && put == [e]
    case EnqDone(ok) => (wait ==> ok) && put == if ok then [e] else []
    case _ => false
  }

  lemma EnqueueMoves<T>(s: State<T>, t: Tid, a: Action<T>, e: T, wait: bool, put: seq<T>)
    requires Indexable(s, t) && Enqueuing(s.pcs[t]) && Enqueues(s.pcs[t], e, wait, put)
    ensures s.log <= Step(s, t, a).log
    ensures Enqueues(Step(s, t, a).pcs[t], e, wait, put + Step(s, t, a).log[|s.log|..])
  {
    LogGrows(s, t, a);
    assert put + [] == put && s.log[|s.log|..] == [];
    assert (s.log + [e])[|s.log|..] == [e] && [] + [e] == [e];
  }

  lemma LastStep<T>(run: seq<State<T>>, sched: seq<(Tid, Action<T>)>, j: nat)
    requires IsRun(run, sched) && 0 < j <= |sched|
    ensures Indexable(run[j - 1], sched[j - 1].0) && run[j] == Step(run[j - 1], sched[j - 1].0, sched[j - 1].1)
  {
    hide Step, Indexable;
  }

  lemma EnqueueBegins<T>(s: State<T>, t: Tid, a: Action<T>)
    requires Indexable(s, t) && s.pcs[t].Idle? && (a.CallTryEnq? || a.CallWaitEnq?)
    ensures Step(s, t, a).log == s.log && Enqueues(Step(s, t, a).pcs[t], a.e, a.CallWaitEnq?, [])
  {
  }

  lemma EnqueueFirst<T>(run: seq<State<T>>, sched: seq<(Tid, Action<T>)>, t: Tid, a: Action<T>, i: nat)
    requires (a.CallTryEnq? || a.CallWaitEnq?) && IsRun(run, sched) && i < |sched| && sched[i] == (t, a) && t in run[i].pcs && run[i].pcs[t].Idle?
    ensures t in run[i + 1].pcs && Enqueues(run[i + 1].pcs[t], a.e, a.CallWaitEnq?, Put(run, sched, t, i, i + 1))
  {
    LastStep(run, sched, i + 1);
    EnqueueBegins(run[i], t, a);
    hide Step, Indexable, IsRun, Enqueues;
    assert Put(run, sched, t, i, i) == [];
    assert run[i].log[|run[i].log|..] == [];
  }

  lemma EnqueueNext<T>(run: seq<State<T>>, sched: seq<(Tid, Action<T>)>, t: Tid, a: Action<T>, i: nat, j: nat)
    requires (a.CallTryEnq? || a.CallWaitEnq?) && IsRun(run, sched) && i < j <= |sched| && t in run[j - 1].pcs
    requires Enqueues(run[j - 1].pcs[t], a.e, a.CallWaitEnq?, Put(run, sched, t, i, j - 1))
    requires Enqueuing(run[j - 1].pcs[t]) || Dequeuing(run[j - 1].pcs[t])
    ensures t in run[j].pcs && Enqueues(run[j].pcs[t], a.e, a.CallWaitEnq?, Put(run, sched, t, i, j))
  {
    LastStep(run, sched, j);
    var s, u, b, put := run[j - 1], sched[j - 1].0, sched[j - 1].1, Put(run, sched, t, i, j - 1);
    assert Enqueuing(s.pcs[t]);
    assert put + [] == put;
    hide Step, Indexable, IsRun, Enqueues;
    if u == t {
      EnqueueMoves(s, t, b, a.e, a.CallWaitEnq?, put);
    } else {
      OtherMoves(s, t, u, b);
    }
  }

  lemma {:induction false} EnqueueProgress<T>(run: seq<State<T>>, sched: seq<(Tid, Action<T>)>, t: Tid, a: Action<T>, i: nat, j: nat)
    requires (a.CallTryEnq? || a.CallWaitEnq?) && UnderWay(run, sched, t, a, i, j)
    ensures t in run[j].pcs && Enqueues(run[j].pcs[t], a.e, a.CallWaitEnq?, Put(run, sched, t, i, j))
    decreases j
  {
    hide IsRun, Enqueues;
    if j == i + 1 {
      EnqueueFirst(run, sched, t, a, i);
    } else {
      EnqueueProgress(run, sched, t, a, i, j - 1);
      EnqueueNext(run, sched, t, a, i, j);
    }
  }

  /** What an enqueue answers: true if and only if the call has drawn a ticket, one, for its value; a waiting
      enqueue answers nothing else. A call that answers false has drawn none, and during it there was an
      instant at which the ticket one table before head had not been released by its dequeuer. */
  lemma EnqueueAnswers<T>(run: seq<State<T>>, sched: seq<(Tid, Action<T>)>, t: Tid, a: Action<T>, i: nat, j: nat) returns (m: nat)
    requires (a.CallTryEnq? || a.CallWaitEnq?) && UnderWay(run, sched, t, a, i, j)
    requires t in run[j].pcs ==> !Enqueuing(run[j].pcs[t])
    ensures t in run[j].pcs && run[j].pcs[t].EnqDone?
    ensures Put(run, sched, t, i, j) == if run[j].pcs[t].ok then [a.e] else []
    ensures a.CallWaitEnq? ==> run[j].pcs[t].ok
    ensures !run[j].pcs[t].ok ==> i < m < j && Inv(run[m]) && NoRoomAt(run[m])
  {
    EnqueueProgress(run, sched, t, a, i, j);
    m := i;
    if run[j].pcs[t] == EnqDone(false) {
      m := FailedEnqueueHadNoRoom(run, sched, j, t);
      LastStep(run, sched, i + 1);
      EnqueueBegins(run[i], t, a);
      hide Step, Indexable, Inv;
      assert !FailingEnq(run[i + 1].pcs[t]);
    }
  }

  // ----- dequeue

  /** Where a dequeue stands when it has drawn these tickets. */
  ghost predicate Dequeues<T>(pc: Pc<T>, wait: bool, took: seq<nat>) {
    match pc
    case TryDeq => !wait && took == []
    case TryDeqTurn(_) => !wait && took == []
    case TryDeqCas(_) => !wait && took == []
    case TryDeqReload(_, _, _) => !wait && took == []
    case WaitDeq => wait && took == []
    case DeqSpin(k) => took == [k]
    case DeqRead(k) => took == [k]
    case DeqStore(k, _) => took == [k]
    case DeqDone(k, _) => took == [k]
    case DeqFailed => !wait && took == []
    case _ => false
  }

  lemma DequeueMoves<T>(s: State<T>, t: Tid, a: Action<T>, wait: bool, took: seq<nat>)
    requires Indexable(s, t) && Dequeuing(s.pcs[t]) && Dequeues(s.pcs[t], wait, took)
    ensures Dequeues(Step(s, t, a).pcs[t], wait, took + if Step(s, t, a).tail != s.tail then [s.tail] else [])
  {
    assert took + [] == took && [] + [s.tail] == [s.tail];
  }

  lemma DequeueBegins<T>(s: State<T>, t: Tid, a: Action<T>)
    requires Indexable(s, t) && s.pcs[t].Idle? && (a.CallTryDeq? || a.CallWaitDeq?)
    ensures Step(s, t, a).tail == s.tail && Dequeues(Step(s, t, a).pcs[t], a.CallWaitDeq?, [])
  {
  }

  lemma DequeueFirst<T>(run: seq<State<T>>, sched: seq<(Tid, Action<T>)>, t: Tid, a: Action<T>, i: nat)
    requires (a.CallTryDeq? || a.CallWaitDeq?) && IsRun(run, sched) && i < |sched| && sched[i] == (t, a) && t in run[i].pcs && run[i].pcs[t].Idle?
    ensures t in run[i + 1].pcs && Dequeues(run[i + 1].pcs[t], a.CallWaitDeq?, Took(run, sched, t, i, i + 1))
  {
    LastStep(run, sched, i + 1);
    DequeueBegins(run[i], t, a);
    hide Step, Indexable, IsRun, Dequeues;
    assert Took(run, sched, t, i, i) == [];
  }

  lemma DequeueNext<T>(run: seq<State<T>>, sched: seq<(Tid, Action<T>)>, t: Tid, a: Action<T>, i: nat, j: nat)
    requires (a.CallTryDeq? || a.CallWaitDeq?) && IsRun(run, sched) && i < j <= |sched| && t in run[j - 1].pcs
    requires Dequeues(run[j - 1].pcs[t], a.CallWaitDeq?, Took(run, sched, t, i, j - 1))
    requires Enqueuing(run[j - 1].pcs[t]) || Dequeuing(run[j - 1].pcs[t])
    ensures t in run[j].pcs && Dequeues(run[j].pcs[t], a.CallWaitDeq?, Took(run, sched, t, i, j))
  {
    LastStep(run, sched, j);
    var s, u, b, took := run[j - 1], sched[j - 1].0, sched[j - 1].1, Took(run, sched, t, i, j - 1);
    assert Dequeuing(s.pcs[t]);
    assert took + [] == took;
    hide Step, Indexable, IsRun, Dequeues;
    if u == t {
      DequeueMoves(s, t, b, a.CallWaitDeq?, took);
    } else {
      OtherMoves(s, t, u, b);
    }
  }

  lemma {:induction false} DequeueProgress<T>(run: seq<State<T>>, sched: seq<(Tid, Action<T>)>, t: Tid, a: Action<T>, i: nat, j: nat)
    requires (a.CallTryDeq? || a.CallWaitDeq?) && UnderWay(run, sched, t, a, i, j)
    ensures t in run[j].pcs && Dequeues(run[j].pcs[t], a.CallWaitDeq?, Took(run, sched, t, i, j))
    decreases j
  {
    hide IsRun, Dequeues;
    if j == i + 1 {
      DequeueFirst(run, sched, t, a, i);
    } else {
      DequeueProgress(run, sched, t, a, i, j - 1);
      DequeueNext(run, sched, t, a, i, j);
    }
  }

  /** What a dequeue answers: a value if and only if the call has drawn a ticket, one, and then the value of
      the enqueuer of that ticket; a waiting dequeue answers nothing else. A call that fails has drawn none,
      and during it there was an instant with nothing to read at tail. */
  lemma DequeueAnswers<T>(run: seq<State<T>>, sched: seq<(Tid, Action<T>)>, t: Tid, a: Action<T>, i: nat, j: nat) returns (m: nat)
    requires (a.CallTryDeq? || a.CallWaitDeq?) && UnderWay(run, sched, t, a, i, j)
    requires t in run[j].pcs ==> !Dequeuing(run[j].pcs[t])
    ensures t in run[j].pcs && (run[j].pcs[t].DeqDone? || (run[j].pcs[t].DeqFailed? && a.CallTryDeq?))
    ensures run[j].pcs[t].DeqDone? ==> var k := run[j].pcs[t].k;
      Took(run, sched, t, i, j) == [k] && k < |run[j].log| && run[j].pcs[t].v == run[j].log[k]
    ensures run[j].pcs[t].DeqFailed? ==> Took(run, sched, t, i, j) == [] && i < m < j && Inv(run[m]) && NothingAt(run[m])
  {
    DequeueProgress(run, sched, t, a, i, j);
    RunInv(run, sched, j);
    assert ThreadOk(run[j], t);
    m := i;
    if run[j].pcs[t].DeqFailed? {
      m := FailedDequeueFoundNothing(run, sched, j, t);
      LastStep(run, sched, i + 1);
      DequeueBegins(run[i], t, a);
      hide Step, Indexable, Inv;
      assert !FailingDeq(run[i + 1].pcs[t]);
    }
  }
}
