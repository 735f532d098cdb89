/** What whole calls on the semaphore queue do and return, over every run: a call from the step that starts it
    to the step at which its thread has left it. */
module SyncCalls {
  import opened Options
  import opened SyncQueue

  /** The objects for which the steps of thread t from i to j - 1 took the lock as an enqueuer. */
  ghost function Put<T>(run: seq<State<T>>, sched: seq<(Tid, Action<T>)>, t: Tid, i: nat, j: nat): seq<T>
    requires IsRun(run, sched) && i <= j <= |sched|
    decreases j
  {
    if i == j then []
    else
      Put(run, sched, t, i, j - 1)
      + if sched[j - 1].0 == t && |run[j - 1].given| <= |run[j].given| then run[j].given[|run[j - 1].given|..] else []
  }

  /** The places in lock order they took as a dequeuer. */
  ghost function Took<T>(run: seq<State<T>>, sched: seq<(Tid, Action<T>)>, t: Tid, i: nat, j: nat): seq<nat>
    requires IsRun(run, sched) && i <= j <= |sched|
    decreases j
  {
    if i == j then []
    else Took(run, sched, t, i, j - 1) + if sched[j - 1].0 == t && run[j].claims != run[j - 1].claims then [run[j - 1].claims] else []
  }

  predicate Consuming<T>(pc: Pc<T>) {
    pc.DeqWait? || pc.DeqLock? || pc.DeqIndex? || pc.DeqWrap? || pc.DeqLoad? || pc.DeqUnlock? || pc.DeqPost?
  }

  ghost predicate UnderWay<T>(run: seq<State<T>>, sched: seq<(Tid, Action<T>)>, t: Tid, a: Action<T>, i: nat, j: nat) {
    && IsRun(run, sched) && i < j <= |sched| && sched[i] == (t, a)
    && forall m :: i < m < j ==> t in run[m].pcs && (Producing(run[m].pcs[t]) || Consuming(run[m].pcs[t]))
  }

  /** Where an enqueue of obj stands when it has put in the objects of put. */
  ghost predicate Enqueues<T>(pc: Pc<T>, obj: T, put: seq<T>) {
    match pc
    case EnqWait(x) => x == obj && put == []
    case EnqLock(x) => x == obj && put == []
    case EnqIndex(_) => put == [obj]
    case EnqWrap(_, _) => put == [obj]
    case EnqStore(_, _) => put == [obj]
    case EnqUnlock => put == [obj]
    case EnqPost => put == [obj]
    case Idle => put == [obj]
    case _ => false
  }

  /** Where a dequeue stands when it has taken these places. */
  ghost predicate Dequeues<T>(s: State<T>, pc: Pc<T>, took: seq<nat>) {
    match pc
    case DeqWait => took == []
    case DeqLock => took == []
    case DeqIndex => s.claims > 0 && took == [s.claims - 1]
    case DeqWrap(_) => s.claims > 0 && took == [s.claims - 1]
    case DeqLoad(_) => s.claims > 0 && took == [s.claims - 1]
    case DeqUnlock(_, k) => took == [k]
    case DeqPost(_, k) => took == [k]
    case DeqDone(_, k) => took == [k]
    case _ => false
  }

  lemma LastStep<T>(run: seq<State<T>>, sched: seq<(Tid, Action<T>)>, j: nat)
    requires IsRun(run, sched) && 0 < j <= |sched|
    ensures var s, u, a := run[j - 1], sched[j - 1].0, sched[j - 1].1;
      Inv(s) && u in s.pcs && Enabled(s, u, a) && run[j] == Step(s, u, a)
  {
    RunInv(run, sched, j - 1);
    hide Inv, Step, Enabled;
  }

  lemma EnqueueMoves<T>(s: State<T>, t: Tid, a: Action<T>, obj: T, put: seq<T>)
    requires t in s.pcs && Enabled(s, t, a) && Producing(s.pcs[t]) && Enqueues(s.pcs[t], obj, put)
    ensures var s' := Step(s, t, a); |s.given| <= |s'.given| && t in s'.pcs && Enqueues(s'.pcs[t], obj, put + s'.given[|s.given|..])
  {
    assert put + [] == put && s.given[|s.given|..] == [];
    assert (s.given + [obj])[|s.given|..] == [obj] && [] + [obj] == [obj];
  }

  lemma DequeueMoves<T>(s: State<T>, t: Tid, a: Action<T>, took: seq<nat>)
    requires Inv(s) && t in s.pcs && Enabled(s, t, a) && Consuming(s.pcs[t]) && Dequeues(s, s.pcs[t], took)
    ensures var s' := Step(s, t, a); t in s'.pcs && Dequeues(s', s'.pcs[t], took + if s'.claims != s.claims then [s.claims] else [])
  {
    assert took + [] == took && [] + [s.claims] == [s.claims];
    AccessesSafe(s, t);
    hide Inv, StepEnq;
    if s.pcs[t].DeqLock? {
      assert Step(s, t, a).claims == s.claims + 1;
    } else {
      DequeueStays(s, t, a, took);
      hide StepDeq;
    }
  }

  lemma DequeueStays<T>(s: State<T>, t: Tid, a: Action<T>, took: seq<nat>)
    requires t in s.pcs && Enabled(s, t, a) && Consuming(s.pcs[t]) && !s.pcs[t].DeqLock? && Dequeues(s, s.pcs[t], took)
    requires s.pcs[t].DeqLoad? ==> s.pcs[t].r < |s.e|
    ensures var s' := Step(s, t, a); t in s'.pcs && s'.claims == s.claims && Dequeues(s', s'.pcs[t], took)
  {
    hide StepEnq;
  }

  /** While another thread moves, t stays where it is; and while t is in the lock nobody takes a place. */
  lemma OtherMoves<T>(s: State<T>, t: Tid, u: Tid, a: Action<T>)
    requires Inv(s) && u in s.pcs && t in s.pcs && t != u && Enabled(s, u, a)
    ensures var s' := Step(s, u, a); t in s'.pcs && s'.pcs[t] == s.pcs[t] && (InLock(s.pcs[t]) ==> s'.claims == s.claims)
  {
    OneThreadMoves(s, u, a);
    assert InLock(s.pcs[t]) ==> s.lock == Some(t);
    hide Inv, SemsOk, DataOk, ResultsOk;
  }

  lemma CallBegins<T>(s: State<T>, t: Tid, a: Action<T>)
    requires t in s.pcs && Enabled(s, t, a) && !a.Continue?
    ensures var s' := Step(s, t, a);
      && t in s'.pcs && s'.given == s.given && s'.claims == s.claims
      && s'.pcs[t] == if a.CallEnq? then EnqWait(a.obj) else DeqWait
  {
  }

  // ----- enqueue

  lemma EnqueueFirst<T>(run: seq<State<T>>, sched: seq<(Tid, Action<T>)>, t: Tid, obj: T, i: nat)
    requires IsRun(run, sched) && i < |sched| && sched[i] == (t, CallEnq(obj))
    ensures t in run[i + 1].pcs && Enqueues(run[i + 1].pcs[t], obj, Put(run, sched, t, i, i + 1))
  {
    LastStep(run, sched, i + 1);
    hide Inv, Step, Enabled, IsRun;
    CallBegins(run[i], t, CallEnq(obj));
    assert Put(run, sched, t, i, i) == [] && run[i].given[|run[i].given|..] == [];
  }

  lemma EnqueueNext<T>(run: seq<State<T>>, sched: seq<(Tid, Action<T>)>, t: Tid, obj: T, i: nat, j: nat)
    requires IsRun(run, sched) && i < j <= |sched| && t in run[j - 1].pcs
    requires Producing(run[j - 1].pcs[t]) || Consuming(run[j - 1].pcs[t])
    requires Enqueues(run[j - 1].pcs[t], obj, Put(run, sched, t, i, j - 1))
    ensures t in run[j].pcs && Enqueues(run[j].pcs[t], obj, Put(run, sched, t, i, j))
  {
    LastStep(run, sched, j);
    var s, u, a, put := run[j - 1], sched[j - 1].0, sched[j - 1].1, Put(run, sched, t, i, j - 1);
    assert Producing(s.pcs[t]) && put + [] == put;
    hide Inv, Step, Enabled, IsRun, Enqueues;
    if u == t {
      EnqueueMoves(s, t, a, obj, put);
    } else {
      OtherMoves(s, t, u, a);
    }
  }

  lemma {:induction false} EnqueueProgress<T>(run: seq<State<T>>, sched: seq<(Tid, Action<T>)>, t: Tid, obj: T, i: nat, j: nat)
    requires UnderWay(run, sched, t, CallEnq(obj), i, j)
    ensures t in run[j].pcs && Enqueues(run[j].pcs[t], obj, Put(run, sched, t, i, j))
    decreases j
  {
    hide IsRun, Enqueues;
    if j == i + 1 {
      EnqueueFirst(run, sched, t, obj, i);
    } else {
      EnqueueProgress(run, sched, t, obj, i, j - 1);
      EnqueueNext(run, sched, t, obj, i, j);
    }
  }

  /** A call of SYNCQ_ENQ that has been left has put in its object, once. */
  lemma EnqueueDoes<T>(run: seq<State<T>>, sched: seq<(Tid, Action<T>)>, t: Tid, obj: T, i: nat, j: nat)
    requires UnderWay(run, sched, t, CallEnq(obj), i, j) && (t in run[j].pcs ==> !Producing(run[j].pcs[t]))
    ensures t in run[j].pcs && run[j].pcs[t].Idle? && Put(run, sched, t, i, j) == [obj]
  {
    EnqueueProgress(run, sched, t, obj, i, j);
  }

  // ----- dequeue

  lemma DequeueFirst<T>(run: seq<State<T>>, sched: seq<(Tid, Action<T>)>, t: Tid, i: nat)
    requires IsRun(run, sched) && i < |sched| && sched[i] == (t, CallDeq)
    ensures t in run[i + 1].pcs && Dequeues(run[i + 1], run[i + 1].pcs[t], Took(run, sched, t, i, i + 1))
  {
    LastStep(run, sched, i + 1);
    hide Inv, Step, Enabled, IsRun;
    CallBegins(run[i], t, CallDeq);
    assert Took(run, sched, t, i, i) == [];
  }

  lemma DequeueNext<T>(run: seq<State<T>>, sched: seq<(Tid, Action<T>)>, t: Tid, i: nat, j: nat)
    requires IsRun(run, sched) && i < j <= |sched| && t in run[j - 1].pcs
    requires Producing(run[j - 1].pcs[t]) || Consuming(run[j - 1].pcs[t])
    requires Dequeues(run[j - 1], run[j - 1].pcs[t], Took(run, sched, t, i, j - 1))
    ensures t in run[j].pcs && Dequeues(run[j], run[j].pcs[t], Took(run, sched, t, i, j))
  {
    LastStep(run, sched, j);
    var s, u, a, took := run[j - 1], sched[j - 1].0, sched[j - 1].1, Took(run, sched, t, i, j - 1);
    assert Consuming(s.pcs[t]) && took + [] == took;
    hide Inv, Step, Enabled, IsRun;
    if u == t {
      hide Dequeues;
      DequeueMoves(s, t, a, took);
    } else {
      OtherMoves(s, t, u, a);
    }
  }

  lemma {:induction false} DequeueProgress<T>(run: seq<State<T>>, sched: seq<(Tid, Action<T>)>, t: Tid, i: nat, j: nat)
    requires UnderWay(run, sched, t, CallDeq, i, j)
    ensures t in run[j].pcs && Dequeues(run[j], run[j].pcs[t], Took(run, sched, t, i, j))
    decreases j
  {
    hide IsRun, Dequeues;
    if j == i + 1 {
      DequeueFirst(run, sched, t, i);
    } else {
      DequeueProgress(run, sched, t, i, j - 1);
      DequeueNext(run, sched, t, i, j);
    }
  }

  /** A call of SYNCQ_DEQ that has been left has taken one place in lock order, and returns the object of the
      enqueuer with the same place. */
  lemma DequeueReturns<T>(run: seq<State<T>>, sched: seq<(Tid, Action<T>)>, t: Tid, i: nat, j: nat)
    requires UnderWay(run, sched, t, CallDeq, i, j) && (t in run[j].pcs ==> !Consuming(run[j].pcs[t]))
    ensures t in run[j].pcs && run[j].pcs[t].DeqDone?
    ensures var k := run[j].pcs[t].k; Took(run, sched, t, i, j) == [k] && k < |run[j].given| && run[j].pcs[t].z == run[j].given[k]
  {
    DequeueProgress(run, sched, t, i, j);
    RunInv(run, sched, j);
    assert ResultOk(run[j], t, run[j].pcs[t]);
  }
}
