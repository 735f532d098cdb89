/** The blocking queue of inc/fast/syncq.h as a step machine over any number of threads: two semaphores, a
    mutex, and two indices into the table.

    Every semaphore and mutex operation is one step, and so is every access to an index and to the table.
    A wait on a semaphore at 0 and a lock of a mutex that is held are not enabled.
 */
module SyncQueue {
  import opened Options
  import opened Slots
  import opened Fifo

  type Tid = nat

  /** Where a thread is in SYNCQ_ENQ or SYNCQ_DEQ, with its local variables. The ticket k counts the
      lock operations of its own kind; no step reads it. */
  datatype Pc<T> =
    | Idle
    | EnqWait(obj: T)
    | EnqLock(obj: T)
    | EnqIndex(obj: T)
    | EnqWrap(obj: T, w: nat)
    | EnqStore(obj: T, w: nat)
    | EnqUnlock
    | EnqPost
    | DeqWait
    | DeqLock
    | DeqIndex
    | DeqWrap(r: nat)
    | DeqLoad(r: nat)
    | DeqUnlock(z: T, k: nat)
    | DeqPost(z: T, k: nat)
    | DeqDone(z: T, k: nat)

  datatype Action<T> = CallEnq(obj: T) | CallDeq | Continue

  /** The shared object and the threads. The history variables given (the objects of enqueuers in the
      order they took the lock), claims (how many dequeuers took it) and takers (which) are not read by
      any step. */
  datatype State<T> = State(
    sz: nat, rd: nat, wr: nat, notempty: nat, notfull: nat, lock: Option<Tid>, e: seq<T>,
    pcs: map<Tid, Pc<T>>, given: seq<T>, claims: nat, takers: seq<Tid>)

  /** __syncobj_init. */
  ghost predicate Init<T>(s: State<T>) {
    && s.sz >= 1 && |s.e| == s.sz && s.rd == s.wr == 0 && s.lock == None
    && s.notempty == 0 && s.notfull == s.sz
    && (forall t :: t in s.pcs ==> s.pcs[t].Idle?) && s.given == [] && s.claims == 0 && s.takers == []
  }

  // ----- one step of one thread

  function GoTo<T>(s: State<T>, t: Tid, pc: Pc<T>): State<T> {
    s.(pcs := s.pcs[t := pc])
  }

  predicate Enabled<T>(s: State<T>, t: Tid, a: Action<T>)
    requires t in s.pcs
  {
    var pc := s.pcs[t];
    if !a.Continue? then pc.Idle? || pc.DeqDone?
    else
      match pc
      case Idle => false
      case DeqDone(_, _) => false
      case EnqWait(_) => s.notfull > 0
      case DeqWait => s.notempty > 0
      case EnqLock(_) => s.lock == None
      case DeqLock => s.lock == None
      case _ => true
  }

  function Step<T>(s: State<T>, t: Tid, a: Action<T>): State<T>
    requires t in s.pcs && Enabled(s, t, a)
  {
    match a
    case CallEnq(obj) => GoTo(s, t, EnqWait(obj))
    case CallDeq => GoTo(s, t, DeqWait)
    case Continue => if Producing(s.pcs[t]) then StepEnq(s, t) else StepDeq(s, t)
  }

  predicate Producing<T>(pc: Pc<T>) {
    pc.EnqWait? || pc.EnqLock? || pc.EnqIndex? || pc.EnqWrap? || pc.EnqStore? || pc.EnqUnlock? || pc.EnqPost?
  }

  function StepEnq<T>(s: State<T>, t: Tid): State<T>
    requires t in s.pcs && Enabled(s, t, Continue) && Producing(s.pcs[t])
  {
    match s.pcs[t]
    case EnqWait(obj) => GoTo(s.(notfull := s.notfull - 1), t, EnqLock(obj))
    case EnqLock(obj) => GoTo(s.(lock := Some(t), given := s.given + [obj]), t, EnqIndex(obj))
    case EnqIndex(obj) => GoTo(s.(wr := s.wr + 1), t, EnqWrap(obj, s.wr))
    case EnqWrap(obj, w) => GoTo(s.(wr := if s.wr == s.sz then 0 else s.wr), t, EnqStore(obj, w))
    case EnqStore(obj, w) => GoTo(s.(e := if w < |s.e| then s.e[w := obj] else s.e), t, EnqUnlock)
    case EnqUnlock => GoTo(s.(lock := None), t, EnqPost)
    case EnqPost => GoTo(s.(notempty := s.notempty + 1), t, Idle)
  }

  function StepDeq<T>(s: State<T>, t: Tid): State<T>
    requires t in s.pcs && Enabled(s, t, Continue) && !Producing(s.pcs[t])
  {
    match s.pcs[t]
    case DeqWait => GoTo(s.(notempty := s.notempty - 1), t, DeqLock)
    case DeqLock => GoTo(s.(lock := Some(t), claims := s.claims + 1, takers := s.takers + [t]), t, DeqIndex)
    case DeqIndex => GoTo(s.(rd := s.rd + 1), t, DeqWrap(s.rd))
    case DeqWrap(r) => GoTo(s.(rd := if s.rd == s.sz then 0 else s.rd), t, DeqLoad(r))
    case DeqLoad(r) => if r < |s.e| && s.claims > 0 then GoTo(s, t, DeqUnlock(s.e[r], s.claims - 1)) else s
    case DeqUnlock(z, k) => GoTo(s.(lock := None), t, DeqPost(z, k))
    case DeqPost(z, k) => GoTo(s.(notfull := s.notfull + 1), t, DeqDone(z, k))
  }

  // ----- counting threads

  /** What a thread means for the semaphores: it has waited but not yet locked, or locked but not posted. */
  datatype Role = Outside | EnqWaited | EnqLocked | DeqWaited | DeqLocked

  function RoleOf<T>(pc: Pc<T>): Role {
    match pc
    case EnqLock(_) => EnqWaited
    case EnqIndex(_) => EnqLocked
    case EnqWrap(_, _) => EnqLocked
    case EnqStore(_, _) => EnqLocked
    case EnqUnlock => EnqLocked
    case EnqPost => EnqLocked
    case DeqLock => DeqWaited
    case DeqIndex => DeqLocked
    case DeqWrap(_) => DeqLocked
    case DeqLoad(_) => DeqLocked
    case DeqUnlock(_, _) => DeqLocked
    case DeqPost(_, _) => DeqLocked
    case _ => Outside
  }

  ghost function InRole<T>(pcs: map<Tid, Pc<T>>, role: Role): set<Tid> {
    set t | t in pcs && RoleOf(pcs[t]) == role
  }

  ghost function Count<T>(pcs: map<Tid, Pc<T>>, role: Role): nat {
    |InRole(pcs, role)|
  }

  function Bit(b: bool): int { if b then 1 else 0 }

  lemma RoleMoves<T>(pcs: map<Tid, Pc<T>>, t: Tid, pc: Pc<T>, role: Role)
    ensures InRole(pcs[t := pc], role) == InRole(pcs, role) - {t} + if RoleOf(pc) == role then {t} else {}
  {
    hide RoleOf;
    var pcs' := pcs[t := pc];
    forall u ensures u in InRole(pcs', role) <==> u in InRole(pcs, role) - {t} + if RoleOf(pc) == role then {t} else {} {
      if u != t { assert u in pcs' <==> u in pcs; }
    }
  }

  lemma Recount<T>(pcs: map<Tid, Pc<T>>, t: Tid, pc: Pc<T>, role: Role)
    requires t in pcs
    ensures Count(pcs[t := pc], role) == Count(pcs, role) + Bit(RoleOf(pc) == role) - Bit(RoleOf(pcs[t]) == role)
  {
    assert t in InRole(pcs, role) <==> RoleOf(pcs[t]) == role;
    hide RoleOf, InRole;
    RoleMoves(pcs, t, pc, role);
  }

  lemma CountedAtLeastOne<T>(pcs: map<Tid, Pc<T>>, t: Tid)
    requires t in pcs
    ensures Count(pcs, RoleOf(pcs[t])) >= 1
  {
    hide RoleOf;
    assert t in InRole(pcs, RoleOf(pcs[t]));
  }

  // ----- the invariant

  /** The semaphores count what has been posted and not waited for. */
  ghost predicate SemsOk<T>(s: State<T>) {
    && s.notempty + Count(s.pcs, EnqLocked) + Count(s.pcs, DeqWaited) + s.claims == |s.given|
    && s.notfull + Count(s.pcs, DeqLocked) + Count(s.pcs, EnqWaited) + |s.given| == s.sz + s.claims
  }

  predicate InLock<T>(pc: Pc<T>) {
    || pc.EnqIndex? || pc.EnqWrap? || pc.EnqStore? || pc.EnqUnlock?
    || pc.DeqIndex? || pc.DeqWrap? || pc.DeqLoad? || pc.DeqUnlock?
  }

  ghost predicate LockOk<T>(s: State<T>) {
    && (s.lock.Some? ==> s.lock.value in s.pcs)
    && (forall t :: t in s.pcs ==> (InLock(s.pcs[t]) <==> s.lock == Some(t)))
  }

  /** Where the thread inside the lock is. */
  ghost function Holder<T>(s: State<T>): Pc<T>
    requires LockOk(s)
  {
    if s.lock.Some? then s.pcs[s.lock.value] else Idle
  }

  /** The objects with these places in lock order are in the table. */
  ghost predicate Stored<T>(e: seq<T>, given: seq<T>, from: nat, to: nat) {
    && from <= to <= |given| && to <= from + |e| && 0 < |e|
    && forall i :: from <= i < to ==> e[Slot(i, |e|)] == given[i]
  }

  /** The indices and the table, as far as the thread inside the lock has got. */
  ghost predicate TableOk<T>(holder: Pc<T>, rd: nat, wr: nat, e: seq<T>, given: seq<T>, c: nat)
    requires |e| > 0
  {
    var sz, n := |e|, |given|;
    match holder
    case EnqIndex(obj) =>
      n >= 1 && wr == Slot(n - 1, sz) && rd == Slot(c, sz) && Stored(e, given, c, n - 1) && obj == given[n - 1]
    case EnqWrap(obj, w) =>
      n >= 1 && w == Slot(n - 1, sz) && wr == w + 1 && rd == Slot(c, sz) && Stored(e, given, c, n - 1) && obj == given[n - 1]
    case EnqStore(obj, w) =>
      n >= 1 && w == Slot(n - 1, sz) && wr == Slot(n, sz) && rd == Slot(c, sz) && Stored(e, given, c, n - 1) && obj == given[n - 1]
    case DeqIndex =>
      c >= 1 && rd == Slot(c - 1, sz) && wr == Slot(n, sz) && Stored(e, given, c - 1, n) && c <= n
    case DeqWrap(r) =>
      c >= 1 && r == Slot(c - 1, sz) && rd == r + 1 && wr == Slot(n, sz) && Stored(e, given, c - 1, n) && c <= n
    case DeqLoad(r) =>
      c >= 1 && r == Slot(c - 1, sz) && rd == Slot(c, sz) && wr == Slot(n, sz) && Stored(e, given, c - 1, n) && c <= n
    case _ => rd == Slot(c, sz) && wr == Slot(n, sz) && Stored(e, given, c, n)
  }

  ghost predicate DataOk<T>(s: State<T>)
    requires |s.e| > 0 && LockOk(s)
  {
    TableOk(Holder(s), s.rd, s.wr, s.e, s.given, s.claims)
  }

  /** A dequeuer that has read got the object of the enqueuer with the same place in lock order. */
  ghost predicate Got<T>(s: State<T>, t: Tid, z: T, k: nat) {
    k < |s.takers| && k < |s.given| && s.takers[k] == t && z == s.given[k]
  }

  ghost predicate ResultOk<T>(s: State<T>, t: Tid, pc: Pc<T>) {
    match pc
    case DeqIndex => s.takers != [] && s.takers[|s.takers| - 1] == t
    case DeqWrap(_) => s.takers != [] && s.takers[|s.takers| - 1] == t
    case DeqLoad(_) => s.takers != [] && s.takers[|s.takers| - 1] == t
    case DeqUnlock(z, k) => Got(s, t, z, k)
    case DeqPost(z, k) => Got(s, t, z, k)
    case DeqDone(z, k) => Got(s, t, z, k)
    case _ => true
  }

  ghost predicate ResultsOk<T>(s: State<T>) {
    |s.takers| == s.claims && forall t :: t in s.pcs ==> ResultOk(s, t, s.pcs[t])
  }

  ghost predicate Inv<T>(s: State<T>) {
    s.sz >= 1 && |s.e| == s.sz && LockOk(s) && SemsOk(s) && DataOk(s) && ResultsOk(s)
  }

  lemma InitInv<T>(s: State<T>)
    requires Init(s)
    ensures Inv(s)
  {
    DivModUnique(0, s.sz, 0, 0);
    assert Slot(0, s.sz) == 0;
    hide Slot;
    forall role | role != Outside ensures Count(s.pcs, role) == 0 {
      assert InRole(s.pcs, role) == {};
    }
  }

  // ----- every step keeps the invariant

  /** Every step moves one thread. */
  lemma OneThreadMoves<T>(s: State<T>, t: Tid, a: Action<T>)
    requires t in s.pcs && Enabled(s, t, a)
    ensures var s' := Step(s, t, a); s'.pcs.Keys == s.pcs.Keys && s'.pcs == s.pcs[t := s'.pcs[t]]
    ensures Step(s, t, a).sz == s.sz && |Step(s, t, a).e| == |s.e|
  {
  }

  /** How a step changes the number of threads in each role. */
  lemma RecountStep<T>(s: State<T>, t: Tid, a: Action<T>)
    requires t in s.pcs && Enabled(s, t, a)
    ensures var s' := Step(s, t, a);
      && t in s'.pcs
      && forall role :: Count(s'.pcs, role) == Count(s.pcs, role) + Bit(RoleOf(s'.pcs[t]) == role) - Bit(RoleOf(s.pcs[t]) == role)
  {
    var s' := Step(s, t, a);
    OneThreadMoves(s, t, a);
    hide Count, Step, Enabled;
    forall role ensures Count(s'.pcs, role) == Count(s.pcs, role) + Bit(RoleOf(s'.pcs[t]) == role) - Bit(RoleOf(s.pcs[t]) == role) {
      Recount(s.pcs, t, s'.pcs[t], role);
    }
  }

  lemma SemsEnq<T>(s: State<T>, t: Tid)
    requires t in s.pcs && Enabled(s, t, Continue) && Producing(s.pcs[t]) && SemsOk(s)
    ensures SemsOk(Step(s, t, Continue))
  {
    RecountStep(s, t, Continue);
    hide Count, StepDeq;
  }

  lemma SemsDeq<T>(s: State<T>, t: Tid)
    requires t in s.pcs && Enabled(s, t, Continue) && !Producing(s.pcs[t]) && SemsOk(s)
    ensures SemsOk(Step(s, t, Continue))
  {
    RecountStep(s, t, Continue);
    hide Count, StepEnq, Producing;
    match s.pcs[t]
    case DeqWait =>
    case DeqLock =>
    case _ =>
  }

  lemma SemsStep<T>(s: State<T>, t: Tid, a: Action<T>)
    requires t in s.pcs && Enabled(s, t, a) && SemsOk(s)
    ensures SemsOk(Step(s, t, a))
  {
    if !a.Continue? {
      RecountStep(s, t, a);
      hide Count, StepEnq, StepDeq;
    } else if Producing(s.pcs[t]) {
      SemsEnq(s, t);
    } else {
      SemsDeq(s, t);
    }
  }

  lemma LockStep<T>(s: State<T>, t: Tid, a: Action<T>)
    requires t in s.pcs && Enabled(s, t, a) && LockOk(s)
    ensures LockOk(Step(s, t, a))
  {
    OneThreadMoves(s, t, a);
    assert InLock(s.pcs[t]) <==> s.lock == Some(t);
  }

  /** The semaphores keep an enqueuer from claiming a full table and a dequeuer from claiming an empty
      one. */
  lemma ClaimsHaveRoom<T>(s: State<T>, t: Tid)
    requires SemsOk(s) && t in s.pcs
    ensures s.claims <= |s.given| <= s.claims + s.sz
    ensures s.pcs[t].EnqLock? ==> |s.given| < s.claims + s.sz
    ensures s.pcs[t].DeqLock? ==> s.claims < |s.given|
  {
    CountedAtLeastOne(s.pcs, t);
    hide Count;
  }

  /** Steps of a thread that neither is in the lock nor enters it leave the data alone. */
  lemma DataUntouched<T>(s: State<T>, t: Tid, a: Action<T>)
    requires Inv(s) && t in s.pcs && Enabled(s, t, a)
    requires !InLock(s.pcs[t]) && !(a.Continue? && (s.pcs[t].EnqLock? || s.pcs[t].DeqLock?))
    ensures LockOk(Step(s, t, a)) && DataOk(Step(s, t, a))
  {
    LockStep(s, t, a);
    OneThreadMoves(s, t, a);
    hide TableOk, SemsOk, ResultsOk;
    var s' := Step(s, t, a);
    assert s'.given == s.given && s'.claims == s.claims && s'.e == s.e && s'.rd == s.rd && s'.wr == s.wr && s'.lock == s.lock;
    assert Holder(s') == Holder(s);
  }

  /** The thread that is in the lock after a step of t if t was or came to be in it. */
  lemma HolderMoves<T>(s: State<T>, t: Tid)
    requires LockOk(s) && t in s.pcs && Enabled(s, t, Continue)
    requires InLock(s.pcs[t]) || s.pcs[t].EnqLock? || s.pcs[t].DeqLock?
    ensures var s' := Step(s, t, Continue);
      && LockOk(s')
      && Holder(s') == (if InLock(s'.pcs[t]) then s'.pcs[t] else Idle)
    ensures Holder(s) == if InLock(s.pcs[t]) then s.pcs[t] else Idle
  {
    LockStep(s, t, Continue);
  }

  /** What each step of an enqueuer inside the lock does to the table. */
  lemma TableEnq<T>(pc: Pc<T>, obj: T, rd: nat, wr: nat, e: seq<T>, given: seq<T>, c: nat)
    requires |e| > 0 && TableOk(pc, rd, wr, e, given, c)
    ensures pc.Idle? && |given| < c + |e| ==> TableOk(EnqIndex(obj), rd, wr, e, given + [obj], c)
    ensures pc.EnqIndex? ==> TableOk(EnqWrap(pc.obj, wr), rd, wr + 1, e, given, c)
    ensures pc.EnqWrap? ==> TableOk(EnqStore(pc.obj, pc.w), rd, if wr == |e| then 0 else wr, e, given, c)
    ensures pc.EnqStore? && |given| <= c + |e| ==> pc.w < |e| && TableOk(EnqUnlock, rd, wr, e[pc.w := pc.obj], given, c)
    ensures pc.EnqUnlock? ==> TableOk(Idle, rd, wr, e, given, c)
  {
    hide Slot, Stored;
    if pc.Idle? { StoredLength(e, given, c, |given|); StoredKept(e, given, obj, c, |given|); }
    if pc.EnqWrap? { SlotNext(|given| - 1, |e|); }
    if pc.EnqStore? && |given| <= c + |e| { StoredOne(e, given, c, |given|); }
  }

  lemma StoredLength<T>(e: seq<T>, given: seq<T>, from: nat, to: nat)
    requires Stored(e, given, from, to)
    ensures from <= to <= from + |e|
  {
  }

  lemma DataEnq<T>(s: State<T>, t: Tid)
    requires Inv(s) && t in s.pcs && Enabled(s, t, Continue)
    requires Producing(s.pcs[t]) && (InLock(s.pcs[t]) || s.pcs[t].EnqLock?)
    ensures LockOk(Step(s, t, Continue)) && DataOk(Step(s, t, Continue))
  {
    hide TableOk, SemsOk, ResultsOk, StepDeq;
    HolderMoves(s, t);
    ClaimsHaveRoom(s, t);
    TableEnq(Holder(s), if s.pcs[t].EnqLock? then s.pcs[t].obj else s.e[0], s.rd, s.wr, s.e, s.given, s.claims);
    hide LockOk, Holder;
  }

  lemma StoredKept<T>(e: seq<T>, given: seq<T>, obj: T, from: nat, to: nat)
    requires Stored(e, given, from, to)
    ensures Stored(e, given + [obj], from, to)
  {
    hide Slot;
  }

  /** The slot written is free: it is none of those that still have to be read. */
  lemma StoredOne<T>(e: seq<T>, given: seq<T>, from: nat, to: nat)
    requires 1 <= to <= from + |e| && to <= |given| && Stored(e, given, from, to - 1)
    ensures Stored(e[Slot(to - 1, |e|) := given[to - 1]], given, from, to)
  {
    var w := Slot(to - 1, |e|);
    var e' := e[w := given[to - 1]];
    forall i | from <= i < to ensures e'[Slot(i, |e'|)] == given[i] {
      if i < to - 1 && Slot(i, |e|) == w { SlotInjective(i, to - 1, |e|); }
    }
  }

  /** What each step of a dequeuer inside the lock does to the table. */
  lemma TableDeq<T>(pc: Pc<T>, rd: nat, wr: nat, e: seq<T>, given: seq<T>, c: nat)
    requires |e| > 0 && TableOk(pc, rd, wr, e, given, c)
    ensures pc.Idle? && c < |given| ==> TableOk(DeqIndex, rd, wr, e, given, c + 1)
    ensures pc.DeqIndex? ==> TableOk(DeqWrap(rd), rd + 1, wr, e, given, c)
    ensures pc.DeqWrap? ==> TableOk(DeqLoad(pc.r), if rd == |e| then 0 else rd, wr, e, given, c)
    ensures pc.DeqLoad? ==> pc.r < |e| && 0 < c <= |given| && e[pc.r] == given[c - 1] && TableOk(DeqUnlock(e[pc.r], c - 1), rd, wr, e, given, c)
    ensures pc.DeqUnlock? ==> TableOk(Idle, rd, wr, e, given, c)
  {
    hide Slot, Stored;
    if pc.DeqWrap? { SlotNext(c - 1, |e|); }
    if pc.DeqLoad? { StoredFirst(e, given, c - 1, |given|); }
  }

  lemma DataDeq<T>(s: State<T>, t: Tid)
    requires Inv(s) && t in s.pcs && Enabled(s, t, Continue)
    requires !Producing(s.pcs[t]) && (InLock(s.pcs[t]) || s.pcs[t].DeqLock?)
    ensures LockOk(Step(s, t, Continue)) && DataOk(Step(s, t, Continue))
    ensures s.pcs[t].DeqLoad? ==> ResultOk(Step(s, t, Continue), t, Step(s, t, Continue).pcs[t])
  {
    assert ResultOk(s, t, s.pcs[t]);
    hide TableOk, SemsOk, StepEnq;
    HolderMoves(s, t);
    ClaimsHaveRoom(s, t);
    TableDeq(Holder(s), s.rd, s.wr, s.e, s.given, s.claims);
    hide LockOk, Holder;
  }

  lemma StoredFirst<T>(e: seq<T>, given: seq<T>, from: nat, to: nat)
    requires Stored(e, given, from, to) && from < to
    ensures |e| > 0 && from < |given| && e[Slot(from, |e|)] == given[from] && Stored(e, given, from + 1, to)
  {
    hide Slot;
  }

  /** What a thread knows stays true while others move, if it is not in the lock when another enters it. */
  lemma ResultKept<T>(s: State<T>, s': State<T>, u: Tid, pc: Pc<T>)
    requires ResultOk(s, u, pc)
    requires s'.given == s.given || exists obj :: s'.given == s.given + [obj]
    requires s'.takers == s.takers || (!InLock(pc) && exists t :: s'.takers == s.takers + [t])
    ensures ResultOk(s', u, pc)
  {
  }

  lemma HistoriesGrow<T>(s: State<T>, t: Tid, a: Action<T>)
    requires t in s.pcs && Enabled(s, t, a) && |s.takers| == s.claims
    ensures var s' := Step(s, t, a);
      && (s'.given == s.given || exists obj :: s'.given == s.given + [obj])
      && |s'.takers| == s'.claims
      && (s'.takers == s.takers || (s.lock == None && s'.takers == s.takers + [t]))
  {
    if a.Continue? && s.pcs[t].EnqLock? {
      assert Step(s, t, a).given == s.given + [s.pcs[t].obj];
    }
  }

  /** The thread that moves. */
  lemma ResultMoves<T>(s: State<T>, t: Tid, a: Action<T>)
    requires Inv(s) && t in s.pcs && Enabled(s, t, a)
    ensures t in Step(s, t, a).pcs && ResultOk(Step(s, t, a), t, Step(s, t, a).pcs[t])
  {
    assert ResultOk(s, t, s.pcs[t]);
    if a.Continue? && s.pcs[t].DeqLoad? {
      DataDeq(s, t);
    }
    hide Inv, LockOk, DataOk, StepEnq;
  }

  lemma ResultsStep<T>(s: State<T>, t: Tid, a: Action<T>)
    requires Inv(s) && t in s.pcs && Enabled(s, t, a)
    ensures ResultsOk(Step(s, t, a))
  {
    var s' := Step(s, t, a);
    OneThreadMoves(s, t, a);
    HistoriesGrow(s, t, a);
    ResultMoves(s, t, a);
    hide SemsOk, DataOk, Step, ResultOk, Enabled;
    forall u | u in s'.pcs ensures ResultOk(s', u, s'.pcs[u]) {
      if u != t { ResultKept(s, s', u, s.pcs[u]); }
    }
  }

  lemma StepInv<T>(s: State<T>, t: Tid, a: Action<T>)
    requires Inv(s) && t in s.pcs && Enabled(s, t, a)
    ensures Inv(Step(s, t, a))
  {
    OneThreadMoves(s, t, a);
    SemsStep(s, t, a);
    ResultsStep(s, t, a);
    hide SemsOk, ResultsOk, Slot, Step;
    if a.Continue? && (InLock(s.pcs[t]) || s.pcs[t].EnqLock? || s.pcs[t].DeqLock?) {
      if Producing(s.pcs[t]) { DataEnq(s, t); } else { DataDeq(s, t); }
    } else {
      assert !InLock(s.pcs[t]);
      DataUntouched(s, t, a);
    }
  }

  // ----- what holds in every state

  /** The two semaphores and the threads between a wait and the matching post always account for every
      slot of the table. */
  lemma Conservation<T>(s: State<T>)
    requires Inv(s)
    ensures s.notfull + s.notempty + Count(s.pcs, EnqWaited) + Count(s.pcs, EnqLocked)
              + Count(s.pcs, DeqWaited) + Count(s.pcs, DeqLocked) == s.sz
  {
  }

  /** A slot about to be written holds no object that still has to be read, and a slot about to be read
      has been written. */
  lemma AccessesSafe<T>(s: State<T>, t: Tid)
    requires Inv(s) && t in s.pcs
    ensures s.pcs[t].EnqStore? ==>
      && s.pcs[t].w < |s.e|
      && forall i :: s.claims <= i < |s.given| - 1 ==> Slot(i, s.sz) != s.pcs[t].w
    ensures s.pcs[t].DeqLoad? ==>
      && s.pcs[t].r < |s.e| && 0 < s.claims <= |s.given|
      && s.e[s.pcs[t].r] == s.given[s.claims - 1]
  {
    ClaimsHaveRoom(s, t);
    assert InLock(s.pcs[t]) ==> Holder(s) == s.pcs[t];
    hide SemsOk, ResultsOk, Slot;
    if s.pcs[t].EnqStore? {
      forall i | s.claims <= i < |s.given| - 1 ensures Slot(i, s.sz) != s.pcs[t].w {
        if Slot(i, s.sz) == s.pcs[t].w { SlotInjective(i, |s.given| - 1, s.sz); }
      }
    }
  }

  /** If every thread is idle or waits for a semaphore it does not get, enqueuers wait only on a full
      queue and dequeuers only on an empty one. */
  lemma BlockedRightly<T>(s: State<T>, t: Tid)
    requires Inv(s) && t in s.pcs
    requires forall u :: u in s.pcs ==> RoleOf(s.pcs[u]) == Outside
    requires !Enabled(s, t, Continue)
    ensures s.pcs[t].EnqWait? ==> |Queue(s)| == s.sz
    ensures s.pcs[t].DeqWait? ==> |Queue(s)| == 0
  {
    forall role | role != Outside ensures Count(s.pcs, role) == 0 {
      assert InRole(s.pcs, role) == {};
    }
  }

  /** Some thread between its wait and its post can always go on: the one in the lock, or any if the
      lock is free. */
  lemma NobodyStuckInside<T>(s: State<T>, t: Tid)
    requires Inv(s) && t in s.pcs && RoleOf(s.pcs[t]) != Outside
    ensures exists u :: u in s.pcs && RoleOf(s.pcs[u]) != Outside && Enabled(s, u, Continue)
  {
    var u := if s.lock.Some? then s.lock.value else t;
    assert u in s.pcs && Enabled(s, u, Continue) && RoleOf(s.pcs[u]) != Outside;
  }

  // ----- every run is a run of a FIFO queue

  /** The objects whose enqueuers have taken the lock and whose dequeuers have not. */
  ghost function Queue<T>(s: State<T>): seq<T>
    requires Inv(s)
  {
    QueueBounds(s);
    s.given[s.claims..]
  }

  lemma QueueBounds<T>(s: State<T>)
    requires Inv(s)
    ensures s.claims <= |s.given| <= s.claims + s.sz
  {
  }

  /** Both operations take effect when they take the lock. */
  ghost function Effect<T>(s: State<T>, t: Tid, a: Action<T>): Event<T>
    requires Inv(s) && t in s.pcs
  {
    ClaimsHaveRoom(s, t);
    if !a.Continue? then Silent
    else match s.pcs[t]
      case EnqLock(obj) => Enqueued([obj])
      case DeqLock => Dequeued([s.given[s.claims]])
      case _ => Silent
  }

  lemma GivenGrows<T>(s: State<T>, t: Tid, a: Action<T>)
    requires Inv(s) && t in s.pcs && Enabled(s, t, a)
    ensures var e := Effect(s, t, a); var s' := Step(s, t, a);
      && s'.given == s.given + EnqPart(e) && s'.claims == s.claims + |DeqPart(e)| && (!e.Silent? ==> |e.objs| == 1)
      && (e.Dequeued? ==> s.claims < |s.given| && e.objs == [s.given[s.claims]])
  {
    ClaimsHaveRoom(s, t);
    hide Inv;
  }

  lemma StepRefinesFifo<T>(s: State<T>, t: Tid, a: Action<T>)
    requires Inv(s) && t in s.pcs && Enabled(s, t, a)
    ensures Inv(Step(s, t, a)) && Step(s, t, a).sz == s.sz
    ensures FifoStep(Queue(s), Effect(s, t, a), Queue(Step(s, t, a)), s.sz)
  {
    StepInv(s, t, a);
    OneThreadMoves(s, t, a);
    GivenGrows(s, t, a);
    hide Inv, Step, Effect, Enabled;
    var s', e := Step(s, t, a), Effect(s, t, a);
    QueueBounds(s);
    QueueBounds(s');
    LogMoves(s.given, s.claims, e, s'.given, s'.claims);
    LargerCapacity(Queue(s), e, Queue(s'), |s'.given| - s'.claims, s.sz);
  }

  ghost predicate IsRun<T>(run: seq<State<T>>, sched: seq<(Tid, Action<T>)>) {
    && |run| == |sched| + 1 && Init(run[0])
    && forall i :: 0 <= i < |sched| ==>
         sched[i].0 in run[i].pcs && Enabled(run[i], sched[i].0, sched[i].1)
         && run[i + 1] == Step(run[i], sched[i].0, sched[i].1)
  }

  lemma {:induction false} RunInv<T>(run: seq<State<T>>, sched: seq<(Tid, Action<T>)>, i: nat)
    requires IsRun(run, sched) && i <= |sched|
    ensures Inv(run[i]) && run[i].sz == run[0].sz
  {
    hide Step, Inv, Enabled;
    if i == 0 {
      InitInv(run[0]);
    } else {
      RunInv(run, sched, i - 1);
      hide Queue, Effect, FifoStep;
      StepRefinesFifo(run[i - 1], sched[i - 1].0, sched[i - 1].1);
    }
  }

  /** What enqueuers gave, and dequeuers took, by the order of their lock operations. */
  ghost function EnqHistory<T>(run: seq<State<T>>, sched: seq<(Tid, Action<T>)>, i: nat): seq<T>
    requires IsRun(run, sched) && i <= |sched|
  {
    if i == 0 then []
    else
      RunInv(run, sched, i - 1);
      EnqHistory(run, sched, i - 1) + EnqPart(Effect(run[i - 1], sched[i - 1].0, sched[i - 1].1))
  }

  ghost function DeqHistory<T>(run: seq<State<T>>, sched: seq<(Tid, Action<T>)>, i: nat): seq<T>
    requires IsRun(run, sched) && i <= |sched|
  {
    if i == 0 then []
    else
      RunInv(run, sched, i - 1);
      DeqHistory(run, sched, i - 1) + DeqPart(Effect(run[i - 1], sched[i - 1].0, sched[i - 1].1))
  }

  /** Every run is a run of a FIFO queue of capacity sz. */
  lemma {:induction false} RunIsFifo<T>(run: seq<State<T>>, sched: seq<(Tid, Action<T>)>, i: nat)
    requires IsRun(run, sched) && i <= |sched|
    ensures Inv(run[i]) && EnqHistory(run, sched, i) == run[i].given
    ensures EnqHistory(run, sched, i) == DeqHistory(run, sched, i) + Queue(run[i])
    ensures |Queue(run[i])| <= run[0].sz
  {
    RunInv(run, sched, i);
    QueueBounds(run[i]);
    if i == 0 {
      assert run[0].given == [];
    } else {
      RunIsFifo(run, sched, i - 1);
      var s, t, a := run[i - 1], sched[i - 1].0, sched[i - 1].1;
      GivenGrows(s, t, a);
      hide Inv, Step, Queue, Effect, FifoStep, Enabled, EnqPart, DeqPart;
      StepRefinesFifo(s, t, a);
      Ledger(EnqHistory(run, sched, i - 1), DeqHistory(run, sched, i - 1), Queue(s), Effect(s, t, a), Queue(run[i]), s.sz);
    }
  }

  /** The k-th dequeuer to take the lock returns the object of the k-th enqueuer to take it, and no two
      dequeuers return the same one. */
  lemma DequeuersPairUp<T>(run: seq<State<T>>, sched: seq<(Tid, Action<T>)>, i: nat, t: Tid, u: Tid)
    requires IsRun(run, sched) && i <= |sched| && t in run[i].pcs && u in run[i].pcs
    requires run[i].pcs[t].DeqDone? && run[i].pcs[u].DeqDone?
    ensures var k := run[i].pcs[t].k; var h := EnqHistory(run, sched, i); k < |h| && run[i].pcs[t].z == h[k]
    ensures t != u ==> run[i].pcs[t].k != run[i].pcs[u].k
  {
    RunIsFifo(run, sched, i);
    assert ResultOk(run[i], t, run[i].pcs[t]) && ResultOk(run[i], u, run[i].pcs[u]);
  }
}
