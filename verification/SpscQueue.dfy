/** The queue of inc/fast/spsc_bounded_queue.h between one producer and one consumer, as a step machine.

    Every load and store of an index is one step, and so is the write and the read of a slot. Each side
    goes on with what it last read of the other side's index.
 */
module SpscQueue {
  import opened Slots
  import opened Fifo

  /** Where the producer is in SPSCQ_ENQ. */
  datatype Producer<T> =
    | Ready
    | LoadWr(e: T)
    | LoadRd(e: T, w: nat)
    | Write(e: T, w: nat, nw: nat)
    | StoreWr(e: T, nw: nat)
    | Accepted
    | Full

  /** Where the consumer is in SPSCQ_DEQ. */
  datatype Consumer<T> =
    | Rest
    | FetchRd
    | FetchWr(r: nat)
    | Read(r: nat)
    | StoreRd(v: T, r: nat)
    | Got(v: T)
    | Empty

  datatype Action<T> = CallEnq(e: T) | CallDeq | Produce | Consume

  /** The shared queue, both sides, and the history of elements published and of how many were taken,
      which no step reads. */
  datatype State<T> = State(sz: nat, rd: nat, wr: nat, elem: seq<T>, producer: Producer<T>, consumer: Consumer<T>,
                            given: seq<T>, taken: nat)

  ghost predicate Init<T>(s: State<T>) {
    && s.sz >= 1 && s.rd == s.wr == 0 && |s.elem| == s.sz && s.producer.Ready? && s.consumer.Rest?
    && s.given == [] && s.taken == 0
  }

  predicate Enabled<T>(s: State<T>, a: Action<T>) {
    match a
    case CallEnq(_) => s.producer.Ready? || s.producer.Accepted? || s.producer.Full?
    case CallDeq => s.consumer.Rest? || s.consumer.Got? || s.consumer.Empty?
    case Produce => !(s.producer.Ready? || s.producer.Accepted? || s.producer.Full?)
    case Consume => !(s.consumer.Rest? || s.consumer.Got? || s.consumer.Empty?)
  }

  /** The index after i, with the wrap written as in the source. */
  function After(i: nat, sz: nat): nat { if i + 1 == sz then 0 else i + 1 }

  function StepProducer<T>(s: State<T>): State<T>
    requires Enabled(s, Produce)
  {
    match s.producer
    case LoadWr(e) => s.(producer := LoadRd(e, s.wr))
    case LoadRd(e, w) =>
      var nw := After(w, s.sz);
      if nw != s.rd then s.(producer := Write(e, w, nw)) else s.(producer := Full)
    case Write(e, w, nw) => s.(elem := if w < |s.elem| then s.elem[w := e] else s.elem, producer := StoreWr(e, nw))
    case StoreWr(e, nw) => s.(wr := nw, producer := Accepted, given := s.given + [e])
  }

  function StepConsumer<T>(s: State<T>): State<T>
    requires Enabled(s, Consume)
  {
    match s.consumer
    case FetchRd => s.(consumer := FetchWr(s.rd))
    case FetchWr(r) => if r != s.wr then s.(consumer := Read(r)) else s.(consumer := Empty)
    case Read(r) => if r < |s.elem| then s.(consumer := StoreRd(s.elem[r], After(r, s.sz))) else s
    case StoreRd(v, r) => s.(rd := r, consumer := Got(v), taken := s.taken + 1)
  }

  function Step<T>(s: State<T>, a: Action<T>): State<T>
    requires Enabled(s, a)
  {
    match a
    case CallEnq(e) => s.(producer := LoadWr(e))
    case CallDeq => s.(consumer := FetchRd)
    case Produce => StepProducer(s)
    case Consume => StepConsumer(s)
  }

  // ----- the invariant

  ghost predicate Shape<T>(s: State<T>) {
    && s.sz >= 1 && |s.elem| == s.sz && s.taken <= |s.given| < s.taken + s.sz
    && s.wr == Slot(|s.given|, s.sz) && s.rd == Slot(s.taken, s.sz)
  }

  ghost predicate Stored<T>(s: State<T>)
    requires Shape(s)
  {
    forall i :: s.taken <= i < |s.given| ==> s.elem[Slot(i, s.sz)] == s.given[i]
  }

  /** What the producer concluded from the index it read remains true: the consumer only makes room. */
  ghost predicate ProducerOk<T>(s: State<T>)
    requires Shape(s)
  {
    var n := |s.given|;
    match s.producer
    case LoadRd(_, w) => w == Slot(n, s.sz)
    case Write(_, w, nw) => w == Slot(n, s.sz) && nw == Slot(n + 1, s.sz) && n + 1 < s.taken + s.sz
    case StoreWr(e, nw) => nw == Slot(n + 1, s.sz) && n + 1 < s.taken + s.sz && s.elem[Slot(n, s.sz)] == e
    case _ => true
  }

  /** What the consumer concluded remains true: the producer only adds. */
  ghost predicate ConsumerOk<T>(s: State<T>)
    requires Shape(s)
  {
    match s.consumer
    case FetchWr(r) => r == Slot(s.taken, s.sz)
    case Read(r) => r == Slot(s.taken, s.sz) && s.taken < |s.given|
    case StoreRd(v, r) => s.taken < |s.given| && v == s.given[s.taken] && r == Slot(s.taken + 1, s.sz)
    case Got(v) => 0 < s.taken && v == s.given[s.taken - 1]
    case _ => true
  }

  ghost predicate Inv<T>(s: State<T>) {
    Shape(s) && Stored(s) && ProducerOk(s) && ConsumerOk(s)
  }

  lemma InitInv<T>(s: State<T>)
    requires Init(s)
    ensures Inv(s)
  {
    DivModUnique(0, s.sz, 0, 0);
  }

  /** The producer's test against a full queue is exact. */
  lemma FullTest(n: nat, c: nat, sz: nat)
    requires sz >= 1 && c <= n < c + sz
    ensures After(Slot(n, sz), sz) == Slot(n + 1, sz)
    ensures Slot(n + 1, sz) == Slot(c, sz) <==> n + 1 == c + sz
  {
    SlotNext(n, sz);
    SlotPeriodic(c, sz);
    if Slot(n + 1, sz) == Slot(c, sz) && n + 1 < c + sz { SlotInjective(c, n + 1, sz); }
  }

  /** The consumer's test against an empty queue is exact. */
  lemma EmptyTest(n: nat, c: nat, sz: nat)
    requires sz >= 1 && c <= n < c + sz
    ensures Slot(c, sz) == Slot(n, sz) <==> n == c
  {
    if Slot(c, sz) == Slot(n, sz) { SlotInjective(c, n, sz); }
  }

  lemma ProduceInv<T>(s: State<T>)
    requires Inv(s) && Enabled(s, Produce)
    ensures Inv(StepProducer(s))
  {
    var s', n := StepProducer(s), |s.given|;
    FullTest(n, s.taken, s.sz);
    hide After;
    if s.producer.Write? {
      forall i | s.taken <= i < n ensures s'.elem[Slot(i, s.sz)] == s'.given[i] {
        if Slot(i, s.sz) == s.producer.w { SlotInjective(i, n, s.sz); }
      }
    }
    hide Slot;
  }

  lemma ConsumeInv<T>(s: State<T>)
    requires Inv(s) && Enabled(s, Consume)
    ensures Inv(StepConsumer(s))
  {
    EmptyTest(|s.given|, s.taken, s.sz);
    SlotNext(s.taken, s.sz);
    hide Slot;
  }

  lemma StepInv<T>(s: State<T>, a: Action<T>)
    requires Inv(s) && Enabled(s, a)
    ensures Inv(Step(s, a)) && Step(s, a).sz == s.sz
  {
    hide Slot;
    match a
    case CallEnq(_) =>
    case CallDeq =>
    case Produce => ProduceInv(s);
    case Consume => ConsumeInv(s);
  }

  // ----- what holds in every state

  ghost function Queue<T>(s: State<T>): seq<T>
    requires Shape(s)
  {
    s.given[s.taken..]
  }

  /** A refusal tells the truth about the moment the other side's index was read, and only a full or an
      empty queue is refused. */
  lemma RefusalsTrue<T>(s: State<T>)
    requires Inv(s)
    ensures s.producer.LoadRd? ==> (StepProducer(s).producer.Full? <==> |Queue(s)| == s.sz - 1)
    ensures s.consumer.FetchWr? ==> (StepConsumer(s).consumer.Empty? <==> |Queue(s)| == 0)
  {
    FullTest(|s.given|, s.taken, s.sz);
    EmptyTest(|s.given|, s.taken, s.sz);
  }

  /** The slot being written is not one that still has to be read, and the one being read is not the one
      being written, even while both sides are at work. */
  lemma SidesApart<T>(s: State<T>)
    requires Inv(s)
    ensures s.producer.Write? ==> forall i :: s.taken <= i < |s.given| ==> Slot(i, s.sz) != s.producer.w
    ensures s.producer.Write? && s.consumer.Read? ==> s.producer.w != s.consumer.r
  {
    if s.producer.Write? {
      forall i | s.taken <= i < |s.given| ensures Slot(i, s.sz) != s.producer.w {
        if Slot(i, s.sz) == s.producer.w { SlotInjective(i, |s.given|, s.sz); }
      }
    }
  }

  // ----- the queries

  /** __spscq_size on the indices read. */
  function Size(rd: nat, wr: nat, sz: nat): int {
    if rd < wr then wr - rd else if rd > wr then sz - rd + wr else 0
  }

  /** With rd read when c elements had been taken and wr read when n had been published, the size is
      exact if and only if n - c is less than sz; it is n - c reduced modulo sz in any case. Both sides
      of the queue always meet the condition, for one of the two counts is their own. */
  lemma SizeExactIff(c: nat, n: nat, sz: nat)
    requires sz >= 1 && c <= n
    ensures Size(Slot(c, sz), Slot(n, sz), sz) == n - c <==> n - c < sz
    ensures Size(Slot(c, sz), Slot(n, sz), sz) == (n - c) % sz
  {
    var a: int, b: int := Slot(c, sz), Slot(n, sz);
    var q := n / sz - c / sz;
    assert c == sz * (c / sz) + a && n == sz * (n / sz) + b;
    assert sz * q == sz * (n / sz) - sz * (c / sz);
    hide Slot;
    RemainderIs(n - c, q, b - a, sz);
    if n - c < sz { DivModUnique(n - c, sz, 0, n - c); }
  }

  lemma RemainderIs(x: int, q: int, d: int, sz: int)
    requires sz >= 1 && x >= 0 && x == sz * q + d && 0 - sz < d < sz
    ensures x % sz == if d >= 0 then d else sz + d
  {
    SignOfProduct(sz, q);
    SignOfProduct(sz, q + 1);
    assert sz * (q + 1) == sz * q + sz;
    assert q >= 0 && (d < 0 ==> q >= 1);
    if d >= 0 {
      DivModUnique(x, sz, q, d);
    } else {
      assert sz * (q - 1) + sz == sz * q;
      DivModUnique(x, sz, q - 1, sz + d);
    }
  }

  /** The queries on the indices of one moment are exact. */
  lemma QueriesExact<T>(s: State<T>)
    requires Inv(s)
    ensures Size(s.rd, s.wr, s.sz) == |Queue(s)|
    ensures After(s.wr, s.sz) == s.rd <==> |Queue(s)| == s.sz - 1
    ensures s.rd == s.wr <==> |Queue(s)| == 0
  {
    SizeExactIff(s.taken, |s.given|, s.sz);
    FullTest(|s.given|, s.taken, s.sz);
    EmptyTest(|s.given|, s.taken, s.sz);
  }

  lemma {:induction false} CountersGrow<T>(run: seq<State<T>>, sched: seq<Action<T>>, i: nat, j: nat)
    requires IsRun(run, sched) && i <= j <= |sched|
    ensures run[i].taken <= run[j].taken && |run[i].given| <= |run[j].given|
  {
    if i < j { CountersGrow(run, sched, i, j - 1); }
  }

  lemma SameSlotIff(a: nat, b: nat, sz: nat)
    requires sz >= 1 && a <= b
    ensures Slot(a, sz) == Slot(b, sz) <==> (b - a) % sz == 0
  {
    SizeExactIff(a, b, sz);
  }

  /** SPSCQ_FULL_P loads wr, then rd. If the consumer has not overtaken the wr loaded, the answer is yes if
      and only if the queue was full at the first load and still is so far as that wr can tell; if it has,
      the answer is yes if and only if the consumer is a whole number of rounds beyond the next slot. */
  lemma FullAtTwoMoments<T>(run: seq<State<T>>, sched: seq<Action<T>>, i: nat, j: nat)
    requires IsRun(run, sched) && i <= j <= |sched|
    ensures Inv(run[i]) && Inv(run[j])
    ensures var n, c, sz := |run[i].given|, run[j].taken, run[0].sz; var yes := After(run[i].wr, sz) == run[j].rd;
      && (c <= n ==> (yes <==> n - c == sz - 1) && (yes ==> |Queue(run[i])| == sz - 1 && c == run[i].taken))
      && (c > n ==> (yes <==> (c - n - 1) % sz == 0))
  {
    RunInv(run, sched, i);
    RunInv(run, sched, j);
    CountersGrow(run, sched, i, j);
    var n, c, sz := |run[i].given|, run[j].taken, run[0].sz;
    SlotNext(n, sz);
    if c <= n { FullTest(n, c, sz); } else { SameSlotIff(n + 1, c, sz); }
  }

  /** SPSCQ_EMPTY_P loads rd, then wr: the answer is yes if and only if a whole number of rounds lies
      between them. It is right, and the queue was empty at both loads, unless that number is not 0. */
  lemma EmptyAtTwoMoments<T>(run: seq<State<T>>, sched: seq<Action<T>>, i: nat, j: nat)
    requires IsRun(run, sched) && i <= j <= |sched|
    ensures Inv(run[i]) && Inv(run[j])
    ensures var c, n, sz := run[i].taken, |run[j].given|, run[0].sz; var yes := run[i].rd == run[j].wr;
      && c <= n && (yes <==> (n - c) % sz == 0)
      && (n - c < sz ==> (yes <==> n == c))
      && (n == c ==> Queue(run[i]) == [] && Queue(run[j]) == [])
  {
    RunInv(run, sched, i);
    RunInv(run, sched, j);
    CountersGrow(run, sched, i, j);
    var c, n, sz := run[i].taken, |run[j].given|, run[0].sz;
    SameSlotIff(c, n, sz);
    if n - c < sz { EmptyTest(n, c, sz); }
  }

  // ----- every run is a run of a FIFO queue

  /** The operations take effect when they store their index. */
  function Effect<T>(s: State<T>, a: Action<T>): Event<T> {
    if a.Produce? && s.producer.StoreWr? then Enqueued([s.producer.e])
    else if a.Consume? && s.consumer.StoreRd? then Dequeued([s.consumer.v])
    else Silent
  }

  lemma StepRefinesFifo<T>(s: State<T>, a: Action<T>)
    requires Inv(s) && Enabled(s, a)
    ensures Inv(Step(s, a)) && Step(s, a).sz == s.sz
    ensures FifoStep(Queue(s), Effect(s, a), Queue(Step(s, a)), s.sz - 1)
  {
    StepInv(s, a);
    hide Slot;
    if Effect(s, a).Dequeued? {
      assert Queue(s)[0] == s.consumer.v;
    }
  }

  ghost predicate IsRun<T>(run: seq<State<T>>, sched: seq<Action<T>>) {
    && |run| == |sched| + 1 && Init(run[0])
    && forall i :: 0 <= i < |sched| ==> Enabled(run[i], sched[i]) && run[i + 1] == Step(run[i], sched[i])
  }

  lemma {:induction false} RunInv<T>(run: seq<State<T>>, sched: seq<Action<T>>, i: nat)
    requires IsRun(run, sched) && i <= |sched|
    ensures Inv(run[i]) && run[i].sz == run[0].sz
  {
    hide Inv, Step, Enabled;
    if i == 0 {
      InitInv(run[0]);
    } else {
      RunInv(run, sched, i - 1);
      StepInv(run[i - 1], sched[i - 1]);
    }
  }

  ghost function EnqHistory<T>(run: seq<State<T>>, sched: seq<Action<T>>, i: nat): seq<T>
    requires IsRun(run, sched) && i <= |sched|
  {
    if i == 0 then [] else EnqHistory(run, sched, i - 1) + EnqPart(Effect(run[i - 1], sched[i - 1]))
  }

  ghost function DeqHistory<T>(run: seq<State<T>>, sched: seq<Action<T>>, i: nat): seq<T>
    requires IsRun(run, sched) && i <= |sched|
  {
    if i == 0 then [] else DeqHistory(run, sched, i - 1) + DeqPart(Effect(run[i - 1], sched[i - 1]))
  }

  /** Every run is a run of a FIFO queue of capacity sz - 1. */
  lemma {:induction false} RunIsFifo<T>(run: seq<State<T>>, sched: seq<Action<T>>, i: nat)
    requires IsRun(run, sched) && i <= |sched|
    ensures Inv(run[i]) && |Queue(run[i])| <= run[0].sz - 1
    ensures EnqHistory(run, sched, i) == DeqHistory(run, sched, i) + Queue(run[i])
  {
    RunInv(run, sched, i);
    assert |Queue(run[i])| <= run[i].sz - 1;
    if i == 0 {
      assert run[0].given == [];
    } else {
      RunIsFifo(run, sched, i - 1);
      hide Inv, Step, Queue, Effect, FifoStep, Enabled, EnqPart, DeqPart;
      var s, a := run[i - 1], sched[i - 1];
      StepRefinesFifo(s, a);
      Ledger(EnqHistory(run, sched, i - 1), DeqHistory(run, sched, i - 1), Queue(s), Effect(s, a), Queue(run[i]), s.sz - 1);
    }
  }

  // ----- what whole calls answer

  predicate Producing<T>(pc: Producer<T>) { pc.LoadWr? || pc.LoadRd? || pc.Write? || pc.StoreWr? }
  predicate Consuming<T>(pc: Consumer<T>) { pc.FetchRd? || pc.FetchWr? || pc.Read? || pc.StoreRd? }

  /** An enqueue of e made at step i is under way up to step j. */
  ghost predicate Enqueuing<T>(run: seq<State<T>>, sched: seq<Action<T>>, e: T, i: nat, j: nat) {
    IsRun(run, sched) && i < j <= |sched| && sched[i] == CallEnq(e) && forall m :: i < m < j ==> Producing(run[m].producer)
  }

  /** Where it stands, having started when before had been published. */
  ghost predicate Puts<T>(s: State<T>, e: T, before: seq<T>) {
    match s.producer
    case LoadWr(x) => x == e && s.given == before
    case LoadRd(x, _) => x == e && s.given == before
    case Write(x, _, _) => x == e && s.given == before
    case StoreWr(x, _) => x == e && s.given == before
    case Accepted => s.given == before + [e]
    case Full => s.given == before
    case Ready => false
  }

  ghost predicate WasFull<T>(run: seq<State<T>>, i: nat, j: nat) {
    exists m :: i < m < j <= |run| && Shape(run[m]) && |Queue(run[m])| == run[m].sz - 1
  }

  lemma PutsOn<T>(s: State<T>, a: Action<T>, e: T, before: seq<T>)
    requires Inv(s) && Enabled(s, a) && Producing(s.producer) && Puts(s, e, before)
    ensures Puts(Step(s, a), e, before)
    ensures Step(s, a).producer.Full? ==> |Queue(s)| == s.sz - 1
  {
    RefusalsTrue(s);
    hide Inv, After, Slot;
  }

  lemma {:induction false} EnqueueProgress<T>(run: seq<State<T>>, sched: seq<Action<T>>, e: T, i: nat, j: nat)
    requires Enqueuing(run, sched, e, i, j)
    ensures Puts(run[j], e, run[i].given) && (run[j].producer.Full? ==> WasFull(run, i, j))
    decreases j
  {
    LastStep(run, sched, j);
    if j > i + 1 {
      hide Inv, Step, Enabled, IsRun, Puts;
      EnqueueProgress(run, sched, e, i, j - 1);
      PutsOn(run[j - 1], sched[j - 1], e, run[i].given);
      assert run[j].producer.Full? ==> Shape(run[j - 1]) && |Queue(run[j - 1])| == run[j - 1].sz - 1;
    }
  }

  lemma LastStep<T>(run: seq<State<T>>, sched: seq<Action<T>>, j: nat)
    requires IsRun(run, sched) && 0 < j <= |sched|
    ensures Inv(run[j - 1]) && Shape(run[j - 1]) && Enabled(run[j - 1], sched[j - 1]) && run[j] == Step(run[j - 1], sched[j - 1])
  {
    RunInv(run, sched, j - 1);
    hide Step, Enabled;
  }

  /** What SPSCQ_ENQ answers: yes if and only if the call has published its element and nothing else, and no if
      and only if it has published nothing; and then the queue was full at some moment of the call. */
  lemma EnqueueAnswers<T>(run: seq<State<T>>, sched: seq<Action<T>>, e: T, i: nat, j: nat)
    requires Enqueuing(run, sched, e, i, j) && !Producing(run[j].producer)
    ensures run[j].producer.Accepted? || run[j].producer.Full?
    ensures run[j].given == if run[j].producer.Accepted? then run[i].given + [e] else run[i].given
    ensures run[j].producer.Full? ==> WasFull(run, i, j)
  {
    EnqueueProgress(run, sched, e, i, j);
  }

  ghost predicate Dequeuing<T>(run: seq<State<T>>, sched: seq<Action<T>>, i: nat, j: nat) {
    IsRun(run, sched) && i < j <= |sched| && sched[i] == CallDeq && forall m :: i < m < j ==> Consuming(run[m].consumer)
  }

  ghost predicate Takes<T>(s: State<T>, before: nat) {
    match s.consumer
    case Got(v) => s.taken == before + 1 && before < |s.given| && v == s.given[before]
    case Rest => false
    case _ => s.taken == before
  }

  ghost predicate WasEmpty<T>(run: seq<State<T>>, i: nat, j: nat) {
    exists m :: i < m < j <= |run| && Shape(run[m]) && Queue(run[m]) == []
  }

  lemma TakesOn<T>(s: State<T>, a: Action<T>, before: nat)
    requires Inv(s) && Enabled(s, a) && Consuming(s.consumer) && Takes(s, before)
    ensures Takes(Step(s, a), before)
    ensures Step(s, a).consumer.Empty? ==> Queue(s) == []
  {
    RefusalsTrue(s);
    assert ConsumerOk(s) && Shape(s);
    hide After, Slot, Stored, ProducerOk;
  }

  lemma {:induction false} DequeueProgress<T>(run: seq<State<T>>, sched: seq<Action<T>>, i: nat, j: nat)
    requires Dequeuing(run, sched, i, j)
    ensures Takes(run[j], run[i].taken) && (run[j].consumer.Empty? ==> WasEmpty(run, i, j))
    decreases j
  {
    LastStep(run, sched, j);
    if j > i + 1 {
      hide Inv, Step, Enabled, IsRun, Takes;
      DequeueProgress(run, sched, i, j - 1);
      TakesOn(run[j - 1], sched[j - 1], run[i].taken);
      assert run[j].consumer.Empty? ==> Shape(run[j - 1]) && Queue(run[j - 1]) == [];
    }
  }

  /** What SPSCQ_DEQ answers: the next element if and only if the call has taken it, and nothing if and only if
      it has taken none; and then the queue was empty at some moment of the call. */
  lemma DequeueAnswers<T>(run: seq<State<T>>, sched: seq<Action<T>>, i: nat, j: nat)
    requires Dequeuing(run, sched, i, j) && !Consuming(run[j].consumer)
    ensures run[j].consumer.Got? || run[j].consumer.Empty?
    ensures run[j].consumer.Got? ==> var k := run[i].taken;
      run[j].taken == k + 1 && k < |run[j].given| && run[j].consumer.v == run[j].given[k]
    ensures run[j].consumer.Empty? ==> run[j].taken == run[i].taken && WasEmpty(run, i, j)
  {
    DequeueProgress(run, sched, i, j);
  }
}
