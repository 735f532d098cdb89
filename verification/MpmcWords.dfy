/** The ticket queue's arithmetic on stored words: its length query, and the turn and index helpers once a
    ticket no longer fits a word. M is the number of values a word has. */
module MpmcWords {
  import opened Slots
  import opened MpmcQueue

  // ----- the length query

  /** __mpmc_q_len on the stored words. */
  function StoredLength(hd: nat, tl: nat, M: nat): int
    requires hd < M && tl < M
  {
    if hd < tl then (M - 1 - tl) + hd else hd - tl
  }

  /** What the length query answers when it has read head and tail: their difference if and only if tail
      has not overtaken head and head's word has not wrapped around past tail's. It is one too small after
      such a wrap, and close to M if tail has overtaken head. */
  lemma LengthOfWords(head: nat, tail: nat, M: nat)
    requires M > 0 && head < tail + M && tail < head + M
    ensures StoredLength(head % M, tail % M, M) == head - tail <==> tail <= head && tail % M <= head % M
    ensures tail <= head && head % M < tail % M ==> StoredLength(head % M, tail % M, M) == head - tail - 1
    ensures head < tail && head % M < tail % M ==> StoredLength(head % M, tail % M, M) == M - 1 - (tail - head)
    ensures head < tail && tail % M <= head % M ==> StoredLength(head % M, tail % M, M) == M - (tail - head)
  {
    if tail <= head {
      WordDistance(head, tail, M);
    } else {
      WordDistance(tail, head, M);
    }
  }

  lemma WordDistance(head: nat, tail: nat, M: nat)
    requires M > 0 && tail <= head < tail + M
    ensures head - tail == (head % M - tail % M) + (if head % M < tail % M then M else 0)
  {
    var d := head / M - tail / M;
    assert head == M * (head / M) + head % M && tail == M * (tail / M) + tail % M;
    assert M * d == M * (head / M) - M * (tail / M);
    SignOfProduct(M, d);
    SignOfProduct(M, d - 1);
    assert M * (d - 1) == M * d - M;
  }

  lemma {:induction false} CountersGrow<T>(run: seq<State<T>>, sched: seq<(Tid, Action<T>)>, i: nat, j: nat)
    requires IsRun(run, sched) && i <= j <= |sched|
    ensures run[i].head <= run[j].head && run[i].tail <= run[j].tail
  {
    hide Init;
    if i < j {
      CountersGrow(run, sched, i, j - 1);
      StepCounters(run[j - 1], sched[j - 1].0, sched[j - 1].1);
      hide Step;
    }
  }

  lemma StepCounters<T>(s: State<T>, t: Tid, a: Action<T>)
    requires Indexable(s, t)
    ensures s.head <= Step(s, t, a).head && s.tail <= Step(s, t, a).tail
  {
    hide Slot, Round;
  }

  /** The query loads head at step i of a run and tail at step j. Its answer is head - tail if and only if
      that is not negative and not wrapped; and then, in a run of try operations, it is at most the length
      the queue had at either moment. */
  lemma LengthExactIff<T>(run: seq<State<T>>, sched: seq<(Tid, Action<T>)>, i: nat, j: nat, M: nat)
    requires IsRun(run, sched) && i <= j <= |sched| && M > 0
    requires run[i].head < run[j].tail + M && run[j].tail < run[i].head + M
    ensures var head, tail := run[i].head, run[j].tail; var answer := StoredLength(head % M, tail % M, M);
      && (answer == head - tail <==> tail <= head && tail % M <= head % M)
      && (tail <= head && head % M < tail % M ==> answer == head - tail - 1)
      && (head < tail && head % M < tail % M ==> answer == M - 1 - (tail - head))
      && (head < tail && tail % M <= head % M ==> answer == M - (tail - head))
      && head - tail <= run[i].head - run[i].tail && head - tail <= run[j].head - run[j].tail
  {
    LengthOfWords(run[i].head, run[j].tail, M);
    CountersGrow(run, sched, i, j);
  }

  // ----- runs in which the answer is far off

  ghost function Fresh(sz: nat): State<int>
    requires sz >= 1
  {
    State(sz, 0, 0, seq(sz, _ => 0), seq(sz, _ => 0), map[0 := Idle], [], [], [])
  }

  /** One blocked MPMC_QUEUE_DEQ_WAIT on an empty queue of any size: nothing has wrapped, nothing has been
      enqueued, and the answer is M - 2. */
  lemma WaitingDequeuerBreaksLength(sz: nat, M: nat) returns (run: seq<State<int>>, sched: seq<(Tid, Action<int>)>)
    requires sz >= 1 && M >= 2
    ensures IsRun(run, sched) && run[|sched|].head == 0 && run[|sched|].tail == 1 && run[|sched|].log == []
    ensures StoredLength(run[|sched|].head % M, run[|sched|].tail % M, M) == M - 2
  {
    var s0 := Fresh(sz);
    var s1 := Step(s0, 0, CallWaitDeq);
    var s2 := Step(s1, 0, Continue);
    run, sched := [s0, s1, s2], [(0, CallWaitDeq), (0, Continue)];
  }

  lemma Extend<T>(run: seq<State<T>>, sched: seq<(Tid, Action<T>)>, t: Tid, a: Action<T>)
    returns (run': seq<State<T>>, sched': seq<(Tid, Action<T>)>)
    requires IsRun(run, sched) && Indexable(run[|sched|], t)
    ensures IsRun(run', sched') && run' == run + [Step(run[|sched|], t, a)] && sched' == sched + [(t, a)]
  {
    run', sched' := run + [Step(run[|sched|], t, a)], sched + [(t, a)];
    hide Step, Init, Indexable;
  }

  /** A continued step of thread 0. */
  lemma GoOn(run: seq<State<int>>, sched: seq<(Tid, Action<int>)>, s': State<int>)
    returns (run': seq<State<int>>, sched': seq<(Tid, Action<int>)>)
    requires IsRun(run, sched) && Indexable(run[|sched|], 0) && s' == Step(run[|sched|], 0, Continue)
    requires TryOnly(sched)
    ensures IsRun(run', sched') && run'[|sched'|] == s' && run'[0] == run[0] && TryOnly(sched')
  {
    hide Step, Indexable, Init;
    run', sched' := Extend(run, sched, 0, Continue);
  }

  lemma ZeroTicket(sz: nat)
    requires sz >= 1
    ensures Slot(0, sz) == 0 && EnqTurn(0, sz) == 0 && DeqTurn(0, sz) == 1
  {
    DivModUnique(0, sz, 0, 0);
  }

  /** One try-enqueue on a fresh queue. */
  lemma EnqueueAlone(sz: nat) returns (run: seq<State<int>>, sched: seq<(Tid, Action<int>)>)
    requires sz >= 1
    ensures IsRun(run, sched) && TryOnly(sched) && run[0] == Fresh(sz)
    ensures var s := run[|sched|]; Indexable(s, 0) && s.sz == sz && s.turns[0] == 1 && s.tail == 0 && s.pcs[0].Idle?
  {
    ZeroTicket(sz);
    hide Slot, Round, EnqTurn;
    var s0 := Fresh(sz);
    assert Init(s0);
    run, sched := Extend([s0], [], 0, CallTryEnq(7));
    var s1 := run[|sched|];
    run, sched := GoOn(run, sched, GoTo(s1, 0, TryEnqTurn(7, 0)));
    var s2 := run[|sched|];
    run, sched := GoOn(run, sched, GoTo(s2, 0, TryEnqCas(7, 0)));
    var s3 := run[|sched|];
    run, sched := GoOn(run, sched, ClaimHead(s3, 0, 7, EnqWrite(7, 0)));
    run, sched := EnqueueStores(run, sched);
  }

  lemma EnqueueStores(run: seq<State<int>>, sched: seq<(Tid, Action<int>)>)
    returns (run': seq<State<int>>, sched': seq<(Tid, Action<int>)>)
    requires IsRun(run, sched) && TryOnly(sched) && Indexable(run[|sched|], 0)
    requires run[|sched|].pcs[0] == EnqWrite(7, 0)
    ensures IsRun(run', sched') && TryOnly(sched') && run'[0] == run[0]
    ensures var s, s' := run[|sched|], run'[|sched'|];
      Indexable(s', 0) && s'.sz == s.sz && s'.turns[0] == 1 && s'.tail == s.tail && s'.pcs[0].Idle?
  {
    var s := run[|sched|];
    ZeroTicket(s.sz);
    hide Slot, Round, EnqTurn;
    var w := GoTo(s.(data := s.data[0 := 7]), 0, EnqStore(7, 0));
    run', sched' := GoOn(run, sched, w);
    var v := StoreTurn(w, 0, 0, 1, EnqDone(true));
    run', sched' := GoOn(run', sched', v);
    run', sched' := GoOn(run', sched', GoTo(v, 0, Idle));
  }

  /** With try operations only: head is loaded on a fresh queue, an enqueue and a dequeue follow, and then
      tail is loaded; again the answer is M - 2, for a queue that is empty at both moments. */
  lemma StaleHeadBreaksLength(sz: nat, M: nat) returns (run: seq<State<int>>, sched: seq<(Tid, Action<int>)>)
    requires sz >= 1 && M >= 2
    ensures IsRun(run, sched) && TryOnly(sched) && run[0].head == run[0].tail == 0 && run[|sched|].tail == 1
    ensures StoredLength(run[0].head % M, run[|sched|].tail % M, M) == M - 2
  {
    run, sched := EnqueueAlone(sz);
    ZeroTicket(sz);
    hide Slot, Round, EnqTurn;
    var s := run[|sched|];
    assert s.turns[0] == 1;
    hide DeqTurn;
    run, sched := Extend(run, sched, 0, CallTryDeq);
    var s1 := run[|sched|];
    assert s1 == GoTo(s, 0, TryDeq);
    run, sched := GoOn(run, sched, GoTo(s1, 0, TryDeqTurn(0)));
    var s2 := run[|sched|];
    run, sched := GoOn(run, sched, GoTo(s2, 0, TryDeqCas(0)));
    var s3 := run[|sched|];
    run, sched := GoOn(run, sched, ClaimTail(s3, 0, DeqRead(0)));
  }

  // ----- tickets beyond the word range

  /** The turn the helpers compute from the stored word of ticket k, against the stored word of its true
      turn: they agree if and only if the size divides twice the number of times the word has wrapped. So
      they always agree before the first wrap, and for sizes 1 and 2; from size 4 on they differ right
      after it. The size is a power of two, and so divides M. */
  lemma TurnWordsAgreeIff(k: nat, sz: nat, M: nat, c: nat)
    requires sz >= 1 && c >= 1 && M == sz * c
    ensures EnqTurn(k % M, sz) % M == EnqTurn(k, sz) % M <==> (2 * (k / M)) % sz == 0
    ensures k < M || sz <= 2 ==> EnqTurn(k % M, sz) % M == EnqTurn(k, sz) % M
    ensures sz >= 4 && M <= k < 2 * M ==> EnqTurn(k % M, sz) % M != EnqTurn(k, sz) % M
    ensures Slot(k % M, sz) == Slot(k, sz)
  {
    var q, w := k / M, k % M;
    assert k == M * q + w;
    WordRound(k, sz, M, c, q, w);
    var a, b := EnqTurn(w, sz), EnqTurn(k, sz);
    assert b - a == 2 * (c * q);
    SameWordIff(a, b, c, sz, q, M);
    FirstRounds(k, sz, M);
    hide EnqTurn;
  }

  lemma FirstRounds(k: nat, sz: nat, M: nat)
    requires sz >= 1 && M >= 1
    ensures k < M ==> (2 * (k / M)) % sz == 0
    ensures sz <= 2 ==> (2 * (k / M)) % sz == 0
    ensures sz >= 4 && M <= k < 2 * M ==> (2 * (k / M)) % sz != 0
  {
    if k < M {
      DivModUnique(k, M, 0, k);
      DivModUnique(0, sz, 0, 0);
    }
    if sz >= 4 && M <= k < 2 * M {
      assert M * 1 + (k - M) == k;
      DivModUnique(k, M, 1, k - M);
      DivModUnique(2, sz, 0, 2);
    }
    if sz == 1 { ZeroRemainder(2 * (k / M), 1, 2 * (k / M)); }
    if sz == 2 { ZeroRemainder(2 * (k / M), 2, k / M); }
  }

  lemma WordRound(k: nat, sz: nat, M: nat, c: nat, q: nat, w: nat)
    requires sz >= 1 && c >= 1 && M == sz * c && w < M && k == M * q + w
    ensures k / sz == c * q + w / sz && k % sz == w % sz
  {
    var x, r := w / sz, w % sz;
    assert w == sz * x + r;
    assert M * q == sz * (c * q);
    assert sz * (c * q + x) == sz * (c * q) + sz * x;
    DivModUnique(k, sz, c * q + x, r);
  }

  /** Words of numbers 2 * c * q apart, in a range of sz * c. */
  lemma SameWordIff(a: int, b: int, c: int, sz: int, q: int, M: int)
    requires sz >= 1 && c >= 1 && q >= 0 && M == sz * c && b - a == 2 * (c * q)
    ensures a % M == b % M <==> (2 * q) % sz == 0
  {
    var n := b / M - a / M;
    assert a == M * (a / M) + a % M && b == M * (b / M) + b % M;
    assert M * n == M * (b / M) - M * (a / M);
    if a % M == b % M {
      assert c * (2 * q) == c * (sz * n);
      CancelFactor(c, 2 * q, sz * n);
      ZeroRemainder(2 * q, sz, n);
    }
    if (2 * q) % sz == 0 {
      var l := 2 * q / sz;
      assert 2 * q == sz * l;
      assert b - a == M * l by { assert c * (2 * q) == c * (sz * l) == (sz * c) * l; }
      SameRemainder(a, b, M, l);
    }
  }

  lemma CancelFactor(c: int, x: int, y: int)
    requires c >= 1 && c * x == c * y
    ensures x == y
  {
    assert c * (x - y) == 0 && c * (y - x) == 0;
    if x > y { SignOfProduct(c, x - y); }
    if x < y { SignOfProduct(c, y - x); }
  }

  lemma ZeroRemainder(x: int, m: int, n: int)
    requires m >= 1 && x == m * n
    ensures x % m == 0
  {
    var r, d := x % m, x / m;
    assert x == m * d + r;
    assert m * (n - d) == m * n - m * d;
    MultipleBelow(m, n - d, r);
  }

  lemma SameRemainder(a: int, b: int, m: int, l: int)
    requires m >= 1 && b - a == m * l
    ensures a % m == b % m
  {
    var n := b / m - a / m - l;
    assert a == m * (a / m) + a % m && b == m * (b / m) + b % m;
    assert m * n == m * (b / m) - m * (a / m) - m * l;
    MultipleBelow(m, n, a % m - b % m);
  }

  /** The compare-and-swaps and the re-reads compare a loaded ticket with a shared one; on stored words
      they are exact as long as the shared one is not M ahead. */
  lemma TicketTestsExact<T>(s: State<T>, t: Tid, M: nat)
    requires Inv(s) && t in s.pcs && M > 0
    ensures (s.pcs[t].TryEnqCas? || s.pcs[t].TryEnqReload?) && s.head < s.pcs[t].hd + M ==>
      (s.head % M == s.pcs[t].hd % M <==> s.head == s.pcs[t].hd)
    ensures (s.pcs[t].TryDeqCas? || s.pcs[t].TryDeqReload?) && s.tail < s.pcs[t].tl + M ==>
      (s.tail % M == s.pcs[t].tl % M <==> s.tail == s.pcs[t].tl)
  {
    assert ThreadOk(s, t);
    hide Inv;
    var pc := s.pcs[t];
    if (pc.TryEnqCas? || pc.TryEnqReload?) && Slot(pc.hd, M) == Slot(s.head, M) && s.head < pc.hd + M {
      SlotInjective(pc.hd, s.head, M);
    }
    if (pc.TryDeqCas? || pc.TryDeqReload?) && Slot(pc.tl, M) == Slot(s.tail, M) && s.tail < pc.tl + M {
      SlotInjective(pc.tl, s.tail, M);
    }
  }
}
