/** The bulk copies between a caller's table and the ring, and the ring's arithmetic on wrapped words,
    from inc/fast/ringbuf.h. */
module RingTable {
  import opened Slots
  import RP = RingProtocol

  // ----- bulk copies

  /** The table after the first n objects have been put into consecutive slots one at a time. */
  function StoreEach<T>(ring: seq<T>, head: nat, objs: seq<T>, n: nat): (r: seq<T>)
    requires |ring| > 0 && n <= |objs|
    ensures |r| == |ring|
  {
    if n == 0 then ring
    else StoreEach(ring, head, objs, n - 1)[Slot(head + n - 1, |ring|) := objs[n - 1]]
  }

  /** Up to a full table of objects all end up in their slots, and every other slot is untouched. */
  lemma {:induction false} StoreEachContents<T>(ring: seq<T>, head: nat, objs: seq<T>, n: nat)
    requires |ring| > 0 && n <= |objs| && n <= |ring|
    ensures forall k :: head <= k < head + n ==> StoreEach(ring, head, objs, n)[Slot(k, |ring|)] == objs[k - head]
    ensures forall j :: 0 <= j < |ring| && (forall k :: head <= k < head + n ==> Slot(k, |ring|) != j) ==>
      StoreEach(ring, head, objs, n)[j] == ring[j]
  {
    if n > 0 {
      StoreEachContents(ring, head, objs, n - 1);
      var last := head + n - 1;
      forall k | head <= k < last ensures Slot(k, |ring|) != Slot(last, |ring|) {
        if Slot(k, |ring|) == Slot(last, |ring|) { SlotInjective(k, last, |ring|); }
      }
      hide Slot;
    }
  }

  /** The table agrees with the one-at-a-time copy so far, and idx has not yet left the table. */
  ghost predicate Copied<T>(ring: seq<T>, was: seq<T>, head: nat, objs: seq<T>, i: nat) {
    |was| > 0 && |ring| == |was| && i <= |objs| && ring == StoreEach(was, head, objs, i)
  }

  lemma SlotNoWrap(head: nat, i: nat, size: nat)
    requires size > 0 && Slot(head, size) + i < size
    ensures Slot(head + i, size) == Slot(head, size) + i
  {
    var q := head / size;
    assert head + i == size * q + (head % size + i);
    DivModUnique(head + i, size, q, head % size + i);
  }

  /** Stores one object at an entry given either unmasked, where that stays inside the table, or masked. */
  method StoreOne<T>(ring: array<T>, ghost was: seq<T>, head: nat, objs: seq<T>, i: nat, idx: nat)
    requires i < |objs| && idx < ring.Length && Copied(ring[..], was, head, objs, i)
    requires idx == Slot(head, ring.Length) + i || idx == Slot(Slot(head, ring.Length) + i, ring.Length)
    modifies ring
    ensures Copied(ring[..], was, head, objs, i + 1)
  {
    if idx == Slot(head, ring.Length) + i { SlotNoWrap(head, i, ring.Length); }
    SlotOfSum(head, i, ring.Length);
    hide Slot;
    ring[idx] := objs[i];
    assert ring[..] == old(ring[..])[idx := objs[i]];
  }

  /** One round of the unrolled loop. */
  method StoreFour<T>(ring: array<T>, ghost was: seq<T>, head: nat, objs: seq<T>, i: nat, idx: nat)
    requires i + 4 <= |objs| && idx + 4 <= ring.Length && idx == Slot(head, ring.Length) + i
    requires Copied(ring[..], was, head, objs, i)
    modifies ring
    ensures Copied(ring[..], was, head, objs, i + 4)
  {
    hide Slot, Copied;
    StoreOne(ring, was, head, objs, i, idx);
    StoreOne(ring, was, head, objs, i + 1, idx + 1);
    StoreOne(ring, was, head, objs, i + 2, idx + 2);
    StoreOne(ring, was, head, objs, i + 3, idx + 3);
  }

  /** The path for blocks that do not wrap: four at a time, then the remainder. */
  method StoreUnrolled<T>(ring: array<T>, head: nat, objs: seq<T>, ghost was: seq<T>)
    requires ring.Length > 0 && Slot(head, ring.Length) + |objs| <= ring.Length - 1
    requires Copied(ring[..], was, head, objs, 0)
    modifies ring
    ensures Copied(ring[..], was, head, objs, |objs|)
  {
    var n := |objs|;
    var i, idx := 0, Slot(head, ring.Length);
    var loops, rest := 4 * (n / 4), n % 4;
    ghost var c := 0;
    assert n == loops + rest;
    hide Slot, Copied;
    while i < loops
      invariant i == 4 * c && 0 <= c <= n / 4 && idx == Slot(head, ring.Length) + i
      invariant Copied(ring[..], was, head, objs, i)
    {
      StoreFour(ring, was, head, objs, i, idx);
      i, idx, c := i + 4, idx + 4, c + 1;
    }
    if rest == 3 {
      StoreOne(ring, was, head, objs, i, idx);
      StoreOne(ring, was, head, objs, i + 1, idx + 1);
      StoreOne(ring, was, head, objs, i + 2, idx + 2);
    } else if rest == 2 {
      StoreOne(ring, was, head, objs, i, idx);
      StoreOne(ring, was, head, objs, i + 1, idx + 1);
    } else if rest == 1 {
      StoreOne(ring, was, head, objs, i, idx);
    }
  }

  /** __store_ring: unrolled when the block does not wrap, otherwise slot by slot with a mask.
      Both ways leave the table as the one-at-a-time copy does. */
  method StoreRing<T>(ring: array<T>, head: nat, objs: seq<T>)
    requires ring.Length > 0
    modifies ring
    ensures ring[..] == StoreEach(old(ring[..]), head, objs, |objs|)
  {
    var i, idx, mask := 0, Slot(head, ring.Length), ring.Length - 1;
    ghost var was := ring[..];
    if idx + |objs| <= mask {
      StoreUnrolled(ring, head, objs, was);
    } else {
      hide Slot;
      while i < |objs|
        invariant 0 <= i <= |objs| && idx == Slot(head, ring.Length) + i
        invariant Copied(ring[..], was, head, objs, i)
      {
        StoreOne(ring, was, head, objs, i, Slot(idx, ring.Length));
        i, idx := i + 1, idx + 1;
      }
    }
  }

  /** Masking the advanced entry number gives the entry of the advanced index. */
  lemma SlotOfSum(head: nat, i: nat, size: nat)
    requires size > 0
    ensures Slot(Slot(head, size) + i, size) == Slot(head + i, size)
  {
    var q, r := head / size, head % size;
    SumParts(head, i, size, q, r, (r + i) / size, (r + i) % size);
  }

  lemma SumParts(head: nat, i: nat, size: nat, q: nat, r: nat, q': nat, r': nat)
    requires size > 0 && r < size && r' < size
    requires head == size * q + r && r + i == size * q' + r'
    ensures (head + i) % size == r'
  {
    assert head + i == size * (q + q') + r' by { assert size * (q + q') == size * q + size * q'; }
    DivModUnique(head + i, size, q + q', r');
  }

  /** The first n objects read from consecutive slots one at a time. */
  function LoadEach<T>(ring: seq<T>, head: nat, n: nat): (r: seq<T>)
    requires |ring| > 0
    ensures |r| == n && forall i :: 0 <= i < n ==> r[i] == ring[Slot(head + i, |ring|)]
  {
    seq(n, i requires 0 <= i => ring[Slot(head + i, |ring|)])
  }

  ghost predicate Loaded<T>(objs: seq<T>, was: seq<T>, ring: seq<T>, head: nat, i: nat) {
    && |ring| > 0 && |objs| == |was| && i <= |objs|
    && (forall k :: 0 <= k < i ==> objs[k] == LoadEach(ring, head, i)[k])
    && (forall k :: i <= k < |objs| ==> objs[k] == was[k])
  }

  method LoadOne<T>(ring: seq<T>, head: nat, objs: array<T>, ghost was: seq<T>, i: nat, idx: nat)
    requires i < objs.Length && idx < |ring| && Loaded(objs[..], was, ring, head, i)
    requires idx == Slot(head, |ring|) + i || idx == Slot(Slot(head, |ring|) + i, |ring|)
    modifies objs
    ensures Loaded(objs[..], was, ring, head, i + 1)
  {
    if idx == Slot(head, |ring|) + i { SlotNoWrap(head, i, |ring|); }
    SlotOfSum(head, i, |ring|);
    hide Slot;
    objs[i] := ring[idx];
  }

  method LoadFour<T>(ring: seq<T>, head: nat, objs: array<T>, ghost was: seq<T>, i: nat, idx: nat)
    requires i + 4 <= objs.Length && idx + 4 <= |ring| && idx == Slot(head, |ring|) + i
    requires Loaded(objs[..], was, ring, head, i)
    modifies objs
    ensures Loaded(objs[..], was, ring, head, i + 4)
  {
    hide Slot, Loaded;
    LoadOne(ring, head, objs, was, i, idx);
    LoadOne(ring, head, objs, was, i + 1, idx + 1);
    LoadOne(ring, head, objs, was, i + 2, idx + 2);
    LoadOne(ring, head, objs, was, i + 3, idx + 3);
  }

  method LoadUnrolled<T>(ring: seq<T>, head: nat, objs: array<T>, n: nat, ghost was: seq<T>)
    requires |ring| > 0 && n <= objs.Length && Slot(head, |ring|) + n <= |ring| - 1
    requires Loaded(objs[..], was, ring, head, 0)
    modifies objs
    ensures Loaded(objs[..], was, ring, head, n)
  {
    var i, idx := 0, Slot(head, |ring|);
    var loops, rest := 4 * (n / 4), n % 4;
    ghost var c := 0;
    assert n == loops + rest;
    hide Slot, Loaded;
    while i < loops
      invariant i == 4 * c && 0 <= c <= n / 4 && idx == Slot(head, |ring|) + i
      invariant Loaded(objs[..], was, ring, head, i)
    {
      LoadFour(ring, head, objs, was, i, idx);
      i, idx, c := i + 4, idx + 4, c + 1;
    }
    if rest == 3 {
      LoadOne(ring, head, objs, was, i, idx);
      LoadOne(ring, head, objs, was, i + 1, idx + 1);
      LoadOne(ring, head, objs, was, i + 2, idx + 2);
    } else if rest == 2 {
      LoadOne(ring, head, objs, was, i, idx);
      LoadOne(ring, head, objs, was, i + 1, idx + 1);
    } else if rest == 1 {
      LoadOne(ring, head, objs, was, i, idx);
    }
  }

  lemma LoadedAll<T>(objs: seq<T>, was: seq<T>, ring: seq<T>, head: nat, n: nat)
    requires Loaded(objs, was, ring, head, n)
    ensures objs[..n] == LoadEach(ring, head, n) && objs[n..] == was[n..]
  {
    hide Slot;
  }

  /** __load_ring: the unrolled and the masked path both read the n slots from head on, in order,
      and leave the rest of the caller's table alone. */
  method LoadRing<T>(ring: seq<T>, head: nat, objs: array<T>, n: nat)
    requires |ring| > 0 && n <= objs.Length
    modifies objs
    ensures objs[..n] == LoadEach(ring, head, n)
    ensures objs[n..] == old(objs[n..])
  {
    ghost var was := objs[..];
    var i, idx, mask := 0, Slot(head, |ring|), |ring| - 1;
    if idx + n <= mask {
      LoadUnrolled(ring, head, objs, n, was);
    } else {
      hide Slot, LoadEach;
      while i < n
        invariant 0 <= i <= n && idx == Slot(head, |ring|) + i
        invariant Loaded(objs[..], was, ring, head, i)
      {
        LoadOne(ring, head, objs, was, i, Slot(idx, |ring|));
        i, idx := i + 1, idx + 1;
      }
    }
    LoadedAll(objs[..], was, ring, head, n);
    assert objs[..n] == objs[..][..n] && objs[n..] == objs[..][n..];
  }

  // ----- wrapped indices

  /** Unsigned arithmetic on machine words with M values gives the true difference when that fits. */
  lemma WordSubExact(a: nat, b: nat, c: int, M: nat)
    requires M > 0 && 0 <= c + a - b < M
    ensures (c + a % M - b % M) % M == c + a - b
  {
    var qa, qb := a / M, b / M;
    var d := c + a % M - b % M;
    assert a == M * qa + a % M && b == M * qb + b % M;
    assert d == (c + a - b) + M * (qb - qa) by { assert M * (qb - qa) == M * qb - M * qa; }
    ModUnique(d, M, qb - qa, c + a - b);
  }

  lemma ModUnique(d: int, M: int, q: int, r: int)
    requires M > 0 && 0 <= r < M && d == r + M * q
    ensures d % M == r
  {
    var q', r' := d / M, d % M;
    assert d == M * q' + r';
    assert M * (q - q') == M * q - M * q';
    MultipleBelow(M, q - q', r' - r);
  }

  /** free_entries of an enqueue, entries of a dequeue and the two counts, computed on the stored
      words, are the true values as long as the index a thread has loaded is not a full round of the
      counters behind. */
  lemma WrappedExpressionsExact<T>(s: RP.State<T>, t: RP.Tid, M: nat)
    requires RP.Inv(s) && t in s.pcs && M > s.size
    ensures s.pcs[t].EnqHead? && s.size - 1 + s.consTail - s.pcs[t].head < M ==>
      (s.size - 1 + s.consTail % M - s.pcs[t].head % M) % M == s.size - 1 + s.consTail - s.pcs[t].head
    ensures s.pcs[t].DeqHead? && s.prodTail - s.pcs[t].head < M ==>
      (s.prodTail % M - s.pcs[t].head % M) % M == s.prodTail - s.pcs[t].head
    ensures Slot((s.prodTail % M - s.consTail % M) % M, s.size) == s.prodTail - s.consTail
    ensures s.size - 1 - Slot((s.prodTail % M - s.consTail % M) % M, s.size) == s.size - 1 - (s.prodTail - s.consTail) >= 0
  {
    assert RP.ThreadOk(s, t);
    assert s.consTail <= s.prodTail <= s.consTail + s.size - 1 && 1 <= s.size;
    assert s.pcs[t].EnqHead? ==> s.pcs[t].head <= s.consTail + s.size - 1;
    assert s.pcs[t].DeqHead? ==> s.pcs[t].head <= s.prodTail;
    hide RP.Inv, RP.ThreadOk, RP.Shape;
    if s.pcs[t].EnqHead? && s.size - 1 + s.consTail - s.pcs[t].head < M {
      WordSubExact(s.consTail, s.pcs[t].head, s.size - 1, M);
    }
    if s.pcs[t].DeqHead? && s.prodTail - s.pcs[t].head < M {
      WordSubExact(s.prodTail, s.pcs[t].head, 0, M);
    }
    WordSubExact(s.prodTail, s.consTail, 0, M);
    DivModUnique(s.prodTail - s.consTail, s.size, 0, s.prodTail - s.consTail);
  }

  /** The slot of a wrapped index is the slot of the index, because the size divides the word range. */
  lemma WrappedSlot(k: nat, size: nat, M: nat, c: nat)
    requires size > 0 && M == size * c && M > 0
    ensures Slot(k % M, size) == Slot(k, size)
  {
    var w, q := k % M, k / M;
    assert k == M * q + w;
    WrappedParts(k, size, c, q, w, w / size, w % size);
  }

  lemma WrappedParts(k: nat, size: nat, c: nat, q: nat, w: nat, p: nat, r: nat)
    requires size > 0 && r < size && k == size * c * q + w && w == size * p + r
    ensures k % size == r
  {
    assert size * c * q == size * (c * q);
    assert size * (c * q + p) == size * (c * q) + size * p;
    DivModUnique(k, size, c * q + p, r);
  }

  /** The four comparisons of a loaded index with a shared one, the two compare-and-swaps and the two
      waits for the tail, give the same answer on the stored words; the compare-and-swaps do so as long
      as the shared index is not a full round of the counters ahead. */
  lemma WordTestsExact<T>(s: RP.State<T>, t: RP.Tid, M: nat)
    requires RP.Inv(s) && t in s.pcs && M >= s.size
    ensures s.pcs[t].EnqCas? && s.prodHead - s.pcs[t].head < M ==>
      (s.prodHead % M == s.pcs[t].head % M <==> s.prodHead == s.pcs[t].head)
    ensures s.pcs[t].EnqCopy? ==> (s.prodTail % M == s.pcs[t].head % M <==> s.prodTail == s.pcs[t].head)
    ensures s.pcs[t].DeqCas? && s.consHead - s.pcs[t].head < M ==>
      (s.consHead % M == s.pcs[t].head % M <==> s.consHead == s.pcs[t].head)
    ensures s.pcs[t].DeqCopy? ==> (s.consTail % M == s.pcs[t].head % M <==> s.consTail == s.pcs[t].head)
  {
    assert RP.ThreadOk(s, t);
    match s.pcs[t]
    case EnqCas(_, _, head, _) => WordsEqualIff(head, s.prodHead, M);
    case EnqCopy(_, head, _) => WordsEqualIff(s.prodTail, head, M);
    case DeqCas(_, _, head, _) => WordsEqualIff(head, s.consHead, M);
    case DeqCopy(_, head, _) => WordsEqualIff(s.consTail, head, M);
    case _ =>
  }

  lemma WordsEqualIff(a: nat, b: nat, M: nat)
    requires M > 0
    ensures a <= b < a + M ==> (a % M == b % M <==> a == b)
  {
    if a <= b < a + M && Slot(a, M) == Slot(b, M) { SlotInjective(a, b, M); }
  }

  // ----- rte_ring_count

  lemma StepConsTail<T>(s: RP.State<T>, t: RP.Tid, a: RP.Action<T>)
    requires RP.Shape(s) && RP.Indexable(s, t) && RP.ThreadOk(s, t)
    ensures s.consTail <= RP.Step(s, t, a).consTail
  {
    hide Slot, RP.Shape;
    if a.Continue? && RP.Consuming(s.pcs[t]) { hide RP.StepEnq; } else { hide RP.StepDeq; }
  }

  lemma {:induction false} ConsTailGrows<T>(run: seq<RP.State<T>>, sched: seq<(RP.Tid, RP.Action<T>)>, i: nat, j: nat)
    requires RP.IsRun(run, sched) && i <= j <= |sched|
    ensures run[i].consTail <= run[j].consTail
  {
    if i < j {
      ConsTailGrows(run, sched, i, j - 1);
      RP.RunInv(run, sched, j - 1);
      assert RP.ThreadOk(run[j - 1], sched[j - 1].0);
      hide RP.Inv, RP.Step, RP.ThreadOk, RP.Indexable, RP.Shape;
      StepConsTail(run[j - 1], sched[j - 1].0, sched[j - 1].1);
    }
  }

  /** rte_ring_count loads prod.tail, then cons.tail. Over every run the count of the two, computed on the
      stored words, is their difference if and only if cons.tail has not overtaken the prod.tail loaded
      before; otherwise it is that difference modulo the size. */
  lemma CountExactIff<T>(run: seq<RP.State<T>>, sched: seq<(RP.Tid, RP.Action<T>)>, i: nat, j: nat, M: nat, c: nat)
    requires RP.IsRun(run, sched) && i <= j <= |sched| && M > 0 && M == run[0].size * c
    ensures var size, p, q := run[0].size, run[i].prodTail, run[j].consTail;
      && size > 0 && Slot((p % M - q % M) % M, size) == (p - q) % size
      && (Slot((p % M - q % M) % M, size) == p - q <==> q <= p)
      && (size - 1 - Slot((p % M - q % M) % M, size) == size - 1 - (p - q) <==> q <= p)
  {
    ConsTailGrows(run, sched, i, j);
    RP.RunInv(run, sched, i);
    assert run[i].prodTail - run[i].consTail <= run[0].size - 1;
    var size, p, q := run[0].size, run[i].prodTail, run[j].consTail;
    assert q <= p ==> p - q <= size - 1;
    hide *;
    CountIs(p, q, size, M, c);
  }

  lemma CountIs(p: int, q: int, size: int, M: int, c: int)
    requires 0 < size && 0 <= p && 0 <= q && M > 0 && M == size * c
    ensures (p % M - q % M) % M % size == (p - q) % size
    ensures 0 <= p - q < size ==> (p - q) % size == p - q
  {
    var x := p % M - q % M;
    var k := p / M - q / M;
    assert p == M * (p / M) + p % M && q == M * (q / M) + q % M;
    assert M * k == M * (p / M) - M * (q / M);
    var d, r := p - q, (p - q) % size;
    var l := d / size;
    assert d == size * l + r;
    var w, z := x % M, x / M;
    assert x == M * z + w && w == d - M * k - M * z;
    SizeDivides(w, d, size, c, k, z, l, r);
    if 0 <= d < size { ModUnique(d, size, 0, d); }
  }

  lemma SizeDivides(w: int, d: int, size: int, c: int, k: int, z: int, l: int, r: int)
    requires 0 < size && 0 <= r < size && d == size * l + r && w == d - size * c * k - size * c * z
    ensures w % size == r
  {
    var q := l - c * k - c * z;
    assert size * c * k == size * (c * k) && size * c * z == size * (c * z);
    assert size * q == size * l - size * (c * k) - size * (c * z);
    ModUnique(w, size, q, r);
  }
}
