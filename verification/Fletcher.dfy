/** The Fletcher checksum of src/fletcher-cksum.c with its 32-bit sums and their deferred reduction. */
module Fletcher {

  const BlockLength: nat := 360
  const M: int := 65535
  const TwoTo32: int := 0x1_0000_0000

  predicate Words(data: seq<int>) {
    forall i :: 0 <= i < |data| ==> 0 <= data[i] <= 65535
  }

  /** Addition of 32-bit numbers. */
  function Add32(a: int, b: int): (r: int)
    ensures 0 <= a + b < TwoTo32 ==> r == a + b
  {
    (a + b) % TwoTo32
  }

  // ----- the plain sums

  /** The sum of the words. */
  ghost function Total(data: seq<int>): int {
    if data == [] then 0 else Total(data[..|data| - 1]) + data[|data| - 1]
  }

  /** The sum of all the totals on the way. */
  ghost function Running(data: seq<int>): int {
    if data == [] then 0 else Running(data[..|data| - 1]) + Total(data)
  }

  lemma OneMore(data: seq<int>, i: nat)
    requires i < |data|
    ensures Total(data[..i + 1]) == Total(data[..i]) + data[i]
    ensures Running(data[..i + 1]) == Running(data[..i]) + Total(data[..i + 1])
  {
    assert data[..i + 1][..i] == data[..i];
  }

  ghost predicate Congruent(a: int, b: int) { (a - b) % M == 0 }

  lemma CongruentSum(a: int, b: int, c: int, d: int)
    requires Congruent(a, b) && Congruent(c, d)
    ensures Congruent(a + c, b + d)
  {
    var k, l := (a - b) / M, (c - d) / M;
    assert (a + c) - (b + d) == M * (k + l);
  }

  // ----- reduction

  /** (v & 0xffff) + (v >> 16) */
  function Reduce(v: int): int { v % 65536 + v / 65536 }

  lemma ReduceKeeps(v: int, s: int)
    requires 1 <= v && Congruent(v, s)
    ensures Congruent(Reduce(v), s) && 1 <= Reduce(v) <= 65535 + v / 65536
  {
    var h, k := v / 65536, (v - s) / M;
    assert v == 65536 * h + v % 65536;
    assert Reduce(v) - s == M * (k - h);
  }

  /** A second reduction brings what one reduction leaves into 16 bits. */
  lemma ReduceTwice(v: int)
    requires 1 <= v <= 131070
    ensures 1 <= Reduce(v) <= 65535
  {
  }

  /** The number from 1 to 65535 with the given remainder: 0 is written as 65535. */
  ghost function Canonical(s: int): int {
    if s % M == 0 then M else s % M
  }

  lemma OnlyOne(v: int, s: int)
    requires 1 <= v <= M && Congruent(v, s)
    ensures v == Canonical(s)
  {
    var k := (v - s) / M;
    assert v == s + M * k;
    assert s == M * (s / M) + s % M;
  }

  // ----- bounds

  /** The first sum stays below this between blocks. */
  const Bound1: int := 65897
  /** And the second below this. */
  const Bound2: int := 131070

  /** What n words can add to the second sum. */
  ghost function Growth(n: nat): int {
    if n == 0 then 0 else Growth(n - 1) + Bound1 + 65535 * n
  }

  lemma {:induction false} GrowthClosed(n: nat)
    ensures 2 * Growth(n) == 2 * Bound1 * n + 65535 * (n * (n + 1))
  {
    if n > 0 {
      GrowthClosed(n - 1);
      assert n * (n + 1) == (n - 1) * n + 2 * n;
    }
  }

  /** A full block cannot overflow the second sum. */
  lemma {:induction false} GrowthFits(n: nat)
    requires n <= BlockLength
    ensures Bound2 + Growth(n) < TwoTo32
    decreases BlockLength as int - n
  {
    if n < BlockLength {
      GrowthFits(n + 1);
    } else {
      GrowthClosed(BlockLength);
      assert BlockLength * (BlockLength + 1) == 129960;
    }
  }

  // ----- the checksum

  lemma AddOne(data: seq<int>, i: nat, n: nat, sum1: int, sum2: int)
    requires Words(data) && i < |data| && n < BlockLength
    requires 1 <= sum1 <= Bound1 + 65535 * n && 1 <= sum2 <= Bound2 + Growth(n)
    requires Congruent(sum1, Total(data[..i])) && Congruent(sum2, Running(data[..i]))
    ensures var s1 := sum1 + data[i]; var s2 := sum2 + s1;
      && 1 <= s1 <= Bound1 + 65535 * (n + 1) < TwoTo32 && 1 <= s2 <= Bound2 + Growth(n + 1) < TwoTo32
      && Congruent(s1, Total(data[..i + 1])) && Congruent(s2, Running(data[..i + 1]))
  {
    OneMore(data, i);
    GrowthFits(n + 1);
    assert Congruent(data[i], data[i]);
    CongruentSum(sum1, Total(data[..i]), data[i], data[i]);
    CongruentSum(sum2, Running(data[..i]), sum1 + data[i], Total(data[..i + 1]));
    hide Congruent;
  }

  /** The sums before a block and after it: no addition of 32-bit numbers wraps around. */
  method AddBlock(data: seq<int>, from: nat, tlen: nat, s1: int, s2: int) returns (sum1: int, sum2: int)
    requires Words(data) && 1 <= tlen <= BlockLength && from + tlen <= |data|
    requires 1 <= s1 <= Bound1 && 1 <= s2 <= Bound2
    requires Congruent(s1, Total(data[..from])) && Congruent(s2, Running(data[..from]))
    ensures Congruent(sum1, Total(data[..from + tlen])) && Congruent(sum2, Running(data[..from + tlen]))
    ensures 1 <= sum1 <= Bound1 + 65535 * tlen && 1 <= sum2 < TwoTo32
  {
    assert Growth(0) == 0;
    hide Growth, Congruent, Total, Running, Add32;
    sum1, sum2 := s1, s2;
    var i := from;
    var left := tlen;
    while left > 0
      invariant 0 <= left <= tlen && i == from + (tlen - left)
      invariant 1 <= sum1 <= Bound1 + 65535 * (tlen - left)
      invariant 1 <= sum2 <= Bound2 + Growth(tlen - left)
      invariant Congruent(sum1, Total(data[..i])) && Congruent(sum2, Running(data[..i]))
    {
      AddOne(data, i, tlen - left, sum1, sum2);
      sum1 := Add32(sum1, data[i]);
      sum2 := Add32(sum2, sum1);
      i := i + 1;
      left := left - 1;
    }
    GrowthFits(tlen);
  }

  /** fletcher32: the halves are the two sums modulo 65535, with 65535 for 0. */
  method Fletcher32(data: seq<int>) returns (r: int)
    requires Words(data)
    ensures r == Canonical(Running(data)) * 65536 + Canonical(Total(data))
    ensures 0 <= r < TwoTo32
  {
    var sum1, sum2 := 0xffff, 0xffff;
    var i, len := 0, |data|;
    while len > 0
      invariant 0 <= len && i + len == |data|
      invariant 1 <= sum1 <= Bound1 && 1 <= sum2 <= Bound2
      invariant Congruent(sum1, Total(data[..i])) && Congruent(sum2, Running(data[..i]))
    {
      var tlen := if len > BlockLength then BlockLength else len;
      len := len - tlen;
      sum1, sum2 := AddBlock(data, i, tlen, sum1, sum2);
      i := i + tlen;
      ReduceKeeps(sum1, Total(data[..i]));
      ReduceKeeps(sum2, Running(data[..i]));
      sum1 := Reduce(sum1);
      sum2 := Reduce(sum2);
    }
    assert data[..i] == data;
    ReduceKeeps(sum1, Total(data));
    ReduceKeeps(sum2, Running(data));
    ReduceTwice(sum1);
    ReduceTwice(sum2);
    sum1 := Reduce(sum1);
    sum2 := Reduce(sum2);
    OnlyOne(sum1, Total(data));
    OnlyOne(sum2, Running(data));
    r := sum2 * 65536 + sum1;
  }
}
