/** The bounded random numbers of arc4random_uniform in src/arc4random.c. */
module Uniform {
  import opened Slots

  const TwoTo32: nat := 0x1_0000_0000

  /** -upper_bound % upper_bound on 32-bit numbers. */
  function Min(bound: nat): nat
    requires 2 <= bound < TwoTo32
  {
    (TwoTo32 - bound) % bound
  }

  /** The values up to n that are accepted and give x. */
  ghost function Producers(bound: nat, x: nat, n: nat): set<nat>
    requires 2 <= bound < TwoTo32
  {
    set r: nat | Min(bound) <= r < n && r % bound == x
  }

  lemma MinIs(bound: nat)
    requires 2 <= bound < TwoTo32
    ensures Min(bound) == TwoTo32 % bound && Min(bound) < bound
    ensures TwoTo32 - Min(bound) == TwoTo32 / bound * bound
  {
    var q, r := TwoTo32 / bound, TwoTo32 % bound;
    assert TwoTo32 == bound * q + r;
    assert bound * (q - 1) == bound * q - bound;
    assert q >= 1;
    DivModUnique(TwoTo32 - bound, bound, q - 1, r);
  }

  /** Every stretch of one whole round holds each residue once. */
  lemma OncePerRound(bound: nat, x: nat, low: nat) returns (r: nat)
    requires 2 <= bound < TwoTo32 && x < bound
    ensures low <= r < low + bound && r % bound == x
    ensures forall s: nat :: low <= s < low + bound && s % bound == x ==> s == r
  {
    var l := low % bound;
    r := if l <= x then low + x - l else low + bound + x - l;
    var q := low / bound;
    assert low == bound * q + l;
    assert bound * (q + 1) == bound * q + bound;
    DivModUnique(r, bound, if l <= x then q else q + 1, x);
    forall s: nat | low <= s < low + bound && s % bound == x ensures s == r {
      SameResidue(s, r, bound);
    }
  }

  lemma SameResidue(s: nat, r: nat, bound: nat)
    requires bound > 0 && s % bound == r % bound && 0 - bound < s - r < bound
    ensures s == r
  {
    var k := s / bound - r / bound;
    assert s == bound * (s / bound) + s % bound && r == bound * (r / bound) + r % bound;
    assert bound * k == bound * (s / bound) - bound * (r / bound);
    MultipleBelow(bound, k, (s as int) - r);
  }

  /** k rounds above the rejected values hold each residue k times. */
  lemma {:induction false} ResiduesEven(bound: nat, x: nat, k: nat)
    requires 2 <= bound < TwoTo32 && x < bound
    ensures |Producers(bound, x, Min(bound) + k * bound)| == k
  {
    var low := Min(bound);
    if k == 0 {
      assert Producers(bound, x, low) == {};
    } else {
      ResiduesEven(bound, x, k - 1);
      var from := low + (k - 1) * bound;
      assert k * bound == (k - 1) * bound + bound;
      assert (k - 1) * bound >= 0;
      var r := OncePerRound(bound, x, from);
      assert Producers(bound, x, low + k * bound) == Producers(bound, x, from) + {r};
      assert r !in Producers(bound, x, from);
    }
  }

  /** The result is unbiased: each number below the bound is produced by the same number of accepted
      32-bit values, floor(2^32 / bound). */
  lemma Unbiased(bound: nat, x: nat)
    requires 2 <= bound < TwoTo32 && x < bound
    ensures |Producers(bound, x, TwoTo32)| == TwoTo32 / bound
  {
    MinIs(bound);
    ResiduesEven(bound, x, TwoTo32 / bound);
  }

  /** More than half of all values are accepted. */
  lemma MostAccepted(bound: nat)
    requires 2 <= bound < TwoTo32
    ensures 2 * Min(bound) < TwoTo32
  {
    MinIs(bound);
    var q := TwoTo32 / bound;
    assert q >= 1;
    assert q * bound >= bound;
  }

  datatype Result = Number(value: nat, used: nat) | OutOfDraws

  /** arc4random_uniform with the generator's outputs as a sequence: the residue of the first draw that is
      not rejected. */
  method RandomUniform(bound: nat, draws: seq<nat>) returns (r: Result)
    requires bound < TwoTo32 && forall i :: 0 <= i < |draws| ==> draws[i] < TwoTo32
    ensures bound < 2 ==> r == Number(0, 0)
    ensures bound >= 2 && r.Number? ==>
      && 1 <= r.used <= |draws| && (forall i :: 0 <= i < r.used - 1 ==> draws[i] < TwoTo32 % bound)
      && r.value < bound && draws[r.used - 1] in Producers(bound, r.value, TwoTo32)
    ensures r.OutOfDraws? <==> bound >= 2 && forall i :: 0 <= i < |draws| ==> draws[i] < TwoTo32 % bound
  {
    if bound < 2 {
      return Number(0, 0);
    }
    MinIs(bound);
    var min := Min(bound);
    var i := 0;
    while i < |draws|
      invariant 0 <= i <= |draws|
      invariant forall j :: 0 <= j < i ==> draws[j] < min
    {
      var d := draws[i];
      i := i + 1;
      if d >= min {
        return Number(d % bound, i);
      }
    }
    r := OutOfDraws;
  }
}
