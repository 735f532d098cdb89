/** Positions of unbounded counters in a table of fixed size. */
module Slots {

  /** The table entry an index falls into; for a power-of-two size this is `index & (size - 1)`. */
  function Slot(index: nat, size: nat): (slot: nat)
    requires size > 0
    ensures slot < size
  {
    index % size
  }

  /** Two indices that share an entry and are less than one table apart are the same index. */
  lemma SlotInjective(a: nat, b: nat, size: nat)
    requires size > 0
    requires a <= b < a + size
    requires Slot(a, size) == Slot(b, size)
    ensures a == b
  {
    var qa, qb := a / size, b / size;
    assert a == size * qa + a % size && b == size * qb + b % size;
    assert b - a == size * qb - size * qa;
    MultipleBelow(size, qb - qa, b - a);
  }

  /** The only multiple of size strictly between -size and size is 0. */
  lemma MultipleBelow(size: int, k: int, d: int)
    requires size > 0
    requires -size < d < size
    requires d == size * k
    ensures k == 0 && d == 0
  {
    assert k >= 1 ==> size * k >= size;
    assert k <= -1 ==> size * k <= 0 - size;
  }

  /** Moving one full table on comes back to the same entry. */
  lemma SlotPeriodic(a: nat, size: nat)
    requires size > 0
    ensures Slot(a + size, size) == Slot(a, size)
    ensures (a + size) / size == a / size + 1
  {
    var q, r := a / size, a % size;
    assert a + size == size * (q + 1) + r;
    DivModUnique(a + size, size, q + 1, r);
  }

  lemma DivModUnique(a: nat, size: nat, q: nat, r: nat)
    requires size > 0 && r < size
    requires a == size * q + r
    ensures a / size == q && a % size == r
  {
    var q', r' := a / size, a % size;
    assert a == size * q' + r';
    assert size * (q - q') == size * q - size * q';
    MultipleBelow(size, q - q', r' - r);
  }

  /** Incrementing an entry number with an explicit wrap to zero tracks the counter. */
  lemma SlotNext(a: nat, size: nat)
    requires size > 0
    ensures Slot(a + 1, size) == (if Slot(a, size) + 1 == size then 0 else Slot(a, size) + 1)
  {
    var q, r := a / size, a % size;
    assert a == size * q + r;
    if r + 1 == size {
      assert a + 1 == size * (q + 1);
      DivModUnique(a + 1, size, q + 1, 0);
    } else {
      DivModUnique(a + 1, size, q, r + 1);
    }
  }

  /** How many times an index has gone round the table. */
  function Round(index: nat, size: nat): nat
    requires size > 0
  {
    index / size
  }

  /** Among the indices of one entry, the rounds are ordered like the indices. */
  lemma RoundsOrdered(a: nat, b: nat, size: nat)
    requires size > 0 && Slot(a, size) == Slot(b, size)
    ensures a < b <==> Round(a, size) < Round(b, size)
    ensures a == b <==> Round(a, size) == Round(b, size)
  {
    var qa, qb := a / size, b / size;
    assert a == size * qa + a % size && b == size * qb + b % size;
    assert b - a == size * qb - size * qa;
    MultipleSign(size, qa, qb);
  }

  lemma MultipleSign(size: int, a: int, b: int)
    requires size > 0
    ensures a < b <==> size * a < size * b
  {
    var k := b - a;
    assert size * b == size * a + size * k;
    SignOfProduct(size, k);
  }

  lemma SignOfProduct(size: int, k: int)
    requires size > 0
    ensures k >= 1 ==> size * k >= size
    ensures k <= 0 ==> size * k <= 0
  {
  }
}
