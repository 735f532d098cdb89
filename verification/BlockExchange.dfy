/** The block exchange of src/getopt_long.c: gcd and permute_args. */
module BlockExchange {
  import opened Slots

  // ----- gcd

  predicate IsProduct(n: int, d: int, k: int) { n == d * k }

  ghost predicate Divides(d: int, n: int) { exists k :: IsProduct(n, d, k) }

  ghost predicate Combination(n: int, a: int, b: int, u: int, v: int) { n == a * u + b * v }

  /** Whatever divides a and b divides a0 and b0. */
  ghost predicate Inherits(a: int, b: int, a0: int, b0: int) {
    forall d :: d >= 1 && Divides(d, a) && Divides(d, b) ==> Divides(d, a0) && Divides(d, b0)
  }

  /** The Euclidean loop, with the coefficients that show the result is the greatest common divisor. */
  method Gcd(a0: int, b0: int) returns (g: int, ghost u: int, ghost v: int)
    requires a0 >= 1 && b0 >= 1
    ensures g >= 1 && Divides(g, a0) && Divides(g, b0)
    ensures Combination(g, a0, b0, u, v)
  {
    var a, b := a0, b0;
    var c := a % b;
    ghost var ua, va, ub, vb := 1, 0, 0, 1;
    assert Combination(a, a0, b0, ua, va) && Combination(b, a0, b0, ub, vb);
    hide Combination, Inherits, Divides;
    InheritsSelf(a, b);
    while c != 0
      invariant a >= 1 && b >= 1 && c == a % b
      invariant Combination(a, a0, b0, ua, va) && Combination(b, a0, b0, ub, vb)
      invariant Inherits(a, b, a0, b0)
      decreases c
    {
      ghost var q := a / b;
      assert a == b * q + c;
      CombineStep(a0, b0, a, b, c, q, ua, va, ub, vb);
      InheritsStep(a, b, c, q, a0, b0);
      ua, va, ub, vb := ub, vb, ua - q * ub, va - q * vb;
      a := b;
      b := c;
      c := a % b;
    }
    InheritsLast(a, b, a0, b0);
    return b, ub, vb;
  }

  lemma CombineStep(a0: int, b0: int, a: int, b: int, c: int, q: int, ua: int, va: int, ub: int, vb: int)
    requires Combination(a, a0, b0, ua, va) && Combination(b, a0, b0, ub, vb) && a == b * q + c
    ensures Combination(c, a0, b0, ua - q * ub, va - q * vb)
  {
    calc {
      a0 * (ua - q * ub) + b0 * (va - q * vb);
      a0 * ua - q * (a0 * ub) + b0 * va - q * (b0 * vb);
      a - q * (a0 * ub + b0 * vb);
      a - q * b;
    }
  }

  lemma InheritsSelf(a: int, b: int)
    ensures Inherits(a, b, a, b)
  {
  }

  lemma InheritsStep(a: int, b: int, c: int, q: int, a0: int, b0: int)
    requires a == b * q + c && Inherits(a, b, a0, b0)
    ensures Inherits(b, c, a0, b0)
  {
    forall d | d >= 1 && Divides(d, b) && Divides(d, c) ensures Divides(d, a0) && Divides(d, b0) {
      DividesSum(d, b, c, q);
    }
  }

  lemma InheritsLast(a: int, b: int, a0: int, b0: int)
    requires b >= 1 && a % b == 0 && Inherits(a, b, a0, b0)
    ensures Divides(b, a0) && Divides(b, b0)
  {
    assert IsProduct(a, b, a / b) && IsProduct(b, b, 1);
  }

  lemma DividesSum(d: int, b: int, c: int, q: int)
    requires Divides(d, b) && Divides(d, c)
    ensures Divides(d, b * q + c)
  {
    var k :| IsProduct(b, d, k);
    var m :| IsProduct(c, d, m);
    assert d * (k * q + m) == (d * k) * q + d * m;
    assert IsProduct(b * q + c, d, k * q + m);
  }

  /** Every common divisor divides the result, so it is the greatest one. */
  lemma GcdGreatest(a: int, b: int, u: int, v: int, d: int)
    requires Divides(d, a) && Divides(d, b)
    ensures Divides(d, a * u + b * v)
  {
    var k :| IsProduct(a, d, k);
    var m :| IsProduct(b, d, m);
    assert d * (k * u + m * v) == (d * k) * u + (d * m) * v;
    assert IsProduct(a * u + b * v, d, k * u + m * v);
  }

  // ----- the cycles

  /** Two adjacent blocks of lengths a and b, their gcd g, the cycle length n, and the arithmetic that
      ties them together. */
  ghost predicate Geometry(a: int, b: int, g: int, n: int, bg: int, u: int, w: int) {
    && a >= 1 && b >= 1 && g >= 1 && n >= 1
    && a + b == g * n && b == g * bg
    && g == b * u + (a + b) * w
  }

  /** The j-th position of the cycle that starts at c. */
  function Pos(c: int, a: int, b: int, j: int): (p: int)
    requires a + b > 0
    ensures 0 <= p < a + b
  {
    (c + j * b) % (a + b)
  }

  lemma ModParts(x: int, m: int, q: int, r: int)
    requires m > 0 && 0 <= r < m && x == m * q + r
    ensures x % m == r && x / m == q
  {
    assert x == m * (x / m) + x % m;
    assert m * (q - x / m) == m * q - m * (x / m);
    MultipleBelow(m, q - x / m, x % m - r);
  }

  /** The if in the inner loop walks the cycle. */
  lemma PosNext(c: int, a: int, b: int, j: int)
    requires a >= 1 && b >= 1
    ensures Pos(c, a, b, j + 1) == (if Pos(c, a, b, j) >= a then Pos(c, a, b, j) - a else Pos(c, a, b, j) + b)
  {
    var m, x := a + b, c + j * b;
    var q, p := x / m, x % m;
    assert x == m * q + p;
    assert c + (j + 1) * b == x + b;
    if p >= a {
      assert x + b == m * (q + 1) + (p - a) by { assert m * (q + 1) == m * q + m; }
      ModParts(x + b, m, q + 1, p - a);
    } else {
      ModParts(x + b, m, q, p + b);
    }
  }

  lemma PosStart(c: int, a: int, b: int)
    requires a >= 1 && b >= 1 && 0 <= c < a + b
    ensures Pos(c, a, b, 0) == c
  {
    ModParts(c, a + b, 0, c);
  }

  lemma PosReturns(c: int, a: int, b: int, g: int, n: int, bg: int, u: int, w: int)
    requires Geometry(a, b, g, n, bg, u, w) && 0 <= c < a + b
    ensures Pos(c, a, b, n) == c
  {
    assert n * b == (a + b) * bg by { assert n * (g * bg) == (g * n) * bg; }
    ModParts(c + n * b, a + b, bg, c);
  }

  /** A cycle stays in one residue class of g. */
  lemma PosResidue(c: int, a: int, b: int, g: int, n: int, bg: int, u: int, w: int, j: int)
    requires Geometry(a, b, g, n, bg, u, w) && 0 <= c < a + b
    ensures Pos(c, a, b, j) % g == c % g
  {
    var m, x := a + b, c + j * b;
    var q, p := x / m, x % m;
    assert x == m * q + p;
    var k := c / g + j * bg - n * q;
    assert p == g * k + c % g by {
      assert c == g * (c / g) + c % g;
      assert j * b == g * (j * bg) by { assert j * (g * bg) == g * (j * bg); }
      assert m * q == g * (n * q) by { assert (g * n) * q == g * (n * q); }
      assert g * k == g * (c / g) + g * (j * bg) - g * (n * q);
    }
    ModParts(p, g, k, c % g);
  }

  /** A multiple of b that the total length divides needs a full cycle of steps. */
  lemma StepsBetween(a: int, b: int, g: int, n: int, bg: int, u: int, w: int, d: int, q: int)
    requires Geometry(a, b, g, n, bg, u, w) && d * b == (a + b) * q && -n < d < n
    ensures d == 0
  {
    var m := a + b;
    var k := q * u + d * w;
    assert d * g == m * k by {
      assert d * g == (d * b) * u + m * (d * w) by { assert d * (b * u + m * w) == (d * b) * u + m * (d * w); }
      assert (m * q) * u == m * (q * u);
      assert m * k == m * (q * u) + m * (d * w);
    }
    assert d == n * k by {
      assert g * d == g * (n * k) by { assert (g * n) * k == g * (n * k); }
      Cancel(g, d, n * k);
    }
    MultipleBelow(n, k, d);
  }

  lemma Cancel(g: int, x: int, y: int)
    requires g >= 1 && g * x == g * y
    ensures x == y
  {
    assert g * (x - y) == 0;
    SignOfProduct(g, x - y);
    SignOfProduct(g, y - x);
    assert g * (y - x) == -(g * (x - y));
  }

  lemma PosDistinct(c: int, a: int, b: int, g: int, n: int, bg: int, u: int, w: int, j: int, k: int)
    requires Geometry(a, b, g, n, bg, u, w) && -n < k - j < n
    requires Pos(c, a, b, j) == Pos(c, a, b, k)
    ensures j == k
  {
    var m, x, y := a + b, c + j * b, c + k * b;
    assert x == m * (x / m) + x % m && y == m * (y / m) + y % m;
    assert (k - j) * b == m * (y / m - x / m) by {
      assert (k - j) * b == k * b - j * b;
      assert m * (y / m - x / m) == m * (y / m) - m * (x / m);
    }
    StepsBetween(a, b, g, n, bg, u, w, k - j, y / m - x / m);
  }

  /** Conversely, a cycle visits its whole residue class. */
  lemma PosCovers(c: int, a: int, b: int, g: int, n: int, bg: int, u: int, w: int, x: int) returns (j: int)
    requires Geometry(a, b, g, n, bg, u, w) && 0 <= c < a + b && 0 <= x < a + b && x % g == c % g
    ensures 0 <= j < n && Pos(c, a, b, j) == x
  {
    var m := a + b;
    var k := x / g - c / g;
    assert x - c == g * k by {
      assert x == g * (x / g) + x % g && c == g * (c / g) + c % g;
      assert g * k == g * (x / g) - g * (c / g);
    }
    var t := k * u;
    var q := t / n;
    j := t % n;
    assert t == n * q + j;
    var e := -(k * w) - q * bg;
    CoverIdentity(a, b, g, n, bg, u, w, k, q, j);
    assert c + j * b == m * e + x;
    ModParts(c + j * b, m, e, x);
  }

  lemma CoverIdentity(a: int, b: int, g: int, n: int, bg: int, u: int, w: int, k: int, q: int, j: int)
    requires Geometry(a, b, g, n, bg, u, w) && k * u == n * q + j
    ensures j * b == g * k + (a + b) * (-(k * w) - q * bg)
  {
    var m := a + b;
    assert g * k == (k * u) * b + m * (k * w) by { assert (b * u + m * w) * k == (k * u) * b + m * (k * w); }
    StepsOut(b, g, n, bg, q, j, k * u);
    assert m * (-(k * w) - q * bg) == -(m * (k * w)) - m * (q * bg);
  }

  lemma StepsOut(b: int, g: int, n: int, bg: int, q: int, j: int, t: int)
    requires b == g * bg && t == n * q + j
    ensures j * b == t * b - (g * n) * (q * bg)
  {
    assert (n * q + j) * b == (n * q) * b + j * b;
    assert (n * q) * (g * bg) == (g * n) * (q * bg);
  }

  // ----- the exchange

  /** One swap of the inner loop. */
  function Swap<T>(s: seq<T>, p: int, c: int): (r: seq<T>)
    requires 0 <= p < |s| && 0 <= c < |s|
    ensures |r| == |s|
  {
    s[p := s[c]][c := s[p]]
  }

  /** The segment after j swaps along the cycle from c. */
  function Cycle<T>(s: seq<T>, c: int, a: int, b: int, j: nat): (r: seq<T>)
    requires a >= 1 && b >= 1 && |s| == a + b && 0 <= c < a + b
    ensures |r| == |s|
  {
    if j == 0 then s else Swap(Cycle(s, c, a, b, j - 1), Pos(c, a, b, j), c)
  }

  /** After j swaps every visited position holds its predecessor's element, c holds the last one picked
      up, and the rest is untouched. */
  ghost predicate Rotating<T>(s: seq<T>, r: seq<T>, c: int, a: int, b: int, j: int)
    requires a >= 1 && b >= 1 && 0 <= c < a + b
  {
    && |r| == |s| == a + b
    && (forall k :: 1 <= k <= j ==> r[Pos(c, a, b, k)] == s[Pos(c, a, b, k - 1)])
    && r[c] == s[Pos(c, a, b, j)]
    && (forall x :: 0 <= x < a + b && (forall k :: 0 <= k <= j ==> Pos(c, a, b, k) != x) ==> r[x] == s[x])
  }

  lemma {:induction false} CycleRotates<T>(s: seq<T>, c: int, a: int, b: int, g: int, n: int, bg: int, u: int, w: int, j: nat)
    requires Geometry(a, b, g, n, bg, u, w) && |s| == a + b && 0 <= c < a + b && j < n
    ensures Rotating(s, Cycle(s, c, a, b, j), c, a, b, j)
  {
    PosStart(c, a, b);
    if j > 0 {
      CycleRotates(s, c, a, b, g, n, bg, u, w, j - 1);
      forall k | 0 <= k < j ensures Pos(c, a, b, k) != Pos(c, a, b, j) {
        if Pos(c, a, b, k) == Pos(c, a, b, j) { PosDistinct(c, a, b, g, n, bg, u, w, k, j); }
      }
      forall k | 1 <= k <= j ensures Pos(c, a, b, k) != c {
        if Pos(c, a, b, k) == c { PosDistinct(c, a, b, g, n, bg, u, w, 0, k); }
      }
      RotateStep(s, Cycle(s, c, a, b, j - 1), c, a, b, j);
    }
  }

  lemma RotateStep<T>(s: seq<T>, r: seq<T>, c: int, a: int, b: int, j: nat)
    requires a >= 1 && b >= 1 && 0 <= c < a + b && j >= 1 && Rotating(s, r, c, a, b, j - 1)
    requires Pos(c, a, b, 0) == c
    requires forall k :: 0 <= k < j ==> Pos(c, a, b, k) != Pos(c, a, b, j)
    requires forall k :: 1 <= k <= j ==> Pos(c, a, b, k) != c
    ensures Rotating(s, Swap(r, Pos(c, a, b, j), c), c, a, b, j)
  {
    hide Pos;
    var p := Pos(c, a, b, j);
    assert r[p] == s[p];
    var r' := Swap(r, p, c);
    forall x | 0 <= x < a + b && (forall k :: 0 <= k <= j ==> Pos(c, a, b, k) != x) ensures r'[x] == s[x] {
      assert Pos(c, a, b, 0) != x;
    }
  }

  /** The two blocks in exchanged order. */
  function Exchanged<T>(s: seq<T>, a: int): (r: seq<T>)
    requires 0 <= a <= |s|
  {
    s[a..] + s[..a]
  }

  /** Residue classes below i are exchanged, the others are as they were. */
  ghost predicate Done<T>(s: seq<T>, r: seq<T>, a: int, b: int, g: int, i: int)
    requires a >= 1 && b >= 1 && g >= 1 && |s| == a + b
  {
    |r| == |s| && forall x :: 0 <= x < a + b ==> r[x] == (if x % g < i then Exchanged(s, a)[x] else s[x])
  }

  lemma CycleDone<T>(s: seq<T>, r: seq<T>, a: int, b: int, g: int, n: int, bg: int, u: int, w: int, i: int)
    requires Geometry(a, b, g, n, bg, u, w) && |s| == a + b
    requires 0 <= i < g && i < b
    requires Done(s, r, a, b, g, i)
    ensures Done(s, Cycle(r, a + i, a, b, n), a, b, g, i + 1)
  {
    var c := a + i;
    CycleStart(a, b, g, n, bg, u, w, i);
    CycleRotates(r, c, a, b, g, n, bg, u, w, n - 1);
    PosReturns(c, a, b, g, n, bg, u, w);
    var r' := Cycle(r, c, a, b, n);
    assert r' == Cycle(r, c, a, b, n - 1);
    hide Geometry, Pos, Cycle, Rotating;
    forall x | 0 <= x < a + b ensures r'[x] == (if x % g < i + 1 then Exchanged(s, a)[x] else s[x]) {
      CycleDoneAt(s, r, r', a, b, g, n, bg, u, w, i, x);
    }
  }

  lemma CycleDoneAt<T>(s: seq<T>, r: seq<T>, r': seq<T>, a: int, b: int, g: int, n: int, bg: int, u: int, w: int, i: int, x: int)
    requires Geometry(a, b, g, n, bg, u, w) && |s| == |r'| == a + b
    requires 0 <= i < g && i < b && (a + i) % g == i && 0 <= x < a + b
    requires Done(s, r, a, b, g, i) && Rotating(r, r', a + i, a, b, n - 1)
    ensures r'[x] == (if x % g < i + 1 then Exchanged(s, a)[x] else s[x])
  {
    var c := a + i;
    if x % g == i {
      CycleElement(r, r', c, a, b, g, n, bg, u, w, x);
      hide Geometry, Rotating, Pos;
      var y := if x < b then x + a else x - b;
      assert Exchanged(s, a)[x] == s[y];
    } else {
      forall k | 0 <= k <= n - 1 ensures Pos(c, a, b, k) != x { PosResidue(c, a, b, g, n, bg, u, w, k); }
      hide Geometry, Pos;
      assert r'[x] == r[x];
    }
  }

  /** In a finished cycle the element at x came from the place that moves to x. */
  lemma CycleElement<T>(r: seq<T>, r': seq<T>, c: int, a: int, b: int, g: int, n: int, bg: int, u: int, w: int, x: int)
    requires Geometry(a, b, g, n, bg, u, w) && 0 <= c < a + b && 0 <= x < a + b && x % g == c % g
    requires Rotating(r, r', c, a, b, n - 1)
    ensures var y := if x < b then x + a else x - b;
      y % g == c % g && r'[x] == r[y]
  {
    var j := PosCovers(c, a, b, g, n, bg, u, w, x);
    PosStart(c, a, b);
    PosReturns(c, a, b, g, n, bg, u, w);
    var k := if j == 0 then n else j;
    PosNext(c, a, b, k - 1);
    PosResidue(c, a, b, g, n, bg, u, w, k - 1);
  }

  lemma AllDone<T>(s: seq<T>, r: seq<T>, a: int, b: int, g: int)
    requires a >= 1 && b >= 1 && g >= 1 && |s| == a + b && Done(s, r, a, b, g, g)
    ensures r == Exchanged(s, a)
  {
    forall x | 0 <= x < a + b ensures r[x] == Exchanged(s, a)[x] { assert x % g < g; }
  }

  lemma MakeGeometry(a: int, b: int, g: int, n: int, u: int, v: int) returns (bg: int)
    requires a >= 1 && b >= 1 && g >= 1 && Divides(g, a) && Divides(g, b)
    requires Combination(g, a, b, u, v) && n == (a + b) / g
    ensures Geometry(a, b, g, n, bg, v - u, u)
  {
    var ag :| IsProduct(a, g, ag);
    bg :| IsProduct(b, g, bg);
    assert a + b == g * (ag + bg);
    ModParts(a + b, g, ag + bg, 0);
    SignOfProduct(g, n);
    Regroup(a, b, u, v);
  }

  lemma Regroup(a: int, b: int, u: int, v: int)
    ensures a * u + b * v == b * (v - u) + (a + b) * u
  {
  }

  /** The i-th cycle starts in the i-th residue class, inside the second block. */
  lemma CycleStart(a: int, b: int, g: int, n: int, bg: int, u: int, w: int, i: int)
    requires Geometry(a, b, g, n, bg, u, w) && 0 <= i < g
    ensures i < b && (a + i) % g == i
  {
    assert a == g * (n - bg) by { assert g * (n - bg) == g * n - g * bg; }
    ModParts(a + i, g, n - bg, i);
    SignOfProduct(g, bg);
    assert bg >= 1;
    SignOfProduct(g, bg);
  }

  /** The argument vector with one segment replaced. */
  ghost predicate Segment<T>(args: seq<T>, was: seq<T>, from: int, to: int, s: seq<T>) {
    0 <= from <= to <= |was| && |s| == to - from && args == was[..from] + s + was[to..]
  }

  /** One swap in the array is one swap in the segment. */
  method SwapInSegment<T>(nargv: array<T>, ghost was: seq<T>, ghost from: int, ghost to: int, ghost s: seq<T>, pos: int, cstart: int)
    requires nargv.Length == |was| && 0 <= from <= pos < to && from <= cstart < to
    requires Segment(nargv[..], was, from, to, s)
    modifies nargv
    ensures Segment(nargv[..], was, from, to, Swap(s, pos - from, cstart - from))
  {
    var swap := nargv[pos];
    nargv[pos] := nargv[cstart];
    nargv[cstart] := swap;
  }

  lemma CycleNext<T>(s: seq<T>, c: int, a: int, b: int, j: nat)
    requires a >= 1 && b >= 1 && |s| == a + b && 0 <= c < a + b
    ensures Cycle(s, c, a, b, j + 1) == Swap(Cycle(s, c, a, b, j), Pos(c, a, b, j + 1), c)
  {
  }

  /** The inner loop: one cycle of swaps. */
  method RunCycle<T>(nargv: array<T>, ghost was: seq<T>, nonoptStart: int, nonoptEnd: int, optEnd: int,
                     i: int, cyclelen: int, ghost start: seq<T>)
    requires 0 <= nonoptStart < nonoptEnd < optEnd <= |was| && 0 <= i < optEnd - nonoptEnd && cyclelen >= 0
    requires nargv.Length == |was| && |start| == optEnd - nonoptStart
    requires Segment(nargv[..], was, nonoptStart, optEnd, start)
    modifies nargv
    ensures Segment(nargv[..], was, nonoptStart, optEnd,
                    Cycle(start, nonoptEnd - nonoptStart + i, nonoptEnd - nonoptStart, optEnd - nonoptEnd, cyclelen))
  {
    var nnonopts, nopts := nonoptEnd - nonoptStart, optEnd - nonoptEnd;
    var cstart := nonoptEnd + i;
    var pos := cstart;
    var j := 0;
    ghost var c := nnonopts + i;
    ghost var now := start;
    PosStart(c, nnonopts, nopts);
    assert now == Cycle(start, c, nnonopts, nopts, 0);
    hide Segment, Pos, Cycle, Swap;
    while j < cyclelen
      invariant 0 <= j <= cyclelen && pos == nonoptStart + Pos(c, nnonopts, nopts, j)
      invariant now == Cycle(start, c, nnonopts, nopts, j)
      invariant Segment(nargv[..], was, nonoptStart, optEnd, now)
    {
      PosNext(c, nnonopts, nopts, j);
      if pos >= nonoptEnd {
        pos := pos - nnonopts;
      } else {
        pos := pos + nopts;
      }
      SwapInSegment(nargv, was, nonoptStart, optEnd, now, pos, cstart);
      CycleNext(start, c, nnonopts, nopts, j);
      now := Swap(now, pos - nonoptStart, c);
      j := j + 1;
    }
  }

  lemma DoneStart<T>(s: seq<T>, a: int, b: int, g: int)
    requires a >= 1 && b >= 1 && g >= 1 && |s| == a + b
    ensures Done(s, s, a, b, g, 0)
  {
  }

  /** The outer loop: one cycle for each residue class of the gcd. */
  method RunCycles<T>(nargv: array<T>, ghost was: seq<T>, nonoptStart: int, nonoptEnd: int, optEnd: int,
                      ncycle: int, cyclelen: int, ghost seg: seq<T>, ghost bg: int, ghost u: int, ghost w: int)
    requires 0 <= nonoptStart < nonoptEnd < optEnd <= |was| && nargv.Length == |was|
    requires |seg| == optEnd - nonoptStart && Segment(nargv[..], was, nonoptStart, optEnd, seg)
    requires ncycle >= 1 && cyclelen >= 1
    requires Geometry(nonoptEnd - nonoptStart, optEnd - nonoptEnd, ncycle, cyclelen, bg, u, w)
    modifies nargv
    ensures Segment(nargv[..], was, nonoptStart, optEnd, Exchanged(seg, nonoptEnd - nonoptStart))
  {
    ghost var a, b := nonoptEnd - nonoptStart, optEnd - nonoptEnd;
    ghost var now := seg;
    DoneStart(seg, a, b, ncycle);
    hide Geometry, Segment, Cycle, Done, Exchanged;
    var i := 0;
    while i < ncycle
      invariant 0 <= i <= ncycle && |now| == a + b
      invariant Segment(nargv[..], was, nonoptStart, optEnd, now)
      invariant Done(seg, now, a, b, ncycle, i)
    {
      CycleStart(a, b, ncycle, cyclelen, bg, u, w, i);
      RunCycle(nargv, was, nonoptStart, nonoptEnd, optEnd, i, cyclelen, now);
      CycleDone(seg, now, a, b, ncycle, cyclelen, bg, u, w, i);
      now := Cycle(now, a + i, a, b, cyclelen);
      i := i + 1;
    }
    AllDone(seg, now, a, b, ncycle);
  }

  lemma SegmentExchanged<T>(args: seq<T>, was: seq<T>, from: int, mid: int, to: int, seg: seq<T>)
    requires 0 <= from < mid < to <= |was| && seg == was[from..to]
    requires Segment(args, was, from, to, Exchanged(seg, mid - from))
    ensures args == was[..from] + was[mid..to] + was[from..mid] + was[to..]
  {
    assert Exchanged(seg, mid - from) == was[mid..to] + was[from..mid];
  }

  /** Exchanges nargv[nonoptStart..nonoptEnd] with nargv[nonoptEnd..optEnd], in place, keeping the order
      within each block; nothing outside the two blocks changes. */
  method PermuteArgs<T>(nonoptStart: int, nonoptEnd: int, optEnd: int, nargv: array<T>)
    requires 0 <= nonoptStart < nonoptEnd < optEnd <= nargv.Length
    modifies nargv
    ensures nargv[..] == old(nargv[..])[..nonoptStart] + old(nargv[..])[nonoptEnd..optEnd]
                       + old(nargv[..])[nonoptStart..nonoptEnd] + old(nargv[..])[optEnd..]
  {
    ghost var was := nargv[..];
    ghost var seg := was[nonoptStart..optEnd];
    var nnonopts := nonoptEnd - nonoptStart;
    var nopts := optEnd - nonoptEnd;
    var ncycle, u, v := Gcd(nnonopts, nopts);
    var cyclelen := (optEnd - nonoptStart) / ncycle;
    ghost var bg := MakeGeometry(nnonopts, nopts, ncycle, cyclelen, u, v);
    assert cyclelen >= 1;
    assert Segment(nargv[..], was, nonoptStart, optEnd, seg);
    hide Geometry, Segment, Divides, Combination, Exchanged;
    RunCycles(nargv, was, nonoptStart, nonoptEnd, optEnd, ncycle, cyclelen, seg, bg, v - u, u);
    SegmentExchanged(nargv[..], was, nonoptStart, nonoptEnd, optEnd, seg);
  }
}
