/** The Boyer-Moore search of inc/utils/strmatch.h: its three tables and the search loop. */
module BoyerMoore {
  import opened Matching

  // ----- what the tables mean

  /** k is the length of the longest common suffix of p[..i + 1] and p. */
  predicate IsSuffixLength(p: seq<nat>, i: int, k: int)
    requires 0 <= i < |p|
  {
    && 0 <= k <= i + 1
    && (forall x :: i - k < x <= i ==> p[x] == p[x + |p| - 1 - i])
    && (k == i + 1 || p[i - k] != p[|p| - 1 - k])
  }

  predicate IsSuffixTable(p: seq<nat>, suff: seq<int>) {
    |suff| == |p| && forall i :: 0 <= i < |p| ==> IsSuffixLength(p, i, suff[i])
  }

  /** Shifting p by s keeps everything right of position i in agreement with itself and puts a
      different character (or nothing) at position i. */
  predicate Plausible(p: seq<nat>, i: nat, s: int)
    requires i < |p| && s >= 1
  {
    && (forall k :: i < k < |p| && s <= k ==> p[k - s] == p[k])
    && (s <= i ==> p[i - s] != p[i])
  }

  /** s is the least shift that a mismatch at i leaves plausible. */
  predicate IsGoodShift(p: seq<nat>, i: nat, s: int)
    requires i < |p|
  {
    && 1 <= s <= |p| && Plausible(p, i, s)
    && forall s' :: 1 <= s' < s ==> !Plausible(p, i, s')
  }

  predicate IsGoodTable(p: seq<nat>, good: seq<int>) {
    |good| == |p| && forall i :: 0 <= i < |p| ==> IsGoodShift(p, i, good[i])
  }

  /** d is the distance from the last position of p back to the nearest earlier c, or |p|. */
  predicate IsBadShift(p: seq<nat>, c: nat, d: int) {
    && 1 <= d <= |p|
    && (d < |p| ==> p[|p| - 1 - d] == c)
    && (forall x :: |p| - 1 - d < x < |p| - 1 && 0 <= x ==> p[x] != c)
  }

  predicate IsBadTable(p: seq<nat>, bad: seq<int>) {
    forall c :: 0 <= c < |bad| ==> IsBadShift(p, c, bad[c])
  }

  // ----- the suffix table

  /** The window (g, f]: p agrees there with itself shifted to the end, and g is a mismatch. */
  ghost predicate Window(p: seq<nat>, f: int, g: int) {
    && -1 <= g <= f && 0 <= f < |p| - 1
    && (forall x :: g < x <= f ==> p[x] == p[x + |p| - 1 - f])
  }

  /** Inside the window the value is copied from the already computed mirror position. */
  lemma CopiedSuffix(p: seq<nat>, f: int, g: int, i: int, k: int)
    requires Window(p, f, g) && g < i < f
    requires IsSuffixLength(p, i + |p| - 1 - f, k) && k < i - g
    ensures IsSuffixLength(p, i, k)
  {
    var j := i + |p| - 1 - f;
    forall x | i - k < x <= i ensures p[x] == p[x + |p| - 1 - i] {
      assert p[x] == p[x + |p| - 1 - f];
    }
    assert p[i - k] == p[j - k];
  }

  /** When the mirror value reaches the window's end, the window carries over to i. */
  lemma ReusedWindow(p: seq<nat>, f: int, g: int, i: int, k: int)
    requires Window(p, f, g) && g < i < f
    requires IsSuffixLength(p, i + |p| - 1 - f, k) && k >= i - g
    ensures Window(p, i, g)
  {
    var j := i + |p| - 1 - f;
    forall x | g < x <= i ensures p[x] == p[x + |p| - 1 - i] {
      var y := x + |p| - 1 - f;
      assert p[x] == p[y] && p[y] == p[y + |p| - 1 - j];
    }
  }

  lemma WindowIsSuffix(p: seq<nat>, i: int, g: int)
    requires Window(p, i, g) && (g < 0 || p[g] != p[g + |p| - 1 - i])
    ensures IsSuffixLength(p, i, i - g)
  {
  }

  /** The character loop of calc_suffixes: grows the window at i to the left as far as it goes. */
  method GrowWindow(p: seq<nat>, i: nat, start: int) returns (g: int)
    requires i < |p| - 1 && Window(p, i, start)
    ensures Window(p, i, g) && IsSuffixLength(p, i, i - g)
  {
    g := start;
    var q := |p| - 1 - i;
    while g >= 0 && p[g] == p[g + q]
      invariant Window(p, i, g)
    {
      g := g - 1;
    }
    WindowIsSuffix(p, i, g);
  }

  method CalcSuffixes(p: seq<nat>, suff: array<int>)
    requires |p| >= 1 && suff.Length == |p|
    modifies suff
    ensures IsSuffixTable(p, suff[..])
  {
    var m := |p|;
    var f := 0;
    var g := m - 1;
    suff[g] := m;
    assert IsSuffixLength(p, m - 1, suff[m - 1]);
    hide IsSuffixLength;
    var i := m - 2;
    while i >= 0
      invariant -1 <= i <= m - 2
      invariant forall x :: i < x < m ==> IsSuffixLength(p, x, suff[x])
      invariant if i == m - 2 then f == 0 && g == m - 1 else i < f && Window(p, f, g)
    {
      var j := i + m - 1 - f;
      if i > g && suff[j] < i - g {
        CopiedSuffix(p, f, g, i, suff[j]);
        suff[i] := suff[j];
      } else {
        if i > g { ReusedWindow(p, f, g, i, suff[j]); }
        if i < g {
          g := i;
        }
        f := i;
        g := GrowWindow(p, i, g);
        suff[i] := f - g;
      }
      i := i - 1;
    }
  }

  // ----- the good-suffix table

  /** p agrees with itself shifted by s (1 <= s <= |p|). */
  predicate IsPeriod(p: seq<nat>, s: int) {
    1 <= s <= |p| && forall k :: s <= k < |p| ==> p[k - s] == p[k]
  }

  /** A prefix that is also a suffix shows in the table as a full entry. */
  lemma PeriodFromSuffix(p: seq<nat>, i: int, k: int)
    requires 0 <= i < |p| - 1 && IsSuffixLength(p, i, k)
    ensures k == i + 1 <==> IsPeriod(p, |p| - 1 - i)
  {
    var s := |p| - 1 - i;
    if k == i + 1 {
      forall x | s <= x < |p| ensures p[x - s] == p[x] {
        var y := x - s;
        assert p[y] == p[y + |p| - 1 - i];
      }
    } else {
      var x := i - k + s;
      assert p[x - s] != p[x];
    }
  }

  /** s is the least period beyond j. */
  predicate LeastPeriodAfter(p: seq<nat>, j: int, s: int) {
    j < s && IsPeriod(p, s) && forall s' :: j < s' < s ==> !IsPeriod(p, s')
  }

  /** The part of the table filled from the borders of the pattern: least periods. */
  method FillPeriods(p: seq<nat>, suff: seq<int>, good: array<int>)
    requires |p| >= 1 && IsSuffixTable(p, suff) && good.Length == |p|
    modifies good
    ensures forall x :: 0 <= x < |p| ==> LeastPeriodAfter(p, x, good[x])
  {
    var m := |p|;
    var i := 0;
    while i < m
      invariant 0 <= i <= m
      invariant forall x :: 0 <= x < i ==> good[x] == m
    {
      good[i] := m;
      i := i + 1;
    }
    var j := 0;
    i := m - 1;
    while i >= 0
      invariant -1 <= i <= m - 1 && 0 <= j <= m - 1
      invariant forall x :: 0 <= x < j ==> LeastPeriodAfter(p, x, good[x])
      invariant forall x :: j <= x < m ==> good[x] == m
      invariant forall s :: j < s < m - 1 - i ==> !IsPeriod(p, s)
    {
      assert IsSuffixLength(p, i, suff[i]);
      if i < m - 1 { PeriodFromSuffix(p, i, suff[i]); }
      if suff[i] == i + 1 {
        var k := m - 1 - i;
        while j < k
          invariant 0 <= j <= m - 1
          invariant forall x :: 0 <= x < j ==> LeastPeriodAfter(p, x, good[x])
          invariant forall x :: j <= x < m ==> good[x] == m
          invariant forall s :: j < s < k ==> !IsPeriod(p, s)
        {
          if good[j] == m {
            good[j] := k;
          }
          j := j + 1;
        }
      }
      i := i - 1;
    }
    assert IsPeriod(p, m);
  }

  /** Shift s is plausible at i either because position i falls off the pattern and s is a period, or
      because the suffix right of i reappears s places earlier and no longer. */
  lemma PlausibleIff(p: seq<nat>, i: nat, s: int, k: int)
    requires i < |p| && 1 <= s < |p| && IsSuffixLength(p, |p| - 1 - s, k)
    ensures s <= i ==> (Plausible(p, i, s) <==> k == |p| - 1 - i)
    ensures s > i ==> (Plausible(p, i, s) <==> IsPeriod(p, s))
    ensures k == |p| - 1 - i ==> Plausible(p, i, s) && s <= i + 1
  {
    var e := |p| - 1 - s;
    var len := |p| - 1 - i;
    if k == len {
      forall x | i < x < |p| && s <= x ensures p[x - s] == p[x] {
        var y := x - s;
        assert e - k < y <= e;
        assert p[y] == p[y + |p| - 1 - e];
      }
    }
    if s <= i {
      if k < len {
        var x := e - k + s;
        assert p[x - s] != p[x];
      } else if k > len {
        var y := i - s;
        assert p[y] == p[y + |p| - 1 - e];
      }
    }
  }

  method CalcGoodShift(p: seq<nat>, good: array<int>)
    requires |p| >= 1 && good.Length == |p|
    modifies good
    ensures IsGoodTable(p, good[..])
  {
    var m := |p|;
    var suff := new int[m];
    CalcSuffixes(p, suff);
    FillPeriods(p, suff[..], good);
    ghost var table, periods := suff[..], good[..];
    var i := 0;
    while i <= m - 2
      invariant 0 <= i <= m - 1
      invariant suff[..] == table
      invariant forall x :: 0 <= x < m ==> Best(p, table, periods, x, i, good[x])
    {
      assert IsSuffixLength(p, i, suff[i]);
      good[m - 1 - suff[i]] := m - 1 - i;
      i := i + 1;
    }
    forall x | 0 <= x < m ensures IsGoodShift(p, x, good[x]) {
      BestIsGood(p, table, periods, x, good[x]);
    }
  }

  /** After the first n reappearances of suffixes, v is the shift of the latest one that fits
      position x, or still the period if none did. */
  ghost predicate Best(p: seq<nat>, suff: seq<int>, periods: seq<int>, x: int, n: int, v: int)
    requires |suff| == |periods| == |p| && 0 <= x < |p| && 0 <= n < |p|
  {
    var len := |p| - 1 - x;
    || (v == periods[x] && forall i :: 0 <= i < n ==> suff[i] != len)
    || (&& 0 <= |p| - 1 - v < n && suff[|p| - 1 - v] == len
        && forall i :: |p| - 1 - v < i < n ==> suff[i] != len)
  }

  lemma BestIsGood(p: seq<nat>, suff: seq<int>, periods: seq<int>, x: int, v: int)
    requires |p| >= 1 && IsSuffixTable(p, suff) && |periods| == |p| && 0 <= x < |p|
    requires LeastPeriodAfter(p, x, periods[x])
    requires Best(p, suff, periods, x, |p| - 1, v)
    ensures IsGoodShift(p, x, v)
  {
    var m := |p|;
    forall s | 1 <= s < m
      ensures s <= x ==> (Plausible(p, x, s) <==> suff[m - 1 - s] == m - 1 - x)
      ensures s > x ==> (Plausible(p, x, s) <==> IsPeriod(p, s))
      ensures suff[m - 1 - s] == m - 1 - x ==> Plausible(p, x, s) && s <= x + 1
    {
      assert IsSuffixLength(p, m - 1 - s, suff[m - 1 - s]);
      PlausibleIff(p, x, s, suff[m - 1 - s]);
    }
    assert Plausible(p, x, m);
  }

  // ----- the bad-character table

  method CalcBadChar(p: seq<nat>, bad: array<int>)
    requires |p| >= 1 && forall i :: 0 <= i < |p| ==> p[i] < bad.Length
    modifies bad
    ensures IsBadTable(p, bad[..])
  {
    var m1 := |p| - 1;
    var i := 0;
    while i < bad.Length
      invariant 0 <= i <= bad.Length
      invariant forall c :: 0 <= c < i ==> bad[c] == |p|
    {
      bad[i] := |p|;
      i := i + 1;
    }
    i := 0;
    while i < m1
      invariant 0 <= i <= m1
      invariant forall c :: 0 <= c < bad.Length ==>
        && m1 - i < bad[c] <= |p|
        && (bad[c] < |p| ==> p[m1 - bad[c]] == c)
        && (forall x :: m1 - bad[c] < x < i && 0 <= x ==> p[x] != c)
    {
      bad[p[i]] := m1 - i;
      i := i + 1;
    }
  }

  // ----- the search

  /** After an attempt at j that stopped at i (-1: a match), only plausible shifts can be matches. */
  lemma OccurrenceIsPlausible(p: seq<nat>, t: seq<nat>, j: nat, i: int, d: nat)
    requires |p| >= 1 && d >= 1 && j + |p| <= |t| && -1 <= i < |p|
    requires forall k :: i < k < |p| ==> p[k] == t[j + k]
    requires i >= 0 ==> p[i] != t[j + i]
    requires Occurs(p, t, j + d)
    ensures Plausible(p, if i < 0 then 0 else i, d)
  {
    var i' := if i < 0 then 0 else i;
    forall k | i' < k < |p| && d <= k ensures p[k - d] == p[k] {
      assert t[(j + d) + (k - d)] == p[k - d];
    }
    if d <= i {
      assert t[(j + d) + (i - d)] == p[i - d];
    }
  }

  lemma GoodShiftSafe(p: seq<nat>, t: seq<nat>, j: nat, i: int, s: int)
    requires |p| >= 1 && j + |p| <= |t| && -1 <= i < |p|
    requires forall k :: i < k < |p| ==> p[k] == t[j + k]
    requires i >= 0 ==> p[i] != t[j + i]
    requires IsGoodShift(p, if i < 0 then 0 else i, s)
    ensures forall j' :: j < j' < j + s ==> !Occurs(p, t, j')
  {
    forall j' | j < j' < j + s && Occurs(p, t, j') ensures false {
      OccurrenceIsPlausible(p, t, j, i, j' - j);
    }
  }

  lemma BadCharSafe(p: seq<nat>, t: seq<nat>, j: nat, i: int, d: int)
    requires |p| >= 1 && j + |p| <= |t| && 0 <= i < |p|
    requires IsBadShift(p, t[j + i], d)
    ensures forall j' :: j < j' < j + d - |p| + 1 + i ==> !Occurs(p, t, j')
  {
    forall j' | j < j' < j + d - |p| + 1 + i ensures !Occurs(p, t, j') {
      var x := i - (j' - j);
      assert p[x] != t[j + i];
      assert j' + x == j + i;
    }
  }

  /** An attempt of the search loop at j that stopped at i, with the two table entries it looks up. */
  ghost predicate Attempt(p: seq<nat>, t: seq<nat>, j: nat, i: int, good: int, bad: int) {
    && |p| >= 1 && j + |p| <= |t| && -1 <= i < |p|
    && (forall k :: i < k < |p| ==> p[k] == t[j + k])
    && (i >= 0 ==> p[i] != t[j + i] && IsBadShift(p, t[j + i], bad))
    && IsGoodShift(p, if i < 0 then 0 else i, good)
  }

  lemma AttemptSafe(p: seq<nat>, t: seq<nat>, j: nat, i: int, good: int, bad: int)
    requires Attempt(p, t, j, i, good, bad)
    ensures good >= 1 && (Occurs(p, t, j) <==> i < 0)
    ensures forall j' :: j < j' < j + good ==> !Occurs(p, t, j')
    ensures i >= 0 ==> forall j' :: j < j' < j + bad - |p| + 1 + i ==> !Occurs(p, t, j')
  {
    GoodShiftSafe(p, t, j, i, good);
    if i >= 0 {
      BadCharSafe(p, t, j, i, bad);
      hide IsGoodShift, IsBadShift;
    }
  }

  /** The shift the attempt ends in neither skips nor repeats an occurrence. */
  lemma AttemptComplete(p: seq<nat>, t: seq<nat>, j: nat, i: int, good: int, bad: int, shift: int)
    requires Attempt(p, t, j, i, good, bad)
    requires shift == good || (i >= 0 && shift == bad - |p| + 1 + i && good < shift)
    ensures shift >= 1
    ensures Occurrences(p, t, j + shift) == Occurrences(p, t, j) + (if i < 0 then [j] else [])
  {
    hide Attempt, Occurs, Occurrences;
    AttemptSafe(p, t, j, i, good, bad);
    OccurrencesStep(p, t, j);
    OccurrencesSkip(p, t, j + 1, j + shift);
  }

  /** The search object: the pattern and its two tables over an alphabet of the given size. */
  class Searcher {
    const pat: seq<nat>
    const badChar: array<int>
    const goodShift: array<int>

    ghost predicate Valid()
      reads badChar, goodShift
    {
      && |pat| >= 1 && badChar != goodShift
      && IsBadTable(pat, badChar[..]) && IsGoodTable(pat, goodShift[..])
    }

    constructor (p: seq<nat>, alphabet: nat)
      requires |p| >= 1 && forall i :: 0 <= i < |p| ==> p[i] < alphabet
      ensures Valid() && pat == p && badChar.Length == alphabet
      ensures fresh(badChar) && fresh(goodShift)
    {
      var good := new int[|p|];
      var bad := new int[alphabet];
      CalcGoodShift(p, good);
      CalcBadChar(p, bad);
      pat, badChar, goodShift := p, bad, good;
    }

    /** All offsets at which the pattern occurs in the text, overlapping ones included. */
    method MatchAll(text: seq<nat>) returns (r: seq<nat>)
      requires Valid() && forall i :: 0 <= i < |text| ==> text[i] < badChar.Length
      ensures r == Occurrences(pat, text, |text| + 1)
    {
      hide Occurrences, IsGoodShift, IsBadShift;
      r := [];
      OccurrencesNone(pat, text);
      var m := |pat|;
      var j, n := 0, |text| - m;
      while j <= n
        invariant 0 <= j
        invariant r == Occurrences(pat, text, j)
        decreases n - j
      {
        var i := m - 1;
        while i >= 0 && pat[i] == text[i + j]
          invariant -1 <= i < m
          invariant forall k :: i < k < m ==> pat[k] == text[j + k]
        {
          i := i - 1;
        }
        if i < 0 {
          AttemptComplete(pat, text, j, i, goodShift[0], 0, goodShift[0]);
          r := r + [j];
          j := j + goodShift[0];
        } else {
          var bc := badChar[text[i + j]] - m + 1 + i;
          var shift := if goodShift[i] < bc then bc else goodShift[i];
          AttemptComplete(pat, text, j, i, goodShift[i], badChar[text[i + j]], shift);
          j := j + shift;
        }
      }
      if j <= |text| + 1 {
        OccurrencesSkip(pat, text, j, |text| + 1);
      } else {
        OccurrencesSkip(pat, text, |text| + 1, j);
      }
    }
  }
}
