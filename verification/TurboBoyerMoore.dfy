/** The turbo variant of the Boyer-Moore search in inc/utils/strmatch.h, which remembers a stretch of text
    that the last shift left in agreement with the pattern. It reports only occurrences, but its last
    rule can skip one: the patterns that are found wherever they occur in any text are characterised
    exactly, by a condition on the pattern and its tables. */
module TurboBoyerMoore {
  import opened Matching
  import opened BoyerMoore

  // ----- the search as a function

  predicate Fits(m: int, shift: int, u: int) {
    0 <= u && (u > 0 ==> 1 <= shift && u + shift <= m)
  }

  /** The comparison loop from position i down, jumping over what is remembered. */
  function Scan(p: seq<nat>, t: seq<nat>, j: nat, i: int, shift: int, u: int): (r: int)
    requires j + |p| <= |t| && -1 <= i < |p| && Fits(|p|, shift, u)
    ensures -1 <= r <= i
    decreases i + 1
  {
    if i >= 0 && p[i] == t[i + j] then
      Scan(p, t, j, if u != 0 && i - 1 == |p| - 1 - shift then i - 1 - u else i - 1, shift, u)
    else i
  }

  datatype Move = Move(shift: int, u: int)

  function Max(a: int, b: int): int { if a < b then b else a }

  /** The shift after an attempt that stopped at i, and how much to remember. */
  function MoveOn(m: int, good: int, bad: int, i: int, u: int): (r: Move)
    requires 1 <= good <= m && -1 <= i < m && 0 <= u
    ensures good <= r.shift && Fits(m, r.shift, r.u)
    ensures r.u > 0 ==> r.shift == good && r.u <= m - 1 - i
  {
    if i < 0 then Move(good, m - good)
    else
      var v := m - 1 - i;
      var turbo, bc := u - v, bad - m + 1 + i;
      var shift := Max(Max(turbo, bc), good);
      if shift == good then Move(shift, if m - shift < v then m - shift else v)
      else Move(if turbo < bc then Max(shift, u + 1) else shift, 0)
  }

  predicate TablesOk(p: seq<nat>, good: seq<int>, bad: seq<int>, t: seq<nat>) {
    && |p| >= 1 && IsGoodTable(p, good) && IsBadTable(p, bad)
    && forall i :: 0 <= i < |t| ==> t[i] < |bad|
  }

  function At(p: seq<nat>, good: seq<int>, bad: seq<int>, t: seq<nat>, j: nat, i: int, u: int): (r: Move)
    requires TablesOk(p, good, bad, t) && j + |p| <= |t| && -1 <= i < |p| && 0 <= u
    ensures r.shift >= 1 && Fits(|p|, r.shift, r.u)
  {
    MoveOn(|p|, good[if i < 0 then 0 else i], if i < 0 then 0 else bad[t[i + j]], i, u)
  }

  /** The offsets reported from j on. */
  function Search(p: seq<nat>, good: seq<int>, bad: seq<int>, t: seq<nat>, j: nat, shift: int, u: int): seq<nat>
    requires TablesOk(p, good, bad, t) && Fits(|p|, shift, u)
    decreases if j <= |t| then |t| - j else 0
  {
    if j + |p| > |t| then []
    else
      var i := Scan(p, t, j, |p| - 1, shift, u);
      var next := At(p, good, bad, t, j, i, u);
      (if i < 0 then [j] else []) + Search(p, good, bad, t, j + next.shift, next.shift, next.u)
  }

  /** An attempt at j stops at i and moves on by next. */
  ghost predicate Goes(p: seq<nat>, good: seq<int>, bad: seq<int>, t: seq<nat>, j: nat, shift: int, u: int, i: int, next: Move) {
    && TablesOk(p, good, bad, t) && Fits(|p|, shift, u) && j + |p| <= |t|
    && i == Scan(p, t, j, |p| - 1, shift, u) && next == At(p, good, bad, t, j, i, u)
  }

  lemma GoesOn(p: seq<nat>, good: seq<int>, bad: seq<int>, t: seq<nat>, j: nat, shift: int, u: int)
    returns (i: int, next: Move)
    requires TablesOk(p, good, bad, t) && Fits(|p|, shift, u) && j + |p| <= |t|
    ensures Goes(p, good, bad, t, j, shift, u, i, next)
    ensures -1 <= i < |p| && next.shift >= 1 && Fits(|p|, next.shift, next.u) && |p| >= 1
  {
    hide IsGoodTable, IsBadTable;
    i := Scan(p, t, j, |p| - 1, shift, u);
    next := At(p, good, bad, t, j, i, u);
  }

  /** The offsets reported from an attempt at j on: j itself if it is a match, then the rest. */
  ghost predicate Leads(found: bool, j: nat, here: seq<nat>, rest: seq<nat>) {
    here == if found then [j] + rest else rest
  }

  /** The offsets before an attempt at j and after it. */
  ghost predicate Adds(found: bool, j: nat, before: seq<nat>, after: seq<nat>) {
    after == if found then before + [j] else before
  }

  ghost predicate Splits(before: seq<nat>, rest: seq<nat>, whole: seq<nat>) { before + rest == whole }

  lemma SearchStep(p: seq<nat>, good: seq<int>, bad: seq<int>, t: seq<nat>, j: nat, shift: int, u: int, i: int, next: Move)
    requires Goes(p, good, bad, t, j, shift, u, i, next)
    ensures Leads(i < 0, j, Search(p, good, bad, t, j, shift, u), Search(p, good, bad, t, j + next.shift, next.shift, next.u))
  {
    hide TablesOk, Scan, At;
  }

  /** An attempt moves at most one offset from what is still ahead to what has been found. */
  lemma Handover(found: bool, j: nat, before: seq<nat>, here: seq<nat>, after: seq<nat>, rest: seq<nat>, whole: seq<nat>)
    requires Leads(found, j, here, rest) && Adds(found, j, before, after)
    ensures Splits(before, here, whole) <==> Splits(after, rest, whole)
  {
    assert before + ([j] + rest) == (before + [j]) + rest;
  }

  /** The comparison loop of turbo_matchall. */
  method Compare(pat: seq<nat>, text: seq<nat>, j: nat, shift: int, u: int) returns (i: int)
    requires |pat| >= 1 && j + |pat| <= |text| && Fits(|pat|, shift, u)
    ensures i == Scan(pat, text, j, |pat| - 1, shift, u)
  {
    var m := |pat|;
    i := m - 1;
    while i >= 0 && pat[i] == text[i + j]
      invariant -1 <= i < m
      invariant Scan(pat, text, j, i, shift, u) == Scan(pat, text, j, m - 1, shift, u)
    {
      i := i - 1;
      if u != 0 && i == m - 1 - shift {
        i := i - u;
      }
    }
  }

  /** The end of an attempt of turbo_matchall that stopped at i. */
  method Advance(s: Searcher, text: seq<nat>, j: nat, i: int, u: int, ghost p: seq<nat>, ghost good: seq<int>, ghost bad: seq<int>)
    returns (shift: int, u': int)
    requires s.Valid() && p == s.pat && good == s.goodShift[..] && bad == s.badChar[..]
    requires TablesOk(p, good, bad, text) && j + |p| <= |text| && -1 <= i < |p| && 0 <= u
    ensures Move(shift, u') == At(p, good, bad, text, j, i, u)
  {
    hide IsGoodShift, IsBadShift;
    var m := |s.pat|;
    if i < 0 {
      shift := s.goodShift[0];
      u' := m - shift;
    } else {
      var v := m - 1 - i;
      var turbo := u - v;
      var bc := s.badChar[text[i + j]] - m + 1 + i;
      shift := Max(turbo, bc);
      shift := Max(shift, s.goodShift[i]);
      if shift == s.goodShift[i] {
        u' := if m - shift < v then m - shift else v;
      } else {
        if turbo < bc {
          shift := Max(shift, u + 1);
        }
        u' := 0;
      }
    }
  }

  /** One attempt of turbo_matchall at j. */
  method OneAttempt(s: Searcher, text: seq<nat>, j: nat, shift: int, u: int, r: seq<nat>,
                    ghost p: seq<nat>, ghost good: seq<int>, ghost bad: seq<int>, ghost whole: seq<nat>)
    returns (j': nat, shift': int, u': int, r': seq<nat>)
    requires s.Valid() && p == s.pat && good == s.goodShift[..] && bad == s.badChar[..]
    requires TablesOk(p, good, bad, text) && j + |p| <= |text| && Fits(|p|, shift, u)
    requires Splits(r, Search(p, good, bad, text, j, shift, u), whole)
    ensures j < j' && Fits(|p|, shift', u') && Splits(r', Search(p, good, bad, text, j', shift', u'), whole)
  {
    assert |p| >= 1 && 0 <= u;
    hide TablesOk, Fits, Scan, At, Search, Splits, Leads, IsGoodTable, IsBadTable;
    var i := Compare(s.pat, text, j, shift, u);
    shift', u' := Advance(s, text, j, i, u, p, good, bad);
    SearchStep(p, good, bad, text, j, shift, u, i, Move(shift', u'));
    r' := if i < 0 then r + [j] else r;
    j' := j + shift';
    Handover(i < 0, j, r, Search(p, good, bad, text, j, shift, u), r', Search(p, good, bad, text, j', shift', u'), whole);
  }

  /** turbo_matchall. */
  method TurboMatchAll(s: Searcher, text: seq<nat>) returns (r: seq<nat>)
    requires s.Valid() && forall i :: 0 <= i < |text| ==> text[i] < s.badChar.Length
    ensures r == Search(s.pat, s.goodShift[..], s.badChar[..], text, 0, |s.pat|, 0)
    ensures forall a :: 0 <= a < |r| ==> Occurs(s.pat, text, r[a])
    ensures forall a, b :: 0 <= a < b < |r| ==> r[a] < r[b]
    ensures !MissProne(s.pat, s.goodShift[..], s.badChar[..]) ==> r == Occurrences(s.pat, text, |text| + 1)
  {
    ghost var p, good, bad := s.pat, s.goodShift[..], s.badChar[..];
    assert TablesOk(p, good, bad, text);
    ghost var whole := Search(p, good, bad, text, 0, |p|, 0);
    assert Splits([], whole, whole);
    hide TablesOk, At, Scan, Search, IsGoodTable, IsBadTable;
    r := [];
    var j: nat, u: int, shift: int := 0, 0, |s.pat|;
    while j <= |text| - |s.pat|
      invariant Fits(|p|, shift, u)
      invariant Splits(r, Search(p, good, bad, text, j, shift, u), whole)
      decreases |text| - |p| - j
    {
      hide Splits, Fits;
      j, shift, u, r := OneAttempt(s, text, j, shift, u, r, p, good, bad, whole);
    }
    SearchEnd(p, good, bad, text, j, shift, u);
    assert r == whole;
    hide Splits, Fits, Occurs, Occurrences, MissProne;
    TurboResult(p, good, bad, text);
  }

  lemma SearchEnd(p: seq<nat>, good: seq<int>, bad: seq<int>, t: seq<nat>, j: nat, shift: int, u: int)
    requires TablesOk(p, good, bad, t) && Fits(|p|, shift, u) && j + |p| > |t|
    ensures Search(p, good, bad, t, j, shift, u) == []
  {
  }

  // ----- what is remembered

  /** The stretch of length u that ends shift places before the end of the pattern agrees with the text,
      and the pattern's last u characters reappear there. */
  ghost predicate Memory(p: seq<nat>, t: seq<nat>, j: nat, shift: int, u: int) {
    && Fits(|p|, shift, u)
    && (u > 0 ==>
          && (forall k :: |p| - u <= k < |p| ==> p[k - shift] == p[k])
          && (forall k :: |p| - shift - u <= k < |p| - shift ==> j + k < |t| && p[k] == t[j + k]))
  }

  /** The character before the remembered stretch differs from the one before the pattern's last u. */
  ghost predicate Strong(p: seq<nat>, shift: int, u: int)
    requires Fits(|p|, shift, u)
  {
    u > 0 ==> u + shift < |p| && p[|p| - 1 - u - shift] != p[|p| - 1 - u]
  }

  /** Jumping over the remembered stretch does not change where the comparison stops. */
  lemma {:induction false} ScanStops(p: seq<nat>, t: seq<nat>, j: nat, i: int, shift: int, u: int)
    requires j + |p| <= |t| && -1 <= i < |p| && Memory(p, t, j, shift, u)
    requires forall k :: i < k < |p| ==> p[k] == t[j + k]
    ensures var r := Scan(p, t, j, i, shift, u);
      && (forall k :: r < k < |p| ==> p[k] == t[j + k]) && (r >= 0 ==> p[r] != t[j + r])
    decreases i + 1
  {
    if i >= 0 && p[i] == t[i + j] {
      ScanStops(p, t, j, if u != 0 && i - 1 == |p| - 1 - shift then i - 1 - u else i - 1, shift, u);
    }
  }

  /** The turbo shift: what was remembered excludes every smaller one. */
  lemma TurboSafe(p: seq<nat>, t: seq<nat>, j: nat, shift: int, u: int, i: int, d: int)
    requires j + |p| <= |t| && Memory(p, t, j, shift, u) && 0 <= i < |p| && p[i] != t[j + i]
    requires 1 <= d < u - (|p| - 1 - i)
    ensures !Occurs(p, t, j + d)
  {
    // the same character of the pattern meets two different characters of the text, one shift apart
    var k := i - d;
    assert p[k] == p[k - shift];
    assert p[i] == p[i - shift] == t[j + (i - shift)];
    assert t[(j + d) + k] != t[(j + d) + (k - shift)];
  }

  /** Larger shifts up to u are excluded as well if the memory is strong. */
  lemma RaiseSafe(p: seq<nat>, t: seq<nat>, j: nat, shift: int, u: int, i: int, d: int)
    requires j + |p| <= |t| && Memory(p, t, j, shift, u) && Strong(p, shift, u) && 0 <= i < |p|
    requires forall k :: i < k < |p| ==> p[k] == t[j + k]
    requires 1 <= d <= u && u - (|p| - 1 - i) < d
    ensures !Occurs(p, t, j + d)
  {
    // two different characters of the pattern meet the same character of the text, one shift apart
    var k := |p| - 1 - u;
    assert p[k] != p[k - shift];
    assert p[k + d] == p[k + d - shift] == t[j + (k + d - shift)];
    assert t[(j + d) + k] == t[(j + d) + (k - shift)];
  }

  // ----- one attempt

  /** The shift s = good of an attempt that stopped at i leaves u characters remembered. */
  lemma GoodShiftRemembers(p: seq<nat>, t: seq<nat>, j: nat, i: int, s: int, u: int)
    requires |p| >= 1 && j + |p| <= |t| && -1 <= i < |p| && IsGoodShift(p, if i < 0 then 0 else i, s)
    requires forall k :: i < k < |p| ==> p[k] == t[j + k]
    requires 0 <= u <= |p| - s && u <= |p| - 1 - i
    ensures Memory(p, t, j + s, s, u)
  {
    var i' := if i < 0 then 0 else i;
    assert Plausible(p, i', s);
    forall k | |p| - u <= k < |p| ensures p[k - s] == p[k] {
      assert i' < k && s <= k;
    }
    forall k | |p| - s - u <= k < |p| - s ensures j + s + k < |t| && p[k] == t[(j + s) + k] {
      assert p[(k + s) - s] == p[k + s] == t[j + (k + s)];
    }
  }

  lemma NothingRemembered(p: seq<nat>, t: seq<nat>, j: nat, shift: int)
    ensures Memory(p, t, j, shift, 0) && Strong(p, shift, 0)
  {
  }

  lemma NextMemory(p: seq<nat>, good: seq<int>, bad: seq<int>, t: seq<nat>, j: nat, shift: int, u: int, i: int, next: Move)
    requires Goes(p, good, bad, t, j, shift, u, i, next) && Memory(p, t, j, shift, u)
    ensures Memory(p, t, j + next.shift, next.shift, next.u)
  {
    var i' := if i < 0 then 0 else i;
    assert IsGoodShift(p, i', good[i']);
    ScanStops(p, t, j, |p| - 1, shift, u);
    assert next.u > 0 ==> next.shift == good[i'] && next.u <= |p| - good[i'] && next.u <= |p| - 1 - i;
    hide *;
    if next.u > 0 {
      GoodShiftRemembers(p, t, j, i, good[i'], next.u);
    } else {
      NothingRemembered(p, t, j + next.shift, next.shift);
    }
  }

  // ----- which patterns are missed somewhere

  /** A mismatch at i0 with text character c0 that ends in the good shift s. */
  predicate ByMismatch(p: seq<nat>, good: seq<int>, bad: seq<int>, s: int, i0: nat, c0: nat)
    requires i0 < |p| == |good| && c0 < |bad|
  {
    good[i0] == s && c0 != p[i0] && bad[c0] - (|p| - 1 - i0) <= s
  }

  /** A shift s that leaves a border of the pattern remembered, reaching back to its beginning; it comes
      after a match, or after a mismatch left of s. */
  predicate ReachesBack(p: seq<nat>, good: seq<int>, bad: seq<int>, s: int)
    requires |p| == |good|
  {
    && 1 <= s < |p| && IsPeriod(p, s)
    && (good[0] == s || exists i0: nat, c0: nat :: i0 < s && c0 < |bad| && ByMismatch(p, good, bad, s, i0, c0))
  }

  /** With a border of length |p| - s remembered, an attempt that stops at i raises its shift over an
      occurrence d further on. */
  predicate JumpsOver(p: seq<nat>, good: seq<int>, bad: seq<int>, s: int, i: int, d: int)
    requires |p| == |good|
  {
    var u := |p| - s;
    && 1 <= d <= u <= i < |p|
    && (forall k :: 0 <= k < u - d ==> p[k] == p[k + d])
    && p[i - d] != p[i] && (forall k :: i < k < |p| ==> p[k - d] == p[k])
    && p[i - d] < |bad| && bad[p[i - d]] > u && bad[p[i - d]] - (|p| - 1 - i) > good[i]
  }

  predicate MissProne(p: seq<nat>, good: seq<int>, bad: seq<int>)
    requires |p| == |good|
  {
    exists s, i, d :: 1 <= s < |p| && 1 <= i < |p| && 1 <= d < |p| && ReachesBack(p, good, bad, s) && JumpsOver(p, good, bad, s, i, d)
  }

  /** Where what is remembered comes from. */
  ghost predicate Source(p: seq<nat>, good: seq<int>, bad: seq<int>, shift: int, u: int)
    requires |p| == |good| && Fits(|p|, shift, u)
  {
    Strong(p, shift, u) || (u == |p| - shift && ReachesBack(p, good, bad, shift))
  }

  /** What is remembered either stops before the pattern's beginning, and the table put a different
      character there, or reaches back to it. */
  lemma NextSource(p: seq<nat>, good: seq<int>, bad: seq<int>, t: seq<nat>, j: nat, shift: int, u: int, i: int, next: Move)
    requires Goes(p, good, bad, t, j, shift, u, i, next) && Memory(p, t, j, shift, u)
    ensures Fits(|p|, next.shift, next.u) && Source(p, good, bad, next.shift, next.u)
  {
    var i' := if i < 0 then 0 else i;
    var s := good[i'];
    assert IsGoodShift(p, i', s);
    ScanStops(p, t, j, |p| - 1, shift, u);
    if next.u > 0 && next.u == |p| - s {
      forall k | s <= k < |p| ensures p[k - s] == p[k] {
        assert i' < k;
      }
      assert IsPeriod(p, s);
      assert i >= 0 ==> ByMismatch(p, good, bad, s, i, t[i + j]);
    }
  }

  lemma ScanAttempt(p: seq<nat>, good: seq<int>, bad: seq<int>, t: seq<nat>, j: nat, shift: int, u: int)
    requires TablesOk(p, good, bad, t) && j + |p| <= |t| && Memory(p, t, j, shift, u)
    ensures var i := Scan(p, t, j, |p| - 1, shift, u);
      Attempt(p, t, j, i, good[if i < 0 then 0 else i], if i < 0 then 0 else bad[t[i + j]])
  {
    ScanStops(p, t, j, |p| - 1, shift, u);
    hide IsGoodShift, IsBadShift, Scan;
  }

  /** An occurrence in the way of a raised shift, while a border is remembered, makes the pattern prone. */
  lemma RaiseShowsProne(p: seq<nat>, good: seq<int>, bad: seq<int>, t: seq<nat>, j: nat, shift: int, u: int, i: int, d: int)
    requires TablesOk(p, good, bad, t) && j + |p| <= |t| && Memory(p, t, j, shift, u) && 0 <= i < |p| && p[i] != t[j + i]
    requires forall k :: i < k < |p| ==> p[k] == t[j + k]
    requires u == |p| - shift && ReachesBack(p, good, bad, shift) && 1 <= d <= u && Occurs(p, t, j + d)
    requires bad[t[j + i]] > u && bad[t[j + i]] - (|p| - 1 - i) > good[i]
    ensures MissProne(p, good, bad)
  {
    assert forall k :: 0 <= k < u ==> p[k] == t[j + k];
    assert t[(j + d) + (i - d)] == p[i - d];
    forall k | 0 <= k < u - d ensures p[k] == p[k + d] {
      assert t[(j + d) + k] == p[k] && p[k + d] == t[j + (k + d)];
    }
    forall k | i < k < |p| ensures p[k - d] == p[k] {
      assert t[(j + d) + (k - d)] == p[k - d];
    }
    assert JumpsOver(p, good, bad, shift, i, d);
  }

  /** Unless the pattern is prone, the shift of an attempt skips no occurrence. */
  lemma ShiftSafe(p: seq<nat>, good: seq<int>, bad: seq<int>, t: seq<nat>, j: nat, shift: int, u: int, i: int, next: Move, d: int)
    requires Goes(p, good, bad, t, j, shift, u, i, next) && Memory(p, t, j, shift, u) && Source(p, good, bad, shift, u)
    requires 1 <= d < next.shift && !MissProne(p, good, bad)
    ensures !Occurs(p, t, j + d)
  {
    ScanAttempt(p, good, bad, t, j, shift, u);
    var i' := if i < 0 then 0 else i;
    var badAt := if i < 0 then 0 else bad[t[i + j]];
    AttemptSafe(p, t, j, i, good[i'], badAt);
    var v := |p| - 1 - i;
    hide Occurs, IsGoodTable, IsBadTable, Scan, MissProne, ReachesBack, Memory;
    if i >= 0 && good[i] <= d && badAt - |p| + 1 + i <= d {
      if d < u - v {
        TurboSafe(p, t, j, shift, u, i, d);
      } else if Strong(p, shift, u) {
        RaiseSafe(p, t, j, shift, u, i, d);
      } else if Occurs(p, t, j + d) {
        RaiseShowsProne(p, good, bad, t, j, shift, u, i, d);
      }
    }
  }

  // ----- whole searches

  /** Offsets from j on at which the pattern occurs, in increasing order. */
  ghost predicate Reported(p: seq<nat>, t: seq<nat>, j: nat, r: seq<nat>) {
    && (forall a :: 0 <= a < |r| ==> j <= r[a] && Occurs(p, t, r[a]))
    && (forall a, b :: 0 <= a < b < |r| ==> r[a] < r[b])
  }

  lemma ReportedMore(p: seq<nat>, t: seq<nat>, j: nat, j': nat, r: seq<nat>)
    requires j < j' && Reported(p, t, j', r)
    ensures forall here :: Leads(Occurs(p, t, j), j, here, r) ==> Reported(p, t, j, here)
  {
    hide Occurs;
  }

  /** Every offset reported is an occurrence, and they come in increasing order. */
  lemma {:induction false} SearchSound(p: seq<nat>, good: seq<int>, bad: seq<int>, t: seq<nat>, j: nat, shift: int, u: int)
    requires TablesOk(p, good, bad, t) && Memory(p, t, j, shift, u)
    ensures Reported(p, t, j, Search(p, good, bad, t, j, shift, u))
    decreases if j <= |t| then |t| - j else 0
  {
    assert |p| >= 1 && Fits(|p|, shift, u);
    if j + |p| <= |t| {
      hide *;
      var i, next := GoesOn(p, good, bad, t, j, shift, u);
      NextMemory(p, good, bad, t, j, shift, u, i, next);
      SearchSound(p, good, bad, t, j + next.shift, next.shift, next.u);
      GoesOccurs(p, good, bad, t, j, shift, u, i, next);
      ReportedMore(p, t, j, j + next.shift, Search(p, good, bad, t, j + next.shift, next.shift, next.u));
      SearchStep(p, good, bad, t, j, shift, u, i, next);
    } else {
      SearchEnd(p, good, bad, t, j, shift, u);
    }
  }

  lemma GoesOccurs(p: seq<nat>, good: seq<int>, bad: seq<int>, t: seq<nat>, j: nat, shift: int, u: int, i: int, next: Move)
    requires Goes(p, good, bad, t, j, shift, u, i, next) && Memory(p, t, j, shift, u)
    ensures Occurs(p, t, j) <==> i < 0
  {
    ScanStops(p, t, j, |p| - 1, shift, u);
  }

  ghost function Before(p: seq<nat>, t: seq<nat>, n: nat): seq<nat> { Occurrences(p, t, n) }

  /** Of a pattern that is not prone nothing is missed: before j nothing was, and from j on nothing is. */
  lemma {:induction false} SearchComplete(p: seq<nat>, good: seq<int>, bad: seq<int>, t: seq<nat>, j: nat, shift: int, u: int)
    requires TablesOk(p, good, bad, t) && !MissProne(p, good, bad) && Memory(p, t, j, shift, u) && Source(p, good, bad, shift, u)
    ensures Splits(Before(p, t, j), Search(p, good, bad, t, j, shift, u), Before(p, t, |t| + 1))
    decreases if j <= |t| then |t| - j else 0
  {
    assert |p| >= 1 && Fits(|p|, shift, u);
    hide *;
    if j + |p| > |t| {
      BeyondEnd(p, t, j);
      SearchEnd(p, good, bad, t, j, shift, u);
      NothingAhead(Before(p, t, j));
    } else {
      var i, next := GoesOn(p, good, bad, t, j, shift, u);
      NextMemory(p, good, bad, t, j, shift, u, i, next);
      NextSource(p, good, bad, t, j, shift, u, i, next);
      SearchComplete(p, good, bad, t, j + next.shift, next.shift, next.u);
      AttemptHandsOver(p, good, bad, t, j, shift, u, i, next, Before(p, t, |t| + 1));
    }
  }

  lemma AttemptHandsOver(p: seq<nat>, good: seq<int>, bad: seq<int>, t: seq<nat>, j: nat, shift: int, u: int,
                                           i: int, next: Move, whole: seq<nat>)
    requires Goes(p, good, bad, t, j, shift, u, i, next) && Memory(p, t, j, shift, u) && Source(p, good, bad, shift, u)
    requires !MissProne(p, good, bad)
    requires Splits(Before(p, t, j + next.shift), Search(p, good, bad, t, j + next.shift, next.shift, next.u), whole)
    ensures Splits(Before(p, t, j), Search(p, good, bad, t, j, shift, u), whole)
  {
    AttemptSkipsNothing(p, good, bad, t, j, shift, u, i, next);
    SearchStep(p, good, bad, t, j, shift, u, i, next);
    hide *;
    Handover(i < 0, j, Before(p, t, j), Search(p, good, bad, t, j, shift, u), Before(p, t, j + next.shift), Search(p, good, bad, t, j + next.shift, next.shift, next.u), whole);
  }

  lemma NothingAhead(before: seq<nat>)
    ensures Splits(before, [], before)
  {
  }

  lemma AttemptSkipsNothing(p: seq<nat>, good: seq<int>, bad: seq<int>, t: seq<nat>, j: nat, shift: int, u: int, i: int, next: Move)
    requires Goes(p, good, bad, t, j, shift, u, i, next) && Memory(p, t, j, shift, u) && Source(p, good, bad, shift, u)
    requires !MissProne(p, good, bad)
    ensures Adds(i < 0, j, Before(p, t, j), Before(p, t, j + next.shift))
  {
    assert next.shift >= 1;
    GoesOccurs(p, good, bad, t, j, shift, u, i, next);
    hide *;
    forall j' | j < j' < j + next.shift ensures !Occurs(p, t, j') {
      ShiftSafe(p, good, bad, t, j, shift, u, i, next, j' - j);
    }
    SkipTo(p, t, j, next.shift);
  }

  lemma SkipTo(p: seq<nat>, t: seq<nat>, j: nat, s: int)
    requires s >= 1 && forall j' :: j < j' < j + s ==> !Occurs(p, t, j')
    ensures Adds(Occurs(p, t, j), j, Before(p, t, j), Before(p, t, j + s))
  {
    hide Occurs, Occurrences;
    OccurrencesStep(p, t, j);
    OccurrencesSkip(p, t, j + 1, j + s);
  }

  lemma BeyondEnd(p: seq<nat>, t: seq<nat>, j: nat)
    requires |p| >= 1 && j + |p| > |t|
    ensures Before(p, t, j) == Before(p, t, |t| + 1)
  {
    if j <= |t| + 1 {
      OccurrencesSkip(p, t, j, |t| + 1);
    } else {
      OccurrencesSkip(p, t, |t| + 1, j);
    }
  }

  /** What turbo_matchall returns: occurrences only, and all of them if the pattern is not prone. */
  lemma TurboResult(p: seq<nat>, good: seq<int>, bad: seq<int>, t: seq<nat>)
    requires TablesOk(p, good, bad, t)
    ensures var r := Search(p, good, bad, t, 0, |p|, 0);
      && (forall a :: 0 <= a < |r| ==> Occurs(p, t, r[a])) && (forall a, b :: 0 <= a < b < |r| ==> r[a] < r[b])
      && (!MissProne(p, good, bad) ==> r == Occurrences(p, t, |t| + 1))
  {
    SearchSound(p, good, bad, t, 0, |p|, 0);
    if !MissProne(p, good, bad) {
      SearchComplete(p, good, bad, t, 0, |p|, 0);
      OccurrencesNone(p, t);
      assert [] + Search(p, good, bad, t, 0, |p|, 0) == Search(p, good, bad, t, 0, |p|, 0);
    }
  }

  // ----- prone patterns are missed

  /** The tables of a pattern over the alphabet of the bad-character table. */
  ghost predicate PatternOk(p: seq<nat>, good: seq<int>, bad: seq<int>) {
    && |p| >= 1 && IsGoodTable(p, good) && IsBadTable(p, bad) && forall k :: 0 <= k < |p| ==> p[k] < |bad|
  }

  /** The pattern behind its own first s + d characters, one of which may have been replaced. */
  ghost function Trap(p: seq<nat>, s: int, d: int, i0: nat, c0: nat): seq<nat>
    requires 0 <= s && 0 <= d && s + d <= |p| && i0 < s
  {
    p[..s + d][i0 := c0] + p
  }

  /** What the two attempts see of such a text. */
  ghost predicate Laid(p: seq<nat>, t: seq<nat>, s: nat, i: int, d: int, i0: nat, c0: nat) {
    && 1 <= s < |p| && i0 < s && 0 <= i - d <= i < |p| && |t| >= s + |p| && t[i0] == c0
    && (forall k :: 0 <= k < |p| && k != i0 ==> t[k] == p[k])
    && t[s + i] != p[i] && t[s + i] == p[i - d] && (forall k :: i < k < |p| ==> t[s + k] == p[k])
  }

  lemma TrapIs(p: seq<nat>, good: seq<int>, bad: seq<int>, s: int, i: int, d: int, i0: nat, c0: nat)
    requires PatternOk(p, good, bad) && s < |p| && IsPeriod(p, s) && JumpsOver(p, good, bad, s, i, d) && i0 < s && c0 < |bad|
    ensures var t := Trap(p, s, d, i0, c0);
      Laid(p, t, s, i, d, i0, c0) && TablesOk(p, good, bad, t) && Occurs(p, t, s + d)
  {
    var t := Trap(p, s, d, i0, c0);
    hide IsGoodTable, IsBadTable;
    forall k | 0 <= k < |p| && k != i0 ensures t[k] == p[k] {
      if k >= s + d {
        var x := k - s - d;
        assert t[k] == p[x] && p[x] == p[x + d] && p[k - s] == p[k];
      }
    }
    forall k | i < k < |p| ensures t[s + k] == p[k] {
      assert t[s + k] == p[k - d];
    }
  }

  /** Where an attempt stops and how it moves on is determined by what the text looks like. */
  lemma StopsAt(p: seq<nat>, t: seq<nat>, j: nat, shift: int, u: int, i: int)
    requires j + |p| <= |t| && -1 <= i < |p| && Memory(p, t, j, shift, u)
    requires (forall k :: i < k < |p| ==> t[j + k] == p[k]) && (i >= 0 ==> t[j + i] != p[i])
    ensures Scan(p, t, j, |p| - 1, shift, u) == i
  {
    ScanStops(p, t, j, |p| - 1, shift, u);
    hide Scan, Memory;
  }

  lemma GoesTo(p: seq<nat>, good: seq<int>, bad: seq<int>, t: seq<nat>, j: nat, shift: int, u: int, i: int) returns (next: Move)
    requires TablesOk(p, good, bad, t) && j + |p| <= |t| && -1 <= i < |p| && Memory(p, t, j, shift, u)
    requires (forall k :: i < k < |p| ==> t[j + k] == p[k]) && (i >= 0 ==> t[j + i] != p[i])
    ensures Goes(p, good, bad, t, j, shift, u, i, next)
    ensures next == MoveOn(|p|, good[if i < 0 then 0 else i], if i < 0 then 0 else bad[t[i + j]], i, u)
  {
    StopsAt(p, t, j, shift, u, i);
    next := At(p, good, bad, t, j, i, u);
    hide Scan, MoveOn;
  }

  /** The first attempt, whether it finds the pattern or stops at i0, leaves the border remembered. */
  lemma TrapFirst(p: seq<nat>, good: seq<int>, bad: seq<int>, t: seq<nat>, s: nat, j: int, d: int, i0: nat, c0: nat) returns (i: int)
    requires TablesOk(p, good, bad, t) && Laid(p, t, s, j, d, i0, c0) && c0 < |bad|
    requires (c0 == p[i0] && good[0] == s) || ByMismatch(p, good, bad, s, i0, c0)
    ensures Goes(p, good, bad, t, 0, |p|, 0, i, Move(s, |p| - s))
  {
    NothingRemembered(p, t, 0, |p|);
    i := if c0 == p[i0] then -1 else i0;
    assert forall k :: i < k < |p| ==> t[0 + k] == p[k];
    var next := GoesTo(p, good, bad, t, 0, |p|, 0, i);
    assert 1 <= s <= |p| && next == Move(s, |p| - s);
  }

  /** The second attempt raises its shift over the occurrence. */
  lemma TrapSecond(p: seq<nat>, good: seq<int>, bad: seq<int>, t: seq<nat>, s: nat, i: int, d: int, i0: nat, c0: nat) returns (next: Move)
    requires TablesOk(p, good, bad, t) && Laid(p, t, s, i, d, i0, c0) && Memory(p, t, s, s, |p| - s)
    requires JumpsOver(p, good, bad, s, i, d)
    ensures Goes(p, good, bad, t, s, s, |p| - s, i, next) && next.shift > d
  {
    next := GoesTo(p, good, bad, t, s, s, |p| - s, i);
    assert t[i + s] == p[i - d];
    hide Goes, IsGoodTable, IsBadTable, Memory;
  }

  lemma NotAmong(found: bool, j: nat, here: seq<nat>, rest: seq<nat>, x: nat)
    requires Leads(found, j, here, rest) && x !in rest && x != j
    ensures x !in here
  {
  }

  lemma NotBefore(p: seq<nat>, t: seq<nat>, j: nat, r: seq<nat>, x: nat)
    requires Reported(p, t, j, r) && x < j
    ensures x !in r
  {
    hide Occurs;
  }

  /** An attempt that moves past x, which lies behind its own offset, reports no x, nor does what follows. */
  lemma PassesBy(p: seq<nat>, good: seq<int>, bad: seq<int>, t: seq<nat>, j: nat, shift: int, u: int, i: int, next: Move, x: nat)
    requires Goes(p, good, bad, t, j, shift, u, i, next) && Memory(p, t, j, shift, u) && j < x < j + next.shift
    ensures x !in Search(p, good, bad, t, j, shift, u)
  {
    assert next.shift >= 1 && Fits(|p|, next.shift, next.u);
    var rest := Search(p, good, bad, t, j + next.shift, next.shift, next.u);
    NextMemory(p, good, bad, t, j, shift, u, i, next);
    hide *;
    SearchSound(p, good, bad, t, j + next.shift, next.shift, next.u);
    NotBefore(p, t, j + next.shift, rest, x);
    SearchStep(p, good, bad, t, j, shift, u, i, next);
    NotAmong(i < 0, j, Search(p, good, bad, t, j, shift, u), rest, x);
  }

  /** The trap springs: the second attempt passes by the occurrence, and no later one returns to it. */
  lemma TrapMisses(p: seq<nat>, good: seq<int>, bad: seq<int>, t: seq<nat>, s: nat, i: int, d: int, i0: nat, c0: nat)
    requires TablesOk(p, good, bad, t) && Laid(p, t, s, i, d, i0, c0) && JumpsOver(p, good, bad, s, i, d) && c0 < |bad|
    requires (c0 == p[i0] && good[0] == s) || ByMismatch(p, good, bad, s, i0, c0)
    ensures 1 <= d && s + d !in Search(p, good, bad, t, 0, |p|, 0)
  {
    assert 1 <= d && 1 <= s < |p| && |p| <= |t| && Fits(|p|, |p|, 0) && Fits(|p|, s, |p| - s);
    hide *;
    var i1 := TrapFirst(p, good, bad, t, s, i, d, i0, c0);
    NothingRemembered(p, t, 0, |p|);
    NextMemory(p, good, bad, t, 0, |p|, 0, i1, Move(s, |p| - s));
    var next := TrapSecond(p, good, bad, t, s, i, d, i0, c0);
    TrapCloses(p, good, bad, t, s, i1, i, next, s + d);
  }

  lemma TrapCloses(p: seq<nat>, good: seq<int>, bad: seq<int>, t: seq<nat>, s: nat, i1: int, i: int, next: Move, x: nat)
    requires Goes(p, good, bad, t, 0, |p|, 0, i1, Move(s, |p| - s))
    requires Goes(p, good, bad, t, s, s, |p| - s, i, next) && Memory(p, t, s, s, |p| - s) && s < x < s + next.shift
    ensures x !in Search(p, good, bad, t, 0, |p|, 0)
  {
    PassesBy(p, good, bad, t, s, s, |p| - s, i, next, x);
    SearchStep(p, good, bad, t, 0, |p|, 0, i1, Move(s, |p| - s));
    var whole, rest := Search(p, good, bad, t, 0, |p|, 0), Search(p, good, bad, t, 0 + s, s, |p| - s);
    hide *;
    NotAmong(i1 < 0, 0, whole, rest, x);
  }

  lemma ProneIsMissed(p: seq<nat>, good: seq<int>, bad: seq<int>) returns (t: seq<nat>, j: nat)
    requires PatternOk(p, good, bad) && MissProne(p, good, bad)
    ensures TablesOk(p, good, bad, t) && Occurs(p, t, j) && j !in Search(p, good, bad, t, 0, |p|, 0)
  {
    hide IsGoodShift, IsBadTable, Occurs, Search, IsPeriod;
    var s, i, d :| 1 <= s < |p| && 1 <= i < |p| && 1 <= d < |p| && ReachesBack(p, good, bad, s) && JumpsOver(p, good, bad, s, i, d);
    var i0: nat, c0: nat := 0, p[0];
    if good[0] != s {
      i0, c0 :| i0 < s && c0 < |bad| && ByMismatch(p, good, bad, s, i0, c0);
    }
    t, j := Trap(p, s, d, i0, c0), s + d;
    TrapIs(p, good, bad, s, i, d, i0, c0);
    TrapMisses(p, good, bad, t, s, i, d, i0, c0);
  }

  ghost predicate FindsAll(p: seq<nat>, good: seq<int>, bad: seq<int>, t: seq<nat>)
    requires TablesOk(p, good, bad, t)
  {
    Search(p, good, bad, t, 0, |p|, 0) == Occurrences(p, t, |t| + 1)
  }

  /** turbo_matchall finds every occurrence of a pattern in every text over its alphabet if and only if
      the pattern is not prone, which is decided from the pattern and its two tables alone. */
  lemma TurboExactIff(p: seq<nat>, good: seq<int>, bad: seq<int>)
    requires PatternOk(p, good, bad)
    ensures (forall t :: TablesOk(p, good, bad, t) ==> FindsAll(p, good, bad, t)) <==> !MissProne(p, good, bad)
  {
    assert |p| == |good|;
    hide IsGoodTable, IsBadTable, MissProne, Search;
    if MissProne(p, good, bad) {
      var t, j := ProneIsMissed(p, good, bad);
      assert j in Occurrences(p, t, |t| + 1);
      assert !FindsAll(p, good, bad, t);
    } else {
      forall t | TablesOk(p, good, bad, t) ensures FindsAll(p, good, bad, t) {
        TurboResult(p, good, bad, t);
      }
    }
  }

  /** No proper part of the pattern is both its beginning and its end. */
  predicate Unbordered(p: seq<nat>) {
    forall s :: 1 <= s < |p| ==> !IsPeriod(p, s)
  }

  lemma UnborderedNotProne(p: seq<nat>, good: seq<int>, bad: seq<int>)
    requires |p| == |good| && Unbordered(p)
    ensures !MissProne(p, good, bad)
  {
  }

  // ----- a pattern with a border

  const Bordered: seq<nat> := [1, 2, 2, 0, 2, 1, 2, 2]
  const MissedText: seq<nat> := [2, 0, 2, 1, 2, 2, 2, 0, 2, 1, 2, 2, 1, 2, 2, 0, 2, 1, 2, 2, 1]

  lemma GoodShiftIs(p: seq<nat>, i: nat, s: int, s': int)
    requires i < |p| && IsGoodShift(p, i, s) && 1 <= s' <= |p| && Plausible(p, i, s')
    requires forall x :: 1 <= x < s' ==> !Plausible(p, i, x)
    ensures s == s'
  {
  }

  lemma GoodShifts(good: seq<int>)
    requires IsGoodTable(Bordered, good)
    ensures good[0] == 5 && good[6] == 1 && good[7] == 2
  {
    var p := Bordered;
    assert p[0] == p[5] && p[1] == p[6] && p[2] == p[7];
    assert Plausible(p, 0, 5);
    assert p[0] != p[1] && p[0] != p[2] && p[0] != p[3] && p[0] != p[4];
    forall x | 1 <= x < 5 ensures !Plausible(p, 0, x) {
      assert p[x - x] != p[x];
    }
    GoodShiftIs(p, 0, good[0], 5);
    assert p[6] == p[7] && p[5] != p[6];
    GoodShiftIs(p, 6, good[6], 1);
    GoodShiftIs(p, 7, good[7], 2);
  }

  lemma BadShifts(bad: seq<int>)
    requires IsBadTable(Bordered, bad) && |bad| >= 3
    ensures bad[0] == 4 && bad[1] == 2 && bad[2] == 1
  {
    var p := Bordered;
    assert p[3] == 0 && p[4] != 0 && p[5] == 1 && p[6] == 2;
    assert IsBadShift(p, 0, bad[0]) && IsBadShift(p, 1, bad[1]) && IsBadShift(p, 2, bad[2]);
  }

  /** Where the four attempts stop. */
  lemma MissedScans()
    ensures Scan(Bordered, MissedText, 0, 7, 8, 0) == 7 && Scan(Bordered, MissedText, 4, 7, 4, 0) == 0
    ensures Scan(Bordered, MissedText, 9, 7, 5, 3) == 6 && Scan(Bordered, MissedText, 13, 7, 4, 0) == 7
  {
    var p, t := Bordered, MissedText;
    assert p[7] != t[7] && p[7] != t[20] && p[7] == t[16] && p[6] != t[15];
    assert p[0] != t[4] && p[1] == t[5] && p[2] == t[6] && p[3] == t[7];
    assert p[4] == t[8] && p[5] == t[9] && p[6] == t[10] && p[7] == t[11];
    ScanStops(p, t, 4, 7, 4, 0);
  }

  lemma MissedStep(good: seq<int>, bad: seq<int>, j: nat, shift: int, u: int, i: int, next: Move)
    requires TablesOk(Bordered, good, bad, MissedText) && Fits(8, shift, u) && j + 8 <= 21 && 0 <= i < 8
    requires Scan(Bordered, MissedText, j, 7, shift, u) == i && next == MoveOn(8, good[i], bad[MissedText[i + j]], i, u)
    ensures Search(Bordered, good, bad, MissedText, j, shift, u)
      == Search(Bordered, good, bad, MissedText, j + next.shift, next.shift, next.u)
  {
    assert Goes(Bordered, good, bad, MissedText, j, shift, u, i, next);
    hide *;
    SearchStep(Bordered, good, bad, MissedText, j, shift, u, i, next);
    NotFound(j, Search(Bordered, good, bad, MissedText, j, shift, u), Search(Bordered, good, bad, MissedText, j + next.shift, next.shift, next.u));
  }

  lemma NotFound(j: nat, here: seq<nat>, rest: seq<nat>)
    requires Leads(false, j, here, rest)
    ensures here == rest
  {
  }

  lemma MissedMoves()
    ensures MoveOn(8, 2, 4, 7, 0) == Move(4, 0) && MoveOn(8, 5, 1, 0, 0) == Move(5, 3)
    ensures MoveOn(8, 1, 4, 6, 3) == Move(4, 0) && MoveOn(8, 2, 2, 7, 0) == Move(2, 0)
  {
  }

  lemma {:induction false} MissedSearch(good: seq<int>, bad: seq<int>)
    requires TablesOk(Bordered, good, bad, MissedText)
    ensures Search(Bordered, good, bad, MissedText, 0, |Bordered|, 0) == []
  {
    var t := MissedText;
    assert t[0] == 2 && t[7] == 0 && t[4] == 2 && t[15] == 0 && t[20] == 1 && |Bordered| == 8 && |t| == 21;
    GoodShifts(good);
    BadShifts(bad);
    MissedScans();
    MissedMoves();
    hide IsGoodTable, IsBadTable, Scan, Search, MoveOn;
    MissedStep(good, bad, 0, 8, 0, 7, Move(4, 0));
    MissedStep(good, bad, 4, 4, 0, 0, Move(5, 3));
    MissedStep(good, bad, 9, 5, 3, 6, Move(4, 0));
    MissedStep(good, bad, 13, 4, 0, 7, Move(2, 0));
    SearchEnd(Bordered, good, bad, t, 15, 2, 0);
  }

  /** A prone pattern and a text in which it occurs, though turbo_matchall reports nothing: at offset 9
      the stretch of length 3 that it remembers is a border, and raising the shift from 3 to 4 on account
      of it jumps over the occurrence at 12. */
  lemma TurboMissesOccurrence(good: seq<int>, bad: seq<int>)
    requires TablesOk(Bordered, good, bad, MissedText)
    ensures Search(Bordered, good, bad, MissedText, 0, |Bordered|, 0) == [] && Occurs(Bordered, MissedText, 12)
    ensures MissProne(Bordered, good, bad)
  {
    MissedOccurs();
    assert |Bordered| == |good| && |MissedText| == 21;
    hide *;
    MissedSearch(good, bad);
    TurboResult(Bordered, good, bad, MissedText);
  }

  lemma MissedOccurs()
    ensures Occurs(Bordered, MissedText, 12)
  {
  }
}
