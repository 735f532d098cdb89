/** The Knuth-Morris-Pratt search of inc/utils/strmatch.h. */
module Kmp {
  import opened Matching

  /** The first k characters of p are the last k characters of t[..e]. */
  predicate Ends(p: seq<nat>, t: seq<nat>, e: nat, k: int) {
    && 0 <= k <= |p| && k <= e <= |t|
    && forall x :: e - k <= x < e ==> t[x] == p[x - (e - k)]
  }

  /** k is the longest such length up to the bound. */
  ghost predicate LongestEnd(p: seq<nat>, t: seq<nat>, e: nat, k: int, bound: int) {
    Ends(p, t, e, k) && k <= bound && forall k' :: k < k' <= bound ==> !Ends(p, t, e, k')
  }

  /** k is the length of the longest proper border of p[..q + 1]. */
  ghost predicate IsBorderLength(p: seq<nat>, q: nat, k: int)
    requires q < |p|
  {
    && 0 <= k <= q && p[..k] == p[q + 1 - k..q + 1]
    && forall k' :: k < k' <= q ==> p[..k'] != p[q + 1 - k'..q + 1]
  }

  lemma EndsIsBorder(p: seq<nat>, q: nat, k: int)
    requires q < |p| && 0 <= k <= q
    ensures Ends(p, p, q + 1, k) <==> p[..k] == p[q + 1 - k..q + 1]
  {
    if Ends(p, p, q + 1, k) {
      forall i | 0 <= i < k ensures p[..k][i] == p[q + 1 - k..q + 1][i] {
        assert p[q + 1 - k + i] == p[i];
      }
    } else {
      var x :| q + 1 - k <= x < q + 1 && p[x] != p[x - (q + 1 - k)];
      assert p[..k][x - (q + 1 - k)] != p[q + 1 - k..q + 1][x - (q + 1 - k)];
    }
  }

  lemma LongestIsBorder(p: seq<nat>, q: nat, k: int)
    requires q < |p| && LongestEnd(p, p, q + 1, k, q)
    ensures IsBorderLength(p, q, k)
  {
    EndsIsBorder(p, q, k);
    forall k' | k < k' <= q ensures p[..k'] != p[q + 1 - k'..q + 1] {
      EndsIsBorder(p, q, k');
    }
  }

  lemma BorderIsLongest(p: seq<nat>, q: nat, k: int)
    requires q < |p| && IsBorderLength(p, q, k)
    ensures LongestEnd(p, p, q + 1, k, q)
  {
    EndsIsBorder(p, q, k);
    var e := q + 1;
    forall k' | k < k' <= q ensures !Ends(p, p, e, k') {
      EndsIsBorder(p, q, k');
    }
  }

  /** A shorter end of t is an end of the part of p that already matched, and conversely. */
  lemma EndsInside(p: seq<nat>, t: seq<nat>, e: nat, q: int, k: int)
    requires Ends(p, t, e, q) && 0 <= k <= q
    ensures Ends(p, t, e, k) <==> Ends(p, p, q, k)
  {
    if Ends(p, t, e, k) {
      forall x | q - k <= x < q ensures p[x] == p[x - (q - k)] {
        var y := e - q + x;
        assert t[y] == p[y - (e - q)] && t[y] == p[y - (e - k)];
      }
    }
    if Ends(p, p, q, k) {
      forall y | e - k <= y < e ensures t[y] == p[y - (e - k)] {
        var x := y - (e - q);
        assert t[y] == p[x] && p[x] == p[x - (q - k)];
      }
    }
  }

  /** Falling back to the border of the matched part skips only lengths that cannot be extended. */
  ghost predicate Hopeless(p: seq<nat>, t: seq<nat>, e: nat, q: int, bound: int)
    requires e < |t| && bound < |p|
  {
    forall k :: q < k <= bound && Ends(p, t, e, k) ==> p[k] != t[e]
  }

  lemma LongestHopeless(p: seq<nat>, t: seq<nat>, e: nat, q: int, bound: int)
    requires e < |t| && bound < |p| && LongestEnd(p, t, e, q, bound)
    ensures Ends(p, t, e, q) && 0 <= q <= bound && Hopeless(p, t, e, q, bound)
  {
  }

  lemma FallBack(p: seq<nat>, t: seq<nat>, e: nat, q: nat, bound: int, k: int)
    requires e < |t| && bound < |p| && 1 <= q <= bound
    requires Ends(p, t, e, q) && Hopeless(p, t, e, q, bound) && p[q] != t[e]
    requires IsBorderLength(p, q - 1, k)
    ensures 0 <= k < q && Ends(p, t, e, k) && Hopeless(p, t, e, k, bound)
  {
    BorderIsLongest(p, q - 1, k);
    EndsInside(p, t, e, q, k);
    forall k' | k < k' <= bound && Ends(p, t, e, k') ensures p[k'] != t[e] {
      if k' < q {
        EndsInside(p, t, e, q, k');
      }
    }
  }

  lemma EndsStep(p: seq<nat>, t: seq<nat>, e: nat, k: int)
    requires e < |t| && 1 <= k <= |p|
    ensures Ends(p, t, e + 1, k) <==> Ends(p, t, e, k - 1) && p[k - 1] == t[e]
  {
    if Ends(p, t, e + 1, k) {
      assert t[e] == p[e - (e + 1 - k)];
    }
  }

  /** One character on: the longest end either grows by one or is empty. */
  lemma Advance(p: seq<nat>, t: seq<nat>, e: nat, q: nat, bound: int)
    requires e < |t| && q <= bound < |p|
    requires Ends(p, t, e, q) && Hopeless(p, t, e, q, bound)
    requires q > 0 ==> p[q] == t[e]
    ensures LongestEnd(p, t, e + 1, if p[q] == t[e] then q + 1 else 0, bound + 1)
  {
    if p[q] == t[e] {
      EndsStep(p, t, e, q + 1);
    }
    var e', q' := e + 1, if p[q] == t[e] then q + 1 else 0;
    forall k | q' < k <= bound + 1 ensures !Ends(p, t, e', k) {
      EndsStep(p, t, e, k);
    }
  }

  lemma FullEndIsOccurrence(p: seq<nat>, t: seq<nat>, e: nat)
    requires |p| <= e <= |t|
    ensures Ends(p, t, e, |p|) <==> Occurs(p, t, e - |p|)
  {
    if Ends(p, t, e, |p|) {
      forall i | 0 <= i < |p| ensures t[e - |p| + i] == p[i] { }
    }
    if Occurs(p, t, e - |p|) {
      forall x | e - |p| <= x < e ensures t[x] == p[x - (e - |p|)] {
        var i := x - (e - |p|);
        assert t[e - |p| + i] == p[i];
      }
    }
  }

  /** The naive non-overlapping search from the left. */
  function NonOverlapping(p: seq<nat>, t: seq<nat>, from: nat): (r: seq<nat>)
    requires |p| >= 1
    decreases if from <= |t| then |t| - from else 0
  {
    if from + |p| > |t| then []
    else if Occurs(p, t, from) then [from] + NonOverlapping(p, t, from + |p|)
    else NonOverlapping(p, t, from + 1)
  }

  lemma {:induction false} NonOverlappingSkip(p: seq<nat>, t: seq<nat>, from: nat, to: int)
    requires |p| >= 1 && from <= to
    requires forall j :: from <= j < to ==> !Occurs(p, t, j)
    ensures NonOverlapping(p, t, from) == NonOverlapping(p, t, to)
    decreases if from <= to then to - from else 0
  {
    if from < to {
      NonOverlappingSkip(p, t, from + 1, to);
    }
  }

  lemma OccursSlice(p: seq<nat>, t: seq<nat>, j: nat)
    requires j + |p| <= |t|
    ensures Occurs(p, t, j) <==> t[j..j + |p|] == p
  {
    var w := t[j..j + |p|];
    assert forall i :: 0 <= i < |p| ==> w[i] == t[j + i];
  }

  lemma OccursInRest(p: seq<nat>, t: seq<nat>, off: nat, j: nat)
    requires off <= |t|
    ensures Occurs(p, t[off..], j) <==> Occurs(p, t, off + j)
  {
    if off + j + |p| <= |t| {
      assert t[off..][j..j + |p|] == t[off + j..off + j + |p|];
      OccursSlice(p, t[off..], j);
      OccursSlice(p, t, off + j);
    }
  }

  class Searcher {
    const pat: seq<nat>
    const prefixTab: array<int>

    ghost predicate Valid()
      reads prefixTab
    {
      && |pat| >= 1 && prefixTab.Length == |pat|
      && forall q :: 0 <= q < |pat| ==> IsBorderLength(pat, q, prefixTab[q])
    }

    constructor (p: seq<nat>)
      requires |p| >= 1
      ensures Valid() && pat == p && fresh(prefixTab)
    {
      pat := p;
      prefixTab := new int[|p|](_ => 0);
      new;
      CalcPrefixTable();
    }

    /** The loop shared by the table construction and the search: reads t[e] and moves to the longest
        end of t[..e + 1], falling back through the borders of shorter and shorter prefixes. */
    method Follow(t: seq<nat>, e: nat, start: nat, ghost bound: int) returns (q: nat)
      requires prefixTab.Length == |pat| && e < |t| && start <= bound < |pat|
      requires forall x :: 0 <= x < start ==> IsBorderLength(pat, x, prefixTab[x])
      requires LongestEnd(pat, t, e, start, bound)
      ensures q <= start + 1 && LongestEnd(pat, t, e + 1, q, bound + 1)
    {
      q := start;
      LongestHopeless(pat, t, e, q, bound);
      hide IsBorderLength, LongestEnd, Ends, Hopeless;
      while q > 0 && pat[q] != t[e]
        invariant 0 <= q <= start
        invariant Ends(pat, t, e, q) && Hopeless(pat, t, e, q, bound)
      {
        FallBack(pat, t, e, q, bound, prefixTab[q - 1]);
        q := prefixTab[q - 1];
      }
      Advance(pat, t, e, q, bound);
      if pat[q] == t[e] {
        q := q + 1;
      }
    }

    method CalcPrefixTable()
      requires |pat| >= 1 && prefixTab.Length == |pat|
      requires prefixTab[0] == 0
      modifies prefixTab
      ensures Valid()
    {
      var k, q := 0, 1;
      LongestIsBorder(pat, 0, 0);
      hide IsBorderLength, LongestEnd;
      while q < |pat|
        invariant 1 <= q <= |pat|
        invariant forall x :: 0 <= x < q ==> IsBorderLength(pat, x, prefixTab[x])
        invariant k == prefixTab[q - 1] && 0 <= k < q
      {
        BorderIsLongest(pat, q - 1, k);
        k := Follow(pat, q, k, q - 1);
        LongestIsBorder(pat, q, k);
        prefixTab[q] := k;
        q := q + 1;
      }
    }

    /** The leftmost occurrence of the pattern, if there is one. */
    method Match(text: seq<nat>) returns (found: bool, offset: int)
      requires Valid()
      ensures found ==> 0 <= offset && Occurs(pat, text, offset)
      ensures found ==> forall j :: 0 <= j < offset ==> !Occurs(pat, text, j)
      ensures !found ==> offset == -1 && forall j: nat :: !Occurs(pat, text, j)
    {
      var m, q, i := |pat|, 0, 0;
      found, offset := false, -1;
      assert LongestEnd(pat, text, 0, 0, m - 1);
      hide IsBorderLength, LongestEnd, Occurs;
      while i < |text|
        invariant 0 <= i <= |text| && 0 <= q < m
        invariant LongestEnd(pat, text, i, q, m - 1)
        invariant forall j :: 0 <= j <= i - m ==> !Occurs(pat, text, j)
      {
        q := Follow(text, i, q, m - 1);
        Scanned(pat, text, i + 1, q);
        if q == m {
          found, offset := true, i + 1 - m;
          return;
        }
        i := i + 1;
      }
      forall j: nat ensures !Occurs(pat, text, j) { NoRoom(pat, text, j); }
    }

    /** The occurrences found by taking the leftmost one and starting again behind it. */
    method MatchAll(text: seq<nat>) returns (r: seq<nat>)
      requires Valid()
      ensures r == NonOverlapping(pat, text, 0)
    {
      r := [];
      var off := 0;
      while |text| - off > 0
        invariant 0 <= off <= |text|
        invariant NonOverlapping(pat, text, 0) == r + NonOverlapping(pat, text, off)
        decreases |text| - off
      {
        var found, second := Match(text[off..]);
        if !found {
          NoneLeft(pat, text, off);
          return;
        }
        NextOccurrence(pat, text, off, second);
        r := r + [off + second];
        off := off + second + |pat|;
      }
    }
  }

  lemma Scanned(p: seq<nat>, t: seq<nat>, e: nat, q: int)
    requires |p| >= 1 && e <= |t| && LongestEnd(p, t, e, q, |p|)
    ensures 0 <= q <= |p|
    ensures q == |p| ==> e >= |p| && Occurs(p, t, e - |p|)
    ensures q < |p| ==> LongestEnd(p, t, e, q, |p| - 1)
    ensures q < |p| && e >= |p| ==> !Occurs(p, t, e - |p|)
  {
    if e >= |p| { FullEndIsOccurrence(p, t, e); }
  }

  lemma NoRoom(p: seq<nat>, t: seq<nat>, j: nat)
    ensures Occurs(p, t, j) ==> j <= |t| - |p|
  {
  }

  lemma NextOccurrence(p: seq<nat>, t: seq<nat>, off: nat, j: nat)
    requires |p| >= 1 && off <= |t| && Occurs(p, t[off..], j)
    requires forall j' :: 0 <= j' < j ==> !Occurs(p, t[off..], j')
    ensures off + j + |p| <= |t|
    ensures NonOverlapping(p, t, off) == [off + j] + NonOverlapping(p, t, off + j + |p|)
  {
    OccursInRest(p, t, off, j);
    forall j' | off <= j' < off + j ensures !Occurs(p, t, j') { OccursInRest(p, t, off, j' - off); }
    NonOverlappingSkip(p, t, off, off + j);
  }

  lemma NoneLeft(p: seq<nat>, t: seq<nat>, off: nat)
    requires |p| >= 1 && off <= |t| && forall j: nat :: !Occurs(p, t[off..], j)
    ensures NonOverlapping(p, t, off) == []
  {
    forall j' | off <= j' < |t| ensures !Occurs(p, t, j') { OccursInRest(p, t, off, j' - off); }
    NonOverlappingSkip(p, t, off, |t|);
  }
}
