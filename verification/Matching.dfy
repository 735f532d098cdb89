/** The naive meaning of string matching, against which the fast searches are proved. */
module Matching {

  /** Pattern p occurs in text t at offset j. */
  predicate Occurs(p: seq<nat>, t: seq<nat>, j: nat) {
    j + |p| <= |t| && forall i :: 0 <= i < |p| ==> t[j + i] == p[i]
  }

  /** Every offset below n at which p occurs, in increasing order. */
  function Occurrences(p: seq<nat>, t: seq<nat>, n: nat): (r: seq<nat>)
    ensures forall j: nat :: j in r <==> j < n && Occurs(p, t, j)
    ensures forall a, b :: 0 <= a < b < |r| ==> r[a] < r[b]
  {
    if n == 0 then []
    else
      var r := Occurrences(p, t, n - 1);
      assert forall a :: 0 <= a < |r| ==> r[a] in r;
      if Occurs(p, t, n - 1) then r + [n - 1] else r
  }

  /** Skipping offsets without an occurrence loses nothing. */
  lemma {:induction false} OccurrencesSkip(p: seq<nat>, t: seq<nat>, from: nat, to: nat)
    requires from <= to
    requires forall j :: from <= j < to ==> !Occurs(p, t, j)
    ensures Occurrences(p, t, to) == Occurrences(p, t, from)
  {
    if from < to {
      OccurrencesSkip(p, t, from, to - 1);
    }
  }

  lemma OccurrencesNone(p: seq<nat>, t: seq<nat>)
    ensures Occurrences(p, t, 0) == []
  {
  }

  lemma OccurrencesStep(p: seq<nat>, t: seq<nat>, n: nat)
    ensures Occurrences(p, t, n + 1) == Occurrences(p, t, n) + (if Occurs(p, t, n) then [n] else [])
  {
  }
}
