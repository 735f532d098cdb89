/** The intrusive doubly linked list of inc/fast/list.h: the links lie in memory at the address of the
    element itself, and address 0 ends the list. */
module DList {

  type Addr = int

  /** The element at position i, or 0 beyond either end. */
  ghost function At(s: seq<Addr>, i: int): Addr {
    if 0 <= i < |s| then s[i] else 0
  }

  ghost predicate LinkedAt(next: map<Addr, Addr>, prev: map<Addr, Addr>, s: seq<Addr>, i: nat)
    requires i < |s|
  {
    s[i] != 0 && s[i] in next && s[i] in prev && next[s[i]] == At(s, i + 1) && prev[s[i]] == At(s, i - 1)
  }

  ghost predicate Distinct(s: seq<Addr>) {
    forall i, j :: 0 <= i < j < |s| ==> s[i] != s[j]
  }

  /** The links spell out s from first to last, and back from last to first. */
  ghost predicate Spells(first: Addr, last: Addr, next: map<Addr, Addr>, prev: map<Addr, Addr>, s: seq<Addr>) {
    && first == At(s, 0) && last == At(s, |s| - 1) && Distinct(s)
    && (forall i :: 0 <= i < |s| ==> LinkedAt(next, prev, s, i))
  }

  /** The links determine the list: following next from first can spell only one sequence. */
  lemma SpelledOnce(first: Addr, last: Addr, next: map<Addr, Addr>, prev: map<Addr, Addr>, s: seq<Addr>, t: seq<Addr>)
    requires Spells(first, last, next, prev, s) && Spells(first, last, next, prev, t)
    ensures s == t
  {
    SamePrefix(first, last, next, prev, s, t, |s|);
    SamePrefix(first, last, next, prev, t, s, |t|);
  }

  lemma {:induction false} SamePrefix(first: Addr, last: Addr, next: map<Addr, Addr>, prev: map<Addr, Addr>, s: seq<Addr>, t: seq<Addr>, n: nat)
    requires Spells(first, last, next, prev, s) && Spells(first, last, next, prev, t) && n <= |s|
    ensures n <= |t| && s[..n] == t[..n]
  {
    if n > 0 {
      SamePrefix(first, last, next, prev, s, t, n - 1);
      assert LinkedAt(next, prev, s, n - 1);
      if n > 1 {
        assert s[n - 2] == s[..n - 1][n - 2] == t[n - 2];
        assert LinkedAt(next, prev, s, n - 2) && LinkedAt(next, prev, t, n - 2);
      }
      assert s[..n] == s[..n - 1] + [s[n - 1]];
    }
  }

  class List {
    var first: Addr
    var last: Addr
    var next: map<Addr, Addr>
    var prev: map<Addr, Addr>
    ghost var items: seq<Addr>

    ghost predicate Valid()
      reads this
    {
      Spells(first, last, next, prev, items)
    }

    constructor ()
      ensures Valid() && items == []
    {
      first, last, next, prev, items := 0, 0, map[], map[], [];
    }

    /** DL_INSERT_HEAD. */
    method InsertHead(e: Addr)
      requires Valid() && e != 0 && e !in items
      modifies this
      ensures Valid() && items == [e] + old(items)
    {
      assert forall i :: 0 <= i < |items| ==> LinkedAt(next, prev, items, i);
      assert items != [] ==> LinkedAt(next, prev, items, 0);
      next := next[e := first];
      if first != 0 {
        prev := prev[first := e];
      } else {
        last := e;
      }
      first := e;
      prev := prev[e := 0];
      items := [e] + items;
      forall i | 0 <= i < |items| ensures LinkedAt(next, prev, items, i) {
        if i > 0 { assert old(LinkedAt(next, prev, items, i - 1)); }
      }
    }

    /** DL_REMOVE_TAIL; 0 if the list is empty. */
    method RemoveTail() returns (e: Addr)
      requires Valid()
      modifies this
      ensures Valid()
      ensures if old(items) == [] then e == 0 && items == [] else old(items) == items + [e] && e != 0
    {
      e := last;
      assert items != [] ==> LinkedAt(next, prev, items, |items| - 1);
      if e != 0 {
        assert |items| > 1 ==> LinkedAt(next, prev, items, |items| - 2);
        last := prev[e];
        if last != 0 {
          next := next[last := 0];
        } else {
          first := 0;
        }
        items := items[..|items| - 1];
        forall i | 0 <= i < |items| ensures LinkedAt(next, prev, items, i) {
          assert old(LinkedAt(next, prev, items, i));
        }
      }
    }

    /** DL_REMOVE. */
    method Remove(e: Addr, ghost i: nat)
      requires Valid() && i < |items| && e == items[i]
      modifies this
      ensures Valid() && items == old(items[..i] + items[i + 1..])
    {
      assert LinkedAt(next, prev, items, i);
      assert i > 0 ==> LinkedAt(next, prev, items, i - 1);
      assert i + 1 < |items| ==> LinkedAt(next, prev, items, i + 1);
      if next[e] != 0 {
        prev := prev[next[e] := prev[e]];
      } else {
        last := prev[e];
      }
      if prev[e] != 0 {
        next := next[prev[e] := next[e]];
      } else {
        first := next[e];
      }
      items := items[..i] + items[i + 1..];
      forall j | 0 <= j < |items| ensures LinkedAt(next, prev, items, j) {
        assert old(LinkedAt(next, prev, items, if j < i then j else j + 1));
      }
    }

    /** Whatever is written over the links of an address that is not in the list leaves the list alone. */
    method Overwrite(e: Addr, n: Addr, p: Addr)
      requires Valid() && e !in items
      modifies this
      ensures Valid() && items == old(items)
    {
      next, prev := next[e := n], prev[e := p];
      forall i | 0 <= i < |items| ensures LinkedAt(next, prev, items, i) {
        assert old(LinkedAt(next, prev, items, i));
      }
    }
  }
}
