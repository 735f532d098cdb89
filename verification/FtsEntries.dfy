/** Which entries a file tree walk visits, and as what, read off the directories themselves (src/fts.c). */
module FtsEntries {
  import opened Options
  import opened FtsWalk

  /** The names of a directory itself and of its parent. */
  predicate SelfOrParent(name: string) { name == ['.'] || name == ['.', '.'] }

  /** The item says of the entry what lstat, or stat where links are followed, says of it; a directory is
      one to descend into unless it is self or parent or among those above. */
  ghost predicate Describes(fs: FileSystem, e: Dirent, follow: bool, above: set<FileId>, it: Item) {
    var seen := if fs.logical || follow then e.st else e.lst;
    && it.name == e.name
    && (seen == None ==> it.info == if (fs.logical || follow) && e.lst.Some? then SLNONE else NS)
    && (seen == Some(Regular) ==> it.info == F)
    && (seen == Some(Symlink) ==> it.info == SL)
    && (seen == Some(OtherKind) ==> it.info == DEFAULT)
    && (seen.Some? && seen.value.Directory? ==>
          && it.id == seen.value.id
          && it.info == if SelfOrParent(e.name) then DOT else if it.id in above then DC else D)
  }

  /** These places of a directory, in order, are exactly those whose entries are listed: all but self and
      parent, and those too if asked for. */
  ghost predicate Listed(fs: FileSystem, es: seq<Dirent>, at: seq<nat>) {
    && (forall i :: 0 <= i < |at| ==> at[i] < |es|)
    && (forall i, j :: 0 <= i < j < |at| ==> at[i] < at[j])
    && (forall k: nat :: k < |es| ==> (k in at <==> fs.seeDot || !SelfOrParent(es[k].name)))
  }

  lemma ClassifyDescribes(fs: FileSystem, e: Dirent, follow: bool, above: set<FileId>)
    ensures Describes(fs, e, follow, above, Classify(fs, e, follow, above))
  {
    assert SelfOrParent(e.name) <==> IsDot(e.name);
  }

  /** The items describe the entries at these places. */
  ghost predicate Described(fs: FileSystem, es: seq<Dirent>, above: set<FileId>, at: seq<nat>, items: seq<Item>) {
    && |at| == |items| && (forall i :: 0 <= i < |at| ==> at[i] < |es|)
    && forall i :: 0 <= i < |at| ==> Describes(fs, es[at[i]], false, above, items[i])
  }

  lemma {:induction false} EntriesAre(fs: FileSystem, es: seq<Dirent>, above: set<FileId>) returns (at: seq<nat>)
    ensures Listed(fs, es, at) && Described(fs, es, above, at, ClassifyAll(fs, es, above))
  {
    at := [];
    if es != [] {
      var rest := EntriesAre(fs, es[1..], above);
      var moved := seq(|rest|, i requires 0 <= i < |rest| => rest[i] + 1);
      var shown := fs.seeDot || !SelfOrParent(es[0].name);
      assert shown <==> fs.seeDot || !IsDot(es[0].name);
      at := if shown then [0] + moved else moved;
      MovedListed(fs, es, rest, moved, at, shown);
      MovedDescribed(fs, es, above, rest, moved, ClassifyAll(fs, es[1..], above));
      hide Listed, Described, Classify, SelfOrParent;
    }
  }

  lemma MovedDescribed(fs: FileSystem, es: seq<Dirent>, above: set<FileId>, rest: seq<nat>, moved: seq<nat>, items: seq<Item>)
    requires es != [] && Described(fs, es[1..], above, rest, items)
    requires |moved| == |rest| && forall i :: 0 <= i < |rest| ==> moved[i] == rest[i] + 1
    ensures Described(fs, es, above, moved, items)
    ensures Described(fs, es, above, [0] + moved, [Classify(fs, es[0], false, above)] + items)
  {
    ClassifyDescribes(fs, es[0], false, above);
    hide Describes, Classify;
    forall i | 0 <= i < |moved| ensures Describes(fs, es[moved[i]], false, above, items[i]) {
      assert es[1..][rest[i]] == es[moved[i]];
    }
  }

  lemma MovedListed(fs: FileSystem, es: seq<Dirent>, rest: seq<nat>, moved: seq<nat>, at: seq<nat>, shown: bool)
    requires es != [] && Listed(fs, es[1..], rest) && |moved| == |rest| && (forall i :: 0 <= i < |rest| ==> moved[i] == rest[i] + 1)
    requires shown <==> fs.seeDot || !SelfOrParent(es[0].name)
    requires at == if shown then [0] + moved else moved
    ensures Listed(fs, es, at)
  {
    hide SelfOrParent;
    forall k: nat | k < |es| ensures k in at <==> fs.seeDot || !SelfOrParent(es[k].name) {
      InMoved(rest, moved, k);
      if k > 0 { assert es[1..][k - 1] == es[k]; }
    }
  }

  lemma InMoved(rest: seq<nat>, moved: seq<nat>, k: nat)
    requires |moved| == |rest| && forall i :: 0 <= i < |rest| ==> moved[i] == rest[i] + 1
    ensures k in moved <==> k > 0 && k - 1 in rest
  {
    if k in moved {
      var i :| 0 <= i < |moved| && moved[i] == k;
      assert rest[i] == k - 1;
    }
    if k > 0 && k - 1 in rest {
      var i :| 0 <= i < |rest| && rest[i] == k - 1;
      assert moved[i] == k;
    }
  }

  /** The children of a directory, in its own order. */
  lemma ChildrenAre(fs: FileSystem, id: FileId, ancestors: set<FileId>) returns (at: seq<nat>)
    requires Closed(fs) && id in fs.dirs
    ensures Listed(fs, fs.dirs[id], at) && Described(fs, fs.dirs[id], ancestors + {id}, at, Children(fs, id, ancestors))
  {
    at := EntriesAre(fs, fs.dirs[id], ancestors + {id});
  }

  /** The roots, one by one, each as itself or as what it links to if that is asked for; self and parent are
      directories like any other there. */
  lemma {:induction false} RootsAre(fs: FileSystem, roots: seq<Dirent>, i: nat)
    requires i < |roots|
    ensures var it := RootItems(fs, roots)[i]; exists seen ::
      Describes(fs, roots[i], fs.comFollow, {}, seen) && it == if seen.info == DOT then seen.(info := D) else seen
  {
    if i > 0 {
      RootsAre(fs, roots[1..], i - 1);
    } else {
      ClassifyDescribes(fs, roots[0], fs.comFollow, {});
      assert Describes(fs, roots[0], fs.comFollow, {}, Classify(fs, roots[0], fs.comFollow, {}));
    }
  }

  // ----- each entry is visited once, a directory descended into twice

  /** The visits at depth n. */
  ghost function AtDepth(visits: seq<Visit>, n: nat): seq<Visit> {
    if visits == [] then [] else (if |visits[0].path| == n then [visits[0]] else []) + AtDepth(visits[1..], n)
  }

  lemma {:induction false} AtDepthJoin(v: seq<Visit>, w: seq<Visit>, n: nat)
    ensures AtDepth(v + w, n) == AtDepth(v, n) + AtDepth(w, n)
  {
    if v == [] {
      assert v + w == w;
    } else {
      AtDepthJoin(v[1..], w, n);
      assert (v + w)[1..] == v[1..] + w && (v + w)[0] == v[0];
      AtDepthFirst(v + w, n);
      AtDepthFirst(v, n);
      hide AtDepth;
      if |v[0].path| == n {
        assert [v[0]] + (AtDepth(v[1..], n) + AtDepth(w, n)) == ([v[0]] + AtDepth(v[1..], n)) + AtDepth(w, n);
      }
    }
  }

  lemma AtDepthFirst(v: seq<Visit>, n: nat)
    requires v != []
    ensures |v[0].path| == n ==> AtDepth(v, n) == [v[0]] + AtDepth(v[1..], n)
    ensures |v[0].path| != n ==> AtDepth(v, n) == AtDepth(v[1..], n)
  {
  }

  lemma {:induction false} NoneAtDepth(v: seq<Visit>, n: nat)
    requires forall i :: 0 <= i < |v| ==> |v[i].path| > n
    ensures AtDepth(v, n) == []
  {
    if v != [] { NoneAtDepth(v[1..], n); }
  }

  /** What the items of a directory are visited as. */
  ghost function Once(items: seq<Item>, path: seq<string>): seq<Visit> {
    if items == [] then []
    else
      var here := path + [items[0].name];
      (if items[0].info == D then [Visit(here, D), Visit(here, DP)] else [Visit(here, items[0].info)]) + Once(items[1..], path)
  }

  lemma {:induction false} WalkIsBelow(fs: FileSystem, items: seq<Item>, path: seq<string>, ancestors: set<FileId>)
    requires Closed(fs) && AllWalkable(fs, items, ancestors)
    ensures forall v :: v in Walk(fs, items, path, ancestors) ==> path < v.path
    decreases |fs.dirs.Keys - ancestors|, |items|
  {
    if items != [] {
      WalkFirst(fs, items, path, ancestors);
      WalkIsBelow(fs, items[1..], path, ancestors);
      var it := items[0];
      var here := path + [it.name];
      if it.info == D {
        SmallerFrontier(fs, it.id, ancestors);
        WalkIsBelow(fs, Children(fs, it.id, ancestors), here, ancestors + {it.id});
      }
      hide Children, ClassifyAll, AllWalkable;
    }
  }

  /** Among the visits below a directory, those at its own entries are, in order, each entry once, and each
      descended directory first before and then after everything below it. */
  lemma {:induction false} EntriesVisitedOnce(fs: FileSystem, items: seq<Item>, path: seq<string>, ancestors: set<FileId>)
    requires Closed(fs) && AllWalkable(fs, items, ancestors)
    ensures AtDepth(Walk(fs, items, path, ancestors), |path| + 1) == Once(items, path)
  {
    if items != [] {
      var it := items[0];
      var here, n := path + [it.name], |path| + 1;
      WalkFirst(fs, items, path, ancestors);
      EntriesVisitedOnce(fs, items[1..], path, ancestors);
      var rest := Walk(fs, items[1..], path, ancestors);
      if it.info == D {
        var below := Walk(fs, Children(fs, it.id, ancestors), here, ancestors + {it.id});
        WalkIsBelow(fs, Children(fs, it.id, ancestors), here, ancestors + {it.id});
        hide Walk, Children, AllWalkable;
        NoneAtDepth(below, n);
        Framed(Visit(here, D), below, Visit(here, DP), rest, n);
      } else {
        hide Walk, AllWalkable;
        AtDepthJoin([Visit(here, it.info)], rest, n);
        OneAtDepth(Visit(here, it.info), n);
        assert [Visit(here, it.info)] + [] + rest == [Visit(here, it.info)] + rest;
      }
    }
  }

  lemma OneAtDepth(v: Visit, n: nat)
    ensures AtDepth([v], n) == if |v.path| == n then [v] else []
  {
    assert [v][1..] == [];
  }

  lemma Framed(first: Visit, below: seq<Visit>, last: Visit, rest: seq<Visit>, n: nat)
    requires |first.path| == |last.path| == n && AtDepth(below, n) == []
    ensures AtDepth([first] + (below + [last]) + rest, n) == [first, last] + AtDepth(rest, n)
  {
    AtDepthJoin([first] + (below + [last]), rest, n);
    AtDepthJoin([first], below + [last], n);
    AtDepthJoin(below, [last], n);
    OneAtDepth(first, n);
    OneAtDepth(last, n);
  }

  lemma WalkableSlices(fs: FileSystem, items: seq<Item>, ancestors: set<FileId>, k: nat)
    requires AllWalkable(fs, items, ancestors) && k <= |items|
    ensures AllWalkable(fs, items[..k], ancestors) && AllWalkable(fs, items[k..], ancestors)
  {
    hide Walkable;
  }

  lemma {:induction false} WalkSplits(fs: FileSystem, items: seq<Item>, path: seq<string>, ancestors: set<FileId>, k: nat)
    requires Closed(fs) && AllWalkable(fs, items, ancestors) && k <= |items|
    ensures AllWalkable(fs, items[..k], ancestors) && AllWalkable(fs, items[k..], ancestors)
    ensures Walk(fs, items, path, ancestors) == Walk(fs, items[..k], path, ancestors) + Walk(fs, items[k..], path, ancestors)
    decreases k
  {
    WalkableSlices(fs, items, ancestors, k);
    if k == 0 {
      assert items[..0] == [] && items[0..] == items;
    } else {
      hide Walk, Children, AllWalkable, Walkable, Closed;
      var front, rest := items[..k], items[1..];
      assert rest[..k - 1] == front[1..] && rest[k - 1..] == items[k..] && front[0] == items[0];
      var own := OwnVisits(fs, items, path, ancestors);
      var own' := OwnVisits(fs, front, path, ancestors);
      WalkSplits(fs, rest, path, ancestors, k - 1);
      var a, b := Walk(fs, front[1..], path, ancestors), Walk(fs, items[k..], path, ancestors);
      assert own + (a + b) == (own + a) + b;
    }
  }

  /** What the first item adds to a walk depends on it alone. */
  lemma OwnVisits(fs: FileSystem, items: seq<Item>, path: seq<string>, ancestors: set<FileId>) returns (own: seq<Visit>)
    requires Closed(fs) && AllWalkable(fs, items, ancestors) && items != []
    ensures AllWalkable(fs, items[1..], ancestors) && Walkable(fs, items[0], ancestors)
    ensures var it := items[0]; var here := path + [it.name];
      own == [Visit(here, it.info)]
        + (if it.info == D then Walk(fs, Children(fs, it.id, ancestors), here, ancestors + {it.id}) + [Visit(here, DP)] else [])
    ensures Walk(fs, items, path, ancestors) == own + Walk(fs, items[1..], path, ancestors)
  {
    WalkFirst(fs, items, path, ancestors);
    var it := items[0];
    var here := path + [it.name];
    own := [Visit(here, it.info)]
      + (if it.info == D then Walk(fs, Children(fs, it.id, ancestors), here, ancestors + {it.id}) + [Visit(here, DP)] else []);
  }

  /** The visits below a descended directory stand between its own two, and are those of its children. */
  lemma BelowStandsBetween(fs: FileSystem, items: seq<Item>, path: seq<string>, ancestors: set<FileId>, i: nat)
    requires Closed(fs) && AllWalkable(fs, items, ancestors) && i < |items| && items[i].info == D
    ensures AllWalkable(fs, items[..i], ancestors) && AllWalkable(fs, items[i + 1..], ancestors) && Walkable(fs, items[i], ancestors)
    ensures var here := path + [items[i].name];
      Walk(fs, items, path, ancestors) == Walk(fs, items[..i], path, ancestors)
        + ([Visit(here, D)] + (Walk(fs, Children(fs, items[i].id, ancestors), here, ancestors + {items[i].id}) + [Visit(here, DP)])
           + Walk(fs, items[i + 1..], path, ancestors))
  {
    WalkSplits(fs, items, path, ancestors, i);
    assert items[i..][1..] == items[i + 1..] && items[i..][0] == items[i];
    WalkFirst(fs, items[i..], path, ancestors);
    hide Walk, Children, AllWalkable;
  }

  /** The roots of a walk are visited once each, in the order given, directories before and after. */
  lemma RootsVisitedOnce(fs: FileSystem, roots: seq<Dirent>)
    requires Closed(fs) && EntriesKnown(fs, roots)
    ensures AtDepth(WalkRoots(fs, roots), 1) == Once(RootItems(fs, roots), [])
  {
    RootsWalkable(fs, roots);
    EntriesVisitedOnce(fs, RootItems(fs, roots), [], {});
  }
}
