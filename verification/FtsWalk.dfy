/** The meaning of a file tree walk, and the walk as a machine over a stack of sibling lists
    (src/fts.c without its linked lists; module Fts adds those). */
module FtsWalk {
  import opened Options

  datatype FileId = FileId(dev: int, ino: int)

  /** What stat or lstat reports about an entry. */
  datatype Stat = Directory(id: FileId) | Symlink | Regular | OtherKind

  /** A directory entry with the outcomes of lstat and of stat (which follows symbolic links). */
  datatype Dirent = Dirent(name: string, lst: Option<Stat>, st: Option<Stat>)

  /** fts_info values. */
  datatype Info = INIT | D | DP | DC | DOT | F | SL | SLNONE | NS | DEFAULT

  /** An unchanging file system: the entries of every directory, and the walk's options. */
  datatype FileSystem = FileSystem(dirs: map<FileId, seq<Dirent>>, logical: bool, seeDot: bool, comFollow: bool)

  predicate StatKnown(fs: FileSystem, s: Option<Stat>) {
    s.Some? && s.value.Directory? ==> s.value.id in fs.dirs
  }

  predicate EntriesKnown(fs: FileSystem, es: seq<Dirent>) {
    forall i :: 0 <= i < |es| ==> StatKnown(fs, es[i].lst) && StatKnown(fs, es[i].st)
  }

  /** Every directory that an entry leads to can be read. */
  predicate Closed(fs: FileSystem) {
    forall id :: id in fs.dirs ==> EntriesKnown(fs, fs.dirs[id])
  }

  predicate IsDot(name: string) { name == "." || name == ".." }

  // ----- fts_stat

  /** What a walk knows of an entry once it has been classified; id matters only for directories. */
  datatype Item = Item(name: string, info: Info, id: FileId)

  const NoId := FileId(0, 0)

  function ClassifyStat(name: string, s: Stat, ancestors: set<FileId>): Item {
    match s
    case Directory(id) =>
      if IsDot(name) then Item(name, DOT, id)
      else if id in ancestors then Item(name, DC, id)
      else Item(name, D, id)
    case Symlink => Item(name, SL, NoId)
    case Regular => Item(name, F, NoId)
    case OtherKind => Item(name, DEFAULT, NoId)
  }

  /** fts_stat, with the directories on the way from the root as ancestors. */
  function Classify(fs: FileSystem, e: Dirent, follow: bool, ancestors: set<FileId>): Item {
    if fs.logical || follow then
      if e.st.Some? then ClassifyStat(e.name, e.st.value, ancestors)
      else if e.lst.Some? then Item(e.name, SLNONE, NoId)
      else Item(e.name, NS, NoId)
    else if e.lst.Some? then ClassifyStat(e.name, e.lst.value, ancestors)
    else Item(e.name, NS, NoId)
  }

  /** No entry of a directory is the walk's dummy. */
  predicate AllReal(items: seq<Item>) {
    forall i :: 0 <= i < |items| ==> items[i].info != INIT
  }

  /** The classified entries fts_build links together, in directory order. */
  function ClassifyAll(fs: FileSystem, es: seq<Dirent>, ancestors: set<FileId>): (r: seq<Item>)
    ensures AllReal(r)
  {
    if es == [] then []
    else
      var rest := ClassifyAll(fs, es[1..], ancestors);
      if !fs.seeDot && IsDot(es[0].name) then rest else [Classify(fs, es[0], false, ancestors)] + rest
  }

  /** The command-line roots: "." and ".." are real directories there. */
  function RootItem(fs: FileSystem, e: Dirent): Item {
    var it := Classify(fs, e, fs.comFollow, {});
    if it.info == DOT then it.(info := D) else it
  }

  function RootItems(fs: FileSystem, es: seq<Dirent>): (r: seq<Item>)
    ensures |r| == |es| && AllReal(r)
  {
    if es == [] then [] else [RootItem(fs, es[0])] + RootItems(fs, es[1..])
  }

  // ----- the recursive traversal

  datatype Visit = Visit(path: seq<string>, info: Info)

  /** Directories to descend into can be read and are not among their own ancestors. */
  ghost predicate Walkable(fs: FileSystem, it: Item, ancestors: set<FileId>) {
    it.info == D ==> it.id in fs.dirs && it.id !in ancestors
  }

  ghost predicate AllWalkable(fs: FileSystem, items: seq<Item>, ancestors: set<FileId>) {
    forall i :: 0 <= i < |items| ==> Walkable(fs, items[i], ancestors)
  }

  lemma {:induction false} ChildrenWalkable(fs: FileSystem, es: seq<Dirent>, ancestors: set<FileId>)
    requires EntriesKnown(fs, es)
    ensures AllWalkable(fs, ClassifyAll(fs, es, ancestors), ancestors)
  {
    if es != [] {
      ChildrenWalkable(fs, es[1..], ancestors);
      assert StatKnown(fs, es[0].lst) && StatKnown(fs, es[0].st);
    }
  }

  lemma {:induction false} RootsWalkable(fs: FileSystem, es: seq<Dirent>)
    requires EntriesKnown(fs, es)
    ensures AllWalkable(fs, RootItems(fs, es), {})
  {
    if es != [] {
      RootsWalkable(fs, es[1..]);
      assert StatKnown(fs, es[0].lst) && StatKnown(fs, es[0].st);
    }
  }

  function Children(fs: FileSystem, id: FileId, ancestors: set<FileId>): (r: seq<Item>)
    requires Closed(fs) && id in fs.dirs
    ensures AllWalkable(fs, r, ancestors + {id}) && AllReal(r)
  {
    ChildrenWalkable(fs, fs.dirs[id], ancestors + {id});
    ClassifyAll(fs, fs.dirs[id], ancestors + {id})
  }

  lemma SmallerFrontier(fs: FileSystem, id: FileId, ancestors: set<FileId>)
    requires id in fs.dirs && id !in ancestors
    ensures |fs.dirs.Keys - (ancestors + {id})| < |fs.dirs.Keys - ancestors|
  {
    var a, b := fs.dirs.Keys - (ancestors + {id}), fs.dirs.Keys - ancestors;
    assert a + {id} == b;
    assert |a + {id}| == |a| + 1;
  }

  /** Each directory once before and once after its contents, every other entry once. */
  function Walk(fs: FileSystem, items: seq<Item>, path: seq<string>, ancestors: set<FileId>): seq<Visit>
    requires Closed(fs) && AllWalkable(fs, items, ancestors)
    decreases |fs.dirs.Keys - ancestors|, |items|
  {
    if items == [] then []
    else
      var it := items[0];
      var here := path + [it.name];
      (if it.info == D then
         SmallerFrontier(fs, it.id, ancestors);
         [Visit(here, D)] + Walk(fs, Children(fs, it.id, ancestors), here, ancestors + {it.id}) + [Visit(here, DP)]
       else [Visit(here, it.info)])
      + Walk(fs, items[1..], path, ancestors)
  }

  function WalkRoots(fs: FileSystem, roots: seq<Dirent>): seq<Visit>
    requires Closed(fs) && EntriesKnown(fs, roots)
  {
    RootsWalkable(fs, roots);
    Walk(fs, RootItems(fs, roots), [], {})
  }

  // ----- the walk as a machine

  /** One level of the walk: the entry reached, its later siblings, and the path of its parent. */
  datatype Frame = Frame(cur: Item, rest: seq<Item>, dir: seq<string>)

  function Here(f: Frame): seq<string> { f.dir + [f.cur.name] }

  /** The directories above level n. */
  function Ancestors(stack: seq<Frame>, n: nat): set<FileId>
    requires n <= |stack|
  {
    if n == 0 then {} else Ancestors(stack, n - 1) + {stack[n - 1].cur.id}
  }

  ghost predicate FrameOk(fs: FileSystem, stack: seq<Frame>, l: nat)
    requires l < |stack|
  {
    && AllWalkable(fs, stack[l].rest, Ancestors(stack, l))
    && stack[l].dir == (if l == 0 then [] else Here(stack[l - 1]))
    && (l + 1 < |stack| ==> stack[l].cur.info == D)
    && Walkable(fs, stack[l].cur, Ancestors(stack, l))
  }

  ghost predicate StackOk(fs: FileSystem, stack: seq<Frame>) {
    Closed(fs) && stack != [] && forall l :: 0 <= l < |stack| ==> FrameOk(fs, stack, l)
  }

  /** What remains to be visited after the subtree of level n's entry is finished. */
  function Rest(fs: FileSystem, stack: seq<Frame>, n: nat): seq<Visit>
    requires StackOk(fs, stack) && n < |stack|
  {
    assert FrameOk(fs, stack, n);
    Walk(fs, stack[n].rest, stack[n].dir, Ancestors(stack, n))
    + if n == 0 then [] else [Visit(Here(stack[n - 1]), DP)] + Rest(fs, stack, n - 1)
  }

  /** What remains to be visited after the current entry has been returned. */
  function Pending(fs: FileSystem, stack: seq<Frame>): seq<Visit>
    requires StackOk(fs, stack)
  {
    var n := |stack| - 1;
    assert FrameOk(fs, stack, n);
    var top := stack[n];
    if top.cur.info == D then
      Walk(fs, Children(fs, top.cur.id, Ancestors(stack, n)), Here(top), Ancestors(stack, n) + {top.cur.id})
      + [Visit(Here(top), DP)] + Rest(fs, stack, n)
    else Rest(fs, stack, n)
  }

  /** The state fts_open leaves: a dummy in front of the roots. */
  function Opened(fs: FileSystem, roots: seq<Dirent>): seq<Frame> {
    [Frame(Item("", INIT, NoId), RootItems(fs, roots), [])]
  }

  /** The entries of the directory the walk has reached. */
  function TopChildren(fs: FileSystem, stack: seq<Frame>): (r: seq<Item>)
    requires StackOk(fs, stack) && stack[|stack| - 1].cur.info == D
    ensures AllReal(r)
  {
    var n := |stack| - 1;
    assert FrameOk(fs, stack, n);
    Children(fs, stack[n].cur.id, Ancestors(stack, n))
  }

  /** Between fts_open and the first fts_read a dummy stands in front of at least one root. */
  ghost predicate DummyOk(stack: seq<Frame>) {
    && (forall l :: 0 <= l < |stack| ==> AllReal(stack[l].rest))
    && (forall l :: 0 <= l < |stack| && stack[l].cur.info == INIT ==> |stack| == 1 && stack[l].rest != [])
  }

  lemma StepKeepsDummyOk(fs: FileSystem, stack: seq<Frame>)
    requires StackOk(fs, stack) && DummyOk(stack)
    ensures DummyOk(Step(fs, stack))
    ensures var s' := Step(fs, stack); forall l :: 0 <= l < |s'| ==> s'[l].cur.info != INIT
  {
    var n := |stack| - 1;
    var top := stack[n];
    hide StackOk, Children;
    assert AllReal(top.rest);
    if top.cur.info == D {
      var kids := TopChildren(fs, stack);
      assert kids != [] ==> kids[0].info != INIT && AllReal(kids[1..]);
    } else if top.rest != [] {
      assert top.rest[0].info != INIT && AllReal(top.rest[1..]);
    }
  }

  lemma TopChildrenRead(fs: FileSystem, stack: seq<Frame>)
    requires StackOk(fs, stack) && stack[|stack| - 1].cur.info == D
    ensures var id := stack[|stack| - 1].cur.id;
      id in fs.dirs && TopChildren(fs, stack) == ClassifyAll(fs, fs.dirs[id], Ancestors(stack, |stack|))
  {
    assert FrameOk(fs, stack, |stack| - 1);
  }

  /** One call of fts_read: down to the first child, on to the next sibling, or up to the parent. */
  function Step(fs: FileSystem, stack: seq<Frame>): seq<Frame>
    requires StackOk(fs, stack)
  {
    var n := |stack| - 1;
    assert FrameOk(fs, stack, n);
    var top := stack[n];
    if top.cur.info == D then
      var kids := TopChildren(fs, stack);
      if kids == [] then stack[n := top.(cur := top.cur.(info := DP))]
      else stack + [Frame(kids[0], kids[1..], Here(top))]
    else if top.rest != [] then stack[n := Frame(top.rest[0], top.rest[1..], top.dir)]
    else if n == 0 then []
    else stack[..n][n - 1 := stack[n - 1].(cur := stack[n - 1].cur.(info := DP))]
  }

  // ----- the machine and the traversal agree

  /** The entry the walk has just returned. */
  function Returned(stack: seq<Frame>): Visit
    requires stack != []
  {
    Visit(Here(stack[|stack| - 1]), stack[|stack| - 1].cur.info)
  }

  /** Levels below n do not look at what is above them. */
  lemma {:induction false} AncestorsPrefix(a: seq<Frame>, b: seq<Frame>, n: nat)
    requires n <= |a| && n <= |b| && forall l :: 0 <= l < n ==> a[l].cur.id == b[l].cur.id
    ensures Ancestors(a, n) == Ancestors(b, n)
  {
    if n > 0 { AncestorsPrefix(a, b, n - 1); }
  }

  /** Two stacks that agree up to level n, except for the info of the entries reached. */
  ghost predicate AgreeBelow(a: seq<Frame>, b: seq<Frame>, n: nat) {
    n <= |a| && n <= |b| && forall l :: 0 <= l < n ==>
      a[l].rest == b[l].rest && a[l].dir == b[l].dir && a[l].cur.id == b[l].cur.id && a[l].cur.name == b[l].cur.name
  }

  lemma {:induction false} RestAgrees(fs: FileSystem, a: seq<Frame>, b: seq<Frame>, n: nat)
    requires StackOk(fs, a) && StackOk(fs, b) && n < |a| && n < |b| && AgreeBelow(a, b, n + 1)
    ensures Rest(fs, a, n) == Rest(fs, b, n)
  {
    AncestorsPrefix(a, b, n);
    if n > 0 { RestAgrees(fs, a, b, n - 1); }
  }

  lemma FrameAgrees(fs: FileSystem, a: seq<Frame>, b: seq<Frame>, l: nat)
    requires l < |a| && l < |b| && FrameOk(fs, a, l) && AgreeBelow(a, b, l + 1)
    requires l + 1 < |b| ==> b[l].cur.info == D
    requires b[l].cur.info == a[l].cur.info || b[l].cur.info != D
    ensures FrameOk(fs, b, l)
  {
    AncestorsPrefix(a, b, l);
    if l > 0 { assert Here(a[l - 1]) == Here(b[l - 1]); }
  }

  /** Down: the first child. */
  lemma DownStep(fs: FileSystem, stack: seq<Frame>, kids: seq<Item>)
    requires StackOk(fs, stack) && stack[|stack| - 1].cur.info == D && kids != []
    requires FrameOk(fs, stack, |stack| - 1)
    requires kids == Children(fs, stack[|stack| - 1].cur.id, Ancestors(stack, |stack| - 1))
    ensures var top := stack[|stack| - 1]; var s' := stack + [Frame(kids[0], kids[1..], Here(top))];
      StackOk(fs, s') && Pending(fs, stack) == [Returned(s')] + Pending(fs, s')
  {
    hide Walk, ClassifyAll, AllWalkable, Walkable;
    var n := |stack| - 1;
    var top := stack[n];
    var s' := stack + [Frame(kids[0], kids[1..], Here(top))];
    DownOk(fs, stack, kids, s');
    RestAgrees(fs, stack, s', n);
    WalkFirst(fs, kids, Here(top), Ancestors(s', n + 1));
    assert Rest(fs, s', n + 1) == Walk(fs, kids[1..], Here(top), Ancestors(s', n + 1)) + ([Visit(Here(top), DP)] + Rest(fs, stack, n));
  }

  lemma {:induction false} DownOk(fs: FileSystem, stack: seq<Frame>, kids: seq<Item>, s': seq<Frame>)
    requires StackOk(fs, stack) && stack[|stack| - 1].cur.info == D && kids != []
    requires AllWalkable(fs, kids, Ancestors(stack, |stack| - 1) + {stack[|stack| - 1].cur.id})
    requires s' == stack + [Frame(kids[0], kids[1..], Here(stack[|stack| - 1]))]
    ensures StackOk(fs, s')
    ensures Ancestors(s', |stack|) == Ancestors(stack, |stack| - 1) + {stack[|stack| - 1].cur.id}
  {
    var n := |stack| - 1;
    AncestorsPrefix(stack, s', n);
    WalkableParts(fs, kids, Ancestors(s', n + 1));
    hide AllWalkable, Walkable;
    forall l | 0 <= l <= n ensures FrameOk(fs, s', l) {
      assert FrameOk(fs, stack, l);
      FrameAgrees(fs, stack, s', l);
    }
    assert FrameOk(fs, s', n + 1);
  }

  /** Reading off the first entry of a traversal. */
  lemma WalkFirst(fs: FileSystem, items: seq<Item>, path: seq<string>, ancestors: set<FileId>)
    requires Closed(fs) && AllWalkable(fs, items, ancestors) && items != []
    ensures AllWalkable(fs, items[1..], ancestors) && Walkable(fs, items[0], ancestors)
    ensures var it := items[0]; var here := path + [it.name];
      Walk(fs, items, path, ancestors) ==
        [Visit(here, it.info)]
        + (if it.info == D then Walk(fs, Children(fs, it.id, ancestors), here, ancestors + {it.id}) + [Visit(here, DP)] else [])
        + Walk(fs, items[1..], path, ancestors)
  {
    assert Walkable(fs, items[0], ancestors);
  }

  /** Across: the next sibling. */
  lemma AcrossStep(fs: FileSystem, stack: seq<Frame>)
    requires StackOk(fs, stack) && stack[|stack| - 1].cur.info != D && stack[|stack| - 1].rest != []
    ensures var n := |stack| - 1; var top := stack[n]; var s' := stack[n := Frame(top.rest[0], top.rest[1..], top.dir)];
      StackOk(fs, s') && Pending(fs, stack) == [Returned(s')] + Pending(fs, s')
  {
    hide Walk, ClassifyAll;
    var n := |stack| - 1;
    var top := stack[n];
    assert FrameOk(fs, stack, n);
    var s' := stack[n := Frame(top.rest[0], top.rest[1..], top.dir)];
    AcrossOk(fs, stack, s');
    if n > 0 { RestAgrees(fs, stack, s', n - 1); }
    WalkFirst(fs, top.rest, top.dir, Ancestors(stack, n));
  }

  lemma {:induction false} AcrossOk(fs: FileSystem, stack: seq<Frame>, s': seq<Frame>)
    requires StackOk(fs, stack) && stack[|stack| - 1].rest != []
    requires var n := |stack| - 1; var top := stack[n]; s' == stack[n := Frame(top.rest[0], top.rest[1..], top.dir)]
    ensures StackOk(fs, s') && Ancestors(s', |stack| - 1) == Ancestors(stack, |stack| - 1)
  {
    var n := |stack| - 1;
    AncestorsPrefix(stack, s', n);
    assert FrameOk(fs, stack, n);
    WalkableParts(fs, stack[n].rest, Ancestors(stack, n));
    hide AllWalkable, Walkable;
    if n > 0 { assert s'[n - 1] == stack[n - 1]; }
    forall l | 0 <= l < n ensures FrameOk(fs, s', l) {
      assert FrameOk(fs, stack, l);
      FrameAgrees(fs, stack, s', l);
    }
  }

  lemma WalkableParts(fs: FileSystem, items: seq<Item>, ancestors: set<FileId>)
    requires AllWalkable(fs, items, ancestors) && items != []
    ensures Walkable(fs, items[0], ancestors) && AllWalkable(fs, items[1..], ancestors)
  {
  }

  /** A directory without entries is returned again at once. */
  lemma EmptyStep(fs: FileSystem, stack: seq<Frame>)
    requires StackOk(fs, stack) && stack[|stack| - 1].cur.info == D
    requires FrameOk(fs, stack, |stack| - 1)
    requires Children(fs, stack[|stack| - 1].cur.id, Ancestors(stack, |stack| - 1)) == []
    ensures var n := |stack| - 1; var top := stack[n]; var s' := stack[n := top.(cur := top.cur.(info := DP))];
      StackOk(fs, s') && Pending(fs, stack) == [Returned(s')] + Pending(fs, s')
  {
    var n := |stack| - 1;
    var top := stack[n];
    var s' := stack[n := top.(cur := top.cur.(info := DP))];
    forall l | 0 <= l < |s'| ensures FrameOk(fs, s', l) {
      assert FrameOk(fs, stack, l);
      FrameAgrees(fs, stack, s', l);
    }
    RestAgrees(fs, stack, s', n);
  }

  /** Up: the parent, in post-order. */
  lemma UpStep(fs: FileSystem, stack: seq<Frame>)
    requires StackOk(fs, stack) && |stack| >= 2
    requires stack[|stack| - 1].cur.info != D && stack[|stack| - 1].rest == []
    ensures var n := |stack| - 1;
      var s' := stack[..n][n - 1 := stack[n - 1].(cur := stack[n - 1].cur.(info := DP))];
      StackOk(fs, s') && Pending(fs, stack) == [Returned(s')] + Pending(fs, s')
  {
    var n := |stack| - 1;
    var s' := stack[..n][n - 1 := stack[n - 1].(cur := stack[n - 1].cur.(info := DP))];
    assert FrameOk(fs, stack, n);
    forall l | 0 <= l < |s'| ensures FrameOk(fs, s', l) {
      assert FrameOk(fs, stack, l);
      FrameAgrees(fs, stack, s', l);
    }
    RestAgrees(fs, stack, s', n - 1);
  }

  /** Each call returns exactly the next visit of the recursive traversal, and the walk ends exactly when
      there is none left. */
  lemma StepIsNextVisit(fs: FileSystem, stack: seq<Frame>)
    requires StackOk(fs, stack)
    ensures var s' := Step(fs, stack);
      if s' == [] then Pending(fs, stack) == []
      else StackOk(fs, s') && Pending(fs, stack) == [Returned(s')] + Pending(fs, s')
  {
    var n := |stack| - 1;
    assert FrameOk(fs, stack, n);
    hide Pending, Walk, Rest;
    if stack[n].cur.info == D {
      var kids := Children(fs, stack[n].cur.id, Ancestors(stack, n));
      if kids == [] { EmptyStep(fs, stack); } else { DownStep(fs, stack, kids); }
    } else if stack[n].rest != [] {
      AcrossStep(fs, stack);
    } else if n > 0 {
      UpStep(fs, stack);
    } else {
      LastStep(fs, stack);
    }
  }

  lemma LastStep(fs: FileSystem, stack: seq<Frame>)
    requires StackOk(fs, stack) && |stack| == 1 && stack[0].cur.info != D && stack[0].rest == []
    ensures Pending(fs, stack) == []
  {
    assert FrameOk(fs, stack, 0);
  }

  lemma OpenedIsWholeWalk(fs: FileSystem, roots: seq<Dirent>)
    requires Closed(fs) && EntriesKnown(fs, roots)
    ensures StackOk(fs, Opened(fs, roots)) && Pending(fs, Opened(fs, roots)) == WalkRoots(fs, roots)
  {
    RootsWalkable(fs, roots);
    var stack := Opened(fs, roots);
    assert FrameOk(fs, stack, 0);
  }

  // ----- cycles

  /** The chain of directories being walked never repeats one, so it is no longer than there are
      directories, even in a file system whose directories contain each other. */
  lemma {:induction false} ChainHasNoRepeats(fs: FileSystem, stack: seq<Frame>, n: nat)
    requires StackOk(fs, stack) && n < |stack|
    ensures |Ancestors(stack, n)| == n && Ancestors(stack, n) <= fs.dirs.Keys
    ensures forall l :: 0 <= l < n ==> stack[l].cur.id in Ancestors(stack, n)
  {
    if n > 0 {
      ChainHasNoRepeats(fs, stack, n - 1);
      assert FrameOk(fs, stack, n - 1);
    }
  }

  lemma DepthBounded(fs: FileSystem, stack: seq<Frame>)
    requires StackOk(fs, stack)
    ensures |stack| <= |fs.dirs| + 1
    ensures forall l, m :: 0 <= l < m < |stack| - 1 ==> stack[l].cur.id != stack[m].cur.id
  {
    var n := |stack| - 1;
    ChainHasNoRepeats(fs, stack, n);
    SubsetSize(Ancestors(stack, n), fs.dirs.Keys);
    forall l, m | 0 <= l < m < |stack| - 1 ensures stack[l].cur.id != stack[m].cur.id {
      ChainHasNoRepeats(fs, stack, m);
      assert FrameOk(fs, stack, m);
    }
  }

  lemma {:induction false} SubsetSize(a: set<FileId>, b: set<FileId>)
    requires a <= b
    ensures |a| <= |b|
  {
    if a != {} {
      var x :| x in a;
      SubsetSize(a - {x}, b - {x});
    }
  }

  lemma {:induction false} InAncestors(stack: seq<Frame>, n: nat, id: FileId)
    requires n <= |stack|
    ensures id in Ancestors(stack, n) <==> exists l :: 0 <= l < n && stack[l].cur.id == id
  {
    if n > 0 {
      InAncestors(stack, n - 1, id);
      assert stack[n - 1].cur.id == id ==> exists l :: 0 <= l < n && stack[l].cur.id == id;
    }
  }

  /** An entry of the directory reached that is itself a directory is marked DC exactly when that
      directory or one on the way to it is the same one, and D, to be descended into, otherwise. */
  lemma CycleMark(fs: FileSystem, stack: seq<Frame>, e: Dirent, id: FileId)
    requires (if fs.logical then e.st else e.lst) == Some(Directory(id)) && !IsDot(e.name)
    ensures var info := Classify(fs, e, false, Ancestors(stack, |stack|)).info;
      && (info == DC <==> exists l :: 0 <= l < |stack| && stack[l].cur.id == id)
      && (info == D <==> forall l :: 0 <= l < |stack| ==> stack[l].cur.id != id)
  {
    InAncestors(stack, |stack|, id);
  }
}
