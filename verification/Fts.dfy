/** The file tree walk of src/fts.c on its linked FTSENT nodes: fts_open, fts_read, fts_build and
    fts_stat, proved to perform the steps of the machine in module FtsWalk. */
module Fts {
  import opened FtsWalk

  /** An FTSENT; path, level, parent and the (dev, ino) pair are set once when the node is made. */
  class Ent {
    const name: string
    const path: seq<string>
    const level: int
    const parent: Ent?
    const id: FileId
    var info: Info
    var link: Ent?

    constructor (name: string, path: seq<string>, level: int, parent: Ent?, info: Info, id: FileId)
      ensures this.name == name && this.path == path && this.level == level && this.parent == parent
      ensures this.info == info && this.id == id && link == null
    {
      this.name, this.path, this.level, this.parent := name, path, level, parent;
      this.info, this.id, link := info, id, null;
    }
  }

  ghost function ItemOf(e: Ent): Item
    reads e
  {
    Item(e.name, e.info, e.id)
  }

  ghost predicate Member(e: Ent, parent: Ent, level: int, dir: seq<string>) {
    e.parent == parent && e.level == level && e.path == dir + [e.name]
  }

  /** The nodes are linked in this order and carry these items, as children of one parent. Only the
      dummy that fts_open puts in front of the roots has no parent. */
  ghost predicate ListOf(nodes: seq<Ent>, items: seq<Item>, parent: Ent, level: int, dir: seq<string>)
    reads nodes
  {
    && |nodes| == |items|
    && (forall i :: 0 <= i < |nodes| ==> ItemOf(nodes[i]) == items[i])
    && (forall i :: 0 <= i < |nodes| && (i > 0 || items[i].info != INIT) ==> Member(nodes[i], parent, level, dir))
    && (forall i :: 0 <= i < |nodes| - 1 ==> nodes[i].link == nodes[i + 1])
    && (nodes != [] ==> nodes[|nodes| - 1].link == null)
    && (forall i, j :: 0 <= i < j < |nodes| ==> nodes[i] != nodes[j])
  }

  lemma ListRest(nodes: seq<Ent>, items: seq<Item>, parent: Ent, level: int, dir: seq<string>)
    requires ListOf(nodes, items, parent, level, dir) && nodes != []
    ensures ListOf(nodes[1..], items[1..], parent, level, dir)
    ensures nodes[0].link == (if |nodes| > 1 then nodes[1] else null)
  {
  }

  /** Puts p behind the last node of a list (the first if the list is empty). */
  method Append(ghost nodes: seq<Ent>, ghost items: seq<Item>, head: Ent?, tail: Ent?, p: Ent,
                ghost parent: Ent, ghost level: int, ghost dir: seq<string>)
    returns (head': Ent)
    requires ListOf(nodes, items, parent, level, dir) && p !in nodes
    requires if nodes == [] then head == tail == null else head == nodes[0] && tail == nodes[|nodes| - 1]
    requires Member(p, parent, level, dir)
    modifies p`link, (if tail != null then {tail} else {})`link
    ensures ListOf(nodes + [p], items + [old(ItemOf(p))], parent, level, dir)
    ensures head' == (nodes + [p])[0] && ItemOf(p) == old(ItemOf(p))
  {
    p.link := null;
    if head == null {
      head' := p;
    } else {
      tail.link := p;
      head' := head;
    }
  }

  /** Puts the dummy in front of a list. */
  method PutInFront(dummy: Ent, head: Ent?, ghost nodes: seq<Ent>, ghost items: seq<Item>,
                    ghost parent: Ent, ghost level: int, ghost dir: seq<string>)
    requires ListOf(nodes, items, parent, level, dir) && dummy !in nodes && dummy.info == INIT
    requires head == (if nodes == [] then null else nodes[0])
    requires forall i :: 0 <= i < |items| ==> items[i].info != INIT
    modifies dummy`link
    ensures ListOf([dummy] + nodes, [old(ItemOf(dummy))] + items, parent, level, dir)
  {
    dummy.link := head;
  }

  // ----- the levels of a walk

  ghost function Parent(levels: seq<seq<Ent>>, rootParent: Ent, l: nat): Ent
    requires l <= |levels| && (l > 0 ==> levels[l - 1] != [])
  {
    if l == 0 then rootParent else levels[l - 1][0]
  }

  ghost function Nodes(levels: seq<seq<Ent>>): (r: set<Ent>)
    ensures forall l, e :: 0 <= l < |levels| && e in levels[l] ==> e in r
  {
    set l, i | 0 <= l < |levels| && 0 <= i < |levels[l]| :: levels[l][i]
  }

  lemma NodesPushed(levels: seq<seq<Ent>>, nodes: seq<Ent>)
    ensures Nodes(levels + [nodes]) <= Nodes(levels) + set e | e in nodes
  {
  }

  ghost function FrameItems(f: Frame): seq<Item> { [f.cur] + f.rest }

  /** The list on level l carries the stack's frame l; its first node is the one reached there. */
  ghost predicate LevelRep(levels: seq<seq<Ent>>, stack: seq<Frame>, rootParent: Ent, l: nat)
    reads Nodes(levels)
  {
    && l < |levels| && l < |stack| && |levels[l]| == 1 + |stack[l].rest| && (l > 0 ==> levels[l - 1] != [])
    && ListOf(levels[l], FrameItems(stack[l]), Parent(levels, rootParent, l), l, stack[l].dir)
  }

  /** The sibling lists from the roots down to the current node represent the machine's stack. */
  ghost predicate Represents(levels: seq<seq<Ent>>, stack: seq<Frame>, rootParent: Ent)
    reads Nodes(levels)
  {
    |levels| == |stack| && forall l :: 0 <= l < |levels| ==> LevelRep(levels, stack, rootParent, l)
  }

  /** Levels of two walks that look the same are represented the same. */
  lemma SameLevel(levels: seq<seq<Ent>>, stack: seq<Frame>, levels': seq<seq<Ent>>, stack': seq<Frame>, rootParent: Ent, l: nat)
    requires LevelRep(levels, stack, rootParent, l) && l < |levels'| && l < |stack'|
    requires levels'[l] == levels[l] && stack'[l] == stack[l]
    requires l > 0 ==> levels'[l - 1] != [] && levels'[l - 1][0] == levels[l - 1][0]
    ensures LevelRep(levels', stack', rootParent, l)
  {
    hide ListOf;
  }

  /** The nodes reached on each level lead up to the roots' common parent. */
  ghost predicate LeadsUp(levels: seq<seq<Ent>>, stack: seq<Frame>, rootParent: Ent) {
    && rootParent.level == -1 && |levels| == |stack|
    && (forall l :: 0 <= l < |levels| ==> levels[l] != [])
    && (forall l :: 0 <= l < |levels| ==>
          && levels[l][0].id == stack[l].cur.id && levels[l][0].level == l
          && levels[l][0].parent == Parent(levels, rootParent, l))
  }

  lemma RepresentedLeadsUp(levels: seq<seq<Ent>>, stack: seq<Frame>, rootParent: Ent)
    requires Represents(levels, stack, rootParent) && rootParent.level == -1
    requires forall l :: 0 <= l < |stack| ==> stack[l].cur.info != INIT
    ensures LeadsUp(levels, stack, rootParent)
    ensures forall l :: 0 <= l < |levels| ==> levels[l][0].path == stack[l].dir + [stack[l].cur.name]
  {
    forall l | 0 <= l < |levels| ensures levels[l] != [] {
      assert LevelRep(levels, stack, rootParent, l);
    }
    forall l | 0 <= l < |levels|
      ensures levels[l][0].id == stack[l].cur.id
      ensures Member(levels[l][0], Parent(levels, rootParent, l), l, stack[l].dir)
      ensures levels[l][0].path == stack[l].dir + [stack[l].cur.name]
    {
      assert LevelRep(levels, stack, rootParent, l);
      assert ItemOf(levels[l][0]) == FrameItems(stack[l])[0];
    }
  }

  lemma NextUp(levels: seq<seq<Ent>>, stack: seq<Frame>, rootParent: Ent, n: nat)
    requires LeadsUp(levels, stack, rootParent) && n <= |levels|
    ensures n == 0 ==> Parent(levels, rootParent, n).level == -1
    ensures n > 0 ==> var t := Parent(levels, rootParent, n);
      && t.level == n - 1 && t.parent == Parent(levels, rootParent, n - 1)
      && Ancestors(stack, n) == Ancestors(stack, n - 1) + {t.id}
  {
  }

  /** The node reached on the last level carries the stack's top item. */
  lemma TopNode(levels: seq<seq<Ent>>, stack: seq<Frame>, rootParent: Ent)
    requires Represents(levels, stack, rootParent) && stack != []
    ensures var n := |stack| - 1;
      |levels| == |stack| && levels[n] != [] && ItemOf(levels[n][0]) == stack[n].cur
  {
    var n := |stack| - 1;
    assert LevelRep(levels, stack, rootParent, n);
    assert ItemOf(levels[n][0]) == FrameItems(stack[n])[0];
  }

  lemma TopPath(levels: seq<seq<Ent>>, stack: seq<Frame>, rootParent: Ent)
    requires Represents(levels, stack, rootParent) && rootParent.level == -1 && stack != []
    requires forall l :: 0 <= l < |stack| ==> stack[l].cur.info != INIT
    ensures var n := |stack| - 1; |levels| == |stack| && levels[n] != [] && levels[n][0].path == Here(stack[n])
  {
    RepresentedLeadsUp(levels, stack, rootParent);
  }

  /** What a step keeps. */
  lemma StepOk(fs: FileSystem, stack: seq<Frame>)
    requires StackOk(fs, stack) && DummyOk(stack)
    ensures DummyOk(Step(fs, stack)) && (Step(fs, stack) != [] ==> StackOk(fs, Step(fs, stack)))
  {
    hide StackOk, DummyOk, Step;
    StepIsNextVisit(fs, stack);
    StepKeepsDummyOk(fs, stack);
  }

  method MarkFirst(p: Ent, ghost nodes: seq<Ent>, ghost items: seq<Item>, ghost parent: Ent, ghost level: int, ghost dir: seq<string>)
    requires ListOf(nodes, items, parent, level, dir) && nodes != [] && p == nodes[0] && items[0].info != INIT
    modifies p`info
    ensures p.info == DP && ListOf(nodes, items[0 := items[0].(info := DP)], parent, level, dir)
  {
    p.info := DP;
  }

  /** Marks the node reached last as visited in post-order. */
  method MarkDone(p: Ent, ghost levels: seq<seq<Ent>>, ghost stack: seq<Frame>, ghost rootParent: Ent)
    requires Represents(levels, stack, rootParent) && stack != []
    requires levels[|levels| - 1] != [] && p == levels[|levels| - 1][0]
    requires forall l :: 0 <= l < |stack| ==> stack[l].cur.info != INIT
    modifies p`info
    ensures p.info == DP
    ensures var n := |stack| - 1; Represents(levels, stack[n := stack[n].(cur := stack[n].cur.(info := DP))], rootParent)
  {
    ghost var n := |stack| - 1;
    NotElsewhere(levels, stack, rootParent);
    assert LevelRep(levels, stack, rootParent, n);
    hide ListOf;
    ghost var s' := stack[n := stack[n].(cur := stack[n].cur.(info := DP))];
    MarkFirst(p, levels[n], FrameItems(stack[n]), Parent(levels, rootParent, n), n, stack[n].dir);
    assert FrameItems(s'[n]) == FrameItems(stack[n])[0 := FrameItems(stack[n])[0].(info := DP)];
    forall l | 0 <= l < n ensures LevelRep(levels, s', rootParent, l) {
      assert old(LevelRep(levels, stack, rootParent, l));
    }
    assert LevelRep(levels, s', rootParent, n);
  }

  /** The parent of the node reached last is the node reached on the level above. */
  lemma WayUp(levels: seq<seq<Ent>>, stack: seq<Frame>, rootParent: Ent)
    requires Represents(levels, stack, rootParent) && rootParent.level == -1 && stack != []
    requires forall l :: 0 <= l < |stack| ==> stack[l].cur.info != INIT
    ensures var n := |stack| - 1;
      && |levels| == |stack| && levels[n] != [] && (n > 0 ==> levels[n - 1] != [])
      && levels[n][0].parent == (if n == 0 then rootParent else levels[n - 1][0])
      && (n > 0 ==> levels[n - 1][0].level == n - 1)
  {
    RepresentedLeadsUp(levels, stack, rootParent);
    hide Represents;
  }

  /** The node reached last occurs nowhere else. */
  lemma NotElsewhere(levels: seq<seq<Ent>>, stack: seq<Frame>, rootParent: Ent)
    requires Represents(levels, stack, rootParent) && stack != []
    requires forall l :: 0 <= l < |stack| ==> stack[l].cur.info != INIT
    ensures var n := |levels| - 1; levels[n] != [] && var p := levels[n][0];
      && (forall l :: 0 <= l < n ==> p !in levels[l])
      && (forall i :: 0 < i < |levels[n]| ==> levels[n][i] != p)
  {
    var n := |levels| - 1;
    assert LevelRep(levels, stack, rootParent, n);
    assert Member(levels[n][0], Parent(levels, rootParent, n), n, stack[n].dir);
    forall l | 0 <= l < n ensures levels[n][0] !in levels[l] {
      assert LevelRep(levels, stack, rootParent, l);
    }
  }

  lemma PushedLevel(levels: seq<seq<Ent>>, stack: seq<Frame>, rootParent: Ent, nodes: seq<Ent>, kids: seq<Item>)
    requires Represents(levels, stack, rootParent) && stack != [] && kids != []
    requires levels[|levels| - 1] != []
    requires ListOf(nodes, kids, levels[|levels| - 1][0], |stack|, Here(stack[|stack| - 1]))
    ensures Represents(levels + [nodes], stack + [Frame(kids[0], kids[1..], Here(stack[|stack| - 1]))], rootParent)
  {
    var levels' := levels + [nodes];
    var s' := stack + [Frame(kids[0], kids[1..], Here(stack[|stack| - 1]))];
    ListLength(nodes, kids, levels[|levels| - 1][0], |stack|, Here(stack[|stack| - 1]));
    hide ListOf;
    assert FrameItems(s'[|stack|]) == kids;
    assert LevelRep(levels', s', rootParent, |stack|);
    forall l | 0 <= l < |levels| ensures LevelRep(levels', s', rootParent, l) {
      assert l > 0 ==> LevelRep(levels, stack, rootParent, l - 1);
      SameLevel(levels, stack, levels', s', rootParent, l);
    }
  }

  lemma OneLevel(levels: seq<seq<Ent>>, stack: seq<Frame>, rootParent: Ent)
    requires |levels| == |stack| == 1
    requires ListOf(levels[0], FrameItems(stack[0]), rootParent, 0, stack[0].dir)
    ensures Represents(levels, stack, rootParent)
  {
    ListLength(levels[0], FrameItems(stack[0]), rootParent, 0, stack[0].dir);
    assert LevelRep(levels, stack, rootParent, 0);
  }

  lemma NextSibling(levels: seq<seq<Ent>>, stack: seq<Frame>, rootParent: Ent)
    requires Represents(levels, stack, rootParent) && stack != []
    ensures var n := |stack| - 1; var f := stack[n];
      && |levels[n]| == 1 + |f.rest|
      && levels[n][0].link == (if f.rest == [] then null else levels[n][1])
      && (f.rest != [] ==> Represents(levels[n := levels[n][1..]], stack[n := Frame(f.rest[0], f.rest[1..], f.dir)], rootParent))
  {
    var n := |stack| - 1;
    var f := stack[n];
    assert LevelRep(levels, stack, rootParent, n);
    ListRest(levels[n], FrameItems(f), Parent(levels, rootParent, n), n, f.dir);
    hide ListOf;
    if f.rest != [] {
      var levels', s' := levels[n := levels[n][1..]], stack[n := Frame(f.rest[0], f.rest[1..], f.dir)];
      assert FrameItems(s'[n]) == FrameItems(f)[1..];
      assert LevelRep(levels', s', rootParent, n);
      forall l | 0 <= l < n ensures LevelRep(levels', s', rootParent, l) {
        SameLevel(levels, stack, levels', s', rootParent, l);
      }
    }
  }

  lemma PoppedLevel(levels: seq<seq<Ent>>, stack: seq<Frame>, rootParent: Ent)
    requires Represents(levels, stack, rootParent) && stack != []
    ensures Represents(levels[..|levels| - 1], stack[..|stack| - 1], rootParent)
  {
    var levels', s' := levels[..|levels| - 1], stack[..|stack| - 1];
    forall l | 0 <= l < |levels'| ensures LevelRep(levels', s', rootParent, l) {
      SameLevel(levels, stack, levels', s', rootParent, l);
    }
  }

  /** The ends of a list under construction. */
  ghost predicate EndsOf(nodes: seq<Ent>, head: Ent?, tail: Ent?) {
    if nodes == [] then head == tail == null else head == nodes[0] && tail == nodes[|nodes| - 1]
  }

  lemma HeadIs(nodes: seq<Ent>, head: Ent?, tail: Ent?)
    requires EndsOf(nodes, head, tail)
    ensures head == (if nodes == [] then null else nodes[0])
  {
  }

  function ClassifyOne(fs: FileSystem, e: Dirent, ancestors: set<FileId>): seq<Item> {
    if fs.seeDot || !IsDot(e.name) then [Classify(fs, e, false, ancestors)] else []
  }

  lemma {:induction false} ClassifyLast(fs: FileSystem, es: seq<Dirent>, ancestors: set<FileId>)
    requires es != []
    ensures ClassifyAll(fs, es, ancestors) ==
      ClassifyAll(fs, es[..|es| - 1], ancestors) + ClassifyOne(fs, es[|es| - 1], ancestors)
  {
    if |es| > 1 {
      ClassifyLast(fs, es[1..], ancestors);
      assert es[1..][..|es| - 2] == es[..|es| - 1][1..];
    }
  }

  /** The items of the first i entries. */
  ghost function ItemsUpTo(fs: FileSystem, es: seq<Dirent>, i: nat, ancestors: set<FileId>): seq<Item>
    requires i <= |es|
  {
    ClassifyAll(fs, es[..i], ancestors)
  }

  lemma NextItems(fs: FileSystem, es: seq<Dirent>, i: nat, ancestors: set<FileId>)
    requires i <= |es|
    ensures ItemsUpTo(fs, es, 0, ancestors) == []
    ensures i < |es| ==> ItemsUpTo(fs, es, i + 1, ancestors) == ItemsUpTo(fs, es, i, ancestors) + ClassifyOne(fs, es[i], ancestors)
    ensures i == |es| ==> ItemsUpTo(fs, es, i, ancestors) == ClassifyAll(fs, es, ancestors)
  {
    if i < |es| {
      ClassifyLast(fs, es[..i + 1], ancestors);
      assert es[..i + 1][..i] == es[..i];
    } else {
      assert es[..i] == es;
    }
  }

  lemma EmptyList(parent: Ent, level: int, dir: seq<string>)
    ensures ListOf([], [], parent, level, dir)
  {
  }

  lemma ListLength(nodes: seq<Ent>, items: seq<Item>, parent: Ent, level: int, dir: seq<string>)
    requires ListOf(nodes, items, parent, level, dir)
    ensures |nodes| == |items|
  {
  }

  lemma NoDummy(stack: seq<Frame>)
    requires DummyOk(stack) && stack != []
    requires stack[|stack| - 1].cur.info != INIT || stack[|stack| - 1].rest == []
    ensures forall l :: 0 <= l < |stack| ==> stack[l].cur.info != INIT
  {
  }

  class Walker {
    const fs: FileSystem
    const rootParent: Ent
    var cur: Ent?
    ghost var levels: seq<seq<Ent>>
    ghost var stack: seq<Frame>

    ghost predicate Valid()
      reads this, Nodes(levels)
    {
      && rootParent.level == -1
      && Represents(levels, stack, rootParent) && DummyOk(stack)
      && (cur == null <==> stack == [])
      && (cur != null ==> levels[|levels| - 1] != [] && cur == levels[|levels| - 1][0] && StackOk(fs, stack))
    }

    /** fts_open: a list of the roots behind a dummy, below a parent that is no file. */
    constructor (fs: FileSystem, roots: seq<Dirent>)
      requires Closed(fs) && EntriesKnown(fs, roots)
      ensures this.fs == fs && stack == Opened(fs, roots) && (roots != [] ==> Valid())
      ensures forall e :: e in Nodes(levels) ==> fresh(e)
    {
      this.fs := fs;
      rootParent := new Ent("", [], -1, null, INIT, NoId);
      cur, levels, stack := null, [], [];
      new;
      OpenRoots(roots);
    }

    method OpenRoots(roots: seq<Dirent>)
      requires levels == [] && stack == [] && rootParent.level == -1
      requires Closed(fs) && EntriesKnown(fs, roots)
      modifies this
      ensures stack == Opened(fs, roots) && (roots != [] ==> Valid())
      ensures forall e :: e in Nodes(levels) ==> fresh(e)
    {
      hide StackOk, Represents, RootItems, Classify, ListOf;
      var root, nodes := LinkRoots(roots);

      var dummy := new Ent("", [], 0, null, INIT, NoId);
      PutInFront(dummy, root, nodes, RootItems(fs, roots), rootParent, 0, []);
      OpenedIsWholeWalk(fs, roots);
      ghost var lv := [[dummy] + nodes];
      OneLevel(lv, Opened(fs, roots), rootParent);
      assert forall e :: e in Nodes(lv) ==> e == dummy || e in nodes;
      MoveTo(dummy, lv, Opened(fs, roots));
    }

    /** Appends a node for a root to the list being built. */
    method AddRoot(e: Dirent, ghost nodes: seq<Ent>, ghost items: seq<Item>, head: Ent?, tail: Ent?)
      returns (head': Ent, p: Ent)
      requires levels == [] && stack == [] && rootParent.level == -1
      requires ListOf(nodes, items, rootParent, 0, []) && EndsOf(nodes, head, tail)
      modifies (if tail != null then {tail} else {})`link
      ensures fresh(p) && EndsOf(nodes + [p], head', p)
      ensures ListOf(nodes + [p], items + [RootItem(fs, e)], rootParent, 0, [])
    {
      hide Classify, ListOf;
      var info, id := Stat(e, fs.comFollow, rootParent);
      if info == DOT {
        info := D;
      }
      p := new Ent(e.name, [] + [e.name], 0, rootParent, info, id);
      assert ItemOf(p) == RootItem(fs, e);
      head' := Append(nodes, items, head, tail, p, rootParent, 0, []);
    }

    /** The loop of fts_open: a node for each root, in the order given. */
    method LinkRoots(roots: seq<Dirent>) returns (head: Ent?, ghost nodes: seq<Ent>)
      requires levels == [] && stack == [] && rootParent.level == -1
      ensures ListOf(nodes, RootItems(fs, roots), rootParent, 0, [])
      ensures forall e :: e in nodes ==> fresh(e)
      ensures head == (if nodes == [] then null else nodes[0])
    {
      head, nodes := null, [];
      var tail: Ent? := null;
      ghost var items: seq<Item> := [];
      EmptyList(rootParent, 0, []);
      hide Classify, ListOf, RootItem;
      var i := 0;
      while i < |roots|
        invariant 0 <= i <= |roots|
        invariant items + RootItems(fs, roots[i..]) == RootItems(fs, roots)
        invariant ListOf(nodes, items, rootParent, 0, [])
        invariant forall e :: e in nodes ==> fresh(e)
        invariant EndsOf(nodes, head, tail) && (tail != null ==> fresh(tail))
      {
        ghost var it := RootItem(fs, roots[i]);
        head, tail := AddRoot(roots[i], nodes, items, head, tail);
        nodes, items := nodes + [tail], items + [it];
        i := i + 1;
      }
      assert items == RootItems(fs, roots);
    }

    /** The loop of fts_stat: looks for the directory among the nodes above. */
    method OnTheWay(id: FileId, start: Ent) returns (found: bool)
      requires LeadsUp(levels, stack, rootParent) && start == Parent(levels, rootParent, |levels|)
      ensures found <==> id in Ancestors(stack, |stack|)
    {
      var t := start;
      ghost var n, above := |levels|, Ancestors(stack, |stack|);
      NextUp(levels, stack, rootParent, n);
      hide LeadsUp, Ancestors;
      while t.level >= 0
        invariant LeadsUp(levels, stack, rootParent) && 0 <= n <= |levels|
        invariant n > 0 ==> levels[n - 1] != []
        invariant t == Parent(levels, rootParent, n)
        invariant id in above <==> id in Ancestors(stack, n)
        decreases n
      {
        NextUp(levels, stack, rootParent, n);
        if id == t.id {
          return true;
        }
        n := n - 1;
        t := t.parent;
        NextUp(levels, stack, rootParent, n);
      }
      NextUp(levels, stack, rootParent, n);
      found := false;
    }

    /** fts_stat. */
    method Stat(e: Dirent, follow: bool, parent: Ent) returns (info: Info, id: FileId)
      requires LeadsUp(levels, stack, rootParent) && parent == Parent(levels, rootParent, |levels|)
      ensures Item(e.name, info, id) == Classify(fs, e, follow, Ancestors(stack, |stack|)) && info != INIT
    {
      hide LeadsUp, Ancestors;
      var s;
      if fs.logical || follow {
        if e.st.None? {
          return if e.lst.Some? then SLNONE else NS, NoId;
        }
        s := e.st.value;
      } else {
        if e.lst.None? {
          return NS, NoId;
        }
        s := e.lst.value;
      }
      match s {
        case Directory(i) =>
          if IsDot(e.name) {
            return DOT, i;
          }
          var found := OnTheWay(i, parent);
          return if found then DC else D, i;
        case Symlink => return SL, NoId;
        case Regular => return F, NoId;
        case OtherKind => return DEFAULT, NoId;
      }
    }

    /** Classifies a directory entry and makes a node for it. */
    method NewEntry(e: Dirent, parent: Ent) returns (p: Ent)
      requires LeadsUp(levels, stack, rootParent) && parent == Parent(levels, rootParent, |levels|)
      ensures fresh(p) && Member(p, parent, parent.level + 1, parent.path)
      ensures ItemOf(p) == Classify(fs, e, false, Ancestors(stack, |stack|))
    {
      hide LeadsUp, Ancestors, Classify;
      var info, id := Stat(e, false, parent);
      p := new Ent(e.name, parent.path + [e.name], parent.level + 1, parent, info, id);
    }

    /** One turn of the loop of fts_build: appends a node for the first of the entries left, unless it is
        "." or ".." and those are not wanted. */
    method AddEntry(e: Dirent, parent: Ent, ghost nodes: seq<Ent>, ghost items: seq<Item>, head: Ent?, tail: Ent?)
      returns (head': Ent?, tail': Ent?, ghost nodes': seq<Ent>, ghost items': seq<Item>)
      requires LeadsUp(levels, stack, rootParent) && parent == Parent(levels, rootParent, |levels|)
      requires ListOf(nodes, items, parent, parent.level + 1, parent.path) && EndsOf(nodes, head, tail)
      modifies (set e | e in nodes)`link
      ensures forall e :: e in nodes' ==> e in nodes || fresh(e)
      ensures items' == items + ClassifyOne(fs, e, Ancestors(stack, |stack|))
      ensures ListOf(nodes', items', parent, parent.level + 1, parent.path) && EndsOf(nodes', head', tail')
    {
      assert tail != null ==> tail in nodes;
      hide LeadsUp, Ancestors, Classify, ListOf;
      head', tail', nodes', items' := head, tail, nodes, items;
      if fs.seeDot || !IsDot(e.name) {
        var p := NewEntry(e, parent);
        items' := items + [ItemOf(p)];
        head' := Append(nodes, items, head, tail, p, parent, parent.level + 1, parent.path);
        tail', nodes' := p, nodes + [p];
      }
    }

    /** The loop of fts_build: a node for each entry, appended in directory order. */
    method LinkEntries(es: seq<Dirent>, parent: Ent) returns (head: Ent?, ghost nodes: seq<Ent>)
      requires LeadsUp(levels, stack, rootParent) && parent == Parent(levels, rootParent, |levels|)
      ensures ListOf(nodes, ClassifyAll(fs, es, Ancestors(stack, |stack|)), parent, parent.level + 1, parent.path)
      ensures forall e :: e in nodes ==> fresh(e)
      ensures head == (if nodes == [] then null else nodes[0])
    {
      head, nodes := null, [];
      var tail: Ent? := null;
      ghost var items: seq<Item> := [];
      EmptyList(parent, parent.level + 1, parent.path);
      assert EndsOf(nodes, head, tail);
      hide LeadsUp, Ancestors, Classify, ListOf, ClassifyAll, ClassifyOne, ItemsUpTo, Parent, EndsOf;
      ghost var anc := Ancestors(stack, |stack|);
      NextItems(fs, es, 0, anc);
      var i := 0;
      while i < |es|
        invariant 0 <= i <= |es|
        invariant items == ItemsUpTo(fs, es, i, anc)
        invariant ListOf(nodes, items, parent, parent.level + 1, parent.path)
        invariant forall e :: e in nodes ==> fresh(e)
        invariant EndsOf(nodes, head, tail)
      {
        NextItems(fs, es, i, anc);
        head, tail, nodes, items := AddEntry(es[i], parent, nodes, items, head, tail);
        i := i + 1;
      }
      NextItems(fs, es, i, anc);
      HeadIs(nodes, head, tail);
    }

    /** fts_build: reads the directory and links a node for each entry; an empty directory is turned to
        its post-order visit. */
    method Build() returns (head: Ent?, ghost nodes: seq<Ent>)
      requires Valid() && cur != null && cur.info == D
      modifies cur`info
      ensures stack[|stack| - 1].cur.info == D
      ensures ListOf(nodes, TopChildren(fs, stack), cur, |stack|, cur.path)
      ensures forall e :: e in nodes ==> fresh(e)
      ensures head == (if nodes == [] then null else nodes[0])
      ensures nodes != [] ==> Represents(levels, stack, rootParent)
      ensures nodes == [] ==> var n := |stack| - 1;
        Represents(levels, stack[n := stack[n].(cur := stack[n].cur.(info := DP))], rootParent)
    {
      hide StackOk, Ancestors, ClassifyAll, Represents, ListOf, LeadsUp, DummyOk;
      TopNode(levels, stack, rootParent);
      TopChildrenRead(fs, stack);
      NoDummy(stack);
      RepresentedLeadsUp(levels, stack, rootParent);
      NextUp(levels, stack, rootParent, |levels|);
      ghost var mine := Nodes(levels);
      assert forall e :: e in mine ==> allocated(e);
      head, nodes := LinkEntries(fs.dirs[cur.id], cur);
      if head == null {
        MarkDone(cur, levels, stack, rootParent);
      }
    }

    /** Makes p the current node of a walk whose lists have been brought up to date. */
    method MoveTo(p: Ent?, ghost lv: seq<seq<Ent>>, ghost st: seq<Frame>)
      requires Represents(lv, st, rootParent)
      modifies this
      ensures cur == p && levels == lv && stack == st && Represents(levels, stack, rootParent)
    {
      hide Represents;
      assert forall e: Ent :: e in Nodes(lv) ==> (e as object) != this;
      cur := p;
      levels, stack := lv, st;
      assert Represents(lv, st, rootParent);
    }

    /** On to the first of the entries just read. */
    method Enter(child: Ent, ghost nodes: seq<Ent>)
      requires StackOk(fs, stack) && stack != [] && stack[|stack| - 1].cur.info == D && levels != [] && levels[|levels| - 1] != []
      requires Represents(levels, stack, rootParent) && TopChildren(fs, stack) != [] && nodes != [] && child == nodes[0]
      requires ListOf(nodes, TopChildren(fs, stack), levels[|levels| - 1][0], |stack|, Here(stack[|stack| - 1]))
      modifies this
      ensures levels == old(levels) + [nodes] && stack == Step(fs, old(stack)) && cur == child
      ensures Represents(levels, stack, rootParent)
      ensures forall e :: e in Nodes(levels) ==> e in old(Nodes(levels)) || e in nodes
    {
      hide StackOk, Represents, ListOf;
      PushedLevel(levels, stack, rootParent, nodes, TopChildren(fs, stack));
      NodesPushed(levels, nodes);
      MoveTo(child, levels + [nodes], Step(fs, stack));
    }

    /** A directory in pre-order: on to its first entry, or to its post-order visit if it has none. */
    method GoDown() returns (r: Ent)
      requires Valid() && cur != null && cur.info == D
      modifies this, cur
      ensures Valid() && r == cur && StackOk(fs, old(stack)) && stack == Step(fs, old(stack))
      ensures forall e :: e in Nodes(levels) ==> e in old(Nodes(levels)) || fresh(e)
    {
      ghost var n := |stack| - 1;
      hide StackOk, Represents, ListOf, Ancestors, DummyOk, LeadsUp, Nodes;
      TopNode(levels, stack, rootParent);
      NoDummy(stack);
      TopPath(levels, stack, rootParent);
      StepOk(fs, stack);
      var p := cur;
      var child, nodes := Build();
      ListLength(nodes, TopChildren(fs, stack), cur, |stack|, cur.path);
      if child == null {
        MoveTo(p, levels, Step(fs, stack));
        return p;
      }
      hide Step;
      Enter(child, nodes);
      r := child;
    }

    /** On to the next node on this level. */
    method GoAcross() returns (r: Ent)
      requires Valid() && cur != null && cur.info != D && cur.link != null
      modifies this
      ensures Valid() && r == cur && StackOk(fs, old(stack)) && stack == Step(fs, old(stack))
      ensures forall e :: e in Nodes(levels) ==> e in old(Nodes(levels)) || fresh(e)
    {
      ghost var n := |stack| - 1;
      hide StackOk, Represents, ListOf, Ancestors, DummyOk;
      TopNode(levels, stack, rootParent);
      NextSibling(levels, stack, rootParent);
      StepOk(fs, stack);
      r := cur.link;
      MoveTo(r, levels[n := levels[n][1..]], Step(fs, stack));
    }

    /** Up to the parent in post-order, or out of the walk from the last root. */
    method GoUp() returns (r: Ent?)
      requires Valid() && cur != null && cur.info != D && cur.link == null
      modifies this, Nodes(levels)
      ensures Valid() && r == cur && StackOk(fs, old(stack)) && stack == Step(fs, old(stack))
      ensures forall e :: e in Nodes(levels) ==> e in old(Nodes(levels)) || fresh(e)
    {
      ghost var n := |stack| - 1;
      hide StackOk, Represents, ListOf, Ancestors, DummyOk, LeadsUp;
      TopNode(levels, stack, rootParent);
      NextSibling(levels, stack, rootParent);
      NoDummy(stack);
      WayUp(levels, stack, rootParent);
      PoppedLevel(levels, stack, rootParent);
      StepOk(fs, stack);
      var p := cur.parent;
      if p.level == -1 {
        MoveTo(null, levels[..n], Step(fs, stack));
        return null;
      }
      MarkDone(p, levels[..n], stack[..n], rootParent);
      MoveTo(p, levels[..n], Step(fs, stack));
      r := p;
    }

    /** fts_read. */
    method Read() returns (r: Ent?)
      requires Valid()
      modifies this, Nodes(levels)
      ensures Valid() && r == cur
      ensures stack == if old(stack) == [] then [] else Step(fs, old(stack))
      ensures r != null ==> Visit(r.path, r.info) == Returned(stack)
      ensures forall e :: e in Nodes(levels) ==> e in old(Nodes(levels)) || fresh(e)
    {
      if cur == null {
        return null;
      }
      hide StackOk, Represents, DummyOk, Step;
      StepKeepsDummyOk(fs, stack);
      if cur.info == D {
        r := GoDown();
      } else if cur.link != null {
        r := GoAcross();
      } else {
        r := GoUp();
      }
      if r != null {
        TopNode(levels, stack, rootParent);
        RepresentedLeadsUp(levels, stack, rootParent);
      }
    }

    /** Reads to the end of the walk: the visits are those of the recursive traversal, one by one. */
    method ReadAll(ghost roots: seq<Dirent>) returns (visits: seq<Visit>)
      requires roots != [] && EntriesKnown(fs, roots) && Valid() && stack == Opened(fs, roots)
      modifies this, Nodes(levels)
      ensures visits == WalkRoots(fs, roots)
      ensures cur == null && Valid()
    {
      OpenedIsWholeWalk(fs, roots);
      visits := [];
      hide StackOk, Represents, DummyOk, Step, Pending, WalkRoots;
      ghost var mine := Nodes(levels);
      while true
        invariant Valid() && StackOk(fs, stack) && cur != null
        invariant forall e :: e in Nodes(levels) ==> e in mine || fresh(e)
        invariant visits + Pending(fs, stack) == WalkRoots(fs, roots)
        decreases |Pending(fs, stack)|
      {
        StepIsNextVisit(fs, stack);
        var r := Read();
        if r == null {
          return;
        }
        visits := visits + [Visit(r.path, r.info)];
      }
    }
  }
}
