/** Marking nodes dirty, and the sweep that recomputes the world matrices of marked branches. */
module TreeSweep {
  import opened Forest
  import opened ForestOrder
  import opened TreeLinks
  import opened TreeState

  /** e became dirty, and some of its ancestors marked-below; nothing else changed. */
  ghost predicate MoreMarked(nodes: Nodes, nodes': Nodes, e: EntityRef)
    requires Acyclic(Up(nodes))
  {
    nodes'.Keys == nodes.Keys
    && forall n | n in nodes ::
      && nodes'[n] == nodes[n].(dirty := nodes[n].dirty || n == e, dirtyBelow := nodes'[n].dirtyBelow)
      && (nodes[n].dirtyBelow ==> nodes'[n].dirtyBelow)
      && (nodes'[n].dirtyBelow ==> nodes[n].dirtyBelow || (n != e && Under(Up(nodes), n, e)))
  }

  lemma {:induction false} MarkedDepths(nodes: Nodes, nodes': Nodes, e: EntityRef)
    requires Acyclic(Up(nodes)) && MoreMarked(nodes, nodes', e)
    ensures SameLinks(nodes, nodes') && (DepthsOk(nodes) ==> DepthsOk(nodes'))
  {
    hide Acyclic, Up, Under;
    if DepthsOk(nodes) {
      assert Closed(nodes');
      forall n | n in nodes ensures DepthAt(nodes', n) {
        assert DepthAt(nodes, n);
      }
    }
  }

  lemma {:induction false} MarkedWorlds(s: Space, nodes: Nodes, nodes': Nodes, locals: Locals, worlds: Worlds, e: EntityRef)
    requires Acyclic(Up(nodes)) && MoreMarked(nodes, nodes', e) && WorldsOkBut(s, nodes, locals, worlds, e)
    ensures e in nodes ==> WorldsOk(s, nodes', locals, worlds)
  {
    hide Acyclic, Up, Under;
  }

  lemma {:induction false} MarkedKeeps(s: Space, nodes: Nodes, nodes': Nodes, locals: Locals, worlds: Worlds, e: EntityRef)
    requires Acyclic(Up(nodes)) && MoreMarked(nodes, nodes', e) && e in nodes
    ensures SameLinks(nodes, nodes') && (DepthsOk(nodes) ==> DepthsOk(nodes'))
    ensures WorldsOkBut(s, nodes, locals, worlds, e) ==> WorldsOk(s, nodes', locals, worlds)
  {
    hide *;
    MarkedDepths(nodes, nodes', e);
    if WorldsOkBut(s, nodes, locals, worlds, e) {
      MarkedWorlds(s, nodes, nodes', locals, worlds, e);
    }
  }

  // ---- the marking loop ------------------------------------------------------------------------

  /** e is dirty; marks are sound except that last's parent may not be marked yet. */
  ghost predicate Marking(start: Nodes, nodes: Nodes, e: EntityRef, last: EntityRef)
    requires Acyclic(Up(start))
  {
    MoreMarked(start, nodes, e) && MarksOkBut(nodes, true, {last}) && last in nodes && Under(Up(start), last, e)
  }

  lemma {:induction false} MarkStart(nodes: Nodes, any: bool, e: EntityRef)
    requires Acyclic(Up(nodes)) && e in nodes && MarksOkBut(nodes, any, {e})
    ensures Marking(nodes, nodes[e := nodes[e].(dirty := true)], e, e) && Up(nodes).Keys == nodes.Keys
    ensures nodes[e].parent == NULL || nodes[e].parent in nodes
  {
    var nodes' := nodes[e := nodes[e].(dirty := true)];
    UnderStep(Up(nodes), e, e);
    AcyclicCloses(nodes);
    hide Acyclic, Path, Up;
    forall n | n in nodes' && n != e ensures MarkAt(nodes', true, n) {
      assert MarkAt(nodes, any, n);
    }
  }

  lemma {:induction false} ParentBelow(nodes: Nodes, last: EntityRef, at: EntityRef, e: EntityRef)
    requires Acyclic(Up(nodes)) && last in nodes && nodes[last].parent == at && at in nodes && Under(Up(nodes), last, e)
    ensures at != last && at != e && at in Up(nodes) && Under(Up(nodes), at, e) && Rank(Up(nodes), at) < Rank(Up(nodes), last)
    ensures nodes[at].parent == NULL || (nodes[at].parent in Up(nodes) && nodes[at].parent in nodes && Rank(Up(nodes), nodes[at].parent) < Rank(Up(nodes), at))
  {
    var up := Up(nodes);
    UnderStep(up, at, last);
    UnderStep(up, at, at);
    UnderTransitive(up, at, last, e);
    UnderInMap(up, last, e);
    assert up[at] == nodes[at].parent;
  }

  lemma {:induction false} ClimbMarks(nodes: Nodes, last: EntityRef, at: EntityRef)
    requires MarksOkBut(nodes, true, {last}) && last in nodes && nodes[last].parent == at && at in nodes
    ensures nodes[at].dirtyBelow ==> MarksOk(nodes, true)
    ensures MarksOkBut(nodes[at := nodes[at].(dirtyBelow := true)], true, {at})
  {
    var nodes' := nodes[at := nodes[at].(dirtyBelow := true)];
    assert Closed(nodes');
    forall n | n in nodes && n != at ensures MarkAt(nodes', true, n) {
      if n != last {
        assert MarkAt(nodes, true, n);
      }
    }
    if nodes[at].dirtyBelow {
      assert MarkAt(nodes, true, last);
    }
  }

  lemma {:induction false} ClimbMore(start: Nodes, nodes: Nodes, e: EntityRef, at: EntityRef)
    requires Acyclic(Up(start)) && MoreMarked(start, nodes, e) && at in start && at != e && Under(Up(start), at, e)
    ensures at in nodes && MoreMarked(start, nodes[at := nodes[at].(dirtyBelow := true)], e)
  {
    hide Acyclic, Up, Under;
  }

  /** One climbing step: stop at a marked ancestor, or mark it and go on from there. */
  lemma {:induction false} MarkStep(start: Nodes, nodes: Nodes, e: EntityRef, last: EntityRef, at: EntityRef)
    requires Acyclic(Up(start)) && Marking(start, nodes, e, last) && last in nodes && nodes[last].parent == at && at != NULL
    ensures at in nodes && at in Up(start) && nodes[at].parent != at
    ensures nodes[at].dirtyBelow ==> MarksOk(nodes, true) && MoreMarked(start, nodes, e)
    ensures Marking(start, nodes[at := nodes[at].(dirtyBelow := true)], e, at)
    ensures nodes[at].parent == NULL
            || (nodes[at].parent in nodes && nodes[at].parent in Up(start) && Rank(Up(start), nodes[at].parent) < Rank(Up(start), at))
  {
    AcyclicCloses(start);
    hide Acyclic, Path, Up, Under, MarksOkBut;
    ParentBelow(start, last, at, e);
    ClimbMarks(nodes, last, at);
    ClimbMore(start, nodes, e, at);
  }

  lemma {:induction false} MarkAtRoot(start: Nodes, nodes: Nodes, e: EntityRef, last: EntityRef)
    requires Acyclic(Up(start)) && Marking(start, nodes, e, last) && last in nodes && nodes[last].parent == NULL
    ensures MarksOk(nodes, true) && MoreMarked(start, nodes, e)
  {
    assert MarkAt(nodes, true, last);
  }

  datatype Item = Item(entity: EntityRef, parentChanged: bool)

  function Items(list: seq<EntityRef>, changed: bool): (r: seq<Item>)
    ensures |r| == |list| && forall i | 0 <= i < |list| :: r[i] == Item(list[i], changed)
  {
    seq(|list|, i requires 0 <= i < |list| => Item(list[i], changed))
  }

  function Entities(stack: seq<Item>): (r: seq<EntityRef>)
    ensures |r| == |stack| && forall i | 0 <= i < |stack| :: r[i] == stack[i].entity
  {
    seq(|stack|, i requires 0 <= i < |stack| => stack[i].entity)
  }

  /** Rows that differ in their dirty bits only. */
  ghost predicate SameButFlags(nodes: Nodes, nodes': Nodes) {
    nodes'.Keys == nodes.Keys
    && forall n | n in nodes :: nodes'[n] == nodes[n].(dirty := nodes'[n].dirty, dirtyBelow := nodes'[n].dirtyBelow)
  }

  /** Nodes whose matrix is out of date: dirty, or on the stack under a changed parent. */
  ghost predicate Stale(nodes: Nodes, stack: seq<Item>, n: EntityRef)
    requires n in nodes
  {
    nodes[n].dirty || Item(n, true) in stack
  }

  ghost predicate Fresh(s: Space, nodes: Nodes, locals: Locals, worlds: Worlds, stack: seq<Item>) {
    Rows(nodes, locals, worlds) && forall n | n in nodes && !Stale(nodes, stack, n) :: Composed(s, nodes, locals, worlds, n)
  }

  /** Of the nodes still ahead (`ahead`) the flags are as at the start; all others are unmarked. */
  ghost predicate Split(start: Nodes, nodes: Nodes, ahead: seq<EntityRef>) {
    nodes.Keys == start.Keys
    && (forall n | n in nodes && n in ahead :: nodes[n] == start[n])
    && (forall n | n in nodes && n !in ahead :: !Marked(nodes[n]))
  }

  lemma {:induction false} SplitVisit(start: Nodes, nodes: Nodes, n: EntityRef, rest: seq<EntityRef>)
    requires Split(start, nodes, [n] + rest) && n in nodes && n !in rest
    ensures Split(start, nodes[n := nodes[n].(dirty := false, dirtyBelow := false)], rest)
  {
    assert forall m :: m in [n] + rest <==> m == n || m in rest;
  }

  lemma {:induction false} SplitSkip(start: Nodes, nodes: Nodes, a: seq<EntityRef>, rest: seq<EntityRef>)
    requires Split(start, nodes, a + rest) && forall m | m in a && m in nodes :: !Marked(nodes[m])
    ensures Split(start, nodes, rest)
  {
    assert forall m :: m in a + rest <==> m in a || m in rest;
  }

  /** n is recomputed; its children come under a changed parent. */
  lemma {:induction false} FreshRecompute(s: Space, nodes: Nodes, locals: Locals, worlds: Worlds, kids: Kids, changed: bool, n: EntityRef, rest: seq<Item>)
    requires Fresh(s, nodes, locals, worlds, [Item(n, changed)] + rest) && n in nodes && n in kids && nodes[n].parent != n
    requires forall m | m in nodes && nodes[m].parent == n :: m in kids[n]
    ensures Fresh(s, nodes[n := nodes[n].(dirty := false, dirtyBelow := false)], locals,
                  worlds[n := s.mul(ParentWorld(s, worlds, nodes[n].parent), s.toMatrix(locals[n]))], Items(kids[n], true) + rest)
  {
    var stack, stack' := [Item(n, changed)] + rest, Items(kids[n], true) + rest;
    var nodes' := nodes[n := nodes[n].(dirty := false, dirtyBelow := false)];
    var worlds' := worlds[n := s.mul(ParentWorld(s, worlds, nodes[n].parent), s.toMatrix(locals[n]))];
    forall m | m in nodes' && !Stale(nodes', stack', m) ensures Composed(s, nodes', locals, worlds', m) {
      if m != n {
        assert Composed(s, nodes, locals, worlds, m);
      }
    }
  }

  /** n is clean: whether it is entered or skipped, no matrix becomes stale. */
  lemma {:induction false} FreshPass(s: Space, nodes: Nodes, nodes': Nodes, locals: Locals, worlds: Worlds, n: EntityRef, rest: seq<Item>, more: seq<EntityRef>)
    requires Fresh(s, nodes, locals, worlds, [Item(n, false)] + rest) && n in nodes && !nodes[n].dirty
    requires nodes' == nodes || nodes' == nodes[n := nodes[n].(dirty := false, dirtyBelow := false)]
    ensures Fresh(s, nodes', locals, worlds, Items(more, false) + rest)
  {
    var stack, stack' := [Item(n, false)] + rest, Items(more, false) + rest;
    forall m | m in nodes' && !Stale(nodes', stack', m) ensures Composed(s, nodes', locals, worlds, m) {
      assert Composed(s, nodes, locals, worlds, m);
    }
  }

  lemma {:induction false} FreshDone(s: Space, nodes: Nodes, locals: Locals, worlds: Worlds)
    requires Fresh(s, nodes, locals, worlds, [])
    ensures WorldsOk(s, nodes, locals, worlds)
  {
  }

  lemma {:induction false} FreshStart(s: Space, nodes: Nodes, locals: Locals, worlds: Worlds, roots: seq<EntityRef>)
    requires WorldsOk(s, nodes, locals, worlds)
    ensures Fresh(s, nodes, locals, worlds, Items(roots, false))
  {
  }

  /** Stepping the list of entities along with the stack. */
  lemma {:induction false} EntitiesStep(stack: seq<Item>)
    requires stack != []
    ensures Entities(stack) == [stack[0].entity] + Entities(stack[1..])
    ensures [stack[0]] + stack[1..] == stack
  {
  }

  lemma {:induction false} EntitiesAppend(a: seq<Item>, b: seq<Item>)
    ensures Entities(a + b) == Entities(a) + Entities(b)
  {
    forall i | 0 <= i < |a + b| ensures Entities(a + b)[i] == (Entities(a) + Entities(b))[i] {
    }
  }

  lemma {:induction false} EntitiesOfItems(list: seq<EntityRef>, changed: bool)
    ensures Entities(Items(list, changed)) == list
  {
  }

  /** Of an unmarked node the whole subtree can be skipped. */
  lemma {:induction false} SkipSubtree(start: Nodes, any: bool, nodes: Nodes, kids: Kids, n: EntityRef, rest: seq<EntityRef>)
    requires Acyclic(Up(start)) && KidsMatch(Up(start), kids, {}) && MarksOk(start, any) && n in start && Up(start).Keys == start.Keys
    requires Split(start, nodes, Pre(Up(start), kids, n) + rest) && !Marked(nodes[n])
    ensures Split(start, nodes, rest)
  {
    hide KidsMatch, MarksOkBut, Closed;
    var up, pre := Up(start), Pre(Up(start), kids, n);
    assert pre[0] == n;
    assert n in pre + rest;
    forall m | m in pre && m in nodes ensures !Marked(nodes[m]) {
      assert m in pre + rest;
      PreUnder(up, kids, n, m);
      UnmarkedBelow(start, any, n, m);
    }
    SplitSkip(start, nodes, pre, rest);
  }

  // ---- the sweep as a whole ----------------------------------------------------------------------

  /** What stays put during a sweep. */
  datatype Sweep = Sweep(space: Space, start: Nodes, locals: Locals, firstRoot: EntityRef, lastRoot: EntityRef, kids: Kids)

  ghost predicate Sound(t: Sweep) {
    Tree(t.start, t.firstRoot, t.lastRoot, t.kids) && Acyclic(Up(t.start)) && KidsMatch(Up(t.start), t.kids, {})
    && Up(t.start).Keys == t.start.Keys && MarksOk(t.start, true) && t.locals.Keys == t.start.Keys
  }

  /** The entities still ahead, in the order they would be visited. */
  ghost function AheadOf(t: Sweep, items: seq<Item>): seq<EntityRef>
    requires Sound(t) && forall n | n in Entities(items) :: n in t.start
  {
    Flat(Up(t.start), t.kids, Entities(items))
  }

  ghost predicate Sweeping(t: Sweep, nodes: Nodes, worlds: Worlds, items: seq<Item>) {
    && Sound(t)
    && (forall n | n in Entities(items) :: n in t.start)
    && SameButFlags(t.start, nodes)
    && Distinct(AheadOf(t, items))
    && Split(t.start, nodes, AheadOf(t, items))
    && Fresh(t.space, nodes, t.locals, worlds, items)
  }

  lemma {:induction false} SoundParts(t: Sweep)
    requires Sound(t)
    ensures Tree(t.start, t.firstRoot, t.lastRoot, t.kids) && Acyclic(Up(t.start)) && KidsMatch(Up(t.start), t.kids, {})
    ensures Up(t.start).Keys == t.start.Keys && MarksOk(t.start, true) && t.locals.Keys == t.start.Keys && t.kids.Keys == t.start.Keys + {NULL}
  {
  }

  lemma {:induction false} Unpack(t: Sweep, nodes: Nodes, worlds: Worlds, items: seq<Item>)
    requires Sweeping(t, nodes, worlds, items)
    ensures Sound(t) && (forall n | n in Entities(items) :: n in t.start) && SameButFlags(t.start, nodes)
    ensures Distinct(AheadOf(t, items)) && Split(t.start, nodes, AheadOf(t, items)) && Fresh(t.space, nodes, t.locals, worlds, items)
  {
  }

  lemma {:induction false} Pack(t: Sweep, nodes: Nodes, worlds: Worlds, items: seq<Item>)
    requires Sound(t) && (forall n | n in Entities(items) :: n in t.start) && SameButFlags(t.start, nodes)
    requires Distinct(AheadOf(t, items)) && Split(t.start, nodes, AheadOf(t, items)) && Fresh(t.space, nodes, t.locals, worlds, items)
    ensures Sweeping(t, nodes, worlds, items)
  {
  }

  lemma {:induction false} AheadIs(t: Sweep, items: seq<Item>)
    requires Sound(t) && forall n | n in Entities(items) :: n in t.start
    ensures Acyclic(Up(t.start)) && KidsMatch(Up(t.start), t.kids, {}) && Up(t.start).Keys == t.start.Keys
    ensures AheadOf(t, items) == Flat(Up(t.start), t.kids, Entities(items))
  {
    hide Flat, KidsMatch, Acyclic, Up;
  }

  lemma {:induction false} SoundStart(t: Sweep, worlds: Worlds)
    requires Tree(t.start, t.firstRoot, t.lastRoot, t.kids) && MarksOk(t.start, true) && WorldsOk(t.space, t.start, t.locals, worlds)
    ensures Sound(t)
  {
    TreeShape(t.start, t.firstRoot, t.lastRoot, t.kids);
  }

  lemma {:induction false} SweepStart(t: Sweep, worlds: Worlds, roots: seq<EntityRef>)
    requires Tree(t.start, t.firstRoot, t.lastRoot, t.kids) && MarksOk(t.start, true) && WorldsOk(t.space, t.start, t.locals, worlds)
    requires NULL in t.kids && roots == t.kids[NULL] + []
    ensures Sweeping(t, t.start, worlds, Items(roots, false))
  {
    hide *;
    var up, kids := Up(t.start), t.kids;
    SoundStart(t, worlds);
    SoundParts(t);
    FreshStart(t.space, t.start, t.locals, worlds, roots);
    EntitiesOfItems(roots, false);
    assert roots == kids[NULL] && kids[NULL][0..] == kids[NULL];
    FlatKids(up, kids, NULL, 0);
    AheadIs(t, Items(roots, false));
    PreKidsDistinct(up, kids, NULL, 0);
    SplitStart(t, roots);
    SameAtStart(t);
    Pack(t, t.start, worlds, Items(roots, false));
  }

  lemma {:induction false} SplitStart(t: Sweep, roots: seq<EntityRef>)
    requires Acyclic(Up(t.start)) && KidsMatch(Up(t.start), t.kids, {}) && Up(t.start).Keys == t.start.Keys && NULL in t.kids
    ensures Split(t.start, t.start, PreKids(Up(t.start), t.kids, NULL, 0))
  {
    AllPreIsAll(Up(t.start), t.kids);
  }

  lemma {:induction false} SameAtStart(t: Sweep)
    ensures SameButFlags(t.start, t.start)
  {
  }

  /** The first entity, and what comes after it if its children are pushed, or if not. */
  lemma {:induction false} AheadStep(t: Sweep, items: seq<Item>)
    requires Sound(t) && (forall n | n in Entities(items) :: n in t.start) && items != []
    ensures var n, rest := items[0].entity, Entities(items[1..]);
            && Entities(items) == [n] + rest && [items[0]] + items[1..] == items
            && n in t.start && n in t.kids && (forall m | m in t.kids[n] + rest :: m in t.start) && (forall m | m in rest :: m in t.start)
            && Acyclic(Up(t.start)) && KidsMatch(Up(t.start), t.kids, {}) && Up(t.start).Keys == t.start.Keys
            && AheadOf(t, items) == [n] + Flat(Up(t.start), t.kids, t.kids[n] + rest)
            && AheadOf(t, items) == Pre(Up(t.start), t.kids, n) + Flat(Up(t.start), t.kids, rest)
  {
    hide *;
    EntitiesStep(items);
    var ents := Entities(items);
    assert ents[1..] == Entities(items[1..]) && ents[0] == items[0].entity;
    assert ents[0] in ents;
    SoundParts(t);
    AheadIs(t, items);
    FlatStep(Up(t.start), t.kids, ents);
    FlatCons(Up(t.start), t.kids, ents);
  }

  lemma {:induction false} FlatCons(up: Parents, kids: Kids, ns: seq<EntityRef>)
    requires Acyclic(up) && KidsMatch(up, kids, {}) && ns != [] && forall n | n in ns :: n in up
    ensures Flat(up, kids, ns) == Pre(up, kids, ns[0]) + Flat(up, kids, ns[1..])
  {
  }

  lemma {:induction false} DistinctTail(a: seq<EntityRef>, b: seq<EntityRef>)
    requires Distinct(a + b)
    ensures Distinct(b) && forall n | n in a :: n !in b
  {
    forall i, j | 0 <= i < j < |b| ensures b[i] != b[j] {
      assert (a + b)[|a| + i] == b[i] && (a + b)[|a| + j] == b[j];
    }
    forall i, j | 0 <= i < |a| && 0 <= j < |b| ensures a[i] != b[j] {
      assert (a + b)[i] == a[i] && (a + b)[|a| + j] == b[j];
    }
  }

  lemma {:induction false} SweepTree(t: Sweep, nodes: Nodes, worlds: Worlds, items: seq<Item>)
    requires Sweeping(t, nodes, worlds, items)
    ensures Sound(t) && (forall n | n in Entities(items) :: n in t.start)
    ensures Tree(nodes, t.firstRoot, t.lastRoot, t.kids) && Up(nodes) == Up(t.start) && SameButFlags(t.start, nodes)
    ensures Closed(nodes) && nodes.Keys == worlds.Keys == t.start.Keys == t.locals.Keys && t.kids.Keys == t.start.Keys + {NULL}
    ensures items != [] ==> items[0].entity in nodes
  {
    hide *;
    Unpack(t, nodes, worlds, items);
    SoundParts(t);
    FlagsLinks(t.start, nodes);
    FreshRows(t.space, nodes, t.locals, worlds, items);
    SameLinksTree(t.start, nodes, t.firstRoot, t.lastRoot, t.kids);
    if items != [] {
      assert Entities(items)[0] == items[0].entity;
      assert items[0].entity in Entities(items);
    }
  }

  lemma {:induction false} FlagsLinks(nodes: Nodes, nodes': Nodes)
    requires SameButFlags(nodes, nodes')
    ensures SameLinks(nodes, nodes')
  {
  }

  lemma {:induction false} FreshRows(s: Space, nodes: Nodes, locals: Locals, worlds: Worlds, items: seq<Item>)
    requires Fresh(s, nodes, locals, worlds, items)
    ensures Closed(nodes) && locals.Keys == nodes.Keys == worlds.Keys
  {
  }

  lemma {:induction false} NotOwnParent(nodes: Nodes, n: EntityRef)
    requires Acyclic(Up(nodes)) && n in nodes
    ensures nodes[n].parent != n
  {
    assert Up(nodes)[n] == nodes[n].parent;
  }

  lemma {:induction false} ChildrenListed(nodes: Nodes, kids: Kids, n: EntityRef)
    requires KidsMatch(Up(nodes), kids, {}) && n in kids
    ensures forall m | m in nodes && nodes[m].parent == n :: m in kids[n]
  {
    forall m | m in nodes && nodes[m].parent == n ensures m in kids[n] {
      assert m in Up(nodes) && Up(nodes)[m] == n;
    }
  }

  function Unflagged(nodes: Nodes, n: EntityRef): Nodes
    requires n in nodes
  {
    nodes[n := nodes[n].(dirty := false, dirtyBelow := false)]
  }

  function WorldAfter(t: Sweep, nodes: Nodes, worlds: Worlds, n: EntityRef): Worlds
    requires n in nodes && n in t.locals && (nodes[n].parent == NULL || nodes[n].parent in worlds)
  {
    worlds[n := t.space.mul(ParentWorld(t.space, worlds, nodes[n].parent), t.space.toMatrix(t.locals[n]))]
  }

  lemma {:induction false} WorldAfterIs(t: Sweep, nodes: Nodes, worlds: Worlds, n: EntityRef)
    requires n in nodes && n in t.locals && (nodes[n].parent == NULL || nodes[n].parent in worlds)
    ensures WorldAfter(t, nodes, worlds, n) == worlds[n := t.space.mul(ParentWorld(t.space, worlds, nodes[n].parent), t.space.toMatrix(t.locals[n]))]
  {
  }

  lemma {:induction false} UnflaggedSame(start: Nodes, nodes: Nodes, n: EntityRef)
    requires SameButFlags(start, nodes) && n in nodes
    ensures SameButFlags(start, Unflagged(nodes, n))
  {
  }

  /** Entering a node: its flags are cleared, its children come next. */
  lemma {:induction false} SweepEnter(t: Sweep, nodes: Nodes, worlds: Worlds, items: seq<Item>, recompute: bool)
    requires Sweeping(t, nodes, worlds, items) && items != []
    requires var n := items[0].entity;
             n in nodes && n in t.kids && n in t.locals && Closed(nodes) && nodes.Keys == worlds.Keys
    requires recompute == (items[0].parentChanged || nodes[items[0].entity].dirty)
    ensures var n := items[0].entity;
            var items' := Items(t.kids[n], recompute) + items[1..];
            && Sweeping(t, Unflagged(nodes, n), if recompute then WorldAfter(t, nodes, worlds, n) else worlds, items')
            && |AheadOf(t, items')| < |AheadOf(t, items)|
  {
    hide *;
    var n, rest := items[0].entity, items[1..];
    NodeClosed(nodes, n);
    var worlds' := if recompute then WorldAfter(t, nodes, worlds, n) else worlds;
    var items' := Items(t.kids[n], recompute) + rest;
    Unpack(t, nodes, worlds, items);
    SweepTree(t, nodes, worlds, items);
    AheadStep(t, items);
    EntitiesAppend(Items(t.kids[n], recompute), rest);
    EntitiesOfItems(t.kids[n], recompute);
    var ahead' := Flat(Up(t.start), t.kids, t.kids[n] + Entities(rest));
    AheadIs(t, items');
    DistinctTail([n], ahead');
    assert n in [n];
    SplitVisit(t.start, nodes, n, ahead');
    SoundParts(t);
    UnflaggedSame(t.start, nodes, n);
    UnflaggedIs(nodes, n);
    EnterFresh(t, nodes, worlds, items, worlds', items');
    Pack(t, Unflagged(nodes, n), worlds', items');
  }

  lemma {:induction false} NodeClosed(nodes: Nodes, n: EntityRef)
    requires Closed(nodes) && n in nodes
    ensures nodes[n].parent == NULL || nodes[n].parent in nodes
  {
  }

  lemma {:induction false} UnflaggedIs(nodes: Nodes, n: EntityRef)
    requires n in nodes
    ensures Unflagged(nodes, n) == nodes[n := nodes[n].(dirty := false, dirtyBelow := false)]
  {
  }

  lemma {:induction false} EnterFresh(t: Sweep, nodes: Nodes, worlds: Worlds, items: seq<Item>, worlds': Worlds, items': seq<Item>)
    requires Acyclic(Up(nodes)) && KidsMatch(Up(nodes), t.kids, {}) && Fresh(t.space, nodes, t.locals, worlds, items) && items != []
    requires var n := items[0].entity;
             && n in nodes && n in t.kids && n in t.locals && Closed(nodes) && nodes.Keys == worlds.Keys
             && (if items[0].parentChanged || nodes[n].dirty
                 then worlds' == WorldAfter(t, nodes, worlds, n) && items' == Items(t.kids[n], true) + items[1..]
                 else worlds' == worlds && items' == Items(t.kids[n], false) + items[1..])
    ensures Fresh(t.space, Unflagged(nodes, items[0].entity), t.locals, worlds', items')
  {
    hide Acyclic, KidsMatch, Up, Fresh, ParentWorld;
    var n, rest := items[0].entity, items[1..];
    assert [items[0]] + rest == items;
    NotOwnParent(nodes, n);
    ChildrenListed(nodes, t.kids, n);
    if items[0].parentChanged || nodes[n].dirty {
      FreshRecompute(t.space, nodes, t.locals, worlds, t.kids, items[0].parentChanged, n, rest);
    } else {
      assert items[0] == Item(n, false);
      FreshPass(t.space, nodes, Unflagged(nodes, n), t.locals, worlds, n, rest, t.kids[n]);
    }
  }

  /** Skipping an unmarked subtree. */
  lemma {:induction false} SweepSkip(t: Sweep, nodes: Nodes, worlds: Worlds, items: seq<Item>)
    requires Sweeping(t, nodes, worlds, items) && items != []
    requires var n := items[0].entity; n in nodes && !items[0].parentChanged && !nodes[n].dirty && !nodes[n].dirtyBelow
    ensures Sweeping(t, nodes, worlds, items[1..]) && |AheadOf(t, items[1..])| < |AheadOf(t, items)|
  {
    hide *;
    var n, rest := items[0].entity, items[1..];
    Unpack(t, nodes, worlds, items);
    SoundParts(t);
    AheadStep(t, items);
    AheadIs(t, rest);
    var pre, ahead' := Pre(Up(t.start), t.kids, n), Flat(Up(t.start), t.kids, Entities(rest));
    PreHead(Up(t.start), t.kids, n);
    DistinctTail(pre, ahead');
    NotMarked(nodes[n]);
    SkipSubtree(t.start, true, nodes, t.kids, n, ahead');
    assert Items([], false) + rest == rest;
    assert items[0] == Item(n, false);
    FreshPass(t.space, nodes, nodes, t.locals, worlds, n, rest, []);
    Pack(t, nodes, worlds, rest);
  }

  lemma {:induction false} PreHead(up: Parents, kids: Kids, n: EntityRef)
    requires Acyclic(up) && KidsMatch(up, kids, {}) && n in up
    ensures |Pre(up, kids, n)| > 0 && Pre(up, kids, n)[0] == n
  {
  }

  lemma {:induction false} NotMarked(n: Node)
    ensures Marked(n) <==> n.dirty || n.dirtyBelow
  {
  }

  /** At the end nothing is marked and every matrix is the full recomputation. */
  lemma {:induction false} SweepDone(t: Sweep, nodes: Nodes, worlds: Worlds)
    requires Sweeping(t, nodes, worlds, [])
    ensures Tree(nodes, t.firstRoot, t.lastRoot, t.kids) && Up(nodes) == Up(t.start) && SameButFlags(t.start, nodes)
    ensures (forall n | n in nodes :: !Marked(nodes[n])) && MarksOk(nodes, false) && WorldsOk(t.space, nodes, t.locals, worlds)
    ensures Acyclic(Up(nodes)) && Up(nodes).Keys == t.locals.Keys == nodes.Keys == worlds.Keys
    ensures forall n | n in nodes :: worlds[n] == Recomputed(t.space, Up(nodes), t.locals, n)
  {
    hide *;
    SweepTree(t, nodes, worlds, []);
    Unpack(t, nodes, worlds, []);
    AheadNone(t);
    SoundParts(t);
    AllUnmarked(t.start, nodes);
    FreshDone(t.space, nodes, t.locals, worlds);
    AllRecomputed(t.space, nodes, t.locals, worlds);
  }

  lemma {:induction false} AheadNone(t: Sweep)
    requires Sound(t)
    ensures (forall n | n in Entities([]) :: n in t.start) && AheadOf(t, []) == []
  {
  }

  lemma {:induction false} AllUnmarked(start: Nodes, nodes: Nodes)
    requires Split(start, nodes, []) && Closed(nodes)
    ensures (forall n | n in nodes :: !Marked(nodes[n])) && MarksOk(nodes, false)
  {
  }

  lemma {:induction false} AllRecomputed(s: Space, nodes: Nodes, locals: Locals, worlds: Worlds)
    requires Acyclic(Up(nodes)) && WorldsOk(s, nodes, locals, worlds) && Up(nodes).Keys == nodes.Keys == locals.Keys
    requires forall n | n in nodes :: !Marked(nodes[n])
    ensures worlds.Keys == nodes.Keys
    ensures forall n | n in nodes :: worlds[n] == Recomputed(s, Up(nodes), locals, n)
  {
    hide Acyclic, Up;
    forall n | n in nodes ensures worlds[n] == Recomputed(s, Up(nodes), locals, n) {
      CleanIsRecomputed(s, nodes, locals, worlds, n);
    }
  }
}
