/** The entity tree: link surgery, reparenting, despawn, order, transforms and dormancy. */
module HierarchyTree {
  import opened Basics
  import opened Forest
  import opened ForestOrder
  import opened TreeLinks
  import opened TreeState
  import opened TreeSweep
  import opened TreeNumbering
  import opened TreeDormancy
  import opened BitWords
  import opened Activity
  import opened TreeValid
  import opened TreePrune
  import opened TreeMeaning

  datatype Stats = Stats(applied: nat, cyclesRefused: nat, autoAdopted: nat)

  lemma {:induction false} RowIs(pools: seq<Pool>, e: EntityRef, i: nat)
    requires i < |pools|
    ensures ColumnOf(pools, e)[i] == Absent <==> e !in pools[i]
  {
  }

  lemma {:induction false} RowAt(start: seq<Pool>, pools: seq<Pool>, e: EntityRef, i: nat, col: Column)
    requires i < |pools| && Half(ColumnOf(pools, e), col, Cleared(col), i)
    ensures i < |col| && (col[i] == Absent <==> e !in pools[i])
    ensures e in pools[i] ==> (col[i] == Active <==> pools[i][e])
    ensures RowOf(false) == Inactive
  {
  }

  lemma {:induction false} SavedIs(saved: seq<Word>, i: nat)
    requires i < |saved| / 2 * WIDTH
    ensures i / WIDTH * 2 + 1 < |saved|
    ensures SavedBit(saved, i, 0) <==> Has(saved[i / WIDTH * 2], i % WIDTH)
    ensures SavedBit(saved, i, 1) <==> Has(saved[i / WIDTH * 2 + 1], i % WIDTH)
  {
  }

  lemma {:induction false} InSubtree(up: Parents, root: EntityRef, list: seq<EntityRef>, k: nat)
    requires Acyclic(up) && k < |list| && FirstOnes(list, |list|) == Subtree(up, root)
    ensures list[k] in Subtree(up, root)
  {
    assert list[..|list|] == list;
    assert list[k] in list;
  }

  lemma {:induction false} PushOne<T>(list: seq<T>, i: nat, stack: seq<T>)
    requires i < |list|
    ensures [list[i]] + (list[i + 1..] + stack) == list[i..] + stack
  {
  }

  // ---- steps of the marking loop and the sweep ---------------------------------------------

  lemma {:induction false} MarksForget(nodes: Nodes, any: bool, e: EntityRef)
    requires MarksOk(nodes, any)
    ensures MarksOkBut(nodes, any, {e})
  {
  }

  lemma {:induction false} LocalWritten(s: Space, nodes: Nodes, locals: Locals, worlds: Worlds, e: EntityRef, local: Transform)
    requires WorldsOk(s, nodes, locals, worlds) && e in nodes
    ensures WorldsOkBut(s, nodes, locals[e := local], worlds, e)
  {
    forall n | n in nodes && n != e && !nodes[n].dirty ensures Composed(s, nodes, locals[e := local], worlds, n) {
      assert Composed(s, nodes, locals, worlds, n);
    }
  }

  lemma {:induction false} NothingMarked(nodes: Nodes)
    requires MarksOk(nodes, false)
    ensures forall n | n in nodes :: !Marked(nodes[n])
  {
    forall n | n in nodes ensures !Marked(nodes[n]) {
      assert MarkAt(nodes, false, n);
    }
  }

  lemma {:induction false} SameButFlagsSelf(nodes: Nodes)
    ensures SameButFlags(nodes, nodes)
  {
  }

  lemma {:induction false} RowKeys(s: Space, nodes: Nodes, locals: Locals, worlds: Worlds)
    requires WorldsOk(s, nodes, locals, worlds)
    ensures locals.Keys == nodes.Keys == worlds.Keys
  {
  }

  class Hierarchy {
    const space: Space
    const base: nat

    // the world this hierarchy sits on
    var alive: set<EntityRef>
    var pending: set<EntityRef>
    var iterating: nat
    var pools: seq<Pool>

    // component rows
    var nodes: Nodes
    var locals: Locals
    var worlds: Worlds

    var firstRoot: EntityRef
    var lastRoot: EntityRef
    var adoptedCount: nat
    var orderDirty: bool
    var anyDirty: bool
    var stats: Stats

    ghost var kids: Kids

    /** On a world with these live entities and pools: registers the three own pools. */
    constructor (space: Space, alive: set<EntityRef>, pending: set<EntityRef>, pools: seq<Pool>)
      requires HandlesOk(alive, pending) && forall i | 0 <= i < |pools| :: pools[i].Keys <= alive
      ensures Valid() && this.pending == pending && this.space == space && base == |pools| && this.alive == alive && nodes == map[] && iterating == 0
    {
      this.space, this.base, this.alive, this.pending, this.iterating := space, |pools|, alive, pending, 0;
      this.pools := pools + [map[], map[], map[]];
      nodes, locals, worlds := map[], map[], map[];
      firstRoot, lastRoot := NULL, NULL;
      adoptedCount, orderDirty, anyDirty := 0, false, false;
      stats := Stats(0, 0, 0);
      kids := map[NULL := []];
      new;
      EmptyValid(space, alive, pools, |pools|);
    }

    // ---- walking the links -----------------------------------------------------------------

    /** Pushes n's children (the roots for NULL), last first, so that the first one is on top. */
    method PushChildren(n: EntityRef, stack: seq<EntityRef>) returns (r: seq<EntityRef>)
      requires Tree(nodes, firstRoot, lastRoot, kids) && n in kids
      ensures r == kids[n] + stack
    {
      hide Tree, KidsMatch, Up, FirstOf, HeadOf;
      TreeShape(nodes, firstRoot, lastRoot, kids);
      ListEnds(nodes, firstRoot, lastRoot, kids, n);
      r := stack;
      var child := LastOf(nodes, lastRoot, n);
      ghost var i: nat := |kids[n]|;
      while child != NULL
        invariant i <= |kids[n]| && child == (if i == 0 then NULL else kids[n][i - 1])
        invariant r == kids[n][i..] + stack
        decreases i
      {
        i := i - 1;
        ListLinks(nodes, firstRoot, lastRoot, kids, n, i);
        PushOne(kids[n], i, stack);
        r := [child] + r;
        child := nodes[child].prevSibling;
      }
      if i > 0 {
        ListLinks(nodes, firstRoot, lastRoot, kids, n, i - 1);
        assert false;
      }
    }

    method SubtreeContains(root: EntityRef, entity: EntityRef) returns (r: bool)
      requires Tree(nodes, firstRoot, lastRoot, kids) && entity in nodes
      ensures Acyclic(Up(nodes)) && (r <==> Under(Up(nodes), root, entity))
    {
      hide Tree, KidsMatch;
      TreeShape(nodes, firstRoot, lastRoot, kids);
      ghost var up := Up(nodes);
      var at := entity;
      while at != NULL
        invariant at == NULL || at in nodes
        invariant Under(up, root, entity) <==> at != NULL && Under(up, root, at)
        decreases if at == NULL then 0 else Rank(up, at) + 1
      {
        if at == root {
          UnderStep(up, root, at);
          return true;
        }
        UnderStep(up, root, at);
        at := nodes[at].parent;
      }
      return false;
    }

    /** The subtree in preorder. */
    method CollectSubtree(root: EntityRef) returns (out: seq<EntityRef>)
      requires Tree(nodes, firstRoot, lastRoot, kids) && root in nodes
      ensures Acyclic(Up(nodes)) && KidsMatch(Up(nodes), kids, {}) && out == Pre(Up(nodes), kids, root)
    {
      hide Tree, KidsMatch;
      TreeShape(nodes, firstRoot, lastRoot, kids);
      ghost var up := Up(nodes);
      out := [];
      var stack := [root];
      while stack != []
        invariant forall n | n in stack :: n in nodes
        invariant out + Flat(up, kids, stack) == Pre(up, kids, root)
        decreases |Flat(up, kids, stack)|
      {
        var entity, rest := stack[0], stack[1..];
        FlatStep(up, kids, stack);
        stack := PushChildren(entity, rest);
        Regroup(out, [entity], Flat(up, kids, stack));
        out := out + [entity];
      }
    }

    // ---- link surgery ----------------------------------------------------------------------

    /** Appends a node that is in no list at the end of parent's list (the root list for NULL). */
    method LinkLast(e: EntityRef, parent: EntityRef)
      requires Linked(nodes, firstRoot, lastRoot, kids, {e}) && e in nodes && parent in kids
      modifies this`nodes, this`firstRoot, this`lastRoot, this`kids
      ensures Linked(nodes, firstRoot, lastRoot, kids, {})
      ensures Up(nodes) == old(Up(nodes))[e := parent] && SameData(old(nodes), nodes)
      ensures kids == AppendedKids(old(kids), e, parent)
    {
      hide Linked, Up, Data;
      LinkedTail(nodes, firstRoot, lastRoot, kids, e, parent);
      AppendKeepsLinks(nodes, firstRoot, lastRoot, kids, e, parent);
      AppendedUp(nodes, e, parent, TailOf(kids[parent]));
      AppendedData(nodes, e, parent, TailOf(kids[parent]));
      AppendStepsAre(nodes, e, parent, TailOf(kids[parent]));
      hide Appended, AppendedNode, SameData, HeadOf, TailOf, AppendedKids;
      var last := LastOf(nodes, lastRoot, parent);
      nodes := nodes[e := nodes[e].(parent := parent, prevSibling := last, nextSibling := NULL)];
      if last != NULL {
        nodes := nodes[last := nodes[last].(nextSibling := e)];
      } else if parent == NULL {
        firstRoot := e;
      } else {
        nodes := nodes[parent := nodes[parent].(firstChild := e)];
      }
      if parent == NULL {
        lastRoot := e;
      } else {
        nodes := nodes[parent := nodes[parent].(lastChild := e)];
      }
      assert nodes == AppendSteps(old(nodes), e, parent, last);
      kids := AppendedKids(kids, e, parent);
    }

    /** Takes a node out of its list. */
    method Unlink(e: EntityRef)
      requires Linked(nodes, firstRoot, lastRoot, kids, {}) && e in nodes
      modifies this`nodes, this`firstRoot, this`lastRoot, this`kids
      ensures Linked(nodes, firstRoot, lastRoot, kids, {e})
      ensures Up(nodes) == old(Up(nodes))[e := NULL] && SameData(old(nodes), nodes)
      ensures kids == Cut(old(kids), e)
    {
      hide Linked, Up, Data;
      ghost var j := LinkedPlace(nodes, firstRoot, lastRoot, kids, e);
      UnlinkKeepsLinks(nodes, firstRoot, lastRoot, kids, e, j);
      UnlinkedUp(nodes, e);
      UnlinkedData(nodes, e);
      UnlinkStepsAre(nodes, e);
      LinkedCut(nodes, firstRoot, lastRoot, kids, e, j);
      hide Unlinked, UnlinkedNode, SameData, UnlinkedKids;
      var x := nodes[e];
      if x.prevSibling != NULL {
        nodes := nodes[x.prevSibling := nodes[x.prevSibling].(nextSibling := x.nextSibling)];
      } else if x.parent == NULL {
        firstRoot := x.nextSibling;
      } else {
        nodes := nodes[x.parent := nodes[x.parent].(firstChild := x.nextSibling)];
      }
      assert nodes == CloseBefore(old(nodes), x);
      if x.nextSibling != NULL {
        nodes := nodes[x.nextSibling := nodes[x.nextSibling].(prevSibling := x.prevSibling)];
      } else if x.parent == NULL {
        lastRoot := x.prevSibling;
      } else {
        nodes := nodes[x.parent := nodes[x.parent].(lastChild := x.prevSibling)];
      }
      assert nodes == CloseAfter(CloseBefore(old(nodes), x), x);
      nodes := nodes[e := nodes[e].(parent := NULL, prevSibling := NULL, nextSibling := NULL)];
      kids := Cut(kids, e);
    }

    // ---- transforms --------------------------------------------------------------------------

    /** Marks e dirty and its ancestors marked-below, up to the first that already is. */
    method MarkDirty(e: EntityRef)
      requires Acyclic(Up(nodes)) && e in nodes && MarksOkBut(nodes, anyDirty, {e})
      modifies this`nodes, this`anyDirty
      ensures MarksOk(nodes, anyDirty) && anyDirty && MoreMarked(old(nodes), nodes, e)
    {
      hide *;
      ghost var up, start := Up(nodes), nodes;
      MarkStart(nodes, anyDirty, e);
      nodes, anyDirty := nodes[e := nodes[e].(dirty := true)], true;
      var at := nodes[e].parent;
      ghost var last := e;
      while at != NULL
        invariant anyDirty && Acyclic(Up(start)) && Marking(start, nodes, e, last) && last in nodes && at == nodes[last].parent
        invariant at == NULL || (at in nodes && at in Up(start))
        decreases if at == NULL then 0 else Rank(Up(start), at) + 1
      {
        MarkStep(start, nodes, e, last, at);
        if nodes[at].dirtyBelow {
          return;
        }
        nodes := nodes[at := nodes[at].(dirtyBelow := true)];
        last := at;
        at := nodes[at].parent;
      }
      MarkAtRoot(start, nodes, e, last);
    }

    method SetLocal(e: EntityRef, local: Transform) returns (r: Outcome)
      requires Valid()
      modifies this`nodes, this`anyDirty, this`locals
      ensures Valid() && r == if e in old(nodes) then Fine else Failed(NotAdopted)
      ensures e !in old(nodes) ==> nodes == old(nodes) && locals == old(locals) && anyDirty == old(anyDirty)
      ensures e in old(nodes) ==> Acyclic(old(Up(nodes))) && MoreMarked(old(nodes), nodes, e) && locals == old(locals)[e := local]
    {
      hide *;
      if e !in nodes {
        return Failed(NotAdopted);
      }
      ValidParts();
      TreeShape(nodes, firstRoot, lastRoot, kids);
      MarksForget(nodes, anyDirty, e);
      LocalWritten(space, nodes, locals, worlds, e, local);
      ghost var start := nodes;
      locals := locals[e := local];
      MarkDirty(e);
      MarkedKeeps(space, start, nodes, locals, worlds, e);
      MarkedScopes(start, nodes, e);
      Reshaped(start);
      return Fine;
    }

    /** The part of the invariant that a write to flags, matrices or transforms leaves as it was. */
    lemma {:induction false} Reshaped(start: Nodes)
      requires SameScopes(start, nodes) && SameOrders(start, nodes) && SameLinks(start, nodes) && nodes.Keys == start.Keys
      requires Tree(start, firstRoot, lastRoot, kids) && OrderOk(start, kids, orderDirty) && Owned(alive, start, pools, base, adoptedCount)
      requires DepthsOk(start) && ActivityOk(start, pools) && MarksOk(nodes, anyDirty) && WorldsOk(space, nodes, locals, worlds)
      requires HandlesOk(alive, pending)
      ensures Valid() && SameIntents(start, pools, nodes, pools)
    {
      hide *;
      SameLinksTree(start, nodes, firstRoot, lastRoot, kids);
      SameOrderOk(start, nodes, kids, orderDirty);
      OwnedKeys(alive, start, pools, nodes, base, adoptedCount);
      SameScopesKeep(start, nodes, pools);
      ValidFrom();
    }

    /** Recomputes the matrices of marked branches only, and leaves every one up to date. */
    method Propagate()
      requires Valid()
      modifies this`nodes, this`worlds, this`anyDirty
      ensures Valid() && SameButFlags(old(nodes), nodes) && !anyDirty && forall n | n in nodes :: !Marked(nodes[n])
      ensures Acyclic(Up(nodes)) && Up(nodes) == old(Up(nodes)) && Up(nodes).Keys == locals.Keys == nodes.Keys == worlds.Keys
      ensures forall n | n in nodes :: worlds[n] == Recomputed(space, Up(nodes), locals, n)
      ensures forall n | n in nodes ::
                && (nodes[n].parent == NULL || nodes[n].parent in worlds)
                && worlds[n] == space.mul(if nodes[n].parent == NULL then space.identity else worlds[nodes[n].parent], space.toMatrix(locals[n]))
    {
      hide *;
      ValidParts();
      ghost var start := nodes;
      SweepBranches();
      WorldsMean(space, nodes, locals, worlds);
      FlagsScopes(start, nodes);
      Reshaped(start);
    }

    method SweepBranches()
      requires Tree(nodes, firstRoot, lastRoot, kids) && MarksOk(nodes, anyDirty) && WorldsOk(space, nodes, locals, worlds)
      modifies this`nodes, this`worlds, this`anyDirty
      ensures Tree(nodes, firstRoot, lastRoot, kids) && Up(nodes) == old(Up(nodes)) && SameButFlags(old(nodes), nodes) && !anyDirty
      ensures MarksOk(nodes, anyDirty) && WorldsOk(space, nodes, locals, worlds)
      ensures forall n | n in nodes :: !Marked(nodes[n])
      ensures Acyclic(Up(nodes)) && Up(nodes).Keys == locals.Keys == nodes.Keys == worlds.Keys
      ensures forall n | n in nodes :: worlds[n] == Recomputed(space, Up(nodes), locals, n)
    {
      hide *;
      TreeShape(nodes, firstRoot, lastRoot, kids);
      if !anyDirty {
        NothingMarked(nodes);
        SameButFlagsSelf(nodes);
        RowKeys(space, nodes, locals, worlds);
        AllRecomputed(space, nodes, locals, worlds);
        return;
      }
      ghost var t := Sweep(space, nodes, locals, firstRoot, lastRoot, kids);
      var roots := PushChildren(NULL, []);
      var items := Items(roots, false);
      SweepStart(t, worlds, roots);
      SweepTree(t, nodes, worlds, items);
      while items != []
        invariant anyDirty && Sweeping(t, nodes, worlds, items)
        invariant Sound(t) && (forall n | n in Entities(items) :: n in t.start) && Tree(nodes, firstRoot, lastRoot, kids)
        decreases |AheadOf(t, items)|
      {
        items := VisitTop(t, items);
        SweepTree(t, nodes, worlds, items);
      }
      anyDirty := false;
      SweepDone(t, nodes, worlds);
    }

    /** Handles the top item of the sweep's stack. */
    method VisitTop(ghost t: Sweep, items: seq<Item>) returns (items': seq<Item>)
      requires t.space == space && t.locals == locals && t.firstRoot == firstRoot && t.lastRoot == lastRoot && t.kids == kids
      requires Sweeping(t, nodes, worlds, items) && items != []
      modifies this`nodes, this`worlds
      ensures Sweeping(t, nodes, worlds, items')
      ensures Sound(t) && (forall n | n in Entities(items) :: n in t.start) && (forall n | n in Entities(items') :: n in t.start)
      ensures |AheadOf(t, items')| < |AheadOf(t, items)|
    {
      hide *;
      SweepTree(t, nodes, worlds, items);
      var n, rest := items[0].entity, items[1..];
      var recompute := items[0].parentChanged || nodes[n].dirty;
      NodeClosed(nodes, n);
      ghost var nodes0, worlds0 := nodes, worlds;
      if recompute {
        WorldAfterIs(t, nodes, worlds, n);
        worlds := worlds[n := space.mul(ParentWorld(space, worlds, nodes[n].parent), space.toMatrix(locals[n]))];
        nodes := nodes[n := nodes[n].(dirty := false)];
      }
      if recompute || nodes[n].dirtyBelow {
        nodes := nodes[n := nodes[n].(dirtyBelow := false)];
        UnflaggedIs(nodes0, n);
        assert nodes == Unflagged(nodes0, n);
        SweepEnter(t, nodes0, worlds0, items, recompute);
        SweepTree(t, nodes, worlds, Items(kids[n], recompute) + rest);
        items' := PushItems(n, recompute, rest);
      } else {
        SweepSkip(t, nodes0, worlds0, items);
        items' := rest;
        SweepTree(t, nodes, worlds, items');
      }
    }

    method PushItems(n: EntityRef, changed: bool, rest: seq<Item>) returns (items: seq<Item>)
      requires Tree(nodes, firstRoot, lastRoot, kids) && n in kids
      ensures items == Items(kids[n], changed) + rest
    {
      var children := PushChildren(n, []);
      assert children == kids[n];
      items := Items(children, changed) + rest;
    }

    // ---- tree order ------------------------------------------------------------------------------

    /** Numbers the subtree of `root` in preorder, from `counter` on. */
    method NumberSubtree(root: EntityRef, counter: nat, ghost t: Numbering, ghost done: seq<EntityRef>, ghost after: seq<EntityRef>)
        returns (counter': nat)
      requires t.firstRoot == firstRoot && t.lastRoot == lastRoot && t.kids == kids
      requires NumberingAt(t, nodes, done, [root], after) && counter == |done|
      modifies this`nodes
      ensures NumberingAt(t, nodes, done + Pre(Up(t.start), t.kids, root), [], after) && counter' == |done + Pre(Up(t.start), t.kids, root)|
    {
      hide *;
      counter' := counter;
      var stack := [root];
      ghost var seen := done;
      NumberingParts(t, nodes, done, [root], after);
      FlatOne(t, root);
      while stack != []
        invariant NumberingAt(t, nodes, seen, stack, after) && counter' == |seen|
        invariant Ahead(t, stack) && seen + FlatOf(t, stack) == done + Pre(Up(t.start), t.kids, root)
        decreases |FlatOf(t, stack)|
      {
        var entity, rest := stack[0], stack[1..];
        NumberStep(t, nodes, seen, stack, after);
        nodes := nodes[entity := nodes[entity].(order := counter')];
        counter' := counter' + 1;
        Regroup(seen, [entity], FlatOf(t, kids[entity] + rest));
        seen := seen + [entity];
        NumberTree(t, nodes, seen, kids[entity] + rest, after);
        stack := PushChildren(entity, rest);
      }
      FlatNone(t);
      assert seen + [] == seen;
    }

    method RebuildOrder()
      requires Tree(nodes, firstRoot, lastRoot, kids)
      modifies this`nodes, this`orderDirty
      ensures Tree(nodes, firstRoot, lastRoot, kids) && Up(nodes) == old(Up(nodes)) && SameButOrder(old(nodes), nodes)
      ensures Acyclic(Up(nodes)) && KidsMatch(Up(nodes), kids, {})
      ensures !orderDirty && Ordered(nodes, AllPre(Up(nodes), kids))
    {
      hide *;
      ghost var t := Numbering(nodes, firstRoot, lastRoot, kids);
      var counter: nat := 0;
      ghost var i: nat, done := 0, [];
      NumberStart(t);
      FirstRootIs(t, nodes, done, i);
      var root := firstRoot;
      while root != NULL
        invariant RootsFrom(t, nodes, done, i) && counter == |done|
        invariant NULL in kids && i <= |kids[NULL]| && root == (if i == |kids[NULL]| then NULL else kids[NULL][i])
        decreases |kids[NULL]| - i
      {
        RootStep(t, nodes, done, i);
        ghost var pre, after := Pre(Up(t.start), kids, root), PreKids(Up(t.start), kids, NULL, i + 1);
        counter := NumberSubtree(root, counter, t, done, after);
        RootNext(t, nodes, done, i);
        done, i := done + pre, i + 1;
        root := nodes[root].nextSibling;
      }
      if i < |kids[NULL]| {
        RootStep(t, nodes, done, i);
        assert false;
      }
      orderDirty := false;
      RootsDone(t, nodes, done, i);
    }

    /** Rebuilds a stale order, so that what is read next is never stale. */
    method FreshOrder()
      requires Valid()
      modifies this`nodes, this`orderDirty
      ensures Valid() && Up(nodes) == old(Up(nodes)) && SameButOrder(old(nodes), nodes)
      ensures Acyclic(Up(nodes)) && KidsMatch(Up(nodes), kids, {}) && Ordered(nodes, AllPre(Up(nodes), kids))
    {
      hide *;
      ValidParts();
      OrderParts(nodes, kids, orderDirty);
      SameOrder(nodes);
      if orderDirty {
        ghost var start := nodes;
        RebuildOrder();
        OrderScopes(start, nodes);
        SameScopesKeep(start, nodes, pools);
        SameMarksKeeps(space, start, nodes, anyDirty, locals, worlds, {}, NULL);
        MarksAre(start, anyDirty);
        MarksAre(nodes, anyDirty);
        OwnedKeys(alive, start, pools, nodes, base, adoptedCount);
        OrderFrom(nodes, kids, orderDirty);
        ValidFrom();
      }
    }

    /** The entity's place in the preorder of the forest, or nothing for an entity outside it. */
    method OrderIndex(e: EntityRef) returns (r: Position)
      requires Valid()
      modifies this`nodes, this`orderDirty
      ensures Valid() && Up(nodes) == old(Up(nodes)) && SameButOrder(old(nodes), nodes)
      ensures Acyclic(Up(nodes)) && KidsMatch(Up(nodes), kids, {})
      ensures r.At? <==> e in old(nodes)
      ensures r.At? ==> r.index < |AllPre(Up(nodes), kids)| && AllPre(Up(nodes), kids)[r.index] == e
    {
      hide *;
      SameOrder(nodes);
      ValidParts();
      OrderParts(nodes, kids, orderDirty);
      if e !in nodes {
        return Nowhere;
      }
      FreshOrder();
      SameOrderKeys(old(nodes), nodes);
      OrderedAt(nodes, kids, e);
      return At(nodes[e].order);
    }

    /** Tree order; entities outside the tree come last, by slot and generation. */
    method CompareEntities(a: EntityRef, b: EntityRef) returns (r: int)
      requires Valid()
      modifies this`nodes, this`orderDirty
      ensures Valid() && Up(nodes) == old(Up(nodes)) && SameButOrder(old(nodes), nodes)
      ensures Acyclic(Up(nodes)) && KidsMatch(Up(nodes), kids, {})
      ensures r == TreeCompare(AllPre(Up(nodes), kids), a, b)
    {
      hide *;
      SameOrder(nodes);
      ValidParts();
      OrderParts(nodes, kids, orderDirty);
      if a == b {
        CompareSelf(AllPre(Up(nodes), kids), a);
        return 0;
      }
      var aAdopted, bAdopted := a in nodes, b in nodes;
      if aAdopted && bAdopted {
        FreshOrder();
        SameOrderKeys(old(nodes), nodes);
        CompareAdopted(nodes, kids, a, b);
        return if nodes[a].order < nodes[b].order then -1 else 1;
      }
      CompareOthers(nodes, kids, a, b);
      if aAdopted != bAdopted {
        return if aAdopted then -1 else 1;
      }
      if a.index != b.index {
        return if a.index < b.index then -1 else 1;
      }
      return if a.generation < b.generation then -1 else 1;
    }

    // ---- dormancy --------------------------------------------------------------------------------

    /** Saves which of e's rows exist and which are active, and clears their bits. */
    method CaptureAndClear(e: EntityRef)
      requires e in nodes
      modifies this`nodes, this`pools
      ensures e in nodes && nodes == old(nodes)[e := old(nodes[e]).(saved := nodes[e].saved)]
      ensures Captures(nodes[e].saved, ColumnOf(old(pools), e)) && ColumnOf(pools, e) == Cleared(ColumnOf(old(pools), e))
      ensures OthersKept(old(pools), pools, e)
    {
      hide *;
      ghost var start, col := pools, ColumnOf(pools, e);
      var saved: seq<Word> := seq(Groups(|pools|) * 2, _ => 0);
      CaptureStart(col);
      KeptAtStart(pools, e);
      var i := 0;
      while i < |pools|
        invariant i <= |pools| == |col| && nodes == old(nodes)
        invariant Capturing(saved, col, i) && Half(ColumnOf(pools, e), col, Cleared(col), i)
        invariant OthersKept(start, pools, e)
      {
        CaptureStep(saved, col, ColumnOf(pools, e), i);
        RowAt(start, pools, e, i, col);
        if e in pools[i] {
          saved := WithBit(saved, i, 0);
          if pools[i][e] {
            saved := WithBit(saved, i, 1);
          }
          OneBit(start, pools, e, i, false);
          pools := pools[i := pools[i][e := false]];
        }
        i := i + 1;
      }
      CaptureDone(saved, col, ColumnOf(pools, e));
      nodes := nodes[e := nodes[e].(saved := saved)];
    }

    /** Gives the captured rows that still exist their bits back. */
    method RestoreActivity(e: EntityRef)
      requires e in nodes && |nodes[e].saved| % 2 == 0
      modifies this`nodes, this`pools
      ensures nodes == old(nodes)[e := old(nodes[e]).(saved := [])]
      ensures ColumnOf(pools, e) == Restored(ColumnOf(old(pools), e), old(nodes[e].saved)) && OthersKept(old(pools), pools, e)
    {
      hide *;
      ghost var start, col := pools, ColumnOf(pools, e);
      var saved := nodes[e].saved;
      var capturedPools := |saved| / 2 * WIDTH;
      RestoreStart(saved, col);
      KeptAtStart(pools, e);
      var i := 0;
      while i < |pools| && i < capturedPools
        invariant i <= |pools| == |col| && nodes == old(nodes)
        invariant Half(ColumnOf(pools, e), col, Restored(col, saved), i)
        invariant OthersKept(start, pools, e)
      {
        RestoreStep(saved, col, ColumnOf(pools, e), i);
        RowIs(pools, e, i);
        SavedIs(saved, i);
        if Has(saved[i / WIDTH * 2], i % WIDTH) && e in pools[i] {
          OneBit(start, pools, e, i, Has(saved[i / WIDTH * 2 + 1], i % WIDTH));
          pools := pools[i := pools[i][e := Has(saved[i / WIDTH * 2 + 1], i % WIDTH)]];
        }
        i := i + 1;
      }
      RestoreDone(saved, col, ColumnOf(pools, e), i);
      nodes := nodes[e := nodes[e].(saved := [])];
    }

    /** Adds delta covering scopes to one node. */
    method ShiftOne(e: EntityRef, delta: int)
      requires e in nodes && nodes[e].dormantDepth + delta >= 0 && |nodes[e].saved| % 2 == 0
      modifies this`nodes, this`pools
      ensures RowShifted(old(nodes), old(pools), nodes, pools, e, delta) && nodes == old(nodes)[e := nodes[e]]
      ensures OthersKept(old(pools), pools, e)
    {
      hide Captures, Restored, Cleared, ColumnOf, OthersKept;
      KeptAtStart(pools, e);
      var was := nodes[e].dormantDepth;
      nodes := nodes[e := nodes[e].(dormantDepth := was + delta)];
      if was == 0 && nodes[e].dormantDepth > 0 {
        CaptureAndClear(e);
      } else if was > 0 && nodes[e].dormantDepth == 0 {
        RestoreActivity(e);
      }
    }

    /** Adds delta covering scopes to every node of the subtree. */
    method ApplyDormancyDelta(root: EntityRef, delta: int)
      requires Tree(nodes, firstRoot, lastRoot, kids) && Acyclic(Up(nodes)) && root in nodes
      requires forall n | n in Subtree(Up(nodes), root) :: n in nodes && nodes[n].dormantDepth + delta >= 0
      requires forall n | n in nodes :: |nodes[n].saved| % 2 == 0
      modifies this`nodes, this`pools
      ensures ShiftedRows(old(nodes), old(pools), nodes, pools, Subtree(old(Up(nodes)), root), delta)
    {
      hide *;
      TreeShape(nodes, firstRoot, lastRoot, kids);
      ghost var start, was, up := nodes, pools, Up(nodes);
      var entities := CollectSubtree(root);
      CollectsSubtree(up, kids, root);
      NoneYet(entities);
      ShiftNothing(nodes, pools, delta);
      var k := 0;
      while k < |entities|
        invariant k <= |entities| && ShiftedRows(start, was, nodes, pools, FirstOnes(entities, k), delta)
      {
        NextRow(start, was, nodes, pools, entities, k, delta);
        OneMore(entities, k);
        InSubtree(up, root, entities, k);
        ghost var nodes1, pools1 := nodes, pools;
        ShiftOne(entities[k], delta);
        ShiftOneMore(start, was, nodes1, pools1, nodes, pools, FirstOnes(entities, k), entities[k], delta);
        k := k + 1;
      }
    }

    /** Holds between operations. */
    ghost predicate Valid()
      reads this
    {
      && Tree(nodes, firstRoot, lastRoot, kids) && OrderOk(nodes, kids, orderDirty)
      && Owned(alive, nodes, pools, base, adoptedCount)
      && DepthsOk(nodes) && ActivityOk(nodes, pools)
      && MarksOk(nodes, anyDirty) && WorldsOk(space, nodes, locals, worlds) && HandlesOk(alive, pending)
    }

    lemma {:induction false} ValidParts()
      requires Valid()
      ensures Tree(nodes, firstRoot, lastRoot, kids) && OrderOk(nodes, kids, orderDirty) && Owned(alive, nodes, pools, base, adoptedCount)
      ensures DepthsOk(nodes) && ActivityOk(nodes, pools) && MarksOk(nodes, anyDirty) && WorldsOk(space, nodes, locals, worlds)
      ensures HandlesOk(alive, pending)
    {
    }

    lemma {:induction false} ValidFrom()
      requires Tree(nodes, firstRoot, lastRoot, kids) && OrderOk(nodes, kids, orderDirty) && Owned(alive, nodes, pools, base, adoptedCount)
      requires DepthsOk(nodes) && ActivityOk(nodes, pools) && MarksOk(nodes, anyDirty) && WorldsOk(space, nodes, locals, worlds)
      requires HandlesOk(alive, pending)
      ensures Valid()
    {
    }

    /** Puts a covering scope on the subtree; nothing loses its intended activity. */
    method Deactivate(root: EntityRef) returns (r: Outcome)
      requires Valid()
      modifies this`nodes, this`pools
      ensures Valid() && Up(nodes) == old(Up(nodes))
      ensures r == if root !in old(nodes) then Failed(NotAdopted)
                   else if old(nodes[root].deactivated) then Failed(AlreadyDeactivated) else Fine
      ensures r != Fine ==> nodes == old(nodes) && pools == old(pools)
      ensures r == Fine ==> Acyclic(old(Up(nodes))) && root in old(nodes)
                            && ShiftedRows(Flagged(old(nodes), root, true), old(pools), nodes, pools, Subtree(old(Up(nodes)), root), 1)
                            && PutToSleep(old(nodes), old(pools), nodes, pools, Subtree(old(Up(nodes)), root))
      ensures SameIntents(old(nodes), old(pools), nodes, pools)
    {
      if root !in nodes {
        return Failed(NotAdopted);
      }
      if nodes[root].deactivated {
        return Failed(AlreadyDeactivated);
      }
      hide *;
      ghost var start, was := nodes, pools;
      SetScope(root, true);
      ScopeMeans(start, was, nodes, pools, root, Subtree(Up(start), root));
      return Fine;
    }

    method Activate(root: EntityRef) returns (r: Outcome)
      requires Valid()
      modifies this`nodes, this`pools
      ensures Valid() && Up(nodes) == old(Up(nodes))
      ensures r == if root !in old(nodes) then Failed(NotAdopted)
                   else if !old(nodes[root].deactivated) then Failed(NotDeactivated) else Fine
      ensures r != Fine ==> nodes == old(nodes) && pools == old(pools)
      ensures r == Fine ==> Acyclic(old(Up(nodes))) && root in old(nodes)
                            && ShiftedRows(Flagged(old(nodes), root, false), old(pools), nodes, pools, Subtree(old(Up(nodes)), root), -1)
                            && WokenUp(old(nodes), old(pools), nodes, pools, Subtree(old(Up(nodes)), root))
      ensures SameIntents(old(nodes), old(pools), nodes, pools)
    {
      if root !in nodes {
        return Failed(NotAdopted);
      }
      if !nodes[root].deactivated {
        return Failed(NotDeactivated);
      }
      hide *;
      ghost var start, was := nodes, pools;
      SetScope(root, false);
      LiftMeans(start, was, nodes, pools, root, Subtree(Up(start), root));
      return Fine;
    }

    /** Writes the scope flag and moves the counts with it. */
    method SetScope(root: EntityRef, on: bool)
      requires Valid() && root in nodes && nodes[root].deactivated != on
      modifies this`nodes, this`pools
      ensures Valid() && Up(nodes) == old(Up(nodes)) && Acyclic(Up(nodes))
      ensures ShiftedRows(Flagged(old(nodes), root, on), old(pools), nodes, pools, Subtree(old(Up(nodes)), root), if on then 1 else -1)
      ensures SameIntents(old(nodes), old(pools), nodes, pools)
    {
      hide *;
      ValidParts();
      OrderParts(nodes, kids, orderDirty);
      ghost var start, was := nodes, pools;
      ScopeStart(start, was, firstRoot, lastRoot, kids, root, on);
      nodes := nodes[root := nodes[root].(deactivated := on)];
      ApplyDormancyDelta(root, if on then 1 else -1);
      ghost var now, is_ := nodes, pools;
      ScopeMoved(space, start, was, now, is_, firstRoot, lastRoot, kids, locals, worlds, anyDirty, orderDirty, root, on);
      ScopeOwned(alive, start, was, now, is_, base, adoptedCount, root, on, Subtree(Up(start), root));
      ValidFrom();
    }

    // ---- adoption --------------------------------------------------------------------------------

    method Adopt(e: EntityRef) returns (r: Outcome)
      requires Valid()
      modifies this`nodes, this`locals, this`worlds, this`pools, this`firstRoot, this`lastRoot, this`kids, this`adoptedCount, this`anyDirty, this`orderDirty
      ensures Valid()
      ensures r == if e in old(nodes) then Failed(AlreadyAdopted) else EmplaceOutcome(old(iterating), old(alive), old(pending), e)
      ensures r != Fine ==> nodes == old(nodes) && pools == old(pools) && kids == old(kids) && locals == old(locals) && worlds == old(worlds)
      ensures r == Fine ==> Grown(old(nodes), nodes, e) && kids == GrownKids(old(kids), e)
      ensures r == Fine ==> locals == old(locals)[e := space.fresh_] && SameIntents(old(nodes), old(pools), nodes, pools)
      ensures r == Fine ==> RowsAdded(old(pools), pools, base, e)
    {
      if e in nodes {
        return Failed(AlreadyAdopted);
      }
      r := AdoptNow(e);
    }

    /** Enters a live entity as the last root. */
    method AdoptNow(e: EntityRef) returns (r: Outcome)
      requires Valid() && e !in nodes
      modifies this`nodes, this`locals, this`worlds, this`pools, this`firstRoot, this`lastRoot, this`kids, this`adoptedCount, this`anyDirty, this`orderDirty
      ensures Valid() && r == EmplaceOutcome(old(iterating), old(alive), old(pending), e)
      ensures r != Fine ==> nodes == old(nodes) && pools == old(pools) && kids == old(kids) && locals == old(locals) && worlds == old(worlds)
      ensures r == Fine ==> Grown(old(nodes), nodes, e) && kids == GrownKids(old(kids), e)
      ensures r == Fine ==> locals == old(locals)[e := space.fresh_] && SameIntents(old(nodes), old(pools), nodes, pools)
      ensures r == Fine ==> RowsAdded(old(pools), pools, base, e)
    {
      hide *;
      r := EmplaceOutcome(iterating, alive, pending, e);
      if r != Fine {
        return;
      }
      ValidParts();
      EnterForest(e);
      ValidFrom();
    }

    /** The rows and links of a new last root. */
    method EnterForest(e: EntityRef)
      requires Tree(nodes, firstRoot, lastRoot, kids) && Owned(alive, nodes, pools, base, adoptedCount)
      requires DepthsOk(nodes) && ActivityOk(nodes, pools) && MarksOk(nodes, anyDirty) && WorldsOk(space, nodes, locals, worlds)
      requires e !in nodes && EmplaceOutcome(iterating, alive, pending, e) == Fine
      modifies this`nodes, this`locals, this`worlds, this`pools, this`firstRoot, this`lastRoot, this`kids, this`adoptedCount, this`anyDirty, this`orderDirty
      ensures Tree(nodes, firstRoot, lastRoot, kids) && Owned(alive, nodes, pools, base, adoptedCount) && OrderOk(nodes, kids, orderDirty)
      ensures DepthsOk(nodes) && ActivityOk(nodes, pools) && MarksOk(nodes, anyDirty) && WorldsOk(space, nodes, locals, worlds)
      ensures Grown(old(nodes), nodes, e) && NULL in old(kids) && kids == GrownKids(old(kids), e)
      ensures locals == old(locals)[e := space.fresh_] && SameIntents(old(nodes), old(pools), nodes, pools) && RowsAdded(old(pools), pools, base, e)
    {
      hide *;
      ghost var start, was, kids0, locals0, worlds0, any0, count0 := nodes, pools, kids, locals, worlds, anyDirty, adoptedCount;
      AdoptStart(iterating, alive, pending, start, was, firstRoot, lastRoot, kids0, base, count0, e);
      EmplaceRows(e);
      LinkLast(e, NULL);
      ghost var mid := nodes;
      SameDataKeys(start[e := FRESH], mid);
      FinishAdoption(e);
      AdoptKeeps(space, start, was, mid, nodes, alive, firstRoot, lastRoot, kids0, kids, locals0, worlds0, any0, base, count0, e);
    }

    /** The three rows of a new node, in the order their pools are registered. */
    method EmplaceRows(e: EntityRef)
      requires base + 3 <= |pools|
      modifies this`nodes, this`locals, this`worlds, this`pools, this`kids
      ensures nodes == old(nodes)[e := FRESH] && locals == old(locals)[e := space.fresh_] && worlds == old(worlds)[e := space.blank]
      ensures pools == Emplaced(Emplaced(Emplaced(old(pools), base, e), base + 1, e), base + 2, e) && kids == old(kids)[e := []]
      ensures RowsAdded(old(pools), pools, base, e)
    {
      AdoptedRows(pools, base, e);
      nodes := nodes[e := FRESH];
      pools := Emplaced(pools, base, e);
      locals := locals[e := space.fresh_];
      pools := Emplaced(pools, base + 1, e);
      worlds := worlds[e := space.blank];
      pools := Emplaced(pools, base + 2, e);
      kids := kids[e := []];
    }

    /** A new node starts dirty, and the cached order is out of date. */
    method FinishAdoption(e: EntityRef)
      requires e in nodes
      modifies this`nodes, this`anyDirty, this`adoptedCount, this`orderDirty
      ensures e in old(nodes) && nodes == old(nodes)[e := old(nodes[e]).(dirty := true)]
      ensures anyDirty && orderDirty && adoptedCount == old(adoptedCount) + 1
    {
      nodes := nodes[e := nodes[e].(dirty := true)];
      anyDirty := true;
      adoptedCount := adoptedCount + 1;
      orderDirty := true;
    }

    // ---- the reparent socket ------------------------------------------------------------------------

    /** Attaches child under newParent (a root for NULL), unless newParent is in child's own subtree. */
    method Move(child: EntityRef, newParent: EntityRef)
      requires Valid() && child in nodes && (newParent == NULL || newParent in nodes)
      modifies this`nodes, this`firstRoot, this`lastRoot, this`kids, this`pools, this`anyDirty, this`orderDirty, this`stats
      ensures Valid() && Acyclic(old(Up(nodes)))
      ensures newParent != NULL && Under(old(Up(nodes)), child, newParent)
              ==> nodes == old(nodes) && kids == old(kids) && pools == old(pools) && stats == old(stats.(cyclesRefused := stats.cyclesRefused + 1))
      ensures newParent == NULL || !Under(old(Up(nodes)), child, newParent)
              ==> Moved(old(nodes), old(kids), nodes, kids, child, newParent) && stats == old(stats.(applied := stats.applied + 1))
      ensures SameIntents(old(nodes), old(pools), nodes, pools)
    {
      hide *;
      ValidParts();
      OrderParts(nodes, kids, orderDirty);
      SameIntentsSelf(nodes, pools);
      if newParent != NULL {
        var cycle := SubtreeContains(child, newParent);
        if cycle {
          stats := stats.(cyclesRefused := stats.cyclesRefused + 1);
          ValidFrom();
          return;
        }
      }
      Relocate(child, newParent);
      stats := stats.(applied := stats.applied + 1);
      ValidFrom();
    }

    /** A move that closes no cycle: link surgery, then the counts and the dirty mark it owes. */
    method Relocate(child: EntityRef, newParent: EntityRef)
      requires Tree(nodes, firstRoot, lastRoot, kids) && OrderOk(nodes, kids, orderDirty) && Owned(alive, nodes, pools, base, adoptedCount)
      requires DepthsOk(nodes) && ActivityOk(nodes, pools) && MarksOk(nodes, anyDirty) && WorldsOk(space, nodes, locals, worlds)
      requires child in nodes && Acyclic(Up(nodes)) && (newParent == NULL || (newParent in nodes && !Under(Up(nodes), child, newParent)))
      modifies this`nodes, this`firstRoot, this`lastRoot, this`kids, this`pools, this`anyDirty, this`orderDirty
      ensures Tree(nodes, firstRoot, lastRoot, kids) && OrderOk(nodes, kids, orderDirty) && Owned(alive, nodes, pools, base, adoptedCount)
      ensures DepthsOk(nodes) && ActivityOk(nodes, pools) && MarksOk(nodes, anyDirty) && WorldsOk(space, nodes, locals, worlds)
      ensures Moved(old(nodes), old(kids), nodes, kids, child, newParent) && SameIntents(old(nodes), old(pools), nodes, pools)
    {
      hide *;
      ghost var start, was, kids0 := nodes, pools, kids;
      MoveStart(nodes, firstRoot, lastRoot, kids, child, newParent);
      var oldCover: int := Cover(nodes, nodes[child].parent);
      var newCover: int := Cover(nodes, newParent);
      Relink(child, newParent);
      ghost var linked := nodes;
      Settle(child, newCover - oldCover);
      orderDirty := true;
      MoveDone(start, was, kids0, linked, nodes, pools, kids, alive, base, adoptedCount, child, newParent);
    }

    method Relink(child: EntityRef, newParent: EntityRef)
      requires Tree(nodes, firstRoot, lastRoot, kids) && OrderOk(nodes, kids, orderDirty) && DepthsOk(nodes) && ActivityOk(nodes, pools)
      requires MarksOk(nodes, anyDirty) && WorldsOk(space, nodes, locals, worlds)
      requires child in nodes && Acyclic(Up(nodes)) && (newParent == NULL || (newParent in nodes && !Under(Up(nodes), child, newParent)))
      requires nodes[child].parent == NULL || nodes[child].parent in nodes
      modifies this`nodes, this`firstRoot, this`lastRoot, this`kids
      ensures Tree(nodes, firstRoot, lastRoot, kids) && nodes.Keys == old(nodes).Keys && Acyclic(Up(nodes))
      ensures Moved(old(nodes), old(kids), nodes, kids, child, newParent)
      ensures DepthsOkBut(nodes, child, old(Cover(nodes, newParent)) - old(Cover(nodes, nodes[child].parent))) && ActivityOk(nodes, pools)
      ensures MarksOkBut(nodes, anyDirty, {child}) && WorldsOkBut(space, nodes, locals, worlds, child)
      ensures SameIntents(old(nodes), pools, nodes, pools)
    {
      hide *;
      ghost var start, kids0 := nodes, kids;
      OrderParts(start, kids0, orderDirty);
      UpKeys(start);
      MoveStart(start, firstRoot, lastRoot, kids0, child, newParent);
      Unlink(child);
      ghost var cut := nodes;
      SameDataKeys(start, cut);
      LinkLast(child, newParent);
      MoveLinked(space, start, cut, nodes, pools, firstRoot, lastRoot, kids0, kids, locals, worlds, anyDirty, child, newParent);
    }

    /** Pays what a link surgery owes: delta on the subtree's counts, and child's dirty mark. */
    method Settle(child: EntityRef, delta: int)
      requires Tree(nodes, firstRoot, lastRoot, kids) && child in nodes && Acyclic(Up(nodes))
      requires DepthsOkBut(nodes, child, delta) && ActivityOk(nodes, pools)
      requires MarksOkBut(nodes, anyDirty, {child}) && WorldsOkBut(space, nodes, locals, worlds, child)
      modifies this`nodes, this`pools, this`anyDirty
      ensures Tree(nodes, firstRoot, lastRoot, kids) && Up(nodes) == old(Up(nodes)) && DepthsOk(nodes) && ActivityOk(nodes, pools)
      ensures MarksOk(nodes, anyDirty) && WorldsOk(space, nodes, locals, worlds)
      ensures SameIntents(old(nodes), old(pools), nodes, pools) && SameFlags(old(nodes), nodes) && nodes.Keys == old(nodes).Keys
      ensures |pools| == |old(pools)| && forall i | 0 <= i < |old(pools)| :: pools[i].Keys == old(pools)[i].Keys
    {
      hide *;
      ghost var linked, was := nodes, pools;
      SubtreeKnown(linked, child);
      ShiftByNone(linked, was, Subtree(Up(linked), child));
      if delta != 0 {
        RoomBelow(linked, child, delta);
        EvenSaved(linked, was);
        ApplyDormancyDelta(child, delta);
      }
      ghost var shifted := nodes;
      MoveShifted(space, linked, was, shifted, pools, firstRoot, lastRoot, kids, locals, worlds, anyDirty, child, delta);
      MarkDirty(child);
      MoveMarked(space, shifted, nodes, pools, firstRoot, lastRoot, kids, locals, worlds, child);
      SettleDone(linked, was, shifted, nodes, pools);
    }

    /** The reparent a flush applies: strangers become roots first. */
    method ApplyReparent(child: EntityRef, newParent: EntityRef) returns (ghost mid: Nodes, ghost midKids: Kids)
      requires Valid() && iterating == 0 && child in alive && (newParent == NULL || newParent in alive)
      modifies this`nodes, this`locals, this`worlds, this`pools, this`firstRoot, this`lastRoot, this`kids, this`adoptedCount
      modifies this`anyDirty, this`orderDirty, this`stats
      ensures Valid() && SameIntents(old(nodes), old(pools), nodes, pools)
      ensures Up(mid) == WithRoot(WithRoot(old(Up(nodes)), child), newParent) && midKids == WithRootKids(WithRootKids(old(kids), child), newParent)
      ensures Acyclic(Up(mid))
      ensures var strangers := (if child in old(nodes) then 0 else 1) + (if newParent == NULL || newParent == child || newParent in old(nodes) then 0 else 1);
              var refused := newParent != NULL && Under(Up(mid), child, newParent);
              && stats.autoAdopted == old(stats.autoAdopted) + strangers
              && stats.cyclesRefused == old(stats.cyclesRefused) + (if refused then 1 else 0)
              && stats.applied == old(stats.applied) + (if refused then 0 else 1)
              && (refused ==> nodes == mid && kids == midKids)
              && (refused ==> SameParents(old(nodes), nodes, {}))
              && (!refused ==> Moved(mid, midKids, nodes, kids, child, newParent) && Reparented(old(nodes), nodes, kids, child, newParent))
    {
      hide *;
      ghost var start, was := nodes, pools;
      AdoptStranger(child);
      ghost var nodes1, pools1 := nodes, pools;
      NullIsThere(Up(nodes), kids);
      ValidParts();
      TreeShape(nodes, firstRoot, lastRoot, kids);
      SameIntentsSelf(nodes, pools);
      if newParent != NULL {
        AdoptStranger(newParent);
        IntentsCompose(start, was, nodes1, pools1, nodes, pools);
      }
      mid, midKids := nodes, kids;
      ghost var midPools := pools;
      ValidParts();
      ParentsOf(start, mid, child, newParent);
      AliveIsNoNull(alive, mid, pools, base, adoptedCount, child);
      Move(child, newParent);
      if newParent == NULL || !Under(Up(mid), child, newParent) {
        ReparentMeans(start, mid, midKids, nodes, kids, child, newParent);
      }
      IntentsCompose(start, was, mid, midPools, nodes, pools);
    }

    lemma {:induction false} AliveIsNoNull(alive: set<EntityRef>, nodes: Nodes, pools: seq<Pool>, base: nat, count: nat, e: EntityRef)
      requires Owned(alive, nodes, pools, base, count) && e in alive
      ensures e != NULL
    {
    }

    method AdoptStranger(e: EntityRef)
      requires Valid() && iterating == 0 && e in alive
      modifies this`nodes, this`locals, this`worlds, this`pools, this`firstRoot, this`lastRoot, this`kids, this`adoptedCount
      modifies this`anyDirty, this`orderDirty, this`stats
      ensures Valid() && e in nodes && nodes.Keys == old(nodes).Keys + {e} && SameIntents(old(nodes), old(pools), nodes, pools)
      ensures Up(nodes) == WithRoot(old(Up(nodes)), e) && kids == WithRootKids(old(kids), e)
      ensures stats == old(stats).(autoAdopted := old(stats.autoAdopted) + if e in old(nodes) then 0 else 1)
    {
      hide *;
      ValidParts();
      StrangerIs(alive, pending, nodes, pools, firstRoot, lastRoot, kids, base, adoptedCount, e);
      if e !in nodes {
        ghost var start := nodes;
        var error := AdoptNow(e);
        GrownIs(start, nodes, e);
        ValidParts();
        stats := stats.(autoAdopted := stats.autoAdopted + 1);
        ValidFrom();
      }
    }

    // ---- despawn -------------------------------------------------------------------------------------

    ghost function Others(): Rest
      reads this`locals, this`worlds, this`pools, this`alive
    {
      Rest(locals, worlds, pools, alive)
    }

    /** Removes a live entity, and with a node its whole subtree and nothing else. */
    method Despawn(e: EntityRef) returns (r: Outcome)
      requires Valid()
      modifies this`nodes, this`locals, this`worlds, this`pools, this`alive, this`firstRoot, this`lastRoot, this`kids, this`adoptedCount, this`orderDirty
      ensures Valid() && r == EmplaceOutcome(iterating, old(alive), pending, e) && Acyclic(old(Up(nodes))) && KidsMatch(old(Up(nodes)), old(kids), {})
      ensures r != Fine ==> nodes == old(nodes) && Others() == old(Others()) && kids == old(kids)
      ensures r == Fine ==> Removed(old(nodes), old(kids), old(Others()), nodes, kids, Others(), e)
      ensures r == Fine && e in old(nodes)
              ==> Acyclic(Up(nodes)) && KidsMatch(Up(nodes), kids, {})
                  && AllPre(Up(nodes), kids) == Outside(AllPre(old(Up(nodes)), old(kids)), Subtree(old(Up(nodes)), e))
      ensures SameIntents(old(nodes), old(pools), nodes, pools)
    {
      hide *;
      ValidParts();
      OrderParts(nodes, kids, orderDirty);
      SameIntentsSelf(nodes, pools);
      r := EmplaceOutcome(iterating, alive, pending, e);
      if r != Fine {
        return;
      }
      ghost var start, kids0, rest := nodes, kids, Others();
      OthersAre();
      FineIsAlive(iterating, alive, pending, e);
      ghost var rank := RankingOf(Up(nodes));
      DespawnNow(e, rank);
      OthersAre();
      if e in start {
        RemovalKeeps(space, start, kids0, rest, nodes, kids, Others(), anyDirty, e);
      } else {
        RemovedIs(start, kids0, rest, nodes, kids, Others(), e);
        StrangerRemoved(space, start, rest, Others(), e);
      }
      RemovedAlive(start, kids0, rest, nodes, kids, Others(), e);
      HandlesLess(rest.alive, alive, pending);
      ValidFrom();
    }

    lemma {:induction false} OthersAre()
      ensures Others() == Rest(locals, worlds, pools, alive)
    {
    }

    /** The despawn of a live entity: the observer cascades and unlinks, then the rows drop. */
    method DespawnNow(e: EntityRef, ghost rank: Ranking)
      requires e in alive && Tree(nodes, firstRoot, lastRoot, kids) && Ranked(Up(nodes), rank) && Acyclic(Up(nodes))
      requires Owned(alive, nodes, pools, base, adoptedCount)
      modifies this`nodes, this`locals, this`worlds, this`pools, this`alive, this`firstRoot, this`lastRoot, this`kids, this`adoptedCount, this`orderDirty
      ensures Tree(nodes, firstRoot, lastRoot, kids) && Owned(alive, nodes, pools, base, adoptedCount)
      ensures Removed(old(nodes), old(kids), old(Others()), nodes, kids, Others(), e)
      ensures if e in old(nodes) then orderDirty else orderDirty == old(orderDirty)
      decreases Below(rank, e), 1
    {
      hide *;
      ghost var start, kids0, rest := nodes, kids, Others();
      var known := e in nodes;
      OthersAre();
      if !known {
        NotThere(start, kids0, firstRoot, lastRoot, e, alive, pools, base, adoptedCount);
      }
      OnDespawn(e, rank);
      ghost var loose, kids1, rest1 := nodes, kids, Others();
      OthersAre();
      EraseRows(e);
      alive := alive - {e};
      OthersAre();
      if known {
        NodeDespawned(start, kids0, rest, loose, firstRoot, lastRoot, kids1, rest1, base, adoptedCount, e);
      } else {
        StrangerDespawned(start, kids0, rest, base, adoptedCount, e);
      }
    }

    /** Drops e's rows, pool by pool. */
    method EraseRows(e: EntityRef)
      modifies this`nodes, this`locals, this`worlds, this`pools, this`kids
      ensures nodes == old(nodes) - {e} && locals == old(locals) - {e} && worlds == old(worlds) - {e} && pools == Erased(old(pools), e)
      ensures kids == old(kids) - {e}
    {
      nodes, locals, worlds, kids := nodes - {e}, locals - {e}, worlds - {e}, kids - {e};
      var i := 0;
      while i < |pools|
        invariant i <= |pools| == |old(pools)|
        invariant nodes == old(nodes) - {e} && locals == old(locals) - {e} && worlds == old(worlds) - {e} && kids == old(kids) - {e}
        invariant forall j | 0 <= j < |pools| :: pools[j] == if j < i then old(pools)[j] - {e} else old(pools)[j]
      {
        pools := pools[i := pools[i] - {e}];
        i := i + 1;
      }
    }

    /** The despawn observer: the children die first, each unlinking itself; then e leaves its list. */
    method OnDespawn(e: EntityRef, ghost rank: Ranking)
      requires Tree(nodes, firstRoot, lastRoot, kids) && Ranked(Up(nodes), rank) && Acyclic(Up(nodes))
      requires Owned(alive, nodes, pools, base, adoptedCount)
      modifies this`nodes, this`locals, this`worlds, this`pools, this`alive, this`firstRoot, this`lastRoot, this`kids, this`adoptedCount, this`orderDirty
      ensures e !in old(nodes) ==> nodes == old(nodes) && kids == old(kids) && Others() == old(Others()) && firstRoot == old(firstRoot)
                                   && lastRoot == old(lastRoot) && adoptedCount == old(adoptedCount) && orderDirty == old(orderDirty)
      ensures e in old(nodes) ==> && Linked(nodes, firstRoot, lastRoot, kids, {e}) && e in nodes && e in kids && kids[e] == [] && orderDirty
                                  && PrunedTree(old(nodes), old(kids), nodes - {e}, kids - {e}, Subtree(old(Up(nodes)), e))
                                  && PrunedRest(old(Others()), Others(), Subtree(old(Up(nodes)), e) - {e}) && e in Subtree(old(Up(nodes)), e)
                                  && Acyclic(Up(nodes - {e})) && Owned(alive, nodes, pools, base, adoptedCount + 1)
      decreases Below(rank, e), 0
    {
      hide *;
      if e !in nodes {
        return;
      }
      ghost var start, kids0, rest, gone := nodes, kids, Others(), {};
      CascadeBegins(start, firstRoot, lastRoot, kids0, rest, rank, e);
      while true
        invariant InCascade(start, kids0, rest, nodes, kids, Others(), rank, e, gone)
        invariant Tree(nodes, firstRoot, lastRoot, kids) && Owned(alive, nodes, pools, base, adoptedCount)
        decreases |nodes|
      {
        FirstChildOf(start, kids0, rest, nodes, firstRoot, lastRoot, kids, Others(), rank, e, gone);
        var child := nodes[e].firstChild;
        if child == NULL {
          break;
        }
        InCascadeParts(start, kids0, rest, nodes, kids, Others(), rank, e, gone);
        OwnedParts(alive, nodes, pools, base, adoptedCount);
        ghost var nodes1, kids1, rest1 := nodes, kids, Others();
        DespawnNow(child, rank);
        CascadeOn(start, kids0, rest, nodes1, kids1, rest1, nodes, kids, Others(), rank, e, gone, child);
        gone := gone + Subtree(Up(nodes1), child);
      }
      ghost var nodes2, kids2 := nodes, kids;
      FirstChildOf(start, kids0, rest, nodes, firstRoot, lastRoot, kids, Others(), rank, e, gone);
      TreeLinked(nodes, firstRoot, lastRoot, kids);
      OwnedParts(alive, nodes, pools, base, adoptedCount);
      HasNode(nodes, e);
      OthersAre();
      ghost var others := Others();
      Unlink(e);
      OthersAre();
      assert Others() == others;
      SameDataKeys(nodes2, nodes);
      CascadeDone(start, kids0, rest, nodes2, kids2, Others(), nodes, rank, e, gone);
      CutEmpty(kids2, e);
      OwnedSame(alive, nodes2, pools, nodes, pools, base, adoptedCount);
      adoptedCount := adoptedCount - 1;
      orderDirty := true;
    }

    // ---- other writers of the world ------------------------------------------------------------------

    /** World::set_active: a captured row keeps the bit it will wake up with. */
    method SetActive(i: nat, e: EntityRef, active: bool) returns (r: Outcome)
      requires Valid() && i < |pools|
      modifies this`pools
      ensures Valid() && r == if EmplaceOutcome(0, alive, pending, e) != Fine then EmplaceOutcome(0, alive, pending, e)
                              else if e !in old(pools[i]) then Failed(MissingComponent) else Fine
      ensures r != Fine ==> unchanged(this)
      ensures r == Fine ==> pools == old(pools)[i := old(pools[i])[e := active]] && OthersKept(old(pools), pools, e)
      ensures e in nodes && (r == Fine ==> SavedBit(nodes[e].saved, i, 0)) ==> Intent(nodes, pools, e) == Intent(nodes, old(pools), e)
      ensures e in nodes && r == Fine && !SavedBit(nodes[e].saved, i, 0)
              ==> Intent(nodes, pools, e) == Intent(nodes, old(pools), e)[i := RowOf(active)]
    {
      hide *;
      ValidParts();
      r := EmplaceOutcome(0, alive, pending, e);
      if r != Fine {
        return;
      }
      if e !in pools[i] {
        return Failed(MissingComponent);
      }
      RowWritten(nodes, pools, alive, base, adoptedCount, i, e, active);
      pools := pools[i := pools[i][e := active]];
      ValidFrom();
    }

    /** World::emplace: the row keeps the bit it is given.  A row from outside in one of the tree's own
        three pools belongs to no node: that, and only that, breaks the invariant. */
    method EmplaceRow(i: nat, e: EntityRef, active: bool) returns (r: Outcome)
      requires Valid() && i < |pools|
      modifies this`pools
      ensures r == if EmplaceOutcome(iterating, alive, pending, e) != Fine then EmplaceOutcome(iterating, alive, pending, e)
                   else if e in old(pools[i]) then Failed(DuplicateComponent) else Fine
      ensures Valid() <==> r != Fine || i < base || base + 3 <= i
      ensures r != Fine ==> unchanged(this)
      ensures r == Fine ==> pools == old(pools)[i := old(pools[i])[e := active]]
      ensures Valid() ==> SameIntentsBut(nodes, old(pools), nodes, pools, e)
      ensures Valid() && r == Fine && e in nodes ==> Intent(nodes, pools, e) == Intent(nodes, old(pools), e)[i := RowOf(active)]
    {
      hide *;
      ValidParts();
      SameIntentsButSelf(nodes, pools, e);
      r := EmplaceOutcome(iterating, alive, pending, e);
      if r != Fine {
        return;
      }
      FineIsAlive(iterating, alive, pending, e);
      if e in pools[i] {
        return Failed(DuplicateComponent);
      }
      if base <= i < base + 3 {
        StrayRow(nodes, pools, alive, base, adoptedCount, i, e, active);
        pools := pools[i := pools[i][e := active]];
        OnlyIfOwned();
        return;
      }
      RowAdded(nodes, pools, alive, base, adoptedCount, i, e, active);
      pools := pools[i := pools[i][e := active]];
      ValidFrom();
    }

    lemma {:induction false} OnlyIfOwned()
      ensures Valid() ==> Owned(alive, nodes, pools, base, adoptedCount)
    {
    }

    /** World::spawn under a handle that is not in use. */
    method Spawn(e: EntityRef) returns (r: Outcome)
      requires Valid() && e != NULL && e !in alive && e !in pending
      modifies this`alive
      ensures Valid() && r == (if iterating != 0 then Failed(Locked) else Fine)
      ensures alive == if r == Fine then old(alive) + {e} else old(alive)
    {
      hide *;
      ValidParts();
      if iterating != 0 {
        return Failed(Locked);
      }
      HandlesMove(alive, pending, e);
      OwnedMore(alive, nodes, pools, base, adoptedCount, e);
      alive := alive + {e};
      ValidFrom();
      r := Fine;
    }

    /** World::queue_spawn: the handle is pending until the flush. */
    method QueueSpawn(e: EntityRef)
      requires Valid() && e != NULL && e !in alive && e !in pending
      modifies this`pending
      ensures Valid() && pending == old(pending) + {e}
    {
      hide *;
      ValidParts();
      HandlesMove(alive, pending, e);
      pending := pending + {e};
      ValidFrom();
    }

    /** The flush of a queued spawn. */
    method MakeAlive(e: EntityRef)
      requires Valid() && e in pending
      modifies this`alive, this`pending
      ensures Valid() && alive == old(alive) + {e} && pending == old(pending) - {e}
    {
      hide *;
      ValidParts();
      HandlesMove(alive, pending, e);
      OwnedMore(alive, nodes, pools, base, adoptedCount, e);
      alive, pending := alive + {e}, pending - {e};
      ValidFrom();
    }

    /** A view begins, and ends. */
    method BeginIteration()
      requires Valid()
      modifies this`iterating
      ensures Valid() && iterating == old(iterating) + 1
    {
      hide *;
      ValidParts();
      iterating := iterating + 1;
      ValidFrom();
    }

    method EndIteration()
      requires Valid() && iterating > 0
      modifies this`iterating
      ensures Valid() && iterating == old(iterating) - 1
    {
      hide *;
      ValidParts();
      iterating := iterating - 1;
      ValidFrom();
    }

    /** A component type registered later. */
    method RegisterPool()
      requires Valid()
      modifies this`pools
      ensures Valid() && pools == old(pools) + [map[]]
      ensures forall n | n in nodes :: Intent(nodes, pools, n) == Intent(nodes, old(pools), n) + [Absent]
    {
      hide *;
      ValidParts();
      PoolAdded(nodes, pools, alive, base, adoptedCount);
      pools := pools + [map[]];
      ValidFrom();
    }
  }
}
