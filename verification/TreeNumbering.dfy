/** Numbering the nodes in preorder, and the total order the numbers give. */
module TreeNumbering {
  import opened Basics
  import opened Forest
  import opened ForestOrder
  import opened TreeLinks
  import opened TreeState

  datatype Position = At(index: nat) | Nowhere

  /** What stays put while the forest is numbered. */
  datatype Numbering = Numbering(start: Nodes, firstRoot: EntityRef, lastRoot: EntityRef, kids: Kids)

  ghost predicate Numberable(t: Numbering) {
    Tree(t.start, t.firstRoot, t.lastRoot, t.kids) && Acyclic(Up(t.start)) && KidsMatch(Up(t.start), t.kids, {})
    && Up(t.start).Keys == t.start.Keys && t.kids.Keys == t.start.Keys + {NULL}
  }

  ghost predicate SameButOrder(nodes: Nodes, nodes': Nodes) {
    nodes'.Keys == nodes.Keys && forall n | n in nodes :: nodes'[n] == nodes[n].(order := nodes'[n].order)
  }

  ghost predicate Ahead(t: Numbering, stack: seq<EntityRef>) {
    Numberable(t) && forall n | n in stack :: n in t.start
  }

  ghost function FlatOf(t: Numbering, stack: seq<EntityRef>): seq<EntityRef>
    requires Ahead(t, stack)
  {
    Flat(Up(t.start), t.kids, stack)
  }

  /** `done` is numbered; the stack's subtrees and `after` are still to come, none of them twice. */
  ghost predicate NumberingAt(t: Numbering, nodes: Nodes, done: seq<EntityRef>, stack: seq<EntityRef>, after: seq<EntityRef>) {
    && Ahead(t, stack) && SameButOrder(t.start, nodes) && Ordered(nodes, done)
    && Distinct(done + FlatOf(t, stack) + after)
  }

  lemma {:induction false} NumberableParts(t: Numbering)
    requires Numberable(t)
    ensures Tree(t.start, t.firstRoot, t.lastRoot, t.kids) && Acyclic(Up(t.start)) && KidsMatch(Up(t.start), t.kids, {})
    ensures Up(t.start).Keys == t.start.Keys && t.kids.Keys == t.start.Keys + {NULL}
  {
  }

  lemma {:induction false} AheadParts(t: Numbering, stack: seq<EntityRef>)
    requires Ahead(t, stack)
    ensures Numberable(t) && (forall n | n in stack :: n in t.start)
    ensures Acyclic(Up(t.start)) && KidsMatch(Up(t.start), t.kids, {}) && Up(t.start).Keys == t.start.Keys
    ensures FlatOf(t, stack) == Flat(Up(t.start), t.kids, stack)
  {
  }

  lemma {:induction false} AheadPack(t: Numbering, stack: seq<EntityRef>)
    requires Numberable(t) && forall n | n in stack :: n in t.start
    ensures Ahead(t, stack)
  {
  }

  lemma {:induction false} NumberingParts(t: Numbering, nodes: Nodes, done: seq<EntityRef>, stack: seq<EntityRef>, after: seq<EntityRef>)
    requires NumberingAt(t, nodes, done, stack, after)
    ensures Ahead(t, stack) && SameButOrder(t.start, nodes) && Ordered(nodes, done) && Distinct(done + FlatOf(t, stack) + after)
  {
  }

  lemma {:induction false} NumberingFrom(t: Numbering, nodes: Nodes, done: seq<EntityRef>, stack: seq<EntityRef>, after: seq<EntityRef>)
    requires Ahead(t, stack) && SameButOrder(t.start, nodes) && Ordered(nodes, done) && Distinct(done + FlatOf(t, stack) + after)
    ensures NumberingAt(t, nodes, done, stack, after)
  {
  }

  lemma {:induction false} FlatOne(t: Numbering, root: EntityRef)
    requires Ahead(t, [root])
    ensures root in t.start && Acyclic(Up(t.start)) && KidsMatch(Up(t.start), t.kids, {}) && Up(t.start).Keys == t.start.Keys
    ensures FlatOf(t, [root]) == Pre(Up(t.start), t.kids, root)
  {
    hide *;
    AheadParts(t, [root]);
    assert [root][0] in [root];
    FlatSingle(Up(t.start), t.kids, root);
  }

  lemma {:induction false} FlatSingle(up: Parents, kids: Kids, n: EntityRef)
    requires Acyclic(up) && KidsMatch(up, kids, {}) && n in up
    ensures Flat(up, kids, [n]) == Pre(up, kids, n)
  {
    hide KidsMatch, Acyclic;
    assert Flat(up, kids, [n][1..]) == [];
  }

  lemma {:induction false} FlatNone(t: Numbering)
    requires Ahead(t, [])
    ensures FlatOf(t, []) == []
  {
  }

  /** Visiting the node on top gives it the next number. */
  lemma {:induction false} NumberStep(t: Numbering, nodes: Nodes, done: seq<EntityRef>, stack: seq<EntityRef>, after: seq<EntityRef>)
    requires NumberingAt(t, nodes, done, stack, after) && stack != []
    ensures var n, rest := stack[0], stack[1..];
            && n in nodes && n in t.kids && Ahead(t, stack) && Ahead(t, t.kids[n] + rest)
            && FlatOf(t, stack) == [n] + FlatOf(t, t.kids[n] + rest)
            && NumberingAt(t, nodes[n := nodes[n].(order := |done|)], done + [n], t.kids[n] + rest, after)
  {
    hide *;
    var n, rest := stack[0], stack[1..];
    assert stack == [n] + rest && n in stack;
    NumberingParts(t, nodes, done, stack, after);
    AheadParts(t, stack);
    FlatStep(Up(t.start), t.kids, stack);
    AheadPack(t, t.kids[n] + rest);
    AheadParts(t, t.kids[n] + rest);
    var f := FlatOf(t, t.kids[n] + rest);
    assert done + ([n] + f) + after == done + [n] + f + after;
    assert done + [n] + f + after == done + [n] + (f + after);
    NotYet(done, n, f + after);
    SameOrderKeys(t.start, nodes);
    NumberOne(t.start, nodes, done, n);
    NumberingFrom(t, nodes[n := nodes[n].(order := |done|)], done + [n], t.kids[n] + rest, after);
  }

  lemma {:induction false} NotYet(done: seq<EntityRef>, n: EntityRef, rest: seq<EntityRef>)
    requires Distinct(done + [n] + rest)
    ensures n !in done
  {
    var s := done + [n] + rest;
    assert s[|done|] == n;
    forall i | 0 <= i < |done| ensures done[i] != n {
      assert s[i] == done[i];
    }
  }

  lemma {:induction false} NumberOne(start: Nodes, nodes: Nodes, done: seq<EntityRef>, n: EntityRef)
    requires SameButOrder(start, nodes) && Ordered(nodes, done) && n in nodes && n !in done
    ensures var nodes' := nodes[n := nodes[n].(order := |done|)];
            SameButOrder(start, nodes') && Ordered(nodes', done + [n])
  {
    var nodes', done' := nodes[n := nodes[n].(order := |done|)], done + [n];
    forall i | 0 <= i < |done'| ensures done'[i] in nodes' && nodes'[done'[i]].order == i {
      assert i < |done| ==> done'[i] == done[i] && done[i] in done;
    }
  }

  lemma {:induction false} SameOrderKeys(nodes: Nodes, nodes': Nodes)
    requires SameButOrder(nodes, nodes')
    ensures nodes'.Keys == nodes.Keys
  {
  }

  lemma {:induction false} SameOrder(nodes: Nodes)
    ensures SameButOrder(nodes, nodes)
  {
  }

  lemma {:induction false} OrderLinks(nodes: Nodes, nodes': Nodes)
    requires SameButOrder(nodes, nodes')
    ensures SameLinks(nodes, nodes')
  {
  }

  /** Numbering touches no link. */
  lemma {:induction false} NumberTree(t: Numbering, nodes: Nodes, done: seq<EntityRef>, stack: seq<EntityRef>, after: seq<EntityRef>)
    requires NumberingAt(t, nodes, done, stack, after)
    ensures Tree(nodes, t.firstRoot, t.lastRoot, t.kids) && Up(nodes) == Up(t.start) && SameButOrder(t.start, nodes)
    ensures nodes.Keys == t.start.Keys && t.kids.Keys == nodes.Keys + {NULL}
  {
    hide *;
    NumberingParts(t, nodes, done, stack, after);
    AheadParts(t, stack);
    NumberableParts(t);
    OrderLinks(t.start, nodes);
    SameOrderKeys(t.start, nodes);
    SameLinksTree(t.start, nodes, t.firstRoot, t.lastRoot, t.kids);
  }

  // ---- the loop over the roots ---------------------------------------------------------------------

  /** The first i roots' subtrees are numbered. */
  ghost predicate RootsFrom(t: Numbering, nodes: Nodes, done: seq<EntityRef>, i: nat) {
    && Numberable(t) && NULL in t.kids && i <= |t.kids[NULL]|
    && done + PreKids(Up(t.start), t.kids, NULL, i) == AllPre(Up(t.start), t.kids)
    && NumberingAt(t, nodes, done, [], PreKids(Up(t.start), t.kids, NULL, i))
  }

  lemma {:induction false} RootsParts(t: Numbering, nodes: Nodes, done: seq<EntityRef>, i: nat)
    requires RootsFrom(t, nodes, done, i)
    ensures Numberable(t) && NULL in t.kids && i <= |t.kids[NULL]| && Acyclic(Up(t.start)) && KidsMatch(Up(t.start), t.kids, {})
    ensures done + PreKids(Up(t.start), t.kids, NULL, i) == AllPre(Up(t.start), t.kids)
    ensures NumberingAt(t, nodes, done, [], PreKids(Up(t.start), t.kids, NULL, i))
  {
  }

  lemma {:induction false} NumberStart(t: Numbering)
    requires Tree(t.start, t.firstRoot, t.lastRoot, t.kids)
    ensures RootsFrom(t, t.start, [], 0)
  {
    hide *;
    NumberableStart(t);
    NumberableParts(t);
    PreKidsDistinct(Up(t.start), t.kids, NULL, 0);
    AheadPack(t, []);
    FlatNone(t);
    SameOrder(t.start);
    var all := PreKids(Up(t.start), t.kids, NULL, 0);
    assert [] + [] + all == all;
    NothingOrdered(t.start);
    NumberingFrom(t, t.start, [], [], all);
    RootsFromStart(t);
  }

  lemma {:induction false} NothingOrdered(nodes: Nodes)
    ensures Ordered(nodes, [])
  {
  }

  lemma {:induction false} NumberableStart(t: Numbering)
    requires Tree(t.start, t.firstRoot, t.lastRoot, t.kids)
    ensures Numberable(t)
  {
    TreeShape(t.start, t.firstRoot, t.lastRoot, t.kids);
  }

  lemma {:induction false} RootsFromStart(t: Numbering)
    requires Numberable(t) && NULL in t.kids && Acyclic(Up(t.start)) && KidsMatch(Up(t.start), t.kids, {})
    requires NumberingAt(t, t.start, [], [], PreKids(Up(t.start), t.kids, NULL, 0))
    ensures RootsFrom(t, t.start, [], 0)
  {
    hide NumberingAt, PreKids, Acyclic, KidsMatch, Up;
    assert [] + PreKids(Up(t.start), t.kids, NULL, 0) == AllPre(Up(t.start), t.kids);
  }

  lemma {:induction false} FirstRootIs(t: Numbering, nodes: Nodes, done: seq<EntityRef>, i: nat)
    requires RootsFrom(t, nodes, done, i)
    ensures NULL in t.kids && t.firstRoot == (if t.kids[NULL] == [] then NULL else t.kids[NULL][0])
  {
    RootsParts(t, nodes, done, i);
    hide RootsFrom, Acyclic, KidsMatch, Up, NumberingAt, PreKids, Tree;
    NumberableParts(t);
    ListEnds(t.start, t.firstRoot, t.lastRoot, t.kids, NULL);
  }

  lemma {:induction false} RootStep(t: Numbering, nodes: Nodes, done: seq<EntityRef>, i: nat)
    requires RootsFrom(t, nodes, done, i) && i < |t.kids[NULL]|
    ensures Acyclic(Up(t.start)) && KidsMatch(Up(t.start), t.kids, {}) && t.kids[NULL][i] in Up(t.start) && t.kids[NULL][i] != NULL
    ensures Numberable(t) && done + PreKids(Up(t.start), t.kids, NULL, i) == AllPre(Up(t.start), t.kids)
    ensures NumberingAt(t, nodes, done, [t.kids[NULL][i]], PreKids(Up(t.start), t.kids, NULL, i + 1))
  {
    hide *;
    RootsParts(t, nodes, done, i);
    var root, after := t.kids[NULL][i], PreKids(Up(t.start), t.kids, NULL, i + 1);
    NumberingParts(t, nodes, done, [], PreKids(Up(t.start), t.kids, NULL, i));
    NumberableParts(t);
    ChildAt(Up(t.start), t.kids, {}, NULL, i);
    AheadPack(t, [root]);
    FlatOne(t, root);
    FlatNone(t);
    PreKidsStep(Up(t.start), t.kids, NULL, i);
    var pre := Pre(Up(t.start), t.kids, root);
    assert done + pre + after == done + [] + (pre + after);
    NumberingFrom(t, nodes, done, [root], after);
  }

  lemma {:induction false} PreKidsStep(up: Parents, kids: Kids, p: EntityRef, i: nat)
    requires Acyclic(up) && KidsMatch(up, kids, {}) && p in kids && i < |kids[p]| && kids[p][i] in up
    ensures PreKids(up, kids, p, i) == Pre(up, kids, kids[p][i]) + PreKids(up, kids, p, i + 1)
  {
  }

  lemma {:induction false} RootNext(t: Numbering, nodes: Nodes, done: seq<EntityRef>, i: nat)
    requires Numberable(t) && NULL in t.kids && i < |t.kids[NULL]| && Acyclic(Up(t.start)) && KidsMatch(Up(t.start), t.kids, {})
    requires t.kids[NULL][i] in Up(t.start)
    requires done + PreKids(Up(t.start), t.kids, NULL, i) == AllPre(Up(t.start), t.kids)
    requires NumberingAt(t, nodes, done + Pre(Up(t.start), t.kids, t.kids[NULL][i]), [], PreKids(Up(t.start), t.kids, NULL, i + 1))
    ensures RootsFrom(t, nodes, done + Pre(Up(t.start), t.kids, t.kids[NULL][i]), i + 1)
    ensures var root := t.kids[NULL][i];
            root in nodes && nodes[root].nextSibling == (if i + 1 == |t.kids[NULL]| then NULL else t.kids[NULL][i + 1])
  {
    hide Numberable, Acyclic, KidsMatch, Up, NumberingAt, Tree, Pre, PreKids, AllPre;
    var root := t.kids[NULL][i];
    var pre, after := Pre(Up(t.start), t.kids, root), PreKids(Up(t.start), t.kids, NULL, i + 1);
    PreKidsStep(Up(t.start), t.kids, NULL, i);
    Regroup(done, pre, after);
    NumberTree(t, nodes, done + pre, [], after);
    ListLinks(nodes, t.firstRoot, t.lastRoot, t.kids, NULL, i);
  }

  lemma {:induction false} RootsDone(t: Numbering, nodes: Nodes, done: seq<EntityRef>, i: nat)
    requires RootsFrom(t, nodes, done, i) && i == |t.kids[NULL]|
    ensures Tree(nodes, t.firstRoot, t.lastRoot, t.kids) && Up(nodes) == Up(t.start) && SameButOrder(t.start, nodes)
    ensures Acyclic(Up(nodes)) && KidsMatch(Up(nodes), t.kids, {}) && Ordered(nodes, AllPre(Up(nodes), t.kids))
  {
    hide *;
    RootsParts(t, nodes, done, i);
    NoMoreKids(Up(t.start), t.kids);
    assert done + [] == done;
    NumberTree(t, nodes, done, [], []);
    NumberingParts(t, nodes, done, [], []);
  }

  lemma {:induction false} NoMoreKids(up: Parents, kids: Kids)
    requires Acyclic(up) && KidsMatch(up, kids, {}) && NULL in kids
    ensures PreKids(up, kids, NULL, |kids[NULL]|) == []
  {
  }

  // ---- the order -----------------------------------------------------------------------------------

  function IndexIn(list: seq<EntityRef>, e: EntityRef): (i: nat)
    requires e in list
    ensures i < |list| && list[i] == e
  {
    if list[0] == e then 0 else 1 + IndexIn(list[1..], e)
  }

  /** Listed entities by position, before the others; those by slot, then generation. */
  function TreeCompare(list: seq<EntityRef>, a: EntityRef, b: EntityRef): int {
    if a == b then 0
    else if a in list && b in list then if IndexIn(list, a) < IndexIn(list, b) then -1 else 1
    else if (a in list) != (b in list) then if a in list then -1 else 1
    else if a.index != b.index then if a.index < b.index then -1 else 1
    else if a.generation < b.generation then -1 else 1
  }

  /** The comparison is a strict total order. */
  lemma {:induction false} CompareIsTotal(list: seq<EntityRef>, a: EntityRef, b: EntityRef, c: EntityRef)
    ensures TreeCompare(list, a, b) == -TreeCompare(list, b, a)
    ensures TreeCompare(list, a, b) == 0 <==> a == b
    ensures TreeCompare(list, a, b) < 0 && TreeCompare(list, b, c) < 0 ==> TreeCompare(list, a, c) < 0
  {
    if a in list && b in list && a != b {
      assert list[IndexIn(list, a)] != list[IndexIn(list, b)];
    }
  }

  /** A parent comes before everything below it. */
  lemma {:induction false} ParentComesFirst(up: Parents, kids: Kids, a: EntityRef, b: EntityRef)
    requires Acyclic(up) && KidsMatch(up, kids, {}) && a in up && Under(up, a, b) && a != b
    ensures TreeCompare(AllPre(up, kids), a, b) < 0
  {
    hide KidsMatch, Acyclic, Under;
    var list := AllPre(up, kids);
    AllPreIsAll(up, kids);
    RootsKey(up, kids);
    UnderKnown(up, a, b);
    PreKidsDistinct(up, kids, NULL, 0);
    var before, after := Around(up, kids, NULL, 0, a);
    UnderPre(up, kids, a, b);
    PreHead(up, kids, a);
    var pre := Pre(up, kids, a);
    var j :| 0 <= j < |pre| && pre[j] == b;
    assert list[|before|] == a && list[|before| + j] == b;
  }

  lemma {:induction false} PreHead(up: Parents, kids: Kids, n: EntityRef)
    requires Acyclic(up) && KidsMatch(up, kids, {}) && n in up
    ensures |Pre(up, kids, n)| > 0 && Pre(up, kids, n)[0] == n
  {
  }

  lemma {:induction false} RootsKey(up: Parents, kids: Kids)
    requires KidsMatch(up, kids, {})
    ensures NULL in kids
  {
  }

  lemma {:induction false} UnderKnown(up: Parents, a: EntityRef, b: EntityRef)
    requires Acyclic(up) && Under(up, a, b)
    ensures b in up
  {
  }

  /** A listed node's subtree is one contiguous stretch of the preorder. */
  lemma {:induction false} Around(up: Parents, kids: Kids, p: EntityRef, i: nat, n: EntityRef) returns (before: seq<EntityRef>, after: seq<EntityRef>)
    requires Acyclic(up) && KidsMatch(up, kids, {}) && p in kids && i <= |kids[p]| && n in PreKids(up, kids, p, i)
    ensures n in up && PreKids(up, kids, p, i) == before + Pre(up, kids, n) + after
    decreases Height(up, p), |kids[p]| - i
  {
    var c := kids[p][i];
    var rest := PreKids(up, kids, p, i + 1);
    ChildAt(up, kids, {}, p, i);
    if n == c {
      before, after := [], rest;
      assert [] + Pre(up, kids, n) + after == Pre(up, kids, n) + rest;
    } else if n in Pre(up, kids, c) {
      var b, a := Around(up, kids, c, 0, n);
      before, after := [c] + b, a + rest;
      Between([c], b, Pre(up, kids, n), a, rest);
    } else {
      var b, a := Around(up, kids, p, i + 1, n);
      before, after := Pre(up, kids, c) + b, a;
      Between(Pre(up, kids, c), b, Pre(up, kids, n), a, []);
      assert a + [] == a;
      assert Pre(up, kids, c) + (b + Pre(up, kids, n) + a) + [] == Pre(up, kids, c) + (b + Pre(up, kids, n) + a);
    }
  }

  lemma {:induction false} Between(x: seq<EntityRef>, b: seq<EntityRef>, m: seq<EntityRef>, a: seq<EntityRef>, y: seq<EntityRef>)
    ensures x + (b + m + a) + y == (x + b) + m + (a + y)
  {
  }

  lemma {:induction false} OrderedAt(nodes: Nodes, kids: Kids, e: EntityRef)
    requires Acyclic(Up(nodes)) && KidsMatch(Up(nodes), kids, {}) && Ordered(nodes, AllPre(Up(nodes), kids)) && e in nodes
    ensures nodes[e].order < |AllPre(Up(nodes), kids)| && AllPre(Up(nodes), kids)[nodes[e].order] == e
  {
    AllPreIsAll(Up(nodes), kids);
    var list := AllPre(Up(nodes), kids);
    assert e in Up(nodes);
    assert e in list;
    var i :| 0 <= i < |list| && list[i] == e;
  }

  lemma {:induction false} CompareSelf(list: seq<EntityRef>, a: EntityRef)
    ensures TreeCompare(list, a, a) == 0
  {
  }

  lemma {:induction false} CompareAdopted(nodes: Nodes, kids: Kids, a: EntityRef, b: EntityRef)
    requires Acyclic(Up(nodes)) && KidsMatch(Up(nodes), kids, {}) && Ordered(nodes, AllPre(Up(nodes), kids))
    requires a in nodes && b in nodes && a != b
    ensures TreeCompare(AllPre(Up(nodes), kids), a, b) == if nodes[a].order < nodes[b].order then -1 else 1
  {
    OrderedAt(nodes, kids, a);
    OrderedAt(nodes, kids, b);
    hide Acyclic, KidsMatch, AllPre, Up;
    var list := AllPre(Up(nodes), kids);
    assert nodes[list[IndexIn(list, a)]].order == IndexIn(list, a);
    assert nodes[list[IndexIn(list, b)]].order == IndexIn(list, b);
  }

  lemma {:induction false} CompareOthers(nodes: Nodes, kids: Kids, a: EntityRef, b: EntityRef)
    requires Acyclic(Up(nodes)) && KidsMatch(Up(nodes), kids, {}) && a != b && !(a in nodes && b in nodes)
    ensures TreeCompare(AllPre(Up(nodes), kids), a, b) ==
            if (a in nodes) != (b in nodes) then if a in nodes then -1 else 1
            else if a.index != b.index then if a.index < b.index then -1 else 1
            else if a.generation < b.generation then -1 else 1
  {
    AllPreIsAll(Up(nodes), kids);
  }
}
