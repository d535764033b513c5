/** What the tree's bookkeeping means, said of parents, flags, active bits and list positions themselves. */
module TreeMeaning {
  import opened Basics
  import opened Forest
  import opened ForestOrder
  import opened TreeLinks
  import opened TreeState
  import opened TreeNumbering
  import opened TreeDormancy
  import opened TreeValid
  import opened BitWords
  import opened Activity

  // ---- paths and places -------------------------------------------------------------------------------

  /** A path starts at its node, goes from each to its parent, and ends at a root. */
  lemma {:induction false} PathSteps(up: Parents, n: EntityRef)
    requires Acyclic(up) && n in up
    ensures var path := Path(up, n);
            && |path| > 0 && path[0] == n && (forall i | 0 <= i < |path| :: path[i] in up)
            && (forall i | 0 <= i < |path| - 1 :: path[i + 1] == up[path[i]]) && up[path[|path| - 1]] == NULL
    decreases Rank(up, n)
  {
    if up[n] != NULL {
      PathSteps(up, up[n]);
    }
  }

  /** Of two siblings the earlier one's subtree comes first, as a whole. */
  lemma {:induction false} SiblingsInOrder(up: Parents, kids: Kids, p: EntityRef, i: nat, j: nat) returns (before: seq<EntityRef>, between: seq<EntityRef>, after: seq<EntityRef>)
    requires Acyclic(up) && KidsMatch(up, kids, {}) && p in kids && i < j < |kids[p]|
    ensures kids[p][i] in up && kids[p][j] in up
    ensures PreKids(up, kids, p, 0) == before + Pre(up, kids, kids[p][i]) + between + Pre(up, kids, kids[p][j]) + after
  {
    ChildAt(up, kids, {}, p, i);
    ChildAt(up, kids, {}, p, j);
    hide KidsMatch;
    var b0 := KidsUpTo(up, kids, p, 0, i);
    var b1 := KidsUpTo(up, kids, p, i + 1, j);
    before, between, after := b0, b1, PreKids(up, kids, p, j + 1);
  }

  /** The subtrees of some children in a row, put in front. */
  lemma {:induction false} KidsUpTo(up: Parents, kids: Kids, p: EntityRef, i: nat, j: nat) returns (front: seq<EntityRef>)
    requires Acyclic(up) && KidsMatch(up, kids, {}) && p in kids && i <= j <= |kids[p]|
    ensures PreKids(up, kids, p, i) == front + PreKids(up, kids, p, j)
    decreases j - i
  {
    if i == j {
      front := [];
    } else {
      ChildAt(up, kids, {}, p, i);
      var rest := KidsUpTo(up, kids, p, i + 1, j);
      front := Pre(up, kids, kids[p][i]) + rest;
      Regroup(Pre(up, kids, kids[p][i]), rest, PreKids(up, kids, p, j));
    }
  }

  /** Earlier in the list is less; the listed before the others; the others by slot and then generation. */
  lemma {:induction false} CompareMeans(list: seq<EntityRef>, i: nat, j: nat, a: EntityRef, b: EntityRef)
    requires Distinct(list)
    ensures i < j < |list| ==> TreeCompare(list, list[i], list[j]) == -1 && TreeCompare(list, list[j], list[i]) == 1
    ensures i < |list| && a !in list ==> TreeCompare(list, list[i], a) == -1 && TreeCompare(list, a, list[i]) == 1
    ensures a !in list && b !in list && (a.index < b.index || (a.index == b.index && a.generation < b.generation)) ==>
              TreeCompare(list, a, b) == -1 && TreeCompare(list, b, a) == 1
    ensures TreeCompare(list, a, a) == 0
  {
    if i < |list| {
      assert IndexIn(list, list[i]) == i;
    }
    if j < |list| {
      assert IndexIn(list, list[j]) == j;
    }
  }

  // ---- dormancy ------------------------------------------------------------------------------------------

  /** An entity is dormant exactly when it or an ancestor of it is deactivated. */
  lemma {:induction false} DormantIff(nodes: Nodes, n: EntityRef)
    requires Acyclic(Up(nodes)) && DepthsOk(nodes) && n in nodes
    ensures nodes[n].dormantDepth > 0 <==> exists m :: m in nodes && m in Path(Up(nodes), n) && nodes[m].deactivated
    decreases Rank(Up(nodes), n)
  {
    assert DepthAt(nodes, n);
    var p := Up(nodes)[n];
    if p != NULL {
      DormantIff(nodes, p);
      assert Path(Up(nodes), n) == [n] + Path(Up(nodes), p);
    } else {
      assert Path(Up(nodes), n) == [n];
    }
  }

  /** A pool's bit for an entity, as the pools hold it. */
  predicate RowIn(pools: seq<Pool>, i: nat, e: EntityRef) { i < |pools| && e in pools[i] }

  /** What a subtree-wide scope does to the rows of one of its entities: its count goes up by one, and if it
      was awake every row of it is switched off. */
  lemma {:induction false} FallsAsleep(nodes: Nodes, pools: seq<Pool>, nodes': Nodes, pools': seq<Pool>, done: set<EntityRef>, n: EntityRef, i: nat)
    requires ShiftedRows(nodes, pools, nodes', pools', done, 1) && n in done && RowIn(pools, i, n)
    ensures n in nodes && n in nodes' && nodes'[n].dormantDepth == nodes[n].dormantDepth + 1
    ensures RowIn(pools', i, n) && pools'[i][n] == if nodes[n].dormantDepth == 0 then false else pools[i][n]
  {
    assert RowShifted(nodes, pools, nodes', pools', n, 1);
    assert ColumnOf(pools, n)[i] == RowOf(pools[i][n]);
    assert ColumnOf(pools', n)[i] == RowOf(pools'[i][n]);
    assert nodes[n].dormantDepth == 0 ==> ColumnOf(pools', n)[i] == Cleared(ColumnOf(pools, n))[i] == Inactive;
  }

  lemma {:induction false} KeepsRows(nodes: Nodes, pools: seq<Pool>, nodes': Nodes, pools': seq<Pool>, done: set<EntityRef>, delta: int, n: EntityRef, i: nat)
    requires ShiftedRows(nodes, pools, nodes', pools', done, delta) && n !in done
    ensures RowIn(pools', i, n) == RowIn(pools, i, n) && (RowIn(pools, i, n) ==> pools'[i][n] == pools[i][n])
  {
    if i < |pools| {
      assert ColumnOf(pools, n)[i] == ColumnOf(pools', n)[i];
    }
  }

  /** A scope put on a subtree, as seen in the node table and in the pools. */
  ghost predicate PutToSleep(nodes: Nodes, pools: seq<Pool>, nodes': Nodes, pools': seq<Pool>, done: set<EntityRef>) {
    && nodes'.Keys == nodes.Keys && |pools'| == |pools|
    && (forall n | n in nodes :: nodes'[n].dormantDepth == nodes[n].dormantDepth + if n in done then 1 else 0)
    && (forall i, n | 0 <= i < |pools| && n in pools[i] ::
          n in pools'[i] && pools'[i][n] == if n in done && n in nodes && nodes[n].dormantDepth == 0 then false else pools[i][n])
  }

  lemma {:induction false} ScopeMeans(nodes: Nodes, pools: seq<Pool>, nodes': Nodes, pools': seq<Pool>, root: EntityRef, done: set<EntityRef>)
    requires root in nodes && ShiftedRows(Flagged(nodes, root, true), pools, nodes', pools', done, 1)
    ensures PutToSleep(nodes, pools, nodes', pools', done)
  {
    var flagged := Flagged(nodes, root, true);
    forall n | n in nodes ensures nodes'[n].dormantDepth == nodes[n].dormantDepth + if n in done then 1 else 0 {
      assert n in done ==> RowShifted(flagged, pools, nodes', pools', n, 1);
    }
    forall i, n | 0 <= i < |pools| && n in pools[i]
      ensures n in pools'[i] && pools'[i][n] == if n in done && n in nodes && nodes[n].dormantDepth == 0 then false else pools[i][n]
    {
      assert RowIn(pools, i, n);
      if n in done {
        FallsAsleep(flagged, pools, nodes', pools', done, n, i);
      } else {
        KeepsRows(flagged, pools, nodes', pools', done, 1, n, i);
      }
    }
  }

  /** A scope lifted from a subtree: who is awake again has the bits it is meant to have, nobody else's bits
      change. */
  ghost predicate WokenUp(nodes: Nodes, pools: seq<Pool>, nodes': Nodes, pools': seq<Pool>, done: set<EntityRef>) {
    && nodes'.Keys == nodes.Keys && |pools'| == |pools|
    && (forall n | n in nodes :: nodes'[n].dormantDepth == nodes[n].dormantDepth - if n in done then 1 else 0)
    && (forall i, n | 0 <= i < |pools| && n in pools[i] && n in nodes ::
          n in pools'[i] && pools'[i][n] == if n in done && nodes[n].dormantDepth == 1 then Intent(nodes, pools, n)[i] == Active else pools[i][n])
  }

  lemma {:induction false} LiftMeans(nodes: Nodes, pools: seq<Pool>, nodes': Nodes, pools': seq<Pool>, root: EntityRef, done: set<EntityRef>)
    requires root in nodes && ShiftedRows(Flagged(nodes, root, false), pools, nodes', pools', done, -1)
    ensures WokenUp(nodes, pools, nodes', pools', done)
  {
    var flagged := Flagged(nodes, root, false);
    forall n | n in nodes ensures nodes'[n].dormantDepth == nodes[n].dormantDepth - if n in done then 1 else 0 {
      assert n in done ==> RowShifted(flagged, pools, nodes', pools', n, -1);
    }
    forall i, n | 0 <= i < |pools| && n in pools[i] && n in nodes
      ensures n in pools'[i] && pools'[i][n] == if n in done && nodes[n].dormantDepth == 1 then Intent(nodes, pools, n)[i] == Active else pools[i][n]
    {
      assert ColumnOf(pools', n)[i] == RowOf(pools'[i][n]) && ColumnOf(pools, n)[i] == RowOf(pools[i][n]);
      if n in done {
        assert RowShifted(flagged, pools, nodes', pools', n, -1);
      } else {
        KeepsRows(flagged, pools, nodes', pools', done, -1, n, i);
      }
    }
  }

  /** A scope put on a subtree and lifted again: every count and every active bit is what it was. */
  lemma {:induction false} DownAndUp(n0: Nodes, p0: seq<Pool>, n1: Nodes, p1: seq<Pool>, n2: Nodes, p2: seq<Pool>, done: set<EntityRef>, n: EntityRef, i: nat)
    requires ShiftedRows(n0, p0, n1, p1, done, 1) && ShiftedRows(n1, p1, n2, p2, done, -1) && n in n0 && ActivityAt(n0, p0, n)
    ensures n in n2 && n2[n].dormantDepth == n0[n].dormantDepth
    ensures RowIn(p2, i, n) == RowIn(p0, i, n) && (RowIn(p0, i, n) ==> p2[i][n] == p0[i][n])
  {
    if n in done {
      assert RowShifted(n0, p0, n1, p1, n, 1) && RowShifted(n1, p1, n2, p2, n, -1);
      var c0, c1, c2 := ColumnOf(p0, n), ColumnOf(p1, n), ColumnOf(p2, n);
      if n0[n].dormantDepth == 0 {
        assert Captures(n1[n].saved, c0) && c1 == Cleared(c0) && c2 == Restored(c1, n1[n].saved);
        if i < |p0| {
          assert c2[i] == c0[i] by {
            assert SavedBit(n1[n].saved, i, 0) <==> c0[i] != Absent;
            assert SavedBit(n1[n].saved, i, 1) <==> c0[i] == Active;
          }
        }
      } else {
        assert c2 == c1 == c0;
      }
      if i < |p0| {
        assert c0[i] == c2[i];
      }
    } else {
      KeepsRows(n0, p0, n1, p1, done, 1, n, i);
      KeepsRows(n1, p1, n2, p2, done, -1, n, i);
    }
  }

  // ---- adoption and moving ------------------------------------------------------------------------------

  /** What the world says to a new row, in the order it asks. */
  lemma {:induction false} WorldAnswers(iterating: nat, alive: set<EntityRef>, pending: set<EntityRef>, e: EntityRef)
    ensures iterating > 0 ==> EmplaceOutcome(iterating, alive, pending, e) == Failed(Locked)
    ensures iterating == 0 && e in alive ==> EmplaceOutcome(iterating, alive, pending, e) == Fine
    ensures iterating == 0 && e !in alive && e in pending ==> EmplaceOutcome(iterating, alive, pending, e) == Failed(EntityPending)
    ensures iterating == 0 && e !in alive && e !in pending ==> EmplaceOutcome(iterating, alive, pending, e) == Failed(StaleHandle)
  {
  }

  /** A moved node has its new parent and is the last in its list; all other parents are as before, and the
      other lists too, but for the one it left. */
  lemma {:induction false} MovedMeans(nodes: Nodes, kids: Kids, nodes': Nodes, kids': Kids, child: EntityRef, p: EntityRef, q: EntityRef)
    requires Moved(nodes, kids, nodes', kids', child, p) && q in kids && child in nodes
    ensures q in kids' && child in nodes' && nodes'[child].parent == p
    ensures forall n | n in nodes && n != child :: n in nodes' && nodes'[n].parent == nodes[n].parent
    ensures q == p ==> kids'[q] == Outside(kids[q], {child}) + [child]
    ensures q != p ==> kids'[q] == Outside(kids[q], {child})
    ensures q != nodes[child].parent ==> Outside(kids[q], {child}) == kids[q]
  {
    forall n | n in nodes ensures n in nodes' && nodes'[n].parent == if n == child then p else nodes[n].parent {
      assert n in Up(nodes') && Up(nodes')[n] == nodes'[n].parent;
    }
    if q != nodes[child].parent {
      forall k | 0 <= k < |kids[q]| ensures kids[q][k] != child {
        ChildAt(Up(nodes), kids, {}, q, k);
      }
      AllOutside(kids[q], child);
    }
  }

  /** A reparent that is applied, strangers adopted on the way: the child hangs under its new parent as the
      last of its children, and every other entity under the parent it had. */
  ghost predicate Reparented(nodes: Nodes, nodes': Nodes, kids': Kids, child: EntityRef, p: EntityRef) {
    && child in nodes' && nodes'[child].parent == p && p in kids' && |kids'[p]| > 0 && kids'[p][|kids'[p]| - 1] == child
    && (p != NULL ==> p in nodes') && SameParents(nodes, nodes', {child})
  }

  ghost predicate SameParents(nodes: Nodes, nodes': Nodes, but: set<EntityRef>) {
    forall n | n in nodes && n !in but :: n in nodes' && nodes'[n].parent == nodes[n].parent
  }

  lemma {:induction false} ParentsOf(nodes: Nodes, mid: Nodes, child: EntityRef, p: EntityRef)
    requires Up(mid) == WithRoot(WithRoot(Up(nodes), child), p)
    ensures SameParents(nodes, mid, {}) && (child != NULL ==> child in mid) && (p != NULL ==> p in mid)
  {
    forall n | n in nodes ensures n in mid && mid[n].parent == nodes[n].parent {
      assert n in Up(nodes) && Up(nodes)[n] == nodes[n].parent && n in Up(mid) && Up(mid)[n] == mid[n].parent;
    }
    assert child != NULL ==> child in Up(mid);
    assert p != NULL ==> p in Up(mid);
  }

  lemma {:induction false} ReparentMeans(nodes: Nodes, mid: Nodes, midKids: Kids, nodes': Nodes, kids': Kids, child: EntityRef, p: EntityRef)
    requires Up(mid) == WithRoot(WithRoot(Up(nodes), child), p) && Moved(mid, midKids, nodes', kids', child, p) && child != NULL
    ensures Reparented(nodes, nodes', kids', child, p)
  {
    ParentsOf(nodes, mid, child, p);
    MovedIn(mid, midKids, nodes', kids', child, p);
    MovedMeans(mid, midKids, nodes', kids', child, p, p);
    hide Moved, Up, WithRoot;
  }

  lemma {:induction false} MovedIn(nodes: Nodes, kids: Kids, nodes': Nodes, kids': Kids, child: EntityRef, p: EntityRef)
    requires Moved(nodes, kids, nodes', kids', child, p)
    ensures p in kids && nodes'.Keys == nodes.Keys
  {
  }

  // ---- world matrices -------------------------------------------------------------------------------------

  /** The product of the local transforms from the root down to the node a path starts at. */
  ghost function Product(s: Space, locals: Locals, path: seq<EntityRef>): Matrix
    requires forall n | n in path :: n in locals
  {
    if path == [] then s.identity else s.mul(Product(s, locals, path[1..]), s.toMatrix(locals[path[0]]))
  }

  lemma {:induction false} RecomputedIsProduct(s: Space, up: Parents, locals: Locals, n: EntityRef)
    requires Acyclic(up) && n in up && locals.Keys == up.Keys
    ensures forall m | m in Path(up, n) :: m in locals
    ensures Recomputed(s, up, locals, n) == Product(s, locals, Path(up, n))
    decreases Rank(up, n)
  {
    PathInMap(up, n);
    if up[n] != NULL {
      RecomputedIsProduct(s, up, locals, up[n]);
      assert Path(up, n)[1..] == Path(up, up[n]);
    } else {
      assert Path(up, n)[1..] == [];
    }
  }

  /** The entity has one more active row in each of three neighbouring pools; nothing else changed. */
  predicate RowsAdded(pools: seq<Pool>, pools': seq<Pool>, base: nat, e: EntityRef) {
    && |pools'| == |pools|
    && forall i | 0 <= i < |pools| :: pools'[i] == if base <= i < base + 3 then pools[i][e := true] else pools[i]
  }

  lemma {:induction false} AdoptedRows(pools: seq<Pool>, base: nat, e: EntityRef)
    requires base + 3 <= |pools|
    ensures RowsAdded(pools, Emplaced(Emplaced(Emplaced(pools, base, e), base + 1, e), base + 2, e), base, e)
  {
  }

  /** Composed matrices, said of parent and child. */
  lemma {:induction false} WorldsMean(s: Space, nodes: Nodes, locals: Locals, worlds: Worlds)
    requires WorldsOk(s, nodes, locals, worlds) && forall n | n in nodes :: !Marked(nodes[n])
    ensures forall n | n in nodes ::
              && n in worlds && n in locals && (nodes[n].parent == NULL || nodes[n].parent in worlds)
              && worlds[n] == s.mul(if nodes[n].parent == NULL then s.identity else worlds[nodes[n].parent], s.toMatrix(locals[n]))
  {
    forall n | n in nodes
      ensures && n in worlds && n in locals && (nodes[n].parent == NULL || nodes[n].parent in worlds)
              && worlds[n] == s.mul(if nodes[n].parent == NULL then s.identity else worlds[nodes[n].parent], s.toMatrix(locals[n]))
    {
      assert !Marked(nodes[n]) && Composed(s, nodes, locals, worlds, n);
    }
  }
}
