/** What the per-node data of the entity tree means: covering-scope counts, the two dirty bits,
    world matrices and the cached order. */
module TreeState {
  import opened Forest
  import opened ForestOrder
  import opened TreeLinks

  ghost predicate Closed(nodes: Nodes) {
    NULL !in nodes && forall n | n in nodes :: nodes[n].parent == NULL || nodes[n].parent in nodes
  }

  lemma {:induction false} AcyclicCloses(nodes: Nodes)
    requires Acyclic(Up(nodes))
    ensures Closed(nodes)
  {
    var up := Up(nodes);
    assert Ranked(up, RankingOf(up));
    forall n | n in nodes ensures nodes[n].parent == NULL || nodes[n].parent in nodes {
      assert n in up && up[n] == nodes[n].parent;
    }
  }

  // ---- covering scopes ------------------------------------------------------------------------

  function Own(n: Node): nat { if n.deactivated then 1 else 0 }

  function Cover(nodes: Nodes, p: EntityRef): nat
    requires p == NULL || p in nodes
  {
    if p == NULL then 0 else nodes[p].dormantDepth
  }

  ghost predicate DepthAt(nodes: Nodes, n: EntityRef)
    requires n in nodes && Closed(nodes)
  {
    nodes[n].dormantDepth == Own(nodes[n]) + Cover(nodes, nodes[n].parent)
  }

  /** Each count is the node's own scope plus its parent's count; `except` may be off by `off`. */
  ghost predicate DepthsOk(nodes: Nodes) {
    Closed(nodes) && forall n | n in nodes :: DepthAt(nodes, n)
  }

  ghost predicate DepthsOkBut(nodes: Nodes, c: EntityRef, off: int) {
    && Closed(nodes) && c in nodes
    && nodes[c].dormantDepth + off == Own(nodes[c]) + Cover(nodes, nodes[c].parent)
    && forall n | n in nodes && n != c :: DepthAt(nodes, n)
  }

  /** Deactivated nodes among the given ones. */
  ghost function Scopes(nodes: Nodes, path: seq<EntityRef>): nat
    requires forall n | n in path :: n in nodes
  {
    if path == [] then 0 else Own(nodes[path[0]]) + Scopes(nodes, path[1..])
  }

  lemma {:induction false} PathInMap(up: Parents, n: EntityRef)
    requires Acyclic(up) && n in up
    ensures forall m | m in Path(up, n) :: m in up
    decreases Rank(up, n)
  {
    if up[n] != NULL {
      PathInMap(up, up[n]);
    }
  }

  /** The count is the number of deactivated ancestors-or-self. */
  lemma {:induction false} DepthCountsScopes(nodes: Nodes, n: EntityRef)
    requires Acyclic(Up(nodes)) && DepthsOk(nodes) && n in nodes
    ensures forall m | m in Path(Up(nodes), n) :: m in nodes
    ensures nodes[n].dormantDepth == Scopes(nodes, Path(Up(nodes), n))
    decreases Rank(Up(nodes), n)
  {
    var up := Up(nodes);
    PathInMap(up, n);
    assert DepthAt(nodes, n);
    if up[n] == NULL {
      assert Path(up, n)[1..] == [];
    } else {
      DepthCountsScopes(nodes, up[n]);
      assert Path(up, n)[1..] == Path(up, up[n]);
    }
  }

  /** A descendant is covered at least as often. */
  lemma {:induction false} DeeperBelow(nodes: Nodes, c: EntityRef, n: EntityRef)
    requires Acyclic(Up(nodes)) && c in nodes && n in nodes && Under(Up(nodes), c, n) && Closed(nodes)
    requires forall m | m in nodes && m != c :: DepthAt(nodes, m)
    ensures nodes[n].dormantDepth >= nodes[c].dormantDepth
    decreases Rank(Up(nodes), n)
  {
    if n != c {
      assert DepthAt(nodes, n);
      DeeperBelow(nodes, c, Up(nodes)[n]);
    }
  }

  /** The same tree with every count in c's subtree moved by delta. */
  ghost predicate Shifted(nodes: Nodes, nodes': Nodes, c: EntityRef, delta: int)
    requires Acyclic(Up(nodes))
  {
    && nodes'.Keys == nodes.Keys
    && forall n | n in nodes ::
      && nodes'[n].parent == nodes[n].parent && nodes'[n].deactivated == nodes[n].deactivated
      && nodes'[n].dormantDepth == nodes[n].dormantDepth + if Under(Up(nodes), c, n) then delta else 0
  }

  /** A count that is off by delta at the top of a subtree is repaired by moving the subtree. */
  lemma {:induction false} ShiftRepairs(nodes: Nodes, nodes': Nodes, c: EntityRef, delta: int)
    requires Acyclic(Up(nodes)) && DepthsOkBut(nodes, c, delta) && Shifted(nodes, nodes', c, delta)
    ensures DepthsOk(nodes')
  {
    var up := Up(nodes);
    assert Closed(nodes');
    forall n | n in nodes' ensures DepthAt(nodes', n) {
      UnderStep(up, c, n);
      if n == c {
        if up[n] != NULL && Under(up, c, up[n]) {
          UnderInMap(up, c, up[n]);
          assert false;
        }
      } else {
        assert DepthAt(nodes, n);
      }
    }
  }

  lemma {:induction false} MovedDepths(nodes: Nodes, nodes': Nodes, c: EntityRef, p: EntityRef)
    requires DepthsOk(nodes) && SameData(nodes, nodes') && Up(nodes') == Up(nodes)[c := p] && c in nodes && (p == NULL || p in nodes)
    ensures DepthsOkBut(nodes', c, Cover(nodes, p) - Cover(nodes, nodes[c].parent))
    ensures Closed(nodes')
  {
    forall n | n in nodes ensures nodes'[n].parent == if n == c then p else nodes[n].parent {
      assert n in Up(nodes') && Up(nodes')[n] == nodes'[n].parent;
      assert Data(nodes'[n]) == Data(nodes[n]);
    }
    assert DepthAt(nodes, c);
    forall n | n in nodes ensures nodes'[n].dormantDepth == nodes[n].dormantDepth && nodes'[n].deactivated == nodes[n].deactivated {
      DataFields(nodes[n], nodes'[n]);
    }
    forall n | n in nodes' && n != c ensures DepthAt(nodes', n) {
      assert DepthAt(nodes, n);
    }
  }

  lemma {:induction false} DataFields(n: Node, m: Node)
    requires Data(m) == Data(n)
    ensures m.order == n.order && m.dormantDepth == n.dormantDepth && m.deactivated == n.deactivated
    ensures m.dirty == n.dirty && m.dirtyBelow == n.dirtyBelow && m.saved == n.saved
  {
    assert Data(m).order == m.order && Data(n).order == n.order;
    assert Data(m).saved == m.saved && Data(n).saved == n.saved;
    assert Data(m).dirty == m.dirty && Data(n).dirty == n.dirty;
    assert Data(m).dirtyBelow == m.dirtyBelow && Data(n).dirtyBelow == n.dirtyBelow;
    assert Data(m).deactivated == m.deactivated && Data(n).deactivated == n.deactivated;
    assert Data(m).dormantDepth == m.dormantDepth && Data(n).dormantDepth == n.dormantDepth;
  }

  // ---- the two dirty bits ----------------------------------------------------------------------

  function Marked(n: Node): bool { n.dirty || n.dirtyBelow }

  /** A marked node has a marked-below parent, and marks imply the global flag. */
  ghost predicate MarkAt(nodes: Nodes, any: bool, n: EntityRef)
    requires n in nodes && Closed(nodes)
  {
    Marked(nodes[n]) ==> any && (nodes[n].parent != NULL ==> nodes[nodes[n].parent].dirtyBelow)
  }

  ghost predicate MarksOkBut(nodes: Nodes, any: bool, but: set<EntityRef>) {
    Closed(nodes) && forall n | n in nodes && n !in but :: MarkAt(nodes, any, n)
  }

  ghost predicate MarksOk(nodes: Nodes, any: bool) { MarksOkBut(nodes, any, {}) }

  /** Below an unmarked node nothing is dirty. */
  lemma {:induction false} UnmarkedBelow(nodes: Nodes, any: bool, c: EntityRef, n: EntityRef)
    requires Acyclic(Up(nodes)) && MarksOk(nodes, any) && c in nodes && n in nodes && Under(Up(nodes), c, n) && !Marked(nodes[c])
    ensures !Marked(nodes[n])
    decreases Rank(Up(nodes), n)
  {
    if n != c {
      UnmarkedBelow(nodes, any, c, Up(nodes)[n]);
      assert MarkAt(nodes, any, n);
    }
  }

  lemma {:induction false} MovedMarks(nodes: Nodes, nodes': Nodes, any: bool, c: EntityRef, p: EntityRef)
    requires MarksOk(nodes, any) && SameData(nodes, nodes') && Up(nodes') == Up(nodes)[c := p] && c in nodes && (p == NULL || p in nodes)
    ensures MarksOkBut(nodes', any, {c})
  {
    forall n | n in nodes ensures nodes'[n].parent == if n == c then p else nodes[n].parent {
      assert n in Up(nodes') && Up(nodes')[n] == nodes'[n].parent;
    }
    forall n | n in nodes ensures nodes'[n].dirty == nodes[n].dirty && nodes'[n].dirtyBelow == nodes[n].dirtyBelow {
      DataFields(nodes[n], nodes'[n]);
    }
    forall n | n in nodes && n != c ensures MarkAt(nodes', any, n) {
      assert MarkAt(nodes, any, n);
    }
  }

  // ---- world matrices -------------------------------------------------------------------------------

  datatype Transform = Transform(bits: nat)
  datatype Matrix = Matrix(bits: nat)

  /** The matrix operations, uninterpreted. */
  datatype Space = Space(identity: Matrix, mul: (Matrix, Matrix) -> Matrix, toMatrix: Transform -> Matrix, fresh_: Transform, blank: Matrix)

  type Locals = map<EntityRef, Transform>
  type Worlds = map<EntityRef, Matrix>

  function ParentWorld(s: Space, worlds: Worlds, p: EntityRef): Matrix
    requires p == NULL || p in worlds
  {
    if p == NULL then s.identity else worlds[p]
  }

  ghost predicate Rows(nodes: Nodes, locals: Locals, worlds: Worlds) {
    Closed(nodes) && locals.Keys == nodes.Keys && worlds.Keys == nodes.Keys
  }

  /** n's matrix is its parent's times its own. */
  ghost predicate Composed(s: Space, nodes: Nodes, locals: Locals, worlds: Worlds, n: EntityRef)
    requires Rows(nodes, locals, worlds) && n in nodes
  {
    worlds[n] == s.mul(ParentWorld(s, worlds, nodes[n].parent), s.toMatrix(locals[n]))
  }

  /** Every clean node's matrix is composed. */
  ghost predicate WorldsOk(s: Space, nodes: Nodes, locals: Locals, worlds: Worlds) {
    Rows(nodes, locals, worlds) && forall n | n in nodes && !nodes[n].dirty :: Composed(s, nodes, locals, worlds, n)
  }

  ghost predicate WorldsOkBut(s: Space, nodes: Nodes, locals: Locals, worlds: Worlds, e: EntityRef) {
    Rows(nodes, locals, worlds) && forall n | n in nodes && n != e && !nodes[n].dirty :: Composed(s, nodes, locals, worlds, n)
  }

  /** The matrix recomputed from scratch along the root path. */
  ghost function Recomputed(s: Space, up: Parents, locals: Locals, n: EntityRef): Matrix
    requires Acyclic(up) && n in up && locals.Keys == up.Keys
    decreases Rank(up, n)
  {
    s.mul(if up[n] == NULL then s.identity else Recomputed(s, up, locals, up[n]), s.toMatrix(locals[n]))
  }

  /** Where nothing is dirty, every matrix is the full recomputation. */
  lemma {:induction false} CleanIsRecomputed(s: Space, nodes: Nodes, locals: Locals, worlds: Worlds, n: EntityRef)
    requires Acyclic(Up(nodes)) && WorldsOk(s, nodes, locals, worlds) && n in nodes && Up(nodes).Keys == locals.Keys
    requires forall m | m in nodes :: !nodes[m].dirty
    ensures worlds[n] == Recomputed(s, Up(nodes), locals, n)
    decreases Rank(Up(nodes), n)
  {
    assert Composed(s, nodes, locals, worlds, n);
    if Up(nodes)[n] != NULL {
      CleanIsRecomputed(s, nodes, locals, worlds, Up(nodes)[n]);
    }
  }

  lemma {:induction false} MovedWorlds(s: Space, nodes: Nodes, nodes': Nodes, locals: Locals, worlds: Worlds, c: EntityRef, p: EntityRef)
    requires WorldsOk(s, nodes, locals, worlds) && SameData(nodes, nodes') && Up(nodes') == Up(nodes)[c := p] && c in nodes && (p == NULL || p in nodes)
    ensures WorldsOkBut(s, nodes', locals, worlds, c)
  {
    forall n | n in nodes ensures nodes'[n].parent == if n == c then p else nodes[n].parent {
      assert n in Up(nodes') && Up(nodes')[n] == nodes'[n].parent;
    }
    forall n | n in nodes ensures nodes'[n].dirty == nodes[n].dirty {
      DataFields(nodes[n], nodes'[n]);
    }
    forall n | n in nodes' && n != c && !nodes'[n].dirty ensures Composed(s, nodes', locals, worlds, n) {
      assert Composed(s, nodes, locals, worlds, n);
    }
  }

  // ---- the cached order -----------------------------------------------------------------------------

  /** Every node's cached index is its position in the preorder. */
  ghost predicate Ordered(nodes: Nodes, list: seq<EntityRef>) {
    forall i | 0 <= i < |list| :: list[i] in nodes && nodes[list[i]].order == i
  }
}
