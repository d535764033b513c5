/** Moving the covering-scope counts of a subtree, with what that does to activity. */
module TreeDormancy {
  import opened Forest
  import opened ForestOrder
  import opened TreeLinks
  import opened TreeState
  import opened BitWords
  import opened Activity

  /** A node's captured words fit its count and its rows. */
  ghost predicate ActivityAt(nodes: Nodes, pools: seq<Pool>, n: EntityRef)
    requires n in nodes
  {
    && |nodes[n].saved| % 2 == 0 && (nodes[n].dormantDepth == 0 ==> nodes[n].saved == [])
    && RowsKept(nodes[n].saved, ColumnOf(pools, n))
  }

  ghost predicate ActivityOk(nodes: Nodes, pools: seq<Pool>) {
    forall n | n in nodes :: ActivityAt(nodes, pools, n)
  }

  /** The activity n has when awake. */
  ghost function Intent(nodes: Nodes, pools: seq<Pool>, n: EntityRef): Column
    requires n in nodes
  {
    Intended(nodes[n].saved, ColumnOf(pools, n))
  }

  ghost predicate RowShifted(nodes: Nodes, pools: seq<Pool>, nodes': Nodes, pools': seq<Pool>, n: EntityRef, delta: int) {
    && n in nodes && n in nodes'
    && nodes'[n] == nodes[n].(dormantDepth := nodes'[n].dormantDepth, saved := nodes'[n].saved)
    && nodes'[n].dormantDepth == nodes[n].dormantDepth + delta
    && Shifts(nodes[n].dormantDepth, nodes'[n].dormantDepth, nodes[n].saved, ColumnOf(pools, n), nodes'[n].saved, ColumnOf(pools', n))
  }

  /** The rows of `done` are shifted, all others as they were. */
  ghost predicate ShiftedRows(nodes: Nodes, pools: seq<Pool>, nodes': Nodes, pools': seq<Pool>, done: set<EntityRef>, delta: int) {
    && nodes'.Keys == nodes.Keys && |pools'| == |pools| && (forall i | 0 <= i < |pools| :: pools'[i].Keys == pools[i].Keys)
    && (forall n | n in done :: RowShifted(nodes, pools, nodes', pools', n, delta))
    && (forall n | n in nodes && n !in done :: nodes'[n] == nodes[n])
    && (forall n | n !in done :: ColumnOf(pools', n) == ColumnOf(pools, n))
  }

  lemma {:induction false} ShiftNothing(nodes: Nodes, pools: seq<Pool>, delta: int)
    ensures ShiftedRows(nodes, pools, nodes, pools, {}, delta)
  {
  }

  /** One more row. */
  lemma {:induction false} ShiftOneMore(nodes: Nodes, pools: seq<Pool>, nodes1: Nodes, pools1: seq<Pool>, nodes2: Nodes, pools2: seq<Pool>,
                                        done: set<EntityRef>, e: EntityRef, delta: int)
    requires ShiftedRows(nodes, pools, nodes1, pools1, done, delta) && e !in done && e in nodes
    requires RowShifted(nodes1, pools1, nodes2, pools2, e, delta) && nodes2 == nodes1[e := nodes2[e]] && OthersKept(pools1, pools2, e)
    ensures ShiftedRows(nodes, pools, nodes2, pools2, done + {e}, delta)
  {
    forall x | x != e ensures ColumnOf(pools2, x) == ColumnOf(pools1, x) {
      OtherColumns(pools1, pools2, e, x);
    }
    hide OthersKept, ColumnOf, Shifts;
    OthersKeys(pools1, pools2, e);
    forall n | n in done + {e} ensures RowShifted(nodes, pools, nodes2, pools2, n, delta) {
      if n != e {
        assert RowShifted(nodes, pools, nodes1, pools1, n, delta);
      }
    }
  }

  lemma {:induction false} OthersKeys(pools: seq<Pool>, pools': seq<Pool>, e: EntityRef)
    requires OthersKept(pools, pools', e)
    ensures |pools'| == |pools| && forall i | 0 <= i < |pools| :: pools'[i].Keys == pools[i].Keys
  {
  }

  /** What a delta on c's subtree leaves: links, marks, order and intended activity; and it moves
      the counts of that subtree. */
  lemma {:induction false} SubtreeShifted(nodes: Nodes, pools: seq<Pool>, nodes': Nodes, pools': seq<Pool>, c: EntityRef, delta: int)
    requires Acyclic(Up(nodes)) && ShiftedRows(nodes, pools, nodes', pools', Subtree(Up(nodes), c), delta)
    ensures SameLinks(nodes, nodes') && SameMarks(nodes, nodes') && SameOrders(nodes, nodes') && Shifted(nodes, nodes', c, delta)
  {
    var gone := Subtree(Up(nodes), c);
    assert Up(nodes).Keys == nodes.Keys;
    hide Acyclic, Up, ColumnOf, Shifts, Path;
    forall n | n in nodes
      ensures nodes'[n] == nodes[n].(dormantDepth := nodes'[n].dormantDepth, saved := nodes'[n].saved)
      ensures nodes'[n].dormantDepth == nodes[n].dormantDepth + if Under(Up(nodes), c, n) then delta else 0
    {
      if n in gone {
        assert RowShifted(nodes, pools, nodes', pools', n, delta);
      }
    }
  }

  /** Deactivating, activating and moving across dormant regions change no intended activity. */
  lemma {:induction false} ShiftKeepsActivity(nodes: Nodes, pools: seq<Pool>, nodes': Nodes, pools': seq<Pool>, done: set<EntityRef>, delta: int)
    requires ShiftedRows(nodes, pools, nodes', pools', done, delta) && ActivityOk(nodes, pools)
    ensures ActivityOk(nodes', pools')
    ensures SameIntents(nodes, pools, nodes', pools')
  {
    hide ColumnOf, Shifts, Restored, Captures;
    forall n | n in nodes ensures ActivityAt(nodes', pools', n) && Intent(nodes', pools', n) == Intent(nodes, pools, n) {
      assert ActivityAt(nodes, pools, n);
      if n in done {
        assert RowShifted(nodes, pools, nodes', pools', n, delta);
        ShiftKeepsIntended(nodes[n].dormantDepth, nodes'[n].dormantDepth, nodes[n].saved, ColumnOf(pools, n), nodes'[n].saved, ColumnOf(pools', n));
        ShiftEven(nodes[n].dormantDepth, nodes'[n].dormantDepth, nodes[n].saved, ColumnOf(pools, n), nodes'[n].saved, ColumnOf(pools', n));
      }
    }
  }

  lemma {:induction false} ShiftEven(old_: nat, new_: nat, saved: seq<Word>, col: Column, saved': seq<Word>, col': Column)
    requires Shifts(old_, new_, saved, col, saved', col') && |saved| % 2 == 0
    ensures |saved'| % 2 == 0
  {
  }

  /** The same dirty bits. */
  ghost predicate SameMarks(nodes: Nodes, nodes': Nodes) {
    nodes'.Keys == nodes.Keys
    && forall n | n in nodes ::
      nodes'[n].parent == nodes[n].parent && nodes'[n].dirty == nodes[n].dirty && nodes'[n].dirtyBelow == nodes[n].dirtyBelow
  }

  /** The same cached order. */
  ghost predicate SameOrders(nodes: Nodes, nodes': Nodes) {
    nodes'.Keys == nodes.Keys && forall n | n in nodes :: nodes'[n].order == nodes[n].order
  }

  /** The same scopes, counts and captured words. */
  ghost predicate SameScopes(nodes: Nodes, nodes': Nodes) {
    nodes'.Keys == nodes.Keys
    && forall n | n in nodes ::
      && nodes'[n].parent == nodes[n].parent && nodes'[n].deactivated == nodes[n].deactivated
      && nodes'[n].dormantDepth == nodes[n].dormantDepth && nodes'[n].saved == nodes[n].saved
  }

  lemma {:induction false} SameScopesKeep(nodes: Nodes, nodes': Nodes, pools: seq<Pool>)
    requires SameScopes(nodes, nodes') && DepthsOk(nodes) && ActivityOk(nodes, pools)
    ensures DepthsOk(nodes') && ActivityOk(nodes', pools) && SameIntents(nodes, pools, nodes', pools)
  {
    hide ColumnOf, Intended;
    assert Closed(nodes');
    forall n | n in nodes' ensures DepthAt(nodes', n) && ActivityAt(nodes', pools, n) {
      assert DepthAt(nodes, n) && ActivityAt(nodes, pools, n);
    }
  }

  lemma {:induction false} SameMarksKeeps(s: Space, nodes: Nodes, nodes': Nodes, any: bool, locals: Locals, worlds: Worlds, but: set<EntityRef>, e: EntityRef)
    requires SameMarks(nodes, nodes')
    ensures MarksOkBut(nodes, any, but) ==> MarksOkBut(nodes', any, but)
    ensures WorldsOk(s, nodes, locals, worlds) ==> WorldsOk(s, nodes', locals, worlds)
    ensures WorldsOkBut(s, nodes, locals, worlds, e) ==> WorldsOkBut(s, nodes', locals, worlds, e)
  {
    if MarksOkBut(nodes, any, but) {
      forall n | n in nodes && n !in but ensures Closed(nodes') && MarkAt(nodes', any, n) {
        assert MarkAt(nodes, any, n);
      }
    }
    if Rows(nodes, locals, worlds) {
      forall n | n in nodes && Composed(s, nodes, locals, worlds, n) ensures Rows(nodes', locals, worlds) && Composed(s, nodes', locals, worlds, n) {
      }
    }
  }

  lemma {:induction false} SameOrdersKeep(nodes: Nodes, nodes': Nodes, list: seq<EntityRef>)
    requires SameOrders(nodes, nodes')
    ensures Ordered(nodes, list) ==> Ordered(nodes', list)
  {
  }

  // ---- the loop over a collected subtree ---------------------------------------------------------

  ghost function FirstOnes(list: seq<EntityRef>, k: nat): set<EntityRef>
    requires k <= |list|
  {
    set x | x in list[..k]
  }

  lemma {:induction false} OneMore(list: seq<EntityRef>, k: nat)
    requires Distinct(list) && k < |list|
    ensures FirstOnes(list, k + 1) == FirstOnes(list, k) + {list[k]} && list[k] !in FirstOnes(list, k)
  {
    assert list[..k + 1] == list[..k] + [list[k]];
  }

  lemma {:induction false} NoneYet(list: seq<EntityRef>)
    ensures FirstOnes(list, 0) == {}
  {
  }

  /** Collecting in preorder collects the subtree, each node once. */
  lemma {:induction false} CollectsSubtree(up: Parents, kids: Kids, c: EntityRef)
    requires Acyclic(up) && KidsMatch(up, kids, {}) && c in up
    ensures FirstOnes(Pre(up, kids, c), |Pre(up, kids, c)|) == Subtree(up, c) && Distinct(Pre(up, kids, c))
    ensures forall x | x in Pre(up, kids, c) :: x in up
  {
    hide KidsMatch, Acyclic, Pre;
    PreIsSubtree(up, kids, c);
    PreDistinct(up, kids, c);
    var pre := Pre(up, kids, c);
    assert pre[..|pre|] == pre;
  }

  /** Still to do, k rows on: their counts are untouched and can be moved. */
  lemma {:induction false} NextRow(nodes: Nodes, pools: seq<Pool>, nodes1: Nodes, pools1: seq<Pool>, list: seq<EntityRef>, k: nat, delta: int)
    requires k < |list| && Distinct(list) && ShiftedRows(nodes, pools, nodes1, pools1, FirstOnes(list, k), delta)
    requires forall x | x in list :: x in nodes
    ensures list[k] in nodes1 && nodes1[list[k]] == nodes[list[k]]
  {
    OneMore(list, k);
    assert list[k] in list;
  }

  // ---- a scope set or lifted ---------------------------------------------------------------------

  function Flagged(nodes: Nodes, c: EntityRef, on: bool): (nodes': Nodes)
    requires c in nodes
    ensures nodes'.Keys == nodes.Keys
  {
    nodes[c := nodes[c].(deactivated := on)]
  }

  lemma {:induction false} FlaggedIs(nodes: Nodes, c: EntityRef, on: bool)
    requires c in nodes
    ensures Flagged(nodes, c, on) == nodes[c := nodes[c].(deactivated := on)]
  {
  }

  lemma {:induction false} FlagKeeps(nodes: Nodes, pools: seq<Pool>, c: EntityRef, on: bool)
    requires DepthsOk(nodes) && c in nodes && ActivityOk(nodes, pools) && nodes[c].deactivated != on
    ensures var nodes' := Flagged(nodes, c, on);
            && SameLinks(nodes, nodes') && SameMarks(nodes, nodes') && SameOrders(nodes, nodes') && ActivityOk(nodes', pools)
            && DepthsOkBut(nodes', c, if on then 1 else -1)
            && SameIntents(nodes, pools, nodes', pools)
  {
    hide Intended, ColumnOf, RowsKept;
    var nodes' := Flagged(nodes, c, on);
    assert DepthAt(nodes, c);
    assert Closed(nodes');
    forall n | n in nodes ensures ActivityAt(nodes', pools, n) && (n != c ==> DepthAt(nodes', n)) {
      assert ActivityAt(nodes, pools, n) && DepthAt(nodes, n);
    }
  }

  /** Every count of the subtree can be moved by the delta its top is off by. */
  lemma {:induction false} RoomBelow(nodes: Nodes, c: EntityRef, delta: int)
    requires Acyclic(Up(nodes)) && DepthsOkBut(nodes, c, delta)
    ensures forall n | n in Subtree(Up(nodes), c) :: n in nodes && nodes[n].dormantDepth + delta >= 0
  {
    forall n | n in Subtree(Up(nodes), c) ensures n in nodes && nodes[n].dormantDepth + delta >= 0 {
      DeeperBelow(nodes, c, n);
    }
  }

  lemma {:induction false} EvenSaved(nodes: Nodes, pools: seq<Pool>)
    requires ActivityOk(nodes, pools)
    ensures forall n | n in nodes :: |nodes[n].saved| % 2 == 0
  {
    forall n | n in nodes ensures |nodes[n].saved| % 2 == 0 {
      assert ActivityAt(nodes, pools, n);
    }
  }

  ghost predicate SameIntents(nodes: Nodes, pools: seq<Pool>, nodes': Nodes, pools': seq<Pool>) {
    forall n | n in nodes && n in nodes' :: Intent(nodes', pools', n) == Intent(nodes, pools, n)
  }
}
