/** What holds of the entity tree between operations, and what each operation's steps do to it. */
module TreeValid {
  import opened Forest
  import opened ForestOrder
  import opened TreeLinks
  import opened TreeState
  import opened TreeSweep
  import opened TreeNumbering
  import opened TreeDormancy
  import opened BitWords
  import opened Activity

  /** The world's side: exactly the live entities with a node row have the three own rows. */
  ghost predicate Owned(alive: set<EntityRef>, nodes: Nodes, pools: seq<Pool>, base: nat, count: nat) {
    && NULL !in alive && nodes.Keys <= alive && base + 3 <= |pools| && count == |nodes|
    && (forall i | 0 <= i < |pools| :: pools[i].Keys <= alive)
    && (forall i | base <= i < base + 3 :: pools[i].Keys == nodes.Keys)
  }

  /** A clean order cache is the preorder. */
  ghost predicate OrderOk(nodes: Nodes, kids: Kids, orderDirty: bool) {
    Acyclic(Up(nodes)) && KidsMatch(Up(nodes), kids, {}) && (!orderDirty ==> Ordered(nodes, AllPre(Up(nodes), kids)))
  }

  lemma {:induction false} OrderParts(nodes: Nodes, kids: Kids, orderDirty: bool)
    requires OrderOk(nodes, kids, orderDirty)
    ensures Acyclic(Up(nodes)) && KidsMatch(Up(nodes), kids, {}) && (!orderDirty ==> Ordered(nodes, AllPre(Up(nodes), kids)))
  {
  }

  lemma {:induction false} OrderFrom(nodes: Nodes, kids: Kids, orderDirty: bool)
    requires Acyclic(Up(nodes)) && KidsMatch(Up(nodes), kids, {}) && (!orderDirty ==> Ordered(nodes, AllPre(Up(nodes), kids)))
    ensures OrderOk(nodes, kids, orderDirty)
  {
  }

  lemma {:induction false} SameOrderOk(nodes: Nodes, nodes': Nodes, kids: Kids, orderDirty: bool)
    requires OrderOk(nodes, kids, orderDirty) && SameOrders(nodes, nodes') && SameLinks(nodes, nodes')
    ensures OrderOk(nodes', kids, orderDirty)
  {
    hide *;
    SameUp(nodes, nodes');
    OrderParts(nodes, kids, orderDirty);
    SameOrdersKeep(nodes, nodes', AllPre(Up(nodes), kids));
    OrderFrom(nodes', kids, orderDirty);
  }

  lemma {:induction false} OwnedSame(alive: set<EntityRef>, nodes: Nodes, pools: seq<Pool>, nodes': Nodes, pools': seq<Pool>, base: nat, count: nat)
    requires Owned(alive, nodes, pools, base, count) && nodes'.Keys == nodes.Keys
    requires |pools'| == |pools| && forall i | 0 <= i < |pools| :: pools'[i].Keys == pools[i].Keys
    ensures Owned(alive, nodes', pools', base, count)
  {
    assert |nodes'| == |nodes'.Keys| && |nodes| == |nodes.Keys|;
  }

  /** The tree, the counts and everything else after a scope was set or lifted on c. */
  lemma {:induction false} ScopeMoved(s: Space, nodes: Nodes, pools: seq<Pool>, nodes': Nodes, pools': seq<Pool>, firstRoot: EntityRef, lastRoot: EntityRef,
                                      kids: Kids, locals: Locals, worlds: Worlds, any: bool, orderDirty: bool, c: EntityRef, on: bool)
    requires Tree(nodes, firstRoot, lastRoot, kids) && OrderOk(nodes, kids, orderDirty) && DepthsOk(nodes) && ActivityOk(nodes, pools)
    requires MarksOk(nodes, any) && WorldsOk(s, nodes, locals, worlds) && c in nodes && nodes[c].deactivated != on
    requires Acyclic(Up(nodes)) && ShiftedRows(Flagged(nodes, c, on), pools, nodes', pools', Subtree(Up(nodes), c), if on then 1 else -1)
    ensures Tree(nodes', firstRoot, lastRoot, kids) && Up(nodes') == Up(nodes) && OrderOk(nodes', kids, orderDirty) && DepthsOk(nodes')
    ensures ActivityOk(nodes', pools') && MarksOk(nodes', any) && WorldsOk(s, nodes', locals, worlds) && SameIntents(nodes, pools, nodes', pools')
  {
    hide *;
    var mid, delta := Flagged(nodes, c, on), if on then 1 else -1;
    FlagKeeps(nodes, pools, c, on);
    SameLinksTree(nodes, mid, firstRoot, lastRoot, kids);
    SameOrderOk(nodes, mid, kids, orderDirty);
    SameMarksKeeps(s, nodes, mid, any, locals, worlds, {}, c);
    MarksAre(nodes, any);
    MarksAre(mid, any);
    MarksAre(nodes', any);
    SubtreeShifted(mid, pools, nodes', pools', c, delta);
    SameLinksTree(mid, nodes', firstRoot, lastRoot, kids);
    SameOrderOk(mid, nodes', kids, orderDirty);
    SameMarksKeeps(s, mid, nodes', any, locals, worlds, {}, c);
    ShiftRepairs(mid, nodes', c, delta);
    ShiftKeepsActivity(mid, pools, nodes', pools', Subtree(Up(nodes), c), delta);
    ShiftedKeys(mid, pools, nodes', pools', Subtree(Up(nodes), c), delta);
    IntentsCompose(nodes, pools, mid, pools, nodes', pools');
  }

  lemma {:induction false} MarksAre(nodes: Nodes, any: bool)
    ensures MarksOk(nodes, any) <==> MarksOkBut(nodes, any, {})
  {
  }

  lemma {:induction false} ShiftedKeys(nodes: Nodes, pools: seq<Pool>, nodes': Nodes, pools': seq<Pool>, done: set<EntityRef>, delta: int)
    requires ShiftedRows(nodes, pools, nodes', pools', done, delta)
    ensures nodes'.Keys == nodes.Keys && |pools'| == |pools| && forall i | 0 <= i < |pools| :: pools'[i].Keys == pools[i].Keys
  {
  }

  /** The scope flag written: what the shift of the subtree starts from. */
  lemma {:induction false} ScopeStart(nodes: Nodes, pools: seq<Pool>, firstRoot: EntityRef, lastRoot: EntityRef, kids: Kids, c: EntityRef, on: bool)
    requires Tree(nodes, firstRoot, lastRoot, kids) && DepthsOk(nodes) && ActivityOk(nodes, pools) && c in nodes && nodes[c].deactivated != on
    ensures var flagged := Flagged(nodes, c, on);
            && flagged == nodes[c := nodes[c].(deactivated := on)] && Tree(flagged, firstRoot, lastRoot, kids)
            && Acyclic(Up(flagged)) && Up(flagged) == Up(nodes) && c in flagged && (forall n | n in flagged :: |flagged[n].saved| % 2 == 0)
            && forall n | n in Subtree(Up(flagged), c) :: n in flagged && flagged[n].dormantDepth + (if on then 1 else -1) >= 0
  {
    hide *;
    FlaggedIs(nodes, c, on);
    FlagKeeps(nodes, pools, c, on);
    var flagged := Flagged(nodes, c, on);
    SameLinksTree(nodes, flagged, firstRoot, lastRoot, kids);
    TreeShape(flagged, firstRoot, lastRoot, kids);
    RoomBelow(flagged, c, if on then 1 else -1);
    EvenSaved(flagged, pools);
  }

  lemma {:induction false} ScopeOwned(alive: set<EntityRef>, nodes: Nodes, pools: seq<Pool>, nodes': Nodes, pools': seq<Pool>, base: nat, count: nat,
                                      c: EntityRef, on: bool, done: set<EntityRef>)
    requires Owned(alive, nodes, pools, base, count) && c in nodes
    requires ShiftedRows(Flagged(nodes, c, on), pools, nodes', pools', done, if on then 1 else -1)
    ensures Owned(alive, nodes', pools', base, count)
  {
    hide Owned, ShiftedRows;
    ShiftedKeys(Flagged(nodes, c, on), pools, nodes', pools', done, if on then 1 else -1);
    OwnedSame(alive, nodes, pools, nodes', pools', base, count);
  }

  lemma {:induction false} IntentsCompose(nodes: Nodes, pools: seq<Pool>, nodes1: Nodes, pools1: seq<Pool>, nodes2: Nodes, pools2: seq<Pool>)
    requires SameIntents(nodes, pools, nodes1, pools1) && SameIntents(nodes1, pools1, nodes2, pools2) && nodes.Keys <= nodes1.Keys
    ensures SameIntents(nodes, pools, nodes2, pools2)
  {
  }

  // ---- adoption --------------------------------------------------------------------------------------

  datatype HierarchyError =
    | NotAdopted | AlreadyAdopted | AlreadyDeactivated | NotDeactivated | Locked | EntityPending | StaleHandle
    | MissingComponent | DuplicateComponent

  datatype Outcome = Fine | Failed(error: HierarchyError)

  /** What the world says to a new row for e. */
  function EmplaceOutcome(iterating: nat, alive: set<EntityRef>, pending: set<EntityRef>, e: EntityRef): Outcome {
    if iterating != 0 then Failed(Locked)
    else if e in alive then Fine
    else if e in pending then Failed(EntityPending)
    else Failed(StaleHandle)
  }

  /** Live and pending handles are told apart, and neither is null. */
  ghost predicate HandlesOk(alive: set<EntityRef>, pending: set<EntityRef>) {
    alive !! pending && NULL !in alive && NULL !in pending
  }

  lemma {:induction false} HandlesLess(alive: set<EntityRef>, alive': set<EntityRef>, pending: set<EntityRef>)
    requires HandlesOk(alive, pending) && alive' <= alive
    ensures HandlesOk(alive', pending)
  {
  }

  lemma {:induction false} HandlesMove(alive: set<EntityRef>, pending: set<EntityRef>, e: EntityRef)
    requires HandlesOk(alive, pending)
    ensures e != NULL && e !in alive && e !in pending ==> HandlesOk(alive + {e}, pending) && HandlesOk(alive, pending + {e})
    ensures e in pending ==> e != NULL && e !in alive && HandlesOk(alive + {e}, pending - {e})
  {
  }

  /** One more live entity owns nothing yet. */
  lemma {:induction false} OwnedMore(alive: set<EntityRef>, nodes: Nodes, pools: seq<Pool>, base: nat, count: nat, e: EntityRef)
    requires Owned(alive, nodes, pools, base, count) && e != NULL
    ensures Owned(alive + {e}, nodes, pools, base, count)
  {
  }

  function Emplaced(pools: seq<Pool>, i: nat, e: EntityRef): (r: seq<Pool>)
    requires i < |pools|
    ensures |r| == |pools|
  {
    pools[i := pools[i][e := true]]
  }

  /** e is a new root with fresh data; the others kept theirs. */
  ghost predicate Grown(nodes: Nodes, nodes': Nodes, e: EntityRef) {
    && e !in nodes && nodes'.Keys == nodes.Keys + {e} && Up(nodes') == Up(nodes)[e := NULL]
    && Data(nodes'[e]) == FRESH.(dirty := true) && forall n | n in nodes :: Data(nodes'[n]) == Data(nodes[n])
  }

  /** e is the last root and has no children. */
  ghost function GrownKids(kids: Kids, e: EntityRef): Kids
    requires NULL in kids
  {
    kids[e := []][NULL := kids[NULL] + [e]]
  }

  lemma {:induction false} OwnedParts(alive: set<EntityRef>, nodes: Nodes, pools: seq<Pool>, base: nat, count: nat)
    requires Owned(alive, nodes, pools, base, count)
    ensures NULL !in alive && nodes.Keys <= alive && base + 3 <= |pools| && count == |nodes|
  {
  }

  lemma {:induction false} AddKeepsLinks0(nodes: Nodes, firstRoot: EntityRef, lastRoot: EntityRef, kids: Kids, e: EntityRef)
    requires Tree(nodes, firstRoot, lastRoot, kids) && e !in nodes && e != NULL
    ensures Linked(nodes[e := FRESH], firstRoot, lastRoot, kids[e := []], {e}) && NULL in kids
  {
    TreeShape(nodes, firstRoot, lastRoot, kids);
    AddKeepsLinks(nodes, firstRoot, lastRoot, kids, e);
  }

  lemma {:induction false} AdoptLinks(nodes: Nodes, mid: Nodes, nodes': Nodes, firstRoot: EntityRef, lastRoot: EntityRef, kids: Kids, kids': Kids, e: EntityRef)
    requires Acyclic(Up(nodes)) && Up(nodes).Keys == nodes.Keys && e !in nodes && e != NULL && NULL in kids
    requires Linked(mid, firstRoot, lastRoot, kids', {}) && Up(mid) == Up(nodes[e := FRESH])[e := NULL] && SameData(nodes[e := FRESH], mid)
    requires kids' == AppendedKids(kids[e := []], e, NULL) && e in mid && nodes' == mid[e := mid[e].(dirty := true)]
    ensures Tree(nodes', firstRoot, lastRoot, kids') && Grown(nodes, nodes', e) && kids' == GrownKids(kids, e) && OrderOk(nodes', kids', true)
  {
    hide *;
    AddUp(nodes, e);
    AddedRoot(Up(nodes), e);
    assert Up(mid) == Up(nodes)[e := NULL];
    TreeFrom(mid, firstRoot, lastRoot, kids');
    AdoptMark(nodes, mid, nodes', e);
    SameLinksTree(mid, nodes', firstRoot, lastRoot, kids');
    GrownKidsAre(kids, e);
    TreeShape(nodes', firstRoot, lastRoot, kids');
    OrderFrom(nodes', kids', true);
  }

  lemma {:induction false} TreeFrom(nodes: Nodes, firstRoot: EntityRef, lastRoot: EntityRef, kids: Kids)
    requires Linked(nodes, firstRoot, lastRoot, kids, {}) && Acyclic(Up(nodes))
    ensures Tree(nodes, firstRoot, lastRoot, kids)
  {
  }

  lemma {:induction false} GrownKidsAre(kids: Kids, e: EntityRef)
    requires NULL in kids && e != NULL
    ensures AppendedKids(kids[e := []], e, NULL) == GrownKids(kids, e)
  {
  }

  lemma {:induction false} DirtyData(n: Node)
    ensures Data(n.(dirty := true)) == Data(n).(dirty := true)
  {
  }

  lemma {:induction false} MarkedLinks(mid: Nodes, e: EntityRef)
    requires e in mid
    ensures SameLinks(mid, mid[e := mid[e].(dirty := true)])
  {
  }

  lemma {:induction false} AdoptMark(nodes: Nodes, mid: Nodes, nodes': Nodes, e: EntityRef)
    requires e !in nodes && SameData(nodes[e := FRESH], mid) && Up(mid) == Up(nodes)[e := NULL]
    requires e in mid && nodes' == mid[e := mid[e].(dirty := true)]
    ensures SameLinks(mid, nodes') && Grown(nodes, nodes', e)
  {
    MarkedLinks(mid, e);
    SameUp(mid, nodes');
    FreshData();
    DirtyData(mid[e]);
    hide Up, Data, SameLinks;
    assert Data(mid[e]) == Data(nodes[e := FRESH][e]);
    forall n | n in nodes ensures Data(nodes'[n]) == Data(nodes[n]) {
      assert nodes[e := FRESH][n] == nodes[n] && nodes'[n] == mid[n];
      assert Data(mid[n]) == Data(nodes[e := FRESH][n]);
    }
  }

  lemma {:induction false} FreshData()
    ensures Data(FRESH) == FRESH
  {
  }

  lemma {:induction false} GrownFields(nodes: Nodes, nodes': Nodes, e: EntityRef)
    requires Grown(nodes, nodes', e)
    ensures forall n | n in nodes :: nodes'[n].parent == nodes[n].parent && SameRest(nodes[n], nodes'[n])
    ensures nodes'[e].parent == NULL && SameRest(FRESH.(dirty := true), nodes'[e])
  {
    forall n | n in nodes ensures nodes'[n].parent == nodes[n].parent && SameRest(nodes[n], nodes'[n]) {
      assert n in Up(nodes') && Up(nodes')[n] == nodes'[n].parent && n in Up(nodes) && Up(nodes)[n] == nodes[n].parent;
      DataFields(nodes[n], nodes'[n]);
    }
    assert e in Up(nodes') && Up(nodes')[e] == nodes'[e].parent;
    assert Data(FRESH.(dirty := true)) == FRESH.(dirty := true);
    DataFields(FRESH.(dirty := true), nodes'[e]);
  }

  ghost predicate SameRest(n: Node, m: Node) {
    && m.order == n.order && m.dormantDepth == n.dormantDepth && m.deactivated == n.deactivated
    && m.dirty == n.dirty && m.dirtyBelow == n.dirtyBelow && m.saved == n.saved
  }

  lemma {:induction false} AdoptCounts(nodes: Nodes, nodes': Nodes, any: bool, e: EntityRef)
    requires Grown(nodes, nodes', e) && e != NULL && DepthsOk(nodes) && MarksOk(nodes, any)
    ensures DepthsOk(nodes') && MarksOk(nodes', true)
  {
    GrownFields(nodes, nodes', e);
    GrownKeys(nodes, nodes', e);
    hide Up, Data, Grown;
    assert Closed(nodes');
    forall n | n in nodes' ensures DepthAt(nodes', n) && MarkAt(nodes', true, n) {
      if n != e {
        assert DepthAt(nodes, n) && MarkAt(nodes, any, n);
      }
    }
  }

  lemma {:induction false} AdoptData(s: Space, nodes: Nodes, nodes': Nodes, any: bool, locals: Locals, worlds: Worlds, e: EntityRef)
    requires Grown(nodes, nodes', e) && e != NULL && DepthsOk(nodes) && MarksOk(nodes, any) && WorldsOk(s, nodes, locals, worlds)
    ensures DepthsOk(nodes') && MarksOk(nodes', true) && WorldsOk(s, nodes', locals[e := s.fresh_], worlds[e := s.blank])
  {
    AdoptCounts(nodes, nodes', any, e);
    GrownFields(nodes, nodes', e);
    GrownKeys(nodes, nodes', e);
    hide Up, Data, Grown, MarkAt, DepthAt;
    var locals', worlds' := locals[e := s.fresh_], worlds[e := s.blank];
    forall n | n in nodes' && !nodes'[n].dirty ensures Composed(s, nodes', locals', worlds', n) {
      assert Composed(s, nodes, locals, worlds, n);
    }
  }

  lemma {:induction false} AdoptColumns(pools: seq<Pool>, base: nat, e: EntityRef, n: EntityRef)
    requires base + 3 <= |pools| && n != e
    ensures ColumnOf(Emplaced(Emplaced(Emplaced(pools, base, e), base + 1, e), base + 2, e), n) == ColumnOf(pools, n)
  {
  }

  lemma {:induction false} AdoptOwned(alive: set<EntityRef>, nodes: Nodes, pools: seq<Pool>, nodes': Nodes, base: nat, count: nat, e: EntityRef)
    requires Owned(alive, nodes, pools, base, count) && e in alive && e !in nodes && nodes'.Keys == nodes.Keys + {e}
    ensures Owned(alive, nodes', Emplaced(Emplaced(Emplaced(pools, base, e), base + 1, e), base + 2, e), base, count + 1)
  {
    assert |nodes'| == |nodes'.Keys| && |nodes| == |nodes.Keys|;
  }

  lemma {:induction false} GrownKeys(nodes: Nodes, nodes': Nodes, e: EntityRef)
    requires Grown(nodes, nodes', e)
    ensures e !in nodes && nodes'.Keys == nodes.Keys + {e}
  {
  }

  lemma {:induction false} AdoptPools(alive: set<EntityRef>, nodes: Nodes, pools: seq<Pool>, nodes': Nodes, pools': seq<Pool>, base: nat, count: nat, e: EntityRef)
    requires Owned(alive, nodes, pools, base, count) && Grown(nodes, nodes', e) && ActivityOk(nodes, pools) && e in alive && base + 3 <= |pools|
    requires pools' == Emplaced(Emplaced(Emplaced(pools, base, e), base + 1, e), base + 2, e)
    ensures Owned(alive, nodes', pools', base, count + 1) && ActivityOk(nodes', pools') && SameIntents(nodes, pools, nodes', pools')
  {
    hide Up, Data, Grown, Emplaced, Owned, ColumnOf, Restored;
    GrownFields(nodes, nodes', e);
    GrownKeys(nodes, nodes', e);
    AdoptOwned(alive, nodes, pools, nodes', base, count, e);
    forall n | n in nodes ensures ActivityAt(nodes', pools', n) && Intent(nodes', pools', n) == Intent(nodes, pools, n) {
      AdoptColumns(pools, base, e, n);
      assert ActivityAt(nodes, pools, n);
    }
  }

  lemma {:induction false} FineIsAlive(iterating: nat, alive: set<EntityRef>, pending: set<EntityRef>, e: EntityRef)
    ensures EmplaceOutcome(iterating, alive, pending, e) == Fine <==> iterating == 0 && e in alive
  {
  }

  lemma {:induction false} SameDataKeys(nodes: Nodes, nodes': Nodes)
    requires SameData(nodes, nodes')
    ensures nodes'.Keys == nodes.Keys
  {
  }

  lemma {:induction false} AdoptStart(iterating: nat, alive: set<EntityRef>, pending: set<EntityRef>, nodes: Nodes, pools: seq<Pool>,
                                      firstRoot: EntityRef, lastRoot: EntityRef, kids: Kids, base: nat, count: nat, e: EntityRef)
    requires Tree(nodes, firstRoot, lastRoot, kids) && e !in nodes && Owned(alive, nodes, pools, base, count)
    requires EmplaceOutcome(iterating, alive, pending, e) == Fine
    ensures e in alive && Acyclic(Up(nodes)) && base + 3 <= |pools| && Linked(nodes[e := FRESH], firstRoot, lastRoot, kids[e := []], {e}) && NULL in kids
  {
    TreeShape(nodes, firstRoot, lastRoot, kids);
    hide Tree, Linked, Acyclic, Up;
    AddKeepsLinks0(nodes, firstRoot, lastRoot, kids, e);
  }

  /** All that held before an adoption holds after it. */
  lemma {:induction false} AdoptKeeps(s: Space, nodes: Nodes, pools: seq<Pool>, mid: Nodes, nodes': Nodes, alive: set<EntityRef>,
                                      firstRoot: EntityRef, lastRoot: EntityRef, kids: Kids, kids': Kids, locals: Locals, worlds: Worlds,
                                      any: bool, base: nat, count: nat, e: EntityRef)
    requires Acyclic(Up(nodes)) && Owned(alive, nodes, pools, base, count) && e !in nodes && e in alive && NULL in kids && base + 3 <= |pools|
    requires DepthsOk(nodes) && MarksOk(nodes, any) && WorldsOk(s, nodes, locals, worlds) && ActivityOk(nodes, pools)
    requires Linked(mid, firstRoot, lastRoot, kids', {}) && Up(mid) == Up(nodes[e := FRESH])[e := NULL] && SameData(nodes[e := FRESH], mid)
    requires kids' == AppendedKids(kids[e := []], e, NULL) && e in mid && nodes' == mid[e := mid[e].(dirty := true)]
    ensures Tree(nodes', firstRoot, lastRoot, kids') && Grown(nodes, nodes', e) && kids' == GrownKids(kids, e) && OrderOk(nodes', kids', true)
    ensures DepthsOk(nodes') && MarksOk(nodes', true) && WorldsOk(s, nodes', locals[e := s.fresh_], worlds[e := s.blank])
    ensures var pools' := Emplaced(Emplaced(Emplaced(pools, base, e), base + 1, e), base + 2, e);
            Owned(alive, nodes', pools', base, count + 1) && ActivityOk(nodes', pools') && SameIntents(nodes, pools, nodes', pools')
  {
    hide *;
    OwnedParts(alive, nodes, pools, base, count);
    UpKeys(nodes);
    AdoptLinks(nodes, mid, nodes', firstRoot, lastRoot, kids, kids', e);
    AdoptData(s, nodes, nodes', any, locals, worlds, e);
    AdoptPools(alive, nodes, pools, nodes', Emplaced(Emplaced(Emplaced(pools, base, e), base + 1, e), base + 2, e), base, count, e);
  }

  // ---- moving a subtree -----------------------------------------------------------------------------

  /** The move as seen from outside: the parent map, the child lists, the scope flags, and the order
      of everyone outside the moved subtree. */
  ghost predicate Moved(nodes: Nodes, kids: Kids, nodes': Nodes, kids': Kids, child: EntityRef, p: EntityRef) {
    && Acyclic(Up(nodes)) && KidsMatch(Up(nodes), kids, {}) && Acyclic(Up(nodes')) && KidsMatch(Up(nodes'), kids', {})
    && Up(nodes') == Up(nodes)[child := p] && p in kids && kids' == AppendedKids(Cut(kids, child), child, p)
    && SameFlags(nodes, nodes')
    && Outside(AllPre(Up(nodes'), kids'), Subtree(Up(nodes), child)) == Outside(AllPre(Up(nodes), kids), Subtree(Up(nodes), child))
  }

  ghost predicate SameFlags(nodes: Nodes, nodes': Nodes) {
    nodes'.Keys == nodes.Keys && forall n | n in nodes :: nodes'[n].deactivated == nodes[n].deactivated
  }

  lemma {:induction false} SameIntentsSelf(nodes: Nodes, pools: seq<Pool>)
    ensures SameIntents(nodes, pools, nodes, pools)
  {
  }

  lemma {:induction false} MoveStart(nodes: Nodes, firstRoot: EntityRef, lastRoot: EntityRef, kids: Kids, child: EntityRef, p: EntityRef)
    requires Tree(nodes, firstRoot, lastRoot, kids) && child in nodes && (p == NULL || p in nodes)
    ensures Linked(nodes, firstRoot, lastRoot, kids, {}) && kids.Keys == nodes.Keys + {NULL} && p in kids && p in Cut(kids, child)
    ensures nodes[child].parent == NULL || nodes[child].parent in nodes
  {
    TreeShape(nodes, firstRoot, lastRoot, kids);
  }

  lemma {:induction false} SameDataFields(nodes: Nodes, nodes': Nodes)
    requires SameData(nodes, nodes')
    ensures nodes'.Keys == nodes.Keys && forall n | n in nodes :: SameRest(nodes[n], nodes'[n])
  {
    forall n | n in nodes ensures SameRest(nodes[n], nodes'[n]) {
      DataFields(nodes[n], nodes'[n]);
    }
  }

  lemma {:induction false} SameDataTwice(nodes: Nodes, nodes1: Nodes, nodes2: Nodes)
    requires SameData(nodes, nodes1) && SameData(nodes1, nodes2)
    ensures SameData(nodes, nodes2)
  {
  }

  lemma {:induction false} SameRestKeeps(nodes: Nodes, nodes': Nodes, pools: seq<Pool>)
    requires nodes'.Keys == nodes.Keys && forall n | n in nodes :: SameRest(nodes[n], nodes'[n])
    ensures ActivityOk(nodes, pools) ==> ActivityOk(nodes', pools)
    ensures SameIntents(nodes, pools, nodes', pools) && SameFlags(nodes, nodes')
  {
    hide ColumnOf, Intended;
    if ActivityOk(nodes, pools) {
      forall n | n in nodes' ensures ActivityAt(nodes', pools, n) {
        assert ActivityAt(nodes, pools, n);
      }
    }
  }

  /** After the link surgery: the counts below child are off by the difference of the covers, and
      child's mark and matrix are owed. */
  lemma {:induction false} MoveLinked(s: Space, nodes: Nodes, cut: Nodes, linked: Nodes, pools: seq<Pool>, firstRoot: EntityRef, lastRoot: EntityRef,
                                      kids: Kids, kids': Kids, locals: Locals, worlds: Worlds, any: bool, c: EntityRef, p: EntityRef)
    requires Acyclic(Up(nodes)) && KidsMatch(Up(nodes), kids, {}) && Up(nodes).Keys == nodes.Keys && c in nodes && p in kids
    requires p == NULL || (p in nodes && !Under(Up(nodes), c, p))
    requires Linked(linked, firstRoot, lastRoot, kids', {}) && kids' == AppendedKids(Cut(kids, c), c, p)
    requires SameData(nodes, cut) && SameData(cut, linked) && Up(cut) == Up(nodes)[c := NULL] && Up(linked) == Up(cut)[c := p]
    requires DepthsOk(nodes) && ActivityOk(nodes, pools) && MarksOk(nodes, any) && WorldsOk(s, nodes, locals, worlds)
    requires nodes[c].parent == NULL || nodes[c].parent in nodes
    ensures Tree(linked, firstRoot, lastRoot, kids') && linked.Keys == nodes.Keys && Acyclic(Up(linked)) && Moved(nodes, kids, linked, kids', c, p)
    ensures DepthsOkBut(linked, c, Cover(nodes, p) - Cover(nodes, nodes[c].parent)) && ActivityOk(linked, pools)
    ensures MarksOkBut(linked, any, {c}) && WorldsOkBut(s, linked, locals, worlds, c) && SameIntents(nodes, pools, linked, pools)
    ensures forall n | n in linked :: |linked[n].saved| % 2 == 0
  {
    hide *;
    assert Up(linked) == Up(nodes)[c := p];
    MovedAcyclic(Up(nodes), c, p);
    SameDataTwice(nodes, cut, linked);
    TreeFrom(linked, firstRoot, lastRoot, kids');
    TreeShape(linked, firstRoot, lastRoot, kids');
    MovedDepths(nodes, linked, c, p);
    MovedMarks(nodes, linked, any, c, p);
    MovedWorlds(s, nodes, linked, locals, worlds, c, p);
    SameDataFields(nodes, linked);
    SameRestKeeps(nodes, linked, pools);
    EvenSaved(linked, pools);
    CutAppended(kids, c, p);
    MovedOrder(Up(nodes), kids, c, p, kids');
    MovedFrom(nodes, kids, linked, kids', c, p);
  }

  lemma {:induction false} MovedFrom(nodes: Nodes, kids: Kids, nodes': Nodes, kids': Kids, child: EntityRef, p: EntityRef)
    requires Acyclic(Up(nodes)) && KidsMatch(Up(nodes), kids, {}) && Acyclic(Up(nodes')) && KidsMatch(Up(nodes'), kids', {})
    requires Up(nodes') == Up(nodes)[child := p] && p in kids && kids' == AppendedKids(Cut(kids, child), child, p) && SameFlags(nodes, nodes')
    requires Outside(AllPre(Up(nodes'), kids'), Subtree(Up(nodes), child)) == Outside(AllPre(Up(nodes), kids), Subtree(Up(nodes), child))
    ensures Moved(nodes, kids, nodes', kids', child, p)
  {
  }

  lemma {:induction false} ShiftByNone(nodes: Nodes, pools: seq<Pool>, done: set<EntityRef>)
    requires done <= nodes.Keys
    ensures ShiftedRows(nodes, pools, nodes, pools, done, 0)
  {
  }

  lemma {:induction false} SubtreeKnown(nodes: Nodes, c: EntityRef)
    requires Acyclic(Up(nodes))
    ensures Subtree(Up(nodes), c) <= nodes.Keys
  {
  }

  lemma {:induction false} MoveShifted(s: Space, linked: Nodes, was: seq<Pool>, nodes: Nodes, pools: seq<Pool>, firstRoot: EntityRef, lastRoot: EntityRef,
                                       kids: Kids, locals: Locals, worlds: Worlds, any: bool, c: EntityRef, delta: int)
    requires Tree(linked, firstRoot, lastRoot, kids) && Acyclic(Up(linked)) && DepthsOkBut(linked, c, delta) && ActivityOk(linked, was)
    requires MarksOkBut(linked, any, {c}) && WorldsOkBut(s, linked, locals, worlds, c)
    requires ShiftedRows(linked, was, nodes, pools, Subtree(Up(linked), c), delta)
    ensures Tree(nodes, firstRoot, lastRoot, kids) && Up(nodes) == Up(linked) && DepthsOk(nodes) && ActivityOk(nodes, pools)
    ensures MarksOkBut(nodes, any, {c}) && WorldsOkBut(s, nodes, locals, worlds, c) && SameIntents(linked, was, nodes, pools)
    ensures nodes.Keys == linked.Keys && SameFlags(linked, nodes)
    ensures |pools| == |was| && forall i | 0 <= i < |was| :: pools[i].Keys == was[i].Keys
  {
    hide *;
    SubtreeShifted(linked, was, nodes, pools, c, delta);
    SameLinksTree(linked, nodes, firstRoot, lastRoot, kids);
    SameMarksKeeps(s, linked, nodes, any, locals, worlds, {c}, c);
    ShiftRepairs(linked, nodes, c, delta);
    ShiftKeepsActivity(linked, was, nodes, pools, Subtree(Up(linked), c), delta);
    ShiftedKeys(linked, was, nodes, pools, Subtree(Up(linked), c), delta);
    ShiftedFlags(linked, nodes, c, delta);
  }

  lemma {:induction false} ShiftedFlags(nodes: Nodes, nodes': Nodes, c: EntityRef, delta: int)
    requires Acyclic(Up(nodes)) && Shifted(nodes, nodes', c, delta)
    ensures SameFlags(nodes, nodes')
  {
  }

  lemma {:induction false} MoveMarked(s: Space, shifted: Nodes, nodes: Nodes, pools: seq<Pool>, firstRoot: EntityRef, lastRoot: EntityRef,
                                      kids: Kids, locals: Locals, worlds: Worlds, c: EntityRef)
    requires Tree(shifted, firstRoot, lastRoot, kids) && DepthsOk(shifted) && ActivityOk(shifted, pools) && WorldsOkBut(s, shifted, locals, worlds, c)
    requires Acyclic(Up(shifted)) && MoreMarked(shifted, nodes, c) && c in shifted
    ensures Tree(nodes, firstRoot, lastRoot, kids) && Up(nodes) == Up(shifted) && DepthsOk(nodes) && ActivityOk(nodes, pools) && WorldsOk(s, nodes, locals, worlds)
    ensures SameIntents(shifted, pools, nodes, pools) && nodes.Keys == shifted.Keys && SameFlags(shifted, nodes)
  {
    hide *;
    MarkedKeeps(s, shifted, nodes, locals, worlds, c);
    SameLinksTree(shifted, nodes, firstRoot, lastRoot, kids);
    MarkedActivity(shifted, nodes, pools, c);
  }

  lemma {:induction false} MarkedActivity(nodes: Nodes, nodes': Nodes, pools: seq<Pool>, c: EntityRef)
    requires Acyclic(Up(nodes)) && MoreMarked(nodes, nodes', c) && ActivityOk(nodes, pools)
    ensures ActivityOk(nodes', pools) && SameIntents(nodes, pools, nodes', pools) && SameFlags(nodes, nodes') && nodes'.Keys == nodes.Keys
  {
    hide ColumnOf, Intended, Acyclic, Up;
    forall n | n in nodes' ensures ActivityAt(nodes', pools, n) {
      assert ActivityAt(nodes, pools, n);
    }
  }

  lemma {:induction false} SettleDone(linked: Nodes, was: seq<Pool>, shifted: Nodes, nodes: Nodes, pools: seq<Pool>)
    requires SameIntents(linked, was, shifted, pools) && SameIntents(shifted, pools, nodes, pools) && linked.Keys == shifted.Keys == nodes.Keys
    requires SameFlags(linked, shifted) && SameFlags(shifted, nodes)
    ensures SameIntents(linked, was, nodes, pools) && SameFlags(linked, nodes)
  {
    hide Intent;
    IntentsCompose(linked, was, shifted, pools, nodes, pools);
  }

  lemma {:induction false} MovedSame(nodes: Nodes, kids: Kids, linked: Nodes, nodes': Nodes, kids': Kids, c: EntityRef, p: EntityRef)
    requires Moved(nodes, kids, linked, kids', c, p) && Up(nodes') == Up(linked) && SameFlags(linked, nodes')
    ensures Moved(nodes, kids, nodes', kids', c, p) && Acyclic(Up(nodes')) && KidsMatch(Up(nodes'), kids', {})
  {
    hide Acyclic, KidsMatch, Up, AllPre, Outside, Subtree, Cut, AppendedKids;
  }

  lemma {:induction false} MoveDone(start: Nodes, was: seq<Pool>, kids: Kids, linked: Nodes, nodes: Nodes, pools: seq<Pool>, kids': Kids,
                                    alive: set<EntityRef>, base: nat, count: nat, c: EntityRef, p: EntityRef)
    requires Moved(start, kids, linked, kids', c, p) && SameIntents(start, was, linked, was) && SameIntents(linked, was, nodes, pools)
    requires SameFlags(linked, nodes) && start.Keys == linked.Keys == nodes.Keys && Up(nodes) == Up(linked)
    requires Owned(alive, start, was, base, count) && |pools| == |was| && forall i | 0 <= i < |was| :: pools[i].Keys == was[i].Keys
    ensures Moved(start, kids, nodes, kids', c, p) && SameIntents(start, was, nodes, pools) && Owned(alive, nodes, pools, base, count)
    ensures OrderOk(nodes, kids', true)
  {
    hide *;
    OwnedSame(alive, start, was, nodes, pools, base, count);
    MovedSame(start, kids, linked, nodes, kids', c, p);
    IntentsCompose(start, was, linked, was, nodes, pools);
    OrderFrom(nodes, kids', true);
  }

  // ---- strangers ------------------------------------------------------------------------------------

  /** The parent map with e added as a root unless it is there (or null). */
  ghost function WithRoot(up: Parents, e: EntityRef): Parents {
    if e == NULL || e in up then up else up[e := NULL]
  }

  ghost function WithRootKids(kids: Kids, e: EntityRef): Kids
    requires NULL in kids
  {
    if e in kids then kids else GrownKids(kids, e)
  }

  /** Before an adoption: what it will find, and that nothing to adopt is nothing to do. */
  lemma {:induction false} StrangerIs(alive: set<EntityRef>, pending: set<EntityRef>, nodes: Nodes, pools: seq<Pool>, firstRoot: EntityRef, lastRoot: EntityRef,
                                      kids: Kids, base: nat, count: nat, e: EntityRef)
    requires Tree(nodes, firstRoot, lastRoot, kids) && Owned(alive, nodes, pools, base, count) && e in alive
    ensures EmplaceOutcome(0, alive, pending, e) == Fine && NULL in kids && e != NULL && SameIntents(nodes, pools, nodes, pools)
    ensures e in nodes ==> WithRoot(Up(nodes), e) == Up(nodes) && WithRootKids(kids, e) == kids && nodes.Keys == nodes.Keys + {e}
    ensures e !in nodes ==> WithRoot(Up(nodes), e) == Up(nodes)[e := NULL] && WithRootKids(kids, e) == GrownKids(kids, e)
  {
    hide *;
    TreeShape(nodes, firstRoot, lastRoot, kids);
    OwnedParts(alive, nodes, pools, base, count);
    SameIntentsSelf(nodes, pools);
    FineIsAlive(0, alive, pending, e);
    StrangerMaps(Up(nodes), kids, e);
    if e in nodes {
      assert nodes.Keys + {e} == nodes.Keys;
    }
  }

  lemma {:induction false} StrangerMaps(up: Parents, kids: Kids, e: EntityRef)
    requires kids.Keys == up.Keys + {NULL} && e != NULL
    ensures e in up ==> WithRoot(up, e) == up && WithRootKids(kids, e) == kids
    ensures e !in up ==> WithRoot(up, e) == up[e := NULL] && WithRootKids(kids, e) == GrownKids(kids, e)
  {
  }

  lemma {:induction false} GrownIs(nodes: Nodes, nodes': Nodes, e: EntityRef)
    requires Grown(nodes, nodes', e)
    ensures e in nodes' && nodes'.Keys == nodes.Keys + {e} && Up(nodes') == Up(nodes)[e := NULL]
  {
  }

  lemma {:induction false} NullIsThere(up: Parents, kids: Kids)
    ensures WithRoot(up, NULL) == up && (NULL in kids ==> WithRootKids(kids, NULL) == kids)
  {
  }

  // ---- writes that leave the tree's shape ---------------------------------------------------------

  /** A row write from outside: one existing row's bit. */
  lemma {:induction false} RowWritten(nodes: Nodes, pools: seq<Pool>, alive: set<EntityRef>, base: nat, count: nat, i: nat, e: EntityRef, b: bool)
    requires ActivityOk(nodes, pools) && Owned(alive, nodes, pools, base, count) && i < |pools| && e in pools[i]
    ensures var pools' := pools[i := pools[i][e := b]];
            ActivityOk(nodes, pools') && Owned(alive, nodes, pools', base, count) && OthersKept(pools, pools', e)
            && ColumnOf(pools', e) == ColumnOf(pools, e)[i := RowOf(b)]
    ensures e in nodes ==> Intent(nodes, pools[i := pools[i][e := b]], e) ==
                           if SavedBit(nodes[e].saved, i, 0) then Intent(nodes, pools, e) else Intent(nodes, pools, e)[i := RowOf(b)]
  {
    var pools' := pools[i := pools[i][e := b]];
    if e in nodes {
      assert ColumnOf(pools, e)[i] != Absent;
      WrittenIntent(nodes[e].saved, ColumnOf(pools, e), i, b);
    }
    KeptAtStart(pools, e);
    OneBit(pools, pools, e, i, b);
    OwnedSame(alive, nodes, pools, nodes, pools', base, count);
    hide Owned, OthersKept, ColumnOf;
    forall n | n in nodes ensures ActivityAt(nodes, pools', n) {
      assert ActivityAt(nodes, pools, n);
      if n != e {
        OtherColumns(pools, pools', e, n);
      }
    }
  }

  /** The bit a written row will have awake: the captured one if there is one, else the written one. */
  lemma {:induction false} WrittenIntent(saved: seq<Word>, col: Column, i: nat, b: bool)
    requires i < |col| && col[i] != Absent
    ensures Intended(saved, col[i := RowOf(b)]) == if SavedBit(saved, i, 0) then Intended(saved, col) else Intended(saved, col)[i := RowOf(b)]
  {
    var col' := col[i := RowOf(b)];
    var want := if SavedBit(saved, i, 0) then Intended(saved, col) else Intended(saved, col)[i := RowOf(b)];
    forall j | 0 <= j < |col| ensures Intended(saved, col')[j] == want[j] {
    }
  }

  /** A row from outside in a pool that is not the tree's own. */
  lemma {:induction false} RowAdded(nodes: Nodes, pools: seq<Pool>, alive: set<EntityRef>, base: nat, count: nat, i: nat, e: EntityRef, b: bool)
    requires ActivityOk(nodes, pools) && Owned(alive, nodes, pools, base, count) && i < |pools| && e !in pools[i] && e in alive
    requires i < base || base + 3 <= i
    ensures var pools' := pools[i := pools[i][e := b]];
            ActivityOk(nodes, pools') && Owned(alive, nodes, pools', base, count) && SameIntentsBut(nodes, pools, nodes, pools', e)
    ensures e in nodes ==> Intent(nodes, pools[i := pools[i][e := b]], e) == Intent(nodes, pools, e)[i := RowOf(b)]
  {
    var pools' := pools[i := pools[i][e := b]];
    AddedColumn(pools, e, i, b);
    hide ColumnOf;
    forall n | n in nodes ensures ActivityAt(nodes, pools', n) && Intent(nodes, pools', n) == if n == e then Intent(nodes, pools, n)[i := RowOf(b)] else Intent(nodes, pools, n) {
      assert ActivityAt(nodes, pools, n);
      if n == e {
        AddedIntent(nodes[n].saved, ColumnOf(pools, n), i, b);
      } else {
        AddedOther(pools, e, i, b, n);
      }
    }
  }

  /** A row from outside in one of the tree's own pools belongs to no node. */
  lemma {:induction false} StrayRow(nodes: Nodes, pools: seq<Pool>, alive: set<EntityRef>, base: nat, count: nat, i: nat, e: EntityRef, b: bool)
    requires Owned(alive, nodes, pools, base, count) && i < |pools| && e !in pools[i] && base <= i < base + 3
    ensures !Owned(alive, nodes, pools[i := pools[i][e := b]], base, count)
  {
    assert e in pools[i := pools[i][e := b]][i] && e !in nodes;
  }

  lemma {:induction false} AddedColumn(pools: seq<Pool>, e: EntityRef, i: nat, b: bool)
    requires i < |pools| && e !in pools[i]
    ensures ColumnOf(pools[i := pools[i][e := b]], e) == ColumnOf(pools, e)[i := RowOf(b)] && ColumnOf(pools, e)[i] == Absent
  {
  }

  lemma {:induction false} AddedOther(pools: seq<Pool>, e: EntityRef, i: nat, b: bool, n: EntityRef)
    requires i < |pools| && e != n
    ensures ColumnOf(pools[i := pools[i][e := b]], n) == ColumnOf(pools, n)
  {
  }

  lemma {:induction false} AddedIntent(saved: seq<Word>, col: Column, i: nat, b: bool)
    requires i < |col| && col[i] == Absent && RowsKept(saved, col)
    ensures RowsKept(saved, col[i := RowOf(b)]) && Intended(saved, col[i := RowOf(b)]) == Intended(saved, col)[i := RowOf(b)]
  {
    var col' := col[i := RowOf(b)];
    forall j | 0 <= j < |col| ensures Intended(saved, col')[j] == Intended(saved, col)[i := RowOf(b)][j] {
    }
  }

  ghost predicate SameIntentsBut(nodes: Nodes, pools: seq<Pool>, nodes': Nodes, pools': seq<Pool>, e: EntityRef) {
    forall n | n in nodes && n in nodes' && n != e :: Intent(nodes', pools', n) == Intent(nodes, pools, n)
  }

  lemma {:induction false} SameIntentsButSelf(nodes: Nodes, pools: seq<Pool>, e: EntityRef)
    ensures SameIntentsBut(nodes, pools, nodes, pools, e)
  {
  }

  /** A pool registered later starts empty. */
  lemma {:induction false} PoolAdded(nodes: Nodes, pools: seq<Pool>, alive: set<EntityRef>, base: nat, count: nat)
    requires ActivityOk(nodes, pools) && Owned(alive, nodes, pools, base, count)
    ensures ActivityOk(nodes, pools + [map[]]) && Owned(alive, nodes, pools + [map[]], base, count)
    ensures forall n | n in nodes :: Intent(nodes, pools + [map[]], n) == Intent(nodes, pools, n) + [Absent]
  {
    forall n | n in nodes ensures ActivityAt(nodes, pools + [map[]], n) && Intent(nodes, pools + [map[]], n) == Intent(nodes, pools, n) + [Absent] {
      assert ActivityAt(nodes, pools, n);
      assert ColumnOf(pools + [map[]], n) == ColumnOf(pools, n) + [Absent];
    }
  }

  // ---- the remaining operations -------------------------------------------------------------------------

  lemma {:induction false} MarkedScopes(nodes: Nodes, nodes': Nodes, e: EntityRef)
    requires Acyclic(Up(nodes)) && MoreMarked(nodes, nodes', e)
    ensures SameScopes(nodes, nodes') && SameOrders(nodes, nodes') && SameLinks(nodes, nodes') && nodes'.Keys == nodes.Keys
  {
    hide Acyclic, Up, Under;
  }

  lemma {:induction false} FlagsScopes(nodes: Nodes, nodes': Nodes)
    requires SameButFlags(nodes, nodes')
    ensures SameScopes(nodes, nodes') && SameOrders(nodes, nodes') && SameLinks(nodes, nodes') && nodes'.Keys == nodes.Keys
  {
  }

  lemma {:induction false} OrderScopes(nodes: Nodes, nodes': Nodes)
    requires SameButOrder(nodes, nodes')
    ensures SameScopes(nodes, nodes') && SameMarks(nodes, nodes') && nodes'.Keys == nodes.Keys
  {
  }

  lemma {:induction false} OwnedKeys(alive: set<EntityRef>, nodes: Nodes, pools: seq<Pool>, nodes': Nodes, base: nat, count: nat)
    requires Owned(alive, nodes, pools, base, count) && nodes'.Keys == nodes.Keys
    ensures Owned(alive, nodes', pools, base, count)
  {
    hide Owned;
    OwnedSame(alive, nodes, pools, nodes', pools, base, count);
  }

  const NOBODY: Nodes := map[]

  /** A world before the tree has any node. */
  lemma {:induction false} EmptyValid(s: Space, alive: set<EntityRef>, pools: seq<Pool>, base: nat)
    requires base == |pools| && NULL !in alive && forall i | 0 <= i < |pools| :: pools[i].Keys <= alive
    ensures Tree(NOBODY, NULL, NULL, map[NULL := []]) && OrderOk(NOBODY, map[NULL := []], false) && Owned(alive, NOBODY, pools + [map[], map[], map[]], base, 0)
    ensures DepthsOk(NOBODY) && ActivityOk(NOBODY, pools + [map[], map[], map[]]) && MarksOk(NOBODY, false) && WorldsOk(s, NOBODY, map[], map[])
  {
    EmptyTree();
    EmptyOrder();
    hide Tree, OrderOk;
    assert Closed(NOBODY);
  }

  lemma {:induction false} EmptyTree()
    ensures Tree(NOBODY, NULL, NULL, map[NULL := []])
  {
    assert Ranked(Up(NOBODY), Ranking(map[], 0));
    assert EndAt(NOBODY, NULL, NULL, map[NULL := []], NULL);
  }

  lemma {:induction false} EmptyOrder()
    ensures OrderOk(NOBODY, map[NULL := []], false)
  {
    hide *;
    EmptyTree();
    TreeShape(NOBODY, NULL, NULL, map[NULL := []]);
    EmptyOrdered();
    OrderFrom(NOBODY, map[NULL := []], false);
  }

  lemma {:induction false} EmptyOrdered()
    requires Acyclic(Up(NOBODY)) && KidsMatch(Up(NOBODY), map[NULL := []], {})
    ensures Ordered(NOBODY, AllPre(Up(NOBODY), map[NULL := []]))
  {
  }
}
