/** Removing a subtree: what a cascade of despawns takes away, and what it leaves as it was. */
module TreePrune {
  import opened Forest
  import opened ForestOrder
  import opened TreeLinks
  import opened TreeState
  import opened TreeDormancy
  import opened TreeValid
  import opened BitWords
  import opened Activity

  /** The nodes outside `gone` with their data, and every list without `gone`, in order. */
  ghost predicate PrunedTree(nodes: Nodes, kids: Kids, nodes': Nodes, kids': Kids, gone: set<EntityRef>) {
    && nodes'.Keys == nodes.Keys - gone && Up(nodes') == Up(nodes) - gone && kids' == KidsOutside(kids, gone)
    && forall n | n in nodes' :: Data(nodes'[n]) == Data(nodes[n])
  }

  /** Everything else an entity has. */
  datatype Rest = Rest(locals: Locals, worlds: Worlds, pools: seq<Pool>, alive: set<EntityRef>)

  ghost predicate PrunedRest(r: Rest, r': Rest, gone: set<EntityRef>) {
    && r'.locals == r.locals - gone && r'.worlds == r.worlds - gone && r'.alive == r.alive - gone
    && |r'.pools| == |r.pools| && forall i | 0 <= i < |r.pools| :: r'.pools[i] == r.pools[i] - gone
  }

  lemma {:induction false} PrunedRestTwice(r: Rest, r1: Rest, r2: Rest, a: set<EntityRef>, b: set<EntityRef>)
    requires PrunedRest(r, r1, a) && PrunedRest(r1, r2, b)
    ensures PrunedRest(r, r2, a + b)
  {
    forall i | 0 <= i < |r.pools| ensures r2.pools[i] == r.pools[i] - (a + b) {
      assert r1.pools[i] == r.pools[i] - a;
    }
  }

  lemma {:induction false} PrunedRestNone(r: Rest)
    ensures PrunedRest(r, r, {})
  {
    forall i | 0 <= i < |r.pools| ensures r.pools[i] == r.pools[i] - {} {
    }
  }

  lemma {:induction false} OutsideTwice(s: seq<EntityRef>, a: set<EntityRef>, b: set<EntityRef>)
    ensures Outside(Outside(s, a), b) == Outside(s, a + b)
  {
    if s != [] {
      OutsideTwice(s[1..], a, b);
      if s[0] !in a {
        var kept := [s[0]] + Outside(s[1..], a);
        assert kept[1..] == Outside(s[1..], a) && kept[0] == s[0];
      }
    }
  }

  lemma {:induction false} OutsideNone(s: seq<EntityRef>)
    ensures Outside(s, {}) == s
  {
    if s != [] {
      OutsideNone(s[1..]);
    }
  }

  lemma {:induction false} KidsTwice(kids: Kids, a: set<EntityRef>, b: set<EntityRef>)
    ensures KidsOutside(KidsOutside(kids, a), b) == KidsOutside(kids, a + b)
  {
    forall p | p in kids && p !in a + b ensures Outside(Outside(kids[p], a), b) == Outside(kids[p], a + b) {
      OutsideTwice(kids[p], a, b);
    }
  }

  lemma {:induction false} PrunedNone(nodes: Nodes, kids: Kids)
    ensures PrunedTree(nodes, kids, nodes, kids, {})
  {
    forall p | p in kids ensures Outside(kids[p], {}) == kids[p] {
      OutsideNone(kids[p]);
    }
    assert KidsOutside(kids, {}) == kids;
  }

  lemma {:induction false} PrunedTwice(nodes: Nodes, kids: Kids, nodes1: Nodes, kids1: Kids, nodes2: Nodes, kids2: Kids, a: set<EntityRef>, b: set<EntityRef>)
    requires PrunedTree(nodes, kids, nodes1, kids1, a) && PrunedTree(nodes1, kids1, nodes2, kids2, b)
    ensures PrunedTree(nodes, kids, nodes2, kids2, a + b)
  {
    KidsTwice(kids, a, b);
    hide KidsOutside, Data;
  }

  // ---- the cascade ------------------------------------------------------------------------------------

  /** Some children's subtrees of e are gone already. */
  ghost predicate Cascading(up: Parents, e: EntityRef, gone: set<EntityRef>)
    requires Acyclic(up)
  {
    e in up && gone <= Subtree(up, e) - {e} && ClosedDown(up, gone)
  }

  lemma {:induction false} CascadeStart(up: Parents, e: EntityRef)
    requires Acyclic(up) && e in up && NULL !in up
    ensures Cascading(up, e, {})
  {
  }

  /** Taking away one more child's subtree. */
  lemma {:induction false} CascadeStep(up: Parents, e: EntityRef, gone: set<EntityRef>, child: EntityRef)
    requires Acyclic(up) && Cascading(up, e, gone) && child in up && child !in gone && up[child] == e && NULL !in up
    ensures Acyclic(up - gone) && child in Subtree(up - gone, child) && Cascading(up, e, gone + Subtree(up - gone, child))
  {
    RemovedPath(up, gone);
    var up1 := up - gone;
    var more := Subtree(up1, child);
    UnderStep(up1, child, child);
    forall n | n in more ensures n in Subtree(up, e) && n != e {
      assert Path(up1, n) == Path(up, n);
      UnderStep(up, e, child);
      UnderStep(up, e, e);
      UnderTransitive(up, e, child, n);
      UnderInMap(up, child, n);
      UnderInMap(up, e, child);
    }
    SubtreeClosedDown(up1, child);
    forall n | n in up && up[n] in gone + more ensures n in gone + more {
      if n !in gone {
        assert up1[n] == up[n];
      }
    }
  }

  /** When e has no child left, its descendants are gone. */
  lemma {:induction false} CascadeEnd(up: Parents, kids: Kids, e: EntityRef, gone: set<EntityRef>)
    requires Acyclic(up) && KidsMatch(up, kids, {}) && Cascading(up, e, gone) && e in kids && Outside(kids[e], gone) == []
    ensures Subtree(up, e) == gone + {e}
  {
    UnderStep(up, e, e);
    forall n | n in Subtree(up, e) ensures n in gone + {e} {
      CascadeReaches(up, kids, e, gone, n);
    }
  }

  lemma {:induction false} CascadeReaches(up: Parents, kids: Kids, e: EntityRef, gone: set<EntityRef>, n: EntityRef)
    requires Acyclic(up) && KidsMatch(up, kids, {}) && Cascading(up, e, gone) && e in kids && Outside(kids[e], gone) == [] && Under(up, e, n)
    ensures n == e || n in gone
    decreases Rank(up, n)
  {
    if n != e {
      UnderStep(up, e, n);
      if up[n] == e {
        OutsideMembers(kids[e], gone);
        assert n in kids[up[n]];
      } else {
        CascadeReaches(up, kids, e, gone, up[n]);
      }
    }
  }

  lemma {:induction false} PrunedParts(nodes: Nodes, kids: Kids, nodes': Nodes, kids': Kids, gone: set<EntityRef>)
    requires PrunedTree(nodes, kids, nodes', kids', gone)
    ensures nodes'.Keys == nodes.Keys - gone && Up(nodes') == Up(nodes) - gone && kids' == KidsOutside(kids, gone)
    ensures Up(nodes).Keys == nodes.Keys
  {
  }

  /** The unlinked node's row still to be dropped is all that differs. */
  lemma {:induction false} UnlinkedPruned(nodes: Nodes, kids: Kids, nodes': Nodes, e: EntityRef)
    requires e in nodes && SameData(nodes, nodes') && Up(nodes') == Up(nodes)[e := NULL]
    ensures PrunedTree(nodes, kids, nodes' - {e}, Cut(kids, e) - {e}, {e})
  {
    var n2 := nodes' - {e};
    assert Up(n2) == Up(nodes') - {e};
    assert Up(n2) == Up(nodes) - {e};
    assert Cut(kids, e) - {e} == KidsOutside(kids, {e});
  }

  // ---- what a removal keeps -----------------------------------------------------------------------------

  lemma {:induction false} PrunedFields(nodes: Nodes, kids: Kids, nodes': Nodes, kids': Kids, gone: set<EntityRef>)
    requires PrunedTree(nodes, kids, nodes', kids', gone) && ClosedDown(Up(nodes), gone) && Closed(nodes)
    ensures Closed(nodes') && forall n | n in nodes' :: n in nodes && n !in gone && nodes'[n].parent == nodes[n].parent && SameRest(nodes[n], nodes'[n])
  {
    forall n | n in nodes' ensures nodes'[n].parent == nodes[n].parent && SameRest(nodes[n], nodes'[n]) {
      assert n in Up(nodes') && Up(nodes')[n] == nodes'[n].parent && n in Up(nodes) && Up(nodes)[n] == nodes[n].parent;
      DataFields(nodes[n], nodes'[n]);
    }
    forall n | n in nodes' ensures nodes'[n].parent == NULL || nodes'[n].parent in nodes' {
      assert n in Up(nodes) && Up(nodes)[n] == nodes[n].parent;
    }
  }

  lemma {:induction false} PrunedCounts(nodes: Nodes, kids: Kids, nodes': Nodes, kids': Kids, any: bool, gone: set<EntityRef>)
    requires PrunedTree(nodes, kids, nodes', kids', gone) && ClosedDown(Up(nodes), gone) && DepthsOk(nodes) && MarksOk(nodes, any)
    ensures DepthsOk(nodes') && MarksOk(nodes', any)
  {
    PrunedFields(nodes, kids, nodes', kids', gone);
    hide Up, PrunedTree, ClosedDown;
    forall n | n in nodes' ensures DepthAt(nodes', n) && MarkAt(nodes', any, n) {
      assert DepthAt(nodes, n) && MarkAt(nodes, any, n);
    }
  }

  lemma {:induction false} PrunedWorlds(s: Space, nodes: Nodes, kids: Kids, nodes': Nodes, kids': Kids, r: Rest, r': Rest, gone: set<EntityRef>)
    requires PrunedTree(nodes, kids, nodes', kids', gone) && ClosedDown(Up(nodes), gone) && PrunedRest(r, r', gone)
    requires WorldsOk(s, nodes, r.locals, r.worlds)
    ensures WorldsOk(s, nodes', r'.locals, r'.worlds)
  {
    PrunedFields(nodes, kids, nodes', kids', gone);
    PrunedKeys(nodes, kids, nodes', kids', r, r', gone);
    hide Up, PrunedTree, ClosedDown;
    forall n | n in nodes' && !nodes'[n].dirty ensures Composed(s, nodes', r'.locals, r'.worlds, n) {
      assert Composed(s, nodes, r.locals, r.worlds, n);
    }
  }

  lemma {:induction false} PrunedKeys(nodes: Nodes, kids: Kids, nodes': Nodes, kids': Kids, r: Rest, r': Rest, gone: set<EntityRef>)
    requires PrunedTree(nodes, kids, nodes', kids', gone) && PrunedRest(r, r', gone) && r.locals.Keys == nodes.Keys == r.worlds.Keys
    ensures r'.locals.Keys == nodes'.Keys == r'.worlds.Keys
  {
  }

  lemma {:induction false} PrunedColumn(r: Rest, r': Rest, gone: set<EntityRef>, n: EntityRef)
    requires PrunedRest(r, r', gone) && n !in gone
    ensures ColumnOf(r'.pools, n) == ColumnOf(r.pools, n)
  {
    forall i | 0 <= i < |r.pools| ensures ColumnOf(r'.pools, n)[i] == ColumnOf(r.pools, n)[i] {
      assert r'.pools[i] == r.pools[i] - gone;
    }
  }

  lemma {:induction false} PrunedActivity(nodes: Nodes, kids: Kids, nodes': Nodes, kids': Kids, r: Rest, r': Rest, gone: set<EntityRef>)
    requires PrunedTree(nodes, kids, nodes', kids', gone) && ClosedDown(Up(nodes), gone) && Closed(nodes) && PrunedRest(r, r', gone)
    requires ActivityOk(nodes, r.pools)
    ensures ActivityOk(nodes', r'.pools) && SameIntents(nodes, r.pools, nodes', r'.pools)
  {
    PrunedFields(nodes, kids, nodes', kids', gone);
    hide Up, PrunedTree, ClosedDown, PrunedRest, ColumnOf, Intended;
    forall n | n in nodes' ensures ActivityAt(nodes', r'.pools, n) && Intent(nodes', r'.pools, n) == Intent(nodes, r.pools, n) {
      assert ActivityAt(nodes, r.pools, n);
      PrunedColumn(r, r', gone, n);
    }
  }

  /** Dropping one entity's rows. */
  function Erased(pools: seq<Pool>, e: EntityRef): (r: seq<Pool>)
    ensures |r| == |pools|
  {
    seq(|pools|, i requires 0 <= i < |pools| => pools[i] - {e})
  }

  lemma {:induction false} ErasedRest(r: Rest, e: EntityRef)
    ensures PrunedRest(r, Rest(r.locals - {e}, r.worlds - {e}, Erased(r.pools, e), r.alive - {e}), {e})
  {
  }

  lemma {:induction false} ErasedOwned(alive: set<EntityRef>, nodes: Nodes, pools: seq<Pool>, base: nat, count: nat, e: EntityRef)
    requires Owned(alive, nodes, pools, base, count)
    ensures e in nodes ==> count > 0 && Owned(alive - {e}, nodes - {e}, Erased(pools, e), base, count - 1)
    ensures e !in nodes ==> Owned(alive - {e}, nodes, Erased(pools, e), base, count)
  {
    var nodes', pools' := nodes - {e}, Erased(pools, e);
    assert nodes'.Keys == nodes.Keys - {e};
    assert |nodes'| == |nodes'.Keys| && |nodes| == |nodes.Keys|;
    forall i | 0 <= i < |pools| ensures pools'[i].Keys == pools[i].Keys - {e} {
    }
  }

  /** The removal as seen from outside. */
  ghost predicate Removed(nodes: Nodes, kids: Kids, r: Rest, nodes': Nodes, kids': Kids, r': Rest, e: EntityRef)
    requires Acyclic(Up(nodes))
  {
    if e in nodes then
      PrunedTree(nodes, kids, nodes', kids', Subtree(Up(nodes), e)) && PrunedRest(r, r', Subtree(Up(nodes), e))
    else
      nodes' == nodes && kids' == kids && PrunedRest(r, r', {e})
  }

  lemma {:induction false} RemovedAlive(nodes: Nodes, kids: Kids, r: Rest, nodes': Nodes, kids': Kids, r': Rest, e: EntityRef)
    requires Acyclic(Up(nodes)) && Removed(nodes, kids, r, nodes', kids', r', e)
    ensures r'.alive <= r.alive
  {
  }

  /** The whole invariant survives a removal. */
  lemma {:induction false} RemovalKeeps(s: Space, nodes: Nodes, kids: Kids, r: Rest, nodes': Nodes, kids': Kids, r': Rest, any: bool, e: EntityRef)
    requires Acyclic(Up(nodes)) && KidsMatch(Up(nodes), kids, {}) && Removed(nodes, kids, r, nodes', kids', r', e) && e in nodes
    requires DepthsOk(nodes) && MarksOk(nodes, any) && WorldsOk(s, nodes, r.locals, r.worlds) && ActivityOk(nodes, r.pools)
    ensures DepthsOk(nodes') && MarksOk(nodes', any) && WorldsOk(s, nodes', r'.locals, r'.worlds) && ActivityOk(nodes', r'.pools)
    ensures SameIntents(nodes, r.pools, nodes', r'.pools)
    ensures Acyclic(Up(nodes')) && KidsMatch(Up(nodes'), kids', {}) && OrderOk(nodes', kids', true)
    ensures AllPre(Up(nodes'), kids') == Outside(AllPre(Up(nodes), kids), Subtree(Up(nodes), e))
  {
    hide *;
    var gone := Subtree(Up(nodes), e);
    RemovedIs(nodes, kids, r, nodes', kids', r', e);
    SubtreeClosedDown(Up(nodes), e);
    AcyclicCloses(nodes);
    PrunedCounts(nodes, kids, nodes', kids', any, gone);
    PrunedWorlds(s, nodes, kids, nodes', kids', r, r', gone);
    PrunedActivity(nodes, kids, nodes', kids', r, r', gone);
    PrunedParts(nodes, kids, nodes', kids', gone);
    RemovedOrder(Up(nodes), kids, gone);
    OrderFrom(nodes', kids', true);
  }

  lemma {:induction false} RemovedIs(nodes: Nodes, kids: Kids, r: Rest, nodes': Nodes, kids': Kids, r': Rest, e: EntityRef)
    requires Acyclic(Up(nodes)) && Removed(nodes, kids, r, nodes', kids', r', e)
    ensures e in nodes ==> PrunedTree(nodes, kids, nodes', kids', Subtree(Up(nodes), e)) && PrunedRest(r, r', Subtree(Up(nodes), e))
    ensures e !in nodes ==> nodes' == nodes && kids' == kids && PrunedRest(r, r', {e})
  {
  }

  lemma {:induction false} RemovedFrom(nodes: Nodes, kids: Kids, r: Rest, nodes': Nodes, kids': Kids, r': Rest, e: EntityRef)
    requires Acyclic(Up(nodes))
    requires e in nodes ==> PrunedTree(nodes, kids, nodes', kids', Subtree(Up(nodes), e)) && PrunedRest(r, r', Subtree(Up(nodes), e))
    requires e !in nodes ==> nodes' == nodes && kids' == kids && PrunedRest(r, r', {e})
    ensures Removed(nodes, kids, r, nodes', kids', r', e)
  {
  }

  /** Removing an entity that is in no tree touches nothing of the tree's. */
  lemma {:induction false} StrangerRemoved(s: Space, nodes: Nodes, r: Rest, r': Rest, e: EntityRef)
    requires PrunedRest(r, r', {e}) && e !in nodes && WorldsOk(s, nodes, r.locals, r.worlds) && ActivityOk(nodes, r.pools)
    ensures r'.locals == r.locals && r'.worlds == r.worlds && ActivityOk(nodes, r'.pools) && SameIntents(nodes, r.pools, nodes, r'.pools)
  {
    assert r.locals - {e} == r.locals && r.worlds - {e} == r.worlds;
    hide PrunedRest, ColumnOf, Intended;
    forall n | n in nodes ensures ActivityAt(nodes, r'.pools, n) && Intent(nodes, r'.pools, n) == Intent(nodes, r.pools, n) {
      assert ActivityAt(nodes, r.pools, n);
      PrunedColumn(r, r', {e}, n);
    }
  }

  // ---- steps of the cascade's methods ----------------------------------------------------------------

  /** Fewer rows, smaller rank: what lets the cascade end. */
  function Below(r: Ranking, e: EntityRef): nat {
    if e in r.of_ && r.of_[e] < r.top then r.top - r.of_[e] else 0
  }

  lemma {:induction false} RankedPruned(up: Parents, gone: set<EntityRef>, r: Ranking)
    requires Ranked(up, r) && ClosedDown(up, gone)
    ensures Ranked(up - gone, r) && Acyclic(up - gone)
  {
    assert Ranked(up - gone, r);
  }

  lemma {:induction false} RankedAcyclic(up: Parents, r: Ranking)
    requires Ranked(up, r)
    ensures Acyclic(up) && NULL !in up
  {
  }

  lemma {:induction false} BelowParent(up: Parents, r: Ranking, child: EntityRef, e: EntityRef)
    requires Ranked(up, r) && child in up && up[child] == e && e != NULL
    ensures Below(r, child) < Below(r, e)
  {
  }

  /** The invariant of the loop over e's children. */
  ghost predicate InCascade(start: Nodes, kids0: Kids, r0: Rest, nodes: Nodes, kids: Kids, r: Rest, rank: Ranking, e: EntityRef, gone: set<EntityRef>) {
    && Ranked(Up(start), rank) && Acyclic(Up(start)) && KidsMatch(Up(start), kids0, {}) && e in start
    && Cascading(Up(start), e, gone) && PrunedTree(start, kids0, nodes, kids, gone) && PrunedRest(r0, r, gone)
    && Ranked(Up(nodes), rank)
  }

  lemma {:induction false} InCascadeParts(start: Nodes, kids0: Kids, r0: Rest, nodes: Nodes, kids: Kids, r: Rest, rank: Ranking, e: EntityRef, gone: set<EntityRef>)
    requires InCascade(start, kids0, r0, nodes, kids, r, rank, e, gone)
    ensures Ranked(Up(start), rank) && Acyclic(Up(start)) && KidsMatch(Up(start), kids0, {}) && e in start
    ensures Cascading(Up(start), e, gone) && PrunedTree(start, kids0, nodes, kids, gone) && PrunedRest(r0, r, gone) && Ranked(Up(nodes), rank)
  {
  }

  lemma {:induction false} CascadeBegins(start: Nodes, firstRoot: EntityRef, lastRoot: EntityRef, kids0: Kids, r0: Rest, rank: Ranking, e: EntityRef)
    requires Tree(start, firstRoot, lastRoot, kids0) && Ranked(Up(start), rank) && e in start
    ensures InCascade(start, kids0, r0, start, kids0, r0, rank, e, {})
  {
    TreeShape(start, firstRoot, lastRoot, kids0);
    PrunedNone(start, kids0);
    PrunedRestNone(r0);
    hide Tree, Ranked, KidsMatch, PrunedTree, PrunedRest;
    assert NULL !in Up(start);
    CascadeStart(Up(start), e);
  }

  /** e itself is still there, and its first child, if any, is a live node one rank below. */
  lemma {:induction false} FirstChildOf(start: Nodes, kids0: Kids, r0: Rest, nodes: Nodes, firstRoot: EntityRef, lastRoot: EntityRef, kids: Kids, r: Rest,
                                        rank: Ranking, e: EntityRef, gone: set<EntityRef>)
    requires InCascade(start, kids0, r0, nodes, kids, r, rank, e, gone) && Tree(nodes, firstRoot, lastRoot, kids)
    ensures e in nodes && e in kids && Acyclic(Up(nodes)) && Up(nodes).Keys == nodes.Keys
    ensures var child := nodes[e].firstChild;
            child == NULL || (child in nodes && child in Up(nodes) && Up(nodes)[child] == e && Below(rank, child) < Below(rank, e))
    ensures nodes[e].firstChild == NULL ==> kids[e] == []
  {
    hide *;
    InCascadeParts(start, kids0, r0, nodes, kids, r, rank, e, gone);
    TreeShape(nodes, firstRoot, lastRoot, kids);
    CascadeKeepsTop(start, nodes, kids0, kids, e, gone);
    ListEnds(nodes, firstRoot, lastRoot, kids, e);
    HeadIs(nodes, firstRoot, kids[e], e);
    if kids[e] != [] {
      ListLinks(nodes, firstRoot, lastRoot, kids, e, 0);
      BelowParent(Up(nodes), rank, kids[e][0], e);
    }
  }

  lemma {:induction false} CascadeKeepsTop(start: Nodes, nodes: Nodes, kids0: Kids, kids: Kids, e: EntityRef, gone: set<EntityRef>)
    requires Acyclic(Up(start)) && Cascading(Up(start), e, gone) && PrunedTree(start, kids0, nodes, kids, gone) && e in start
    ensures e in nodes
  {
  }

  lemma {:induction false} HeadIs(nodes: Nodes, firstRoot: EntityRef, list: seq<EntityRef>, p: EntityRef)
    requires p in nodes && p != NULL
    ensures FirstOf(nodes, firstRoot, p) == nodes[p].firstChild
    ensures HeadOf(list) == if list == [] then NULL else list[0]
  {
  }

  /** One child's subtree later. */
  lemma {:induction false} CascadeOn(start: Nodes, kids0: Kids, r0: Rest, nodes: Nodes, kids: Kids, r: Rest, nodes': Nodes, kids': Kids, r': Rest,
                                     rank: Ranking, e: EntityRef, gone: set<EntityRef>, child: EntityRef)
    requires InCascade(start, kids0, r0, nodes, kids, r, rank, e, gone) && child in nodes && child in Up(nodes) && Up(nodes)[child] == e
    requires Acyclic(Up(nodes)) && Removed(nodes, kids, r, nodes', kids', r', child)
    ensures InCascade(start, kids0, r0, nodes', kids', r', rank, e, gone + Subtree(Up(nodes), child)) && |nodes'| < |nodes|
  {
    hide *;
    InCascadeParts(start, kids0, r0, nodes, kids, r, rank, e, gone);
    var more := Subtree(Up(nodes), child);
    RemovedIs(nodes, kids, r, nodes', kids', r', child);
    PrunedParts(start, kids0, nodes, kids, gone);
    PrunedParts(nodes, kids, nodes', kids', more);
    RankedAcyclic(Up(start), rank);
    CascadeStep(Up(start), e, gone, child);
    SubtreeClosedDown(Up(nodes), child);
    RankedPruned(Up(nodes), more, rank);
    PrunedTwice(start, kids0, nodes, kids, nodes', kids', gone, more);
    PrunedRestTwice(r0, r, r', gone, more);
    FewerNodes(nodes, nodes', more, child);
    InCascadeFrom(start, kids0, r0, nodes', kids', r', rank, e, gone + more);
  }

  lemma {:induction false} FewerNodes(nodes: Nodes, nodes': Nodes, more: set<EntityRef>, child: EntityRef)
    requires nodes'.Keys == nodes.Keys - more && child in more && child in nodes
    ensures |nodes'| < |nodes|
  {
    assert nodes'.Keys <= nodes.Keys - {child};
    SmallerSet(nodes'.Keys, nodes.Keys - {child});
    assert |nodes'| == |nodes'.Keys| && |nodes| == |nodes.Keys|;
  }

  lemma {:induction false} SmallerSet(a: set<EntityRef>, b: set<EntityRef>)
    requires a <= b
    ensures |a| <= |b|
  {
    assert b == a + (b - a);
    assert |b| == |a| + |b - a|;
  }

  lemma {:induction false} InCascadeFrom(start: Nodes, kids0: Kids, r0: Rest, nodes: Nodes, kids: Kids, r: Rest, rank: Ranking, e: EntityRef, gone: set<EntityRef>)
    requires Ranked(Up(start), rank) && Acyclic(Up(start)) && KidsMatch(Up(start), kids0, {}) && e in start
    requires Cascading(Up(start), e, gone) && PrunedTree(start, kids0, nodes, kids, gone) && PrunedRest(r0, r, gone) && Ranked(Up(nodes), rank)
    ensures InCascade(start, kids0, r0, nodes, kids, r, rank, e, gone)
  {
  }

  /** With the children gone and e unlinked, dropping e's row completes the removal of its subtree. */
  lemma {:induction false} CascadeDone(start: Nodes, kids0: Kids, r0: Rest, nodes: Nodes, kids: Kids, r: Rest, nodes': Nodes,
                                       rank: Ranking, e: EntityRef, gone: set<EntityRef>)
    requires InCascade(start, kids0, r0, nodes, kids, r, rank, e, gone) && e in nodes && e in kids && kids[e] == []
    requires SameData(nodes, nodes') && Up(nodes') == Up(nodes)[e := NULL]
    ensures Acyclic(Up(start)) && PrunedTree(start, kids0, nodes' - {e}, Cut(kids, e) - {e}, Subtree(Up(start), e))
    ensures PrunedRest(r0, r, Subtree(Up(start), e) - {e}) && e in Subtree(Up(start), e)
    ensures Acyclic(Up(nodes' - {e}))
  {
    hide *;
    InCascadeParts(start, kids0, r0, nodes, kids, r, rank, e, gone);
    PrunedParts(start, kids0, nodes, kids, gone);
    LastChildGone(kids0, kids, e, gone);
    CascadeEnd(Up(start), kids0, e, gone);
    UnlinkedPruned(nodes, kids, nodes', e);
    PrunedTwice(start, kids0, nodes, kids, nodes' - {e}, Cut(kids, e) - {e}, gone, {e});
    SubtreeClosedDown(Up(start), e);
    RankedPruned(Up(start), Subtree(Up(start), e), rank);
    PrunedParts(start, kids0, nodes' - {e}, Cut(kids, e) - {e}, Subtree(Up(start), e));
    assert e in gone + {e};
    GoneWithout(Up(start), e, gone);
  }

  lemma {:induction false} GoneWithout(up: Parents, e: EntityRef, gone: set<EntityRef>)
    requires Acyclic(up) && Cascading(up, e, gone)
    ensures gone + {e} - {e} == gone
  {
  }

  lemma {:induction false} LastChildGone(kids0: Kids, kids: Kids, e: EntityRef, gone: set<EntityRef>)
    requires kids == KidsOutside(kids0, gone) && e in kids && kids[e] == []
    ensures e in kids0 && Outside(kids0[e], gone) == []
  {
  }

  lemma {:induction false} CutEmpty(kids: Kids, e: EntityRef)
    requires e in kids && kids[e] == []
    ensures Cut(kids, e)[e] == []
  {
  }

  lemma {:induction false} RestSplit(r: Rest, r1: Rest, gone: set<EntityRef>, e: EntityRef)
    requires PrunedRest(r, r1, gone - {e}) && e in gone
    ensures PrunedRest(r, Rest(r1.locals - {e}, r1.worlds - {e}, Erased(r1.pools, e), r1.alive - {e}), gone)
  {
    hide PrunedRest;
    ErasedRest(r1, e);
    PrunedRestTwice(r, r1, Rest(r1.locals - {e}, r1.worlds - {e}, Erased(r1.pools, e), r1.alive - {e}), gone - {e}, {e});
    assert gone - {e} + {e} == gone;
  }

  lemma {:induction false} NotThere(nodes: Nodes, kids: Kids, firstRoot: EntityRef, lastRoot: EntityRef, e: EntityRef, alive: set<EntityRef>,
                                    pools: seq<Pool>, base: nat, count: nat)
    requires e !in nodes && Tree(nodes, firstRoot, lastRoot, kids) && e in alive && Owned(alive, nodes, pools, base, count)
    ensures nodes - {e} == nodes && kids - {e} == kids
  {
    hide *;
    TreeShape(nodes, firstRoot, lastRoot, kids);
    OwnedParts(alive, nodes, pools, base, count);
    assert nodes - {e} == nodes;
    assert kids - {e} == kids;
  }

  lemma {:induction false} TreeLinked(nodes: Nodes, firstRoot: EntityRef, lastRoot: EntityRef, kids: Kids)
    requires Tree(nodes, firstRoot, lastRoot, kids)
    ensures Linked(nodes, firstRoot, lastRoot, kids, {})
  {
  }

  lemma {:induction false} HasNode(nodes: Nodes, e: EntityRef)
    requires e in nodes
    ensures |nodes| > 0
  {
    assert e in nodes.Keys;
    assert |nodes| == |nodes.Keys|;
  }

  /** A node's despawn, once its row has dropped. */
  lemma {:induction false} NodeDespawned(start: Nodes, kids0: Kids, r0: Rest, loose: Nodes, firstRoot: EntityRef, lastRoot: EntityRef, kids: Kids, r: Rest,
                                         base: nat, count: nat, e: EntityRef)
    requires Acyclic(Up(start)) && e in start && Linked(loose, firstRoot, lastRoot, kids, {e}) && e in loose && e in kids && kids[e] == []
    requires PrunedTree(start, kids0, loose - {e}, kids - {e}, Subtree(Up(start), e)) && e in Subtree(Up(start), e)
    requires PrunedRest(r0, r, Subtree(Up(start), e) - {e}) && Acyclic(Up(loose - {e})) && Owned(r.alive, loose, r.pools, base, count + 1)
    ensures var r' := Rest(r.locals - {e}, r.worlds - {e}, Erased(r.pools, e), r.alive - {e});
            && Tree(loose - {e}, firstRoot, lastRoot, kids - {e}) && Owned(r'.alive, loose - {e}, r'.pools, base, count)
            && Removed(start, kids0, r0, loose - {e}, kids - {e}, r', e)
  {
    hide *;
    var r' := Rest(r.locals - {e}, r.worlds - {e}, Erased(r.pools, e), r.alive - {e});
    DropKeepsLinks(loose, firstRoot, lastRoot, kids, e);
    TreeFrom(loose - {e}, firstRoot, lastRoot, kids - {e});
    ErasedOwned(r.alive, loose, r.pools, base, count + 1, e);
    RestSplit(r0, r, Subtree(Up(start), e), e);
    RemovedFrom(start, kids0, r0, loose - {e}, kids - {e}, r', e);
  }

  lemma {:induction false} StrangerDespawned(nodes: Nodes, kids: Kids, r: Rest, base: nat, count: nat, e: EntityRef)
    requires Acyclic(Up(nodes)) && e !in nodes && Owned(r.alive, nodes, r.pools, base, count)
    ensures var r' := Rest(r.locals - {e}, r.worlds - {e}, Erased(r.pools, e), r.alive - {e});
            Owned(r'.alive, nodes, r'.pools, base, count) && Removed(nodes, kids, r, nodes, kids, r', e)
  {
    hide *;
    var r' := Rest(r.locals - {e}, r.worlds - {e}, Erased(r.pools, e), r.alive - {e});
    ErasedOwned(r.alive, nodes, r.pools, base, count, e);
    ErasedRest(r, e);
    RemovedFrom(nodes, kids, r, nodes, kids, r', e);
  }
}
