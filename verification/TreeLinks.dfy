/** The intrusive links of the entity tree, and the two link surgeries as updates of the
    node table. */
module TreeLinks {
  import opened BitWords
  import opened Forest
  import opened ForestOrder

  /** One node row: links, cached order, dormancy, transform flags, captured activity. */
  datatype Node = Node(
    parent: EntityRef,
    firstChild: EntityRef,
    lastChild: EntityRef,
    prevSibling: EntityRef,
    nextSibling: EntityRef,
    order: nat,
    dormantDepth: nat,
    deactivated: bool,
    dirty: bool,
    dirtyBelow: bool,
    saved: seq<Word>
  )

  const FRESH := Node(NULL, NULL, NULL, NULL, NULL, 0, 0, false, false, false, [])

  type Nodes = map<EntityRef, Node>

  ghost function Up(nodes: Nodes): Parents { map n | n in nodes :: nodes[n].parent }

  /** A row without its links. */
  function Data(n: Node): Node {
    n.(parent := NULL, firstChild := NULL, lastChild := NULL, prevSibling := NULL, nextSibling := NULL)
  }

  /** The j-th member of a sibling list has the right neighbours. */
  ghost predicate LinkAt(nodes: Nodes, list: seq<EntityRef>, j: nat)
    requires j < |list|
  {
    && list[j] in nodes
    && nodes[list[j]].prevSibling == (if j == 0 then NULL else list[j - 1])
    && nodes[list[j]].nextSibling == (if j + 1 == |list| then NULL else list[j + 1])
  }

  ghost predicate ListOk(nodes: Nodes, list: seq<EntityRef>) {
    forall j | 0 <= j < |list| :: LinkAt(nodes, list, j)
  }

  ghost function HeadOf(list: seq<EntityRef>): EntityRef { if list == [] then NULL else list[0] }

  ghost function TailOf(list: seq<EntityRef>): EntityRef { if list == [] then NULL else list[|list| - 1] }

  function FirstOf(nodes: Nodes, firstRoot: EntityRef, p: EntityRef): EntityRef
    requires p == NULL || p in nodes
  {
    if p == NULL then firstRoot else nodes[p].firstChild
  }

  function LastOf(nodes: Nodes, lastRoot: EntityRef, p: EntityRef): EntityRef
    requires p == NULL || p in nodes
  {
    if p == NULL then lastRoot else nodes[p].lastChild
  }

  /** The ends of p's list are where p points. */
  ghost predicate EndAt(nodes: Nodes, firstRoot: EntityRef, lastRoot: EntityRef, kids: Kids, p: EntityRef)
    requires p in kids
  {
    && (p == NULL || p in nodes)
    && FirstOf(nodes, firstRoot, p) == HeadOf(kids[p]) && LastOf(nodes, lastRoot, p) == TailOf(kids[p])
  }

  /** The ends of every list are where its owner points. */
  ghost predicate EndsOk(nodes: Nodes, firstRoot: EntityRef, lastRoot: EntityRef, kids: Kids) {
    forall p | p in kids :: EndAt(nodes, firstRoot, lastRoot, kids, p)
  }

  ghost predicate ListsOk(nodes: Nodes, kids: Kids) {
    forall p | p in kids :: ListOk(nodes, kids[p])
  }

  /** The links spell the child lists; `loose` rows are in no list yet. */
  ghost predicate Linked(nodes: Nodes, firstRoot: EntityRef, lastRoot: EntityRef, kids: Kids, loose: set<EntityRef>) {
    KidsMatch(Up(nodes), kids, loose) && EndsOk(nodes, firstRoot, lastRoot, kids) && ListsOk(nodes, kids)
  }

  // ---- appending at the end of a list ---------------------------------------------------

  function AppendedNode(nodes: Nodes, e: EntityRef, p: EntityRef, last: EntityRef, n: EntityRef): Node
    requires n in nodes
  {
    var m := nodes[n];
    var m1 := if n == e then m.(parent := p, prevSibling := last, nextSibling := NULL)
              else if n == last then m.(nextSibling := e)
              else m;
    if n == p then m1.(firstChild := if last == NULL then e else m1.firstChild, lastChild := e) else m1
  }

  ghost function Appended(nodes: Nodes, e: EntityRef, p: EntityRef, last: EntityRef): (nodes': Nodes)
    ensures nodes'.Keys == nodes.Keys
  {
    map n | n in nodes :: AppendedNode(nodes, e, p, last, n)
  }

  lemma {:induction false} AppendedUp(nodes: Nodes, e: EntityRef, p: EntityRef, last: EntityRef)
    requires e in nodes
    ensures Up(Appended(nodes, e, p, last)) == Up(nodes)[e := p]
  {
  }

  lemma {:induction false} AppendKeepsLinkAt(nodes: Nodes, kids: Kids, e: EntityRef, p: EntityRef, q: EntityRef, j: nat)
    requires KidsMatch(Up(nodes), kids, {e}) && ListsOk(nodes, kids) && e in nodes && p in kids && q in kids && j < |AppendedKids(kids, e, p)[q]|
    ensures LinkAt(Appended(nodes, e, p, TailOf(kids[p])), AppendedKids(kids, e, p)[q], j)
  {
    hide KidsMatch;
    var last, list := TailOf(kids[p]), AppendedKids(kids, e, p)[q];
    var up := Up(nodes);
    if j < |kids[q]| {
      assert ListOk(nodes, kids[q]);
      assert LinkAt(nodes, kids[q], j);
      assert list[j] == kids[q][j];
      ChildAt(up, kids, {e}, q, j);
      if list[j] == last {
        OnePlace(up, kids, {e}, q, j, p, |kids[p]| - 1);
      }
    } else {
      assert list[j] == e;
    }
  }

  lemma {:induction false} AppendKeepsEndAt(nodes: Nodes, firstRoot: EntityRef, lastRoot: EntityRef, kids: Kids, e: EntityRef, p: EntityRef, q: EntityRef)
    requires e in nodes && p in kids && q in kids && EndAt(nodes, firstRoot, lastRoot, kids, q)
    requires kids[p] != [] ==> TailOf(kids[p]) != NULL
    ensures var last := TailOf(kids[p]);
            EndAt(Appended(nodes, e, p, last), if p == NULL && last == NULL then e else firstRoot, if p == NULL then e else lastRoot,
                  AppendedKids(kids, e, p), q)
  {
    var last, kids' := TailOf(kids[p]), AppendedKids(kids, e, p);
    assert kids[p] != [] ==> kids'[p][0] == kids[p][0];
    assert TailOf(kids'[p]) == e && HeadOf(kids'[p]) == if last == NULL then e else HeadOf(kids[p]);
  }

  lemma {:induction false} AppendKeepsEnds(nodes: Nodes, firstRoot: EntityRef, lastRoot: EntityRef, kids: Kids, e: EntityRef, p: EntityRef)
    requires KidsMatch(Up(nodes), kids, {e}) && EndsOk(nodes, firstRoot, lastRoot, kids) && e in nodes && p in kids
    ensures var last := TailOf(kids[p]);
            EndsOk(Appended(nodes, e, p, last), if p == NULL && last == NULL then e else firstRoot, if p == NULL then e else lastRoot,
                   AppendedKids(kids, e, p))
  {
    if kids[p] != [] {
      ChildAt(Up(nodes), kids, {e}, p, |kids[p]| - 1);
    }
    hide KidsMatch, EndAt, Appended, AppendedKids, Up;
    var last := TailOf(kids[p]);
    forall q | q in kids
      ensures EndAt(Appended(nodes, e, p, last), if p == NULL && last == NULL then e else firstRoot, if p == NULL then e else lastRoot,
                    AppendedKids(kids, e, p), q)
    {
      assert EndAt(nodes, firstRoot, lastRoot, kids, q);
      AppendKeepsEndAt(nodes, firstRoot, lastRoot, kids, e, p, q);
    }
  }

  lemma {:induction false} AppendKeepsLinks(nodes: Nodes, firstRoot: EntityRef, lastRoot: EntityRef, kids: Kids, e: EntityRef, p: EntityRef)
    requires Linked(nodes, firstRoot, lastRoot, kids, {e}) && e in nodes && p in kids
    ensures var last := TailOf(kids[p]);
            Linked(Appended(nodes, e, p, last), if p == NULL && last == NULL then e else firstRoot, if p == NULL then e else lastRoot,
                   AppendedKids(kids, e, p), {})
  {
    var last, kids' := TailOf(kids[p]), AppendedKids(kids, e, p);
    AppendMatches(Up(nodes), kids, e, p);
    AppendedUp(nodes, e, p, last);
    AppendKeepsEnds(nodes, firstRoot, lastRoot, kids, e, p);
    hide KidsMatch, EndsOk, Appended, LinkAt;
    forall q | q in kids ensures ListOk(Appended(nodes, e, p, last), kids'[q]) {
      forall j | 0 <= j < |kids'[q]| ensures LinkAt(Appended(nodes, e, p, last), kids'[q], j) {
        AppendKeepsLinkAt(nodes, kids, e, p, q, j);
      }
    }
  }

  // ---- unlinking ---------------------------------------------------------------------------

  /** What a row becomes when x's predecessor, or x's parent, closes the gap x leaves. */
  function GapBefore(x: Node, n: EntityRef, m: Node): (r: Node)
    ensures Data(r) == Data(m) && r.parent == m.parent && r.prevSibling == m.prevSibling && r.lastChild == m.lastChild
    ensures r.nextSibling == if n == x.prevSibling then x.nextSibling else m.nextSibling
    ensures r.firstChild == if n == x.parent && x.prevSibling == NULL then x.nextSibling else m.firstChild
  {
    var m1 := if n == x.prevSibling then m.(nextSibling := x.nextSibling) else m;
    if n == x.parent && x.prevSibling == NULL then m1.(firstChild := x.nextSibling) else m1
  }

  /** The same for x's successor. */
  function GapAfter(x: Node, n: EntityRef, m: Node): (r: Node)
    ensures Data(r) == Data(m) && r.parent == m.parent && r.nextSibling == m.nextSibling && r.firstChild == m.firstChild
    ensures r.prevSibling == if n == x.nextSibling then x.prevSibling else m.prevSibling
    ensures r.lastChild == if n == x.parent && x.nextSibling == NULL then x.prevSibling else m.lastChild
  {
    var m1 := if n == x.nextSibling then m.(prevSibling := x.prevSibling) else m;
    if n == x.parent && x.nextSibling == NULL then m1.(lastChild := x.prevSibling) else m1
  }

  function UnlinkedNode(nodes: Nodes, e: EntityRef, n: EntityRef): Node
    requires n in nodes && e in nodes
  {
    var m := GapAfter(nodes[e], n, GapBefore(nodes[e], n, nodes[n]));
    if n == e then m.(parent := NULL, prevSibling := NULL, nextSibling := NULL) else m
  }

  ghost function Unlinked(nodes: Nodes, e: EntityRef): (nodes': Nodes)
    requires e in nodes
    ensures nodes'.Keys == nodes.Keys
  {
    map n | n in nodes :: UnlinkedNode(nodes, e, n)
  }

  lemma {:induction false} UnlinkedUp(nodes: Nodes, e: EntityRef)
    requires e in nodes
    ensures Up(Unlinked(nodes, e)) == Up(nodes)[e := NULL]
  {
    hide GapBefore, GapAfter, Data;
  }

  /** e sits at index j of its parent's list. */
  ghost predicate SitsAt(nodes: Nodes, kids: Kids, e: EntityRef, j: nat) {
    && e in nodes && nodes[e].parent in kids
    && j < |kids[nodes[e].parent]| && kids[nodes[e].parent][j] == e
  }

  /** In the list the node leaves, its neighbours meet. */
  lemma {:induction false} UnlinkHere(nodes: Nodes, e: EntityRef, list: seq<EntityRef>, j: nat, i: nat)
    requires e in nodes && j < |list| && list[j] == e && i + 1 < |list|
    requires ListOk(nodes, list) && Distinct(list)
    requires NULL !in list
    ensures LinkAt(Unlinked(nodes, e), list[..j] + list[j + 1..], i)
  {
    hide GapBefore, GapAfter, Data;
    var list', i0 := list[..j] + list[j + 1..], if i >= j then i + 1 else i;
    assert LinkAt(nodes, list, i0) && LinkAt(nodes, list, j);
    assert list'[i] == list[i0];
    if j > 0 {
      assert list[j - 1] in list;
    }
    if j + 1 < |list| {
      assert list[j + 1] in list;
    }
  }

  /** In the other lists nothing changes. */
  lemma {:induction false} UnlinkElsewhere(nodes: Nodes, e: EntityRef, list: seq<EntityRef>, i: nat)
    requires e in nodes && i < |list| && LinkAt(nodes, list, i)
    requires list[i] != e && list[i] != nodes[e].prevSibling && list[i] != nodes[e].nextSibling
    ensures LinkAt(Unlinked(nodes, e), list, i)
  {
    hide GapBefore, GapAfter, Data;
  }

  lemma {:induction false} UnlinkKeepsLinkAt(nodes: Nodes, kids: Kids, e: EntityRef, j: nat, q: EntityRef, i: nat)
    requires KidsMatch(Up(nodes), kids, {}) && ListsOk(nodes, kids) && SitsAt(nodes, kids, e, j) && q in kids
    requires i < |UnlinkedKids(kids, nodes[e].parent, j)[q]|
    ensures LinkAt(Unlinked(nodes, e), UnlinkedKids(kids, nodes[e].parent, j)[q], i)
  {
    hide KidsMatch, Up, Unlinked;
    var p, up := nodes[e].parent, Up(nodes);
    assert ListOk(nodes, kids[q]) && ListOk(nodes, kids[p]);
    if q == p {
      forall k | 0 <= k < |kids[p]| ensures kids[p][k] != NULL {
        ChildAt(up, kids, {}, p, k);
      }
      assert Distinct(kids[p]) by { ListDistinct(up, kids, {}, p); }
      UnlinkHere(nodes, e, kids[p], j, i);
    } else {
      assert LinkAt(nodes, kids[q], i) && LinkAt(nodes, kids[p], j);
      ChildAt(up, kids, {}, q, i);
      forall k | 0 <= k < |kids[p]| ensures kids[q][i] != kids[p][k] {
        if kids[q][i] == kids[p][k] {
          OnePlace(up, kids, {}, q, i, p, k);
          assert false;
        }
      }
      hide LinkAt;
      UnlinkElsewhere(nodes, e, kids[q], i);
    }
  }

  lemma {:induction false} UnlinkKeepsEndAt(nodes: Nodes, firstRoot: EntityRef, lastRoot: EntityRef, kids: Kids, e: EntityRef, j: nat, q: EntityRef)
    requires SitsAt(nodes, kids, e, j) && q in kids && EndAt(nodes, firstRoot, lastRoot, kids, q)
    requires var list := kids[nodes[e].parent]; LinkAt(nodes, list, j) && NULL !in list
    ensures var x := nodes[e];
            EndAt(Unlinked(nodes, e),
                  if x.parent == NULL && x.prevSibling == NULL then x.nextSibling else firstRoot,
                  if x.parent == NULL && x.nextSibling == NULL then x.prevSibling else lastRoot,
                  UnlinkedKids(kids, x.parent, j), q)
  {
    hide GapBefore, GapAfter, Data;
    var x, p := nodes[e], nodes[e].parent;
    var list := kids[p];
    var list' := UnlinkedKids(kids, p, j)[p];
    assert j > 0 ==> list[j - 1] in list;
    assert j + 1 < |list| ==> list[j + 1] in list;
    assert HeadOf(list') == if j == 0 then x.nextSibling else list[0];
    assert TailOf(list') == if j + 1 == |list| then x.prevSibling else list[|list| - 1];
  }

  lemma {:induction false} UnlinkKeepsEnds(nodes: Nodes, firstRoot: EntityRef, lastRoot: EntityRef, kids: Kids, e: EntityRef, j: nat)
    requires KidsMatch(Up(nodes), kids, {}) && EndsOk(nodes, firstRoot, lastRoot, kids) && ListsOk(nodes, kids) && SitsAt(nodes, kids, e, j)
    ensures var x := nodes[e];
            EndsOk(Unlinked(nodes, e),
                   if x.parent == NULL && x.prevSibling == NULL then x.nextSibling else firstRoot,
                   if x.parent == NULL && x.nextSibling == NULL then x.prevSibling else lastRoot,
                   UnlinkedKids(kids, x.parent, j))
  {
    var x, p := nodes[e], nodes[e].parent;
    forall i | 0 <= i < |kids[p]| ensures kids[p][i] != NULL {
      ChildAt(Up(nodes), kids, {}, p, i);
    }
    hide KidsMatch, EndAt, Unlinked, UnlinkedKids, LinkAt, Up;
    assert ListOk(nodes, kids[p]);
    assert LinkAt(nodes, kids[p], j);
    forall q | q in kids
      ensures EndAt(Unlinked(nodes, e), if p == NULL && x.prevSibling == NULL then x.nextSibling else firstRoot,
                    if p == NULL && x.nextSibling == NULL then x.prevSibling else lastRoot, UnlinkedKids(kids, p, j), q)
    {
      assert EndAt(nodes, firstRoot, lastRoot, kids, q);
      UnlinkKeepsEndAt(nodes, firstRoot, lastRoot, kids, e, j, q);
    }
  }

  lemma {:induction false} UnlinkKeepsLinks(nodes: Nodes, firstRoot: EntityRef, lastRoot: EntityRef, kids: Kids, e: EntityRef, j: nat)
    requires Linked(nodes, firstRoot, lastRoot, kids, {}) && SitsAt(nodes, kids, e, j)
    ensures var x := nodes[e];
            Linked(Unlinked(nodes, e),
                   if x.parent == NULL && x.prevSibling == NULL then x.nextSibling else firstRoot,
                   if x.parent == NULL && x.nextSibling == NULL then x.prevSibling else lastRoot,
                   UnlinkedKids(kids, x.parent, j), {e})
  {
    var kids' := UnlinkedKids(kids, nodes[e].parent, j);
    UnlinkMatches(Up(nodes), kids, e, j);
    UnlinkedUp(nodes, e);
    UnlinkKeepsEnds(nodes, firstRoot, lastRoot, kids, e, j);
    hide KidsMatch, EndsOk, Unlinked, LinkAt;
    forall q | q in kids ensures ListOk(Unlinked(nodes, e), kids'[q]) {
      forall i | 0 <= i < |kids'[q]| ensures LinkAt(Unlinked(nodes, e), kids'[q], i) {
        UnlinkKeepsLinkAt(nodes, kids, e, j, q, i);
      }
    }
  }

  // ---- removing an unlinked row ------------------------------------------------------------

  lemma {:induction false} DropKeepsKids(up: Parents, kids: Kids, e: EntityRef)
    requires KidsMatch(up, kids, {e}) && e in up && kids[e] == []
    ensures KidsMatch(up - {e}, kids - {e}, {})
  {
    forall n | n in up && n != e ensures up[n] != e {
      assert n in kids[up[n]];
    }
  }

  lemma {:induction false} SameLinkAt(nodes: Nodes, nodes': Nodes, list: seq<EntityRef>, j: nat)
    requires j < |list| && LinkAt(nodes, list, j) && list[j] in nodes' && nodes'[list[j]] == nodes[list[j]]
    ensures LinkAt(nodes', list, j)
  {
  }

  /** Rows that keep their links keep their lists. */
  lemma {:induction false} SameList(nodes: Nodes, nodes': Nodes, kids: Kids, loose: set<EntityRef>, p: EntityRef)
    requires KidsMatch(Up(nodes), kids, loose) && p in kids && ListOk(nodes, kids[p])
    requires forall n | n in nodes && n !in loose :: n in nodes' && nodes'[n] == nodes[n]
    ensures ListOk(nodes', kids[p])
  {
    UpKeys(nodes);
    hide KidsMatch, LinkAt, Up;
    forall j | 0 <= j < |kids[p]| ensures LinkAt(nodes', kids[p], j) {
      ChildAt(Up(nodes), kids, loose, p, j);
      SameLinkAt(nodes, nodes', kids[p], j);
    }
  }

  lemma {:induction false} DropKeepsLinks(nodes: Nodes, firstRoot: EntityRef, lastRoot: EntityRef, kids: Kids, e: EntityRef)
    requires Linked(nodes, firstRoot, lastRoot, kids, {e}) && e in nodes && kids[e] == []
    ensures Linked(nodes - {e}, firstRoot, lastRoot, kids - {e}, {})
  {
    hide KidsMatch, ListOk, EndAt, Up;
    var nodes', kids' := nodes - {e}, kids - {e};
    DropUp(nodes, e);
    DropKeepsKids(Up(nodes), kids, e);
    forall p | p in kids' ensures ListOk(nodes', kids'[p]) {
      assert ListOk(nodes, kids[p]);
      SameList(nodes, nodes', kids, {e}, p);
    }
    forall p | p in kids' ensures EndAt(nodes', firstRoot, lastRoot, kids', p) {
      assert EndAt(nodes, firstRoot, lastRoot, kids, p);
      DropEnd(nodes, firstRoot, lastRoot, kids, e, p);
    }
  }

  lemma {:induction false} DropUp(nodes: Nodes, e: EntityRef)
    requires e in nodes
    ensures Up(nodes).Keys == nodes.Keys && Up(nodes - {e}) == Up(nodes) - {e}
  {
  }

  lemma {:induction false} DropEnd(nodes: Nodes, firstRoot: EntityRef, lastRoot: EntityRef, kids: Kids, e: EntityRef, p: EntityRef)
    requires p in kids && p != e && EndAt(nodes, firstRoot, lastRoot, kids, p)
    ensures EndAt(nodes - {e}, firstRoot, lastRoot, kids - {e}, p)
  {
  }

  lemma {:induction false} UpKeys(nodes: Nodes)
    ensures Up(nodes).Keys == nodes.Keys
  {
  }

  // ---- adding an unlinked row ---------------------------------------------------------------

  lemma {:induction false} AddKeepsKids(up: Parents, kids: Kids, e: EntityRef)
    requires KidsMatch(up, kids, {}) && e !in up && e != NULL
    ensures KidsMatch(up[e := NULL], kids[e := []], {e})
  {
  }

  lemma {:induction false} AddKeepsLinks(nodes: Nodes, firstRoot: EntityRef, lastRoot: EntityRef, kids: Kids, e: EntityRef)
    requires Linked(nodes, firstRoot, lastRoot, kids, {}) && e !in nodes && e != NULL
    ensures Linked(nodes[e := FRESH], firstRoot, lastRoot, kids[e := []], {e})
  {
    hide KidsMatch, ListOk, EndAt, Up;
    var nodes', kids' := nodes[e := FRESH], kids[e := []];
    AddUp(nodes, e);
    AddKeepsKids(Up(nodes), kids, e);
    AddEnd(nodes, firstRoot, lastRoot, kids, e, e);
    forall p | p in kids && p != e ensures ListOk(nodes', kids'[p]) {
      assert ListOk(nodes, kids[p]);
      SameList(nodes, nodes', kids, {}, p);
    }
    forall p | p in kids && p != e ensures EndAt(nodes', firstRoot, lastRoot, kids', p) {
      assert EndAt(nodes, firstRoot, lastRoot, kids, p);
      AddEnd(nodes, firstRoot, lastRoot, kids, e, p);
    }
  }

  lemma {:induction false} AddUp(nodes: Nodes, e: EntityRef)
    ensures Up(nodes).Keys == nodes.Keys && Up(nodes[e := FRESH]) == Up(nodes)[e := NULL]
    ensures ListOk(nodes[e := FRESH], [])
  {
  }

  lemma {:induction false} AddEnd(nodes: Nodes, firstRoot: EntityRef, lastRoot: EntityRef, kids: Kids, e: EntityRef, p: EntityRef)
    requires e != NULL && (p == e || (p in kids && EndAt(nodes, firstRoot, lastRoot, kids, p)))
    ensures EndAt(nodes[e := FRESH], firstRoot, lastRoot, kids[e := []], p)
  {
  }

  // ---- reading the links ------------------------------------------------------------------------

  /** A linked forest. */
  ghost predicate Tree(nodes: Nodes, firstRoot: EntityRef, lastRoot: EntityRef, kids: Kids) {
    Linked(nodes, firstRoot, lastRoot, kids, {}) && Acyclic(Up(nodes))
  }

  lemma {:induction false} TreeShape(nodes: Nodes, firstRoot: EntityRef, lastRoot: EntityRef, kids: Kids)
    requires Tree(nodes, firstRoot, lastRoot, kids)
    ensures NULL !in nodes && kids.Keys == nodes.Keys + {NULL} && Up(nodes).Keys == nodes.Keys
    ensures KidsMatch(Up(nodes), kids, {}) && Acyclic(Up(nodes))
    ensures forall n | n in nodes :: Up(nodes)[n] == nodes[n].parent && (nodes[n].parent == NULL || nodes[n].parent in nodes)
  {
  }

  lemma {:induction false} ListEnds(nodes: Nodes, firstRoot: EntityRef, lastRoot: EntityRef, kids: Kids, p: EntityRef)
    requires Tree(nodes, firstRoot, lastRoot, kids) && (p == NULL || p in nodes)
    ensures p in kids && FirstOf(nodes, firstRoot, p) == HeadOf(kids[p]) && LastOf(nodes, lastRoot, p) == TailOf(kids[p])
  {
    hide ListsOk;
    assert EndAt(nodes, firstRoot, lastRoot, kids, p);
  }

  lemma {:induction false} ListLinks(nodes: Nodes, firstRoot: EntityRef, lastRoot: EntityRef, kids: Kids, p: EntityRef, i: nat)
    requires Tree(nodes, firstRoot, lastRoot, kids) && p in kids && i < |kids[p]|
    ensures var m := kids[p][i];
            && m in nodes && m != NULL && nodes[m].parent == p
            && nodes[m].prevSibling == (if i == 0 then NULL else kids[p][i - 1])
            && nodes[m].nextSibling == (if i + 1 == |kids[p]| then NULL else kids[p][i + 1])
  {
    ChildAt(Up(nodes), kids, {}, p, i);
    assert ListOk(nodes, kids[p]);
    assert LinkAt(nodes, kids[p], i);
  }

  /** Rows that differ in their links only. */
  ghost predicate SameData(nodes: Nodes, nodes': Nodes) {
    nodes'.Keys == nodes.Keys && forall n | n in nodes :: Data(nodes'[n]) == Data(nodes[n])
  }

  lemma {:induction false} AppendedNodeData(nodes: Nodes, e: EntityRef, p: EntityRef, last: EntityRef, n: EntityRef)
    requires n in nodes
    ensures Data(AppendedNode(nodes, e, p, last, n)) == Data(nodes[n])
  {
  }

  lemma {:induction false} AppendedData(nodes: Nodes, e: EntityRef, p: EntityRef, last: EntityRef)
    ensures SameData(nodes, Appended(nodes, e, p, last))
  {
    hide AppendedNode, Data;
    forall n | n in nodes ensures Data(Appended(nodes, e, p, last)[n]) == Data(nodes[n]) {
      AppendedNodeData(nodes, e, p, last, n);
    }
  }

  lemma {:induction false} UnlinkedNodeData(nodes: Nodes, e: EntityRef, n: EntityRef)
    requires e in nodes && n in nodes
    ensures Data(UnlinkedNode(nodes, e, n)) == Data(nodes[n])
  {
    hide GapBefore, GapAfter;
  }

  lemma {:induction false} UnlinkedData(nodes: Nodes, e: EntityRef)
    requires e in nodes
    ensures SameData(nodes, Unlinked(nodes, e))
  {
    hide UnlinkedNode, Data;
    forall n | n in nodes ensures Data(Unlinked(nodes, e)[n]) == Data(nodes[n]) {
      UnlinkedNodeData(nodes, e, n);
    }
  }

  /** The append as the sequence of row writes it is. */
  function AppendSteps(nodes: Nodes, e: EntityRef, p: EntityRef, last: EntityRef): Nodes
    requires e in nodes && (p == NULL || p in nodes) && (last == NULL || last in nodes)
  {
    var a := nodes[e := nodes[e].(parent := p, prevSibling := last, nextSibling := NULL)];
    var b := if last != NULL then a[last := a[last].(nextSibling := e)]
             else if p != NULL then a[p := a[p].(firstChild := e)]
             else a;
    if p == NULL then b else b[p := b[p].(lastChild := e)]
  }

  lemma {:induction false} AppendStepsAre(nodes: Nodes, e: EntityRef, p: EntityRef, last: EntityRef)
    requires e in nodes && (p == NULL || p in nodes) && (last == NULL || last in nodes) && last != e && NULL !in nodes
    ensures AppendSteps(nodes, e, p, last) == Appended(nodes, e, p, last)
  {
    var r := AppendSteps(nodes, e, p, last);
    forall n | n in nodes ensures r[n] == AppendedNode(nodes, e, p, last, n) {
    }
  }

  /** The unlink as the sequence of row writes it is. */
  function CloseBefore(nodes: Nodes, x: Node): (r: Nodes)
    requires (x.parent == NULL || x.parent in nodes) && (x.prevSibling == NULL || x.prevSibling in nodes)
    ensures r.Keys == nodes.Keys
  {
    if x.prevSibling != NULL then nodes[x.prevSibling := nodes[x.prevSibling].(nextSibling := x.nextSibling)]
    else if x.parent != NULL then nodes[x.parent := nodes[x.parent].(firstChild := x.nextSibling)]
    else nodes
  }

  function CloseAfter(nodes: Nodes, x: Node): (r: Nodes)
    requires (x.parent == NULL || x.parent in nodes) && (x.nextSibling == NULL || x.nextSibling in nodes)
    ensures r.Keys == nodes.Keys
  {
    if x.nextSibling != NULL then nodes[x.nextSibling := nodes[x.nextSibling].(prevSibling := x.prevSibling)]
    else if x.parent != NULL then nodes[x.parent := nodes[x.parent].(lastChild := x.prevSibling)]
    else nodes
  }

  lemma {:induction false} CloseBeforeAt(nodes: Nodes, x: Node, n: EntityRef)
    requires (x.parent == NULL || x.parent in nodes) && (x.prevSibling == NULL || x.prevSibling in nodes) && n in nodes && NULL !in nodes
    ensures CloseBefore(nodes, x)[n] == GapBefore(x, n, nodes[n])
  {
  }

  lemma {:induction false} CloseAfterAt(nodes: Nodes, x: Node, n: EntityRef)
    requires (x.parent == NULL || x.parent in nodes) && (x.nextSibling == NULL || x.nextSibling in nodes) && n in nodes && NULL !in nodes
    ensures CloseAfter(nodes, x)[n] == GapAfter(x, n, nodes[n])
  {
  }

  lemma {:induction false} UnlinkStepsAre(nodes: Nodes, e: EntityRef)
    requires e in nodes && NULL !in nodes
    requires var x := nodes[e];
             (x.parent == NULL || x.parent in nodes) && (x.prevSibling == NULL || x.prevSibling in nodes)
             && (x.nextSibling == NULL || x.nextSibling in nodes)
    ensures var b := CloseAfter(CloseBefore(nodes, nodes[e]), nodes[e]);
            b[e := b[e].(parent := NULL, prevSibling := NULL, nextSibling := NULL)] == Unlinked(nodes, e)
  {
    hide CloseAfter, CloseBefore, GapAfter, GapBefore;
    var x := nodes[e];
    forall n | n in nodes ensures CloseAfter(CloseBefore(nodes, x), x)[n] == GapAfter(x, n, GapBefore(x, n, nodes[n])) {
      CloseBeforeAt(nodes, x, n);
      CloseAfterAt(CloseBefore(nodes, x), x, n);
    }
  }

  lemma {:induction false} LinkedTail(nodes: Nodes, firstRoot: EntityRef, lastRoot: EntityRef, kids: Kids, e: EntityRef, p: EntityRef)
    requires Linked(nodes, firstRoot, lastRoot, kids, {e}) && p in kids
    ensures NULL !in nodes && (p == NULL || p in nodes) && LastOf(nodes, lastRoot, p) == TailOf(kids[p])
    ensures TailOf(kids[p]) != NULL ==> TailOf(kids[p]) in nodes && TailOf(kids[p]) != e
    ensures kids[p] != [] ==> TailOf(kids[p]) != NULL
  {
    assert EndAt(nodes, firstRoot, lastRoot, kids, p);
    UpKeys(nodes);
    hide EndAt, Up;
    if kids[p] != [] {
      ChildAt(Up(nodes), kids, {e}, p, |kids[p]| - 1);
    }
  }

  lemma {:induction false} LinkedPlace(nodes: Nodes, firstRoot: EntityRef, lastRoot: EntityRef, kids: Kids, e: EntityRef) returns (j: nat)
    requires Linked(nodes, firstRoot, lastRoot, kids, {}) && e in nodes
    ensures SitsAt(nodes, kids, e, j)
    ensures var x := nodes[e];
            && NULL !in nodes && (x.parent == NULL || x.parent in nodes)
            && (x.prevSibling == NULL || x.prevSibling in nodes) && (x.nextSibling == NULL || x.nextSibling in nodes)
  {
    var up, p := Up(nodes), nodes[e].parent;
    UpKeys(nodes);
    assert up[e] == p;
    hide Up;
    j := IndexOf(up, kids, {}, e);
    assert ListOk(nodes, kids[p]);
    assert LinkAt(nodes, kids[p], j);
    hide LinkAt, ListOk, EndAt, ListsOk, EndsOk;
    if j > 0 {
      ChildAt(up, kids, {}, p, j - 1);
    }
    if j + 1 < |kids[p]| {
      ChildAt(up, kids, {}, p, j + 1);
    }
  }

  /** The same links; the rest of the rows may differ. */
  ghost predicate SameLinks(nodes: Nodes, nodes': Nodes) {
    nodes'.Keys == nodes.Keys
    && forall n | n in nodes ::
      && nodes'[n].parent == nodes[n].parent && nodes'[n].firstChild == nodes[n].firstChild && nodes'[n].lastChild == nodes[n].lastChild
      && nodes'[n].prevSibling == nodes[n].prevSibling && nodes'[n].nextSibling == nodes[n].nextSibling
  }

  lemma {:induction false} SameLinksTree(nodes: Nodes, nodes': Nodes, firstRoot: EntityRef, lastRoot: EntityRef, kids: Kids)
    requires Tree(nodes, firstRoot, lastRoot, kids) && SameLinks(nodes, nodes')
    ensures Tree(nodes', firstRoot, lastRoot, kids) && Up(nodes') == Up(nodes)
  {
    SameUp(nodes, nodes');
    hide KidsMatch, LinkAt, EndAt, Up;
    forall p | p in kids ensures ListOk(nodes', kids[p]) {
      assert ListOk(nodes, kids[p]);
      forall j | 0 <= j < |kids[p]| ensures LinkAt(nodes', kids[p], j) {
        LinkAtSame(nodes, nodes', kids[p], j);
      }
    }
    forall p | p in kids ensures EndAt(nodes', firstRoot, lastRoot, kids, p) {
      EndAtSame(nodes, nodes', firstRoot, lastRoot, kids, p);
    }
  }

  lemma {:induction false} SameUp(nodes: Nodes, nodes': Nodes)
    requires SameLinks(nodes, nodes')
    ensures Up(nodes') == Up(nodes)
  {
  }

  lemma {:induction false} LinkAtSame(nodes: Nodes, nodes': Nodes, list: seq<EntityRef>, j: nat)
    requires SameLinks(nodes, nodes') && j < |list| && LinkAt(nodes, list, j)
    ensures LinkAt(nodes', list, j)
  {
  }

  lemma {:induction false} EndAtSame(nodes: Nodes, nodes': Nodes, firstRoot: EntityRef, lastRoot: EntityRef, kids: Kids, p: EntityRef)
    requires SameLinks(nodes, nodes') && p in kids && EndAt(nodes, firstRoot, lastRoot, kids, p)
    ensures EndAt(nodes', firstRoot, lastRoot, kids, p)
  {
  }

  lemma {:induction false} LinkedCut(nodes: Nodes, firstRoot: EntityRef, lastRoot: EntityRef, kids: Kids, e: EntityRef, j: nat)
    requires Linked(nodes, firstRoot, lastRoot, kids, {}) && SitsAt(nodes, kids, e, j)
    ensures UnlinkedKids(kids, nodes[e].parent, j) == Cut(kids, e)
  {
    hide KidsMatch, EndsOk, ListsOk, Cut, UnlinkedKids;
    UnlinkCuts(Up(nodes), kids, nodes[e].parent, j);
  }
}
