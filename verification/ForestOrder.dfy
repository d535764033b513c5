/** Preorder of a forest: which nodes it lists, that it lists each once, and what moving or
    removing a subtree does to everyone else's order. */
module ForestOrder {
  import opened Basics
  import opened Forest

  predicate Distinct(s: seq<EntityRef>) {
    forall i, j | 0 <= i < j < |s| :: s[i] != s[j]
  }

  /** The child lists list exactly the children, each once; `loose` nodes are in no list. */
  ghost predicate KidsMatch(up: Parents, kids: Kids, loose: set<EntityRef>) {
    && NULL !in up && kids.Keys == up.Keys + {NULL}
    && ChildrenOk(up, kids, loose) && ParentsOk(up, kids, loose) && ListsDistinct(kids)
  }

  ghost predicate ChildrenOk(up: Parents, kids: Kids, loose: set<EntityRef>) {
    forall p, i | p in kids && 0 <= i < |kids[p]| :: kids[p][i] in up && up[kids[p][i]] == p && kids[p][i] !in loose
  }

  ghost predicate ParentsOk(up: Parents, kids: Kids, loose: set<EntityRef>) {
    forall n | n in up && n !in loose :: up[n] in kids && n in kids[up[n]]
  }

  ghost predicate ListsDistinct(kids: Kids) {
    forall p | p in kids :: Distinct(kids[p])
  }

  lemma {:induction false} ChildAt(up: Parents, kids: Kids, loose: set<EntityRef>, p: EntityRef, i: nat)
    requires KidsMatch(up, kids, loose) && p in kids && i < |kids[p]|
    ensures var m := kids[p][i]; m in up && up[m] == p && m !in loose && m != NULL
  {
  }

  lemma {:induction false} IndexOf(up: Parents, kids: Kids, loose: set<EntityRef>, n: EntityRef) returns (i: nat)
    requires KidsMatch(up, kids, loose) && n in up && n !in loose
    ensures up[n] in kids && i < |kids[up[n]]| && kids[up[n]][i] == n
  {
    i :| 0 <= i < |kids[up[n]]| && kids[up[n]][i] == n;
  }

  lemma {:induction false} ListDistinct(up: Parents, kids: Kids, loose: set<EntityRef>, p: EntityRef)
    requires KidsMatch(up, kids, loose) && p in kids
    ensures Distinct(kids[p])
  {
  }

  /** A node is in one place only. */
  lemma {:induction false} OnePlace(up: Parents, kids: Kids, loose: set<EntityRef>, p: EntityRef, i: nat, q: EntityRef, j: nat)
    requires KidsMatch(up, kids, loose) && p in kids && q in kids && i < |kids[p]| && j < |kids[q]| && kids[p][i] == kids[q][j]
    ensures p == q && i == j
  {
    ChildAt(up, kids, loose, p, i);
    ChildAt(up, kids, loose, q, j);
    assert Distinct(kids[p]);
  }

  // ---- adding to and taking from a child list ----------------------------------------------------

  ghost function AppendedKids(kids: Kids, e: EntityRef, p: EntityRef): (kids': Kids)
    requires p in kids
    ensures kids'.Keys == kids.Keys
  {
    kids[p := kids[p] + [e]]
  }

  lemma {:induction false} AppendMatches(up: Parents, kids: Kids, e: EntityRef, p: EntityRef)
    requires KidsMatch(up, kids, {e}) && e in up && p in kids
    ensures KidsMatch(up[e := p], AppendedKids(kids, e, p), {})
  {
    AppendChildren(up, kids, e, p);
    AppendParents(up, kids, e, p);
    hide ParentsOk, ChildrenOk;
    assert e !in kids[p] by { LooseUnlisted(up, kids, e, p); }
    forall q | q in kids ensures Distinct(AppendedKids(kids, e, p)[q]) {
      assert Distinct(kids[q]);
    }
  }

  lemma {:induction false} LooseUnlisted(up: Parents, kids: Kids, e: EntityRef, p: EntityRef)
    requires KidsMatch(up, kids, {e}) && p in kids
    ensures e !in kids[p]
  {
  }

  lemma {:induction false} AppendChildren(up: Parents, kids: Kids, e: EntityRef, p: EntityRef)
    requires KidsMatch(up, kids, {e}) && e in up && p in kids
    ensures ChildrenOk(up[e := p], AppendedKids(kids, e, p), {})
  {
    hide ParentsOk, ListsDistinct;
  }

  lemma {:induction false} AppendParents(up: Parents, kids: Kids, e: EntityRef, p: EntityRef)
    requires KidsMatch(up, kids, {e}) && e in up && p in kids
    ensures ParentsOk(up[e := p], AppendedKids(kids, e, p), {})
  {
    hide ChildrenOk, ListsDistinct;
    var kids' := AppendedKids(kids, e, p);
    assert kids'[p][|kids[p]|] == e;
    forall n | n in up && n != e ensures up[n] in kids && n in kids'[up[n]] {
      assert n in kids[up[n]];
    }
  }

  ghost function UnlinkedKids(kids: Kids, p: EntityRef, j: nat): (kids': Kids)
    requires p in kids && j < |kids[p]|
    ensures kids'.Keys == kids.Keys
  {
    kids[p := kids[p][..j] + kids[p][j + 1..]]
  }

  lemma {:induction false} UnlinkMatches(up: Parents, kids: Kids, e: EntityRef, j: nat)
    requires KidsMatch(up, kids, {}) && e in up && up[e] in kids && j < |kids[up[e]]| && kids[up[e]][j] == e
    ensures KidsMatch(up[e := NULL], UnlinkedKids(kids, up[e], j), {e})
  {
    UnlinkChildren(up, kids, e, j);
    UnlinkParents(up, kids, e, j);
    hide ParentsOk, ChildrenOk;
    forall q | q in kids ensures Distinct(UnlinkedKids(kids, up[e], j)[q]) {
      assert Distinct(kids[q]);
      if q == up[e] {
        DistinctDrop(kids[q], j);
      }
    }
  }

  lemma {:induction false} UnlinkChildren(up: Parents, kids: Kids, e: EntityRef, j: nat)
    requires KidsMatch(up, kids, {}) && e in up && up[e] in kids && j < |kids[up[e]]| && kids[up[e]][j] == e
    ensures ChildrenOk(up[e := NULL], UnlinkedKids(kids, up[e], j), {e})
  {
    hide KidsMatch;
    var p, kids' := up[e], UnlinkedKids(kids, up[e], j);
    forall q, i | q in kids && 0 <= i < |kids'[q]| ensures var m := kids'[q][i]; m in up && up[m] == q && m != e {
      var i0 := if q == p && i >= j then i + 1 else i;
      assert kids'[q][i] == kids[q][i0];
      ChildAt(up, kids, {}, q, i0);
      if kids[q][i0] == e {
        OnePlace(up, kids, {}, q, i0, p, j);
      }
    }
  }

  lemma {:induction false} UnlinkParents(up: Parents, kids: Kids, e: EntityRef, j: nat)
    requires KidsMatch(up, kids, {}) && e in up && up[e] in kids && j < |kids[up[e]]| && kids[up[e]][j] == e
    ensures ParentsOk(up[e := NULL], UnlinkedKids(kids, up[e], j), {e})
  {
    hide KidsMatch;
    var p, kids' := up[e], UnlinkedKids(kids, up[e], j);
    forall n | n in up && n != e ensures up[n] in kids' && n in kids'[up[n]] {
      var i := IndexOf(up, kids, {}, n);
      if up[n] == p {
        assert kids'[p][if i < j then i else i - 1] == n;
      }
    }
  }

  lemma {:induction false} DistinctDrop(s: seq<EntityRef>, j: nat)
    requires Distinct(s) && j < |s|
    ensures Distinct(s[..j] + s[j + 1..])
  {
    var t := s[..j] + s[j + 1..];
    forall a, b | 0 <= a < b < |t| ensures t[a] != t[b] {
      assert t[a] == s[if a < j then a else a + 1] && t[b] == s[if b < j then b else b + 1];
    }
  }

  ghost function Height(up: Parents, n: EntityRef): nat
    requires Acyclic(up) && (n == NULL || n in up)
  {
    if n == NULL then RankingOf(up).top + 1 else RankingOf(up).top - Rank(up, n)
  }

  /** Parent first, then the children's subtrees in child order. */
  ghost function Pre(up: Parents, kids: Kids, n: EntityRef): seq<EntityRef>
    requires Acyclic(up) && KidsMatch(up, kids, {}) && n in up
    decreases Height(up, n), 1, 0
  {
    [n] + PreKids(up, kids, n, 0)
  }

  ghost function PreKids(up: Parents, kids: Kids, p: EntityRef, i: nat): seq<EntityRef>
    requires Acyclic(up) && KidsMatch(up, kids, {}) && p in kids && i <= |kids[p]|
    decreases Height(up, p), 0, |kids[p]| - i
  {
    if i == |kids[p]| then [] else Pre(up, kids, kids[p][i]) + PreKids(up, kids, p, i + 1)
  }

  /** The whole forest, roots in adoption order. */
  ghost function AllPre(up: Parents, kids: Kids): seq<EntityRef>
    requires Acyclic(up) && KidsMatch(up, kids, {})
  {
    PreKids(up, kids, NULL, 0)
  }

  // ---- which nodes --------------------------------------------------------------------------

  lemma {:induction false} PreUnder(up: Parents, kids: Kids, n: EntityRef, m: EntityRef)
    requires Acyclic(up) && KidsMatch(up, kids, {}) && n in up && m in Pre(up, kids, n)
    ensures Under(up, n, m)
    decreases Height(up, n), 1, 0
  {
    UnderStep(up, n, n);
    if m != n {
      var j := PreKidsUnder(up, kids, n, 0, m);
      UnderStep(up, n, kids[n][j]);
      UnderTransitive(up, n, kids[n][j], m);
    }
  }

  lemma {:induction false} PreKidsUnder(up: Parents, kids: Kids, p: EntityRef, i: nat, m: EntityRef) returns (j: nat)
    requires Acyclic(up) && KidsMatch(up, kids, {}) && p in kids && i <= |kids[p]| && m in PreKids(up, kids, p, i)
    ensures i <= j < |kids[p]| && Under(up, kids[p][j], m)
    decreases Height(up, p), 0, |kids[p]| - i
  {
    if m in Pre(up, kids, kids[p][i]) {
      PreUnder(up, kids, kids[p][i], m);
      j := i;
    } else {
      j := PreKidsUnder(up, kids, p, i + 1, m);
    }
  }

  lemma {:induction false} UnderPre(up: Parents, kids: Kids, n: EntityRef, m: EntityRef)
    requires Acyclic(up) && KidsMatch(up, kids, {}) && n in up && Under(up, n, m)
    ensures m in Pre(up, kids, n)
    decreases Rank(up, m)
  {
    if m != n {
      UnderStep(up, n, m);
      UnderPre(up, kids, n, up[m]);
      PreClosed(up, kids, n, up[m], m);
    }
  }

  /** A listed node's children are listed. */
  lemma {:induction false} PreClosed(up: Parents, kids: Kids, n: EntityRef, x: EntityRef, y: EntityRef)
    requires Acyclic(up) && KidsMatch(up, kids, {}) && n in up && x in Pre(up, kids, n) && x in kids && y in kids[x]
    ensures y in Pre(up, kids, n)
    decreases Height(up, n), 1, 0
  {
    if x == n {
      var j :| 0 <= j < |kids[n]| && kids[n][j] == y;
      ChildListed(up, kids, n, 0, j);
    } else {
      PreKidsClosed(up, kids, n, 0, x, y);
    }
  }

  lemma {:induction false} PreKidsClosed(up: Parents, kids: Kids, p: EntityRef, i: nat, x: EntityRef, y: EntityRef)
    requires Acyclic(up) && KidsMatch(up, kids, {}) && p in kids && i <= |kids[p]| && x in PreKids(up, kids, p, i) && x in kids && y in kids[x]
    ensures y in PreKids(up, kids, p, i)
    decreases Height(up, p), 0, |kids[p]| - i
  {
    if x in Pre(up, kids, kids[p][i]) {
      PreClosed(up, kids, kids[p][i], x, y);
    } else {
      PreKidsClosed(up, kids, p, i + 1, x, y);
    }
  }

  lemma {:induction false} ChildListed(up: Parents, kids: Kids, p: EntityRef, i: nat, j: nat)
    requires Acyclic(up) && KidsMatch(up, kids, {}) && p in kids && i <= j < |kids[p]|
    ensures kids[p][j] in PreKids(up, kids, p, i)
    decreases j - i
  {
    if i < j {
      ChildListed(up, kids, p, i + 1, j);
    }
  }

  /** The preorder of a subtree lists exactly the subtree. */
  lemma {:induction false} PreIsSubtree(up: Parents, kids: Kids, n: EntityRef)
    requires Acyclic(up) && KidsMatch(up, kids, {}) && n in up
    ensures forall m :: m in Pre(up, kids, n) <==> m in Subtree(up, n)
  {
    forall m ensures m in Pre(up, kids, n) <==> m in Subtree(up, n) {
      if m in Pre(up, kids, n) {
        PreUnder(up, kids, n, m);
      }
      if m in Subtree(up, n) {
        UnderPre(up, kids, n, m);
      }
    }
  }

  /** The preorder of the forest lists exactly its nodes. */
  lemma {:induction false} AllPreIsAll(up: Parents, kids: Kids)
    requires Acyclic(up) && KidsMatch(up, kids, {})
    ensures forall m :: m in AllPre(up, kids) <==> m in up
  {
    forall m ensures m in AllPre(up, kids) <==> m in up {
      if m in AllPre(up, kids) {
        var j := PreKidsUnder(up, kids, NULL, 0, m);
      }
      if m in up {
        NodeListed(up, kids, m);
      }
    }
  }

  lemma {:induction false} NodeListed(up: Parents, kids: Kids, m: EntityRef)
    requires Acyclic(up) && KidsMatch(up, kids, {}) && m in up
    ensures m in AllPre(up, kids)
    decreases Rank(up, m)
  {
    if up[m] == NULL {
      var j :| 0 <= j < |kids[NULL]| && kids[NULL][j] == m;
      ChildListed(up, kids, NULL, 0, j);
    } else {
      NodeListed(up, kids, up[m]);
      PreKidsClosed(up, kids, NULL, 0, up[m], m);
    }
  }

  // ---- each once --------------------------------------------------------------------------------

  lemma {:induction false} PreDistinct(up: Parents, kids: Kids, n: EntityRef)
    requires Acyclic(up) && KidsMatch(up, kids, {}) && n in up
    ensures Distinct(Pre(up, kids, n))
    decreases Height(up, n), 1, 0
  {
    PreKidsDistinct(up, kids, n, 0);
    if n in PreKids(up, kids, n, 0) {
      var j := PreKidsUnder(up, kids, n, 0, n);
      UnderInMap(up, kids[n][j], n);
      assert false;
    }
  }

  lemma {:induction false} PreKidsDistinct(up: Parents, kids: Kids, p: EntityRef, i: nat)
    requires Acyclic(up) && KidsMatch(up, kids, {}) && p in kids && i <= |kids[p]|
    ensures Distinct(PreKids(up, kids, p, i))
    decreases Height(up, p), 0, |kids[p]| - i
  {
    if i < |kids[p]| {
      var a, b := Pre(up, kids, kids[p][i]), PreKids(up, kids, p, i + 1);
      PreDistinct(up, kids, kids[p][i]);
      PreKidsDistinct(up, kids, p, i + 1);
      forall x | x in a ensures x !in b {
        PreUnder(up, kids, kids[p][i], x);
        if x in b {
          var j := PreKidsUnder(up, kids, p, i + 1, x);
          SiblingsDisjoint(up, kids[p][i], kids[p][j], x);
          assert false;
        }
      }
      DistinctAppend(a, b);
    }
  }

  lemma {:induction false} DistinctAppend(a: seq<EntityRef>, b: seq<EntityRef>)
    requires Distinct(a) && Distinct(b) && forall x | x in a :: x !in b
    ensures Distinct(a + b)
  {
    var s := a + b;
    forall i, j | 0 <= i < j < |s| ensures s[i] != s[j] {
      if i < |a| <= j {
        assert s[i] in a && s[j] in b;
      }
    }
  }

  // ---- a worklist of nodes, as a depth-first loop keeps it ---------------------------------------

  /** The preorders of a list of nodes, one after the other. */
  ghost function Flat(up: Parents, kids: Kids, ns: seq<EntityRef>): seq<EntityRef>
    requires Acyclic(up) && KidsMatch(up, kids, {}) && forall n | n in ns :: n in up
  {
    if ns == [] then [] else Pre(up, kids, ns[0]) + Flat(up, kids, ns[1..])
  }

  lemma {:induction false} FlatAppend(up: Parents, kids: Kids, a: seq<EntityRef>, b: seq<EntityRef>)
    requires Acyclic(up) && KidsMatch(up, kids, {}) && (forall n | n in a :: n in up) && (forall n | n in b :: n in up)
    ensures (forall n | n in a + b :: n in up) && Flat(up, kids, a + b) == Flat(up, kids, a) + Flat(up, kids, b)
    decreases |a|
  {
    if a == [] {
      assert a + b == b;
    } else {
      FlatAppend(up, kids, a[1..], b);
      assert (a + b)[1..] == a[1..] + b && (a + b)[0] == a[0];
      assert Pre(up, kids, a[0]) + (Flat(up, kids, a[1..]) + Flat(up, kids, b)) == Pre(up, kids, a[0]) + Flat(up, kids, a[1..]) + Flat(up, kids, b);
    }
  }

  lemma {:induction false} FlatKids(up: Parents, kids: Kids, p: EntityRef, i: nat)
    requires Acyclic(up) && KidsMatch(up, kids, {}) && p in kids && i <= |kids[p]|
    ensures (forall n | n in kids[p][i..] :: n in up) && Flat(up, kids, kids[p][i..]) == PreKids(up, kids, p, i)
    decreases |kids[p]| - i
  {
    if i < |kids[p]| {
      FlatKids(up, kids, p, i + 1);
      assert kids[p][i..][1..] == kids[p][i + 1..];
    }
  }

  /** One step of a depth-first loop: the first node is visited, its children come next. */
  lemma {:induction false} FlatStep(up: Parents, kids: Kids, ns: seq<EntityRef>)
    requires Acyclic(up) && KidsMatch(up, kids, {}) && ns != [] && forall n | n in ns :: n in up
    ensures ns[0] in kids && (forall n | n in kids[ns[0]] + ns[1..] :: n in up)
    ensures Flat(up, kids, ns) == [ns[0]] + Flat(up, kids, kids[ns[0]] + ns[1..])
  {
    var n := ns[0];
    FlatKids(up, kids, n, 0);
    assert kids[n][0..] == kids[n];
    FlatAppend(up, kids, kids[n], ns[1..]);
    Regroup([n], PreKids(up, kids, n, 0), Flat(up, kids, ns[1..]));
  }

  // ---- everyone else's order -----------------------------------------------------------------------

  /** The elements outside a set, in order. */
  ghost function Outside(s: seq<EntityRef>, gone: set<EntityRef>): seq<EntityRef> {
    if s == [] then [] else if s[0] in gone then Outside(s[1..], gone) else [s[0]] + Outside(s[1..], gone)
  }

  lemma {:induction false} OutsideMembers(s: seq<EntityRef>, gone: set<EntityRef>)
    ensures forall x :: x in Outside(s, gone) <==> x in s && x !in gone
  {
    if s != [] {
      OutsideMembers(s[1..], gone);
    }
  }

  lemma {:induction false} OutsideAppend(a: seq<EntityRef>, b: seq<EntityRef>, gone: set<EntityRef>)
    ensures Outside(a + b, gone) == Outside(a, gone) + Outside(b, gone)
  {
    if a == [] {
      assert a + b == b;
    } else {
      assert (a + b)[1..] == a[1..] + b && (a + b)[0] == a[0];
      OutsideAppend(a[1..], b, gone);
      Regroup([a[0]], Outside(a[1..], gone), Outside(b, gone));
    }
  }

  lemma {:induction false} OutsideDistinct(s: seq<EntityRef>, gone: set<EntityRef>)
    requires Distinct(s)
    ensures Distinct(Outside(s, gone))
  {
    if s != [] {
      OutsideDistinct(s[1..], gone);
      OutsideMembers(s[1..], gone);
    }
  }

  lemma {:induction false} NothingOutside(s: seq<EntityRef>, gone: set<EntityRef>)
    requires forall x | x in s :: x in gone
    ensures Outside(s, gone) == []
  {
    if s != [] {
      NothingOutside(s[1..], gone);
    }
  }

  /** The child lists once e is in none of them. */
  ghost function Cut(kids: Kids, e: EntityRef): (kids': Kids)
    ensures kids'.Keys == kids.Keys
  {
    map q | q in kids :: Outside(kids[q], {e})
  }

  lemma {:induction false} DropIsOutside(s: seq<EntityRef>, j: nat)
    requires Distinct(s) && j < |s|
    ensures s[..j] + s[j + 1..] == Outside(s, {s[j]})
  {
    if j == 0 {
      AllOutside(s[1..], s[0]);
    } else {
      assert s[1..][..j - 1] == s[1..j] && s[1..][j..] == s[j + 1..];
      DropIsOutside(s[1..], j - 1);
      assert s[..j] + s[j + 1..] == [s[0]] + (s[1..j] + s[j + 1..]);
    }
  }

  lemma {:induction false} AllOutside(s: seq<EntityRef>, e: EntityRef)
    requires e !in s
    ensures Outside(s, {e}) == s
  {
    if s != [] {
      AllOutside(s[1..], e);
    }
  }

  lemma {:induction false} UnlinkCuts(up: Parents, kids: Kids, p: EntityRef, j: nat)
    requires KidsMatch(up, kids, {}) && p in kids && j < |kids[p]|
    ensures UnlinkedKids(kids, p, j) == Cut(kids, kids[p][j])
  {
    hide KidsMatch;
    var e := kids[p][j];
    forall q | q in kids ensures UnlinkedKids(kids, p, j)[q] == Outside(kids[q], {e}) {
      ListDistinct(up, kids, {}, q);
      if q == p {
        DropIsOutside(kids[q], j);
      } else {
        forall i | 0 <= i < |kids[q]| ensures kids[q][i] != e {
          if kids[q][i] == e {
            OnePlace(up, kids, {}, q, i, p, j);
            assert false;
          }
        }
        AllOutside(kids[q], e);
      }
    }
  }

  /** The child lists once a set of nodes is gone. */
  ghost function KidsOutside(kids: Kids, gone: set<EntityRef>): Kids {
    map p | p in kids && p !in gone :: Outside(kids[p], gone)
  }

  /** A set that holds all descendants of its members. */
  ghost predicate ClosedDown(up: Parents, gone: set<EntityRef>) {
    NULL !in gone && forall n | n in up && up[n] in gone :: n in gone
  }

  lemma {:induction false} SubtreeClosedDown(up: Parents, c: EntityRef)
    requires Acyclic(up)
    ensures ClosedDown(up, Subtree(up, c))
  {
    forall n | n in up && up[n] in Subtree(up, c) ensures n in Subtree(up, c) {
      UnderStep(up, c, n);
    }
  }

  lemma {:induction false} RemovedMatch(up: Parents, kids: Kids, gone: set<EntityRef>)
    requires Acyclic(up) && KidsMatch(up, kids, {}) && ClosedDown(up, gone)
    ensures Acyclic(up - gone) && KidsMatch(up - gone, KidsOutside(kids, gone), {})
  {
    RemovedPath(up, gone);
    var up', kids' := up - gone, KidsOutside(kids, gone);
    assert kids'.Keys == up'.Keys + {NULL};
    forall p | p in kids ensures forall x :: x in Outside(kids[p], gone) <==> x in kids[p] && x !in gone {
      OutsideMembers(kids[p], gone);
    }
    forall p | p in kids' ensures Distinct(kids'[p]) {
      OutsideDistinct(kids[p], gone);
    }
    forall p, i | p in kids' && 0 <= i < |kids'[p]| ensures kids'[p][i] in up' && up'[kids'[p][i]] == p {
      assert kids'[p][i] in kids[p];
    }
  }

  /** Removing a closed-down set leaves the others in the order they were in. */
  lemma {:induction false} RemovedOrder(up: Parents, kids: Kids, gone: set<EntityRef>)
    requires Acyclic(up) && KidsMatch(up, kids, {}) && ClosedDown(up, gone)
    ensures Acyclic(up - gone) && KidsMatch(up - gone, KidsOutside(kids, gone), {})
    ensures AllPre(up - gone, KidsOutside(kids, gone)) == Outside(AllPre(up, kids), gone)
  {
    RemovedMatch(up, kids, gone);
    var up', kids' := up - gone, KidsOutside(kids, gone);
    KidsRemoved(up, kids, gone, NULL, 0);
    FlatKids(up', kids', NULL, 0);
    assert kids[NULL][0..] == kids[NULL] && kids'[NULL][0..] == kids'[NULL];
  }

  lemma {:induction false} PreRemoved(up: Parents, kids: Kids, gone: set<EntityRef>, n: EntityRef)
    requires Acyclic(up) && KidsMatch(up, kids, {}) && ClosedDown(up, gone) && n in up && n !in gone
    requires Acyclic(up - gone) && KidsMatch(up - gone, KidsOutside(kids, gone), {})
    ensures Pre(up - gone, KidsOutside(kids, gone), n) == Outside(Pre(up, kids, n), gone)
    decreases Height(up, n), 1, 0
  {
    var up', kids' := up - gone, KidsOutside(kids, gone);
    KidsRemoved(up, kids, gone, n, 0);
    assert kids[n][0..] == kids[n] && kids'[n][0..] == kids'[n];
    FlatKids(up', kids', n, 0);
    OutsideAppend([n], PreKids(up, kids, n, 0), gone);
  }

  lemma {:induction false} KidsRemoved(up: Parents, kids: Kids, gone: set<EntityRef>, p: EntityRef, i: nat)
    requires Acyclic(up) && KidsMatch(up, kids, {}) && ClosedDown(up, gone) && p in kids && p !in gone && i <= |kids[p]|
    requires Acyclic(up - gone) && KidsMatch(up - gone, KidsOutside(kids, gone), {})
    ensures forall n | n in Outside(kids[p][i..], gone) :: n in up - gone
    ensures Flat(up - gone, KidsOutside(kids, gone), Outside(kids[p][i..], gone)) == Outside(PreKids(up, kids, p, i), gone)
    decreases Height(up, p), 0, |kids[p]| - i
  {
    if i < |kids[p]| {
      var c := kids[p][i];
      assert kids[p][i..][1..] == kids[p][i + 1..] && kids[p][i..][0] == c;
      KidsRemoved(up, kids, gone, p, i + 1);
      OutsideAppend(Pre(up, kids, c), PreKids(up, kids, p, i + 1), gone);
      if c in gone {
        SubtreeGone(up, kids, gone, c);
      } else {
        PreRemoved(up, kids, gone, c);
        KeptFirst(up - gone, KidsOutside(kids, gone), c, Outside(kids[p][i + 1..], gone));
      }
    }
  }

  lemma {:induction false} KeptFirst(up: Parents, kids: Kids, c: EntityRef, rest: seq<EntityRef>)
    requires Acyclic(up) && KidsMatch(up, kids, {}) && c in up && forall n | n in rest :: n in up
    ensures (forall n | n in [c] + rest :: n in up) && Flat(up, kids, [c] + rest) == Pre(up, kids, c) + Flat(up, kids, rest)
  {
    assert ([c] + rest)[1..] == rest;
  }

  lemma {:induction false} SubtreeGone(up: Parents, kids: Kids, gone: set<EntityRef>, c: EntityRef)
    requires Acyclic(up) && KidsMatch(up, kids, {}) && ClosedDown(up, gone) && c in up && c in gone
    ensures Outside(Pre(up, kids, c), gone) == []
  {
    forall x | x in Pre(up, kids, c) ensures x in gone {
      PreUnder(up, kids, c, x);
      DescendantsGone(up, gone, c, x);
    }
    NothingOutside(Pre(up, kids, c), gone);
  }

  lemma {:induction false} DescendantsGone(up: Parents, gone: set<EntityRef>, c: EntityRef, x: EntityRef)
    requires Acyclic(up) && ClosedDown(up, gone) && c in gone && Under(up, c, x)
    ensures x in gone
    decreases Rank(up, x)
  {
    if x != c {
      UnderStep(up, c, x);
      DescendantsGone(up, gone, c, up[x]);
    }
  }

  /** Moving a subtree leaves everyone outside it in the order they were in. */
  lemma {:induction false} MovedOrder(up: Parents, kids: Kids, c: EntityRef, p: EntityRef, kids': Kids)
    requires Acyclic(up) && KidsMatch(up, kids, {}) && c in up
    requires Acyclic(up[c := p]) && KidsMatch(up[c := p], kids', {})
    requires kids'.Keys == kids.Keys && forall q | q in kids :: Outside(kids'[q], {c}) == Outside(kids[q], {c})
    ensures Outside(AllPre(up[c := p], kids'), Subtree(up, c)) == Outside(AllPre(up, kids), Subtree(up, c))
  {
    hide *;
    var up', gone := up[c := p], Subtree(up, c);
    SubtreeClosedDown(up, c);
    MovedClosedDown(up, c, p);
    RemovedOrder(up, kids, gone);
    RemovedOrder(up', kids', gone);
    assert up' - gone == up - gone;
    SameOutside(kids, kids', c, gone);
  }

  lemma {:induction false} MovedClosedDown(up: Parents, c: EntityRef, p: EntityRef)
    requires Acyclic(up) && c in up
    ensures c in Subtree(up, c) && ClosedDown(up[c := p], Subtree(up, c))
  {
    SubtreeClosedDown(up, c);
    UnderStep(up, c, c);
  }

  lemma {:induction false} SameOutside(kids: Kids, kids': Kids, c: EntityRef, gone: set<EntityRef>)
    requires kids'.Keys == kids.Keys && c in gone
    requires forall q | q in kids :: Outside(kids'[q], {c}) == Outside(kids[q], {c})
    ensures KidsOutside(kids', gone) == KidsOutside(kids, gone)
  {
    forall q | q in kids && q !in gone ensures Outside(kids'[q], gone) == Outside(kids[q], gone) {
      OutsideMore(kids'[q], {c}, gone);
      OutsideMore(kids[q], {c}, gone);
    }
  }

  lemma {:induction false} OutsideMore(s: seq<EntityRef>, a: set<EntityRef>, b: set<EntityRef>)
    requires a <= b
    ensures Outside(Outside(s, a), b) == Outside(s, b)
  {
    if s != [] {
      OutsideMore(s[1..], a, b);
      if s[0] !in a {
        var kept := [s[0]] + Outside(s[1..], a);
        assert kept[1..] == Outside(s[1..], a) && kept[0] == s[0];
      }
    }
  }

  /** Cutting c out and appending it elsewhere changes no list apart from c. */
  lemma {:induction false} CutAppended(kids: Kids, c: EntityRef, p: EntityRef)
    requires p in kids
    ensures var kids' := AppendedKids(Cut(kids, c), c, p);
            kids'.Keys == kids.Keys && forall q | q in kids :: Outside(kids'[q], {c}) == Outside(kids[q], {c})
  {
    var kids' := AppendedKids(Cut(kids, c), c, p);
    forall q | q in kids ensures Outside(kids'[q], {c}) == Outside(kids[q], {c}) {
      OutsideMore(kids[q], {c}, {c});
      if q == p {
        OutsideAppend(Outside(kids[p], {c}), [c], {c});
        assert Outside([c], {c}) == [];
      }
    }
  }
}
