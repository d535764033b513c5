/** Forests as parent maps and child lists: ancestor paths, preorder, and what moving or
    removing a subtree does to them.  Independent of how the tree is stored. */
module Forest {

  datatype EntityRef = EntityRef(index: nat, generation: nat)

  /** The null handle; as a parent it stands for "root", as a key of the child lists for the
      list of roots. */
  const NULL := EntityRef(0xFFFF_FFFF, 0)

  type Parents = map<EntityRef, EntityRef>
  type Kids = map<EntityRef, seq<EntityRef>>

  /** Ranks that grow downward: their existence is what rules cycles out. */
  datatype Ranking = Ranking(of_: map<EntityRef, nat>, top: nat)

  ghost predicate Ranked(up: Parents, r: Ranking) {
    && NULL !in up
    && (forall n | n in up :: n in r.of_ && r.of_[n] < r.top)
    && (forall n | n in up :: up[n] == NULL || (up[n] in up && r.of_[up[n]] < r.of_[n]))
  }

  ghost predicate Acyclic(up: Parents) { exists r :: Ranked(up, r) }

  ghost function RankingOf(up: Parents): (r: Ranking)
    requires Acyclic(up)
    ensures Ranked(up, r)
  {
    var r :| Ranked(up, r); r
  }

  ghost function Rank(up: Parents, n: EntityRef): nat
    requires Acyclic(up) && n in up
  {
    RankingOf(up).of_[n]
  }

  /** The node and its ancestors, from the node up. */
  ghost function Path(up: Parents, n: EntityRef): seq<EntityRef>
    requires Acyclic(up) && n in up
    decreases Rank(up, n)
  {
    if up[n] == NULL then [n] else [n] + Path(up, up[n])
  }

  /** n lies in the subtree of `root`. */
  ghost predicate Under(up: Parents, root: EntityRef, n: EntityRef)
    requires Acyclic(up)
  {
    n in up && root in Path(up, n)
  }

  ghost function Subtree(up: Parents, root: EntityRef): set<EntityRef>
    requires Acyclic(up)
  {
    set n | n in up && Under(up, root, n)
  }

  lemma {:induction false} UnderStep(up: Parents, root: EntityRef, n: EntityRef)
    requires Acyclic(up) && n in up
    ensures Under(up, root, n) <==> n == root || (up[n] != NULL && Under(up, root, up[n]))
    ensures Under(up, n, n)
  {
  }

  lemma {:induction false} UnderInMap(up: Parents, root: EntityRef, n: EntityRef)
    requires Acyclic(up) && Under(up, root, n)
    ensures root in up && Rank(up, root) <= Rank(up, n) && (root != n ==> Rank(up, root) < Rank(up, n))
    decreases Rank(up, n)
  {
    if n != root {
      UnderInMap(up, root, up[n]);
    }
  }

  lemma {:induction false} UnderTransitive(up: Parents, a: EntityRef, b: EntityRef, n: EntityRef)
    requires Acyclic(up) && Under(up, a, b) && Under(up, b, n)
    ensures Under(up, a, n)
    decreases Rank(up, n)
  {
    if n != b {
      UnderTransitive(up, a, b, up[n]);
    }
  }

  /** Two siblings share no descendant. */
  lemma {:induction false} SiblingsDisjoint(up: Parents, a: EntityRef, b: EntityRef, n: EntityRef)
    requires Acyclic(up) && Under(up, a, n) && Under(up, b, n) && a in up && b in up && up[a] == up[b]
    ensures a == b
    decreases Rank(up, n)
  {
    if n == a {
      OnlySelf(up, a, b);
    } else if n == b {
      OnlySelf(up, b, a);
    } else {
      SiblingsDisjoint(up, a, b, up[n]);
    }
  }

  lemma {:induction false} OnlySelf(up: Parents, a: EntityRef, b: EntityRef)
    requires Acyclic(up) && a in up && b in up && up[a] == up[b] && Under(up, b, a)
    ensures a == b
  {
    if a != b {
      UnderStep(up, b, a);
      UnderInMap(up, b, up[a]);
    }
  }

  // ---- moving a subtree -----------------------------------------------------------------

  /** Attaching c under p keeps the forest acyclic exactly when p is outside c's subtree. */
  lemma {:induction false} CycleIff(up: Parents, c: EntityRef, p: EntityRef)
    requires Acyclic(up) && c in up && p in up
    ensures Acyclic(up[c := p]) <==> !Under(up, c, p)
  {
    if Under(up, c, p) {
      if Acyclic(up[c := p]) {
        RanksGrowBelow(up, up[c := p], c, p);
        assert false;
      }
    } else {
      MovedAcyclic(up, c, p);
    }
  }

  lemma {:induction false} RanksGrowBelow(up: Parents, up': Parents, c: EntityRef, n: EntityRef)
    requires Acyclic(up) && Acyclic(up') && Under(up, c, n) && up'.Keys == up.Keys
    requires forall m | m in up && m != c :: up'[m] == up[m]
    ensures c in up && Rank(up', c) <= Rank(up', n)
    decreases Rank(up, n)
  {
    if n != c {
      RanksGrowBelow(up, up', c, up[n]);
    }
  }

  lemma {:induction false} MovedAcyclic(up: Parents, c: EntityRef, p: EntityRef)
    requires Acyclic(up) && c in up && (p == NULL || (p in up && !Under(up, c, p)))
    ensures Acyclic(up[c := p])
  {
    var r := RankingOf(up);
    var lift := if p == NULL then 0 else r.of_[p] + 1;
    var of_ := map n | n in up :: if Under(up, c, n) then r.of_[n] + lift else r.of_[n];
    var up' := up[c := p];
    forall n | n in up'
      ensures up'[n] == NULL || (up'[n] in up' && of_[up'[n]] < of_[n])
    {
      UnderStep(up, c, n);
    }
    assert Ranked(up', Ranking(of_, r.top + lift));
  }

  /** The path of a node of c's subtree, down to but without c. */
  ghost function PathBelow(up: Parents, c: EntityRef, n: EntityRef): seq<EntityRef>
    requires Acyclic(up) && Under(up, c, n)
    decreases Rank(up, n)
  {
    if n == c then [] else
      UnderStep(up, c, n);
      [n] + PathBelow(up, c, up[n])
  }

  ghost function PathOrNone(up: Parents, p: EntityRef): seq<EntityRef>
    requires Acyclic(up) && (p == NULL || p in up)
  {
    if p == NULL then [] else Path(up, p)
  }

  lemma {:induction false} SplitPath(up: Parents, c: EntityRef, n: EntityRef)
    requires Acyclic(up) && Under(up, c, n) && c in up
    ensures Path(up, n) == PathBelow(up, c, n) + [c] + PathOrNone(up, up[c])
    decreases Rank(up, n)
  {
    if n == c {
      assert PathBelow(up, c, n) + [c] + PathOrNone(up, up[c]) == [c] + PathOrNone(up, up[c]);
    } else {
      UnderStep(up, c, n);
      SplitPath(up, c, up[n]);
      assert [n] + (PathBelow(up, c, up[n]) + [c] + PathOrNone(up, up[c])) == ([n] + PathBelow(up, c, up[n])) + [c] + PathOrNone(up, up[c]);
    }
  }

  /** In the moved subtree the path down to c stays, and c's new ancestors follow it. */
  lemma {:induction false} MovedPathInside(up: Parents, c: EntityRef, p: EntityRef, n: EntityRef)
    requires Acyclic(up) && Acyclic(up[c := p]) && c in up && Under(up, c, n)
    requires p == NULL || (p in up && !Under(up, c, p))
    ensures Path(up[c := p], n) == PathBelow(up, c, n) + [c] + PathOrNone(up, p)
    decreases Rank(up, n)
  {
    var up' := up[c := p];
    if n == c {
      if p != NULL {
        MovedPathOutside(up, c, p, p);
      }
      assert PathBelow(up, c, n) + [c] + PathOrNone(up, p) == [c] + PathOrNone(up, p);
    } else {
      UnderStep(up, c, n);
      MovedPathInside(up, c, p, up[n]);
      assert [n] + (PathBelow(up, c, up[n]) + [c] + PathOrNone(up, p)) == ([n] + PathBelow(up, c, up[n])) + [c] + PathOrNone(up, p);
    }
  }

  lemma {:induction false} MovedPathOutside(up: Parents, c: EntityRef, p: EntityRef, n: EntityRef)
    requires Acyclic(up) && Acyclic(up[c := p]) && c in up && n in up && !Under(up, c, n)
    ensures Path(up[c := p], n) == Path(up, n)
    decreases Rank(up, n)
  {
    UnderStep(up, c, n);
    if up[n] != NULL {
      MovedPathOutside(up, c, p, up[n]);
    }
  }

  // ---- removing nodes -----------------------------------------------------------------------

  /** Dropping a set of nodes that nobody outside it has as a parent. */
  lemma {:induction false} RemovedPath(up: Parents, gone: set<EntityRef>)
    requires Acyclic(up) && forall n | n in up && n !in gone :: up[n] !in gone
    ensures Acyclic(up - gone)
    ensures forall n | n in up && n !in gone :: Path(up - gone, n) == Path(up, n)
  {
    var up' := up - gone;
    assert Ranked(up', RankingOf(up));
    forall n | n in up && n !in gone ensures Path(up', n) == Path(up, n) {
      RemovedOnePath(up, gone, n);
    }
  }

  lemma {:induction false} RemovedOnePath(up: Parents, gone: set<EntityRef>, n: EntityRef)
    requires Acyclic(up) && Acyclic(up - gone) && n in up && n !in gone
    requires forall m | m in up && m !in gone :: up[m] !in gone
    ensures Path(up - gone, n) == Path(up, n)
    decreases Rank(up, n)
  {
    if up[n] != NULL {
      RemovedOnePath(up, gone, up[n]);
    }
  }

  /** Adding a fresh root. */
  lemma {:induction false} AddedRoot(up: Parents, e: EntityRef)
    requires Acyclic(up) && e !in up && e != NULL
    ensures Acyclic(up[e := NULL]) && Path(up[e := NULL], e) == [e]
    ensures forall n | n in up :: Path(up[e := NULL], n) == Path(up, n)
  {
    var r := RankingOf(up);
    var up' := up[e := NULL];
    assert Ranked(up', Ranking(r.of_[e := 0], r.top + 1));
    forall n | n in up ensures Path(up', n) == Path(up, n) {
      AddedRootPath(up, e, n);
    }
  }

  lemma {:induction false} AddedRootPath(up: Parents, e: EntityRef, n: EntityRef)
    requires Acyclic(up) && Acyclic(up[e := NULL]) && e !in up && n in up
    ensures Path(up[e := NULL], n) == Path(up, n)
    decreases Rank(up, n)
  {
    if up[n] != NULL {
      AddedRootPath(up, e, up[n]);
    }
  }
}
