/** Views: the word scan over a driver pool, joined with the other pools. */
module EcsView {
  import opened BitWords
  import opened EcsSparse

  predicate Rising(s: seq<nat>) { forall i, j | 0 <= i < j < |s| :: s[i] < s[j] }

  /** Rows below count whose bit is set, or all of them. */
  predicate Wanted(words: seq<Word>, count: nat, all: bool, p: nat)
    requires count <= |words| * WIDTH
  {
    p < count && (all || BitAt(words, p))
  }

  /** Word by word, lowest bit first: visits exactly the wanted rows, in order. */
  method ScanActiveRows(words: seq<Word>, count: nat, all: bool) returns (visited: seq<nat>)
    requires count <= |words| * WIDTH
    ensures Rising(visited) && forall p: nat :: p in visited <==> Wanted(words, count, all, p)
  {
    hide Has, KeepBelow, Full;
    visited := [];
    var base: nat := 0;
    while base < count
      invariant base % WIDTH == 0 && Rising(visited)
      invariant forall p: nat :: p in visited <==> p < base && Wanted(words, count, all, p)
      decreases count - base
    {
      var word := if all then Full() else words[base / WIDTH];
      AllBits();
      InWidth(word);
      var remain := count - base;
      if remain < WIDTH {
        word := KeepBelow(word, remain);
      }
      visited := ScanWord(visited, word, base);
      WordMeans(words, count, all, base, word);
      base := base + WIDTH;
    }
  }

  /** What the masked word at `base` stands for. */
  lemma {:induction false} WordMeans(words: seq<Word>, count: nat, all: bool, base: nat, word: Word)
    requires count <= |words| * WIDTH && base % WIDTH == 0 && base < count
    requires forall b: nat :: Has(word, b) <==> b < WIDTH && b < count - base && (all || Has(words[base / WIDTH], b))
    ensures forall p: nat | base <= p < base + WIDTH :: Has(word, p - base) <==> Wanted(words, count, all, p)
  {
    hide Has;
    forall p: nat | base <= p < base + WIDTH ensures Has(word, p - base) <==> Wanted(words, count, all, p) {
      assert p / WIDTH == base / WIDTH && p % WIDTH == p - base;
    }
  }

  /** Takes the lowest bit until the word is empty. */
  method ScanWord(before: seq<nat>, word: Word, base: nat) returns (visited: seq<nat>)
    requires Rising(before) && forall p | p in before :: p < base
    ensures Rising(visited) && (forall p | p in visited :: p < base + WIDTH)
    ensures forall p: nat :: p in visited <==> p in before || (base <= p && Has(word, p - base))
  {
    visited := before;
    var left := word;
    while left != 0
      invariant Scanned(before, word, left, base, visited)
      decreases BitsOf(left)
    {
      LowestCleared(left);
      var bit := TrailingZeros(left);
      ScanOne(before, word, left, base, visited, bit, Lowered(left));
      visited := visited + [base + bit];
      left := Lowered(left);
    }
    NoBits();
    hide Has;
  }

  /** The bits taken out of the word so far are the ones visited. */
  ghost predicate Scanned(before: seq<nat>, word: Word, left: Word, base: nat, visited: seq<nat>) {
    && Rising(visited) && (forall p | p in visited :: p < base + WIDTH)
    && (forall b: nat | Has(left, b) :: Has(word, b) && forall p | p in visited :: p < base + b)
    && (forall p: nat :: p in visited <==> p in before || (base <= p && Has(word, p - base) && !Has(left, p - base)))
  }

  lemma {:induction false} ScanOne(before: seq<nat>, word: Word, left: Word, base: nat, visited: seq<nat>, bit: nat, left': Word)
    requires Scanned(before, word, left, base, visited) && IsLowest(left, bit)
    requires forall j: nat :: Has(left', j) <==> Has(left, j) && j != bit
    ensures Scanned(before, word, left', base, visited + [base + bit]) && BitsOf(left') < BitsOf(left)
  {
    hide Has;
    RisingMore(visited, base + bit);
    assert bit in BitsOf(left) && bit !in BitsOf(left');
  }

  lemma {:induction false} RisingMore(s: seq<nat>, x: nat)
    requires Rising(s) && forall p | p in s :: p < x
    ensures Rising(s + [x])
  {
    forall i, j | 0 <= i < j < |s + [x]| ensures (s + [x])[i] < (s + [x])[j] {
      assert i < |s| ==> s[i] in s;
    }
  }

  // ---- joining ------------------------------------------------------------------------------------------

  /** The entity has a row in the set, active unless inactive ones are asked for too. */
  ghost predicate HasRow(rows: seq<Row>, all: bool, e: nat) {
    exists x :: x in rows && x.entity == e && (all || x.active)
  }

  /** It has one in every queried set. */
  ghost predicate Matches(tables: seq<seq<Row>>, all: bool, e: nat) {
    forall j | 0 <= j < |tables| :: HasRow(tables[j], all, e)
  }

  /** In every queried set the entity is listed, with its bit set unless inactive rows are asked for too. */
  ghost predicate Queried(sets: Tables, all: bool, e: nat)
    requires TablesOk(sets)
  {
    forall j | 0 <= j < |sets| :: Listed(sets[j], all, e)
  }

  ghost predicate Listed(t: Table, all: bool, e: nat)
    requires TableOk(t)
  {
    exists i :: 0 <= i < |t.dense| && t.dense[i] == e && (all || BitAt(t.active, i))
  }

  lemma {:induction false} ListedIs(t: Table, all: bool, e: nat)
    requires TableOk(t)
    ensures Listed(t, all, e) <==> HasRow(TableRows(t), all, e)
  {
    var rows := TableRows(t);
    if Listed(t, all, e) {
      var i :| 0 <= i < |t.dense| && t.dense[i] == e && (all || BitAt(t.active, i));
      assert rows[i] in rows;
    }
    if HasRow(rows, all, e) {
      var x :| x in rows && x.entity == e && (all || x.active);
      var i :| 0 <= i < |rows| && rows[i] == x;
      assert t.dense[i] == e;
    }
  }

  lemma {:induction false} QueriedIs(sets: Tables, all: bool)
    requires TablesOk(sets)
    ensures forall e :: Queried(sets, all, e) <==> Matches(AllRows(sets), all, e)
  {
    forall e, j | 0 <= j < |sets| ensures Listed(sets[j], all, e) <==> HasRow(AllRows(sets)[j], all, e) {
      ListedIs(sets[j], all, e);
    }
    hide Listed, HasRow;
  }

  predicate Different(s: seq<nat>) { forall i, j | 0 <= i < j < |s| :: s[i] != s[j] }

  type Tables = seq<Table>

  ghost predicate TablesOk(sets: Tables) {
    sets != [] && forall j | 0 <= j < |sets| :: TableOk(sets[j])
  }

  ghost function AllRows(sets: Tables): (t: seq<seq<Row>>)
    requires TablesOk(sets)
    ensures |t| == |sets| && forall j | 0 <= j < |sets| :: t[j] == TableRows(sets[j])
  {
    seq(|sets|, j requires 0 <= j < |sets| => TableRows(sets[j]))
  }

  /** The first of the smallest sets. */
  ghost predicate Drives(sets: Tables, best: nat) {
    && best < |sets|
    && forall j | 0 <= j < |sets| :: |sets[best].dense| <= |sets[j].dense| && (j < best ==> |sets[best].dense| < |sets[j].dense|)
  }

  /** The first smallest set drives. */
  method DriverIndex(sets: Tables) returns (best: nat)
    requires sets != []
    ensures Drives(sets, best)
  {
    best := 0;
    var i := 1;
    while i < |sets|
      invariant 1 <= i <= |sets| && best < i
      invariant forall j | 0 <= j < i :: |sets[best].dense| <= |sets[j].dense| && (j < best ==> |sets[best].dense| < |sets[j].dense|)
    {
      if |sets[i].dense| < |sets[best].dense| {
        best := i;
      }
      i := i + 1;
    }
  }

  /** Membership and activity in one more set, with the row's position. */
  method Join(t: Table, e: nat, all: bool) returns (ok: bool, pos: nat)
    requires TableOk(t)
    ensures ok <==> HasRow(TableRows(t), all, e)
    ensures ok ==> pos < |t.dense| && t.dense[pos] == e
  {
    FindsRow(t, e);
    pos := Lookup(t.pages, e);
    if pos == NPOS {
      return false, pos;
    }
    OneActive(TableRows(t), pos, all);
    WordOf(t.active, |t.dense|, pos);
    return all || BitAt(t.active, pos), pos;
  }

  /** One position per set, each the entity's own row. */
  ghost predicate RowsAt(sets: Tables, e: nat, rows: seq<nat>) {
    |rows| == |sets| && forall j | 0 <= j < |sets| :: rows[j] < |sets[j].dense| && sets[j].dense[rows[j]] == e
  }

  /** All the other sets, with the positions found. */
  method JoinAll(sets: Tables, driver: nat, start: nat, e: nat, all: bool) returns (ok: bool, rows: seq<nat>)
    requires TablesOk(sets) && driver < |sets| && HasRow(TableRows(sets[driver]), all, e)
    requires start < |sets[driver].dense| && sets[driver].dense[start] == e
    ensures ok <==> Matches(AllRows(sets), all, e)
    ensures ok ==> RowsAt(sets, e, rows)
  {
    hide TableOk, HasRow, TableRows;
    rows := seq(|sets|, _ => 0)[driver := start];
    var j := 0;
    while j < |sets|
      invariant j <= |sets| && |rows| == |sets| && rows[driver] == start
      invariant forall m | 0 <= m < j :: HasRow(AllRows(sets)[m], all, e)
      invariant forall m | 0 <= m < j :: rows[m] < |sets[m].dense| && sets[m].dense[rows[m]] == e
    {
      if j != driver {
        var fine, pos := Join(sets[j], e, all);
        if !fine {
          assert !HasRow(AllRows(sets)[j], all, e);
          return false, rows;
        }
        rows := rows[j := pos];
      }
      j := j + 1;
    }
    return true, rows;
  }

  /** The scanned positions up to k whose entities match, with those entities. */
  ghost predicate Taken(scanned: seq<nat>, k: nat, dense: seq<nat>, taken: seq<nat>, visited: seq<nat>, tables: seq<seq<Row>>, all: bool) {
    && k <= |scanned| && (forall m | 0 <= m < |scanned| :: scanned[m] < |dense|) && Rising(taken) && |taken| == |visited|
    && (forall m | 0 <= m < |taken| :: taken[m] in scanned[..k] && taken[m] < |dense| && visited[m] == dense[taken[m]])
    && (forall m | 0 <= m < k :: scanned[m] in taken <==> Matches(tables, all, dense[scanned[m]]))
  }

  lemma {:induction false} AllBefore(scanned: seq<nat>, k: nat, taken: seq<nat>)
    requires k < |scanned| && Rising(scanned) && forall m | 0 <= m < |taken| :: taken[m] in scanned[..k]
    ensures forall p | p in taken :: p < scanned[k]
    ensures scanned[..k + 1] == scanned[..k] + [scanned[k]]
  {
    forall m | 0 <= m < |taken| ensures taken[m] < scanned[k] {
      var n :| 0 <= n < k && scanned[n] == taken[m];
    }
  }

  lemma {:induction false} TakeOne(scanned: seq<nat>, k: nat, dense: seq<nat>, taken: seq<nat>, visited: seq<nat>, tables: seq<seq<Row>>, all: bool)
    requires Taken(scanned, k, dense, taken, visited, tables, all) && k < |scanned| && Rising(scanned)
    requires scanned[k] < |dense| && Matches(tables, all, dense[scanned[k]])
    ensures Taken(scanned, k + 1, dense, taken + [scanned[k]], visited + [dense[scanned[k]]], tables, all)
  {
    AllBefore(scanned, k, taken);
    RisingMore(taken, scanned[k]);
    hide Matches, Rising;
    forall m | 0 <= m < k + 1 ensures scanned[m] in taken + [scanned[k]] <==> Matches(tables, all, dense[scanned[m]]) {
      assert m < k ==> (scanned[m] in taken <==> Matches(tables, all, dense[scanned[m]]));
    }
  }

  lemma {:induction false} PassOne(scanned: seq<nat>, k: nat, dense: seq<nat>, taken: seq<nat>, visited: seq<nat>, tables: seq<seq<Row>>, all: bool)
    requires Taken(scanned, k, dense, taken, visited, tables, all) && k < |scanned| && Rising(scanned)
    requires scanned[k] < |dense| && !Matches(tables, all, dense[scanned[k]])
    ensures Taken(scanned, k + 1, dense, taken, visited, tables, all)
  {
    AllBefore(scanned, k, taken);
    hide Matches, Rising;
  }

  /** Visits every match once, in the driver's dense order, with its row in every set; any set
      may drive. */
  method EachFrom(sets: Tables, driver: nat, all: bool) returns (visited: seq<nat>, rows: seq<seq<nat>>)
    requires TablesOk(sets) && driver < |sets|
    ensures Different(visited) && InOrderOf(visited, sets[driver].dense)
    ensures forall e: nat :: e in visited <==> Matches(AllRows(sets), all, e)
    ensures |rows| == |visited| && forall k | 0 <= k < |rows| :: RowsAt(sets, visited[k], rows[k])
  {
    var set_ := sets[driver];
    var scanned := ScanActiveRows(set_.active, |set_.dense|, all);
    visited, rows := [], [];
    ghost var taken: seq<nat>, tables := [], AllRows(sets);
    ScannedRows(set_, scanned, all);
    hide *;
    TakenNone(scanned, set_.dense, tables, all);
    var k := 0;
    while k < |scanned|
      invariant Taken(scanned, k, set_.dense, taken, visited, tables, all) && k <= |scanned|
      invariant |rows| == |visited| && forall m | 0 <= m < |rows| :: RowsAt(sets, visited[m], rows[m])
    {
      assert scanned[k] in scanned;
      var e := set_.dense[scanned[k]];
      var ok, at := JoinAll(sets, driver, scanned[k], e, all);
      if !ok {
        PassOne(scanned, k, set_.dense, taken, visited, tables, all);
      } else {
        TakeOne(scanned, k, set_.dense, taken, visited, tables, all);
        visited, rows := visited + [e], rows + [at];
        taken := taken + [scanned[k]];
      }
      k := k + 1;
    }
    VisitedAll(sets, driver, scanned, taken, visited, all);
  }

  lemma {:induction false} TakenNone(scanned: seq<nat>, dense: seq<nat>, tables: seq<seq<Row>>, all: bool)
    requires forall p | p in scanned :: p < |dense|
    ensures Taken(scanned, 0, dense, [], [], tables, all)
  {
    forall m | 0 <= m < |scanned| ensures scanned[m] < |dense| {
      assert scanned[m] in scanned;
    }
  }

  /** Scanned positions are rows that are wanted. */
  lemma {:induction false} ScannedRows(t: Table, scanned: seq<nat>, all: bool)
    requires TableOk(t) && forall p: nat :: p in scanned <==> Wanted(t.active, |t.dense|, all, p)
    ensures forall p | p in scanned :: p < |t.dense| && HasRow(TableRows(t), all, t.dense[p])
    ensures forall e: nat | HasRow(TableRows(t), all, e) :: exists p :: p in scanned && p < |t.dense| && t.dense[p] == e
  {
    var rows := TableRows(t);
    forall p | p in scanned ensures p < |t.dense| && HasRow(rows, all, t.dense[p]) {
      assert Wanted(t.active, |t.dense|, all, p);
      assert rows[p] in rows;
    }
    forall e: nat | HasRow(rows, all, e) ensures exists p :: p in scanned && p < |t.dense| && t.dense[p] == e {
      var x :| x in rows && x.entity == e && (all || x.active);
      var i :| 0 <= i < |rows| && rows[i] == x;
      assert Wanted(t.active, |t.dense|, all, i);
      assert i in scanned;
    }
  }

  lemma {:induction false} VisitedAll(sets: Tables, driver: nat, scanned: seq<nat>, taken: seq<nat>, visited: seq<nat>, all: bool)
    requires TablesOk(sets) && driver < |sets| && Taken(scanned, |scanned|, sets[driver].dense, taken, visited, AllRows(sets), all)
    requires forall e: nat | HasRow(TableRows(sets[driver]), all, e) :: exists p :: p in scanned && p < |sets[driver].dense| && sets[driver].dense[p] == e
    ensures Different(visited) && InOrderOf(visited, sets[driver].dense)
    ensures forall e: nat :: e in visited <==> Matches(AllRows(sets), all, e)
  {
    var dense, tables := sets[driver].dense, AllRows(sets);
    FindsRow(sets[driver], 0);
    assert scanned[..|scanned|] == scanned;
    forall i, j | 0 <= i < j < |visited| ensures visited[i] != visited[j] {
      assert TableRows(sets[driver])[taken[i]].entity != TableRows(sets[driver])[taken[j]].entity;
    }
    hide TableOk, HasRow;
    forall e: nat ensures e in visited <==> Matches(tables, all, e) {
      if e in visited {
        var m :| 0 <= m < |visited| && visited[m] == e;
        var n :| 0 <= n < |scanned| && scanned[n] == taken[m];
      }
      if Matches(tables, all, e) {
        assert HasRow(tables[driver], all, e);
        var p :| p in scanned && p < |dense| && dense[p] == e;
        var n :| 0 <= n < |scanned| && scanned[n] == p;
        var m :| 0 <= m < |taken| && taken[m] == p;
        assert visited[m] == e;
      }
    }
  }

  /** The view: the smallest set drives, and that changes nothing but the order. */
  method Each(sets: Tables, all: bool) returns (visited: seq<nat>, rows: seq<seq<nat>>)
    requires TablesOk(sets)
    ensures Different(visited) && forall e: nat :: e in visited <==> Queried(sets, all, e)
    ensures forall driver: nat | Drives(sets, driver) :: InOrderOf(visited, sets[driver].dense)
    ensures |rows| == |visited| && forall k | 0 <= k < |rows| :: RowsAt(sets, visited[k], rows[k])
  {
    var driver := DriverIndex(sets);
    QueriedIs(sets, all);
    visited, rows := EachFrom(sets, driver, all);
    forall d: nat | Drives(sets, d) ensures d == driver {
    }
  }

  lemma {:induction false} OneActive(rows: seq<Row>, pos: nat, all: bool)
    requires OneRowEach(rows) && pos < |rows|
    ensures HasRow(rows, all, rows[pos].entity) <==> all || rows[pos].active
  {
    if x :| x in rows && x.entity == rows[pos].entity && (all || x.active) {
      var i :| 0 <= i < |rows| && rows[i] == x;
    }
    assert rows[pos] in rows;
  }

  /** The visited entities come in dense order. */
  ghost predicate InOrderOf(visited: seq<nat>, dense: seq<nat>) {
    exists at: seq<nat> :: |at| == |visited| && Rising(at) && forall m | 0 <= m < |at| :: at[m] < |dense| && dense[at[m]] == visited[m]
  }
}
