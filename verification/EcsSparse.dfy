/** The paged sparse set with its active bits, the value pool beside it, and the word scan. */
module EcsSparse {
  import opened BitWords

  const PAGE: nat := 4096
  const NPOS: nat := 0xFFFF_FFFF

  /** One dense row: whose it is, and its active bit. */
  datatype Row = Row(entity: nat, active: bool)

  // ---- pages -----------------------------------------------------------------------------------

  /** Page number to page; an empty page is one that was never touched. */
  type Pages = seq<seq<nat>>

  predicate PagesOk(pages: Pages) {
    forall p | 0 <= p < |pages| :: pages[p] == [] || |pages[p]| == PAGE
  }

  function Lookup(pages: Pages, e: nat): nat
    requires PagesOk(pages)
  {
    if e / PAGE >= |pages| || pages[e / PAGE] == [] then NPOS else pages[e / PAGE][e % PAGE]
  }

  /** The pages with e's own page in place. */
  function Touched(pages: Pages, e: nat): (r: Pages)
    requires PagesOk(pages)
    ensures PagesOk(r) && e / PAGE < |r| && |r[e / PAGE]| == PAGE && forall x: nat :: Lookup(r, x) == Lookup(pages, x)
  {
    var p := e / PAGE;
    var wide := if p < |pages| then pages else pages + seq(p + 1 - |pages|, _ => []);
    if wide[p] == [] then wide[p := seq(PAGE, _ => NPOS)] else wide
  }

  /** Writing e's slot. */
  function Written(pages: Pages, e: nat, v: nat): (r: Pages)
    requires PagesOk(pages)
    ensures PagesOk(r) && forall x: nat :: Lookup(r, x) == if x == e then v else Lookup(pages, x)
  {
    var t := Touched(pages, e);
    SlotsApart(e);
    var page: seq<nat> := t[e / PAGE];
    var page': seq<nat> := page[..e % PAGE] + [v] + page[e % PAGE + 1..];
    t[e / PAGE := page']
  }

  lemma {:induction false} SlotsApart(e: nat)
    ensures forall x: nat | x / PAGE == e / PAGE && x % PAGE == e % PAGE :: x == e
  {
  }

  /** The sparse side points at the dense rows, and back. */
  ghost predicate Bijection(pages: Pages, dense: seq<nat>) {
    && PagesOk(pages) && |dense| < NPOS
    && (forall i | 0 <= i < |dense| :: Lookup(pages, dense[i]) == i)
    && (forall e: nat | Lookup(pages, e) != NPOS :: Lookup(pages, e) < |dense| && dense[Lookup(pages, e)] == e)
  }

  // ---- active bits -----------------------------------------------------------------------------------

  predicate BitAt(words: seq<Word>, pos: nat)
    requires pos / WIDTH < |words|
  {
    Has(words[pos / WIDTH], pos % WIDTH)
  }

  function WithBit(words: seq<Word>, pos: nat, value: bool): (r: seq<Word>)
    requires pos / WIDTH < |words|
    ensures |r| == |words| && forall q: nat | q / WIDTH < |words| :: BitAt(r, q) == if q == pos then value else BitAt(words, q)
  {
    hide Has, SetAt, ClearAt;
    words[pos / WIDTH := if value then SetAt(words[pos / WIDTH], pos % WIDTH) else ClearAt(words[pos / WIDTH], pos % WIDTH)]
  }

  ghost predicate Covered(words: seq<Word>, count: nat) { count <= |words| * WIDTH }

  lemma {:induction false} WordOf(words: seq<Word>, count: nat, pos: nat)
    requires Covered(words, count) && pos < count
    ensures pos / WIDTH < |words|
  {
  }

  /** The rows a dense list and its bits stand for. */
  ghost function RowsOf(dense: seq<nat>, words: seq<Word>): (r: seq<Row>)
    requires Covered(words, |dense|)
    ensures |r| == |dense|
  {
    seq(|dense|, i requires 0 <= i < |dense| => Row(dense[i], BitAt(words, i)))
  }

  /** Removing row i: the last row takes its place. */
  function SwapPop<T>(s: seq<T>, i: nat): (r: seq<T>)
    requires i < |s|
    ensures |r| == |s| - 1
  {
    s[i := s[|s| - 1]][..|s| - 1]
  }

  /** Every element keeps its place but the last one, which comes to the place that is given up. */
  lemma {:induction false} SwapPopAt<T>(s: seq<T>, i: nat, k: nat)
    requires i < |s| && k < |s| - 1
    ensures SwapPop(s, i)[k] == if k == i then s[|s| - 1] else s[k]
  {
  }

  ghost predicate OneRowEach(rows: seq<Row>) {
    forall i, j | 0 <= i < j < |rows| :: rows[i].entity != rows[j].entity
  }

  /** Swap-and-pop drops exactly the one row; every other row survives as it was. */
  lemma {:induction false} SwapPopDrops(rows: seq<Row>, i: nat)
    requires OneRowEach(rows) && i < |rows|
    ensures OneRowEach(SwapPop(rows, i))
    ensures forall x :: x in SwapPop(rows, i) <==> x in rows && x.entity != rows[i].entity
  {
    var r, last := SwapPop(rows, i), |rows| - 1;
    forall k | 0 <= k < last ensures r[k] == if k == i then rows[last] else rows[k] {
    }
    forall x | x in rows && x.entity != rows[i].entity ensures x in r {
      var k :| 0 <= k < |rows| && rows[k] == x;
      assert r[if k == last then i else k] == x;
    }
  }

  /** A set's state as a value. */
  datatype Table = Table(pages: Pages, dense: seq<nat>, active: seq<Word>)

  ghost predicate TableOk(t: Table) {
    Bijection(t.pages, t.dense) && Covered(t.active, |t.dense|)
  }

  ghost function TableRows(t: Table): seq<Row>
    requires TableOk(t)
  {
    RowsOf(t.dense, t.active)
  }

  /** Looking an entity up finds its one row. */
  lemma {:induction false} FindsRow(t: Table, e: nat)
    requires TableOk(t)
    ensures OneRowEach(TableRows(t))
    ensures Lookup(t.pages, e) != NPOS <==> exists x :: x in TableRows(t) && x.entity == e
    ensures Lookup(t.pages, e) != NPOS ==> Lookup(t.pages, e) < |TableRows(t)| && TableRows(t)[Lookup(t.pages, e)].entity == e
  {
    var rows := TableRows(t);
    if x :| x in rows && x.entity == e {
      var i :| 0 <= i < |rows| && rows[i] == x;
      assert Lookup(t.pages, t.dense[i]) == i;
    }
    if Lookup(t.pages, e) != NPOS {
      assert rows[Lookup(t.pages, e)] in rows;
    }
    forall i, j | 0 <= i < j < |rows| ensures rows[i].entity != rows[j].entity {
      assert Lookup(t.pages, t.dense[i]) == i && Lookup(t.pages, t.dense[j]) == j;
    }
  }

  lemma {:induction false} OkPages(t: Table)
    requires TableOk(t)
    ensures PagesOk(t.pages) && |TableRows(t)| == |t.dense|
    ensures forall i: nat | i < |t.dense| :: i / WIDTH < |t.active|
    ensures forall e: nat | Lookup(t.pages, e) != NPOS :: Lookup(t.pages, e) < |t.dense|
  {
    forall i: nat | i < |t.dense| ensures i / WIDTH < |t.active| {
      WordOf(t.active, |t.dense|, i);
    }
  }

  /** Appending a row keeps the table sound. */
  lemma {:induction false} InsertKeeps(t: Table, e: nat, on: bool)
    requires TableOk(t) && Lookup(t.pages, e) == NPOS && |t.dense| + 1 < NPOS
    ensures var pos := |t.dense|;
            var words := if pos / WIDTH >= |t.active| then t.active + [0] else t.active;
            && pos / WIDTH < |words|
            && var t' := Table(Written(t.pages, e, pos), t.dense + [e], WithBit(words, pos, on));
               TableOk(t') && TableRows(t') == TableRows(t) + [Row(e, on)]
  {
    var pos := |t.dense|;
    var words := if pos / WIDTH >= |t.active| then t.active + [0] else t.active;
    var pages', dense', words' := Written(t.pages, e, pos), t.dense + [e], WithBit(words, pos, on);
    hide Written, Touched;
    assert Bijection(pages', dense') by {
      forall i | 0 <= i < |dense'| ensures Lookup(pages', dense'[i]) == i {
        assert i < pos ==> Lookup(t.pages, t.dense[i]) == i;
      }
    }
    forall i: nat | i < pos ensures BitAt(words', i) == BitAt(t.active, i) {
      WordOf(t.active, |t.dense|, i);
    }
  }

  /** The table with e's row swapped out and popped. */
  ghost function Without(t: Table, e: nat): Table
    requires TableOk(t) && Lookup(t.pages, e) != NPOS
  {
    var pos, last := Lookup(t.pages, e), |t.dense| - 1;
    OkPages(t);
    if pos != last then
      Table(Written(Written(t.pages, t.dense[last], pos), e, NPOS), t.dense[pos := t.dense[last]][..last], WithBit(t.active, pos, BitAt(t.active, last)))
    else
      Table(Written(t.pages, e, NPOS), t.dense[..last], t.active)
  }

  lemma {:induction false} RowsMatch(t: Table, e: nat)
    requires TableOk(t) && Lookup(t.pages, e) != NPOS
    ensures PagesOk(t.pages) && 0 <= Lookup(t.pages, e) < |t.dense| && t.dense[Lookup(t.pages, e)] == e
    ensures Lookup(t.pages, t.dense[|t.dense| - 1]) == |t.dense| - 1
  {
    hide Lookup;
  }

  lemma {:induction false} WithoutDense(t: Table, e: nat)
    requires TableOk(t) && Lookup(t.pages, e) != NPOS
    ensures Lookup(t.pages, e) < |t.dense| && Without(t, e).dense == SwapPop(t.dense, Lookup(t.pages, e))
  {
    RowsMatch(t, e);
    SwapPopIs(t.dense, Lookup(t.pages, e));
    hide Written, Lookup, Bijection, Covered, WithBit, BitAt, SwapPop, TableOk, TableRows;
  }

  lemma {:induction false} WithoutLookup(t: Table, e: nat)
    requires TableOk(t) && Lookup(t.pages, e) != NPOS
    ensures var pos, last, t' := Lookup(t.pages, e), |t.dense| - 1, Without(t, e);
            && pos <= last && PagesOk(t'.pages)
            && forall x: nat :: Lookup(t'.pages, x) == if x == e then NPOS else if x == t.dense[last] then pos else Lookup(t.pages, x)
  {
    RowsMatch(t, e);
    hide Lookup, Written, Bijection, Covered, WithBit, BitAt, TableOk, TableRows;
  }

  /** Dropping e's row with the last one in its place leaves a bijection. */
  lemma {:induction false} BijectionAfter(pages: Pages, pages': Pages, dense: seq<nat>, e: nat)
    requires Bijection(pages, dense) && PagesOk(pages') && Lookup(pages, e) < |dense|
    requires var pos, last := Lookup(pages, e), |dense| - 1;
             forall x: nat :: Lookup(pages', x) == if x == e then NPOS else if x == dense[last] then pos else Lookup(pages, x)
    ensures Bijection(pages', SwapPop(dense, Lookup(pages, e)))
  {
    var pos, last := Lookup(pages, e), |dense| - 1;
    var dense' := SwapPop(dense, pos);
    hide Lookup;
    assert forall i | 0 <= i < last :: dense'[i] == if i == pos then dense[last] else dense[i];
    forall i | 0 <= i < last ensures Lookup(pages', dense'[i]) == i {
      assert Lookup(pages, dense[i]) == i && Lookup(pages, dense[last]) == last;
    }
  }

  lemma {:induction false} WithoutBijection(t: Table, e: nat)
    requires TableOk(t) && Lookup(t.pages, e) != NPOS
    ensures Bijection(Without(t, e).pages, Without(t, e).dense)
  {
    RowsMatch(t, e);
    WithoutLookup(t, e);
    WithoutDense(t, e);
    hide Without, Lookup, Bijection, Covered, TableRows, SwapPop;
    BijectionAfter(t.pages, Without(t, e).pages, t.dense, e);
  }

  lemma {:induction false} RemovedRows(dense: seq<nat>, active: seq<Word>, pos: nat)
    requires Covered(active, |dense|) && pos < |dense|
    ensures var last := |dense| - 1;
            && pos / WIDTH < |active| && last / WIDTH < |active|
            && var active' := if pos != last then WithBit(active, pos, BitAt(active, last)) else active;
               RowsOf(SwapPop(dense, pos), active') == SwapPop(RowsOf(dense, active), pos)
  {
    var last := |dense| - 1;
    WordOf(active, |dense|, pos);
    WordOf(active, |dense|, last);
    var active' := if pos != last then WithBit(active, pos, BitAt(active, last)) else active;
    hide WithBit, BitAt;
    forall i | 0 <= i < last ensures RowsOf(SwapPop(dense, pos), active')[i] == SwapPop(RowsOf(dense, active), pos)[i] {
      WordOf(active, |dense|, i);
    }
  }

  lemma {:induction false} WithoutWords(t: Table, e: nat)
    requires TableOk(t) && Lookup(t.pages, e) != NPOS
    ensures Covered(Without(t, e).active, |t.dense|)
  {
    hide Written, Lookup, Bijection;
  }

  lemma {:induction false} WithoutActive(t: Table, e: nat)
    requires TableOk(t) && Lookup(t.pages, e) != NPOS
    ensures var pos, last := Lookup(t.pages, e), |t.dense| - 1;
            && pos <= last && pos / WIDTH < |t.active| && last / WIDTH < |t.active|
            && Without(t, e).active == if pos != last then WithBit(t.active, pos, BitAt(t.active, last)) else t.active
  {
    OkPages(t);
    hide Written, Lookup, Bijection, Covered, WithBit, BitAt, TableOk, TableRows;
  }

  lemma {:induction false} SwapPopIs<T>(s: seq<T>, i: nat)
    requires i < |s|
    ensures var last := |s| - 1;
            SwapPop(s, i) == if i != last then s[i := s[last]][..last] else s[..last]
  {
  }

  /** Removing a row keeps the table sound. */
  lemma {:induction false} RemoveKeeps(t: Table, e: nat)
    requires TableOk(t) && Lookup(t.pages, e) != NPOS
    ensures TableOk(Without(t, e)) && TableRows(Without(t, e)) == SwapPop(TableRows(t), Lookup(t.pages, e))
  {
    hide *;
    WithoutBijection(t, e);
    WithoutWords(t, e);
    WithoutActive(t, e);
    WithoutDense(t, e);
    OkIs(t);
    OkIs(Without(t, e));
    RemovedRows(t.dense, t.active, Lookup(t.pages, e));
    CoveredLess(Without(t, e).active, |Without(t, e).dense|, |t.dense|);
  }

  lemma {:induction false} CoveredLess(words: seq<Word>, n: nat, m: nat)
    requires n <= m && Covered(words, m)
    ensures Covered(words, n)
  {
  }

  lemma {:induction false} OkIs(t: Table)
    ensures TableOk(t) <==> Bijection(t.pages, t.dense) && Covered(t.active, |t.dense|)
    ensures TableOk(t) ==> PagesOk(t.pages) && TableRows(t) == RowsOf(t.dense, t.active)
  {
  }

  class SparseSet {
    var pages: Pages
    var dense: seq<nat>
    var active: seq<Word>

    ghost predicate Valid()
      reads this
    {
      TableOk(State())
    }

    function State(): Table
      reads this
    {
      Table(pages, dense, active)
    }

    /** The rows, in dense order. */
    ghost function Rows(): seq<Row>
      requires Valid()
      reads this
    {
      TableRows(State())
    }

    constructor ()
      ensures Valid() && Rows() == []
    {
      pages, dense, active := [], [], [];
    }

    function Find(e: nat): nat
      requires PagesOk(pages)
      reads this`pages
    {
      Lookup(pages, e)
    }

    method Insert(e: nat, on: bool) returns (pos: nat)
      requires Valid() && Find(e) == NPOS && |dense| + 1 < NPOS
      modifies this
      ensures Valid() && pos == |old(Rows())| && Rows() == old(Rows()) + [Row(e, on)]
    {
      hide TableOk, TableRows, Written, WithBit;
      OkPages(State());
      InsertKeeps(State(), e, on);
      pos := |dense|;
      pages := Written(pages, e, pos);
      dense := dense + [e];
      if pos / WIDTH >= |active| {
        active := active + [0];
      }
      active := WithBit(active, pos, on);
    }

    /** Swap-and-pop; the moved row's bit moves with it. */
    method Remove(e: nat) returns (pos: nat, moved: bool)
      requires Valid() && Find(e) != NPOS
      modifies this
      ensures Valid() && pos == old(Find(e)) < |old(Rows())| && moved == (pos != |old(Rows())| - 1)
      ensures Rows() == SwapPop(old(Rows()), pos)
    {
      hide TableOk, TableRows, Written, WithBit, SwapPop, BitAt;
      OkPages(State());
      WithoutWords(State(), e);
      RemoveKeeps(State(), e);
      pos := Find(e);
      var last := |dense| - 1;
      moved := pos != last;
      if moved {
        var movedEntity := dense[last];
        dense := dense[pos := movedEntity];
        pages := Written(pages, movedEntity, pos);
        active := WithBit(active, pos, BitAt(active, last));
      }
      pages := Written(pages, e, NPOS);
      dense := dense[..last];
    }

    method SetActive(pos: nat, on: bool)
      requires Valid() && pos < |dense|
      modifies this`active
      ensures Valid() && Rows() == old(Rows())[pos := Row(dense[pos], on)]
    {
      ghost var before := Rows();
      active := WithBit(active, pos, on);
      forall i | 0 <= i < |dense| ensures Rows()[i] == before[pos := Row(dense[pos], on)][i] {
      }
    }
  }

  // ---- the value pool -----------------------------------------------------------------------------------

  /** Values parallel to the dense rows. */
  class Pool<T> {
    const set_: SparseSet
    var data: seq<T>

    ghost predicate Valid()
      reads this, set_
    {
      set_.Valid() && |data| == |set_.dense|
    }

    constructor ()
      ensures Valid() && fresh(set_) && set_.Rows() == [] && data == []
    {
      set_ := new SparseSet();
      data := [];
    }

    method Emplace(e: nat, value: T, on: bool)
      requires Valid() && set_.Find(e) == NPOS && |data| + 1 < NPOS
      modifies this, set_
      ensures Valid() && set_.Rows() == old(set_.Rows()) + [Row(e, on)] && data == old(data) + [value]
    {
      var pos := set_.Insert(e, on);
      data := data + [value];
    }

    /** Drops e's row and value; the last value follows the last row. */
    method Erase(e: nat) returns (had: bool)
      requires Valid()
      modifies this, set_
      ensures Valid() && had == (old(set_.Find(e)) != NPOS)
      ensures !had ==> set_.Rows() == old(set_.Rows()) && data == old(data)
      ensures had ==> old(set_.Find(e)) < |old(data)| && set_.Rows() == SwapPop(old(set_.Rows()), old(set_.Find(e)))
                      && data == SwapPop(old(data), old(set_.Find(e)))
    {
      if set_.Find(e) == NPOS {
        return false;
      }
      ghost var before := data;
      var pos, moved := set_.Remove(e);
      if moved {
        data := data[pos := data[|data| - 1]];
      }
      data := data[..|data| - 1];
      assert data == SwapPop(before, pos);
      return true;
    }
  }

  /** An entity's value in a pool with one row each. */
  ghost function ValueIn<T>(rows: seq<Row>, data: seq<T>, e: nat): set<T>
    requires |rows| == |data|
  {
    set i | 0 <= i < |rows| && rows[i].entity == e :: data[i]
  }

  /** Erasing one entity leaves every other entity's value with it. */
  lemma {:induction false} ValuesFollow<T>(rows: seq<Row>, data: seq<T>, i: nat, e: nat)
    requires OneRowEach(rows) && |rows| == |data| && i < |rows| && e != rows[i].entity
    ensures ValueIn(SwapPop(rows, i), SwapPop(data, i), e) == ValueIn(rows, data, e)
  {
    var r, d, last := SwapPop(rows, i), SwapPop(data, i), |rows| - 1;
    forall v | v in ValueIn(rows, data, e) ensures v in ValueIn(r, d, e) {
      var k :| 0 <= k < |rows| && rows[k].entity == e && data[k] == v;
      var k' := if k == last then i else k;
      assert r[k'].entity == e && d[k'] == v;
    }
    forall v | v in ValueIn(r, d, e) ensures v in ValueIn(rows, data, e) {
      var k :| 0 <= k < |r| && r[k].entity == e && d[k] == v;
      var k' := if k == i then last else k;
      assert rows[k'].entity == e && data[k'] == v;
    }
  }
}
