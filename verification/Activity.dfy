/** What one entity's rows look like across the pools, and how going dormant and waking up
    capture and restore their active bits. */
module Activity {
  import opened Forest
  import opened BitWords

  /** An entity's row in one pool. */
  datatype Row = Absent | Inactive | Active

  /** The entity's rows, one per pool in registration order. */
  type Column = seq<Row>

  /** The active bits of one pool's rows. */
  type Pool = map<EntityRef, bool>

  function ColumnOf(pools: seq<Pool>, e: EntityRef): (col: Column)
    ensures |col| == |pools|
  {
    seq(|pools|, i requires 0 <= i < |pools| => if e in pools[i] then RowOf(pools[i][e]) else Absent)
  }

  function Groups(pools: nat): nat { (pools + 63) / 64 }

  function RowOf(active: bool): Row { if active then Active else Inactive }

  /** Saved words alternate [present, active]: bit i is set in the present (k = 0) or active
      (k = 1) word of its group. */
  predicate SavedBit(saved: seq<Word>, i: nat, k: nat) {
    i / WIDTH * 2 + k < |saved| && Has(saved[i / WIDTH * 2 + k], i % WIDTH)
  }

  /** The words that say exactly which rows exist and which are active. */
  ghost predicate Captures(saved: seq<Word>, col: Column) {
    && |saved| == Groups(|col|) * 2
    && (forall i: nat :: SavedBit(saved, i, 0) <==> i < |col| && col[i] != Absent)
    && (forall i: nat :: SavedBit(saved, i, 1) <==> i < |col| && col[i] == Active)
  }

  function Cleared(col: Column): (r: Column)
    ensures |r| == |col|
  {
    seq(|col|, i requires 0 <= i < |col| => if col[i] == Absent then Absent else Inactive)
  }

  /** Rows captured as present get their captured bit back; the others keep theirs. */
  function Restored(col: Column, saved: seq<Word>): (r: Column)
    ensures |r| == |col|
  {
    seq(|col|, i requires 0 <= i < |col| =>
          if col[i] != Absent && SavedBit(saved, i, 0) then RowOf(SavedBit(saved, i, 1)) else col[i])
  }

  /** Every captured row still exists. */
  ghost predicate RowsKept(saved: seq<Word>, col: Column) {
    forall i: nat | SavedBit(saved, i, 0) :: i < |col| && col[i] != Absent
  }

  /** One entity's captured words and rows after its covering-scope count goes from old_ to new_. */
  ghost predicate Shifts(old_: nat, new_: nat, saved: seq<Word>, col: Column, saved': seq<Word>, col': Column) {
    if old_ == 0 && new_ > 0 then Captures(saved', col) && col' == Cleared(col)
    else if old_ > 0 && new_ == 0 then saved' == [] && col' == Restored(col, saved)
    else saved' == saved && col' == col
  }

  /** The activity the entity has awake: what it will get back, or has. */
  ghost function Intended(saved: seq<Word>, col: Column): Column { Restored(col, saved) }

  lemma {:induction false} AwakeIntends(col: Column)
    ensures Intended([], col) == col
  {
  }

  /** Going dormant and waking up, at any nesting, leaves the intended activity as it was. */
  lemma {:induction false} ShiftKeepsIntended(old_: nat, new_: nat, saved: seq<Word>, col: Column, saved': seq<Word>, col': Column)
    requires Shifts(old_, new_, saved, col, saved', col') && RowsKept(saved, col) && (old_ == 0 ==> saved == [])
    ensures Intended(saved', col') == Intended(saved, col)
    ensures RowsKept(saved', col') && (new_ == 0 ==> saved' == [])
  {
    if old_ == 0 && new_ > 0 {
      forall i | 0 <= i < |col| ensures Intended(saved', col')[i] == Intended(saved, col)[i] {
        assert col'[i] == Cleared(col)[i];
        assert SavedBit(saved', i, 0) <==> col[i] != Absent;
        assert SavedBit(saved', i, 1) <==> col[i] == Active;
      }
    }
  }

  /** Once awake the rows are what was intended; a captured row then has its bit from capture time. */
  lemma {:induction false} LastScopeRestores(old_: nat, saved: seq<Word>, col: Column, saved': seq<Word>, col': Column)
    requires Shifts(old_, 0, saved, col, saved', col') && (old_ == 0 ==> saved == [])
    ensures col' == Intended(saved, col)
  {
    if old_ == 0 {
      AwakeIntends(col);
    }
  }

  /** A row captured when the entity went dormant comes back with its bit from then, whatever was
      written to it meanwhile; a row added meanwhile keeps the bit it was given. */
  lemma {:induction false} CapturedBitReturns(saved: seq<Word>, then_: Column, now: Column, i: nat)
    requires Captures(saved, then_) && RowsKept(saved, now) && i < |now|
    ensures Restored(now, saved)[i] == if i < |then_| && then_[i] != Absent then then_[i] else now[i]
  {
    assert SavedBit(saved, i, 0) <==> i < |then_| && then_[i] != Absent;
    assert SavedBit(saved, i, 1) <==> i < |then_| && then_[i] == Active;
  }

  // ---- the two loops over the pools ----------------------------------------------------------

  /** The same rows, and the same bits for everyone but e. */
  ghost predicate OthersKept(pools: seq<Pool>, pools': seq<Pool>, e: EntityRef) {
    |pools'| == |pools|
    && forall i | 0 <= i < |pools| ::
      pools'[i].Keys == pools[i].Keys && forall x | x in pools[i] && x != e :: pools'[i][x] == pools[i][x]
  }

  lemma {:induction false} OtherColumns(pools: seq<Pool>, pools': seq<Pool>, e: EntityRef, x: EntityRef)
    requires OthersKept(pools, pools', e) && x != e
    ensures ColumnOf(pools', x) == ColumnOf(pools, x)
  {
    forall i | 0 <= i < |pools| ensures ColumnOf(pools', x)[i] == ColumnOf(pools, x)[i] {
      assert pools'[i].Keys == pools[i].Keys;
    }
  }

  lemma {:induction false} KeptAtStart(pools: seq<Pool>, e: EntityRef)
    ensures OthersKept(pools, pools, e)
  {
  }

  lemma {:induction false} OneBit(start: seq<Pool>, pools: seq<Pool>, e: EntityRef, i: nat, b: bool)
    requires OthersKept(start, pools, e) && i < |pools| && e in pools[i]
    ensures OthersKept(start, pools[i := pools[i][e := b]], e)
    ensures ColumnOf(pools[i := pools[i][e := b]], e) == ColumnOf(pools, e)[i := RowOf(b)]
  {
    assert pools[i].Keys == start[i].Keys;
  }

  /** The first i pools are captured. */
  ghost predicate Capturing(saved: seq<Word>, col: Column, i: nat) {
    && |saved| == Groups(|col|) * 2 && i <= |col|
    && (forall j: nat :: SavedBit(saved, j, 0) <==> j < i && col[j] != Absent)
    && (forall j: nat :: SavedBit(saved, j, 1) <==> j < i && col[j] == Active)
  }

  /** Of the first i rows the new state, of the others the old one. */
  ghost predicate Half(now: Column, was: Column, then_: Column, i: nat) {
    |now| == |was| == |then_| && forall j | 0 <= j < |now| :: now[j] == if j < i then then_[j] else was[j]
  }

  lemma {:induction false} CaptureStart(col: Column)
    ensures Capturing(seq(Groups(|col|) * 2, _ => 0), col, 0) && Half(col, col, Cleared(col), 0)
  {
  }

  function WithBit(saved: seq<Word>, i: nat, k: nat): (r: seq<Word>)
    requires i / WIDTH * 2 + k < |saved|
    ensures |r| == |saved|
  {
    saved[i / WIDTH * 2 + k := SetAt(saved[i / WIDTH * 2 + k], i % WIDTH)]
  }

  lemma {:induction false} WithBitSets(saved: seq<Word>, i: nat, k: nat, j: nat, m: nat)
    requires i / WIDTH * 2 + k < |saved| && k < 2 && m < 2
    ensures SavedBit(WithBit(saved, i, k), j, m) <==> SavedBit(saved, j, m) || (j == i && m == k)
  {
  }

  lemma {:induction false} CaptureStep(saved: seq<Word>, col: Column, now: Column, i: nat)
    requires Capturing(saved, col, i) && Half(now, col, Cleared(col), i) && i < |col|
    ensures i / WIDTH * 2 + 1 < |saved|
    ensures col[i] == Absent ==> Capturing(saved, col, i + 1) && Half(now, col, Cleared(col), i + 1)
    ensures col[i] == Inactive ==> Capturing(WithBit(saved, i, 0), col, i + 1)
    ensures col[i] == Active ==> Capturing(WithBit(WithBit(saved, i, 0), i, 1), col, i + 1)
    ensures col[i] != Absent ==> Half(now[i := Inactive], col, Cleared(col), i + 1)
  {
    hide WithBit;
    var a, b := WithBit(saved, i, 0), WithBit(WithBit(saved, i, 0), i, 1);
    forall j: nat
      ensures SavedBit(a, j, 0) <==> SavedBit(saved, j, 0) || j == i
      ensures SavedBit(a, j, 1) <==> SavedBit(saved, j, 1)
      ensures SavedBit(b, j, 0) <==> SavedBit(saved, j, 0) || j == i
      ensures SavedBit(b, j, 1) <==> SavedBit(saved, j, 1) || j == i
    {
      WithBitSets(saved, i, 0, j, 0);
      WithBitSets(saved, i, 0, j, 1);
      WithBitSets(a, i, 1, j, 0);
      WithBitSets(a, i, 1, j, 1);
    }
  }

  lemma {:induction false} CaptureDone(saved: seq<Word>, col: Column, now: Column)
    requires Capturing(saved, col, |col|) && Half(now, col, Cleared(col), |col|)
    ensures Captures(saved, col) && now == Cleared(col)
  {
  }

  lemma {:induction false} RestoreStart(saved: seq<Word>, col: Column)
    ensures Half(col, col, Restored(col, saved), 0)
  {
  }

  lemma {:induction false} RestoreStep(saved: seq<Word>, col: Column, now: Column, i: nat)
    requires Half(now, col, Restored(col, saved), i) && i < |col|
    ensures !SavedBit(saved, i, 0) || col[i] == Absent ==> Half(now, col, Restored(col, saved), i + 1)
    ensures SavedBit(saved, i, 0) && col[i] != Absent ==> Half(now[i := RowOf(SavedBit(saved, i, 1))], col, Restored(col, saved), i + 1)
    ensures now[i] == col[i]
  {
  }

  /** Past the saved words nothing is captured. */
  lemma {:induction false} RestoreDone(saved: seq<Word>, col: Column, now: Column, i: nat)
    requires Half(now, col, Restored(col, saved), i) && |saved| % 2 == 0 && (i >= |col| || i >= |saved| / 2 * WIDTH)
    ensures now == Restored(col, saved)
  {
    forall j | 0 <= j < |col| ensures now[j] == Restored(col, saved)[j] {
    }
  }
}
