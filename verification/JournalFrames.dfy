/** How a journal's lines are cut into frames, and what its index says about them. */
module JournalFrames {
  import opened Utf8
  import opened JsonModel
  import opened JsonSyntax
  import opened JsonNumbers
  import opened JsonRoundTrip
  import opened JournalRecord

  const NEWLINE: byte := LINE_FEED

  /** The plain text of some records: one line each. */
  function Lines(f: Floats, rs: seq<Record>): Bytes {
    if rs == [] then [] else ToLine(f, rs[0]) + [NEWLINE] + Lines(f, rs[1..])
  }

  lemma {:induction false} LinesAppend(f: Floats, a: seq<Record>, b: seq<Record>)
    ensures Lines(f, a + b) == Lines(f, a) + Lines(f, b)
  {
    hide ToLine;
    if a == [] {
      assert a + b == b;
    } else {
      assert (a + b)[0] == a[0] && (a + b)[1..] == a[1..] + b;
      LinesAppend(f, a[1..], b);
    }
  }

  lemma {:induction false} LinesOne(f: Floats, r: Record)
    ensures Lines(f, [r]) == ToLine(f, r) + [NEWLINE]
  {
    hide ToLine;
    assert [r][1..] == [];
    assert Lines(f, [r][1..]) == [];
  }

  // ---- a line holds no newline ----------------------------------------------------------------------

  predicate OneLine(s: Bytes) { NEWLINE !in s }

  lemma {:induction false} EscapedOneLine(s: Bytes)
    ensures OneLine(EscapedBytes(s))
  {
    if s != [] {
      EscapedOneLine(s[1..]);
    }
  }

  lemma {:induction false} DigitsOneLine(s: Bytes)
    requires AllDigits(s)
    ensures OneLine(s)
  {
  }

  lemma {:induction false} TokenOneLine(t: Token)
    requires IsToken(t)
    ensures OneLine(Spelled(t))
  {
    DigitsOneLine(t.whole);
    if t.fraction != [] {
      DigitsOneLine(t.fraction[1..]);
      assert t.fraction == [t.fraction[0]] + t.fraction[1..];
    }
    if t.exponent != [] {
      var d := if t.exponent[1] == PLUS || t.exponent[1] == MINUS then t.exponent[2..] else t.exponent[1..];
      DigitsOneLine(d);
      assert t.exponent == t.exponent[..|t.exponent| - |d|] + d;
      assert OneLine(t.exponent[..|t.exponent| - |d|]);
    }
  }

  lemma {:induction false} TextOneLine(f: Floats, v: Json)
    requires FloatsOk(f)
    ensures OneLine(Text(f, v))
    decreases v, Count(v) + 1
  {
    match v
    case Int(n) =>
      var t := IntToken(n);
      TokenOneLine(t);
    case Num(d) =>
      if f.finite(d) {
        var t := FloatToken(f, d);
        TokenOneLine(t);
      }
    case Str(s) => EscapedOneLine(s);
    case Arr(_) => ElementsOneLine(f, v, 0);
    case Obj(_) => MembersOneLine(f, v, 0);
    case _ =>
  }

  lemma {:induction false} ElementsOneLine(f: Floats, v: Json, i: nat)
    requires v.Arr? && FloatsOk(f) && i <= |v.elements|
    ensures OneLine(ElementsText(f, v, i))
    decreases v, |v.elements| - i
  {
    if i < |v.elements| {
      TextOneLine(f, v.elements[i]);
      ElementsOneLine(f, v, i + 1);
    }
  }

  lemma {:induction false} MembersOneLine(f: Floats, v: Json, i: nat)
    requires v.Obj? && FloatsOk(f) && i <= |v.members|
    ensures OneLine(MembersText(f, v, i))
    decreases v, |v.members| - i
  {
    if i < |v.members| {
      EscapedOneLine(v.members[i].key);
      TextOneLine(f, v.members[i].value);
      MembersOneLine(f, v, i + 1);
    }
  }

  // ---- frames -------------------------------------------------------------------------------------------

  /** The records of each frame, in order. */
  type Groups = seq<seq<Record>>

  function All(groups: Groups): seq<Record> {
    if groups == [] then [] else groups[0] + All(groups[1..])
  }

  lemma {:induction false} AllAppend(a: Groups, b: Groups)
    ensures All(a + b) == All(a) + All(b)
  {
    if a == [] {
      assert a + b == b;
    } else {
      assert (a + b)[0] == a[0] && (a + b)[1..] == a[1..] + b;
      AllAppend(a[1..], b);
    }
  }

  /** Ticks never go back, ids always go up, and a cause is older than its record. */
  predicate Ordered(rs: seq<Record>) {
    forall i, j | 0 <= i < j < |rs| :: rs[i].tick <= rs[j].tick && rs[i].id < rs[j].id
  }

  predicate Caused(rs: seq<Record>) { forall i | 0 <= i < |rs| :: rs[i].cause < rs[i].id }

  /** A frame spans less than one stride of ticks from its first record; the next one starts no earlier
      than a stride on. */
  predicate FrameAt(groups: Groups, stride: nat, k: nat)
    requires k < |groups|
  {
    && groups[k] != []
    && (forall i | 0 <= i < |groups[k]| :: groups[k][0].tick <= groups[k][i].tick < groups[k][0].tick + stride)
    && (k + 1 < |groups| && groups[k + 1] != [] ==> groups[k][0].tick + stride <= groups[k + 1][0].tick)
  }

  predicate Framed(groups: Groups, stride: nat) { forall k | 0 <= k < |groups| :: FrameAt(groups, stride, k) }

  // ---- the writer's rule ---------------------------------------------------------------------------

  const LIMIT: nat := 0x1_0000_0000_0000_0000

  /** The tick at which the next frame is due, in 64-bit arithmetic. */
  function NextCut(tick: nat, stride: nat): nat { (tick + stride) % LIMIT }

  /** A frame takes records until that tick; the record that reaches it opens the next frame. */
  predicate CutAt(groups: Groups, stride: nat, k: nat)
    requires k < |groups|
  {
    && groups[k] != []
    && (forall i | 0 < i < |groups[k]| :: groups[k][0].tick <= groups[k][i].tick < NextCut(groups[k][0].tick, stride))
    && (k + 1 < |groups| && groups[k + 1] != [] ==> NextCut(groups[k][0].tick, stride) <= groups[k + 1][0].tick)
  }

  predicate Cut(groups: Groups, stride: nat) { forall k | 0 <= k < |groups| :: CutAt(groups, stride, k) }

  /** No frame begins so late that its next cut wraps around. */
  predicate NoWrap(groups: Groups, stride: nat) {
    forall k | 0 <= k < |groups| && groups[k] != [] :: groups[k][0].tick + stride < LIMIT
  }

  /** Without wrap-around the frames span less than a stride and start a stride apart. */
  lemma {:induction false} CutIsFramed(groups: Groups, stride: nat)
    requires Cut(groups, stride) && NoWrap(groups, stride) && stride > 0
    ensures Framed(groups, stride)
  {
    forall k | 0 <= k < |groups| ensures FrameAt(groups, stride, k) {
      assert CutAt(groups, stride, k);
      assert NextCut(groups[k][0].tick, stride) == groups[k][0].tick + stride;
    }
  }

  lemma {:induction false} SecondInFrame(groups: Groups, stride: nat, k: nat)
    requires k < |groups| && CutAt(groups, stride, k) && |groups[k]| > 1
    ensures groups[k][0].tick < NextCut(groups[k][0].tick, stride)
  {
    assert groups[k][0].tick <= groups[k][1].tick;
  }

  /** Where the next cut wraps around, the frame stays a single record: every later record opens a
      frame of its own. */
  lemma {:induction false} WrapIsAlone(groups: Groups, stride: nat, k: nat)
    requires Cut(groups, stride) && stride < LIMIT && k < |groups| && groups[k] != [] && groups[k][0].tick + stride >= LIMIT
    ensures |groups[k]| == 1
  {
    assert CutAt(groups, stride, k);
    assert NextCut(groups[k][0].tick, stride) == groups[k][0].tick + stride - LIMIT;
    if |groups[k]| > 1 {
      SecondInFrame(groups, stride, k);
    }
  }

  /** An example: two records on the very last tick make two frames with the same first tick, which
      the index check refuses. */
  lemma {:induction false} WrapRepeatsTick(a: Record, b: Record)
    requires a.tick == LIMIT - 1 == b.tick && a.id < b.id
    ensures Cut([[a], [b]], 1) && Ordered(All([[a], [b]])) && !([[a], [b]][0][0].tick < [[a], [b]][1][0].tick)
  {
    var groups := [[a], [b]];
    assert groups[1..] == [[b]] && [[b]][1..] == [];
    assert All([[b]]) == [b] + All([[b]][1..]);
    assert All(groups) == [a] + All(groups[1..]);
    assert All(groups) == [a, b];
    forall k | 0 <= k < |groups| ensures CutAt(groups, 1, k) {
    }
  }

  datatype IndexEntry = IndexEntry(tick: nat, recordId: nat, offset: nat, frameOffset: nat)

  /** Compressed bytes of the first k frames. */
  function SizeOf(sizes: nat -> nat, k: nat): nat {
    if k == 0 then 0 else SizeOf(sizes, k - 1) + sizes(k - 1)
  }

  predicate EntryAt(f: Floats, sizes: nat -> nat, groups: Groups, entries: seq<IndexEntry>, k: nat)
    requires k < |groups| && k < |entries|
  {
    groups[k] != []
    && entries[k] == IndexEntry(groups[k][0].tick, groups[k][0].id, |Lines(f, All(groups[..k]))|, SizeOf(sizes, k))
  }

  /** The index names, for each frame, its first record's tick and id and where it starts, plain and compressed. */
  predicate Indexed(f: Floats, sizes: nat -> nat, groups: Groups, entries: seq<IndexEntry>) {
    |entries| == |groups| && forall k | 0 <= k < |groups| :: EntryAt(f, sizes, groups, entries, k)
  }

  // ---- what the index check asks for --------------------------------------------------------------------

  lemma {:induction false} LinesGrow(f: Floats, groups: Groups, k: nat)
    requires k < |groups| && groups[k] != []
    ensures |Lines(f, All(groups[..k]))| < |Lines(f, All(groups[..k + 1]))|
  {
    hide ToLine;
    assert groups[..k + 1] == groups[..k] + [groups[k]];
    AllAppend(groups[..k], [groups[k]]);
    assert [groups[k]][1..] == [];
    assert All([groups[k]]) == groups[k] + All([groups[k]][1..]);
    assert All([groups[k]]) == groups[k];
    LinesAppend(f, All(groups[..k]), groups[k]);
    assert |Lines(f, groups[k])| > 0;
  }

  /** Consecutive entries increase strictly in all four numbers. */
  lemma {:induction false} EntriesIncrease(f: Floats, sizes: nat -> nat, groups: Groups, stride: nat, entries: seq<IndexEntry>, k: nat)
    requires Framed(groups, stride) && stride > 0 && Indexed(f, sizes, groups, entries) && Ordered(All(groups)) && k + 1 < |entries|
    requires forall n :: sizes(n) > 0
    ensures entries[k].tick < entries[k + 1].tick && entries[k].recordId < entries[k + 1].recordId
    ensures entries[k].offset < entries[k + 1].offset && entries[k].frameOffset < entries[k + 1].frameOffset
  {
    assert FrameAt(groups, stride, k) && FrameAt(groups, stride, k + 1);
    assert EntryAt(f, sizes, groups, entries, k) && EntryAt(f, sizes, groups, entries, k + 1);
    LinesGrow(f, groups, k);
    hide Lines, Ordered, Framed, Indexed;
    var i := Place(groups, k);
    var j := Place(groups, k + 1);
    PlacesApart(groups, k);
    IdsApart(All(groups), |All(groups[..k])|, |All(groups[..k + 1])|);
  }

  lemma {:induction false} IdsApart(rs: seq<Record>, i: nat, j: nat)
    requires Ordered(rs) && i < j < |rs|
    ensures rs[i].id < rs[j].id
  {
  }

  /** Where a frame's first record is among all records. */
  lemma {:induction false} Place(groups: Groups, k: nat) returns (i: nat)
    requires k < |groups| && groups[k] != []
    ensures i == |All(groups[..k])| < |All(groups)| && All(groups)[i] == groups[k][0]
  {
    i := |All(groups[..k])|;
    assert groups == groups[..k] + ([groups[k]] + groups[k + 1..]);
    AllAppend(groups[..k], [groups[k]] + groups[k + 1..]);
    var tail := [groups[k]] + groups[k + 1..];
    assert tail[0] == groups[k] && tail[1..] == groups[k + 1..];
    assert All(tail) == groups[k] + All(groups[k + 1..]);
  }

  lemma {:induction false} PlacesApart(groups: Groups, k: nat)
    requires k < |groups| && groups[k] != []
    ensures |All(groups[..k])| < |All(groups[..k + 1])|
  {
    assert groups[..k + 1] == groups[..k] + [groups[k]];
    AllAppend(groups[..k], [groups[k]]);
    assert [groups[k]][1..] == [];
    assert All([groups[k]]) == groups[k] + All([groups[k]][1..]);
  }

  // ---- seeking ---------------------------------------------------------------------------------------------

  /** The records from a tick on. */
  function From(rs: seq<Record>, tick: nat): seq<Record> {
    if rs == [] then [] else if rs[0].tick < tick then From(rs[1..], tick) else [rs[0]] + From(rs[1..], tick)
  }

  lemma {:induction false} FromAppend(a: seq<Record>, b: seq<Record>, tick: nat)
    ensures From(a + b, tick) == From(a, tick) + From(b, tick)
  {
    if a == [] {
      assert a + b == b;
    } else {
      assert (a + b)[0] == a[0] && (a + b)[1..] == a[1..] + b;
      FromAppend(a[1..], b, tick);
    }
  }

  lemma {:induction false} FromNone(rs: seq<Record>, tick: nat)
    requires forall i | 0 <= i < |rs| :: rs[i].tick < tick
    ensures From(rs, tick) == []
  {
    if rs != [] {
      FromNone(rs[1..], tick);
    }
  }

  /** The frame a seek starts at: the last one whose first tick is not past the target. */
  predicate SeekFrame(entries: seq<IndexEntry>, tick: nat, k: nat) {
    && k <= |entries| && (k < |entries| || entries == [])
    && (forall i | 0 < i < |entries| :: i <= k <==> entries[i].tick <= tick)
  }

  lemma {:induction false} GroupBefore(groups: Groups, stride: nat, i: nat, j: nat)
    requires Framed(groups, stride) && i < j < |groups|
    ensures groups[i] != [] && groups[j] != [] && groups[i][0].tick + stride <= groups[j][0].tick
    decreases j
  {
    assert FrameAt(groups, stride, i) && FrameAt(groups, stride, j) && FrameAt(groups, stride, j - 1);
    if i < j - 1 {
      GroupBefore(groups, stride, i, j - 1);
    }
  }

  /** Nothing at or past the target tick lies before the seek frame. */
  lemma {:induction false} NothingSkipped(f: Floats, sizes: nat -> nat, groups: Groups, stride: nat, entries: seq<IndexEntry>, tick: nat, k: nat)
    requires Framed(groups, stride) && Indexed(f, sizes, groups, entries) && SeekFrame(entries, tick, k)
    ensures k <= |groups| && From(All(groups), tick) == From(All(groups[k..]), tick)
  {
    assert groups == groups[..k] + groups[k..];
    AllAppend(groups[..k], groups[k..]);
    FromAppend(All(groups[..k]), All(groups[k..]), tick);
    EarlierFrames(f, sizes, groups, stride, entries, tick, k, k);
  }

  lemma {:induction false} EarlierFrames(f: Floats, sizes: nat -> nat, groups: Groups, stride: nat, entries: seq<IndexEntry>, tick: nat, k: nat, n: nat)
    requires Framed(groups, stride) && Indexed(f, sizes, groups, entries) && SeekFrame(entries, tick, k) && n <= k && k <= |groups|
    ensures From(All(groups[..n]), tick) == []
  {
    if n > 0 {
      EarlierFrames(f, sizes, groups, stride, entries, tick, k, n - 1);
      assert groups[..n] == groups[..n - 1] + [groups[n - 1]];
      AllAppend(groups[..n - 1], [groups[n - 1]]);
      assert [groups[n - 1]][1..] == [];
      assert All([groups[n - 1]]) == groups[n - 1] + All([groups[n - 1]][1..]);
      assert All([groups[n - 1]]) == groups[n - 1];
      FromAppend(All(groups[..n - 1]), groups[n - 1], tick);
      assert k < |entries|;
      GroupBefore(groups, stride, n - 1, k);
      assert FrameAt(groups, stride, n - 1) && EntryAt(f, sizes, groups, entries, k);
      FromNone(groups[n - 1], tick);
    }
  }

  /** What a seek reads past before its target spans less than one stride. */
  lemma {:induction false} SkipsLittle(f: Floats, sizes: nat -> nat, groups: Groups, stride: nat, entries: seq<IndexEntry>, tick: nat, k: nat, i: nat)
    requires Framed(groups, stride) && Indexed(f, sizes, groups, entries) && SeekFrame(entries, tick, k) && k < |groups|
    requires i < |All(groups[k..])| && All(groups[k..])[i].tick < tick
    ensures groups[k] != [] && All(groups[k..])[i].tick < groups[k][0].tick + stride
  {
    assert FrameAt(groups, stride, k);
    assert groups[k..][0] == groups[k] && groups[k..][1..] == groups[k + 1..];
    if i >= |groups[k]| {
      var rest := groups[k + 1..];
      var j, m := GroupOf(rest, i - |groups[k]|);
      LaterFrame(f, sizes, groups, stride, entries, tick, k, k + 1 + j, m);
    }
  }

  /** Every record of a frame after the seek frame is past the target. */
  lemma {:induction false} LaterFrame(f: Floats, sizes: nat -> nat, groups: Groups, stride: nat, entries: seq<IndexEntry>, tick: nat, k: nat, c: nat, m: nat)
    requires Framed(groups, stride) && Indexed(f, sizes, groups, entries) && SeekFrame(entries, tick, k) && k < c < |groups| && m < |groups[c]|
    ensures groups[c][m].tick > tick
  {
    assert FrameAt(groups, stride, c) && EntryAt(f, sizes, groups, entries, c);
  }

  lemma {:induction false} GroupOf(groups: Groups, i: nat) returns (j: nat, m: nat)
    requires i < |All(groups)|
    ensures j < |groups| && m < |groups[j]| && groups[j][m] == All(groups)[i]
  {
    if i < |groups[0]| {
      j, m := 0, i;
    } else {
      j, m := GroupOf(groups[1..], i - |groups[0]|);
      j := j + 1;
    }
  }
}
