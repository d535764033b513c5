/** The index file: what the writer puts in it, and what its reader accepts. */
module JournalIndex {
  import opened Basics
  import opened Utf8
  import opened JsonModel
  import opened JsonSyntax
  import opened JsonRoundTrip
  import opened JsonWriter
  import opened JournalRecord
  import opened JournalFrames

  const SCHEMA: Bytes := [115, 99, 104, 101, 109, 97]
  const STRIDE_TICKS: Bytes := [115, 116, 114, 105, 100, 101, 95, 116, 105, 99, 107, 115]
  const RECORDS: Bytes := [114, 101, 99, 111, 114, 100, 115]
  const JOURNAL_BYTES: Bytes := [106, 111, 117, 114, 110, 97, 108, 95, 98, 121, 116, 101, 115]
  const ENTRIES: Bytes := [101, 110, 116, 114, 105, 101, 115]
  const RECORD_ID: Bytes := [114, 101, 99, 111, 114, 100, 95, 105, 100]
  const OFFSET: Bytes := [111, 102, 102, 115, 101, 116]
  const FRAME_OFFSET: Bytes := [102, 114, 97, 109, 101, 95, 111, 102, 102, 115, 101, 116]

  /** midday.mrj.index/1 */
  const INDEX_SCHEMA: Bytes := [109, 105, 100, 100, 97, 121, 46, 109, 114, 106, 46, 105, 110, 100, 101, 120, 47, 49]

  /** Strides are 32 bits wide. */
  const MAX_STRIDE: nat := 0x1_0000_0000

  datatype Index = Index(stride: nat, records: nat, journalBytes: nat, entries: seq<IndexEntry>)

  // ---- writing ----------------------------------------------------------------------------------------

  /** A 64-bit count as the signed number it is written as. */
  function Cast(n: nat): int { Signed(n % LIMIT) }

  function EntryMembers(e: IndexEntry): seq<Member> {
    [Member(TICK, Int(Cast(e.tick))), Member(RECORD_ID, Int(Cast(e.recordId))),
     Member(OFFSET, Int(Cast(e.offset))), Member(FRAME_OFFSET, Int(Cast(e.frameOffset)))]
  }

  function EntriesJson(entries: seq<IndexEntry>): (r: seq<Json>)
    ensures |r| == |entries|
  {
    seq(|entries|, i requires 0 <= i < |entries| => Obj(EntryMembers(entries[i])))
  }

  function IndexMembers(ix: Index): seq<Member> {
    [Member(SCHEMA, Str(INDEX_SCHEMA)), Member(STRIDE_TICKS, Int(Cast(ix.stride))), Member(RECORDS, Int(Cast(ix.records))),
     Member(JOURNAL_BYTES, Int(Cast(ix.journalBytes))), Member(ENTRIES, Arr(EntriesJson(ix.entries)))]
  }

  function IndexJson(ix: Index): Json { Obj(IndexMembers(ix)) }

  method ToJson(ix: Index) returns (v: Json)
    ensures v == IndexJson(ix)
  {
    var list: seq<Json> := [];
    var i := 0;
    while i < |ix.entries|
      invariant i <= |ix.entries| && list == EntriesJson(ix.entries)[..i]
    {
      list := list + [Obj(EntryMembers(ix.entries[i]))];
      i := i + 1;
    }
    assert list == EntriesJson(ix.entries);
    return Obj([Member(SCHEMA, Str(INDEX_SCHEMA)), Member(STRIDE_TICKS, Int(Cast(ix.stride))), Member(RECORDS, Int(Cast(ix.records))),
                Member(JOURNAL_BYTES, Int(Cast(ix.journalBytes))), Member(ENTRIES, Arr(list))]);
  }

  // ---- reading ------------------------------------------------------------------------------------------

  datatype Fault =
    | NotJsonText | IndexNotObject | IndexUnknownKeys | UnknownSchema | IndexBadField
    | EntryNotObject | EntryUnknownKeys | EntryBadField | NotIncreasing

  datatype EntryRead = Entry(e: IndexEntry) | EntryBad(why: Fault)

  datatype EntriesRead = Entries(list: seq<IndexEntry>) | EntriesBad(why: Fault)

  datatype IndexRead = IndexOk(index: Index) | IndexBad(why: Fault)

  predicate Among(members: seq<Member>, keys: set<Bytes>) { forall i | 0 <= i < |members| :: members[i].key in keys }

  function EntryOf(v: Json): EntryRead {
    if !v.Obj? then EntryBad(EntryNotObject)
    else if !Among(v.members, {TICK, RECORD_ID, OFFSET, FRAME_OFFSET}) then EntryBad(EntryUnknownKeys)
    else
      var tick, id := Unsigned(v.members, TICK), Unsigned(v.members, RECORD_ID);
      var offset, frameOffset := Unsigned(v.members, OFFSET), Unsigned(v.members, FRAME_OFFSET);
      if tick.None? || id.None? || offset.None? || frameOffset.None? then EntryBad(EntryBadField)
      else Entry(IndexEntry(tick.value, id.value, offset.value, frameOffset.value))
  }

  predicate Above(a: IndexEntry, b: IndexEntry) {
    a.tick < b.tick && a.recordId < b.recordId && a.offset < b.offset && a.frameOffset < b.frameOffset
  }

  predicate Increasing(entries: seq<IndexEntry>) { forall k | 0 < k < |entries| :: Above(entries[k - 1], entries[k]) }

  /** What the first n elements give: the entries, or the first fault. */
  function ReadEntries(elements: seq<Json>, n: nat): EntriesRead
    requires n <= |elements|
  {
    if n == 0 then Entries([])
    else
      match ReadEntries(elements, n - 1)
      case EntriesBad(why) => EntriesBad(why)
      case Entries(list) =>
        match EntryOf(elements[n - 1])
        case EntryBad(why) => EntriesBad(why)
        case Entry(e) => if list != [] && !Above(list[|list| - 1], e) then EntriesBad(NotIncreasing) else Entries(list + [e])
  }

  function ReadIndex(v: Json): IndexRead {
    if !v.Obj? then IndexBad(IndexNotObject)
    else if !Among(v.members, {SCHEMA, STRIDE_TICKS, RECORDS, JOURNAL_BYTES, ENTRIES}) then IndexBad(IndexUnknownKeys)
    else if StringField(v.members, SCHEMA) != Some(INDEX_SCHEMA) then IndexBad(UnknownSchema)
    else
      var stride, records := Unsigned(v.members, STRIDE_TICKS), Unsigned(v.members, RECORDS);
      var bytes, entries := Unsigned(v.members, JOURNAL_BYTES), Find(v.members, ENTRIES);
      if stride.None? || stride.value == 0 || records.None? || bytes.None? || entries.None? || !entries.value.Arr? then IndexBad(IndexBadField)
      else
        match ReadEntries(entries.value.elements, |entries.value.elements|)
        case EntriesBad(why) => IndexBad(why)
        case Entries(list) => IndexOk(Index(stride.value % MAX_STRIDE, records.value, bytes.value, list))
  }

  /** The loop over the elements, stopping at the first fault. */
  method FromJson(v: Json) returns (r: IndexRead)
    ensures r == ReadIndex(v)
  {
    if !v.Obj? {
      return IndexBad(IndexNotObject);
    }
    if !Among(v.members, {SCHEMA, STRIDE_TICKS, RECORDS, JOURNAL_BYTES, ENTRIES}) {
      return IndexBad(IndexUnknownKeys);
    }
    if StringField(v.members, SCHEMA) != Some(INDEX_SCHEMA) {
      return IndexBad(UnknownSchema);
    }
    var stride, records := Unsigned(v.members, STRIDE_TICKS), Unsigned(v.members, RECORDS);
    var bytes, entries := Unsigned(v.members, JOURNAL_BYTES), Find(v.members, ENTRIES);
    if stride.None? || stride.value == 0 || records.None? || bytes.None? || entries.None? || !entries.value.Arr? {
      return IndexBad(IndexBadField);
    }
    var elements := entries.value.elements;
    var index := Index(stride.value % MAX_STRIDE, records.value, bytes.value, []);
    var i := 0;
    while i < |elements|
      invariant i <= |elements| && ReadEntries(elements, i) == Entries(index.entries)
      invariant index == Index(stride.value % MAX_STRIDE, records.value, bytes.value, index.entries)
    {
      var entry := EntryOf(elements[i]);
      if entry.EntryBad? {
        FaultStays(elements, i + 1, |elements|);
        return IndexBad(entry.why);
      }
      if index.entries != [] && !Above(index.entries[|index.entries| - 1], entry.e) {
        FaultStays(elements, i + 1, |elements|);
        return IndexBad(NotIncreasing);
      }
      index := index.(entries := index.entries + [entry.e]);
      i := i + 1;
    }
    return IndexOk(index);
  }

  lemma {:induction false} FaultStays(elements: seq<Json>, n: nat, m: nat)
    requires n <= m <= |elements| && ReadEntries(elements, n).EntriesBad?
    ensures ReadEntries(elements, m) == ReadEntries(elements, n)
    decreases m - n
  {
    if n < m {
      FaultStays(elements, n, m - 1);
    }
  }

  /** Entries are read exactly when every element is one and they increase strictly; they come in order. */
  lemma {:induction false} ReadEntriesIff(elements: seq<Json>, n: nat, list: seq<IndexEntry>)
    requires n <= |elements|
    ensures ReadEntries(elements, n) == Entries(list)
            <==> |list| == n && (forall k | 0 <= k < n :: EntryOf(elements[k]) == Entry(list[k])) && Increasing(list)
    decreases n
  {
    hide EntryOf, Above;
    if n > 0 {
      if |list| == n {
        var front := list[..n - 1];
        assert list == front + [list[n - 1]];
        ReadEntriesIff(elements, n - 1, front);
        IncreasingMore(front, list[n - 1]);
      }
      if ReadEntries(elements, n) == Entries(list) {
        var before := ReadEntries(elements, n - 1);
        ReadEntriesIff(elements, n - 1, before.list);
        assert |list| == n;
      }
    }
  }

  lemma {:induction false} IncreasingMore(front: seq<IndexEntry>, e: IndexEntry)
    ensures Increasing(front + [e]) <==> Increasing(front) && (front == [] || Above(front[|front| - 1], e))
  {
    hide Above;
    var all, n := front + [e], |front|;
    assert forall k | 0 <= k < n :: all[k] == front[k];
    if Increasing(all) && n > 0 {
      assert Above(all[n - 1], all[n]);
    }
    if Increasing(all) {
      forall k | 0 < k < n ensures Above(front[k - 1], front[k]) {
        assert Above(all[k - 1], all[k]);
      }
    }
  }

  // ---- round trip -----------------------------------------------------------------------------------------

  /** Every number fits 63 bits, the stride 32, and the entries increase. */
  predicate InBounds(ix: Index) {
    && 0 < ix.stride < MAX_STRIDE && ix.records <= INT_MAX && ix.journalBytes <= INT_MAX && Increasing(ix.entries)
    && forall k | 0 <= k < |ix.entries| :: EntryFits(ix.entries[k])
  }

  predicate EntryFits(e: IndexEntry) { e.tick <= INT_MAX && e.recordId <= INT_MAX && e.offset <= INT_MAX && e.frameOffset <= INT_MAX }

  lemma {:induction false} CastBack(n: nat)
    ensures n <= INT_MAX ==> Cast(n) == n
    ensures Cast(n) == n ==> n <= INT_MAX
    ensures INT_MIN <= Cast(n) <= INT_MAX
  {
  }

  lemma {:induction false} KeysDiffer()
    ensures TICK != RECORD_ID && TICK != OFFSET && TICK != FRAME_OFFSET && RECORD_ID != OFFSET && RECORD_ID != FRAME_OFFSET && OFFSET != FRAME_OFFSET
    ensures SCHEMA != STRIDE_TICKS && SCHEMA != RECORDS && SCHEMA != JOURNAL_BYTES && SCHEMA != ENTRIES && STRIDE_TICKS != RECORDS
    ensures STRIDE_TICKS != JOURNAL_BYTES && STRIDE_TICKS != ENTRIES && RECORDS != JOURNAL_BYTES && RECORDS != ENTRIES && JOURNAL_BYTES != ENTRIES
  {
    assert SCHEMA[1] != STRIDE_TICKS[1] && SCHEMA[0] != ENTRIES[0] && SCHEMA[0] != RECORDS[0];
  }

  lemma {:induction false} EntryFields(e: IndexEntry)
    ensures var m := EntryMembers(e);
            && DistinctKeys(m) && Among(m, {TICK, RECORD_ID, OFFSET, FRAME_OFFSET})
            && Find(m, TICK) == Some(Int(Cast(e.tick))) && Find(m, RECORD_ID) == Some(Int(Cast(e.recordId)))
            && Find(m, OFFSET) == Some(Int(Cast(e.offset))) && Find(m, FRAME_OFFSET) == Some(Int(Cast(e.frameOffset)))
  {
    KeysDiffer();
    hide TICK, RECORD_ID, OFFSET, FRAME_OFFSET, Find, Cast;
    var m := EntryMembers(e);
    FindAt(m, 0);
    FindAt(m, 1);
    FindAt(m, 2);
    FindAt(m, 3);
  }

  /** An entry comes back exactly when its numbers fit 63 bits. */
  lemma {:induction false} EntryReadsBackIff(e: IndexEntry)
    ensures EntryOf(Obj(EntryMembers(e))) == Entry(e) <==> EntryFits(e)
  {
    EntryFields(e);
    CastBack(e.tick);
    CastBack(e.recordId);
    CastBack(e.offset);
    CastBack(e.frameOffset);
    hide EntryMembers, Find, Cast, Among, DistinctKeys, TICK, RECORD_ID, OFFSET, FRAME_OFFSET;
  }

  lemma {:induction false} IndexFields(ix: Index)
    ensures var m := IndexMembers(ix);
            && DistinctKeys(m) && Among(m, {SCHEMA, STRIDE_TICKS, RECORDS, JOURNAL_BYTES, ENTRIES})
            && Find(m, SCHEMA) == Some(Str(INDEX_SCHEMA)) && Find(m, STRIDE_TICKS) == Some(Int(Cast(ix.stride)))
            && Find(m, RECORDS) == Some(Int(Cast(ix.records))) && Find(m, JOURNAL_BYTES) == Some(Int(Cast(ix.journalBytes)))
            && Find(m, ENTRIES) == Some(Arr(EntriesJson(ix.entries)))
  {
    KeysDiffer();
    hide SCHEMA, STRIDE_TICKS, RECORDS, JOURNAL_BYTES, ENTRIES, Find, Cast, EntriesJson, INDEX_SCHEMA;
    var m := IndexMembers(ix);
    FindAt(m, 0);
    FindAt(m, 1);
    FindAt(m, 2);
    FindAt(m, 3);
    FindAt(m, 4);
  }

  lemma {:induction false} EntriesBackIff(entries: seq<IndexEntry>)
    ensures ReadEntries(EntriesJson(entries), |entries|) == Entries(entries)
            <==> Increasing(entries) && forall k | 0 <= k < |entries| :: EntryFits(entries[k])
  {
    var elements := EntriesJson(entries);
    ReadEntriesIff(elements, |entries|, entries);
    hide EntryOf, EntryMembers, Increasing, ReadEntries, EntryFits;
    forall k | 0 <= k < |entries| ensures EntryOf(elements[k]) == Entry(entries[k]) <==> EntryFits(entries[k]) {
      EntryReadsBackIff(entries[k]);
    }
  }

  /** An index comes back from its JSON exactly when every number fits 63 bits, the stride is a positive
      32-bit number, and the entries increase strictly in all four numbers. */
  lemma {:induction false} IndexReadsBackIff(ix: Index)
    ensures ReadIndex(IndexJson(ix)) == IndexOk(ix) <==> InBounds(ix)
  {
    IndexFields(ix);
    EntriesBackIff(ix.entries);
    CastBack(ix.stride);
    CastBack(ix.records);
    CastBack(ix.journalBytes);
    StrideBack(ix.stride);
    hide IndexMembers, Find, Cast, Among, DistinctKeys, ReadEntries, Increasing, EntryFits, EntriesJson;
    hide SCHEMA, STRIDE_TICKS, RECORDS, JOURNAL_BYTES, ENTRIES, INDEX_SCHEMA;
  }

  lemma {:induction false} StrideBack(n: nat)
    ensures 0 < Cast(n) && Cast(n) % MAX_STRIDE == n <==> 0 < n < MAX_STRIDE
  {
  }

  /** What an accepted index is known to satisfy: its entries increase and fit 63 bits.  The stride was
      checked before it was cut to 32 bits, so it is zero exactly for a multiple of 2^32. */
  lemma {:induction false} AcceptedIndex(v: Json)
    requires ReadIndex(v).IndexOk?
    ensures v.Obj? && Unsigned(v.members, STRIDE_TICKS).Some?
    ensures var ix := ReadIndex(v).index;
            && Increasing(ix.entries) && ix.records <= INT_MAX && ix.journalBytes <= INT_MAX && ix.stride < MAX_STRIDE
            && (forall k | 0 <= k < |ix.entries| :: EntryFits(ix.entries[k]))
            && (ix.stride == 0 <==> Unsigned(v.members, STRIDE_TICKS).value % MAX_STRIDE == 0)
  {
    hide Increasing, Find, EntryOf;
    var elements := Find(v.members, ENTRIES).value.elements;
    var list := ReadIndex(v).index.entries;
    ReadEntriesIff(elements, |elements|, list);
    forall k | 0 <= k < |list| ensures EntryFits(list[k]) {
      EntryInBounds(elements[k]);
    }
  }

  lemma {:induction false} EntryInBounds(v: Json)
    ensures EntryOf(v).Entry? ==> EntryFits(EntryOf(v).e)
  {
  }

  /** An example: a file with stride 2^32 is accepted, with stride 0. */
  lemma {:induction false} ZeroStrideAccepted()
    ensures ReadIndex(IndexJson(Index(MAX_STRIDE, 0, 0, []))) == IndexOk(Index(0, 0, 0, []))
  {
    var ix := Index(MAX_STRIDE, 0, 0, []);
    IndexFields(ix);
    assert EntriesJson([]) == [];
    hide IndexMembers, Find, Among, DistinctKeys, SCHEMA, STRIDE_TICKS, RECORDS, JOURNAL_BYTES, ENTRIES, INDEX_SCHEMA;
  }

  // ---- the file -------------------------------------------------------------------------------------------

  lemma {:induction false} EntryNames()
    ensures WellFormed(TICK) && WellFormed(RECORD_ID) && WellFormed(OFFSET) && WellFormed(FRAME_OFFSET)
  {
    hide WellFormed;
    AsciiWellFormed(TICK);
    AsciiWellFormed(RECORD_ID);
    AsciiWellFormed(OFFSET);
    AsciiWellFormed(FRAME_OFFSET);
  }

  lemma {:induction false} IndexNames()
    ensures WellFormed(SCHEMA) && WellFormed(STRIDE_TICKS) && WellFormed(RECORDS) && WellFormed(JOURNAL_BYTES) && WellFormed(ENTRIES)
  {
    hide WellFormed;
    AsciiWellFormed(SCHEMA);
    AsciiWellFormed(STRIDE_TICKS);
    AsciiWellFormed(RECORDS);
    AsciiWellFormed(JOURNAL_BYTES);
    AsciiWellFormed(ENTRIES);
  }

  lemma {:induction false} SchemaName()
    ensures WellFormed(INDEX_SCHEMA)
  {
    AsciiWellFormed(INDEX_SCHEMA);
  }

  lemma {:induction false} EntryGood(f: Floats, e: IndexEntry)
    ensures Good(f, Obj(EntryMembers(e)), 1) && NoDoubles(Obj(EntryMembers(e)))
  {
    EntryNames();
    EntryFields(e);
    CastBack(e.tick);
    CastBack(e.recordId);
    CastBack(e.offset);
    CastBack(e.frameOffset);
    hide Cast, WellFormed, TICK, RECORD_ID, OFFSET, FRAME_OFFSET;
  }

  lemma {:induction false} EntriesGood(f: Floats, entries: seq<IndexEntry>)
    ensures Good(f, Arr(EntriesJson(entries)), 2) && NoDoubles(Arr(EntriesJson(entries)))
  {
    hide EntryMembers;
    var elements := EntriesJson(entries);
    forall i | 0 <= i < |elements| ensures Good(f, elements[i], 1) && NoDoubles(elements[i]) {
      EntryGood(f, entries[i]);
    }
  }

  lemma {:induction false} IndexGood(f: Floats, ix: Index)
    ensures Good(f, IndexJson(ix), 3) && NoDoubles(IndexJson(ix))
  {
    IndexNames();
    SchemaName();
    IndexFields(ix);
    EntriesGood(f, ix.entries);
    CastBack(ix.stride);
    CastBack(ix.records);
    CastBack(ix.journalBytes);
    hide Cast, WellFormed, EntriesJson, SCHEMA, STRIDE_TICKS, RECORDS, JOURNAL_BYTES, ENTRIES, INDEX_SCHEMA;
    var m := IndexMembers(ix);
    assert Good(f, m[0].value, 2) && Good(f, m[1].value, 2) && Good(f, m[2].value, 2) && Good(f, m[3].value, 2) && Good(f, m[4].value, 2);
    assert NoDoubles(m[0].value) && NoDoubles(m[1].value) && NoDoubles(m[2].value) && NoDoubles(m[3].value) && NoDoubles(m[4].value);
  }

  function IndexFile(f: Floats, ix: Index): Bytes { Text(f, IndexJson(ix)) + [LINE_FEED] }

  function FromFile(f: Floats, file: Bytes): IndexRead {
    match Document(f, file)
    case Fail(_, _) => IndexBad(NotJsonText)
    case Done(v, _) => ReadIndex(v)
  }

  /** The file the writer leaves is read back as the index it was made from, exactly when that is within
      bounds. */
  lemma {:induction false} IndexFileBackIff(f: Floats, ix: Index)
    requires FloatsOk(f)
    ensures FromFile(f, IndexFile(f, ix)) == IndexOk(ix) <==> InBounds(ix)
  {
    IndexGood(f, ix);
    GoodDeeper(f, IndexJson(ix), 3, MAX_DEPTH);
    ParseOfFile(f, IndexJson(ix));
    NormalIsSame(f, IndexJson(ix));
    IndexReadsBackIff(ix);
    hide IndexJson, ReadIndex, InBounds, Document, Text;
  }

  lemma {:induction false} GoodDeeper(f: Floats, v: Json, a: nat, b: nat)
    requires Good(f, v, a) && a <= b
    ensures Good(f, v, b)
    decreases v
  {
    match v
    case Arr(elements) =>
      forall i | 0 <= i < |elements| ensures Good(f, elements[i], b - 1) {
        GoodDeeper(f, elements[i], a - 1, b - 1);
      }
    case Obj(members) =>
      forall i | 0 <= i < |members| ensures WellFormed(members[i].key) && Good(f, members[i].value, b - 1) {
        GoodDeeper(f, members[i].value, a - 1, b - 1);
      }
    case _ =>
  }

  // ---- what a writer leaves ---------------------------------------------------------------------------------

  lemma {:induction false} SizesGrow(sizes: nat -> nat, k: nat, n: nat)
    requires k <= n
    ensures SizeOf(sizes, k) <= SizeOf(sizes, n)
    decreases n
  {
    if k < n {
      SizesGrow(sizes, k, n - 1);
    }
  }

  lemma {:induction false} OffsetInside(f: Floats, groups: Groups, k: nat)
    requires k <= |groups|
    ensures |Lines(f, All(groups[..k]))| <= |Lines(f, All(groups))|
  {
    hide Lines;
    assert groups == groups[..k] + groups[k..];
    AllAppend(groups[..k], groups[k..]);
    LinesAppend(f, All(groups[..k]), All(groups[k..]));
  }

  /** The last frame begins within 63 bits, in tick, id and place, and so does the text end: all that a
      caller has to watch. */
  predicate EndsInRange(f: Floats, sizes: nat -> nat, groups: Groups) {
    && |Lines(f, All(groups))| <= INT_MAX
    && (groups != [] && groups[|groups| - 1] != [] ==>
          var r, k := groups[|groups| - 1][0], |groups| - 1;
          r.tick <= INT_MAX && r.id <= INT_MAX && SizeOf(sizes, k) <= INT_MAX)
  }

  lemma {:induction false} FewerThanBytes(f: Floats, rs: seq<Record>)
    ensures |rs| <= |Lines(f, rs)|
  {
    hide ToLine;
    if rs != [] {
      FewerThanBytes(f, rs[1..]);
    }
  }

  /** A frame's first record is no later, in tick and id, than a later frame's. */
  lemma {:induction false} FirstsInOrder(groups: Groups, k: nat, n: nat)
    requires Ordered(All(groups)) && k <= n < |groups| && groups[k] != [] && groups[n] != []
    ensures groups[k][0].tick <= groups[n][0].tick && groups[k][0].id <= groups[n][0].id
  {
    if k < n {
      hide All, Ordered;
      var i := Place(groups, k);
      var j := Place(groups, n);
      PlacesApart(groups, k);
      PlacesInOrder(groups, k + 1, n);
      InOrder(All(groups), i, j);
    }
  }

  lemma {:induction false} PlacesInOrder(groups: Groups, k: nat, n: nat)
    requires k <= n <= |groups|
    ensures |All(groups[..k])| <= |All(groups[..n])|
  {
    assert groups[..n] == groups[..k] + groups[k..n];
    AllAppend(groups[..k], groups[k..n]);
  }

  lemma {:induction false} InOrder(rs: seq<Record>, i: nat, j: nat)
    requires Ordered(rs) && i < j < |rs|
    ensures rs[i].tick <= rs[j].tick && rs[i].id <= rs[j].id
  {
  }

  /** Frames that begin within 63 bits are far from wrapping around. */
  lemma {:induction false} RangeIsWide(f: Floats, sizes: nat -> nat, groups: Groups, stride: nat)
    requires Cut(groups, stride) && Ordered(All(groups)) && stride < MAX_STRIDE && EndsInRange(f, sizes, groups)
    ensures NoWrap(groups, stride)
  {
    hide Lines, All, Ordered;
    forall k | 0 <= k < |groups| && groups[k] != [] ensures groups[k][0].tick + stride < LIMIT {
      assert CutAt(groups, stride, |groups| - 1);
      FirstsInOrder(groups, k, |groups| - 1);
    }
  }

  lemma {:induction false} RangeFits(f: Floats, sizes: nat -> nat, groups: Groups, stride: nat, entries: seq<IndexEntry>, k: nat)
    requires Cut(groups, stride) && Indexed(f, sizes, groups, entries) && Ordered(All(groups)) && EndsInRange(f, sizes, groups) && k < |entries|
    ensures EntryFits(entries[k])
  {
    assert EntryAt(f, sizes, groups, entries, k) && CutAt(groups, stride, |groups| - 1);
    hide Lines, All, Ordered, SizeOf;
    FirstsInOrder(groups, k, |groups| - 1);
    SizesGrow(sizes, k, |groups| - 1);
    OffsetInside(f, groups, k);
  }

  /** The index of a journal is within bounds exactly when the journal ends within 63 bits. */
  lemma {:induction false} WriterIndexInBounds(f: Floats, sizes: nat -> nat, groups: Groups, stride: nat, entries: seq<IndexEntry>)
    requires Cut(groups, stride) && 0 < stride < MAX_STRIDE && Indexed(f, sizes, groups, entries) && Ordered(All(groups))
    requires forall n :: sizes(n) > 0
    ensures InBounds(Index(stride, |All(groups)|, |Lines(f, All(groups))|, entries)) <==> EndsInRange(f, sizes, groups)
  {
    FewerThanBytes(f, All(groups));
    if EndsInRange(f, sizes, groups) {
      RangeBytes(f, sizes, groups);
      RangeIsWide(f, sizes, groups, stride);
      CutIsFramed(groups, stride);
      hide All, Lines, Cut, Framed, Ordered, Indexed, EndsInRange, EntryFits, Above;
      forall k | 0 < k < |entries| ensures Above(entries[k - 1], entries[k]) {
        IncreaseAbove(f, sizes, groups, stride, entries, k);
      }
      forall k | 0 <= k < |entries| ensures EntryFits(entries[k]) {
        RangeFits(f, sizes, groups, stride, entries, k);
      }
    }
    if InBounds(Index(stride, |All(groups)|, |Lines(f, All(groups))|, entries)) {
      BoundsEnd(f, sizes, groups, stride, entries);
    }
  }

  lemma {:induction false} BoundsEnd(f: Floats, sizes: nat -> nat, groups: Groups, stride: nat, entries: seq<IndexEntry>)
    requires Indexed(f, sizes, groups, entries) && InBounds(Index(stride, |All(groups)|, |Lines(f, All(groups))|, entries))
    ensures EndsInRange(f, sizes, groups)
  {
    hide All, Lines;
    if groups != [] {
      assert EntryAt(f, sizes, groups, entries, |groups| - 1) && EntryFits(entries[|groups| - 1]);
    }
  }

  lemma {:induction false} RangeBytes(f: Floats, sizes: nat -> nat, groups: Groups)
    requires EndsInRange(f, sizes, groups)
    ensures |Lines(f, All(groups))| <= INT_MAX
  {
  }

  lemma {:induction false} IncreaseAbove(f: Floats, sizes: nat -> nat, groups: Groups, stride: nat, entries: seq<IndexEntry>, k: nat)
    requires Framed(groups, stride) && stride > 0 && Indexed(f, sizes, groups, entries) && Ordered(All(groups)) && 0 < k < |entries|
    requires forall n :: sizes(n) > 0
    ensures Above(entries[k - 1], entries[k])
  {
    hide All, Lines, Framed, Ordered;
    EntriesIncrease(f, sizes, groups, stride, entries, k - 1);
  }

  /** Ticks that can be read back are far from wrapping around. */
  lemma {:induction false} ReadableRange(f: Floats, groups: Groups, stride: nat)
    requires (forall i | 0 <= i < |All(groups)| :: Readable(f, All(groups)[i])) && stride < MAX_STRIDE
    ensures NoWrap(groups, stride)
  {
    hide All;
    forall k | 0 <= k < |groups| && groups[k] != [] ensures groups[k][0].tick + stride < LIMIT {
      var i := Place(groups, k);
    }
  }
}
