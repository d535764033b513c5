/** The bundle writer: ids and refusals, tiers, frames and index entries. */
module JournalWriter {
  import opened Basics
  import opened Utf8
  import opened JsonModel
  import opened JsonRoundTrip
  import opened JournalRecord
  import opened JournalFrames
  import opened JournalIndex

  datatype Submission = Submission(tick: Word64, tier: Tier, kind: Bytes, cause: Word64, payload: Json)

  datatype Tiers = Tiers(snapshot: bool, trace: bool)

  /** The flight tier cannot be switched off. */
  function Enabled(tiers: Tiers, tier: Tier): bool {
    match tier
    case Flight => true
    case Snapshot => tiers.snapshot
    case Trace => tiers.trace
  }

  datatype WriterError = Closed | TickOrder | CauseUnknown | Io

  /** What decides ids and refusals; tiers are not part of it. */
  datatype Core = Core(nextId: nat, lastTick: nat, any: bool, error: Option<WriterError>, closed: bool)

  function FirstError(e: Option<WriterError>, now: WriterError): Option<WriterError> { if e.Some? then e else Some(now) }

  function Submit(c: Core, s: Submission): (Core, nat) {
    if c.closed then (c.(error := FirstError(c.error, Closed)), 0)
    else if c.error.Some? then (c, 0)
    else if c.any && s.tick < c.lastTick then (c.(error := Some(TickOrder)), 0)
    else if s.cause >= c.nextId then (c.(error := Some(CauseUnknown)), 0)
    else (c.(nextId := c.nextId + 1, lastTick := s.tick, any := true), c.nextId)
  }

  function RecordOf(s: Submission, id: Word64): Record { Record(s.tick, s.tier, s.kind, s.cause, id, s.payload) }

  /** The ids a run of submissions gets. */
  function Ids(c: Core, subs: seq<Submission>): seq<nat>
    decreases |subs|
  {
    if subs == [] then [] else var (c', id) := Submit(c, subs[0]); [id] + Ids(c', subs[1..])
  }

  function After(c: Core, subs: seq<Submission>): Core
    decreases |subs|
  {
    if subs == [] then c else After(Submit(c, subs[0]).0, subs[1..])
  }

  /** The records a run writes. */
  function Written(tiers: Tiers, c: Core, subs: seq<Submission>): seq<Record>
    requires c.nextId + |subs| <= LIMIT
    decreases |subs|
  {
    if subs == [] then []
    else
      var (c', id) := Submit(c, subs[0]);
      (if id != 0 && Enabled(tiers, subs[0].tier) then [RecordOf(subs[0], id)] else []) + Written(tiers, c', subs[1..])
  }

  function FlightOnly(rs: seq<Record>): seq<Record> {
    if rs == [] then [] else if rs[0].tier == Flight then [rs[0]] + FlightOnly(rs[1..]) else FlightOnly(rs[1..])
  }

  lemma {:induction false} FlightAppend(a: seq<Record>, b: seq<Record>)
    ensures FlightOnly(a + b) == FlightOnly(a) + FlightOnly(b)
  {
    if a == [] {
      assert a + b == b;
    } else {
      assert (a + b)[0] == a[0] && (a + b)[1..] == a[1..] + b;
      FlightAppend(a[1..], b);
    }
  }

  /** The flight lines of a run are the same under any two tier settings. */
  lemma {:induction false} TiersDoNotMatter(a: Tiers, b: Tiers, c: Core, subs: seq<Submission>)
    requires c.nextId + |subs| <= LIMIT
    ensures FlightOnly(Written(a, c, subs)) == FlightOnly(Written(b, c, subs))
    decreases |subs|
  {
    if subs != [] {
      var (c', id) := Submit(c, subs[0]);
      TiersDoNotMatter(a, b, c', subs[1..]);
      var r := RecordOf(subs[0], id);
      assert [r][1..] == [];
      FlightAppend(if id != 0 && Enabled(a, subs[0].tier) then [r] else [], Written(a, c', subs[1..]));
      FlightAppend(if id != 0 && Enabled(b, subs[0].tier) then [r] else [], Written(b, c', subs[1..]));
    }
  }

  // ---- frames as they are built --------------------------------------------------------------------

  /** Everything the writer's files say, and how it hangs together. */
  ghost predicate Laid(f: Floats, stride: nat, sizes: nat -> nat, groups: Groups, frames: seq<Bytes>, entries: seq<IndexEntry>) {
    && Cut(groups, stride) && Indexed(f, sizes, groups, entries) && Ordered(All(groups)) && Caused(All(groups))
    && |frames| == |groups| && forall k | 0 <= k < |groups| :: frames[k] == Lines(f, groups[k])
  }

  /** How far the stream has come. */
  ghost predicate Reached(groups: Groups, stride: nat, nextIndexTick: nat, lastTick: nat, nextId: nat) {
    && (forall i | 0 <= i < |All(groups)| :: All(groups)[i].tick <= lastTick && All(groups)[i].id < nextId)
    && (groups != [] ==> groups[|groups| - 1] != [] && nextIndexTick == NextCut(groups[|groups| - 1][0].tick, stride))
  }

  lemma {:induction false} AllOne(g: seq<Record>)
    ensures All([g]) == g
  {
    assert [g][1..] == [];
    assert All([g]) == g + All([g][1..]);
  }

  lemma {:induction false} OrderedMore(rs: seq<Record>, r: Record)
    requires Ordered(rs) && Caused(rs) && r.cause < r.id && forall i | 0 <= i < |rs| :: rs[i].tick <= r.tick && rs[i].id < r.id
    ensures Ordered(rs + [r]) && Caused(rs + [r])
  {
  }

  lemma {:induction false} CutOpen(groups: Groups, stride: nat, r: Record)
    requires Cut(groups, stride) && stride > 0
    requires groups != [] ==> groups[|groups| - 1] != [] && NextCut(groups[|groups| - 1][0].tick, stride) <= r.tick
    ensures Cut(groups + [[r]], stride) && All(groups + [[r]]) == All(groups) + [r]
  {
    AllAppend(groups, [[r]]);
    AllOne([r]);
    var groups' := groups + [[r]];
    forall k | 0 <= k < |groups'| ensures CutAt(groups', stride, k) {
      if k < |groups| {
        assert CutAt(groups, stride, k);
      }
    }
  }

  lemma {:induction false} IndexedOpen(f: Floats, sizes: nat -> nat, groups: Groups, entries: seq<IndexEntry>, r: Record)
    requires Indexed(f, sizes, groups, entries)
    ensures Indexed(f, sizes, groups + [[r]], entries + [IndexEntry(r.tick, r.id, |Lines(f, All(groups))|, SizeOf(sizes, |groups|))])
  {
    hide Lines, SizeOf, All;
    var groups' := groups + [[r]];
    var entries' := entries + [IndexEntry(r.tick, r.id, |Lines(f, All(groups))|, SizeOf(sizes, |groups|))];
    forall k | 0 <= k < |groups'| ensures EntryAt(f, sizes, groups', entries', k) {
      if k < |groups| {
        assert EntryAt(f, sizes, groups, entries, k);
        assert groups'[..k] == groups[..k];
      } else {
        assert groups'[..k] == groups;
      }
    }
  }

  lemma {:induction false} FramesOpen(f: Floats, groups: Groups, frames: seq<Bytes>, r: Record)
    requires |frames| == |groups| && forall k | 0 <= k < |groups| :: frames[k] == Lines(f, groups[k])
    ensures var groups', frames' := groups + [[r]], frames + [ToLine(f, r) + [NEWLINE]];
            |frames'| == |groups'| && forall k | 0 <= k < |groups'| :: frames'[k] == Lines(f, groups'[k])
  {
    LinesOne(f, r);
  }

  lemma {:induction false} ReachedMore(groups: Groups, groups': Groups, stride: nat, nextIndexTick: nat, lastTick: nat, nextId: nat, r: Record)
    requires Reached(groups, stride, nextIndexTick, lastTick, nextId) && All(groups') == All(groups) + [r] && r.id == nextId
    requires groups != [] ==> lastTick <= r.tick
    ensures forall i | 0 <= i < |All(groups')| :: All(groups')[i].tick <= r.tick && All(groups')[i].id < nextId + 1
    ensures forall i | 0 <= i < |All(groups)| :: All(groups)[i].tick <= r.tick && All(groups)[i].id < r.id
  {
    if groups == [] {
      assert All(groups) == [];
    }
    forall i | 0 <= i < |All(groups')| ensures All(groups')[i].tick <= r.tick && All(groups')[i].id < nextId + 1 {
      assert i < |All(groups)| ==> All(groups')[i] == All(groups)[i];
    }
  }

  /** A record that starts a new frame. */
  lemma {:induction false} OpenFrame(f: Floats, stride: nat, sizes: nat -> nat, groups: Groups, frames: seq<Bytes>, entries: seq<IndexEntry>,
                                     nextIndexTick: nat, lastTick: nat, nextId: nat, r: Record)
    requires Laid(f, stride, sizes, groups, frames, entries) && Reached(groups, stride, nextIndexTick, lastTick, nextId) && stride > 0
    requires r.id == nextId && r.cause < r.id && (groups != [] ==> lastTick <= r.tick && r.tick >= nextIndexTick)
    ensures var groups' := groups + [[r]];
            && All(groups') == All(groups) + [r]
            && Laid(f, stride, sizes, groups', frames + [ToLine(f, r) + [NEWLINE]],
                    entries + [IndexEntry(r.tick, r.id, |Lines(f, All(groups))|, SizeOf(sizes, |groups|))])
            && Reached(groups', stride, NextCut(r.tick, stride), r.tick, nextId + 1)
  {
    hide ToLine, Lines, SizeOf, All, Cut, Indexed, Ordered, Caused;
    CutOpen(groups, stride, r);
    IndexedOpen(f, sizes, groups, entries, r);
    FramesOpen(f, groups, frames, r);
    ReachedMore(groups, groups + [[r]], stride, nextIndexTick, lastTick, nextId, r);
    OrderedMore(All(groups), r);
  }

  ghost function Extended(groups: Groups, r: Record): Groups
    requires groups != []
  {
    groups[|groups| - 1 := groups[|groups| - 1] + [r]]
  }

  lemma {:induction false} AllExtended(groups: Groups, r: Record)
    requires groups != []
    ensures All(Extended(groups, r)) == All(groups) + [r]
  {
    var n := |groups| - 1;
    assert groups == groups[..n] + [groups[n]] && Extended(groups, r) == groups[..n] + [groups[n] + [r]];
    AllAppend(groups[..n], [groups[n]]);
    AllAppend(groups[..n], [groups[n] + [r]]);
    AllOne(groups[n]);
    AllOne(groups[n] + [r]);
  }

  lemma {:induction false} CutExtended(groups: Groups, stride: nat, r: Record)
    requires Cut(groups, stride) && groups != []
    requires groups[|groups| - 1] != [] && groups[|groups| - 1][0].tick <= r.tick < NextCut(groups[|groups| - 1][0].tick, stride)
    ensures Cut(Extended(groups, r), stride)
  {
    var n, groups' := |groups| - 1, Extended(groups, r);
    assert (groups[n] + [r])[0] == groups[n][0];
    forall k | 0 <= k < |groups'| ensures CutAt(groups', stride, k) {
      assert CutAt(groups, stride, k);
    }
  }

  lemma {:induction false} IndexedExtended(f: Floats, sizes: nat -> nat, groups: Groups, entries: seq<IndexEntry>, r: Record)
    requires Indexed(f, sizes, groups, entries) && groups != []
    ensures Indexed(f, sizes, Extended(groups, r), entries)
  {
    hide Lines, SizeOf, All;
    var groups' := Extended(groups, r);
    forall k | 0 <= k < |groups'| ensures EntryAt(f, sizes, groups', entries, k) {
      assert EntryAt(f, sizes, groups, entries, k);
      assert groups'[..k] == groups[..k];
    }
  }

  lemma {:induction false} FramesExtended(f: Floats, groups: Groups, frames: seq<Bytes>, r: Record)
    requires |frames| == |groups| && groups != [] && forall k | 0 <= k < |groups| :: frames[k] == Lines(f, groups[k])
    ensures var n := |groups| - 1;
            var groups', frames' := Extended(groups, r), frames[n := frames[n] + (ToLine(f, r) + [NEWLINE])];
            |frames'| == |groups'| && forall k | 0 <= k < |groups'| :: frames'[k] == Lines(f, groups'[k])
  {
    hide ToLine;
    LinesOne(f, r);
    LinesAppend(f, groups[|groups| - 1], [r]);
  }

  /** A record that goes into the open frame. */
  lemma {:induction false} ExtendFrame(f: Floats, stride: nat, sizes: nat -> nat, groups: Groups, frames: seq<Bytes>, entries: seq<IndexEntry>,
                                       nextIndexTick: nat, lastTick: nat, nextId: nat, r: Record)
    requires Laid(f, stride, sizes, groups, frames, entries) && Reached(groups, stride, nextIndexTick, lastTick, nextId) && groups != []
    requires r.id == nextId && r.cause < r.id && lastTick <= r.tick < nextIndexTick
    ensures var n := |groups| - 1;
            var groups' := Extended(groups, r);
            && All(groups') == All(groups) + [r] && |frames| == |groups| == |groups'|
            && Laid(f, stride, sizes, groups', frames[n := frames[n] + (ToLine(f, r) + [NEWLINE])], entries)
            && Reached(groups', stride, nextIndexTick, r.tick, nextId + 1)
  {
    hide ToLine, Lines, SizeOf, All, Cut, Indexed, Ordered, Caused, Extended, CutAt;
    LastBounds(groups, stride, nextIndexTick, lastTick, nextId);
    ExtendedLast(groups, r);
    AllExtended(groups, r);
    CutExtended(groups, stride, r);
    IndexedExtended(f, sizes, groups, entries, r);
    FramesExtended(f, groups, frames, r);
    ReachedMore(groups, Extended(groups, r), stride, nextIndexTick, lastTick, nextId, r);
    OrderedMore(All(groups), r);
  }

  lemma {:induction false} LastBounds(groups: Groups, stride: nat, nextIndexTick: nat, lastTick: nat, nextId: nat)
    requires groups != [] && Reached(groups, stride, nextIndexTick, lastTick, nextId)
    ensures groups[|groups| - 1] != [] && groups[|groups| - 1][0].tick <= lastTick
  {
    LastFrame(groups, |groups| - 1);
  }

  lemma {:induction false} ExtendedLast(groups: Groups, r: Record)
    requires groups != []
    ensures var g := Extended(groups, r);
            |g| == |groups| && (groups[|groups| - 1] != [] ==> g[|g| - 1] != [] && g[|g| - 1][0] == groups[|groups| - 1][0])
  {
  }

  lemma {:induction false} LastFrame(groups: Groups, n: nat)
    requires n + 1 == |groups| && groups[n] != []
    ensures groups[n][0] in All(groups)
  {
    assert groups == groups[..n] + [groups[n]];
    AllAppend(groups[..n], [groups[n]]);
    AllOne(groups[n]);
  }

  // ---- steps of the writer's methods ------------------------------------------------------------------------

  lemma {:induction false} ReachedOn(groups: Groups, stride: nat, nextIndexTick: nat, lastTick: nat, nextId: nat, tick: nat)
    requires Reached(groups, stride, nextIndexTick, lastTick, nextId) && (groups != [] ==> lastTick <= tick)
    ensures Reached(groups, stride, nextIndexTick, tick, nextId) && Reached(groups, stride, nextIndexTick, tick, nextId + 1)
  {
    assert groups == [] ==> All(groups) == [];
  }

  lemma {:induction false} LaidSizes(f: Floats, stride: nat, sizes: nat -> nat, groups: Groups, frames: seq<Bytes>, entries: seq<IndexEntry>)
    requires Laid(f, stride, sizes, groups, frames, entries)
    ensures |frames| == |groups|
  {
  }

  lemma {:induction false} LinesMore(f: Floats, rs: seq<Record>, r: Record)
    ensures |Lines(f, rs + [r])| == |Lines(f, rs)| + |ToLine(f, r) + [NEWLINE]|
  {
    hide ToLine;
    LinesAppend(f, rs, [r]);
    LinesOne(f, r);
  }

  lemma {:induction false} OneMoreSize(sizes: nat -> nat, groups: Groups)
    ensures groups != [] ==> SizeOf(sizes, |groups|) == SizeOf(sizes, |groups| - 1) + sizes(|groups| - 1)
  {
  }

  lemma {:induction false} NewFrame(frames: seq<Bytes>, line: Bytes)
    ensures (frames + [[]])[|frames|] == [] && (frames + [[]])[|frames| := [] + line] == frames + [line]
  {
    assert [] + line == line;
  }

  lemma {:induction false} RunStep(tiers: Tiers, c: Core, subs: seq<Submission>, i: nat)
    requires i < |subs| && c.nextId + (|subs| - i) <= LIMIT
    ensures var (c', id) := Submit(c, subs[i]);
            && c'.nextId <= c.nextId + 1 && id <= c.nextId && (id != 0 ==> id < LIMIT)
            && Ids(c, subs[i..]) == [id] + Ids(c', subs[i + 1..]) && After(c, subs[i..]) == After(c', subs[i + 1..])
            && Written(tiers, c, subs[i..]) == (if id != 0 && Enabled(tiers, subs[i].tier) then [RecordOf(subs[i], id)] else []) + Written(tiers, c', subs[i + 1..])
  {
    assert subs[i..][0] == subs[i] && subs[i..][1..] == subs[i + 1..];
  }

  lemma {:induction false} RunEnds(tiers: Tiers, c: Core, subs: seq<Submission>)
    requires c.nextId <= LIMIT
    ensures Ids(c, subs[|subs|..]) == [] && After(c, subs[|subs|..]) == c && Written(tiers, c, subs[|subs|..]) == []
  {
  }

  /** The index file of a finished journal is read back as it was exactly when the last frame begins,
      and the text ends, within 63 bits; otherwise the reader refuses it or reads another index. */
  lemma {:induction false} ClosedIndexReadsIff(f: Floats, stride: nat, sizes: nat -> nat, groups: Groups, frames: seq<Bytes>, entries: seq<IndexEntry>)
    requires FloatsOk(f) && Laid(f, stride, sizes, groups, frames, entries) && 0 < stride < MAX_STRIDE && forall n :: sizes(n) > 0
    ensures var index := Index(stride, |All(groups)|, |Lines(f, All(groups))|, entries);
            FromFile(f, IndexFile(f, index)) == IndexOk(index) <==> EndsInRange(f, sizes, groups)
  {
    hide FloatsOk, Lines, All, SizeOf, FromFile, IndexFile, InBounds, EndsInRange;
    WriterIndexInBounds(f, sizes, groups, stride, entries);
    IndexFileBackIff(f, Index(stride, |All(groups)|, |Lines(f, All(groups))|, entries));
  }

  // ---- the writer ------------------------------------------------------------------------------------------

  class Writer {
    const f: Floats
    const tiers: Tiers
    const stride: nat

    /** Compressed size of each finished frame, and which compression calls fail. */
    const sizes: nat -> nat
    const fails: nat -> bool

    var nextId: nat
    var lastTick: nat
    var anySubmitted: bool
    var anyWritten: bool
    var nextIndexTick: nat
    var frameOpen: bool
    var entries: seq<IndexEntry>
    var plainBytes: nat
    var compressedBytes: nat
    var written: nat
    var error: Option<WriterError>
    var closed: bool
    var index: Option<Index>

    // the stream: the plain content of each frame, and how many compression calls there were
    var frames: seq<Bytes>
    var pumps: nat

    ghost var groups: Groups

    /** Some compression call failed. */
    ghost var broken: bool

    function Decides(): Core
      reads this`nextId, this`lastTick, this`anySubmitted, this`error, this`closed
    {
      Core(nextId, lastTick, anySubmitted, error, closed)
    }

    /** While nothing failed, the files and counters are those of the records written so far. */
    ghost predicate Valid()
      reads this
    {
      && stride > 0 && nextId > 0 && (frameOpen ==> |frames| > 0) && (broken ==> error.Some?) && (error == Some(Io) ==> broken)
      && (!broken ==>
            && Laid(f, stride, sizes, groups, frames, entries) && Reached(groups, stride, nextIndexTick, lastTick, nextId)
            && plainBytes == |Lines(f, All(groups))| && written == |All(groups)|
            && (anyWritten <==> groups != []) && (anyWritten ==> anySubmitted) && (frameOpen <==> anyWritten && !closed)
            && compressedBytes == SizeOf(sizes, if frameOpen then |groups| - 1 else |groups|))
    }

    constructor (f: Floats, tiers: Tiers, stride: nat, sizes: nat -> nat, fails: nat -> bool)
      requires stride > 0
      ensures Valid() && Decides() == Core(1, 0, false, None, false) && groups == [] && index == None && !broken
      ensures this.f == f && this.tiers == tiers && this.stride == stride && this.sizes == sizes && this.fails == fails
    {
      this.f, this.tiers, this.stride, this.sizes, this.fails := f, tiers, stride, sizes, fails;
      nextId, lastTick, anySubmitted, anyWritten, nextIndexTick, frameOpen := 1, 0, false, false, 0, false;
      entries, plainBytes, compressedBytes, written, error, closed, index := [], 0, 0, 0, None, false, None;
      frames, pumps, groups, broken := [], 0, [], false;
    }

    /** The first failure stays. */
    method Fail(e: WriterError)
      modifies this`error
      ensures error == FirstError(old(error), e)
    {
      if error.None? {
        error := Some(e);
      }
    }

    /** One compression call. */
    method Pump() returns (ok: bool)
      modifies this`pumps, this`error, this`broken
      ensures ok <==> !fails(old(pumps))
      ensures broken == (old(broken) || !ok)
      ensures error == if ok then old(error) else FirstError(old(error), Io)
    {
      ok := !fails(pumps);
      pumps := pumps + 1;
      if !ok {
        broken := true;
        Fail(Io);
      }
    }

    /** Finishes the open frame. */
    method EndFrame() returns (ok: bool)
      requires frameOpen ==> |frames| > 0
      modifies this`pumps, this`error, this`frameOpen, this`compressedBytes, this`broken
      ensures broken == (old(broken) || !ok) && (!ok ==> frameOpen && old(frameOpen))
      ensures error == if ok then old(error) else FirstError(old(error), Io)
      ensures (forall n :: !fails(n)) ==> ok
      ensures ok ==> !frameOpen && compressedBytes == old(compressedBytes) + if old(frameOpen) then sizes(|frames| - 1) else 0
    {
      if !frameOpen {
        return true;
      }
      ok := Pump();
      if ok {
        compressedBytes := compressedBytes + sizes(|frames| - 1);
        frameOpen := false;
      }
    }

    /** Appends one record, or refuses it; 0 means refused. */
    method Append(s: Submission) returns (id: nat)
      requires Valid() && nextId < LIMIT
      modifies this
      ensures Valid() && index == old(index) && (old(broken) ==> broken) && ((forall n :: !fails(n)) ==> broken == old(broken))
      ensures !broken ==> (Decides(), id) == Submit(old(Decides()), s)
      ensures !broken ==> All(groups) == old(All(groups)) + if id != 0 && Enabled(tiers, s.tier) then [RecordOf(s, id)] else []
      ensures broken ==> id == 0
    {
      hide Laid, Reached, Lines, SizeOf, All, Enabled;
      assert All(groups) + [] == All(groups);
      if closed {
        Fail(Closed);
        return 0;
      }
      if error.Some? {
        return 0;
      }
      if anySubmitted && s.tick < lastTick {
        Fail(TickOrder);
        return 0;
      }
      if s.cause >= nextId {
        Fail(CauseUnknown);
        return 0;
      }
      id := Accept(s);
    }

    /** An accepted submission: its id is consumed whether or not its tier is written. */
    method Accept(s: Submission) returns (id: nat)
      requires Valid() && nextId < LIMIT && !closed && error.None? && s.cause < nextId && (anySubmitted ==> lastTick <= s.tick)
      modifies this
      ensures Valid() && index == old(index) && (broken <==> error.Some?) && ((forall n :: !fails(n)) ==> !broken)
      ensures error == None ==> id == old(nextId) && Decides() == Core(old(nextId) + 1, s.tick, true, None, false)
      ensures error == None ==> All(groups) == old(All(groups)) + if Enabled(tiers, s.tier) then [RecordOf(s, id)] else []
      ensures broken ==> id == 0
    {
      hide Laid, SizeOf, Lines, All;
      id := nextId;
      ReachedOn(groups, stride, nextIndexTick, lastTick, nextId, s.tick);
      nextId, anySubmitted, lastTick := nextId + 1, true, s.tick;
      if !Enabled(tiers, s.tier) {
        return;
      }
      var ok := Write(RecordOf(s, id));
      if !ok {
        return 0;
      }
    }

    /** Cuts a frame where one is due, then appends the record's line. */
    method Write(r: Record) returns (ok: bool)
      requires stride > 0 && error.None? && !closed && r.cause < r.id && !broken
      requires Laid(f, stride, sizes, groups, frames, entries) && Reached(groups, stride, nextIndexTick, r.tick, r.id)
      requires plainBytes == |Lines(f, All(groups))| && written == |All(groups)| && (anyWritten <==> groups != []) && (frameOpen <==> anyWritten)
      requires compressedBytes == SizeOf(sizes, if frameOpen then |groups| - 1 else |groups|)
      modifies this`entries, this`nextIndexTick, this`frameOpen, this`anyWritten, this`frames, this`plainBytes, this`written, this`compressedBytes
      modifies this`pumps, this`error, this`groups, this`broken
      ensures broken == !ok && |frames| > 0
      ensures ok ==> error.None? && All(groups) == old(All(groups)) + [r] && groups != [] && anyWritten && frameOpen
      ensures ok ==> Laid(f, stride, sizes, groups, frames, entries) && Reached(groups, stride, nextIndexTick, r.tick, r.id + 1)
      ensures ok ==> plainBytes == |Lines(f, All(groups))| && written == |All(groups)| && compressedBytes == SizeOf(sizes, |groups| - 1)
      ensures !ok ==> error == Some(Io)
      ensures (forall n :: !fails(n)) ==> ok
    {
      hide *;
      ghost var before, frames0, entries0 := groups, frames, entries;
      LaidSizes(f, stride, sizes, groups, frames, entries);
      LinesMore(f, All(groups), r);
      OneMoreSize(sizes, groups);
      var cut := !anyWritten || r.tick >= nextIndexTick;
      if cut {
        OpenFrame(f, stride, sizes, before, frames0, entries0, nextIndexTick, r.tick, r.id, r);
        ok := CutFrame(r.tick, r.id);
        if !ok {
          return;
        }
      } else {
        ExtendFrame(f, stride, sizes, before, frames0, entries0, nextIndexTick, r.tick, r.id, r);
      }
      NewFrame(frames0, ToLine(f, r) + [NEWLINE]);
      ok := AppendLine(ToLine(f, r) + [NEWLINE]);
      groups := if cut then before + [[r]] else Extended(before, r);
    }

    /** Finishes the frame before, and opens one with its index entry. */
    method CutFrame(tick: nat, id: nat) returns (ok: bool)
      requires error.None? && !broken && (frameOpen ==> |frames| > 0)
      modifies this`entries, this`nextIndexTick, this`frameOpen, this`anyWritten, this`frames, this`compressedBytes, this`pumps, this`error, this`broken
      ensures broken == !ok && (!ok ==> error == Some(Io) && |frames| > 0) && (ok ==> error.None?)
      ensures ok ==> && compressedBytes == old(compressedBytes) + (if old(frameOpen) then sizes(|old(frames)| - 1) else 0)
                     && entries == old(entries) + [IndexEntry(tick, id, plainBytes, compressedBytes)]
                     && nextIndexTick == NextCut(tick, stride) && frameOpen && anyWritten && frames == old(frames) + [[]]
      ensures (forall n :: !fails(n)) ==> ok
    {
      ok := EndFrame();
      if ok {
        entries := entries + [IndexEntry(tick, id, plainBytes, compressedBytes)];
        nextIndexTick := NextCut(tick, stride);
        frameOpen, anyWritten := true, true;
        frames := frames + [[]];
      }
    }

    /** Appends one line to the open frame. */
    method AppendLine(line: Bytes) returns (ok: bool)
      requires error.None? && !broken && |frames| > 0
      modifies this`frames, this`plainBytes, this`written, this`pumps, this`error, this`broken
      ensures broken == !ok && (!ok ==> error == Some(Io)) && |frames| == |old(frames)|
      ensures ok ==> error.None? && plainBytes == old(plainBytes) + |line| && written == old(written) + 1
      ensures var n := |old(frames)| - 1;
              ok ==> frames == old(frames)[n := old(frames)[n] + line]
      ensures (forall n :: !fails(n)) ==> ok
    {
      ok := Pump();
      if ok {
        frames := frames[|frames| - 1 := frames[|frames| - 1] + line];
        plainBytes := plainBytes + |line|;
        written := written + 1;
      }
    }

    /** Finishes the stream; a failed journal gets no index. */
    method Close() returns (e: Option<WriterError>)
      requires Valid()
      modifies this
      ensures Valid() && closed && e == error && groups == old(groups)
      ensures !broken ==> error == old(error)
      ensures !old(closed) && error.None? ==> index == Some(Index(stride, |All(groups)|, |Lines(f, All(groups))|, entries))
      ensures error.Some? || old(closed) ==> index == old(index)
    {
      hide Laid, Lines, All, Reached, SizeOf;
      if closed {
        return error;
      }
      if !broken {
        LaidSizes(f, stride, sizes, groups, frames, entries);
      }
      OneMoreSize(sizes, groups);
      closed := true;
      var ok := EndFrame();
      if error.Some? {
        return error;
      }
      index := Some(Index(stride, written, plainBytes, entries));
      return error;
    }

    /** A run of submissions on a new writer whose compression never fails. */
    method SubmitAll(subs: seq<Submission>) returns (ids: seq<nat>)
      requires Valid() && nextId + |subs| <= LIMIT && (forall n :: !fails(n)) && !broken
      modifies this
      ensures Valid() && !broken
      ensures ids == Ids(old(Decides()), subs) && Decides() == After(old(Decides()), subs)
      ensures All(groups) == old(All(groups)) + Written(tiers, old(Decides()), subs)
    {
      hide *;
      ghost var start, core := All(groups), Decides();
      DecidesNext();
      ids := [];
      var i := 0;
      assert subs[0..] == subs;
      while i < |subs|
        invariant i <= |subs| && Valid() && Decides().nextId + (|subs| - i) <= LIMIT && core.nextId + |subs| <= LIMIT && !broken
        invariant ids + Ids(Decides(), subs[i..]) == Ids(core, subs) && After(Decides(), subs[i..]) == After(core, subs)
        invariant All(groups) + Written(tiers, Decides(), subs[i..]) == start + Written(tiers, core, subs)
      {
        RunStep(tiers, Decides(), subs, i);
        DecidesNext();
        var id := Append(subs[i]);
        DecidesNext();
        ids := ids + [id];
        i := i + 1;
      }
      RunEnds(tiers, Decides(), subs);
      assert ids + [] == ids && All(groups) + [] == All(groups);
    }

    lemma {:induction false} DecidesNext()
      ensures Decides().nextId == nextId
    {
    }
  }
}
