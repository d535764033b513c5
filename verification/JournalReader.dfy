/** The bundle reader: lines rebuilt from chunks, and seeking through the index. */
module JournalReader {
  import opened Basics
  import opened Utf8
  import opened JsonModel
  import opened JsonRoundTrip
  import opened JournalRecord
  import opened JournalFrames
  import opened JournalIndex

  /** What one decompression call gives, and whether it ends a frame. */
  datatype Chunk = Chunk(bytes: Bytes, done: bool)

  datatype ReadError = MidFrame | MidLine | CorruptRecord(error: Corrupt) | SeekFailed

  datatype Outcome = Got(record: Record) | End | Failed(error: ReadError)

  function Joined(chunks: seq<Chunk>): Bytes {
    if chunks == [] then [] else chunks[0].bytes + Joined(chunks[1..])
  }

  /** Whether the stream ends where a frame does. */
  predicate Whole(pending: seq<Chunk>, frameDone: bool) {
    if pending == [] then frameDone else pending[|pending| - 1].done
  }

  /** Index of the first newline, or the length. */
  function LineEnd(s: Bytes): (n: nat)
    ensures n <= |s| && (n < |s| ==> s[n] == NEWLINE) && forall i | 0 <= i < n :: s[i] != NEWLINE
  {
    if s == [] || s[0] == NEWLINE then 0 else 1 + LineEnd(s[1..])
  }

  /** What reading on means: a matter of the text alone, not of how it arrives. */
  function ReadOn(f: Floats, text: Bytes, whole: bool, skip: nat): (Outcome, Bytes)
    decreases |text|
  {
    var n := LineEnd(text);
    if n < |text| then
      match FromLine(f, text[..n])
      case Bad(e) => (Failed(CorruptRecord(e)), text[n + 1..])
      case Ok(r) => if r.tick < skip then ReadOn(f, text[n + 1..], whole, skip) else (Got(r), text[n + 1..])
    else if !whole then (Failed(MidFrame), text)
    else if text != [] then (Failed(MidLine), text)
    else (End, text)
  }

  /** All records from here on, up to the end or the first error. */
  function ReadRest(f: Floats, text: Bytes, whole: bool, skip: nat): (seq<Record>, Option<ReadError>)
    decreases |text|
  {
    var (o, rest) := ReadOn(f, text, whole, skip);
    ReadOnShorter(f, text, whole, skip);
    match o
    case Got(r) => var (rs, e) := ReadRest(f, rest, whole, skip); ([r] + rs, e)
    case End => ([], None)
    case Failed(e) => ([], Some(e))
  }

  lemma {:induction false} ReadOnShorter(f: Floats, text: Bytes, whole: bool, skip: nat)
    ensures ReadOn(f, text, whole, skip).0.Got? ==> |ReadOn(f, text, whole, skip).1| < |text|
    decreases |text|
  {
    hide FromLine;
    var n := LineEnd(text);
    if n < |text| && FromLine(f, text[..n]).Ok? && FromLine(f, text[..n]).record.tick < skip {
      ReadOnShorter(f, text[n + 1..], whole, skip);
    }
  }

  // ---- text of records -------------------------------------------------------------------------------

  function NormalAll(f: Floats, rs: seq<Record>): seq<Record> {
    if rs == [] then [] else [NormalRecord(f, rs[0])] + NormalAll(f, rs[1..])
  }

  lemma {:induction false} LineEndIs(line: Bytes, rest: Bytes)
    requires OneLine(line)
    ensures LineEnd(line + [NEWLINE] + rest) == |line|
  {
    var s := line + [NEWLINE] + rest;
    if line == [] {
      assert s[0] == NEWLINE;
    } else {
      assert s[0] == line[0] && s[1..] == line[1..] + [NEWLINE] + rest;
      LineEndIs(line[1..], rest);
    }
  }

  /** The first line of the text of some records. */
  lemma {:induction false} FirstLine(f: Floats, rs: seq<Record>)
    requires FloatsOk(f) && rs != [] && Readable(f, rs[0])
    ensures var text := Lines(f, rs);
            var n := LineEnd(text);
            n < |text| && text[n + 1..] == Lines(f, rs[1..]) && FromLine(f, text[..n]) == Ok(NormalRecord(f, rs[0]))
  {
    hide ToLine, Readable, FloatsOk;
    var line := ToLine(f, rs[0]);
    LineIsOneLine(f, rs[0]);
    LineEndIs(line, Lines(f, rs[1..]));
    ReadsBack(f, rs[0]);
    assert Lines(f, rs)[..|line|] == line && Lines(f, rs)[|line| + 1..] == Lines(f, rs[1..]);
  }

  lemma {:induction false} LineIsOneLine(f: Floats, r: Record)
    requires FloatsOk(f)
    ensures OneLine(ToLine(f, r))
  {
    TextOneLine(f, RecordJson(r));
  }

  lemma {:induction false} NoLines(f: Floats, whole: bool, skip: nat)
    requires whole
    ensures ReadOn(f, Lines(f, []), whole, skip) == (End, [])
  {
  }

  /** One record of the text is passed over or read. */
  lemma {:induction false} ReadsOne(f: Floats, rs: seq<Record>, skip: nat)
    requires FloatsOk(f) && rs != [] && Readable(f, rs[0])
    ensures var (rest, e) := ReadRest(f, Lines(f, rs[1..]), true, skip);
            ReadRest(f, Lines(f, rs), true, skip) == (if rs[0].tick < skip then rest else [NormalRecord(f, rs[0])] + rest, e)
  {
    hide Lines, FromLine, Readable, FloatsOk;
    FirstLine(f, rs);
  }

  /** Reading the text of readable records gives exactly those from the skip tick on. */
  lemma {:induction false} ReadsLines(f: Floats, rs: seq<Record>, skip: nat)
    requires FloatsOk(f) && forall i | 0 <= i < |rs| :: Readable(f, rs[i])
    ensures ReadRest(f, Lines(f, rs), true, skip) == (NormalAll(f, From(rs, skip)), None)
    decreases |rs|
  {
    if rs == [] {
      NoLines(f, true, skip);
    } else {
      hide Lines, FromLine, Readable, FloatsOk, ReadRest;
      ReadsOne(f, rs, skip);
      ReadsLines(f, rs[1..], skip);
    }
  }

  lemma {:induction false} JoinedMore(chunks: seq<Chunk>)
    requires chunks != []
    ensures Joined(chunks) == chunks[0].bytes + Joined(chunks[1..])
  {
  }

  /** A newline found in the buffer is the first one of the whole text. */
  lemma {:induction false} BufferedLine(f: Floats, ahead: Bytes, more: Bytes, whole: bool, skip: nat)
    requires LineEnd(ahead) < |ahead|
    ensures var n := LineEnd(ahead);
            && ahead[n + 1..] + more == (ahead + more)[n + 1..] && ahead[..n] == (ahead + more)[..n]
            && ReadOn(f, ahead + more, whole, skip) ==
               match FromLine(f, ahead[..n])
               case Bad(e) => (Failed(CorruptRecord(e)), ahead[n + 1..] + more)
               case Ok(r) => if r.tick < skip then ReadOn(f, ahead[n + 1..] + more, whole, skip) else (Got(r), ahead[n + 1..] + more)
  {
    hide FromLine;
    LineEndPrefix(ahead, more);
    var n := LineEnd(ahead);
    assert ahead[..n] == (ahead + more)[..n] && ahead[n + 1..] + more == (ahead + more)[n + 1..];
  }

  lemma {:induction false} LineEndPrefix(a: Bytes, b: Bytes)
    requires LineEnd(a) < |a|
    ensures LineEnd(a + b) == LineEnd(a)
  {
    assert (a + b)[0] == a[0];
    if a[0] != NEWLINE {
      assert (a + b)[1..] == a[1..] + b;
      LineEndPrefix(a[1..], b);
    }
  }

  // ---- the reader ---------------------------------------------------------------------------------------

  class Reader {
    const f: Floats
    const entries: seq<IndexEntry>

    /** The chunks decompression gives from a compressed offset on. */
    const source: nat -> seq<Chunk>

    /** The offsets the file cannot be positioned at. */
    const unseekable: nat -> bool

    var pending: seq<Chunk>
    var buf: Bytes
    var bufPos: nat
    var frameDone: bool
    var skipBelow: nat
    var error: Option<ReadError>

    constructor (f: Floats, entries: seq<IndexEntry>, source: nat -> seq<Chunk>, unseekable: nat -> bool)
      ensures this.f == f && this.entries == entries && this.source == source && this.unseekable == unseekable
      ensures Valid() && Remaining() == Joined(source(0)) && WholeStream() == Whole(source(0), true) && skipBelow == 0 && error == None
    {
      this.f, this.entries, this.source, this.unseekable := f, entries, source, unseekable;
      pending, buf, bufPos, frameDone, skipBelow, error := source(0), [], 0, true, 0, None;
    }

    predicate Valid()
      reads this`bufPos, this`buf
    {
      bufPos <= |buf|
    }

    /** The plain text still to be read, however it is split. */
    function Remaining(): Bytes
      requires Valid()
      reads this`pending, this`buf, this`bufPos
    {
      buf[bufPos..] + Joined(pending)
    }

    function WholeStream(): bool
      reads this`pending, this`frameDone
    {
      Whole(pending, frameDone)
    }

    /** The next record at or past the seek target: the same for every way the bytes arrive. */
    method Next() returns (r: Outcome)
      requires Valid()
      modifies this`pending, this`buf, this`bufPos, this`frameDone, this`error
      ensures Valid() && WholeStream() == old(WholeStream())
      ensures old(error).Some? ==> r == Failed(old(error).value) && error == old(error)
      ensures old(error).None? ==> r == ReadOn(f, old(Remaining()), old(WholeStream()), skipBelow).0
      ensures old(error).None? && !r.Failed? ==> error.None? && Remaining() == ReadOn(f, old(Remaining()), old(WholeStream()), skipBelow).1
      ensures old(error).None? && r.Failed? ==> error == Some(r.error)
    {
      if error.Some? {
        return Failed(error.value);
      }
      hide *;
      ghost var start, whole := Remaining(), WholeStream();
      while true
        invariant Valid() && error.None? && WholeStream() == whole
        invariant ReadOn(f, Remaining(), whole, skipBelow) == ReadOn(f, start, whole, skipBelow)
        decreases |pending|, Unread()
      {
        var n := FindNewline();
        if n.Some? {
          r := TakeLine(n.value, whole);
          if r != End {
            return;
          }
        } else {
          Compact();
          if pending == [] {
            r := AtEnd(whole);
            return;
          }
          Refill();
        }
      }
    }

    function Unread(): nat
      requires Valid()
      reads this`buf, this`bufPos
    {
      |buf| - bufPos
    }

    /** Where the next newline is, counted from the read position. */
    method FindNewline() returns (n: Option<nat>)
      requires Valid()
      ensures n == if LineEnd(buf[bufPos..]) < |buf[bufPos..]| then Some(LineEnd(buf[bufPos..])) else None
    {
      var k := LineEnd(buf[bufPos..]);
      return if k < |buf[bufPos..]| then Some(k) else None;
    }

    /** Hands out a complete line; End stands for one that was skipped. */
    method TakeLine(n: nat, ghost whole: bool) returns (r: Outcome)
      requires Valid() && error.None? && n == LineEnd(buf[bufPos..]) < |buf[bufPos..]| && WholeStream() == whole
      modifies this`bufPos, this`error
      ensures Valid() && Unread() < old(Unread()) && error == (if r.Failed? then Some(r.error) else None) && WholeStream() == whole
      ensures r == End ==> ReadOn(f, old(Remaining()), whole, skipBelow) == ReadOn(f, Remaining(), whole, skipBelow)
      ensures r != End ==> ReadOn(f, old(Remaining()), whole, skipBelow) == (r, Remaining())
    {
      hide ReadOn, FromLine, LineEnd;
      ghost var ahead, more := buf[bufPos..], Joined(pending);
      BufferedLine(f, ahead, more, whole, skipBelow);
      var line := buf[bufPos..bufPos + n];
      assert line == ahead[..n];
      bufPos := bufPos + n + 1;
      assert buf[bufPos..] == ahead[n + 1..];
      var parsed := FromLine(f, line);
      if parsed.Bad? {
        error := Some(CorruptRecord(parsed.error));
        return Failed(CorruptRecord(parsed.error));
      }
      return if parsed.record.tick < skipBelow then End else Got(parsed.record);
    }

    /** Drops what was read from the buffer. */
    method Compact()
      requires Valid() && LineEnd(buf[bufPos..]) == |buf[bufPos..]|
      modifies this`buf, this`bufPos
      ensures Valid() && bufPos == 0 && Remaining() == old(Remaining()) && WholeStream() == old(WholeStream()) && LineEnd(buf) == |buf|
    {
      hide LineEnd;
      buf := buf[bufPos..];
      bufPos := 0;
      assert buf[0..] == buf;
    }

    /** Takes in one more chunk. */
    method Refill()
      requires Valid() && bufPos == 0 && pending != []
      modifies this`pending, this`buf, this`frameDone
      ensures Valid() && Remaining() == old(Remaining()) && WholeStream() == old(WholeStream()) && |pending| < |old(pending)|
    {
      JoinedMore(pending);
      Regroup(buf, pending[0].bytes, Joined(pending[1..]));
      assert (buf + pending[0].bytes)[0..] == buf + pending[0].bytes && buf[0..] == buf;
      frameDone := pending[0].done;
      buf := buf + pending[0].bytes;
      pending := pending[1..];
    }

    /** The file is exhausted: a clean end, or not. */
    method AtEnd(ghost whole: bool) returns (r: Outcome)
      requires Valid() && bufPos == 0 && pending == [] && error.None? && LineEnd(buf) == |buf| && whole == WholeStream()
      modifies this`error
      ensures r == ReadOn(f, Remaining(), whole, skipBelow).0 && (!r.Failed? ==> Remaining() == ReadOn(f, Remaining(), whole, skipBelow).1)
      ensures error == if r.Failed? then Some(r.error) else None
    {
      assert Remaining() == buf;
      if !frameDone {
        error := Some(MidFrame);
        return Failed(MidFrame);
      }
      if buf != [] {
        error := Some(MidLine);
        return Failed(MidLine);
      }
      return End;
    }

    /** Positions the reader at the last frame that starts no later than the target; an error stays. */
    method SeekToTick(tick: nat) returns (e: Option<ReadError>, ghost n: nat)
      requires Valid()
      modifies this`pending, this`buf, this`bufPos, this`frameDone, this`skipBelow, this`error
      ensures Valid() && e == error
      ensures old(error).Some? ==> unchanged(this)
      ensures n <= |entries| && (forall i | 0 <= i < n :: entries[i].tick <= tick) && (n < |entries| ==> entries[n].tick > tick)
      ensures var offset := if n == 0 then 0 else entries[n - 1].frameOffset;
              old(error).None? ==>
                && error == (if unseekable(offset) then Some(SeekFailed) else None)
                && (error.None? ==> skipBelow == tick && Remaining() == Joined(source(offset)) && WholeStream() == Whole(source(offset), true))
                && (error.Some? ==> skipBelow == old(skipBelow) && Remaining() == old(Remaining()) && WholeStream() == old(WholeStream()))
    {
      var frameOffset := 0;
      var i := 0;
      while i < |entries| && entries[i].tick <= tick
        invariant i <= |entries| && (forall j | 0 <= j < i :: entries[j].tick <= tick)
        invariant frameOffset == if i == 0 then 0 else entries[i - 1].frameOffset
      {
        frameOffset := entries[i].frameOffset;
        i := i + 1;
      }
      n := i;
      if error.Some? {
        return error, n;
      }
      if unseekable(frameOffset) {
        error := Some(SeekFailed);
        return error, n;
      }
      pending := source(frameOffset);
      buf, bufPos, frameDone, skipBelow := [], 0, true, tick;
      e := None;
    }

    /** Calls Next until it has no more to give. */
    method ReadAll() returns (out: seq<Record>, e: Option<ReadError>)
      requires Valid()
      modifies this`pending, this`buf, this`bufPos, this`frameDone, this`error
      ensures Valid()
      ensures (out, e) == if old(error).Some? then ([], old(error)) else ReadRest(f, old(Remaining()), old(WholeStream()), skipBelow)
    {
      hide ReadOn;
      out, e := [], None;
      if error.Some? {
        return out, error;
      }
      ghost var start, whole := Remaining(), WholeStream();
      assert out + ReadRest(f, start, whole, skipBelow).0 == ReadRest(f, start, whole, skipBelow).0;
      while true
        invariant Valid() && error.None? && WholeStream() == whole
        invariant ReadRest(f, start, whole, skipBelow) ==
                  (out + ReadRest(f, Remaining(), whole, skipBelow).0, ReadRest(f, Remaining(), whole, skipBelow).1)
        decreases |Remaining()|
      {
        ghost var ahead := Remaining();
        ReadOnShorter(f, ahead, whole, skipBelow);
        var r := Next();
        match r
        case Got(record) =>
          assert out + ([record] + ReadRest(f, Remaining(), whole, skipBelow).0) == out + [record] + ReadRest(f, Remaining(), whole, skipBelow).0;
          out := out + [record];
        case End =>
          assert out + [] == out;
          return;
        case Failed(why) =>
          assert out + [] == out;
          return out, Some(why);
      }
    }
  }

  // ---- seeking on a bundle the writer made ---------------------------------------------------------------

  /** From each frame's compressed offset on, decompression gives the plain text of that frame and all
      later ones, in chunks of any sizes. */
  ghost predicate Decodes(f: Floats, sizes: nat -> nat, groups: Groups, source: nat -> seq<Chunk>) {
    && (forall k | 0 <= k < |groups| ::
          var chunks := source(SizeOf(sizes, k)); Joined(chunks) == Lines(f, All(groups[k..])) && Whole(chunks, true))
    && (groups == [] ==> Joined(source(0)) == [] && Whole(source(0), true))
  }

  lemma {:induction false} TicksIncrease(f: Floats, sizes: nat -> nat, groups: Groups, stride: nat, entries: seq<IndexEntry>, i: nat, j: nat)
    requires Framed(groups, stride) && stride > 0 && Indexed(f, sizes, groups, entries) && i < j < |entries|
    ensures entries[i].tick < entries[j].tick
  {
    GroupBefore(groups, stride, i, j);
    assert EntryAt(f, sizes, groups, entries, i) && EntryAt(f, sizes, groups, entries, j);
  }

  /** The frame the loop over the index picks. */
  lemma {:induction false} PicksFrame(f: Floats, sizes: nat -> nat, groups: Groups, stride: nat, entries: seq<IndexEntry>, tick: nat, n: nat)
    requires Framed(groups, stride) && stride > 0 && Indexed(f, sizes, groups, entries) && n <= |entries|
    requires (forall i | 0 <= i < n :: entries[i].tick <= tick) && (n < |entries| ==> entries[n].tick > tick)
    ensures var k := if n == 0 then 0 else n - 1;
            SeekFrame(entries, tick, k) && (if n == 0 then 0 else entries[n - 1].frameOffset) == SizeOf(sizes, k)
  {
    forall i | n < i < |entries| ensures entries[i].tick > tick {
      TicksIncrease(f, sizes, groups, stride, entries, n, i);
    }
    if n > 0 {
      assert EntryAt(f, sizes, groups, entries, n - 1);
    }
  }

  lemma {:induction false} ReadableTail(f: Floats, groups: Groups, k: nat)
    requires k <= |groups| && forall i | 0 <= i < |All(groups)| :: Readable(f, All(groups)[i])
    ensures forall i | 0 <= i < |All(groups[k..])| :: Readable(f, All(groups[k..])[i])
  {
    hide Readable;
    assert groups == groups[..k] + groups[k..];
    AllAppend(groups[..k], groups[k..]);
    var n := |All(groups[..k])|;
    forall i | 0 <= i < |All(groups[k..])| ensures Readable(f, All(groups[k..])[i]) {
      assert All(groups)[n + i] == All(groups[k..])[i];
    }
  }

  /** On a bundle the writer made, seeking to a tick and reading on gives exactly the records from that
      tick on, whatever the chunks. */
  lemma {:induction false} SeekReadsRest(f: Floats, sizes: nat -> nat, groups: Groups, stride: nat, entries: seq<IndexEntry>, source: nat -> seq<Chunk>,
                                         tick: nat, n: nat)
    requires FloatsOk(f) && Cut(groups, stride) && 0 < stride < MAX_STRIDE && Indexed(f, sizes, groups, entries) && Decodes(f, sizes, groups, source)
    requires forall i | 0 <= i < |All(groups)| :: Readable(f, All(groups)[i])
    requires n <= |entries| && (forall i | 0 <= i < n :: entries[i].tick <= tick) && (n < |entries| ==> entries[n].tick > tick)
    ensures var chunks := source(if n == 0 then 0 else entries[n - 1].frameOffset);
            ReadRest(f, Joined(chunks), Whole(chunks, true), tick) == (NormalAll(f, From(All(groups), tick)), None)
  {
    var k := if n == 0 then 0 else n - 1;
    ReadableRange(f, groups, stride);
    CutIsFramed(groups, stride);
    PicksFrame(f, sizes, groups, stride, entries, tick, n);
    NothingSkipped(f, sizes, groups, stride, entries, tick, k);
    ReadableTail(f, groups, k);
    IndexSize(f, sizes, groups, entries);
    hide ReadRest, Readable, FloatsOk, NormalAll, From, SeekFrame, Framed, Cut, Indexed;
    if groups == [] {
      assert groups[k..] == [];
      assert Lines(f, All(groups[k..])) == [];
    }
    ReadsLines(f, All(groups[k..]), tick);
  }

  lemma {:induction false} IndexSize(f: Floats, sizes: nat -> nat, groups: Groups, entries: seq<IndexEntry>)
    requires Indexed(f, sizes, groups, entries)
    ensures |entries| == |groups| && SizeOf(sizes, 0) == 0
  {
  }

  /** Seek, then read everything. */
  method SeekAndRead(reader: Reader, ghost sizes: nat -> nat, ghost groups: Groups, ghost stride: nat, tick: nat)
      returns (out: seq<Record>, e: Option<ReadError>)
    requires reader.Valid() && FloatsOk(reader.f) && Cut(groups, stride) && 0 < stride < MAX_STRIDE
    requires Indexed(reader.f, sizes, groups, reader.entries) && Decodes(reader.f, sizes, groups, reader.source)
    requires forall i | 0 <= i < |All(groups)| :: Readable(reader.f, All(groups)[i])
    modifies reader
    ensures old(reader.error).Some? ==> out == [] && e == old(reader.error)
    ensures old(reader.error).None? ==> if e.None? then out == NormalAll(reader.f, From(All(groups), tick)) else out == [] && e == Some(SeekFailed)
    ensures old(reader.error).None? && (forall offset :: !reader.unseekable(offset)) ==> e.None?
  {
    hide *;
    var failed;
    ghost var n;
    failed, n := reader.SeekToTick(tick);
    SeekReadsRest(reader.f, sizes, groups, stride, reader.entries, reader.source, tick, n);
    out, e := reader.ReadAll();
  }
}
