/** The journal's files byte by byte and its rules case by case. */
module JournalLaws {
  import opened Basics
  import opened Utf8
  import opened JsonModel
  import opened JsonSyntax
  import opened JsonWriter
  import opened JsonLiterals
  import opened JournalRecord
  import opened JournalFrames
  import opened JournalIndex
  import opened JournalWriter
  import opened JournalReader

  // ---- submissions ------------------------------------------------------------------------------------

  /** Flight records are always written, the others when their tier is on. */
  lemma {:induction false} TiersAre(tiers: Tiers)
    ensures Enabled(tiers, Flight) && (Enabled(tiers, Snapshot) <==> tiers.snapshot) && (Enabled(tiers, Trace) <==> tiers.trace)
  {
  }

  /** A submission is accepted when the journal is open and sound, time does not go back and the cause is known;
      it gets the next id.  Otherwise the first thing wrong sticks. */
  lemma {:induction false} SubmissionLaws(c: Core, s: Submission)
    ensures var (c', id) := Submit(c, s);
            var early := c.any && s.tick < c.lastTick;
            && (!c.closed && c.error == None && !early && s.cause < c.nextId ==>
                  id == c.nextId && c' == Core(c.nextId + 1, s.tick, true, None, false))
            && (c.closed || c.error != None || early || s.cause >= c.nextId ==>
                  id == 0 && c' == c.(error := if c.error != None then c.error else if c.closed then Some(Closed) else if early then Some(TickOrder) else Some(CauseUnknown)))
  {
  }

  /** From its first id on, a run without refusals numbers its submissions one by one. */
  lemma {:induction false} IdsCount(c: Core, subs: seq<Submission>)
    requires After(c, subs).error == None && !c.closed
    ensures |Ids(c, subs)| == |subs| && c.error == None && forall i | 0 <= i < |subs| :: Ids(c, subs)[i] == c.nextId + i
    ensures After(c, subs).nextId == c.nextId + |subs|
    decreases |subs|
  {
    if subs != [] {
      SubmissionLaws(c, subs[0]);
      var (c', id) := Submit(c, subs[0]);
      hide Submit;
      assert !c'.closed;
      IdsCount(c', subs[1..]);
    }
  }

  /** A record keeps what was submitted. */
  lemma {:induction false} RecordsAre(s: Submission, id: Word64)
    ensures var r := RecordOf(s, id);
            r.tick == s.tick && r.tier == s.tier && r.kind == s.kind && r.cause == s.cause && r.id == id && r.payload == s.payload
  {
  }

  // ---- lines -----------------------------------------------------------------------------------------------

  /** flight, snapshot, trace */
  function TierText(t: Tier): Bytes {
    match t
    case Flight => [102, 108, 105, 103, 104, 116]
    case Snapshot => [115, 110, 97, 112, 115, 104, 111, 116]
    case Trace => [116, 114, 97, 99, 101]
  }

  /** A 64-bit number in decimal, from 2^63 on as the negative number of the same bits. */
  function SignedText(n: nat): Bytes {
    if n < 9223372036854775808 then Digits(n) else if n < 18446744073709551616 then [45] + Digits(18446744073709551616 - n) else []
  }

  lemma {:induction false} SignedTextIs(n: Word64)
    ensures IntText(Signed(n)) == SignedText(n)
  {
  }

  /** Text without anything to escape is escaped as itself. */
  lemma {:induction false} PlainEscaped(s: Bytes)
    requires forall i | 0 <= i < |s| :: s[i] >= 32 && s[i] != 34 && s[i] != 92
    ensures EscapedBytes(s) == s
    decreases |s|
  {
    if s != [] {
      PlainEscaped(s[1..]);
      assert s == [s[0]] + s[1..];
    }
  }

  /** The members of a line: "tick":t  "tier":"..."  "kind":"..."  "cause_id":c  "id":i  and, unless it is
      empty, "payload":{...} */
  function LineMembers(f: Floats, r: Record): seq<Bytes> {
    [
      [34, 116, 105, 99, 107, 34, 58] + SignedText(r.tick),
      [34, 116, 105, 101, 114, 34, 58] + ([34] + TierText(r.tier) + [34]),
      [34, 107, 105, 110, 100, 34, 58] + ([34] + EscapedBytes(r.kind) + [34]),
      [34, 99, 97, 117, 115, 101, 95, 105, 100, 34, 58] + SignedText(r.cause),
      [34, 105, 100, 34, 58] + SignedText(r.id)
    ] + if r.payload == Obj([]) then [] else [[34, 112, 97, 121, 108, 111, 97, 100, 34, 58] + Text(f, r.payload)]
  }

  /** One member's text, for a key without anything to escape. */
  lemma {:induction false} MemberText(f: Floats, m: Member, key: Bytes, value: Bytes)
    requires Text(f, m.value) == value && key == [34] + m.key + [34, 58]
    requires forall j | 0 <= j < |m.key| :: m.key[j] >= 32 && m.key[j] != 34 && m.key[j] != 92
    ensures [34] + EscapedBytes(m.key) + [34, 58] + Text(f, m.value) == key + value
  {
    PlainEscaped(m.key);
    hide EscapedBytes, Text;
  }

  lemma {:induction false} NumberText(f: Floats, n: Word64)
    ensures Text(f, Int(Signed(n))) == SignedText(n)
  {
    SignedTextIs(n);
    hide IntText, Signed, SignedText;
  }

  lemma {:induction false} StringText(f: Floats, s: Bytes)
    ensures Text(f, Str(s)) == [34] + EscapedBytes(s) + [34]
  {
  }

  lemma {:induction false} TierTextIs(f: Floats, t: Tier)
    ensures Text(f, Str(TierName(t))) == [34] + TierText(t) + [34]
  {
    var name := TierName(t);
    assert name == TierText(t);
    StringText(f, name);
    PlainEscaped(name);
    hide EscapedBytes, Text;
  }

  function MemberLine(f: Floats, m: Member): Bytes { [34] + EscapedBytes(m.key) + [34, 58] + Text(f, m.value) }

  lemma {:induction false} MembersOf(f: Floats, members: seq<Member>)
    ensures |MemberTexts(f, members)| == |members| && forall i | 0 <= i < |members| :: MemberTexts(f, members)[i] == MemberLine(f, members[i])
  {
    hide EscapedBytes, Text;
  }

  lemma {:induction false} TickMember(f: Floats, r: Record)
    ensures MemberLine(f, Member(TICK, Int(Signed(r.tick)))) == [34, 116, 105, 99, 107, 34, 58] + SignedText(r.tick)
  {
    NumberText(f, r.tick);
    MemberText(f, Member(TICK, Int(Signed(r.tick))), [34, 116, 105, 99, 107, 34, 58], SignedText(r.tick));
  }

  lemma {:induction false} TierMember(f: Floats, r: Record)
    ensures MemberLine(f, Member(TIER, Str(TierName(r.tier)))) == [34, 116, 105, 101, 114, 34, 58] + ([34] + TierText(r.tier) + [34])
  {
    TierTextIs(f, r.tier);
    hide TierName, TierText;
    MemberText(f, Member(TIER, Str(TierName(r.tier))), [34, 116, 105, 101, 114, 34, 58], [34] + TierText(r.tier) + [34]);
  }

  lemma {:induction false} KindMember(f: Floats, r: Record)
    ensures MemberLine(f, Member(KIND, Str(r.kind))) == [34, 107, 105, 110, 100, 34, 58] + ([34] + EscapedBytes(r.kind) + [34])
  {
    StringText(f, r.kind);
    MemberText(f, Member(KIND, Str(r.kind)), [34, 107, 105, 110, 100, 34, 58], [34] + EscapedBytes(r.kind) + [34]);
  }

  lemma {:induction false} CauseMember(f: Floats, r: Record)
    ensures MemberLine(f, Member(CAUSE_ID, Int(Signed(r.cause)))) == [34, 99, 97, 117, 115, 101, 95, 105, 100, 34, 58] + SignedText(r.cause)
  {
    NumberText(f, r.cause);
    MemberText(f, Member(CAUSE_ID, Int(Signed(r.cause))), [34, 99, 97, 117, 115, 101, 95, 105, 100, 34, 58], SignedText(r.cause));
  }

  lemma {:induction false} IdMember(f: Floats, r: Record)
    ensures MemberLine(f, Member(ID, Int(Signed(r.id)))) == [34, 105, 100, 34, 58] + SignedText(r.id)
  {
    NumberText(f, r.id);
    MemberText(f, Member(ID, Int(Signed(r.id))), [34, 105, 100, 34, 58], SignedText(r.id));
  }

  lemma {:induction false} PayloadMember(f: Floats, r: Record)
    ensures MemberLine(f, Member(PAYLOAD, r.payload)) == [34, 112, 97, 121, 108, 111, 97, 100, 34, 58] + Text(f, r.payload)
  {
    MemberText(f, Member(PAYLOAD, r.payload), [34, 112, 97, 121, 108, 111, 97, 100, 34, 58], Text(f, r.payload));
  }

  lemma {:induction false} RecordMembers(r: Record)
    ensures RecordJson(r).Obj?
    ensures var ms := RecordJson(r).members;
            && |ms| == (if r.payload == Obj([]) then 5 else 6)
            && ms[0] == Member(TICK, Int(Signed(r.tick))) && ms[1] == Member(TIER, Str(TierName(r.tier))) && ms[2] == Member(KIND, Str(r.kind))
            && ms[3] == Member(CAUSE_ID, Int(Signed(r.cause))) && ms[4] == Member(ID, Int(Signed(r.id)))
            && (r.payload != Obj([]) ==> ms[5] == Member(PAYLOAD, r.payload))
  {
    hide TICK, TIER, KIND, CAUSE_ID, ID, PAYLOAD, Signed, TierName;
  }

  lemma {:induction false} LineMembersAt(f: Floats, r: Record)
    ensures var line := LineMembers(f, r);
            && |line| == (if r.payload == Obj([]) then 5 else 6)
            && line[0] == [34, 116, 105, 99, 107, 34, 58] + SignedText(r.tick)
            && line[1] == [34, 116, 105, 101, 114, 34, 58] + ([34] + TierText(r.tier) + [34])
            && line[2] == [34, 107, 105, 110, 100, 34, 58] + ([34] + EscapedBytes(r.kind) + [34])
            && line[3] == [34, 99, 97, 117, 115, 101, 95, 105, 100, 34, 58] + SignedText(r.cause)
            && line[4] == [34, 105, 100, 34, 58] + SignedText(r.id)
            && (r.payload != Obj([]) ==> line[5] == [34, 112, 97, 121, 108, 111, 97, 100, 34, 58] + Text(f, r.payload))
  {
    hide Text, EscapedBytes, SignedText, TierText;
  }

  lemma {:induction false} LineMembersAre(f: Floats, r: Record)
    ensures RecordJson(r).Obj? && MemberTexts(f, RecordJson(r).members) == LineMembers(f, r)
  {
    hide *;
    RecordMembers(r);
    LineMembersAt(f, r);
    MembersOf(f, RecordJson(r).members);
    TickMember(f, r);
    TierMember(f, r);
    KindMember(f, r);
    CauseMember(f, r);
    IdMember(f, r);
    PayloadMember(f, r);
    var texts, line := MemberTexts(f, RecordJson(r).members), LineMembers(f, r);
    forall i | 0 <= i < |texts| ensures texts[i] == line[i] {
      assert i == 0 || i == 1 || i == 2 || i == 3 || i == 4 || i == 5;
    }
  }

  lemma {:induction false} ObjectText(f: Floats, members: seq<Member>)
    ensures Text(f, Obj(members)) == [123] + CommaJoined(MemberTexts(f, members)) + [125]
  {
    TextsAre(f, [], Double(0), [], members);
    hide Text, MemberTexts, CommaJoined;
  }

  /** A record's line, byte by byte. */
  lemma {:induction false} LineText(f: Floats, r: Record)
    ensures ToLine(f, r) == [123] + CommaJoined(LineMembers(f, r)) + [125]
  {
    LineMembersAre(f, r);
    ObjectText(f, RecordJson(r).members);
    hide Text, MemberTexts, CommaJoined, RecordJson, LineMembers;
  }

  // ---- the index file ----------------------------------------------------------------------------------

  /** "tick":t  "record_id":i  "offset":o  "frame_offset":p */
  function EntryLine(e: IndexEntry): seq<Bytes> {
    [
      [34, 116, 105, 99, 107, 34, 58] + SignedText(e.tick % 18446744073709551616),
      [34, 114, 101, 99, 111, 114, 100, 95, 105, 100, 34, 58] + SignedText(e.recordId % 18446744073709551616),
      [34, 111, 102, 102, 115, 101, 116, 34, 58] + SignedText(e.offset % 18446744073709551616),
      [34, 102, 114, 97, 109, 101, 95, 111, 102, 102, 115, 101, 116, 34, 58] + SignedText(e.frameOffset % 18446744073709551616)
    ]
  }

  lemma {:induction false} CountText(f: Floats, n: nat)
    ensures Text(f, Int(Cast(n))) == SignedText(n % 18446744073709551616)
  {
    NumberText(f, n % 18446744073709551616);
    hide Text, Signed, SignedText;
  }

  lemma {:induction false} CountMember(f: Floats, name: Bytes, key: Bytes, n: nat)
    requires key == [34] + name + [34, 58] && forall j | 0 <= j < |name| :: name[j] >= 32 && name[j] != 34 && name[j] != 92
    ensures MemberLine(f, Member(name, Int(Cast(n)))) == key + SignedText(n % 18446744073709551616)
  {
    CountText(f, n);
    hide Text, Cast, SignedText;
    MemberText(f, Member(name, Int(Cast(n))), key, SignedText(n % 18446744073709551616));
  }

  lemma {:induction false} EntryParts(e: IndexEntry)
    ensures var ms, line := EntryMembers(e), EntryLine(e);
            && |ms| == |line| == 4 && ms[0] == Member(TICK, Int(Cast(e.tick))) && ms[1] == Member(RECORD_ID, Int(Cast(e.recordId)))
            && ms[2] == Member(OFFSET, Int(Cast(e.offset))) && ms[3] == Member(FRAME_OFFSET, Int(Cast(e.frameOffset)))
            && line[0] == [34, 116, 105, 99, 107, 34, 58] + SignedText(e.tick % 18446744073709551616)
            && line[1] == [34, 114, 101, 99, 111, 114, 100, 95, 105, 100, 34, 58] + SignedText(e.recordId % 18446744073709551616)
            && line[2] == [34, 111, 102, 102, 115, 101, 116, 34, 58] + SignedText(e.offset % 18446744073709551616)
            && line[3] == [34, 102, 114, 97, 109, 101, 95, 111, 102, 102, 115, 101, 116, 34, 58] + SignedText(e.frameOffset % 18446744073709551616)
  {
    hide SignedText, Cast, TICK, RECORD_ID, OFFSET, FRAME_OFFSET;
  }

  lemma {:induction false} EntryCounts(f: Floats, e: IndexEntry)
    ensures MemberLine(f, Member(TICK, Int(Cast(e.tick)))) == [34, 116, 105, 99, 107, 34, 58] + SignedText(e.tick % 18446744073709551616)
    ensures MemberLine(f, Member(RECORD_ID, Int(Cast(e.recordId))))
            == [34, 114, 101, 99, 111, 114, 100, 95, 105, 100, 34, 58] + SignedText(e.recordId % 18446744073709551616)
    ensures MemberLine(f, Member(OFFSET, Int(Cast(e.offset)))) == [34, 111, 102, 102, 115, 101, 116, 34, 58] + SignedText(e.offset % 18446744073709551616)
    ensures MemberLine(f, Member(FRAME_OFFSET, Int(Cast(e.frameOffset))))
            == [34, 102, 114, 97, 109, 101, 95, 111, 102, 102, 115, 101, 116, 34, 58] + SignedText(e.frameOffset % 18446744073709551616)
  {
    hide MemberLine, SignedText, Cast;
    CountMember(f, TICK, [34, 116, 105, 99, 107, 34, 58], e.tick);
    CountMember(f, RECORD_ID, [34, 114, 101, 99, 111, 114, 100, 95, 105, 100, 34, 58], e.recordId);
    CountMember(f, OFFSET, [34, 111, 102, 102, 115, 101, 116, 34, 58], e.offset);
    CountMember(f, FRAME_OFFSET, [34, 102, 114, 97, 109, 101, 95, 111, 102, 102, 115, 101, 116, 34, 58], e.frameOffset);
  }

  lemma {:induction false} EntryTexts(f: Floats, e: IndexEntry)
    ensures MemberTexts(f, EntryMembers(e)) == EntryLine(e)
  {
    hide *;
    EntryCounts(f, e);
    MembersOf(f, EntryMembers(e));
    EntryParts(e);
    var texts, line := MemberTexts(f, EntryMembers(e)), EntryLine(e);
    forall i | 0 <= i < |texts| ensures texts[i] == line[i] {
      assert i == 0 || i == 1 || i == 2 || i == 3;
    }
  }

  /** One entry of the index, byte by byte. */
  lemma {:induction false} EntryText(f: Floats, e: IndexEntry)
    ensures Text(f, Obj(EntryMembers(e))) == [123] + CommaJoined(EntryLine(e)) + [125]
  {
    hide *;
    EntryTexts(f, e);
    ObjectText(f, EntryMembers(e));
  }

  /** Each entry's text. */
  function EntryTextsOf(entries: seq<IndexEntry>): seq<Bytes> {
    seq(|entries|, i requires 0 <= i < |entries| => [123] + CommaJoined(EntryLine(entries[i])) + [125])
  }

  /** "schema":"midday.mrj.index/1"  "stride_ticks":s  "records":r  "journal_bytes":b  "entries":[...] */
  function IndexLine(ix: Index): seq<Bytes> {
    [
      [34, 115, 99, 104, 101, 109, 97, 34, 58]
      + ([34] + [109, 105, 100, 100, 97, 121, 46, 109, 114, 106, 46, 105, 110, 100, 101, 120, 47, 49] + [34]),
      [34, 115, 116, 114, 105, 100, 101, 95, 116, 105, 99, 107, 115, 34, 58] + SignedText(ix.stride % 18446744073709551616),
      [34, 114, 101, 99, 111, 114, 100, 115, 34, 58] + SignedText(ix.records % 18446744073709551616),
      [34, 106, 111, 117, 114, 110, 97, 108, 95, 98, 121, 116, 101, 115, 34, 58] + SignedText(ix.journalBytes % 18446744073709551616),
      [34, 101, 110, 116, 114, 105, 101, 115, 34, 58] + ([91] + CommaJoined(EntryTextsOf(ix.entries)) + [93])
    ]
  }

  lemma {:induction false} EntriesText(f: Floats, ix: Index)
    ensures Text(f, Arr(EntriesJson(ix.entries))) == [91] + CommaJoined(EntryTextsOf(ix.entries)) + [93]
  {
    var elements := EntriesJson(ix.entries);
    TextsAre(f, [], Double(0), elements, []);
    hide Text, CommaJoined, EntryMembers, EntryLine;
    forall i | 0 <= i < |elements| ensures Text(f, elements[i]) == EntryTextsOf(ix.entries)[i] {
      EntryText(f, ix.entries[i]);
    }
    assert ElementTexts(f, elements) == EntryTextsOf(ix.entries);
  }

  lemma {:induction false} SchemaText(f: Floats)
    ensures Text(f, Str(INDEX_SCHEMA)) == [34] + [109, 105, 100, 100, 97, 121, 46, 109, 114, 106, 46, 105, 110, 100, 101, 120, 47, 49] + [34]
  {
    SchemaIs();
    var name: Bytes := [109, 105, 100, 100, 97, 121, 46, 109, 114, 106, 46, 105, 110, 100, 101, 120, 47, 49];
    PlainEscaped(name);
    hide *;
    StringText(f, name);
  }

  lemma {:induction false} SchemaIs()
    ensures INDEX_SCHEMA == [109, 105, 100, 100, 97, 121, 46, 109, 114, 106, 46, 105, 110, 100, 101, 120, 47, 49]
  {
  }

  lemma {:induction false} SchemaMember(f: Floats)
    ensures MemberLine(f, Member(SCHEMA, Str(INDEX_SCHEMA)))
            == [34, 115, 99, 104, 101, 109, 97, 34, 58]
               + ([34] + [109, 105, 100, 100, 97, 121, 46, 109, 114, 106, 46, 105, 110, 100, 101, 120, 47, 49] + [34])
  {
    SchemaText(f);
    hide Text, INDEX_SCHEMA;
    MemberText(f, Member(SCHEMA, Str(INDEX_SCHEMA)), [34, 115, 99, 104, 101, 109, 97, 34, 58],
               [34] + [109, 105, 100, 100, 97, 121, 46, 109, 114, 106, 46, 105, 110, 100, 101, 120, 47, 49] + [34]);
  }

  lemma {:induction false} EntriesMember(f: Floats, ix: Index)
    ensures MemberLine(f, Member(ENTRIES, Arr(EntriesJson(ix.entries))))
            == [34, 101, 110, 116, 114, 105, 101, 115, 34, 58] + ([91] + CommaJoined(EntryTextsOf(ix.entries)) + [93])
  {
    EntriesText(f, ix);
    hide Text, CommaJoined, EntryTextsOf, EntriesJson;
    MemberText(f, Member(ENTRIES, Arr(EntriesJson(ix.entries))), [34, 101, 110, 116, 114, 105, 101, 115, 34, 58],
               [91] + CommaJoined(EntryTextsOf(ix.entries)) + [93]);
  }

  lemma {:induction false} IndexParts(ix: Index)
    ensures var ms := IndexMembers(ix);
            && |ms| == 5 && ms[0] == Member(SCHEMA, Str(INDEX_SCHEMA)) && ms[1] == Member(STRIDE_TICKS, Int(Cast(ix.stride)))
            && ms[2] == Member(RECORDS, Int(Cast(ix.records))) && ms[3] == Member(JOURNAL_BYTES, Int(Cast(ix.journalBytes)))
            && ms[4] == Member(ENTRIES, Arr(EntriesJson(ix.entries)))
  {
    hide Cast, EntriesJson, SCHEMA, INDEX_SCHEMA, STRIDE_TICKS, RECORDS, JOURNAL_BYTES, ENTRIES;
  }

  lemma {:induction false} IndexLineAt(ix: Index)
    ensures var line := IndexLine(ix);
            && |line| == 5
            && line[0] == [34, 115, 99, 104, 101, 109, 97, 34, 58]
                          + ([34] + [109, 105, 100, 100, 97, 121, 46, 109, 114, 106, 46, 105, 110, 100, 101, 120, 47, 49] + [34])
            && line[1] == [34, 115, 116, 114, 105, 100, 101, 95, 116, 105, 99, 107, 115, 34, 58] + SignedText(ix.stride % 18446744073709551616)
            && line[2] == [34, 114, 101, 99, 111, 114, 100, 115, 34, 58] + SignedText(ix.records % 18446744073709551616)
            && line[3] == [34, 106, 111, 117, 114, 110, 97, 108, 95, 98, 121, 116, 101, 115, 34, 58] + SignedText(ix.journalBytes % 18446744073709551616)
            && line[4] == [34, 101, 110, 116, 114, 105, 101, 115, 34, 58] + ([91] + CommaJoined(EntryTextsOf(ix.entries)) + [93])
  {
    hide SignedText, CommaJoined, EntryTextsOf;
  }

  lemma {:induction false} CountMembers(f: Floats, ix: Index)
    ensures MemberLine(f, Member(STRIDE_TICKS, Int(Cast(ix.stride))))
            == [34, 115, 116, 114, 105, 100, 101, 95, 116, 105, 99, 107, 115, 34, 58] + SignedText(ix.stride % 18446744073709551616)
    ensures MemberLine(f, Member(RECORDS, Int(Cast(ix.records))))
            == [34, 114, 101, 99, 111, 114, 100, 115, 34, 58] + SignedText(ix.records % 18446744073709551616)
    ensures MemberLine(f, Member(JOURNAL_BYTES, Int(Cast(ix.journalBytes))))
            == [34, 106, 111, 117, 114, 110, 97, 108, 95, 98, 121, 116, 101, 115, 34, 58] + SignedText(ix.journalBytes % 18446744073709551616)
  {
    hide MemberLine, SignedText, Cast;
    CountMember(f, STRIDE_TICKS, [34, 115, 116, 114, 105, 100, 101, 95, 116, 105, 99, 107, 115, 34, 58], ix.stride);
    CountMember(f, RECORDS, [34, 114, 101, 99, 111, 114, 100, 115, 34, 58], ix.records);
    CountMember(f, JOURNAL_BYTES, [34, 106, 111, 117, 114, 110, 97, 108, 95, 98, 121, 116, 101, 115, 34, 58], ix.journalBytes);
  }

  lemma {:induction false} IndexTexts(f: Floats, ix: Index)
    ensures MemberTexts(f, IndexMembers(ix)) == IndexLine(ix)
  {
    hide *;
    MembersOf(f, IndexMembers(ix));
    SchemaMember(f);
    CountMembers(f, ix);
    EntriesMember(f, ix);
    IndexParts(ix);
    IndexLineAt(ix);
    var texts, line := MemberTexts(f, IndexMembers(ix)), IndexLine(ix);
    forall i | 0 <= i < |texts| ensures texts[i] == line[i] {
      assert i == 0 || i == 1 || i == 2 || i == 3 || i == 4;
    }
  }

  lemma {:induction false} FileIs(f: Floats, ix: Index)
    ensures IndexFile(f, ix) == Text(f, Obj(IndexMembers(ix))) + [10]
  {
    hide Text, IndexMembers;
  }

  /** The index file, byte by byte. */
  lemma {:induction false} IndexText(f: Floats, ix: Index)
    ensures IndexFile(f, ix) == [123] + CommaJoined(IndexLine(ix)) + [125, 10]
  {
    hide *;
    FileIs(f, ix);
    IndexTexts(f, ix);
    ObjectText(f, IndexMembers(ix));
    assert [125] + [10] == [125, 10];
  }

  // ---- reading -------------------------------------------------------------------------------------------

  /** Where the text has no newline left it must be over, and end with a frame; a line is a record or an error;
      records before the skipped-to tick are passed over. */
  lemma {:induction false} ReadingLaws(f: Floats, text: Bytes, line: Bytes, more: Bytes, whole: bool, skip: nat)
    requires 10 !in text && 10 !in line
    ensures ReadOn(f, text, false, skip) == (Failed(MidFrame), text)
    ensures ReadOn(f, text, true, skip) == (if text == [] then End else Failed(MidLine), text)
    ensures match FromLine(f, line)
            case Bad(e) => ReadOn(f, line + [10] + more, whole, skip) == (Failed(CorruptRecord(e)), more)
            case Ok(r) => ReadOn(f, line + [10] + more, whole, skip) == if r.tick < skip then ReadOn(f, more, whole, skip) else (Got(r), more)
  {
    LineEndIs(line, more);
    var all := line + [10] + more;
    assert all[..|line|] == line && all[|line| + 1..] == more;
    hide FromLine;
  }

  /** The first k records are before the tick, the others are not. */
  predicate Parts(rs: seq<Record>, k: nat, tick: nat) {
    k <= |rs| && (forall i | 0 <= i < k :: rs[i].tick < tick) && (forall i | k <= i < |rs| :: tick <= rs[i].tick)
  }

  /** In a journal the records from a tick on are its rest from the first one that is not before it. */
  lemma {:induction false} FromIsRest(rs: seq<Record>, tick: nat) returns (k: nat)
    requires Ordered(rs)
    ensures Parts(rs, k, tick) && From(rs, tick) == rs[k..]
    decreases |rs|
  {
    if rs == [] || tick <= rs[0].tick {
      k := 0;
      NothingBefore(rs, tick);
    } else {
      TailOrdered(rs);
      var k' := FromIsRest(rs[1..], tick);
      k := k' + 1;
      hide Ordered;
      PartsMore(rs, k', tick);
      assert rs[1..][k'..] == rs[k..];
    }
  }

  lemma {:induction false} TailOrdered(rs: seq<Record>)
    requires Ordered(rs) && rs != []
    ensures Ordered(rs[1..])
  {
    forall i, j | 0 <= i < j < |rs| - 1 ensures rs[1..][i].tick <= rs[1..][j].tick && rs[1..][i].id < rs[1..][j].id {
      assert rs[1..][i] == rs[i + 1] && rs[1..][j] == rs[j + 1];
    }
  }

  lemma {:induction false} PartsMore(rs: seq<Record>, k: nat, tick: nat)
    requires rs != [] && rs[0].tick < tick && Parts(rs[1..], k, tick)
    ensures Parts(rs, k + 1, tick)
  {
    forall i | 0 <= i < |rs| ensures if i < k + 1 then rs[i].tick < tick else tick <= rs[i].tick {
      assert i > 0 ==> rs[1..][i - 1] == rs[i];
    }
  }

  lemma {:induction false} NothingBefore(rs: seq<Record>, tick: nat)
    requires forall i | 0 <= i < |rs| :: tick <= rs[i].tick
    ensures From(rs, tick) == rs
    decreases |rs|
  {
    if rs != [] {
      NothingBefore(rs[1..], tick);
      assert rs == [rs[0]] + rs[1..];
    }
  }

  /** The member of a key that is unique in an object. */
  predicate Holds(members: seq<Member>, key: Bytes, v: Json) {
    exists i :: 0 <= i < |members| && members[i] == Member(key, v) && forall j | 0 <= j < i :: members[j].key != key
  }

  lemma {:induction false} FoundIs(members: seq<Member>, key: Bytes, v: Json)
    ensures Find(members, key) == Some(v) <==> Holds(members, key, v)
    ensures Find(members, key) == None <==> forall i | 0 <= i < |members| :: members[i].key != key
    decreases |members|
  {
    if members != [] {
      FoundIs(members[1..], key, v);
      if members[0].key == key {
        if members[0].value == v {
          assert members[0] == Member(key, v);
        }
      } else {
        if Holds(members[1..], key, v) {
          var i :| 0 <= i < |members| - 1 && members[1..][i] == Member(key, v) && forall j | 0 <= j < i :: members[1..][j].key != key;
          forall j | 0 <= j < i + 1 ensures members[j].key != key {
            assert j > 0 ==> members[1..][j - 1] == members[j];
          }
          assert members[i + 1] == Member(key, v);
        }
        if Holds(members, key, v) {
          var i :| 0 <= i < |members| && members[i] == Member(key, v) && forall j | 0 <= j < i :: members[j].key != key;
          assert members[1..][i - 1] == Member(key, v);
          forall j | 0 <= j < i - 1 ensures members[1..][j].key != key {
            assert members[1..][j] == members[j + 1];
          }
        }
        assert forall i | 0 <= i < |members| - 1 :: members[1..][i] == members[i + 1];
      }
    }
  }

  /** A number of at most 63 bits under a key. */
  predicate Numbered(members: seq<Member>, key: Bytes, n: int) { 0 <= n < 9223372036854775808 && Holds(members, key, Int(n)) }

  lemma {:induction false} NumberIs(members: seq<Member>, key: Bytes, n: Word64)
    ensures Unsigned(members, key) == Some(n) <==> Numbered(members, key, n)
  {
    FoundIs(members, key, Int(n));
    hide Find, Holds;
  }

  lemma {:induction false} TextIs(members: seq<Member>, key: Bytes, s: Bytes)
    ensures StringField(members, key) == Some(s) <==> Holds(members, key, Str(s))
  {
    FoundIs(members, key, Str(s));
    hide Find, Holds;
  }

  /** tick, tier, kind, cause_id, id and payload, from literal bytes. */
  const RECORD_KEYS: set<Bytes> := {
    [116, 105, 99, 107], [116, 105, 101, 114], [107, 105, 110, 100], [99, 97, 117, 115, 101, 95, 105, 100], [105, 100],
    [112, 97, 121, 108, 111, 97, 100]
  }

  /** What an object must hold for a record: no key but the six; tick, cause and id numbers below 2^63, the id not
      0; a tier of the three; a kind that is not empty; an object as payload, if any. */
  predicate IsRecord(members: seq<Member>, r: Record) {
    && (forall i | 0 <= i < |members| :: members[i].key in RECORD_KEYS)
    && Numbered(members, [116, 105, 99, 107], r.tick) && Holds(members, [116, 105, 101, 114], Str(TierText(r.tier)))
    && Holds(members, [107, 105, 110, 100], Str(r.kind)) && Numbered(members, [99, 97, 117, 115, 101, 95, 105, 100], r.cause)
    && Numbered(members, [105, 100], r.id) && r.kind != [] && r.id > 0 && r.payload.Obj?
    && (Holds(members, [112, 97, 121, 108, 111, 97, 100], r.payload)
        || (r.payload == Obj([]) && forall i | 0 <= i < |members| :: members[i].key != [112, 97, 121, 108, 111, 97, 100]))
  }

  /** An object is read as a record exactly when it holds it. */
  lemma {:induction false} RecordIff(v: Json, r: Record)
    ensures JournalRecord.FromJson(v) == Ok(r) <==> v.Obj? && IsRecord(v.members, r)
  {
    if v.Obj? {
      var ms := v.members;
      KeysAre();
      FieldsAre(ms, r);
      NamedTier(r.tier);
      FromFields(ms, r);
      hide JournalRecord.FromJson, Holds, Find, TierText, TierOf, Unsigned, StringField, TICK, TIER, KIND, CAUSE_ID, ID, PAYLOAD, RECORD_KEYS;
    }
  }

  lemma {:induction false} KeysAre()
    ensures TICK == [116, 105, 99, 107] && TIER == [116, 105, 101, 114] && KIND == [107, 105, 110, 100] && ID == [105, 100]
    ensures CAUSE_ID == [99, 97, 117, 115, 101, 95, 105, 100] && PAYLOAD == [112, 97, 121, 108, 111, 97, 100]
    ensures RECORD_KEYS == {TICK, TIER, KIND, CAUSE_ID, ID, PAYLOAD}
  {
  }

  lemma {:induction false} FieldsAre(ms: seq<Member>, r: Record)
    ensures Unsigned(ms, TICK) == Some(r.tick) <==> Numbered(ms, TICK, r.tick)
    ensures Unsigned(ms, CAUSE_ID) == Some(r.cause) <==> Numbered(ms, CAUSE_ID, r.cause)
    ensures Unsigned(ms, ID) == Some(r.id) <==> Numbered(ms, ID, r.id)
    ensures StringField(ms, TIER) == Some(TierText(r.tier)) <==> Holds(ms, TIER, Str(TierText(r.tier)))
    ensures StringField(ms, KIND) == Some(r.kind) <==> Holds(ms, KIND, Str(r.kind))
    ensures Find(ms, PAYLOAD) == Some(r.payload) <==> Holds(ms, PAYLOAD, r.payload)
    ensures Find(ms, PAYLOAD) == None <==> forall i | 0 <= i < |ms| :: ms[i].key != PAYLOAD
  {
    NumberIs(ms, TICK, r.tick);
    NumberIs(ms, CAUSE_ID, r.cause);
    NumberIs(ms, ID, r.id);
    TextIs(ms, TIER, TierText(r.tier));
    TextIs(ms, KIND, r.kind);
    FoundIs(ms, PAYLOAD, r.payload);
    hide *;
  }

  lemma {:induction false} FromFields(ms: seq<Member>, r: Record)
    ensures JournalRecord.FromJson(Obj(ms)) == Ok(r)
            <==> && (forall i | 0 <= i < |ms| :: ms[i].key in {TICK, TIER, KIND, CAUSE_ID, ID, PAYLOAD})
                 && Unsigned(ms, TICK) == Some(r.tick) && Unsigned(ms, CAUSE_ID) == Some(r.cause) && Unsigned(ms, ID) == Some(r.id)
                 && StringField(ms, TIER) == Some(TierText(r.tier)) && StringField(ms, KIND) == Some(r.kind)
                 && r.kind != [] && r.id > 0 && r.payload.Obj?
                 && (Find(ms, PAYLOAD) == Some(r.payload) || (Find(ms, PAYLOAD) == None && r.payload == Obj([])))
  {
    NamedTier(r.tier);
    TierNamed(if StringField(ms, TIER).Some? then StringField(ms, TIER).value else []);
    hide Unsigned, StringField, Find, TierText, TierOf, TICK, TIER, KIND, CAUSE_ID, ID, PAYLOAD;
  }

  lemma {:induction false} NamedTier(t: Tier)
    ensures TierOf(TierText(t)) == Some(t)
  {
  }

  lemma {:induction false} TierNamed(name: Bytes)
    ensures TierOf(name).Some? ==> name == TierText(TierOf(name).value)
  {
  }

  /** No object and a foreign key are refused before anything else. */
  lemma {:induction false} RecordRefusals(v: Json)
    ensures !v.Obj? ==> JournalRecord.FromJson(v) == Bad(NotObject)
    ensures v.Obj? && (exists i :: 0 <= i < |v.members| && v.members[i].key !in RECORD_KEYS) ==> JournalRecord.FromJson(v) == Bad(UnknownKeys)
  {
    KeysAre();
    hide TICK, TIER, KIND, CAUSE_ID, ID, PAYLOAD, RECORD_KEYS, Unsigned, StringField, Find;
  }

  // ---- reading an index ------------------------------------------------------------------------------------

  /** tick, record_id, offset and frame_offset. */
  const ENTRY_KEYS: set<Bytes> := {
    [116, 105, 99, 107], [114, 101, 99, 111, 114, 100, 95, 105, 100], [111, 102, 102, 115, 101, 116],
    [102, 114, 97, 109, 101, 95, 111, 102, 102, 115, 101, 116]
  }

  predicate IsEntry(members: seq<Member>, e: IndexEntry) {
    && (forall i | 0 <= i < |members| :: members[i].key in ENTRY_KEYS)
    && Numbered(members, [116, 105, 99, 107], e.tick) && Numbered(members, [114, 101, 99, 111, 114, 100, 95, 105, 100], e.recordId)
    && Numbered(members, [111, 102, 102, 115, 101, 116], e.offset)
    && Numbered(members, [102, 114, 97, 109, 101, 95, 111, 102, 102, 115, 101, 116], e.frameOffset)
  }

  lemma {:induction false} EntryKeysAre()
    ensures TICK == [116, 105, 99, 107] && RECORD_ID == [114, 101, 99, 111, 114, 100, 95, 105, 100] && OFFSET == [111, 102, 102, 115, 101, 116]
    ensures FRAME_OFFSET == [102, 114, 97, 109, 101, 95, 111, 102, 102, 115, 101, 116] && ENTRY_KEYS == {TICK, RECORD_ID, OFFSET, FRAME_OFFSET}
  {
  }

  /** An object is read as an entry exactly when it holds it and nothing else. */
  lemma {:induction false} EntryIff(v: Json, e: IndexEntry)
    ensures EntryOf(v) == Entry(e) <==> v.Obj? && IsEntry(v.members, e)
  {
    EntryKeysAre();
    if v.Obj? {
      EntryFields(v.members, e);
      if EntryOf(v) == Entry(e) || IsEntry(v.members, e) {
        EntryNumbers(v.members, e);
      }
    }
    hide Numbered, Unsigned, EntryOf, TICK, RECORD_ID, OFFSET, FRAME_OFFSET, ENTRY_KEYS;
  }

  lemma {:induction false} EntryFields(ms: seq<Member>, e: IndexEntry)
    ensures EntryOf(Obj(ms)) == Entry(e)
            <==> && (forall i | 0 <= i < |ms| :: ms[i].key in {TICK, RECORD_ID, OFFSET, FRAME_OFFSET})
                 && e.tick < LIMIT && e.recordId < LIMIT && e.offset < LIMIT && e.frameOffset < LIMIT
                 && Unsigned(ms, TICK) == Some(e.tick) && Unsigned(ms, RECORD_ID) == Some(e.recordId)
                 && Unsigned(ms, OFFSET) == Some(e.offset) && Unsigned(ms, FRAME_OFFSET) == Some(e.frameOffset)
  {
    hide Unsigned, TICK, RECORD_ID, OFFSET, FRAME_OFFSET;
  }

  lemma {:induction false} EntryNumbers(ms: seq<Member>, e: IndexEntry)
    requires e.tick < LIMIT && e.recordId < LIMIT && e.offset < LIMIT && e.frameOffset < LIMIT
    ensures Unsigned(ms, TICK) == Some(e.tick) <==> Numbered(ms, TICK, e.tick)
    ensures Unsigned(ms, RECORD_ID) == Some(e.recordId) <==> Numbered(ms, RECORD_ID, e.recordId)
    ensures Unsigned(ms, OFFSET) == Some(e.offset) <==> Numbered(ms, OFFSET, e.offset)
    ensures Unsigned(ms, FRAME_OFFSET) == Some(e.frameOffset) <==> Numbered(ms, FRAME_OFFSET, e.frameOffset)
  {
    NumberIs(ms, TICK, e.tick);
    NumberIs(ms, RECORD_ID, e.recordId);
    NumberIs(ms, OFFSET, e.offset);
    NumberIs(ms, FRAME_OFFSET, e.frameOffset);
    hide Unsigned, Numbered;
  }

  /** schema, stride_ticks, records, journal_bytes and entries. */
  const INDEX_KEYS: set<Bytes> := {
    [115, 99, 104, 101, 109, 97], [115, 116, 114, 105, 100, 101, 95, 116, 105, 99, 107, 115], [114, 101, 99, 111, 114, 100, 115],
    [106, 111, 117, 114, 110, 97, 108, 95, 98, 121, 116, 101, 115], [101, 110, 116, 114, 105, 101, 115]
  }

  /** What an object must hold for an index: no key but the five, its schema, three numbers below 2^63, the stride
      not 0, and a list of entries each of which is past the one before it in all four numbers. */
  predicate IsIndex(members: seq<Member>, ix: Index, stride: nat, elements: seq<Json>) {
    && (forall i | 0 <= i < |members| :: members[i].key in INDEX_KEYS)
    && Holds(members, [115, 99, 104, 101, 109, 97], Str([109, 105, 100, 100, 97, 121, 46, 109, 114, 106, 46, 105, 110, 100, 101, 120, 47, 49]))
    && Numbered(members, [115, 116, 114, 105, 100, 101, 95, 116, 105, 99, 107, 115], stride) && stride > 0 && ix.stride == stride % 4294967296
    && Numbered(members, [114, 101, 99, 111, 114, 100, 115], ix.records)
    && Numbered(members, [106, 111, 117, 114, 110, 97, 108, 95, 98, 121, 116, 101, 115], ix.journalBytes)
    && Holds(members, [101, 110, 116, 114, 105, 101, 115], Arr(elements)) && AreEntries(elements, ix.entries)
  }

  predicate AreEntries(elements: seq<Json>, entries: seq<IndexEntry>) {
    && |elements| == |entries| && (forall k | 0 <= k < |entries| :: elements[k].Obj? && IsEntry(elements[k].members, entries[k]))
    && (forall k | 0 < k < |entries| :: entries[k - 1].tick < entries[k].tick && entries[k - 1].recordId < entries[k].recordId
                                       && entries[k - 1].offset < entries[k].offset && entries[k - 1].frameOffset < entries[k].frameOffset)
  }

  lemma {:induction false} EntriesAre(elements: seq<Json>, entries: seq<IndexEntry>)
    ensures ReadEntries(elements, |elements|) == Entries(entries) <==> AreEntries(elements, entries)
  {
    ReadEntriesIff(elements, |elements|, entries);
    forall k | 0 <= k < |elements| && k < |entries|
      ensures EntryOf(elements[k]) == Entry(entries[k]) <==> elements[k].Obj? && IsEntry(elements[k].members, entries[k])
    {
      EntryIff(elements[k], entries[k]);
    }
    hide EntryOf, IsEntry, ReadEntries;
  }

  lemma {:induction false} IndexKeysAre()
    ensures SCHEMA == [115, 99, 104, 101, 109, 97] && STRIDE_TICKS == [115, 116, 114, 105, 100, 101, 95, 116, 105, 99, 107, 115]
    ensures RECORDS == [114, 101, 99, 111, 114, 100, 115] && ENTRIES == [101, 110, 116, 114, 105, 101, 115]
    ensures JOURNAL_BYTES == [106, 111, 117, 114, 110, 97, 108, 95, 98, 121, 116, 101, 115]
    ensures INDEX_KEYS == {SCHEMA, STRIDE_TICKS, RECORDS, JOURNAL_BYTES, ENTRIES}
  {
  }

  lemma {:induction false} IndexFields(ms: seq<Member>, ix: Index, stride: Word64, elements: seq<Json>)
    requires ix.records < LIMIT && ix.journalBytes < LIMIT
    ensures IsIndex(ms, ix, stride, elements)
            <==> && (forall i | 0 <= i < |ms| :: ms[i].key in {SCHEMA, STRIDE_TICKS, RECORDS, JOURNAL_BYTES, ENTRIES})
                 && StringField(ms, SCHEMA) == Some(INDEX_SCHEMA) && Unsigned(ms, STRIDE_TICKS) == Some(stride) && stride > 0
                 && ix.stride == stride % MAX_STRIDE && Unsigned(ms, RECORDS) == Some(ix.records)
                 && Unsigned(ms, JOURNAL_BYTES) == Some(ix.journalBytes) && Find(ms, ENTRIES) == Some(Arr(elements))
                 && ReadEntries(elements, |elements|) == Entries(ix.entries)
  {
    IndexKeysAre();
    SchemaIs();
    NumberIs(ms, STRIDE_TICKS, stride);
    NumberIs(ms, RECORDS, ix.records);
    NumberIs(ms, JOURNAL_BYTES, ix.journalBytes);
    TextIs(ms, SCHEMA, INDEX_SCHEMA);
    FoundIs(ms, ENTRIES, Arr(elements));
    EntriesAre(elements, ix.entries);
    hide Numbered, Holds, Unsigned, StringField, Find, AreEntries, ReadEntries, SCHEMA, STRIDE_TICKS, RECORDS, JOURNAL_BYTES, ENTRIES, INDEX_KEYS, INDEX_SCHEMA;
  }

  /** An object is read as an index exactly when it holds it. */
  lemma {:induction false} IndexIff(v: Json, ix: Index)
    ensures ReadIndex(v) == IndexOk(ix) <==> v.Obj? && exists stride: nat, elements :: IsIndex(v.members, ix, stride, elements)
  {
    if ReadIndex(v) == IndexOk(ix) {
      var stride, elements := IndexHolds(v, ix);
      IndexFields(v.members, ix, stride, elements);
      assert IsIndex(v.members, ix, stride, elements);
    }
    if v.Obj? {
      forall stride: nat, elements | IsIndex(v.members, ix, stride, elements) ensures ReadIndex(v) == IndexOk(ix) {
        NumbersFit(v.members, ix, stride, elements);
        IndexFields(v.members, ix, stride, elements);
        IndexMade(v.members, ix, stride, elements);
      }
    }
    hide IsIndex, ReadIndex;
  }

  lemma {:induction false} NumbersFit(ms: seq<Member>, ix: Index, stride: nat, elements: seq<Json>)
    requires IsIndex(ms, ix, stride, elements)
    ensures stride < LIMIT && ix.records < LIMIT && ix.journalBytes < LIMIT
  {
    hide Holds, AreEntries, INDEX_KEYS;
  }

  lemma {:induction false} IndexMade(ms: seq<Member>, ix: Index, stride: Word64, elements: seq<Json>)
    requires forall i | 0 <= i < |ms| :: ms[i].key in {SCHEMA, STRIDE_TICKS, RECORDS, JOURNAL_BYTES, ENTRIES}
    requires StringField(ms, SCHEMA) == Some(INDEX_SCHEMA) && Unsigned(ms, STRIDE_TICKS) == Some(stride) && stride > 0
    requires ix.stride == stride % MAX_STRIDE && ix.records < LIMIT && Unsigned(ms, RECORDS) == Some(ix.records)
    requires ix.journalBytes < LIMIT && Unsigned(ms, JOURNAL_BYTES) == Some(ix.journalBytes) && Find(ms, ENTRIES) == Some(Arr(elements))
    requires ReadEntries(elements, |elements|) == Entries(ix.entries)
    ensures ReadIndex(Obj(ms)) == IndexOk(ix)
  {
    hide Unsigned, StringField, Find, ReadEntries, SCHEMA, STRIDE_TICKS, RECORDS, JOURNAL_BYTES, ENTRIES, INDEX_SCHEMA;
  }

  lemma {:induction false} IndexHolds(v: Json, ix: Index) returns (stride: Word64, elements: seq<Json>)
    requires ReadIndex(v) == IndexOk(ix)
    ensures v.Obj? && (forall i | 0 <= i < |v.members| :: v.members[i].key in {SCHEMA, STRIDE_TICKS, RECORDS, JOURNAL_BYTES, ENTRIES})
    ensures var ms := v.members;
            && StringField(ms, SCHEMA) == Some(INDEX_SCHEMA) && Unsigned(ms, STRIDE_TICKS) == Some(stride) && stride > 0
            && ix.stride == stride % MAX_STRIDE && ix.records < LIMIT && Unsigned(ms, RECORDS) == Some(ix.records)
            && ix.journalBytes < LIMIT && Unsigned(ms, JOURNAL_BYTES) == Some(ix.journalBytes) && Find(ms, ENTRIES) == Some(Arr(elements))
            && ReadEntries(elements, |elements|) == Entries(ix.entries)
  {
    hide Unsigned, StringField, Find, ReadEntries, SCHEMA, STRIDE_TICKS, RECORDS, JOURNAL_BYTES, ENTRIES, INDEX_SCHEMA;
    var ms := v.members;
    stride, elements := Unsigned(ms, STRIDE_TICKS).value, Find(ms, ENTRIES).value.elements;
  }

  // ---- the text of a journal --------------------------------------------------------------------------------

  /** The plain text of a journal: each record's line and a newline behind it, and nothing else. */
  lemma {:induction false} LinesAre(f: Floats, r: Record, rs: seq<Record>)
    ensures Lines(f, []) == [] && Lines(f, [r] + rs) == ToLine(f, r) + [10] + Lines(f, rs)
  {
    hide ToLine;
    assert ([r] + rs)[1..] == rs;
  }
}
