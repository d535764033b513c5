/** Journal records and the lines they are written as. */
module JournalRecord {
  import opened Basics
  import opened Utf8
  import opened JsonModel
  import opened JsonSyntax
  import opened JsonNumbers
  import opened JsonRoundTrip
  import opened JsonWriter

  datatype Tier = Flight | Snapshot | Trace

  /** Ticks, causes and ids are 64-bit unsigned. */
  type Word64 = n: nat | n < 0x1_0000_0000_0000_0000

  datatype Record = Record(tick: Word64, tier: Tier, kind: Bytes, cause: Word64, id: Word64, payload: Json)

  const TICK: Bytes := [116, 105, 99, 107]
  const TIER: Bytes := [116, 105, 101, 114]
  const KIND: Bytes := [107, 105, 110, 100]
  const CAUSE_ID: Bytes := [99, 97, 117, 115, 101, 95, 105, 100]
  const ID: Bytes := [105, 100]
  const PAYLOAD: Bytes := [112, 97, 121, 108, 111, 97, 100]

  const FLIGHT: Bytes := [102, 108, 105, 103, 104, 116]
  const SNAPSHOT: Bytes := [115, 110, 97, 112, 115, 104, 111, 116]
  const TRACE: Bytes := [116, 114, 97, 99, 101]

  function TierName(t: Tier): Bytes {
    match t
    case Flight => FLIGHT
    case Snapshot => SNAPSHOT
    case Trace => TRACE
  }

  function TierOf(name: Bytes): Option<Tier> {
    if name == FLIGHT then Some(Flight) else if name == SNAPSHOT then Some(Snapshot) else if name == TRACE then Some(Trace) else None
  }

  /** The cast to a signed 64-bit integer. */
  function Signed(n: Word64): int { if n <= INT_MAX then n else n - 0x1_0000_0000_0000_0000 }

  /** The line's value: fixed key order, an empty payload left out. */
  function RecordJson(r: Record): Json {
    var head := [
      Member(TICK, Int(Signed(r.tick))), Member(TIER, Str(TierName(r.tier))), Member(KIND, Str(r.kind)),
      Member(CAUSE_ID, Int(Signed(r.cause))), Member(ID, Int(Signed(r.id)))
    ];
    Obj(if r.payload == Obj([]) then head else head + [Member(PAYLOAD, r.payload)])
  }

  function ToLine(f: Floats, r: Record): Bytes { Text(f, RecordJson(r)) }

  datatype Corrupt = NotJson(why: Why) | NotObject | UnknownKeys | BadField | UnknownTier | EmptyKind | ZeroId | BadPayload

  datatype Read = Ok(record: Record) | Bad(error: Corrupt)

  predicate OnlyKeys(members: seq<Member>) {
    forall i | 0 <= i < |members| :: members[i].key in {TICK, TIER, KIND, CAUSE_ID, ID, PAYLOAD}
  }

  function Unsigned(members: seq<Member>, key: Bytes): Option<Word64> {
    match Find(members, key)
    case Some(Int(n)) => if 0 <= n <= INT_MAX then Some(n) else None
    case _ => None
  }

  function StringField(members: seq<Member>, key: Bytes): Option<Bytes> {
    match Find(members, key)
    case Some(Str(s)) => Some(s)
    case _ => None
  }

  /** The record a parsed line stands for. */
  function FromJson(v: Json): Read {
    if !v.Obj? then Bad(NotObject)
    else if !OnlyKeys(v.members) then Bad(UnknownKeys)
    else
      var tick, tier, kind := Unsigned(v.members, TICK), StringField(v.members, TIER), StringField(v.members, KIND);
      var cause, id := Unsigned(v.members, CAUSE_ID), Unsigned(v.members, ID);
      if tick.None? || tier.None? || kind.None? || cause.None? || id.None? then Bad(BadField)
      else if TierOf(tier.value).None? then Bad(UnknownTier)
      else if kind.value == [] then Bad(EmptyKind)
      else if id.value == 0 then Bad(ZeroId)
      else
        var payload := Find(v.members, PAYLOAD);
        if payload.Some? && !payload.value.Obj? then Bad(BadPayload)
        else
          Ok(Record(tick.value, TierOf(tier.value).value, kind.value, cause.value, id.value,
                    if payload.Some? then payload.value else Obj([])))
  }

  function FromLine(f: Floats, line: Bytes): Read {
    match Document(f, line)
    case Fail(why, _) => Bad(NotJson(why))
    case Done(v, _) => FromJson(v)
  }

  // ---- when a line reads back -----------------------------------------------------------------------

  /** The payload as it comes back: doubles may come back as integers or null. */
  function NormalRecord(f: Floats, r: Record): Record { r.(payload := Normal(f, r.payload)) }

  /** What a caller has to respect for its record to be readable: 63-bit numbers, a non-empty well-formed
      kind, a record id, and an object payload that leaves one level of nesting for the line itself. */
  ghost predicate Readable(f: Floats, r: Record) {
    && r.tick <= INT_MAX && r.cause <= INT_MAX && 0 < r.id <= INT_MAX
    && r.kind != [] && WellFormed(r.kind) && r.payload.Obj? && Good(f, r.payload, MAX_DEPTH - 1)
  }

  lemma {:induction false} AsciiWellFormed(s: Bytes)
    requires forall i | 0 <= i < |s| :: s[i] < 0x80
    ensures WellFormed(s)
  {
    if s == [] {
      WellFormedOne(0);
    } else {
      AsciiWellFormed(s[1..]);
      WellFormedOne(s[0]);
      assert Encode(s[0]) == [s[0]];
      WellFormedAppend([s[0]], s[1..]);
      assert [s[0]] + s[1..] == s;
    }
  }

  lemma {:induction false} NamesWellFormed(t: Tier)
    ensures WellFormed(TICK) && WellFormed(TIER) && WellFormed(KIND) && WellFormed(CAUSE_ID) && WellFormed(ID) && WellFormed(PAYLOAD)
    ensures WellFormed(TierName(t)) && TierOf(TierName(t)) == Some(t)
  {
    AsciiWellFormed(TICK);
    AsciiWellFormed(TIER);
    AsciiWellFormed(KIND);
    AsciiWellFormed(CAUSE_ID);
    AsciiWellFormed(ID);
    AsciiWellFormed(PAYLOAD);
    AsciiWellFormed(TierName(t));
  }

  lemma {:induction false} NamesDistinct()
    ensures TICK != TIER && TICK != KIND && TICK != CAUSE_ID && TICK != ID && TICK != PAYLOAD
    ensures TIER != KIND && TIER != CAUSE_ID && TIER != ID && TIER != PAYLOAD
    ensures KIND != CAUSE_ID && KIND != ID && KIND != PAYLOAD && CAUSE_ID != ID && CAUSE_ID != PAYLOAD && ID != PAYLOAD
  {
    assert TICK[2] != TIER[2];
    assert TICK[0] != KIND[0] && TIER[0] != KIND[0];
  }

  lemma {:induction false} FindAt(members: seq<Member>, i: nat)
    requires DistinctKeys(members) && i < |members|
    ensures Find(members, members[i].key) == Some(members[i].value)
  {
    if i > 0 {
      assert members[0].key != members[i].key && members[1..][i - 1] == members[i];
      FindAt(members[1..], i - 1);
    }
  }

  lemma {:induction false} FindNone(members: seq<Member>, key: Bytes)
    requires FreshKey(members, key)
    ensures Find(members, key) == None
  {
    if members != [] {
      FindNone(members[1..], key);
    }
  }

  /** The fields of a line are where they belong. */
  lemma {:induction false} FieldsOf(r: Record)
    ensures RecordJson(r).Obj?
    ensures var m := RecordJson(r).members;
            && Find(m, TICK) == Some(Int(Signed(r.tick))) && Find(m, TIER) == Some(Str(TierName(r.tier))) && Find(m, KIND) == Some(Str(r.kind))
            && Find(m, CAUSE_ID) == Some(Int(Signed(r.cause))) && Find(m, ID) == Some(Int(Signed(r.id)))
            && Find(m, PAYLOAD) == (if r.payload == Obj([]) then None else Some(r.payload))
            && OnlyKeys(m) && DistinctKeys(m)
  {
    NamesDistinct();
    hide TICK, TIER, KIND, CAUSE_ID, ID, PAYLOAD, Find, TierName;
    var m := RecordJson(r).members;
    FindAt(m, 0);
    FindAt(m, 1);
    FindAt(m, 2);
    FindAt(m, 3);
    FindAt(m, 4);
    if r.payload == Obj([]) {
      FindNone(m, PAYLOAD);
    } else {
      FindAt(m, 5);
    }
  }

  lemma {:induction false} NormalScalar(f: Floats, v: Json)
    requires v.Int? || v.Str?
    ensures Normal(f, v) == v
  {
  }

  lemma {:induction false} NormalPayload(f: Floats, v: Json)
    requires v.Obj?
    ensures Normal(f, v).Obj? && (Normal(f, v) == Obj([]) <==> v == Obj([]))
  {
    assert |Normal(f, v).members| == |v.members|;
  }

  lemma {:induction false} NormalMembers(f: Floats, v: Json)
    requires v.Obj?
    ensures Normal(f, v).Obj? && |Normal(f, v).members| == |v.members|
    ensures forall i | 0 <= i < |v.members| :: Normal(f, v).members[i] == Member(v.members[i].key, Normal(f, v.members[i].value))
  {
  }

  lemma {:induction false} NormalShape(f: Floats, r: Record)
    requires r.payload.Obj?
    ensures Normal(f, RecordJson(r)) == RecordJson(NormalRecord(f, r))
  {
    var v := RecordJson(r);
    NormalMembers(f, v);
    NormalPayload(f, r.payload);
    hide Normal;
    var a, b := Normal(f, v), RecordJson(NormalRecord(f, r));
    assert |a.members| == |b.members|;
    forall i | 0 <= i < |a.members| ensures a.members[i] == b.members[i] {
      if i < 5 {
        NormalScalar(f, v.members[i].value);
      }
    }
  }

  lemma {:induction false} LineGood(f: Floats, r: Record)
    requires WellFormed(r.kind) && r.payload.Obj? && Good(f, r.payload, MAX_DEPTH - 1)
    ensures Good(f, RecordJson(r), MAX_DEPTH)
  {
    NamesWellFormed(r.tier);
    FieldsOf(r);
    hide TICK, TIER, KIND, CAUSE_ID, ID, PAYLOAD, WellFormed;
    var m := RecordJson(r).members;
    forall i | 0 <= i < |m| ensures WellFormed(m[i].key) && Good(f, m[i].value, MAX_DEPTH - 1) {
    }
  }

  lemma {:induction false} FromFields(r: Record)
    requires r.payload.Obj?
    ensures FromJson(RecordJson(r)) == Ok(r) <==> r.tick <= INT_MAX && r.cause <= INT_MAX && 0 < r.id <= INT_MAX && r.kind != []
  {
    FieldsOf(r);
    NamesWellFormed(r.tier);
    hide RecordJson, Find, OnlyKeys, WellFormed, TierName, TierOf;
  }

  /** A readable record comes back from its line. */
  lemma {:induction false} ReadsBack(f: Floats, r: Record)
    requires FloatsOk(f) && Readable(f, r)
    ensures FromLine(f, ToLine(f, r)) == Ok(NormalRecord(f, r))
  {
    LineGood(f, r);
    ParseOfDump(f, RecordJson(r));
    NormalShape(f, r);
    FromFields(NormalRecord(f, r));
  }

  // ---- and only then ------------------------------------------------------------------------------------

  /** The normal form is good only if the value is. */
  lemma {:induction false} NormalGood(f: Floats, v: Json, budget: nat)
    requires Good(f, Normal(f, v), budget)
    ensures Good(f, v, budget)
    decreases v
  {
    match v
    case Arr(elements) =>
      forall i | 0 <= i < |elements| ensures Good(f, elements[i], budget - 1) {
        assert Normal(f, v).elements[i] == Normal(f, elements[i]);
        NormalGood(f, elements[i], budget - 1);
      }
    case Obj(members) =>
      forall i | 0 <= i < |members| ensures WellFormed(members[i].key) && Good(f, members[i].value, budget - 1) {
        assert Normal(f, v).members[i] == Member(members[i].key, Normal(f, members[i].value));
        NormalGood(f, members[i].value, budget - 1);
      }
      forall i, j | 0 <= i < j < |members| ensures members[i].key != members[j].key {
        assert Normal(f, v).members[i].key == members[i].key && Normal(f, v).members[j].key == members[j].key;
      }
    case _ =>
  }

  lemma {:induction false} FoundIsGood(f: Floats, members: seq<Member>, key: Bytes, budget: nat)
    requires forall i | 0 <= i < |members| :: Good(f, members[i].value, budget)
    ensures Find(members, key).Some? ==> Good(f, Find(members, key).value, budget)
  {
    if members != [] && members[0].key != key {
      assert forall i | 0 <= i < |members[1..]| :: members[1..][i] == members[i + 1];
      FoundIsGood(f, members[1..], key, budget);
    }
  }

  /** What comes out of a line has a good kind and payload. */
  lemma {:induction false} ReadIsGood(f: Floats, line: Bytes)
    requires FloatsOk(f) && FromLine(f, line).Ok?
    ensures var r := FromLine(f, line).record;
            && r.tick <= INT_MAX && r.cause <= INT_MAX && 0 < r.id <= INT_MAX && r.kind != [] && WellFormed(r.kind)
            && r.payload.Obj? && Good(f, r.payload, MAX_DEPTH - 1)
  {
    var v := Document(f, line).value;
    ValueGood(f, line, 0);
    FoundIsGood(f, v.members, KIND, MAX_DEPTH - 1);
    FoundIsGood(f, v.members, PAYLOAD, MAX_DEPTH - 1);
    hide WellFormed, TICK, TIER, KIND, CAUSE_ID, ID, PAYLOAD, Find, TierOf, ValueAt, OnlyKeys, DistinctKeys;
  }

  /** A record comes back from its line, up to the normal form of doubles, exactly when it is readable. */
  lemma {:induction false} ReadsBackIff(f: Floats, r: Record)
    requires FloatsOk(f)
    ensures FromLine(f, ToLine(f, r)) == Ok(NormalRecord(f, r)) <==> Readable(f, r)
  {
    if Readable(f, r) {
      ReadsBack(f, r);
    } else if FromLine(f, ToLine(f, r)) == Ok(NormalRecord(f, r)) {
      ReadIsGood(f, ToLine(f, r));
      NormalGood(f, r.payload, MAX_DEPTH - 1);
      NormalObj(f, r.payload);
      assert false;
    }
  }

  lemma {:induction false} NormalObj(f: Floats, v: Json)
    ensures Normal(f, v).Obj? ==> v.Obj?
  {
  }

  // ---- examples of records that cannot be read back -------------------------------------------------------

  /** A kind may be empty when it is written, but not when it is read. */
  lemma {:induction false} EmptyKindRefused(f: Floats)
    requires FloatsOk(f)
    ensures var r := Record(0, Flight, [], 0, 1, Obj([]));
            FromLine(f, ToLine(f, r)) == Bad(EmptyKind)
  {
    var r := Record(0, Flight, [], 0, 1, Obj([]));
    WellFormedOne(0);
    LineGood(f, r);
    ParseOfDump(f, RecordJson(r));
    NormalShape(f, r);
    NormalPayload(f, r.payload);
    FromEmptyKind(r);
    hide RecordJson, Document, FromJson, Normal;
  }

  lemma {:induction false} FromEmptyKind(r: Record)
    requires r == Record(0, Flight, [], 0, 1, Obj([]))
    ensures FromJson(RecordJson(r)) == Bad(EmptyKind)
  {
    FieldsOf(r);
    NamesWellFormed(r.tier);
    hide RecordJson, Find, OnlyKeys, WellFormed, TierName, TierOf;
  }

  /** Objects within objects, n deep. */
  function Nested(n: nat): Json
    decreases n
  {
    if n <= 1 then Obj([]) else Obj([Member(KIND, Nested(n - 1))])
  }

  lemma {:induction false} NestedGood(f: Floats, n: nat, budget: nat)
    requires n > 0
    ensures Good(f, Nested(n), budget) <==> n <= budget
    decreases n
  {
    NamesWellFormed(Flight);
    if n > 1 {
      hide KIND, WellFormed;
      var m := Nested(n).members;
      assert |m| == 1 && m[0] == Member(KIND, Nested(n - 1));
      if budget > 0 {
        NestedGood(f, n - 1, budget - 1);
      }
    }
  }

  /** A payload that uses all 128 levels is a document of its own, but its record's line is not. */
  lemma {:induction false} DeepPayloadRefused(f: Floats)
    requires FloatsOk(f)
    ensures var payload := Nested(MAX_DEPTH);
            var r := Record(0, Flight, KIND, 0, 1, payload);
            && Document(f, Text(f, payload)) == Done(Normal(f, payload), [])
            && FromLine(f, ToLine(f, r)) != Ok(NormalRecord(f, r))
  {
    var payload := Nested(MAX_DEPTH);
    NestedGood(f, MAX_DEPTH, MAX_DEPTH);
    NestedGood(f, MAX_DEPTH, MAX_DEPTH - 1);
    hide Nested, Good;
    ParseOfDump(f, payload);
    ReadsBackIff(f, Record(0, Flight, KIND, 0, 1, payload));
  }
}
