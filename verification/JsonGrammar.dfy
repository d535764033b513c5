/** The grammar of RFC 8259, as trees that keep every byte, and that the parser reads exactly it. */
module JsonGrammar {
  import opened Basics
  import opened Utf8
  import opened JsonModel
  import opened JsonSyntax
  import opened JsonNumbers

  // ---- strings: section 7 -----------------------------------------------------------------------

  /** One character: itself, a short escape by its letter, or one or two \u escapes. */
  datatype Unit = Plain(cp: nat) | Short(letter: byte) | Hex(digits: Bytes) | Pair(high: Bytes, low: Bytes)

  function HexNumber(d: Bytes): int
    requires |d| == 4
  {
    ((HexValue(d[0]) * 16 + HexValue(d[1])) * 16 + HexValue(d[2])) * 16 + HexValue(d[3])
  }

  predicate FourHex(d: Bytes) { |d| == 4 && forall i | 0 <= i < 4 :: HexValue(d[i]) >= 0 }

  /** The byte a short escape stands for. */
  function ShortByte(letter: byte): Option<byte> {
    if letter == QUOTE || letter == BACKSLASH || letter == SLASH then Some(letter)
    else if letter == LOWER_N then Some(10)
    else if letter == LOWER_T then Some(9)
    else if letter == LOWER_R then Some(13)
    else if letter == LOWER_B then Some(8)
    else if letter == LOWER_F then Some(12)
    else None
  }

  predicate UnitOk(u: Unit) {
    match u
    case Plain(cp) => Scalar(cp) && cp >= 0x20 && cp != 34 && cp != 92
    case Short(letter) => ShortByte(letter).Some?
    case Hex(d) => FourHex(d) && 0 <= HexNumber(d) && Scalar(HexNumber(d))
    case Pair(high, low) =>
      && FourHex(high) && 0xD800 <= HexNumber(high) <= 0xDBFF
      && FourHex(low) && 0xDC00 <= HexNumber(low) <= 0xDFFF
  }

  function UnitText(u: Unit): Bytes
    requires UnitOk(u)
  {
    match u
    case Plain(cp) => Encode(cp)
    case Short(letter) => [BACKSLASH, letter]
    case Hex(d) => [BACKSLASH, LOWER_U] + d
    case Pair(high, low) => [BACKSLASH, LOWER_U] + high + [BACKSLASH, LOWER_U] + low
  }

  /** The bytes it stands for. */
  function UnitBytes(u: Unit): Bytes
    requires UnitOk(u)
  {
    match u
    case Plain(cp) => Encode(cp)
    case Short(letter) => [ShortByte(letter).value]
    case Hex(d) => Encode(HexNumber(d))
    case Pair(high, low) => Encode(0x1_0000 + (HexNumber(high) - 0xD800) * 1024 + (HexNumber(low) - 0xDC00))
  }

  predicate UnitsOk(us: seq<Unit>) { forall i | 0 <= i < |us| :: UnitOk(us[i]) }

  function UnitsText(us: seq<Unit>): Bytes
    requires UnitsOk(us)
  {
    if us == [] then [] else UnitText(us[0]) + UnitsText(us[1..])
  }

  function UnitsBytes(us: seq<Unit>): Bytes
    requires UnitsOk(us)
  {
    if us == [] then [] else UnitBytes(us[0]) + UnitsBytes(us[1..])
  }

  /** A string in its quotes. */
  function Quoted(us: seq<Unit>): Bytes
    requires UnitsOk(us)
  {
    [QUOTE] + UnitsText(us) + [QUOTE]
  }

  // ---- reading one character ---------------------------------------------------------------------

  lemma {:induction false} Hex4Reads(d: Bytes, rest: Bytes, left: nat)
    requires FourHex(d)
    ensures 0 <= HexNumber(d) && Hex4(d + rest, left) == Done(HexNumber(d), rest)
  {
    var s := d + rest;
    assert s[0] == d[0] && s[1] == d[1] && s[2] == d[2] && s[3] == d[3] && s[4..] == rest;
  }

  lemma {:induction false} Hex4Read(s: Bytes, left: nat) returns (d: Bytes)
    requires Hex4(s, left).Done?
    ensures FourHex(d) && s == d + Hex4(s, left).rest && HexNumber(d) == Hex4(s, left).value
  {
    d := s[..4];
    assert d[0] == s[0] && d[1] == s[1] && d[2] == s[2] && d[3] == s[3];
  }

  lemma {:induction false} ShortReads(letter: byte, rest: Bytes)
    requires UnitOk(Short(letter))
    ensures Escape(UnitText(Short(letter)) + rest) == Done(UnitBytes(Short(letter)), rest)
  {
    var s := [BACKSLASH, letter] + rest;
    assert s[1] == letter && s[2..] == rest;
  }

  lemma {:induction false} HexReads(d: Bytes, rest: Bytes)
    requires UnitOk(Hex(d))
    ensures Escape(UnitText(Hex(d)) + rest) == Done(UnitBytes(Hex(d)), rest)
  {
    var s := [BACKSLASH, LOWER_U] + d + rest;
    assert s[1] == LOWER_U && s[2..] == d + rest;
    Hex4Reads(d, rest, |s|);
    hide Hex4, HexNumber;
  }

  lemma {:induction false} PairReads(high: Bytes, low: Bytes, rest: Bytes)
    requires UnitOk(Pair(high, low))
    ensures Escape(UnitText(Pair(high, low)) + rest) == Done(UnitBytes(Pair(high, low)), rest)
  {
    var s := [BACKSLASH, LOWER_U] + high + [BACKSLASH, LOWER_U] + low + rest;
    var tail := [BACKSLASH, LOWER_U] + low + rest;
    assert s[1] == LOWER_U && s[2..] == high + tail;
    Hex4Reads(high, tail, |s|);
    assert tail[0] == BACKSLASH && tail[1] == LOWER_U && tail[2..] == low + rest;
    Hex4Reads(low, rest, |s|);
    hide Hex4, HexNumber;
  }

  /** An escape that is read is one of the grammar's. */
  lemma {:induction false} EscapeRead(s: Bytes) returns (u: Unit)
    requires s != [] && s[0] == BACKSLASH && Escape(s).Done?
    ensures UnitOk(u) && s == UnitText(u) + Escape(s).rest && Escape(s).value == UnitBytes(u)
  {
    assert s == [BACKSLASH, s[1]] + s[2..];
    if s[1] != LOWER_U {
      u := Short(s[1]);
    } else {
      u := UnicodeRead(s[2..], |s|);
    }
  }

  lemma {:induction false} UnicodeRead(s: Bytes, left: nat) returns (u: Unit)
    requires UnicodeEscape(s, left).Done?
    ensures UnitOk(u) && [BACKSLASH, LOWER_U] + s == UnitText(u) + UnicodeEscape(s, left).rest && UnicodeEscape(s, left).value == UnitBytes(u)
  {
    var d := Hex4Read(s, left);
    var high := Hex4(s, left);
    hide Hex4, HexNumber;
    if 0xD800 <= high.value <= 0xDBFF {
      var low := Hex4Read(high.rest[2..], left);
      u := Pair(d, low);
      PairText(s, d, high.rest, low, UnicodeEscape(s, left).rest);
    } else {
      u := Hex(d);
    }
  }

  lemma {:induction false} PairText(s: Bytes, high: Bytes, middle: Bytes, low: Bytes, rest: Bytes)
    requires s == high + middle && |middle| >= 2 && middle[0] == BACKSLASH && middle[1] == LOWER_U && middle[2..] == low + rest
    ensures [BACKSLASH, LOWER_U] + s == [BACKSLASH, LOWER_U] + high + [BACKSLASH, LOWER_U] + low + rest
  {
    assert middle == [BACKSLASH, LOWER_U] + middle[2..];
  }

  // ---- reading a string ----------------------------------------------------------------------------

  /** How one character is read, whatever follows. */
  lemma {:induction false} UnitReads(u: Unit, rest: Bytes, sofar: Bytes, start: nat)
    requires UnitOk(u)
    ensures Characters(UnitText(u) + rest, sofar, start) == Characters(rest, sofar + UnitBytes(u), start)
  {
    var s := UnitText(u) + rest;
    if u.Plain? {
      PlainReads(u.cp, rest, sofar, start);
    } else {
      match u {
        case Short(letter) => ShortReads(letter, rest);
        case Hex(d) => HexReads(d, rest);
        case Pair(high, low) => PairReads(high, low, rest);
      }
      assert s[0] == BACKSLASH;
      hide Escape, UnitText, UnitBytes, UnitOk;
    }
  }

  lemma {:induction false} PlainReads(cp: nat, rest: Bytes, sofar: Bytes, start: nat)
    requires UnitOk(Plain(cp))
    ensures Characters(Encode(cp) + rest, sofar, start) == Characters(rest, sofar + Encode(cp), start)
  {
    var s := Encode(cp) + rest;
    assert s[0] == Encode(cp)[0];
    if cp < 0x80 {
      assert s[1..] == rest;
    } else {
      EncodingIsSequence(cp, rest);
      assert s[..|Encode(cp)|] == Encode(cp) && s[|Encode(cp)|..] == rest;
    }
  }

  /** Every string of the grammar is read whole. */
  lemma {:induction false} UnitsRead(us: seq<Unit>, rest: Bytes, sofar: Bytes, start: nat)
    requires UnitsOk(us)
    ensures Characters(UnitsText(us) + [QUOTE] + rest, sofar, start) == Done(sofar + UnitsBytes(us), rest)
    decreases |us|
  {
    if us == [] {
      assert [] + [QUOTE] + rest == [QUOTE] + rest;
      assert ([QUOTE] + rest)[1..] == rest;
      assert sofar + [] == sofar;
    } else {
      var more := UnitsText(us[1..]) + [QUOTE] + rest;
      assert UnitsText(us) + [QUOTE] + rest == UnitText(us[0]) + more;
      UnitReads(us[0], more, sofar, start);
      UnitsRead(us[1..], rest, sofar + UnitBytes(us[0]), start);
      Regroup(sofar, UnitBytes(us[0]), UnitsBytes(us[1..]));
    }
  }

  /** Every string that is read is one of the grammar's. */
  lemma {:induction false} StringRead(s: Bytes, sofar: Bytes, start: nat) returns (us: seq<Unit>)
    requires Characters(s, sofar, start).Done?
    ensures UnitsOk(us) && s == UnitsText(us) + [QUOTE] + Characters(s, sofar, start).rest
    ensures Characters(s, sofar, start).value == sofar + UnitsBytes(us)
    decreases |s|
  {
    hide UnitOk, UnitText, UnitBytes;
    assert s != [];
    if s[0] == QUOTE {
      us := [];
      assert s == [QUOTE] + s[1..];
    } else {
      hide Characters;
      var u, rest := UnitRead(s, sofar, start);
      var more := StringRead(rest, sofar + UnitBytes(u), start);
      us := [u] + more;
      UnitsCons(u, more, rest, Characters(s, sofar, start).rest);
      Regroup(sofar, UnitBytes(u), UnitsBytes(more));
      hide UnitsText, UnitsBytes, UnitsOk;
    }
  }

  lemma {:induction false} UnitsCons(u: Unit, more: seq<Unit>, rest: Bytes, tail: Bytes)
    requires UnitOk(u) && UnitsOk(more) && rest == UnitsText(more) + [QUOTE] + tail
    ensures UnitsOk([u] + more) && UnitText(u) + rest == UnitsText([u] + more) + [QUOTE] + tail
    ensures UnitsBytes([u] + more) == UnitBytes(u) + UnitsBytes(more)
  {
    hide UnitOk, UnitText, UnitBytes;
    assert ([u] + more)[1..] == more && UnitsOk([u] + more);
    assert UnitsText([u] + more) == UnitText(u) + UnitsText(more);
    Quartet(UnitText(u), UnitsText(more), [QUOTE], tail);
  }

  lemma {:induction false} Quartet(a: Bytes, b: Bytes, c: Bytes, d: Bytes)
    ensures a + (b + c + d) == (a + b) + c + d
  {
  }

  lemma {:induction false} UnitRead(s: Bytes, sofar: Bytes, start: nat) returns (u: Unit, rest: Bytes)
    requires s != [] && s[0] != QUOTE && Characters(s, sofar, start).Done?
    ensures UnitOk(u) && s == UnitText(u) + rest && |rest| < |s| && Characters(s, sofar, start) == Characters(rest, sofar + UnitBytes(u), start)
  {
    if s[0] == BACKSLASH {
      u := EscapeRead(s);
      rest := Escape(s).rest;
      hide Escape, UnitText, UnitBytes, UnitOk;
    } else if s[0] < 0x80 {
      u, rest := Plain(s[0]), s[1..];
      assert Encode(s[0]) == [s[0]];
      assert s == [s[0]] + s[1..];
    } else {
      var k := SequenceLength(s);
      SequenceIsEncoding(s);
      var cp: nat :| 0x80 <= cp && Scalar(cp) && s[..k] == Encode(cp);
      u, rest := Plain(cp), s[k..];
      assert s == s[..k] + s[k..];
    }
  }

  // ---- values: sections 2 to 6 -----------------------------------------------------------------------

  /** A value with the blanks on both sides of it. */
  datatype Item = Item(before: Bytes, tree: Tree, after: Bytes)

  datatype Items = LastItem(item: Item) | MoreItems(item: Item, rest: Items)

  /** A key with the blanks on both sides of it, and its value. */
  datatype Field = Field(before: Bytes, key: seq<Unit>, after: Bytes, item: Item)

  datatype Fields = LastField(field: Field) | MoreFields(field: Field, rest: Fields)

  datatype Tree =
    | WordNull | WordTrue | WordFalse
    | Number(t: Token)
    | Text_(units: seq<Unit>)
    | EmptyArray(pad: Bytes)
    | Array(items: Items)
    | EmptyObject(pad: Bytes)
    | Object(fields: Fields)

  predicate Blanks(s: Bytes) { forall i | 0 <= i < |s| :: Blank(s[i]) }

  /** The tree is grammatical, nests no deeper than the budget, repeats no key, and its numbers are in
      range. */
  predicate TreeOk(f: Floats, t: Tree, budget: nat)
    decreases t, 0
  {
    match t
    case Number(tok) => IsToken(tok) && NumberOf(f, Spelled(tok), Integral(tok)).Some?
    case Text_(units) => UnitsOk(units)
    case EmptyArray(pad) => budget > 0 && Blanks(pad)
    case Array(items) => budget > 0 && ItemsOk(f, items, budget - 1)
    case EmptyObject(pad) => budget > 0 && Blanks(pad)
    case Object(fields) => budget > 0 && FieldsOk(f, fields, budget - 1) && DistinctKeys(MembersOf(f, fields, budget - 1))
    case _ => true
  }

  predicate ItemOk(f: Floats, item: Item, budget: nat)
    decreases item, 0
  {
    Blanks(item.before) && TreeOk(f, item.tree, budget) && Blanks(item.after)
  }

  predicate ItemsOk(f: Floats, items: Items, budget: nat)
    decreases items, 0
  {
    ItemOk(f, items.item, budget) && (items.MoreItems? ==> ItemsOk(f, items.rest, budget))
  }

  predicate FieldOk(f: Floats, field: Field, budget: nat)
    decreases field, 0
  {
    Blanks(field.before) && UnitsOk(field.key) && Blanks(field.after) && ItemOk(f, field.item, budget)
  }

  predicate FieldsOk(f: Floats, fields: Fields, budget: nat)
    decreases fields, 0
  {
    FieldOk(f, fields.field, budget) && (fields.MoreFields? ==> FieldsOk(f, fields.rest, budget))
  }

  /** The value a tree stands for. */
  function ValueOf(f: Floats, t: Tree, budget: nat): Json
    requires TreeOk(f, t, budget)
    decreases t, 1
  {
    match t
    case WordNull => Null
    case WordTrue => Bool(true)
    case WordFalse => Bool(false)
    case Number(tok) => NumberOf(f, Spelled(tok), Integral(tok)).value
    case Text_(units) => Str(UnitsBytes(units))
    case EmptyArray(_) => Arr([])
    case Array(items) => Arr(ElementsOf(f, items, budget - 1))
    case EmptyObject(_) => Obj([])
    case Object(fields) => Obj(MembersOf(f, fields, budget - 1))
  }

  function ItemValue(f: Floats, item: Item, budget: nat): Json
    requires ItemOk(f, item, budget)
    decreases item, 1
  {
    ValueOf(f, item.tree, budget)
  }

  function MemberOf(f: Floats, field: Field, budget: nat): Member
    requires FieldOk(f, field, budget)
    decreases field, 1
  {
    Member(UnitsBytes(field.key), ItemValue(f, field.item, budget))
  }

  function ElementsOf(f: Floats, items: Items, budget: nat): seq<Json>
    requires ItemsOk(f, items, budget)
    decreases items, 1
  {
    [ItemValue(f, items.item, budget)] + if items.MoreItems? then ElementsOf(f, items.rest, budget) else []
  }

  function MembersOf(f: Floats, fields: Fields, budget: nat): seq<Member>
    requires FieldsOk(f, fields, budget)
    decreases fields, 1
  {
    [MemberOf(f, fields.field, budget)] + if fields.MoreFields? then MembersOf(f, fields.rest, budget) else []
  }

  /** The text of a tree. */
  function TreeText(f: Floats, t: Tree, budget: nat): Bytes
    requires TreeOk(f, t, budget)
    decreases t
  {
    match t
    case WordNull => JsonModel.NULL
    case WordTrue => TRUE
    case WordFalse => FALSE
    case Number(tok) => Spelled(tok)
    case Text_(units) => Quoted(units)
    case EmptyArray(pad) => [LBRACKET] + pad + [RBRACKET]
    case Array(items) => [LBRACKET] + ItemsText(f, items, budget - 1) + [RBRACKET]
    case EmptyObject(pad) => [LBRACE] + pad + [RBRACE]
    case Object(fields) => [LBRACE] + FieldsText(f, fields, budget - 1) + [RBRACE]
  }

  function ItemText(f: Floats, item: Item, budget: nat): Bytes
    requires ItemOk(f, item, budget)
    decreases item
  {
    item.before + TreeText(f, item.tree, budget) + item.after
  }

  function ItemsText(f: Floats, items: Items, budget: nat): Bytes
    requires ItemsOk(f, items, budget)
    decreases items
  {
    ItemText(f, items.item, budget) + if items.MoreItems? then [COMMA] + ItemsText(f, items.rest, budget) else []
  }

  function FieldText(f: Floats, field: Field, budget: nat): Bytes
    requires FieldOk(f, field, budget)
    decreases field
  {
    field.before + Quoted(field.key) + field.after + [COLON] + ItemText(f, field.item, budget)
  }

  function FieldsText(f: Floats, fields: Fields, budget: nat): Bytes
    requires FieldsOk(f, fields, budget)
    decreases fields
  {
    FieldText(f, fields.field, budget) + if fields.MoreFields? then [COMMA] + FieldsText(f, fields.rest, budget) else []
  }

  // ---- blanks --------------------------------------------------------------------------------------------

  lemma {:induction false} BlanksSkipped(s: Bytes)
    ensures var n := |s| - |SkipBlanks(s)|; Blanks(s[..n]) && s == s[..n] + SkipBlanks(s)
    decreases |s|
  {
    if s != [] && Blank(s[0]) {
      BlanksSkipped(s[1..]);
      var n := |s[1..]| - |SkipBlanks(s[1..])|;
      assert s[..n + 1] == [s[0]] + s[1..][..n] && s == [s[0]] + s[1..];
    } else {
      assert s[..0] == [] && [] + s == s;
    }
  }

  lemma {:induction false} SkipsBlanks(b: Bytes, rest: Bytes)
    requires Blanks(b) && (rest == [] || !Blank(rest[0]))
    ensures SkipBlanks(b + rest) == rest
    decreases |b|
  {
    if b == [] {
      assert b + rest == rest;
    } else {
      assert (b + rest)[0] == b[0] && (b + rest)[1..] == b[1..] + rest;
      SkipsBlanks(b[1..], rest);
    }
  }

  /** What may stand behind a value: nothing, a blank, or what closes or parts it from the next. */
  predicate Behind(rest: Bytes) {
    rest == [] || Blank(rest[0]) || rest[0] == COMMA || rest[0] == RBRACKET || rest[0] == RBRACE
  }

  lemma {:induction false} BehindStops(rest: Bytes)
    requires Behind(rest)
    ensures Stops(rest)
  {
  }

  lemma {:induction false} BlanksBehind(b: Bytes, rest: Bytes)
    requires Blanks(b) && Behind(rest)
    ensures Behind(b + rest)
  {
    if b == [] {
      assert b + rest == rest;
    } else {
      assert (b + rest)[0] == b[0];
    }
  }

  // ---- whatever the grammar has is read --------------------------------------------------------------------

  lemma {:induction false} FirstByteOf(f: Floats, t: Tree, budget: nat)
    requires TreeOk(f, t, budget)
    ensures TreeText(f, t, budget) != []
    ensures var c := TreeText(f, t, budget)[0];
            && !Blank(c) && c != RBRACKET && c != RBRACE
            && (t.Number? <==> c == MINUS || Digit(c)) && (t.Text_? <==> c == QUOTE)
            && (t.EmptyArray? || t.Array? <==> c == LBRACKET) && (t.EmptyObject? || t.Object? <==> c == LBRACE)
            && (t.WordTrue? <==> c == LOWER_T) && (t.WordFalse? <==> c == LOWER_F) && (t.WordNull? <==> c == LOWER_N)
  {
    if t.Number? {
      assert Spelled(t.t)[0] == if t.t.negative then MINUS else t.t.whole[0];
    }
  }

  lemma {:induction false} TreeRead(f: Floats, before: Bytes, t: Tree, depth: nat, rest: Bytes)
    requires depth <= MAX_DEPTH && Blanks(before) && TreeOk(f, t, MAX_DEPTH - depth) && Behind(rest)
    ensures ValueAt(f, before + (TreeText(f, t, MAX_DEPTH - depth) + rest), depth) == Done(ValueOf(f, t, MAX_DEPTH - depth), rest)
    decreases t, 2
  {
    var budget := MAX_DEPTH - depth;
    var s := TreeText(f, t, budget) + rest;
    FirstByteOf(f, t, budget);
    assert s[0] == TreeText(f, t, budget)[0];
    hide NumberAt, StringAt, ObjectAt, ArrayAt, LiteralAt, Blank;
    SkipsBlanks(before, s);
    match t
    case Number(tok) =>
      BehindStops(rest);
      ScansToken(f, tok, rest);
    case Text_(units) => QuotedRead(units, rest);
    case EmptyArray(_) => EmptyArrayRead(f, t, depth, rest);
    case Array(_) => ArrayRead(f, t, depth, rest);
    case EmptyObject(_) => EmptyObjectRead(f, t, depth, rest);
    case Object(_) => ObjectRead(f, t, depth, rest);
    case _ => WordRead(f, t, depth, rest);
  }

  lemma {:induction false} WordRead(f: Floats, t: Tree, depth: nat, rest: Bytes)
    requires depth <= MAX_DEPTH && TreeOk(f, t, MAX_DEPTH - depth)
    ensures t.WordNull? ==> LiteralAt(TreeText(f, t, MAX_DEPTH - depth) + rest, JsonModel.NULL, Null) == Done(Null, rest)
    ensures t.WordTrue? ==> LiteralAt(TreeText(f, t, MAX_DEPTH - depth) + rest, TRUE, Bool(true)) == Done(Bool(true), rest)
    ensures t.WordFalse? ==> LiteralAt(TreeText(f, t, MAX_DEPTH - depth) + rest, FALSE, Bool(false)) == Done(Bool(false), rest)
  {
    LiteralRead(JsonModel.NULL, Null, rest);
    LiteralRead(TRUE, Bool(true), rest);
    LiteralRead(FALSE, Bool(false), rest);
  }

  lemma {:induction false} LiteralRead(word: Bytes, v: Json, rest: Bytes)
    requires word != []
    ensures LiteralAt(word + rest, word, v) == Done(v, rest)
  {
    assert (word + rest)[..|word|] == word && (word + rest)[|word|..] == rest;
  }

  lemma {:induction false} QuotedRead(us: seq<Unit>, rest: Bytes)
    requires UnitsOk(us)
    ensures Quoted(us) + rest != [] && StringAt(Quoted(us) + rest) == Done(UnitsBytes(us), rest)
  {
    var s := Quoted(us) + rest;
    assert s[1..] == UnitsText(us) + [QUOTE] + rest;
    UnitsRead(us, rest, [], |s|);
    assert [] + UnitsBytes(us) == UnitsBytes(us);
  }

  lemma {:induction false} EmptyArrayRead(f: Floats, t: Tree, depth: nat, rest: Bytes)
    requires depth <= MAX_DEPTH && t.EmptyArray? && TreeOk(f, t, MAX_DEPTH - depth)
    ensures ArrayAt(f, TreeText(f, t, MAX_DEPTH - depth) + rest, depth) == Done(Arr([]), rest)
  {
    var s := [LBRACKET] + t.pad + [RBRACKET] + rest;
    assert s[1..] == t.pad + ([RBRACKET] + rest);
    SkipsBlanks(t.pad, [RBRACKET] + rest);
  }

  lemma {:induction false} EmptyObjectRead(f: Floats, t: Tree, depth: nat, rest: Bytes)
    requires depth <= MAX_DEPTH && t.EmptyObject? && TreeOk(f, t, MAX_DEPTH - depth)
    ensures ObjectAt(f, TreeText(f, t, MAX_DEPTH - depth) + rest, depth) == Done(Obj([]), rest)
  {
    var s := [LBRACE] + t.pad + [RBRACE] + rest;
    assert s[1..] == t.pad + ([RBRACE] + rest);
    SkipsBlanks(t.pad, [RBRACE] + rest);
  }

  // ---- arrays ----------------------------------------------------------------------------------------

  /** Blanks in front of a value make no difference. */
  lemma {:induction false} SkipFirst(f: Floats, s: Bytes, depth: nat, sofar: seq<Json>, members: seq<Member>)
    ensures ValueAt(f, SkipBlanks(s), depth) == ValueAt(f, s, depth) && Elements(f, SkipBlanks(s), depth, sofar) == Elements(f, s, depth, sofar)
    ensures Members(f, SkipBlanks(s), depth, members) == Members(f, s, depth, members)
  {
    hide ObjectAt, ArrayAt, StringAt, NumberAt, LiteralAt;
    assert SkipBlanks(SkipBlanks(s)) == SkipBlanks(s);
  }

  lemma {:induction false} ArrayRead(f: Floats, t: Tree, depth: nat, rest: Bytes)
    requires depth <= MAX_DEPTH && t.Array? && TreeOk(f, t, MAX_DEPTH - depth)
    ensures ArrayAt(f, TreeText(f, t, MAX_DEPTH - depth) + rest, depth) == Done(ValueOf(f, t, MAX_DEPTH - depth), rest)
    decreases t, 1
  {
    hide *;
    ArrayParts(f, t, depth, rest);
    var budget := MAX_DEPTH - (depth + 1);
    ItemsFirst(f, t.items, budget, [RBRACKET] + rest);
    ArrayKinds(f, TreeText(f, t, MAX_DEPTH - depth) + rest, depth);
    ItemsRead(f, t.items, depth + 1, [], rest);
    assert [] + ElementsOf(f, t.items, budget) == ElementsOf(f, t.items, budget);
  }

  lemma {:induction false} ArrayParts(f: Floats, t: Tree, depth: nat, rest: Bytes)
    requires depth <= MAX_DEPTH && t.Array? && TreeOk(f, t, MAX_DEPTH - depth)
    ensures depth + 1 <= MAX_DEPTH && ItemsOk(f, t.items, MAX_DEPTH - (depth + 1))
    ensures var s := TreeText(f, t, MAX_DEPTH - depth) + rest;
            s != [] && s[1..] == ItemsText(f, t.items, MAX_DEPTH - (depth + 1)) + ([RBRACKET] + rest)
    ensures ValueOf(f, t, MAX_DEPTH - depth) == Arr(ElementsOf(f, t.items, MAX_DEPTH - (depth + 1)))
  {
    hide ItemsText, ItemsOk, ElementsOf;
  }

  lemma {:induction false} ItemsFirst(f: Floats, items: Items, budget: nat, rest: Bytes)
    requires ItemsOk(f, items, budget)
    ensures var u := SkipBlanks(ItemsText(f, items, budget) + rest); u != [] && u[0] != RBRACKET && u[0] != RBRACE
  {
    var item := items.item;
    var text := TreeText(f, item.tree, budget);
    FirstByteOf(f, item.tree, budget);
    var tail := item.after + ((if items.MoreItems? then [COMMA] + ItemsText(f, items.rest, budget) else []) + rest);
    assert ItemsText(f, items, budget) + rest == item.before + (text + tail);
    assert (text + tail)[0] == text[0];
    SkipsBlanks(item.before, text + tail);
  }

  /** An item up to the byte behind it. */
  lemma {:induction false} ItemRead(f: Floats, item: Item, depth: nat, tail: Bytes)
    requires depth <= MAX_DEPTH && ItemOk(f, item, MAX_DEPTH - depth)
    requires tail == [] || tail[0] == COMMA || tail[0] == RBRACKET || tail[0] == RBRACE
    ensures var v := ValueAt(f, ItemText(f, item, MAX_DEPTH - depth) + tail, depth);
            v.Done? && v.value == ItemValue(f, item, MAX_DEPTH - depth) && SkipBlanks(v.rest) == tail
    decreases item
  {
    BlanksBehind(item.after, tail);
    TreeRead(f, item.before, item.tree, depth, item.after + tail);
    SkipsBlanks(item.after, tail);
    ItemParts(item.before, TreeText(f, item.tree, MAX_DEPTH - depth), item.after, tail);
  }

  lemma {:induction false} ItemParts(a: Bytes, b: Bytes, c: Bytes, d: Bytes)
    ensures a + b + c + d == a + (b + (c + d))
  {
  }

  lemma {:induction false} ElementsStep(f: Floats, s: Bytes, depth: nat, sofar: seq<Json>)
    ensures Elements(f, s, depth, sofar) ==
            var one := ValueAt(f, s, depth);
            if one.Fail? then Fail(one.why, one.left)
            else
              var t := SkipBlanks(one.rest);
              if t == [] then Fail(UnterminatedArray, 0)
              else if t[0] == COMMA then Elements(f, t[1..], depth, sofar + [one.value])
              else if t[0] == RBRACKET then Done(Arr(sofar + [one.value]), t[1..])
              else Fail(NoCommaOrBracket, |t|)
  {
    hide ValueAt, SkipBlanks;
  }

  lemma {:induction false} TailParts(c: byte, rest: Bytes)
    ensures ([c] + rest)[0] == c && ([c] + rest)[1..] == rest
  {
  }

  lemma {:induction false} ItemsParts(f: Floats, items: Items, budget: nat, rest: Bytes)
    requires ItemsOk(f, items, budget)
    ensures ItemOk(f, items.item, budget)
    ensures items.LastItem? ==> && ItemsText(f, items, budget) + rest == ItemText(f, items.item, budget) + rest
                                && ElementsOf(f, items, budget) == [ItemValue(f, items.item, budget)]
    ensures items.MoreItems? ==> && ItemsOk(f, items.rest, budget)
                                 && ItemsText(f, items, budget) + rest
                                    == ItemText(f, items.item, budget) + ([COMMA] + (ItemsText(f, items.rest, budget) + rest))
                                 && ElementsOf(f, items, budget) == [ItemValue(f, items.item, budget)] + ElementsOf(f, items.rest, budget)
  {
    hide ItemText, ItemOk, ItemValue;
  }

  lemma {:induction false} ItemsRead(f: Floats, items: Items, depth: nat, sofar: seq<Json>, rest: Bytes)
    requires depth <= MAX_DEPTH && ItemsOk(f, items, MAX_DEPTH - depth)
    ensures Elements(f, ItemsText(f, items, MAX_DEPTH - depth) + ([RBRACKET] + rest), depth, sofar)
            == Done(Arr(sofar + ElementsOf(f, items, MAX_DEPTH - depth)), rest)
    decreases items
  {
    hide Elements, ValueAt, SkipBlanks, ItemText, ItemOk, ItemsText, ItemsOk, ItemValue, ElementsOf;
    var budget := MAX_DEPTH - depth;
    var close := [RBRACKET] + rest;
    ItemsParts(f, items, budget, close);
    var v := ItemValue(f, items.item, budget);
    ElementsStep(f, ItemsText(f, items, budget) + close, depth, sofar);
    TailParts(RBRACKET, rest);
    if items.LastItem? {
      ItemRead(f, items.item, depth, close);
    } else {
      var more := ItemsText(f, items.rest, budget) + close;
      TailParts(COMMA, more);
      ItemRead(f, items.item, depth, [COMMA] + more);
      ItemsRead(f, items.rest, depth, sofar + [v], rest);
      Regroup(sofar, [v], ElementsOf(f, items.rest, budget));
    }
  }

  // ---- objects ---------------------------------------------------------------------------------------

  lemma {:induction false} ObjectRead(f: Floats, t: Tree, depth: nat, rest: Bytes)
    requires depth <= MAX_DEPTH && t.Object? && TreeOk(f, t, MAX_DEPTH - depth)
    ensures ObjectAt(f, TreeText(f, t, MAX_DEPTH - depth) + rest, depth) == Done(ValueOf(f, t, MAX_DEPTH - depth), rest)
    decreases t, 1
  {
    hide *;
    ObjectParts(f, t, depth, rest);
    var budget := MAX_DEPTH - (depth + 1);
    FieldsFirst(f, t.fields, budget, [RBRACE] + rest);
    ObjectKinds(f, TreeText(f, t, MAX_DEPTH - depth) + rest, depth);
    assert [] + MembersOf(f, t.fields, budget) == MembersOf(f, t.fields, budget);
    FieldsRead(f, t.fields, depth + 1, [], rest);
  }

  lemma {:induction false} ObjectParts(f: Floats, t: Tree, depth: nat, rest: Bytes)
    requires depth <= MAX_DEPTH && t.Object? && TreeOk(f, t, MAX_DEPTH - depth)
    ensures depth + 1 <= MAX_DEPTH && FieldsOk(f, t.fields, MAX_DEPTH - (depth + 1)) && DistinctKeys(MembersOf(f, t.fields, MAX_DEPTH - (depth + 1)))
    ensures var s := TreeText(f, t, MAX_DEPTH - depth) + rest;
            s != [] && s[1..] == FieldsText(f, t.fields, MAX_DEPTH - (depth + 1)) + ([RBRACE] + rest)
    ensures ValueOf(f, t, MAX_DEPTH - depth) == Obj(MembersOf(f, t.fields, MAX_DEPTH - (depth + 1)))
  {
    hide FieldsText, FieldsOk, MembersOf, DistinctKeys;
  }

  lemma {:induction false} FieldsFirst(f: Floats, fields: Fields, budget: nat, rest: Bytes)
    requires FieldsOk(f, fields, budget)
    ensures var u := SkipBlanks(FieldsText(f, fields, budget) + rest); u != [] && u[0] != RBRACKET && u[0] != RBRACE
  {
    var field := fields.field;
    var tail := field.after + [COLON] + ItemText(f, field.item, budget)
                + (if fields.MoreFields? then [COMMA] + FieldsText(f, fields.rest, budget) else []) + rest;
    assert FieldsText(f, fields, budget) + rest == field.before + (Quoted(field.key) + tail);
    assert (Quoted(field.key) + tail)[0] == QUOTE;
    SkipsBlanks(field.before, Quoted(field.key) + tail);
  }

  lemma {:induction false} KeyRead(field: Field, sofar: seq<Member>, tail: Bytes)
    requires Blanks(field.before) && UnitsOk(field.key) && Blanks(field.after) && FreshKey(sofar, UnitsBytes(field.key))
    ensures KeyAt(field.before + Quoted(field.key) + field.after + [COLON] + tail, sofar) == Done(UnitsBytes(field.key), tail)
  {
    var colon := [COLON] + tail;
    var s := Quoted(field.key) + (field.after + colon);
    assert field.before + Quoted(field.key) + field.after + [COLON] + tail == field.before + s;
    assert s[0] == QUOTE;
    SkipsBlanks(field.before, s);
    QuotedRead(field.key, field.after + colon);
    SkipsBlanks(field.after, colon);
    assert colon[1..] == tail;
  }

  lemma {:induction false} MembersStep(f: Floats, s: Bytes, depth: nat, sofar: seq<Member>)
    ensures Members(f, s, depth, sofar) ==
            var key := KeyAt(s, sofar);
            if key.Fail? then Fail(key.why, key.left)
            else
              var one := ValueAt(f, key.rest, depth);
              if one.Fail? then Fail(one.why, one.left)
              else
                var all := sofar + [Member(key.value, one.value)];
                var t := SkipBlanks(one.rest);
                if t == [] then Fail(UnterminatedObject, 0)
                else if t[0] == COMMA then Members(f, t[1..], depth, all)
                else if t[0] == RBRACE then Done(Obj(all), t[1..])
                else Fail(NoCommaOrBrace, |t|)
  {
    hide KeyAt, ValueAt, SkipBlanks;
  }

  lemma {:induction false} FieldsParts(f: Floats, fields: Fields, budget: nat, rest: Bytes)
    requires FieldsOk(f, fields, budget)
    ensures var field := fields.field;
            && Blanks(field.before) && UnitsOk(field.key) && Blanks(field.after) && ItemOk(f, field.item, budget)
            && var m := Member(UnitsBytes(field.key), ItemValue(f, field.item, budget));
               var head := field.before + Quoted(field.key) + field.after + [COLON];
               && (fields.LastField? ==> && FieldsText(f, fields, budget) + rest == head + (ItemText(f, field.item, budget) + rest)
                                         && MembersOf(f, fields, budget) == [m] + [])
               && (fields.MoreFields? ==> && FieldsOk(f, fields.rest, budget)
                                          && FieldsText(f, fields, budget) + rest
                                             == head + (ItemText(f, field.item, budget) + ([COMMA] + (FieldsText(f, fields.rest, budget) + rest)))
                                          && MembersOf(f, fields, budget) == [m] + MembersOf(f, fields.rest, budget))
  {
    hide ItemText, ItemOk, ItemValue, Quoted, UnitsBytes, UnitsOk;
  }

  lemma {:induction false} FieldsRead(f: Floats, fields: Fields, depth: nat, sofar: seq<Member>, rest: Bytes)
    requires depth <= MAX_DEPTH && FieldsOk(f, fields, MAX_DEPTH - depth) && DistinctKeys(sofar + MembersOf(f, fields, MAX_DEPTH - depth))
    ensures Members(f, FieldsText(f, fields, MAX_DEPTH - depth) + ([RBRACE] + rest), depth, sofar)
            == Done(Obj(sofar + MembersOf(f, fields, MAX_DEPTH - depth)), rest)
    decreases fields
  {
    hide Members, KeyAt, ValueAt, SkipBlanks, ItemText, ItemOk, FieldsText, FieldsOk, ItemValue, MembersOf, DistinctKeys;
    hide Quoted, UnitsBytes, UnitsOk, Blanks, FreshKey;
    var budget := MAX_DEPTH - depth;
    var close := [RBRACE] + rest;
    var field := fields.field;
    FieldsParts(f, fields, budget, close);
    var m := Member(UnitsBytes(field.key), ItemValue(f, field.item, budget));
    MembersStep(f, FieldsText(f, fields, budget) + close, depth, sofar);
    TailParts(RBRACE, rest);
    if fields.LastField? {
      FirstIsFresh(sofar, m, []);
      assert sofar + ([m] + []) == sofar + [m];
      KeyRead(field, sofar, ItemText(f, field.item, budget) + close);
      ItemRead(f, field.item, depth, close);
    } else {
      var all := MembersOf(f, fields.rest, budget);
      var more := FieldsText(f, fields.rest, budget) + close;
      FirstIsFresh(sofar, m, all);
      TailParts(COMMA, more);
      KeyRead(field, sofar, ItemText(f, field.item, budget) + ([COMMA] + more));
      ItemRead(f, field.item, depth, [COMMA] + more);
      FieldsRead(f, fields.rest, depth, sofar + [m], rest);
      Regroup(sofar, [m], all);
    }
  }

  lemma {:induction false} FirstIsFresh(sofar: seq<Member>, m: Member, all: seq<Member>)
    requires DistinctKeys(sofar + ([m] + all))
    ensures FreshKey(sofar, m.key) && DistinctKeys(sofar + [m] + all)
  {
    var whole := sofar + ([m] + all);
    assert whole[|sofar|] == m && forall i | 0 <= i < |sofar| :: whole[i] == sofar[i];
    Regroup(sofar, [m], all);
  }

  // ---- whatever is read, the grammar has ---------------------------------------------------------------

  /** A value that is read stands for a tree behind some blanks. */
  ghost predicate ReadAs(f: Floats, s: Bytes, depth: nat, r: Parsed<Json>, before: Bytes, t: Tree) {
    r.Done? ==> && depth <= MAX_DEPTH && Blanks(before) && TreeOk(f, t, MAX_DEPTH - depth)
                && s == before + TreeText(f, t, MAX_DEPTH - depth) + r.rest && r.value == ValueOf(f, t, MAX_DEPTH - depth)
  }

  /** Which production a byte decides on. */
  lemma {:induction false} Kinds(f: Floats, s: Bytes, depth: nat)
    ensures var u := SkipBlanks(s);
            ValueAt(f, s, depth).Done? ==>
              && u != [] && ValueAt(f, u, depth) == ValueAt(f, s, depth) && SkipBlanks(u) == u
              && (u[0] == LBRACE ==> ValueAt(f, u, depth) == ObjectAt(f, u, depth))
              && (u[0] == LBRACKET ==> ValueAt(f, u, depth) == ArrayAt(f, u, depth))
              && (u[0] == QUOTE ==> StringAt(u).Done? && ValueAt(f, u, depth) == Done(Str(StringAt(u).value), StringAt(u).rest))
              && (u[0] == LOWER_T ==> ValueAt(f, u, depth) == LiteralAt(u, TRUE, Bool(true)))
              && (u[0] == LOWER_F ==> ValueAt(f, u, depth) == LiteralAt(u, FALSE, Bool(false)))
              && (u[0] == LOWER_N ==> ValueAt(f, u, depth) == LiteralAt(u, JsonModel.NULL, Null))
              && (u[0] != LBRACE && u[0] != LBRACKET && u[0] != QUOTE && u[0] != LOWER_T && u[0] != LOWER_F && u[0] != LOWER_N
                  ==> ValueAt(f, u, depth) == NumberAt(f, u))
  {
    hide ObjectAt, ArrayAt, StringAt, NumberAt, LiteralAt;
    assert SkipBlanks(SkipBlanks(s)) == SkipBlanks(s);
  }

  lemma {:induction false} ReadBehind(f: Floats, s: Bytes, before: Bytes, u: Bytes, depth: nat, r: Parsed<Json>, t: Tree)
    requires depth <= MAX_DEPTH && s == before + u && Blanks(before) && ReadAs(f, u, depth, r, [], t)
    ensures ReadAs(f, s, depth, r, before, t)
  {
    if r.Done? {
      hide TreeOk, TreeText, ValueOf;
      var text := TreeText(f, t, MAX_DEPTH - depth);
      assert [] + text + r.rest == text + r.rest;
      Regroup(before, text, r.rest);
    }
  }

  lemma {:induction false} ValueRead(f: Floats, s: Bytes, depth: nat) returns (before: Bytes, t: Tree)
    requires depth <= MAX_DEPTH
    ensures ReadAs(f, s, depth, ValueAt(f, s, depth), before, t)
    decreases |s|, 2
  {
    BlanksSkipped(s);
    Kinds(f, s, depth);
    var u, r := SkipBlanks(s), ValueAt(f, s, depth);
    before, t := s[..|s| - |u|], WordNull;
    if r.Done? {
      hide ValueAt, ReadAs, Blanks, SkipBlanks, ObjectAt, ArrayAt, StringAt, NumberAt, LiteralAt;
      if u[0] == LBRACE {
        t := ObjectIs(f, u, depth);
      } else if u[0] == LBRACKET {
        t := ArrayIs(f, u, depth);
      } else if u[0] == QUOTE {
        t := StringIs(f, u, depth);
      } else if u[0] == LOWER_T || u[0] == LOWER_F || u[0] == LOWER_N {
        t := WordIs(f, u, depth);
      } else {
        t := NumberIs(f, u, depth);
      }
      ReadBehind(f, s, before, u, depth, r, t);
    } else {
      NotRead(f, s, depth, r, before, t);
    }
  }

  lemma {:induction false} NotRead(f: Floats, s: Bytes, depth: nat, r: Parsed<Json>, before: Bytes, t: Tree)
    requires r.Fail?
    ensures ReadAs(f, s, depth, r, before, t)
  {
  }

  lemma {:induction false} StringIs(f: Floats, u: Bytes, depth: nat) returns (t: Tree)
    requires depth <= MAX_DEPTH && u != [] && u[0] == QUOTE && StringAt(u).Done?
    ensures ReadAs(f, u, depth, Done(Str(StringAt(u).value), StringAt(u).rest), [], t)
  {
    var us := StringRead(u[1..], [], |u|);
    hide Characters, UnitsOk, UnitsText, UnitsBytes;
    t := Text_(us);
    assert [] + UnitsBytes(us) == UnitsBytes(us);
    QuotedParts(u, UnitsText(us), StringAt(u).rest);
  }

  lemma {:induction false} QuotedParts(u: Bytes, text: Bytes, rest: Bytes)
    requires u != [] && u[0] == QUOTE && u[1..] == text + [QUOTE] + rest
    ensures u == [] + ([QUOTE] + text + [QUOTE]) + rest
  {
    assert u == [QUOTE] + u[1..];
  }

  lemma {:induction false} WordIs(f: Floats, u: Bytes, depth: nat) returns (t: Tree)
    requires depth <= MAX_DEPTH && u != [] && (u[0] == LOWER_T || u[0] == LOWER_F || u[0] == LOWER_N)
    ensures u[0] == LOWER_T ==> ReadAs(f, u, depth, LiteralAt(u, TRUE, Bool(true)), [], t)
    ensures u[0] == LOWER_F ==> ReadAs(f, u, depth, LiteralAt(u, FALSE, Bool(false)), [], t)
    ensures u[0] == LOWER_N ==> ReadAs(f, u, depth, LiteralAt(u, JsonModel.NULL, Null), [], t)
  {
    t := if u[0] == LOWER_T then WordTrue else if u[0] == LOWER_F then WordFalse else WordNull;
    var word := if u[0] == LOWER_T then TRUE else if u[0] == LOWER_F then FALSE else JsonModel.NULL;
    if StartsWith(u, word) {
      assert u == [] + word + u[|word|..];
    }
  }

  lemma {:induction false} NumberIs(f: Floats, u: Bytes, depth: nat) returns (t: Tree)
    requires depth <= MAX_DEPTH && u != [] && NumberAt(f, u).Done?
    ensures ReadAs(f, u, depth, NumberAt(f, u), [], t)
  {
    var tok := ScannedIsToken(f, u);
    hide NumberAt, NumberOf, Spelled, IsToken;
    t := Number(tok);
    assert u == [] + Spelled(tok) + NumberAt(f, u).rest;
  }

  lemma {:induction false} ArrayIs(f: Floats, s: Bytes, depth: nat) returns (t: Tree)
    requires depth <= MAX_DEPTH && s != [] && s[0] == LBRACKET && ArrayAt(f, s, depth).Done?
    ensures ReadAs(f, s, depth, ArrayAt(f, s, depth), [], t)
    decreases |s|, 1
  {
    hide *;
    BlanksSkipped(s[1..]);
    var u := SkipBlanks(s[1..]);
    var pad := s[1..][..|s[1..]| - |u|];
    ArrayKinds(f, s, depth);
    if u != [] && u[0] == RBRACKET {
      t := EmptyArray(pad);
      EmptyParts(s, LBRACKET, pad, u);
      EmptyMade(f, s, depth, pad, u[1..]);
    } else {
      var items := ElementsAre(f, s[1..], depth + 1, []);
      t := Array(items);
      assert [] + ElementsOf(f, items, MAX_DEPTH - (depth + 1)) == ElementsOf(f, items, MAX_DEPTH - (depth + 1));
      ArrayMade(f, s, depth, items, ArrayAt(f, s, depth).rest);
    }
  }

  lemma {:induction false} ArrayKinds(f: Floats, s: Bytes, depth: nat)
    requires s != []
    ensures ArrayAt(f, s, depth).Done? ==> depth + 1 <= MAX_DEPTH
    ensures |s[1..]| < |s|
    ensures var u := SkipBlanks(s[1..]);
            depth + 1 <= MAX_DEPTH ==>
            ArrayAt(f, s, depth) == if u != [] && u[0] == RBRACKET then Done(Arr([]), u[1..]) else Elements(f, s[1..], depth + 1, [])
  {
    SkipFirst(f, s[1..], depth + 1, [], []);
    hide Elements, ValueAt, SkipBlanks;
  }

  lemma {:induction false} ObjectKinds(f: Floats, s: Bytes, depth: nat)
    requires s != []
    ensures ObjectAt(f, s, depth).Done? ==> depth + 1 <= MAX_DEPTH
    ensures |s[1..]| < |s| && DistinctKeys([])
    ensures var u := SkipBlanks(s[1..]);
            depth + 1 <= MAX_DEPTH ==>
            ObjectAt(f, s, depth) == if u != [] && u[0] == RBRACE then Done(Obj([]), u[1..]) else Members(f, s[1..], depth + 1, [])
  {
    SkipFirst(f, s[1..], depth + 1, [], []);
    hide Members, ValueAt, SkipBlanks;
  }

  lemma {:induction false} EmptyMade(f: Floats, s: Bytes, depth: nat, pad: Bytes, rest: Bytes)
    requires depth + 1 <= MAX_DEPTH && Blanks(pad)
    ensures s == [] + ([LBRACKET] + pad + [RBRACKET]) + rest ==> ReadAs(f, s, depth, Done(Arr([]), rest), [], EmptyArray(pad))
    ensures s == [] + ([LBRACE] + pad + [RBRACE]) + rest ==> ReadAs(f, s, depth, Done(Obj([]), rest), [], EmptyObject(pad))
  {
  }

  lemma {:induction false} ArrayMade(f: Floats, s: Bytes, depth: nat, items: Items, rest: Bytes)
    requires depth + 1 <= MAX_DEPTH && ItemsOk(f, items, MAX_DEPTH - (depth + 1)) && s != [] && s[0] == LBRACKET
    requires s[1..] == ItemsText(f, items, MAX_DEPTH - (depth + 1)) + ([RBRACKET] + rest)
    ensures ReadAs(f, s, depth, Done(Arr(ElementsOf(f, items, MAX_DEPTH - (depth + 1))), rest), [], Array(items))
  {
    FullParts(s, ItemsText(f, items, MAX_DEPTH - (depth + 1)), RBRACKET, rest);
    hide ItemsText, ItemsOk, ElementsOf;
  }

  lemma {:induction false} ObjectMade(f: Floats, s: Bytes, depth: nat, fields: Fields, rest: Bytes)
    requires depth + 1 <= MAX_DEPTH && FieldsOk(f, fields, MAX_DEPTH - (depth + 1)) && s != [] && s[0] == LBRACE
    requires DistinctKeys(MembersOf(f, fields, MAX_DEPTH - (depth + 1)))
    requires s[1..] == FieldsText(f, fields, MAX_DEPTH - (depth + 1)) + ([RBRACE] + rest)
    ensures ReadAs(f, s, depth, Done(Obj(MembersOf(f, fields, MAX_DEPTH - (depth + 1))), rest), [], Object(fields))
  {
    FullParts(s, FieldsText(f, fields, MAX_DEPTH - (depth + 1)), RBRACE, rest);
    hide FieldsText, FieldsOk, MembersOf, DistinctKeys;
  }

  lemma {:induction false} EmptyParts(s: Bytes, open: byte, pad: Bytes, u: Bytes)
    requires s != [] && u != [] && s[0] == open && s[1..] == pad + u
    ensures s == [] + ([open] + pad + [u[0]]) + u[1..]
  {
    assert s == [open] + s[1..] && u == [u[0]] + u[1..];
  }

  lemma {:induction false} FullParts(s: Bytes, text: Bytes, close: byte, rest: Bytes)
    requires s != [] && s[1..] == text + ([close] + rest)
    ensures s == [] + ([s[0]] + text + [close]) + rest
  {
    assert s == [s[0]] + s[1..];
  }

  lemma {:induction false} ElementsAre(f: Floats, s: Bytes, depth: nat, sofar: seq<Json>) returns (items: Items)
    requires depth <= MAX_DEPTH && Elements(f, s, depth, sofar).Done?
    ensures ItemsOk(f, items, MAX_DEPTH - depth)
    ensures s == ItemsText(f, items, MAX_DEPTH - depth) + ([RBRACKET] + Elements(f, s, depth, sofar).rest)
    ensures Elements(f, s, depth, sofar).value == Arr(sofar + ElementsOf(f, items, MAX_DEPTH - depth))
    decreases |s|, 4
  {
    hide Elements, ValueAt, ItemsText, ItemsOk, ElementsOf, ItemText, ItemOk, ItemValue;
    var budget := MAX_DEPTH - depth;
    ElementsStep(f, s, depth, sofar);
    var item, u := ItemIs(f, s, depth);
    var v := ItemValue(f, item, budget);
    if u[0] == COMMA {
      var more := ElementsAre(f, u[1..], depth, sofar + [v]);
      items := MoreItems(item, more);
      ItemsMade(f, items, budget, [RBRACKET] + Elements(f, s, depth, sofar).rest);
      Regroup(sofar, [v], ElementsOf(f, more, budget));
      assert u == [COMMA] + u[1..];
    } else {
      items := LastItem(item);
      ItemsMade(f, items, budget, [RBRACKET] + Elements(f, s, depth, sofar).rest);
      assert u == [RBRACKET] + u[1..];
    }
  }

  lemma {:induction false} ItemsMade(f: Floats, items: Items, budget: nat, rest: Bytes)
    requires ItemOk(f, items.item, budget) && (items.MoreItems? ==> ItemsOk(f, items.rest, budget))
    ensures ItemsOk(f, items, budget)
    ensures items.LastItem? ==> && ItemsText(f, items, budget) + rest == ItemText(f, items.item, budget) + rest
                                && ElementsOf(f, items, budget) == [ItemValue(f, items.item, budget)]
    ensures items.MoreItems? ==> && ItemsText(f, items, budget) + rest
                                    == ItemText(f, items.item, budget) + ([COMMA] + (ItemsText(f, items.rest, budget) + rest))
                                 && ElementsOf(f, items, budget) == [ItemValue(f, items.item, budget)] + ElementsOf(f, items.rest, budget)
  {
    assert ItemsOk(f, items, budget);
    ItemsParts(f, items, budget, rest);
  }

  /** A value with the blanks on both sides of it, up to the next byte. */
  lemma {:induction false} ItemIs(f: Floats, s: Bytes, depth: nat) returns (item: Item, u: Bytes)
    requires depth <= MAX_DEPTH && ValueAt(f, s, depth).Done?
    ensures u == SkipBlanks(ValueAt(f, s, depth).rest) && |u| < |s|
    ensures ItemOk(f, item, MAX_DEPTH - depth) && s == ItemText(f, item, MAX_DEPTH - depth) + u
    ensures ItemValue(f, item, MAX_DEPTH - depth) == ValueAt(f, s, depth).value
    decreases |s|, 3
  {
    var before, t := ValueRead(f, s, depth);
    var rest := ValueAt(f, s, depth).rest;
    hide ValueAt;
    BlanksSkipped(rest);
    u := SkipBlanks(rest);
    var after := rest[..|rest| - |u|];
    item := Item(before, t, after);
    Regroup(before + TreeText(f, t, MAX_DEPTH - depth), after, u);
    hide TreeOk, TreeText, ValueOf, SkipBlanks;
  }

  lemma {:induction false} ObjectIs(f: Floats, s: Bytes, depth: nat) returns (t: Tree)
    requires depth <= MAX_DEPTH && s != [] && s[0] == LBRACE && ObjectAt(f, s, depth).Done?
    ensures ReadAs(f, s, depth, ObjectAt(f, s, depth), [], t)
    decreases |s|, 1
  {
    hide *;
    BlanksSkipped(s[1..]);
    var u := SkipBlanks(s[1..]);
    var pad := s[1..][..|s[1..]| - |u|];
    ObjectKinds(f, s, depth);
    if u != [] && u[0] == RBRACE {
      t := EmptyObject(pad);
      EmptyParts(s, LBRACE, pad, u);
      EmptyMade(f, s, depth, pad, u[1..]);
    } else {
      var fields := MembersAre(f, s[1..], depth + 1, []);
      t := Object(fields);
      assert [] + MembersOf(f, fields, MAX_DEPTH - (depth + 1)) == MembersOf(f, fields, MAX_DEPTH - (depth + 1));
      ObjectMade(f, s, depth, fields, ObjectAt(f, s, depth).rest);
    }
  }

  /** A key that is read, with its blanks and its colon. */
  lemma {:induction false} KeyIs(s: Bytes, sofar: seq<Member>) returns (before: Bytes, key: seq<Unit>, after: Bytes)
    requires KeyAt(s, sofar).Done?
    ensures Blanks(before) && UnitsOk(key) && Blanks(after) && KeyAt(s, sofar).value == UnitsBytes(key) && FreshKey(sofar, UnitsBytes(key))
    ensures s == before + Quoted(key) + after + [COLON] + KeyAt(s, sofar).rest
  {
    BlanksSkipped(s);
    var t := SkipBlanks(s);
    before := s[..|s| - |t|];
    key := StringRead(t[1..], [], |t|);
    var r := StringAt(t).rest;
    BlanksSkipped(r);
    var u := SkipBlanks(r);
    after := r[..|r| - |u|];
    hide Characters, SkipBlanks, UnitsText, UnitsBytes, UnitsOk, Blanks;
    assert [] + UnitsBytes(key) == UnitsBytes(key);
    QuotedParts(t, UnitsText(key), r);
    KeyParts(before, Quoted(key), after, u, s, t, r);
  }

  lemma {:induction false} KeyParts(before: Bytes, text: Bytes, after: Bytes, u: Bytes, s: Bytes, t: Bytes, r: Bytes)
    requires s == before + t && t == [] + text + r && r == after + u && u != [] && u[0] == COLON
    ensures s == before + text + after + [COLON] + u[1..]
  {
    assert u == [COLON] + u[1..];
  }

  lemma {:induction false} MembersAre(f: Floats, s: Bytes, depth: nat, sofar: seq<Member>) returns (fields: Fields)
    requires depth <= MAX_DEPTH && DistinctKeys(sofar) && Members(f, s, depth, sofar).Done?
    ensures FieldsOk(f, fields, MAX_DEPTH - depth) && DistinctKeys(sofar + MembersOf(f, fields, MAX_DEPTH - depth))
    ensures s == FieldsText(f, fields, MAX_DEPTH - depth) + ([RBRACE] + Members(f, s, depth, sofar).rest)
    ensures Members(f, s, depth, sofar).value == Obj(sofar + MembersOf(f, fields, MAX_DEPTH - depth))
    decreases |s|, 4
  {
    hide Members, KeyAt, ValueAt, SkipBlanks, ItemText, ItemOk, FieldsText, FieldsOk, ItemValue, MembersOf, DistinctKeys;
    hide Quoted, UnitsBytes, UnitsOk, Blanks, FreshKey;
    var budget := MAX_DEPTH - depth;
    MembersStep(f, s, depth, sofar);
    var before, key, after := KeyIs(s, sofar);
    var r := KeyAt(s, sofar).rest;
    var item, u := ItemIs(f, r, depth);
    var m := Member(UnitsBytes(key), ItemValue(f, item, budget));
    DistinctMore(sofar, m);
    var field := Field(before, key, after, item);
    var close := [RBRACE] + Members(f, s, depth, sofar).rest;
    if u[0] == COMMA {
      var more := MembersAre(f, u[1..], depth, sofar + [m]);
      fields := MoreFields(field, more);
      FieldsMade(f, fields, budget, close);
      Regroup(sofar, [m], MembersOf(f, more, budget));
      assert u == [COMMA] + u[1..];
    } else {
      fields := LastField(field);
      FieldsMade(f, fields, budget, close);
      assert u == [RBRACE] + u[1..];
    }
  }

  lemma {:induction false} DistinctMore(sofar: seq<Member>, m: Member)
    requires DistinctKeys(sofar) && FreshKey(sofar, m.key)
    ensures DistinctKeys(sofar + [m])
  {
  }

  lemma {:induction false} FieldsMade(f: Floats, fields: Fields, budget: nat, rest: Bytes)
    requires Blanks(fields.field.before) && UnitsOk(fields.field.key) && Blanks(fields.field.after) && ItemOk(f, fields.field.item, budget)
    requires fields.MoreFields? ==> FieldsOk(f, fields.rest, budget)
    ensures FieldsOk(f, fields, budget)
    ensures var field := fields.field;
            && var m := Member(UnitsBytes(field.key), ItemValue(f, field.item, budget));
               var head := field.before + Quoted(field.key) + field.after + [COLON];
               && (fields.LastField? ==> && FieldsText(f, fields, budget) + rest == head + (ItemText(f, field.item, budget) + rest)
                                         && MembersOf(f, fields, budget) == [m])
               && (fields.MoreFields? ==> && FieldsText(f, fields, budget) + rest
                                             == head + (ItemText(f, field.item, budget) + ([COMMA] + (FieldsText(f, fields.rest, budget) + rest)))
                                          && MembersOf(f, fields, budget) == [m] + MembersOf(f, fields.rest, budget))
  {
    assert FieldsOk(f, fields, budget);
    FieldsParts(f, fields, budget, rest);
  }

  // ---- documents -----------------------------------------------------------------------------------------

  /** The text of a document: a grammatical value with blanks around it, for the value v. */
  ghost predicate Denotes(f: Floats, text: Bytes, v: Json, item: Item) {
    ItemOk(f, item, MAX_DEPTH) && text == ItemText(f, item, MAX_DEPTH) && v == ItemValue(f, item, MAX_DEPTH)
  }

  /** The parser accepts exactly the grammar of RFC 8259 with at most 128 levels of nesting, distinct
      keys, paired surrogates and numbers in range, and gives the value the text denotes. */
  lemma {:induction false} DocumentIff(f: Floats, text: Bytes, v: Json)
    ensures Document(f, text) == Done(v, []) <==> exists item :: Denotes(f, text, v, item)
  {
    hide ValueAt, ItemText, ItemOk, ItemValue;
    if Document(f, text) == Done(v, []) {
      var item, u := ItemIs(f, text, 0);
      assert ItemText(f, item, MAX_DEPTH) + [] == ItemText(f, item, MAX_DEPTH);
      assert Denotes(f, text, v, item);
    }
    forall item | Denotes(f, text, v, item) ensures Document(f, text) == Done(v, []) {
      ItemRead(f, item, 0, []);
      assert ItemText(f, item, MAX_DEPTH) + [] == ItemText(f, item, MAX_DEPTH);
    }
  }
}
