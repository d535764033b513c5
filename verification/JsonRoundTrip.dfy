/** Parsing undoes writing; what the parser gives back is always well formed. */
module JsonRoundTrip {
  import opened Basics
  import opened Utf8
  import opened JsonModel
  import opened JsonSyntax
  import opened JsonNumbers

  // ---- what is assumed of the float conversions --------------------------------------------------

  /** The text of a finite double is a number token that reads back as that double; the token of an
      integer-valued zero with a sign belongs to negative zero only. */
  ghost predicate FloatAt(f: Floats, d: Double) {
    f.finite(d) ==> f.read(f.text(d)) == Some(d) && exists t :: IsToken(t) && f.text(d) == Spelled(t)
  }

  ghost predicate FloatsOk(f: Floats) {
    (forall d :: FloatAt(f, d)) && f.finite(f.negativeZero) && f.text(f.negativeZero) == [MINUS, ZERO]
  }

  // ---- what a value is after one trip ---------------------------------------------------------------

  /** What the text of a double reads back as. */
  function NormalNumber(f: Floats, d: Double): Json {
    if !f.finite(d) then Null
    else
      var t := f.text(d);
      var i := if SkipDigits(Sign(t)) == [] then IntegerOf(t) else None;
      if i.Some? && t != [MINUS, ZERO] then Int(i.value) else Num(d)
  }

  /** Doubles may come back as integers or null; everything else as itself. */
  function Normal(f: Floats, v: Json): Json
    decreases v
  {
    match v
    case Num(d) => NormalNumber(f, d)
    case Arr(elements) => Arr(seq(|elements|, i requires 0 <= i < |elements| => Normal(f, elements[i])))
    case Obj(members) =>
      Obj(seq(|members|, i requires 0 <= i < |members| => Member(members[i].key, Normal(f, members[i].value))))
    case _ => v
  }

  ghost predicate NoDoubles(v: Json)
    decreases v
  {
    match v
    case Num(_) => false
    case Arr(elements) => forall i | 0 <= i < |elements| :: NoDoubles(elements[i])
    case Obj(members) => forall i | 0 <= i < |members| :: NoDoubles(members[i].value)
    case _ => true
  }

  lemma {:induction false} NormalIsSame(f: Floats, v: Json)
    requires NoDoubles(v)
    ensures Normal(f, v) == v
    decreases v
  {
    match v
    case Arr(elements) =>
      forall i | 0 <= i < |elements| ensures Normal(f, elements[i]) == elements[i] {
        NormalIsSame(f, elements[i]);
      }
      assert Normal(f, v).elements == elements;
    case Obj(members) =>
      forall i | 0 <= i < |members| ensures Normal(f, members[i].value) == members[i].value {
        NormalIsSame(f, members[i].value);
      }
      assert Normal(f, v).members == members;
    case _ =>
  }

  // ---- strings ------------------------------------------------------------------------------------------

  lemma {:induction false} EscapedAppend(a: Bytes, b: Bytes)
    ensures EscapedBytes(a + b) == EscapedBytes(a) + EscapedBytes(b)
  {
    if a == [] {
      assert a + b == b;
    } else {
      assert (a + b)[0] == a[0] && (a + b)[1..] == a[1..] + b;
      EscapedAppend(a[1..], b);
    }
  }

  lemma {:induction false} EscapedPlain(s: Bytes)
    requires forall i | 0 <= i < |s| :: s[i] >= 0x80
    ensures EscapedBytes(s) == s
  {
    if s != [] {
      EscapedPlain(s[1..]);
    }
  }

  lemma {:induction false} HexBack(d: nat)
    requires d < 16
    ensures HexValue(HexDigit(d)) == d
  {
  }

  /** Reading one escaped ASCII byte gives it back. */
  lemma {:induction false} CharacterBack(c: byte, tail: Bytes, sofar: Bytes, start: nat)
    requires c < 0x80
    ensures Characters(EscapedByte(c) + tail, sofar, start) == Characters(tail, sofar + [c], start)
  {
    var s := EscapedByte(c) + tail;
    if |EscapedByte(c)| == 1 {
      assert s[0] == c && s[1..] == tail;
    } else if |EscapedByte(c)| == 2 {
      assert s[0] == BACKSLASH && s[1] == EscapedByte(c)[1] && s[2..] == tail;
      assert Escape(s) == Done([c], tail);
    } else {
      ControlBack(c, tail);
    }
  }

  lemma {:induction false} ControlBack(c: byte, tail: Bytes)
    requires c < 0x20 && |EscapedByte(c)| == 6
    ensures var s := EscapedByte(c) + tail; s[0] == BACKSLASH && Escape(s) == Done([c], tail)
  {
    var s := EscapedByte(c) + tail;
    var digits := [ZERO, ZERO, HexDigit(c / 16), HexDigit(c % 16)];
    assert s[0] == BACKSLASH && s[1] == LOWER_U && s[2..] == digits + tail;
    HexBack(c / 16);
    HexBack(c % 16);
    var r := digits + tail;
    assert r[0] == ZERO && r[1] == ZERO && r[2] == HexDigit(c / 16) && r[3] == HexDigit(c % 16) && r[4..] == tail;
    assert Hex4(r, |s|) == Done(c / 16 * 16 + c % 16, tail);
  }

  /** A multi-byte sequence passes through untouched. */
  lemma {:induction false} SequenceBack(cp: nat, tail: Bytes, sofar: Bytes, start: nat)
    requires 0x80 <= cp && Scalar(cp)
    ensures Characters(Encode(cp) + tail, sofar, start) == Characters(tail, sofar + Encode(cp), start)
  {
    var s := Encode(cp) + tail;
    EncodingIsSequence(cp, tail);
    EncodingBytes(cp);
    assert s[0] == Encode(cp)[0] && s[..|Encode(cp)|] == Encode(cp) && s[|Encode(cp)|..] == tail;
  }

  /** The first scalar of a string, read back. */
  lemma {:induction false} ScalarBack(cp: nat, tail: Bytes, sofar: Bytes, start: nat)
    requires Scalar(cp)
    ensures Characters(EscapedBytes(Encode(cp)) + tail, sofar, start) == Characters(tail, sofar + Encode(cp), start)
  {
    hide Characters;
    EncodingBytes(cp);
    if cp < 0x80 {
      assert Encode(cp)[1..] == [];
      assert EscapedBytes(Encode(cp)) == EscapedByte(cp) + EscapedBytes([]);
      assert EscapedBytes(Encode(cp)) == EscapedByte(cp);
      CharacterBack(cp, tail, sofar, start);
    } else {
      EscapedPlain(Encode(cp));
      SequenceBack(cp, tail, sofar, start);
    }
  }

  lemma {:induction false} NoCharacters(rest: Bytes, sofar: Bytes, start: nat)
    ensures Characters(EscapedBytes([]) + ([QUOTE] + rest), sofar, start) == Done(sofar + [], rest)
  {
    var tail := [QUOTE] + rest;
    assert EscapedBytes([]) + tail == tail && tail[0] == QUOTE && tail[1..] == rest && sofar + [] == sofar;
  }

  lemma {:induction false} CharactersBack(s: Bytes, rest: Bytes, sofar: Bytes, start: nat)
    requires WellFormed(s)
    ensures Characters(EscapedBytes(s) + ([QUOTE] + rest), sofar, start) == Done(sofar + s, rest)
    decreases |s|
  {
    hide *;
    if s == [] {
      NoCharacters(rest, sofar, start);
    } else {
      var tail := [QUOTE] + rest;
      var cp, more := FirstScalar(s);
      CharactersBack(more, rest, sofar + Encode(cp), start);
      EscapedAppend(Encode(cp), more);
      Regroup(sofar, Encode(cp), more);
      Regroup(EscapedBytes(Encode(cp)), EscapedBytes(more), tail);
      ScalarBack(cp, EscapedBytes(more) + tail, sofar, start);
    }
  }

  /** A written string reads back as itself. */
  lemma {:induction false} StringBack(s: Bytes, rest: Bytes)
    requires WellFormed(s)
    ensures StringAt(Quoted(s) + rest) == Done(s, rest)
  {
    var t := Quoted(s) + rest;
    assert t[1..] == EscapedBytes(s) + ([QUOTE] + rest);
    CharactersBack(s, rest, [], |t|);
    assert [] + s == s;
  }

  // ---- numbers ----------------------------------------------------------------------------------------------

  /** What may follow a value inside a document. */
  predicate Ends(rest: Bytes) { rest == [] || Blank(rest[0]) || rest[0] == COMMA || rest[0] == RBRACKET || rest[0] == RBRACE }

  lemma {:induction false} IntBack(f: Floats, n: int, rest: Bytes)
    requires INT_MIN <= n <= INT_MAX && Ends(rest)
    ensures NumberAt(f, IntText(n) + rest) == Done(Int(n), rest)
  {
    var t := IntToken(n);
    ScansToken(f, t, rest);
    IntegerToken(t);
  }

  lemma {:induction false} IntegralScan(t: Token)
    requires IsToken(t)
    ensures SkipDigits(Sign(Spelled(t))) == [] <==> Integral(t)
  {
    SignIs(t, []);
    assert Spelled(t) + [] == Spelled(t) && t.exponent + [] == t.exponent;
    SkipsAll(t.whole, t.fraction + t.exponent);
  }

  lemma {:induction false} FloatToken(f: Floats, d: Double) returns (t: Token)
    requires FloatsOk(f) && f.finite(d)
    ensures IsToken(t) && f.text(d) == Spelled(t) && f.read(f.text(d)) == Some(d)
    ensures f.text(d) == [MINUS, ZERO] ==> d == f.negativeZero
  {
    assert FloatAt(f, d);
    t :| IsToken(t) && f.text(d) == Spelled(t);
    assert FloatAt(f, f.negativeZero);
  }

  lemma {:induction false} TokenMeaning(f: Floats, d: Double, t: Token)
    requires f.finite(d) && IsToken(t) && f.text(d) == Spelled(t) && f.read(f.text(d)) == Some(d)
    requires f.text(d) == [MINUS, ZERO] ==> d == f.negativeZero
    ensures NumberOf(f, Spelled(t), Integral(t)) == Some(NormalNumber(f, d))
  {
    IntegralScan(t);
    if Integral(t) {
      IntegerToken(t);
      SpelledOnce(t.whole);
      assert Spelled(t) == (if t.negative then [MINUS] else []) + t.whole;
    }
  }

  /** The text of a double reads back as its normal form. */
  lemma {:induction false} DoubleBack(f: Floats, d: Double, rest: Bytes)
    requires FloatsOk(f) && f.finite(d) && Ends(rest)
    ensures f.text(d) != [] && (f.text(d)[0] == MINUS || Digit(f.text(d)[0]))
    ensures NumberAt(f, f.text(d) + rest) == Done(NormalNumber(f, d), rest)
  {
    hide NumberAt, NumberOf, NormalNumber, FloatsOk;
    var t := FloatToken(f, d);
    ScansToken(f, t, rest);
    TokenMeaning(f, d, t);
    TokenFirst(t);
  }

  lemma {:induction false} TokenFirst(t: Token)
    requires IsToken(t)
    ensures Spelled(t) != [] && (Spelled(t)[0] == MINUS || Digit(Spelled(t)[0]))
  {
    assert Spelled(t)[0] == if t.negative then MINUS else t.whole[0];
  }

  /** Writing the normal form of a double gives the double's own text. */
  lemma {:induction false} NormalText(f: Floats, d: Double)
    requires FloatsOk(f)
    ensures Text(f, NormalNumber(f, d)) == Text(f, Num(d))
  {
    if f.finite(d) {
      assert FloatAt(f, d);
      var t :| IsToken(t) && f.text(d) == Spelled(t);
      IntegralScan(t);
      if Integral(t) && IntegerOf(f.text(d)).Some? && f.text(d) != [MINUS, ZERO] {
        IntegerToken(t);
        SpelledOnce(t.whole);
        assert Spelled(t) == (if t.negative then [MINUS] else []) + t.whole;
      }
    }
  }

  // ---- values ------------------------------------------------------------------------------------------------

  /** Every value's text starts with a byte that says what follows. */
  lemma {:induction false} FirstByte(f: Floats, v: Json)
    requires FloatsOk(f)
    ensures Text(f, v) != []
    ensures var c := Text(f, v)[0]; !Blank(c) && c != RBRACKET && c != RBRACE
  {
    match v
    case Int(n) => DigitsAreWhole(if n < 0 then -n else n);
    case Num(d) => if f.finite(d) { DoubleBack(f, d, []); }
    case _ =>
  }

  lemma {:induction false} NoBlanks(s: Bytes)
    requires s == [] || !Blank(s[0])
    ensures SkipBlanks(s) == s
  {
  }

  lemma {:induction false} LiteralBack(word: Bytes, v: Json, rest: Bytes)
    requires word != []
    ensures LiteralAt(word + rest, word, v) == Done(v, rest)
  {
    assert (word + rest)[..|word|] == word && (word + rest)[|word|..] == rest;
  }

  /** Parsing what was written gives the value's normal form, and leaves what follows. */
  lemma {:induction false} ValueBack(f: Floats, v: Json, depth: nat, rest: Bytes)
    requires FloatsOk(f) && depth <= MAX_DEPTH && Good(f, v, MAX_DEPTH - depth) && Ends(rest)
    ensures ValueAt(f, Text(f, v) + rest, depth) == Done(Normal(f, v), rest)
    decreases v, Count(v) + 2
  {
    var s := Text(f, v) + rest;
    FirstByte(f, v);
    assert s[0] == Text(f, v)[0];
    NoBlanks(s);
    hide Ends, FloatsOk, Blank;
    match v
    case Null => LiteralBack(JsonModel.NULL, v, rest);
    case Bool(b) => LiteralBack(if b then TRUE else FALSE, v, rest);
    case Int(n) => IntBack(f, n, rest); IntFirst(n);
    case Num(d) =>
      if f.finite(d) {
        DoubleBack(f, d, rest);
        NumberFirst(f.text(d)[0]);
      } else {
        LiteralBack(JsonModel.NULL, Null, rest);
      }
    case Str(str) => StringBack(str, rest);
    case Arr(elements) => ArrayBack(f, v, depth, rest);
    case Obj(members) => ObjectBack(f, v, depth, rest);
  }

  lemma {:induction false} IntFirst(n: int)
    ensures IntText(n)[0] == MINUS || Digit(IntText(n)[0])
  {
    DigitsAreWhole(if n < 0 then -n else n);
  }

  lemma {:induction false} NumberFirst(c: byte)
    requires c == MINUS || Digit(c)
    ensures c != LBRACE && c != LBRACKET && c != QUOTE && c != LOWER_T && c != LOWER_F && c != LOWER_N
  {
  }

  lemma {:induction false} ArrayBack(f: Floats, v: Json, depth: nat, rest: Bytes)
    requires v.Arr? && FloatsOk(f) && depth <= MAX_DEPTH && Good(f, v, MAX_DEPTH - depth)
    ensures ArrayAt(f, Text(f, v) + rest, depth) == Done(Normal(f, v), rest)
    decreases v, Count(v) + 1
  {
    var s := Text(f, v) + rest;
    var tail := [RBRACKET] + rest;
    assert s[1..] == ElementsText(f, v, 0) + tail;
    if v.elements == [] {
      assert s[1..] == tail;
      assert tail[0] == RBRACKET && tail[1..] == rest;
      NoBlanks(tail);
      assert Normal(f, v).elements == [];
    } else {
      ElementsFirst(f, v, tail);
      NoBlanks(s[1..]);
      ElementsBack(f, v, depth + 1, 0, [], rest);
    }
  }

  lemma {:induction false} ElementsFirst(f: Floats, v: Json, tail: Bytes)
    requires v.Arr? && v.elements != [] && FloatsOk(f)
    ensures var t := ElementsText(f, v, 0) + tail; t != [] && !Blank(t[0]) && t[0] != RBRACKET
  {
    FirstByte(f, v.elements[0]);
    assert ElementsText(f, v, 0)[0] == Text(f, v.elements[0])[0];
  }

  lemma {:induction false} ElementsBack(f: Floats, v: Json, depth: nat, i: nat, sofar: seq<Json>, rest: Bytes)
    requires v.Arr? && FloatsOk(f) && 0 < depth <= MAX_DEPTH && Good(f, v, MAX_DEPTH - depth + 1) && i < |v.elements|
    requires sofar == Normal(f, v).elements[..i]
    ensures Elements(f, ElementsText(f, v, i) + ([RBRACKET] + rest), depth, sofar) == Done(Normal(f, v), rest)
    decreases v, |v.elements| - i
  {
    var s, tail := ElementsText(f, v, i) + ([RBRACKET] + rest), [RBRACKET] + rest;
    var one := v.elements[i];
    var all := Normal(f, v).elements;
    assert all[i] == Normal(f, one) && all[..i + 1] == sofar + [Normal(f, one)];
    if i + 1 == |v.elements| {
      ValueBack(f, one, depth, tail);
      NoBlanks(tail);
      assert tail[0] == RBRACKET && tail[1..] == rest && all[..i + 1] == all;
    } else {
      var more := [COMMA] + (ElementsText(f, v, i + 1) + tail);
      assert s == Text(f, one) + more;
      ValueBack(f, one, depth, more);
      NoBlanks(more);
      assert more[0] == COMMA && more[1..] == ElementsText(f, v, i + 1) + tail;
      ElementsBack(f, v, depth, i + 1, sofar + [Normal(f, one)], rest);
    }
  }

  lemma {:induction false} ObjectText(f: Floats, v: Json, rest: Bytes)
    requires v.Obj?
    ensures Text(f, v) != []
    ensures var s := Text(f, v) + rest; s[0] == LBRACE && s[1..] == MembersText(f, v, 0) + ([RBRACE] + rest)
    ensures v.members != [] ==> MembersText(f, v, 0) != [] && MembersText(f, v, 0)[0] == QUOTE
  {
    hide EscapedBytes;
  }

  lemma {:induction false} ObjectOpens(f: Floats, s: Bytes, depth: nat, t: Bytes)
    requires s != [] && depth < MAX_DEPTH && SkipBlanks(s[1..]) == t && t != []
    ensures t[0] == RBRACE ==> ObjectAt(f, s, depth) == Done(Obj([]), t[1..])
    ensures t[0] != RBRACE ==> ObjectAt(f, s, depth) == Members(f, t, depth + 1, [])
  {
    hide Members, SkipBlanks;
  }

  lemma {:induction false} NormalObject(f: Floats, v: Json)
    requires v.Obj?
    ensures Normal(f, v).Obj? && |Normal(f, v).members| == |v.members| && Normal(f, v).members[..0] == []
    ensures v.members == [] ==> Normal(f, v) == Obj([])
  {
  }

  lemma {:induction false} GoodBudget(f: Floats, v: Json, budget: nat)
    requires v.Obj? && Good(f, v, budget)
    ensures budget > 0
  {
  }

  lemma {:induction false} EmptyObjectBack(f: Floats, depth: nat, s: Bytes, rest: Bytes)
    requires s != [] && depth < MAX_DEPTH && s[1..] == [] + ([RBRACE] + rest)
    ensures ObjectAt(f, s, depth) == Done(Obj([]), rest)
  {
    hide *;
    TailHead(RBRACE, rest);
    assert s[1..] == [RBRACE] + rest;
    ObjectOpens(f, s, depth, s[1..]);
  }

  lemma {:induction false} ObjectBack(f: Floats, v: Json, depth: nat, rest: Bytes)
    requires v.Obj? && FloatsOk(f) && depth <= MAX_DEPTH && Good(f, v, MAX_DEPTH - depth)
    ensures Text(f, v) != [] && ObjectAt(f, Text(f, v) + rest, depth) == Done(Normal(f, v), rest)
    decreases v, |v.members| + 1
  {
    hide *;
    var s := Text(f, v) + rest;
    ObjectText(f, v, rest);
    NormalObject(f, v);
    GoodBudget(f, v, MAX_DEPTH - depth);
    if v.members == [] {
      MembersNone(f, v);
      EmptyObjectBack(f, depth, s, rest);
    } else {
      QuoteOpens(s[1..], MembersText(f, v, 0), [RBRACE] + rest);
      ObjectOpens(f, s, depth, s[1..]);
      MembersBack(f, v, depth + 1, 0, [], rest);
    }
  }

  lemma {:induction false} QuoteOpens(s: Bytes, a: Bytes, b: Bytes)
    requires s == a + b && a != [] && a[0] == QUOTE
    ensures s != [] && s[0] == QUOTE && SkipBlanks(s) == s && QUOTE != RBRACE
  {
  }

  lemma {:induction false} MembersNone(f: Floats, v: Json)
    requires v.Obj? && v.members == []
    ensures MembersText(f, v, 0) == []
  {
  }

  lemma {:induction false} KeyBack(key: Bytes, sofar: seq<Member>, rest: Bytes)
    requires WellFormed(key) && FreshKey(sofar, key)
    ensures KeyAt(Quoted(key) + ([COLON] + rest), sofar) == Done(key, rest)
  {
    var s, tail := Quoted(key) + ([COLON] + rest), [COLON] + rest;
    assert s[0] == QUOTE;
    NoBlanks(s);
    StringBack(key, tail);
    NoBlanks(tail);
    assert tail[0] == COLON && tail[1..] == rest;
  }

  /** One member's text and what follows it, grouped as the parser reads it. */
  lemma {:induction false} MemberText(f: Floats, v: Json, i: nat, tail: Bytes)
    requires v.Obj? && i < |v.members|
    ensures var one := v.members[i];
            MembersText(f, v, i) + tail ==
            Quoted(one.key) + ([COLON] + (Text(f, one.value) + if i + 1 == |v.members| then tail else [COMMA] + (MembersText(f, v, i + 1) + tail)))
  {
    hide Quoted, Text;
  }

  lemma {:induction false} TailHead(c: byte, rest: Bytes)
    requires c == COMMA || c == RBRACKET || c == RBRACE
    ensures var t := [c] + rest; t[0] == c && t[1..] == rest && Ends(t) && SkipBlanks(t) == t
  {
  }

  lemma {:induction false} NormalMember(f: Floats, v: Json, i: nat)
    requires v.Obj? && i < |v.members| && DistinctKeys(v.members)
    ensures var all := Normal(f, v).members;
            && |all| == |v.members| && all[i] == Member(v.members[i].key, Normal(f, v.members[i].value)) && all[..i + 1] == all[..i] + [all[i]]
            && FreshKey(all[..i], v.members[i].key)
  {
  }

  lemma {:induction false} GoodMember(f: Floats, v: Json, budget: nat, i: nat)
    requires v.Obj? && i < |v.members| && Good(f, v, budget)
    ensures budget > 0 && DistinctKeys(v.members) && WellFormed(v.members[i].key) && Good(f, v.members[i].value, budget - 1)
  {
  }

  lemma {:induction false} MembersBack(f: Floats, v: Json, depth: nat, i: nat, sofar: seq<Member>, rest: Bytes)
    requires v.Obj? && FloatsOk(f) && 0 < depth <= MAX_DEPTH && Good(f, v, MAX_DEPTH - depth + 1) && i < |v.members|
    requires |Normal(f, v).members| == |v.members| && sofar == Normal(f, v).members[..i]
    ensures Members(f, MembersText(f, v, i) + ([RBRACE] + rest), depth, sofar) == Done(Normal(f, v), rest)
    decreases v, |v.members| - i
  {
    var one := v.members[i];
    GoodMember(f, v, MAX_DEPTH - depth + 1, i);
    NormalMember(f, v, i);
    var all := Normal(f, v).members;
    assert Obj(all) == Normal(f, v);
    hide Good, Normal, MembersText, Text, Quoted, KeyAt, FloatsOk, FreshKey, Ends;
    var tail := [RBRACE] + rest;
    MemberText(f, v, i, tail);
    TailHead(RBRACE, rest);
    var more := if i + 1 == |v.members| then tail else [COMMA] + (MembersText(f, v, i + 1) + tail);
    KeyBack(one.key, sofar, Text(f, one.value) + more);
    if i + 1 == |v.members| {
      ValueBack(f, one.value, depth, tail);
      assert all[..i + 1] == all;
    } else {
      TailHead(COMMA, MembersText(f, v, i + 1) + tail);
      ValueBack(f, one.value, depth, more);
      MembersBack(f, v, depth, i + 1, sofar + [all[i]], rest);
    }
  }

  // ---- the documents ------------------------------------------------------------------------------------

  /** Parsing the dump of a value gives its normal form. */
  lemma {:induction false} ParseOfDump(f: Floats, v: Json)
    requires FloatsOk(f) && Good(f, v, MAX_DEPTH)
    ensures Document(f, Text(f, v)) == Done(Normal(f, v), [])
  {
    ValueBack(f, v, 0, []);
    assert Text(f, v) + [] == Text(f, v);
  }

  /** The same for a file that ends in a newline. */
  lemma {:induction false} ParseOfFile(f: Floats, v: Json)
    requires FloatsOk(f) && Good(f, v, MAX_DEPTH)
    ensures Document(f, Text(f, v) + [LINE_FEED]) == Done(Normal(f, v), [])
  {
    ValueBack(f, v, 0, [LINE_FEED]);
    assert [LINE_FEED][1..] == [];
    assert SkipBlanks([LINE_FEED]) == SkipBlanks([LINE_FEED][1..]) == [];
  }

  /** Parsing undoes dumping for every value without doubles. */
  lemma {:induction false} RoundTrip(f: Floats, v: Json)
    requires FloatsOk(f) && Good(f, v, MAX_DEPTH) && NoDoubles(v)
    ensures Document(f, Text(f, v)) == Done(v, [])
  {
    ParseOfDump(f, v);
    NormalIsSame(f, v);
  }

  lemma {:induction false} ElementsTextSame(f: Floats, v: Json, w: Json, i: nat)
    requires v.Arr? && w.Arr? && |v.elements| == |w.elements| && i <= |v.elements|
    requires forall j | i <= j < |v.elements| :: Text(f, v.elements[j]) == Text(f, w.elements[j])
    ensures ElementsText(f, v, i) == ElementsText(f, w, i)
    decreases |v.elements| - i
  {
    if i < |v.elements| {
      ElementsTextSame(f, v, w, i + 1);
    }
  }

  lemma {:induction false} MembersTextSame(f: Floats, v: Json, w: Json, i: nat)
    requires v.Obj? && w.Obj? && |v.members| == |w.members| && i <= |v.members|
    requires forall j | i <= j < |v.members| :: v.members[j].key == w.members[j].key && Text(f, v.members[j].value) == Text(f, w.members[j].value)
    ensures MembersText(f, v, i) == MembersText(f, w, i)
    decreases |v.members| - i
  {
    if i < |v.members| {
      MembersTextSame(f, v, w, i + 1);
    }
  }

  /** Whatever one trip changes, the text stays: dumping what a dump parses to gives that dump again. */
  lemma {:induction false} DumpIsFixed(f: Floats, v: Json)
    requires FloatsOk(f)
    ensures Text(f, Normal(f, v)) == Text(f, v)
    decreases v
  {
    match v
    case Num(d) => NormalText(f, d);
    case Arr(elements) =>
      forall i | 0 <= i < |elements| ensures Text(f, Normal(f, elements[i])) == Text(f, elements[i]) {
        DumpIsFixed(f, elements[i]);
      }
      ElementsTextSame(f, Normal(f, v), v, 0);
    case Obj(members) =>
      forall i | 0 <= i < |members| ensures Text(f, Normal(f, members[i].value)) == Text(f, members[i].value) {
        DumpIsFixed(f, members[i].value);
      }
      MembersTextSame(f, Normal(f, v), v, 0);
    case _ =>
  }

  // ---- every parsed value is good --------------------------------------------------------------------------

  lemma {:induction false} EscapeGood(s: Bytes)
    requires s != []
    ensures var e := Escape(s); e.Done? ==> WellFormed(e.value)
  {
    if |s| > 1 {
      var c := s[1];
      if c == LOWER_U {
        UnicodeGood(s[2..], |s|);
      } else if Escape(s).Done? {
        var b := Escape(s).value[0];
        assert Escape(s).value == Encode(b);
        WellFormedOne(b);
      }
    }
  }

  lemma {:induction false} UnicodeGood(s: Bytes, left: nat)
    ensures var e := UnicodeEscape(s, left); e.Done? ==> WellFormed(e.value)
  {
    var high := Hex4(s, left);
    if UnicodeEscape(s, left).Done? {
      if 0xD800 <= high.value <= 0xDBFF {
        var low := Hex4(high.rest[2..], left);
        WellFormedOne(0x1_0000 + (high.value - 0xD800) * 1024 + (low.value - 0xDC00));
      } else {
        WellFormedOne(high.value);
      }
    }
  }

  /** Every string the parser gives back is well-formed UTF-8. */
  lemma {:induction false} CharactersGood(s: Bytes, sofar: Bytes, start: nat)
    requires WellFormed(sofar)
    ensures var r := Characters(s, sofar, start); r.Done? ==> WellFormed(r.value)
    decreases |s|
  {
    if s != [] && s[0] != QUOTE {
      if s[0] == BACKSLASH {
        var e := Escape(s);
        if e.Done? {
          EscapeGood(s);
          WellFormedAppend(sofar, e.value);
          CharactersGood(e.rest, sofar + e.value, start);
        }
      } else if 0x20 <= s[0] < 0x80 {
        WellFormedOne(s[0]);
        assert Encode(s[0]) == [s[0]];
        WellFormedAppend(sofar, [s[0]]);
        CharactersGood(s[1..], sofar + [s[0]], start);
      } else if s[0] >= 0x80 && SequenceLength(s) > 0 {
        var k := SequenceLength(s);
        SequenceIsEncoding(s);
        var cp: nat :| 0x80 <= cp && Scalar(cp) && s[..k] == Encode(cp);
        WellFormedOne(cp);
        WellFormedAppend(sofar, s[..k]);
        CharactersGood(s[k..], sofar + s[..k], start);
      }
    }
  }

  lemma {:induction false} StringGood(s: Bytes)
    requires s != []
    ensures var r := StringAt(s); r.Done? ==> WellFormed(r.value)
  {
    WellFormedOne(0);
    CharactersGood(s[1..], [], |s|);
  }

  /** Whatever text is accepted, its value is good: int64 integers, well-formed strings, distinct keys,
      nested at most 128 deep. */
  lemma {:induction false} ValueGood(f: Floats, s: Bytes, depth: nat)
    requires depth <= MAX_DEPTH
    ensures var r := ValueAt(f, s, depth); r.Done? ==> Good(f, r.value, MAX_DEPTH - depth)
    decreases |s|, 2
  {
    var t := SkipBlanks(s);
    if t != [] {
      if t[0] == LBRACE {
        if depth < MAX_DEPTH {
          var u := SkipBlanks(t[1..]);
          if !(u != [] && u[0] == RBRACE) {
            MembersGood(f, u, depth + 1, []);
          }
        }
      } else if t[0] == LBRACKET {
        if depth < MAX_DEPTH {
          var u := SkipBlanks(t[1..]);
          if !(u != [] && u[0] == RBRACKET) {
            ElementsGood(f, u, depth + 1, []);
          }
        }
      } else if t[0] == QUOTE {
        StringGood(t);
      }
    }
  }

  lemma {:induction false} ElementsGood(f: Floats, s: Bytes, depth: nat, sofar: seq<Json>)
    requires 0 < depth <= MAX_DEPTH && forall i | 0 <= i < |sofar| :: Good(f, sofar[i], MAX_DEPTH - depth)
    ensures var r := Elements(f, s, depth, sofar); r.Done? ==> Good(f, r.value, MAX_DEPTH - depth + 1)
    decreases |s|, 3
  {
    ValueGood(f, s, depth);
    var one := ValueAt(f, s, depth);
    if one.Done? {
      var t := SkipBlanks(one.rest);
      if t != [] && t[0] == COMMA {
        ElementsGood(f, t[1..], depth, sofar + [one.value]);
      }
    }
  }

  lemma {:induction false} MembersGood(f: Floats, s: Bytes, depth: nat, sofar: seq<Member>)
    requires 0 < depth <= MAX_DEPTH && DistinctKeys(sofar)
    requires forall i | 0 <= i < |sofar| :: WellFormed(sofar[i].key) && Good(f, sofar[i].value, MAX_DEPTH - depth)
    ensures var r := Members(f, s, depth, sofar); r.Done? ==> Good(f, r.value, MAX_DEPTH - depth + 1)
    decreases |s|, 3
  {
    var key := KeyAt(s, sofar);
    if key.Done? {
      var k := SkipBlanks(s);
      StringGood(k);
      ValueGood(f, key.rest, depth);
      var one := ValueAt(f, key.rest, depth);
      if one.Done? {
        var t := SkipBlanks(one.rest);
        if t != [] && t[0] == COMMA {
          MembersGood(f, t[1..], depth, sofar + [Member(key.value, one.value)]);
        }
      }
    }
  }

  /** Any accepted text: the value is good, and its dump is a fixed point of parsing and dumping. */
  lemma {:induction false} AcceptedText(f: Floats, text: Bytes)
    requires FloatsOk(f)
    ensures var r := Document(f, text);
            r.Done? ==> Good(f, r.value, MAX_DEPTH) && Document(f, Text(f, r.value)) == Done(Normal(f, r.value), [])
                        && Text(f, Normal(f, r.value)) == Text(f, r.value)
  {
    var r := Document(f, text);
    ValueGood(f, text, 0);
    if r.Done? {
      ParseOfDump(f, r.value);
      DumpIsFixed(f, r.value);
    }
  }
}
