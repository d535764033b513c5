/** The text format from literal bytes: what values look like, and what some malformed documents are refused for. */
module JsonLiterals {
  import opened Basics
  import opened Utf8
  import opened JsonModel
  import opened JsonSyntax
  import opened JsonNumbers
  import opened JsonGrammar
  import opened JsonRoundTrip

  // ---- UTF-8 ------------------------------------------------------------------------------------------

  predicate Continues(b: byte) { 0x80 <= b <= 0xBF }

  /** How the bytes of an encoding add up to the scalar: section 3 of RFC 3629. */
  lemma {:induction false} EncodingMeans(cp: nat)
    requires cp < 0x11_0000
    ensures cp <= 0x7F ==> Encode(cp) == [cp]
    ensures 0x80 <= cp <= 0x7FF ==>
              var e := Encode(cp);
              |e| == 2 && 0xC0 <= e[0] <= 0xDF && Continues(e[1]) && cp == (e[0] as int - 0xC0) * 64 + (e[1] as int - 0x80)
    ensures 0x800 <= cp <= 0xFFFF ==>
              var e := Encode(cp);
              && |e| == 3 && 0xE0 <= e[0] <= 0xEF && Continues(e[1]) && Continues(e[2])
              && cp == (e[0] as int - 0xE0) * 4096 + (e[1] as int - 0x80) * 64 + (e[2] as int - 0x80)
    ensures 0x1_0000 <= cp ==>
              var e := Encode(cp);
              && |e| == 4 && 0xF0 <= e[0] <= 0xF7 && Continues(e[1]) && Continues(e[2]) && Continues(e[3])
              && cp == (e[0] as int - 0xF0) * 262144 + (e[1] as int - 0x80) * 4096 + (e[2] as int - 0x80) * 64 + (e[3] as int - 0x80)
  {
    assert cp == cp / 64 * 64 + cp % 64 && cp / 64 == cp / 4096 * 64 + cp / 64 % 64 && cp / 4096 == cp / 262144 * 64 + cp / 4096 % 64;
  }

  // ---- the writer -----------------------------------------------------------------------------------------

  /** What the writer makes of each byte of a string. */
  lemma {:induction false} EscapesAre(c: byte)
    ensures c == 34 ==> EscapedByte(c) == [92, 34]
    ensures c == 92 ==> EscapedByte(c) == [92, 92]
    ensures c == 8 ==> EscapedByte(c) == [92, 98]
    ensures c == 9 ==> EscapedByte(c) == [92, 116]
    ensures c == 10 ==> EscapedByte(c) == [92, 110]
    ensures c == 12 ==> EscapedByte(c) == [92, 102]
    ensures c == 13 ==> EscapedByte(c) == [92, 114]
    ensures c < 32 && c !in [8, 9, 10, 12, 13] ==>
              EscapedByte(c) == [92, 117, 48, 48, if c < 16 then 48 else 49, [48, 49, 50, 51, 52, 53, 54, 55, 56, 57, 97, 98, 99, 100, 101, 102][c % 16]]
    ensures c >= 32 && c != 34 && c != 92 ==> EscapedByte(c) == [c]
  {
  }

  /** Decimal notation: no digit for nothing, no leading zero, and the last digit is the rest by ten. */
  lemma {:induction false} DecimalsAre(n: nat)
    ensures n < 10 ==> Digits(n) == [48 + n]
    ensures n >= 10 ==> Digits(n) == Digits(n / 10) + [48 + n % 10]
    ensures n > 0 ==> Digits(n)[0] != 48 && IntText(0 - n as int) == [45] + Digits(n)
    ensures IntText(n) == Digits(n)
    decreases n
  {
    if n >= 10 {
      DecimalsAre(n / 10);
    }
  }

  /** The texts joined by commas. */
  function CommaJoined(texts: seq<Bytes>): Bytes {
    if texts == [] then [] else if |texts| == 1 then texts[0] else texts[0] + [44] + CommaJoined(texts[1..])
  }

  function ElementTexts(f: Floats, elements: seq<Json>): seq<Bytes> {
    seq(|elements|, i requires 0 <= i < |elements| => Text(f, elements[i]))
  }

  function MemberTexts(f: Floats, members: seq<Member>): seq<Bytes> {
    seq(|members|, i requires 0 <= i < |members| => [34] + EscapedBytes(members[i].key) + [34, 58] + Text(f, members[i].value))
  }

  /** Words, quotes, brackets, braces, colons and commas; nothing between them. */
  lemma {:induction false} TextsAre(f: Floats, s: Bytes, d: Double, elements: seq<Json>, members: seq<Member>)
    ensures Text(f, Null) == [110, 117, 108, 108]
    ensures Text(f, Bool(true)) == [116, 114, 117, 101] && Text(f, Bool(false)) == [102, 97, 108, 115, 101]
    ensures Text(f, Num(d)) == if f.finite(d) then f.text(d) else [110, 117, 108, 108]
    ensures Text(f, Str(s)) == [34] + EscapedBytes(s) + [34]
    ensures Text(f, Arr(elements)) == [91] + CommaJoined(ElementTexts(f, elements)) + [93]
    ensures Text(f, Obj(members)) == [123] + CommaJoined(MemberTexts(f, members)) + [125]
  {
    ElementsJoined(f, Arr(elements), 0);
    MembersJoined(f, Obj(members), 0);
    assert ElementTexts(f, elements)[0..] == ElementTexts(f, elements) && MemberTexts(f, members)[0..] == MemberTexts(f, members);
  }

  lemma {:induction false} ElementsJoined(f: Floats, v: Json, i: nat)
    requires v.Arr? && i <= |v.elements|
    ensures ElementsText(f, v, i) == CommaJoined(ElementTexts(f, v.elements)[i..])
    decreases |v.elements| - i
  {
    var texts := ElementTexts(f, v.elements);
    if i < |v.elements| {
      ElementsJoined(f, v, i + 1);
      assert texts[i..][1..] == texts[i + 1..];
    }
  }

  lemma {:induction false} MembersJoined(f: Floats, v: Json, i: nat)
    requires v.Obj? && i <= |v.members|
    ensures MembersText(f, v, i) == CommaJoined(MemberTexts(f, v.members)[i..])
    decreases |v.members| - i
  {
    var texts := MemberTexts(f, v.members);
    if i < |v.members| {
      MembersJoined(f, v, i + 1);
      assert texts[i..][1..] == texts[i + 1..];
      assert JsonModel.Quoted(v.members[i].key) + [58] + Text(f, v.members[i].value) == texts[i];
    }
  }

  // ---- whole documents ---------------------------------------------------------------------------------------

  /** [1,-20,true,false,null] */
  const SAMPLE_LIST_TEXT: Bytes := [91, 49, 44, 45, 50, 48, 44, 116, 114, 117, 101, 44, 102, 97, 108, 115, 101, 44, 110, 117, 108, 108, 93]

  /** {"a":[1,-20,true,false,null],"b":"x\n"} */
  const SAMPLE: Bytes := [123, 34, 97, 34, 58] + SAMPLE_LIST_TEXT + [44, 34, 98, 34, 58, 34, 120, 92, 110, 34, 125]

  const SAMPLE_VALUE: Json := Obj([Member([97], Arr(SAMPLE_LIST)), Member([98], Str([120, 10]))])

  const SAMPLE_LIST: seq<Json> := [Int(1), Int(-20), Bool(true), Bool(false), Null]

  lemma {:induction false} Twenty()
    ensures IntText(1) == [49] && IntText(-20) == [45, 50, 48]
  {
    DecimalsAre(1);
    DecimalsAre(20);
    DecimalsAre(2);
    assert Digits(20) == Digits(2) + [48];
  }

  lemma {:induction false} SampleListTexts(f: Floats)
    ensures ElementTexts(f, SAMPLE_LIST) == [[49], [45, 50, 48], [116, 114, 117, 101], [102, 97, 108, 115, 101], [110, 117, 108, 108]]
  {
    Twenty();
    var texts := ElementTexts(f, SAMPLE_LIST);
    assert |texts| == 5 && texts[0] == Text(f, Int(1)) && texts[1] == Text(f, Int(-20));
    assert texts[2] == Text(f, Bool(true)) && texts[3] == Text(f, Bool(false)) && texts[4] == Text(f, Null);
    hide ElementTexts, IntText;
  }

  lemma {:induction false} JoinFive(a: Bytes, b: Bytes, c: Bytes, d: Bytes, e: Bytes)
    ensures CommaJoined([a, b, c, d, e]) == a + [44] + (b + [44] + (c + [44] + (d + [44] + e)))
  {
    assert [a, b, c, d, e][1..] == [b, c, d, e] && [b, c, d, e][1..] == [c, d, e] && [c, d, e][1..] == [d, e] && [d, e][1..] == [e];
    JoinTwo(d, e);
    assert CommaJoined([c, d, e]) == c + [44] + CommaJoined([d, e]);
    assert CommaJoined([b, c, d, e]) == b + [44] + CommaJoined([c, d, e]);
  }

  lemma {:induction false} JoinTwo(a: Bytes, b: Bytes)
    ensures CommaJoined([a, b]) == a + [44] + b
  {
    assert [a, b][1..] == [b];
  }

  lemma {:induction false} SampleListText(f: Floats)
    ensures Text(f, Arr(SAMPLE_LIST)) == SAMPLE_LIST_TEXT
  {
    TextsAre(f, [], Double(0), SAMPLE_LIST, []);
    SampleListTexts(f);
    JoinFive([49], [45, 50, 48], [116, 114, 117, 101], [102, 97, 108, 115, 101], [110, 117, 108, 108]);
    ListSpelled();
    hide Text, CommaJoined, ElementTexts, SAMPLE_LIST, SAMPLE_LIST_TEXT;
  }

  lemma {:induction false} ListSpelled()
    ensures [91] + ([49] + [44] + ([45, 50, 48] + [44] + ([116, 114, 117, 101] + [44] + ([102, 97, 108, 115, 101] + [44] + [110, 117, 108, 108])))) + [93]
            == SAMPLE_LIST_TEXT
  {
    var words := [102, 97, 108, 115, 101] + [44] + [110, 117, 108, 108];
    assert words == [102, 97, 108, 115, 101, 44, 110, 117, 108, 108];
    var more := [116, 114, 117, 101] + [44] + words;
    assert more == [116, 114, 117, 101, 44, 102, 97, 108, 115, 101, 44, 110, 117, 108, 108];
    var all := [49] + [44] + ([45, 50, 48] + [44] + more);
    assert all == [49, 44, 45, 50, 48, 44, 116, 114, 117, 101, 44, 102, 97, 108, 115, 101, 44, 110, 117, 108, 108];
    assert [91] + all + [93] == SAMPLE_LIST_TEXT;
  }

  lemma {:induction false} SampleText(f: Floats)
    ensures Text(f, SAMPLE_VALUE) == SAMPLE
  {
    SampleListText(f);
    SampleStrings();
    TextsAre(f, [120, 10], Double(0), [], SAMPLE_VALUE.members);
    var texts := MemberTexts(f, SAMPLE_VALUE.members);
    hide Text, EscapedBytes, CommaJoined;
    assert texts == [texts[0], texts[1]];
    JoinTwo(texts[0], texts[1]);
    assert texts[0] == [34] + [97] + [34, 58] + SAMPLE_LIST_TEXT;
    assert texts[1] == [34] + [98] + [34, 58] + [34, 120, 92, 110, 34];
    hide MemberTexts, SAMPLE_VALUE;
    SampleSpelled();
  }

  lemma {:induction false} SampleSpelled()
    ensures SAMPLE == [123] + ([34] + [97] + [34, 58] + SAMPLE_LIST_TEXT + [44] + ([34] + [98] + [34, 58] + [34, 120, 92, 110, 34])) + [125]
  {
    hide SAMPLE_LIST_TEXT;
  }

  lemma {:induction false} SampleStrings()
    ensures EscapedBytes([97]) == [97] && EscapedBytes([98]) == [98] && EscapedBytes([120, 10]) == [120, 92, 110]
  {
    EscapesAre(120);
    EscapesAre(10);
    assert [120, 10][1..] == [10];
    assert EscapedBytes([10]) == [92, 110];
  }

  lemma {:induction false} AsciiIsWellFormed(s: Bytes)
    requires forall i | 0 <= i < |s| :: s[i] < 0x80
    ensures WellFormed(s)
  {
    var cps: seq<CodePoint> := seq(|s|, i requires 0 <= i < |s| => s[i] as nat);
    AsciiIsItself(s, cps);
  }

  lemma {:induction false} AsciiIsItself(s: Bytes, cps: seq<CodePoint>)
    requires |cps| == |s| && forall i | 0 <= i < |s| :: s[i] < 0x80 && cps[i] == s[i]
    ensures EncodeAll(cps) == s
    decreases |s|
  {
    if s != [] {
      AsciiIsItself(s[1..], cps[1..]);
      assert s == [s[0]] + s[1..];
    }
  }

  lemma {:induction false} SampleGood(f: Floats)
    ensures Good(f, SAMPLE_VALUE, MAX_DEPTH) && NoDoubles(SAMPLE_VALUE)
  {
    AsciiIsWellFormed([97]);
    AsciiIsWellFormed([98]);
    AsciiIsWellFormed([120, 10]);
    hide WellFormed;
    var list := Arr(SAMPLE_LIST);
    assert Good(f, list, MAX_DEPTH - 1) && NoDoubles(list);
  }

  /** This text and this value are written and read as each other. */
  lemma {:induction false} SampleIsRead(f: Floats)
    requires FloatsOk(f)
    ensures Text(f, SAMPLE_VALUE) == SAMPLE && Document(f, SAMPLE) == Done(SAMPLE_VALUE, [])
  {
    SampleText(f);
    SampleGood(f);
    hide *;
    RoundTrip(f, SAMPLE_VALUE);
  }

  // ---- numbers ---------------------------------------------------------------------------------------------------

  /** A number without fraction and exponent is an integer when it fits 64 bits, except minus zero; any other is
      a double, if the conversion has one for it. */
  lemma {:induction false} NumbersAre(f: Floats, token: Bytes, n: nat)
    requires DigitsValue(token, 0) == n && (token != [] ==> token[0] != 45)
    ensures n <= 9223372036854775807 ==> NumberOf(f, token, true) == Some(Int(n))
    ensures n == 0 ==> NumberOf(f, [45] + token, true) == Some(Num(f.negativeZero))
    ensures 0 < n <= 9223372036854775808 ==> NumberOf(f, [45] + token, true) == Some(Int(0 - n as int))
    ensures n > 9223372036854775807 ==> NumberOf(f, token, true) == if f.read(token) == None then None else Some(Num(f.read(token).value))
    ensures n > 9223372036854775808 ==>
              NumberOf(f, [45] + token, true) == if f.read([45] + token) == None then None else Some(Num(f.read([45] + token).value))
    ensures NumberOf(f, token, false) == if f.read(token) == None then None else Some(Num(f.read(token).value))
  {
    assert ([45] + token)[1..] == token;
  }

  /** The digits of a string. */
  predicate Decimal(s: Bytes) { s != [] && forall i | 0 <= i < |s| :: 48 <= s[i] <= 57 }

  /** A number token: digits without a leading zero, a point with digits, and an e with an optional sign and
      digits; the last two may be missing. */
  lemma {:induction false} TokensAre(whole: Bytes, fraction: Bytes, exponent: Bytes, digits: Bytes, e: byte)
    ensures IsWhole(whole) <==> whole == [48] || (Decimal(whole) && whole[0] != 48)
    ensures IsFraction([]) && (IsFraction([46] + digits) <==> Decimal(digits)) && (IsFraction(fraction) && fraction != [] ==> fraction[0] == 46)
    ensures IsExponent([]) && (IsExponent(exponent) && exponent != [] ==> exponent[0] == 101 || exponent[0] == 69)
    ensures e == 101 || e == 69 ==> (IsExponent([e] + digits) <==> Decimal(digits) || (|digits| > 1 && (digits[0] == 43 || digits[0] == 45) && Decimal(digits[1..])))
    ensures Spelled(Token(true, whole, fraction, exponent)) == [45] + whole + fraction + exponent
    ensures Spelled(Token(false, whole, fraction, exponent)) == whole + fraction + exponent
  {
    assert ([46] + digits)[1..] == digits && ([e] + digits)[1..] == digits && |digits| > 0 ==> ([e] + digits)[2..] == digits[1..];
    assert [] + whole == whole;
  }

  /** A run of digits means its decimal value. */
  lemma {:induction false} DigitsMean(s: Bytes, d: byte)
    requires 48 <= d <= 57 && forall i | 0 <= i < |s| :: 48 <= s[i] <= 57
    ensures DigitsValue([], 0) == 0 && DigitsValue(s + [d], 0) == DigitsValue(s, 0) * 10 + (d - 48)
  {
    DigitsAppend(s, d, 0);
  }

  lemma {:induction false} DigitsAppend(s: Bytes, d: byte, sofar: nat)
    requires 48 <= d <= 57 && forall i | 0 <= i < |s| :: 48 <= s[i] <= 57
    ensures DigitsValue(s + [d], sofar) == DigitsValue(s, sofar) * 10 + (d as int - 48)
    decreases |s|
  {
    if s == [] {
      assert s + [d] == [d];
      assert DigitsValue([d][1..], sofar * 10 + (d as int - 48)) == sofar * 10 + (d as int - 48);
    } else {
      assert (s + [d])[1..] == s[1..] + [d];
      DigitsAppend(s[1..], d, sofar * 10 + (s[0] as int - 48));
    }
  }

  // ---- blanks and limits ---------------------------------------------------------------------------------------------

  /** Space, tab, newline and carriage return are blank and nothing else is. */
  lemma {:induction false} BlanksAre(c: byte)
    ensures Blank(c) <==> c == 9 || c == 10 || c == 13 || c == 32
    ensures Digit(c) <==> 48 <= c <= 57
  {
  }

  /** n brackets, closed again. */
  function Brackets(n: nat): Bytes { if n == 0 then [] else [91] + Brackets(n - 1) + [93] }

  /** Lists in lists, n deep. */
  function Lists(n: nat): Json
    requires n > 0
  {
    if n == 1 then Arr([]) else Arr([Lists(n - 1)])
  }

  /** 128 lists in each other are a document, 129 are refused at the bracket that is too deep. */
  lemma {:induction false} DepthLimit(f: Floats, n: nat)
    requires n > 0
    ensures n <= 128 ==> Document(f, Brackets(n)) == Done(Lists(n), [])
    ensures n > 128 ==> Document(f, Brackets(n)) == Fail(TooDeep, 2 * n - 128)
  {
    BracketsRead(f, n, 0, []);
    assert Brackets(n) + [] == Brackets(n);
  }

  lemma {:induction false} BracketsLength(n: nat)
    ensures |Brackets(n)| == 2 * n
  {
    if n > 0 {
      BracketsLength(n - 1);
    }
  }

  lemma {:induction false} BracketsRead(f: Floats, n: nat, depth: nat, rest: Bytes)
    requires n > 0 && depth <= 128 && (rest == [] || rest[0] == 93)
    ensures depth + n <= 128 ==> ValueAt(f, Brackets(n) + rest, depth) == Done(Lists(n), rest)
    ensures depth + n > 128 ==> ValueAt(f, Brackets(n) + rest, depth) == Fail(TooDeep, 2 * n + |rest| - (128 - depth))
    decreases n
  {
    hide ValueAt, Blank;
    BracketsLength(n);
    BracketsAre(n, rest);
    var s, tail := Brackets(n) + rest, [93] + rest;
    var inner := Brackets(n - 1) + tail;
    if n == 1 {
      assert inner == tail;
      EmptyList(f, rest, depth);
    } else {
      if depth < 128 {
        BracketsRead(f, n - 1, depth + 1, tail);
      }
      BracketsLength(n - 1);
      OneElement(f, inner, rest, depth);
      hide Brackets;
      assert Lists(n) == Arr([Lists(n - 1)]);
    }
  }

  lemma {:induction false} BracketsAre(n: nat, rest: Bytes)
    requires n > 0
    ensures Brackets(n) + rest == [91] + (Brackets(n - 1) + ([93] + rest))
  {
    var inside := Brackets(n - 1);
    assert [91] + inside + [93] + rest == [91] + (inside + ([93] + rest));
  }

  lemma {:induction false} EmptyList(f: Floats, rest: Bytes, depth: nat)
    requires depth <= 128
    ensures var s := [91] + ([93] + rest);
            ValueAt(f, s, depth) == if depth < 128 then Done(Arr([]), rest) else Fail(TooDeep, |s|)
  {
    var s := [91] + ([93] + rest);
    assert s[1..] == [93] + rest && s[1..][1..] == rest;
    assert SkipBlanks(s) == s && SkipBlanks(s[1..]) == s[1..];
  }

  /** A list of one list: whatever is inside, closed again. */
  lemma {:induction false} OneElement(f: Floats, inner: Bytes, rest: Bytes, depth: nat)
    requires depth <= 128 && inner != [] && inner[0] == 91
    ensures var s := [91] + inner;
            && (depth == 128 ==> ValueAt(f, s, depth) == Fail(TooDeep, |s|))
            && (depth < 128 && ValueAt(f, inner, depth + 1).Fail? ==> ValueAt(f, s, depth) == ValueAt(f, inner, depth + 1))
            && (depth < 128 && ValueAt(f, inner, depth + 1).Done? && ValueAt(f, inner, depth + 1).rest == [93] + rest ==>
                  ValueAt(f, s, depth) == Done(Arr([ValueAt(f, inner, depth + 1).value]), rest))
  {
    var s, tail := [91] + inner, [93] + rest;
    assert s[1..] == inner && SkipBlanks(s) == s && SkipBlanks(inner) == inner;
    assert SkipBlanks(tail) == tail && tail[1..] == rest;
    var one := ValueAt(f, inner, depth + 1);
    assert depth < 128 ==> ValueAt(f, s, depth) == Elements(f, inner, depth + 1, []);
    assert one.Done? ==> [] + [one.value] == [one.value];
  }

  /** n braces with an empty key each, closed again. */
  function Braces(n: nat): Bytes { if n == 0 then [110, 117, 108, 108] else [123, 34, 34, 58] + Braces(n - 1) + [125] }

  function Objects(n: nat): Json { if n == 0 then Null else Obj([Member([], Objects(n - 1))]) }

  lemma {:induction false} BracesLength(n: nat)
    ensures |Braces(n)| == 5 * n + 4 && Braces(n)[0] == if n == 0 then 110 else 123
  {
    if n > 0 {
      BracesLength(n - 1);
    }
  }

  /** So it is with objects. */
  lemma {:induction false} ObjectDepthLimit(f: Floats, n: nat)
    ensures n <= 128 ==> Document(f, Braces(n)) == Done(Objects(n), [])
    ensures n > 128 ==> Document(f, Braces(n)) == Fail(TooDeep, 5 * n + 4 - 4 * 128)
  {
    BracesRead(f, n, 0, []);
    assert Braces(n) + [] == Braces(n);
  }

  lemma {:induction false} BracesRead(f: Floats, n: nat, depth: nat, rest: Bytes)
    requires depth <= 128 && (rest == [] || rest[0] == 125)
    ensures depth + n <= 128 ==> ValueAt(f, Braces(n) + rest, depth) == Done(Objects(n), rest)
    ensures depth + n > 128 ==> ValueAt(f, Braces(n) + rest, depth) == Fail(TooDeep, 5 * n + 4 + |rest| - 4 * (128 - depth))
    decreases n
  {
    BracesLength(n);
    var s, tail := Braces(n) + rest, [125] + rest;
    if n == 0 {
      assert s[..4] == JsonModel.NULL && s[4..] == rest;
      assert SkipBlanks(s) == s;
    } else {
      BracesLength(n - 1);
      var inner := Braces(n - 1) + tail;
      assert s == [123, 34, 34, 58] + inner;
      if depth < 128 {
        BracesRead(f, n - 1, depth + 1, tail);
      }
      OneField(f, inner, rest, depth);
      hide ValueAt, Braces;
    }
  }

  /** An object with one empty key: whatever it holds, closed again. */
  lemma {:induction false} OneField(f: Floats, inner: Bytes, rest: Bytes, depth: nat)
    requires depth <= 128 && inner != [] && !Blank(inner[0])
    ensures var s := [123, 34, 34, 58] + inner;
            && (depth == 128 ==> ValueAt(f, s, depth) == Fail(TooDeep, |s|))
            && (depth < 128 && ValueAt(f, inner, depth + 1).Fail? ==> ValueAt(f, s, depth) == ValueAt(f, inner, depth + 1))
            && (depth < 128 && ValueAt(f, inner, depth + 1).Done? && ValueAt(f, inner, depth + 1).rest == [125] + rest ==>
                  ValueAt(f, s, depth) == Done(Obj([Member([], ValueAt(f, inner, depth + 1).value)]), rest))
  {
    var s, tail := [123, 34, 34, 58] + inner, [125] + rest;
    if depth < 128 {
      OneKey(f, s, inner, depth);
      hide ValueAt, KeyAt;
      assert SkipBlanks(tail) == tail && tail[1..] == rest;
      var one := ValueAt(f, inner, depth + 1);
      assert one.Done? ==> [] + [Member([], one.value)] == [Member([], one.value)];
    } else {
      assert SkipBlanks(s) == s;
    }
  }

  /** An object with one empty key, and what its value is read as. */
  lemma {:induction false} OneKey(f: Floats, s: Bytes, inner: Bytes, depth: nat)
    requires depth < 128 && s == [123, 34, 34, 58] + inner && inner != [] && !Blank(inner[0])
    ensures ValueAt(f, s, depth) == Members(f, s[1..], depth + 1, []) && KeyAt(s[1..], []) == Done([], inner)
  {
    var t := [34, 34, 58] + inner;
    assert s[1..] == t && SkipBlanks(s) == s && SkipBlanks(t) == t;
    var u := [58] + inner;
    assert t[1..][0] == 34 && t[1..][1..] == u && u[1..] == inner && SkipBlanks(u) == u;
    assert StringAt(t) == Done([], u);
  }

  /** Blanks are allowed around every value. */
  lemma {:induction false} BlanksAround(f: Floats, a: Bytes, b: Bytes, c: Bytes, d: Bytes)
    requires (forall i | 0 <= i < |a| :: a[i] in [9, 10, 13, 32]) && (forall i | 0 <= i < |b| :: b[i] in [9, 10, 13, 32])
    requires (forall i | 0 <= i < |c| :: c[i] in [9, 10, 13, 32]) && (forall i | 0 <= i < |d| :: d[i] in [9, 10, 13, 32])
    ensures Document(f, a + [91] + b + [116, 114, 117, 101] + c + [93] + d) == Done(Arr([Bool(true)]), [])
  {
    var inner := Item(b, WordTrue, c);
    var item := Item(a, Array(LastItem(inner)), d);
    assert Blanks(a) && Blanks(b) && Blanks(c) && Blanks(d);
    assert ItemOk(f, inner, 127);
    ListOk(f, inner);
    assert ItemOk(f, item, 128);
    OneItem(f, inner, item);
    assert ItemText(f, inner, 127) == b + [116, 114, 117, 101] + c;
    hide ItemText, TreeText, ItemValue, Document, ItemOk;
    var text := a + [91] + b + [116, 114, 117, 101] + c + [93] + d;
    InBrackets(a, b, [116, 114, 117, 101], c, d);
    assert Denotes(f, text, Arr([Bool(true)]), item);
    DocumentIff(f, text, Arr([Bool(true)]));
  }

  lemma {:induction false} ListOk(f: Floats, inner: Item)
    requires ItemOk(f, inner, 127)
    ensures TreeOk(f, Array(LastItem(inner)), 128)
  {
    var items := LastItem(inner);
    assert items.item == inner && !items.MoreItems?;
    hide ItemOk;
    assert ItemsOk(f, items, 127);
  }

  lemma {:induction false} InBrackets(a: Bytes, b: Bytes, word: Bytes, c: Bytes, d: Bytes)
    ensures a + [91] + b + word + c + [93] + d == a + ([91] + (b + word + c) + [93]) + d
  {
    var inner := b + word + c;
    assert [91] + b + word + c + [93] == [91] + inner + [93];
    assert a + [91] + b + word + c + [93] == a + ([91] + b + word + c + [93]);
  }

  lemma {:induction false} OneItem(f: Floats, inner: Item, item: Item)
    requires ItemOk(f, inner, 127) && inner.tree == WordTrue && item.tree == Array(LastItem(inner)) && ItemOk(f, item, 128)
    ensures ItemText(f, item, 128) == item.before + ([91] + ItemText(f, inner, 127) + [93]) + item.after
    ensures ItemValue(f, item, 128) == Arr([Bool(true)])
  {
    assert ItemsText(f, LastItem(inner), 127) == ItemText(f, inner, 127) + [];
    assert ItemsText(f, LastItem(inner), 127) == ItemText(f, inner, 127);
    assert ItemValue(f, inner, 127) == Bool(true);
    assert ElementsOf(f, LastItem(inner), 127) == [Bool(true)];
  }

  // ---- refusals ------------------------------------------------------------------------------------------------------

  /** Nothing, a stray bracket, half a word, and more after a document. */
  lemma {:induction false} RefusedWords(f: Floats)
    ensures Document(f, []) == Fail(EndOfInput, 0)
    ensures Document(f, [93]) == Fail(Unexpected, 1)
    ensures Document(f, [116, 114, 117]) == Fail(BadLiteral, 3)
    ensures Document(f, [110, 117, 108, 108, 32, 110, 117, 108, 108]) == Fail(TrailingContent, 4)
  {
    var s: Bytes := [110, 117, 108, 108, 32, 110, 117, 108, 108];
    assert s[..4] == JsonModel.NULL && s[4..] == [32, 110, 117, 108, 108];
    assert ValueAt(f, s, 0) == Done(Null, s[4..]);
    assert s[4..][1..] == [110, 117, 108, 108];
    assert SkipBlanks(s[4..]) == [110, 117, 108, 108];
  }

  /** A minus alone, a leading zero, a point and an exponent without digits: at the start of the number. */
  lemma {:induction false} RefusedNumbers(f: Floats)
    ensures Document(f, [45]) == Fail(InvalidNumber, 1)
    ensures Document(f, [48, 49]) == Fail(LeadingZero, 2)
    ensures Document(f, [49, 46]) == Fail(NoFraction, 2)
    ensures Document(f, [49, 101]) == Fail(NoExponent, 2)
  {
    assert SkipDigits([46]) == [46] && SkipDigits([101]) == [101];
    assert [49, 46][1..] == [46] && [49, 101][1..] == [101] && [101][1..] == [] && [45][1..] == [];
  }

  /** A string that does not end: at its opening quote; a raw control byte or a bad sequence: where it is. */
  lemma {:induction false} RefusedStrings(f: Floats, c: byte)
    ensures Document(f, [34, 97]) == Fail(UnterminatedString, 2)
    ensures c < 32 ==> Document(f, [34, 97, c, 34]) == Fail(ControlCharacter, 2)
    ensures c >= 0x80 ==> Document(f, [34, 97, c, 34]) == Fail(InvalidUtf8, 2)
    ensures Document(f, [34, 92]) == Fail(UnterminatedEscape, 1)
  {
    assert [34, 97][1..] == [97] && [97][1..] == [] && [34, 92][1..] == [92];
    var s: Bytes := [34, 97, c, 34];
    assert s[1..] == [97, c, 34] && s[1..][1..] == [c, 34];
    assert SkipBlanks(s) == s && SkipBlanks([34, 97]) == [34, 97] && SkipBlanks([34, 92]) == [34, 92];
    assert Characters([97], [], 2) == Characters([], [] + [97], 2);
    assert c < 32 ==> Characters([c, 34], [97], 4) == Fail(ControlCharacter, 2);
    assert c >= 0x80 ==> SequenceLength([c, 34]) == 0;
    assert [] + [97] == [97];
  }

  /** One list of one word, and what is wrong behind the word. */
  lemma {:induction false} RefusedLists(f: Floats)
    ensures Document(f, [91, 116, 114, 117, 101]) == Fail(UnterminatedArray, 0)
    ensures Document(f, [91, 116, 114, 117, 101, 58]) == Fail(NoCommaOrBracket, 1)
    ensures Document(f, [91, 116, 114, 117, 101, 44, 93]) == Fail(Unexpected, 1)
  {
    OneWordList(f, []);
    OneWordList(f, [58]);
    OneWordList(f, [44, 93]);
    assert [91, 116, 114, 117, 101] + [] == [91, 116, 114, 117, 101];
    assert [91, 116, 114, 117, 101] + [58] == [91, 116, 114, 117, 101, 58];
    assert [91, 116, 114, 117, 101] + [44, 93] == [91, 116, 114, 117, 101, 44, 93];
    assert [44, 93][1..] == [93];
    assert ValueAt(f, [93], 1) == Fail(Unexpected, 1);
  }

  lemma {:induction false} OneWordList(f: Floats, rest: Bytes)
    requires rest == [] || !Blank(rest[0])
    ensures var r := ValueAt(f, [91, 116, 114, 117, 101] + rest, 0);
            && (rest == [] ==> r == Fail(UnterminatedArray, 0))
            && (rest != [] && rest[0] == 44 ==> r == Elements(f, rest[1..], 1, [Bool(true)]))
            && (rest != [] && rest[0] != 44 && rest[0] != 93 ==> r == Fail(NoCommaOrBracket, |rest|))
  {
    var s, t: Bytes := [91, 116, 114, 117, 101] + rest, [116, 114, 117, 101] + rest;
    assert s[1..] == t && SkipBlanks(s) == s && SkipBlanks(t) == t;
    assert t[..4] == TRUE && t[4..] == rest;
    assert ValueAt(f, t, 1) == Done(Bool(true), rest);
    assert ArrayAt(f, s, 0) == Elements(f, t, 1, []);
    assert [] + [Bool(true)] == [Bool(true)];
  }

  /** Objects: no key, no colon, and what is wrong behind a member. */
  lemma {:induction false} RefusedKeys(f: Floats)
    ensures Document(f, [123, 49, 125]) == Fail(NoKey, 2)
    ensures Document(f, [123, 34, 34, 125]) == Fail(NoColon, 1)
  {
    assert [123, 49, 125][1..] == [49, 125];
    var s: Bytes := [123, 34, 34, 125];
    assert s[1..] == [34, 34, 125] && s[1..][1..] == [34, 125] && [34, 125][1..] == [125];
    assert KeyAt([34, 34, 125], []) == Fail(NoColon, 1);
  }

  lemma {:induction false} RefusedObjects(f: Floats)
    ensures Document(f, [123, 34, 34, 58, 116, 114, 117, 101]) == Fail(UnterminatedObject, 0)
    ensures Document(f, [123, 34, 34, 58, 116, 114, 117, 101, 93]) == Fail(NoCommaOrBrace, 1)
  {
    var all: Bytes := [123, 34, 34, 58, 116, 114, 117, 101];
    OneMember(f, []);
    OneMember(f, [93]);
    hide ValueAt;
    assert all + [] == all && all + [93] == [123, 34, 34, 58, 116, 114, 117, 101, 93];
  }

  /** A key a second time: at its opening quote. */
  lemma {:induction false} RefusedTwice(f: Floats)
    ensures Document(f, [123, 34, 34, 58, 116, 114, 117, 101, 44, 34, 34, 58]) == Fail(DuplicateKey, 3)
  {
    var all: Bytes := [123, 34, 34, 58, 116, 114, 117, 101];
    OneMember(f, [44, 34, 34, 58]);
    assert all + [44, 34, 34, 58] == [123, 34, 34, 58, 116, 114, 117, 101, 44, 34, 34, 58];
    var again: Bytes := [34, 34, 58];
    assert [44, 34, 34, 58][1..] == again;
    KeyAgain();
    hide ValueAt, KeyAt;
  }

  lemma {:induction false} KeyAgain()
    ensures KeyAt([34, 34, 58], [Member([], Bool(true))]) == Fail(DuplicateKey, 3)
  {
    var again: Bytes := [34, 34, 58];
    assert again[1..] == [34, 58] && again[1..][1..] == [58];
    var members := [Member([], Bool(true))];
    assert !FreshKey(members, []) by { assert members[0].key == []; }
  }

  /** Unicode escapes: too short, no digit, a low surrogate alone, a high one alone, and a high one before
      something else; each at its first backslash. */
  lemma {:induction false} RefusedEscapes(c: byte)
    ensures Escape([92, 117, 49, 50, 34]) == Fail(TruncatedHex, 5)
    ensures !(48 <= c <= 57 || 65 <= c <= 70 || 97 <= c <= 102) ==> Escape([92, 117, 48, 48, c, 48]) == Fail(BadHex, 6)
    ensures Escape([92, 117, 68, 67, 48, 48]) == Fail(LoneLowSurrogate, 6)
    ensures Escape([92, 117, 68, 56, 48, 48, 34]) == Fail(UnpairedSurrogate, 7)
    ensures Escape([92, 117, 68, 56, 48, 48, 92, 117, 48, 48, 52, 49]) == Fail(BadLowSurrogate, 12)
  {
    assert [92, 117, 49, 50, 34][2..] == [49, 50, 34];
    assert [92, 117, 48, 48, c, 48][2..] == [48, 48, c, 48];
    assert [92, 117, 68, 67, 48, 48][2..] == [68, 67, 48, 48];
    assert Hex4([68, 67, 48, 48], 6).value == 0xDC00;
    assert [92, 117, 68, 56, 48, 48, 34][2..] == [68, 56, 48, 48, 34];
    assert Hex4([68, 56, 48, 48, 34], 7) == Done(0xD800, [34]);
    var s: Bytes := [92, 117, 68, 56, 48, 48, 92, 117, 48, 48, 52, 49];
    assert s[2..] == [68, 56, 48, 48, 92, 117, 48, 48, 52, 49] && s[2..][4..] == [92, 117, 48, 48, 52, 49] && s[2..][4..][2..] == [48, 48, 52, 49];
    assert Hex4(s[2..], 12) == Done(0xD800, [92, 117, 48, 48, 52, 49]);
    assert Hex4([48, 48, 52, 49], 12).value == 0x41;
  }

  lemma {:induction false} OneMember(f: Floats, rest: Bytes)
    requires rest == [] || !Blank(rest[0])
    ensures var r := ValueAt(f, [123, 34, 34, 58, 116, 114, 117, 101] + rest, 0);
            && (rest == [] ==> r == Fail(UnterminatedObject, 0))
            && (rest != [] && rest[0] == 44 ==> r == Members(f, rest[1..], 1, [Member([], Bool(true))]))
            && (rest != [] && rest[0] != 44 && rest[0] != 125 ==> r == Fail(NoCommaOrBrace, |rest|))
  {
    var s, u: Bytes := [123, 34, 34, 58, 116, 114, 117, 101] + rest, [116, 114, 117, 101] + rest;
    assert s == [123, 34, 34, 58] + u;
    OneKey(f, s, u, 0);
    OneWord(f, rest, 1);
    hide ValueAt, KeyAt, Blank;
    NoBlank(rest);
    assert [] + [Member([], Bool(true))] == [Member([], Bool(true))];
  }

  lemma {:induction false} OneWord(f: Floats, rest: Bytes, depth: nat)
    ensures ValueAt(f, [116, 114, 117, 101] + rest, depth) == Done(Bool(true), rest)
  {
    var u: Bytes := [116, 114, 117, 101] + rest;
    assert SkipBlanks(u) == u && u[..4] == TRUE && u[4..] == rest;
  }

  lemma {:induction false} NoBlank(rest: Bytes)
    requires rest == [] || !Blank(rest[0])
    ensures SkipBlanks(rest) == rest
  {
  }
}
