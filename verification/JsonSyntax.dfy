/** What the strict parser accepts, as functions on the rest of the input. */
module JsonSyntax {
  import opened Basics
  import opened Utf8
  import opened JsonModel

  datatype Why =
    | EndOfInput | Unexpected | BadLiteral | TooDeep
    | NoKey | DuplicateKey | NoColon | UnterminatedObject | NoCommaOrBrace
    | UnterminatedArray | NoCommaOrBracket
    | UnterminatedString | ControlCharacter | InvalidUtf8
    | UnterminatedEscape | UnknownEscape | TruncatedHex | BadHex | LoneLowSurrogate | UnpairedSurrogate | BadLowSurrogate
    | InvalidNumber | LeadingZero | NoFraction | NoExponent | OutOfRange | TrailingContent

  /** A value and what follows it, or an error and how many bytes are left where it lies. */
  datatype Parsed<T> = Done(value: T, rest: Bytes) | Fail(why: Why, left: nat)

  predicate Blank(c: byte) { c == 32 || c == 9 || c == 10 || c == 13 }

  function SkipBlanks(s: Bytes): (r: Bytes)
    ensures |r| <= |s| && (r == [] || !Blank(r[0]))
  {
    if s != [] && Blank(s[0]) then SkipBlanks(s[1..]) else s
  }

  predicate StartsWith(s: Bytes, word: Bytes) { |word| <= |s| && s[..|word|] == word }

  // ---- strings -----------------------------------------------------------------------------------

  function HexValue(c: byte): int {
    if Digit(c) then c as int - 48
    else if 97 <= c <= 102 then c as int - 97 + 10
    else if 65 <= c <= 70 then c as int - 65 + 10
    else -1
  }

  /** Four hex digits; `left` is where an error is reported. */
  function Hex4(s: Bytes, left: nat): (r: Parsed<nat>)
    ensures r.Done? ==> |r.rest| == |s| - 4 && r.value < 0x1_0000
  {
    if |s| < 4 then Fail(TruncatedHex, left)
    else
      var a, b, c, d := HexValue(s[0]), HexValue(s[1]), HexValue(s[2]), HexValue(s[3]);
      if a < 0 || b < 0 || c < 0 || d < 0 then Fail(BadHex, left)
      else Done(((a * 16 + b) * 16 + c) * 16 + d, s[4..])
  }

  /** An escape sequence, from its backslash on: the bytes it stands for. */
  function Escape(s: Bytes): (r: Parsed<Bytes>)
    requires s != []
    ensures r.Done? ==> |r.rest| < |s|
  {
    if |s| == 1 then Fail(UnterminatedEscape, |s|)
    else
      var c, rest := s[1], s[2..];
      if c == QUOTE || c == BACKSLASH || c == SLASH then Done([c], rest)
      else if c == LOWER_N then Done([10], rest)
      else if c == LOWER_T then Done([9], rest)
      else if c == LOWER_R then Done([13], rest)
      else if c == LOWER_B then Done([8], rest)
      else if c == LOWER_F then Done([12], rest)
      else if c == LOWER_U then UnicodeEscape(rest, |s|)
      else Fail(UnknownEscape, |s|)
  }

  /** The digits after \u, and after a high surrogate its low partner. */
  function UnicodeEscape(s: Bytes, left: nat): (r: Parsed<Bytes>)
    ensures r.Done? ==> |r.rest| < |s|
  {
    var high := Hex4(s, left);
    if high.Fail? then Fail(high.why, high.left)
    else if 0xDC00 <= high.value <= 0xDFFF then Fail(LoneLowSurrogate, left)
    else if !(0xD800 <= high.value <= 0xDBFF) then Done(Encode(high.value), high.rest)
    else if |high.rest| < 2 || high.rest[0] != BACKSLASH || high.rest[1] != LOWER_U then Fail(UnpairedSurrogate, left)
    else
      var low := Hex4(high.rest[2..], left);
      if low.Fail? then Fail(low.why, low.left)
      else if low.value < 0xDC00 || low.value > 0xDFFF then Fail(BadLowSurrogate, left)
      else Done(Encode(0x1_0000 + (high.value - 0xD800) * 1024 + (low.value - 0xDC00)), low.rest)
  }

  /** The characters up to the closing quote, after `sofar`. */
  function Characters(s: Bytes, sofar: Bytes, start: nat): (r: Parsed<Bytes>)
    ensures r.Done? ==> |r.rest| < |s|
    decreases |s|
  {
    if s == [] then Fail(UnterminatedString, start)
    else if s[0] == QUOTE then Done(sofar, s[1..])
    else if s[0] == BACKSLASH then
      var e := Escape(s);
      if e.Fail? then Fail(e.why, e.left) else Characters(e.rest, sofar + e.value, start)
    else if s[0] < 0x20 then Fail(ControlCharacter, |s|)
    else if s[0] < 0x80 then Characters(s[1..], sofar + [s[0]], start)
    else
      var k := SequenceLength(s);
      if k == 0 then Fail(InvalidUtf8, |s|) else Characters(s[k..], sofar + s[..k], start)
  }

  /** A string, from its opening quote on. */
  function StringAt(s: Bytes): (r: Parsed<Bytes>)
    requires s != []
    ensures r.Done? ==> |r.rest| < |s|
  {
    Characters(s[1..], [], |s|)
  }

  // ---- numbers ------------------------------------------------------------------------------------

  function SkipDigits(s: Bytes): (r: Bytes)
    ensures |r| <= |s| && (r == [] || !Digit(r[0]))
  {
    if s != [] && Digit(s[0]) then SkipDigits(s[1..]) else s
  }

  /** The value of a run of digits, after `sofar`. */
  function DigitsValue(s: Bytes, sofar: nat): nat {
    if s == [] || !Digit(s[0]) then sofar else DigitsValue(s[1..], sofar * 10 + (s[0] as int - 48))
  }

  function Sign(s: Bytes): Bytes { if s != [] && s[0] == MINUS then s[1..] else s }

  /** The integer part of a number. */
  function Whole(s: Bytes, left: nat): (r: Parsed<()>)
    ensures r.Done? ==> |r.rest| < |s|
  {
    if s == [] || !Digit(s[0]) then Fail(InvalidNumber, left)
    else if s[0] == ZERO then if |s| > 1 && Digit(s[1]) then Fail(LeadingZero, left) else Done((), s[1..])
    else Done((), SkipDigits(s[1..]))
  }

  /** The fraction; the value says whether there is one. */
  function Fraction(s: Bytes, left: nat): (r: Parsed<bool>)
    ensures r.Done? ==> |r.rest| <= |s|
  {
    if s == [] || s[0] != DOT then Done(false, s)
    else if |s| == 1 || !Digit(s[1]) then Fail(NoFraction, left)
    else Done(true, SkipDigits(s[1..]))
  }

  function Exponent(s: Bytes, left: nat): (r: Parsed<bool>)
    ensures r.Done? ==> |r.rest| <= |s|
  {
    if s == [] || (s[0] != LOWER_E && s[0] != UPPER_E) then Done(false, s)
    else
      var t := if |s| > 1 && (s[1] == PLUS || s[1] == MINUS) then s[2..] else s[1..];
      if t == [] || !Digit(t[0]) then Fail(NoExponent, left) else Done(true, SkipDigits(t))
  }

  /** The integer a run of digits with an optional sign spells, if it fits 64 bits. */
  function IntegerOf(token: Bytes): Option<int> {
    var n := DigitsValue(Sign(token), 0);
    var v: int := if token != [] && token[0] == MINUS then 0 - n else n;
    if INT_MIN <= v <= INT_MAX then Some(v) else None
  }

  /** What a complete number token means. */
  function NumberOf(f: Floats, token: Bytes, integral: bool): Option<Json> {
    var i := if integral then IntegerOf(token) else None;
    if i.Some? then Some(if token != [] && token[0] == MINUS && i.value == 0 then Num(f.negativeZero) else Int(i.value))
    else
      var d := f.read(token);
      if d.Some? then Some(Num(d.value)) else None
  }

  function NumberAt(f: Floats, s: Bytes): (r: Parsed<Json>)
    requires s != []
    ensures r.Done? ==> |r.rest| < |s|
  {
    var whole := Whole(Sign(s), |s|);
    if whole.Fail? then Fail(whole.why, whole.left)
    else
      var fraction := Fraction(whole.rest, |s|);
      if fraction.Fail? then Fail(fraction.why, fraction.left)
      else
        var exponent := Exponent(fraction.rest, |s|);
        if exponent.Fail? then Fail(exponent.why, exponent.left)
        else
          var v := NumberOf(f, s[..|s| - |exponent.rest|], !fraction.value && !exponent.value);
          if v.None? then Fail(OutOfRange, |s|) else Done(v.value, exponent.rest)
  }

  // ---- values --------------------------------------------------------------------------------------

  function LiteralAt(s: Bytes, word: Bytes, v: Json): (r: Parsed<Json>)
    requires word != []
    ensures r.Done? ==> |r.rest| < |s|
  {
    if StartsWith(s, word) then Done(v, s[|word|..]) else Fail(BadLiteral, |s|)
  }

  function ValueAt(f: Floats, s: Bytes, depth: nat): (r: Parsed<Json>)
    ensures r.Done? ==> |r.rest| < |s|
    decreases |s|, 2
  {
    var t := SkipBlanks(s);
    if t == [] then Fail(EndOfInput, 0)
    else if t[0] == LBRACE then ObjectAt(f, t, depth)
    else if t[0] == LBRACKET then ArrayAt(f, t, depth)
    else if t[0] == QUOTE then
      var str := StringAt(t);
      if str.Fail? then Fail(str.why, str.left) else Done(Str(str.value), str.rest)
    else if t[0] == LOWER_T then LiteralAt(t, TRUE, Bool(true))
    else if t[0] == LOWER_F then LiteralAt(t, FALSE, Bool(false))
    else if t[0] == LOWER_N then LiteralAt(t, JsonModel.NULL, Null)
    else if t[0] == MINUS || Digit(t[0]) then NumberAt(f, t)
    else Fail(Unexpected, |t|)
  }

  function ArrayAt(f: Floats, s: Bytes, depth: nat): (r: Parsed<Json>)
    requires s != []
    ensures r.Done? ==> |r.rest| < |s|
    decreases |s|, 1
  {
    if depth + 1 > MAX_DEPTH then Fail(TooDeep, |s|)
    else
      var t := SkipBlanks(s[1..]);
      if t != [] && t[0] == RBRACKET then Done(Arr([]), t[1..])
      else Elements(f, t, depth + 1, [])
  }

  /** The rest of an array, after the elements so far. */
  function Elements(f: Floats, s: Bytes, depth: nat, sofar: seq<Json>): (r: Parsed<Json>)
    ensures r.Done? ==> |r.rest| < |s|
    decreases |s|, 3
  {
    var one := ValueAt(f, s, depth);
    if one.Fail? then Fail(one.why, one.left)
    else
      var t := SkipBlanks(one.rest);
      if t == [] then Fail(UnterminatedArray, 0)
      else if t[0] == COMMA then Elements(f, t[1..], depth, sofar + [one.value])
      else if t[0] == RBRACKET then Done(Arr(sofar + [one.value]), t[1..])
      else Fail(NoCommaOrBracket, |t|)
  }

  function ObjectAt(f: Floats, s: Bytes, depth: nat): (r: Parsed<Json>)
    requires s != []
    ensures r.Done? ==> |r.rest| < |s|
    decreases |s|, 1
  {
    if depth + 1 > MAX_DEPTH then Fail(TooDeep, |s|)
    else
      var t := SkipBlanks(s[1..]);
      if t != [] && t[0] == RBRACE then Done(Obj([]), t[1..])
      else Members(f, t, depth + 1, [])
  }

  /** A key, its colon: the key and what follows. */
  function KeyAt(s: Bytes, sofar: seq<Member>): (r: Parsed<Bytes>)
    ensures r.Done? ==> |r.rest| < |s|
  {
    var t := SkipBlanks(s);
    if t == [] || t[0] != QUOTE then Fail(NoKey, |t|)
    else
      var key := StringAt(t);
      if key.Fail? then Fail(key.why, key.left)
      else if !FreshKey(sofar, key.value) then Fail(DuplicateKey, |t|)
      else
        var u := SkipBlanks(key.rest);
        if u == [] || u[0] != COLON then Fail(NoColon, |u|) else Done(key.value, u[1..])
  }

  function Members(f: Floats, s: Bytes, depth: nat, sofar: seq<Member>): (r: Parsed<Json>)
    ensures r.Done? ==> |r.rest| < |s|
    decreases |s|, 3
  {
    var key := KeyAt(s, sofar);
    if key.Fail? then Fail(key.why, key.left)
    else
      var one := ValueAt(f, key.rest, depth);
      if one.Fail? then Fail(one.why, one.left)
      else
        var all := sofar + [Member(key.value, one.value)];
        var t := SkipBlanks(one.rest);
        if t == [] then Fail(UnterminatedObject, 0)
        else if t[0] == COMMA then Members(f, t[1..], depth, all)
        else if t[0] == RBRACE then Done(Obj(all), t[1..])
        else Fail(NoCommaOrBrace, |t|)
  }

  /** Exactly one document. */
  function Document(f: Floats, text: Bytes): Parsed<Json> {
    var v := ValueAt(f, text, 0);
    if v.Fail? then v
    else
      var t := SkipBlanks(v.rest);
      if t == [] then Done(v.value, []) else Fail(TrailingContent, |t|)
  }
}
