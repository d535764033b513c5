/** JSON values and the text the writer gives them. */
module JsonModel {
  import opened Basics
  import opened Utf8

  /** A double, by its bit pattern. */
  datatype Double = Double(bits: nat)

  datatype Json =
    | Null
    | Bool(b: bool)
    | Int(n: int)
    | Num(d: Double)
    | Str(s: Bytes)
    | Arr(elements: seq<Json>)
    | Obj(members: seq<Member>)

  datatype Member = Member(key: Bytes, value: Json)

  /** The float conversions, uninterpreted. */
  datatype Floats = Floats(text: Double -> Bytes, finite: Double -> bool, read: Bytes -> Option<Double>, negativeZero: Double)

  const LINE_FEED: byte := 10
  const QUOTE: byte := 34
  const PLUS: byte := 43
  const COMMA: byte := 44
  const MINUS: byte := 45
  const DOT: byte := 46
  const SLASH: byte := 47
  const ZERO: byte := 48
  const COLON: byte := 58
  const UPPER_E: byte := 69
  const LBRACKET: byte := 91
  const BACKSLASH: byte := 92
  const RBRACKET: byte := 93
  const LOWER_B: byte := 98
  const LOWER_E: byte := 101
  const LOWER_F: byte := 102
  const LOWER_N: byte := 110
  const LOWER_R: byte := 114
  const LOWER_T: byte := 116
  const LOWER_U: byte := 117
  const LBRACE: byte := 123
  const RBRACE: byte := 125

  const TRUE: Bytes := [116, 114, 117, 101]
  const FALSE: Bytes := [102, 97, 108, 115, 101]
  const NULL: Bytes := [110, 117, 108, 108]

  const INT_MIN := -0x8000_0000_0000_0000
  const INT_MAX := 0x7FFF_FFFF_FFFF_FFFF

  predicate Digit(c: byte) { ZERO <= c <= 57 }

  // ---- the writer's text -----------------------------------------------------------------------

  function HexDigit(d: nat): byte
    requires d < 16
  {
    if d < 10 then ZERO + d else 97 + (d - 10)
  }

  /** One byte of a string, escaped where it must be. */
  function EscapedByte(c: byte): (r: Bytes)
    ensures 1 <= |r| <= 6
  {
    if c == QUOTE then [BACKSLASH, QUOTE]
    else if c == BACKSLASH then [BACKSLASH, BACKSLASH]
    else if c == 10 then [BACKSLASH, LOWER_N]
    else if c == 9 then [BACKSLASH, LOWER_T]
    else if c == 13 then [BACKSLASH, LOWER_R]
    else if c == 8 then [BACKSLASH, LOWER_B]
    else if c == 12 then [BACKSLASH, LOWER_F]
    else if c < 0x20 then [BACKSLASH, LOWER_U, ZERO, ZERO, HexDigit(c / 16), HexDigit(c % 16)]
    else [c]
  }

  function EscapedBytes(s: Bytes): Bytes {
    if s == [] then [] else EscapedByte(s[0]) + EscapedBytes(s[1..])
  }

  function Quoted(s: Bytes): Bytes { [QUOTE] + EscapedBytes(s) + [QUOTE] }

  function Digits(n: nat): (r: Bytes)
    ensures |r| > 0
  {
    if n < 10 then [ZERO + n] else Digits(n / 10) + [ZERO + n % 10]
  }

  function IntText(n: int): (r: Bytes)
    ensures |r| > 0
  {
    if n < 0 then [MINUS] + Digits(-n) else Digits(n)
  }

  function Count(v: Json): nat { if v.Arr? then |v.elements| else if v.Obj? then |v.members| else 0 }

  function Text(f: Floats, v: Json): Bytes
    decreases v, Count(v) + 1
  {
    match v
    case Null => NULL
    case Bool(b) => if b then TRUE else FALSE
    case Int(n) => IntText(n)
    case Num(d) => if f.finite(d) then f.text(d) else NULL
    case Str(s) => Quoted(s)
    case Arr(elements) => [LBRACKET] + ElementsText(f, v, 0) + [RBRACKET]
    case Obj(members) => [LBRACE] + MembersText(f, v, 0) + [RBRACE]
  }

  /** The elements from i on, commas between them. */
  function ElementsText(f: Floats, v: Json, i: nat): Bytes
    requires v.Arr? && i <= |v.elements|
    decreases v, |v.elements| - i
  {
    if i == |v.elements| then []
    else if i + 1 == |v.elements| then Text(f, v.elements[i])
    else Text(f, v.elements[i]) + [COMMA] + ElementsText(f, v, i + 1)
  }

  function MembersText(f: Floats, v: Json, i: nat): Bytes
    requires v.Obj? && i <= |v.members|
    decreases v, |v.members| - i
  {
    if i == |v.members| then []
    else
      var one := Quoted(v.members[i].key) + [COLON] + Text(f, v.members[i].value);
      if i + 1 == |v.members| then one else one + [COMMA] + MembersText(f, v, i + 1)
  }

  // ---- which values -----------------------------------------------------------------------------

  const MAX_DEPTH := 128

  predicate FreshKey(members: seq<Member>, key: Bytes) {
    forall i | 0 <= i < |members| :: members[i].key != key
  }

  predicate DistinctKeys(members: seq<Member>) {
    forall i, j | 0 <= i < j < |members| :: members[i].key != members[j].key
  }

  /** A value the parser can give back at this depth budget: int64 integers, finite doubles, well-formed
      strings, distinct keys, and no deeper than the budget. */
  ghost predicate Good(f: Floats, v: Json, budget: nat)
    decreases v
  {
    match v
    case Null => true
    case Bool(_) => true
    case Int(n) => INT_MIN <= n <= INT_MAX
    case Num(d) => true
    case Str(s) => WellFormed(s)
    case Arr(elements) => budget > 0 && forall i | 0 <= i < |elements| :: Good(f, elements[i], budget - 1)
    case Obj(members) =>
      budget > 0 && DistinctKeys(members)
      && forall i | 0 <= i < |members| :: WellFormed(members[i].key) && Good(f, members[i].value, budget - 1)
  }
}
