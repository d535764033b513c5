/** Escapes from literal bytes: what every \u escape and every short escape stands for. */
module JsonEscapes {
  import opened Basics
  import opened Utf8
  import opened JsonModel
  import opened JsonSyntax
  import opened JsonGrammar

  /** 0123456789abcdef and 0123456789ABCDEF. */
  const LOWER: Bytes := [48, 49, 50, 51, 52, 53, 54, 55, 56, 57, 97, 98, 99, 100, 101, 102]
  const UPPER: Bytes := [48, 49, 50, 51, 52, 53, 54, 55, 56, 57, 65, 66, 67, 68, 69, 70]

  /** The sixteen digits in both cases, and no other byte, have a value. */
  lemma {:induction false} HexDigits(c: byte)
    ensures HexValue(c) >= 0 <==> c in LOWER || c in UPPER
    ensures forall d | 0 <= d < 16 :: HexValue(LOWER[d]) == d && HexValue(UPPER[d]) == d
  {
    if 48 <= c <= 57 {
      assert LOWER[c - 48] == c;
    } else if 97 <= c <= 102 {
      assert LOWER[c - 87] == c;
    } else if 65 <= c <= 70 {
      assert UPPER[c - 55] == c;
    }
  }

  /** A digit in either case. */
  function HexByte(d: nat, upper: bool): byte
    requires d < 16
  {
    if upper then UPPER[d] else LOWER[d]
  }

  /** Four digits, each in a case of its own. */
  function HexText(n: nat, cases: seq<bool>): Bytes
    requires n < 0x1_0000 && |cases| == 4
  {
    [HexByte(n / 4096, cases[0]), HexByte(n / 256 % 16, cases[1]), HexByte(n / 16 % 16, cases[2]), HexByte(n % 16, cases[3])]
  }

  lemma {:induction false} HexTextIs(n: nat, cases: seq<bool>)
    requires n < 0x1_0000 && |cases| == 4
    ensures FourHex(HexText(n, cases)) && HexNumber(HexText(n, cases)) == n
  {
    HexDigits(0);
    var d := HexText(n, cases);
    assert HexValue(d[0]) == n / 4096 && HexValue(d[1]) == n / 256 % 16 && HexValue(d[2]) == n / 16 % 16 && HexValue(d[3]) == n % 16;
    Sixteens(n);
  }

  lemma {:induction false} Sixteens(n: nat)
    requires n < 0x1_0000
    ensures ((n / 4096 * 16 + n / 256 % 16) * 16 + n / 16 % 16) * 16 + n % 16 == n
  {
    assert n == n / 16 * 16 + n % 16 && n / 16 == n / 256 * 16 + n / 16 % 16 && n / 256 == n / 4096 * 16 + n / 256 % 16;
  }

  /** A document that is one string of one character. */
  lemma {:induction false} OneCharacter(f: Floats, u: Unit)
    requires UnitOk(u)
    ensures Document(f, [QUOTE] + UnitText(u) + [QUOTE]) == Done(Str(UnitBytes(u)), [])
  {
    hide UnitOk, UnitText, UnitBytes, Document;
    var item := Item([], Text_([u]), []);
    assert [u][1..] == [];
    assert UnitsText([u]) == UnitText(u) + UnitsText([u][1..]) && UnitsBytes([u]) == UnitBytes(u) + UnitsBytes([u][1..]);
    assert UnitsText([u]) == UnitText(u) && UnitsBytes([u]) == UnitBytes(u);
    var text := [QUOTE] + UnitText(u) + [QUOTE];
    assert TreeOk(f, item.tree, MAX_DEPTH) && ItemOk(f, item, MAX_DEPTH);
    assert TreeText(f, item.tree, MAX_DEPTH) == text && ValueOf(f, item.tree, MAX_DEPTH) == Str(UnitBytes(u));
    assert ItemValue(f, item, MAX_DEPTH) == Str(UnitBytes(u));
    assert ItemText(f, item, MAX_DEPTH) == [] + text + [];
    assert Denotes(f, text, Str(UnitBytes(u)), item);
    DocumentIff(f, text, Str(UnitBytes(u)));
  }

  /** Every scalar below 2^16, escaped with digits in any mix of cases, is read as itself. */
  lemma {:induction false} EscapedScalar(f: Floats, cp: nat, cases: seq<bool>)
    requires cp < 0x1_0000 && Scalar(cp) && |cases| == 4
    ensures Document(f, [34, 92, 117] + HexText(cp, cases) + [34]) == Done(Str(Encode(cp)), [])
  {
    HexTextIs(cp, cases);
    hide HexText, HexNumber, FourHex, Document;
    var d := HexText(cp, cases);
    OneCharacter(f, Hex(d));
    assert [34, 92, 117] + d + [34] == [QUOTE] + UnitText(Hex(d)) + [QUOTE];
  }

  /** Every scalar from 2^16 on, as the pair of its surrogates in any mix of cases, is read as itself. */
  lemma {:induction false} EscapedPair(f: Floats, cp: nat, first: seq<bool>, second: seq<bool>)
    requires 0x1_0000 <= cp < 0x11_0000 && |first| == 4 && |second| == 4
    ensures var high, low := 0xD800 + (cp - 0x1_0000) / 1024, 0xDC00 + (cp - 0x1_0000) % 1024;
            Document(f, [34, 92, 117] + HexText(high, first) + [92, 117] + HexText(low, second) + [34]) == Done(Str(Encode(cp)), [])
  {
    var high, low := 0xD800 + (cp - 0x1_0000) / 1024, 0xDC00 + (cp - 0x1_0000) % 1024;
    HexTextIs(high, first);
    HexTextIs(low, second);
    var a, b := HexText(high, first), HexText(low, second);
    PairMade(a, b, cp);
    hide *;
    OneCharacter(f, Pair(a, b));
    PairSpelled(a, b);
  }

  lemma {:induction false} PairMade(a: Bytes, b: Bytes, cp: nat)
    requires 0x1_0000 <= cp < 0x11_0000 && FourHex(a) && FourHex(b)
    requires HexNumber(a) == 0xD800 + (cp - 0x1_0000) / 1024 && HexNumber(b) == 0xDC00 + (cp - 0x1_0000) % 1024
    ensures UnitOk(Pair(a, b)) && UnitBytes(Pair(a, b)) == Encode(cp)
    ensures UnitText(Pair(a, b)) == [92, 117] + a + [92, 117] + b
  {
    hide HexNumber, FourHex, Encode;
  }

  lemma {:induction false} PairSpelled(a: Bytes, b: Bytes)
    ensures [34, 92, 117] + a + [92, 117] + b + [34] == [QUOTE] + ([92, 117] + a + [92, 117] + b) + [QUOTE]
  {
  }

  /** The eight short escapes stand for quote, backslash, slash, backspace, form feed, newline, carriage
      return and tab; no other letter is one. */
  lemma {:induction false} ShortEscapes(f: Floats, letter: byte)
    ensures letter == 34 ==> Document(f, [34, 92, 34, 34]) == Done(Str([34]), [])
    ensures letter == 92 ==> Document(f, [34, 92, 92, 34]) == Done(Str([92]), [])
    ensures letter == 47 ==> Document(f, [34, 92, 47, 34]) == Done(Str([47]), [])
    ensures letter == 98 ==> Document(f, [34, 92, 98, 34]) == Done(Str([8]), [])
    ensures letter == 102 ==> Document(f, [34, 92, 102, 34]) == Done(Str([12]), [])
    ensures letter == 110 ==> Document(f, [34, 92, 110, 34]) == Done(Str([10]), [])
    ensures letter == 114 ==> Document(f, [34, 92, 114, 34]) == Done(Str([13]), [])
    ensures letter == 116 ==> Document(f, [34, 92, 116, 34]) == Done(Str([9]), [])
    ensures letter !in [34, 92, 47, 98, 102, 110, 114, 116, 117] ==> Document(f, [34, 92, letter, 34]) == Fail(UnknownEscape, 3)
  {
    if letter in [34, 92, 47, 98, 102, 110, 114, 116] {
      assert UnitOk(Short(letter));
      OneCharacter(f, Short(letter));
      assert [QUOTE] + UnitText(Short(letter)) + [QUOTE] == [34, 92, letter, 34];
    } else if letter != 117 {
      UnknownLetter(f, letter);
    }
  }

  /** Every other scalar value from the space on stands for itself. */
  lemma {:induction false} PlainCharacter(f: Floats, cp: nat)
    requires Scalar(cp) && cp >= 32 && cp != 34 && cp != 92
    ensures Document(f, [34] + Encode(cp) + [34]) == Done(Str(Encode(cp)), [])
  {
    OneCharacter(f, Plain(cp));
    hide Encode, Document;
  }

  lemma {:induction false} UnknownLetter(f: Floats, letter: byte)
    requires letter !in [34, 92, 47, 98, 102, 110, 114, 116, 117]
    ensures Document(f, [34, 92, letter, 34]) == Fail(UnknownEscape, 3)
  {
    var s: Bytes := [34, 92, letter, 34];
    assert s[1..] == [92, letter, 34];
    assert SkipBlanks(s) == s;
    assert Characters(s[1..], [], 4) == Fail(UnknownEscape, 3);
  }
}
