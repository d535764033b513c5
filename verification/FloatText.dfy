/** The text of a shortest decimal: where the point goes, and the exact digits of large integers by
    doubling in a fixed buffer. */
module FloatText {
  import opened Basics
  import opened Utf8
  import opened JsonModel
  import opened JsonSyntax
  import opened JsonNumbers

  function Power(b: nat, n: nat): (r: nat)
    requires b > 0
    ensures r > 0
  {
    if n == 0 then 1 else b * Power(b, n - 1)
  }

  lemma {:induction false} PowerMore(n: nat)
    ensures Power(10, n + 1) == 10 * Power(10, n)
  {
  }

  lemma {:induction false} PowerUp(a: nat, b: nat)
    requires a <= b
    ensures Power(10, a) <= Power(10, b)
    decreases b
  {
    if a < b {
      PowerUp(a, b - 1);
    }
  }

  lemma {:induction false} PowerTwoUp(a: nat, b: nat)
    requires a <= b
    ensures Power(2, a) <= Power(2, b)
    decreases b
  {
    if a < b {
      PowerTwoUp(a, b - 1);
    }
  }

  /** The number a digit string spells. */
  function Value(s: Bytes): nat { DigitsValue(s, 0) }

  lemma {:induction false} ValueFrom(s: Bytes, sofar: nat)
    requires AllDigits(s)
    ensures DigitsValue(s, sofar) == sofar * Power(10, |s|) + Value(s)
    decreases |s|
  {
    if s != [] {
      var d: nat := s[0] as int - 48;
      ValueFrom(s[1..], sofar * 10 + d);
      ValueFrom(s[1..], d);
      Spread(sofar, d, Power(10, |s| - 1));
    }
  }

  lemma {:induction false} Spread(a: nat, d: nat, p: nat)
    ensures (a * 10 + d) * p == a * (10 * p) + d * p
  {
  }

  /** Digits in front count by their place. */
  lemma {:induction false} ValueCons(c: byte, s: Bytes)
    requires Digit(c) && AllDigits(s)
    ensures AllDigits([c] + s) && Value([c] + s) == (c as int - 48) * Power(10, |s|) + Value(s)
  {
    assert ([c] + s)[1..] == s;
    ValueFrom(s, c as int - 48);
  }

  /** A digit string stays below the power of its length, and without a leading zero reaches the one before. */
  lemma {:induction false} ValueBounds(s: Bytes)
    requires AllDigits(s)
    ensures Value(s) < Power(10, |s|)
    ensures s != [] && s[0] != ZERO ==> Power(10, |s| - 1) <= Value(s)
    decreases |s|
  {
    if s != [] {
      ValueBounds(s[1..]);
      assert s == [s[0]] + s[1..];
      ValueCons(s[0], s[1..]);
      DigitPlace(s[0] as int - 48, Power(10, |s| - 1), Value(s[1..]));
    }
  }

  lemma {:induction false} DigitPlace(d: nat, p: nat, v: nat)
    requires d <= 9 && v < p
    ensures d * p + v < 10 * p && (d > 0 ==> p <= d * p + v)
  {
    if d > 0 {
      assert d * p >= p by { MulUp(1, d, p); }
    }
    assert d * p <= 9 * p by { MulUp(d, 9, p); }
  }

  lemma {:induction false} MulUp(a: nat, b: nat, p: nat)
    requires a <= b
    ensures a * p <= b * p
  {
  }

  const BUFFER: nat := 32

  /** One doubling pass, from the last digit to the first: the doubled digits and the carry left over. */
  method DoubleDigits(digits: array<byte>, len: nat) returns (carry: nat)
    requires digits.Length == BUFFER && len <= BUFFER && AllDigits(digits[..len])
    modifies digits
    ensures AllDigits(digits[..len]) && carry <= 1
    ensures carry * Power(10, len) + Value(digits[..len]) == 2 * Value(old(digits[..len]))
  {
    ghost var before := digits[..len];
    carry := 0;
    var i: nat := len;
    while i > 0
      invariant i <= len && carry <= 1 && digits[..i] == before[..i]
      invariant Doubled(digits[i..len], before[i..], carry)
    {
      i := i - 1;
      ghost var tail, carry0 := digits[i + 1..len], carry;
      assert digits[i] == before[i] && before[i..] == [before[i]] + before[i + 1..];
      var doubled := (digits[i] as int - 48) * 2 + carry;
      digits[i] := 48 + doubled % 10;
      carry := doubled / 10;
      assert digits[i..len] == [digits[i]] + tail;
      OneDoubled(before[i], tail, before[i + 1..], carry0);
    }
    assert digits[0..len] == digits[..len] && before[0..] == before;
  }

  /** A tail of the digits doubled, with the carry it leaves. */
  ghost predicate Doubled(tail: Bytes, before: Bytes, carry: nat) {
    AllDigits(tail) && AllDigits(before) && |tail| == |before| && carry * Power(10, |tail|) + Value(tail) == 2 * Value(before)
  }

  lemma {:induction false} OneDoubled(was: byte, tail: Bytes, before: Bytes, carry: nat)
    requires Digit(was) && Doubled(tail, before, carry) && carry <= 1
    ensures var doubled := (was as int - 48) * 2 + carry;
            && 0 <= doubled <= 19
            && Doubled([48 + doubled % 10] + tail, [was] + before, doubled / 10)
  {
    var doubled := (was as int - 48) * 2 + carry;
    var now: byte := 48 + doubled % 10;
    ValueCons(now, tail);
    ValueCons(was, before);
    PowerMore(|tail|);
    DoubleStep(was as int - 48, doubled, carry, doubled / 10, Power(10, |tail|), Value(tail), Value(before));
  }

  lemma {:induction false} DoubleStep(d: nat, doubled: nat, carry0: nat, carry: nat, p: nat, v: nat, v0: nat)
    requires doubled == 2 * d + carry0 && carry == doubled / 10 && carry0 * p + v == 2 * v0
    ensures carry * (10 * p) + ((doubled % 10) * p + v) == 2 * (d * p + v0)
  {
    assert doubled == 10 * carry + doubled % 10;
    Spread(carry, doubled % 10, p);
    assert (carry * 10 + doubled % 10) * p == doubled * p;
    assert doubled * p == 2 * (d * p) + carry0 * p by { Halves(d, carry0, p); }
  }

  lemma {:induction false} Halves(d: nat, c: nat, p: nat)
    ensures (2 * d + c) * p == 2 * (d * p) + c * p
  {
  }

  /** Makes room in front for the carry. */
  method PushFront(digits: array<byte>, len: nat, c: byte)
    requires digits.Length == BUFFER && len < BUFFER
    modifies digits
    ensures digits[..len + 1] == [c] + old(digits[..len])
  {
    var i: nat := len;
    while i > 0
      invariant i <= len
      invariant forall k | 0 <= k < i :: digits[k] == old(digits[k])
      invariant forall k: nat | i < k <= len :: digits[k] == old(digits[k - 1])
    {
      digits[i] := digits[i - 1];
      i := i - 1;
    }
    digits[0] := c;
  }

  /** Digits without a leading zero. */
  ghost predicate Leading(s: Bytes) { s != [] && AllDigits(s) && s[0] != ZERO }

  /** Large enough for every magnitude that is spelled exactly. */
  const EXACT_DIGITS: nat := 23

  /** One doubling of the number in the buffer. */
  method DoubleNumber(digits: array<byte>, len: nat) returns (len': nat)
    requires digits.Length == BUFFER && len <= EXACT_DIGITS && Leading(digits[..len]) && 2 * Value(digits[..len]) < Power(10, EXACT_DIGITS)
    modifies digits
    ensures len' <= EXACT_DIGITS && Leading(digits[..len']) && Value(digits[..len']) == 2 * Value(old(digits[..len]))
  {
    ghost var before := digits[..len];
    var carry := DoubleDigits(digits, len);
    ghost var after := digits[..len];
    CarryOrKeep(before, after, carry);
    len' := len;
    if carry != 0 {
      PushFront(digits, len, 48 + carry);
      ValueCons(48 + carry, after);
      FitsBuffer([48 + carry] + after);
      len' := len + 1;
    }
  }

  const TWO53: nat := 0x20_0000_0000_0000

  /** The digits of a magnitude: directly below 2^53, else by doubling the decimal digits of its mantissa
      e2 times in place.  The buffer of 32 is never overrun. */
  method ExactIntegerDigits(magnitude: nat, mantissa: nat, e2: nat) returns (text: Bytes)
    requires magnitude < Power(10, EXACT_DIGITS)
    requires magnitude >= TWO53 ==> magnitude == mantissa * Power(2, e2)
    ensures text == Digits(magnitude)
  {
    if magnitude < TWO53 {
      return Digits(magnitude);
    }
    hide Power;
    NotZero(mantissa, Power(2, e2));
    var first := Digits(mantissa);
    DigitsAreWhole(mantissa);
    DigitsSpell(mantissa);
    StepBound(mantissa, 0, e2);
    FitsBuffer(first);
    var digits := new byte[BUFFER](i => if 0 <= i < |first| then first[i] else 48);
    var len: nat := |first|;
    assert digits[..len] == first;
    var step: nat := 0;
    while step < e2
      invariant step <= e2 && len <= EXACT_DIGITS && Leading(digits[..len]) && Value(digits[..len]) == mantissa * Power(2, step)
    {
      StepBound(mantissa, step + 1, e2);
      NextPower(mantissa, step);
      len := DoubleNumber(digits, len);
      step := step + 1;
    }
    SpelledOnce(digits[..len]);
    text := digits[..len];
  }

  lemma {:induction false} NotZero(m: nat, p: nat)
    ensures m * p > 0 ==> m > 0
  {
  }

  lemma {:induction false} NextPower(m: nat, step: nat)
    ensures m * Power(2, step + 1) == 2 * (m * Power(2, step))
  {
    Halves(m, 0, Power(2, step));
    Swap(m, Power(2, step));
  }

  lemma {:induction false} Swap(m: nat, p: nat)
    ensures m * (2 * p) == 2 * (m * p)
  {
  }

  lemma {:induction false} StepBound(m: nat, step: nat, e2: nat)
    requires step <= e2 && m * Power(2, e2) < Power(10, EXACT_DIGITS)
    ensures m * Power(2, step) < Power(10, EXACT_DIGITS) && Power(2, 0) == 1
  {
    PowerTwoUp(step, e2);
    MulUp(Power(2, step), Power(2, e2), m);
  }

  /** A whole number below 10^23 has at most 23 digits. */
  lemma {:induction false} FitsBuffer(s: Bytes)
    requires s != [] && AllDigits(s) && s[0] != ZERO && Value(s) < Power(10, EXACT_DIGITS)
    ensures |s| <= EXACT_DIGITS
  {
    ValueBounds(s);
    if |s| > EXACT_DIGITS {
      PowerUp(EXACT_DIGITS, |s| - 1);
    }
  }

  /** Without a carry the first digit is still not zero. */
  lemma {:induction false} CarryOrKeep(before: Bytes, after: Bytes, carry: nat)
    requires |before| == |after| > 0 && AllDigits(before) && AllDigits(after) && before[0] != ZERO && carry <= 1
    requires carry * Power(10, |after|) + Value(after) == 2 * Value(before)
    ensures carry == 0 ==> after[0] != ZERO && Value(after) == 2 * Value(before)
  {
    if carry == 0 && after[0] == ZERO {
      assert after == [after[0]] + after[1..];
      ValueCons(after[0], after[1..]);
      ValueBounds(after[1..]);
      ValueBounds(before);
      assert false;
    }
  }

  // ---- where the point goes ---------------------------------------------------------------------------

  /** A shortest decimal: significand * 10^exponent. */
  datatype Decimal = Decimal(negative: bool, significand: nat, exponent: int)

  /** The power of ten of the first digit. */
  function Scientific(d: Decimal): int { |Digits(d.significand)| as int - 1 + d.exponent }

  function ScientificLength(d: Decimal): int {
    var n, x := |Digits(d.significand)| as int, Scientific(d);
    (if n == 1 then 1 else n + 1) + 2 + (if x <= -100 || x >= 100 then 3 else 2)
  }

  function FixedLength(d: Decimal): int {
    var n, x := |Digits(d.significand)| as int, Scientific(d);
    if x >= n - 1 then x + 1 else if x >= 0 then n + 1 else n + 1 - x
  }

  function Zeros(n: nat): (r: Bytes)
    ensures |r| == n && AllDigits(r)
  {
    seq(n, _ => ZERO)
  }

  /** Exponent digits, at least two. */
  function ExponentDigits(n: nat): (r: Bytes)
    ensures r != []
  {
    (if n < 10 then [ZERO] else []) + Digits(n)
  }

  /** The token: the shorter of the fixed and the scientific form, ties to the fixed one; `exact` is the
      exact expansion used where there is no fraction. */
  function General(d: Decimal, exact: Bytes): Token {
    var digits, x := Digits(d.significand), Scientific(d);
    var n := |digits|;
    if FixedLength(d) <= ScientificLength(d) then
      if x >= n - 1 then Token(d.negative, exact, [], [])
      else if x >= 0 then Token(d.negative, digits[..x + 1], [DOT] + digits[x + 1..], [])
      else Token(d.negative, [ZERO], [DOT] + Zeros(-x - 1) + digits, [])
    else
      Token(d.negative, digits[..1], if n > 1 then [DOT] + digits[1..] else [],
            [LOWER_E, if x < 0 then MINUS else PLUS] + ExponentDigits(if x < 0 then -x else x))
  }

  function PointText(digits: Bytes, x: int): Bytes
    requires x < |digits| - 1
  {
    if x >= 0 then digits[..x + 1] + ([DOT] + digits[x + 1..]) else [ZERO] + ([DOT] + Zeros(-x - 1) + digits)
  }

  function ScientificText(digits: Bytes, x: int): Bytes
    requires digits != []
  {
    digits[..1] + (if |digits| > 1 then [DOT] + digits[1..] else [])
    + ([LOWER_E, if x < 0 then MINUS else PLUS] + ExponentDigits(if x < 0 then -x else x))
  }

  /** The three forms, spelled out. */
  lemma {:induction false} Forms(d: Decimal, exact: Bytes)
    ensures var digits := Digits(d.significand);
            var n, x := |digits|, |digits| as int - 1 + d.exponent;
            var sign := if d.negative then [MINUS] else [];
            var sciLen := (if n == 1 then 1 else n + 1) + 2 + (if x <= -100 || x >= 100 then 3 else 2);
            var fixedLen := if x >= n - 1 then x + 1 else if x >= 0 then n + 1 else n + 1 - x;
            && (Exact(d) <==> fixedLen <= sciLen && x >= n - 1)
            && Spelled(General(d, exact)) ==
               sign + (if fixedLen <= sciLen then if x >= n - 1 then exact else PointText(digits, x) else ScientificText(digits, x))
  {
    hide Digits, Spelled, ExponentDigits, Zeros;
    var t := General(d, exact);
    Spelling(t.negative, t.whole, t.fraction, t.exponent);
  }

  lemma {:induction false} Spelling(negative: bool, w: Bytes, fr: Bytes, ex: Bytes)
    ensures var sign := if negative then [MINUS] else [];
            && Spelled(Token(negative, w, fr, ex)) == sign + (w + fr + ex)
            && (ex == [] ==> Spelled(Token(negative, w, fr, ex)) == sign + (w + fr))
            && (ex == [] && fr == [] ==> Spelled(Token(negative, w, fr, ex)) == sign + w)
  {
  }

  class Text {
    var out: Bytes

    constructor ()
      ensures out == []
    {
      out := [];
    }

    /** Appends the decimal's text; the exact digits of the magnitude it is the shortest decimal of come
        from the buffer where they are needed. */
    method AppendGeneral(d: Decimal, magnitude: nat, mantissa: nat, e2: nat)
      requires d.significand > 0 && |Digits(d.significand)| <= MOST_DIGITS
      requires Exact(d) ==> Near(d, magnitude) && (magnitude >= TWO53 ==> magnitude == mantissa * Power(2, e2))
      modifies this
      ensures out == old(out) + Spelled(General(d, Digits(magnitude)))
    {
      hide *;
      ghost var start, sign := out, if d.negative then [MINUS] else [];
      if d.negative {
        out := out + [MINUS];
      }
      assert out == start + sign;
      var digits := Digits(d.significand);
      var n := |digits|;
      var x := n - 1 + d.exponent;
      var expDigits := if x <= -100 || x >= 100 then 3 else 2;
      var sciLen := (if n == 1 then 1 else n + 1) + 2 + expDigits;
      var fixedLen := if x >= n - 1 then x + 1 else if x >= 0 then n + 1 else n + 1 - x;
      Forms(d, Digits(magnitude));
      if fixedLen <= sciLen {
        if x >= n - 1 {
          ExactIsBounded(d, magnitude);
          var exact := ExactIntegerDigits(magnitude, mantissa, e2);
          Regroup(start, sign, exact);
          out := out + exact;
        } else {
          Regroup(start, sign, PointText(digits, x));
          AppendPoint(digits, x);
        }
      } else {
        Regroup(start, sign, ScientificText(digits, x));
        AppendScientific(digits, x);
      }
    }

    /** Digits with the point inside them, or after leading zeros. */
    method AppendPoint(digits: Bytes, x: int)
      requires digits != [] && x < |digits| - 1
      modifies this
      ensures out == old(out) + PointText(digits, x)
    {
      if x >= 0 {
        out := out + digits[..x + 1];
        out := out + [DOT];
        out := out + digits[x + 1..];
      } else {
        out := out + [ZERO, DOT];
        out := out + Zeros(-x - 1);
        out := out + digits;
      }
    }

    /** One digit, the others after a point, and an exponent of at least two digits. */
    method AppendScientific(digits: Bytes, x: int)
      requires digits != []
      modifies this
      ensures out == old(out) + ScientificText(digits, x)
    {
      hide Digits;
      out := out + digits[..1];
      if |digits| > 1 {
        out := out + [DOT];
        out := out + digits[1..];
      }
      out := out + [LOWER_E];
      out := out + [if x < 0 then MINUS else PLUS];
      var exponent := Digits(if x < 0 then -x else x);
      ShortExponent(if x < 0 then -x else x);
      if |exponent| < 2 {
        out := out + [ZERO];
      }
      out := out + exponent;
    }
  }

  /** The form that needs the exact expansion: an integer, fixed. */
  predicate Exact(d: Decimal) { FixedLength(d) <= ScientificLength(d) && Scientific(d) >= |Digits(d.significand)| - 1 }

  lemma {:induction false} ShortExponent(n: nat)
    ensures |Digits(n)| < 2 <==> n < 10
  {
    if n >= 10 {
      DigitsAreWhole(n / 10);
    }
  }

  /** A shortest decimal has at most 17 digits. */
  const MOST_DIGITS: nat := 17

  /** A shortest decimal of at most 17 digits is sent to the exact expansion only below 10^22. */
  lemma {:induction false} ExactIsSmall(d: Decimal)
    requires |Digits(d.significand)| <= MOST_DIGITS && Exact(d)
    ensures 0 <= d.exponent && Scientific(d) <= 21
  {
  }

  /** The magnitude is less than twice its decimal: a shortest decimal is far closer than that. */
  predicate Near(d: Decimal, magnitude: nat) { d.exponent >= 0 ==> magnitude < 2 * (d.significand * Power(10, d.exponent)) }

  /** So every magnitude that is spelled exactly has at most 23 digits. */
  lemma {:induction false} ExactIsBounded(d: Decimal, magnitude: nat)
    requires |Digits(d.significand)| <= MOST_DIGITS && Exact(d) && Near(d, magnitude)
    ensures magnitude < Power(10, EXACT_DIGITS)
  {
    ExactIsSmall(d);
    var digits, e: nat := Digits(d.significand), d.exponent;
    DigitsAreWhole(d.significand);
    DigitsSpell(d.significand);
    ValueBounds(digits);
    MulUp(d.significand, Power(10, |digits|), Power(10, e));
    PowerSum(|digits|, e);
    PowerUp(|digits| + e, 22);
    PowerMore(22);
  }

  lemma {:induction false} PowerSum(a: nat, b: nat)
    ensures Power(10, a) * Power(10, b) == Power(10, a + b)
    decreases a
  {
    if a > 0 {
      PowerSum(a - 1, b);
      Swap10(Power(10, a - 1), Power(10, b));
    }
  }

  lemma {:induction false} Swap10(p: nat, q: nat)
    ensures (10 * p) * q == 10 * (p * q)
  {
  }

  lemma {:induction false} SubDigits(s: Bytes, i: nat, j: nat)
    requires AllDigits(s) && i <= j <= |s|
    ensures AllDigits(s[i..j])
  {
  }

  /** The text is a number token of section 6 of RFC 8259. */
  lemma {:induction false} GeneralIsToken(d: Decimal, exact: Bytes)
    requires d.significand > 0 && IsWhole(exact)
    ensures IsToken(General(d, exact))
  {
    var digits, x := Digits(d.significand), Scientific(d);
    DigitsAreWhole(d.significand);
    var e := if x < 0 then -x else x;
    DigitsAreWhole(e);
    assert AllDigits(ExponentDigits(e));
    if FixedLength(d) <= ScientificLength(d) {
      if x < |digits| - 1 && x < 0 {
        assert ([DOT] + Zeros(-x - 1) + digits)[1..] == Zeros(-x - 1) + digits;
      } else if x < |digits| - 1 {
        SubDigits(digits, x + 1, |digits|);
        assert ([DOT] + digits[x + 1..])[1..] == digits[x + 1..];
      }
    } else {
      var ex := General(d, exact).exponent;
      assert ex[2..] == ExponentDigits(e);
      assert |digits| > 1 ==> ([DOT] + digits[1..])[1..] == digits[1..];
    }
  }

  /** The digits of a token without its point, and the power of ten they are counted in. */
  function Mantissa(t: Token): Bytes { t.whole + if t.fraction == [] then [] else t.fraction[1..] }

  function ScaleOf(t: Token): int {
    var shift := if t.fraction == [] then 0 else |t.fraction| - 1;
    var e := if |t.exponent| < 2 then 0 else if t.exponent[1] == MINUS then 0 - Value(t.exponent[2..]) else Value(t.exponent[2..]);
    e - shift
  }

  lemma {:induction false} LeadingZeros(n: nat, s: Bytes)
    requires AllDigits(s)
    ensures AllDigits(Zeros(n) + s) && Value(Zeros(n) + s) == Value(s)
    decreases n
  {
    if n == 0 {
      assert Zeros(0) + s == s;
    } else {
      LeadingZeros(n - 1, s);
      assert Zeros(n) + s == [ZERO] + (Zeros(n - 1) + s);
      ValueCons(ZERO, Zeros(n - 1) + s);
    }
  }

  lemma {:induction false} ExponentValue(e: nat)
    ensures AllDigits(ExponentDigits(e)) && Value(ExponentDigits(e)) == e
  {
    DigitsAreWhole(e);
    DigitsSpell(e);
    if e < 10 {
      ValueCons(ZERO, Digits(e));
      assert 0 * Power(10, |Digits(e)|) == 0;
    } else {
      assert ExponentDigits(e) == Digits(e);
    }
  }

  lemma {:induction false} PointDenotes(d: Decimal, exact: Bytes)
    requires d.significand > 0 && !Exact(d) && FixedLength(d) <= ScientificLength(d)
    ensures Value(Mantissa(General(d, exact))) == d.significand && ScaleOf(General(d, exact)) == d.exponent
  {
    hide Digits;
    var t, digits, x := General(d, exact), Digits(d.significand), Scientific(d);
    DigitsAreWhole(d.significand);
    DigitsSpell(d.significand);
    if x >= 0 {
      assert t.fraction[1..] == digits[x + 1..];
      assert Mantissa(t) == digits;
    } else {
      assert t.fraction[1..] == Zeros(-x - 1) + digits;
      assert Mantissa(t) == Zeros(-x) + digits;
      LeadingZeros(-x, digits);
    }
  }

  /** Every form but the exact expansion denotes exactly significand * 10^exponent. */
  lemma {:induction false} GeneralDenotes(d: Decimal, exact: Bytes)
    requires d.significand > 0 && !Exact(d)
    ensures Value(Mantissa(General(d, exact))) == d.significand && ScaleOf(General(d, exact)) == d.exponent
  {
    if FixedLength(d) <= ScientificLength(d) {
      PointDenotes(d, exact);
    } else {
      hide Digits;
      var t, digits, x := General(d, exact), Digits(d.significand), Scientific(d);
      var e := if x < 0 then -x else x;
      DigitsSpell(d.significand);
      ExponentValue(e);
      assert t.exponent[2..] == ExponentDigits(e);
      assert t.fraction != [] ==> t.fraction[1..] == digits[1..];
      assert Mantissa(t) == digits;
    }
  }

  /** And is as long as was reckoned, sign apart: so the shorter form was chosen. */
  lemma {:induction false} GeneralLength(d: Decimal, exact: Bytes)
    requires d.significand > 0 && !Exact(d) && -1000 < Scientific(d) < 1000
    ensures |Spelled(General(d, exact))| - (if d.negative then 1 else 0)
            == if FixedLength(d) <= ScientificLength(d) then FixedLength(d) else ScientificLength(d)
  {
    var x := Scientific(d);
    var e := if x < 0 then -x else x;
    DigitCount(e);
  }

  lemma {:induction false} DigitCount(n: nat)
    requires n < 1000
    ensures |Digits(n)| == if n < 10 then 1 else if n < 100 then 2 else 3
  {
    assert n >= 10 ==> Digits(n) == Digits(n / 10) + [ZERO + n % 10];
    assert n >= 100 ==> Digits(n / 10) == Digits(n / 10 / 10) + [ZERO + n / 10 % 10];
  }

  // ---- the two forms side by side --------------------------------------------------------------------

  /** The decimal written without an exponent, by where its point falls. */
  function Plainly(digits: Bytes, exponent: int): Bytes {
    var n := |digits|;
    if exponent >= 0 then digits + Zeros(exponent)
    else if n + exponent > 0 then digits[..n + exponent] + [46] + digits[n + exponent..]
    else [48, 46] + Zeros(-exponent - n) + digits
  }

  /** The decimal with its first digit before the point, and an exponent of at least two digits. */
  function WithExponent(digits: Bytes, exponent: int): Bytes
    requires digits != []
  {
    var x := |digits| as int - 1 + exponent;
    var e := Digits(if x < 0 then -x else x);
    digits[..1] + (if |digits| == 1 then [] else [46] + digits[1..]) + [101] + (if x < 0 then [45] else [43]) + (if |e| == 1 then [48] else []) + e
  }

  /** What is written is the shorter of the two, ties plainly; a whole number's own digits stand in where it
      is plain and has no point. */
  lemma {:induction false} ShorterIsChosen(d: Decimal, exact: Bytes)
    requires d.significand > 0 && -1000 < Scientific(d) < 1000
    ensures var digits := Digits(d.significand);
            var plain, scientific := Plainly(digits, d.exponent), WithExponent(digits, d.exponent);
            var chosen := if |plain| > |scientific| then scientific else if d.exponent >= 0 then exact else plain;
            Spelled(General(d, exact)) == if d.negative then [45] + chosen else chosen
  {
    var digits := Digits(d.significand);
    Forms(d, exact);
    PlainlyIs(digits, d.exponent);
    WithExponentIs(digits, d.exponent);
    hide *;
    SameScientific(d);
  }

  lemma {:induction false} SameScientific(d: Decimal)
    ensures Scientific(d) == |Digits(d.significand)| - 1 + d.exponent
  {
  }

  lemma {:induction false} PlainlyIs(digits: Bytes, exponent: int)
    requires digits != []
    ensures var n, x := |digits|, |digits| - 1 + exponent;
            && |Plainly(digits, exponent)| == (if x >= n - 1 then x + 1 else if x >= 0 then n + 1 else n + 1 - x)
            && (x < n - 1 ==> PointText(digits, x) == Plainly(digits, exponent))
  {
    var n, x := |digits|, |digits| - 1 + exponent;
    if x < n - 1 {
      PointIs(digits, exponent);
    }
    hide PointText;
  }

  lemma {:induction false} PointIs(digits: Bytes, exponent: int)
    requires digits != [] && exponent < 0
    ensures PointText(digits, |digits| - 1 + exponent) == Plainly(digits, exponent)
  {
    var n, x := |digits|, |digits| - 1 + exponent;
    if x >= 0 {
      assert digits[..x + 1] + ([46] + digits[x + 1..]) == digits[..x + 1] + [46] + digits[x + 1..];
    } else {
      assert [48] + ([46] + Zeros(-x - 1) + digits) == [48, 46] + Zeros(-x - 1) + digits;
    }
  }

  lemma {:induction false} WithExponentIs(digits: Bytes, exponent: int)
    requires digits != [] && -1000 < |digits| - 1 + exponent < 1000
    ensures var n, x := |digits|, |digits| - 1 + exponent;
            && |WithExponent(digits, exponent)| == (if n == 1 then 1 else n + 1) + 2 + (if x <= -100 || x >= 100 then 3 else 2)
            && ScientificText(digits, x) == WithExponent(digits, exponent)
  {
    var x := |digits| - 1 + exponent;
    var e: nat := if x < 0 then -x else x;
    DigitCount(e);
    ShortExponent(e);
    hide Digits;
    assert ExponentDigits(e) == (if |Digits(e)| == 1 then [48] else []) + Digits(e);
    assert [LOWER_E, if x < 0 then MINUS else PLUS] == [101] + if x < 0 then [45] else [43];
  }
}
