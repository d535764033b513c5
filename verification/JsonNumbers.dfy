/** Number tokens: the grammar of section 6 of RFC 8259, and that the scanner reads exactly it. */
module JsonNumbers {
  import opened Basics
  import opened Utf8
  import opened JsonModel
  import opened JsonSyntax

  predicate AllDigits(s: Bytes) { forall i | 0 <= i < |s| :: Digit(s[i]) }

  predicate IsWhole(s: Bytes) { s != [] && AllDigits(s) && (s[0] == ZERO ==> |s| == 1) }

  predicate IsFraction(s: Bytes) { s == [] || (|s| > 1 && s[0] == DOT && AllDigits(s[1..])) }

  predicate IsExponent(s: Bytes) {
    s == [] || (|s| > 1 && (s[0] == LOWER_E || s[0] == UPPER_E)
                && var d := if s[1] == PLUS || s[1] == MINUS then s[2..] else s[1..]; d != [] && AllDigits(d))
  }

  datatype Token = Token(negative: bool, whole: Bytes, fraction: Bytes, exponent: Bytes)

  predicate IsToken(t: Token) { IsWhole(t.whole) && IsFraction(t.fraction) && IsExponent(t.exponent) }

  function Spelled(t: Token): Bytes {
    (if t.negative then [MINUS] else []) + t.whole + t.fraction + t.exponent
  }

  function Integral(t: Token): bool { t.fraction == [] && t.exponent == [] }

  /** What may follow a number without being taken for part of it. */
  predicate Stops(rest: Bytes) {
    rest == [] || (!Digit(rest[0]) && rest[0] != DOT && rest[0] != LOWER_E && rest[0] != UPPER_E)
  }

  lemma {:induction false} SkipsAll(s: Bytes, rest: Bytes)
    requires AllDigits(s) && (rest == [] || !Digit(rest[0]))
    ensures SkipDigits(s + rest) == rest
  {
    if s == [] {
      assert s + rest == rest;
    } else {
      assert (s + rest)[0] == s[0] && (s + rest)[1..] == s[1..] + rest;
      SkipsAll(s[1..], rest);
    }
  }

  lemma {:induction false} ScansWhole(w: Bytes, rest: Bytes, left: nat)
    requires IsWhole(w) && (rest == [] || !Digit(rest[0]))
    ensures Whole(w + rest, left) == Done((), rest)
  {
    var s := w + rest;
    assert s[0] == w[0] && s[1..] == w[1..] + rest;
    if w[0] == ZERO {
      assert w[1..] + rest == rest;
    } else {
      SkipsAll(w[1..], rest);
    }
  }

  lemma {:induction false} ScansFraction(fr: Bytes, rest: Bytes, left: nat)
    requires IsFraction(fr) && (rest == [] || (!Digit(rest[0]) && rest[0] != DOT))
    ensures Fraction(fr + rest, left) == Done(fr != [], rest)
  {
    if fr == [] {
      assert fr + rest == rest;
    } else {
      var s := fr + rest;
      assert s[0] == fr[0] && s[1] == fr[1] && s[1..] == fr[1..] + rest;
      SkipsAll(fr[1..], rest);
    }
  }

  lemma {:induction false} ScansExponent(ex: Bytes, rest: Bytes, left: nat)
    requires IsExponent(ex) && Stops(rest)
    ensures Exponent(ex + rest, left) == Done(ex != [], rest)
  {
    if ex == [] {
      assert ex + rest == rest;
    } else {
      var s := ex + rest;
      assert s[0] == ex[0] && s[1] == ex[1] && s[1..] == ex[1..] + rest;
      var d := if ex[1] == PLUS || ex[1] == MINUS then ex[2..] else ex[1..];
      assert s[2..] == ex[2..] + rest;
      SkipsAll(d, rest);
      assert (d + rest)[0] == d[0];
    }
  }

  /** The scanner reads a whole token and stops where it ends. */
  lemma {:induction false} ScansToken(f: Floats, t: Token, rest: Bytes)
    requires IsToken(t) && Stops(rest)
    ensures Spelled(t) != []
    ensures NumberAt(f, Spelled(t) + rest) ==
            var v := NumberOf(f, Spelled(t), Integral(t));
            if v.None? then Fail(OutOfRange, |Spelled(t) + rest|) else Done(v.value, rest)
  {
    hide Whole, Fraction, Exponent, NumberOf, IsWhole, IsFraction, IsExponent, Stops;
    var s, left := Spelled(t) + rest, |Spelled(t) + rest|;
    SignIs(t, rest);
    ScansWhole(t.whole, t.fraction + (t.exponent + rest), left);
    ScansFraction(t.fraction, t.exponent + rest, left);
    ScansExponent(t.exponent, rest, left);
    assert s[..|s| - |rest|] == Spelled(t);
  }

  lemma {:induction false} SignIs(t: Token, rest: Bytes)
    requires IsToken(t) && Stops(rest)
    ensures Spelled(t) != [] && Sign(Spelled(t) + rest) == t.whole + (t.fraction + (t.exponent + rest))
    ensures var r := t.exponent + rest; r == [] || (!Digit(r[0]) && r[0] != DOT)
    ensures var r := t.fraction + (t.exponent + rest); r == [] || !Digit(r[0])
  {
    HeadOf(t.exponent, rest);
    HeadOf(t.fraction, t.exponent + rest);
    SignSkipped(t.negative, t.whole, t.fraction + (t.exponent + rest));
    SpelledWith(t, rest);
  }

  lemma {:induction false} SpelledWith(t: Token, rest: Bytes)
    ensures Spelled(t) + rest == (if t.negative then [MINUS] else []) + (t.whole + (t.fraction + (t.exponent + rest)))
  {
  }

  lemma {:induction false} SignSkipped(negative: bool, whole: Bytes, rest: Bytes)
    requires IsWhole(whole)
    ensures Sign((if negative then [MINUS] else []) + (whole + rest)) == whole + rest
  {
    var s := whole + rest;
    assert s[0] == whole[0];
    if negative {
      assert ([MINUS] + s)[1..] == s;
    } else {
      assert [] + s == s;
    }
  }

  lemma {:induction false} HeadOf(a: Bytes, b: Bytes)
    ensures a == [] ==> a + b == b
    ensures a != [] ==> (a + b)[0] == a[0]
  {
  }

  // ---- and whatever is scanned is a token -------------------------------------------------------------

  lemma {:induction false} DigitsSkipped(s: Bytes)
    ensures var n := |s| - |SkipDigits(s)|; AllDigits(s[..n]) && s[n..] == SkipDigits(s) && (s != [] && Digit(s[0]) ==> n > 0)
    decreases |s|
  {
    if s != [] && Digit(s[0]) {
      DigitsSkipped(s[1..]);
      var n := |s[1..]| - |SkipDigits(s[1..])|;
      assert s[..n + 1] == [s[0]] + s[1..][..n] && s[n + 1..] == s[1..][n..];
    }
  }

  lemma {:induction false} WholeScanned(s: Bytes, left: nat) returns (w: Bytes)
    requires Whole(s, left).Done?
    ensures IsWhole(w) && s == w + Whole(s, left).rest
  {
    if s[0] == ZERO {
      w := [s[0]];
    } else {
      DigitsSkipped(s[1..]);
      var n := |s[1..]| - |SkipDigits(s[1..])|;
      w := [s[0]] + s[1..][..n];
    }
    assert s == [s[0]] + s[1..];
  }

  lemma {:induction false} FractionScanned(s: Bytes, left: nat) returns (fr: Bytes)
    requires Fraction(s, left).Done?
    ensures IsFraction(fr) && s == fr + Fraction(s, left).rest && (Fraction(s, left).value <==> fr != [])
  {
    if s == [] || s[0] != DOT {
      fr := [];
    } else {
      DigitsSkipped(s[1..]);
      var n := |s[1..]| - |SkipDigits(s[1..])|;
      fr := [s[0]] + s[1..][..n];
      assert SkipDigits(s[1..]) == SkipDigits(s[1..][1..]);
      assert fr[1..] == s[1..][..n];
      assert s == [s[0]] + s[1..];
    }
  }

  /** Where the digits of an exponent begin. */
  lemma {:induction false} ExponentBegins(s: Bytes, left: nat) returns (k: nat)
    requires Exponent(s, left).Done? && s != [] && (s[0] == LOWER_E || s[0] == UPPER_E)
    ensures 1 <= k <= 2 && k < |s| && Digit(s[k]) && (k == 2 ==> s[1] == PLUS || s[1] == MINUS)
    ensures Exponent(s, left) == Done(true, SkipDigits(s[k..]))
  {
    k := if |s| > 1 && (s[1] == PLUS || s[1] == MINUS) then 2 else 1;
    hide SkipDigits;
  }

  lemma {:induction false} ExponentScanned(s: Bytes, left: nat) returns (ex: Bytes)
    requires Exponent(s, left).Done?
    ensures IsExponent(ex) && s == ex + Exponent(s, left).rest && (Exponent(s, left).value <==> ex != [])
  {
    if s == [] || (s[0] != LOWER_E && s[0] != UPPER_E) {
      ex := [];
    } else {
      hide *;
      var k := ExponentBegins(s, left);
      DigitsSkipped(s[k..]);
      var n := |s[k..]| - |SkipDigits(s[k..])|;
      ex := s[..k] + s[k..][..n];
      ExponentMade(s[..k], s[k..][..n]);
      Halved(s, k, n);
    }
  }

  lemma {:induction false} Halved(s: Bytes, k: nat, n: nat)
    requires k <= |s| && n <= |s[k..]|
    ensures s == s[..k] + s[k..][..n] + s[k..][n..]
  {
  }

  lemma {:induction false} ExponentMade(head: Bytes, d: Bytes)
    requires d != [] && AllDigits(d) && 1 <= |head| <= 2 && (head[0] == LOWER_E || head[0] == UPPER_E)
    requires |head| == 2 ==> head[1] == PLUS || head[1] == MINUS
    ensures IsExponent(head + d)
  {
    var ex := head + d;
    assert ex[|head|..] == d && (|head| == 1 ==> ex[1] == d[0]);
  }

  /** A number that is read is a token, and means what the token means. */
  lemma {:induction false} ScannedIsToken(f: Floats, s: Bytes) returns (t: Token)
    requires s != [] && NumberAt(f, s).Done?
    ensures IsToken(t) && s == Spelled(t) + NumberAt(f, s).rest && NumberOf(f, Spelled(t), Integral(t)) == Some(NumberAt(f, s).value)
  {
    hide Whole, Fraction, Exponent, NumberOf, IsWhole, IsFraction, IsExponent;
    var left := |s|;
    var w := WholeScanned(Sign(s), left);
    var fr := FractionScanned(Whole(Sign(s), left).rest, left);
    var r := Fraction(Whole(Sign(s), left).rest, left).rest;
    var ex := ExponentScanned(r, left);
    var rest := Exponent(r, left).rest;
    t := Token(s[0] == MINUS, w, fr, ex);
    assert Sign(s) == w + (fr + (ex + rest));
    SpelledWith(t, rest);
    assert s == (if s[0] == MINUS then [MINUS] else []) + Sign(s);
    assert s[..|s| - |rest|] == Spelled(t);
  }

  // ---- decimal digits -------------------------------------------------------------------------------

  lemma {:induction false} DigitsAreWhole(n: nat)
    ensures IsWhole(Digits(n))
    ensures n > 0 ==> Digits(n)[0] != ZERO
  {
    if n >= 10 {
      DigitsAreWhole(n / 10);
    }
  }

  lemma {:induction false} ValueOfMore(s: Bytes, c: byte, sofar: nat)
    requires AllDigits(s) && Digit(c)
    ensures DigitsValue(s + [c], sofar) == DigitsValue(s, sofar) * 10 + (c as int - 48)
  {
    if s == [] {
      assert s + [c] == [c];
      assert [c][1..] == [];
    } else {
      assert (s + [c])[0] == s[0] && (s + [c])[1..] == s[1..] + [c];
      ValueOfMore(s[1..], c, sofar * 10 + (s[0] as int - 48));
    }
  }

  /** The digits of a number spell it. */
  lemma {:induction false} DigitsSpell(n: nat)
    ensures DigitsValue(Digits(n), 0) == n
  {
    if n < 10 {
      assert Digits(n)[1..] == [];
    } else {
      DigitsSpell(n / 10);
      DigitsAreWhole(n / 10);
      ValueOfMore(Digits(n / 10), ZERO + n % 10, 0);
    }
  }

  /** A whole number without leading zeros is spelled one way only. */
  lemma {:induction false} SpelledOnce(s: Bytes)
    requires IsWhole(s)
    ensures Digits(DigitsValue(s, 0)) == s
    ensures DigitsValue(s, 0) == 0 ==> s == [ZERO]
    decreases |s|
  {
    var k := |s| - 1;
    if k == 0 {
      assert s[1..] == [];
    } else {
      var front, c := s[..k], s[k];
      assert s == front + [c];
      SpelledOnce(front);
      ValueOfMore(front, c, 0);
      var n := DigitsValue(front, 0);
      assert (n * 10 + (c as int - 48)) / 10 == n && (n * 10 + (c as int - 48)) % 10 == c as int - 48;
    }
  }

  /** Where a digit run ends its value is that of the run. */
  lemma {:induction false} IntegerToken(t: Token)
    requires IsToken(t) && Integral(t)
    ensures var n := DigitsValue(t.whole, 0);
            IntegerOf(Spelled(t)) == if t.negative then (if 0 - n >= INT_MIN then Some(0 - n) else None) else if n <= INT_MAX then Some(n) else None
    ensures Spelled(t)[0] == MINUS <==> t.negative
  {
    assert Spelled(t) == (if t.negative then [MINUS] else []) + t.whole;
    assert Sign(Spelled(t)) == t.whole;
  }

  lemma {:induction false} IntToken(n: int) returns (t: Token)
    ensures IsToken(t) && Integral(t) && Spelled(t) == IntText(n) && t.negative == (n < 0) && DigitsValue(t.whole, 0) == if n < 0 then -n else n
  {
    var m: nat := if n < 0 then -n else n;
    DigitsAreWhole(m);
    DigitsSpell(m);
    t := Token(n < 0, Digits(m), [], []);
    assert Spelled(t) == (if n < 0 then [MINUS] else []) + Digits(m);
  }
}
