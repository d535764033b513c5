/** The parser as it runs: a position, a nesting depth and a first error over one text. */
module JsonParser {
  import opened Basics
  import opened Utf8
  import opened JsonModel
  import opened JsonSyntax
  import opened JsonGrammar

  datatype Error = Error(why: Why, offset: nat)

  class Parser {
    const f: Floats
    const text: Bytes

    var pos: nat
    var depth: nat
    var error: Option<Error>

    constructor (f: Floats, text: Bytes)
      ensures this.f == f && this.text == text && pos == 0 && depth == 0 && error == None
    {
      this.f, this.text, pos, depth, error := f, text, 0, 0, None;
    }

    /** The input still ahead. */
    function Ahead(): Bytes
      reads this`pos
      requires pos <= |text|
    {
      text[pos..]
    }

    /** In the middle of a successful parse. */
    predicate Going()
      reads this`pos, this`error
    {
      pos <= |text| && error == None
    }

    /** The first error wins. */
    method Stop(why: Why, at: nat)
      requires at <= |text|
      modifies this`error
      ensures error == if old(error) == None then Some(Error(why, at)) else old(error)
    {
      if error == None {
        error := Some(Error(why, at));
      }
    }

    /** How a finished production agrees with what was expected of it. */
    ghost predicate Agrees<T>(expected: Parsed<T>, value: T, ok: bool)
      reads this`pos, this`error
    {
      match expected
      case Done(v, rest) => ok && value == v && Going() && Ahead() == rest
      case Fail(why, left) => !ok && left <= |text| && error == Some(Error(why, |text| - left))
    }

    method SkipBlank()
      requires Going()
      modifies this`pos
      ensures Going() && Ahead() == SkipBlanks(old(Ahead()))
    {
      ghost var start := Ahead();
      while pos < |text| && Blank(text[pos])
        invariant Going() && SkipBlanks(Ahead()) == SkipBlanks(start)
      {
        assert Ahead()[1..] == text[pos + 1..];
        pos := pos + 1;
      }
    }

    // ---- strings --------------------------------------------------------------------------------------

    method ParseHex4(at: nat) returns (value: nat, ok: bool)
      requires Going() && at <= |text|
      modifies this`pos, this`error
      ensures Agrees(Hex4(old(Ahead()), |text| - at), value, ok)
    {
      value := 0;
      if pos + 4 > |text| {
        Stop(TruncatedHex, at);
        return 0, false;
      }
      ghost var s := Ahead();
      var i := 0;
      while i < 4
        invariant i <= 4 && pos == old(pos) && Going()
        invariant forall j | 0 <= j < i :: HexValue(s[j]) >= 0
        invariant value == HexPrefix(s, i)
      {
        var digit := HexValue(text[pos + i]);
        assert s[i] == text[pos + i];
        if digit < 0 {
          Stop(BadHex, at);
          return 0, false;
        }
        value := value * 16 + digit;
        i := i + 1;
      }
      HexFour(s);
      pos := pos + 4;
      assert Ahead() == s[4..];
      ok := true;
    }

    method ParseEscape() returns (value: Bytes, ok: bool)
      requires Going() && pos < |text| && text[pos] == BACKSLASH
      modifies this`pos, this`error
      ensures Agrees(Escape(old(Ahead())), value, ok)
    {
      var at := pos;
      ghost var s := Ahead();
      pos := pos + 1;
      if pos >= |text| {
        Stop(UnterminatedEscape, at);
        return [], false;
      }
      var c := text[pos];
      pos := pos + 1;
      assert s[1] == c && Ahead() == s[2..];
      if c == QUOTE || c == BACKSLASH || c == SLASH {
        return [c], true;
      } else if c == LOWER_N {
        return [10], true;
      } else if c == LOWER_T {
        return [9], true;
      } else if c == LOWER_R {
        return [13], true;
      } else if c == LOWER_B {
        return [8], true;
      } else if c == LOWER_F {
        return [12], true;
      } else if c == LOWER_U {
        value, ok := ParseUnicode(at);
      } else {
        Stop(UnknownEscape, at);
        return [], false;
      }
    }

    method ParseUnicode(at: nat) returns (value: Bytes, ok: bool)
      requires Going() && at <= |text|
      modifies this`pos, this`error
      ensures Agrees(UnicodeEscape(old(Ahead()), |text| - at), value, ok)
    {
      value, ok := [], false;
      var high, fine := ParseHex4(at);
      if !fine {
        return;
      }
      if 0xDC00 <= high <= 0xDFFF {
        Stop(LoneLowSurrogate, at);
        return;
      }
      var cp := high;
      if 0xD800 <= high <= 0xDBFF {
        if pos + 2 > |text| || text[pos] != BACKSLASH || text[pos + 1] != LOWER_U {
          Stop(UnpairedSurrogate, at);
          return;
        }
        assert text[pos + 2..] == Ahead()[2..];
        pos := pos + 2;
        var low, fine2 := ParseHex4(at);
        if !fine2 {
          return;
        }
        if low < 0xDC00 || low > 0xDFFF {
          Stop(BadLowSurrogate, at);
          return;
        }
        cp := 0x1_0000 + (high - 0xD800) * 1024 + (low - 0xDC00);
      }
      return Encode(cp), true;
    }

    /** A string, its bytes appended one unit at a time. */
    method ParseString() returns (value: Bytes, ok: bool)
      requires Going() && pos < |text| && text[pos] == QUOTE
      modifies this`pos, this`error
      ensures Agrees(StringAt(old(Ahead())), value, ok)
    {
      var start := pos;
      ghost var s := Ahead();
      pos := pos + 1;
      assert Ahead() == s[1..];
      value := [];
      while true
        invariant Going() && start <= |text|
        invariant Characters(Ahead(), value, |text| - start) == StringAt(s)
        decreases |text| - pos
      {
        if pos >= |text| {
          Stop(UnterminatedString, start);
          return value, false;
        }
        if text[pos] == QUOTE {
          assert text[pos + 1..] == Ahead()[1..];
          pos := pos + 1;
          return value, true;
        }
        var fine;
        value, fine := ParseUnit(value, start);
        if !fine {
          return value, false;
        }
      }
    }

    /** One escape, ASCII byte or multi-byte sequence inside a string. */
    method ParseUnit(sofar: Bytes, start: nat) returns (value: Bytes, ok: bool)
      requires Going() && pos < |text| && text[pos] != QUOTE && start <= |text|
      modifies this`pos, this`error
      ensures ok ==> Going() && pos > old(pos) && Characters(Ahead(), value, |text| - start) == Characters(old(Ahead()), sofar, |text| - start)
      ensures !ok ==> Agrees(Characters(old(Ahead()), sofar, |text| - start), value, false)
    {
      var c := text[pos];
      ghost var s := Ahead();
      assert c == s[0] && text[pos + 1..] == s[1..];
      CharactersStep(s, sofar, |text| - start);
      hide Characters, Escape;
      value, ok := sofar, false;
      if c == BACKSLASH {
        var bytes, fine := ParseEscape();
        value, ok := sofar + bytes, fine;
      } else if c < 0x20 {
        Stop(ControlCharacter, pos);
      } else if c < 0x80 {
        value, ok, pos := sofar + [c], true, pos + 1;
      } else {
        var k := SequenceLength(text[pos..]);
        if k == 0 {
          Stop(InvalidUtf8, pos);
        } else {
          assert text[pos..pos + k] == s[..k] && text[pos + k..] == s[k..];
          value, ok, pos := sofar + text[pos..pos + k], true, pos + k;
        }
      }
    }

    // ---- numbers and literals ---------------------------------------------------------------------------

    method SkipRun()
      requires Going()
      modifies this`pos
      ensures Going() && Ahead() == SkipDigits(old(Ahead())) && pos >= old(pos)
    {
      ghost var start := Ahead();
      while pos < |text| && Digit(text[pos])
        invariant Going() && SkipDigits(Ahead()) == SkipDigits(start) && pos >= old(pos)
      {
        assert Ahead()[1..] == text[pos + 1..];
        pos := pos + 1;
      }
    }

    method ParseWhole(start: nat) returns (ok: bool)
      requires Going() && start <= |text|
      modifies this`pos, this`error
      ensures Agrees(Whole(old(Ahead()), |text| - start), (), ok)
    {
      if pos >= |text| || !Digit(text[pos]) {
        Stop(InvalidNumber, start);
        return false;
      }
      assert text[pos + 1..] == Ahead()[1..];
      if text[pos] == ZERO {
        assert pos + 1 < |text| ==> text[pos + 1] == Ahead()[1];
        pos := pos + 1;
        if pos < |text| && Digit(text[pos]) {
          Stop(LeadingZero, start);
          return false;
        }
      } else {
        pos := pos + 1;
        SkipRun();
      }
      return true;
    }

    method ParseFraction(start: nat) returns (has: bool, ok: bool)
      requires Going() && start <= |text|
      modifies this`pos, this`error
      ensures Agrees(Fraction(old(Ahead()), |text| - start), has, ok)
    {
      if pos >= |text| || text[pos] != DOT {
        return false, true;
      }
      assert text[pos + 1..] == Ahead()[1..] && (pos + 1 < |text| ==> text[pos + 1] == Ahead()[1]);
      pos := pos + 1;
      if pos >= |text| || !Digit(text[pos]) {
        Stop(NoFraction, start);
        return true, false;
      }
      SkipRun();
      return true, true;
    }

    method ParseExponent(start: nat) returns (has: bool, ok: bool)
      requires Going() && start <= |text|
      modifies this`pos, this`error
      ensures Agrees(Exponent(old(Ahead()), |text| - start), has, ok)
    {
      if pos >= |text| || (text[pos] != LOWER_E && text[pos] != UPPER_E) {
        return false, true;
      }
      ghost var s := Ahead();
      assert text[pos + 1..] == s[1..] && (pos + 1 < |text| ==> text[pos + 1] == s[1] && text[pos + 2..] == s[2..]);
      pos := pos + 1;
      if pos < |text| && (text[pos] == PLUS || text[pos] == MINUS) {
        pos := pos + 1;
      }
      if pos >= |text| || !Digit(text[pos]) {
        Stop(NoExponent, start);
        return true, false;
      }
      SkipRun();
      return true, true;
    }

    method SkipSign()
      requires Going() && pos < |text|
      modifies this`pos
      ensures Going() && Ahead() == Sign(old(Ahead())) && pos >= old(pos)
    {
      assert text[pos + 1..] == Ahead()[1..];
      if text[pos] == MINUS {
        pos := pos + 1;
      }
    }

    method ParseNumber() returns (value: Json, ok: bool)
      requires Going() && pos < |text|
      modifies this`pos, this`error
      ensures Agrees(NumberAt(f, old(Ahead())), value, ok)
    {
      hide Whole, Fraction, Exponent, NumberOf, Sign;
      var start := pos;
      value, ok := Null, false;
      ghost var s := Ahead();
      SkipSign();
      var fine := ParseWhole(start);
      if !fine {
        return;
      }
      var hasFraction, fine2 := ParseFraction(start);
      if !fine2 {
        return;
      }
      var hasExponent, fine3 := ParseExponent(start);
      if !fine3 {
        return;
      }
      assert text[start..pos] == s[..|s| - |Ahead()|];
      var number := NumberOf(f, text[start..pos], !hasFraction && !hasExponent);
      if number.None? {
        Stop(OutOfRange, start);
        return;
      }
      return number.value, true;
    }

    method ParseLiteral(word: Bytes, v: Json) returns (value: Json, ok: bool)
      requires Going() && word != []
      modifies this`pos, this`error
      ensures Agrees(LiteralAt(old(Ahead()), word, v), value, ok)
    {
      if pos + |word| > |text| || text[pos..pos + |word|] != word {
        assert pos + |word| <= |text| ==> Ahead()[..|word|] == text[pos..pos + |word|];
        Stop(BadLiteral, pos);
        return Null, false;
      }
      assert Ahead()[..|word|] == text[pos..pos + |word|] && text[pos + |word|..] == Ahead()[|word|..];
      pos := pos + |word|;
      return v, true;
    }

    // ---- values ---------------------------------------------------------------------------------------------

    method ParseValue() returns (value: Json, ok: bool)
      requires Going() && depth <= MAX_DEPTH
      modifies this`pos, this`error, this`depth
      ensures Agrees(ValueAt(f, old(Ahead()), old(depth)), value, ok) && (ok ==> depth == old(depth))
      decreases |text| - pos, 2
    {
      hide StringAt, NumberAt, LiteralAt, ObjectAt, ArrayAt, SkipBlanks;
      ghost var s := Ahead();
      SkipBlank();
      assert Ahead() == SkipBlanks(s);
      if pos >= |text| {
        Stop(EndOfInput, pos);
        return Null, false;
      }
      var c := text[pos];
      assert c == Ahead()[0];
      if c == LBRACE {
        value, ok := ParseObject();
      } else if c == LBRACKET {
        value, ok := ParseArray();
      } else if c == QUOTE {
        var str, fine := ParseString();
        value, ok := Str(str), fine;
      } else if c == LOWER_T {
        value, ok := ParseLiteral(TRUE, Bool(true));
      } else if c == LOWER_F {
        value, ok := ParseLiteral(FALSE, Bool(false));
      } else if c == LOWER_N {
        value, ok := ParseLiteral(JsonModel.NULL, Null);
      } else if c == MINUS || Digit(c) {
        value, ok := ParseNumber();
      } else {
        Stop(Unexpected, pos);
        return Null, false;
      }
    }

    /** A comma, or the closing bracket or brace. */
    method NextOrClose(close: byte, unterminated: Why, missing: Why) returns (more: bool, ok: bool)
      requires Going() && close != COMMA
      modifies this`pos, this`error
      ensures var t := SkipBlanks(old(Ahead()));
              && ok == (t != [] && (t[0] == COMMA || t[0] == close))
              && (ok ==> Going() && pos > old(pos) && Ahead() == t[1..] && more == (t[0] == COMMA))
              && (!ok ==> error == Some(Error(if t == [] then unterminated else missing, |text| - |t|)))
    {
      more, ok := false, false;
      SkipBlank();
      if pos >= |text| {
        Stop(unterminated, pos);
        return;
      }
      assert text[pos] == Ahead()[0] && text[pos + 1..] == Ahead()[1..];
      if text[pos] != COMMA && text[pos] != close {
        Stop(missing, pos);
        return;
      }
      more, ok := text[pos] == COMMA, true;
      pos := pos + 1;
    }

    method ParseArray() returns (value: Json, ok: bool)
      requires Going() && pos < |text| && depth <= MAX_DEPTH
      modifies this`pos, this`error, this`depth
      ensures Agrees(ArrayAt(f, old(Ahead()), old(depth)), value, ok) && (ok ==> depth == old(depth))
      decreases |text| - pos, 1
    {
      hide ValueAt, SkipBlanks;
      ghost var s := Ahead();
      depth := depth + 1;
      if depth > MAX_DEPTH {
        Stop(TooDeep, pos);
        return Null, false;
      }
      pos := pos + 1;
      assert Ahead() == s[1..];
      SkipBlank();
      ghost var t, d := Ahead(), depth;
      var elements := [];
      if pos < |text| && text[pos] == RBRACKET {
        assert t[0] == text[pos] && text[pos + 1..] == t[1..];
        pos, depth := pos + 1, depth - 1;
        return Arr(elements), true;
      }
      assert pos < |text| ==> t[0] == text[pos];
      while true
        invariant Going() && depth == d && pos > old(pos)
        invariant Elements(f, Ahead(), d, elements) == Elements(f, t, d, [])
        decreases |text| - pos
      {
        ghost var u := Ahead();
        var v, fine := ParseValue();
        if !fine {
          return Null, false;
        }
        elements := elements + [v];
        var more, fine2 := NextOrClose(RBRACKET, UnterminatedArray, NoCommaOrBracket);
        if !fine2 {
          return Null, false;
        }
        if !more {
          depth := depth - 1;
          return Arr(elements), true;
        }
      }
    }

    /** Whether a key is new among the members so far. */
    method IsFresh(members: seq<Member>, key: Bytes) returns (fresh_: bool)
      ensures fresh_ <==> FreshKey(members, key)
    {
      var i := 0;
      while i < |members|
        invariant i <= |members| && forall j | 0 <= j < i :: members[j].key != key
      {
        if members[i].key == key {
          return false;
        }
        i := i + 1;
      }
      return true;
    }

    /** A key and its colon. */
    method ParseKey(sofar: seq<Member>) returns (key: Bytes, ok: bool)
      requires Going()
      modifies this`pos, this`error
      ensures Agrees(KeyAt(old(Ahead()), sofar), key, ok)
    {
      hide StringAt, SkipBlanks, FreshKey;
      key, ok := [], false;
      SkipBlank();
      if pos >= |text| || text[pos] != QUOTE {
        Stop(NoKey, pos);
        return;
      }
      assert text[pos] == Ahead()[0];
      var keyAt := pos;
      var fine;
      key, fine := ParseString();
      if !fine {
        return;
      }
      var fresh_ := IsFresh(sofar, key);
      if !fresh_ {
        Stop(DuplicateKey, keyAt);
        return;
      }
      SkipBlank();
      if pos >= |text| || text[pos] != COLON {
        Stop(NoColon, pos);
        return;
      }
      assert text[pos] == Ahead()[0] && text[pos + 1..] == Ahead()[1..];
      pos := pos + 1;
      ok := true;
    }

    method ParseObject() returns (value: Json, ok: bool)
      requires Going() && pos < |text| && depth <= MAX_DEPTH
      modifies this`pos, this`error, this`depth
      ensures Agrees(ObjectAt(f, old(Ahead()), old(depth)), value, ok) && (ok ==> depth == old(depth))
      decreases |text| - pos, 1
    {
      hide ValueAt, SkipBlanks, KeyAt;
      ghost var s := Ahead();
      depth := depth + 1;
      if depth > MAX_DEPTH {
        Stop(TooDeep, pos);
        return Null, false;
      }
      pos := pos + 1;
      assert Ahead() == s[1..];
      SkipBlank();
      ghost var t, d := Ahead(), depth;
      var members := [];
      if pos < |text| && text[pos] == RBRACE {
        assert t[0] == text[pos] && text[pos + 1..] == t[1..];
        pos, depth := pos + 1, depth - 1;
        return Obj(members), true;
      }
      assert pos < |text| ==> t[0] == text[pos];
      while true
        invariant Going() && depth == d && pos > old(pos)
        invariant Members(f, Ahead(), d, members) == Members(f, t, d, [])
        decreases |text| - pos
      {
        var key, fine := ParseKey(members);
        if !fine {
          return Null, false;
        }
        var v, fine2 := ParseValue();
        if !fine2 {
          return Null, false;
        }
        members := members + [Member(key, v)];
        var more, fine3 := NextOrClose(RBRACE, UnterminatedObject, NoCommaOrBrace);
        if !fine3 {
          return Null, false;
        }
        if !more {
          depth := depth - 1;
          return Obj(members), true;
        }
      }
    }

    lemma {:induction false} ReadsGrammar()
      ensures Document(f, text).Done? ==> exists item :: Denotes(f, text, Document(f, text).value, item)
      ensures forall v, item | Denotes(f, text, v, item) :: Document(f, text) == Done(v, [])
    {
      hide Document, Denotes;
      DocumentEnds(f, text);
      if Document(f, text).Done? {
        DocumentIff(f, text, Document(f, text).value);
      }
      forall v, item | Denotes(f, text, v, item) ensures Document(f, text) == Done(v, []) {
        DocumentIff(f, text, v);
      }
    }

    /** Exactly one document; the depth counter is back where it was.  Accepted is exactly what the
        grammar has, with the value it denotes. */
    method ParseDocument() returns (value: Json, ok: bool)
      requires pos == 0 && depth == 0 && error == None
      modifies this`pos, this`error, this`depth
      ensures Agrees(Document(f, text), value, ok) && (ok ==> depth == 0 && pos == |text|)
      ensures ok ==> exists item :: Denotes(f, text, value, item)
      ensures forall v, item | Denotes(f, text, v, item) :: ok && value == v
    {
      hide ValueAt, SkipBlanks, Denotes;
      ReadsGrammar();
      assert Ahead() == text;
      value, ok := ParseValue();
      if ok {
        SkipBlank();
        if pos < |text| {
          Stop(TrailingContent, pos);
          return Null, false;
        }
      }
    }
  }

  lemma {:induction false} DocumentEnds(f: Floats, text: Bytes)
    ensures Document(f, text).Done? ==> Document(f, text).rest == []
  {
    hide ValueAt;
  }

  /** The value of the first i hex digits. */
  function HexPrefix(s: Bytes, i: nat): int
    requires i <= |s|
  {
    if i == 0 then 0 else HexPrefix(s, i - 1) * 16 + HexValue(s[i - 1])
  }

  lemma {:induction false} HexFour(s: Bytes)
    requires |s| >= 4
    ensures HexPrefix(s, 4) == ((HexValue(s[0]) * 16 + HexValue(s[1])) * 16 + HexValue(s[2])) * 16 + HexValue(s[3])
  {
    assert HexPrefix(s, 1) == HexValue(s[0]);
    assert HexPrefix(s, 2) == HexPrefix(s, 1) * 16 + HexValue(s[1]);
    assert HexPrefix(s, 3) == HexPrefix(s, 2) * 16 + HexValue(s[2]);
  }

  lemma {:induction false} CharactersStep(s: Bytes, sofar: Bytes, start: nat)
    requires s != [] && s[0] != QUOTE
    ensures Characters(s, sofar, start) ==
            if s[0] == BACKSLASH then
              var e := Escape(s);
              if e.Fail? then Fail(e.why, e.left) else Characters(e.rest, sofar + e.value, start)
            else if s[0] < 0x20 then Fail(ControlCharacter, |s|)
            else if s[0] < 0x80 then Characters(s[1..], sofar + [s[0]], start)
            else
              var k := SequenceLength(s);
              if k == 0 then Fail(InvalidUtf8, |s|) else Characters(s[k..], sofar + s[..k], start)
  {
  }
}
