/** UTF-8 over bytes: encoding of Unicode scalar values, and the sequence-length test of the parser. */
module Utf8 {

  type byte = b: int | 0 <= b < 256
  type Bytes = seq<byte>

  /** A Unicode scalar value: a code point that is no surrogate. */
  predicate Scalar(cp: nat) { cp < 0xD800 || 0xE000 <= cp < 0x11_0000 }

  type CodePoint = cp: nat | Scalar(cp)

  function Encode(cp: nat): (r: Bytes)
    requires cp < 0x11_0000
    ensures 1 <= |r| <= 4
  {
    if cp < 0x80 then [cp]
    else if cp < 0x800 then [0xC0 + cp / 64, 0x80 + cp % 64]
    else if cp < 0x1_0000 then [0xE0 + cp / 4096, 0x80 + cp / 64 % 64, 0x80 + cp % 64]
    else [0xF0 + cp / 262144, 0x80 + cp / 4096 % 64, 0x80 + cp / 64 % 64, 0x80 + cp % 64]
  }

  function EncodeAll(cps: seq<CodePoint>): Bytes {
    if cps == [] then [] else Encode(cps[0]) + EncodeAll(cps[1..])
  }

  /** Well-formed as section 4 of RFC 3629 has it: the encoding of some scalar values. */
  ghost predicate WellFormed(s: Bytes) {
    exists cps: seq<CodePoint> :: s == EncodeAll(cps)
  }

  predicate In(s: Bytes, i: nat, lo: byte, hi: byte) { i < |s| && lo <= s[i] <= hi }

  /** Length of the multi-byte sequence s starts with, or 0. */
  function SequenceLength(s: Bytes): (k: nat)
    requires s != []
    ensures k <= |s| && k <= 4 && k != 1
  {
    var b0 := s[0];
    if 0xC2 <= b0 <= 0xDF then if In(s, 1, 0x80, 0xBF) then 2 else 0
    else if b0 == 0xE0 then if In(s, 1, 0xA0, 0xBF) && In(s, 2, 0x80, 0xBF) then 3 else 0
    else if 0xE1 <= b0 <= 0xEC || b0 == 0xEE || b0 == 0xEF then if In(s, 1, 0x80, 0xBF) && In(s, 2, 0x80, 0xBF) then 3 else 0
    else if b0 == 0xED then if In(s, 1, 0x80, 0x9F) && In(s, 2, 0x80, 0xBF) then 3 else 0
    else if b0 == 0xF0 then if In(s, 1, 0x90, 0xBF) && In(s, 2, 0x80, 0xBF) && In(s, 3, 0x80, 0xBF) then 4 else 0
    else if 0xF1 <= b0 <= 0xF3 then if In(s, 1, 0x80, 0xBF) && In(s, 2, 0x80, 0xBF) && In(s, 3, 0x80, 0xBF) then 4 else 0
    else if b0 == 0xF4 then if In(s, 1, 0x80, 0x8F) && In(s, 2, 0x80, 0xBF) && In(s, 3, 0x80, 0xBF) then 4 else 0
    else 0
  }

  /** The test accepts exactly the encodings of scalar values beyond ASCII, whatever follows them. */
  lemma {:induction false} SequenceIsEncoding(s: Bytes)
    requires s != [] && SequenceLength(s) > 0
    ensures exists cp: nat :: 0x80 <= cp && Scalar(cp) && s[..SequenceLength(s)] == Encode(cp)
  {
    var k := SequenceLength(s);
    if k == 2 {
      EncodeTwo(s[0] - 0xC0, s[1] - 0x80);
      assert s[..2] == [s[0], s[1]];
    } else if k == 3 {
      EncodeThree(s[0] - 0xE0, s[1] - 0x80, s[2] - 0x80);
      assert s[..3] == [s[0], s[1], s[2]];
    } else {
      EncodeFour(s[0] - 0xF0, s[1] - 0x80, s[2] - 0x80, s[3] - 0x80);
      assert s[..4] == [s[0], s[1], s[2], s[3]];
    }
  }

  lemma {:induction false} EncodeTwo(a: nat, b: nat)
    requires 2 <= a < 32 && b < 64
    ensures 0x80 <= a * 64 + b < 0x800 && Encode(a * 64 + b) == [0xC0 + a, 0x80 + b]
  {
  }

  /** Base-64 digits. */
  lemma {:induction false} Sixes(n: nat, d: nat)
    requires d < 64
    ensures (n * 64 + d) / 64 == n && (n * 64 + d) % 64 == d
  {
  }

  lemma {:induction false} DivTwice(n: nat)
    ensures n / 4096 == n / 64 / 64 && n / 262144 == n / 64 / 64 / 64
  {
  }

  lemma {:induction false} EncodeThree(a: nat, b: nat, c: nat)
    requires a < 16 && b < 64 && c < 64 && 0x800 <= a * 4096 + b * 64 + c
    ensures a * 4096 + b * 64 + c < 0x1_0000 && Encode(a * 4096 + b * 64 + c) == [0xE0 + a, 0x80 + b, 0x80 + c]
  {
    Sixes(a * 64 + b, c);
    Sixes(a, b);
    DivTwice(a * 4096 + b * 64 + c);
    assert a * 4096 + b * 64 + c == (a * 64 + b) * 64 + c;
  }

  lemma {:induction false} EncodeFour(a: nat, b: nat, c: nat, d: nat)
    requires a < 5 && b < 64 && c < 64 && d < 64 && 0x1_0000 <= a * 262144 + b * 4096 + c * 64 + d < 0x11_0000
    ensures Encode(a * 262144 + b * 4096 + c * 64 + d) == [0xF0 + a, 0x80 + b, 0x80 + c, 0x80 + d]
  {
    var cp := a * 262144 + b * 4096 + c * 64 + d;
    assert cp == ((a * 64 + b) * 64 + c) * 64 + d;
    Sixes((a * 64 + b) * 64 + c, d);
    Sixes(a * 64 + b, c);
    Sixes(a, b);
    DivTwice(cp);
  }

  lemma {:induction false} EncodingIsSequence(cp: nat, rest: Bytes)
    requires 0x80 <= cp && Scalar(cp)
    ensures SequenceLength(Encode(cp) + rest) == |Encode(cp)|
  {
    var s := Encode(cp) + rest;
    if cp < 0x800 {
      assert s[0] == 0xC0 + cp / 64 && s[1] == 0x80 + cp % 64;
    } else if cp < 0x1_0000 {
      ThreeBytes(cp);
      assert s[0] == Encode(cp)[0] && s[1] == Encode(cp)[1] && s[2] == Encode(cp)[2];
    } else {
      FourBytes(cp);
      assert s[0] == Encode(cp)[0] && s[1] == Encode(cp)[1] && s[2] == Encode(cp)[2] && s[3] == Encode(cp)[3];
    }
  }

  lemma {:induction false} ThreeBytes(cp: nat)
    requires 0x800 <= cp < 0x1_0000 && Scalar(cp)
    ensures var e := Encode(cp);
            && |e| == 3 && 0xE0 <= e[0] <= 0xEF && 0x80 <= e[1] <= 0xBF && 0x80 <= e[2] <= 0xBF
            && (e[0] == 0xE0 ==> e[1] >= 0xA0) && (e[0] == 0xED ==> e[1] <= 0x9F)
  {
  }

  lemma {:induction false} FourBytes(cp: nat)
    requires 0x1_0000 <= cp && Scalar(cp)
    ensures var e := Encode(cp);
            && |e| == 4 && 0xF0 <= e[0] <= 0xF4 && 0x80 <= e[1] <= 0xBF && 0x80 <= e[2] <= 0xBF && 0x80 <= e[3] <= 0xBF
            && (e[0] == 0xF0 ==> e[1] >= 0x90) && (e[0] == 0xF4 ==> e[1] <= 0x8F)
  {
  }

  /** Bytes of a multi-byte sequence are not ASCII. */
  lemma {:induction false} EncodingBytes(cp: nat)
    requires Scalar(cp)
    ensures cp < 0x80 ==> Encode(cp) == [cp]
    ensures cp >= 0x80 ==> forall i | 0 <= i < |Encode(cp)| :: Encode(cp)[i] >= 0x80
  {
  }

  // ---- putting well-formed pieces together -------------------------------------------------------

  lemma {:induction false} EncodeAllAppend(a: seq<CodePoint>, b: seq<CodePoint>)
    ensures EncodeAll(a + b) == EncodeAll(a) + EncodeAll(b)
  {
    if a == [] {
      assert a + b == b;
    } else {
      assert (a + b)[0] == a[0] && (a + b)[1..] == a[1..] + b;
      EncodeAllAppend(a[1..], b);
    }
  }

  lemma {:induction false} WellFormedAppend(a: Bytes, b: Bytes)
    requires WellFormed(a) && WellFormed(b)
    ensures WellFormed(a + b)
  {
    var x: seq<CodePoint> :| a == EncodeAll(x);
    var y: seq<CodePoint> :| b == EncodeAll(y);
    EncodeAllAppend(x, y);
  }

  lemma {:induction false} WellFormedOne(cp: nat)
    requires Scalar(cp)
    ensures WellFormed(Encode(cp)) && WellFormed([])
  {
    var one: seq<CodePoint> := [cp];
    assert one[1..] == [];
    assert EncodeAll(one) == Encode(cp) + EncodeAll(one[1..]);
    assert EncodeAll(one) == Encode(cp);
    var none: seq<CodePoint> := [];
    assert EncodeAll(none) == [];
  }

  /** The first scalar of a non-empty well-formed string, and the rest. */
  lemma {:induction false} FirstScalar(s: Bytes) returns (cp: nat, rest: Bytes)
    requires WellFormed(s) && s != []
    ensures Scalar(cp) && s == Encode(cp) + rest && WellFormed(rest)
  {
    var cps: seq<CodePoint> :| s == EncodeAll(cps);
    cp, rest := cps[0], EncodeAll(cps[1..]);
  }
}
