/** Values of the expression language: the tagged union of core/expr/value.h, wrapped
    64-bit integers, and the floating-point unit as a record of unknown functions. */
module ExprValue {
  import opened Basics

  const TWO63: int := 0x8000_0000_0000_0000
  const TWO64: int := 0x1_0000_0000_0000_0000

  newtype Int64 = x: int | -0x8000_0000_0000_0000 <= x < 0x8000_0000_0000_0000

  /** An IEEE single, as its bit pattern. */
  newtype Float32 = x: int | 0 <= x < 0x1_0000_0000

  /** Two's-complement wrap of an exact integer. */
  function Wrap(x: int): (r: Int64)
    ensures (r as int - x) % TWO64 == 0
  {
    ((x + TWO63) % TWO64 - TWO63) as Int64
  }

  function Abs(x: int): (r: int)
    ensures r >= 0 && (r == x || r == -x)
  {
    if x < 0 then -x else x }

  /** Exact quotient, truncated toward zero. */
  function TruncDiv(a: int, b: int): int
    requires b != 0
  {
    if (a < 0) == (b < 0) then Abs(a) / Abs(b) else -(Abs(a) / Abs(b))
  }

  /** The C++ remainder: its sign is the dividend's. */
  function TruncMod(a: int, b: int): int
    requires b != 0
  {
    if a < 0 then -(Abs(a) % Abs(b)) else Abs(a) % Abs(b)
  }

  /** A real number truncated toward zero. */
  function TruncReal(x: real): int {
    if x < 0.0 then -((-x).Floor) else x.Floor
  }

  datatype Ty = TBool | TInt | TFloat | TString | TName | TVec2 | TVec3 | TVec4 | TQuat

  function LaneCount(t: Ty): nat {
    match t
    case TVec2 => 2
    case TVec3 => 3
    case TVec4 => 4
    case TQuat => 4
    case _ => 0
  }

  type Lanes = s: seq<Float32> | |s| == 4 witness [0, 0, 0, 0]

  datatype Value =
    | BoolV(b: bool)
    | IntV(i: Int64)
    | FloatV(f: Float32)
    | StringV(s: string)
    | NameV(id: nat)
    | LanesV(kind: Ty, lanes: Lanes)

  /** v carries the payload and the tag of type t. */
  predicate TypedAs(v: Value, t: Ty) {
    match t
    case TBool => v.BoolV?
    case TInt => v.IntV?
    case TFloat => v.FloatV?
    case TString => v.StringV?
    case TName => v.NameV?
    case _ => v.LanesV? && v.kind == t
  }

  /** Float arithmetic, name interning and the native functions, all unknown.  Only the
      number a float denotes (none for NaN and the infinities) is used, by int(). */
  datatype Fpu = Fpu(
    neg: Float32 -> Float32,
    add: (Float32, Float32) -> Float32,
    sub: (Float32, Float32) -> Float32,
    mul: (Float32, Float32) -> Float32,
    div: (Float32, Float32) -> Float32,
    lt: (Float32, Float32) -> bool,
    le: (Float32, Float32) -> bool,
    gt: (Float32, Float32) -> bool,
    ge: (Float32, Float32) -> bool,
    eq: (Float32, Float32) -> bool,
    fromInt: Int64 -> Float32,
    number: Float32 -> Option<real>,
    quatMul: (Lanes, Lanes) -> Lanes,
    intern: string -> nat,
    native: (nat, seq<Value>) -> Lanes
  )

  datatype Status = DivZero | IntRange

  datatype Outcome = Good(v: Value) | Fault(status: Status)

  /** int(x): refused for NaN and outside [-2^63, 2^63), else truncated toward zero. */
  function FloatToInt(fpu: Fpu, f: Float32): Outcome {
    match fpu.number(f)
    case None => Fault(IntRange)
    case Some(x) =>
      if -9223372036854775808.0 <= x < 9223372036854775808.0 then
        assert -TWO63 <= TruncReal(x) < TWO63;
        Good(IntV(TruncReal(x) as Int64))
      else Fault(IntRange)
  }

  /** The first n lanes go through f; the tail keeps the left operand's bits. */
  function Lanes1(n: nat, f: Float32 -> Float32, a: Lanes): Lanes {
    seq(4, i requires 0 <= i < 4 => if i < n then f(a[i]) else a[i])
  }

  function Lanes2(n: nat, f: (Float32, Float32) -> Float32, a: Lanes, b: Lanes): Lanes {
    seq(4, i requires 0 <= i < 4 => if i < n then f(a[i], b[i]) else a[i])
  }

  /** Vector-with-scalar forms: the scalar is the right operand, or the left one. */
  function LanesByScalar(n: nat, f: (Float32, Float32) -> Float32, a: Lanes, s: Float32): Lanes {
    seq(4, i requires 0 <= i < 4 => if i < n then f(a[i], s) else a[i])
  }

  function ScalarByLanes(n: nat, f: (Float32, Float32) -> Float32, s: Float32, a: Lanes): Lanes {
    seq(4, i requires 0 <= i < 4 => if i < n then f(s, a[i]) else a[i])
  }

  predicate LanesEqual(n: nat, eq: (Float32, Float32) -> bool, a: Lanes, b: Lanes) {
    forall i | 0 <= i < n && i < 4 :: eq(a[i], b[i])
  }

  /** One entry of the function inventory; intrinsics compile to a conversion opcode. */
  datatype Builtin = Builtin(name: string, params: seq<Ty>, result: Ty, intrinsic: bool)

  predicate BuiltinOk(b: Builtin) {
    && 1 <= |b.params| <= 4
    && (if b.intrinsic then
          (b.result == TInt && b.params == [TFloat]) || (b.result == TFloat && b.params == [TInt])
        else
          b.result == TFloat || LaneCount(b.result) > 0)
  }

  predicate TableOk(t: seq<Builtin>) {
    |t| < 0x8000 && forall i | 0 <= i < |t| :: BuiltinOk(t[i])
  }

  type Table = t: seq<Builtin> | TableOk(t) witness []

  /** What a native returns: a float or a lane value of the declared type. */
  function NativeResult(t: Ty, lanes: Lanes): Value {
    if t == TFloat then FloatV(lanes[0]) else LanesV(t, lanes)
  }

  function Int16(x: int): int { (x + 0x8000) % 0x1_0000 - 0x8000 }

  lemma {:induction false} WrapInRange(x: int)
    requires -TWO63 <= x < TWO63
    ensures Wrap(x) as int == x
  {
  }

  /** Checked division with the -1 divisor guarded is the exact truncated quotient, wrapped. */
  lemma {:induction false} GuardedDivision(a: Int64, b: Int64)
    requires b != 0
    ensures b == -1 ==> Wrap(TruncDiv(a as int, b as int)) == Wrap(-(a as int))
    ensures b != -1 ==> -TWO63 <= TruncDiv(a as int, b as int) < TWO63
  {
    var m: int, n: int := Abs(a as int), Abs(b as int);
    if b == -1 {
      assert m / 1 == m;
    } else {
      if n == 1 {
        assert b == 1;
        assert m / 1 == m;
        assert TruncDiv(a as int, 1) == a as int;
      } else {
        QuotientHalves(m, n);
      }
    }
  }

  lemma {:induction false} QuotientHalves(m: nat, n: nat)
    requires n >= 2
    ensures 2 * (m / n) <= m
  {
    var q: int := m / n;
    assert m == n * q + m % n;
    assert n * q >= 2 * q;
  }

  /** The remainder is what the truncated quotient leaves over. */
  lemma {:induction false} RemainderIsLeftover(a: int, b: int)
    requires b != 0
    ensures TruncMod(a, b) == a - b * TruncDiv(a, b)
    ensures -Abs(b) < TruncMod(a, b) < Abs(b)
  {
    var m: int, n: int := Abs(a), Abs(b);
    var q: int := m / n;
    assert m == n * q + m % n;
    if (a < 0) == (b < 0) {
      assert b * q == (if b < 0 then -(n * q) else n * q);
    } else {
      assert b * (-q) == (if b < 0 then n * q else -(n * q));
    }
  }
}
