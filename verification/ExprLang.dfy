/** The language itself, independent of the compiler: its trees, its static types, and a
    direct left-to-right evaluation of a tree that dispatches on the values it meets. */
module ExprLang {
  import opened Basics
  import opened ExprValue

  datatype TokenKind =
    | KEnd | KIntLit | KFloatLit | KStringLit | KIdent | KTrue | KFalse
    | KAnd | KOr | KNot | KLParen | KRParen | KComma | KDot
    | KPlus | KMinus | KStar | KSlash | KPercent
    | KLt | KLe | KGt | KGe | KEqEq | KNe | KQuestion | KColon

  type LitValue = v: Value | v.IntV? || v.FloatV? || v.StringV? || v.BoolV? witness BoolV(false)

  /** The tree the parser builds; `at` is the offset of the node's primary token. */
  datatype Expr =
    | Lit(lit: LitValue, at: nat)
    | Path(segments: seq<string>, at: nat)
    | Member(base: Expr, member: string, at: nat)
    | Unary(op: TokenKind, a: Expr, at: nat)
    | Binary(op: TokenKind, a: Expr, b: Expr, at: nat)
    | Ternary(c: Expr, a: Expr, b: Expr, at: nat)
    | Call(segments: seq<string>, args: seq<Expr>, at: nat)

  datatype Var = Var(name: string, ty: Ty)

  /** Everything compilation and evaluation are relative to: the declared variables, the
      function inventory, and the float unit. */
  datatype Ctx = Ctx(vars: seq<Var>, table: Table, fpu: Fpu)

  datatype DiagCode = TypeError | UnknownVariable | UnknownFunction | ArityError | ParseError | TooComplex | InternalError

  datatype Diag = Diag(code: DiagCode, at: nat)

  datatype Result<+T> = Success(value: T) | Failure(error: Diag) {
    predicate IsFailure() { Failure? }
    function PropagateFailure<U>(): Result<U>
      requires Failure?
    {
      Failure(error)
    }
    function Extract(): T
      requires Success?
    {
      value
    }
  }

  // ---- name resolution ------------------------------------------------------

  function Join(segments: seq<string>): string {
    if |segments| == 0 then ""
    else if |segments| == 1 then segments[0]
    else Join(segments[..|segments| - 1]) + "." + segments[|segments| - 1]
  }

  /** The first declaration of that name at or after slot `from`. */
  function FindVar(vars: seq<Var>, name: string, from: nat := 0): (r: Option<nat>)
    ensures r.Some? ==> from <= r.value < |vars| && vars[r.value].name == name
    decreases |vars| - from
  {
    if from >= |vars| then None
    else if vars[from].name == name then Some(from)
    else FindVar(vars, name, from + 1)
  }

  function FindBuiltin(table: seq<Builtin>, name: string, from: nat := 0): (r: Option<nat>)
    ensures r.Some? ==> from <= r.value < |table| && table[r.value].name == name
    decreases |table| - from
  {
    if from >= |table| then None
    else if table[from].name == name then Some(from)
    else FindBuiltin(table, name, from + 1)
  }

  /** The longest declared prefix of the path: how many segments, and its slot. */
  function LongestPrefix(vars: seq<Var>, segments: seq<string>): (r: Option<(nat, nat)>)
    ensures r.Some? ==> 0 < r.value.0 <= |segments| && r.value.1 < |vars|
  {
    if |segments| == 0 then None
    else match FindVar(vars, Join(segments))
      case Some(slot) => Some((|segments|, slot))
      case None => LongestPrefix(vars, segments[..|segments| - 1])
  }

  function LaneIndex(member: string): Option<nat> {
    if member == "x" then Some(0)
    else if member == "y" then Some(1)
    else if member == "z" then Some(2)
    else if member == "w" then Some(3)
    else None
  }

  // ---- static types ----------------------------------------------------------

  predicate IsNumeric(t: Ty) { t == TInt || t == TFloat }

  predicate IsVector(t: Ty) { t == TVec2 || t == TVec3 || t == TVec4 }

  function LaneOf(t: Ty, member: string, at: nat): (r: Result<nat>)
    ensures r.Success? ==> r.value < LaneCount(t)
  {
    match LaneIndex(member)
    case Some(lane) => if lane < LaneCount(t) then Success(lane) else Failure(Diag(TypeError, at))
    case None => Failure(Diag(TypeError, at))
  }

  function Unify(ta: Ty, tb: Ty): Ty { if ta == TInt && tb == TInt then TInt else TFloat }

  /** What a binary operator makes of operand types: the types it runs on, and its own. */
  datatype Rule = Rule(left: Ty, right: Ty, result: Ty)

  function BinaryRule(op: TokenKind, ta: Ty, tb: Ty, aIsText: bool, bIsText: bool): Option<Rule> {
    match op
    case KAnd => LogicRule(ta, tb)
    case KOr => LogicRule(ta, tb)
    case KPlus => SumRule(ta, tb)
    case KMinus => SumRule(ta, tb)
    case KStar => ProductRule(ta, tb)
    case KSlash => QuotientRule(ta, tb)
    case KPercent => if ta == TInt && tb == TInt then Some(Rule(TInt, TInt, TInt)) else None
    case KLt => OrderRule(ta, tb)
    case KLe => OrderRule(ta, tb)
    case KGt => OrderRule(ta, tb)
    case KGe => OrderRule(ta, tb)
    case KEqEq => EqualityRule(ta, tb, aIsText, bIsText)
    case KNe => EqualityRule(ta, tb, aIsText, bIsText)
    case _ => None
  }

  function LogicRule(ta: Ty, tb: Ty): Option<Rule> {
    if ta == TBool && tb == TBool then Some(Rule(TBool, TBool, TBool)) else None
  }

  function NumericRule(ta: Ty, tb: Ty): Option<Rule> {
    if IsNumeric(ta) && IsNumeric(tb) then Some(Rule(Unify(ta, tb), Unify(ta, tb), Unify(ta, tb))) else None
  }

  function SumRule(ta: Ty, tb: Ty): Option<Rule> {
    if NumericRule(ta, tb).Some? then NumericRule(ta, tb)
    else if IsVector(ta) && ta == tb then Some(Rule(ta, ta, ta))
    else None
  }

  /** Component-wise on equal vectors, scaling by a number on either side, and quaternions. */
  function ProductRule(ta: Ty, tb: Ty): Option<Rule> {
    if NumericRule(ta, tb).Some? then NumericRule(ta, tb)
    else if IsVector(ta) && ta == tb then Some(Rule(ta, ta, ta))
    else if IsVector(ta) && IsNumeric(tb) then Some(Rule(ta, TFloat, ta))
    else if IsNumeric(ta) && IsVector(tb) then Some(Rule(TFloat, tb, tb))
    else if ta == TQuat && tb == TQuat then Some(Rule(TQuat, TQuat, TQuat))
    else None
  }

  function QuotientRule(ta: Ty, tb: Ty): Option<Rule> {
    if NumericRule(ta, tb).Some? then NumericRule(ta, tb)
    else if IsVector(ta) && IsNumeric(tb) then Some(Rule(ta, TFloat, ta))
    else None
  }

  function OrderRule(ta: Ty, tb: Ty): Option<Rule> {
    if IsNumeric(ta) && IsNumeric(tb) then Some(Rule(Unify(ta, tb), Unify(ta, tb), TBool)) else None
  }

  /** == and != also compare a name with a string literal, read as a name. */
  function EqualityRule(ta: Ty, tb: Ty, aIsText: bool, bIsText: bool): Option<Rule> {
    if IsNumeric(ta) && IsNumeric(tb) then Some(Rule(Unify(ta, tb), Unify(ta, tb), TBool))
    else if (ta == TName && tb == TString && bIsText) || (tb == TName && ta == TString && aIsText) then
      Some(Rule(TName, TName, TBool))
    else if ta == tb then Some(Rule(ta, ta, TBool))
    else None
  }

  predicate IsText(e: Expr) { e.Lit? && e.lit.StringV? }

  /** A parameter of type `want` takes an argument of its own type, an int for a float, and
      a string literal for a name. */
  predicate Accepts(want: Ty, have: Ty, isText: bool) {
    have == want || (want == TFloat && have == TInt) || (want == TName && have == TString && isText)
  }

  function LitType(v: LitValue): Ty {
    match v
    case IntV(_) => TInt
    case FloatV(_) => TFloat
    case StringV(_) => TString
    case BoolV(_) => TBool
  }

  /** The type of a tree, or the first error of a left-to-right check. */
  function Infer(ctx: Ctx, e: Expr): Result<Ty>
    decreases e, 0
  {
    match e
    case Lit(v, _) => Success(LitType(v))
    case Path(segments, at) => InferPath(ctx, segments, at)
    case Member(base, member, at) =>
      var t :- Infer(ctx, base);
      var lane :- LaneOf(t, member, at);
      Success(TFloat)
    case Unary(op, a, at) =>
      var t :- Infer(ctx, a);
      if op == KNot then (if t == TBool then Success(TBool) else Failure(Diag(TypeError, at)))
      else if IsNumeric(t) || IsVector(t) then Success(t)
      else Failure(Diag(TypeError, at))
    case Binary(op, a, b, at) =>
      var ta :- Infer(ctx, a);
      var tb :- Infer(ctx, b);
      (match BinaryRule(op, ta, tb, IsText(a), IsText(b))
       case Some(rule) => Success(rule.result)
       case None => Failure(Diag(TypeError, at)))
    case Ternary(c, a, b, at) =>
      var tc :- Infer(ctx, c);
      var ta :- Infer(ctx, a);
      var tb :- Infer(ctx, b);
      if tc != TBool then Failure(Diag(TypeError, c.at))
      else if IsNumeric(ta) && IsNumeric(tb) then Success(Unify(ta, tb))
      else if ta == tb then Success(ta)
      else Failure(Diag(TypeError, at))
    case Call(segments, args, at) =>
      if |segments| > 1 then Failure(Diag(UnknownFunction, at))
      else match FindBuiltin(ctx.table, Join(segments))
        case None => Failure(Diag(UnknownFunction, at))
        case Some(index) =>
          var f := ctx.table[index];
          if |args| != |f.params| then Failure(Diag(ArityError, at))
          else
            var ok :- InferArgs(ctx, args, f.params);
            Success(f.result)
  }

  function InferPath(ctx: Ctx, segments: seq<string>, at: nat): Result<Ty> {
    match LongestPrefix(ctx.vars, segments)
    case None => Failure(Diag(UnknownVariable, at))
    case Some((count, slot)) =>
      var t := ctx.vars[slot].ty;
      if |segments| == count then Success(t)
      else if |segments| > count + 1 then Failure(Diag(TypeError, at))
      else
        var lane :- LaneOf(t, segments[count], at);
        Success(TFloat)
  }

  function InferArgs(ctx: Ctx, args: seq<Expr>, params: seq<Ty>): Result<bool>
    requires |args| == |params|
    decreases args, 1
  {
    if args == [] then Success(true)
    else
      var n := |args| - 1;
      var before :- InferArgs(ctx, args[..n], params[..n]);
      var t :- Infer(ctx, args[n]);
      if Accepts(params[n], t, IsText(args[n])) then Success(true) else Failure(Diag(TypeError, args[n].at))
  }

  // ---- direct evaluation -------------------------------------------------------

  /** The two implicit conversions: int to float, and a literal's text to a name. */
  function Convert(fpu: Fpu, v: Value, want: Ty): Value {
    if v.IntV? && want == TFloat then FloatV(fpu.fromInt(v.i))
    else if v.StringV? && want == TName then NameV(fpu.intern(v.s))
    else v
  }

  function ConvertOutcome(fpu: Fpu, r: Outcome, want: Ty): Outcome {
    match r
    case Good(v) => Good(Convert(fpu, v, want))
    case Fault(_) => r
  }

  function Negate(fpu: Fpu, v: Value): Value {
    match v
    case IntV(i) => IntV(Wrap(-(i as int)))
    case FloatV(f) => FloatV(fpu.neg(f))
    case LanesV(kind, lanes) => LanesV(kind, Lanes1(LaneCount(kind), fpu.neg, lanes))
    case _ => v
  }

  predicate Equal(fpu: Fpu, a: Value, b: Value) {
    match (a, b)
    case (BoolV(x), BoolV(y)) => x == y
    case (IntV(x), IntV(y)) => x == y
    case (FloatV(x), FloatV(y)) => fpu.eq(x, y)
    case (StringV(x), StringV(y)) => x == y
    case (NameV(x), NameV(y)) => x == y
    case (LanesV(k, x), LanesV(_, y)) => LanesEqual(LaneCount(k), fpu.eq, x, y)
    case _ => false
  }

  /** A strict binary operator on the values it gets; exact integers, then wrapped. */
  function Apply(fpu: Fpu, op: TokenKind, a: Value, b: Value): Outcome {
    match op
    case KPlus => Good(Sum(fpu, a, b))
    case KMinus => Good(Difference(fpu, a, b))
    case KStar => Good(Product(fpu, a, b))
    case KSlash => Quotient(fpu, a, b)
    case KPercent => Remainder(a, b)
    case KEqEq => Good(BoolV(Equal(fpu, a, b)))
    case KNe => Good(BoolV(!Equal(fpu, a, b)))
    case _ => Good(BoolV(Ordered(fpu, op, a, b)))
  }

  function Sum(fpu: Fpu, a: Value, b: Value): Value {
    match (a, b)
    case (IntV(x), IntV(y)) => IntV(Wrap(x as int + y as int))
    case (FloatV(x), FloatV(y)) => FloatV(fpu.add(x, y))
    case (LanesV(k, x), LanesV(_, y)) => LanesV(k, Lanes2(LaneCount(k), fpu.add, x, y))
    case _ => a
  }

  function Difference(fpu: Fpu, a: Value, b: Value): Value {
    match (a, b)
    case (IntV(x), IntV(y)) => IntV(Wrap(x as int - y as int))
    case (FloatV(x), FloatV(y)) => FloatV(fpu.sub(x, y))
    case (LanesV(k, x), LanesV(_, y)) => LanesV(k, Lanes2(LaneCount(k), fpu.sub, x, y))
    case _ => a
  }

  function Product(fpu: Fpu, a: Value, b: Value): Value {
    match (a, b)
    case (IntV(x), IntV(y)) => IntV(Wrap(x as int * y as int))
    case (FloatV(x), FloatV(y)) => FloatV(fpu.mul(x, y))
    case (LanesV(k, x), LanesV(_, y)) =>
      LanesV(k, if k == TQuat then fpu.quatMul(x, y) else Lanes2(LaneCount(k), fpu.mul, x, y))
    case (LanesV(k, x), FloatV(y)) => LanesV(k, LanesByScalar(LaneCount(k), fpu.mul, x, y))
    case (FloatV(x), LanesV(k, y)) => LanesV(k, ScalarByLanes(LaneCount(k), fpu.mul, x, y))
    case _ => a
  }

  function Quotient(fpu: Fpu, a: Value, b: Value): Outcome {
    match (a, b)
    case (IntV(x), IntV(y)) => if y == 0 then Fault(DivZero) else Good(IntV(Wrap(TruncDiv(x as int, y as int))))
    case (FloatV(x), FloatV(y)) => Good(FloatV(fpu.div(x, y)))
    case (LanesV(k, x), FloatV(y)) => Good(LanesV(k, LanesByScalar(LaneCount(k), fpu.div, x, y)))
    case _ => Good(a)
  }

  function Remainder(a: Value, b: Value): Outcome {
    match (a, b)
    case (IntV(x), IntV(y)) => if y == 0 then Fault(DivZero) else Good(IntV(Wrap(TruncMod(x as int, y as int))))
    case _ => Good(a)
  }

  predicate Ordered(fpu: Fpu, op: TokenKind, a: Value, b: Value) {
    match (a, b)
    case (IntV(x), IntV(y)) =>
      if op == KLt then x < y else if op == KLe then x <= y else if op == KGt then x > y else x >= y
    case (FloatV(x), FloatV(y)) =>
      if op == KLt then fpu.lt(x, y) else if op == KLe then fpu.le(x, y) else if op == KGt then fpu.gt(x, y) else fpu.ge(x, y)
    case _ => false
  }

  predicate Truthy(v: Value) { v.BoolV? && v.b }

  predicate VarsTyped(ctx: Ctx, vars: seq<Value>) {
    |vars| == |ctx.vars| && forall i | 0 <= i < |vars| :: TypedAs(vars[i], ctx.vars[i].ty)
  }

  function LaneValue(v: Value, lane: nat): Value {
    if v.LanesV? && lane < 4 then FloatV(v.lanes[lane]) else v
  }

  datatype ArgsOutcome = Values(vs: seq<Value>) | ArgFault(status: Status)

  /** The value of a well-typed tree, or its first fault; `&&`, `||` and `?:` evaluate only
      the side they take. */
  function Sem(ctx: Ctx, vars: seq<Value>, e: Expr): Outcome
    requires Infer(ctx, e).Success? && |vars| == |ctx.vars|
    decreases e, 0
  {
    match e
    case Lit(v, _) => Good(v)
    case Path(segments, at) =>
      var (count, slot) := LongestPrefix(ctx.vars, segments).value;
      if |segments| == count then Good(vars[slot])
      else Good(LaneValue(vars[slot], LaneIndex(segments[count]).value))
    case Member(base, member, at) =>
      (match Sem(ctx, vars, base)
       case Good(v) => Good(LaneValue(v, LaneIndex(member).value))
       case Fault(s) => Fault(s))
    case Unary(op, a, _) =>
      (match Sem(ctx, vars, a)
       case Good(v) => if op == KNot then Good(BoolV(!Truthy(v))) else Good(Negate(ctx.fpu, v))
       case Fault(s) => Fault(s))
    case Binary(op, a, b, _) =>
      var rule := BinaryRule(op, Infer(ctx, a).value, Infer(ctx, b).value, IsText(a), IsText(b)).value;
      (match ConvertOutcome(ctx.fpu, Sem(ctx, vars, a), rule.left)
       case Fault(s) => Fault(s)
       case Good(va) =>
         if op == KAnd && !Truthy(va) then Good(BoolV(false))
         else if op == KOr && Truthy(va) then Good(BoolV(true))
         else match ConvertOutcome(ctx.fpu, Sem(ctx, vars, b), rule.right)
           case Fault(s) => Fault(s)
           case Good(vb) => if op == KAnd || op == KOr then Good(vb) else Apply(ctx.fpu, op, va, vb))
    case Ternary(c, a, b, _) =>
      (match Sem(ctx, vars, c)
       case Fault(s) => Fault(s)
       case Good(vc) =>
         ConvertOutcome(ctx.fpu, if Truthy(vc) then Sem(ctx, vars, a) else Sem(ctx, vars, b), Infer(ctx, e).value))
    case Call(segments, args, _) =>
      var index := FindBuiltin(ctx.table, Join(segments)).value;
      var f := ctx.table[index];
      (match SemArgs(ctx, vars, args, f.params)
       case ArgFault(s) => Fault(s)
       case Values(vs) => CallResult(ctx, index, vs))
  }

  /** int() and float() convert; the rest is whatever the native returns. */
  function CallResult(ctx: Ctx, index: nat, vs: seq<Value>): Outcome
    requires index < |ctx.table| && |vs| == |ctx.table[index].params|
  {
    var f := ctx.table[index];
    assert BuiltinOk(f);
    if !f.intrinsic then Good(NativeResult(f.result, ctx.fpu.native(index, vs)))
    else if f.result == TInt && vs[0].FloatV? then FloatToInt(ctx.fpu, vs[0].f)
    else Good(Convert(ctx.fpu, vs[0], TFloat))
  }

  function SemArgs(ctx: Ctx, vars: seq<Value>, args: seq<Expr>, params: seq<Ty>): (r: ArgsOutcome)
    requires |args| == |params| && InferArgs(ctx, args, params).Success? && |vars| == |ctx.vars|
    ensures r.Values? ==> |r.vs| == |args|
    decreases args, 1
  {
    if args == [] then Values([])
    else
      var n := |args| - 1;
      match SemArgs(ctx, vars, args[..n], params[..n])
      case ArgFault(s) => ArgFault(s)
      case Values(vs) =>
        match ConvertOutcome(ctx.fpu, Sem(ctx, vars, args[n]), params[n])
        case Fault(s) => ArgFault(s)
        case Good(v) => Values(vs + [v])
  }
}
