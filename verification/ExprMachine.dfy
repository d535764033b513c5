/** The stack machine of core/expr/program.h.  `Step` is one turn of the dispatch loop;
    it is Stuck wherever the C++ would index out of range, overflow the fixed stack, or
    read a union member other than the one last written. */
module ExprMachine {
  import opened Basics
  import opened ExprValue
  import opened ExprLang

  datatype Op =
    | PushConst | PushVar | Pop | Jump | JumpIfFalsePop | JumpIfFalseKeep | JumpIfTrueKeep
    | NegI | NegF | NegV | NotB
    | AddI | AddF | AddV | SubI | SubF | SubV
    | MulI | MulF | MulVV | MulVS | MulSV | MulQ
    | DivI | DivF | DivVS | ModI
    | LtI | LtF | LeI | LeF | GtI | GtF | GeI | GeF
    | EqB | EqI | EqF | EqS | EqN | EqV | NeB | NeI | NeF | NeS | NeN | NeV
    | IntToFloat | FloatToIntOp | Lane | CallNative

  datatype Instr = Instr(op: Op, lanes: nat, imm: int)

  const MAX_STACK: nat := 128
  const MAX_INSTRUCTIONS: nat := 4096

  datatype Program = Program(code: seq<Instr>, constants: seq<Value>, resultType: Ty, maxStack: nat, varCount: nat)

  predicate IsUnaryOp(op: Op) {
    op.NegI? || op.NegF? || op.NegV? || op.NotB? || op.IntToFloat? || op.FloatToIntOp? || op.Lane?
  }

  predicate IsIntOp(op: Op) {
    op.AddI? || op.SubI? || op.MulI? || op.DivI? || op.ModI? || op.LtI? || op.LeI? || op.GtI? || op.GeI? || op.EqI? || op.NeI?
  }

  predicate IsFloatOp(op: Op) {
    op.AddF? || op.SubF? || op.MulF? || op.DivF? || op.LtF? || op.LeF? || op.GtF? || op.GeF? || op.EqF? || op.NeF?
  }

  predicate IsOtherPairOp(op: Op) {
    op.EqB? || op.NeB? || op.EqS? || op.NeS? || op.EqN? || op.NeN? || op.AddV? || op.SubV? || op.MulVV? || op.MulVS? || op.MulSV? ||
    op.MulQ? || op.DivVS? || op.EqV? || op.NeV?
  }

  /** The opcodes that take two operands. */
  predicate IsBinaryOp(op: Op) { IsIntOp(op) || IsFloatOp(op) || IsOtherPairOp(op) }

  /** Replace the top of the stack, trap, or (None) read a payload that is not there. */
  function UnaryOp(fpu: Fpu, in_: Instr, a: Value): Option<Outcome> {
    match in_.op
    case NegI => if a.IntV? then Some(Good(IntV(Wrap(0 - a.i as int)))) else None
    case NegF => if a.FloatV? then Some(Good(FloatV(fpu.neg(a.f)))) else None
    case NegV => if a.LanesV? then Some(Good(a.(lanes := Lanes1(in_.lanes, fpu.neg, a.lanes)))) else None
    case NotB => if a.BoolV? then Some(Good(BoolV(!a.b))) else None
    case IntToFloat => if a.IntV? then Some(Good(FloatV(fpu.fromInt(a.i)))) else None
    case FloatToIntOp => if a.FloatV? then Some(FloatToInt(fpu, a.f)) else None
    case Lane => if a.LanesV? && 0 <= in_.imm < 4 then Some(Good(FloatV(a.lanes[in_.imm]))) else None
    case _ => None
  }

  /** a is under the top, b the top. */
  function BinaryOp(fpu: Fpu, in_: Instr, a: Value, b: Value): Option<Outcome> {
    if IsIntOp(in_.op) then
      if a.IntV? && b.IntV? then Some(IntOp(in_.op, a.i, b.i)) else None
    else if IsFloatOp(in_.op) then
      if a.FloatV? && b.FloatV? then Some(Good(FloatOp(fpu, in_.op, a.f, b.f))) else None
    else
      PairOp(fpu, in_, a, b)
  }

  function PairOp(fpu: Fpu, in_: Instr, a: Value, b: Value): Option<Outcome> {
    match in_.op
    case EqB => if a.BoolV? && b.BoolV? then Some(Good(BoolV(a.b == b.b))) else None
    case NeB => if a.BoolV? && b.BoolV? then Some(Good(BoolV(a.b != b.b))) else None
    case EqS => if a.StringV? && b.StringV? then Some(Good(BoolV(a.s == b.s))) else None
    case NeS => if a.StringV? && b.StringV? then Some(Good(BoolV(a.s != b.s))) else None
    case EqN => if a.NameV? && b.NameV? then Some(Good(BoolV(a.id == b.id))) else None
    case NeN => if a.NameV? && b.NameV? then Some(Good(BoolV(a.id != b.id))) else None
    case _ => LanesOp(fpu, in_, a, b)
  }

  function IntOp(op: Op, x: Int64, y: Int64): Outcome {
    match op
    case AddI => Good(IntV(Wrap(x as int + y as int)))
    case SubI => Good(IntV(Wrap(x as int - y as int)))
    case MulI => Good(IntV(Wrap(x as int * y as int)))
    case DivI =>
      if y == 0 then Fault(DivZero)
      else if y == -1 then Good(IntV(Wrap(0 - x as int)))
      else
        GuardedDivision(x, y);
        Good(IntV(TruncDiv(x as int, y as int) as Int64))
    case ModI =>
      if y == 0 then Fault(DivZero)
      else if y == -1 then Good(IntV(0))
      else
        RemainderIsLeftover(x as int, y as int);
        Good(IntV(TruncMod(x as int, y as int) as Int64))
    case LtI => Good(BoolV(x < y))
    case LeI => Good(BoolV(x <= y))
    case GtI => Good(BoolV(x > y))
    case GeI => Good(BoolV(x >= y))
    case EqI => Good(BoolV(x == y))
    case _ => Good(BoolV(x != y))
  }

  function FloatOp(fpu: Fpu, op: Op, x: Float32, y: Float32): Value {
    match op
    case AddF => FloatV(fpu.add(x, y))
    case SubF => FloatV(fpu.sub(x, y))
    case MulF => FloatV(fpu.mul(x, y))
    case DivF => FloatV(fpu.div(x, y))
    case LtF => BoolV(fpu.lt(x, y))
    case LeF => BoolV(fpu.le(x, y))
    case GtF => BoolV(fpu.gt(x, y))
    case GeF => BoolV(fpu.ge(x, y))
    case EqF => BoolV(fpu.eq(x, y))
    case _ => BoolV(!fpu.eq(x, y))
  }

  function LanesOp(fpu: Fpu, in_: Instr, a: Value, b: Value): Option<Outcome> {
    var n := in_.lanes;
    match in_.op
    case MulVS => if a.LanesV? && b.FloatV? then Some(Good(a.(lanes := LanesByScalar(n, fpu.mul, a.lanes, b.f)))) else None
    case DivVS => if a.LanesV? && b.FloatV? then Some(Good(a.(lanes := LanesByScalar(n, fpu.div, a.lanes, b.f)))) else None
    case MulSV => if a.FloatV? && b.LanesV? then Some(Good(b.(lanes := ScalarByLanes(n, fpu.mul, a.f, b.lanes)))) else None
    case _ => if a.LanesV? && b.LanesV? then LanePairOp(fpu, in_, a, b) else None
  }

  function LanePairOp(fpu: Fpu, in_: Instr, a: Value, b: Value): Option<Outcome>
    requires a.LanesV? && b.LanesV?
  {
    var n := in_.lanes;
    match in_.op
    case AddV => Some(Good(a.(lanes := Lanes2(n, fpu.add, a.lanes, b.lanes))))
    case SubV => Some(Good(a.(lanes := Lanes2(n, fpu.sub, a.lanes, b.lanes))))
    case MulVV => Some(Good(a.(lanes := Lanes2(n, fpu.mul, a.lanes, b.lanes))))
    case MulQ => Some(Good(LanesV(TQuat, fpu.quatMul(a.lanes, b.lanes))))
    case EqV => Some(Good(BoolV(LanesEqual(n, fpu.eq, a.lanes, b.lanes))))
    case NeV => Some(Good(BoolV(!LanesEqual(n, fpu.eq, a.lanes, b.lanes))))
    case _ => None
  }

  datatype Turn = Next(skip: nat, stack: seq<Value>) | Trap(status: Status) | Stuck

  function Push(stack: seq<Value>, v: Value): Turn {
    if |stack| < MAX_STACK then Next(0, stack + [v]) else Stuck
  }

  /** The stack after its top `n` values become the outcome. */
  function Replace(stack: seq<Value>, n: nat, r: Option<Outcome>): Turn
    requires n <= |stack|
  {
    match r
    case None => Stuck
    case Some(Fault(s)) => Trap(s)
    case Some(Good(v)) => Next(0, stack[..|stack| - n] + [v])
  }

  function Branch(stack: seq<Value>, in_: Instr, jumpWhen: bool, keep: bool): Turn {
    var t := |stack| - 1;
    if t < 0 || !stack[t].BoolV? || in_.imm < 0 then Stuck
    else Next(if stack[t].b == jumpWhen then in_.imm else 0, if keep then stack else stack[..t])
  }

  function Step(ctx: Ctx, constants: seq<Value>, vars: seq<Value>, in_: Instr, stack: seq<Value>): Turn {
    match in_.op
    case PushConst => if 0 <= in_.imm < |constants| then Push(stack, constants[in_.imm]) else Stuck
    case PushVar => if 0 <= in_.imm < |vars| then Push(stack, vars[in_.imm]) else Stuck
    case Pop => if |stack| < 1 then Stuck else Next(0, stack[..|stack| - 1])
    case Jump => if in_.imm < 0 then Stuck else Next(in_.imm, stack)
    case JumpIfFalsePop => Branch(stack, in_, false, false)
    case JumpIfFalseKeep => Branch(stack, in_, false, true)
    case JumpIfTrueKeep => Branch(stack, in_, true, true)
    case CallNative => NativeTurn(ctx, in_, stack)
    case _ => OperatorTurn(ctx.fpu, in_, stack)
  }

  function OperatorTurn(fpu: Fpu, in_: Instr, stack: seq<Value>): Turn {
    var h := |stack|;
    if IsUnaryOp(in_.op) then
      if h < 1 then Stuck else Replace(stack, 1, UnaryOp(fpu, in_, stack[h - 1]))
    else
      if h < 2 then Stuck else Replace(stack, 2, BinaryOp(fpu, in_, stack[h - 2], stack[h - 1]))
  }

  function NativeTurn(ctx: Ctx, in_: Instr, stack: seq<Value>): Turn {
    if !(0 <= in_.imm < |ctx.table|) then Stuck
    else
      var f := ctx.table[in_.imm];
      var n := |f.params|;
      if |stack| < n || f.intrinsic || !ArgsTyped(stack[|stack| - n..], f.params) then Stuck
      else Replace(stack, n, Some(Good(NativeResult(f.result, ctx.fpu.native(in_.imm, stack[|stack| - n..])))))
  }

  /** Natives read the payloads their declaration promises. */
  predicate ArgsTyped(vs: seq<Value>, params: seq<Ty>) {
    |vs| == |params| && forall i | 0 <= i < |vs| :: TypedAs(vs[i], params[i])
  }

  datatype Final = Halt(stack: seq<Value>) | Trapped(status: Status) | Wrong

  /** The loop over the instructions still ahead: jumps only go forward, so it ends. */
  function Run(ctx: Ctx, constants: seq<Value>, vars: seq<Value>, rest: seq<Instr>, stack: seq<Value>): Final
    decreases |rest|
  {
    if |rest| == 0 then Halt(stack)
    else match Step(ctx, constants, vars, rest[0], stack)
      case Stuck => Wrong
      case Trap(s) => Trapped(s)
      case Next(skip, stack') =>
        if skip < |rest| then Run(ctx, constants, vars, rest[1 + skip..], stack') else Wrong
  }
}
