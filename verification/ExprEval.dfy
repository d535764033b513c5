/** The evaluator: one dispatch loop over a fixed stack array. */
module ExprEval {
  import opened Basics
  import opened ExprValue
  import opened ExprLang
  import opened ExprMachine
  import opened ExprCompiler
  import opened ExprCorrect
  import opened ExprStackTypes
  import opened ExprProgram

  /** The array's live part is `before`; the operators leave the stack the machine's rule says. */
  method Operator(fpu: Fpu, in_: Instr, stack: array<Value>, sp: nat) returns (sp': nat, trap: Option<Status>)
    requires stack.Length == MAX_STACK && sp <= MAX_STACK && OperatorTurn(fpu, in_, stack[..sp]) != Stuck
    modifies stack
    ensures sp' <= MAX_STACK
    ensures match OperatorTurn(fpu, in_, old(stack[..sp]))
            case Next(skip, after) => skip == 0 && trap == None && stack[..sp'] == after
            case Trap(s) => trap == Some(s)
            case Stuck => false
  {
    hide UnaryOp, BinaryOp;
    ghost var before := stack[..sp];
    var t, u := sp - 1, sp - 2;
    if IsUnaryOp(in_.op) {
      var out := UnaryOp(fpu, in_, stack[t]).value;
      if out.Fault? {
        return sp, Some(out.status);
      }
      stack[t] := out.v;
      assert stack[..sp] == before[..sp - 1] + [out.v];
      return sp, None;
    } else {
      var out := BinaryOp(fpu, in_, stack[u], stack[t]).value;
      if out.Fault? {
        return sp, Some(out.status);
      }
      stack[u] := out.v;
      assert stack[..sp - 1] == before[..sp - 2] + [out.v];
      return sp - 1, None;
    }
  }

  /** A native call replaces its arguments, in place, by its result. */
  method Native(ctx: Ctx, in_: Instr, stack: array<Value>, sp: nat) returns (sp': nat)
    requires stack.Length == MAX_STACK && sp <= MAX_STACK && NativeTurn(ctx, in_, stack[..sp]) != Stuck
    modifies stack
    ensures sp' <= MAX_STACK && NativeTurn(ctx, in_, old(stack[..sp])) == Next(0, stack[..sp'])
  {
    ghost var before := stack[..sp];
    var f := ctx.table[in_.imm];
    assert BuiltinOk(f);
    var d := sp - |f.params|;
    var args := stack[d..sp];
    assert args == before[d..];
    sp' := sp - (|f.params| - 1);
    stack[sp' - 1] := NativeResult(f.result, ctx.fpu.native(in_.imm, args));
    assert stack[..sp'] == before[..d] + [stack[sp' - 1]];
  }

  method Push(v: Value, stack: array<Value>, sp: nat) returns (sp': nat)
    requires stack.Length == MAX_STACK && sp < MAX_STACK
    modifies stack
    ensures sp' == sp + 1 && stack[..sp'] == old(stack[..sp]) + [v]
  {
    stack[sp] := v;
    sp' := sp + 1;
  }

  /** One turn of the loop: the array and the two cursors follow the machine's step. */
  method Dispatch(ctx: Ctx, p: Program, vars: seq<Value>, in_: Instr, stack: array<Value>, sp: nat)
    returns (sp': nat, skip: nat, trap: Option<Status>)
    requires stack.Length == MAX_STACK && sp <= MAX_STACK && Step(ctx, p.constants, vars, in_, stack[..sp]) != Stuck
    modifies stack
    ensures sp' <= MAX_STACK
    ensures match Step(ctx, p.constants, vars, in_, old(stack[..sp]))
            case Next(s, after) => trap == None && skip == s && stack[..sp'] == after
            case Trap(s) => trap == Some(s)
            case Stuck => false
  {
    hide OperatorTurn, NativeTurn;
    sp', skip, trap := sp, 0, None;
    match in_.op
    case PushConst => sp' := Push(p.constants[in_.imm], stack, sp);
    case PushVar => sp' := Push(vars[in_.imm], stack, sp);
    case Pop =>
      sp' := sp - 1;
      assert stack[..sp'] == stack[..sp][..sp - 1];
    case Jump => skip := in_.imm;
    case JumpIfFalsePop =>
      if !stack[sp - 1].b { skip := in_.imm; }
      sp' := sp - 1;
      assert stack[..sp'] == stack[..sp][..sp - 1];
    case JumpIfFalseKeep => if !stack[sp - 1].b { skip := in_.imm; }
    case JumpIfTrueKeep => if stack[sp - 1].b { skip := in_.imm; }
    case CallNative => sp' := Native(ctx, in_, stack, sp);
    case _ => sp', trap := Operator(ctx.fpu, in_, stack, sp);
  }

  /** A point of the run from `ip` with this stack: typed, and with the whole run's result. */
  predicate Live(fr: Frame, code: seq<Instr>, map_: seq<Types>, ip: nat, stack: seq<Value>) {
    && FrameOk(fr) && ConstantsOk(fr.constants)
    && |map_| == |code| + 1 && ip <= |code|
    && Checked(fr.ctx, fr.constants, code[ip..], map_[ip..]) && StackTyped(stack, map_[ip])
    && RunOn(fr, code, []) == RunOn(fr, code[ip..], stack)
  }

  lemma {:induction false} LiveAtStart(fr: Frame, code: seq<Instr>, map_: seq<Types>)
    requires FrameOk(fr) && ConstantsOk(fr.constants) && Checked(fr.ctx, fr.constants, code, map_) && map_[0] == []
    ensures Live(fr, code, map_, 0, [])
  {
    assert code[0..] == code && map_[0..] == map_;
  }

  lemma {:induction false} LiveAtEnd(fr: Frame, code: seq<Instr>, map_: seq<Types>, stack: seq<Value>)
    requires Live(fr, code, map_, |code|, stack)
    ensures RunOn(fr, code, []) == Halt(stack) && |stack| == |map_[|code|]|
  {
    assert code[|code|..] == [];
    HaltsAtEnd(fr, stack);
  }

  /** What one turn keeps: it never gets stuck, it traps when the run does, or it goes on. */
  lemma {:induction false} LiveTurn(fr: Frame, code: seq<Instr>, map_: seq<Types>, ip: nat, stack: seq<Value>)
    requires Live(fr, code, map_, ip, stack) && ip < |code|
    ensures match Step(fr.ctx, fr.constants, fr.vars, code[ip], stack)
            case Stuck => false
            case Trap(s) => RunOn(fr, code, []) == Trapped(s)
            case Next(skip, after) => ip + 1 + skip <= |code| && Live(fr, code, map_, ip + 1 + skip, after)
  {
    hide Step, InstrOk;
    var rest, types := code[ip..], map_[ip..];
    StepTyped(fr, rest[0], types[0], types[1..], stack);
    var turn := Step(fr.ctx, fr.constants, fr.vars, rest[0], stack);
    if turn.Next? {
      var next := ip + 1 + turn.skip;
      CheckedSuffix(fr.ctx, fr.constants, rest, types, 1 + turn.skip);
      assert rest[1 + turn.skip..] == code[next..] && types[1 + turn.skip..] == map_[next..];
      assert types[1..][turn.skip] == map_[next];
    }
  }

  datatype EvalResult = EvalOk(value: Value) | EvalFault(status: Status)

  /** Evaluate a program against typed bindings.  The stack map is what the compiler proves
      about its output; with it, every index is in range and every payload read is the one
      last written, and the loop takes at most one step an instruction. */
  method Eval(ctx: Ctx, p: Program, vars: seq<Value>, ghost map_: seq<Types>) returns (r: EvalResult, ghost steps: nat)
    requires FrameOk(ProgramFrame(ctx, p, vars)) && ConstantsOk(p.constants)
    requires Checked(ctx, p.constants, p.code, map_) && map_[0] == [] && |map_[|p.code|]| == 1
    ensures RunOn(ProgramFrame(ctx, p, vars), p.code, []) ==
            match r case EvalOk(v) => Halt([v]) case EvalFault(s) => Trapped(s)
    ensures steps <= |p.code|
  {
    hide Step, Run, RunOn, Live;
    var stack := new Value[MAX_STACK](_ => BoolV(false));
    var sp: nat, ip: nat := 0, 0;
    ghost var fr := ProgramFrame(ctx, p, vars);
    steps := 0;
    LiveAtStart(fr, p.code, map_);
    assert stack[..0] == [];
    hide Checked, FrameOk, ConstantsOk;
    while ip < |p.code|
      invariant ip <= |p.code| && sp <= MAX_STACK && steps <= ip
      invariant Live(fr, p.code, map_, ip, stack[..sp])
      decreases |p.code| - ip
    {
      LiveTurn(fr, p.code, map_, ip, stack[..sp]);
      var skip, trap;
      sp, skip, trap := Dispatch(ctx, p, vars, p.code[ip], stack, sp);
      steps := steps + 1;
      if trap.Some? {
        return EvalFault(trap.value), steps;
      }
      ip := ip + 1 + skip;
    }
    LiveAtEnd(fr, p.code, map_, stack[..sp]);
    assert stack[..sp] == [stack[0]];
    r := EvalOk(stack[0]);
  }
}
