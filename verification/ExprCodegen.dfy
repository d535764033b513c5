/** The code generator: appends instructions, back-patches the jumps it left open, and
    tracks the stack depth the code will reach. */
module ExprCodegen {
  import opened Basics
  import opened ExprValue
  import opened ExprLang
  import opened ExprMachine
  import opened ExprCompiler
  import opened ExprCorrect
  import opened ExprProgram

  /** All that code generation has produced so far. */
  datatype Output = Output(code: seq<Instr>, constants: seq<Value>, depth: nat, maxDepth: nat)

  /** The output after code that leaves `values` more values and needs `need` slots. */
  function Adding(o: Output, c: seq<Instr>, x: seq<Value>, values: nat, need: nat): Output {
    Output(o.code + c, o.constants + x, o.depth + values, Max(o.maxDepth, o.depth + need))
  }

  /** A node's share of the output. */
  function AddingNode(ctx: Ctx, o: Output, n: Node): Output {
    Adding(o, Code(ctx, n, |o.constants|), Constants(ctx.fpu, n), 1, Need(n))
  }

  function AddingCore(ctx: Ctx, o: Output, n: Node): Output {
    Adding(o, Core(ctx, n, |o.constants|), Constants(ctx.fpu, n), 1, Need(n))
  }

  function AddingArgs(ctx: Ctx, o: Output, ns: seq<Node>): Output {
    Adding(o, CodeOf(ctx, ns, |o.constants|), ConstantsOf(ctx.fpu, ns), |ns|, NeedOf(ns))
  }

  function Append(o: Output, c: seq<Instr>): Output { o.(code := o.code + c) }

  lemma {:induction false} StrictOutput(ctx: Ctx, o: Output, n: Node)
    requires n.NBinary? && Strict(n.op)
    ensures var o2 := AddingNode(ctx, AddingNode(ctx, o, n.a), n.b);
            Append(o2, [SelectOp(n.op, Effective(n.a), Effective(n.b))]).(depth := o.depth + 1) == AddingCore(ctx, o, n)
  {
    hide Code, SelectOp;
  }

  lemma {:induction false} ShortCircuitOutput(ctx: Ctx, o: Output, n: Node)
    requires n.NBinary? && !Strict(n.op)
    ensures var o1 := AddingNode(ctx, o, n.a);
            var jump := Instr(if n.op == KAnd then JumpIfFalseKeep else JumpIfTrueKeep, 0, Int16(0));
            var o2 := Append(o1, [jump] + [Instr(Pop, 0, 0)]).(depth := o.depth);
            var o3 := AddingNode(ctx, o2, n.b);
            var at := |o1.code|;
            o3.(code := o3.code[at := jump.(imm := Int16(|o3.code| - at - 1))]) == AddingCore(ctx, o, n)
  {
    hide Code, Int16;
  }

  /** The two back-patches of a conditional, in the order they are made. */
  lemma {:induction false} BothPatched(before: seq<Instr>, cc: seq<Instr>, ca: seq<Instr>, cb: seq<Instr>)
    ensures var toElse, toEnd := Instr(JumpIfFalsePop, 0, Int16(0)), Instr(Jump, 0, Int16(0));
            var c1 := before + cc + [toElse] + ca + [toEnd];
            var at1, at2 := |before| + |cc|, |before| + |cc| + 1 + |ca|;
            var c2 := c1[at1 := toElse.(imm := Int16(|c1| - at1 - 1))] + cb;
            c2[at2 := toEnd.(imm := Int16(|c2| - at2 - 1))] ==
            before + (cc + [Instr(JumpIfFalsePop, 0, Int16(|ca| + 1))] + ca + [Instr(Jump, 0, Int16(|cb|))] + cb)
  {
    hide Int16;
  }

  lemma {:induction false} TernaryOutput(ctx: Ctx, o: Output, n: Node)
    requires n.NTernary?
    ensures var toElse, toEnd := Instr(JumpIfFalsePop, 0, Int16(0)), Instr(Jump, 0, Int16(0));
            var o1 := AddingNode(ctx, o, n.c);
            var o2 := Append(AddingNode(ctx, Append(o1, [toElse]).(depth := o.depth), n.a), [toEnd]);
            var at1, at2 := |o1.code|, |o2.code| - 1;
            var o3 := o2.(code := o2.code[at1 := toElse.(imm := Int16(|o2.code| - at1 - 1))], depth := o.depth);
            var o4 := AddingNode(ctx, o3, n.b);
            o4.(code := o4.code[at2 := toEnd.(imm := Int16(|o4.code| - at2 - 1))]) == AddingCore(ctx, o, n)
  {
    hide Code, Int16;
    var ka := |o.constants| + |Constants(ctx.fpu, n.c)|;
    BothPatched(o.code, Code(ctx, n.c, |o.constants|), Code(ctx, n.a, ka), Code(ctx, n.b, ka + |Constants(ctx.fpu, n.a)|));
  }

  lemma {:induction false} CallOutput(ctx: Ctx, o: Output, n: Node)
    requires n.NCall?
    ensures Append(AddingArgs(ctx, o, n.args), CallOp(ctx.table, n.builtin)).(depth := o.depth + 1) == AddingCore(ctx, o, n)
  {
  }

  lemma {:induction false} ArgOutput(ctx: Ctx, o: Output, ns: seq<Node>, i: nat)
    requires i < |ns|
    ensures AddingNode(ctx, AddingArgs(ctx, o, ns[..i]), ns[i]) == AddingArgs(ctx, o, ns[..i + 1])
  {
    hide Code, Constants, Need;
    assert ns[..i + 1][..i] == ns[..i];
  }

  class Codegen {
    const ctx: Ctx
    var code: seq<Instr>
    var constants: seq<Value>
    var depth: nat
    var maxDepth: nat

    constructor (ctx: Ctx)
      ensures this.ctx == ctx && code == [] && constants == [] && depth == 0 && maxDepth == 0
    {
      this.ctx := ctx;
      code, constants, depth, maxDepth := [], [], 0, 0;
    }

    method Emit(op: Op, lanes: nat, imm: int) returns (at: nat)
      modifies this`code
      ensures at == |old(code)| && code == old(code) + [Instr(op, lanes, Int16(imm))]
    {
      at := |code|;
      code := code + [Instr(op, lanes, Int16(imm))];
    }

    method EmitInstr(in_: Instr)
      requires in_.imm == 0
      modifies this`code
      ensures code == old(code) + [in_]
    {
      var _ := Emit(in_.op, in_.lanes, 0);
    }

    /** Points the jump at `jumpAt` at the next instruction to come. */
    method Patch(jumpAt: nat)
      requires jumpAt < |code|
      modifies this`code
      ensures code == old(code)[jumpAt := old(code)[jumpAt].(imm := Int16(|old(code)| - jumpAt - 1))]
    {
      code := code[jumpAt := code[jumpAt].(imm := Int16(|code| - jumpAt - 1))];
    }

    method Push()
      modifies this`depth, this`maxDepth
      ensures depth == old(depth) + 1 && maxDepth == Max(old(maxDepth), depth)
    {
      depth := depth + 1;
      if depth > maxDepth {
        maxDepth := depth;
      }
    }

    method AddConstant(v: Value) returns (index: nat)
      modifies this`constants
      ensures index == |old(constants)| && constants == old(constants) + [v]
    {
      index := |constants|;
      constants := constants + [v];
    }

    ghost function Out(): Output
      reads this
    {
      Output(code, constants, depth, maxDepth)
    }

    method EmitNode(n: Node)
      requires Shaped(ctx.table, n) && depth <= maxDepth
      modifies this
      ensures Out() == AddingNode(ctx, old(Out()), n) && depth <= maxDepth
      decreases n, 2
    {
      EmitCore(n);
      if n.coerce && !FoldsCoercion(n) {
        EmitInstr(Instr(IntToFloat, 0, 0));
      }
    }

    method EmitCore(n: Node)
      requires Shaped(ctx.table, n) && depth <= maxDepth
      modifies this
      ensures Out() == AddingCore(ctx, old(Out()), n) && depth <= maxDepth
      decreases n, 1
    {
      match n
      case NLit(v, _, coerce) =>
        var index := AddConstant(if coerce && v.IntV? then FloatV(ctx.fpu.fromInt(v.i)) else v);
        var _ := Emit(PushConst, 0, index);
        Push();
      case NPath(slot, lane, _, _) =>
        var _ := Emit(PushVar, 0, slot);
        Push();
        if lane >= 0 {
          var _ := Emit(Lane, 0, lane);
        }
      case NMember(base, lane, _, _) =>
        EmitNode(base);
        var _ := Emit(Lane, 0, lane);
      case NUnary(op, a, _, _) =>
        EmitNode(a);
        EmitInstr(if op == KNot then Instr(NotB, 0, 0) else NegOp(Effective(a)));
      case NBinary(op, _, _, _, _) =>
        if op == KAnd || op == KOr {
          EmitShortCircuit(n);
        } else {
          EmitStrict(n);
        }
      case NTernary(_, _, _, _, _) => EmitTernary(n);
      case NCall(_, _, _, _) => EmitCall(n);
    }

    method EmitStrict(n: Node)
      requires n.NBinary? && Strict(n.op) && Shaped(ctx.table, n) && depth <= maxDepth
      modifies this
      ensures Out() == AddingCore(ctx, old(Out()), n) && depth <= maxDepth
      decreases n, 0
    {
      hide Code, Core, Constants, Need, SelectOp, AddingCore;
      EmitNode(n.a);
      EmitNode(n.b);
      SelectedHasNoImmediate(n.op, Effective(n.a), Effective(n.b));
      EmitInstr(SelectOp(n.op, Effective(n.a), Effective(n.b)));
      depth := depth - 1;
      StrictOutput(ctx, old(Out()), n);
    }

    lemma {:induction false} SelectedHasNoImmediate(op: TokenKind, ta: Ty, tb: Ty)
      ensures SelectOp(op, ta, tb).imm == 0
    {
    }

    method EmitShortCircuit(n: Node)
      requires n.NBinary? && !Strict(n.op) && Shaped(ctx.table, n) && depth <= maxDepth
      modifies this
      ensures Out() == AddingCore(ctx, old(Out()), n) && depth <= maxDepth
      decreases n, 0
    {
      hide Code, Core, Constants, Need, AddingCore, Int16;
      EmitNode(n.a);
      var jumpAt := Emit(if n.op == KAnd then JumpIfFalseKeep else JumpIfTrueKeep, 0, 0);
      EmitInstr(Instr(Pop, 0, 0));
      depth := depth - 1;
      EmitNode(n.b);
      Patch(jumpAt);
      ShortCircuitOutput(ctx, old(Out()), n);
    }

    method EmitTernary(n: Node)
      requires n.NTernary? && Shaped(ctx.table, n) && depth <= maxDepth
      modifies this
      ensures Out() == AddingCore(ctx, old(Out()), n) && depth <= maxDepth
      decreases n, 0
    {
      hide Code, Core, Constants, Need, AddingCore, Int16;
      EmitNode(n.c);
      var toElse := Emit(JumpIfFalsePop, 0, 0);
      depth := depth - 1;
      var depthAtBranch := depth;
      EmitNode(n.a);
      var toEnd := Emit(Jump, 0, 0);
      Patch(toElse);
      depth := depthAtBranch;
      EmitNode(n.b);
      Patch(toEnd);
      TernaryOutput(ctx, old(Out()), n);
    }

    method EmitCall(n: Node)
      requires n.NCall? && Shaped(ctx.table, n) && depth <= maxDepth
      modifies this
      ensures Out() == AddingCore(ctx, old(Out()), n) && depth <= maxDepth
      decreases n, 0
    {
      hide AddingNode, Code, Constants, Need;
      assert n.args[..0] == [];
      var i := 0;
      while i < |n.args|
        invariant i <= |n.args| && depth <= maxDepth && Out() == AddingArgs(ctx, old(Out()), n.args[..i])
      {
        ArgOutput(ctx, old(Out()), n.args, i);
        EmitNode(n.args[i]);
        i := i + 1;
      }
      assert n.args[..i] == n.args;
      var f := ctx.table[n.builtin];
      assert BuiltinOk(f);
      if f.intrinsic {
        EmitInstr(Instr(if f.result == TInt then FloatToIntOp else IntToFloat, 0, 0));
      } else {
        var _ := Emit(CallNative, 0, n.builtin);
      }
      depth := depth - (|f.params| - 1);
      CallOutput(ctx, old(Out()), n);
    }

    /** The program, or a refusal at the root when it is too large for the evaluator. */
    method Run(root: Node, at: nat) returns (r: Result<Program>)
      requires Shaped(ctx.table, root) && code == [] && constants == [] && depth == 0 && maxDepth == 0
      modifies this
      ensures var p := Program(Code(ctx, root, 0), Constants(ctx.fpu, root), Effective(root), Need(root), |ctx.vars|);
              r == if WithinLimits(p) then Success(p) else Failure(Diag(TooComplex, at))
    {
      EmitNode(root);
      assert code == Code(ctx, root, 0) && constants == Constants(ctx.fpu, root);
      if |code| > MAX_INSTRUCTIONS || maxDepth > MAX_STACK {
        return Failure(Diag(TooComplex, at));
      }
      return Success(Program(code, constants, Effective(root), maxDepth, |ctx.vars|));
    }
  }
}
