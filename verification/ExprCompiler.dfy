/** What type checking and code generation produce, as functions of the source tree. */
module ExprCompiler {
  import opened Basics
  import opened ExprValue
  import opened ExprLang
  import opened ExprMachine

  /** The annotated tree: a source node plus what the checker writes into it. */
  datatype Node =
    | NLit(lit: Value, ty: Ty, coerce: bool)
    | NPath(slot: int, lane: int, ty: Ty, coerce: bool)
    | NMember(base: Node, lane: int, ty: Ty, coerce: bool)
    | NUnary(op: TokenKind, a: Node, ty: Ty, coerce: bool)
    | NBinary(op: TokenKind, a: Node, b: Node, ty: Ty, coerce: bool)
    | NTernary(c: Node, a: Node, b: Node, ty: Ty, coerce: bool)
    | NCall(builtin: int, args: seq<Node>, ty: Ty, coerce: bool)

  function Effective(n: Node): Ty { if n.coerce then TFloat else n.ty }

  /** A checked child where its parent wants type `want`. */
  function As(fpu: Fpu, n: Node, want: Ty): Node {
    if Effective(n) == TInt && want == TFloat then n.(coerce := true)
    else if n.NLit? && n.lit.StringV? && n.ty == TString && want == TName then NLit(NameV(fpu.intern(n.lit.s)), TName, n.coerce)
    else n
  }

  /** The annotated tree of a well-typed source tree. */
  function Elab(ctx: Ctx, e: Expr): Node
    requires Infer(ctx, e).Success?
    decreases e, 0
  {
    var t := Infer(ctx, e).value;
    match e
    case Lit(v, _) => NLit(v, t, false)
    case Path(segments, _) =>
      var (count, slot) := LongestPrefix(ctx.vars, segments).value;
      NPath(Int16(slot), if |segments| == count then -1 else LaneIndex(segments[count]).value, t, false)
    case Member(base, member, _) => NMember(Elab(ctx, base), LaneIndex(member).value, t, false)
    case Unary(op, a, _) => NUnary(op, Elab(ctx, a), t, false)
    case Binary(op, a, b, _) =>
      var rule := BinaryRule(op, Infer(ctx, a).value, Infer(ctx, b).value, IsText(a), IsText(b)).value;
      NBinary(op, As(ctx.fpu, Elab(ctx, a), rule.left), As(ctx.fpu, Elab(ctx, b), rule.right), t, false)
    case Ternary(c, a, b, _) =>
      NTernary(Elab(ctx, c), As(ctx.fpu, Elab(ctx, a), t), As(ctx.fpu, Elab(ctx, b), t), t, false)
    case Call(segments, args, _) =>
      var index := FindBuiltin(ctx.table, Join(segments)).value;
      NCall(index, ElabArgs(ctx, args, ctx.table[index].params), t, false)
  }

  function ElabArgs(ctx: Ctx, args: seq<Expr>, params: seq<Ty>): (r: seq<Node>)
    requires |args| == |params| && InferArgs(ctx, args, params).Success?
    ensures |r| == |args|
    decreases args, 1
  {
    if args == [] then []
    else
      var n := |args| - 1;
      ElabArgs(ctx, args[..n], params[..n]) + [As(ctx.fpu, Elab(ctx, args[n]), params[n])]
  }

  /** What code generation relies on: literals are scalars or text, and a call names a
      function and passes it as many arguments as it takes. */
  predicate Shaped(table: Table, n: Node)
    decreases n
  {
    match n
    case NLit(v, _, _) => !v.LanesV?
    case NPath(_, _, _, _) => true
    case NMember(b, _, _, _) => Shaped(table, b)
    case NUnary(_, a, _, _) => Shaped(table, a)
    case NBinary(_, a, b, _, _) => Shaped(table, a) && Shaped(table, b)
    case NTernary(c, a, b, _, _) => Shaped(table, c) && Shaped(table, a) && Shaped(table, b)
    case NCall(builtin, args, _, _) =>
      0 <= builtin < |table| && |args| == |table[builtin].params| && forall a | a in args :: Shaped(table, a)
  }

  // ---- constants, code, stack need -----------------------------------------------

  /** A literal int that is coerced becomes a float constant. */
  predicate FoldsCoercion(n: Node) { n.NLit? && n.lit.IntV? && n.coerce }

  function LitConstant(fpu: Fpu, n: Node): Value
    requires n.NLit?
  {
    if FoldsCoercion(n) then FloatV(fpu.fromInt(n.lit.i)) else n.lit
  }

  function Constants(fpu: Fpu, n: Node): seq<Value>
    decreases n, 0
  {
    match n
    case NLit(_, _, _) => [LitConstant(fpu, n)]
    case NPath(_, _, _, _) => []
    case NMember(base, _, _, _) => Constants(fpu, base)
    case NUnary(_, a, _, _) => Constants(fpu, a)
    case NBinary(_, a, b, _, _) => Constants(fpu, a) + Constants(fpu, b)
    case NTernary(c, a, b, _, _) => Constants(fpu, c) + Constants(fpu, a) + Constants(fpu, b)
    case NCall(_, args, _, _) => ConstantsOf(fpu, args)
  }

  function ConstantsOf(fpu: Fpu, args: seq<Node>): seq<Value>
    decreases args, 1
  {
    if args == [] then []
    else ConstantsOf(fpu, args[..|args| - 1]) + Constants(fpu, args[|args| - 1])
  }

  function NegOp(t: Ty): Instr {
    if t == TInt then Instr(NegI, 0, 0) else if t == TFloat then Instr(NegF, 0, 0) else Instr(NegV, LaneCount(t), 0)
  }

  /** The opcode for a strict operator at its operands' static types. */
  function SelectOp(op: TokenKind, ta: Ty, tb: Ty): Instr {
    var la, lb := LaneCount(ta), LaneCount(tb);
    var lanes := if la != 0 then la else lb;
    var ints := ta == TInt;
    match op
    case KPlus => Instr(if lanes != 0 then AddV else if ints then AddI else AddF, lanes, 0)
    case KMinus => Instr(if lanes != 0 then SubV else if ints then SubI else SubF, lanes, 0)
    case KStar =>
      if ta == TQuat then Instr(MulQ, 0, 0)
      else if la != 0 && lb != 0 then Instr(MulVV, la, 0)
      else if la != 0 then Instr(MulVS, la, 0)
      else if lb != 0 then Instr(MulSV, lb, 0)
      else Instr(if ints then MulI else MulF, 0, 0)
    case KSlash => if la != 0 then Instr(DivVS, la, 0) else Instr(if ints then DivI else DivF, 0, 0)
    case KPercent => Instr(ModI, 0, 0)
    case KLt => Instr(if ints then LtI else LtF, 0, 0)
    case KLe => Instr(if ints then LeI else LeF, 0, 0)
    case KGt => Instr(if ints then GtI else GtF, 0, 0)
    case KGe => Instr(if ints then GeI else GeF, 0, 0)
    case _ => EqualityOp(op == KEqEq, ta)
  }

  function EqualityOp(eq: bool, t: Ty): Instr {
    match t
    case TBool => Instr(if eq then EqB else NeB, 0, 0)
    case TInt => Instr(if eq then EqI else NeI, 0, 0)
    case TFloat => Instr(if eq then EqF else NeF, 0, 0)
    case TString => Instr(if eq then EqS else NeS, 0, 0)
    case TName => Instr(if eq then EqN else NeN, 0, 0)
    case _ => Instr(if eq then EqV else NeV, LaneCount(t), 0)
  }

  function CallOp(table: Table, builtin: int): seq<Instr> {
    if !(0 <= builtin < |table|) then []
    else if table[builtin].intrinsic then [Instr(if table[builtin].result == TInt then FloatToIntOp else IntToFloat, 0, 0)]
    else [Instr(CallNative, 0, Int16(builtin))]
  }

  /** The code of a node whose first constant gets index k. */
  function Code(ctx: Ctx, n: Node, k: nat): seq<Instr>
    decreases n, 1
  {
    Core(ctx, n, k) + (if n.coerce && !FoldsCoercion(n) then [Instr(IntToFloat, 0, 0)] else [])
  }

  function Core(ctx: Ctx, n: Node, k: nat): seq<Instr>
    decreases n, 0
  {
    match n
    case NLit(_, _, _) => [Instr(PushConst, 0, Int16(k))]
    case NPath(slot, lane, _, _) => [Instr(PushVar, 0, Int16(slot))] + (if lane >= 0 then [Instr(Lane, 0, Int16(lane))] else [])
    case NMember(base, lane, _, _) => Code(ctx, base, k) + [Instr(Lane, 0, Int16(lane))]
    case NUnary(op, a, _, _) => Code(ctx, a, k) + [if op == KNot then Instr(NotB, 0, 0) else NegOp(Effective(a))]
    case NBinary(op, a, b, _, _) =>
      var ca := Code(ctx, a, k);
      var cb := Code(ctx, b, k + |Constants(ctx.fpu, a)|);
      if op == KAnd || op == KOr then
        ca + [Instr(if op == KAnd then JumpIfFalseKeep else JumpIfTrueKeep, 0, Int16(|cb| + 1)), Instr(Pop, 0, 0)] + cb
      else ca + cb + [SelectOp(op, Effective(a), Effective(b))]
    case NTernary(c, a, b, _, _) =>
      var ka := k + |Constants(ctx.fpu, c)|;
      var cc := Code(ctx, c, k);
      var ca := Code(ctx, a, ka);
      var cb := Code(ctx, b, ka + |Constants(ctx.fpu, a)|);
      cc + [Instr(JumpIfFalsePop, 0, Int16(|ca| + 1))] + ca + [Instr(Jump, 0, Int16(|cb|))] + cb
    case NCall(builtin, args, _, _) => CodeOf(ctx, args, k) + CallOp(ctx.table, builtin)
  }

  function CodeOf(ctx: Ctx, args: seq<Node>, k: nat): seq<Instr>
    decreases args, 2
  {
    if args == [] then []
    else
      var before := args[..|args| - 1];
      CodeOf(ctx, before, k) + Code(ctx, args[|args| - 1], k + |ConstantsOf(ctx.fpu, before)|)
  }

  /** How many stack slots the node's code needs above its starting height. */
  function Need(n: Node): nat
    decreases n, 0
  {
    match n
    case NLit(_, _, _) => 1
    case NPath(_, _, _, _) => 1
    case NMember(base, _, _, _) => Need(base)
    case NUnary(_, a, _, _) => Need(a)
    case NBinary(op, a, b, _, _) => Max(Need(a), if op == KAnd || op == KOr then Need(b) else 1 + Need(b))
    case NTernary(c, a, b, _, _) => Max(Need(c), Max(Need(a), Need(b)))
    case NCall(_, args, _, _) => NeedOf(args)
  }

  function NeedOf(args: seq<Node>): nat
    decreases args, 1
  {
    if args == [] then 0
    else Max(NeedOf(args[..|args| - 1]), |args| - 1 + Need(args[|args| - 1]))
  }

  /** The compiled program of a well-typed tree, before the size checks. */
  function ProgramOf(ctx: Ctx, e: Expr): Program
    requires Infer(ctx, e).Success?
  {
    var n := Elab(ctx, e);
    Program(Code(ctx, n, 0), Constants(ctx.fpu, n), Effective(n), Need(n), |ctx.vars|)
  }
}
