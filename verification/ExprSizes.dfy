/** How large a program is: its instructions counted construct by construct, and the stack height it reaches. */
module ExprSizes {
  import opened Basics
  import opened ExprValue
  import opened ExprLang
  import opened ExprMachine
  import opened ExprCompiler
  import opened ExprCorrect
  import opened ExprStackTypes
  import opened ExprProgram

  /** One instruction a leaf, a component, a conversion, an operator and a call; two more for an operator that
      may skip its right side and for a conditional. */
  function Instructions(n: Node): nat {
    Coerced(n)
    + match n
      case NLit(_, _, _) => 1
      case NPath(_, lane, _, _) => if lane >= 0 then 2 else 1
      case NMember(base, _, _, _) => Instructions(base) + 1
      case NUnary(_, a, _, _) => Instructions(a) + 1
      case NBinary(op, a, b, _, _) => Instructions(a) + Instructions(b) + (if op == KAnd || op == KOr then 2 else 1)
      case NTernary(c, a, b, _, _) => Instructions(c) + Instructions(a) + Instructions(b) + 2
      case NCall(_, args, _, _) => InstructionsOf(args) + 1
  }

  /** A conversion to float takes an instruction, except of a literal. */
  function Coerced(n: Node): nat { if n.coerce && !(n.NLit? && n.lit.IntV?) then 1 else 0 }

  function InstructionsOf(args: seq<Node>): nat {
    if args == [] then 0 else Instructions(args[0]) + InstructionsOf(args[1..])
  }

  lemma {:induction false} InstructionsSplit(args: seq<Node>)
    requires args != []
    ensures InstructionsOf(args) == InstructionsOf(args[..|args| - 1]) + Instructions(args[|args| - 1])
    decreases |args|
  {
    if |args| > 1 {
      InstructionsSplit(args[1..]);
      assert args[1..][..|args| - 2] == args[..|args| - 1][1..];
    } else {
      assert args[..0] == [] && args[1..] == [];
    }
  }

  /** The code of a node has exactly these instructions. */
  lemma {:induction false} CodeLength(ctx: Ctx, n: Node, k: nat)
    requires Shaped(ctx.table, n)
    ensures |Code(ctx, n, k)| == Instructions(n)
    decreases n, 2
  {
    CoreLength(ctx, n, k);
    hide Core;
  }

  lemma {:induction false} CoreLength(ctx: Ctx, n: Node, k: nat)
    requires Shaped(ctx.table, n)
    ensures |Core(ctx, n, k)| + Coerced(n) == Instructions(n)
    decreases n, 1
  {
    match n
    case NLit(_, _, _) =>
    case NPath(_, _, _, _) =>
    case NMember(base, _, _, _) => CodeLength(ctx, base, k);
    case NUnary(_, a, _, _) => CodeLength(ctx, a, k);
    case NBinary(_, _, _, _, _) => BinaryLength(ctx, n, k);
    case NTernary(_, _, _, _, _) => TernaryLength(ctx, n, k);
    case NCall(_, args, _, _) =>
      ArgsLength(ctx, args, k);
      hide CodeOf;
  }

  lemma {:induction false} BinaryLength(ctx: Ctx, n: Node, k: nat)
    requires n.NBinary? && Shaped(ctx.table, n)
    ensures |Core(ctx, n, k)| + Coerced(n) == Instructions(n)
    decreases n, 0
  {
    CodeLength(ctx, n.a, k);
    CodeLength(ctx, n.b, k + |Constants(ctx.fpu, n.a)|);
    hide Code, Constants, SelectOp;
  }

  lemma {:induction false} TernaryLength(ctx: Ctx, n: Node, k: nat)
    requires n.NTernary? && Shaped(ctx.table, n)
    ensures |Core(ctx, n, k)| + Coerced(n) == Instructions(n)
    decreases n, 0
  {
    var ka := k + |Constants(ctx.fpu, n.c)|;
    CodeLength(ctx, n.c, k);
    CodeLength(ctx, n.a, ka);
    CodeLength(ctx, n.b, ka + |Constants(ctx.fpu, n.a)|);
    hide Code, Constants;
  }

  lemma {:induction false} ArgsLength(ctx: Ctx, args: seq<Node>, k: nat)
    requires forall a | a in args :: Shaped(ctx.table, a)
    ensures |CodeOf(ctx, args, k)| == InstructionsOf(args)
    decreases args, 3
  {
    if args != [] {
      var before := args[..|args| - 1];
      InstructionsSplit(args);
      ArgsLength(ctx, before, k);
      CodeLength(ctx, args[|args| - 1], k + |ConstantsOf(ctx.fpu, before)|);
    }
  }

  // ---- the stack ------------------------------------------------------------------------------------

  /** The greatest height among the stacks. */
  function Highest(stacks: seq<Types>): nat {
    if stacks == [] then 0 else Max(|stacks[0]|, Highest(stacks[1..]))
  }

  lemma {:induction false} HighestSum(a: seq<Types>, b: seq<Types>)
    ensures Highest(a + b) == Max(Highest(a), Highest(b))
    decreases |a|
  {
    if a == [] {
      assert a + b == b;
    } else {
      HighestSum(a[1..], b);
      assert (a + b)[1..] == a[1..] + b;
    }
  }

  lemma {:induction false} HighestOne(ts: Types)
    ensures Highest([ts]) == |ts|
  {
    assert [ts][1..] == [];
  }

  /** The greatest height among the stacks, and at least this much. */
  function Above(stacks: seq<Types>, height: nat): nat { Max(Highest(stacks), height) }

  lemma {:induction false} AboveSum(a: seq<Types>, ts: Types, b: seq<Types>, height: nat)
    ensures Above(a + b, height) == Max(Above(a, height), Above(b, height))
    ensures Above(a + [ts], height) == Max(Above(a, height), |ts|)
    ensures Above(a + [ts] + b, height) == Max(Above(a, height), Max(|ts|, Above(b, height)))
  {
    HighestSum(a, b);
    HighestSum(a, [ts]);
    HighestSum(a + [ts], b);
    HighestOne(ts);
  }

  lemma {:induction false} NeedsRoom(table: Table, n: Node)
    requires Shaped(table, n)
    ensures Need(n) >= 1
    decreases n
  {
    match n
    case NLit(_, _, _) =>
    case NPath(_, _, _, _) =>
    case NMember(b, _, _, _) => NeedsRoom(table, b);
    case NUnary(_, a, _, _) => NeedsRoom(table, a);
    case NBinary(_, a, _, _, _) => NeedsRoom(table, a);
    case NTernary(c, _, _, _, _) => NeedsRoom(table, c);
    case NCall(builtin, args, _, _) =>
      assert BuiltinOk(table[builtin]);
      NeedsRoom(table, args[|args| - 1]);
  }

  /** The reserved stack is the height that the static typing reaches, and no more. */
  lemma {:induction false} NeedIsReached(ctx: Ctx, n: Node, base: Types)
    requires Shaped(ctx.table, n)
    ensures Above(MapOf(ctx, n, base), |base| + 1) == |base| + Need(n)
    decreases n, 2
  {
    AboveSum(CoreMap(ctx, n, base), base + [n.ty], [], |base| + 1);
    CoreIsReached(ctx, n, base);
    assert CoreMap(ctx, n, base) + [] == CoreMap(ctx, n, base);
  }

  lemma {:induction false} CoreIsReached(ctx: Ctx, n: Node, base: Types)
    requires Shaped(ctx.table, n)
    ensures Above(CoreMap(ctx, n, base), |base| + 1) == |base| + Need(n)
    decreases n, 1
  {
    var h := |base| + 1;
    HighestOne(base);
    match n
    case NLit(_, _, _) =>
    case NPath(slot, _, _, _) => AboveSum([base], base + [VarTy(ctx, Int16(slot))], [], h);
    case NMember(b, _, _, _) =>
      NeedIsReached(ctx, b, base);
      AboveSum(MapOf(ctx, b, base), base + [Effective(b)], [], h);
    case NUnary(_, a, _, _) =>
      NeedIsReached(ctx, a, base);
      AboveSum(MapOf(ctx, a, base), base + [Effective(a)], [], h);
    case NBinary(op, a, b, _, _) => BinaryIsReached(ctx, n, base);
    case NTernary(_, _, _, _, _) => TernaryIsReached(ctx, n, base);
    case NCall(_, args, _, _) =>
      ArgsAreReached(ctx, args, base);
      NeedsRoom(ctx.table, n);
      AboveSum(MapOfArgs(ctx, args, base), base + Effectives(args), [], h);
  }

  lemma {:induction false} TernaryIsReached(ctx: Ctx, n: Node, base: Types)
    requires n.NTernary? && Shaped(ctx.table, n)
    ensures Above(CoreMap(ctx, n, base), |base| + 1) == |base| + Need(n)
    decreases n, 0
  {
    var h := |base| + 1;
    NeedIsReached(ctx, n.c, base);
    NeedIsReached(ctx, n.a, base);
    NeedIsReached(ctx, n.b, base);
    var mc, ma, mb := MapOf(ctx, n.c, base), MapOf(ctx, n.a, base), MapOf(ctx, n.b, base);
    TernaryMap(ctx, n, base);
    hide MapOf, CoreMap, Above;
    AboveSum(mc, base + [TBool], ma, h);
    AboveSum(mc + [base + [TBool]] + ma, base + [n.ty], mb, h);
  }

  lemma {:induction false} TernaryMap(ctx: Ctx, n: Node, base: Types)
    requires n.NTernary?
    ensures CoreMap(ctx, n, base)
            == MapOf(ctx, n.c, base) + [base + [TBool]] + MapOf(ctx, n.a, base) + [base + [n.ty]] + MapOf(ctx, n.b, base)
  {
  }

  lemma {:induction false} BinaryIsReached(ctx: Ctx, n: Node, base: Types)
    requires n.NBinary? && Shaped(ctx.table, n)
    ensures Above(CoreMap(ctx, n, base), |base| + 1) == |base| + Need(n)
    decreases n, 0
  {
    var h, ta, tb := |base| + 1, Effective(n.a), Effective(n.b);
    NeedIsReached(ctx, n.a, base);
    if Strict(n.op) {
      var ma, mb := MapOf(ctx, n.a, base), MapOf(ctx, n.b, base + [ta]);
      NeedIsReached(ctx, n.b, base + [ta]);
      AboveSum(ma, [], mb, h);
      AboveSum(ma + mb, base + [ta] + [tb], [], h);
    } else {
      var ma, mb := MapOf(ctx, n.a, base), MapOf(ctx, n.b, base);
      NeedIsReached(ctx, n.b, base);
      AboveSum(ma, base + [TBool], [base + [TBool]], h);
      AboveSum(ma + [base + [TBool]], base + [TBool], mb, h);
      assert ma + [base + [TBool], base + [TBool]] + mb == ma + [base + [TBool]] + [base + [TBool]] + mb;
    }
  }

  lemma {:induction false} ArgsAreReached(ctx: Ctx, args: seq<Node>, base: Types)
    requires forall a | a in args :: Shaped(ctx.table, a)
    ensures Above(MapOfArgs(ctx, args, base), |base| + |args|) == |base| + NeedOf(args)
    decreases args, 2
  {
    if args != [] {
      var k := |args| - 1;
      var before := args[..k];
      ArgsAreReached(ctx, before, base);
      NeedIsReached(ctx, args[k], base + Effectives(before));
      HighestSum(MapOfArgs(ctx, before, base), MapOf(ctx, args[k], base + Effectives(before)));
    }
  }

  /** What compilation of a well-typed tree is refused for: more than 4096 instructions, or a stack above 128. */
  lemma {:induction false} LimitsAre(ctx: Ctx, e: Expr)
    requires Infer(ctx, e).Success?
    ensures var n := Elab(ctx, e);
            WithinLimits(ProgramOf(ctx, e)) <==> Instructions(n) <= 4096 && Above(MapOf(ctx, n, []), 1) <= 128
  {
    ElabShaped(ctx, e);
    CodeLength(ctx, Elab(ctx, e), 0);
    NeedIsReached(ctx, Elab(ctx, e), []);
  }
}
