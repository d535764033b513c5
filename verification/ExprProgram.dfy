/** The two theorems about whole programs: meaning, and stack safety. */
module ExprProgram {
  import opened Basics
  import opened ExprValue
  import opened ExprLang
  import opened ExprMachine
  import opened ExprCompiler
  import opened ExprCorrect
  import opened ExprStackTypes

  /** The limits code generation enforces. */
  predicate WithinLimits(p: Program) {
    |p.code| <= MAX_INSTRUCTIONS && p.maxStack <= MAX_STACK
  }

  /** A program the compiler emits for e. */
  predicate CompiledFrom(ctx: Ctx, e: Expr, p: Program) {
    Infer(ctx, e).Success? && p == ProgramOf(ctx, e) && WithinLimits(p)
  }

  function Expected(r: Outcome): Final {
    match r
    case Good(v) => Halt([v])
    case Fault(s) => Trapped(s)
  }

  /** Constants never outnumber instructions, so their indices fit as well. */
  lemma {:induction false} FewConstants(ctx: Ctx, n: Node, k: nat)
    ensures |Constants(ctx.fpu, n)| <= |Code(ctx, n, k)|
    decreases n, 1
  {
    hide SelectOp, NegOp, Int16, Effective;
    match n
    case NLit(_, _, _) =>
    case NPath(_, _, _, _) =>
    case NMember(b, _, _, _) => FewConstants(ctx, b, k);
    case NUnary(_, a, _, _) => FewConstants(ctx, a, k);
    case NBinary(_, a, b, _, _) =>
      FewConstants(ctx, a, k);
      FewConstants(ctx, b, k + |Constants(ctx.fpu, a)|);
    case NTernary(c, a, b, _, _) =>
      TernaryFewConstants(ctx, n, k);
    case NCall(_, args, _, _) => FewConstantsOf(ctx, args, k);
  }

  lemma {:induction false} TernaryFewConstants(ctx: Ctx, n: Node, k: nat)
    requires n.NTernary?
    ensures |Constants(ctx.fpu, n)| <= |Code(ctx, n, k)|
    decreases n, 0
  {
    var ka := k + |Constants(ctx.fpu, n.c)|;
    var kb := ka + |Constants(ctx.fpu, n.a)|;
    FewConstants(ctx, n.c, k);
    FewConstants(ctx, n.a, ka);
    FewConstants(ctx, n.b, kb);
    TernaryPieces(ctx, n, k);
    hide Code, Constants;
  }

  lemma {:induction false} TernaryPieces(ctx: Ctx, n: Node, k: nat)
    requires n.NTernary?
    ensures var ka := k + |Constants(ctx.fpu, n.c)|;
            var kb := ka + |Constants(ctx.fpu, n.a)|;
            |Code(ctx, n, k)| >= |Code(ctx, n.c, k)| + |Code(ctx, n.a, ka)| + |Code(ctx, n.b, kb)|
    ensures |Constants(ctx.fpu, n)| == |Constants(ctx.fpu, n.c)| + |Constants(ctx.fpu, n.a)| + |Constants(ctx.fpu, n.b)|
  {
  }

  lemma {:induction false} FewConstantsOf(ctx: Ctx, args: seq<Node>, k: nat)
    ensures |ConstantsOf(ctx.fpu, args)| <= |CodeOf(ctx, args, k)|
    decreases args, 2
  {
    if args != [] {
      var before := args[..|args| - 1];
      FewConstantsOf(ctx, before, k);
      FewConstants(ctx, args[|args| - 1], k + |ConstantsOf(ctx.fpu, before)|);
    }
  }

  /** Every constant a program pushes is well typed. */
  lemma {:induction false} ConstantsTyped(fpu: Fpu, table: Table, n: Node)
    requires Shaped(table, n)
    ensures ConstantsOk(Constants(fpu, n))
    decreases n, 0
  {
    match n
    case NLit(_, _, _) =>
    case NPath(_, _, _, _) =>
    case NMember(b, _, _, _) => ConstantsTyped(fpu, table, b);
    case NUnary(_, a, _, _) => ConstantsTyped(fpu, table, a);
    case NBinary(_, a, b, _, _) =>
      ConstantsTyped(fpu, table, a);
      ConstantsTyped(fpu, table, b);
    case NTernary(c, a, b, _, _) =>
      ConstantsTyped(fpu, table, c);
      ConstantsTyped(fpu, table, a);
      ConstantsTyped(fpu, table, b);
    case NCall(_, args, _, _) => ConstantsOfTyped(fpu, table, args);
  }

  lemma {:induction false} ConstantsOfTyped(fpu: Fpu, table: Table, args: seq<Node>)
    requires forall a | a in args :: Shaped(table, a)
    ensures ConstantsOk(ConstantsOf(fpu, args))
    decreases args, 1
  {
    if args != [] {
      ConstantsOfTyped(fpu, table, args[..|args| - 1]);
      ConstantsTyped(fpu, table, args[|args| - 1]);
    }
  }

  /** What code generation relies on holds of every checked tree. */
  lemma {:induction false} ElabShaped(ctx: Ctx, e: Expr)
    requires Infer(ctx, e).Success?
    ensures Shaped(ctx.table, Elab(ctx, e))
    decreases e, 0
  {
    match e
    case Lit(_, _) =>
    case Path(_, _) =>
    case Member(base, _, _) => ElabShaped(ctx, base);
    case Unary(_, a, _) => ElabShaped(ctx, a);
    case Binary(_, a, b, _) =>
      ElabAsShaped(ctx, a, RuleOf(ctx, e).left);
      ElabAsShaped(ctx, b, RuleOf(ctx, e).right);
    case Ternary(c, a, b, _) =>
      ElabShaped(ctx, c);
      ElabAsShaped(ctx, a, Infer(ctx, e).value);
      ElabAsShaped(ctx, b, Infer(ctx, e).value);
    case Call(_, args, _) =>
      CallShape(ctx, e);
      ElabArgsShaped(ctx, args, ctx.table[CallIndex(ctx, e)].params);
  }

  lemma {:induction false} ElabAsShaped(ctx: Ctx, e: Expr, want: Ty)
    requires Infer(ctx, e).Success?
    ensures Shaped(ctx.table, ElabAs(ctx, e, want))
    decreases e, 1
  {
    ElabShaped(ctx, e);
  }

  lemma {:induction false} ElabArgsShaped(ctx: Ctx, args: seq<Expr>, params: seq<Ty>)
    requires |args| == |params| && InferArgs(ctx, args, params).Success?
    ensures forall a | a in ElabArgs(ctx, args, params) :: Shaped(ctx.table, a)
    decreases args, 2
  {
    if args != [] {
      ArgsShape(ctx, args, params);
      var n := |args| - 1;
      ElabArgsShaped(ctx, args[..n], params[..n]);
      ElabAsShaped(ctx, args[n], params[n]);
    }
  }

  function ProgramFrame(ctx: Ctx, p: Program, vars: seq<Value>): Frame { Frame(ctx, p.constants, vars) }

  /** With at most 32768 variables, no immediate of a compiled program loses a bit. */
  lemma {:induction false} ProgramFits(ctx: Ctx, e: Expr, p: Program, vars: seq<Value>)
    requires CompiledFrom(ctx, e, p) && VarsTyped(ctx, vars) && |ctx.vars| <= 0x8000
    ensures var fr := ProgramFrame(ctx, p, vars); FrameOk(fr) && ConstantsOk(fr.constants) && Fits(fr, Elab(ctx, e), 0, 0)
  {
    hide Code, Constants, Need, Elab, Infer;
    var n := Elab(ctx, e);
    FewConstants(ctx, n, 0);
    ElabShaped(ctx, e);
    ConstantsTyped(ctx.fpu, ctx.table, n);
  }

  /** Compiler correctness: for all well-typed bindings, the run of the program ends with
      exactly the tree's value on the stack, or in the tree's first fault. */
  lemma {:induction false} ProgramCorrect(ctx: Ctx, e: Expr, p: Program, vars: seq<Value>)
    requires CompiledFrom(ctx, e, p) && VarsTyped(ctx, vars) && |ctx.vars| <= 0x8000
    ensures Run(ctx, p.constants, vars, p.code, []) == Expected(Sem(ctx, vars, e))
  {
    ProgramFits(ctx, e, p, vars);
    var fr := ProgramFrame(ctx, p, vars);
    hide Step, Infer, Elab, Sem, Code, Constants, Need;
    Compiles(fr, e, 0, [], []);
    assert p.code + [] == p.code;
    var r := Sem(ctx, vars, e);
    if r.Good? {
      assert [] + [r.v] == [r.v];
    }
  }

  /** Stack safety: a program has one static stack typing, which ends in its result type. */
  lemma {:induction false} ProgramChecked(ctx: Ctx, e: Expr, p: Program, vars: seq<Value>) returns (map_: seq<Types>)
    requires CompiledFrom(ctx, e, p) && VarsTyped(ctx, vars) && |ctx.vars| <= 0x8000
    ensures map_ == MapOf(ctx, Elab(ctx, e), []) + [[p.resultType]]
    ensures Checked(ctx, p.constants, p.code, map_) && map_[0] == [] && map_[|p.code|] == [p.resultType]
  {
    ProgramFits(ctx, e, p, vars);
    var fr := ProgramFrame(ctx, p, vars);
    var n := Elab(ctx, e);
    ElabType(ctx, e);
    var out := [[p.resultType]];
    hide InstrOk, Infer, Elab, Code, MapOf, Constants, Need;
    assert [] + [p.resultType] == [p.resultType];
    assert Follows(fr, [], p.resultType, [], out);
    CodeTyped(fr, e, 0, [], [], out);
    MapHead(ctx, n, []);
    map_ := MapOf(ctx, n, []) + out;
    assert p.code + [] == p.code;
  }

  /** The typing does not depend on the values bound, and no binding makes the run go wrong. */
  lemma {:induction false} ProgramSafe(ctx: Ctx, e: Expr, p: Program, vars: seq<Value>)
    requires CompiledFrom(ctx, e, p) && VarsTyped(ctx, vars) && |ctx.vars| <= 0x8000
    ensures match Run(ctx, p.constants, vars, p.code, [])
            case Wrong => false
            case Trapped(_) => true
            case Halt(out) => |out| == 1 && TypedAs(out[0], p.resultType)
  {
    var map_ := ProgramChecked(ctx, e, p, vars);
    ProgramFits(ctx, e, p, vars);
    CheckedRuns(ProgramFrame(ctx, p, vars), p.code, map_, []);
  }

  /** The bound on the environment is exact: with up to 65536 variables, loading the one in
      slot s works if and only if s fits the signed 16-bit immediate. */
  lemma {:induction false} LoadWorksIff(ctx: Ctx, e: Expr, p: Program, vars: seq<Value>)
    requires e.Path? && CompiledFrom(ctx, e, p) && VarsTyped(ctx, vars) && |ctx.vars| <= 0x1_0000
    requires LongestPrefix(ctx.vars, e.segments).value.0 == |e.segments|
    ensures Run(ctx, p.constants, vars, p.code, []) == Expected(Sem(ctx, vars, e)) <==>
            LongestPrefix(ctx.vars, e.segments).value.1 < 0x8000
  {
    var slot := LongestPrefix(ctx.vars, e.segments).value.1;
    var fr := ProgramFrame(ctx, p, vars);
    var load := Instr(PushVar, 0, Int16(Int16(slot)));
    var n := Elab(ctx, e);
    assert n.lane == -1 && Code(ctx, n, 0) == [load];
    assert p.code == [load] + [];
    OneStep(fr, load, [], []);
    hide Run;
    if slot < 0x8000 {
      Int16Fits(slot);
      assert [] + [vars[slot]] == [vars[slot]];
      assert RunOn(fr, [], [vars[slot]]) == Halt([vars[slot]]) by { HaltsAtEnd(fr, [vars[slot]]); }
    } else {
      assert Int16(Int16(slot)) < 0;
    }
  }

  /** An example: of 32769 variables the last one is declared, typed and compiled, but not loaded. */
  lemma {:induction false} LastSlotFails(table: Table, fpu: Fpu)
    ensures var ctx := Ctx(seq(0x8001, i => Var(if i == 0x8000 then "x" else "y", TBool)), table, fpu);
            var e, vars := Path(["x"], 0), seq(0x8001, _ => BoolV(false));
            && VarsTyped(ctx, vars) && Infer(ctx, e).Success? && CompiledFrom(ctx, e, ProgramOf(ctx, e))
            && Run(ctx, ProgramOf(ctx, e).constants, vars, ProgramOf(ctx, e).code, []) != Expected(Sem(ctx, vars, e))
  {
    var ctx := Ctx(seq(0x8001, i => Var(if i == 0x8000 then "x" else "y", TBool)), table, fpu);
    var e, vars := Path(["x"], 0), seq(0x8001, _ => BoolV(false));
    FirstNamed(ctx.vars, 0, 0x8000);
    assert Join(["x"]) == "x";
    assert LongestPrefix(ctx.vars, ["x"]) == Some((1, 0x8000));
    assert Infer(ctx, e) == Success(TBool);
    var n := Elab(ctx, e);
    assert n.lane == -1 && |Code(ctx, n, 0)| == 1 && Need(n) == 1;
    assert CompiledFrom(ctx, e, ProgramOf(ctx, e));
    assert VarsTyped(ctx, vars);
    LoadWorksIff(ctx, e, ProgramOf(ctx, e), vars);
  }

  lemma {:induction false} FirstNamed(vars: seq<Var>, from: nat, slot: nat)
    requires from <= slot < |vars| && vars[slot].name == "x" && forall i | from <= i < slot :: vars[i].name == "y"
    ensures FindVar(vars, "x", from) == Some(slot)
    decreases slot - from
  {
    if from < slot {
      FirstNamed(vars, from + 1, slot);
    }
  }

  lemma {:induction false} HaltsAtEnd(fr: Frame, stack: seq<Value>)
    ensures RunOn(fr, [], stack) == Halt(stack)
  {
  }
}
