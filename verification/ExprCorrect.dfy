/** Compiler correctness: running the code of a well-typed tree is evaluating the tree. */
module ExprCorrect {
  import opened Basics
  import opened ExprValue
  import opened ExprLang
  import opened ExprMachine
  import opened ExprCompiler

  // ---- types are kept by evaluation -----------------------------------------------

  predicate OutcomeTyped(r: Outcome, t: Ty) { r.Good? ==> TypedAs(r.v, t) }

  /** Every rule runs on types its operands convert to. */
  lemma {:induction false} RuleAccepts(op: TokenKind, ta: Ty, tb: Ty, la: bool, lb: bool)
    requires BinaryRule(op, ta, tb, la, lb).Some?
    ensures var r := BinaryRule(op, ta, tb, la, lb).value; Accepts(r.left, ta, la) && Accepts(r.right, tb, lb)
  {
    match op
    case KPlus =>
    case KMinus =>
    case KStar =>
    case KSlash =>
    case KEqEq =>
    case KNe =>
    case _ =>
  }

  predicate Strict(op: TokenKind) { op != KAnd && op != KOr }

  /** A rule in the one form left after conversion. */
  lemma {:induction false} RuleConverted(op: TokenKind, ta: Ty, tb: Ty, la: bool, lb: bool)
    requires Strict(op) && BinaryRule(op, ta, tb, la, lb).Some?
    ensures var r := BinaryRule(op, ta, tb, la, lb).value;
            BinaryRule(op, r.left, r.right, false, false) == Some(r)
  {
    match op
    case KStar => ProductConverted(ta, tb);
    case KEqEq => EqualityConverted(ta, tb, la, lb);
    case KNe => EqualityConverted(ta, tb, la, lb);
    case KPlus =>
    case KMinus =>
    case KSlash =>
    case _ =>
  }

  lemma {:induction false} ProductConverted(ta: Ty, tb: Ty)
    requires ProductRule(ta, tb).Some?
    ensures var r := ProductRule(ta, tb).value; ProductRule(r.left, r.right) == Some(r)
  {
  }

  lemma {:induction false} EqualityConverted(ta: Ty, tb: Ty, la: bool, lb: bool)
    requires EqualityRule(ta, tb, la, lb).Some?
    ensures var r := EqualityRule(ta, tb, la, lb).value; EqualityRule(r.left, r.right, false, false) == Some(r)
  {
  }

  /** The statically selected opcode computes what the dynamically dispatched operator does. */
  lemma {:induction false} SelectedOpApplies(fpu: Fpu, op: TokenKind, r: Rule, a: Value, b: Value)
    requires Strict(op) && BinaryRule(op, r.left, r.right, false, false) == Some(r)
    requires TypedAs(a, r.left) && TypedAs(b, r.right)
    ensures var i := SelectOp(op, r.left, r.right);
            IsBinaryOp(i.op) && BinaryOp(fpu, i, a, b) == Some(Apply(fpu, op, a, b))
    ensures OutcomeTyped(Apply(fpu, op, a, b), r.result)
  {
    match op
    case KSlash => QuotientApplies(fpu, r, a, b);
    case KPercent => RemainderApplies(fpu, a, b);
    case KEqEq => EqualityApplies(fpu, op, r.left, a, b);
    case KNe => EqualityApplies(fpu, op, r.left, a, b);
    case KStar => ProductApplies(fpu, r, a, b);
    case KPlus => SumApplies(fpu, op, r, a, b);
    case KMinus => SumApplies(fpu, op, r, a, b);
    case _ => OrderApplies(fpu, op, r, a, b);
  }

  lemma {:induction false} SumApplies(fpu: Fpu, op: TokenKind, r: Rule, a: Value, b: Value)
    requires (op == KPlus || op == KMinus) && SumRule(r.left, r.right) == Some(r)
    requires TypedAs(a, r.left) && TypedAs(b, r.right)
    ensures var i := SelectOp(op, r.left, r.right);
            IsBinaryOp(i.op) && BinaryOp(fpu, i, a, b) == Some(Apply(fpu, op, a, b))
    ensures OutcomeTyped(Apply(fpu, op, a, b), r.result)
  {
    hide Lanes1, Lanes2, LanesByScalar, ScalarByLanes, LanesEqual, Wrap;
  }

  lemma {:induction false} OrderApplies(fpu: Fpu, op: TokenKind, r: Rule, a: Value, b: Value)
    requires (op == KLt || op == KLe || op == KGt || op == KGe) && OrderRule(r.left, r.right) == Some(r)
    requires TypedAs(a, r.left) && TypedAs(b, r.right)
    ensures var i := SelectOp(op, r.left, r.right);
            IsBinaryOp(i.op) && BinaryOp(fpu, i, a, b) == Some(Apply(fpu, op, a, b))
    ensures OutcomeTyped(Apply(fpu, op, a, b), r.result)
  {
  }

  lemma {:induction false} ProductApplies(fpu: Fpu, r: Rule, a: Value, b: Value)
    requires ProductRule(r.left, r.right) == Some(r)
    requires TypedAs(a, r.left) && TypedAs(b, r.right)
    ensures var i := SelectOp(KStar, r.left, r.right);
            IsBinaryOp(i.op) && BinaryOp(fpu, i, a, b) == Some(Apply(fpu, KStar, a, b))
    ensures OutcomeTyped(Apply(fpu, KStar, a, b), r.result)
  {
    hide Lanes1, Lanes2, LanesByScalar, ScalarByLanes, LanesEqual, Wrap;
    if a.LanesV? || b.LanesV? {
      LanesProductApplies(fpu, r, a, b);
    }
  }

  lemma {:induction false} LanesProductApplies(fpu: Fpu, r: Rule, a: Value, b: Value)
    requires ProductRule(r.left, r.right) == Some(r) && (a.LanesV? || b.LanesV?)
    requires TypedAs(a, r.left) && TypedAs(b, r.right)
    ensures var i := SelectOp(KStar, r.left, r.right);
            IsOtherPairOp(i.op) && LanesOp(fpu, i, a, b) == Some(Good(Product(fpu, a, b)))
    ensures TypedAs(Product(fpu, a, b), r.result)
  {
    hide Lanes1, Lanes2, LanesByScalar, ScalarByLanes, LanesEqual, Wrap;
  }

  lemma {:induction false} QuotientApplies(fpu: Fpu, r: Rule, a: Value, b: Value)
    requires QuotientRule(r.left, r.right) == Some(r)
    requires TypedAs(a, r.left) && TypedAs(b, r.right)
    ensures var i := SelectOp(KSlash, r.left, r.right);
            IsBinaryOp(i.op) && BinaryOp(fpu, i, a, b) == Some(Apply(fpu, KSlash, a, b))
    ensures OutcomeTyped(Apply(fpu, KSlash, a, b), r.result)
  {
    hide Lanes1, Lanes2, LanesByScalar, ScalarByLanes, LanesEqual, Wrap, TruncDiv;
    if a.IntV? && b.IntV? {
      IntQuotientApplies(fpu, a, b);
    }
  }

  lemma {:induction false} IntQuotientApplies(fpu: Fpu, a: Value, b: Value)
    requires a.IntV? && b.IntV?
    ensures var i := SelectOp(KSlash, TInt, TInt);
            IsBinaryOp(i.op) && BinaryOp(fpu, i, a, b) == Some(Apply(fpu, KSlash, a, b))
    ensures OutcomeTyped(Apply(fpu, KSlash, a, b), TInt)
  {
    hide Lanes1, Lanes2, LanesByScalar, ScalarByLanes, LanesEqual, Wrap;
    if b.i != 0 {
      GuardedDivision(a.i, b.i);
      if b.i != -1 {
        WrapInRange(TruncDiv(a.i as int, b.i as int));
      }
      hide TruncDiv;
    }
  }

  lemma {:induction false} RemainderApplies(fpu: Fpu, a: Value, b: Value)
    requires a.IntV? && b.IntV?
    ensures BinaryOp(fpu, SelectOp(KPercent, TInt, TInt), a, b) == Some(Apply(fpu, KPercent, a, b))
  {
    if b.i != 0 {
      RemainderIsLeftover(a.i as int, b.i as int);
      WrapInRange(TruncMod(a.i as int, b.i as int));
    }
  }

  lemma {:induction false} EqualityApplies(fpu: Fpu, op: TokenKind, t: Ty, a: Value, b: Value)
    requires (op == KEqEq || op == KNe) && TypedAs(a, t) && TypedAs(b, t)
    ensures BinaryOp(fpu, SelectOp(op, t, t), a, b) == Some(Apply(fpu, op, a, b))
  {
  }

  lemma {:induction false} SemTyped(ctx: Ctx, vars: seq<Value>, e: Expr)
    requires Infer(ctx, e).Success? && VarsTyped(ctx, vars)
    ensures OutcomeTyped(Sem(ctx, vars, e), Infer(ctx, e).value)
    decreases e, 0
  {
    match e
    case Lit(_, _) =>
    case Path(_, _) =>
    case Member(base, _, _) => SemTyped(ctx, vars, base);
    case Unary(_, a, _) => SemTyped(ctx, vars, a);
    case Binary(op, a, b, _) => BinaryTyped(ctx, vars, e);
    case Ternary(c, a, b, _) =>
      SemTyped(ctx, vars, c);
      SemTyped(ctx, vars, a);
      SemTyped(ctx, vars, b);
    case Call(_, args, _) =>
      SemArgsTyped(ctx, vars, args, ctx.table[FindBuiltin(ctx.table, Join(e.segments)).value].params);
  }

  lemma {:induction false} BinaryTyped(ctx: Ctx, vars: seq<Value>, e: Expr)
    requires e.Binary? && Infer(ctx, e).Success? && VarsTyped(ctx, vars)
    ensures OutcomeTyped(Sem(ctx, vars, e), Infer(ctx, e).value)
    decreases e, 0, 0
  {
    var ta, tb := Infer(ctx, e.a).value, Infer(ctx, e.b).value;
    var r := BinaryRule(e.op, ta, tb, IsText(e.a), IsText(e.b)).value;
    RuleAccepts(e.op, ta, tb, IsText(e.a), IsText(e.b));
    SemTyped(ctx, vars, e.a);
    SemTyped(ctx, vars, e.b);
    if Strict(e.op) && Sem(ctx, vars, e.a).Good? && Sem(ctx, vars, e.b).Good? {
      RuleConverted(e.op, ta, tb, IsText(e.a), IsText(e.b));
      var va := Convert(ctx.fpu, Sem(ctx, vars, e.a).v, r.left);
      var vb := Convert(ctx.fpu, Sem(ctx, vars, e.b).v, r.right);
      SelectedOpApplies(ctx.fpu, e.op, r, va, vb);
    }
  }

  lemma {:induction false} SemArgsTyped(ctx: Ctx, vars: seq<Value>, args: seq<Expr>, params: seq<Ty>)
    requires |args| == |params| && InferArgs(ctx, args, params).Success? && VarsTyped(ctx, vars)
    ensures SemArgs(ctx, vars, args, params).Values? ==> ArgsTyped(SemArgs(ctx, vars, args, params).vs, params)
    decreases args, 1
  {
    if args != [] {
      var n := |args| - 1;
      SemArgsTyped(ctx, vars, args[..n], params[..n]);
      SemTyped(ctx, vars, args[n]);
    }
  }

  // ---- elaboration gives a child the type its parent wants ----------------------------

  lemma {:induction false} ElabType(ctx: Ctx, e: Expr)
    requires Infer(ctx, e).Success?
    ensures Effective(Elab(ctx, e)) == Infer(ctx, e).value && !Elab(ctx, e).coerce
    ensures Elab(ctx, e).NLit? == e.Lit? && (e.Lit? ==> Elab(ctx, e).lit == e.lit)
  {
  }

  lemma {:induction false} AsType(ctx: Ctx, e: Expr, want: Ty)
    requires Infer(ctx, e).Success? && Accepts(want, Infer(ctx, e).value, IsText(e))
    ensures Effective(As(ctx.fpu, Elab(ctx, e), want)) == want
  {
    ElabType(ctx, e);
  }

  // ---- running a stretch of code -----------------------------------------------------

  /** One evaluation: what every instruction of a program shares. */
  datatype Frame = Frame(ctx: Ctx, constants: seq<Value>, vars: seq<Value>)

  predicate FrameOk(fr: Frame) {
    VarsTyped(fr.ctx, fr.vars) && |fr.vars| <= 0x8000 && |fr.constants| <= 0x8000
  }

  predicate ConstantsAt(fr: Frame, k: nat, c: seq<Value>) {
    k + |c| <= |fr.constants| && forall i | 0 <= i < |c| :: fr.constants[k + i] == c[i]
  }

  function RunOn(fr: Frame, rest: seq<Instr>, stack: seq<Value>): Final {
    Run(fr.ctx, fr.constants, fr.vars, rest, stack)
  }

  /** The run of `rest` once the stretch before it has produced outcome r. */
  function After(fr: Frame, r: Outcome, rest: seq<Instr>, stack: seq<Value>): Final {
    match r
    case Good(v) => RunOn(fr, rest, stack + [v])
    case Fault(s) => Trapped(s)
  }

  lemma {:induction false} ConstantsAtSplit(fr: Frame, k: nat, a: seq<Value>, b: seq<Value>)
    requires ConstantsAt(fr, k, a + b)
    ensures ConstantsAt(fr, k, a) && ConstantsAt(fr, k + |a|, b)
  {
    forall i | 0 <= i < |a| ensures fr.constants[k + i] == a[i] {
      assert (a + b)[i] == a[i];
    }
    forall i | 0 <= i < |b| ensures fr.constants[k + |a| + i] == b[i] {
      assert fr.constants[k + (|a| + i)] == (a + b)[|a| + i] == b[i];
    }
  }

  /** One instruction, executed. */
  lemma {:induction false} OneStep(fr: Frame, in_: Instr, rest: seq<Instr>, stack: seq<Value>)
    ensures RunOn(fr, [in_] + rest, stack) ==
            match Step(fr.ctx, fr.constants, fr.vars, in_, stack)
            case Stuck => Wrong
            case Trap(s) => Trapped(s)
            case Next(skip, stack') => if skip <= |rest| then RunOn(fr, rest[skip..], stack') else Wrong
  {
    var c := [in_] + rest;
    assert c[0] == in_;
    assert forall skip: nat | skip <= |rest| :: c[1 + skip..] == rest[skip..];
  }

  lemma {:induction false} Int16Fits(x: int)
    requires -0x8000 <= x < 0x8000
    ensures Int16(x) == x
  {
  }

  /** A unary opcode after the code that produced r. */
  lemma {:induction false} UnaryAfter(fr: Frame, r: Outcome, in_: Instr, rest: seq<Instr>, stack: seq<Value>)
    requires IsUnaryOp(in_.op) && (r.Good? ==> UnaryOp(fr.ctx.fpu, in_, r.v).Some?)
    ensures After(fr, r, [in_] + rest, stack) ==
            match r
            case Good(v) => After(fr, UnaryOp(fr.ctx.fpu, in_, v).value, rest, stack)
            case Fault(s) => Trapped(s)
  {
    if r.Good? {
      OneStep(fr, in_, rest, stack + [r.v]);
      assert (stack + [r.v])[..|stack|] == stack;
      assert rest[0..] == rest;
    }
  }

  // ---- what each kind of node adds, with its parts already run ----------------------------

  lemma {:induction false} RunsLit(fr: Frame, n: Node, k: nat, rest: seq<Instr>, stack: seq<Value>)
    requires FrameOk(fr) && n.NLit? && |stack| < MAX_STACK && (n.coerce ==> n.lit.IntV?)
    requires ConstantsAt(fr, k, Constants(fr.ctx.fpu, n))
    ensures RunOn(fr, Code(fr.ctx, n, k) + rest, stack) == After(fr, Good(LitConstant(fr.ctx.fpu, n)), rest, stack)
  {
    Int16Fits(k);
    assert Code(fr.ctx, n, k) == [Instr(PushConst, 0, k)];
    assert fr.constants[k + 0] == Constants(fr.ctx.fpu, n)[0];
    OneStep(fr, Instr(PushConst, 0, k), rest, stack);
    assert rest[0..] == rest;
  }

  lemma {:induction false} RunsPath(fr: Frame, slot: nat, lane: int, rest: seq<Instr>, stack: seq<Value>)
    requires FrameOk(fr) && slot < |fr.vars| && |stack| < MAX_STACK && -1 <= lane < 4
    requires lane >= 0 ==> fr.vars[slot].LanesV?
    ensures var tail := if lane >= 0 then [Instr(Lane, 0, Int16(lane))] else [];
            RunOn(fr, [Instr(PushVar, 0, Int16(Int16(slot)))] + tail + rest, stack) ==
            After(fr, Good(if lane >= 0 then LaneValue(fr.vars[slot], lane) else fr.vars[slot]), rest, stack)
  {
    Int16Fits(slot);
    Int16Fits(lane);
    var load := Instr(PushVar, 0, slot);
    var tail := if lane >= 0 then [Instr(Lane, 0, lane)] else [];
    assert [load] + tail + rest == [load] + (tail + rest);
    OneStep(fr, load, tail + rest, stack);
    assert (tail + rest)[0..] == tail + rest;
    if lane >= 0 {
      UnaryAfter(fr, Good(fr.vars[slot]), tail[0], rest, stack);
    } else {
      assert tail + rest == rest;
    }
  }

  /** Two operands on the stack become the operator's outcome. */
  lemma {:induction false} RunsPair(fr: Frame, op: TokenKind, r: Rule, a: Value, b: Value, rest: seq<Instr>, stack: seq<Value>)
    requires Strict(op) && BinaryRule(op, r.left, r.right, false, false) == Some(r)
    requires TypedAs(a, r.left) && TypedAs(b, r.right)
    ensures RunOn(fr, [SelectOp(op, r.left, r.right)] + rest, stack + [a] + [b]) ==
            After(fr, Apply(fr.ctx.fpu, op, a, b), rest, stack)
  {
    SelectedOpApplies(fr.ctx.fpu, op, r, a, b);
    BinaryStep(fr, SelectOp(op, r.left, r.right), Apply(fr.ctx.fpu, op, a, b), a, b, rest, stack);
  }

  lemma {:induction false} BinaryStep(fr: Frame, in_: Instr, out: Outcome, a: Value, b: Value, rest: seq<Instr>, stack: seq<Value>)
    requires IsBinaryOp(in_.op) && BinaryOp(fr.ctx.fpu, in_, a, b) == Some(out)
    ensures RunOn(fr, [in_] + rest, stack + [a] + [b]) == After(fr, out, rest, stack)
  {
    hide BinaryOp;
    var full := stack + [a] + [b];
    OneStep(fr, in_, rest, full);
    assert full[..|full| - 2] == stack;
    assert rest[0..] == rest;
  }

  /** The control opcodes, one by one. */
  lemma {:induction false} ControlSteps(fr: Frame, imm: nat, stack: seq<Value>)
    ensures Step(fr.ctx, fr.constants, fr.vars, Instr(JumpIfFalsePop, 0, imm), stack) == Branch(stack, Instr(JumpIfFalsePop, 0, imm), false, false)
    ensures Step(fr.ctx, fr.constants, fr.vars, Instr(JumpIfFalseKeep, 0, imm), stack) == Branch(stack, Instr(JumpIfFalseKeep, 0, imm), false, true)
    ensures Step(fr.ctx, fr.constants, fr.vars, Instr(JumpIfTrueKeep, 0, imm), stack) == Branch(stack, Instr(JumpIfTrueKeep, 0, imm), true, true)
    ensures Step(fr.ctx, fr.constants, fr.vars, Instr(Jump, 0, imm), stack) == Next(imm, stack)
    ensures |stack| > 0 ==> Step(fr.ctx, fr.constants, fr.vars, Instr(Pop, 0, 0), stack) == Next(0, stack[..|stack| - 1])
  {
    hide OperatorTurn, NativeTurn, Branch;
  }

  /** `&&` and `||`: keep a deciding left value and jump over the rest, or pop it and go on. */
  lemma {:induction false} RunsShortCircuit(fr: Frame, isAnd: bool, a: Value, cb: seq<Instr>, rest: seq<Instr>, stack: seq<Value>)
    requires a.BoolV?
    ensures RunOn(fr, [Instr(if isAnd then JumpIfFalseKeep else JumpIfTrueKeep, 0, |cb| + 1), Instr(Pop, 0, 0)] + cb + rest, stack + [a]) ==
            if a.b == isAnd then RunOn(fr, cb + rest, stack) else RunOn(fr, rest, stack + [a])
  {
    hide Run;
    ControlSteps(fr, |cb| + 1, stack + [a]);
    hide Step;
    var jump := Instr(if isAnd then JumpIfFalseKeep else JumpIfTrueKeep, 0, |cb| + 1);
    var pop := Instr(Pop, 0, 0);
    var tail := [pop] + (cb + rest);
    assert [jump, pop] + cb + rest == [jump] + tail;
    OneStep(fr, jump, tail, stack + [a]);
    if a.b == isAnd {
      assert tail[0..] == tail;
      OneStep(fr, pop, cb + rest, stack + [a]);
      assert (stack + [a])[..|stack|] == stack;
      assert (cb + rest)[0..] == cb + rest;
    } else {
      assert tail[|cb| + 1..] == rest;
    }
  }

  /** `?:` after its condition: only the taken arm runs, and control rejoins after both. */
  lemma {:induction false} RunsCondition(fr: Frame, c: Value, ca: seq<Instr>, cb: seq<Instr>, rest: seq<Instr>, stack: seq<Value>)
    requires c.BoolV?
    ensures RunOn(fr, [Instr(JumpIfFalsePop, 0, |ca| + 1)] + ca + [Instr(Jump, 0, |cb|)] + cb + rest, stack + [c]) ==
            if c.b then RunOn(fr, ca + ([Instr(Jump, 0, |cb|)] + (cb + rest)), stack) else RunOn(fr, cb + rest, stack)
  {
    hide Run;
    ControlSteps(fr, |ca| + 1, stack + [c]);
    hide Step;
    var toElse, toEnd := Instr(JumpIfFalsePop, 0, |ca| + 1), Instr(Jump, 0, |cb|);
    var tail := ca + ([toEnd] + (cb + rest));
    assert [toElse] + ca + [toEnd] + cb + rest == [toElse] + tail;
    OneStep(fr, toElse, tail, stack + [c]);
    assert (stack + [c])[..|stack|] == stack;
    assert tail[0..] == tail;
    assert tail[|ca| + 1..] == cb + rest;
  }

  lemma {:induction false} RunsJump(fr: Frame, r: Outcome, cb: seq<Instr>, rest: seq<Instr>, stack: seq<Value>)
    ensures After(fr, r, [Instr(Jump, 0, |cb|)] + (cb + rest), stack) == After(fr, r, rest, stack)
  {
    if r.Good? {
      OneStep(fr, Instr(Jump, 0, |cb|), cb + rest, stack + [r.v]);
      assert (cb + rest)[|cb|..] == rest;
    }
  }

  /** The call instruction turns its arguments into the result. */
  lemma {:induction false} RunsCall(fr: Frame, index: nat, vs: seq<Value>, rest: seq<Instr>, stack: seq<Value>)
    requires index < |fr.ctx.table| && ArgsTyped(vs, fr.ctx.table[index].params)
    ensures RunOn(fr, CallOp(fr.ctx.table, index) + rest, stack + vs) ==
            After(fr, CallResult(fr.ctx, index, vs), rest, stack)
  {
    hide Run, BinaryOp;
    var f := fr.ctx.table[index];
    assert BuiltinOk(f);
    assert rest[0..] == rest;
    if f.intrinsic {
      assert TypedAs(vs[0], f.params[0]) && vs == [vs[0]];
      UnaryAfter(fr, Good(vs[0]), CallOp(fr.ctx.table, index)[0], rest, stack);
    } else {
      Int16Fits(index);
      OneStep(fr, Instr(CallNative, 0, index), rest, stack + vs);
      assert (stack + vs)[..|stack|] == stack && (stack + vs)[|stack|..] == vs;
    }
  }

  // ---- the theorem -------------------------------------------------------------------------

  /** The code of e, run from a stack with room, leaves e's value on it, or e's fault. */
  lemma {:induction false} Compiles(fr: Frame, e: Expr, k: nat, rest: seq<Instr>, stack: seq<Value>)
    requires FrameOk(fr) && Infer(fr.ctx, e).Success?
    requires Fits(fr, Elab(fr.ctx, e), k, |stack|)
    ensures Runs(fr, Elab(fr.ctx, e), k, Sem(fr.ctx, fr.vars, e), rest, stack)
    decreases e, 1
  {
    match e
    case Lit(v, _) => RunsLit(fr, Elab(fr.ctx, e), k, rest, stack);
    case Path(_, _) => CompilesPath(fr, e, k, rest, stack);
    case Member(_, _, _) => CompilesMember(fr, e, k, rest, stack);
    case Unary(_, _, _) => CompilesUnary(fr, e, k, rest, stack);
    case Binary(op, _, _, _) =>
      if Strict(op) {
        CompilesStrict(fr, e, k, rest, stack);
      } else {
        CompilesShortCircuit(fr, e, k, rest, stack);
      }
    case Ternary(_, _, _, _) => CompilesTernary(fr, e, k, rest, stack);
    case Call(_, _, _) => CompilesCall(fr, e, k, rest, stack);
  }

  /** The node's constants are in place, the stack has room, and its code is short enough
      that no jump offset loses bits. */
  predicate Fits(fr: Frame, n: Node, k: nat, height: nat) {
    && ConstantsAt(fr, k, Constants(fr.ctx.fpu, n))
    && height + Need(n) <= MAX_STACK
    && |Code(fr.ctx, n, k)| < 0x8000
  }

  lemma {:induction false} CompilesPath(fr: Frame, e: Expr, k: nat, rest: seq<Instr>, stack: seq<Value>)
    requires FrameOk(fr) && e.Path? && Infer(fr.ctx, e).Success? && |stack| < MAX_STACK
    ensures Runs(fr, Elab(fr.ctx, e), k, Sem(fr.ctx, fr.vars, e), rest, stack)
  {
    var (count, slot) := LongestPrefix(fr.ctx.vars, e.segments).value;
    var lane: int := if |e.segments| == count then -1 else LaneIndex(e.segments[count]).value;
    var n := Elab(fr.ctx, e);
    assert n.NPath? && n.slot == Int16(slot) && n.lane == lane && !n.coerce;
    RunsPath(fr, slot, lane, rest, stack);
    var tail := if lane >= 0 then [Instr(Lane, 0, Int16(lane))] else [];
    assert Code(fr.ctx, n, k) == [Instr(PushVar, 0, Int16(Int16(slot)))] + tail;
  }

  function LaneInstr(member: string): Instr {
    Instr(Lane, 0, if LaneIndex(member).Some? then LaneIndex(member).value else 0)
  }

  lemma {:induction false} MemberShape(fr: Frame, e: Expr, k: nat, height: nat)
    requires e.Member? && Infer(fr.ctx, e).Success? && Fits(fr, Elab(fr.ctx, e), k, height)
    ensures Infer(fr.ctx, e.base).Success? && Fits(fr, Elab(fr.ctx, e.base), k, height)
    ensures IsUnaryOp(LaneInstr(e.member).op)
    ensures Code(fr.ctx, Elab(fr.ctx, e), k) == Code(fr.ctx, Elab(fr.ctx, e.base), k) + [LaneInstr(e.member)]
  {
    Int16Fits(LaneIndex(e.member).value);
    var n, b := Elab(fr.ctx, e), Elab(fr.ctx, e.base);
    assert n.NMember? && n.base == b && !n.coerce;
    assert Code(fr.ctx, n, k) == Core(fr.ctx, n, k);
  }

  lemma {:induction false} MemberSem(fr: Frame, e: Expr)
    requires FrameOk(fr) && e.Member? && Infer(fr.ctx, e).Success?
    ensures Infer(fr.ctx, e.base).Success? && |fr.vars| == |fr.ctx.vars|
    ensures var r := Sem(fr.ctx, fr.vars, e.base);
            && (r.Good? ==> UnaryOp(fr.ctx.fpu, LaneInstr(e.member), r.v) == Some(Sem(fr.ctx, fr.vars, e)))
            && (r.Fault? ==> Sem(fr.ctx, fr.vars, e) == r)
  {
    SemTyped(fr.ctx, fr.vars, e.base);
  }

  lemma {:induction false} CompilesMember(fr: Frame, e: Expr, k: nat, rest: seq<Instr>, stack: seq<Value>)
    requires FrameOk(fr) && e.Member? && Infer(fr.ctx, e).Success? && Fits(fr, Elab(fr.ctx, e), k, |stack|)
    ensures Runs(fr, Elab(fr.ctx, e), k, Sem(fr.ctx, fr.vars, e), rest, stack)
    decreases e, 0
  {
    hide *;
    MemberShape(fr, e, k, |stack|);
    MemberSem(fr, e);
    var last := LaneInstr(e.member);
    Compiles(fr, e.base, k, [last] + rest, stack);
    RunsThenUnary(fr, Elab(fr.ctx, e.base), Elab(fr.ctx, e), k, Sem(fr.ctx, fr.vars, e.base), last, rest, stack);
  }

  lemma {:induction false} UnaryShape(ctx: Ctx, e: Expr, k: nat)
    requires e.Unary? && Infer(ctx, e).Success?
    ensures Infer(ctx, e.a).Success?
    ensures var a, in_ := Elab(ctx, e.a), UnaryInstr(ctx, e);
            && Code(ctx, Elab(ctx, e), k) == Code(ctx, a, k) + [in_]
            && Constants(ctx.fpu, Elab(ctx, e)) == Constants(ctx.fpu, a) && Need(Elab(ctx, e)) == Need(a)
            && IsUnaryOp(in_.op)
  {
    ElabType(ctx, e.a);
  }

  function UnaryInstr(ctx: Ctx, e: Expr): Instr
    requires e.Unary? && Infer(ctx, e).Success?
  {
    if e.op == KNot then Instr(NotB, 0, 0) else NegOp(Infer(ctx, e.a).value)
  }

  lemma {:induction false} UnarySem(fr: Frame, e: Expr, k: nat, height: nat)
    requires FrameOk(fr) && e.Unary? && Infer(fr.ctx, e).Success? && Fits(fr, Elab(fr.ctx, e), k, height)
    ensures Infer(fr.ctx, e.a).Success? && |fr.vars| == |fr.ctx.vars| && Fits(fr, Elab(fr.ctx, e.a), k, height)
    ensures var r := Sem(fr.ctx, fr.vars, e.a);
            && (r.Good? ==> UnaryOp(fr.ctx.fpu, UnaryInstr(fr.ctx, e), r.v) == Some(Sem(fr.ctx, fr.vars, e)))
            && (r.Fault? ==> Sem(fr.ctx, fr.vars, e) == r)
  {
    hide Lanes1, Wrap, FloatToInt;
    UnaryShape(fr.ctx, e, k);
    SemTyped(fr.ctx, fr.vars, e.a);
  }

  lemma {:induction false} CompilesUnary(fr: Frame, e: Expr, k: nat, rest: seq<Instr>, stack: seq<Value>)
    requires FrameOk(fr) && e.Unary? && Infer(fr.ctx, e).Success? && Fits(fr, Elab(fr.ctx, e), k, |stack|)
    ensures Runs(fr, Elab(fr.ctx, e), k, Sem(fr.ctx, fr.vars, e), rest, stack)
    decreases e, 0
  {
    hide *;
    UnaryShape(fr.ctx, e, k);
    UnarySem(fr, e, k, |stack|);
    var last := UnaryInstr(fr.ctx, e);
    Compiles(fr, e.a, k, [last] + rest, stack);
    RunsThenUnary(fr, Elab(fr.ctx, e.a), Elab(fr.ctx, e), k, Sem(fr.ctx, fr.vars, e.a), last, rest, stack);
  }

  /** A node whose code is its child's code and one unary opcode. */
  lemma {:induction false} RunsThenUnary(fr: Frame, child: Node, n: Node, k: nat, r: Outcome, in_: Instr, rest: seq<Instr>, stack: seq<Value>)
    requires IsUnaryOp(in_.op) && (r.Good? ==> UnaryOp(fr.ctx.fpu, in_, r.v).Some?)
    requires Code(fr.ctx, n, k) == Code(fr.ctx, child, k) + [in_]
    requires Runs(fr, child, k, r, [in_] + rest, stack)
    ensures Runs(fr, n, k, if r.Good? then UnaryOp(fr.ctx.fpu, in_, r.v).value else r, rest, stack)
  {
    hide Run, Step, Code, UnaryOp, IsUnaryOp;
    Regroup(Code(fr.ctx, child, k), [in_], rest);
    UnaryAfter(fr, r, in_, rest, stack);
  }

  /** A child as its parent wants it: its node, and its outcome. */
  function ElabAs(ctx: Ctx, e: Expr, want: Ty): Node
    requires Infer(ctx, e).Success?
  {
    As(ctx.fpu, Elab(ctx, e), want)
  }

  function SemAs(fr: Frame, e: Expr, want: Ty): Outcome
    requires Infer(fr.ctx, e).Success? && |fr.vars| == |fr.ctx.vars|
  {
    ConvertOutcome(fr.ctx.fpu, Sem(fr.ctx, fr.vars, e), want)
  }

  predicate Wanted(ctx: Ctx, e: Expr, want: Ty) {
    Infer(ctx, e).Success? && Accepts(want, Infer(ctx, e).value, IsText(e))
  }

  lemma {:induction false} SemAsTyped(fr: Frame, e: Expr, want: Ty)
    requires FrameOk(fr) && Wanted(fr.ctx, e, want)
    ensures OutcomeTyped(SemAs(fr, e, want), want)
  {
    SemTyped(fr.ctx, fr.vars, e);
  }

  /** The node's code turns its start into outcome r. */
  predicate Runs(fr: Frame, n: Node, k: nat, r: Outcome, rest: seq<Instr>, stack: seq<Value>) {
    RunOn(fr, Code(fr.ctx, n, k) + rest, stack) == After(fr, r, rest, stack)
  }

  /** The same for a child where its parent wants type `want`: the conversion is compiled in. */
  lemma {:induction false} CompilesAs(fr: Frame, e: Expr, want: Ty, k: nat, rest: seq<Instr>, stack: seq<Value>)
    requires FrameOk(fr) && Wanted(fr.ctx, e, want) && Fits(fr, ElabAs(fr.ctx, e, want), k, |stack|)
    ensures Runs(fr, ElabAs(fr.ctx, e, want), k, SemAs(fr, e, want), rest, stack)
    decreases e, 2
  {
    hide Run;
    hide Step;
    var n := Elab(fr.ctx, e);
    ElabType(fr.ctx, e);
    if e.Lit? {
      RunsLit(fr, ElabAs(fr.ctx, e, want), k, rest, stack);
    } else {
      hide Sem;
      SemTyped(fr.ctx, fr.vars, e);
      if Infer(fr.ctx, e).value == want {
        Compiles(fr, e, k, rest, stack);
      } else {
        var widen := Instr(IntToFloat, 0, 0);
        CoercedNode(fr.ctx, n, k);
        Compiles(fr, e, k, [widen] + rest, stack);
        RunsWidened(fr, n, k, Sem(fr.ctx, fr.vars, e), rest, stack);
      }
    }
  }

  lemma {:induction false} CoercedNode(ctx: Ctx, n: Node, k: nat)
    requires !n.coerce && !n.NLit? && n.ty == TInt
    ensures var m := As(ctx.fpu, n, TFloat);
            && Code(ctx, m, k) == Code(ctx, n, k) + [Instr(IntToFloat, 0, 0)]
            && Constants(ctx.fpu, m) == Constants(ctx.fpu, n) && Need(m) == Need(n)
  {
  }

  lemma {:induction false} RunsWidened(fr: Frame, n: Node, k: nat, r: Outcome, rest: seq<Instr>, stack: seq<Value>)
    requires !n.coerce && !n.NLit? && n.ty == TInt && OutcomeTyped(r, TInt)
    requires Runs(fr, n, k, r, [Instr(IntToFloat, 0, 0)] + rest, stack)
    ensures Runs(fr, As(fr.ctx.fpu, n, TFloat), k, ConvertOutcome(fr.ctx.fpu, r, TFloat), rest, stack)
  {
    hide Run, Step, Code, Constants, Need;
    var widen := Instr(IntToFloat, 0, 0);
    CoercedNode(fr.ctx, n, k);
    assert Code(fr.ctx, n, k) + [widen] + rest == Code(fr.ctx, n, k) + ([widen] + rest);
    UnaryAfter(fr, r, widen, rest, stack);
  }

  // ---- binary nodes

  function RuleOf(ctx: Ctx, e: Expr): Rule
    requires e.Binary? && Infer(ctx, e).Success?
  {
    BinaryRule(e.op, Infer(ctx, e.a).value, Infer(ctx, e.b).value, IsText(e.a), IsText(e.b)).value
  }

  lemma {:induction false} BinaryShape(ctx: Ctx, e: Expr)
    requires e.Binary? && Infer(ctx, e).Success?
    ensures var r := RuleOf(ctx, e);
            && Infer(ctx, e) == Success(r.result)
            && Wanted(ctx, e.a, r.left) && Wanted(ctx, e.b, r.right)
            && Elab(ctx, e) == NBinary(e.op, ElabAs(ctx, e.a, r.left), ElabAs(ctx, e.b, r.right), r.result, false)
            && Effective(ElabAs(ctx, e.a, r.left)) == r.left && Effective(ElabAs(ctx, e.b, r.right)) == r.right
            && (Strict(e.op) ==> BinaryRule(e.op, r.left, r.right, false, false) == Some(r))
            && (!Strict(e.op) ==> r == Rule(TBool, TBool, TBool))
  {
    var r := RuleOf(ctx, e);
    var ta, tb := Infer(ctx, e.a).value, Infer(ctx, e.b).value;
    RuleAccepts(e.op, ta, tb, IsText(e.a), IsText(e.b));
    if Strict(e.op) {
      RuleConverted(e.op, ta, tb, IsText(e.a), IsText(e.b));
    }
    AsType(ctx, e.a, r.left);
    AsType(ctx, e.b, r.right);
  }

  lemma {:induction false} BinarySem(fr: Frame, e: Expr)
    requires FrameOk(fr) && e.Binary? && Infer(fr.ctx, e).Success?
    ensures |fr.vars| == |fr.ctx.vars|
    ensures var r := RuleOf(fr.ctx, e);
            Sem(fr.ctx, fr.vars, e) == CombineOutcomes(fr.ctx.fpu, e.op, SemAs(fr, e.a, r.left), SemAs(fr, e.b, r.right))
  {
  }

  function CombineOutcomes(fpu: Fpu, op: TokenKind, ra: Outcome, rb: Outcome): Outcome {
    if ra.Fault? then ra
    else if op == KAnd && !Truthy(ra.v) then Good(BoolV(false))
    else if op == KOr && Truthy(ra.v) then Good(BoolV(true))
    else if rb.Fault? || !Strict(op) then rb
    else Apply(fpu, op, ra.v, rb.v)
  }

  lemma {:induction false} BinaryFits(fr: Frame, n: Node, k: nat, height: nat)
    requires n.NBinary? && !n.coerce && Fits(fr, n, k, height)
    ensures var ka := k + |Constants(fr.ctx.fpu, n.a)|;
            && Fits(fr, n.a, k, height)
            && Fits(fr, n.b, ka, if Strict(n.op) then height + 1 else height)
            && (!Strict(n.op) ==> |Code(fr.ctx, n.b, ka)| + 1 < 0x8000)
  {
    assert |Code(fr.ctx, n, k)| == |Core(fr.ctx, n, k)|;
    ConstantsAtSplit(fr, k, Constants(fr.ctx.fpu, n.a), Constants(fr.ctx.fpu, n.b));
  }

  lemma {:induction false} CompilesStrict(fr: Frame, e: Expr, k: nat, rest: seq<Instr>, stack: seq<Value>)
    requires FrameOk(fr) && e.Binary? && Strict(e.op) && Infer(fr.ctx, e).Success? && Fits(fr, Elab(fr.ctx, e), k, |stack|)
    ensures Runs(fr, Elab(fr.ctx, e), k, Sem(fr.ctx, fr.vars, e), rest, stack)
    decreases e, 0
  {
    hide *;
    BinaryShape(fr.ctx, e);
    BinarySem(fr, e);
    var n, r := Elab(fr.ctx, e), RuleOf(fr.ctx, e);
    BinaryFits(fr, n, k, |stack|);
    var ka := k + |Constants(fr.ctx.fpu, n.a)|;
    var last := [SelectOp(e.op, r.left, r.right)];
    var ra, rb := SemAs(fr, e.a, r.left), SemAs(fr, e.b, r.right);
    CompilesAs(fr, e.a, r.left, k, Code(fr.ctx, n.b, ka) + (last + rest), stack);
    SemAsTyped(fr, e.a, r.left);
    SemAsTyped(fr, e.b, r.right);
    if ra.Good? {
      CompilesAs(fr, e.b, r.right, ka, last + rest, stack + [ra.v]);
    }
    RunsStrict(fr, n, r, k, ra, rb, rest, stack);
  }

  lemma {:induction false} RunsStrict(fr: Frame, n: Node, r: Rule, k: nat, ra: Outcome, rb: Outcome, rest: seq<Instr>, stack: seq<Value>)
    requires n.NBinary? && !n.coerce && Strict(n.op) && Effective(n.a) == r.left && Effective(n.b) == r.right
    requires BinaryRule(n.op, r.left, r.right, false, false) == Some(r)
    requires OutcomeTyped(ra, r.left) && OutcomeTyped(rb, r.right)
    requires var ka := k + |Constants(fr.ctx.fpu, n.a)|;
             var last := [SelectOp(n.op, r.left, r.right)];
             && Runs(fr, n.a, k, ra, Code(fr.ctx, n.b, ka) + (last + rest), stack)
             && (ra.Good? ==> Runs(fr, n.b, ka, rb, last + rest, stack + [ra.v]))
    ensures Runs(fr, n, k, CombineOutcomes(fr.ctx.fpu, n.op, ra, rb), rest, stack)
  {
    hide Step;
    var ka := k + |Constants(fr.ctx.fpu, n.a)|;
    var ca, cb, last := Code(fr.ctx, n.a, k), Code(fr.ctx, n.b, ka), [SelectOp(n.op, r.left, r.right)];
    assert Code(fr.ctx, n, k) + rest == ca + (cb + (last + rest));
    if ra.Good? && rb.Good? {
      RunsPair(fr, n.op, r, ra.v, rb.v, rest, stack);
    }
  }

  lemma {:induction false} CompilesShortCircuit(fr: Frame, e: Expr, k: nat, rest: seq<Instr>, stack: seq<Value>)
    requires FrameOk(fr) && e.Binary? && !Strict(e.op) && Infer(fr.ctx, e).Success? && Fits(fr, Elab(fr.ctx, e), k, |stack|)
    ensures Runs(fr, Elab(fr.ctx, e), k, Sem(fr.ctx, fr.vars, e), rest, stack)
    decreases e, 0
  {
    hide *;
    BinaryShape(fr.ctx, e);
    BinarySem(fr, e);
    var n := Elab(fr.ctx, e);
    BinaryFits(fr, n, k, |stack|);
    var ka := k + |Constants(fr.ctx.fpu, n.a)|;
    CompilesAs(fr, e.a, TBool, k, ShortCircuitTail(fr, n, k) + rest, stack);
    CompilesAs(fr, e.b, TBool, ka, rest, stack);
    SemAsTyped(fr, e.a, TBool);
    SemAsTyped(fr, e.b, TBool);
    RunsEither(fr, n, k, SemAs(fr, e.a, TBool), SemAs(fr, e.b, TBool), rest, stack);
  }

  /** A short-circuit node's code after its left operand. */
  function ShortCircuitTail(fr: Frame, n: Node, k: nat): seq<Instr>
    requires n.NBinary?
  {
    var cb := Code(fr.ctx, n.b, k + |Constants(fr.ctx.fpu, n.a)|);
    [Instr(if n.op == KAnd then JumpIfFalseKeep else JumpIfTrueKeep, 0, |cb| + 1), Instr(Pop, 0, 0)] + cb
  }

  lemma {:induction false} RunsEither(fr: Frame, n: Node, k: nat, ra: Outcome, rb: Outcome, rest: seq<Instr>, stack: seq<Value>)
    requires n.NBinary? && !n.coerce && !Strict(n.op) && OutcomeTyped(ra, TBool) && OutcomeTyped(rb, TBool)
    requires |Code(fr.ctx, n.b, k + |Constants(fr.ctx.fpu, n.a)|)| + 1 < 0x8000
    requires Runs(fr, n.a, k, ra, ShortCircuitTail(fr, n, k) + rest, stack)
    requires Runs(fr, n.b, k + |Constants(fr.ctx.fpu, n.a)|, rb, rest, stack)
    ensures Runs(fr, n, k, CombineOutcomes(fr.ctx.fpu, n.op, ra, rb), rest, stack)
  {
    hide Step;
    var cb := Code(fr.ctx, n.b, k + |Constants(fr.ctx.fpu, n.a)|);
    Int16Fits(|cb| + 1);
    var tail := ShortCircuitTail(fr, n, k);
    assert Code(fr.ctx, n, k) == Code(fr.ctx, n.a, k) + tail;
    assert Code(fr.ctx, n, k) + rest == Code(fr.ctx, n.a, k) + (tail + rest);
    if ra.Good? {
      RunsShortCircuit(fr, n.op == KAnd, ra.v, cb, rest, stack);
    }
  }

  // ---- conditionals

  lemma {:induction false} TernaryShape(ctx: Ctx, e: Expr)
    requires e.Ternary? && Infer(ctx, e).Success?
    ensures var t := Infer(ctx, e).value;
            && Infer(ctx, e.c) == Success(TBool) && Wanted(ctx, e.a, t) && Wanted(ctx, e.b, t)
            && Elab(ctx, e) == NTernary(Elab(ctx, e.c), ElabAs(ctx, e.a, t), ElabAs(ctx, e.b, t), t, false)
  {
  }

  lemma {:induction false} TernaryFits(fr: Frame, n: Node, k: nat, height: nat)
    requires n.NTernary? && !n.coerce && Fits(fr, n, k, height)
    ensures var ka := k + |Constants(fr.ctx.fpu, n.c)|;
            var kb := ka + |Constants(fr.ctx.fpu, n.a)|;
            Fits(fr, n.c, k, height) && Fits(fr, n.a, ka, height) && Fits(fr, n.b, kb, height) && |Code(fr.ctx, n, k)| < 0x8000
  {
    assert |Code(fr.ctx, n, k)| == |Core(fr.ctx, n, k)|;
    var xc, xa, xb := Constants(fr.ctx.fpu, n.c), Constants(fr.ctx.fpu, n.a), Constants(fr.ctx.fpu, n.b);
    ConstantsAtSplit(fr, k, xc + xa, xb);
    ConstantsAtSplit(fr, k, xc, xa);
  }

  /** A conditional's code after its condition, and after its then-arm. */
  function ArmsTail(fr: Frame, n: Node, k: nat): seq<Instr>
    requires n.NTernary?
  {
    var ka := k + |Constants(fr.ctx.fpu, n.c)|;
    var ca, cb := Code(fr.ctx, n.a, ka), Code(fr.ctx, n.b, ka + |Constants(fr.ctx.fpu, n.a)|);
    [Instr(JumpIfFalsePop, 0, |ca| + 1)] + ca + [Instr(Jump, 0, |cb|)] + cb
  }

  function ElseTail(fr: Frame, n: Node, k: nat): seq<Instr>
    requires n.NTernary?
  {
    var cb := Code(fr.ctx, n.b, k + |Constants(fr.ctx.fpu, n.c)| + |Constants(fr.ctx.fpu, n.a)|);
    [Instr(Jump, 0, |cb|)] + cb
  }

  lemma {:induction false} CompilesTernary(fr: Frame, e: Expr, k: nat, rest: seq<Instr>, stack: seq<Value>)
    requires FrameOk(fr) && e.Ternary? && Infer(fr.ctx, e).Success? && Fits(fr, Elab(fr.ctx, e), k, |stack|)
    ensures Runs(fr, Elab(fr.ctx, e), k, Sem(fr.ctx, fr.vars, e), rest, stack)
    decreases e, 0
  {
    hide *;
    var t := Infer(fr.ctx, e).value;
    TernaryShape(fr.ctx, e);
    var n := Elab(fr.ctx, e);
    TernaryFits(fr, n, k, |stack|);
    TernarySem(fr, e);
    var ka := k + |Constants(fr.ctx.fpu, n.c)|;
    Compiles(fr, e.c, k, ArmsTail(fr, n, k) + rest, stack);
    CompilesAs(fr, e.a, t, ka, ElseTail(fr, n, k) + rest, stack);
    CompilesAs(fr, e.b, t, ka + |Constants(fr.ctx.fpu, n.a)|, rest, stack);
    RunsConditional(fr, n, k, Sem(fr.ctx, fr.vars, e.c), SemAs(fr, e.a, t), SemAs(fr, e.b, t), rest, stack);
  }

  lemma {:induction false} TernarySem(fr: Frame, e: Expr)
    requires FrameOk(fr) && e.Ternary? && Infer(fr.ctx, e).Success?
    ensures |fr.vars| == |fr.ctx.vars| && OutcomeTyped(Sem(fr.ctx, fr.vars, e.c), TBool)
    ensures var t := Infer(fr.ctx, e).value;
            Sem(fr.ctx, fr.vars, e) == Choose(Sem(fr.ctx, fr.vars, e.c), SemAs(fr, e.a, t), SemAs(fr, e.b, t))
  {
    SemTyped(fr.ctx, fr.vars, e.c);
  }

  function Choose(rc: Outcome, ra: Outcome, rb: Outcome): Outcome {
    if rc.Fault? then rc else if Truthy(rc.v) then ra else rb
  }

  lemma {:induction false} RunsConditional(fr: Frame, n: Node, k: nat, rc: Outcome, ra: Outcome, rb: Outcome, rest: seq<Instr>, stack: seq<Value>)
    requires n.NTernary? && !n.coerce && OutcomeTyped(rc, TBool) && |Code(fr.ctx, n, k)| < 0x8000
    requires Runs(fr, n.c, k, rc, ArmsTail(fr, n, k) + rest, stack)
    requires Runs(fr, n.a, k + |Constants(fr.ctx.fpu, n.c)|, ra, ElseTail(fr, n, k) + rest, stack)
    requires Runs(fr, n.b, k + |Constants(fr.ctx.fpu, n.c)| + |Constants(fr.ctx.fpu, n.a)|, rb, rest, stack)
    ensures Runs(fr, n, k, Choose(rc, ra, rb), rest, stack)
  {
    hide Step;
    var ka := k + |Constants(fr.ctx.fpu, n.c)|;
    var ca, cb := Code(fr.ctx, n.a, ka), Code(fr.ctx, n.b, ka + |Constants(fr.ctx.fpu, n.a)|);
    TernaryCode(fr, n, k, rest);
    if rc.Good? {
      RunsCondition(fr, rc.v, ca, cb, rest, stack);
      RunsJump(fr, ra, cb, rest, stack);
      assert [Instr(Jump, 0, |cb|)] + cb + rest == [Instr(Jump, 0, |cb|)] + (cb + rest);
    }
  }

  lemma {:induction false} TernaryCode(fr: Frame, n: Node, k: nat, rest: seq<Instr>)
    requires n.NTernary? && !n.coerce && |Code(fr.ctx, n, k)| < 0x8000
    ensures Code(fr.ctx, n, k) + rest == Code(fr.ctx, n.c, k) + (ArmsTail(fr, n, k) + rest)
  {
    var ka := k + |Constants(fr.ctx.fpu, n.c)|;
    var cc, ca, cb := Code(fr.ctx, n.c, k), Code(fr.ctx, n.a, ka), Code(fr.ctx, n.b, ka + |Constants(fr.ctx.fpu, n.a)|);
    assert |Code(fr.ctx, n, k)| == |cc| + 1 + |ca| + 1 + |cb|;
    Int16Fits(|ca| + 1);
    Int16Fits(|cb|);
    assert Code(fr.ctx, n, k) == cc + ArmsTail(fr, n, k);
  }

  // ---- calls

  lemma {:induction false} ArgsShape(ctx: Ctx, args: seq<Expr>, params: seq<Ty>)
    requires |args| == |params| && args != [] && InferArgs(ctx, args, params).Success?
    ensures var n := |args| - 1;
            && InferArgs(ctx, args[..n], params[..n]).Success? && Wanted(ctx, args[n], params[n])
            && ElabArgs(ctx, args, params) == ElabArgs(ctx, args[..n], params[..n]) + [ElabAs(ctx, args[n], params[n])]
  {
    hide Infer, Elab, As, Accepts;
  }

  function CallIndex(ctx: Ctx, e: Expr): (i: nat)
    requires e.Call? && Infer(ctx, e).Success?
    ensures i < |ctx.table|
  {
    FindBuiltin(ctx.table, Join(e.segments)).value
  }

  lemma {:induction false} CallShape(ctx: Ctx, e: Expr)
    requires e.Call? && Infer(ctx, e).Success?
    ensures var index := CallIndex(ctx, e);
            var f := ctx.table[index];
            && BuiltinOk(f) && |e.args| == |f.params| && InferArgs(ctx, e.args, f.params).Success?
            && Infer(ctx, e) == Success(f.result)
            && Elab(ctx, e) == NCall(index, ElabArgs(ctx, e.args, f.params), f.result, false)
            && |CallOp(ctx.table, index)| == 1
  {
  }

  lemma {:induction false} CallCode(ctx: Ctx, n: Node, k: nat)
    requires n.NCall? && !n.coerce
    ensures Code(ctx, n, k) == CodeOf(ctx, n.args, k) + CallOp(ctx.table, n.builtin)
    ensures Constants(ctx.fpu, n) == ConstantsOf(ctx.fpu, n.args) && Need(n) == NeedOf(n.args)
  {
  }

  lemma {:induction false} CallFits(fr: Frame, e: Expr, k: nat, height: nat)
    requires FrameOk(fr) && e.Call? && Infer(fr.ctx, e).Success? && Fits(fr, Elab(fr.ctx, e), k, height)
    ensures var f := fr.ctx.table[CallIndex(fr.ctx, e)];
            && |fr.vars| == |fr.ctx.vars| && |e.args| == |f.params| && InferArgs(fr.ctx, e.args, f.params).Success?
            && FitsAll(fr, ElabArgs(fr.ctx, e.args, f.params), k, height)
            && Code(fr.ctx, Elab(fr.ctx, e), k) ==
               CodeOf(fr.ctx, ElabArgs(fr.ctx, e.args, f.params), k) + CallOp(fr.ctx.table, CallIndex(fr.ctx, e))
  {
    CallShape(fr.ctx, e);
    CallCode(fr.ctx, Elab(fr.ctx, e), k);
    hide Infer, InferArgs, Elab, ElabArgs, CodeOf, ConstantsOf, NeedOf, CallOp;
  }

  lemma {:induction false} CallSem(fr: Frame, e: Expr)
    requires FrameOk(fr) && e.Call? && Infer(fr.ctx, e).Success?
    ensures var index := CallIndex(fr.ctx, e);
            var f := fr.ctx.table[index];
            && |fr.vars| == |fr.ctx.vars| && |e.args| == |f.params| && InferArgs(fr.ctx, e.args, f.params).Success?
            && var r := SemArgs(fr.ctx, fr.vars, e.args, f.params);
            && (r.ArgFault? ==> Sem(fr.ctx, fr.vars, e) == Fault(r.status))
            && (r.Values? ==> ArgsTyped(r.vs, f.params) && Sem(fr.ctx, fr.vars, e) == CallResult(fr.ctx, index, r.vs))
  {
    CallShape(fr.ctx, e);
    SemArgsTyped(fr.ctx, fr.vars, e.args, fr.ctx.table[CallIndex(fr.ctx, e)].params);
    hide SemArgs, CallResult, Elab;
  }

  lemma {:induction false} CompilesCall(fr: Frame, e: Expr, k: nat, rest: seq<Instr>, stack: seq<Value>)
    requires FrameOk(fr) && e.Call? && Infer(fr.ctx, e).Success? && Fits(fr, Elab(fr.ctx, e), k, |stack|)
    ensures Runs(fr, Elab(fr.ctx, e), k, Sem(fr.ctx, fr.vars, e), rest, stack)
    decreases e, 0
  {
    hide *;
    CallFits(fr, e, k, |stack|);
    CallSem(fr, e);
    var index := CallIndex(fr.ctx, e);
    var f := fr.ctx.table[index];
    CompilesArgs(fr, e.args, f.params, k, CallOp(fr.ctx.table, index) + rest, stack);
    RunsThenCall(fr, Elab(fr.ctx, e), index, ElabArgs(fr.ctx, e.args, f.params), k,
                 SemArgs(fr.ctx, fr.vars, e.args, f.params), Sem(fr.ctx, fr.vars, e), rest, stack);
  }

  lemma {:induction false} RunsThenCall(fr: Frame, n: Node, index: nat, args: seq<Node>, k: nat, r: ArgsOutcome, out: Outcome,
                                        rest: seq<Instr>, stack: seq<Value>)
    requires index < |fr.ctx.table| && Code(fr.ctx, n, k) == CodeOf(fr.ctx, args, k) + CallOp(fr.ctx.table, index)
    requires r.ArgFault? ==> out == Fault(r.status)
    requires r.Values? ==> ArgsTyped(r.vs, fr.ctx.table[index].params) && out == CallResult(fr.ctx, index, r.vs)
    requires RunsAll(fr, args, k, r, CallOp(fr.ctx.table, index) + rest, stack)
    ensures Runs(fr, n, k, out, rest, stack)
  {
    hide Run, Step, Code, CodeOf, CallOp, CallResult, ArgsTyped;
    Regroup(CodeOf(fr.ctx, args, k), CallOp(fr.ctx.table, index), rest);
    if r.Values? {
      RunsCall(fr, index, r.vs, rest, stack);
    }
  }

  /** The outcome of an argument list, seen by the machine. */
  function AfterArgs(fr: Frame, r: ArgsOutcome, rest: seq<Instr>, stack: seq<Value>): Final {
    match r
    case Values(vs) => RunOn(fr, rest, stack + vs)
    case ArgFault(s) => Trapped(s)
  }

  predicate FitsAll(fr: Frame, ns: seq<Node>, k: nat, height: nat) {
    && ConstantsAt(fr, k, ConstantsOf(fr.ctx.fpu, ns))
    && height + NeedOf(ns) <= MAX_STACK
    && |CodeOf(fr.ctx, ns, k)| < 0x8000
  }

  predicate RunsAll(fr: Frame, ns: seq<Node>, k: nat, r: ArgsOutcome, rest: seq<Instr>, stack: seq<Value>) {
    RunOn(fr, CodeOf(fr.ctx, ns, k) + rest, stack) == AfterArgs(fr, r, rest, stack)
  }

  lemma {:induction false} CompilesArgs(fr: Frame, args: seq<Expr>, params: seq<Ty>, k: nat, rest: seq<Instr>, stack: seq<Value>)
    requires FrameOk(fr) && |args| == |params| && InferArgs(fr.ctx, args, params).Success?
    requires FitsAll(fr, ElabArgs(fr.ctx, args, params), k, |stack|)
    ensures RunsAll(fr, ElabArgs(fr.ctx, args, params), k, SemArgs(fr.ctx, fr.vars, args, params), rest, stack)
    decreases args, 4
  {
    if args == [] {
      RunsNone(fr, ElabArgs(fr.ctx, args, params), k, rest, stack);
    } else {
      CompilesMoreArgs(fr, args, params, k, rest, stack);
    }
  }

  lemma {:induction false} CompilesMoreArgs(fr: Frame, args: seq<Expr>, params: seq<Ty>, k: nat, rest: seq<Instr>, stack: seq<Value>)
    requires FrameOk(fr) && |args| == |params| && args != [] && InferArgs(fr.ctx, args, params).Success?
    requires FitsAll(fr, ElabArgs(fr.ctx, args, params), k, |stack|)
    ensures RunsAll(fr, ElabArgs(fr.ctx, args, params), k, SemArgs(fr.ctx, fr.vars, args, params), rest, stack)
    decreases args, 3
  {
    hide *;
    ArgsShape(fr.ctx, args, params);
    ArgsSem(fr, args, params);
    var n := |args| - 1;
    var before, last := ElabArgs(fr.ctx, args[..n], params[..n]), ElabAs(fr.ctx, args[n], params[n]);
    ArgsFits(fr, before, last, k, |stack|);
    var kn := k + |ConstantsOf(fr.ctx.fpu, before)|;
    CompilesArgs(fr, args[..n], params[..n], k, Code(fr.ctx, last, kn) + rest, stack);
    var r := SemArgs(fr.ctx, fr.vars, args[..n], params[..n]);
    if r.Values? {
      CompilesAs(fr, args[n], params[n], kn, rest, stack + r.vs);
    }
    RunsOneMore(fr, before, last, k, r, SemAs(fr, args[n], params[n]), rest, stack);
  }

  lemma {:induction false} RunsNone(fr: Frame, ns: seq<Node>, k: nat, rest: seq<Instr>, stack: seq<Value>)
    requires ns == []
    ensures RunsAll(fr, ns, k, Values([]), rest, stack)
  {
    hide Run;
    assert stack + [] == stack;
    assert [] + rest == rest;
  }

  lemma {:induction false} ArgsSem(fr: Frame, args: seq<Expr>, params: seq<Ty>)
    requires FrameOk(fr) && |args| == |params| && args != [] && InferArgs(fr.ctx, args, params).Success?
    ensures |fr.vars| == |fr.ctx.vars|
    ensures var n := |args| - 1;
            && Infer(fr.ctx, args[n]).Success? && InferArgs(fr.ctx, args[..n], params[..n]).Success? && Wanted(fr.ctx, args[n], params[n])
            && SemArgs(fr.ctx, fr.vars, args, params) ==
               OneMore(SemArgs(fr.ctx, fr.vars, args[..n], params[..n]), SemAs(fr, args[n], params[n]))
  {
    hide Infer, Sem, ConvertOutcome, Accepts;
  }

  function OneMore(r: ArgsOutcome, rn: Outcome): ArgsOutcome {
    match r
    case ArgFault(s) => r
    case Values(vs) => if rn.Fault? then ArgFault(rn.status) else Values(vs + [rn.v])
  }

  lemma {:induction false} RunsOneMore(fr: Frame, before: seq<Node>, last: Node, k: nat, r: ArgsOutcome, rn: Outcome, rest: seq<Instr>, stack: seq<Value>)
    requires var kn := k + |ConstantsOf(fr.ctx.fpu, before)|;
             && RunsAll(fr, before, k, r, Code(fr.ctx, last, kn) + rest, stack)
             && (r.Values? ==> Runs(fr, last, kn, rn, rest, stack + r.vs))
    ensures RunsAll(fr, before + [last], k, OneMore(r, rn), rest, stack)
  {
    var ns := before + [last];
    assert ns[..|ns| - 1] == before && ns[|ns| - 1] == last;
    var kn := k + |ConstantsOf(fr.ctx.fpu, before)|;
    var c0, c1 := CodeOf(fr.ctx, before, k), Code(fr.ctx, last, kn);
    assert c0 + c1 + rest == c0 + (c1 + rest);
    if r.Values? && rn.Good? {
      assert stack + r.vs + [rn.v] == stack + (r.vs + [rn.v]);
    }
  }

  lemma {:induction false} ArgsFits(fr: Frame, before: seq<Node>, last: Node, k: nat, height: nat)
    requires FitsAll(fr, before + [last], k, height)
    ensures FitsAll(fr, before, k, height) && Fits(fr, last, k + |ConstantsOf(fr.ctx.fpu, before)|, height + |before|)
  {
    hide Code, Constants, Need;
    var ns := before + [last];
    assert ns[..|ns| - 1] == before && ns[|ns| - 1] == last;
    ConstantsAtSplit(fr, k, ConstantsOf(fr.ctx.fpu, before), Constants(fr.ctx.fpu, last));
  }
}
