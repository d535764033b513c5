/** Static stack types of compiled code: a checker for stack programs, the map it accepts
    for every compiled tree, and what acceptance means for every run. */
module ExprStackTypes {
  import opened Basics
  import opened ExprValue
  import opened ExprLang
  import opened ExprMachine
  import opened ExprCompiler
  import opened ExprCorrect

  type Types = seq<Ty>

  function TypeOfValue(v: Value): Ty {
    match v
    case BoolV(_) => TBool
    case IntV(_) => TInt
    case FloatV(_) => TFloat
    case StringV(_) => TString
    case NameV(_) => TName
    case LanesV(kind, _) => kind
  }

  // ---- the typing rule of each opcode --------------------------------------------------

  function UnaryTy(in_: Instr, t: Ty): Option<Ty> {
    match in_.op
    case NegI => if t == TInt then Some(TInt) else None
    case NegF => if t == TFloat then Some(TFloat) else None
    case NegV => if LaneCount(t) != 0 && in_.lanes == LaneCount(t) then Some(t) else None
    case NotB => if t == TBool then Some(TBool) else None
    case IntToFloat => if t == TInt then Some(TFloat) else None
    case FloatToIntOp => if t == TFloat then Some(TInt) else None
    case Lane => if 0 <= in_.imm < LaneCount(t) then Some(TFloat) else None
    case _ => None
  }

  function BinaryTy(in_: Instr, ta: Ty, tb: Ty): Option<Ty> {
    if IsIntOp(in_.op) then
      if ta == TInt && tb == TInt then Some(IntOpTy(in_.op)) else None
    else if IsFloatOp(in_.op) then
      if ta == TFloat && tb == TFloat then Some(FloatOpTy(in_.op)) else None
    else
      PairTy(in_, ta, tb)
  }

  function IntOpTy(op: Op): Ty {
    if op.AddI? || op.SubI? || op.MulI? || op.DivI? || op.ModI? then TInt else TBool
  }

  function FloatOpTy(op: Op): Ty {
    if op.AddF? || op.SubF? || op.MulF? || op.DivF? then TFloat else TBool
  }

  function PairTy(in_: Instr, ta: Ty, tb: Ty): Option<Ty> {
    var la, lb := LaneCount(ta), LaneCount(tb);
    match in_.op
    case EqB => if ta == TBool == tb then Some(TBool) else None
    case NeB => if ta == TBool == tb then Some(TBool) else None
    case EqS => if ta == TString == tb then Some(TBool) else None
    case NeS => if ta == TString == tb then Some(TBool) else None
    case EqN => if ta == TName == tb then Some(TBool) else None
    case NeN => if ta == TName == tb then Some(TBool) else None
    case EqV => if la != 0 && ta == tb && in_.lanes == la then Some(TBool) else None
    case NeV => if la != 0 && ta == tb && in_.lanes == la then Some(TBool) else None
    case AddV => if la != 0 && ta == tb && in_.lanes == la then Some(ta) else None
    case SubV => if la != 0 && ta == tb && in_.lanes == la then Some(ta) else None
    case MulVV => if la != 0 && ta == tb && in_.lanes == la then Some(ta) else None
    case MulVS => if la != 0 && tb == TFloat && in_.lanes == la then Some(ta) else None
    case DivVS => if la != 0 && tb == TFloat && in_.lanes == la then Some(ta) else None
    case MulSV => if lb != 0 && ta == TFloat && in_.lanes == lb then Some(tb) else None
    case MulQ => if ta == TQuat == tb then Some(TQuat) else None
    case _ => None
  }

  /** A rule's result replaces the top n types. */
  function Retype(ts: Types, n: nat, r: Option<Ty>): Option<Types>
    requires n <= |ts|
  {
    if r.Some? then Some(ts[..|ts| - n] + [r.value]) else None
  }

  /** The stack types after a straight-line instruction; None when it may not run here. */
  function Effect(ctx: Ctx, constants: seq<Value>, in_: Instr, ts: Types): Option<Types> {
    match in_.op
    case PushConst => if 0 <= in_.imm < |constants| && |ts| < MAX_STACK then Some(ts + [TypeOfValue(constants[in_.imm])]) else None
    case PushVar => if 0 <= in_.imm < |ctx.vars| && |ts| < MAX_STACK then Some(ts + [ctx.vars[in_.imm].ty]) else None
    case Pop => if |ts| >= 1 then Some(ts[..|ts| - 1]) else None
    case CallNative => CallEffect(ctx, in_, ts)
    case _ => OperatorEffect(in_, ts)
  }

  function OperatorEffect(in_: Instr, ts: Types): Option<Types> {
    var h := |ts|;
    if IsUnaryOp(in_.op) then (if h >= 1 then Retype(ts, 1, UnaryTy(in_, ts[h - 1])) else None)
    else if h >= 2 then Retype(ts, 2, BinaryTy(in_, ts[h - 2], ts[h - 1]))
    else None
  }

  function CallEffect(ctx: Ctx, in_: Instr, ts: Types): Option<Types> {
    if !(0 <= in_.imm < |ctx.table|) then None
    else
      var f := ctx.table[in_.imm];
      var n := |f.params|;
      if |ts| >= n && !f.intrinsic && ts[|ts| - n..] == f.params then Some(ts[..|ts| - n] + [f.result]) else None
  }

  predicate IsJump(op: Op) { op.Jump? || op.JumpIfFalsePop? || op.JumpIfFalseKeep? || op.JumpIfTrueKeep? }

  /** Instruction `in_` at stack types ts, with `next` the types at every later position
      (next[0] right after it, and so on to the exit). */
  predicate InstrOk(ctx: Ctx, constants: seq<Value>, in_: Instr, ts: Types, next: seq<Types>) {
    if IsJump(in_.op) then
      && 0 <= in_.imm < |next|
      && (if in_.op.Jump? then next[in_.imm] == ts
          else
            && |ts| >= 1 && ts[|ts| - 1] == TBool
            && var after := if in_.op.JumpIfFalsePop? then ts[..|ts| - 1] else ts;
            next[0] == after && next[in_.imm] == after)
    else
      |next| > 0 && Effect(ctx, constants, in_, ts) == Some(next[0])
  }

  /** Every position has one stack typing, whichever way control gets there; `map` ends with
      the types at the exit. */
  predicate Checked(ctx: Ctx, constants: seq<Value>, code: seq<Instr>, map_: seq<Types>)
    decreases |code|
  {
    && |map_| == |code| + 1
    && |map_[0]| <= MAX_STACK
    && (code == [] || (InstrOk(ctx, constants, code[0], map_[0], map_[1..]) && Checked(ctx, constants, code[1..], map_[1..])))
  }

  // ---- acceptance is sound ------------------------------------------------------------------

  predicate StackTyped(stack: seq<Value>, ts: Types) {
    |stack| == |ts| && forall i | 0 <= i < |ts| :: TypedAs(stack[i], ts[i])
  }

  predicate ConstantsOk(constants: seq<Value>) {
    forall v | v in constants :: TypedAs(v, TypeOfValue(v))
  }

  lemma {:induction false} UnaryTyped(fpu: Fpu, in_: Instr, a: Value, t: Ty)
    requires TypedAs(a, t) && UnaryTy(in_, t).Some?
    ensures UnaryOp(fpu, in_, a).Some? && OutcomeTyped(UnaryOp(fpu, in_, a).value, UnaryTy(in_, t).value)
  {
    hide Lanes1, FloatToInt;
    if a.FloatV? {
      FloatToIntTyped(fpu, a.f);
    }
  }

  lemma {:induction false} FloatToIntTyped(fpu: Fpu, f: Float32)
    ensures OutcomeTyped(FloatToInt(fpu, f), TInt)
  {
  }

  lemma {:induction false} PairTyped(fpu: Fpu, in_: Instr, a: Value, b: Value, ta: Ty, tb: Ty)
    requires TypedAs(a, ta) && TypedAs(b, tb) && BinaryTy(in_, ta, tb).Some?
    ensures BinaryOp(fpu, in_, a, b).Some? && OutcomeTyped(BinaryOp(fpu, in_, a, b).value, BinaryTy(in_, ta, tb).value)
  {
    hide Lanes2, LanesByScalar, ScalarByLanes, LanesEqual, Wrap;
    if IsIntOp(in_.op) {
    } else if IsFloatOp(in_.op) {
    } else {
      OtherPairTyped(fpu, in_, a, b, ta, tb);
    }
  }

  lemma {:induction false} OtherPairTyped(fpu: Fpu, in_: Instr, a: Value, b: Value, ta: Ty, tb: Ty)
    requires TypedAs(a, ta) && TypedAs(b, tb) && PairTy(in_, ta, tb).Some?
    ensures PairOp(fpu, in_, a, b).Some? && OutcomeTyped(PairOp(fpu, in_, a, b).value, PairTy(in_, ta, tb).value)
  {
    hide Lanes2, LanesByScalar, ScalarByLanes, LanesEqual;
  }

  /** An instruction the checker passes runs, and leads to the types the map holds there. */
  lemma {:induction false} StepTyped(fr: Frame, in_: Instr, ts: Types, next: seq<Types>, stack: seq<Value>)
    requires FrameOk(fr) && ConstantsOk(fr.constants) && StackTyped(stack, ts)
    requires InstrOk(fr.ctx, fr.constants, in_, ts, next)
    ensures match Step(fr.ctx, fr.constants, fr.vars, in_, stack)
            case Stuck => false
            case Trap(_) => true
            case Next(skip, stack') => skip < |next| && StackTyped(stack', next[skip])
  {
    hide OperatorTurn, NativeTurn, OperatorEffect, CallEffect;
    match in_.op
    case CallNative => CallTyped(fr, in_, ts, stack);
    case PushConst =>
    case PushVar =>
    case Pop =>
    case Jump =>
    case JumpIfFalsePop =>
    case JumpIfFalseKeep =>
    case JumpIfTrueKeep =>
    case _ => OperatorTyped(fr.ctx.fpu, in_, ts, stack);
  }

  lemma {:induction false} OperatorTyped(fpu: Fpu, in_: Instr, ts: Types, stack: seq<Value>)
    requires StackTyped(stack, ts) && OperatorEffect(in_, ts).Some?
    ensures match OperatorTurn(fpu, in_, stack)
            case Stuck => false
            case Trap(_) => true
            case Next(skip, stack') => skip == 0 && StackTyped(stack', OperatorEffect(in_, ts).value)
  {
    hide UnaryOp, BinaryOp, UnaryTy, BinaryTy;
    var h := |ts|;
    if IsUnaryOp(in_.op) {
      UnaryTyped(fpu, in_, stack[h - 1], ts[h - 1]);
    } else {
      PairTyped(fpu, in_, stack[h - 2], stack[h - 1], ts[h - 2], ts[h - 1]);
    }
  }

  lemma {:induction false} CallTyped(fr: Frame, in_: Instr, ts: Types, stack: seq<Value>)
    requires StackTyped(stack, ts) && CallEffect(fr.ctx, in_, ts).Some?
    ensures match NativeTurn(fr.ctx, in_, stack)
            case Stuck => false
            case Trap(_) => true
            case Next(skip, stack') => skip == 0 && StackTyped(stack', CallEffect(fr.ctx, in_, ts).value)
  {
    var f := fr.ctx.table[in_.imm];
    assert BuiltinOk(f);
    var n := |f.params|;
    var d := |ts| - n;
    forall i | 0 <= i < n ensures TypedAs(stack[d..][i], f.params[i]) {
      assert ts[d..][i] == ts[d + i];
    }
  }

  /** A checked program never goes wrong; if it halts, its stack has the exit types. */
  lemma {:induction false} CheckedRuns(fr: Frame, code: seq<Instr>, map_: seq<Types>, stack: seq<Value>)
    requires FrameOk(fr) && ConstantsOk(fr.constants) && Checked(fr.ctx, fr.constants, code, map_) && StackTyped(stack, map_[0])
    ensures match RunOn(fr, code, stack)
            case Wrong => false
            case Trapped(_) => true
            case Halt(out) => StackTyped(out, map_[|code|])
    decreases |code|
  {
    hide Step, InstrOk;
    if code != [] {
      StepTyped(fr, code[0], map_[0], map_[1..], stack);
      var turn := Step(fr.ctx, fr.constants, fr.vars, code[0], stack);
      if turn.Next? {
        CheckedSuffix(fr.ctx, fr.constants, code, map_, 1 + turn.skip);
        assert map_[1..][turn.skip] == map_[1 + turn.skip..][0];
        CheckedRuns(fr, code[1 + turn.skip..], map_[1 + turn.skip..], turn.stack);
      }
    }
  }

  lemma {:induction false} CheckedSuffix(ctx: Ctx, constants: seq<Value>, code: seq<Instr>, map_: seq<Types>, i: nat)
    requires Checked(ctx, constants, code, map_) && i <= |code|
    ensures Checked(ctx, constants, code[i..], map_[i..])
    decreases i
  {
    hide InstrOk;
    if i == 0 {
      assert code[0..] == code && map_[0..] == map_;
    } else {
      CheckedSuffix(ctx, constants, code[1..], map_[1..], i - 1);
      assert code[1..][i - 1..] == code[i..] && map_[1..][i - 1..] == map_[i..];
    }
  }

  // ---- compiled code is accepted -------------------------------------------------------------

  function VarTy(ctx: Ctx, slot: int): Ty { if 0 <= slot < |ctx.vars| then ctx.vars[slot].ty else TBool }

  /** The stack types before each instruction of a node's code, above `base`. */
  function MapOf(ctx: Ctx, n: Node, base: Types): seq<Types>
    decreases n, 1
  {
    CoreMap(ctx, n, base) + (if n.coerce && !FoldsCoercion(n) then [base + [n.ty]] else [])
  }

  function CoreMap(ctx: Ctx, n: Node, base: Types): seq<Types>
    decreases n, 0
  {
    match n
    case NLit(_, _, _) => [base]
    case NPath(slot, lane, _, _) => [base] + (if lane >= 0 then [base + [VarTy(ctx, Int16(slot))]] else [])
    case NMember(b, _, _, _) => MapOf(ctx, b, base) + [base + [Effective(b)]]
    case NUnary(_, a, _, _) => MapOf(ctx, a, base) + [base + [Effective(a)]]
    case NBinary(op, a, b, _, _) =>
      if Strict(op) then
        MapOf(ctx, a, base) + MapOf(ctx, b, base + [Effective(a)]) + [base + [Effective(a)] + [Effective(b)]]
      else
        MapOf(ctx, a, base) + [base + [TBool], base + [TBool]] + MapOf(ctx, b, base)
    case NTernary(c, a, b, ty, _) =>
      MapOf(ctx, c, base) + [base + [TBool]] + MapOf(ctx, a, base) + [base + [ty]] + MapOf(ctx, b, base)
    case NCall(_, args, _, _) => MapOfArgs(ctx, args, base) + [base + Effectives(args)]
  }

  function Effectives(args: seq<Node>): Types {
    seq(|args|, i requires 0 <= i < |args| => Effective(args[i]))
  }

  function MapOfArgs(ctx: Ctx, args: seq<Node>, base: Types): seq<Types>
    decreases args, 2
  {
    if args == [] then []
    else
      var before := args[..|args| - 1];
      MapOfArgs(ctx, before, base) + MapOf(ctx, args[|args| - 1], base + Effectives(before))
  }

  /** Where a node's code starts, the stack is `base`. */
  lemma {:induction false} MapHead(ctx: Ctx, n: Node, base: Types)
    ensures |MapOf(ctx, n, base)| > 0 && MapOf(ctx, n, base)[0] == base
    decreases n, 0
  {
    match n
    case NLit(_, _, _) =>
    case NPath(_, _, _, _) =>
    case NMember(b, _, _, _) => MapHead(ctx, b, base);
    case NUnary(_, a, _, _) => MapHead(ctx, a, base);
    case NBinary(_, a, _, _, _) => MapHead(ctx, a, base);
    case NTernary(c, _, _, _, _) => MapHead(ctx, c, base);
    case NCall(_, args, _, _) =>
      MapArgsHead(ctx, args, base);
      if args == [] {
        assert Effectives(args) == [] && base + Effectives(args) == base;
        assert MapOfArgs(ctx, args, base) == [];
        assert CoreMap(ctx, n, base) == [base + Effectives(args)];
      }
  }

  lemma {:induction false} MapArgsHead(ctx: Ctx, args: seq<Node>, base: Types)
    ensures args != [] ==> |MapOfArgs(ctx, args, base)| > 0 && MapOfArgs(ctx, args, base)[0] == base
    decreases args, 1
  {
    if args != [] {
      var before := args[..|args| - 1];
      MapArgsHead(ctx, before, base);
      MapHead(ctx, args[|args| - 1], base + Effectives(before));
      if before == [] {
        assert base + Effectives(before) == base;
      }
    }
  }

  /** One more accepted instruction in front. */
  lemma {:induction false} Prepend(fr: Frame, in_: Instr, ts: Types, rest: seq<Instr>, restMap: seq<Types>)
    requires Checked(fr.ctx, fr.constants, rest, restMap) && InstrOk(fr.ctx, fr.constants, in_, ts, restMap) && |ts| <= MAX_STACK
    ensures |restMap| == |rest| + 1 && Checked(fr.ctx, fr.constants, [in_] + rest, [ts] + restMap)
  {
    hide InstrOk;
    assert ([in_] + rest)[1..] == rest && ([ts] + restMap)[1..] == restMap;
  }

  lemma {:induction false} CheckedLength(fr: Frame, code: seq<Instr>, map_: seq<Types>)
    requires Checked(fr.ctx, fr.constants, code, map_)
    ensures |map_| == |code| + 1
  {
  }

  /** What is to be shown: the node's code, put before code accepted at base plus its type. */
  predicate Accepted(fr: Frame, n: Node, k: nat, base: Types, rest: seq<Instr>, restMap: seq<Types>) {
    Checked(fr.ctx, fr.constants, Code(fr.ctx, n, k) + rest, MapOf(fr.ctx, n, base) + restMap)
  }

  /** What it is shown from. */
  predicate Follows(fr: Frame, base: Types, t: Ty, rest: seq<Instr>, restMap: seq<Types>) {
    Checked(fr.ctx, fr.constants, rest, restMap) && |restMap| == |rest| + 1 && restMap[0] == base + [t]
  }

  lemma {:induction false} AcceptsLit(fr: Frame, n: Node, k: nat, base: Types, rest: seq<Instr>, restMap: seq<Types>)
    requires FrameOk(fr) && n.NLit? && Fits(fr, n, k, |base|) && (n.coerce ==> n.lit.IntV?)
    requires TypeOfValue(LitConstant(fr.ctx.fpu, n)) == Effective(n) && Follows(fr, base, Effective(n), rest, restMap)
    ensures Accepted(fr, n, k, base, rest, restMap)
  {
    Int16Fits(k);
    var in_ := Instr(PushConst, 0, k);
    assert Code(fr.ctx, n, k) == [in_];
    assert fr.constants[k + 0] == Constants(fr.ctx.fpu, n)[0];
    Prepend(fr, in_, base, rest, restMap);
    assert MapOf(fr.ctx, n, base) == [base];
  }

  /** Code ending in one unary opcode. */
  lemma {:induction false} UnaryFollows(fr: Frame, in_: Instr, base: Types, t: Ty, t': Ty, rest: seq<Instr>, restMap: seq<Types>)
    requires IsUnaryOp(in_.op) && UnaryTy(in_, t) == Some(t') && |base| < MAX_STACK && Follows(fr, base, t', rest, restMap)
    ensures Follows(fr, base, t, [in_] + rest, [base + [t]] + restMap)
  {
    assert (base + [t])[..|base|] == base;
    Prepend(fr, in_, base + [t], rest, restMap);
  }

  lemma {:induction false} CodeTyped(fr: Frame, e: Expr, k: nat, base: Types, rest: seq<Instr>, restMap: seq<Types>)
    requires FrameOk(fr) && Infer(fr.ctx, e).Success? && Fits(fr, Elab(fr.ctx, e), k, |base|)
    requires Follows(fr, base, Infer(fr.ctx, e).value, rest, restMap)
    ensures Accepted(fr, Elab(fr.ctx, e), k, base, rest, restMap)
    decreases e, 1
  {
    hide Checked;
    match e
    case Lit(v, _) => AcceptsLit(fr, Elab(fr.ctx, e), k, base, rest, restMap);
    case Path(_, _) => PathTyped(fr, e, k, base, rest, restMap);
    case Member(_, _, _) => MemberTyped(fr, e, k, base, rest, restMap);
    case Unary(_, _, _) => UnaryNodeTyped(fr, e, k, base, rest, restMap);
    case Binary(op, _, _, _) =>
      if Strict(op) {
        StrictTyped(fr, e, k, base, rest, restMap);
      } else {
        ShortCircuitTyped(fr, e, k, base, rest, restMap);
      }
    case Ternary(_, _, _, _) => TernaryTyped(fr, e, k, base, rest, restMap);
    case Call(_, _, _) => CallNodeTyped(fr, e, k, base, rest, restMap);
  }

  lemma {:induction false} PathTyped(fr: Frame, e: Expr, k: nat, base: Types, rest: seq<Instr>, restMap: seq<Types>)
    requires FrameOk(fr) && e.Path? && Infer(fr.ctx, e).Success? && |base| < MAX_STACK
    requires Follows(fr, base, Infer(fr.ctx, e).value, rest, restMap)
    ensures Accepted(fr, Elab(fr.ctx, e), k, base, rest, restMap)
  {
    PathShape(fr.ctx, e);
    hide Checked, Infer, Elab, Follows, Accepted;
    var n := Elab(fr.ctx, e);
    if n.lane < 0 {
      AcceptsVar(fr, n, k, base, rest, restMap);
    } else {
      AcceptsVarLane(fr, n, k, base, rest, restMap);
    }
  }

  lemma {:induction false} PathShape(ctx: Ctx, e: Expr)
    requires e.Path? && Infer(ctx, e).Success? && |ctx.vars| <= 0x8000
    ensures var n := Elab(ctx, e);
            && n.NPath? && !n.coerce && 0 <= n.slot < |ctx.vars| && n.lane < 4 && Infer(ctx, e).value == n.ty
            && (if n.lane < 0 then n.ty == ctx.vars[n.slot].ty else n.ty == TFloat && n.lane < LaneCount(ctx.vars[n.slot].ty))
  {
    Int16Fits(LongestPrefix(ctx.vars, e.segments).value.1);
  }

  lemma {:induction false} AcceptsVar(fr: Frame, n: Node, k: nat, base: Types, rest: seq<Instr>, restMap: seq<Types>)
    requires n.NPath? && !n.coerce && 0 <= n.slot < |fr.ctx.vars| <= 0x8000 && n.lane < 0 && n.ty == fr.ctx.vars[n.slot].ty
    requires |base| < MAX_STACK && Follows(fr, base, n.ty, rest, restMap)
    ensures Accepted(fr, n, k, base, rest, restMap)
  {
    hide Checked;
    Int16Fits(n.slot);
    var load := Instr(PushVar, 0, n.slot);
    Prepend(fr, load, base, rest, restMap);
    assert Code(fr.ctx, n, k) == [load];
    assert MapOf(fr.ctx, n, base) == [base];
  }

  lemma {:induction false} AcceptsVarLane(fr: Frame, n: Node, k: nat, base: Types, rest: seq<Instr>, restMap: seq<Types>)
    requires n.NPath? && !n.coerce && 0 <= n.slot < |fr.ctx.vars| <= 0x8000 && n.ty == TFloat
    requires 0 <= n.lane < LaneCount(fr.ctx.vars[n.slot].ty)
    requires |base| < MAX_STACK && Follows(fr, base, n.ty, rest, restMap)
    ensures Accepted(fr, n, k, base, rest, restMap)
  {
    hide Checked;
    Int16Fits(n.slot);
    Int16Fits(n.lane);
    var load, lane := Instr(PushVar, 0, n.slot), Instr(Lane, 0, n.lane);
    var t := fr.ctx.vars[n.slot].ty;
    UnaryFollows(fr, lane, base, t, TFloat, rest, restMap);
    Prepend(fr, load, base, [lane] + rest, [base + [t]] + restMap);
    assert Code(fr.ctx, n, k) == [load] + [lane];
    assert MapOf(fr.ctx, n, base) == [base] + [base + [t]];
    Regroup([load], [lane], rest);
    Regroup([base], [base + [t]], restMap);
  }

  /** A node whose code is its child's code and one unary opcode. */
  lemma {:induction false} AcceptsChild(fr: Frame, child: Node, in_: Instr, k: nat, base: Types, rest: seq<Instr>, restMap: seq<Types>)
    requires Accepted(fr, child, k, base, [in_] + rest, [base + [Effective(child)]] + restMap)
    ensures Checked(fr.ctx, fr.constants, Code(fr.ctx, child, k) + [in_] + rest, MapOf(fr.ctx, child, base) + [base + [Effective(child)]] + restMap)
  {
    hide Checked;
    var c, m := Code(fr.ctx, child, k), MapOf(fr.ctx, child, base);
    assert c + [in_] + rest == c + ([in_] + rest);
    assert m + [base + [Effective(child)]] + restMap == m + ([base + [Effective(child)]] + restMap);
  }

  lemma {:induction false} MemberTyped(fr: Frame, e: Expr, k: nat, base: Types, rest: seq<Instr>, restMap: seq<Types>)
    requires FrameOk(fr) && e.Member? && Infer(fr.ctx, e).Success? && Fits(fr, Elab(fr.ctx, e), k, |base|)
    requires Follows(fr, base, Infer(fr.ctx, e).value, rest, restMap)
    ensures Accepted(fr, Elab(fr.ctx, e), k, base, rest, restMap)
    decreases e, 0
  {
    hide Checked;
    var child := Elab(fr.ctx, e.base);
    ElabType(fr.ctx, e.base);
    var lane := LaneIndex(e.member).value;
    Int16Fits(lane);
    var in_ := Instr(Lane, 0, lane);
    assert Code(fr.ctx, Elab(fr.ctx, e), k) == Code(fr.ctx, child, k) + [in_];
    NeedPositive(fr.ctx, e.base);
    UnaryFollows(fr, in_, base, Effective(child), TFloat, rest, restMap);
    CodeTyped(fr, e.base, k, base, [in_] + rest, [base + [Effective(child)]] + restMap);
    AcceptsChild(fr, child, in_, k, base, rest, restMap);
    assert MapOf(fr.ctx, Elab(fr.ctx, e), base) == MapOf(fr.ctx, child, base) + [base + [Effective(child)]];
  }

  lemma {:induction false} UnaryNodeTyped(fr: Frame, e: Expr, k: nat, base: Types, rest: seq<Instr>, restMap: seq<Types>)
    requires FrameOk(fr) && e.Unary? && Infer(fr.ctx, e).Success? && Fits(fr, Elab(fr.ctx, e), k, |base|)
    requires Follows(fr, base, Infer(fr.ctx, e).value, rest, restMap)
    ensures Accepted(fr, Elab(fr.ctx, e), k, base, rest, restMap)
    decreases e, 0
  {
    hide Checked;
    UnaryShape(fr.ctx, e, k);
    ElabType(fr.ctx, e.a);
    var child, t, in_ := Elab(fr.ctx, e.a), Infer(fr.ctx, e.a).value, UnaryInstr(fr.ctx, e);
    NeedPositive(fr.ctx, e.a);
    UnaryFollows(fr, in_, base, t, Infer(fr.ctx, e).value, rest, restMap);
    CodeTyped(fr, e.a, k, base, [in_] + rest, [base + [t]] + restMap);
    AcceptsChild(fr, child, in_, k, base, rest, restMap);
    assert MapOf(fr.ctx, Elab(fr.ctx, e), base) == MapOf(fr.ctx, child, base) + [base + [t]];
  }

  /** Every expression needs at least the slot its value goes to. */
  lemma {:induction false} NeedPositive(ctx: Ctx, e: Expr)
    requires Infer(ctx, e).Success?
    ensures Need(Elab(ctx, e)) >= 1
    decreases e
  {
    match e
    case Lit(_, _) =>
    case Path(_, _) =>
    case Member(base, _, _) => NeedPositive(ctx, base);
    case Unary(_, a, _) => NeedPositive(ctx, a);
    case Binary(_, a, _, _) =>
      NeedPositive(ctx, a);
      NeedAs(ctx, a, RuleOf(ctx, e).left);
    case Ternary(c, _, _, _) => NeedPositive(ctx, c);
    case Call(segments, args, _) =>
      var f := ctx.table[FindBuiltin(ctx.table, Join(segments)).value];
      assert BuiltinOk(f);
      var n := |args| - 1;
      NeedPositive(ctx, args[n]);
      NeedAs(ctx, args[n], f.params[n]);
      var ns := ElabArgs(ctx, args, f.params);
      assert ns[n] == ElabAs(ctx, args[n], f.params[n]);
  }

  lemma {:induction false} NeedAs(ctx: Ctx, e: Expr, want: Ty)
    requires Infer(ctx, e).Success?
    ensures Need(ElabAs(ctx, e, want)) == Need(Elab(ctx, e))
  {
  }

  lemma {:induction false} CodeTypedAs(fr: Frame, e: Expr, want: Ty, k: nat, base: Types, rest: seq<Instr>, restMap: seq<Types>)
    requires FrameOk(fr) && Wanted(fr.ctx, e, want) && Fits(fr, ElabAs(fr.ctx, e, want), k, |base|)
    requires Follows(fr, base, want, rest, restMap)
    ensures Accepted(fr, ElabAs(fr.ctx, e, want), k, base, rest, restMap)
    decreases e, 2
  {
    hide Constants, Need, ConstantsAt, CoreMap, FrameOk;
    hide Checked;
    var n := Elab(fr.ctx, e);
    ElabType(fr.ctx, e);
    AsType(fr.ctx, e, want);
    if e.Lit? {
      AcceptsLit(fr, ElabAs(fr.ctx, e, want), k, base, rest, restMap);
    } else if Infer(fr.ctx, e).value == want {
      CodeTyped(fr, e, k, base, rest, restMap);
    } else {
      var widen := Instr(IntToFloat, 0, 0);
      CoercedNode(fr.ctx, n, k);
      NeedPositive(fr.ctx, e);
      UnaryFollows(fr, widen, base, TInt, TFloat, rest, restMap);
      CodeTyped(fr, e, k, base, [widen] + rest, [base + [TInt]] + restMap);
      AcceptsChild(fr, n, widen, k, base, rest, restMap);
      CoercedMap(fr.ctx, n, base);
    }
  }

  lemma {:induction false} CoercedMap(ctx: Ctx, n: Node, base: Types)
    requires !n.coerce && !n.NLit? && n.ty == TInt
    ensures MapOf(ctx, As(ctx.fpu, n, TFloat), base) == MapOf(ctx, n, base) + [base + [TInt]]
  {
  }

  lemma {:induction false} SelectedOpTyped(op: TokenKind, r: Rule)
    requires Strict(op) && BinaryRule(op, r.left, r.right, false, false) == Some(r)
    ensures var i := SelectOp(op, r.left, r.right);
            IsBinaryOp(i.op) && BinaryTy(i, r.left, r.right) == Some(r.result)
  {
    match op
    case KPlus => SumOpTyped(op, r);
    case KMinus => SumOpTyped(op, r);
    case KStar => ProductOpTyped(r);
    case KSlash => QuotientOpTyped(r);
    case KPercent =>
    case KEqEq => EqualityOpTyped(op, r.left);
    case KNe => EqualityOpTyped(op, r.left);
    case _ => OrderOpTyped(op, r);
  }

  lemma {:induction false} SumOpTyped(op: TokenKind, r: Rule)
    requires (op == KPlus || op == KMinus) && SumRule(r.left, r.right) == Some(r)
    ensures var i := SelectOp(op, r.left, r.right); IsBinaryOp(i.op) && BinaryTy(i, r.left, r.right) == Some(r.result)
  {
  }

  lemma {:induction false} ProductOpTyped(r: Rule)
    requires ProductRule(r.left, r.right) == Some(r)
    ensures var i := SelectOp(KStar, r.left, r.right); IsBinaryOp(i.op) && BinaryTy(i, r.left, r.right) == Some(r.result)
  {
  }

  lemma {:induction false} QuotientOpTyped(r: Rule)
    requires QuotientRule(r.left, r.right) == Some(r)
    ensures var i := SelectOp(KSlash, r.left, r.right); IsBinaryOp(i.op) && BinaryTy(i, r.left, r.right) == Some(r.result)
  {
  }

  lemma {:induction false} OrderOpTyped(op: TokenKind, r: Rule)
    requires (op == KLt || op == KLe || op == KGt || op == KGe) && OrderRule(r.left, r.right) == Some(r)
    ensures var i := SelectOp(op, r.left, r.right); IsBinaryOp(i.op) && BinaryTy(i, r.left, r.right) == Some(r.result)
  {
  }

  lemma {:induction false} EqualityOpTyped(op: TokenKind, t: Ty)
    requires op == KEqEq || op == KNe
    ensures var i := SelectOp(op, t, t); IsBinaryOp(i.op) && BinaryTy(i, t, t) == Some(TBool)
  {
    assert SelectOp(op, t, t) == EqualityOp(op == KEqEq, t);
    hide SelectOp;
    if t == TInt || t == TFloat {
    } else {
      PairEqualityTyped(op == KEqEq, t);
    }
  }

  lemma {:induction false} PairEqualityTyped(eq: bool, t: Ty)
    requires t != TInt && t != TFloat
    ensures var i := EqualityOp(eq, t); IsOtherPairOp(i.op) && !IsIntOp(i.op) && !IsFloatOp(i.op) && PairTy(i, t, t) == Some(TBool)
  {
  }

  lemma {:induction false} StrictTyped(fr: Frame, e: Expr, k: nat, base: Types, rest: seq<Instr>, restMap: seq<Types>)
    requires FrameOk(fr) && e.Binary? && Strict(e.op) && Infer(fr.ctx, e).Success? && Fits(fr, Elab(fr.ctx, e), k, |base|)
    requires Follows(fr, base, Infer(fr.ctx, e).value, rest, restMap)
    ensures Accepted(fr, Elab(fr.ctx, e), k, base, rest, restMap)
    decreases e, 0
  {
    hide Infer, Elab, As, Code, Core, MapOf, CoreMap, Constants, Need, NeedOf, SelectOp, BinaryRule, BinaryTy, ConstantsAt, FrameOk;
    hide Checked;
    BinaryShape(fr.ctx, e);
    var n, r := Elab(fr.ctx, e), RuleOf(fr.ctx, e);
    BinaryFits(fr, n, k, |base|);
    var ka := k + |Constants(fr.ctx.fpu, n.a)|;
    var in_ := SelectOp(e.op, r.left, r.right);
    var both := base + [r.left] + [r.right];
    NeedPositive(fr.ctx, e.b);
    NeedAs(fr.ctx, e.b, r.right);
    SelectedOpTyped(e.op, r);
    PairFollows(fr, in_, base, r, rest, restMap);
    CodeTypedAs(fr, e.b, r.right, ka, base + [r.left], [in_] + rest, [both] + restMap);
    MapHead(fr.ctx, n.b, base + [r.left]);
    CheckedLength(fr, Code(fr.ctx, n.b, ka) + ([in_] + rest), MapOf(fr.ctx, n.b, base + [r.left]) + ([both] + restMap));
    CodeTypedAs(fr, e.a, r.left, k, base, Code(fr.ctx, n.b, ka) + ([in_] + rest), MapOf(fr.ctx, n.b, base + [r.left]) + ([both] + restMap));
    AcceptsStrict(fr, n, in_, k, base, rest, restMap);
  }

  lemma {:induction false} PairFollows(fr: Frame, in_: Instr, base: Types, r: Rule, rest: seq<Instr>, restMap: seq<Types>)
    requires IsBinaryOp(in_.op) && BinaryTy(in_, r.left, r.right) == Some(r.result) && |base| + 1 < MAX_STACK
    requires Follows(fr, base, r.result, rest, restMap)
    ensures Follows(fr, base + [r.left], r.right, [in_] + rest, [base + [r.left] + [r.right]] + restMap)
  {
    hide BinaryTy, Checked;
    var both := base + [r.left] + [r.right];
    assert both[..|both| - 2] == base;
    Prepend(fr, in_, both, rest, restMap);
  }

  lemma {:induction false} AcceptsStrict(fr: Frame, n: Node, in_: Instr, k: nat, base: Types, rest: seq<Instr>, restMap: seq<Types>)
    requires n.NBinary? && !n.coerce && Strict(n.op) && in_ == SelectOp(n.op, Effective(n.a), Effective(n.b))
    requires var ka := k + |Constants(fr.ctx.fpu, n.a)|;
             var both := base + [Effective(n.a)] + [Effective(n.b)];
             Accepted(fr, n.a, k, base, Code(fr.ctx, n.b, ka) + ([in_] + rest), MapOf(fr.ctx, n.b, base + [Effective(n.a)]) + ([both] + restMap))
    ensures Accepted(fr, n, k, base, rest, restMap)
  {
    hide Checked, Code, MapOf, Constants, SelectOp;
    var ka := k + |Constants(fr.ctx.fpu, n.a)|;
    var ta, tb := Effective(n.a), Effective(n.b);
    StrictLayout(fr.ctx, n, k, base);
    Regroup(Code(fr.ctx, n.a, k), Code(fr.ctx, n.b, ka), [in_]);
    Regroup(Code(fr.ctx, n.a, k), Code(fr.ctx, n.b, ka) + [in_], rest);
    Regroup(Code(fr.ctx, n.b, ka), [in_], rest);
    Regroup(MapOf(fr.ctx, n.a, base), MapOf(fr.ctx, n.b, base + [ta]), [base + [ta] + [tb]]);
    Regroup(MapOf(fr.ctx, n.a, base), MapOf(fr.ctx, n.b, base + [ta]) + [base + [ta] + [tb]], restMap);
    Regroup(MapOf(fr.ctx, n.b, base + [ta]), [base + [ta] + [tb]], restMap);
  }

  lemma {:induction false} StrictLayout(ctx: Ctx, n: Node, k: nat, base: Types)
    requires n.NBinary? && !n.coerce && Strict(n.op)
    ensures var ta, tb := Effective(n.a), Effective(n.b);
            && Code(ctx, n, k) == Code(ctx, n.a, k) + Code(ctx, n.b, k + |Constants(ctx.fpu, n.a)|) + [SelectOp(n.op, ta, tb)]
            && MapOf(ctx, n, base) == MapOf(ctx, n.a, base) + MapOf(ctx, n.b, base + [ta]) + [base + [ta] + [tb]]
  {
  }

  lemma {:induction false} ShortCircuitTyped(fr: Frame, e: Expr, k: nat, base: Types, rest: seq<Instr>, restMap: seq<Types>)
    requires FrameOk(fr) && e.Binary? && !Strict(e.op) && Infer(fr.ctx, e).Success? && Fits(fr, Elab(fr.ctx, e), k, |base|)
    requires Follows(fr, base, Infer(fr.ctx, e).value, rest, restMap)
    ensures Accepted(fr, Elab(fr.ctx, e), k, base, rest, restMap)
    decreases e, 0
  {
    hide Infer, Elab, As, Code, Core, MapOf, CoreMap, Constants, Need, NeedOf, SelectOp, BinaryRule, BinaryTy, ConstantsAt, FrameOk;
    hide Checked;
    BinaryShape(fr.ctx, e);
    var n := Elab(fr.ctx, e);
    BinaryFits(fr, n, k, |base|);
    var ka := k + |Constants(fr.ctx.fpu, n.a)|;
    NeedPositive(fr.ctx, e.b);
    NeedAs(fr.ctx, e.b, TBool);
    CodeTypedAs(fr, e.b, TBool, ka, base, rest, restMap);
    MapHead(fr.ctx, n.b, base);
    SkipFollows(fr, n, k, base, rest, restMap);
    CodeTypedAs(fr, e.a, TBool, k, base, ShortCircuitTail(fr, n, k) + rest, [base + [TBool], base + [TBool]] + MapOf(fr.ctx, n.b, base) + restMap);
    AcceptsShortCircuit(fr, n, k, base, rest, restMap);
  }

  lemma {:induction false} MapLength(fr: Frame, n: Node, k: nat, base: Types, rest: seq<Instr>, restMap: seq<Types>)
    requires Accepted(fr, n, k, base, rest, restMap) && Checked(fr.ctx, fr.constants, rest, restMap)
    ensures |MapOf(fr.ctx, n, base)| == |Code(fr.ctx, n, k)| && |restMap| == |rest| + 1
  {
  }

  /** The jump and the pop of a short-circuit node: both ways arrive with one bool more. */
  lemma {:induction false} SkipFollows(fr: Frame, n: Node, k: nat, base: Types, rest: seq<Instr>, restMap: seq<Types>)
    requires n.NBinary? && |base| < MAX_STACK && Follows(fr, base, TBool, rest, restMap)
    requires Accepted(fr, n.b, k + |Constants(fr.ctx.fpu, n.a)|, base, rest, restMap)
    requires |MapOf(fr.ctx, n.b, base)| > 0 && MapOf(fr.ctx, n.b, base)[0] == base
    ensures Follows(fr, base, TBool, ShortCircuitTail(fr, n, k) + rest, [base + [TBool], base + [TBool]] + MapOf(fr.ctx, n.b, base) + restMap)
  {
    hide Checked;
    var ka := k + |Constants(fr.ctx.fpu, n.a)|;
    MapLength(fr, n.b, ka, base, rest, restMap);
    var cb, mb := Code(fr.ctx, n.b, ka), MapOf(fr.ctx, n.b, base);
    var one := base + [TBool];
    var pop := Instr(Pop, 0, 0);
    var jump := Instr(if n.op == KAnd then JumpIfFalseKeep else JumpIfTrueKeep, 0, |cb| + 1);
    assert one[..|base|] == base;
    Prepend(fr, pop, one, cb + rest, mb + restMap);
    assert ([one] + (mb + restMap))[|cb| + 1] == restMap[0];
    Prepend(fr, jump, one, [pop] + (cb + rest), [one] + (mb + restMap));
    assert ShortCircuitTail(fr, n, k) + rest == [jump] + ([pop] + (cb + rest));
    assert [one, one] + mb + restMap == [one] + ([one] + (mb + restMap));
  }

  lemma {:induction false} AcceptsShortCircuit(fr: Frame, n: Node, k: nat, base: Types, rest: seq<Instr>, restMap: seq<Types>)
    requires n.NBinary? && !n.coerce && !Strict(n.op) && |Code(fr.ctx, n.b, k + |Constants(fr.ctx.fpu, n.a)|)| + 1 < 0x8000
    requires Accepted(fr, n.a, k, base, ShortCircuitTail(fr, n, k) + rest, [base + [TBool], base + [TBool]] + MapOf(fr.ctx, n.b, base) + restMap)
    ensures Accepted(fr, n, k, base, rest, restMap)
  {
    hide Checked;
    var one := base + [TBool];
    var tail, ma, mb := ShortCircuitTail(fr, n, k), MapOf(fr.ctx, n.a, base), MapOf(fr.ctx, n.b, base);
    Int16Fits(|Code(fr.ctx, n.b, k + |Constants(fr.ctx.fpu, n.a)|)| + 1);
    assert Code(fr.ctx, n, k) == Code(fr.ctx, n.a, k) + tail;
    assert Code(fr.ctx, n, k) + rest == Code(fr.ctx, n.a, k) + (tail + rest);
    assert MapOf(fr.ctx, n, base) == ma + [one, one] + mb;
    assert ma + [one, one] + mb + restMap == ma + ([one, one] + mb + restMap);
  }

  /** The stack types of a conditional after its condition, and after its then-arm. */
  function ArmsMap(ctx: Ctx, n: Node, base: Types): seq<Types>
    requires n.NTernary?
  {
    [base + [TBool]] + MapOf(ctx, n.a, base) + ElseMap(ctx, n, base)
  }

  function ElseMap(ctx: Ctx, n: Node, base: Types): seq<Types>
    requires n.NTernary?
  {
    [base + [n.ty]] + MapOf(ctx, n.b, base)
  }

  lemma {:induction false} TernaryTyped(fr: Frame, e: Expr, k: nat, base: Types, rest: seq<Instr>, restMap: seq<Types>)
    requires FrameOk(fr) && e.Ternary? && Infer(fr.ctx, e).Success? && Fits(fr, Elab(fr.ctx, e), k, |base|)
    requires Follows(fr, base, Infer(fr.ctx, e).value, rest, restMap)
    ensures Accepted(fr, Elab(fr.ctx, e), k, base, rest, restMap)
    decreases e, 0
  {
    hide Checked, As, Effective;
    TernaryShape(fr.ctx, e);
    var n, t := Elab(fr.ctx, e), Infer(fr.ctx, e).value;
    TernaryFits(fr, n, k, |base|);
    NeedPositive(fr.ctx, e.c);
    var ka := k + |Constants(fr.ctx.fpu, n.c)|;
    var kb := ka + |Constants(fr.ctx.fpu, n.a)|;
    CodeTypedAs(fr, e.b, t, kb, base, rest, restMap);
    ElseFollows(fr, n, k, base, rest, restMap);
    CodeTypedAs(fr, e.a, t, ka, base, ElseTail(fr, n, k) + rest, ElseMap(fr.ctx, n, base) + restMap);
    ArmsFollow(fr, n, k, base, rest, restMap);
    CodeTyped(fr, e.c, k, base, ArmsTail(fr, n, k) + rest, ArmsMap(fr.ctx, n, base) + restMap);
    TernaryCode(fr, n, k, rest);
    TernaryMap(fr.ctx, n, base, restMap);
  }

  lemma {:induction false} TernaryMap(ctx: Ctx, n: Node, base: Types, restMap: seq<Types>)
    requires n.NTernary? && !n.coerce
    ensures MapOf(ctx, n, base) + restMap == MapOf(ctx, n.c, base) + (ArmsMap(ctx, n, base) + restMap)
  {
  }

  lemma {:induction false} ElseFollows(fr: Frame, n: Node, k: nat, base: Types, rest: seq<Instr>, restMap: seq<Types>)
    requires n.NTernary? && |base| < MAX_STACK && Follows(fr, base, n.ty, rest, restMap)
    requires Accepted(fr, n.b, k + |Constants(fr.ctx.fpu, n.c)| + |Constants(fr.ctx.fpu, n.a)|, base, rest, restMap)
    ensures Follows(fr, base, n.ty, ElseTail(fr, n, k) + rest, ElseMap(fr.ctx, n, base) + restMap)
  {
    hide Checked;
    var kb := k + |Constants(fr.ctx.fpu, n.c)| + |Constants(fr.ctx.fpu, n.a)|;
    MapLength(fr, n.b, kb, base, rest, restMap);
    var cb, mb := Code(fr.ctx, n.b, kb), MapOf(fr.ctx, n.b, base);
    assert (mb + restMap)[|cb|] == restMap[0];
    Prepend(fr, Instr(Jump, 0, |cb|), base + [n.ty], cb + rest, mb + restMap);
    assert ElseTail(fr, n, k) + rest == [Instr(Jump, 0, |cb|)] + (cb + rest);
    assert ElseMap(fr.ctx, n, base) + restMap == [base + [n.ty]] + (mb + restMap);
  }

  lemma {:induction false} ArmsFollow(fr: Frame, n: Node, k: nat, base: Types, rest: seq<Instr>, restMap: seq<Types>)
    requires n.NTernary? && |base| < MAX_STACK
    requires |restMap| == |rest| + 1
    requires Checked(fr.ctx, fr.constants, ElseTail(fr, n, k) + rest, ElseMap(fr.ctx, n, base) + restMap)
    requires Accepted(fr, n.a, k + |Constants(fr.ctx.fpu, n.c)|, base, ElseTail(fr, n, k) + rest, ElseMap(fr.ctx, n, base) + restMap)
    ensures Follows(fr, base, TBool, ArmsTail(fr, n, k) + rest, ArmsMap(fr.ctx, n, base) + restMap)
  {
    hide Checked;
    var ka := k + |Constants(fr.ctx.fpu, n.c)|;
    var se, me := ElseTail(fr, n, k) + rest, ElseMap(fr.ctx, n, base) + restMap;
    MapLength(fr, n.a, ka, base, se, me);
    MapHead(fr.ctx, n.a, base);
    MapHead(fr.ctx, n.b, base);
    var ca, ma := Code(fr.ctx, n.a, ka), MapOf(fr.ctx, n.a, base);
    var toElse := Instr(JumpIfFalsePop, 0, |ca| + 1);
    assert (base + [TBool])[..|base|] == base;
    assert me[1] == base;
    assert (ma + me)[|ca| + 1] == me[1];
    Prepend(fr, toElse, base + [TBool], ca + se, ma + me);
    assert ArmsTail(fr, n, k) + rest == [toElse] + (ca + se);
    assert ArmsMap(fr.ctx, n, base) + restMap == [base + [TBool]] + (ma + me);
  }

  lemma {:induction false} CallNodeTyped(fr: Frame, e: Expr, k: nat, base: Types, rest: seq<Instr>, restMap: seq<Types>)
    requires FrameOk(fr) && e.Call? && Infer(fr.ctx, e).Success? && Fits(fr, Elab(fr.ctx, e), k, |base|)
    requires Follows(fr, base, Infer(fr.ctx, e).value, rest, restMap)
    ensures Accepted(fr, Elab(fr.ctx, e), k, base, rest, restMap)
    decreases e, 0
  {
    CallShape(fr.ctx, e);
    hide Checked, InstrOk, Infer, Elab, Code, MapOf, Constants, Need;
    var index := CallIndex(fr.ctx, e);
    var f := fr.ctx.table[index];
    var n := Elab(fr.ctx, e);
    var last := CallOp(fr.ctx.table, index);
    CallCode(fr.ctx, n, k);
    ArgsRoom(fr.ctx, e.args, f.params);
    CallFollows(fr, index, base, rest, restMap);
    ArgsCodeTyped(fr, e.args, f.params, k, base, last + rest, [base + f.params] + restMap);
    CallMap(fr.ctx, n, base);
    Regroup(CodeOf(fr.ctx, n.args, k), last, rest);
    Regroup(MapOfArgs(fr.ctx, n.args, base), [base + f.params], restMap);
  }

  lemma {:induction false} CallMap(ctx: Ctx, n: Node, base: Types)
    requires n.NCall? && !n.coerce
    ensures MapOf(ctx, n, base) == MapOfArgs(ctx, n.args, base) + [base + Effectives(n.args)]
  {
  }

  lemma {:induction false} ArgsRoom(ctx: Ctx, args: seq<Expr>, params: seq<Ty>)
    requires |args| == |params| && InferArgs(ctx, args, params).Success?
    ensures NeedOf(ElabArgs(ctx, args, params)) >= |args|
    ensures Effectives(ElabArgs(ctx, args, params)) == params
  {
    if args != [] {
      ArgsShape(ctx, args, params);
      hide Need, Effective, ElabAs, Infer, InferArgs, ElabArgs, Accepts;
      var n := |args| - 1;
      var before, last := ElabArgs(ctx, args[..n], params[..n]), ElabAs(ctx, args[n], params[n]);
      ArgsRoom(ctx, args[..n], params[..n]);
      LastArg(ctx, args[n], params[n]);
      NeedAppend(before, last);
      assert params == params[..n] + [params[n]];
    }
  }

  lemma {:induction false} LastArg(ctx: Ctx, e: Expr, want: Ty)
    requires Wanted(ctx, e, want)
    ensures Need(ElabAs(ctx, e, want)) >= 1 && Effective(ElabAs(ctx, e, want)) == want
  {
    NeedPositive(ctx, e);
    NeedAs(ctx, e, want);
    AsType(ctx, e, want);
  }

  lemma {:induction false} NeedAppend(before: seq<Node>, last: Node)
    ensures NeedOf(before + [last]) == Max(NeedOf(before), |before| + Need(last))
    ensures Effectives(before + [last]) == Effectives(before) + [Effective(last)]
  {
    hide Need, Effective;
    var ns := before + [last];
    assert ns[..|ns| - 1] == before && ns[|ns| - 1] == last;
  }

  lemma {:induction false} CallFollows(fr: Frame, index: nat, base: Types, rest: seq<Instr>, restMap: seq<Types>)
    requires index < |fr.ctx.table|
    requires var f := fr.ctx.table[index]; |base| + |f.params| <= MAX_STACK && Follows(fr, base, f.result, rest, restMap)
    ensures ArgsFollow(fr, base, fr.ctx.table[index].params, CallOp(fr.ctx.table, index) + rest, [base + fr.ctx.table[index].params] + restMap)
  {
    hide Checked;
    var f := fr.ctx.table[index];
    assert BuiltinOk(f);
    var ts := base + f.params;
    var d := |base|;
    assert ts[..d] == base && ts[d..] == f.params;
    Int16Fits(index);
    var in_ := CallOp(fr.ctx.table, index)[0];
    Prepend(fr, in_, ts, rest, restMap);
  }

  lemma {:induction false} ArgsSpliced(fr: Frame, before: seq<Node>, last: Node, k: nat, base: Types, rest: seq<Instr>, restMap: seq<Types>)
    requires ArgsAccepted(fr, before, k, base, Code(fr.ctx, last, k + |ConstantsOf(fr.ctx.fpu, before)|) + rest,
                          MapOf(fr.ctx, last, base + Effectives(before)) + restMap)
    ensures ArgsAccepted(fr, before + [last], k, base, rest, restMap)
  {
    hide Code, MapOf, Checked;
    var ns := before + [last];
    assert ns[..|ns| - 1] == before && ns[|ns| - 1] == last;
    Regroup(CodeOf(fr.ctx, before, k), Code(fr.ctx, last, k + |ConstantsOf(fr.ctx.fpu, before)|), rest);
    Regroup(MapOfArgs(fr.ctx, before, base), MapOf(fr.ctx, last, base + Effectives(before)), restMap);
  }

  /** The last argument's code, in front of code accepted with all the arguments in place. */
  lemma {:induction false} LastArgTyped(fr: Frame, e: Expr, want: Ty, ts: Types, k: nat, base: Types, rest: seq<Instr>, restMap: seq<Types>)
    requires FrameOk(fr) && Wanted(fr.ctx, e, want) && Fits(fr, ElabAs(fr.ctx, e, want), k, |base| + |ts|)
    requires ArgsFollow(fr, base, ts + [want], rest, restMap)
    ensures var n := ElabAs(fr.ctx, e, want);
            ArgsFollow(fr, base, ts, Code(fr.ctx, n, k) + rest, MapOf(fr.ctx, n, base + ts) + restMap)
    decreases e, 3
  {
    hide Checked, Code, MapOf, Need, Constants, ConstantsAt, ElabAs, FrameOk;
    var n := ElabAs(fr.ctx, e, want);
    assert base + ts + [want] == base + (ts + [want]);
    CodeTypedAs(fr, e, want, k, base + ts, rest, restMap);
    MapHead(fr.ctx, n, base + ts);
    CheckedLength(fr, Code(fr.ctx, n, k) + rest, MapOf(fr.ctx, n, base + ts) + restMap);
  }

  /** The code of an argument list, in front of code accepted at all the parameters. */
  predicate ArgsAccepted(fr: Frame, ns: seq<Node>, k: nat, base: Types, rest: seq<Instr>, restMap: seq<Types>) {
    Checked(fr.ctx, fr.constants, CodeOf(fr.ctx, ns, k) + rest, MapOfArgs(fr.ctx, ns, base) + restMap)
  }

  predicate ArgsFollow(fr: Frame, base: Types, params: seq<Ty>, rest: seq<Instr>, restMap: seq<Types>) {
    Checked(fr.ctx, fr.constants, rest, restMap) && |restMap| == |rest| + 1 && restMap[0] == base + params
  }

  lemma {:induction false} ArgsCodeTyped(fr: Frame, args: seq<Expr>, params: seq<Ty>, k: nat, base: Types, rest: seq<Instr>, restMap: seq<Types>)
    requires FrameOk(fr) && |args| == |params| && InferArgs(fr.ctx, args, params).Success?
    requires FitsAll(fr, ElabArgs(fr.ctx, args, params), k, |base|)
    requires ArgsFollow(fr, base, params, rest, restMap)
    ensures ArgsAccepted(fr, ElabArgs(fr.ctx, args, params), k, base, rest, restMap)
    decreases args, 5
  {
    if args == [] {
      NoArgsAccepted(fr, ElabArgs(fr.ctx, args, params), k, base, params, rest, restMap);
    } else {
      MoreArgsTyped(fr, args, params, k, base, rest, restMap);
    }
  }

  lemma {:induction false} MoreArgsTyped(fr: Frame, args: seq<Expr>, params: seq<Ty>, k: nat, base: Types, rest: seq<Instr>, restMap: seq<Types>)
    requires FrameOk(fr) && |args| == |params| && args != [] && InferArgs(fr.ctx, args, params).Success?
    requires FitsAll(fr, ElabArgs(fr.ctx, args, params), k, |base|)
    requires ArgsFollow(fr, base, params, rest, restMap)
    ensures ArgsAccepted(fr, ElabArgs(fr.ctx, args, params), k, base, rest, restMap)
    decreases args, 4
  {
    hide *;
    ArgsReady(fr, args, params, k, base, rest, restMap);
    var n := |args| - 1;
    var before, last := ElabArgs(fr.ctx, args[..n], params[..n]), LastNode(fr.ctx, args, params);
    var kn := k + |ConstantsOf(fr.ctx.fpu, before)|;
    LastArgTyped(fr, args[n], params[n], params[..n], kn, base, rest, restMap);
    ArgsCodeTyped(fr, args[..n], params[..n], k, base, Code(fr.ctx, last, kn) + rest, MapOf(fr.ctx, last, base + params[..n]) + restMap);
    ArgsSpliced(fr, before, last, k, base, rest, restMap);
  }

  function LastNode(ctx: Ctx, args: seq<Expr>, params: seq<Ty>): Node
    requires |args| == |params| && args != [] && InferArgs(ctx, args, params).Success?
  {
    ElabArgs(ctx, args, params)[|args| - 1]
  }

  /** All an argument list's last step starts from. */
  lemma {:induction false} ArgsReady(fr: Frame, args: seq<Expr>, params: seq<Ty>, k: nat, base: Types, rest: seq<Instr>, restMap: seq<Types>)
    requires |args| == |params| && args != [] && InferArgs(fr.ctx, args, params).Success?
    requires FitsAll(fr, ElabArgs(fr.ctx, args, params), k, |base|) && ArgsFollow(fr, base, params, rest, restMap)
    ensures var n := |args| - 1;
            && InferArgs(fr.ctx, args[..n], params[..n]).Success? && Wanted(fr.ctx, args[n], params[n])
            && var before, last := ElabArgs(fr.ctx, args[..n], params[..n]), LastNode(fr.ctx, args, params);
            && Infer(fr.ctx, args[n]).Success? && last == ElabAs(fr.ctx, args[n], params[n])
            && ElabArgs(fr.ctx, args, params) == before + [last]
            && Effectives(before) == params[..n]
            && FitsAll(fr, before, k, |base|) && Fits(fr, last, k + |ConstantsOf(fr.ctx.fpu, before)|, |base| + |params[..n]|)
            && ArgsFollow(fr, base, params[..n] + [params[n]], rest, restMap)
  {
    hide InferArgs, ElabArgs, Effectives, FitsAll, Fits, Infer, ElabAs, Accepts, Checked;
    ArgsShape(fr.ctx, args, params);
    var n := |args| - 1;
    ArgsRoom(fr.ctx, args[..n], params[..n]);
    ArgsFits(fr, ElabArgs(fr.ctx, args[..n], params[..n]), ElabAs(fr.ctx, args[n], params[n]), k, |base|);
    assert params[..n] + [params[n]] == params;
  }

  lemma {:induction false} NoArgsAccepted(fr: Frame, ns: seq<Node>, k: nat, base: Types, params: seq<Ty>, rest: seq<Instr>, restMap: seq<Types>)
    requires ns == [] && ArgsFollow(fr, base, params, rest, restMap)
    ensures ArgsAccepted(fr, ns, k, base, rest, restMap)
  {
    hide Checked;
    assert CodeOf(fr.ctx, ns, k) + rest == rest && MapOfArgs(fr.ctx, ns, base) + restMap == restMap;
  }
}
