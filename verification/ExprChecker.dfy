/** The type checker: one pass over the tree that annotates every node, coerces children
    where a parent wants a float, and stops at the first error. */
module ExprChecker {
  import opened Basics
  import opened ExprValue
  import opened ExprLang
  import opened ExprMachine
  import opened ExprCompiler
  import opened ExprCorrect

  class Checker {
    const ctx: Ctx
    var diag: Option<Diag>

    constructor (ctx: Ctx)
      ensures this.ctx == ctx && diag == None
    {
      this.ctx := ctx;
      diag := None;
    }

    /** Only the first error is kept. */
    method Fail(code: DiagCode, at: nat)
      modifies this
      ensures diag == if old(diag).None? then Some(Diag(code, at)) else old(diag)
    {
      if diag.None? {
        diag := Some(Diag(code, at));
      }
    }

    /** The agreement with the type system: success annotates, failure reports its error. */
    ghost predicate Agrees<T>(ok: bool, verdict: Result<T>)
      reads this
    {
      if ok then verdict.Success? && diag == None else verdict.Failure? && diag == Some(verdict.error)
    }

    method Check(e: Expr) returns (ok: bool, n: Node)
      requires diag == None
      modifies this
      ensures Agrees(ok, Infer(ctx, e)) && (ok ==> n == Elab(ctx, e))
      decreases e, 1
    {
      match e
      case Lit(v, _) => return true, NLit(v, LitType(v), false);
      case Path(segments, at) => ok, n := CheckPath(e);
      case Member(base, member, at) =>
        ok, n := Check(base);
        if ok {
          ElabType(ctx, base);
          var lane;
          ok, lane := CheckLane(Effective(n), member, at);
          n := NMember(n, lane, TFloat, false);
        }
      case Unary(op, a, at) => ok, n := CheckUnary(e);
      case Binary(op, a, b, at) => ok, n := CheckBinary(e);
      case Ternary(c, a, b, at) => ok, n := CheckTernary(e);
      case Call(segments, args, at) => ok, n := CheckCall(e);
    }

    method CheckLane(t: Ty, member: string, at: nat) returns (ok: bool, lane: nat)
      requires diag == None
      modifies this
      ensures Agrees(ok, LaneOf(t, member, at)) && (ok ==> lane == LaneOf(t, member, at).value)
    {
      var index := LaneIndex(member);
      if index.None? || index.value >= LaneCount(t) {
        Fail(TypeError, at);
        return false, 0;
      }
      return true, index.value;
    }

    /** Tries the longest dotted prefix first; the first one declared decides. */
    method CheckPath(e: Expr) returns (ok: bool, n: Node)
      requires e.Path? && diag == None
      modifies this
      ensures Agrees(ok, Infer(ctx, e)) && (ok ==> n == Elab(ctx, e))
    {
      n := NPath(-1, -1, TBool, false);
      var size := |e.segments|;
      var count := size;
      assert e.segments[..size] == e.segments;
      while count > 0
        invariant 0 <= count <= size && diag == None
        invariant LongestPrefix(ctx.vars, e.segments) == LongestPrefix(ctx.vars, e.segments[..count])
      {
        var slot := FindVar(ctx.vars, Join(e.segments[..count]));
        if slot.Some? {
          var t := ctx.vars[slot.value].ty;
          if count == size {
            return true, NPath(Int16(slot.value), -1, t, false);
          }
          if size - count > 1 {
            Fail(TypeError, e.at);
            return false, n;
          }
          var lane;
          ok, lane := CheckLane(t, e.segments[count], e.at);
          return ok, NPath(Int16(slot.value), lane, TFloat, false);
        }
        assert e.segments[..count][..count - 1] == e.segments[..count - 1];
        count := count - 1;
      }
      Fail(UnknownVariable, e.at);
      return false, n;
    }

    method CheckUnary(e: Expr) returns (ok: bool, n: Node)
      requires e.Unary? && diag == None
      modifies this
      ensures Agrees(ok, Infer(ctx, e)) && (ok ==> n == Elab(ctx, e))
      decreases e, 0
    {
      ok, n := Check(e.a);
      if !ok {
        return;
      }
      ElabType(ctx, e.a);
      var operand := Effective(n);
      if e.op == KNot {
        if operand != TBool {
          Fail(TypeError, e.at);
          return false, n;
        }
        return true, NUnary(e.op, n, TBool, false);
      }
      if IsNumeric(operand) || IsVector(operand) {
        return true, NUnary(e.op, n, operand, false);
      }
      Fail(TypeError, e.at);
      return false, n;
    }

    // ---- the adjustments a parent makes to its checked children

    method CoerceToFloat(n: Node) returns (n': Node)
      requires IsNumeric(Effective(n))
      ensures n' == As(ctx.fpu, n, TFloat)
    {
      n' := if Effective(n) == TInt then n.(coerce := true) else n;
    }

    method UnifyNumeric(a: Node, b: Node) returns (t: Ty, a': Node, b': Node)
      requires IsNumeric(Effective(a)) && IsNumeric(Effective(b))
      ensures t == Unify(Effective(a), Effective(b))
      ensures a' == As(ctx.fpu, a, t) && b' == As(ctx.fpu, b, t)
    {
      if Effective(a) == TInt && Effective(b) == TInt {
        return TInt, a, b;
      }
      t := TFloat;
      a' := CoerceToFloat(a);
      b' := CoerceToFloat(b);
    }

    /** A string literal read as a name. */
    method FoldToName(n: Node) returns (ok: bool, n': Node)
      requires !n.coerce && (n.NLit? && n.ty == TString ==> n.lit.StringV?)
      ensures ok == (n.NLit? && n.ty == TString)
      ensures n' == if ok then As(ctx.fpu, n, TName) else n
    {
      ok, n' := n.NLit? && n.ty == TString, n;
      if ok {
        n' := NLit(NameV(ctx.fpu.intern(n.lit.s)), TName, false);
      }
    }

    lemma {:induction false} KeepsType(n: Node)
      requires !n.coerce
      ensures As(ctx.fpu, n, n.ty) == n
    {
    }

    method CheckBinary(e: Expr) returns (ok: bool, n: Node)
      requires e.Binary? && diag == None
      modifies this
      ensures Agrees(ok, Infer(ctx, e)) && (ok ==> n == Elab(ctx, e))
      decreases e, 0
    {
      var a, b;
      ok, a := Check(e.a);
      n := a;
      if !ok {
        return;
      }
      ok, b := Check(e.b);
      if !ok {
        return;
      }
      ElabType(ctx, e.a);
      ElabType(ctx, e.b);
      var t;
      ok, t, a, b := CheckOperands(e, a, b);
      n := NBinary(e.op, a, b, t, false);
    }

    /** The switch over the operator, once both operands have types. */
    method CheckOperands(e: Expr, a0: Node, b0: Node) returns (ok: bool, t: Ty, a: Node, b: Node)
      requires e.Binary? && diag == None && !a0.coerce && !b0.coerce
      requires a0.NLit? == e.a.Lit? && (e.a.Lit? ==> a0.lit == e.a.lit && a0.ty == LitType(e.a.lit))
      requires b0.NLit? == e.b.Lit? && (e.b.Lit? ==> b0.lit == e.b.lit && b0.ty == LitType(e.b.lit))
      modifies this
      ensures var rule := BinaryRule(e.op, a0.ty, b0.ty, IsText(e.a), IsText(e.b));
              && ok == rule.Some? && diag == (if ok then None else Some(Diag(TypeError, e.at)))
              && (ok ==> t == rule.value.result && a == As(ctx.fpu, a0, rule.value.left) && b == As(ctx.fpu, b0, rule.value.right))
    {
      a, b := a0, b0;
      var ta, tb := Effective(a), Effective(b);
      KeepsType(a);
      KeepsType(b);
      match e.op {
        case KAnd =>
          if ta == TBool && tb == TBool { return true, TBool, a, b; }
        case KOr =>
          if ta == TBool && tb == TBool { return true, TBool, a, b; }
        case KPlus =>
          ok, t, a, b := CheckSum(a, b);
          if ok { return; }
        case KMinus =>
          ok, t, a, b := CheckSum(a, b);
          if ok { return; }
        case KStar =>
          ok, t, a, b := CheckProduct(a, b);
          if ok { return; }
        case KSlash =>
          ok, t, a, b := CheckQuotient(a, b);
          if ok { return; }
        case KPercent =>
          if ta == TInt && tb == TInt { return true, TInt, a, b; }
        case KLt =>
          ok, a, b := CheckOrder(a, b);
          if ok { return true, TBool, a, b; }
        case KLe =>
          ok, a, b := CheckOrder(a, b);
          if ok { return true, TBool, a, b; }
        case KGt =>
          ok, a, b := CheckOrder(a, b);
          if ok { return true, TBool, a, b; }
        case KGe =>
          ok, a, b := CheckOrder(a, b);
          if ok { return true, TBool, a, b; }
        case KEqEq =>
          ok, a, b := CheckEquality(a, b);
          if ok { return true, TBool, a, b; }
        case KNe =>
          ok, a, b := CheckEquality(a, b);
          if ok { return true, TBool, a, b; }
        case _ =>
      }
      Fail(TypeError, e.at);
      return false, TBool, a, b;
    }

    method CheckSum(a: Node, b: Node) returns (ok: bool, t: Ty, a': Node, b': Node)
      requires !a.coerce && !b.coerce
      ensures var rule := SumRule(a.ty, b.ty);
              && ok == rule.Some?
              && (ok ==> t == rule.value.result && a' == As(ctx.fpu, a, rule.value.left) && b' == As(ctx.fpu, b, rule.value.right))
    {
      var ta, tb := Effective(a), Effective(b);
      KeepsType(a);
      KeepsType(b);
      if IsNumeric(ta) && IsNumeric(tb) {
        t, a', b' := UnifyNumeric(a, b);
        return true, t, a', b';
      }
      return IsVector(ta) && ta == tb, ta, a, b;
    }

    method CheckProduct(a: Node, b: Node) returns (ok: bool, t: Ty, a': Node, b': Node)
      requires !a.coerce && !b.coerce
      ensures var rule := ProductRule(a.ty, b.ty);
              && ok == rule.Some?
              && (ok ==> t == rule.value.result && a' == As(ctx.fpu, a, rule.value.left) && b' == As(ctx.fpu, b, rule.value.right))
    {
      var ta, tb := Effective(a), Effective(b);
      a', b' := a, b;
      KeepsType(a);
      KeepsType(b);
      if IsNumeric(ta) && IsNumeric(tb) {
        t, a', b' := UnifyNumeric(a, b);
        return true, t, a', b';
      }
      if IsVector(ta) && ta == tb {
        return true, ta, a, b;
      }
      if IsVector(ta) && IsNumeric(tb) {
        b' := CoerceToFloat(b);
        return true, ta, a, b';
      }
      if IsNumeric(ta) && IsVector(tb) {
        a' := CoerceToFloat(a);
        return true, tb, a', b;
      }
      return ta == TQuat && tb == TQuat, TQuat, a, b;
    }

    method CheckQuotient(a: Node, b: Node) returns (ok: bool, t: Ty, a': Node, b': Node)
      requires !a.coerce && !b.coerce
      ensures var rule := QuotientRule(a.ty, b.ty);
              && ok == rule.Some?
              && (ok ==> t == rule.value.result && a' == As(ctx.fpu, a, rule.value.left) && b' == As(ctx.fpu, b, rule.value.right))
    {
      var ta, tb := Effective(a), Effective(b);
      KeepsType(a);
      if IsNumeric(ta) && IsNumeric(tb) {
        t, a', b' := UnifyNumeric(a, b);
        return true, t, a', b';
      }
      if IsVector(ta) && IsNumeric(tb) {
        b' := CoerceToFloat(b);
        return true, ta, a, b';
      }
      return false, ta, a, b;
    }

    method CheckOrder(a: Node, b: Node) returns (ok: bool, a': Node, b': Node)
      requires !a.coerce && !b.coerce
      ensures var rule := OrderRule(a.ty, b.ty);
              && ok == rule.Some?
              && (ok ==> a' == As(ctx.fpu, a, rule.value.left) && b' == As(ctx.fpu, b, rule.value.right))
    {
      if !IsNumeric(Effective(a)) || !IsNumeric(Effective(b)) {
        return false, a, b;
      }
      var t;
      t, a', b' := UnifyNumeric(a, b);
      return true, a', b';
    }

    method CheckEquality(a: Node, b: Node) returns (ok: bool, a': Node, b': Node)
      requires !a.coerce && !b.coerce
      requires (a.NLit? && a.ty == TString ==> a.lit.StringV?) && (b.NLit? && b.ty == TString ==> b.lit.StringV?)
      ensures var rule := EqualityRule(a.ty, b.ty, a.NLit? && a.ty == TString, b.NLit? && b.ty == TString);
              && ok == rule.Some?
              && (ok ==> a' == As(ctx.fpu, a, rule.value.left) && b' == As(ctx.fpu, b, rule.value.right))
    {
      a', b' := a, b;
      KeepsType(a);
      KeepsType(b);
      var t;
      if IsNumeric(Effective(a)) && IsNumeric(Effective(b)) {
        t, a', b' := UnifyNumeric(a, b);
        return true, a', b';
      }
      if Effective(a) == TName && Effective(b) == TString {
        ok, b' := FoldToName(b);
        if ok {
          return;
        }
      }
      if Effective(b) == TName && Effective(a) == TString {
        ok, a' := FoldToName(a);
        if ok {
          return;
        }
      }
      return Effective(a) == Effective(b), a, b;
    }

    method CheckTernary(e: Expr) returns (ok: bool, n: Node)
      requires e.Ternary? && diag == None
      modifies this
      ensures Agrees(ok, Infer(ctx, e)) && (ok ==> n == Elab(ctx, e))
      decreases e, 0
    {
      var c, a, b;
      ok, c := Check(e.c);
      n := c;
      if !ok {
        return;
      }
      ok, a := Check(e.a);
      if !ok {
        return;
      }
      ok, b := Check(e.b);
      if !ok {
        return;
      }
      ElabType(ctx, e.c);
      ElabType(ctx, e.a);
      ElabType(ctx, e.b);
      if Effective(c) != TBool {
        Fail(TypeError, e.c.at);
        return false, n;
      }
      if IsNumeric(Effective(a)) && IsNumeric(Effective(b)) {
        var t;
        t, a, b := UnifyNumeric(a, b);
        return true, NTernary(c, a, b, t, false);
      }
      if Effective(a) == Effective(b) {
        KeepsType(a);
        KeepsType(b);
        return true, NTernary(c, a, b, Effective(a), false);
      }
      Fail(TypeError, e.at);
      return false, n;
    }

    method CheckCall(e: Expr) returns (ok: bool, n: Node)
      requires e.Call? && diag == None
      modifies this
      ensures Agrees(ok, Infer(ctx, e)) && (ok ==> n == Elab(ctx, e))
      decreases e, 0
    {
      n := NCall(-1, [], TBool, false);
      var callee := Join(e.segments);
      if |e.segments| > 1 {
        Fail(UnknownFunction, e.at);
        return false, n;
      }
      var index := FindBuiltin(ctx.table, callee);
      if index.None? {
        Fail(UnknownFunction, e.at);
        return false, n;
      }
      var f := ctx.table[index.value];
      if |e.args| != |f.params| {
        Fail(ArityError, e.at);
        return false, n;
      }
      var args: seq<Node> := [];
      var i := 0;
      while i < |e.args|
        invariant i <= |e.args| && diag == None
        invariant InferArgs(ctx, e.args[..i], f.params[..i]).Success?
        invariant args == ElabArgs(ctx, e.args[..i], f.params[..i])
      {
        ArgsPrefix(e.args, f.params, i);
        var arg;
        ok, arg := Check(e.args[i]);
        if ok {
          ok, arg := CheckArg(e.args[i], arg, f.params[i]);
        }
        if !ok {
          ArgsFailAt(ctx, e.args, f.params, i);
          return false, n;
        }
        args := args + [arg];
        i := i + 1;
      }
      assert e.args[..i] == e.args && f.params[..i] == f.params;
      return true, NCall(index.value, args, f.result, false);
    }

    /** An argument against its parameter. */
    method CheckArg(e: Expr, arg: Node, want: Ty) returns (ok: bool, arg': Node)
      requires diag == None && Infer(ctx, e).Success? && arg == Elab(ctx, e)
      modifies this
      ensures ok == Accepts(want, Infer(ctx, e).value, IsText(e)) && diag == (if ok then None else Some(Diag(TypeError, e.at)))
      ensures ok ==> arg' == As(ctx.fpu, arg, want)
    {
      ElabType(ctx, e);
      KeepsType(arg);
      if Effective(arg) == want {
        return true, arg;
      }
      if want == TFloat && Effective(arg) == TInt {
        arg' := CoerceToFloat(arg);
        return true, arg';
      }
      if want == TName && Effective(arg) == TString {
        ok, arg' := FoldToName(arg);
        if ok {
          return;
        }
      }
      Fail(TypeError, e.at);
      return false, arg;
    }
  }

  lemma {:induction false} ArgsPrefix<T>(args: seq<T>, params: seq<Ty>, i: nat)
    requires i < |args| == |params|
    ensures var xs, ps := args[..i + 1], params[..i + 1];
            && |xs| == |ps| == i + 1 && xs[..i] == args[..i] && ps[..i] == params[..i] && xs[i] == args[i] && ps[i] == params[i]
  {
  }

  function ArgVerdict(ctx: Ctx, e: Expr, want: Ty): Result<Ty> {
    var t :- Infer(ctx, e);
    if Accepts(want, t, IsText(e)) then Success(t) else Failure(Diag(TypeError, e.at))
  }

  /** The first bad argument's error is the whole list's. */
  lemma {:induction false} ArgsFailAt(ctx: Ctx, args: seq<Expr>, params: seq<Ty>, i: nat)
    requires i < |args| == |params| && InferArgs(ctx, args[..i], params[..i]).Success? && ArgVerdict(ctx, args[i], params[i]).Failure?
    ensures InferArgs(ctx, args, params) == Failure(ArgVerdict(ctx, args[i], params[i]).error)
    decreases |args|
  {
    hide Infer, Accepts;
    var n := |args| - 1;
    if i < n {
      assert args[..n][..i] == args[..i] && params[..n][..i] == params[..i];
      ArgsFailAt(ctx, args[..n], params[..n], i);
    }
  }
}
