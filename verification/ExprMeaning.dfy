/** What the types and the values of expressions are, written out for each construct: operator tables by
    literal types, exact integers, truncation by its defining equation, and which operand decides. */
module ExprMeaning {
  import opened Basics
  import opened ExprValue
  import opened ExprLang

  // ---- the types of operators --------------------------------------------------------------------------

  /** What an arithmetic operator makes of two numbers. */
  function Numbers(ta: Ty, tb: Ty): Option<Ty> {
    match (ta, tb)
    case (TInt, TInt) => Some(TInt)
    case (TInt, TFloat) => Some(TFloat)
    case (TFloat, TInt) => Some(TFloat)
    case (TFloat, TFloat) => Some(TFloat)
    case _ => None
  }

  function Sums(ta: Ty, tb: Ty): Option<Ty> {
    match (ta, tb)
    case (TVec2, TVec2) => Some(TVec2)
    case (TVec3, TVec3) => Some(TVec3)
    case (TVec4, TVec4) => Some(TVec4)
    case _ => Numbers(ta, tb)
  }

  function Quotients(ta: Ty, tb: Ty): Option<Ty> {
    match (ta, tb)
    case (TVec2, TInt) => Some(TVec2)
    case (TVec2, TFloat) => Some(TVec2)
    case (TVec3, TInt) => Some(TVec3)
    case (TVec3, TFloat) => Some(TVec3)
    case (TVec4, TInt) => Some(TVec4)
    case (TVec4, TFloat) => Some(TVec4)
    case _ => Numbers(ta, tb)
  }

  function Products(ta: Ty, tb: Ty): Option<Ty> {
    match (ta, tb)
    case (TQuat, TQuat) => Some(TQuat)
    case (TInt, TVec2) => Some(TVec2)
    case (TFloat, TVec2) => Some(TVec2)
    case (TInt, TVec3) => Some(TVec3)
    case (TFloat, TVec3) => Some(TVec3)
    case (TInt, TVec4) => Some(TVec4)
    case (TFloat, TVec4) => Some(TVec4)
    case _ => if Sums(ta, tb).Some? then Sums(ta, tb) else Quotients(ta, tb)
  }

  function Orders(ta: Ty, tb: Ty): Option<Ty> {
    match (ta, tb)
    case (TInt, TInt) => Some(TBool)
    case (TInt, TFloat) => Some(TBool)
    case (TFloat, TInt) => Some(TBool)
    case (TFloat, TFloat) => Some(TBool)
    case _ => None
  }

  /** Two values of one type, two numbers, or a name and a string literal on either side. */
  function Equalities(ta: Ty, tb: Ty, aIsText: bool, bIsText: bool): Option<Ty> {
    match (ta, tb)
    case (TBool, TBool) => Some(TBool)
    case (TString, TString) => Some(TBool)
    case (TName, TName) => Some(TBool)
    case (TName, TString) => if bIsText then Some(TBool) else None
    case (TString, TName) => if aIsText then Some(TBool) else None
    case (TVec2, TVec2) => Some(TBool)
    case (TVec3, TVec3) => Some(TBool)
    case (TVec4, TVec4) => Some(TBool)
    case (TQuat, TQuat) => Some(TBool)
    case _ => Orders(ta, tb)
  }

  /** The result type of a binary operator, where it is defined. */
  function ResultType(op: TokenKind, ta: Ty, tb: Ty, aIsText: bool, bIsText: bool): Option<Ty> {
    match op
    case KAnd => if ta == TBool && tb == TBool then Some(TBool) else None
    case KOr => if ta == TBool && tb == TBool then Some(TBool) else None
    case KPlus => Sums(ta, tb)
    case KMinus => Sums(ta, tb)
    case KStar => Products(ta, tb)
    case KSlash => Quotients(ta, tb)
    case KPercent => if ta == TInt && tb == TInt then Some(TInt) else None
    case KLt => Orders(ta, tb)
    case KLe => Orders(ta, tb)
    case KGt => Orders(ta, tb)
    case KGe => Orders(ta, tb)
    case KEqEq => Equalities(ta, tb, aIsText, bIsText)
    case KNe => Equalities(ta, tb, aIsText, bIsText)
    case _ => None
  }

  function ResultOf(rule: Option<Rule>): Option<Ty> { if rule.Some? then Some(rule.value.result) else None }

  /** An operator is defined for two types exactly where the table has them, with the result it has there. */
  lemma {:induction false} OperatorTypes(op: TokenKind, ta: Ty, tb: Ty, aIsText: bool, bIsText: bool)
    ensures ResultOf(BinaryRule(op, ta, tb, aIsText, bIsText)) == ResultType(op, ta, tb, aIsText, bIsText)
  {
    RuleResults(ta, tb, aIsText, bIsText);
    hide SumRule, ProductRule, QuotientRule, OrderRule, EqualityRule, Sums, Products, Quotients, Orders, Equalities;
  }

  lemma {:induction false} RuleResults(ta: Ty, tb: Ty, aIsText: bool, bIsText: bool)
    ensures ResultOf(SumRule(ta, tb)) == Sums(ta, tb) && ResultOf(ProductRule(ta, tb)) == Products(ta, tb)
    ensures ResultOf(QuotientRule(ta, tb)) == Quotients(ta, tb) && ResultOf(OrderRule(ta, tb)) == Orders(ta, tb)
    ensures ResultOf(EqualityRule(ta, tb, aIsText, bIsText)) == Equalities(ta, tb, aIsText, bIsText)
  {
  }

  /** The operands run at their own types, but an int beside anything else becomes a float, and a literal's
      text beside a name becomes a name. */
  lemma {:induction false} OperandTypes(op: TokenKind, ta: Ty, tb: Ty, aIsText: bool, bIsText: bool)
    ensures OperandsOf(BinaryRule(op, ta, tb, aIsText, bIsText), ta, tb)
  {
    RuleOperands(ta, tb, aIsText, bIsText);
    hide SumRule, ProductRule, QuotientRule, OrderRule, EqualityRule;
  }

  lemma {:induction false} RuleOperands(ta: Ty, tb: Ty, aIsText: bool, bIsText: bool)
    ensures OperandsOf(SumRule(ta, tb), ta, tb) && OperandsOf(ProductRule(ta, tb), ta, tb) && OperandsOf(QuotientRule(ta, tb), ta, tb)
    ensures OperandsOf(OrderRule(ta, tb), ta, tb) && OperandsOf(EqualityRule(ta, tb, aIsText, bIsText), ta, tb)
  {
  }

  predicate OperandsOf(rule: Option<Rule>, ta: Ty, tb: Ty) {
    rule.Some? ==>
      && rule.value.left == (if ta == TInt && tb != TInt then TFloat else if ta == TString && tb == TName then TName else ta)
      && rule.value.right == (if tb == TInt && ta != TInt then TFloat else if tb == TString && ta == TName then TName else tb)
  }

  // ---- names --------------------------------------------------------------------------------------------

  /** The segments with a dot between each two. */
  function Dots(segments: seq<string>): string {
    if segments == [] then "" else if |segments| == 1 then segments[0] else segments[0] + "." + Dots(segments[1..])
  }

  lemma {:induction false} JoinIsDots(segments: seq<string>)
    ensures Join(segments) == Dots(segments)
    decreases |segments|
  {
    var n := |segments|;
    if n == 2 {
      assert segments[..1] == [segments[0]] && segments[1..] == [segments[1]];
    } else if n > 2 {
      JoinIsDots(segments[..n - 1]);
      JoinIsDots(segments[1..]);
      JoinIsDots(segments[1..n - 1]);
      assert segments[..n - 1][1..] == segments[1..n - 1] == segments[1..][..n - 2];
      assert Dots(segments[..n - 1]) == segments[0] + "." + Join(segments[1..n - 1]);
      assert Dots(segments[1..]) == Join(segments[1..n - 1]) + "." + segments[n - 1];
    }
  }

  /** The first variable of that name. */
  predicate Declares(vars: seq<Var>, name: string, slot: nat) {
    slot < |vars| && vars[slot].name == name && forall i | 0 <= i < slot :: vars[i].name != name
  }

  predicate Undeclared(vars: seq<Var>, name: string) { forall i | 0 <= i < |vars| :: vars[i].name != name }

  lemma {:induction false} FindsFirst(vars: seq<Var>, name: string, from: nat)
    requires from <= |vars| && forall i | 0 <= i < from :: vars[i].name != name
    ensures FindVar(vars, name, from) == None <==> Undeclared(vars, name)
    ensures forall slot: nat :: FindVar(vars, name, from) == Some(slot) <==> Declares(vars, name, slot)
    decreases |vars| - from
  {
    if from < |vars| && vars[from].name != name {
      FindsFirst(vars, name, from + 1);
    }
  }

  /** The longest prefix of the path that is a declared name, and the variable of that name. */
  ghost predicate Resolves(vars: seq<Var>, segments: seq<string>, n: nat, slot: nat) {
    && 0 < n <= |segments| && Declares(vars, Dots(segments[..n]), slot)
    && forall m | n < m <= |segments| :: Undeclared(vars, Dots(segments[..m]))
  }

  lemma {:induction false} PrefixIsLongest(vars: seq<Var>, segments: seq<string>)
    ensures LongestPrefix(vars, segments) == None <==> forall m | 0 < m <= |segments| :: Undeclared(vars, Dots(segments[..m]))
    ensures forall n: nat, slot: nat :: LongestPrefix(vars, segments) == Some((n, slot)) <==> Resolves(vars, segments, n, slot)
    decreases |segments|
  {
    var n := |segments|;
    if n > 0 {
      var front := segments[..n - 1];
      PrefixIsLongest(vars, front);
      JoinIsDots(segments);
      FindsFirst(vars, Join(segments), 0);
      assert segments[..n] == segments;
      forall m | 0 <= m < n ensures front[..m] == segments[..m] {
      }
    }
  }

  /** The first function of that name. */
  predicate Provides(table: seq<Builtin>, name: string, index: nat) {
    index < |table| && table[index].name == name && forall i | 0 <= i < index :: table[i].name != name
  }

  lemma {:induction false} FindsFunction(table: seq<Builtin>, name: string, from: nat)
    requires from <= |table| && forall i | 0 <= i < from :: table[i].name != name
    ensures FindBuiltin(table, name, from) == None <==> forall i | 0 <= i < |table| :: table[i].name != name
    ensures forall index: nat :: FindBuiltin(table, name, from) == Some(index) <==> Provides(table, name, index)
    decreases |table| - from
  {
    if from < |table| && table[from].name != name {
      FindsFunction(table, name, from + 1);
    }
  }

  // ---- the types of trees -------------------------------------------------------------------------------

  const LETTERS: seq<string> := ["x", "y", "z", "w"]

  /** The component that a letter names, of the types that have it. */
  predicate HasLane(t: Ty, member: string, lane: nat) {
    && lane < 4 && member == LETTERS[lane]
    && (t == TVec4 || t == TQuat || (t == TVec3 && lane < 3) || (t == TVec2 && lane < 2))
  }

  lemma {:induction false} LaneIs(t: Ty, member: string, at: nat)
    ensures forall lane: nat :: LaneOf(t, member, at) == Success(lane) <==> HasLane(t, member, lane)
    ensures LaneOf(t, member, at).Failure? ==> LaneOf(t, member, at).error == Diag(TypeError, at)
    ensures LaneOf(t, member, at).Success? ==> LaneIndex(member) == Some(LaneOf(t, member, at).value)
  {
    assert LETTERS[0] == "x" && LETTERS[1] == "y" && LETTERS[2] == "z" && LETTERS[3] == "w";
    assert LETTERS[0][0] == 'x' && LETTERS[1][0] == 'y' && LETTERS[2][0] == 'z' && LETTERS[3][0] == 'w';
  }

  /** What a parameter takes. */
  predicate Takes(want: Ty, have: Ty, isText: bool) {
    match (want, have)
    case (TFloat, TInt) => true
    case (TName, TString) => isText
    case _ => want == have
  }

  /** The type of both branches of a conditional. */
  function Branches(ta: Ty, tb: Ty): Option<Ty> {
    if Numbers(ta, tb).Some? then Numbers(ta, tb) else if ta == tb then Some(ta) else None
  }

  /** The typing judgement, rule by rule. */
  ghost predicate HasType(ctx: Ctx, e: Expr, t: Ty)
    decreases e, 0
  {
    match e
    case Lit(v, _) => (v.IntV? && t == TInt) || (v.FloatV? && t == TFloat) || (v.StringV? && t == TString) || (v.BoolV? && t == TBool)
    case Path(segments, _) => PathType(ctx, segments, t)
    case Member(base, member, _) => t == TFloat && exists tb, lane :: HasType(ctx, base, tb) && HasLane(tb, member, lane)
    case Unary(op, a, _) =>
      HasType(ctx, a, t) && if op == KNot then t == TBool else t == TInt || t == TFloat || t == TVec2 || t == TVec3 || t == TVec4
    case Binary(op, a, b, _) =>
      exists ta, tb :: HasType(ctx, a, ta) && HasType(ctx, b, tb) && ResultType(op, ta, tb, IsText(a), IsText(b)) == Some(t)
    case Ternary(c, a, b, _) =>
      HasType(ctx, c, TBool) && exists ta, tb :: HasType(ctx, a, ta) && HasType(ctx, b, tb) && Branches(ta, tb) == Some(t)
    case Call(segments, args, _) =>
      |segments| <= 1 && exists index: nat :: Provides(ctx.table, Dots(segments), index) && t == ctx.table[index].result
                                       && HaveTypes(ctx, args, ctx.table[index].params)
  }

  ghost predicate PathType(ctx: Ctx, segments: seq<string>, t: Ty) {
    exists n: nat, slot: nat :: Resolves(ctx.vars, segments, n, slot)
                      && (if n == |segments| then t == ctx.vars[slot].ty
                          else t == TFloat && |segments| == n + 1 && exists lane :: HasLane(ctx.vars[slot].ty, segments[n], lane))
  }

  ghost predicate HaveTypes(ctx: Ctx, args: seq<Expr>, params: seq<Ty>)
    decreases args, 0
  {
    |args| == |params| && forall i | 0 <= i < |args| :: Fits(ctx, args[i], params[i])
  }

  ghost predicate Fits(ctx: Ctx, e: Expr, want: Ty)
    decreases e, 1
  {
    exists t :: HasType(ctx, e, t) && Takes(want, t, IsText(e))
  }

  lemma {:induction false} PathTyped(ctx: Ctx, segments: seq<string>, at: nat, t: Ty)
    ensures PathType(ctx, segments, t) <==> InferPath(ctx, segments, at) == Success(t)
  {
    PrefixIsLongest(ctx.vars, segments);
    match LongestPrefix(ctx.vars, segments)
    case None =>
      assert forall n: nat, slot: nat :: !Resolves(ctx.vars, segments, n, slot);
    case Some((count, slot)) =>
      if |segments| > count {
        LaneIs(ctx.vars[slot].ty, segments[count], at);
      }
      hide Resolves, HasLane, LaneOf, LongestPrefix;
      assert Resolves(ctx.vars, segments, count, slot);
      assert forall n: nat, s: nat :: Resolves(ctx.vars, segments, n, s) ==> n == count && s == slot;
  }

  /** A tree has a type exactly when the check succeeds with it. */
  lemma {:induction false} TypedIff(ctx: Ctx, e: Expr, t: Ty)
    ensures HasType(ctx, e, t) <==> Infer(ctx, e) == Success(t)
    decreases e, 1
  {
    match e
    case Lit(_, _) =>
    case Path(segments, at) => PathTyped(ctx, segments, at, t);
    case Member(base, member, at) =>
      forall tb ensures HasType(ctx, base, tb) <==> Infer(ctx, base) == Success(tb) {
        TypedIff(ctx, base, tb);
      }
      if Infer(ctx, base).Success? {
        LaneIs(Infer(ctx, base).value, member, at);
      }
    case Unary(_, a, _) => TypedIff(ctx, a, t);
    case Binary(op, a, b, _) => BinaryTyped(ctx, e, t);
    case Ternary(c, a, b, _) => TernaryTyped(ctx, e, t);
    case Call(segments, args, _) => CallTyped(ctx, e, t);
  }

  lemma {:induction false} BinaryTyped(ctx: Ctx, e: Expr, t: Ty)
    requires e.Binary?
    ensures HasType(ctx, e, t) <==> Infer(ctx, e) == Success(t)
    decreases e, 0
  {
    forall ta ensures HasType(ctx, e.a, ta) <==> Infer(ctx, e.a) == Success(ta) {
      TypedIff(ctx, e.a, ta);
    }
    forall tb ensures HasType(ctx, e.b, tb) <==> Infer(ctx, e.b) == Success(tb) {
      TypedIff(ctx, e.b, tb);
    }
    if Infer(ctx, e.a).Success? && Infer(ctx, e.b).Success? {
      OperatorTypes(e.op, Infer(ctx, e.a).value, Infer(ctx, e.b).value, IsText(e.a), IsText(e.b));
    }
    hide BinaryRule, ResultType;
  }

  lemma {:induction false} TernaryTyped(ctx: Ctx, e: Expr, t: Ty)
    requires e.Ternary?
    ensures HasType(ctx, e, t) <==> Infer(ctx, e) == Success(t)
    decreases e, 0
  {
    TypedIff(ctx, e.c, TBool);
    forall ta ensures HasType(ctx, e.a, ta) <==> Infer(ctx, e.a) == Success(ta) {
      TypedIff(ctx, e.a, ta);
    }
    forall tb ensures HasType(ctx, e.b, tb) <==> Infer(ctx, e.b) == Success(tb) {
      TypedIff(ctx, e.b, tb);
    }
    TernaryIs(ctx, e, t);
    hide Infer;
  }

  lemma {:induction false} TernaryIs(ctx: Ctx, e: Expr, t: Ty)
    requires e.Ternary?
    ensures Infer(ctx, e) == Success(t)
            <==> Infer(ctx, e.c) == Success(TBool) && Infer(ctx, e.a).Success? && Infer(ctx, e.b).Success?
                 && Branches(Infer(ctx, e.a).value, Infer(ctx, e.b).value) == Some(t)
  {
  }

  lemma {:induction false} ArgsTyped(ctx: Ctx, args: seq<Expr>, params: seq<Ty>)
    requires |args| == |params|
    ensures HaveTypes(ctx, args, params) <==> InferArgs(ctx, args, params).Success?
    decreases args, 1
  {
    if args != [] {
      var n := |args| - 1;
      ArgsTyped(ctx, args[..n], params[..n]);
      forall t ensures HasType(ctx, args[n], t) <==> Infer(ctx, args[n]) == Success(t) {
        TypedIff(ctx, args[n], t);
      }
      ArgsSplit(ctx, args, params);
      hide HaveTypes;
      assert forall t :: Takes(params[n], t, IsText(args[n])) <==> Accepts(params[n], t, IsText(args[n]));
    }
  }

  lemma {:induction false} ArgsSplit(ctx: Ctx, args: seq<Expr>, params: seq<Ty>)
    requires |args| == |params| > 0
    ensures var n := |args| - 1;
            HaveTypes(ctx, args, params) <==> HaveTypes(ctx, args[..n], params[..n]) && Fits(ctx, args[n], params[n])
  {
    hide Fits;
    var n := |args| - 1;
    forall i | 0 <= i < n ensures Fits(ctx, args[..n][i], params[..n][i]) == Fits(ctx, args[i], params[i]) {
    }
    assert HaveTypes(ctx, args[..n], params[..n]) <==> forall i | 0 <= i < n :: Fits(ctx, args[i], params[i]);
  }

  lemma {:induction false} CallTyped(ctx: Ctx, e: Expr, t: Ty)
    requires e.Call?
    ensures HasType(ctx, e, t) <==> Infer(ctx, e) == Success(t)
    decreases e, 0
  {
    CallIs(ctx, e, t);
    if |e.segments| <= 1 {
      FindsFunction(ctx.table, Dots(e.segments), 0);
      match FindBuiltin(ctx.table, Dots(e.segments))
      case None =>
      case Some(index) =>
        assert Provides(ctx.table, Dots(e.segments), index);
        assert forall i: nat :: Provides(ctx.table, Dots(e.segments), i) ==> i == index;
        if |e.args| == |ctx.table[index].params| {
          ArgsTyped(ctx, e.args, ctx.table[index].params);
        }
        hide Infer, Provides, HaveTypes, FindBuiltin;
    }
  }

  lemma {:induction false} CallIs(ctx: Ctx, e: Expr, t: Ty)
    requires e.Call?
    ensures Infer(ctx, e) == Success(t)
            <==> |e.segments| <= 1 && var f := FindBuiltin(ctx.table, Dots(e.segments), 0);
                 f.Some? && |e.args| == |ctx.table[f.value].params| && InferArgs(ctx, e.args, ctx.table[f.value].params).Success?
                 && t == ctx.table[f.value].result
  {
    if |e.segments| <= 1 {
      JoinIsDots(e.segments);
      var f := FindBuiltin(ctx.table, Dots(e.segments), 0);
      if f.Some? && |e.args| == |ctx.table[f.value].params| {
        assert Infer(ctx, e).Success? <==> InferArgs(ctx, e.args, ctx.table[f.value].params).Success?;
      } else {
        assert Infer(ctx, e).Failure?;
      }
    }
  }

  // ---- the first error of a check -------------------------------------------------------------------------

  /** Operands are checked before their operator, the left one first. */
  lemma {:induction false} OperatorErrors(ctx: Ctx, op: TokenKind, a: Expr, b: Expr, at: nat)
    ensures var r := Infer(ctx, Binary(op, a, b, at));
            && (Infer(ctx, a).Failure? ==> r == Failure(Infer(ctx, a).error))
            && (Infer(ctx, a).Success? && Infer(ctx, b).Failure? ==> r == Failure(Infer(ctx, b).error))
            && (Infer(ctx, a).Success? && Infer(ctx, b).Success? && r.Failure? ==> r.error == Diag(TypeError, at))
    ensures var r := Infer(ctx, Unary(op, a, at));
            && (Infer(ctx, a).Failure? ==> r == Failure(Infer(ctx, a).error))
            && (Infer(ctx, a).Success? && r.Failure? ==> r.error == Diag(TypeError, at))
  {
  }

  /** All three parts of a conditional are checked before its own rules; a condition that is no bool is
      reported where the condition stands. */
  lemma {:induction false} ConditionalErrors(ctx: Ctx, c: Expr, a: Expr, b: Expr, at: nat)
    ensures var r := Infer(ctx, Ternary(c, a, b, at));
            && (Infer(ctx, c).Failure? ==> r == Failure(Infer(ctx, c).error))
            && (Infer(ctx, c).Success? && Infer(ctx, a).Failure? ==> r == Failure(Infer(ctx, a).error))
            && (Infer(ctx, c).Success? && Infer(ctx, a).Success? && Infer(ctx, b).Failure? ==> r == Failure(Infer(ctx, b).error))
            && (Infer(ctx, c).Success? && Infer(ctx, a).Success? && Infer(ctx, b).Success? && r.Failure? ==>
                  r.error == Diag(TypeError, if Infer(ctx, c) == Success(TBool) then at else c.at))
  {
  }

  lemma {:induction false} NameErrors(ctx: Ctx, segments: seq<string>, base: Expr, member: string, at: nat)
    ensures var r := Infer(ctx, Path(segments, at));
            r.Failure? ==> r.error == Diag(if exists n: nat, slot: nat :: Resolves(ctx.vars, segments, n, slot) then TypeError else UnknownVariable, at)
    ensures var r := Infer(ctx, Member(base, member, at));
            && (Infer(ctx, base).Failure? ==> r == Failure(Infer(ctx, base).error))
            && (Infer(ctx, base).Success? && r.Failure? ==> r.error == Diag(TypeError, at))
  {
    PrefixIsLongest(ctx.vars, segments);
    var p := LongestPrefix(ctx.vars, segments);
    if p.Some? {
      assert Resolves(ctx.vars, segments, p.value.0, p.value.1);
      if |segments| > p.value.0 {
        LaneIs(ctx.vars[p.value.1].ty, segments[p.value.0], at);
      }
    } else {
      assert forall n: nat, slot: nat :: !Resolves(ctx.vars, segments, n, slot);
    }
    if Infer(ctx, base).Success? {
      LaneIs(Infer(ctx, base).value, member, at);
    }
    hide Resolves, LongestPrefix, HasLane, LaneOf;
  }

  /** A call's name and number of arguments come before the arguments. */
  lemma {:induction false} CallErrors(ctx: Ctx, segments: seq<string>, args: seq<Expr>, at: nat)
    ensures var r := Infer(ctx, Call(segments, args, at));
            && (|segments| > 1 || (forall i | 0 <= i < |ctx.table| :: ctx.table[i].name != Dots(segments)) ==> r == Failure(Diag(UnknownFunction, at)))
            && (forall index: nat :: |segments| <= 1 && Provides(ctx.table, Dots(segments), index) && |args| != |ctx.table[index].params| ==>
                  r == Failure(Diag(ArityError, at)))
  {
    JoinIsDots(segments);
    FindsFunction(ctx.table, Dots(segments), 0);
  }

  // ---- the values of operators -----------------------------------------------------------------------------

  /** The integer that equals the exact one up to a multiple of 2^64. */
  predicate Holds(r: Outcome, exact: int) { r.Good? && r.v.IntV? && (r.v.i as int - exact) % 18446744073709551616 == 0 }

  lemma {:induction false} IntResults(fpu: Fpu, x: Int64, y: Int64)
    ensures Holds(Apply(fpu, KPlus, IntV(x), IntV(y)), x as int + y as int)
    ensures Holds(Apply(fpu, KMinus, IntV(x), IntV(y)), x as int - y as int)
    ensures Holds(Apply(fpu, KStar, IntV(x), IntV(y)), x as int * y as int)
    ensures Holds(Good(Negate(fpu, IntV(x))), 0 - x as int)
    ensures y == 0 ==> Apply(fpu, KSlash, IntV(x), IntV(y)) == Apply(fpu, KPercent, IntV(x), IntV(y)) == Fault(DivZero)
  {
    hide Wrap, TruncDiv, TruncMod;
    WrapHolds(x as int + y as int);
    WrapHolds(x as int - y as int);
    WrapHolds(x as int * y as int);
    WrapHolds(0 - x as int);
  }

  lemma {:induction false} WrapHolds(exact: int)
    ensures Holds(Good(IntV(Wrap(exact))), exact)
  {
  }

  lemma {:induction false} IntOrders(fpu: Fpu, x: Int64, y: Int64)
    ensures Apply(fpu, KLt, IntV(x), IntV(y)) == Good(BoolV(x < y)) && Apply(fpu, KLe, IntV(x), IntV(y)) == Good(BoolV(x < y || x == y))
    ensures Apply(fpu, KGt, IntV(x), IntV(y)) == Good(BoolV(y < x)) && Apply(fpu, KGe, IntV(x), IntV(y)) == Good(BoolV(y < x || x == y))
    ensures Apply(fpu, KEqEq, IntV(x), IntV(y)) == Good(BoolV(x == y)) && Apply(fpu, KNe, IntV(x), IntV(y)) == Good(BoolV(x != y))
  {
  }

  /** Quotient and remainder are the pair that truncation toward zero is defined by: the remainder is smaller
      than the divisor and has the sign of the dividend. */
  lemma {:induction false} IntQuotients(fpu: Fpu, x: Int64, y: Int64) returns (q: int, r: int)
    requires y != 0
    ensures x as int == q * y as int + r && (if y > 0 then -(y as int) < r < y as int else y as int < r < -(y as int))
    ensures (r > 0 ==> x > 0) && (r < 0 ==> x < 0)
    ensures Holds(Apply(fpu, KSlash, IntV(x), IntV(y)), q)
    ensures Apply(fpu, KPercent, IntV(x), IntV(y)).Good? && Apply(fpu, KPercent, IntV(x), IntV(y)).v.IntV?
    ensures Apply(fpu, KPercent, IntV(x), IntV(y)).v.i as int == r
  {
    q, r := TruncDiv(x as int, y as int), TruncMod(x as int, y as int);
    RemainderSign(x as int, y as int);
    RemainderIsLeftover(x as int, y as int);
    hide TruncDiv, TruncMod, Abs;
    WrapInRange(r);
    WrapHolds(q);
    hide Wrap;
  }

  lemma {:induction false} RemainderSign(x: int, y: int)
    requires y != 0
    ensures (TruncMod(x, y) > 0 ==> x > 0) && (TruncMod(x, y) < 0 ==> x < 0)
    ensures y > 0 ==> Abs(y) == y
    ensures y < 0 ==> Abs(y) == -y
  {
    var m: int, n: int := Abs(x), Abs(y);
    assert m % n >= 0 && (m == 0 ==> m % n == 0);
  }

  /** There is only one such pair, so the two are what truncation means. */
  lemma {:induction false} OneQuotient(x: int, y: int, q: int, r: int, q': int, r': int)
    requires y != 0 && x == q * y + r && x == q' * y + r'
    requires -Abs(y) < r < Abs(y) && (r > 0 ==> x > 0) && (r < 0 ==> x < 0)
    requires -Abs(y) < r' < Abs(y) && (r' > 0 ==> x > 0) && (r' < 0 ==> x < 0)
    ensures q == q' && r == r'
  {
    assert (q - q') * y == r' - r;
    Multiple(q - q', y);
  }

  lemma {:induction false} Multiple(k: int, y: int)
    ensures k != 0 ==> Abs(k * y) >= Abs(y)
  {
    if k > 0 {
      assert y >= 0 ==> k * y >= y;
      assert y <= 0 ==> k * y <= y;
    } else if k < 0 {
      assert y >= 0 ==> k * y <= -y;
      assert y <= 0 ==> k * y >= -y;
    }
  }

  lemma {:induction false} FloatResults(fpu: Fpu, x: Float32, y: Float32)
    ensures Apply(fpu, KPlus, FloatV(x), FloatV(y)) == Good(FloatV(fpu.add(x, y)))
    ensures Apply(fpu, KMinus, FloatV(x), FloatV(y)) == Good(FloatV(fpu.sub(x, y)))
    ensures Apply(fpu, KStar, FloatV(x), FloatV(y)) == Good(FloatV(fpu.mul(x, y)))
    ensures Apply(fpu, KSlash, FloatV(x), FloatV(y)) == Good(FloatV(fpu.div(x, y)))
    ensures Negate(fpu, FloatV(x)) == FloatV(fpu.neg(x))
  {
  }

  lemma {:induction false} FloatOrders(fpu: Fpu, x: Float32, y: Float32)
    ensures Apply(fpu, KLt, FloatV(x), FloatV(y)) == Good(BoolV(fpu.lt(x, y))) && Apply(fpu, KLe, FloatV(x), FloatV(y)) == Good(BoolV(fpu.le(x, y)))
    ensures Apply(fpu, KGt, FloatV(x), FloatV(y)) == Good(BoolV(fpu.gt(x, y))) && Apply(fpu, KGe, FloatV(x), FloatV(y)) == Good(BoolV(fpu.ge(x, y)))
    ensures Apply(fpu, KEqEq, FloatV(x), FloatV(y)) == Good(BoolV(fpu.eq(x, y))) && Apply(fpu, KNe, FloatV(x), FloatV(y)) == Good(BoolV(!fpu.eq(x, y)))
  {
  }

  /** Booleans, texts and names are equal when they are the same. */
  lemma {:induction false} SameResults(fpu: Fpu, p: bool, q: bool, s: string, t: string, m: nat, n: nat)
    ensures Apply(fpu, KEqEq, BoolV(p), BoolV(q)) == Good(BoolV(p <==> q)) && Apply(fpu, KNe, BoolV(p), BoolV(q)) == Good(BoolV(p <==> !q))
    ensures Apply(fpu, KEqEq, StringV(s), StringV(t)) == Good(BoolV(s == t)) && Apply(fpu, KNe, StringV(s), StringV(t)) == Good(BoolV(s != t))
    ensures Apply(fpu, KEqEq, NameV(m), NameV(n)) == Good(BoolV(m == n)) && Apply(fpu, KNe, NameV(m), NameV(n)) == Good(BoolV(m != n))
  {
  }

  /** The lanes of a vector or quaternion value. */
  predicate Is(r: Outcome, k: Ty) { r.Good? && r.v.LanesV? && r.v.kind == k }

  /** Vectors are added, subtracted, multiplied and negated lane by lane, and scaled by a number on either side. */
  lemma {:induction false} LaneResults(fpu: Fpu, k: Ty, x: Lanes, y: Lanes, letter: string, i: nat)
    requires HasLane(k, letter, i)
    ensures var r := Apply(fpu, KPlus, LanesV(k, x), LanesV(k, y)); Is(r, k) && r.v.lanes[i] == fpu.add(x[i], y[i])
    ensures var r := Apply(fpu, KMinus, LanesV(k, x), LanesV(k, y)); Is(r, k) && r.v.lanes[i] == fpu.sub(x[i], y[i])
    ensures var r := Apply(fpu, KStar, LanesV(k, x), LanesV(k, y)); Is(r, k) && (k != TQuat ==> r.v.lanes[i] == fpu.mul(x[i], y[i]))
    ensures Apply(fpu, KStar, LanesV(TQuat, x), LanesV(TQuat, y)) == Good(LanesV(TQuat, fpu.quatMul(x, y)))
    ensures var r := Good(Negate(fpu, LanesV(k, x))); Is(r, k) && r.v.lanes[i] == fpu.neg(x[i])
  {
  }

  lemma {:induction false} ScaleResults(fpu: Fpu, k: Ty, x: Lanes, y: Lanes, f: Float32, letter: string, i: nat)
    requires HasLane(k, letter, i)
    ensures var r := Apply(fpu, KStar, LanesV(k, x), FloatV(f)); Is(r, k) && r.v.lanes[i] == fpu.mul(x[i], f)
    ensures var r := Apply(fpu, KStar, FloatV(f), LanesV(k, y)); Is(r, k) && r.v.lanes[i] == fpu.mul(f, y[i])
    ensures var r := Apply(fpu, KSlash, LanesV(k, x), FloatV(f)); Is(r, k) && r.v.lanes[i] == fpu.div(x[i], f)
  {
  }

  lemma {:induction false} LanesAreEqual(fpu: Fpu, k: Ty, x: Lanes, y: Lanes)
    requires exists letter, i: nat :: HasLane(k, letter, i)
    ensures var same := forall letter, i: nat | HasLane(k, letter, i) :: fpu.eq(x[i], y[i]);
            Apply(fpu, KEqEq, LanesV(k, x), LanesV(k, y)) == Good(BoolV(same)) && Apply(fpu, KNe, LanesV(k, x), LanesV(k, y)) == Good(BoolV(!same))
  {
    var same := forall letter, i: nat | HasLane(k, letter, i) :: fpu.eq(x[i], y[i]);
    if same {
      forall i: nat | i < LaneCount(k) ensures fpu.eq(x[i], y[i]) {
        assert HasLane(k, LETTERS[i], i);
      }
    }
  }

  /** int() of a float: refused without a number or outside 64 bits, else the whole number next to it on the
      side of zero. */
  lemma {:induction false} TruncatesTowardZero(fpu: Fpu, f: Float32)
    ensures fpu.number(f) == None ==> FloatToInt(fpu, f) == Fault(IntRange)
    ensures fpu.number(f).Some? ==>
              var x, r := fpu.number(f).value, FloatToInt(fpu, f);
              if x < -9223372036854775808.0 || 9223372036854775808.0 <= x then r == Fault(IntRange)
              else r.Good? && r.v.IntV? && var z := r.v.i as int as real;
                   if x >= 0.0 then z <= x < z + 1.0 else z - 1.0 < x <= z
  {
  }

  // ---- the values of trees -----------------------------------------------------------------------------------

  /** A variable, or a component of one. */
  lemma {:induction false} PathValue(ctx: Ctx, vars: seq<Value>, segments: seq<string>, at: nat, n: nat, slot: nat)
    requires Infer(ctx, Path(segments, at)).Success? && |vars| == |ctx.vars| && Resolves(ctx.vars, segments, n, slot)
    ensures n == |segments| ==> Sem(ctx, vars, Path(segments, at)) == Good(vars[slot])
    ensures n < |segments| && vars[slot].LanesV? ==>
              forall lane: nat | HasLane(ctx.vars[slot].ty, segments[n], lane) :: Sem(ctx, vars, Path(segments, at)) == Good(FloatV(vars[slot].lanes[lane]))
  {
    PrefixIsLongest(ctx.vars, segments);
    if n < |segments| {
      LaneIs(ctx.vars[slot].ty, segments[n], at);
    }
    hide Resolves, LongestPrefix, HasLane, LaneOf, LaneIndex;
  }

  lemma {:induction false} MemberValue(ctx: Ctx, vars: seq<Value>, base: Expr, member: string, at: nat)
    requires Infer(ctx, Member(base, member, at)).Success? && |vars| == |ctx.vars|
    ensures Sem(ctx, vars, base).Fault? ==> Sem(ctx, vars, Member(base, member, at)) == Sem(ctx, vars, base)
    ensures forall k, x, lane: nat | Sem(ctx, vars, base) == Good(LanesV(k, x)) && HasLane(Infer(ctx, base).value, member, lane) ::
              Sem(ctx, vars, Member(base, member, at)) == Good(FloatV(x[lane]))
  {
    LaneIs(Infer(ctx, base).value, member, at);
    hide HasLane, LaneOf, LaneIndex;
  }

  lemma {:induction false} UnaryValue(ctx: Ctx, vars: seq<Value>, a: Expr, at: nat)
    requires |vars| == |ctx.vars|
    ensures Infer(ctx, Unary(KNot, a, at)).Success? ==>
              var r := Sem(ctx, vars, Unary(KNot, a, at));
              && (Sem(ctx, vars, a).Fault? ==> r == Sem(ctx, vars, a))
              && (Sem(ctx, vars, a) == Good(BoolV(true)) ==> r == Good(BoolV(false)))
              && (Sem(ctx, vars, a) == Good(BoolV(false)) ==> r == Good(BoolV(true)))
    ensures Infer(ctx, Unary(KMinus, a, at)).Success? ==>
              var r := Sem(ctx, vars, Unary(KMinus, a, at));
              if Sem(ctx, vars, a).Fault? then r == Sem(ctx, vars, a) else r == Good(Negate(ctx.fpu, Sem(ctx, vars, a).v))
  {
  }

  /** A decided left operand is the answer, whatever the right one would do; otherwise the right one is. */
  lemma {:induction false} AndValue(ctx: Ctx, vars: seq<Value>, a: Expr, b: Expr, at: nat)
    requires Infer(ctx, Binary(KAnd, a, b, at)).Success? && |vars| == |ctx.vars|
    ensures var r := Sem(ctx, vars, Binary(KAnd, a, b, at));
            && (Sem(ctx, vars, a).Fault? ==> r == Sem(ctx, vars, a))
            && (Sem(ctx, vars, a) == Good(BoolV(false)) ==> r == Good(BoolV(false)))
            && (Sem(ctx, vars, a) == Good(BoolV(true)) ==> r == Sem(ctx, vars, b))
  {
    BinaryIs(ctx, Binary(KAnd, a, b, at));
    hide Infer, Apply;
  }

  lemma {:induction false} OrValue(ctx: Ctx, vars: seq<Value>, a: Expr, b: Expr, at: nat)
    requires Infer(ctx, Binary(KOr, a, b, at)).Success? && |vars| == |ctx.vars|
    ensures var r := Sem(ctx, vars, Binary(KOr, a, b, at));
            && (Sem(ctx, vars, a).Fault? ==> r == Sem(ctx, vars, a))
            && (Sem(ctx, vars, a) == Good(BoolV(true)) ==> r == Good(BoolV(true)))
            && (Sem(ctx, vars, a) == Good(BoolV(false)) ==> r == Sem(ctx, vars, b))
  {
    BinaryIs(ctx, Binary(KOr, a, b, at));
    hide Infer, Apply;
  }

  /** A value of type `mine` where a sibling has type `other`. */
  function Beside(fpu: Fpu, v: Value, mine: Ty, other: Ty): Value {
    match (mine, v)
    case (TInt, IntV(i)) => if other == TInt then v else FloatV(fpu.fromInt(i))
    case (TString, StringV(s)) => if other == TName then NameV(fpu.intern(s)) else v
    case _ => v
  }

  /** The other operators take the values of both operands, the left one first. */
  lemma {:induction false} OperatorValue(ctx: Ctx, vars: seq<Value>, op: TokenKind, a: Expr, b: Expr, at: nat)
    requires Infer(ctx, Binary(op, a, b, at)).Success? && |vars| == |ctx.vars| && op != KAnd && op != KOr
    ensures var r := Sem(ctx, vars, Binary(op, a, b, at));
            var ra, rb, ta, tb := Sem(ctx, vars, a), Sem(ctx, vars, b), Infer(ctx, a).value, Infer(ctx, b).value;
            && (ra.Fault? ==> r == ra)
            && (ra.Good? && rb.Fault? ==> r == rb)
            && (ra.Good? && rb.Good? && TypedAs(ra.v, ta) && TypedAs(rb.v, tb) ==>
                  r == Apply(ctx.fpu, op, Beside(ctx.fpu, ra.v, ta, tb), Beside(ctx.fpu, rb.v, tb, ta)))
  {
    BinaryIs(ctx, Binary(op, a, b, at));
    var ta, tb := Infer(ctx, a).value, Infer(ctx, b).value;
    OperandTypes(op, ta, tb, IsText(a), IsText(b));
    var ra, rb, rule := Sem(ctx, vars, a), Sem(ctx, vars, b), BinaryRule(op, ta, tb, IsText(a), IsText(b)).value;
    if ra.Good? && TypedAs(ra.v, ta) {
      BesideIs(ctx.fpu, ra.v, ta, tb, rule.left);
    }
    if rb.Good? && TypedAs(rb.v, tb) {
      BesideIs(ctx.fpu, rb.v, tb, ta, rule.right);
    }
    hide Infer, BinaryRule, Apply, TypedAs, Beside, Convert;
  }

  lemma {:induction false} BinaryIs(ctx: Ctx, e: Expr)
    requires e.Binary? && Infer(ctx, e).Success?
    ensures Infer(ctx, e.a).Success? && Infer(ctx, e.b).Success?
    ensures BinaryRule(e.op, Infer(ctx, e.a).value, Infer(ctx, e.b).value, IsText(e.a), IsText(e.b)).Some?
  {
  }

  lemma {:induction false} BesideIs(fpu: Fpu, v: Value, mine: Ty, other: Ty, want: Ty)
    requires TypedAs(v, mine)
    requires want == (if mine == TInt && other != TInt then TFloat else if mine == TString && other == TName then TName else mine)
    ensures Convert(fpu, v, want) == Beside(fpu, v, mine, other)
  {
  }

  /** A conditional gives the branch its condition picks; the other branch is not run.  An int branch
      beside a float branch gives a float. */
  lemma {:induction false} ConditionalValue(ctx: Ctx, vars: seq<Value>, c: Expr, a: Expr, b: Expr, at: nat)
    requires Infer(ctx, Ternary(c, a, b, at)).Success? && |vars| == |ctx.vars|
    ensures var r := Sem(ctx, vars, Ternary(c, a, b, at));
            var ra, rb, ta, tb := Sem(ctx, vars, a), Sem(ctx, vars, b), Infer(ctx, a).value, Infer(ctx, b).value;
            && (Sem(ctx, vars, c).Fault? ==> r == Sem(ctx, vars, c))
            && (Sem(ctx, vars, c) == Good(BoolV(true)) ==>
                  if ra.Fault? then r == ra else TypedAs(ra.v, ta) ==> r == Good(Beside(ctx.fpu, ra.v, ta, tb)))
            && (Sem(ctx, vars, c) == Good(BoolV(false)) ==>
                  if rb.Fault? then r == rb else TypedAs(rb.v, tb) ==> r == Good(Beside(ctx.fpu, rb.v, tb, ta)))
  {
    TernaryIs(ctx, Ternary(c, a, b, at), Infer(ctx, Ternary(c, a, b, at)).value);
    hide Infer;
  }

  /** A value where a parameter wants one: an int becomes a float, a literal's text a name. */
  predicate Handed(fpu: Fpu, v: Value, want: Ty, got: Value) {
    match (want, v)
    case (TFloat, IntV(i)) => got == FloatV(fpu.fromInt(i))
    case (TName, StringV(s)) => got == NameV(fpu.intern(s))
    case _ => got == v
  }

  /** Arguments are evaluated from the left; the first fault is the call's, and later arguments are not run. */
  lemma {:induction false} ArgumentFault(ctx: Ctx, vars: seq<Value>, args: seq<Expr>, params: seq<Ty>, k: nat)
    requires |args| == |params| && InferArgs(ctx, args, params).Success? && |vars| == |ctx.vars| && k < |args|
    requires forall i | 0 <= i < |args| :: Infer(ctx, args[i]).Success?
    requires forall i | 0 <= i < k :: Sem(ctx, vars, args[i]).Good?
    requires Sem(ctx, vars, args[k]).Fault?
    ensures SemArgs(ctx, vars, args, params) == ArgFault(Sem(ctx, vars, args[k]).status)
    decreases |args|
  {
    var n := |args| - 1;
    LastArgument(ctx, vars, args, params);
    hide Infer, InferArgs, Sem, SemArgs, Handed;
    var front, before := args[..n], params[..n];
    assert forall i | 0 <= i < n :: front[i] == args[i];
    if k < n {
      ArgumentFault(ctx, vars, front, before, k);
    } else {
      ArgumentValues(ctx, vars, front, before);
    }
  }

  lemma {:induction false} ArgumentValues(ctx: Ctx, vars: seq<Value>, args: seq<Expr>, params: seq<Ty>)
    requires |args| == |params| && InferArgs(ctx, args, params).Success? && |vars| == |ctx.vars|
    requires forall i | 0 <= i < |args| :: Infer(ctx, args[i]).Success?
    requires forall i | 0 <= i < |args| :: Sem(ctx, vars, args[i]).Good?
    ensures var r := SemArgs(ctx, vars, args, params);
            r.Values? && |r.vs| == |args| && forall i | 0 <= i < |args| :: Handed(ctx.fpu, Sem(ctx, vars, args[i]).v, params[i], r.vs[i])
    decreases |args|
  {
    if args != [] {
      var n := |args| - 1;
      LastArgument(ctx, vars, args, params);
      hide Infer, InferArgs, Sem, SemArgs, Handed;
      var front, before := args[..n], params[..n];
      assert forall i | 0 <= i < n :: front[i] == args[i] && before[i] == params[i];
      ArgumentValues(ctx, vars, front, before);
    } else {
      hide Sem, Infer, Handed;
    }
  }

  lemma {:induction false} LastArgument(ctx: Ctx, vars: seq<Value>, args: seq<Expr>, params: seq<Ty>)
    requires |args| == |params| > 0 && InferArgs(ctx, args, params).Success? && |vars| == |ctx.vars|
    requires Infer(ctx, args[|args| - 1]).Success?
    ensures var n := |args| - 1;
            && InferArgs(ctx, args[..n], params[..n]).Success?
            && var rs, rn, r := SemArgs(ctx, vars, args[..n], params[..n]), Sem(ctx, vars, args[n]), SemArgs(ctx, vars, args, params);
               && (rs.ArgFault? ==> r == rs)
               && (rs.Values? && rn.Fault? ==> r == ArgFault(rn.status))
               && (rs.Values? && rn.Good? ==> exists v :: r == Values(rs.vs + [v]) && Handed(ctx.fpu, rn.v, params[n], v))
  {
  }

  /** A call gives what the function of its name makes of the values; int() and float() convert. */
  lemma {:induction false} CallValue(ctx: Ctx, vars: seq<Value>, segments: seq<string>, args: seq<Expr>, at: nat, index: nat)
    requires Infer(ctx, Call(segments, args, at)).Success? && |vars| == |ctx.vars| && Provides(ctx.table, Dots(segments), index)
    ensures |args| == |ctx.table[index].params| && InferArgs(ctx, args, ctx.table[index].params).Success?
    ensures var r, rs, f := Sem(ctx, vars, Call(segments, args, at)), SemArgs(ctx, vars, args, ctx.table[index].params), ctx.table[index];
            && (rs.ArgFault? ==> r == Fault(rs.status))
            && (rs.Values? && !f.intrinsic && f.result == TFloat ==> r == Good(FloatV(ctx.fpu.native(index, rs.vs)[0])))
            && (rs.Values? && !f.intrinsic && f.result != TFloat ==> r == Good(LanesV(f.result, ctx.fpu.native(index, rs.vs))))
            && (rs.Values? && f.intrinsic && f.result == TInt && rs.vs[0].FloatV? ==> r == FloatToInt(ctx.fpu, rs.vs[0].f))
            && (rs.Values? && f.intrinsic && f.result == TFloat && rs.vs[0].IntV? ==> r == Good(FloatV(ctx.fpu.fromInt(rs.vs[0].i))))
  {
    var e := Call(segments, args, at);
    CallIs(ctx, e, Infer(ctx, e).value);
    JoinIsDots(segments);
    FindsFunction(ctx.table, Dots(segments), 0);
    assert BuiltinOk(ctx.table[index]);
    hide Infer, InferArgs, SemArgs, FloatToInt;
  }
}
