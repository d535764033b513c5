/** The compile and evaluate pipeline, from a parsed tree on. */
module ExprDriver {
  import opened Basics
  import opened ExprValue
  import opened ExprLang
  import opened ExprMachine
  import opened ExprCompiler
  import opened ExprProgram
  import opened ExprStackTypes
  import opened ExprChecker
  import opened ExprCodegen
  import opened ExprEval
  import opened ExprGrammar
  import opened ExprReading
  import opened ExprAccepts
  import opened ExprComplete
  import opened ExprProductions
  import opened ExprPrefixes
  import opened ExprMeaning
  import opened ExprParser

  /** A tree compiles exactly when it is well typed and small enough; otherwise the first
      type error, or a size refusal at the root. */
  method Compile(ctx: Ctx, e: Expr) returns (r: Result<Program>)
    ensures r.Success? <==> Infer(ctx, e).Success? && WithinLimits(ProgramOf(ctx, e))
    ensures r.Success? ==> CompiledFrom(ctx, e, r.value)
    ensures r.Failure? ==> r.error == if Infer(ctx, e).Failure? then Infer(ctx, e).error else Diag(TooComplex, e.at)
  {
    var checker := new Checker(ctx);
    var ok, root := checker.Check(e);
    if !ok {
      return Failure(checker.diag.value);
    }
    ElabShaped(ctx, e);
    var codegen := new Codegen(ctx);
    r := codegen.Run(root, e.at);
  }

  /** End to end: compiling and running gives the tree's own value or first fault. */
  method CompileAndEval(ctx: Ctx, e: Expr, vars: seq<Value>) returns (r: Result<Outcome>)
    requires VarsTyped(ctx, vars) && |ctx.vars| <= 0x8000
    ensures r.Success? <==> Infer(ctx, e).Success? && WithinLimits(ProgramOf(ctx, e))
    ensures r.Success? ==> r.value == Sem(ctx, vars, e)
    ensures r.Failure? ==> r.error == if Infer(ctx, e).Failure? then Infer(ctx, e).error else Diag(TooComplex, e.at)
  {
    var compiled := Compile(ctx, e);
    if compiled.Failure? {
      return Failure(compiled.error);
    }
    var p := compiled.value;
    ghost var map_ := ProgramChecked(ctx, e, p, vars);
    ProgramFits(ctx, e, p, vars);
    ProgramCorrect(ctx, e, p, vars);
    hide Step, Checked, Infer, Elab, Sem, Code, Run;
    var out, _ := Eval(ctx, p, vars, map_);
    match out
    case EvalOk(v) => return Success(Good(v));
    case EvalFault(s) => return Success(Fault(s));
  }

  /** From tokens to a value: a program runs exactly when the tokens derive a well-typed tree that is
      not too deep or too large, and gives that tree's value or first fault. */
  method Interpret(ctx: Ctx, tokens: seq<Token>, vars: seq<Value>) returns (r: Result<Outcome>)
    requires Ended(tokens) && Valued(tokens) && VarsTyped(ctx, vars) && |ctx.vars| <= 0x8000
    ensures r.Success? ==> exists c :: Written(tokens, c) && Nesting(c, 0) <= 64
    ensures forall c, e | Written(tokens, c) && Nesting(c, 0) <= 64 && Stands(c, e) ::
              && (r.Success? <==> Infer(ctx, e).Success? && WithinLimits(ProgramOf(ctx, e)))
              && (Infer(ctx, e).Success? <==> exists t :: HasType(ctx, e, t))
              && (r.Success? ==> r.value == Sem(ctx, vars, e))
              && (r.Failure? ==> r.error == if Infer(ctx, e).Failure? then Infer(ctx, e).error else Diag(TooComplex, e.at))
    ensures forall c | Written(tokens, c) && Nesting(c, 0) > 64 :: r.Failure? && r.error.code == TooComplex
    ensures (forall c :: !Written(tokens, c)) ==>
              r.Failure? && (r.error.code == TooComplex || (r.error.code == ParseError && exists m: nat :: FirstWrong(tokens, m) && r.error.at == tokens[m].at))
  {
    hide *;
    var parser := new Parser(tokens);
    ReadyToRun(parser);
    var parsed := parser.Run();
    forall c | Written(tokens, c) && Nesting(c, 0) > 64 ensures parsed.Failure? && parsed.error.code == TooComplex {
      StandsIff(c, TreeOf(c));
    }
    if parsed.Failure? {
      return Failure(parsed.error);
    }
    TypedOrNot(ctx, parsed.value);
    r := CompileAndEval(ctx, parsed.value, vars);
  }

  lemma {:induction false} TypedOrNot(ctx: Ctx, e: Expr)
    ensures Infer(ctx, e).Success? <==> exists t :: HasType(ctx, e, t)
  {
    forall t ensures HasType(ctx, e, t) <==> Infer(ctx, e) == Success(t) {
      TypedIff(ctx, e, t);
    }
    hide HasType, Infer;
    if Infer(ctx, e).Success? {
      assert HasType(ctx, e, Infer(ctx, e).value);
    }
  }

  lemma {:induction false} ReadyToRun(p: Parser)
    requires p.Going()
    ensures p.diag == None
  {
  }
}
