/** The written grammar, production by production, with the operators of each spelled out. */
module ExprProductions {
  import opened Basics
  import opened ExprValue
  import opened ExprLang
  import opened ExprGrammar
  import opened ExprReading
  import opened ExprAccepts
  import opened ExprComplete

  /** expr := ternary; ternary := or_expr ('?' expr ':' ternary)? */
  predicate Ternaries(c: Cst) {
    Ors(c) || (c.Conditional? && Ors(c.c) && c.question.kind == KQuestion && Ternaries(c.a) && c.colon.kind == KColon && Ternaries(c.b))
  }

  /** or_expr := and_expr ('or' and_expr)* */
  predicate Ors(c: Cst)
    decreases c, 8
  {
    Ands(c) || (c.Infix? && Ors(c.left) && c.op.kind == KOr && Ands(c.right))
  }

  /** and_expr := equality ('and' equality)* */
  predicate Ands(c: Cst)
    decreases c, 7
  {
    Equalities(c) || (c.Infix? && Ands(c.left) && c.op.kind == KAnd && Equalities(c.right))
  }

  /** equality := relational (('==' | '!=') relational)* */
  predicate Equalities(c: Cst)
    decreases c, 6
  {
    Relationals(c) || (c.Infix? && Equalities(c.left) && (c.op.kind == KEqEq || c.op.kind == KNe) && Relationals(c.right))
  }

  /** relational := additive (('<' | '<=' | '>' | '>=') additive)* */
  predicate Relationals(c: Cst)
    decreases c, 5
  {
    Additives(c)
    || (c.Infix? && Relationals(c.left) && (c.op.kind == KLt || c.op.kind == KLe || c.op.kind == KGt || c.op.kind == KGe) && Additives(c.right))
  }

  /** additive := multiplicative (('+' | '-') multiplicative)* */
  predicate Additives(c: Cst)
    decreases c, 4
  {
    Multiplicatives(c) || (c.Infix? && Additives(c.left) && (c.op.kind == KPlus || c.op.kind == KMinus) && Multiplicatives(c.right))
  }

  /** multiplicative := unary (('*' | '/' | '%') unary)* */
  predicate Multiplicatives(c: Cst)
    decreases c, 3
  {
    Unaries(c)
    || (c.Infix? && Multiplicatives(c.left) && (c.op.kind == KStar || c.op.kind == KSlash || c.op.kind == KPercent) && Unaries(c.right))
  }

  /** unary := ('-' | 'not') unary | postfix */
  predicate Unaries(c: Cst)
    decreases c, 2
  {
    Postfixes(c) || (c.Prefix? && (c.op.kind == KMinus || c.op.kind == KNot) && Unaries(c.operand))
  }

  /** postfix := primary ('.' ident)*, where a bare path keeps its names to itself */
  predicate Postfixes(c: Cst)
    decreases c, 1
  {
    Primaries(c) || (c.Lane? && !c.base.Name? && Postfixes(c.base) && c.dot.kind == KDot && c.ident.kind == KIdent)
  }

  /** primary := literal | '(' expr ')' | path | path '(' args ')' */
  predicate Primaries(c: Cst)
    decreases c, 0
  {
    || (c.Literal? && Literals(c.t))
    || (c.Parens? && c.open.kind == KLParen && Ternaries(c.inner) && c.close.kind == KRParen)
    || (c.Name? && Paths(c.names))
    || (c.Apply? && Paths(c.names) && c.open.kind == KLParen && Arguments(c.args) && c.close.kind == KRParen)
  }

  predicate Literals(t: Token) {
    || (t.kind == KIntLit && t.value.IntV?) || (t.kind == KFloatLit && t.value.FloatV?) || (t.kind == KStringLit && t.value.StringV?)
    || t.kind == KTrue || t.kind == KFalse
  }

  /** path := ident ('.' ident)* */
  predicate Paths(n: Names) {
    if n.First? then n.t.kind == KIdent else Paths(n.front) && n.dot.kind == KDot && n.ident.kind == KIdent
  }

  /** args := (expr (',' expr)*)? */
  predicate Arguments(args: Args) {
    || args.NoArgs?
    || (args.OneArg? && Ternaries(args.c))
    || (args.MoreArgs? && !args.front.NoArgs? && Arguments(args.front) && args.comma.kind == KComma && Ternaries(args.c))
  }

  /** The production of each level. */
  predicate Production(c: Cst, level: nat) {
    if level == 0 then Ternaries(c)
    else if level == 1 then Ors(c)
    else if level == 2 then Ands(c)
    else if level == 3 then Equalities(c)
    else if level == 4 then Relationals(c)
    else if level == 5 then Additives(c)
    else if level == 6 then Multiplicatives(c)
    else if level == 7 then Unaries(c)
    else if level == 8 then Postfixes(c)
    else Primaries(c)
  }

  /** Which productions each kind of tree goes up through. */
  lemma {:induction false} Ladder(c: Cst)
    ensures Postfixes(c) <==> Primaries(c) || (c.Lane? && !c.base.Name? && Postfixes(c.base) && c.dot.kind == KDot && c.ident.kind == KIdent)
    ensures Unaries(c) <==> Postfixes(c) || (c.Prefix? && (c.op.kind == KMinus || c.op.kind == KNot) && Unaries(c.operand))
    ensures !c.Infix? ==> (Multiplicatives(c) <==> Unaries(c)) && (Additives(c) <==> Multiplicatives(c)) && (Relationals(c) <==> Additives(c))
    ensures !c.Infix? ==> (Equalities(c) <==> Relationals(c)) && (Ands(c) <==> Equalities(c)) && (Ors(c) <==> Ands(c))
    ensures c.Infix? ==> !Primaries(c) && !Postfixes(c) && !Unaries(c)
    ensures !c.Conditional? ==> (Ternaries(c) <==> Ors(c))
  {
  }

  lemma {:induction false} PathsAre(n: Names)
    ensures NamesOk(n) <==> Paths(n)
  {
    if n.Dotted? {
      PathsAre(n.front);
    }
  }

  lemma {:induction false} ArgumentsAre(args: Args)
    ensures DerivesArgs(args) <==> Arguments(args)
    decreases args
  {
    match args
    case NoArgs =>
    case OneArg(c) => DerivesIsProduction(c, 0);
    case MoreArgs(front, _, c) =>
      ArgumentsAre(front);
      DerivesIsProduction(c, 0);
  }

  /** Derivation at a level is derivation from the production of that level. */
  lemma {:induction false} DerivesIsProduction(c: Cst, level: nat)
    requires level <= 9
    ensures Derives(c, level) <==> Production(c, level)
    decreases c, 1
  {
    Ladder(c);
    match c
    case Literal(_) =>
    case Name(names) => PathsAre(names);
    case Parens(_, inner, _) => DerivesIsProduction(inner, 0);
    case Apply(names, _, args, _) =>
      PathsAre(names);
      ArgumentsAre(args);
    case Lane(base, _, _) => DerivesIsProduction(base, 8);
    case Prefix(_, operand) => DerivesIsProduction(operand, 7);
    case Infix(_, _, _) => InfixIsProduction(c, level);
    case Conditional(k, _, a, _, b) =>
      DerivesIsProduction(k, 1);
      DerivesIsProduction(a, 0);
      DerivesIsProduction(b, 0);
  }

  lemma {:induction false} InfixIsProduction(c: Cst, level: nat)
    requires c.Infix? && level <= 9
    ensures Derives(c, level) <==> Production(c, level)
    decreases c, 0
  {
    Ladder(c);
    var k := OpLevel(c.op.kind);
    if k > 0 {
      DerivesIsProduction(c.left, k);
      DerivesIsProduction(c.right, k + 1);
    }
    InfixClimbs(c);
  }

  /** A binary tree belongs to the production of its own operator, and to all looser ones. */
  lemma {:induction false} InfixClimbs(c: Cst)
    requires c.Infix?
    ensures var k := OpLevel(c.op.kind);
            var made := k > 0 && Production(c.left, k) && Production(c.right, k + 1);
            && (Multiplicatives(c) <==> made && k == 6) && (Additives(c) <==> made && k >= 5) && (Relationals(c) <==> made && k >= 4)
            && (Equalities(c) <==> made && k >= 3) && (Ands(c) <==> made && k >= 2) && (Ors(c) <==> made)
  {
    Ladder(c);
    assert Multiplicatives(c) <==> OpLevel(c.op.kind) == 6 && Multiplicatives(c.left) && Unaries(c.right);
    assert Additives(c) <==> Multiplicatives(c) || (OpLevel(c.op.kind) == 5 && Additives(c.left) && Multiplicatives(c.right));
    assert Relationals(c) <==> Additives(c) || (OpLevel(c.op.kind) == 4 && Relationals(c.left) && Additives(c.right));
    assert Equalities(c) <==> Relationals(c) || (OpLevel(c.op.kind) == 3 && Equalities(c.left) && Relationals(c.right));
    assert Ands(c) <==> Equalities(c) || (OpLevel(c.op.kind) == 2 && Ands(c.left) && Equalities(c.right));
    assert Ors(c) <==> Ands(c) || (OpLevel(c.op.kind) == 1 && Ors(c.left) && Ands(c.right));
  }

  // ---- token lists ------------------------------------------------------------------------------------

  /** All tokens but the last make a tree of the first production. */
  predicate Written(ts: seq<Token>, c: Cst) {
    ts != [] && Ternaries(c) && Tokens(c) == ts[..|ts| - 1]
  }

  lemma {:induction false} WrittenIsDerived(ts: seq<Token>, c: Cst)
    ensures Written(ts, c) <==> DerivesAll(ts, c)
  {
    DerivesIsProduction(c, 0);
  }

  /** The binary operators, from the loosest to the tightest. */
  const OPERATORS: seq<set<TokenKind>> := [
    {KOr}, {KAnd}, {KEqEq, KNe}, {KLt, KLe, KGt, KGe}, {KPlus, KMinus}, {KStar, KSlash, KPercent}
  ]

  lemma {:induction false} OperatorLevels(k: TokenKind, i: nat)
    requires i < 6 && k in OPERATORS[i]
    ensures OpLevel(k) == i + 1
  {
  }

  lemma {:induction false} LiteralTree(t: Token)
    requires Literals(t)
    ensures Derives(Literal(t), 9) && forall l: nat :: l <= 7 ==> Nesting(Literal(t), l) == 7 - l
  {
    forall l: nat | l <= 7 ensures Nesting(Literal(t), l) == 7 - l {
      LiteralDown(Literal(t), l);
    }
  }

  lemma {:induction false} LiteralDown(c: Cst, l: nat)
    requires c.Literal? && l <= 7
    ensures Nesting(c, l) == 7 - l
    decreases 7 - l
  {
    if l < 7 {
      LiteralDown(c, l + 1);
    } else {
      assert Nesting(c, 9) == 0 && Nesting(c, 8) == Nesting(c, 9);
    }
  }

  lemma {:induction false} InfixTree(left: Cst, op: Token, right: Cst, level: nat)
    requires 1 <= level <= 6 && OpLevel(op.kind) == level && Derives(left, level) && Derives(right, level + 1)
    requires Nesting(left, level) == 7 - level && Nesting(right, level + 1) == 6 - level
    ensures Derives(Infix(left, op, right), level) && forall l: nat :: l <= level ==> Nesting(Infix(left, op, right), l) == 7 - l
  {
    var c := Infix(left, op, right);
    assert Nesting(c, level) == 7 - level;
    forall l: nat | l <= level ensures Nesting(c, l) == 7 - l {
      InfixDown(c, level, l);
    }
  }

  lemma {:induction false} InfixDown(c: Cst, level: nat, l: nat)
    requires c.Infix? && 1 <= level <= 6 && OpLevel(c.op.kind) == level && Nesting(c, level) == 7 - level && l <= level
    ensures Nesting(c, l) == 7 - l
    decreases level - l
  {
    if l < level {
      InfixDown(c, level, l + 1);
    }
  }

  /** A tree of five tokens before the end token, read. */
  lemma {:induction false} FiveRead(ts: seq<Token>, c: Cst, level: nat, cap: nat)
    requires |ts| == 6 && Ended(ts) && Derives(c, level) && Tokens(c) == ts[..5] && Nesting(c, 0) <= cap
    ensures ReadAll(ts, cap) == Got(c, 5)
  {
    DerivesLower(c, level, 0);
    hide Derives, Nesting, Tokens, ReadAll;
    ReadsDerived(ts, c, cap);
  }

  lemma {:induction false} FiveTokens(x: Token, p: Token, y: Token, q: Token, z: Token, end: Token)
    ensures var ts := [x, p, y, q, z, end];
            && Tokens(Infix(Literal(x), p, Infix(Literal(y), q, Literal(z)))) == ts[..5]
            && Tokens(Infix(Infix(Literal(x), p, Literal(y)), q, Literal(z))) == ts[..5]
  {
    assert Tokens(Literal(x)) == [x] && Tokens(Literal(y)) == [y] && Tokens(Literal(z)) == [z];
    assert Tokens(Infix(Literal(y), q, Literal(z))) == [y, q, z];
    assert Tokens(Infix(Literal(x), p, Literal(y))) == [x, p, y];
  }

  /** Of two operators between three literals the tighter one takes its two neighbours; two equally tight
      ones lean to the left. */
  lemma {:induction false} TighterNests(x: Token, p: Token, y: Token, q: Token, z: Token, end: Token, i: nat, j: nat, cap: nat)
    requires Literals(x) && Literals(y) && Literals(z) && end.kind == KEnd && cap >= 7
    requires i < 6 && p.kind in OPERATORS[i] && j < 6 && q.kind in OPERATORS[j]
    ensures Ended([x, p, y, q, z, end])
    ensures ReadAll([x, p, y, q, z, end], cap) == Got(if i < j then Infix(Literal(x), p, Infix(Literal(y), q, Literal(z)))
                                                      else Infix(Infix(Literal(x), p, Literal(y)), q, Literal(z)), 5)
  {
    OperatorLevels(p.kind, i);
    OperatorLevels(q.kind, j);
    LiteralTree(x);
    LiteralTree(y);
    LiteralTree(z);
    FiveTokens(x, p, y, q, z, end);
    var ts := [x, p, y, q, z, end];
    assert Ended(ts);
    var right, left := Infix(Literal(y), q, Literal(z)), Infix(Literal(x), p, Literal(y));
    hide Derives, Nesting, Tokens, OPERATORS, Literals, ReadAll, OpLevel;
    if i < j {
      DerivesLower(Literal(y), 9, j + 1);
      DerivesLower(Literal(z), 9, j + 2);
      InfixTree(Literal(y), q, Literal(z), j + 1);
      DerivesLower(right, j + 1, i + 2);
      DerivesLower(Literal(x), 9, i + 1);
      InfixTree(Literal(x), p, right, i + 1);
      FiveRead(ts, Infix(Literal(x), p, right), i + 1, cap);
    } else {
      DerivesLower(Literal(x), 9, i + 1);
      DerivesLower(Literal(y), 9, i + 2);
      InfixTree(Literal(x), p, Literal(y), i + 1);
      DerivesLower(left, i + 1, j + 1);
      DerivesLower(Literal(z), 9, j + 2);
      InfixTree(left, q, Literal(z), j + 1);
      FiveRead(ts, Infix(left, q, Literal(z)), j + 1, cap);
    }
  }

  // ---- how deep a tree may nest -------------------------------------------------------------------------

  /** A literal in n pairs of parentheses. */
  function InParens(n: nat, t: Token, open: Token, close: Token): Cst {
    if n == 0 then Literal(t) else Parens(open, InParens(n - 1, t, open, close), close)
  }

  /** A literal under n unary operators. */
  function Prefixed(n: nat, t: Token, op: Token): Cst {
    if n == 0 then Literal(t) else Prefix(op, Prefixed(n - 1, t, op))
  }

  lemma {:induction false} UnaryDown(c: Cst, l: nat)
    requires !c.Infix? && !c.Conditional? && l <= 7
    ensures Nesting(c, l) == Nesting(c, 7) + 7 - l
    decreases 7 - l
  {
    if l < 7 {
      UnaryDown(c, l + 1);
    }
  }

  lemma {:induction false} ParensNest(n: nat, t: Token, open: Token, close: Token)
    requires Literals(t) && open.kind == KLParen && close.kind == KRParen
    ensures var c := InParens(n, t, open, close); Ternaries(c) && Nesting(c, 0) == 8 * n + 7
  {
    var c := InParens(n, t, open, close);
    UnaryDown(c, 0);
    DerivesIsProduction(c, 0);
    if n > 0 {
      ParensNest(n - 1, t, open, close);
      DerivesIsProduction(InParens(n - 1, t, open, close), 0);
      assert Nesting(c, 7) == Nesting(c, 8) == Nesting(c, 9) == 1 + Nesting(c.inner, 0);
    } else {
      LiteralTree(t);
      DerivesLower(c, 9, 0);
    }
  }

  lemma {:induction false} PrefixesNest(n: nat, t: Token, op: Token)
    requires Literals(t) && (op.kind == KMinus || op.kind == KNot)
    ensures var c := Prefixed(n, t, op); Unaries(c) && Ternaries(c) && Nesting(c, 7) == n && Nesting(c, 0) == n + 7
  {
    var c := Prefixed(n, t, op);
    UnaryDown(c, 0);
    Ladder(c);
    if n > 0 {
      PrefixesNest(n - 1, t, op);
    } else {
      LiteralTree(t);
    }
  }

  /** Seven pairs of parentheses around a literal are read, and eight are refused; fifty-seven unary
      operators in front of one are read, and fifty-eight are refused. */
  lemma {:induction false} NestingLimit(n: nat, t: Token, op: Token, open: Token, close: Token, end: Token)
    requires Literals(t) && (op.kind == KMinus || op.kind == KNot) && open.kind == KLParen && close.kind == KRParen && end.kind == KEnd
    ensures var c := InParens(n, t, open, close);
            Ended(Tokens(c) + [end]) && Comes(ReadAll(Tokens(c) + [end], 64), n <= 7, c, |Tokens(c)|)
    ensures var c := Prefixed(n, t, op);
            Ended(Tokens(c) + [end]) && Comes(ReadAll(Tokens(c) + [end], 64), n <= 57, c, |Tokens(c)|)
  {
    ParensNest(n, t, open, close);
    PrefixesNest(n, t, op);
    hide *;
    WholeIsRead(InParens(n, t, open, close), end);
    WholeIsRead(Prefixed(n, t, op), end);
  }

  /** What the grammar derives is read when it nests at most 64 deep. */
  lemma {:induction false} WholeIsRead(c: Cst, end: Token)
    requires Ternaries(c) && end.kind == KEnd
    ensures Ended(Tokens(c) + [end]) && Comes(ReadAll(Tokens(c) + [end], 64), Nesting(c, 0) <= 64, c, |Tokens(c)|)
  {
    DerivesIsProduction(c, 0);
    TreeNoEnd(c, 0);
    var ts := Tokens(c) + [end];
    assert ts[..|ts| - 1] == Tokens(c);
    hide Tokens, Derives, Ternaries, Nesting, Production, ReadAll;
    assert Ended(ts);
    ReadsDerived(ts, c, 64);
  }

  // ---- the abstract tree ----------------------------------------------------------------------------------

  /** The identifiers of a path are every second token of it. */
  predicate Idents(n: Names, segments: seq<string>) {
    |NameTokens(n)| == 2 * |segments| - 1 && forall i | 0 <= i < |segments| :: segments[i] == NameTokens(n)[2 * i].text
  }

  /** What a concrete tree stands for: parentheses leave no trace, operands keep their order, and a node sits
      where its operator, its dot or its first identifier does. */
  predicate Stands(c: Cst, e: Expr) {
    match c
    case Literal(t) => e.Lit? && e.at == t.at && e.lit == (if t.kind == KTrue then BoolV(true) else if t.kind == KFalse then BoolV(false) else t.value)
    case Name(names) => e.Path? && e.at == NameTokens(names)[0].at && Idents(names, e.segments)
    case Parens(_, inner, _) => Stands(inner, e)
    case Apply(names, _, args, _) => e.Call? && e.at == NameTokens(names)[0].at && Idents(names, e.segments) && ArgsStand(args, e.args)
    case Lane(base, dot, ident) => e.Member? && e.at == dot.at && e.member == ident.text && Stands(base, e.base)
    case Prefix(op, operand) => e.Unary? && e.at == op.at && e.op == op.kind && Stands(operand, e.a)
    case Infix(left, op, right) => e.Binary? && e.at == op.at && e.op == op.kind && Stands(left, e.a) && Stands(right, e.b)
    case Conditional(k, question, a, _, b) => e.Ternary? && e.at == question.at && Stands(k, e.c) && Stands(a, e.a) && Stands(b, e.b)
  }

  predicate ArgsStand(args: Args, es: seq<Expr>) {
    match args
    case NoArgs => es == []
    case OneArg(c) => |es| == 1 && Stands(c, es[0])
    case MoreArgs(front, _, c) => |es| > 0 && ArgsStand(front, es[..|es| - 1]) && Stands(c, es[|es| - 1])
  }

  lemma {:induction false} SegmentsAre(n: Names, segments: seq<string>)
    ensures Idents(n, segments) <==> segments == Segments(n)
    ensures NameTokens(n)[0] == Head(n) && |Segments(n)| > 0
  {
    if n.Dotted? {
      var k := |segments| - 1;
      SegmentsAre(n.front, if k >= 0 then segments[..k] else []);
      SegmentsAre(n.front, Segments(n.front));
      assert |NameTokens(n.front)| == 2 * |Segments(n.front)| - 1;
      assert Segments(n) == Segments(n.front) + [n.ident.text];
      if Idents(n, segments) {
        assert forall i | 0 <= i < k :: segments[..k][i] == segments[i] && NameTokens(n)[2 * i] == NameTokens(n.front)[2 * i];
        assert segments == segments[..k] + [segments[k]];
      }
      if segments == Segments(n) {
        assert forall i | 0 <= i < k :: NameTokens(n)[2 * i] == NameTokens(n.front)[2 * i] && segments[i] == Segments(n.front)[i];
      }
    } else if |segments| == 1 {
      assert segments == [segments[0]];
    }
  }

  lemma {:induction false} StandsIff(c: Cst, e: Expr)
    ensures Stands(c, e) <==> e == TreeOf(c)
    decreases c
  {
    match c
    case Literal(_) =>
    case Name(names) =>
      if e.Path? {
        SegmentsAre(names, e.segments);
      }
      SegmentsAre(names, []);
    case Parens(_, inner, _) => StandsIff(inner, e);
    case Apply(names, _, args, _) =>
      if e.Call? {
        SegmentsAre(names, e.segments);
        ArgsStandIff(args, e.args);
      }
    case Lane(base, _, _) =>
      if e.Member? {
        StandsIff(base, e.base);
      }
    case Prefix(_, operand) =>
      if e.Unary? {
        StandsIff(operand, e.a);
      }
    case Infix(left, _, right) =>
      if e.Binary? {
        StandsIff(left, e.a);
        StandsIff(right, e.b);
      }
    case Conditional(k, _, a, _, b) =>
      if e.Ternary? {
        StandsIff(k, e.c);
        StandsIff(a, e.a);
        StandsIff(b, e.b);
      }
  }

  lemma {:induction false} ArgsStandIff(args: Args, es: seq<Expr>)
    ensures ArgsStand(args, es) <==> es == Trees(args)
    decreases args
  {
    match args
    case NoArgs =>
    case OneArg(c) =>
      if |es| == 1 {
        StandsIff(c, es[0]);
      }
    case MoreArgs(front, _, c) =>
      if |es| > 0 {
        var n := |es| - 1;
        ArgsStandIff(front, es[..n]);
        StandsIff(c, es[n]);
        assert es == es[..n] + [es[n]];
      }
  }
}
