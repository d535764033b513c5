/** The expression grammar: concrete trees with every token, their levels of precedence, and the
    abstract tree each stands for. */
module ExprGrammar {
  import opened ExprValue
  import opened ExprLang

  /** A token; `value` is meaningful for the three literal kinds. */
  datatype Token = Token(kind: TokenKind, text: string, at: nat, value: LitValue)

  /** An identifier path. */
  datatype Names = First(t: Token) | Dotted(front: Names, dot: Token, ident: Token)

  datatype Args = NoArgs | OneArg(c: Cst) | MoreArgs(front: Args, comma: Token, c: Cst)

  datatype Cst =
    | Literal(t: Token)
    | Name(names: Names)
    | Parens(open: Token, inner: Cst, close: Token)
    | Apply(names: Names, open: Token, args: Args, close: Token)
    | Lane(base: Cst, dot: Token, ident: Token)
    | Prefix(op: Token, operand: Cst)
    | Infix(left: Cst, op: Token, right: Cst)
    | Conditional(c: Cst, question: Token, a: Cst, colon: Token, b: Cst)

  // ---- the tokens of a tree ---------------------------------------------------------------------

  function NameTokens(n: Names): (r: seq<Token>)
    ensures |r| > 0
  {
    match n
    case First(t) => [t]
    case Dotted(front, dot, ident) => NameTokens(front) + [dot, ident]
  }

  function Tokens(c: Cst): (r: seq<Token>)
    ensures |r| > 0
  {
    match c
    case Literal(t) => [t]
    case Name(names) => NameTokens(names)
    case Parens(open, inner, close) => [open] + Tokens(inner) + [close]
    case Apply(names, open, args, close) => NameTokens(names) + [open] + ArgTokens(args) + [close]
    case Lane(base, dot, ident) => Tokens(base) + [dot, ident]
    case Prefix(op, operand) => [op] + Tokens(operand)
    case Infix(left, op, right) => Tokens(left) + [op] + Tokens(right)
    case Conditional(c, question, a, colon, b) => Tokens(c) + [question] + Tokens(a) + [colon] + Tokens(b)
  }

  function ArgTokens(args: Args): seq<Token> {
    match args
    case NoArgs => []
    case OneArg(c) => Tokens(c)
    case MoreArgs(front, comma, c) => ArgTokens(front) + [comma] + Tokens(c)
  }

  // ---- precedence -------------------------------------------------------------------------------------

  /** Binding strength of a binary operator, 1 to 6; 0 for the other tokens. */
  function OpLevel(k: TokenKind): nat {
    match k
    case KOr => 1
    case KAnd => 2
    case KEqEq => 3
    case KNe => 3
    case KLt => 4
    case KLe => 4
    case KGt => 4
    case KGe => 4
    case KPlus => 5
    case KMinus => 5
    case KStar => 6
    case KSlash => 6
    case KPercent => 6
    case _ => 0
  }

  const UNARY: nat := 7
  const POSTFIX: nat := 8
  const PRIMARY: nat := 9

  function Level(c: Cst): nat {
    match c
    case Conditional(_, _, _, _, _) => 0
    case Infix(_, op, _) => OpLevel(op.kind)
    case Prefix(_, _) => UNARY
    case Lane(_, _, _) => POSTFIX
    case _ => PRIMARY
  }

  predicate NamesOk(n: Names) {
    match n
    case First(t) => t.kind == KIdent
    case Dotted(front, dot, ident) => NamesOk(front) && dot.kind == KDot && ident.kind == KIdent
  }

  predicate LiteralOk(t: Token) {
    match t.kind
    case KIntLit => t.value.IntV?
    case KFloatLit => t.value.FloatV?
    case KStringLit => t.value.StringV?
    case KTrue => true
    case KFalse => true
    case _ => false
  }

  /** The tree derives from the production of this level: binary chains lean left, the conditional
      leans right, unary operators nest, and a bare path keeps every '.name' that follows it. */
  predicate Derives(c: Cst, level: nat) {
    && Level(c) >= level
    && match c
       case Literal(t) => LiteralOk(t)
       case Name(names) => NamesOk(names)
       case Parens(open, inner, close) => open.kind == KLParen && Derives(inner, 0) && close.kind == KRParen
       case Apply(names, open, args, close) => NamesOk(names) && open.kind == KLParen && DerivesArgs(args) && close.kind == KRParen
       case Lane(base, dot, ident) => !base.Name? && Derives(base, POSTFIX) && dot.kind == KDot && ident.kind == KIdent
       case Prefix(op, operand) => (op.kind == KMinus || op.kind == KNot) && Derives(operand, UNARY)
       case Infix(left, op, right) =>
         OpLevel(op.kind) > 0 && Derives(left, OpLevel(op.kind)) && Derives(right, OpLevel(op.kind) + 1)
       case Conditional(c, question, a, colon, b) =>
         Derives(c, 1) && question.kind == KQuestion && Derives(a, 0) && colon.kind == KColon && Derives(b, 0)
  }

  predicate DerivesArgs(args: Args) {
    match args
    case NoArgs => true
    case OneArg(c) => Derives(c, 0)
    case MoreArgs(front, comma, c) => !front.NoArgs? && DerivesArgs(front) && comma.kind == KComma && Derives(c, 0)
  }

  // ---- the abstract tree ---------------------------------------------------------------------------------

  function Segments(n: Names): seq<string> {
    match n
    case First(t) => [t.text]
    case Dotted(front, _, ident) => Segments(front) + [ident.text]
  }

  function Head(n: Names): Token {
    match n
    case First(t) => t
    case Dotted(front, _, _) => Head(front)
  }

  function LiteralValue(t: Token): LitValue {
    match t.kind
    case KTrue => BoolV(true)
    case KFalse => BoolV(false)
    case _ => t.value
  }

  function TreeOf(c: Cst): Expr {
    match c
    case Literal(t) => Lit(LiteralValue(t), t.at)
    case Name(names) => Path(Segments(names), Head(names).at)
    case Parens(_, inner, _) => TreeOf(inner)
    case Apply(names, _, args, _) => Call(Segments(names), Trees(args), Head(names).at)
    case Lane(base, dot, ident) => Member(TreeOf(base), ident.text, dot.at)
    case Prefix(op, operand) => Unary(op.kind, TreeOf(operand), op.at)
    case Infix(left, op, right) => Binary(op.kind, TreeOf(left), TreeOf(right), op.at)
    case Conditional(c, question, a, _, b) => Ternary(TreeOf(c), TreeOf(a), TreeOf(b), question.at)
  }

  function Trees(args: Args): seq<Expr> {
    match args
    case NoArgs => []
    case OneArg(c) => [TreeOf(c)]
    case MoreArgs(front, _, c) => Trees(front) + [TreeOf(c)]
  }

  /** What binds at least as tightly as a higher level is asked to also fits a lower one. */
  lemma {:induction false} DerivesLower(c: Cst, level: nat, lower: nat)
    requires Derives(c, level) && lower <= level
    ensures Derives(c, lower)
  {
  }

  // ---- building one node more --------------------------------------------------------------------------

  lemma {:induction false} InfixMade(left: Cst, op: Token, right: Cst, level: nat)
    requires OpLevel(op.kind) == level > 0 && Derives(left, level) && Derives(right, level + 1)
    ensures var c := Infix(left, op, right);
            Derives(c, level) && Tokens(c) == Tokens(left) + [op] + Tokens(right) && TreeOf(c) == Binary(op.kind, TreeOf(left), TreeOf(right), op.at)
  {
  }

  lemma {:induction false} ConditionalMade(c: Cst, question: Token, a: Cst, colon: Token, b: Cst)
    requires Derives(c, 1) && question.kind == KQuestion && Derives(a, 0) && colon.kind == KColon && Derives(b, 0)
    ensures var n := Conditional(c, question, a, colon, b);
            && Derives(n, 0) && Tokens(n) == Tokens(c) + [question] + Tokens(a) + [colon] + Tokens(b)
            && TreeOf(n) == Ternary(TreeOf(c), TreeOf(a), TreeOf(b), question.at)
  {
  }

  lemma {:induction false} LaneMade(base: Cst, dot: Token, ident: Token)
    requires !base.Name? && Derives(base, POSTFIX) && dot.kind == KDot && ident.kind == KIdent
    ensures var c := Lane(base, dot, ident);
            Derives(c, POSTFIX) && Tokens(c) == Tokens(base) + [dot, ident] && TreeOf(c) == Member(TreeOf(base), ident.text, dot.at)
  {
  }

  lemma {:induction false} ApplyMade(names: Names, open: Token, args: Args, close: Token)
    requires NamesOk(names) && open.kind == KLParen && DerivesArgs(args) && close.kind == KRParen
    ensures var c := Apply(names, open, args, close);
            && Derives(c, PRIMARY) && Tokens(c) == NameTokens(names) + [open] + ArgTokens(args) + [close]
            && TreeOf(c) == Call(Segments(names), Trees(args), Head(names).at)
  {
  }

  lemma {:induction false} NameMade(names: Names)
    requires NamesOk(names)
    ensures Derives(Name(names), PRIMARY) && Tokens(Name(names)) == NameTokens(names) && TreeOf(Name(names)) == Path(Segments(names), Head(names).at)
  {
  }

  lemma {:induction false} ParensMade(open: Token, inner: Cst, close: Token)
    requires open.kind == KLParen && Derives(inner, 0) && close.kind == KRParen
    ensures var c := Parens(open, inner, close);
            Derives(c, PRIMARY) && Tokens(c) == [open] + Tokens(inner) + [close] && TreeOf(c) == TreeOf(inner)
  {
  }

  lemma {:induction false} LiteralMade(t: Token)
    requires LiteralOk(t)
    ensures Derives(Literal(t), PRIMARY) && Tokens(Literal(t)) == [t] && TreeOf(Literal(t)) == Lit(LiteralValue(t), t.at)
  {
  }

  lemma {:induction false} FirstArg(c: Cst)
    requires Derives(c, 0)
    ensures DerivesArgs(OneArg(c)) && ArgTokens(OneArg(c)) == Tokens(c) && Trees(OneArg(c)) == [TreeOf(c)]
  {
  }

  lemma {:induction false} NoArg()
    ensures DerivesArgs(NoArgs) && ArgTokens(NoArgs) == [] && Trees(NoArgs) == []
  {
  }

  lemma {:induction false} NextArg(front: Args, comma: Token, c: Cst)
    requires !front.NoArgs? && DerivesArgs(front) && comma.kind == KComma && Derives(c, 0)
    ensures var args := MoreArgs(front, comma, c);
            DerivesArgs(args) && ArgTokens(args) == ArgTokens(front) + [comma] + Tokens(c) && Trees(args) == Trees(front) + [TreeOf(c)]
  {
  }

  /** Without that last rule the written grammar reads a.b in two ways with different trees. */
  lemma {:induction false} PathOrLane(a: Token, dot: Token, b: Token)
    requires a.kind == KIdent && dot.kind == KDot && b.kind == KIdent
    ensures var path, lane := Name(Dotted(First(a), dot, b)), Lane(Name(First(a)), dot, b);
            && Tokens(path) == Tokens(lane) && TreeOf(path) != TreeOf(lane) && Derives(path, 0) && !Derives(lane, 0)
            && Derives(lane.base, POSTFIX)
  {
  }
}
