/** How tokens are read: the recursive descent with its nesting guard, as functions. */
module ExprReading {
  import opened ExprValue
  import opened ExprLang
  import opened ExprGrammar

  /** What the lexer hands over: one end token, at the end. */
  predicate Ended(ts: seq<Token>) {
    ts != [] && forall i | 0 <= i < |ts| :: ts[i].kind == KEnd <==> i == |ts| - 1
  }

  /** A production's outcome: what it read and the position after it, or the first error and the index of the
      token it lies at. */
  datatype Read<T> = Got(value: T, pos: nat) | Failed(diag: Diag, index: nat)

  const LITERALS: set<TokenKind> := {KIntLit, KFloatLit, KStringLit, KTrue, KFalse}

  /** ternary := or ('?' expr ':' ternary)? */
  function ReadTernary(ts: seq<Token>, pos: nat, depth: nat, cap: nat): (r: Read<Cst>)
    requires Ended(ts) && pos < |ts|
    ensures if r.Got? then pos < r.pos < |ts| else pos <= r.index < |ts|
    decreases |ts| - pos, 31
  {
    if depth >= cap then Failed(Diag(TooComplex, ts[pos].at), pos)
    else
      match ReadLeft(ts, pos, 1, depth + 1, cap)
      case Failed(x, at) => Failed(x, at)
      case Got(c, p) => if ts[p].kind == KQuestion then ReadBranches(ts, p, c, depth + 1, cap) else Got(c, p)
  }

  /** The rest of a conditional, from its question mark on. */
  function ReadBranches(ts: seq<Token>, pos: nat, c: Cst, depth: nat, cap: nat): (r: Read<Cst>)
    requires Ended(ts) && pos < |ts| && ts[pos].kind == KQuestion
    ensures if r.Got? then pos < r.pos < |ts| else pos <= r.index < |ts|
    decreases |ts| - pos, 30
  {
    match ReadTernary(ts, pos + 1, depth, cap)
    case Failed(x, at) => Failed(x, at)
    case Got(a, p) =>
      if ts[p].kind != KColon then Failed(Diag(ParseError, ts[p].at), p)
      else
        match ReadTernary(ts, p + 1, depth, cap)
        case Failed(x, at) => Failed(x, at)
        case Got(b, q) => Got(Conditional(c, ts[pos], a, ts[p], b), q)
  }

  /** A left-leaning chain of the operators of one level, over operands of the next. */
  function ReadLeft(ts: seq<Token>, pos: nat, level: nat, depth: nat, cap: nat): (r: Read<Cst>)
    requires Ended(ts) && pos < |ts| && 1 <= level <= 6
    ensures if r.Got? then pos < r.pos < |ts| else pos <= r.index < |ts|
    decreases |ts| - pos, 3 * (7 - level) + 10
  {
    if depth >= cap then Failed(Diag(TooComplex, ts[pos].at), pos) else ReadThrough(ts, pos, level, depth + 1, cap)
  }

  /** The first operand, and then the chain. */
  function ReadThrough(ts: seq<Token>, pos: nat, level: nat, depth: nat, cap: nat): (r: Read<Cst>)
    requires Ended(ts) && pos < |ts| && 1 <= level <= 6
    ensures if r.Got? then pos < r.pos < |ts| else pos <= r.index < |ts|
    decreases |ts| - pos, 3 * (7 - level) + 9
  {
    match ReadOperand(ts, pos, level, depth, cap)
    case Failed(x, at) => Failed(x, at)
    case Got(c, p) => ReadChain(ts, p, c, level, depth, cap)
  }

  function ReadChain(ts: seq<Token>, pos: nat, c: Cst, level: nat, depth: nat, cap: nat): (r: Read<Cst>)
    requires Ended(ts) && pos < |ts| && 1 <= level <= 6
    ensures if r.Got? then pos <= r.pos < |ts| else pos <= r.index < |ts|
    decreases |ts| - pos, 0
  {
    if OpLevel(ts[pos].kind) != level then Got(c, pos)
    else
      match ReadOperand(ts, pos + 1, level, depth, cap)
      case Failed(x, at) => Failed(x, at)
      case Got(right, p) => ReadChain(ts, p, Infix(c, ts[pos], right), level, depth, cap)
  }

  /** The next tighter level. */
  function ReadOperand(ts: seq<Token>, pos: nat, level: nat, depth: nat, cap: nat): (r: Read<Cst>)
    requires Ended(ts) && pos < |ts| && 1 <= level <= 6
    ensures if r.Got? then pos < r.pos < |ts| else pos <= r.index < |ts|
    decreases |ts| - pos, 3 * (7 - level) + 8
  {
    if level < 6 then ReadLeft(ts, pos, level + 1, depth, cap) else ReadUnary(ts, pos, depth, cap)
  }

  /** unary := ('-' | 'not') unary | postfix */
  function ReadUnary(ts: seq<Token>, pos: nat, depth: nat, cap: nat): (r: Read<Cst>)
    requires Ended(ts) && pos < |ts|
    ensures if r.Got? then pos < r.pos < |ts| else pos <= r.index < |ts|
    decreases |ts| - pos, 9
  {
    if ts[pos].kind != KMinus && ts[pos].kind != KNot then ReadPostfix(ts, pos, depth, cap)
    else if depth >= cap then Failed(Diag(TooComplex, ts[pos].at), pos)
    else
      match ReadUnary(ts, pos + 1, depth + 1, cap)
      case Failed(x, at) => Failed(x, at)
      case Got(c, p) => Got(Prefix(ts[pos], c), p)
  }

  /** postfix := primary ('.' ident)* */
  function ReadPostfix(ts: seq<Token>, pos: nat, depth: nat, cap: nat): (r: Read<Cst>)
    requires Ended(ts) && pos < |ts|
    ensures if r.Got? then pos < r.pos < |ts| else pos <= r.index < |ts|
    decreases |ts| - pos, 8
  {
    match ReadPrimary(ts, pos, depth, cap)
    case Failed(x, at) => Failed(x, at)
    case Got(c, p) => ReadLanes(ts, p, c)
  }

  function ReadLanes(ts: seq<Token>, pos: nat, c: Cst): (r: Read<Cst>)
    requires Ended(ts) && pos < |ts|
    ensures if r.Got? then pos <= r.pos < |ts| else pos <= r.index < |ts|
    decreases |ts| - pos
  {
    if ts[pos].kind != KDot then Got(c, pos)
    else if ts[pos + 1].kind != KIdent then Failed(Diag(ParseError, ts[pos + 1].at), pos + 1)
    else ReadLanes(ts, pos + 2, Lane(c, ts[pos], ts[pos + 1]))
  }

  function ReadPrimary(ts: seq<Token>, pos: nat, depth: nat, cap: nat): (r: Read<Cst>)
    requires Ended(ts) && pos < |ts|
    ensures if r.Got? then pos < r.pos < |ts| else pos <= r.index < |ts|
    decreases |ts| - pos, 7
  {
    if ts[pos].kind in LITERALS then Got(Literal(ts[pos]), pos + 1)
    else if ts[pos].kind == KLParen then
      if depth >= cap then Failed(Diag(TooComplex, ts[pos].at), pos)
      else
        match ReadTernary(ts, pos + 1, depth + 1, cap)
        case Failed(x, at) => Failed(x, at)
        case Got(c, p) => if ts[p].kind == KRParen then Got(Parens(ts[pos], c, ts[p]), p + 1) else Failed(Diag(ParseError, ts[p].at), p)
    else if ts[pos].kind == KIdent then ReadPathOrCall(ts, pos, depth, cap)
    else Failed(Diag(ParseError, ts[pos].at), pos)
  }

  /** path := ident ('.' ident)*, taken as far as it goes. */
  function ReadNames(ts: seq<Token>, pos: nat, names: Names): (r: (Names, nat))
    requires Ended(ts) && pos < |ts|
    ensures pos <= r.1 < |ts|
    decreases |ts| - pos
  {
    if ts[pos].kind == KDot && ts[pos + 1].kind == KIdent then ReadNames(ts, pos + 2, Dotted(names, ts[pos], ts[pos + 1]))
    else (names, pos)
  }

  function ReadPathOrCall(ts: seq<Token>, pos: nat, depth: nat, cap: nat): (r: Read<Cst>)
    requires Ended(ts) && pos < |ts| && ts[pos].kind == KIdent
    ensures if r.Got? then pos < r.pos < |ts| else pos <= r.index < |ts|
    decreases |ts| - pos, 6
  {
    var (names, p) := ReadNames(ts, pos + 1, First(ts[pos]));
    if ts[p].kind != KLParen then Got(Name(names), p)
    else if depth >= cap then Failed(Diag(TooComplex, ts[p].at), p)
    else
      match ReadArgs(ts, p + 1, depth + 1, cap)
      case Failed(x, at) => Failed(x, at)
      case Got(args, q) => Got(Apply(names, ts[p], args, ts[q - 1]), q)
  }

  /** args := (expr (',' expr)*)?, and the closing parenthesis. */
  function ReadArgs(ts: seq<Token>, pos: nat, depth: nat, cap: nat): (r: Read<Args>)
    requires Ended(ts) && pos < |ts|
    ensures if r.Got? then pos < r.pos < |ts| else pos <= r.index < |ts|
    decreases |ts| - pos, 40
  {
    if ts[pos].kind == KRParen then Got(NoArgs, pos + 1)
    else
      match ReadTernary(ts, pos, depth, cap)
      case Failed(x, at) => Failed(x, at)
      case Got(c, p) => ReadMoreArgs(ts, p, OneArg(c), depth, cap)
  }

  function ReadMoreArgs(ts: seq<Token>, pos: nat, args: Args, depth: nat, cap: nat): (r: Read<Args>)
    requires Ended(ts) && pos < |ts|
    ensures if r.Got? then pos < r.pos < |ts| else pos <= r.index < |ts|
    decreases |ts| - pos, 0
  {
    if ts[pos].kind == KRParen then Got(args, pos + 1)
    else if ts[pos].kind != KComma then Failed(Diag(ParseError, ts[pos].at), pos)
    else
      match ReadTernary(ts, pos + 1, depth, cap)
      case Failed(x, at) => Failed(x, at)
      case Got(c, p) => ReadMoreArgs(ts, p, MoreArgs(args, ts[pos], c), depth, cap)
  }

  /** A whole token list: the expression, then the end token. */
  function ReadAll(ts: seq<Token>, cap: nat): (r: Read<Cst>)
    requires Ended(ts)
    ensures if r.Got? then r.pos < |ts| else r.index < |ts|
  {
    match ReadTernary(ts, 0, 0, cap)
    case Failed(x, at) => Failed(x, at)
    case Got(c, p) => if ts[p].kind == KEnd then Got(c, p) else Failed(Diag(ParseError, ts[p].at), p)
  }
}
