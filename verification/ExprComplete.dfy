/** The other direction: what the grammar derives is read as it derives, or is too deep; and no token
    list derives two trees. */
module ExprComplete {
  import opened Basics
  import opened ExprValue
  import opened ExprLang
  import opened ExprGrammar
  import opened ExprReading
  import opened ExprAccepts

  /** These tokens stand at this position, with at least one more behind them. */
  predicate Here(ts: seq<Token>, pos: nat, s: seq<Token>) {
    pos + |s| < |ts| && ts[pos..pos + |s|] == s
  }

  lemma {:induction false} HereTwo(ts: seq<Token>, pos: nat, a: seq<Token>, b: seq<Token>)
    requires Here(ts, pos, a + b)
    ensures Here(ts, pos, a) && Here(ts, pos + |a|, b)
  {
    assert ts[pos..pos + |a|] == (a + b)[..|a|] == a;
    assert ts[pos + |a|..pos + |a| + |b|] == (a + b)[|a|..] == b;
  }

  lemma {:induction false} HereOne(ts: seq<Token>, pos: nat, s: seq<Token>)
    requires Here(ts, pos, s) && s != []
    ensures ts[pos] == s[0]
  {
    assert ts[pos..pos + |s|][0] == ts[pos];
  }

  /** Three runs with a token between each. */
  lemma {:induction false} HereThree(ts: seq<Token>, pos: nat, a: seq<Token>, x: Token, b: seq<Token>, y: Token, c: seq<Token>)
    requires Here(ts, pos, a + [x] + b + [y] + c)
    ensures var i := pos + |a|;
            var j := i + 1 + |b|;
            && Here(ts, pos, a) && ts[i] == x && Here(ts, i + 1, b) && ts[j] == y && Here(ts, j + 1, c)
            && j + 1 + |c| == pos + |a + [x] + b + [y] + c|
  {
    HereTwo(ts, pos, a + [x] + b + [y], c);
    HereTwo(ts, pos, a + [x] + b, [y]);
    HereTwo(ts, pos, a + [x], b);
    HereTwo(ts, pos, a, [x]);
    HereOne(ts, pos + |a|, [x]);
    HereOne(ts, pos + |a + [x] + b|, [y]);
  }

  /** Two runs with a token between them. */
  lemma {:induction false} HereInfix(ts: seq<Token>, pos: nat, a: seq<Token>, x: Token, b: seq<Token>)
    requires Here(ts, pos, a + [x] + b)
    ensures var i := pos + |a|;
            Here(ts, pos, a) && ts[i] == x && Here(ts, i + 1, b) && i + 1 + |b| == pos + |a + [x] + b|
  {
    HereTwo(ts, pos, a + [x], b);
    HereTwo(ts, pos, a, [x]);
    HereOne(ts, pos + |a|, [x]);
  }

  /** A run and two tokens. */
  lemma {:induction false} HerePair(ts: seq<Token>, pos: nat, a: seq<Token>, x: Token, y: Token)
    requires Here(ts, pos, a + [x, y])
    ensures Here(ts, pos, a) && ts[pos + |a|] == x && ts[pos + |a| + 1] == y
  {
    HereTwo(ts, pos, a, [x, y]);
    assert ts[pos + |a|..pos + |a| + 2][1] == ts[pos + |a| + 1];
    HereOne(ts, pos + |a|, [x, y]);
  }

  /** A token that does not carry a production of this level on. */
  predicate Stops(k: TokenKind, level: nat) {
    && k != KDot && k != KLParen && (level <= 6 ==> OpLevel(k) == 0 || OpLevel(k) < level) && (level == 0 ==> k != KQuestion)
  }

  lemma {:induction false} StopKinds()
    ensures Stops(KQuestion, 1) && Stops(KColon, 0) && Stops(KRParen, 0) && Stops(KComma, 0)
  {
  }

  lemma {:induction false} StopsTighter(k: TokenKind, level: nat, tighter: nat)
    requires Stops(k, level) && level <= tighter
    ensures Stops(k, tighter)
  {
  }

  /** Read as derived where it fits under the cap, refused as too deep where not. */
  predicate Comes(r: Read<Cst>, fits: bool, c: Cst, end: nat) {
    if fits then r == Got(c, end) else r.Failed? && r.diag.code == TooComplex
  }

  // ---- first tokens ---------------------------------------------------------------------------------

  lemma {:induction false} NamesFirst(n: Names)
    requires NamesOk(n)
    ensures NameTokens(n)[0].kind == KIdent && NameTokens(n)[0] == Head(n)
  {
    if n.Dotted? {
      NamesFirst(n.front);
    }
  }

  lemma {:induction false} FirstKind(c: Cst)
    requires Derives(c, 0)
    ensures var k := Tokens(c)[0].kind;
            && (k in LITERALS || k == KLParen || k == KIdent || k == KMinus || k == KNot)
            && (Level(c) >= POSTFIX ==> k != KMinus && k != KNot)
    decreases c
  {
    match c
    case Name(names) => NamesFirst(names);
    case Apply(names, _, _, _) => NamesFirst(names);
    case Lane(base, _, _) =>
      DerivesLower(base, POSTFIX, 0);
      FirstKind(base);
    case Infix(left, op, _) =>
      DerivesLower(left, OpLevel(op.kind), 0);
      FirstKind(left);
    case Conditional(k, _, _, _, _) =>
      DerivesLower(k, 1, 0);
      FirstKind(k);
    case _ =>
  }

  // ---- one step of each reading ---------------------------------------------------------------------------

  lemma {:induction false} ChainStep(ts: seq<Token>, i: nat, c: Cst, level: nat, depth: nat, cap: nat)
    requires Ended(ts) && i < |ts| && 1 <= level <= 6 && OpLevel(ts[i].kind) == level
    ensures i + 1 < |ts|
    ensures ReadChain(ts, i, c, level, depth, cap)
            == match ReadOperand(ts, i + 1, level, depth, cap)
               case Failed(x, at) => Failed(x, at)
               case Got(right, p) => ReadChain(ts, p, Infix(c, ts[i], right), level, depth, cap)
  {
  }

  lemma {:induction false} CommaStep(ts: seq<Token>, i: nat, args: Args, depth: nat, cap: nat)
    requires Ended(ts) && i < |ts| && ts[i].kind == KComma
    ensures i + 1 < |ts|
    ensures ReadMoreArgs(ts, i, args, depth, cap)
            == match ReadTernary(ts, i + 1, depth, cap)
               case Failed(x, at) => Failed(x, at)
               case Got(c, p) => ReadMoreArgs(ts, p, MoreArgs(args, ts[i], c), depth, cap)
  {
  }

  lemma {:induction false} BranchesStep(ts: seq<Token>, i: nat, c: Cst, j: nat, depth: nat, cap: nat)
    requires Ended(ts) && i < j < |ts| && ts[i].kind == KQuestion && ts[j].kind == KColon
    ensures i + 1 < |ts| && j + 1 < |ts|
    ensures var ra, rb := ReadTernary(ts, i + 1, depth, cap), ReadTernary(ts, j + 1, depth, cap);
            var r := ReadBranches(ts, i, c, depth, cap);
            && (ra.Failed? ==> r == ra)
            && (ra.Got? && ra.pos == j && rb.Failed? ==> r == rb)
            && (ra.Got? && ra.pos == j && rb.Got? ==> r == Got(Conditional(c, ts[i], ra.value, ts[j], rb.value), rb.pos))
  {
    hide ReadTernary;
  }

  lemma {:induction false} ParensStep(ts: seq<Token>, pos: nat, i: nat, depth: nat, cap: nat)
    requires Ended(ts) && pos < i < |ts| && ts[pos].kind == KLParen && ts[i].kind == KRParen
    ensures var r := ReadPrimary(ts, pos, depth, cap);
            && (depth >= cap ==> r == Failed(Diag(TooComplex, ts[pos].at), pos))
            && (depth < cap ==>
                  var inner := ReadTernary(ts, pos + 1, depth + 1, cap);
                  && (inner.Failed? ==> r == inner)
                  && (inner.Got? && inner.pos == i ==> r == Got(Parens(ts[pos], inner.value, ts[i]), i + 1)))
  {
    hide ReadTernary;
  }

  lemma {:induction false} CallStep(ts: seq<Token>, pos: nat, i: nat, names: Names, depth: nat, cap: nat)
    requires Ended(ts) && pos + 1 <= i < |ts| && ts[pos].kind == KIdent && ts[i].kind == KLParen
    requires ReadNames(ts, pos + 1, First(ts[pos])) == (names, i)
    ensures i + 1 < |ts|
    ensures var r := ReadPathOrCall(ts, pos, depth, cap);
            && (depth >= cap ==> r == Failed(Diag(TooComplex, ts[i].at), i))
            && (depth < cap ==>
                  var rest := ReadArgs(ts, i + 1, depth + 1, cap);
                  && (rest.Failed? ==> r == Failed(rest.diag, rest.index))
                  && (rest.Got? ==> r == Got(Apply(names, ts[i], rest.value, ts[rest.pos - 1]), rest.pos)))
  {
    hide ReadArgs, ReadNames;
  }

  lemma {:induction false} NeedParens(c: Cst)
    requires c.Parens?
    ensures Nesting(c, PRIMARY) == 1 + Nesting(c.inner, 0)
  {
  }

  lemma {:induction false} NeedApply(c: Cst)
    requires c.Apply?
    ensures Nesting(c, PRIMARY) == 1 + ArgsNesting(c.args)
  {
  }

  // ---- production by production -------------------------------------------------------------------------

  lemma {:induction false} TernaryComplete(ts: seq<Token>, pos: nat, c: Cst, depth: nat, cap: nat)
    requires depth <= cap && Ended(ts) && Derives(c, 0) && Here(ts, pos, Tokens(c)) && Stops(ts[pos + |Tokens(c)|].kind, 0)
    ensures Comes(ReadTernary(ts, pos, depth, cap), depth + Nesting(c, 0) <= cap, c, pos + |Tokens(c)|)
    decreases c, 60
  {
    hide *;
    var end := pos + |Tokens(c)|;
    InBounds(ts, pos, Tokens(c));
    AllComes(c, end);
    NeedTernary(c);
    TernaryStep(ts, pos, depth, cap);
    if depth < cap {
      if c.Conditional? {
        ConditionalComplete(ts, pos, c, depth + 1, cap);
      } else {
        Unconditional(c);
        StopsTighter(ts[end].kind, 0, 1);
        NoQuestion(ts[end].kind);
        LeftComplete(ts, pos, c, 1, depth + 1, cap);
        ComesIs(ReadLeft(ts, pos, 1, depth + 1, cap), depth + 1 + Nesting(c, 1) <= cap, c, end);
      }
    }
  }

  lemma {:induction false} ConditionalComplete(ts: seq<Token>, pos: nat, c: Cst, depth: nat, cap: nat)
    requires depth <= cap && Ended(ts) && c.Conditional? && Derives(c, 0) && Here(ts, pos, Tokens(c)) && Stops(ts[pos + |Tokens(c)|].kind, 0)
    ensures pos < |ts|
    ensures var need := Max(Nesting(c.c, 1), Max(Nesting(c.a, 0), Nesting(c.b, 0)));
            Comes(match ReadLeft(ts, pos, 1, depth, cap)
                  case Failed(x, at) => Failed(x, at)
                  case Got(k, p) => if ts[p].kind == KQuestion then ReadBranches(ts, p, k, depth, cap) else Got(k, p),
                  depth + need <= cap, c, pos + |Tokens(c)|)
    decreases c, 55
  {
    hide *;
    ConditionalParts(ts, pos, c);
    StopKinds();
    var i := pos + |Tokens(c.c)|;
    var j := i + 1 + |Tokens(c.a)|;
    LeftComplete(ts, pos, c.c, 1, depth, cap);
    TernaryComplete(ts, i + 1, c.a, depth, cap);
    TernaryComplete(ts, j + 1, c.b, depth, cap);
    BranchesStep(ts, i, c.c, j, depth, cap);
    ComesIs(ReadLeft(ts, pos, 1, depth, cap), depth + Nesting(c.c, 1) <= cap, c.c, i);
    ComesIs(ReadTernary(ts, i + 1, depth, cap), depth + Nesting(c.a, 0) <= cap, c.a, j);
    ComesIs(ReadTernary(ts, j + 1, depth, cap), depth + Nesting(c.b, 0) <= cap, c.b, pos + |Tokens(c)|);
    MaxIs(Nesting(c.c, 1), Nesting(c.a, 0), Nesting(c.b, 0));
    AllComes(c, pos + |Tokens(c)|);
  }

  lemma {:induction false} ConditionalParts(ts: seq<Token>, pos: nat, c: Cst)
    requires c.Conditional? && Derives(c, 0) && Here(ts, pos, Tokens(c))
    ensures var i := pos + |Tokens(c.c)|;
            var j := i + 1 + |Tokens(c.a)|;
            && Here(ts, pos, Tokens(c.c)) && i < j < |ts| && ts[i] == c.question && Here(ts, i + 1, Tokens(c.a)) && ts[j] == c.colon
            && Here(ts, j + 1, Tokens(c.b)) && j + 1 + |Tokens(c.b)| == pos + |Tokens(c)| < |ts|
    ensures Derives(c.c, 1) && c.question.kind == KQuestion && Derives(c.a, 0) && c.colon.kind == KColon && Derives(c.b, 0)
  {
    HereThree(ts, pos, Tokens(c.c), c.question, Tokens(c.a), c.colon, Tokens(c.b));
  }

  lemma {:induction false} LeftComplete(ts: seq<Token>, pos: nat, c: Cst, level: nat, depth: nat, cap: nat)
    requires depth <= cap && Ended(ts) && 1 <= level <= 6 && Derives(c, level) && Here(ts, pos, Tokens(c)) && Stops(ts[pos + |Tokens(c)|].kind, level)
    ensures Comes(ReadLeft(ts, pos, level, depth, cap), depth + Nesting(c, level) <= cap, c, pos + |Tokens(c)|)
    decreases c, 3 * (10 - level) + 2
  {
    if depth < cap {
      ThroughComplete(ts, pos, c, level, depth + 1, cap);
      hide ReadThrough, ReadOperand, Derives, Tokens;
    }
  }

  /** A chain is read operand by operand. */
  lemma {:induction false} ThroughComplete(ts: seq<Token>, pos: nat, c: Cst, level: nat, depth: nat, cap: nat)
    requires depth <= cap && Ended(ts) && 1 <= level <= 6 && Derives(c, level) && Here(ts, pos, Tokens(c)) && Stops(ts[pos + |Tokens(c)|].kind, level + 1)
    ensures pos < |ts|
    ensures var r := ReadThrough(ts, pos, level, depth, cap);
            if depth + Spine(c, level) <= cap then r == ReadChain(ts, pos + |Tokens(c)|, c, level, depth, cap)
            else r.Failed? && r.diag.code == TooComplex
    decreases c, 3 * (10 - level) + 1
  {
    if c.Infix? && OpLevel(c.op.kind) == level {
      LinkComplete(ts, pos, c, level, depth, cap);
    } else {
      hide *;
      SpineEnds(c, level);
      OperandComplete(ts, pos, c, level, depth, cap);
      SingleComplete(ts, pos, c, level, depth, cap);
    }
  }

  /** A chain of one operand. */
  lemma {:induction false} SingleComplete(ts: seq<Token>, pos: nat, c: Cst, level: nat, depth: nat, cap: nat)
    requires depth <= cap && Ended(ts) && 1 <= level <= 6 && Derives(c, level) && Here(ts, pos, Tokens(c)) && Stops(ts[pos + |Tokens(c)|].kind, level + 1)
    requires !(c.Infix? && OpLevel(c.op.kind) == level)
    requires Comes(ReadOperand(ts, pos, level, depth, cap), depth + Nesting(c, level + 1) <= cap, c, pos + |Tokens(c)|)
    ensures pos < |ts|
    ensures var r := ReadThrough(ts, pos, level, depth, cap);
            if depth + Spine(c, level) <= cap then r == ReadChain(ts, pos + |Tokens(c)|, c, level, depth, cap)
            else r.Failed? && r.diag.code == TooComplex
  {
    hide *;
    SpineEnds(c, level);
    InBounds(ts, pos, Tokens(c));
    ThroughStep(ts, pos, level, depth, cap);
    ComesIs(ReadOperand(ts, pos, level, depth, cap), depth + Nesting(c, level + 1) <= cap, c, pos + |Tokens(c)|);
  }

  lemma {:induction false} SpineEnds(c: Cst, level: nat)
    requires 1 <= level <= 6 && Derives(c, level) && !(c.Infix? && OpLevel(c.op.kind) == level)
    ensures Derives(c, level + 1) && Spine(c, level) == Nesting(c, level + 1)
  {
  }

  lemma {:induction false} ThroughStep(ts: seq<Token>, pos: nat, level: nat, depth: nat, cap: nat)
    requires Ended(ts) && pos < |ts| && 1 <= level <= 6
    ensures var r := ReadOperand(ts, pos, level, depth, cap);
            ReadThrough(ts, pos, level, depth, cap) == if r.Got? then ReadChain(ts, r.pos, r.value, level, depth, cap) else r
  {
    hide ReadOperand, ReadChain;
  }

  /** One operator more. */
  lemma {:induction false} LinkComplete(ts: seq<Token>, pos: nat, c: Cst, level: nat, depth: nat, cap: nat)
    requires depth <= cap && Ended(ts) && 1 <= level <= 6 && c.Infix? && OpLevel(c.op.kind) == level && Derives(c, level)
    requires Here(ts, pos, Tokens(c)) && Stops(ts[pos + |Tokens(c)|].kind, level + 1)
    ensures pos < |ts|
    ensures var r := ReadThrough(ts, pos, level, depth, cap);
            if depth + Spine(c, level) <= cap then r == ReadChain(ts, pos + |Tokens(c)|, c, level, depth, cap)
            else r.Failed? && r.diag.code == TooComplex
    decreases c, 3 * (10 - level)
  {
    hide *;
    InfixParts(ts, pos, c);
    var i := pos + |Tokens(c.left)|;
    ThroughComplete(ts, pos, c.left, level, depth, cap);
    OperandComplete(ts, i + 1, c.right, level, depth, cap);
    ChainStep(ts, i, c.left, level, depth, cap);
    ComesIs(ReadOperand(ts, i + 1, level, depth, cap), depth + Nesting(c.right, level + 1) <= cap, c.right, pos + |Tokens(c)|);
    SpineLink(c, level);
  }

  lemma {:induction false} InfixParts(ts: seq<Token>, pos: nat, c: Cst)
    requires c.Infix? && Here(ts, pos, Tokens(c)) && OpLevel(c.op.kind) > 0 && Derives(c, OpLevel(c.op.kind))
    ensures var i := pos + |Tokens(c.left)|;
            && Here(ts, pos, Tokens(c.left)) && i < |ts| && ts[i] == c.op && Here(ts, i + 1, Tokens(c.right))
            && i + 1 + |Tokens(c.right)| == pos + |Tokens(c)| < |ts|
    ensures Derives(c.left, OpLevel(c.op.kind)) && Derives(c.right, OpLevel(c.op.kind) + 1)
    ensures Stops(c.op.kind, OpLevel(c.op.kind) + 1)
  {
    HereInfix(ts, pos, Tokens(c.left), c.op, Tokens(c.right));
  }

  lemma {:induction false} OperandComplete(ts: seq<Token>, pos: nat, c: Cst, level: nat, depth: nat, cap: nat)
    requires depth <= cap && Ended(ts) && 1 <= level <= 6 && Derives(c, level + 1) && Here(ts, pos, Tokens(c)) && Stops(ts[pos + |Tokens(c)|].kind, level + 1)
    ensures Comes(ReadOperand(ts, pos, level, depth, cap), depth + Nesting(c, level + 1) <= cap, c, pos + |Tokens(c)|)
    decreases c, 3 * (10 - level)
  {
    hide Derives, Tokens, Nesting, Comes, ReadLeft, ReadUnary;
    if level < 6 {
      LeftComplete(ts, pos, c, level + 1, depth, cap);
    } else {
      UnaryComplete(ts, pos, c, depth, cap);
    }
  }

  lemma {:induction false} UnaryComplete(ts: seq<Token>, pos: nat, c: Cst, depth: nat, cap: nat)
    requires depth <= cap && Ended(ts) && Derives(c, UNARY) && Here(ts, pos, Tokens(c)) && Stops(ts[pos + |Tokens(c)|].kind, UNARY)
    ensures Comes(ReadUnary(ts, pos, depth, cap), depth + Nesting(c, UNARY) <= cap, c, pos + |Tokens(c)|)
    decreases c, 9
  {
    hide *;
    var end := pos + |Tokens(c)|;
    InBounds(ts, pos, Tokens(c));
    AllComes(c, end);
    Levels();
    NeedUnary(c);
    UnaryStep(ts, pos, depth, cap);
    if c.Prefix? {
      PrefixParts(ts, pos, c);
      if depth < cap {
        UnaryComplete(ts, pos + 1, c.operand, depth + 1, cap);
        ComesIs(ReadUnary(ts, pos + 1, depth + 1, cap), depth + 1 + Nesting(c.operand, 7) <= cap, c.operand, end);
      }
    } else {
      Unprefixed(ts, pos, c);
      PostfixComplete(ts, pos, c, depth, cap);
      PostfixStops(ts, pos, c);
    }
  }

  lemma {:induction false} PostfixStops(ts: seq<Token>, pos: nat, c: Cst)
    requires Ended(ts) && pos + |Tokens(c)| < |ts| && Stops(ts[pos + |Tokens(c)|].kind, UNARY)
    ensures ReadLanes(ts, pos + |Tokens(c)|, c) == Got(c, pos + |Tokens(c)|)
  {
    hide Tokens, OpLevel, PRIMARY;
  }

  /** Lanes are read one by one after the primary. */
  lemma {:induction false} PostfixComplete(ts: seq<Token>, pos: nat, c: Cst, depth: nat, cap: nat)
    requires depth <= cap && Ended(ts) && Derives(c, POSTFIX) && Here(ts, pos, Tokens(c))
    requires c.Name? ==> Stops(ts[pos + |Tokens(c)|].kind, PRIMARY)
    ensures pos < |ts|
    ensures var r := ReadPostfix(ts, pos, depth, cap);
            if depth + Nesting(c, POSTFIX) <= cap then r == ReadLanes(ts, pos + |Tokens(c)|, c) else r.Failed? && r.diag.code == TooComplex
    decreases c, 8
  {
    hide *;
    InBounds(ts, pos, Tokens(c));
    PostfixStep(ts, pos, depth, cap);
    Levels();
    NeedPostfix(c);
    if c.Lane? {
      LaneParts(ts, pos, c);
      var i := pos + |Tokens(c.base)|;
      PostfixComplete(ts, pos, c.base, depth, cap);
      LaneStep(ts, i, c.base);
    } else {
      NoLane(c);
      PrimaryComplete(ts, pos, c, depth, cap);
      ComesIs(ReadPrimary(ts, pos, depth, cap), depth + Nesting(c, 9) <= cap, c, pos + |Tokens(c)|);
    }
  }

  lemma {:induction false} PrimaryComplete(ts: seq<Token>, pos: nat, c: Cst, depth: nat, cap: nat)
    requires depth <= cap && Ended(ts) && Derives(c, PRIMARY) && Here(ts, pos, Tokens(c))
    requires c.Name? ==> Stops(ts[pos + |Tokens(c)|].kind, PRIMARY)
    ensures Comes(ReadPrimary(ts, pos, depth, cap), depth + Nesting(c, PRIMARY) <= cap, c, pos + |Tokens(c)|)
    decreases c, 7
  {
    HereOne(ts, pos, Tokens(c));
    PrimaryStep(ts, pos, depth, cap);
    hide Here, ReadTernary, ReadPathOrCall, ReadPrimary, OpLevel;
    match c
    case Literal(_) => LiteralStep(ts, pos, c, depth, cap);
    case Parens(open, inner, close) => ParensComplete(ts, pos, c, depth, cap);
    case Name(names) =>
      NamesFirst(names);
      NameComplete(ts, pos, names, depth, cap);
    case Apply(names, _, _, _) =>
      NamesFirst(names);
      ApplyComplete(ts, pos, c, depth, cap);
  }

  lemma {:induction false} PrimaryStep(ts: seq<Token>, pos: nat, depth: nat, cap: nat)
    requires Ended(ts) && pos < |ts|
    ensures ts[pos].kind in LITERALS ==> ReadPrimary(ts, pos, depth, cap) == Got(Literal(ts[pos]), pos + 1)
    ensures ts[pos].kind == KIdent ==> ReadPrimary(ts, pos, depth, cap) == ReadPathOrCall(ts, pos, depth, cap)
  {
    hide ReadTernary, ReadPathOrCall;
  }

  lemma {:induction false} LiteralStep(ts: seq<Token>, pos: nat, c: Cst, depth: nat, cap: nat)
    requires depth <= cap && c.Literal? && Derives(c, PRIMARY) && Tokens(c) == [c.t]
    ensures c.t.kind in LITERALS && Nesting(c, PRIMARY) == 0 && Comes(Got(c, pos + 1), depth + Nesting(c, PRIMARY) <= cap, c, pos + |Tokens(c)|)
  {
  }

  lemma {:induction false} ParensComplete(ts: seq<Token>, pos: nat, c: Cst, depth: nat, cap: nat)
    requires depth <= cap && Ended(ts) && c.Parens? && Derives(c, PRIMARY) && Here(ts, pos, Tokens(c))
    ensures Comes(ReadPrimary(ts, pos, depth, cap), depth + Nesting(c, PRIMARY) <= cap, c, pos + |Tokens(c)|)
    decreases c, 6
  {
    hide *;
    ParensParts(ts, pos, c);
    StopKinds();
    NeedParens(c);
    var i := pos + 1 + |Tokens(c.inner)|;
    ParensStep(ts, pos, i, depth, cap);
    if depth < cap {
      TernaryComplete(ts, pos + 1, c.inner, depth + 1, cap);
      ComesIs(ReadTernary(ts, pos + 1, depth + 1, cap), depth + 1 + Nesting(c.inner, 0) <= cap, c.inner, i);
    }
    AllComes(c, i + 1);
  }

  lemma {:induction false} ParensParts(ts: seq<Token>, pos: nat, c: Cst)
    requires c.Parens? && Derives(c, PRIMARY) && Here(ts, pos, Tokens(c))
    ensures var i := pos + 1 + |Tokens(c.inner)|;
            && i + 1 == pos + |Tokens(c)| < |ts| && ts[pos] == c.open && Here(ts, pos + 1, Tokens(c.inner)) && ts[i] == c.close
    ensures c.open.kind == KLParen && c.close.kind == KRParen && Derives(c.inner, 0)
  {
    HereTwo(ts, pos, [c.open] + Tokens(c.inner), [c.close]);
    HereTwo(ts, pos, [c.open], Tokens(c.inner));
    HereOne(ts, pos, [c.open]);
    HereOne(ts, pos + 1 + |Tokens(c.inner)|, [c.close]);
  }

  /** A path's names are read one by one. */
  lemma {:induction false} NamesComplete(ts: seq<Token>, pos: nat, names: Names)
    requires Ended(ts) && NamesOk(names) && Here(ts, pos, NameTokens(names))
    ensures pos + 1 < |ts| && ts[pos].kind == KIdent
    ensures ReadNames(ts, pos + 1, First(ts[pos])) == ReadNames(ts, pos + |NameTokens(names)|, names)
    decreases names
  {
    HereOne(ts, pos, NameTokens(names));
    if names.Dotted? {
      HerePair(ts, pos, NameTokens(names.front), names.dot, names.ident);
      NamesComplete(ts, pos, names.front);
    }
  }

  lemma {:induction false} NameComplete(ts: seq<Token>, pos: nat, names: Names, depth: nat, cap: nat)
    requires depth <= cap && Ended(ts) && NamesOk(names) && Here(ts, pos, NameTokens(names)) && Stops(ts[pos + |NameTokens(names)|].kind, PRIMARY)
    ensures pos < |ts| && ts[pos].kind == KIdent
    ensures ReadPathOrCall(ts, pos, depth, cap) == Got(Name(names), pos + |NameTokens(names)|)
  {
    NamesComplete(ts, pos, names);
  }

  lemma {:induction false} ApplyComplete(ts: seq<Token>, pos: nat, c: Cst, depth: nat, cap: nat)
    requires depth <= cap && Ended(ts) && c.Apply? && Derives(c, PRIMARY) && Here(ts, pos, Tokens(c))
    ensures pos < |ts| && ts[pos].kind == KIdent
    ensures Comes(ReadPathOrCall(ts, pos, depth, cap), depth + Nesting(c, PRIMARY) <= cap, c, pos + |Tokens(c)|)
    decreases c, 6
  {
    hide *;
    ApplyParts(ts, pos, c);
    NeedApply(c);
    var i := pos + |NameTokens(c.names)|;
    NamesComplete(ts, pos, c.names);
    NamesDone(ts, i, c.names);
    CallStep(ts, pos, i, c.names, depth, cap);
    if depth < cap {
      CallComplete(ts, i + 1, c.args, c.close, depth + 1, cap);
    }
    AllComes(c, pos + |Tokens(c)|);
  }

  lemma {:induction false} ApplyParts(ts: seq<Token>, pos: nat, c: Cst)
    requires c.Apply? && Derives(c, PRIMARY) && Here(ts, pos, Tokens(c))
    ensures var i := pos + |NameTokens(c.names)|;
            var j := i + 1 + |ArgTokens(c.args)|;
            && Here(ts, pos, NameTokens(c.names)) && i < j < |ts| && ts[i] == c.open && Here(ts, i + 1, ArgTokens(c.args)) && ts[j] == c.close
            && j + 1 == pos + |Tokens(c)| < |ts|
    ensures NamesOk(c.names) && c.open.kind == KLParen && DerivesArgs(c.args) && c.close.kind == KRParen
  {
    var n, a := NameTokens(c.names), ArgTokens(c.args);
    assert Tokens(c) == n + [c.open] + a + [c.close] + [];
    HereThree(ts, pos, n, c.open, a, c.close, []);
  }

  /** The arguments and the closing parenthesis. */
  lemma {:induction false} CallComplete(ts: seq<Token>, pos: nat, args: Args, close: Token, depth: nat, cap: nat)
    requires depth <= cap && Ended(ts) && DerivesArgs(args) && Here(ts, pos, ArgTokens(args)) && ts[pos + |ArgTokens(args)|] == close && close.kind == KRParen
    ensures var r := ReadArgs(ts, pos, depth, cap);
            if depth + ArgsNesting(args) <= cap then r == Got(args, pos + |ArgTokens(args)| + 1)
            else r.Failed? && r.diag.code == TooComplex
    decreases args, 61
  {
    if !args.NoArgs? {
      ArgsComplete(ts, pos, args, depth, cap);
    }
  }

  /** Arguments are read one by one. */
  lemma {:induction false} ArgsComplete(ts: seq<Token>, pos: nat, args: Args, depth: nat, cap: nat)
    requires depth <= cap && Ended(ts) && DerivesArgs(args) && !args.NoArgs? && Here(ts, pos, ArgTokens(args))
    requires var k := ts[pos + |ArgTokens(args)|].kind; k == KComma || k == KRParen
    ensures pos < |ts|
    ensures var r := ReadArgs(ts, pos, depth, cap);
            if depth + ArgsNesting(args) <= cap then r == ReadMoreArgs(ts, pos + |ArgTokens(args)|, args, depth, cap)
            else r.Failed? && r.diag.code == TooComplex
    decreases args, 60
  {
    if args.OneArg? {
      FirstArgComplete(ts, pos, args, depth, cap);
    } else {
      MoreArgsComplete(ts, pos, args, depth, cap);
    }
  }

  lemma {:induction false} FirstArgComplete(ts: seq<Token>, pos: nat, args: Args, depth: nat, cap: nat)
    requires depth <= cap && Ended(ts) && args.OneArg? && DerivesArgs(args) && Here(ts, pos, ArgTokens(args))
    requires var k := ts[pos + |ArgTokens(args)|].kind; k == KComma || k == KRParen
    ensures pos < |ts|
    ensures var r := ReadArgs(ts, pos, depth, cap);
            if depth + ArgsNesting(args) <= cap then r == ReadMoreArgs(ts, pos + |ArgTokens(args)|, args, depth, cap)
            else r.Failed? && r.diag.code == TooComplex
    decreases args, 59
  {
    hide *;
    OneArgParts(ts, pos, args);
    StopKinds();
    InBounds(ts, pos, Tokens(args.c));
    ArgStep(ts, pos, depth, cap);
    TernaryComplete(ts, pos, args.c, depth, cap);
    ComesIs(ReadTernary(ts, pos, depth, cap), depth + Nesting(args.c, 0) <= cap, args.c, pos + |Tokens(args.c)|);
  }

  lemma {:induction false} OneArgParts(ts: seq<Token>, pos: nat, args: Args)
    requires args.OneArg? && DerivesArgs(args) && Here(ts, pos, ArgTokens(args))
    ensures Derives(args.c, 0) && ArgTokens(args) == Tokens(args.c) && ArgsNesting(args) == Nesting(args.c, 0)
    ensures pos < |ts| && ts[pos].kind != KRParen
  {
    HereOne(ts, pos, Tokens(args.c));
    FirstKind(args.c);
  }

  lemma {:induction false} ArgStep(ts: seq<Token>, pos: nat, depth: nat, cap: nat)
    requires Ended(ts) && pos < |ts| && ts[pos].kind != KRParen
    ensures ReadArgs(ts, pos, depth, cap)
            == match ReadTernary(ts, pos, depth, cap)
               case Failed(x, at) => Failed(x, at)
               case Got(c, p) => ReadMoreArgs(ts, p, OneArg(c), depth, cap)
  {
    hide ReadTernary, ReadMoreArgs;
  }

  lemma {:induction false} MoreArgsComplete(ts: seq<Token>, pos: nat, args: Args, depth: nat, cap: nat)
    requires depth <= cap && Ended(ts) && args.MoreArgs? && DerivesArgs(args) && Here(ts, pos, ArgTokens(args))
    requires var k := ts[pos + |ArgTokens(args)|].kind; k == KComma || k == KRParen
    ensures pos < |ts|
    ensures var r := ReadArgs(ts, pos, depth, cap);
            if depth + ArgsNesting(args) <= cap then r == ReadMoreArgs(ts, pos + |ArgTokens(args)|, args, depth, cap)
            else r.Failed? && r.diag.code == TooComplex
    decreases args, 59
  {
    hide *;
    MoreArgsParts(ts, pos, args);
    NeedMore(args);
    StopKinds();
    var i := pos + |ArgTokens(args.front)|;
    ArgsComplete(ts, pos, args.front, depth, cap);
    TernaryComplete(ts, i + 1, args.c, depth, cap);
    CommaStep(ts, i, args.front, depth, cap);
    ComesIs(ReadTernary(ts, i + 1, depth, cap), depth + Nesting(args.c, 0) <= cap, args.c, i + 1 + |Tokens(args.c)|);
  }

  lemma {:induction false} NeedMore(args: Args)
    requires args.MoreArgs?
    ensures ArgsNesting(args) == if ArgsNesting(args.front) < Nesting(args.c, 0) then Nesting(args.c, 0) else ArgsNesting(args.front)
  {
  }

  lemma {:induction false} InBounds(ts: seq<Token>, pos: nat, s: seq<Token>)
    requires Here(ts, pos, s)
    ensures pos <= pos + |s| < |ts|
  {
  }

  lemma {:induction false} NeedTernary(c: Cst)
    ensures Nesting(c, 0) == 1 + if c.Conditional? then Max(Nesting(c.c, 1), Max(Nesting(c.a, 0), Nesting(c.b, 0))) else Nesting(c, 1)
  {
  }

  lemma {:induction false} Unconditional(c: Cst)
    requires Derives(c, 0) && !c.Conditional?
    ensures Derives(c, 1)
  {
  }

  lemma {:induction false} NoQuestion(k: TokenKind)
    requires Stops(k, 0)
    ensures k != KQuestion
  {
  }

  lemma {:induction false} TernaryStep(ts: seq<Token>, pos: nat, depth: nat, cap: nat)
    requires Ended(ts) && pos < |ts|
    ensures ReadTernary(ts, pos, depth, cap)
            == if depth >= cap then Failed(Diag(TooComplex, ts[pos].at), pos)
               else
                 match ReadLeft(ts, pos, 1, depth + 1, cap)
                 case Failed(x, at) => Failed(x, at)
                 case Got(c, p) => if ts[p].kind == KQuestion then ReadBranches(ts, p, c, depth + 1, cap) else Got(c, p)
  {
    hide ReadLeft, ReadBranches;
  }

  lemma {:induction false} Levels()
    ensures UNARY == 7 && POSTFIX == 8 && PRIMARY == 9
  {
  }

  lemma {:induction false} NeedUnary(c: Cst)
    ensures Nesting(c, 7) == if c.Prefix? then 1 + Nesting(c.operand, 7) else Nesting(c, 8)
  {
  }

  lemma {:induction false} UnaryStep(ts: seq<Token>, pos: nat, depth: nat, cap: nat)
    requires Ended(ts) && pos < |ts|
    ensures var r := ReadUnary(ts, pos, depth, cap);
            && (ts[pos].kind != KMinus && ts[pos].kind != KNot ==> r == ReadPostfix(ts, pos, depth, cap))
            && (ts[pos].kind == KMinus || ts[pos].kind == KNot ==>
                  && pos + 1 < |ts|
                  && (depth >= cap ==> r == Failed(Diag(TooComplex, ts[pos].at), pos))
                  && (depth < cap ==>
                        var inner := ReadUnary(ts, pos + 1, depth + 1, cap);
                        r == if inner.Got? then Got(Prefix(ts[pos], inner.value), inner.pos) else inner))
  {
    hide ReadPostfix;
  }

  lemma {:induction false} PrefixParts(ts: seq<Token>, pos: nat, c: Cst)
    requires c.Prefix? && Derives(c, UNARY) && Here(ts, pos, Tokens(c))
    ensures pos < |ts| && ts[pos] == c.op && (c.op.kind == KMinus || c.op.kind == KNot)
    ensures Derives(c.operand, UNARY) && Here(ts, pos + 1, Tokens(c.operand)) && pos + 1 + |Tokens(c.operand)| == pos + |Tokens(c)|
  {
    HereOne(ts, pos, Tokens(c));
    HereTwo(ts, pos, [c.op], Tokens(c.operand));
  }

  lemma {:induction false} Unprefixed(ts: seq<Token>, pos: nat, c: Cst)
    requires !c.Prefix? && Derives(c, UNARY) && Here(ts, pos, Tokens(c)) && Stops(ts[pos + |Tokens(c)|].kind, UNARY)
    ensures pos < |ts| && ts[pos].kind != KMinus && ts[pos].kind != KNot && Derives(c, POSTFIX)
    ensures c.Name? ==> Stops(ts[pos + |Tokens(c)|].kind, PRIMARY)
  {
    HereOne(ts, pos, Tokens(c));
    DerivesLower(c, UNARY, 0);
    FirstKind(c);
  }

  lemma {:induction false} NeedPostfix(c: Cst)
    ensures Nesting(c, 8) == if c.Lane? then Nesting(c.base, 8) else Nesting(c, 9)
  {
  }

  lemma {:induction false} NoLane(c: Cst)
    requires Derives(c, POSTFIX) && !c.Lane?
    ensures Derives(c, PRIMARY)
  {
  }

  lemma {:induction false} PostfixStep(ts: seq<Token>, pos: nat, depth: nat, cap: nat)
    requires Ended(ts) && pos < |ts|
    ensures var r := ReadPrimary(ts, pos, depth, cap);
            ReadPostfix(ts, pos, depth, cap) == if r.Got? then ReadLanes(ts, r.pos, r.value) else r
  {
    hide ReadPrimary, ReadLanes;
  }

  lemma {:induction false} LaneParts(ts: seq<Token>, pos: nat, c: Cst)
    requires c.Lane? && Derives(c, POSTFIX) && Here(ts, pos, Tokens(c))
    ensures var i := pos + |Tokens(c.base)|;
            && Here(ts, pos, Tokens(c.base)) && i + 2 == pos + |Tokens(c)| < |ts| && ts[i] == c.dot && ts[i + 1] == c.ident
            && ts[i].kind == KDot && ts[i + 1].kind == KIdent && !c.base.Name? && Derives(c.base, POSTFIX)
            && c == Lane(c.base, ts[i], ts[i + 1])
  {
    HerePair(ts, pos, Tokens(c.base), c.dot, c.ident);
  }

  lemma {:induction false} LaneStep(ts: seq<Token>, i: nat, c: Cst)
    requires Ended(ts) && i + 2 < |ts| && ts[i].kind == KDot && ts[i + 1].kind == KIdent
    ensures ReadLanes(ts, i, c) == ReadLanes(ts, i + 2, Lane(c, ts[i], ts[i + 1]))
  {
  }

  lemma {:induction false} NamesDone(ts: seq<Token>, i: nat, names: Names)
    requires Ended(ts) && i < |ts| && ts[i].kind == KLParen
    ensures ReadNames(ts, i, names) == (names, i)
  {
  }

  lemma {:induction false} SpineLink(c: Cst, level: nat)
    requires 1 <= level <= 6 && c.Infix? && OpLevel(c.op.kind) == level
    ensures Spine(c, level) == if Spine(c.left, level) < Nesting(c.right, level + 1) then Nesting(c.right, level + 1) else Spine(c.left, level)
  {
  }

  lemma {:induction false} MaxIs(a: nat, b: nat, c: nat)
    ensures var m := Max(a, Max(b, c)); m >= a && m >= b && m >= c && (m == a || m == b || m == c)
  {
  }

  lemma {:induction false} AllComes(c: Cst, end: nat)
    ensures Comes(Got(c, end), true, c, end)
    ensures forall x: Diag, at: nat | x.code == TooComplex :: Comes(Failed(x, at), false, c, end)
  {
  }

  lemma {:induction false} ComesIs(r: Read<Cst>, fits: bool, c: Cst, end: nat)
    ensures Comes(r, fits, c, end) <==> if fits then r == Got(c, end) else r.Failed? && r.diag.code == TooComplex
  {
  }

  lemma {:induction false} MoreArgsParts(ts: seq<Token>, pos: nat, args: Args)
    requires args.MoreArgs? && DerivesArgs(args) && Here(ts, pos, ArgTokens(args))
    ensures var i := pos + |ArgTokens(args.front)|;
            && Here(ts, pos, ArgTokens(args.front)) && i < |ts| && ts[i] == args.comma && Here(ts, i + 1, Tokens(args.c))
            && i + 1 + |Tokens(args.c)| == pos + |ArgTokens(args)| < |ts|
    ensures !args.front.NoArgs? && DerivesArgs(args.front) && args.comma.kind == KComma && Derives(args.c, 0)
  {
    HereInfix(ts, pos, ArgTokens(args.front), args.comma, Tokens(args.c));
  }

  // ---- whole token lists --------------------------------------------------------------------------------

  /** The tokens derive this tree, within the nesting cap. */
  predicate Readable(ts: seq<Token>, c: Cst, cap: nat) {
    DerivesAll(ts, c) && Nesting(c, 0) <= cap
  }

  predicate DerivesAll(ts: seq<Token>, c: Cst) {
    ts != [] && Derives(c, 0) && Tokens(c) == ts[..|ts| - 1]
  }

  lemma {:induction false} AllHere(ts: seq<Token>, c: Cst)
    requires Ended(ts) && DerivesAll(ts, c)
    ensures Here(ts, 0, Tokens(c)) && |Tokens(c)| == |ts| - 1 && Stops(ts[|Tokens(c)|].kind, 0)
  {
  }

  /** What the grammar derives is read as it derives, or refused as too complex. */
  lemma {:induction false} ReadsDerived(ts: seq<Token>, c: Cst, cap: nat)
    requires Ended(ts) && DerivesAll(ts, c)
    ensures Comes(ReadAll(ts, cap), Nesting(c, 0) <= cap, c, |ts| - 1)
  {
    AllHere(ts, c);
    hide ReadTernary, Tokens, Here, Nesting, Stops, DerivesAll;
    assert DerivesAll(ts, c) ==> Derives(c, 0) by {
      AllDerives(ts, c);
    }
    TernaryComplete(ts, 0, c, 0, cap);
  }

  lemma {:induction false} AllDerives(ts: seq<Token>, c: Cst)
    ensures DerivesAll(ts, c) ==> Derives(c, 0)
  {
  }

  /** A token list is read as a tree exactly when it derives that tree within the nesting cap. */
  lemma {:induction false} ReadAllIff(ts: seq<Token>, c: Cst, cap: nat)
    requires Ended(ts) && Valued(ts)
    ensures ReadAll(ts, cap) == Got(c, |ts| - 1) <==> Readable(ts, c, cap)
  {
    if Readable(ts, c, cap) {
      ReadsDerived(ts, c, cap);
    }
    if ReadAll(ts, cap) == Got(c, |ts| - 1) {
      hide ReadTernary, Derives, Tokens, Nesting;
      TernarySound(ts, 0, 0, cap);
      assert ts[0..|ts| - 1] == ts[..|ts| - 1];
    }
  }

  /** A success always ends at the end token. */
  lemma {:induction false} ReadToEnd(ts: seq<Token>, cap: nat)
    requires Ended(ts)
    ensures ReadAll(ts, cap).Got? ==> ReadAll(ts, cap).pos == |ts| - 1
  {
    hide ReadTernary;
  }

  // ---- no token list derives two trees ------------------------------------------------------------------

  predicate NoEnd(s: seq<Token>) { forall i | 0 <= i < |s| :: s[i].kind != KEnd }

  lemma {:induction false} NamesNoEnd(n: Names)
    requires NamesOk(n)
    ensures NoEnd(NameTokens(n))
  {
    if n.Dotted? {
      NamesNoEnd(n.front);
    }
  }

  lemma {:induction false} TreeNoEnd(c: Cst, level: nat)
    requires Derives(c, level)
    ensures NoEnd(Tokens(c))
    decreases c
  {
    hide NoEnd;
    ShortNoEnd(c, level);
    match c
    case Literal(_) =>
    case Name(names) => NamesNoEnd(names);
    case Parens(_, inner, _) => TreeNoEnd(inner, 0);
    case Apply(names, _, args, _) =>
      NamesNoEnd(names);
      ArgsNoEnd(args);
    case Lane(base, _, _) => TreeNoEnd(base, POSTFIX);
    case Prefix(_, operand) => TreeNoEnd(operand, UNARY);
    case Infix(left, op, right) =>
      TreeNoEnd(left, OpLevel(op.kind));
      TreeNoEnd(right, OpLevel(op.kind) + 1);
      InfixNoEnd(c, level);
    case Conditional(k, _, a, _, b) =>
      TreeNoEnd(k, 1);
      TreeNoEnd(a, 0);
      TreeNoEnd(b, 0);
      ConditionalNoEnd(c, level);
  }

  /** One production more around parts without an end token. */
  lemma {:induction false} ShortNoEnd(c: Cst, level: nat)
    requires Derives(c, level)
    ensures c.Literal? ==> NoEnd(Tokens(c))
    ensures c.Parens? && NoEnd(Tokens(c.inner)) ==> NoEnd(Tokens(c))
    ensures c.Apply? && NoEnd(NameTokens(c.names)) && NoEnd(ArgTokens(c.args)) ==> NoEnd(Tokens(c))
    ensures c.Lane? && NoEnd(Tokens(c.base)) ==> NoEnd(Tokens(c))
    ensures c.Prefix? && NoEnd(Tokens(c.operand)) ==> NoEnd(Tokens(c))
  {
  }

  lemma {:induction false} InfixNoEnd(c: Cst, level: nat)
    requires c.Infix? && Derives(c, level) && NoEnd(Tokens(c.left)) && NoEnd(Tokens(c.right))
    ensures NoEnd(Tokens(c))
  {
  }

  lemma {:induction false} ConditionalNoEnd(c: Cst, level: nat)
    requires c.Conditional? && Derives(c, level) && NoEnd(Tokens(c.c)) && NoEnd(Tokens(c.a)) && NoEnd(Tokens(c.b))
    ensures NoEnd(Tokens(c))
  {
  }

  lemma {:induction false} ArgsNoEnd(args: Args)
    requires DerivesArgs(args)
    ensures NoEnd(ArgTokens(args))
    decreases args
  {
    match args
    case NoArgs =>
    case OneArg(c) => TreeNoEnd(c, 0);
    case MoreArgs(front, _, c) =>
      ArgsNoEnd(front);
      TreeNoEnd(c, 0);
  }

  /** The grammar is unambiguous: the same tokens never derive two trees. */
  lemma {:induction false} OneTree(a: Cst, b: Cst)
    requires Derives(a, 0) && Derives(b, 0) && Tokens(a) == Tokens(b)
    ensures a == b
  {
    var ts := Tokens(a) + [Token(KEnd, "", 0, BoolV(false))];
    var cap := Max(Nesting(a, 0), Nesting(b, 0));
    TreeNoEnd(a, 0);
    assert ts[..|ts| - 1] == Tokens(a);
    hide Tokens, Derives, Nesting;
    assert Ended(ts);
    ReadsDerived(ts, a, cap);
    ReadsDerived(ts, b, cap);
  }
}
