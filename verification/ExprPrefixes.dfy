/** Where a refused token list is refused: at the first token that no expression can have there. */
module ExprPrefixes {
  import opened Basics
  import opened ExprValue
  import opened ExprLang
  import opened ExprGrammar
  import opened ExprReading
  import opened ExprAccepts
  import opened ExprComplete
  import opened ExprProductions

  // ---- reading looks no further than where it stops -----------------------------------------------------

  predicate SameUpTo(ts: seq<Token>, us: seq<Token>, n: nat) {
    n <= |ts| && n <= |us| && ts[..n] == us[..n]
  }

  lemma {:induction false} SameAt(ts: seq<Token>, us: seq<Token>, n: nat)
    requires SameUpTo(ts, us, n)
    ensures forall i | 0 <= i < n :: us[i] == ts[i]
  {
    forall i | 0 <= i < n ensures us[i] == ts[i] {
      assert ts[..n][i] == us[..n][i];
    }
  }

  lemma {:induction false} SameOne(ts: seq<Token>, us: seq<Token>, n: nat, i: nat)
    requires SameUpTo(ts, us, n) && i < n
    ensures i < |ts| && i < |us| && us[i] == ts[i]
  {
    SameAt(ts, us, n);
  }

  lemma {:induction false} LocalIs(r: Read<Cst>, s: Read<Cst>, n: nat)
    ensures Local(r, s, n) <==> ((if r.Got? then r.pos < n else r.index < n) ==> s == r)
  {
  }

  /** What was decided by the first n tokens is decided the same way. */
  predicate Local(r: Read<Cst>, s: Read<Cst>, n: nat) {
    (if r.Got? then r.pos < n else r.index < n) ==> s == r
  }

  lemma {:induction false} TernaryLocal(ts: seq<Token>, us: seq<Token>, n: nat, pos: nat, depth: nat, cap: nat)
    requires Ended(ts) && Ended(us) && SameUpTo(ts, us, n) && pos < n
    ensures Local(ReadTernary(ts, pos, depth, cap), ReadTernary(us, pos, depth, cap), n)
    decreases |ts| - pos, 31
  {
    SameAt(ts, us, n);
    if depth < cap {
      LeftLocal(ts, us, n, pos, 1, depth + 1, cap);
      var r := ReadLeft(ts, pos, 1, depth + 1, cap);
      if r.Got? && r.pos < n && ts[r.pos].kind == KQuestion {
        BranchesLocal(ts, us, n, r.pos, r.value, depth + 1, cap);
      }
    }
    hide ReadLeft, ReadBranches, Ended, SameUpTo;
  }

  lemma {:induction false} BranchesLocal(ts: seq<Token>, us: seq<Token>, n: nat, pos: nat, c: Cst, depth: nat, cap: nat)
    requires Ended(ts) && Ended(us) && SameUpTo(ts, us, n) && pos < n && ts[pos].kind == KQuestion
    ensures us[pos].kind == KQuestion && Local(ReadBranches(ts, pos, c, depth, cap), ReadBranches(us, pos, c, depth, cap), n)
    decreases |ts| - pos, 30
  {
    hide *;
    SameOne(ts, us, n, pos);
    BranchesAre(ts, pos, c, depth, cap);
    BranchesAre(us, pos, c, depth, cap);
    LocalIs(ReadBranches(ts, pos, c, depth, cap), ReadBranches(us, pos, c, depth, cap), n);
    if pos + 1 < n {
      TernaryLocal(ts, us, n, pos + 1, depth, cap);
      var r := ReadTernary(ts, pos + 1, depth, cap);
      LocalIs(r, ReadTernary(us, pos + 1, depth, cap), n);
      if r.Got? && r.pos < n {
        SameOne(ts, us, n, r.pos);
        if r.pos + 1 < n && ts[r.pos].kind == KColon {
          TernaryLocal(ts, us, n, r.pos + 1, depth, cap);
          LocalIs(ReadTernary(ts, r.pos + 1, depth, cap), ReadTernary(us, r.pos + 1, depth, cap), n);
        }
      }
    }
  }

  lemma {:induction false} BranchesAre(ts: seq<Token>, pos: nat, c: Cst, depth: nat, cap: nat)
    requires Ended(ts) && pos < |ts| && ts[pos].kind == KQuestion
    ensures pos + 1 < |ts|
    ensures var ra, r := ReadTernary(ts, pos + 1, depth, cap), ReadBranches(ts, pos, c, depth, cap);
            && (ra.Failed? ==> r == ra)
            && (ra.Got? && ts[ra.pos].kind != KColon ==> r == Failed(Diag(ParseError, ts[ra.pos].at), ra.pos))
            && (ra.Got? && ts[ra.pos].kind == KColon ==>
                  && ra.pos + 1 < |ts|
                  && var rb := ReadTernary(ts, ra.pos + 1, depth, cap);
                     && (rb.Failed? ==> r == rb)
                     && (rb.Got? ==> r == Got(Conditional(c, ts[pos], ra.value, ts[ra.pos], rb.value), rb.pos)))
  {
    hide ReadTernary;
  }

  lemma {:induction false} LeftLocal(ts: seq<Token>, us: seq<Token>, n: nat, pos: nat, level: nat, depth: nat, cap: nat)
    requires Ended(ts) && Ended(us) && SameUpTo(ts, us, n) && pos < n && 1 <= level <= 6
    ensures Local(ReadLeft(ts, pos, level, depth, cap), ReadLeft(us, pos, level, depth, cap), n)
    decreases |ts| - pos, 3 * (7 - level) + 10
  {
    SameAt(ts, us, n);
    if depth < cap {
      OperandLocal(ts, us, n, pos, level, depth + 1, cap);
      var r := ReadOperand(ts, pos, level, depth + 1, cap);
      if r.Got? && r.pos < n {
        ChainLocal(ts, us, n, r.pos, r.value, level, depth + 1, cap);
      }
    }
    hide ReadOperand, ReadChain, Ended, SameUpTo;
  }

  lemma {:induction false} ChainLocal(ts: seq<Token>, us: seq<Token>, n: nat, pos: nat, c: Cst, level: nat, depth: nat, cap: nat)
    requires Ended(ts) && Ended(us) && SameUpTo(ts, us, n) && pos < n && 1 <= level <= 6
    ensures Local(ReadChain(ts, pos, c, level, depth, cap), ReadChain(us, pos, c, level, depth, cap), n)
    decreases |ts| - pos, 0
  {
    SameAt(ts, us, n);
    if OpLevel(ts[pos].kind) == level && pos + 1 < n {
      OperandLocal(ts, us, n, pos + 1, level, depth, cap);
      var r := ReadOperand(ts, pos + 1, level, depth, cap);
      if r.Got? && r.pos < n {
        ChainLocal(ts, us, n, r.pos, Infix(c, ts[pos], r.value), level, depth, cap);
      }
    }
    hide ReadOperand, SameUpTo;
  }

  lemma {:induction false} OperandLocal(ts: seq<Token>, us: seq<Token>, n: nat, pos: nat, level: nat, depth: nat, cap: nat)
    requires Ended(ts) && Ended(us) && SameUpTo(ts, us, n) && pos < n && 1 <= level <= 6
    ensures Local(ReadOperand(ts, pos, level, depth, cap), ReadOperand(us, pos, level, depth, cap), n)
    decreases |ts| - pos, 3 * (7 - level) + 8
  {
    if level < 6 {
      LeftLocal(ts, us, n, pos, level + 1, depth, cap);
    } else {
      UnaryLocal(ts, us, n, pos, depth, cap);
    }
    hide ReadLeft, ReadUnary, Ended, SameUpTo;
  }

  lemma {:induction false} UnaryLocal(ts: seq<Token>, us: seq<Token>, n: nat, pos: nat, depth: nat, cap: nat)
    requires Ended(ts) && Ended(us) && SameUpTo(ts, us, n) && pos < n
    ensures Local(ReadUnary(ts, pos, depth, cap), ReadUnary(us, pos, depth, cap), n)
    decreases |ts| - pos, 9
  {
    SameAt(ts, us, n);
    if ts[pos].kind != KMinus && ts[pos].kind != KNot {
      PostfixLocal(ts, us, n, pos, depth, cap);
    } else if depth < cap && pos + 1 < n {
      UnaryLocal(ts, us, n, pos + 1, depth + 1, cap);
    }
    hide ReadPostfix, SameUpTo;
  }

  /** A primary also looks behind a point. */
  predicate Settled(ts: seq<Token>, r: Read<Cst>, n: nat) {
    r.Got? ==> r.pos < n <= |ts| && (ts[r.pos].kind == KDot ==> r.pos + 1 < n)
  }

  lemma {:induction false} PostfixLocal(ts: seq<Token>, us: seq<Token>, n: nat, pos: nat, depth: nat, cap: nat)
    requires Ended(ts) && Ended(us) && SameUpTo(ts, us, n) && pos < n
    ensures Local(ReadPostfix(ts, pos, depth, cap), ReadPostfix(us, pos, depth, cap), n)
    decreases |ts| - pos, 8
  {
    PrimaryLocal(ts, us, n, pos, depth, cap);
    var r := ReadPrimary(ts, pos, depth, cap);
    if r.Got? && r.pos < n {
      LanesLocal(ts, us, n, r.pos, r.value);
      if ts[r.pos].kind == KDot {
        LanesPast(ts, r.pos, r.value);
      }
    }
    hide ReadPrimary, ReadLanes, SameUpTo;
  }

  /** Behind a point there is a component or an error. */
  lemma {:induction false} LanesPast(ts: seq<Token>, pos: nat, c: Cst)
    requires Ended(ts) && pos < |ts| && ts[pos].kind == KDot
    ensures var r := ReadLanes(ts, pos, c); if r.Got? then r.pos >= pos + 2 else r.index >= pos + 1
  {
  }

  lemma {:induction false} LanesLocal(ts: seq<Token>, us: seq<Token>, n: nat, pos: nat, c: Cst)
    requires Ended(ts) && Ended(us) && SameUpTo(ts, us, n) && pos < n
    ensures Local(ReadLanes(ts, pos, c), ReadLanes(us, pos, c), n)
    decreases |ts| - pos
  {
    SameAt(ts, us, n);
    if ts[pos].kind == KDot && ts[pos + 1].kind == KIdent && pos + 2 < n {
      LanesLocal(ts, us, n, pos + 2, Lane(c, ts[pos], ts[pos + 1]));
    }
    hide SameUpTo;
  }

  lemma {:induction false} PrimaryLocal(ts: seq<Token>, us: seq<Token>, n: nat, pos: nat, depth: nat, cap: nat)
    requires Ended(ts) && Ended(us) && SameUpTo(ts, us, n) && pos < n
    ensures var r := ReadPrimary(ts, pos, depth, cap);
            Settled(ts, r, n) ==> Local(r, ReadPrimary(us, pos, depth, cap), n)
    decreases |ts| - pos, 7
  {
    SameAt(ts, us, n);
    if ts[pos].kind == KLParen {
      if depth < cap && pos + 1 < n {
        TernaryLocal(ts, us, n, pos + 1, depth + 1, cap);
      }
    } else if ts[pos].kind == KIdent {
      PathLocal(ts, us, n, pos, depth, cap);
    }
    hide ReadTernary, ReadPathOrCall, SameUpTo;
  }

  lemma {:induction false} NamesLocal(ts: seq<Token>, us: seq<Token>, n: nat, pos: nat, names: Names)
    requires Ended(ts) && Ended(us) && SameUpTo(ts, us, n) && pos < n
    ensures var (_, p) := ReadNames(ts, pos, names);
            p < n && (ts[p].kind == KDot ==> p + 1 < n) ==> ReadNames(us, pos, names) == ReadNames(ts, pos, names)
    decreases |ts| - pos
  {
    SameAt(ts, us, n);
    if ts[pos].kind == KDot && ts[pos + 1].kind == KIdent && pos + 2 < n {
      NamesLocal(ts, us, n, pos + 2, Dotted(names, ts[pos], ts[pos + 1]));
    }
    hide SameUpTo;
  }

  lemma {:induction false} PathLocal(ts: seq<Token>, us: seq<Token>, n: nat, pos: nat, depth: nat, cap: nat)
    requires Ended(ts) && Ended(us) && SameUpTo(ts, us, n) && pos < n && ts[pos].kind == KIdent
    ensures us[pos].kind == KIdent
    ensures var r := ReadPathOrCall(ts, pos, depth, cap);
            Settled(ts, r, n) ==> Local(r, ReadPathOrCall(us, pos, depth, cap), n)
    decreases |ts| - pos, 6
  {
    hide *;
    SameOne(ts, us, n, pos);
    PathIs(ts, pos, depth, cap);
    PathIs(us, pos, depth, cap);
    var r := ReadPathOrCall(ts, pos, depth, cap);
    LocalIs(r, ReadPathOrCall(us, pos, depth, cap), n);
    SettledIs(ts, r, n);
    if pos + 1 < n {
      NamesLocal(ts, us, n, pos + 1, First(ts[pos]));
      var (names, p) := ReadNames(ts, pos + 1, First(ts[pos]));
      if p < n {
        SameOne(ts, us, n, p);
        if p + 1 < n && ts[p].kind == KLParen && depth < cap {
          ArgsLocal(ts, us, n, p + 1, depth + 1, cap);
          var args := ReadArgs(ts, p + 1, depth + 1, cap);
          if args.Got? && args.pos <= n {
            SameOne(ts, us, n, args.pos - 1);
          }
        }
      }
    }
  }

  lemma {:induction false} SettledIs(ts: seq<Token>, r: Read<Cst>, n: nat)
    ensures Settled(ts, r, n) <==> (r.Got? ==> r.pos < n <= |ts| && (ts[r.pos].kind == KDot ==> r.pos + 1 < n))
  {
  }

  lemma {:induction false} PathIs(ts: seq<Token>, pos: nat, depth: nat, cap: nat)
    requires Ended(ts) && pos < |ts| && ts[pos].kind == KIdent
    ensures pos + 1 < |ts|
    ensures var (names, p) := ReadNames(ts, pos + 1, First(ts[pos]));
            var r := ReadPathOrCall(ts, pos, depth, cap);
            && (ts[p].kind != KLParen ==> r == Got(Name(names), p))
            && (ts[p].kind == KLParen && depth >= cap ==> r == Failed(Diag(TooComplex, ts[p].at), p))
            && (ts[p].kind == KLParen && depth < cap ==>
                  && p + 1 < |ts|
                  && var args := ReadArgs(ts, p + 1, depth + 1, cap);
                     r == if args.Got? then Got(Apply(names, ts[p], args.value, ts[args.pos - 1]), args.pos) else Failed(args.diag, args.index))
  {
    hide ReadNames, ReadArgs;
  }

  lemma {:induction false} ArgsLocal(ts: seq<Token>, us: seq<Token>, n: nat, pos: nat, depth: nat, cap: nat)
    requires Ended(ts) && Ended(us) && SameUpTo(ts, us, n) && pos < n
    ensures var r := ReadArgs(ts, pos, depth, cap); (if r.Got? then r.pos <= n else r.index < n) ==> ReadArgs(us, pos, depth, cap) == r
    decreases |ts| - pos, 40
  {
    SameAt(ts, us, n);
    if ts[pos].kind != KRParen {
      TernaryLocal(ts, us, n, pos, depth, cap);
      var r := ReadTernary(ts, pos, depth, cap);
      if r.Got? && r.pos < n {
        MoreArgsLocal(ts, us, n, r.pos, OneArg(r.value), depth, cap);
      }
    }
    hide ReadTernary, ReadMoreArgs, SameUpTo;
  }

  lemma {:induction false} MoreArgsLocal(ts: seq<Token>, us: seq<Token>, n: nat, pos: nat, args: Args, depth: nat, cap: nat)
    requires Ended(ts) && Ended(us) && SameUpTo(ts, us, n) && pos < n
    ensures var r := ReadMoreArgs(ts, pos, args, depth, cap);
            (if r.Got? then r.pos <= n else r.index < n) ==> ReadMoreArgs(us, pos, args, depth, cap) == r
    decreases |ts| - pos, 0
  {
    SameAt(ts, us, n);
    if ts[pos].kind == KComma && pos + 1 < n {
      TernaryLocal(ts, us, n, pos + 1, depth, cap);
      var r := ReadTernary(ts, pos + 1, depth, cap);
      if r.Got? && r.pos < n {
        MoreArgsLocal(ts, us, n, r.pos, MoreArgs(args, ts[pos], r.value), depth, cap);
      }
    }
    hide ReadTernary, SameUpTo;
  }

  /** A list that begins like a refused one up to the error is refused there too. */
  lemma {:induction false} AllLocal(ts: seq<Token>, us: seq<Token>, cap: nat)
    requires Ended(ts) && Ended(us) && ReadAll(ts, cap).Failed? && SameUpTo(ts, us, ReadAll(ts, cap).index + 1)
    ensures ReadAll(us, cap) == ReadAll(ts, cap)
  {
    var n := ReadAll(ts, cap).index + 1;
    SameAt(ts, us, n);
    TernaryLocal(ts, us, n, 0, 0, cap);
    hide ReadTernary, SameUpTo;
  }

  // ---- what was read can be carried on ---------------------------------------------------------------------

  predicate Starts(front: seq<Token>, all: seq<Token>) { |front| <= |all| && all[..|front|] == front }

  /** A failed reading is a syntax error at its token, and the tokens before it begin a tree of the level. */
  ghost predicate Wrong(ts: seq<Token>, start: nat, r: Read<Cst>, level: nat, c: Cst) {
    && r.Failed? && start <= r.index < |ts| && r.diag.at == ts[r.index].at
    && level <= 9 && Derives(c, level) && Starts(ts[start..r.index], Tokens(c))
  }

  predicate SyntaxError(r: Read<Cst>) { r.Failed? && r.diag.code == ParseError }

  lemma {:induction false} StartsBehind(a: seq<Token>, front: seq<Token>, all: seq<Token>, rest: seq<Token>)
    requires Starts(front, all)
    ensures Starts(front, all + rest) && Starts(a + front, a + all) && Starts(a + front, a + all + rest)
  {
    assert (a + all)[..|a + front|] == a + all[..|front|];
    assert (a + all + rest)[..|a + front|] == a + all[..|front|];
  }

  const SOME: Token := Token(KTrue, "", 0, BoolV(true))
  const COLON: Token := Token(KColon, "", 0, BoolV(true))
  const CLOSE: Token := Token(KRParen, "", 0, BoolV(true))
  const IDENT: Token := Token(KIdent, "", 0, BoolV(true))

  lemma {:induction false} SomeLiteral(level: nat)
    requires level <= 9
    ensures Derives(Literal(SOME), level)
  {
  }

  lemma {:induction false} NothingYet(c: Cst, ts: seq<Token>, pos: nat)
    requires pos <= |ts|
    ensures Starts(ts[pos..pos], Tokens(c))
  {
  }

  lemma {:induction false} TernaryViable(ts: seq<Token>, pos: nat, depth: nat, cap: nat) returns (c: Cst)
    requires depth <= cap && Ended(ts) && Valued(ts) && pos < |ts| && SyntaxError(ReadTernary(ts, pos, depth, cap))
    ensures Wrong(ts, pos, ReadTernary(ts, pos, depth, cap), 0, c)
    decreases |ts| - pos, 31
  {
    hide *;
    TernaryIs(ts, pos, depth, cap);
    var r := ReadLeft(ts, pos, 1, depth + 1, cap);
    if r.Failed? {
      c := LeftViable(ts, pos, 1, depth + 1, cap);
      WrongLower(ts, pos, r, 1, 0, c);
    } else {
      LeftSound(ts, pos, 1, depth + 1, cap);
      SoundIs(ts, pos, r, 1, depth + 1, cap);
      c := BranchesViable(ts, pos, r.pos, r.value, depth + 1, cap);
    }
  }

  lemma {:induction false} WrongLower(ts: seq<Token>, pos: nat, r: Read<Cst>, level: nat, lower: nat, c: Cst)
    requires Wrong(ts, pos, r, level, c) && lower <= level
    ensures Wrong(ts, pos, r, lower, c)
  {
    DerivesLower(c, level, lower);
  }

  lemma {:induction false} SoundIs(ts: seq<Token>, pos: nat, r: Read<Cst>, level: nat, depth: nat, cap: nat)
    requires Sound(ts, pos, r, level, depth, cap) && r.Got?
    ensures pos <= r.pos <= |ts| && Derives(r.value, level) && Tokens(r.value) == ts[pos..r.pos]
  {
  }

  lemma {:induction false} TernaryIs(ts: seq<Token>, pos: nat, depth: nat, cap: nat)
    requires Ended(ts) && pos < |ts| && SyntaxError(ReadTernary(ts, pos, depth, cap))
    ensures depth < cap
    ensures var r, t := ReadLeft(ts, pos, 1, depth + 1, cap), ReadTernary(ts, pos, depth, cap);
            && (r.Failed? ==> t == r && SyntaxError(r))
            && (r.Got? ==> r.pos < |ts| && ts[r.pos].kind == KQuestion && t == ReadBranches(ts, r.pos, r.value, depth + 1, cap))
  {
    hide ReadLeft, ReadBranches;
  }

  lemma {:induction false} BranchesViable(ts: seq<Token>, start: nat, pos: nat, c: Cst, depth: nat, cap: nat) returns (whole: Cst)
    requires depth <= cap && Ended(ts) && Valued(ts) && start < pos < |ts| && ts[pos].kind == KQuestion && SyntaxError(ReadBranches(ts, pos, c, depth, cap))
    requires Derives(c, 1) && Tokens(c) == ts[start..pos]
    ensures Wrong(ts, start, ReadBranches(ts, pos, c, depth, cap), 0, whole)
    decreases |ts| - pos, 30
  {
    hide *;
    BranchesAre(ts, pos, c, depth, cap);
    var r, ra := ReadBranches(ts, pos, c, depth, cap), ReadTernary(ts, pos + 1, depth, cap);
    SomeLiteral(0);
    if ra.Failed? {
      ErrorIs(r, ra);
      var a := TernaryViable(ts, pos + 1, depth, cap);
      whole := Conditional(c, ts[pos], a, COLON, Literal(SOME));
      WrongBranch(ts, start, pos, r, c, a);
    } else {
      TernarySound(ts, pos + 1, depth, cap);
      SoundIs(ts, pos + 1, ra, 0, depth, cap);
      if ts[ra.pos].kind != KColon {
        whole := Conditional(c, ts[pos], ra.value, COLON, Literal(SOME));
        NoColon(ts, start, pos, r, c, ra.value);
      } else {
        var rb := ReadTernary(ts, ra.pos + 1, depth, cap);
        ErrorIs(r, rb);
        var b := TernaryViable(ts, ra.pos + 1, depth, cap);
        whole := Conditional(c, ts[pos], ra.value, ts[ra.pos], b);
        WrongElse(ts, start, pos, ra.pos, r, c, ra.value, b);
      }
    }
  }

  lemma {:induction false} ErrorIs(r: Read<Cst>, s: Read<Cst>)
    ensures SyntaxError(r) && s == r ==> SyntaxError(s)
    ensures SyntaxError(r) <==> r.Failed? && r.diag.code == ParseError
  {
  }

  lemma {:induction false} WrongBranch(ts: seq<Token>, start: nat, pos: nat, r: Read<Cst>, c: Cst, a: Cst)
    requires start < pos < |ts| && ts[pos].kind == KQuestion && Derives(c, 1) && Tokens(c) == ts[start..pos] && Wrong(ts, pos + 1, r, 0, a)
    ensures Wrong(ts, start, r, 0, Conditional(c, ts[pos], a, COLON, Literal(SOME)))
  {
    SomeLiteral(0);
    ConditionalMade(c, ts[pos], a, COLON, Literal(SOME));
    TwoRuns(ts, start, pos, r.index);
    hide Derives, Tokens;
    var front, tail := Tokens(c) + [ts[pos]], [COLON] + Tokens(Literal(SOME));
    StartsBehind(front, ts[pos + 1..r.index], Tokens(a), tail);
    assert Tokens(c) + [ts[pos]] + Tokens(a) + [COLON] + Tokens(Literal(SOME)) == front + Tokens(a) + tail;
  }

  lemma {:induction false} NoColon(ts: seq<Token>, start: nat, pos: nat, r: Read<Cst>, c: Cst, a: Cst)
    requires start < pos < |ts| && ts[pos].kind == KQuestion && Derives(c, 1) && Tokens(c) == ts[start..pos]
    requires r.Failed? && pos + 1 <= r.index < |ts| && r.diag.at == ts[r.index].at && Derives(a, 0) && Tokens(a) == ts[pos + 1..r.index]
    ensures Wrong(ts, start, r, 0, Conditional(c, ts[pos], a, COLON, Literal(SOME)))
  {
    assert Wrong(ts, pos + 1, r, 0, a);
    WrongBranch(ts, start, pos, r, c, a);
  }

  lemma {:induction false} WrongElse(ts: seq<Token>, start: nat, pos: nat, p: nat, r: Read<Cst>, c: Cst, a: Cst, b: Cst)
    requires start < pos < p < |ts| && ts[pos].kind == KQuestion && Derives(c, 1) && Tokens(c) == ts[start..pos]
    requires ts[p].kind == KColon && Derives(a, 0) && Tokens(a) == ts[pos + 1..p] && Wrong(ts, p + 1, r, 0, b)
    ensures Wrong(ts, start, r, 0, Conditional(c, ts[pos], a, ts[p], b))
  {
    ConditionalMade(c, ts[pos], a, ts[p], b);
    hide Derives, Tokens;
    var front := Tokens(c) + [ts[pos]] + Tokens(a) + [ts[p]];
    StartsBehind(front, ts[p + 1..r.index], Tokens(b), []);
    assert ts[start..r.index] == ts[start..pos] + [ts[pos]] + ts[pos + 1..p] + [ts[p]] + ts[p + 1..r.index];
  }

  lemma {:induction false} LeftViable(ts: seq<Token>, pos: nat, level: nat, depth: nat, cap: nat) returns (c: Cst)
    requires depth <= cap && Ended(ts) && Valued(ts) && pos < |ts| && 1 <= level <= 6 && SyntaxError(ReadLeft(ts, pos, level, depth, cap))
    ensures Wrong(ts, pos, ReadLeft(ts, pos, level, depth, cap), level, c)
    decreases |ts| - pos, 3 * (7 - level) + 10
  {
    hide *;
    LeftIs(ts, pos, level, depth, cap);
    var r := ReadOperand(ts, pos, level, depth + 1, cap);
    if r.Failed? {
      c := OperandViable(ts, pos, level, depth + 1, cap);
      WrongLower(ts, pos, r, level + 1, level, c);
    } else {
      OperandSound(ts, pos, level, depth + 1, cap);
      SoundIs(ts, pos, r, level + 1, depth + 1, cap);
      DerivesLower(r.value, level + 1, level);
      c := ChainViable(ts, pos, r.pos, r.value, level, depth + 1, cap);
    }
  }

  lemma {:induction false} LeftIs(ts: seq<Token>, pos: nat, level: nat, depth: nat, cap: nat)
    requires Ended(ts) && pos < |ts| && 1 <= level <= 6 && SyntaxError(ReadLeft(ts, pos, level, depth, cap))
    ensures depth < cap
    ensures var r, t := ReadOperand(ts, pos, level, depth + 1, cap), ReadLeft(ts, pos, level, depth, cap);
            && (r.Failed? ==> t == r && SyntaxError(r))
            && (r.Got? ==> pos < r.pos < |ts| && t == ReadChain(ts, r.pos, r.value, level, depth + 1, cap))
  {
    hide ReadOperand, ReadChain;
  }

  lemma {:induction false} ChainViable(ts: seq<Token>, start: nat, pos: nat, c: Cst, level: nat, depth: nat, cap: nat) returns (whole: Cst)
    requires depth <= cap && Ended(ts) && Valued(ts) && start < pos < |ts| && 1 <= level <= 6 && SyntaxError(ReadChain(ts, pos, c, level, depth, cap))
    requires Derives(c, level) && Tokens(c) == ts[start..pos]
    ensures Wrong(ts, start, ReadChain(ts, pos, c, level, depth, cap), level, whole)
    decreases |ts| - pos, 0
  {
    hide *;
    ChainIs(ts, pos, c, level, depth, cap);
    var r := ReadOperand(ts, pos + 1, level, depth, cap);
    if r.Failed? {
      var right := OperandViable(ts, pos + 1, level, depth, cap);
      whole := Infix(c, ts[pos], right);
      WrongRight(ts, start, pos, r, c, right, level);
    } else {
      OperandSound(ts, pos + 1, level, depth, cap);
      SoundIs(ts, pos + 1, r, level + 1, depth, cap);
      InfixMade(c, ts[pos], r.value, level);
      TwoRuns(ts, start, pos, r.pos);
      whole := ChainViable(ts, start, r.pos, Infix(c, ts[pos], r.value), level, depth, cap);
    }
  }

  lemma {:induction false} ChainIs(ts: seq<Token>, pos: nat, c: Cst, level: nat, depth: nat, cap: nat)
    requires Ended(ts) && pos < |ts| && 1 <= level <= 6 && SyntaxError(ReadChain(ts, pos, c, level, depth, cap))
    ensures OpLevel(ts[pos].kind) == level && pos + 1 < |ts|
    ensures var r, t := ReadOperand(ts, pos + 1, level, depth, cap), ReadChain(ts, pos, c, level, depth, cap);
            && (r.Failed? ==> t == r && SyntaxError(r))
            && (r.Got? ==> pos + 1 < r.pos < |ts| && t == ReadChain(ts, r.pos, Infix(c, ts[pos], r.value), level, depth, cap))
  {
    hide ReadOperand;
  }

  lemma {:induction false} WrongRight(ts: seq<Token>, start: nat, pos: nat, r: Read<Cst>, c: Cst, right: Cst, level: nat)
    requires start < pos < |ts| && 1 <= level <= 6 && OpLevel(ts[pos].kind) == level && Derives(c, level) && Tokens(c) == ts[start..pos]
    requires Wrong(ts, pos + 1, r, level + 1, right)
    ensures Wrong(ts, start, r, level, Infix(c, ts[pos], right))
  {
    InfixMade(c, ts[pos], right, level);
    TwoRuns(ts, start, pos, r.index);
    hide Derives, Tokens, OpLevel;
    StartsBehind(Tokens(c) + [ts[pos]], ts[pos + 1..r.index], Tokens(right), []);
  }

  lemma {:induction false} OperandViable(ts: seq<Token>, pos: nat, level: nat, depth: nat, cap: nat) returns (c: Cst)
    requires depth <= cap && Ended(ts) && Valued(ts) && pos < |ts| && 1 <= level <= 6 && SyntaxError(ReadOperand(ts, pos, level, depth, cap))
    ensures Wrong(ts, pos, ReadOperand(ts, pos, level, depth, cap), level + 1, c)
    decreases |ts| - pos, 3 * (7 - level) + 8
  {
    hide Valued, Ended, ReadLeft, ReadUnary, Wrong, SyntaxError;
    if level < 6 {
      c := LeftViable(ts, pos, level + 1, depth, cap);
    } else {
      c := UnaryViable(ts, pos, depth, cap);
    }
  }

  lemma {:induction false} UnaryViable(ts: seq<Token>, pos: nat, depth: nat, cap: nat) returns (c: Cst)
    requires depth <= cap && Ended(ts) && Valued(ts) && pos < |ts| && SyntaxError(ReadUnary(ts, pos, depth, cap))
    ensures Wrong(ts, pos, ReadUnary(ts, pos, depth, cap), 7, c)
    decreases |ts| - pos, 9
  {
    hide *;
    UnaryStep(ts, pos, depth, cap);
    var r := ReadUnary(ts, pos, depth, cap);
    if ts[pos].kind != KMinus && ts[pos].kind != KNot {
      c := PostfixViable(ts, pos, depth, cap);
      WrongLower(ts, pos, r, 8, 7, c);
    } else {
      NotTooDeep(r, ts, pos, depth, cap);
      var inner := ReadUnary(ts, pos + 1, depth + 1, cap);
      ErrorIs(r, inner);
      var operand := UnaryViable(ts, pos + 1, depth + 1, cap);
      c := Prefix(ts[pos], operand);
      WrongOperand(ts, pos, r, operand);
    }
  }

  lemma {:induction false} NotTooDeep(r: Read<Cst>, ts: seq<Token>, pos: nat, depth: nat, cap: nat)
    requires pos < |ts| && SyntaxError(r) && (depth >= cap ==> r == Failed(Diag(TooComplex, ts[pos].at), pos))
    ensures depth < cap && r.Failed?
  {
  }

  lemma {:induction false} WrongOperand(ts: seq<Token>, pos: nat, r: Read<Cst>, operand: Cst)
    requires pos < |ts| && (ts[pos].kind == KMinus || ts[pos].kind == KNot) && Wrong(ts, pos + 1, r, 7, operand)
    ensures Wrong(ts, pos, r, 7, Prefix(ts[pos], operand))
  {
    PrefixMade(ts[pos], operand);
    hide Derives, Tokens;
    StartsBehind([ts[pos]], ts[pos + 1..r.index], Tokens(operand), []);
    assert ts[pos..r.index] == [ts[pos]] + ts[pos + 1..r.index];
  }

  lemma {:induction false} PostfixViable(ts: seq<Token>, pos: nat, depth: nat, cap: nat) returns (c: Cst)
    requires depth <= cap && Ended(ts) && Valued(ts) && pos < |ts| && SyntaxError(ReadPostfix(ts, pos, depth, cap))
    ensures Wrong(ts, pos, ReadPostfix(ts, pos, depth, cap), 8, c)
    decreases |ts| - pos, 8
  {
    hide *;
    Levels();
    PostfixIs(ts, pos, depth, cap);
    var r := ReadPrimary(ts, pos, depth, cap);
    if r.Failed? {
      c := PrimaryViable(ts, pos, depth, cap);
      WrongLower(ts, pos, r, 9, 8, c);
    } else {
      PrimarySound(ts, pos, depth, cap);
      SoundIs(ts, pos, r, 9, depth, cap);
      DerivesLower(r.value, 9, 8);
      if ts[r.pos].kind == KDot {
        NotLast(ts, r.pos);
      }
      c := LanesViable(ts, pos, r.pos, r.value);
    }
  }

  lemma {:induction false} NotLast(ts: seq<Token>, pos: nat)
    requires Ended(ts) && pos < |ts| && ts[pos].kind != KEnd
    ensures pos + 1 < |ts|
  {
  }

  lemma {:induction false} PostfixIs(ts: seq<Token>, pos: nat, depth: nat, cap: nat)
    requires Ended(ts) && pos < |ts| && SyntaxError(ReadPostfix(ts, pos, depth, cap))
    ensures var r, t := ReadPrimary(ts, pos, depth, cap), ReadPostfix(ts, pos, depth, cap);
            && (r.Failed? ==> t == r && SyntaxError(r))
            && (r.Got? ==> pos < r.pos < |ts| && t == ReadLanes(ts, r.pos, r.value))
  {
    hide ReadPrimary, ReadLanes;
  }

  lemma {:induction false} LanesViable(ts: seq<Token>, start: nat, pos: nat, c: Cst) returns (whole: Cst)
    requires Ended(ts) && start < pos < |ts| && SyntaxError(ReadLanes(ts, pos, c)) && Derives(c, 8) && Tokens(c) == ts[start..pos]
    requires c.Name? && ts[pos].kind == KDot ==> pos + 1 < |ts| && ts[pos + 1].kind != KIdent
    ensures Wrong(ts, start, ReadLanes(ts, pos, c), 8, whole)
    decreases |ts| - pos
  {
    hide *;
    Levels();
    LanesAre(ts, pos, c);
    if ts[pos + 1].kind != KIdent {
      whole := NoComponent(ts, start, pos, ReadLanes(ts, pos, c), c);
    } else {
      LaneMade(c, ts[pos], ts[pos + 1]);
      var lane := Lane(c, ts[pos], ts[pos + 1]);
      assert ts[start..pos + 2] == ts[start..pos] + [ts[pos], ts[pos + 1]];
      whole := LanesViable(ts, start, pos + 2, lane);
    }
  }

  lemma {:induction false} LanesAre(ts: seq<Token>, pos: nat, c: Cst)
    requires Ended(ts) && pos < |ts| && SyntaxError(ReadLanes(ts, pos, c))
    ensures ts[pos].kind == KDot && pos + 1 < |ts|
    ensures var r := ReadLanes(ts, pos, c);
            if ts[pos + 1].kind != KIdent then r == Failed(Diag(ParseError, ts[pos + 1].at), pos + 1)
            else pos + 2 < |ts| && r == ReadLanes(ts, pos + 2, Lane(c, ts[pos], ts[pos + 1]))
  {
  }

  /** Behind a point: a component of a value, or one more name of a path. */
  lemma {:induction false} NoComponent(ts: seq<Token>, start: nat, pos: nat, r: Read<Cst>, c: Cst) returns (whole: Cst)
    requires start < pos && pos + 1 < |ts| && ts[pos].kind == KDot && Derives(c, 8) && Tokens(c) == ts[start..pos]
    requires r == Failed(Diag(ParseError, ts[pos + 1].at), pos + 1)
    ensures Wrong(ts, start, r, 8, whole)
  {
    if c.Name? {
      whole := Name(Dotted(c.names, ts[pos], IDENT));
      assert NamesOk(c.names);
      assert Tokens(whole) == Tokens(c) + [ts[pos], IDENT];
    } else {
      whole := Lane(c, ts[pos], IDENT);
      LaneMade(c, ts[pos], IDENT);
    }
    hide Tokens;
    assert ts[start..pos + 1] == ts[start..pos] + [ts[pos]];
    assert (Tokens(c) + [ts[pos], IDENT])[..|Tokens(c)| + 1] == Tokens(c) + [ts[pos]];
  }

  lemma {:induction false} PrimaryViable(ts: seq<Token>, pos: nat, depth: nat, cap: nat) returns (c: Cst)
    requires depth <= cap && Ended(ts) && Valued(ts) && pos < |ts| && SyntaxError(ReadPrimary(ts, pos, depth, cap))
    ensures Wrong(ts, pos, ReadPrimary(ts, pos, depth, cap), 9, c)
    decreases |ts| - pos, 7
  {
    hide *;
    PrimaryIs(ts, pos, depth, cap);
    var r := ReadPrimary(ts, pos, depth, cap);
    if ts[pos].kind == KLParen {
      var inner := ReadTernary(ts, pos + 1, depth + 1, cap);
      if inner.Failed? {
        ErrorIs(r, inner);
        var i := TernaryViable(ts, pos + 1, depth + 1, cap);
        c := Parens(ts[pos], i, CLOSE);
        WrongInner(ts, pos, r, i);
      } else {
        TernarySound(ts, pos + 1, depth + 1, cap);
        SoundIs(ts, pos + 1, inner, 0, depth + 1, cap);
        c := Parens(ts[pos], inner.value, CLOSE);
        NotClosed(ts, pos, r, inner.value);
      }
    } else if ts[pos].kind == KIdent {
      c := PathViable(ts, pos, depth, cap);
    } else {
      c := Literal(SOME);
      Unfit(ts, pos, r);
    }
  }

  lemma {:induction false} PrimaryIs(ts: seq<Token>, pos: nat, depth: nat, cap: nat)
    requires Ended(ts) && pos < |ts| && SyntaxError(ReadPrimary(ts, pos, depth, cap))
    ensures var r := ReadPrimary(ts, pos, depth, cap);
            && (ts[pos].kind == KLParen ==>
                  && depth < cap && pos + 1 < |ts|
                  && var inner := ReadTernary(ts, pos + 1, depth + 1, cap);
                     if inner.Failed? then r == inner
                     else inner.pos < |ts| && ts[inner.pos].kind != KRParen && r == Failed(Diag(ParseError, ts[inner.pos].at), inner.pos))
            && (ts[pos].kind == KIdent ==> r == ReadPathOrCall(ts, pos, depth, cap))
            && (ts[pos].kind != KLParen && ts[pos].kind != KIdent ==> r == Failed(Diag(ParseError, ts[pos].at), pos))
  {
    hide ReadTernary, ReadPathOrCall;
  }

  lemma {:induction false} Unfit(ts: seq<Token>, pos: nat, r: Read<Cst>)
    requires pos < |ts| && r == Failed(Diag(ParseError, ts[pos].at), pos)
    ensures Wrong(ts, pos, r, 9, Literal(SOME))
  {
    SomeLiteral(9);
    NothingYet(Literal(SOME), ts, pos);
  }

  lemma {:induction false} WrongInner(ts: seq<Token>, pos: nat, r: Read<Cst>, inner: Cst)
    requires pos < |ts| && ts[pos].kind == KLParen && Wrong(ts, pos + 1, r, 0, inner)
    ensures Wrong(ts, pos, r, 9, Parens(ts[pos], inner, CLOSE))
  {
    ParensMade(ts[pos], inner, CLOSE);
    hide Derives, Tokens;
    StartsBehind([ts[pos]], ts[pos + 1..r.index], Tokens(inner), [CLOSE]);
    assert ts[pos..r.index] == [ts[pos]] + ts[pos + 1..r.index];
  }

  lemma {:induction false} NotClosed(ts: seq<Token>, pos: nat, r: Read<Cst>, inner: Cst)
    requires pos < |ts| && ts[pos].kind == KLParen && r.Failed? && pos < r.index < |ts| && r.diag.at == ts[r.index].at
    requires Derives(inner, 0) && Tokens(inner) == ts[pos + 1..r.index]
    ensures Wrong(ts, pos, r, 9, Parens(ts[pos], inner, CLOSE))
  {
    assert Wrong(ts, pos + 1, r, 0, inner);
    WrongInner(ts, pos, r, inner);
  }

  lemma {:induction false} PathViable(ts: seq<Token>, pos: nat, depth: nat, cap: nat) returns (c: Cst)
    requires depth <= cap && Ended(ts) && Valued(ts) && pos < |ts| && ts[pos].kind == KIdent && SyntaxError(ReadPathOrCall(ts, pos, depth, cap))
    ensures Wrong(ts, pos, ReadPathOrCall(ts, pos, depth, cap), 9, c)
    decreases |ts| - pos, 6
  {
    hide *;
    PathIs(ts, pos, depth, cap);
    var r := ReadPathOrCall(ts, pos, depth, cap);
    var (names, p) := ReadNames(ts, pos + 1, First(ts[pos]));
    ErrorIs(r, r);
    NamesOf(ts, pos);
    var args := ArgsViable(ts, p + 1, depth + 1, cap);
    c := Apply(names, ts[p], args, CLOSE);
    WrongArgs(ts, pos, p, r, names, args);
  }

  lemma {:induction false} NamesOf(ts: seq<Token>, pos: nat)
    requires Ended(ts) && pos < |ts| && ts[pos].kind == KIdent
    ensures pos + 1 < |ts|
    ensures var (names, p) := ReadNames(ts, pos + 1, First(ts[pos])); NamesOk(names) && NameTokens(names) == ts[pos..p] && pos < p
  {
    OneToken(ts, pos);
    NamesSound(ts, pos, pos + 1, First(ts[pos]));
  }

  /** The same for what stands between the parentheses of a call. */
  ghost predicate WrongList(ts: seq<Token>, start: nat, index: nat, args: Args) {
    start <= index < |ts| && DerivesArgs(args) && Starts(ts[start..index], ArgTokens(args))
  }

  lemma {:induction false} WrongArgs(ts: seq<Token>, pos: nat, p: nat, r: Read<Cst>, names: Names, args: Args)
    requires pos < p < |ts| && ts[p].kind == KLParen && NamesOk(names) && NameTokens(names) == ts[pos..p]
    requires r.Failed? && r.index < |ts| && r.diag.at == ts[r.index].at && WrongList(ts, p + 1, r.index, args)
    ensures Wrong(ts, pos, r, 9, Apply(names, ts[p], args, CLOSE))
  {
    ApplyMade(names, ts[p], args, CLOSE);
    Levels();
    TwoRuns(ts, pos, p, r.index);
    hide Derives, Tokens, ArgTokens, DerivesArgs, NameTokens, NamesOk;
    StartsBehind(NameTokens(names) + [ts[p]], ts[p + 1..r.index], ArgTokens(args), [CLOSE]);
  }

  lemma {:induction false} ArgsViable(ts: seq<Token>, pos: nat, depth: nat, cap: nat) returns (args: Args)
    requires depth <= cap && Ended(ts) && Valued(ts) && pos < |ts|
    requires ReadArgs(ts, pos, depth, cap).Failed? && ReadArgs(ts, pos, depth, cap).diag.code == ParseError
    ensures var r := ReadArgs(ts, pos, depth, cap); r.index < |ts| && r.diag.at == ts[r.index].at && WrongList(ts, pos, r.index, args)
    decreases |ts| - pos, 40
  {
    hide *;
    ArgsAre(ts, pos, depth, cap);
    var r, one := ReadArgs(ts, pos, depth, cap), ReadTernary(ts, pos, depth, cap);
    if one.Failed? {
      ErrorIs(one, one);
      var c := TernaryViable(ts, pos, depth, cap);
      args := OneArg(c);
      WrongFirst(ts, pos, one, c);
    } else {
      TernarySound(ts, pos, depth, cap);
      SoundIs(ts, pos, one, 0, depth, cap);
      OneArgIs(one.value);
      args := MoreViable(ts, pos, one.pos, OneArg(one.value), depth, cap);
    }
  }

  lemma {:induction false} OneArgIs(c: Cst)
    ensures ArgTokens(OneArg(c)) == Tokens(c) && (Derives(c, 0) ==> DerivesArgs(OneArg(c)))
  {
  }

  lemma {:induction false} ArgsAre(ts: seq<Token>, pos: nat, depth: nat, cap: nat)
    requires Ended(ts) && pos < |ts| && ReadArgs(ts, pos, depth, cap).Failed?
    ensures var r, one := ReadArgs(ts, pos, depth, cap), ReadTernary(ts, pos, depth, cap);
            && (one.Failed? ==> r == Failed(one.diag, one.index))
            && (one.Got? ==> pos < one.pos < |ts| && r == ReadMoreArgs(ts, one.pos, OneArg(one.value), depth, cap))
  {
    hide ReadTernary, ReadMoreArgs;
  }

  lemma {:induction false} WrongFirst(ts: seq<Token>, pos: nat, r: Read<Cst>, c: Cst)
    requires Wrong(ts, pos, r, 0, c)
    ensures r.Failed? && r.index < |ts| && r.diag.at == ts[r.index].at && WrongList(ts, pos, r.index, OneArg(c))
  {
    OneArgIs(c);
    hide Derives, Tokens;
  }

  lemma {:induction false} MoreViable(ts: seq<Token>, start: nat, pos: nat, args: Args, depth: nat, cap: nat) returns (whole: Args)
    requires depth <= cap && Ended(ts) && Valued(ts) && start < pos < |ts| && !args.NoArgs? && DerivesArgs(args) && ArgTokens(args) == ts[start..pos]
    requires ReadMoreArgs(ts, pos, args, depth, cap).Failed? && ReadMoreArgs(ts, pos, args, depth, cap).diag.code == ParseError
    ensures var r := ReadMoreArgs(ts, pos, args, depth, cap); r.index < |ts| && r.diag.at == ts[r.index].at && WrongList(ts, start, r.index, whole)
    decreases |ts| - pos, 0
  {
    hide *;
    MoreIs(ts, pos, args, depth, cap);
    if ts[pos].kind != KComma {
      whole := args;
      ListSoFar(ts, start, pos, args);
    } else {
      var one := ReadTernary(ts, pos + 1, depth, cap);
      if one.Failed? {
        ErrorIs(one, one);
        var c := TernaryViable(ts, pos + 1, depth, cap);
        whole := MoreArgs(args, ts[pos], c);
        WrongNext(ts, start, pos, one, args, c);
      } else {
        TernarySound(ts, pos + 1, depth, cap);
        SoundIs(ts, pos + 1, one, 0, depth, cap);
        TwoRuns(ts, start, pos, one.pos);
        MoreArgsAre(args, ts[pos], one.value);
        whole := MoreViable(ts, start, one.pos, MoreArgs(args, ts[pos], one.value), depth, cap);
      }
    }
  }

  lemma {:induction false} ListSoFar(ts: seq<Token>, start: nat, pos: nat, args: Args)
    requires start < pos < |ts| && DerivesArgs(args) && ArgTokens(args) == ts[start..pos]
    ensures WrongList(ts, start, pos, args)
  {
  }

  lemma {:induction false} MoreArgsAre(args: Args, comma: Token, c: Cst)
    requires !args.NoArgs? && DerivesArgs(args) && comma.kind == KComma && Derives(c, 0)
    ensures DerivesArgs(MoreArgs(args, comma, c)) && ArgTokens(MoreArgs(args, comma, c)) == ArgTokens(args) + [comma] + Tokens(c)
  {
  }

  lemma {:induction false} MoreIs(ts: seq<Token>, pos: nat, args: Args, depth: nat, cap: nat)
    requires Ended(ts) && pos < |ts| && ReadMoreArgs(ts, pos, args, depth, cap).Failed?
    ensures var r := ReadMoreArgs(ts, pos, args, depth, cap);
            if ts[pos].kind != KComma then r == Failed(Diag(ParseError, ts[pos].at), pos)
            else
              && pos + 1 < |ts|
              && var one := ReadTernary(ts, pos + 1, depth, cap);
                 if one.Failed? then r == Failed(one.diag, one.index)
                 else pos + 1 < one.pos < |ts| && r == ReadMoreArgs(ts, one.pos, MoreArgs(args, ts[pos], one.value), depth, cap)
  {
    hide ReadTernary;
  }

  lemma {:induction false} WrongNext(ts: seq<Token>, start: nat, pos: nat, r: Read<Cst>, args: Args, c: Cst)
    requires start < pos < |ts| && ts[pos].kind == KComma && !args.NoArgs? && DerivesArgs(args) && ArgTokens(args) == ts[start..pos]
    requires Wrong(ts, pos + 1, r, 0, c)
    ensures r.Failed? && r.index < |ts| && r.diag.at == ts[r.index].at && WrongList(ts, start, r.index, MoreArgs(args, ts[pos], c))
  {
    MoreArgsAre(args, ts[pos], c);
    TwoRuns(ts, start, pos, r.index);
    hide Derives, Tokens, DerivesArgs, ArgTokens;
    StartsBehind(ArgTokens(args) + [ts[pos]], ts[pos + 1..r.index], Tokens(c), []);
  }

  // ---- the two errors there are ---------------------------------------------------------------------------

  predicate TwoCodes(d: Diag) { d.code == ParseError || d.code == TooComplex }

  lemma {:induction false} TernaryCodes(ts: seq<Token>, pos: nat, depth: nat, cap: nat)
    requires Ended(ts) && pos < |ts|
    ensures var r := ReadTernary(ts, pos, depth, cap); r.Failed? ==> TwoCodes(r.diag)
    decreases |ts| - pos, 31
  {
    if depth < cap {
      LeftCodes(ts, pos, 1, depth + 1, cap);
      var r := ReadLeft(ts, pos, 1, depth + 1, cap);
      if r.Got? && ts[r.pos].kind == KQuestion {
        BranchesCodes(ts, r.pos, r.value, depth + 1, cap);
      }
    }
    hide ReadLeft, ReadBranches, Ended;
  }

  lemma {:induction false} BranchesCodes(ts: seq<Token>, pos: nat, c: Cst, depth: nat, cap: nat)
    requires Ended(ts) && pos < |ts| && ts[pos].kind == KQuestion
    ensures var r := ReadBranches(ts, pos, c, depth, cap); r.Failed? ==> TwoCodes(r.diag)
    decreases |ts| - pos, 30
  {
    BranchesAre(ts, pos, c, depth, cap);
    TernaryCodes(ts, pos + 1, depth, cap);
    var r := ReadTernary(ts, pos + 1, depth, cap);
    if r.Got? && ts[r.pos].kind == KColon {
      TernaryCodes(ts, r.pos + 1, depth, cap);
    }
    hide ReadTernary, ReadBranches, Ended;
  }

  lemma {:induction false} LeftCodes(ts: seq<Token>, pos: nat, level: nat, depth: nat, cap: nat)
    requires Ended(ts) && pos < |ts| && 1 <= level <= 6
    ensures var r := ReadLeft(ts, pos, level, depth, cap); r.Failed? ==> TwoCodes(r.diag)
    decreases |ts| - pos, 3 * (7 - level) + 10
  {
    if depth < cap {
      OperandCodes(ts, pos, level, depth + 1, cap);
      var r := ReadOperand(ts, pos, level, depth + 1, cap);
      if r.Got? {
        ChainCodes(ts, r.pos, r.value, level, depth + 1, cap);
      }
    }
    hide ReadOperand, ReadChain, Ended;
  }

  lemma {:induction false} ChainCodes(ts: seq<Token>, pos: nat, c: Cst, level: nat, depth: nat, cap: nat)
    requires Ended(ts) && pos < |ts| && 1 <= level <= 6
    ensures var r := ReadChain(ts, pos, c, level, depth, cap); r.Failed? ==> TwoCodes(r.diag)
    decreases |ts| - pos, 0
  {
    if OpLevel(ts[pos].kind) == level {
      OperandCodes(ts, pos + 1, level, depth, cap);
      var r := ReadOperand(ts, pos + 1, level, depth, cap);
      if r.Got? {
        ChainCodes(ts, r.pos, Infix(c, ts[pos], r.value), level, depth, cap);
      }
    }
    hide ReadOperand;
  }

  lemma {:induction false} OperandCodes(ts: seq<Token>, pos: nat, level: nat, depth: nat, cap: nat)
    requires Ended(ts) && pos < |ts| && 1 <= level <= 6
    ensures var r := ReadOperand(ts, pos, level, depth, cap); r.Failed? ==> TwoCodes(r.diag)
    decreases |ts| - pos, 3 * (7 - level) + 8
  {
    if level < 6 {
      LeftCodes(ts, pos, level + 1, depth, cap);
    } else {
      UnaryCodes(ts, pos, depth, cap);
    }
    hide ReadLeft, ReadUnary, Ended;
  }

  lemma {:induction false} UnaryCodes(ts: seq<Token>, pos: nat, depth: nat, cap: nat)
    requires Ended(ts) && pos < |ts|
    ensures var r := ReadUnary(ts, pos, depth, cap); r.Failed? ==> TwoCodes(r.diag)
    decreases |ts| - pos, 9
  {
    if ts[pos].kind != KMinus && ts[pos].kind != KNot {
      PrimaryCodes(ts, pos, depth, cap);
      var r := ReadPrimary(ts, pos, depth, cap);
      if r.Got? {
        LanesCodes(ts, r.pos, r.value);
      }
    } else {
      UnaryCodes(ts, pos + 1, depth + 1, cap);
    }
    hide ReadPrimary, ReadLanes;
  }

  lemma {:induction false} LanesCodes(ts: seq<Token>, pos: nat, c: Cst)
    requires Ended(ts) && pos < |ts|
    ensures var r := ReadLanes(ts, pos, c); r.Failed? ==> TwoCodes(r.diag)
    decreases |ts| - pos
  {
    if ts[pos].kind == KDot && ts[pos + 1].kind == KIdent {
      LanesCodes(ts, pos + 2, Lane(c, ts[pos], ts[pos + 1]));
    }
  }

  lemma {:induction false} PrimaryCodes(ts: seq<Token>, pos: nat, depth: nat, cap: nat)
    requires Ended(ts) && pos < |ts|
    ensures var r := ReadPrimary(ts, pos, depth, cap); r.Failed? ==> TwoCodes(r.diag)
    decreases |ts| - pos, 7
  {
    if ts[pos].kind == KLParen {
      TernaryCodes(ts, pos + 1, depth + 1, cap);
    } else if ts[pos].kind == KIdent {
      PathIs(ts, pos, depth, cap);
      var (names, p) := ReadNames(ts, pos + 1, First(ts[pos]));
      if ts[p].kind == KLParen {
        ArgsCodes(ts, p + 1, depth + 1, cap);
      }
    }
    hide ReadTernary, ReadPathOrCall, ReadNames, ReadArgs;
  }

  lemma {:induction false} ArgsCodes(ts: seq<Token>, pos: nat, depth: nat, cap: nat)
    requires Ended(ts) && pos < |ts|
    ensures var r := ReadArgs(ts, pos, depth, cap); r.Failed? ==> TwoCodes(r.diag)
    decreases |ts| - pos, 40
  {
    TernaryCodes(ts, pos, depth, cap);
    var r := ReadTernary(ts, pos, depth, cap);
    if r.Got? {
      MoreCodes(ts, r.pos, OneArg(r.value), depth, cap);
    }
    hide ReadTernary, ReadMoreArgs;
  }

  lemma {:induction false} MoreCodes(ts: seq<Token>, pos: nat, args: Args, depth: nat, cap: nat)
    requires Ended(ts) && pos < |ts|
    ensures var r := ReadMoreArgs(ts, pos, args, depth, cap); r.Failed? ==> TwoCodes(r.diag)
    decreases |ts| - pos, 0
  {
    if ts[pos].kind == KComma {
      TernaryCodes(ts, pos + 1, depth, cap);
      var r := ReadTernary(ts, pos + 1, depth, cap);
      if r.Got? {
        MoreCodes(ts, r.pos, MoreArgs(args, ts[pos], r.value), depth, cap);
      }
    }
    hide ReadTernary;
  }

  lemma {:induction false} AllCodes(ts: seq<Token>, cap: nat)
    requires Ended(ts) && ReadAll(ts, cap).Failed?
    ensures TwoCodes(ReadAll(ts, cap).diag)
  {
    TernaryCodes(ts, 0, 0, cap);
    hide ReadTernary;
  }

  // ---- the first wrong token ---------------------------------------------------------------------------------

  /** The tokens before it begin an expression, and with it they begin none. */
  ghost predicate FirstWrong(ts: seq<Token>, m: nat) {
    && m < |ts| && (exists c :: Ternaries(c) && Starts(ts[..m], Tokens(c)))
    && (forall us, c | Ended(us) && Written(us, c) && m < |us| :: us[..m + 1] != ts[..m + 1])
  }

  /** A syntax error is reported at the first token that no expression can have there. */
  lemma {:induction false} ErrorIsFirst(ts: seq<Token>, cap: nat)
    requires Ended(ts) && Valued(ts) && SyntaxError(ReadAll(ts, cap))
    ensures var r := ReadAll(ts, cap); FirstWrong(ts, r.index) && r.diag.at == ts[r.index].at
  {
    hide *;
    var r, one := ReadAll(ts, cap), ReadTernary(ts, 0, 0, cap);
    AllIs(ts, cap);
    var c: Cst;
    if one.Failed? {
      ErrorIs(r, one);
      c := TernaryViable(ts, 0, 0, cap);
      WrongIs(ts, 0, one, c);
    } else {
      c := one.value;
      TernarySound(ts, 0, 0, cap);
      SoundIs(ts, 0, one, 0, 0, cap);
      StartsWhole(Tokens(c));
    }
    DerivesTernaries(c);
    assert ts[0..r.index] == ts[..r.index];
    forall us, d | Ended(us) && Written(us, d) && r.index < |us| ensures us[..r.index + 1] != ts[..r.index + 1] {
      NotWritten(ts, us, d, cap);
    }
    FirstWrongIs(ts, r.index, c);
  }

  lemma {:induction false} AllIs(ts: seq<Token>, cap: nat)
    requires Ended(ts) && SyntaxError(ReadAll(ts, cap))
    ensures var r, one := ReadAll(ts, cap), ReadTernary(ts, 0, 0, cap);
            && (one.Failed? ==> r == one)
            && (one.Got? ==> one.pos < |ts| && r == Failed(Diag(ParseError, ts[one.pos].at), one.pos))
  {
    hide ReadTernary;
  }

  lemma {:induction false} WrongIs(ts: seq<Token>, start: nat, r: Read<Cst>, c: Cst)
    requires Wrong(ts, start, r, 0, c)
    ensures r.Failed? && start <= r.index < |ts| && r.diag.at == ts[r.index].at && Derives(c, 0) && Starts(ts[start..r.index], Tokens(c))
  {
  }

  lemma {:induction false} StartsWhole(s: seq<Token>)
    ensures Starts(s, s)
  {
  }

  lemma {:induction false} DerivesTernaries(c: Cst)
    ensures Derives(c, 0) <==> Ternaries(c)
  {
    DerivesIsProduction(c, 0);
  }

  lemma {:induction false} FirstWrongIs(ts: seq<Token>, m: nat, c: Cst)
    requires m < |ts| && Ternaries(c) && Starts(ts[..m], Tokens(c))
    requires forall us, d | Ended(us) && Written(us, d) && m < |us| :: us[..m + 1] != ts[..m + 1]
    ensures FirstWrong(ts, m)
  {
    hide Ternaries, Starts, Tokens, Written, Ended;
  }

  lemma {:induction false} NotWritten(ts: seq<Token>, us: seq<Token>, c: Cst, cap: nat)
    requires Ended(ts) && SyntaxError(ReadAll(ts, cap)) && Ended(us) && Written(us, c) && ReadAll(ts, cap).index < |us|
    ensures us[..ReadAll(ts, cap).index + 1] != ts[..ReadAll(ts, cap).index + 1]
  {
    hide ReadAll, Written, Ended;
    if us[..ReadAll(ts, cap).index + 1] == ts[..ReadAll(ts, cap).index + 1] {
      AllLocal(ts, us, cap);
      WrittenIsDerived(us, c);
      ReadsDerived(us, c, cap);
    }
  }

  /** There is only one such token, and none in an expression. */
  lemma {:induction false} OneFirstWrong(ts: seq<Token>, m: nat, k: nat)
    requires FirstWrong(ts, m) && FirstWrong(ts, k)
    ensures m == k
  {
    if m < k {
      FirstWrongNow(ts, m, k);
    } else if k < m {
      FirstWrongNow(ts, k, m);
    }
  }

  lemma {:induction false} FirstWrongNow(ts: seq<Token>, m: nat, k: nat)
    requires FirstWrong(ts, m) && m < k < |ts|
    ensures !FirstWrong(ts, k)
  {
    forall c | Ternaries(c) ensures !Starts(ts[..k], Tokens(c)) {
      DerivesTernaries(c);
      TreeNoEnd(c, 0);
      var us := Tokens(c) + [Token(KEnd, "", 0, BoolV(true))];
      assert us[..|us| - 1] == Tokens(c);
      assert Written(us, c) && Ended(us);
      hide Ended, Written, Tokens, Starts;
      SharedFront(ts, us, Tokens(c), m, k);
    }
  }

  lemma {:induction false} SharedFront(ts: seq<Token>, us: seq<Token>, s: seq<Token>, m: nat, k: nat)
    requires m < k < |ts| && |us| == |s| + 1 && us[..|s|] == s
    ensures Starts(ts[..k], s) ==> m < |us| && us[..m + 1] == ts[..m + 1]
  {
    if Starts(ts[..k], s) {
      assert us[..m + 1] == s[..m + 1] && s[..m + 1] == s[..k][..m + 1] && ts[..k][..m + 1] == ts[..m + 1];
    }
  }

  lemma {:induction false} NoneWrong(ts: seq<Token>, c: Cst, m: nat)
    requires Ended(ts) && Written(ts, c)
    ensures !FirstWrong(ts, m)
  {
  }
}
