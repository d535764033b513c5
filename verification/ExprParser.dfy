/** The recursive-descent parser with its nesting guard. */
module ExprParser {
  import opened Basics
  import opened ExprValue
  import opened ExprLang
  import opened ExprGrammar
  import opened ExprReading
  import opened ExprAccepts
  import opened ExprComplete
  import opened ExprProductions
  import opened ExprPrefixes

  const MAX_DEPTH: nat := 64

  const NOTHING: Expr := Lit(BoolV(false), 0)

  lemma {:induction false} NamesReadOn(ts: seq<Token>, pos: nat, names: Names)
    requires Ended(ts) && pos < |ts|
    ensures Head(ReadNames(ts, pos, names).0) == Head(names)
    decreases |ts| - pos
  {
    if ts[pos].kind == KDot && ts[pos + 1].kind == KIdent {
      NamesReadOn(ts, pos + 2, Dotted(names, ts[pos], ts[pos + 1]));
    }
  }

  lemma {:induction false} ConditionalTree(c: Cst, question: Token, a: Cst, colon: Token, b: Cst)
    ensures TreeOf(Conditional(c, question, a, colon, b)) == Ternary(TreeOf(c), TreeOf(a), TreeOf(b), question.at)
  {
  }

  lemma {:induction false} BranchFails(ts: seq<Token>, pos: nat, c: Cst, depth: nat, cap: nat)
    requires Ended(ts) && pos + 1 < |ts| && ts[pos].kind == KQuestion && ReadTernary(ts, pos + 1, depth, cap).Failed?
    ensures ReadBranches(ts, pos, c, depth, cap) == ReadTernary(ts, pos + 1, depth, cap)
  {
    BranchesAre(ts, pos, c, depth, cap);
    hide *;
  }

  lemma {:induction false} BranchAlone(ts: seq<Token>, pos: nat, c: Cst, depth: nat, cap: nat)
    requires Ended(ts) && pos + 1 < |ts| && ts[pos].kind == KQuestion
    requires var ra := ReadTernary(ts, pos + 1, depth, cap); ra.Got? && ts[ra.pos].kind != KColon
    ensures var p := ReadTernary(ts, pos + 1, depth, cap).pos; ReadBranches(ts, pos, c, depth, cap) == Failed(Diag(ParseError, ts[p].at), p)
  {
    BranchesAre(ts, pos, c, depth, cap);
    hide *;
  }

  lemma {:induction false} BranchesGo(ts: seq<Token>, pos: nat, c: Cst, depth: nat, cap: nat)
    requires Ended(ts) && pos + 1 < |ts| && ts[pos].kind == KQuestion
    requires var ra := ReadTernary(ts, pos + 1, depth, cap); ra.Got? && ts[ra.pos].kind == KColon
    ensures var ra := ReadTernary(ts, pos + 1, depth, cap);
            && ra.pos + 1 < |ts|
            && var rb := ReadTernary(ts, ra.pos + 1, depth, cap);
               ReadBranches(ts, pos, c, depth, cap) == if rb.Got? then Got(Conditional(c, ts[pos], ra.value, ts[ra.pos], rb.value), rb.pos) else rb
  {
    BranchesAre(ts, pos, c, depth, cap);
    hide *;
  }

  /** One component more, its error, or the end of the components. */
  lemma {:induction false} LanesUnfold(ts: seq<Token>, pos: nat, c: Cst)
    requires Ended(ts) && pos < |ts|
    ensures ts[pos].kind != KDot ==> ReadLanes(ts, pos, c) == Got(c, pos)
    ensures ts[pos].kind == KDot ==>
              && pos + 1 < |ts|
              && (ts[pos + 1].kind != KIdent ==> ReadLanes(ts, pos, c) == Failed(Diag(ParseError, ts[pos + 1].at), pos + 1))
              && (ts[pos + 1].kind == KIdent ==>
                    && pos + 2 < |ts| && ReadLanes(ts, pos, c) == ReadLanes(ts, pos + 2, Lane(c, ts[pos], ts[pos + 1]))
                    && TreeOf(Lane(c, ts[pos], ts[pos + 1])) == Member(TreeOf(c), ts[pos + 1].text, ts[pos].at))
  {
  }

  class Parser {
    const tokens: seq<Token>
    var pos: nat
    var depth: nat
    var diag: Option<Diag>

    constructor (tokens: seq<Token>)
      requires Ended(tokens)
      ensures this.tokens == tokens && pos == 0 && depth == 0 && diag == None && Going()
    {
      this.tokens, pos, depth, diag := tokens, 0, 0, None;
    }

    predicate Valid()
      reads this`pos
    {
      Ended(tokens) && pos < |tokens|
    }

    /** Nothing failed so far, and no production runs deeper than the cap. */
    predicate Going()
      reads this
    {
      Valid() && diag == None && depth <= MAX_DEPTH
    }

    /** A production did what its reading says; the nesting counter is back where it was. */
    ghost predicate Agrees(r: Read<Cst>, e: Expr, depth0: nat)
      reads this
    {
      && Valid() && depth >= depth0
      && match r
         case Failed(x, _) => diag == Some(x)
         case Got(c, p) => Going() && pos == p && depth == depth0 && e == TreeOf(c)
    }

    lemma {:induction false} AgreesIs(r: Read<Cst>, e: Expr, depth0: nat)
      ensures Agrees(r, e, depth0)
              <==> && Valid() && depth >= depth0
                   && (r.Failed? ==> diag == Some(r.diag))
                   && (r.Got? ==> Going() && pos == r.pos && depth == depth0 && e == TreeOf(r.value))
    {
    }

    method Fail(code: DiagCode, at: Token)
      modifies this`diag
      ensures diag == if old(diag) == None then Some(Diag(code, at.at)) else old(diag)
    {
      if diag == None {
        diag := Some(Diag(code, at.at));
      }
    }

    /** The token one past the current one, or the end token. */
    function PeekNext(): Token
      requires Valid()
      reads this`pos
    {
      if pos + 1 < |tokens| then tokens[pos + 1] else tokens[|tokens| - 1]
    }

    /** Steps past a token that is not the end. */
    method Advance() returns (t: Token)
      requires Valid() && tokens[pos].kind != KEnd
      modifies this`pos
      ensures Valid() && pos == old(pos) + 1 && t == tokens[old(pos)]
    {
      t := tokens[pos];
      pos := pos + 1;
    }

    method Match(kind: TokenKind) returns (ok: bool)
      requires Valid() && kind != KEnd
      modifies this`pos
      ensures Valid() && ok == (tokens[old(pos)].kind == kind) && pos == if ok then old(pos) + 1 else old(pos)
    {
      ok := tokens[pos].kind == kind;
      if ok {
        var _ := Advance();
      }
    }

    /** One level deeper; past the cap that fails. */
    method Enter() returns (ok: bool)
      requires Going()
      modifies this`depth, this`diag
      ensures depth == old(depth) + 1 && (ok <==> old(depth) < MAX_DEPTH)
      ensures diag == if ok then None else Some(Diag(TooComplex, tokens[pos].at))
    {
      depth := depth + 1;
      if depth > MAX_DEPTH {
        Fail(TooComplex, tokens[pos]);
        return false;
      }
      return true;
    }

    // ---- productions ------------------------------------------------------------------------------------

    method ParseTernary() returns (e: Expr)
      requires Going()
      modifies this`pos, this`depth, this`diag
      ensures Agrees(ReadTernary(tokens, old(pos), old(depth), MAX_DEPTH), e, old(depth))
      decreases |tokens| - pos, 31
    {
      hide TreeOf, Ended;
      var ok := Enter();
      if !ok {
        return NOTHING;
      }
      ghost var first := ReadLeft(tokens, pos, 1, depth, MAX_DEPTH);
      e := ParseLeft(1);
      if diag == None && tokens[pos].kind == KQuestion {
        e := ParseBranches(e, first.value);
      }
      depth := depth - 1;
    }

    /** The rest of a conditional, after its condition. */
    method ParseBranches(cond: Expr, ghost c: Cst) returns (e: Expr)
      requires Going() && tokens[pos].kind == KQuestion && cond == TreeOf(c)
      modifies this`pos, this`depth, this`diag
      ensures Agrees(ReadBranches(tokens, old(pos), c, old(depth), MAX_DEPTH), e, old(depth))
      decreases |tokens| - pos, 30
    {
      hide Ended, ReadTernary, ReadBranches, TreeOf, Agrees;
      e := NOTHING;
      var question := Advance();
      ghost var start, depth0 := pos - 1, depth;
      ghost var ra := ReadTernary(tokens, pos, depth, MAX_DEPTH);
      var a := ParseTernary();
      AgreesIs(ra, a, depth0);
      if diag != None {
        BranchFails(tokens, start, c, depth0, MAX_DEPTH);
        AgreesIs(ra, e, depth0);
        return;
      }
      ghost var p := pos;
      var matched := Match(KColon);
      if !matched {
        BranchAlone(tokens, start, c, depth0, MAX_DEPTH);
        Fail(ParseError, tokens[pos]);
        AgreesIs(Failed(Diag(ParseError, tokens[p].at), p), e, depth0);
        return;
      }
      BranchesGo(tokens, start, c, depth0, MAX_DEPTH);
      ghost var rb := ReadTernary(tokens, pos, depth, MAX_DEPTH);
      var b := ParseTernary();
      AgreesIs(rb, b, depth0);
      if diag != None {
        AgreesIs(rb, e, depth0);
        return;
      }
      e := Ternary(cond, a, b, question.at);
      ConditionalTree(c, question, ra.value, tokens[p], rb.value);
      AgreesIs(Got(Conditional(c, question, ra.value, tokens[p], rb.value), pos), e, depth0);
    }

    /** A left-leaning chain of the operators of one level, over operands of the next. */
    method ParseLeft(level: nat) returns (e: Expr)
      requires Going() && 1 <= level <= 6
      modifies this`pos, this`depth, this`diag
      ensures Agrees(ReadLeft(tokens, old(pos), level, old(depth), MAX_DEPTH), e, old(depth))
      decreases |tokens| - pos, 3 * (7 - level) + 10
    {
      hide Ended, ReadOperand, TreeOf;
      var ok := Enter();
      if !ok {
        return NOTHING;
      }
      ghost var d, start := depth, pos;
      ghost var first := ReadOperand(tokens, pos, level, d, MAX_DEPTH);
      e := ParseOperand(level);
      if diag == None {
        ghost var c := first.value;
        ghost var whole := ReadChain(tokens, pos, c, level, d, MAX_DEPTH);
        while OpLevel(tokens[pos].kind) == level
          invariant Going() && pos > start && depth == d && e == TreeOf(c)
          invariant whole == ReadChain(tokens, pos, c, level, d, MAX_DEPTH)
          decreases |tokens| - pos
        {
          var op := Advance();
          ghost var right := ReadOperand(tokens, pos, level, d, MAX_DEPTH);
          var b := ParseOperand(level);
          if diag != None {
            break;
          }
          InfixTree(c, op, right.value);
          e, c := Binary(op.kind, e, b, op.at), Infix(c, op, right.value);
        }
      }
      depth := depth - 1;
    }

    lemma {:induction false} InfixTree(left: Cst, op: Token, right: Cst)
      ensures TreeOf(Infix(left, op, right)) == Binary(op.kind, TreeOf(left), TreeOf(right), op.at)
    {
    }

    /** The next tighter level. */
    method ParseOperand(level: nat) returns (e: Expr)
      requires Going() && 1 <= level <= 6
      modifies this`pos, this`depth, this`diag
      ensures Agrees(ReadOperand(tokens, old(pos), level, old(depth), MAX_DEPTH), e, old(depth))
      decreases |tokens| - pos, 3 * (7 - level) + 8
    {
      hide Ended, ReadLeft, ReadUnary, TreeOf;
      if level < 6 {
        e := ParseLeft(level + 1);
      } else {
        e := ParseUnary();
      }
    }

    method ParseUnary() returns (e: Expr)
      requires Going()
      modifies this`pos, this`depth, this`diag
      ensures Agrees(ReadUnary(tokens, old(pos), old(depth), MAX_DEPTH), e, old(depth))
      decreases |tokens| - pos, 9
    {
      hide Ended, ReadPostfix;
      var kind := tokens[pos].kind;
      if kind == KMinus || kind == KNot {
        var ok := Enter();
        if !ok {
          return NOTHING;
        }
        var op := Advance();
        ghost var inner := ReadUnary(tokens, pos, depth, MAX_DEPTH);
        var operand := ParseUnary();
        depth := depth - 1;
        if diag != None {
          return NOTHING;
        }
        e := Unary(kind, operand, op.at);
        assert TreeOf(Prefix(op, inner.value)) == e;
      } else {
        e := ParsePostfix();
      }
    }

    method ParsePostfix() returns (e: Expr)
      requires Going()
      modifies this`pos, this`depth, this`diag
      ensures Agrees(ReadPostfix(tokens, old(pos), old(depth), MAX_DEPTH), e, old(depth))
      decreases |tokens| - pos, 8
    {
      PostfixStep(tokens, pos, depth, MAX_DEPTH);
      hide ReadPrimary, ReadPostfix, ReadLanes, Ended, TreeOf;
      ghost var d := depth;
      ghost var first := ReadPrimary(tokens, pos, depth, MAX_DEPTH);
      e := ParsePrimary();
      if diag != None {
        return NOTHING;
      }
      ghost var c := first.value;
      while tokens[pos].kind == KDot
        invariant Going() && depth == d && e == TreeOf(c)
        invariant ReadPostfix(tokens, old(pos), d, MAX_DEPTH) == ReadLanes(tokens, pos, c)
        decreases |tokens| - pos
      {
        LanesUnfold(tokens, pos, c);
        var dot := Advance();
        if tokens[pos].kind != KIdent {
          Fail(ParseError, tokens[pos]);
          return NOTHING;
        }
        var ident := Advance();
        e, c := Member(e, ident.text, dot.at), Lane(c, dot, ident);
      }
      LanesUnfold(tokens, pos, c);
    }

    method ParsePrimary() returns (e: Expr)
      requires Going()
      modifies this`pos, this`depth, this`diag
      ensures Agrees(ReadPrimary(tokens, old(pos), old(depth), MAX_DEPTH), e, old(depth))
      decreases |tokens| - pos, 7
    {
      hide ReadTernary, ReadPathOrCall;
      var token := tokens[pos];
      if token.kind in LITERALS {
        var _ := Advance();
        e := Lit(LiteralValue(token), token.at);
        assert TreeOf(Literal(token)) == e;
      } else if token.kind == KLParen {
        var ok := Enter();
        if !ok {
          return NOTHING;
        }
        var _ := Advance();
        e := ParseTernary();
        if diag == None {
          var matched := Match(KRParen);
          if !matched {
            Fail(ParseError, tokens[pos]);
          }
        }
        depth := depth - 1;
      } else if token.kind == KIdent {
        e := ParsePathOrCall();
      } else {
        Fail(ParseError, token);
        return NOTHING;
      }
    }

    /** path := ident ('.' ident)*, taken as far as it goes. */
    method ParsePath() returns (segments: seq<string>)
      requires Going() && tokens[pos].kind == KIdent
      modifies this`pos
      ensures Going()
      ensures var (names, p) := ReadNames(tokens, old(pos) + 1, First(tokens[old(pos)]));
              pos == p && segments == Segments(names)
    {
      ghost var start := pos;
      var first := Advance();
      segments := [first.text];
      ghost var names := First(first);
      while tokens[pos].kind == KDot && PeekNext().kind == KIdent
        invariant Going() && pos > start && segments == Segments(names)
        invariant ReadNames(tokens, start + 1, First(tokens[start])) == ReadNames(tokens, pos, names)
        decreases |tokens| - pos
      {
        var dot := Advance();
        var ident := Advance();
        segments, names := segments + [ident.text], Dotted(names, dot, ident);
      }
    }

    method ParsePathOrCall() returns (e: Expr)
      requires Going() && tokens[pos].kind == KIdent
      modifies this`pos, this`depth, this`diag
      ensures Agrees(ReadPathOrCall(tokens, old(pos), old(depth), MAX_DEPTH), e, old(depth))
      decreases |tokens| - pos, 6
    {
      hide ReadNames, ReadArgs;
      var first := tokens[pos];
      ghost var names := ReadNames(tokens, pos + 1, First(first)).0;
      NamesReadOn(tokens, pos + 1, First(first));
      var segments := ParsePath();
      if tokens[pos].kind != KLParen {
        e := Path(segments, first.at);
        assert TreeOf(Name(names)) == e;
        return;
      }
      var ok := Enter();
      if !ok {
        return NOTHING;
      }
      var open := Advance();
      ghost var rest := ReadArgs(tokens, pos, depth, MAX_DEPTH);
      var args := ParseArgs();
      depth := depth - 1;
      if diag != None {
        return NOTHING;
      }
      e := Call(segments, args, first.at);
      assert TreeOf(Apply(names, open, rest.value, tokens[pos - 1])) == e;
    }

    /** The arguments, and the closing parenthesis. */
    method ParseArgs() returns (args: seq<Expr>)
      requires Going()
      modifies this`pos, this`depth, this`diag
      ensures Valid() && depth >= old(depth)
      ensures match ReadArgs(tokens, old(pos), old(depth), MAX_DEPTH)
              case Failed(x, _) => diag == Some(x)
              case Got(c, p) => Going() && pos == p && depth == old(depth) && args == Trees(c)
      decreases |tokens| - pos, 40
    {
      hide ReadTernary, TreeOf, Ended;
      ghost var d, whole := depth, ReadArgs(tokens, pos, depth, MAX_DEPTH);
      args := [];
      var matched := Match(KRParen);
      if matched {
        return;
      }
      ghost var c := NoArgs;
      while true
        invariant Going() && depth == d && pos >= old(pos) && args == Trees(c)
        invariant if c.NoArgs? then pos == old(pos) && tokens[pos].kind != KRParen && whole == ReadArgs(tokens, pos, d, MAX_DEPTH)
                  else pos > old(pos) && tokens[pos - 1].kind == KComma && pos - 1 > old(pos) && whole == ReadMoreArgs(tokens, pos - 1, c, d, MAX_DEPTH)
        decreases |tokens| - pos
      {
        ghost var r := ReadTernary(tokens, pos, d, MAX_DEPTH);
        ghost var before := tokens[if c.NoArgs? then pos else pos - 1];
        var e := ParseTernary();
        if diag != None {
          return;
        }
        c := if c.NoArgs? then OneArg(r.value) else MoreArgs(c, before, r.value);
        args := args + [e];
        matched := Match(KComma);
        if !matched {
          matched := Match(KRParen);
          if !matched {
            Fail(ParseError, tokens[pos]);
          }
          return;
        }
      }
    }

    /** The whole token list, up to the end token: accepted exactly when the grammar derives it within
        the nesting cap, as the one tree it derives; a list that is derived but too deep is refused as
        too complex. */
    method Run() returns (r: Result<Expr>)
      requires Going() && pos == 0 && depth == 0
      modifies this`pos, this`depth, this`diag
      ensures match ReadAll(tokens, MAX_DEPTH)
              case Failed(x, _) => r == Failure(x)
              case Got(c, _) => r == Success(TreeOf(c)) && depth == 0
      ensures Valued(tokens) ==> (r.Success? <==> exists c :: Written(tokens, c) && Nesting(c, 0) <= 64)
      ensures forall c, e | Written(tokens, c) && Stands(c, e) ::
                if Nesting(c, 0) <= 64 then r == Success(e) else r.Failure? && r.error.code == TooComplex
      ensures Valued(tokens) && r.Failure? && r.error.code != TooComplex ==>
                r.error.code == ParseError && exists m: nat :: FirstWrong(tokens, m) && r.error.at == tokens[m].at
    {
      hide ReadTernary, TreeOf, DerivesAll, Nesting, Valued, Written, Stands, Readable, FirstWrong;
      var e := ParseTernary();
      if diag == None && tokens[pos].kind != KEnd {
        Fail(ParseError, tokens[pos]);
      }
      r := if diag != None then Failure(diag.value) else Success(e);
      RunAccepts(tokens);
    }
  }

  lemma {:induction false} RunAccepts(ts: seq<Token>)
    requires Ended(ts)
    ensures forall c, e | Written(ts, c) && Stands(c, e) ::
              if Nesting(c, 0) <= 64 then ReadAll(ts, MAX_DEPTH) == Got(c, |ts| - 1) && e == TreeOf(c)
              else ReadAll(ts, MAX_DEPTH).Failed? && ReadAll(ts, MAX_DEPTH).diag.code == TooComplex
    ensures Valued(ts) ==> (ReadAll(ts, MAX_DEPTH).Got? <==> exists c :: Written(ts, c) && Nesting(c, 0) <= 64)
    ensures var r := ReadAll(ts, MAX_DEPTH);
            Valued(ts) && r.Failed? && r.diag.code != TooComplex ==>
              r.diag.code == ParseError && exists m: nat :: FirstWrong(ts, m) && r.diag.at == ts[m].at
  {
    RunErrs(ts);
    hide ReadAll, Nesting, DerivesAll, Valued, Written, Stands, TreeOf;
    forall c, e | Written(ts, c) && Stands(c, e)
      ensures if Nesting(c, 0) <= 64 then ReadAll(ts, MAX_DEPTH) == Got(c, |ts| - 1) && e == TreeOf(c)
              else ReadAll(ts, MAX_DEPTH).Failed? && ReadAll(ts, MAX_DEPTH).diag.code == TooComplex
    {
      WrittenIsDerived(ts, c);
      StandsIff(c, e);
      ReadsDerived(ts, c, MAX_DEPTH);
    }
    ReadToEnd(ts, MAX_DEPTH);
    if Valued(ts) {
      if ReadAll(ts, MAX_DEPTH).Got? {
        ReadAllIff(ts, ReadAll(ts, MAX_DEPTH).value, MAX_DEPTH);
        WrittenIsDerived(ts, ReadAll(ts, MAX_DEPTH).value);
      }
      forall c | Written(ts, c) && Nesting(c, 0) <= 64 ensures ReadAll(ts, MAX_DEPTH).Got? {
        WrittenIsDerived(ts, c);
        ReadsDerived(ts, c, MAX_DEPTH);
      }
    }
  }

  lemma {:induction false} RunErrs(ts: seq<Token>)
    requires Ended(ts)
    ensures var r := ReadAll(ts, MAX_DEPTH);
            Valued(ts) && r.Failed? && r.diag.code != TooComplex ==>
              r.diag.code == ParseError && exists m: nat :: FirstWrong(ts, m) && r.diag.at == ts[m].at
  {
    var r := ReadAll(ts, MAX_DEPTH);
    hide ReadAll, FirstWrong;
    if Valued(ts) && r.Failed? && r.diag.code != TooComplex {
      AllCodes(ts, MAX_DEPTH);
      ErrorIsFirst(ts, MAX_DEPTH);
      assert FirstWrong(ts, r.index);
    }
  }
}
