/** Which token lists the parser accepts: those the grammar derives within the nesting cap, each in
    one way only. */
module ExprAccepts {
  import opened Basics
  import opened ExprValue
  import opened ExprLang
  import opened ExprGrammar
  import opened ExprReading

  /** Literal tokens carry a value of their kind. */
  predicate Valued(ts: seq<Token>) {
    forall i | 0 <= i < |ts| :: ts[i].kind in {KIntLit, KFloatLit, KStringLit} ==> LiteralOk(ts[i])
  }

  // ---- how deep a tree nests ------------------------------------------------------------------------

  /** How many productions are open at once while the tree is read at a level. */
  function Nesting(c: Cst, level: nat): nat
    requires level <= 9
    decreases c, 2 * (10 - level) + 1
  {
    if level == 0 then
      1 + (match c
           case Conditional(k, _, a, _, b) => Max(Nesting(k, 1), Max(Nesting(a, 0), Nesting(b, 0)))
           case _ => Nesting(c, 1))
    else if level <= 6 then 1 + Spine(c, level)
    else if level == UNARY then
      match c
      case Prefix(_, operand) => 1 + Nesting(operand, UNARY)
      case _ => Nesting(c, POSTFIX)
    else if level == POSTFIX then
      match c
      case Lane(base, _, _) => Nesting(base, POSTFIX)
      case _ => Nesting(c, PRIMARY)
    else
      match c
      case Parens(_, inner, _) => 1 + Nesting(inner, 0)
      case Apply(_, _, args, _) => 1 + ArgsNesting(args)
      case _ => 0
  }

  /** The operands of a left-leaning chain. */
  function Spine(c: Cst, level: nat): nat
    requires 1 <= level <= 6
    decreases c, 2 * (10 - level)
  {
    if c.Infix? && OpLevel(c.op.kind) == level then Max(Spine(c.left, level), Nesting(c.right, level + 1)) else Nesting(c, level + 1)
  }

  function ArgsNesting(args: Args): nat
    decreases args, 0
  {
    match args
    case NoArgs => 0
    case OneArg(c) => Nesting(c, 0)
    case MoreArgs(front, _, c) => Max(ArgsNesting(front), Nesting(c, 0))
  }

  lemma {:induction false} SpineOfOperand(c: Cst, level: nat)
    requires 1 <= level <= 6 && Derives(c, level + 1)
    ensures Spine(c, level) == Nesting(c, level + 1)
  {
  }

  // ---- what is read derives ---------------------------------------------------------------------------

  /** What was read derives from its level, from just these tokens, within the cap. */
  predicate Sound(ts: seq<Token>, pos: nat, r: Read<Cst>, level: nat, depth: nat, cap: nat) {
    r.Got? ==> level <= PRIMARY && pos <= r.pos <= |ts| && Derives(r.value, level) && Tokens(r.value) == ts[pos..r.pos]
               && depth + Nesting(r.value, level) <= cap
  }

  lemma {:induction false} OneToken(ts: seq<Token>, a: nat)
    requires a < |ts|
    ensures ts[a..a + 1] == [ts[a]]
  {
  }

  lemma {:induction false} TernarySound(ts: seq<Token>, pos: nat, depth: nat, cap: nat)
    requires depth <= cap && Ended(ts) && Valued(ts) && pos < |ts|
    ensures Sound(ts, pos, ReadTernary(ts, pos, depth, cap), 0, depth, cap)
    decreases |ts| - pos, 31
  {
    if depth < cap {
      hide Valued, Derives, Tokens, ReadLeft, ReadBranches;
      LeftSound(ts, pos, 1, depth + 1, cap);
      var r := ReadLeft(ts, pos, 1, depth + 1, cap);
      if r.Got? {
        if ts[r.pos].kind == KQuestion {
          BranchesSound(ts, pos, r.pos, r.value, depth + 1, cap);
        } else {
          NotConditional(r.value);
        }
      }
    }
  }

  lemma {:induction false} NotConditional(c: Cst)
    requires Derives(c, 1)
    ensures Derives(c, 0) && Nesting(c, 0) == 1 + Nesting(c, 1)
  {
  }

  lemma {:induction false} BranchesSound(ts: seq<Token>, start: nat, pos: nat, c: Cst, depth: nat, cap: nat)
    requires depth <= cap && Ended(ts) && Valued(ts) && start < pos < |ts| && ts[pos].kind == KQuestion && depth > 0
    requires Derives(c, 1) && Tokens(c) == ts[start..pos] && depth + Nesting(c, 1) <= cap
    ensures Sound(ts, start, ReadBranches(ts, pos, c, depth, cap), 0, depth - 1, cap)
    decreases |ts| - pos, 30
  {
    hide Valued, Derives, Tokens, ReadTernary, Nesting;
    TernarySound(ts, pos + 1, depth, cap);
    var ra := ReadTernary(ts, pos + 1, depth, cap);
    if ra.Got? && ts[ra.pos].kind == KColon {
      TernarySound(ts, ra.pos + 1, depth, cap);
      var rb := ReadTernary(ts, ra.pos + 1, depth, cap);
      if rb.Got? {
        BranchesMade(ts, start, pos, c, ra, rb, depth, cap);
      }
    }
  }

  lemma {:induction false} BranchesMade(ts: seq<Token>, start: nat, pos: nat, c: Cst, ra: Read<Cst>, rb: Read<Cst>, depth: nat, cap: nat)
    requires start < pos < |ts| && ts[pos].kind == KQuestion && depth > 0
    requires Derives(c, 1) && Tokens(c) == ts[start..pos] && depth + Nesting(c, 1) <= cap
    requires ra.Got? && Sound(ts, pos + 1, ra, 0, depth, cap) && ra.pos < |ts| && ts[ra.pos].kind == KColon
    requires rb.Got? && Sound(ts, ra.pos + 1, rb, 0, depth, cap) && rb.pos < |ts|
    ensures Sound(ts, start, Got(Conditional(c, ts[pos], ra.value, ts[ra.pos], rb.value), rb.pos), 0, depth - 1, cap)
  {
    ThreeRuns(ts, start, pos, ra.pos, rb.pos);
    ConditionalNeed(c, ts[pos], ra.value, ts[ra.pos], rb.value);
    ConditionalMade(c, ts[pos], ra.value, ts[ra.pos], rb.value);
    hide Derives, Tokens, Nesting;
  }

  lemma {:induction false} ConditionalNeed(c: Cst, question: Token, a: Cst, colon: Token, b: Cst)
    ensures Nesting(Conditional(c, question, a, colon, b), 0) == 1 + Max(Nesting(c, 1), Max(Nesting(a, 0), Nesting(b, 0)))
  {
  }

  lemma {:induction false} ThreeRuns(ts: seq<Token>, start: nat, i: nat, j: nat, end: nat)
    requires start <= i < j < end <= |ts|
    ensures ts[start..end] == ts[start..i] + [ts[i]] + ts[i + 1..j] + [ts[j]] + ts[j + 1..end]
  {
  }

  lemma {:induction false} LeftSound(ts: seq<Token>, pos: nat, level: nat, depth: nat, cap: nat)
    requires depth <= cap && Ended(ts) && Valued(ts) && pos < |ts| && 1 <= level <= 6
    ensures Sound(ts, pos, ReadLeft(ts, pos, level, depth, cap), level, depth, cap)
    decreases |ts| - pos, 3 * (7 - level) + 10
  {
    if depth < cap {
      hide Valued, Derives, Tokens, ReadOperand;
      OperandSound(ts, pos, level, depth + 1, cap);
      var r := ReadOperand(ts, pos, level, depth + 1, cap);
      if r.Got? {
        DerivesLower(r.value, level + 1, level);
        SpineOfOperand(r.value, level);
        ChainSound(ts, pos, r.pos, r.value, level, depth + 1, cap);
      }
    }
  }

  lemma {:induction false} ChainSound(ts: seq<Token>, start: nat, pos: nat, c: Cst, level: nat, depth: nat, cap: nat)
    requires depth <= cap && Ended(ts) && Valued(ts) && start < pos < |ts| && 1 <= level <= 6
    requires Derives(c, level) && Tokens(c) == ts[start..pos] && depth + Spine(c, level) <= cap && depth > 0
    ensures Sound(ts, start, ReadChain(ts, pos, c, level, depth, cap), level, depth - 1, cap)
    decreases |ts| - pos, 0
  {
    hide Valued, Derives, Tokens, ReadOperand;
    if OpLevel(ts[pos].kind) == level {
      OperandSound(ts, pos + 1, level, depth, cap);
      var r := ReadOperand(ts, pos + 1, level, depth, cap);
      if r.Got? {
        InfixMade(c, ts[pos], r.value, level);
        TwoRuns(ts, start, pos, r.pos);
        ChainSound(ts, start, r.pos, Infix(c, ts[pos], r.value), level, depth, cap);
      }
    }
  }

  lemma {:induction false} TwoRuns(ts: seq<Token>, start: nat, i: nat, end: nat)
    requires start <= i < end <= |ts|
    ensures ts[start..end] == ts[start..i] + [ts[i]] + ts[i + 1..end]
  {
  }

  lemma {:induction false} OperandSound(ts: seq<Token>, pos: nat, level: nat, depth: nat, cap: nat)
    requires depth <= cap && Ended(ts) && Valued(ts) && pos < |ts| && 1 <= level <= 6
    ensures Sound(ts, pos, ReadOperand(ts, pos, level, depth, cap), level + 1, depth, cap)
    decreases |ts| - pos, 3 * (7 - level) + 8
  {
    hide Valued, Sound, ReadLeft, ReadUnary;
    if level < 6 {
      LeftSound(ts, pos, level + 1, depth, cap);
    } else {
      UnarySound(ts, pos, depth, cap);
    }
  }

  lemma {:induction false} UnarySound(ts: seq<Token>, pos: nat, depth: nat, cap: nat)
    requires depth <= cap && Ended(ts) && Valued(ts) && pos < |ts|
    ensures Sound(ts, pos, ReadUnary(ts, pos, depth, cap), UNARY, depth, cap)
    decreases |ts| - pos, 9
  {
    hide Valued, Derives, Tokens, ReadPostfix;
    if ts[pos].kind != KMinus && ts[pos].kind != KNot {
      PostfixSound(ts, pos, depth, cap);
      var r := ReadPostfix(ts, pos, depth, cap);
      if r.Got? {
        NotPrefix(r.value);
      }
    } else if depth < cap {
      UnarySound(ts, pos + 1, depth + 1, cap);
      var r := ReadUnary(ts, pos + 1, depth + 1, cap);
      if r.Got? {
        PrefixMade(ts[pos], r.value);
        assert ts[pos..r.pos] == [ts[pos]] + ts[pos + 1..r.pos];
      }
    }
  }

  lemma {:induction false} PrefixMade(op: Token, operand: Cst)
    requires (op.kind == KMinus || op.kind == KNot) && Derives(operand, UNARY)
    ensures Derives(Prefix(op, operand), UNARY) && Tokens(Prefix(op, operand)) == [op] + Tokens(operand)
    ensures Nesting(Prefix(op, operand), UNARY) == 1 + Nesting(operand, UNARY)
  {
  }

  lemma {:induction false} NotPrefix(c: Cst)
    requires Derives(c, POSTFIX)
    ensures Derives(c, UNARY) && Nesting(c, UNARY) == Nesting(c, POSTFIX)
  {
  }

  lemma {:induction false} PostfixSound(ts: seq<Token>, pos: nat, depth: nat, cap: nat)
    requires depth <= cap && Ended(ts) && Valued(ts) && pos < |ts|
    ensures Sound(ts, pos, ReadPostfix(ts, pos, depth, cap), POSTFIX, depth, cap)
    decreases |ts| - pos, 8
  {
    hide Valued, Derives, Tokens, ReadPrimary, ReadLanes;
    PrimarySound(ts, pos, depth, cap);
    var r := ReadPrimary(ts, pos, depth, cap);
    if r.Got? {
      NotLane(r.value);
      LanesSound(ts, pos, r.pos, r.value, depth, cap);
    }
  }

  lemma {:induction false} NotLane(c: Cst)
    requires Derives(c, PRIMARY)
    ensures Derives(c, POSTFIX) && Nesting(c, POSTFIX) == Nesting(c, PRIMARY)
  {
  }

  lemma {:induction false} LanesSound(ts: seq<Token>, start: nat, pos: nat, c: Cst, depth: nat, cap: nat)
    requires Ended(ts) && start < pos < |ts| && Derives(c, POSTFIX) && Tokens(c) == ts[start..pos] && depth + Nesting(c, POSTFIX) <= cap
    requires c.Name? && ts[pos].kind == KDot ==> ts[pos + 1].kind != KIdent
    ensures Sound(ts, start, ReadLanes(ts, pos, c), POSTFIX, depth, cap)
    decreases |ts| - pos
  {
    hide Derives, Tokens;
    if ts[pos].kind == KDot && ts[pos + 1].kind == KIdent {
      LaneMade(c, ts[pos], ts[pos + 1]);
      assert ts[start..pos + 2] == ts[start..pos] + [ts[pos], ts[pos + 1]];
      LanesSound(ts, start, pos + 2, Lane(c, ts[pos], ts[pos + 1]), depth, cap);
    }
  }

  lemma {:induction false} PrimarySound(ts: seq<Token>, pos: nat, depth: nat, cap: nat)
    requires depth <= cap && Ended(ts) && Valued(ts) && pos < |ts|
    ensures var r := ReadPrimary(ts, pos, depth, cap);
            && Sound(ts, pos, r, PRIMARY, depth, cap)
            && (r.Got? && r.value.Name? && ts[r.pos].kind == KDot ==> ts[r.pos + 1].kind != KIdent)
    decreases |ts| - pos, 7
  {
    hide Derives, Tokens, ReadTernary, ReadPathOrCall;
    if ts[pos].kind in LITERALS {
      LiteralMade(ts[pos]);
      OneToken(ts, pos);
    } else if ts[pos].kind == KLParen {
      if depth < cap {
        TernarySound(ts, pos + 1, depth + 1, cap);
        var r := ReadTernary(ts, pos + 1, depth + 1, cap);
        if r.Got? && ts[r.pos].kind == KRParen {
          ParensMade(ts[pos], r.value, ts[r.pos]);
          assert ts[pos..r.pos + 1] == [ts[pos]] + ts[pos + 1..r.pos] + [ts[r.pos]];
        }
      }
    } else if ts[pos].kind == KIdent {
      PathOrCallSound(ts, pos, depth, cap);
      NameEnds(ts, pos, depth, cap);
    }
  }

  lemma {:induction false} NamesSound(ts: seq<Token>, start: nat, pos: nat, names: Names)
    requires Ended(ts) && start < pos < |ts| && NamesOk(names) && NameTokens(names) == ts[start..pos]
    ensures var (n, p) := ReadNames(ts, pos, names);
            && NamesOk(n) && NameTokens(n) == ts[start..p] && pos <= p
            && (ts[p].kind == KDot ==> ts[p + 1].kind != KIdent)
    decreases |ts| - pos
  {
    if ts[pos].kind == KDot && ts[pos + 1].kind == KIdent {
      assert ts[start..pos + 2] == ts[start..pos] + [ts[pos], ts[pos + 1]];
      NamesSound(ts, start, pos + 2, Dotted(names, ts[pos], ts[pos + 1]));
    }
  }

  /** A bare path is followed by no further name. */
  lemma {:induction false} NameEnds(ts: seq<Token>, pos: nat, depth: nat, cap: nat)
    requires Ended(ts) && pos < |ts| && ts[pos].kind == KIdent
    ensures var r := ReadPathOrCall(ts, pos, depth, cap);
            r.Got? && r.value.Name? && ts[r.pos].kind == KDot ==> ts[r.pos + 1].kind != KIdent
  {
    OneToken(ts, pos);
    NamesSound(ts, pos, pos + 1, First(ts[pos]));
    hide ReadNames, ReadArgs, NamesOk, NameTokens;
  }

  lemma {:induction false} PathOrCallSound(ts: seq<Token>, pos: nat, depth: nat, cap: nat)
    requires depth <= cap && Ended(ts) && Valued(ts) && pos < |ts| && ts[pos].kind == KIdent
    ensures Sound(ts, pos, ReadPathOrCall(ts, pos, depth, cap), PRIMARY, depth, cap)
    decreases |ts| - pos, 6
  {
    hide Valued, ReadArgs, ReadNames, Sound;
    OneToken(ts, pos);
    NamesSound(ts, pos, pos + 1, First(ts[pos]));
    var (names, p) := ReadNames(ts, pos + 1, First(ts[pos]));
    AfterNames(ts, pos, p, names, depth, cap);
  }

  lemma {:induction false} AfterNames(ts: seq<Token>, pos: nat, p: nat, names: Names, depth: nat, cap: nat)
    requires depth <= cap && Ended(ts) && Valued(ts) && pos < p < |ts| && NamesOk(names) && NameTokens(names) == ts[pos..p]
    ensures ts[p].kind == KLParen ==> p + 1 < |ts|
    ensures Sound(ts, pos,
                  if ts[p].kind != KLParen then Got(Name(names), p)
                  else if depth >= cap then Failed(Diag(TooComplex, ts[p].at), p)
                  else
                    match ReadArgs(ts, p + 1, depth + 1, cap)
                    case Failed(x, at) => Failed(x, at)
                    case Got(args, q) => Got(Apply(names, ts[p], args, ts[q - 1]), q),
                  PRIMARY, depth, cap)
    decreases |ts| - pos, 5
  {
    hide Valued, ReadArgs, Sound, NamesOk, NameTokens;
    FailedSound(ts, pos, PRIMARY, depth, cap);
    if ts[p].kind != KLParen {
      NameSoundAt(ts, pos, p, names, depth, cap);
    } else if depth < cap {
      ArgsSound(ts, p + 1, depth + 1, cap);
      var r := ReadArgs(ts, p + 1, depth + 1, cap);
      if r.Got? {
        CallMade(ts, pos, p, names, r, depth, cap);
      }
    }
  }

  lemma {:induction false} CallMade(ts: seq<Token>, pos: nat, p: nat, names: Names, r: Read<Args>, depth: nat, cap: nat)
    requires pos < p < |ts| && NamesOk(names) && NameTokens(names) == ts[pos..p] && ts[p].kind == KLParen
    requires r.Got? && ArgsSoundAt(ts, p + 1, r, depth + 1, cap)
    ensures Sound(ts, pos, Got(Apply(names, ts[p], r.value, ts[r.pos - 1]), r.pos), PRIMARY, depth, cap)
  {
    ApplyMade(names, ts[p], r.value, ts[r.pos - 1]);
    ApplyNeed(names, ts[p], r.value, ts[r.pos - 1]);
    CallRuns(ts, pos, p, r.pos);
    hide Derives, DerivesArgs, Tokens, ArgTokens, NamesOk, NameTokens, Nesting, ArgsNesting;
  }

  lemma {:induction false} FailedSound(ts: seq<Token>, pos: nat, level: nat, depth: nat, cap: nat)
    ensures forall x, at :: Sound(ts, pos, Failed(x, at), level, depth, cap)
  {
  }

  lemma {:induction false} NameSoundAt(ts: seq<Token>, pos: nat, p: nat, names: Names, depth: nat, cap: nat)
    requires pos < p < |ts| && NamesOk(names) && NameTokens(names) == ts[pos..p] && depth <= cap
    ensures Sound(ts, pos, Got(Name(names), p), PRIMARY, depth, cap)
  {
    NameMade(names);
    NameNeed(names);
    hide Derives, Tokens, Nesting;
  }

  lemma {:induction false} NameNeed(names: Names)
    ensures Nesting(Name(names), PRIMARY) == 0
  {
  }

  lemma {:induction false} ApplyNeed(names: Names, open: Token, args: Args, close: Token)
    ensures Nesting(Apply(names, open, args, close), PRIMARY) == 1 + ArgsNesting(args)
  {
  }

  lemma {:induction false} CallRuns(ts: seq<Token>, start: nat, i: nat, end: nat)
    requires start <= i < end - 1 && end <= |ts|
    ensures ts[start..end] == ts[start..i] + [ts[i]] + ts[i + 1..end - 1] + [ts[end - 1]]
  {
  }

  predicate ArgsSoundAt(ts: seq<Token>, pos: nat, r: Read<Args>, depth: nat, cap: nat) {
    r.Got? ==> && pos < r.pos <= |ts| && DerivesArgs(r.value) && ArgTokens(r.value) == ts[pos..r.pos - 1]
               && ts[r.pos - 1].kind == KRParen && depth + ArgsNesting(r.value) <= cap
  }

  lemma {:induction false} ArgsSound(ts: seq<Token>, pos: nat, depth: nat, cap: nat)
    requires Ended(ts) && Valued(ts) && pos < |ts| && depth <= cap
    ensures ArgsSoundAt(ts, pos, ReadArgs(ts, pos, depth, cap), depth, cap)
    decreases |ts| - pos, 40
  {
    hide Valued, Derives, DerivesArgs, Tokens, ArgTokens, ReadTernary, ReadMoreArgs, Nesting;
    NoArg();
    if ts[pos].kind != KRParen {
      TernarySound(ts, pos, depth, cap);
      var r := ReadTernary(ts, pos, depth, cap);
      if r.Got? {
        FirstArg(r.value);
        MoreArgsSound(ts, pos, r.pos, OneArg(r.value), depth, cap);
      }
    }
  }

  lemma {:induction false} MoreArgsSound(ts: seq<Token>, start: nat, pos: nat, args: Args, depth: nat, cap: nat)
    requires Ended(ts) && Valued(ts) && start < pos < |ts| && !args.NoArgs? && DerivesArgs(args) && ArgTokens(args) == ts[start..pos]
    requires depth + ArgsNesting(args) <= cap
    ensures ArgsSoundAt(ts, start, ReadMoreArgs(ts, pos, args, depth, cap), depth, cap)
    decreases |ts| - pos, 0
  {
    hide Valued, Derives, DerivesArgs, Tokens, ArgTokens, ReadTernary, Nesting;
    if ts[pos].kind == KComma {
      TernarySound(ts, pos + 1, depth, cap);
      var r := ReadTernary(ts, pos + 1, depth, cap);
      if r.Got? {
        NextArg(args, ts[pos], r.value);
        TwoRuns(ts, start, pos, r.pos);
        MoreArgsSound(ts, start, r.pos, MoreArgs(args, ts[pos], r.value), depth, cap);
      }
    }
  }
}
