/** The older generation's expression parser: recursive descent over the
    lexer's tokens with one function per precedence level, a cursor into
    the token sequence, and panics where the source unwraps a missing
    value.

    Two grammars are modelled. `ExpressionsOnly` is the expression parser
    as it stands. `WithVariables` adds what the statement parser relies on
    but the expression parser does not provide: an identifier is a
    variable reference, and `target = value` at the lowest precedence is
    an assignment. */
module Parser {
  import opened Basics
  import opened Lexer
  import opened ParserExpression

  datatype Grammar = ExpressionsOnly | WithVariables

  /** A parsed expression and the cursor after it. A parse that panics is
      `None`. */
  datatype Parsed = Parsed(expr: Expr, cursor: nat)

  // ---------------------------------------------------------------------
  // Cursor primitives

  /** `peek_kind`: the kind under the cursor, if there is a token there. */
  function PeekKind(ts: seq<Token>, c: nat): (r: Option<LexemeKind>)
    ensures r.Some? <==> c < |ts|
    ensures r.Some? ==> r.value == ts[c].lexeme
  {
    if c < |ts| then Some(ts[c].lexeme) else None
  }

  /** `at_end`: the token under the cursor is the end-of-input marker. */
  predicate AtEnd(ts: seq<Token>, c: nat)
  {
    PeekKind(ts, c) == Some(EOF)
  }

  /** `at`: the token under the cursor has kind `k`, never at the end
      marker. */
  predicate At(ts: seq<Token>, c: nat, k: LexemeKind)
  {
    !AtEnd(ts, c) && PeekKind(ts, c) == Some(k)
  }

  /** `at` holds exactly for a token of kind `k` other than `EOF`. */
  lemma AtMeaning(ts: seq<Token>, c: nat, k: LexemeKind)
    ensures At(ts, c, k) <==> c < |ts| && ts[c].lexeme == k && k != EOF
  {
  }

  /** `eat_whitespace`: steps over one `Whitespace` token, if the cursor
      is on one. */
  function EatWhitespace(ts: seq<Token>, c: nat): (r: nat)
    ensures c <= r <= c + 1
    ensures r == c + 1 <==> c < |ts| && ts[c].lexeme == Whitespace
  {
    if PeekKind(ts, c) == Some(Whitespace) then c + 1 else c
  }

  /** Two whitespace tokens in a row are not both eaten. */
  lemma EatsOneWhitespace(ts: seq<Token>, c: nat)
    requires c + 1 < |ts| && ts[c].lexeme == Whitespace && ts[c + 1].lexeme == Whitespace
    ensures EatWhitespace(ts, c) == c + 1
    ensures PeekKind(ts, EatWhitespace(ts, c)) == Some(Whitespace)
  {
  }

  // ---------------------------------------------------------------------
  // Runs of whitespace

  /** The token stream with every run of `Whitespace` tokens cut down to
      its first token, as a lexer making one token per run of blanks would
      produce it. */
  function CollapseWhitespace(ts: seq<Token>): (r: seq<Token>)
    ensures |r| <= |ts|
    ensures |ts| > 0 ==> |r| > 0 && r[0] == ts[0]
    decreases |ts|
  {
    if |ts| < 2 then ts
    else if ts[0].lexeme == Whitespace && ts[1].lexeme == Whitespace then CollapseWhitespace([ts[0]] + ts[2..])
    else [ts[0]] + CollapseWhitespace(ts[1..])
  }

  /** No two whitespace tokens are neighbours. */
  predicate NoWhitespaceRuns(ts: seq<Token>)
  {
    forall k :: 0 <= k < |ts| - 1 ==> !(ts[k].lexeme == Whitespace && ts[k + 1].lexeme == Whitespace)
  }

  /** The tokens other than whitespace, in order. */
  function Words(ts: seq<Token>): seq<Token>
  {
    if |ts| == 0 then [] else (if ts[0].lexeme == Whitespace then [] else [ts[0]]) + Words(ts[1..])
  }

  /** A collapsed stream has no runs of whitespace. */
  lemma {:induction false} CollapseHasNoRuns(ts: seq<Token>)
    ensures NoWhitespaceRuns(CollapseWhitespace(ts))
    decreases |ts|
  {
    if |ts| >= 2 {
      if ts[0].lexeme == Whitespace && ts[1].lexeme == Whitespace {
        CollapseHasNoRuns([ts[0]] + ts[2..]);
      } else {
        CollapseHasNoRuns(ts[1..]);
        var rest := CollapseWhitespace(ts[1..]);
        var r := [ts[0]] + rest;
        assert forall k :: 1 <= k < |r| ==> r[k] == rest[k - 1];
      }
    }
  }

  /** Collapsing drops whitespace tokens only: every other token is kept,
      in order. */
  lemma {:induction false} CollapseKeepsWords(ts: seq<Token>)
    ensures Words(CollapseWhitespace(ts)) == Words(ts)
    decreases |ts|
  {
    if |ts| >= 2 {
      if ts[0].lexeme == Whitespace && ts[1].lexeme == Whitespace {
        var u := [ts[0]] + ts[2..];
        CollapseKeepsWords(u);
        assert u[1..] == ts[2..];
        assert Words(ts) == Words(ts[1..]) == Words(ts[2..]);
      } else {
        CollapseKeepsWords(ts[1..]);
        var r := [ts[0]] + CollapseWhitespace(ts[1..]);
        assert r[0] == ts[0] && r[1..] == CollapseWhitespace(ts[1..]);
      }
    }
  }

  /** A stream without runs of whitespace collapses to itself. */
  lemma {:induction false} CollapseKeepsSingles(ts: seq<Token>)
    requires NoWhitespaceRuns(ts)
    ensures CollapseWhitespace(ts) == ts
    decreases |ts|
  {
    if |ts| >= 2 {
      assert !(ts[0].lexeme == Whitespace && ts[1].lexeme == Whitespace);
      CollapseKeepsSingles(ts[1..]);
      assert [ts[0]] + ts[1..] == ts;
    }
  }

  /** On a stream without runs of whitespace, `eat_whitespace` does what
      it is for: the cursor ends on a token that is not whitespace, or
      past the end. */
  lemma EatsWholeRun(ts: seq<Token>, c: nat)
    requires NoWhitespaceRuns(ts)
    ensures EatWhitespace(ts, c) < |ts| ==> ts[EatWhitespace(ts, c)].lexeme != Whitespace
  {
    if c < |ts| && ts[c].lexeme == Whitespace && c + 1 < |ts| {
      assert !(ts[c].lexeme == Whitespace && ts[c + 1].lexeme == Whitespace);
    }
  }

  /** `is_equal`: the cursor is at one of `kinds`. */
  predicate IsEqual(ts: seq<Token>, c: nat, kinds: seq<LexemeKind>)
  {
    exists i :: 0 <= i < |kinds| && At(ts, c, kinds[i])
  }

  lemma IsEqualMeaning(ts: seq<Token>, c: nat, kinds: seq<LexemeKind>)
    ensures IsEqual(ts, c, kinds) <==> c < |ts| && ts[c].lexeme in kinds && ts[c].lexeme != EOF
  {
    if c < |ts| && ts[c].lexeme in kinds && ts[c].lexeme != EOF {
      var i :| 0 <= i < |kinds| && kinds[i] == ts[c].lexeme;
      assert At(ts, c, kinds[i]);
    }
  }

  /** The operators of each precedence level: equality (5), comparison
      (4), term (3), factor (2), and the prefix operators of unary (1). */
  function Operators(rank: nat): seq<LexemeKind>
  {
    if rank == 5 then [BangEqual, EqualEqual]
    else if rank == 4 then [Greater, GreaterEqual, Less, LessEqual]
    else if rank == 3 then [Minus, Plus]
    else if rank == 2 then [Slash, Star]
    else [Bang, Minus, Plus]
  }

  function ErrorAt(line: nat, what: string): Expr
  {
    Error(line, "Parsing error at " + what)
  }

  // ---------------------------------------------------------------------
  // The descent

  /** `expression`: the lowest precedence level of the grammar. */
  function Expression(g: Grammar, ts: seq<Token>, c: nat): (r: Option<Parsed>)
    ensures r.Some? ==> c < |ts| && c <= r.value.cursor <= |ts|
    ensures r.Some? && g == ExpressionsOnly ==> WithoutVariables(r.value.expr)
    decreases |ts| - c, 7, 0
  {
    if g == WithVariables then Assignment(g, ts, c) else Level(g, ts, c, 5)
  }

  /** Assignment, right associative, below equality: an `=` after a
      variable reference assigns to it; after anything else it is an
      error node. */
  function Assignment(g: Grammar, ts: seq<Token>, c: nat): (r: Option<Parsed>)
    ensures r.Some? ==> c < |ts| && c <= r.value.cursor <= |ts|
    ensures r.Some? && g == ExpressionsOnly ==> WithoutVariables(r.value.expr)
    decreases |ts| - c, 6, 0
  {
    match Level(g, ts, c, 5)
    case None => None
    case Some(Parsed(target, c1)) =>
      if At(ts, c1, Equal) && g == WithVariables then
        match Assignment(g, ts, EatWhitespace(ts, c1 + 1))
        case None => None
        case Some(Parsed(value, c2)) =>
          if target.Variable? then Some(Parsed(Assign(target.name, value), c2))
          else Some(Parsed(Error(0, "Invalid left hand assignment expression"), c2))
      else Some(Parsed(target, c1))
  }

  /** `equality`, `comparison`, `term` and `factor`: an operand of the next
      level, one whitespace token eaten, then the operator loop. */
  function Level(g: Grammar, ts: seq<Token>, c: nat, rank: nat): (r: Option<Parsed>)
    requires 2 <= rank <= 5
    ensures r.Some? ==> c < |ts| && c <= r.value.cursor <= |ts|
    ensures r.Some? && g == ExpressionsOnly ==> WithoutVariables(r.value.expr)
    decreases |ts| - c, rank, 1
  {
    match Operand(g, ts, c, rank)
    case None => None
    case Some(Parsed(e, c1)) => LevelLoop(g, ts, rank, e, EatWhitespace(ts, c1))
  }

  /** An operand of level `rank`: a `unary` for `factor`, the next level
      up otherwise. */
  function Operand(g: Grammar, ts: seq<Token>, c: nat, rank: nat): (r: Option<Parsed>)
    requires 2 <= rank <= 5
    ensures r.Some? ==> c < |ts| && c <= r.value.cursor <= |ts|
    ensures r.Some? && g == ExpressionsOnly ==> WithoutVariables(r.value.expr)
    decreases |ts| - c, rank, 0
  {
    if rank == 2 then UnaryExpr(g, ts, c) else Level(g, ts, c, rank - 1)
  }

  /** The operator loop of a level: while the cursor is at one of the
      level's operators, step over it, parse the next operand at the next
      level and fold it in on the right. No whitespace is eaten between
      rounds. */
  function LevelLoop(g: Grammar, ts: seq<Token>, rank: nat, left: Expr, c: nat): (r: Option<Parsed>)
    requires 2 <= rank <= 5
    ensures r.Some? ==> c <= r.value.cursor && (c <= |ts| ==> r.value.cursor <= |ts|)
    ensures r.Some? && g == ExpressionsOnly && WithoutVariables(left) ==> WithoutVariables(r.value.expr)
    decreases |ts| - c, rank, 0
  {
    if IsEqual(ts, c, Operators(rank)) then
      match Operand(g, ts, c + 1, rank)
      case None => None
      case Some(Parsed(right, c2)) => LevelLoop(g, ts, rank, Binary(left, ts[c].lexeme, right), c2)
    else Some(Parsed(left, c))
  }

  /** `unary`: one whitespace token eaten, then the prefix loop. */
  function UnaryExpr(g: Grammar, ts: seq<Token>, c: nat): (r: Option<Parsed>)
    ensures r.Some? ==> c < |ts| && c <= r.value.cursor <= |ts|
    ensures r.Some? && g == ExpressionsOnly ==> WithoutVariables(r.value.expr)
    decreases |ts| - c, 1, 1
  {
    PrefixLoop(g, ts, None, EatWhitespace(ts, c))
  }

  /** The loop of `unary`. Each round steps over a prefix operator and
      parses an operand with `unary`. If the result so far is a unary node
      `op x`, the round turns it into the binary node `x op operand`,
      keeping the earlier operator; otherwise the result becomes
      `operator operand`, and whatever was there is dropped. When no round
      ran, the operand is a checked primary. */
  function PrefixLoop(g: Grammar, ts: seq<Token>, res: Option<Expr>, c: nat): (r: Option<Parsed>)
    ensures r.Some? ==> c <= r.value.cursor && (c <= |ts| ==> r.value.cursor <= |ts|)
    ensures r.Some? && res.None? ==> c < |ts|
    ensures r.Some? && g == ExpressionsOnly && (res.Some? ==> WithoutVariables(res.value)) ==> WithoutVariables(r.value.expr)
    decreases |ts| - c, 1, 0
  {
    if IsEqual(ts, c, Operators(1)) then
      var operator := ts[c].lexeme;
      match UnaryExpr(g, ts, c + 1)
      case None => None
      case Some(Parsed(operand, c1)) =>
        PrefixLoop(g, ts, Some(PrefixMerge(res, operator, operand)), c1)
    else if res.Some? then Some(Parsed(res.value, c))
    else CheckedPrimary(g, ts, c)
  }

  /** A primary, replaced by an error node quoting the character when the
      token after it is an unexpected character. */
  function CheckedPrimary(g: Grammar, ts: seq<Token>, c: nat): (r: Option<Parsed>)
    ensures r.Some? ==> c < |ts| && c <= r.value.cursor <= |ts|
    ensures r.Some? && g == ExpressionsOnly ==> WithoutVariables(r.value.expr)
    decreases |ts| - c, 0, 1
  {
    match Primary(g, ts, c)
    case None => None
    case Some(Parsed(e, c1)) =>
      if c1 < |ts| && ts[c1].lexeme.UNEXPECTED? then Some(Parsed(ErrorAt(ts[c1].line, ts[c1].lexeme.found), c1))
      else Some(Parsed(e, c1))
  }

  /** What one round of the prefix loop makes of the result so far. */
  function PrefixMerge(res: Option<Expr>, operator: LexemeKind, operand: Expr): Expr
  {
    if res.Some? && res.value.Unary? then Binary(res.value.right, res.value.operator, operand)
    else Unary(operator, operand)
  }

  /** `primary`: a literal, a parenthesised expression, or an error node
      naming the token, which is left in place. There must be a token
      under the cursor, and a parenthesised expression must be closed. */
  function Primary(g: Grammar, ts: seq<Token>, c: nat): (r: Option<Parsed>)
    ensures r.Some? ==> c < |ts| && c <= r.value.cursor <= |ts|
    ensures r.Some? && g == ExpressionsOnly ==> WithoutVariables(r.value.expr)
    decreases |ts| - c, 0, 0
  {
    if c >= |ts| then None
    else
      var t := ts[c];
      match t.lexeme
      case FALSE => Some(Parsed(Literal(BOOLEAN(false)), c + 1))
      case TRUE => Some(Parsed(Literal(BOOLEAN(true)), c + 1))
      case STRING(s) => Some(Parsed(Literal(Value.STRING(s)), c + 1))
      case NUMBER(n) => Some(Parsed(Literal(Value.NUMBER(n)), c + 1))
      case LeftParen =>
        (match Expression(g, ts, c + 1)
         case None => None
         case Some(Parsed(e, c1)) =>
           if At(ts, c1, RightParen) then Some(Parsed(Grouping(e), c1 + 1)) else None)
      case IDENTIFIER(name) =>
        if g == WithVariables then Some(Parsed(Variable(name), c + 1))
        else Some(Parsed(ErrorAt(t.line, KindName(t.lexeme)), c))
      case _ => Some(Parsed(ErrorAt(t.line, KindName(t.lexeme)), c))
  }

  /** `parse`: an expression from the first token. */
  function Parse(g: Grammar, ts: seq<Token>): (r: Option<Expr>)
    ensures r.Some? ==> 0 < |ts|
    ensures r.Some? && g == ExpressionsOnly ==> WithoutVariables(r.value)
  {
    match Expression(g, ts, 0)
    case None => None
    case Some(p) => Some(p.expr)
  }

  // ---------------------------------------------------------------------
  // Steps of the descent

  /** The literal a token stands for, if it is one. */
  function LiteralOf(k: LexemeKind): Option<Value>
  {
    match k
    case FALSE => Some(BOOLEAN(false))
    case TRUE => Some(BOOLEAN(true))
    case STRING(s) => Some(Value.STRING(s))
    case NUMBER(n) => Some(Value.NUMBER(n))
    case _ => None
  }

  /** A literal token is a primary of its own, and the cursor moves past
      it. */
  lemma LiteralPrimary(g: Grammar, ts: seq<Token>, c: nat)
    requires c < |ts| && LiteralOf(ts[c].lexeme).Some?
    ensures Primary(g, ts, c) == Some(Parsed(Literal(LiteralOf(ts[c].lexeme).value), c + 1))
  {
  }

  /** After at most one whitespace token, a primary that is not a prefix
      operator and is not followed by an unexpected character is the whole
      unary operand. */
  lemma PrimaryOperand(g: Grammar, ts: seq<Token>, c: nat, e: Expr, c1: nat)
    requires EatWhitespace(ts, c) < |ts| && ts[EatWhitespace(ts, c)].lexeme !in Operators(1)
    requires Primary(g, ts, EatWhitespace(ts, c)) == Some(Parsed(e, c1))
    requires c1 < |ts| ==> !ts[c1].lexeme.UNEXPECTED?
    ensures UnaryExpr(g, ts, c) == Some(Parsed(e, c1))
  {
    IsEqualMeaning(ts, EatWhitespace(ts, c), Operators(1));
    assert CheckedPrimary(g, ts, EatWhitespace(ts, c)) == Some(Parsed(e, c1));
  }

  /** A parenthesised expression closed by `)` is a grouping. */
  lemma GroupingPrimary(g: Grammar, ts: seq<Token>, c: nat, e: Expr, c1: nat)
    requires c < |ts| && ts[c].lexeme == LeftParen
    requires Expression(g, ts, c + 1) == Some(Parsed(e, c1))
    requires c1 < |ts| && ts[c1].lexeme == RightParen
    ensures Primary(g, ts, c) == Some(Parsed(Grouping(e), c1 + 1))
  {
  }

  /** A round of the prefix loop. */
  lemma PrefixStep(g: Grammar, ts: seq<Token>, res: Option<Expr>, c: nat, operand: Expr, c1: nat)
    requires c < |ts| && ts[c].lexeme in Operators(1)
    requires UnaryExpr(g, ts, c + 1) == Some(Parsed(operand, c1))
    ensures PrefixLoop(g, ts, res, c) == PrefixLoop(g, ts, Some(PrefixMerge(res, ts[c].lexeme, operand)), c1)
  {
    IsEqualMeaning(ts, c, Operators(1));
    assert IsEqual(ts, c, Operators(1));
  }

  /** The prefix loop ends, after at least one round, at a token that is
      not a prefix operator. */
  lemma PrefixStop(g: Grammar, ts: seq<Token>, e: Expr, c: nat)
    requires c < |ts| ==> ts[c].lexeme !in Operators(1)
    ensures PrefixLoop(g, ts, Some(e), c) == Some(Parsed(e, c))
  {
    IsEqualMeaning(ts, c, Operators(1));
  }

  /** The first operand of a level enters its operator loop after one
      whitespace token is eaten. */
  lemma LevelEnter(g: Grammar, ts: seq<Token>, c: nat, rank: nat, e: Expr, c1: nat)
    requires 2 <= rank <= 5
    requires Operand(g, ts, c, rank) == Some(Parsed(e, c1))
    ensures Level(g, ts, c, rank) == LevelLoop(g, ts, rank, e, EatWhitespace(ts, c1))
  {
  }

  /** A round of the operator loop: the operator and the next operand
      join the result on the right. */
  lemma LevelStep(g: Grammar, ts: seq<Token>, rank: nat, left: Expr, c: nat, right: Expr, c2: nat)
    requires 2 <= rank <= 5
    requires c < |ts| && ts[c].lexeme in Operators(rank)
    requires Operand(g, ts, c + 1, rank) == Some(Parsed(right, c2))
    ensures LevelLoop(g, ts, rank, left, c) == LevelLoop(g, ts, rank, Binary(left, ts[c].lexeme, right), c2)
  {
    IsEqualMeaning(ts, c, Operators(rank));
  }

  /** The loop stops at a token that is not one of the level's
      operators. */
  lemma LevelStop(g: Grammar, ts: seq<Token>, rank: nat, left: Expr, c: nat)
    requires 2 <= rank <= 5
    requires c < |ts| ==> ts[c].lexeme !in Operators(rank)
    ensures LevelLoop(g, ts, rank, left, c) == Some(Parsed(left, c))
  {
    IsEqualMeaning(ts, c, Operators(rank));
  }

  /** At `c` there is no whitespace and no operator of the levels `from`
      to `to`. */
  predicate Settled(ts: seq<Token>, c: nat, from: nat, to: nat)
  {
    c < |ts| ==>
      ts[c].lexeme != Whitespace && forall k :: from <= k <= to ==> ts[c].lexeme !in Operators(k)
  }

  /** A unary operand, then at most one whitespace token and a token that
      is not a `/` or `*`, is a whole factor. */
  lemma FactorOperand(g: Grammar, ts: seq<Token>, c: nat, e: Expr, c1: nat)
    requires UnaryExpr(g, ts, c) == Some(Parsed(e, c1))
    requires Settled(ts, EatWhitespace(ts, c1), 2, 2)
    ensures Level(g, ts, c, 2) == Some(Parsed(e, EatWhitespace(ts, c1)))
  {
    var c2 := EatWhitespace(ts, c1);
    assert c2 < |ts| ==> ts[c2].lexeme !in Operators(2);
    LevelEnter(g, ts, c, 2, e, c1);
    LevelStop(g, ts, 2, e, c2);
  }

  /** The result of a level followed by a settled token passes unchanged
      through the levels above it, up to `top`. */
  lemma {:induction false} Rises(g: Grammar, ts: seq<Token>, c: nat, low: nat, top: nat, e: Expr, c1: nat)
    requires 2 <= low <= top <= 5
    requires Level(g, ts, c, low) == Some(Parsed(e, c1))
    requires Settled(ts, c1, low + 1, top)
    ensures Level(g, ts, c, top) == Some(Parsed(e, c1))
    decreases top
  {
    if low < top {
      Rises(g, ts, c, low, top - 1, e, c1);
      assert EatWhitespace(ts, c1) == c1;
      assert c1 < |ts| ==> ts[c1].lexeme !in Operators(top);
      LevelEnter(g, ts, c, top, e, c1);
      LevelStop(g, ts, top, e, c1);
    }
  }

  /** The levels' operator sets do not overlap. */
  lemma OperatorsDisjoint(k1: nat, k2: nat, op: LexemeKind)
    requires 2 <= k1 <= 5 && 2 <= k2 <= 5 && k1 != k2
    requires op in Operators(k1)
    ensures op !in Operators(k2)
  {
  }

  /** A unary operand, then at most one whitespace token and a token
      settled for the levels below `rank`, opens the operator loop of
      `rank` at that token. */
  lemma LevelOpen(g: Grammar, ts: seq<Token>, c: nat, rank: nat, e: Expr, c1: nat)
    requires 2 <= rank <= 5
    requires UnaryExpr(g, ts, c) == Some(Parsed(e, c1))
    requires Settled(ts, EatWhitespace(ts, c1), 2, rank - 1)
    ensures Level(g, ts, c, rank) == LevelLoop(g, ts, rank, e, EatWhitespace(ts, c1))
  {
    var c2 := EatWhitespace(ts, c1);
    if rank > 2 {
      FactorOperand(g, ts, c, e, c1);
      Rises(g, ts, c, 2, rank - 1, e, c2);
      assert EatWhitespace(ts, c2) == c2;
      LevelEnter(g, ts, c, rank, e, c2);
    } else {
      LevelEnter(g, ts, c, rank, e, c1);
    }
  }

  /** A unary operand followed by a token settled for the levels below
      `rank` is an operand of `rank`. */
  lemma AtomOperand(g: Grammar, ts: seq<Token>, c: nat, rank: nat, e: Expr, c1: nat)
    requires 2 <= rank <= 5
    requires UnaryExpr(g, ts, c) == Some(Parsed(e, c1))
    requires Settled(ts, c1, 2, rank - 1)
    ensures Operand(g, ts, c, rank) == Some(Parsed(e, c1))
  {
    if rank > 2 {
      FactorOperand(g, ts, c, e, c1);
      Rises(g, ts, c, 2, rank - 1, e, c1);
    }
  }

  /** A literal token that nothing unexpected follows is a unary
      operand. */
  lemma LiteralOperand(g: Grammar, ts: seq<Token>, c: nat)
    requires c < |ts| && LiteralOf(ts[c].lexeme).Some?
    requires c + 1 < |ts| ==> !ts[c + 1].lexeme.UNEXPECTED?
    ensures UnaryExpr(g, ts, c) == Some(Parsed(Literal(LiteralOf(ts[c].lexeme).value), c + 1))
  {
    LiteralPrimary(g, ts, c);
    PrimaryOperand(g, ts, c, Literal(LiteralOf(ts[c].lexeme).value), c + 1);
  }

  /** The equality level's result is the whole expression unless an `=`
      follows it. */
  lemma ExpressionLevel(g: Grammar, ts: seq<Token>, c: nat, e: Expr, c1: nat)
    requires Level(g, ts, c, 5) == Some(Parsed(e, c1))
    requires c1 < |ts| ==> ts[c1].lexeme != Equal
    ensures Expression(g, ts, c) == Some(Parsed(e, c1))
  {
  }

  /** A token that is an operator of level `rank` is settled for every
      other level. */
  lemma OperatorSettled(ts: seq<Token>, c: nat, rank: nat, low: nat, top: nat)
    requires 2 <= rank <= 5 && c < |ts| && ts[c].lexeme in Operators(rank)
    requires 2 <= low && top <= 5 && (top < rank || rank < low)
    ensures Settled(ts, c, low, top)
  {
    forall k | low <= k <= top
      ensures ts[c].lexeme !in Operators(k)
    {
      OperatorsDisjoint(rank, k, ts[c].lexeme);
    }
  }

  // ---------------------------------------------------------------------
  // Shapes of the result

  /** Where an expression ends: nothing, or a token that is not
      whitespace, not a binary operator, not `=` and not an unexpected
      character. */
  predicate Ends(ts: seq<Token>, c: nat)
  {
    c < |ts| ==> Settled(ts, c, 2, 5) && ts[c].lexeme != Equal && !ts[c].lexeme.UNEXPECTED?
  }

  /** `x op y` with literal operands is one binary node at the level of
      its operator. */
  lemma BinaryLevel(g: Grammar, ts: seq<Token>, c: nat, rank: nat)
    requires 2 <= rank <= 5 && c + 3 <= |ts| && Ends(ts, c + 3)
    requires LiteralOf(ts[c].lexeme).Some? && ts[c + 1].lexeme in Operators(rank) && LiteralOf(ts[c + 2].lexeme).Some?
    ensures Level(g, ts, c, rank)
         == Some(Parsed(Binary(Literal(LiteralOf(ts[c].lexeme).value), ts[c + 1].lexeme, Literal(LiteralOf(ts[c + 2].lexeme).value)), c + 3))
  {
    var x, y := Literal(LiteralOf(ts[c].lexeme).value), Literal(LiteralOf(ts[c + 2].lexeme).value);
    LiteralOperand(g, ts, c);
    OperatorSettled(ts, c + 1, rank, 2, rank - 1);
    LevelOpen(g, ts, c, rank, x, c + 1);
    LiteralOperand(g, ts, c + 2);
    AtomOperand(g, ts, c + 2, rank, y, c + 3);
    LevelStep(g, ts, rank, x, c + 1, y, c + 3);
    LevelStop(g, ts, rank, Binary(x, ts[c + 1].lexeme, y), c + 3);
  }

  /** `x op y` with literal operands and a binary operator of any level
      is that one binary node. */
  lemma SimpleBinary(g: Grammar, ts: seq<Token>, c: nat, rank: nat)
    requires 2 <= rank <= 5 && c + 3 <= |ts| && Ends(ts, c + 3)
    requires LiteralOf(ts[c].lexeme).Some? && ts[c + 1].lexeme in Operators(rank) && LiteralOf(ts[c + 2].lexeme).Some?
    ensures Expression(g, ts, c)
         == Some(Parsed(Binary(Literal(LiteralOf(ts[c].lexeme).value), ts[c + 1].lexeme, Literal(LiteralOf(ts[c + 2].lexeme).value)), c + 3))
  {
    var b := Binary(Literal(LiteralOf(ts[c].lexeme).value), ts[c + 1].lexeme, Literal(LiteralOf(ts[c + 2].lexeme).value));
    BinaryLevel(g, ts, c, rank);
    Rises(g, ts, c, rank, 5, b, c + 3);
    ExpressionLevel(g, ts, c, b, c + 3);
  }

  /** `x op y`, with one blank on each side of the operator, is the same
      binary node. */
  lemma SpacedBinary(g: Grammar, ts: seq<Token>, rank: nat)
    requires 2 <= rank <= 5 && |ts| == 5
    requires LiteralOf(ts[0].lexeme).Some? && ts[2].lexeme in Operators(rank) && LiteralOf(ts[4].lexeme).Some?
    requires ts[1].lexeme == Whitespace && ts[3].lexeme == Whitespace
    ensures Expression(g, ts, 0)
         == Some(Parsed(Binary(Literal(LiteralOf(ts[0].lexeme).value), ts[2].lexeme, Literal(LiteralOf(ts[4].lexeme).value)), 5))
  {
    var x, y := Literal(LiteralOf(ts[0].lexeme).value), Literal(LiteralOf(ts[4].lexeme).value);
    LiteralOperand(g, ts, 0);
    OperatorSettled(ts, 2, rank, 2, rank - 1);
    LevelOpen(g, ts, 0, rank, x, 1);
    LiteralPrimary(g, ts, 4);
    PrimaryOperand(g, ts, 3, y, 5);
    AtomOperand(g, ts, 3, rank, y, 5);
    LevelStep(g, ts, rank, x, 2, y, 5);
    LevelStop(g, ts, rank, Binary(x, ts[2].lexeme, y), 5);
    Rises(g, ts, 0, rank, 5, Binary(x, ts[2].lexeme, y), 5);
    ExpressionLevel(g, ts, 0, Binary(x, ts[2].lexeme, y), 5);
  }

  /** `x op y op' z` with two operators of one level groups to the left. */
  lemma LeftAssociative(g: Grammar, ts: seq<Token>, rank: nat)
    requires 2 <= rank <= 5 && |ts| == 5
    requires LiteralOf(ts[0].lexeme).Some? && LiteralOf(ts[2].lexeme).Some? && LiteralOf(ts[4].lexeme).Some?
    requires ts[1].lexeme in Operators(rank) && ts[3].lexeme in Operators(rank)
    ensures var x, y, z := Literal(LiteralOf(ts[0].lexeme).value), Literal(LiteralOf(ts[2].lexeme).value),
                           Literal(LiteralOf(ts[4].lexeme).value);
      Expression(g, ts, 0) == Some(Parsed(Binary(Binary(x, ts[1].lexeme, y), ts[3].lexeme, z), 5))
  {
    var x, y, z := Literal(LiteralOf(ts[0].lexeme).value), Literal(LiteralOf(ts[2].lexeme).value),
                   Literal(LiteralOf(ts[4].lexeme).value);
    LiteralOperand(g, ts, 0);
    OperatorSettled(ts, 1, rank, 2, rank - 1);
    LevelOpen(g, ts, 0, rank, x, 1);
    LiteralOperand(g, ts, 2);
    OperatorSettled(ts, 3, rank, 2, rank - 1);
    AtomOperand(g, ts, 2, rank, y, 3);
    LevelStep(g, ts, rank, x, 1, y, 3);
    LiteralOperand(g, ts, 4);
    AtomOperand(g, ts, 4, rank, z, 5);
    LevelStep(g, ts, rank, Binary(x, ts[1].lexeme, y), 3, z, 5);
    var e := Binary(Binary(x, ts[1].lexeme, y), ts[3].lexeme, z);
    LevelStop(g, ts, rank, e, 5);
    Rises(g, ts, 0, rank, 5, e, 5);
    ExpressionLevel(g, ts, 0, e, 5);
  }

  /** A unary expression followed by nothing that continues it is the
      whole expression. */
  lemma UnaryWhole(g: Grammar, ts: seq<Token>, c: nat, e: Expr, c1: nat)
    requires UnaryExpr(g, ts, c) == Some(Parsed(e, c1))
    requires Ends(ts, c1)
    ensures Expression(g, ts, c) == Some(Parsed(e, c1))
  {
    FactorOperand(g, ts, c, e, c1);
    Rises(g, ts, c, 2, 5, e, c1);
    ExpressionLevel(g, ts, c, e, c1);
  }

  /** A literal that ends the expression is the whole expression. */
  lemma LiteralExpression(g: Grammar, ts: seq<Token>, c: nat)
    requires c < |ts| && LiteralOf(ts[c].lexeme).Some? && Ends(ts, c + 1)
    ensures Expression(g, ts, c) == Some(Parsed(Literal(LiteralOf(ts[c].lexeme).value), c + 1))
  {
    LiteralOperand(g, ts, c);
    UnaryWhole(g, ts, c, Literal(LiteralOf(ts[c].lexeme).value), c + 1);
  }

  /** With variables, an identifier that ends the expression is a
      reference to the variable it names. */
  lemma VariableExpression(g: Grammar, ts: seq<Token>, c: nat)
    requires g == WithVariables
    requires c < |ts| && ts[c].lexeme.IDENTIFIER? && Ends(ts, c + 1)
    ensures Expression(g, ts, c) == Some(Parsed(Variable(ts[c].lexeme.name), c + 1))
  {
    var e := Variable(ts[c].lexeme.name);
    assert Primary(g, ts, c) == Some(Parsed(e, c + 1));
    PrimaryOperand(g, ts, c, e, c + 1);
    UnaryWhole(g, ts, c, e, c + 1);
  }

  /** A prefix operator before a literal is a unary node. */
  lemma PrefixOnce(g: Grammar, ts: seq<Token>)
    requires |ts| == 2 && ts[0].lexeme in Operators(1) && LiteralOf(ts[1].lexeme).Some?
    ensures Expression(g, ts, 0) == Some(Parsed(Unary(ts[0].lexeme, Literal(LiteralOf(ts[1].lexeme).value)), 2))
  {
    var x := Literal(LiteralOf(ts[1].lexeme).value);
    LiteralOperand(g, ts, 1);
    PrefixStep(g, ts, None, 0, x, 2);
    PrefixStop(g, ts, Unary(ts[0].lexeme, x), 2);
    assert UnaryExpr(g, ts, 0) == PrefixLoop(g, ts, None, 0);
    UnaryWhole(g, ts, 0, Unary(ts[0].lexeme, x), 2);
  }

  /** One prefixed literal at `c`, then the loop goes on with `res`
      merged with it. */
  lemma PrefixRound(g: Grammar, ts: seq<Token>, res: Option<Expr>, c: nat)
    requires c + 2 <= |ts| && ts[c].lexeme in Operators(1) && LiteralOf(ts[c + 1].lexeme).Some?
    requires c + 2 < |ts| ==> !ts[c + 2].lexeme.UNEXPECTED?
    ensures PrefixLoop(g, ts, res, c)
         == PrefixLoop(g, ts, Some(PrefixMerge(res, ts[c].lexeme, Literal(LiteralOf(ts[c + 1].lexeme).value))), c + 2)
  {
    LiteralOperand(g, ts, c + 1);
    PrefixStep(g, ts, res, c, Literal(LiteralOf(ts[c + 1].lexeme).value), c + 2);
  }

  /** A whole token sequence read by the prefix loop from its start is
      the whole expression. */
  lemma PrefixWhole(g: Grammar, ts: seq<Token>, e: Expr)
    requires 0 < |ts| && ts[0].lexeme in Operators(1)
    requires PrefixLoop(g, ts, None, 0) == Some(Parsed(e, |ts|))
    ensures Expression(g, ts, 0) == Some(Parsed(e, |ts|))
  {
    assert UnaryExpr(g, ts, 0) == PrefixLoop(g, ts, None, 0);
    UnaryWhole(g, ts, 0, e, |ts|);
  }

  /** Two prefixed literals, `p x q y`, make the binary node `x p y`: the
      second operator is dropped and the first becomes infix. Hence `+1+1`
      is `1 + 1`, and `-1+2` is `1 - 2`. */
  lemma PrefixPair(g: Grammar, ts: seq<Token>)
    requires |ts| == 4 && ts[0].lexeme in Operators(1) && ts[2].lexeme in Operators(1)
    requires LiteralOf(ts[1].lexeme).Some? && LiteralOf(ts[3].lexeme).Some?
    ensures Expression(g, ts, 0)
         == Some(Parsed(Binary(Literal(LiteralOf(ts[1].lexeme).value), ts[0].lexeme, Literal(LiteralOf(ts[3].lexeme).value)), 4))
  {
    var x, y := Literal(LiteralOf(ts[1].lexeme).value), Literal(LiteralOf(ts[3].lexeme).value);
    PrefixRound(g, ts, None, 0);
    PrefixRound(g, ts, Some(Unary(ts[0].lexeme, x)), 2);
    PrefixStop(g, ts, Binary(x, ts[0].lexeme, y), 4);
    PrefixWhole(g, ts, Binary(x, ts[0].lexeme, y));
  }

  /** The last round of `p x q y r z` starts from the binary node and
      ends with the unary node `r z`. */
  lemma PrefixLast(g: Grammar, ts: seq<Token>, b: Expr)
    requires |ts| == 6 && ts[4].lexeme in Operators(1) && LiteralOf(ts[5].lexeme).Some? && b.Binary?
    ensures PrefixLoop(g, ts, Some(b), 4) == Some(Parsed(Unary(ts[4].lexeme, Literal(LiteralOf(ts[5].lexeme).value)), 6))
  {
    PrefixRound(g, ts, Some(b), 4);
    PrefixStop(g, ts, Unary(ts[4].lexeme, Literal(LiteralOf(ts[5].lexeme).value)), 6);
  }

  /** A third prefixed literal, `p x q y r z`, discards the binary node
      built so far: the result is `r z`. */
  lemma PrefixTriple(g: Grammar, ts: seq<Token>)
    requires |ts| == 6 && ts[0].lexeme in Operators(1) && ts[2].lexeme in Operators(1) && ts[4].lexeme in Operators(1)
    requires LiteralOf(ts[1].lexeme).Some? && LiteralOf(ts[3].lexeme).Some? && LiteralOf(ts[5].lexeme).Some?
    ensures Expression(g, ts, 0) == Some(Parsed(Unary(ts[4].lexeme, Literal(LiteralOf(ts[5].lexeme).value)), 6))
  {
    var x, y := Literal(LiteralOf(ts[1].lexeme).value), Literal(LiteralOf(ts[3].lexeme).value);
    PrefixRound(g, ts, None, 0);
    PrefixRound(g, ts, Some(Unary(ts[0].lexeme, x)), 2);
    PrefixLast(g, ts, Binary(x, ts[0].lexeme, y));
    PrefixWhole(g, ts, Unary(ts[4].lexeme, Literal(LiteralOf(ts[5].lexeme).value)));
  }

  /** A token that starts no expression becomes an error node naming it;
      the cursor stays on it. */
  lemma ErrorNode(g: Grammar, ts: seq<Token>, c: nat)
    requires c < |ts| && Ends(ts, c) && ts[c].lexeme !in Operators(1)
    requires LiteralOf(ts[c].lexeme).None? && ts[c].lexeme != LeftParen
    requires g == WithVariables ==> !ts[c].lexeme.IDENTIFIER?
    ensures Expression(g, ts, c) == Some(Parsed(ErrorAt(ts[c].line, KindName(ts[c].lexeme)), c))
  {
    var e := ErrorAt(ts[c].line, KindName(ts[c].lexeme));
    assert Primary(g, ts, c) == Some(Parsed(e, c));
    PrimaryOperand(g, ts, c, e, c);
    UnaryWhole(g, ts, c, e, c);
  }

  /** A literal followed by an unexpected character is an error node
      quoting the character; the cursor stays on it. */
  lemma UnexpectedAfter(g: Grammar, ts: seq<Token>, c: nat)
    requires c + 1 < |ts| && LiteralOf(ts[c].lexeme).Some? && ts[c + 1].lexeme.UNEXPECTED?
    ensures UnaryExpr(g, ts, c) == Some(Parsed(ErrorAt(ts[c + 1].line, ts[c + 1].lexeme.found), c + 1))
  {
    LiteralPrimary(g, ts, c);
    IsEqualMeaning(ts, c, Operators(1));
    assert CheckedPrimary(g, ts, c) == Some(Parsed(ErrorAt(ts[c + 1].line, ts[c + 1].lexeme.found), c + 1));
  }

  /** With variables, `name = y` assigns the literal `y` to `name`. */
  lemma AssignVariable(g: Grammar, ts: seq<Token>)
    requires g == WithVariables
    requires |ts| == 3 && ts[0].lexeme.IDENTIFIER? && ts[1].lexeme == Equal && LiteralOf(ts[2].lexeme).Some?
    ensures Expression(g, ts, 0) == Some(Parsed(Assign(ts[0].lexeme.name, Literal(LiteralOf(ts[2].lexeme).value)), 3))
  {
    AssignmentSides(g, ts, Variable(ts[0].lexeme.name));
  }

  /** With a literal target, `x = y` is an error node. */
  lemma AssignInvalid(g: Grammar, ts: seq<Token>)
    requires g == WithVariables
    requires |ts| == 3 && LiteralOf(ts[0].lexeme).Some? && ts[1].lexeme == Equal && LiteralOf(ts[2].lexeme).Some?
    ensures Expression(g, ts, 0) == Some(Parsed(Error(0, "Invalid left hand assignment expression"), 3))
  {
    LiteralPrimary(g, ts, 0);
    AssignmentSides(g, ts, Literal(LiteralOf(ts[0].lexeme).value));
  }

  /** The two sides of `t = y`: the target as parsed, and the literal. */
  lemma AssignmentSides(g: Grammar, ts: seq<Token>, target: Expr)
    requires |ts| == 3 && ts[1].lexeme == Equal && LiteralOf(ts[2].lexeme).Some?
    requires Primary(g, ts, 0) == Some(Parsed(target, 1))
    requires ts[0].lexeme !in Operators(1) && ts[0].lexeme != Whitespace
    ensures Level(g, ts, 0, 5) == Some(Parsed(target, 1))
    ensures Assignment(g, ts, 2) == Some(Parsed(Literal(LiteralOf(ts[2].lexeme).value), 3))
  {
    var y := Literal(LiteralOf(ts[2].lexeme).value);
    PrimaryOperand(g, ts, 0, target, 1);
    FactorOperand(g, ts, 0, target, 1);
    Rises(g, ts, 0, 2, 5, target, 1);
    LiteralOperand(g, ts, 2);
    FactorOperand(g, ts, 2, y, 3);
    Rises(g, ts, 2, 2, 5, y, 3);
  }

  /** Reading `1+2.0` from its characters: the lexer's three tokens parse
      as one addition of the two numbers. */
  lemma ExampleReadAddition(g: Grammar, src: string)
    requires src == "1+2.0"
    ensures Tokenize(src).Some?
    ensures Parse(g, Tokenize(src).value) == Some(Binary(Literal(Value.NUMBER(1.0)), Plus, Literal(Value.NUMBER(2.0))))
  {
    ExampleAddition(src);
    var ts := Tokenize(src).value;
    assert ts[1].lexeme in Operators(3);
    SimpleBinary(g, ts, 0, 3);
  }
}
