/** The older generation's statement parser: declarations, `if`, `while`,
    blocks, `print` and expression statements, read from the same token
    cursor as the expression parser.

    Statements are read with the `WithVariables` expression grammar. The
    expression parser's `None` (a panic there) ends an expression
    statement or an `if`/`while` head with no statement; inside `print`
    and `var` it becomes the unfinished-statement error. Where the statement parser itself
    unwraps a missing statement, the parse aborts with `Panic`; where its
    block loop would run forever without moving the cursor, it aborts
    with `NoProgress`. */
module ParserStatement {
  import opened Basics
  import opened Lexer
  import opened ParserExpression
  import opened Parser

  datatype Stmt =
    | Block(body: seq<Stmt>)
    | If(condition: Expr, thenBranch: Stmt, elseBranch: Option<Stmt>)
    | While(condition: Expr, loopBody: Stmt)
    | VariableDef(ident: string, init: Option<Expr>)
    | Print(printed: Option<Expr>)
    | Expression(expr: Expr)
    | Error(line: nat, message: string)

  /** The statement visitor method `Stmt::accept` calls, with the
      arguments it passes. */
  datatype StmtVisit =
    | VisitBlock(body: seq<Stmt>)
    | VisitIf(condition: Expr, thenBranch: Stmt, elseBranch: Option<Stmt>)
    | VisitWhile(condition: Expr, loopBody: Stmt)
    | VisitVariableDef(ident: string, init: Option<Expr>)
    | VisitPrint(printed: Option<Expr>)
    | VisitExpr(expr: Expr)
    | VisitStmtError(line: nat, message: string)

  /** The statement a visit call describes. */
  function RebuildStmt(v: StmtVisit): Stmt
  {
    match v
    case VisitBlock(body) => Block(body)
    case VisitIf(c, t, e) => If(c, t, e)
    case VisitWhile(c, b) => While(c, b)
    case VisitVariableDef(id, x) => VariableDef(id, x)
    case VisitPrint(x) => Print(x)
    case VisitExpr(x) => Expression(x)
    case VisitStmtError(line, m) => Stmt.Error(line, m)
  }

  /** `Stmt::accept`: every variant goes to exactly one visit method,
      which receives all of the statement's fields, so the statement can
      be rebuilt from the call. */
  function AcceptStmt(s: Stmt): (v: StmtVisit)
    ensures RebuildStmt(v) == s
    ensures v.VisitBlock? <==> s.Block?
    ensures v.VisitIf? <==> s.If?
    ensures v.VisitWhile? <==> s.While?
    ensures v.VisitVariableDef? <==> s.VariableDef?
    ensures v.VisitPrint? <==> s.Print?
    ensures v.VisitExpr? <==> s.Expression?
    ensures v.VisitStmtError? <==> s.Error?
  {
    match s
    case Block(body) => VisitBlock(body)
    case If(c, t, e) => VisitIf(c, t, e)
    case While(c, b) => VisitWhile(c, b)
    case VariableDef(id, x) => VisitVariableDef(id, x)
    case Print(x) => VisitPrint(x)
    case Expression(x) => VisitExpr(x)
    case Error(line, m) => VisitStmtError(line, m)
  }

  /** Why a statement parse stops without a result: an unwrap of a missing
      statement, or a block loop that makes no progress and would run
      forever. */
  datatype Abort = Panic | NoProgress

  /** A statement, or `None` when an expression could not be read, and
      the cursor after it. */
  datatype StmtParse = StmtParse(stmt: Option<Stmt>, cursor: nat)

  type Outcome = Result<StmtParse, Abort>

  /** `expect`: steps over a token of kind `k`, and stays put otherwise. */
  function Expect(ts: seq<Token>, c: nat, k: LexemeKind): (r: nat)
    ensures r == c + 1 <==> At(ts, c, k)
    ensures r == c <==> !At(ts, c, k)
  {
    if At(ts, c, k) then c + 1 else c
  }

  /** Tokens left from the cursor on, the measure the parse descends on. */
  function Remaining(ts: seq<Token>, c: nat): nat
  {
    if c <= |ts| then |ts| - c else 0
  }

  /** What an expression statement reads: an expression with variables,
      and the end of the input when there is none. */
  function ExpressionAt(ts: seq<Token>, c: nat): (r: StmtParse)
    ensures r.stmt.Some? ==> c < |ts| && c <= r.cursor && r.stmt.value.Expression?
    ensures r.stmt.None? ==> r.cursor == |ts|
  {
    match Parser.Expression(WithVariables, ts, c)
    case None => StmtParse(None, |ts|)
    case Some(Parsed(e, c1)) => StmtParse(Some(Expression(e)), c1)
  }

  const UnfinishedPrint := "Unfinished print statement"
  const UnfinishedDefinition := "Unfinished right hand assignment"

  /** `print_stmt`, after the `print` keyword: the opening parenthesis is
      skipped unseen; `()` prints nothing; otherwise an expression must be
      followed by `)`, and an optional `;` is consumed. */
  function PrintStmt(ts: seq<Token>, c: nat): (r: StmtParse)
    ensures r.stmt.Some? && c <= r.cursor
    ensures r.stmt.value.Print? || r.stmt.value == Stmt.Error(0, UnfinishedPrint)
  {
    var c1 := c + 1;
    if PeekKind(ts, c1) == Some(RightParen) then StmtParse(Some(Print(None)), c1 + 1)
    else
      match Parser.Expression(WithVariables, ts, c1)
      case None => StmtParse(Some(Stmt.Error(0, UnfinishedPrint)), if c1 < |ts| then |ts| else c1)
      case Some(Parsed(e, c2)) =>
        if At(ts, c2, RightParen) then
          var c3 := c2 + 2;
          StmtParse(Some(Print(Some(e))), if At(ts, c3, Semicolon) then c3 + 2 else c3)
        else StmtParse(Some(Stmt.Error(0, UnfinishedPrint)), c2)
  }

  /** `statement`: a `print` statement, or an expression statement. */
  function Statement(ts: seq<Token>, c: nat): (r: StmtParse)
    ensures r.stmt.Some? ==> c <= r.cursor
    ensures r.stmt.None? ==> r.cursor == |ts|
  {
    if At(ts, c, PRINT) then PrintStmt(ts, c + 1) else ExpressionAt(ts, c)
  }

  /** `declaration_stmt`, after the `var` keyword: an assignment defines
      its target with the assigned value, a bare variable defines it with
      none, and the token after either is skipped unseen. */
  function Declaration(ts: seq<Token>, c: nat): (r: StmtParse)
    requires c <= |ts|
    ensures r.stmt.Some? && c <= r.cursor
    ensures r.stmt.value.VariableDef? || r.stmt.value == Stmt.Error(0, UnfinishedDefinition)
  {
    var c1 := EatWhitespace(ts, c);
    match Parser.Expression(WithVariables, ts, c1)
    case Some(Parsed(Assign(name, value), c2)) => StmtParse(Some(VariableDef(name, Some(value))), c2 + 1)
    case Some(Parsed(Variable(name), c2)) => StmtParse(Some(VariableDef(name, None)), c2 + 1)
    case Some(Parsed(_, c2)) => StmtParse(Some(Stmt.Error(0, UnfinishedDefinition)), c2)
    case None => StmtParse(Some(Stmt.Error(0, UnfinishedDefinition)), |ts|)
  }

  // ---------------------------------------------------------------------
  // The statement parser proper

  /** `parse`: one statement, chosen by its first token after at most one
      whitespace token. */
  function Parse(ts: seq<Token>, c: nat): (r: Outcome)
    ensures c >= |ts| ==> r == Ok(StmtParse(None, |ts|))
    ensures r.Ok? && r.value.stmt.Some? ==> c < |ts| && c <= r.value.cursor
    ensures r.Ok? && r.value.stmt.None? ==> r.value.cursor == |ts|
    decreases Remaining(ts, c), 2
  {
    Dispatch(ts, EatWhitespace(ts, c))
  }

  /** The choice `parse` makes on the token under the cursor. */
  function Dispatch(ts: seq<Token>, c: nat): (r: Outcome)
    ensures c >= |ts| ==> r == Ok(StmtParse(None, |ts|))
    ensures r.Ok? && r.value.stmt.Some? ==> c < |ts| && c <= r.value.cursor
    ensures r.Ok? && r.value.stmt.None? ==> r.value.cursor == |ts|
    decreases Remaining(ts, c), 1
  {
    if At(ts, c, VAR) then Ok(Declaration(ts, c + 1))
    else if At(ts, c, IF) then IfStmt(ts, c + 1)
    else if At(ts, c, WHILE) then WhileStmt(ts, c + 1)
    else if At(ts, c, LeftBrace) then BlockStmt(ts, c + 1)
    else Ok(Statement(ts, c))
  }

  /** The head shared by `if` and `while`: an optional `(`, the
      condition, an optional `)`, and the cursor on the statement after
      it. `None` when the condition cannot be read. */
  function Head(ts: seq<Token>, c: nat): (r: Option<Parsed>)
    ensures r.Some? ==> c <= r.value.cursor
  {
    var c1 := Expect(ts, EatWhitespace(ts, c), LeftParen);
    match Parser.Expression(WithVariables, ts, EatWhitespace(ts, c1))
    case None => None
    case Some(Parsed(condition, c2)) => Some(Parsed(condition, Expect(ts, EatWhitespace(ts, c2), RightParen)))
  }

  /** `if_statement`, after the `if` keyword. */
  function IfStmt(ts: seq<Token>, c: nat): (r: Outcome)
    requires c <= |ts|
    ensures r.Ok? && r.value.stmt.Some? ==> c <= r.value.cursor && r.value.stmt.value.If?
    ensures r.Ok? && r.value.stmt.None? ==> r.value.cursor == |ts|
    decreases Remaining(ts, c), 5
  {
    match Head(ts, c)
    case None => Ok(StmtParse(None, |ts|))
    case Some(Parsed(condition, c1)) => Branches(ts, condition, c1)
  }

  /** The branches of `if_statement` after its head. The branch taken
      when the condition holds must be there. */
  function Branches(ts: seq<Token>, condition: Expr, c: nat): (r: Outcome)
    ensures r.Ok? ==> r.value.stmt.Some? && c <= r.value.cursor && r.value.stmt.value.If?
    ensures r.Ok? ==> r.value.stmt.value.condition == condition
    decreases Remaining(ts, c), 4
  {
    match Parse(ts, c)
    case Err(a) => Err(a)
    case Ok(StmtParse(None, _)) => Err(Abort.Panic)
    case Ok(StmtParse(Some(thenBranch), c1)) =>
      match Alternative(ts, EatWhitespace(ts, c1))
      case Err(a) => Err(a)
      case Ok(StmtParse(elseBranch, c2)) => Ok(StmtParse(Some(If(condition, thenBranch, elseBranch)), c2))
  }

  /** The `else` part of `if_statement`: after `else`, a statement, which
      is absent when it cannot be read; without `else`, nothing. */
  function Alternative(ts: seq<Token>, c: nat): (r: Outcome)
    ensures r.Ok? ==> c <= r.value.cursor || (r.value.stmt.None? && r.value.cursor == |ts|)
    ensures !At(ts, c, ELSE) ==> r == Ok(StmtParse(None, c))
    decreases Remaining(ts, c), 3
  {
    if At(ts, c, ELSE) then Parse(ts, EatWhitespace(ts, c + 1)) else Ok(StmtParse(None, c))
  }

  /** `while_statement`, after the `while` keyword. The body must be
      there. */
  function WhileStmt(ts: seq<Token>, c: nat): (r: Outcome)
    requires c <= |ts|
    ensures r.Ok? && r.value.stmt.Some? ==> c <= r.value.cursor && r.value.stmt.value.While?
    ensures r.Ok? && r.value.stmt.None? ==> r.value.cursor == |ts|
    decreases Remaining(ts, c), 3
  {
    match Head(ts, c)
    case None => Ok(StmtParse(None, |ts|))
    case Some(Parsed(condition, c1)) =>
      match Parse(ts, c1)
      case Err(a) => Err(a)
      case Ok(StmtParse(None, _)) => Err(Abort.Panic)
      case Ok(StmtParse(Some(body), c2)) => Ok(StmtParse(Some(While(condition, body)), c2))
  }

  /** `block`, after `{`: statements up to the closing `}`. */
  function BlockStmt(ts: seq<Token>, c: nat): (r: Outcome)
    requires c <= |ts|
    ensures r.Ok? ==> r.value.stmt.Some? && c < r.value.cursor && r.value.stmt.value.Block?
    ensures r.Ok? ==> At(ts, r.value.cursor - 1, RightBrace)
    decreases Remaining(ts, c), 4
  {
    BlockLoop(ts, [], EatWhitespace(ts, c))
  }

  /** The loop of `block`: until the cursor is on `}`, read a statement,
      which must be there, and eat one whitespace token. A round that
      leaves the cursor where it was would repeat forever. */
  function BlockLoop(ts: seq<Token>, done: seq<Stmt>, c: nat): (r: Outcome)
    ensures r.Ok? ==> r.value.stmt.Some? && c < r.value.cursor
    ensures r.Ok? ==> r.value.stmt.value.Block? && done <= r.value.stmt.value.body
    ensures r.Ok? ==> At(ts, r.value.cursor - 1, RightBrace)
    decreases Remaining(ts, c), 3
  {
    if At(ts, c, RightBrace) then Ok(StmtParse(Some(Block(done)), c + 1))
    else
      match Parse(ts, c)
      case Err(a) => Err(a)
      case Ok(StmtParse(None, _)) => Err(Abort.Panic)
      case Ok(StmtParse(Some(s), c1)) =>
        var c2 := EatWhitespace(ts, c1);
        if c2 == c then Err(NoProgress) else BlockLoop(ts, done + [s], c2)
  }

  // ---------------------------------------------------------------------
  // What the statement forms read

  /** A declaration defines a variable exactly when the expression after
      `var` is an assignment or a bare variable, with the assigned value
      or none; anything else is the unfinished-definition error. */
  lemma DeclarationMeaning(ts: seq<Token>, c: nat)
    requires c <= |ts|
    ensures var p, s := Parser.Expression(WithVariables, ts, EatWhitespace(ts, c)), Declaration(ts, c).stmt.value;
      && (s.VariableDef? <==> p.Some? && (p.value.expr.Assign? || p.value.expr.Variable?))
      && (s.VariableDef? ==> s.ident == p.value.expr.name)
      && (s.VariableDef? ==> (s.init.Some? <==> p.value.expr.Assign?))
      && (s.VariableDef? && s.init.Some? ==> s.init.value == p.value.expr.rvalue)
  {
  }

  /** A print statement prints nothing exactly when `)` follows the
      skipped token, and prints an expression exactly when one is read
      there and `)` follows it. */
  lemma PrintMeaning(ts: seq<Token>, c: nat)
    ensures var p, s := Parser.Expression(WithVariables, ts, c + 1), PrintStmt(ts, c).stmt.value;
      && (s == Print(None) <==> PeekKind(ts, c + 1) == Some(RightParen))
      && (s.Print? && s.printed.Some? <==> PeekKind(ts, c + 1) != Some(RightParen) && p.Some? && At(ts, p.value.cursor, RightParen))
      && (s.Print? && s.printed.Some? ==> s.printed.value == p.value.expr)
  {
  }

  // ---------------------------------------------------------------------
  // Dispatch on the first token

  /** A token that is not whitespace and starts no declaration and no
      compound statement. */
  predicate Simple(k: LexemeKind)
  {
    k != Whitespace && k != VAR && k != IF && k != WHILE && k != LeftBrace
  }

  /** A simple token starts a `print` or an expression statement. */
  lemma ParseStatement(ts: seq<Token>, c: nat)
    requires c < |ts| && Simple(ts[c].lexeme)
    ensures Parse(ts, c) == Ok(Statement(ts, c))
  {
  }

  /** A statement that is neither a declaration, a compound statement nor
      `print` is the expression read there. */
  lemma ExpressionStatement(ts: seq<Token>, c: nat)
    requires c < |ts| && Simple(ts[c].lexeme) && ts[c].lexeme != PRINT
    ensures var p := Parser.Expression(WithVariables, ts, c);
      && (p.None? ==> Parse(ts, c) == Ok(StmtParse(None, |ts|)))
      && (p.Some? ==> Parse(ts, c) == Ok(StmtParse(Some(Expression(p.value.expr)), p.value.cursor)))
  {
    ParseStatement(ts, c);
    assert Statement(ts, c) == ExpressionAt(ts, c);
  }

  /** `{` starts a block. */
  lemma ParseBlock(ts: seq<Token>, c: nat)
    requires c < |ts| && ts[c].lexeme == LeftBrace
    ensures Parse(ts, c) == BlockLoop(ts, [], EatWhitespace(ts, c + 1))
  {
    assert Parse(ts, c) == Dispatch(ts, c) == BlockStmt(ts, c + 1);
  }

  /** `var` starts a declaration. */
  lemma ParseDeclaration(ts: seq<Token>, c: nat)
    requires c < |ts| && ts[c].lexeme == VAR
    ensures Parse(ts, c) == Ok(Declaration(ts, c + 1))
  {
  }

  // ---------------------------------------------------------------------
  // Blocks

  /** One round of the block loop from `c`: not at `}`, a statement `s`
      is read, and one whitespace token after it is eaten, which brings
      the cursor to `d`, elsewhere than `c`. */
  ghost predicate Round(ts: seq<Token>, c: nat, s: Stmt, d: nat)
  {
    && !At(ts, c, RightBrace)
    && Parse(ts, c).Ok?
    && Parse(ts, c).value.stmt == Some(s)
    && EatWhitespace(ts, Parse(ts, c).value.cursor) == d
    && d != c
  }

  /** Statements `ss` read one round after another from the cursors
      `cs`. */
  ghost predicate Chain(ts: seq<Token>, ss: seq<Stmt>, cs: seq<nat>)
  {
    && |cs| == |ss| + 1
    && forall k :: 0 <= k < |ss| ==> Round(ts, cs[k], ss[k], cs[k + 1])
  }

  lemma BlockRound(ts: seq<Token>, done: seq<Stmt>, c: nat, s: Stmt, d: nat)
    requires Round(ts, c, s, d)
    ensures BlockLoop(ts, done, c) == BlockLoop(ts, done + [s], d)
  {
  }

  /** At `}` the block loop ends with what it has read. */
  lemma BlockEnd(ts: seq<Token>, done: seq<Stmt>, c: nat)
    requires At(ts, c, RightBrace)
    ensures BlockLoop(ts, done, c) == Ok(StmtParse(Some(Block(done)), c + 1))
  {
  }

  /** The block loop follows a chain round by round, appending each
      statement to what it has read. */
  lemma BlockFollows(ts: seq<Token>, done: seq<Stmt>, ss: seq<Stmt>, cs: seq<nat>)
    requires Chain(ts, ss, cs)
    ensures BlockLoop(ts, done, cs[0]) == BlockLoop(ts, done + ss, cs[|ss|])
  {
    var f := (d: seq<Stmt>, c: nat) => BlockLoop(ts, d, c);
    forall k, d | 0 <= k < |ss| ensures f(d, cs[k]) == f(d + [ss[k]], cs[k + 1]) {
      BlockRound(ts, d, cs[k], ss[k], cs[k + 1]);
    }
    StepsCompose(f, done, ss, cs);
  }

  /** The block loop collects a chain of statements in order, and stops
      just after the `}` that ends it. */
  lemma BlockReads(ts: seq<Token>, done: seq<Stmt>, ss: seq<Stmt>, cs: seq<nat>)
    requires Chain(ts, ss, cs) && At(ts, cs[|ss|], RightBrace)
    ensures BlockLoop(ts, done, cs[0]) == Ok(StmtParse(Some(Block(done + ss)), cs[|ss|] + 1))
  {
    BlockFollows(ts, done, ss, cs);
    BlockEnd(ts, done + ss, cs[|ss|]);
  }

  /** A round of the block loop that leaves the cursor where it was
      would repeat forever: the parse aborts. */
  lemma BlockStalls(ts: seq<Token>, done: seq<Stmt>, c: nat, s: Stmt, c1: nat)
    requires !At(ts, c, RightBrace)
    requires Parse(ts, c) == Ok(StmtParse(Some(s), c1)) && EatWhitespace(ts, c1) == c
    ensures BlockLoop(ts, done, c) == Err(NoProgress)
  {
  }

  /** An `if` or `while` whose head is the last thing in the input has no
      statement to unwrap: the parse aborts. */
  lemma MissingBodyPanics(ts: seq<Token>, c: nat, condition: Expr, c1: nat)
    requires c <= |ts| && Head(ts, c) == Some(Parsed(condition, c1)) && c1 >= |ts|
    ensures IfStmt(ts, c) == Err(Abort.Panic)
    ensures WhileStmt(ts, c) == Err(Abort.Panic)
  {
  }

  // ---------------------------------------------------------------------
  // Conditionals and loops, from their parts

  /** `if` starts a conditional. */
  lemma ParseIf(ts: seq<Token>, c: nat)
    requires c < |ts| && ts[c].lexeme == IF
    ensures Parse(ts, c) == IfStmt(ts, c + 1)
  {
    assert Parse(ts, c) == Dispatch(ts, c);
  }

  /** `while` starts a loop. */
  lemma ParseWhile(ts: seq<Token>, c: nat)
    requires c < |ts| && ts[c].lexeme == WHILE
    ensures Parse(ts, c) == WhileStmt(ts, c + 1)
  {
    assert Parse(ts, c) == Dispatch(ts, c);
  }

  /** `(literal)` is a head whose condition is that literal; the cursor
      ends past the `)`. */
  lemma LiteralHead(ts: seq<Token>, c: nat)
    requires c + 2 < |ts| && ts[c].lexeme == LeftParen && ts[c + 2].lexeme == RightParen
    requires LiteralOf(ts[c + 1].lexeme).Some?
    ensures Head(ts, c) == Some(Parsed(Literal(LiteralOf(ts[c + 1].lexeme).value), c + 3))
  {
    LiteralExpression(WithVariables, ts, c + 1);
  }

  /** An `if` without `else` is the head's condition and the statement
      after it, and the cursor stops past at most one whitespace token. */
  lemma IfReads(ts: seq<Token>, c: nat, condition: Expr, c1: nat, thenBranch: Stmt, c2: nat)
    requires c <= |ts| && Head(ts, c) == Some(Parsed(condition, c1))
    requires Parse(ts, c1) == Ok(StmtParse(Some(thenBranch), c2))
    requires !At(ts, EatWhitespace(ts, c2), ELSE)
    ensures IfStmt(ts, c) == Ok(StmtParse(Some(If(condition, thenBranch, None)), EatWhitespace(ts, c2)))
  {
  }

  /** An `if` with `else` takes the statement after `else` as the
      branch for a false condition. */
  lemma IfElseReads(ts: seq<Token>, c: nat, condition: Expr, c1: nat, thenBranch: Stmt, c2: nat, e: nat, elseBranch: Option<Stmt>, c3: nat)
    requires c <= |ts| && Head(ts, c) == Some(Parsed(condition, c1))
    requires Parse(ts, c1) == Ok(StmtParse(Some(thenBranch), c2))
    requires e == EatWhitespace(ts, c2) && e < |ts| && ts[e].lexeme == ELSE
    requires Parse(ts, EatWhitespace(ts, e + 1)) == Ok(StmtParse(elseBranch, c3))
    ensures IfStmt(ts, c) == Ok(StmtParse(Some(If(condition, thenBranch, elseBranch)), c3))
  {
    assert Alternative(ts, e) == Ok(StmtParse(elseBranch, c3));
    assert Branches(ts, condition, c1) == Ok(StmtParse(Some(If(condition, thenBranch, elseBranch)), c3));
  }

  /** A `while` is the head's condition and the statement after it. */
  lemma WhileReads(ts: seq<Token>, c: nat, condition: Expr, c1: nat, body: Stmt, c2: nat)
    requires c <= |ts| && Head(ts, c) == Some(Parsed(condition, c1))
    requires Parse(ts, c1) == Ok(StmtParse(Some(body), c2))
    ensures WhileStmt(ts, c) == Ok(StmtParse(Some(While(condition, body)), c2))
  {
  }

  // ---------------------------------------------------------------------
  // Examples, on the tokens the lexer makes of each text

  /** `print()` prints nothing. */
  lemma ExamplePrintNothing(ts: seq<Token>)
    requires |ts| == 3 && ts[0].lexeme == PRINT && ts[1].lexeme == LeftParen && ts[2].lexeme == RightParen
    ensures Parse(ts, 0) == Ok(StmtParse(Some(Print(None)), 3))
  {
    ParseStatement(ts, 0);
  }

  /** `print(1)` prints the number; the cursor ends two tokens past `)`. */
  lemma ExamplePrintNumber(ts: seq<Token>)
    requires |ts| == 4 && ts[0].lexeme == PRINT && ts[1].lexeme == LeftParen
    requires ts[2].lexeme == LexemeKind.NUMBER(1.0) && ts[3].lexeme == RightParen
    ensures Parse(ts, 0) == Ok(StmtParse(Some(Print(Some(Literal(Value.NUMBER(1.0))))), 5))
  {
    PrintNumber(ts);
    ParseStatement(ts, 0);
  }

  lemma PrintNumber(ts: seq<Token>)
    requires |ts| == 4 && ts[1].lexeme == LeftParen && ts[2].lexeme == LexemeKind.NUMBER(1.0) && ts[3].lexeme == RightParen
    ensures PrintStmt(ts, 1) == StmtParse(Some(Print(Some(Literal(Value.NUMBER(1.0))))), 5)
  {
    LiteralExpression(WithVariables, ts, 2);
  }

  /** `if (true) print(2);` is a conditional without `else` whose branch
      prints the number. */
  lemma ExampleIfInline(ts: seq<Token>)
    requires |ts| == 11 && ts[0].lexeme == IF && ts[1].lexeme == Whitespace && ts[2].lexeme == LeftParen
    requires ts[3].lexeme == TRUE && ts[4].lexeme == RightParen && ts[5].lexeme == Whitespace
    requires ts[6].lexeme == PRINT && ts[7].lexeme == LeftParen && ts[8].lexeme == LexemeKind.NUMBER(2.0)
    requires ts[9].lexeme == RightParen && ts[10].lexeme == Semicolon
    ensures Parse(ts, 0) == Ok(StmtParse(Some(If(Literal(BOOLEAN(true)), Print(Some(Literal(Value.NUMBER(2.0)))), None)), 11))
  {
    IfInlineParts(ts);
    IfReads(ts, 1, Literal(BOOLEAN(true)), 5, Print(Some(Literal(Value.NUMBER(2.0)))), 11);
    ParseIf(ts, 0);
  }

  /** The head and the branch of `if (true) print(2);`. */
  lemma IfInlineParts(ts: seq<Token>)
    requires |ts| == 11 && ts[1].lexeme == Whitespace && ts[2].lexeme == LeftParen
    requires ts[3].lexeme == TRUE && ts[4].lexeme == RightParen && ts[5].lexeme == Whitespace
    requires ts[6].lexeme == PRINT && ts[7].lexeme == LeftParen && ts[8].lexeme == LexemeKind.NUMBER(2.0)
    requires ts[9].lexeme == RightParen && ts[10].lexeme == Semicolon
    ensures Head(ts, 1) == Some(Parsed(Literal(BOOLEAN(true)), 5))
    ensures Parse(ts, 5) == Ok(StmtParse(Some(Print(Some(Literal(Value.NUMBER(2.0))))), 11))
  {
    LiteralHead(ts, 2);
    assert Head(ts, 1) == Head(ts, 2);
    PrintTwo(ts);
    ParseStatement(ts, 6);
  }

  lemma PrintTwo(ts: seq<Token>)
    requires |ts| == 11 && ts[7].lexeme == LeftParen && ts[8].lexeme == LexemeKind.NUMBER(2.0)
    requires ts[9].lexeme == RightParen && ts[10].lexeme == Semicolon
    ensures PrintStmt(ts, 7) == StmtParse(Some(Print(Some(Literal(Value.NUMBER(2.0))))), 11)
  {
    LiteralExpression(WithVariables, ts, 8);
  }

  /** `print` is an unfinished print statement. */
  lemma ExamplePrintAlone(ts: seq<Token>)
    requires |ts| == 1 && ts[0].lexeme == PRINT
    ensures Parse(ts, 0) == Ok(StmtParse(Some(Stmt.Error(0, UnfinishedPrint)), 2))
  {
    ParseStatement(ts, 0);
  }

  /** `print(` is an unfinished print statement. */
  lemma ExamplePrintOpen(ts: seq<Token>)
    requires |ts| == 2 && ts[0].lexeme == PRINT && ts[1].lexeme == LeftParen
    ensures Parse(ts, 0) == Ok(StmtParse(Some(Stmt.Error(0, UnfinishedPrint)), 2))
  {
    ParseStatement(ts, 0);
  }

  /** `var a;` declares `a` with no value. */
  lemma ExampleDeclaration(ts: seq<Token>)
    requires |ts| == 4 && ts[0].lexeme == VAR && ts[1].lexeme == Whitespace
    requires ts[2].lexeme == IDENTIFIER("a") && ts[3].lexeme == Semicolon
    ensures Parse(ts, 0) == Ok(StmtParse(Some(VariableDef("a", None)), 4))
  {
    DeclareA(ts);
    ParseDeclaration(ts, 0);
  }

  lemma DeclareA(ts: seq<Token>)
    requires |ts| == 4 && ts[1].lexeme == Whitespace && ts[2].lexeme == IDENTIFIER("a") && ts[3].lexeme == Semicolon
    ensures Declaration(ts, 1) == StmtParse(Some(VariableDef("a", None)), 4)
  {
    VariableExpression(WithVariables, ts, 2);
  }

  /** `var a =` is an unfinished definition: nothing follows `=`. */
  lemma ExampleDeclarationUnfinished(ts: seq<Token>)
    requires |ts| == 5 && ts[0].lexeme == VAR && ts[1].lexeme == Whitespace && ts[2].lexeme == IDENTIFIER("a")
    requires ts[3].lexeme == Whitespace && ts[4].lexeme == Equal
    ensures Parse(ts, 0) == Ok(StmtParse(Some(Stmt.Error(0, UnfinishedDefinition)), 5))
  {
    UnfinishedAssignment(ts);
    ParseDeclaration(ts, 0);
  }

  /** The expression `a =` of `var a =` cannot be read. */
  lemma UnfinishedAssignment(ts: seq<Token>)
    requires |ts| == 5 && ts[2].lexeme == IDENTIFIER("a") && ts[3].lexeme == Whitespace && ts[4].lexeme == Equal
    ensures Parser.Expression(WithVariables, ts, 2).None?
  {
    var a := Variable("a");
    assert Primary(WithVariables, ts, 2) == Some(Parsed(a, 3));
    PrimaryOperand(WithVariables, ts, 2, a, 3);
    FactorOperand(WithVariables, ts, 2, a, 3);
    Rises(WithVariables, ts, 2, 2, 5, a, 4);
  }

  /** `{print()}` is a block holding one print statement. */
  lemma ExampleBlock(ts: seq<Token>)
    requires |ts| == 5 && ts[0].lexeme == LeftBrace && ts[1].lexeme == PRINT
    requires ts[2].lexeme == LeftParen && ts[3].lexeme == RightParen && ts[4].lexeme == RightBrace
    ensures Parse(ts, 0) == Ok(StmtParse(Some(Block([Print(None)])), 5))
  {
    PrintNothingAt(ts, 1);
    BlockRound(ts, [], 1, Print(None), 4);
    assert [] + [Print(None)] == [Print(None)];
    BlockEnd(ts, [Print(None)], 4);
    ParseBlock(ts, 0);
  }

  /** The tokens the lexer makes of `{var a = 2; print(a);}`. */
  predicate BlockNoSpacesTokens(ts: seq<Token>)
  {
    && |ts| == 16
    && ts[0].lexeme == LeftBrace && ts[1].lexeme == VAR && ts[2].lexeme == Whitespace
    && ts[3].lexeme == IDENTIFIER("a") && ts[4].lexeme == Whitespace && ts[5].lexeme == Equal
    && ts[6].lexeme == Whitespace && ts[7].lexeme == LexemeKind.NUMBER(2.0) && ts[8].lexeme == Semicolon
    && ts[9].lexeme == Whitespace && ts[10].lexeme == PRINT && ts[11].lexeme == LeftParen
    && ts[12].lexeme == IDENTIFIER("a") && ts[13].lexeme == RightParen && ts[14].lexeme == Semicolon
    && ts[15].lexeme == RightBrace
  }

  /** `{var a = 2; print(a);}` is a block that defines `a` as 2 and then
      prints it. */
  lemma ExampleBlockNoSpaces(ts: seq<Token>)
    requires BlockNoSpacesTokens(ts)
    ensures Parse(ts, 0) == Ok(StmtParse(Some(Block([VariableDef("a", Some(Literal(Value.NUMBER(2.0)))), Print(Some(Variable("a")))])), 16))
  {
    var s0, s1 := VariableDef("a", Some(Literal(Value.NUMBER(2.0)))), Print(Some(Variable("a")));
    NoSpacesRounds(ts);
    ChainOfTwo(ts, s0, s1, 1, 10, 15);
    BlockReads(ts, [], [s0, s1], [1, 10, 15]);
    assert [] + [s0, s1] == [s0, s1];
    ParseBlock(ts, 0);
  }

  /** Two rounds in a row make a chain. */
  lemma ChainOfTwo(ts: seq<Token>, s0: Stmt, s1: Stmt, c0: nat, c1: nat, c2: nat)
    requires Round(ts, c0, s0, c1) && Round(ts, c1, s1, c2)
    ensures Chain(ts, [s0, s1], [c0, c1, c2])
  {
    forall k | 0 <= k < 2 ensures Round(ts, [c0, c1, c2][k], [s0, s1][k], [c0, c1, c2][k + 1]) {
    }
  }

  lemma NoSpacesRounds(ts: seq<Token>)
    requires BlockNoSpacesTokens(ts)
    ensures Round(ts, 1, VariableDef("a", Some(Literal(Value.NUMBER(2.0)))), 10)
    ensures Round(ts, 10, Print(Some(Variable("a"))), 15)
  {
    NoSpacesDefinition(ts);
    NoSpacesPrint(ts);
  }

  lemma NoSpacesDefinition(ts: seq<Token>)
    requires BlockNoSpacesTokens(ts)
    ensures Parse(ts, 1) == Ok(StmtParse(Some(VariableDef("a", Some(Literal(Value.NUMBER(2.0))))), 9))
  {
    NoSpacesDeclared(ts);
    ParseDeclaration(ts, 1);
  }

  lemma NoSpacesDeclared(ts: seq<Token>)
    requires BlockNoSpacesTokens(ts)
    ensures Declaration(ts, 2) == StmtParse(Some(VariableDef("a", Some(Literal(Value.NUMBER(2.0))))), 9)
  {
    assert EatWhitespace(ts, 2) == 3;
    AssignSpaced(WithVariables, ts);
    DeclaresAssigned(ts, 2, "a", Literal(Value.NUMBER(2.0)), 8);
  }

  /** After `var`, an assignment defines its target with the assigned
      value, and the token after it is skipped. */
  lemma DeclaresAssigned(ts: seq<Token>, c: nat, name: string, value: Expr, c2: nat)
    requires c <= |ts|
    requires Parser.Expression(WithVariables, ts, EatWhitespace(ts, c)) == Some(Parsed(Assign(name, value), c2))
    ensures Declaration(ts, c) == StmtParse(Some(VariableDef(name, Some(value))), c2 + 1)
  {
  }

  /** `a = 2` with a blank on each side of `=`, up to the `;`. */
  lemma AssignSpaced(g: Grammar, ts: seq<Token>)
    requires g == WithVariables && BlockNoSpacesTokens(ts)
    ensures Parser.Expression(g, ts, 3) == Some(Parsed(Assign("a", Literal(Value.NUMBER(2.0))), 8))
  {
    AssignTarget(g, ts);
    AssignValue(g, ts);
  }

  lemma AssignTarget(g: Grammar, ts: seq<Token>)
    requires g == WithVariables && |ts| == 16
    requires ts[3].lexeme == IDENTIFIER("a") && ts[4].lexeme == Whitespace && ts[5].lexeme == Equal
    ensures Level(g, ts, 3, 5) == Some(Parsed(Variable("a"), 5))
  {
    var a := Variable("a");
    assert Primary(g, ts, 3) == Some(Parsed(a, 4));
    PrimaryOperand(g, ts, 3, a, 4);
    FactorOperand(g, ts, 3, a, 4);
    Rises(g, ts, 3, 2, 5, a, 5);
  }

  lemma AssignValue(g: Grammar, ts: seq<Token>)
    requires g == WithVariables && |ts| == 16
    requires ts[7].lexeme == LexemeKind.NUMBER(2.0) && ts[8].lexeme == Semicolon
    ensures Assignment(g, ts, 7) == Some(Parsed(Literal(Value.NUMBER(2.0)), 8))
  {
    var y := Literal(Value.NUMBER(2.0));
    LiteralOperand(g, ts, 7);
    FactorOperand(g, ts, 7, y, 8);
    Rises(g, ts, 7, 2, 5, y, 8);
  }

  lemma NoSpacesPrint(ts: seq<Token>)
    requires BlockNoSpacesTokens(ts)
    ensures Parse(ts, 10) == Ok(StmtParse(Some(Print(Some(Variable("a")))), 15))
  {
    NoSpacesPrinted(ts);
    ParseStatement(ts, 10);
  }

  lemma NoSpacesPrinted(ts: seq<Token>)
    requires BlockNoSpacesTokens(ts)
    ensures PrintStmt(ts, 11) == StmtParse(Some(Print(Some(Variable("a")))), 15)
  {
    VariableExpression(WithVariables, ts, 12);
  }

  /** The tokens the lexer makes of `{   print()}`: one whitespace token
      for each of the three blanks. */
  predicate IndentedBlockTokens(ts: seq<Token>)
  {
    && |ts| == 8
    && ts[0].lexeme == LeftBrace && ts[1].lexeme == Whitespace && ts[2].lexeme == Whitespace
    && ts[3].lexeme == Whitespace && ts[4].lexeme == PRINT && ts[5].lexeme == LeftParen
    && ts[6].lexeme == RightParen && ts[7].lexeme == RightBrace
  }

  /** `{   print()}` as written: the block skips one blank, the next blank
      is read as an expression statement that comes out as the error
      expression for the `print` keyword, and only then is `print()`
      read. */
  lemma ExampleIndentedBlock(ts: seq<Token>)
    requires IndentedBlockTokens(ts)
    ensures Parse(ts, 0) == Ok(StmtParse(Some(Block([Expression(ErrorAt(ts[4].line, "PRINT")), Print(None)])), 8))
  {
    var s0 := Expression(ErrorAt(ts[4].line, "PRINT"));
    IndentedError(ts);
    PrintNothingAt(ts, 4);
    ChainOfTwo(ts, s0, Print(None), 2, 4, 7);
    BlockReads(ts, [], [s0, Print(None)], [2, 4, 7]);
    assert [] + [s0, Print(None)] == [s0, Print(None)];
    ParseBlock(ts, 0);
  }

  /** The second blank of `{   print()}` is a statement of its own. */
  lemma IndentedError(ts: seq<Token>)
    requires IndentedBlockTokens(ts)
    ensures Round(ts, 2, Expression(ErrorAt(ts[4].line, "PRINT")), 4)
  {
    IndentedErrorExpression(WithVariables, ts);
    assert Statement(ts, 3) == ExpressionAt(ts, 3);
  }

  lemma IndentedErrorExpression(g: Grammar, ts: seq<Token>)
    requires g == WithVariables && |ts| == 8
    requires ts[3].lexeme == Whitespace && ts[4].lexeme == PRINT
    ensures Parser.Expression(g, ts, 3) == Some(Parsed(ErrorAt(ts[4].line, "PRINT"), 4))
  {
    var err := ErrorAt(ts[4].line, "PRINT");
    assert KindName(PRINT) == "PRINT";
    assert Primary(g, ts, 4) == Some(Parsed(err, 4));
    PrimaryOperand(g, ts, 3, err, 4);
    FactorOperand(g, ts, 3, err, 4);
    Rises(g, ts, 3, 2, 5, err, 4);
    ExpressionLevel(g, ts, 3, err, 4);
  }

  /** `{   print()}` with its run of blanks collapsed to one whitespace
      token is the block holding one print statement that the
      repository's block tests expect. */
  lemma ExampleIndentedBlockCorrected(ts: seq<Token>)
    requires IndentedBlockTokens(ts)
    ensures Parse(Parser.CollapseWhitespace(ts), 0) == Ok(StmtParse(Some(Block([Print(None)])), 6))
  {
    var u := Parser.CollapseWhitespace(ts);
    IndentCollapses(ts);
    PrintNothingAt(u, 2);
    BlockRound(u, [], 2, Print(None), 5);
    assert [] + [Print(None)] == [Print(None)];
    BlockEnd(u, [Print(None)], 5);
    ParseBlock(u, 0);
  }

  /** What collapsing does to the tokens of `{   print()}`. */
  lemma IndentCollapses(ts: seq<Token>)
    requires IndentedBlockTokens(ts)
    ensures Parser.CollapseWhitespace(ts) == [ts[0], ts[1], ts[4], ts[5], ts[6], ts[7]]
  {
    var tail := ts[4..];
    assert Parser.NoWhitespaceRuns(tail) by {
      assert tail == [ts[4], ts[5], ts[6], ts[7]];
    }
    Parser.CollapseKeepsSingles(tail);
    var a := ts[1..];
    var b := [ts[1]] + a[2..];
    var d := [ts[1]] + b[2..];
    assert a[2..] == ts[3..] && b[2..] == tail && d[1..] == tail;
    assert Parser.CollapseWhitespace(d) == [ts[1]] + tail;
    assert Parser.CollapseWhitespace(b) == Parser.CollapseWhitespace(d);
    assert Parser.CollapseWhitespace(a) == Parser.CollapseWhitespace(b);
    assert Parser.CollapseWhitespace(ts) == [ts[0]] + Parser.CollapseWhitespace(a);
  }

  /** `print()` read from inside a longer sequence. */
  lemma PrintNothingAt(ts: seq<Token>, c: nat)
    requires c + 3 < |ts| && ts[c].lexeme == PRINT && ts[c + 1].lexeme == LeftParen && ts[c + 2].lexeme == RightParen
    requires ts[c + 3].lexeme != Whitespace
    ensures Round(ts, c, Print(None), c + 3)
  {
    ParseStatement(ts, c);
  }

  /** `{and}`: the keyword is an error expression that does not move the
      cursor, so the block loop would never end. */
  lemma ExampleBlockStalls(ts: seq<Token>)
    requires |ts| == 3 && ts[0].lexeme == LeftBrace && ts[1].lexeme == AND && ts[2].lexeme == RightBrace
    ensures Parse(ts, 0) == Err(NoProgress)
  {
    AndStalls(ts);
    ParseBlock(ts, 0);
  }

  lemma AndStalls(ts: seq<Token>)
    requires |ts| == 3 && ts[1].lexeme == AND && ts[2].lexeme == RightBrace
    ensures BlockLoop(ts, [], 1) == Err(NoProgress)
  {
    AndStatement(ts);
    BlockStalls(ts, [], 1, Expression(ErrorAt(ts[1].line, KindName(AND))), 1);
  }

  lemma AndStatement(ts: seq<Token>)
    requires |ts| == 3 && ts[1].lexeme == AND && ts[2].lexeme == RightBrace
    ensures Parse(ts, 1) == Ok(StmtParse(Some(Expression(ErrorAt(ts[1].line, KindName(AND)))), 1))
  {
    AndExpression(ts);
    ParseStatement(ts, 1);
  }

  lemma AndExpression(ts: seq<Token>)
    requires |ts| == 3 && ts[1].lexeme == AND && ts[2].lexeme == RightBrace
    ensures Statement(ts, 1) == StmtParse(Some(Expression(ErrorAt(ts[1].line, KindName(AND)))), 1)
  {
    ErrorNode(WithVariables, ts, 1);
  }
}
