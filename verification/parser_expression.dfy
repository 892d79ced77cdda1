/** The older generation's expression tree, its visitor dispatch and its
    debug rendering. Operators are lexer kinds; literal values are
    booleans, strings and exact reals. */
module ParserExpression {
  import opened Basics
  import Lexer

  datatype Value = BOOLEAN(flag: bool) | STRING(text: string) | NUMBER(number: real)

  /** The five variants of the source tree, plus `Variable` and `Assign`,
      which the statement parser and the interpreter use but the
      expression module itself does not declare. */
  datatype Expr =
    | Binary(left: Expr, operator: Lexer.LexemeKind, right: Expr)
    | Literal(value: Value)
    | Unary(operator: Lexer.LexemeKind, right: Expr)
    | Grouping(inner: Expr)
    | Error(line: nat, message: string)
    | Variable(name: string)
    | Assign(name: string, rvalue: Expr)

  /** The tree uses only the variants the expression module declares. */
  predicate WithoutVariables(e: Expr)
  {
    match e
    case Binary(l, _, r) => WithoutVariables(l) && WithoutVariables(r)
    case Literal(_) => true
    case Unary(_, r) => WithoutVariables(r)
    case Grouping(g) => WithoutVariables(g)
    case Error(_, _) => true
    case Variable(_) => false
    case Assign(_, _) => false
  }

  // ---------------------------------------------------------------------
  // Visitor dispatch

  /** The visitor method `accept` calls, with the arguments it passes. */
  datatype Visit =
    | VisitBinary(left: Expr, operator: Lexer.LexemeKind, right: Expr)
    | VisitUnary(operator: Lexer.LexemeKind, right: Expr)
    | VisitGrouping(inner: Expr)
    | VisitLiteral(value: Value)
    | VisitError(line: nat, message: string)
    | VisitVariable(name: string)
    | VisitAssign(name: string, rvalue: Expr)

  /** The node a visit call describes. */
  function Rebuild(v: Visit): Expr
  {
    match v
    case VisitBinary(l, op, r) => Binary(l, op, r)
    case VisitUnary(op, r) => Unary(op, r)
    case VisitGrouping(g) => Grouping(g)
    case VisitLiteral(x) => Literal(x)
    case VisitError(line, m) => Error(line, m)
    case VisitVariable(n) => Variable(n)
    case VisitAssign(n, x) => Assign(n, x)
  }

  /** `accept`: every variant goes to exactly one visit method, which
      receives all of the node's fields, so the node can be rebuilt from
      the call. */
  function Accept(e: Expr): (v: Visit)
    ensures Rebuild(v) == e
    ensures v.VisitBinary? <==> e.Binary?
    ensures v.VisitUnary? <==> e.Unary?
    ensures v.VisitGrouping? <==> e.Grouping?
    ensures v.VisitLiteral? <==> e.Literal?
    ensures v.VisitError? <==> e.Error?
  {
    match e
    case Binary(l, op, r) => VisitBinary(l, op, r)
    case Literal(x) => VisitLiteral(x)
    case Unary(op, r) => VisitUnary(op, r)
    case Grouping(g) => VisitGrouping(g)
    case Error(line, m) => VisitError(line, m)
    case Variable(n) => VisitVariable(n)
    case Assign(n, x) => VisitAssign(n, x)
  }

  /** Every visit call is the dispatch of the node it describes. */
  lemma AcceptRebuild(v: Visit)
    ensures Accept(Rebuild(v)) == v
  {
  }

  // ---------------------------------------------------------------------
  // Debug rendering

  /** A literal as `debug` renders it; numbers go through the host's float
      formatting, given as `number`. Both booleans render as `true`. */
  function LiteralText(v: Value, number: real -> string): string
  {
    match v
    case BOOLEAN(_) => "true"
    case STRING(s) => s
    case NUMBER(n) => number(n)
  }

  /** `debug` as written: a binary node opens a parenthesis it never
      closes, and a unary node opens one, pads with blanks and never closes
      it either. A grouping renders as its content. */
  function Debug(e: Expr, number: real -> string): string
    requires WithoutVariables(e)
  {
    match e
    case Binary(l, op, r) =>
      "(" + Lexer.KindText(op, number) + " " + Debug(l, number) + " " + Debug(r, number)
    case Literal(v) => LiteralText(v, number)
    case Unary(op, r) => "( " + Lexer.KindText(op, number) + " " + Debug(r, number) + " "
    case Grouping(g) => Debug(g, number)
    case Error(_, m) => m
  }

  /** A literal as the rendering evidently means it: each boolean by its
      own name. */
  function LiteralTextCorrected(v: Value, number: real -> string): string
  {
    match v
    case BOOLEAN(b) => if b then "true" else "false"
    case STRING(s) => s
    case NUMBER(n) => number(n)
  }

  /** The rendering with each compound node closed: `(op left right)` and
      `(op operand)`. */
  function DebugCorrected(e: Expr, number: real -> string): string
    requires WithoutVariables(e)
  {
    match e
    case Binary(l, op, r) =>
      "(" + Lexer.KindText(op, number) + " " + DebugCorrected(l, number) + " " + DebugCorrected(r, number) + ")"
    case Literal(v) => LiteralTextCorrected(v, number)
    case Unary(op, r) => "(" + Lexer.KindText(op, number) + " " + DebugCorrected(r, number) + ")"
    case Grouping(g) => DebugCorrected(g, number)
    case Error(_, m) => m
  }

  /** Number of binary and unary nodes: the nodes that open a
      parenthesis. */
  function Compound(e: Expr): nat
  {
    match e
    case Binary(l, _, r) => 1 + Compound(l) + Compound(r)
    case Literal(_) => 0
    case Unary(_, r) => 1 + Compound(r)
    case Grouping(g) => Compound(g)
    case Error(_, _) => 0
    case Variable(_) => 0
    case Assign(_, x) => Compound(x)
  }

  /** Occurrences of `c` in the texts the tree carries: operator texts,
      string and number literals, error messages. */
  function TextCount(e: Expr, number: real -> string, c: char): nat
  {
    match e
    case Binary(l, op, r) => TextCount(l, number, c) + Count(Lexer.KindText(op, number), c) + TextCount(r, number, c)
    case Literal(v) => if v.BOOLEAN? then 0 else Count(LiteralText(v, number), c)
    case Unary(op, r) => Count(Lexer.KindText(op, number), c) + TextCount(r, number, c)
    case Grouping(g) => TextCount(g, number, c)
    case Error(_, m) => Count(m, c)
    case Variable(n) => Count(n, c)
    case Assign(n, x) => Count(n, c) + TextCount(x, number, c)
  }

  /** The boolean texts hold no parentheses. */
  lemma BooleanTextsPlain(c: char)
    requires c == '(' || c == ')'
    ensures Count("true", c) == 0 && Count("false", c) == 0
  {
    assert "true"[1..] == "rue" && "rue"[1..] == "ue" && "ue"[1..] == "e" && "e"[1..] == "";
    assert "false"[1..] == "alse" && "alse"[1..] == "lse" && "lse"[1..] == "se" && "se"[1..] == "e";
  }

  /** Counting a non-blank character over `a + " " + b`. */
  lemma CountSpaced(a: string, b: string, c: char)
    requires c != ' '
    ensures Count(a + " " + b, c) == Count(a, c) + Count(b, c)
  {
    CountConcat(a + " ", b, c);
    CountConcat(a, " ", c);
  }

  /** Counting a parenthesis over a rendered literal. */
  lemma LiteralCounts(v: Value, number: real -> string, c: char)
    requires c == '(' || c == ')'
    ensures Count(LiteralText(v, number), c) == TextCount(Literal(v), number, c)
    ensures Count(LiteralTextCorrected(v, number), c) == TextCount(Literal(v), number, c)
  {
    if v.BOOLEAN? {
      BooleanTextsPlain(c);
    }
  }

  /** Counting a parenthesis over the texts each compound node renders:
      the blanks contribute nothing, and each literal parenthesis one. */
  lemma BinaryCounts(o: string, dl: string, dr: string, c: char)
    requires c == '(' || c == ')'
    ensures Count("(" + o + " " + dl + " " + dr, c)
         == (if c == '(' then 1 else 0) + Count(o, c) + Count(dl, c) + Count(dr, c)
    ensures Count("(" + o + " " + dl + " " + dr + ")", c)
         == 1 + Count(o, c) + Count(dl, c) + Count(dr, c)
  {
    var body := (o + " " + dl) + " " + dr;
    assert "(" + o + " " + dl + " " + dr == "(" + body;
    assert "(" + o + " " + dl + " " + dr + ")" == "(" + body + ")";
    CountConcat("(" + body, ")", c);
    CountConcat("(", body, c);
    CountSpaced(o + " " + dl, dr, c);
    CountSpaced(o, dl, c);
  }

  lemma UnaryCounts(o: string, dr: string, c: char)
    requires c == '(' || c == ')'
    ensures Count("( " + o + " " + dr + " ", c) == (if c == '(' then 1 else 0) + Count(o, c) + Count(dr, c)
    ensures Count("(" + o + " " + dr + ")", c) == 1 + Count(o, c) + Count(dr, c)
  {
    var body := o + " " + dr;
    assert "( " + o + " " + dr + " " == "(" + (" " + body) + " ";
    assert "(" + o + " " + dr + ")" == "(" + body + ")";
    CountConcat("(" + (" " + body), " ", c);
    CountConcat("(", " " + body, c);
    CountConcat(" ", body, c);
    CountConcat("(" + body, ")", c);
    CountConcat("(", body, c);
    CountSpaced(o, dr, c);
  }

  /** As written, every compound node contributes one `(` and no `)`. */
  lemma {:induction false} DebugParenCounts(e: Expr, number: real -> string)
    requires WithoutVariables(e)
    ensures Count(Debug(e, number), '(') == Compound(e) + TextCount(e, number, '(')
    ensures Count(Debug(e, number), ')') == TextCount(e, number, ')')
  {
    match e
    case Binary(l, op, r) =>
      DebugParenCounts(l, number);
      DebugParenCounts(r, number);
      BinaryCounts(Lexer.KindText(op, number), Debug(l, number), Debug(r, number), '(');
      BinaryCounts(Lexer.KindText(op, number), Debug(l, number), Debug(r, number), ')');
    case Literal(v) =>
      LiteralCounts(v, number, '(');
      LiteralCounts(v, number, ')');
    case Unary(op, r) =>
      DebugParenCounts(r, number);
      UnaryCounts(Lexer.KindText(op, number), Debug(r, number), '(');
      UnaryCounts(Lexer.KindText(op, number), Debug(r, number), ')');
    case Grouping(g) =>
      DebugParenCounts(g, number);
    case Error(_, _) =>
  }

  /** Corrected, every compound node contributes one `(` and one `)`. */
  lemma {:induction false} DebugCorrectedParenCounts(e: Expr, number: real -> string)
    requires WithoutVariables(e)
    ensures Count(DebugCorrected(e, number), '(') == Compound(e) + TextCount(e, number, '(')
    ensures Count(DebugCorrected(e, number), ')') == Compound(e) + TextCount(e, number, ')')
  {
    match e
    case Binary(l, op, r) =>
      DebugCorrectedParenCounts(l, number);
      DebugCorrectedParenCounts(r, number);
      BinaryCounts(Lexer.KindText(op, number), DebugCorrected(l, number), DebugCorrected(r, number), '(');
      BinaryCounts(Lexer.KindText(op, number), DebugCorrected(l, number), DebugCorrected(r, number), ')');
    case Literal(v) =>
      LiteralCounts(v, number, '(');
      LiteralCounts(v, number, ')');
    case Unary(op, r) =>
      DebugCorrectedParenCounts(r, number);
      UnaryCounts(Lexer.KindText(op, number), DebugCorrected(r, number), '(');
      UnaryCounts(Lexer.KindText(op, number), DebugCorrected(r, number), ')');
    case Grouping(g) =>
      DebugCorrectedParenCounts(g, number);
    case Error(_, _) =>
  }

  /** As written, a tree with a compound node whose texts balance their own
      parentheses renders unbalanced. */
  lemma DebugUnbalanced(e: Expr, number: real -> string)
    requires WithoutVariables(e)
    requires TextCount(e, number, '(') == TextCount(e, number, ')')
    requires Compound(e) > 0
    ensures Count(Debug(e, number), '(') > Count(Debug(e, number), ')')
  {
    DebugParenCounts(e, number);
  }

  /** Corrected, such a tree renders balanced. */
  lemma DebugCorrectedBalanced(e: Expr, number: real -> string)
    requires WithoutVariables(e)
    requires TextCount(e, number, '(') == TextCount(e, number, ')')
    ensures Count(DebugCorrected(e, number), '(') == Count(DebugCorrected(e, number), ')')
  {
    DebugCorrectedParenCounts(e, number);
  }

  /** As written, the two booleans render alike; corrected, the rendering
      of a boolean literal determines it. */
  lemma BooleanRendering(a: bool, b: bool, number: real -> string)
    ensures Debug(Literal(BOOLEAN(a)), number) == Debug(Literal(BOOLEAN(b)), number)
    ensures DebugCorrected(Literal(BOOLEAN(a)), number) == DebugCorrected(Literal(BOOLEAN(b)), number) <==> a == b
  {
    if a != b {
      assert "true"[0] != "false"[0];
    }
  }

  /** `true == false`: as written it renders `(== true true`, corrected
      `(== true false)`. */
  lemma ExampleDebug(number: real -> string)
    ensures Debug(Binary(Literal(BOOLEAN(true)), Lexer.EqualEqual, Literal(BOOLEAN(false))), number) == "(== true true"
    ensures DebugCorrected(Binary(Literal(BOOLEAN(true)), Lexer.EqualEqual, Literal(BOOLEAN(false))), number) == "(== true false)"
  {
  }
}
