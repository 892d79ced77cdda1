/** The older generation's tree-walking evaluator: expressions, variable
    definitions, `print`, expression statements, error nodes and block
    scoping, over the scope chain of `InterpreterEnvironment`.

    The interpreter's state is its environment, so evaluation takes the
    environment and returns the one it leaves behind with the result.
    Numbers are exact reals. Division by zero, which the host's floating
    point answers with an infinity, is the model's own fault
    `DivisionByZero`. `if` and `while` have no visitor method in the
    interpreter; executing them is the fault `MissingVisitor`. */
module Interpreter {
  import opened Basics
  import Lexer
  import opened ParserExpression
  import opened ParserStatement
  import Scope = InterpreterEnvironment
  import Errors
  import Parser

  /** What a statement produces: a value, or `Null`, which the interpreter
      uses but the expression module's `Value` does not declare. */
  datatype Completion = Null | Produced(value: Value)

  /** Why evaluation stops: the source's runtime error, or one of the
      model's own faults described above. */
  datatype Failure = Runtime(error: Errors.RuntimeError) | DivisionByZero | MissingVisitor

  /** An expression's value (or failure) and the environment after it. */
  datatype Evaluated = Evaluated(env: Scope.Environment, result: Result<Value, Failure>)

  /** A statement's completion (or failure) and the environment after it. */
  datatype Executed = Executed(env: Scope.Environment, result: Result<Completion, Failure>)

  const NotANumber: Failure := Runtime(Errors.RuntimeError(0, "Not a number"))
  const Invalid: Failure := Runtime(Errors.RuntimeError(0, "Invalid"))
  const NotPrefixable: Failure := Runtime(Errors.RuntimeError(0, "Can only prefix a number with + or -"))

  /** The operators a binary node can compute with. */
  predicate IsArithmetic(op: Lexer.LexemeKind)
  {
    op == Lexer.Minus || op == Lexer.Plus || op == Lexer.Slash || op == Lexer.Star
  }

  /** The expression assigns nothing, so evaluating it cannot change the
      environment. */
  predicate ReadOnly(e: Expr)
  {
    match e
    case Binary(l, _, r) => ReadOnly(l) && ReadOnly(r)
    case Literal(_) => true
    case Unary(_, r) => ReadOnly(r)
    case Grouping(g) => ReadOnly(g)
    case Error(_, _) => true
    case Variable(_) => true
    case Assign(_, _) => false
  }

  /** Two environments have the same frames binding the same names. */
  predicate SameShape(a: Scope.Environment, b: Scope.Environment)
  {
    |a| == |b| && forall k :: 0 <= k < |a| ==> a[k].Keys == b[k].Keys
  }

  // ---------------------------------------------------------------------
  // Expressions

  /** `unwrap_number`: the number a successful evaluation produced. Any
      other value, and any runtime error (whatever its message), becomes
      "Not a number"; the model's own faults pass through. */
  function UnwrapNumber(v: Result<Value, Failure>): (r: Result<real, Failure>)
    ensures r.Ok? <==> v.Ok? && v.value.NUMBER?
    ensures r.Ok? ==> r.value == v.value.number
    ensures r.Err? && (v.Ok? || v.error.Runtime?) ==> r.error == NotANumber
    ensures r.Err? && v.Err? && !v.error.Runtime? ==> r.error == v.error
  {
    match v
    case Ok(NUMBER(n)) => Ok(n)
    case Err(f) => if f.Runtime? then Err(NotANumber) else Err(f)
    case _ => Err(NotANumber)
  }

  /** The arithmetic of `visit_binary` once both operands are numbers. */
  function Arithmetic(op: Lexer.LexemeKind, x: real, y: real): (r: Result<Value, Failure>)
    ensures r.Ok? <==> IsArithmetic(op) && !(op == Lexer.Slash && y == 0.0)
    ensures r.Ok? ==> r.value.NUMBER?
    ensures !IsArithmetic(op) ==> r == Err(Invalid)
    ensures op == Lexer.Slash && y == 0.0 ==> r == Err(DivisionByZero)
    ensures op == Lexer.Minus ==> r == Ok(NUMBER(x - y))
    ensures op == Lexer.Plus ==> r == Ok(NUMBER(x + y))
    ensures op == Lexer.Star ==> r == Ok(NUMBER(x * y))
    ensures op == Lexer.Slash && y != 0.0 ==> r == Ok(NUMBER(x / y))
  {
    match op
    case Minus => Ok(NUMBER(x - y))
    case Plus => Ok(NUMBER(x + y))
    case Slash => if y == 0.0 then Err(DivisionByZero) else Ok(NUMBER(x / y))
    case Star => Ok(NUMBER(x * y))
    case _ => Err(Invalid)
  }

  /** The sign of `visit_unary` once the operand is a number. */
  function Sign(op: Lexer.LexemeKind, x: real): (r: Result<Value, Failure>)
    ensures r.Ok? <==> op == Lexer.Minus || op == Lexer.Plus
    ensures r.Ok? ==> r.value.NUMBER? && (r.value.number == x || r.value.number == -x)
    ensures r.Err? ==> r.error == NotPrefixable
  {
    match op
    case Minus => Ok(NUMBER(-x))
    case Plus => Ok(NUMBER(x))
    case _ => Err(NotPrefixable)
  }

  /** `evaluate`: an expression's value, and the environment its
      assignments leave. Operands are evaluated left to right, and an
      assignment made before a later failure stays made. Evaluation never
      adds or removes a binding. */
  function Evaluate(env: Scope.Environment, e: Expr): (r: Evaluated)
    ensures SameShape(r.env, env)
    ensures ReadOnly(e) ==> r.env == env
    decreases e
  {
    match e
    case Literal(v) => Evaluated(env, Ok(v))
    case Grouping(g) => Evaluate(env, g)
    case Variable(name) =>
      (match Scope.Retrieve(env, name)
       case Ok(v) => Evaluated(env, Ok(v))
       case Err(err) => Evaluated(env, Err(Runtime(err))))
    case Assign(name, x) =>
      var a := Evaluate(env, x);
      if a.result.Err? then a
      else
        (match Scope.Assign(a.env, name, a.result.value)
         case Ok(env') => Evaluated(env', a.result)
         case Err(err) => Evaluated(a.env, Err(Runtime(err))))
    case Error(line, message) => Evaluated(env, Err(Runtime(Errors.RuntimeError(line, message))))
    case Unary(op, x) =>
      var a := Evaluate(env, x);
      (match UnwrapNumber(a.result)
       case Err(f) => Evaluated(a.env, Err(f))
       case Ok(n) => Evaluated(a.env, Sign(op, n)))
    case Binary(l, op, x) =>
      var a := Evaluate(env, l);
      match UnwrapNumber(a.result)
      case Err(f) => Evaluated(a.env, Err(f))
      case Ok(n) =>
        var b := Evaluate(a.env, x);
        match UnwrapNumber(b.result)
        case Err(f) => Evaluated(b.env, Err(f))
        case Ok(m) => Evaluated(b.env, Arithmetic(op, n, m))
  }

  // ---------------------------------------------------------------------
  // Statements

  /** `execute`: a statement's completion, and the environment it leaves.
      A block runs in a fresh inner scope; when it succeeds the
      environment from before the block is back, and when one of its
      statements fails the interpreter stays in the inner scope. */
  function Execute(env: Scope.Environment, s: Stmt): (r: Executed)
    ensures |r.env| >= |env|
    ensures r.result.Ok? ==> |r.env| == |env|
    ensures s.Block? && r.result.Err? ==> |r.env| > |env|
    decreases s, 1
  {
    match s
    case Block(body) =>
      var inner := RunBlock(Scope.NewWithScope(env), body);
      if inner.result.Ok? then Executed(env, Ok(Null)) else inner
    case If(_, _, _) => Executed(env, Err(MissingVisitor))
    case While(_, _) => Executed(env, Err(MissingVisitor))
    case VariableDef(ident, init) =>
      if init.None? then Executed(env, Ok(Null))
      else
        var a := Evaluate(env, init.value);
        if a.result.Ok? then Executed(Scope.Define(a.env, ident, a.result.value), Ok(Null))
        else Executed(a.env, Err(a.result.error))
    case Print(printed) =>
      if printed.None? then Executed(env, Ok(Null))
      else
        var a := Evaluate(env, printed.value);
        Executed(a.env, AsCompletion(a.result))
    case Expression(x) =>
      var a := Evaluate(env, x);
      Executed(a.env, AsCompletion(a.result))
    case Error(line, message) => Executed(env, Err(Runtime(Errors.RuntimeError(line, message))))
  }

  /** An expression's result as a statement's. */
  function AsCompletion(v: Result<Value, Failure>): (r: Result<Completion, Failure>)
    ensures r.Ok? <==> v.Ok?
    ensures r.Ok? ==> r.value == Produced(v.value)
    ensures r.Err? ==> r.error == v.error
  {
    match v
    case Ok(x) => Ok(Produced(x))
    case Err(f) => Err(f)
  }

  /** The loop of `visit_block`: the statements in order, stopping at the
      first failure. */
  function RunBlock(env: Scope.Environment, body: seq<Stmt>): (r: Executed)
    ensures |r.env| >= |env|
    ensures r.result.Ok? ==> r.result == Ok(Null) && |r.env| == |env|
    decreases body, 0
  {
    if |body| == 0 then Executed(env, Ok(Null))
    else
      var first := Execute(env, body[0]);
      if first.result.Err? then first
      else RunBlock(first.env, body[1..])
  }

  /** `start`: every statement in turn, each in the environment the one
      before left, and the result of the last (or `Null` when there is
      none). A failing statement does not stop the run. */
  function Start(env: Scope.Environment, stmts: seq<Stmt>): (r: Executed)
    ensures |stmts| == 0 ==> r == Executed(env, Ok(Null))
    ensures |stmts| == 1 ==> r == Execute(env, stmts[0])
    ensures |r.env| >= |env|
    decreases |stmts|
  {
    if |stmts| == 0 then Executed(env, Ok(Null))
    else
      var first := Execute(env, stmts[0]);
      if |stmts| == 1 then first else Start(first.env, stmts[1..])
  }

  /** `start` as the source writes it: a loop that keeps the last
      statement's result. */
  method Run(env: Scope.Environment, stmts: seq<Stmt>) returns (final: Scope.Environment, result: Result<Completion, Failure>)
    ensures Executed(final, result) == Start(env, stmts)
    ensures |stmts| > 0 ==> result == Execute(Start(env, stmts[..|stmts| - 1]).env, stmts[|stmts| - 1]).result
  {
    final, result := env, Ok(Null);
    var i := 0;
    while i < |stmts|
      invariant 0 <= i <= |stmts|
      invariant Executed(final, result) == Start(env, stmts[..i])
    {
      StartSnoc(env, stmts[..i], stmts[i]);
      assert stmts[..i + 1] == stmts[..i] + [stmts[i]];
      var step := Execute(final, stmts[i]);
      final, result := step.env, step.result;
      i := i + 1;
    }
    assert stmts[..|stmts|] == stmts;
    if |stmts| > 0 {
      StartSnoc(env, stmts[..|stmts| - 1], stmts[|stmts| - 1]);
      assert stmts[..|stmts| - 1] + [stmts[|stmts| - 1]] == stmts;
    }
  }

  // ---------------------------------------------------------------------
  // Properties of `start`

  /** One more statement runs in the environment the others left, and its
      result is the run's result, whatever the others produced. */
  lemma {:induction false} StartSnoc(env: Scope.Environment, stmts: seq<Stmt>, s: Stmt)
    ensures Start(env, stmts + [s]) == Execute(Start(env, stmts).env, s)
    decreases |stmts|
  {
    if |stmts| > 0 {
      var first := Execute(env, stmts[0]);
      assert (stmts + [s])[0] == stmts[0];
      assert (stmts + [s])[1..] == stmts[1..] + [s];
      StartSnoc(first.env, stmts[1..], s);
    }
  }

  /** A run of several statements is the first, then a run of the rest
      in the environment the first left. */
  lemma StartCons(env: Scope.Environment, s: Stmt, rest: seq<Stmt>)
    requires |rest| > 0
    ensures Start(env, [s] + rest) == Start(Execute(env, s).env, rest)
  {
    assert ([s] + rest)[0] == s && ([s] + rest)[1..] == rest;
  }

  /** An error statement fails without touching the environment, and the
      run goes on after it. */
  lemma ErrorsDoNotStop(env: Scope.Environment, line: nat, message: string, rest: seq<Stmt>)
    requires |rest| > 0
    ensures Execute(env, Stmt.Error(line, message)) == Executed(env, Err(Runtime(Errors.RuntimeError(line, message))))
    ensures Start(env, [Stmt.Error(line, message)] + rest) == Start(env, rest)
  {
    StartCons(env, Stmt.Error(line, message), rest);
  }

  // ---------------------------------------------------------------------
  // Properties of expressions

  /** A literal is its own value and a grouping is its inner expression's;
      neither touches the environment. */
  lemma LiteralAndGrouping(env: Scope.Environment, v: Value, g: Expr)
    ensures Evaluate(env, Literal(v)) == Evaluated(env, Ok(v))
    ensures Evaluate(env, Grouping(g)) == Evaluate(env, g)
  {
  }

  /** A variable reads the innermost binding of its name; an unbound name
      is the environment's error. */
  lemma VariableReads(env: Scope.Environment, name: string)
    ensures Evaluate(env, Variable(name)).env == env
    ensures Evaluate(env, Variable(name)).result.Ok? <==> Scope.Retrieve(env, name).Ok?
    ensures Scope.Retrieve(env, name).Ok? ==> Evaluate(env, Variable(name)).result == Ok(Scope.Retrieve(env, name).value)
    ensures Scope.Retrieve(env, name).Err? ==> Evaluate(env, Variable(name)).result == Err(Runtime(Scope.DoesNotExist(name)))
  {
  }

  /** An error node fails with its own line and message. */
  lemma ErrorNodeFails(env: Scope.Environment, line: nat, message: string)
    ensures Evaluate(env, Expr.Error(line, message)) == Evaluated(env, Err(Runtime(Errors.RuntimeError(line, message))))
  {
  }

  /** A binary node over operands that assign nothing succeeds exactly
      when both operands are numbers, the operator is one of `- + / *`
      and no division by zero occurs; its value is the operator applied to
      the two numbers. */
  lemma BinaryMeaning(env: Scope.Environment, l: Expr, op: Lexer.LexemeKind, x: Expr)
    requires ReadOnly(l) && ReadOnly(x)
    ensures var r := Evaluate(env, Binary(l, op, x));
      var a, b := Evaluate(env, l).result, Evaluate(env, x).result;
      && r.env == env
      && (r.result.Ok? <==> a.Ok? && a.value.NUMBER? && b.Ok? && b.value.NUMBER?
                            && IsArithmetic(op) && !(op == Lexer.Slash && b.value.number == 0.0))
      && (r.result.Ok? ==> r.result == Arithmetic(op, a.value.number, b.value.number))
  {
  }

  /** A left operand that is not a number fails the node with "Not a
      number" before the right operand is evaluated: an assignment on the
      right is not made. */
  lemma LeftNotANumber(env: Scope.Environment, v: Value, op: Lexer.LexemeKind, x: Expr)
    requires !v.NUMBER?
    ensures Evaluate(env, Binary(Literal(v), op, x)) == Evaluated(env, Err(NotANumber))
  {
  }

  /** A runtime error in an operand is reported as "Not a number", not as
      itself: reading an unbound name in arithmetic loses the name. */
  lemma OperandErrorMasked(env: Scope.Environment, name: string, op: Lexer.LexemeKind, x: Expr)
    requires Scope.Retrieve(env, name).Err?
    ensures Evaluate(env, Binary(Variable(name), op, x)).result == Err(NotANumber)
    ensures Evaluate(env, Unary(op, Variable(name))).result == Err(NotANumber)
  {
  }

  /** An operator outside `- + / *` fails even on two numbers. */
  lemma InvalidOperator(env: Scope.Environment, x: real, op: Lexer.LexemeKind, y: real)
    requires !IsArithmetic(op)
    ensures Evaluate(env, Binary(Literal(NUMBER(x)), op, Literal(NUMBER(y)))) == Evaluated(env, Err(Invalid))
  {
  }

  /** Over the model's exact reals, subtraction undoes addition, and
      division undoes multiplication by a non-zero number; `f64` rounding
      does not keep this. */
  lemma ArithmeticInverse(x: real, y: real)
    ensures var sum := Arithmetic(Lexer.Plus, x, y);
      sum.Ok? && Arithmetic(Lexer.Minus, sum.value.number, y) == Ok(NUMBER(x))
    ensures y != 0.0 ==> var product := Arithmetic(Lexer.Star, x, y);
      product.Ok? && Arithmetic(Lexer.Slash, product.value.number, y) == Ok(NUMBER(x))
  {
    if y != 0.0 {
      assert Arithmetic(Lexer.Star, x, y) == Ok(NUMBER(x * y));
      assert (x * y) / y == x;
      assert Arithmetic(Lexer.Slash, x * y, y) == Ok(NUMBER((x * y) / y));
    }
  }

  /** Prefix `-` negates and prefix `+` keeps a number; any other prefix
      operator fails on a number, and a non-number operand fails with
      "Not a number". */
  lemma UnaryMeaning(env: Scope.Environment, op: Lexer.LexemeKind, x: Expr)
    requires ReadOnly(x)
    ensures var r := Evaluate(env, Unary(op, x));
      var a := Evaluate(env, x).result;
      && r.env == env
      && (a.Ok? && a.value.NUMBER? && op == Lexer.Minus ==> r.result == Ok(NUMBER(-a.value.number)))
      && (a.Ok? && a.value.NUMBER? && op == Lexer.Plus ==> r.result == Ok(a.value))
      && (a.Ok? && a.value.NUMBER? && op != Lexer.Minus && op != Lexer.Plus ==> r.result == Err(NotPrefixable))
      && (a.Ok? && !a.value.NUMBER? ==> r.result == Err(NotANumber))
  {
  }

  /** Negating twice gives the number back. */
  lemma DoubleNegation(env: Scope.Environment, x: Expr)
    requires ReadOnly(x)
    requires Evaluate(env, x).result.Ok? && Evaluate(env, x).result.value.NUMBER?
    ensures Evaluate(env, Unary(Lexer.Minus, Unary(Lexer.Minus, x))) == Evaluate(env, x)
  {
    UnaryMeaning(env, Lexer.Minus, x);
    UnaryMeaning(env, Lexer.Minus, Unary(Lexer.Minus, x));
  }

  /** An assignment whose right side assigns nothing succeeds exactly when
      the right side succeeds and some frame binds the name; it yields the
      assigned value, which the name then reads as. An unbound name is the
      environment's error and leaves the environment as it was. */
  lemma AssignMeaning(env: Scope.Environment, name: string, x: Expr)
    requires ReadOnly(x)
    ensures var r := Evaluate(env, Assign(name, x));
      var a := Evaluate(env, x).result;
      && (r.result.Ok? <==> a.Ok? && Scope.Retrieve(env, name).Ok?)
      && (r.result.Ok? ==> r.result == a && Scope.Retrieve(r.env, name) == Ok(a.value))
      && (a.Ok? && Scope.Retrieve(env, name).Err? ==> r == Evaluated(env, Err(Runtime(Scope.DoesNotExist(name)))))
  {
    var a := Evaluate(env, x).result;
    if a.Ok? {
      Scope.AssignWhereRetrieves(env, name, a.value);
      if Scope.Assign(env, name, a.value).Ok? {
        Scope.AssignThenRetrieve(env, name, a.value);
      }
    }
  }

  // ---------------------------------------------------------------------
  // Properties of statements

  /** `var a;` defines nothing and completes with `Null`. */
  lemma DefinitionWithoutValue(env: Scope.Environment, ident: string)
    ensures Execute(env, VariableDef(ident, None)) == Executed(env, Ok(Null))
  {
  }

  /** `var a = e` with `e` succeeding binds `a` to the value in the
      innermost frame only, and completes with `Null`; when `e` fails it
      binds nothing and fails the same way. */
  lemma DefinitionMeaning(env: Scope.Environment, ident: string, x: Expr)
    requires ReadOnly(x)
    ensures var r := Execute(env, VariableDef(ident, Some(x)));
      var a := Evaluate(env, x).result;
      && (r.result.Ok? <==> a.Ok?)
      && (a.Ok? ==> r.result == Ok(Null) && Scope.Retrieve(r.env, ident) == Ok(a.value)
                    && r.env[1..] == env[1..] && r.env[0].Keys == env[0].Keys + {ident})
      && (a.Err? ==> r == Executed(env, Err(a.error)))
  {
    var a := Evaluate(env, x).result;
    if a.Ok? {
      Scope.DefineThenRetrieve(env, ident, a.value);
    }
  }

  /** `print(e)` completes with the value of `e`, or fails as `e` does;
      `print()` completes with `Null`. */
  lemma PrintMeaning(env: Scope.Environment, x: Expr)
    ensures Execute(env, Print(None)) == Executed(env, Ok(Null))
    ensures var r := Execute(env, Print(Some(x)));
      var a := Evaluate(env, x);
      && r.env == a.env
      && (r.result.Ok? <==> a.result.Ok?)
      && (a.result.Ok? ==> r.result == Ok(Produced(a.result.value)))
  {
  }

  /** A block that succeeds leaves the environment exactly as it found
      it: every name reads as it did before, whatever the block defined or
      assigned. */
  lemma BlockRestores(env: Scope.Environment, body: seq<Stmt>, name: string)
    requires Execute(env, Block(body)).result.Ok?
    ensures Execute(env, Block(body)) == Executed(env, Ok(Null))
    ensures Scope.Retrieve(Execute(env, Block(body)).env, name) == Scope.Retrieve(env, name)
  {
  }

  /** A block's statements run in a fresh inner scope, so the first of
      them sees exactly the enclosing names. */
  lemma BlockOpensScope(env: Scope.Environment, s: Stmt, rest: seq<Stmt>)
    ensures var inner := Scope.NewWithScope(env);
      var first := Execute(inner, s);
      && first.result.Ok? ==> Execute(env, Block([s] + rest)).result == RunBlock(first.env, rest).result
  {
    assert ([s] + rest)[0] == s && ([s] + rest)[1..] == rest;
  }

  /** `if` and `while` have no visitor method: executing either fails. */
  lemma ConditionalsUnsupported(env: Scope.Environment, c: Expr, s: Stmt, alt: Option<Stmt>)
    ensures Execute(env, If(c, s, alt)) == Executed(env, Err(MissingVisitor))
    ensures Execute(env, While(c, s)) == Executed(env, Err(MissingVisitor))
  {
  }

  // ---------------------------------------------------------------------
  // Examples: the interpreter's own test programs, as statement trees

  function Num(x: real): Expr { Literal(NUMBER(x)) }

  /** `-1` is minus one. */
  lemma ExampleNegative()
    ensures Start(Scope.New(), [Expression(Unary(Lexer.Minus, Num(1.0)))]).result == Ok(Produced(NUMBER(-1.0)))
  {
  }

  /** `-1+1` is read as `1 - 1` (the prefix operators' reading) and is
      zero. */
  lemma ExampleAdds(g: Parser.Grammar, ts: seq<Lexer.Token>, env: Scope.Environment)
    requires |ts| == 4 && ts[0].lexeme == Lexer.Minus && ts[1].lexeme == Lexer.NUMBER(1.0)
    requires ts[2].lexeme == Lexer.Plus && ts[3].lexeme == Lexer.NUMBER(1.0)
    ensures Parser.Parse(g, ts) == Some(Binary(Num(1.0), Lexer.Minus, Num(1.0)))
    ensures Evaluate(env, Parser.Parse(g, ts).value) == Evaluated(env, Ok(NUMBER(0.0)))
  {
    ReadsAsDifference(g, ts);
  }

  lemma ReadsAsDifference(g: Parser.Grammar, ts: seq<Lexer.Token>)
    requires |ts| == 4 && ts[0].lexeme == Lexer.Minus && ts[1].lexeme == Lexer.NUMBER(1.0)
    requires ts[2].lexeme == Lexer.Plus && ts[3].lexeme == Lexer.NUMBER(1.0)
    ensures Parser.Parse(g, ts) == Some(Binary(Num(1.0), Lexer.Minus, Num(1.0)))
  {
    assert ts[0].lexeme in Parser.Operators(1) && ts[2].lexeme in Parser.Operators(1);
    Parser.PrefixPair(g, ts);
  }

  /** `print("foo")`, `print(2+1)` and `print()`. */
  lemma ExamplePrints()
    ensures Start(Scope.New(), [Print(Some(Literal(STRING("foo"))))]).result == Ok(Produced(STRING("foo")))
    ensures Start(Scope.New(), [Print(Some(Binary(Num(2.0), Lexer.Plus, Num(1.0))))]).result == Ok(Produced(NUMBER(3.0)))
    ensures Start(Scope.New(), [Print(None)]).result == Ok(Null)
  {
  }

  /** `var a;` binds nothing; `var a = "foo";` binds `a` in the only
      frame. */
  lemma ExampleDefinitions()
    ensures Start(Scope.New(), [VariableDef("a", None)]) == Executed(Scope.New(), Ok(Null))
    ensures Start(Scope.New(), [VariableDef("a", Some(Literal(STRING("foo"))))])
         == Executed([map["a" := STRING("foo")]], Ok(Null))
  {
  }

  /** `var a = 4; print(a);` prints four and keeps `a`. */
  lemma ExampleMultiline()
    ensures Start(Scope.New(), [VariableDef("a", Some(Num(4.0))), Print(Some(Variable("a")))])
         == Executed([map["a" := NUMBER(4.0)]], Ok(Produced(NUMBER(4.0))))
  {
    var env := Execute(Scope.New(), VariableDef("a", Some(Num(4.0)))).env;
    assert env == [map["a" := NUMBER(4.0)]];
    assert [VariableDef("a", Some(Num(4.0))), Print(Some(Variable("a")))][1..] == [Print(Some(Variable("a")))];
  }

  /** `var a = b;` with `b` unbound is the environment's error,
      `Variable "b" does not exist` at line 0. */
  lemma ExampleUnboundInitializer()
    ensures Start(Scope.New(), [VariableDef("a", Some(Variable("b")))]).result
         == Err(Runtime(Scope.DoesNotExist("b")))
  {
  }

  /** `{ var a = 4; print(a); }` leaves nothing bound. */
  lemma ExampleBlock()
    ensures Start(Scope.New(), [Block([VariableDef("a", Some(Num(4.0))), Print(Some(Variable("a")))])])
         == Executed(Scope.New(), Ok(Null))
  {
  }

  /** `var a = 4;` in a new interpreter. */
  lemma DefineFour()
    ensures Execute(Scope.New(), VariableDef("a", Some(Num(4.0)))) == Executed([map["a" := NUMBER(4.0)]], Ok(Null))
  {
  }

  /** `a = 5;` in a block entered with `a` bound to four outside it
      changes the enclosing frame. */
  lemma AssignFive(outer: Scope.Environment)
    requires outer == [map["a" := NUMBER(4.0)]]
    ensures Execute(Scope.NewWithScope(outer), Expression(Assign("a", Num(5.0))))
         == Executed([map[], map["a" := NUMBER(5.0)]], Ok(Produced(NUMBER(5.0))))
  {
    var inner := Scope.NewWithScope(outer);
    assert inner[1..] == outer;
    assert outer[0]["a" := NUMBER(5.0)] == map["a" := NUMBER(5.0)];
    assert [outer[0]["a" := NUMBER(5.0)]] + outer[1..] == [map["a" := NUMBER(5.0)]];
    assert Scope.Assign(outer, "a", NUMBER(5.0)) == Ok([map["a" := NUMBER(5.0)]]);
    assert [inner[0]] + [map["a" := NUMBER(5.0)]] == [map[], map["a" := NUMBER(5.0)]];
  }

  /** Inside the block of `var a = 4; { a = 5; ... print(a); }` the
      assignment is seen. */
  lemma ExampleAssignmentSeenInside(outer: Scope.Environment)
    requires outer == [map["a" := NUMBER(4.0)]]
    ensures Start(Scope.NewWithScope(outer), [Expression(Assign("a", Num(5.0))), Print(Some(Variable("a")))]).result
         == Ok(Produced(NUMBER(5.0)))
  {
    AssignFive(outer);
    StartCons(Scope.NewWithScope(outer), Expression(Assign("a", Num(5.0))), [Print(Some(Variable("a")))]);
  }

  /** The block `{ a = 5; var b = 10.1; print(a); }` succeeds when `a` is
      bound outside it. */
  lemma InnerBlockSucceeds(outer: Scope.Environment, body: seq<Stmt>)
    requires outer == [map["a" := NUMBER(4.0)]]
    requires body == [Expression(Assign("a", Num(5.0))), VariableDef("b", Some(Num(10.1))), Print(Some(Variable("a")))]
    ensures Execute(outer, Block(body)) == Executed(outer, Ok(Null))
  {
    AssignFive(outer);
    var afterAssign: Scope.Environment := [map[], map["a" := NUMBER(5.0)]];
    var defined := Execute(afterAssign, body[1]).env;
    assert RunBlock(Scope.NewWithScope(outer), body) == RunBlock(afterAssign, body[1..]);
    assert RunBlock(afterAssign, body[1..]) == RunBlock(defined, body[2..]);
  }

  /** `var a = 4; { a = 5; var b = 10.1; print(a); }`: after the block
      `a` is four again and `b` is unbound. */
  lemma ExampleInnerAssignment()
    ensures Start(Scope.New(), [VariableDef("a", Some(Num(4.0))),
                                Block([Expression(Assign("a", Num(5.0))), VariableDef("b", Some(Num(10.1))), Print(Some(Variable("a")))])])
         == Executed([map["a" := NUMBER(4.0)]], Ok(Null))
  {
    var body := [Expression(Assign("a", Num(5.0))), VariableDef("b", Some(Num(10.1))), Print(Some(Variable("a")))];
    DefineFour();
    StartCons(Scope.New(), VariableDef("a", Some(Num(4.0))), [Block(body)]);
    InnerBlockSucceeds([map["a" := NUMBER(4.0)]], body);
  }

  /** The block `{ b = 5; print(b); }` fails on the unbound `b` and leaves
      its own scope in place. */
  lemma InnerBlockFails(outer: Scope.Environment)
    requires outer == [map["a" := NUMBER(4.0)]]
    ensures Execute(outer, Block([Expression(Assign("b", Num(5.0))), Print(Some(Variable("b")))]))
         == Executed([map[], map["a" := NUMBER(4.0)]], Err(Runtime(Scope.DoesNotExist("b"))))
  {
    var inner := Scope.NewWithScope(outer);
    var body := [Expression(Assign("b", Num(5.0))), Print(Some(Variable("b")))];
    assert Scope.Assign(inner, "b", NUMBER(5.0)) == Err(Scope.DoesNotExist("b"));
    assert Evaluate(inner, Assign("b", Num(5.0))) == Evaluated(inner, Err(Runtime(Scope.DoesNotExist("b"))));
    assert RunBlock(inner, body) == Executed(inner, Err(Runtime(Scope.DoesNotExist("b"))));
    assert inner == [map[], map["a" := NUMBER(4.0)]];
  }

  /** `var a = 4; { b = 5; print(b); }` fails on the unbound `b`, and the
      interpreter is left in the block's scope. */
  lemma ExampleBlockError()
    ensures Start(Scope.New(), [VariableDef("a", Some(Num(4.0))),
                                Block([Expression(Assign("b", Num(5.0))), Print(Some(Variable("b")))])])
         == Executed([map[], map["a" := NUMBER(4.0)]], Err(Runtime(Scope.DoesNotExist("b"))))
  {
    DefineFour();
    StartCons(Scope.New(), VariableDef("a", Some(Num(4.0))),
              [Block([Expression(Assign("b", Num(5.0))), Print(Some(Variable("b")))])]);
    InnerBlockFails([map["a" := NUMBER(4.0)]]);
  }
}
