/** The newer generation's expression tree. Operators and literals are
    kept as the tokens the scanner produced. */
module Expressions {
  import opened Tokens

  datatype Expression =
    | Binary(left: Expression, operator: Token, right: Expression)
    | Grouping(inner: Expression)
    | Literal(value: Token)
    | Unary(operator: Token, operand: Expression)

  /** The calls `accept` makes on a visitor: which `visit_*` method runs and
      with which arguments. */
  datatype VisitCall =
    | VisitBinary(left: Expression, operator: Token, right: Expression)
    | VisitGrouping(inner: Expression)
    | VisitLiteral(value: Token)
    | VisitUnary(operator: Token, operand: Expression)

  /** `Expression::accept`: dispatch on the variant. */
  function Accept(e: Expression): (call: VisitCall)
    ensures Rebuild(call) == e
  {
    match e
    case Binary(l, op, r) => VisitBinary(l, op, r)
    case Grouping(g) => VisitGrouping(g)
    case Literal(t) => VisitLiteral(t)
    case Unary(op, x) => VisitUnary(op, x)
  }

  /** The expression a visitor call was made for. */
  function Rebuild(call: VisitCall): Expression
  {
    match call
    case VisitBinary(l, op, r) => Binary(l, op, r)
    case VisitGrouping(g) => Grouping(g)
    case VisitLiteral(t) => Literal(t)
    case VisitUnary(op, x) => Unary(op, x)
  }

  /** Dispatch loses nothing and confuses no two variants. */
  lemma AcceptInjective(a: Expression, b: Expression)
    ensures Accept(a) == Accept(b) <==> a == b
  {
    if Accept(a) == Accept(b) {
      assert Rebuild(Accept(a)) == Rebuild(Accept(b));
    }
  }
}
