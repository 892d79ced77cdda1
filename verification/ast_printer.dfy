/** The newer generation's expression printer: a fully parenthesised,
    prefix rendering of an expression tree. */
module AstPrinter {
  import opened Basics
  import opened Tokens
  import opened Expressions

  /** `parenthesize`: the name and the rendered parts, space separated,
      in one pair of parentheses. */
  function Parenthesize(name: string, parts: seq<string>): string
  {
    "(" + Join([name] + parts, " ") + ")"
  }

  /** The printer as a visitor over the tree. */
  function Print(e: Expression): string
  {
    match e
    case Binary(l, op, r) => Parenthesize(TokenText(op), [Print(l), Print(r)])
    case Grouping(g) => Parenthesize("group", [Print(g)])
    case Literal(t) => TokenText(t)
    case Unary(op, x) => Parenthesize(TokenText(op), [Print(x)])
  }

  /** The joining loop of `parenthesize`, which appends each rendered part
      after a separator. */
  method JoinParts(parts: seq<string>, sep: string) returns (s: string)
    ensures s == Join(parts, sep)
  {
    if |parts| == 0 {
      return "";
    }
    s := parts[0];
    var i := 1;
    while i < |parts|
      invariant 1 <= i <= |parts|
      invariant s == Join(parts[..i], sep)
    {
      JoinSnoc(parts[..i], parts[i], sep);
      assert parts[..i + 1] == parts[..i] + [parts[i]];
      s := s + sep + parts[i];
      i := i + 1;
    }
    assert parts[..i] == parts;
  }

  // ---------------------------------------------------------------------
  // Shape of the output

  /** Number of nodes that print a pair of parentheses. */
  function Compound(e: Expression): nat
  {
    match e
    case Binary(l, _, r) => 1 + Compound(l) + Compound(r)
    case Grouping(g) => 1 + Compound(g)
    case Literal(_) => 0
    case Unary(_, x) => 1 + Compound(x)
  }

  /** Occurrences of `c` in the texts of the tree's tokens. */
  function TokenCount(e: Expression, c: char): nat
  {
    match e
    case Binary(l, op, r) => TokenCount(l, c) + Count(TokenText(op), c) + TokenCount(r, c)
    case Grouping(g) => TokenCount(g, c)
    case Literal(t) => Count(TokenText(t), c)
    case Unary(op, x) => Count(TokenText(op), c) + TokenCount(x, c)
  }

  /** `parenthesize` with one part and with two parts, spelled out. */
  lemma ParenthesizeForms(name: string, a: string, b: string)
    ensures Parenthesize(name, [a]) == "(" + (name + " " + a) + ")"
    ensures Parenthesize(name, [a, b]) == "(" + (name + " " + (a + " " + b)) + ")"
  {
    assert [name] + [a] == [name, a] && [name, a][1..] == [a];
    assert Join([name, a], " ") == name + " " + Join([a], " ") == name + " " + a;
    assert [name] + [a, b] == [name, a, b] && [name, a, b][1..] == [a, b] && [a, b][1..] == [b];
    assert Join([a, b], " ") == a + " " + Join([b], " ") == a + " " + b;
    assert Join([name, a, b], " ") == name + " " + Join([a, b], " ");
  }

  /** Counting a non-blank character over one- and two-part
      parenthesisations: the separators contribute nothing. */
  lemma CountParenthesizeOne(name: string, a: string, c: char)
    requires c != ' '
    ensures Count(Parenthesize(name, [a]), c)
         == Count("(", c) + Count(name, c) + Count(a, c) + Count(")", c)
  {
    ParenthesizeForms(name, a, "");
    var one := name + " " + a;
    CountConcat("(" + one, ")", c);
    CountConcat("(", one, c);
    CountConcat(name + " ", a, c);
    CountConcat(name, " ", c);
  }

  lemma CountParenthesizeTwo(name: string, a: string, b: string, c: char)
    requires c != ' '
    ensures Count(Parenthesize(name, [a, b]), c)
         == Count("(", c) + Count(name, c) + Count(a, c) + Count(b, c) + Count(")", c)
  {
    ParenthesizeForms(name, a, b);
    var two := name + " " + (a + " " + b);
    CountConcat("(" + two, ")", c);
    CountConcat("(", two, c);
    CountConcat(name + " ", a + " " + b, c);
    CountConcat(name, " ", c);
    CountConcat(a + " ", b, c);
    CountConcat(a, " ", c);
  }

  /** Every compound node contributes exactly one `(` and one `)`; all
      other parentheses come from token texts. */
  lemma ParenCounts(e: Expression)
    ensures Count(Print(e), '(') == Compound(e) + TokenCount(e, '(')
    ensures Count(Print(e), ')') == Compound(e) + TokenCount(e, ')')
  {
    ParenCount(e, '(');
    ParenCount(e, ')');
  }

  /** One parenthesis character at a time. */
  lemma {:induction false} ParenCount(e: Expression, ch: char)
    requires ch == '(' || ch == ')'
    ensures Count(Print(e), ch) == Compound(e) + TokenCount(e, ch)
  {
    ParenChars(ch);
    match e
    case Binary(l, op, r) =>
      ParenCount(l, ch);
      ParenCount(r, ch);
      CountParenthesizeTwo(TokenText(op), Print(l), Print(r), ch);
    case Grouping(g) =>
      ParenCount(g, ch);
      CountParenthesizeOne("group", Print(g), ch);
    case Literal(_) =>
    case Unary(op, x) =>
      ParenCount(x, ch);
      CountParenthesizeOne(TokenText(op), Print(x), ch);
  }

  /** The parentheses a compound node adds hold one `ch`; "group" holds
      none. */
  lemma ParenChars(ch: char)
    requires ch == '(' || ch == ')'
    ensures Count("(", ch) + Count(")", ch) == 1
    ensures Count("group", ch) == 0
  {
  }

  /** Tokens whose texts balance their own parentheses print as balanced
      text. */
  lemma Balanced(e: Expression)
    requires TokenCount(e, '(') == TokenCount(e, ')')
    ensures Count(Print(e), '(') == Count(Print(e), ')')
  {
    ParenCounts(e);
  }

  /** Printing ignores the lines tokens carry. */
  function AtLine(e: Expression, line: nat): Expression
  {
    match e
    case Binary(l, op, r) => Binary(AtLine(l, line), op.(line := line), AtLine(r, line))
    case Grouping(g) => Grouping(AtLine(g, line))
    case Literal(t) => Literal(t.(line := line))
    case Unary(op, x) => Unary(op.(line := line), AtLine(x, line))
  }

  lemma {:induction false} PrintIgnoresLines(e: Expression, line: nat)
    ensures Print(AtLine(e, line)) == Print(e)
  {
    match e
    case Binary(l, _, r) => PrintIgnoresLines(l, line); PrintIgnoresLines(r, line);
    case Grouping(g) => PrintIgnoresLines(g, line);
    case Literal(_) =>
    case Unary(_, x) => PrintIgnoresLines(x, line);
  }

  /** A binary node prints as its operator and both operands, space
      separated, in one pair of parentheses. */
  lemma PrintBinary(l: Expression, op: Token, r: Expression)
    ensures Print(Binary(l, op, r)) == "(" + (TokenText(op) + " " + (Print(l) + " " + Print(r))) + ")"
  {
    ParenthesizeForms(TokenText(op), Print(l), Print(r));
  }

  /** A unary node prints as its operator and operand in parentheses;
      a grouping prints as the word `group` and its content. */
  lemma PrintUnaryGrouping(op: Token, x: Expression)
    ensures Print(Unary(op, x)) == "(" + (TokenText(op) + " " + Print(x)) + ")"
    ensures Print(Grouping(x)) == "(" + ("group" + " " + Print(x)) + ")"
  {
    ParenthesizeForms(TokenText(op), Print(x), "");
    ParenthesizeForms("group", Print(x), "");
  }

  /** The rendering of `-123`. */
  lemma ExamplePrintNegation(neg: Expression)
    requires neg == Unary(Token(Minus, 0), Literal(Token(Number(Numeral("123", "")), 0)))
    ensures Print(neg) == "(- 123)"
  {
    PrintUnaryGrouping(neg.operator, neg.operand);
    assert TokenText(neg.operator) == "-";
    assert Print(neg.operand) == "123";
  }

  /** The rendering of `(45.67)`. */
  lemma ExamplePrintGrouping(group: Expression)
    requires group == Grouping(Literal(Token(Number(Numeral("45", "67")), 0)))
    ensures Print(group) == "(group 45.67)"
  {
    PrintUnaryGrouping(Token(Minus, 0), group.inner);
    assert Print(group.inner) == "45" + "." + "67" == "45.67";
  }

  /** The texts of `-123 * (45.67)`'s parts, put together. */
  lemma JoinedOperands()
    ensures "(- 123)" + " " + "(group 45.67)" == "(- 123) (group 45.67)"
  {
  }

  lemma JoinedProduct()
    ensures "(" + ("*" + " " + "(- 123) (group 45.67)") + ")" == "(* (- 123) (group 45.67))"
  {
  }

  /** The rendering of `-123 * (45.67)`. */
  lemma ExamplePrint(neg: Expression, group: Expression)
    requires neg == Unary(Token(Minus, 0), Literal(Token(Number(Numeral("123", "")), 0)))
    requires group == Grouping(Literal(Token(Number(Numeral("45", "67")), 0)))
    ensures Print(Binary(neg, Token(Star, 0), group)) == "(* (- 123) (group 45.67))"
  {
    ExamplePrintNegation(neg);
    ExamplePrintGrouping(group);
    PrintBinary(neg, Token(Star, 0), group);
    assert TokenText(Token(Star, 0)) == "*";
    JoinedOperands();
    JoinedProduct();
  }
}
