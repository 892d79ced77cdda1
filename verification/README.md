# tree-walk-1 in Dafny

A model of the core of `tree-walk-1`, a small tree-walking interpreter for a
Lox-like language written in Rust. The repository holds two generations of
the front end that do not share types. This model keeps them apart as well.

**The newer generation** (`token.rs`, `scanner.rs`, `expression.rs`,
`ast_printer.rs`, `environment.rs`, `errors.rs`) has these modules:

- `Tokens`: the lexemes and their printed text.
- `Scanner`: a lazy scanner. It yields `Ok(token)` or a scan error per pull and
  ends its stream with one `Eof` token.
- `Expressions`: the expression tree and its visitor dispatch.
- `AstPrinter`: the parenthesised printer.
- `Environment`: a chain of scopes keyed by identifier tokens.
- `Errors`: the runtime error and its display form. The older
  generation's `interpreter.rs` declares the same struct with the same
  display form, so both generations share this module.

**The older generation** (`lexer.rs`, `parser.rs`, `parser/expression.rs`,
`parser/statement.rs`, `interpreter.rs`, `interpreter/environment.rs`) has
these modules:

- `Lexer`: a lexer that emits whitespace tokens. It panics on a malformed
  number.
- `Parser`: a recursive-descent expression parser. Its `unary` loop has an
  unusual reading of repeated prefix operators.
- `ParserExpression`: the expression tree, its visitor dispatch and its
  `debug` rendering.
- `ParserStatement`: the statement parser (`var`, `print`, blocks, `if`,
  `while`).
- `InterpreterEnvironment`: the scope chain.
- `Interpreter`: evaluates expressions and executes statements over that
  chain.

`Basics` holds shared helpers: `Option`/`Result`, joining, counting, and
decimal text of naturals. It also holds `Nearest`, the reference definition
of "innermost scope that binds a name". Both environment models are proved
against `Nearest`.

Modelling choices:

- **Parsers and lexers.** Each is a set of pure functions over a character
  or token sequence and a cursor. A pull of an iterator is a function from a
  state to an item and the next state.
- **Panics.** A source `unwrap` or `todo!()` on a path that can fail is an
  explicit outcome: `None`, `Panic` or `Abort`.
- **Scopes.** A scope chain is a sequence of maps, innermost first. Sharing
  through `Rc<RefCell<…>>` becomes value semantics. An operation returns the
  new chain.
- **Block scopes.** A block runs on a fresh inner scope over the current
  chain. When it succeeds the interpreter puts back the chain it saved. When
  a statement inside it fails, the interpreter is left in the inner scope, as
  the source's early `?` return leaves it.
- **Numbers.**
  - The newer generation keeps a number as its canonical decimal numeral:
    whole digits without leading zeros, fraction digits without trailing
    zeros. Two literals are equal exactly when their `f64` values are, for
    the short literals the tests use.
  - The older generation keeps a number as an exact `real`.
  - The newer generation prints a number as the literal's own digits
    (`Tokens.NumeralText`). The older generation's `to_string` and `debug`
    of a number take a formatter parameter.
- **Statement parser.** `parser/statement.rs` is written against an
  expression parser that has `Expr::Variable` and `Expr::Assign` and a
  `Result`-returning `expect`. `parser.rs` has none of these. The model
  supplies them with a grammar flag:
  - `ExpressionsOnly` is `parser.rs` as written.
  - `WithVariables` adds identifiers as variable references, plus `target = value`
    assignment below equality. An invalid target becomes the error node
    "Invalid left hand assignment expression".
  - `expect` steps over a matching token, and otherwise leaves the cursor
    where it is and reports failure.

Quirks of the code that the model keeps as written, each with a lemma:

- **Printed text.** `Comma` prints as `.` and `BangEqual` as `!!`, in both
  generations (`Tokens.TextNotInjective`, `Lexer.KindTextLossy`).
- **Older lexer strings.** An unterminated string loses its last character
  (`Lexer.WordEnd`).
- **Newer scanner comments.** A comment's closing newline is consumed by
  `take_while`, so it does not advance the line counter
  (`Scanner.CommentSkipped`).
- **Repeated prefix operators.** `unary` reads `+1+1` as `1 + 1` and `-1+2`
  as `1 - 2`. A third prefixed operand discards what was built
  (`Parser.PrefixPair`, `Parser.PrefixTriple`).
- **`print`.** It skips the token after `print` without looking at it. After
  the closing `)`, one more token is skipped. A declaration skips the token
  after its expression.
- **Runs of blanks.** The lexer makes one whitespace token per blank, and
  `eat_whitespace` steps over one token. In an indented block the second
  blank is read as an expression statement, which comes out as an error
  expression (`ParserStatement.ExampleIndentedBlock`).
- **Block loop.** It never terminates when a statement does not move the
  cursor, for example an error expression. This is `Abort.NoProgress`.
- **`unwrap_number`.** It reports every failed operand as "Not a number",
  including an unbound variable.
- **Blocks.** A block that succeeds discards assignments to enclosing
  variables, because the interpreter restores the chain it saved. This is
  what the test `it_works_replace_inner_block` asserts.

## Model

| member | source | states |
|---|---|---|
| Tokens.KeywordForText | src/scanner.rs:159-177 | a word the reserved-word table maps to a keyword is that keyword's printed text |
| Tokens.KeywordRoundTrip | src/token.rs:94-109 | every keyword's printed text is mapped back to that same keyword by the scanner's reserved-word table |
| Tokens.KeywordForExact | src/scanner.rs:159-177 | a word that is no keyword's text maps to no keyword, and every keyword's text is found |
| Tokens.IdentifierName | src/token.rs:63-68 | the name of an identifier token is its payload; any other token is excluded, as the source panics on it |
| Tokens.LiteralTexts | src/token.rs:91-110 | an identifier prints bare, a string in double quotes, end of input as `<EOF>` |
| Tokens.TextNotInjective | src/token.rs:76-84 | `Comma` and `Dot` print the same text, and `BangEqual` prints as `!!`, not as the `!=` it was scanned from |
| Scanner.CollectWhile | src/scanner.rs:182-195 | the loop stops at the end of the longest run of accepted characters: all before it are accepted, the one at it is not or the input ends |
| Scanner.CollectWhileAt | src/scanner.rs:182-195 | any end position with the run property is the one the loop finds |
| Scanner.CommentResume | src/scanner.rs:225-232 | scanning resumes at least past the two slashes, inside the input |
| Scanner.SkipTrivia | src/scanner.rs:225-241 | skipping blanks, newlines and comments stops at the end of input or on a character that is not trivia, and never lowers the line |
| Scanner.LexToken | src/scanner.rs:205-253 | a pull from a non-trivia position moves forward unless it is `Eof`; the item's line is the scanner's line; it is done exactly when the item is `Eof`, which only happens at the end of input |
| Scanner.Lex | src/scanner.rs:205-253 | the same guarantees for a whole pull, trivia included |
| Scanner.Next | src/scanner.rs:200-256 | a finished scanner yields nothing and keeps its state; otherwise one item, on the line reached, finishing exactly on `Eof`, and moving forward unless finished |
| Scanner.ScanWellFormed | src/scanner.rs:197-256 | for every source text the collected stream ends with exactly one `Eof` and its lines never decrease |
| Scanner.PullsWhenDone | src/scanner.rs:200-203 | pulling a finished scanner any number of times yields nothing |
| Scanner.AfterEofOnlyNone | src/scanner.rs:206-210 | after the pull that yields `Eof`, every further pull yields nothing and leaves the state alone |
| Scanner.OperatorLookahead | src/scanner.rs:77-92 | `!`, `=`, `<`, `>` become the two-character lexeme and consume the `=` exactly when `=` follows |
| Scanner.CommentSkipped | src/scanner.rs:225-232 | a `//` comment that ends in a newline yields nothing; scanning resumes after the newline and the line counter does not move |
| Scanner.CommentAtEnd | src/scanner.rs:225-232 | a comment that runs to the end of the input is followed directly by `Eof` on the same line |
| Scanner.LexSkips | src/scanner.rs:237-241 | blanks and comments produce nothing and keep the line; a newline produces nothing and adds one line |
| Scanner.LexDispatch | src/scanner.rs:242-251 | the first character picks the sub-scanner: `"` a string, a digit a number, a letter an identifier, anything else an error |
| Scanner.StringScanned | src/scanner.rs:106-131 | a terminated string literal yields its contents without quotes, after the closing quote, on the line advanced by its newlines |
| Scanner.UnterminatedStringScanned | src/scanner.rs:124-126 | a string literal that reaches the end of input yields `UnterminatedString` |
| Scanner.NumberScanned | src/scanner.rs:133-151 | a number is the maximal digit run, with a fraction exactly when a digit follows the dot; a dot with no digit after it is left for the next pull |
| Scanner.IdentifierScanned | src/scanner.rs:153-180 | an identifier is the maximal alphanumeric run; it is a keyword exactly when the word is one of the reserved words |
| Scanner.UnexpectedCharacterReported | src/scanner.rs:243-250 | any other character yields `UnexpectedCharacter` carrying it, and scanning continues after it |
| Scanner.SkipTriviaLineBound | src/scanner.rs:237-241 | skipping trivia adds to the line at most the number of newlines passed over |
| Scanner.LexTokenLineBound | src/scanner.rs:106-122 | producing an item adds to the line at most the newlines it consumed, which only a string literal does |
| Scanner.LexLineBound | src/scanner.rs:200-256 | the line after a pull never exceeds the starting line plus the newlines consumed |
| Scanner.ExampleComment | src/scanner.rs:264-271 | `{} // foo` scans to `{`, `}`, `Eof`, all on line 0 |
| Scanner.ExampleStrings | src/scanner.rs:296-310 | `"foo" == "bar" ` scans to the two strings around `==`, then `Eof` |
| Scanner.ExampleAddition | src/scanner.rs:322-330 | `1+2.0` scans to 1, `+`, 2, `Eof`; the fraction `.0` makes the same number as 2 |
| Scanner.WordLexemes | src/scanner.rs:333-357 | `and` and `while` are keywords, `andd` is an identifier |
| Scanner.ExampleNewlines | src/scanner.rs:360-376 | the newline test's text scans to `and` and `while` on line 1, `andd` on line 3, `Eof` on line 4 |
| Scanner.ExampleUnexpected | src/scanner.rs:379-392 | `/·` scans to `/`, an unexpected-character error for `·`, then `Eof` |
| Environment.New | src/environment.rs:25-29 | a new frame is empty and is enclosed by exactly the given chain, or by nothing |
| Environment.Define | src/environment.rs:31-35 | the identifier is bound to the value in the innermost frame, other names there keep their values, and the enclosing frames are unchanged |
| Environment.Assign | src/environment.rs:37-54 | fails exactly when no frame binds the name, with "Undefined variable" at the token's line; otherwise only the innermost binding frame changes, rebinding just that name |
| Environment.Get | src/environment.rs:56-72 | succeeds exactly when some frame binds the name, with the innermost frame's value; otherwise the undefined-variable error |
| Environment.DefineThenGet | src/environment.rs:31-35 | reading a name just defined gives the value it was given |
| Environment.DefineKeepsOthers | src/environment.rs:31-35 | defining one name does not change what any other name reads as |
| Environment.AssignThenGet | src/environment.rs:37-54 | after a successful assignment the name reads as the assigned value |
| Environment.AssignKeepsKeys | src/environment.rs:37-54 | assignment never creates a binding in any frame |
| Environment.AssignUndefinedFails | src/environment.rs:44-48 | assigning a name no frame binds fails with "Undefined variable '<name>'." at the name token's line |
| Environment.NewScopeSeesEnclosing | src/environment.rs:63-65 | a fresh frame reads every name as its enclosing chain does |
| Environment.ShadowingIsLocal | src/environment.rs:31-35 | defining in an inner frame shadows the name there and leaves the enclosing chain as it was |
| Environment.AssignReachesEnclosing | src/environment.rs:41-43 | assigning through a frame that does not bind the name acts on the enclosing chain and leaves that frame unchanged |
| Errors.Display | src/errors.rs:22-26 | the display text is the message, then ` [line: `, then the line, then `]` |
| Errors.DisplayDecodes | src/errors.rs:22-26 | the digits between ` [line: ` and the closing bracket read back as the error's line |
| Expressions.Accept | src/expression.rs:19-34 | the visit call dispatched for a node carries enough to rebuild that node |
| Expressions.AcceptInjective | src/expression.rs:19-34 | distinct nodes dispatch to distinct visit calls |
| AstPrinter.JoinParts | src/ast_printer.rs:8-17 | the joining loop produces the parts joined by the separator |
| AstPrinter.ParenthesizeForms | src/ast_printer.rs:8-17 | one part renders as `(name a)` and two as `(name a b)` |
| AstPrinter.ParenCounts | src/ast_printer.rs:20-36 | the printed text holds one `(` and one `)` per compound node, plus those inside token texts |
| AstPrinter.Balanced | src/ast_printer.rs:20-36 | when every token's text balances its own parentheses, the printed text is balanced |
| AstPrinter.PrintIgnoresLines | src/ast_printer.rs:29-31 | the printed text does not depend on the tokens' line numbers |
| AstPrinter.PrintBinary | src/ast_printer.rs:21-23 | a binary node prints as its operator and both operands, space separated, in one pair of parentheses |
| AstPrinter.PrintUnaryGrouping | src/ast_printer.rs:25-35 | a unary node prints as `(op operand)`; a grouping prints as `(group inner)` |
| AstPrinter.ExamplePrintNegation | src/ast_printer.rs:47-50 | `-123` prints as `(- 123)` |
| AstPrinter.ExamplePrintGrouping | src/ast_printer.rs:52-54 | `(45.67)` prints as `(group 45.67)` |
| AstPrinter.ExamplePrint | src/ast_printer.rs:44-61 | `-123 * (45.67)` prints as `(* (- 123) (group 45.67))` |
| Lexer.RunEnd | src/lexer.rs:154-165 | the number loop stops at the end of the longest run of digits and dots |
| Lexer.ParseNumberFails | src/lexer.rs:154-167 | the number parse fails, so the lexer panics, exactly when the run holds a second decimal point |
| Lexer.WholeNumber | src/lexer.rs:154-167 | a run without a point parses as the integer its digits denote |
| Lexer.ParseNumberWholePart | src/lexer.rs:154-167 | a run that parses has the digits before its point as its integer part |
| Lexer.KeywordTextRoundTrip | src/lexer.rs:85-100 | the text of every keyword maps back to that keyword through the lexer's table, and only keyword texts map to keywords |
| Lexer.KeywordKindExact | src/lexer.rs:201-219 | the keyword table maps exactly the sixteen reserved words, each to its own keyword |
| Lexer.KindTextLossy | src/lexer.rs:60-104 | `Comma` and `Dot` print alike, `BangEqual` prints as `!!`, and an unexpected character prints as itself |
| Lexer.EscapeRoundTrip | src/lexer.rs:107-111 | a payload's escaped rendering reads back as the payload, so distinct payloads render distinctly |
| Lexer.KindNamePayload | src/lexer.rs:107-111 | a payload-carrying kind displays as its variant name and its escaped payload, from which the payload can be read back |
| Lexer.ExampleControlName | src/lexer.rs:107-111 | a control character in a payload is shown as its code point, `\u{1}` for U+0001 |
| Lexer.CommentEnd | src/lexer.rs:300-320 | the comment loop stops at the end of input, or on the last character before a newline, having passed no newline |
| Lexer.CommentEndsBefore | src/lexer.rs:300-320 | given where the first newline after `//` is, the comment loop stops on the character just before it, or at the end of input when there is none |
| Lexer.WordEnd | src/lexer.rs:170-186 | the string loop stops before a quote, or one character short of the end of input, so an unterminated literal loses its last character |
| Lexer.Symbol | src/lexer.rs:241-347 | a character that starts no number, word or comment yields one token that is never `EOF`, moves forward, and advances the line exactly on a newline |
| Lexer.Next | src/lexer.rs:226-351 | at the end of input, iteration stops; an emitted token is never `EOF` (the arm at lines 340-346 is never reached), moves forward, and carries the line reached (as written, comments included) |
| Lexer.NextCorrected | src/lexer.rs:300-324 | with comments skipped as intended, the same guarantees as `Next` |
| Lexer.OperatorLookahead | src/lexer.rs:252-299 | `!`, `=`, `<`, `>` consume both characters and yield the two-character kind exactly when `=` follows |
| Lexer.WhitespaceToken | src/lexer.rs:329-335 | every whitespace character is one `Whitespace` token; a newline advances the line before the token is built |
| Lexer.WordToken | src/lexer.rs:188-219 | a word is the maximal run of letters, digits and underscores; it is a keyword exactly when the table has it |
| Lexer.NumberToken | src/lexer.rs:154-168 | a number is the maximal run of digits and dots, carrying its parsed value; the lexer panics exactly when the run has two points |
| Lexer.StringToken | src/lexer.rs:336-339 | a terminated string literal yields its inner text and consumes the closing quote |
| Lexer.UnexpectedToken | src/lexer.rs:340-346 | any other character yields `UNEXPECTED` carrying it, and lexing continues after it |
| Lexer.CommentSkipped | src/lexer.rs:300-324 | corrected: a comment yields nothing, and lexing resumes on its closing newline (a `Whitespace` token on the next line) or stops at the end of input |
| Lexer.TokenizeWellFormed | src/lexer.rs:223-351 | the stream `collect()` gathers from the lexer as written never holds `EOF`, and its lines never decrease |
| Lexer.TokenizeCorrectedWellFormed | src/lexer.rs:300-324 | the same for the stream with comments skipped as intended |
| Lexer.NextOffComment | src/lexer.rs:226-351 | away from a `//`, the intended lexer and the lexer as written produce the same step |
| Lexer.CommentRelexesLast | src/lexer.rs:300-324 | as written, a comment running to the end of input stops the lexer; otherwise its last character is lexed again and the character after that token is skipped |
| Lexer.ExampleCommentLine | src/lexer.rs:300-324 | `// a` then `b` on the next line collects, as written, to `a` and `b` on line 0; as intended, to the newline's `Whitespace` and `b` on line 1 |
| Lexer.ExampleOperators | src/lexer.rs:368-383 | `(!=) ==` lexes to `(`, `!=`, `)`, whitespace, `==` |
| Lexer.ExampleCommentAtEnd | src/lexer.rs:385-392 | as written, `{} // foo` lexes to `{`, `}`, the blank before the comment, and nothing for the comment |
| Lexer.ExampleAddition | src/lexer.rs:458-471 | `1+2.0` lexes to 1, `+`, 2.0 |
| Lexer.ExampleParseFraction | src/lexer.rs:458-471 | the run `2.0` parses as the number 2 |
| Lexer.ExampleUnexpected | src/lexer.rs:516-522 | `/·` lexes to `/` and `UNEXPECTED("·")` |
| Lexer.ExampleNewline | src/lexer.rs:494-513 | `and`, a newline, `andd` lexes to `AND` on line 0, then whitespace and the identifier `andd` on line 1 |
| Lexer.CommentSwallowsNewline | src/lexer.rs:300-324 | as written, in `// a\nb` the comment's last character becomes a token, and the newline is skipped without advancing the line |
| Parser.PeekKind | src/parser.rs:55-58 | the kind under the cursor exactly when a token is there |
| Parser.AtMeaning | src/parser.rs:68-73 | `at(k)` holds exactly when the token under the cursor has kind `k` and is not `EOF` |
| Parser.EatWhitespace | src/parser.rs:75-79 | the cursor moves by one exactly when it is on a `Whitespace` token, and otherwise stays |
| Parser.EatsOneWhitespace | src/parser.rs:75-79 | of two whitespace tokens in a row only the first is eaten |
| Parser.CollapseWhitespace | src/lexer.rs:329-335 | cutting every run of whitespace tokens down to its first token keeps the stream's first token and never lengthens it |
| Parser.CollapseHasNoRuns | src/lexer.rs:329-335 | a collapsed stream has no two whitespace tokens in a row |
| Parser.CollapseKeepsWords | src/lexer.rs:329-335 | collapsing removes whitespace tokens only: the other tokens are kept, in order |
| Parser.CollapseKeepsSingles | src/lexer.rs:329-335 | a stream without runs of whitespace is its own collapse |
| Parser.EatsWholeRun | src/parser.rs:75-79 | on a stream without runs of whitespace, the cursor after `eat_whitespace` is never on a whitespace token |
| Parser.IsEqualMeaning | src/parser.rs:85-88 | `is_equal` holds exactly when `at` holds for one of the listed kinds |
| Parser.LiteralPrimary | src/parser.rs:223-238 | `true`, `false`, a string or a number token is a literal of that value, and the cursor moves past it |
| Parser.PrimaryOperand | src/parser.rs:207-217 | with no prefix operator and nothing unexpected after it, a primary is the whole unary operand |
| Parser.GroupingPrimary | src/parser.rs:239-248 | a parenthesised expression closed by `)` is a grouping of it, and the cursor moves past `)` |
| Parser.PrefixStep | src/parser.rs:184-205 | one round of the prefix loop steps over the operator, reads a `unary` operand and merges it into the result so far |
| Parser.PrefixStop | src/parser.rs:184-209 | the prefix loop ends, after at least one round, on a token that is no prefix operator, returning what it built |
| Parser.LevelEnter | src/parser.rs:160-163 | a level reads its first operand, eats one whitespace token, and enters its operator loop |
| Parser.LevelStep | src/parser.rs:165-174 | each round adds the operator and the next operand on the right of the result |
| Parser.LevelStop | src/parser.rs:165-176 | the operator loop stops on a token that is not one of the level's operators |
| Parser.FactorOperand | src/parser.rs:160-177 | a unary operand followed by no `/` or `*` is the whole factor |
| Parser.Rises | src/parser.rs:94-158 | a level's result followed by a token that no higher level takes passes unchanged up to the expression |
| Parser.OperatorsDisjoint | src/parser.rs:99-165 | the four levels' operator sets do not overlap |
| Parser.BinaryLevel | src/parser.rs:94-177 | `x op y` with literal operands is one binary node at the level of its operator |
| Parser.SimpleBinary | src/parser.rs:260-307 | `x op y` with literals and any binary operator parses as that single binary node |
| Parser.SpacedBinary | src/parser.rs:272-282 | `x op y` with one blank on each side of the operator parses as the same node |
| Parser.LeftAssociative | src/parser.rs:139-158 | `x op y op' z` with two operators of one level groups as `(x op y) op' z` |
| Parser.UnaryWhole | src/parser.rs:179-218 | a unary expression followed by nothing that continues it is the whole expression |
| Parser.LiteralExpression | src/parser.rs:220-238 | a literal that ends the input is the whole expression |
| Parser.VariableExpression | src/parser/statement.rs:361-369 | with variables, an identifier that ends the expression reads as that variable |
| Parser.PrefixOnce | src/parser.rs:310-330 | `-1` and `+1` parse as a unary node over the literal |
| Parser.PrefixPair | src/parser.rs:369-380 | `p x q y` parses as the binary node `x p y`, dropping the second operator, so `+1+1` is `1 + 1` |
| Parser.PrefixTriple | src/parser.rs:189-204 | `p x q y r z` discards the binary node built so far and yields the unary node `r z` |
| Parser.ErrorNode | src/parser.rs:249 | a token that starts no expression becomes an error node "Parsing error at <kind>", and the cursor stays on it |
| Parser.UnexpectedAfter | src/parser.rs:210-216 | a literal followed by an unexpected character becomes an error node quoting the character, and the cursor stays on it |
| Parser.AssignVariable | src/parser/statement.rs:150-156 | with variables, `name = y` parses as an assignment of the literal `y` to `name` |
| Parser.AssignInvalid | src/parser/statement.rs:339-346 | `x = y` with a literal target is the error node "Invalid left hand assignment expression" |
| Parser.ExampleReadAddition | src/parser.rs:260-270 | like the `1+1` test, the characters `1+2.0` lex and parse to the single addition of 1 and 2 |
| ParserExpression.Accept | src/parser/expression.rs:32-51 | every node goes to the one visit method of its variant, with all its fields, and can be rebuilt from the call |
| ParserExpression.AcceptRebuild | src/parser/expression.rs:32-51 | every visit call is the dispatch of the node rebuilt from it |
| ParserExpression.DebugParenCounts | src/parser/expression.rs:53-99 | as written, each compound node adds one `(` and no `)` to the rendering |
| ParserExpression.DebugUnbalanced | src/parser/expression.rs:55-93 | as written, a tree with a compound node renders unbalanced |
| ParserExpression.DebugCorrectedParenCounts | src/parser/expression.rs:53-99 | corrected, each compound node adds one `(` and one `)` |
| ParserExpression.DebugCorrectedBalanced | src/parser/expression.rs:55-93 | corrected, a tree whose texts balance their own parentheses renders balanced |
| ParserExpression.BooleanRendering | src/parser/expression.rs:74-75 | as written the two booleans render alike; corrected, a boolean literal's rendering determines it |
| ParserExpression.ExampleDebug | src/parser/expression.rs:53-99 | `true == false` renders `(== true true` as written and `(== true false)` corrected |
| ParserStatement.AcceptStmt | src/parser/statement.rs:30-56 | every statement goes to the one visit method of its variant, with all its fields, and can be rebuilt from the call |
| ParserStatement.Expect | src/parser/statement.rs:179-185 | the cursor moves by one exactly when the token is of the expected kind, and otherwise stays |
| ParserStatement.PrintStmt | src/parser/statement.rs:167-193 | a print statement always yields a statement: a print, or the error "Unfinished print statement" |
| ParserStatement.Declaration | src/parser/statement.rs:146-165 | a declaration always yields a statement: a variable definition, or the error "Unfinished right hand assignment" |
| ParserStatement.Parse | src/parser/statement.rs:58-78 | at the end of the input there is no statement; a statement read moves the cursor forward |
| ParserStatement.IfStmt | src/parser/statement.rs:80-100 | `if` yields an if-statement, or no statement when the condition cannot be read |
| ParserStatement.Branches | src/parser/statement.rs:89-99 | the branches keep the condition read by the head |
| ParserStatement.Alternative | src/parser/statement.rs:92-97 | without `else` there is no alternative and the cursor stays |
| ParserStatement.WhileStmt | src/parser/statement.rs:102-114 | `while` yields a while-statement, or no statement when the condition cannot be read |
| ParserStatement.BlockStmt | src/parser/statement.rs:116-133 | a block that parses yields a block, and the cursor ends just past its `}` |
| ParserStatement.DeclarationMeaning | src/parser/statement.rs:146-165 | a declaration defines a variable exactly when the expression after `var` is an assignment or a bare variable, with the value or none, and skips one token; otherwise it is the unfinished error |
| ParserStatement.DeclaresAssigned | src/parser/statement.rs:150-155 | after `var`, an assignment defines its target with the assigned value and skips the token after it |
| ParserStatement.PrintMeaning | src/parser/statement.rs:167-193 | `print` prints nothing exactly when `)` follows the skipped token, and prints an expression exactly when one is read and `)` follows it |
| ParserStatement.ParseStatement | src/parser/statement.rs:75-77 | a token that starts no declaration or compound statement starts a print or expression statement |
| ParserStatement.ExpressionStatement | src/parser/statement.rs:139-143 | any other statement is the expression read there, or no statement when none can be read |
| ParserStatement.ParseBlock | src/parser/statement.rs:71-74 | `{` starts a block |
| ParserStatement.ParseDeclaration | src/parser/statement.rs:61-64 | `var` starts a declaration |
| ParserStatement.ParseIf | src/parser/statement.rs:65-67 | `if` starts a conditional |
| ParserStatement.ParseWhile | src/parser/statement.rs:68-70 | `while` starts a loop |
| ParserStatement.LiteralHead | src/parser/statement.rs:83-87 | `(literal)` is a head whose condition is the literal, with the cursor past the `)` |
| ParserStatement.IfReads | src/parser/statement.rs:80-100 | an `if` without `else` is the head's condition and the statement after it, with no alternative |
| ParserStatement.IfElseReads | src/parser/statement.rs:80-100 | an `if` with `else` also takes the statement after `else` as its alternative |
| ParserStatement.WhileReads | src/parser/statement.rs:102-114 | a `while` is the head's condition and the statement after it |
| ParserStatement.BlockReads | src/parser/statement.rs:116-133 | the block loop collects a chain of statements in order, and stops just past the `}` that ends it |
| ParserStatement.BlockStalls | src/parser/statement.rs:121-126 | a round that leaves the cursor where it was would repeat forever, so the parse aborts |
| ParserStatement.MissingBodyPanics | src/parser/statement.rs:111-113 | an `if` or `while` whose head is the last thing in the input has no body to unwrap, so the parse aborts |
| ParserStatement.ExamplePrintNothing | src/parser/statement.rs:224-232 | `print()` prints nothing |
| ParserStatement.ExamplePrintNumber | src/parser/statement.rs:202-210 | `print(1)` prints the number 1 |
| ParserStatement.ExamplePrintAlone | src/parser/statement.rs:274-279 | `print` is the error "Unfinished print statement" |
| ParserStatement.ExamplePrintOpen | src/parser/statement.rs:282-287 | `print(` is the error "Unfinished print statement" |
| ParserStatement.ExampleDeclaration | src/parser/statement.rs:290-300 | `var a;` defines `a` with no value |
| ParserStatement.ExampleDeclarationUnfinished | src/parser/statement.rs:349-354 | `var a =` is the error "Unfinished right hand assignment" |
| ParserStatement.ExampleBlock | src/parser/statement.rs:116-133 | `{print()}` is a block holding one print statement |
| ParserStatement.ExampleBlockNoSpaces | src/parser/statement.rs:356-374 | `{var a = 2; print(a);}` is a block that defines `a` as 2 and then prints `a`, ending past the `}` |
| ParserStatement.BlockFollows | src/parser/statement.rs:116-133 | the block loop follows a chain of rounds, appending each statement read to those before it |
| Basics.StepsCompose | src/parser/statement.rs:120-131 | a loop each of whose steps appends one element and moves to the next position ends with all the elements appended in order |
| ParserStatement.ChainOfTwo | src/parser/statement.rs:116-133 | two consecutive block rounds make a chain of two statements |
| ParserStatement.AssignSpaced | src/parser/statement.rs:146-165 | `a = 2` with blanks around `=` reads as the assignment of 2 to `a`, stopping at the `;` |
| ParserStatement.ExampleIndentedBlock | src/parser/statement.rs:116-133 | `{   print()}` as written is a block of two statements: an expression statement holding the error expression for `print`, then `print()` |
| ParserStatement.IndentedError | src/parser/statement.rs:135-144 | the second blank of `{   print()}` is a statement round that ends on the `print` keyword |
| ParserStatement.ExampleIndentedBlockCorrected | src/parser/statement.rs:377-396 | once each run of blanks is one whitespace token, `{   print()}` is the block holding only `print()` |
| ParserStatement.IndentCollapses | src/lexer.rs:329-335 | collapsing the tokens of `{   print()}` leaves one whitespace token after the `{` |
| ParserStatement.ExampleBlockStalls | src/parser/statement.rs:121-126 | `{and}` aborts: the keyword is an error expression that does not move the cursor |
| ParserStatement.ExampleIfInline | src/parser/statement.rs:421-436 | `if (true) print(2);` is a conditional on `true` whose branch prints 2, with no alternative |
| InterpreterEnvironment.New | src/interpreter/environment.rs:17-22 | a new environment is one empty frame |
| InterpreterEnvironment.NewWithScope | src/interpreter/environment.rs:24-30 | a new scope is an empty frame in front of exactly the enclosing chain |
| InterpreterEnvironment.Define | src/interpreter/environment.rs:32-34 | the name is bound to the value in the innermost frame, other names there keep their values, and the enclosing frames are unchanged |
| InterpreterEnvironment.Assign | src/interpreter/environment.rs:36-58 | fails exactly when no frame binds the name, with `Variable "<name>" does not exist`; otherwise only the innermost binding frame changes, rebinding just that name |
| InterpreterEnvironment.Retrieve | src/interpreter/environment.rs:60-84 | succeeds exactly when some frame binds the name, with the innermost frame's value; otherwise the does-not-exist error |
| InterpreterEnvironment.NewIsEmpty | src/interpreter/environment.rs:60-84 | in a new environment every lookup fails |
| InterpreterEnvironment.DefineThenRetrieve | src/interpreter/environment.rs:32-34 | reading a name just defined gives the value it was given |
| InterpreterEnvironment.DefineKeepsOthers | src/interpreter/environment.rs:32-34 | defining one name does not change what any other name reads as |
| InterpreterEnvironment.AssignKeepsKeys | src/interpreter/environment.rs:36-58 | assignment never adds a name to any frame |
| InterpreterEnvironment.AssignThenRetrieve | src/interpreter/environment.rs:36-58 | after a successful assignment the name reads as the assigned value |
| InterpreterEnvironment.AssignWhereRetrieves | src/interpreter/environment.rs:36-84 | assignment succeeds exactly when a lookup of the name would |
| InterpreterEnvironment.UndefinedFails | src/interpreter/environment.rs:36-84 | a name no frame binds can be neither assigned nor read, and both fail with the same error at line 0 |
| InterpreterEnvironment.NewScopeSeesEnclosing | src/interpreter/environment.rs:24-30 | a fresh scope reads every name as its enclosing chain does |
| InterpreterEnvironment.ShadowingIsLocal | src/interpreter/environment.rs:24-34 | defining in an inner scope shadows the name there, and dropping the inner frame gives the enclosing chain back |
| InterpreterEnvironment.AssignReachesEnclosing | src/interpreter/environment.rs:37-42 | assigning through a frame that does not bind the name acts on the enclosing chain and leaves that frame unchanged |
| Interpreter.UnwrapNumber | src/interpreter.rs:127-135 | succeeds exactly on a number value; any other value and any runtime error become "Not a number" |
| Interpreter.Arithmetic | src/interpreter.rs:78-87 | succeeds exactly for `- + / *` (division by zero excluded); the number is the difference, sum, product or quotient of the operands; any other operator is the "Invalid" error |
| Interpreter.Sign | src/interpreter.rs:97-104 | succeeds exactly for `-` and `+`, giving the number or its negation; any other operator is "Can only prefix a number with + or -" |
| Interpreter.Evaluate | src/interpreter.rs:65-125 | evaluation never adds or removes a binding, and an expression without assignments leaves the environment unchanged |
| Interpreter.Execute | src/interpreter.rs:137-193 | a statement never shortens the chain; one that succeeds leaves it as deep as it was; a failing block leaves it deeper |
| Interpreter.AsCompletion | src/interpreter.rs:183-185 | an expression statement succeeds exactly when its expression does, with its value, and fails with its error |
| Interpreter.RunBlock | src/interpreter.rs:142-144 | a block body that succeeds completes with `Null` and keeps the chain's depth |
| Interpreter.Start | src/interpreter.rs:40-54 | no statements give `Null`; one statement gives its own result |
| Interpreter.Run | src/interpreter.rs:40-54 | the loop computes `Start`: the result is the last statement's, run in the environment the others left |
| Interpreter.StartSnoc | src/interpreter.rs:46-51 | one more statement runs in the environment the others left, and its result is the run's result, whatever came before |
| Interpreter.StartCons | src/interpreter.rs:46-51 | a run is the first statement, then a run of the rest in the environment the first left |
| Interpreter.ErrorsDoNotStop | src/interpreter.rs:187-192 | an error statement fails with its own line and message, leaves the environment alone, and the run goes on after it |
| Interpreter.LiteralAndGrouping | src/interpreter.rs:90-110 | a literal is its own value and a grouping its inner expression's, neither touching the environment |
| Interpreter.VariableReads | src/interpreter.rs:112-117 | a variable reads the innermost binding of its name, or fails with the environment's error |
| Interpreter.ErrorNodeFails | src/interpreter.rs:119-124 | an error node fails with its own line and message |
| Interpreter.BinaryMeaning | src/interpreter.rs:74-88 | a binary node succeeds exactly when both operands are numbers, the operator is one of `- + / *` and no division by zero occurs; the value is the operator applied |
| Interpreter.LeftNotANumber | src/interpreter.rs:75-76 | a left operand that is not a number fails with "Not a number" before the right operand runs, so its assignments are not made |
| Interpreter.OperandErrorMasked | src/interpreter.rs:127-135 | an unbound variable used as an operand is reported as "Not a number", not as the unbound name |
| Interpreter.InvalidOperator | src/interpreter.rs:83-86 | an operator outside `- + / *` fails with "Invalid" even on two numbers |
| Interpreter.ArithmeticInverse | src/interpreter.rs:78-82 | over the model's exact reals, subtraction undoes addition and division undoes multiplication by a non-zero number (not so under `f64` rounding) |
| Interpreter.UnaryMeaning | src/interpreter.rs:94-105 | prefix `-` negates and `+` keeps a number; any other prefix fails on a number; a non-number fails with "Not a number" |
| Interpreter.DoubleNegation | src/interpreter.rs:98 | negating twice gives the number back |
| Interpreter.AssignMeaning | src/interpreter.rs:66-72 | an assignment succeeds exactly when its value does and some frame binds the name; it yields the value, which the name then reads as; an unbound name fails and changes nothing |
| Interpreter.DefinitionWithoutValue | src/interpreter.rs:164-167 | `var a;` binds nothing and completes with `Null` |
| Interpreter.DefinitionMeaning | src/interpreter.rs:152-168 | `var a = e` binds `a` in the innermost frame to the value of `e` and completes with `Null`; when `e` fails it binds nothing and fails the same way |
| Interpreter.PrintMeaning | src/interpreter.rs:170-181 | `print(e)` completes with the value of `e` or fails as `e` does; `print()` completes with `Null` |
| Interpreter.BlockRestores | src/interpreter.rs:138-150 | a block that succeeds leaves the environment exactly as it found it |
| Interpreter.BlockOpensScope | src/interpreter.rs:140-141 | a block's statements run in a fresh inner scope over the current chain |
| Interpreter.ConditionalsUnsupported | src/interpreter.rs:137-193 | `if` and `while` have no visitor, so executing either fails |
| Interpreter.ExampleNegative | src/interpreter.rs:202-208 | `-1` evaluates to -1 |
| Interpreter.ExampleAdds | src/interpreter.rs:211-217 | `-1+1`, read by the parser as `1 - 1`, evaluates to 0 |
| Interpreter.ExamplePrints | src/interpreter.rs:256-280 | `print("foo")` gives `"foo"`, `print(2+1)` gives 3, `print()` gives `Null` |
| Interpreter.ExampleDefinitions | src/interpreter.rs:283-299 | `var a;` binds nothing; `var a = "foo";` binds `a` in the only frame |
| Interpreter.ExampleMultiline | src/interpreter.rs:302-311 | `var a = 4; print(a);` gives 4 and leaves `a` bound to 4 |
| Interpreter.ExampleUnboundInitializer | src/interpreter.rs:314-320 | `var a = b;` fails with `Variable "b" does not exist` at line 0 |
| Interpreter.ExampleBlock | src/interpreter.rs:323-334 | `{ var a = 4; print(a); }` gives `Null` and leaves nothing bound |
| Interpreter.ExampleAssignmentSeenInside | src/interpreter.rs:355-371 | inside the block, the assignment `a = 5` is seen by `print(a)` |
| Interpreter.ExampleInnerAssignment | src/interpreter.rs:355-371 | after `var a = 4; { a = 5; var b = 10.1; print(a); }`, `a` is 4 again and `b` is unbound |
| Interpreter.ExampleBlockError | src/interpreter.rs:374-386 | `var a = 4; { b = 5; print(b); }` fails with `Variable "b" does not exist`, leaving the interpreter in the block's scope |

## Left out

- `main.rs` is not part of this model. It reads files and runs the REPL loop.
- Console output (`println!` in `start` and `visit_print`) is left out. `print` is modelled by the value it returns.
- `debug_tree` (`parser.rs`) prints a tree for the console. It is not modelled.
- Parsing `f64` text (`parse::<f64>`) and formatting floats (`to_string` of a number) are not modelled. Numbers are exact decimals. The older generation's renderings of a number take a formatter parameter.
- Tokens.NumeralText: prints the literal's own digits. This matches `f64`'s `Display` only for literals that survive the round trip through `f64`. For example, `123456789012345678901` prints as `123456789012345680000` in the source, and `0.10000000000000000001` prints as `0.1`.
- Interpreter.ArithmeticInverse: holds because the model's numbers are exact reals. With `f64` rounding it fails: `(0.1 + 0.2) - 0.2` is `0.10000000000000003`, and `(1 + 1e16) - 1e16` is `0`.
- Interpreter.Arithmetic: IEEE division by zero gives an infinity or NaN in the source. The model reports a `DivisionByZero` fault instead, because reals have no infinities.
- The regular expression in `is_valid_ident` is replaced by the equivalent ASCII test for `[a-zA-Z_]`.
- `peekmore` look-ahead and `Rc<RefCell<…>>` sharing are replaced by positions and value semantics. Aliasing of one environment from two places is not modelled.
- Panics (`unwrap` on `None`, `todo!()`) are explicit outcomes (`None`, `Panic`, `Abort`). They do not unwind.
- `interpreter.rs` is written against signatures that `interpreter/environment.rs` and `parser.rs` do not have: `new_with_scope` takes an `Rc<RefCell<…>>`, and the tests expect `parse` to return statements. That glue is not modelled, so the interpreter examples start from statement trees rather than from source text.
- `if` and `while` have no visitor method in the interpreter. Executing them is a `MissingVisitor` fault.
- `statement.rs` and `visitor.rs` of the newer generation only declare types. They appear as datatypes.
- Parser.Expression: the contracts of the descent functions (`Expression`, `Assignment`, `Level`, `Operand`, `LevelLoop`, `UnaryExpr`, `PrefixLoop`, `CheckedPrimary`, `Primary`, `Parse`) state only cursor bounds and that the plain grammar builds no variable nodes. What they parse is stated by the lemmas listed under `Parser`.
- ParserStatement.Statement: the statement-parser functions (`Statement`, `Dispatch`, `Head`, `BlockLoop`, `ExpressionAt`) state cursor bounds and result shapes. What they read is stated by `DeclarationMeaning`, `PrintMeaning`, `BlockReads` and the examples.
- Scanner.StringLiteral: `StringLiteral`, `NumberLiteral` and `IdentifierWord` state only positions and lines. Their outputs are stated by `StringScanned`, `NumberScanned` and `IdentifierScanned`.
- Interpreter.Start: a failing statement does not stop the run, and the result is the last statement's. `StartSnoc`, `StartCons` and `ErrorsDoNotStop` state the rest.
- Scanner.SkipTrivia: its contract states where skipping stops and that the line only grows. `LexSkips` and `SkipTriviaLineBound` state what is skipped.
- Scanner.CommentResume: its contract states only bounds. `CommentSkipped` and `CommentAtEnd` state where scanning resumes.
- Scanner.LexToken: its contract states positions, lines and when the stream ends. What each item is, is stated by `LexDispatch` and the `…Scanned` lemmas.
- Scanner.Lex: as for `LexToken`, with trivia included.
- Scanner.Next: its contract states the stream's shape. The items are stated by the lemmas about `Lex`.
- Lexer.Symbol: its contract states the token's position and line. Each arm's token is stated by `OperatorLookahead`, `WhitespaceToken`, `StringToken` and `UnexpectedToken`.
- Lexer.Next: its contract states positions and lines. The token per character is stated by the `…Token` lemmas, and the comment arm by `CommentRelexesLast` and `CommentSwallowsNewline`.
- Lexer.NextCorrected: as for `Next`. The corrected comment arm is stated by `CommentSkipped`.
- Lexer.KindName: Rust's `Debug` also writes `\u{…}` for non-printable characters above U+00FF and for grapheme-extending characters such as combining marks. The model writes those raw. Its table of non-printable characters covers U+0000–U+00FF only.
- ParserStatement.PrintStmt: its contract states the result's shape. `PrintMeaning` states which print is read.
- ParserStatement.Declaration: its contract states the result's shape. `DeclarationMeaning` states which definition is read.
- ParserStatement.Parse: its contract states cursor bounds. `ParseDeclaration`, `ParseBlock`, `ParseStatement` and `ExpressionStatement` state the choice it makes.
- ParserStatement.IfStmt: its contract states the result's shape. `IfReads` and `IfElseReads` state what it reads, and `MissingBodyPanics` states the missing-branch abort.
- ParserStatement.Branches: its contract states that the condition is kept. The branches themselves are stated by `IfReads` and `IfElseReads`.
- ParserStatement.Alternative: its contract states the case without `else`. The `else` case is stated by `IfElseReads`.
- ParserStatement.WhileStmt: its contract states the result's shape. `WhileReads` states what it reads, and `MissingBodyPanics` states the missing-body abort.
- ParserStatement.BlockStmt: its contract states the shape and the closing `}`. `BlockReads` and `BlockStalls` state the contents.
- Interpreter.Evaluate: its contract states that bindings are neither added nor removed. The value of each node is stated by `LiteralAndGrouping`, `VariableReads`, `ErrorNodeFails`, `BinaryMeaning`, `UnaryMeaning` and `AssignMeaning`.
- Interpreter.Execute: its contract states how deep the scope chain is left. Each statement is stated by `DefinitionMeaning`, `PrintMeaning`, `BlockRestores`, `BlockOpensScope`, `ConditionalsUnsupported` and `ErrorsDoNotStop`.
- Interpreter.RunBlock: its contract states the successful case. A failing block is shown by `ExampleBlockError`.

## Findings

| source | as written | input that shows it | evidently intended | confidence | as-written member | corrected member |
|---|---|---|---|---|---|---|
| src/lexer.rs:300-324 | the comment loop stops on the comment's last character, then `self.next()` lexes again from that character, and the cursor is advanced once more past the newline | `// a\nb` yields `IDENTIFIER("a")` and then `IDENTIFIER("b")` on line 0 | a comment yields no token, and lexing resumes on the newline that ends it, so `b` is on line 1 | not executed | Lexer.CommentSwallowsNewline | Lexer.NextCorrected |
| src/parser.rs:75-79 | the lexer makes one whitespace token per blank (src/lexer.rs:329-335), and `eat_whitespace` steps over one token, so the second blank of an indent starts an expression statement | `{   print()}` parses to `Block([Expression(Error "PRINT"), Print(None)])` | a run of blanks is skipped as a whole, so `{   print()}` is `Block([Print(None)])`, as the block, `if` and `while` tests at src/parser/statement.rs:377-496 expect | not executed | ParserStatement.ExampleIndentedBlock | ParserStatement.ExampleIndentedBlockCorrected |
| src/parser/expression.rs:55-93 | `debug` opens a parenthesis for binary and unary nodes but never closes it, and renders `BOOLEAN(false)` as `true` | `true == false` renders `(== true true` | one closing parenthesis per compound node, and `false` rendered as `false`: `(== true false)` | not executed | ParserExpression.DebugUnbalanced | ParserExpression.DebugCorrectedBalanced |
