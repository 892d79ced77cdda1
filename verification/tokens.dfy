/** The newer generation's token model: lexemes, tokens carrying a source
    line, the reserved-word table, the identifier accessor and the
    lexeme-to-text table. */
module Tokens {
  import opened Basics

  /** A number literal as a canonical decimal numeral: `whole` has no
      leading zero unless it is exactly "0", and `frac` has no trailing zero.
      Two numerals are equal exactly when the decimal values are, so equality
      of `Number` lexemes behaves like equality of the parsed floats. */
  datatype Numeral = Numeral(whole: string, frac: string)

  datatype Lexeme =
    // single-character tokens
    | LeftParen | RightParen | LeftBrace | RightBrace
    | Comma | Dot | Minus | Plus | Semicolon | Slash | Star
    // one- or two-character tokens
    | Bang | BangEqual | Equal | EqualEqual
    | Greater | GreaterEqual | Less | LessEqual
    // literals
    | Identifier(name: string) | String(text: string) | Number(numeral: Numeral)
    // keywords
    | And | Class | Else | False | Fun | For | If | Nil | Or
    | Print | Return | Super | This | True | Var | While
    | Eof

  datatype Token = Token(lexeme: Lexeme, line: nat)

  predicate IsKeyword(l: Lexeme)
  {
    l.And? || l.Class? || l.Else? || l.False? || l.Fun? || l.For? || l.If? || l.Nil?
    || l.Or? || l.Print? || l.Return? || l.Super? || l.This? || l.True? || l.Var? || l.While?
  }

  /** The keyword lexeme a scanned word stands for, if it is one of the
      sixteen reserved words. The table is grouped by word length, which
      selects the same entry as one flat comparison chain. */
  function KeywordFor(word: string): (r: Option<Lexeme>)
    ensures r.Some? ==> IsKeyword(r.value)
  {
    if |word| == 2 then
      if word == "if" then Some(If) else if word == "or" then Some(Or) else None
    else if |word| == 3 then
      if word == "and" then Some(And) else if word == "for" then Some(For)
      else if word == "fun" then Some(Fun) else if word == "nil" then Some(Nil)
      else if word == "var" then Some(Var) else None
    else if |word| == 4 then
      if word == "else" then Some(Else) else if word == "this" then Some(This)
      else if word == "true" then Some(True) else None
    else if |word| == 5 then
      if word == "class" then Some(Class) else if word == "false" then Some(False)
      else if word == "print" then Some(Print) else if word == "super" then Some(Super)
      else if word == "while" then Some(While) else None
    else if |word| == 6 && word == "return" then Some(Return)
    else None
  }

  /** A word found in the table is the text of the keyword it maps to. */
  lemma KeywordForText(word: string)
    ensures KeywordFor(word).Some? ==> LexemeText(KeywordFor(word).value) == word
  {
    if |word| <= 3 {
      ShortKeywordText(word);
    } else if |word| == 4 {
      MiddleKeywordText(word);
    } else {
      LongKeywordText(word);
    }
  }

  /** Words of up to three letters. */
  lemma ShortKeywordText(word: string)
    requires |word| <= 3
    ensures KeywordFor(word).Some? ==> LexemeText(KeywordFor(word).value) == word
  {
  }

  /** Four-letter words. */
  lemma MiddleKeywordText(word: string)
    requires |word| == 4
    ensures KeywordFor(word).Some? ==> LexemeText(KeywordFor(word).value) == word
  {
  }

  /** Longer words. */
  lemma LongKeywordText(word: string)
    requires |word| > 4
    ensures KeywordFor(word).Some? ==> LexemeText(KeywordFor(word).value) == word
  {
  }

  /** Every keyword lexeme is found again from its own text: the scanner's
      reserved-word table and the printing table agree. */
  lemma KeywordRoundTrip(l: Lexeme)
    requires IsKeyword(l)
    ensures KeywordFor(LexemeText(l)) == Some(l)
  {
    if l.If? || l.Or? || l.And? || l.For? || l.Fun? || l.Nil? || l.Var? {
      ShortKeywordRoundTrip(l);
    } else if l.Else? || l.This? || l.True? || l.Return? {
      MiddleKeywordRoundTrip(l);
    } else {
      LongKeywordRoundTrip(l);
    }
  }

  /** The two- and three-letter keywords. */
  lemma ShortKeywordRoundTrip(l: Lexeme)
    requires l.If? || l.Or? || l.And? || l.For? || l.Fun? || l.Nil? || l.Var?
    ensures KeywordFor(LexemeText(l)) == Some(l)
  {
  }

  /** The four- and six-letter keywords. */
  lemma MiddleKeywordRoundTrip(l: Lexeme)
    requires l.Else? || l.This? || l.True? || l.Return?
    ensures KeywordFor(LexemeText(l)) == Some(l)
  {
  }

  /** The five-letter keywords. */
  lemma LongKeywordRoundTrip(l: Lexeme)
    requires l.Class? || l.False? || l.Print? || l.Super? || l.While?
    ensures KeywordFor(LexemeText(l)) == Some(l)
  {
  }

  /** The name carried by an identifier token; any other lexeme is a
      programming error in the source, hence the precondition. */
  function IdentifierName(t: Token): (name: string)
    requires t.lexeme.Identifier?
    ensures t.lexeme == Identifier(name)
  {
    t.lexeme.name
  }

  /** Text of a canonical numeral: its own digits, with no decimal point
      when the fraction is empty. This is how the host's float formatting
      prints a literal that survives the round trip through `f64`. */
  function NumeralText(n: Numeral): string
  {
    if |n.frac| == 0 then n.whole else n.whole + "." + n.frac
  }

  /** The text a lexeme prints as. */
  function LexemeText(l: Lexeme): string
  {
    match l
    case LeftParen => "("
    case RightParen => ")"
    case LeftBrace => "{"
    case RightBrace => "}"
    case Comma => "."
    case Dot => "."
    case Minus => "-"
    case Plus => "+"
    case Semicolon => ";"
    case Slash => "/"
    case Star => "*"
    case Bang => "!"
    case BangEqual => "!!"
    case Equal => "="
    case EqualEqual => "=="
    case Greater => ">"
    case GreaterEqual => ">="
    case Less => "<"
    case LessEqual => "<="
    case Identifier(i) => i
    case String(s) => "\"" + s + "\""
    case Number(n) => NumeralText(n)
    case And => "and"
    case Class => "class"
    case Else => "else"
    case False => "false"
    case Fun => "fun"
    case For => "for"
    case If => "if"
    case Nil => "nil"
    case Or => "or"
    case Print => "print"
    case Return => "return"
    case Super => "super"
    case This => "this"
    case True => "true"
    case Var => "var"
    case While => "while"
    case Eof => "<EOF>"
  }

  /** `Token::to_string`: the text of the token's lexeme; the line plays no
      part. */
  function TokenText(t: Token): string
  {
    LexemeText(t.lexeme)
  }

  /** Literal lexemes print their payload: identifiers bare, strings quoted,
      end of input as a marker. */
  lemma LiteralTexts(name: string, text: string)
    ensures LexemeText(Identifier(name)) == name
    ensures LexemeText(String(text)) == ['"'] + text + ['"']
    ensures |LexemeText(String(text))| == |text| + 2
    ensures LexemeText(Eof) == "<EOF>"
  {
  }

  /** Printing loses information: two distinct lexemes share one text, and
      `BangEqual` does not print as the two characters it was scanned from. */
  lemma TextNotInjective()
    ensures Comma != Dot && LexemeText(Comma) == LexemeText(Dot) == "."
    ensures LexemeText(BangEqual) == "!!" != "!="
  {
  }

  /** A non-keyword word is never mapped to a keyword, and a keyword's
      text is always found. */
  lemma KeywordForExact(word: string)
    ensures KeywordFor(word).Some? <==>
      word in {"and", "class", "else", "false", "for", "fun", "if", "nil",
               "or", "print", "return", "super", "this", "true", "var", "while"}
  {
  }
}
