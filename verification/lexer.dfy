/** The older generation's lexer: an index-based character iterator that
    emits one `Whitespace` token per whitespace character, drops comments,
    and never emits an end-of-input token. Numbers are kept as exact reals;
    the host's float rounding and float formatting are not modelled. */
module Lexer {
  import opened Basics

  datatype LexemeKind =
    // single-character tokens
    | LeftParen | RightParen | LeftBrace | RightBrace
    | Comma | Dot | Minus | Plus | Semicolon | Slash | Star | Whitespace
    // one- or two-character tokens
    | Bang | BangEqual | Equal | EqualEqual
    | Greater | GreaterEqual | Less | LessEqual
    // literals
    | IDENTIFIER(name: string) | STRING(text: string) | NUMBER(value: real)
    // keywords
    | AND | CLASS | ELSE | FALSE | FUN | FOR | IF | NIL | OR
    | PRINT | RETURN | SUPER | THIS | TRUE | VAR | WHILE
    | UNEXPECTED(found: string)
    | EOF

  datatype Token = Token(line: nat, lexeme: LexemeKind)

  predicate IsKeyword(k: LexemeKind)
  {
    k.AND? || k.CLASS? || k.ELSE? || k.FALSE? || k.FUN? || k.FOR? || k.IF? || k.NIL?
    || k.OR? || k.PRINT? || k.RETURN? || k.SUPER? || k.THIS? || k.TRUE? || k.VAR? || k.WHILE?
  }

  // ---------------------------------------------------------------------
  // Character classes

  /** `is_number`. */
  predicate IsNumber(c: char) { '0' <= c <= '9' }

  /** `is_valid_ident`: the one-character pattern `[a-zA-Z_]`. */
  predicate IsValidIdent(c: char) { ('a' <= c <= 'z') || ('A' <= c <= 'Z') || c == '_' }

  /** `char::is_whitespace`: the characters with the Unicode White_Space
      property. */
  predicate IsWhitespace(c: char)
  {
    ('\t' <= c <= '\r') || c == ' ' || c == '\U{85}' || c == '\U{A0}' || c == '\U{1680}'
    || ('\U{2000}' <= c <= '\U{200A}') || c == '\U{2028}' || c == '\U{2029}'
    || c == '\U{202F}' || c == '\U{205F}' || c == '\U{3000}'
  }

  /** The runs the boundary loops collect. */
  datatype Run = Digits | NumberChars | WordChars

  predicate InRun(run: Run, c: char)
  {
    match run
    case Digits => IsNumber(c)
    case NumberChars => IsNumber(c) || c == '.'
    case WordChars => IsNumber(c) || IsValidIdent(c)
  }

  /** End of the longest run of `run` characters starting at `from`. */
  function RunEnd(chars: seq<char>, from: nat, run: Run): (end: nat)
    requires from <= |chars|
    ensures from <= end <= |chars|
    ensures forall k :: from <= k < end ==> InRun(run, chars[k])
    ensures end == |chars| || !InRun(run, chars[end])
    decreases |chars| - from
  {
    if from < |chars| && InRun(run, chars[from]) then RunEnd(chars, from + 1, run) else from
  }

  // ---------------------------------------------------------------------
  // Numbers

  /** The value of the digits after a decimal point, `0.d1d2...`, read
      from the right so that each step is one division by ten. */
  function FracValue(digits: string): real
    requires forall k :: 0 <= k < |digits| ==> IsNumber(digits[k])
  {
    if |digits| == 0 then 0.0
    else ((digits[0] as int - '0' as int) as real + FracValue(digits[1..])) / 10.0
  }

  /** Digits after a point never reach a whole unit. */
  lemma {:induction false} FracValueRange(digits: string)
    requires forall k :: 0 <= k < |digits| ==> IsNumber(digits[k])
    ensures 0.0 <= FracValue(digits) < 1.0
    decreases |digits|
  {
    if |digits| > 0 {
      FracValueRange(digits[1..]);
    }
  }

  /** The float a number run parses to, kept exact; `None` where the
      source's `unwrap` of the parse panics. A run starts with a digit and
      holds digits and dots only. */
  function ParseNumber(text: string): (r: Option<real>)
    requires |text| > 0 && IsNumber(text[0])
    requires forall k :: 0 <= k < |text| ==> InRun(NumberChars, text[k])
  {
    var dot := RunEnd(text, 0, Digits);
    if dot == |text| then Some(DecimalValue(text) as real)
    else
      var second := RunEnd(text, dot + 1, Digits);
      if second < |text| then None
      else
        var whole, frac := text[..dot], text[dot + 1..];
        assert forall k :: 0 <= k < |whole| ==> '0' <= whole[k] <= '9';
        assert forall k :: 0 <= k < |frac| ==> IsNumber(frac[k]);
        Some(DecimalValue(whole) as real + FracValue(frac))
  }

  lemma {:induction false} CountAbsent(s: string, c: char)
    requires forall k :: 0 <= k < |s| ==> s[k] != c
    ensures Count(s, c) == 0
    decreases |s|
  {
    if |s| > 0 {
      CountAbsent(s[1..], c);
    }
  }

  /** Parsing fails exactly when the run holds a second decimal point. */
  lemma ParseNumberFails(text: string)
    requires |text| > 0 && IsNumber(text[0])
    requires forall k :: 0 <= k < |text| ==> InRun(NumberChars, text[k])
    ensures ParseNumber(text).None? <==> Count(text, '.') >= 2
  {
    var dot := RunEnd(text, 0, Digits);
    if dot == |text| {
      CountAbsent(text, '.');
    } else {
      assert text[dot] == '.';
      var second := RunEnd(text, dot + 1, Digits);
      if second < |text| {
        assert text[second] == '.';
        SecondDot(text, dot, second);
      } else {
        OneDot(text, dot);
      }
    }
  }

  lemma SecondDot(text: string, dot: nat, second: nat)
    requires dot < second < |text| && text[dot] == '.' && text[second] == '.'
    requires forall k :: 0 <= k < dot ==> IsNumber(text[k])
    ensures Count(text, '.') >= 2
  {
    CountAfterDigits(text, dot);
    assert text[dot + 1..][second - dot - 1] == text[second];
    CountPresent(text[dot + 1..], second - dot - 1, '.');
  }

  lemma OneDot(text: string, dot: nat)
    requires dot < |text| && text[dot] == '.'
    requires forall k :: 0 <= k < |text| && k != dot ==> IsNumber(text[k])
    ensures Count(text, '.') == 1
  {
    CountAfterDigits(text, dot);
    CountAbsent(text[dot + 1..], '.');
  }

  /** A digit prefix ended by a dot contributes exactly that dot. */
  lemma CountAfterDigits(text: string, dot: nat)
    requires dot < |text| && text[dot] == '.'
    requires forall k :: 0 <= k < dot ==> IsNumber(text[k])
    ensures Count(text, '.') == 1 + Count(text[dot + 1..], '.')
  {
    assert text == text[..dot] + text[dot..];
    CountConcat(text[..dot], text[dot..], '.');
    CountAbsent(text[..dot], '.');
    assert text[dot..][1..] == text[dot + 1..];
  }

  lemma CountPresent(s: string, i: nat, c: char)
    requires i < |s| && s[i] == c
    ensures Count(s, c) >= 1
  {
    CountSplit(s, 0, i, |s|, c);
    assert s[0..|s|] == s;
    assert s[i..][0] == c;
  }

  /** A run without a decimal point is the integer its digits denote. */
  lemma WholeNumber(text: string)
    requires |text| > 0 && forall k :: 0 <= k < |text| ==> IsNumber(text[k])
    ensures ParseNumber(text) == Some(DecimalValue(text) as real)
  {
  }

  /** A run that parses has the digits before its decimal point as its
      integer part. */
  lemma ParseNumberWholePart(text: string)
    requires |text| > 0 && IsNumber(text[0])
    requires forall k :: 0 <= k < |text| ==> InRun(NumberChars, text[k])
    requires ParseNumber(text).Some?
    ensures var whole := text[..RunEnd(text, 0, Digits)];
      && (forall k :: 0 <= k < |whole| ==> '0' <= whole[k] <= '9')
      && DecimalValue(whole) as real <= ParseNumber(text).value < DecimalValue(whole) as real + 1.0
  {
    var dot := RunEnd(text, 0, Digits);
    if dot == |text| {
      assert text[..dot] == text;
    } else {
      var frac := text[dot + 1..];
      assert forall k :: 0 <= k < |frac| ==> IsNumber(frac[k]);
      FracValueRange(frac);
    }
  }

  // ---------------------------------------------------------------------
  // Words and texts

  /** The keyword a word stands for; grouping by length selects the same
      entry as the source's single `match`. */
  function KeywordKind(word: string): (r: Option<LexemeKind>)
    ensures r.Some? ==> IsKeyword(r.value)
  {
    if |word| == 2 then
      if word == "if" then Some(IF) else if word == "or" then Some(OR) else None
    else if |word| == 3 then
      if word == "and" then Some(AND) else if word == "for" then Some(FOR)
      else if word == "fun" then Some(FUN) else if word == "nil" then Some(NIL)
      else if word == "var" then Some(VAR) else None
    else if |word| == 4 then
      if word == "else" then Some(ELSE) else if word == "this" then Some(THIS)
      else if word == "true" then Some(TRUE) else None
    else if |word| == 5 then
      if word == "class" then Some(CLASS) else if word == "false" then Some(FALSE)
      else if word == "print" then Some(PRINT) else if word == "super" then Some(SUPER)
      else if word == "while" then Some(WHILE) else None
    else if |word| == 6 && word == "return" then Some(RETURN)
    else None
  }

  /** The lexeme of an identifier run: a keyword or an identifier. */
  function WordKind(word: string): (k: LexemeKind)
    ensures k.IDENTIFIER? || IsKeyword(k)
  {
    match KeywordKind(word)
    case Some(kw) => kw
    case None => IDENTIFIER(word)
  }

  /** `LexemeKind::to_string`; numbers print through the host's float
      formatting, given here as `number`. */
  function KindText(k: LexemeKind, number: real -> string): string
  {
    match k
    case LeftParen => "("
    case RightParen => ")"
    case LeftBrace => "{"
    case RightBrace => "}"
    case Comma => "."
    case Dot => "."
    case Minus => "-"
    case Plus => "+"
    case Semicolon => ";"
    case Slash => "/"
    case Star => "*"
    case Bang => "!"
    case BangEqual => "!!"
    case Equal => "="
    case EqualEqual => "=="
    case Greater => ">"
    case GreaterEqual => ">="
    case Less => "<"
    case LessEqual => "<="
    case Whitespace => " "
    case IDENTIFIER(i) => i
    case STRING(s) => "\"" + s + "\""
    case NUMBER(n) => number(n)
    case AND => "and"
    case CLASS => "class"
    case ELSE => "else"
    case FALSE => "false"
    case FUN => "fun"
    case FOR => "for"
    case IF => "if"
    case NIL => "nil"
    case OR => "or"
    case PRINT => "print"
    case RETURN => "return"
    case SUPER => "super"
    case THIS => "this"
    case TRUE => "true"
    case VAR => "var"
    case WHILE => "while"
    case EOF => "<EOF>"
    case UNEXPECTED(st) => st
  }

  /** The lexer's keyword table and the text table agree: every keyword is
      found again from its own text, and only keyword texts are. */
  lemma KeywordTextRoundTrip(k: LexemeKind, number: real -> string)
    requires IsKeyword(k)
    ensures KeywordKind(KindText(k, number)) == Some(k)
  {
    if k.AND? || k.FOR? || k.FUN? || k.NIL? || k.VAR? || k.IF? || k.OR? {
      ShortKeywordText(k, number);
    } else {
      LongKeywordText(k, number);
    }
  }

  lemma ShortKeywordText(k: LexemeKind, number: real -> string)
    requires k.AND? || k.FOR? || k.FUN? || k.NIL? || k.VAR? || k.IF? || k.OR?
    ensures KeywordKind(KindText(k, number)) == Some(k)
  {
  }

  lemma LongKeywordText(k: LexemeKind, number: real -> string)
    requires k.CLASS? || k.ELSE? || k.FALSE? || k.PRINT? || k.RETURN? || k.SUPER? || k.THIS? || k.TRUE? || k.WHILE?
    ensures KeywordKind(KindText(k, number)) == Some(k)
  {
  }

  lemma KeywordKindExact(word: string)
    ensures KeywordKind(word).Some? <==>
      word in {"and", "class", "else", "false", "for", "fun", "if", "nil",
               "or", "print", "return", "super", "this", "true", "var", "while"}
  {
  }

  /** The text table loses information: `Comma` and `Dot` share a text,
      `BangEqual` does not print as scanned, and an unexpected character
      prints as itself. */
  lemma KindTextLossy(number: real -> string, found: string)
    ensures Comma != Dot && KindText(Comma, number) == KindText(Dot, number) == "."
    ensures KindText(BangEqual, number) == "!!" != "!="
    ensures KindText(UNEXPECTED(found), number) == found
    ensures KindText(STRING(found), number) == ['"'] + found + ['"']
  {
  }

  // ---------------------------------------------------------------------
  // The `Debug` rendering used in parse error messages

  /** Characters that `Debug` writes as a `\u{…}` escape because they are
      not printable: the C0 controls, DEL with the C1 controls through the
      no-break space U+00A0, and the soft hyphen U+00AD. */
  predicate Unprintable(c: char)
  {
    c as int < 0x20 || 0x7F <= c as int <= 0xA0 || c as int == 0xAD
  }

  function HexDigit(n: nat): char
    requires n < 16
  {
    if n < 10 then ('0' as int + n) as char else ('a' as int + n - 10) as char
  }

  function HexValue(c: char): (r: Option<nat>)
    ensures r.Some? ==> r.value < 16
  {
    if '0' <= c <= '9' then Some(c as int - '0' as int)
    else if 'a' <= c <= 'f' then Some(c as int - 'a' as int + 10)
    else None
  }

  /** Lower-case hexadecimal without leading zeros, for values below 256. */
  function Hex(n: nat): (s: string)
    requires n < 256
    ensures 1 <= |s| <= 2
  {
    if n < 16 then [HexDigit(n)] else [HexDigit(n / 16), HexDigit(n % 16)]
  }

  /** One character of a string's `Debug` rendering. */
  function EscapeChar(c: char): (s: string)
    ensures 1 <= |s| <= 6
  {
    if c == '"' then "\\\""
    else if c == '\\' then "\\\\"
    else if c == '\n' then "\\n"
    else if c == '\r' then "\\r"
    else if c == '\t' then "\\t"
    else if c == '\0' then "\\0"
    else if Unprintable(c) then "\\u{" + Hex(c as int) + "}"
    else [c]
  }

  /** A string's `Debug` rendering between the quotes. */
  function Escape(s: string): string
  {
    if |s| == 0 then "" else EscapeChar(s[0]) + Escape(s[1..])
  }

  /** The character an escape at the start of `s` stands for, and the
      escape's length; `None` on an unknown escape. Of the `\u{…}` forms
      only those of one or two digits are read, the ones `EscapeChar`
      writes. */
  function EscapeAt(s: string): (r: Option<(char, nat)>)
    requires 2 <= |s| && s[0] == '\\'
    ensures r.Some? ==> 2 <= r.value.1 <= |s|
  {
    var c := s[1];
    if c == '"' then Some(('"', 2)) else if c == '\\' then Some(('\\', 2))
    else if c == 'n' then Some(('\n', 2)) else if c == 'r' then Some(('\r', 2))
    else if c == 't' then Some(('\t', 2)) else if c == '0' then Some(('\0', 2))
    else if c != 'u' || |s| < 5 || s[2] != '{' || HexValue(s[3]).None? then None
    else if s[4] == '}' then Some((HexValue(s[3]).value as char, 5))
    else if |s| >= 6 && HexValue(s[4]).Some? && s[5] == '}' then
      Some(((16 * HexValue(s[3]).value + HexValue(s[4]).value) as char, 6))
    else None
  }

  /** Reads a `Debug` rendering back; `None` on a dangling or unknown
      escape. */
  function Unescape(s: string): Option<string>
    decreases |s|
  {
    if |s| == 0 then Some("")
    else if s[0] != '\\' then
      match Unescape(s[1..]) case None => None case Some(rest) => Some([s[0]] + rest)
    else if |s| == 1 then None
    else
      match EscapeAt(s)
      case None => None
      case Some((d, n)) =>
        match Unescape(s[n..]) case None => None case Some(rest) => Some([d] + rest)
  }

  /** The escaped rendering of a string reads back as that string, so
      distinct payloads render distinctly. */
  lemma {:induction false} EscapeRoundTrip(s: string)
    ensures Unescape(Escape(s)) == Some(s)
    decreases |s|
  {
    if |s| > 0 {
      EscapeRoundTrip(s[1..]);
      UnescapeChar(s[0], Escape(s[1..]), s[1..]);
      assert [s[0]] + s[1..] == s;
    }
  }

  /** Reading back one escaped character in front of a readable rest. */
  lemma UnescapeChar(c: char, t: string, rest: string)
    requires Unescape(t) == Some(rest)
    ensures Unescape(EscapeChar(c) + t) == Some([c] + rest)
  {
    var e := EscapeChar(c);
    if |e| == 1 {
      assert e == [c] && c != '\\';
      assert (e + t)[0] == c && (e + t)[1..] == t;
    } else if |e| == 2 {
      assert (e + t)[0] == '\\' && (e + t)[1] == e[1] && (e + t)[2..] == t;
    } else {
      UnescapeUnicode(c, t);
    }
  }

  /** A `\u{…}` escape reads back as the character it was written for. */
  lemma UnescapeUnicode(c: char, t: string)
    requires Unprintable(c) && c != '\n' && c != '\r' && c != '\t' && c != '\0'
    ensures EscapeAt(EscapeChar(c) + t) == Some((c, |EscapeChar(c)|))
    ensures (EscapeChar(c) + t)[|EscapeChar(c)|..] == t
  {
    var n := c as int;
    var e := EscapeChar(c);
    assert e == "\\u{" + Hex(n) + "}";
    var u := e + t;
    assert u[0] == '\\' && u[1] == 'u' && u[2] == '{';
    if n < 16 {
      HexRoundTrip(n);
      assert u[3] == HexDigit(n) && u[4] == '}';
    } else {
      HexRoundTrip(n / 16);
      HexRoundTrip(n % 16);
      assert u[3] == HexDigit(n / 16) && u[4] == HexDigit(n % 16) && u[5] == '}';
      assert 16 * (n / 16) + n % 16 == n;
    }
    assert u[|e|..] == t;
  }

  lemma HexRoundTrip(n: nat)
    requires n < 16
    ensures HexValue(HexDigit(n)) == Some(n)
  {
  }

  /** `{:?}` of a kind, as `Display` forwards it; a number's float
      rendering is not modelled, so numbers are excluded. */
  function KindName(k: LexemeKind): string
    requires !k.NUMBER?
  {
    match k
    case LeftParen => "LeftParen"
    case RightParen => "RightParen"
    case LeftBrace => "LeftBrace"
    case RightBrace => "RightBrace"
    case Comma => "Comma"
    case Dot => "Dot"
    case Minus => "Minus"
    case Plus => "Plus"
    case Semicolon => "Semicolon"
    case Slash => "Slash"
    case Star => "Star"
    case Whitespace => "Whitespace"
    case Bang => "Bang"
    case BangEqual => "BangEqual"
    case Equal => "Equal"
    case EqualEqual => "EqualEqual"
    case Greater => "Greater"
    case GreaterEqual => "GreaterEqual"
    case Less => "Less"
    case LessEqual => "LessEqual"
    case IDENTIFIER(s) => "IDENTIFIER(\"" + Escape(s) + "\")"
    case STRING(s) => "STRING(\"" + Escape(s) + "\")"
    case AND => "AND"
    case CLASS => "CLASS"
    case ELSE => "ELSE"
    case FALSE => "FALSE"
    case FUN => "FUN"
    case FOR => "FOR"
    case IF => "IF"
    case NIL => "NIL"
    case OR => "OR"
    case PRINT => "PRINT"
    case RETURN => "RETURN"
    case SUPER => "SUPER"
    case THIS => "THIS"
    case TRUE => "TRUE"
    case VAR => "VAR"
    case WHILE => "WHILE"
    case UNEXPECTED(s) => "UNEXPECTED(\"" + Escape(s) + "\")"
    case EOF => "EOF"
  }

  /** A payload-carrying kind names its variant and shows its payload
      escaped, so the payload can be read back from the name. */
  lemma KindNamePayload(s: string)
    ensures KindName(IDENTIFIER(s)) == "IDENTIFIER(\"" + Escape(s) + "\")"
    ensures KindName(STRING(s)) == "STRING(\"" + Escape(s) + "\")"
    ensures Unescape(Escape(s)) == Some(s)
    ensures KindName(AND) == "AND" && KindName(RightParen) == "RightParen"
  {
    EscapeRoundTrip(s);
  }

  /** A control character is shown by its code point: U+0001 as
      `\u{1}`, U+001B as `\u{1b}`. */
  lemma ExampleControlName()
    ensures KindName(UNEXPECTED("\U{1}")) == "UNEXPECTED(\"\\u{1}\")"
    ensures KindName(UNEXPECTED("\U{1B}")) == "UNEXPECTED(\"\\u{1b}\")"
  {
    assert Escape("\U{1}") == EscapeChar('\U{1}');
    assert Escape("\U{1B}") == EscapeChar('\U{1B}');
  }

  // ---------------------------------------------------------------------
  // One pull of the iterator

  /** The outcome of `next`: a token with the cursor and line afterwards,
      the end of iteration, or a panic (the float parse's `unwrap`). */
  datatype Step = Emit(token: Token, cursor: nat, line: nat) | Stop | Panic

  function SingleKind(c: char): (r: Option<LexemeKind>)
    ensures r.Some? <==> IsSingle(c)
  {
    if c == ')' then Some(RightParen) else if c == '(' then Some(LeftParen)
    else if c == '{' then Some(LeftBrace) else if c == '}' then Some(RightBrace)
    else if c == ',' then Some(Comma) else if c == '.' then Some(Dot)
    else if c == '-' then Some(Minus) else if c == '+' then Some(Plus)
    else if c == ';' then Some(Semicolon) else if c == '*' then Some(Star)
    else None
  }

  /** `!`, `=`, `<`, `>`: the two-character kind when `=` follows. */
  function OperatorKind(c: char, withEqual: bool): LexemeKind
    requires IsOperator(c)
  {
    if c == '!' then (if withEqual then BangEqual else Bang)
    else if c == '=' then (if withEqual then EqualEqual else Equal)
    else if c == '<' then (if withEqual then LessEqual else Less)
    else if withEqual then GreaterEqual else Greater
  }

  /** The characters that are a token on their own. */
  predicate IsSingle(c: char)
  {
    c == ')' || c == '(' || c == '{' || c == '}' || c == ',' || c == '.' || c == '-' || c == '+' || c == ';' || c == '*'
  }

  /** The characters that take a following `=`. */
  predicate IsOperator(c: char)
  {
    c == '!' || c == '=' || c == '<' || c == '>'
  }

  predicate CommentStart(chars: seq<char>, cursor: nat)
  {
    cursor + 1 < |chars| && chars[cursor] == '/' && chars[cursor + 1] == '/'
  }

  /** The comment loop, started on the second slash: it stops at the end
      of input or on the last character before a newline. */
  function CommentEnd(chars: seq<char>, from: nat): (last: nat)
    requires from <= |chars|
    ensures from <= last <= |chars|
    ensures last < |chars| ==> last + 1 < |chars| && chars[last + 1] == '\n'
    ensures forall k :: from < k <= last && k < |chars| ==> chars[k] != '\n'
    decreases |chars| - from
  {
    if from < |chars| && (from + 1 >= |chars| || chars[from + 1] != '\n') then CommentEnd(chars, from + 1)
    else from
  }

  /** `word_boundary`, started just past the opening quote: the loop runs
      while a character follows the current one, so an unterminated
      literal loses its last character. */
  function WordEnd(chars: seq<char>, from: nat): (end: nat)
    requires from <= |chars|
    ensures from <= end <= |chars|
    ensures forall k :: from <= k < end ==> chars[k] != '"'
    ensures (end + 1 < |chars| && chars[end] == '"') || end == from || end + 1 == |chars|
    decreases |chars| - from
  {
    if from + 1 < |chars| && chars[from] != '"' then WordEnd(chars, from + 1) else from
  }

  /** The arms of `next` for a character that starts neither a number, a
      word nor a comment. The source's `EOF` arm is unreachable, since the
      cursor is inside the input here. */
  function Symbol(chars: seq<char>, cursor: nat, line: nat): (r: Step)
    requires cursor < |chars| && !IsNumber(chars[cursor]) && !IsValidIdent(chars[cursor])
    requires !CommentStart(chars, cursor)
    ensures r.Emit? && cursor < r.cursor && r.token.line == r.line && r.token.lexeme != EOF
    ensures r.line == (if chars[cursor] == '\n' then line + 1 else line)
  {
    var c := chars[cursor];
    match SingleKind(c)
    case Some(k) => Emit(Token(line, k), cursor + 1, line)
    case None =>
      if IsOperator(c) then
        var withEqual := cursor + 1 < |chars| && chars[cursor + 1] == '=';
        Emit(Token(line, OperatorKind(c, withEqual)), if withEqual then cursor + 2 else cursor + 1, line)
      else if c == '/' then Emit(Token(line, Slash), cursor + 1, line)
      else if IsWhitespace(c) then
        var after := if c == '\n' then line + 1 else line;
        Emit(Token(after, Whitespace), cursor + 1, after)
      else if c == '"' then
        var end := WordEnd(chars, cursor + 1);
        Emit(Token(line, STRING(chars[cursor + 1..end])), end + 1, line)
      else Emit(Token(line, UNEXPECTED([c])), cursor + 1, line)
  }

  /** `Scanner::next` as written. A comment runs the loop and then lexes
      again from the comment's last character, and the cursor is then
      advanced once more. */
  function Next(chars: seq<char>, cursor: nat, line: nat): (r: Step)
    ensures cursor >= |chars| ==> r.Stop?
    ensures r.Emit? ==> cursor < r.cursor && r.token.line == r.line && r.token.lexeme != EOF
    ensures r.Emit? ==> r.line == (if chars[cursor] == '\n' then line + 1 else line)
    decreases |chars| - cursor
  {
    if cursor >= |chars| then Stop
    else if IsNumber(chars[cursor]) then
      var end := RunEnd(chars, cursor, NumberChars);
      match ParseNumber(chars[cursor..end])
      case None => Panic
      case Some(v) => Emit(Token(line, NUMBER(v)), end, line)
    else if IsValidIdent(chars[cursor]) then
      var end := RunEnd(chars, cursor, WordChars);
      Emit(Token(line, WordKind(chars[cursor..end])), end, line)
    else if CommentStart(chars, cursor) then
      var last := CommentEnd(chars, cursor + 1);
      match Next(chars, last, line)
      case Emit(t, after, l) => Emit(t, after + 1, l)
      case other => other
    else Symbol(chars, cursor, line)
  }

  /** Where lexing resumes: on the newline that ends a comment starting
      at `cursor` (or at the end of input), otherwise at `cursor` itself. */
  function Resume(chars: seq<char>, cursor: nat): (r: nat)
    ensures cursor <= r
    ensures cursor >= |chars| ==> r == cursor
  {
    if cursor < |chars| && CommentStart(chars, cursor) then
      var last := CommentEnd(chars, cursor + 1);
      if last < |chars| then last + 1 else last
    else cursor
  }

  /** `next` with the comment rule as evidently intended: a comment yields
      nothing, and lexing resumes on the newline that ends it. */
  function NextCorrected(chars: seq<char>, cursor: nat, line: nat): (r: Step)
    ensures cursor >= |chars| ==> r.Stop?
    ensures r.Emit? ==> cursor < r.cursor && r.token.line == r.line && r.token.lexeme != EOF
  {
    Next(chars, Resume(chars, cursor), line)
  }

  // ---------------------------------------------------------------------
  // Single-pull properties

  /** For `!`, `=`, `<` and `>` both characters are consumed exactly when
      `=` follows. */
  lemma OperatorLookahead(chars: seq<char>, cursor: nat, line: nat)
    requires cursor < |chars| && IsOperator(chars[cursor])
    ensures var withEqual := cursor + 1 < |chars| && chars[cursor + 1] == '=';
      Next(chars, cursor, line)
        == Emit(Token(line, OperatorKind(chars[cursor], withEqual)), if withEqual then cursor + 2 else cursor + 1, line)
  {
  }

  /** Every whitespace character is one `Whitespace` token; a newline
      advances the line before the token is built. */
  lemma WhitespaceToken(chars: seq<char>, cursor: nat, line: nat)
    requires cursor < |chars| && IsWhitespace(chars[cursor])
    ensures var after := if chars[cursor] == '\n' then line + 1 else line;
      Next(chars, cursor, line) == Emit(Token(after, Whitespace), cursor + 1, after)
  {
  }

  /** A word is the maximal run of letters, digits and underscores; it is
      a keyword exactly when the keyword table has it. */
  lemma WordToken(chars: seq<char>, cursor: nat, line: nat, end: nat)
    requires cursor < end <= |chars| && IsValidIdent(chars[cursor])
    requires forall k :: cursor <= k < end ==> IsNumber(chars[k]) || IsValidIdent(chars[k])
    requires end == |chars| || !(IsNumber(chars[end]) || IsValidIdent(chars[end]))
    ensures Next(chars, cursor, line) == Emit(Token(line, WordKind(chars[cursor..end])), end, line)
    ensures WordKind(chars[cursor..end]) == IDENTIFIER(chars[cursor..end]) <==> KeywordKind(chars[cursor..end]).None?
  {
    RunEndAt(chars, cursor, WordChars, end);
  }

  lemma RunEndAt(chars: seq<char>, from: nat, run: Run, end: nat)
    requires from <= end <= |chars|
    requires forall k :: from <= k < end ==> InRun(run, chars[k])
    requires end == |chars| || !InRun(run, chars[end])
    ensures RunEnd(chars, from, run) == end
  {
  }

  /** A number is the maximal run of digits and dots; the lexer panics
      exactly when that run holds two dots. */
  lemma NumberToken(chars: seq<char>, cursor: nat, line: nat)
    requires cursor < |chars| && IsNumber(chars[cursor])
    ensures var end := RunEnd(chars, cursor, NumberChars);
      && (Next(chars, cursor, line).Panic? <==> Count(chars[cursor..end], '.') >= 2)
      && (Next(chars, cursor, line).Emit? ==>
            Next(chars, cursor, line) == Emit(Token(line, NUMBER(ParseNumber(chars[cursor..end]).value)), end, line))
  {
    var end := RunEnd(chars, cursor, NumberChars);
    ParseNumberFails(chars[cursor..end]);
  }

  /** A terminated string literal is its inner text, and the closing quote
      is consumed. */
  lemma StringToken(chars: seq<char>, cursor: nat, line: nat, close: nat)
    requires cursor < close && close + 1 < |chars| && chars[cursor] == '"' && chars[close] == '"'
    requires forall k :: cursor < k < close ==> chars[k] != '"'
    ensures Next(chars, cursor, line) == Emit(Token(line, STRING(chars[cursor + 1..close])), close + 1, line)
  {
    WordEndAt(chars, cursor + 1, close);
  }

  lemma {:induction false} WordEndAt(chars: seq<char>, from: nat, close: nat)
    requires from <= close && close + 1 < |chars| && chars[close] == '"'
    requires forall k :: from <= k < close ==> chars[k] != '"'
    ensures WordEnd(chars, from) == close
    decreases close - from
  {
    if from < close {
      WordEndAt(chars, from + 1, close);
    }
  }

  /** Any other character is reported as unexpected, and lexing goes on
      after it. */
  lemma UnexpectedToken(chars: seq<char>, cursor: nat, line: nat)
    requires cursor < |chars|
    requires var c := chars[cursor];
      !IsNumber(c) && !IsValidIdent(c) && !IsWhitespace(c)
      && !IsSingle(c) && !IsOperator(c) && c != '/' && c != '"'
    ensures Next(chars, cursor, line) == Emit(Token(line, UNEXPECTED([chars[cursor]])), cursor + 1, line)
  {
    assert SingleKind(chars[cursor]).None?;
  }

  /** A comment yields no token: lexing resumes on the newline ending it,
      which yields a `Whitespace` token on the next line, or stops at the
      end of input. */
  lemma CommentSkipped(chars: seq<char>, cursor: nat, line: nat, newline: nat)
    requires CommentStart(chars, cursor)
    requires cursor + 2 <= newline <= |chars|
    requires newline < |chars| ==> chars[newline] == '\n'
    requires forall k :: cursor + 2 <= k < newline ==> chars[k] != '\n'
    ensures newline == |chars| ==> NextCorrected(chars, cursor, line) == Stop
    ensures newline < |chars| ==>
      NextCorrected(chars, cursor, line) == Emit(Token(line + 1, Whitespace), newline + 1, line + 1)
  {
    var last := CommentEnd(chars, cursor + 1);
    if newline < |chars| {
      assert last < |chars|;
      assert last + 1 == newline;
      WhitespaceToken(chars, newline, line);
    }
  }

  /** Away from a comment the intended lexer is the lexer as written. */
  lemma NextOffComment(chars: seq<char>, cursor: nat, line: nat)
    requires !CommentStart(chars, cursor)
    ensures NextCorrected(chars, cursor, line) == Next(chars, cursor, line)
  {
  }

  /** As written, a comment running to the end of the input stops the
      lexer; otherwise its last character is lexed again as a token of
      its own, and the character after that token is skipped. */
  lemma CommentRelexesLast(chars: seq<char>, cursor: nat, line: nat, newline: nat)
    requires CommentStart(chars, cursor)
    requires cursor + 2 <= newline <= |chars|
    requires newline < |chars| ==> chars[newline] == '\n'
    requires forall k :: cursor + 2 <= k < newline ==> chars[k] != '\n'
    ensures newline == |chars| ==> Next(chars, cursor, line) == Stop
    ensures newline < |chars| && Next(chars, newline - 1, line).Emit? ==>
      var e := Next(chars, newline - 1, line);
      Next(chars, cursor, line) == Emit(e.token, e.cursor + 1, e.line)
    ensures newline < |chars| && !Next(chars, newline - 1, line).Emit? ==>
      Next(chars, cursor, line) == Next(chars, newline - 1, line)
  {
    CommentEndsBefore(chars, cursor, newline);
    var last := CommentEnd(chars, cursor + 1);
    assert Next(chars, cursor, line) == match Next(chars, last, line)
      case Emit(t, after, l) => Emit(t, after + 1, l)
      case other => other;
  }

  /** The comment loop stops on the character before the newline that
      ends the comment, or at the end of input. */
  lemma CommentEndsBefore(chars: seq<char>, cursor: nat, newline: nat)
    requires CommentStart(chars, cursor)
    requires cursor + 2 <= newline <= |chars|
    requires newline < |chars| ==> chars[newline] == '\n'
    requires forall k :: cursor + 2 <= k < newline ==> chars[k] != '\n'
    ensures CommentEnd(chars, cursor + 1) == if newline < |chars| then newline - 1 else |chars|
  {
    var last := CommentEnd(chars, cursor + 1);
    if newline < |chars| {
      assert last < |chars|;
      assert last + 1 == newline;
    } else {
      assert last == |chars|;
    }
  }

  // ---------------------------------------------------------------------
  // The collected stream

  /** `Scanner::new(source).collect()`, resuming after each token from
      `cursor` and `line`; `None` where the lexer panics. */
  function LexFrom(chars: seq<char>, cursor: nat, line: nat): Option<seq<Token>>
    decreases |chars| - cursor
  {
    match Next(chars, cursor, line)
    case Stop => Some([])
    case Panic => None
    case Emit(t, after, l) =>
      match LexFrom(chars, after, l)
      case None => None
      case Some(rest) => Some([t] + rest)
  }

  function Tokenize(source: string): Option<seq<Token>>
  {
    LexFrom(source, 0, 0)
  }

  /** The collected stream with comments skipped as intended. */
  function LexFromCorrected(chars: seq<char>, cursor: nat, line: nat): Option<seq<Token>>
    decreases |chars| - cursor
  {
    match NextCorrected(chars, cursor, line)
    case Stop => Some([])
    case Panic => None
    case Emit(t, after, l) =>
      match LexFromCorrected(chars, after, l)
      case None => None
      case Some(rest) => Some([t] + rest)
  }

  function TokenizeCorrected(source: string): Option<seq<Token>>
  {
    LexFromCorrected(source, 0, 0)
  }

  /** Token lines never decrease, start at or after `line`, and no token is
      an end-of-input marker. */
  predicate WellFormed(tokens: seq<Token>, line: nat)
    decreases |tokens|
  {
    |tokens| == 0
    || (line <= tokens[0].line && tokens[0].lexeme != EOF && WellFormed(tokens[1..], tokens[0].line))
  }

  lemma {:induction false} LexFromWellFormed(chars: seq<char>, cursor: nat, line: nat)
    requires LexFrom(chars, cursor, line).Some?
    ensures WellFormed(LexFrom(chars, cursor, line).value, line)
    decreases |chars| - cursor
  {
    match Next(chars, cursor, line)
    case Stop =>
    case Emit(t, after, l) =>
      LexFromWellFormed(chars, after, l);
      var ts := LexFrom(chars, cursor, line).value;
      assert ts[1..] == LexFrom(chars, after, l).value;
  }

  lemma {:induction false} LexFromCorrectedWellFormed(chars: seq<char>, cursor: nat, line: nat)
    requires LexFromCorrected(chars, cursor, line).Some?
    ensures WellFormed(LexFromCorrected(chars, cursor, line).value, line)
    decreases |chars| - cursor
  {
    match NextCorrected(chars, cursor, line)
    case Stop =>
    case Emit(t, after, l) =>
      NextCorrectedLine(chars, cursor, line);
      LexFromCorrectedWellFormed(chars, after, l);
      var ts := LexFromCorrected(chars, cursor, line).value;
      assert ts[1..] == LexFromCorrected(chars, after, l).value;
  }

  /** The line counter never goes back. */
  lemma NextCorrectedLine(chars: seq<char>, cursor: nat, line: nat)
    ensures NextCorrected(chars, cursor, line).Emit? ==> line <= NextCorrected(chars, cursor, line).line
  {
  }

  /** The collected stream never holds `EOF`, and its lines are ordered. */
  lemma TokenizeWellFormed(source: string)
    requires Tokenize(source).Some?
    ensures WellFormed(Tokenize(source).value, 0)
    ensures forall k :: 0 <= k < |Tokenize(source).value| ==> Tokenize(source).value[k].lexeme != EOF
  {
    LexFromWellFormed(source, 0, 0);
    WellFormedNoEof(Tokenize(source).value, 0);
  }

  /** The same holds for the stream with comments skipped as intended. */
  lemma TokenizeCorrectedWellFormed(source: string)
    requires TokenizeCorrected(source).Some?
    ensures WellFormed(TokenizeCorrected(source).value, 0)
    ensures forall k :: 0 <= k < |TokenizeCorrected(source).value| ==> TokenizeCorrected(source).value[k].lexeme != EOF
  {
    LexFromCorrectedWellFormed(source, 0, 0);
    WellFormedNoEof(TokenizeCorrected(source).value, 0);
  }

  lemma {:induction false} WellFormedNoEof(tokens: seq<Token>, line: nat)
    requires WellFormed(tokens, line)
    ensures forall k :: 0 <= k < |tokens| ==> tokens[k].lexeme != EOF
    decreases |tokens|
  {
    if |tokens| > 0 {
      WellFormedNoEof(tokens[1..], tokens[0].line);
      assert forall k :: 1 <= k < |tokens| ==> tokens[k] == tokens[1..][k - 1];
    }
  }

  // ---------------------------------------------------------------------
  // Worked examples

  /** One emitted token in front of the rest of the stream. */
  lemma LexStep(chars: seq<char>, cursor: nat, line: nat, t: Token, after: nat, l: nat, rest: seq<Token>)
    requires Next(chars, cursor, line) == Emit(t, after, l)
    requires LexFrom(chars, after, l) == Some(rest)
    ensures LexFrom(chars, cursor, line) == Some([t] + rest)
  {
  }

  lemma LexEnd(chars: seq<char>, line: nat)
    ensures LexFrom(chars, |chars|, line) == Some([])
  {
  }

  lemma SingleToken(chars: seq<char>, cursor: nat, line: nat)
    requires cursor < |chars| && SingleKind(chars[cursor]).Some?
    ensures Next(chars, cursor, line) == Emit(Token(line, SingleKind(chars[cursor]).value), cursor + 1, line)
  {
  }

  lemma SlashToken(chars: seq<char>, cursor: nat, line: nat)
    requires cursor < |chars| && chars[cursor] == '/' && !CommentStart(chars, cursor)
    ensures Next(chars, cursor, line) == Emit(Token(line, Slash), cursor + 1, line)
  {
  }

  /** Operators with and without a following `=`, and a space. */
  lemma ExampleOperators(src: string)
    requires src == "(!=) =="
    ensures Tokenize(src) == Some([Token(0, LeftParen), Token(0, BangEqual), Token(0, RightParen),
                                   Token(0, Whitespace), Token(0, EqualEqual)])
  {
    assert src[0] == '(';
    var r0 := [Token(0, BangEqual), Token(0, RightParen), Token(0, Whitespace), Token(0, EqualEqual)];
    ExampleOperatorsBang(src);
    SingleToken(src, 0, 0);
    LexStep(src, 0, 0, Token(0, LeftParen), 1, 0, r0);
    assert [Token(0, LeftParen)] + r0 == [Token(0, LeftParen), Token(0, BangEqual), Token(0, RightParen),
                                          Token(0, Whitespace), Token(0, EqualEqual)];
  }

  lemma ExampleOperatorsBang(src: string)
    requires src == "(!=) =="
    ensures LexFrom(src, 1, 0) == Some([Token(0, BangEqual), Token(0, RightParen), Token(0, Whitespace), Token(0, EqualEqual)])
  {
    assert src[1] == '!' && src[2] == '=';
    var r1 := [Token(0, RightParen), Token(0, Whitespace), Token(0, EqualEqual)];
    ExampleOperatorsMiddle(src);
    OperatorLookahead(src, 1, 0);
    LexStep(src, 1, 0, Token(0, BangEqual), 3, 0, r1);
    assert [Token(0, BangEqual)] + r1 == [Token(0, BangEqual), Token(0, RightParen), Token(0, Whitespace), Token(0, EqualEqual)];
  }

  lemma ExampleOperatorsMiddle(src: string)
    requires src == "(!=) =="
    ensures LexFrom(src, 3, 0) == Some([Token(0, RightParen), Token(0, Whitespace), Token(0, EqualEqual)])
  {
    assert src[3] == ')';
    var r3 := [Token(0, Whitespace), Token(0, EqualEqual)];
    ExampleOperatorsSpace(src);
    SingleToken(src, 3, 0);
    LexStep(src, 3, 0, Token(0, RightParen), 4, 0, r3);
    assert [Token(0, RightParen)] + r3 == [Token(0, RightParen), Token(0, Whitespace), Token(0, EqualEqual)];
  }

  lemma ExampleOperatorsSpace(src: string)
    requires src == "(!=) =="
    ensures LexFrom(src, 4, 0) == Some([Token(0, Whitespace), Token(0, EqualEqual)])
  {
    assert src[4] == ' ';
    var r4 := [Token(0, EqualEqual)];
    ExampleOperatorsLast(src);
    WhitespaceToken(src, 4, 0);
    LexStep(src, 4, 0, Token(0, Whitespace), 5, 0, r4);
    assert [Token(0, Whitespace)] + r4 == [Token(0, Whitespace), Token(0, EqualEqual)];
  }

  lemma ExampleOperatorsLast(src: string)
    requires src == "(!=) =="
    ensures LexFrom(src, 5, 0) == Some([Token(0, EqualEqual)])
  {
    assert src[5] == '=' && src[6] == '=' && |src| == 7;
    LexEnd(src, 0);
    OperatorLookahead(src, 5, 0);
    LexStep(src, 5, 0, Token(0, EqualEqual), 7, 0, []);
    assert [Token(0, EqualEqual)] + [] == [Token(0, EqualEqual)];
  }

  /** A comment closing the input yields nothing. */
  lemma ExampleCommentAtEnd(src: string)
    requires src == "{} // foo"
    ensures Tokenize(src) == Some([Token(0, LeftBrace), Token(0, RightBrace), Token(0, Whitespace)])
  {
    assert src[0] == '{';
    var r1 := [Token(0, RightBrace), Token(0, Whitespace)];
    ExampleCommentAtEndBrace(src);
    SingleToken(src, 0, 0);
    LexStep(src, 0, 0, Token(0, LeftBrace), 1, 0, r1);
    assert [Token(0, LeftBrace)] + r1 == [Token(0, LeftBrace), Token(0, RightBrace), Token(0, Whitespace)];
  }

  lemma ExampleCommentAtEndBrace(src: string)
    requires src == "{} // foo"
    ensures LexFrom(src, 1, 0) == Some([Token(0, RightBrace), Token(0, Whitespace)])
  {
    assert src[1] == '}';
    var r2 := [Token(0, Whitespace)];
    ExampleCommentAtEndTail(src);
    SingleToken(src, 1, 0);
    LexStep(src, 1, 0, Token(0, RightBrace), 2, 0, r2);
    assert [Token(0, RightBrace)] + r2 == [Token(0, RightBrace), Token(0, Whitespace)];
  }

  lemma ExampleCommentAtEndTail(src: string)
    requires src == "{} // foo"
    ensures LexFrom(src, 2, 0) == Some([Token(0, Whitespace)])
  {
    assert src[2] == ' ' && src[3] == '/' && src[4] == '/';
    assert src[5] == ' ' && src[6] == 'f' && src[7] == 'o' && src[8] == 'o' && |src| == 9;
    CommentRelexesLast(src, 3, 0, 9);
    WhitespaceToken(src, 2, 0);
    LexStep(src, 2, 0, Token(0, Whitespace), 3, 0, []);
    assert [Token(0, Whitespace)] + [] == [Token(0, Whitespace)];
  }

  /** A number run, an operator and a number run with a fraction. */
  lemma ExampleAddition(src: string)
    requires src == "1+2.0"
    ensures Tokenize(src) == Some([Token(0, NUMBER(1.0)), Token(0, Plus), Token(0, NUMBER(2.0))])
  {
    var r0 := [Token(0, Plus), Token(0, NUMBER(2.0))];
    ExampleAdditionPlus(src);
    ExampleAdditionWhole(src);
    LexStep(src, 0, 0, Token(0, NUMBER(1.0)), 1, 0, r0);
    assert [Token(0, NUMBER(1.0))] + r0 == [Token(0, NUMBER(1.0)), Token(0, Plus), Token(0, NUMBER(2.0))];
  }

  lemma ExampleAdditionPlus(src: string)
    requires src == "1+2.0"
    ensures LexFrom(src, 1, 0) == Some([Token(0, Plus), Token(0, NUMBER(2.0))])
  {
    assert src[1] == '+';
    var r1 := [Token(0, NUMBER(2.0))];
    ExampleAdditionTail(src);
    SingleToken(src, 1, 0);
    LexStep(src, 1, 0, Token(0, Plus), 2, 0, r1);
    assert [Token(0, Plus)] + r1 == [Token(0, Plus), Token(0, NUMBER(2.0))];
  }

  lemma ExampleAdditionTail(src: string)
    requires src == "1+2.0"
    ensures LexFrom(src, 2, 0) == Some([Token(0, NUMBER(2.0))])
  {
    assert |src| == 5;
    LexEnd(src, 0);
    ExampleAdditionFraction(src);
    LexStep(src, 2, 0, Token(0, NUMBER(2.0)), 5, 0, []);
    assert [Token(0, NUMBER(2.0))] + [] == [Token(0, NUMBER(2.0))];
  }

  lemma ExampleAdditionWhole(src: string)
    requires src == "1+2.0"
    ensures Next(src, 0, 0) == Emit(Token(0, NUMBER(1.0)), 1, 0)
  {
    assert src[0] == '1' && src[1] == '+';
    RunEndAt(src, 0, NumberChars, 1);
    NumberToken(src, 0, 0);
    assert src[0..1] == "1";
    WholeNumber("1");
    assert DecimalValue("1") == 1;
  }

  lemma ExampleAdditionFraction(src: string)
    requires src == "1+2.0"
    ensures Next(src, 2, 0) == Emit(Token(0, NUMBER(2.0)), 5, 0)
  {
    assert src[2] == '2' && src[3] == '.' && src[4] == '0' && |src| == 5;
    RunEndAt(src, 2, NumberChars, 5);
    NumberToken(src, 2, 0);
    assert src[2..5] == "2.0";
    ExampleParseFraction("2.0");
  }

  lemma ExampleParseFraction(text: string)
    requires text == "2.0"
    ensures ParseNumber(text) == Some(2.0)
  {
    assert text[0] == '2' && text[1] == '.' && text[2] == '0';
    RunEndAt(text, 0, Digits, 1);
    RunEndAt(text, 2, Digits, 3);
    assert text[..1] == "2" && text[2..] == "0";
    assert DecimalValue("2") == 2 && DecimalValue("0") == 0;
  }

  /** A character outside the language is reported and lexing goes on. */
  lemma ExampleUnexpected(src: string)
    requires src == "/\U{B7}"
    ensures Tokenize(src) == Some([Token(0, Slash), Token(0, UNEXPECTED("\U{B7}"))])
  {
    assert src[0] == '/' && src[1] == '\U{B7}';
    var r1 := [Token(0, UNEXPECTED("\U{B7}"))];
    ExampleUnexpectedTail(src);
    SlashToken(src, 0, 0);
    LexStep(src, 0, 0, Token(0, Slash), 1, 0, r1);
    assert [Token(0, Slash)] + r1 == [Token(0, Slash), Token(0, UNEXPECTED("\U{B7}"))];
  }

  lemma ExampleUnexpectedTail(src: string)
    requires src == "/\U{B7}"
    ensures LexFrom(src, 1, 0) == Some([Token(0, UNEXPECTED("\U{B7}"))])
  {
    assert src[1] == '\U{B7}' && |src| == 2;
    LexEnd(src, 0);
    UnexpectedToken(src, 1, 0);
    LexStep(src, 1, 0, Token(0, UNEXPECTED("\U{B7}")), 2, 0, []);
    assert [Token(0, UNEXPECTED("\U{B7}"))] + [] == [Token(0, UNEXPECTED("\U{B7}"))];
  }

  /** A newline advances the line before its own token; a keyword is
      found only for a whole word. */
  lemma ExampleNewline(src: string)
    requires src == "and\nandd"
    ensures Tokenize(src) == Some([Token(0, AND), Token(1, Whitespace), Token(1, IDENTIFIER("andd"))])
  {
    assert src[3] == '\n';
    var r2 := [Token(1, IDENTIFIER("andd"))];
    ExampleNewlineTail(src);
    WhitespaceToken(src, 3, 0);
    LexStep(src, 3, 0, Token(1, Whitespace), 4, 1, r2);
    var r1 := [Token(1, Whitespace)] + r2;
    ExampleNewlineAnd(src);
    LexStep(src, 0, 0, Token(0, AND), 3, 0, r1);
    assert [Token(0, AND)] + r1 == [Token(0, AND), Token(1, Whitespace), Token(1, IDENTIFIER("andd"))];
  }

  lemma ExampleNewlineTail(src: string)
    requires src == "and\nandd"
    ensures LexFrom(src, 4, 1) == Some([Token(1, IDENTIFIER("andd"))])
  {
    assert |src| == 8;
    LexEnd(src, 1);
    ExampleNewlineAndd(src);
    LexStep(src, 4, 1, Token(1, IDENTIFIER("andd")), 8, 1, []);
    assert [Token(1, IDENTIFIER("andd"))] + [] == [Token(1, IDENTIFIER("andd"))];
  }

  lemma ExampleNewlineAnd(src: string)
    requires src == "and\nandd"
    ensures Next(src, 0, 0) == Emit(Token(0, AND), 3, 0)
  {
    assert src[0] == 'a' && src[1] == 'n' && src[2] == 'd' && src[3] == '\n';
    assert src[0..3] == "and";
    WordToken(src, 0, 0, 3);
    assert KeywordKind("and") == Some(AND);
  }

  lemma ExampleNewlineAndd(src: string)
    requires src == "and\nandd"
    ensures Next(src, 4, 1) == Emit(Token(1, IDENTIFIER("andd")), 8, 1)
  {
    assert src[4] == 'a' && src[5] == 'n' && src[6] == 'd' && src[7] == 'd' && |src| == 8;
    assert src[4..8] == "andd";
    WordToken(src, 4, 1, 8);
    assert KeywordKind("andd") == None;
  }

  lemma CommentEndAt(chars: seq<char>, from: nat, last: nat)
    requires from <= last && last + 1 < |chars| && chars[last + 1] == '\n'
    requires forall k :: from < k <= last ==> chars[k] != '\n'
    ensures CommentEnd(chars, from) == last
    decreases last - from
  {
    if from < last {
      CommentEndAt(chars, from + 1, last);
    }
  }

  /** As written, the last character of a comment is lexed as a token and
      the newline after it is skipped, so the next line keeps the old line
      number. */
  lemma CommentSwallowsNewline(src: string)
    requires src == "// a\nb"
    ensures Next(src, 0, 0) == Emit(Token(0, IDENTIFIER("a")), 5, 0)
    ensures Next(src, 5, 0) == Emit(Token(0, IDENTIFIER("b")), 6, 0)
    ensures NextCorrected(src, 0, 0) == Emit(Token(1, Whitespace), 5, 1)
  {
    assert src[0] == '/' && src[1] == '/' && src[2] == ' ' && src[3] == 'a' && src[4] == '\n' && src[5] == 'b';
    assert |src| == 6;
    CommentEndAt(src, 1, 3);
    assert src[3..4] == "a";
    RunEndAt(src, 3, WordChars, 4);
    assert KeywordKind("a") == None;
    assert src[5..6] == "b";
    RunEndAt(src, 5, WordChars, 6);
    assert KeywordKind("b") == None;
    CommentSkipped(src, 0, 0, 4);
  }

  /** Across a whole stream: as written, `// a` and the next line `b`
      give `a` and `b` on line 0; as intended, the newline's `Whitespace`
      and `b` on line 1. */
  lemma ExampleCommentLine(src: string)
    requires src == "// a\nb"
    ensures Tokenize(src) == Some([Token(0, IDENTIFIER("a")), Token(0, IDENTIFIER("b"))])
    ensures TokenizeCorrected(src) == Some([Token(1, Whitespace), Token(1, IDENTIFIER("b"))])
  {
    CommentSwallowsNewline(src);
    CommentLineAsWritten(src);
    CommentLineCorrected(src);
    assert [Token(0, IDENTIFIER("a"))] + [Token(0, IDENTIFIER("b"))] == [Token(0, IDENTIFIER("a")), Token(0, IDENTIFIER("b"))];
    assert [Token(1, Whitespace)] + [Token(1, IDENTIFIER("b"))] == [Token(1, Whitespace), Token(1, IDENTIFIER("b"))];
  }

  lemma CommentLineAsWritten(src: string)
    requires src == "// a\nb"
    requires Next(src, 5, 0) == Emit(Token(0, IDENTIFIER("b")), 6, 0)
    ensures LexFrom(src, 5, 0) == Some([Token(0, IDENTIFIER("b"))])
  {
    assert |src| == 6;
    LexEnd(src, 0);
    LexStep(src, 5, 0, Token(0, IDENTIFIER("b")), 6, 0, []);
    assert [Token(0, IDENTIFIER("b"))] + [] == [Token(0, IDENTIFIER("b"))];
  }

  lemma CommentLineCorrected(src: string)
    requires src == "// a\nb"
    ensures LexFromCorrected(src, 5, 1) == Some([Token(1, IDENTIFIER("b"))])
  {
    assert src[5] == 'b' && |src| == 6;
    assert src[5..6] == "b";
    WordToken(src, 5, 1, 6);
    assert KeywordKind("b") == None;
    NextOffComment(src, 5, 1);
    assert LexFromCorrected(src, 6, 1) == Some([]);
    assert [Token(1, IDENTIFIER("b"))] + [] == [Token(1, IDENTIFIER("b"))];
  }
}
