/** The newer generation's scanner: characters in, a stream of tokens or
    scan errors out, always closed by exactly one `Eof` token. The peeking
    character iterator becomes an index into the character sequence. */
module Scanner {
  import opened Basics
  import opened Tokens

  predicate IsDigit(c: char) { '0' <= c <= '9' }

  predicate IsAlpha(c: char) { ('a' <= c <= 'z') || ('A' <= c <= 'Z') || c == '_' }

  predicate IsAlphaNumeric(c: char) { IsAlpha(c) || IsDigit(c) }

  /** The character classes the scanner collects runs of. */
  datatype CharClass = Digits | AlphaNumerics | NotNewline | NotQuote

  predicate InClass(cls: CharClass, c: char)
  {
    match cls
    case Digits => IsDigit(c)
    case AlphaNumerics => IsAlphaNumeric(c)
    case NotNewline => c != '\n'
    case NotQuote => c != '"'
  }

  datatype ScanErrorKind = UnexpectedCharacter(c: char) | UnterminatedString

  datatype ScanError = ScanError(kind: ScanErrorKind, line: nat)

  type ScanItem = Result<Token, ScanError>

  function ItemLine(item: ScanItem): nat
  {
    match item
    case Ok(t) => t.line
    case Err(e) => e.line
  }

  predicate IsEof(item: ScanItem)
  {
    item.Ok? && item.value.lexeme == Eof
  }

  /** `collect_while`: the end of the longest run starting at `from` whose
      characters all satisfy `cls`. */
  function CollectWhile(chars: seq<char>, from: nat, cls: CharClass): (end: nat)
    requires from <= |chars|
    ensures from <= end <= |chars|
    ensures forall k :: from <= k < end ==> InClass(cls, chars[k])
    ensures end == |chars| || !InClass(cls, chars[end])
    decreases |chars| - from
  {
    if from < |chars| && InClass(cls, chars[from]) then CollectWhile(chars, from + 1, cls) else from
  }

  /** The run end is determined by the run's characters and the first one
      that fails `cls`. */
  lemma CollectWhileAt(chars: seq<char>, from: nat, cls: CharClass, end: nat)
    requires from <= end <= |chars|
    requires forall k :: from <= k < end ==> InClass(cls, chars[k])
    requires end == |chars| || !InClass(cls, chars[end])
    ensures CollectWhile(chars, from, cls) == end
  {
  }

  /** Leading zeros removed from a digit string, keeping at least one digit. */
  function StripLeadingZeros(s: string): (r: string)
    ensures |r| <= |s| && (|s| > 0 ==> |r| > 0)
    ensures |r| > 1 ==> r[0] != '0'
  {
    if |s| > 1 && s[0] == '0' then StripLeadingZeros(s[1..]) else s
  }

  /** Trailing zeros removed from a fraction's digits. */
  function StripTrailingZeros(s: string): (r: string)
    ensures |r| <= |s|
    ensures |r| > 0 ==> r[|r| - 1] != '0'
  {
    if |s| > 0 && s[|s| - 1] == '0' then StripTrailingZeros(s[..|s| - 1]) else s
  }

  /** The canonical numeral of a scanned literal with the given whole and
      fractional digits (the float the source parses, kept exact). */
  function ToNumeral(whole: string, frac: string): Numeral
  {
    Numeral(StripLeadingZeros(whole), StripTrailingZeros(frac))
  }

  /** One pull of the scanner before the `done` flag is consulted: the
      produced item, where scanning resumes, the line counter afterwards,
      and whether the item was the end of input. */
  datatype Lexed = Lexed(item: ScanItem, pos: nat, line: nat, done: bool)

  function Emit(l: Lexeme, pos: nat, line: nat): Lexed
  {
    Lexed(Ok(Token(l, line)), pos, line, false)
  }

  /** `if_match`: the two-character lexeme when the next character is
      `cmp` (which is then consumed), else the one-character lexeme. */
  function IfMatch(chars: seq<char>, pos: nat, line: nat, cmp: char, matched: Lexeme, unmatched: Lexeme): Lexed
    requires pos <= |chars|
  {
    if pos < |chars| && chars[pos] == cmp then Emit(matched, pos + 1, line)
    else Emit(unmatched, pos, line)
  }

  /** `string`: `start` is just past the opening quote. Newlines inside the
      literal advance the line before the token is built. */
  function StringLiteral(chars: seq<char>, start: nat, line: nat): (r: Lexed)
    requires 0 < start <= |chars|
    ensures start <= r.pos <= |chars| && r.line >= line && !r.done
  {
    var end := CollectWhile(chars, start, NotQuote);
    var after := line + Count(chars[start..end], '\n');
    if end == |chars| then Lexed(Err(ScanError(UnterminatedString, after)), end, after, false)
    else Lexed(Ok(Token(String(chars[start..end]), after)), end + 1, after, false)
  }

  /** `number`: a digit run, extended by `.` and a second digit run only
      when a digit follows the dot. */
  function NumberLiteral(chars: seq<char>, pos: nat, line: nat): (r: Lexed)
    requires pos < |chars| && IsDigit(chars[pos])
    ensures pos < r.pos <= |chars| && r.line == line && !r.done
  {
    var wholeEnd := CollectWhile(chars, pos + 1, Digits);
    if wholeEnd + 1 < |chars| && chars[wholeEnd] == '.' && IsDigit(chars[wholeEnd + 1]) then
      var fracEnd := CollectWhile(chars, wholeEnd + 1, Digits);
      Emit(Number(ToNumeral(chars[pos..wholeEnd], chars[wholeEnd + 1..fracEnd])), fracEnd, line)
    else
      Emit(Number(ToNumeral(chars[pos..wholeEnd], "")), wholeEnd, line)
  }

  /** `identifier`: a maximal alphanumeric run, then the reserved-word
      table. */
  function IdentifierWord(chars: seq<char>, pos: nat, line: nat): (r: Lexed)
    requires pos < |chars| && IsAlpha(chars[pos])
    ensures pos < r.pos <= |chars| && r.line == line && !r.done
  {
    var end := CollectWhile(chars, pos + 1, AlphaNumerics);
    Emit(WordLexeme(chars[pos..end]), end, line)
  }

  /** A word's lexeme: its keyword when it is a reserved word, an
      identifier naming it otherwise. */
  function WordLexeme(word: string): Lexeme
  {
    if KeywordFor(word).Some? then KeywordFor(word).value else Identifier(word)
  }

  /** The lexemes that are always exactly one character. */
  function SingleCharLexeme(c: char): (r: Option<Lexeme>)
  {
    if c == '(' then Some(LeftParen)
    else if c == ')' then Some(RightParen)
    else if c == '{' then Some(LeftBrace)
    else if c == '}' then Some(RightBrace)
    else if c == ',' then Some(Comma)
    else if c == '.' then Some(Dot)
    else if c == '-' then Some(Minus)
    else if c == '+' then Some(Plus)
    else if c == ';' then Some(Semicolon)
    else if c == '*' then Some(Star)
    else None
  }

  function OneCharOperator(c: char): Lexeme
    requires c == '!' || c == '=' || c == '<' || c == '>'
  {
    if c == '!' then Bang else if c == '=' then Equal else if c == '<' then Less else Greater
  }

  function TwoCharOperator(c: char): Lexeme
    requires c == '!' || c == '=' || c == '<' || c == '>'
  {
    if c == '!' then BangEqual else if c == '=' then EqualEqual else if c == '<' then LessEqual else GreaterEqual
  }

  predicate CommentStart(chars: seq<char>, pos: nat)
  {
    pos + 1 < |chars| && chars[pos] == '/' && chars[pos + 1] == '/'
  }

  /** Where scanning resumes after a `//` comment: `take_while` also
      swallows the newline that ends it. */
  function CommentResume(chars: seq<char>, pos: nat): (resume: nat)
    requires CommentStart(chars, pos)
    ensures pos + 2 <= resume <= |chars|
  {
    var eol := CollectWhile(chars, pos + 1, NotNewline);
    if eol < |chars| then eol + 1 else eol
  }

  /** Characters that produce no token: blanks, newlines and the start
      of a `//` comment. */
  predicate Trivia(chars: seq<char>, pos: nat)
    requires pos < |chars|
  {
    CommentStart(chars, pos) || chars[pos] in {' ', '\r', '\t', '\n'}
  }

  /** The skipping half of `next`, which recurses into itself after a
      blank, a newline or a comment: where the next token starts and the
      line counter there. */
  function SkipTrivia(chars: seq<char>, pos: nat, line: nat): (r: (nat, nat))
    requires pos <= |chars|
    ensures pos <= r.0 <= |chars| && line <= r.1
    ensures r.0 == |chars| || !Trivia(chars, r.0)
    decreases |chars| - pos
  {
    if pos == |chars| then (pos, line)
    else if CommentStart(chars, pos) then SkipTrivia(chars, CommentResume(chars, pos), line)
    else if chars[pos] == ' ' || chars[pos] == '\r' || chars[pos] == '\t' then SkipTrivia(chars, pos + 1, line)
    else if chars[pos] == '\n' then SkipTrivia(chars, pos + 1, line + 1)
    else (pos, line)
  }

  /** The producing half of `next`: one item from a position that is not
      trivia. */
  function LexToken(chars: seq<char>, pos: nat, line: nat): (r: Lexed)
    requires pos <= |chars|
    requires pos == |chars| || !Trivia(chars, pos)
    ensures pos <= r.pos <= |chars|
    ensures line <= r.line
    ensures ItemLine(r.item) == r.line
    ensures r.done <==> IsEof(r.item)
    ensures r.done ==> r.pos == |chars|
    ensures !r.done ==> pos < r.pos
  {
    if pos == |chars| then Lexed(Ok(Token(Eof, line)), pos, line, true)
    else
      var c := chars[pos];
      var next := pos + 1;
      if SingleCharLexeme(c).Some? then Emit(SingleCharLexeme(c).value, next, line)
      else if c == '!' || c == '=' || c == '<' || c == '>' then
        IfMatch(chars, next, line, '=', TwoCharOperator(c), OneCharOperator(c))
      else if c == '/' then Emit(Slash, next, line)
      else if c == '"' then StringLiteral(chars, next, line)
      else if IsDigit(c) then NumberLiteral(chars, pos, line)
      else if IsAlpha(c) then IdentifierWord(chars, pos, line)
      else Lexed(Err(ScanError(UnexpectedCharacter(c), line)), next, line, false)
  }

  /** The body of `next` once `done` is known to be false: skip trivia,
      then produce one item. */
  function Lex(chars: seq<char>, pos: nat, line: nat): (r: Lexed)
    requires pos <= |chars|
    ensures pos <= r.pos <= |chars|
    ensures line <= r.line
    ensures ItemLine(r.item) == r.line
    ensures r.done <==> IsEof(r.item)
    ensures r.done ==> r.pos == |chars|
    ensures !r.done ==> pos < r.pos
  {
    var (start, startLine) := SkipTrivia(chars, pos, line);
    LexToken(chars, start, startLine)
  }

  /** The iterator's state: position, line counter and the `done` flag set
      once `Eof` has been produced. */
  datatype ScanState = ScanState(pos: nat, line: nat, done: bool)

  const Start: ScanState := ScanState(0, 0, false)

  /** `Scanner::next`. */
  function Next(chars: seq<char>, s: ScanState): (r: (Option<ScanItem>, ScanState))
    requires s.pos <= |chars|
    ensures r.0.None? <==> s.done
    ensures s.done ==> r.1 == s
    ensures r.1.pos <= |chars|
    ensures r.0.Some? ==> ItemLine(r.0.value) == r.1.line && s.line <= r.1.line
    ensures r.0.Some? ==> (IsEof(r.0.value) <==> r.1.done)
    ensures !s.done && !r.1.done ==> s.pos < r.1.pos
  {
    if s.done then (None, s)
    else
      var l := Lex(chars, s.pos, s.line);
      (Some(l.item), ScanState(l.pos, l.line, l.done))
  }

  /** Everything the iterator yields from state `s` on. */
  function ScanFrom(chars: seq<char>, s: ScanState): (items: seq<ScanItem>)
    requires s.pos <= |chars|
    decreases (if s.done then 0 else 1), |chars| - s.pos
  {
    match Next(chars, s)
    case (None, _) => []
    case (Some(item), s') => [item] + ScanFrom(chars, s')
  }

  /** The stream is well formed: exactly one `Eof`, in last place, and
      lines that start at the state's line and never go down. */
  predicate WellFormedStream(items: seq<ScanItem>, line: nat)
  {
    && |items| > 0 && IsEof(items[|items| - 1])
    && (forall i :: 0 <= i < |items| - 1 ==> !IsEof(items[i]))
    && (forall i :: 0 <= i < |items| ==> line <= ItemLine(items[i]))
    && (forall i, j :: 0 <= i < j < |items| ==> ItemLine(items[i]) <= ItemLine(items[j]))
  }

  lemma {:induction false} ScanFromWellFormed(chars: seq<char>, s: ScanState)
    requires s.pos <= |chars|
    ensures s.done ==> ScanFrom(chars, s) == []
    ensures !s.done ==> WellFormedStream(ScanFrom(chars, s), s.line)
    decreases (if s.done then 0 else 1), |chars| - s.pos
  {
    if !s.done {
      var (item, s') := Next(chars, s);
      ScanFromWellFormed(chars, s');
      var rest := ScanFrom(chars, s');
      var items := ScanFrom(chars, s);
      assert items == [item.value] + rest;
      if s'.done {
        assert items == [item.value];
      } else {
        assert forall i :: 0 < i < |items| ==> items[i] == rest[i - 1];
      }
    }
  }

  /** Everything the scanner yields for a source text. */
  function Scan(chars: seq<char>): (items: seq<ScanItem>)
  {
    ScanFrom(chars, Start)
  }

  /** Whatever the source text, the stream ends in its one `Eof` and its
      lines never go down. */
  lemma ScanWellFormed(chars: seq<char>)
    ensures WellFormedStream(Scan(chars), 0)
  {
    ScanFromWellFormed(chars, Start);
  }

  /** The items of `n` successive pulls and the state they leave. */
  function Pulls(chars: seq<char>, s: ScanState, n: nat): (seq<Option<ScanItem>>, ScanState)
    requires s.pos <= |chars|
    decreases n
  {
    if n == 0 then ([], s)
    else
      var (item, s') := Next(chars, s);
      var (rest, last) := Pulls(chars, s', n - 1);
      ([item] + rest, last)
  }

  /** A finished scanner yields nothing, however often it is pulled. */
  lemma {:induction false} PullsWhenDone(chars: seq<char>, s: ScanState, n: nat)
    requires s.pos <= |chars| && s.done
    ensures |Pulls(chars, s, n).0| == n
    ensures forall i :: 0 <= i < n ==> Pulls(chars, s, n).0[i].None?
    ensures Pulls(chars, s, n).1 == s
    decreases n
  {
    if n > 0 {
      PullsWhenDone(chars, s, n - 1);
    }
  }

  /** Once `Eof` has been produced every later pull yields nothing and
      leaves the state alone. */
  lemma AfterEofOnlyNone(chars: seq<char>, s: ScanState, n: nat)
    requires s.pos <= |chars|
    requires Next(chars, s).0.Some? && IsEof(Next(chars, s).0.value)
    ensures Next(chars, s).1.done
    ensures |Pulls(chars, Next(chars, s).1, n).0| == n
    ensures forall i :: 0 <= i < n ==> Pulls(chars, Next(chars, s).1, n).0[i].None?
    ensures Pulls(chars, Next(chars, s).1, n).1 == Next(chars, s).1
  {
    PullsWhenDone(chars, Next(chars, s).1, n);
  }

  // ---------------------------------------------------------------------
  // Properties of a single pull

  /** `! = < >` take the following `=` when there is one, and nothing more
      otherwise. */
  lemma OperatorLookahead(chars: seq<char>, pos: nat, line: nat)
    requires pos < |chars|
    requires chars[pos] == '!' || chars[pos] == '=' || chars[pos] == '<' || chars[pos] == '>'
    ensures pos + 1 < |chars| && chars[pos + 1] == '=' ==>
      Lex(chars, pos, line) == Emit(TwoCharOperator(chars[pos]), pos + 2, line)
    ensures !(pos + 1 < |chars| && chars[pos + 1] == '=') ==>
      Lex(chars, pos, line) == Emit(OneCharOperator(chars[pos]), pos + 1, line)
  {
  }

  /** A `//` comment ending in a newline yields nothing, and that newline
      does not advance the line counter. */
  lemma CommentSkipped(chars: seq<char>, pos: nat, line: nat, eol: nat)
    requires pos + 2 <= eol < |chars|
    requires chars[pos] == '/' && chars[pos + 1] == '/'
    requires forall k :: pos + 2 <= k < eol ==> chars[k] != '\n'
    requires chars[eol] == '\n'
    ensures Lex(chars, pos, line) == Lex(chars, eol + 1, line)
  {
    CollectWhileAt(chars, pos + 1, NotNewline, eol);
  }

  /** A comment running to the end of the input is followed directly by
      `Eof` on the same line. */
  lemma CommentAtEnd(chars: seq<char>, pos: nat, line: nat)
    requires pos + 2 <= |chars|
    requires chars[pos] == '/' && chars[pos + 1] == '/'
    requires forall k :: pos + 2 <= k < |chars| ==> chars[k] != '\n'
    ensures Lex(chars, pos, line) == Lexed(Ok(Token(Eof, line)), |chars|, line, true)
  {
    CollectWhileAt(chars, pos + 1, NotNewline, |chars|);
    assert SkipTrivia(chars, pos, line) == SkipTrivia(chars, |chars|, line) == (|chars|, line);
  }

  /** Blanks and comments produce nothing; a newline produces nothing but
      a line; every other character leaves the line counter alone. */
  lemma LexSkips(chars: seq<char>, pos: nat, line: nat)
    requires pos < |chars|
    ensures CommentStart(chars, pos) ==> Lex(chars, pos, line) == Lex(chars, CommentResume(chars, pos), line)
    ensures chars[pos] == ' ' || chars[pos] == '\r' || chars[pos] == '\t' ==>
      Lex(chars, pos, line) == Lex(chars, pos + 1, line)
    ensures chars[pos] == '\n' ==> Lex(chars, pos, line) == Lex(chars, pos + 1, line + 1)
    ensures !CommentStart(chars, pos) && chars[pos] !in {' ', '\r', '\t', '\n', '"'} ==> Lex(chars, pos, line).line == line
  {
  }

  /** An identifier pull whose word ends at `end`. */
  lemma IdentifierWordAt(chars: seq<char>, pos: nat, line: nat, end: nat)
    requires pos < end <= |chars| && IsAlpha(chars[pos])
    requires forall k :: pos < k < end ==> IsAlphaNumeric(chars[k])
    requires end == |chars| || !IsAlphaNumeric(chars[end])
    ensures LexToken(chars, pos, line) == IdentifierWord(chars, pos, line)
    ensures IdentifierWord(chars, pos, line) == Emit(WordLexeme(chars[pos..end]), end, line)
  {
    CollectWhileAt(chars, pos + 1, AlphaNumerics, end);
  }

  /** Which sub-scanner a pull hands over to, by the first character. */
  lemma LexDispatch(chars: seq<char>, pos: nat, line: nat)
    requires pos < |chars|
    ensures chars[pos] == '"' ==> Lex(chars, pos, line) == StringLiteral(chars, pos + 1, line)
    ensures IsDigit(chars[pos]) ==> Lex(chars, pos, line) == NumberLiteral(chars, pos, line)
    ensures IsAlpha(chars[pos]) ==> Lex(chars, pos, line) == IdentifierWord(chars, pos, line)
  {
    if chars[pos] == '"' || IsDigit(chars[pos]) || IsAlpha(chars[pos]) {
      assert SkipTrivia(chars, pos, line) == (pos, line);
    }
  }

  /** A terminated string literal yields its contents without the quotes,
      on the line reached after the newlines it contains. */
  lemma StringScanned(chars: seq<char>, pos: nat, line: nat, close: nat)
    requires pos < close < |chars|
    requires chars[pos] == '"' && chars[close] == '"'
    requires forall k :: pos < k < close ==> chars[k] != '"'
    ensures var after := line + Count(chars[pos + 1..close], '\n');
      Lex(chars, pos, line) == Lexed(Ok(Token(String(chars[pos + 1..close]), after)), close + 1, after, false)
  {
    LexDispatch(chars, pos, line);
    CollectWhileAt(chars, pos + 1, NotQuote, close);
  }

  /** Input ending before the closing quote yields `UnterminatedString`. */
  lemma UnterminatedStringScanned(chars: seq<char>, pos: nat, line: nat)
    requires pos < |chars| && chars[pos] == '"'
    requires forall k :: pos < k < |chars| ==> chars[k] != '"'
    ensures var after := line + Count(chars[pos + 1..], '\n');
      Lex(chars, pos, line) == Lexed(Err(ScanError(UnterminatedString, after)), |chars|, after, false)
  {
    LexDispatch(chars, pos, line);
    CollectWhileAt(chars, pos + 1, NotQuote, |chars|);
    assert chars[pos + 1..|chars|] == chars[pos + 1..];
  }

  predicate AllDigits(s: string)
  {
    forall k :: 0 <= k < |s| ==> IsDigit(s[k])
  }

  /** A number is a maximal digit run, with a fraction only when a digit
      follows the dot; a dot without a digit after it is left alone. */
  lemma NumberScanned(chars: seq<char>, pos: nat, line: nat)
    requires pos < |chars| && IsDigit(chars[pos])
    ensures var r := NumberLiteral(chars, pos, line);
      var wholeEnd := CollectWhile(chars, pos, Digits);
      && AllDigits(chars[pos..wholeEnd])
      && (if wholeEnd + 1 < |chars| && chars[wholeEnd] == '.' && IsDigit(chars[wholeEnd + 1]) then
            && wholeEnd + 2 <= r.pos
            && AllDigits(chars[wholeEnd + 1..r.pos])
            && (r.pos == |chars| || !IsDigit(chars[r.pos]))
            && r == Emit(Number(ToNumeral(chars[pos..wholeEnd], chars[wholeEnd + 1..r.pos])), r.pos, line)
          else
            && r.pos == wholeEnd
            && r == Emit(Number(ToNumeral(chars[pos..wholeEnd], "")), r.pos, line))
  {
    var wholeEnd := CollectWhile(chars, pos + 1, Digits);
    CollectWhileAt(chars, pos, Digits, wholeEnd);
    assert AllDigits(chars[pos..wholeEnd]);
    if wholeEnd + 1 < |chars| && chars[wholeEnd] == '.' && IsDigit(chars[wholeEnd + 1]) {
      var fracEnd := CollectWhile(chars, wholeEnd + 1, Digits);
      assert AllDigits(chars[wholeEnd + 1..fracEnd]);
    }
  }

  /** An identifier is a maximal alphanumeric run; exactly the reserved
      words become keyword lexemes. */
  lemma IdentifierScanned(chars: seq<char>, pos: nat, line: nat)
    requires pos < |chars| && IsAlpha(chars[pos])
    ensures var r := Lex(chars, pos, line);
      var word := chars[pos..r.pos];
      && (forall k :: pos <= k < r.pos ==> IsAlphaNumeric(chars[k]))
      && (r.pos == |chars| || !IsAlphaNumeric(chars[r.pos]))
      && r.item == Ok(Token(WordLexeme(word), line))
  {
    LexDispatch(chars, pos, line);
  }

  /** Characters that start a token or are skipped. */
  predicate Recognized(c: char)
  {
    SingleCharLexeme(c).Some? || c in {'!', '=', '<', '>', '/', ' ', '\r', '\t', '\n', '"'}
    || IsDigit(c) || IsAlpha(c)
  }

  /** Any other character is reported and scanning goes on after it. */
  lemma UnexpectedCharacterReported(chars: seq<char>, pos: nat, line: nat)
    requires pos < |chars| && !Recognized(chars[pos])
    ensures Lex(chars, pos, line) == Lexed(Err(ScanError(UnexpectedCharacter(chars[pos]), line)), pos + 1, line, false)
    ensures ScanFrom(chars, ScanState(pos, line, false))
         == [Err(ScanError(UnexpectedCharacter(chars[pos]), line))] + ScanFrom(chars, ScanState(pos + 1, line, false))
  {
    var c := chars[pos];
    assert !Trivia(chars, pos);
    assert SkipTrivia(chars, pos, line) == (pos, line);
    assert SingleCharLexeme(c).None?;
    assert LexToken(chars, pos, line) == Lexed(Err(ScanError(UnexpectedCharacter(c), line)), pos + 1, line, false);
  }

  /** Skipping trivia advances the line counter once per newline it
      passes over, and a comment's closing newline not at all. */
  lemma {:induction false} SkipTriviaLineBound(chars: seq<char>, pos: nat, line: nat)
    requires pos <= |chars|
    ensures var r := SkipTrivia(chars, pos, line);
      r.1 <= line + Count(chars[pos..r.0], '\n')
    decreases |chars| - pos
  {
    var r := SkipTrivia(chars, pos, line);
    if pos < |chars| {
      if CommentStart(chars, pos) {
        var resume := CommentResume(chars, pos);
        SkipTriviaLineBound(chars, resume, line);
        CountSplit(chars, pos, resume, r.0, '\n');
      } else if chars[pos] == ' ' || chars[pos] == '\r' || chars[pos] == '\t' {
        SkipTriviaLineBound(chars, pos + 1, line);
        CountSplit(chars, pos, pos + 1, r.0, '\n');
      } else if chars[pos] == '\n' {
        SkipTriviaLineBound(chars, pos + 1, line + 1);
        CountSplit(chars, pos, pos + 1, r.0, '\n');
        assert chars[pos..pos + 1] == ['\n'];
      }
    }
  }

  /** Only a string literal moves the line counter while producing an
      item, by the newlines inside it. */
  lemma LexTokenLineBound(chars: seq<char>, pos: nat, line: nat)
    requires pos <= |chars|
    requires pos == |chars| || !Trivia(chars, pos)
    ensures var r := LexToken(chars, pos, line);
      r.line <= line + Count(chars[pos..r.pos], '\n')
  {
    var r := LexToken(chars, pos, line);
    if pos < |chars| && chars[pos] == '"' {
      assert r == StringLiteral(chars, pos + 1, line);
      var end := CollectWhile(chars, pos + 1, NotQuote);
      CountSplit(chars, pos, pos + 1, end, '\n');
      CountSplit(chars, pos, end, r.pos, '\n');
    }
  }

  /** Token lines never exceed the starting line plus the newlines
      consumed: the counter only ever moves on a newline. */
  lemma LexLineBound(chars: seq<char>, pos: nat, line: nat)
    requires pos <= |chars|
    ensures var r := Lex(chars, pos, line);
      r.line <= line + Count(chars[pos..r.pos], '\n')
  {
    var (start, startLine) := SkipTrivia(chars, pos, line);
    SkipTriviaLineBound(chars, pos, line);
    LexTokenLineBound(chars, start, startLine);
    CountSplit(chars, pos, start, Lex(chars, pos, line).pos, '\n');
  }

  // ---------------------------------------------------------------------
  // Worked examples

  function Tok(l: Lexeme, line: nat): ScanItem { Ok(Token(l, line)) }

  /** One pull, unfolded: the stream from a live state is the pulled item
      followed by the stream from the state after it. */
  lemma ScanStep(chars: seq<char>, pos: nat, line: nat, l: Lexed)
    requires pos <= |chars| && Lex(chars, pos, line) == l
    ensures ScanFrom(chars, ScanState(pos, line, false)) == [l.item] + ScanFrom(chars, ScanState(l.pos, l.line, l.done))
  {
  }

  lemma ExampleComment(src: string)
    requires src == "{} // foo"
    ensures Scan(src) == [Tok(LeftBrace, 0), Tok(RightBrace, 0), Tok(Eof, 0)]
  {
    assert SkipTrivia(src, 0, 0) == (0, 0);
    ScanStep(src, 0, 0, Emit(LeftBrace, 1, 0));
    assert SkipTrivia(src, 1, 0) == (1, 0);
    ScanStep(src, 1, 0, Emit(RightBrace, 2, 0));
    CollectWhileAt(src, 4, NotNewline, 9);
    assert SkipTrivia(src, 2, 0) == SkipTrivia(src, 3, 0) == SkipTrivia(src, 9, 0) == (9, 0);
    ScanStep(src, 2, 0, Lexed(Tok(Eof, 0), 9, 0, true));
  }

  /** The individual pulls over the source, one position at a time. */
  lemma ExampleStringsPull0(src: string)
    requires |src| == 15 && src[0] == '"' && src[1] == 'f' && src[2] == 'o' && src[3] == 'o' && src[4] == '"'
    ensures Lex(src, 0, 0) == Lexed(Tok(String("foo"), 0), 5, 0, false)
  {
    assert SkipTrivia(src, 0, 0) == (0, 0);
    assert src[1..4] == "foo";
    StringScanned(src, 0, 0, 4);
  }

  lemma ExampleStringsPull5(src: string)
    requires src == "\"foo\" == \"bar\" "
    ensures Lex(src, 5, 0) == Emit(EqualEqual, 8, 0)
  {
    assert SkipTrivia(src, 5, 0) == SkipTrivia(src, 6, 0) == (6, 0);
  }

  lemma ExampleStringsPull8(src: string)
    requires |src| == 15 && src[8] == ' ' && src[9] == '"' && src[10] == 'b' && src[11] == 'a' && src[12] == 'r'
    requires src[13] == '"'
    ensures Lex(src, 8, 0) == Lexed(Tok(String("bar"), 0), 14, 0, false)
  {
    assert SkipTrivia(src, 8, 0) == SkipTrivia(src, 9, 0) == (9, 0);
    assert src[10..13] == "bar";
    StringScanned(src, 9, 0, 13);
  }

  lemma ExampleStringsPull14(src: string)
    requires src == "\"foo\" == \"bar\" "
    ensures Lex(src, 14, 0) == Lexed(Tok(Eof, 0), 15, 0, true)
  {
    assert SkipTrivia(src, 14, 0) == SkipTrivia(src, 15, 0) == (15, 0);
  }

  /** The characters of the text the string examples scan. */
  lemma StringsText(src: string)
    requires src == "\"foo\" == \"bar\" "
    ensures |src| == 15 && src[0] == '"' && src[1] == 'f' && src[2] == 'o' && src[3] == 'o' && src[4] == '"'
    ensures src[8] == ' ' && src[9] == '"' && src[10] == 'b' && src[11] == 'a' && src[12] == 'r' && src[13] == '"'
  {
  }

  lemma ExampleStrings(src: string)
    requires src == "\"foo\" == \"bar\" "
    ensures Scan(src)
         == [Tok(String("foo"), 0), Tok(EqualEqual, 0), Tok(String("bar"), 0), Tok(Eof, 0)]
  {
    StringsText(src);
    ExampleStringsPull0(src);
    ExampleStringsPull5(src);
    ExampleStringsPull8(src);
    ExampleStringsPull14(src);
    ScanStep(src, 0, 0, Lexed(Tok(String("foo"), 0), 5, 0, false));
    ScanStep(src, 5, 0, Emit(EqualEqual, 8, 0));
    ScanStep(src, 8, 0, Lexed(Tok(String("bar"), 0), 14, 0, false));
    ScanStep(src, 14, 0, Lexed(Tok(Eof, 0), 15, 0, true));
  }

  lemma ExampleAdditionPull0(src: string)
    requires src == "1+2.0"
    ensures Lex(src, 0, 0) == Emit(Number(Numeral("1", "")), 1, 0)
  {
    assert SkipTrivia(src, 0, 0) == (0, 0);
    CollectWhileAt(src, 1, Digits, 1);
    assert src[0..1] == "1";
  }

  lemma ExampleAdditionPull1(src: string)
    requires src == "1+2.0"
    ensures Lex(src, 1, 0) == Emit(Plus, 2, 0)
  {
    assert SkipTrivia(src, 1, 0) == (1, 0);
  }

  lemma ExampleAdditionPull2(src: string)
    requires src == "1+2.0"
    ensures Lex(src, 2, 0) == Emit(Number(Numeral("2", "")), 5, 0)
  {
    assert SkipTrivia(src, 2, 0) == (2, 0);
    CollectWhileAt(src, 3, Digits, 3);
    CollectWhileAt(src, 4, Digits, 5);
    assert src[2..3] == "2" && src[4..5] == "0";
    assert StripTrailingZeros("0") == StripTrailingZeros("") == "";
  }

  lemma ExampleAdditionPull5(src: string)
    requires src == "1+2.0"
    ensures Lex(src, 5, 0) == Lexed(Tok(Eof, 0), 5, 0, true)
  {
    assert SkipTrivia(src, 5, 0) == (5, 0);
  }

  /** A fraction of zeros compares equal to the whole number. */
  lemma ExampleAddition(src: string)
    requires src == "1+2.0"
    ensures Scan(src)
         == [Tok(Number(Numeral("1", "")), 0), Tok(Plus, 0), Tok(Number(Numeral("2", "")), 0), Tok(Eof, 0)]
  {
    ExampleAdditionPull0(src);
    ExampleAdditionPull1(src);
    ExampleAdditionPull2(src);
    ExampleAdditionPull5(src);
    ScanStep(src, 0, 0, Emit(Number(Numeral("1", "")), 1, 0));
    ScanStep(src, 1, 0, Emit(Plus, 2, 0));
    ScanStep(src, 2, 0, Emit(Number(Numeral("2", "")), 5, 0));
    ScanStep(src, 5, 0, Lexed(Tok(Eof, 0), 5, 0, true));
  }

  /** The lexemes of the example's words. */
  lemma WordLexemes()
    ensures WordLexeme("and") == And
    ensures WordLexeme("while") == While
    ensures WordLexeme("andd") == Identifier("andd")
  {
  }

  lemma ExampleNewlinesPull0(src: string)
    requires |src| == 17 && src[0] == '\n' && src[1] == 'a' && src[2] == 'n' && src[3] == 'd' && src[4] == ' '
    ensures Lex(src, 0, 0) == Emit(And, 4, 1)
  {
    assert SkipTrivia(src, 0, 0) == SkipTrivia(src, 1, 1) == (1, 1);
    assert src[1..4] == "and";
    WordLexemes();
    IdentifierWordAt(src, 1, 1, 4);
  }

  lemma ExampleNewlinesPull4(src: string)
    requires |src| == 17 && src[4] == ' ' && src[5] == 'w' && src[6] == 'h' && src[7] == 'i' && src[8] == 'l'
    requires src[9] == 'e' && src[10] == '\n'
    ensures Lex(src, 4, 1) == Emit(While, 10, 1)
  {
    assert SkipTrivia(src, 4, 1) == SkipTrivia(src, 5, 1) == (5, 1);
    assert src[5..10] == "while";
    WordLexemes();
    IdentifierWordAt(src, 5, 1, 10);
  }

  lemma ExampleNewlinesPull10(src: string)
    requires |src| == 17 && src[10] == '\n' && src[11] == '\n' && src[12] == 'a' && src[13] == 'n' && src[14] == 'd'
    requires src[15] == 'd' && src[16] == '\n'
    ensures Lex(src, 10, 1) == Emit(Identifier("andd"), 16, 3)
  {
    assert SkipTrivia(src, 10, 1) == SkipTrivia(src, 11, 2) == SkipTrivia(src, 12, 3) == (12, 3);
    assert src[12..16] == "andd";
    WordLexemes();
    IdentifierWordAt(src, 12, 3, 16);
  }

  lemma ExampleNewlinesPull16(src: string)
    requires src == "\nand while\n\nandd\n"
    ensures Lex(src, 16, 3) == Lexed(Tok(Eof, 4), 17, 4, true)
  {
    assert SkipTrivia(src, 16, 3) == SkipTrivia(src, 17, 4) == (17, 4);
  }

  /** The characters of the text the newline examples scan. */
  lemma NewlinesText(src: string)
    requires src == "\nand while\n\nandd\n"
    ensures |src| == 17 && src[0] == '\n' && src[1] == 'a' && src[2] == 'n' && src[3] == 'd' && src[4] == ' '
    ensures src[5] == 'w' && src[6] == 'h' && src[7] == 'i' && src[8] == 'l' && src[9] == 'e' && src[10] == '\n'
    ensures src[11] == '\n' && src[12] == 'a' && src[13] == 'n' && src[14] == 'd' && src[15] == 'd' && src[16] == '\n'
  {
  }

  /** Tokens carry the line reached by the newlines before them; a word
      that merely starts with a keyword is an identifier. */
  lemma ExampleNewlines(src: string)
    requires src == "\nand while\n\nandd\n"
    ensures Scan(src)
         == [Tok(And, 1), Tok(While, 1), Tok(Identifier("andd"), 3), Tok(Eof, 4)]
  {
    NewlinesText(src);
    ExampleNewlinesPull0(src);
    ExampleNewlinesPull4(src);
    ExampleNewlinesPull10(src);
    ExampleNewlinesPull16(src);
    ScanStep(src, 0, 0, Emit(And, 4, 1));
    ScanStep(src, 4, 1, Emit(While, 10, 1));
    ScanStep(src, 10, 1, Emit(Identifier("andd"), 16, 3));
    ScanStep(src, 16, 3, Lexed(Tok(Eof, 4), 17, 4, true));
  }

  lemma ExampleUnexpected(src: string)
    requires src == "/\U{B7}"
    ensures Scan(src) == [Tok(Slash, 0), Err(ScanError(UnexpectedCharacter('\U{B7}'), 0)), Tok(Eof, 0)]
  {
    assert SkipTrivia(src, 0, 0) == (0, 0);
    ScanStep(src, 0, 0, Emit(Slash, 1, 0));
    UnexpectedCharacterReported(src, 1, 0);
    assert SkipTrivia(src, 2, 0) == (2, 0);
    ScanStep(src, 2, 0, Lexed(Tok(Eof, 0), 2, 0, true));
  }
}
