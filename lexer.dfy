/** The lexer: turns the source text into a token list ending in an EOF token.
    `ScanOne` is one turn of the scanning loop, `Lex` the whole scan, and the
    method `Tokenize` is the loop itself, proved to compute `Lex`. */
module Lexer {
  import opened Wrappers

  datatype TokenType =
    | Null | Int | Float | Identifier | String
    | Var | Declare | Const | Def | If | Else | While
    | And | Or | Not | UnaryPlus | UnaryMinus | BinaryOperator | Equals
    | Comma | Dot | Colon | Semicolon
    | SingleLineComment | MultiLineCommentStart | MultiLineCommentEnd
    | OpenParen | CloseParen | OpenBrace | CloseBrace | OpenBracket | CloseBracket
    | DoubleEquals | NotEquals | LessThan | GreaterThan | LessThanOrEquals | GreaterThanOrEquals
    | EOF

  datatype Token = Token(value: string, kind: TokenType)

  /** The token that closes every token list. */
  const EndOfFile := Token("EndOfFile", EOF)

  /** The reserved-word table; a word not in it is an Identifier. */
  const Keywords: map<string, TokenType> := map[
    "var" := Var, "declare" := Declare, "const" := Const, "def" := Def,
    "null" := Null, "and" := And, "or" := Or, "not" := Not,
    "if" := If, "else" := Else, "while" := While]

  /** The kind of a character that always forms a token of its own. */
  function SingleCharKind(c: char): Option<TokenType>
  {
    match c
    case '(' => Some(OpenParen)
    case ')' => Some(CloseParen)
    case '{' => Some(OpenBrace)
    case '}' => Some(CloseBrace)
    case '[' => Some(OpenBracket)
    case ']' => Some(CloseBracket)
    case '%' => Some(BinaryOperator)
    case '^' => Some(BinaryOperator)
    case ':' => Some(Colon)
    case ',' => Some(Comma)
    case '.' => Some(Dot)
    case _ => None
  }

  // Character classes, restricted to ASCII.
  predicate IsAlpha(c: char) { 'a' <= c <= 'z' || 'A' <= c <= 'Z' }
  predicate IsDigit(c: char) { '0' <= c <= '9' }
  predicate IsAlnum(c: char) { IsAlpha(c) || IsDigit(c) }
  predicate IsSkippable(c: char) { c == ' ' || c == '\n' || c == '\t' || c == '\r' }
  predicate IsNumberChar(c: char) { IsDigit(c) || c == '.' }
  predicate IsNotQuote(c: char) { c != '"' && c != '\'' }
  predicate IsEqualsSign(c: char) { c == '=' }
  predicate IsAmpersand(c: char) { c == '&' }
  predicate IsBar(c: char) { c == '|' }

  /** Length of the longest prefix of `s` whose characters all satisfy `p`. */
  function Span(s: seq<char>, p: char -> bool): (n: nat)
    ensures n <= |s|
    ensures forall i :: 0 <= i < n ==> p(s[i])
    ensures n == |s| || !p(s[n])
  {
    if |s| > 0 && p(s[0]) then 1 + Span(s[1..], p) else 0
  }

  /** The span is the only prefix length with those two properties. */
  lemma SpanUnique(s: seq<char>, p: char -> bool, n: nat)
    requires n <= |s|
    requires forall i :: 0 <= i < n ==> p(s[i])
    requires n == |s| || !p(s[n])
    ensures n == Span(s, p)
  {
  }

  datatype LexError = Unrecognized(c: char) | UnterminatedString | IndexOutOfRange | NeverTerminates

  /** What one turn of the scanning loop does: emit a token, skip a character, or fail. */
  datatype Scan = Emit(tok: Token, rest: seq<char>) | Skip(rest: seq<char>) | Fail(error: LexError)

  datatype LexResult = Tokens(tokens: seq<Token>) | Failure(error: LexError)

  /** `+` and `-` are binary operators at the start or right after a binary operator. */
  function SignKind(prev: Option<TokenType>, c: char): TokenType
  {
    if prev.None? || prev == Some(BinaryOperator) then BinaryOperator
    else if c == '+' then UnaryPlus else UnaryMinus
  }

  function LastKind(tokens: seq<Token>): Option<TokenType>
  {
    if |tokens| == 0 then None else Some(tokens[|tokens| - 1].kind)
  }

  /** One turn of the scanning loop on the remaining input `src`, where `prev` is the kind of
      the last token emitted so far. A successful turn always consumes input. */
  function ScanOne(src: seq<char>, prev: Option<TokenType>): (s: Scan)
    requires |src| > 0
    ensures !s.Fail? ==> |s.rest| < |src|
  {
    var c := src[0];
    if SingleCharKind(c).Some? then Emit(Token([c], SingleCharKind(c).value), src[1..])
    else if c == '=' then ScanEquals(src)
    else if c == '!' || c == '<' || c == '>' then ScanRelational(src)
    else if c == '&' || c == '|' then ScanDoubled(src)
    else if c == '+' || c == '-' then Emit(Token([c], SignKind(prev, c)), src[1..])
    else if c == '*' then ScanStar(src)
    else if c == '/' then ScanSlash(src)
    else if c == '"' || c == '\'' then ScanString(src)
    else if IsDigit(c) then ScanNumber(src)
    else if IsAlpha(c) then ScanWord(src)
    else if IsSkippable(c) then Skip(src[1..])
    else Fail(Unrecognized(c))
  }

  /** A run of `=`: one is assignment, two the equality operator, more is fatal. */
  function ScanEquals(src: seq<char>): (s: Scan)
    requires |src| > 0 && src[0] == '='
    ensures !s.Fail? ==> |s.rest| < |src|
  {
    var n := Span(src, IsEqualsSign);
    if n == 1 then Emit(Token("=", Equals), src[1..])
    else if n == 2 then Emit(Token("==", DoubleEquals), src[2..])
    else Fail(Unrecognized('='))
  }

  /** `!`, `<` or `>`, optionally followed by `=`; the next character is read unguarded. */
  function ScanRelational(src: seq<char>): (s: Scan)
    requires |src| > 0
    ensures !s.Fail? ==> |s.rest| < |src|
  {
    var c := src[0];
    if |src| < 2 then Fail(IndexOutOfRange)
    else if src[1] == '=' then
      Emit(Token([c, '='], if c == '!' then NotEquals else if c == '<' then LessThanOrEquals else GreaterThanOrEquals), src[2..])
    else
      Emit(Token([c], if c == '!' then Not else if c == '<' then LessThan else GreaterThan), src[1..])
  }

  /** A run of `&` or `|`: exactly two make And or Or, any other length is fatal. */
  function ScanDoubled(src: seq<char>): (s: Scan)
    requires |src| > 0 && (src[0] == '&' || src[0] == '|')
    ensures !s.Fail? ==> |s.rest| < |src|
  {
    var c := src[0];
    var n := Span(src, if c == '&' then IsAmpersand else IsBar);
    if n == 2 then Emit(Token([c, c], if c == '&' then And else Or), src[2..])
    else Fail(Unrecognized(c))
  }

  /** `*` must be followed by `/`; otherwise nothing is consumed and the loop would spin forever. */
  function ScanStar(src: seq<char>): (s: Scan)
    requires |src| > 0
    ensures !s.Fail? ==> |s.rest| < |src|
  {
    if |src| < 2 then Fail(IndexOutOfRange)
    else if src[1] == '/' then Emit(Token("*/", MultiLineCommentEnd), src[2..])
    else Fail(NeverTerminates)
  }

  /** `/`: two slashes take the first character and the LAST character of the input,
      a slash whose third character is a star is a comment start, anything else a lone "/". */
  function ScanSlash(src: seq<char>): (s: Scan)
    requires |src| > 0
    ensures !s.Fail? ==> |s.rest| < |src|
  {
    if |src| < 2 then Fail(IndexOutOfRange)
    else if src[1] == '/' then Emit(Token(['/', src[|src| - 1]], SingleLineComment), src[1..|src| - 1])
    else if |src| < 3 then Fail(IndexOutOfRange)
    else if src[2] == '*' then Emit(Token(src[..2], MultiLineCommentStart), src[2..])
    else Emit(Token("/", SingleLineComment), src[1..])
  }

  /** A string literal: content up to the next quote of either kind, which must match the opening one. */
  function ScanString(src: seq<char>): (s: Scan)
    requires |src| > 0
    ensures !s.Fail? ==> |s.rest| < |src|
  {
    var body := src[1..];
    var k := Span(body, IsNotQuote);
    if k == |body| || body[k] != src[0] then Fail(UnterminatedString)
    else Emit(Token(body[..k], String), body[k + 1..])
  }

  /** A number: the longest run of digits and dots, a Float when it holds a dot. */
  function ScanNumber(src: seq<char>): (s: Scan)
    requires |src| > 0 && IsDigit(src[0])
    ensures !s.Fail? ==> |s.rest| < |src|
  {
    var k := Span(src, IsNumberChar);
    Emit(Token(src[..k], if '.' in src[..k] then Float else Int), src[k..])
  }

  /** A word: the longest alphanumeric run, reclassified through the keyword table. */
  function ScanWord(src: seq<char>): (s: Scan)
    requires |src| > 0 && IsAlpha(src[0])
    ensures !s.Fail? ==> |s.rest| < |src|
  {
    var k := Span(src, IsAlnum);
    Emit(Token(src[..k], if src[..k] in Keywords then Keywords[src[..k]] else Identifier), src[k..])
  }

  /** The scan from the remaining input `src`, with `tokens` emitted so far. */
  function LexFrom(src: seq<char>, tokens: seq<Token>): LexResult
    decreases |src|
  {
    if |src| == 0 then Tokens(tokens + [EndOfFile])
    else match ScanOne(src, LastKind(tokens))
      case Emit(tok, rest) => LexFrom(rest, tokens + [tok])
      case Skip(rest) => LexFrom(rest, tokens)
      case Fail(e) => Failure(e)
  }

  /** The token list of a whole source text, or the error that stops the scan. */
  function Lex(source: string): LexResult
  {
    LexFrom(source, [])
  }

  /** The scanning loop: `src` holds the characters not yet consumed; each turn pops the
      characters of one token (or one blank) from its front and appends the token. */
  method Tokenize(sourceCode: string) returns (r: LexResult)
    ensures r == Lex(sourceCode)
  {
    var tokens: seq<Token> := [];
    var src := sourceCode;
    while |src| > 0
      invariant LexFrom(src, tokens) == Lex(sourceCode)
      decreases |src|
    {
      var prev := if |tokens| == 0 then None else Some(tokens[|tokens| - 1].kind);
      var scanned := ReadToken(src, prev);
      match scanned
      case Fail(e) =>
        return Failure(e);
      case Skip(rest) =>
        src := rest;
      case Emit(tok, rest) =>
        tokens := tokens + [tok];
        src := rest;
    }
    tokens := tokens + [EndOfFile];
    return Tokens(tokens);
  }

  /** One turn of the scanning loop: which token the front of `src` makes, and what is left
      of the input once its characters are popped. `prev` is the kind of the last token
      emitted so far (None before the first). */
  method ReadToken(src: seq<char>, prev: Option<TokenType>) returns (s: Scan)
    requires |src| > 0
    ensures s == ScanOne(src, prev)
  {
    var c := src[0];
    var single := SingleCharKind(c);
    if single.Some? {
      return Emit(Token([c], single.value), src[1..]);
    } else if c == '=' {
      var signCount := CountRun(src, IsEqualsSign);
      if signCount == 1 {
        return Emit(Token("=", Equals), src[1..]);
      } else if signCount == 2 {
        return Emit(Token("==", DoubleEquals), src[2..]);
      }
      return Fail(Unrecognized(c));
    } else if c == '!' || c == '<' || c == '>' {
      if |src| < 2 {
        return Fail(IndexOutOfRange);
      }
      if src[1] == '=' {
        var kind := if c == '!' then NotEquals else if c == '<' then LessThanOrEquals else GreaterThanOrEquals;
        return Emit(Token([c, '='], kind), src[2..]);
      }
      var kind := if c == '!' then Not else if c == '<' then LessThan else GreaterThan;
      return Emit(Token([c], kind), src[1..]);
    } else if c == '&' || c == '|' {
      var signCount := CountRun(src, if c == '&' then IsAmpersand else IsBar);
      if signCount == 2 {
        return Emit(Token([c, c], if c == '&' then And else Or), src[2..]);
      }
      return Fail(Unrecognized(c));
    } else if c == '+' || c == '-' {
      var kind := if prev.None? || prev.value == BinaryOperator then BinaryOperator
                  else if c == '+' then UnaryPlus else UnaryMinus;
      return Emit(Token([c], kind), src[1..]);
    } else if c == '*' {
      if |src| < 2 {
        return Fail(IndexOutOfRange);
      }
      if src[1] != '/' {
        return Fail(NeverTerminates);
      }
      return Emit(Token("*/", MultiLineCommentEnd), src[2..]);
    } else if c == '/' {
      if |src| < 2 {
        return Fail(IndexOutOfRange);
      }
      if src[1] == '/' {
        var last := src[|src| - 1];
        return Emit(Token(['/', last], SingleLineComment), src[1..|src| - 1]);
      } else if |src| < 3 {
        return Fail(IndexOutOfRange);
      } else if src[2] == '*' {
        return Emit(Token(src[..2], MultiLineCommentStart), src[2..]);
      }
      return Emit(Token("/", SingleLineComment), src[1..]);
    } else if c == '"' || c == '\'' {
      s := ReadString(src);
    } else if IsDigit(c) {
      var word := TakeWhile(src, IsNumberChar);
      return Emit(Token(word, if '.' in word then Float else Int), src[|word|..]);
    } else if IsAlpha(c) {
      var word := TakeWhile(src, IsAlnum);
      return Emit(Token(word, if word in Keywords then Keywords[word] else Identifier), src[|word|..]);
    } else if IsSkippable(c) {
      return Skip(src[1..]);
    } else {
      return Fail(Unrecognized(c));
    }
  }

  /** The string branch of the loop: pops the opening quote, then the content, then the
      closing quote, which must be the same character as the opening one. */
  method ReadString(src: seq<char>) returns (s: Scan)
    requires |src| > 0
    ensures s == ScanString(src)
  {
    var quote := src[0];
    var rest := src[1..];
    var content := TakeWhile(rest, IsNotQuote);
    rest := rest[|content|..];
    if |rest| == 0 || rest[0] != quote {
      return Fail(UnterminatedString);
    }
    return Emit(Token(content, String), rest[1..]);
  }

  /** Counts the run of consecutive characters matching `p` at the front of `src`. */
  method CountRun(src: seq<char>, p: char -> bool) returns (count: nat)
    requires |src| > 0 && p(src[0])
    ensures count == Span(src, p)
  {
    count := 1;
    var idx := 1;
    while idx < |src| && p(src[idx])
      invariant 1 <= idx <= |src| && count == idx
      invariant forall i :: 0 <= i < idx ==> p(src[i])
    {
      count := count + 1;
      idx := idx + 1;
    }
    SpanUnique(src, p, idx);
  }

  /** Pops characters matching `p` off the front of `src` into an accumulator. */
  method TakeWhile(src: seq<char>, p: char -> bool) returns (word: string)
    ensures word == src[..Span(src, p)]
  {
    word := "";
    var rest := src;
    while |rest| > 0 && p(rest[0])
      invariant src == word + rest
      invariant forall i :: 0 <= i < |word| ==> p(word[i])
      decreases |rest|
    {
      word := word + [rest[0]];
      rest := rest[1..];
    }
    SpanUnique(src, p, |word|);
  }
}
