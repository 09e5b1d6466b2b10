/** What the lexer promises, stated about the scanning step `ScanOne` and the whole scan `Lex`. */
module LexerLemmas {
  import opened Wrappers
  import opened Lexer

  function Repeat(c: char, n: nat): (s: seq<char>)
    ensures |s| == n && forall i :: 0 <= i < n ==> s[i] == c
  {
    seq(n, _ => c)
  }

  predicate NoEof(tokens: seq<Token>)
  {
    forall i :: 0 <= i < |tokens| ==> tokens[i].kind != EOF
  }

  /** One emitting turn of the scan, taken as a rewrite step. */
  lemma LexFromEmit(src: seq<char>, tokens: seq<Token>, tok: Token, rest: seq<char>)
    requires |src| > 0 && ScanOne(src, LastKind(tokens)) == Emit(tok, rest)
    ensures LexFrom(src, tokens) == LexFrom(rest, tokens + [tok])
  {
  }

  /** One skipping turn of the scan, taken as a rewrite step. */
  lemma LexFromSkip(src: seq<char>, tokens: seq<Token>, rest: seq<char>)
    requires |src| > 0 && ScanOne(src, LastKind(tokens)) == Skip(rest)
    ensures LexFrom(src, tokens) == LexFrom(rest, tokens)
  {
  }

  /** No scanning step ever produces an EOF token. */
  lemma ScanNeverEmitsEof(src: seq<char>, prev: Option<TokenType>)
    requires |src| > 0
    ensures ScanOne(src, prev).Emit? ==> ScanOne(src, prev).tok.kind != EOF
  {
    var c := src[0];
    if IsAlpha(c) {
      var word := src[..Span(src, IsAlnum)];
      assert word in Keywords ==> Keywords[word] != EOF;
    }
  }

  /** `t` extends `tokens` and closes with the one and only EOF token. */
  predicate ClosedExtension(t: seq<Token>, tokens: seq<Token>)
  {
    && |t| > |tokens| && t[..|tokens|] == tokens
    && t[|t| - 1] == EndOfFile && NoEof(t[..|t| - 1])
  }

  lemma ClosedExtensionShrinks(t: seq<Token>, tokens: seq<Token>, tok: Token)
    requires ClosedExtension(t, tokens + [tok])
    ensures ClosedExtension(t, tokens)
  {
    assert t[..|tokens|] == t[..|tokens| + 1][..|tokens|];
  }

  lemma {:induction false} LexFromEndsWithEof(src: seq<char>, tokens: seq<Token>)
    requires NoEof(tokens)
    ensures LexFrom(src, tokens).Tokens? ==> ClosedExtension(LexFrom(src, tokens).tokens, tokens)
    decreases |src|
  {
    if |src| == 0 {
      assert (tokens + [EndOfFile])[..|tokens|] == tokens;
    } else {
      var step := ScanOne(src, LastKind(tokens));
      if step.Emit? {
        ScanNeverEmitsEof(src, LastKind(tokens));
        LexFromEmit(src, tokens, step.tok, step.rest);
        LexFromEndsWithEof(step.rest, tokens + [step.tok]);
        if LexFrom(src, tokens).Tokens? {
          ClosedExtensionShrinks(LexFrom(src, tokens).tokens, tokens, step.tok);
        }
      } else if step.Skip? {
        LexFromSkip(src, tokens, step.rest);
        LexFromEndsWithEof(step.rest, tokens);
      }
    }
  }

  /** A successful scan ends with exactly one EOF token, whose value is "EndOfFile". */
  lemma LexEndsWithEof(source: string)
    ensures Lex(source).Tokens? ==>
      var t := Lex(source).tokens;
      && |t| > 0 && t[|t| - 1] == Token("EndOfFile", EOF)
      && forall i :: 0 <= i < |t| - 1 ==> t[i].kind != EOF
  {
    LexFromEndsWithEof(source, []);
  }

  /** Each bracket and punctuation character is a token of its own kind, valued by that character. */
  lemma PunctuationTokens(c: char, rest: seq<char>, prev: Option<TokenType>)
    requires c in "(){}[]:,."
    ensures ScanOne([c] + rest, prev) == Emit(Token([c],
      match c
      case '(' => OpenParen case ')' => CloseParen
      case '{' => OpenBrace case '}' => CloseBrace
      case '[' => OpenBracket case ']' => CloseBracket
      case ':' => Colon case ',' => Comma
      case _ => Dot), rest)
  {
    assert ([c] + rest)[1..] == rest;
  }

  lemma {:induction false} SpanOfRun(c: char, p: char -> bool, n: nat, rest: seq<char>)
    requires forall x :: p(x) <==> x == c
    requires rest == [] || rest[0] != c
    ensures Span(Repeat(c, n) + rest, p) == n
  {
    var s := Repeat(c, n) + rest;
    assert forall i :: 0 <= i < n ==> s[i] == c;
    if n < |s| { assert s[n] == rest[0]; }
    SpanUnique(s, p, n);
  }

  /** One `=` is assignment, two are the equality operator, three or more are fatal. */
  lemma EqualsRun(n: nat, rest: seq<char>, prev: Option<TokenType>)
    requires n >= 1
    requires rest == [] || rest[0] != '='
    ensures var s := ScanOne(Repeat('=', n) + rest, prev);
      && (n == 1 ==> s == Emit(Token("=", Equals), rest))
      && (n == 2 ==> s == Emit(Token("==", DoubleEquals), rest))
      && (n >= 3 ==> s == Fail(Unrecognized('=')))
  {
    var src := Repeat('=', n) + rest;
    SpanOfRun('=', IsEqualsSign, n, rest);
    assert src[0] == '=';
    if n == 1 { assert src[1..] == rest; }
    if n == 2 { assert src[2..] == rest; }
  }

  /** Exactly two `&` make And and exactly two `|` make Or; any other run length is fatal. */
  lemma LogicalRun(c: char, n: nat, rest: seq<char>, prev: Option<TokenType>)
    requires c == '&' || c == '|'
    requires n >= 1
    requires rest == [] || rest[0] != c
    ensures var s := ScanOne(Repeat(c, n) + rest, prev);
      && (n == 2 ==> s == Emit(Token([c, c], if c == '&' then And else Or), rest))
      && (n != 2 ==> s == Fail(Unrecognized(c)))
  {
    var src := Repeat(c, n) + rest;
    if c == '&' { SpanOfRun(c, IsAmpersand, n, rest); } else { SpanOfRun(c, IsBar, n, rest); }
    assert src[0] == c;
    if n == 2 { assert src[2..] == rest; assert src[..2] == [c, c]; }
  }

  /** `+` and `-` are BinaryOperator at the start or right after a BinaryOperator token,
      otherwise UnaryPlus and UnaryMinus. */
  lemma SignClassification(c: char, rest: seq<char>, prev: Option<TokenType>)
    requires c == '+' || c == '-'
    ensures var s := ScanOne([c] + rest, prev);
      && s.Emit? && s.tok.value == [c] && s.rest == rest
      && (s.tok.kind == BinaryOperator <==> prev.None? || prev == Some(BinaryOperator))
      && (s.tok.kind != BinaryOperator ==> s.tok.kind == (if c == '+' then UnaryPlus else UnaryMinus))
  {
    var src := [c] + rest;
    assert src[0] == c && src[1..] == rest;
  }

  /** Whitespace is dropped. */
  lemma WhitespaceSkipped(c: char, rest: seq<char>, tokens: seq<Token>)
    requires IsSkippable(c)
    ensures LexFrom([c] + rest, tokens) == LexFrom(rest, tokens)
  {
    var src := [c] + rest;
    assert src[0] == c && src[1..] == rest;
    LexFromSkip(src, tokens, rest);
  }

  /** A character no rule accepts is fatal. */
  lemma UnknownCharacterFails(c: char, rest: seq<char>, tokens: seq<Token>)
    requires !IsAlnum(c) && !IsSkippable(c) && c !in "(){}[]%^:,.=!<>&|+-*/\"'"
    ensures LexFrom([c] + rest, tokens) == Failure(Unrecognized(c))
  {
  }

  /** A digit starts a number token: the longest run of digits and dots, kept verbatim,
      a Float exactly when it contains a dot. */
  lemma NumberToken(src: seq<char>, prev: Option<TokenType>)
    requires |src| > 0 && IsDigit(src[0])
    ensures var s := ScanOne(src, prev);
      && s.Emit? && src == s.tok.value + s.rest && |s.tok.value| > 0
      && (forall i :: 0 <= i < |s.tok.value| ==> IsNumberChar(s.tok.value[i]))
      && (s.rest == [] || !IsNumberChar(s.rest[0]))
      && (s.tok.kind == Float <==> '.' in s.tok.value)
      && (s.tok.kind == Int <==> '.' !in s.tok.value)
  {
    NumberDispatch(src, prev);
    var k := Span(src, IsNumberChar);
    assert src == src[..k] + src[k..];
  }

  /** A digit always takes the number branch of the scanning step. */
  lemma NumberDispatch(src: seq<char>, prev: Option<TokenType>)
    requires |src| > 0 && IsDigit(src[0])
    ensures ScanOne(src, prev) == ScanNumber(src)
  {
  }

  /** A letter starts a word: the longest alphanumeric run, a keyword token when it is reserved. */
  lemma WordToken(src: seq<char>, prev: Option<TokenType>)
    requires |src| > 0 && IsAlpha(src[0])
    ensures var s := ScanOne(src, prev);
      && s.Emit? && src == s.tok.value + s.rest && |s.tok.value| > 0
      && (forall i :: 0 <= i < |s.tok.value| ==> IsAlnum(s.tok.value[i]))
      && (s.rest == [] || !IsAlnum(s.rest[0]))
      && s.tok.kind == (if s.tok.value in Keywords then Keywords[s.tok.value] else Identifier)
  {
    WordDispatch(src, prev);
    var k := Span(src, IsAlnum);
    assert src == src[..k] + src[k..];
  }

  /** The reserved words, including null/and/or/not, never lex as identifiers. */
  lemma KeywordsAreReserved(word: string, rest: seq<char>, prev: Option<TokenType>)
    requires word in Keywords
    requires rest == [] || !IsAlnum(rest[0])
    ensures ScanOne(word + rest, prev) == Emit(Token(word, Keywords[word]), rest)
  {
    var src := word + rest;
    assert forall i :: 0 <= i < |word| ==> IsAlpha(word[i]);
    assert src[0] == word[0];
    if |word| < |src| { assert src[|word|] == rest[0]; }
    SpanUnique(src, IsAlnum, |word|);
    assert src[..|word|] == word && src[|word|..] == rest;
    WordDispatch(src, prev);
  }

  /** A letter always takes the word branch of the scanning step. */
  lemma WordDispatch(src: seq<char>, prev: Option<TokenType>)
    requires |src| > 0 && IsAlpha(src[0])
    ensures ScanOne(src, prev) == ScanWord(src)
  {
  }

  /** A string runs from its quote to the next quote of either kind; it must close with
      the same quote and may not run into the end of the input. */
  lemma StringToken(q: char, content: seq<char>, rest: seq<char>, prev: Option<TokenType>)
    requires q == '"' || q == '\''
    requires forall i :: 0 <= i < |content| ==> IsNotQuote(content[i])
    ensures rest == [] ==> ScanOne([q] + content + rest, prev) == Fail(UnterminatedString)
    ensures rest != [] && rest[0] == q ==>
      ScanOne([q] + content + rest, prev) == Emit(Token(content, String), rest[1..])
    ensures rest != [] && !IsNotQuote(rest[0]) && rest[0] != q ==>
      ScanOne([q] + content + rest, prev) == Fail(UnterminatedString)
  {
    var src := [q] + content + rest;
    StringDispatch(src, prev);
    var body := src[1..];
    assert body == content + rest;
    if rest != [] { assert body[|content|] == rest[0]; }
    if rest == [] || !IsNotQuote(rest[0]) {
      SpanUnique(body, IsNotQuote, |content|);
      assert body[..|content|] == content;
      if rest != [] { assert body[|content| + 1..] == rest[1..]; }
    }
  }

  /** A quote always takes the string branch of the scanning step. */
  lemma StringDispatch(src: seq<char>, prev: Option<TokenType>)
    requires |src| > 0 && (src[0] == '"' || src[0] == '\'')
    ensures ScanOne(src, prev) == ScanString(src)
  {
  }

  /** A lone `/` (not starting a comment marker) is a token valued "/". */
  lemma LoneSlash(src: seq<char>, prev: Option<TokenType>)
    requires |src| >= 3 && src[0] == '/' && src[1] != '/' && src[2] != '*'
    ensures ScanOne(src, prev) == Emit(Token("/", SingleLineComment), src[1..])
  {
  }

  /** A `*` not followed by `/` consumes nothing, so the scan never finishes. */
  lemma StarStalls(x: char, rest: seq<char>, tokens: seq<Token>)
    requires x != '/'
    ensures LexFrom(['*', x] + rest, tokens) == Failure(NeverTerminates)
  {
  }

  /** `!`, `<`, `>`, `*` or `/` as the last character reads past the end of the input. */
  lemma OperatorAtEndReadsPastInput(c: char, tokens: seq<Token>)
    requires c in "!<>*/"
    ensures LexFrom([c], tokens) == Failure(IndexOutOfRange)
  {
  }

  /** A run of digits lexes to one Int token followed by EOF. */
  lemma LexDigits(d: string)
    requires |d| > 0 && forall i :: 0 <= i < |d| ==> IsDigit(d[i])
    ensures Lex(d) == Tokens([Token(d, Int), EndOfFile])
  {
    SpanUnique(d, IsNumberChar, |d|);
    assert d[..|d|] == d && d[|d|..] == [];
    assert '.' !in d by {
      forall i | 0 <= i < |d| ensures d[i] != '.' { }
    }
    assert ScanOne(d, None) == Emit(Token(d, Int), []);
    LexFromEmit(d, [], Token(d, Int), []);
  }

  /** Digits with one dot inserted lex to one Float token followed by EOF. */
  lemma LexDecimal(a: string, b: string)
    requires |a| > 0 && forall i :: 0 <= i < |a| ==> IsDigit(a[i])
    requires forall i :: 0 <= i < |b| ==> IsDigit(b[i])
    ensures Lex(a + "." + b) == Tokens([Token(a + "." + b, Float), EndOfFile])
  {
    var s := a + "." + b;
    assert s[0] == a[0];
    assert s[|a|] == '.';
    assert forall i :: 0 <= i < |s| ==> IsNumberChar(s[i]);
    SpanUnique(s, IsNumberChar, |s|);
    assert s[..|s|] == s && s[|s|..] == [];
    assert ScanOne(s, None) == Emit(Token(s, Float), []);
    LexFromEmit(s, [], Token(s, Float), []);
  }
}
