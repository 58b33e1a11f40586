/**
 * The lexer (Lexics/LexicalParser.cs): one index-driven pass over the text
 * that emits whitespace runs, numeric literals, one-character operators and
 * punctuation, and identifiers classified against the registry.
 *
 * `Tokenize` is the specification of the pass as a recursive function;
 * `Parse`, `AcceptOneOrMore` and `AcceptLiteral` are the source's loops.
 */
module LexicalParser {
  import opened Wrappers
  import opened Tokens
  import Registry

  // ASCII models of char.IsWhiteSpace, char.IsDigit, char.IsLetter and char.IsLetterOrDigit.

  predicate IsWhiteSpace(c: char) {
    c == ' ' || ('\t' <= c <= '\r')
  }

  predicate IsDigit(c: char) {
    '0' <= c <= '9'
  }

  predicate IsLetter(c: char) {
    ('a' <= c <= 'z') || ('A' <= c <= 'Z')
  }

  predicate IsLetterOrDigit(c: char) {
    IsLetter(c) || IsDigit(c)
  }

  /** The character predicates the accepting loops are run with. */
  datatype CharClass = WhiteSpaces | Digits | LettersOrDigits

  predicate InClass(c: char, k: CharClass) {
    match k
    case WhiteSpaces => IsWhiteSpace(c)
    case Digits => IsDigit(c)
    case LettersOrDigits => IsLetterOrDigit(c)
  }

  /** The table of one-character tokens. */
  const SingleCharacterTokenTypes: map<char, TokenKind> :=
    map['+' := Operator, '-' := Operator, '*' := Operator, '/' := Operator, '^' := Operator,
        '(' := OpeningParenthesis, ')' := ClosingParenthesis, ',' := Comma]

  /** The literal grammar: a digit, then digits and at most one '.'; so "3." is a literal. */
  predicate IsLiteralText(s: string) {
    && |s| > 0
    && IsDigit(s[0])
    && (forall k :: 0 <= k < |s| ==> IsDigit(s[k]) || s[k] == '.')
    && (forall k, m :: 0 <= k < m < |s| && s[k] == '.' ==> s[m] != '.')
  }

  /** An identifier: a letter, then letters and digits. */
  predicate IsIdentifier(s: string) {
    && |s| > 0
    && IsLetter(s[0])
    && (forall k :: 0 <= k < |s| ==> IsLetterOrDigit(s[k]))
  }

  /** The end of the longest run of class-`k` characters starting at `i`. */
  function RunEnd(text: string, i: nat, k: CharClass): (j: nat)
    requires i <= |text|
    ensures i <= j <= |text|
    ensures forall m :: i <= m < j ==> InClass(text[m], k)
    ensures j == |text| || !InClass(text[j], k)
    decreases |text| - i
  {
    if i < |text| && InClass(text[i], k) then RunEnd(text, i + 1, k) else i
  }

  /** The end of the literal that starts with the digit at `i`. */
  function LiteralEnd(text: string, i: nat): (j: nat)
    requires i < |text|
    ensures i < j <= |text|
  {
    var d := RunEnd(text, i + 1, Digits);
    if d < |text| && text[d] == '.' then RunEnd(text, d + 1, Digits) else d
  }

  /** Kind of an identifier: function names first, then constant names, else a variable. */
  function Classify(identifier: string): TokenKind {
    if identifier in Registry.Functions then FunctionName
    else if identifier in Registry.Constants then ConstantName
    else Variable
  }

  /** The token that starts at `i`, or None when the character there starts no token. */
  function NextToken(text: string, i: nat): (r: Option<Token>)
    requires i < |text|
    ensures r.Some? ==> r.value.position == i && 0 < |r.value.value| <= |text| - i
    ensures r.Some? ==> r.value.value == text[i..i + |r.value.value|]
  {
    var c := text[i];
    if IsWhiteSpace(c) then
      Some(Token(WhiteSpace, text[i..RunEnd(text, i + 1, WhiteSpaces)], i))
    else if IsDigit(c) then
      Some(Token(Literal, text[i..LiteralEnd(text, i)], i))
    else if c in SingleCharacterTokenTypes then
      Some(Token(SingleCharacterTokenTypes[c], text[i..i + 1], i))
    else if IsLetter(c) then
      var identifier := text[i..RunEnd(text, i + 1, LettersOrDigits)];
      Some(Token(Classify(identifier), identifier, i))
    else
      None
  }

  /** What the token stream delivers: the tokens yielded, then possibly the exception. */
  datatype Lexed = Lexed(tokens: seq<Token>, error: Option<LexicalError>)

  function Prepend(tokens: seq<Token>, l: Lexed): Lexed {
    Lexed(tokens + l.tokens, l.error)
  }

  lemma {:induction false} PrependAssociative(a: seq<Token>, b: seq<Token>, l: Lexed)
    ensures Prepend(a, Prepend(b, l)) == Prepend(a + b, l)
  {
    assert a + (b + l.tokens) == (a + b) + l.tokens;
  }

  function UnexpectedCharacter(text: string, i: nat): LexicalError
    requires i < |text|
  {
    LexicalError(i, "Unexpected character: " + [text[i]])
  }

  /** The token stream of `text` from index `i` on. */
  function TokenizeFrom(text: string, i: nat): Lexed
    requires i <= |text|
    decreases |text| - i
  {
    if i == |text| then Lexed([], None)
    else
      match NextToken(text, i)
      case None => Lexed([], Some(UnexpectedCharacter(text, i)))
      case Some(t) => Prepend([t], TokenizeFrom(text, i + |t.value|))
  }

  function Tokenize(text: string): Lexed {
    TokenizeFrom(text, 0)
  }

  /** Accepts the character at `index` and the run of class-`k` characters after it. */
  method AcceptOneOrMore(text: string, index: nat, k: CharClass) returns (value: string, next: nat)
    requires index < |text|
    ensures index < next <= |text| && value == text[index..next]
    ensures next == RunEnd(text, index + 1, k)
  {
    var start := index;
    next := index + 1;
    while next < |text| && InClass(text[next], k)
      invariant start < next <= |text|
      invariant RunEnd(text, next, k) == RunEnd(text, start + 1, k)
      decreases |text| - next
    {
      next := next + 1;
    }
    value := text[start..next];
  }

  /** Accepts a literal starting with the digit at `index`: digits, then optionally '.' and digits. */
  method AcceptLiteral(text: string, index: nat) returns (value: string, next: nat)
    requires index < |text| && IsDigit(text[index])
    ensures index < next <= |text| && value == text[index..next]
    ensures next == LiteralEnd(text, index)
  {
    var start := index;
    next := index + 1;
    while next < |text| && IsDigit(text[next])
      invariant start < next <= |text|
      invariant RunEnd(text, next, Digits) == RunEnd(text, start + 1, Digits)
      decreases |text| - next
    {
      next := next + 1;
    }
    ghost var dot := next;
    if next < |text| && text[next] == '.' {
      next := next + 1;
      while next < |text| && IsDigit(text[next])
        invariant dot < next <= |text|
        invariant RunEnd(text, next, Digits) == RunEnd(text, dot + 1, Digits)
        decreases |text| - next
      {
        next := next + 1;
      }
    }
    value := text[start..next];
  }

  /** One step of the stream: the token at `i` followed by the stream after it. */
  lemma {:induction false} TokenizeStep(text: string, i: nat, t: Token)
    requires i < |text| && NextToken(text, i) == Some(t)
    ensures TokenizeFrom(text, i) == Prepend([t], TokenizeFrom(text, i + |t.value|))
  {
  }

  /** A character no token starts with ends the stream with the exception that names it. */
  lemma {:induction false} TokenizeStuck(text: string, i: nat)
    requires i < |text| && NextToken(text, i).None?
    ensures TokenizeFrom(text, i) == Lexed([], Some(UnexpectedCharacter(text, i)))
  {
  }

  /** One branch of the lexer loop: the token that starts at `index`, or None for an unexpected character. */
  method AcceptToken(text: string, index: nat) returns (token: Option<Token>)
    requires index < |text|
    ensures token == NextToken(text, index)
  {
    var start := index;
    var c := text[index];
    if IsWhiteSpace(c) {
      var value, _ := AcceptOneOrMore(text, index, WhiteSpaces);
      token := Some(Token(WhiteSpace, value, start));
    } else if IsDigit(c) {
      var value, _ := AcceptLiteral(text, index);
      token := Some(Token(Literal, value, start));
    } else if c in SingleCharacterTokenTypes {
      token := Some(Token(SingleCharacterTokenTypes[c], text[index..index + 1], start));
    } else if IsLetter(c) {
      var identifier, _ := AcceptOneOrMore(text, index, LettersOrDigits);
      if identifier in Registry.Functions {
        token := Some(Token(FunctionName, identifier, start));
      } else if identifier in Registry.Constants {
        token := Some(Token(ConstantName, identifier, start));
      } else {
        token := Some(Token(Variable, identifier, start));
      }
    } else {
      token := None;
    }
  }

  /** The token stream, materialised: the tokens in order, then the exception if one was raised. */
  method Parse(text: string) returns (r: Lexed)
    ensures r == Tokenize(text)
  {
    var index := 0;
    var tokens: seq<Token> := [];
    while index < |text|
      invariant 0 <= index <= |text|
      invariant Tokenize(text) == Prepend(tokens, TokenizeFrom(text, index))
      decreases |text| - index
    {
      var token := AcceptToken(text, index);
      if token.None? {
        TokenizeStuck(text, index);
        assert tokens + [] == tokens;
        return Lexed(tokens, Some(LexicalError(index, "Unexpected character: " + [text[index]])));
      }
      TokenizeStep(text, index, token.value);
      PrependAssociative(tokens, [token.value], TokenizeFrom(text, index + |token.value.value|));
      tokens := tokens + [token.value];
      index := index + |token.value.value|;
    }
    return Lexed(tokens, None);
  }
}
