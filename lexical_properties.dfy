/**
 * What the lexer promises, proved about `Tokenize`: the tokens are
 * contiguous, each is non-empty and starts at its `position`, each has the
 * shape its kind requires (maximal runs, the literal grammar, the
 * classification priority), concatenating them gives back the text read so
 * far, and a lexical error names the first character that starts no token.
 * Conversely, any sequence of such tokens that covers the text is the one
 * `Tokenize` returns: the shape rules determine the tokenization.
 */
module LexicalProperties {
  import opened Wrappers
  import opened Tokens
  import opened LexicalParser
  import Registry

  /** The characters the lexer accepts at the start of a token. */
  predicate StartsToken(c: char) {
    IsWhiteSpace(c) || IsDigit(c) || c in SingleCharacterTokenTypes || IsLetter(c)
  }

  /** `t` is a token of `text`: a non-empty piece at its position, of the shape its kind demands. */
  predicate WellFormedToken(text: string, t: Token) {
    var end := t.position + |t.value|;
    && 0 < |t.value|
    && end <= |text|
    && text[t.position..end] == t.value
    && match t.kind
       case WhiteSpace =>
         && (forall k :: 0 <= k < |t.value| ==> IsWhiteSpace(t.value[k]))
         && (end == |text| || !IsWhiteSpace(text[end]))
       case Literal =>
         && IsLiteralText(t.value)
         && (end == |text| || !IsLiteralText(t.value + [text[end]]))
       case Operator => t.value in {"+", "-", "*", "/", "^"}
       case OpeningParenthesis => t.value == "("
       case ClosingParenthesis => t.value == ")"
       case Comma => t.value == ","
       case FunctionName => MaximalIdentifier(text, t) && t.value in Registry.Functions
       case ConstantName =>
         MaximalIdentifier(text, t) && t.value !in Registry.Functions && t.value in Registry.Constants
       case Variable =>
         MaximalIdentifier(text, t) && t.value !in Registry.Functions && t.value !in Registry.Constants
  }

  predicate MaximalIdentifier(text: string, t: Token) {
    var end := t.position + |t.value|;
    IsIdentifier(t.value) && (end < |text| ==> !IsLetterOrDigit(text[end]))
  }

  /** `ts` are well-formed tokens laid end to end, the first at `i`, the last ending at `j`. */
  predicate Spans(text: string, ts: seq<Token>, i: nat, j: nat)
    decreases |ts|
  {
    if ts == [] then i == j <= |text|
    else ts[0].position == i && WellFormedToken(text, ts[0]) && Spans(text, ts[1..], i + |ts[0].value|, j)
  }

  /** The texts of the tokens, concatenated. */
  function Concat(ts: seq<Token>): string {
    if ts == [] then [] else ts[0].value + Concat(ts[1..])
  }

  /** Where the stream stopped: at the offending character, or at the end of the text. */
  function StreamEnd(text: string, l: Lexed): nat {
    if l.error.Some? then l.error.value.position else |text|
  }

  lemma {:induction false} SpansConcat(text: string, ts: seq<Token>, i: nat, j: nat)
    requires Spans(text, ts, i, j)
    ensures i <= j <= |text| && Concat(ts) == text[i..j]
    decreases |ts|
  {
    if ts != [] {
      var next := i + |ts[0].value|;
      SpansConcat(text, ts[1..], next, j);
      assert text[i..j] == text[i..next] + text[next..j];
    }
  }

  /** Contiguity: the first token starts at `i`, each next one where the previous ended, the last ends at `j`. */
  lemma {:induction false} SpansContiguous(text: string, ts: seq<Token>, i: nat, j: nat)
    requires Spans(text, ts, i, j)
    ensures |ts| > 0 ==> ts[0].position == i && ts[|ts| - 1].position + |ts[|ts| - 1].value| == j
    ensures forall k :: 0 <= k < |ts| - 1 ==> ts[k + 1].position == ts[k].position + |ts[k].value|
    decreases |ts|
  {
    if ts != [] {
      SpansContiguous(text, ts[1..], i + |ts[0].value|, j);
      assert forall k :: 1 <= k < |ts| ==> ts[k] == ts[1..][k - 1];
    }
  }

  /** The literal that `LiteralEnd` delimits is in the literal grammar and cannot be extended. */
  lemma {:induction false} LiteralEndShape(text: string, i: nat)
    requires i < |text| && IsDigit(text[i])
    ensures IsLiteralText(text[i..LiteralEnd(text, i)])
    ensures LiteralEnd(text, i) == |text| || !IsLiteralText(text[i..LiteralEnd(text, i)] + [text[LiteralEnd(text, i)]])
  {
    var dot := RunEnd(text, i + 1, Digits);
    var next := LiteralEnd(text, i);
    var value := text[i..next];
    assert forall k :: 0 <= k < |value| ==> value[k] == text[i + k];
    if next < |text| {
      var longer := value + [text[next]];
      assert longer[|longer| - 1] == text[next];
      if dot < next {
        assert longer[dot - i] == '.';
      }
    }
  }

  /** Every non-empty prefix of a literal is a literal. */
  lemma {:induction false} LiteralPrefix(s: string, n: nat)
    requires IsLiteralText(s) && 0 < n <= |s|
    ensures IsLiteralText(s[..n])
  {
  }

  /** A run that is entirely of class `k` and cannot be extended is the one `RunEnd` finds. */
  lemma {:induction false} RunEndUnique(text: string, i: nat, j: nat, k: CharClass)
    requires i <= j <= |text|
    requires forall m :: i <= m < j ==> InClass(text[m], k)
    requires j == |text| || !InClass(text[j], k)
    ensures RunEnd(text, i, k) == j
    decreases j - i
  {
    if i < j {
      RunEndUnique(text, i + 1, j, k);
    }
  }

  /** A literal that runs past `a` makes the piece up to `a`, plus the next character, a literal. */
  lemma {:induction false} LiteralExtends(text: string, i: nat, a: nat, b: nat)
    requires i < a < b <= |text| && IsLiteralText(text[i..b])
    ensures IsLiteralText(text[i..a] + [text[a]])
  {
    LiteralPrefix(text[i..b], a + 1 - i);
    assert text[i..b][..a + 1 - i] == text[i..a] + [text[a]];
  }

  /** Two literal prefixes of `text[i..]` that cannot be extended have the same length. */
  lemma {:induction false} MaximalLiteralUnique(text: string, i: nat, a: nat, b: nat)
    requires i < a <= |text| && i < b <= |text|
    requires IsLiteralText(text[i..a]) && (a == |text| || !IsLiteralText(text[i..a] + [text[a]]))
    requires IsLiteralText(text[i..b]) && (b == |text| || !IsLiteralText(text[i..b] + [text[b]]))
    ensures a == b
  {
    if a < b {
      LiteralExtends(text, i, a, b);
    } else if b < a {
      LiteralExtends(text, i, b, a);
    }
  }

  /** A maximal run of class `k` that starts at `t.position` is the run `RunEnd` delimits. */
  lemma {:induction false} RunIsNext(text: string, t: Token, k: CharClass)
    requires 0 < |t.value| && t.position + |t.value| <= |text|
    requires text[t.position..t.position + |t.value|] == t.value
    requires forall m :: 0 <= m < |t.value| ==> InClass(t.value[m], k)
    requires t.position + |t.value| == |text| || !InClass(text[t.position + |t.value|], k)
    ensures RunEnd(text, t.position + 1, k) == t.position + |t.value|
  {
    var i := t.position;
    var end := i + |t.value|;
    assert forall m :: i + 1 <= m < end ==> text[m] == t.value[m - i];
    RunEndUnique(text, i + 1, end, k);
  }

  lemma {:induction false} WhiteSpaceIsNext(text: string, t: Token)
    requires WellFormedToken(text, t) && t.kind == WhiteSpace
    ensures NextToken(text, t.position) == Some(t)
  {
    assert text[t.position] == t.value[0];
    assert forall m :: 0 <= m < |t.value| ==> InClass(t.value[m], WhiteSpaces);
    RunIsNext(text, t, WhiteSpaces);
  }

  lemma {:induction false} LiteralIsNext(text: string, t: Token)
    requires WellFormedToken(text, t) && t.kind == Literal
    ensures NextToken(text, t.position) == Some(t)
  {
    var i := t.position;
    assert text[i] == t.value[0];
    LiteralEndShape(text, i);
    MaximalLiteralUnique(text, i, i + |t.value|, LiteralEnd(text, i));
  }

  lemma {:induction false} IdentifierIsNext(text: string, t: Token)
    requires WellFormedToken(text, t) && t.kind in {FunctionName, ConstantName, Variable}
    ensures NextToken(text, t.position) == Some(t)
  {
    assert text[t.position] == t.value[0];
    assert MaximalIdentifier(text, t);
    assert forall m :: 0 <= m < |t.value| ==> InClass(t.value[m], LettersOrDigits);
    RunIsNext(text, t, LettersOrDigits);
  }

  lemma {:induction false} SingleCharacterIsNext(text: string, t: Token)
    requires WellFormedToken(text, t) && t.kind in {Operator, OpeningParenthesis, ClosingParenthesis, Comma}
    ensures NextToken(text, t.position) == Some(t)
  {
    assert text[t.position] == t.value[0];
  }

  /** A well-formed token is exactly the token the lexer reads at its position. */
  lemma {:induction false} WellFormedTokenIsNext(text: string, t: Token)
    requires WellFormedToken(text, t)
    ensures NextToken(text, t.position) == Some(t)
  {
    if t.kind == WhiteSpace {
      WhiteSpaceIsNext(text, t);
    } else if t.kind == Literal {
      LiteralIsNext(text, t);
    } else if t.kind in {FunctionName, ConstantName, Variable} {
      IdentifierIsNext(text, t);
    } else {
      SingleCharacterIsNext(text, t);
    }
  }

  /** The token the lexer reads is well-formed. */
  lemma {:induction false} NextTokenWellFormed(text: string, i: nat)
    requires i < |text|
    ensures NextToken(text, i).Some? <==> StartsToken(text[i])
    ensures NextToken(text, i).Some? ==> WellFormedToken(text, NextToken(text, i).value)
  {
    var c := text[i];
    if IsWhiteSpace(c) {
      WhiteSpaceWellFormed(text, i);
    } else if IsDigit(c) {
      LiteralWellFormed(text, i);
    } else if c in SingleCharacterTokenTypes {
      assert text[i..i + 1] == [c];
    } else if IsLetter(c) {
      IdentifierWellFormed(text, i);
    }
  }

  lemma {:induction false} WhiteSpaceWellFormed(text: string, i: nat)
    requires i < |text| && IsWhiteSpace(text[i])
    ensures NextToken(text, i).Some? && WellFormedToken(text, NextToken(text, i).value)
  {
    var t := NextToken(text, i).value;
    assert forall k :: 0 <= k < |t.value| ==> t.value[k] == text[i + k];
  }

  lemma {:induction false} LiteralWellFormed(text: string, i: nat)
    requires i < |text| && !IsWhiteSpace(text[i]) && IsDigit(text[i])
    ensures NextToken(text, i).Some? && WellFormedToken(text, NextToken(text, i).value)
  {
    LiteralEndShape(text, i);
  }

  lemma {:induction false} IdentifierWellFormed(text: string, i: nat)
    requires i < |text| && !IsWhiteSpace(text[i]) && !IsDigit(text[i]) && text[i] !in SingleCharacterTokenTypes && IsLetter(text[i])
    ensures NextToken(text, i).Some? && WellFormedToken(text, NextToken(text, i).value)
  {
    var t := NextToken(text, i).value;
    assert forall k :: 0 <= k < |t.value| ==> t.value[k] == text[i + k];
  }

  /** Laying a well-formed token in front of a span extends the span. */
  lemma {:induction false} SpansCons(text: string, t: Token, rest: seq<Token>, i: nat, j: nat)
    requires t.position == i && WellFormedToken(text, t) && Spans(text, rest, i + |t.value|, j)
    ensures Spans(text, [t] + rest, i, j)
  {
    assert ([t] + rest)[1..] == rest;
  }

  /** An error names a character before the end of the text that starts no token, and quotes it. */
  predicate StoppedAtBadCharacter(text: string, l: Lexed) {
    l.error.Some? ==>
      && l.error.value.position < |text|
      && !StartsToken(text[l.error.value.position])
      && l.error.value.message == "Unexpected character: " + [text[l.error.value.position]]
  }

  /** `l` is a sound stream for `text[i..]`: it spans the text from `i` to where it stopped, and stops only at a bad character. */
  predicate SoundFrom(text: string, i: nat, l: Lexed) {
    && i <= StreamEnd(text, l) <= |text|
    && Spans(text, l.tokens, i, StreamEnd(text, l))
    && StoppedAtBadCharacter(text, l)
  }

  /** A sound stream after the token the lexer reads at `i`, with that token in front, is sound from `i`. */
  lemma {:induction false} SoundStep(text: string, i: nat, t: Token, rest: Lexed)
    requires i < |text| && NextToken(text, i) == Some(t)
    requires SoundFrom(text, i + |t.value|, rest)
    ensures SoundFrom(text, i, Prepend([t], rest))
  {
    NextTokenWellFormed(text, i);
    SpansCons(text, t, rest.tokens, i, StreamEnd(text, rest));
  }

  /** Soundness: the stream read from `i` on spans the text up to where it stopped, and it stops early only at a character that starts no token. */
  lemma {:induction false} TokenizeFromSound(text: string, i: nat)
    requires i <= |text|
    ensures SoundFrom(text, i, TokenizeFrom(text, i))
    decreases |text| - i
  {
    if i == |text| {
    } else if NextToken(text, i).None? {
      SoundStuck(text, i);
    } else {
      var t := NextToken(text, i).value;
      TokenizeFromSound(text, i + |t.value|);
      SoundStep(text, i, t, TokenizeFrom(text, i + |t.value|));
      TokenizeStep(text, i, t);
    }
  }

  lemma {:induction false} SoundStuck(text: string, i: nat)
    requires i < |text| && NextToken(text, i).None?
    ensures SoundFrom(text, i, TokenizeFrom(text, i))
  {
    NextTokenWellFormed(text, i);
    TokenizeStuck(text, i);
  }

  /** What a text that stops at `j` lexes to from `j` on. */
  function StopAt(text: string, j: nat): Lexed
    requires j <= |text|
  {
    Lexed([], if j == |text| then None else Some(UnexpectedCharacter(text, j)))
  }

  lemma {:induction false} SpansHead(text: string, ts: seq<Token>, i: nat, j: nat)
    requires ts != [] && Spans(text, ts, i, j)
    ensures ts[0].position == i && WellFormedToken(text, ts[0])
  {
  }

  /** Completeness: tokens spanning `text[i..j]`, stopped at the end or at a character that starts no token, are what the lexer reads. */
  lemma {:induction false} TokenizeFromComplete(text: string, ts: seq<Token>, i: nat, j: nat)
    requires Spans(text, ts, i, j) && j <= |text|
    requires j < |text| ==> !StartsToken(text[j])
    ensures TokenizeFrom(text, i) == Prepend(ts, StopAt(text, j))
    decreases |ts|
  {
    if ts == [] {
      if j < |text| {
        NextTokenWellFormed(text, j);
      }
    } else {
      var t := ts[0];
      SpansHead(text, ts, i, j);
      TokenizeFromComplete(text, ts[1..], i + |t.value|, j);
      WellFormedTokenIsNext(text, t);
      TokenizeStep(text, i, t);
      PrependAssociative([t], ts[1..], StopAt(text, j));
      assert [t] + ts[1..] == ts;
    }
  }


  /** Round trip: the token texts, whitespace included, concatenate to the input, or to the part before the offending character. */
  lemma {:induction false} TokenizeReproducesText(text: string)
    ensures Tokenize(text).error.None? ==> Concat(Tokenize(text).tokens) == text
    ensures Tokenize(text).error.Some? ==>
      var p := Tokenize(text).error.value.position;
      p < |text| && Concat(Tokenize(text).tokens) == text[..p] && !StartsToken(text[p])
  {
    var l := Tokenize(text);
    TokenizeFromSound(text, 0);
    SpansConcat(text, l.tokens, 0, StreamEnd(text, l));
  }

  /** Positions: the first token starts at 0, each next one where the previous ended, and each is non-empty and well-formed. */
  lemma {:induction false} TokenizePositions(text: string)
    ensures var ts := Tokenize(text).tokens;
      && (|ts| > 0 ==> ts[0].position == 0)
      && (forall k :: 0 <= k < |ts| - 1 ==> ts[k + 1].position == ts[k].position + |ts[k].value|)
      && (|ts| > 0 ==> ts[|ts| - 1].position + |ts[|ts| - 1].value| == StreamEnd(text, Tokenize(text)))
  {
    var l := Tokenize(text);
    TokenizeFromSound(text, 0);
    SpansContiguous(text, l.tokens, 0, StreamEnd(text, l));
  }

  lemma {:induction false} SpansWellFormed(text: string, ts: seq<Token>, i: nat, j: nat)
    requires Spans(text, ts, i, j)
    ensures forall k :: 0 <= k < |ts| ==> WellFormedToken(text, ts[k])
    decreases |ts|
  {
    if ts != [] {
      SpansWellFormed(text, ts[1..], i + |ts[0].value|, j);
      assert forall k :: 1 <= k < |ts| ==> ts[k] == ts[1..][k - 1];
    }
  }

  /** Every emitted token has the shape its kind demands (maximal runs, literal grammar, classification priority). */
  lemma {:induction false} TokenizeWellFormed(text: string)
    ensures forall k :: 0 <= k < |Tokenize(text).tokens| ==> WellFormedToken(text, Tokenize(text).tokens[k])
  {
    var l := Tokenize(text);
    TokenizeFromSound(text, 0);
    SpansWellFormed(text, l.tokens, 0, StreamEnd(text, l));
  }

  /** The shape rules pin the tokenization down: a text lexes without error to `ts` exactly when `ts` spans it. */
  lemma {:induction false} TokenizeCharacterized(text: string, ts: seq<Token>)
    ensures Tokenize(text) == Lexed(ts, None) <==> Spans(text, ts, 0, |text|)
  {
    if Spans(text, ts, 0, |text|) {
      TokenizeFromComplete(text, ts, 0, |text|);
    }
    if Tokenize(text) == Lexed(ts, None) {
      TokenizeFromSound(text, 0);
    }
  }
}
