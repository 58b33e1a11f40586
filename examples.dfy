/**
 * Worked inputs: what the lexer emits for a few texts, and what the parser
 * builds or raises for the token sequences the lexer emits for others
 * (each token sequence is written out with the text it comes from).
 */
module Examples {
  import opened Wrappers
  import opened Tokens
  import opened SyntaxNodes
  import opened SyntaxErrors
  import opened Reduction
  import opened SyntaxParser
  import LexicalParser
  import SyntaxProperties
  import ReductionProperties
  import StringOrder
  import Registry

  function Num(text: string): Node {
    NumberNode(ParsedLiteral(text))
  }

  // ----- The lexer -----

  /** "3." is one literal: digits, then a '.', then no digits. */
  lemma {:induction false} LexTrailingDot()
    ensures LexicalParser.Tokenize("3.") == LexicalParser.Lexed([Token(Literal, "3.", 0)], None)
  {
    assert LexicalParser.RunEnd("3.", 1, LexicalParser.Digits) == 1;
    assert LexicalParser.RunEnd("3.", 2, LexicalParser.Digits) == 2;
    assert LexicalParser.LiteralEnd("3.", 0) == 2;
    assert "3."[0..2] == "3.";
    assert LexicalParser.NextToken("3.", 0) == Some(Token(Literal, "3.", 0));
  }

  /** "2x" is a literal and then a variable; a letter ends a digit run. */
  lemma {:induction false} LexJuxtaposed()
    ensures LexicalParser.Tokenize("2x") == LexicalParser.Lexed([Token(Literal, "2", 0), Token(Variable, "x", 1)], None)
  {
    assert LexicalParser.NextToken("2x", 0) == Some(Token(Literal, "2", 0)) by {
      assert LexicalParser.RunEnd("2x", 1, LexicalParser.Digits) == 1;
      assert LexicalParser.LiteralEnd("2x", 0) == 1;
      assert "2x"[0..1] == "2";
    }
    assert LexicalParser.NextToken("2x", 1) == Some(Token(Variable, "x", 1)) by {
      assert LexicalParser.RunEnd("2x", 2, LexicalParser.LettersOrDigits) == 2;
      assert "2x"[1..2] == "x";
    }
  }

  /** In "2 # 3" the literal and the blank are delivered, then the error names index 2. */
  lemma {:induction false} LexUnexpectedCharacter()
    ensures LexicalParser.Tokenize("2 # 3") ==
      LexicalParser.Lexed([Token(Literal, "2", 0), Token(WhiteSpace, " ", 1)], Some(LexicalError(2, "Unexpected character: #")))
  {
    var text := "2 # 3";
    assert LexicalParser.NextToken(text, 0) == Some(Token(Literal, "2", 0)) by {
      assert LexicalParser.RunEnd(text, 1, LexicalParser.Digits) == 1;
      assert LexicalParser.LiteralEnd(text, 0) == 1;
      assert text[0..1] == "2";
    }
    assert LexicalParser.NextToken(text, 1) == Some(Token(WhiteSpace, " ", 1)) by {
      assert LexicalParser.RunEnd(text, 2, LexicalParser.WhiteSpaces) == 2;
      assert text[1..2] == " ";
    }
    assert LexicalParser.NextToken(text, 2) == None;
    assert LexicalParser.UnexpectedCharacter(text, 2) == LexicalError(2, "Unexpected character: #");
  }

  /** The identifier at the start of "sin(pi)" is a registry function name. */
  lemma {:induction false} FunctionIdentifier(text: string)
    requires text == "sin(pi)"
    ensures LexicalParser.NextToken(text, 0) == Some(Token(FunctionName, "sin", 0))
  {
    assert LexicalParser.RunEnd(text, 3, LexicalParser.LettersOrDigits) == 3;
    assert LexicalParser.RunEnd(text, 1, LexicalParser.LettersOrDigits) == 3;
    assert text[0..3] == "sin";
  }

  /** The identifier inside the parentheses of "sin(pi)" is a registry constant name. */
  lemma {:induction false} ConstantIdentifier(text: string)
    requires text == "sin(pi)"
    ensures LexicalParser.NextToken(text, 4) == Some(Token(ConstantName, "pi", 4))
  {
    assert LexicalParser.RunEnd(text, 6, LexicalParser.LettersOrDigits) == 6;
    assert LexicalParser.RunEnd(text, 5, LexicalParser.LettersOrDigits) == 6;
    assert text[4..6] == "pi";
  }

  /** "sin(pi)": a registry function name, then a registry constant name. */
  lemma {:induction false} LexClassified(text: string)
    requires text == "sin(pi)"
    ensures LexicalParser.Tokenize(text) == LexicalParser.Lexed(
      [Token(FunctionName, "sin", 0), Token(OpeningParenthesis, "(", 3), Token(ConstantName, "pi", 4), Token(ClosingParenthesis, ")", 6)], None)
  {
    var sin, open, pi, close := Token(FunctionName, "sin", 0), Token(OpeningParenthesis, "(", 3), Token(ConstantName, "pi", 4), Token(ClosingParenthesis, ")", 6);
    FunctionIdentifier(text);
    ConstantIdentifier(text);
    assert LexicalParser.NextToken(text, 3) == Some(open) by {
      assert text[3..4] == "(";
    }
    assert LexicalParser.NextToken(text, 6) == Some(close) by {
      assert text[6..7] == ")";
    }
    LexicalParser.TokenizeStep(text, 6, close);
    LexicalParser.TokenizeStep(text, 4, pi);
    LexicalParser.TokenizeStep(text, 3, open);
    LexicalParser.TokenizeStep(text, 0, sin);
  }

  // ----- The parser -----

  /** Tokens without a variable give no variable names. */
  lemma {:induction false} NoVariableNames(ts: seq<Token>)
    requires forall k :: 0 <= k < |ts| ==> ts[k].kind != Variable
    ensures VariableNames(ts) == []
  {
    SyntaxProperties.VariableTextsTokens(ts);
    StringOrder.ElementsEmpty(VariableTexts(ts));
    StringOrder.ElementsEmpty(VariableNames(ts));
  }

  /** Tokens whose only variable is `x` give the one name `x`. */
  lemma {:induction false} OneVariableName(ts: seq<Token>, i: nat, x: string)
    requires i < |ts| && ts[i].kind == Variable && ts[i].value == x
    requires forall k :: 0 <= k < |ts| && ts[k].kind == Variable ==> ts[k].value == x
    ensures VariableNames(ts) == [x]
  {
    SyntaxProperties.VariableTextsTokens(ts);
    assert StringOrder.Elements(VariableTexts(ts)) == {x};
    assert StringOrder.Elements([x]) == {x};
    StringOrder.AscendingUnique(VariableNames(ts), [x]);
  }

  /** The power pass over `a ^ b ^ c`, then the other passes. */
  lemma {:induction false} ReducePowerChain(a: Node, op1: Token, b: Node, op2: Token, c: Node)
    requires op1.value == "^" && op2.value == "^"
    ensures Reduce([NodeElement(a), TokenElement(op1), NodeElement(b), TokenElement(op2), NodeElement(c)])
      == Ok(BinaryOperationNode(BinaryOperationNode(a, b, Pow), c, Pow))
  {
    var l := [NodeElement(a), TokenElement(op1), NodeElement(b), TokenElement(op2), NodeElement(c)];
    ReductionProperties.FoldChainLeftAssociative(PowerLevel, a, op1, b, op2, c);
    ReductionProperties.ReducePowered(l);
    ReductionProperties.ReduceSingle(BinaryOperationNode(BinaryOperationNode(a, b, Pow), c, Pow));
  }

  /** "2^3^2": `^` folds from the left. */
  lemma {:induction false} ParsePowerChain(two: Token, caret1: Token, three: Token, caret2: Token, last: Token)
    requires two.kind == Literal && two.value == "2" && three.kind == Literal && three.value == "3"
    requires caret1.kind == Operator && caret1.value == "^" && caret2.kind == Operator && caret2.value == "^"
    requires last.kind == Literal && last.value == "2"
    ensures ParseTree([two, caret1, three, caret2, last])
      == Ok(SyntaxTree(BinaryOperationNode(BinaryOperationNode(Num("2"), Num("3"), Pow), Num("2"), Pow), []))
  {
    var ts := [two, caret1, three, caret2, last];
    assert LexicalParser.IsLiteralText("2") && LexicalParser.IsLiteralText("3");
    assert SyntaxProperties.SimpleElements(ts) == [NodeElement(Num("2")), TokenElement(caret1), NodeElement(Num("3")), TokenElement(caret2), NodeElement(Num("2"))] by {
      SyntaxProperties.SimpleElementsAt(ts);
    }
    ReducePowerChain(Num("2"), caret1, Num("3"), caret2, Num("2"));
    NoVariableNames(ts);
    SyntaxProperties.ParseSimple(ts);
  }

  /** `a x ^ b`: the power pass, then implicit multiplication. */
  lemma {:induction false} ReduceImplicitPower(a: Node, x: Node, caret: Token, b: Node)
    requires caret.value == "^"
    ensures Reduce([NodeElement(a), NodeElement(x), TokenElement(caret), NodeElement(b)])
      == Ok(BinaryOperationNode(a, BinaryOperationNode(x, b, Pow), Mul))
  {
    var A, X, C, B := NodeElement(a), NodeElement(x), TokenElement(caret), NodeElement(b);
    var l := [A, X, C, B];
    var xb := NodeElement(BinaryOperationNode(x, b, Pow));
    var empty: seq<Element> := [];
    assert empty + [A] == [A] && l[1..] == [X, C, B];
    assert FoldFrom(PowerLevel, [], l) == FoldFrom(PowerLevel, [A], [X, C, B]);
    assert [A] + [X] == [A, X] && [X, C, B][1..] == [C, B];
    assert FoldFrom(PowerLevel, [A], [X, C, B]) == FoldFrom(PowerLevel, [A, X], [C, B]);
    assert [C, B][1..] == [B] && [B][1..] == [];
    assert TakeRightOperand(caret, [B], false) == Ok(Operand(b, []));
    assert [A, X][..1] + [xb] == [A, xb];
    assert FoldFrom(PowerLevel, [A, X], [C, B]) == FoldFrom(PowerLevel, [A, xb], []);
    ReductionProperties.ReducePowered(l);
    ReductionProperties.ImplicitIsExplicitMultiplication(a, xb.node, Token(Operator, "*", 0));
  }

  /** "2x^2": `^` binds before the implicit multiplication. */
  lemma {:induction false} ParseImplicitProduct(two: Token, x: Token, caret: Token, last: Token)
    requires two.kind == Literal && two.value == "2" && x.kind == Variable && x.value == "x"
    requires caret.kind == Operator && caret.value == "^" && last.kind == Literal && last.value == "2"
    ensures ParseTree([two, x, caret, last])
      == Ok(SyntaxTree(BinaryOperationNode(Num("2"), BinaryOperationNode(VariableNode("x"), Num("2"), Pow), Mul), ["x"]))
  {
    var ts := [two, x, caret, last];
    assert LexicalParser.IsLiteralText("2");
    assert SyntaxProperties.SimpleElements(ts) == [NodeElement(Num("2")), NodeElement(VariableNode("x")), TokenElement(caret), NodeElement(Num("2"))] by {
      SyntaxProperties.SimpleElementsAt(ts);
    }
    ReduceImplicitPower(Num("2"), VariableNode("x"), caret, Num("2"));
    OneVariableName(ts, 1, "x");
    SyntaxProperties.ParseSimple(ts);
  }

  /** `a ^ - x`: the sign after `^` negates its operand. */
  lemma {:induction false} ReduceNegativeExponent(a: Node, caret: Token, minus: Token, x: Node)
    requires caret.value == "^" && minus.value == "-"
    ensures Reduce([NodeElement(a), TokenElement(caret), TokenElement(minus), NodeElement(x)])
      == Ok(BinaryOperationNode(a, NegationNode(x), Pow))
  {
    var A, C, M, X := NodeElement(a), TokenElement(caret), TokenElement(minus), NodeElement(x);
    var l := [A, C, M, X];
    var p := NodeElement(BinaryOperationNode(a, NegationNode(x), Pow));
    var empty: seq<Element> := [];
    assert empty + [A] == [A] && l[1..] == [C, M, X];
    assert FoldFrom(PowerLevel, [], l) == FoldFrom(PowerLevel, [A], [C, M, X]);
    assert [C, M, X][1..] == [M, X] && [M, X][1..] == [X] && [X][1..] == [];
    assert TakeRightOperand(caret, [M, X], false) == TakeRightOperand(caret, [X], true);
    assert TakeRightOperand(caret, [X], true) == Ok(Operand(NegationNode(x), []));
    assert [A][..0] + [p] == [p];
    assert FoldFrom(PowerLevel, [A], [C, M, X]) == FoldFrom(PowerLevel, [p], []);
    ReductionProperties.ReducePowered(l);
    ReductionProperties.ReduceSingle(p.node);
  }

  /** "2^-x": a `-` between `^` and its operand negates the operand. */
  lemma {:induction false} ParseNegativeExponent(two: Token, caret: Token, minus: Token, x: Token)
    requires two.kind == Literal && two.value == "2" && caret.kind == Operator && caret.value == "^"
    requires minus.kind == Operator && minus.value == "-" && x.kind == Variable && x.value == "x"
    ensures ParseTree([two, caret, minus, x])
      == Ok(SyntaxTree(BinaryOperationNode(Num("2"), NegationNode(VariableNode("x")), Pow), ["x"]))
  {
    var ts := [two, caret, minus, x];
    assert LexicalParser.IsLiteralText("2");
    assert SyntaxProperties.SimpleElements(ts) == [NodeElement(Num("2")), TokenElement(caret), TokenElement(minus), NodeElement(VariableNode("x"))] by {
      SyntaxProperties.SimpleElementsAt(ts);
    }
    ReduceNegativeExponent(Num("2"), caret, minus, VariableNode("x"));
    OneVariableName(ts, 3, "x");
    SyntaxProperties.ParseSimple(ts);
  }

  /** A list with only additive signs between single nodes goes through the first three passes unchanged. */
  lemma {:induction false} AdditiveOnly(l: seq<Element>)
    requires forall k :: 0 <= k < |l| ==> l[k].TokenElement? ==> l[k].token.value == "+" || l[k].token.value == "-"
    requires ReductionProperties.NoAdjacentNodes(l)
    ensures Reduce(l) == (match Additive(l) case Err(e) => Err(e) case Ok(r) => if |r| != 1 then Err(NotImplementedException) else Ok(r[0].node))
  {
    ReductionProperties.FoldFromNoOperator(PowerLevel, [], l);
    ReductionProperties.JuxtaposeFromIdentity([], l);
    ReductionProperties.FoldFromNoOperator(ProductLevel, [], l);
    assert [] + l == l;
  }

  /** `- x - b`: leading signs negate the first node; a later node is subtracted. */
  lemma {:induction false} ReduceSigns(m1: Token, x: Node, m2: Token, b: Node)
    requires m1.value == "-" && m2.value == "-"
    ensures Reduce([TokenElement(m1), NodeElement(x), TokenElement(m2), NodeElement(b)])
      == Ok(BinaryOperationNode(NegationNode(x), b, Sub))
  {
    var M1, X, M2, B := TokenElement(m1), NodeElement(x), TokenElement(m2), NodeElement(b);
    var l := [M1, X, M2, B];
    AdditiveOnly(l);
    assert l[1..] == [X, M2, B] && [X, M2, B][1..] == [M2, B] && [M2, B][1..] == [B] && [B][1..] == [];
    assert AdditiveFrom(None, l, 0) == AdditiveFrom(None, [X, M2, B], -1);
    assert AdditiveFrom(None, [X, M2, B], -1) == AdditiveFrom(Some(NegationNode(x)), [M2, B], 0);
    assert AdditiveFrom(Some(NegationNode(x)), [M2, B], 0) == AdditiveFrom(Some(NegationNode(x)), [B], -1);
    assert AdditiveFrom(Some(NegationNode(x)), [B], -1) == Ok(Some(BinaryOperationNode(NegationNode(x), b, Sub)));
    assert Additive(l) == Ok([NodeElement(BinaryOperationNode(NegationNode(x), b, Sub))]);
  }

  /** "-x-1": leading signs negate the first node; later nodes are subtracted. */
  lemma {:induction false} ParseSigns(minus1: Token, x: Token, minus2: Token, one: Token)
    requires minus1.kind == Operator && minus1.value == "-" && x.kind == Variable && x.value == "x"
    requires minus2.kind == Operator && minus2.value == "-" && one.kind == Literal && one.value == "1"
    ensures ParseTree([minus1, x, minus2, one])
      == Ok(SyntaxTree(BinaryOperationNode(NegationNode(VariableNode("x")), Num("1"), Sub), ["x"]))
  {
    var ts := [minus1, x, minus2, one];
    assert LexicalParser.IsLiteralText("1");
    assert SyntaxProperties.SimpleElements(ts) == [TokenElement(minus1), NodeElement(VariableNode("x")), TokenElement(minus2), NodeElement(Num("1"))] by {
      SyntaxProperties.SimpleElementsAt(ts);
    }
    ReduceSigns(minus1, VariableNode("x"), minus2, Num("1"));
    OneVariableName(ts, 1, "x");
    SyntaxProperties.ParseSimple(ts);
  }

  /** "1+": a sign with nothing after it. */
  lemma {:induction false} ParseTrailingSign(one: Token, plus: Token)
    requires one.kind == Literal && one.value == "1" && plus.kind == Operator && plus.value == "+"
    ensures ParseTree([one, plus]) == Err(SyntacticException(None, "Expression is expected in the end of text"))
  {
    var ts := [one, plus];
    assert LexicalParser.IsLiteralText("1");
    var l := [NodeElement(Num("1")), TokenElement(plus)];
    assert SyntaxProperties.SimpleElements(ts) == l by {
      SyntaxProperties.SimpleElementsAt(ts);
    }
    assert Reduce(l) == Err(SyntacticException(None, "Expression is expected in the end of text")) by {
      AdditiveOnly(l);
      assert l[1..] == [TokenElement(plus)] && [TokenElement(plus)][1..] == [];
      assert AdditiveFrom(None, l, 0) == AdditiveFrom(Some(Num("1")), [TokenElement(plus)], 0);
      assert AdditiveFrom(Some(Num("1")), [TokenElement(plus)], 0) == AdditiveFrom(Some(Num("1")), [], 1);
      assert Additive(l) == Err(SyntacticException(None, "Expression is expected in the end of text"));
    }
    SyntaxProperties.ParseSimple(ts);
  }

  /** "2^": the right operand of `^` is read past the end of the list. */
  lemma {:induction false} ParseTrailingPower(two: Token, caret: Token)
    requires two.kind == Literal && two.value == "2" && caret.kind == Operator && caret.value == "^"
    ensures ParseTree([two, caret]) == Err(NullReferenceException)
  {
    var ts := [two, caret];
    assert LexicalParser.IsLiteralText("2");
    var l := [NodeElement(Num("2")), TokenElement(caret)];
    assert SyntaxProperties.SimpleElements(ts) == l by {
      SyntaxProperties.SimpleElementsAt(ts);
    }
    assert Reduce(l) == Err(NullReferenceException) by {
      var empty: seq<Element> := [];
      assert empty + [l[0]] == [l[0]] && l[1..] == [TokenElement(caret)] && [TokenElement(caret)][1..] == [];
      assert FoldFrom(PowerLevel, [], l) == FoldFrom(PowerLevel, [l[0]], [TokenElement(caret)]);
      assert TakeRightOperand(caret, [], false) == Err(NullReferenceException);
    }
    SyntaxProperties.ParseSimple(ts);
  }

  /** "*2": `*` with no node before it. */
  lemma {:induction false} ParseMissingLeft(star: Token, two: Token)
    requires star.kind == Operator && star.value == "*" && two.kind == Literal && two.value == "2"
    ensures ParseTree([star, two]) == Err(SyntacticException(Some(star), "Left expression expected"))
  {
    var ts := [star, two];
    assert LexicalParser.IsLiteralText("2");
    var l := [TokenElement(star), NodeElement(Num("2"))];
    assert SyntaxProperties.SimpleElements(ts) == l by {
      SyntaxProperties.SimpleElementsAt(ts);
    }
    assert Reduce(l) == Err(SyntacticException(Some(star), "Left expression expected")) by {
      ReductionProperties.FoldFromNoOperator(PowerLevel, [], l);
      ReductionProperties.JuxtaposeFromIdentity([], l);
      assert [] + l == l && l == [TokenElement(star)] + l[1..];
      ReductionProperties.FoldMissingLeft(ProductLevel, [], star, l[1..]);
    }
    SyntaxProperties.ParseSimple(ts);
  }

  /** A valid literal followed by a `)` or `,` is a group of its own. */
  lemma {:induction false} GroupOfLiteral(ts: seq<Token>, pos: nat)
    requires pos + 1 < |ts| && ts[pos].kind == Literal && LexicalParser.IsLiteralText(ts[pos].value) && EndsGroup(ts[pos + 1])
    ensures Group(ts, pos) == Ok(Parsed(Num(ts[pos].value), pos + 1))
  {
    var one := NodeElement(Num(ts[pos].value));
    assert Primary(ts, pos) == Ok(Parsed(one, pos));
    var empty: seq<Element> := [];
    assert empty + [one] == [one];
    assert Collect(ts, pos, []) == Ok(Parsed([one], pos + 1));
    ReductionProperties.ReduceSingle(one.node);
  }

  /** "1)+5": the top group stops at the `)` and the rest is never read. */
  lemma {:induction false} ParseTrailingTokens(one: Token, close: Token, plus: Token, five: Token)
    requires one.kind == Literal && one.value == "1" && close.kind == ClosingParenthesis
    requires plus.kind == Operator && plus.value == "+" && five.kind == Literal && five.value == "5"
    ensures ParseTree([one, close, plus, five]) == Ok(SyntaxTree(Num("1"), []))
  {
    var ts := [one, close, plus, five];
    SyntaxProperties.NonWhiteSpaceIdentity(ts);
    assert LexicalParser.IsLiteralText("1");
    GroupOfLiteral(ts, 0);
    NoVariableNames(ts);
  }

  /** "sin(1": the argument loop reads the type of a null `Current`. */
  lemma {:induction false} ParseUnterminatedArguments(sin: Token, open: Token, one: Token)
    requires sin.kind == FunctionName && sin.value == "sin" && open.kind == OpeningParenthesis
    requires one.kind == Literal && one.value == "1"
    ensures ParseTree([sin, open, one]) == Err(NullReferenceException)
  {
    var ts := [sin, open, one];
    SyntaxProperties.NonWhiteSpaceIdentity(ts);
    assert LexicalParser.IsLiteralText("1");
    assert Group(ts, 2) == Ok(Parsed(Num("1"), 3)) by {
      var e := NodeElement(Num("1"));
      assert Primary(ts, 2) == Ok(Parsed(e, 2));
      var empty: seq<Element> := [];
      assert empty + [e] == [e];
      assert Collect(ts, 2, []) == Ok(Parsed([e], 3));
      ReductionProperties.ReduceSingle(e.node);
    }
    assert Arguments(ts, 1, []) == Err(NullReferenceException);
    assert Primary(ts, 0) == Err(NullReferenceException);
    assert Collect(ts, 0, []) == Err(NullReferenceException);
  }

  /** "(1": the group inside the parenthesis runs to the end of the text, where no `)` stands. */
  lemma {:induction false} ParseUnclosedParenthesis(open: Token, one: Token)
    requires open.kind == OpeningParenthesis && one.kind == Literal && one.value == "1"
    ensures ParseTree([open, one]) == Err(SyntacticException(Some(open), "Closing paranthesis expected"))
  {
    var ts := [open, one];
    SyntaxProperties.NonWhiteSpaceIdentity(ts);
    assert LexicalParser.IsLiteralText("1");
    assert Group(ts, 1) == Ok(Parsed(Num("1"), 2)) by {
      var e := NodeElement(Num("1"));
      assert Primary(ts, 1) == Ok(Parsed(e, 1));
      var empty: seq<Element> := [];
      assert empty + [e] == [e];
      assert Collect(ts, 1, []) == Ok(Parsed([e], 2));
      ReductionProperties.ReduceSingle(e.node);
    }
    assert Primary(ts, 0) == Err(SyntacticException(Some(open), "Closing paranthesis expected"));
    assert Collect(ts, 0, []) == Err(SyntacticException(Some(open), "Closing paranthesis expected"));
  }

  /** "sin 1": a function name not followed by `(`. */
  lemma {:induction false} ParseMissingArgumentList(sin: Token, one: Token)
    requires sin.kind == FunctionName && sin.value == "sin" && one.kind == Literal && one.value == "1"
    ensures ParseTree([sin, one]) == Err(SyntacticException(Some(sin), "Argument list expected"))
  {
    var ts := [sin, one];
    SyntaxProperties.NonWhiteSpaceIdentity(ts);
    assert Primary(ts, 0) == Err(SyntacticException(Some(sin), "Argument list expected"));
    assert Collect(ts, 0, []) == Err(SyntacticException(Some(sin), "Argument list expected"));
  }

  /** The arguments of "sin(1,2)". */
  lemma {:induction false} TwoArguments(ts: seq<Token>)
    requires |ts| == 6 && ts[1].kind == OpeningParenthesis && ts[3].kind == Comma && ts[5].kind == ClosingParenthesis
    requires ts[2].kind == Literal && ts[2].value == "1" && ts[4].kind == Literal && ts[4].value == "2"
    ensures Arguments(ts, 1, []) == Ok(Parsed([Num("1"), Num("2")], 5))
  {
    assert LexicalParser.IsLiteralText("1") && LexicalParser.IsLiteralText("2");
    GroupOfLiteral(ts, 2);
    GroupOfLiteral(ts, 4);
    var none: seq<Node> := [];
    assert none + [Num("1")] == [Num("1")];
    assert [Num("1")] + [Num("2")] == [Num("1"), Num("2")];
    assert Arguments(ts, 1, []) == Arguments(ts, 3, [Num("1")]);
    assert Arguments(ts, 3, [Num("1")]) == Arguments(ts, 5, [Num("1"), Num("2")]);
  }

  /** A call whose closed argument list has the wrong length is reported at the function name. */
  lemma {:induction false} ArityMismatch(ts: seq<Token>, pos: nat, arguments: seq<Node>, p: nat)
    requires pos + 1 < |ts| && ts[pos].kind == FunctionName && ts[pos + 1].kind == OpeningParenthesis
    requires Arguments(ts, pos + 1, []) == Ok(Parsed(arguments, p))
    requires p < |ts| && ts[p].kind == ClosingParenthesis
    requires ts[pos].value in Registry.Functions && |arguments| != Registry.Functions[ts[pos].value]
    ensures Primary(ts, pos) == Err(SyntacticException(Some(ts[pos]),
      NatToString(Registry.Functions[ts[pos].value]) + " parameters expected, got " + NatToString(|arguments|)))
  {
  }

  /** The call primary of "sin(1,2)": one parameter expected, two given. */
  lemma {:induction false} WrongArityPrimary(ts: seq<Token>)
    requires |ts| == 6 && ts[0].kind == FunctionName && ts[0].value == "sin"
    requires ts[1].kind == OpeningParenthesis && ts[3].kind == Comma && ts[5].kind == ClosingParenthesis
    requires ts[2].kind == Literal && ts[2].value == "1" && ts[4].kind == Literal && ts[4].value == "2"
    ensures Primary(ts, 0) == Err(SyntacticException(Some(ts[0]), "1 parameters expected, got 2"))
  {
    TwoArguments(ts);
    assert Registry.Functions["sin"] == 1;
    ArityMismatch(ts, 0, [Num("1"), Num("2")], 5);
    ArityMessage();
  }

  /** The message for one parameter expected and two given. */
  lemma {:induction false} ArityMessage()
    ensures NatToString(1) + " parameters expected, got " + NatToString(2) == "1 parameters expected, got 2"
  {
    assert NatToString(1) == "1" && NatToString(2) == "2";
  }

  /** "sin(1,2)": a wrong argument count is reported at the function name. */
  lemma {:induction false} ParseWrongArity(sin: Token, open: Token, one: Token, comma: Token, two: Token, close: Token)
    requires sin.kind == FunctionName && sin.value == "sin" && open.kind == OpeningParenthesis && comma.kind == Comma
    requires one.kind == Literal && one.value == "1" && two.kind == Literal && two.value == "2" && close.kind == ClosingParenthesis
    ensures ParseTree([sin, open, one, comma, two, close])
      == Err(SyntacticException(Some(sin), "1 parameters expected, got 2"))
  {
    var ts := [sin, open, one, comma, two, close];
    SyntaxProperties.NonWhiteSpaceIdentity(ts);
    WrongArityPrimary(ts);
    assert Collect(ts, 0, []) == Err(SyntacticException(Some(sin), "1 parameters expected, got 2"));
  }
}
