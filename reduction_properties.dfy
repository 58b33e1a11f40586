/**
 * What the reduction passes promise: the sign rule between an operator and
 * its right operand, left associativity, implicit multiplication as explicit
 * multiplication, the additive sign rule and its trailing-sign error, that a
 * non-empty group always reduces to one node or a syntax error, and that the
 * passes neither lose nor invent variables or calls.
 */
module ReductionProperties {
  import opened Wrappers
  import opened Tokens
  import opened SyntaxNodes
  import opened SyntaxErrors
  import opened Reduction

  // ----- Signs between an operator and its right operand -----

  /** Every element is a `+` or `-` token. */
  predicate AllSigns(signs: seq<Element>) {
    forall k :: 0 <= k < |signs| ==> signs[k].TokenElement? && signs[k].token.value in {"+", "-"}
  }

  /** Every element is a token. */
  predicate AllTokens(s: seq<Element>) {
    forall k :: 0 <= k < |s| ==> s[k].TokenElement?
  }

  /** The number of `-` tokens in `s`. */
  function MinusCount(s: seq<Element>): nat {
    if s == [] then 0
    else (if s[0].TokenElement? && s[0].token.value == "-" then 1 else 0) + MinusCount(s[1..])
  }

  /** The operand after a run of signs is negated exactly when the run holds an odd number of `-`. */
  lemma {:induction false} RightOperandSignParity(operator: Token, signs: seq<Element>, n: Node, after: seq<Element>, negative: bool)
    requires AllSigns(signs)
    ensures TakeRightOperand(operator, signs + [NodeElement(n)] + after, negative)
         == Ok(Operand(if negative != (MinusCount(signs) % 2 == 1) then NegationNode(n) else n, after))
    decreases |signs|
  {
    var rest := signs + [NodeElement(n)] + after;
    if signs == [] {
      assert rest == [NodeElement(n)] + after;
    } else {
      assert rest[0] == signs[0] && rest[1..] == signs[1..] + [NodeElement(n)] + after;
      var flip := signs[0].token.value == "-";
      RightOperandSignParity(operator, signs[1..], n, after, if flip then !negative else negative);
    }
  }

  /** A token other than a sign where the operand should be is a syntax error naming the operator. */
  lemma {:induction false} RightOperandUnexpectedToken(operator: Token, signs: seq<Element>, t: Token, after: seq<Element>, negative: bool)
    requires AllSigns(signs) && t.value != "+" && t.value != "-"
    ensures TakeRightOperand(operator, signs + [TokenElement(t)] + after, negative)
         == Err(SyntacticException(Some(operator), "Right expression expected"))
    decreases |signs|
  {
    var rest := signs + [TokenElement(t)] + after;
    if signs == [] {
      assert rest == [TokenElement(t)] + after;
    } else {
      assert rest[0] == signs[0] && rest[1..] == signs[1..] + [TokenElement(t)] + after;
      RightOperandUnexpectedToken(operator, signs[1..], t, after, if signs[0].token.value == "-" then !negative else negative);
    }
  }

  /** An operator followed only by signs runs off the end of the list: a null dereference, never a result. */
  lemma {:induction false} RightOperandMissing(operator: Token, signs: seq<Element>, negative: bool)
    requires AllSigns(signs)
    ensures TakeRightOperand(operator, signs, negative) == Err(NullReferenceException)
    decreases |signs|
  {
    if signs != [] {
      RightOperandMissing(operator, signs[1..], if signs[0].token.value == "-" then !negative else negative);
    }
  }

  // ----- The binary passes -----

  predicate NoOperatorOf(level: Level, s: seq<Element>) {
    forall k :: 0 <= k < |s| ==> !IsOperatorOf(level, s[k])
  }

  lemma {:induction false} FoldFromLeavesNoOperator(level: Level, done: seq<Element>, rest: seq<Element>)
    requires NoOperatorOf(level, done)
    ensures FoldFrom(level, done, rest).Ok? ==> NoOperatorOf(level, FoldFrom(level, done, rest).value)
    decreases |rest|
  {
    if rest != [] {
      if IsOperatorOf(level, rest[0]) {
        if done != [] && done[|done| - 1].NodeElement? {
          var operator := rest[0].token;
          match TakeRightOperand(operator, rest[1..], false)
          case Err(_) =>
          case Ok(Operand(right, after)) =>
            var left := done[|done| - 1].node;
            var done' := done[..|done| - 1] + [NodeElement(BinaryOperationNode(left, right, OperationOf(level, operator)))];
            FoldFromLeavesNoOperator(level, done', after);
        }
      } else {
        FoldFromLeavesNoOperator(level, done + [rest[0]], rest[1..]);
      }
    }
  }

  /** After a binary pass no operator of its level is left. */
  lemma {:induction false} FoldLeavesNoOperator(level: Level, list: seq<Element>)
    ensures Fold(level, list).Ok? ==> NoOperatorOf(level, Fold(level, list).value)
  {
    FoldFromLeavesNoOperator(level, [], list);
  }

  lemma {:induction false} FoldFromNoOperator(level: Level, done: seq<Element>, rest: seq<Element>)
    requires NoOperatorOf(level, rest)
    ensures FoldFrom(level, done, rest) == Ok(done + rest)
    decreases |rest|
  {
    if rest == [] {
      assert done + rest == done;
    } else {
      assert !IsOperatorOf(level, rest[0]);
      FoldFromNoOperator(level, done + [rest[0]], rest[1..]);
      assert done + [rest[0]] + rest[1..] == done + rest;
    }
  }

  /** A binary pass is idempotent: run again, it leaves the list as the first run left it. */
  lemma {:induction false} FoldIdempotent(level: Level, list: seq<Element>)
    ensures Fold(level, list).Ok? ==> Fold(level, Fold(level, list).value) == Fold(level, list)
  {
    FoldLeavesNoOperator(level, list);
    if Fold(level, list).Ok? {
      var folded := Fold(level, list).value;
      FoldFromNoOperator(level, [], folded);
      assert [] + folded == folded;
    }
  }

  /** Reducing a group is reducing the list its power pass leaves. */
  lemma {:induction false} ReducePowered(list: seq<Element>)
    ensures Fold(PowerLevel, list).Ok? ==> Reduce(list) == Reduce(Fold(PowerLevel, list).value)
  {
    FoldIdempotent(PowerLevel, list);
  }

  /** A group holding one node reduces to that node. */
  lemma {:induction false} ReduceSingle(n: Node)
    ensures Reduce([NodeElement(n)]) == Ok(n)
  {
    var e := NodeElement(n);
    var empty: seq<Element> := [];
    assert empty + [e] == [e] && [e][1..] == [];
    assert FoldFrom(PowerLevel, [], [e]) == FoldFrom(PowerLevel, [e], []);
    assert MulRun(n, []) == Operand(n, []);
    assert JuxtaposeFrom([], [e]) == JuxtaposeFrom([e], []);
    assert FoldFrom(ProductLevel, [], [e]) == FoldFrom(ProductLevel, [e], []);
    assert AdditiveFrom(None, [e], 0) == AdditiveFrom(Some(n), [], 0);
  }

  /** A chain `a op b op c` of one level folds to the left: `(a op b) op c`; so `2^3^2` is Pow(Pow(2,3),2). */
  lemma {:induction false} FoldChainLeftAssociative(level: Level, a: Node, op1: Token, b: Node, op2: Token, c: Node)
    requires IsOperatorOf(level, TokenElement(op1)) && IsOperatorOf(level, TokenElement(op2))
    ensures Fold(level, [NodeElement(a), TokenElement(op1), NodeElement(b), TokenElement(op2), NodeElement(c)])
         == Ok([NodeElement(BinaryOperationNode(BinaryOperationNode(a, b, OperationOf(level, op1)), c, OperationOf(level, op2)))])
  {
    var list := [NodeElement(a), TokenElement(op1), NodeElement(b), TokenElement(op2), NodeElement(c)];
    var ab := BinaryOperationNode(a, b, OperationOf(level, op1));
    var tail := [TokenElement(op2), NodeElement(c)];
    var empty: seq<Element> := [];
    assert empty + [list[0]] == [NodeElement(a)];
    assert list[1..] == [TokenElement(op1), NodeElement(b)] + tail;
    FoldStep(level, a, op1, b, tail);
    assert tail == [TokenElement(op2), NodeElement(c)] + [];
    FoldStep(level, ab, op2, c, []);
  }

  /** A binary operator between the last node done and a node: the two become one node, and the cursor moves past them. */
  lemma {:induction false} FoldStep(level: Level, left: Node, operator: Token, right: Node, tail: seq<Element>)
    requires IsOperatorOf(level, TokenElement(operator))
    ensures FoldFrom(level, [NodeElement(left)], [TokenElement(operator), NodeElement(right)] + tail)
         == FoldFrom(level, [NodeElement(BinaryOperationNode(left, right, OperationOf(level, operator)))], tail)
  {
    var rest := [TokenElement(operator), NodeElement(right)] + tail;
    assert rest[1..] == [NodeElement(right)] + tail;
    assert rest[0] == TokenElement(operator);
    assert TakeRightOperand(operator, rest[1..], false) == Ok(Operand(right, tail));
    var folded := NodeElement(BinaryOperationNode(left, right, OperationOf(level, operator)));
    assert [NodeElement(left)][..0] + [folded] == [folded];
  }

  /** An operator with nothing, or another token, before it is a syntax error naming the operator. */
  lemma {:induction false} FoldMissingLeft(level: Level, done: seq<Element>, operator: Token, rest: seq<Element>)
    requires IsOperatorOf(level, TokenElement(operator))
    requires done == [] || done[|done| - 1].TokenElement?
    ensures FoldFrom(level, done, [TokenElement(operator)] + rest)
         == Err(SyntacticException(Some(operator), "Left expression expected"))
  {
  }

  // ----- Implicit multiplication -----

  predicate NoAdjacentNodes(s: seq<Element>) {
    forall k :: 0 <= k < |s| - 1 ==> !(s[k].NodeElement? && s[k + 1].NodeElement?)
  }

  lemma {:induction false} MulRunStopsAtToken(acc: Node, rest: seq<Element>)
    ensures var run := MulRun(acc, rest); run.after == [] || run.after[0].TokenElement?
    decreases |rest|
  {
    if rest != [] && rest[0].NodeElement? {
      MulRunStopsAtToken(BinaryOperationNode(acc, rest[0].node, Mul), rest[1..]);
    }
  }

  lemma {:induction false} JuxtaposeFromNoAdjacent(done: seq<Element>, rest: seq<Element>)
    requires NoAdjacentNodes(done)
    requires done != [] && done[|done| - 1].NodeElement? ==> rest == [] || rest[0].TokenElement?
    ensures NoAdjacentNodes(JuxtaposeFrom(done, rest))
    decreases |rest|
  {
    if rest != [] {
      if rest[0].NodeElement? {
        var run := MulRun(rest[0].node, rest[1..]);
        MulRunStopsAtToken(rest[0].node, rest[1..]);
        JuxtaposeFromNoAdjacent(done + [NodeElement(run.right)], run.after);
      } else {
        JuxtaposeFromNoAdjacent(done + [rest[0]], rest[1..]);
      }
    }
  }

  /** After implicit multiplication no two nodes are adjacent. */
  lemma {:induction false} JuxtaposeNoAdjacent(list: seq<Element>)
    ensures NoAdjacentNodes(Juxtapose(list))
  {
    JuxtaposeFromNoAdjacent([], list);
  }

  lemma {:induction false} JuxtaposeFromIdentity(done: seq<Element>, rest: seq<Element>)
    requires NoAdjacentNodes(rest)
    ensures JuxtaposeFrom(done, rest) == done + rest
    decreases |rest|
  {
    if rest == [] {
      assert done + rest == done;
    } else {
      if rest[0].NodeElement? {
        assert MulRun(rest[0].node, rest[1..]) == Operand(rest[0].node, rest[1..]);
      }
      JuxtaposeFromIdentity(done + [rest[0]], rest[1..]);
      assert done + [rest[0]] + rest[1..] == done + rest;
    }
  }

  /** Implicit multiplication is idempotent. */
  lemma {:induction false} JuxtaposeIdempotent(list: seq<Element>)
    ensures Juxtapose(Juxtapose(list)) == Juxtapose(list)
  {
    JuxtaposeNoAdjacent(list);
    JuxtaposeFromIdentity([], Juxtapose(list));
    assert [] + Juxtapose(list) == Juxtapose(list);
  }

  /** Adjacent nodes multiply: a group `a b` reduces to the same node as `a * b`, as `2x` does to `2*x`. */
  lemma {:induction false} ImplicitIsExplicitMultiplication(a: Node, b: Node, star: Token)
    requires star.value == "*"
    ensures Reduce([NodeElement(a), NodeElement(b)]) == Reduce([NodeElement(a), TokenElement(star), NodeElement(b)])
    ensures Reduce([NodeElement(a), NodeElement(b)]) == Ok(BinaryOperationNode(a, b, Mul))
  {
    ReduceJuxtaposed(a, b);
    ReduceStar(a, b, star);
  }

  /** `a b`: the power pass and the product pass leave it, implicit multiplication folds it. */
  lemma {:induction false} ReduceJuxtaposed(a: Node, b: Node)
    ensures Reduce([NodeElement(a), NodeElement(b)]) == Ok(BinaryOperationNode(a, b, Mul))
  {
    var na, nb := NodeElement(a), NodeElement(b);
    var implicit := [na, nb];
    var ab := NodeElement(BinaryOperationNode(a, b, Mul));
    var empty: seq<Element> := [];
    assert empty + [na] == [na] && empty + [ab] == [ab];
    assert implicit[1..] == [nb] && [na] + [nb] == implicit && [nb][1..] == [];
    assert FoldFrom(PowerLevel, [], implicit) == FoldFrom(PowerLevel, [na], [nb]) == FoldFrom(PowerLevel, implicit, []);
    assert MulRun(a, [nb]) == MulRun(ab.node, []) == Operand(ab.node, []);
    assert JuxtaposeFrom([], implicit) == JuxtaposeFrom([ab], []);
    assert FoldFrom(ProductLevel, [], [ab]) == FoldFrom(ProductLevel, [ab], []);
    assert AdditiveFrom(None, [ab], 0) == AdditiveFrom(Some(ab.node), [], 0);
  }

  /** `a * b`: the power pass and implicit multiplication leave it, the product pass folds it. */
  lemma {:induction false} ReduceStar(a: Node, b: Node, star: Token)
    requires star.value == "*"
    ensures Reduce([NodeElement(a), TokenElement(star), NodeElement(b)]) == Ok(BinaryOperationNode(a, b, Mul))
  {
    var na, nb := NodeElement(a), NodeElement(b);
    var explicit := [na, TokenElement(star), nb];
    var ab := NodeElement(BinaryOperationNode(a, b, Mul));
    var tail := [TokenElement(star), nb];
    assert Fold(PowerLevel, explicit) == Ok(explicit) by {
      var empty: seq<Element> := [];
      assert empty + [na] == [na] && explicit[1..] == tail && tail[1..] == [nb] && [nb][1..] == [];
      assert [na] + [TokenElement(star)] == [na, TokenElement(star)] && [na, TokenElement(star)] + [nb] == explicit;
      assert FoldFrom(PowerLevel, [], explicit) == FoldFrom(PowerLevel, [na], tail);
      assert FoldFrom(PowerLevel, [na], tail) == FoldFrom(PowerLevel, [na, TokenElement(star)], [nb]);
      assert FoldFrom(PowerLevel, [na, TokenElement(star)], [nb]) == FoldFrom(PowerLevel, explicit, []);
    }
    assert Juxtapose(explicit) == explicit by {
      var empty: seq<Element> := [];
      assert empty + [na] == [na] && explicit[1..] == tail && tail[1..] == [nb] && [nb][1..] == [];
      assert [na] + [TokenElement(star)] == [na, TokenElement(star)] && [na, TokenElement(star)] + [nb] == explicit;
      assert MulRun(a, tail) == Operand(a, tail);
      assert MulRun(b, []) == Operand(b, []);
      assert JuxtaposeFrom([], explicit) == JuxtaposeFrom([na], tail);
      assert JuxtaposeFrom([na], tail) == JuxtaposeFrom([na, TokenElement(star)], [nb]);
    }
    assert Fold(ProductLevel, explicit) == Ok([ab]) by {
      var empty: seq<Element> := [];
      assert empty + [na] == [na] && explicit[1..] == tail && tail[1..] == [nb] && [nb][1..] == [];
      assert TakeRightOperand(star, [nb], false) == Ok(Operand(b, []));
      assert [na][..0] + [ab] == [ab];
      assert FoldFrom(ProductLevel, [], explicit) == FoldFrom(ProductLevel, [na], tail);
      assert FoldFrom(ProductLevel, [na], tail) == FoldFrom(ProductLevel, [ab], []);
    }
    assert Additive([ab]) == Ok([ab]) by {
      assert [ab][1..] == [];
      assert AdditiveFrom(None, [ab], 0) == AdditiveFrom(Some(ab.node), [], 0);
    }
  }

  // ----- The additive pass -----

  /** The sign after reading a run of tokens from `sign`. */
  function SignAfter(sign: int, s: seq<Element>): int
    requires AllTokens(s)
    decreases |s|
  {
    if s == [] then sign else SignAfter(NextSign(sign, s[0].token), s[1..])
  }

  lemma {:induction false} AdditiveSkipsTokens(head: Option<Node>, signs: seq<Element>, rest: seq<Element>, sign: int)
    requires AllTokens(signs)
    ensures AdditiveFrom(head, signs + rest, sign) == AdditiveFrom(head, rest, SignAfter(sign, signs))
    decreases |signs|
  {
    if signs == [] {
      assert signs + rest == rest;
    } else {
      assert (signs + rest)[0] == signs[0] && (signs + rest)[1..] == signs[1..] + rest;
      AdditiveSkipsTokens(head, signs[1..], rest, NextSign(sign, signs[0].token));
    }
  }

  /** From +1 or -1, a run of tokens flips the sign once per `-`. */
  lemma {:induction false} SignAfterParity(sign: int, s: seq<Element>)
    requires AllTokens(s) && (sign == 1 || sign == -1)
    ensures SignAfter(sign, s) == if MinusCount(s) % 2 == 1 then -sign else sign
    decreases |s|
  {
    if s != [] {
      SignAfterParity(NextSign(sign, s[0].token), s[1..]);
    }
  }

  /** The sign a run of tokens leaves from a reset sign: 0 for no tokens, else -1 exactly when there is an odd number of `-`. */
  function RunSign(s: seq<Element>): int {
    if s == [] then 0 else if MinusCount(s) % 2 == 1 then -1 else 1
  }

  lemma {:induction false} SignAfterReset(s: seq<Element>)
    requires AllTokens(s)
    ensures SignAfter(0, s) == RunSign(s)
  {
    if s != [] {
      var first := NextSign(0, s[0].token);
      SignAfterParity(first, s[1..]);
    }
  }

  /**
   * The additive rule: the tokens before a node net to a sign; the first node
   * is negated when it is -1, and each later node is folded into the running
   * head as Sub on -1 and as Add otherwise.
   */
  lemma {:induction false} AdditiveSignRule(head: Option<Node>, signs: seq<Element>, n: Node, rest: seq<Element>)
    requires AllTokens(signs)
    ensures AdditiveFrom(head, signs + [NodeElement(n)] + rest, 0)
         == AdditiveFrom(Some(Combine(head, n, RunSign(signs))), rest, 0)
  {
    assert signs + [NodeElement(n)] + rest == signs + ([NodeElement(n)] + rest);
    AdditiveSkipsTokens(head, signs, [NodeElement(n)] + rest, 0);
    SignAfterReset(signs);
    assert ([NodeElement(n)] + rest)[1..] == rest;
  }

  /** Signs left at the end of a group are a syntax error. */
  lemma {:induction false} AdditiveTrailingSign(head: Option<Node>, signs: seq<Element>)
    requires AllTokens(signs) && signs != []
    ensures AdditiveFrom(head, signs, 0) == Err(SyntacticException(None, "Expression is expected in the end of text"))
  {
    AdditiveSkipsTokens(head, signs, [], 0);
    SignAfterReset(signs);
    assert signs + [] == signs;
  }

  /** The additive pass leaves no node only if there was none and no sign either. */
  lemma {:induction false} AdditiveFromNone(head: Option<Node>, rest: seq<Element>, sign: int)
    requires AdditiveFrom(head, rest, sign) == Ok(None)
    ensures head == None && rest == [] && sign == 0
    decreases |rest|
  {
    if rest != [] {
      match rest[0]
      case TokenElement(t) =>
        AdditiveFromNone(head, rest[1..], NextSign(sign, t));
      case NodeElement(n) =>
        AdditiveFromNone(Some(Combine(head, n, sign)), rest[1..], 0);
    }
  }

  // ----- Non-empty groups reduce to one node or fail with a syntax error -----

  lemma {:induction false} FoldFromNonEmpty(level: Level, done: seq<Element>, rest: seq<Element>)
    requires done != [] || rest != []
    ensures FoldFrom(level, done, rest).Ok? ==> FoldFrom(level, done, rest).value != []
    decreases |rest|
  {
    if rest != [] {
      if IsOperatorOf(level, rest[0]) {
        if done != [] && done[|done| - 1].NodeElement? {
          var operator := rest[0].token;
          match TakeRightOperand(operator, rest[1..], false)
          case Err(_) =>
          case Ok(Operand(right, after)) =>
            var left := done[|done| - 1].node;
            FoldFromNonEmpty(level, done[..|done| - 1] + [NodeElement(BinaryOperationNode(left, right, OperationOf(level, operator)))], after);
        }
      } else {
        FoldFromNonEmpty(level, done + [rest[0]], rest[1..]);
      }
    }
  }

  lemma {:induction false} JuxtaposeFromNonEmpty(done: seq<Element>, rest: seq<Element>)
    requires done != [] || rest != []
    ensures JuxtaposeFrom(done, rest) != []
    decreases |rest|
  {
    if rest != [] {
      if rest[0].NodeElement? {
        var run := MulRun(rest[0].node, rest[1..]);
        JuxtaposeFromNonEmpty(done + [NodeElement(run.right)], run.after);
      } else {
        JuxtaposeFromNonEmpty(done + [rest[0]], rest[1..]);
      }
    }
  }

  /**
   * The errors the passes raise: a null dereference when an operator ends
   * the list, a syntax error naming the offending operator, or the
   * trailing-sign error, which names no token.
   */
  predicate ReductionError(e: ParseError) {
    e == NullReferenceException
    || (e.SyntacticException? && (e.token.Some? || e.message == "Expression is expected in the end of text"))
  }

  /** A non-empty group never reaches the element-count exception: it reduces to exactly one node or fails with one of the errors above. */
  lemma {:induction false} ReduceNonEmpty(list: seq<Element>)
    requires list != []
    ensures Reduce(list) != Err(NotImplementedException)
    ensures Reduce(list).Err? ==> ReductionError(Reduce(list).error)
  {
    FoldFromNonEmpty(PowerLevel, [], list);
    FoldNeverNotImplemented(PowerLevel, [], list);
    if Fold(PowerLevel, list).Ok? {
      var multiplied := Juxtapose(Fold(PowerLevel, list).value);
      JuxtaposeFromNonEmpty([], Fold(PowerLevel, list).value);
      FoldFromNonEmpty(ProductLevel, [], multiplied);
      FoldNeverNotImplemented(ProductLevel, [], multiplied);
      if Fold(ProductLevel, multiplied).Ok? {
        var producted := Fold(ProductLevel, multiplied).value;
        AdditiveFromErrors(None, producted, 0);
        if AdditiveFrom(None, producted, 0) == Ok(None) {
          AdditiveFromNone(None, producted, 0);
        }
      }
    }
  }

  lemma {:induction false} RightOperandErrors(operator: Token, rest: seq<Element>, negative: bool)
    ensures TakeRightOperand(operator, rest, negative).Err? ==> ReductionError(TakeRightOperand(operator, rest, negative).error)
    decreases |rest|
  {
    if rest != [] && rest[0].TokenElement? {
      RightOperandErrors(operator, rest[1..], !negative);
      RightOperandErrors(operator, rest[1..], negative);
    }
  }

  lemma {:induction false} FoldNeverNotImplemented(level: Level, done: seq<Element>, rest: seq<Element>)
    ensures FoldFrom(level, done, rest).Err? ==> ReductionError(FoldFrom(level, done, rest).error)
    decreases |rest|
  {
    if rest != [] {
      if IsOperatorOf(level, rest[0]) {
        if done != [] && done[|done| - 1].NodeElement? {
          var operator := rest[0].token;
          RightOperandErrors(operator, rest[1..], false);
          match TakeRightOperand(operator, rest[1..], false)
          case Err(_) =>
          case Ok(Operand(right, after)) =>
            var left := done[|done| - 1].node;
            FoldNeverNotImplemented(level, done[..|done| - 1] + [NodeElement(BinaryOperationNode(left, right, OperationOf(level, operator)))], after);
        }
      } else {
        FoldNeverNotImplemented(level, done + [rest[0]], rest[1..]);
      }
    }
  }

  lemma {:induction false} AdditiveFromErrors(head: Option<Node>, rest: seq<Element>, sign: int)
    ensures AdditiveFrom(head, rest, sign).Err? ==> ReductionError(AdditiveFrom(head, rest, sign).error)
    decreases |rest|
  {
    if rest != [] {
      match rest[0]
      case TokenElement(t) =>
        AdditiveFromErrors(head, rest[1..], NextSign(sign, t));
      case NodeElement(n) =>
        AdditiveFromErrors(Some(Combine(head, n, sign)), rest[1..], 0);
    }
  }

  // ----- The passes keep the variables and calls of the group -----

  /** The variables of the nodes of a list. */
  function ElementVariables(s: seq<Element>): set<string> {
    if s == [] then {}
    else (if s[0].NodeElement? then Variables(s[0].node) else {}) + ElementVariables(s[1..])
  }

  /** Every node of a list satisfies `CallsResolved`. */
  predicate ElementsResolved(s: seq<Element>) {
    s == [] || ((s[0].TokenElement? || CallsResolved(s[0].node)) && ElementsResolved(s[1..]))
  }

  lemma {:induction false} ElementsConcat(a: seq<Element>, b: seq<Element>)
    ensures ElementVariables(a + b) == ElementVariables(a) + ElementVariables(b)
    ensures ElementsResolved(a + b) <==> ElementsResolved(a) && ElementsResolved(b)
    decreases |a|
  {
    if a == [] {
      assert a + b == b;
    } else {
      assert (a + b)[0] == a[0] && (a + b)[1..] == a[1..] + b;
      ElementsConcat(a[1..], b);
    }
  }

  lemma {:induction false} ElementsSplitLast(s: seq<Element>)
    requires s != []
    ensures ElementVariables(s) == ElementVariables(s[..|s| - 1]) + ElementVariables([s[|s| - 1]])
    ensures ElementsResolved(s) <==> ElementsResolved(s[..|s| - 1]) && ElementsResolved([s[|s| - 1]])
  {
    ElementsConcat(s[..|s| - 1], [s[|s| - 1]]);
    assert s[..|s| - 1] + [s[|s| - 1]] == s;
  }

  lemma {:induction false} ElementsSplitFirst(s: seq<Element>)
    requires s != []
    ensures ElementVariables(s) == ElementVariables([s[0]]) + ElementVariables(s[1..])
    ensures ElementsResolved(s) <==> ElementsResolved([s[0]]) && ElementsResolved(s[1..])
  {
    ElementsConcat([s[0]], s[1..]);
    assert [s[0]] + s[1..] == s;
  }

  lemma {:induction false} RightOperandKeepsElements(operator: Token, rest: seq<Element>, negative: bool)
    ensures var r := TakeRightOperand(operator, rest, negative);
      r.Ok? ==>
        && Variables(r.value.right) + ElementVariables(r.value.after) == ElementVariables(rest)
        && (ElementsResolved(rest) ==> CallsResolved(r.value.right) && ElementsResolved(r.value.after))
    decreases |rest|
  {
    if rest != [] {
      ElementsSplitFirst(rest);
      if rest[0].TokenElement? {
        RightOperandKeepsElements(operator, rest[1..], !negative);
        RightOperandKeepsElements(operator, rest[1..], negative);
      }
    }
  }

  lemma {:induction false} FoldFromKeepsElements(level: Level, done: seq<Element>, rest: seq<Element>)
    ensures var r := FoldFrom(level, done, rest);
      r.Ok? ==>
        && ElementVariables(r.value) == ElementVariables(done) + ElementVariables(rest)
        && (ElementsResolved(done) && ElementsResolved(rest) ==> ElementsResolved(r.value))
    decreases |rest|
  {
    if rest != [] {
      ElementsSplitFirst(rest);
      if IsOperatorOf(level, rest[0]) {
        if done != [] && done[|done| - 1].NodeElement? {
          var operator := rest[0].token;
          RightOperandKeepsElements(operator, rest[1..], false);
          match TakeRightOperand(operator, rest[1..], false)
          case Err(_) =>
          case Ok(Operand(right, after)) =>
            var left := done[|done| - 1].node;
            var folded := NodeElement(BinaryOperationNode(left, right, OperationOf(level, operator)));
            ElementsSplitLast(done);
            ElementsConcat(done[..|done| - 1], [folded]);
            FoldFromKeepsElements(level, done[..|done| - 1] + [folded], after);
        }
      } else {
        ElementsConcat(done, [rest[0]]);
        FoldFromKeepsElements(level, done + [rest[0]], rest[1..]);
      }
    }
  }

  lemma {:induction false} MulRunKeepsElements(acc: Node, rest: seq<Element>)
    ensures var run := MulRun(acc, rest);
      && Variables(run.right) + ElementVariables(run.after) == Variables(acc) + ElementVariables(rest)
      && (CallsResolved(acc) && ElementsResolved(rest) ==> CallsResolved(run.right) && ElementsResolved(run.after))
    decreases |rest|
  {
    if rest != [] && rest[0].NodeElement? {
      ElementsSplitFirst(rest);
      MulRunKeepsElements(BinaryOperationNode(acc, rest[0].node, Mul), rest[1..]);
    }
  }

  lemma {:induction false} JuxtaposeFromKeepsElements(done: seq<Element>, rest: seq<Element>)
    ensures var r := JuxtaposeFrom(done, rest);
      && ElementVariables(r) == ElementVariables(done) + ElementVariables(rest)
      && (ElementsResolved(done) && ElementsResolved(rest) ==> ElementsResolved(r))
    decreases |rest|
  {
    if rest != [] {
      ElementsSplitFirst(rest);
      if rest[0].NodeElement? {
        var run := MulRun(rest[0].node, rest[1..]);
        MulRunKeepsElements(rest[0].node, rest[1..]);
        ElementsConcat(done, [NodeElement(run.right)]);
        JuxtaposeFromKeepsElements(done + [NodeElement(run.right)], run.after);
      } else {
        ElementsConcat(done, [rest[0]]);
        JuxtaposeFromKeepsElements(done + [rest[0]], rest[1..]);
      }
    }
  }

  function HeadVariables(head: Option<Node>): set<string> {
    if head.Some? then Variables(head.value) else {}
  }

  predicate HeadResolved(head: Option<Node>) {
    head.Some? ==> CallsResolved(head.value)
  }

  lemma {:induction false} AdditiveFromKeepsElements(head: Option<Node>, rest: seq<Element>, sign: int)
    ensures var r := AdditiveFrom(head, rest, sign);
      r.Ok? ==>
        && HeadVariables(r.value) == HeadVariables(head) + ElementVariables(rest)
        && (HeadResolved(head) && ElementsResolved(rest) ==> HeadResolved(r.value))
    decreases |rest|
  {
    if rest != [] {
      ElementsSplitFirst(rest);
      match rest[0]
      case TokenElement(t) =>
        AdditiveFromKeepsElements(head, rest[1..], NextSign(sign, t));
      case NodeElement(n) =>
        AdditiveFromKeepsElements(Some(Combine(head, n, sign)), rest[1..], 0);
    }
  }

  /** The node a group reduces to has exactly the variables of the group's elements, and keeps their calls resolved. */
  lemma {:induction false} ReduceKeepsElements(list: seq<Element>)
    ensures Reduce(list).Ok? ==> Variables(Reduce(list).value) == ElementVariables(list)
    ensures Reduce(list).Ok? && ElementsResolved(list) ==> CallsResolved(Reduce(list).value)
  {
    FoldFromKeepsElements(PowerLevel, [], list);
    if Fold(PowerLevel, list).Ok? {
      var powered := Fold(PowerLevel, list).value;
      JuxtaposeFromKeepsElements([], powered);
      var multiplied := Juxtapose(powered);
      FoldFromKeepsElements(ProductLevel, [], multiplied);
      if Fold(ProductLevel, multiplied).Ok? {
        AdditiveFromKeepsElements(None, Fold(ProductLevel, multiplied).value, 0);
      }
    }
  }
}
