/**
 * The four reduction passes of a group (Syntax/SyntaxParser.cs, ParseGroup):
 * the group's primaries sit in a flat list of nodes and operator tokens,
 * which is rewritten in place, in order, by
 *   1. the `^` pass,
 *   2. implicit multiplication of adjacent nodes,
 *   3. the `*` and `/` pass,
 *   4. the additive pass over the remaining `+` and `-` signs.
 *
 * Each pass is specified by a recursive function over the list, split at the
 * cursor into the part already visited (`done`) and the part still to visit
 * (`rest`); the methods are the source's cursor loops, splicing a local
 * sequence where the source edits its linked list.
 */
module Reduction {
  import opened Wrappers
  import opened Tokens
  import opened SyntaxNodes
  import opened SyntaxErrors

  /** An entry of the group's list: a built node, or an operator token still to be folded. */
  datatype Element = NodeElement(node: Node) | TokenElement(token: Token)

  /** The two binary passes: `^`, and `*` with `/`. */
  datatype Level = PowerLevel | ProductLevel

  predicate IsOperatorOf(level: Level, e: Element) {
    e.TokenElement? &&
    match level
    case PowerLevel => e.token.value == "^"
    case ProductLevel => e.token.value == "*" || e.token.value == "/"
  }

  function OperationOf(level: Level, operator: Token): BinaryOperation {
    match level
    case PowerLevel => Pow
    case ProductLevel => if operator.value == "*" then Mul else Div
  }

  /** The right operand of a binary operator and what follows it. */
  datatype Operand = Operand(right: Node, after: seq<Element>)

  /**
   * The right operand after `operator`: `+` signs are dropped, each `-` flips
   * `negative`, the first node is the operand (negated if `negative`); any
   * other token is an error, and running off the end is a null dereference.
   */
  function TakeRightOperand(operator: Token, rest: seq<Element>, negative: bool): (r: Result<Operand, ParseError>)
    ensures r.Ok? ==> |r.value.after| < |rest|
    decreases |rest|
  {
    if rest == [] then Err(NullReferenceException)
    else match rest[0]
      case TokenElement(sign) =>
        if sign.value == "+" then TakeRightOperand(operator, rest[1..], negative)
        else if sign.value == "-" then TakeRightOperand(operator, rest[1..], !negative)
        else Err(SyntacticException(Some(operator), "Right expression expected"))
      case NodeElement(n) =>
        Ok(Operand(if negative then NegationNode(n) else n, rest[1..]))
  }

  /** The binary pass of `level` with the cursor at the start of `rest`. */
  function FoldFrom(level: Level, done: seq<Element>, rest: seq<Element>): Result<seq<Element>, ParseError>
    decreases |rest|
  {
    if rest == [] then Ok(done)
    else if IsOperatorOf(level, rest[0]) then
      var operator := rest[0].token;
      if done == [] || !done[|done| - 1].NodeElement? then
        Err(SyntacticException(Some(operator), "Left expression expected"))
      else
        match TakeRightOperand(operator, rest[1..], false)
        case Err(e) => Err(e)
        case Ok(Operand(right, after)) =>
          var left := done[|done| - 1].node;
          FoldFrom(level, done[..|done| - 1] + [NodeElement(BinaryOperationNode(left, right, OperationOf(level, operator)))], after)
    else FoldFrom(level, done + [rest[0]], rest[1..])
  }

  function Fold(level: Level, list: seq<Element>): Result<seq<Element>, ParseError> {
    FoldFrom(level, [], list)
  }

  /** The run of nodes after `acc`, multiplied onto it from the left, and what follows the run. */
  function MulRun(acc: Node, rest: seq<Element>): (r: Operand)
    ensures |r.after| <= |rest|
    decreases |rest|
  {
    if rest != [] && rest[0].NodeElement? then MulRun(BinaryOperationNode(acc, rest[0].node, Mul), rest[1..])
    else Operand(acc, rest)
  }

  /** The implicit multiplication pass with the cursor at the start of `rest`. */
  function JuxtaposeFrom(done: seq<Element>, rest: seq<Element>): seq<Element>
    decreases |rest|
  {
    if rest == [] then done
    else if rest[0].NodeElement? then
      var run := MulRun(rest[0].node, rest[1..]);
      JuxtaposeFrom(done + [NodeElement(run.right)], run.after)
    else JuxtaposeFrom(done + [rest[0]], rest[1..])
  }

  function Juxtapose(list: seq<Element>): seq<Element> {
    JuxtaposeFrom([], list)
  }

  /** A sign token read in the additive pass: the first one of a run sets +1, each `-` negates. */
  function NextSign(sign: int, t: Token): int {
    var s := if sign == 0 then 1 else sign;
    if t.value == "-" then -s else s
  }

  /** A node meeting the accumulated sign: the first node is negated on -1, later ones are added or subtracted. */
  function Combine(head: Option<Node>, n: Node, sign: int): Node {
    match head
    case None => if sign == -1 then NegationNode(n) else n
    case Some(h) => BinaryOperationNode(h, n, if sign == -1 then Sub else Add)
  }

  /** The additive pass: `head` is the running first node, `sign` the sign read since the last node. */
  function AdditiveFrom(head: Option<Node>, rest: seq<Element>, sign: int): Result<Option<Node>, ParseError>
    decreases |rest|
  {
    if rest == [] then
      if sign != 0 then Err(SyntacticException(None, "Expression is expected in the end of text")) else Ok(head)
    else match rest[0]
      case TokenElement(t) => AdditiveFrom(head, rest[1..], NextSign(sign, t))
      case NodeElement(n) => AdditiveFrom(Some(Combine(head, n, sign)), rest[1..], 0)
  }

  /** The list left by the additive pass: the running node, if there is one. */
  function Additive(list: seq<Element>): (r: Result<seq<Element>, ParseError>)
    ensures r.Ok? ==> |r.value| <= 1 && forall e :: e in r.value ==> e.NodeElement?
  {
    match AdditiveFrom(None, list, 0)
    case Err(e) => Err(e)
    case Ok(None) => Ok([])
    case Ok(Some(h)) => Ok([NodeElement(h)])
  }

  /** All four passes and the final element-count check. */
  function Reduce(list: seq<Element>): Result<Node, ParseError> {
    var powered :- Fold(PowerLevel, list);
    var multiplied := Juxtapose(powered);
    var producted :- Fold(ProductLevel, multiplied);
    var remaining :- Additive(producted);
    if |remaining| != 1 then Err(NotImplementedException) else Ok(remaining[0].node)
  }

  /** The sign loop after the operator at `i`: removes the signs and the operand that follow it. */
  method RemoveRightOperand(list: seq<Element>, i: nat, operator: Token) returns (r: Result<Operand, ParseError>)
    requires i < |list|
    ensures match TakeRightOperand(operator, list[i + 1..], false)
      case Err(e) => r == Err(e)
      case Ok(o) => r == Ok(Operand(o.right, list[..i + 1] + o.after))
  {
    var l := list;
    var rightSignIsNegative := false;
    var right: Node;
    while true
      invariant i < |l| && l[..i + 1] == list[..i + 1]
      invariant TakeRightOperand(operator, l[i + 1..], rightSignIsNegative) == TakeRightOperand(operator, list[i + 1..], false)
      decreases |l|
    {
      if i + 1 == |l| {
        return Err(NullReferenceException);
      }
      var j := l[i + 1];
      if j.TokenElement? {
        if j.token.value == "+" {
          l := l[..i + 1] + l[i + 2..];
          continue;
        }
        if j.token.value == "-" {
          rightSignIsNegative := !rightSignIsNegative;
          l := l[..i + 1] + l[i + 2..];
          continue;
        }
      } else {
        right := j.node;
        l := l[..i + 1] + l[i + 2..];
        break;
      }
      return Err(SyntacticException(Some(operator), "Right expression expected"));
    }
    if rightSignIsNegative {
      right := NegationNode(right);
    }
    return Ok(Operand(right, l));
  }

  /** One binary pass (`^`, or `*` and `/`) over the list, in place. */
  method FoldBinaryOperations(list: seq<Element>, level: Level) returns (r: Result<seq<Element>, ParseError>)
    ensures r == Fold(level, list)
  {
    var l := list;
    var i := 0;
    while i < |l|
      invariant 0 <= i <= |l|
      invariant Fold(level, list) == FoldFrom(level, l[..i], l[i..])
      decreases |l| - i
    {
      if IsOperatorOf(level, l[i]) {
        var current := l[i].token;
        if i == 0 || !l[i - 1].NodeElement? {
          return Err(SyntacticException(Some(current), "Left expression expected"));
        }
        var operand := RemoveRightOperand(l, i, current);
        if operand.Err? {
          return Err(operand.error);
        }
        l, i := FoldAt(level, l, i, operand.value);
      } else {
        assert l[..i + 1] == l[..i] + [l[i]] && l[i..][1..] == l[i + 1..];
      }
      i := i + 1;
    }
    assert l[..i] == l && l[i..] == [];
    return Ok(l);
  }

  /** Replaces the left operand by the folded node and removes the operator; the cursor moves back onto the new node. */
  method FoldAt(level: Level, l: seq<Element>, i: nat, operand: Operand) returns (l': seq<Element>, i': nat)
    requires 0 < i < |l| && IsOperatorOf(level, l[i]) && l[i - 1].NodeElement?
    requires |operand.after| > i && operand.after[..i + 1] == l[..i + 1]
    requires TakeRightOperand(l[i].token, l[i + 1..], false) == Ok(Operand(operand.right, operand.after[i + 1..]))
    ensures i' + 1 <= |l'| && |l'| - (i' + 1) < |l| - i
    ensures FoldFrom(level, l[..i], l[i..]) == FoldFrom(level, l'[..i' + 1], l'[i' + 1..])
  {
    var node := NodeElement(BinaryOperationNode(l[i - 1].node, operand.right, OperationOf(level, l[i].token)));
    var after := operand.after[i + 1..];
    l' := l[..i - 1] + [node] + after;
    i' := i - 1;
    assert l[i..][1..] == l[i + 1..];
    assert l[..i][..i - 1] == l[..i - 1];
    assert l'[..i' + 1] == l[..i - 1] + [node];
    assert l'[i' + 1..] == after;
  }

  /** The implicit multiplication pass, in place: each run of adjacent nodes becomes one left-nested product. */
  method FoldImplicitMultiplication(list: seq<Element>) returns (r: seq<Element>)
    ensures r == Juxtapose(list)
  {
    var l := list;
    var i := 0;
    while i < |l|
      invariant 0 <= i <= |l|
      invariant Juxtapose(list) == JuxtaposeFrom(l[..i], l[i..])
      decreases |l| - i
    {
      if l[i].NodeElement? {
        l := MultiplyRun(l, i);
      } else {
        assert l[..i + 1] == l[..i] + [l[i]] && l[i..][1..] == l[i + 1..];
      }
      i := i + 1;
    }
    assert l[..i] == l && l[i..] == [];
    return l;
  }

  /** The inner loop at a node: folds the nodes that follow it into it, removing them. */
  method MultiplyRun(list: seq<Element>, i: nat) returns (l: seq<Element>)
    requires i < |list| && list[i].NodeElement?
    ensures i < |l| && |l| <= |list|
    ensures JuxtaposeFrom(list[..i], list[i..]) == JuxtaposeFrom(l[..i + 1], l[i + 1..])
  {
    l := list;
    var current := l[i].node;
    // removing the node after the cursor brings its successor next to the cursor
    var j := i + 1;
    while j < |l| && l[j].NodeElement?
      invariant j == i + 1 <= |l| <= |list|
      invariant l[..i + 1] == list[..i + 1]
      invariant MulRun(list[i].node, list[i + 1..]) == MulRun(current, l[j..])
      decreases |l|
    {
      current := BinaryOperationNode(current, l[j].node, Mul);
      l := l[..j] + l[j + 1..];
    }
    var run := MulRun(list[i].node, list[i + 1..]);
    assert list[i..][1..] == list[i + 1..];
    l := l[i := NodeElement(current)];
    assert l[..i + 1] == list[..i] + [NodeElement(run.right)];
    assert l[i + 1..] == run.after;
  }

  /** The additive pass, in place, with the trailing-sign check; leaves the running node, if any. */
  method FoldAdditiveOperations(list: seq<Element>) returns (r: Result<seq<Element>, ParseError>)
    ensures r == Additive(list)
  {
    var l := list;
    var sign := 0;
    var i := 0;
    while i < |l|
      invariant 0 <= i <= 1 && i <= |l|
      invariant i == 1 ==> l[0].NodeElement?
      invariant AdditiveFrom(None, list, 0) == AdditiveFrom(if i == 0 then None else Some(l[0].node), l[i..], sign)
      decreases |l| - i
    {
      l, i, sign := AdditiveStep(l, i, sign);
    }
    if sign != 0 {
      return Err(SyntacticException(None, "Expression is expected in the end of text"));
    }
    assert l[i..] == [];
    assert i == 1 ==> l == [NodeElement(l[0].node)];
    return Ok(l);
  }

  /** One step of the additive loop at the cursor `i`. */
  method AdditiveStep(l: seq<Element>, i: nat, sign: int) returns (l': seq<Element>, i': nat, sign': int)
    requires i <= 1 && i < |l| && (i == 1 ==> l[0].NodeElement?)
    ensures i' <= 1 && i' <= |l'| && (i' == 1 ==> l'[0].NodeElement?)
    ensures |l'| - i' < |l| - i
    ensures AdditiveFrom(if i == 0 then None else Some(l[0].node), l[i..], sign)
         == AdditiveFrom(if i' == 0 then None else Some(l'[0].node), l'[i'..], sign')
  {
    assert l[i..][1..] == l[i + 1..];
    if l[i].TokenElement? {
      var token := l[i].token;
      sign' := sign;
      if sign' == 0 {
        sign' := 1;
      }
      if token.value == "-" {
        sign' := -sign';
      }
      l' := l[..i] + l[i + 1..];
      i' := i;
    } else {
      var right := l[i].node;
      if i == 0 {
        l' := l[0 := NodeElement(if sign == -1 then NegationNode(right) else right)];
        i' := i + 1;
      } else {
        l' := l[0 := NodeElement(BinaryOperationNode(l[0].node, right, if sign == -1 then Sub else Add))];
        l' := l'[..i] + l'[i + 1..];
        i' := i;
      }
      sign' := 0;
    }
  }

  /** The four passes in order, then the element-count check; returns the group's node. */
  method ReduceGroup(list: seq<Element>) returns (r: Result<Node, ParseError>)
    ensures r == Reduce(list)
  {
    var powered := FoldBinaryOperations(list, PowerLevel);
    if powered.Err? {
      return Err(powered.error);
    }
    var multiplied := FoldImplicitMultiplication(powered.value);
    var producted := FoldBinaryOperations(multiplied, ProductLevel);
    if producted.Err? {
      return Err(producted.error);
    }
    var remaining := FoldAdditiveOperations(producted.value);
    if remaining.Err? {
      return Err(remaining.error);
    }
    if |remaining.value| != 1 {
      return Err(NotImplementedException);
    }
    return Ok(remaining.value[0].node);
  }
}
