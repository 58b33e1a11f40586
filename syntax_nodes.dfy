/**
 * The syntax tree (Syntax/SyntaxNodes.cs): a closed set of immutable node
 * kinds, the tree that pairs a root with its variable names, and the
 * `ToString` renderings of the nodes.
 *
 * Numeric values stay abstract: a number is the literal text it was parsed
 * from or the name of a registry constant.
 */
module SyntaxNodes {
  import Registry

  datatype Number = ParsedLiteral(text: string) | NamedConstant(name: string)

  /** The operations of a binary node; `OperationName` gives their enum names. */
  datatype BinaryOperation = Add | Sub | Mul | Div | Pow

  datatype Node =
    | NumberNode(value: Number)
    | VariableNode(name: string)
    | FunctionNode(name: string, arguments: seq<Node>)
    | BinaryOperationNode(left: Node, right: Node, operation: BinaryOperation)
    | NegationNode(target: Node)

  /** The root of an expression and the names of its variables, stored as given. */
  datatype SyntaxTree = SyntaxTree(root: Node, variableNames: seq<string>)

  /** The enum name of an operation: three characters, none of them a parenthesis. */
  function OperationName(op: BinaryOperation): (r: string)
    ensures |r| == 3 && NoParentheses(r)
  {
    match op
    case Add => "Add"
    case Sub => "Sub"
    case Mul => "Mul"
    case Div => "Div"
    case Pow => "Pow"
  }

  /** The names of the variable nodes reachable from `n`. */
  function Variables(n: Node): set<string>
    decreases n
  {
    match n
    case NumberNode(_) => {}
    case VariableNode(name) => {name}
    case FunctionNode(_, arguments) => VariablesOfAll(arguments)
    case BinaryOperationNode(left, right, _) => Variables(left) + Variables(right)
    case NegationNode(target) => Variables(target)
  }

  function VariablesOfAll(ns: seq<Node>): set<string>
    decreases ns
  {
    if ns == [] then {} else Variables(ns[0]) + VariablesOfAll(ns[1..])
  }

  /** Every call names a registry function and passes it exactly its arity in arguments. */
  predicate CallsResolved(n: Node)
    decreases n
  {
    match n
    case NumberNode(_) => true
    case VariableNode(_) => true
    case FunctionNode(name, arguments) =>
      name in Registry.Functions && |arguments| == Registry.Functions[name] && AllCallsResolved(arguments)
    case BinaryOperationNode(left, right, _) => CallsResolved(left) && CallsResolved(right)
    case NegationNode(target) => CallsResolved(target)
  }

  predicate AllCallsResolved(ns: seq<Node>)
    decreases ns
  {
    ns == [] || (CallsResolved(ns[0]) && AllCallsResolved(ns[1..]))
  }

  /**
   * `ToString` of a node. `showNumber` stands for the formatting of a number
   * node's value: a variable renders as its name, a call as `name(a, b)`, a
   * binary operation as `(Left Op Right)`, a negation as `(-Target)`.
   */
  function Render(n: Node, showNumber: Number -> string): (r: string)
    ensures n.BinaryOperationNode? || n.NegationNode? ==> 2 <= |r| && r[0] == '(' && r[|r| - 1] == ')'
    ensures n.FunctionNode? ==>
      |n.name| + 2 <= |r| && r[..|n.name|] == n.name && r[|n.name|] == '(' && r[|r| - 1] == ')'
    decreases n
  {
    match n
    case NumberNode(value) => showNumber(value)
    case VariableNode(name) => name
    case FunctionNode(name, arguments) => name + "(" + RenderAll(arguments, showNumber) + ")"
    case BinaryOperationNode(left, right, op) =>
      "(" + Render(left, showNumber) + " " + OperationName(op) + " " + Render(right, showNumber) + ")"
    case NegationNode(target) => "(-" + Render(target, showNumber) + ")"
  }

  /** `string.Join(", ", arguments)`. */
  function RenderAll(ns: seq<Node>, showNumber: Number -> string): (r: string)
    ensures ns == [] ==> r == ""
    ensures ns != [] ==> Render(ns[0], showNumber) <= r
    decreases ns
  {
    if ns == [] then ""
    else if |ns| == 1 then Render(ns[0], showNumber)
    else Render(ns[0], showNumber) + ", " + RenderAll(ns[1..], showNumber)
  }

  /** `string.Join(", ", …)` from the other end: one more argument adds a separator and its rendering. */
  lemma {:induction false} RenderAllSnoc(ns: seq<Node>, n: Node, showNumber: Number -> string)
    requires ns != []
    ensures RenderAll(ns + [n], showNumber) == RenderAll(ns, showNumber) + ", " + Render(n, showNumber)
    decreases |ns|
  {
    var l := ns + [n];
    var h := Render(ns[0], showNumber);
    var m := Render(n, showNumber);
    assert |l| >= 2 && l[0] == ns[0];
    assert RenderAll(l, showNumber) == h + ", " + RenderAll(l[1..], showNumber);
    if |ns| == 1 {
      assert l[1..] == [n];
      assert RenderAll(ns, showNumber) == h;
    } else {
      assert l[1..] == ns[1..] + [n];
      RenderAllSnoc(ns[1..], n, showNumber);
      var t := RenderAll(ns[1..], showNumber);
      assert RenderAll(ns, showNumber) == h + ", " + t;
      assert h + ", " + (t + ", " + m) == (h + ", " + t) + ", " + m;
    }
  }

  /** Distinct operations render under distinct names. */
  lemma {:induction false} OperationNameInjective(a: BinaryOperation, b: BinaryOperation)
    ensures OperationName(a) == OperationName(b) <==> a == b
  {
  }

  // Parenthesis nesting of a rendering.

  /** The nesting depth after reading `s` from depth `d`, or None if a ')' closes nothing. */
  function Nesting(s: string, d: nat): Nest
    decreases |s|
  {
    if s == [] then Depth(d)
    else if s[0] == '(' then Nesting(s[1..], d + 1)
    else if s[0] == ')' then (if d == 0 then Unmatched else Nesting(s[1..], d - 1))
    else Nesting(s[1..], d)
  }

  datatype Nest = Depth(depth: nat) | Unmatched

  /** Every ')' closes an earlier '(' and every '(' is closed. */
  predicate Balanced(s: string) {
    Nesting(s, 0) == Depth(0)
  }

  predicate NoParentheses(s: string) {
    forall k :: 0 <= k < |s| ==> s[k] != '(' && s[k] != ')'
  }

  /** The names in `n` and the number texts `showNumber` gives contain no parentheses. */
  predicate PlainNames(n: Node, showNumber: Number -> string)
    decreases n
  {
    match n
    case NumberNode(value) => NoParentheses(showNumber(value))
    case VariableNode(name) => NoParentheses(name)
    case FunctionNode(name, arguments) => NoParentheses(name) && AllPlainNames(arguments, showNumber)
    case BinaryOperationNode(left, right, _) => PlainNames(left, showNumber) && PlainNames(right, showNumber)
    case NegationNode(target) => PlainNames(target, showNumber)
  }

  predicate AllPlainNames(ns: seq<Node>, showNumber: Number -> string)
    decreases ns
  {
    ns == [] || (PlainNames(ns[0], showNumber) && AllPlainNames(ns[1..], showNumber))
  }

  lemma {:induction false} NestingPlain(s: string, d: nat)
    requires NoParentheses(s)
    ensures Nesting(s, d) == Depth(d)
    decreases |s|
  {
    if s != [] {
      NestingPlain(s[1..], d);
    }
  }

  /** If `a` read from `d0` ends at `e0`, then `a + b` read from `d0 + k` continues as `b` from `e0 + k`. */
  lemma {:induction false} NestingConcat(a: string, b: string, d0: nat, e0: nat, d: nat)
    requires Nesting(a, d0) == Depth(e0) && d0 <= d
    ensures Nesting(a + b, d) == Nesting(b, e0 + (d - d0))
    decreases |a|
  {
    if a == [] {
      assert a + b == b;
    } else {
      assert (a + b)[0] == a[0] && (a + b)[1..] == a[1..] + b;
      if a[0] == '(' {
        NestingConcat(a[1..], b, d0 + 1, e0, d + 1);
      } else if a[0] == ')' {
        NestingConcat(a[1..], b, d0 - 1, e0, d - 1);
      } else {
        NestingConcat(a[1..], b, d0, e0, d);
      }
    }
  }

  lemma {:induction false} BalancedConcat(a: string, b: string)
    requires Balanced(a) && Balanced(b)
    ensures Balanced(a + b)
  {
    NestingConcat(a, b, 0, 0, 0);
  }

  lemma {:induction false} BalancedWrap(a: string)
    requires Balanced(a)
    ensures Balanced("(" + a + ")")
  {
    var w := "(" + a + ")";
    assert w[1..] == a + ")";
    NestingConcat(a, ")", 0, 0, 1);
  }

  lemma {:induction false} PlainBalanced(s: string)
    requires NoParentheses(s)
    ensures Balanced(s)
  {
    NestingPlain(s, 0);
  }

  /** The rendering of a node is balanced: binary operations and negations are fully parenthesised, calls close their argument lists. */
  lemma {:induction false} RenderBalanced(n: Node, showNumber: Number -> string)
    requires PlainNames(n, showNumber)
    ensures Balanced(Render(n, showNumber))
    decreases n
  {
    match n
    case NumberNode(value) =>
      PlainBalanced(showNumber(value));
    case VariableNode(name) =>
      PlainBalanced(name);
    case FunctionNode(name, arguments) =>
      RenderAllBalanced(arguments, showNumber);
      var inner := RenderAll(arguments, showNumber);
      BalancedWrap(inner);
      PlainBalanced(name);
      BalancedConcat(name, "(" + inner + ")");
      assert name + "(" + inner + ")" == name + ("(" + inner + ")");
    case BinaryOperationNode(left, right, op) =>
      RenderBalanced(left, showNumber);
      RenderBalanced(right, showNumber);
      var l := Render(left, showNumber);
      var r := Render(right, showNumber);
      var middle := " " + OperationName(op) + " ";
      PlainBalanced(middle);
      BalancedConcat(l, middle);
      BalancedConcat(l + middle, r);
      BalancedWrap(l + middle + r);
      assert "(" + l + " " + OperationName(op) + " " + r + ")" == "(" + (l + middle + r) + ")";
    case NegationNode(target) =>
      RenderBalanced(target, showNumber);
      var t := Render(target, showNumber);
      PlainBalanced("-");
      BalancedConcat("-", t);
      BalancedWrap("-" + t);
      assert "(-" + t + ")" == "(" + ("-" + t) + ")";
  }

  lemma {:induction false} RenderAllBalanced(ns: seq<Node>, showNumber: Number -> string)
    requires AllPlainNames(ns, showNumber)
    ensures Balanced(RenderAll(ns, showNumber))
    decreases ns
  {
    if ns == [] {
      PlainBalanced("");
    } else if |ns| == 1 {
      RenderBalanced(ns[0], showNumber);
    } else {
      RenderBalanced(ns[0], showNumber);
      RenderAllBalanced(ns[1..], showNumber);
      var h := Render(ns[0], showNumber);
      PlainBalanced(", ");
      BalancedConcat(h, ", ");
      BalancedConcat(h + ", ", RenderAll(ns[1..], showNumber));
    }
  }
}
