/**
 * The parser (Syntax/SyntaxParser.cs). `Parse` drops whitespace, collects
 * the sorted distinct variable names and parses one group from the first
 * token; `ParseGroup` reads primaries into a list until the enumerator runs
 * out or stands on a `)` or `,`, then runs the four reduction passes.
 *
 * The token enumerator is modelled as an index `pos` into the token
 * sequence: `pos < |ts|` means `Current` is `ts[pos]`, and `pos == |ts|`
 * means `MoveNext` has returned false and `Current` is null. The source's
 * single `ParseGroup` method is split into `ParseGroup` (the do-while loop
 * and the passes), `ParsePrimary` (the switch on the current token) and
 * `ParseArguments` (the argument loop of a call); the functions `Group`,
 * `Collect`, `Primary` and `Arguments` specify them.
 */
module SyntaxParser {
  import opened Wrappers
  import opened Tokens
  import opened SyntaxNodes
  import opened SyntaxErrors
  import opened Reduction
  import LexicalParser
  import Registry
  import StringOrder

  /** A parse result and where the enumerator stands afterwards. */
  datatype Parsed<T> = Parsed(value: T, next: nat)

  /** The tokens that end a group. */
  predicate EndsGroup(t: Token) {
    t.kind == ClosingParenthesis || t.kind == Comma
  }

  /** Decimal rendering of a count, as string interpolation gives it. */
  function NatToString(n: nat): string
    decreases n
  {
    var digit := ['0', '1', '2', '3', '4', '5', '6', '7', '8', '9'][n % 10];
    if n < 10 then [digit] else NatToString(n / 10) + [digit]
  }

  /**
   * One primary at `pos`: the element it adds to the group's list, and the
   * index of its last token (a `)` for groups and calls).
   */
  function Primary(ts: seq<Token>, pos: nat): (r: Result<Parsed<Element>, ParseError>)
    requires pos < |ts|
    ensures r.Ok? ==> pos <= r.value.next < |ts|
    decreases |ts| - pos, 1
  {
    var token := ts[pos];
    match token.kind
    case Literal =>
      if LexicalParser.IsLiteralText(token.value) then Ok(Parsed(NodeElement(NumberNode(ParsedLiteral(token.value))), pos))
      else Err(SyntacticException(Some(token), "Incorrect literal " + token.value))
    case ConstantName =>
      if token.value in Registry.Constants then Ok(Parsed(NodeElement(NumberNode(NamedConstant(token.value))), pos))
      else Err(KeyNotFoundException(token.value))
    case Variable =>
      Ok(Parsed(NodeElement(VariableNode(token.value)), pos))
    case OpeningParenthesis =>
      if pos + 1 == |ts| then Err(SyntacticException(Some(token), "Expression expected"))
      else
        (match Group(ts, pos + 1)
         case Err(e) => Err(e)
         case Ok(Parsed(node, p)) =>
           if p == |ts| || ts[p].kind != ClosingParenthesis then Err(SyntacticException(Some(token), "Closing paranthesis expected"))
           else Ok(Parsed(NodeElement(node), p)))
    case FunctionName =>
      if pos + 1 == |ts| || ts[pos + 1].kind != OpeningParenthesis then Err(SyntacticException(Some(token), "Argument list expected"))
      else
        (match Arguments(ts, pos + 1, [])
         case Err(e) => Err(e)
         case Ok(Parsed(arguments, p)) =>
           if ts[p].kind != ClosingParenthesis then Err(SyntacticException(Some(token), "Closing paranthesis expected"))
           else if token.value !in Registry.Functions then Err(KeyNotFoundException(token.value))
           else if |arguments| != Registry.Functions[token.value] then
             Err(SyntacticException(Some(token), NatToString(Registry.Functions[token.value]) + " parameters expected, got " + NatToString(|arguments|)))
           else Ok(Parsed(NodeElement(FunctionNode(token.value, arguments)), p)))
    case Operator =>
      Ok(Parsed(TokenElement(token), pos))
    case _ =>
      Err(SyntacticException(Some(token), "Unexpected token"))
  }

  /**
   * The argument loop of a call, at `q` (its `(` or a `,`): a group per
   * argument; it ends at the first token that is neither, which the caller
   * checks to be `)`. Reading the type of a null `Current` is a null dereference.
   */
  function Arguments(ts: seq<Token>, q: nat, arguments: seq<Node>): (r: Result<Parsed<seq<Node>>, ParseError>)
    requires q <= |ts|
    ensures r.Ok? ==> q <= r.value.next < |ts|
    decreases |ts| - q, 0
  {
    if q == |ts| then Err(NullReferenceException)
    else if ts[q].kind == OpeningParenthesis || ts[q].kind == Comma then
      if q + 1 == |ts| then Err(SyntacticException(Some(ts[q]), "Argument expected"))
      else
        match Group(ts, q + 1)
        case Err(e) => Err(e)
        case Ok(Parsed(argument, p)) => Arguments(ts, p, arguments + [argument])
    else Ok(Parsed(arguments, q))
  }

  /** The do-while loop of a group from `pos`: the list of its primaries, and where it stopped. */
  function Collect(ts: seq<Token>, pos: nat, list: seq<Element>): (r: Result<Parsed<seq<Element>>, ParseError>)
    requires pos < |ts|
    ensures r.Ok? ==> pos < r.value.next <= |ts| && (r.value.next == |ts| || EndsGroup(ts[r.value.next]))
    decreases |ts| - pos, 2
  {
    match Primary(ts, pos)
    case Err(e) => Err(e)
    case Ok(Parsed(element, p)) =>
      var l := list + [element];
      if p + 1 < |ts| && !EndsGroup(ts[p + 1]) then Collect(ts, p + 1, l)
      else Ok(Parsed(l, if p + 1 < |ts| then p + 1 else |ts|))
  }

  /** A group from `pos`: its node, and where the enumerator stands (the end, or a `)` or `,`). */
  function Group(ts: seq<Token>, pos: nat): (r: Result<Parsed<Node>, ParseError>)
    requires pos < |ts|
    ensures r.Ok? ==> pos < r.value.next <= |ts| && (r.value.next == |ts| || EndsGroup(ts[r.value.next]))
    decreases |ts| - pos, 3
  {
    match Collect(ts, pos, [])
    case Err(e) => Err(e)
    case Ok(Parsed(list, p)) =>
      match Reduce(list)
      case Err(e) => Err(e)
      case Ok(node) => Ok(Parsed(node, p))
  }

  /** `Where(i => i.Type != TokenType.WhiteSpace)`. */
  function NonWhiteSpace(tokens: seq<Token>): seq<Token> {
    if tokens == [] then []
    else (if tokens[0].kind == WhiteSpace then [] else [tokens[0]]) + NonWhiteSpace(tokens[1..])
  }

  /** `Where(i => i.Type == TokenType.Variable).Select(i => i.Value)`. */
  function VariableTexts(ts: seq<Token>): seq<string> {
    if ts == [] then []
    else (if ts[0].kind == Variable then [ts[0].value] else []) + VariableTexts(ts[1..])
  }

  /** The variable names of a tree: distinct, in ordinal order. */
  function VariableNames(ts: seq<Token>): seq<string> {
    StringOrder.SortDistinct(VariableTexts(ts))
  }

  /** What `Parse` returns for a token sequence. */
  function ParseTree(tokens: seq<Token>): Result<SyntaxTree, ParseError> {
    var ts := NonWhiteSpace(tokens);
    if ts == [] then Err(SyntacticException(None, "Expression expected"))
    else
      match Group(ts, 0)
      case Err(e) => Err(e)
      case Ok(Parsed(root, _)) => Ok(SyntaxTree(root, VariableNames(ts)))
  }

  method Parse(tokens: seq<Token>) returns (r: Result<SyntaxTree, ParseError>)
    ensures r == ParseTree(tokens)
  {
    var lexics := NonWhiteSpace(tokens);
    if |lexics| == 0 {
      return Err(SyntacticException(None, "Expression expected"));
    }
    var variableNames := VariableNames(lexics);
    var root := ParseGroup(lexics, 0);
    if root.Err? {
      return Err(root.error);
    }
    return Ok(SyntaxTree(root.value.value, variableNames));
  }

  method ParseGroup(ts: seq<Token>, pos: nat) returns (r: Result<Parsed<Node>, ParseError>)
    requires pos < |ts|
    ensures r == Group(ts, pos)
    decreases |ts| - pos, 3
  {
    var expressionNodes: seq<Element> := [];
    var p := pos;
    while true
      invariant pos <= p < |ts|
      invariant Collect(ts, pos, []) == Collect(ts, p, expressionNodes)
      decreases |ts| - p
    {
      var primary := ParsePrimary(ts, p);
      if primary.Err? {
        return Err(primary.error);
      }
      expressionNodes := expressionNodes + [primary.value.value];
      p := primary.value.next;
      // lexics.MoveNext() && Current is neither ')' nor ','
      if p + 1 == |ts| {
        p := |ts|;
        break;
      }
      p := p + 1;
      if EndsGroup(ts[p]) {
        break;
      }
    }
    var node := ReduceGroup(expressionNodes);
    if node.Err? {
      return Err(node.error);
    }
    return Ok(Parsed(node.value, p));
  }

  method ParsePrimary(ts: seq<Token>, pos: nat) returns (r: Result<Parsed<Element>, ParseError>)
    requires pos < |ts|
    ensures r == Primary(ts, pos)
    decreases |ts| - pos, 1
  {
    var token := ts[pos];
    match token.kind {
      case Literal =>
        if LexicalParser.IsLiteralText(token.value) {
          return Ok(Parsed(NodeElement(NumberNode(ParsedLiteral(token.value))), pos));
        }
        return Err(SyntacticException(Some(token), "Incorrect literal " + token.value));
      case ConstantName =>
        if token.value !in Registry.Constants {
          return Err(KeyNotFoundException(token.value));
        }
        return Ok(Parsed(NodeElement(NumberNode(NamedConstant(token.value))), pos));
      case Variable =>
        return Ok(Parsed(NodeElement(VariableNode(token.value)), pos));
      case OpeningParenthesis =>
        if pos + 1 == |ts| {
          return Err(SyntacticException(Some(token), "Expression expected"));
        }
        var group := ParseGroup(ts, pos + 1);
        if group.Err? {
          return Err(group.error);
        }
        var p := group.value.next;
        if p == |ts| || ts[p].kind != ClosingParenthesis {
          return Err(SyntacticException(Some(token), "Closing paranthesis expected"));
        }
        return Ok(Parsed(NodeElement(group.value.value), p));
      case FunctionName =>
        if pos + 1 == |ts| || ts[pos + 1].kind != OpeningParenthesis {
          return Err(SyntacticException(Some(token), "Argument list expected"));
        }
        var arguments := ParseArguments(ts, pos + 1);
        if arguments.Err? {
          return Err(arguments.error);
        }
        var p := arguments.value.next;
        if ts[p].kind != ClosingParenthesis {
          return Err(SyntacticException(Some(token), "Closing paranthesis expected"));
        }
        if token.value !in Registry.Functions {
          return Err(KeyNotFoundException(token.value));
        }
        var expectedParamsCount := Registry.Functions[token.value];
        if |arguments.value.value| != expectedParamsCount {
          return Err(SyntacticException(Some(token), NatToString(expectedParamsCount) + " parameters expected, got " + NatToString(|arguments.value.value|)));
        }
        return Ok(Parsed(NodeElement(FunctionNode(token.value, arguments.value.value)), p));
      case Operator =>
        return Ok(Parsed(TokenElement(token), pos));
      case _ =>
        return Err(SyntacticException(Some(token), "Unexpected token"));
    }
  }

  method ParseArguments(ts: seq<Token>, q: nat) returns (r: Result<Parsed<seq<Node>>, ParseError>)
    requires q < |ts|
    ensures r == Arguments(ts, q, [])
    decreases |ts| - q, 0
  {
    var p := q;
    var lastTokenBeforeArgument: Option<Token> := Some(ts[q]);
    var arguments: seq<Node> := [];
    while true
      invariant q <= p <= |ts|
      invariant lastTokenBeforeArgument == if p < |ts| then Some(ts[p]) else None
      invariant Arguments(ts, q, []) == Arguments(ts, p, arguments)
      decreases |ts| - p
    {
      if p == |ts| {
        return Err(NullReferenceException);
      }
      if !(ts[p].kind == OpeningParenthesis || ts[p].kind == Comma) {
        break;
      }
      if p + 1 == |ts| {
        return Err(SyntacticException(lastTokenBeforeArgument, "Argument expected"));
      }
      var argument := ParseGroup(ts, p + 1);
      if argument.Err? {
        return Err(argument.error);
      }
      arguments := arguments + [argument.value.value];
      p := argument.value.next;
      lastTokenBeforeArgument := if p < |ts| then Some(ts[p]) else None;
    }
    return Ok(Parsed(arguments, p));
  }
}
