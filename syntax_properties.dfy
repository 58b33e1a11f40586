/**
 * What parsing guarantees about its result: a group's node mentions exactly
 * the variables of the tokens it consumed and only resolved calls; a
 * failing group raises a syntax error, a null dereference or a missing key,
 * never the element-count exception; a tree's variable names are the
 * distinct variable tokens in ordinal order, and they cover the variables
 * of its root.
 */
module SyntaxProperties {
  import opened Wrappers
  import opened Tokens
  import opened SyntaxNodes
  import opened SyntaxErrors
  import opened Reduction
  import opened ReductionProperties
  import opened SyntaxParser
  import StringOrder
  import LexicalParser
  import Registry

  /** The names of the variable tokens in `ts[i..j]`. */
  function VarsBetween(ts: seq<Token>, i: nat, j: nat): set<string>
    requires i <= j <= |ts|
    decreases j - i
  {
    if i == j then {}
    else VarsBetween(ts, i, j - 1) + (if ts[j - 1].kind == Variable then {ts[j - 1].value} else {})
  }

  lemma {:induction false} VarsBetweenSplit(ts: seq<Token>, i: nat, j: nat, k: nat)
    requires i <= j <= k <= |ts|
    ensures VarsBetween(ts, i, k) == VarsBetween(ts, i, j) + VarsBetween(ts, j, k)
    decreases k - j
  {
    if j < k {
      VarsBetweenSplit(ts, i, j, k - 1);
    }
  }

  /** The errors a group can raise. */
  predicate GroupError(e: ParseError) {
    ReductionError(e) || e.KeyNotFoundException?
  }

  /** A primary's element holds the variables of the tokens it spans, and only resolved calls. */
  predicate PrimaryOk(ts: seq<Token>, pos: nat, r: Result<Parsed<Element>, ParseError>)
    requires pos < |ts|
  {
    match r
    case Ok(Parsed(e, p)) =>
      pos <= p < |ts| && ElementVariables([e]) == VarsBetween(ts, pos, p + 1) && ElementsResolved([e])
    case Err(e) => GroupError(e)
  }

  predicate ArgumentsOk(ts: seq<Token>, q: nat, arguments: seq<Node>, r: Result<Parsed<seq<Node>>, ParseError>)
    requires q <= |ts|
  {
    match r
    case Ok(Parsed(result, p)) =>
      q <= p < |ts| && VariablesOfAll(result) == VariablesOfAll(arguments) + VarsBetween(ts, q, p)
      && (AllCallsResolved(arguments) ==> AllCallsResolved(result))
    case Err(e) => GroupError(e)
  }

  predicate CollectOk(ts: seq<Token>, pos: nat, list: seq<Element>, r: Result<Parsed<seq<Element>>, ParseError>)
    requires pos < |ts|
  {
    match r
    case Ok(Parsed(result, p)) =>
      pos < p <= |ts| && result != [] && ElementVariables(result) == ElementVariables(list) + VarsBetween(ts, pos, p)
      && (ElementsResolved(list) ==> ElementsResolved(result))
    case Err(e) => GroupError(e)
  }

  predicate GroupOk(ts: seq<Token>, pos: nat, r: Result<Parsed<Node>, ParseError>)
    requires pos < |ts|
  {
    match r
    case Ok(Parsed(node, p)) =>
      pos < p <= |ts| && Variables(node) == VarsBetween(ts, pos, p) && CallsResolved(node)
    case Err(e) => GroupError(e)
  }

  lemma {:induction false} VariablesOfAllAppend(ns: seq<Node>, n: Node)
    ensures VariablesOfAll(ns + [n]) == VariablesOfAll(ns) + Variables(n)
    ensures AllCallsResolved(ns + [n]) <==> AllCallsResolved(ns) && CallsResolved(n)
    decreases |ns|
  {
    if ns == [] {
      assert ns + [n] == [n];
      assert [n][1..] == [];
    } else {
      assert (ns + [n])[1..] == ns[1..] + [n];
      VariablesOfAllAppend(ns[1..], n);
    }
  }

  lemma {:induction false} SingleElement(e: Element)
    ensures ElementVariables([e]) == if e.NodeElement? then Variables(e.node) else {}
    ensures ElementsResolved([e]) <==> e.TokenElement? || CallsResolved(e.node)
  {
    assert [e][1..] == [];
  }

  lemma {:induction false} PrimaryFacts(ts: seq<Token>, pos: nat)
    requires pos < |ts|
    ensures PrimaryOk(ts, pos, Primary(ts, pos))
    decreases |ts| - pos, 1
  {
    match ts[pos].kind
    case OpeningParenthesis =>
      if pos + 1 < |ts| {
        GroupFacts(ts, pos + 1);
      }
      ParenthesisOk(ts, pos);
    case FunctionName =>
      if pos + 1 < |ts| && ts[pos + 1].kind == OpeningParenthesis {
        ArgumentsFacts(ts, pos + 1, []);
      }
      CallOk(ts, pos);
    case _ =>
      SingleTokenOk(ts, pos);
  }

  /** A parenthesised group is a primary with the variables and calls of the group. */
  lemma {:induction false} ParenthesisOk(ts: seq<Token>, pos: nat)
    requires pos < |ts| && ts[pos].kind == OpeningParenthesis
    requires pos + 1 < |ts| ==> GroupOk(ts, pos + 1, Group(ts, pos + 1))
    ensures PrimaryOk(ts, pos, Primary(ts, pos))
  {
    if pos + 1 < |ts| && Group(ts, pos + 1).Ok? {
      var p := Group(ts, pos + 1).value.next;
      if p < |ts| && ts[p].kind == ClosingParenthesis {
        SingleElement(Primary(ts, pos).value.value);
        VarsBetweenSplit(ts, pos, pos + 1, p);
      }
    }
  }

  /** A call is a primary with the variables and calls of its arguments, and it is resolved. */
  lemma {:induction false} CallOk(ts: seq<Token>, pos: nat)
    requires pos < |ts| && ts[pos].kind == FunctionName
    requires pos + 1 < |ts| && ts[pos + 1].kind == OpeningParenthesis ==> ArgumentsOk(ts, pos + 1, [], Arguments(ts, pos + 1, []))
    ensures PrimaryOk(ts, pos, Primary(ts, pos))
  {
    if pos + 1 < |ts| && ts[pos + 1].kind == OpeningParenthesis && Arguments(ts, pos + 1, []).Ok? {
      var p := Arguments(ts, pos + 1, []).value.next;
      VarsBetweenSplit(ts, pos, pos + 1, p);
      if Primary(ts, pos).Ok? {
        SingleElement(Primary(ts, pos).value.value);
      }
    }
  }

  /** Every other primary is the one token at `pos`. */
  lemma {:induction false} SingleTokenOk(ts: seq<Token>, pos: nat)
    requires pos < |ts| && ts[pos].kind != OpeningParenthesis && ts[pos].kind != FunctionName
    ensures PrimaryOk(ts, pos, Primary(ts, pos))
  {
    if Primary(ts, pos).Ok? {
      SingleElement(Primary(ts, pos).value.value);
    }
  }

  lemma {:induction false} ArgumentsFacts(ts: seq<Token>, q: nat, arguments: seq<Node>)
    requires q <= |ts|
    ensures ArgumentsOk(ts, q, arguments, Arguments(ts, q, arguments))
    decreases |ts| - q, 0
  {
    if q < |ts| && (ts[q].kind == OpeningParenthesis || ts[q].kind == Comma) && q + 1 < |ts| {
      GroupFacts(ts, q + 1);
      if Group(ts, q + 1).Ok? {
        var Parsed(argument, p) := Group(ts, q + 1).value;
        ArgumentsFacts(ts, p, arguments + [argument]);
        VariablesOfAllAppend(arguments, argument);
        VarsBetweenSplit(ts, q, q + 1, p);
        if Arguments(ts, p, arguments + [argument]).Ok? {
          VarsBetweenSplit(ts, q, p, Arguments(ts, p, arguments + [argument]).value.next);
        }
      }
    }
  }

  lemma {:induction false} CollectFacts(ts: seq<Token>, pos: nat, list: seq<Element>)
    requires pos < |ts|
    ensures CollectOk(ts, pos, list, Collect(ts, pos, list))
    decreases |ts| - pos, 2
  {
    PrimaryFacts(ts, pos);
    if Primary(ts, pos).Ok? {
      var Parsed(element, p) := Primary(ts, pos).value;
      var l := list + [element];
      ElementsConcat(list, [element]);
      if p + 1 < |ts| && !EndsGroup(ts[p + 1]) {
        CollectFacts(ts, p + 1, l);
        if Collect(ts, p + 1, l).Ok? {
          VarsBetweenSplit(ts, pos, p + 1, Collect(ts, p + 1, l).value.next);
        }
      } else if p + 1 == |ts| {
      } else {
        // The enumerator stops on a `)` or `,`, which holds no variable.
        assert VarsBetween(ts, pos, p + 2) == VarsBetween(ts, pos, p + 1);
      }
    }
  }

  lemma {:induction false} GroupFacts(ts: seq<Token>, pos: nat)
    requires pos < |ts|
    ensures GroupOk(ts, pos, Group(ts, pos))
    decreases |ts| - pos, 3
  {
    CollectFacts(ts, pos, []);
    if Collect(ts, pos, []).Ok? {
      var list := Collect(ts, pos, []).value.value;
      ReduceNonEmpty(list);
      ReduceKeepsElements(list);
    }
  }

  /** A group's node holds exactly the variables of the tokens it consumed, and only resolved calls. */
  lemma {:induction false} GroupVariables(ts: seq<Token>, pos: nat)
    requires pos < |ts|
    ensures Group(ts, pos).Ok? ==>
      Variables(Group(ts, pos).value.value) == VarsBetween(ts, pos, Group(ts, pos).value.next)
      && CallsResolved(Group(ts, pos).value.value)
  {
    GroupFacts(ts, pos);
  }

  /** A failing group raises a syntax error naming a token, the trailing-sign error, a null dereference or a missing key; never `NotImplementedException`. */
  lemma {:induction false} GroupErrors(ts: seq<Token>, pos: nat)
    requires pos < |ts|
    ensures Group(ts, pos).Err? ==> GroupError(Group(ts, pos).error)
    ensures Group(ts, pos) != Err(NotImplementedException)
  {
    GroupFacts(ts, pos);
  }

  // ----- Whitespace filtering and the variable names -----

  lemma {:induction false} NonWhiteSpaceTokens(tokens: seq<Token>)
    ensures forall t :: t in NonWhiteSpace(tokens) <==> t in tokens && t.kind != WhiteSpace
    decreases |tokens|
  {
    if tokens != [] {
      NonWhiteSpaceTokens(tokens[1..]);
      assert tokens == [tokens[0]] + tokens[1..];
    }
  }

  lemma {:induction false} VariableTextsTokens(ts: seq<Token>)
    ensures forall x :: x in VariableTexts(ts) <==> exists t :: t in ts && t.kind == Variable && t.value == x
    decreases |ts|
  {
    if ts != [] {
      VariableTextsTokens(ts[1..]);
      assert ts == [ts[0]] + ts[1..];
      forall x | x in VariableTexts(ts)
        ensures exists t :: t in ts && t.kind == Variable && t.value == x
      {
        if ts[0].kind == Variable && x == ts[0].value {
          assert ts[0] in ts;
        } else {
          assert x in VariableTexts(ts[1..]);
          var t :| t in ts[1..] && t.kind == Variable && t.value == x;
          assert t in ts;
        }
      }
    }
  }

  lemma {:induction false} VarsBetweenTexts(ts: seq<Token>, j: nat)
    requires j <= |ts|
    ensures VarsBetween(ts, 0, j) == StringOrder.Elements(VariableTexts(ts[..j]))
    decreases j
  {
    if j > 0 {
      VarsBetweenTexts(ts, j - 1);
      VariableTextsSnoc(ts[..j - 1], ts[j - 1]);
      assert ts[..j] == ts[..j - 1] + [ts[j - 1]];
    }
  }

  lemma {:induction false} VariableTextsSnoc(ts: seq<Token>, t: Token)
    ensures StringOrder.Elements(VariableTexts(ts + [t]))
      == StringOrder.Elements(VariableTexts(ts)) + (if t.kind == Variable then {t.value} else {})
    decreases |ts|
  {
    VariableTextsTokens(ts + [t]);
    VariableTextsTokens(ts);
    forall x | x in VariableTexts(ts + [t])
      ensures x in VariableTexts(ts) || (t.kind == Variable && x == t.value)
    {
      var u :| u in ts + [t] && u.kind == Variable && u.value == x;
      if u != t {
        assert u in ts;
      }
    }
    forall x | x in VariableTexts(ts)
      ensures x in VariableTexts(ts + [t])
    {
      var u :| u in ts && u.kind == Variable && u.value == x;
      assert u in ts + [t];
    }
    if t.kind == Variable {
      assert t in ts + [t];
    }
  }

  /** A tree's variable names are strictly ascending (so distinct) and are exactly the names of the variable tokens. */
  lemma {:induction false} ParseTreeVariableNames(tokens: seq<Token>)
    ensures ParseTree(tokens).Ok? ==>
      var names := ParseTree(tokens).value.variableNames;
      StringOrder.StrictlyAscending(names)
      && forall x :: x in names <==> exists t :: t in tokens && t.kind == Variable && t.value == x
  {
    var ts := NonWhiteSpace(tokens);
    NonWhiteSpaceTokens(tokens);
    VariableTextsTokens(ts);
    if ParseTree(tokens).Ok? {
      var names := ParseTree(tokens).value.variableNames;
      assert names == StringOrder.SortDistinct(VariableTexts(ts));
      forall x
        ensures x in names <==> exists t :: t in tokens && t.kind == Variable && t.value == x
      {
        assert x in names <==> x in StringOrder.Elements(names);
        assert x in VariableTexts(ts) <==> x in StringOrder.Elements(VariableTexts(ts));
        if x in names {
          var t :| t in ts && t.kind == Variable && t.value == x;
          assert t in tokens;
        }
        if exists t :: t in tokens && t.kind == Variable && t.value == x {
          var t :| t in tokens && t.kind == Variable && t.value == x;
          assert t in ts;
        }
      }
    }
  }

  /**
   * The variable names depend only on which names occur, not on their order
   * or repetition: argument slots are shared by `a + b` and `b + a`.
   */
  lemma {:induction false} VariableNamesCanonical(ts1: seq<Token>, ts2: seq<Token>)
    requires StringOrder.Elements(VariableTexts(ts1)) == StringOrder.Elements(VariableTexts(ts2))
    ensures VariableNames(ts1) == VariableNames(ts2)
  {
    StringOrder.AscendingUnique(VariableNames(ts1), VariableNames(ts2));
  }

  /**
   * Every variable of a parsed tree's root is among its variable names, all
   * calls are resolved, and if the top group consumed every token the names
   * are exactly the root's variables.
   */
  lemma {:induction false} ParseTreeWellFormed(tokens: seq<Token>)
    ensures ParseTree(tokens).Ok? ==>
      var tree := ParseTree(tokens).value;
      Variables(tree.root) <= StringOrder.Elements(tree.variableNames) && CallsResolved(tree.root)
    ensures ParseTree(tokens).Ok? && Group(NonWhiteSpace(tokens), 0).value.next == |NonWhiteSpace(tokens)| ==>
      Variables(ParseTree(tokens).value.root) == StringOrder.Elements(ParseTree(tokens).value.variableNames)
  {
    var ts := NonWhiteSpace(tokens);
    if ParseTree(tokens).Ok? {
      GroupFacts(ts, 0);
      var p := Group(ts, 0).value.next;
      VarsBetweenTexts(ts, p);
      VarsBetweenTexts(ts, |ts|);
      VarsBetweenSplit(ts, 0, p, |ts|);
      assert ts[..|ts|] == ts;
    }
  }

  /** Parsing fails with a syntax error naming no token and reading "Expression expected" exactly when every token is whitespace. */
  lemma {:induction false} ParseTreeEmpty(tokens: seq<Token>)
    ensures ParseTree(tokens) == Err(SyntacticException(None, "Expression expected"))
      <==> forall t :: t in tokens ==> t.kind == WhiteSpace
  {
    var ts := NonWhiteSpace(tokens);
    NonWhiteSpaceTokens(tokens);
    if ts != [] {
      GroupErrors(ts, 0);
      assert ts[0] in ts;
    }
  }

  /** A failing parse never raises `NotImplementedException`. */
  lemma {:induction false} ParseTreeErrors(tokens: seq<Token>)
    ensures ParseTree(tokens).Err? ==>
      GroupError(ParseTree(tokens).error) || ParseTree(tokens).error == SyntacticException(None, "Expression expected")
    ensures ParseTree(tokens) != Err(NotImplementedException)
  {
    var ts := NonWhiteSpace(tokens);
    if ts != [] {
      GroupErrors(ts, 0);
    }
  }

  // ----- Groups without parentheses, calls or commas -----

  /** A token that `Primary` turns into an element on its own. */
  predicate SimplePrimary(t: Token) {
    || (t.kind == Literal && LexicalParser.IsLiteralText(t.value))
    || (t.kind == ConstantName && t.value in Registry.Constants)
    || t.kind == Variable
    || t.kind == Operator
  }

  function SimpleElement(t: Token): Element
    requires SimplePrimary(t)
  {
    match t.kind
    case Literal => NodeElement(NumberNode(ParsedLiteral(t.value)))
    case ConstantName => NodeElement(NumberNode(NamedConstant(t.value)))
    case Variable => NodeElement(VariableNode(t.value))
    case Operator => TokenElement(t)
  }

  function SimpleElements(ts: seq<Token>): (r: seq<Element>)
    requires forall k :: 0 <= k < |ts| ==> SimplePrimary(ts[k])
    ensures |r| == |ts|
  {
    if ts == [] then [] else [SimpleElement(ts[0])] + SimpleElements(ts[1..])
  }

  /** The element list of simple primaries is the element of each token, in order. */
  lemma {:induction false} SimpleElementsAt(ts: seq<Token>)
    requires forall k :: 0 <= k < |ts| ==> SimplePrimary(ts[k])
    ensures forall k :: 0 <= k < |ts| ==> SimpleElements(ts)[k] == SimpleElement(ts[k])
  {
    if ts != [] {
      SimpleElementsAt(ts[1..]);
    }
  }

  /** A group of simple primaries reads every token and reduces the list of their elements. */
  lemma {:induction false} CollectSimple(ts: seq<Token>, pos: nat, list: seq<Element>)
    requires pos < |ts| && forall k :: pos <= k < |ts| ==> SimplePrimary(ts[k])
    ensures Collect(ts, pos, list) == Ok(Parsed(list + SimpleElements(ts[pos..]), |ts|))
    decreases |ts| - pos
  {
    assert Primary(ts, pos) == Ok(Parsed(SimpleElement(ts[pos]), pos));
    var l := list + [SimpleElement(ts[pos])];
    assert ts[pos..] == [ts[pos]] + ts[pos + 1..];
    if pos + 1 < |ts| {
      assert SimplePrimary(ts[pos + 1]);
      CollectSimple(ts, pos + 1, l);
      assert l + SimpleElements(ts[pos + 1..]) == list + SimpleElements(ts[pos..]);
    } else {
      assert ts[pos + 1..] == [];
      assert l == list + SimpleElements(ts[pos..]);
    }
  }

  lemma {:induction false} GroupSimple(ts: seq<Token>)
    requires ts != [] && forall k :: 0 <= k < |ts| ==> SimplePrimary(ts[k])
    ensures Reduce(SimpleElements(ts)).Err? ==> Group(ts, 0) == Err(Reduce(SimpleElements(ts)).error)
    ensures Reduce(SimpleElements(ts)).Ok? ==> Group(ts, 0) == Ok(Parsed(Reduce(SimpleElements(ts)).value, |ts|))
  {
    CollectSimple(ts, 0, []);
    assert [] + SimpleElements(ts[0..]) == SimpleElements(ts);
    assert Collect(ts, 0, []) == Ok(Parsed(SimpleElements(ts), |ts|));
  }

  lemma {:induction false} NonWhiteSpaceIdentity(ts: seq<Token>)
    requires forall k :: 0 <= k < |ts| ==> ts[k].kind != WhiteSpace
    ensures NonWhiteSpace(ts) == ts
    decreases |ts|
  {
    if ts != [] {
      NonWhiteSpaceIdentity(ts[1..]);
      assert ts == [ts[0]] + ts[1..];
    }
  }

  /** Parsing simple primaries is reducing their elements. */
  lemma {:induction false} ParseSimple(ts: seq<Token>)
    requires ts != [] && forall k :: 0 <= k < |ts| ==> SimplePrimary(ts[k])
    ensures Reduce(SimpleElements(ts)).Err? ==> ParseTree(ts) == Err(Reduce(SimpleElements(ts)).error)
    ensures Reduce(SimpleElements(ts)).Ok? ==> ParseTree(ts) == Ok(SyntaxTree(Reduce(SimpleElements(ts)).value, VariableNames(ts)))
  {
    NonWhiteSpaceIdentity(ts);
    GroupSimple(ts);
  }
}
