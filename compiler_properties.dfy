/**
 * What the generated code means: when every variable has a slot and every
 * call names a registry function with its arity, running a node's code
 * pushes exactly one value, its tree-walking value; a compiled method
 * returns the value of the root; and every tree the parser produces
 * compiles.
 */
module CompilerProperties {
  import opened Wrappers
  import opened Tokens
  import opened SyntaxNodes
  import opened StackMachine
  import opened ArithmeticTreeCompiler
  import SyntaxParser
  import SyntaxProperties
  import Registry
  import StringOrder

  /** Every function name in `n` is in the registry (its arity unchecked). */
  predicate FunctionsKnown(n: Node)
    decreases n
  {
    match n
    case NumberNode(_) => true
    case VariableNode(_) => true
    case FunctionNode(name, arguments) => name in Registry.Functions && AllFunctionsKnown(arguments)
    case BinaryOperationNode(left, right, _) => FunctionsKnown(left) && FunctionsKnown(right)
    case NegationNode(target) => FunctionsKnown(target)
  }

  predicate AllFunctionsKnown(ns: seq<Node>)
    decreases ns
  {
    ns == [] || (FunctionsKnown(ns[0]) && AllFunctionsKnown(ns[1..]))
  }

  /** Lowering fails exactly when a variable has no slot or a call names an unknown function. */
  lemma {:induction false} CodeForSucceeds(variables: map<string, nat>, n: Node)
    ensures CodeFor(variables, n).Ok? <==> Variables(n) <= variables.Keys && FunctionsKnown(n)
    decreases n
  {
    match n
    case NumberNode(_) =>
    case VariableNode(_) =>
    case FunctionNode(_, arguments) => CodeForAllSucceeds(variables, arguments);
    case BinaryOperationNode(left, right, _) =>
      CodeForSucceeds(variables, left);
      CodeForSucceeds(variables, right);
    case NegationNode(target) => CodeForSucceeds(variables, target);
  }

  lemma {:induction false} CodeForAllSucceeds(variables: map<string, nat>, ns: seq<Node>)
    ensures CodeForAll(variables, ns).Ok? <==> VariablesOfAll(ns) <= variables.Keys && AllFunctionsKnown(ns)
    decreases ns
  {
    if ns != [] {
      CodeForSucceeds(variables, ns[0]);
      CodeForAllSucceeds(variables, ns[1..]);
    }
  }

  /** The lowered code holds no `Return`: the one `Compile` adds is the only one. */
  lemma {:induction false} CodeForNoReturn(variables: map<string, nat>, n: Node)
    ensures CodeFor(variables, n).Ok? ==> Return !in CodeFor(variables, n).value
    decreases n
  {
    match n
    case NumberNode(_) =>
    case VariableNode(_) =>
    case FunctionNode(_, arguments) => CodeForAllNoReturn(variables, arguments);
    case BinaryOperationNode(left, right, op) =>
      CodeForNoReturn(variables, left);
      CodeForNoReturn(variables, right);
    case NegationNode(target) => CodeForNoReturn(variables, target);
  }

  lemma {:induction false} CodeForAllNoReturn(variables: map<string, nat>, ns: seq<Node>)
    ensures CodeForAll(variables, ns).Ok? ==> Return !in CodeForAll(variables, ns).value
    decreases ns
  {
    if ns != [] {
      CodeForNoReturn(variables, ns[0]);
      CodeForAllNoReturn(variables, ns[1..]);
    }
  }

  /** Each variable in `names` has a slot holding an argument equal to its value in `env`. */
  ghost predicate Bound<R>(variables: map<string, nat>, args: seq<R>, env: map<string, R>, names: set<string>) {
    forall x :: x in names ==> x in variables && variables[x] < |args| && x in env && args[variables[x]] == env[x]
  }

  /** Running a node's code pushes exactly one value onto any stack: the node's value. */
  lemma {:induction false} CodeForCorrect<R>(sem: Semantics<R>, variables: map<string, nat>, args: seq<R>, env: map<string, R>, n: Node, stack: seq<R>)
    requires CallsResolved(n) && Bound(variables, args, env, Variables(n))
    ensures CodeFor(variables, n).Ok?
    ensures Run(sem, args, CodeFor(variables, n).value, stack) == Some(stack + [Evaluate(sem, env, n)])
    decreases n
  {
    match n
    case NumberNode(v) =>
    case VariableNode(x) =>
    case FunctionNode(f, arguments) =>
      CodeForAllCorrect(sem, variables, args, env, arguments, stack);
      RunCall(sem, args, CodeForAll(variables, arguments).value, f, stack, EvaluateAll(sem, env, arguments));
    case NegationNode(target) =>
      CodeForCorrect(sem, variables, args, env, target, stack);
      RunNegate(sem, args, CodeFor(variables, target).value, stack, Evaluate(sem, env, target));
    case BinaryOperationNode(left, right, op) =>
      var a := Evaluate(sem, env, left);
      CodeForCorrect(sem, variables, args, env, left, stack);
      CodeForCorrect(sem, variables, args, env, right, stack + [a]);
      RunBinary(sem, args, CodeFor(variables, left).value, CodeFor(variables, right).value, op, stack, a, Evaluate(sem, env, right));
  }

  /** Code that pushes the arguments of a call, then the call: the call's value replaces them. */
  lemma {:induction false} RunCall<R>(sem: Semantics<R>, args: seq<R>, c: seq<Instruction>, f: string, stack: seq<R>, values: seq<R>)
    requires Run(sem, args, c, stack) == Some(stack + values)
    requires f in Registry.Functions && Registry.Functions[f] == |values|
    ensures Run(sem, args, c + [Call(f)], stack) == Some(stack + [sem.call(f, values)])
  {
    RunConcat(sem, args, c, [Call(f)], stack);
    var s := stack + values;
    assert s[..|stack|] == stack && s[|stack|..] == values;
  }

  /** Code that pushes one value, then `Negate`: its negation is pushed instead. */
  lemma {:induction false} RunNegate<R>(sem: Semantics<R>, args: seq<R>, c: seq<Instruction>, stack: seq<R>, v: R)
    requires Run(sem, args, c, stack) == Some(stack + [v])
    ensures Run(sem, args, c + [Negate], stack) == Some(stack + [sem.negate(v)])
  {
    RunConcat(sem, args, c, [Negate], stack);
    var s := stack + [v];
    assert s[..|s| - 1] == stack;
  }

  /** The code of two operands, then the operator's instruction: the operation's value is pushed. */
  lemma {:induction false} RunBinary<R>(sem: Semantics<R>, args: seq<R>, l: seq<Instruction>, r: seq<Instruction>, op: BinaryOperation, stack: seq<R>, a: R, b: R)
    requires Run(sem, args, l, stack) == Some(stack + [a])
    requires Run(sem, args, r, stack + [a]) == Some(stack + [a] + [b])
    ensures Run(sem, args, l + r + [OperationCode(op)], stack) == Some(stack + [Apply(sem, op, a, b)])
  {
    RunConcat(sem, args, l, r, stack);
    RunConcat(sem, args, l + r, [OperationCode(op)], stack);
    var s := stack + [a] + [b];
    assert s[..|s| - 2] == stack && s[|s| - 2] == a && s[|s| - 1] == b;
    assert s[..|stack|] == stack && s[|stack|..] == [a, b];
  }

  lemma {:induction false} CodeForAllCorrect<R>(sem: Semantics<R>, variables: map<string, nat>, args: seq<R>, env: map<string, R>, ns: seq<Node>, stack: seq<R>)
    requires AllCallsResolved(ns) && Bound(variables, args, env, VariablesOfAll(ns))
    ensures CodeForAll(variables, ns).Ok?
    ensures Run(sem, args, CodeForAll(variables, ns).value, stack) == Some(stack + EvaluateAll(sem, env, ns))
    decreases ns
  {
    if ns == [] {
      assert stack + [] == stack;
    } else {
      BoundSubset(variables, args, env, VariablesOfAll(ns), Variables(ns[0]));
      BoundSubset(variables, args, env, VariablesOfAll(ns), VariablesOfAll(ns[1..]));
      var v := Evaluate(sem, env, ns[0]);
      CodeForCorrect(sem, variables, args, env, ns[0], stack);
      CodeForAllCorrect(sem, variables, args, env, ns[1..], stack + [v]);
      RunCons(sem, args, CodeFor(variables, ns[0]).value, CodeForAll(variables, ns[1..]).value, stack, v, EvaluateAll(sem, env, ns[1..]));
    }
  }

  lemma {:induction false} BoundSubset<R>(variables: map<string, nat>, args: seq<R>, env: map<string, R>, names: set<string>, sub: set<string>)
    requires sub <= names && Bound(variables, args, env, names)
    ensures Bound(variables, args, env, sub)
  {
  }

  /** Code that pushes one value, then code that pushes more: the values in that order. */
  lemma {:induction false} RunCons<R>(sem: Semantics<R>, args: seq<R>, c: seq<Instruction>, d: seq<Instruction>, stack: seq<R>, v: R, vs: seq<R>)
    requires Run(sem, args, c, stack) == Some(stack + [v])
    requires Run(sem, args, d, stack + [v]) == Some(stack + [v] + vs)
    ensures Run(sem, args, c + d, stack) == Some(stack + ([v] + vs))
  {
    RunConcat(sem, args, c, d, stack);
    assert stack + [v] + vs == stack + ([v] + vs);
  }

  /**
   * A tree with distinct variable names, variables among them and resolved
   * calls compiles; its method has one parameter per name, and called with
   * the value of `names[i]` as argument `i` it returns the root's value.
   */
  lemma {:induction false} CompiledMethodCorrect<R>(sem: Semantics<R>, tree: SyntaxTree, args: seq<R>, env: map<string, R>)
    requires Distinct(tree.variableNames)
    requires Variables(tree.root) <= StringOrder.Elements(tree.variableNames) && CallsResolved(tree.root)
    requires |args| == |tree.variableNames|
    requires forall i :: 0 <= i < |args| ==> tree.variableNames[i] in env && env[tree.variableNames[i]] == args[i]
    ensures CompiledMethod(tree).Ok?
    ensures CompiledMethod(tree).value.parameterCount == |tree.variableNames|
    ensures Invoke(sem, CompiledMethod(tree).value, args) == Some(Evaluate(sem, env, tree.root))
  {
    var names := tree.variableNames;
    assert names[..|names|] == names;
    var variables := Slots(names).value;
    forall x | x in Variables(tree.root)
      ensures x in variables && variables[x] < |args| && x in env && args[variables[x]] == env[x]
    {
      var i :| 0 <= i < |names| && names[i] == x;
      assert variables[names[i]] == i;
    }
    CodeForCorrect(sem, variables, args, env, tree.root, []);
    var body := CompiledMethod(tree).value.body;
    assert body[..|body| - 1] == CodeFor(variables, tree.root).value;
  }

  /** Strictly ascending names are distinct. */
  lemma {:induction false} AscendingDistinct(names: seq<string>)
    requires StringOrder.StrictlyAscending(names)
    ensures Distinct(names)
  {
    forall i, j | 0 <= i < j < |names|
      ensures names[i] != names[j]
    {
      StringOrder.StringLessIrreflexive(names[i]);
    }
  }

  /**
   * Every tree the parser returns compiles, and the compiled method called
   * with the value of each variable name at that name's index returns the
   * value of the tree.
   */
  lemma {:induction false} ParsedTreeCompiles<R>(sem: Semantics<R>, tokens: seq<Token>, args: seq<R>, env: map<string, R>)
    requires SyntaxParser.ParseTree(tokens).Ok?
    requires |args| == |SyntaxParser.ParseTree(tokens).value.variableNames|
    requires forall i :: 0 <= i < |args| ==>
      SyntaxParser.ParseTree(tokens).value.variableNames[i] in env
      && env[SyntaxParser.ParseTree(tokens).value.variableNames[i]] == args[i]
    ensures CompiledMethod(SyntaxParser.ParseTree(tokens).value).Ok?
    ensures Variables(SyntaxParser.ParseTree(tokens).value.root) <= env.Keys
    ensures Invoke(sem, CompiledMethod(SyntaxParser.ParseTree(tokens).value).value, args)
      == Some(Evaluate(sem, env, SyntaxParser.ParseTree(tokens).value.root))
  {
    var tree := SyntaxParser.ParseTree(tokens).value;
    SyntaxProperties.ParseTreeWellFormed(tokens);
    SyntaxProperties.ParseTreeVariableNames(tokens);
    AscendingDistinct(tree.variableNames);
    forall x | x in Variables(tree.root)
      ensures x in env
    {
      var i :| 0 <= i < |tree.variableNames| && tree.variableNames[i] == x;
    }
    CompiledMethodCorrect(sem, tree, args, env);
  }
}
