/**
 * The code generator (Compiler/ArithmeticTreeCompiler.cs): the slot map
 * from variable names to argument indices, the post-order lowering of a
 * node into stack-machine instructions, and `Compile`, which adds one
 * parameter per variable name and a final `Return`.
 *
 * `CodeFor` is what `EmitNode` appends to the generator's buffer;
 * `CompiledMethod` is what `Compile` returns. Failures are the exceptions
 * the source raises: a duplicate name in the slot map, and a variable or
 * function name missing from its dictionary.
 */
module ArithmeticTreeCompiler {
  import opened Wrappers
  import opened SyntaxNodes
  import SM = StackMachine
  import Registry
  import StringOrder

  datatype CompileError = ArgumentException(key: string) | KeyNotFoundException(key: string)

  /** No name occurs twice. */
  predicate Distinct(names: seq<string>) {
    forall i, j :: 0 <= i < j < |names| ==> names[i] != names[j]
  }

  /**
   * `Select((item, index) => …).ToDictionary(…)` over `names[..k]`: each
   * name maps to its index; a repeated name throws `ArgumentException`.
   */
  function SlotsOf(names: seq<string>, k: nat): (r: Result<map<string, nat>, CompileError>)
    requires k <= |names|
    ensures r.Ok? <==> Distinct(names[..k])
    ensures r.Ok? ==> r.value.Keys == StringOrder.Elements(names[..k])
    ensures r.Ok? ==> forall i :: 0 <= i < k ==> r.value[names[i]] == i
    decreases k
  {
    if k == 0 then Ok(map[])
    else
      var previous := SlotsOf(names, k - 1);
      PrefixSnoc(names, k);
      if previous.Err? then Err(previous.error)
      else if names[k - 1] in previous.value then Err(ArgumentException(names[k - 1]))
      else Ok(previous.value[names[k - 1] := k - 1])
  }

  /** The first `k` names are the first `k - 1` and one more: distinct when that one is new. */
  lemma {:induction false} PrefixSnoc(names: seq<string>, k: nat)
    requires 0 < k <= |names|
    ensures StringOrder.Elements(names[..k]) == StringOrder.Elements(names[..k - 1]) + {names[k - 1]}
    ensures forall i :: 0 <= i < k - 1 ==> names[i] in StringOrder.Elements(names[..k - 1])
    ensures Distinct(names[..k]) <==> Distinct(names[..k - 1]) && names[k - 1] !in StringOrder.Elements(names[..k - 1])
  {
    var p := names[..k - 1];
    assert names[..k] == p + [names[k - 1]];
    assert forall i :: 0 <= i < k - 1 ==> p[i] == names[i];
  }

  function Slots(names: seq<string>): Result<map<string, nat>, CompileError> {
    assert names[..|names|] == names;
    SlotsOf(names, |names|)
  }

  function OperationCode(op: BinaryOperation): SM.Instruction {
    match op
    case Add => SM.Add
    case Sub => SM.Subtract
    case Mul => SM.Multiply
    case Div => SM.Divide
    case Pow => SM.Call(Registry.PowerFunction)
  }

  /** The instructions `EmitNode` appends for `n`, or the exception it raises. */
  function CodeFor(variables: map<string, nat>, n: Node): Result<seq<SM.Instruction>, CompileError>
    decreases n
  {
    match n
    case NumberNode(v) => Ok([SM.LoadConstant(v)])
    case VariableNode(name) =>
      if name in variables then Ok([SM.LoadArgument(variables[name])]) else Err(KeyNotFoundException(name))
    case FunctionNode(name, arguments) =>
      var code :- CodeForAll(variables, arguments);
      if name in Registry.Functions then Ok(code + [SM.Call(name)]) else Err(KeyNotFoundException(name))
    case NegationNode(target) =>
      var code :- CodeFor(variables, target);
      Ok(code + [SM.Negate])
    case BinaryOperationNode(left, right, op) =>
      var l :- CodeFor(variables, left);
      var r :- CodeFor(variables, right);
      Ok(l + r + [OperationCode(op)])
  }

  /** The code of each node in turn; the first failure wins. */
  function CodeForAll(variables: map<string, nat>, ns: seq<Node>): Result<seq<SM.Instruction>, CompileError>
    decreases ns
  {
    if ns == [] then Ok([])
    else
      var c :- CodeFor(variables, ns[0]);
      var d :- CodeForAll(variables, ns[1..]);
      Ok(c + d)
  }

  /** The code of the arguments up to one more: what the `foreach` over the arguments has emitted. */
  lemma {:induction false} CodeForAllSnoc(variables: map<string, nat>, ns: seq<Node>, n: Node)
    ensures CodeForAll(variables, ns + [n]) ==
      match CodeForAll(variables, ns)
      case Err(e) => Err(e)
      case Ok(c) => (match CodeFor(variables, n) case Err(e) => Err(e) case Ok(d) => Ok(c + d))
    decreases |ns|
  {
    if ns == [] {
      assert ns + [n] == [n];
      assert [n][1..] == [];
      if CodeFor(variables, n).Ok? {
        var d := CodeFor(variables, n).value;
        assert [] + d == d + [] == d;
      }
    } else {
      assert (ns + [n])[0] == ns[0] && (ns + [n])[1..] == ns[1..] + [n];
      CodeForAllSnoc(variables, ns[1..], n);
      if CodeForAll(variables, ns + [n]).Ok? {
        var c := CodeFor(variables, ns[0]).value;
        var d := CodeForAll(variables, ns[1..]).value;
        var e := CodeFor(variables, n).value;
        assert c + (d + e) == (c + d) + e;
      }
    }
  }

  /** What `Compile` returns for a tree. */
  function CompiledMethod(expression: SyntaxTree): Result<SM.DynamicMethod, CompileError> {
    var variables :- Slots(expression.variableNames);
    var code :- CodeFor(variables, expression.root);
    Ok(SM.DynamicMethod(|expression.variableNames|, code + [SM.Return]))
  }

  /** The instruction buffer of a method under construction. */
  class ILGenerator {
    var code: seq<SM.Instruction>

    constructor ()
      ensures code == []
    {
      code := [];
    }

    method Emit(instruction: SM.Instruction)
      modifies this
      ensures code == old(code) + [instruction]
    {
      code := code + [instruction];
    }
  }

  /**
   * Appends the code of `root` to `il`. On success the buffer has grown by
   * exactly `CodeFor(variables, root)`; on failure the exception is the one
   * `CodeFor` names.
   */
  method EmitNode(il: ILGenerator, variables: map<string, nat>, root: Node) returns (failure: Option<CompileError>)
    modifies il
    ensures failure.None? <==> CodeFor(variables, root).Ok?
    ensures failure.Some? ==> failure.value == CodeFor(variables, root).error
    ensures failure.None? ==> il.code == old(il.code) + CodeFor(variables, root).value
    decreases root
  {
    match root {
      case NumberNode(v) =>
        il.Emit(SM.LoadConstant(v));
      case VariableNode(name) =>
        if name !in variables {
          return Some(KeyNotFoundException(name));
        }
        il.Emit(SM.LoadArgument(variables[name]));
      case FunctionNode(name, arguments) =>
        var f := EmitArguments(il, variables, arguments);
        if f.Some? {
          return f;
        }
        if name !in Registry.Functions {
          return Some(KeyNotFoundException(name));
        }
        il.Emit(SM.Call(name));
      case NegationNode(target) =>
        var f := EmitNode(il, variables, target);
        if f.Some? {
          return f;
        }
        il.Emit(SM.Negate);
      case BinaryOperationNode(left, right, op) =>
        var f := EmitNode(il, variables, left);
        if f.Some? {
          return f;
        }
        f := EmitNode(il, variables, right);
        if f.Some? {
          return f;
        }
        il.Emit(OperationCode(op));
    }
    return None;
  }

  /** The `foreach` over a call's arguments: the code of each argument in turn, stopping at the first failure. */
  method EmitArguments(il: ILGenerator, variables: map<string, nat>, arguments: seq<Node>) returns (failure: Option<CompileError>)
    modifies il
    ensures failure.None? <==> CodeForAll(variables, arguments).Ok?
    ensures failure.Some? ==> failure.value == CodeForAll(variables, arguments).error
    ensures failure.None? ==> il.code == old(il.code) + CodeForAll(variables, arguments).value
    decreases arguments
  {
    var i := 0;
    while i < |arguments|
      invariant 0 <= i <= |arguments|
      invariant CodeForAll(variables, arguments[..i]).Ok?
      invariant il.code == old(il.code) + CodeForAll(variables, arguments[..i]).value
    {
      CodeForAllSnoc(variables, arguments[..i], arguments[i]);
      assert arguments[..i + 1] == arguments[..i] + [arguments[i]];
      var f := EmitNode(il, variables, arguments[i]);
      if f.Some? {
        ArgumentFailure(variables, arguments, i + 1);
        return f;
      }
      i := i + 1;
    }
    assert arguments[..i] == arguments;
    return None;
  }

  /** A failure of the arguments up to `k` is the failure of all of them. */
  lemma {:induction false} ArgumentFailure(variables: map<string, nat>, ns: seq<Node>, k: nat)
    requires k <= |ns|
    requires CodeForAll(variables, ns[..k]).Err?
    ensures CodeForAll(variables, ns) == Err(CodeForAll(variables, ns[..k]).error)
    decreases |ns|
  {
    if ns != [] {
      assert k > 0;
      assert ns[..k][0] == ns[0] && ns[..k][1..] == ns[1..][..k - 1];
      if CodeFor(variables, ns[0]).Ok? {
        ArgumentFailure(variables, ns[1..], k - 1);
      }
    }
  }

  method Compile(expression: SyntaxTree) returns (r: Result<SM.DynamicMethod, CompileError>)
    ensures r == CompiledMethod(expression)
  {
    var variables := Slots(expression.variableNames);
    if variables.Err? {
      return Err(variables.error);
    }
    var il := new ILGenerator();
    var failure := EmitNode(il, variables.value, expression.root);
    if failure.Some? {
      return Err(failure.value);
    }
    il.Emit(SM.Return);
    assert il.code == CodeFor(variables.value, expression.root).value + [SM.Return];
    return Ok(SM.DynamicMethod(|expression.variableNames|, il.code));
  }
}
