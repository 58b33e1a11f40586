/**
 * A reference semantics for the generated code: a stack machine over an
 * abstract value type `R`, and a tree-walking evaluator over the same
 * operations. The arithmetic, the constants and the native functions are
 * parameters (`Semantics`), so nothing depends on floating point; only the
 * stack discipline is fixed. A call pops as many values as the registry
 * arity of its function and pushes one.
 */
module StackMachine {
  import opened Wrappers
  import SyntaxNodes
  import Registry

  /** The opcodes `EmitNode` and `Compile` emit: `Ldc_R8`, `Ldarg`, `Call`, `Neg`, `Add`, `Sub`, `Mul`, `Div`, `Ret`. */
  datatype Instruction =
    | LoadConstant(value: SyntaxNodes.Number)
    | LoadArgument(slot: nat)
    | Call(name: string)
    | Negate
    | Add
    | Subtract
    | Multiply
    | Divide
    | Return

  /** A compiled method: its parameter count and its body. */
  datatype DynamicMethod = DynamicMethod(parameterCount: nat, body: seq<Instruction>)

  /** The meaning of numbers, the native arithmetic and the registry functions, left uninterpreted. */
  datatype Semantics<!R> = Semantics(
    number: SyntaxNodes.Number -> R,
    negate: R -> R,
    add: (R, R) -> R,
    subtract: (R, R) -> R,
    multiply: (R, R) -> R,
    divide: (R, R) -> R,
    call: (string, seq<R>) -> R)

  function Binary<R>(stack: seq<R>, f: (R, R) -> R): Option<seq<R>> {
    if |stack| < 2 then None
    else Some(stack[..|stack| - 2] + [f(stack[|stack| - 2], stack[|stack| - 1])])
  }

  /** One straight-line instruction; `None` when the stack or the arguments are too short. `Return` is not a step. */
  function Step<R>(sem: Semantics<R>, args: seq<R>, instruction: Instruction, stack: seq<R>): Option<seq<R>> {
    match instruction
    case LoadConstant(v) => Some(stack + [sem.number(v)])
    case LoadArgument(k) => if k < |args| then Some(stack + [args[k]]) else None
    case Call(f) =>
      if f in Registry.Functions && Registry.Functions[f] <= |stack| then
        var n := |stack| - Registry.Functions[f];
        Some(stack[..n] + [sem.call(f, stack[n..])])
      else None
    case Negate => if |stack| < 1 then None else Some(stack[..|stack| - 1] + [sem.negate(stack[|stack| - 1])])
    case Add => Binary(stack, sem.add)
    case Subtract => Binary(stack, sem.subtract)
    case Multiply => Binary(stack, sem.multiply)
    case Divide => Binary(stack, sem.divide)
    case Return => None
  }

  /** Straight-line code run from `stack`. */
  function Run<R>(sem: Semantics<R>, args: seq<R>, code: seq<Instruction>, stack: seq<R>): Option<seq<R>>
    decreases |code|
  {
    if code == [] then Some(stack)
    else
      match Step(sem, args, code[0], stack)
      case None => None
      case Some(next) => Run(sem, args, code[1..], next)
  }

  /** Calling a method: the right number of arguments, a body ending in `Return` that leaves exactly one value. */
  function Invoke<R>(sem: Semantics<R>, m: DynamicMethod, args: seq<R>): Option<R> {
    if |args| != m.parameterCount || m.body == [] || m.body[|m.body| - 1] != Return then None
    else
      match Run(sem, args, m.body[..|m.body| - 1], [])
      case Some(stack) => if |stack| == 1 then Some(stack[0]) else None
      case None => None
  }

  /** Running `a + b` is running `a`, then `b` on the resulting stack. */
  lemma {:induction false} RunConcat<R>(sem: Semantics<R>, args: seq<R>, a: seq<Instruction>, b: seq<Instruction>, stack: seq<R>)
    ensures Run(sem, args, a + b, stack) ==
      match Run(sem, args, a, stack)
      case None => None
      case Some(middle) => Run(sem, args, b, middle)
    decreases |a|
  {
    if a == [] {
      assert a + b == b;
    } else {
      assert (a + b)[0] == a[0] && (a + b)[1..] == a[1..] + b;
      match Step(sem, args, a[0], stack)
      case None =>
      case Some(next) => RunConcat(sem, args, a[1..], b, next);
    }
  }

  /** The value of a node, with each variable looked up in `env`. `^` is the registry's `pow`. */
  function Evaluate<R>(sem: Semantics<R>, env: map<string, R>, n: SyntaxNodes.Node): R
    requires SyntaxNodes.Variables(n) <= env.Keys
    decreases n
  {
    match n
    case NumberNode(v) => sem.number(v)
    case VariableNode(x) => env[x]
    case FunctionNode(f, arguments) => sem.call(f, EvaluateAll(sem, env, arguments))
    case BinaryOperationNode(left, right, op) =>
      Apply(sem, op, Evaluate(sem, env, left), Evaluate(sem, env, right))
    case NegationNode(target) => sem.negate(Evaluate(sem, env, target))
  }

  /** The value of a binary operation on two values. */
  function Apply<R>(sem: Semantics<R>, op: SyntaxNodes.BinaryOperation, a: R, b: R): R {
    match op
    case Add => sem.add(a, b)
    case Sub => sem.subtract(a, b)
    case Mul => sem.multiply(a, b)
    case Div => sem.divide(a, b)
    case Pow => sem.call(Registry.PowerFunction, [a, b])
  }

  /** The values of a list of nodes, left to right. */
  function EvaluateAll<R>(sem: Semantics<R>, env: map<string, R>, ns: seq<SyntaxNodes.Node>): (r: seq<R>)
    requires SyntaxNodes.VariablesOfAll(ns) <= env.Keys
    ensures |r| == |ns|
    decreases ns
  {
    if ns == [] then []
    else [Evaluate(sem, env, ns[0])] + EvaluateAll(sem, env, ns[1..])
  }
}
