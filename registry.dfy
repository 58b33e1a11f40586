/**
 * The fixed registry of named functions and constants (Common/Constants.cs).
 * Only names and, for functions, the number of parameters of the native
 * method are modelled; the numeric values and the native methods stay abstract.
 */
module Registry {

  /** Function names with the parameter count of the `Math` method each one stands for. */
  const Functions: map<string, nat> :=
    map["sin" := 1, "cos" := 1, "tan" := 1, "exp" := 1, "sqrt" := 1, "pow" := 2]

  /** Constant names (`Math.PI`, `Math.E`). */
  const Constants: set<string> := {"pi", "e"}

  /** The name the `^` operator is lowered to. */
  const PowerFunction: string := "pow"
}
