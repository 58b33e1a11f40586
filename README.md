# IL-Calc in Dafny

IL-Calc is a small calculator for arithmetic expressions. It compiles an
expression in three stages:

1. **Lexer.** `LexicalParser.Parse` makes one pass over the text. It emits
   whitespace runs, numeric literals, one-character operators and
   punctuation, and identifiers. Each identifier is classified as a
   function name, a constant name or a variable.
2. **Parser.** `SyntaxParser.Parse` drops the whitespace and collects the
   distinct variable names in order. `ParseGroup` then builds a syntax tree.
   Each group's primaries go into a flat list, which four passes rewrite in
   place, in this order:
   - `^`;
   - implicit multiplication of adjacent nodes;
   - `*` and `/`;
   - the additive signs.
3. **Code generator.** `ArithmeticTreeCompiler.EmitNode` lowers the tree, in
   post-order, into stack-machine instructions. `Compile` maps each variable
   to its parameter slot and appends a final `Ret`.

This project models those stages in Dafny:

- **Data.** Tokens, errors, nodes and the registry of names are datatypes and
  constants.
- **Code the source writes as loops.** These are Dafny methods with loop
  invariants, each proved equal to a recursive specification function:
  - the lexer's loops (`LexicalParser.Parse`, `AcceptOneOrMore`,
    `AcceptLiteral`);
  - the group parser and its four list passes (`SyntaxParser.ParseGroup`,
    `Reduction.*`);
  - the emitter (`ArithmeticTreeCompiler.EmitNode`), which appends to the
    instruction buffer of an `ILGenerator` object.
- **Properties.** The lemmas of `LexicalProperties`, `ReductionProperties`,
  `SyntaxProperties` and `CompilerProperties` state what the source promises
  about those specification functions.
- **Reference semantics.** `StackMachine` is a stack-machine interpreter with
  uninterpreted arithmetic. Beside it is a tree-walking evaluator over the
  same operations. `CompilerProperties` proves that the compiled code of a
  parsed tree computes the evaluator's value.
- **Worked inputs.** `Examples` fixes concrete inputs, such as `3.`, `2x`,
  `2^3^2`, `2^-x`, `-x-1`, `1)+5`, `sin(1` and `sin(1,2)`, and proves what the
  lexer and parser do with each.

Runtime exceptions that the parser lets escape are error variants in
`SyntaxErrors.ParseError`, so every failure is a value:

- a null dereference after a trailing `^`, `*` or `/`, or in an unterminated
  argument list;
- a registry lookup of a missing key;
- the element-count `NotImplementedException`.

The model keeps the source's observable behaviour as written. For example,
tokens after the top group's first `)` or `,` are ignored.

## Model

| member | source | states |
|---|---|---|
| LexicalParser.RunEnd | Lexics/LexicalParser.cs:22-30 | the end of the run of class characters from `i`: every character before it is in the class, and the one at it is not (or the text ends) |
| LexicalParser.LiteralEnd | Lexics/LexicalParser.cs:32-48 | a literal starting at `i` ends strictly after `i`, within the text |
| LexicalParser.NextToken | Lexics/LexicalParser.cs:55-83 | a token read at `i` starts at `i`, is non-empty and is exactly the text it covers |
| LexicalParser.AcceptOneOrMore | Lexics/LexicalParser.cs:22-30 | the loop takes the first character and then the maximal run of the class: the new index is `RunEnd` and the value is the text between the indices |
| LexicalParser.AcceptLiteral | Lexics/LexicalParser.cs:32-48 | the two digit loops around an optional `.` stop exactly at `LiteralEnd`, and the value is the text between the indices |
| LexicalParser.AcceptToken | Lexics/LexicalParser.cs:55-83 | the branch chain of the lexer loop (whitespace, digit, table character, letter with function-then-constant-then-variable classification, else error) yields exactly `NextToken` |
| LexicalParser.Parse | Lexics/LexicalParser.cs:50-85 | the lexer loop delivers exactly the tokens and the error of `Tokenize` |
| LexicalParser.TokenizeStep | Lexics/LexicalParser.cs:53-79 | after a token is read, the stream continues right where that token ended |
| LexicalParser.TokenizeStuck | Lexics/LexicalParser.cs:80-83 | a character that starts no token ends the stream with an exception that carries its index and quotes it |
| LexicalProperties.LiteralEndShape | Lexics/LexicalParser.cs:32-48 | the text up to `LiteralEnd` satisfies the literal grammar: a digit, then digits and at most one `.`, so `3.` is a literal |
| LexicalProperties.MaximalLiteralUnique | Lexics/LexicalParser.cs:32-48 | a literal that cannot be extended by its next character has only one possible end: `LiteralEnd` |
| LexicalProperties.RunEndUnique | Lexics/LexicalParser.cs:22-30 | a maximal run of class characters has only one possible end: `RunEnd` |
| LexicalProperties.WellFormedTokenIsNext | Lexics/LexicalParser.cs:55-79 | any well-formed token at `i` is the token the lexer reads at `i`, so the shape rules fix the token |
| LexicalProperties.SingleCharacterIsNext | Lexics/LexicalParser.cs:9-20 | a one-character operator or punctuation token of the table is the token read at its position |
| LexicalProperties.IdentifierIsNext | Lexics/LexicalParser.cs:69-79 | a maximal identifier classified function-first, then constant, else variable, is the token read at its position |
| LexicalProperties.NextTokenWellFormed | Lexics/LexicalParser.cs:55-83 | a token is read at `i` exactly when the character there can start one, and that token is well formed: it has the maximal shape its kind requires and the kind its classification gives |
| LexicalProperties.TokenizeFromSound | Lexics/LexicalParser.cs:50-85 | soundness: the stream read from `i` covers the text contiguously with well-formed tokens up to where it stopped, and it stops early only at a character that starts no token |
| LexicalProperties.TokenizeFromComplete | Lexics/LexicalParser.cs:50-85 | completeness: any contiguous sequence of well-formed tokens covering the text from `i` to where it stops at a bad character (or the end) is the stream the lexer delivers |
| LexicalProperties.TokenizeReproducesText | Lexics/LexicalParser.cs:50-85 | concatenating the token values, whitespace included, gives back the whole text, or on an error the text before the offending character, whose index the exception carries |
| LexicalProperties.TokenizePositions | Lexics/LexicalParser.cs:55-79 | every token is non-empty, starts at its recorded position, the first at 0 and each where the previous one ended |
| LexicalProperties.TokenizeWellFormed | Lexics/LexicalParser.cs:55-79 | every emitted token is a well-formed token of the text |
| LexicalProperties.TokenizeCharacterized | Lexics/LexicalParser.cs:50-85 | the lexer succeeds with a token sequence if and only if that sequence covers the whole text with contiguous well-formed tokens |
| StringOrder.StringLessTransitive | Syntax/SyntaxParser.cs:256 | the ordinal order used to sort variable names is transitive |
| StringOrder.StringLessTotal | Syntax/SyntaxParser.cs:256 | any two different names are ordered one way or the other |
| StringOrder.InsertSorted | Syntax/SyntaxParser.cs:255-256 | inserting a name into an ascending duplicate-free sequence keeps it so and adds exactly that name |
| StringOrder.SortDistinct | Syntax/SyntaxParser.cs:253-257 | `Distinct().OrderBy()`: the result is strictly ascending and holds exactly the names of the input |
| StringOrder.AscendingUnique | Syntax/SyntaxParser.cs:255-257 | two strictly ascending sequences with the same names are equal, so the sorted name list is determined by the set of names |
| Reduction.TakeRightOperand | Syntax/SyntaxParser.cs:96-123 | a successful right-operand search consumes at least the operand itself |
| Reduction.RemoveRightOperand | Syntax/SyntaxParser.cs:96-123 | the sign loop after an operator removes the signs and the operand from the list and yields the operand `TakeRightOperand` gives, or its error |
| Reduction.FoldBinaryOperations | Syntax/SyntaxParser.cs:86-130 | the `^` pass (and, with the product level, the `*`/`/` pass of 151-196) rewrites the list exactly as `Fold` specifies |
| Reduction.FoldAt | Syntax/SyntaxParser.cs:122-128 | folding one operator replaces the left node, the operator and the operand with one binary node and re-anchors the cursor on it, preserving what the rest of the pass computes |
| Reduction.FoldImplicitMultiplication | Syntax/SyntaxParser.cs:133-148 | the adjacency pass rewrites the list exactly as `Juxtapose` specifies |
| Reduction.MultiplyRun | Syntax/SyntaxParser.cs:138-146 | multiplying a run of adjacent nodes onto the node at the cursor shortens the list and preserves what the rest of the pass computes |
| Reduction.FoldAdditiveOperations | Syntax/SyntaxParser.cs:199-235 | the additive pass rewrites the list exactly as `Additive` specifies |
| Reduction.AdditiveStep | Syntax/SyntaxParser.cs:203-232 | one step of the additive loop (a sign token read, or a node folded into the first element) preserves what the rest of the pass computes |
| Reduction.Additive | Syntax/SyntaxParser.cs:199-235 | after the additive pass at most one element is left, and it is a node |
| Reduction.ReduceGroup | Syntax/SyntaxParser.cs:85-240 | the four passes in order, then the count check, compute exactly `Reduce` |
| ReductionProperties.RightOperandSignParity | Syntax/SyntaxParser.cs:96-123 | after any run of `+` and `-` signs the operand is the next node, negated exactly when an odd number of `-` flip the flag |
| ReductionProperties.RightOperandUnexpectedToken | Syntax/SyntaxParser.cs:100-119 | a non-sign token where the operand should be fails with "Right expression expected" on the operator |
| ReductionProperties.RightOperandMissing | Syntax/SyntaxParser.cs:98-100 | running off the list while looking for the operand is a null dereference |
| ReductionProperties.FoldLeavesNoOperator | Syntax/SyntaxParser.cs:86-130 | after a successful binary pass no operator of that level is left in the list |
| ReductionProperties.FoldFromNoOperator | Syntax/SyntaxParser.cs:86-130 | a list without that level's operators passes through unchanged |
| ReductionProperties.FoldIdempotent | Syntax/SyntaxParser.cs:86-130 | running a binary pass twice is running it once |
| ReductionProperties.FoldChainLeftAssociative | Syntax/SyntaxParser.cs:122-128 | `a op b op c` folds to `(a op b) op c`, so `2^3^2` is Pow(Pow(2,3),2) |
| ReductionProperties.FoldStep | Syntax/SyntaxParser.cs:122-128 | an operator between two nodes becomes one binary node of the level's operation, and the pass goes on from it |
| ReductionProperties.FoldMissingLeft | Syntax/SyntaxParser.cs:93-94 | an operator at the start of the list or after another token fails with "Left expression expected" on that operator |
| ReductionProperties.MulRunStopsAtToken | Syntax/SyntaxParser.cs:139-145 | the run of multiplied nodes ends at the end of the list or at a token |
| ReductionProperties.JuxtaposeNoAdjacent | Syntax/SyntaxParser.cs:133-148 | after the adjacency pass no two nodes are next to each other |
| ReductionProperties.JuxtaposeFromIdentity | Syntax/SyntaxParser.cs:133-148 | a list without adjacent nodes passes through the adjacency pass unchanged |
| ReductionProperties.JuxtaposeIdempotent | Syntax/SyntaxParser.cs:133-148 | running the adjacency pass twice is running it once |
| ReductionProperties.ImplicitIsExplicitMultiplication | Syntax/SyntaxParser.cs:132-148 | two adjacent nodes reduce to the same tree as the same nodes with `*` between them, `a * b` |
| ReductionProperties.ReduceSingle | Syntax/SyntaxParser.cs:85-240 | a group of one node reduces to that node |
| ReductionProperties.ReducePowered | Syntax/SyntaxParser.cs:85-130 | reducing a list is the same as reducing the list the `^` pass leaves |
| ReductionProperties.AdditiveSkipsTokens | Syntax/SyntaxParser.cs:203-212 | a run of sign tokens only updates the accumulated sign and is removed |
| ReductionProperties.SignAfterParity | Syntax/SyntaxParser.cs:205-208 | after reading signs from a set sign, the sign is flipped exactly when an odd number of them are `-` |
| ReductionProperties.SignAfterReset | Syntax/SyntaxParser.cs:205-208 | after reading signs from the reset state, the sign is 0 for no signs, else -1 for an odd number of `-` and +1 otherwise |
| ReductionProperties.AdditiveSignRule | Syntax/SyntaxParser.cs:213-231 | the signs before a node decide it: the first node is negated when they net to negative, a later one is subtracted from or added to the head; then the sign resets |
| ReductionProperties.AdditiveTrailingSign | Syntax/SyntaxParser.cs:234-235 | signs left at the end of the list fail with "Expression is expected in the end of text" |
| ReductionProperties.AdditiveFromNone | Syntax/SyntaxParser.cs:199-235 | the additive pass leaves no node only for an empty list |
| ReductionProperties.ReduceNonEmpty | Syntax/SyntaxParser.cs:237-240 | a non-empty group never reaches the element-count exception: it reduces to one node or fails with a syntax error or a null dereference |
| ReductionProperties.FoldNeverNotImplemented | Syntax/SyntaxParser.cs:86-196 | the binary passes fail only with syntax errors or a null dereference |
| ReductionProperties.AdditiveFromErrors | Syntax/SyntaxParser.cs:234-235 | the additive pass fails only with the trailing-sign syntax error |
| ReductionProperties.FoldFromKeepsElements | Syntax/SyntaxParser.cs:86-196 | a binary pass keeps exactly the variables of the list and keeps calls resolved |
| ReductionProperties.JuxtaposeFromKeepsElements | Syntax/SyntaxParser.cs:133-148 | the adjacency pass keeps exactly the variables of the list and keeps calls resolved |
| ReductionProperties.AdditiveFromKeepsElements | Syntax/SyntaxParser.cs:199-233 | the additive pass keeps exactly the variables of the list and keeps calls resolved |
| ReductionProperties.ReduceKeepsElements | Syntax/SyntaxParser.cs:85-240 | the reduced node has exactly the variables of the group's list, and resolved calls if the list's nodes have them |
| SyntaxParser.Primary | Syntax/SyntaxParser.cs:18-80 | a primary that succeeds ends at a token inside the sequence (its own, or the `)` that closes it) |
| SyntaxParser.Arguments | Syntax/SyntaxParser.cs:53-63 | a successful argument loop stops at a token inside the sequence |
| SyntaxParser.Collect | Syntax/SyntaxParser.cs:16-83 | the do-while loop consumes at least one token and stops at the end or on a `)` or `,` |
| SyntaxParser.Group | Syntax/SyntaxParser.cs:12-241 | a group consumes at least one token and leaves the enumerator at the end or on a `)` or `,` |
| SyntaxParser.Parse | Syntax/SyntaxParser.cs:243-260 | drops whitespace, rejects an empty expression, parses the first group and pairs it with the sorted distinct variable names: exactly `ParseTree` |
| SyntaxParser.ParseGroup | Syntax/SyntaxParser.cs:12-241 | the collecting loop and the four passes compute exactly `Group` |
| SyntaxParser.ParsePrimary | Syntax/SyntaxParser.cs:18-80 | the switch on the current token computes exactly `Primary` |
| SyntaxParser.ParseArguments | Syntax/SyntaxParser.cs:53-63 | the argument loop computes exactly `Arguments` |
| SyntaxProperties.PrimaryFacts | Syntax/SyntaxParser.cs:18-80 | a primary holds the variables of exactly the tokens it spans and only resolved calls, or fails with a group error |
| SyntaxProperties.ArgumentsFacts | Syntax/SyntaxParser.cs:53-63 | the arguments hold the variables of exactly the tokens read and only resolved calls, or the loop fails with a group error |
| SyntaxProperties.CollectFacts | Syntax/SyntaxParser.cs:16-83 | the collected list is non-empty and holds the variables of exactly the tokens read, or collection fails with a group error |
| SyntaxProperties.GroupFacts | Syntax/SyntaxParser.cs:12-241 | a group's node mentions exactly the variables of the tokens it consumed and only resolved calls |
| SyntaxProperties.GroupVariables | Syntax/SyntaxParser.cs:12-241 | a group's node has exactly the variables of the tokens it consumed, and every call in it names a registry function with its arity |
| SyntaxProperties.GroupErrors | Syntax/SyntaxParser.cs:12-241 | a group fails only with a syntax error, a null dereference or a missing key, never with `NotImplementedException` |
| SyntaxProperties.NonWhiteSpaceTokens | Syntax/SyntaxParser.cs:246 | the filtered tokens are exactly the non-whitespace tokens |
| SyntaxProperties.VariableTextsTokens | Syntax/SyntaxParser.cs:253-254 | the selected texts are exactly the values of the variable tokens |
| SyntaxProperties.VariableNamesCanonical | Syntax/SyntaxParser.cs:252-257 | the name list depends only on the set of variable texts |
| SyntaxProperties.ParseTreeVariableNames | Syntax/SyntaxParser.cs:252-257 | a tree's variable names are strictly ascending, with no duplicates, and are exactly the texts of the variable tokens |
| SyntaxProperties.ParseTreeWellFormed | Syntax/SyntaxParser.cs:243-260 | the root's variables are among the tree's names and its calls are resolved; they are all of the names when the top group consumes every token |
| SyntaxProperties.ParseTreeEmpty | Syntax/SyntaxParser.cs:246-250 | parsing fails with "Expression expected" exactly when every token is whitespace |
| SyntaxProperties.ParseTreeErrors | Syntax/SyntaxParser.cs:243-260 | parsing fails only with "Expression expected" or a group error, never with `NotImplementedException` |
| SyntaxProperties.CollectSimple | Syntax/SyntaxParser.cs:16-83 | a run of single-token primaries is collected into one element per token, up to the end |
| SyntaxProperties.ParseSimple | Syntax/SyntaxParser.cs:243-260 | parsing tokens that are all single-token primaries is reducing their elements |
| SyntaxNodes.Render | Syntax/SyntaxNodes.cs:41-84 | `ToString` of a node: a binary operation, `(Left Op Right)`, and a negation, `(-Target)`, are wrapped in one pair of parentheses; a call is its name followed by a parenthesised argument list; a variable is its name and a number is left to the number formatting |
| SyntaxNodes.RenderAll | Syntax/SyntaxNodes.cs:55 | `string.Join(", ", Arguments)`: empty for no arguments, otherwise it starts with the first argument's rendering |
| SyntaxNodes.RenderAllSnoc | Syntax/SyntaxNodes.cs:55 | joining one more argument appends `", "` and that argument's rendering, so the arguments appear in order separated by `", "` |
| SyntaxNodes.OperationName | Syntax/SyntaxNodes.cs:72 | the `Operation` printed between the operands is the enum name: three characters, none of them a parenthesis |
| SyntaxNodes.OperationNameInjective | Syntax/SyntaxNodes.cs:72 | different operations print under different names, so the rendering shows which operation a node applies |
| SyntaxNodes.RenderBalanced | Syntax/SyntaxNodes.cs:41-84 | the `ToString` of a node (`name`, `name(a, b)`, `(Left Op Right)`, `(-Target)`) has balanced parentheses when names and number texts have none |
| SyntaxNodes.RenderAllBalanced | Syntax/SyntaxNodes.cs:55 | the comma-joined argument list has balanced parentheses under the same condition |
| SyntaxNodes.BalancedWrap | Syntax/SyntaxNodes.cs:72-84 | wrapping a balanced text in parentheses keeps it balanced |
| ArithmeticTreeCompiler.SlotsOf | Compiler/ArithmeticTreeCompiler.cs:44-46 | the slot map exists exactly when the names are distinct (otherwise `ArgumentException`); its keys are the names and each name's slot is its index |
| ArithmeticTreeCompiler.ILGenerator.constructor | Compiler/ArithmeticTreeCompiler.cs:48 | a new generator's buffer is empty |
| ArithmeticTreeCompiler.ILGenerator.Emit | Compiler/ArithmeticTreeCompiler.cs:49-50 | emitting appends exactly that instruction to the buffer |
| ArithmeticTreeCompiler.EmitNode | Compiler/ArithmeticTreeCompiler.cs:55-103 | emitting a node appends exactly its code (a constant load, an argument load at the slot, the arguments then a call, the target then `Neg`, left then right then the operation, `^` as a call of `pow`), or reports the missing key `CodeFor` names |
| ArithmeticTreeCompiler.EmitArguments | Compiler/ArithmeticTreeCompiler.cs:68-69 | the `foreach` appends each argument's code in turn, or reports the first failure |
| ArithmeticTreeCompiler.CodeForAllSnoc | Compiler/ArithmeticTreeCompiler.cs:68-69 | the code for the arguments up to one more is the earlier code followed by that argument's code |
| ArithmeticTreeCompiler.ArgumentFailure | Compiler/ArithmeticTreeCompiler.cs:68-69 | once an argument fails, the whole argument list fails with that error |
| ArithmeticTreeCompiler.Compile | Compiler/ArithmeticTreeCompiler.cs:40-53 | builds the slot map, emits the root and one `Ret`, with one parameter per name: exactly `CompiledMethod` |
| StackMachine.RunConcat | Compiler/ArithmeticTreeCompiler.cs:55-103 | running two pieces of emitted code one after the other is running their concatenation |
| CompilerProperties.CodeForSucceeds | Compiler/ArithmeticTreeCompiler.cs:55-103 | lowering a node succeeds exactly when all its variables have slots and all its calls name registry functions |
| CompilerProperties.CodeForNoReturn | Compiler/ArithmeticTreeCompiler.cs:55-103 | a node's code contains no `Ret`, so the only `Ret` is the one `Compile` appends |
| CompilerProperties.CodeForCorrect | Compiler/ArithmeticTreeCompiler.cs:55-103 | running a node's code on any stack pushes exactly one value, the node's tree-walking value, with each call popping its arity |
| CompilerProperties.CodeForAllCorrect | Compiler/ArithmeticTreeCompiler.cs:67-71 | running the code of the arguments pushes their values left to right |
| CompilerProperties.RunCall | Compiler/ArithmeticTreeCompiler.cs:67-71 | a call after code that pushed as many values as the function's arity replaces them with its result |
| CompilerProperties.RunNegate | Compiler/ArithmeticTreeCompiler.cs:73-76 | `Neg` after the target's code replaces its value with the negation |
| CompilerProperties.RunBinary | Compiler/ArithmeticTreeCompiler.cs:78-100 | the left code, the right code and the operation leave one value: the operation applied to the two |
| CompilerProperties.CompiledMethodCorrect | Compiler/ArithmeticTreeCompiler.cs:40-53 | a tree with distinct names, covered variables and resolved calls compiles; the method has one parameter per name and invoking it with the names' values returns the tree's value |
| CompilerProperties.AscendingDistinct | Syntax/SyntaxParser.cs:255-256 | sorted distinct names have no duplicates, so their slot map exists |
| CompilerProperties.ParsedTreeCompiles | Syntax/SyntaxParser.cs:243-260 | every tree the parser returns compiles, and invoking the method with values for its names returns the tree's value |
| Examples.LexTrailingDot | Lexics/LexicalParser.cs:32-48 | `3.` lexes as one literal |
| Examples.LexJuxtaposed | Lexics/LexicalParser.cs:61-79 | `2x` lexes as a literal then a variable |
| Examples.LexUnexpectedCharacter | Lexics/LexicalParser.cs:80-83 | `2 # 3` yields the literal and the space, then the exception for `#` at index 2 |
| Examples.LexClassified | Lexics/LexicalParser.cs:69-79 | `sin(pi)` lexes as a function name, `(`, a constant name and `)` |
| Examples.OneVariableName | Syntax/SyntaxParser.cs:252-257 | a variable occurring several times is listed once |
| Examples.ParsePowerChain | Syntax/SyntaxParser.cs:86-130 | `2^3^2` parses to Pow(Pow(2,3),2) |
| Examples.ParseImplicitProduct | Syntax/SyntaxParser.cs:85-148 | `2x^2` parses to Mul(2, Pow(x,2)): `^` binds before implicit multiplication |
| Examples.ParseNegativeExponent | Syntax/SyntaxParser.cs:96-123 | `2^-x` parses to Pow(2, Neg(x)) |
| Examples.ParseSigns | Syntax/SyntaxParser.cs:199-235 | `-x-1` parses to Sub(Neg(x), 1) |
| Examples.ParseTrailingSign | Syntax/SyntaxParser.cs:234-235 | `1+` fails with "Expression is expected in the end of text" |
| Examples.ParseTrailingPower | Syntax/SyntaxParser.cs:98-100 | `2^` is a null dereference, not a syntax error |
| Examples.ParseMissingLeft | Syntax/SyntaxParser.cs:158-159 | `*2` fails with "Left expression expected" |
| Examples.ParseTrailingTokens | Syntax/SyntaxParser.cs:81-83 | `1)+5` parses to 1: what follows the top group's `)` is never read |
| Examples.ParseUnterminatedArguments | Syntax/SyntaxParser.cs:55-63 | `sin(1` is a null dereference in the argument loop |
| Examples.ParseUnclosedParenthesis | Syntax/SyntaxParser.cs:43-44 | `(1` fails with "Closing paranthesis expected" on the `(` |
| Examples.ParseMissingArgumentList | Syntax/SyntaxParser.cs:50-51 | `sin 1` fails with "Argument list expected" |
| Examples.TwoArguments | Syntax/SyntaxParser.cs:53-63 | the argument loop of `sin(1,2)` reads the two arguments and stops on the `)` |
| Examples.ArityMismatch | Syntax/SyntaxParser.cs:67-69 | a call whose argument count differs from the registry arity fails with "N parameters expected, got M" |
| Examples.ParseWrongArity | Syntax/SyntaxParser.cs:67-69 | `sin(1,2)` fails with "1 parameters expected, got 2" |

## Left out

- Program.cs is not part of this model. It holds the console loop, the assignment syntax and the variable dictionary. The condition that every name is bound appears only as the precondition of `CompilerProperties.ParsedTreeCompiles`.
- The generic `Compile<T>` (Compiler/ArithmeticTreeCompiler.cs:13-38) is left out. It covers the delegate-type checks, the `Conv_I4` for an `int` result and `CreateDelegate`, all of which are reflection.
- `DynamicMethod` and the IL opcodes are modelled as a parameter count and an instruction datatype. `ILGenerator` is a class holding an instruction buffer.
- Floating point is left out. Numbers are the literal text or the constant name. A `Semantics` record of uninterpreted functions gives them, the arithmetic operators and the `Math` methods their values.
- `Double.TryParse` is modelled as acceptance of the lexer's literal grammar. Culture-dependent parsing is not modelled. Nor is a literal too large for a `double`, which `TryParse` rejects on .NET Framework (a literal of 310 or more digits, for example); there the source throws "Incorrect literal" while `SyntaxParser.Primary` accepts the literal. So the model never takes the "Incorrect literal" branch for a token the lexer produced.
- `NumberNode.ToString` is a parameter (`showNumber`), because number formatting is floating point.
- `char.IsWhiteSpace`, `IsDigit`, `IsLetter` and `IsLetterOrDigit` are modelled on ASCII. Unicode categories are not modelled.
- The culture-sensitive comparer behind `OrderBy` is modelled as ordinal lexicographic order.
- Laziness of `yield` and of the enumerator is not modelled. The lexer's stream is a finite sequence of tokens plus an optional exception. The parser's enumerator is an index into the token sequence, where an index equal to the length stands for `MoveNext` having returned false.
- The `LinkedList<object>` of a group is a local sequence of elements. The passes splice it with a cursor index. Node identity and aliasing are not modelled.
- `ParseGroup` is split into `ParseGroup`, `ParsePrimary` and `ParseArguments`, and `EmitNode`'s `foreach` into `EmitArguments`. The recursion and the error paths are the source's.
- `TokenType.TokenGroup` is not modelled, because nothing produces or consumes it.
- The declaration of the `BinaryOperation` enum is not part of this model. Its members and their `ToString` names are taken from their uses.
- ArithmeticTreeCompiler.EmitNode: after a failure, the contents of the instruction buffer are not specified. Only the exception is, because the source abandons the method when it throws. The same holds for `ArithmeticTreeCompiler.EmitArguments`, and for the generator `ArithmeticTreeCompiler.Compile` drops when it returns an error.
- SyntaxProperties.ParseTreeWellFormed: the variables of the root equal the variable names only when the top group consumes every token. When tokens follow a top-level `)` or `,`, the names may include variables the root does not mention. The source does the same.
