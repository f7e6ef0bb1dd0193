# gisp operator lowering, in Dafny

This project models the operator-lowering stage of gisp, a compiler from a
Lisp dialect to Go. A gisp call node `(op arg ...)` is either a comparison
(`>`, `>=`, `<`, `<=`, `=`), a binary operator (`+`, `-`, `*`, `/`, `and`,
`or`), the unary operator `!`, or no operator at all. The stage classifies the
node and checks the operator's arity. It then lowers the node into a Go AST node:

- a comparison becomes a call to a runtime routine, `core.GT(a', b', ...)`;
- a binary operator applied to n >= 2 arguments becomes the left-associative
  chain `((a0' t a1') t a2') ... t a_{n-1}'` of Go binary expressions;
- a unary operator becomes one Go unary expression.

Files:

- `syntax.dfy`: module `Parser` holds the source call tree (`Node`, `CallNode`).
  Module `GoAst` holds the Go tokens (`Token`) and the Go expression shapes
  built here (`Expr`).
- `operators.dfy`: module `Operators` holds the three operator tables, the
  classifiers, the lowerers and the lemmas about them.

Each part takes the form of the source. The table lookups, the selector `switch`
and the node constructors are functions. `isComparisonOperator` is a linear
search loop in the source, so it is a method with a loop here.
`makeNAryBinaryExpr` extends its chain in a loop, so it is a method too. Its
loop invariant ties the partial chain to the reference left fold `FoldLeft`.

The generator's general expression lowering, `EvalExpr`, is defined outside
this file. Here it is the function parameter `lower`. `EvalExprs` is taken to
apply `lower` to each argument, in order.

## Model

| member | source | states |
|---|---|---|
| Operators.TablesDisjoint | generator/operators.go:9-23 | no symbol is a key of two of the comparison list, the binary map and the unary map |
| Operators.IsComparisonOperator | generator/operators.go:25-39 | true exactly when the callee is an identifier listed among the five comparison symbols; never fails, whatever the argument count; false for a non-identifier callee |
| Operators.IsBinaryOperator | generator/operators.go:64-76 | false for a non-identifier callee; an `InvalidArity` failure exactly when the name is a binary-map key and there are fewer than 2 arguments; otherwise true exactly for binary-map keys |
| Operators.IsUnaryOperator | generator/operators.go:97-109 | false for a non-identifier callee; an `InvalidArity` failure exactly when the name is a unary-map key and the argument count is not 1; otherwise true exactly for unary-map keys |
| Operators.ClassifiersGuardLowerers | generator/operators.go:64-109 | a `true` from the binary classifier guarantees a binary-map name and at least 2 arguments, which the binary lowerer needs; a `true` from the unary classifier guarantees exactly 1 argument |
| Operators.ClassifiersExclusive | generator/operators.go:10-22 | a comparison is rejected without failure by the binary and unary classifiers; the binary and unary classifiers never both accept a node |
| Operators.ComparisonSelector | generator/operators.go:48-59 | every comparison symbol is routed to one of the five runtime routines GT, GTEQ, LT, LTEQ, EQ |
| Operators.ComparisonSelectorBijective | generator/operators.go:48-59 | `>`→GT, `>=`→GTEQ, `<`→LT, `<=`→LTEQ, `=`→EQ, position by position, and the inverse mapping undoes it, so distinct comparisons call distinct routines |
| Operators.MakeNAryComparisonExpr | generator/operators.go:43-62 | the result is a call on selector `core.<routine>`, where the routine implements the callee's comparison; its arguments are the lowered arguments, same count and same order, with no folding and no arity floor |
| Operators.ComparisonLoweringExamples | generator/operators.go:43-62 | `(> a b)` lowers to `core.GT(a', b')` and the one-argument `(= a)` to `core.EQ(a')` |
| Operators.MakeBinaryExpr | generator/operators.go:89-95 | the node is a binary expression holding exactly the given token, with the first operand as `X` and the second as `Y` |
| Operators.MakeUnaryExpr | generator/operators.go:111-116 | the node is a unary expression holding exactly the given token and operand |
| Operators.FoldLeftSnoc | generator/operators.go:82-84 | one more loop step wraps the chain built so far as the left operand of a new binary node carrying the same token |
| Operators.FoldLeftPeel | generator/operators.go:78-87 | the fold wraps exactly n-1 binary nodes carrying the token `t` around the first operand; peeling them off the left spine gives back the first operand and the others in source order |
| Operators.FoldLeftIsLeftAssociative | generator/operators.go:78-87 | `(+ a b c)` folds to `((a + b) + c)` and not to `(a + (b + c))` |
| Operators.MakeNAryBinaryExpr | generator/operators.go:78-87 | for n >= 2 arguments the result equals the left fold of the lowered arguments under the operator's mapped token; its root is a binary node with that token, and peeling n-1 such nodes off its left spine gives back the first lowered argument and the other lowered arguments in order |

## Left out

- `EvalExpr`, the general recursive lowering, is not part of this model. It is the uninterpreted parameter `lower`. `EvalExprs` is the stand-in that maps `lower` over the arguments in order.
- `makeFuncCall` and `makeSelectorExpr` are not part of this model. They are plain constructors here: `CallExpr(fun, args)` and `SelectorExpr(x, sel)`.
- Panics are not modelled as aborts. The two arity panics are the outcome `Failure(InvalidArity(kind))`, and the panic message text is dropped.
- The `switch` in `makeNAryComparisonExpr` has no `default` branch and would leave the selector nil. That branch is excluded by the function's precondition, which the comparison classifier guarantees.
- `makeNAryBinaryExpr` assumes what a `true` from `isBinaryOperator` guarantees, and its precondition states it. Three cases are therefore not modelled. A callee that is not an identifier would make the type assertion panic. A name missing from the binary map would give Go's zero token (`token.ILLEGAL`) without a panic. Fewer than 2 arguments would make the indexing of `Args[0]` and `Args[1]` panic.
- Go AST details are left out: source positions, the `ast.Expr` interface, and pointer identity of the freshly allocated nodes. Nodes are values, so the model does not capture sharing or aliasing.
- The parser package and textual Go code emission are outside this stage.
- The dispatch that calls the classifiers and then a lowerer lives in the generator's caller. It is not part of this model. `ClassifiersGuardLowerers` and `ClassifiersExclusive` state what that dispatch relies on.
- Comparisons have no arity floor, unlike binary and unary operators. This is preserved as written. It is a design choice rather than a demonstrable defect.
