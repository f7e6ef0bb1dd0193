/** The source tree produced by gisp's parser, as far as the operator-lowering
    stage inspects it: a call node `(callee arg ...)` whose callee may be an
    identifier, another call, or any other leaf. */
module Parser {

  datatype Node =
    | Ident(name: string)        // an identifier node such as `+`, `>` or `foo`
    | Call(call: CallNode)       // a nested call node
    | Atom(text: string)         // any other leaf: number, string literal, ...

  /** `(callee arg0 arg1 ...)` */
  datatype CallNode = CallNode(callee: Node, args: seq<Node>)
}

/** The part of Go's `go/token` and `go/ast` packages that the operator-lowering
    stage builds. Positions and node interfaces are left out. */
module GoAst {

  /** The `go/token` operator tokens the operator tables map to. */
  datatype Token = ADD | SUB | MUL | QUO | LAND | LOR | NOT

  datatype Expr =
    | Ident(name: string)                         // *ast.Ident
    | SelectorExpr(x: Expr, sel: string)          // *ast.SelectorExpr: x.sel
    | CallExpr(fun: Expr, args: seq<Expr>)        // *ast.CallExpr: fun(args...)
    | BinaryExpr(x: Expr, op: Token, y: Expr)     // *ast.BinaryExpr: x op y
    | UnaryExpr(op: Token, x: Expr)               // *ast.UnaryExpr: op x
    | Leaf(text: string)                          // any other already-lowered expression
}
