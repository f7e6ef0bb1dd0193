/** The operator-lowering stage of the gisp code generator: it decides whether a
    Lisp call node `(op arg ...)` is a comparison, a binary operator or a unary
    operator, checks the operator's arity, and lowers the call into a Go AST node.
    The general expression lowering (`EvalExpr`) lives elsewhere in the generator
    and is taken here as the parameter `lower`. */
module Operators {
  import opened Parser
  import GoAst

  /** The receiver of the runtime comparison routines: `core.GT(...)` and so on. */
  const CoreReceiver: string := "core"

  // ---------------------------------------------------------------------------
  // Operator tables (fixed, never mutated)
  // ---------------------------------------------------------------------------

  const ComparisonOperators: seq<string> := [">", ">=", "<", "<=", "="]

  const BinaryOperatorMap: map<string, GoAst.Token> :=
    map["+" := GoAst.ADD, "-" := GoAst.SUB, "*" := GoAst.MUL, "/" := GoAst.QUO,
        "and" := GoAst.LAND, "or" := GoAst.LOR]

  const UnaryOperatorMap: map<string, GoAst.Token> := map["!" := GoAst.NOT]

  /** The five routines of the runtime support package, in the order of
      `ComparisonOperators`. */
  const RuntimeComparisons: seq<string> := ["GT", "GTEQ", "LT", "LTEQ", "EQ"]

  /** The three key sets are pairwise disjoint, so an identifier belongs to at
      most one operator category. */
  lemma TablesDisjoint()
    ensures forall s :: s in ComparisonOperators ==> s !in BinaryOperatorMap && s !in UnaryOperatorMap
    ensures forall s :: s in BinaryOperatorMap ==> s !in UnaryOperatorMap
  {
  }

  // ---------------------------------------------------------------------------
  // Arity failures
  // ---------------------------------------------------------------------------

  datatype OperatorKind = BinaryKind | UnaryKind

  /** The fatal condition the classifiers raise (a panic in the generator). */
  datatype Fault = InvalidArity(kind: OperatorKind)

  datatype Result<T> = Success(value: T) | Failure(fault: Fault)

  datatype Option<T> = None | Some(value: T)

  // ---------------------------------------------------------------------------
  // Classifiers
  // ---------------------------------------------------------------------------

  /** Linear search of the comparison table for the callee's name. Never fails,
      whatever the number of arguments. */
  method IsComparisonOperator(node: CallNode) returns (b: bool)
    ensures b <==> node.callee.Ident? && node.callee.name in ComparisonOperators
  {
    if !node.callee.Ident? {
      return false;
    }
    var ident := node.callee.name;
    for i := 0 to |ComparisonOperators|
      invariant ident !in ComparisonOperators[..i]
    {
      if ComparisonOperators[i] == ident {
        return true;
      }
    }
    return false;
  }

  /** Map lookup of the callee's name; a binary operator applied to fewer than
      two arguments is an arity failure, not a `false`. */
  function IsBinaryOperator(node: CallNode): (r: Result<bool>)
    ensures !node.callee.Ident? ==> r == Success(false)
    ensures r.Failure? <==> node.callee.Ident? && node.callee.name in BinaryOperatorMap && |node.args| < 2
    ensures r.Failure? ==> r.fault == InvalidArity(BinaryKind)
    ensures r.Success? ==> (r.value <==> node.callee.Ident? && node.callee.name in BinaryOperatorMap)
  {
    if !node.callee.Ident? then Success(false)
    else
      var ok := node.callee.name in BinaryOperatorMap;
      if |node.args| < 2 && ok then Failure(InvalidArity(BinaryKind)) else Success(ok)
  }

  /** Map lookup of the callee's name; a unary operator applied to other than
      exactly one argument is an arity failure, not a `false`. */
  function IsUnaryOperator(node: CallNode): (r: Result<bool>)
    ensures !node.callee.Ident? ==> r == Success(false)
    ensures r.Failure? <==> node.callee.Ident? && node.callee.name in UnaryOperatorMap && |node.args| != 1
    ensures r.Failure? ==> r.fault == InvalidArity(UnaryKind)
    ensures r.Success? ==> (r.value <==> node.callee.Ident? && node.callee.name in UnaryOperatorMap)
  {
    if !node.callee.Ident? then Success(false)
    else
      var ok := node.callee.name in UnaryOperatorMap;
      if |node.args| != 1 && ok then Failure(InvalidArity(UnaryKind)) else Success(ok)
  }

  /** A `true` from a classifier is safe to act on: the node meets the
      precondition of the matching lowerer. */
  lemma ClassifiersGuardLowerers(node: CallNode)
    ensures IsBinaryOperator(node) == Success(true) ==>
              node.callee.Ident? && node.callee.name in BinaryOperatorMap && |node.args| >= 2
    ensures IsUnaryOperator(node) == Success(true) ==>
              node.callee.Ident? && node.callee.name in UnaryOperatorMap && |node.args| == 1
  {
  }

  /** At most one classifier accepts a node, and a comparison never raises an
      arity failure from the other two classifiers. */
  lemma ClassifiersExclusive(node: CallNode)
    ensures node.callee.Ident? && node.callee.name in ComparisonOperators ==>
              IsBinaryOperator(node) == Success(false) && IsUnaryOperator(node) == Success(false)
    ensures IsBinaryOperator(node) == Success(true) ==> IsUnaryOperator(node) == Success(false)
    ensures IsUnaryOperator(node) == Success(true) ==> IsBinaryOperator(node) == Success(false)
  {
    TablesDisjoint();
  }

  // ---------------------------------------------------------------------------
  // Comparison lowering
  // ---------------------------------------------------------------------------

  /** The general lowering of every argument, in order (the generator's `EvalExprs`). */
  function EvalExprs(lower: Node -> GoAst.Expr, args: seq<Node>): (r: seq<GoAst.Expr>)
    ensures |r| == |args|
    ensures forall i :: 0 <= i < |args| ==> r[i] == lower(args[i])
  {
    seq(|args|, i requires 0 <= i < |args| => lower(args[i]))
  }

  /** The runtime routine a comparison operator is routed to. */
  function ComparisonSelector(op: string): (sel: string)
    requires op in ComparisonOperators
    ensures sel in RuntimeComparisons
  {
    match op
    case ">" => "GT"
    case ">=" => "GTEQ"
    case "<" => "LT"
    case "<=" => "LTEQ"
    case "=" => "EQ"
  }

  /** The comparison operator a runtime routine implements: the inverse of
      `ComparisonSelector`. */
  function ComparisonOfRoutine(sel: string): (op: string)
    requires sel in RuntimeComparisons
    ensures op in ComparisonOperators
  {
    match sel
    case "GT" => ">"
    case "GTEQ" => ">="
    case "LT" => "<"
    case "LTEQ" => "<="
    case "EQ" => "="
  }

  /** Each comparison operator goes to its own routine and every routine is
      used: the selector choice is a bijection between the two tables, pairing
      them position by position. */
  lemma ComparisonSelectorBijective(i: nat)
    requires i < |ComparisonOperators|
    ensures ComparisonSelector(ComparisonOperators[i]) == RuntimeComparisons[i]
    ensures ComparisonOfRoutine(RuntimeComparisons[i]) == ComparisonOperators[i]
  {
  }

  /** `(op a0 ... a_{n-1})` becomes `core.SEL(a0', ..., a_{n-1}')`, with no
      folding and no arity floor. */
  function MakeNAryComparisonExpr(lower: Node -> GoAst.Expr, node: CallNode): (r: GoAst.Expr)
    requires node.callee.Ident? && node.callee.name in ComparisonOperators
    ensures r.CallExpr? && r.fun.SelectorExpr? && r.fun.x == GoAst.Ident(CoreReceiver)
    ensures r.fun.sel in RuntimeComparisons && ComparisonOfRoutine(r.fun.sel) == node.callee.name
    ensures |r.args| == |node.args|
    ensures forall i :: 0 <= i < |node.args| ==> r.args[i] == lower(node.args[i])
  {
    var op := node.callee.name;
    var args := EvalExprs(lower, node.args);
    var selector := ComparisonSelector(op);
    GoAst.CallExpr(GoAst.SelectorExpr(GoAst.Ident(CoreReceiver), selector), args)
  }

  /** `(> a b)` calls `core.GT(a', b')`; `(= a)` calls `core.EQ(a')`: the
      argument count is never checked. */
  lemma ComparisonLoweringExamples(lower: Node -> GoAst.Expr, a: Node, b: Node)
    ensures MakeNAryComparisonExpr(lower, CallNode(Ident(">"), [a, b]))
              == GoAst.CallExpr(GoAst.SelectorExpr(GoAst.Ident("core"), "GT"), [lower(a), lower(b)])
    ensures MakeNAryComparisonExpr(lower, CallNode(Ident("="), [a]))
              == GoAst.CallExpr(GoAst.SelectorExpr(GoAst.Ident("core"), "EQ"), [lower(a)])
  {
    assert EvalExprs(lower, [a, b]) == [lower(a), lower(b)];
    assert EvalExprs(lower, [a]) == [lower(a)];
  }

  // ---------------------------------------------------------------------------
  // Binary and unary lowering
  // ---------------------------------------------------------------------------

  /** `x op y`, with `x` as the left and `y` as the right operand. */
  function MakeBinaryExpr(op: GoAst.Token, x: GoAst.Expr, y: GoAst.Expr): (r: GoAst.Expr)
    ensures r.BinaryExpr? && r.op == op && r.x == x && r.y == y
  {
    GoAst.BinaryExpr(x, op, y)
  }

  /** `op x` */
  function MakeUnaryExpr(op: GoAst.Token, x: GoAst.Expr): (r: GoAst.Expr)
    ensures r.UnaryExpr? && r.op == op && r.x == x
  {
    GoAst.UnaryExpr(op, x)
  }

  /** Reference definition of the left-associative chain:
      FoldLeft(t, a, [b, c]) is `((a t b) t c)`. */
  function FoldLeft(t: GoAst.Token, acc: GoAst.Expr, rest: seq<GoAst.Expr>): GoAst.Expr
    decreases |rest|
  {
    if rest == [] then acc else FoldLeft(t, GoAst.BinaryExpr(acc, t, rest[0]), rest[1..])
  }

  /** Taking one more operand wraps the chain built so far as the left operand. */
  lemma {:induction false} FoldLeftSnoc(t: GoAst.Token, acc: GoAst.Expr, rest: seq<GoAst.Expr>, e: GoAst.Expr)
    ensures FoldLeft(t, acc, rest + [e]) == GoAst.BinaryExpr(FoldLeft(t, acc, rest), t, e)
    decreases |rest|
  {
    if rest == [] {
      assert [] + [e] == [e];
    } else {
      assert (rest + [e])[1..] == rest[1..] + [e];
      FoldLeftSnoc(t, GoAst.BinaryExpr(acc, t, rest[0]), rest[1..], e);
    }
  }

  /** Walks `k` binary nodes down the left spine of `e`, each of which must carry
      the token `t`; gives the expression reached and the right operands met,
      innermost first. `None` when the spine is shorter or carries another token. */
  function Peel(t: GoAst.Token, e: GoAst.Expr, k: nat): Option<(GoAst.Expr, seq<GoAst.Expr>)>
  {
    if k == 0 then Some((e, []))
    else if e.BinaryExpr? && e.op == t then
      match Peel(t, e.x, k - 1)
      case None => None
      case Some((leftmost, rights)) => Some((leftmost, rights + [e.y]))
    else None
  }

  /** The fold wraps exactly |rest| binary nodes carrying `t` around `acc`;
      peeling that many off the left spine gives back `acc` and the right
      operands in source order (`acc` may itself be a binary node). */
  lemma {:induction false} FoldLeftPeel(t: GoAst.Token, acc: GoAst.Expr, rest: seq<GoAst.Expr>)
    ensures Peel(t, FoldLeft(t, acc, rest), |rest|) == Some((acc, rest))
    decreases |rest|
  {
    if rest != [] {
      var init, last := rest[..|rest| - 1], rest[|rest| - 1];
      assert rest == init + [last];
      FoldLeftSnoc(t, acc, init, last);
      FoldLeftPeel(t, acc, init);
    }
  }

  /** `("+" 1 2 3)` lowers to `((1 + 2) + 3)`, not to `(1 + (2 + 3))`. */
  lemma FoldLeftIsLeftAssociative(a: GoAst.Expr, b: GoAst.Expr, c: GoAst.Expr)
    ensures FoldLeft(GoAst.ADD, a, [b, c]) == GoAst.BinaryExpr(GoAst.BinaryExpr(a, GoAst.ADD, b), GoAst.ADD, c)
    ensures FoldLeft(GoAst.ADD, a, [b, c]) != GoAst.BinaryExpr(a, GoAst.ADD, GoAst.BinaryExpr(b, GoAst.ADD, c))
  {
    assert [b, c][1..] == [c] && [c][1..] == [];
    var ab := GoAst.BinaryExpr(a, GoAst.ADD, b);
    assert FoldLeft(GoAst.ADD, a, [b, c]) == FoldLeft(GoAst.ADD, ab, [c]);
    assert FoldLeft(GoAst.ADD, ab, [c]) == FoldLeft(GoAst.ADD, GoAst.BinaryExpr(ab, GoAst.ADD, c), []);
    assert a < ab;
  }

  /** Folds `(op a0 a1 ... a_{n-1})`, n >= 2, into `((a0' t a1') t a2') ... t a_{n-1}'`
      with `t` the operator's token, extending the chain one argument at a time. */
  method MakeNAryBinaryExpr(lower: Node -> GoAst.Expr, node: CallNode) returns (outer: GoAst.Expr)
    requires node.callee.Ident? && node.callee.name in BinaryOperatorMap && |node.args| >= 2
    ensures outer == FoldLeft(BinaryOperatorMap[node.callee.name], lower(node.args[0]),
                              EvalExprs(lower, node.args)[1..])
    ensures outer.BinaryExpr? && outer.op == BinaryOperatorMap[node.callee.name]
    ensures Peel(BinaryOperatorMap[node.callee.name], outer, |node.args| - 1)
              == Some((lower(node.args[0]), EvalExprs(lower, node.args)[1..]))
  {
    var op := BinaryOperatorMap[node.callee.name];
    ghost var lowered := EvalExprs(lower, node.args);
    outer := MakeBinaryExpr(op, lower(node.args[0]), lower(node.args[1]));
    assert lowered[1..2] == [lowered[1]];
    for i := 2 to |node.args|
      invariant outer == FoldLeft(op, lowered[0], lowered[1..i])
      invariant outer.BinaryExpr? && outer.op == op
    {
      assert lowered[1..i + 1] == lowered[1..i] + [lowered[i]];
      FoldLeftSnoc(op, lowered[0], lowered[1..i], lowered[i]);
      outer := MakeBinaryExpr(op, outer, lower(node.args[i]));
    }
    assert lowered[1..|node.args|] == lowered[1..];
    FoldLeftPeel(op, lowered[0], lowered[1..]);
  }
}
