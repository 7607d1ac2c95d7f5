/**
 * The expression tree of the Zinc engine.
 *
 * The C++ engine encodes every expression as a template type
 * (`Numeric<T>`, `Constant<T, N, D>`, `Variable<id>`, `UnaryExpression`,
 * `PostfixExpression<Power<p>, _>`, `BinarryExpression`,
 * `FunctionExpression`). Here the closed set of node kinds is one datatype
 * and every compile-time dispatch on a node type becomes a `match`.
 */
module Syntax {

  /** The C++ value type of a literal `Numeric<T>`: `int`, an unsigned
      integer (`size_t`/`uintmax_t`, as the series builders produce), or a
      floating type (`double`/`long double`). Only integral values are
      modelled, whatever the type. */
  datatype Scalar = Int | Unsigned | Floating

  /** Prefix operators: `-`, `++`, `--`. */
  datatype UnaryOp = Neg | Inc | Dec

  /** Infix operators: `+`, `-`, `*`, `/`. */
  datatype BinaryOp = Add | Sub | Mul | Div

  /** The named functions of the engine (there is no tangent). */
  datatype Function = Sin | Cos

  datatype Expr =
    | Num(value: int, kind: Scalar)
      // a named constant of value num / den, printed by its name
    | Const(name: string, num: int, den: int)
    | Var(id: char)
    | Unary(uop: UnaryOp, operand: Expr)
      // the postfix integer power `((operand)^exponent)`
    | Pow(exponent: int, operand: Expr)
    | Bin(bop: BinaryOp, left: Expr, right: Expr)
    | Fn(fn: Function, operand: Expr)

  /** `_pi`: the constant 314159265358979 / 10^14, named "pi". */
  function Pi(): (c: Expr)
    ensures c.Const? && c.name == "pi" && c.den > 0
  {
    Const("pi", 314159265358979, 100000000000000)
  }

  /** `_e`: the constant 271828182845904 / 10^14, named "e". */
  function E(): (c: Expr)
    ensures c.Const? && c.name == "e" && c.den > 0
  {
    Const("e", 271828182845904, 100000000000000)
  }

  /** A raw `int` promoted to an expression (`ExpressionOperator`). */
  function Lit(n: int): Expr {
    Num(n, Int)
  }

  /** The letters of the variables occurring in `e`. */
  function Vars(e: Expr): set<char> {
    match e
    case Num(_, _) => {}
    case Const(_, _, _) => {}
    case Var(c) => {c}
    case Unary(_, u) => Vars(u)
    case Pow(_, u) => Vars(u)
    case Bin(_, l, r) => Vars(l) + Vars(r)
    case Fn(_, u) => Vars(u)
  }

  /** A tree with no free variable: the only kind the evaluator accepts. */
  predicate Closed(e: Expr) {
    Vars(e) == {}
  }

  /** No `++` or `--` node occurs in `e`. */
  predicate NoStep(e: Expr) {
    match e
    case Num(_, _) => true
    case Const(_, _, _) => true
    case Var(_) => true
    case Unary(op, u) => op == Neg && NoStep(u)
    case Pow(_, u) => NoStep(u)
    case Bin(_, l, r) => NoStep(l) && NoStep(r)
    case Fn(_, u) => NoStep(u)
  }

  /** Every `Div` node of `e`, in pre-order (a node before its children,
      left operand before right), looking inside every node kind. */
  function Divisions(e: Expr): (ds: seq<Expr>)
    ensures forall i :: 0 <= i < |ds| ==> ds[i].Bin? && ds[i].bop == Div
  {
    match e
    case Num(_, _) => []
    case Const(_, _, _) => []
    case Var(_) => []
    case Unary(_, u) => Divisions(u)
    case Pow(_, u) => Divisions(u)
    case Bin(op, l, r) =>
      (if op == Div then [e] else []) + Divisions(l) + Divisions(r)
    case Fn(_, u) => Divisions(u)
  }
}
