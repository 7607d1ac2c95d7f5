/**
 * `Binder` / `bind`: substitution of an expression for a variable.
 *
 * Literals and constants are returned as they are, a variable with the
 * bound letter becomes the value, any other variable stays, and every
 * operator node is rebuilt around its bound operands.
 */
module Binder {
  import opened Syntax
  import opened Printer
  import opened Evaluator

  /** The tree with every variable `x` replaced by `value`. */
  function Bind(e: Expr, x: char, value: Expr): Expr {
    match e
    case Num(_, _) => e
    case Const(_, _, _) => e
    case Var(c) => if c == x then value else e
    case Unary(op, u) => Unary(op, Bind(u, x, value))
    case Pow(p, u) => Pow(p, Bind(u, x, value))
    case Bin(op, l, r) => Bin(op, Bind(l, x, value), Bind(r, x, value))
    case Fn(f, u) => Fn(f, Bind(u, x, value))
  }

  /** The letters of a bound tree: `x` is gone (unless the value brings it
      back), the value's letters arrive where `x` occurred, and every other
      letter stays. */
  lemma {:induction false} BindVars(e: Expr, x: char, value: Expr)
    ensures Vars(Bind(e, x, value)) == (Vars(e) - {x}) + (if x in Vars(e) then Vars(value) else {})
  {
    match e
    case Num(_, _) =>
    case Const(_, _, _) =>
    case Var(_) =>
    case Unary(_, u) => BindVars(u, x, value);
    case Pow(_, u) => BindVars(u, x, value);
    case Bin(_, l, r) =>
      BindVars(l, x, value);
      BindVars(r, x, value);
    case Fn(_, u) => BindVars(u, x, value);
  }

  /** Binding the only letter of a tree to a closed value closes it. */
  lemma {:induction false} BindCloses(e: Expr, x: char, value: Expr)
    requires Vars(e) <= {x} && Closed(value)
    ensures Closed(Bind(e, x, value))
  {
    BindVars(e, x, value);
  }

  /** Binding a letter that does not occur returns the same tree. */
  lemma {:induction false} BindAbsent(e: Expr, x: char, value: Expr)
    requires x !in Vars(e)
    ensures Bind(e, x, value) == e
  {
    match e
    case Num(_, _) =>
    case Const(_, _, _) =>
    case Var(_) =>
    case Unary(_, u) => BindAbsent(u, x, value);
    case Pow(_, u) => BindAbsent(u, x, value);
    case Bin(_, l, r) =>
      BindAbsent(l, x, value);
      BindAbsent(r, x, value);
    case Fn(_, u) => BindAbsent(u, x, value);
  }

  /** Once a letter is bound to a value without that letter, binding it
      again changes nothing: the first binding wins. */
  lemma {:induction false} BindTwice(e: Expr, x: char, v1: Expr, v2: Expr)
    requires x !in Vars(v1)
    ensures Bind(Bind(e, x, v1), x, v2) == Bind(e, x, v1)
  {
    BindVars(e, x, v1);
    BindAbsent(Bind(e, x, v1), x, v2);
  }

  /** Bindings of two different letters to closed values commute. */
  lemma {:induction false} BindCommute(e: Expr, x: char, a: Expr, y: char, b: Expr)
    requires x != y && Closed(a) && Closed(b)
    ensures Bind(Bind(e, x, a), y, b) == Bind(Bind(e, y, b), x, a)
  {
    match e
    case Num(_, _) =>
    case Const(_, _, _) =>
    case Var(c) => VarBindCommute(c, x, a, y, b);
    case Unary(_, u) => BindCommute(u, x, a, y, b);
    case Pow(_, u) => BindCommute(u, x, a, y, b);
    case Bin(op, l, r) =>
      BindCommute(l, x, a, y, b);
      BindCommute(r, x, a, y, b);
      BinBindCommute(op, l, r, x, a, y, b);
    case Fn(_, u) => BindCommute(u, x, a, y, b);
  }

  lemma VarBindCommute(c: char, x: char, a: Expr, y: char, b: Expr)
    requires x != y && Closed(a) && Closed(b)
    ensures Bind(Bind(Var(c), x, a), y, b) == Bind(Bind(Var(c), y, b), x, a)
  {
    if c == x {
      BindAbsent(a, y, b);
    } else if c == y {
      BindAbsent(b, x, a);
    }
  }

  lemma BinBindCommute(op: BinaryOp, l: Expr, r: Expr, x: char, a: Expr, y: char, b: Expr)
    requires Bind(Bind(l, x, a), y, b) == Bind(Bind(l, y, b), x, a)
    requires Bind(Bind(r, x, a), y, b) == Bind(Bind(r, y, b), x, a)
    ensures Bind(Bind(Bin(op, l, r), x, a), y, b) == Bind(Bind(Bin(op, l, r), y, b), x, a)
  {
    BindBin(op, l, r, x, a);
    BindBin(op, l, r, y, b);
    BindBin(op, Bind(l, x, a), Bind(r, x, a), y, b);
    BindBin(op, Bind(l, y, b), Bind(r, y, b), x, a);
  }

  /** One step of binding at a binary node. */
  lemma BindBin(op: BinaryOp, l: Expr, r: Expr, x: char, value: Expr)
    ensures Bind(Bin(op, l, r), x, value) == Bin(op, Bind(l, x, value), Bind(r, x, value))
  {
  }

  /** Binding a letter to its own variable is the identity. */
  lemma {:induction false} BindIdentity(e: Expr, x: char)
    ensures Bind(e, x, Var(x)) == e
  {
    match e
    case Num(_, _) =>
    case Const(_, _, _) =>
    case Var(_) =>
    case Unary(_, u) => BindIdentity(u, x);
    case Pow(_, u) => BindIdentity(u, x);
    case Bin(_, l, r) =>
      BindIdentity(l, x);
      BindIdentity(r, x);
    case Fn(_, u) => BindIdentity(u, x);
  }

  /** `(a + (2 + a) - b) / (2 * a + 1)`, the tree of two tests of the suite. */
  function BindTestTree(): Expr {
    Bin(Div, Bin(Sub, Bin(Add, Var('a'), Bin(Add, Lit(2), Var('a'))), Var('b')),
             Bin(Add, Bin(Mul, Lit(2), Var('a')), Lit(1)))
  }

  /** The tree with a bound to 3. */
  lemma BindTestTreeAtThree()
    ensures Bind(BindTestTree(), 'a', Lit(3))
            == Bin(Div, Bin(Sub, Bin(Add, Lit(3), Bin(Add, Lit(2), Lit(3))), Var('b')),
                        Bin(Add, Bin(Mul, Lit(2), Lit(3)), Lit(1)))
  {
  }

  /** Test of the suite: with a bound to 3 the tree prints
      "(((3+(2+3))-b)/((2*3)+1))", with `b` kept; written here as the printer
      assembles it from its operands. */
  lemma BindStringExample()
    ensures Stringify(Bind(BindTestTree(), 'a', Lit(3))) == "(" + "((3+(2+3))-b)" + "/" + "((2*3)+1)" + ")"
  {
    BindTestTreeAtThree();
    BoundTreeString();
  }

  lemma BoundTreeString()
    ensures Stringify(Bin(Div, Bin(Sub, Bin(Add, Lit(3), Bin(Add, Lit(2), Lit(3))), Var('b')),
                               Bin(Add, Bin(Mul, Lit(2), Lit(3)), Lit(1))))
            == "(" + "((3+(2+3))-b)" + "/" + "((2*3)+1)" + ")"
  {
    DivisorString();
    BoundDividendString();
  }

  lemma BoundDividendString()
    ensures Stringify(Bin(Sub, Bin(Add, Lit(3), Bin(Add, Lit(2), Lit(3))), Var('b'))) == "((3+(2+3))-b)"
  {
    SmallLiteralStrings();
    assert Stringify(Bin(Add, Lit(2), Lit(3))) == "(2+3)";
    assert Stringify(Bin(Add, Lit(3), Bin(Add, Lit(2), Lit(3)))) == "(3+(2+3))";
  }

  /** The tree with a bound to 3 and then b bound to 1. */
  lemma BindTestTreeAtThreeOne()
    ensures Bind(Bind(BindTestTree(), 'a', Lit(3)), 'b', Lit(1))
            == Bin(Div, Bin(Sub, Bin(Add, Lit(3), Bin(Add, Lit(2), Lit(3))), Lit(1)),
                        Bin(Add, Bin(Mul, Lit(2), Lit(3)), Lit(1)))
  {
    BindTestTreeAtThree();
  }

  /** Test of the suite: with a bound to 3 and then b bound to 1 the tree
      evaluates to 1. */
  lemma BindValueExample()
    ensures Closed(Bind(Bind(BindTestTree(), 'a', Lit(3)), 'b', Lit(1)))
    ensures Eval(Bind(Bind(BindTestTree(), 'a', Lit(3)), 'b', Lit(1))) == Number(1.0)
  {
    BindTestTreeAtThreeOne();
    EvalArithmeticExample();
  }

  /** Test of the suite: `a + 1` with a bound to `sin(b)` prints
      "(sin(b)+1)". */
  lemma BindExpressionExample()
    ensures Stringify(Bind(Bin(Add, Var('a'), Lit(1)), 'a', Fn(Sin, Var('b')))) == "(sin(b)+1)"
  {
  }
}
