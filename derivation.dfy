/**
 * `Derivation` / `derive`: the symbolic derivative.
 *
 * Every variable derives to 1, whatever its letter, so for a tree over one
 * variable `x` this is d/dx. Nothing is reduced: the rules build the product,
 * quotient, power and chain rules literally, `1*y` and `cos(y)*1` included.
 */
module Derivation {
  import opened Syntax
  import opened Printer
  import opened Evaluator
  import opened Binder

  /** The derivative of `l op r` from the operands and their derivatives
      dl and dr: the sum, difference, product and quotient rules. */
  function BinaryRule(op: BinaryOp, l: Expr, r: Expr, dl: Expr, dr: Expr): (d: Expr)
    ensures Vars(d) <= Vars(l) + Vars(r) + Vars(dl) + Vars(dr)
    ensures op == Div ==> d.Bin? && d.bop == Div && d.right == Pow(2, r)
  {
    match op
    case Add => Bin(Add, dl, dr)
    case Sub => Bin(Sub, dl, dr)
    case Mul => Bin(Add, Bin(Mul, dl, r), Bin(Mul, l, dr))
    case Div =>
      var n := Bin(Sub, Bin(Mul, dl, r), Bin(Mul, l, dr));
      assert Vars(n) <= Vars(l) + Vars(r) + Vars(dl) + Vars(dr);
      Bin(Div, n, Pow(2, r))
  }

  /** The derivative tree. It never brings in a variable. */
  function Derive(e: Expr): (d: Expr)
    ensures Vars(d) <= Vars(e)
  {
    match e
    case Num(_, _) => Lit(0)
    case Const(_, _, _) => Lit(0)
    case Var(_) => Lit(1)
    case Unary(op, u) => Unary(op, Derive(u))
    case Pow(p, u) =>
      assert Vars(Bin(Mul, Num(p, Int), Pow(p - 1, u))) == Vars(u);
      Bin(Mul, Bin(Mul, Num(p, Int), Pow(p - 1, u)), Derive(u))
    case Bin(op, l, r) => BinaryRule(op, l, r, Derive(l), Derive(r))
    case Fn(f, u) =>
      (match f
       case Sin => Bin(Mul, Fn(Cos, u), Derive(u))
       case Cos =>
         assert Vars(Unary(Neg, Fn(Sin, u))) == Vars(u);
         Bin(Mul, Unary(Neg, Fn(Sin, u)), Derive(u)))
  }

  /** A tree without variables and without `++`/`--` has derivative zero
      wherever the derivative has a value. */
  lemma {:induction false} DeriveClosed(e: Expr)
    requires Closed(e) && NoStep(e)
    ensures Closed(Derive(e))
    ensures ZeroOrNaN(Eval(Derive(e)))
  {
    match e
    case Num(_, _) =>
    case Const(_, _, _) =>
    case Var(_) =>
    case Unary(_, u) => DeriveClosed(u);
    case Pow(p, u) =>
      DeriveClosed(u);
      var c := Bin(Mul, Num(p, Int), Pow(p - 1, u));
      EvalBin(Mul, c, Derive(u));
      ZeroOrNaNStep(Mul, Eval(c), Eval(Derive(u)));
    case Bin(op, l, r) =>
      DeriveClosed(l);
      DeriveClosed(r);
      var dl, dr := Derive(l), Derive(r);
      EvalBin(op, dl, dr);
      ZeroOrNaNStep(op, Eval(dl), Eval(dr));
      EvalBin(Mul, dl, r);
      ZeroOrNaNStep(Mul, Eval(dl), Eval(r));
      EvalBin(Mul, l, dr);
      ZeroOrNaNStep(Mul, Eval(l), Eval(dr));
      var n := Bin(Sub, Bin(Mul, dl, r), Bin(Mul, l, dr));
      EvalBin(Add, Bin(Mul, dl, r), Bin(Mul, l, dr));
      ZeroOrNaNStep(Add, Eval(Bin(Mul, dl, r)), Eval(Bin(Mul, l, dr)));
      EvalBin(Sub, Bin(Mul, dl, r), Bin(Mul, l, dr));
      ZeroOrNaNStep(Sub, Eval(Bin(Mul, dl, r)), Eval(Bin(Mul, l, dr)));
      EvalBin(Div, n, Pow(2, r));
      ZeroOrNaNStep(Div, Eval(n), Eval(Pow(2, r)));
    case Fn(f, u) =>
      DeriveClosed(u);
      var g := if f == Sin then Fn(Cos, u) else Unary(Neg, Fn(Sin, u));
      EvalBin(Mul, g, Derive(u));
      ZeroOrNaNStep(Mul, Eval(g), Eval(Derive(u)));
  }

  /** The outcome is 0 or has no value. */
  predicate ZeroOrNaN(o: Outcome) {
    o == Number(0.0) || o == NaN
  }

  /** A sum or difference of two such outcomes, a product with one of them
      and a quotient with one as dividend are again such outcomes. */
  lemma ZeroOrNaNStep(op: BinaryOp, o1: Outcome, o2: Outcome)
    ensures (op == Add || op == Sub) && ZeroOrNaN(o1) && ZeroOrNaN(o2) ==> ZeroOrNaN(BinStep(op, o1, o2))
    ensures op == Mul && (ZeroOrNaN(o1) || ZeroOrNaN(o2)) ==> ZeroOrNaN(BinStep(op, o1, o2))
    ensures op == Div && ZeroOrNaN(o1) ==> ZeroOrNaN(BinStep(op, o1, o2))
  {
  }

  /** The derivative of `++x` is `++1`, which is 2, not 1: the unary rule
      keeps the operator, and `++`/`--` shift the derivative by one. */
  lemma {:induction false} DeriveIncrementExample(c: int)
    ensures Derive(Unary(Inc, Var('x'))) == Unary(Inc, Lit(1))
    ensures Closed(Bind(Derive(Unary(Inc, Var('x'))), 'x', Lit(c)))
    ensures Eval(Bind(Derive(Unary(Inc, Var('x'))), 'x', Lit(c))) == Number(2.0)
  {
  }

  /** Test of the suite: the derivative of `sin(2)` is `cos(2)*0`. */
  lemma DeriveSineOfLiteralExample()
    ensures Derive(Fn(Sin, Lit(2))) == Bin(Mul, Fn(Cos, Lit(2)), Lit(0))
  {
  }

  /** Test of the suite: the derivative of `x^3` is `(3*x^2)*1`, which is
      12 at 2. */
  lemma DeriveCubeExample()
    ensures Derive(Pow(3, Var('x'))) == Bin(Mul, Bin(Mul, Lit(3), Pow(2, Var('x'))), Lit(1))
    ensures Eval(Bind(Derive(Pow(3, Var('x'))), 'x', Lit(2))) == Number(12.0)
  {
    assert Bind(Derive(Pow(3, Var('x'))), 'x', Lit(2))
        == Bin(Mul, Bin(Mul, Lit(3), Pow(2, Lit(2))), Lit(1));
  }

  /** Test of the suite: the derivative of `x*y` prints "((1*y)+(x*1))".
      Each expected string here is written as the printer assembles it,
      from the strings of the operands. */
  lemma DeriveProductExample()
    ensures Stringify(Derive(Bin(Mul, Var('x'), Var('y')))) == "(" + "(1*y)" + "+" + "(x*1)" + ")"
  {
    assert Derive(Bin(Mul, Var('x'), Var('y'))) == Bin(Add, Bin(Mul, Lit(1), Var('y')), Bin(Mul, Var('x'), Lit(1)));
    SmallLiteralStrings();
    assert Stringify(Bin(Mul, Lit(1), Var('y'))) == "(1*y)";
    assert Stringify(Bin(Mul, Var('x'), Lit(1))) == "(x*1)";
  }

  lemma SineOfYPieces()
    ensures Stringify(Fn(Sin, Var('y'))) == "sin(y)"
    ensures Stringify(Fn(Cos, Var('y'))) == "cos(y)"
  {
  }

  lemma CosineOfYTimesOne()
    ensures Stringify(Bin(Mul, Fn(Cos, Var('y')), Lit(1))) == "(cos(y)*1)"
  {
    SineOfYPieces();
    SmallLiteralStrings();
  }

  lemma SquaredSineOfY()
    ensures Stringify(Pow(2, Fn(Sin, Var('y')))) == "((sin(y))^2)"
  {
    SineOfYPieces();
    assert IntToString(2) == "2";
  }

  lemma DeriveProductSineTree()
    ensures Derive(Bin(Mul, Var('x'), Fn(Sin, Var('y'))))
            == Bin(Add, Bin(Mul, Lit(1), Fn(Sin, Var('y'))),
                        Bin(Mul, Var('x'), Bin(Mul, Fn(Cos, Var('y')), Lit(1))))
  {
  }

  lemma DeriveQuotientTree()
    ensures Derive(Bin(Div, Var('x'), Fn(Sin, Var('y'))))
            == Bin(Div, Bin(Sub, Bin(Mul, Lit(1), Fn(Sin, Var('y'))),
                                 Bin(Mul, Var('x'), Bin(Mul, Fn(Cos, Var('y')), Lit(1)))),
                        Pow(2, Fn(Sin, Var('y'))))
  {
  }

  /** Test of the suite: the derivative of `x*sin(y)` prints
      "((1*sin(y))+(x*(cos(y)*1)))". */
  lemma DeriveProductSineExample()
    ensures Stringify(Derive(Bin(Mul, Var('x'), Fn(Sin, Var('y')))))
            == "(" + "(1*sin(y))" + "+" + "(x*(cos(y)*1))" + ")"
  {
    DeriveProductSineTree();
    ProductSineTerms();
  }

  lemma ProductSineTerms()
    ensures Stringify(Bin(Mul, Lit(1), Fn(Sin, Var('y')))) == "(1*sin(y))"
    ensures Stringify(Bin(Mul, Var('x'), Bin(Mul, Fn(Cos, Var('y')), Lit(1)))) == "(x*(cos(y)*1))"
  {
    OneTimesSineOfY();
    XTimesCosineOfY();
  }

  lemma OneTimesSineOfY()
    ensures Stringify(Bin(Mul, Lit(1), Fn(Sin, Var('y')))) == "(1*sin(y))"
  {
    SmallLiteralStrings();
    SineOfYPieces();
  }

  lemma XTimesCosineOfY()
    ensures Stringify(Bin(Mul, Var('x'), Bin(Mul, Fn(Cos, Var('y')), Lit(1)))) == "(x*(cos(y)*1))"
  {
    CosineOfYTimesOne();
  }

  /** Test of the suite: the derivative of `x/sin(y)` prints
      "(((1*sin(y))-(x*(cos(y)*1)))/((sin(y))^2))". */
  lemma DeriveQuotientExample()
    ensures Stringify(Derive(Bin(Div, Var('x'), Fn(Sin, Var('y')))))
            == "(" + ("(" + "(1*sin(y))" + "-" + "(x*(cos(y)*1))" + ")") + "/" + "((sin(y))^2)" + ")"
  {
    DeriveQuotientTree();
    ProductSineTerms();
    SquaredSineOfY();
  }
}
