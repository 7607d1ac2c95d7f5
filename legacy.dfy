/**
 * The earlier variant of the engine: `derive`, `Lopital` and `lim` as
 * `Expression.hpp` has them.
 *
 * Three things differ from the main variant. A literal derives to a zero of
 * its own scalar type and a constant to a `long double` zero, where the main
 * variant always builds the `int` 0. `lim` neither simplifies the tree nor
 * checks it: it evaluates the tree as given and applies L'Hôpital's rule
 * while the value is "not a number", for five rounds, and answers 0 after
 * that, so it never answers "not a number". Printing, evaluation, binding
 * and the series are the same as in the main variant and are shared.
 */
module Legacy {
  import opened Syntax
  import opened Printer
  import opened Evaluator
  import opened Binder
  import opened Derivation
  import opened Limit
  import opened LimitExamples

  /** `derive` of the earlier variant. */
  function LegacyDerive(e: Expr): (d: Expr)
    ensures Vars(d) <= Vars(e)
  {
    match e
    case Num(_, k) => Num(0, k)
    case Const(_, _, _) => Num(0, Floating)
    case Var(_) => Lit(1)
    case Unary(op, u) => Unary(op, LegacyDerive(u))
    case Pow(p, u) =>
      assert Vars(Bin(Mul, Num(p, Int), Pow(p - 1, u))) == Vars(u);
      Bin(Mul, Bin(Mul, Num(p, Int), Pow(p - 1, u)), LegacyDerive(u))
    case Bin(op, l, r) => BinaryRule(op, l, r, LegacyDerive(l), LegacyDerive(r))
    case Fn(f, u) =>
      (match f
       case Sin => Bin(Mul, Fn(Cos, u), LegacyDerive(u))
       case Cos =>
         assert Vars(Unary(Neg, Fn(Sin, u))) == Vars(u);
         Bin(Mul, Unary(Neg, Fn(Sin, u)), LegacyDerive(u)))
  }

  /** `Lopital` of the earlier variant: the same rule over its `derive`. */
  function LegacyLopital(e: Expr): (r: Expr)
    ensures Vars(r) <= Vars(e)
    ensures (r.Bin? && r.bop == Div) == (e.Bin? && e.bop == Div)
  {
    if e.Bin? && e.bop == Div then Bin(Div, LegacyDerive(e.left), LegacyDerive(e.right)) else e
  }

  /** Rounds k to 5 of `lim`, where d is the tree of round k. Every path
      ends in a number. */
  function LegacyRounds(d: Expr, x: char, to: int, k: nat): (r: Outcome)
    requires 1 <= k <= 6 && Vars(d) <= {x}
    ensures r.Number?
    decreases 6 - k
  {
    if k == 6 then Number(0.0)
    else
      var v := ValueAt(d, x, to);
      if v.Number? then v else LegacyRounds(LegacyLopital(d), x, to, k + 1)
  }

  /** `lim` of the earlier variant. */
  function LegacyLim(e: Expr, x: char, to: int): (r: Outcome)
    requires Vars(e) <= {x}
    ensures r.Number?
  {
    LegacyRounds(e, x, to, 1)
  }

  /** Every literal made an `int` literal: the two variants' trees then
      coincide. Evaluation does not look at the scalar type. */
  function Retype(e: Expr): Expr {
    match e
    case Num(v, _) => Num(v, Int)
    case Const(_, _, _) => e
    case Var(_) => e
    case Unary(op, u) => Unary(op, Retype(u))
    case Pow(p, u) => Pow(p, Retype(u))
    case Bin(op, l, r) => Bin(op, Retype(l), Retype(r))
    case Fn(f, u) => Fn(f, Retype(u))
  }

  /** Retyping keeps the variables. */
  lemma {:induction false} RetypeVars(e: Expr)
    ensures Vars(Retype(e)) == Vars(e)
  {
    match e
    case Num(_, _) =>
    case Const(_, _, _) =>
    case Var(_) =>
    case Unary(_, u) => RetypeVars(u);
    case Pow(_, u) => RetypeVars(u);
    case Bin(_, l, r) =>
      RetypeVars(l);
      RetypeVars(r);
    case Fn(_, u) => RetypeVars(u);
  }

  /** Retyping keeps the value. */
  lemma {:induction false} EvalRetype(e: Expr)
    requires Closed(e)
    ensures Closed(Retype(e))
    ensures Eval(Retype(e)) == Eval(e)
  {
    RetypeVars(e);
    match e
    case Num(_, _) =>
    case Const(_, _, _) =>
    case Var(_) =>
    case Unary(_, u) => EvalRetype(u);
    case Pow(_, u) => EvalRetype(u);
    case Bin(_, l, r) =>
      EvalRetype(l);
      EvalRetype(r);
    case Fn(_, u) => EvalRetype(u);
  }

  /** Retyping commutes with binding an `int` literal. */
  lemma {:induction false} RetypeBind(e: Expr, x: char, c: int)
    ensures Retype(Bind(e, x, Lit(c))) == Bind(Retype(e), x, Lit(c))
  {
    match e
    case Num(_, _) =>
    case Const(_, _, _) =>
    case Var(_) =>
    case Unary(_, u) => RetypeBind(u, x, c);
    case Pow(_, u) => RetypeBind(u, x, c);
    case Bin(_, l, r) =>
      RetypeBind(l, x, c);
      RetypeBind(r, x, c);
    case Fn(_, u) => RetypeBind(u, x, c);
  }

  /** Trees that retype alike have the same value at every point. */
  lemma {:induction false} ValueAtRetype(d: Expr, d2: Expr, x: char, to: int)
    requires Vars(d) <= {x} && Vars(d2) <= {x} && Retype(d) == Retype(d2)
    ensures ValueAt(d, x, to) == ValueAt(d2, x, to)
  {
    RetypeBind(d, x, to);
    RetypeBind(d2, x, to);
    BindCloses(d, x, Lit(to));
    BindCloses(d2, x, Lit(to));
    EvalRetype(Bind(d, x, Lit(to)));
    EvalRetype(Bind(d2, x, Lit(to)));
  }

  /** The two derivatives differ only in the scalar types of their zeros:
      the earlier variant's, retyped, is the main variant's derivative of
      the retyped tree, and so is the main variant's own, retyped. */
  lemma {:induction false} DerivativesAgree(e: Expr)
    ensures Retype(LegacyDerive(e)) == Derive(Retype(e))
    ensures Retype(Derive(e)) == Derive(Retype(e))
  {
    LegacyDeriveRetype(e);
    DeriveRetype(e);
  }

  lemma {:induction false} LegacyDeriveRetype(e: Expr)
    ensures Retype(LegacyDerive(e)) == Derive(Retype(e))
  {
    match e
    case Num(_, _) =>
    case Const(_, _, _) =>
    case Var(_) =>
    case Unary(_, u) => LegacyDeriveRetype(u);
    case Pow(p, u) =>
      LegacyDeriveRetype(u);
      assert Retype(Bin(Mul, Num(p, Int), Pow(p - 1, u))) == Bin(Mul, Num(p, Int), Pow(p - 1, Retype(u)));
    case Bin(op, l, r) =>
      LegacyDeriveRetype(l);
      LegacyDeriveRetype(r);
      LegacyBinRetype(op, l, r);
    case Fn(f, u) =>
      LegacyDeriveRetype(u);
      match f {
        case Sin =>
        case Cos => assert Retype(Unary(Neg, Fn(Sin, u))) == Unary(Neg, Fn(Sin, Retype(u)));
      }
  }

  /** The step of LegacyDeriveRetype at a binary node. */
  lemma {:induction false} LegacyBinRetype(op: BinaryOp, l: Expr, r: Expr)
    requires Retype(LegacyDerive(l)) == Derive(Retype(l))
    requires Retype(LegacyDerive(r)) == Derive(Retype(r))
    ensures Retype(LegacyDerive(Bin(op, l, r))) == Derive(Retype(Bin(op, l, r)))
  {
    var dl, dr := LegacyDerive(l), LegacyDerive(r);
    assert Retype(Bin(op, l, r)) == Bin(op, Retype(l), Retype(r));
    RuleRetype(op, l, r, dl, dr);
  }

  /** Every rule of a binary node retypes into the same rule over the
      retyped operands and derivatives. */
  lemma {:induction false} RuleRetype(op: BinaryOp, l: Expr, r: Expr, dl: Expr, dr: Expr)
    ensures Retype(BinaryRule(op, l, r, dl, dr))
            == BinaryRule(op, Retype(l), Retype(r), Retype(dl), Retype(dr))
  {
    var rl, rr, rdl, rdr := Retype(l), Retype(r), Retype(dl), Retype(dr);
    match op {
      case Add =>
        assert Retype(Bin(Add, dl, dr)) == Bin(Add, rdl, rdr);
      case Sub =>
        assert Retype(Bin(Sub, dl, dr)) == Bin(Sub, rdl, rdr);
      case Mul =>
        assert Retype(Bin(Mul, dl, r)) == Bin(Mul, rdl, rr);
        assert Retype(Bin(Mul, l, dr)) == Bin(Mul, rl, rdr);
        assert Retype(Bin(Add, Bin(Mul, dl, r), Bin(Mul, l, dr)))
               == Bin(Add, Retype(Bin(Mul, dl, r)), Retype(Bin(Mul, l, dr)));
      case Div =>
        var n := Bin(Sub, Bin(Mul, dl, r), Bin(Mul, l, dr));
        assert Retype(Bin(Mul, dl, r)) == Bin(Mul, rdl, rr);
        assert Retype(Bin(Mul, l, dr)) == Bin(Mul, rl, rdr);
        assert Retype(n) == Bin(Sub, Retype(Bin(Mul, dl, r)), Retype(Bin(Mul, l, dr)));
        assert Retype(Pow(2, r)) == Pow(2, rr);
        assert Retype(Bin(Div, n, Pow(2, r))) == Bin(Div, Retype(n), Retype(Pow(2, r)));
    }
  }

  lemma {:induction false} DeriveRetype(e: Expr)
    ensures Retype(Derive(e)) == Derive(Retype(e))
  {
    match e
    case Num(_, _) =>
    case Const(_, _, _) =>
    case Var(_) =>
    case Unary(_, u) => DeriveRetype(u);
    case Pow(p, u) =>
      DeriveRetype(u);
      assert Retype(Bin(Mul, Num(p, Int), Pow(p - 1, u))) == Bin(Mul, Num(p, Int), Pow(p - 1, Retype(u)));
    case Bin(op, l, r) =>
      DeriveRetype(l);
      DeriveRetype(r);
      assert Retype(Bin(op, l, r)) == Bin(op, Retype(l), Retype(r));
      RuleRetype(op, l, r, Derive(l), Derive(r));
    case Fn(f, u) =>
      DeriveRetype(u);
      match f {
        case Sin =>
        case Cos => assert Retype(Unary(Neg, Fn(Sin, u))) == Unary(Neg, Fn(Sin, Retype(u)));
      }
  }

  /** Hence the two derivatives have the same value at every point. */
  lemma {:induction false} DerivativeValuesAgree(e: Expr, x: char, to: int)
    requires Vars(e) <= {x}
    ensures ValueAt(LegacyDerive(e), x, to) == ValueAt(Derive(e), x, to)
  {
    DerivativesAgree(e);
    ValueAtRetype(LegacyDerive(e), Derive(e), x, to);
  }

  /** The two rule steps agree once retyped. */
  lemma {:induction false} LopitalsAgree(d: Expr, d2: Expr)
    requires Retype(d) == Retype(d2)
    ensures Retype(Lopital(d)) == Retype(LegacyLopital(d2))
  {
    if d.Bin? && d.bop == Div {
      DerivativesAgree(d.left);
      DerivativesAgree(d.right);
      DerivativesAgree(d2.left);
      DerivativesAgree(d2.right);
    }
  }

  /** When every check the main variant makes passes, its rounds and the
      earlier variant's give the same answer. */
  lemma {:induction false} RoundsAgree(d: Expr, d2: Expr, x: char, to: int, k: nat, result: Outcome)
    requires 1 <= k <= 6 && Vars(d) <= {x} && Vars(d2) <= {x} && Retype(d) == Retype(d2)
    requires forall n :: 0 <= n <= 5 - k ==> CanBeLimited(Steps(d, n))
    ensures Rounds(d, x, to, k, result) == LegacyRounds(d2, x, to, k)
    decreases 6 - k
  {
    if k < 6 {
      assert Steps(d, 0) == d;
      ValueAtRetype(d, d2, x, to);
      LopitalsAgree(d, d2);
      ShiftSteps(d, 5 - k);
      RoundsAgree(Lopital(d), LegacyLopital(d2), x, to, k + 1, ValueAt(d, x, to));
    }
  }

  /** For a division whose first five rounds all pass the check, the two
      variants' `lim` agree: the main variant's simplification leaves a
      division as it is, and its check never fires. */
  lemma {:induction false} LimsAgree(e: Expr, x: char, to: int)
    requires Vars(e) <= {x} && e.Bin? && e.bop == Div
    requires forall n :: 0 <= n <= 4 ==> CanBeLimited(Steps(e, n))
    ensures Lim(e, x, to) == LegacyLim(e, x, to)
  {
    RoundsAgree(e, e, x, to, 1, Number(0.0));
  }

  /** A division by a zero literal stays one under the rule, so the
      earlier variant's rounds all lack a value and it answers 0. */
  lemma {:induction false} ZeroDivisorRounds(d: Expr, x: char, to: int, k: nat)
    requires 1 <= k <= 6 && Vars(d) <= {x}
    requires d.Bin? && d.bop == Div && d.right.Num? && d.right.value == 0
    ensures LegacyRounds(d, x, to, k) == Number(0.0)
    decreases 6 - k
  {
    if k < 6 {
      assert Bind(d.right, x, Lit(to)) == d.right;
      assert Bind(d, x, Lit(to)) == Bin(Div, Bind(d.left, x, Lit(to)), d.right);
      assert Eval(d.right) == Number(0.0);
      assert ValueAt(d, x, to).NaN?;
      ZeroDivisorRounds(LegacyLopital(d), x, to, k + 1);
    }
  }

  /** (x/x)/2 at 0: the main variant answers "not a number" (its round-2
      check fails on the divisor 0, the derivative of 2), the earlier one
      goes on dividing by 0 and answers 0. */
  lemma VariantsDifferExample()
    ensures Lim(Bin(Div, Bin(Div, Var('x'), Var('x')), Lit(2)), 'x', 0) == NaN
    ensures LegacyLim(Bin(Div, Bin(Div, Var('x'), Var('x')), Lit(2)), 'x', 0) == Number(0.0)
  {
    var e := Bin(Div, Bin(Div, Var('x'), Var('x')), Lit(2));
    LimFailedCheckExample();
    assert ValueAt(e, 'x', 0).NaN?;
    ZeroDivisorRounds(LegacyLopital(e), 'x', 0, 2);
  }

  /** The derivative of x*pi prints "((1*pi)+(x*0.000000))" here and
      "((1*pi)+(x*0))" in the main variant. */
  lemma DerivativeStringsDiffer()
    ensures Stringify(LegacyDerive(Bin(Mul, Var('x'), Pi()))) == "(" + "(1*pi)" + "+" + "(x*0.000000)" + ")"
    ensures Stringify(Derive(Bin(Mul, Var('x'), Pi()))) == "(" + "(1*pi)" + "+" + "(x*0)" + ")"
  {
    DerivativeTreesOfProduct();
    ProductDerivativeStrings();
  }

  lemma DerivativeTreesOfProduct()
    ensures LegacyDerive(Bin(Mul, Var('x'), Pi()))
            == Bin(Add, Bin(Mul, Lit(1), Pi()), Bin(Mul, Var('x'), Num(0, Floating)))
    ensures Derive(Bin(Mul, Var('x'), Pi()))
            == Bin(Add, Bin(Mul, Lit(1), Pi()), Bin(Mul, Var('x'), Lit(0)))
  {
  }

  lemma ProductDerivativeStrings()
    ensures Stringify(Bin(Add, Bin(Mul, Lit(1), Pi()), Bin(Mul, Var('x'), Num(0, Floating))))
            == "(" + "(1*pi)" + "+" + "(x*0.000000)" + ")"
    ensures Stringify(Bin(Add, Bin(Mul, Lit(1), Pi()), Bin(Mul, Var('x'), Lit(0))))
            == "(" + "(1*pi)" + "+" + "(x*0)" + ")"
  {
    ProductDerivativePieces();
  }

  lemma ProductDerivativePieces()
    ensures Stringify(Bin(Mul, Lit(1), Pi())) == "(1*pi)"
    ensures Stringify(Bin(Mul, Var('x'), Num(0, Floating))) == "(x*0.000000)"
    ensures Stringify(Bin(Mul, Var('x'), Lit(0))) == "(x*0)"
  {
    SmallLiteralStrings();
    assert Stringify(Num(0, Floating)) == "0.000000";
  }
}
