/**
 * `HasDivision`, `FirstDivision` and `simplify`: the one-step rewrite that
 * brings the first division of a tree to the top, the way `lim` prepares a
 * tree before L'Hôpital's rule.
 *
 * `(A op B)` whose first division has denominator Q becomes
 * `((A*Q) op (B*Q))/Q`; a tree that is already a division is left alone.
 * The search for the first division goes left whenever the left operand has
 * a division, looks through unary and function nodes, and has no rule for
 * powers or leaves (the C++ does not compile such a search), hence
 * `Findable`.
 */
module Simplification {
  import opened Syntax
  import opened Printer
  import opened Evaluator
  import opened Binder

  /** Some `/` occurs in `e`, inside powers included. */
  predicate HasDivision(e: Expr) {
    match e
    case Num(_, _) => false
    case Const(_, _, _) => false
    case Var(_) => false
    case Unary(_, u) => HasDivision(u)
    case Pow(_, u) => HasDivision(u)
    case Bin(op, l, r) => op == Div || HasDivision(l) || HasDivision(r)
    case Fn(_, u) => HasDivision(u)
  }

  /** The trees on which the search for the first division is defined: the
      path it follows (left when the left operand has a division, right
      otherwise, through unary and function nodes) ends at a division and
      crosses no power. */
  predicate Findable(e: Expr) {
    match e
    case Num(_, _) => false
    case Const(_, _, _) => false
    case Var(_) => false
    case Unary(_, u) => Findable(u)
    case Pow(_, _) => false
    case Bin(op, l, r) =>
      op == Div || (if HasDivision(l) then Findable(l) else HasDivision(r) && Findable(r))
    case Fn(_, u) => Findable(u)
  }

  /** The division the search finds. It is a division node of the tree, so
      it brings in no variable. */
  function FirstDivision(e: Expr): (d: Expr)
    requires Findable(e)
    ensures d.Bin? && d.bop == Div
    ensures Vars(d) <= Vars(e)
  {
    match e
    case Unary(_, u) => FirstDivision(u)
    case Bin(op, l, r) =>
      if op == Div then e
      else if HasDivision(l) then FirstDivision(l)
      else FirstDivision(r)
    case Fn(_, u) => FirstDivision(u)
  }

  /** `simplify`: a division is returned as it is; any other binary tree
      is put over the denominator of its first division. */
  function Simplify(e: Expr): (s: Expr)
    requires Findable(e) && e.Bin?
    ensures s.Bin? && s.bop == Div
    ensures Vars(s) == Vars(e)
    ensures e.bop == Div ==> s == e
    ensures e.bop != Div ==> s.right == FirstDivision(e).right
                             && s.left == Bin(e.bop, Bin(Mul, e.left, s.right), Bin(Mul, e.right, s.right))
  {
    if e.bop == Div then e
    else
      var d := FirstDivision(e);
      assert Vars(d) == Vars(d.left) + Vars(d.right);
      var q := d.right;
      var n := Bin(e.bop, Bin(Mul, e.left, q), Bin(Mul, e.right, q));
      assert Vars(n) == Vars(e.left) + Vars(e.right) + Vars(q);
      Bin(Div, n, q)
  }

  /** `HasDivision` is exactly "the list of division nodes is not empty". */
  lemma {:induction false} HasDivisionIff(e: Expr)
    ensures HasDivision(e) <==> |Divisions(e)| > 0
  {
    match e
    case Num(_, _) =>
    case Const(_, _, _) =>
    case Var(_) =>
    case Unary(_, u) => HasDivisionIff(u);
    case Pow(_, u) => HasDivisionIff(u);
    case Bin(_, l, r) =>
      HasDivisionIff(l);
      HasDivisionIff(r);
    case Fn(_, u) => HasDivisionIff(u);
  }

  /** The search finds the first division in pre-order: the division that
      is met first reading the tree from left to right. */
  lemma {:induction false} FirstDivisionIsFirst(e: Expr)
    requires Findable(e)
    ensures |Divisions(e)| > 0 && FirstDivision(e) == Divisions(e)[0]
  {
    match e
    case Unary(_, u) => FirstDivisionIsFirst(u);
    case Bin(op, l, r) =>
      if op != Div {
        if HasDivision(l) {
          FirstDivisionIsFirst(l);
        } else {
          HasDivisionIff(l);
          FirstDivisionIsFirst(r);
        }
      }
    case Fn(_, u) => FirstDivisionIsFirst(u);
  }

  /** The search crosses no power, so the division it finds is also the
      first one evaluation needs. */
  lemma {:induction false} FirstDivisionIsEvaluated(e: Expr)
    requires Findable(e)
    ensures |EvaluatedDivisions(e)| > 0 && FirstDivision(e) == EvaluatedDivisions(e)[0]
  {
    match e
    case Unary(_, u) => FirstDivisionIsEvaluated(u);
    case Bin(op, l, r) =>
      if op != Div {
        if HasDivision(l) {
          FirstDivisionIsEvaluated(l);
        } else {
          NoEvaluatedDivision(l);
          FirstDivisionIsEvaluated(r);
        }
      }
    case Fn(_, u) => FirstDivisionIsEvaluated(u);
  }

  /** A tree without division has none for evaluation to need. */
  lemma {:induction false} NoEvaluatedDivision(e: Expr)
    requires !HasDivision(e)
    ensures EvaluatedDivisions(e) == []
  {
    match e
    case Num(_, _) =>
    case Const(_, _, _) =>
    case Var(_) =>
    case Unary(_, u) => NoEvaluatedDivision(u);
    case Pow(_, u) => NoEvaluatedDivision(u);
    case Fn(_, u) => NoEvaluatedDivision(u);
    case Bin(_, l, r) =>
      NoEvaluatedDivision(l);
      NoEvaluatedDivision(r);
  }

  /** The arithmetic of the rewrite: (a*q + b*q)/q = a + b and
      (a*q - b*q)/q = a - b for nonzero q. */
  lemma {:induction false} ClearDenominator(op: BinaryOp, a: real, b: real, q: real)
    requires op == Add || op == Sub
    requires q != 0.0
    ensures ApplyBinary(Div, ApplyBinary(op, a * q, b * q).value, q) == ApplyBinary(op, a, b)
  {
    if op == Add {
      assert (a * q + b * q) / q == a + b by {
        assert a * q + b * q == (a + b) * q;
      }
    } else {
      assert (a * q - b * q) / q == a - b by {
        assert a * q - b * q == (a - b) * q;
      }
    }
  }

  /** For a sum or a difference the rewrite keeps the value, the absence of
      a value included: a closed tree and its simplification both have no
      value or the same one. */
  lemma {:induction false} SimplifyKeepsValue(e: Expr)
    requires Findable(e) && e.Bin? && (e.bop == Add || e.bop == Sub) && Closed(e)
    ensures Closed(Simplify(e))
    ensures Eval(Simplify(e)) == Eval(e)
  {
    var t := FirstDivision(e).right;
    assert Vars(t) <= Vars(FirstDivision(e));
    if Eval(e).Number? {
      FirstDivisionIsEvaluated(e);
      EvalDivisorsNonzero(e);
      assert Eval(t) == Eval(EvaluatedDivisions(e)[0].right);
    }
    ClearedValue(e.bop, e.left, e.right, t);
  }

  /** `((a*q) op (b*q))/q` has the value of `a op b` when q has a nonzero
      value, and no value when `a op b` has none. */
  lemma {:induction false} ClearedValue(op: BinaryOp, a: Expr, b: Expr, q: Expr)
    requires op == Add || op == Sub
    requires Closed(a) && Closed(b) && Closed(q)
    requires Eval(Bin(op, a, b)).Number? ==> Eval(q).Number? && Eval(q).value != 0.0
    ensures Closed(Bin(Div, Bin(op, Bin(Mul, a, q), Bin(Mul, b, q)), q))
    ensures Eval(Bin(Div, Bin(op, Bin(Mul, a, q), Bin(Mul, b, q)), q)) == Eval(Bin(op, a, b))
  {
    var aq, bq := Bin(Mul, a, q), Bin(Mul, b, q);
    var n := Bin(op, aq, bq);
    assert Closed(aq) && Closed(bq) && Closed(n);
    if Eval(a).Number? && Eval(b).Number? {
      assert Eval(Bin(op, a, b)).Number?;
      ClearedNumber(op, a, b, q, Eval(a).value, Eval(b).value, Eval(q).value);
    } else {
      ClearedNoValue(op, a, b, q);
    }
  }

  lemma {:induction false} ClearedNumber(op: BinaryOp, a: Expr, b: Expr, q: Expr, va: real, vb: real, vq: real)
    requires op == Add || op == Sub
    requires Closed(a) && Closed(b) && Closed(q)
    requires Eval(a) == Number(va) && Eval(b) == Number(vb) && Eval(q) == Number(vq) && vq != 0.0
    ensures Closed(Bin(Div, Bin(op, Bin(Mul, a, q), Bin(Mul, b, q)), q))
    ensures Eval(Bin(Div, Bin(op, Bin(Mul, a, q), Bin(Mul, b, q)), q)) == Eval(Bin(op, a, b))
  {
    var aq, bq := Bin(Mul, a, q), Bin(Mul, b, q);
    var n := Bin(op, aq, bq);
    EvalBinary(Mul, a, q, va, vq);
    EvalBinary(Mul, b, q, vb, vq);
    EvalBinary(op, aq, bq, va * vq, vb * vq);
    EvalBinary(Div, n, q, ApplyBinary(op, va * vq, vb * vq).value, vq);
    EvalBinary(op, a, b, va, vb);
    ClearDenominator(op, va, vb, vq);
  }

  lemma {:induction false} ClearedNoValue(op: BinaryOp, a: Expr, b: Expr, q: Expr)
    requires Closed(a) && Closed(b) && Closed(q)
    requires Eval(a).NaN? || Eval(b).NaN?
    ensures Closed(Bin(Div, Bin(op, Bin(Mul, a, q), Bin(Mul, b, q)), q))
    ensures Eval(Bin(Div, Bin(op, Bin(Mul, a, q), Bin(Mul, b, q)), q)).NaN?
    ensures Eval(Bin(op, a, b)).NaN?
  {
    var aq, bq := Bin(Mul, a, q), Bin(Mul, b, q);
    assert Closed(aq) && Closed(bq);
    assert Eval(aq).NaN? || Eval(bq).NaN?;
  }

  /** The rewrite does not keep the value of a product: (4/2)*3 is 6, its
      simplification ((4/2)*2)*(3*2)/2 is 12. */
  lemma SimplifyProductCounterexample()
    ensures Findable(Bin(Mul, Bin(Div, Lit(4), Lit(2)), Lit(3)))
    ensures Eval(Bin(Mul, Bin(Div, Lit(4), Lit(2)), Lit(3))) == Number(6.0)
    ensures Eval(Simplify(Bin(Mul, Bin(Div, Lit(4), Lit(2)), Lit(3)))) == Number(12.0)
  {
  }

  /** A tree on which the search is defined has a division. */
  lemma {:induction false} FindableHasDivision(e: Expr)
    ensures Findable(e) ==> HasDivision(e)
  {
    match e
    case Num(_, _) =>
    case Const(_, _, _) =>
    case Var(_) =>
    case Unary(_, u) => FindableHasDivision(u);
    case Pow(_, _) =>
    case Bin(_, _, _) =>
    case Fn(_, u) => FindableHasDivision(u);
  }

  /** Binding a letter to a tree without division keeps the division
      structure: the same nodes have divisions, the search follows the same
      path, and finds the bound first division. */
  lemma {:induction false} BindKeepsDivisions(e: Expr, x: char, v: Expr)
    requires !HasDivision(v)
    ensures HasDivision(Bind(e, x, v)) == HasDivision(e)
    ensures Findable(Bind(e, x, v)) == Findable(e)
    ensures Findable(e) ==> FirstDivision(Bind(e, x, v)) == Bind(FirstDivision(e), x, v)
  {
    match e
    case Num(_, _) =>
    case Const(_, _, _) =>
    case Var(_) => FindableHasDivision(v);
    case Unary(_, u) => BindKeepsDivisions(u, x, v);
    case Pow(_, u) => BindKeepsDivisions(u, x, v);
    case Bin(_, l, r) =>
      BindKeepsDivisions(l, x, v);
      BindKeepsDivisions(r, x, v);
    case Fn(_, u) => BindKeepsDivisions(u, x, v);
  }

  /** Simplifying and then binding a letter to a tree without division is
      binding and then simplifying. */
  lemma {:induction false} SimplifyBindCommute(e: Expr, x: char, v: Expr)
    requires Findable(e) && e.Bin? && !HasDivision(v)
    ensures Findable(Bind(e, x, v)) && Bind(e, x, v).Bin?
    ensures Bind(Simplify(e), x, v) == Simplify(Bind(e, x, v))
  {
    BindKeepsDivisions(e, x, v);
    if e.bop != Div {
      var d := FirstDivision(e);
      var q := d.right;
      var b := Bind(e, x, v);
      assert FirstDivision(b) == Bind(d, x, v);
      assert Simplify(b).right == Bind(q, x, v);
      var n := Bin(e.bop, Bin(Mul, e.left, q), Bin(Mul, e.right, q));
      assert Simplify(e) == Bin(Div, n, q);
      assert Bind(Bin(Mul, e.left, q), x, v) == Bin(Mul, Bind(e.left, x, v), Bind(q, x, v));
      assert Bind(Bin(Mul, e.right, q), x, v) == Bin(Mul, Bind(e.right, x, v), Bind(q, x, v));
    }
  }

  /** Test of the suite: `(x+2)/2` is already a division and stays
      "((x+2)/2)". */
  lemma SimplifyDivisionExample()
    ensures Findable(Bin(Div, Bin(Add, Var('x'), Lit(2)), Lit(2)))
    ensures Stringify(Simplify(Bin(Div, Bin(Add, Var('x'), Lit(2)), Lit(2)))) == "((x+2)/2)"
  {
    SmallLiteralStrings();
  }

  /** Test of the suite: `(2+2)-(x/2)` becomes "((((2+2)*2)-((x/2)*2))/2)",
      written here as the printer assembles it from its operands. */
  lemma SimplifyDifferenceExample()
    ensures Findable(Bin(Sub, Bin(Add, Lit(2), Lit(2)), Bin(Div, Var('x'), Lit(2))))
    ensures Stringify(Simplify(Bin(Sub, Bin(Add, Lit(2), Lit(2)), Bin(Div, Var('x'), Lit(2)))))
            == "(" + ("(" + "((2+2)*2)" + "-" + "((x/2)*2)" + ")") + "/" + "2" + ")"
  {
    SimplifiedDifferenceTree();
    SimplifiedDifferenceString();
  }

  lemma SimplifiedDifferenceTree()
    ensures Findable(Bin(Sub, Bin(Add, Lit(2), Lit(2)), Bin(Div, Var('x'), Lit(2))))
    ensures Simplify(Bin(Sub, Bin(Add, Lit(2), Lit(2)), Bin(Div, Var('x'), Lit(2))))
            == Bin(Div, Bin(Sub, Bin(Mul, Bin(Add, Lit(2), Lit(2)), Lit(2)),
                                 Bin(Mul, Bin(Div, Var('x'), Lit(2)), Lit(2))),
                        Lit(2))
  {
  }

  lemma SimplifiedDifferenceString()
    ensures Stringify(Bin(Div, Bin(Sub, Bin(Mul, Bin(Add, Lit(2), Lit(2)), Lit(2)),
                                        Bin(Mul, Bin(Div, Var('x'), Lit(2)), Lit(2))),
                               Lit(2)))
            == "(" + ("(" + "((2+2)*2)" + "-" + "((x/2)*2)" + ")") + "/" + "2" + ")"
  {
    SmallLiteralStrings();
    DoubledSumString();
    DoubledHalfString();
  }

  lemma DoubledSumString()
    ensures Stringify(Bin(Mul, Bin(Add, Lit(2), Lit(2)), Lit(2))) == "((2+2)*2)"
  {
    SmallLiteralStrings();
    assert Stringify(Bin(Add, Lit(2), Lit(2))) == "(2+2)";
  }

  lemma DoubledHalfString()
    ensures Stringify(Bin(Mul, Bin(Div, Var('x'), Lit(2)), Lit(2))) == "((x/2)*2)"
  {
    SmallLiteralStrings();
    assert Stringify(Bin(Div, Var('x'), Lit(2))) == "(x/2)";
  }
}
