/**
 * The limits of the test suite, worked through the model round by round.
 */
module LimitExamples {
  import opened Syntax
  import opened Evaluator
  import opened Binder
  import opened Derivation
  import opened Simplification
  import opened Limit

  /** x/x at 0: round 1 has no value (0/0), round 2 evaluates 1/1. */
  lemma LimQuotientOfEqualsExample()
    ensures Lim(Bin(Div, Var('x'), Var('x')), 'x', 0) == Number(1.0)
  {
    var e := Bin(Div, Var('x'), Var('x'));
    assert Simplify(e) == e;
    assert Lopital(e) == Bin(Div, Lit(1), Lit(1));
    assert ValueAt(e, 'x', 0).NaN?;
    assert ValueAt(Lopital(e), 'x', 0) == Number(1.0);
  }

  /** (x/x)^0 / 1 at 0: the zero power is 1 although x/x has no value at
      0, so round 1 already gives 1/1. */
  lemma LimZeroPowerExample()
    ensures Lim(Bin(Div, Pow(0, Bin(Div, Var('x'), Var('x'))), Lit(1)), 'x', 0) == Number(1.0)
  {
    var e := Bin(Div, Pow(0, Bin(Div, Var('x'), Var('x'))), Lit(1));
    assert Simplify(e) == e;
    assert Bind(e, 'x', Lit(0)) == Bin(Div, Pow(0, Bin(Div, Lit(0), Lit(0))), Lit(1));
  }

  /** x + 2 at 1 has no division and is evaluated directly: 3. */
  lemma LimWithoutDivisionExample()
    ensures Lim(Bin(Add, Var('x'), Lit(2)), 'x', 1) == Number(3.0)
  {
  }

  /** 1/x at 1 has a value in round 1: 1. */
  lemma LimReciprocalAtOneExample()
    ensures Lim(Bin(Div, Lit(1), Var('x')), 'x', 1) == Number(1.0)
  {
    assert Simplify(Bin(Div, Lit(1), Var('x'))) == Bin(Div, Lit(1), Var('x'));
  }

  /** 1/x at 0: round 1 divides by zero, round 2 evaluates 0/1. The model's
      answer is 0, where IEEE division in the C++ gives infinity in round 1. */
  lemma LimReciprocalAtZeroExample()
    ensures Lim(Bin(Div, Lit(1), Var('x')), 'x', 0) == Number(0.0)
  {
    var e := Bin(Div, Lit(1), Var('x'));
    assert Simplify(e) == e;
    assert Lopital(e) == Bin(Div, Lit(0), Lit(1));
    assert ValueAt(e, 'x', 0).NaN?;
  }

  /** ((x^2-1)/(x-1)) - 1 at 1. The simplified tree is
      ((a*(x-1)) - (1*(x-1)))/(x-1) with a = (x^2-1)/(x-1), which has no
      value at 1. Every derivative of the dividend keeps the product a*y,
      so all five rounds have no value and the answer is 0, where the
      suite expects 1. */
  lemma LimShiftedSquareDifferenceExample()
    ensures Lim(Bin(Sub, Bin(Div, Bin(Sub, Pow(2, Var('x')), Lit(1)), Bin(Sub, Var('x'), Lit(1))), Lit(1)), 'x', 1)
            == Number(0.0)
  {
    var q := Bin(Sub, Var('x'), Lit(1));
    var a := Bin(Div, Bin(Sub, Pow(2, Var('x')), Lit(1)), q);
    var e := Bin(Sub, a, Lit(1));
    assert FirstDivision(e) == a;
    assert Simplify(e) == Bin(Div, Bin(Sub, Bin(Mul, a, q), Bin(Mul, Lit(1), q)), q);
    assert Bind(a, 'x', Lit(1)) == Bin(Div, Bin(Sub, Pow(2, Lit(1)), Lit(1)), Bin(Sub, Lit(1), Lit(1)));
    assert ValueAt(a, 'x', 1).NaN?;
    LimCarriedNaN(e, 'x', 1, a);
  }

  /** (2+2) - x/2 at 4: the simplified tree (((2+2)*2)-((x/2)*2))/2 has a
      value in round 1: (8 - 4) / 2 = 2. */
  lemma LimSimplifiedExample()
    ensures Lim(Bin(Sub, Bin(Add, Lit(2), Lit(2)), Bin(Div, Var('x'), Lit(2))), 'x', 4) == Number(2.0)
  {
    SimplifiedDifferenceTree();
    SimplifiedDifferenceValue();
  }

  lemma SimplifiedDifferenceValue()
    ensures CanBeLimited(Bin(Div, Bin(Sub, Bin(Mul, Bin(Add, Lit(2), Lit(2)), Lit(2)),
                                           Bin(Mul, Bin(Div, Var('x'), Lit(2)), Lit(2))), Lit(2)))
    ensures ValueAt(Bin(Div, Bin(Sub, Bin(Mul, Bin(Add, Lit(2), Lit(2)), Lit(2)),
                                      Bin(Mul, Bin(Div, Var('x'), Lit(2)), Lit(2))), Lit(2)), 'x', 4)
            == Number(2.0)
  {
    assert Bind(Bin(Div, Bin(Sub, Bin(Mul, Bin(Add, Lit(2), Lit(2)), Lit(2)),
                                  Bin(Mul, Bin(Div, Var('x'), Lit(2)), Lit(2))), Lit(2)), 'x', Lit(4))
        == Bin(Div, Bin(Sub, Bin(Mul, Bin(Add, Lit(2), Lit(2)), Lit(2)),
                             Bin(Mul, Bin(Div, Lit(4), Lit(2)), Lit(2))), Lit(2));
  }

  /** (x^2 - 1)/(x - 1) at 1: round 1 has no value (0/0), round 2
      evaluates ((2*x^1)*1 - 0)/(1 - 0) at 1: 2. */
  lemma LimSquareDifferenceExample()
    ensures Lim(Bin(Div, Bin(Sub, Pow(2, Var('x')), Lit(1)), Bin(Sub, Var('x'), Lit(1))), 'x', 1)
            == Number(2.0)
  {
    assert Bin(Div, Bin(Sub, Pow(2, Var('x')), Lit(1)), Bin(Sub, Var('x'), Lit(1)))
           == SquareDifference(Var('x'));
    assert Simplify(SquareDifference(Var('x'))) == SquareDifference(Var('x'));
    SquareDifferenceRounds();
  }

  /** The tree of the test over u, and its round 2. */
  function SquareDifference(u: Expr): Expr {
    Bin(Div, Bin(Sub, Pow(2, u), Lit(1)), Bin(Sub, u, Lit(1)))
  }

  function SquareDifferenceRound2(u: Expr): Expr {
    Bin(Div, Bin(Sub, Bin(Mul, Bin(Mul, Lit(2), Pow(1, u)), Lit(1)), Lit(0)), Bin(Sub, Lit(1), Lit(0)))
  }

  lemma SquareDifferenceRounds()
    ensures Vars(SquareDifference(Var('x'))) <= {'x'}
    ensures Rounds(SquareDifference(Var('x')), 'x', 1, 1, Number(0.0)) == Number(2.0)
  {
    var e, d := SquareDifference(Var('x')), SquareDifferenceRound2(Var('x'));
    SquareDifferenceStep(Var('x'));
    SquareDifferenceValuesAt();
    SquareDifferenceChecks();
    assert Rounds(d, 'x', 1, 2, NaN) == Number(2.0);
  }

  /** Both rounds pass the check: no divisor is a literal. */
  lemma SquareDifferenceChecks()
    ensures CanBeLimited(SquareDifference(Var('x')))
    ensures CanBeLimited(SquareDifferenceRound2(Var('x')))
  {
  }

  /** L'Hôpital's rule over any u whose derivative is 1. */
  lemma {:induction false} SquareDifferenceStep(u: Expr)
    requires Derive(u) == Lit(1)
    ensures Lopital(SquareDifference(u)) == SquareDifferenceRound2(u)
  {
    assert Derive(Pow(2, u)) == Bin(Mul, Bin(Mul, Lit(2), Pow(1, u)), Lit(1));
    assert Derive(Lit(1)) == Lit(0);
    assert Derive(Bin(Sub, Pow(2, u), Lit(1))) == Bin(Sub, Bin(Mul, Bin(Mul, Lit(2), Pow(1, u)), Lit(1)), Lit(0));
    assert Derive(Bin(Sub, u, Lit(1))) == Bin(Sub, Lit(1), Lit(0));
  }

  lemma {:induction false} SquareDifferenceVars(u: Expr)
    ensures Vars(SquareDifference(u)) <= Vars(u)
    ensures Vars(SquareDifferenceRound2(u)) <= Vars(u)
  {
    assert Vars(Bin(Sub, Pow(2, u), Lit(1))) <= Vars(u);
    assert Vars(Bin(Sub, u, Lit(1))) <= Vars(u);
    assert Vars(Bin(Mul, Lit(2), Pow(1, u))) <= Vars(u);
    assert Vars(Bin(Mul, Bin(Mul, Lit(2), Pow(1, u)), Lit(1))) <= Vars(u);
    assert Vars(Bin(Sub, Bin(Mul, Bin(Mul, Lit(2), Pow(1, u)), Lit(1)), Lit(0))) <= Vars(u);
  }

  /** Round 1 at 1 has no value; round 2 at 1 is 2. */
  lemma SquareDifferenceValuesAt()
    ensures Vars(SquareDifference(Var('x'))) <= {'x'}
    ensures Vars(SquareDifferenceRound2(Var('x'))) <= {'x'}
    ensures ValueAt(SquareDifference(Var('x')), 'x', 1).NaN?
    ensures ValueAt(SquareDifferenceRound2(Var('x')), 'x', 1) == Number(2.0)
  {
    SquareDifferenceVars(Var('x'));
    assert Bind(SquareDifference(Var('x')), 'x', Lit(1)) == SquareDifference(Lit(1));
    assert Bind(SquareDifferenceRound2(Var('x')), 'x', Lit(1)) == SquareDifferenceRound2(Lit(1));
    SquareDifferenceValues(Lit(1));
  }

  /** The two rounds at a point u where u is 1. */
  lemma {:induction false} SquareDifferenceValues(u: Expr)
    requires Closed(u) && Eval(u) == Number(1.0)
    ensures Closed(SquareDifference(u)) && Eval(SquareDifference(u)).NaN?
    ensures Closed(SquareDifferenceRound2(u)) && Eval(SquareDifferenceRound2(u)) == Number(2.0)
  {
    EvalPow(2, u, 1.0);
    EvalPow(1, u, 1.0);
    EvalBinary(Sub, Pow(2, u), Lit(1), 1.0, 1.0);
    EvalBinary(Sub, u, Lit(1), 1.0, 1.0);
    EvalBinary(Div, Bin(Sub, Pow(2, u), Lit(1)), Bin(Sub, u, Lit(1)), 0.0, 0.0);
    var t := Bin(Mul, Lit(2), Pow(1, u));
    EvalBinary(Mul, Lit(2), Pow(1, u), 2.0, 1.0);
    EvalBinary(Mul, t, Lit(1), 2.0, 1.0);
    EvalBinary(Sub, Bin(Mul, t, Lit(1)), Lit(0), 2.0, 0.0);
    EvalBinary(Sub, Lit(1), Lit(0), 1.0, 0.0);
    EvalBinary(Div, Bin(Sub, Bin(Mul, t, Lit(1)), Lit(0)), Bin(Sub, Lit(1), Lit(0)), 2.0, 1.0);
  }

  /** x/sin(x) at 0: sin(0) is 0, so round 1 has no value; round 2
      evaluates 1/(cos(0)*1) = 1. */
  lemma LimSineExample()
    ensures Lim(Bin(Div, Var('x'), Fn(Sin, Var('x'))), 'x', 0) == Number(1.0)
  {
    var e := Bin(Div, Var('x'), Fn(Sin, Var('x')));
    var d := Bin(Div, Lit(1), Bin(Mul, Fn(Cos, Var('x')), Lit(1)));
    assert Simplify(e) == e;
    assert Lopital(e) == d;
    SinPolyAtZero(Order);
    CosPolyAtZero(Order);
    assert Bind(e, 'x', Lit(0)) == Bin(Div, Lit(0), Fn(Sin, Lit(0)));
    assert ValueAt(e, 'x', 0).NaN?;
    assert Bind(d, 'x', Lit(0)) == Bin(Div, Lit(1), Bin(Mul, Fn(Cos, Lit(0)), Lit(1)));
    assert ValueAt(d, 'x', 0) == Number(1.0);
  }

  /** (x/x)/2 at 0: round 1 has no value, and round 2's tree divides by
      the derivative of 2, the integer literal 0, so the check fails and
      the previous round's "not a number" is the answer. */
  lemma LimFailedCheckExample()
    ensures Lim(Bin(Div, Bin(Div, Var('x'), Var('x')), Lit(2)), 'x', 0) == NaN
  {
    var e := Bin(Div, Bin(Div, Var('x'), Var('x')), Lit(2));
    assert Simplify(e) == e;
    assert Lopital(e).right == Num(0, Int);
    assert !CanBeLimited(Lopital(e));
    assert ValueAt(e, 'x', 0).NaN?;
  }

  /** (sin(x) - x)/(x*sin(x)) at 0: rounds 1 and 2 are 0/0, round 3
      evaluates 0/2 = 0. */
  lemma LimSineDifferenceExample()
    ensures Lim(SineDifference(Var('x')), 'x', 0) == Number(0.0)
  {
    SineDifferenceSimplified();
    SineDifferenceRounds();
  }

  lemma SineDifferenceSimplified()
    ensures HasDivision(SineDifference(Var('x'))) && Findable(SineDifference(Var('x')))
    ensures Simplify(SineDifference(Var('x'))) == SineDifference(Var('x'))
  {
  }

  lemma SineDifferenceRounds()
    ensures Vars(SineDifference(Var('x'))) <= {'x'}
    ensures Rounds(SineDifference(Var('x')), 'x', 0, 1, Number(0.0)) == Number(0.0)
  {
    var e, d2, d3 := SineDifference(Var('x')), SineDifferenceRound2(Var('x')), SineDifferenceRound3(Var('x'));
    SineDifferenceVars(Var('x'));
    SineDifferenceSteps();
    SineDifferenceChecks();
    SineDifferenceValuesAt();
    assert Rounds(d3, 'x', 0, 3, NaN) == Number(0.0);
    assert Rounds(d2, 'x', 0, 2, NaN) == Number(0.0);
  }

  /** The values of the three rounds at 0: none, none, and 0. */
  lemma SineDifferenceValuesAt()
    ensures Vars(SineDifference(Var('x'))) <= {'x'}
    ensures Vars(SineDifferenceRound2(Var('x'))) <= {'x'}
    ensures Vars(SineDifferenceRound3(Var('x'))) <= {'x'}
    ensures ValueAt(SineDifference(Var('x')), 'x', 0).NaN?
    ensures ValueAt(SineDifferenceRound2(Var('x')), 'x', 0).NaN?
    ensures ValueAt(SineDifferenceRound3(Var('x')), 'x', 0) == Number(0.0)
  {
    SineDifferenceVars(Var('x'));
    SineDifferenceBind();
    SineDifferenceAtZero();
  }

  /** The rounds have the letters of u. */
  lemma {:induction false} SineDifferenceVars(u: Expr)
    ensures Vars(SineDifference(u)) <= Vars(u)
    ensures Vars(SineDifferenceRound2(u)) <= Vars(u)
    ensures Vars(SineDifferenceRound3(u)) <= Vars(u)
  {
    CosineVars(u);
    var c, cs := CosineTimesOne(u), CosineTimesOneSlope(u);
    assert Vars(Bin(Sub, Fn(Sin, u), u)) <= Vars(u);
    assert Vars(Bin(Mul, u, Fn(Sin, u))) <= Vars(u);
    assert Vars(Bin(Mul, Lit(1), Fn(Sin, u))) <= Vars(u);
    assert Vars(Bin(Mul, u, c)) <= Vars(u);
    RoundThreeVars(u);
  }

  lemma {:induction false} CosineVars(u: Expr)
    ensures Vars(Fn(Sin, u)) == Vars(u)
    ensures Vars(CosineTimesOne(u)) <= Vars(u)
    ensures Vars(CosineTimesOneSlope(u)) <= Vars(u)
  {
    assert Vars(Fn(Cos, u)) == Vars(u);
    assert Vars(Unary(Neg, Fn(Sin, u))) == Vars(u);
    assert Vars(Bin(Mul, Unary(Neg, Fn(Sin, u)), Lit(1))) <= Vars(u);
    assert Vars(Bin(Mul, Bin(Mul, Unary(Neg, Fn(Sin, u)), Lit(1)), Lit(1))) <= Vars(u);
    assert Vars(Bin(Mul, Fn(Cos, u), Lit(0))) <= Vars(u);
  }

  lemma {:induction false} RoundThreeVars(u: Expr)
    ensures Vars(SineDifferenceRound3(u)) <= Vars(u)
  {
    CosineVars(u);
    var c, cs := CosineTimesOne(u), CosineTimesOneSlope(u);
    var p, q := Bin(Mul, Lit(0), Fn(Sin, u)), Bin(Mul, Lit(1), c);
    assert Vars(p) <= Vars(u) && Vars(q) <= Vars(u);
    assert Vars(Bin(Mul, u, cs)) <= Vars(u);
    assert Vars(Bin(Add, p, q)) <= Vars(u);
    assert Vars(Bin(Add, q, Bin(Mul, u, cs))) <= Vars(u);
    assert Vars(Bin(Sub, cs, Lit(0))) <= Vars(u);
  }

  /** The three rounds pass the check: no divisor is a literal. */
  lemma SineDifferenceChecks()
    ensures CanBeLimited(SineDifference(Var('x')))
    ensures CanBeLimited(SineDifferenceRound2(Var('x')))
    ensures CanBeLimited(SineDifferenceRound3(Var('x')))
  {
    assert CanBeLimited(SineDifferenceRound2(Var('x')));
    assert CanBeLimited(SineDifferenceRound3(Var('x')));
  }

  /** The tree of the test over u, and its rounds 2 and 3 (L'Hôpital's
      rule once and twice). */
  function SineDifference(u: Expr): Expr {
    Bin(Div, Bin(Sub, Fn(Sin, u), u), Bin(Mul, u, Fn(Sin, u)))
  }

  /** cos(u)*1, the derivative of sin(u) for the variable u. */
  function CosineTimesOne(u: Expr): Expr {
    Bin(Mul, Fn(Cos, u), Lit(1))
  }

  /** The derivative of cos(u)*1 for the variable u. */
  function CosineTimesOneSlope(u: Expr): Expr {
    Bin(Add, Bin(Mul, Bin(Mul, Unary(Neg, Fn(Sin, u)), Lit(1)), Lit(1)),
             Bin(Mul, Fn(Cos, u), Lit(0)))
  }

  function SineDifferenceRound2(u: Expr): Expr {
    Bin(Div, Bin(Sub, CosineTimesOne(u), Lit(1)),
             Bin(Add, Bin(Mul, Lit(1), Fn(Sin, u)), Bin(Mul, u, CosineTimesOne(u))))
  }

  function SineDifferenceRound3(u: Expr): Expr {
    Bin(Div, Bin(Sub, CosineTimesOneSlope(u), Lit(0)),
             Bin(Add, Bin(Add, Bin(Mul, Lit(0), Fn(Sin, u)), Bin(Mul, Lit(1), CosineTimesOne(u))),
                      Bin(Add, Bin(Mul, Lit(1), CosineTimesOne(u)), Bin(Mul, u, CosineTimesOneSlope(u)))))
  }

  lemma SineDifferenceSteps()
    ensures Lopital(SineDifference(Var('x'))) == SineDifferenceRound2(Var('x'))
    ensures Lopital(SineDifferenceRound2(Var('x'))) == SineDifferenceRound3(Var('x'))
  {
    RoundOneStep(Var('x'));
    RoundTwoStep(Var('x'));
  }

  /** The steps over any u whose derivative is 1. */
  lemma {:induction false} RoundOneStep(u: Expr)
    requires Derive(u) == Lit(1)
    ensures Lopital(SineDifference(u)) == SineDifferenceRound2(u)
  {
    assert Derive(Fn(Sin, u)) == CosineTimesOne(u);
    assert Derive(Bin(Sub, Fn(Sin, u), u)) == Bin(Sub, CosineTimesOne(u), Lit(1));
    assert Derive(Bin(Mul, u, Fn(Sin, u))) == Bin(Add, Bin(Mul, Lit(1), Fn(Sin, u)), Bin(Mul, u, CosineTimesOne(u)));
  }

  lemma {:induction false} RoundTwoStep(u: Expr)
    requires Derive(u) == Lit(1)
    ensures Lopital(SineDifferenceRound2(u)) == SineDifferenceRound3(u)
  {
    var c, cs := CosineTimesOne(u), CosineTimesOneSlope(u);
    assert Derive(Fn(Sin, u)) == c;
    assert Derive(Fn(Cos, u)) == Bin(Mul, Unary(Neg, Fn(Sin, u)), Lit(1));
    assert Derive(c) == cs;
    assert Derive(Bin(Sub, c, Lit(1))) == Bin(Sub, cs, Lit(0));
    assert Derive(Bin(Mul, Lit(1), Fn(Sin, u))) == Bin(Add, Bin(Mul, Lit(0), Fn(Sin, u)), Bin(Mul, Lit(1), c));
    assert Derive(Bin(Mul, u, c)) == Bin(Add, Bin(Mul, Lit(1), c), Bin(Mul, u, cs));
  }

  /** Binding x to 0 in the three rounds puts 0 in place of x. */
  lemma SineDifferenceBind()
    ensures Bind(SineDifference(Var('x')), 'x', Lit(0)) == SineDifference(Lit(0))
    ensures Bind(SineDifferenceRound2(Var('x')), 'x', Lit(0)) == SineDifferenceRound2(Lit(0))
    ensures Bind(SineDifferenceRound3(Var('x')), 'x', Lit(0)) == SineDifferenceRound3(Lit(0))
  {
    var x, z := Var('x'), Lit(0);
    assert Bind(CosineTimesOne(x), 'x', z) == CosineTimesOne(z);
    assert Bind(CosineTimesOneSlope(x), 'x', z) == CosineTimesOneSlope(z);
    assert Bind(SineDifferenceRound2(x), 'x', z) == SineDifferenceRound2(z);
    assert Bind(SineDifferenceRound3(x), 'x', z) == SineDifferenceRound3(z);
  }

  /** The pieces at a point u where u, sin(u) and cos(u) are 0, 0 and 1. */
  lemma {:induction false} PiecesAtZero(u: Expr)
    requires Closed(u) && Eval(u) == Number(0.0)
    requires Closed(Fn(Sin, u)) && Eval(Fn(Sin, u)) == Number(0.0)
    requires Closed(Fn(Cos, u)) && Eval(Fn(Cos, u)) == Number(1.0)
    ensures Closed(CosineTimesOne(u)) && Eval(CosineTimesOne(u)) == Number(1.0)
    ensures Closed(CosineTimesOneSlope(u)) && Eval(CosineTimesOneSlope(u)) == Number(0.0)
  {
    var ns := Unary(Neg, Fn(Sin, u));
    assert Closed(ns) && Eval(ns) == Number(0.0);
    EvalBinary(Mul, Fn(Cos, u), Lit(1), 1.0, 1.0);
    EvalBinary(Mul, ns, Lit(1), 0.0, 1.0);
    EvalBinary(Mul, Bin(Mul, ns, Lit(1)), Lit(1), 0.0, 1.0);
    EvalBinary(Mul, Fn(Cos, u), Lit(0), 1.0, 0.0);
    var a := Bin(Mul, Bin(Mul, ns, Lit(1)), Lit(1));
    var b := Bin(Mul, Fn(Cos, u), Lit(0));
    EvalBinary(Add, a, b, 0.0, 0.0);
    assert CosineTimesOneSlope(u) == Bin(Add, a, b);
  }

  /** The three rounds at such a point: no value, no value, and 0. */
  lemma {:induction false} SineDifferenceValues(u: Expr)
    requires Closed(u) && Eval(u) == Number(0.0)
    requires Closed(Fn(Sin, u)) && Eval(Fn(Sin, u)) == Number(0.0)
    requires Closed(Fn(Cos, u)) && Eval(Fn(Cos, u)) == Number(1.0)
    ensures Closed(SineDifference(u)) && Eval(SineDifference(u)).NaN?
    ensures Closed(SineDifferenceRound2(u)) && Eval(SineDifferenceRound2(u)).NaN?
    ensures Closed(SineDifferenceRound3(u)) && Eval(SineDifferenceRound3(u)) == Number(0.0)
  {
    PiecesAtZero(u);
    RoundOneAtZero(u);
    RoundTwoAtZero(u);
    RoundThreeAtZero(u);
  }

  lemma {:induction false} RoundOneAtZero(u: Expr)
    requires Closed(u) && Eval(u) == Number(0.0)
    requires Closed(Fn(Sin, u)) && Eval(Fn(Sin, u)) == Number(0.0)
    ensures Closed(SineDifference(u)) && Eval(SineDifference(u)).NaN?
  {
    EvalBinary(Sub, Fn(Sin, u), u, 0.0, 0.0);
    EvalBinary(Mul, u, Fn(Sin, u), 0.0, 0.0);
  }

  lemma {:induction false} RoundTwoAtZero(u: Expr)
    requires Closed(u) && Eval(u) == Number(0.0)
    requires Closed(Fn(Sin, u)) && Eval(Fn(Sin, u)) == Number(0.0)
    requires Closed(CosineTimesOne(u)) && Eval(CosineTimesOne(u)) == Number(1.0)
    ensures Closed(SineDifferenceRound2(u)) && Eval(SineDifferenceRound2(u)).NaN?
  {
    var c := CosineTimesOne(u);
    EvalBinary(Sub, c, Lit(1), 1.0, 1.0);
    EvalBinary(Mul, Lit(1), Fn(Sin, u), 1.0, 0.0);
    EvalBinary(Mul, u, c, 0.0, 1.0);
    EvalBinary(Add, Bin(Mul, Lit(1), Fn(Sin, u)), Bin(Mul, u, c), 0.0, 0.0);
  }

  lemma {:induction false} RoundThreeAtZero(u: Expr)
    requires Closed(u) && Eval(u) == Number(0.0)
    requires Closed(Fn(Sin, u)) && Eval(Fn(Sin, u)) == Number(0.0)
    requires Closed(CosineTimesOne(u)) && Eval(CosineTimesOne(u)) == Number(1.0)
    requires Closed(CosineTimesOneSlope(u)) && Eval(CosineTimesOneSlope(u)) == Number(0.0)
    ensures Closed(SineDifferenceRound3(u)) && Eval(SineDifferenceRound3(u)) == Number(0.0)
  {
    var c, cs := CosineTimesOne(u), CosineTimesOneSlope(u);
    EvalBinary(Sub, cs, Lit(0), 0.0, 0.0);
    EvalBinary(Mul, Lit(0), Fn(Sin, u), 0.0, 0.0);
    EvalBinary(Mul, Lit(1), c, 1.0, 1.0);
    EvalBinary(Mul, u, cs, 0.0, 0.0);
    var p, q := Bin(Mul, Lit(0), Fn(Sin, u)), Bin(Mul, Lit(1), c);
    EvalBinary(Add, p, q, 0.0, 1.0);
    EvalBinary(Add, q, Bin(Mul, u, cs), 1.0, 0.0);
    EvalBinary(Add, Bin(Add, p, q), Bin(Add, q, Bin(Mul, u, cs)), 1.0, 1.0);
    EvalBinary(Div, Bin(Sub, cs, Lit(0)), Bin(Add, Bin(Add, p, q), Bin(Add, q, Bin(Mul, u, cs))), 0.0, 2.0);
  }

  lemma SineDifferenceAtZero()
    ensures Closed(SineDifference(Lit(0))) && Eval(SineDifference(Lit(0))).NaN?
    ensures Closed(SineDifferenceRound2(Lit(0))) && Eval(SineDifferenceRound2(Lit(0))).NaN?
    ensures Closed(SineDifferenceRound3(Lit(0))) && Eval(SineDifferenceRound3(Lit(0))) == Number(0.0)
  {
    FunctionsAtZero();
    SineDifferenceValues(Lit(0));
  }

  /** sin(0) is 0 and cos(0) is 1 at the engine's order. */
  lemma FunctionsAtZero()
    ensures Eval(Fn(Sin, Lit(0))) == Number(0.0)
    ensures Eval(Fn(Cos, Lit(0))) == Number(1.0)
  {
    SinPolyAtZero(Order);
    CosPolyAtZero(Order);
  }
}
