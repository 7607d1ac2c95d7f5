/**
 * An independent reference for `derive`: forward-mode differentiation.
 *
 * `Forward(e, c)` evaluates `e` once on dual numbers (value, slope), with
 * every variable at value c and slope 1, the way `derive` sends every
 * variable to 1. Powers are repeated dual products and reciprocals, so the
 * power rule is not built in (a zero power is the constant 1, as in `Eval`);
 * `sin` and `cos` follow the chain rule with the
 * engine's own polynomials for sine and cosine. The theorems below say that
 * binding x to c and evaluating reproduces the value part, and that the
 * tree `derive` builds evaluates to the slope part.
 */
module Tangent {
  import opened Syntax
  import opened Evaluator
  import opened Binder
  import opened Derivation

  /** A value and its rate of change. */
  datatype Dual = Dual(value: real, slope: real)

  datatype DualOutcome = Defined(dual: Dual) | Undefined

  /** The product rule on dual numbers. */
  function DualTimes(a: Dual, b: Dual): Dual {
    Dual(a.value * b.value, a.slope * b.value + a.value * b.slope)
  }

  /** a^n as n dual products. */
  function DualPowNat(a: Dual, n: nat): Dual {
    if n == 0 then Dual(1.0, 0.0) else DualTimes(a, DualPowNat(a, n - 1))
  }

  /** a^p: the dual reciprocal of a^(-p) for negative p, which has no value
      when a^(-p) is zero. */
  function DualPower(a: Dual, p: int): DualOutcome {
    if p >= 0 then Defined(DualPowNat(a, p))
    else
      var w := DualPowNat(a, -p);
      if w.value == 0.0 then Undefined
      else Defined(Dual(1.0 / w.value, -w.slope / (w.value * w.value)))
  }

  function DualUnary(op: UnaryOp, a: Dual): Dual {
    match op
    case Neg => Dual(-a.value, -a.slope)
    case Inc => Dual(a.value + 1.0, a.slope)
    case Dec => Dual(a.value - 1.0, a.slope)
  }

  function DualBinary(op: BinaryOp, a: Dual, b: Dual): DualOutcome {
    match op
    case Add => Defined(Dual(a.value + b.value, a.slope + b.slope))
    case Sub => Defined(Dual(a.value - b.value, a.slope - b.slope))
    case Mul => Defined(DualTimes(a, b))
    case Div =>
      if b.value == 0.0 then Undefined
      else Defined(Dual(a.value / b.value, (a.slope * b.value - a.value * b.slope) / (b.value * b.value)))
  }

  function DualFunction(f: Function, a: Dual): Dual {
    match f
    case Sin => Dual(SinPoly(Order, a.value), CosPoly(Order, a.value) * a.slope)
    case Cos => Dual(CosPoly(Order, a.value), -SinPoly(Order, a.value) * a.slope)
  }

  /** Forward-mode evaluation with every variable at value c, slope 1. */
  function Forward(e: Expr, c: real): DualOutcome {
    match e
    case Num(v, _) => Defined(Dual(v as real, 0.0))
    case Const(_, n, d) => if d == 0 then Undefined else Defined(Dual(n as real / d as real, 0.0))
    case Var(_) => Defined(Dual(c, 1.0))
    case Unary(op, u) =>
      var a := Forward(u, c);
      if a.Undefined? then Undefined else Defined(DualUnary(op, a.dual))
    case Pow(p, u) =>
      if p == 0 then Defined(Dual(1.0, 0.0))
      else
        var a := Forward(u, c);
        if a.Undefined? then Undefined else DualPower(a.dual, p)
    case Bin(op, l, r) =>
      var a := Forward(l, c);
      var b := Forward(r, c);
      if a.Undefined? || b.Undefined? then Undefined else DualBinary(op, a.dual, b.dual)
    case Fn(f, u) =>
      var a := Forward(u, c);
      if a.Undefined? then Undefined else Defined(DualFunction(f, a.dual))
  }

  /** The trees whose derivative the chain rule describes: no `++`/`--`
      (their rule keeps the operator, see `DeriveIncrementExample`) and no
      zero exponent (the rule for u^0 builds 0 * u^(-1), which has no value
      at u = 0 although u^0 is constant). */
  predicate Smooth(e: Expr) {
    match e
    case Num(_, _) => true
    case Const(_, _, _) => true
    case Var(_) => true
    case Unary(op, u) => op == Neg && Smooth(u)
    case Pow(p, u) => p != 0 && Smooth(u)
    case Bin(_, l, r) => Smooth(l) && Smooth(r)
    case Fn(_, u) => Smooth(u)
  }

  /** The value part of a dual power is the power of the value. */
  lemma {:induction false} DualPowNatValue(a: Dual, n: nat)
    ensures DualPowNat(a, n).value == PowNat(a.value, n)
  {
    if n > 0 {
      DualPowNatValue(a, n - 1);
    }
  }

  /** The slope part of a dual power follows the power rule:
      (a^n)' = n * a^(n-1) * a'. */
  lemma {:induction false} DualPowNatSlope(a: Dual, n: nat)
    requires n >= 1
    ensures DualPowNat(a, n).slope == (n as real) * PowNat(a.value, n - 1) * a.slope
  {
    if n > 1 {
      DualPowNatSlope(a, n - 1);
      DualPowNatValue(a, n - 1);
      var v, s := a.value, a.slope;
      var q := PowNat(v, n - 2);
      assert PowNat(v, n - 1) == v * q;
      calc {
        DualPowNat(a, n).slope;
        s * PowNat(v, n - 1) + v * (((n - 1) as real) * q * s);
        s * (v * q) + ((n - 1) as real) * (v * q) * s;
        (n as real) * (v * q) * s;
      }
    }
  }

  /** A dual power is defined exactly when the power of the value is. */
  lemma {:induction false} DualPowerValue(a: Dual, p: int)
    ensures DualPower(a, p).Defined? <==> Power(a.value, p).Number?
    ensures DualPower(a, p).Defined? ==> DualPower(a, p).dual.value == Power(a.value, p).value
  {
    DualPowNatValue(a, if p >= 0 then p else -p);
  }

  /** v^m * v^m = v^(m-1) * v^(m+1). */
  lemma {:induction false} PowNatSquare(v: real, m: nat)
    requires m >= 1
    ensures PowNat(v, m) * PowNat(v, m) == PowNat(v, m - 1) * PowNat(v, m + 1)
  {
    PowNatAdd(v, m, m);
    PowNatAdd(v, m - 1, m + 1);
  }

  /** Cancelling the common factor lo in -(m * lo * s) / (lo * hi). */
  lemma {:induction false} CancelSlope(m: real, lo: real, hi: real, s: real)
    requires lo != 0.0 && hi != 0.0
    ensures -(m * lo * s) / (lo * hi) == -m * (1.0 / hi) * s
  {
    var q := -m * (1.0 / hi) * s;
    assert q * hi == -m * s;
    assert q * (lo * hi) == -(m * lo * s);
  }

  /** The slope of a dual power of negative exponent p = -m. */
  lemma {:induction false} DualReciprocalSlope(a: Dual, m: nat)
    requires m >= 1 && PowNat(a.value, m) != 0.0
    ensures a.value != 0.0
    ensures DualPower(a, -(m as int)).Defined?
    ensures DualPower(a, -(m as int)).dual.slope == -(m as real) * (1.0 / PowNat(a.value, m + 1)) * a.slope
  {
    var v, s := a.value, a.slope;
    var w := DualPowNat(a, m);
    DualPowNatValue(a, m);
    DualPowNatSlope(a, m);
    PowNatNonzeroBase(v, m);
    PowNatNonzero(v, m + 1);
    PowNatNonzero(v, m - 1);
    var lo, hi := PowNat(v, m - 1), PowNat(v, m + 1);
    PowNatSquare(v, m);
    assert w.value * w.value == lo * hi;
    assert w.slope == (m as real) * lo * s;
    CancelSlope(m as real, lo, hi, s);
  }

  /** The slope of a dual power of nonzero exponent is p * v^(p-1) * v',
      the value the derivative tree's coefficient p * u^(p-1) computes. */
  lemma {:induction false} DualPowerSlope(a: Dual, p: int)
    requires p != 0 && DualPower(a, p).Defined?
    ensures Power(a.value, p - 1).Number?
    ensures DualPower(a, p).dual.slope == (p as real) * Power(a.value, p - 1).value * a.slope
  {
    if p > 0 {
      DualPowNatSlope(a, p);
    } else {
      DualPowNatValue(a, -p);
      DualReciprocalSlope(a, -p);
      PowNatNonzero(a.value, -p + 1);
    }
  }

  /** Binding x to c and evaluating gives the value part of the forward
      evaluation, and has a value exactly when the forward evaluation is
      defined. */
  lemma {:induction false} ForwardValue(e: Expr, x: char, c: int)
    requires Vars(e) <= {x}
    ensures Closed(Bind(e, x, Lit(c)))
    ensures Eval(Bind(e, x, Lit(c)))
            == if Forward(e, c as real).Defined? then Number(Forward(e, c as real).dual.value) else NaN
  {
    match e
    case Num(_, _) =>
    case Const(_, _, _) =>
    case Var(_) =>
    case Unary(op, u) =>
      ForwardValue(u, x, c);
      assert Bind(e, x, Lit(c)) == Unary(op, Bind(u, x, Lit(c)));
    case Pow(p, u) =>
      ForwardValue(u, x, c);
      assert Bind(e, x, Lit(c)) == Pow(p, Bind(u, x, Lit(c)));
      if p != 0 {
        PowerAgrees(p, Eval(Bind(u, x, Lit(c))), Forward(u, c as real));
      }
    case Bin(op, l, r) =>
      ForwardValue(l, x, c);
      ForwardValue(r, x, c);
      assert Bind(e, x, Lit(c)) == Bin(op, Bind(l, x, Lit(c)), Bind(r, x, Lit(c)));
      BinaryAgrees(op, Eval(Bind(l, x, Lit(c))), Eval(Bind(r, x, Lit(c))), Forward(l, c as real), Forward(r, c as real));
    case Fn(f, u) =>
      ForwardValue(u, x, c);
      assert Bind(e, x, Lit(c)) == Fn(f, Bind(u, x, Lit(c)));
  }

  /** An evaluation outcome matches a forward outcome: both undefined, or
      the number is the value part. */
  predicate Agrees(o: Outcome, f: DualOutcome) {
    if f.Defined? then o == Number(f.dual.value) else o == NaN
  }

  /** The evaluation step and the forward step at a power node agree. */
  lemma PowerAgrees(p: int, o: Outcome, f: DualOutcome)
    requires Agrees(o, f)
    ensures Agrees(if o.NaN? then NaN else Power(o.value, p), if f.Undefined? then Undefined else DualPower(f.dual, p))
  {
    if f.Defined? {
      DualPowerValue(f.dual, p);
    }
  }

  /** The evaluation step and the forward step at a binary node agree. */
  lemma BinaryAgrees(op: BinaryOp, o1: Outcome, o2: Outcome, f1: DualOutcome, f2: DualOutcome)
    requires Agrees(o1, f1) && Agrees(o2, f2)
    ensures Agrees(if o1.NaN? || o2.NaN? then NaN else ApplyBinary(op, o1.value, o2.value),
                   if f1.Undefined? || f2.Undefined? then Undefined else DualBinary(op, f1.dual, f2.dual))
  {
  }

  /** The derivative tree evaluates, forward, to the slope: for a smooth
      tree whose forward evaluation at c is defined, the value part of the
      forward evaluation of `Derive(e)` is the slope part of that of `e`. */
  lemma {:induction false} DeriveSlope(e: Expr, c: real)
    requires Smooth(e) && Forward(e, c).Defined?
    ensures Forward(Derive(e), c).Defined?
    ensures Forward(Derive(e), c).dual.value == Forward(e, c).dual.slope
  {
    match e
    case Num(_, _) =>
    case Const(_, _, _) =>
    case Var(_) =>
    case Unary(op, u) =>
      DeriveSlope(u, c);
      NegationSlope(u, Derive(u), c, Forward(u, c).dual, Forward(Derive(u), c).dual);
    case Pow(p, u) =>
      DeriveSlope(u, c);
      PowSlope(p, u, Derive(u), c, Forward(u, c).dual, Forward(Derive(u), c).dual);
    case Bin(op, l, r) =>
      DeriveSlope(l, c);
      DeriveSlope(r, c);
      var a, b := Forward(l, c).dual, Forward(r, c).dual;
      var da, db := Forward(Derive(l), c).dual, Forward(Derive(r), c).dual;
      match op {
        case Add => SumSlope(l, r, Derive(l), Derive(r), c, a, b, da, db);
        case Sub => DifferenceSlope(l, r, Derive(l), Derive(r), c, a, b, da, db);
        case Mul => ProductSlope(l, r, Derive(l), Derive(r), c, a, b, da, db);
        case Div => QuotientSlope(l, r, Derive(l), Derive(r), c, a, b, da, db);
      }
    case Fn(f, u) =>
      DeriveSlope(u, c);
      var a, da := Forward(u, c).dual, Forward(Derive(u), c).dual;
      match f {
        case Sin => SineSlope(u, Derive(u), c, a, da);
        case Cos => CosineSlope(u, Derive(u), c, a, da);
      }
  }

  /** The next lemmas are the cases of `DeriveSlope`: each takes the forward
      evaluations of the operands (a, b) and of their derivative trees
      (da, db) with the derivative trees already correct (da.value ==
      a.slope), and shows the tree the rule builds from them is. */

  lemma {:induction false} NegationSlope(u: Expr, du: Expr, c: real, a: Dual, da: Dual)
    requires Forward(u, c) == Defined(a) && Forward(du, c) == Defined(da)
    requires da.value == a.slope
    ensures Forward(Unary(Neg, du), c).Defined?
    ensures Forward(Unary(Neg, du), c).dual.value == Forward(Unary(Neg, u), c).dual.slope
  {
    ForwardUnary(Neg, du, c, da);
    ForwardUnary(Neg, u, c, a);
  }

  lemma {:induction false} SumSlope(l: Expr, r: Expr, dl: Expr, dr: Expr, c: real, a: Dual, b: Dual, da: Dual, db: Dual)
    requires Forward(l, c) == Defined(a) && Forward(r, c) == Defined(b)
    requires Forward(dl, c) == Defined(da) && Forward(dr, c) == Defined(db)
    requires da.value == a.slope && db.value == b.slope
    ensures Forward(Bin(Add, dl, dr), c).Defined?
    ensures Forward(Bin(Add, dl, dr), c).dual.value == Forward(Bin(Add, l, r), c).dual.slope
  {
    ForwardBin(Add, dl, dr, c, da, db);
    ForwardBin(Add, l, r, c, a, b);
  }

  lemma {:induction false} DifferenceSlope(l: Expr, r: Expr, dl: Expr, dr: Expr, c: real, a: Dual, b: Dual, da: Dual, db: Dual)
    requires Forward(l, c) == Defined(a) && Forward(r, c) == Defined(b)
    requires Forward(dl, c) == Defined(da) && Forward(dr, c) == Defined(db)
    requires da.value == a.slope && db.value == b.slope
    ensures Forward(Bin(Sub, dl, dr), c).Defined?
    ensures Forward(Bin(Sub, dl, dr), c).dual.value == Forward(Bin(Sub, l, r), c).dual.slope
  {
    ForwardBin(Sub, dl, dr, c, da, db);
    ForwardBin(Sub, l, r, c, a, b);
  }

  lemma {:induction false} ProductSlope(l: Expr, r: Expr, dl: Expr, dr: Expr, c: real, a: Dual, b: Dual, da: Dual, db: Dual)
    requires Forward(l, c) == Defined(a) && Forward(r, c) == Defined(b)
    requires Forward(dl, c) == Defined(da) && Forward(dr, c) == Defined(db)
    requires da.value == a.slope && db.value == b.slope
    ensures Forward(Bin(Add, Bin(Mul, dl, r), Bin(Mul, l, dr)), c).Defined?
    ensures Forward(Bin(Add, Bin(Mul, dl, r), Bin(Mul, l, dr)), c).dual.value
            == Forward(Bin(Mul, l, r), c).dual.slope
  {
    ForwardBin(Mul, dl, r, c, da, b);
    ForwardBin(Mul, l, dr, c, a, db);
    ForwardBin(Add, Bin(Mul, dl, r), Bin(Mul, l, dr), c, DualTimes(da, b), DualTimes(a, db));
    ForwardBin(Mul, l, r, c, a, b);
    ProductRule(a, b, da, db);
  }

  lemma {:induction false} QuotientSlope(l: Expr, r: Expr, dl: Expr, dr: Expr, c: real, a: Dual, b: Dual, da: Dual, db: Dual)
    requires Forward(l, c) == Defined(a) && Forward(r, c) == Defined(b)
    requires Forward(dl, c) == Defined(da) && Forward(dr, c) == Defined(db)
    requires da.value == a.slope && db.value == b.slope
    requires b.value != 0.0
    ensures Forward(Bin(Div, Bin(Sub, Bin(Mul, dl, r), Bin(Mul, l, dr)), Pow(2, r)), c).Defined?
    ensures Forward(Bin(Div, Bin(Sub, Bin(Mul, dl, r), Bin(Mul, l, dr)), Pow(2, r)), c).dual.value
            == Forward(Bin(Div, l, r), c).dual.slope
  {
    var n := DualBinary(Sub, DualTimes(da, b), DualTimes(a, db)).dual;
    ForwardBin(Mul, dl, r, c, da, b);
    ForwardBin(Mul, l, dr, c, a, db);
    ForwardBin(Sub, Bin(Mul, dl, r), Bin(Mul, l, dr), c, DualTimes(da, b), DualTimes(a, db));
    ForwardPow(2, r, c, b);
    ForwardBin(Div, Bin(Sub, Bin(Mul, dl, r), Bin(Mul, l, dr)), Pow(2, r), c, n, DualPowNat(b, 2));
    ForwardBin(Div, l, r, c, a, b);
    QuotientRule(a, b, da, db);
  }

  lemma {:induction false} SineSlope(u: Expr, du: Expr, c: real, a: Dual, da: Dual)
    requires Forward(u, c) == Defined(a) && Forward(du, c) == Defined(da)
    requires da.value == a.slope
    ensures Forward(Bin(Mul, Fn(Cos, u), du), c).Defined?
    ensures Forward(Bin(Mul, Fn(Cos, u), du), c).dual.value == Forward(Fn(Sin, u), c).dual.slope
  {
    ForwardFn(Cos, u, c, a);
    ForwardFn(Sin, u, c, a);
    ForwardBin(Mul, Fn(Cos, u), du, c, DualFunction(Cos, a), da);
    SineRule(a, da);
  }

  lemma {:induction false} CosineSlope(u: Expr, du: Expr, c: real, a: Dual, da: Dual)
    requires Forward(u, c) == Defined(a) && Forward(du, c) == Defined(da)
    requires da.value == a.slope
    ensures Forward(Bin(Mul, Unary(Neg, Fn(Sin, u)), du), c).Defined?
    ensures Forward(Bin(Mul, Unary(Neg, Fn(Sin, u)), du), c).dual.value == Forward(Fn(Cos, u), c).dual.slope
  {
    ForwardFn(Sin, u, c, a);
    ForwardFn(Cos, u, c, a);
    ForwardUnary(Neg, Fn(Sin, u), c, DualFunction(Sin, a));
    ForwardBin(Mul, Unary(Neg, Fn(Sin, u)), du, c, DualUnary(Neg, DualFunction(Sin, a)), da);
    CosineRule(a, da);
  }

  lemma {:induction false} PowSlope(p: int, u: Expr, du: Expr, c: real, a: Dual, da: Dual)
    requires Forward(u, c) == Defined(a) && Forward(du, c) == Defined(da)
    requires da.value == a.slope
    requires p != 0 && DualPower(a, p).Defined?
    ensures Forward(Bin(Mul, Bin(Mul, Num(p, Int), Pow(p - 1, u)), du), c).Defined?
    ensures Forward(Bin(Mul, Bin(Mul, Num(p, Int), Pow(p - 1, u)), du), c).dual.value
            == Forward(Pow(p, u), c).dual.slope
  {
    PowerRule(p, a, da);
    ForwardPow(p - 1, u, c, a);
    ForwardPow(p, u, c, a);
    var w := DualPower(a, p - 1).dual;
    ForwardBin(Mul, Num(p, Int), Pow(p - 1, u), c, Dual(p as real, 0.0), w);
    ForwardBin(Mul, Bin(Mul, Num(p, Int), Pow(p - 1, u)), du, c, DualTimes(Dual(p as real, 0.0), w), da);
  }

  /** One step of the forward evaluation at each kind of node, once the
      operands' forward values are known. */

  lemma {:induction false} ForwardUnary(op: UnaryOp, u: Expr, c: real, a: Dual)
    requires Forward(u, c) == Defined(a)
    ensures Forward(Unary(op, u), c) == Defined(DualUnary(op, a))
  {
  }

  lemma {:induction false} ForwardPow(p: int, u: Expr, c: real, a: Dual)
    requires Forward(u, c) == Defined(a)
    ensures Forward(Pow(p, u), c) == DualPower(a, p)
  {
  }

  lemma {:induction false} ForwardBin(op: BinaryOp, l: Expr, r: Expr, c: real, a: Dual, b: Dual)
    requires Forward(l, c) == Defined(a) && Forward(r, c) == Defined(b)
    ensures Forward(Bin(op, l, r), c) == DualBinary(op, a, b)
  {
  }

  lemma {:induction false} ForwardFn(f: Function, u: Expr, c: real, a: Dual)
    requires Forward(u, c) == Defined(a)
    ensures Forward(Fn(f, u), c) == Defined(DualFunction(f, a))
  {
  }

  /** The arithmetic of the product, quotient, chain and power rules. */

  lemma {:induction false} ProductRule(a: Dual, b: Dual, da: Dual, db: Dual)
    requires da.value == a.slope && db.value == b.slope
    ensures DualTimes(da, b).value + DualTimes(a, db).value == DualTimes(a, b).slope
  {
  }

  lemma {:induction false} QuotientRule(a: Dual, b: Dual, da: Dual, db: Dual)
    requires da.value == a.slope && db.value == b.slope && b.value != 0.0
    ensures DualBinary(Div, a, b).Defined?
    ensures DualBinary(Div, DualBinary(Sub, DualTimes(da, b), DualTimes(a, db)).dual, DualPowNat(b, 2)).Defined?
    ensures DualBinary(Div, DualBinary(Sub, DualTimes(da, b), DualTimes(a, db)).dual, DualPowNat(b, 2)).dual.value
            == DualBinary(Div, a, b).dual.slope
  {
    assert DualPowNat(b, 1) == DualTimes(b, Dual(1.0, 0.0));
    var w := DualPowNat(b, 2);
    assert w.value == b.value * b.value;
    DualPowNatValue(b, 2);
    PowNatNonzero(b.value, 2);
    var n := DualBinary(Sub, DualTimes(da, b), DualTimes(a, db)).dual;
    assert n.value == a.slope * b.value - a.value * b.slope;
    assert DualBinary(Div, n, w).dual.value == n.value / w.value;
  }

  lemma {:induction false} SineRule(a: Dual, da: Dual)
    requires da.value == a.slope
    ensures DualTimes(DualFunction(Cos, a), da).value == DualFunction(Sin, a).slope
  {
  }

  lemma {:induction false} CosineRule(a: Dual, da: Dual)
    requires da.value == a.slope
    ensures DualTimes(DualUnary(Neg, DualFunction(Sin, a)), da).value == DualFunction(Cos, a).slope
  {
  }

  lemma {:induction false} PowerRule(p: int, a: Dual, da: Dual)
    requires p != 0 && DualPower(a, p).Defined? && da.value == a.slope
    ensures DualPower(a, p - 1).Defined?
    ensures DualTimes(DualTimes(Dual(p as real, 0.0), DualPower(a, p - 1).dual), da).value
            == DualPower(a, p).dual.slope
  {
    DualPowerSlope(a, p);
    DualPowerValue(a, p - 1);
  }

  /** `derive` is differentiation: for a smooth tree over the single
      variable x whose value at c exists, the derivative tree bound at c
      evaluates to the slope of the forward evaluation at c. */
  lemma {:induction false} DeriveIsSlope(e: Expr, x: char, c: int)
    requires Vars(e) <= {x} && Smooth(e) && Forward(e, c as real).Defined?
    ensures Closed(Bind(Derive(e), x, Lit(c)))
    ensures Eval(Bind(Derive(e), x, Lit(c))) == Number(Forward(e, c as real).dual.slope)
  {
    DeriveSlope(e, c as real);
    ForwardValue(Derive(e), x, c);
  }
}
