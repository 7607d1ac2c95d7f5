/**
 * `operator()` of every node: the numeric value of a closed tree.
 *
 * Values are exact reals standing for `long double`. Division always
 * divides as reals (`Div<T1, T2, true>` casts both sides). A zero divisor
 * makes the value `NaN`, the abstract "not a number" outcome the limit
 * engine tests for; IEEE infinities are not distinguished from it.
 */
module Evaluator {
  import opened Syntax

  datatype Outcome = Number(value: real) | NaN

  /** `factorial<f>()`: f! as an unsigned integer. */
  function Factorial(n: nat): (r: nat)
    ensures r >= 1
    ensures r >= n
  {
    if n == 0 then 1 else n * Factorial(n - 1)
  }

  /** Each factorial is at least the one before it. */
  lemma FactorialStep(n: nat)
    requires n > 0
    ensures Factorial(n - 1) <= Factorial(n)
  {
    var f := Factorial(n - 1);
    assert Factorial(n) == n * f;
    MulAtLeast(n - 1, f);
  }

  /** k * f + f >= f for naturals k and f. */
  lemma MulAtLeast(k: nat, f: nat)
    ensures (k + 1) * f >= f
  {
    assert (k + 1) * f == k * f + f;
  }

  /** The factorials grow with their argument. */
  lemma {:induction false} FactorialMonotone(m: nat, n: nat)
    requires m <= n
    ensures Factorial(m) <= Factorial(n)
    decreases n - m
  {
    if m < n {
      FactorialMonotone(m, n - 1);
      FactorialStep(n);
    }
  }

  /** `factorial<f>()` is computed in 64-bit `uintmax_t`: 20! still fits,
      21! is the first factorial that does not. */
  lemma FactorialWidth()
    ensures Factorial(20) < 0x1_0000_0000_0000_0000 <= Factorial(21)
  {
    assert Factorial(1) == 1;
    assert Factorial(2) == 2;
    assert Factorial(3) == 6;
    assert Factorial(4) == 24;
    assert Factorial(5) == 120;
    assert Factorial(6) == 720;
    assert Factorial(7) == 5040;
    assert Factorial(8) == 40320;
    assert Factorial(9) == 362880;
    assert Factorial(10) == 3628800;
    assert Factorial(11) == 39916800;
    assert Factorial(12) == 479001600;
    assert Factorial(13) == 6227020800;
    assert Factorial(14) == 87178291200;
    assert Factorial(15) == 1307674368000;
    assert Factorial(16) == 20922789888000;
    assert Factorial(17) == 355687428096000;
    assert Factorial(18) == 6402373705728000;
    assert Factorial(19) == 121645100408832000;
    assert Factorial(20) == 2432902008176640000;
    assert Factorial(21) == 51090942171709440000;
  }

  /** Every factorial the sine and cosine expansions of order `Order` use
      (up to (2 * Order + 1)!) fits in 64 bits, so there they do not wrap. */
  lemma FactorialsFitAtOrder(k: nat)
    requires k <= 2 * Order + 1
    ensures Factorial(k) < 0x1_0000_0000_0000_0000
  {
    FactorialMonotone(k, 20);
    FactorialWidth();
  }

  /** v^n by repeated multiplication (`PowBase<n, false>`). */
  function PowNat(v: real, n: nat): real {
    if n == 0 then 1.0 else v * PowNat(v, n - 1)
  }

  /** `Pow<p>::Get(v)`: v^p for p >= 0; 1 / v^(-p) for p < 0, which has no
      value when v is zero. */
  function Power(v: real, p: int): Outcome {
    if p >= 0 then Number(PowNat(v, p))
    else if PowNat(v, -p) == 0.0 then NaN
    else Number(1.0 / PowNat(v, -p))
  }

  /** The k-th term of the sine series, (-1)^k / (2k+1)! * v^(2k+1). */
  function SinTerm(k: nat, v: real): real {
    PowNat(-1.0, k) / (Factorial(2 * k + 1) as real) * PowNat(v, 2 * k + 1)
  }

  /** The k-th term of the cosine series, (-1)^k / (2k)! * v^(2k). */
  function CosTerm(k: nat, v: real): real {
    PowNat(-1.0, k) / (Factorial(2 * k) as real) * PowNat(v, 2 * k)
  }

  /** The sine Taylor polynomial of order n: terms k = n down to 0. */
  function SinPoly(n: nat, v: real): real {
    if n == 0 then SinTerm(0, v) else SinTerm(n, v) + SinPoly(n - 1, v)
  }

  /** The cosine Taylor polynomial of order n: terms k = n down to 0. */
  function CosPoly(n: nat, v: real): real {
    if n == 0 then CosTerm(0, v) else CosTerm(n, v) + CosPoly(n - 1, v)
  }

  /** The order at which `sin` and `cos` are evaluated (`CONFIDENCE_LEVEL`). */
  const Order: nat := 5

  function ApplyUnary(op: UnaryOp, v: real): real {
    match op
    case Neg => -v
    case Inc => v + 1.0
    case Dec => v - 1.0
  }

  function ApplyBinary(op: BinaryOp, a: real, b: real): Outcome {
    match op
    case Add => Number(a + b)
    case Sub => Number(a - b)
    case Mul => Number(a * b)
    case Div => if b == 0.0 then NaN else Number(a / b)
  }

  function ApplyFunction(f: Function, v: real): real {
    match f
    case Sin => SinPoly(Order, v)
    case Cos => CosPoly(Order, v)
  }

  /** The value of a closed tree. In the C++ a variable evaluates to
      itself and the operators rebuild a tree from whatever their operands
      return, so a tree with letters evaluates to a partially evaluated
      tree; only closed trees, which evaluate to a number, are modelled.
      A zero power is 1 whatever its operand is worth: `PowBase<0, false>`
      ignores its argument, so u^0 has the value 1 even when u has none. */
  function Eval(e: Expr): Outcome
    requires Closed(e)
  {
    match e
    case Num(v, _) => Number(v as real)
    case Const(_, n, d) => if d == 0 then NaN else Number(n as real / d as real)
    case Unary(op, u) =>
      var a := Eval(u);
      if a.NaN? then NaN else Number(ApplyUnary(op, a.value))
    case Pow(p, u) =>
      if p == 0 then Number(1.0)
      else
        var a := Eval(u);
        if a.NaN? then NaN else Power(a.value, p)
    case Bin(op, l, r) =>
      var a := Eval(l);
      var b := Eval(r);
      if a.NaN? || b.NaN? then NaN else ApplyBinary(op, a.value, b.value)
    case Fn(f, u) =>
      var a := Eval(u);
      if a.NaN? then NaN else Number(ApplyFunction(f, a.value))
  }

  /** The outcome of a binary node from its operands' outcomes. */
  function BinStep(op: BinaryOp, o1: Outcome, o2: Outcome): Outcome {
    if o1.NaN? || o2.NaN? then NaN else ApplyBinary(op, o1.value, o2.value)
  }

  /** One step of evaluation at a binary node. */
  lemma EvalBin(op: BinaryOp, l: Expr, r: Expr)
    requires Closed(l) && Closed(r)
    ensures Closed(Bin(op, l, r))
    ensures Eval(Bin(op, l, r)) == BinStep(op, Eval(l), Eval(r))
  {
  }

  /** One step of evaluation at a binary node whose operands have values. */
  lemma {:induction false} EvalBinary(op: BinaryOp, l: Expr, r: Expr, a: real, b: real)
    requires Closed(l) && Closed(r) && Eval(l) == Number(a) && Eval(r) == Number(b)
    ensures Closed(Bin(op, l, r))
    ensures Eval(Bin(op, l, r)) == ApplyBinary(op, a, b)
  {
  }

  /** One step of evaluation at a power node whose operand has a value. */
  lemma {:induction false} EvalPow(p: int, u: Expr, a: real)
    requires Closed(u) && Eval(u) == Number(a)
    ensures Closed(Pow(p, u))
    ensures Eval(Pow(p, u)) == Power(a, p)
  {
  }

  /** Exponents add: v^(m+n) = v^m * v^n. */
  lemma {:induction false} PowNatAdd(v: real, m: nat, n: nat)
    ensures PowNat(v, m + n) == PowNat(v, m) * PowNat(v, n)
  {
    if m > 0 {
      PowNatAdd(v, m - 1, n);
    }
  }

  /** A power of a nonzero value is nonzero. */
  lemma {:induction false} PowNatNonzero(v: real, n: nat)
    requires v != 0.0
    ensures PowNat(v, n) != 0.0
  {
    if n > 0 {
      PowNatNonzero(v, n - 1);
    }
  }

  /** A nonzero positive power has a nonzero base. */
  lemma {:induction false} PowNatNonzeroBase(v: real, n: nat)
    requires n > 0 && PowNat(v, n) != 0.0
    ensures v != 0.0
  {
    assert PowNat(v, n) == v * PowNat(v, n - 1);
  }

  /** The power has a value exactly when the exponent is non-negative or
      the base is nonzero, and then v^p * v^(-p) = 1 for negative p. */
  lemma {:induction false} PowerDefined(v: real, p: int)
    ensures Power(v, p).Number? <==> (p >= 0 || v != 0.0)
    ensures p < 0 && v != 0.0 ==> Power(v, p).value * PowNat(v, -p) == 1.0
  {
    if p < 0 && v != 0.0 {
      PowNatNonzero(v, -p);
    }
  }

  /** v^(p+1) = v * v^p whenever v^p has a value, for every integer p. */
  lemma {:induction false} PowerStep(v: real, p: int)
    requires Power(v, p).Number?
    ensures Power(v, p + 1).Number?
    ensures Power(v, p + 1).value == v * Power(v, p).value
  {
    if p < -1 {
      assert v != 0.0 by { PowerDefined(v, p); }
      PowNatNonzero(v, -p - 1);
      assert PowNat(v, -p) == v * PowNat(v, -p - 1);
    } else if p == -1 {
      assert v != 0.0 by { PowerDefined(v, p); }
    }
  }

  /** (-1)^k is 1 for even k and -1 for odd k. */
  lemma {:induction false} PowNatMinusOne(k: nat)
    ensures PowNat(-1.0, k) == if k % 2 == 0 then 1.0 else -1.0
  {
    if k > 0 {
      PowNatMinusOne(k - 1);
    }
  }

  /** Every power of zero but the zeroth is zero. */
  lemma {:induction false} PowNatZeroBase(n: nat)
    requires n > 0
    ensures PowNat(0.0, n) == 0.0
  {
  }

  /** The sine polynomial vanishes at zero: only its terms' powers of zero
      appear, all of positive degree. */
  lemma {:induction false} SinPolyAtZero(n: nat)
    ensures SinPoly(n, 0.0) == 0.0
  {
    PowNatZeroBase(2 * n + 1);
    if n > 0 {
      SinPolyAtZero(n - 1);
    }
  }

  /** The cosine polynomial is 1 at zero: the constant term is 1 and every
      other term carries a positive power of zero. */
  lemma {:induction false} CosPolyAtZero(n: nat)
    ensures CosPoly(n, 0.0) == 1.0
  {
    if n > 0 {
      PowNatZeroBase(2 * n);
      CosPolyAtZero(n - 1);
    }
  }

  /** The value of the first test of the suite:
      (3 + (2 + 3) - 1) / (2 * 3 + 1) is 1. */
  lemma EvalArithmeticExample()
    ensures Closed(Bin(Div, Bin(Sub, Bin(Add, Lit(3), Bin(Add, Lit(2), Lit(3))), Lit(1)),
                            Bin(Add, Bin(Mul, Lit(2), Lit(3)), Lit(1))))
    ensures Eval(Bin(Div, Bin(Sub, Bin(Add, Lit(3), Bin(Add, Lit(2), Lit(3))), Lit(1)),
                          Bin(Add, Bin(Mul, Lit(2), Lit(3)), Lit(1))))
            == Number(1.0)
  {
  }

  /** The division nodes whose value evaluation needs, in the order of
      `Divisions`: all of them but those under a zero power, whose operand
      is never used. */
  function EvaluatedDivisions(e: Expr): (ds: seq<Expr>)
    ensures forall i :: 0 <= i < |ds| ==> ds[i].Bin? && ds[i].bop == Div
  {
    match e
    case Num(_, _) => []
    case Const(_, _, _) => []
    case Var(_) => []
    case Unary(_, u) => EvaluatedDivisions(u)
    case Pow(p, u) => if p == 0 then [] else EvaluatedDivisions(u)
    case Bin(op, l, r) =>
      (if op == Div then [e] else []) + EvaluatedDivisions(l) + EvaluatedDivisions(r)
    case Fn(_, u) => EvaluatedDivisions(u)
  }

  /** No power node of the tree has the exponent 0. */
  predicate NoZeroPower(e: Expr) {
    match e
    case Num(_, _) => true
    case Const(_, _, _) => true
    case Var(_) => true
    case Unary(_, u) => NoZeroPower(u)
    case Pow(p, u) => p != 0 && NoZeroPower(u)
    case Bin(_, l, r) => NoZeroPower(l) && NoZeroPower(r)
    case Fn(_, u) => NoZeroPower(u)
  }

  /** Without zero powers evaluation needs every division of the tree. */
  lemma {:induction false} EvaluatedDivisionsWithoutZeroPower(e: Expr)
    requires NoZeroPower(e)
    ensures EvaluatedDivisions(e) == Divisions(e)
  {
    match e
    case Num(_, _) =>
    case Const(_, _, _) =>
    case Var(_) =>
    case Unary(_, u) => EvaluatedDivisionsWithoutZeroPower(u);
    case Pow(_, u) => EvaluatedDivisionsWithoutZeroPower(u);
    case Fn(_, u) => EvaluatedDivisionsWithoutZeroPower(u);
    case Bin(_, l, r) =>
      EvaluatedDivisionsWithoutZeroPower(l);
      EvaluatedDivisionsWithoutZeroPower(r);
  }

  /** A tree has a value only if every division evaluation needs has a
      nonzero divisor. */
  lemma {:induction false} EvalDivisorsNonzero(e: Expr)
    requires Closed(e) && Eval(e).Number?
    ensures forall i :: 0 <= i < |EvaluatedDivisions(e)| ==>
              Closed(EvaluatedDivisions(e)[i].right) && Eval(EvaluatedDivisions(e)[i].right).Number?
              && Eval(EvaluatedDivisions(e)[i].right).value != 0.0
  {
    match e
    case Num(_, _) =>
    case Const(_, _, _) =>
    case Var(_) =>
    case Unary(_, u) => EvalDivisorsNonzero(u);
    case Pow(p, u) =>
      if p != 0 {
        EvalDivisorsNonzero(u);
      }
    case Fn(_, u) => EvalDivisorsNonzero(u);
    case Bin(op, l, r) =>
      EvalDivisorsNonzero(l);
      EvalDivisorsNonzero(r);
  }

  /** (0/0)^0 is 1: the zero power does not look at its operand, which has
      no value, although that operand divides by 0. */
  lemma EvalZeroPowerExample()
    ensures Closed(Pow(0, Bin(Div, Lit(0), Lit(0))))
    ensures Eval(Pow(0, Bin(Div, Lit(0), Lit(0)))) == Number(1.0)
    ensures Eval(Bin(Div, Lit(0), Lit(0))).NaN?
    ensures Divisions(Pow(0, Bin(Div, Lit(0), Lit(0)))) == [Bin(Div, Lit(0), Lit(0))]
  {
  }
}
