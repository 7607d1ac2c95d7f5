/**
 * The Taylor-series builders (`TaylorSine`, `TaylorCosine`, `TaylorE`,
 * `TaylorLn`), `expand`, `ln` and `_e ^ u`.
 *
 * Each builder returns an expression tree, not a number: the right-nested
 * sum T_n + (T_(n-1) + (... + T_0)) of its terms. A coefficient such as
 * (-1)^k / (2k+1)! is itself a tree: `power<k>(-1)` is the power node over
 * the `int` literal -1 and the factorial is an unsigned literal.
 */
module Series {
  import opened Syntax
  import opened Printer
  import opened Evaluator

  /** `TaylorSineTerm<k>`: ((-1)^k / (2k+1)!) * u^(2k+1). */
  function SineTerm(k: nat, u: Expr): Expr {
    Bin(Mul, Bin(Div, Pow(k, Lit(-1)), Num(Factorial(2 * k + 1), Unsigned)), Pow(2 * k + 1, u))
  }

  /** `TaylorCosineTerm<k>`: ((-1)^k / (2k)!) * u^(2k). */
  function CosineTerm(k: nat, u: Expr): Expr {
    Bin(Mul, Bin(Div, Pow(k, Lit(-1)), Num(Factorial(2 * k), Unsigned)), Pow(2 * k, u))
  }

  /** `TaylorETerm<k>`: u^k / k!. */
  function ETerm(k: nat, u: Expr): Expr {
    Bin(Div, Pow(k, u), Num(Factorial(k), Unsigned))
  }

  /** `TaylorLnTerm<k>`: ((-1)^(k+1) / k) * (-1 + u)^k. */
  function LnTerm(k: nat, u: Expr): Expr {
    Bin(Mul, Bin(Div, Pow(k + 1, Lit(-1)), Num(k, Unsigned)), Pow(k, Bin(Add, Lit(-1), u)))
  }

  function TaylorSine(n: nat, u: Expr): Expr {
    if n == 0 then SineTerm(0, u) else Bin(Add, SineTerm(n, u), TaylorSine(n - 1, u))
  }

  function TaylorCosine(n: nat, u: Expr): Expr {
    if n == 0 then CosineTerm(0, u) else Bin(Add, CosineTerm(n, u), TaylorCosine(n - 1, u))
  }

  function TaylorE(n: nat, u: Expr): Expr {
    if n == 0 then ETerm(0, u) else Bin(Add, ETerm(n, u), TaylorE(n - 1, u))
  }

  /** The logarithm series starts at k = 1: there is no `TaylorLn<0>`. */
  function TaylorLn(n: nat, u: Expr): Expr
    requires n >= 1
  {
    if n == 1 then LnTerm(1, u) else Bin(Add, LnTerm(n, u), TaylorLn(n - 1, u))
  }

  /** `expand<n>`: only a `sin` or `cos` call has an expansion. */
  function Expand(n: nat, e: Expr): Expr
    requires e.Fn?
  {
    match e.fn
    case Sin => TaylorSine(n, e.operand)
    case Cos => TaylorCosine(n, e.operand)
  }

  /** `ln(u)`: the logarithm series around 1 at the engine's order. */
  function Ln(u: Expr): Expr {
    TaylorLn(Order, u)
  }

  /** `_e ^ u`: the exponential series at the engine's order. */
  function EPow(u: Expr): Expr {
    TaylorE(Order, u)
  }

  /** The summands of a right-nested sum, outermost first. */
  function Summands(e: Expr): seq<Expr> {
    if e.Bin? && e.bop == Add then [e.left] + Summands(e.right) else [e]
  }

  /** Order n gives the n + 1 sine terms T_n, ..., T_0, highest first. */
  lemma {:induction false} TaylorSineSummands(n: nat, u: Expr)
    ensures Summands(TaylorSine(n, u)) == seq(n + 1, i requires 0 <= i <= n => SineTerm(n - i, u))
  {
    if n > 0 {
      TaylorSineSummands(n - 1, u);
    }
  }

  /** Order n gives the n + 1 cosine terms T_n, ..., T_0, highest first. */
  lemma {:induction false} TaylorCosineSummands(n: nat, u: Expr)
    ensures Summands(TaylorCosine(n, u)) == seq(n + 1, i requires 0 <= i <= n => CosineTerm(n - i, u))
  {
    if n > 0 {
      TaylorCosineSummands(n - 1, u);
    }
  }

  /** Order n gives the n + 1 exponential terms T_n, ..., T_0. */
  lemma {:induction false} TaylorESummands(n: nat, u: Expr)
    ensures Summands(TaylorE(n, u)) == seq(n + 1, i requires 0 <= i <= n => ETerm(n - i, u))
  {
    if n > 0 {
      TaylorESummands(n - 1, u);
    }
  }

  /** Order n gives the n logarithm terms T_n, ..., T_1. */
  lemma {:induction false} TaylorLnSummands(n: nat, u: Expr)
    requires n >= 1
    ensures Summands(TaylorLn(n, u)) == seq(n, i requires 0 <= i < n => LnTerm(n - i, u))
  {
    if n > 1 {
      TaylorLnSummands(n - 1, u);
    }
  }

  /** The value of a closed operand, when it has one. */
  predicate HasValue(u: Expr) {
    Closed(u) && Eval(u).Number?
  }

  /** The k-th term of the exponential series, v^k / k!. */
  function ExpTerm(k: nat, v: real): real {
    PowNat(v, k) / (Factorial(k) as real)
  }

  /** The exponential partial sum: terms k = n down to 0. */
  function ExpPoly(n: nat, v: real): real {
    if n == 0 then ExpTerm(0, v) else ExpTerm(n, v) + ExpPoly(n - 1, v)
  }

  /** The k-th term of the logarithm series around 1,
      (-1)^(k+1) / k * (v - 1)^k. */
  function LogTerm(k: nat, v: real): real
    requires k >= 1
  {
    PowNat(-1.0, k + 1) / (k as real) * PowNat(v - 1.0, k)
  }

  /** The logarithm partial sum: terms k = n down to 1. */
  function LogPoly(n: nat, v: real): real
    requires n >= 1
  {
    if n == 1 then LogTerm(1, v) else LogTerm(n, v) + LogPoly(n - 1, v)
  }

  /** The coefficient c / d of a term, with d a positive unsigned literal. */
  lemma {:induction false} EvalCoefficient(k: nat, d: nat)
    requires d > 0
    ensures Closed(Bin(Div, Pow(k, Lit(-1)), Num(d, Unsigned)))
    ensures Eval(Bin(Div, Pow(k, Lit(-1)), Num(d, Unsigned))) == Number(PowNat(-1.0, k) / (d as real))
  {
    assert Closed(Pow(k, Lit(-1)));
    assert Eval(Pow(k, Lit(-1))) == Number(PowNat(-1.0, k));
  }

  /** A term ((-1)^k / d) * u^n evaluates to (-1)^k / d * a^n where u
      evaluates to a. */
  lemma {:induction false} EvalTerm(k: nat, d: nat, n: nat, u: Expr, a: real)
    requires d > 0 && Closed(u) && Eval(u) == Number(a)
    ensures Closed(Bin(Mul, Bin(Div, Pow(k, Lit(-1)), Num(d, Unsigned)), Pow(n, u)))
    ensures Eval(Bin(Mul, Bin(Div, Pow(k, Lit(-1)), Num(d, Unsigned)), Pow(n, u)))
            == Number(PowNat(-1.0, k) / (d as real) * PowNat(a, n))
  {
    EvalCoefficient(k, d);
    EvalPow(n, u, a);
    EvalBinary(Mul, Bin(Div, Pow(k, Lit(-1)), Num(d, Unsigned)), Pow(n, u),
               PowNat(-1.0, k) / (d as real), PowNat(a, n));
  }

  /** A sine term evaluates to the k-th term of the sine series. */
  lemma {:induction false} EvalSineTerm(k: nat, u: Expr)
    requires HasValue(u)
    ensures Closed(SineTerm(k, u)) && Eval(SineTerm(k, u)) == Number(SinTerm(k, Eval(u).value))
  {
    var d, n, a := Factorial(2 * k + 1), 2 * k + 1, Eval(u).value;
    assert SineTerm(k, u) == Bin(Mul, Bin(Div, Pow(k, Lit(-1)), Num(d, Unsigned)), Pow(n, u));
    EvalTerm(k, d, n, u, a);
    assert SinTerm(k, a) == PowNat(-1.0, k) / (d as real) * PowNat(a, n);
  }

  /** A cosine term evaluates to the k-th term of the cosine series. */
  lemma {:induction false} EvalCosineTerm(k: nat, u: Expr)
    requires HasValue(u)
    ensures Closed(CosineTerm(k, u)) && Eval(CosineTerm(k, u)) == Number(CosTerm(k, Eval(u).value))
  {
    var d, n, a := Factorial(2 * k), 2 * k, Eval(u).value;
    CosineTermIsTerm(k, u, d, n);
    EvalTerm(k, d, n, u, a);
    CosTermIsTerm(k, a, d, n);
  }

  lemma CosineTermIsTerm(k: nat, u: Expr, d: nat, n: nat)
    requires d == Factorial(2 * k) && n == 2 * k
    ensures CosineTerm(k, u) == Bin(Mul, Bin(Div, Pow(k, Lit(-1)), Num(d, Unsigned)), Pow(n, u))
  {
  }

  lemma CosTermIsTerm(k: nat, v: real, d: nat, n: nat)
    requires d == Factorial(2 * k) && n == 2 * k
    ensures CosTerm(k, v) == PowNat(-1.0, k) / (d as real) * PowNat(v, n)
  {
  }

  /** The sine expansion of order n evaluates to the sine polynomial of
      order n at the operand's value. */
  lemma {:induction false} EvalTaylorSine(n: nat, u: Expr)
    requires HasValue(u)
    ensures Closed(TaylorSine(n, u)) && Eval(TaylorSine(n, u)) == Number(SinPoly(n, Eval(u).value))
  {
    EvalSineTerm(n, u);
    if n > 0 {
      EvalTaylorSine(n - 1, u);
    }
  }

  /** The cosine expansion of order n evaluates to the cosine polynomial of
      order n at the operand's value. */
  lemma {:induction false} EvalTaylorCosine(n: nat, u: Expr)
    requires HasValue(u)
    ensures Closed(TaylorCosine(n, u)) && Eval(TaylorCosine(n, u)) == Number(CosPoly(n, Eval(u).value))
  {
    EvalCosineTerm(n, u);
    if n > 0 {
      EvalTaylorCosine(n - 1, u);
    }
  }

  /** `sin(u)()` and `cos(u)()` are the values of their expansions at the
      engine's order: evaluating a call is evaluating `expand<5>` of it. */
  lemma {:induction false} EvalExpand(e: Expr)
    requires e.Fn? && HasValue(e.operand)
    ensures Closed(e) && Closed(Expand(Order, e)) && Eval(Expand(Order, e)) == Eval(e)
  {
    match e.fn
    case Sin => EvalTaylorSine(Order, e.operand);
    case Cos => EvalTaylorCosine(Order, e.operand);
  }

  /** An exponential term evaluates to v^k / k!. */
  lemma {:induction false} EvalETerm(k: nat, u: Expr)
    requires HasValue(u)
    ensures Closed(ETerm(k, u))
    ensures Eval(ETerm(k, u)) == Number(ExpTerm(k, Eval(u).value))
  {
    assert Eval(Pow(k, u)) == Number(PowNat(Eval(u).value, k));
  }

  /** A logarithm term evaluates to (-1)^(k+1) / k * (v - 1)^k. */
  lemma {:induction false} EvalLnTerm(k: nat, u: Expr)
    requires k >= 1 && HasValue(u)
    ensures Closed(LnTerm(k, u))
    ensures Eval(LnTerm(k, u)) == Number(LogTerm(k, Eval(u).value))
  {
    var c := Bin(Div, Pow(k + 1, Lit(-1)), Num(k, Unsigned));
    EvalCoefficient(k + 1, k);
    var shifted := Bin(Add, Lit(-1), u);
    EvalBinary(Add, Lit(-1), u, -1.0, Eval(u).value);
    EvalPow(k, shifted, Eval(u).value - 1.0);
    EvalBinary(Mul, c, Pow(k, shifted), PowNat(-1.0, k + 1) / (k as real),
               PowNat(Eval(u).value - 1.0, k));
  }

  /** The exponential expansion evaluates to the exponential partial sum. */
  lemma {:induction false} EvalTaylorE(n: nat, u: Expr)
    requires HasValue(u)
    ensures Closed(TaylorE(n, u)) && Eval(TaylorE(n, u)) == Number(ExpPoly(n, Eval(u).value))
  {
    EvalETerm(n, u);
    if n > 0 {
      EvalTaylorE(n - 1, u);
    }
  }

  /** The logarithm expansion evaluates to the logarithm partial sum. */
  lemma {:induction false} EvalTaylorLn(n: nat, u: Expr)
    requires n >= 1 && HasValue(u)
    ensures Closed(TaylorLn(n, u)) && Eval(TaylorLn(n, u)) == Number(LogPoly(n, Eval(u).value))
  {
    EvalLnTerm(n, u);
    if n > 1 {
      EvalTaylorLn(n - 1, u);
    }
  }

  lemma {:induction false} TermVars(k: nat, u: Expr)
    ensures Vars(SineTerm(k, u)) == Vars(u) && Vars(CosineTerm(k, u)) == Vars(u)
    ensures Vars(ETerm(k, u)) == Vars(u) && Vars(LnTerm(k, u)) == Vars(u)
  {
    var c := Pow(k + 1, Lit(-1));
    assert Vars(Pow(k, Lit(-1))) == {} && Vars(c) == {};
    assert Vars(Bin(Div, Pow(k, Lit(-1)), Num(Factorial(2 * k + 1), Unsigned))) == {};
    assert Vars(Bin(Div, Pow(k, Lit(-1)), Num(Factorial(2 * k), Unsigned))) == {};
    assert Vars(Bin(Div, c, Num(k, Unsigned))) == {};
    assert Vars(Bin(Add, Lit(-1), u)) == Vars(u);
  }

  /** The sine expansion keeps exactly the operand's variables. */
  lemma {:induction false} TaylorSineVars(n: nat, u: Expr)
    ensures Vars(TaylorSine(n, u)) == Vars(u)
  {
    TermVars(n, u);
    if n > 0 {
      TaylorSineVars(n - 1, u);
    }
  }

  /** The cosine expansion keeps exactly the operand's variables. */
  lemma {:induction false} TaylorCosineVars(n: nat, u: Expr)
    ensures Vars(TaylorCosine(n, u)) == Vars(u)
  {
    TermVars(n, u);
    if n > 0 {
      TaylorCosineVars(n - 1, u);
    }
  }

  /** The exponential expansion keeps exactly the operand's variables. */
  lemma {:induction false} TaylorEVars(n: nat, u: Expr)
    ensures Vars(TaylorE(n, u)) == Vars(u)
  {
    TermVars(n, u);
    if n > 0 {
      TaylorEVars(n - 1, u);
    }
  }

  /** The logarithm expansion keeps exactly the operand's variables. */
  lemma {:induction false} TaylorLnVars(n: nat, u: Expr)
    requires n >= 1
    ensures Vars(TaylorLn(n, u)) == Vars(u)
  {
    TermVars(n, u);
    if n > 1 {
      TaylorLnVars(n - 1, u);
    }
  }

  /** The order-5 exponential partial sum at 2: 1 + 2 + 2 + 4/3 + 2/3 + 4/15. */
  lemma ExpPolyAtTwo()
    ensures ExpPoly(5, 2.0) == 109.0 / 15.0
  {
    assert PowNat(2.0, 5) == 32.0 && PowNat(2.0, 4) == 16.0 && PowNat(2.0, 3) == 8.0;
    assert Factorial(5) == 120 && Factorial(4) == 24 && Factorial(3) == 6 && Factorial(2) == 2;
    assert ExpTerm(5, 2.0) == 4.0 / 15.0 && ExpTerm(4, 2.0) == 2.0 / 3.0;
    assert ExpTerm(3, 2.0) == 4.0 / 3.0 && ExpTerm(2, 2.0) == 2.0;
  }

  /** `_e ^ 2` evaluates to the order-5 partial sum 109/15, not to e^2. */
  lemma EPowTwoExample()
    ensures Closed(EPow(Lit(2))) && Eval(EPow(Lit(2))) == Number(109.0 / 15.0)
  {
    EvalTaylorE(Order, Lit(2));
    ExpPolyAtTwo();
  }

  lemma SineTermPieces()
    ensures Stringify(Pow(1, Lit(-1))) == "((-1)^1)"
    ensures Stringify(Pow(3, Var('x'))) == "((x)^3)"
    ensures Stringify(Num(6, Unsigned)) == "6"
  {
  }

  lemma SineCoefficientString()
    ensures Stringify(Bin(Div, Pow(1, Lit(-1)), Num(6, Unsigned))) == "(((-1)^1)/6)"
  {
    SineTermPieces();
  }

  /** The printed form of the second sine term over `x`,
      "((((-1)^1)/6)*((x)^3))", as the printer assembles it. */
  lemma SineTermString()
    ensures Stringify(SineTerm(1, Var('x'))) == "(" + "(((-1)^1)/6)" + "*" + "((x)^3)" + ")"
  {
    assert Factorial(3) == 6;
    assert SineTerm(1, Var('x')) == Bin(Mul, Bin(Div, Pow(1, Lit(-1)), Num(6, Unsigned)), Pow(3, Var('x')));
    SineTermPieces();
    SineCoefficientString();
  }
}
