/**
 * `lopital`, `CanBeLimited` and `lim`: the limit heuristic.
 *
 * A tree without division is evaluated at the point. Otherwise the tree is
 * simplified to a single division and evaluated; while the value is "not a
 * number", L'Hôpital's rule is applied to the division and the new tree is
 * evaluated, for five rounds in all. Before each evaluation a feasibility
 * check rejects a tree that divides by the integer literal 0: on the first
 * round that returns the initial 0, on a later round the previous round's
 * "not a number". After five rounds without a value the answer is 0.
 */
module Limit {
  import opened Syntax
  import opened Evaluator
  import opened Binder
  import opened Derivation
  import opened Simplification
  import opened Tangent

  /** `lopital`: a division N/D becomes derive(N)/derive(D); any other tree
      is returned as it is. */
  function Lopital(e: Expr): (r: Expr)
    ensures Vars(r) <= Vars(e)
    ensures (r.Bin? && r.bop == Div) == (e.Bin? && e.bop == Div)
  {
    if e.Bin? && e.bop == Div then Bin(Div, Derive(e.left), Derive(e.right)) else e
  }

  /** `CanBeLimited`: every node passes, except a division whose divisor
      fails `CanBeLimitedDivisor`. */
  predicate CanBeLimited(e: Expr)
    decreases e, 0
  {
    match e
    case Num(_, _) => true
    case Const(_, _, _) => true
    case Var(_) => true
    case Unary(_, u) => CanBeLimited(u)
    case Pow(_, u) => CanBeLimited(u)
    case Bin(op, l, r) =>
      CanBeLimited(l) && (if op == Div then CanBeLimitedDivisor(r) else CanBeLimited(r))
    case Fn(_, u) => CanBeLimited(u)
  }

  /** `CanBeLimitedEx`, the check of a divisor: an `int` literal passes
      when it is nonzero, any other tree when it passes `CanBeLimited`. */
  predicate CanBeLimitedDivisor(r: Expr)
    decreases r, 1
  {
    if r.Num? && r.kind == Int then r.value != 0 else CanBeLimited(r)
  }

  /** The value of a candidate tree at the point: x bound to the integer
      `to`, then evaluated. */
  function ValueAt(d: Expr, x: char, to: int): Outcome
    requires Vars(d) <= {x}
  {
    BindCloses(d, x, Lit(to));
    Eval(Bind(d, x, Lit(to)))
  }

  /** The tree after n steps of L'Hôpital's rule. */
  function Steps(d: Expr, n: nat): (t: Expr)
    ensures Vars(t) <= Vars(d)
    decreases n
  {
    if n == 0 then d else Steps(Lopital(d), n - 1)
  }

  /** Rounds k to 5 of `Limit<id, T, true>::Get`, where d is the tree of
      round k and `result` the value the previous round left. */
  function Rounds(d: Expr, x: char, to: int, k: nat, result: Outcome): Outcome
    requires 1 <= k <= 6 && Vars(d) <= {x}
    decreases 6 - k
  {
    if k == 6 then Number(0.0)
    else if !CanBeLimited(d) then result
    else
      var v := ValueAt(d, x, to);
      if v.Number? then v else Rounds(Lopital(d), x, to, k + 1, v)
  }

  /** `lim`: the limit of e as x tends to `to`. The C++ compiles only for
      a tree over x whose first division, if any, can be found by
      `FirstDivision` and, unless it is itself the division, is binary. When
      the round-1 check fails the initial 0 comes back, so "not a number"
      needs the simplified tree to pass it. */
  function Lim(e: Expr, x: char, to: int): (r: Outcome)
    requires Vars(e) <= {x}
    requires HasDivision(e) ==> Findable(e) && e.Bin?
    ensures HasDivision(e) && r.NaN? ==> CanBeLimited(Simplify(e))
  {
    if !HasDivision(e) then ValueAt(e, x, to)
    else Rounds(Simplify(e), x, to, 1, Number(0.0))
  }

  /** None of the division nodes `ds` divides by the integer literal 0. */
  predicate NoZeroDivisor(ds: seq<Expr>) {
    forall i :: 0 <= i < |ds| ==> !(ds[i].Bin? && ds[i].right == Num(0, Int))
  }

  lemma {:induction false} NoZeroDivisorConcat(a: seq<Expr>, b: seq<Expr>)
    ensures NoZeroDivisor(a + b) <==> NoZeroDivisor(a) && NoZeroDivisor(b)
  {
    if NoZeroDivisor(a + b) {
      forall i | 0 <= i < |a|
        ensures !(a[i].Bin? && a[i].right == Num(0, Int))
      {
        assert (a + b)[i] == a[i];
      }
      forall i | 0 <= i < |b|
        ensures !(b[i].Bin? && b[i].right == Num(0, Int))
      {
        assert (a + b)[|a| + i] == b[i];
      }
    }
    if NoZeroDivisor(a) && NoZeroDivisor(b) {
      forall i | 0 <= i < |a + b|
        ensures !((a + b)[i].Bin? && (a + b)[i].right == Num(0, Int))
      {
        if i < |a| {
          assert (a + b)[i] == a[i];
        } else {
          assert (a + b)[i] == b[i - |a|];
        }
      }
    }
  }

  /** `CanBeLimited` fails exactly when some division of the tree divides
      by the integer literal 0. */
  lemma {:induction false} CanBeLimitedIff(e: Expr)
    ensures CanBeLimited(e) <==> NoZeroDivisor(Divisions(e))
  {
    match e
    case Num(_, _) =>
    case Const(_, _, _) =>
    case Var(_) =>
    case Unary(_, u) => CanBeLimitedIff(u);
    case Pow(_, u) => CanBeLimitedIff(u);
    case Fn(_, u) => CanBeLimitedIff(u);
    case Bin(op, l, r) =>
      CanBeLimitedIff(l);
      CanBeLimitedIff(r);
      var here: seq<Expr> := if op == Div then [e] else [];
      assert Divisions(e) == here + Divisions(l) + Divisions(r);
      NoZeroDivisorConcat(here + Divisions(l), Divisions(r));
      NoZeroDivisorConcat(here, Divisions(l));
      if op == Div {
        assert here[0] == e;
        assert NoZeroDivisor(here) <==> r != Num(0, Int);
      }
  }

  /** Rounds stop at the first value: if every round from k to k + m
      passes the check, the rounds before k + m have no value and round
      k + m has one, that value is the answer. */
  lemma {:induction false} RoundsFirstNumber(d: Expr, x: char, to: int, k: nat, result: Outcome, m: nat)
    requires 1 <= k && k + m <= 5 && Vars(d) <= {x}
    requires forall n :: 0 <= n <= m ==> CanBeLimited(Steps(d, n))
    requires forall n :: 0 <= n < m ==> ValueAt(Steps(d, n), x, to).NaN?
    requires ValueAt(Steps(d, m), x, to).Number?
    ensures Rounds(d, x, to, k, result) == ValueAt(Steps(d, m), x, to)
    decreases m
  {
    assert Steps(d, 0) == d;
    if m > 0 {
      ShiftSteps(d, m);
      RoundsFirstNumber(Lopital(d), x, to, k + 1, ValueAt(d, x, to), m - 1);
    }
  }

  /** Rounds that all pass the check and all have no value end in 0. */
  lemma {:induction false} RoundsExhausted(d: Expr, x: char, to: int, k: nat, result: Outcome)
    requires 1 <= k <= 6 && Vars(d) <= {x}
    requires forall n :: 0 <= n <= 5 - k ==> CanBeLimited(Steps(d, n)) && ValueAt(Steps(d, n), x, to).NaN?
    ensures Rounds(d, x, to, k, result) == Number(0.0)
    decreases 6 - k
  {
    if k < 6 {
      assert Steps(d, 0) == d;
      ShiftSteps(d, 5 - k);
      RoundsExhausted(Lopital(d), x, to, k + 1, ValueAt(d, x, to));
    }
  }

  /** A failed check ends the rounds with the value the previous round
      left: `result` when it is the first of them, "not a number" after a
      round without a value. */
  lemma {:induction false} RoundsInfeasible(d: Expr, x: char, to: int, k: nat, result: Outcome, m: nat)
    requires 1 <= k && k + m <= 5 && Vars(d) <= {x}
    requires forall n :: 0 <= n < m ==> CanBeLimited(Steps(d, n)) && ValueAt(Steps(d, n), x, to).NaN?
    requires !CanBeLimited(Steps(d, m))
    ensures m == 0 ==> Rounds(d, x, to, k, result) == result
    ensures m > 0 ==> Rounds(d, x, to, k, result) == NaN
    decreases m
  {
    assert Steps(d, 0) == d;
    if m > 0 {
      ShiftSteps(d, m);
      RoundsInfeasible(Lopital(d), x, to, k + 1, ValueAt(d, x, to), m - 1);
    }
  }

  /** "Not a number" comes only from a failed check: either this round's,
      with `result` already "not a number", or a later round's. */
  lemma {:induction false} RoundsNaN(d: Expr, x: char, to: int, k: nat, result: Outcome)
    requires 1 <= k <= 6 && Vars(d) <= {x}
    ensures Rounds(d, x, to, k, result).NaN? ==>
              (result.NaN? && !CanBeLimited(d)) || exists n :: 1 <= n <= 5 - k && !CanBeLimited(Steps(d, n))
    decreases 6 - k
  {
    if k < 6 && CanBeLimited(d) && ValueAt(d, x, to).NaN? {
      var v := ValueAt(d, x, to);
      var r := Rounds(Lopital(d), x, to, k + 1, v);
      assert Rounds(d, x, to, k, result) == r;
      if r.NaN? {
        assert Steps(d, 1) == Lopital(d);
        if !CanBeLimited(Lopital(d)) {
          assert k + 1 < 6;
          FailedStep(d, 5 - k, 1);
        } else {
          RoundsNaN(Lopital(d), x, to, k + 1, v);
          var n :| 1 <= n <= 4 - k && !CanBeLimited(Steps(Lopital(d), n));
          ShiftSteps(d, 5 - k);
          FailedStep(d, 5 - k, n + 1);
        }
      }
    }
  }

  /** A step j in 1..m whose check fails witnesses that some step does. */
  lemma FailedStep(d: Expr, m: int, j: nat)
    requires 1 <= j <= m && !CanBeLimited(Steps(d, j))
    ensures exists n :: 1 <= n <= m && !CanBeLimited(Steps(d, n))
  {
  }

  /** The steps after the first are the steps from `Lopital(d)`. */
  lemma {:induction false} ShiftSteps(d: Expr, m: nat)
    ensures forall n :: 0 <= n < m ==> Steps(Lopital(d), n) == Steps(d, n + 1)
  {
  }

  /** `lim` of a tree with a division returns the first value among the
      rounds 1..m+1 when every check up to it passes. */
  lemma {:induction false} LimFirstNumber(e: Expr, x: char, to: int, m: nat)
    requires Vars(e) <= {x} && HasDivision(e) && Findable(e) && e.Bin? && m <= 4
    requires forall n :: 0 <= n <= m ==> CanBeLimited(Steps(Simplify(e), n))
    requires forall n :: 0 <= n < m ==> ValueAt(Steps(Simplify(e), n), x, to).NaN?
    requires ValueAt(Steps(Simplify(e), m), x, to).Number?
    ensures Lim(e, x, to) == ValueAt(Steps(Simplify(e), m), x, to)
  {
    RoundsFirstNumber(Simplify(e), x, to, 1, Number(0.0), m);
  }

  /** `lim` returns 0 after five rounds without a value. */
  lemma {:induction false} LimExhausted(e: Expr, x: char, to: int)
    requires Vars(e) <= {x} && HasDivision(e) && Findable(e) && e.Bin?
    requires forall n :: 0 <= n <= 4 ==>
               CanBeLimited(Steps(Simplify(e), n)) && ValueAt(Steps(Simplify(e), n), x, to).NaN?
    ensures Lim(e, x, to) == Number(0.0)
  {
    RoundsExhausted(Simplify(e), x, to, 1, Number(0.0));
  }

  /** `lim` returns the initial 0 when the round-1 check fails, and "not a
      number" when the check of a later round fails. */
  lemma {:induction false} LimInfeasible(e: Expr, x: char, to: int, m: nat)
    requires Vars(e) <= {x} && HasDivision(e) && Findable(e) && e.Bin? && m <= 4
    requires forall n :: 0 <= n < m ==>
               CanBeLimited(Steps(Simplify(e), n)) && ValueAt(Steps(Simplify(e), n), x, to).NaN?
    requires !CanBeLimited(Steps(Simplify(e), m))
    ensures m == 0 ==> Lim(e, x, to) == Number(0.0)
    ensures m > 0 ==> Lim(e, x, to) == NaN
  {
    RoundsInfeasible(Simplify(e), x, to, 1, Number(0.0), m);
  }

  /** `lim` of a tree with a division is "not a number" only when the
      check of one of rounds 2 to 5 fails after rounds without a value. */
  lemma {:induction false} LimNaN(e: Expr, x: char, to: int)
    requires Vars(e) <= {x} && HasDivision(e) && Findable(e) && e.Bin?
    ensures Lim(e, x, to).NaN? ==> exists n :: 1 <= n <= 4 && !CanBeLimited(Steps(Simplify(e), n))
  {
    RoundsNaN(Simplify(e), x, to, 1, Number(0.0));
  }

  /** A step of L'Hôpital's rule computes the ratio of the slopes: for
      smooth numerator and denominator over x, defined at c, the new
      division evaluates at c to n'(c) / d'(c) when d'(c) is not zero. */
  lemma {:induction false} LopitalRatio(n: Expr, d: Expr, x: char, c: int)
    requires Vars(n) <= {x} && Vars(d) <= {x} && Smooth(n) && Smooth(d)
    requires Forward(n, c as real).Defined? && Forward(d, c as real).Defined?
    requires Forward(d, c as real).dual.slope != 0.0
    ensures Vars(Lopital(Bin(Div, n, d))) <= {x}
    ensures ValueAt(Lopital(Bin(Div, n, d)), x, c)
            == Number(Forward(n, c as real).dual.slope / Forward(d, c as real).dual.slope)
  {
    DeriveIsSlope(n, x, c);
    DeriveIsSlope(d, x, c);
    var bn, bd := Bind(Derive(n), x, Lit(c)), Bind(Derive(d), x, Lit(c));
    assert Bind(Lopital(Bin(Div, n, d)), x, Lit(c)) == Bin(Div, bn, bd);
    EvalBinary(Div, bn, bd, Forward(n, c as real).dual.slope, Forward(d, c as real).dual.slope);
  }

  /** The tree differentiated n times. */
  function DeriveN(t: Expr, n: nat): (d: Expr)
    ensures Vars(d) <= Vars(t)
    decreases n
  {
    if n == 0 then t else DeriveN(Derive(t), n - 1)
  }

  /** n steps of L'Hôpital's rule on a division l/r give the quotient of
      the n-th derivatives of l and r. */
  lemma {:induction false} StepsOfDivision(l: Expr, r: Expr, n: nat)
    ensures Steps(Bin(Div, l, r), n) == Bin(Div, DeriveN(l, n), DeriveN(r, n))
    decreases n
  {
    if n > 0 {
      StepsOfDivision(Derive(l), Derive(r), n - 1);
    }
  }

  /** A derivative passes the check when the tree does: the only divisors
      it brings in are squares of divisors already there. */
  lemma {:induction false} DeriveCanBeLimited(t: Expr)
    requires CanBeLimited(t)
    ensures CanBeLimited(Derive(t))
  {
    match t
    case Num(_, _) =>
    case Const(_, _, _) =>
    case Var(_) =>
    case Unary(_, u) => DeriveCanBeLimited(u);
    case Pow(_, u) => DeriveCanBeLimited(u);
    case Fn(_, u) => DeriveCanBeLimited(u);
    case Bin(op, l, r) =>
      assert CanBeLimited(r) by {
        if op == Div {
          assert CanBeLimitedDivisor(r);
        }
      }
      DeriveCanBeLimited(l);
      DeriveCanBeLimited(r);
  }

  /** Every derivative of a tree that passes the check passes it. */
  lemma {:induction false} DeriveNCanBeLimited(t: Expr, n: nat)
    requires CanBeLimited(t)
    ensures CanBeLimited(DeriveN(t, n))
    decreases n
  {
    if n > 0 {
      DeriveCanBeLimited(t);
      DeriveNCanBeLimited(Derive(t), n - 1);
    }
  }

  /** Every derivative of a binary node is a binary node. */
  lemma {:induction false} DeriveNBinary(t: Expr, n: nat)
    requires t.Bin?
    ensures DeriveN(t, n).Bin?
    decreases n
  {
    if n > 0 {
      assert Derive(t) == BinaryRule(t.bop, t.left, t.right, Derive(t.left), Derive(t.right));
      DeriveNBinary(Derive(t), n - 1);
    }
  }

  /** t carries the factor a: t is a product a*y, or a sum or difference
      with an operand that carries a. */
  predicate Carries(t: Expr, a: Expr) {
    t.Bin? && ((t.bop == Mul && t.left == a)
               || ((t.bop == Add || t.bop == Sub) && (Carries(t.left, a) || Carries(t.right, a))))
  }

  /** The product rule keeps the factor: the derivative of a*y is
      da*y + a*dy. */
  lemma {:induction false} DeriveCarries(t: Expr, a: Expr)
    requires Carries(t, a)
    ensures Carries(Derive(t), a)
  {
    if t.bop != Mul {
      if Carries(t.left, a) {
        DeriveCarries(t.left, a);
      } else {
        DeriveCarries(t.right, a);
      }
    }
  }

  lemma {:induction false} DeriveNCarries(t: Expr, a: Expr, n: nat)
    requires Carries(t, a)
    ensures Carries(DeriveN(t, n), a)
    decreases n
  {
    if n > 0 {
      DeriveCarries(t, a);
      DeriveNCarries(Derive(t), a, n - 1);
    }
  }

  /** Binding a letter keeps the (bound) factor. */
  lemma {:induction false} BindCarries(t: Expr, a: Expr, x: char, v: Expr)
    requires Carries(t, a)
    ensures Carries(Bind(t, x, v), Bind(a, x, v))
  {
    if t.bop != Mul {
      if Carries(t.left, a) {
        BindCarries(t.left, a, x, v);
      } else {
        BindCarries(t.right, a, x, v);
      }
    }
  }

  /** A closed tree that carries a factor without value has no value. */
  lemma {:induction false} CarriesNaN(t: Expr, a: Expr)
    requires Closed(t) && Closed(a) && Carries(t, a) && Eval(a).NaN?
    ensures Eval(t).NaN?
  {
    assert Closed(t.left) && Closed(t.right);
    if t.bop != Mul {
      if Carries(t.left, a) {
        CarriesNaN(t.left, a);
      } else {
        CarriesNaN(t.right, a);
      }
    }
  }

  /** When the dividend of the simplified tree carries a factor that has
      no value at the point, and the tree passes the check with a binary
      divisor, every round keeps failing to have a value and `lim` gives
      up with 0: differentiation never removes the factor. */
  lemma {:induction false} LimCarriedNaN(e: Expr, x: char, to: int, a: Expr)
    requires Vars(e) <= {x} && HasDivision(e) && Findable(e) && e.Bin?
    requires Carries(Simplify(e).left, a) && Vars(a) <= {x} && ValueAt(a, x, to).NaN?
    requires CanBeLimited(Simplify(e).left) && CanBeLimited(Simplify(e).right) && Simplify(e).right.Bin?
    ensures Lim(e, x, to) == Number(0.0)
  {
    var s := Simplify(e);
    assert Vars(s.left) <= {x} && Vars(s.right) <= {x};
    forall n | 0 <= n <= 4
      ensures CanBeLimited(Steps(s, n)) && ValueAt(Steps(s, n), x, to).NaN?
    {
      StepsOfDivision(s.left, s.right, n);
      var l, r := DeriveN(s.left, n), DeriveN(s.right, n);
      DeriveNCanBeLimited(s.left, n);
      DeriveNCanBeLimited(s.right, n);
      DeriveNBinary(s.right, n);
      assert CanBeLimited(Bin(Div, l, r));
      DeriveNCarries(s.left, a, n);
      BindCarries(l, a, x, Lit(to));
      BindCloses(l, x, Lit(to));
      BindCloses(r, x, Lit(to));
      BindCloses(a, x, Lit(to));
      CarriesNaN(Bind(l, x, Lit(to)), Bind(a, x, Lit(to)));
      BindBin(Div, l, r, x, Lit(to));
      EvalBin(Div, Bind(l, x, Lit(to)), Bind(r, x, Lit(to)));
    }
    LimExhausted(e, x, to);
  }
}
