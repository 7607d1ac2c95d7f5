/**
 * `operator std::string` of every node: a fully parenthesised rendering.
 * Both headers print the same way.
 */
module Printer {
  import opened Syntax

  /** The decimal digits of `n`, most significant first. */
  function NatToString(n: nat): (s: string)
    ensures |s| >= 1
    ensures forall i :: 0 <= i < |s| ==> '0' <= s[i] <= '9'
    ensures |s| > 1 ==> s[0] != '0'
  {
    var d := [(('0' as int) + n % 10) as char];
    if n < 10 then d else NatToString(n / 10) + d
  }

  /** `std::to_string` of an integral value: an optional minus sign, then
      the decimal digits. */
  function IntToString(n: int): (s: string)
    ensures |s| >= 1
  {
    if n < 0 then "-" + NatToString(-n) else NatToString(n)
  }

  /** The value of a string of decimal digits. */
  function DigitsValue(s: string): nat
    requires forall i :: 0 <= i < |s| ==> '0' <= s[i] <= '9'
  {
    if s == [] then 0
    else 10 * DigitsValue(s[..|s| - 1]) + (s[|s| - 1] as int - '0' as int)
  }

  /** Reading back the digits of a printed number gives the number. */
  lemma {:induction false} NatToStringRoundTrip(n: nat)
    ensures DigitsValue(NatToString(n)) == n
  {
    var d := [(('0' as int) + n % 10) as char];
    if n >= 10 {
      var s := NatToString(n / 10);
      NatToStringRoundTrip(n / 10);
      assert (s + d)[..|s + d| - 1] == s;
    }
  }

  /** Distinct numbers print differently. */
  lemma {:induction false} NatToStringInjective(m: nat, n: nat)
    requires NatToString(m) == NatToString(n)
    ensures m == n
  {
    NatToStringRoundTrip(m);
    NatToStringRoundTrip(n);
  }

  /** `std::to_string` of a literal: integral types print their decimal
      digits, floating types add six decimals ("%f"). */
  function LiteralToString(value: int, kind: Scalar): string {
    if kind == Floating then IntToString(value) + ".000000" else IntToString(value)
  }

  function UnarySymbol(op: UnaryOp): string {
    match op
    case Neg => "-"
    case Inc => "++"
    case Dec => "--"
  }

  function BinarySymbol(op: BinaryOp): string {
    match op
    case Add => "+"
    case Sub => "-"
    case Mul => "*"
    case Div => "/"
  }

  function FunctionName(f: Function): string {
    match f
    case Sin => "sin"
    case Cos => "cos"
  }

  /** The text of an expression. */
  function Stringify(e: Expr): string {
    match e
    case Num(v, k) => LiteralToString(v, k)
    case Const(name, _, _) => name
    case Var(c) => [c]
    case Unary(op, u) => "(" + UnarySymbol(op) + Stringify(u) + ")"
    case Pow(p, u) => "((" + Stringify(u) + ")^" + IntToString(p) + ")"
    case Bin(op, l, r) => "(" + Stringify(l) + BinarySymbol(op) + Stringify(r) + ")"
    case Fn(f, u) => FunctionName(f) + "(" + Stringify(u) + ")"
  }

  /** The number of occurrences of `c` in `s`. */
  function Count(s: string, c: char): nat {
    if s == [] then 0 else (if s[0] == c then 1 else 0) + Count(s[1..], c)
  }

  lemma {:induction false} CountConcat(a: string, b: string, c: char)
    ensures Count(a + b, c) == Count(a, c) + Count(b, c)
  {
    if a == [] {
      assert a + b == b;
    } else {
      assert (a + b)[0] == a[0];
      assert (a + b)[1..] == a[1..] + b;
      CountConcat(a[1..], b, c);
    }
  }

  lemma {:induction false} CountAbsent(s: string, c: char)
    requires forall i :: 0 <= i < |s| ==> s[i] != c
    ensures Count(s, c) == 0
  {
    if s != [] {
      CountAbsent(s[1..], c);
    }
  }

  lemma {:induction false} CountConcat3(a: string, b: string, d: string, c: char)
    ensures Count(a + b + d, c) == Count(a, c) + Count(b, c) + Count(d, c)
  {
    CountConcat(a + b, d, c);
    CountConcat(a, b, c);
  }

  lemma {:induction false} NatToStringNoParens(n: nat)
    ensures Count(NatToString(n), '(') == 0 && Count(NatToString(n), ')') == 0
  {
    var d := [(('0' as int) + n % 10) as char];
    if n >= 10 {
      NatToStringNoParens(n / 10);
      CountConcat(NatToString(n / 10), d, '(');
      CountConcat(NatToString(n / 10), d, ')');
    }
  }

  lemma {:induction false} IntToStringNoParens(n: int)
    ensures Count(IntToString(n), '(') == 0 && Count(IntToString(n), ')') == 0
  {
    NatToStringNoParens(if n < 0 then -n else n);
    if n < 0 {
      CountConcat("-", NatToString(-n), '(');
      CountConcat("-", NatToString(-n), ')');
    }
  }

  /** Leaf names contain no parenthesis. */
  predicate ParenFreeNames(e: Expr) {
    match e
    case Num(_, _) => true
    case Const(name, _, _) => Count(name, '(') == 0 && Count(name, ')') == 0
    case Var(c) => c != '(' && c != ')'
    case Unary(_, u) => ParenFreeNames(u)
    case Pow(_, u) => ParenFreeNames(u)
    case Bin(_, l, r) => ParenFreeNames(l) && ParenFreeNames(r)
    case Fn(_, u) => ParenFreeNames(u)
  }

  /** The number of parenthesis pairs the printer emits: one around every
      unary, binary and call node, two around every power. */
  function Composites(e: Expr): nat {
    match e
    case Num(_, _) => 0
    case Const(_, _, _) => 0
    case Var(_) => 0
    case Unary(_, u) => 1 + Composites(u)
    case Pow(_, u) => 2 + Composites(u)
    case Bin(_, l, r) => 1 + Composites(l) + Composites(r)
    case Fn(_, u) => 1 + Composites(u)
  }

  /** The rendering is fully parenthesised: it opens and closes exactly one
      pair per composite node (two per power) and no other. */
  lemma {:induction false} StringifyBalanced(e: Expr)
    requires ParenFreeNames(e)
    ensures Count(Stringify(e), '(') == Composites(e)
    ensures Count(Stringify(e), ')') == Composites(e)
  {
    match e
    case Num(v, k) =>
      IntToStringNoParens(v);
      if k == Floating {
        CountConcat(IntToString(v), ".000000", '(');
        CountConcat(IntToString(v), ".000000", ')');
      }
    case Const(_, _, _) =>
    case Var(c) =>
    case Unary(op, u) =>
      StringifyBalanced(u);
      UnaryBalanced(op, Stringify(u));
    case Pow(p, u) =>
      StringifyBalanced(u);
      IntToStringNoParens(p);
      PowBalanced(Stringify(u), IntToString(p));
    case Bin(op, l, r) =>
      StringifyBalanced(l);
      StringifyBalanced(r);
      BinBalanced(op, Stringify(l), Stringify(r));
    case Fn(f, u) =>
      StringifyBalanced(u);
      CallBalanced(f, Stringify(u));
  }

  lemma {:induction false} UnaryBalanced(op: UnaryOp, s: string)
    ensures Count("(" + UnarySymbol(op) + s + ")", '(') == Count(s, '(') + 1
    ensures Count("(" + UnarySymbol(op) + s + ")", ')') == Count(s, ')') + 1
  {
    var pre := "(" + UnarySymbol(op);
    CountAbsent(UnarySymbol(op), '(');
    CountAbsent(UnarySymbol(op), ')');
    CountConcat("(", UnarySymbol(op), '(');
    CountConcat("(", UnarySymbol(op), ')');
    CountConcat3(pre, s, ")", '(');
    CountConcat3(pre, s, ")", ')');
  }

  lemma {:induction false} PowBalanced(s: string, p: string)
    requires Count(p, '(') == 0 && Count(p, ')') == 0
    ensures Count("((" + s + ")^" + p + ")", '(') == Count(s, '(') + 2
    ensures Count("((" + s + ")^" + p + ")", ')') == Count(s, ')') + 2
  {
    CountConcat3("((", s, ")^", '(');
    CountConcat3("((", s, ")^", ')');
    CountConcat3("((" + s + ")^", p, ")", '(');
    CountConcat3("((" + s + ")^", p, ")", ')');
  }

  lemma {:induction false} BinBalanced(op: BinaryOp, a: string, b: string)
    ensures Count("(" + a + BinarySymbol(op) + b + ")", '(') == Count(a, '(') + Count(b, '(') + 1
    ensures Count("(" + a + BinarySymbol(op) + b + ")", ')') == Count(a, ')') + Count(b, ')') + 1
  {
    CountConcat3("(", a, BinarySymbol(op), '(');
    CountConcat3("(", a, BinarySymbol(op), ')');
    CountConcat3("(" + a + BinarySymbol(op), b, ")", '(');
    CountConcat3("(" + a + BinarySymbol(op), b, ")", ')');
  }

  lemma {:induction false} CallBalanced(f: Function, s: string)
    ensures Count(FunctionName(f) + "(" + s + ")", '(') == Count(s, '(') + 1
    ensures Count(FunctionName(f) + "(" + s + ")", ')') == Count(s, ')') + 1
  {
    var pre := FunctionName(f) + "(";
    CountAbsent(FunctionName(f), '(');
    CountAbsent(FunctionName(f), ')');
    CountConcat(FunctionName(f), "(", '(');
    CountConcat(FunctionName(f), "(", ')');
    CountConcat3(pre, s, ")", '(');
    CountConcat3(pre, s, ")", ')');
  }

  /** The first test of the suite: `(x + (2 + x) - 1) / (2 * x + 1)` with
      `x` the literal 3 prints "(((3+(2+3))-1)/((2*3)+1))", written here as
      the printer assembles it from the strings of the two operands. */
  lemma StringifyArithmeticExample()
    ensures Stringify(Bin(Div, Bin(Sub, Bin(Add, Lit(3), Bin(Add, Lit(2), Lit(3))), Lit(1)),
                               Bin(Add, Bin(Mul, Lit(2), Lit(3)), Lit(1))))
            == "(" + "((3+(2+3))-1)" + "/" + "((2*3)+1)" + ")"
  {
    DividendString();
    DivisorString();
  }

  lemma DividendString()
    ensures Stringify(Bin(Sub, Bin(Add, Lit(3), Bin(Add, Lit(2), Lit(3))), Lit(1))) == "((3+(2+3))-1)"
  {
    SmallLiteralStrings();
    assert Stringify(Bin(Add, Lit(2), Lit(3))) == "(2+3)";
    assert Stringify(Bin(Add, Lit(3), Bin(Add, Lit(2), Lit(3)))) == "(3+(2+3))";
  }

  lemma DivisorString()
    ensures Stringify(Bin(Add, Bin(Mul, Lit(2), Lit(3)), Lit(1))) == "((2*3)+1)"
  {
    SmallLiteralStrings();
    assert Stringify(Bin(Mul, Lit(2), Lit(3))) == "(2*3)";
  }

  /** The small integer literals print as single digits. */
  lemma SmallLiteralStrings()
    ensures Stringify(Lit(0)) == "0" && Stringify(Lit(1)) == "1"
    ensures Stringify(Lit(2)) == "2" && Stringify(Lit(3)) == "3"
  {
  }
}
