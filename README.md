# Zinc symbolic algebra, modelled in Dafny

Zinc is a C++ template library for symbolic algebra. An expression is a tree
of literals, the constants `pi` and `e`, one-letter variables, the unary
operators `-`, `++` and `--`, integer powers, the four binary operators and
the functions `sin` and `cos`. The library prints a tree as a fully
parenthesised string and evaluates a closed tree to a number. It binds a
letter to a value or to another tree, and expands `sin`, `cos`, `e^x` and
`ln` into Taylor polynomials. It also differentiates a tree by the textbook
rules and rewrites a sum or difference containing a division over a common
denominator. Finally it computes limits by applying L'Hôpital's rule for at
most five rounds. `Zinc/Zinc.hpp` is the current variant. `Zinc/Expression.hpp`
is an earlier one: its derivative has different literal types, it has no
simplifier and no "can this be limited" check, and its limit never fails.

The C++ encodes every tree in its static type. Here a tree is the datatype
`Syntax.Expr`, and each template specialisation becomes one case of a
function on it:

- `syntax.dfy`: the trees, their letters (`Vars`), closedness, and the list of divisions in left-to-right order.
- `printer.dfy`: `operator std::string` of every node.
- `evaluator.dfy`: `operator()` of every node, over exact reals, with the outcome `NaN` for a zero divisor.
- `binder.dfy`: `bind`.
- `series.dfy`: the Taylor expansions, `expand` and `_e ^`.
- `derivation.dfy`: `derive` of the current variant.
- `tangent.dfy`: a reference semantics by dual numbers (forward-mode differentiation), against which `derive` is proved correct. It is independent of `derive` except for the derivatives of `sin` and `cos`, which it takes as `cos` and `-sin` evaluated by the engine's polynomials.
- `simplification.dfy`: `HasDivision`, `FirstDivision` and the `Simplifier`.
- `limit.dfy`: `Lopital`, `CanBeLimited` and `lim` of the current variant.
- `limit_examples.dfy`: the limits of the test suite.
- `legacy.dfy`: `derive`, `Lopital` and `lim` of the earlier variant, each proved to agree with the current one wherever the two should.

## Model

| member | source | states |
|---|---|---|
| Syntax.Pi | Zinc/Zinc.hpp:124-137 | `_pi` is the constant named "pi" with a nonzero denominator |
| Syntax.E | Zinc/Zinc.hpp:124-137 | `_e` is the constant named "e" with a nonzero denominator |
| Syntax.Divisions | Zinc/Zinc.hpp:1065-1111 | the divisions of a tree, left to right, are all division nodes |
| Printer.NatToString | Zinc/Zinc.hpp:83-86 | `std::to_string` of a natural number is a nonempty string of decimal digits without a leading zero |
| Printer.NatToStringRoundTrip | Zinc/Zinc.hpp:83-86 | reading the printed digits back gives the number |
| Printer.NatToStringInjective | Zinc/Zinc.hpp:83-86 | distinct numbers print differently |
| Printer.IntToStringNoParens | Zinc/Zinc.hpp:83-86 | a printed integer holds no parenthesis |
| Printer.StringifyBalanced | Zinc/Zinc.hpp:367-496 | every printed tree has as many `(` as `)`, one pair per unary, binary and function node and two per power node |
| Printer.Stringify | Zinc/Zinc.hpp:367-496 | defined node by node as the source prints; bracket balance is stated by Printer.StringifyBalanced |
| Printer.StringifyArithmeticExample | Zinc.Test/Basic.cpp:13-21 | the first tree of the suite prints "(((3+(2+3))-1)/((2*3)+1))" |
| Evaluator.Eval | Zinc/Zinc.hpp:168-288 | defined node by node as the operators evaluate, with a zero power 1 whatever its operand (Zinc/Zinc.hpp:334-342); stated by Evaluator.EvalDivisorsNonzero, Evaluator.EvalZeroPowerExample, Evaluator.EvalArithmeticExample and Series.EvalExpand |
| Evaluator.Power | Zinc/Zinc.hpp:307-347 | defined as `Pow<p>`; stated by Evaluator.PowerDefined and Evaluator.PowerStep |
| Evaluator.Factorial | Zinc/Zinc.hpp:290-305 | `factorial<n>()` is at least 1 and at least n |
| Evaluator.FactorialMonotone | Zinc/Zinc.hpp:290-305 | m <= n implies m! <= n! |
| Evaluator.FactorialWidth | Zinc/Zinc.hpp:290-305 | 20! fits in the 64-bit `uintmax_t` of `factorial<f>()` and 21! does not |
| Evaluator.FactorialsFitAtOrder | Zinc/Zinc.hpp:11 | every factorial up to (2 * 5 + 1)! fits in 64 bits, so the expansions at `CONFIDENCE_LEVEL` do not wrap |
| Evaluator.PowerDefined | Zinc/Zinc.hpp:307-365 | `Pow<p>` has a value exactly when p >= 0 or the base is nonzero, and a negative power is the reciprocal of the positive one |
| Evaluator.PowerStep | Zinc/Zinc.hpp:307-365 | v^(p+1) = v * v^p for every integer p where v^p has a value |
| Evaluator.PowNatAdd | Zinc/Zinc.hpp:307-347 | `PowBase` adds exponents: v^(m+n) = v^m * v^n |
| Evaluator.SinPolyAtZero | Zinc/Zinc.hpp:646-669 | the sine polynomial of any order is 0 at 0 |
| Evaluator.CosPolyAtZero | Zinc/Zinc.hpp:671-694 | the cosine polynomial of any order is 1 at 0 |
| Evaluator.EvalDivisorsNonzero | Zinc/Zinc.hpp:258-288 | a tree with a value has a nonzero value in the divisor of every division evaluation needs, i.e. every one not under a zero power |
| Evaluator.EvaluatedDivisions | Zinc/Zinc.hpp:334-342 | the divisions evaluation needs are division nodes; those under `PowBase<0, false>`, which ignores its operand, are left out |
| Evaluator.EvaluatedDivisionsWithoutZeroPower | Zinc/Zinc.hpp:334-342 | in a tree without zero powers evaluation needs every division |
| Evaluator.EvalZeroPowerExample | Zinc/Zinc.hpp:334-342 | (0/0)^0 is 1 although its operand has no value and divides by 0 |
| Evaluator.EvalArithmeticExample | Zinc.Test/Basic.cpp:23-30 | (3 + (2 + 3) - 1) / (2 * 3 + 1) is 1 |
| Binder.Bind | Zinc/Zinc.hpp:556-644 | defined node by node as the source binds; stated by the lemmas below |
| Binder.BindVars | Zinc/Zinc.hpp:556-644 | binding removes the letter and brings in the value's letters exactly where the letter occurred; all other letters stay |
| Binder.BindCloses | Zinc/Zinc.hpp:556-644 | binding the only letter of a tree to a closed value gives a closed tree |
| Binder.BindAbsent | Zinc/Zinc.hpp:556-644 | binding a letter that does not occur leaves the tree unchanged |
| Binder.BindTwice | Zinc/Zinc.hpp:556-644 | after a letter is bound to a value without it, binding it again changes nothing |
| Binder.BindCommute | Zinc/Zinc.hpp:556-644 | bindings of two different letters to closed values commute |
| Binder.BindIdentity | Zinc/Zinc.hpp:556-644 | binding a letter to its own variable is the identity |
| Binder.BindStringExample | Zinc.Test/Basic.cpp:59-66 | the suite's tree with a bound to 3 prints "(((3+(2+3))-b)/((2*3)+1))" |
| Binder.BindValueExample | Zinc.Test/Basic.cpp:49-57 | with a bound to 3 and b bound to 1 that tree evaluates to 1 |
| Binder.BindExpressionExample | Zinc.Test/Basic.cpp:185-192 | `a + 1` with a bound to `sin(b)` prints "(sin(b)+1)" |
| Series.TaylorSine | Zinc/Zinc.hpp:646-669 | defined as the source; stated by Series.TaylorSineSummands and Series.EvalTaylorSine |
| Series.TaylorCosine | Zinc/Zinc.hpp:671-694 | defined as the source; stated by Series.TaylorCosineSummands and Series.EvalTaylorCosine |
| Series.TaylorE | Zinc/Zinc.hpp:696-719 | defined as the source; stated by Series.TaylorESummands and Series.EvalTaylorE |
| Series.TaylorLn | Zinc/Zinc.hpp:721-744 | defined as the source; stated by Series.TaylorLnSummands and Series.EvalTaylorLn |
| Series.Ln | Zinc/Zinc.hpp:746-750 | the logarithm series at order 5 |
| Series.Expand | Zinc/Zinc.hpp:794-823 | `expand` of a `sin` or `cos` call; stated by Series.EvalExpand |
| Series.EPow | Zinc/Zinc.hpp:1475-1481 | the exponential series at order 5; stated by Series.EPowTwoExample |
| Series.TaylorSineSummands | Zinc/Zinc.hpp:646-669 | the sine expansion of order n is the sum of the terms n down to 0 |
| Series.TaylorCosineSummands | Zinc/Zinc.hpp:671-694 | the cosine expansion of order n is the sum of the terms n down to 0 |
| Series.TaylorESummands | Zinc/Zinc.hpp:696-719 | the exponential expansion of order n is the sum of the terms n down to 0 |
| Series.TaylorLnSummands | Zinc/Zinc.hpp:721-744 | the logarithm expansion of order n is the sum of the terms n down to 1 |
| Series.EvalTaylorSine | Zinc/Zinc.hpp:646-669 | the sine expansion evaluates to the sine Taylor polynomial at the operand's value |
| Series.EvalTaylorCosine | Zinc/Zinc.hpp:671-694 | the cosine expansion evaluates to the cosine Taylor polynomial at the operand's value |
| Series.EvalTaylorE | Zinc/Zinc.hpp:696-719 | the exponential expansion evaluates to the sum of v^k / k! |
| Series.EvalTaylorLn | Zinc/Zinc.hpp:721-744 | the logarithm expansion evaluates to the sum of (-1)^(k+1) (v - 1)^k / k |
| Series.EvalExpand | Zinc/Zinc.hpp:752-823 | evaluating `sin(u)` or `cos(u)` gives the same as evaluating its `expand<5>` |
| Series.TaylorSineVars | Zinc/Zinc.hpp:646-669 | the sine expansion has exactly the operand's letters |
| Series.TaylorCosineVars | Zinc/Zinc.hpp:671-694 | the cosine expansion has exactly the operand's letters |
| Series.TaylorEVars | Zinc/Zinc.hpp:696-719 | the exponential expansion has exactly the operand's letters |
| Series.TaylorLnVars | Zinc/Zinc.hpp:721-744 | the logarithm expansion has exactly the operand's letters |
| Series.EPowTwoExample | Zinc/Zinc.hpp:1477-1481 | `_e ^ 2` evaluates to the order-5 partial sum 109/15 |
| Series.SineTermString | Zinc/Zinc.hpp:646-653 | the second sine term over x prints "((((-1)^1)/6)*((x)^3))" |
| Derivation.BinaryRule | Zinc/Zinc.hpp:847-926 | the sum, difference, product and quotient rules bring in no new letter, and the quotient rule divides by the square of the divisor |
| Derivation.Derive | Zinc/Zinc.hpp:831-1023 | a derivative never brings in a letter the tree does not have |
| Derivation.DeriveClosed | Zinc/Zinc.hpp:942-960 | a tree without letters and without `++`/`--` has derivative 0 wherever that derivative has a value |
| Derivation.DeriveIncrementExample | Zinc/Zinc.hpp:928-940 | the derivative of `++x` is `++1`, which evaluates to 2 |
| Derivation.DeriveSineOfLiteralExample | Zinc.Test/Basic.cpp:287-294 | the derivative of `sin(2)` is `cos(2)*0` |
| Derivation.DeriveCubeExample | Zinc.Test/Basic.cpp:317-329 | the derivative of `x^3` is `(3*x^2)*1`, which is 12 at 2 |
| Derivation.DeriveProductExample | Zinc.Test/Basic.cpp:331-338 | the derivative of `x*y` prints "((1*y)+(x*1))" |
| Derivation.DeriveProductSineExample | Zinc.Test/Basic.cpp:340-347 | the derivative of `x*sin(y)` prints "((1*sin(y))+(x*(cos(y)*1)))" |
| Derivation.DeriveQuotientExample | Zinc.Test/Basic.cpp:349-356 | the derivative of `x/sin(y)` prints "(((1*sin(y))-(x*(cos(y)*1)))/((sin(y))^2))" |
| Tangent.DualPowerValue | Zinc/Zinc.hpp:349-365 | the value part of a dual power is the power of the value, defined exactly when the power is |
| Tangent.DualPowerSlope | Zinc/Zinc.hpp:990-1013 | the slope of a dual power is p * v^(p-1) times the slope, for every nonzero integer p |
| Tangent.ForwardValue | Zinc/Zinc.hpp:556-644 | the value part of forward evaluation is the value of the tree with its letter bound |
| Tangent.DeriveSlope | Zinc/Zinc.hpp:831-1023 | wherever forward evaluation is defined, the derivative tree evaluates to the slope |
| Tangent.DeriveIsSlope | Zinc/Zinc.hpp:831-1023 | the derivative with its letter bound to c evaluates to the slope of the tree at c |
| Tangent.ProductSlope | Zinc/Zinc.hpp:867-892 | the product rule tree evaluates to the slope of the product |
| Tangent.QuotientSlope | Zinc/Zinc.hpp:894-926 | the quotient rule tree evaluates to the slope of the quotient where the divisor is nonzero |
| Tangent.SineSlope | Zinc/Zinc.hpp:962-974 | `cos(u)*du` evaluates to the slope of `sin(u)` |
| Tangent.CosineSlope | Zinc/Zinc.hpp:976-988 | `-sin(u)*du` evaluates to the slope of `cos(u)` |
| Tangent.PowSlope | Zinc/Zinc.hpp:990-1013 | `(p*u^(p-1))*du` evaluates to the slope of `u^p` |
| Tangent.NegationSlope | Zinc/Zinc.hpp:928-940 | `-du` evaluates to the slope of `-u` |
| Tangent.SumSlope | Zinc/Zinc.hpp:847-855 | `dl+dr` evaluates to the slope of `l+r` |
| Tangent.DifferenceSlope | Zinc/Zinc.hpp:857-865 | `dl-dr` evaluates to the slope of `l-r` |
| Simplification.HasDivision | Zinc/Zinc.hpp:1065-1111 | defined node by node as the source; stated by Simplification.HasDivisionIff |
| Simplification.HasDivisionIff | Zinc/Zinc.hpp:1065-1111 | a tree has a division exactly when its list of divisions is nonempty |
| Simplification.FirstDivision | Zinc/Zinc.hpp:1113-1215 | the first division is a division node and brings in no new letter |
| Simplification.FirstDivisionIsFirst | Zinc/Zinc.hpp:1113-1215 | the first division is the leftmost division of the tree |
| Simplification.FirstDivisionIsEvaluated | Zinc/Zinc.hpp:1113-1215 | the first division is also the first division evaluation needs, since the search crosses no power |
| Simplification.Simplify | Zinc/Zinc.hpp:1217-1294 | a division is kept; any other binary tree `l op r` becomes `((l*q) op (r*q))/q` with q the divisor of its first division; letters are kept |
| Simplification.SimplifyKeepsValue | Zinc/Zinc.hpp:1217-1294 | simplifying a sum or difference keeps its value, NaN included |
| Simplification.SimplifyProductCounterexample | Zinc/Zinc.hpp:1217-1294 | simplifying a product does not keep its value: (4/2)*3 is 6 but its simplified form is 12 |
| Simplification.SimplifyBindCommute | Zinc/Zinc.hpp:1217-1294 | binding a letter to a tree without division commutes with simplification |
| Simplification.BindKeepsDivisions | Zinc/Zinc.hpp:1065-1215 | binding a letter to a tree without division keeps the divisions, and the first division is the bound first division |
| Simplification.SimplifyDifferenceExample | Zinc.Test/Basic.cpp:367-375 | `(2+2)-(x/2)` simplifies to "((((2+2)*2)-((x/2)*2))/2)" |
| Simplification.SimplifyDivisionExample | Zinc.Test/Basic.cpp:358-365 | `(x+2)/2` is kept as "((x+2)/2)" |
| Limit.Lopital | Zinc/Zinc.hpp:1025-1063 | one L'Hôpital step brings in no new letter, and gives a quotient exactly for a quotient |
| Limit.CanBeLimited | Zinc/Zinc.hpp:1296-1370 | defined node by node as the source; stated by Limit.CanBeLimitedIff |
| Limit.CanBeLimitedDivisor | Zinc/Zinc.hpp:1305-1319 | an `int` literal divisor passes when nonzero, any other divisor when it passes the check |
| Limit.Rounds | Zinc/Zinc.hpp:1383-1425 | the rounds of `Limit::Get`; stated by Limit.RoundsFirstNumber, Limit.RoundsExhausted, Limit.RoundsInfeasible and Limit.RoundsNaN |
| Limit.CanBeLimitedIff | Zinc/Zinc.hpp:1296-1370 | a tree can be limited exactly when no division in it has a literal zero as divisor |
| Limit.Lim | Zinc/Zinc.hpp:1372-1431 | `lim` fails with NaN on a tree with division only when its simplified form passes the first check |
| Limit.LimFirstNumber | Zinc/Zinc.hpp:1383-1425 | the limit is the value at the point of the first L'Hôpital step that has one |
| Limit.LimExhausted | Zinc/Zinc.hpp:1383-1425 | when five rounds give no value, the limit is 0 |
| Limit.LimInfeasible | Zinc/Zinc.hpp:1383-1425 | when a step fails the check, the limit is the previous round's result (0 in the first round, NaN after) |
| Limit.LimNaN | Zinc/Zinc.hpp:1383-1425 | the limit is NaN only if some later L'Hôpital step fails the check |
| Limit.LopitalRatio | Zinc/Zinc.hpp:1025-1063 | one L'Hôpital step on n/d evaluates to the ratio of the slopes of n and d |
| Limit.RoundsFirstNumber | Zinc/Zinc.hpp:1383-1425 | the rounds return the value of the first step that has one, when every step before it passes the check |
| Limit.RoundsExhausted | Zinc/Zinc.hpp:1383-1425 | rounds that all pass the check without a value end with 0 |
| Limit.RoundsInfeasible | Zinc/Zinc.hpp:1383-1425 | a step that fails the check ends the rounds with the previous round's result |
| Limit.RoundsNaN | Zinc/Zinc.hpp:1383-1425 | the rounds end with NaN only if the first step fails the check while the given result is NaN, or a later step fails the check |
| Limit.StepsOfDivision | Zinc/Zinc.hpp:1025-1063 | n L'Hôpital steps on l/r give the quotient of the n-th derivatives of l and r |
| Limit.DeriveCanBeLimited | Zinc/Zinc.hpp:1296-1370 | a derivative passes the check when the tree does |
| Limit.DeriveCarries | Zinc/Zinc.hpp:867-892 | the product rule keeps a factor a of a*y in every derivative |
| Limit.LimCarriedNaN | Zinc/Zinc.hpp:1383-1425 | when the simplified dividend carries a factor with no value at the point, every round fails and the limit is 0 |
| LimitExamples.LimQuotientOfEqualsExample | Zinc.Test/Basic.cpp:377-382 | lim x/x at 0 is 1 (also the last test of the suite) |
| LimitExamples.LimZeroPowerExample | Zinc/Zinc.hpp:1372-1431 | lim (x/x)^0 / 1 at 0 is 1 in round 1, since the zero power ignores its operand |
| LimitExamples.LimWithoutDivisionExample | Zinc.Test/Basic.cpp:398-403 | lim x+2 at 1 is 3 |
| LimitExamples.LimSineDifferenceExample | Zinc.Test/Basic.cpp:391-396 | lim (sin x - x)/(x sin x) at 0 is 0, reached in the third round |
| LimitExamples.LimSineExample | Zinc.Test/Basic.cpp:384-389 | lim x/sin x at 0 is 1 |
| LimitExamples.LimSimplifiedExample | Zinc.Test/Basic.cpp:405-411 | lim (2+2)-(x/2) at 4 is 2 |
| LimitExamples.LimSquareDifferenceExample | Zinc.Test/Basic.cpp:413-418 | lim (x^2-1)/(x-1) at 1 is 2 |
| LimitExamples.LimFailedCheckExample | Zinc/Zinc.hpp:1383-1425 | lim (x/x)/2 at 0 is NaN, since its first step fails the check |
| LimitExamples.LimReciprocalAtOneExample | Zinc.Test/Basic.cpp:427-432 | lim 1/x at 1 is 1 |
| LimitExamples.LimReciprocalAtZeroExample | Zinc.Test/Basic.cpp:434-439 | lim 1/x at 0 is 0: round 1 divides by zero, and round 2 evaluates 0/1 = 0 |
| LimitExamples.LimShiftedSquareDifferenceExample | Zinc.Test/Basic.cpp:420-425 | lim ((x^2-1)/(x-1)) - 1 at 1 is 0, not the suite's 1: every round keeps the factor (x^2-1)/(x-1), which has no value at 1 |
| Legacy.LegacyDerive | Zinc/Expression.hpp:828-1011 | the earlier derivative never brings in a letter |
| Legacy.LegacyLopital | Zinc/Expression.hpp:1013-1045 | the earlier L'Hôpital step brings in no new letter and gives a quotient exactly for a quotient |
| Legacy.LegacyLim | Zinc/Expression.hpp:1053-1085 | the earlier limit always has a value |
| Legacy.LegacyRounds | Zinc/Expression.hpp:1053-1085 | the rounds of the earlier limit always end with a value |
| Legacy.EvalRetype | Zinc/Expression.hpp:930-948 | retyping literals (the earlier variant's literal kinds) keeps every value |
| Legacy.DerivativesAgree | Zinc/Expression.hpp:828-1011 | both derivatives are the same tree up to the kinds of their literals |
| Legacy.DerivativeValuesAgree | Zinc/Expression.hpp:828-1011 | both derivatives have the same value at every point |
| Legacy.LopitalsAgree | Zinc/Expression.hpp:1013-1045 | both L'Hôpital steps agree up to the kinds of literals |
| Legacy.LimsAgree | Zinc/Expression.hpp:1053-1085 | on a quotient whose five steps all pass the check, both limits are equal |
| Legacy.ZeroDivisorRounds | Zinc/Expression.hpp:1053-1085 | the earlier limit of a quotient by a literal zero is 0 |
| Legacy.VariantsDifferExample | Zinc/Expression.hpp:1053-1085 | lim (x/x)/2 at 0 is NaN in the current variant and 0 in the earlier one |
| Legacy.DerivativeStringsDiffer | Zinc/Expression.hpp:930-948 | the derivative of `x*pi` prints "((1*pi)+(x*0.000000))" in the earlier variant and "((1*pi)+(x*0))" in the current one |

## Left out

- IEEE infinities: a zero divisor gives the outcome NaN, and infinities are not told apart from it. So for `lim 1/x` at 0, round 1 divides by zero and round 2 evaluates 0/1 = 0, whereas the C++ returns `inf` in round 1 (Zinc.Test/Basic.cpp:434-439).
- Evaluator.Eval: the model's arithmetic is unbounded. In the C++, a subtree over `int` literals is computed in 32-bit `int`, which overflows: `sin` of an `int` operand raises it to the 11th power, so from 8 on (8^11 = 2^33), and `cos` to the 10th power, from 9 on.
- Evaluator.Power: `PowBase` over an `int` base multiplies in 32-bit `int` and overflows, for example on `power<3>(2000)`; here the power is exact.
- Evaluator.Factorial: `factorial<f>()` is a 64-bit `uintmax_t` (Zinc/Zinc.hpp:290-305). It wraps from 21! on (Evaluator.FactorialWidth), and 66! is 0 modulo 2^64, so `r >= 1` and `r >= n` hold only of the unbounded factorial of the model.
- Series.TaylorSine: the literal (2k+1)! of term k is exact here; in the C++ it wraps from term 10 on (21!). The `int` powers of an `int` operand overflow as under Evaluator.Eval. At the engine's order 5 no factorial wraps (Evaluator.FactorialsFitAtOrder).
- Series.TaylorCosine: the literal (2k)! of term k is exact here; in the C++ it wraps from term 11 on (22!). At order 5 it does not.
- Series.TaylorE: the literal k! of term k is exact here; in the C++ it wraps from term 21 on.
- Limit.Lim: the point `to` is an `int` of the C++ (Zinc/Zinc.hpp:34, 1378, 1389); the model takes any integer.
- Evaluator.Power: in the C++ a negative power of an integer divides as integers, so `power<-2>(2)` is 0. Here it divides as reals and gives 1/4.
- Evaluator: values are exact reals, not `long double`. Floating-point rounding, and the suite's tolerance checks on `sin`, `cos` and `ln` values, are not modelled.
- Non-integer literals (such as 1.5 as the argument of `ln`) are not modelled: literal values are integers.
- Series.EPowTwoExample: `_e ^ 2` is the order-5 partial sum, as the code computes it. The suite compares it with the exact value of e^2, which that sum is not.
- `HasVariables` (Zinc/Zinc.hpp:525-554) is not modelled: nothing in the core uses it.
- Evaluator.Eval: in the C++, evaluating a tree with letters returns a partially evaluated tree. Only closed trees are modelled.
- Series.Ln: for a plain C++ number argument, such as `ln(1.5)`, the C++ computes `-1 + x` as a number, so each term holds one folded literal. The model always builds the tree `-1 + u`. The values agree, but the trees and printed strings differ.
- The parameterised limit and the `_0` placeholder are not modelled.
- The empty `Simplifier` of the earlier variant is not modelled, since `Legacy.LegacyLim` does not simplify. Nor is its free `lopital`, which is its `derive`.
- The printing, evaluation, binding and series of the earlier variant are not modelled separately. They are the same as those of the current variant.
- The executable driver `Zinc.Executable/Zinc.cpp` is not part of this model.
- Tangent.DeriveIsSlope: requires a smooth tree, meaning no `++`/`--` and no zero exponent. The derivative of `++u` is `++du`, which is off by one from the slope (see Derivation.DeriveIncrementExample). The derivative of `u^0` is `0*u^-1`, which has no value at 0.
- Printer: the printed form is not injective (an `int` and an `unsigned` literal of the same value print alike), so there is no parse round trip.
- Simplification.Simplify: the divisor comes from the first division anywhere in the tree, as the code finds it, and not only from the immediate operands. On a product this does not keep the value (Simplification.SimplifyProductCounterexample).
