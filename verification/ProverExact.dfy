/** What the static prover computes: constants, intervals, comparisons, refinement, verdicts. */
module ProverExact {
  import opened Wrappers
  import opened Ir
  import opened ContractProver
  import ContractVerdict

  // ---- arithmetic -----------------------------------------------------------------------------

  /** `q` and `r` are the quotient toward zero and its remainder: smaller than the divisor, and
      of the sign of the dividend if it is not zero. */
  predicate Divides(a: int, b: int, q: int, r: int) {
    && a == q * b + r
    && (b > 0 ==> -b < r < b) && (b < 0 ==> b < r < -b)
    && (r < 0 ==> a < 0) && (r > 0 ==> a > 0)
  }

  lemma {:induction false} AtLeastOnce(k: int, y: int)
    requires k >= 1 && y > 0
    ensures k * y >= y
  {
  }

  lemma {:induction false} Euclid(x: int, y: int, q: int, r: int)
    requires y > 0 && x == q * y + r && 0 <= r < y
    ensures q == x / y && r == x % y
  {
    var d := q - x / y;
    assert x == (x / y) * y + x % y;
    assert d * y == x % y - r by {
      assert d * y == q * y - (x / y) * y;
    }
    Signs(d, y);
    if d >= 1 {
      AtLeastOnce(d, y);
    } else if d <= -1 {
      AtLeastOnce(-d, y);
    }
  }

  lemma {:induction false} Signs(q: int, b: int)
    ensures (-q) * (-b) == q * b && (-q) * b == -(q * b) && q * (-b) == -(q * b)
  {
  }

  /** There is one such quotient and remainder. */
  lemma {:induction false} QuotientUnique(a: int, b: int, q: int, r: int)
    requires b != 0 && Divides(a, b, q, r)
    ensures q == TruncDiv(a, b) && r == TruncMod(a, b)
  {
    Signs(q, b);
    if a >= 0 && b > 0 {
      Euclid(a, b, q, r);
    } else if a >= 0 {
      Euclid(a, -b, -q, r);
    } else if b > 0 {
      Euclid(-a, b, -q, -r);
    } else {
      Euclid(-a, -b, q, -r);
    }
  }

  lemma {:induction false} EuclidParts(x: int, y: int) returns (k: int, s: int)
    requires x >= 0 && y > 0
    ensures k == x / y && x == k * y + s && 0 <= s < y && k >= 0
  {
    k, s := x / y, x % y;
  }

  lemma {:induction false} TruncDivIs(a: int, b: int)
    requires b != 0
    ensures var x, y := if a < 0 then -a else a, if b < 0 then -b else b;
            TruncDiv(a, b) == if (a < 0) == (b < 0) then x / y else -(x / y)
  {
  }

  lemma {:induction false} Parts(a: int, b: int) returns (k: int, s: int)
    requires b != 0
    ensures var x, y := if a < 0 then -a else a, if b < 0 then -b else b; x == k * y + s && 0 <= s < y && k >= 0
    ensures TruncDiv(a, b) == if (a < 0) == (b < 0) then k else -k
    ensures TruncMod(a, b) == a - TruncDiv(a, b) * b
  {
    hide TruncDiv;
    TruncDivIs(a, b);
    k, s := EuclidParts(if a < 0 then -a else a, if b < 0 then -b else b);
  }

  lemma {:induction false} QuotientExists(a: int, b: int)
    requires b != 0
    ensures Divides(a, b, TruncDiv(a, b), TruncMod(a, b))
  {
    hide TruncDiv, TruncMod, Divides;
    var k, s := Parts(a, b);
    FromParts(a, b, k, s, TruncDiv(a, b), TruncMod(a, b));
  }

  lemma {:induction false} FromParts(a: int, b: int, k: int, s: int, q: int, r: int)
    requires b != 0
    requires var x, y := if a < 0 then -a else a, if b < 0 then -b else b; x == k * y + s && 0 <= s < y && k >= 0
    requires q == (if (a < 0) == (b < 0) then k else -k) && r == a - q * b
    ensures Divides(a, b, q, r)
  {
    hide Divides;
    var x, y := if a < 0 then -a else a, if b < 0 then -b else b;
    SignedProduct(k, y, a, b);
    NonNegative(k, y);
    RemainderSigns(a, b, x, y, k * y, r);
    MakeDivides(a, b, q, r);
  }

  lemma {:induction false} MakeDivides(a: int, b: int, q: int, r: int)
    requires a == q * b + r
    requires (b > 0 ==> -b < r < b) && (b < 0 ==> b < r < -b) && (r < 0 ==> a < 0) && (r > 0 ==> a > 0)
    ensures Divides(a, b, q, r)
  {
  }

  lemma {:induction false} SignedProduct(k: int, y: int, a: int, b: int)
    requires y == if b < 0 then -b else b
    ensures (if (a < 0) == (b < 0) then k else -k) * b == if a < 0 then -(k * y) else k * y
  {
    Signs(k, y);
  }

  lemma {:induction false} NonNegative(k: int, y: int)
    requires k >= 0 && y >= 0
    ensures k * y >= 0
  {
  }

  lemma {:induction false} RemainderSigns(a: int, b: int, x: int, y: int, p: int, r: int)
    requires b != 0 && x == (if a < 0 then -a else a) && y == (if b < 0 then -b else b)
    requires 0 <= p <= x < p + y && r == a - if a < 0 then -p else p
    ensures (b > 0 ==> -b < r < b) && (b < 0 ==> b < r < -b) && (r < 0 ==> a < 0) && (r > 0 ==> a > 0)
  {
  }

  /** Division and remainder give the quotient toward zero and its remainder, and trap on zero. */
  lemma {:induction false} DivisionExact(a: int, b: int, q: int, r: int, m: Machine)
    ensures b == 0 ==> ApplyBinary(Div, IntV(a), IntV(b), m) == None && ApplyBinary(Mod, IntV(a), IntV(b), m) == None
    ensures b != 0 ==>
              (Divides(a, b, q, r) <==>
                 ApplyBinary(Div, IntV(a), IntV(b), m) == Some(IntV(q))
                 && ApplyBinary(Mod, IntV(a), IntV(b), m) == Some(IntV(r)))
  {
    hide Divides, TruncDiv, TruncMod;
    if b != 0 {
      QuotientExists(a, b);
      if Divides(a, b, q, r) {
        QuotientUnique(a, b, q, r);
      }
    }
  }

  /** The comparison, as a statement about integers. */
  predicate Compares(op: BinOp, a: int, b: int) {
    match op
    case Lt => a < b
    case Le => a <= b
    case Gt => a > b
    case Ge => a >= b
    case Eq => a == b
    case Ne => a != b
    case _ => false
  }

  predicate IsComparison(op: BinOp) {
    op == Lt || op == Le || op == Gt || op == Ge || op == Eq || op == Ne
  }

  /** The other operators on integers. */
  lemma {:induction false} ArithmeticExact(op: BinOp, a: int, b: int, m: Machine)
    ensures ApplyBinary(Add, IntV(a), IntV(b), m) == Some(IntV(a + b))
    ensures ApplyBinary(Sub, IntV(a), IntV(b), m) == Some(IntV(a - b))
    ensures ApplyBinary(Mul, IntV(a), IntV(b), m) == Some(IntV(a * b))
    ensures ApplyUnary(Neg, IntV(a), m) == Some(IntV(0 - a))
    ensures IsComparison(op) ==> ApplyBinary(op, IntV(a), IntV(b), m) == Some(BoolV(Compares(op, a, b)))
  {
  }

  // ---- folding --------------------------------------------------------------------------------

  predicate FitsI64(v: Option<Value>) {
    v.Some? && match v.value
      case IntV(n) => -0x8000_0000_0000_0000 <= n < 0x8000_0000_0000_0000
      case BoolV(_) => true
      case UnitV => false
  }

  /** Literals under the operators that are folded, each part of which has a value that fits:
      no overflow and no division by zero anywhere, not even where it would not be evaluated. */
  ghost predicate Foldable(e: Expr, m: Machine) {
    match e
    case Int(_) => true
    case Bool(_) => true
    case Unary(op, operand) =>
      (op == Neg || op == Not) && Foldable(operand, m) && Pure(e) && FitsI64(PureEval(e, [], m))
    case Binary(op, lhs, rhs) =>
      && op !in {BitOr, BitXor, BitAnd, Shl, Shr, Ushr}
      && Foldable(lhs, m) && Foldable(rhs, m) && Pure(e) && FitsI64(PureEval(e, [], m))
      && ((op == AndAlso || op == OrElse) ==> PureEval(rhs, [], m).value.BoolV?)
    case _ => false
  }

  lemma {:induction false} FoldablePure(e: Expr, m: Machine)
    requires Foldable(e, m)
    ensures Pure(e) && FitsI64(PureEval(e, [], m))
  {
  }

  /** An expression is folded exactly when it is foldable, and then to its value. */
  lemma {:induction false} ConstExact(e: Expr, m: Machine)
    ensures EvalConst(e).Some? <==> Foldable(e, m)
    ensures EvalConst(e).Some? ==> Pure(e) && PureEval(e, [], m) == Some(ValueOf(EvalConst(e).value))
  {
    if EvalConst(e).Some? {
      ConstSound(e, [], m);
    }
    match e
    case Unary(op, operand) =>
      ConstExact(operand, m);
    case Binary(op, lhs, rhs) =>
      ConstExact(lhs, m);
      ConstExact(rhs, m);
      ConstBinaryExact(op, lhs, rhs, m);
    case _ =>
  }

  predicate IsBitOp(op: BinOp) {
    op in {BitOr, BitXor, BitAnd, Shl, Shr, Ushr}
  }

  lemma {:induction false} ConstIntsExact(op: BinOp, a: I64, b: I64, m: Machine)
    ensures ConstBinary(op, Some(IntC(a)), Some(IntC(b))).Some? <==>
            !IsBitOp(op) && op != AndAlso && op != OrElse && FitsI64(ApplyBinary(op, IntV(a), IntV(b), m))
  {
    hide TruncDiv, TruncMod;
  }

  lemma {:induction false} ConstBoolsExact(op: BinOp, a: bool, b: bool, m: Machine)
    ensures ConstBinary(op, Some(BoolC(a)), Some(BoolC(b))).Some? <==>
            op == AndAlso || op == OrElse || FitsI64(ApplyBinary(op, BoolV(a), BoolV(b), m))
    ensures FitsI64(ApplyBinary(op, BoolV(a), BoolV(b), m)) ==> !IsBitOp(op)
  {
  }

  lemma {:induction false} ConstMixedExact(op: BinOp, a: Const, b: Const, m: Machine)
    requires a.IntC? != b.IntC?
    ensures ConstBinary(op, Some(a), Some(b)) == None && ApplyBinary(op, ValueOf(a), ValueOf(b), m) == None
  {
  }

  /** What two operands with known values are folded to, against what they evaluate to. */
  lemma {:induction false} ConstValuesExact(op: BinOp, a: Const, b: Const, m: Machine)
    ensures ConstBinary(op, Some(a), Some(b)).Some? <==>
            !IsBitOp(op) && if op == AndAlso || op == OrElse then a.BoolC? && b.BoolC?
                            else FitsI64(ApplyBinary(op, ValueOf(a), ValueOf(b), m))
  {
    hide ConstBinary, ApplyBinary, FitsI64;
    if a.IntC? && b.IntC? {
      ConstIntsExact(op, a.n, b.n, m);
    } else if a.BoolC? && b.BoolC? {
      ConstBoolsExact(op, a.b, b.b, m);
    } else {
      ConstMixedExact(op, a, b, m);
      NothingFits();
    }
  }

  lemma {:induction false} NothingFits()
    ensures !FitsI64(None)
  {
  }

  lemma {:induction false} ConstBinaryExact(op: BinOp, lhs: Expr, rhs: Expr, m: Machine)
    requires EvalConst(lhs).Some? <==> Foldable(lhs, m)
    requires EvalConst(lhs).Some? ==> Pure(lhs) && PureEval(lhs, [], m) == Some(ValueOf(EvalConst(lhs).value))
    requires EvalConst(rhs).Some? <==> Foldable(rhs, m)
    requires EvalConst(rhs).Some? ==> Pure(rhs) && PureEval(rhs, [], m) == Some(ValueOf(EvalConst(rhs).value))
    ensures EvalConst(Binary(op, lhs, rhs)).Some? <==> Foldable(Binary(op, lhs, rhs), m)
  {
    hide ConstBinary, ApplyBinary;
    if EvalConst(lhs).Some? && EvalConst(rhs).Some? {
      ConstValuesExact(op, EvalConst(lhs).value, EvalConst(rhs).value, m);
    } else if EvalConst(Binary(op, lhs, rhs)).Some? {
      ConstNeedsBoth(op, EvalConst(lhs), EvalConst(rhs));
    }
  }

  // ---- intervals --------------------------------------------------------------------------------

  predicate NonEmpty(r: IntRange) {
    r.lower.Some? && r.upper.Some? ==> r.lower.value <= r.upper.value
  }

  predicate Within64(n: int) {
    -0x8000_0000_0000_0000 <= n < 0x8000_0000_0000_0000
  }

  /** A bound of the interval of a sum: there if both operands have it and it does not overflow,
      and then the sum of two of their values that no other sum passes. */
  ghost predicate LowerSum(c: Bound, a: IntRange, b: IntRange) {
    && (c.Some? <==> a.lower.Some? && b.lower.Some? && Within64(a.lower.value + b.lower.value))
    && (c.Some? && NonEmpty(a) && NonEmpty(b) ==>
          && (exists i, j :: In(a, i) && In(b, j) && i + j == c.value)
          && forall i, j | In(a, i) && In(b, j) :: c.value <= i + j)
  }

  ghost predicate UpperSum(c: Bound, a: IntRange, b: IntRange) {
    && (c.Some? <==> a.upper.Some? && b.upper.Some? && Within64(a.upper.value + b.upper.value))
    && (c.Some? && NonEmpty(a) && NonEmpty(b) ==>
          && (exists i, j :: In(a, i) && In(b, j) && i + j == c.value)
          && forall i, j | In(a, i) && In(b, j) :: i + j <= c.value)
  }

  ghost predicate IsOpposite(r: IntRange, a: IntRange) {
    && (r.lower.Some? <==> a.upper.Some? && Within64(0 - a.upper.value))
    && (r.upper.Some? <==> a.lower.Some? && Within64(0 - a.lower.value))
    && (r.lower.Some? && NonEmpty(a) ==> In(a, 0 - r.lower.value) && forall i | In(a, i) :: r.lower.value <= 0 - i)
    && (r.upper.Some? && NonEmpty(a) ==> In(a, 0 - r.upper.value) && forall i | In(a, i) :: 0 - i <= r.upper.value)
  }

  lemma {:induction false} SumBounds(a: IntRange, b: IntRange)
    ensures LowerSum(AddBound(a.lower, b.lower), a, b) && UpperSum(AddBound(a.upper, b.upper), a, b)
  {
    if NonEmpty(a) && NonEmpty(b) {
      if a.lower.Some? && b.lower.Some? {
        assert In(a, a.lower.value) && In(b, b.lower.value);
      }
      if a.upper.Some? && b.upper.Some? {
        assert In(a, a.upper.value) && In(b, b.upper.value);
      }
    }
  }

  ghost predicate LowerDifference(c: Bound, a: IntRange, b: IntRange) {
    && (c.Some? <==> a.lower.Some? && b.upper.Some? && Within64(a.lower.value - b.upper.value))
    && (c.Some? && NonEmpty(a) && NonEmpty(b) ==>
          && (exists i, j :: In(a, i) && In(b, j) && i - j == c.value)
          && forall i, j | In(a, i) && In(b, j) :: c.value <= i - j)
  }

  ghost predicate UpperDifference(c: Bound, a: IntRange, b: IntRange) {
    && (c.Some? <==> a.upper.Some? && b.lower.Some? && Within64(a.upper.value - b.lower.value))
    && (c.Some? && NonEmpty(a) && NonEmpty(b) ==>
          && (exists i, j :: In(a, i) && In(b, j) && i - j == c.value)
          && forall i, j | In(a, i) && In(b, j) :: i - j <= c.value)
  }

  lemma {:induction false} DifferenceBounds(a: IntRange, b: IntRange)
    ensures LowerDifference(SubBound(a.lower, b.upper), a, b) && UpperDifference(SubBound(a.upper, b.lower), a, b)
  {
    if NonEmpty(a) && NonEmpty(b) {
      if a.lower.Some? && b.upper.Some? {
        assert In(a, a.lower.value) && In(b, b.upper.value);
      }
      if a.upper.Some? && b.lower.Some? {
        assert In(a, a.upper.value) && In(b, b.lower.value);
      }
    }
  }

  lemma {:induction false} OppositeIs(a: IntRange)
    ensures IsOpposite(IntRange(NegBound(a.upper), NegBound(a.lower)), a)
  {
  }

  /** The interval of a negation: each bound is there unless the operand lacks it or it
      overflows, and it is attained. */
  lemma {:induction false} NegationExact(e: Expr, renv: RangeEnv, result: Option<Expr>)
    ensures match EvalIntRange(e, renv, result)
            case None => EvalIntRange(Unary(Neg, e), renv, result) == None
            case Some(a) =>
              var r := EvalIntRange(Unary(Neg, e), renv, result);
              r.Some? && IsOpposite(r.value, a)
  {
    hide IsOpposite, NegBound;
    if EvalIntRange(e, renv, result).Some? {
      OppositeIs(EvalIntRange(e, renv, result).value);
    }
  }

  /** The interval of a sum of any two expressions likewise. */
  lemma {:induction false} SumExact(lhs: Expr, rhs: Expr, renv: RangeEnv, result: Option<Expr>)
    ensures match (EvalIntRange(lhs, renv, result), EvalIntRange(rhs, renv, result))
            case (Some(a), Some(b)) =>
              var r := EvalIntRange(Binary(Add, lhs, rhs), renv, result);
              r.Some? && LowerSum(r.value.lower, a, b) && UpperSum(r.value.upper, a, b)
            case _ => EvalIntRange(Binary(Add, lhs, rhs), renv, result) == None
  {
    hide AddBound, LowerSum, UpperSum;
    var a, b := EvalIntRange(lhs, renv, result), EvalIntRange(rhs, renv, result);
    if a.Some? && b.Some? {
      SumBounds(a.value, b.value);
    }
  }

  /** And of a difference. */
  lemma {:induction false} DifferenceExact(lhs: Expr, rhs: Expr, renv: RangeEnv, result: Option<Expr>)
    ensures match (EvalIntRange(lhs, renv, result), EvalIntRange(rhs, renv, result))
            case (Some(a), Some(b)) =>
              var r := EvalIntRange(Binary(Sub, lhs, rhs), renv, result);
              r.Some? && LowerDifference(r.value.lower, a, b) && UpperDifference(r.value.upper, a, b)
            case _ => EvalIntRange(Binary(Sub, lhs, rhs), renv, result) == None
  {
    hide SubBound, LowerDifference, UpperDifference;
    var a, b := EvalIntRange(lhs, renv, result), EvalIntRange(rhs, renv, result);
    if a.Some? && b.Some? {
      DifferenceBounds(a.value, b.value);
    }
  }

  /** The interval of a variable, of a literal, of the result and of anything that is folded. */
  lemma {:induction false} LeafRanges(x: string, n: I64, e: Expr, renv: RangeEnv, result: Option<Expr>)
    ensures EvalIntRange(Int(n), renv, result) == Some(IntRange(Some(n), Some(n)))
    ensures x != "result" ==>
              EvalIntRange(Var(x), renv, result) == Some(if x in renv then renv[x] else IntRange(None, None))
    ensures EvalIntRange(Var("result"), renv, result)
         == if result.Some? then EvalIntRange(result.value, renv, None) else None
    ensures e.Binary? && e.op != Add && e.op != Sub && EvalConst(e).Some? && EvalConst(e).value.IntC? ==>
              EvalIntRange(e, renv, result) == Some(IntRange(Some(EvalConst(e).value.n), Some(EvalConst(e).value.n)))
  {
  }

  function TwoVariables(x: string, y: string, add: bool): (e: Expr)
    ensures Pure(e)
  {
    Binary(if add then Add else Sub, Var(x), Var(y))
  }

  function BoundOf(r: IntRange, upper: bool): Bound {
    if upper then r.upper else r.lower
  }

  /** For two variables both bounds of a sum and of a difference are values the expression takes. */
  lemma {:induction false} VariablesAttain(x: string, y: string, add: bool, upper: bool, renv: RangeEnv, r: IntRange,
                                           m: Machine)
    returns (env: Env)
    requires x != y && x != "result" && y != "result"
    requires NonEmpty(RangeOf(renv, x)) && NonEmpty(RangeOf(renv, y))
    requires EvalIntRange(TwoVariables(x, y, add), renv, None) == Some(r) && BoundOf(r, upper).Some?
    ensures InRanges(renv, env)
    ensures PureEval(TwoVariables(x, y, add), env, m) == Some(IntV(BoundOf(r, upper).value))
  {
    var a, b := RangeOf(renv, x), RangeOf(renv, y);
    assert EvalIntRange(Var(x), renv, None) == Some(a) && EvalIntRange(Var(y), renv, None) == Some(b);
    var i := BoundOf(a, upper).value;
    var j := BoundOf(b, upper == add).value;
    var first := [Binding(x, IntV(i))];
    env := first + [Binding(y, IntV(j))];
    assert [] + first == first;
    forall z ensures Lookup(env, z) == if z == y then Some(IntV(j)) else if z == x then Some(IntV(i)) else None {
      ContractVerdict.LookupPushed(first, y, IntV(j), z);
      ContractVerdict.LookupPushed([], x, IntV(i), z);
    }
    assert PureEval(Var(x), env, m) == Some(IntV(i)) && PureEval(Var(y), env, m) == Some(IntV(j));
  }

  // ---- comparisons ------------------------------------------------------------------------------

  /** Two expressions pass for the same without a look at ranges exactly if they are the same
      and made of literals, variables, negation, sums and differences. */
  predicate Linear(e: Expr) {
    match e
    case Int(_) => true
    case Var(_) => true
    case Unary(Neg, operand) => Linear(operand)
    case Binary(op, lhs, rhs) => (op == Add || op == Sub) && Linear(lhs) && Linear(rhs)
    case _ => false
  }

  lemma {:induction false} SameExact(a: Expr, b: Expr)
    ensures SameIntExpr(a, b) <==> a == b && Linear(a)
  {
    match (a, b)
    case (Unary(Neg, x), Unary(Neg, y)) => SameExact(x, y);
    case (Binary(_, l1, r1), Binary(_, l2, r2)) =>
      SameExact(l1, l2);
      SameExact(r1, r2);
    case _ =>
  }

  /** Values of two intervals that are as far apart as asked, where the bounds allow it. */
  lemma {:induction false} FarApart(a: IntRange, b: IntRange, d: int) returns (l: int, r: int)
    requires NonEmpty(a) && NonEmpty(b)
    requires a.upper.Some? && b.lower.Some? ==> a.upper.value - b.lower.value >= d
    ensures In(a, l) && In(b, r) && l - r >= d
  {
    if a.upper.Some? && b.lower.Some? {
      l, r := a.upper.value, b.lower.value;
    } else if a.upper.None? {
      r := if b.lower.Some? then b.lower.value else if b.upper.Some? then b.upper.value else 0;
      l := if a.lower.Some? && a.lower.value > r + d then a.lower.value else r + d;
    } else {
      l := a.upper.value;
      r := if b.upper.Some? && b.upper.value < l - d then b.upper.value else l - d;
    }
  }

  lemma {:induction false} Common(a: IntRange, b: IntRange) returns (k: int)
    requires NonEmpty(a) && NonEmpty(b) && !RangesDisjoint(a, b)
    ensures In(a, k) && In(b, k)
  {
    if a.lower.Some? && (b.lower.None? || a.lower.value >= b.lower.value) {
      k := a.lower.value;
    } else if b.lower.Some? {
      k := b.lower.value;
    } else if a.upper.Some? && (b.upper.None? || a.upper.value <= b.upper.value) {
      k := a.upper.value;
    } else {
      k := if b.upper.Some? then b.upper.value else 0;
    }
  }

  /** The comparison holds, or fails, for all values of the two intervals. */
  ghost predicate Always(op: BinOp, a: IntRange, b: IntRange, holds: bool) {
    forall l, r | In(a, l) && In(b, r) :: Compares(op, l, r) == holds
  }

  ghost predicate AllBelow(a: IntRange, b: IntRange) {
    forall l, r | In(a, l) && In(b, r) :: l < r
  }

  ghost predicate AllAtMost(a: IntRange, b: IntRange) {
    forall l, r | In(a, l) && In(b, r) :: l <= r
  }

  ghost predicate AllEqual(a: IntRange, b: IntRange) {
    forall l, r | In(a, l) && In(b, r) :: l == r
  }

  ghost predicate NoneEqual(a: IntRange, b: IntRange) {
    forall l, r | In(a, l) && In(b, r) :: l != r
  }

  lemma {:induction false} OrderExact(a: IntRange, b: IntRange)
    requires NonEmpty(a) && NonEmpty(b)
    ensures Below(a.upper, b.lower) <==> AllBelow(a, b)
    ensures AtMost(a.upper, b.lower) <==> AllAtMost(a, b)
  {
    if !Below(a.upper, b.lower) {
      var l, r := FarApart(a, b, 0);
    }
    if !AtMost(a.upper, b.lower) {
      var l, r := FarApart(a, b, 1);
    }
  }

  lemma {:induction false} EqualExact(a: IntRange, b: IntRange)
    requires NonEmpty(a) && NonEmpty(b)
    ensures (a.lower == a.upper && a.lower.Some? && a.lower == b.lower && b.lower == b.upper) <==> AllEqual(a, b)
    ensures RangesDisjoint(a, b) <==> NoneEqual(a, b)
  {
    if !(a.lower == a.upper && a.lower.Some? && a.lower == b.lower && b.lower == b.upper) {
      if a.upper.Some? && b.lower.Some? && a.upper.value <= b.lower.value {
        var r, l := FarApart(b, a, 1);
      } else {
        var l, r := FarApart(a, b, 1);
      }
    }
    if !RangesDisjoint(a, b) {
      var k := Common(a, b);
    }
  }

  lemma {:induction false} AlwaysIs(op: BinOp, a: IntRange, b: IntRange, holds: bool)
    requires IsComparison(op)
    ensures Always(op, a, b, holds) <==>
            match op
            case Lt => if holds then AllBelow(a, b) else AllAtMost(b, a)
            case Le => if holds then AllAtMost(a, b) else AllBelow(b, a)
            case Gt => if holds then AllBelow(b, a) else AllAtMost(a, b)
            case Ge => if holds then AllAtMost(b, a) else AllBelow(a, b)
            case Eq => if holds then AllEqual(a, b) else NoneEqual(a, b)
            case _ => if holds then NoneEqual(a, b) else AllEqual(a, b)
  {
    hide In;
  }

  /** Of the two outcomes one at most is that of all values. */
  lemma {:induction false} NotBoth(op: BinOp, a: IntRange, b: IntRange)
    requires NonEmpty(a) && NonEmpty(b)
    ensures !(Always(op, a, b, true) && Always(op, a, b, false))
  {
    var l := SomeValue(a);
    var r := SomeValue(b);
    hide In, Compares;
  }

  /** The verdict on two intervals that are not empty is definite exactly when the comparison
      has the same outcome for all their values, and it is that outcome. */
  lemma {:induction false} CompareExact(op: BinOp, a: IntRange, b: IntRange)
    requires NonEmpty(a) && NonEmpty(b) && IsComparison(op)
    ensures CompareRanges(op, a, b) == Proved <==> Always(op, a, b, true)
    ensures CompareRanges(op, a, b) == Refuted <==> Always(op, a, b, false)
  {
    hide Always, AllBelow, AllAtMost, AllEqual, NoneEqual, Below, AtMost, RangesDisjoint, NonEmpty;
    OrderExact(a, b);
    OrderExact(b, a);
    EqualExact(a, b);
    AlwaysIs(op, a, b, true);
    AlwaysIs(op, a, b, false);
    NotBoth(op, a, b);
    NotBoth(Eq, a, b);
    AlwaysIs(Eq, a, b, true);
    AlwaysIs(Eq, a, b, false);
  }

  lemma {:induction false} SomeValue(a: IntRange) returns (i: int)
    requires NonEmpty(a)
    ensures In(a, i)
  {
    var r: int;
    i, r := FarApart(a, IntRange(None, None), 0);
  }

  /** A comparison is decided by the intervals of its sides unless they are the same. */
  lemma {:induction false} ComparisonExact(op: BinOp, lhs: Expr, rhs: Expr, renv: RangeEnv, result: Option<Expr>)
    requires IsComparison(op)
    ensures lhs == rhs && Linear(lhs) ==>
              EvalLogic(Binary(op, lhs, rhs), renv, result) == if Compares(op, 0, 0) then Proved else Refuted
    ensures !(lhs == rhs && Linear(lhs)) ==>
              EvalLogic(Binary(op, lhs, rhs), renv, result) ==
              match (EvalIntRange(lhs, renv, result), EvalIntRange(rhs, renv, result))
              case (Some(a), Some(b)) => CompareRanges(op, a, b)
              case _ => Unknown
  {
    hide EvalIntRange, CompareRanges, SameIntExpr, Linear;
    SameExact(lhs, rhs);
  }

  /** The connectives are three-valued. */
  lemma {:induction false} LogicExact(p: Expr, q: Expr, b: bool, renv: RangeEnv, result: Option<Expr>)
    ensures EvalLogic(Bool(b), renv, result) == if b then Proved else Refuted
    ensures EvalLogic(Unary(Not, p), renv, result) == Proved <==> EvalLogic(p, renv, result) == Refuted
    ensures EvalLogic(Unary(Not, p), renv, result) == Refuted <==> EvalLogic(p, renv, result) == Proved
    ensures EvalLogic(Binary(AndAlso, p, q), renv, result) == Proved <==>
            EvalLogic(p, renv, result) == Proved && EvalLogic(q, renv, result) == Proved
    ensures EvalLogic(Binary(AndAlso, p, q), renv, result) == Refuted <==>
            EvalLogic(p, renv, result) == Refuted || EvalLogic(q, renv, result) == Refuted
    ensures EvalLogic(Binary(OrElse, p, q), renv, result) == Proved <==>
            EvalLogic(p, renv, result) == Proved || EvalLogic(q, renv, result) == Proved
    ensures EvalLogic(Binary(OrElse, p, q), renv, result) == Refuted <==>
            EvalLogic(p, renv, result) == Refuted && EvalLogic(q, renv, result) == Refuted
  {
    hide EvalComparison, EvalConst;
  }

  // ---- refinement ---------------------------------------------------------------------------------

  /** `x op n`, or `n op x`. */
  function Test(op: BinOp, x: string, n: I64, flipped: bool): Expr {
    if flipped then Binary(op, Int(n), Var(x)) else Binary(op, Var(x), Int(n))
  }

  predicate TestHolds(op: BinOp, i: int, n: I64, flipped: bool) {
    if flipped then Compares(op, n, i) else Compares(op, i, n)
  }

  /** The test is, or its failure amounts to, `x < n` for the least number, or `x > n` for the
      greatest: there the bound would overflow, and the range stays as it was. */
  predicate PastTheEnd(op: BinOp, n: I64, flipped: bool, truth: bool) {
    || (n == -0x8000_0000_0000_0000 && (op, flipped, truth) in
           {(Lt, false, true), (Gt, true, true), (Ge, false, false), (Le, true, false)})
    || (n == 0x7FFF_FFFF_FFFF_FFFF && (op, flipped, truth) in
           {(Gt, false, true), (Lt, true, true), (Le, false, false), (Ge, true, false)})
  }

  /** What an `if` on a comparison of a variable with a number knows of the variable. */
  lemma {:induction false} RefineExact(renv: RangeEnv, op: BinOp, x: string, n: I64, flipped: bool, truth: bool)
    requires IsComparison(op)
    ensures var before, refined := RangeOf(renv, x), RefineEnv(renv, Test(op, x, n, flipped), truth);
            var equal := op == if truth then Eq else Ne;
            var differs := op == if truth then Ne else Eq;
            && (refined.Some? ==> forall y | y != x :: RangeOf(refined.value, y) == RangeOf(renv, y))
            && (equal ==> refined.Some? && forall i :: In(RangeOf(refined.value, x), i) <==> i == n)
            && ((differs || PastTheEnd(op, n, flipped, truth)) && NonEmpty(before) ==>
                  refined.Some? && RangeOf(refined.value, x) == before)
            && (!equal && !differs && !PastTheEnd(op, n, flipped, truth) ==>
                  && (refined.Some? <==> exists i :: In(before, i) && TestHolds(op, i, n, flipped) == truth)
                  && (refined.Some? ==> forall i ::
                          In(RangeOf(refined.value, x), i) <==>
                            In(before, i) && TestHolds(op, i, n, flipped) == truth))
  {
    hide RefineEnv, RefineRange, Compares, In, NonEmpty, Effective, TestHolds, PastTheEnd, RangeOf, IsComparison;
    var before, cmp := RangeOf(renv, x), Effective(op, flipped, truth);
    RefineIs(renv, op, x, n, flipped, truth);
    EffectiveMeans(op, n, flipped, truth);
    RefineRangeExact(before, cmp, n);
    if RefineRange(before, cmp, n).Some? {
      RangesAfter(renv, x, RefineRange(before, cmp, n).value);
    }
  }

  lemma {:induction false} RangesAfter(renv: RangeEnv, x: string, range: IntRange)
    ensures forall y :: RangeOf(renv[x := range], y) == if y == x then range else RangeOf(renv, y)
  {
    forall y ensures RangeOf(renv[x := range], y) == if y == x then range else RangeOf(renv, y) {
    }
  }

  predicate AtTheEnd(cmp: BinOp, n: I64) {
    (cmp == Lt && n == -0x8000_0000_0000_0000) || (cmp == Gt && n == 0x7FFF_FFFF_FFFF_FFFF)
  }

  lemma {:induction false} EffectiveMeans(op: BinOp, n: I64, flipped: bool, truth: bool)
    requires IsComparison(op)
    ensures var cmp := Effective(op, flipped, truth);
            && IsComparison(cmp)
            && (cmp == Eq <==> op == if truth then Eq else Ne)
            && (cmp == Ne <==> op == if truth then Ne else Eq)
            && (AtTheEnd(cmp, n) <==> PastTheEnd(op, n, flipped, truth))
            && forall i :: Compares(cmp, i, n) <==> TestHolds(op, i, n, flipped) == truth
  {
  }

  /** The comparison of the variable with the number that the test comes to. */
  function Effective(op: BinOp, flipped: bool, truth: bool): BinOp {
    var turned := if !flipped then op else match op
      case Lt => Gt
      case Le => Ge
      case Gt => Lt
      case Ge => Le
      case _ => op;
    if truth then turned else match turned
      case Lt => Ge
      case Le => Gt
      case Gt => Le
      case Ge => Lt
      case Eq => Ne
      case Ne => Eq
      case _ => turned
  }

  lemma {:induction false} RefineIs(renv: RangeEnv, op: BinOp, x: string, n: I64, flipped: bool, truth: bool)
    requires IsComparison(op)
    ensures RefineEnv(renv, Test(op, x, n, flipped), truth) ==
            match RefineRange(RangeOf(renv, x), Effective(op, flipped, truth), n)
            case None => None
            case Some(range) => Some(renv[x := range])
  {
    hide RefineRange;
  }

  lemma {:induction false} RefineRangeExact(range: IntRange, cmp: BinOp, n: I64)
    requires IsComparison(cmp)
    ensures var refined := RefineRange(range, cmp, n);
            && (cmp == Eq ==> refined.Some? && forall i :: In(refined.value, i) <==> i == n)
            && ((cmp == Ne || AtTheEnd(cmp, n)) && NonEmpty(range) ==> refined == Some(range))
            && (cmp != Eq && cmp != Ne && !AtTheEnd(cmp, n) ==>
                  && (refined.Some? <==> exists i :: In(range, i) && Compares(cmp, i, n))
                  && (refined.Some? ==> forall i :: In(refined.value, i) <==> In(range, i) && Compares(cmp, i, n)))
  {
    var next := match cmp
      case Lt => range.(upper := MinBound(range.upper, Checked(n - 1)))
      case Le => range.(upper := MinBound(range.upper, Some(n)))
      case Gt => range.(lower := MaxBound(range.lower, Checked(n + 1)))
      case Ge => range.(lower := MaxBound(range.lower, Some(n)))
      case Eq => IntRange(Some(n), Some(n))
      case _ => range;
    if cmp != Eq && cmp != Ne && !AtTheEnd(cmp, n) {
      NextMeans(range, cmp, n, next);
      if NonEmpty(next) {
        var i := SomeValue(next);
        assert In(range, i) && Compares(cmp, i, n);
      }
    }
  }

  lemma {:induction false} NextMeans(range: IntRange, cmp: BinOp, n: I64, next: IntRange)
    requires cmp == Lt ==> n > -0x8000_0000_0000_0000 && next == range.(upper := MinBound(range.upper, Checked(n - 1)))
    requires cmp == Le ==> next == range.(upper := MinBound(range.upper, Some(n)))
    requires cmp == Gt ==> n < 0x7FFF_FFFF_FFFF_FFFF && next == range.(lower := MaxBound(range.lower, Checked(n + 1)))
    requires cmp == Ge ==> next == range.(lower := MaxBound(range.lower, Some(n)))
    requires cmp in {Lt, Le, Gt, Ge}
    ensures forall i :: In(next, i) <==> In(range, i) && Compares(cmp, i, n)
  {
  }

  // ---- verdicts -----------------------------------------------------------------------------------

  lemma {:induction false} ProveExact(paths: seq<TailPath>, ensured: Expr)
    ensures Prove(paths, ensured) == Refuted <==> exists p <- paths :: EvalLogic(ensured, p.renv, p.result) == Refuted
    ensures Prove(paths, ensured) == Proved <==> forall p <- paths :: EvalLogic(ensured, p.renv, p.result) == Proved
  {
    hide EvalLogic;
    if paths != [] {
      ProveExact(paths[1..], ensured);
      assert paths == [paths[0]] + paths[1..];
    }
  }

  /** The verdict is the direct one if it is definite; else refuted if some path refutes the
      clause, proved if all paths prove it and there is one, and open otherwise. */
  lemma {:induction false} VerdictExact(body: Block, ensured: Expr, renv: RangeEnv)
    ensures var direct := EvalLogic(ensured, renv, None);
            direct != Unknown ==> ProveEnsures(body, ensured, renv) == direct
    ensures EvalLogic(ensured, renv, None) == Unknown ==>
              match CollectTailPaths(body, renv)
              case None => ProveEnsures(body, ensured, renv) == Unknown
              case Some(paths) =>
                && (ProveEnsures(body, ensured, renv) == Refuted <==>
                    exists p <- paths :: EvalLogic(ensured, p.renv, p.result) == Refuted)
                && (ProveEnsures(body, ensured, renv) == Proved <==>
                    paths != [] && forall p <- paths :: EvalLogic(ensured, p.renv, p.result) == Proved)
  {
    hide EvalLogic, CollectTailPaths;
    if CollectTailPaths(body, renv).Some? {
      ProveExact(CollectTailPaths(body, renv).value, ensured);
    }
  }

  /** `if x < n { a } else { b }`, whose branches are `x` or a number. */
  function Guarded(x: string, n: I64, a: Expr, b: Expr): Block {
    Block([], Some(If(Test(Lt, x, n, false), Block([], Some(a)), Block([], Some(b)))))
  }

  function ResultIs(op: BinOp, n: I64): Expr {
    Binary(op, Var("result"), Int(n))
  }

  lemma {:induction false} GuardedPaths(x: string, n: I64, a: Expr, b: Expr, params: seq<string>)
    requires -0x8000_0000_0000_0000 < n && (a.Var? || a.Int?) && (b.Var? || b.Int?)
    ensures var renv := ContractVerdict.Unconstrained(params);
            CollectTailPaths(Guarded(x, n, a, b), renv)
            == Some([TailPath(renv[x := IntRange(None, Some(n - 1))], Some(a)),
                     TailPath(renv[x := IntRange(Some(n), None)], Some(b))])
  {
    var renv := ContractVerdict.Unconstrained(params);
    var cond := Test(Lt, x, n, false);
    UnconstrainedRange(params, x);
    var onTrue := renv[x := IntRange(None, Some(n - 1))];
    var onFalse := renv[x := IntRange(Some(n), None)];
    assert RefineEnv(renv, cond, true) == Some(onTrue) && RefineEnv(renv, cond, false) == Some(onFalse);
    hide RefineEnv;
    LeafPath(a, onTrue);
    LeafPath(b, onFalse);
    assert [TailPath(onTrue, Some(a))] + [TailPath(onFalse, Some(b))]
        == [TailPath(onTrue, Some(a)), TailPath(onFalse, Some(b))];
    assert CollectExprPaths(If(cond, Block([], Some(a)), Block([], Some(b))), renv)
        == Some([TailPath(onTrue, Some(a)), TailPath(onFalse, Some(b))]);
  }

  /** `if x < n { x } else { k }` is proved to return less than `n` for every `k` below it, and
      `if x < n { k } else { x }` to return at least `n` for every other `k`. */
  lemma {:induction false} GuardUsed(x: string, n: I64, k: I64, params: seq<string>)
    requires x != "result" && -0x8000_0000_0000_0000 < n
    ensures var renv := ContractVerdict.Unconstrained(params);
            if k < n then ProveEnsures(Guarded(x, n, Var(x), Int(k)), ResultIs(Lt, n), renv) == Proved
            else ProveEnsures(Guarded(x, n, Int(k), Var(x)), ResultIs(Ge, n), renv) == Proved
  {
    hide CollectTailPaths, EvalLogic, ProveEnsures, Guarded;
    var renv := ContractVerdict.Unconstrained(params);
    var low, high := IntRange(None, Some(n - 1)), IntRange(Some(n), None);
    var a, b := if k < n then Var(x) else Int(k), if k < n then Int(k) else Var(x);
    var first, second := TailPath(renv[x := low], Some(a)), TailPath(renv[x := high], Some(b));
    GuardedPaths(x, n, a, b, params);
    GuardPath(first, n, if k < n then low else IntRange(Some(k), Some(k)));
    GuardPath(second, n, if k < n then IntRange(Some(k), Some(k)) else high);
    NoResultYet(n, renv);
    VerdictExact(Guarded(x, n, a, b), ResultIs(if k < n then Lt else Ge, n), renv);
  }

  lemma {:induction false} UnconstrainedRange(params: seq<string>, x: string)
    ensures RangeOf(ContractVerdict.Unconstrained(params), x) == UNBOUNDED
  {
  }

  lemma {:induction false} LeafPath(e: Expr, renv: RangeEnv)
    requires e.Var? || e.Int?
    ensures CollectTailPaths(Block([], Some(e)), renv) == Some([TailPath(renv, Some(e))])
  {
    assert CollectExprPaths(e, renv) == Some([TailPath(renv, Some(e))]);
  }

  lemma {:induction false} GuardPath(path: TailPath, n: I64, r: IntRange)
    requires path.result.Some? && EvalIntRange(path.result.value, path.renv, None) == Some(r)
    ensures r.upper.Some? && r.upper.value < n ==> EvalLogic(ResultIs(Lt, n), path.renv, path.result) == Proved
    ensures r.lower.Some? && r.lower.value >= n ==> EvalLogic(ResultIs(Ge, n), path.renv, path.result) == Proved
  {
    assert EvalIntRange(Var("result"), path.renv, path.result) == Some(r);
    assert EvalIntRange(Int(n), path.renv, path.result) == Some(IntRange(Some(n), Some(n)));
  }

  lemma {:induction false} NoResultYet(n: I64, renv: RangeEnv)
    ensures EvalLogic(ResultIs(Lt, n), renv, None) == Unknown && EvalLogic(ResultIs(Ge, n), renv, None) == Unknown
  {
  }
}
