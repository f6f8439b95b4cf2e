/** The static prover of contracts, and why its verdict holds. */
module ContractProver {
  import opened Wrappers
  import opened Ir

  datatype ProofState = Proved | Refuted | Unknown

  type Bound = Option<I64>

  datatype IntRange = IntRange(lower: Bound, upper: Bound)

  type RangeEnv = map<string, IntRange>

  const UNBOUNDED := IntRange(None, None)

  function Checked(n: int): Bound {
    if I64_MIN <= n <= I64_MAX then Some(n) else None
  }

  function AddBound(a: Bound, b: Bound): Bound {
    if a.Some? && b.Some? then Checked(a.value + b.value) else None
  }

  function SubBound(a: Bound, b: Bound): Bound {
    if a.Some? && b.Some? then Checked(a.value - b.value) else None
  }

  function NegBound(a: Bound): Bound {
    if a.Some? then Checked(0 - a.value) else None
  }

  function MinBound(a: Bound, b: Bound): Bound {
    if a.None? then b else if b.None? then a else if a.value <= b.value then a else b
  }

  function MaxBound(a: Bound, b: Bound): Bound {
    if a.None? then b else if b.None? then a else if a.value >= b.value then a else b
  }

  predicate Below(a: Bound, b: Bound) { a.Some? && b.Some? && a.value < b.value }

  predicate AtMost(a: Bound, b: Bound) { a.Some? && b.Some? && a.value <= b.value }

  // ---- constant folding --------------------------------------------------------

  datatype Const = IntC(n: I64) | BoolC(b: bool)

  function CheckedConst(n: int): Option<Const> {
    if I64_MIN <= n <= I64_MAX then Some(IntC(n)) else None
  }

  function ConstBinary(op: BinOp, left: Option<Const>, right: Option<Const>): Option<Const> {
    match (op, left, right)
    case (Add, Some(IntC(a)), Some(IntC(b))) => CheckedConst(a + b)
    case (Sub, Some(IntC(a)), Some(IntC(b))) => CheckedConst(a - b)
    case (Mul, Some(IntC(a)), Some(IntC(b))) => CheckedConst(a * b)
    case (Div, Some(IntC(a)), Some(IntC(b))) => if b == 0 then None else CheckedConst(TruncDiv(a, b))
    case (Mod, Some(IntC(a)), Some(IntC(b))) => if b == 0 then None else CheckedConst(TruncMod(a, b))
    case (Eq, Some(IntC(a)), Some(IntC(b))) => Some(BoolC(a == b))
    case (Eq, Some(BoolC(a)), Some(BoolC(b))) => Some(BoolC(a == b))
    case (Ne, Some(IntC(a)), Some(IntC(b))) => Some(BoolC(a != b))
    case (Ne, Some(BoolC(a)), Some(BoolC(b))) => Some(BoolC(a != b))
    case (Lt, Some(IntC(a)), Some(IntC(b))) => Some(BoolC(a < b))
    case (Le, Some(IntC(a)), Some(IntC(b))) => Some(BoolC(a <= b))
    case (Gt, Some(IntC(a)), Some(IntC(b))) => Some(BoolC(a > b))
    case (Ge, Some(IntC(a)), Some(IntC(b))) => Some(BoolC(a >= b))
    case (AndAlso, Some(BoolC(a)), Some(BoolC(b))) => Some(BoolC(a && b))
    case (OrElse, Some(BoolC(a)), Some(BoolC(b))) => Some(BoolC(a || b))
    case _ => None
  }

  /** Where the folding would overflow or divide by zero there is no constant. */
  function EvalConst(e: Expr): Option<Const> {
    match e
    case Int(n) => Some(IntC(n))
    case Bool(b) => Some(BoolC(b))
    case Unary(op, operand) =>
      (match (op, EvalConst(operand))
       case (Neg, Some(IntC(n))) => CheckedConst(0 - n)
       case (Not, Some(BoolC(b))) => Some(BoolC(!b))
       case _ => None)
    case Binary(op, lhs, rhs) => ConstBinary(op, EvalConst(lhs), EvalConst(rhs))
    case _ => None
  }

  // ---- ranges ------------------------------------------------------------------

  function RangeOf(renv: RangeEnv, x: string): IntRange {
    if x in renv then renv[x] else UNBOUNDED
  }

  function EvalIntRange(e: Expr, renv: RangeEnv, result: Option<Expr>): Option<IntRange>
    decreases result.Some?, e
  {
    match e
    case Int(n) => Some(IntRange(Some(n), Some(n)))
    case Var(x) =>
      if x == "result" then
        if result.Some? then EvalIntRange(result.value, renv, None) else None
      else Some(RangeOf(renv, x))
    case Unary(Neg, operand) =>
      (match EvalIntRange(operand, renv, result)
       case Some(r) => Some(IntRange(NegBound(r.upper), NegBound(r.lower)))
       case None => None)
    case Binary(Add, lhs, rhs) =>
      (match (EvalIntRange(lhs, renv, result), EvalIntRange(rhs, renv, result))
       case (Some(a), Some(b)) => Some(IntRange(AddBound(a.lower, b.lower), AddBound(a.upper, b.upper)))
       case _ => None)
    case Binary(Sub, lhs, rhs) =>
      (match (EvalIntRange(lhs, renv, result), EvalIntRange(rhs, renv, result))
       case (Some(a), Some(b)) => Some(IntRange(SubBound(a.lower, b.upper), SubBound(a.upper, b.lower)))
       case _ => None)
    case _ =>
      (match EvalConst(e)
       case Some(IntC(n)) => Some(IntRange(Some(n), Some(n)))
       case _ => None)
  }

  predicate SameIntExpr(a: Expr, b: Expr) {
    match (a, b)
    case (Int(m), Int(n)) => m == n
    case (Var(x), Var(y)) => x == y
    case (Unary(Neg, x), Unary(Neg, y)) => SameIntExpr(x, y)
    case (Binary(op1, l1, r1), Binary(op2, l2, r2)) =>
      op1 == op2 && (op1.Add? || op1.Sub?) && SameIntExpr(l1, l2) && SameIntExpr(r1, r2)
    case _ => false
  }

  predicate RangesDisjoint(a: IntRange, b: IntRange) {
    Below(a.upper, b.lower) || Below(b.upper, a.lower)
  }

  function Negated(p: ProofState): ProofState {
    match p
    case Proved => Refuted
    case Refuted => Proved
    case Unknown => Unknown
  }

  function Decide(yes: bool, no: bool): ProofState {
    if yes then Proved else if no then Refuted else Unknown
  }

  function CompareRanges(op: BinOp, a: IntRange, b: IntRange): ProofState
    decreases op.Ne?
  {
    match op
    case Lt => Decide(Below(a.upper, b.lower), AtMost(b.upper, a.lower))
    case Le => Decide(AtMost(a.upper, b.lower), Below(b.upper, a.lower))
    case Gt => Decide(Below(b.upper, a.lower), AtMost(a.upper, b.lower))
    case Ge => Decide(AtMost(b.upper, a.lower), Below(a.upper, b.lower))
    case Eq =>
      Decide(a.lower == a.upper && a.lower.Some? && a.lower == b.lower && b.lower == b.upper, RangesDisjoint(a, b))
    case Ne => Negated(CompareRanges(Eq, a, b))
    case _ => Unknown
  }

  function EvalComparison(op: BinOp, lhs: Expr, rhs: Expr, renv: RangeEnv, result: Option<Expr>): ProofState {
    if SameIntExpr(lhs, rhs) then
      match op
      case Eq => Proved
      case Le => Proved
      case Ge => Proved
      case Ne => Refuted
      case Lt => Refuted
      case Gt => Refuted
      case _ => Unknown
    else
      match (EvalIntRange(lhs, renv, result), EvalIntRange(rhs, renv, result))
      case (Some(a), Some(b)) => CompareRanges(op, a, b)
      case _ => Unknown
  }

  function EvalLogic(e: Expr, renv: RangeEnv, result: Option<Expr>): ProofState {
    match e
    case Bool(b) => if b then Proved else Refuted
    case Unary(Not, operand) => Negated(EvalLogic(operand, renv, result))
    case Binary(AndAlso, lhs, rhs) =>
      (match (EvalLogic(lhs, renv, result), EvalLogic(rhs, renv, result))
       case (Refuted, _) => Refuted
       case (_, Refuted) => Refuted
       case (Proved, Proved) => Proved
       case _ => Unknown)
    case Binary(OrElse, lhs, rhs) =>
      (match (EvalLogic(lhs, renv, result), EvalLogic(rhs, renv, result))
       case (Proved, _) => Proved
       case (_, Proved) => Proved
       case (Refuted, Refuted) => Refuted
       case _ => Unknown)
    case Binary(op, lhs, rhs) => EvalComparison(op, lhs, rhs, renv, result)
    case _ =>
      (match EvalConst(e)
       case Some(BoolC(b)) => if b then Proved else Refuted
       case _ => Unknown)
  }

  // ---- refinement and tail paths ---------------------------------------------

  function InvertCmp(op: BinOp): Option<BinOp> {
    match op
    case Lt => Some(Ge)
    case Le => Some(Gt)
    case Gt => Some(Le)
    case Ge => Some(Lt)
    case Eq => Some(Ne)
    case Ne => Some(Eq)
    case _ => None
  }

  function FlipCmp(op: BinOp): Option<BinOp> {
    match op
    case Lt => Some(Gt)
    case Le => Some(Ge)
    case Gt => Some(Lt)
    case Ge => Some(Le)
    case Eq => Some(Eq)
    case Ne => Some(Ne)
    case _ => None
  }

  function ExtractVarConst(lhs: Expr, rhs: Expr, op: BinOp): Option<(string, BinOp, I64)> {
    match (lhs, rhs)
    case (Var(x), Int(n)) => Some((x, op, n))
    case (Int(n), Var(x)) => (match FlipCmp(op)
                              case Some(flipped) => Some((x, flipped, n))
                              case None => None)
    case _ => None
  }

  /** `None` means the branch is taken to be infeasible. */
  function RefineRange(range: IntRange, cmp: BinOp, n: I64): Option<IntRange> {
    var next := match cmp
      case Lt => range.(upper := MinBound(range.upper, Checked(n - 1)))
      case Le => range.(upper := MinBound(range.upper, Some(n)))
      case Gt => range.(lower := MaxBound(range.lower, Checked(n + 1)))
      case Ge => range.(lower := MaxBound(range.lower, Some(n)))
      case Eq => IntRange(Some(n), Some(n))
      case _ => range;
    if Below(next.upper, next.lower) then None else Some(next)
  }

  function RefineEnv(renv: RangeEnv, cond: Expr, truth: bool): Option<RangeEnv> {
    if !cond.Binary? then Some(renv)
    else
      var cmp := if truth then Some(cond.op) else InvertCmp(cond.op);
      if cmp.None? then None
      else
        match ExtractVarConst(cond.lhs, cond.rhs, cmp.value)
        case None => Some(renv)
        case Some((x, op, n)) =>
          if op !in {Lt, Le, Gt, Ge, Eq, Ne} then Some(renv)
          else
            match RefineRange(RangeOf(renv, x), op, n)
            case None => None
            case Some(range) => Some(renv[x := range])
  }

  datatype TailPath = TailPath(renv: RangeEnv, result: Option<Expr>)

  function CollectTailPaths(block: Block, renv: RangeEnv): Option<seq<TailPath>> {
    if block.stmts != [] then None
    else
      match block.tail
      case Some(tail) => CollectExprPaths(tail, renv)
      case None => Some([TailPath(renv, None)])
  }

  function CollectExprPaths(e: Expr, renv: RangeEnv): Option<seq<TailPath>> {
    match e
    case If(cond, thenBlock, elseBlock) =>
      var onTrue := match RefineEnv(renv, cond, true)
        case Some(refined) => CollectTailPaths(thenBlock, refined)
        case None => Some([]);
      var onFalse := match RefineEnv(renv, cond, false)
        case Some(refined) => CollectTailPaths(elseBlock, refined)
        case None => Some([]);
      if onTrue.Some? && onFalse.Some? then Some(onTrue.value + onFalse.value) else None
    case Return(value) => Some([TailPath(renv, value)])
    case _ => Some([TailPath(renv, Some(e))])
  }

  function Prove(paths: seq<TailPath>, ensured: Expr): ProofState {
    if paths == [] then Proved
    else
      match EvalLogic(ensured, paths[0].renv, paths[0].result)
      case Refuted => Refuted
      case Proved => Prove(paths[1..], ensured)
      case Unknown => if Prove(paths[1..], ensured) == Refuted then Refuted else Unknown
  }

  function ProveEnsures(body: Block, ensured: Expr, renv: RangeEnv): ProofState {
    var direct := EvalLogic(ensured, renv, None);
    if direct != Unknown then direct
    else
      match CollectTailPaths(body, renv)
      case None => Unknown
      case Some(paths) => if paths == [] then Unknown else Prove(paths, ensured)
  }

  // ---- soundness of ranges and logic -----------------------------------------

  ghost predicate In(r: IntRange, i: int) {
    (r.lower.Some? ==> r.lower.value <= i) && (r.upper.Some? ==> i <= r.upper.value)
  }

  /** A range says something about integers only. */
  ghost predicate Fits(r: IntRange, v: Value) {
    if v.IntV? then In(r, v.n) else r == UNBOUNDED
  }

  ghost predicate VarFits(renv: RangeEnv, env: Env, x: string) {
    Lookup(env, x).Some? ==> Fits(RangeOf(renv, x), Lookup(env, x).value)
  }

  ghost predicate InRanges(renv: RangeEnv, env: Env) {
    forall x :: VarFits(renv, env, x)
  }

  /** The same but for the name the contract reserves. */
  ghost predicate InRangesBut(renv: RangeEnv, env: Env) {
    forall x | x != "result" :: VarFits(renv, env, x)
  }

  /** What is assumed of the value bound to `result`. */
  ghost predicate ResultFits(renv: RangeEnv, result: Option<Expr>, env: Env) {
    result.Some? && EvalIntRange(result.value, renv, None).Some? && Lookup(env, "result").Some? ==>
      Fits(EvalIntRange(result.value, renv, None).value, Lookup(env, "result").value)
  }

  function ValueOf(c: Const): Value {
    match c
    case IntC(n) => IntV(n)
    case BoolC(b) => BoolV(b)
  }

  lemma {:induction false} ConstBinarySound(op: BinOp, left: Const, right: Const, m: Machine)
    requires ConstBinary(op, Some(left), Some(right)).Some?
    ensures var folded := ValueOf(ConstBinary(op, Some(left), Some(right)).value);
            if op.AndAlso? || op.OrElse? then
              && ValueOf(left).BoolV? && ValueOf(right).BoolV?
              && folded == if ValueOf(left).b == op.OrElse? then ValueOf(left) else ValueOf(right)
            else ApplyBinary(op, ValueOf(left), ValueOf(right), m) == Some(folded)
  {
    hide TruncDiv, TruncMod;
  }

  lemma {:induction false} ConstSound(e: Expr, env: Env, m: Machine)
    requires EvalConst(e).Some?
    ensures Pure(e)
    ensures PureEval(e, env, m) == Some(ValueOf(EvalConst(e).value))
  {
    hide ApplyBinary, ConstBinary;
    match e
    case Int(_) =>
    case Bool(_) =>
    case Unary(_, operand) => ConstSound(operand, env, m);
    case Binary(op, lhs, rhs) =>
      ConstNeedsBoth(op, EvalConst(lhs), EvalConst(rhs));
      ConstSound(lhs, env, m);
      ConstSound(rhs, env, m);
      ConstBinarySound(op, EvalConst(lhs).value, EvalConst(rhs).value, m);
  }

  lemma {:induction false} ConstNeedsBoth(op: BinOp, left: Option<Const>, right: Option<Const>)
    requires ConstBinary(op, left, right).Some?
    ensures left.Some? && right.Some?
  {
  }

  /** Only block-free expressions have a range. */
  lemma {:induction false} RangedIsPure(e: Expr, renv: RangeEnv, result: Option<Expr>)
    requires EvalIntRange(e, renv, result).Some?
    ensures Pure(e)
  {
    match e
    case Int(_) =>
    case Var(_) =>
    case Unary(Neg, operand) => RangedIsPure(operand, renv, result);
    case Binary(Add, lhs, rhs) =>
      RangedIsPure(lhs, renv, result);
      RangedIsPure(rhs, renv, result);
    case Binary(Sub, lhs, rhs) =>
      RangedIsPure(lhs, renv, result);
      RangedIsPure(rhs, renv, result);
    case _ => ConstSound(e, [], Machine((f, vs) => None, (op, a, b) => 0, a => 0));
  }

  lemma {:induction false} NegationFits(r: IntRange, v: Value, m: Machine)
    requires Fits(r, v) && ApplyUnary(Neg, v, m).Some?
    ensures Fits(IntRange(NegBound(r.upper), NegBound(r.lower)), ApplyUnary(Neg, v, m).value)
  {
  }

  lemma {:induction false} SumFits(a: IntRange, b: IntRange, l: Value, r: Value, m: Machine)
    requires Fits(a, l) && Fits(b, r)
    ensures ApplyBinary(Add, l, r, m).Some? ==>
              Fits(IntRange(AddBound(a.lower, b.lower), AddBound(a.upper, b.upper)), ApplyBinary(Add, l, r, m).value)
    ensures ApplyBinary(Sub, l, r, m).Some? ==>
              Fits(IntRange(SubBound(a.lower, b.upper), SubBound(a.upper, b.lower)), ApplyBinary(Sub, l, r, m).value)
  {
  }

  lemma {:induction false} VarRangeSound(x: string, renv: RangeEnv, result: Option<Expr>, env: Env)
    requires InRangesBut(renv, env) && ResultFits(renv, result, env)
    requires EvalIntRange(Var(x), renv, result).Some? && Lookup(env, x).Some?
    ensures Fits(EvalIntRange(Var(x), renv, result).value, Lookup(env, x).value)
  {
    assert x != "result" ==> VarFits(renv, env, x);
  }

  /** Interval evaluation contains every value the expression can take. */
  lemma {:induction false} RangeSound(e: Expr, renv: RangeEnv, result: Option<Expr>, env: Env, m: Machine)
    requires InRangesBut(renv, env) && ResultFits(renv, result, env)
    requires Pure(e) && EvalIntRange(e, renv, result).Some? && PureEval(e, env, m).Some?
    ensures Fits(EvalIntRange(e, renv, result).value, PureEval(e, env, m).value)
  {
    hide InRangesBut, ResultFits, ApplyBinary, ApplyUnary, AddBound, SubBound, NegBound, Lookup;
    match e
    case Int(_) =>
    case Var(x) => VarRangeSound(x, renv, result, env);
    case Unary(Neg, operand) =>
      RangeSound(operand, renv, result, env, m);
      NegationFits(EvalIntRange(operand, renv, result).value, PureEval(operand, env, m).value, m);
    case Binary(Add, lhs, rhs) =>
      RangeSound(lhs, renv, result, env, m);
      RangeSound(rhs, renv, result, env, m);
      SumFits(EvalIntRange(lhs, renv, result).value, EvalIntRange(rhs, renv, result).value,
              PureEval(lhs, env, m).value, PureEval(rhs, env, m).value, m);
    case Binary(Sub, lhs, rhs) =>
      RangeSound(lhs, renv, result, env, m);
      RangeSound(rhs, renv, result, env, m);
      SumFits(EvalIntRange(lhs, renv, result).value, EvalIntRange(rhs, renv, result).value,
              PureEval(lhs, env, m).value, PureEval(rhs, env, m).value, m);
    case _ => ConstSound(e, env, m);
  }

  lemma {:induction false} SameIntExprSound(a: Expr, b: Expr)
    requires SameIntExpr(a, b)
    ensures a == b
  {
    match (a, b)
    case (Int(_), Int(_)) =>
    case (Var(_), Var(_)) =>
    case (Unary(Neg, x), Unary(Neg, y)) => SameIntExprSound(x, y);
    case (Binary(_, l1, r1), Binary(_, l2, r2)) =>
      SameIntExprSound(l1, l2);
      SameIntExprSound(r1, r2);
  }

  /** A definite verdict is the truth value, whenever the expression has one. */
  ghost predicate Agrees(p: ProofState, v: Option<Value>) {
    v.Some? && v.value.BoolV? ==> (p == Proved ==> v.value.b) && (p == Refuted ==> !v.value.b)
  }

  lemma {:induction false} CompareRangesSound(op: BinOp, a: IntRange, b: IntRange, l: Value, r: Value, m: Machine)
    requires !op.AndAlso? && !op.OrElse? && Fits(a, l) && Fits(b, r)
    ensures Agrees(CompareRanges(op, a, b), ApplyBinary(op, l, r, m))
  {
  }

  lemma {:induction false} ComparisonSound(op: BinOp, lhs: Expr, rhs: Expr, renv: RangeEnv, result: Option<Expr>,
                                           env: Env, m: Machine)
    requires !op.AndAlso? && !op.OrElse?
    requires InRangesBut(renv, env) && ResultFits(renv, result, env)
    requires Pure(Binary(op, lhs, rhs))
    ensures Agrees(EvalComparison(op, lhs, rhs, renv, result), PureEval(Binary(op, lhs, rhs), env, m))
  {
    hide SameIntExpr, EvalIntRange, CompareRanges, InRangesBut, ResultFits, Fits;
    if SameIntExpr(lhs, rhs) {
      SameIntExprSound(lhs, rhs);
    } else {
      hide ApplyBinary;
      var (l, r) := (PureEval(lhs, env, m), PureEval(rhs, env, m));
      var (a, b) := (EvalIntRange(lhs, renv, result), EvalIntRange(rhs, renv, result));
      if l.Some? && r.Some? && a.Some? && b.Some? {
        RangeSound(lhs, renv, result, env, m);
        RangeSound(rhs, renv, result, env, m);
        CompareRangesSound(op, a.value, b.value, l.value, r.value, m);
      }
    }
  }

  /** A definite verdict of the three-valued prover is the truth. */
  lemma {:induction false} LogicSound(e: Expr, renv: RangeEnv, result: Option<Expr>, env: Env, m: Machine)
    requires InRangesBut(renv, env) && ResultFits(renv, result, env) && Pure(e)
    ensures Agrees(EvalLogic(e, renv, result), PureEval(e, env, m))
  {
    match e
    case Bool(_) =>
    case Unary(Not, operand) => LogicSound(operand, renv, result, env, m);
    case Binary(op, lhs, rhs) =>
      if op.AndAlso? || op.OrElse? {
        LogicSound(lhs, renv, result, env, m);
        LogicSound(rhs, renv, result, env, m);
      } else {
        ComparisonSound(op, lhs, rhs, renv, result, env, m);
      }
    case _ =>
      if EvalConst(e).Some? {
        ConstSound(e, env, m);
      }
  }

  // ---- soundness of refinement ----------------------------------------------

  /** The scope of the line that drops an else branch: conditions built with an
      operator that has no inverse comparison. */
  predicate Invertible(cond: Expr) {
    cond.Binary? ==> InvertCmp(cond.op).Some?
  }

  predicate Compare(op: BinOp, a: int, b: int) {
    match op
    case Lt => a < b
    case Le => a <= b
    case Gt => a > b
    case Ge => a >= b
    case Eq => a == b
    case Ne => a != b
    case _ => false
  }

  lemma {:induction false} RefineRangeSound(range: IntRange, op: BinOp, i: int, n: I64)
    requires In(range, i) && Compare(op, i, n)
    ensures RefineRange(range, op, n).Some? && In(RefineRange(range, op, n).value, i)
  {
  }

  /** What a condition with the given truth value says about the variable it compares. */
  lemma {:induction false} ExtractedHolds(cond: Expr, truth: bool, cmp: BinOp, env: Env, m: Machine)
    requires Pure(cond) && cond.Binary? && PureEval(cond, env, m) == Some(BoolV(truth))
    requires if truth then cmp == cond.op else InvertCmp(cond.op) == Some(cmp)
    requires ExtractVarConst(cond.lhs, cond.rhs, cmp).Some?
    ensures var (x, op, n) := ExtractVarConst(cond.lhs, cond.rhs, cmp).value;
            op in {Lt, Le, Gt, Ge, Eq, Ne} ==>
              Lookup(env, x).Some? && Lookup(env, x).value.IntV? && Compare(op, Lookup(env, x).value.n, n)
  {
    var l, r := PureEval(cond.lhs, env, m), PureEval(cond.rhs, env, m);
    if !cond.op.AndAlso? && !cond.op.OrElse? {
      assert ApplyBinary(cond.op, l.value, r.value, m) == Some(BoolV(truth));
    }
  }

  lemma {:induction false} RefinedVarFits(renv: RangeEnv, env: Env, x: string, range: IntRange)
    requires InRanges(renv, env)
    requires Lookup(env, x).Some? ==> Fits(range, Lookup(env, x).value)
    ensures InRanges(renv[x := range], env)
  {
    var refined := renv[x := range];
    forall y ensures VarFits(refined, env, y) {
      assert VarFits(renv, env, y);
    }
  }

  /** Refinement over-approximates the branch: a state in which the condition has the
      given truth value stays inside the refined ranges, and the branch is kept for
      every condition but the uninvertible ones on their else path. */
  lemma {:induction false} RefineSound(renv: RangeEnv, cond: Expr, truth: bool, env: Env, m: Machine)
    requires Pure(cond) && InRanges(renv, env) && PureEval(cond, env, m) == Some(BoolV(truth))
    ensures RefineEnv(renv, cond, truth).Some? <==> truth || Invertible(cond)
    ensures RefineEnv(renv, cond, truth).Some? ==> InRanges(RefineEnv(renv, cond, truth).value, env)
  {
    if cond.Binary? {
      var cmp := if truth then Some(cond.op) else InvertCmp(cond.op);
      if cmp.Some? && ExtractVarConst(cond.lhs, cond.rhs, cmp.value).Some? {
        hide PureEval;
        ExtractedHolds(cond, truth, cmp.value, env, m);
        var (x, op, n) := ExtractVarConst(cond.lhs, cond.rhs, cmp.value).value;
        assert VarFits(renv, env, x);
        if op in {Lt, Le, Gt, Ge, Eq, Ne} {
          RefineRangeSound(RangeOf(renv, x), op, Lookup(env, x).value.n, n);
          RefinedVarFits(renv, env, x, RefineRange(RangeOf(renv, x), op, n).value);
        }
      }
    }
  }
}
