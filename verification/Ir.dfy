/** The expression language the contract passes and the formatter work on, and its
    big-step meaning. Loops take fuel; everything else recurses on the program. The machine says
    what the language leaves open. */
module Ir {
  import opened Wrappers

  const I64_MIN := -0x8000_0000_0000_0000
  const I64_MAX := 0x7fff_ffff_ffff_ffff

  type I64 = n: int | I64_MIN <= n <= I64_MAX

  datatype BinOp =
    | OrElse | AndAlso
    | BitOr | BitXor | BitAnd
    | Eq | Ne | Lt | Le | Gt | Ge
    | Shl | Shr | Ushr
    | Add | Sub | Mul | Div | Mod

  datatype UnaryOp = Neg | Not | BitNot

  datatype Expr =
    | Int(n: I64)
    | Bool(b: bool)
    | Unit
    | Var(name: string)
    | Call(callee: Expr, args: seq<Expr>)
    | If(cond: Expr, thenBlock: Block, elseBlock: Block)
    | While(cond: Expr, body: Block)
    | Loop(body: Block)
    | Break(value: Option<Expr>)
    | Continue
    | Return(value: Option<Expr>)
    | Match(scrutinee: Expr, arms: seq<MatchArm>)
    | Binary(op: BinOp, lhs: Expr, rhs: Expr)
    | Unary(uop: UnaryOp, operand: Expr)
    | UnsafeBlock(block: Block)

  datatype Block = Block(stmts: seq<Stmt>, tail: Option<Expr>)

  datatype Stmt =
    | LetStmt(name: string, init: Expr)
    | AssignStmt(target: string, init: Expr)
    | ExprStmt(expr: Expr)
    | AssertStmt(expr: Expr, message: string)
    | ReturnStmt(value: Option<Expr>)

  /** An arm without a guard. */
  datatype MatchArm = MatchArm(pattern: Pattern, body: Expr)

  datatype Pattern =
    | AnyPat
    | BindPat(name: string)
    | IntPat(n: I64)
    | BoolPat(b: bool)
    | UnitPat
    | OrPat(alternatives: seq<Pattern>)

  datatype Value = IntV(n: int) | BoolV(b: bool) | UnitV

  datatype Binding = Binding(name: string, value: Value)

  /** Bindings in scope, innermost last. */
  type Env = seq<Binding>

  datatype Outcome =
    | Normal(value: Value, env: Env)
    | Returned(value: Value, env: Env)   // with the environment at the exit
    | Broke(value: Value, env: Env)
    | Continued(env: Env)
    | Failed(message: string)
    | Stuck
    | Timeout

  /** What the fragment does not define: other functions and bit operations. */
  datatype Machine = Machine(
    call: (string, seq<Value>) -> Option<Value>,
    bitOp: (BinOp, int, int) -> int,
    bitNot: int -> int)

  // ---- environments --------------------------------------------------------

  function Lookup(env: Env, x: string): Option<Value> {
    if env == [] then None
    else if env[|env| - 1].name == x then Some(env[|env| - 1].value)
    else Lookup(env[..|env| - 1], x)
  }

  ghost predicate SameNames(a: Env, b: Env) {
    |a| == |b| && forall i | 0 <= i < |a| :: a[i].name == b[i].name
  }

  ghost predicate Grown(env: Env, grown: Env) {
    |env| <= |grown| && SameNames(env, grown[..|env|])
  }

  function Assign(env: Env, x: string, v: Value): (r: Option<Env>)
    ensures r.Some? ==> SameNames(env, r.value)
    ensures r.Some? <==> Lookup(env, x).Some?
  {
    if env == [] then None
    else if env[|env| - 1].name == x then Some(env[..|env| - 1] + [Binding(x, v)])
    else
      match Assign(env[..|env| - 1], x, v)
      case None => None
      case Some(front) => Some(front + [env[|env| - 1]])
  }

  // ---- operators -------------------------------------------------------------

  function Abs(n: int): nat { if n < 0 then -n else n }

  /** Division toward zero. */
  function TruncDiv(a: int, b: int): int
    requires b != 0
  {
    if (a < 0) == (b < 0) then Abs(a) / Abs(b) else -(Abs(a) / Abs(b))
  }

  /** Remainder with the sign of the dividend. */
  function TruncMod(a: int, b: int): int
    requires b != 0
  {
    a - TruncDiv(a, b) * b
  }

  function ApplyUnary(op: UnaryOp, v: Value, m: Machine): Option<Value> {
    match (op, v)
    case (Neg, IntV(n)) => Some(IntV(-n))
    case (BitNot, IntV(n)) => Some(IntV(m.bitNot(n)))
    case (Not, BoolV(b)) => Some(BoolV(!b))
    case _ => None
  }

  /** The strict binary operators; `None` is a trap or a type clash. */
  function ApplyBinary(op: BinOp, l: Value, r: Value, m: Machine): Option<Value> {
    match (op, l, r)
    case (Eq, IntV(a), IntV(b)) => Some(BoolV(a == b))
    case (Eq, BoolV(a), BoolV(b)) => Some(BoolV(a == b))
    case (Ne, IntV(a), IntV(b)) => Some(BoolV(a != b))
    case (Ne, BoolV(a), BoolV(b)) => Some(BoolV(a != b))
    case (Lt, IntV(a), IntV(b)) => Some(BoolV(a < b))
    case (Le, IntV(a), IntV(b)) => Some(BoolV(a <= b))
    case (Gt, IntV(a), IntV(b)) => Some(BoolV(a > b))
    case (Ge, IntV(a), IntV(b)) => Some(BoolV(a >= b))
    case (Add, IntV(a), IntV(b)) => Some(IntV(a + b))
    case (Sub, IntV(a), IntV(b)) => Some(IntV(a - b))
    case (Mul, IntV(a), IntV(b)) => Some(IntV(a * b))
    case (Div, IntV(a), IntV(b)) => if b == 0 then None else Some(IntV(TruncDiv(a, b)))
    case (Mod, IntV(a), IntV(b)) => if b == 0 then None else Some(IntV(TruncMod(a, b)))
    case (_, IntV(a), IntV(b)) =>
      if op in {BitOr, BitXor, BitAnd, Shl, Shr, Ushr} then Some(IntV(m.bitOp(op, a, b))) else None
    case _ => None
  }

  function BindPattern(pattern: Pattern, v: Value): Option<Env>
    decreases pattern, 1
  {
    match pattern
    case AnyPat => Some([])
    case BindPat(x) => Some([Binding(x, v)])
    case IntPat(n) => if v == IntV(n) then Some([]) else None
    case BoolPat(b) => if v == BoolV(b) then Some([]) else None
    case UnitPat => if v == UnitV then Some([]) else None
    case OrPat(alternatives) => BindAlternatives(alternatives, v)
  }

  function BindAlternatives(alternatives: seq<Pattern>, v: Value): Option<Env>
    decreases alternatives, 0
  {
    if alternatives == [] then None
    else
      match BindPattern(alternatives[0], v)
      case Some(bound) => Some(bound)
      case None => BindAlternatives(alternatives[1..], v)
  }

  /** The first arm whose pattern takes `v`: its position and bindings. */
  function ChooseArm(arms: seq<MatchArm>, v: Value): (r: Option<(nat, Env)>)
    ensures r.Some? ==> r.value.0 < |arms|
  {
    if arms == [] then None
    else
      match BindPattern(arms[0].pattern, v)
      case Some(bound) => Some((0, bound))
      case None =>
        match ChooseArm(arms[1..], v)
        case None => None
        case Some((i, bound)) => Some((i + 1, bound))
  }

  // ---- evaluation --------------------------------------------------------------

  function FromPure(v: Option<Value>, env: Env): Outcome {
    match v
    case Some(value) => Normal(value, env)
    case None => Stuck
  }

  /** Leaving a scope that started at `depth` bindings; a return keeps its exit environment. */
  function Leave(o: Outcome, depth: nat): Outcome {
    match o
    case Normal(v, env) => if depth <= |env| then Normal(v, env[..depth]) else o
    case Broke(v, env) => if depth <= |env| then Broke(v, env[..depth]) else o
    case Continued(env) => if depth <= |env| then Continued(env[..depth]) else o
    case _ => o
  }

  /** Outcomes that stay in the function keep the names in scope. */
  ghost predicate KeepsScope(o: Outcome, env: Env) {
    match o
    case Normal(_, after) => SameNames(env, after)
    case Broke(_, after) => SameNames(env, after)
    case Continued(after) => SameNames(env, after)
    case _ => true
  }

  ghost predicate GrowsScope(o: Outcome, env: Env) {
    match o
    case Normal(_, after) => Grown(env, after)
    case Broke(_, after) => Grown(env, after)
    case Continued(after) => Grown(env, after)
    case _ => true
  }

  datatype ArgsOutcome = Args(values: seq<Value>, env: Env) | Stop(outcome: Outcome)

  function EvalExpr(e: Expr, env: Env, m: Machine, fuel: nat): (o: Outcome)
    ensures KeepsScope(o, env)
    decreases fuel, e, 1
  {
    match e
    case Int(n) => Normal(IntV(n), env)
    case Bool(b) => Normal(BoolV(b), env)
    case Unit => Normal(UnitV, env)
    case Var(x) => FromPure(Lookup(env, x), env)
    case Call(callee, args) =>
      if !callee.Var? then Stuck
      else
        (match EvalArgs(args, env, m, fuel)
         case Stop(o) => o
         case Args(vs, env1) => FromPure(m.call(callee.name, vs), env1))
    case If(cond, thenBlock, elseBlock) =>
      (match EvalExpr(cond, env, m, fuel)
       case Normal(BoolV(b), env1) => EvalBlock(if b then thenBlock else elseBlock, env1, m, fuel)
       case Normal(_, _) => Stuck
       case other => other)
    case While(_, _) => EvalWhile(e, env, m, fuel)
    case Loop(body) =>
      (match EvalBlock(body, env, m, fuel)
       case Normal(_, env1) => if fuel == 0 then Timeout else EvalExpr(e, env1, m, fuel - 1)
       case Continued(env1) => if fuel == 0 then Timeout else EvalExpr(e, env1, m, fuel - 1)
       case Broke(v, env1) => Normal(v, env1)
       case other => other)
    case Break(value) =>
      (match EvalOption(value, env, m, fuel)
       case Normal(v, env1) => Broke(v, env1)
       case other => other)
    case Continue => Continued(env)
    case Return(value) => AsReturn(EvalOption(value, env, m, fuel))
    case Match(scrutinee, arms) =>
      (match EvalExpr(scrutinee, env, m, fuel)
       case Normal(v, env1) =>
         (match ChooseArm(arms, v)
          case None => Stuck
          case Some((i, bound)) => Leave(EvalExpr(arms[i].body, env1 + bound, m, fuel), |env1|))
       case other => other)
    case Binary(op, lhs, rhs) =>
      (match EvalExpr(lhs, env, m, fuel)
       case Normal(l, env1) =>
         if op.AndAlso? || op.OrElse? then
           if !l.BoolV? then Stuck
           else if l.b == op.OrElse? then Normal(l, env1)
           else
             (match EvalExpr(rhs, env1, m, fuel)
              case Normal(r, env2) => if r.BoolV? then Normal(r, env2) else Stuck
              case other => other)
         else
           (match EvalExpr(rhs, env1, m, fuel)
            case Normal(r, env2) => FromPure(ApplyBinary(op, l, r, m), env2)
            case other => other)
       case other => other)
    case Unary(op, operand) =>
      (match EvalExpr(operand, env, m, fuel)
       case Normal(v, env1) => FromPure(ApplyUnary(op, v, m), env1)
       case other => other)
    case UnsafeBlock(block) => EvalBlock(block, env, m, fuel)
  }

  function EvalWhile(e: Expr, env: Env, m: Machine, fuel: nat): (o: Outcome)
    requires e.While?
    ensures KeepsScope(o, env)
    decreases fuel, e, 0
  {
    match EvalExpr(e.cond, env, m, fuel)
    case Normal(BoolV(true), env1) =>
      (match EvalBlock(e.body, env1, m, fuel)
       case Normal(_, env2) => if fuel == 0 then Timeout else EvalExpr(e, env2, m, fuel - 1)
       case Continued(env2) => if fuel == 0 then Timeout else EvalExpr(e, env2, m, fuel - 1)
       case Broke(_, env2) => Normal(UnitV, env2)
       case other => other)
    case Normal(BoolV(false), env1) => Normal(UnitV, env1)
    case Normal(_, _) => Stuck
    case other => other
  }

  function AsReturn(o: Outcome): Outcome {
    match o
    case Normal(v, env) => Returned(v, env)
    case other => other
  }

  function EvalOption(e: Option<Expr>, env: Env, m: Machine, fuel: nat): (o: Outcome)
    ensures KeepsScope(o, env)
    decreases fuel, e, 2
  {
    match e
    case None => Normal(UnitV, env)
    case Some(expr) => EvalExpr(expr, env, m, fuel)
  }

  function EvalArgs(args: seq<Expr>, env: Env, m: Machine, fuel: nat): (r: ArgsOutcome)
    ensures r.Args? ==> SameNames(env, r.env)
    ensures r.Stop? ==> !r.outcome.Normal? && KeepsScope(r.outcome, env)
    decreases fuel, args, 0
  {
    if args == [] then Args([], env)
    else
      match EvalExpr(args[0], env, m, fuel)
      case Normal(v, env1) =>
        (match EvalArgs(args[1..], env1, m, fuel)
         case Args(vs, env2) => Args([v] + vs, env2)
         case Stop(o) => Stop(o))
      case other => Stop(other)
  }

  /** A block without leaving its scope: how a function body runs. */
  function RunBlock(block: Block, env: Env, m: Machine, fuel: nat): (o: Outcome)
    ensures GrowsScope(o, env)
    decreases fuel, block, 2
  {
    match EvalStmts(block.stmts, env, m, fuel)
    case Normal(_, env1) => EvalOption(block.tail, env1, m, fuel)
    case other => other
  }

  function EvalBlock(block: Block, env: Env, m: Machine, fuel: nat): (o: Outcome)
    ensures KeepsScope(o, env)
    decreases fuel, block, 3
  {
    Leave(RunBlock(block, env, m, fuel), |env|)
  }

  function EvalStmts(stmts: seq<Stmt>, env: Env, m: Machine, fuel: nat): (o: Outcome)
    ensures GrowsScope(o, env)
    decreases fuel, stmts, 1
  {
    if stmts == [] then Normal(UnitV, env)
    else
      match EvalStmt(stmts[0], env, m, fuel)
      case Normal(_, env1) => EvalStmts(stmts[1..], env1, m, fuel)
      case other => other
  }

  function EvalStmt(stmt: Stmt, env: Env, m: Machine, fuel: nat): (o: Outcome)
    ensures GrowsScope(o, env)
    decreases fuel, stmt, 0
  {
    match stmt
    case LetStmt(x, init) =>
      (match EvalExpr(init, env, m, fuel)
       case Normal(v, env1) => Normal(UnitV, env1 + [Binding(x, v)])
       case other => other)
    case AssignStmt(x, init) =>
      (match EvalExpr(init, env, m, fuel)
       case Normal(v, env1) =>
         (match Assign(env1, x, v)
          case Some(env2) => Normal(UnitV, env2)
          case None => Stuck)
       case other => other)
    case ExprStmt(expr) =>
      (match EvalExpr(expr, env, m, fuel)
       case Normal(_, env1) => Normal(UnitV, env1)
       case other => other)
    case AssertStmt(expr, message) =>
      (match EvalExpr(expr, env, m, fuel)
       case Normal(BoolV(true), env1) => Normal(UnitV, env1)
       case Normal(BoolV(false), _) => Failed(message)
       case Normal(_, _) => Stuck
       case other => other)
    case ReturnStmt(value) => AsReturn(EvalOption(value, env, m, fuel))
  }

  /** What a caller sees of a function body. */
  datatype FnResult = Completed(value: Value) | Stopped(message: string) | Trap | OutOfFuel

  function ResultOf(o: Outcome): FnResult {
    match o
    case Normal(v, _) => Completed(v)
    case Returned(v, _) => Completed(v)
    case Failed(message) => Stopped(message)
    case Timeout => OutOfFuel
    case _ => Trap
  }

  // ---- expressions without blocks ---------------------------------------------

  /** No block, loop, jump or match: the shape contract clauses have. */
  predicate Pure(e: Expr)
    decreases e
  {
    match e
    case Int(_) => true
    case Bool(_) => true
    case Unit => true
    case Var(_) => true
    case Call(callee, args) => callee.Var? && forall a <- args :: Pure(a)
    case Binary(_, lhs, rhs) => Pure(lhs) && Pure(rhs)
    case Unary(_, operand) => Pure(operand)
    case _ => false
  }

  function PureEval(e: Expr, env: Env, m: Machine): Option<Value>
    requires Pure(e)
    decreases e, 1
  {
    match e
    case Int(n) => Some(IntV(n))
    case Bool(b) => Some(BoolV(b))
    case Unit => Some(UnitV)
    case Var(x) => Lookup(env, x)
    case Call(callee, args) =>
      (match PureEvalAll(args, env, m)
       case Some(vs) => m.call(callee.name, vs)
       case None => None)
    case Binary(op, lhs, rhs) =>
      var l := PureEval(lhs, env, m);
      if l.None? then None
      else if op.AndAlso? || op.OrElse? then
        if !l.value.BoolV? then None
        else if l.value.b == op.OrElse? then l
        else
          var r := PureEval(rhs, env, m);
          if r.Some? && r.value.BoolV? then r else None
      else
        var r := PureEval(rhs, env, m);
        if r.None? then None else ApplyBinary(op, l.value, r.value, m)
    case Unary(op, operand) =>
      (match PureEval(operand, env, m)
       case Some(v) => ApplyUnary(op, v, m)
       case None => None)
  }

  function PureEvalAll(args: seq<Expr>, env: Env, m: Machine): Option<seq<Value>>
    requires forall a <- args :: Pure(a)
    decreases args, 0
  {
    if args == [] then Some([])
    else
      match PureEval(args[0], env, m)
      case None => None
      case Some(v) =>
        match PureEvalAll(args[1..], env, m)
        case None => None
        case Some(vs) => Some([v] + vs)
  }

  /** Contract clauses evaluate as plain expressions: no effect, no fuel. */
  lemma {:induction false} PureRuns(e: Expr, env: Env, m: Machine, fuel: nat)
    requires Pure(e)
    ensures EvalExpr(e, env, m, fuel) == FromPure(PureEval(e, env, m), env)
    decreases e, 1
  {
    match e
    case Int(_) =>
    case Bool(_) =>
    case Unit =>
    case Var(_) =>
    case Call(_, args) => PureRunsAll(args, env, m, fuel);
    case Binary(_, lhs, rhs) =>
      PureRuns(lhs, env, m, fuel);
      PureRuns(rhs, env, m, fuel);
    case Unary(_, operand) => PureRuns(operand, env, m, fuel);
  }

  lemma {:induction false} PureRunsAll(args: seq<Expr>, env: Env, m: Machine, fuel: nat)
    requires forall a <- args :: Pure(a)
    ensures EvalArgs(args, env, m, fuel) == match PureEvalAll(args, env, m)
                                            case Some(vs) => Args(vs, env)
                                            case None => Stop(Stuck)
    decreases args, 0
  {
    if args != [] {
      PureRuns(args[0], env, m, fuel);
      PureRunsAll(args[1..], env, m, fuel);
    }
  }
}
