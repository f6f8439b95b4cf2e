/** Instrumented exits, and why the lowered body means the same. */
module ContractLowering {
  import opened Wrappers
  import opened Ir
  import opened Scopes
  import opened ContractProver
  import opened ContractVerdict

  // ---- names -------------------------------------------------------------------

  function ResultName(symbol: nat): string {
    "__aic_result_" + Decimal(symbol)
  }

  function EnsuresMessage(owner: string): string {
    "contract_violation{kind:ensures,owner:" + owner + "}: ensures failed in " + owner
  }

  function RequiresMessage(owner: string): string {
    "contract_violation{kind:requires,owner:" + owner + "}: requires failed in " + owner
  }

  // ---- substitution ------------------------------------------------------------

  function Subst(e: Expr, r: string): Expr
    decreases e, 1
  {
    match e
    case Var(x) => if x == "result" then Var(r) else e
    case Call(callee, args) => Call(Subst(callee, r), SubstAll(args, r))
    case If(cond, thenBlock, elseBlock) => If(Subst(cond, r), thenBlock, elseBlock)
    case While(cond, body) => While(Subst(cond, r), body)
    case Break(value) => Break(SubstOption(value, r))
    case Return(value) => Return(SubstOption(value, r))
    case Match(scrutinee, arms) => Match(Subst(scrutinee, r), SubstArms(arms, r))
    case Binary(op, lhs, rhs) => Binary(op, Subst(lhs, r), Subst(rhs, r))
    case Unary(op, operand) => Unary(op, Subst(operand, r))
    case _ => e
  }

  function SubstOption(e: Option<Expr>, r: string): Option<Expr>
    decreases e, 0
  {
    match e
    case None => None
    case Some(expr) => Some(Subst(expr, r))
  }

  function SubstAll(args: seq<Expr>, r: string): seq<Expr>
    decreases args, 0
  {
    if args == [] then [] else [Subst(args[0], r)] + SubstAll(args[1..], r)
  }

  function SubstArms(arms: seq<MatchArm>, r: string): seq<MatchArm>
    decreases arms, 0
  {
    if arms == [] then [] else [SubstArm(arms[0], r)] + SubstArms(arms[1..], r)
  }

  function SubstArm(arm: MatchArm, r: string): MatchArm
    decreases arm, 0
  {
    MatchArm(arm.pattern, Subst(arm.body, r))
  }

  /** A contract clause written by a user: no block, no reserved name, no call of `result`. */
  predicate UserClause(e: Expr)
    decreases e
  {
    match e
    case Int(_) => true
    case Bool(_) => true
    case Unit => true
    case Var(x) => !Reserved(x)
    case Call(callee, args) => callee.Var? && callee.name != "result" && forall a <- args :: UserClause(a)
    case Binary(_, lhs, rhs) => UserClause(lhs) && UserClause(rhs)
    case Unary(_, operand) => UserClause(operand)
    case _ => false
  }

  lemma {:induction false} UserClauseIsPure(e: Expr)
    requires UserClause(e)
    ensures Pure(e)
    decreases e
  {
    match e
    case Call(_, args) =>
      forall a | a in args ensures Pure(a) {
        UserClauseIsPure(a);
      }
    case Binary(_, lhs, rhs) =>
      UserClauseIsPure(lhs);
      UserClauseIsPure(rhs);
    case Unary(_, operand) => UserClauseIsPure(operand);
    case _ =>
  }

  /** The substituted clause under the fresh name means the clause under `result`. */
  lemma {:induction false} SubstMeans(e: Expr, r: string, env: Env, v: Value, m: Machine)
    requires UserClause(e) && Reserved(r)
    ensures Pure(e) && Pure(Subst(e, r))
    ensures PureEval(Subst(e, r), env + [Binding(r, v)], m) == PureEval(e, env + [Binding("result", v)], m)
    decreases e, 1
  {
    match e
    case Var(x) =>
      LookupPushed(env, r, v, x);
      LookupPushed(env, r, v, r);
      LookupPushed(env, "result", v, x);
    case Call(_, args) => SubstAllMeans(args, r, env, v, m);
    case Binary(_, lhs, rhs) =>
      SubstMeans(lhs, r, env, v, m);
      SubstMeans(rhs, r, env, v, m);
    case Unary(_, operand) => SubstMeans(operand, r, env, v, m);
    case _ =>
  }

  lemma {:induction false} SubstAllMeans(args: seq<Expr>, r: string, env: Env, v: Value, m: Machine)
    requires (forall a <- args :: UserClause(a)) && Reserved(r)
    ensures (forall a <- args :: Pure(a)) && (forall a <- SubstAll(args, r) :: Pure(a))
    ensures PureEvalAll(SubstAll(args, r), env + [Binding(r, v)], m) ==
              PureEvalAll(args, env + [Binding("result", v)], m)
    decreases args, 0
  {
    if args != [] {
      SubstMeans(args[0], r, env, v, m);
      SubstAllMeans(args[1..], r, env, v, m);
      assert SubstAll(args, r)[1..] == SubstAll(args[1..], r);
    }
  }

  // ---- lowering as a function of the symbol counter --------------------------------

  /** The postcondition and whose it is. */
  datatype Contract = Contract(ensured: Expr, owner: string)

  function LowerExpr(e: Expr, c: Contract, n: nat): (r: (Expr, nat))
    decreases e, 2
  {
    match e
    case Call(callee, args) =>
      var (callee1, n1) := LowerExpr(callee, c, n);
      var (args1, n2) := LowerAll(args, c, n1);
      (Call(callee1, args1), n2)
    case If(cond, thenBlock, elseBlock) =>
      var (cond1, n1) := LowerExpr(cond, c, n);
      var (then1, n2) := LowerInner(thenBlock, c, n1);
      var (else1, n3) := LowerInner(elseBlock, c, n2);
      (If(cond1, then1, else1), n3)
    case While(cond, body) =>
      var (cond1, n1) := LowerExpr(cond, c, n);
      var (body1, n2) := LowerInner(body, c, n1);
      (While(cond1, body1), n2)
    case Loop(body) =>
      var (body1, n1) := LowerInner(body, c, n);
      (Loop(body1), n1)
    case Break(value) =>
      var (value1, n1) := LowerOption(value, c, n);
      (Break(value1), n1)
    case Return(value) =>
      var (exit, n1) := LowerExit(value, c, n);
      (Return(Some(UnsafeBlock(Block([exit.binding, exit.check], Some(exit.result))))), n1)
    case Match(scrutinee, arms) =>
      var (scrutinee1, n1) := LowerExpr(scrutinee, c, n);
      var (arms1, n2) := LowerArms(arms, c, n1);
      (Match(scrutinee1, arms1), n2)
    case Binary(op, lhs, rhs) =>
      var (lhs1, n1) := LowerExpr(lhs, c, n);
      var (rhs1, n2) := LowerExpr(rhs, c, n1);
      (Binary(op, lhs1, rhs1), n2)
    case Unary(op, operand) =>
      var (operand1, n1) := LowerExpr(operand, c, n);
      (Unary(op, operand1), n1)
    case UnsafeBlock(block) =>
      var (block1, n1) := LowerInner(block, c, n);
      (UnsafeBlock(block1), n1)
    case _ => (e, n)
  }

  function LowerOption(e: Option<Expr>, c: Contract, n: nat): (r: (Option<Expr>, nat))
    decreases e, 3
  {
    match e
    case None => (None, n)
    case Some(expr) => var (expr1, n1) := LowerExpr(expr, c, n); (Some(expr1), n1)
  }

  function LowerAll(args: seq<Expr>, c: Contract, n: nat): (r: (seq<Expr>, nat))
    ensures |r.0| == |args|
    decreases args, 0
  {
    if args == [] then ([], n)
    else
      var (arg1, n1) := LowerExpr(args[0], c, n);
      var (rest1, n2) := LowerAll(args[1..], c, n1);
      ([arg1] + rest1, n2)
  }

  function LowerArms(arms: seq<MatchArm>, c: Contract, n: nat): (r: (seq<MatchArm>, nat))
    ensures |r.0| == |arms|
    decreases arms, 0
  {
    if arms == [] then ([], n)
    else
      var (arm1, n1) := LowerArm(arms[0], c, n);
      var (rest1, n2) := LowerArms(arms[1..], c, n1);
      ([arm1] + rest1, n2)
  }

  function LowerArm(arm: MatchArm, c: Contract, n: nat): (r: (MatchArm, nat))
    decreases arm, 0
  {
    var (body1, n1) := LowerExpr(arm.body, c, n);
    (MatchArm(arm.pattern, body1), n1)
  }

  /** The three statements an exit becomes. */
  datatype Exit = Exit(binding: Stmt, check: Stmt, result: Expr)

  function LowerExit(value: Option<Expr>, c: Contract, n: nat): (r: (Exit, nat))
    decreases value, 4
  {
    var (value1, symbol) := LowerOption(value, c, n);
    var init := if value1.None? then Unit else value1.value;
    var name := ResultName(symbol);
    (Exit(LetStmt(name, init), AssertStmt(Subst(c.ensured, name), EnsuresMessage(c.owner)), Var(name)), symbol + 1)
  }

  function ExitStmts(exit: Exit): seq<Stmt> {
    [exit.binding, exit.check, ReturnStmt(Some(exit.result))]
  }

  function LowerStmt(stmt: Stmt, c: Contract, n: nat): (r: (seq<Stmt>, nat))
    decreases stmt, 5
  {
    match stmt
    case LetStmt(x, init) => var (init1, n1) := LowerExpr(init, c, n); ([LetStmt(x, init1)], n1)
    case AssignStmt(x, init) => var (init1, n1) := LowerExpr(init, c, n); ([AssignStmt(x, init1)], n1)
    case ExprStmt(expr) => var (expr1, n1) := LowerExpr(expr, c, n); ([ExprStmt(expr1)], n1)
    case AssertStmt(expr, message) =>
      var (expr1, n1) := LowerExpr(expr, c, n);
      ([AssertStmt(expr1, message)], n1)
    case ReturnStmt(value) => var (exit, n1) := LowerExit(value, c, n); (ExitStmts(exit), n1)
  }

  function LowerStmts(stmts: seq<Stmt>, c: Contract, n: nat): (r: (seq<Stmt>, nat))
    decreases stmts, 0
  {
    if stmts == [] then ([], n)
    else
      var (first1, n1) := LowerStmt(stmts[0], c, n);
      var (rest1, n2) := LowerStmts(stmts[1..], c, n1);
      (first1 + rest1, n2)
  }

  /** A block whose tail is not an exit of the function. */
  function LowerInner(block: Block, c: Contract, n: nat): (r: (Block, nat))
    decreases block, 1
  {
    var (stmts1, n1) := LowerStmts(block.stmts, c, n);
    var (tail1, n2) := LowerOption(block.tail, c, n1);
    (Block(stmts1, tail1), n2)
  }

  /** The function's own block, whose tail is an exit. */
  function LowerBody(block: Block, c: Contract, n: nat): (r: (Block, nat)) {
    var (stmts1, n1) := LowerStmts(block.stmts, c, n);
    var (exit, n2) := LowerExit(block.tail, c, n1);
    (Block(stmts1 + ExitStmts(exit), None), n2)
  }

  // ---- meaning ---------------------------------------------------------------------

  /** How the lowered program's outcome relates to the original's: the same, except that
      a return is first checked against the postcondition at its exit. */
  ghost predicate Checked(c: Contract, m: Machine, o: Outcome, o1: Outcome)
    requires Pure(c.ensured)
  {
    if o.Returned? then
      match ContractValue(c.ensured, o.env, o.value, m)
      case Some(BoolV(true)) => o1.Returned? && o1.value == o.value
      case Some(BoolV(false)) => o1 == Failed(EnsuresMessage(c.owner))
      case _ => o1 == Stuck
    else o1 == o
  }

  lemma {:induction false} StmtsAppend(a: seq<Stmt>, b: seq<Stmt>, env: Env, m: Machine, fuel: nat)
    ensures EvalStmts(a + b, env, m, fuel) ==
            var o := EvalStmts(a, env, m, fuel);
            if o.Normal? then EvalStmts(b, o.env, m, fuel) else o
    decreases |a|
  {
    if a == [] {
      assert a + b == b;
    } else {
      assert (a + b)[0] == a[0] && (a + b)[1..] == a[1..] + b;
      var o := EvalStmt(a[0], env, m, fuel);
      if o.Normal? {
        StmtsAppend(a[1..], b, o.env, m, fuel);
      }
    }
  }

  /** The binding and the check of an exit, run on the value `v` of the exit expression. */
  lemma {:induction false} ExitRuns(init: Expr, symbol: nat, c: Contract, env: Env, m: Machine, fuel: nat)
    requires UserClause(c.ensured) && Pure(c.ensured)
    ensures var name := ResultName(symbol);
            var stmts := [LetStmt(name, init), AssertStmt(Subst(c.ensured, name), EnsuresMessage(c.owner))];
            var o, o1 := EvalExpr(init, env, m, fuel), EvalStmts(stmts, env, m, fuel);
            if o.Normal? then
              match ContractValue(c.ensured, o.env, o.value, m)
              case Some(BoolV(true)) => o1 == Normal(UnitV, o.env + [Binding(name, o.value)])
              case Some(BoolV(false)) => o1 == Failed(EnsuresMessage(c.owner))
              case _ => o1 == Stuck
            else o1 == o
  {
    var name := ResultName(symbol);
    var binding, check := LetStmt(name, init), AssertStmt(Subst(c.ensured, name), EnsuresMessage(c.owner));
    assert [binding, check][1..] == [check] && [check][1..] == [];
    var o := EvalExpr(init, env, m, fuel);
    if o.Normal? {
      var pushed := o.env + [Binding(name, o.value)];
      SubstMeans(c.ensured, name, o.env, o.value, m);
      PureRuns(Subst(c.ensured, name), pushed, m, fuel);
      assert EvalStmt(binding, env, m, fuel) == Normal(UnitV, pushed);
      assert EvalStmts([binding, check], env, m, fuel) == EvalStmts([check], pushed, m, fuel);
      OneStmtRuns(check, pushed, m, fuel);
    }
  }

  lemma {:induction false} OneStmtRuns(stmt: Stmt, env: Env, m: Machine, fuel: nat)
    requires !stmt.ReturnStmt?
    ensures EvalStmts([stmt], env, m, fuel) == EvalStmt(stmt, env, m, fuel)
  {
    assert [stmt][1..] == [];
  }

  lemma {:induction false} LeaveSame(o: Outcome, env: Env)
    requires KeepsScope(o, env)
    ensures Leave(o, |env|) == o
  {
    if o.Normal? || o.Broke? || o.Continued? {
      assert o.env[..|env|] == o.env;
    }
  }

  /** The check passed: the bound name gives the exit value back. */
  lemma {:induction false} ResultReadBack(init: Expr, symbol: nat, c: Contract, env: Env, m: Machine, fuel: nat)
    requires UserClause(c.ensured) && Pure(c.ensured)
    ensures var name := ResultName(symbol);
            var stmts := [LetStmt(name, init), AssertStmt(Subst(c.ensured, name), EnsuresMessage(c.owner))];
            var o, o1 := EvalExpr(init, env, m, fuel), EvalStmts(stmts, env, m, fuel);
            o1.Normal? ==> o.Normal? && EvalExpr(Var(name), o1.env, m, fuel) == Normal(o.value, o1.env)
  {
    ExitRuns(init, symbol, c, env, m, fuel);
    var o := EvalExpr(init, env, m, fuel);
    if o.Normal? {
      LookupPushed(o.env, ResultName(symbol), o.value, ResultName(symbol));
    }
  }

  /** A statement exit against its three lowered statements. */
  lemma {:induction false} ReturnStmtChecked(value: Option<Expr>, c: Contract, n: nat, env: Env, m: Machine, fuel: nat)
    requires UserClause(c.ensured) && Pure(c.ensured)
    requires Checked(c, m, EvalOption(value, env, m, fuel), EvalOption(LowerOption(value, c, n).0, env, m, fuel))
    ensures Checked(c, m, AsReturn(EvalOption(value, env, m, fuel)),
              EvalStmts(ExitStmts(LowerExit(value, c, n).0), env, m, fuel))
  {
    hide Subst, UserClause, EnsuresMessage, ResultName, Pure, LowerExpr, Lookup;
    var (value1, symbol) := LowerOption(value, c, n);
    var init := if value1.None? then Unit else value1.value;
    var exit := LowerExit(value, c, n).0;
    var last := ReturnStmt(Some(exit.result));
    ExitRuns(init, symbol, c, env, m, fuel);
    ResultReadBack(init, symbol, c, env, m, fuel);
    assert ExitStmts(exit) == [exit.binding, exit.check] + [last];
    StmtsAppend([exit.binding, exit.check], [last], env, m, fuel);
    var o1, checked := EvalExpr(init, env, m, fuel), EvalStmts([exit.binding, exit.check], env, m, fuel);
    if checked.Normal? {
      assert EvalStmt(last, checked.env, m, fuel) == AsReturn(EvalExpr(exit.result, checked.env, m, fuel));
      assert EvalStmts([last], checked.env, m, fuel) == Returned(o1.value, checked.env);
    }
  }

  lemma {:induction false} TailedBlockRuns(stmts: seq<Stmt>, tail: Expr, env: Env, m: Machine, fuel: nat)
    ensures RunBlock(Block(stmts, Some(tail)), env, m, fuel) ==
            var o := EvalStmts(stmts, env, m, fuel);
            if o.Normal? then EvalExpr(tail, o.env, m, fuel) else o
  {
    var o := EvalStmts(stmts, env, m, fuel);
    if o.Normal? {
      assert EvalOption(Some(tail), o.env, m, fuel) == EvalExpr(tail, o.env, m, fuel);
    }
  }

  /** What a `return` expression runs to before and after lowering. */
  lemma {:induction false} ReturnExprRuns(value: Option<Expr>, c: Contract, n: nat, env: Env, m: Machine, fuel: nat)
    ensures EvalExpr(Return(value), env, m, fuel) == AsReturn(EvalOption(value, env, m, fuel))
    ensures var exit := LowerExit(value, c, n).0;
            EvalExpr(LowerExpr(Return(value), c, n).0, env, m, fuel)
              == AsReturn(Leave(RunBlock(Block([exit.binding, exit.check], Some(exit.result)), env, m, fuel), |env|))
  {
    var exit := LowerExit(value, c, n).0;
    hide LowerExit;
    var block := Block([exit.binding, exit.check], Some(exit.result));
    assert LowerExpr(Return(value), c, n).0 == Return(Some(UnsafeBlock(block)));
    hide LowerExpr, RunBlock;
    var inner := Some(UnsafeBlock(block));
    assert EvalExpr(Return(inner), env, m, fuel) == AsReturn(EvalOption(inner, env, m, fuel));
    assert EvalOption(inner, env, m, fuel) == EvalExpr(inner.value, env, m, fuel);
    assert EvalExpr(inner.value, env, m, fuel) == EvalBlock(block, env, m, fuel);
  }

  /** `return e` as an expression, against the block it returns after lowering. */
  lemma {:induction false} ReturnExprChecked(value: Option<Expr>, c: Contract, n: nat, env: Env, m: Machine, fuel: nat)
    requires UserClause(c.ensured) && Pure(c.ensured)
    requires Checked(c, m, EvalOption(value, env, m, fuel), EvalOption(LowerOption(value, c, n).0, env, m, fuel))
    ensures Checked(c, m, EvalExpr(Return(value), env, m, fuel),
              EvalExpr(LowerExpr(Return(value), c, n).0, env, m, fuel))
  {
    hide Subst, UserClause, EnsuresMessage, ResultName, Pure, EvalStmts, RunBlock, LowerExpr, Lookup;
    ReturnExprRuns(value, c, n, env, m, fuel);
    var (value1, symbol) := LowerOption(value, c, n);
    var init := if value1.None? then Unit else value1.value;
    var exit := LowerExit(value, c, n).0;
    ExitRuns(init, symbol, c, env, m, fuel);
    ResultReadBack(init, symbol, c, env, m, fuel);
    var stmts := [exit.binding, exit.check];
    TailedBlockRuns(stmts, exit.result, env, m, fuel);
    var o1 := EvalExpr(init, env, m, fuel);
    assert o1 == EvalOption(value1, env, m, fuel);
    hide EvalExpr, EvalOption;
    if !o1.Normal? {
      LeaveSame(o1, env);
    }
  }

  lemma {:induction false} LowerKeepsVar(e: Expr, c: Contract, n: nat)
    ensures LowerExpr(e, c, n).0.Var? <==> e.Var?
    ensures e.Var? ==> LowerExpr(e, c, n).0 == e
  {
  }

  lemma {:induction false} LowerArmsAt(arms: seq<MatchArm>, c: Contract, n: nat, i: nat) returns (k: nat)
    requires i < |arms|
    ensures LowerArms(arms, c, n).0[i] == MatchArm(arms[i].pattern, LowerExpr(arms[i].body, c, k).0)
  {
    if i == 0 {
      k := n;
    } else {
      k := LowerArmsAt(arms[1..], c, LowerArm(arms[0], c, n).1, i - 1);
    }
  }

  lemma {:induction false} LowerArmsChoose(arms: seq<MatchArm>, c: Contract, n: nat, v: Value)
    ensures ChooseArm(LowerArms(arms, c, n).0, v) == ChooseArm(arms, v)
  {
    if arms != [] {
      var n1 := LowerArm(arms[0], c, n).1;
      LowerArmsChoose(arms[1..], c, n1, v);
      assert LowerArms(arms, c, n).0[1..] == LowerArms(arms[1..], c, n1).0;
    }
  }

  /** Lowering preserves the meaning of every expression up to the check at its returns. */
  lemma {:induction false} LowerExprChecked(e: Expr, c: Contract, n: nat, env: Env, m: Machine, fuel: nat)
    requires UserClause(c.ensured) && Pure(c.ensured)
    ensures Checked(c, m, EvalExpr(e, env, m, fuel), EvalExpr(LowerExpr(e, c, n).0, env, m, fuel))
    decreases fuel, e, 3
  {
    hide UserClause, Pure, Subst, ContractValue, Lookup, ApplyBinary;
    match e
    case Int(_) =>
    case Bool(_) =>
    case Unit =>
    case Var(_) =>
    case Continue =>
    case Call(_, _) => LowerCallChecked(e, c, n, env, m, fuel);
    case If(_, _, _) => LowerIfChecked(e, c, n, env, m, fuel);
    case While(_, _) => LowerWhileChecked(e, c, n, env, m, fuel);
    case Loop(_) => LowerLoopChecked(e, c, n, env, m, fuel);
    case Break(value) => LowerOptionChecked(value, c, n, env, m, fuel);
    case Return(value) =>
      LowerOptionChecked(value, c, n, env, m, fuel);
      ReturnExprChecked(value, c, n, env, m, fuel);
    case Match(_, _) => LowerMatchChecked(e, c, n, env, m, fuel);
    case Binary(_, _, _) => LowerBinaryChecked(e, c, n, env, m, fuel);
    case Unary(_, operand) => LowerExprChecked(operand, c, n, env, m, fuel);
    case UnsafeBlock(block) => LowerInnerChecked(block, c, n, env, m, fuel);
  }

  lemma {:induction false} LowerCallChecked(e: Expr, c: Contract, n: nat, env: Env, m: Machine, fuel: nat)
    requires UserClause(c.ensured) && Pure(c.ensured) && e.Call?
    ensures Checked(c, m, EvalExpr(e, env, m, fuel), EvalExpr(LowerExpr(e, c, n).0, env, m, fuel))
    decreases fuel, e, 2
  {
    hide UserClause, Pure, Subst, ContractValue, Lookup, ApplyUnary, ApplyBinary;
    LowerKeepsVar(e.callee, c, n);
    LowerAllChecked(e.args, c, LowerExpr(e.callee, c, n).1, env, m, fuel);
  }

  lemma {:induction false} LowerIfChecked(e: Expr, c: Contract, n: nat, env: Env, m: Machine, fuel: nat)
    requires UserClause(c.ensured) && Pure(c.ensured) && e.If?
    ensures Checked(c, m, EvalExpr(e, env, m, fuel), EvalExpr(LowerExpr(e, c, n).0, env, m, fuel))
    decreases fuel, e, 2
  {
    hide UserClause, Pure, Subst, ContractValue, Lookup, ApplyUnary, ApplyBinary;
    var n1 := LowerExpr(e.cond, c, n).1;
    LowerExprChecked(e.cond, c, n, env, m, fuel);
    var o := EvalExpr(e.cond, env, m, fuel);
    if o.Normal? && o.value.BoolV? {
      if o.value.b {
        LowerInnerChecked(e.thenBlock, c, n1, o.env, m, fuel);
      } else {
        LowerInnerChecked(e.elseBlock, c, LowerInner(e.thenBlock, c, n1).1, o.env, m, fuel);
      }
    }
  }

  lemma {:induction false} LowerWhileChecked(e: Expr, c: Contract, n: nat, env: Env, m: Machine, fuel: nat)
    requires UserClause(c.ensured) && Pure(c.ensured) && e.While?
    ensures Checked(c, m, EvalExpr(e, env, m, fuel), EvalExpr(LowerExpr(e, c, n).0, env, m, fuel))
    decreases fuel, e, 2
  {
    hide UserClause, Pure, Subst, ContractValue, Lookup, ApplyUnary, ApplyBinary;
    hide LowerStmts, LowerInner, LowerAll, LowerArms, EvalArgs, EvalBlock;
    LowerExprChecked(e.cond, c, n, env, m, fuel);
    var o := EvalExpr(e.cond, env, m, fuel);
    if o.Normal? && o.value == BoolV(true) {
      LowerInnerChecked(e.body, c, LowerExpr(e.cond, c, n).1, o.env, m, fuel);
      var o1 := EvalBlock(e.body, o.env, m, fuel);
      if (o1.Normal? || o1.Continued?) && fuel > 0 {
        LowerExprChecked(e, c, n, o1.env, m, fuel - 1);
      }
    }
  }

  lemma {:induction false} LowerLoopChecked(e: Expr, c: Contract, n: nat, env: Env, m: Machine, fuel: nat)
    requires UserClause(c.ensured) && Pure(c.ensured) && e.Loop?
    ensures Checked(c, m, EvalExpr(e, env, m, fuel), EvalExpr(LowerExpr(e, c, n).0, env, m, fuel))
    decreases fuel, e, 2
  {
    hide UserClause, Pure, Subst, ContractValue, Lookup, ApplyUnary, ApplyBinary;
    LowerInnerChecked(e.body, c, n, env, m, fuel);
    var o := EvalBlock(e.body, env, m, fuel);
    if (o.Normal? || o.Continued?) && fuel > 0 {
      LowerExprChecked(e, c, n, o.env, m, fuel - 1);
    }
  }

  lemma {:induction false} LowerMatchChecked(e: Expr, c: Contract, n: nat, env: Env, m: Machine, fuel: nat)
    requires UserClause(c.ensured) && Pure(c.ensured) && e.Match?
    ensures Checked(c, m, EvalExpr(e, env, m, fuel), EvalExpr(LowerExpr(e, c, n).0, env, m, fuel))
    decreases fuel, e, 2
  {
    hide UserClause, Pure, Subst, ContractValue, Lookup, ApplyUnary, ApplyBinary;
    hide LowerStmts, LowerInner, LowerAll, EvalArgs, EvalBlock;
    var n1 := LowerExpr(e.scrutinee, c, n).1;
    LowerExprChecked(e.scrutinee, c, n, env, m, fuel);
    var o := EvalExpr(e.scrutinee, env, m, fuel);
    if o.Normal? {
      LowerArmsChoose(e.arms, c, n1, o.value);
      if ChooseArm(e.arms, o.value).Some? {
        var (i, bound) := ChooseArm(e.arms, o.value).value;
        var k := LowerArmsAt(e.arms, c, n1, i);
        LowerExprChecked(e.arms[i].body, c, k, o.env + bound, m, fuel);
      }
    }
  }

  lemma {:induction false} LowerBinaryChecked(e: Expr, c: Contract, n: nat, env: Env, m: Machine, fuel: nat)
    requires UserClause(c.ensured) && Pure(c.ensured) && e.Binary?
    ensures Checked(c, m, EvalExpr(e, env, m, fuel), EvalExpr(LowerExpr(e, c, n).0, env, m, fuel))
    decreases fuel, e, 2
  {
    hide UserClause, Pure, Subst, ContractValue, Lookup, ApplyUnary, ApplyBinary;
    hide LowerStmts, LowerInner, LowerArms, LowerAll, EvalArgs, EvalBlock;
    LowerExprChecked(e.lhs, c, n, env, m, fuel);
    var o := EvalExpr(e.lhs, env, m, fuel);
    if o.Normal? {
      LowerExprChecked(e.rhs, c, LowerExpr(e.lhs, c, n).1, o.env, m, fuel);
    }
  }

  lemma {:induction false} LowerOptionChecked(e: Option<Expr>, c: Contract, n: nat, env: Env, m: Machine, fuel: nat)
    requires UserClause(c.ensured) && Pure(c.ensured)
    ensures Checked(c, m, EvalOption(e, env, m, fuel), EvalOption(LowerOption(e, c, n).0, env, m, fuel))
    decreases fuel, e, 4
  {
    if e.Some? {
      LowerExprChecked(e.value, c, n, env, m, fuel);
    }
  }

  lemma {:induction false} LowerAllChecked(args: seq<Expr>, c: Contract, n: nat, env: Env, m: Machine, fuel: nat)
    requires UserClause(c.ensured) && Pure(c.ensured)
    ensures var r, r1 := EvalArgs(args, env, m, fuel), EvalArgs(LowerAll(args, c, n).0, env, m, fuel);
            if r.Args? then r1 == r else r1.Stop? && Checked(c, m, r.outcome, r1.outcome)
    decreases fuel, args, 0
  {
    if args != [] {
      var n1 := LowerExpr(args[0], c, n).1;
      LowerExprChecked(args[0], c, n, env, m, fuel);
      var o := EvalExpr(args[0], env, m, fuel);
      assert LowerAll(args, c, n).0[1..] == LowerAll(args[1..], c, n1).0;
      if o.Normal? {
        LowerAllChecked(args[1..], c, n1, o.env, m, fuel);
      }
    }
  }

  lemma {:induction false} LowerInnerChecked(block: Block, c: Contract, n: nat, env: Env, m: Machine, fuel: nat)
    requires UserClause(c.ensured) && Pure(c.ensured)
    ensures Checked(c, m, EvalBlock(block, env, m, fuel), EvalBlock(LowerInner(block, c, n).0, env, m, fuel))
    decreases fuel, block, 2
  {
    hide UserClause, Pure, Subst, ContractValue, Lookup, EvalExpr, LowerExpr;
    LowerStmtsChecked(block.stmts, c, n, env, m, fuel);
    var o := EvalStmts(block.stmts, env, m, fuel);
    if o.Normal? {
      LowerOptionChecked(block.tail, c, LowerStmts(block.stmts, c, n).1, o.env, m, fuel);
    }
    assert Checked(c, m, RunBlock(block, env, m, fuel), RunBlock(LowerInner(block, c, n).0, env, m, fuel));
  }

  lemma {:induction false} LowerStmtsChecked(stmts: seq<Stmt>, c: Contract, n: nat, env: Env, m: Machine, fuel: nat)
    requires UserClause(c.ensured) && Pure(c.ensured)
    ensures Checked(c, m, EvalStmts(stmts, env, m, fuel), EvalStmts(LowerStmts(stmts, c, n).0, env, m, fuel))
    decreases fuel, stmts, 0
  {
    hide UserClause, Pure, Subst, ContractValue, Lookup, EvalExpr, LowerExpr;
    if stmts != [] {
      var (first1, n1) := LowerStmt(stmts[0], c, n);
      LowerStmtChecked(stmts[0], c, n, env, m, fuel);
      StmtsAppend(first1, LowerStmts(stmts[1..], c, n1).0, env, m, fuel);
      var o := EvalStmt(stmts[0], env, m, fuel);
      if o.Normal? {
        LowerStmtsChecked(stmts[1..], c, n1, o.env, m, fuel);
      }
    }
  }

  lemma {:induction false} LowerStmtChecked(stmt: Stmt, c: Contract, n: nat, env: Env, m: Machine, fuel: nat)
    requires UserClause(c.ensured) && Pure(c.ensured)
    ensures Checked(c, m, EvalStmt(stmt, env, m, fuel), EvalStmts(LowerStmt(stmt, c, n).0, env, m, fuel))
    decreases fuel, stmt, 6
  {
    hide UserClause, Pure, Subst, ContractValue, Lookup, EvalExpr, LowerExpr;
    if stmt.ReturnStmt? {
      LowerOptionChecked(stmt.value, c, n, env, m, fuel);
      ReturnStmtChecked(stmt.value, c, n, env, m, fuel);
    } else {
      LowerExprChecked(if stmt.LetStmt? || stmt.AssignStmt? then stmt.init else stmt.expr, c, n, env, m, fuel);
      OneStmtRuns(LowerStmt(stmt, c, n).0[0], env, m, fuel);
    }
  }

  /** An exit value checked against the postcondition. */
  ghost predicate ExitChecked(c: Contract, m: Machine, o: Outcome, o1: Outcome)
    requires Pure(c.ensured)
  {
    if Exits(o) then
      match ContractValue(c.ensured, o.env, o.value, m)
      case Some(BoolV(true)) => Exits(o1) && o1.value == o.value
      case Some(BoolV(false)) => o1 == Failed(EnsuresMessage(c.owner))
      case _ => o1 == Stuck
    else o1 == o
  }

  /** The whole body: returns nested to any depth and the tail are all checked. */
  lemma {:induction false} LowerBodyChecked(block: Block, c: Contract, n: nat, env: Env, m: Machine, fuel: nat)
    requires UserClause(c.ensured) && Pure(c.ensured)
    ensures ExitChecked(c, m, RunBlock(block, env, m, fuel), RunBlock(LowerBody(block, c, n).0, env, m, fuel))
  {
    var (stmts1, n1) := LowerStmts(block.stmts, c, n);
    var (exit, _) := LowerExit(block.tail, c, n1);
    LowerStmtsChecked(block.stmts, c, n, env, m, fuel);
    StmtsAppend(stmts1, ExitStmts(exit), env, m, fuel);
    var o := EvalStmts(block.stmts, env, m, fuel);
    var lowered := EvalStmts(stmts1 + ExitStmts(exit), env, m, fuel);
    if o.Normal? {
      LowerOptionChecked(block.tail, c, n1, o.env, m, fuel);
      ReturnStmtChecked(block.tail, c, n1, o.env, m, fuel);
      assert RunBlock(block, env, m, fuel) == EvalOption(block.tail, o.env, m, fuel);
      assert lowered == EvalStmts(ExitStmts(exit), o.env, m, fuel);
    }
    assert !lowered.Normal?;
    assert RunBlock(Block(stmts1 + ExitStmts(exit), None), env, m, fuel) == lowered;
  }

  // ---- functions -------------------------------------------------------------------

  datatype Function = Function(
    name: string,
    params: seq<string>,
    required: Option<Expr>,
    ensured: Option<Expr>,
    body: Block,
    external: bool)

  predicate RequiresDischarged(f: Function) {
    f.required.Some? && EvalLogic(f.required.value, Unconstrained(f.params), None) == Proved
  }

  predicate EnsuresDischarged(f: Function) {
    f.ensured.Some? && ProveEnsures(f.body, f.ensured.value, Unconstrained(f.params)) == Proved
  }

  function WithRequires(f: Function): Block {
    if f.required.Some? && !RequiresDischarged(f) then
      Block([AssertStmt(f.required.value, RequiresMessage(f.name))] + f.body.stmts, f.body.tail)
    else f.body
  }

  function LowerFunction(f: Function, n: nat): (r: (Function, nat)) {
    if f.external then (f, n)
    else if f.ensured.Some? && !EnsuresDischarged(f) then
      var (body, n1) := LowerBody(WithRequires(f), Contract(f.ensured.value, f.name), n);
      (f.(body := body), n1)
    else (f.(body := WithRequires(f)), n)
  }

  function Run(f: Function, env: Env, m: Machine, fuel: nat): FnResult {
    ResultOf(RunBlock(f.body, env, m, fuel))
  }

  ghost predicate UserContracts(f: Function) {
    (f.required.Some? ==> UserClause(f.required.value)) && (f.ensured.Some? ==> UserClause(f.ensured.value))
  }

  /** A contract clause as a gate in front of `result`. */
  function Gate(clause: Option<Value>, message: string, result: FnResult): FnResult {
    match clause
    case Some(BoolV(true)) => result
    case Some(BoolV(false)) => Stopped(message)
    case _ => Trap
  }

  /** The precondition on entry, the body, and the postcondition of the value it exits
      with, its names looked up in `scope`. */
  ghost function ContractedIn(f: Function, scope: Env, env: Env, m: Machine, fuel: nat): FnResult
    requires UserContracts(f)
  {
    var o := RunBlock(f.body, env, m, fuel);
    var exit :=
      if f.ensured.Some? && Exits(o) then
        UserClauseIsPure(f.ensured.value);
        Gate(ContractValue(f.ensured.value, scope, o.value, m), EnsuresMessage(f.name), ResultOf(o))
      else ResultOf(o);
    if f.required.Some? then
      UserClauseIsPure(f.required.value);
      Gate(PureEval(f.required.value, env, m), RequiresMessage(f.name), exit)
    else exit
  }

  /** The contract semantics: the names of the postcondition are the parameters as they were
      on entry. */
  ghost function Contracted(f: Function, env: Env, m: Machine, fuel: nat): FnResult
    requires UserContracts(f)
  {
    ContractedIn(f, env, env, m, fuel)
  }

  function ExitScopeOf(o: Outcome, env: Env): Env {
    if o.Normal? || o.Returned? then o.env else env
  }

  lemma {:induction false} AssertedBodyRuns(body: Block, clause: Expr, message: string, env: Env, m: Machine, fuel: nat)
    requires Pure(clause)
    ensures RunBlock(Block([AssertStmt(clause, message)] + body.stmts, body.tail), env, m, fuel) ==
            match PureEval(clause, env, m)
            case Some(BoolV(true)) => RunBlock(body, env, m, fuel)
            case Some(BoolV(false)) => Failed(message)
            case _ => Stuck
  {
    var check := AssertStmt(clause, message);
    var stmts := [check] + body.stmts;
    assert stmts[0] == check && stmts[1..] == body.stmts;
    PureRuns(clause, env, m, fuel);
    assert EvalStmts(stmts, env, m, fuel) ==
      var o := EvalStmt(check, env, m, fuel);
      if o.Normal? then EvalStmts(body.stmts, o.env, m, fuel) else o;
  }

  /** How the body with its precondition in front runs. */
  lemma {:induction false} WithRequiresRuns(f: Function, env: Env, m: Machine, fuel: nat)
    requires UserContracts(f)
    ensures f.required.Some? ==> Pure(f.required.value)
    ensures var o := RunBlock(WithRequires(f), env, m, fuel);
            if f.required.None? then o == RunBlock(f.body, env, m, fuel)
            else
              match PureEval(f.required.value, env, m)
              case Some(BoolV(true)) => o == RunBlock(f.body, env, m, fuel)
              case Some(BoolV(false)) => o == Failed(RequiresMessage(f.name))
              case _ => RequiresDischarged(f) || o == Stuck
  {
    if f.required.Some? {
      UserClauseIsPure(f.required.value);
      if RequiresDischarged(f) {
        UnconstrainedFits(f.params, env);
        LogicSound(f.required.value, Unconstrained(f.params), None, env, m);
      } else {
        AssertedBodyRuns(f.body, f.required.value, RequiresMessage(f.name), env, m, fuel);
      }
    }
  }

  /** A run with the postcondition checked at its exits, after a precondition that held or
      was discharged. */
  lemma {:induction false} CheckedExit(f: Function, n: nat, env: Env, m: Machine, fuel: nat)
    requires !f.external && UserContracts(f) && f.ensured.Some? && !EnsuresDischarged(f)
    ensures Pure(f.ensured.value)
    ensures var o := RunBlock(WithRequires(f), env, m, fuel);
            Run(LowerFunction(f, n).0, env, m, fuel) ==
              if Exits(o)
              then Gate(ContractValue(f.ensured.value, o.env, o.value, m), EnsuresMessage(f.name), ResultOf(o))
              else ResultOf(o)
  {
    hide RunBlock, ContractValue, EnsuresDischarged, UserClause, Pure, WithRequires, LowerBody;
    UserClauseIsPure(f.ensured.value);
    LowerBodyChecked(WithRequires(f), Contract(f.ensured.value, f.name), n, env, m, fuel);
  }

  /** What instrumentation does as it stands: the postcondition is read where the body
      exits, among whatever bindings are in scope there. */
  lemma {:induction false} LoweringReadsAtExit(f: Function, n: nat, env: Env, m: Machine, fuel: nat)
    requires !f.external && UserContracts(f) && !EnsuresDischarged(f)
    ensures var here := ContractedIn(f, ExitScopeOf(RunBlock(f.body, env, m, fuel), env), env, m, fuel);
            && (here != Trap ==> Run(LowerFunction(f, n).0, env, m, fuel) == here)
            && (!RequiresDischarged(f) ==> Run(LowerFunction(f, n).0, env, m, fuel) == here)
  {
    hide RunBlock, ContractValue, PureEval, EnsuresDischarged, RequiresDischarged, UserClause, Pure, WithRequires;
    WithRequiresRuns(f, env, m, fuel);
    if f.ensured.Some? {
      CheckedExit(f, n, env, m, fuel);
    }
  }

  /** The names a clause looks up. */
  function FreeNames(e: Expr): set<string>
    decreases e, 1
  {
    match e
    case Var(x) => {x}
    case Call(_, args) => AllFreeNames(args)
    case Binary(_, lhs, rhs) => FreeNames(lhs) + FreeNames(rhs)
    case Unary(_, operand) => FreeNames(operand)
    case _ => {}
  }

  function AllFreeNames(args: seq<Expr>): set<string>
    decreases args, 0
  {
    if args == [] then {} else FreeNames(args[0]) + AllFreeNames(args[1..])
  }

  lemma {:induction false} ClauseAgrees(e: Expr, a: Env, b: Env, m: Machine)
    requires UserClause(e) && Pure(e) && forall x | x in FreeNames(e) :: Lookup(a, x) == Lookup(b, x)
    ensures PureEval(e, a, m) == PureEval(e, b, m)
    decreases e, 1
  {
    match e
    case Call(_, args) => ClausesAgree(args, a, b, m);
    case Binary(_, lhs, rhs) =>
      ClauseAgrees(lhs, a, b, m);
      ClauseAgrees(rhs, a, b, m);
    case Unary(_, operand) => ClauseAgrees(operand, a, b, m);
    case _ =>
  }

  lemma {:induction false} ClausesAgree(args: seq<Expr>, a: Env, b: Env, m: Machine)
    requires (forall e <- args :: UserClause(e) && Pure(e))
    requires forall x | x in AllFreeNames(args) :: Lookup(a, x) == Lookup(b, x)
    ensures PureEvalAll(args, a, m) == PureEvalAll(args, b, m)
    decreases args, 0
  {
    if args != [] {
      ClauseAgrees(args[0], a, b, m);
      ClausesAgree(args[1..], a, b, m);
    }
  }

  /** No name of the clause but `result` is bound by the body where it exits. */
  predicate KeepsNames(f: Function) {
    f.ensured.Some? ==> ExitNames(f.body) !! FreeNames(f.ensured.value) - {"result"}
  }

  /** Then the clause means the same at an exit and on entry. */
  lemma {:induction false} ReadsAsOnEntry(f: Function, env: Env, m: Machine, fuel: nat)
    requires UserContracts(f) && BlockAssignsLocals(f.body, {}) && KeepsNames(f)
    ensures ContractedIn(f, ExitScopeOf(RunBlock(f.body, env, m, fuel), env), env, m, fuel) ==
              Contracted(f, env, m, fuel)
  {
    var o := RunBlock(f.body, env, m, fuel);
    if f.ensured.Some? && Exits(o) {
      var e := f.ensured.value;
      UserClauseIsPure(e);
      ExitScope(f.body, env, m, fuel);
      var here, entry := o.env + [Binding("result", o.value)], env + [Binding("result", o.value)];
      forall x | x in FreeNames(e) ensures Lookup(here, x) == Lookup(entry, x) {
        LookupPushed(o.env, "result", o.value, x);
        LookupPushed(env, "result", o.value, x);
        if x != "result" {
          LookupOuter(o.env, |env|, x);
        }
      }
      ClauseAgrees(e, here, entry, m);
    }
  }

  /** A function as the type checker passes it on: assignments are to `let` bindings only. */
  ghost predicate Lowerable(f: Function) {
    !f.external && UserContracts(f) && BlockAssignsLocals(f.body, {})
  }

  /** The lowered function does what the contract semantics says, unless a clause traps. */
  ghost predicate Preserved(f: Function, n: nat, env: Env, m: Machine, fuel: nat)
    requires UserContracts(f)
  {
    Contracted(f, env, m, fuel) != Trap ==> Run(LowerFunction(f, n).0, env, m, fuel) == Contracted(f, env, m, fuel)
  }

  /** Lowering preserves the contract semantics. A postcondition the prover discharged is left
      out without a trace if the verdict can be trusted; one that is checked is read as on
      entry if the body binds none of its names where it exits. */
  lemma {:induction false} LoweringCorrect(f: Function, n: nat, env: Env, m: Machine, fuel: nat)
    requires Lowerable(f)
    requires f.ensured.Some? ==>
               if EnsuresDischarged(f)
               then EvalLogic(f.ensured.value, Unconstrained(f.params), None) == Proved || ReliableTails(f.body, false)
               else KeepsNames(f)
    ensures Preserved(f, n, env, m, fuel)
    ensures !RequiresDischarged(f) && !EnsuresDischarged(f) ==>
              Run(LowerFunction(f, n).0, env, m, fuel) == Contracted(f, env, m, fuel)
  {
    hide RunBlock, ContractValue, PureEval, RequiresDischarged, UserClause, Pure, EvalLogic, ReliableTails;
    if EnsuresDischarged(f) {
      UserClauseIsPure(f.ensured.value);
      WithRequiresRuns(f, env, m, fuel);
      ProvedNeverFails(f.body, false, f.ensured.value, f.params, env, m, fuel);
    } else {
      LoweringReadsAtExit(f, n, env, m, fuel);
      ReadsAsOnEntry(f, env, m, fuel);
    }
  }

  // ---- where a name of the clause is captured -----------------------------------------

  /** Functions whose checked clause uses names of `used` and whose body binds names of
      `bound` at its exits. */
  ghost predicate Binds(f: Function, bound: set<string>, used: set<string>) {
    && Lowerable(f) && f.ensured.Some? && !EnsuresDischarged(f)
    && ExitNames(f.body) <= bound && FreeNames(f.ensured.value) <= used
  }

  ghost predicate AllPreserved(bound: set<string>, used: set<string>) {
    forall f, n, env, m, fuel | Binds(f, bound, used) :: Preserved(f, n, env, m, fuel)
  }

  /** `ensures x == 1 { let x = 0; 1 }` */
  function Capturing(x: string): Function {
    Function("f", [x], None, Some(Binary(Eq, Var(x), Int(1))), Block([LetStmt(x, Int(0))], Some(Int(1))), false)
  }

  /** All functions whose bodies bind at most the names `bound` at exits, with checked clauses
      over at most the names `used`, keep their contracts exactly when the two have no name in
      common but `result`. */
  lemma {:induction false} CaptureExact(bound: set<string>, used: set<string>)
    requires forall x | x in used :: !Reserved(x)
    ensures AllPreserved(bound, used) <==> bound !! used - {"result"}
  {
    hide Preserved, EnsuresDischarged, ExitNames, FreeNames, UserContracts, BlockAssignsLocals;
    if bound !! used - {"result"} {
      forall f, n, env, m, fuel | Binds(f, bound, used) ensures Preserved(f, n, env, m, fuel) {
        ApartPreserved(f, bound, used, n, env, m, fuel);
      }
    } else {
      var x :| x in bound && x in used - {"result"};
      var m := Machine((f, vs) => None, (op, a, b) => 0, a => 0);
      CapturingBinds(x, bound, used);
      CapturingFails(x, 0, m);
    }
  }

  lemma {:induction false} ApartPreserved(f: Function, bound: set<string>, used: set<string>, n: nat,
                                          env: Env, m: Machine, fuel: nat)
    requires Binds(f, bound, used) && bound !! used - {"result"}
    ensures Preserved(f, n, env, m, fuel)
  {
    hide Preserved, EnsuresDischarged, ExitNames, FreeNames, Lowerable;
    LoweringCorrect(f, n, env, m, fuel);
  }

  lemma {:induction false} CapturingBinds(x: string, bound: set<string>, used: set<string>)
    requires !Reserved(x) && x != "result" && x in bound && x in used
    ensures Binds(Capturing(x), bound, used)
  {
    hide EnsuresDischarged, UserClause, FreeNames, BlockAssignsLocals, ExitNames;
    CapturingClause(x);
    CapturingBody(x);
    CapturingUnproved(x);
  }

  lemma {:induction false} CapturingClause(x: string)
    requires !Reserved(x)
    ensures UserClause(Binary(Eq, Var(x), Int(1))) && FreeNames(Binary(Eq, Var(x), Int(1))) == {x}
  {
    assert FreeNames(Var(x)) == {x} && FreeNames(Int(1)) == {};
    assert UserClause(Var(x)) && UserClause(Int(1));
  }

  lemma {:induction false} CapturingBody(x: string)
    ensures BlockAssignsLocals(Capturing(x).body, {}) && ExitNames(Capturing(x).body) == {x}
  {
    var body := Capturing(x).body;
    var stmts := body.stmts;
    OneName(stmts[0]);
    LetReturns(x, {});
    assert stmts == [LetStmt(x, Int(0))] && stmts[1..] == [];
    assert OptionReturns(body.tail, {} + LetNames(stmts)) == Returns(Int(1), {} + LetNames(stmts)) == None;
    assert BlockReturns(body, {}) == None;
    LetAssignsLocals(x);
    assert AssignsLocals(Int(1), {} + LetNames(stmts));
  }

  lemma {:induction false} LetAssignsLocals(x: string)
    ensures StmtsAssignLocals([LetStmt(x, Int(0))], {})
  {
    var stmts := [LetStmt(x, Int(0))];
    assert stmts[1..] == [];
    assert AssignsLocals(Int(0), {}) && StmtAssignsLocals(stmts[0], {});
    assert StmtsAssignLocals(stmts[1..], {} + LetNames([stmts[0]]));
  }

  lemma {:induction false} LetReturns(x: string, bound: set<string>)
    ensures StmtsReturn([LetStmt(x, Int(0))], bound) == None
  {
    var stmts := [LetStmt(x, Int(0))];
    var later := bound + LetNames([stmts[0]]);
    assert stmts[1..] == [];
    assert StmtsReturn(stmts[1..], later) == None;
    assert StmtReturns(stmts[0], bound) == Returns(Int(0), bound) == None;
  }

  lemma {:induction false} CapturingUnproved(x: string)
    requires x != "result"
    ensures !EnsuresDischarged(Capturing(x))
  {
    var renv := Unconstrained([x]);
    assert EvalIntRange(Var(x), renv, None) == Some(UNBOUNDED);
    assert EvalIntRange(Int(1), renv, None) == Some(IntRange(Some(1), Some(1)));
  }

  lemma {:induction false} CapturingRuns(x: string, m: Machine)
    ensures var env := [Binding(x, IntV(1))];
            RunBlock(Capturing(x).body, env, m, 0) == Normal(IntV(1), env + [Binding(x, IntV(0))])
  {
    var body, env := Capturing(x).body, [Binding(x, IntV(1))];
    assert body.stmts[1..] == [];
    OneStmtRuns(body.stmts[0], env, m, 0);
  }

  lemma {:induction false} CapturedClause(x: string, env: Env, n: int, m: Machine)
    requires x != "result"
    ensures Pure(Binary(Eq, Var(x), Int(1)))
    ensures ContractValue(Binary(Eq, Var(x), Int(1)), env + [Binding(x, IntV(n))], IntV(1), m) == Some(BoolV(n == 1))
  {
    var inner := env + [Binding(x, IntV(n))];
    var pushed := inner + [Binding("result", IntV(1))];
    LookupPushed(inner, "result", IntV(1), x);
    LookupPushed(env, x, IntV(n), x);
    assert PureEval(Var(x), pushed, m) == Some(IntV(n));
    assert PureEval(Int(1), pushed, m) == Some(IntV(1));
  }

  lemma {:induction false} CapturingFails(x: string, n: nat, m: Machine)
    requires !Reserved(x) && x != "result"
    ensures UserContracts(Capturing(x)) && !Preserved(Capturing(x), n, [Binding(x, IntV(1))], m, 0)
  {
    hide RunBlock, ContractValue, EnsuresDischarged, LowerFunction, Lookup;
    var f, env := Capturing(x), [Binding(x, IntV(1))];
    CapturingRuns(x, m);
    CapturingClause(x);
    CapturingUnproved(x);
    CapturedClause(x, [], 1, m);
    CapturedClause(x, env, 0, m);
    assert [] + env == env;
    LoweringReadsAtExit(f, n, env, m, 0);
  }

  /** `ensures result == b { let b = 0; b }` */
  const SHADOWING := Function("f", ["b"], None, Some(Binary(Eq, Var("result"), Var("b"))),
                              Block([LetStmt("b", Int(0))], Some(Var("b"))), false)

  lemma {:induction false} ShadowingRuns(b: int, m: Machine)
    ensures var env := [Binding("b", IntV(b))];
            RunBlock(SHADOWING.body, env, m, 0) == Normal(IntV(0), env + [Binding("b", IntV(0))])
  {
    var body, env := SHADOWING.body, [Binding("b", IntV(b))];
    assert body.stmts[1..] == [];
    OneStmtRuns(body.stmts[0], env, m, 0);
    LookupPushed(env, "b", IntV(0), "b");
  }

  lemma {:induction false} ShadowingIsUser()
    ensures UserContracts(SHADOWING) && !EnsuresDischarged(SHADOWING)
  {
    assert "result"[0] != "__"[0] && "b"[0] != "__"[0];
    assert SHADOWING.body.stmts != [];
    assert EvalLogic(SHADOWING.ensured.value, Unconstrained(["b"]), None) == Unknown;
  }

  /** `fn f(b) ensures result == b { let b = 0; b }` hands 0 to its caller whatever `b` was,
      for the check compares the result with the inner `b`. */
  lemma {:induction false} ShadowedParameterUnchecked(n: nat, b: int, m: Machine)
    requires b != 0
    ensures UserContracts(SHADOWING)
    ensures Run(LowerFunction(SHADOWING, n).0, [Binding("b", IntV(b))], m, 0) == Completed(IntV(0))
    ensures Contracted(SHADOWING, [Binding("b", IntV(b))], m, 0) == Stopped(EnsuresMessage("f"))
  {
    hide RunBlock, ContractValue, LowerFunction, EnsuresDischarged, UserContracts, Lookup;
    var env := [Binding("b", IntV(b))];
    ShadowingRuns(b, m);
    ShadowingIsUser();
    LookupPushed([], "b", IntV(b), "b");
    assert [] + env == env;
    ResultEqualsB(env, b, m);
    LookupPushed(env, "b", IntV(0), "b");
    ResultEqualsB(env + [Binding("b", IntV(0))], 0, m);
    LoweringReadsAtExit(SHADOWING, n, env, m, 0);
  }

  lemma {:induction false} ResultEqualsB(env: Env, b: int, m: Machine)
    requires Lookup(env, "b") == Some(IntV(b))
    ensures Pure(Binary(Eq, Var("result"), Var("b")))
    ensures ContractValue(Binary(Eq, Var("result"), Var("b")), env, IntV(0), m) == Some(BoolV(b == 0))
  {
    var pushed := env + [Binding("result", IntV(0))];
    LookupPushed(env, "result", IntV(0), "b");
    LookupPushed(env, "result", IntV(0), "result");
    assert PureEval(Var("b"), pushed, m) == Some(IntV(b));
    assert PureEval(Var("result"), pushed, m) == Some(IntV(0));
  }

  /** Where the prover is wrong, the lowered function is: it hands 0 to its caller although
      the contract asks for at least 1. */
  lemma {:induction false} DroppedElseLowersUnchecked(n: nat, env: Env, m: Machine)
    requires Lookup(env, "a") == Some(BoolV(false))
    ensures var body := TestBody(Binary(AndAlso, Var("a"), Var("b")), 1, 0);
            var f := Function("f", ["a", "b"], None, Some(ResultIs(Ge, 1)), body, false);
            && UserContracts(f)
            && Run(LowerFunction(f, n).0, env, m, 0) == Completed(IntV(0))
            && Contracted(f, env, m, 0) == Stopped(EnsuresMessage("f"))
  {
    hide ProveEnsures, RunBlock, ContractValue, Lookup;
    var body := TestBody(Binary(AndAlso, Var("a"), Var("b")), 1, 0);
    var f := Function("f", ["a", "b"], None, Some(ResultIs(Ge, 1)), body, false);
    DroppedElseProvedButFails(m, env);
    AtLeastOneIsUser();
    assert LowerFunction(f, n).0 == f;
  }

  lemma {:induction false} AtLeastOneIsUser()
    ensures UserClause(ResultIs(Ge, 1))
  {
    assert "result"[0] != "__"[0];
  }
}
