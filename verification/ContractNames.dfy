/** The names the lowering makes up: a lowered body binds one name for each of its exits, numbered in
    the order the pass hands them out, and nothing else that is reserved. */
module ContractNames {
  import opened Wrappers
  import opened Ir
  import opened ContractLowering

  // ---- reserved names bound in a program ----------------------------------------------------------

  function Names(e: Expr): seq<string>
    decreases e, 2
  {
    match e
    case Call(callee, args) => Names(callee) + AllNames(args)
    case If(cond, thenBlock, elseBlock) => Names(cond) + BlockNames(thenBlock) + BlockNames(elseBlock)
    case While(cond, body) => Names(cond) + BlockNames(body)
    case Loop(body) => BlockNames(body)
    case Break(value) => OptionNames(value)
    case Return(value) => OptionNames(value)
    case Match(scrutinee, arms) => Names(scrutinee) + ArmsNames(arms)
    case Binary(_, lhs, rhs) => Names(lhs) + Names(rhs)
    case Unary(_, operand) => Names(operand)
    case UnsafeBlock(block) => BlockNames(block)
    case _ => []
  }

  function OptionNames(e: Option<Expr>): seq<string>
    decreases e, 3
  {
    if e.None? then [] else Names(e.value)
  }

  function AllNames(args: seq<Expr>): seq<string>
    decreases args, 0
  {
    if args == [] then [] else Names(args[0]) + AllNames(args[1..])
  }

  function ArmsNames(arms: seq<MatchArm>): seq<string>
    decreases arms, 0
  {
    if arms == [] then [] else ArmNames(arms[0]) + ArmsNames(arms[1..])
  }

  function ArmNames(arm: MatchArm): seq<string>
    decreases arm, 0
  {
    Names(arm.body)
  }

  function StmtNames(stmt: Stmt): seq<string>
    decreases stmt, 5
  {
    match stmt
    case LetStmt(x, init) => Names(init) + if Reserved(x) then [x] else []
    case AssignStmt(_, init) => Names(init)
    case ExprStmt(expr) => Names(expr)
    case AssertStmt(expr, _) => Names(expr)
    case ReturnStmt(value) => OptionNames(value)
  }

  function StmtsNames(stmts: seq<Stmt>): seq<string>
    decreases stmts, 0
  {
    if stmts == [] then [] else StmtNames(stmts[0]) + StmtsNames(stmts[1..])
  }

  function BlockNames(block: Block): seq<string>
    decreases block, 1
  {
    StmtsNames(block.stmts) + OptionNames(block.tail)
  }

  // ---- the names the lowering binds -----------------------------------------------------------------

  /** The names for the symbols from `n` up to `m`, in order. */
  function Fresh(n: nat, m: nat): (names: seq<string>)
    ensures |names| == (if n <= m then m - n else 0)
    ensures forall k | 0 <= k < |names| :: names[k] == ResultName(n + k)
  {
    seq(if n <= m then m - n else 0, k requires 0 <= k => ResultName(n + k))
  }

  /** The names bound are those for the symbols from `n` up to `m`. */
  predicate Binds(names: seq<string>, n: nat, m: nat) {
    n <= m && names == Fresh(n, m)
  }

  lemma {:induction false} BindsNone(n: nat)
    ensures Binds([], n, n)
  {
  }

  lemma {:induction false} BindsBoth(a: seq<string>, b: seq<string>, n: nat, m: nat, k: nat)
    requires Binds(a, n, m) && Binds(b, m, k)
    ensures Binds(a + b, n, k)
  {
  }

  lemma {:induction false} BindsOne(n: nat)
    ensures Binds([ResultName(n)], n, n + 1) && Reserved(ResultName(n))
  {
    assert "__" == "__aic_result_"[..2];
  }

  lemma {:induction false} StmtsNamesAppend(a: seq<Stmt>, b: seq<Stmt>)
    ensures StmtsNames(a + b) == StmtsNames(a) + StmtsNames(b)
  {
    hide StmtNames;
    if a == [] {
      assert a + b == b;
    } else {
      assert (a + b)[1..] == a[1..] + b;
      StmtsNamesAppend(a[1..], b);
    }
  }

  lemma {:induction false} ClauseNames(e: Expr, r: string)
    requires UserClause(e)
    ensures Names(Subst(e, r)) == []
    decreases e, 1
  {
    match e
    case Call(_, args) => ClausesNames(args, r);
    case Binary(_, lhs, rhs) =>
      ClauseNames(lhs, r);
      ClauseNames(rhs, r);
    case Unary(_, operand) => ClauseNames(operand, r);
    case _ =>
  }

  lemma {:induction false} ClausesNames(args: seq<Expr>, r: string)
    requires forall a <- args :: UserClause(a)
    ensures AllNames(SubstAll(args, r)) == []
    decreases args, 0
  {
    if args != [] {
      ClauseNames(args[0], r);
      ClausesNames(args[1..], r);
      assert SubstAll(args, r)[1..] == SubstAll(args[1..], r);
    }
  }

  lemma {:induction false} ExprBinds(e: Expr, c: Contract, n: nat)
    requires UserClause(c.ensured) && Names(e) == []
    ensures Binds(Names(LowerExpr(e, c, n).0), n, LowerExpr(e, c, n).1)
    decreases e, 2
  {
    hide Binds, UserClause;
    match e
    case Call(callee, args) =>
      var (callee1, n1) := LowerExpr(callee, c, n);
      var (args1, n2) := LowerAll(args, c, n1);
      ExprBinds(callee, c, n);
      AllBind(args, c, n1);
      BindsBoth(Names(callee1), AllNames(args1), n, n1, n2);
    case If(cond, thenBlock, elseBlock) => IfBinds(e, c, n);
    case While(cond, body) =>
      var (cond1, n1) := LowerExpr(cond, c, n);
      var (body1, n2) := LowerInner(body, c, n1);
      ExprBinds(cond, c, n);
      InnerBinds(body, c, n1);
      BindsBoth(Names(cond1), BlockNames(body1), n, n1, n2);
    case Loop(body) => InnerBinds(body, c, n);
    case Break(value) => OptionBinds(value, c, n);
    case Return(value) => ReturnBinds(value, c, n);
    case Match(scrutinee, arms) =>
      var (scrutinee1, n1) := LowerExpr(scrutinee, c, n);
      var (arms1, n2) := LowerArms(arms, c, n1);
      ExprBinds(scrutinee, c, n);
      ArmsBind(arms, c, n1);
      BindsBoth(Names(scrutinee1), ArmsNames(arms1), n, n1, n2);
    case Binary(op, lhs, rhs) =>
      var (lhs1, n1) := LowerExpr(lhs, c, n);
      var (rhs1, n2) := LowerExpr(rhs, c, n1);
      ExprBinds(lhs, c, n);
      ExprBinds(rhs, c, n1);
      BindsBoth(Names(lhs1), Names(rhs1), n, n1, n2);
    case Unary(_, operand) => ExprBinds(operand, c, n);
    case UnsafeBlock(block) => InnerBinds(block, c, n);
    case _ => BindsNone(n);
  }

  lemma {:induction false} IfBinds(e: Expr, c: Contract, n: nat)
    requires e.If? && UserClause(c.ensured) && Names(e) == []
    ensures Binds(Names(LowerExpr(e, c, n).0), n, LowerExpr(e, c, n).1)
    decreases e, 1
  {
    hide Binds, UserClause;
    var (cond1, n1) := LowerExpr(e.cond, c, n);
    var (then1, n2) := LowerInner(e.thenBlock, c, n1);
    var (else1, n3) := LowerInner(e.elseBlock, c, n2);
    ExprBinds(e.cond, c, n);
    InnerBinds(e.thenBlock, c, n1);
    InnerBinds(e.elseBlock, c, n2);
    BindsBoth(Names(cond1), BlockNames(then1), n, n1, n2);
    BindsBoth(Names(cond1) + BlockNames(then1), BlockNames(else1), n, n2, n3);
  }

  lemma {:induction false} OptionBinds(e: Option<Expr>, c: Contract, n: nat)
    requires UserClause(c.ensured) && OptionNames(e) == []
    ensures Binds(OptionNames(LowerOption(e, c, n).0), n, LowerOption(e, c, n).1)
    decreases e, 3
  {
    hide Binds, UserClause;
    if e.None? {
      BindsNone(n);
    } else {
      ExprBinds(e.value, c, n);
    }
  }

  lemma {:induction false} AllBind(args: seq<Expr>, c: Contract, n: nat)
    requires UserClause(c.ensured) && AllNames(args) == []
    ensures Binds(AllNames(LowerAll(args, c, n).0), n, LowerAll(args, c, n).1)
    decreases args, 0
  {
    hide Binds, UserClause;
    if args == [] {
      BindsNone(n);
    } else {
      var (arg1, n1) := LowerExpr(args[0], c, n);
      var (rest1, n2) := LowerAll(args[1..], c, n1);
      ExprBinds(args[0], c, n);
      AllBind(args[1..], c, n1);
      BindsBoth(Names(arg1), AllNames(rest1), n, n1, n2);
      assert LowerAll(args, c, n).0[1..] == rest1;
    }
  }

  lemma {:induction false} ArmsBind(arms: seq<MatchArm>, c: Contract, n: nat)
    requires UserClause(c.ensured) && ArmsNames(arms) == []
    ensures Binds(ArmsNames(LowerArms(arms, c, n).0), n, LowerArms(arms, c, n).1)
    decreases arms, 0
  {
    hide Binds, UserClause;
    if arms == [] {
      BindsNone(n);
    } else {
      var (arm1, n1) := LowerArm(arms[0], c, n);
      var (rest1, n2) := LowerArms(arms[1..], c, n1);
      ArmBinds(arms[0], c, n);
      ArmsBind(arms[1..], c, n1);
      BindsBoth(ArmNames(arm1), ArmsNames(rest1), n, n1, n2);
      assert LowerArms(arms, c, n).0[1..] == rest1;
    }
  }

  lemma {:induction false} ArmBinds(arm: MatchArm, c: Contract, n: nat)
    requires UserClause(c.ensured) && ArmNames(arm) == []
    ensures Binds(ArmNames(LowerArm(arm, c, n).0), n, LowerArm(arm, c, n).1)
    decreases arm, 0
  {
    hide Binds, UserClause;
    ExprBinds(arm.body, c, n);
  }

  /** An exit binds one name more than its value does. */
  lemma {:induction false} ExitBinds(value: Option<Expr>, c: Contract, n: nat)
    requires UserClause(c.ensured) && OptionNames(value) == []
    ensures var (exit, n1) := LowerExit(value, c, n);
            Binds(StmtNames(exit.binding), n, n1) && StmtNames(exit.check) == [] && Names(exit.result) == []
    decreases value, 4
  {
    hide Binds, UserClause, Subst, ResultName, Reserved;
    var (value1, symbol) := LowerOption(value, c, n);
    OptionBinds(value, c, n);
    BindsOne(symbol);
    BindsBoth(OptionNames(value1), [ResultName(symbol)], n, symbol, symbol + 1);
    ClauseNames(c.ensured, ResultName(symbol));
    assert Names(Unit) == [];
  }

  lemma {:induction false} ReturnBinds(value: Option<Expr>, c: Contract, n: nat)
    requires UserClause(c.ensured) && OptionNames(value) == []
    ensures Binds(Names(LowerExpr(Return(value), c, n).0), n, LowerExpr(Return(value), c, n).1)
    decreases value, 5
  {
    hide Binds, UserClause, StmtNames;
    var (exit, n1) := LowerExit(value, c, n);
    ExitBinds(value, c, n);
    hide LowerExit;
    var block := Block([exit.binding, exit.check], Some(exit.result));
    TwoStmts(exit.binding, exit.check);
    assert BlockNames(block) == StmtNames(exit.binding);
    assert Names(UnsafeBlock(block)) == BlockNames(block);
    assert OptionNames(Some(UnsafeBlock(block))) == BlockNames(block);
  }

  lemma {:induction false} TwoStmts(a: Stmt, b: Stmt)
    ensures StmtsNames([a, b]) == StmtNames(a) + StmtNames(b)
  {
    hide StmtNames;
    assert [a, b][1..] == [b] && [b][1..] == [];
    assert StmtsNames([b]) == StmtNames(b) + [];
  }

  lemma {:induction false} ExitStmtsBind(value: Option<Expr>, c: Contract, n: nat)
    requires UserClause(c.ensured) && OptionNames(value) == []
    ensures Binds(StmtsNames(ExitStmts(LowerExit(value, c, n).0)), n, LowerExit(value, c, n).1)
    decreases value, 5
  {
    hide Binds, UserClause, LowerExit;
    var (exit, n1) := LowerExit(value, c, n);
    ExitBinds(value, c, n);
    ExitStmtsNames(exit);
  }

  lemma {:induction false} ExitStmtsNames(exit: Exit)
    requires StmtNames(exit.check) == [] && Names(exit.result) == []
    ensures StmtsNames(ExitStmts(exit)) == StmtNames(exit.binding)
  {
    var last := ReturnStmt(Some(exit.result));
    assert StmtNames(last) == OptionNames(Some(exit.result)) == [];
    hide StmtNames;
    TwoStmts(exit.binding, exit.check);
    OneStmt(last);
    assert ExitStmts(exit) == [exit.binding, exit.check] + [last];
    StmtsNamesAppend([exit.binding, exit.check], [last]);
  }

  lemma {:induction false} StmtBinds(stmt: Stmt, c: Contract, n: nat)
    requires UserClause(c.ensured) && StmtNames(stmt) == []
    ensures Binds(StmtsNames(LowerStmt(stmt, c, n).0), n, LowerStmt(stmt, c, n).1)
    decreases stmt, 6
  {
    hide Binds, UserClause;
    match stmt
    case ReturnStmt(value) => ExitStmtsBind(value, c, n);
    case LetStmt(x, init) =>
      assert !Reserved(x) && Names(init) == [];
      ExprBinds(init, c, n);
      var names := Names(LowerExpr(init, c, n).0);
      assert names + [] == names;
      OneStmt(LetStmt(x, LowerExpr(init, c, n).0));
    case AssignStmt(x, init) =>
      ExprBinds(init, c, n);
      OneStmt(AssignStmt(x, LowerExpr(init, c, n).0));
    case ExprStmt(expr) =>
      ExprBinds(expr, c, n);
      OneStmt(ExprStmt(LowerExpr(expr, c, n).0));
    case AssertStmt(expr, message) =>
      ExprBinds(expr, c, n);
      OneStmt(AssertStmt(LowerExpr(expr, c, n).0, message));
  }

  lemma {:induction false} OneStmt(stmt: Stmt)
    ensures StmtsNames([stmt]) == StmtNames(stmt)
  {
    hide StmtNames;
    assert [stmt][1..] == [] && StmtsNames([]) == [];
  }

  lemma {:induction false} StmtsBind(stmts: seq<Stmt>, c: Contract, n: nat)
    requires UserClause(c.ensured) && StmtsNames(stmts) == []
    ensures Binds(StmtsNames(LowerStmts(stmts, c, n).0), n, LowerStmts(stmts, c, n).1)
    decreases stmts, 0
  {
    hide Binds, UserClause, StmtNames, LowerStmt;
    if stmts == [] {
      BindsNone(n);
    } else {
      var (first1, n1) := LowerStmt(stmts[0], c, n);
      var (rest1, n2) := LowerStmts(stmts[1..], c, n1);
      StmtBinds(stmts[0], c, n);
      StmtsBind(stmts[1..], c, n1);
      BindsBoth(StmtsNames(first1), StmtsNames(rest1), n, n1, n2);
      StmtsNamesAppend(first1, rest1);
    }
  }

  lemma {:induction false} InnerBinds(block: Block, c: Contract, n: nat)
    requires UserClause(c.ensured) && BlockNames(block) == []
    ensures Binds(BlockNames(LowerInner(block, c, n).0), n, LowerInner(block, c, n).1)
    decreases block, 1
  {
    hide Binds, UserClause;
    var (stmts1, n1) := LowerStmts(block.stmts, c, n);
    var (tail1, n2) := LowerOption(block.tail, c, n1);
    StmtsBind(block.stmts, c, n);
    OptionBinds(block.tail, c, n1);
    BindsBoth(StmtsNames(stmts1), OptionNames(tail1), n, n1, n2);
  }

  /** Lowering a body that binds no reserved name binds one for each symbol it takes, in order, and
      no other. */
  lemma {:induction false} BodyBinds(block: Block, c: Contract, n: nat)
    requires UserClause(c.ensured) && BlockNames(block) == []
    ensures Binds(BlockNames(LowerBody(block, c, n).0), n, LowerBody(block, c, n).1)
  {
    hide Binds, UserClause, StmtsNames, LowerExit, ExitStmts;
    var (stmts1, n1) := LowerStmts(block.stmts, c, n);
    var (exit, n2) := LowerExit(block.tail, c, n1);
    StmtsBind(block.stmts, c, n);
    ExitStmtsBind(block.tail, c, n1);
    StmtsNamesAppend(stmts1, ExitStmts(exit));
    BindsBoth(StmtsNames(stmts1), StmtsNames(ExitStmts(exit)), n, n1, n2);
    var names := StmtsNames(stmts1 + ExitStmts(exit));
    assert BlockNames(Block(stmts1 + ExitStmts(exit), None)) == names + [] == names;
  }

  // ---- one name for one symbol -----------------------------------------------------------------------

  lemma {:induction false} DecimalInjective(a: nat, b: nat)
    ensures Decimal(a) == Decimal(b) ==> a == b
    decreases a
  {
    var x, y := Decimal(a), Decimal(b);
    assert "0123456789" == ['0', '1', '2', '3', '4', '5', '6', '7', '8', '9'];
    DecimalParts(a);
    DecimalParts(b);
    if x == y && a >= 10 && b >= 10 {
      DecimalInjective(a / 10, b / 10);
    }
  }

  lemma {:induction false} DecimalParts(n: nat)
    ensures Decimal(n) != "" && Decimal(n)[|Decimal(n)| - 1] == Digit(n % 10)
    ensures |Decimal(n)| > 1 <==> n >= 10
    ensures n >= 10 ==> Decimal(n)[..|Decimal(n)| - 1] == Decimal(n / 10)
  {
    if n >= 10 {
      DecimalParts(n / 10);
    }
  }

  /** Different symbols have different names, all of which are reserved. */
  lemma {:induction false} ResultNamesDistinct(a: nat, b: nat)
    ensures Reserved(ResultName(a)) && (ResultName(a) == ResultName(b) <==> a == b)
  {
    hide Decimal;
    BindsOne(a);
    var prefix := "__aic_result_";
    if ResultName(a) == ResultName(b) {
      assert ResultName(a)[|prefix|..] == Decimal(a) && ResultName(b)[|prefix|..] == Decimal(b);
      DecimalInjective(a, b);
    }
  }
}
