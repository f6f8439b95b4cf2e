/** The same lowering as the pass runs it: statement by statement, drawing symbols from a
    counter that every call advances. */
module ContractLoweringPass {
  import opened Wrappers
  import opened Ir
  import opened ContractLowering

  class IdAlloc {
    var nextSymbol: nat

    constructor (next: nat)
      ensures nextSymbol == next
    {
      nextSymbol := next;
    }

    /** Starts past every symbol of the program. */
    static method FromSymbols(symbols: seq<nat>) returns (alloc: IdAlloc)
      ensures fresh(alloc)
      ensures forall s <- symbols :: s < alloc.nextSymbol
      ensures alloc.nextSymbol == 1 || alloc.nextSymbol - 1 in symbols
    {
      var max := 0;
      for i := 0 to |symbols|
        invariant forall j | 0 <= j < i :: symbols[j] <= max
        invariant max == 0 || max in symbols[..i]
      {
        if symbols[i] > max {
          max := symbols[i];
        }
      }
      alloc := new IdAlloc(max + 1);
    }

    method NextSymbol() returns (out: nat)
      modifies this
      ensures out == old(nextSymbol) && nextSymbol == old(nextSymbol) + 1
    {
      out := nextSymbol;
      nextSymbol := nextSymbol + 1;
    }
  }

  method LowerEnsuresInExpr(e: Expr, c: Contract, alloc: IdAlloc) returns (e1: Expr)
    modifies alloc
    ensures (e1, alloc.nextSymbol) == LowerExpr(e, c, old(alloc.nextSymbol))
    decreases e, 2
  {
    match e
    case Call(callee, args) =>
      var callee1 := LowerEnsuresInExpr(callee, c, alloc);
      var args1 := LowerArgs(args, c, alloc);
      e1 := Call(callee1, args1);
    case If(cond, thenBlock, elseBlock) =>
      var cond1 := LowerEnsuresInExpr(cond, c, alloc);
      var then1 := LowerEnsuresInBlock(thenBlock, c, alloc);
      var else1 := LowerEnsuresInBlock(elseBlock, c, alloc);
      e1 := If(cond1, then1, else1);
    case While(cond, body) =>
      var cond1 := LowerEnsuresInExpr(cond, c, alloc);
      var body1 := LowerEnsuresInBlock(body, c, alloc);
      e1 := While(cond1, body1);
    case Loop(body) =>
      var body1 := LowerEnsuresInBlock(body, c, alloc);
      e1 := Loop(body1);
    case Break(value) =>
      var value1 := LowerEnsuresInOption(value, c, alloc);
      e1 := Break(value1);
    case Return(value) =>
      var exit := LowerExitWithEnsures(value, c, alloc);
      e1 := Return(Some(UnsafeBlock(Block([exit.binding, exit.check], Some(exit.result)))));
    case Match(scrutinee, arms) =>
      var scrutinee1 := LowerEnsuresInExpr(scrutinee, c, alloc);
      var arms1 := LowerMatchArms(arms, c, alloc);
      e1 := Match(scrutinee1, arms1);
    case Binary(op, lhs, rhs) =>
      var lhs1 := LowerEnsuresInExpr(lhs, c, alloc);
      var rhs1 := LowerEnsuresInExpr(rhs, c, alloc);
      e1 := Binary(op, lhs1, rhs1);
    case Unary(op, operand) =>
      var operand1 := LowerEnsuresInExpr(operand, c, alloc);
      e1 := Unary(op, operand1);
    case UnsafeBlock(block) =>
      var block1 := LowerEnsuresInBlock(block, c, alloc);
      e1 := UnsafeBlock(block1);
    case _ => e1 := e;
  }

  method LowerEnsuresInOption(e: Option<Expr>, c: Contract, alloc: IdAlloc) returns (e1: Option<Expr>)
    modifies alloc
    ensures (e1, alloc.nextSymbol) == LowerOption(e, c, old(alloc.nextSymbol))
    decreases e, 3
  {
    match e
    case None => e1 := None;
    case Some(expr) =>
      var expr1 := LowerEnsuresInExpr(expr, c, alloc);
      e1 := Some(expr1);
  }

  method LowerArgs(args: seq<Expr>, c: Contract, alloc: IdAlloc) returns (args1: seq<Expr>)
    modifies alloc
    ensures (args1, alloc.nextSymbol) == LowerAll(args, c, old(alloc.nextSymbol))
    decreases args, 0
  {
    args1 := [];
    ghost var start := alloc.nextSymbol;
    assert args[0..] == args;
    for i := 0 to |args|
      invariant LowerAll(args, c, start).0 == args1 + LowerAll(args[i..], c, alloc.nextSymbol).0
      invariant LowerAll(args, c, start).1 == LowerAll(args[i..], c, alloc.nextSymbol).1
    {
      assert args[i..][0] == args[i] && args[i..][1..] == args[i + 1..];
      var arg1 := LowerEnsuresInExpr(args[i], c, alloc);
      args1 := args1 + [arg1];
    }
    assert args[|args|..] == [] && args1 + [] == args1;
  }

  method LowerMatchArms(arms: seq<MatchArm>, c: Contract, alloc: IdAlloc) returns (arms1: seq<MatchArm>)
    modifies alloc
    ensures (arms1, alloc.nextSymbol) == LowerArms(arms, c, old(alloc.nextSymbol))
    decreases arms, 0
  {
    arms1 := [];
    ghost var start := alloc.nextSymbol;
    assert arms[0..] == arms;
    for i := 0 to |arms|
      invariant LowerArms(arms, c, start).0 == arms1 + LowerArms(arms[i..], c, alloc.nextSymbol).0
      invariant LowerArms(arms, c, start).1 == LowerArms(arms[i..], c, alloc.nextSymbol).1
    {
      assert arms[i..][0] == arms[i] && arms[i..][1..] == arms[i + 1..];
      var arm1 := LowerMatchArm(arms[i], c, alloc);
      arms1 := arms1 + [arm1];
    }
    assert arms[|arms|..] == [] && arms1 + [] == arms1;
  }

  method LowerMatchArm(arm: MatchArm, c: Contract, alloc: IdAlloc) returns (arm1: MatchArm)
    modifies alloc
    ensures (arm1, alloc.nextSymbol) == LowerArm(arm, c, old(alloc.nextSymbol))
    decreases arm, 0
  {
    var body1 := LowerEnsuresInExpr(arm.body, c, alloc);
    arm1 := MatchArm(arm.pattern, body1);
  }

  /** An inner block, whose tail is not an exit. */
  method LowerEnsuresInBlock(block: Block, c: Contract, alloc: IdAlloc) returns (block1: Block)
    modifies alloc
    ensures (block1, alloc.nextSymbol) == LowerInner(block, c, old(alloc.nextSymbol))
    decreases block, 1
  {
    var stmts1 := LowerBlockStmts(block.stmts, c, alloc);
    var tail1 := LowerEnsuresInOption(block.tail, c, alloc);
    block1 := Block(stmts1, tail1);
  }

  method LowerBlockStmts(stmts: seq<Stmt>, c: Contract, alloc: IdAlloc) returns (lowered: seq<Stmt>)
    modifies alloc
    ensures (lowered, alloc.nextSymbol) == LowerStmts(stmts, c, old(alloc.nextSymbol))
    decreases stmts, 0
  {
    lowered := [];
    ghost var start := alloc.nextSymbol;
    assert stmts[0..] == stmts;
    for i := 0 to |stmts|
      invariant LowerStmts(stmts, c, start).0 == lowered + LowerStmts(stmts[i..], c, alloc.nextSymbol).0
      invariant LowerStmts(stmts, c, start).1 == LowerStmts(stmts[i..], c, alloc.nextSymbol).1
    {
      assert stmts[i..][0] == stmts[i] && stmts[i..][1..] == stmts[i + 1..];
      var next := LowerBlockStmt(stmts[i], c, alloc);
      lowered := lowered + next;
    }
    assert stmts[|stmts|..] == [] && lowered + [] == lowered;
  }

  method LowerBlockStmt(stmt: Stmt, c: Contract, alloc: IdAlloc) returns (next: seq<Stmt>)
    modifies alloc
    ensures (next, alloc.nextSymbol) == LowerStmt(stmt, c, old(alloc.nextSymbol))
    decreases stmt, 5
  {
    match stmt
    case LetStmt(x, init) =>
      var init1 := LowerEnsuresInExpr(init, c, alloc);
      next := [LetStmt(x, init1)];
    case AssignStmt(x, init) =>
      var init1 := LowerEnsuresInExpr(init, c, alloc);
      next := [AssignStmt(x, init1)];
    case ExprStmt(expr) =>
      var expr1 := LowerEnsuresInExpr(expr, c, alloc);
      next := [ExprStmt(expr1)];
    case AssertStmt(expr, message) =>
      var expr1 := LowerEnsuresInExpr(expr, c, alloc);
      next := [AssertStmt(expr1, message)];
    case ReturnStmt(value) =>
      var exit := LowerExitWithEnsures(value, c, alloc);
      next := ExitStmts(exit);
  }

  method LowerExitWithEnsures(value: Option<Expr>, c: Contract, alloc: IdAlloc) returns (exit: Exit)
    modifies alloc
    ensures (exit, alloc.nextSymbol) == LowerExit(value, c, old(alloc.nextSymbol))
    decreases value, 4
  {
    var value1 := LowerEnsuresInOption(value, c, alloc);
    var init := if value1.None? then Unit else value1.value;
    var symbol := alloc.NextSymbol();
    var name := ResultName(symbol);
    exit := Exit(LetStmt(name, init), AssertStmt(Subst(c.ensured, name), EnsuresMessage(c.owner)), Var(name));
  }

  /** One function of the program; `LoweringCorrect` says what its result means. */
  method LowerFunctionContracts(f: Function, alloc: IdAlloc) returns (f1: Function)
    modifies alloc
    ensures (f1, alloc.nextSymbol) == LowerFunction(f, old(alloc.nextSymbol))
  {
    if f.external {
      return f;
    }
    var body := WithRequires(f);
    if f.ensured.Some? && !EnsuresDischarged(f) {
      var c := Contract(f.ensured.value, f.name);
      var stmts1 := LowerBlockStmts(body.stmts, c, alloc);
      var exit := LowerExitWithEnsures(body.tail, c, alloc);
      body := Block(stmts1 + ExitStmts(exit), None);
    }
    f1 := f.(body := body);
  }
}
