/** Which names an expression may assign, and which are bound where it returns. A run leaves
    the variables outside as they were, and exits below bindings of the names in scope at the
    exit only. */
module Scopes {
  import opened Wrappers
  import opened Ir

  function LetNames(stmts: seq<Stmt>): set<string> {
    if stmts == [] then {}
    else (if stmts[0].LetStmt? then {stmts[0].name} else {}) + LetNames(stmts[1..])
  }

  lemma {:induction false} OneName(stmt: Stmt)
    ensures LetNames([stmt]) == if stmt.LetStmt? then {stmt.name} else {}
  {
    assert [stmt][1..] == [];
  }

  // ---- what may be assigned ------------------------------------------------------

  /** Every assignment is to a name bound by a `let` in scope, one of `locals` or an inner
      one: what the type checker enforces, as parameters and pattern variables are immutable. */
  predicate AssignsLocals(e: Expr, locals: set<string>)
    decreases e, 1
  {
    match e
    case Call(callee, args) =>
      AssignsLocals(callee, locals) && forall a <- args :: AssignsLocals(a, locals)
    case If(cond, thenBlock, elseBlock) =>
      && AssignsLocals(cond, locals)
      && BlockAssignsLocals(thenBlock, locals) && BlockAssignsLocals(elseBlock, locals)
    case While(cond, body) => AssignsLocals(cond, locals) && BlockAssignsLocals(body, locals)
    case Loop(body) => BlockAssignsLocals(body, locals)
    case Break(value) => value.Some? ==> AssignsLocals(value.value, locals)
    case Return(value) => value.Some? ==> AssignsLocals(value.value, locals)
    case Match(scrutinee, arms) =>
      AssignsLocals(scrutinee, locals) && forall arm <- arms :: AssignsLocals(arm.body, locals)
    case Binary(_, lhs, rhs) => AssignsLocals(lhs, locals) && AssignsLocals(rhs, locals)
    case Unary(_, operand) => AssignsLocals(operand, locals)
    case UnsafeBlock(block) => BlockAssignsLocals(block, locals)
    case _ => true
  }

  predicate BlockAssignsLocals(block: Block, locals: set<string>)
    decreases block, 0
  {
    && StmtsAssignLocals(block.stmts, locals)
    && (block.tail.Some? ==> AssignsLocals(block.tail.value, locals + LetNames(block.stmts)))
  }

  predicate StmtsAssignLocals(stmts: seq<Stmt>, locals: set<string>)
    decreases stmts, 0
  {
    stmts != [] ==>
      && StmtAssignsLocals(stmts[0], locals)
      && StmtsAssignLocals(stmts[1..], locals + LetNames([stmts[0]]))
  }

  predicate StmtAssignsLocals(stmt: Stmt, locals: set<string>)
    decreases stmt, 2
  {
    match stmt
    case LetStmt(_, init) => AssignsLocals(init, locals)
    case AssignStmt(target, init) => target in locals && AssignsLocals(init, locals)
    case ExprStmt(expr) => AssignsLocals(expr, locals)
    case AssertStmt(expr, _) => AssignsLocals(expr, locals)
    case ReturnStmt(value) => value.Some? ==> AssignsLocals(value.value, locals)
  }

  // ---- what is bound at a return -------------------------------------------------

  /** The names bound at some return; `None` where there is none. */
  type ReturnNames = Option<set<string>>

  function Join(a: ReturnNames, b: ReturnNames): ReturnNames {
    if a.None? then b else if b.None? then a else Some(a.value + b.value)
  }

  function PatternNames(pattern: Pattern): set<string>
    decreases pattern, 1
  {
    match pattern
    case BindPat(x) => {x}
    case OrPat(alternatives) => AlternativeNames(alternatives)
    case _ => {}
  }

  function AlternativeNames(alternatives: seq<Pattern>): set<string>
    decreases alternatives, 0
  {
    if alternatives == [] then {} else PatternNames(alternatives[0]) + AlternativeNames(alternatives[1..])
  }

  /** The names bound, by `let` or by a pattern, where `e` returns; `bound` are those bound
      around it. */
  function Returns(e: Expr, bound: set<string>): ReturnNames
    decreases e, 1
  {
    match e
    case Call(_, args) => AllReturn(args, bound)
    case If(cond, thenBlock, elseBlock) =>
      Join(Returns(cond, bound), Join(BlockReturns(thenBlock, bound), BlockReturns(elseBlock, bound)))
    case While(cond, body) => Join(Returns(cond, bound), BlockReturns(body, bound))
    case Loop(body) => BlockReturns(body, bound)
    case Break(value) => OptionReturns(value, bound)
    case Return(value) => Join(OptionReturns(value, bound), Some(bound))
    case Match(scrutinee, arms) => Join(Returns(scrutinee, bound), ArmsReturn(arms, bound))
    case Binary(_, lhs, rhs) => Join(Returns(lhs, bound), Returns(rhs, bound))
    case Unary(_, operand) => Returns(operand, bound)
    case UnsafeBlock(block) => BlockReturns(block, bound)
    case _ => None
  }

  function OptionReturns(e: Option<Expr>, bound: set<string>): ReturnNames
    decreases e, 2
  {
    match e
    case None => None
    case Some(expr) => Returns(expr, bound)
  }

  function AllReturn(args: seq<Expr>, bound: set<string>): ReturnNames
    decreases args, 0
  {
    if args == [] then None else Join(Returns(args[0], bound), AllReturn(args[1..], bound))
  }

  function ArmsReturn(arms: seq<MatchArm>, bound: set<string>): ReturnNames
    decreases arms, 0
  {
    if arms == [] then None else Join(ArmReturns(arms[0], bound), ArmsReturn(arms[1..], bound))
  }

  function ArmReturns(arm: MatchArm, bound: set<string>): ReturnNames
    decreases arm, 2
  {
    Returns(arm.body, bound + PatternNames(arm.pattern))
  }

  function BlockReturns(block: Block, bound: set<string>): ReturnNames
    decreases block, 0
  {
    Join(StmtsReturn(block.stmts, bound), OptionReturns(block.tail, bound + LetNames(block.stmts)))
  }

  function StmtsReturn(stmts: seq<Stmt>, bound: set<string>): ReturnNames
    decreases stmts, 0
  {
    if stmts == [] then None
    else Join(StmtReturns(stmts[0], bound), StmtsReturn(stmts[1..], bound + LetNames([stmts[0]])))
  }

  function StmtReturns(stmt: Stmt, bound: set<string>): ReturnNames
    decreases stmt, 2
  {
    match stmt
    case LetStmt(_, init) => Returns(init, bound)
    case AssignStmt(_, init) => Returns(init, bound)
    case ExprStmt(expr) => Returns(expr, bound)
    case AssertStmt(expr, _) => Returns(expr, bound)
    case ReturnStmt(value) => Join(OptionReturns(value, bound), Some(bound))
  }

  /** The names a function body may have bound where it exits, by a return or its tail. */
  function ExitNames(body: Block): set<string> {
    Join(BlockReturns(body, {}), Some(LetNames(body.stmts))).value
  }

  // ---- environments ----------------------------------------------------------------

  ghost predicate BoundPast(env: Env, k: nat, locals: set<string>) {
    k <= |env| && forall x <- locals :: exists i | k <= i < |env| :: env[i].name == x
  }

  function NamesPast(env: Env, k: nat): set<string> {
    set i | k <= i < |env| :: env[i].name
  }

  /** `env` consists of `k` outer bindings and inner ones: all of `locals`, and names of
      `bound` only. */
  ghost predicate Scoped(env: Env, k: nat, locals: set<string>, bound: set<string>) {
    BoundPast(env, k, locals) && NamesPast(env, k) <= bound
  }

  ghost predicate SameOuter(after: Env, env: Env, k: nat) {
    k <= |env| && k <= |after| && after[..k] == env[..k]
  }

  /** The outer bindings are left alone; a return happens only where `seen` says, with
      inner names it says. */
  ghost predicate StaysIn(o: Outcome, env: Env, k: nat, seen: ReturnNames) {
    match o
    case Normal(_, after) => SameOuter(after, env, k)
    case Broke(_, after) => SameOuter(after, env, k)
    case Continued(after) => SameOuter(after, env, k)
    case Returned(_, after) => SameOuter(after, env, k) && seen.Some? && NamesPast(after, k) <= seen.value
    case _ => true
  }

  lemma {:induction false} StaysInMore(o: Outcome, env: Env, k: nat, a: ReturnNames, b: ReturnNames)
    ensures StaysIn(o, env, k, a) ==> StaysIn(o, env, k, Join(a, b)) && StaysIn(o, env, k, Join(b, a))
  {
  }

  lemma {:induction false} StaysInVia(o: Outcome, env: Env, mid: Env, k: nat, seen: ReturnNames)
    requires SameOuter(mid, env, k) && StaysIn(o, mid, k, seen)
    ensures StaysIn(o, env, k, seen)
  {
  }

  lemma {:induction false} ScopedSame(env: Env, after: Env, k: nat, locals: set<string>, bound: set<string>)
    requires Scoped(env, k, locals, bound) && SameNames(env, after)
    ensures Scoped(after, k, locals, bound)
  {
    forall x | x in locals ensures exists i | k <= i < |after| :: after[i].name == x {
      var i :| k <= i < |env| && env[i].name == x;
      assert after[i].name == x;
    }
    forall x | x in NamesPast(after, k) ensures x in bound {
      var i :| k <= i < |after| && after[i].name == x;
      assert env[i].name in NamesPast(env, k);
    }
  }

  lemma {:induction false} ScopedMore(env: Env, more: Env, k: nat, locals: set<string>, bound: set<string>)
    requires Scoped(env, k, locals, bound)
    ensures Scoped(env + more, k, locals, bound + NamesPast(more, 0))
    ensures SameOuter(env + more, env, k)
  {
    var after := env + more;
    forall x | x in locals ensures exists i | k <= i < |after| :: after[i].name == x {
      var i :| k <= i < |env| && env[i].name == x;
      assert after[i].name == x;
    }
    forall x | x in NamesPast(after, k) ensures x in bound + NamesPast(more, 0) {
      var i :| k <= i < |after| && after[i].name == x;
      if i < |env| {
        assert env[i].name in NamesPast(env, k);
      } else {
        assert more[i - |env|].name in NamesPast(more, 0);
      }
    }
  }

  lemma {:induction false} ScopedLet(env: Env, x: string, v: Value, k: nat, locals: set<string>, bound: set<string>)
    requires Scoped(env, k, locals, bound)
    ensures Scoped(env + [Binding(x, v)], k, locals + {x}, bound + {x})
  {
    var more := [Binding(x, v)];
    ScopedMore(env, more, k, locals, bound);
    assert (env + more)[|env|].name == x;
    assert NamesPast(more, 0) <= {x};
  }

  lemma {:induction false} ScopedWider(env: Env, k: nat, locals: set<string>, bound: set<string>, wider: set<string>)
    requires Scoped(env, k, locals, bound) && bound <= wider
    ensures Scoped(env, k, locals, wider)
  {
  }

  lemma {:induction false} AssignKeepsOuter(env: Env, k: nat, x: string, v: Value)
    requires k <= |env| && exists i | k <= i < |env| :: env[i].name == x
    ensures Assign(env, x, v).Some? && SameOuter(Assign(env, x, v).value, env, k)
  {
    if env[|env| - 1].name != x {
      var front := env[..|env| - 1];
      var i :| k <= i < |env| && env[i].name == x;
      assert front[i].name == x;
      AssignKeepsOuter(front, k, x, v);
      assert front[..k] == env[..k];
    }
  }

  lemma {:induction false} PatternBinds(pattern: Pattern, v: Value)
    ensures BindPattern(pattern, v).Some? ==> NamesPast(BindPattern(pattern, v).value, 0) <= PatternNames(pattern)
    decreases pattern, 1
  {
    if pattern.OrPat? {
      AlternativesBind(pattern.alternatives, v);
    }
  }

  lemma {:induction false} AlternativesBind(alternatives: seq<Pattern>, v: Value)
    ensures BindAlternatives(alternatives, v).Some? ==>
              NamesPast(BindAlternatives(alternatives, v).value, 0) <= AlternativeNames(alternatives)
    decreases alternatives, 0
  {
    if alternatives != [] {
      PatternBinds(alternatives[0], v);
      AlternativesBind(alternatives[1..], v);
    }
  }

  /** The chosen arm: its bindings are names of its pattern, its returns are among those of
      the arms. */
  lemma {:induction false} ChosenArm(arms: seq<MatchArm>, v: Value, o: Outcome, env: Env, k: nat, bound: set<string>)
    requires ChooseArm(arms, v).Some?
    ensures var (i, inner) := ChooseArm(arms, v).value;
            && NamesPast(inner, 0) <= PatternNames(arms[i].pattern)
            && (StaysIn(o, env, k, ArmReturns(arms[i], bound)) ==> StaysIn(o, env, k, ArmsReturn(arms, bound)))
  {
    PatternBinds(arms[0].pattern, v);
    if BindPattern(arms[0].pattern, v).None? {
      ChosenArm(arms[1..], v, o, env, k, bound);
    }
  }

  lemma {:induction false} LeaveStays(o: Outcome, env: Env, depth: nat, k: nat, seen: ReturnNames)
    requires StaysIn(o, env, k, seen) && k <= depth <= |env|
    ensures StaysIn(Leave(o, depth), env, k, seen)
  {
    if (o.Normal? || o.Broke? || o.Continued?) && depth <= |o.env| {
      assert o.env[..depth][..k] == o.env[..k];
    }
  }

  // ---- every run keeps to its scope ------------------------------------------------

  /** What a run of `e` does to the bindings around it. */
  lemma {:induction false} ExprStays(e: Expr, env: Env, k: nat, locals: set<string>, bound: set<string>,
                                     m: Machine, fuel: nat)
    requires AssignsLocals(e, locals) && Scoped(env, k, locals, bound)
    ensures StaysIn(EvalExpr(e, env, m, fuel), env, k, Returns(e, bound))
    decreases fuel, e, 3
  {
    hide Scoped, SameNames;
    match e
    case Call(_, args) =>
      ArgsStay(args, env, k, locals, bound, m, fuel);
      ScopedIn(env, k, locals, bound);
    case If(_, _, _) => IfStays(e, env, k, locals, bound, m, fuel);
    case While(_, _) => WhileStays(e, env, k, locals, bound, m, fuel);
    case Loop(_) => LoopStays(e, env, k, locals, bound, m, fuel);
    case Break(value) =>
      if value.Some? {
        ExprStays(value.value, env, k, locals, bound, m, fuel);
      }
      ScopedIn(env, k, locals, bound);
    case Return(value) => ReturnStays(value, env, k, locals, bound, m, fuel);
    case Match(_, _) => MatchStays(e, env, k, locals, bound, m, fuel);
    case Binary(_, _, _) => BinaryStays(e, env, k, locals, bound, m, fuel);
    case Unary(_, operand) => ExprStays(operand, env, k, locals, bound, m, fuel);
    case UnsafeBlock(block) => BlockStays(block, env, k, locals, bound, m, fuel);
    case _ => ScopedIn(env, k, locals, bound);
  }

  lemma {:induction false} ScopedIn(env: Env, k: nat, locals: set<string>, bound: set<string>)
    requires Scoped(env, k, locals, bound)
    ensures SameOuter(env, env, k) && NamesPast(env, k) <= bound
  {
  }

  lemma {:induction false} ReturnStays(value: Option<Expr>, env: Env, k: nat, locals: set<string>, bound: set<string>,
                                       m: Machine, fuel: nat)
    requires (value.Some? ==> AssignsLocals(value.value, locals)) && Scoped(env, k, locals, bound)
    ensures StaysIn(AsReturn(EvalOption(value, env, m, fuel)), env, k, Join(OptionReturns(value, bound), Some(bound)))
    decreases fuel, value, 3
  {
    var o := EvalOption(value, env, m, fuel);
    if value.Some? {
      ExprStays(value.value, env, k, locals, bound, m, fuel);
      assert o == EvalExpr(value.value, env, m, fuel);
    }
    if o.Normal? {
      ScopedSame(env, o.env, k, locals, bound);
    }
  }

  lemma {:induction false} IfStays(e: Expr, env: Env, k: nat, locals: set<string>, bound: set<string>,
                                   m: Machine, fuel: nat)
    requires e.If? && AssignsLocals(e, locals) && Scoped(env, k, locals, bound)
    ensures StaysIn(EvalExpr(e, env, m, fuel), env, k, Returns(e, bound))
    decreases fuel, e, 2
  {
    hide Scoped, SameNames, StaysIn;
    var inThen, inElse := BlockReturns(e.thenBlock, bound), BlockReturns(e.elseBlock, bound);
    var o, onCond := EvalExpr(e.cond, env, m, fuel), Returns(e.cond, bound);
    ExprStays(e.cond, env, k, locals, bound, m, fuel);
    StaysInMore(o, env, k, onCond, Join(inThen, inElse));
    if o.Normal? && o.value.BoolV? {
      ScopedSame(env, o.env, k, locals, bound);
      var block := if o.value.b then e.thenBlock else e.elseBlock;
      var last := EvalBlock(block, o.env, m, fuel);
      BlockStays(block, o.env, k, locals, bound, m, fuel);
      NormalOuter(o, env, k, onCond);
      StaysInVia(last, env, o.env, k, BlockReturns(block, bound));
      StaysInMore(last, env, k, inThen, inElse);
      StaysInMore(last, env, k, inElse, inThen);
      StaysInMore(last, env, k, Join(inThen, inElse), onCond);
    } else if o.Normal? {
      StuckStays(env, k, Returns(e, bound));
    }
  }

  lemma {:induction false} NormalOuter(o: Outcome, env: Env, k: nat, seen: ReturnNames)
    requires StaysIn(o, env, k, seen)
    ensures o.Normal? || o.Continued? ==> SameOuter(o.env, env, k)
    ensures o.Broke? ==> StaysIn(Normal(o.value, o.env), env, k, None) && StaysIn(Normal(UnitV, o.env), env, k, None)
  {
  }

  lemma {:induction false} StuckStays(env: Env, k: nat, seen: ReturnNames)
    ensures StaysIn(Stuck, env, k, seen) && StaysIn(Timeout, env, k, seen)
  {
  }

  /** The next round of a loop after its body gave `o`. */
  lemma {:induction false} AgainStays(e: Expr, env: Env, o: Outcome, k: nat, locals: set<string>, bound: set<string>,
                                      seen: ReturnNames, m: Machine, fuel: nat)
    requires AssignsLocals(e, locals) && Scoped(env, k, locals, bound)
    requires StaysIn(o, env, k, seen) && KeepsScope(o, env)
    ensures (o.Normal? || o.Continued?) && fuel > 0 ==>
              StaysIn(EvalExpr(e, o.env, m, fuel - 1), env, k, Returns(e, bound))
    decreases fuel, e, 0
  {
    if (o.Normal? || o.Continued?) && fuel > 0 {
      ScopedSame(env, o.env, k, locals, bound);
      hide AssignsLocals, Scoped, Returns, EvalExpr;
      ExprStays(e, o.env, k, locals, bound, m, fuel - 1);
      StaysInVia(EvalExpr(e, o.env, m, fuel - 1), env, o.env, k, Returns(e, bound));
    }
  }

  lemma {:induction false} WhileStays(e: Expr, env: Env, k: nat, locals: set<string>, bound: set<string>,
                                      m: Machine, fuel: nat)
    requires e.While? && AssignsLocals(e, locals) && Scoped(env, k, locals, bound)
    ensures StaysIn(EvalExpr(e, env, m, fuel), env, k, Returns(e, bound))
    decreases fuel, e, 2
  {
    hide Scoped, SameNames, StaysIn;
    var onCond, inBody := Returns(e.cond, bound), BlockReturns(e.body, bound);
    var o := EvalExpr(e.cond, env, m, fuel);
    ExprStays(e.cond, env, k, locals, bound, m, fuel);
    StaysInMore(o, env, k, onCond, inBody);
    NormalOuter(o, env, k, onCond);
    NormalStays(o, env, k, Join(onCond, inBody));
    if o.Normal? && o.value == BoolV(true) {
      ScopedSame(env, o.env, k, locals, bound);
      BlockStays(e.body, o.env, k, locals, bound, m, fuel);
      var o1 := EvalBlock(e.body, o.env, m, fuel);
      AgainStays(e, o.env, o1, k, locals, bound, inBody, m, fuel);
      RoundStays(e, env, o.env, o1, k, bound, inBody, onCond, m, fuel);
    }
  }

  lemma {:induction false} NormalStays(o: Outcome, env: Env, k: nat, seen: ReturnNames)
    ensures o.Normal? && SameOuter(o.env, env, k) ==> StaysIn(Normal(UnitV, o.env), env, k, seen)
    ensures StaysIn(Stuck, env, k, seen) && StaysIn(Timeout, env, k, seen)
  {
  }

  /** What follows one round, seen from before the test. */
  lemma {:induction false} RoundStays(e: Expr, env: Env, mid: Env, o: Outcome, k: nat, bound: set<string>,
                                      inBody: ReturnNames, onCond: ReturnNames, m: Machine, fuel: nat)
    requires SameOuter(mid, env, k) && StaysIn(o, mid, k, inBody)
    requires (o.Normal? || o.Continued?) && fuel > 0 ==>
               StaysIn(EvalExpr(e, o.env, m, fuel - 1), mid, k, Returns(e, bound))
    ensures (o.Normal? || o.Continued?) && fuel > 0 ==>
              StaysIn(EvalExpr(e, o.env, m, fuel - 1), env, k, Returns(e, bound))
    ensures StaysIn(o, env, k, Join(onCond, inBody))
    ensures o.Broke? ==> StaysIn(Normal(UnitV, o.env), env, k, Join(onCond, inBody))
  {
    hide EvalExpr, Returns;
  }

  lemma {:induction false} LoopStays(e: Expr, env: Env, k: nat, locals: set<string>, bound: set<string>,
                                     m: Machine, fuel: nat)
    requires e.Loop? && AssignsLocals(e, locals) && Scoped(env, k, locals, bound)
    ensures StaysIn(EvalExpr(e, env, m, fuel), env, k, Returns(e, bound))
    decreases fuel, e, 2
  {
    hide Scoped, SameNames;
    BlockStays(e.body, env, k, locals, bound, m, fuel);
    var o := EvalBlock(e.body, env, m, fuel);
    AgainStays(e, env, o, k, locals, bound, BlockReturns(e.body, bound), m, fuel);
  }

  lemma {:induction false} MatchStays(e: Expr, env: Env, k: nat, locals: set<string>, bound: set<string>,
                                      m: Machine, fuel: nat)
    requires e.Match? && AssignsLocals(e, locals) && Scoped(env, k, locals, bound)
    ensures StaysIn(EvalExpr(e, env, m, fuel), env, k, Returns(e, bound))
    decreases fuel, e, 2
  {
    hide Scoped, SameNames, StaysIn;
    var onScrutinee, inArms := Returns(e.scrutinee, bound), ArmsReturn(e.arms, bound);
    var o := EvalExpr(e.scrutinee, env, m, fuel);
    ExprStays(e.scrutinee, env, k, locals, bound, m, fuel);
    StaysInMore(o, env, k, onScrutinee, inArms);
    NormalOuter(o, env, k, onScrutinee);
    if o.Normal? {
      ScopedSame(env, o.env, k, locals, bound);
      if ChooseArm(e.arms, o.value).Some? {
        ArmStays(e, o.value, o.env, k, locals, bound, m, fuel);
        var (i, inner) := ChooseArm(e.arms, o.value).value;
        var last := Leave(EvalExpr(e.arms[i].body, o.env + inner, m, fuel), |o.env|);
        StaysInVia(last, env, o.env, k, inArms);
        StaysInMore(last, env, k, inArms, onScrutinee);
      } else {
        StuckStays(env, k, Returns(e, bound));
      }
    }
  }

  lemma {:induction false} ArmStays(e: Expr, v: Value, env: Env, k: nat, locals: set<string>, bound: set<string>,
                                    m: Machine, fuel: nat)
    requires e.Match? && AssignsLocals(e, locals) && Scoped(env, k, locals, bound) && ChooseArm(e.arms, v).Some?
    ensures var (i, inner) := ChooseArm(e.arms, v).value;
            StaysIn(Leave(EvalExpr(e.arms[i].body, env + inner, m, fuel), |env|), env, k, ArmsReturn(e.arms, bound))
    decreases fuel, e, 1
  {
    var (i, inner) := ChooseArm(e.arms, v).value;
    var names := PatternNames(e.arms[i].pattern);
    var o := EvalExpr(e.arms[i].body, env + inner, m, fuel);
    hide EvalExpr, Scoped, SameNames, StaysIn;
    ChosenArm(e.arms, v, Leave(o, |env|), env, k, bound);
    ScopedMore(env, inner, k, locals, bound);
    ScopedWider(env + inner, k, locals, bound + NamesPast(inner, 0), bound + names);
    ExprStays(e.arms[i].body, env + inner, k, locals, bound + names, m, fuel);
    StaysInVia(o, env, env + inner, k, ArmReturns(e.arms[i], bound));
    ScopedIn(env, k, locals, bound);
    LeaveStays(o, env, |env|, k, ArmReturns(e.arms[i], bound));
  }

  lemma {:induction false} BinaryStays(e: Expr, env: Env, k: nat, locals: set<string>, bound: set<string>,
                                       m: Machine, fuel: nat)
    requires e.Binary? && AssignsLocals(e, locals) && Scoped(env, k, locals, bound)
    ensures StaysIn(EvalExpr(e, env, m, fuel), env, k, Returns(e, bound))
    decreases fuel, e, 2
  {
    hide Scoped, SameNames, ApplyBinary;
    ExprStays(e.lhs, env, k, locals, bound, m, fuel);
    var o := EvalExpr(e.lhs, env, m, fuel);
    if o.Normal? {
      ScopedSame(env, o.env, k, locals, bound);
      ExprStays(e.rhs, o.env, k, locals, bound, m, fuel);
    }
  }

  lemma {:induction false} ArgsStay(args: seq<Expr>, env: Env, k: nat, locals: set<string>, bound: set<string>,
                                    m: Machine, fuel: nat)
    requires (forall a <- args :: AssignsLocals(a, locals)) && Scoped(env, k, locals, bound)
    ensures var r := EvalArgs(args, env, m, fuel);
            if r.Args? then SameOuter(r.env, env, k) else StaysIn(r.outcome, env, k, AllReturn(args, bound))
    decreases fuel, args, 0
  {
    hide SameNames;
    ScopedIn(env, k, locals, bound);
    if args != [] {
      hide Scoped;
      ExprStays(args[0], env, k, locals, bound, m, fuel);
      var o := EvalExpr(args[0], env, m, fuel);
      if o.Normal? {
        ScopedSame(env, o.env, k, locals, bound);
        ArgsStay(args[1..], o.env, k, locals, bound, m, fuel);
      }
    }
  }

  lemma {:induction false} BodyStays(block: Block, env: Env, k: nat, locals: set<string>, bound: set<string>,
                                     m: Machine, fuel: nat)
    requires BlockAssignsLocals(block, locals) && Scoped(env, k, locals, bound)
    ensures var o := RunBlock(block, env, m, fuel);
            && StaysIn(o, env, k, BlockReturns(block, bound))
            && (o.Normal? ==> NamesPast(o.env, k) <= bound + LetNames(block.stmts))
    decreases fuel, block, 4
  {
    hide SameNames, Scoped;
    var inStmts, inTail := StmtsReturn(block.stmts, bound), OptionReturns(block.tail, bound + LetNames(block.stmts));
    StmtsStay(block.stmts, env, k, locals, bound, m, fuel);
    var o := EvalStmts(block.stmts, env, m, fuel);
    StaysInMore(o, env, k, inStmts, inTail);
    if o.Normal? {
      var inner := bound + LetNames(block.stmts);
      TailStays(block.tail, o.env, k, locals + LetNames(block.stmts), inner, m, fuel);
      var last := EvalOption(block.tail, o.env, m, fuel);
      assert RunBlock(block, env, m, fuel) == last;
      StaysInVia(last, env, o.env, k, inTail);
      StaysInMore(last, env, k, inTail, inStmts);
    }
  }

  lemma {:induction false} TailStays(tail: Option<Expr>, env: Env, k: nat, locals: set<string>, bound: set<string>,
                                     m: Machine, fuel: nat)
    requires (tail.Some? ==> AssignsLocals(tail.value, locals)) && Scoped(env, k, locals, bound)
    ensures var o := EvalOption(tail, env, m, fuel);
            && StaysIn(o, env, k, OptionReturns(tail, bound))
            && (o.Normal? ==> NamesPast(o.env, k) <= bound)
    decreases fuel, tail, 3
  {
    var o := EvalOption(tail, env, m, fuel);
    if tail.Some? {
      ExprStays(tail.value, env, k, locals, bound, m, fuel);
      assert o == EvalExpr(tail.value, env, m, fuel);
    }
    if o.Normal? {
      ScopedSame(env, o.env, k, locals, bound);
    }
  }

  lemma {:induction false} BlockStays(block: Block, env: Env, k: nat, locals: set<string>, bound: set<string>,
                                      m: Machine, fuel: nat)
    requires BlockAssignsLocals(block, locals) && Scoped(env, k, locals, bound)
    ensures StaysIn(EvalBlock(block, env, m, fuel), env, k, BlockReturns(block, bound))
    decreases fuel, block, 5
  {
    hide SameNames, StaysIn;
    BodyStays(block, env, k, locals, bound, m, fuel);
    LeaveStays(RunBlock(block, env, m, fuel), env, |env|, k, BlockReturns(block, bound));
  }

  lemma {:induction false} StmtsStay(stmts: seq<Stmt>, env: Env, k: nat, locals: set<string>, bound: set<string>,
                                     m: Machine, fuel: nat)
    requires StmtsAssignLocals(stmts, locals) && Scoped(env, k, locals, bound)
    ensures var o := EvalStmts(stmts, env, m, fuel);
            && StaysIn(o, env, k, StmtsReturn(stmts, bound))
            && (o.Normal? ==> Scoped(o.env, k, locals + LetNames(stmts), bound + LetNames(stmts)))
    decreases fuel, stmts, 3
  {
    hide SameNames, Scoped, StaysIn;
    if stmts == [] {
      assert locals + LetNames(stmts) == locals && bound + LetNames(stmts) == bound;
      ScopedIn(env, k, locals, bound);
      HereStays(env, k);
    } else {
      var one := LetNames([stmts[0]]);
      StmtStays(stmts[0], env, k, locals, bound, m, fuel);
      var o, first := EvalStmt(stmts[0], env, m, fuel), StmtReturns(stmts[0], bound);
      var rest := StmtsReturn(stmts[1..], bound + one);
      StaysInMore(o, env, k, first, rest);
      if o.Normal? {
        StmtsStay(stmts[1..], o.env, k, locals + one, bound + one, m, fuel);
        OneName(stmts[0]);
        assert locals + one + LetNames(stmts[1..]) == locals + LetNames(stmts);
        assert bound + one + LetNames(stmts[1..]) == bound + LetNames(stmts);
        NormalOuter(o, env, k, first);
        var last := EvalStmts(stmts[1..], o.env, m, fuel);
        StaysInVia(last, env, o.env, k, rest);
        StaysInMore(last, env, k, rest, first);
      }
    }
  }

  lemma {:induction false} HereStays(env: Env, k: nat)
    requires SameOuter(env, env, k)
    ensures StaysIn(Normal(UnitV, env), env, k, None)
  {
  }

  lemma {:induction false} StmtStays(stmt: Stmt, env: Env, k: nat, locals: set<string>, bound: set<string>,
                                     m: Machine, fuel: nat)
    requires StmtAssignsLocals(stmt, locals) && Scoped(env, k, locals, bound)
    ensures var o := EvalStmt(stmt, env, m, fuel);
            && StaysIn(o, env, k, StmtReturns(stmt, bound))
            && (o.Normal? ==> Scoped(o.env, k, locals + LetNames([stmt]), bound + LetNames([stmt])))
    decreases fuel, stmt, 3
  {
    OneName(stmt);
    if stmt.ReturnStmt? {
      hide Scoped, SameNames, StaysIn;
      ReturnStays(stmt.value, env, k, locals, bound, m, fuel);
    } else {
      hide Scoped, SameNames;
      var e := if stmt.LetStmt? || stmt.AssignStmt? then stmt.init else stmt.expr;
      ExprStays(e, env, k, locals, bound, m, fuel);
      var o := EvalExpr(e, env, m, fuel);
      if o.Normal? {
        ScopedSame(env, o.env, k, locals, bound);
        AfterStmt(stmt, o.value, o.env, k, locals, bound);
      }
    }
  }

  /** The environment a statement leaves once its expression has its value. */
  lemma {:induction false} AfterStmt(stmt: Stmt, v: Value, env: Env, k: nat, locals: set<string>, bound: set<string>)
    requires Scoped(env, k, locals, bound) && (stmt.AssignStmt? ==> stmt.target in locals)
    ensures stmt.LetStmt? ==>
              var after := env + [Binding(stmt.name, v)];
              SameOuter(after, env, k) && Scoped(after, k, locals + {stmt.name}, bound + {stmt.name})
    ensures stmt.AssignStmt? ==>
              var after := Assign(env, stmt.target, v);
              after.Some? && SameOuter(after.value, env, k) && Scoped(after.value, k, locals + {}, bound + {})
    ensures !stmt.LetStmt? ==> Scoped(env, k, locals + {}, bound + {})
  {
    assert locals + {} == locals && bound + {} == bound;
    if stmt.LetStmt? {
      ScopedLet(env, stmt.name, v, k, locals, bound);
    } else if stmt.AssignStmt? {
      AssignKeepsOuter(env, k, stmt.target, v);
      ScopedSame(env, Assign(env, stmt.target, v).value, k, locals, bound);
    }
  }

  // ---- what that means ---------------------------------------------------------------

  ghost predicate Exits(o: Outcome) {
    o.Normal? || o.Returned?
  }

  /** Where a body exits, its parameters are as they were on entry, below bindings of the
      names the body has in scope at an exit. */
  lemma {:induction false} ExitScope(body: Block, env: Env, m: Machine, fuel: nat)
    requires BlockAssignsLocals(body, {}) && Exits(RunBlock(body, env, m, fuel))
    ensures var after := RunBlock(body, env, m, fuel).env;
            |env| <= |after| && after[..|env|] == env && NamesPast(after, |env|) <= ExitNames(body)
  {
    assert Scoped(env, |env|, {}, {});
    BodyStays(body, env, |env|, {}, {}, m, fuel);
    assert env[..|env|] == env;
    assert {} + LetNames(body.stmts) == LetNames(body.stmts);
  }

  /** An expression that assigns its own locals only leaves the variables as they were, and
      one without a return does not return. */
  lemma {:induction false} ExprKeepsVariables(e: Expr, env: Env, m: Machine, fuel: nat)
    requires AssignsLocals(e, {})
    ensures var o := EvalExpr(e, env, m, fuel);
            (o.Normal? ==> o.env == env) && (Returns(e, {}).None? ==> !o.Returned?)
  {
    assert Scoped(env, |env|, {}, {});
    ExprStays(e, env, |env|, {}, {}, m, fuel);
    var o := EvalExpr(e, env, m, fuel);
    assert env[..|env|] == env;
    if o.Normal? {
      assert o.env[..|env|] == o.env;
    }
  }

  /** A name not bound since is looked up where it was. */
  lemma {:induction false} LookupOuter(env: Env, k: nat, x: string)
    requires k <= |env| && x !in NamesPast(env, k)
    ensures Lookup(env, x) == Lookup(env[..k], x)
    decreases |env|
  {
    if k < |env| {
      var front := env[..|env| - 1];
      assert env[|env| - 1].name in NamesPast(env, k);
      forall y | y in NamesPast(front, k) ensures y in NamesPast(env, k) {
        var i :| k <= i < |front| && front[i].name == y;
        assert env[i].name == y;
      }
      LookupOuter(front, k, x);
      assert front[..k] == env[..k];
    } else {
      assert env[..k] == env;
    }
  }
}
