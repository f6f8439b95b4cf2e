/** When the verdict on a postcondition can be trusted. */
module ContractVerdict {
  import opened Wrappers
  import opened Ir
  import opened Scopes
  import opened ContractProver

  function Unconstrained(params: seq<string>): RangeEnv {
    map x | x in params :: UNBOUNDED
  }

  lemma {:induction false} UnconstrainedFits(params: seq<string>, env: Env)
    ensures InRanges(Unconstrained(params), env)
  {
    forall x ensures VarFits(Unconstrained(params), env, x) {
    }
  }

  /** The postcondition over the parameters on entry, with `result` naming the exit value:
      the scope in which the clause is checked and its names resolved. */
  function ContractValue(ensured: Expr, entry: Env, v: Value, m: Machine): Option<Value>
    requires Pure(ensured)
  {
    PureEval(ensured, entry + [Binding("result", v)], m)
  }

  lemma {:induction false} LookupPushed(env: Env, x: string, v: Value, y: string)
    ensures Lookup(env + [Binding(x, v)], y) == if x == y then Some(v) else Lookup(env, y)
  {
    assert (env + [Binding(x, v)])[..|env|] == env;
  }

  // ---- conditions ----------------------------------------------------------------

  ghost predicate NeverReturns(cond: Expr) {
    forall env, m, fuel :: !EvalExpr(cond, env, m, fuel).Returned?
  }

  ghost predicate ReturnsInt(o: Outcome) {
    o.Returned? && o.value.IntV?
  }

  ghost predicate NeverReturnsInt(cond: Expr) {
    forall env, m, fuel :: !ReturnsInt(EvalExpr(cond, env, m, fuel))
  }

  ghost predicate IsFalse(o: Outcome) {
    o.Normal? && o.value == BoolV(false)
  }

  ghost predicate NeverFalse(cond: Expr) {
    forall env, m, fuel :: !IsFalse(EvalExpr(cond, env, m, fuel))
  }

  /** A condition the paths account for: it leaves the variables alone, does not return, and
      its else path is kept or never taken. With `ints`, only integer returns matter. */
  ghost predicate Reliable(cond: Expr, ints: bool) {
    && AssignsLocals(cond, {})
    && (if ints then NeverReturnsInt(cond) else NeverReturns(cond))
    && (Invertible(cond) || NeverFalse(cond))
  }

  /** Every condition along the tails is reliable. */
  ghost predicate ReliableTails(block: Block, ints: bool) {
    block.tail.Some? ==> ReliableTail(block.tail.value, ints)
  }

  ghost predicate ReliableTail(e: Expr, ints: bool) {
    e.If? ==> Reliable(e.cond, ints) && ReliableTails(e.thenBlock, ints) && ReliableTails(e.elseBlock, ints)
  }

  /** The same, as the text of the body shows it. */
  predicate PlainTails(block: Block) {
    block.tail.Some? ==> PlainTail(block.tail.value)
  }

  predicate PlainTail(e: Expr) {
    e.If? ==>
      && AssignsLocals(e.cond, {}) && Returns(e.cond, {}).None? && Invertible(e.cond)
      && PlainTails(e.thenBlock) && PlainTails(e.elseBlock)
  }

  lemma {:induction false} PlainIsReliable(block: Block, ints: bool)
    requires PlainTails(block)
    ensures ReliableTails(block, ints)
    decreases block
  {
    if block.tail.Some? && block.tail.value.If? {
      var tail := block.tail.value;
      forall env, m, fuel ensures !EvalExpr(tail.cond, env, m, fuel).Returned? {
        ExprKeepsVariables(tail.cond, env, m, fuel);
      }
      PlainIsReliable(tail.thenBlock, ints);
      PlainIsReliable(tail.elseBlock, ints);
    }
  }

  // ---- the paths cover the exits ---------------------------------------------------

  /** How a path describes an exit with value `v`: a result expression without blocks has
      that value in the entry state. Others have no range, so nothing is asked of them. */
  ghost predicate PathTells(path: TailPath, env: Env, v: Value, m: Machine) {
    && InRanges(path.renv, env)
    && match path.result
       case None => v == UnitV
       case Some(e) => Pure(e) ==> PureEval(e, env, m) == Some(v)
  }

  lemma {:induction false} ImpureUnrefined(renv: RangeEnv, cond: Expr, truth: bool)
    requires !Pure(cond) && (truth || Invertible(cond))
    ensures RefineEnv(renv, cond, truth) == Some(renv)
  {
  }

  lemma {:induction false} RefineRuns(renv: RangeEnv, cond: Expr, truth: bool, env: Env, m: Machine, fuel: nat)
    requires InRanges(renv, env) && EvalExpr(cond, env, m, fuel) == Normal(BoolV(truth), env)
    requires truth || Invertible(cond)
    ensures RefineEnv(renv, cond, truth).Some? && InRanges(RefineEnv(renv, cond, truth).value, env)
  {
    if Pure(cond) {
      hide RefineEnv, InRanges;
      PureRuns(cond, env, m, fuel);
      RefineSound(renv, cond, truth, env, m);
    } else {
      ImpureUnrefined(renv, cond, truth);
    }
  }

  lemma {:induction false} TailRuns(block: Block, env: Env, m: Machine, fuel: nat)
    requires block.stmts == []
    ensures RunBlock(block, env, m, fuel) ==
            match block.tail
            case None => Normal(UnitV, env)
            case Some(e) => EvalExpr(e, env, m, fuel)
  {
  }

  lemma {:induction false} LeaveExit(o: Outcome, env: Env)
    requires GrowsScope(o, env)
    ensures Exits(Leave(o, |env|)) <==> Exits(o)
    ensures Exits(o) ==> Leave(o, |env|).value == o.value
  {
  }

  /** Every exit of the body is described by one of the collected paths. */
  lemma {:induction false} PathsCoverExits(block: Block, ints: bool, renv: RangeEnv, env: Env, m: Machine, fuel: nat)
    returns (path: TailPath)
    requires ReliableTails(block, ints) && InRanges(renv, env) && CollectTailPaths(block, renv).Some?
    requires var o := RunBlock(block, env, m, fuel); Exits(o) && (ints ==> o.value.IntV?)
    ensures path in CollectTailPaths(block, renv).value
    ensures PathTells(path, env, RunBlock(block, env, m, fuel).value, m)
    decreases block
  {
    TailRuns(block, env, m, fuel);
    match block.tail
    case None => path := TailPath(renv, None);
    case Some(tail) =>
      if tail.If? {
        path := IfCoversExits(tail, ints, renv, env, m, fuel);
      } else if tail.Return? {
        path := TailPath(renv, tail.value);
        if tail.value.Some? && Pure(tail.value.value) {
          PureRuns(tail.value.value, env, m, fuel);
        }
      } else {
        path := TailPath(renv, Some(tail));
        if Pure(tail) {
          PureRuns(tail, env, m, fuel);
        }
      }
  }

  lemma {:induction false} IfCoversExits(e: Expr, ints: bool, renv: RangeEnv, env: Env, m: Machine, fuel: nat)
    returns (path: TailPath)
    requires e.If? && ReliableTail(e, ints) && InRanges(renv, env) && CollectExprPaths(e, renv).Some?
    requires var o := EvalExpr(e, env, m, fuel); Exits(o) && (ints ==> o.value.IntV?)
    ensures path in CollectExprPaths(e, renv).value
    ensures PathTells(path, env, EvalExpr(e, env, m, fuel).value, m)
    decreases e
  {
    ExprKeepsVariables(e.cond, env, m, fuel);
    var test := EvalExpr(e.cond, env, m, fuel);
    assert !ReturnsInt(test) || !ints;
    assert test.Normal? && test.value.BoolV? && test.env == env;
    assert !test.value.b ==> IsFalse(test);
    var branch := if test.value.b then e.thenBlock else e.elseBlock;
    assert EvalExpr(e, env, m, fuel) == EvalBlock(branch, env, m, fuel);
    RefineRuns(renv, e.cond, test.value.b, env, m, fuel);
    LeaveExit(RunBlock(branch, env, m, fuel), env);
    path := PathsCoverExits(branch, ints, RefineEnv(renv, e.cond, test.value.b).value, env, m, fuel);
  }

  lemma {:induction false} ProvedOnEveryPath(paths: seq<TailPath>, ensured: Expr, path: TailPath)
    requires Prove(paths, ensured) == Proved && path in paths
    ensures EvalLogic(ensured, path.renv, path.result) == Proved
  {
    if path != paths[0] {
      assert path in paths[1..];
      ProvedOnEveryPath(paths[1..], ensured, path);
    }
  }

  /** A path's verdict is right of every exit the path describes. */
  lemma {:induction false} PathVerdictSound(path: TailPath, ensured: Expr, env: Env, v: Value, m: Machine)
    requires Pure(ensured) && PathTells(path, env, v, m)
    ensures Agrees(EvalLogic(ensured, path.renv, path.result), ContractValue(ensured, env, v, m))
  {
    var pushed := env + [Binding("result", v)];
    forall x | x != "result" ensures VarFits(path.renv, pushed, x) {
      assert VarFits(path.renv, env, x);
      LookupPushed(env, "result", v, x);
    }
    LookupPushed(env, "result", v, "result");
    if path.result.Some? && EvalIntRange(path.result.value, path.renv, None).Some? {
      var e := path.result.value;
      RangedIsPure(e, path.renv, None);
      RangeSound(e, path.renv, None, env, m);
    }
    LogicSound(ensured, path.renv, path.result, pushed, m);
  }

  /** A verdict reached without looking at the body is right of every value in every state. */
  lemma {:induction false} OutrightSound(ensured: Expr, params: seq<string>, env: Env, v: Value, m: Machine)
    requires Pure(ensured)
    ensures Agrees(EvalLogic(ensured, Unconstrained(params), None), ContractValue(ensured, env, v, m))
  {
    var pushed := env + [Binding("result", v)];
    UnconstrainedFits(params, pushed);
    LogicSound(ensured, Unconstrained(params), None, pushed, m);
  }

  /** The run does not exit with a value of which the postcondition is false. */
  ghost predicate Holds(body: Block, ensured: Expr, env: Env, m: Machine, fuel: nat)
    requires Pure(ensured)
  {
    var o := RunBlock(body, env, m, fuel);
    Exits(o) ==> ContractValue(ensured, env, o.value, m) != Some(BoolV(false))
  }

  /** A postcondition judged `Proved` is false of no exit: outright when it was proved
      without looking at the body, and for reliable conditions along the tails otherwise. */
  lemma {:induction false} ProvedNeverFails(body: Block, ints: bool, ensured: Expr, params: seq<string>,
                                            env: Env, m: Machine, fuel: nat)
    requires Pure(ensured) && ProveEnsures(body, ensured, Unconstrained(params)) == Proved
    requires EvalLogic(ensured, Unconstrained(params), None) == Proved || ReliableTails(body, ints)
    ensures var o := RunBlock(body, env, m, fuel);
            Exits(o) && (ints ==> o.value.IntV?) ==> Holds(body, ensured, env, m, fuel)
  {
    var renv := Unconstrained(params);
    var o := RunBlock(body, env, m, fuel);
    if Exits(o) && (ints ==> o.value.IntV?) {
      OutrightSound(ensured, params, env, o.value, m);
      if EvalLogic(ensured, renv, None) != Proved {
        UnconstrainedFits(params, env);
        var path := PathsCoverExits(body, ints, renv, env, m, fuel);
        ProvedOnEveryPath(CollectTailPaths(body, renv).value, ensured, path);
        PathVerdictSound(path, ensured, env, o.value, m);
      }
    }
  }

  /** A postcondition refuted without looking at the body holds at no exit. */
  lemma {:induction false} RefutedNeverHolds(body: Block, ensured: Expr, params: seq<string>,
                                             env: Env, m: Machine, fuel: nat)
    requires Pure(ensured) && EvalLogic(ensured, Unconstrained(params), None) == Refuted
    ensures ProveEnsures(body, ensured, Unconstrained(params)) == Refuted
    ensures var o := RunBlock(body, env, m, fuel);
            Exits(o) ==> ContractValue(ensured, env, o.value, m) != Some(BoolV(true))
  {
    var o := RunBlock(body, env, m, fuel);
    if Exits(o) {
      OutrightSound(ensured, params, env, o.value, m);
    }
  }

  // ---- where the verdict is wrong ----------------------------------------------------

  /** `if cond { a } else { b }` */
  function TestBody(cond: Expr, a: I64, b: I64): Block {
    Block([], Some(If(cond, Block([], Some(Int(a))), Block([], Some(Int(b))))))
  }

  function ResultIs(op: BinOp, k: I64): Expr {
    Binary(op, Var("result"), Int(k))
  }

  lemma {:induction false} IntPath(op: BinOp, k: I64, renv: RangeEnv)
    requires op == Eq || op == Ge
    ensures EvalLogic(ResultIs(op, k), renv, Some(Int(k))) == Proved
    ensures EvalLogic(ResultIs(op, k), renv, None) == Unknown
  {
    assert EvalIntRange(Var("result"), renv, Some(Int(k))) == Some(IntRange(Some(k), Some(k)));
    assert EvalIntRange(Int(k), renv, Some(Int(k))) == Some(IntRange(Some(k), Some(k)));
  }

  lemma {:induction false} TruePathKept(renv: RangeEnv, cond: Expr)
    requires !Invertible(cond) || !Pure(cond)
    ensures RefineEnv(renv, cond, true).Some?
    ensures Invertible(cond) ==> RefineEnv(renv, cond, false).Some?
    ensures !Invertible(cond) ==> RefineEnv(renv, cond, false).None?
  {
  }

  lemma {:induction false} ProveOne(path: TailPath, ensured: Expr)
    requires EvalLogic(ensured, path.renv, path.result) == Proved
    ensures Prove([path], ensured) == Proved
  {
    assert [path][1..] == [] && Prove([], ensured) == Proved;
  }

  lemma {:induction false} ProveTwo(first: TailPath, second: TailPath, ensured: Expr)
    requires EvalLogic(ensured, first.renv, first.result) == Proved
    requires EvalLogic(ensured, second.renv, second.result) == Proved
    ensures Prove([first, second], ensured) == Proved
  {
    ProveOne(second, ensured);
    assert [first, second][1..] == [second];
  }

  /** The verdict on a body whose paths all end in `k`, or whose other path is dropped. */
  lemma {:induction false} TestBodyProved(cond: Expr, op: BinOp, k: I64, other: I64, params: seq<string>)
    requires op == Eq || op == Ge
    requires !Pure(cond) || !Invertible(cond)
    requires other == k || !Invertible(cond)
    ensures ProveEnsures(TestBody(cond, k, other), ResultIs(op, k), Unconstrained(params)) == Proved
  {
    hide RefineEnv, EvalLogic, Prove, Unconstrained, Pure, Invertible;
    var renv, ensured := Unconstrained(params), ResultIs(op, k);
    var body := TestBody(cond, k, other);
    IntPath(op, k, renv);
    TruePathKept(renv, cond);
    var onTrue := RefineEnv(renv, cond, true).value;
    IntPath(op, k, onTrue);
    var first := TailPath(onTrue, Some(Int(k)));
    ProveOne(first, ensured);
    assert CollectTailPaths(Block([], Some(Int(k))), onTrue) == Some([first]);
    if RefineEnv(renv, cond, false).None? {
      assert [first] + [] == [first];
      assert CollectExprPaths(body.tail.value, renv) == Some([first]);
    } else {
      var onFalse := RefineEnv(renv, cond, false).value;
      var second := TailPath(onFalse, Some(Int(k)));
      IntPath(op, k, onFalse);
      assert CollectTailPaths(Block([], Some(Int(k))), onFalse) == Some([second]);
      assert [first] + [second] == [first, second];
      ProveTwo(first, second, ensured);
      assert CollectExprPaths(body.tail.value, renv) == Some([first, second]);
    }
  }

  lemma {:induction false} ResultClause(op: BinOp, k: I64, entry: Env, v: int, m: Machine)
    requires op == Eq || op == Ge
    ensures Pure(ResultIs(op, k))
    ensures ContractValue(ResultIs(op, k), entry, IntV(v), m) == Some(BoolV(if op == Eq then v == k else v >= k))
  {
    var pushed := entry + [Binding("result", IntV(v))];
    LookupPushed(entry, "result", IntV(v), "result");
    assert PureEval(Var("result"), pushed, m) == Some(IntV(v));
    assert PureEval(Int(k), pushed, m) == Some(IntV(k));
  }

  /** A condition without an inverse comparison, false in some state: `if cond { 1 } else { 0 }`
      is judged to return at least 1, and in that state returns 0. */
  lemma {:induction false} FalseTestFails(cond: Expr, params: seq<string>, env: Env, m: Machine, fuel: nat)
    requires !Invertible(cond) && IsFalse(EvalExpr(cond, env, m, fuel))
    ensures ProveEnsures(TestBody(cond, 1, 0), ResultIs(Ge, 1), Unconstrained(params)) == Proved
    ensures RunBlock(TestBody(cond, 1, 0), env, m, fuel) == Normal(IntV(0), EvalExpr(cond, env, m, fuel).env)
    ensures ContractValue(ResultIs(Ge, 1), env, IntV(0), m) == Some(BoolV(false))
  {
    TestBodyProved(cond, Ge, 1, 0, params);
    ResultClause(Ge, 1, env, 0, m);
    hide ProveEnsures, ContractValue, Invertible;
    var body, after := TestBody(cond, 1, 0), EvalExpr(cond, env, m, fuel).env;
    TailRuns(body, env, m, fuel);
    var zero := Block([], Some(Int(0)));
    TailRuns(zero, after, m, fuel);
    assert EvalExpr(body.tail.value, env, m, fuel) == EvalBlock(zero, after, m, fuel);
    assert after[..|after|] == after;
  }

  /** A condition that returns `v` in some state: `if cond { k } else { k }` is judged to
      return `k`, and in that state returns `v`. */
  lemma {:induction false} ReturningTestFails(cond: Expr, k: I64, params: seq<string>, env: Env, m: Machine, fuel: nat)
    requires ReturnsInt(EvalExpr(cond, env, m, fuel)) && EvalExpr(cond, env, m, fuel).value.n != k
    ensures ProveEnsures(TestBody(cond, k, k), ResultIs(Eq, k), Unconstrained(params)) == Proved
    ensures RunBlock(TestBody(cond, k, k), env, m, fuel) == EvalExpr(cond, env, m, fuel)
    ensures Pure(ResultIs(Eq, k))
    ensures ContractValue(ResultIs(Eq, k), env, EvalExpr(cond, env, m, fuel).value, m) == Some(BoolV(false))
  {
    if Pure(cond) {
      PureRuns(cond, env, m, fuel);
    }
    TestBodyProved(cond, Eq, k, k, params);
    var o := EvalExpr(cond, env, m, fuel);
    ResultClause(Eq, k, env, o.value.n, m);
    assert o.value == IntV(o.value.n);
    hide ProveEnsures, ContractValue;
    var body := TestBody(cond, k, k);
    TailRuns(body, env, m, fuel);
    assert EvalExpr(body.tail.value, env, m, fuel) == o;
  }

  // ---- exactly when it is right ------------------------------------------------------

  ghost predicate IntExit(o: Outcome) {
    Exits(o) && o.value.IntV?
  }

  /** What a verdict promises of a body that exits with an integer. */
  ghost predicate Trusted(body: Block, ensured: Expr, params: seq<string>, env: Env, m: Machine, fuel: nat) {
    var o := RunBlock(body, env, m, fuel);
    Pure(ensured) && ProveEnsures(body, ensured, Unconstrained(params)) == Proved && IntExit(o) ==>
      Holds(body, ensured, env, m, fuel)
  }

  function IfBody(cond: Expr, thenBlock: Block, elseBlock: Block): Block {
    Block([], Some(If(cond, thenBlock, elseBlock)))
  }

  /** The verdict is right whatever the branches, the clause and the state. */
  ghost predicate TrustedTest(cond: Expr, params: seq<string>) {
    forall thenBlock, elseBlock, ensured, env, m, fuel |
      ReliableTails(thenBlock, true) && ReliableTails(elseBlock, true) ::
      Trusted(IfBody(cond, thenBlock, elseBlock), ensured, params, env, m, fuel)
  }

  /** For a condition that leaves the variables alone, verdicts on integer results are right
      for all branches with reliable tails, all clauses and all states exactly when it never
      returns an integer and either can be inverted or is never false. */
  lemma {:induction false} TestExact(cond: Expr, params: seq<string>)
    requires AssignsLocals(cond, {})
    ensures TrustedTest(cond, params) <==> NeverReturnsInt(cond) && (Invertible(cond) || NeverFalse(cond))
  {
    if Reliable(cond, true) {
      ReliableTestTrusted(cond, params);
    }
    if TrustedTest(cond, params) {
      forall env, m, fuel ensures !ReturnsInt(EvalExpr(cond, env, m, fuel)) {
        TrustedNeverReturns(cond, params, env, m, fuel);
      }
      if !Invertible(cond) {
        forall env, m, fuel ensures !IsFalse(EvalExpr(cond, env, m, fuel)) {
          TrustedNeverFalse(cond, params, env, m, fuel);
        }
      }
    }
  }

  lemma {:induction false} ReliableTestTrusted(cond: Expr, params: seq<string>)
    requires Reliable(cond, true)
    ensures TrustedTest(cond, params)
  {
    hide Reliable, Holds, ProveEnsures;
    forall thenBlock, elseBlock, ensured, env, m, fuel |
      ReliableTails(thenBlock, true) && ReliableTails(elseBlock, true)
      ensures Trusted(IfBody(cond, thenBlock, elseBlock), ensured, params, env, m, fuel)
    {
      var body := IfBody(cond, thenBlock, elseBlock);
      assert ReliableTails(body, true);
      if Pure(ensured) && ProveEnsures(body, ensured, Unconstrained(params)) == Proved {
        ProvedNeverFails(body, true, ensured, params, env, m, fuel);
      }
    }
  }

  lemma {:induction false} ConstTails(k: I64, ints: bool)
    ensures ReliableTails(Block([], Some(Int(k))), ints)
  {
  }

  lemma {:induction false} TrustedNeverReturns(cond: Expr, params: seq<string>, env: Env, m: Machine, fuel: nat)
    requires TrustedTest(cond, params)
    ensures !ReturnsInt(EvalExpr(cond, env, m, fuel))
  {
    hide TrustedTest, ProveEnsures, ReliableTails, ContractValue;
    var o := EvalExpr(cond, env, m, fuel);
    if ReturnsInt(o) {
      var k: I64 := if o.value.n == 0 then 1 else 0;
      ReturningTestFails(cond, k, params, env, m, fuel);
      TrustedInstance(cond, k, k, ResultIs(Eq, k), params, env, m, fuel);
    }
  }

  lemma {:induction false} TrustedNeverFalse(cond: Expr, params: seq<string>, env: Env, m: Machine, fuel: nat)
    requires TrustedTest(cond, params) && !Invertible(cond)
    ensures !IsFalse(EvalExpr(cond, env, m, fuel))
  {
    hide TrustedTest, ProveEnsures, ReliableTails, ContractValue;
    if IsFalse(EvalExpr(cond, env, m, fuel)) {
      FalseTestFails(cond, params, env, m, fuel);
      TrustedInstance(cond, 1, 0, ResultIs(Ge, 1), params, env, m, fuel);
    }
  }

  lemma {:induction false} TrustedInstance(cond: Expr, a: I64, b: I64, ensured: Expr, params: seq<string>,
                                           env: Env, m: Machine, fuel: nat)
    requires TrustedTest(cond, params)
    ensures Trusted(TestBody(cond, a, b), ensured, params, env, m, fuel)
  {
    ConstTails(a, true);
    ConstTails(b, true);
    hide Trusted;
    assert TestBody(cond, a, b) == IfBody(cond, Block([], Some(Int(a))), Block([], Some(Int(b))));
  }

  // ---- two bodies it is wrong about --------------------------------------------------

  /** The else path of `if a && b { 1 } else { 0 }` is dropped, so it is judged to return at
      least 1. */
  lemma {:induction false} DroppedElseProvedButFails(m: Machine, env: Env)
    requires Lookup(env, "a") == Some(BoolV(false))
    ensures var body := TestBody(Binary(AndAlso, Var("a"), Var("b")), 1, 0);
            && ProveEnsures(body, ResultIs(Ge, 1), Unconstrained(["a", "b"])) == Proved
            && RunBlock(body, env, m, 0) == Normal(IntV(0), env)
            && ContractValue(ResultIs(Ge, 1), env, IntV(0), m) == Some(BoolV(false))
  {
    var cond := Binary(AndAlso, Var("a"), Var("b"));
    assert EvalExpr(Var("a"), env, m, 0) == Normal(BoolV(false), env);
    assert EvalExpr(cond, env, m, 0) == Normal(BoolV(false), env);
    hide EvalExpr, ProveEnsures, RunBlock, ContractValue;
    FalseTestFails(cond, ["a", "b"], env, m, 0);
  }

  /** `match b { true => return 0, false => true }` */
  const RETURNING_TEST := Match(Var("b"),
      [MatchArm(BoolPat(true), Return(Some(Int(0)))), MatchArm(BoolPat(false), Bool(true))])

  /** A `return` inside a tail condition is on no path, so its value goes unchecked. */
  lemma {:induction false} EarlyReturnProvedButFails(m: Machine, env: Env)
    requires Lookup(env, "b") == Some(BoolV(true))
    ensures var body := TestBody(RETURNING_TEST, 1, 1);
            && ProveEnsures(body, ResultIs(Eq, 1), Unconstrained(["b"])) == Proved
            && RunBlock(body, env, m, 0) == Returned(IntV(0), env)
            && ContractValue(ResultIs(Eq, 1), env, IntV(0), m) == Some(BoolV(false))
  {
    ReturningTestReturns(m, env);
    hide EvalExpr, ProveEnsures, RunBlock, ContractValue;
    ReturningTestFails(RETURNING_TEST, 1, ["b"], env, m, 0);
  }

  lemma {:induction false} ReturningTestReturns(m: Machine, env: Env)
    requires Lookup(env, "b") == Some(BoolV(true))
    ensures EvalExpr(RETURNING_TEST, env, m, 0) == Returned(IntV(0), env)
  {
    var arms := RETURNING_TEST.arms;
    assert BindPattern(arms[0].pattern, BoolV(true)) == Some([]);
    assert ChooseArm(arms, BoolV(true)) == Some((0, []));
    assert env + [] == env;
    assert EvalExpr(Var("b"), env, m, 0) == Normal(BoolV(true), env);
    assert EvalOption(Some(Int(0)), env, m, 0) == Normal(IntV(0), env);
    assert EvalExpr(arms[0].body, env, m, 0) == Returned(IntV(0), env);
  }
}
