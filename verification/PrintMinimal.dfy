/** No shorter text reads as the expression. */
module PrintMinimal {
  import opened Wrappers
  import opened Ir
  import opened ExprPrinter

  /** A tighter place adds a pair of parentheses at most. */
  lemma {:induction false} TighterLonger(e: Expr, p: nat, q: nat)
    requires Printable(e) && p <= q
    ensures |Print(e, p)| <= |Print(e, q)| <= |Print(e, p)| + 2
  {
  }

  lemma {:induction false} OpAtLevel(level: nat, token: Token)
    requires OpAt(level, token).Some?
    ensures Prec(OpAt(level, token).value) == level
  {
  }

  /** What the tokens up to `rest` are at least as long as. */
  predicate Long(toks: Tokens, rest: Tokens, extra: nat, e: Expr, q: nat) {
    Printable(e) ==> |toks| - |rest| + extra >= |Print(e, q)|
  }

  function Length(e: Expr, q: nat): nat {
    if Printable(e) then |Print(e, q)| else 0
  }

  lemma {:induction false} BinaryLength(op: BinOp, lhs: Expr, rhs: Expr)
    requires Printable(Binary(op, lhs, rhs))
    ensures Printable(lhs) && Printable(rhs)
    ensures |Print(Binary(op, lhs, rhs), Prec(op))| == |Print(lhs, Prec(op))| + 1 + |Print(rhs, Prec(op) + 1)|
  {
  }

  lemma {:induction false} UnaryLength(op: UnaryOp, operand: Expr)
    requires Printable(Unary(op, operand))
    ensures Printable(operand) && |Print(Unary(op, operand), 11)| == 1 + |Print(operand, 11)|
  {
  }

  lemma {:induction false} CallLength(callee: Expr, args: seq<Expr>)
    requires Printable(Call(callee, args))
    ensures Printable(callee) && forall a <- args :: Printable(a)
    ensures |Print(Call(callee, args), 11)| == |Print(callee, 11)| + |PrintArgs(args)| + 2
  {
  }

  lemma {:induction false} MoreArgsLength(arg: Expr, args: seq<Expr>)
    requires Printable(arg) && forall a <- args :: Printable(a)
    ensures forall a <- [arg] + args :: Printable(a)
    ensures |PrintArgs([arg] + args)| <= |Print(arg, 0)| + 1 + |PrintArgs(args)|
  {
    assert ([arg] + args)[1..] == args;
  }

  lemma {:induction false} LevelLong(level: nat, toks: Tokens)
    requires 1 <= level <= 11
    ensures var r := ParseLevel(level, toks); r.Parsed? ==> Long(toks, r.rest, 0, r.e, level)
    decreases |toks|, 20 - level
  {
    hide Print, Printable, ParseUnary, ParseLoop;
    if level == 11 {
      UnaryLong(toks);
    } else {
      LevelLong(level + 1, toks);
      var first := ParseLevel(level + 1, toks);
      if first.Parsed? {
        LoopLong(level, first.e, first.rest);
        if Printable(first.e) {
          TighterLonger(first.e, level, level + 1);
        }
      }
    }
  }

  /** The loop of a level: what it adds is at least as long as what printing adds. */
  lemma {:induction false} LoopLong(level: nat, lhs: Expr, toks: Tokens)
    requires 1 <= level <= 10
    ensures var r := ParseLoop(level, lhs, toks);
            r.Parsed? && Printable(r.e) ==> Printable(lhs) && Long(toks, r.rest, Length(lhs, level), r.e, level)
    decreases |toks|, 2
  {
    hide Print, Printable, ParseLevel, OpAt, Prec;
    if toks != [] && OpAt(level, toks[0]).Some? {
      var second := ParseLevel(level + 1, toks[1..]);
      if second.Parsed? {
        var op := OpAt(level, toks[0]).value;
        OpAtLevel(level, toks[0]);
        LevelLong(level + 1, toks[1..]);
        LoopLong(level, Binary(op, lhs, second.e), second.rest);
        if Printable(Binary(op, lhs, second.e)) {
          BinaryLength(op, lhs, second.e);
        }
      }
    }
  }

  lemma {:induction false} UnaryLong(toks: Tokens)
    ensures var r := ParseUnary(toks); r.Parsed? ==> Long(toks, r.rest, 0, r.e, 11)
    decreases |toks|, 5
  {
    hide Print, Printable, ParsePrimary, ParsePostfix;
    if toks != [] && toks[0] !in {PipeT, OrOrT, AmpersandT} {
      if toks[0] in {MinusT, BangT, TildeT} {
        UnaryLong(toks[1..]);
        var r := ParseUnary(toks);
        if r.Parsed? && Printable(r.e) {
          UnaryLength(r.e.uop, r.e.operand);
        }
      } else {
        PrimaryLong(toks);
        var first := ParsePrimary(toks);
        if first.Parsed? {
          PostfixLong(first.e, first.rest);
        }
      }
    }
  }

  lemma {:induction false} PostfixLong(e: Expr, toks: Tokens)
    ensures var r := ParsePostfix(e, toks);
            r.Parsed? && Printable(r.e) ==> Printable(e) && Long(toks, r.rest, Length(e, 11), r.e, 11)
    decreases |toks|, 2
  {
    hide Print, Printable, ParseArgs, PrintArgs;
    if toks != [] && toks[0] == LParen {
      var list := ParseArgs(toks[1..]);
      if list.Some? {
        ArgsLong(toks[1..]);
        PostfixLong(Call(e, list.value.0), list.value.1);
        if Printable(Call(e, list.value.0)) {
          CallLength(e, list.value.0);
        }
      }
    }
  }

  lemma {:induction false} ArgsLong(toks: Tokens)
    ensures var r := ParseArgs(toks);
            r.Some? && (forall a <- r.value.0 :: Printable(a)) ==>
              |toks| - |r.value.1| >= |PrintArgs(r.value.0)| + 1
    decreases |toks|, 30
  {
    hide Print, Printable, ParseLevel;
    var r := ParseArgs(toks);
    if r.Some? && toks[0] != RParen && forall a <- r.value.0 :: Printable(a) {
      LevelLong(1, toks);
      var first := ParseLevel(1, toks);
      assert r.value.0[0] == first.e && Printable(first.e);
      TighterLonger(first.e, 0, 1);
      if first.rest[0] == CommaT {
        ArgsLong(first.rest[1..]);
        var more := ParseArgs(first.rest[1..]).value.0;
        assert r.value.0 == [first.e] + more;
        forall a | a in more ensures Printable(a) {
          assert a in r.value.0;
        }
        MoreArgsLength(first.e, more);
      } else {
        assert r.value.0 == [first.e] && PrintArgs([first.e]) == Print(first.e, 0);
      }
    }
  }

  lemma {:induction false} PrimaryLong(toks: Tokens)
    ensures var r := ParsePrimary(toks); r.Parsed? ==> Long(toks, r.rest, 0, r.e, 11)
    decreases |toks|, 3
  {
    hide ParseLevel;
    if toks != [] && toks[0] == LParen && !(|toks| > 1 && toks[1] == RParen) {
      LevelLong(1, toks[1..]);
      var inner := ParseLevel(1, toks[1..]);
      if inner.Parsed? && Printable(inner.e) {
        TighterLonger(inner.e, 1, 11);
      }
    }
  }

  /** The printed tokens of a readable expression read as it, and no shorter tokens do: no pair of
      parentheses, and nothing else, can be left out. */
  lemma {:induction false} Shortest(e: Expr, toks: Tokens)
    requires Printable(e)
    ensures Readable(e) ==> ParseLevel(1, Print(e, 0)) == Parsed(e, [])
    ensures ParseLevel(1, toks) == Parsed(e, []) ==> |Print(e, 0)| <= |toks|
  {
    hide Print, Printable, ParseLevel, Readable;
    RoundTrip(e);
    LevelLong(1, toks);
    TighterLonger(e, 0, 1);
  }
}
