/** The tokens of a printed expression, and the parser's cascade. */
module ExprPrinter {
  import opened Wrappers
  import opened Ir

  datatype Token =
    | IdentT(name: string) | IntT(n: I64) | KwTrue | KwFalse
    | LParen | RParen | CommaT
    | MinusT | BangT | TildeT
    | OrOrT | AndAndT | PipeT | CaretT | AmpersandT
    | EqEqT | NeT | LtT | LeT | GtT | GeT
    | LShiftT | RShiftT | URShiftT
    | PlusT | StarT | SlashT | PercentT

  type Tokens = seq<Token>

  // ---- printing ------------------------------------------------------------------

  /** What binds the operand of a prefix operator, and a callee. */
  const PREFIX_OPERAND_PREC: nat := 11

  function Prec(op: BinOp): (p: nat)
    ensures 1 <= p <= 10
  {
    match op
    case OrElse => 1
    case AndAlso => 2
    case BitOr => 3
    case BitXor => 4
    case BitAnd => 5
    case Eq => 6
    case Ne => 6
    case Lt => 7
    case Le => 7
    case Gt => 7
    case Ge => 7
    case Shl => 8
    case Shr => 8
    case Ushr => 8
    case Add => 9
    case Sub => 9
    case Mul => 10
    case Div => 10
    case Mod => 10
  }

  function OpToken(op: BinOp): Token {
    match op
    case OrElse => OrOrT
    case AndAlso => AndAndT
    case BitOr => PipeT
    case BitXor => CaretT
    case BitAnd => AmpersandT
    case Eq => EqEqT
    case Ne => NeT
    case Lt => LtT
    case Le => LeT
    case Gt => GtT
    case Ge => GeT
    case Shl => LShiftT
    case Shr => RShiftT
    case Ushr => URShiftT
    case Add => PlusT
    case Sub => MinusT
    case Mul => StarT
    case Div => SlashT
    case Mod => PercentT
  }

  function PrefixToken(op: UnaryOp): Token {
    match op
    case Neg => MinusT
    case Not => BangT
    case BitNot => TildeT
  }

  /** The expressions printed here. Negative literals are excluded: their text is a
      prefix operator and a literal. */
  predicate Printable(e: Expr)
    decreases e
  {
    match e
    case Int(n) => 0 <= n
    case Bool(_) => true
    case Unit => true
    case Var(_) => true
    case Binary(_, lhs, rhs) => Printable(lhs) && Printable(rhs)
    case Unary(_, operand) => Printable(operand)
    case Call(callee, args) => Printable(callee) && forall a <- args :: Printable(a)
    case _ => false
  }

  function Print(e: Expr, parentPrec: nat): Tokens
    requires Printable(e)
    decreases e, 1
  {
    match e
    case Int(n) => [IntT(n)]
    case Bool(b) => [if b then KwTrue else KwFalse]
    case Unit => [LParen, RParen]
    case Var(x) => [IdentT(x)]
    case Binary(op, lhs, rhs) =>
      var inner := Print(lhs, Prec(op)) + [OpToken(op)] + Print(rhs, Prec(op) + 1);
      if Prec(op) < parentPrec then [LParen] + inner + [RParen] else inner
    case Unary(op, operand) => [PrefixToken(op)] + Print(operand, PREFIX_OPERAND_PREC)
    case Call(callee, args) => Print(callee, PREFIX_OPERAND_PREC) + [LParen] + PrintArgs(args) + [RParen]
  }

  function PrintArgs(args: seq<Expr>): Tokens
    requires forall a <- args :: Printable(a)
    decreases args, 0
  {
    if args == [] then []
    else if |args| == 1 then Print(args[0], 0)
    else Print(args[0], 0) + [CommaT] + PrintArgs(args[1..])
  }

  // ---- the parser's cascade ----------------------------------------------------------

  datatype Parsed = NoParse | Parsed(e: Expr, rest: Tokens)

  /** The operator a level's loop takes at this token. */
  function OpAt(level: nat, token: Token): Option<BinOp> {
    match level
    case 1 => if token.OrOrT? then Some(OrElse) else None
    case 2 => if token.AndAndT? then Some(AndAlso) else None
    case 3 => if token.PipeT? then Some(BitOr) else None
    case 4 => if token.CaretT? then Some(BitXor) else None
    case 5 => if token.AmpersandT? then Some(BitAnd) else None
    case 6 => if token.EqEqT? then Some(Eq) else if token.NeT? then Some(Ne) else None
    case 7 =>
      if token.LtT? then Some(Lt) else if token.LeT? then Some(Le)
      else if token.GtT? then Some(Gt) else if token.GeT? then Some(Ge) else None
    case 8 =>
      if token.LShiftT? then Some(Shl) else if token.RShiftT? then Some(Shr)
      else if token.URShiftT? then Some(Ushr) else None
    case 9 => if token.PlusT? then Some(Add) else if token.MinusT? then Some(Sub) else None
    case 10 =>
      if token.StarT? then Some(Mul) else if token.SlashT? then Some(Div)
      else if token.PercentT? then Some(Mod) else None
    case _ => None
  }

  /** Levels 1 to 10 are the binary operators, from `||` down to `*`; 11 is `parse_unary`. */
  function ParseLevel(level: nat, toks: Tokens): (r: Parsed)
    requires 1 <= level <= 11
    ensures r.Parsed? ==> |r.rest| < |toks|
    decreases |toks|, 20 - level
  {
    if level == 11 then ParseUnary(toks)
    else
      match ParseLevel(level + 1, toks)
      case NoParse => NoParse
      case Parsed(lhs, rest) => ParseLoop(level, lhs, rest)
  }

  function ParseLoop(level: nat, lhs: Expr, toks: Tokens): (r: Parsed)
    requires 1 <= level <= 10
    ensures r.Parsed? ==> |r.rest| <= |toks|
    decreases |toks|, 2
  {
    if toks == [] || OpAt(level, toks[0]).None? then Parsed(lhs, toks)
    else
      match ParseLevel(level + 1, toks[1..])
      case NoParse => NoParse
      case Parsed(rhs, rest) => ParseLoop(level, Binary(OpAt(level, toks[0]).value, lhs, rhs), rest)
  }

  /** Closures and borrows, which other prefix tokens start, are not modelled. */
  function ParseUnary(toks: Tokens): (r: Parsed)
    ensures r.Parsed? ==> |r.rest| < |toks|
    decreases |toks|, 5
  {
    if toks == [] || toks[0] in {PipeT, OrOrT, AmpersandT} then NoParse
    else if toks[0] in {MinusT, BangT, TildeT} then
      var op := if toks[0] == MinusT then Neg else if toks[0] == BangT then Not else BitNot;
      match ParseUnary(toks[1..])
      case NoParse => NoParse
      case Parsed(e, rest) => Parsed(Unary(op, e), rest)
    else
      match ParsePrimary(toks)
      case NoParse => NoParse
      case Parsed(e, rest) => ParsePostfix(e, rest)
  }

  function ParsePostfix(e: Expr, toks: Tokens): (r: Parsed)
    ensures r.Parsed? ==> |r.rest| <= |toks|
    decreases |toks|, 2
  {
    if toks == [] || toks[0] != LParen then Parsed(e, toks)
    else
      match ParseArgs(toks[1..])
      case None => Parsed.NoParse
      case Some((args, rest)) => ParsePostfix(Call(e, args), rest)
  }

  function ParseArgs(toks: Tokens): (r: Option<(seq<Expr>, Tokens)>)
    ensures r.Some? ==> |r.value.1| < |toks|
    decreases |toks|, 30
  {
    if toks == [] then None
    else if toks[0] == RParen then Some(([], toks[1..]))
    else
      match ParseLevel(1, toks)
      case NoParse => None
      case Parsed(arg, rest) =>
        if rest == [] then None
        else if rest[0] == CommaT then
          match ParseArgs(rest[1..])
          case None => None
          case Some((args, after)) => Some(([arg] + args, after))
        else if rest[0] == RParen then Some(([arg], rest[1..]))
        else None
  }

  function ParsePrimary(toks: Tokens): (r: Parsed)
    ensures r.Parsed? ==> |r.rest| < |toks|
    decreases |toks|, 3
  {
    if toks == [] then NoParse
    else
      match toks[0]
      case IntT(n) => Parsed(Int(n), toks[1..])
      case KwTrue => Parsed(Bool(true), toks[1..])
      case KwFalse => Parsed(Bool(false), toks[1..])
      case IdentT(x) => Parsed(Var(x), toks[1..])
      case LParen =>
        if |toks| > 1 && toks[1] == RParen then Parsed(Unit, toks[2..])
        else
          (match ParseLevel(1, toks[1..])
           case NoParse => NoParse
           case Parsed(e, rest) => if rest != [] && rest[0] == RParen then Parsed(e, rest[1..]) else NoParse)
      case _ => NoParse
  }

  // ---- what printing keeps ----------------------------------------------------------

  /** No call whose callee is a prefix expression: `-f(x)` reads as the negated call. */
  predicate Readable(e: Expr)
    decreases e
  {
    match e
    case Binary(_, lhs, rhs) => Readable(lhs) && Readable(rhs)
    case Unary(_, operand) => Readable(operand)
    case Call(callee, args) => !callee.Unary? && Readable(callee) && forall a <- args :: Readable(a)
    case _ => true
  }

  /** The call moved inside the prefix operators of its callee. */
  function PushCall(callee: Expr, args: seq<Expr>): Expr {
    match callee
    case Unary(op, operand) => Unary(op, PushCall(operand, args))
    case _ => Call(callee, args)
  }

  /** The expression the printed text of `e` denotes. */
  function Read(e: Expr): Expr
    decreases e, 1
  {
    match e
    case Binary(op, lhs, rhs) => Binary(op, Read(lhs), Read(rhs))
    case Unary(op, operand) => Unary(op, Read(operand))
    case Call(callee, args) => PushCall(Read(callee), ReadAll(args))
    case _ => e
  }

  function ReadAll(args: seq<Expr>): (r: seq<Expr>)
    ensures |r| == |args|
    decreases args, 0
  {
    if args == [] then [] else [Read(args[0])] + ReadAll(args[1..])
  }

  function CallTail(args: seq<Expr>): Tokens
    requires forall a <- args :: Printable(a)
  {
    [LParen] + PrintArgs(args) + [RParen]
  }

  lemma {:induction false} PushCallShape(callee: Expr, args: seq<Expr>)
    requires Printable(callee) && Readable(callee)
    requires forall a <- args :: Printable(a) && Readable(a)
    ensures Printable(PushCall(callee, args)) && Readable(PushCall(callee, args))
  {
    if callee.Unary? {
      PushCallShape(callee.operand, args);
    }
  }

  lemma {:induction false} PrintUnfolds(e: Expr, q: nat)
    requires Printable(e)
    ensures e.Call? ==> Print(e, q) == Print(e.callee, PREFIX_OPERAND_PREC) + CallTail(e.args)
    ensures e.Unary? ==> Print(e, q) == [PrefixToken(e.uop)] + Print(e.operand, PREFIX_OPERAND_PREC)
  {
    hide PrintArgs;
    if e.Call? {
      var callee := Print(e.callee, PREFIX_OPERAND_PREC);
      assert callee + [LParen] + PrintArgs(e.args) + [RParen] == callee + ([LParen] + PrintArgs(e.args) + [RParen]);
    }
  }

  lemma {:induction false} PushCallPrints(callee: Expr, args: seq<Expr>, q: nat)
    requires Printable(callee) && Readable(callee)
    requires forall a <- args :: Printable(a) && Readable(a)
    ensures Printable(PushCall(callee, args))
    ensures Print(PushCall(callee, args), q) == Print(callee, PREFIX_OPERAND_PREC) + CallTail(args)
    decreases callee
  {
    hide Print, CallTail, PrefixToken;
    PushCallShape(callee, args);
    PrintUnfolds(PushCall(callee, args), q);
    PrintUnfolds(callee, PREFIX_OPERAND_PREC);
    if callee.Unary? {
      PushCallPrints(callee.operand, args, PREFIX_OPERAND_PREC);
    }
  }

  lemma {:induction false} PushCallReads(callee: Expr, args: seq<Expr>)
    requires Printable(callee) && Readable(callee)
    requires forall a <- args :: Printable(a) && Readable(a)
    ensures Printable(PushCall(callee, args)) && Readable(PushCall(callee, args))
    ensures forall q :: Print(PushCall(callee, args), q) == Print(callee, PREFIX_OPERAND_PREC) + CallTail(args)
  {
    hide Print, CallTail, PushCall;
    PushCallShape(callee, args);
    forall q ensures Print(PushCall(callee, args), q) == Print(callee, PREFIX_OPERAND_PREC) + CallTail(args) {
      PushCallPrints(callee, args, q);
    }
  }

  /** `Read` is readable and prints to the very same tokens. */
  lemma {:induction false} ReadPrintsSame(e: Expr)
    requires Printable(e)
    ensures Printable(Read(e)) && Readable(Read(e))
    ensures forall q :: Print(Read(e), q) == Print(e, q)
    decreases e, 1
  {
    match e
    case Binary(op, lhs, rhs) =>
      ReadPrintsSame(lhs);
      ReadPrintsSame(rhs);
    case Unary(_, operand) => ReadPrintsSame(operand);
    case Call(callee, args) => ReadCallPrintsSame(callee, args);
    case _ =>
  }

  lemma {:induction false} ReadCallPrintsSame(callee: Expr, args: seq<Expr>)
    requires Printable(Call(callee, args))
    ensures Printable(Read(Call(callee, args))) && Readable(Read(Call(callee, args)))
    ensures forall q :: Print(Read(Call(callee, args)), q) == Print(Call(callee, args), q)
    decreases Call(callee, args), 0
  {
    hide Print, PushCall, PrintArgs;
    ReadPrintsSame(callee);
    ReadAllPrintsSame(args);
    PushCallReads(Read(callee), ReadAll(args));
    forall q ensures Print(Read(Call(callee, args)), q) == Print(Call(callee, args), q) {
      PrintUnfolds(Call(callee, args), q);
    }
  }

  lemma {:induction false} ReadAllPrintsSame(args: seq<Expr>)
    requires forall a <- args :: Printable(a)
    ensures forall a <- ReadAll(args) :: Printable(a) && Readable(a)
    ensures PrintArgs(ReadAll(args)) == PrintArgs(args)
    decreases args, 0
  {
    if args != [] {
      ReadPrintsSame(args[0]);
      ReadAllPrintsSame(args[1..]);
      assert ReadAll(args)[1..] == ReadAll(args[1..]);
    }
  }

  lemma {:induction false} ReadFixes(e: Expr)
    ensures Readable(e) ==> Read(e) == e
    ensures Printable(e) && Read(e) == e ==> Readable(e)
    decreases e, 1
  {
    if Printable(e) {
      ReadPrintsSame(e);
    }
    match e
    case Binary(_, lhs, rhs) =>
      ReadFixes(lhs);
      ReadFixes(rhs);
    case Unary(_, operand) => ReadFixes(operand);
    case Call(callee, args) =>
      ReadFixes(callee);
      if Readable(e) {
        ReadAllFixes(args);
      }
    case _ =>
  }

  lemma {:induction false} ReadAllFixes(args: seq<Expr>)
    requires forall a <- args :: Readable(a)
    ensures ReadAll(args) == args
    decreases args, 0
  {
    if args != [] {
      ReadFixes(args[0]);
      ReadAllFixes(args[1..]);
    }
  }

  // ---- reading printed text back ------------------------------------------------------

  /** What the binary levels 10 down to `level` do once an operand is read. */
  function Cascade(level: nat, lhs: Expr, toks: Tokens): Parsed
    requires 1 <= level <= 11
    decreases 11 - level
  {
    if level == 11 then Parsed(lhs, toks)
    else
      match Cascade(level + 1, lhs, toks)
      case NoParse => NoParse
      case Parsed(l, rest) => ParseLoop(level, l, rest)
  }

  lemma {:induction false} LevelIsCascade(level: nat, toks: Tokens)
    requires 1 <= level <= 11
    ensures ParseLevel(level, toks) ==
            match ParseUnary(toks)
            case NoParse => NoParse
            case Parsed(e, rest) => Cascade(level, e, rest)
    decreases 11 - level
  {
    if level < 11 {
      LevelIsCascade(level + 1, toks);
    }
  }

  /** The level whose loop takes this token; 0 when none does. */
  function OpLevel(token: Token): (level: nat)
    ensures level <= 10
  {
    match token
    case OrOrT => 1
    case AndAndT => 2
    case PipeT => 3
    case CaretT => 4
    case AmpersandT => 5
    case EqEqT | NeT => 6
    case LtT | LeT | GtT | GeT => 7
    case LShiftT | RShiftT | URShiftT => 8
    case PlusT | MinusT => 9
    case StarT | SlashT | PercentT => 10
    case _ => 0
  }

  lemma {:induction false} OpLevelExact(level: nat, token: Token)
    requires 1 <= level <= 10
    ensures OpAt(level, token).Some? <==> OpLevel(token) == level
  {
  }

  function FirstLevel(toks: Tokens): (level: nat)
    ensures level <= 10
  {
    if toks == [] then 0 else OpLevel(toks[0])
  }

  lemma {:induction false} OpTokenLevel(op: BinOp)
    ensures OpLevel(OpToken(op)) == Prec(op) && OpAt(Prec(op), OpToken(op)) == Some(op)
  {
  }

  lemma {:induction false} QuietCascade(level: nat, lhs: Expr, toks: Tokens)
    requires 1 <= level <= 11 && FirstLevel(toks) < level
    ensures Cascade(level, lhs, toks) == Parsed(lhs, toks)
    decreases 11 - level
  {
    hide OpAt, OpLevel;
    if level < 11 {
      if toks != [] {
        OpLevelExact(level, toks[0]);
      }
      QuietCascade(level + 1, lhs, toks);
    }
  }

  lemma {:induction false} CascadeSame(level: nat, p: nat, l1: Expr, t1: Tokens, l2: Expr, t2: Tokens)
    requires 1 <= level <= p <= 11 && Cascade(p, l1, t1) == Cascade(p, l2, t2)
    ensures Cascade(level, l1, t1) == Cascade(level, l2, t2)
    decreases p - level
  {
    hide ParseLoop;
    if level < p {
      CascadeSame(level + 1, p, l1, t1, l2, t2);
    }
  }

  /** No call can start here. */
  predicate Follow(toks: Tokens) {
    toks != [] ==> toks[0] != LParen
  }

  predicate Naked(e: Expr, q: nat) {
    e.Binary? && q <= Prec(e.op)
  }

  lemma {:induction false} FirstToken(e: Expr, q: nat)
    requires Printable(e)
    ensures Print(e, q) != []
    ensures Print(e, q)[0] != RParen && Print(e, q)[0] !in {PipeT, OrOrT, AmpersandT}
    ensures !e.Unary? && Readable(e) && !Naked(e, q) ==> Print(e, q)[0] !in {MinusT, BangT, TildeT}
  {
    match e
    case Binary(op, lhs, _) => FirstToken(lhs, Prec(op));
    case Call(callee, _) => FirstToken(callee, PREFIX_OPERAND_PREC);
    case _ =>
  }

  /** A printed expression is read back as far as the operators after it allow. */
  lemma {:induction false} PrintedParses(e: Expr, q: nat, level: nat, rest: Tokens)
    requires Printable(e) && Readable(e) && 1 <= level <= q <= 11 && Follow(rest)
    requires Naked(e, q) ==> FirstLevel(rest) <= Prec(e.op)
    ensures ParseLevel(level, Print(e, q) + rest) == Cascade(level, e, rest)
    decreases e, 5
  {
    if Naked(e, q) {
      NakedParses(e, q, level, rest);
    } else {
      assert Print(e, q) == Print(e, 11);
      UnaryParses(e, rest);
      LevelIsCascade(level, Print(e, q) + rest);
    }
  }

  /** One turn of a level's loop, seen from the cascade. */
  lemma {:induction false} LoopTakes(op: BinOp, lhs: Expr, rhs: Expr, right: Tokens, rest: Tokens)
    requires ParseLevel(Prec(op) + 1, right) == Parsed(rhs, rest) && FirstLevel(rest) <= Prec(op)
    ensures Cascade(Prec(op), lhs, [OpToken(op)] + right) == Cascade(Prec(op), Binary(op, lhs, rhs), rest)
  {
    hide ParseLevel, OpLevel;
    var p, after := Prec(op), [OpToken(op)] + right;
    OpTokenLevel(op);
    assert after[1..] == right;
    QuietCascade(p + 1, lhs, after);
    QuietCascade(p + 1, Binary(op, lhs, rhs), rest);
    assert ParseLoop(p, lhs, after) == ParseLoop(p, Binary(op, lhs, rhs), rest);
  }

  /** A printed operator expression without parentheses, with what follows it. */
  lemma {:induction false} NakedShape(e: Expr, q: nat, rest: Tokens)
    requires Printable(e) && Readable(e) && Naked(e, q)
    ensures Printable(e.lhs) && Printable(e.rhs) && Readable(e.lhs) && Readable(e.rhs)
    ensures e == Binary(e.op, e.lhs, e.rhs)
    ensures var p := Prec(e.op);
            Print(e, q) + rest == Print(e.lhs, p) + ([OpToken(e.op)] + (Print(e.rhs, p + 1) + rest))
    ensures Naked(e.rhs, Prec(e.op) + 1) ==> Prec(e.op) < Prec(e.rhs.op)
    ensures Naked(e.lhs, Prec(e.op)) ==> Prec(e.op) <= Prec(e.lhs.op)
  {
  }

  lemma {:induction false} OpFollows(op: BinOp, right: Tokens)
    ensures Follow([OpToken(op)] + right) && FirstLevel([OpToken(op)] + right) == Prec(op)
  {
    OpTokenLevel(op);
  }

  lemma {:induction false} NakedParses(e: Expr, q: nat, level: nat, rest: Tokens)
    requires Printable(e) && Readable(e) && Naked(e, q) && 1 <= level <= q && Follow(rest)
    requires FirstLevel(rest) <= Prec(e.op)
    ensures ParseLevel(level, Print(e, q) + rest) == Cascade(level, e, rest)
    decreases e, 1
  {
    var p := Prec(e.op);
    var right := Print(e.rhs, p + 1) + rest;
    var after := [OpToken(e.op)] + right;
    NakedShape(e, q, rest);
    OpFollows(e.op, right);
    NakedJoins(e, q, level, rest, right, after);
  }

  lemma {:induction false} NakedJoins(e: Expr, q: nat, level: nat, rest: Tokens, right: Tokens, after: Tokens)
    requires Printable(e) && e.Binary? && Printable(e.lhs) && Printable(e.rhs) && Readable(e.lhs) && Readable(e.rhs)
    requires e == Binary(e.op, e.lhs, e.rhs)
    requires 1 <= level <= Prec(e.op) && Follow(rest) && FirstLevel(rest) <= Prec(e.op)
    requires right == Print(e.rhs, Prec(e.op) + 1) + rest && after == [OpToken(e.op)] + right
    requires Follow(after) && FirstLevel(after) == Prec(e.op)
    requires Naked(e.rhs, Prec(e.op) + 1) ==> Prec(e.op) < Prec(e.rhs.op)
    requires Naked(e.lhs, Prec(e.op)) ==> Prec(e.op) <= Prec(e.lhs.op)
    ensures ParseLevel(level, Print(e.lhs, Prec(e.op)) + after) == Cascade(level, e, rest)
    decreases e, 0
  {
    hide ParseLevel, Cascade, OpAt, Print, Printable, Readable, Naked, FirstLevel, Follow, OpToken, Prec;
    var p := Prec(e.op);
    PrintedParses(e.rhs, p + 1, p + 1, rest);
    QuietCascade(p + 1, e.rhs, rest);
    LoopTakes(e.op, e.lhs, e.rhs, right, rest);
    PrintedParses(e.lhs, p, level, after);
    CascadeSame(level, p, e.lhs, after, e, rest);
  }

  lemma {:induction false} PrefixUnfolds(op: UnaryOp, toks: Tokens)
    ensures ParseUnary([PrefixToken(op)] + toks) ==
              match ParseUnary(toks)
              case NoParse => NoParse
              case Parsed(e, rest) => Parsed(Unary(op, e), rest)
  {
    hide ParsePrimary, ParsePostfix;
    assert ([PrefixToken(op)] + toks)[1..] == toks;
  }

  lemma {:induction false} NoPrefixUnfolds(toks: Tokens)
    requires toks != [] && toks[0] !in {MinusT, BangT, TildeT, AmpersandT, PipeT, OrOrT}
    ensures ParseUnary(toks) == PostfixFrom(toks)
  {
    hide ParsePrimary, ParsePostfix;
  }

  lemma {:induction false} UnaryParses(e: Expr, rest: Tokens)
    requires Printable(e) && Readable(e) && Follow(rest)
    ensures ParseUnary(Print(e, 11) + rest) == Parsed(e, rest)
    decreases e, 4
  {
    hide ParsePrimary, ParseLevel, ParsePostfix, ParseUnary, PostfixFrom;
    var toks := Print(e, 11) + rest;
    if e.Unary? {
      assert toks == [PrefixToken(e.uop)] + (Print(e.operand, 11) + rest);
      PrefixUnfolds(e.uop, Print(e.operand, 11) + rest);
      UnaryParses(e.operand, rest);
    } else {
      FirstToken(e, 11);
      assert toks[0] == Print(e, 11)[0];
      NoPrefixUnfolds(toks);
      PostfixParses(e, rest);
      NoCallFollows(e, rest);
    }
  }

  lemma {:induction false} NoCallFollows(e: Expr, rest: Tokens)
    requires Follow(rest)
    ensures ParsePostfix(e, rest) == Parsed(e, rest)
  {
  }

  /** The primary and the calls after it, up to `rest`. */
  function PostfixFrom(toks: Tokens): Parsed {
    match ParsePrimary(toks)
    case NoParse => NoParse
    case Parsed(e, rest) => ParsePostfix(e, rest)
  }

  lemma {:induction false} PostfixParses(e: Expr, rest: Tokens)
    requires Printable(e) && Readable(e) && !e.Unary?
    ensures PostfixFrom(Print(e, 11) + rest) == ParsePostfix(e, rest)
    decreases e, 3
  {
    hide ParseLevel, ParsePostfix;
    if e.Binary? {
      ParenParses(e, rest);
    } else if e.Call? {
      CallParses(e, rest);
    } else {
      var toks := Print(e, 11) + rest;
      assert toks[|Print(e, 11)|..] == rest;
    }
  }

  lemma {:induction false} ParenParses(e: Expr, rest: Tokens)
    requires e.Binary? && Printable(e) && Readable(e)
    ensures PostfixFrom(Print(e, 11) + rest) == ParsePostfix(e, rest)
    decreases e, 2
  {
    hide ParseLevel, ParsePostfix, OpLevel, Cascade;
    var toks, inner, after := Print(e, 11) + rest, Print(e, 1), [RParen] + rest;
    assert toks == [LParen] + (inner + after);
    FirstToken(e, 1);
    assert toks[1] == inner[0] && toks[1..] == inner + after;
    assert FirstLevel(after) == 0 by {
      CloserLevel();
    }
    NakedParses(e, 1, 1, after);
    QuietCascade(1, e, after);
    assert after[1..] == rest;
  }

  lemma {:induction false} CloserLevel()
    ensures OpLevel(RParen) == 0 && OpLevel(CommaT) == 0
  {
  }

  lemma {:induction false} CallParses(e: Expr, rest: Tokens)
    requires e.Call? && Printable(e) && Readable(e)
    ensures PostfixFrom(Print(e, 11) + rest) == ParsePostfix(e, rest)
    decreases e, 2
  {
    hide ParseLevel, ParsePrimary, ParseArgs;
    var toks := Print(e, 11) + rest;
    var after := [LParen] + (PrintArgs(e.args) + ([RParen] + rest));
    assert toks == Print(e.callee, 11) + after;
    PostfixParses(e.callee, after);
    assert after[1..] == PrintArgs(e.args) + ([RParen] + rest);
    ArgsParse(e.args, rest);
  }

  lemma {:induction false} ClosedParses(e: Expr, rest: Tokens)
    requires Printable(e) && Readable(e)
    requires rest != [] && rest[0] in {CommaT, RParen}
    ensures ParseLevel(1, Print(e, 0) + rest) == Parsed(e, rest)
    decreases e, 6
  {
    assert Print(e, 0) == Print(e, 1);
    assert FirstLevel(rest) == 0;
    PrintedParses(e, 1, 1, rest);
    QuietCascade(1, e, rest);
  }

  lemma {:induction false} ArgsParse(args: seq<Expr>, rest: Tokens)
    requires forall a <- args :: Printable(a) && Readable(a)
    ensures ParseArgs(PrintArgs(args) + ([RParen] + rest)) == Some((args, rest))
    decreases args, 0
  {
    hide ParseLevel, OpLevel;
    var toks := PrintArgs(args) + ([RParen] + rest);
    if args == [] {
      assert toks == [RParen] + rest && toks[1..] == rest;
    } else {
      var more := if |args| == 1 then [RParen] + rest else [CommaT] + (PrintArgs(args[1..]) + ([RParen] + rest));
      assert toks == Print(args[0], 0) + more;
      FirstToken(args[0], 0);
      assert toks[0] == Print(args[0], 0)[0];
      ClosedParses(args[0], more);
      if |args| == 1 {
        assert more[1..] == rest && args == [args[0]];
      } else {
        ArgsParse(args[1..], rest);
        assert more[1..] == PrintArgs(args[1..]) + ([RParen] + rest);
        assert args == [args[0]] + args[1..];
      }
    }
  }

  /** Parsing what was printed gives back the expression the text denotes, for every
      printable expression; that is the expression itself exactly when no call has a
      prefix expression as its callee. */
  lemma {:induction false} RoundTrip(e: Expr)
    requires Printable(e)
    ensures ParseLevel(1, Print(e, 0)) == Parsed(Read(e), [])
    ensures ParseLevel(1, Print(e, 0)) == Parsed(e, []) <==> Readable(e)
  {
    ReadPrintsSame(e);
    ReadFixes(e);
    var toks := Print(Read(e), 1);
    assert Print(e, 0) == toks + [];
    PrintedParses(Read(e), 1, 1, []);
    QuietCascade(1, Read(e), []);
  }

  /** `(-f)(x)` is printed as `-f(x)`, which is read as `-(f(x))`. */
  lemma {:induction false} PrefixCalleeMisread(f: string, x: string)
    ensures var e := Call(Unary(Neg, Var(f)), [Var(x)]);
            && Printable(e) && Print(e, 0) == [MinusT, IdentT(f), LParen, IdentT(x), RParen]
            && ParseLevel(1, Print(e, 0)) == Parsed(Unary(Neg, Call(Var(f), [Var(x)])), [])
  {
    var e := Call(Unary(Neg, Var(f)), [Var(x)]);
    assert PrintArgs([Var(x)]) == [IdentT(x)];
    assert Print(Unary(Neg, Var(f)), PREFIX_OPERAND_PREC) == [MinusT] + [IdentT(f)];
    assert ReadAll([Var(x)]) == [Var(x)];
    assert Read(Unary(Neg, Var(f))) == Unary(Neg, Var(f));
    assert PushCall(Unary(Neg, Var(f)), [Var(x)]) == Unary(Neg, PushCall(Var(f), [Var(x)]));
    assert Read(e) == Unary(Neg, Call(Var(f), [Var(x)]));
    RoundTrip(e);
  }

  /** Printing is injective on readable expressions. */
  lemma {:induction false} PrintInjective(a: Expr, b: Expr)
    requires Printable(a) && Printable(b)
    ensures Print(a, 0) == Print(b, 0) <==> Read(a) == Read(b)
    ensures Readable(a) && Readable(b) && Print(a, 0) == Print(b, 0) ==> a == b
  {
    RoundTrip(a);
    RoundTrip(b);
    ReadPrintsSame(a);
    ReadPrintsSame(b);
    ReadFixes(a);
    ReadFixes(b);
  }
}
