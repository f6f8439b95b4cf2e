/** Where the printed text has blanks, and how every operator is spelled and binds. */
module PrintLayout {
  import opened Wrappers
  import opened Ir
  import opened PrintedText
  import E = ExprPrinter
  import Scanner

  // ---- spellings ----------------------------------------------------------------------------------

  /** The binary operators from the loosest to the tightest, with their spellings. */
  lemma {:induction false} OperatorTable(op: BinOp)
    ensures match E.Prec(op)
            case 1 => op == OrElse && OpText(op) == "||"
            case 2 => op == AndAlso && OpText(op) == "&&"
            case 3 => op == BitOr && OpText(op) == "|"
            case 4 => op == BitXor && OpText(op) == "^"
            case 5 => op == BitAnd && OpText(op) == "&"
            case 6 => (op, OpText(op)) in {(Eq, "=="), (Ne, "!=")}
            case 7 => (op, OpText(op)) in {(Lt, "<"), (Le, "<="), (Gt, ">"), (Ge, ">=")}
            case 8 => (op, OpText(op)) in {(Shl, "<<"), (Shr, ">>"), (Ushr, ">>>")}
            case 9 => (op, OpText(op)) in {(Add, "+"), (Sub, "-")}
            case _ => (op, OpText(op)) in {(Mul, "*"), (Div, "/"), (Mod, "%")}
    ensures PrefixChar(Neg) == '-' && PrefixChar(Not) == '!' && PrefixChar(BitNot) == '~'
  {
  }

  /** The text of a token. */
  function TokenText(t: E.Token): string {
    match t
    case IdentT(x) => x
    case IntT(n) => if n < 0 then "" else Decimal(n)
    case KwTrue => "true"
    case KwFalse => "false"
    case LParen => "("
    case RParen => ")"
    case CommaT => ","
    case MinusT => "-"
    case BangT => "!"
    case TildeT => "~"
    case OrOrT => "||"
    case AndAndT => "&&"
    case PipeT => "|"
    case CaretT => "^"
    case AmpersandT => "&"
    case EqEqT => "=="
    case NeT => "!="
    case LtT => "<"
    case LeT => "<="
    case GtT => ">"
    case GeT => ">="
    case LShiftT => "<<"
    case RShiftT => ">>"
    case URShiftT => ">>>"
    case PlusT => "+"
    case StarT => "*"
    case SlashT => "/"
    case PercentT => "%"
  }

  // ---- blanks ---------------------------------------------------------------------------------------

  predicate EndsOperand(t: E.Token) {
    t.IdentT? || t.IntT? || t.KwTrue? || t.KwFalse? || t.RParen?
  }

  predicate IsOperator(t: E.Token) {
    !EndsOperand(t) && !t.LParen? && !t.CommaT?
  }

  /** Blanks stand around an operator that follows an operand, behind a comma, and nowhere else. */
  function Laid(toks: E.Tokens, operand: bool): string {
    if toks == [] then ""
    else
      var t := toks[0];
      var text := if operand && IsOperator(t) then " " + TokenText(t) + " "
                  else if t.CommaT? then TokenText(t) + " " else TokenText(t);
      text + Laid(toks[1..], EndsOperand(t))
  }

  function Ends(toks: E.Tokens, operand: bool): bool {
    if toks == [] then operand else EndsOperand(toks[|toks| - 1])
  }

  lemma {:induction false} LaidAppend(a: E.Tokens, b: E.Tokens, operand: bool)
    ensures Laid(a + b, operand) == Laid(a, operand) + Laid(b, Ends(a, operand))
    decreases |a|
  {
    hide TokenText;
    if a == [] {
      assert a + b == b;
    } else {
      assert (a + b)[1..] == a[1..] + b;
      LaidAppend(a[1..], b, EndsOperand(a[0]));
      var rest := Laid(a[1..], EndsOperand(a[0]));
      assert Laid(a + b, operand)[..0] == "";
      var text := Laid([a[0]], operand);
      LaidOne(a[0], operand);
      LaidFirst(a, operand);
      LaidFirst(a + b, operand);
      assert text + (rest + Laid(b, Ends(a, operand))) == (text + rest) + Laid(b, Ends(a, operand));
    }
  }

  lemma {:induction false} LaidOne(t: E.Token, operand: bool)
    ensures Laid([t], operand) ==
            if operand && IsOperator(t) then " " + TokenText(t) + " "
            else if t.CommaT? then TokenText(t) + " " else TokenText(t)
  {
    hide TokenText;
    assert [t][1..] == [] && Laid([], EndsOperand(t)) == "";
  }

  lemma {:induction false} LaidFirst(toks: E.Tokens, operand: bool)
    requires toks != []
    ensures Laid(toks, operand) == Laid([toks[0]], operand) + Laid(toks[1..], EndsOperand(toks[0]))
  {
    hide TokenText;
    LaidOne(toks[0], operand);
  }

  /** The tokens of an expression begin where an operand may, and end one. */
  lemma {:induction false} PrintEnds(e: Expr, q: nat, operand: bool)
    requires E.Printable(e)
    ensures E.Print(e, q) != [] && Ends(E.Print(e, q), operand)
  {
    match e
    case Binary(op, lhs, rhs) => PrintEnds(rhs, E.Prec(op) + 1, operand);
    case Unary(_, operand1) => PrintEnds(operand1, E.PREFIX_OPERAND_PREC, operand);
    case _ =>
  }

  lemma {:induction false} OperatorLaid(op: BinOp)
    ensures Laid([E.OpToken(op)], true) == " " + OpText(op) + " " && !EndsOperand(E.OpToken(op))
  {
    LaidOne(E.OpToken(op), true);
  }

  lemma {:induction false} BracketsLaid(operand: bool)
    ensures Laid([E.LParen], operand) == "(" && Laid([E.RParen], operand) == ")" && Laid([E.CommaT], operand) == ", "
    ensures !EndsOperand(E.LParen) && EndsOperand(E.RParen) && !EndsOperand(E.CommaT)
  {
    LaidOne(E.LParen, operand);
    LaidOne(E.RParen, operand);
    LaidOne(E.CommaT, operand);
    assert "," + " " == ", ";
  }

  lemma {:induction false} PrefixLaid(op: UnaryOp)
    ensures Laid([E.PrefixToken(op)], false) == [PrefixChar(op)] && !EndsOperand(E.PrefixToken(op))
  {
    LaidOne(E.PrefixToken(op), false);
  }

  /** Two stretches of tokens, the first of which ends as given. */
  lemma {:induction false} LaidJoin(a: E.Tokens, b: E.Tokens, operand: bool, after: bool, x: string, y: string)
    requires Laid(a, operand) == x && Ends(a, operand) == after && Laid(b, after) == y
    ensures Laid(a + b, operand) == x + y
    ensures b != [] ==> Ends(a + b, operand) == Ends(b, after)
    ensures b == [] ==> Ends(a + b, operand) == after
  {
    hide Laid;
    LaidAppend(a, b, operand);
    if b == [] {
      assert a + b == a;
    } else {
      assert (a + b)[|a + b| - 1] == b[|b| - 1];
    }
  }

  lemma {:induction false} InfixLaid(l: E.Tokens, op: BinOp, r: E.Tokens, x: string, y: string)
    requires Laid(l, false) == x && Ends(l, false) && Laid(r, false) == y && r != [] && Ends(r, false)
    ensures Laid(l + [E.OpToken(op)] + r, false) == InfixText(x, op, y) && Ends(l + [E.OpToken(op)] + r, false)
  {
    hide Laid;
    OperatorLaid(op);
    var mid := " " + OpText(op) + " ";
    LaidJoin(l, [E.OpToken(op)], false, true, x, mid);
    LaidJoin(l + [E.OpToken(op)], r, false, false, x + mid, y);
    assert x + mid + y == x + " " + OpText(op) + " " + y;
  }

  lemma {:induction false} WrappedLaid(inner: E.Tokens, x: string)
    requires Laid(inner, false) == x && inner != [] && Ends(inner, false)
    ensures Laid([E.LParen] + inner + [E.RParen], false) == "(" + x + ")"
  {
    hide Laid;
    BracketsLaid(false);
    BracketsLaid(true);
    LaidJoin([E.LParen], inner, false, false, "(", x);
    LaidJoin([E.LParen] + inner, [E.RParen], false, true, "(" + x, ")");
  }

  lemma {:induction false} CallLaid(callee: E.Tokens, args: E.Tokens, x: string, y: string)
    requires Laid(callee, false) == x && Ends(callee, false) && Laid(args, false) == y
    ensures Laid(callee + [E.LParen] + args + [E.RParen], false) == x + "(" + y + ")"
  {
    hide Laid;
    BracketsLaid(true);
    BracketsLaid(Ends(args, false));
    LaidJoin(callee, [E.LParen], false, true, x, "(");
    LaidJoin(callee + [E.LParen], args, false, false, x + "(", y);
    LaidJoin(callee + [E.LParen] + args, [E.RParen], false, Ends(args, false), x + "(" + y, ")");
  }

  /** The text of an expression is the texts of its printed tokens with those blanks. */
  lemma {:induction false} TextLaid(e: Expr, q: nat)
    requires Spelled(e)
    ensures E.Printable(e) && Text(e, q) == Laid(E.Print(e, q), false)
    decreases e, 1
  {
    hide Scanner.KEYWORDS, Laid, OpText, InfixText;
    SpelledIsPrintable(e);
    match e
    case Binary(op, lhs, rhs) => InfixTextLaid(e, q);
    case Unary(op, operand) =>
      TextLaid(operand, E.PREFIX_OPERAND_PREC);
      PrefixLaid(op);
      LaidJoin([E.PrefixToken(op)], E.Print(operand, E.PREFIX_OPERAND_PREC), false, false, [PrefixChar(op)],
               Text(operand, E.PREFIX_OPERAND_PREC));
    case Call(callee, args) =>
      TextLaid(callee, E.PREFIX_OPERAND_PREC);
      PrintEnds(callee, E.PREFIX_OPERAND_PREC, false);
      ArgsLaid(args);
      CallLaid(E.Print(callee, E.PREFIX_OPERAND_PREC), E.PrintArgs(args), Text(callee, E.PREFIX_OPERAND_PREC),
               ArgsText(args));
    case _ => LeafLaid(e, q);
  }

  lemma {:induction false} LeafLaid(e: Expr, q: nat)
    requires (e.Int? || e.Bool? || e.Unit? || e.Var?) && Spelled(e) && E.Printable(e)
    ensures Text(e, q) == Laid(E.Print(e, q), false)
  {
    hide Scanner.KEYWORDS, Laid;
    match e
    case Int(n) => LaidOne(E.IntT(n), false);
    case Bool(b) => LaidOne(if b then E.KwTrue else E.KwFalse, false);
    case Var(x) => LaidOne(E.IdentT(x), false);
    case Unit =>
      BracketsLaid(false);
      LaidJoin([E.LParen], [E.RParen], false, false, "(", ")");
      assert [E.LParen] + [E.RParen] == [E.LParen, E.RParen] && "(" + ")" == "()";
  }

  lemma {:induction false} InfixTextLaid(e: Expr, q: nat)
    requires e.Binary? && Spelled(e) && E.Printable(e)
    ensures Text(e, q) == Laid(E.Print(e, q), false)
    decreases e, 0
  {
    hide Scanner.KEYWORDS, Laid, OpText, InfixText;
    var p := E.Prec(e.op);
    var l, r := E.Print(e.lhs, p), E.Print(e.rhs, p + 1);
    TextLaid(e.lhs, p);
    TextLaid(e.rhs, p + 1);
    PrintEnds(e.lhs, p, false);
    PrintEnds(e.rhs, p + 1, false);
    InfixLaid(l, e.op, r, Text(e.lhs, p), Text(e.rhs, p + 1));
    WrappedLaid(l + [E.OpToken(e.op)] + r, InfixText(Text(e.lhs, p), e.op, Text(e.rhs, p + 1)));
  }

  lemma {:induction false} ArgsLaid(args: seq<Expr>)
    requires forall a <- args :: Spelled(a)
    ensures (forall a <- args :: E.Printable(a)) && ArgsText(args) == Laid(E.PrintArgs(args), false)
    decreases args, 0
  {
    hide Scanner.KEYWORDS, Spelled, Text, E.Print;
    forall a | a in args ensures E.Printable(a) {
      SpelledIsPrintable(a);
    }
    if |args| == 1 {
      TextLaid(args[0], 0);
    } else if |args| > 1 {
      var first, more := E.Print(args[0], 0), E.PrintArgs(args[1..]);
      TextLaid(args[0], 0);
      PrintEnds(args[0], 0, false);
      ArgsLaid(args[1..]);
      hide Laid;
      BracketsLaid(true);
      LaidJoin(first, [E.CommaT], false, true, Text(args[0], 0), ", ");
      LaidJoin(first + [E.CommaT], more, false, false, Text(args[0], 0) + ", ", ArgsText(args[1..]));
    }
  }
}
