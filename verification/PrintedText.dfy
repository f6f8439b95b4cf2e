/** The text of a printed expression, the printer that appends it, and reading the text by
    the lexer and the parser. */
module PrintedText {
  import opened Wrappers
  import opened Ir
  import ExprPrinter
  import Scanner

  // ---- spellings -------------------------------------------------------------------

  function OpText(op: BinOp): string {
    match op
    case OrElse => "||"
    case AndAlso => "&&"
    case BitOr => "|"
    case BitXor => "^"
    case BitAnd => "&"
    case Eq => "=="
    case Ne => "!="
    case Lt => "<"
    case Le => "<="
    case Gt => ">"
    case Ge => ">="
    case Shl => "<<"
    case Shr => ">>"
    case Ushr => ">>>"
    case Add => "+"
    case Sub => "-"
    case Mul => "*"
    case Div => "/"
    case Mod => "%"
  }

  function PrefixChar(op: UnaryOp): char {
    match op
    case Neg => '-'
    case Not => '!'
    case BitNot => '~'
  }

  /** What the lexer takes for a name. */
  predicate IsIdentifier(x: string) {
    && x != "" && Scanner.IsIdentStart(x[0]) && (forall k | 0 <= k < |x| :: Scanner.IsIdentChar(x[k]))
    && (x[0] == '_' ==> |x| > 1 && Scanner.IsAlnum(x[1]))
    && x !in Scanner.KEYWORDS
  }

  /** Printable, with names the lexer knows. */
  predicate Spelled(e: Expr)
    decreases e
  {
    match e
    case Var(x) => IsIdentifier(x)
    case Binary(_, lhs, rhs) => Spelled(lhs) && Spelled(rhs)
    case Unary(_, operand) => Spelled(operand)
    case Call(callee, args) => Spelled(callee) && forall a <- args :: Spelled(a)
    case Int(n) => 0 <= n
    case Bool(_) => true
    case Unit => true
    case _ => false
  }

  lemma {:induction false} SpelledIsPrintable(e: Expr)
    requires Spelled(e)
    ensures ExprPrinter.Printable(e)
    decreases e
  {
    match e
    case Call(callee, args) =>
      SpelledIsPrintable(callee);
      forall a | a in args ensures ExprPrinter.Printable(a) {
        SpelledIsPrintable(a);
      }
    case Binary(_, lhs, rhs) =>
      SpelledIsPrintable(lhs);
      SpelledIsPrintable(rhs);
    case Unary(_, operand) => SpelledIsPrintable(operand);
    case _ =>
  }

  // ---- the printed text ----------------------------------------------------------------

  function Wrapped(inner: string, needsParen: bool): string {
    if needsParen then "(" + inner + ")" else inner
  }

  /** An operand, an operator, an operand. */
  function InfixText(left: string, op: BinOp, right: string): string {
    left + " " + OpText(op) + " " + right
  }

  function Text(e: Expr, parentPrec: nat): string
    requires Spelled(e)
    decreases e, 1
  {
    match e
    case Int(n) => Decimal(n)
    case Bool(b) => if b then "true" else "false"
    case Unit => "()"
    case Var(x) => x
    case Binary(op, lhs, rhs) =>
      var p := ExprPrinter.Prec(op);
      Wrapped(InfixText(Text(lhs, p), op, Text(rhs, p + 1)), p < parentPrec)
    case Unary(op, operand) => [PrefixChar(op)] + Text(operand, ExprPrinter.PREFIX_OPERAND_PREC)
    case Call(callee, args) => Text(callee, ExprPrinter.PREFIX_OPERAND_PREC) + "(" + ArgsText(args) + ")"
  }

  function ArgsText(args: seq<Expr>): string
    requires forall a <- args :: Spelled(a)
    decreases args, 0
  {
    if args == [] then ""
    else if |args| == 1 then Text(args[0], 0)
    else Text(args[0], 0) + ", " + ArgsText(args[1..])
  }

  /** The comma owed before argument `i` of `n`. */
  function Separator(i: nat, n: nat): string {
    if 0 < i < n then ", " else ""
  }

  lemma {:induction false} ArgsTextAt(args: seq<Expr>, i: nat)
    requires i < |args| && forall a <- args :: Spelled(a)
    ensures ArgsText(args[i..]) == Text(args[i], 0) + Separator(i + 1, |args|) + ArgsText(args[i + 1..])
  {
    assert args[i..][1..] == args[i + 1..];
  }

  lemma {:induction false} TextInfix(op: BinOp, lhs: Expr, rhs: Expr, parentPrec: nat)
    requires Spelled(lhs) && Spelled(rhs)
    ensures var p := ExprPrinter.Prec(op);
            Text(Binary(op, lhs, rhs), parentPrec) ==
                Wrapped(InfixText(Text(lhs, p), op, Text(rhs, p + 1)), p < parentPrec)
  {
  }

  lemma {:induction false} AllAppended(out: string, left: string, op: string, right: string)
    ensures out + left + " " + op + " " + right == out + (left + " " + op + " " + right)
  {
  }

  /** The printer proper: it appends to its output buffer. */
  class Printer {
    var out: string

    constructor ()
      ensures out == ""
    {
      out := "";
    }

    method Push(text: string)
      modifies this
      ensures out == old(out) + text
    {
      out := out + text;
    }

    method Expr(e: Ir.Expr, parentPrec: nat)
      requires Spelled(e)
      modifies this
      ensures out == old(out) + Text(e, parentPrec)
      decreases e, 2
    {
      hide Scanner.KEYWORDS;
      match e
      case Int(n) => Push(Decimal(n));
      case Bool(b) => Push(if b then "true" else "false");
      case Unit => Push("()");
      case Var(x) => Push(x);
      case Binary(op, lhs, rhs) => Infix(op, lhs, rhs, parentPrec);
      case Unary(op, operand) =>
        Push([PrefixChar(op)]);
        Expr(operand, ExprPrinter.PREFIX_OPERAND_PREC);
      case Call(callee, args) =>
        Expr(callee, ExprPrinter.PREFIX_OPERAND_PREC);
        Push("(");
        Args(args);
        Push(")");
        assert out == old(out) + (Text(callee, ExprPrinter.PREFIX_OPERAND_PREC) + "(" + ArgsText(args) + ")");
    }

    method Infix(op: BinOp, lhs: Ir.Expr, rhs: Ir.Expr, parentPrec: nat)
      requires Spelled(lhs) && Spelled(rhs)
      modifies this
      ensures out == old(out) + Text(Binary(op, lhs, rhs), parentPrec)
      decreases Binary(op, lhs, rhs), 1
    {
      hide Scanner.KEYWORDS, Spelled, Text, InfixText, ExprPrinter.Prec;
      TextInfix(op, lhs, rhs, parentPrec);
      var prec := ExprPrinter.Prec(op);
      var needsParen := prec < parentPrec;
      ghost var inner := InfixText(Text(lhs, prec), op, Text(rhs, prec + 1));
      if needsParen {
        Push("(");
        Operands(op, lhs, rhs);
        Push(")");
        assert out == old(out) + ("(" + inner + ")");
      } else {
        Operands(op, lhs, rhs);
      }
    }

    method Operands(op: BinOp, lhs: Ir.Expr, rhs: Ir.Expr)
      requires Spelled(lhs) && Spelled(rhs)
      modifies this
      ensures var p := ExprPrinter.Prec(op);
              out == old(out) + InfixText(Text(lhs, p), op, Text(rhs, p + 1))
      decreases Binary(op, lhs, rhs), 0
    {
      hide Scanner.KEYWORDS, Spelled, Text, OpText, ExprPrinter.Prec;
      var prec := ExprPrinter.Prec(op);
      Expr(lhs, prec);
      Push(" ");
      Push(OpText(op));
      Push(" ");
      Expr(rhs, prec + 1);
      AllAppended(old(out), Text(lhs, prec), OpText(op), Text(rhs, prec + 1));
    }

    method Args(args: seq<Ir.Expr>)
      requires forall a <- args :: Spelled(a)
      modifies this
      ensures out == old(out) + ArgsText(args)
      decreases args
    {
      hide Scanner.KEYWORDS, Text, ArgsText, Spelled;
      assert args[0..] == args && args[|args|..] == [];
      ghost var done := "";
      for i := 0 to |args|
        invariant out == old(out) + done
        invariant done + Separator(i, |args|) + ArgsText(args[i..]) == ArgsText(args)
      {
        ArgsTextAt(args, i);
        if i > 0 {
          Push(", ");
        }
        Expr(args[i], 0);
        ArgsRound(done, Separator(i, |args|), Text(args[i], 0), Separator(i + 1, |args|), ArgsText(args[i + 1..]));
        done := done + Separator(i, |args|) + Text(args[i], 0);
      }
      NoArgsText();
    }
  }

  lemma {:induction false} NoArgsText()
    ensures ArgsText([]) == ""
  {
  }

  lemma {:induction false} ArgsRound(done: string, comma: string, arg: string, next: string, rest: string)
    ensures done + comma + (arg + next + rest) == (done + comma + arg) + next + rest
  {
  }

  // ---- the lexer's token for a printed token ---------------------------------------------

  function SymbolText(t: ExprPrinter.Token): string {
    match t
    case LParen => "("
    case RParen => ")"
    case CommaT => ","
    case MinusT => "-"
    case BangT => "!"
    case TildeT => "~"
    case OrOrT => "||"
    case AndAndT => "&&"
    case PipeT => "|"
    case CaretT => "^"
    case AmpersandT => "&"
    case EqEqT => "=="
    case NeT => "!="
    case LtT => "<"
    case LeT => "<="
    case GtT => ">"
    case GeT => ">="
    case LShiftT => "<<"
    case RShiftT => ">>"
    case URShiftT => ">>>"
    case PlusT => "+"
    case StarT => "*"
    case SlashT => "/"
    case PercentT => "%"
    case _ => ""
  }

  function KindOf(t: ExprPrinter.Token): Scanner.TokenKind {
    match t
    case IdentT(x) => Scanner.Ident(x)
    case IntT(n) => Scanner.Int(n, if n < 0 then "" else Decimal(n), None)
    case KwTrue => Scanner.Keyword("true")
    case KwFalse => Scanner.Keyword("false")
    case _ => Scanner.Symbol(SymbolText(t))
  }

  function KindsOf(ts: ExprPrinter.Tokens): (ks: seq<Scanner.TokenKind>)
    ensures |ks| == |ts|
  {
    if ts == [] then [] else [KindOf(ts[0])] + KindsOf(ts[1..])
  }

  function OneChar(c: char): Option<ExprPrinter.Token> {
    match c
    case '(' => Some(ExprPrinter.LParen)
    case ')' => Some(ExprPrinter.RParen)
    case ',' => Some(ExprPrinter.CommaT)
    case '-' => Some(ExprPrinter.MinusT)
    case '!' => Some(ExprPrinter.BangT)
    case '~' => Some(ExprPrinter.TildeT)
    case '|' => Some(ExprPrinter.PipeT)
    case '^' => Some(ExprPrinter.CaretT)
    case '&' => Some(ExprPrinter.AmpersandT)
    case '<' => Some(ExprPrinter.LtT)
    case '>' => Some(ExprPrinter.GtT)
    case '+' => Some(ExprPrinter.PlusT)
    case '*' => Some(ExprPrinter.StarT)
    case '/' => Some(ExprPrinter.SlashT)
    case '%' => Some(ExprPrinter.PercentT)
    case _ => None
  }

  function TwoChars(c: char, d: char): Option<ExprPrinter.Token> {
    match (c, d)
    case ('|', '|') => Some(ExprPrinter.OrOrT)
    case ('&', '&') => Some(ExprPrinter.AndAndT)
    case ('=', '=') => Some(ExprPrinter.EqEqT)
    case ('!', '=') => Some(ExprPrinter.NeT)
    case ('<', '=') => Some(ExprPrinter.LeT)
    case ('>', '=') => Some(ExprPrinter.GeT)
    case ('<', '<') => Some(ExprPrinter.LShiftT)
    case ('>', '>') => Some(ExprPrinter.RShiftT)
    case _ => None
  }

  function SymbolToken(text: string): Option<ExprPrinter.Token> {
    if |text| == 1 then OneChar(text[0])
    else if |text| == 2 then TwoChars(text[0], text[1])
    else if text == ">>>" then Some(ExprPrinter.URShiftT)
    else None
  }

  /** The parser's view of a lexed token of the fragment. */
  function TokenOf(kind: Scanner.TokenKind): Option<ExprPrinter.Token> {
    match kind
    case Ident(x) => Some(ExprPrinter.IdentT(x))
    case Int(n, _, None) => if I64_MIN <= n <= I64_MAX then Some(ExprPrinter.IntT(n)) else None
    case Keyword(word) =>
      if word == "true" then Some(ExprPrinter.KwTrue)
      else if word == "false" then Some(ExprPrinter.KwFalse)
      else None
    case Symbol(text) => SymbolToken(text)
    case _ => None
  }

  lemma {:induction false} TokenRoundTrip(t: ExprPrinter.Token)
    ensures TokenOf(KindOf(t)) == Some(t)
  {
    assert "true"[0] != "false"[0];
  }

  /** The tokens before the end of the file; `None` if one is outside the fragment. */
  function TokensOf(tokens: seq<Scanner.Token>): Option<ExprPrinter.Tokens> {
    if tokens == [] || tokens[0].kind.Eof? then Some([])
    else
      match (TokenOf(tokens[0].kind), TokensOf(tokens[1..]))
      case (Some(t), Some(rest)) => Some([t] + rest)
      case _ => None
  }

  /** Lexing and parsing a text as an expression. */
  function ReadText(s: string): ExprPrinter.Parsed {
    var lexed := Scanner.LexFrom(s, 0);
    var toks := TokensOf(lexed.tokens);
    if lexed.diags != [] || toks.None? then ExprPrinter.NoParse else ExprPrinter.ParseLevel(1, toks.value)
  }
}
