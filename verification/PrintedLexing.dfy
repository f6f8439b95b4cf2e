/** The printed text of an expression is lexed as the printed tokens: names, numbers, symbols
    and blanks one by one, then each kind of expression. */
module PrintedLexing {
  import opened Wrappers
  import opened Ir
  import opened PrintedText
  import opened Scanner
  import ExprPrinter

  // ---- reading a stretch of text -----------------------------------------------------

  function Kinds(tokens: seq<Token>): (ks: seq<TokenKind>)
    ensures |ks| == |tokens|
  {
    if tokens == [] then [] else [tokens[0].kind] + Kinds(tokens[1..])
  }

  /** The `n` characters from `i` are read as tokens of the given kinds, and nothing else. */
  predicate LexesAs(s: string, i: nat, n: nat, kinds: seq<TokenKind>) {
    && i + n <= |s|
    && var now, later := LexFrom(s, i), LexFrom(s, i + n);
       now.diags == later.diags && Kinds(now.tokens) == kinds + Kinds(later.tokens)
  }

  lemma {:induction false} LexNone(s: string, i: nat)
    requires i <= |s|
    ensures LexesAs(s, i, 0, [])
  {
  }

  lemma {:induction false} LexChain(s: string, i: nat, n: nat, m: nat, a: seq<TokenKind>, b: seq<TokenKind>)
    requires LexesAs(s, i, n, a) && LexesAs(s, i + n, m, b)
    ensures LexesAs(s, i, n + m, a + b)
  {
    hide LexFrom;
    var rest := Kinds(LexFrom(s, i + n + m).tokens);
    assert i + (n + m) == i + n + m;
    assert (a + b) + rest == a + (b + rest);
  }

  lemma {:induction false} LexToken(s: string, i: nat, n: nat, kind: TokenKind)
    requires i < |s| && i + n <= |s| && n > 0
    requires ScanAt(s, i) == Scan(i + n, Lexeme(Token(kind, i, i + n)), [])
    ensures LexesAs(s, i, n, [kind])
  {
    hide ScanAt;
    var later := LexFrom(s, i + n);
    assert LexFrom(s, i) == Cons(ScanAt(s, i).item, ScanAt(s, i).diags, later);
    hide LexFrom;
    var tokens := [Token(kind, i, i + n)] + later.tokens;
    assert tokens[1..] == later.tokens && [] + later.diags == later.diags;
  }

  lemma {:induction false} LexBlank(s: string, i: nat)
    requires i < |s| && s[i] == ' '
    ensures LexesAs(s, i, 1, [])
  {
    var later := LexFrom(s, i + 1);
    assert ScanAt(s, i) == Scan(i + 1, Nothing, []);
    assert LexFrom(s, i) == Cons(Nothing, [], later);
    assert [] + later.tokens == later.tokens && [] + later.diags == later.diags;
  }

  // ---- single tokens -----------------------------------------------------------------

  /** What may follow an operand. */
  predicate StopsAt(s: string, j: nat) {
    j <= |s| && (j < |s| ==> s[j] in {' ', ')', ',', '('})
  }

  predicate Spells(s: string, i: nat, text: string) {
    i + |text| <= |s| && s[i..i + |text|] == text
  }

  lemma {:induction false} SpellsAt(s: string, i: nat, text: string)
    requires Spells(s, i, text)
    ensures forall k | 0 <= k < |text| :: s[i + k] == text[k]
  {
    forall k | 0 <= k < |text| ensures s[i + k] == text[k] {
      assert s[i..i + |text|][k] == s[i + k];
    }
  }

  lemma {:induction false} SpellsParts(s: string, i: nat, a: string, b: string)
    requires Spells(s, i, a + b)
    ensures Spells(s, i, a) && Spells(s, i + |a|, b)
  {
    assert s[i..i + |a|] == s[i..i + |a + b|][..|a|];
    assert s[i + |a|..i + |a| + |b|] == s[i..i + |a + b|][|a|..];
  }

  lemma {:induction false} NameReads(s: string, i: nat, x: string)
    requires Spells(s, i, x) && StopsAt(s, i + |x|) && x != "" && IsIdentStart(x[0])
    requires forall k | 0 <= k < |x| :: IsIdentChar(x[k])
    requires x[0] == '_' ==> |x| > 1 && IsAlnum(x[1])
    ensures LexesAs(s, i, |x|, [NameKind(x)])
  {
    SpellsAt(s, i, x);
    forall k | i + 1 <= k < i + |x| ensures IsIdentChar(s[k]) {
      assert s[k] == x[k - i];
    }
    StretchTo(s, i + 1, i + |x|, IsIdentChar);
    assert Peek(s, i + 1) != Some('"') by {
      if |x| > 1 {
        assert s[i + 1] == x[1];
      }
    }
    assert s[i + 1..i + 1] == "";
    assert ScanAt(s, i) == NameScan(s, i) by {
      hide NameScan;
      assert s[i] == x[0];
      if x[0] == '_' {
        assert s[i + 1] == x[1];
      }
    }
    hide ScanAt, NameKind;
    LexToken(s, i, |x|, NameKind(x));
  }

  lemma {:induction false} StretchTo(s: string, i: nat, j: nat, p: char -> bool)
    requires i <= j <= |s| && (forall k | i <= k < j :: p(s[k])) && (j < |s| ==> !p(s[j]))
    ensures StretchEnd(s, i, p) == j
  {
    var e := StretchEnd(s, i, p);
    assert !(e < j) && !(j < e);
  }

  lemma {:induction false} DecimalDigits(n: nat)
    ensures Decimal(n) != "" && forall k | 0 <= k < |Decimal(n)| :: IsDigit(Decimal(n)[k])
    ensures NumberValue(Decimal(n), 10) == n
  {
    var text := Decimal(n);
    assert "0123456789" == ['0', '1', '2', '3', '4', '5', '6', '7', '8', '9'];
    if n < 10 {
      assert text[..0] == "" && NumberValue("", 10) == 0;
    } else {
      DecimalDigits(n / 10);
      assert text[..|text| - 1] == Decimal(n / 10);
    }
  }

  lemma {:induction false} IntReads(s: string, i: nat, n: nat)
    requires Spells(s, i, Decimal(n)) && StopsAt(s, i + |Decimal(n)|) && n <= MAX_I64
    ensures LexesAs(s, i, |Decimal(n)|, [TokenKind.Int(n, Decimal(n), None)])
  {
    var text := Decimal(n);
    var end := i + |text|;
    DecimalDigits(n);
    hide Decimal, NumberValue;
    SpellsAt(s, i, text);
    forall k | i <= k < end ensures IsDigit(s[k]) {
      assert s[k] == text[k - i];
    }
    StretchTo(s, i, end, IsDigit);
    assert !HexPrefix(s, i);
    assert FractionEnd(s, end) == end && ExponentEnd(s, end) == end && SuffixEnd(s, end) == end;
    hide StretchEnd, FractionEnd, ExponentEnd, SuffixEnd;
    assert s[end..end] == "";
    assert SuffixOf("", INT_SUFFIXES) == None;
    assert NumberScan(s, i) == Scan(end, Lexeme(Token(TokenKind.Int(n, text, None), i, end)), []);
    hide NumberScan;
    assert ScanAt(s, i) == NumberScan(s, i);
    hide ScanAt;
    LexToken(s, i, |text|, TokenKind.Int(n, text, None));
  }

  lemma {:induction false} SymbolScanned(s: string, i: nat)
    requires i < |s| && SymbolLength(s, i) > 0 && s[i] != '_'
    requires s[i] == '/' ==> Peek(s, i + 1) != Some('/')
    ensures ScanAt(s, i) == SymbolScan(s, i)
  {
    hide CommentScan, TemplateScan, NameScan, NumberScan, StringScan, CharScan;
    assert !IsBlank(s[i]) && !IsAlpha(s[i]) && !IsDigit(s[i]) && s[i] != '"' && s[i] != '\'';
  }

  lemma {:induction false} SymbolReads(s: string, i: nat, n: nat)
    requires i < |s| && SymbolLength(s, i) == n && n > 0 && s[i] != '_'
    requires s[i] == '/' ==> Peek(s, i + 1) != Some('/')
    ensures i + n <= |s| && LexesAs(s, i, n, [Symbol(s[i..i + n])])
  {
    SymbolScanned(s, i);
    hide ScanAt, SymbolLength, LexesAs;
    LexToken(s, i, n, Symbol(s[i..i + n]));
  }

  lemma {:induction false} BracketReads(s: string, i: nat, c: char)
    requires i < |s| && s[i] == c && c in {'(', ')', ','}
    ensures LexesAs(s, i, 1, [Symbol([c])])
  {
    assert s[i..i + 1] == [c];
    SymbolReads(s, i, 1);
  }

  lemma {:induction false} PrefixLength(s: string, i: nat, op: UnaryOp)
    requires i + 1 < |s| && s[i] == PrefixChar(op) && s[i + 1] != '=' && s[i + 1] != '>'
    ensures SymbolLength(s, i) == 1 && s[i] != '_' && s[i] != '/'
  {
  }

  lemma {:induction false} PrefixReads(s: string, i: nat, op: UnaryOp)
    requires i + 1 < |s| && s[i] == PrefixChar(op) && s[i + 1] != '=' && s[i + 1] != '>'
    ensures LexesAs(s, i, 1, [Symbol([PrefixChar(op)])])
  {
    hide SymbolLength, LexesAs;
    assert s[i..i + 1] == [PrefixChar(op)];
    PrefixLength(s, i, op);
    SymbolReads(s, i, 1);
  }

  lemma {:induction false} OperatorReads(s: string, i: nat, op: BinOp)
    requires Spells(s, i, OpText(op) + " ")
    ensures LexesAs(s, i, |OpText(op)|, [Symbol(OpText(op))])
  {
    hide SymbolLength, LexesAs, OpText;
    SpellsParts(s, i, OpText(op), " ");
    OperatorChars(s, i, op);
    OperatorLength(s, i, op);
    SymbolReads(s, i, |OpText(op)|);
  }

  lemma {:induction false} OperatorChars(s: string, i: nat, op: BinOp)
    requires Spells(s, i, OpText(op) + " ")
    ensures OpText(op) != "" && i + |OpText(op)| < |s| && s[i + |OpText(op)|] == ' ' && s[i] == OpText(op)[0]
    ensures |OpText(op)| > 1 ==> s[i + 1] == OpText(op)[1]
    ensures |OpText(op)| > 2 ==> s[i + 2] == OpText(op)[2]
    ensures Spells(s, i, OpText(op)) ==> s[i..i + |OpText(op)|] == OpText(op)
  {
    var text := OpText(op);
    assert |text| > 0;
    hide OpText;
    SpellsAt(s, i, text + " ");
    assert (text + " ")[0] == text[0] && (text + " ")[|text|] == ' ';
    assert s[i + 0] == text[0];
  }

  lemma {:induction false} OperatorLength(s: string, i: nat, op: BinOp)
    requires i + |OpText(op)| < |s| && s[i + |OpText(op)|] == ' ' && s[i] == OpText(op)[0]
    requires |OpText(op)| > 1 ==> s[i + 1] == OpText(op)[1]
    requires |OpText(op)| > 2 ==> s[i + 2] == OpText(op)[2]
    ensures SymbolLength(s, i) == |OpText(op)| && s[i] != '_'
    ensures s[i] == '/' ==> s[i + 1] == ' '
  {
  }

  // ---- whole expressions -------------------------------------------------------------

  lemma {:induction false} KindsAppend(a: ExprPrinter.Tokens, b: ExprPrinter.Tokens)
    ensures KindsOf(a + b) == KindsOf(a) + KindsOf(b)
  {
    if a == [] {
      assert a + b == b;
    } else {
      assert (a + b)[0] == a[0] && (a + b)[1..] == a[1..] + b;
      KindsAppend(a[1..], b);
    }
  }

  lemma {:induction false} KindsOne(t: ExprPrinter.Token)
    ensures KindsOf([t]) == [KindOf(t)]
  {
    assert [t][1..] == [];
  }

  /** The first character of an operand never completes a longer symbol. */
  lemma {:induction false} TextStarts(e: Expr, q: nat)
    requires Spelled(e)
    ensures Text(e, q) != "" && Text(e, q)[0] != '=' && Text(e, q)[0] != '>'
  {
    hide KEYWORDS;
    match e
    case Binary(op, lhs, _) => TextStarts(lhs, ExprPrinter.Prec(op));
    case Call(callee, _) => TextStarts(callee, ExprPrinter.PREFIX_OPERAND_PREC);
    case Int(n) => DecimalDigits(n);
    case _ =>
  }

  /** The stretch is read as the given parser tokens. */
  predicate ReadsAs(s: string, i: nat, n: nat, toks: ExprPrinter.Tokens) {
    LexesAs(s, i, n, KindsOf(toks))
  }

  lemma {:induction false} ReadChain(s: string, i: nat, n: nat, m: nat, a: ExprPrinter.Tokens, b: ExprPrinter.Tokens)
    requires ReadsAs(s, i, n, a) && ReadsAs(s, i + n, m, b)
    ensures ReadsAs(s, i, n + m, a + b)
  {
    hide LexesAs, KindsOf;
    KindsAppend(a, b);
    LexChain(s, i, n, m, KindsOf(a), KindsOf(b));
  }

  lemma {:induction false} ReadOne(s: string, i: nat, n: nat, t: ExprPrinter.Token)
    requires LexesAs(s, i, n, [KindOf(t)])
    ensures ReadsAs(s, i, n, [t])
  {
    KindsOne(t);
  }

  lemma {:induction false} ReadBracket(s: string, i: nat, t: ExprPrinter.Token)
    requires t.LParen? || t.RParen? || t.CommaT?
    requires i < |s| && s[i] == SymbolText(t)[0]
    ensures ReadsAs(s, i, 1, [t])
  {
    BracketReads(s, i, s[i]);
    assert [s[i]] == SymbolText(t);
    ReadOne(s, i, 1, t);
  }

  lemma {:induction false} ReadBlank(s: string, i: nat)
    requires i < |s| && s[i] == ' '
    ensures ReadsAs(s, i, 1, [])
  {
    LexBlank(s, i);
  }

  lemma {:induction false} OpKind(op: BinOp)
    ensures KindOf(ExprPrinter.OpToken(op)) == Symbol(OpText(op))
  {
  }

  lemma {:induction false} SpellsChar(s: string, i: nat, c: char)
    requires Spells(s, i, [c])
    ensures i < |s| && s[i] == c
    ensures c in {' ', ')', ',', '('} ==> StopsAt(s, i)
  {
    SpellsAt(s, i, [c]);
    assert s[i + 0] == [c][0];
  }

  /** The text of an expression is read as its printed tokens. */
  lemma {:induction false} TextReads(e: Expr, q: nat, s: string, i: nat)
    requires Spelled(e) && ExprPrinter.Printable(e)
    requires Spells(s, i, Text(e, q)) && StopsAt(s, i + |Text(e, q)|)
    ensures ReadsAs(s, i, |Text(e, q)|, ExprPrinter.Print(e, q))
    decreases e, 2
  {
    hide KEYWORDS, Text, Spelled, Spells, StopsAt, ReadsAs, ExprPrinter.Print;
    if e.Binary? {
      InfixReads(e, q, s, i);
    } else if e.Unary? {
      UnaryReads(e, q, s, i);
    } else if e.Call? {
      CallReads(e, q, s, i);
    } else {
      AtomReads(e, q, s, i);
    }
  }

  lemma {:induction false} AtomReads(e: Expr, q: nat, s: string, i: nat)
    requires (e.Int? || e.Bool? || e.Unit? || e.Var?) && Spelled(e) && ExprPrinter.Printable(e)
    requires Spells(s, i, Text(e, q)) && StopsAt(s, i + |Text(e, q)|)
    ensures ReadsAs(s, i, |Text(e, q)|, ExprPrinter.Print(e, q))
  {
    hide Spells, StopsAt, ReadsAs, LexesAs, IsIdentChar, IsIdentStart, KEYWORDS;
    match e
    case Int(n) =>
      IntReads(s, i, n);
      ReadOne(s, i, |Decimal(n)|, ExprPrinter.IntT(n));
    case Bool(b) =>
      BoolReads(s, i, b);
      ReadOne(s, i, |Text(e, q)|, if b then ExprPrinter.KwTrue else ExprPrinter.KwFalse);
    case Unit => UnitReads(s, i);
    case Var(x) =>
      NameReads(s, i, x);
      ReadOne(s, i, |x|, ExprPrinter.IdentT(x));
  }

  lemma {:induction false} UnitReads(s: string, i: nat)
    requires Spells(s, i, "()")
    ensures ReadsAs(s, i, 2, [ExprPrinter.LParen, ExprPrinter.RParen])
  {
    hide KEYWORDS, Spells, StopsAt, ReadsAs;
    assert "()" == ['('] + [')'];
    SpellsParts(s, i, ['('], [')']);
    SpellsChar(s, i, '(');
    SpellsChar(s, i + 1, ')');
    ReadBracket(s, i, ExprPrinter.LParen);
    ReadBracket(s, i + 1, ExprPrinter.RParen);
    ReadChain(s, i, 1, 1, [ExprPrinter.LParen], [ExprPrinter.RParen]);
    assert [ExprPrinter.LParen] + [ExprPrinter.RParen] == [ExprPrinter.LParen, ExprPrinter.RParen];
  }

  lemma {:induction false} BoolReads(s: string, i: nat, b: bool)
    requires var text := if b then "true" else "false"; Spells(s, i, text) && StopsAt(s, i + |text|)
    ensures var text := if b then "true" else "false"; LexesAs(s, i, |text|, [Keyword(text)])
  {
    var text := if b then "true" else "false";
    NameReads(s, i, text);
  }

  lemma {:induction false} UnaryShape(e: Expr, q: nat)
    requires e.Unary? && Spelled(e) && ExprPrinter.Printable(e)
    ensures Spelled(e.operand) && ExprPrinter.Printable(e.operand)
    ensures Text(e, q) == [PrefixChar(e.uop)] + Text(e.operand, ExprPrinter.PREFIX_OPERAND_PREC)
    ensures ExprPrinter.Print(e, q)
              == [ExprPrinter.PrefixToken(e.uop)] + ExprPrinter.Print(e.operand, ExprPrinter.PREFIX_OPERAND_PREC)
  {
    hide KEYWORDS;
  }

  lemma {:induction false} UnaryReads(e: Expr, q: nat, s: string, i: nat)
    requires e.Unary? && Spelled(e) && ExprPrinter.Printable(e)
    requires Spells(s, i, Text(e, q)) && StopsAt(s, i + |Text(e, q)|)
    ensures ReadsAs(s, i, |Text(e, q)|, ExprPrinter.Print(e, q))
    decreases e, 1
  {
    hide KEYWORDS, Text, ArgsText, Spelled, Spells, StopsAt, ReadsAs, LexesAs, OpText, InfixText, SymbolText;
    hide ExprPrinter.Print, ExprPrinter.PrintArgs, ExprPrinter.Printable, ExprPrinter.OpToken, ExprPrinter.PrefixToken;
    UnaryShape(e, q);
    var p := ExprPrinter.PREFIX_OPERAND_PREC;
    var inner := Text(e.operand, p);
    SpellsParts(s, i, [PrefixChar(e.uop)], inner);
    SpellsChar(s, i, PrefixChar(e.uop));
    TextStarts(e.operand, p);
    SpellsFirst(s, i + 1, inner);
    PrefixReads(s, i, e.uop);
    PrefixKind(e.uop);
    ReadOne(s, i, 1, ExprPrinter.PrefixToken(e.uop));
    TextReads(e.operand, p, s, i + 1);
    ReadChain(s, i, 1, |inner|, [ExprPrinter.PrefixToken(e.uop)], ExprPrinter.Print(e.operand, p));
  }

  lemma {:induction false} SpellsFirst(s: string, i: nat, text: string)
    requires Spells(s, i, text) && text != ""
    ensures i < |s| && s[i] == text[0]
  {
    SpellsAt(s, i, text);
    assert s[i + 0] == text[0];
  }

  lemma {:induction false} PrefixKind(op: UnaryOp)
    ensures KindOf(ExprPrinter.PrefixToken(op)) == Symbol([PrefixChar(op)])
  {
  }

  /** A bracket or comma, then a stretch read as tokens. */
  lemma {:induction false} BracketThen(s: string, i: nat, t: ExprPrinter.Token, n: nat, toks: ExprPrinter.Tokens)
    requires t.LParen? || t.RParen? || t.CommaT?
    requires i < |s| && s[i] == SymbolText(t)[0] && ReadsAs(s, i + 1, n, toks)
    ensures ReadsAs(s, i, 1 + n, [t] + toks)
  {
    hide ReadsAs;
    ReadBracket(s, i, t);
    ReadChain(s, i, 1, n, [t], toks);
  }

  lemma {:induction false} ThenBracket(s: string, i: nat, n: nat, toks: ExprPrinter.Tokens, t: ExprPrinter.Token)
    requires t.LParen? || t.RParen? || t.CommaT?
    requires i + n < |s| && s[i + n] == SymbolText(t)[0] && ReadsAs(s, i, n, toks)
    ensures ReadsAs(s, i, n + 1, toks + [t])
  {
    hide ReadsAs;
    ReadBracket(s, i + n, t);
    ReadChain(s, i, n, 1, toks, [t]);
  }

  /** An infix expression without the parentheses its place may ask for. */
  function Operands(e: Expr): string
    requires e.Binary? && Spelled(e)
  {
    var p := ExprPrinter.Prec(e.op);
    InfixText(Text(e.lhs, p), e.op, Text(e.rhs, p + 1))
  }

  function OperandTokens(e: Expr): ExprPrinter.Tokens
    requires e.Binary? && ExprPrinter.Printable(e)
  {
    var p := ExprPrinter.Prec(e.op);
    ExprPrinter.Print(e.lhs, p) + [ExprPrinter.OpToken(e.op)] + ExprPrinter.Print(e.rhs, p + 1)
  }

  lemma {:induction false} InfixShape(e: Expr, q: nat)
    requires e.Binary? && Spelled(e) && ExprPrinter.Printable(e)
    ensures Text(e, q) == Wrapped(Operands(e), ExprPrinter.Prec(e.op) < q)
    ensures ExprPrinter.Print(e, q) ==
              if ExprPrinter.Prec(e.op) < q
              then [ExprPrinter.LParen] + OperandTokens(e) + [ExprPrinter.RParen] else OperandTokens(e)
  {
    hide KEYWORDS;
  }

  lemma {:induction false} InfixReads(e: Expr, q: nat, s: string, i: nat)
    requires e.Binary? && Spelled(e) && ExprPrinter.Printable(e)
    requires Spells(s, i, Text(e, q)) && StopsAt(s, i + |Text(e, q)|)
    ensures ReadsAs(s, i, |Text(e, q)|, ExprPrinter.Print(e, q))
    decreases e, 1
  {
    hide KEYWORDS, Text, ArgsText, Spelled, Spells, StopsAt, ReadsAs, LexesAs, Operands, OperandTokens;
    hide ExprPrinter.Print, ExprPrinter.PrintArgs, ExprPrinter.Printable;
    InfixShape(e, q);
    var inner, toks := Operands(e), OperandTokens(e);
    if ExprPrinter.Prec(e.op) < q {
      SpellsParts(s, i, "(" + inner, ")");
      SpellsParts(s, i, "(", inner);
      SpellsChar(s, i, '(');
      SpellsChar(s, i + 1 + |inner|, ')');
      OperandsRead(e, s, i + 1);
      BracketThen(s, i, ExprPrinter.LParen, |inner|, toks);
      ThenBracket(s, i, 1 + |inner|, [ExprPrinter.LParen] + toks, ExprPrinter.RParen);
    } else {
      OperandsRead(e, s, i);
    }
  }

  /** Where an infix text has its parts. */
  lemma {:induction false} InfixParts(s: string, i: nat, left: string, op: BinOp, right: string)
    requires Spells(s, i, InfixText(left, op, right))
    ensures var j := i + |left|;
            && Spells(s, i, left) && StopsAt(s, j) && j < |s| && s[j] == ' '
            && Spells(s, j + 1, OpText(op) + " ")
            && j + 1 + |OpText(op)| < |s| && s[j + 1 + |OpText(op)|] == ' '
            && Spells(s, j + 2 + |OpText(op)|, right)
  {
    var text, j := OpText(op), i + |left|;
    hide OpText, Spells, StopsAt;
    assert InfixText(left, op, right) == left + (" " + ((text + " ") + right));
    SpellsParts(s, i, left, " " + ((text + " ") + right));
    SpellsParts(s, j, " ", (text + " ") + right);
    SpellsParts(s, j + 1, text + " ", right);
    SpellsParts(s, j + 1, text, " ");
    SpellsChar(s, j, ' ');
    SpellsChar(s, j + 1 + |text|, ' ');
  }

  lemma {:induction false} OperandsShape(e: Expr)
    requires e.Binary? && Spelled(e) && ExprPrinter.Printable(e)
    ensures Spelled(e.lhs) && Spelled(e.rhs) && ExprPrinter.Printable(e.lhs) && ExprPrinter.Printable(e.rhs)
    ensures var p := ExprPrinter.Prec(e.op);
            var left, right := Text(e.lhs, p), Text(e.rhs, p + 1);
            && Operands(e) == InfixText(left, e.op, right) && |Operands(e)| == |left| + 2 + |OpText(e.op)| + |right|
            && OperandTokens(e)
                 == ExprPrinter.Print(e.lhs, p) + [ExprPrinter.OpToken(e.op)] + ExprPrinter.Print(e.rhs, p + 1)
  {
    hide KEYWORDS;
    hide Text, ExprPrinter.Print, OpText;
  }

  lemma {:induction false} OperandsRead(e: Expr, s: string, i: nat)
    requires e.Binary? && Spelled(e) && ExprPrinter.Printable(e)
    requires Spells(s, i, Operands(e)) && StopsAt(s, i + |Operands(e)|)
    ensures ReadsAs(s, i, |Operands(e)|, OperandTokens(e))
    decreases e, 0
  {
    hide KEYWORDS, Text, ArgsText, Spelled, Spells, StopsAt, ReadsAs, LexesAs, OpText, InfixText, SymbolText;
    hide ExprPrinter.Print, ExprPrinter.PrintArgs, ExprPrinter.Printable, ExprPrinter.OpToken, ExprPrinter.PrefixToken;
    hide Operands, OperandTokens, ExprPrinter.Prec;
    OperandsShape(e);
    var p := ExprPrinter.Prec(e.op);
    var left, right := Text(e.lhs, p), Text(e.rhs, p + 1);
    InfixParts(s, i, left, e.op, right);
    TextReads(e.lhs, p, s, i);
    TextReads(e.rhs, p + 1, s, i + |left| + 2 + |OpText(e.op)|);
    JoinInfix(s, i, |left|, e.op, |right|, ExprPrinter.Print(e.lhs, p), ExprPrinter.Print(e.rhs, p + 1));
  }

  /** Two operands read with an operator between them. */
  lemma {:induction false} JoinInfix(s: string, i: nat, n: nat, op: BinOp, m: nat,
                                     before: ExprPrinter.Tokens, after: ExprPrinter.Tokens)
    requires ReadsAs(s, i, n, before) && i + n < |s| && s[i + n] == ' ' && Spells(s, i + n + 1, OpText(op) + " ")
    requires i + n + 1 + |OpText(op)| < |s| && s[i + n + 1 + |OpText(op)|] == ' '
    requires ReadsAs(s, i + n + 2 + |OpText(op)|, m, after)
    ensures ReadsAs(s, i, n + 2 + |OpText(op)| + m, before + [ExprPrinter.OpToken(op)] + after)
  {
    hide KEYWORDS;
    hide ReadsAs, Spells, OpText, LexesAs;
    var j, w, t := i + n, |OpText(op)|, ExprPrinter.OpToken(op);
    ReadBlank(s, j);
    OperatorReads(s, j + 1, op);
    OpKind(op);
    ReadOne(s, j + 1, w, t);
    ReadBlank(s, j + 1 + w);
    ReadChain(s, i, n, 1, before, []);
    ReadChain(s, i, n + 1, w, before + [], [t]);
    ReadChain(s, i, n + 1 + w, 1, before + [] + [t], []);
    ReadChain(s, i, n + 2 + w, m, before + [] + [t] + [], after);
    assert before + [] + [t] + [] + after == before + [t] + after;
  }

  lemma {:induction false} CallShape(e: Expr, q: nat)
    requires e.Call? && Spelled(e) && ExprPrinter.Printable(e)
    ensures Spelled(e.callee) && ExprPrinter.Printable(e.callee)
    ensures forall a <- e.args :: Spelled(a) && ExprPrinter.Printable(a)
    ensures Text(e, q) == Text(e.callee, ExprPrinter.PREFIX_OPERAND_PREC) + "(" + ArgsText(e.args) + ")"
    ensures ExprPrinter.Print(e, q) ==
              ExprPrinter.Print(e.callee, ExprPrinter.PREFIX_OPERAND_PREC) + [ExprPrinter.LParen]
              + ExprPrinter.PrintArgs(e.args) + [ExprPrinter.RParen]
  {
    hide KEYWORDS;
  }

  lemma {:induction false} CallReads(e: Expr, q: nat, s: string, i: nat)
    requires e.Call? && Spelled(e) && ExprPrinter.Printable(e)
    requires Spells(s, i, Text(e, q)) && StopsAt(s, i + |Text(e, q)|)
    ensures ReadsAs(s, i, |Text(e, q)|, ExprPrinter.Print(e, q))
    decreases e, 1
  {
    hide KEYWORDS, Text, ArgsText, Spelled, Spells, StopsAt, ReadsAs, LexesAs, OpText, InfixText, SymbolText;
    hide ExprPrinter.Print, ExprPrinter.PrintArgs, ExprPrinter.Printable, ExprPrinter.OpToken, ExprPrinter.PrefixToken;
    CallShape(e, q);
    var p := ExprPrinter.PREFIX_OPERAND_PREC;
    var head, args := Text(e.callee, p), ArgsText(e.args);
    CallParts(s, i, head, args);
    TextReads(e.callee, p, s, i);
    ArgsRead(e.args, s, i + |head| + 1);
    JoinCall(s, i, |head|, |args|, ExprPrinter.Print(e.callee, p), ExprPrinter.PrintArgs(e.args));
  }

  lemma {:induction false} CallParts(s: string, i: nat, head: string, args: string)
    requires Spells(s, i, head + "(" + args + ")")
    ensures var j := i + |head|;
            && Spells(s, i, head) && StopsAt(s, j) && j < |s| && s[j] == '('
            && Spells(s, j + 1, args) && StopsAt(s, j + 1 + |args|)
            && j + 1 + |args| < |s| && s[j + 1 + |args|] == ')'
  {
    hide Spells, StopsAt;
    SpellsParts(s, i, head + "(" + args, ")");
    SpellsParts(s, i, head + "(", args);
    SpellsParts(s, i, head, "(");
    SpellsChar(s, i + |head|, '(');
    SpellsChar(s, i + |head| + 1 + |args|, ')');
  }

  lemma {:induction false} JoinCall(s: string, i: nat, n: nat, m: nat, callee: ExprPrinter.Tokens,
                                    args: ExprPrinter.Tokens)
    requires ReadsAs(s, i, n, callee) && i + n < |s| && s[i + n] == '('
    requires ReadsAs(s, i + n + 1, m, args) && i + n + 1 + m < |s| && s[i + n + 1 + m] == ')'
    ensures ReadsAs(s, i, n + 1 + m + 1, callee + [ExprPrinter.LParen] + args + [ExprPrinter.RParen])
  {
    hide ReadsAs;
    ThenBracket(s, i, n, callee, ExprPrinter.LParen);
    ReadChain(s, i, n + 1, m, callee + [ExprPrinter.LParen], args);
    ThenBracket(s, i, n + 1 + m, callee + [ExprPrinter.LParen] + args, ExprPrinter.RParen);
  }

  lemma {:induction false} ArgsShape(args: seq<Expr>)
    requires |args| > 1 && forall a <- args :: Spelled(a) && ExprPrinter.Printable(a)
    ensures ArgsText(args) == Text(args[0], 0) + "," + " " + ArgsText(args[1..])
    ensures ExprPrinter.PrintArgs(args)
              == ExprPrinter.Print(args[0], 0) + [ExprPrinter.CommaT] + ExprPrinter.PrintArgs(args[1..])
  {
    hide KEYWORDS;
    hide Text, ExprPrinter.Print;
    assert ", " == "," + " ";
  }

  lemma {:induction false} ArgsRead(args: seq<Expr>, s: string, i: nat)
    requires forall a <- args :: Spelled(a) && ExprPrinter.Printable(a)
    requires Spells(s, i, ArgsText(args)) && StopsAt(s, i + |ArgsText(args)|)
    ensures ReadsAs(s, i, |ArgsText(args)|, ExprPrinter.PrintArgs(args))
    decreases args, 1
  {
    hide KEYWORDS, Text, Spelled, Spells, StopsAt, ReadsAs, ExprPrinter.Print, ExprPrinter.Printable;
    if args == [] {
      assert i <= |s| by {
        SpellsInside(s, i, ArgsText(args));
      }
      NothingReads(s, i);
    } else if |args| == 1 {
      TextReads(args[0], 0, s, i);
    } else {
      MoreArgsRead(args, s, i);
    }
  }

  lemma {:induction false} SpellsInside(s: string, i: nat, text: string)
    requires Spells(s, i, text)
    ensures i + |text| <= |s|
  {
  }

  lemma {:induction false} NothingReads(s: string, i: nat)
    requires i <= |s|
    ensures ReadsAs(s, i, 0, [])
  {
    LexNone(s, i);
  }

  lemma {:induction false} MoreArgsRead(args: seq<Expr>, s: string, i: nat)
    requires |args| > 1 && forall a <- args :: Spelled(a) && ExprPrinter.Printable(a)
    requires Spells(s, i, ArgsText(args)) && StopsAt(s, i + |ArgsText(args)|)
    ensures ReadsAs(s, i, |ArgsText(args)|, ExprPrinter.PrintArgs(args))
    decreases args, 0
  {
    hide KEYWORDS, Text, ArgsText, Spelled, Spells, StopsAt, ReadsAs, LexesAs, OpText, InfixText, SymbolText;
    hide ExprPrinter.Print, ExprPrinter.PrintArgs, ExprPrinter.Printable, ExprPrinter.OpToken, ExprPrinter.PrefixToken;
    ArgsShape(args);
    var head, tail := Text(args[0], 0), ArgsText(args[1..]);
    ArgParts(s, i, head, tail);
    TextReads(args[0], 0, s, i);
    ArgsRead(args[1..], s, i + |head| + 2);
    JoinArgs(s, i, |head|, |tail|, ExprPrinter.Print(args[0], 0), ExprPrinter.PrintArgs(args[1..]));
  }

  lemma {:induction false} ArgParts(s: string, i: nat, head: string, tail: string)
    requires Spells(s, i, head + "," + " " + tail)
    ensures var j := i + |head|;
            && Spells(s, i, head) && StopsAt(s, j) && j + 1 < |s| && s[j] == ',' && s[j + 1] == ' '
            && Spells(s, j + 2, tail)
  {
    hide Spells, StopsAt;
    SpellsParts(s, i, head + "," + " ", tail);
    SpellsParts(s, i, head + ",", " ");
    SpellsParts(s, i, head, ",");
    SpellsChar(s, i + |head|, ',');
    SpellsChar(s, i + |head| + 1, ' ');
  }

  lemma {:induction false} JoinArgs(s: string, i: nat, n: nat, m: nat, first: ExprPrinter.Tokens,
                                    rest: ExprPrinter.Tokens)
    requires ReadsAs(s, i, n, first) && i + n + 1 < |s| && s[i + n] == ',' && s[i + n + 1] == ' '
    requires ReadsAs(s, i + n + 2, m, rest)
    ensures ReadsAs(s, i, n + 2 + m, first + [ExprPrinter.CommaT] + rest)
  {
    hide ReadsAs;
    ThenBracket(s, i, n, first, ExprPrinter.CommaT);
    ReadBlank(s, i + n + 1);
    ReadChain(s, i, n + 1, 1, first + [ExprPrinter.CommaT], []);
    ReadChain(s, i, n + 2, m, first + [ExprPrinter.CommaT] + [], rest);
    assert first + [ExprPrinter.CommaT] + [] + rest == first + [ExprPrinter.CommaT] + rest;
  }
}
