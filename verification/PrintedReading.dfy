/** A printed expression is read back. */
module PrintedReading {
  import opened Wrappers
  import opened Ir
  import opened PrintedText
  import opened PrintedLexing
  import opened Scanner
  import ExprPrinter

  lemma {:induction false} TokensFromKinds(tokens: seq<Token>, toks: ExprPrinter.Tokens)
    requires Kinds(tokens) == KindsOf(toks) + [Eof]
    ensures TokensOf(tokens) == Some(toks)
    decreases |toks|
  {
    if toks == [] {
      assert Kinds(tokens)[0] == Eof;
    } else {
      assert Kinds(tokens)[0] == KindOf(toks[0]);
      assert Kinds(tokens)[1..] == KindsOf(toks[1..]) + [Eof];
      TokenRoundTrip(toks[0]);
      TokensFromKinds(tokens[1..], toks[1..]);
      assert toks == [toks[0]] + toks[1..];
    }
  }

  /** Lexing and parsing the printed text of an expression gives the expression the text
      denotes: the one printed, exactly when no call has a prefix expression as its callee. */
  lemma {:induction false} TextRoundTrip(e: Expr)
    requires Spelled(e)
    ensures ReadText(Text(e, 0)) == ExprPrinter.Parsed(ExprPrinter.Read(e), [])
    ensures ReadText(Text(e, 0)) == ExprPrinter.Parsed(e, []) <==> ExprPrinter.Readable(e)
  {
    hide KEYWORDS;
    SpelledIsPrintable(e);
    var s := Text(e, 0);
    assert s[0..|s|] == s;
    TextReads(e, 0, s, 0);
    EndReads(s, ExprPrinter.Print(e, 0));
    TokensFromKinds(LexFrom(s, 0).tokens, ExprPrinter.Print(e, 0));
    hide Text, LexFrom, ExprPrinter.ParseLevel, ExprPrinter.Print;
    ExprPrinter.RoundTrip(e);
  }

  lemma {:induction false} EndReads(s: string, toks: ExprPrinter.Tokens)
    requires ReadsAs(s, 0, |s|, toks)
    ensures LexFrom(s, 0).diags == [] && Kinds(LexFrom(s, 0).tokens) == KindsOf(toks) + [Eof]
  {
    var end := LexFrom(s, |s|);
    assert end == Lexed([Token(Eof, |s|, |s|)], [], []);
    assert end.tokens[1..] == [];
    assert Kinds(end.tokens) == [Eof];
  }

  /** Texts of readable expressions are equal only for equal expressions. */
  lemma {:induction false} TextInjective(a: Expr, b: Expr)
    requires Spelled(a) && Spelled(b)
    ensures Text(a, 0) == Text(b, 0) ==> ExprPrinter.Read(a) == ExprPrinter.Read(b)
    ensures ExprPrinter.Readable(a) && ExprPrinter.Readable(b) && Text(a, 0) == Text(b, 0) ==> a == b
  {
    hide KEYWORDS;
    TextRoundTrip(a);
    TextRoundTrip(b);
  }
}
