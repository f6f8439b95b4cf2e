/** What the lexer guarantees of every text and every token. */
module LexerFacts {
  import opened Wrappers
  import opened Scanner
  import opened LexerWindows

  // ---- tiling ----------------------------------------------------------------------------

  /** Bounds and order of one list of spans. */
  predicate TokensOrdered(ts: seq<Token>, low: nat, high: nat) {
    && (forall a | 0 <= a < |ts| :: low <= ts[a].start <= ts[a].end <= high)
    && (forall a, b | 0 <= a < b < |ts| :: ts[a].start < ts[a].end <= ts[b].start)
  }

  predicate CommentsOrdered(cs: seq<Comment>, low: nat, high: nat) {
    && (forall a | 0 <= a < |cs| :: low <= cs[a].start < cs[a].end <= high)
    && (forall a, b | 0 <= a < b < |cs| :: cs[a].end <= cs[b].start)
  }

  predicate Apart(ts: seq<Token>, cs: seq<Comment>) {
    forall a, b | 0 <= a < |ts| && 0 <= b < |cs| :: ts[a].end <= cs[b].start || cs[b].end <= ts[a].start
  }

  predicate EndsInEof(ts: seq<Token>, at: nat) {
    ts != [] && ts[|ts| - 1] == Token(Eof, at, at) && forall a | 0 <= a < |ts| - 1 :: ts[a].kind != Eof
  }

  predicate InToken(ts: seq<Token>, p: nat) {
    exists a | 0 <= a < |ts| :: ts[a].start <= p < ts[a].end
  }

  predicate InComment(cs: seq<Comment>, p: nat) {
    exists a | 0 <= a < |cs| :: cs[a].start <= p < cs[a].end
  }

  lemma {:induction false} ItemNotEof(s: string, i: nat)
    requires i < |s|
    ensures ScanAt(s, i).item.Lexeme? ==> ScanAt(s, i).item.token.kind != Eof
  {
    hide KEYWORDS, INT_SUFFIXES, FLOAT_SUFFIXES, NumberValue;
  }

  /** Spans within bounds, in order and disjoint, the end of the file last. */
  predicate Tiled(all: Lexed, low: nat, high: nat) {
    && TokensOrdered(all.tokens, low, high) && CommentsOrdered(all.comments, low, high)
    && Apart(all.tokens, all.comments) && EndsInEof(all.tokens, high)
  }

  /** Whatever the diagnostics. */
  lemma {:induction false} SpansTile(s: string, i: nat)
    requires i <= |s|
    ensures Tiled(LexFrom(s, i), i, |s|)
    decreases |s| - i
  {
    if i < |s| {
      hide ScanAt, Tiled;
      var scan := ScanAt(s, i);
      ScanAdvances(s, i);
      ItemInBounds(s, i);
      ItemNotEof(s, i);
      SpansTile(s, scan.end);
      var rest := LexFrom(s, scan.end);
      match scan.item
      case Nothing => NothingCons(scan.diags, rest, i, scan.end, |s|);
      case Lexeme(t) => TokenCons(t, scan.diags, rest, i, scan.end, |s|);
      case Trivia(c) => CommentCons(c, scan.diags, rest, i, scan.end, |s|);
    }
  }

  lemma {:induction false} NothingCons(diags: seq<Diagnostic>, rest: Lexed, low: nat, mid: nat, high: nat)
    requires low <= mid <= high && Tiled(rest, mid, high)
    ensures Tiled(Cons(Nothing, diags, rest), low, high)
  {
    var all := Cons(Nothing, diags, rest);
    assert all.tokens == rest.tokens && all.comments == rest.comments;
    hide Cons;
    LowerLow(all, low, mid, high);
  }

  lemma {:induction false} LowerLow(all: Lexed, low: nat, mid: nat, high: nat)
    requires low <= mid && Tiled(all, mid, high)
    ensures Tiled(all, low, high)
  {
  }

  lemma {:induction false} TokenCons(t: Token, diags: seq<Diagnostic>, rest: Lexed, low: nat, mid: nat, high: nat)
    requires low == t.start < t.end <= mid <= high && t.kind != Eof
    requires Tiled(rest, mid, high)
    ensures Tiled(Cons(Lexeme(t), diags, rest), low, high)
  {
    var all := Cons(Lexeme(t), diags, rest);
    assert all.tokens == [t] + rest.tokens && all.comments == rest.comments;
    hide Cons;
    LowerLow(rest, low, mid, high);
    FirstToken(t, rest.tokens, mid, high);
    TokenApart(t, rest.tokens, rest.comments, mid, high);
  }

  lemma {:induction false} FirstToken(t: Token, ts: seq<Token>, mid: nat, high: nat)
    requires t.start < t.end <= mid <= high && TokensOrdered(ts, mid, high) && EndsInEof(ts, high) && t.kind != Eof
    ensures TokensOrdered([t] + ts, t.start, high) && EndsInEof([t] + ts, high)
  {
    assert forall a | 0 < a < |[t] + ts| :: ([t] + ts)[a] == ts[a - 1];
  }

  lemma {:induction false} TokenApart(t: Token, ts: seq<Token>, cs: seq<Comment>, mid: nat, high: nat)
    requires t.end <= mid && CommentsOrdered(cs, mid, high) && Apart(ts, cs)
    ensures Apart([t] + ts, cs)
  {
    forall a, b | 0 <= a < |[t] + ts| && 0 <= b < |cs|
      ensures ([t] + ts)[a].end <= cs[b].start || cs[b].end <= ([t] + ts)[a].start
    {
      if a > 0 {
        assert ([t] + ts)[a] == ts[a - 1];
      }
    }
  }

  lemma {:induction false} CommentCons(c: Comment, diags: seq<Diagnostic>, rest: Lexed, low: nat, mid: nat, high: nat)
    requires low == c.start < c.end <= mid <= high
    requires Tiled(rest, mid, high)
    ensures Tiled(Cons(Trivia(c), diags, rest), low, high)
  {
    var all := Cons(Trivia(c), diags, rest);
    assert all.tokens == rest.tokens && all.comments == [c] + rest.comments;
    hide Cons;
    LowerLow(rest, low, mid, high);
    FirstComment(c, rest.tokens, rest.comments, mid, high);
  }

  lemma {:induction false} FirstComment(c: Comment, ts: seq<Token>, cs: seq<Comment>, mid: nat, high: nat)
    requires c.start < c.end <= mid <= high && CommentsOrdered(cs, mid, high) && TokensOrdered(ts, mid, high) &&
               Apart(ts, cs)
    ensures CommentsOrdered([c] + cs, c.start, high) && Apart(ts, [c] + cs)
  {
    hide TokensOrdered;
    assert forall a | 0 < a < |[c] + cs| :: ([c] + cs)[a] == cs[a - 1];
    forall a, b | 0 <= a < |ts| && 0 <= b < |[c] + cs|
      ensures ts[a].end <= ([c] + cs)[b].start || ([c] + cs)[b].end <= ts[a].start
    {
      if b == 0 {
        TokensFrom(ts, mid, high, a);
      } else {
        assert ([c] + cs)[b] == cs[b - 1];
      }
    }
  }

  lemma {:induction false} TokensFrom(ts: seq<Token>, low: nat, high: nat, a: nat)
    requires TokensOrdered(ts, low, high) && a < |ts|
    ensures low <= ts[a].start
  {
  }

  lemma {:induction false} CoveredLater(scan: Scan, rest: Lexed, p: nat)
    ensures var all := Cons(scan.item, scan.diags, rest);
            && (InToken(rest.tokens, p) ==> InToken(all.tokens, p))
            && (InComment(rest.comments, p) ==> InComment(all.comments, p))
  {
    var all := Cons(scan.item, scan.diags, rest);
    if InToken(rest.tokens, p) {
      var a :| 0 <= a < |rest.tokens| && rest.tokens[a].start <= p < rest.tokens[a].end;
      assert all.tokens[a + |all.tokens| - |rest.tokens|] == rest.tokens[a];
    }
    if InComment(rest.comments, p) {
      var a :| 0 <= a < |rest.comments| && rest.comments[a].start <= p < rest.comments[a].end;
      assert all.comments[a + |all.comments| - |rest.comments|] == rest.comments[a];
    }
  }

  lemma {:induction false} CoveredNow(s: string, i: nat, rest: Lexed, p: nat)
    requires i < |s| && ScanAt(s, i).diags == [] && i <= p < ScanAt(s, i).end <= |s|
    ensures var all := Cons(ScanAt(s, i).item, ScanAt(s, i).diags, rest);
            InToken(all.tokens, p) || InComment(all.comments, p) || IsWhite(s[p])
  {
    CleanScan(s, i);
    hide ScanAt;
    var scan := ScanAt(s, i);
    var all := Cons(scan.item, scan.diags, rest);
    match scan.item
    case Nothing =>
    case Lexeme(t) => assert all.tokens[0] == t;
    case Trivia(c) => assert all.comments[0] == c;
  }

  /** Without diagnostics, what lies outside the spans is white space. */
  lemma {:induction false} GapsAreWhite(s: string, i: nat, p: nat)
    requires i <= p < |s| && LexFrom(s, i).diags == []
    ensures var all := LexFrom(s, i); InToken(all.tokens, p) || InComment(all.comments, p) || IsWhite(s[p])
    decreases |s| - i
  {
    hide ScanAt, InToken, InComment, IsWhite;
    var scan := ScanAt(s, i);
    ScanAdvances(s, i);
    var rest := LexFrom(s, scan.end);
    assert LexFrom(s, i) == Cons(scan.item, scan.diags, rest);
    if p < scan.end {
      CoveredNow(s, i, rest, p);
    } else {
      GapsAreWhite(s, scan.end, p);
      CoveredLater(scan, rest, p);
    }
  }

  // ---- tokens read alone ---------------------------------------------------------------

  /** Where the `k`-th token comes from. */
  lemma {:induction false} TokenFrom(s: string, i: nat, k: nat)
    requires i < |s| && k < |LexFrom(s, i).tokens|
    ensures i < ScanAt(s, i).end <= |s|
    ensures LexFrom(s, i).diags == ScanAt(s, i).diags + LexFrom(s, ScanAt(s, i).end).diags
    ensures var scan := ScanAt(s, i);
            var rest := LexFrom(s, scan.end).tokens;
            if !scan.item.Lexeme? then k < |rest| && LexFrom(s, i).tokens[k] == rest[k]
            else if k == 0 then LexFrom(s, i).tokens[k] == scan.item.token
            else k - 1 < |rest| && LexFrom(s, i).tokens[k] == rest[k - 1]
  {
    ScanAdvances(s, i);
    hide ScanAt;
    var scan := ScanAt(s, i);
    assert LexFrom(s, i) == Cons(scan.item, scan.diags, LexFrom(s, scan.end));
  }

  /** Lexing the characters of the token yields that token and the end. */
  predicate ReadsAlone(s: string, t: Token) {
    && t.start < t.end <= |s|
    && var n := t.end - t.start; LexFrom(s[t.start..t.end], 0) == Lexed([Token(t.kind, 0, n), Token(Eof, n, n)], [], [])
  }

  lemma {:induction false} FirstTokenAlone(s: string, i: nat)
    requires i < |s| && Clean(ScanAt(s, i))
    ensures ReadsAlone(s, ScanAt(s, i).item.token)
  {
    CleanScan(s, i);
    ScanAlone(s, i);
    hide ScanAt;
    LexOne(s[i..ScanAt(s, i).end]);
  }

  /** Every token of a clean text is what its own characters lex to. */
  lemma {:induction false} TokenAlone(s: string, i: nat, k: nat)
    requires i <= |s| && LexFrom(s, i).diags == [] && k + 1 < |LexFrom(s, i).tokens|
    ensures ReadsAlone(s, LexFrom(s, i).tokens[k])
    decreases |s| - i
  {
    if i < |s| {
      var scan := ScanAt(s, i);
      TokenFrom(s, i, k);
      TokenFrom(s, i, k + 1);
      hide LexFrom, ScanAt, ReadsAlone;
      if scan.item.Lexeme? && k == 0 {
        FirstTokenAlone(s, i);
      } else {
        TokenAlone(s, scan.end, if scan.item.Lexeme? then k - 1 else k);
      }
    }
  }

  lemma {:induction false} LexOne(text: string)
    requires text != "" && Clean(ScanAt(text, 0)) && ScanAt(text, 0).end == |text|
    ensures LexFrom(text, 0) == Lexed([ScanAt(text, 0).item.token, Token(Eof, |text|, |text|)], [], [])
  {
    var scan := ScanAt(text, 0);
    assert LexFrom(text, |text|) == Lexed([Token(Eof, |text|, |text|)], [], []);
    assert LexFrom(text, 0) == Cons(scan.item, scan.diags, LexFrom(text, |text|));
  }

  // ---- names -----------------------------------------------------------------------------

  lemma {:induction false} NamesNotReserved(s: string, i: nat)
    requires i < |s| && ScanAt(s, i).item.Lexeme? && ScanAt(s, i).item.token.kind.Ident?
    ensures !Reserved(ScanAt(s, i).item.token.kind.name)
  {
    hide KEYWORDS, INT_SUFFIXES, FLOAT_SUFFIXES, NumberValue;
    var b := NameScan(s, i).end;
    assert |s[i..b]| >= 2 ==> s[i..b][1] == s[i + 1];
  }

  /** No identifier of any text starts with two underscores. */
  lemma {:induction false} IdentifiersNotReserved(s: string, i: nat, k: nat)
    requires i <= |s| && k < |LexFrom(s, i).tokens| && LexFrom(s, i).tokens[k].kind.Ident?
    ensures !Reserved(LexFrom(s, i).tokens[k].kind.name)
    decreases |s| - i
  {
    if i < |s| {
      var scan := ScanAt(s, i);
      TokenFrom(s, i, k);
      hide LexFrom, ScanAt;
      if scan.item.Lexeme? && k == 0 {
        NamesNotReserved(s, i);
      } else {
        IdentifiersNotReserved(s, scan.end, if scan.item.Lexeme? then k - 1 else k);
      }
    }
  }

  // ---- symbols ---------------------------------------------------------------------------

  const PAIRS := {
    ('.', '.'), ('-', '>'), ('=', '>'), (':', ':'), ('=', '='), ('&', '='), ('|', '='), ('^', '='), ('<', '<'),
    ('>', '>'), ('!', '='), ('<', '='), ('>', '='), ('&', '&'), ('|', '|')}

  /** The spellings of the language's symbols. */
  predicate IsSymbol(text: string) {
    || (|text| == 1 && text[0] in {'(', ')', '{', '}', '[', ']', ',', ';', '+', '*', '%', '~', '#', '?', '/', '_',
                                   '.', ':', '-', '=', '!', '<', '>', '&', '|', '^'})
    || (|text| == 2 && (text[0], text[1]) in PAIRS)
    || (|text| == 3 && (text[0], text[1], text[2]) in {('<', '<', '='), ('>', '>', '='), ('>', '>', '>')})
    || (|text| == 4 && (text[0], text[1], text[2], text[3]) == ('>', '>', '>', '='))
  }

  /** What is read is a symbol, and the longest one that the text continues with. */
  lemma {:induction false} MaximalMunch(s: string, i: nat, m: nat)
    requires i < |s| && i + m <= |s|
    ensures var n := SymbolLength(s, i);
            && (n > 0 ==> IsSymbol(s[i..i + n]))
            && (n < m ==> !IsSymbol(s[i..i + m]))
  {
    var text := s[i..i + m];
    assert m >= 1 ==> text[0] == s[i];
    assert m >= 2 ==> text[1] == s[i + 1];
    assert m >= 3 ==> text[2] == s[i + 2];
    assert m >= 4 ==> text[3] == s[i + 3];
  }
}
