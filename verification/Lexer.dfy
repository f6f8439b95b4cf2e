/** The lexer: one object whose methods advance an offset and append what they read. Each
    method is proved to read what the scanner functions say is there, and the run to read the
    whole text. */
module Lexer {
  import opened Wrappers
  import opened Scanner

  function TokensOf(item: Item): seq<Token> {
    if item.Lexeme? then [item.token] else []
  }

  function CommentsOf(item: Item): seq<Comment> {
    if item.Trivia? then [item.comment] else []
  }

  class Lexer {
    const source: string
    var offset: nat
    var tokens: seq<Token>
    var comments: seq<Comment>
    var diagnostics: seq<Diagnostic>

    constructor (source: string)
      ensures this.source == source && offset == 0 && tokens == [] && comments == [] && diagnostics == []
    {
      this.source := source;
      offset, tokens, comments, diagnostics := 0, [], [], [];
    }

    /** The state is the old one with one reading carried out. */
    twostate predicate Reads(scan: Scan)
      reads this
    {
      && offset == scan.end
      && tokens == old(tokens) + TokensOf(scan.item)
      && comments == old(comments) + CommentsOf(scan.item)
      && diagnostics == old(diagnostics) + scan.diags
    }

    function Next(n: nat): Option<char>
      reads this
    {
      Scanner.Peek(source, offset + n)
    }

    method Bump()
      requires offset <= |source|
      modifies this`offset
      ensures offset == if old(offset) < |source| then old(offset) + 1 else old(offset)
    {
      if offset < |source| {
        offset := offset + 1;
      }
    }

    method BumpWhile(p: char -> bool)
      requires offset <= |source|
      modifies this`offset
      ensures offset == StretchEnd(source, old(offset), p)
    {
      while offset < |source|
        invariant offset <= |source| && StretchEnd(source, offset, p) == StretchEnd(source, old(offset), p)
      {
        if p(source[offset]) {
          Bump();
        } else {
          break;
        }
      }
    }

    method Push(kind: TokenKind, start: nat, end: nat)
      modifies this`tokens
      ensures tokens == old(tokens) + [Token(kind, start, end)]
    {
      tokens := tokens + [Token(kind, start, end)];
    }

    method Error(code: string, start: nat, end: nat)
      modifies this`diagnostics
      ensures diagnostics == old(diagnostics) + [Diagnostic(code, start, end)]
    {
      diagnostics := diagnostics + [Diagnostic(code, start, end)];
    }

    // ---- comments and names --------------------------------------------------------------

    method LexComment()
      requires offset + 1 < |source| && source[offset] == '/' && source[offset + 1] == '/'
      modifies this`offset, this`comments
      ensures Reads(CommentScan(source, old(offset)))
    {
      var start := offset;
      Bump();
      Bump();
      BumpWhile(InLine);
      var end := TrimEnd(source, start, offset);
      TrimKeepsSlashes(start, offset);
      comments := comments + [Comment(source[start..end], start, end)];
    }

    /** Trimming from the start of the comment or from after it are the same. */
    lemma {:induction false} TrimKeepsSlashes(start: nat, end: nat)
      requires start + 2 <= end <= |source|
      requires source[start + 1] == '/'
      ensures TrimEnd(source, start, end) >= start + 2
    {
      assert !IsWhite('/');
    }

    method LexNameRest(start: nat)
      requires start < offset <= |source|
      requires StretchEnd(source, start + 1, IsIdentChar) == StretchEnd(source, offset, IsIdentChar)
      modifies this`offset, this`tokens
      ensures offset == StretchEnd(source, start + 1, IsIdentChar)
      ensures tokens == old(tokens) + [Token(NameKind(source[start..offset]), start, offset)]
    {
      hide KEYWORDS;
      BumpWhile(IsIdentChar);
      var text := source[start..offset];
      var kind := if text in KEYWORDS then Keyword(text) else Ident(text);
      Push(kind, start, offset);
    }

    method LexName()
      requires offset < |source|
      modifies this`offset, this`tokens
      ensures Reads(NameScan(source, old(offset)))
    {
      var start := offset;
      Bump();
      LexNameRest(start);
    }

    /** An underscore starts a name only when a letter or digit follows. */
    method LexUnderscore()
      requires offset < |source| && source[offset] == '_'
      modifies this`offset, this`tokens
      ensures Reads(if old(offset) + 1 < |source| && IsAlnum(source[old(offset) + 1]) then NameScan(source, old(offset))
                    else SymbolScan(source, old(offset)))
    {
      var start := offset;
      Bump();
      if offset < |source| && IsAlnum(source[offset]) {
        LexNameRest(start);
      } else {
        Push(Symbol("_"), start, start + 1);
        assert source[start..start + 1] == "_";
      }
    }

    // ---- numbers ---------------------------------------------------------------------------

    method LexSuffix(allowed: set<string>, code: string) returns (suffix: Option<string>)
      requires offset <= |source|
      modifies this`offset, this`diagnostics
      ensures offset == SuffixEnd(source, old(offset))
      ensures diagnostics == old(diagnostics) + SuffixDiags(source, old(offset), allowed, code)
      ensures suffix == if offset == old(offset) then None else SuffixOf(source[old(offset)..offset], allowed)
    {
      if offset >= |source| || !IsIdentStart(source[offset]) {
        return None;
      }
      var start := offset;
      Bump();
      BumpWhile(IsIdentChar);
      suffix := SuffixOf(source[start..offset], allowed);
      if suffix.None? {
        Error(code, start, offset);
      }
    }

    /** The suffix and the range check of an integer literal whose digits end here. */
    method FinishInt(start: nat, n: nat)
      requires start <= offset <= |source|
      modifies this`offset, this`tokens, this`diagnostics
      ensures Reads(IntScan(source, start, old(offset), n))
    {
      NoEmptySuffix();
      var rawEnd := offset;
      var suffix := LexSuffix(INT_SUFFIXES, "E0009");
      hide INT_SUFFIXES;
      assert offset == rawEnd ==> source[rawEnd..offset] == "";
      if n > MAX_U128 {
        Error("E0004", start, rawEnd);
        return;
      }
      if n > MAX_I64 && suffix != Some("i128") && suffix != Some("u128") {
        Error("E0004", start, rawEnd);
        return;
      }
      var end := if suffix.Some? then offset else rawEnd;
      Push(Int(AsI64(n), source[start..rawEnd], suffix), start, end);
    }

    lemma {:induction false} NoEmptySuffix()
      ensures "" !in INT_SUFFIXES && "" !in FLOAT_SUFFIXES
    {
    }

    method FinishFloat(start: nat)
      requires start <= offset <= |source|
      modifies this`offset, this`tokens, this`diagnostics
      ensures Reads(FloatScan(source, start, old(offset)))
    {
      NoEmptySuffix();
      var rawEnd := offset;
      var suffix := LexSuffix(FLOAT_SUFFIXES, "E0010");
      hide FLOAT_SUFFIXES;
      assert offset == rawEnd ==> source[rawEnd..offset] == "";
      var end := if suffix.Some? then offset else rawEnd;
      Push(Float(source[start..rawEnd], suffix), start, end);
    }

    method LexHex()
      requires HexPrefix(source, offset)
      modifies this`offset, this`tokens, this`diagnostics
      ensures Reads(HexScan(source, old(offset)))
    {
      var start := offset;
      Bump();
      Bump();
      BumpWhile(IsHex);
      if offset == start + 2 {
        Error("E0004", start, offset);
        return;
      }
      FinishInt(start, NumberValue(source[start + 2..offset], 16));
    }

    method LexFraction() returns (found: bool)
      requires offset <= |source|
      modifies this`offset
      ensures offset == FractionEnd(source, old(offset)) && (found <==> offset > old(offset))
    {
      found := false;
      if Next(0) == Some('.') && offset + 1 < |source| && IsDigit(source[offset + 1]) {
        found := true;
        Bump();
        BumpWhile(IsDigit);
      }
    }

    method LexExponent() returns (found: bool)
      requires offset <= |source|
      modifies this`offset
      ensures offset == ExponentEnd(source, old(offset)) && (found <==> offset > old(offset))
    {
      found := false;
      if Next(0) == Some('e') || Next(0) == Some('E') {
        var signed := Next(1) == Some('+') || Next(1) == Some('-');
        var digit := if signed then Next(2) else Next(1);
        if digit.Some? && IsDigit(digit.value) {
          found := true;
          Bump();
          if Next(0) == Some('+') || Next(0) == Some('-') {
            Bump();
          }
          BumpWhile(IsDigit);
        }
      }
    }

    method LexNumber()
      requires offset < |source| && IsDigit(source[offset])
      modifies this`offset, this`tokens, this`diagnostics
      ensures Reads(NumberScan(source, old(offset)))
    {
      hide IntScan, FloatScan;
      var start := offset;
      if HexPrefix(source, offset) {
        LexHex();
        return;
      }
      BumpWhile(IsDigit);
      var whole := offset;
      var fraction := LexFraction();
      var exponent := LexExponent();
      if fraction || exponent {
        FinishFloat(start);
      } else {
        FinishInt(start, NumberValue(source[start..whole], 10));
      }
    }

    // ---- escapes, strings, templates, characters ---------------------------------------------

    method LexUnicodeEscape() returns (value: Option<char>)
      requires 1 <= offset < |source|
      modifies this`offset, this`diagnostics
      ensures var e := UnicodeEscape(source, old(offset));
              offset == e.end && value == e.value && diagnostics == old(diagnostics) + e.diags
    {
      var start := offset - 1;
      Bump();
      if Next(0) != Some('{') {
        Error("E0005", start, offset);
        return None;
      }
      Bump();
      var digitsStart := offset;
      BumpWhile(IsHex);
      var digitsEnd := offset;
      if Next(0) != Some('}') {
        Error("E0005", start, offset);
        return None;
      }
      Bump();
      if digitsStart == digitsEnd {
        Error("E0005", start, offset);
        return None;
      }
      if digitsEnd - digitsStart > 6 {
        Error("E0005", start, offset);
        return None;
      }
      var codepoint := NumberValue(source[digitsStart..digitsEnd], 16);
      if !IsScalar(codepoint) {
        Error("E0005", start, offset);
        return None;
      }
      value := Some(ScalarAt(codepoint));
    }

    method LexEscapeSequence() returns (value: Option<char>)
      requires 1 <= offset <= |source|
      modifies this`offset, this`diagnostics
      ensures var e := EscapeAt(source, old(offset));
              offset == e.end && value == e.value && diagnostics == old(diagnostics) + e.diags
    {
      match Next(0)
      case None => value := None;
      case Some('n') => Bump(); value := Some('\n');
      case Some('r') => Bump(); value := Some('\r');
      case Some('t') => Bump(); value := Some('\t');
      case Some('0') => Bump(); value := Some('\0');
      case Some('"') => Bump(); value := Some('"');
      case Some('\'') => Bump(); value := Some('\'');
      case Some('\\') => Bump(); value := Some('\\');
      case Some('u') => value := LexUnicodeEscape();
      case Some(_) =>
        var start := offset;
        Bump();
        Error("E0005", start - 1, offset);
        value := None;
    }

    /** What the loop has read, followed by the rest of the literal. */
    function After(out: string, found: seq<Diagnostic>, rest: Body): Body {
      rest.(text := out + rest.text, diags := found + rest.diags)
    }

    lemma {:induction false} AfterEnd(out: string, found: seq<Diagnostic>, rest: Body)
      ensures After("", [], rest) == rest
      ensures rest.text == "" ==> After(out, found, rest) == rest.(text := out, diags := found + rest.diags)
    {
    }

    lemma {:induction false} AfterChar(out: string, found: seq<Diagnostic>, c: char, rest: Body)
      ensures After(out, found, rest.(text := [c] + rest.text)) == After(out + [c], found, rest)
    {
      Associates(out, [c], rest.text);
    }

    lemma {:induction false} AfterEscape(out: string, found: seq<Diagnostic>, e: Escape, rest: Body)
      ensures var read := if e.value.Some? then [e.value.value] else "";
              After(out, found, rest.(text := read + rest.text, diags := e.diags + rest.diags))
                == After(out + read, found + e.diags, rest)
    {
      Associates(out, if e.value.Some? then [e.value.value] else "", rest.text);
      Associates(found, e.diags, rest.diags);
    }

    /** Up to the closing quote, or to where the literal breaks off. */
    method LexStringBody(start: nat) returns (out: string, terminated: bool)
      requires 1 <= offset <= |source|
      modifies this`offset, this`diagnostics
      ensures var b := StringBody(source, start, old(offset));
              offset == b.end && out == b.text && terminated == b.terminated &&
                  diagnostics == old(diagnostics) + b.diags
    {
      hide EscapeAt, StringBody, After;
      ghost var whole := StringBody(source, start, offset);
      ghost var found: seq<Diagnostic> := [];
      out, terminated := "", false;
      AfterEnd(out, found, whole);
      while offset < |source|
        invariant 1 <= offset <= |source|
        invariant diagnostics == old(diagnostics) + found
        invariant whole == After(out, found, StringBody(source, start, offset))
        decreases |source| - offset
      {
        match source[offset]
        case '"' =>
          QuoteRead(source, start, offset);
          AfterEnd(out, found, StringBody(source, start, offset));
          Bump();
          return out, true;
        case '\\' =>
          EscapeRead(source, start, offset);
          ghost var e := EscapeAt(source, offset + 1);
          Bump();
          var value := LexEscapeSequence();
          AfterEscape(out, found, e, StringBody(source, start, offset));
          Associates(old(diagnostics), found, e.diags);
          out := out + if value.Some? then [value.value] else "";
          found := found + e.diags;
        case '\n' =>
          BrokenRead(source, start, offset);
          AfterEnd(out, found, StringBody(source, start, offset));
          Associates(old(diagnostics), found, [Diagnostic("E0006", start, offset)]);
          Error("E0006", start, offset);
          return out, false;
        case c =>
          PlainRead(source, start, offset);
          AfterChar(out, found, c, StringBody(source, start, offset + 1));
          Bump();
          out := out + [c];
      }
      BrokenRead(source, start, offset);
      AfterEnd(out, found, StringBody(source, start, offset));
    }

    method LexString()
      requires offset < |source| && source[offset] == '"'
      modifies this`offset, this`tokens, this`diagnostics
      ensures Reads(StringScan(source, old(offset)))
    {
      hide StringBody;
      var start := offset;
      Bump();
      var out, terminated := LexStringBody(start);
      if !terminated {
        Error("E0006", start, offset);
        return;
      }
      Push(String(out), start, offset);
    }

    method LexTemplate()
      requires offset + 1 < |source|
      modifies this`offset, this`tokens, this`diagnostics
      ensures Reads(TemplateScan(source, old(offset)))
    {
      var start := offset;
      Bump();
      Bump();
      var contentStart := offset;
      var terminated := false;
      while offset < |source|
        invariant start + 2 <= offset <= |source| && !terminated
        invariant tokens == old(tokens) && diagnostics == old(diagnostics)
        invariant TemplateEnd(source, contentStart) == TemplateEnd(source, offset)
        decreases |source| - offset
      {
        match source[offset]
        case '"' =>
          terminated := true;
          break;
        case '\\' =>
          Bump();
          if Next(0).None? {
            break;
          }
          Bump();
        case '\n' => break;
        case _ => Bump();
      }
      if !terminated {
        Error("E0006", start, offset);
        return;
      }
      var contentEnd := offset;
      Bump();
      Push(Template(source[contentStart..contentEnd]), start, offset);
    }

    method SkipToQuote()
      requires offset <= |source|
      modifies this`offset
      ensures offset == SkipChar(source, old(offset))
    {
      while offset < |source|
        invariant offset <= |source| && SkipChar(source, offset) == SkipChar(source, old(offset))
      {
        if source[offset] == '\'' {
          Bump();
          return;
        }
        if source[offset] == '\n' {
          break;
        }
        Bump();
      }
    }

    method LexChar()
      requires offset < |source| && source[offset] == '\''
      modifies this`offset, this`tokens, this`diagnostics
      ensures Reads(CharScan(source, old(offset)))
    {
      var start := offset;
      Bump();
      if Next(0) == Some('\'') {
        Bump();
        Error("E0008", start, offset);
        return;
      }
      var value: Option<char>;
      match Next(0) {
        case None =>
          Error("E0006", start, offset);
          return;
        case Some('\n') =>
          Error("E0006", start, offset);
          return;
        case Some('\\') =>
          Bump();
          value := LexEscapeSequence();
        case Some(ch) =>
          Bump();
          value := Some(ch);
      }
      if Next(0) == Some('\'') {
        Bump();
      } else {
        SkipToQuote();
        Error("E0008", start, offset);
        return;
      }
      if value.Some? {
        Push(Char(value.value), start, offset);
      }
    }

    // ---- symbols ------------------------------------------------------------------------------

    method Single(spelling: string)
      requires offset < |source|
      modifies this`offset, this`tokens
      ensures offset == old(offset) + 1 && tokens == old(tokens) + [Token(Symbol(spelling), old(offset), offset)]
    {
      var start := offset;
      Bump();
      Push(Symbol(spelling), start, offset);
    }

    /** One or two characters: `spelling2` when `second` follows. */
    method OneOrTwo(spelling1: string, second: char, spelling2: string)
      requires offset < |source|
      modifies this`offset, this`tokens
      ensures if Scanner.Peek(source, old(offset) + 1) == Some(second)
              then offset == old(offset) + 2 && tokens == old(tokens) + [Token(Symbol(spelling2), old(offset), offset)]
              else offset == old(offset) + 1 && tokens == old(tokens) + [Token(Symbol(spelling1), old(offset), offset)]
    {
      var start := offset;
      Bump();
      if Next(0) == Some(second) {
        Bump();
        Push(Symbol(spelling2), start, offset);
      } else {
        Push(Symbol(spelling1), start, offset);
      }
    }

    /** The same with two characters that may follow. */
    method OneOrTwoOf(spelling1: string, second: char, spelling2: string, other: char, spelling3: string)
      requires offset < |source| && second != other
      modifies this`offset, this`tokens
      ensures if Scanner.Peek(source, old(offset) + 1) == Some(second)
              then offset == old(offset) + 2 && tokens == old(tokens) + [Token(Symbol(spelling2), old(offset), offset)]
              else if Scanner.Peek(source, old(offset) + 1) == Some(other)
              then offset == old(offset) + 2 && tokens == old(tokens) + [Token(Symbol(spelling3), old(offset), offset)]
              else offset == old(offset) + 1 && tokens == old(tokens) + [Token(Symbol(spelling1), old(offset), offset)]
    {
      var start := offset;
      Bump();
      if Next(0) == Some(second) {
        Bump();
        Push(Symbol(spelling2), start, offset);
      } else if Next(0) == Some(other) {
        Bump();
        Push(Symbol(spelling3), start, offset);
      } else {
        Push(Symbol(spelling1), start, offset);
      }
    }

    method LexLess()
      requires offset < |source| && source[offset] == '<'
      modifies this`offset, this`tokens
      ensures Reads(SymbolScan(source, old(offset)))
    {
      var start := offset;
      Bump();
      if Next(0) == Some('<') {
        Bump();
        if Next(0) == Some('=') {
          Bump();
          Push(Symbol("<<="), start, offset);
        } else {
          Push(Symbol("<<"), start, offset);
        }
      } else if Next(0) == Some('=') {
        Bump();
        Push(Symbol("<="), start, offset);
      } else {
        Push(Symbol("<"), start, offset);
      }
      SymbolText(start, offset);
    }

    method LexGreater()
      requires offset < |source| && source[offset] == '>'
      modifies this`offset, this`tokens
      ensures Reads(SymbolScan(source, old(offset)))
    {
      var start := offset;
      Bump();
      if Next(0) == Some('>') {
        Bump();
        if Next(0) == Some('>') {
          Bump();
          if Next(0) == Some('=') {
            Bump();
            Push(Symbol(">>>="), start, offset);
          } else {
            Push(Symbol(">>>"), start, offset);
          }
        } else if Next(0) == Some('=') {
          Bump();
          Push(Symbol(">>="), start, offset);
        } else {
          Push(Symbol(">>"), start, offset);
        }
      } else if Next(0) == Some('=') {
        Bump();
        Push(Symbol(">="), start, offset);
      } else {
        Push(Symbol(">"), start, offset);
      }
      SymbolText(start, offset);
    }

    /** The characters of a short stretch, one by one. */
    lemma {:induction false} SymbolText(start: nat, end: nat)
      requires start < end <= |source|
      ensures end == start + 1 ==> source[start..end] == [source[start]]
      ensures end == start + 2 ==> source[start..end] == [source[start], source[start + 1]]
      ensures end == start + 3 ==> source[start..end] == [source[start], source[start + 1], source[start + 2]]
      ensures end == start + 4 ==>
                source[start..end] == [source[start], source[start + 1], source[start + 2], source[start + 3]]
    {
    }

    method LexSymbol()
      requires offset < |source| && source[offset] != '_'
      modifies this`offset, this`tokens, this`diagnostics
      ensures Reads(SymbolScan(source, old(offset)))
    {
      var start := offset;
      match source[offset] {
        case '(' => Single("(");
        case ')' => Single(")");
        case '{' => Single("{");
        case '}' => Single("}");
        case '[' => Single("[");
        case ']' => Single("]");
        case ',' => Single(",");
        case ';' => Single(";");
        case '.' => OneOrTwo(".", '.', "..");
        case '+' => Single("+");
        case '*' => Single("*");
        case '%' => Single("%");
        case '~' => Single("~");
        case ':' => OneOrTwo(":", ':', "::");
        case '-' => OneOrTwo("-", '>', "->");
        case '=' => OneOrTwoOf("=", '=', "==", '>', "=>");
        case '!' => OneOrTwo("!", '=', "!=");
        case '#' => Single("#");
        case '?' => Single("?");
        case '<' => LexLess(); return;
        case '>' => LexGreater(); return;
        case '&' => OneOrTwoOf("&", '&', "&&", '=', "&=");
        case '|' => OneOrTwoOf("|", '|', "||", '=', "|=");
        case '^' => OneOrTwo("^", '=', "^=");
        case '/' => Single("/");
        case _ =>
          Bump();
          Error("E0001", start, offset);
      }
      SymbolText(start, offset);
    }

    // ---- the run --------------------------------------------------------------------------------

    method Step()
      requires offset < |source|
      modifies this
      ensures Reads(ScanAt(source, old(offset)))
    {
      hide CommentScan, TemplateScan, NameScan, NumberScan, StringScan, CharScan, SymbolScan;
      var c := source[offset];
      if c == ' ' || c == '\n' || c == '\r' || c == '\t' {
        Bump();
      } else if c == '/' && Next(1) == Some('/') {
        LexComment();
      } else if (c == 'f' || c == '$') && Next(1) == Some('"') {
        LexTemplate();
      } else if IsAlpha(c) {
        LexName();
      } else if c == '_' {
        LexUnderscore();
      } else if IsDigit(c) {
        LexNumber();
      } else if c == '"' {
        LexString();
      } else if c == '\'' {
        LexChar();
      } else {
        LexSymbol();
      }
    }

    /** The run terminates on every text, with the tokens, comments and diagnostics of it. */
    method Run()
      requires offset == 0 && tokens == [] && comments == [] && diagnostics == []
      modifies this
      ensures offset == |source| && Lexed(tokens, comments, diagnostics) == LexFrom(source, 0)
    {
      while offset < |source|
        invariant offset <= |source|
        invariant Before(LexFrom(source, offset)) == LexFrom(source, 0)
        decreases |source| - offset
      {
        LexStep(source, offset, tokens, comments, diagnostics);
        hide ScanAt, LexFrom;
        Step();
      }
      Push(Eof, offset, offset);
    }

    /** Appending one reading to what has been read loses nothing of the rest. */
    static lemma {:induction false} LexStep(s: string, i: nat, ts: seq<Token>, cs: seq<Comment>, ds: seq<Diagnostic>)
      requires i < |s|
      ensures i < ScanAt(s, i).end <= |s|
      ensures var scan := ScanAt(s, i);
              var now, rest := LexFrom(s, i), LexFrom(s, scan.end);
              && ts + now.tokens == (ts + TokensOf(scan.item)) + rest.tokens
              && cs + now.comments == (cs + CommentsOf(scan.item)) + rest.comments
              && ds + now.diags == (ds + scan.diags) + rest.diags
    {
      ScanAdvances(s, i);
      hide ScanAt;
      var scan := ScanAt(s, i);
      var rest := LexFrom(s, scan.end);
      assert LexFrom(s, i) == Cons(scan.item, scan.diags, rest);
      hide LexFrom;
      Associates(ts, TokensOf(scan.item), rest.tokens);
      Associates(cs, CommentsOf(scan.item), rest.comments);
      Associates(ds, scan.diags, rest.diags);
    }

    static lemma {:induction false} Associates<T>(a: seq<T>, b: seq<T>, c: seq<T>)
      ensures a + (b + c) == (a + b) + c
    {
    }

    /** What has been read, followed by `rest`. */
    function Before(rest: Lexed): Lexed
      reads this
    {
      Lexed(tokens + rest.tokens, comments + rest.comments, diagnostics + rest.diags)
    }
  }

  method LexWithComments(source: string)
    returns (tokens: seq<Token>, comments: seq<Comment>, diagnostics: seq<Diagnostic>)
    ensures Lexed(tokens, comments, diagnostics) == LexFrom(source, 0)
  {
    var lexer := new Lexer(source);
    lexer.Run();
    return lexer.tokens, lexer.comments, lexer.diagnostics;
  }
}
