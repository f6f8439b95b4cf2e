/** What floats, characters, strings, templates and comments are read as. */
module LiteralTexts {
  import opened Wrappers
  import opened Scanner
  import opened LiteralValues

  // ---- floats ----------------------------------------------------------------------------------

  predicate AllDigits(text: string) {
    forall k | 0 <= k < |text| :: '0' <= text[k] <= '9'
  }

  predicate TextAt(s: string, i: nat, text: string) {
    i + |text| <= |s| && s[i..i + |text|] == text
  }

  /** Nothing, or a point and at least one digit. */
  predicate IsFraction(b: string) {
    b == "" || (|b| > 1 && b[0] == '.' && AllDigits(b[1..]))
  }

  /** Nothing, or `e`, perhaps a sign, and at least one digit. */
  predicate IsExponent(c: string) {
    || c == ""
    || (|c| > 1 && (c[0] == 'e' || c[0] == 'E') && AllDigits(c[1..]))
    || (|c| > 2 && (c[0] == 'e' || c[0] == 'E') && (c[1] == '+' || c[1] == '-') && AllDigits(c[2..]))
  }

  lemma {:induction false} TextChars(s: string, i: nat, text: string, k: nat)
    requires TextAt(s, i, text) && k < |text|
    ensures s[i + k] == text[k]
  {
    assert s[i..i + |text|][k] == s[i + k];
  }

  lemma {:induction false} DigitStretch(s: string, i: nat, text: string)
    requires TextAt(s, i, text) && AllDigits(text) && (i + |text| < |s| ==> !IsDigit(s[i + |text|]))
    ensures StretchEnd(s, i, IsDigit) == i + |text|
  {
    forall k | i <= k < i + |text| ensures IsDigit(s[k]) {
      TextChars(s, i, text, k - i);
    }
    StretchIs(s, i, i + |text|, IsDigit);
  }

  /** The rest of a piece of text. */
  lemma {:induction false} TextTail(s: string, i: nat, text: string, k: nat)
    requires TextAt(s, i, text) && k <= |text|
    ensures TextAt(s, i + k, text[k..])
  {
    assert s[i..i + |text|][k..] == s[i + k..i + |text|];
  }

  lemma {:induction false} FractionRead(s: string, j: nat, b: string)
    requires TextAt(s, j, b) && IsFraction(b)
    requires j + |b| < |s| ==> !IsDigit(s[j + |b|])
    requires b == "" && j + 1 < |s| ==> !(s[j] == '.' && IsDigit(s[j + 1]))
    ensures FractionEnd(s, j) == j + |b|
  {
    if b != "" {
      TextChars(s, j, b, 0);
      TextChars(s, j, b, 1);
      TextTail(s, j, b, 1);
      assert b[1..][0] == b[1];
      DigitStretch(s, j + 1, b[1..]);
    }
  }

  lemma {:induction false} ExponentRead(s: string, j: nat, c: string)
    requires TextAt(s, j, c) && IsExponent(c)
    requires j + |c| < |s| ==> !IsDigit(s[j + |c|])
    requires c == "" ==> NoMore(s, j)
    ensures ExponentEnd(s, j) == j + |c|
  {
    if c != "" {
      TextChars(s, j, c, 0);
      TextChars(s, j, c, 1);
      if |c| > 2 {
        TextChars(s, j, c, 2);
      }
      var k := if c[1] == '+' || c[1] == '-' then 2 else 1;
      assert c[k..][0] == c[k];
      TextTail(s, j, c, k);
      DigitStretch(s, j + k, c[k..]);
    }
  }

  lemma {:induction false} NoDigitInWord(s: string, j: nat, w: string)
    requires WordAt(s, j, w) && (w == "" && j < |s| ==> !IsDigit(s[j]))
    ensures j < |s| ==> !IsDigit(s[j])
  {
    if w != "" {
      assert s[j..j + |w|][0] == s[j];
    }
  }

  /** A literal with a fraction or an exponent is a float whose raw text is what stands there;
      a word behind it is a suffix, or a diagnostic. */
  lemma {:induction false} FloatLiteral(s: string, i: nat, a: string, b: string, c: string, w: string)
    requires a != "" && AllDigits(a) && IsFraction(b) && IsExponent(c) && b + c != ""
    requires TextAt(s, i, a) && TextAt(s, i + |a|, b) && TextAt(s, i + |a| + |b|, c)
    requires var j := i + |a| + |b| + |c|;
             WordAt(s, j, w) && (j < |s| ==> !IsDigit(s[j])) && (c == "" ==> NoMore(s, j))
    ensures var j := i + |a| + |b| + |c|;
            && j + |w| <= |s|
            && ScanAt(s, i) ==
                 Scan(j + |w|,
                      Lexeme(Token(Float(s[i..j], if FloatSuffix(w) then Some(w) else None), i,
                                   if FloatSuffix(w) then j + |w| else j)),
                      WordDiags(j, w, FloatSuffix(w), "E0010"))
  {
    hide ScanAt, StretchEnd, FractionEnd, ExponentEnd, FloatSuffix, FloatScan, NumberScan, NoMore, IsExponent;
    hide IsFraction, AllDigits, TextAt, WordAt, WordDiags, HexPrefix;
    var p, q := i + |a|, i + |a| + |b|;
    var j := q + |c|;
    FloatJoints(s, i, a, b, c);
    DigitStretch(s, i, a);
    FractionRead(s, p, b);
    ExponentRead(s, q, c);
    NumberStart(s, i);
    FloatScanReads(s, i, j, w);
    FloatShape(s, i, p, j);
  }

  lemma {:induction false} FloatShape(s: string, i: nat, p: nat, j: nat)
    requires i < |s| && !HexPrefix(s, i) && StretchEnd(s, i, IsDigit) == p
    requires p < j <= |s| && ExponentEnd(s, FractionEnd(s, p)) == j
    ensures NumberScan(s, i) == FloatScan(s, i, j)
  {
    hide StretchEnd, FractionEnd, ExponentEnd, FloatScan, IntScan, NumberValue, HexScan;
  }

  /** What stands behind the digits and behind the fraction. */
  lemma {:induction false} FloatJoints(s: string, i: nat, a: string, b: string, c: string)
    requires a != "" && AllDigits(a) && IsFraction(b) && IsExponent(c) && b + c != ""
    requires TextAt(s, i, a) && TextAt(s, i + |a|, b) && TextAt(s, i + |a| + |b|, c)
    requires var j := i + |a| + |b| + |c|; j < |s| ==> !IsDigit(s[j])
    ensures var p, q := i + |a|, i + |a| + |b|;
            && p < |s| && q + |c| <= |s| && IsDigit(s[i]) && !IsDigit(s[p]) && (q < |s| ==> !IsDigit(s[q]))
            && (b == "" ==> s[p] != '.') && !HexPrefix(s, i) && |b| + |c| > 0
  {
    var p, q := i + |a|, i + |a| + |b|;
    TextChars(s, i, a, 0);
    if |a| > 1 {
      TextChars(s, i, a, 1);
    }
    if b != "" {
      TextChars(s, p, b, 0);
    }
    if c != "" {
      TextChars(s, q, c, 0);
    }
  }

  lemma {:induction false} FloatScanReads(s: string, i: nat, j: nat, w: string)
    requires i <= j && WordAt(s, j, w)
    ensures FloatScan(s, i, j) ==
            Scan(j + |w|,
                 Lexeme(Token(Float(s[i..j], if FloatSuffix(w) then Some(w) else None), i,
                              if FloatSuffix(w) then j + |w| else j)),
                 WordDiags(j, w, FloatSuffix(w), "E0010"))
  {
    hide FloatSuffix, FLOAT_SUFFIXES, SuffixEnd;
    SuffixIs(s, j, w);
    SuffixesAre(w);
    SomeSuffixes();
    assert w == "" <==> SuffixEnd(s, j) == j;
    assert SuffixDiags(s, j, FLOAT_SUFFIXES, "E0010") == WordDiags(j, w, FloatSuffix(w), "E0010");
    assert SuffixOf(w, FLOAT_SUFFIXES) == if FloatSuffix(w) then Some(w) else None;
  }

  // ---- escapes -----------------------------------------------------------------------------------

  /** The letter after a backslash stands for the character. */
  predicate ShortEscape(letter: char, c: char) {
    (letter, c) in {('n', '\n'), ('r', '\r'), ('t', '\t'), ('0', '\0'), ('"', '"'), ('\'', '\''), ('\\', '\\')}
  }

  lemma {:induction false} ShortEscapeRead(s: string, i: nat, c: char)
    requires 1 <= i < |s| && ShortEscape(s[i], c)
    ensures EscapeAt(s, i) == Escape(i + 1, Some(c), [])
  {
  }

  predicate Scalar(n: nat) {
    n <= 0x10_FFFF && !(0xD800 <= n <= 0xDFFF)
  }

  /** `u{..}` stands for the character with the number of its one to six digits, if there is
      one. */
  lemma {:induction false} CodeEscapeRead(s: string, i: nat, ds: seq<nat>)
    requires 1 <= i && i + 2 + |ds| < |s| && s[i] == 'u' && s[i + 1] == '{' && s[i + 2 + |ds|] == '}'
    requires Digits(s, i + 2, ds, 16)
    ensures var n, end := Sum(ds, 16), i + 3 + |ds|;
            EscapeAt(s, i) ==
              if 1 <= |ds| <= 6 && Scalar(n) then Escape(end, Some(n as char), [])
              else Escape(end, None, [Diagnostic("E0005", i - 1, end)])
  {
    hide NumberValue, Sum, Digits;
    DigitsValue(s, i + 2, ds, 16);
    StretchIs(s, i + 2, i + 2 + |ds|, IsHex);
  }

  /** Any other letter, and a code that is not well formed, is a diagnostic. */
  lemma {:induction false} BadEscapeRead(s: string, i: nat)
    requires 1 <= i < |s|
    ensures s[i] != 'u' && s[i] !in {'n', 'r', 't', '0', '"', '\'', '\\'} ==>
              EscapeAt(s, i) == Escape(i + 1, None, [Diagnostic("E0005", i - 1, i + 1)])
    ensures s[i] == 'u' && (i + 1 < |s| ==> s[i + 1] != '{') ==>
              EscapeAt(s, i) == Escape(i + 1, None, [Diagnostic("E0005", i - 1, i + 1)])
    ensures forall ds | s[i] == 'u' && Digits(s, i + 2, ds, 16) && s[i + 1] == '{' &&
              (var j := i + 2 + |ds|; j < |s| ==> s[j] != '}' && NoDigit(s[j], 16)) ::
              EscapeAt(s, i) == Escape(i + 2 + |ds|, None, [Diagnostic("E0005", i - 1, i + 2 + |ds|)])
  {
    hide NumberValue;
    forall ds | s[i] == 'u' && Digits(s, i + 2, ds, 16) && s[i + 1] == '{' &&
      (var j := i + 2 + |ds|; j < |s| ==> s[j] != '}' && NoDigit(s[j], 16))
      ensures EscapeAt(s, i) == Escape(i + 2 + |ds|, None, [Diagnostic("E0005", i - 1, i + 2 + |ds|)])
    {
      UnclosedCode(s, i, ds);
    }
  }

  lemma {:induction false} CodeDigitsEnd(s: string, i: nat, ds: seq<nat>)
    requires Digits(s, i, ds, 16) && (i + |ds| < |s| ==> NoDigit(s[i + |ds|], 16))
    ensures i + |ds| <= |s| && StretchEnd(s, i, IsHex) == i + |ds|
  {
    hide Digits, NoDigit, StretchEnd, IsHex, Sum, NumberValue;
    DigitsInside(s, i, ds, 16);
    DigitsValue(s, i, ds, 16);
    NoneAt(s, i + |ds|, 16);
    StretchIs(s, i, i + |ds|, IsHex);
  }

  lemma {:induction false} UnclosedCode(s: string, i: nat, ds: seq<nat>)
    requires 1 <= i < |s| && s[i] == 'u' && Digits(s, i + 2, ds, 16) && s[i + 1] == '{'
    requires var j := i + 2 + |ds|; j < |s| ==> s[j] != '}' && NoDigit(s[j], 16)
    ensures EscapeAt(s, i) == Escape(i + 2 + |ds|, None, [Diagnostic("E0005", i - 1, i + 2 + |ds|)])
  {
    hide Digits, NoDigit, StretchEnd, IsHex, NumberValue;
    CodeDigitsEnd(s, i + 2, ds);
  }

  // ---- strings and characters ----------------------------------------------------------------------

  /** One character of a literal, as it is written. */
  datatype Piece = Piece(text: string, value: char)

  predicate IsShort(p: Piece) {
    |p.text| == 2 && p.text[0] == '\\' && ShortEscape(p.text[1], p.value)
  }

  ghost predicate IsCode(p: Piece) {
    && |p.text| > 4 && p.text[0] == '\\' && p.text[1] == 'u' && p.text[2] == '{' && p.text[|p.text| - 1] == '}'
    && exists ds :: |ds| == |p.text| - 4 <= 6 && Digits(p.text, 3, ds, 16) && p.value as int == Sum(ds, 16)
  }

  ghost predicate IsPiece(p: Piece, quote: char) {
    (p.text == [p.value] && p.value != quote && p.value != '\\' && p.value != '\n') || IsShort(p) || IsCode(p)
  }

  lemma {:induction false} DigitsMoved(s: string, i: nat, text: string, from: nat, ds: seq<nat>)
    requires TextAt(s, i, text) && Digits(text, from, ds, 16)
    ensures Digits(s, i + from, ds, 16)
  {
    forall k | i + from <= k < i + from + |ds| ensures Stands(s[k], ds[k - i - from]) {
      TextChars(s, i, text, k - i);
      assert Stands(text[k - i], ds[k - i - from]);
    }
  }

  /** A written escape is read as its character. */
  lemma {:induction false} CodePieceRead(s: string, i: nat, p: Piece)
    requires 0 < i && TextAt(s, i, p.text) && IsCode(p)
    ensures s[i] == '\\' && EscapeAt(s, i + 1) == Escape(i + |p.text|, Some(p.value), [])
  {
    hide EscapeAt, Digits, Sum;
    var n := |p.text|;
    var ds :| |ds| == n - 4 <= 6 && Digits(p.text, 3, ds, 16) && p.value as int == Sum(ds, 16);
    TextChars(s, i, p.text, 0);
    TextChars(s, i, p.text, 1);
    TextChars(s, i, p.text, 2);
    TextChars(s, i, p.text, n - 1);
    DigitsMoved(s, i, p.text, 3, ds);
    CodeEscapeRead(s, i + 1, ds);
  }

  lemma {:induction false} EscapeRead(s: string, i: nat, p: Piece)
    requires 0 < i && TextAt(s, i, p.text) && (IsShort(p) || IsCode(p))
    ensures s[i] == '\\' && EscapeAt(s, i + 1) == Escape(i + |p.text|, Some(p.value), [])
  {
    hide EscapeAt, IsCode;
    if IsShort(p) {
      TextChars(s, i, p.text, 0);
      TextChars(s, i, p.text, 1);
      ShortEscapeRead(s, i + 1, p.value);
    } else {
      CodePieceRead(s, i, p);
    }
  }

  function Texts(ps: seq<Piece>): string {
    if ps == [] then "" else ps[0].text + Texts(ps[1..])
  }

  function Values(ps: seq<Piece>): string {
    if ps == [] then "" else [ps[0].value] + Values(ps[1..])
  }

  /** How a literal ends: at its quote, or broken off by the line or by the text. */
  function Closing(s: string, start: nat, j: nat): Body
    requires j <= |s|
  {
    if j < |s| && s[j] == '"' then Body(j + 1, "", true, [])
    else Body(j, "", false, if j < |s| then [Diagnostic("E0006", start, j)] else [])
  }

  lemma {:induction false} PiecesRead(s: string, start: nat, i: nat, ps: seq<Piece>)
    requires 1 <= i && TextAt(s, i, Texts(ps)) && forall p <- ps :: IsPiece(p, '"')
    requires var j := i + |Texts(ps)|; j < |s| ==> s[j] == '"' || s[j] == '\n'
    ensures StringBody(s, start, i) == Closing(s, start, i + |Texts(ps)|).(text := Values(ps))
    decreases |ps|
  {
    hide StringBody, EscapeAt, IsPiece, Closing;
    if ps == [] {
      ClosingRead(s, start, i);
    } else {
      var p, rest := ps[0], ps[1..];
      var text := Texts(rest);
      assert Texts(ps)[..|p.text|] == p.text && Texts(ps)[|p.text|..] == text;
      TextTail(s, i, Texts(ps), |p.text|);
      assert TextAt(s, i, p.text) by {
        assert s[i..i + |p.text|] == s[i..i + |Texts(ps)|][..|p.text|];
      }
      PiecesRead(s, start, i + |p.text|, rest);
      PieceRead(s, start, i, p);
    }
  }

  lemma {:induction false} ClosingRead(s: string, start: nat, j: nat)
    requires 1 <= j <= |s| && (j < |s| ==> s[j] == '"' || s[j] == '\n')
    ensures StringBody(s, start, j) == Closing(s, start, j).(text := "")
  {
  }

  lemma {:induction false} PieceRead(s: string, start: nat, i: nat, p: Piece)
    requires 1 <= i && TextAt(s, i, p.text) && IsPiece(p, '"')
    ensures p.text != "" && i < |s|
    ensures var rest := StringBody(s, start, i + |p.text|);
            StringBody(s, start, i) == rest.(text := [p.value] + rest.text)
  {
    hide StringBody, EscapeAt, IsShort, IsCode;
    if IsShort(p) || IsCode(p) {
      EscapeNotEmpty(p);
      EscapeRead(s, i, p);
      BackslashRead(s, start, i, p.value, i + |p.text|);
    } else {
      TextChars(s, i, p.text, 0);
      PlainRead(s, start, i);
    }
  }

  lemma {:induction false} EscapeNotEmpty(p: Piece)
    requires IsShort(p) || IsCode(p)
    ensures p.text != ""
  {
  }

  /** A string literal of any pieces is read as their characters; one that the line or the text
      breaks off is a diagnostic. */
  lemma {:induction false} StringLiteral(s: string, i: nat, ps: seq<Piece>)
    requires i < |s| && s[i] == '"' && TextAt(s, i + 1, Texts(ps)) && forall p <- ps :: IsPiece(p, '"')
    requires var j := i + 1 + |Texts(ps)|; j < |s| ==> s[j] == '"' || s[j] == '\n'
    ensures var j := i + 1 + |Texts(ps)|;
            ScanAt(s, i) ==
              if j < |s| && s[j] == '"' then Scan(j + 1, Lexeme(Token(String(Values(ps)), i, j + 1)), [])
              else Scan(j, Nothing, (if j < |s| then [Diagnostic("E0006", i, j)] else []) + [Diagnostic("E0006", i, j)])
  {
    hide StringBody, Texts, Values, IsPiece;
    PiecesRead(s, i, i + 1, ps);
    assert ScanAt(s, i) == StringScan(s, i);
  }

  /** A character literal of one piece is read as its character. */
  lemma {:induction false} CharLiteral(s: string, i: nat, p: Piece)
    requires i < |s| && s[i] == '\'' && TextAt(s, i + 1, p.text) && IsPiece(p, '\'')
    requires var j := i + 1 + |p.text|; j < |s| && s[j] == '\''
    ensures var j := i + 1 + |p.text|; ScanAt(s, i) == Scan(j + 1, Lexeme(Token(Char(p.value), i, j + 1)), [])
  {
    hide EscapeAt, IsShort, IsCode, SkipChar;
    assert ScanAt(s, i) == CharScan(s, i);
    if IsShort(p) || IsCode(p) {
      EscapeNotEmpty(p);
      EscapeRead(s, i + 1, p);
    } else {
      TextChars(s, i + 1, p.text, 0);
    }
  }

  lemma {:induction false} SkipsLine(s: string, i: nat, j: nat)
    requires i <= j <= |s| && forall k | i <= k < j :: s[k] != '\'' && s[k] != '\n'
    requires j < |s| ==> s[j] == '\'' || s[j] == '\n'
    ensures SkipChar(s, i) == if j < |s| && s[j] == '\'' then j + 1 else j
    decreases j - i
  {
    if i < j {
      SkipsLine(s, i + 1, j);
    }
  }

  /** Between apostrophes stands one piece: nothing, or more than a piece, is a diagnostic, and what
      stands up to the next apostrophe of the line is passed over. */
  lemma {:induction false} BadCharLiteral(s: string, i: nat, p: Piece, j: nat)
    requires i < |s| && s[i] == '\''
    ensures i + 1 == |s| || s[i + 1] == '\n' ==> ScanAt(s, i) == Scan(i + 1, Nothing, [Diagnostic("E0006", i, i + 1)])
    ensures i + 1 < |s| && s[i + 1] == '\'' ==> ScanAt(s, i) == Scan(i + 2, Nothing, [Diagnostic("E0008", i, i + 2)])
    ensures var k := i + 1 + |p.text|;
            TextAt(s, i + 1, p.text) && IsPiece(p, '\'') && (k < |s| ==> s[k] != '\'') && k <= j <= |s|
            && (forall n | k <= n < j :: s[n] != '\'' && s[n] != '\n') && (j < |s| ==> s[j] == '\'' || s[j] == '\n')
            ==> var end := if j < |s| && s[j] == '\'' then j + 1 else j;
                ScanAt(s, i) == Scan(end, Nothing, [Diagnostic("E0008", i, end)])
  {
    hide EscapeAt, IsShort, IsCode, SkipChar;
    assert ScanAt(s, i) == CharScan(s, i);
    var k := i + 1 + |p.text|;
    if TextAt(s, i + 1, p.text) && IsPiece(p, '\'') {
      if IsShort(p) || IsCode(p) {
        EscapeNotEmpty(p);
        EscapeRead(s, i + 1, p);
      } else {
        TextChars(s, i + 1, p.text, 0);
      }
      if k <= j <= |s| && (forall n | k <= n < j :: s[n] != '\'' && s[n] != '\n')
         && (j < |s| ==> s[j] == '\'' || s[j] == '\n') {
        SkipsLine(s, k, j);
      }
    }
  }

  // ---- templates and comments ------------------------------------------------------------------------

  /** No quote and no line break but behind a backslash. */
  predicate Unbroken(text: string) {
    || text == ""
    || (text[0] != '"' && text[0] != '\n' && text[0] != '\\' && Unbroken(text[1..]))
    || (text[0] == '\\' && |text| > 1 && Unbroken(text[2..]))
  }

  lemma {:induction false} TemplateRuns(s: string, i: nat, text: string)
    requires TextAt(s, i, text) && Unbroken(text)
    requires i + |text| < |s| ==> s[i + |text|] == '"' || s[i + |text|] == '\n'
    ensures TemplateEnd(s, i) == i + |text|
    decreases |text|
  {
    if text != "" {
      TextChars(s, i, text, 0);
      var k := if text[0] == '\\' then 2 else 1;
      TextTail(s, i, text, k);
      TemplateRuns(s, i + k, text[k..]);
    }
  }

  /** A template literal keeps its text as it is written; one that the line or the text breaks off
      is a diagnostic. */
  lemma {:induction false} TemplateLiteral(s: string, i: nat, text: string)
    requires i + 2 <= |s| && (s[i] == 'f' || s[i] == '$') && s[i + 1] == '"'
    requires TextAt(s, i + 2, text) && Unbroken(text)
    requires var j := i + 2 + |text|; j < |s| ==> s[j] == '"' || s[j] == '\n'
    ensures var j := i + 2 + |text|;
            ScanAt(s, i) ==
              if j < |s| && s[j] == '"' then Scan(j + 1, Lexeme(Token(Template(text), i, j + 1)), [])
              else Scan(j, Nothing, [Diagnostic("E0006", i, j)])
  {
    hide TemplateEnd, Unbroken, CommentScan;
    TemplateRuns(s, i + 2, text);
    assert ScanAt(s, i) == TemplateScan(s, i);
  }

  lemma {:induction false} TrimmedEnd(s: string, i: nat, j: nat)
    requires i < j <= |s| && !IsWhite(s[i])
    ensures i < TrimEnd(s, i, j) <= j && !IsWhite(s[TrimEnd(s, i, j) - 1])
    ensures forall k | TrimEnd(s, i, j) <= k < j :: IsWhite(s[k])
  {
  }

  /** A comment runs to the end of the line and is recorded up to its last character that is not
      white space. */
  lemma {:induction false} CommentLine(s: string, i: nat, j: nat)
    requires i + 2 <= j <= |s| && s[i] == '/' && s[i + 1] == '/'
    requires (forall k | i <= k < j :: s[k] != '\n') && (j < |s| ==> s[j] == '\n')
    ensures exists e | i < e <= j ::
              && ScanAt(s, i) == Scan(j, Trivia(Comment(s[i..e], i, e)), [])
              && !IsWhite(s[e - 1]) && forall k | e <= k < j :: IsWhite(s[k])
  {
    hide TrimEnd, StretchEnd, IsWhite;
    assert !IsWhite('/') by {
      SlashNotWhite();
    }
    StretchIs(s, i + 2, j, InLine);
    TrimmedEnd(s, i, j);
    assert ScanAt(s, i) == CommentScan(s, i);
    assert ScanAt(s, i) == Scan(j, Trivia(Comment(s[i..TrimEnd(s, i, j)], i, TrimEnd(s, i, j))), []);
  }

  lemma {:induction false} SlashNotWhite()
    ensures !IsWhite('/')
  {
  }

  // ---- words ---------------------------------------------------------------------------------------------

  predicate IsKeyword(w: string) {
    w in {
      "module", "import", "async", "extern", "intrinsic", "unsafe", "pub", "priv", "crate", "fn", "type", "const",
      "struct", "enum", "trait", "impl", "dyn", "let", "mut", "return", "if", "else", "match", "for", "in", "while",
      "loop", "break", "continue", "true", "false", "requires", "ensures", "where", "invariant", "effects",
      "capabilities", "null", "await"}
  }

  lemma {:induction false} KeywordsAre(w: string)
    ensures w in KEYWORDS <==> IsKeyword(w)
  {
  }

  /** A word of letters, digits and underscores that starts with a letter, or with an underscore and
      then a letter or digit, is read whole: as a keyword if it is one, else as a name. */
  lemma {:induction false} WordRead(s: string, i: nat, w: string)
    requires w != "" && WordAt(s, i, w) && (w[0] == '_' ==> |w| > 1 && IsAlnum(w[1]))
    requires |w| == 1 && i + 1 < |s| ==> s[i + 1] != '"'
    ensures var j := i + |w|;
            ScanAt(s, i) == Scan(j, Lexeme(Token(if IsKeyword(w) then Keyword(w) else Ident(w), i, j)), [])
  {
    hide KEYWORDS, IsKeyword;
    KeywordsAre(w);
    TextChars(s, i, w, 0);
    if |w| > 1 {
      TextChars(s, i, w, 1);
    }
    WordStretch(s, i, w);
    hide StretchEnd;
    assert ScanAt(s, i) == NameScan(s, i);
  }

  lemma {:induction false} WordStretch(s: string, i: nat, w: string)
    requires w != "" && WordAt(s, i, w)
    ensures StretchEnd(s, i + 1, IsIdentChar) == i + |w| && s[i..i + |w|] == w
  {
    forall k | i + 1 <= k < i + |w| ensures IsIdentChar(s[k]) {
      TextChars(s, i, w, k - i);
    }
    StretchIs(s, i + 1, i + |w|, IsIdentChar);
  }
}
