/** What the lexer reads at one position of a source text: the lexeme, where it ends and the
    diagnostics. Positions count characters. The lexer object is proved against these functions. */
module Scanner {
  import opened Wrappers

  datatype TokenKind =
    | Ident(name: string)
    | Keyword(word: string)
    | Int(value: int, rawText: string, suffix: Option<string>)
    | Float(rawText: string, suffix: Option<string>)
    | String(text: string)
    | Template(raw: string)
    | Char(ch: char)
    | Symbol(spelling: string)
    | Eof

  datatype Token = Token(kind: TokenKind, start: nat, end: nat)

  datatype Comment = Comment(text: string, start: nat, end: nat)

  datatype Diagnostic = Diagnostic(code: string, start: nat, end: nat)

  datatype Item = Nothing | Lexeme(token: Token) | Trivia(comment: Comment)

  datatype Scan = Scan(end: nat, item: Item, diags: seq<Diagnostic>)

  const KEYWORDS := {
    "module", "import", "async", "extern", "intrinsic", "unsafe", "pub", "priv", "crate", "fn", "type", "const",
    "struct", "enum", "trait", "impl", "dyn", "let", "mut", "return", "if", "else", "match", "for", "in", "while",
    "loop", "break", "continue", "true", "false", "requires", "ensures", "where", "invariant", "effects",
    "capabilities", "null", "await"}

  const INT_SUFFIXES := {"i8", "i16", "i32", "i64", "i128", "u8", "u16", "u32", "u64", "u128"}

  const FLOAT_SUFFIXES := {"f32", "f64"}

  const MAX_I64 := 0x7FFF_FFFF_FFFF_FFFF
  const MAX_U128 := 0xFFFF_FFFF_FFFF_FFFF_FFFF_FFFF_FFFF_FFFF

  // ---- characters ----------------------------------------------------------------------

  predicate IsDigit(c: char) { '0' <= c <= '9' }

  predicate IsAlpha(c: char) { 'a' <= c <= 'z' || 'A' <= c <= 'Z' }

  predicate IsAlnum(c: char) { IsAlpha(c) || IsDigit(c) }

  predicate IsIdentStart(c: char) { IsAlpha(c) || c == '_' }

  predicate IsIdentChar(c: char) { IsAlnum(c) || c == '_' }

  predicate IsHex(c: char) { IsDigit(c) || 'a' <= c <= 'f' || 'A' <= c <= 'F' }

  predicate InLine(c: char) { c != '\n' }

  /** Skipped between tokens. */
  predicate IsBlank(c: char) { c in {' ', '\n', '\r', '\t'} }

  function Peek(s: string, i: nat): Option<char> {
    if i < |s| then Some(s[i]) else None
  }

  /** The end of the stretch of characters from `i` that satisfy `p`. */
  function StretchEnd(s: string, i: nat, p: char -> bool): (j: nat)
    requires i <= |s|
    ensures i <= j <= |s| && (forall k | i <= k < j :: p(s[k])) && (j < |s| ==> !p(s[j]))
    decreases |s| - i
  {
    if i < |s| && p(s[i]) then StretchEnd(s, i + 1, p) else i
  }

  // ---- comments ---------------------------------------------------------------------------

  function TrimEnd(s: string, i: nat, j: nat): (k: nat)
    requires i <= j <= |s|
    ensures i <= k <= j && (forall m | k <= m < j :: IsWhite(s[m])) && (i < k ==> !IsWhite(s[k - 1]))
  {
    if i < j && IsWhite(s[j - 1]) then TrimEnd(s, i, j - 1) else j
  }

  function CommentScan(s: string, i: nat): Scan
    requires i + 2 <= |s|
  {
    var end := StretchEnd(s, i + 2, InLine);
    var trimmed := TrimEnd(s, i, end);
    Scan(end, Trivia(Comment(s[i..trimmed], i, trimmed)), [])
  }

  // ---- names -------------------------------------------------------------------------------

  function NameKind(text: string): TokenKind {
    if text in KEYWORDS then Keyword(text) else Ident(text)
  }

  function NameScan(s: string, i: nat): Scan
    requires i < |s|
  {
    var end := StretchEnd(s, i + 1, IsIdentChar);
    Scan(end, Lexeme(Token(NameKind(s[i..end]), i, end)), [])
  }

  // ---- numbers -----------------------------------------------------------------------------

  function DigitValue(c: char): nat
    requires IsHex(c)
  {
    if IsDigit(c) then c as int - '0' as int
    else if 'a' <= c then c as int - 'a' as int + 10
    else c as int - 'A' as int + 10
  }

  function PushDigit(high: nat, base: nat, digit: nat): nat {
    high * base + digit
  }

  function NumberValue(text: string, base: nat): nat
    requires forall k | 0 <= k < |text| :: IsHex(text[k])
  {
    if text == "" then 0 else PushDigit(NumberValue(text[..|text| - 1], base), base, DigitValue(text[|text| - 1]))
  }

  /** Two's complement truncation to 64 bits. */
  function AsI64(n: nat): int {
    var low := n % 0x1_0000_0000_0000_0000;
    if low > MAX_I64 then low - 0x1_0000_0000_0000_0000 else low
  }

  function SuffixEnd(s: string, i: nat): (j: nat)
    requires i <= |s|
    ensures i <= j <= |s|
  {
    if i < |s| && IsIdentStart(s[i]) then StretchEnd(s, i + 1, IsIdentChar) else i
  }

  function SuffixOf(text: string, allowed: set<string>): Option<string> {
    if text in allowed then Some(text) else None
  }

  function SuffixDiags(s: string, i: nat, allowed: set<string>, code: string): seq<Diagnostic>
    requires i <= |s|
  {
    var j := SuffixEnd(s, i);
    if j == i || s[i..j] in allowed then [] else [Diagnostic(code, i, j)]
  }

  /** An integer literal whose digits end at `rawEnd` and stand for `n`. */
  function IntScan(s: string, i: nat, rawEnd: nat, n: nat): (r: Scan)
    requires i <= rawEnd <= |s|
    ensures rawEnd <= r.end <= |s|
  {
    var end := SuffixEnd(s, rawEnd);
    var suffix := SuffixOf(s[rawEnd..end], INT_SUFFIXES);
    var diags := SuffixDiags(s, rawEnd, INT_SUFFIXES, "E0009");
    if n > MAX_U128 || (n > MAX_I64 && suffix != Some("i128") && suffix != Some("u128")) then
      Scan(end, Nothing, diags + [Diagnostic("E0004", i, rawEnd)])
    else
      Scan(end, Lexeme(Token(Int(AsI64(n), s[i..rawEnd], suffix), i, if suffix.Some? then end else rawEnd)), diags)
  }

  predicate HexPrefix(s: string, i: nat) {
    i + 1 < |s| && s[i] == '0' && (s[i + 1] == 'x' || s[i + 1] == 'X')
  }

  function HexScan(s: string, i: nat): (r: Scan)
    requires HexPrefix(s, i)
    ensures i + 2 <= r.end <= |s|
  {
    var rawEnd := StretchEnd(s, i + 2, IsHex);
    if rawEnd == i + 2 then Scan(rawEnd, Nothing, [Diagnostic("E0004", i, rawEnd)])
    else IntScan(s, i, rawEnd, NumberValue(s[i + 2..rawEnd], 16))
  }

  /** Past a decimal point and its digits, when there are any. */
  function FractionEnd(s: string, d: nat): (j: nat)
    requires d <= |s|
    ensures d <= j <= |s|
  {
    if d + 1 < |s| && s[d] == '.' && IsDigit(s[d + 1]) then StretchEnd(s, d + 1, IsDigit) else d
  }

  /** Where the digits of an exponent would start. */
  function ExponentDigits(s: string, d: nat): nat {
    if Peek(s, d + 1) == Some('+') || Peek(s, d + 1) == Some('-') then d + 2 else d + 1
  }

  function ExponentEnd(s: string, d: nat): (j: nat)
    requires d <= |s|
    ensures d <= j <= |s|
  {
    var k := ExponentDigits(s, d);
    if d < |s| && (s[d] == 'e' || s[d] == 'E') && k < |s| && IsDigit(s[k]) then StretchEnd(s, k, IsDigit) else d
  }

  function FloatScan(s: string, i: nat, rawEnd: nat): (r: Scan)
    requires i <= rawEnd <= |s|
    ensures rawEnd <= r.end <= |s|
  {
    var end := SuffixEnd(s, rawEnd);
    var suffix := SuffixOf(s[rawEnd..end], FLOAT_SUFFIXES);
    Scan(end, Lexeme(Token(Float(s[i..rawEnd], suffix), i, if suffix.Some? then end else rawEnd)),
         SuffixDiags(s, rawEnd, FLOAT_SUFFIXES, "E0010"))
  }

  function NumberScan(s: string, i: nat): (r: Scan)
    requires i < |s|
    ensures i <= r.end <= |s|
  {
    if HexPrefix(s, i) then HexScan(s, i)
    else
      var whole := StretchEnd(s, i, IsDigit);
      var rawEnd := ExponentEnd(s, FractionEnd(s, whole));
      if rawEnd > whole then FloatScan(s, i, rawEnd) else IntScan(s, i, whole, NumberValue(s[i..whole], 10))
  }

  // ---- escapes, strings, templates, characters -----------------------------------------------

  datatype Escape = Escape(end: nat, value: Option<char>, diags: seq<Diagnostic>)

  predicate IsScalar(n: nat) { n < 0xD800 || 0xE000 <= n < 0x11_0000 }

  function ScalarAt(n: nat): char
    requires IsScalar(n)
  {
    n as char
  }

  /** At the `u` of an escape. */
  function UnicodeEscape(s: string, i: nat): Escape
    requires 1 <= i < |s|
  {
    if Peek(s, i + 1) != Some('{') then Escape(i + 1, None, [Diagnostic("E0005", i - 1, i + 1)])
    else
      var close := StretchEnd(s, i + 2, IsHex);
      if Peek(s, close) != Some('}') then Escape(close, None, [Diagnostic("E0005", i - 1, close)])
      else if close == i + 2 || close - (i + 2) > 6 || !IsScalar(NumberValue(s[i + 2..close], 16)) then
        Escape(close + 1, None, [Diagnostic("E0005", i - 1, close + 1)])
      else Escape(close + 1, Some(ScalarAt(NumberValue(s[i + 2..close], 16))), [])
  }

  function PlainEscape(c: char): Option<char> {
    match c
    case 'n' => Some('\n')
    case 'r' => Some('\r')
    case 't' => Some('\t')
    case '0' => Some('\0')
    case '"' => Some('"')
    case '\'' => Some('\'')
    case '\\' => Some('\\')
    case _ => None
  }

  /** After the backslash. */
  function EscapeAt(s: string, i: nat): (e: Escape)
    requires 1 <= i <= |s|
    ensures i <= e.end <= |s| && (i < |s| ==> i < e.end)
    ensures e.diags == [] && i < |s| ==> e.value.Some?
  {
    if i == |s| then Escape(i, None, [])
    else if PlainEscape(s[i]).Some? then Escape(i + 1, PlainEscape(s[i]), [])
    else if s[i] == 'u' then UnicodeEscape(s, i)
    else Escape(i + 1, None, [Diagnostic("E0005", i - 1, i + 1)])
  }

  datatype Body = Body(end: nat, text: string, terminated: bool, diags: seq<Diagnostic>)

  /** The inside of a string literal from `i` on. */
  function StringBody(s: string, start: nat, i: nat): (b: Body)
    requires 1 <= i <= |s|
    ensures i <= b.end <= |s|
    decreases |s| - i
  {
    if i == |s| then Body(i, "", false, [])
    else if s[i] == '"' then Body(i + 1, "", true, [])
    else if s[i] == '\\' then
      var e := EscapeAt(s, i + 1);
      var rest := StringBody(s, start, e.end);
      rest.(text := (if e.value.Some? then [e.value.value] else "") + rest.text, diags := e.diags + rest.diags)
    else if s[i] == '\n' then Body(i, "", false, [Diagnostic("E0006", start, i)])
    else
      var rest := StringBody(s, start, i + 1);
      rest.(text := [s[i]] + rest.text)
  }

  lemma {:induction false} QuoteRead(s: string, start: nat, i: nat)
    requires 1 <= i < |s| && s[i] == '"'
    ensures StringBody(s, start, i) == Body(i + 1, "", true, [])
  {
  }

  /** The text or the line ends before the closing quote. */
  lemma {:induction false} BrokenRead(s: string, start: nat, i: nat)
    requires 1 <= i <= |s| && (i < |s| ==> s[i] == '\n')
    ensures StringBody(s, start, i)
         == Body(i, "", false, if i == |s| then [] else [Diagnostic("E0006", start, i)])
  {
  }

  lemma {:induction false} EscapeRead(s: string, start: nat, i: nat)
    requires 1 <= i < |s| && s[i] == '\\'
    ensures var e := EscapeAt(s, i + 1);
            var rest := StringBody(s, start, e.end);
            StringBody(s, start, i)
              == rest.(text := (if e.value.Some? then [e.value.value] else "") + rest.text,
                       diags := e.diags + rest.diags)
  {
    hide EscapeAt;
  }

  lemma {:induction false} PlainRead(s: string, start: nat, i: nat)
    requires 1 <= i < |s| && s[i] != '"' && s[i] != '\\' && s[i] != '\n'
    ensures var rest := StringBody(s, start, i + 1);
            StringBody(s, start, i) == rest.(text := [s[i]] + rest.text)
  {
  }

  lemma {:induction false} BackslashRead(s: string, start: nat, i: nat, c: char, end: nat)
    requires 1 <= i < |s| && s[i] == '\\' && EscapeAt(s, i + 1) == Escape(end, Some(c), [])
    ensures i < end <= |s|
    ensures var rest := StringBody(s, start, end);
            StringBody(s, start, i) == rest.(text := [c] + rest.text)
  {
    var rest := StringBody(s, start, end);
    assert [] + rest.diags == rest.diags;
  }

  function StringScan(s: string, i: nat): Scan
    requires i < |s|
  {
    var b := StringBody(s, i, i + 1);
    if b.terminated then Scan(b.end, Lexeme(Token(String(b.text), i, b.end)), b.diags)
    else Scan(b.end, Nothing, b.diags + [Diagnostic("E0006", i, b.end)])
  }

  /** The closing quote of a template, the newline before it, or the end. */
  function TemplateEnd(s: string, i: nat): (j: nat)
    requires i <= |s|
    ensures i <= j <= |s|
    decreases |s| - i
  {
    if i == |s| || s[i] == '"' || s[i] == '\n' then i
    else if s[i] == '\\' then if i + 1 == |s| then i + 1 else TemplateEnd(s, i + 2)
    else TemplateEnd(s, i + 1)
  }

  function TemplateScan(s: string, i: nat): Scan
    requires i + 2 <= |s|
  {
    var close := TemplateEnd(s, i + 2);
    if Peek(s, close) == Some('"') then Scan(close + 1, Lexeme(Token(Template(s[i + 2..close]), i, close + 1)), [])
    else Scan(close, Nothing, [Diagnostic("E0006", i, close)])
  }

  /** Past the next quote on this line, or to the end of the line. */
  function SkipChar(s: string, i: nat): (j: nat)
    requires i <= |s|
    ensures i <= j <= |s|
    decreases |s| - i
  {
    if i == |s| || s[i] == '\n' then i else if s[i] == '\'' then i + 1 else SkipChar(s, i + 1)
  }

  function CharScan(s: string, i: nat): Scan
    requires i < |s|
  {
    match Peek(s, i + 1)
    case None => Scan(i + 1, Nothing, [Diagnostic("E0006", i, i + 1)])
    case Some('\'') => Scan(i + 2, Nothing, [Diagnostic("E0008", i, i + 2)])
    case Some('\n') => Scan(i + 1, Nothing, [Diagnostic("E0006", i, i + 1)])
    case Some(c) =>
      var e := if c == '\\' then EscapeAt(s, i + 2) else Escape(i + 2, Some(c), []);
      if Peek(s, e.end) == Some('\'') then
        Scan(e.end + 1, if e.value.Some? then Lexeme(Token(Char(e.value.value), i, e.end + 1)) else Nothing, e.diags)
      else
        var end := SkipChar(s, e.end);
        Scan(end, Nothing, e.diags + [Diagnostic("E0008", i, end)])
  }

  // ---- symbols -------------------------------------------------------------------------------

  /** The length of the symbol at `i`; zero when none starts there. */
  function SymbolLength(s: string, i: nat): (n: nat)
    requires i < |s|
    ensures i + n <= |s|
  {
    var next := Peek(s, i + 1);
    match s[i]
    case '.' => if next == Some('.') then 2 else 1
    case ':' => if next == Some(':') then 2 else 1
    case '-' => if next == Some('>') then 2 else 1
    case '=' => if next == Some('=') || next == Some('>') then 2 else 1
    case '!' => if next == Some('=') then 2 else 1
    case '<' =>
      if next == Some('<') then (if Peek(s, i + 2) == Some('=') then 3 else 2)
      else if next == Some('=') then 2 else 1
    case '>' =>
      if next == Some('>') then
        if Peek(s, i + 2) == Some('>') then (if Peek(s, i + 3) == Some('=') then 4 else 3)
        else if Peek(s, i + 2) == Some('=') then 3 else 2
      else if next == Some('=') then 2 else 1
    case '&' => if next == Some('&') || next == Some('=') then 2 else 1
    case '|' => if next == Some('|') || next == Some('=') then 2 else 1
    case '^' => if next == Some('=') then 2 else 1
    case _ => if s[i] in SINGLES then 1 else 0
  }

  const SINGLES := {'(', ')', '{', '}', '[', ']', ',', ';', '+', '*', '%', '~', '#', '?', '/', '_'}

  function SymbolScan(s: string, i: nat): Scan
    requires i < |s|
  {
    var n := SymbolLength(s, i);
    if n == 0 then Scan(i + 1, Nothing, [Diagnostic("E0001", i, i + 1)])
    else Scan(i + n, Lexeme(Token(Symbol(s[i..i + n]), i, i + n)), [])
  }

  // ---- one lexeme ----------------------------------------------------------------------------

  function ScanAt(s: string, i: nat): Scan
    requires i < |s|
  {
    var c := s[i];
    if IsBlank(c) then Scan(i + 1, Nothing, [])
    else if c == '/' && Peek(s, i + 1) == Some('/') then CommentScan(s, i)
    else if (c == 'f' || c == '$') && Peek(s, i + 1) == Some('"') then TemplateScan(s, i)
    else if IsAlpha(c) then NameScan(s, i)
    else if c == '_' && i + 1 < |s| && IsAlnum(s[i + 1]) then NameScan(s, i)
    else if IsDigit(c) then NumberScan(s, i)
    else if c == '"' then StringScan(s, i)
    else if c == '\'' then CharScan(s, i)
    else SymbolScan(s, i)
  }

  datatype Lexed = Lexed(tokens: seq<Token>, comments: seq<Comment>, diags: seq<Diagnostic>)

  function Cons(item: Item, diags: seq<Diagnostic>, rest: Lexed): Lexed {
    Lexed((if item.Lexeme? then [item.token] else []) + rest.tokens,
          (if item.Trivia? then [item.comment] else []) + rest.comments,
          diags + rest.diags)
  }

  /** Every reading moves forward. */
  lemma {:induction false} ScanAdvances(s: string, i: nat)
    requires i < |s|
    ensures i < ScanAt(s, i).end <= |s|
  {
  }

  /** The whole text from `i`, with the end-of-file token. */
  function LexFrom(s: string, i: nat): Lexed
    requires i <= |s|
    decreases |s| - i
  {
    if i == |s| then Lexed([Token(Eof, i, i)], [], [])
    else
      var scan := ScanAt(s, i);
      ScanAdvances(s, i);
      Cons(scan.item, scan.diags, LexFrom(s, scan.end))
  }

  // ---- what one reading yields -----------------------------------------------------------------

  predicate ItemWithin(item: Item, i: nat, end: nat) {
    match item
    case Nothing => true
    case Lexeme(t) => i == t.start < t.end <= end
    case Trivia(c) => i == c.start < c.end <= end
  }

  lemma {:induction false} CommentInBounds(s: string, i: nat)
    requires i < |s| && s[i] == '/' && Peek(s, i + 1) == Some('/')
    ensures ItemWithin(CommentScan(s, i).item, i, CommentScan(s, i).end)
  {
    assert !IsWhite(s[i]);
  }

  lemma {:induction false} NumberInBounds(s: string, i: nat)
    requires i < |s| && IsDigit(s[i])
    ensures ItemWithin(NumberScan(s, i).item, i, NumberScan(s, i).end)
  {
    hide INT_SUFFIXES, FLOAT_SUFFIXES, AsI64, NumberValue;
  }

  /** The span starts where reading started and lies within what was read. */
  lemma {:induction false} ItemInBounds(s: string, i: nat)
    requires i < |s|
    ensures ItemWithin(ScanAt(s, i).item, i, ScanAt(s, i).end)
  {
    hide KEYWORDS, StringBody, EscapeAt, TemplateEnd, StretchEnd, SkipChar, NameKind, CommentScan, NumberScan;
    if s[i] == '/' && Peek(s, i + 1) == Some('/') {
      CommentInBounds(s, i);
    } else if IsDigit(s[i]) {
      NumberInBounds(s, i);
    }
  }
}
