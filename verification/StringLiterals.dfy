/** Printing a string as a literal, and the lexer reading it back. */
module StringLiterals {
  import opened Wrappers
  import opened Scanner

  function HexDigit(n: nat): (c: char)
    requires n < 16
    ensures IsHex(c) && DigitValue(c) == n
  {
    if n < 10 then ('0' as int + n) as char else ('A' as int + (n - 10)) as char
  }

  /** Upper-case hexadecimal without leading zeros. */
  function Hex(n: nat): (t: string)
    requires n < 256
    ensures 1 <= |t| <= 2 && forall k | 0 <= k < |t| :: IsHex(t[k])
  {
    if n < 16 then [HexDigit(n)] else [HexDigit(n / 16), HexDigit(n % 16)]
  }

  predicate IsControl(c: char) {
    1 <= c as int <= 0x1F || c as int == 0x7F
  }

  function EscapedChar(c: char): string {
    match c
    case '\\' => "\\\\"
    case '"' => "\\\""
    case '\n' => "\\n"
    case '\r' => "\\r"
    case '\t' => "\\t"
    case '\0' => "\\0"
    case _ => if IsControl(c) then "\\u{" + Hex(c as int) + "}" else [c]
  }

  function Escaped(v: string): string {
    if v == "" then "" else Escaped(v[..|v| - 1]) + EscapedChar(v[|v| - 1])
  }

  method EscapeStringLiteral(value: string) returns (escaped: string)
    ensures escaped == Escaped(value)
  {
    escaped := "";
    for i := 0 to |value|
      invariant escaped == Escaped(value[..i])
    {
      assert value[..i + 1][..i] == value[..i];
      var c := value[i];
      match c {
        case '\\' => escaped := escaped + "\\\\";
        case '"' => escaped := escaped + "\\\"";
        case '\n' => escaped := escaped + "\\n";
        case '\r' => escaped := escaped + "\\r";
        case '\t' => escaped := escaped + "\\t";
        case '\0' => escaped := escaped + "\\0";
        case _ =>
          if IsControl(c) {
            escaped := escaped + "\\u{" + Hex(c as int) + "}";
            assert escaped == Escaped(value[..i]) + ("\\u{" + Hex(c as int) + "}");
          } else {
            escaped := escaped + [c];
          }
      }
    }
    assert value[..|value|] == value;
  }

  lemma {:induction false} EscapedFront(c: char, v: string)
    ensures Escaped([c] + v) == EscapedChar(c) + Escaped(v)
    decreases |v|
  {
    hide EscapedChar;
    var w := [c] + v;
    if v == "" {
      assert w == [c] && w[..0] == "";
      assert Escaped(w) == Escaped("") + EscapedChar(c);
    } else {
      var front, last := v[..|v| - 1], v[|v| - 1];
      EscapedFront(c, front);
      assert w[..|w| - 1] == [c] + front && w[|w| - 1] == last;
      assert Escaped(w) == (EscapedChar(c) + Escaped(front)) + EscapedChar(last);
    }
  }

  // ---- reading one escape ---------------------------------------------------------------

  lemma {:induction false} HexValue(n: nat)
    requires n < 256
    ensures NumberValue(Hex(n), 16) == n
  {
    var t := Hex(n);
    assert NumberValue("", 16) == 0;
    if n < 16 {
      assert t[..0] == "" && t == [HexDigit(n)];
    } else {
      assert t[..1] == [HexDigit(n / 16)];
      assert t[..1][..0] == "";
      assert NumberValue(t[..1], 16) == n / 16;
    }
  }

  lemma {:induction false} StretchOver(s: string, i: nat, n: nat, p: char -> bool)
    requires i + n < |s| && !p(s[i + n]) && forall k | i <= k < i + n :: p(s[k])
    ensures StretchEnd(s, i, p) == i + n
  {
  }

  /** The `\u{…}` form of a control character is read as that character. */
  lemma {:induction false} ControlEscape(s: string, i: nat, c: char)
    requires IsControl(c) && 1 <= i
    requires i + 3 + |Hex(c as int)| <= |s|
    requires s[i..i + 3 + |Hex(c as int)|] == "u{" + Hex(c as int) + "}"
    ensures UnicodeEscape(s, i) == Escape(i + 3 + |Hex(c as int)|, Some(c), [])
  {
    hide HexDigit, NumberValue, StretchEnd;
    var hex := Hex(c as int);
    var n := |hex|;
    var text := "u{" + hex + "}";
    forall k | 0 <= k < n + 3 ensures s[i + k] == text[k] {
      assert s[i..i + 3 + n][k] == s[i + k];
    }
    assert s[i + 1] == '{' && s[i + 2 + n] == '}';
    assert forall k | 0 <= k < n :: s[i + 2 + k] == hex[k];
    assert s[i + 2..i + 2 + n] == hex;
    StretchOver(s, i + 2, n, IsHex);
    HexValue(c as int);
  }

  /** The three shapes of a printed character. */
  lemma {:induction false} EscapedShape(c: char)
    ensures var text := EscapedChar(c);
            || (text == [c] && c != '"' && c != '\\' && c != '\n')
            || (|text| == 2 && text[0] == '\\' && PlainEscape(text[1]) == Some(c))
            || (IsControl(c) && text == "\\u{" + Hex(c as int) + "}")
  {
  }

  /** One printed character is read back as that character. */
  lemma {:induction false} CharRead(s: string, start: nat, i: nat, c: char)
    requires 1 <= i && i + |EscapedChar(c)| <= |s|
    requires s[i..i + |EscapedChar(c)|] == EscapedChar(c)
    ensures |EscapedChar(c)| > 0
    ensures var rest := StringBody(s, start, i + |EscapedChar(c)|);
            StringBody(s, start, i) == rest.(text := [c] + rest.text)
  {
    EscapedShape(c);
    var text := EscapedChar(c);
    hide EscapedChar, StringBody, PlainEscape, IsControl, Hex, EscapeAt;
    forall k | 0 <= k < |text| ensures s[i + k] == text[k] {
      assert s[i..i + |text|][k] == s[i + k];
    }
    if text == [c] {
      PlainRead(s, start, i);
    } else if |text| == 2 {
      ShortEscapeRead(s, start, i, c);
    } else {
      ControlRead(s, start, i, c);
    }
  }

  lemma {:induction false} ShortEscapeRead(s: string, start: nat, i: nat, c: char)
    requires 1 <= i && i + 1 < |s| && s[i] == '\\' && PlainEscape(s[i + 1]) == Some(c)
    ensures var rest := StringBody(s, start, i + 2);
            StringBody(s, start, i) == rest.(text := [c] + rest.text)
  {
    BackslashRead(s, start, i, c, i + 2);
  }

  lemma {:induction false} ControlRead(s: string, start: nat, i: nat, c: char)
    requires IsControl(c) && 1 <= i && i + 4 + |Hex(c as int)| <= |s|
    requires s[i..i + 4 + |Hex(c as int)|] == "\\u{" + Hex(c as int) + "}"
    ensures var rest := StringBody(s, start, i + 4 + |Hex(c as int)|);
            StringBody(s, start, i) == rest.(text := [c] + rest.text)
  {
    hide Hex, StringBody, UnicodeEscape;
    var hex := Hex(c as int);
    var n := |hex| + 4;
    var text := s[i..i + n];
    assert text == "\\" + ("u{" + hex + "}");
    assert s[i] == text[0] && s[i + 1] == text[1];
    assert s[i + 1..i + n] == text[1..] == "u{" + hex + "}";
    ControlEscape(s, i + 1, c);
    BackslashRead(s, start, i, c, i + n);
  }

  /** The printed characters up to the closing quote are read back as the string. */
  lemma {:induction false} BodyRead(s: string, start: nat, i: nat, v: string, rest: string)
    requires 1 <= i <= |s| && s[i..] == Escaped(v) + "\"" + rest
    ensures StringBody(s, start, i) == Body(i + |Escaped(v)| + 1, v, true, [])
    decreases |v|
  {
    hide StringBody, EscapedChar;
    if v == "" {
      assert s[i] == s[i..][0];
      assert Escaped(v) == "";
      QuoteRead(s, start, i);
    } else {
      var c, w := v[0], v[1..];
      assert v == [c] + w;
      EscapedFront(c, w);
      var text := EscapedChar(c);
      var tail := Escaped(w) + "\"" + rest;
      assert Escaped(v) + "\"" + rest == text + tail;
      hide Escaped;
      assert s[i..i + |text|] == s[i..][..|text|] == text;
      assert s[i + |text|..] == s[i..][|text|..] == tail;
      CharRead(s, start, i, c);
      BodyRead(s, start, i + |text|, w, rest);
    }
  }

  function Literal(v: string): string {
    "\"" + Escaped(v) + "\""
  }

  /** A printed literal, whatever follows it, is read as one string token with the original
      value and no diagnostics, and reading stops right after the closing quote. */
  lemma {:induction false} LiteralRoundTrip(v: string, rest: string)
    ensures var n := |Literal(v)|;
            ScanAt(Literal(v) + rest, 0) == Scan(n, Lexeme(Token(String(v), 0, n)), [])
  {
    hide Escaped, StringBody;
    var s := Literal(v) + rest;
    assert s[1..] == Escaped(v) + "\"" + rest;
    assert s[0] == '"';
    BodyRead(s, 0, 1, v, rest);
  }

  /** So printing is injective, and no literal is the beginning of another. */
  lemma {:induction false} LiteralInjective(v: string, w: string, rest: string)
    requires Literal(v) + rest == Literal(w)
    ensures v == w && rest == ""
  {
    LiteralRoundTrip(v, rest);
    LiteralRoundTrip(w, "");
    assert Literal(w) + "" == Literal(w);
  }

  lemma {:induction false} CharOnOneLine(c: char)
    ensures '\n' !in EscapedChar(c)
  {
    if IsControl(c) {
      var hex := Hex(c as int);
      assert !IsHex('\n') && forall k | 0 <= k < |hex| :: IsHex(hex[k]);
    }
  }

  /** Printed literals keep to one line. */
  lemma {:induction false} LiteralOnOneLine(v: string)
    ensures '\n' !in Escaped(v)
  {
    hide EscapedChar;
    if v != "" {
      LiteralOnOneLine(v[..|v| - 1]);
      CharOnOneLine(v[|v| - 1]);
    }
  }
}
