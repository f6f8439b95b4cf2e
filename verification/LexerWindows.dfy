/** Reading one lexeme: what a reading without diagnostics can be, and why a token is read
    the same from its own characters alone. A stretch, a number, an escape or a literal that ends
    by a cut ends at the same place in the text that is cut there. */
module LexerWindows {
  import opened Wrappers
  import opened Scanner

  // ---- one reading ---------------------------------------------------------------------

  /** A blank, a token that ends where reading ended, or a comment followed by white space. */
  predicate CleanShape(s: string, i: nat, scan: Scan)
    requires i < |s|
  {
    match scan.item
    case Nothing => scan.end == i + 1 && IsBlank(s[i])
    case Lexeme(t) => t.start == i && t.end == scan.end
    case Trivia(c) => c.start == i && c.end <= scan.end <= |s| && forall k | c.end <= k < scan.end :: IsWhite(s[k])
  }

  lemma {:induction false} IntClean(s: string, i: nat, rawEnd: nat, n: nat)
    requires i < |s| && i <= rawEnd <= |s| && IntScan(s, i, rawEnd, n).diags == []
    ensures CleanShape(s, i, IntScan(s, i, rawEnd, n))
  {
    hide INT_SUFFIXES, AsI64;
  }

  lemma {:induction false} FloatClean(s: string, i: nat, rawEnd: nat)
    requires i < |s| && i <= rawEnd <= |s| && FloatScan(s, i, rawEnd).diags == []
    ensures CleanShape(s, i, FloatScan(s, i, rawEnd))
  {
    hide FLOAT_SUFFIXES;
  }

  lemma {:induction false} NumberClean(s: string, i: nat)
    requires i < |s| && NumberScan(s, i).diags == []
    ensures CleanShape(s, i, NumberScan(s, i))
  {
    var whole := StretchEnd(s, i, IsDigit);
    var rawEnd := ExponentEnd(s, FractionEnd(s, whole));
    hide IntScan, FloatScan, NumberValue, StretchEnd, ExponentEnd, FractionEnd, CleanShape;
    if HexPrefix(s, i) {
      var hexEnd := StretchEnd(s, i + 2, IsHex);
      if hexEnd > i + 2 {
        IntClean(s, i, hexEnd, NumberValue(s[i + 2..hexEnd], 16));
      }
    } else if rawEnd > whole {
      FloatClean(s, i, rawEnd);
    } else {
      IntClean(s, i, whole, NumberValue(s[i..whole], 10));
    }
  }

  lemma {:induction false} CharClean(s: string, i: nat)
    requires i < |s| && CharScan(s, i).diags == []
    ensures CleanShape(s, i, CharScan(s, i))
  {
    hide EscapeAt, SkipChar;
  }

  lemma {:induction false} CleanScan(s: string, i: nat)
    requires i < |s| && ScanAt(s, i).diags == []
    ensures CleanShape(s, i, ScanAt(s, i))
  {
    hide NumberScan, CharScan, StringBody, TemplateEnd, StretchEnd, SymbolLength, TrimEnd, IsWhite, NameKind;
    var c := s[i];
    if IsDigit(c) {
      NumberClean(s, i);
    } else if c == '\'' {
      CharClean(s, i);
    }
  }

  // ---- reading a lexeme from its own characters -----------------------------------------

  /** A stretch that ends by the cut ends at the same place without what follows. */
  lemma {:induction false} StretchWindow(s: string, a: nat, b: nat, i: nat, p: char -> bool)
    requires a <= i <= |s| && StretchEnd(s, i, p) <= b <= |s|
    ensures StretchEnd(s[a..b], i - a, p) == StretchEnd(s, i, p) - a
    decreases |s| - i
  {
    if i < |s| && p(s[i]) {
      StretchWindow(s, a, b, i + 1, p);
    }
  }

  lemma {:induction false} WindowText(s: string, a: nat, b: nat, i: nat, j: nat)
    requires a <= i <= j <= b <= |s|
    ensures s[a..b][i - a..j - a] == s[i..j]
  {
    var x, y := s[a..b][i - a..j - a], s[i..j];
    forall k | 0 <= k < j - i ensures x[k] == y[k] {
      assert x[k] == s[a..b][i - a + k] == s[i + k];
    }
  }

  lemma {:induction false} NameAlone(s: string, i: nat)
    requires i < |s|
    ensures var b := NameScan(s, i).end;
            NameScan(s[i..b], 0) == Scan(b - i, Lexeme(Token(NameKind(s[i..b]), 0, b - i)), [])
  {
    var b := NameScan(s, i).end;
    StretchWindow(s, i, b, i + 1, IsIdentChar);
    WindowText(s, i, b, i, b);
  }

  lemma {:induction false} SuffixWindow(s: string, a: nat, b: nat, i: nat)
    requires a <= i <= |s| && SuffixEnd(s, i) <= b <= |s|
    ensures SuffixEnd(s[a..b], i - a) == SuffixEnd(s, i) - a
    ensures s[a..b][i - a..SuffixEnd(s, i) - a] == s[i..SuffixEnd(s, i)]
  {
    if i < |s| && IsIdentStart(s[i]) {
      StretchWindow(s, a, b, i + 1, IsIdentChar);
    }
    WindowText(s, a, b, i, SuffixEnd(s, i));
  }

  predicate Shifted(whole: Scan, alone: Scan, i: nat) {
    && whole.item.Lexeme? && alone.item.Lexeme? && whole.diags == alone.diags == []
    && whole.end == alone.end + i && whole.item.token.end == whole.end
    && alone.item.token == Token(whole.item.token.kind, 0, alone.end)
  }

  predicate Clean(scan: Scan) {
    scan.item.Lexeme? && scan.diags == []
  }

  lemma {:induction false} IntAlone(s: string, i: nat, rawEnd: nat, n: nat)
    requires i <= rawEnd <= |s| && Clean(IntScan(s, i, rawEnd, n))
    ensures var b := IntScan(s, i, rawEnd, n).end;
            rawEnd <= b && Shifted(IntScan(s, i, rawEnd, n), IntScan(s[i..b], 0, rawEnd - i, n), i)
  {
    var b := IntScan(s, i, rawEnd, n).end;
    hide INT_SUFFIXES;
    SuffixWindow(s, i, b, rawEnd);
    WindowText(s, i, b, i, rawEnd);
    assert s[i..b][0..rawEnd - i] == s[i..rawEnd];
  }

  lemma {:induction false} FloatAlone(s: string, i: nat, rawEnd: nat)
    requires i <= rawEnd <= |s| && Clean(FloatScan(s, i, rawEnd))
    ensures var b := FloatScan(s, i, rawEnd).end;
            rawEnd <= b && Shifted(FloatScan(s, i, rawEnd), FloatScan(s[i..b], 0, rawEnd - i), i)
  {
    var b := FloatScan(s, i, rawEnd).end;
    hide FLOAT_SUFFIXES;
    SuffixWindow(s, i, b, rawEnd);
    WindowText(s, i, b, i, rawEnd);
    assert s[i..b][0..rawEnd - i] == s[i..rawEnd];
  }

  lemma {:induction false} HexAlone(s: string, i: nat)
    requires i < |s| && HexPrefix(s, i) && Clean(HexScan(s, i))
    ensures var t := s[i..HexScan(s, i).end];
            HexPrefix(t, 0) && Shifted(HexScan(s, i), HexScan(t, 0), i)
  {
    hide IntScan, NumberValue, Shifted, IsHex;
    var rawEnd := StretchEnd(s, i + 2, IsHex);
    var n := NumberValue(s[i + 2..rawEnd], 16);
    IntAlone(s, i, rawEnd, n);
    var b := IntScan(s, i, rawEnd, n).end;
    var t := s[i..b];
    StretchWindow(s, i, b, i + 2, IsHex);
    WindowText(s, i, b, i + 2, rawEnd);
    assert HexPrefix(t, 0);
    assert t[2..rawEnd - i] == s[i + 2..rawEnd];
  }

  lemma {:induction false} FractionWindow(s: string, a: nat, b: nat, d: nat)
    requires a <= d <= |s| && FractionEnd(s, d) <= b <= |s|
    ensures FractionEnd(s[a..b], d - a) == FractionEnd(s, d) - a
  {
    if d + 1 < |s| && s[d] == '.' && IsDigit(s[d + 1]) {
      assert StretchEnd(s, d + 1, IsDigit) > d + 1;
      StretchWindow(s, a, b, d + 1, IsDigit);
    }
  }

  lemma {:induction false} ExponentWindow(s: string, a: nat, b: nat, d: nat)
    requires a <= d <= |s| && ExponentEnd(s, d) <= b <= |s|
    ensures ExponentEnd(s[a..b], d - a) == ExponentEnd(s, d) - a
  {
    var t, k := s[a..b], ExponentDigits(s, d);
    if d < |s| && (s[d] == 'e' || s[d] == 'E') && k < |s| && IsDigit(s[k]) {
      assert StretchEnd(s, k, IsDigit) > k;
      StretchWindow(s, a, b, k, IsDigit);
      assert d + 1 < b && t[d + 1 - a] == s[d + 1];
      assert ExponentDigits(t, d - a) == k - a;
    } else if d < b && d + 1 < b {
      assert t[d + 1 - a] == s[d + 1];
      assert ExponentDigits(t, d - a) == k - a;
    }
  }

  lemma {:induction false} DigitStretch(s: string, i: nat)
    requires i < |s| && IsDigit(s[i])
    ensures i < StretchEnd(s, i, IsDigit) <= |s|
  {
  }

  lemma {:induction false} DecimalWindow(s: string, i: nat, b: nat)
    requires i < |s| && IsDigit(s[i]) && !HexPrefix(s, i)
    requires ExponentEnd(s, FractionEnd(s, StretchEnd(s, i, IsDigit))) <= b <= |s|
    ensures var t, whole := s[i..b], StretchEnd(s, i, IsDigit);
            && i < whole <= b && t != [] && IsDigit(t[0]) && !HexPrefix(t, 0)
            && StretchEnd(t, 0, IsDigit) == whole - i
            && ExponentEnd(t, FractionEnd(t, whole - i)) == ExponentEnd(s, FractionEnd(s, whole)) - i
            && t[0..whole - i] == s[i..whole]
  {
    hide StretchEnd, FractionEnd, ExponentEnd;
    DigitStretch(s, i);
    var whole := StretchEnd(s, i, IsDigit);
    StretchWindow(s, i, b, i, IsDigit);
    FractionWindow(s, i, b, whole);
    ExponentWindow(s, i, b, FractionEnd(s, whole));
    WindowText(s, i, b, i, whole);
    assert b > i + 1 ==> s[i..b][1] == s[i + 1];
  }

  lemma {:induction false} DecimalAlone(s: string, i: nat)
    requires i < |s| && IsDigit(s[i]) && !HexPrefix(s, i) && Clean(NumberScan(s, i))
    ensures Shifted(NumberScan(s, i), NumberScan(s[i..NumberScan(s, i).end], 0), i)
  {
    hide IntScan, FloatScan, NumberValue, StretchEnd, FractionEnd, ExponentEnd, HexPrefix, Shifted, HexScan;
    var b := NumberScan(s, i).end;
    var whole := StretchEnd(s, i, IsDigit);
    var rawEnd := ExponentEnd(s, FractionEnd(s, whole));
    if rawEnd > whole {
      FloatAlone(s, i, rawEnd);
      DecimalWindow(s, i, b);
    } else {
      IntAlone(s, i, whole, NumberValue(s[i..whole], 10));
      DecimalWindow(s, i, b);
    }
  }

  lemma {:induction false} NumberAlone(s: string, i: nat)
    requires i < |s| && IsDigit(s[i]) && Clean(NumberScan(s, i))
    ensures Shifted(NumberScan(s, i), NumberScan(s[i..NumberScan(s, i).end], 0), i)
  {
    hide IntScan, FloatScan, Shifted, HexScan;
    if HexPrefix(s, i) {
      HexAlone(s, i);
    } else {
      DecimalAlone(s, i);
    }
  }

  lemma {:induction false} UnicodeWindow(s: string, a: nat, b: nat, i: nat)
    requires a + 1 <= i < |s| && UnicodeEscape(s, i).diags == [] && UnicodeEscape(s, i).end <= b <= |s|
    ensures i < b && UnicodeEscape(s[a..b], i - a) == UnicodeEscape(s, i).(end := UnicodeEscape(s, i).end - a)
  {
    hide NumberValue, IsHex;
    var close := StretchEnd(s, i + 2, IsHex);
    StretchWindow(s, a, b, i + 2, IsHex);
    WindowText(s, a, b, i + 2, close);
  }

  lemma {:induction false} EscapeWindow(s: string, a: nat, b: nat, i: nat)
    requires a + 1 <= i < |s| && EscapeAt(s, i).diags == [] && EscapeAt(s, i).end <= b <= |s|
    ensures EscapeAt(s[a..b], i - a) == EscapeAt(s, i).(end := EscapeAt(s, i).end - a)
  {
    hide UnicodeEscape, PlainEscape;
    if PlainEscape(s[i]).None? && s[i] == 'u' {
      UnicodeWindow(s, a, b, i);
    }
  }

  predicate CleanBody(b: Body) {
    b.terminated && b.diags == []
  }

  /** An escape inside a clean literal is clean. */
  lemma {:induction false} CleanEscape(s: string, start: nat, i: nat)
    requires 1 <= i < |s| && s[i] == '\\' && CleanBody(StringBody(s, start, i))
    ensures var e := EscapeAt(s, i + 1);
            && i + 1 < |s| && e.diags == [] && e.value.Some? && CleanBody(StringBody(s, start, e.end))
            && StringBody(s, start, i).end == StringBody(s, start, e.end).end
  {
    hide EscapeAt;
  }

  /** How a clean literal goes on. */
  lemma {:induction false} CleanStep(s: string, start: nat, i: nat)
    requires 1 <= i <= |s| && CleanBody(StringBody(s, start, i))
    ensures i < |s| && s[i] != '\n' && i < StringBody(s, start, i).end
    ensures s[i] == '"' ==> StringBody(s, start, i) == Body(i + 1, "", true, [])
  {
  }

  predicate BodyShifted(whole: Body, alone: Body, a: nat) {
    whole.end >= a && alone == whole.(end := whole.end - a)
  }

  lemma {:induction false} StringWindow(s: string, a: nat, b: nat, i: nat)
    requires a + 1 <= i <= |s| && b <= |s|
    requires CleanBody(StringBody(s, a, i)) && StringBody(s, a, i).end <= b
    ensures i <= b && BodyShifted(StringBody(s, a, i), StringBody(s[a..b], 0, i - a), a)
    decreases |s| - i
  {
    hide StringBody, EscapeAt;
    var t := s[a..b];
    CleanStep(s, a, i);
    assert t[i - a] == s[i];
    if s[i] == '"' {
      QuoteRead(t, 0, i - a);
    } else if s[i] == '\\' {
      CleanEscape(s, a, i);
      var e := EscapeAt(s, i + 1);
      StringWindow(s, a, b, e.end);
      EscapeWindow(s, a, b, i + 1);
      BackslashRead(s, a, i, e.value.value, e.end);
      BackslashRead(t, 0, i - a, e.value.value, e.end - a);
    } else {
      PlainRead(s, a, i);
      StringWindow(s, a, b, i + 1);
      PlainRead(t, 0, i - a);
    }
  }

  lemma {:induction false} StringAlone(s: string, i: nat)
    requires i < |s| && Clean(StringScan(s, i))
    ensures Shifted(StringScan(s, i), StringScan(s[i..StringScan(s, i).end], 0), i)
  {
    StringWindow(s, i, StringScan(s, i).end, i + 1);
  }

  lemma {:induction false} TemplateWindow(s: string, a: nat, b: nat, i: nat)
    requires a <= i <= |s| && TemplateEnd(s, i) < b <= |s|
    requires s[TemplateEnd(s, i)] == '"'
    ensures TemplateEnd(s[a..b], i - a) == TemplateEnd(s, i) - a
    decreases |s| - i
  {
    if s[i] == '"' || s[i] == '\n' {
    } else if s[i] == '\\' {
      if i + 1 < |s| {
        TemplateWindow(s, a, b, i + 2);
      }
    } else {
      TemplateWindow(s, a, b, i + 1);
    }
  }

  lemma {:induction false} TemplateAlone(s: string, i: nat)
    requires i + 2 <= |s| && Clean(TemplateScan(s, i))
    ensures TemplateScan(s, i).end >= i + 2
    ensures Shifted(TemplateScan(s, i), TemplateScan(s[i..TemplateScan(s, i).end], 0), i)
  {
    var b := TemplateScan(s, i).end;
    TemplateWindow(s, i, b, i + 2);
    WindowText(s, i, b, i + 2, b - 1);
  }

  lemma {:induction false} CharAlone(s: string, i: nat)
    requires i < |s| && Clean(CharScan(s, i))
    ensures Shifted(CharScan(s, i), CharScan(s[i..CharScan(s, i).end], 0), i)
  {
    var b := CharScan(s, i).end;
    if s[i + 1] == '\\' {
      EscapeWindow(s, i, b, i + 2);
    }
  }

  lemma {:induction false} SymbolAlone(s: string, i: nat)
    requires i < |s| && Clean(SymbolScan(s, i))
    ensures Shifted(SymbolScan(s, i), SymbolScan(s[i..SymbolScan(s, i).end], 0), i)
  {
    var n := SymbolLength(s, i);
    WindowText(s, i, i + n, i, i + n);
  }

  /** A token read without diagnostics is read again from its characters alone. */
  lemma {:induction false} ScanAlone(s: string, i: nat)
    requires i < |s| && Clean(ScanAt(s, i))
    ensures i < ScanAt(s, i).end <= |s|
    ensures Shifted(ScanAt(s, i), ScanAt(s[i..ScanAt(s, i).end], 0), i)
  {
    ScanAdvances(s, i);
    var b := ScanAt(s, i).end;
    var t, c := s[i..b], s[i];
    assert t[0] == c;
    assert b > i + 1 ==> t[1] == s[i + 1];
    hide NumberScan, StringScan, CharScan, SymbolScan, NameScan, TemplateScan, NameKind, Shifted;
    if (c == 'f' || c == '$') && Peek(s, i + 1) == Some('"') {
      TemplateAlone(s, i);
      assert Peek(t, 1) == Some('"');
    } else if IsAlpha(c) {
      NameLike(s, i);
    } else if c == '_' && i + 1 < |s| && IsAlnum(s[i + 1]) {
      NameLike(s, i);
    } else if IsDigit(c) {
      NumberAlone(s, i);
    } else if c == '"' {
      StringAlone(s, i);
    } else if c == '\'' {
      CharAlone(s, i);
    } else {
      SymbolAlone(s, i);
    }
  }

  lemma {:induction false} NameLike(s: string, i: nat)
    requires i < |s|
    ensures Shifted(NameScan(s, i), NameScan(s[i..NameScan(s, i).end], 0), i)
    ensures i + 1 < |s| && IsAlnum(s[i + 1]) ==> NameScan(s, i).end > i + 1
  {
    NameAlone(s, i);
  }
}
