/** The number an integer literal stands for. */
module LiteralValues {
  import opened Wrappers
  import opened Scanner
  import opened LexerFacts

  // ---- digits and places ---------------------------------------------------------------------

  /** The character is the digit `d`, in either case. */
  predicate Stands(c: char, d: nat) {
    d < 16 && (c == "0123456789abcdef"[d] || c == "0123456789ABCDEF"[d])
  }

  function Power(base: nat, n: nat): nat {
    if n == 0 then 1 else base * Power(base, n - 1)
  }

  /** Each digit times the base to the number of digits behind it. */
  function Sum(ds: seq<nat>, base: nat): nat {
    if ds == [] then 0 else ds[0] * Power(base, |ds| - 1) + Sum(ds[1..], base)
  }

  /** The `|ds|` characters from `i` on are these digits of the base. */
  predicate Digits(s: string, i: nat, ds: seq<nat>, base: nat) {
    i + |ds| <= |s| && forall k | i <= k < i + |ds| :: Stands(s[k], ds[k - i]) && ds[k - i] < base
  }

  /** The character is no digit of the base. */
  predicate NoDigit(c: char, base: nat) {
    forall d: nat | d < base :: !Stands(c, d)
  }

  lemma {:induction false} DigitStands(c: char, d: nat)
    requires Stands(c, d)
    ensures IsHex(c) && DigitValue(c) == d && (d < 10 <==> IsDigit(c))
  {
    assert "0123456789abcdef"[d] == if d < 10 then ('0' as int + d) as char else ('a' as int + d - 10) as char;
    assert "0123456789ABCDEF"[d] == if d < 10 then ('0' as int + d) as char else ('A' as int + d - 10) as char;
  }

  lemma {:induction false} SumSnoc(ds: seq<nat>, d: nat, base: nat)
    ensures Sum(ds + [d], base) == Sum(ds, base) * base + d
  {
    if ds == [] {
      assert ([] + [d])[1..] == [] && Power(base, 0) == 1;
    } else {
      SumSnoc(ds[1..], d, base);
      assert (ds + [d])[1..] == ds[1..] + [d];
      Distribute(ds[0], Power(base, |ds| - 1), Sum(ds[1..], base), base);
    }
  }

  lemma {:induction false} Distribute(d: nat, p: nat, rest: nat, base: nat)
    ensures d * (base * p) + rest * base == (d * p + rest) * base
  {
  }

  /** The digits read one after the other come to the sum over their places. */
  lemma {:induction false} ValueIsSum(text: string, ds: seq<nat>, base: nat)
    requires |text| == |ds| && forall k | 0 <= k < |ds| :: Stands(text[k], ds[k])
    ensures forall k | 0 <= k < |text| :: IsHex(text[k])
    ensures NumberValue(text, base) == Sum(ds, base)
    decreases |text|
  {
    forall k | 0 <= k < |text| ensures IsHex(text[k]) {
      DigitStands(text[k], ds[k]);
    }
    if text != "" {
      var n := |text| - 1;
      hide Stands;
      ValueIsSum(text[..n], ds[..n], base);
      DigitStands(text[n], ds[n]);
      SumSnoc(ds[..n], ds[n], base);
      assert ds == ds[..n] + [ds[n]];
    }
  }

  lemma {:induction false} DigitsValue(s: string, i: nat, ds: seq<nat>, base: nat)
    requires Digits(s, i, ds, base)
    ensures forall k | i <= k < i + |ds| :: IsHex(s[k]) && (base <= 10 ==> IsDigit(s[k]))
    ensures var text := s[i..i + |ds|]; forall k | 0 <= k < |text| :: IsHex(text[k])
    ensures NumberValue(s[i..i + |ds|], base) == Sum(ds, base)
  {
    var text := s[i..i + |ds|];
    forall k | i <= k < i + |ds| ensures IsHex(s[k]) && (base <= 10 ==> IsDigit(s[k])) {
      DigitStands(s[k], ds[k - i]);
    }
    hide Stands;
    forall k | 0 <= k < |text| ensures Stands(text[k], ds[k]) {
      assert text[k] == s[i + k];
    }
    ValueIsSum(text, ds, base);
  }

  lemma {:induction false} DigitsInside(s: string, i: nat, ds: seq<nat>, base: nat)
    requires Digits(s, i, ds, base)
    ensures i + |ds| <= |s|
  {
  }

  lemma {:induction false} StretchIs(s: string, i: nat, j: nat, p: char -> bool)
    requires i <= j <= |s| && (forall k | i <= k < j :: p(s[k])) && (j < |s| ==> !p(s[j]))
    ensures StretchEnd(s, i, p) == j
  {
    var e := StretchEnd(s, i, p);
    assert !(e < j) && !(j < e);
  }

  // ---- the suffix ------------------------------------------------------------------------------

  /** A word of identifier characters, or nothing, stands at `j` and ends there. */
  predicate WordAt(s: string, j: nat, w: string) {
    && j + |w| <= |s| && s[j..j + |w|] == w
    && (w != "" ==> IsIdentStart(w[0]) && forall k | 0 <= k < |w| :: IsIdentChar(w[k]))
    && (j + |w| < |s| ==> if w == "" then !IsIdentStart(s[j]) else !IsIdentChar(s[j + |w|]))
  }

  lemma {:induction false} SuffixIs(s: string, j: nat, w: string)
    requires WordAt(s, j, w)
    ensures SuffixEnd(s, j) == j + |w| && s[j..SuffixEnd(s, j)] == w
  {
    if w != "" {
      assert s[j] == s[j..j + |w|][0] == w[0];
      forall k | j + 1 <= k < j + |w| ensures IsIdentChar(s[k]) {
        assert s[k] == s[j..j + |w|][k - j] == w[k - j];
      }
      StretchIs(s, j + 1, j + |w|, IsIdentChar);
    }
  }

  predicate IntSuffix(w: string) {
    w in {"i8", "i16", "i32", "i64", "i128", "u8", "u16", "u32", "u64", "u128"}
  }

  predicate FloatSuffix(w: string) {
    w in {"f32", "f64"}
  }

  function WordDiags(j: nat, w: string, admitted: bool, code: string): seq<Diagnostic> {
    if w == "" || admitted then [] else [Diagnostic(code, j, j + |w|)]
  }

  /** What is read of an integer literal from `i` to `j` for the number `n`, with the word `w`
      behind it: a 64-bit number that differs from `n` by a multiple of 2 to the 64th, or a
      diagnostic when `n` is too large. */
  ghost predicate ReadsInt(scan: Scan, s: string, i: nat, j: nat, w: string, n: nat)
    requires i <= j <= |s|
  {
    var diags := WordDiags(j, w, IntSuffix(w), "E0009");
    && scan.end == j + |w|
    && if n < 0x8000_0000_0000_0000
          || ((w == "i128" || w == "u128") && n < 0x1_0000_0000_0000_0000_0000_0000_0000_0000)
       then
         && scan.diags == diags && scan.item.Lexeme? && scan.item.token.kind.Int?
         && var v := scan.item.token.kind.value;
         && scan.item.token ==
              Token(TokenKind.Int(v, s[i..j], if IntSuffix(w) then Some(w) else None), i,
                    if IntSuffix(w) then j + |w| else j)
         && -0x8000_0000_0000_0000 <= v < 0x8000_0000_0000_0000 && (v - n) % 0x1_0000_0000_0000_0000 == 0
       else scan.item == Nothing && scan.diags == diags + [Diagnostic("E0004", i, j)]
  }

  lemma {:induction false} Truncated(n: nat)
    ensures var v := AsI64(n);
            -0x8000_0000_0000_0000 <= v < 0x8000_0000_0000_0000 && (v - n) % 0x1_0000_0000_0000_0000 == 0
  {
  }

  lemma {:induction false} SuffixesAre(w: string)
    ensures w in INT_SUFFIXES <==> IntSuffix(w)
    ensures w in FLOAT_SUFFIXES <==> FloatSuffix(w)
  {
  }

  lemma {:induction false} SomeSuffixes()
    ensures !IntSuffix("") && !FloatSuffix("") && IntSuffix("i128") && IntSuffix("u128")
  {
  }

  lemma {:induction false} IntScanReads(s: string, i: nat, j: nat, w: string, n: nat)
    requires i <= j <= |s| && WordAt(s, j, w)
    ensures ReadsInt(IntScan(s, i, j, n), s, i, j, w, n)
  {
    hide IntSuffix, INT_SUFFIXES, AsI64, SuffixEnd;
    SuffixIs(s, j, w);
    SuffixesAre(w);
    SuffixesAre("");
    assert w == "" <==> SuffixEnd(s, j) == j;
    assert SuffixDiags(s, j, INT_SUFFIXES, "E0009") == WordDiags(j, w, IntSuffix(w), "E0009");
    assert SuffixOf(w, INT_SUFFIXES) == if IntSuffix(w) then Some(w) else None;
    assert [] + [Diagnostic("E0004", i, j)] == [Diagnostic("E0004", i, j)];
    SomeSuffixes();
    Truncated(n);
  }

  // ---- literals ----------------------------------------------------------------------------------

  /** A hexadecimal literal stands for the sum of its digits' places. */
  lemma {:induction false} HexLiteral(s: string, i: nat, ds: seq<nat>, w: string)
    requires i + 2 <= |s| && s[i] == '0' && (s[i + 1] == 'x' || s[i + 1] == 'X')
    requires ds != [] && Digits(s, i + 2, ds, 16) && WordAt(s, i + 2 + |ds|, w)
    requires i + 2 + |ds| < |s| ==> NoDigit(s[i + 2 + |ds|], 16)
    ensures ReadsInt(ScanAt(s, i), s, i, i + 2 + |ds|, w, Sum(ds, 16))
  {
    hide Digits, WordAt, Sum, NumberValue, Stands, NoDigit, ReadsInt, IntScan, ScanAt, IsHex, StretchEnd;
    var j := i + 2 + |ds|;
    DigitsInside(s, i + 2, ds, 16);
    DigitsValue(s, i + 2, ds, 16);
    NoneAt(s, j, 16);
    StretchIs(s, i + 2, j, IsHex);
    assert HexScan(s, i) == IntScan(s, i, j, Sum(ds, 16));
    IntScanReads(s, i, j, w, Sum(ds, 16));
    HexStart(s, i);
  }

  lemma {:induction false} HexStart(s: string, i: nat)
    requires HexPrefix(s, i)
    ensures ScanAt(s, i) == HexScan(s, i)
  {
    hide HexScan;
    NumberStart(s, i);
  }

  lemma {:induction false} NumberStart(s: string, i: nat)
    requires i < |s| && IsDigit(s[i])
    ensures ScanAt(s, i) == NumberScan(s, i)
  {
    hide NumberScan, CommentScan, TemplateScan, NameScan, StringScan, CharScan, SymbolScan;
  }

  lemma {:induction false} NoneAt(s: string, j: nat, base: nat)
    requires (base == 10 || base == 16) && (j < |s| ==> NoDigit(s[j], base))
    ensures j < |s| ==> if base == 10 then !IsDigit(s[j]) else !IsHex(s[j])
  {
    if j < |s| && IsHex(s[j]) {
      HexStands(s[j]);
      assert Stands(s[j], DigitValue(s[j]));
    }
  }

  /** No fraction and no exponent goes on from `j`. */
  predicate NoMore(s: string, j: nat) {
    j < |s| ==>
      && !(s[j] == '.' && j + 1 < |s| && IsDigit(s[j + 1]))
      && ((s[j] == 'e' || s[j] == 'E') && j + 1 < |s| ==>
            && !IsDigit(s[j + 1])
            && ((s[j + 1] == '+' || s[j + 1] == '-') && j + 2 < |s| ==> !IsDigit(s[j + 2])))
  }

  /** A decimal literal likewise. */
  lemma {:induction false} DecimalLiteral(s: string, i: nat, ds: seq<nat>, w: string)
    requires ds != [] && Digits(s, i, ds, 10) && WordAt(s, i + |ds|, w) && NoMore(s, i + |ds|)
    requires i + |ds| < |s| ==> NoDigit(s[i + |ds|], 10)
    requires ds == [0] ==> w == "" || (w[0] != 'x' && w[0] != 'X')
    ensures ReadsInt(ScanAt(s, i), s, i, i + |ds|, w, Sum(ds, 10))
  {
    hide Digits, WordAt, Sum, NumberValue, Stands, NoDigit, ReadsInt, IntScan, ScanAt, IsHex, IsDigit, StretchEnd;
    hide NoMore, FractionEnd, ExponentEnd, HexPrefix;
    var j := i + |ds|;
    DigitsInside(s, i, ds, 10);
    DigitsValue(s, i, ds, 10);
    NoneAt(s, j, 10);
    SecondCharacter(s, i, ds, w);
    NothingMore(s, j);
    StretchIs(s, i, j, IsDigit);
    assert NumberScan(s, i) == IntScan(s, i, j, Sum(ds, 10));
    IntScanReads(s, i, j, w, Sum(ds, 10));
    NumberStart(s, i);
  }

  lemma {:induction false} SecondCharacter(s: string, i: nat, ds: seq<nat>, w: string)
    requires ds != [] && Digits(s, i, ds, 10) && WordAt(s, i + |ds|, w)
    requires ds == [0] ==> w == "" || (w[0] != 'x' && w[0] != 'X')
    ensures !HexPrefix(s, i)
  {
    DigitStands(s[i], ds[0]);
    if |ds| > 1 {
      DigitStands(s[i + 1], ds[1]);
    } else if s[i] == '0' {
      assert ds == [0] by {
        assert DigitValue('0') == 0;
      }
      if w != "" {
        assert s[i + 1] == s[i + 1..i + 1 + |w|][0];
      }
    }
  }

  lemma {:induction false} NothingMore(s: string, j: nat)
    requires j <= |s| && NoMore(s, j)
    ensures FractionEnd(s, j) == j && ExponentEnd(s, j) == j
  {
  }

  // ---- every integer token --------------------------------------------------------------------------

  /** The token's text is a literal, and its value the number it stands for. */
  ghost predicate MeansNumber(kind: TokenKind)
    requires kind.Int?
  {
    var raw := kind.rawText;
    var hex := |raw| > 2 && raw[0] == '0' && (raw[1] == 'x' || raw[1] == 'X');
    var from, base := if hex then 2 else 0, if hex then 16 else 10;
    && from < |raw|
    && (kind.suffix.Some? ==> IntSuffix(kind.suffix.value))
    && exists ds :: |ds| == |raw| - from && Digits(raw, from, ds, base) && Fits(kind, Sum(ds, base))
  }

  /** The value is that of `n` modulo 2 to the 64th, and `n` is admitted with the suffix. */
  predicate Fits(kind: TokenKind, n: nat)
    requires kind.Int?
  {
    && -0x8000_0000_0000_0000 <= kind.value < 0x8000_0000_0000_0000
    && (kind.value - n) % 0x1_0000_0000_0000_0000 == 0
    && (n < 0x8000_0000_0000_0000
        || ((kind.suffix == Some("i128") || kind.suffix == Some("u128"))
            && n < 0x1_0000_0000_0000_0000_0000_0000_0000_0000))
  }

  /** The digits that characters stand for. */
  function DigitsOf(text: string): (ds: seq<nat>)
    requires forall k | 0 <= k < |text| :: IsHex(text[k])
    ensures |ds| == |text| && forall k | 0 <= k < |ds| :: ds[k] == DigitValue(text[k])
  {
    seq(|text|, k requires 0 <= k < |text| => DigitValue(text[k]))
  }

  lemma {:induction false} HexStands(c: char)
    requires IsHex(c)
    ensures Stands(c, DigitValue(c)) && (IsDigit(c) ==> DigitValue(c) < 10)
  {
    var d := DigitValue(c);
    assert "0123456789abcdef"[d] == if d < 10 then ('0' as int + d) as char else ('a' as int + d - 10) as char;
    assert "0123456789ABCDEF"[d] == if d < 10 then ('0' as int + d) as char else ('A' as int + d - 10) as char;
  }

  lemma {:induction false} DigitsStand(text: string, from: nat, base: nat)
    requires from <= |text| && (base == 10 || base == 16)
    requires forall k | from <= k < |text| :: IsHex(text[k]) && (base == 10 ==> IsDigit(text[k]))
    ensures forall k | 0 <= k < |text[from..]| :: IsHex(text[from..][k])
    ensures Digits(text, from, DigitsOf(text[from..]), base)
    ensures NumberValue(text[from..], base) == Sum(DigitsOf(text[from..]), base)
  {
    var ds := DigitsOf(text[from..]);
    forall k | from <= k < from + |ds| ensures Stands(text[k], ds[k - from]) && ds[k - from] < base {
      HexStands(text[k]);
      assert text[from..][k - from] == text[k];
    }
    hide Stands;
    assert text[from..from + |ds|] == text[from..];
    DigitsValue(text, from, ds, base);
  }

  lemma {:induction false} IntScanToken(s: string, i: nat, j: nat, n: nat)
    requires i <= j <= |s| && IntScan(s, i, j, n).item.Lexeme?
    ensures var kind := IntScan(s, i, j, n).item.token.kind;
            && kind.Int? && kind.rawText == s[i..j] && Fits(kind, n)
            && (kind.suffix.Some? ==> IntSuffix(kind.suffix.value))
  {
    hide IntSuffix, INT_SUFFIXES, AsI64;
    Truncated(n);
    SuffixesAre(s[j..SuffixEnd(s, j)]);
  }

  lemma {:induction false} HexToken(s: string, i: nat)
    requires HexPrefix(s, i) && HexScan(s, i).item.Lexeme? && HexScan(s, i).item.token.kind.Int?
    ensures MeansNumber(HexScan(s, i).item.token.kind)
  {
    hide IntScan, NumberValue, Fits, Digits, Sum, IntSuffix;
    var j := StretchEnd(s, i + 2, IsHex);
    var raw := s[i..j];
    assert forall k | 2 <= k < |raw| :: raw[k] == s[i + k];
    assert raw[2..] == s[i + 2..j];
    DigitsStand(raw, 2, 16);
    IntScanToken(s, i, j, NumberValue(s[i + 2..j], 16));
  }

  lemma {:induction false} DecimalToken(s: string, i: nat)
    requires i < |s| && IsDigit(s[i]) && !HexPrefix(s, i)
    requires NumberScan(s, i).item.Lexeme? && NumberScan(s, i).item.token.kind.Int?
    ensures MeansNumber(NumberScan(s, i).item.token.kind)
  {
    hide IntScan, NumberValue, Fits, Digits, Sum, FractionEnd, ExponentEnd, IntSuffix;
    var j := StretchEnd(s, i, IsDigit);
    var raw := s[i..j];
    assert j > i;
    assert forall k | 0 <= k < |raw| :: raw[k] == s[i + k] && IsDigit(raw[k]);
    assert raw[0..] == raw;
    DigitsStand(raw, 0, 10);
    IntScanToken(s, i, j, NumberValue(s[i..j], 10));
  }

  lemma {:induction false} ScannedNumber(s: string, i: nat)
    requires i < |s| && ScanAt(s, i).item.Lexeme? && ScanAt(s, i).item.token.kind.Int?
    ensures MeansNumber(ScanAt(s, i).item.token.kind)
  {
    hide MeansNumber, HexScan, StringBody, TemplateEnd, KEYWORDS, SymbolLength, EscapeAt, SkipChar;
    NumbersFromDigits(s, i);
    NumberStart(s, i);
    if HexPrefix(s, i) {
      HexToken(s, i);
    } else {
      DecimalToken(s, i);
    }
  }

  lemma {:induction false} NumbersFromDigits(s: string, i: nat)
    requires i < |s| && ScanAt(s, i).item.Lexeme? && ScanAt(s, i).item.token.kind.Int?
    ensures IsDigit(s[i])
  {
    hide NumberScan, StringBody, TemplateEnd, KEYWORDS, SymbolLength, EscapeAt, SkipChar;
  }

  /** Every integer token of every text has the value its digits stand for. */
  lemma {:induction false} IntTokensMeanNumbers(s: string, i: nat, k: nat)
    requires i <= |s| && k < |LexFrom(s, i).tokens| && LexFrom(s, i).tokens[k].kind.Int?
    ensures MeansNumber(LexFrom(s, i).tokens[k].kind)
    decreases |s| - i
  {
    hide MeansNumber;
    if i < |s| {
      var scan := ScanAt(s, i);
      TokenFrom(s, i, k);
      hide LexFrom, ScanAt;
      if scan.item.Lexeme? && k == 0 {
        ScannedNumber(s, i);
      } else {
        IntTokensMeanNumbers(s, scan.end, if scan.item.Lexeme? then k - 1 else k);
      }
    }
  }
}
