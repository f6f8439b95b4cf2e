/** Which characters a printed literal escapes, and how. */
module StringEscapes {
  import opened Wrappers
  import opened LiteralValues
  import opened StringLiterals

  /** The text stands for the character in a printed literal: two characters for six of them, a
      code in capital digits without a leading zero for the other codes below a blank and for
      delete, and the character itself for all others. */
  ghost predicate Prints(text: string, c: char) {
    if c == '\\' then text == ['\\', '\\']
    else if c == '"' then text == ['\\', '"']
    else if c == '\n' then text == ['\\', 'n']
    else if c == '\r' then text == ['\\', 'r']
    else if c == '\t' then text == ['\\', 't']
    else if c == '\0' then text == ['\\', '0']
    else if c as int < 0x20 || c as int == 0x7F then
      exists ds :: Capitals(ds) && Sum(ds, 16) == c as int && text == ['\\', 'u', '{'] + Capital(ds) + ['}']
    else text == [c]
  }

  predicate Capitals(ds: seq<nat>) {
    ds != [] && ds[0] != 0 && forall k | 0 <= k < |ds| :: ds[k] < 16
  }

  function Capital(ds: seq<nat>): (text: string)
    requires forall k | 0 <= k < |ds| :: ds[k] < 16
    ensures |text| == |ds| && forall k | 0 <= k < |ds| :: text[k] == "0123456789ABCDEF"[ds[k]]
  {
    seq(|ds|, k requires 0 <= k < |ds| => "0123456789ABCDEF"[ds[k]])
  }

  function HexDigitsOf(n: nat): (ds: seq<nat>)
    requires n < 256
  {
    if n < 16 then [n] else [n / 16, n % 16]
  }

  lemma {:induction false} HexDigitIs(n: nat)
    requires n < 16
    ensures HexDigit(n) == "0123456789ABCDEF"[n]
  {
    assert "0123456789ABCDEF"[n] == if n < 10 then ('0' as int + n) as char else ('A' as int + n - 10) as char;
  }

  lemma {:induction false} SumOne(d: nat)
    ensures Sum([d], 16) == d
  {
    assert [d][1..] == [] && Power(16, 0) == 1;
  }

  lemma {:induction false} HexIsCapital(n: nat)
    requires 1 <= n < 256
    ensures Capitals(HexDigitsOf(n)) && Sum(HexDigitsOf(n), 16) == n && Hex(n) == Capital(HexDigitsOf(n))
  {
    hide Sum;
    if n < 16 {
      SumOne(n);
      HexDigitIs(n);
    } else {
      SumOne(n / 16);
      SumSnoc([n / 16], n % 16, 16);
      assert [n / 16] + [n % 16] == [n / 16, n % 16];
      HexDigitIs(n / 16);
      HexDigitIs(n % 16);
    }
  }

  lemma {:induction false} CharPrints(c: char)
    ensures Prints(EscapedChar(c), c)
  {
    hide Capitals, Sum;
    if IsControl(c) && c !in {'\n', '\r', '\t'} {
      HexIsCapital(c as int);
      hide Hex, HexDigitsOf;
      assert EscapedChar(c) == ['\\', 'u', '{'] + Capital(HexDigitsOf(c as int)) + ['}'];
    }
  }

  lemma {:induction false} EscapedAppend(a: string, b: string)
    ensures Escaped(a + b) == Escaped(a) + Escaped(b)
    decreases |a|
  {
    hide EscapedChar;
    if a == "" {
      assert a + b == b;
    } else {
      assert a + b == [a[0]] + (a[1..] + b) && a == [a[0]] + a[1..];
      EscapedFront(a[0], a[1..] + b);
      EscapedFront(a[0], a[1..]);
      EscapedAppend(a[1..], b);
    }
  }

  /** Every character is printed at its place. */
  lemma {:induction false} PrintedInPlace(v: string, k: nat) returns (text: string)
    requires k < |v|
    ensures Prints(text, v[k])
    ensures Escaped(v) == Escaped(v[..k]) + text + Escaped(v[k + 1..])
  {
    hide EscapedChar, Prints;
    text := EscapedChar(v[k]);
    CharPrints(v[k]);
    assert v == v[..k] + ([v[k]] + v[k + 1..]);
    EscapedAppend(v[..k], [v[k]] + v[k + 1..]);
    EscapedFront(v[k], v[k + 1..]);
  }

  lemma {:induction false} PrintsLength(text: string, c: char)
    requires Prints(text, c)
    ensures if c == '\\' || c == '"' || c as int < 0x20 || c as int == 0x7F then |text| > 1 else text == [c]
  {
  }

  /** A string is printed as it is exactly when it has no backslash, no quote, no code below a
      blank and no delete; otherwise the printed text is longer. */
  lemma {:induction false} PrintedUnchanged(v: string)
    ensures Escaped(v) == v <==>
            forall c <- v :: c != '\\' && c != '"' && c as int >= 0x20 && c as int != 0x7F
    ensures |Escaped(v)| >= |v| && (|Escaped(v)| == |v| ==> Escaped(v) == v)
    decreases |v|
  {
    hide EscapedChar, Prints;
    if v != "" {
      var front, c := v[..|v| - 1], v[|v| - 1];
      PrintedUnchanged(front);
      CharPrints(c);
      PrintsLength(EscapedChar(c), c);
      assert v == front + [c];
      assert Escaped(v) == Escaped(front) + EscapedChar(c);
      assert c in v && forall x :: x in v <==> x in front || x == c;
      if Escaped(v) == v {
        assert |EscapedChar(c)| == 1;
        assert Escaped(front) == Escaped(v)[..|front|];
      }
    }
  }
}
