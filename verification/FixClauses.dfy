/** The effect and capability clauses of an inserted text, and merging two insertions: how a
    clause is found, where it ends, and why it reads the same where the text around it
    changes. */
module FixClauses {
  import opened Wrappers

  // ---- clauses -----------------------------------------------------------------------------

  /** The first position at which `key` occurs. */
  function Find(text: string, key: string): (r: Option<nat>)
    ensures r.Some? ==> r.value + |key| <= |text|
  {
    if |text| < |key| then None
    else if key <= text then Some(0)
    else if text == "" then None
    else
      match Find(text[1..], key)
      case None => None
      case Some(i) => Some(i + 1)
  }

  predicate IsAsciiSpace(c: char) {
    c in {' ', '\t', '\n', '\r', '\U{000C}'}
  }

  function SkipSpaces(text: string, i: nat): (j: nat)
    requires i <= |text|
    ensures i <= j <= |text|
    decreases |text| - i
  {
    if i < |text| && IsAsciiSpace(text[i]) then SkipSpaces(text, i + 1) else i
  }

  function FindClose(text: string, i: nat): (j: nat)
    requires i <= |text|
    ensures i <= j <= |text|
    decreases |text| - i
  {
    if i < |text| && text[i] != '}' then FindClose(text, i + 1) else i
  }

  /** The clause whose keyword starts at `idx`, up to its closing brace. */
  function ClauseAt(text: string, idx: nat, keyword: string): Option<string>
    requires idx + |keyword| <= |text|
  {
    var open := SkipSpaces(text, idx + |keyword|);
    if open >= |text| || text[open] != '{' then None
    else
      var end := FindClose(text, open + 1);
      if end >= |text| then None else Some(text[idx..end + 1])
  }

  function ExtractNamedClause(text: string, keyword: string): Option<string> {
    match Find(text, keyword)
    case None => None
    case Some(idx) => ClauseAt(text, idx, keyword)
  }

  function OrElse(a: Option<string>, b: Option<string>): Option<string> {
    if a.Some? then a else b
  }

  predicate StartsWithSpace(text: string) { text != "" && text[0] == ' ' }

  predicate EndsWithSpace(text: string) { text != "" && text[|text| - 1] == ' ' }

  /** The candidate's clause, or else the existing one. */
  function Chosen(existing: string, candidate: string, keyword: string): Option<string> {
    OrElse(ExtractNamedClause(candidate, keyword), ExtractNamedClause(existing, keyword))
  }

  function LeadingOf(existing: string, candidate: string): string {
    if StartsWithSpace(existing) || StartsWithSpace(candidate) then " " else ""
  }

  function TrailingOf(existing: string, candidate: string): string {
    if EndsWithSpace(existing) || EndsWithSpace(candidate) then " " else ""
  }

  function Joined(effect: Option<string>, capability: Option<string>): string {
    if effect.None? then (if capability.None? then "" else capability.value)
    else if capability.None? then effect.value
    else effect.value + " " + capability.value
  }

  /** The text of two insertions folded into one. */
  function Merge(existing: string, candidate: string): Option<string> {
    var effect, capability := Chosen(existing, candidate, "effects"), Chosen(existing, candidate, "capabilities");
    if effect.None? && capability.None? then None
    else Some(LeadingOf(existing, candidate) + Joined(effect, capability) + TrailingOf(existing, candidate))
  }

  /** The reading loops: to the brace, then to the closing one. */
  method ReadNamedClause(text: string, keyword: string) returns (clause: Option<string>)
    ensures clause == ExtractNamedClause(text, keyword)
  {
    var found := Find(text, keyword);
    if found.None? {
      return None;
    }
    var idx := found.value;
    var cursor := idx + |keyword|;
    while cursor < |text| && IsAsciiSpace(text[cursor])
      invariant idx + |keyword| <= cursor <= |text|
      invariant SkipSpaces(text, cursor) == SkipSpaces(text, idx + |keyword|)
    {
      cursor := cursor + 1;
    }
    if cursor >= |text| || text[cursor] != '{' {
      return None;
    }
    var end := cursor + 1;
    while end < |text| && text[end] != '}'
      invariant cursor < end <= |text| && FindClose(text, end) == FindClose(text, cursor + 1)
    {
      end := end + 1;
    }
    if end >= |text| {
      return None;
    }
    clause := Some(text[idx..end + 1]);
  }

  // ---- what merging keeps ----------------------------------------------------------------

  lemma {:induction false} FindIsFirst(text: string, key: string, n: nat)
    requires n <= |text| && key <= text[n..] && forall p | 0 <= p < n :: !(key <= text[p..])
    ensures Find(text, key) == Some(n)
  {
    assert text[0..] == text;
    if n > 0 {
      forall p | 0 <= p < n - 1 ensures !(key <= text[1..][p..]) {
        assert text[1..][p..] == text[p + 1..];
      }
      assert text[1..][n - 1..] == text[n..];
      FindIsFirst(text[1..], key, n - 1);
    }
  }

  lemma {:induction false} FindMisses(text: string, key: string, p: nat)
    requires Find(text, key).None? && p <= |text|
    ensures !(key <= text[p..])
    decreases |text|
  {
    if p == 0 {
      assert text[0..] == text;
    } else if |key| <= |text| {
      FindMisses(text[1..], key, p - 1);
      assert text[1..][p - 1..] == text[p..];
    }
  }

  lemma {:induction false} FindOccurs(text: string, key: string)
    requires Find(text, key).Some?
    ensures key <= text[Find(text, key).value..]
  {
    if !(key <= text) {
      FindOccurs(text[1..], key);
      var i := Find(text[1..], key).value;
      assert text[1..][i..] == text[i + 1..];
    } else {
      assert text[0..] == text;
    }
  }

  lemma {:induction false} SkipsAlike(s: string, i: nat, t: string, j: nat, n: nat)
    requires i + n <= |s| && j + n <= |t| && s[i..i + n] == t[j..j + n] && SkipSpaces(s, i) < i + n
    ensures SkipSpaces(t, j) - j == SkipSpaces(s, i) - i
    decreases n
  {
    assert s[i..i + n][0] == s[i] && t[j..j + n][0] == t[j];
    if IsAsciiSpace(s[i]) {
      assert s[i + 1..i + n] == s[i..i + n][1..] && t[j + 1..j + n] == t[j..j + n][1..];
      SkipsAlike(s, i + 1, t, j + 1, n - 1);
    }
  }

  lemma {:induction false} ClosesAlike(s: string, i: nat, t: string, j: nat, n: nat)
    requires i + n <= |s| && j + n <= |t| && s[i..i + n] == t[j..j + n] && FindClose(s, i) < i + n
    ensures FindClose(t, j) - j == FindClose(s, i) - i
    decreases n
  {
    assert s[i..i + n][0] == s[i] && t[j..j + n][0] == t[j];
    if s[i] != '}' {
      assert s[i + 1..i + n] == s[i..i + n][1..] && t[j + 1..j + n] == t[j..j + n][1..];
      ClosesAlike(s, i + 1, t, j + 1, n - 1);
    }
  }

  lemma {:induction false} CloseFound(text: string, i: nat)
    requires i <= |text| && FindClose(text, i) < |text|
    ensures text[FindClose(text, i)] == '}'
    decreases |text| - i
  {
    if text[i] != '}' {
      CloseFound(text, i + 1);
    }
  }

  lemma {:induction false} ClauseShape(text: string, keyword: string)
    requires ExtractNamedClause(text, keyword).Some?
    ensures var clause := ExtractNamedClause(text, keyword).value;
            keyword <= clause && |clause| > |keyword| && clause[|clause| - 1] == '}'
  {
    FindOccurs(text, keyword);
    hide Find, SkipSpaces, FindClose;
    var idx := Find(text, keyword).value;
    var open := SkipSpaces(text, idx + |keyword|);
    var end := FindClose(text, open + 1);
    CloseFound(text, open + 1);
    PrefixOfSlice(text, keyword, idx, end + 1);
  }

  lemma {:induction false} PrefixOfSlice(text: string, keyword: string, idx: nat, end: nat)
    requires idx + |keyword| < end <= |text| && keyword <= text[idx..]
    ensures keyword <= text[idx..end] && text[idx..end][|text[idx..end]| - 1] == text[end - 1]
  {
  }

  lemma {:induction false} SliceOf(s: string, i: nat, clause: string, k: nat)
    requires i + |clause| <= |s| && s[i..i + |clause|] == clause && k <= |clause|
    ensures s[i + k..i + |clause|] == clause[k..]
    ensures k < |clause| ==> s[i + k] == clause[k]
  {
    assert s[i..i + |clause|][k..] == s[i + k..i + |clause|];
  }

  lemma {:induction false} OpensAlike(text: string, idx: nat, w: nat, whole: string, n: nat, clause: string)
    requires idx + |clause| <= |text| && text[idx..idx + |clause|] == clause && w <= |clause|
    requires n + |clause| <= |whole| && whole[n..n + |clause|] == clause
    requires SkipSpaces(text, idx + w) < idx + |clause|
    ensures SkipSpaces(whole, n + w) - n == SkipSpaces(text, idx + w) - idx
    ensures whole[SkipSpaces(whole, n + w)] == text[SkipSpaces(text, idx + w)]
  {
    hide SkipSpaces;
    SliceOf(text, idx, clause, w);
    SliceOf(whole, n, clause, w);
    SkipsAlike(text, idx + w, whole, n + w, |clause| - w);
    SliceOf(text, idx, clause, SkipSpaces(text, idx + w) - idx);
    SliceOf(whole, n, clause, SkipSpaces(text, idx + w) - idx);
  }

  lemma {:induction false} EndsAlike(text: string, idx: nat, w: nat, whole: string, n: nat, clause: string)
    requires idx + |clause| <= |text| && text[idx..idx + |clause|] == clause && w <= |clause|
    requires n + |clause| <= |whole| && whole[n..n + |clause|] == clause
    requires FindClose(text, idx + w) < idx + |clause|
    ensures FindClose(whole, n + w) - n == FindClose(text, idx + w) - idx
  {
    hide FindClose;
    SliceOf(text, idx, clause, w);
    SliceOf(whole, n, clause, w);
    ClosesAlike(text, idx + w, whole, n + w, |clause| - w);
  }

  /** The same clause elsewhere. */
  lemma {:induction false} ClauseMoves(text: string, idx: nat, keyword: string, whole: string, n: nat)
    requires idx + |keyword| <= |text| && ClauseAt(text, idx, keyword).Some?
    requires var clause := ClauseAt(text, idx, keyword).value;
             && n + |clause| <= |whole| && |keyword| <= |clause| && whole[n..n + |clause|] == clause
    ensures n + |keyword| <= |whole| && ClauseAt(whole, n, keyword) == ClauseAt(text, idx, keyword)
  {
    hide SkipSpaces, FindClose;
    var clause := ClauseAt(text, idx, keyword).value;
    var w := |keyword|;
    var open := SkipSpaces(text, idx + w);
    var end := FindClose(text, open + 1);
    assert |clause| == end + 1 - idx && text[idx..idx + |clause|] == clause;
    OpensAlike(text, idx, w, whole, n, clause);
    EndsAlike(text, idx, open + 1 - idx, whole, n, clause);
  }

  /** A clause put into another text is extracted from it again, if its keyword occurs
      nowhere before it. */
  lemma {:induction false} ClauseReadsBack(text: string, keyword: string, front: string, rest: string)
    requires ExtractNamedClause(text, keyword).Some?
    requires forall p | 0 <= p < |front| :: !(keyword <= (front + ExtractNamedClause(text, keyword).value + rest)[p..])
    ensures ExtractNamedClause(front + ExtractNamedClause(text, keyword).value + rest, keyword) ==
              ExtractNamedClause(text, keyword)
  {
    ClauseShape(text, keyword);
    hide Find, ClauseAt;
    var clause := ExtractNamedClause(text, keyword).value;
    var whole := front + clause + rest;
    var n := |front|;
    assert whole[n..] == clause + rest && (clause + rest)[..|keyword|] == clause[..|keyword|];
    FindIsFirst(whole, keyword, n);
    assert whole[n..n + |clause|] == clause;
    ClauseMoves(text, Find(text, keyword).value, keyword, whole, n);
  }

  /** The chosen clause is one of the two texts' own. */
  lemma {:induction false} ChosenFrom(existing: string, candidate: string, keyword: string) returns (text: string)
    requires Chosen(existing, candidate, keyword).Some?
    ensures ExtractNamedClause(text, keyword) == Chosen(existing, candidate, keyword)
  {
    text := if ExtractNamedClause(candidate, keyword).Some? then candidate else existing;
  }

  lemma {:induction false} OccursWithin(e: string, key: string, whole: string, at: nat, q: nat)
    requires q < |e| && e[|e| - 1] == '}' && '}' !in key
    requires at + |e| <= |whole| && whole[at..at + |e|] == e && key <= whole[at + q..]
    ensures key <= e[q..]
  {
    SliceOf(whole, at, e, q);
    var tail := whole[at + q..];
    assert tail[..|e| - q] == e[q..];
    assert e[q..][|e| - q - 1] == '}';
    assert forall k | 0 <= k < |key| :: key[k] == tail[k];
  }

  lemma {:induction false} NoEarlierKey(key: string, leading: string, e: string, rest: string, p: nat)
    requires key != "" && key[0] != ' ' && '}' !in key && (leading == "" || leading == " ")
    requires e != "" && e[|e| - 1] == '}' && Find(e, key).None?
    requires p < |leading + e + " "|
    ensures !(key <= (leading + e + " " + rest)[p..])
  {
    hide Find;
    var whole := leading + e + " " + rest;
    assert whole[p..][0] == whole[p];
    if |leading| <= p < |leading| + |e| {
      assert whole[|leading|..|leading| + |e|] == e;
      FindMisses(e, key, p - |leading|);
      if key <= whole[p..] {
        OccursWithin(e, key, whole, |leading|, p - |leading|);
      }
    } else {
      assert whole[p] == ' ';
    }
  }

  lemma {:induction false} NoKeyInSpace(key: string, leading: string, rest: string, p: nat)
    requires key != "" && key[0] != ' ' && (leading == "" || leading == " ") && p < |leading|
    ensures !(key <= (leading + rest)[p..])
  {
    assert (leading + rest)[p..][0] == ' ';
  }

  lemma {:induction false} ChosenEndsInBrace(existing: string, candidate: string, keyword: string)
    requires Chosen(existing, candidate, keyword).Some?
    ensures var clause := Chosen(existing, candidate, keyword).value; clause != "" && clause[|clause| - 1] == '}'
  {
    var text := ChosenFrom(existing, candidate, keyword);
    hide ExtractNamedClause, Chosen;
    ClauseShape(text, keyword);
  }

  lemma {:induction false} FindFirst(text: string, key: string, q: nat)
    requires Find(text, key).Some? && q < Find(text, key).value
    ensures !(key <= text[q..])
  {
    if q == 0 {
      assert text[0..] == text;
    } else {
      FindFirst(text[1..], key, q - 1);
      assert text[1..][q - 1..] == text[q..];
    }
  }

  lemma {:induction false} SkipStops(s: string, i: nat, j: nat)
    requires i <= j < |s| && !IsAsciiSpace(s[j])
    ensures SkipSpaces(s, i) <= j
    decreases j - i
  {
    if i < j && IsAsciiSpace(s[i]) {
      SkipStops(s, i + 1, j);
    }
  }

  lemma {:induction false} CloseStops(s: string, i: nat, j: nat)
    requires i <= j < |s| && s[j] == '}'
    ensures FindClose(s, i) <= j
    decreases j - i
  {
    if i < j && s[i] != '}' {
      CloseStops(s, i + 1, j);
    }
  }

  /** A word inside `e`, which ends in a brace, ends before that brace. */
  lemma {:induction false} WordInside(e: string, p: nat, key: string)
    requires e != "" && e[|e| - 1] == '}' && '}' !in key && p < |e| && key <= e[p..]
    ensures p + |key| < |e|
  {
    var rest := e[p..];
    assert rest[|rest| - 1] == '}';
    assert forall k | 0 <= k < |key| :: key[k] == rest[k];
  }

  lemma {:induction false} SliceInSlice(whole: string, at: nat, e: string, p: nat, q: nat)
    requires at + |e| <= |whole| && whole[at..at + |e|] == e && p <= q <= |e|
    ensures whole[at + p..at + q] == e[p..q]
  {
    SliceOf(whole, at, e, p);
    assert whole[at + p..at + q] == whole[at + p..at + |e|][..q - p];
    assert e[p..q] == e[p..][..q - p];
  }

  lemma {:induction false} OpenWithin(e: string, i: nat, whole: string, at: nat)
    requires e != "" && e[|e| - 1] == '}' && i < |e|
    requires at + |e| <= |whole| && whole[at..at + |e|] == e
    ensures SkipSpaces(e, i) < |e| && SkipSpaces(whole, at + i) == at + SkipSpaces(e, i)
    ensures whole[at + SkipSpaces(e, i)] == e[SkipSpaces(e, i)]
  {
    hide SkipSpaces;
    SkipStops(e, i, |e| - 1);
    assert e[0..|e|] == e;
    OpensAlike(e, 0, i, whole, at, e);
  }

  lemma {:induction false} CloseWithin(e: string, i: nat, whole: string, at: nat)
    requires e != "" && e[|e| - 1] == '}' && i < |e|
    requires at + |e| <= |whole| && whole[at..at + |e|] == e
    ensures FindClose(e, i) < |e| && FindClose(whole, at + i) == at + FindClose(e, i)
  {
    hide FindClose;
    CloseStops(e, i, |e| - 1);
    assert e[0..|e|] == e;
    EndsAlike(e, 0, i, whole, at, e);
  }

  /** Reading a clause at a word inside `e` does not depend on what surrounds `e`. */
  lemma {:induction false} ClauseWithin(e: string, p: nat, key: string, whole: string, at: nat)
    requires e != "" && e[|e| - 1] == '}' && p + |key| < |e|
    requires at + |e| <= |whole| && whole[at..at + |e|] == e
    ensures ClauseAt(whole, at + p, key) == ClauseAt(e, p, key)
  {
    hide SkipSpaces, FindClose;
    OpenWithin(e, p + |key|, whole, at);
    var open := SkipSpaces(e, p + |key|);
    if e[open] == '{' {
      CloseWithin(e, open + 1, whole, at);
      SliceInSlice(whole, at, e, p, FindClose(e, open + 1) + 1);
    }
  }

  lemma {:induction false} PrefixInSlice(whole: string, at: nat, e: string, p: nat, key: string)
    requires at + |e| <= |whole| && whole[at..at + |e|] == e && p <= |e| && key <= e[p..]
    ensures key <= whole[at + p..]
  {
    SliceOf(whole, at, e, p);
    assert whole[at + p..][..|e| - p] == e[p..];
    assert whole[at + p..][..|key|] == e[p..][..|key|];
  }

  lemma {:induction false} NoneBefore(key: string, leading: string, e: string, rest: string, q: nat)
    requires key != "" && key[0] != ' ' && '}' !in key && (leading == "" || leading == " ")
    requires e != "" && e[|e| - 1] == '}' && Find(e, key).Some? && q < |leading| + Find(e, key).value
    ensures !(key <= (leading + e + rest)[q..])
  {
    hide Find;
    var whole, at := leading + e + rest, |leading|;
    if q < at {
      assert whole == leading + (e + rest);
      NoKeyInSpace(key, leading, e + rest, q);
    } else {
      assert whole[at..at + |e|] == e;
      if key <= whole[q..] {
        OccursWithin(e, key, whole, at, q - at);
        FindFirst(e, key, q - at);
      }
    }
  }

  /** A word inside the effect clause is the first in the merged text, and decides what is
      read there. */
  lemma {:induction false} WordInEffect(key: string, leading: string, e: string, rest: string)
    requires key != "" && key[0] != ' ' && '}' !in key && (leading == "" || leading == " ")
    requires e != "" && e[|e| - 1] == '}' && Find(e, key).Some?
    ensures ExtractNamedClause(leading + e + rest, key) == ExtractNamedClause(e, key)
  {
    hide Find, ClauseAt;
    var whole, at, p := leading + e + rest, |leading|, Find(e, key).value;
    FindOccurs(e, key);
    WordInside(e, p, key);
    assert whole[at..at + |e|] == e;
    ClauseWithin(e, p, key, whole, at);
    PrefixInSlice(whole, at, e, p, key);
    forall q | 0 <= q < at + p ensures !(key <= whole[q..]) {
      NoneBefore(key, leading, e, rest, q);
    }
    FindIsFirst(whole, key, at + p);
  }

  lemma {:induction false} FindNeeds(text: string, key: string, c: char)
    requires c in key && c !in text
    ensures Find(text, key).None?
  {
    if |key| <= |text| {
      var k :| 0 <= k < |key| && key[k] == c;
      assert text[k] != key[k];
      FindNeeds(text[1..], key, c);
    }
  }

  lemma {:induction false} CloseIs(s: string, i: nat, j: nat)
    requires i <= j < |s| && s[j] == '}' && forall k | i <= k < j :: s[k] != '}'
    ensures FindClose(s, i) == j
    decreases j - i
  {
    if i < j {
      CloseIs(s, i + 1, j);
    }
  }

  /** A clause without spaces that fills its text. */
  lemma {:induction false} BareClause(key: string, inner: string)
    requires '}' !in inner
    ensures ExtractNamedClause(key + "{" + inner + "}", key) == Some(key + "{" + inner + "}")
  {
    var text := key + "{" + inner + "}";
    assert text[0..] == text && text[..|key|] == key;
    FindIsFirst(text, key, 0);
    assert text[|key|] == '{' && text[|text| - 1] == '}';
    assert SkipSpaces(text, |key|) == |key|;
    forall k | |key| + 1 <= k < |text| - 1 ensures text[k] != '}' {
      assert text[k] == inner[k - |key| - 1];
    }
    CloseIs(text, |key| + 1, |text| - 1);
    assert text[0..|text|] == text;
  }
}
