/** What becomes of every suggested edit, and what a clause is. */
module FixDecisions {
  import opened Wrappers
  import opened FixPlan
  import opened FixCandidates
  import opened FixClauses

  // ---- accepted or reported -----------------------------------------------------------------------

  /** Texts at the place of the edit are never merged: it replaces something, or no edit there has a
      code of the effect and capability fixes. */
  ghost predicate Unmerged(cs: seq<Candidate>, c: Candidate) {
    c.start < c.end || forall k | 0 <= k < |cs| && SameRange(cs[k], c) :: cs[k].code !in {"E2001", "E2005", "E2009"}
  }

  predicate Held(accepted: seq<Candidate>, c: Candidate) {
    exists a <- accepted :: Duplicate(a, c)
  }

  predicate Reported(conflicts: seq<Conflict>, c: Candidate) {
    exists x <- conflicts :: x.candidate == c
  }

  ghost predicate Decided(plan: Plan, seen: seq<Candidate>, c: Candidate) {
    && (c in seen ==> Held(plan.accepted, c) || Reported(plan.conflicts, c))
    && !(Held(plan.accepted, c) && Reported(plan.conflicts, c))
    && forall a <- plan.accepted | SameRange(a, c) :: a in seen
  }

  /** An edit added to the plan does not make a rejected one accepted. */
  lemma {:induction false} AddedDecided(plan: Plan, seen: seq<Candidate>, d: Candidate, c: Candidate)
    requires Decided(plan, seen, c) && Sound(plan, seen) && forall a <- plan.accepted :: !Clash(a, d)
    ensures Decided(plan.(accepted := plan.accepted + [d]), seen + [d], c)
  {
    hide Clash, PairwiseApart, Stems, Overlaps;
    var accepted := plan.accepted;
    if Held(accepted + [d], c) && Reported(plan.conflicts, c) {
      var x :| x in plan.conflicts && x.candidate == c;
      SoundConflict(plan, seen, x);
      var i :| 0 <= i < |accepted| && Clash(accepted[i], c);
      assert accepted[i] in accepted;
      assert SameRange(d, c);
      ClashOfRange(accepted[i], c, d);
      assert false;
    }
    assert forall a <- accepted :: a in accepted + [d];
    assert d in accepted + [d];
    assert c == d ==> Duplicate(d, c);
  }

  lemma {:induction false} ClashOfRange(a: Candidate, c: Candidate, d: Candidate)
    requires SameRange(d, c)
    ensures Clash(a, c) == Clash(a, d)
  {
  }

  /** A text merged elsewhere decides nothing here. */
  lemma {:induction false} MergedDecided(plan: Plan, seen: seq<Candidate>, d: Candidate, c: Candidate, i: nat,
                                         text: string)
    requires Decided(plan, seen, c) && i < |plan.accepted| && SameRange(plan.accepted[i], d) && !SameRange(d, c)
    ensures Decided(plan.(accepted := plan.accepted[i := plan.accepted[i].(replacement := text)]), seen + [d], c)
  {
    var accepted := plan.accepted;
    var next := accepted[i := accepted[i].(replacement := text)];
    forall a | a in next && SameRange(a, c) ensures a in accepted {
      var k :| 0 <= k < |next| && next[k] == a;
      assert k != i && accepted[k] == a;
    }
    forall a | a in accepted && SameRange(a, c) ensures a in next {
      var k :| 0 <= k < |accepted| && accepted[k] == a;
      assert k != i && next[k] == a;
    }
  }

  lemma {:induction false} RejectedDecided(plan: Plan, seen: seq<Candidate>, d: Candidate, c: Candidate, x: Conflict)
    requires Decided(plan, seen, c) && x.candidate == d && !Held(plan.accepted, d)
    ensures Decided(plan.(conflicts := plan.conflicts + [x]), seen + [d], c)
  {
    assert x in plan.conflicts + [x];
    assert forall y <- plan.conflicts :: y in plan.conflicts + [x];
  }

  lemma {:induction false} StepDecided(plan: Plan, seen: seq<Candidate>, d: Candidate, c: Candidate)
    requires Decided(plan, seen, c) && Sound(plan, seen) && Unmerged(seen + [d], c)
    ensures Decided(Step(plan, d), seen + [d], c)
  {
    hide Decided, Sound, FixClauses.Merge, Clash;
    var accepted := plan.accepted;
    var h := FirstIndex(accepted, a => Duplicate(a, d));
    var i := FirstIndex(accepted, a => SameInsertion(a, d));
    var k := FirstIndex(accepted, a => Clash(a, d));
    if h < |accepted| {
      HeldDecided(plan, seen, d, c, h);
    } else if i < |accepted| && TryMerge(accepted[i], d).Some? {
      assert (seen + [d])[|seen|] == d;
      MergedDecided(plan, seen, d, c, i, TryMerge(accepted[i], d).value);
    } else if k < |accepted| {
      RejectedDecided(plan, seen, d, c, Conflict(d, accepted[k].code, accepted[k].start, accepted[k].end));
    } else {
      AddedDecided(plan, seen, d, c);
    }
  }

  lemma {:induction false} HeldDecided(plan: Plan, seen: seq<Candidate>, d: Candidate, c: Candidate, h: nat)
    requires Decided(plan, seen, c) && h < |plan.accepted| && Duplicate(plan.accepted[h], d)
    ensures Decided(plan, seen + [d], c)
  {
    assert plan.accepted[h] in plan.accepted;
  }

  lemma {:induction false} GreedyDecided(plan: Plan, seen: seq<Candidate>, cs: seq<Candidate>, c: Candidate)
    requires Decided(plan, seen, c) && Sound(plan, seen) && WellFormed(cs) && Unmerged(seen + cs, c)
    ensures Decided(Greedy(plan, cs), seen + cs, c)
    decreases |cs|
  {
    hide Step, Sound, Decided;
    if cs == [] {
      assert seen + cs == seen;
    } else {
      var now, later := seen + [cs[0]], cs[1..];
      assert now + later == seen + cs;
      assert forall k | 0 <= k < |now| :: now[k] == (seen + cs)[k];
      StepSound(plan, seen, cs[0]);
      StepDecided(plan, seen, cs[0], c);
      GreedyDecided(Step(plan, cs[0]), now, later, c);
    }
  }

  /** Where texts are not merged, an edit is reported as rejected exactly when it is suggested and the
      plan has no edit of its range and text; and the plan's edits there are suggested as they are. */
  lemma {:induction false} ConflictsExactly(ds: seq<Diagnostic>, c: Candidate)
    requires c.start < c.end || forall d | SuggestedBy(ds, d) && d.file == c.file && d.start == d.end == c.start ::
               d.code !in {"E2001", "E2005", "E2009"}
    ensures var plan := SafeFixPlan(ds);
            && ((exists x <- plan.conflicts :: x.candidate == c) <==>
                SuggestedBy(ds, c) && !exists a <- plan.accepted ::
                  a.file == c.file && a.start == c.start && a.end == c.end && a.replacement == c.replacement)
            && forall a <- plan.accepted | a.file == c.file && a.start == c.start && a.end == c.end ::
                 SuggestedBy(ds, a)
  {
    hide Candidates, InOrder, Greedy, SuggestedBy, Sound, ConflictHolds;
    var sorted, plan := InOrder(Candidates(ds)), SafeFixPlan(ds);
    SortedPlanSound(ds);
    SortedSuggested(ds);
    assert [] + sorted == sorted;
    NothingYet();
    GreedyDecided(Plan([], []), [], sorted, c);
    if Reported(plan.conflicts, c) {
      var x :| x in plan.conflicts && x.candidate == c;
      SoundConflict(plan, sorted, x);
    }
    HeldMeans(plan.accepted, c);
  }

  lemma {:induction false} NothingYet()
    ensures Sound(Plan([], []), [])
  {
  }

  lemma {:induction false} HeldMeans(accepted: seq<Candidate>, c: Candidate)
    ensures Held(accepted, c) <==> exists a <- accepted ::
              a.file == c.file && a.start == c.start && a.end == c.end && a.replacement == c.replacement
  {
  }

  lemma {:induction false} SortedSuggested(ds: seq<Diagnostic>)
    ensures WellFormed(InOrder(Candidates(ds)))
    ensures forall c :: c in InOrder(Candidates(ds)) <==> SuggestedBy(ds, c)
  {
    hide Candidates, InOrder, SuggestedBy, Sound, SafeFixPlan;
    var sorted := InOrder(Candidates(ds));
    SortedPlanSound(ds);
    forall c ensures c in sorted <==> SuggestedBy(ds, c) {
      ConsideredExactly(ds, c);
    }
    forall k | 0 <= k < |sorted| ensures sorted[k].start <= sorted[k].end {
      CandidatesRanged(ds, sorted[k]);
    }
  }

  // ---- the winner ------------------------------------------------------------------------------------

  ghost predicate Beaten(x: Conflict, seen: seq<Candidate>) {
    exists w <- seen ::
      && w.file == x.candidate.file && w.code == x.withCode && w.start == x.withStart && w.end == x.withEnd
      && ConsideredFirst(w, x.candidate)
  }

  ghost predicate AllBeaten(conflicts: seq<Conflict>, seen: seq<Candidate>) {
    forall x <- conflicts :: Beaten(x, seen)
  }

  lemma {:induction false} StepBeaten(plan: Plan, seen: seq<Candidate>, c: Candidate)
    requires Sound(plan, seen) && AllBeaten(plan.conflicts, seen)
    requires forall w <- seen :: ConsideredFirst(w, c)
    ensures AllBeaten(Step(plan, c).conflicts, seen + [c])
  {
    hide ConsideredFirst, TryMerge, Sound;
    var accepted := plan.accepted;
    var k := FirstIndex(accepted, a => Clash(a, c));
    if Step(plan, c).conflicts != plan.conflicts {
      SoundStems(plan, seen, accepted[k]);
      var x := Conflict(c, accepted[k].code, accepted[k].start, accepted[k].end);
      var w :| w in seen && accepted[k] == w.(replacement := accepted[k].replacement);
      assert Beaten(x, seen);
      assert Step(plan, c).conflicts == plan.conflicts + [x];
    }
    forall x | x in Step(plan, c).conflicts ensures Beaten(x, seen + [c]) {
      assert Beaten(x, seen);
      assert forall w <- seen :: w in seen + [c];
    }
  }

  lemma {:induction false} GreedyBeaten(plan: Plan, seen: seq<Candidate>, cs: seq<Candidate>)
    requires Sound(plan, seen) && AllBeaten(plan.conflicts, seen) && WellFormed(cs)
    requires forall i, j | 0 <= i < j < |seen + cs| :: ConsideredFirst((seen + cs)[i], (seen + cs)[j])
    ensures AllBeaten(Greedy(plan, cs).conflicts, seen + cs)
    decreases |cs|
  {
    hide Step, Sound, AllBeaten, ConsideredFirst;
    if cs == [] {
      assert seen + cs == seen;
    } else {
      forall w | w in seen ensures ConsideredFirst(w, cs[0]) {
        var k :| 0 <= k < |seen| && seen[k] == w;
        assert (seen + cs)[k] == w && (seen + cs)[|seen|] == cs[0];
      }
      StepSound(plan, seen, cs[0]);
      StepBeaten(plan, seen, cs[0]);
      assert seen + [cs[0]] + cs[1..] == seen + cs;
      GreedyBeaten(Step(plan, cs[0]), seen + [cs[0]], cs[1..]);
    }
  }

  lemma {:induction false} SortedBeaten(ds: seq<Diagnostic>)
    ensures AllBeaten(SafeFixPlan(ds).conflicts, InOrder(Candidates(ds)))
  {
    hide Candidates, InOrder, Greedy, Step, Sound, Beaten, ConsideredFirst, SuggestedBy;
    var sorted := InOrder(Candidates(ds));
    SortedSuggested(ds);
    NothingYet();
    assert [] + sorted == sorted;
    forall i, j | 0 <= i < j < |sorted| ensures ConsideredFirst(sorted[i], sorted[j]) {
      ConsideredInOrder(ds, i, j);
    }
    GreedyBeaten(Plan([], []), [], sorted);
  }

  /** A rejected edit names a suggested one that was considered before it: by start, end, text, message
      and code. */
  lemma {:induction false} WinnerConsideredFirst(ds: seq<Diagnostic>, x: Conflict)
    requires x in SafeFixPlan(ds).conflicts
    ensures exists w | SuggestedBy(ds, w) ::
              && w.file == x.candidate.file && w.code == x.withCode && w.start == x.withStart && w.end == x.withEnd
              && ConsideredFirst(w, x.candidate)
  {
    hide SafeFixPlan, Candidates, InOrder, ConsideredFirst, SuggestedBy;
    SortedSuggested(ds);
    SortedBeaten(ds);
    assert Beaten(x, InOrder(Candidates(ds)));
  }

  lemma {:induction false} NotBeforeItself(a: string)
    ensures !TextBefore(a, a)
  {
  }

  /** A rejected edit lost to one that starts before it, or starts with it and ends no later. */
  lemma {:induction false} WinnerStartsFirst(ds: seq<Diagnostic>, x: Conflict)
    requires x in SafeFixPlan(ds).conflicts
    ensures x.withStart < x.candidate.start || (x.withStart == x.candidate.start && x.withEnd <= x.candidate.end)
  {
    hide SafeFixPlan, SuggestedBy, TextBefore, TextFirst;
    WinnerConsideredFirst(ds, x);
    NotBeforeItself(x.candidate.file);
  }

  // ---- clauses ----------------------------------------------------------------------------------------

  predicate FirstAt(text: string, key: string, i: nat) {
    i <= |text| && key <= text[i..] && forall p | 0 <= p < i :: !(key <= text[p..])
  }

  /** The clause stands where the word first occurs. */
  predicate StandsFirst(text: string, key: string, i: nat, clause: string) {
    FirstAt(text, key, i) && clause <= text[i..]
  }

  /** The word, white space, and everything in the braces up to the first closing one. */
  predicate IsClause(clause: string, key: string, gap: string, body: string) {
    && clause == key + gap + "{" + body + "}" && '}' !in body
    && forall c <- gap :: c == ' ' || c == '\t' || c == '\n' || c == '\r' || c == '\U{000C}'
  }

  lemma {:induction false} SkipsGap(text: string, i: nat, gap: string)
    requires i + |gap| < |text| && text[i..i + |gap|] == gap && text[i + |gap|] == '{'
    requires forall c <- gap :: IsAsciiSpace(c)
    ensures SkipSpaces(text, i) == i + |gap|
    decreases |gap|
  {
    if gap != "" {
      assert text[i] == gap[0] && text[i + 1..i + |gap|] == gap[1..];
      SkipsGap(text, i + 1, gap[1..]);
    }
  }

  lemma {:induction false} ClosesBody(text: string, i: nat, body: string)
    requires i + |body| < |text| && text[i..i + |body|] == body && text[i + |body|] == '}' && '}' !in body
    ensures FindClose(text, i) == i + |body|
    decreases |body|
  {
    if body != "" {
      assert text[i] == body[0] && text[i + 1..i + |body|] == body[1..];
      ClosesBody(text, i + 1, body[1..]);
    }
  }

  lemma {:induction false} SkippedAre(text: string, i: nat)
    requires i <= |text|
    ensures forall k | i <= k < SkipSpaces(text, i) :: IsAsciiSpace(text[k])
    decreases |text| - i
  {
    if i < |text| && IsAsciiSpace(text[i]) {
      SkippedAre(text, i + 1);
    }
  }

  lemma {:induction false} NotClosedBefore(text: string, i: nat)
    requires i <= |text|
    ensures forall k | i <= k < FindClose(text, i) :: text[k] != '}'
    decreases |text| - i
  {
    if i < |text| && text[i] != '}' {
      NotClosedBefore(text, i + 1);
    }
  }

  lemma {:induction false} ClauseReads(text: string, key: string, i: nat, clause: string, gap: string, body: string)
    requires key != "" && StandsFirst(text, key, i, clause) && IsClause(clause, key, gap, body)
    ensures ExtractNamedClause(text, key) == Some(clause)
  {
    hide Find, SkipSpaces, FindClose;
    FindIsFirst(text, key, i);
    var open := i + |key| + |gap|;
    var front := text[i..i + |clause|];
    assert front == clause;
    assert text[i + |key|..open] == gap by {
      assert front[|key|..|key| + |gap|] == gap;
    }
    assert text[open] == front[|key| + |gap|] == '{';
    assert text[open + 1..open + 1 + |body|] == body by {
      assert front[|key| + |gap| + 1..|key| + |gap| + 1 + |body|] == body;
    }
    assert text[open + 1 + |body|] == front[|clause| - 1] == '}';
    SkipsGap(text, i + |key|, gap);
    ClosesBody(text, open + 1, body);
  }

  lemma {:induction false} FoundFirst(text: string, key: string)
    requires key != "" && Find(text, key).Some?
    ensures FirstAt(text, key, Find(text, key).value)
  {
    if !(key <= text) {
      FoundFirst(text[1..], key);
      var i := Find(text[1..], key).value;
      assert text[1..][i..] == text[i + 1..];
      forall p | 0 <= p < i + 1 ensures !(key <= text[p..]) {
        if p == 0 {
          assert text[0..] == text;
        } else {
          assert text[1..][p - 1..] == text[p..];
        }
      }
    } else {
      assert text[0..] == text;
    }
  }

  lemma {:induction false} ClausePieces(text: string, key: string, i: nat, open: nat, end: nat)
    requires i + |key| <= open < end < |text| && key <= text[i..] && text[open] == '{' && text[end] == '}'
    ensures text[i..end + 1] == key + text[i + |key|..open] + "{" + text[open + 1..end] + "}"
  {
    assert text[i..i + |key|] == key by {
      assert text[i..][..|key|] == key;
    }
    assert text[i..end + 1] == text[i..i + |key|] + text[i + |key|..open] + [text[open]] + text[open + 1..end]
                               + [text[end]];
  }

  lemma {:induction false} PiecesAreClause(text: string, key: string, i: nat, open: nat, end: nat)
    requires i + |key| <= open < end < |text| && key <= text[i..] && text[open] == '{' && text[end] == '}'
    requires forall k | i + |key| <= k < open :: IsAsciiSpace(text[k])
    requires forall k | open + 1 <= k < end :: text[k] != '}'
    ensures IsClause(text[i..end + 1], key, text[i + |key|..open], text[open + 1..end])
    ensures text[i..end + 1] <= text[i..]
  {
    ClausePieces(text, key, i, open, end);
  }

  lemma {:induction false} ReadIsClause(text: string, key: string) returns (i: nat, gap: string, body: string)
    requires key != "" && ExtractNamedClause(text, key).Some?
    ensures var clause := ExtractNamedClause(text, key).value;
            StandsFirst(text, key, i, clause) && IsClause(clause, key, gap, body)
  {
    hide Find, SkipSpaces, FindClose, FirstAt, IsClause;
    i := Find(text, key).value;
    var open := SkipSpaces(text, i + |key|);
    var end := FindClose(text, open + 1);
    FoundFirst(text, key);
    SkippedAre(text, i + |key|);
    NotClosedBefore(text, open + 1);
    CloseFound(text, open + 1);
    FindOccurs(text, key);
    PiecesAreClause(text, key, i, open, end);
    gap, body := text[i + |key|..open], text[open + 1..end];
  }

  /** The clause read for a word is the one at its first occurrence: the word, white space and braces
      without a closing brace inside; and none is read where no such text stands. */
  lemma {:induction false} ClauseExact(text: string, key: string, clause: string)
    requires key != ""
    ensures ExtractNamedClause(text, key) == Some(clause) <==>
            exists i: nat, gap, body :: StandsFirst(text, key, i, clause) && IsClause(clause, key, gap, body)
  {
    hide ExtractNamedClause, StandsFirst, IsClause;
    if ExtractNamedClause(text, key) == Some(clause) {
      var i, gap, body := ReadIsClause(text, key);
    }
    if i: nat, gap, body :| StandsFirst(text, key, i, clause) && IsClause(clause, key, gap, body) {
      ClauseReads(text, key, i, clause, gap, body);
    }
  }

  /** A merged text starts with a blank exactly when one of the two did, and ends with one likewise. */
  lemma {:induction false} MergedBlanks(a: string, b: string)
    requires Merge(a, b).Some?
    ensures var m := Merge(a, b).value;
            && m != ""
            && (m[0] == ' ' <==> (a != "" && a[0] == ' ') || (b != "" && b[0] == ' '))
            && (m[|m| - 1] == ' ' <==> (a != "" && a[|a| - 1] == ' ') || (b != "" && b[|b| - 1] == ' '))
  {
    hide ExtractNamedClause;
    var effect, capability := Chosen(a, b, "effects"), Chosen(a, b, "capabilities");
    if effect.Some? {
      var text := ChosenFrom(a, b, "effects");
      ClauseShape(text, "effects");
    }
    if capability.Some? {
      var text := ChosenFrom(a, b, "capabilities");
      ClauseShape(text, "capabilities");
    }
    assert "effects"[0] == 'e' && "capabilities"[0] == 'c';
  }
}
