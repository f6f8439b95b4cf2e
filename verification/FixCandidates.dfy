/** Which fixes a plan considers, in which order, and which of two wins. */
module FixCandidates {
  import opened Wrappers
  import opened FixPlan
  import Sorting
  import TextEdits

  // ---- what is considered -----------------------------------------------------------------------

  /** The diagnostic suggests the edit: it has one of the nine codes and a file, and the fix a
      range that is not inverted and a text, all of them the edit's own. */
  predicate Suggests(d: Diagnostic, fix: Fix, c: Candidate) {
    && d.code in {"E1033", "E1034", "E1041", "E1062", "E2001", "E2005", "E2009", "E6004", "E6006"}
    && c.code == d.code && d.primaryFile == Some(c.file) && c.file != ""
    && fix.start == Some(c.start) && fix.end == Some(c.end) && c.start <= c.end
    && fix.replacement == Some(c.replacement) && fix.message == c.message
  }

  /** How many of the fixes suggest the edit. */
  function Times(d: Diagnostic, fixes: seq<Fix>, c: Candidate): nat {
    if fixes == [] then 0 else (if Suggests(d, fixes[0], c) then 1 else 0) + Times(d, fixes[1..], c)
  }

  function TimesInAll(ds: seq<Diagnostic>, c: Candidate): nat {
    if ds == [] then 0 else Times(ds[0], ds[0].fixes, c) + TimesInAll(ds[1..], c)
  }

  lemma {:induction false} CodesAre(code: string)
    ensures code in SAFE_FIX_CODES <==>
            code in {"E1033", "E1034", "E1041", "E1062", "E2001", "E2005", "E2009", "E6004", "E6006"}
  {
    assert SAFE_FIX_CODES[0] == "E1033" && SAFE_FIX_CODES[1] == "E1034" && SAFE_FIX_CODES[2] == "E1041"
        && SAFE_FIX_CODES[3] == "E1062" && SAFE_FIX_CODES[4] == "E2001" && SAFE_FIX_CODES[5] == "E2005"
        && SAFE_FIX_CODES[6] == "E2009" && SAFE_FIX_CODES[7] == "E6004" && SAFE_FIX_CODES[8] == "E6006";
  }

  lemma {:induction false} FromFixIs(d: Diagnostic, fix: Fix, c: Candidate)
    requires d.primaryFile.Some? && d.code in SAFE_FIX_CODES
    ensures FromFix(d.primaryFile.value, d.code, fix) == Some(c) <==> Suggests(d, fix, c)
  {
    CodesAre(d.code);
  }

  lemma {:induction false} FixesCounted(d: Diagnostic, fixes: seq<Fix>, c: Candidate)
    requires d.primaryFile.Some? && d.code in SAFE_FIX_CODES
    ensures multiset(FromFixes(d.primaryFile.value, d.code, fixes))[c] == Times(d, fixes, c)
  {
    hide FromFix, Suggests, SAFE_FIX_CODES;
    if fixes != [] {
      FromFixIs(d, fixes[0], c);
      FixesCounted(d, fixes[1..], c);
      var first := FromFix(d.primaryFile.value, d.code, fixes[0]);
      var rest := FromFixes(d.primaryFile.value, d.code, fixes[1..]);
      assert multiset((if first.Some? then [first.value] else []) + rest)
          == multiset(if first.Some? then [first.value] else []) + multiset(rest);
    }
  }

  lemma {:induction false} NothingSuggested(d: Diagnostic, fixes: seq<Fix>, c: Candidate)
    requires d.primaryFile.None? || d.code !in SAFE_FIX_CODES
    ensures Times(d, fixes, c) == 0
  {
    hide SAFE_FIX_CODES;
    CodesAre(d.code);
    if fixes != [] {
      NothingSuggested(d, fixes[1..], c);
    }
  }

  /** An edit is considered as many times as it is suggested. */
  lemma {:induction false} ConsideredAsSuggested(ds: seq<Diagnostic>, c: Candidate)
    ensures multiset(Candidates(ds))[c] == TimesInAll(ds, c)
  {
    hide FromFixes, Times, SAFE_FIX_CODES;
    if ds != [] {
      ConsideredAsSuggested(ds[1..], c);
      var d := ds[0];
      if d.primaryFile.None? || d.code !in SAFE_FIX_CODES {
        NothingSuggested(d, d.fixes, c);
        assert FromDiagnostic(d) == [];
        assert Candidates(ds) == Candidates(ds[1..]);
      } else {
        FixesCounted(d, d.fixes, c);
        assert multiset(Candidates(ds)) == multiset(FromDiagnostic(d)) + multiset(Candidates(ds[1..]));
      }
    }
  }

  lemma {:induction false} TimesPositive(d: Diagnostic, fixes: seq<Fix>, c: Candidate)
    ensures Times(d, fixes, c) > 0 <==> exists fix <- fixes :: Suggests(d, fix, c)
  {
    hide Suggests;
    if fixes != [] {
      TimesPositive(d, fixes[1..], c);
      assert fixes == [fixes[0]] + fixes[1..];
    }
  }

  ghost predicate SuggestedBy(ds: seq<Diagnostic>, c: Candidate) {
    exists d <- ds :: exists fix <- d.fixes :: Suggests(d, fix, c)
  }

  lemma {:induction false} AllTimesPositive(ds: seq<Diagnostic>, c: Candidate)
    ensures TimesInAll(ds, c) > 0 <==> SuggestedBy(ds, c)
  {
    hide Suggests, Times;
    if ds != [] {
      TimesPositive(ds[0], ds[0].fixes, c);
      AllTimesPositive(ds[1..], c);
      assert ds == [ds[0]] + ds[1..];
    }
  }

  /** An edit is considered exactly when some diagnostic suggests it. */
  lemma {:induction false} ConsideredExactly(ds: seq<Diagnostic>, c: Candidate)
    ensures c in Candidates(ds) <==> SuggestedBy(ds, c)
  {
    hide SuggestedBy, TimesInAll, Candidates;
    ConsideredAsSuggested(ds, c);
    AllTimesPositive(ds, c);
  }

  // ---- what runs into what ------------------------------------------------------------------------

  /** The positions an edit occupies: those of its range, or where it inserts. */
  predicate Occupies(start: nat, end: nat, p: nat) {
    if start == end then p == start else start <= p < end
  }

  ghost predicate Collide(a: Candidate, b: Candidate) {
    a.file == b.file && exists p :: Occupies(a.start, a.end, p) && Occupies(b.start, b.end, p)
  }

  lemma {:induction false} ClashIsCollide(a: Candidate, b: Candidate)
    requires a.start <= a.end && b.start <= b.end
    ensures Clash(a, b) <==> Collide(a, b)
  {
    var p := if a.start >= b.start then a.start else b.start;
    if Clash(a, b) {
      assert Occupies(a.start, a.end, p) && Occupies(b.start, b.end, p);
    }
  }

  /** Ranges that touch do not run into each other, and an insertion does not run into the range
      that ends where it stands. */
  lemma {:induction false} TouchingApart(a: Candidate, b: Candidate)
    requires a.start < a.end && a.end == b.start && b.start <= b.end
    ensures !Collide(a, b) && !Collide(b, a)
  {
  }

  lemma {:induction false} AcceptedRanged(ds: seq<Diagnostic>, a: Candidate)
    requires a in SafeFixPlan(ds).accepted
    ensures a.start <= a.end && exists c :: SuggestedBy(ds, c) && a == c.(replacement := a.replacement)
  {
    hide SafeFixPlan, Candidates, SuggestedBy, InOrder, Sound;
    SortedPlanSound(ds);
    SoundStems(SafeFixPlan(ds), InOrder(Candidates(ds)), a);
    var c :| c in InOrder(Candidates(ds)) && a == c.(replacement := a.replacement);
    ConsideredExactly(ds, c);
    CandidatesRanged(ds, c);
  }

  lemma {:induction false} AcceptedApart(ds: seq<Diagnostic>, i: nat, j: nat)
    requires i < j < |SafeFixPlan(ds).accepted|
    ensures !Collide(SafeFixPlan(ds).accepted[i], SafeFixPlan(ds).accepted[j])
  {
    hide SafeFixPlan, Candidates, InOrder, Sound, Clash, Collide, SuggestedBy;
    var accepted := SafeFixPlan(ds).accepted;
    SortedPlanSound(ds);
    SoundApart(SafeFixPlan(ds), InOrder(Candidates(ds)));
    AcceptedRanged(ds, accepted[i]);
    AcceptedRanged(ds, accepted[j]);
    ClashIsCollide(accepted[i], accepted[j]);
  }

  lemma {:induction false} SuggestedCollides(ds: seq<Diagnostic>, c: Candidate)
    requires SuggestedBy(ds, c)
    ensures exists a <- SafeFixPlan(ds).accepted :: Collide(a, c)
  {
    hide SafeFixPlan, Candidates, InOrder, Sound, Clash, Collide, SuggestedBy;
    SortedPlanSound(ds);
    ConsideredExactly(ds, c);
    CandidatesRanged(ds, c);
    SoundOverlap(SafeFixPlan(ds), InOrder(Candidates(ds)), c);
    var a :| a in SafeFixPlan(ds).accepted && Clash(a, c);
    AcceptedRanged(ds, a);
    ClashIsCollide(a, c);
  }

  lemma {:induction false} RejectedCollides(ds: seq<Diagnostic>, x: Conflict)
    requires x in SafeFixPlan(ds).conflicts
    ensures SuggestedBy(ds, x.candidate)
    ensures exists a <- SafeFixPlan(ds).accepted ::
              Collide(a, x.candidate) && a.code == x.withCode && a.start == x.withStart && a.end == x.withEnd
  {
    hide SafeFixPlan, Candidates, InOrder, Sound, Clash, Collide, SuggestedBy;
    var accepted := SafeFixPlan(ds).accepted;
    SortedPlanSound(ds);
    SoundConflict(SafeFixPlan(ds), InOrder(Candidates(ds)), x);
    ConsideredExactly(ds, x.candidate);
    CandidatesRanged(ds, x.candidate);
    var k :| 0 <= k < |accepted| && Clash(accepted[k], x.candidate)
      && accepted[k].code == x.withCode && accepted[k].start == x.withStart && accepted[k].end == x.withEnd;
    AcceptedRanged(ds, accepted[k]);
    ClashIsCollide(accepted[k], x.candidate);
    assert accepted[k] in accepted;
  }

  lemma {:induction false} CandidatesRanged(ds: seq<Diagnostic>, c: Candidate)
    requires c in Candidates(ds)
    ensures c.start <= c.end
  {
    hide Candidates;
    CandidatesWellFormed(ds);
    var k :| 0 <= k < |Candidates(ds)| && Candidates(ds)[k] == c;
  }

  /** The plan in terms of the diagnostics: accepted edits are suggested up to merged texts and do
      not run into each other, every suggested edit runs into an accepted one (so none could be
      added), and every rejected one is a suggested edit that runs into the one it names. */
  lemma {:induction false} PlanMaximal(ds: seq<Diagnostic>, c: Candidate, i: nat, j: nat, x: Conflict)
    ensures var plan := SafeFixPlan(ds);
            && (SuggestedBy(ds, c) ==> exists a <- plan.accepted :: Collide(a, c))
            && (i < j < |plan.accepted| ==> !Collide(plan.accepted[i], plan.accepted[j]))
            && (x in plan.conflicts ==> SuggestedBy(ds, x.candidate) && exists a <- plan.accepted ::
                    Collide(a, x.candidate) && a.code == x.withCode && a.start == x.withStart && a.end == x.withEnd)
  {
    hide SafeFixPlan, SuggestedBy, Collide;
    if SuggestedBy(ds, c) {
      SuggestedCollides(ds, c);
    }
    if i < j < |SafeFixPlan(ds).accepted| {
      AcceptedApart(ds, i, j);
    }
    if x in SafeFixPlan(ds).conflicts {
      RejectedCollides(ds, x);
    }
  }

  // ---- the order --------------------------------------------------------------------------------------

  /** `a` is a proper beginning of `b`, or has the smaller character where they first differ. */
  ghost predicate TextBefore(a: string, b: string) {
    exists k | 0 <= k <= |a| && k <= |b| :: a[..k] == b[..k] && k < |b| && (k == |a| || a[k] < b[k])
  }

  lemma {:induction false} CmpStrExact(a: string, b: string)
    ensures CmpStr(a, b) < 0 <==> TextBefore(a, b)
  {
    if a == "" {
      if b != "" {
        assert a[..0] == b[..0];
      }
    } else if b != "" {
      CmpStrExact(a[1..], b[1..]);
      if a[0] == b[0] {
        TailsBefore(a, b);
      } else {
        assert a[..0] == b[..0];
        forall k | 0 < k <= |a| && k <= |b| ensures a[..k] != b[..k] {
          if a[..k] == b[..k] {
            HeadsAlike(a, b, k);
          }
        }
      }
    }
  }

  lemma {:induction false} HeadsAlike(a: string, b: string, k: nat)
    requires 0 < k <= |a| && k <= |b| && a[..k] == b[..k]
    ensures a[0] == b[0]
  {
    assert a[..k][0] == a[0] && b[..k][0] == b[0];
  }

  lemma {:induction false} TailsBefore(a: string, b: string)
    requires a != "" && b != "" && a[0] == b[0]
    ensures TextBefore(a, b) <==> TextBefore(a[1..], b[1..])
  {
    hide TextBefore;
    if TextBefore(a, b) {
      WithoutHeads(a, b);
    }
    if TextBefore(a[1..], b[1..]) {
      WithHeads(a, b);
    }
  }

  lemma {:induction false} WithoutHeads(a: string, b: string)
    requires a != "" && b != "" && a[0] == b[0] && TextBefore(a, b)
    ensures TextBefore(a[1..], b[1..])
  {
    var k :| 0 <= k <= |a| && k <= |b| && a[..k] == b[..k] && k < |b| && (k == |a| || a[k] < b[k]);
    assert k > 0;
    assert a[1..][..k - 1] == a[..k][1..] && b[1..][..k - 1] == b[..k][1..];
  }

  lemma {:induction false} WithHeads(a: string, b: string)
    requires a != "" && b != "" && a[0] == b[0] && TextBefore(a[1..], b[1..])
    ensures TextBefore(a, b)
  {
    var x, y := a[1..], b[1..];
    var k :| 0 <= k <= |x| && k <= |y| && x[..k] == y[..k] && k < |y| && (k == |x| || x[k] < y[k]);
    assert a[..k + 1] == [a[0]] + x[..k] && b[..k + 1] == [b[0]] + y[..k];
  }

  /** By file, start, end, text, message and code. */
  ghost predicate ConsideredFirst(a: Candidate, b: Candidate) {
    TextBefore(a.file, b.file) || (a.file == b.file && SpanFirst(a, b))
  }

  ghost predicate SpanFirst(a: Candidate, b: Candidate) {
    a.start < b.start || (a.start == b.start && (a.end < b.end || (a.end == b.end && TextFirst(a, b))))
  }

  ghost predicate TextFirst(a: Candidate, b: Candidate) {
    || TextBefore(a.replacement, b.replacement)
    || (a.replacement == b.replacement
        && (|| TextBefore(a.message, b.message)
            || (a.message == b.message && (TextBefore(a.code, b.code) || a.code == b.code))))
  }

  lemma {:induction false} LeqIsFirst(a: Candidate, b: Candidate)
    ensures Leq(a, b) <==> ConsideredFirst(a, b)
  {
    hide CmpStr, TextBefore;
    CmpStrOrder(a.file, b.file);
    CmpStrOrder(a.replacement, b.replacement);
    CmpStrOrder(a.message, b.message);
    CmpStrOrder(a.code, b.code);
    CmpStrExact(a.file, b.file);
    CmpStrExact(a.replacement, b.replacement);
    CmpStrExact(a.message, b.message);
    CmpStrExact(a.code, b.code);
  }

  /** The edits are considered in that order. */
  lemma {:induction false} ConsideredInOrder(ds: seq<Diagnostic>, i: nat, j: nat)
    requires i < j < |InOrder(Candidates(ds))|
    ensures ConsideredFirst(InOrder(Candidates(ds))[i], InOrder(Candidates(ds))[j])
  {
    hide Leq, ConsideredFirst, Candidates;
    LeqIsOrder();
    Sorting.SortOrdered(Leq, Candidates(ds));
    LeqIsFirst(InOrder(Candidates(ds))[i], InOrder(Candidates(ds))[j]);
  }

  // ---- what is handed over ------------------------------------------------------------------------------

  /** The edits for a file are those accepted for it, with their texts encoded. */
  lemma {:induction false} HandedOver(accepted: seq<Candidate>, file: string, utf8: string -> TextEdits.Text,
                                      e: TextEdits.Edit)
    ensures e in FileEdits(accepted, file, utf8) <==>
            exists a <- accepted :: a.file == file && e == TextEdits.Edit(a.start, a.end, utf8(a.replacement))
  {
    if accepted != [] {
      HandedOver(accepted[1..], file, utf8, e);
      assert accepted == [accepted[0]] + accepted[1..];
    }
  }
}
