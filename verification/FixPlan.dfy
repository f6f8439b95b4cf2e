/** The greedy planner of safe fixes and what its plans guarantee. */
module FixPlan {
  import opened Wrappers
  import FixClauses
  import Sorting
  import TextEdits

  datatype Fix = Fix(start: Option<nat>, end: Option<nat>, replacement: Option<string>, message: string)

  datatype Diagnostic = Diagnostic(code: string, primaryFile: Option<string>, fixes: seq<Fix>)

  datatype Candidate = Candidate(file: string, start: nat, end: nat, replacement: string, message: string, code: string)

  /** A rejected candidate and the accepted edit it ran into. */
  datatype Conflict = Conflict(candidate: Candidate, withCode: string, withStart: nat, withEnd: nat)

  datatype Plan = Plan(accepted: seq<Candidate>, conflicts: seq<Conflict>)

  const SAFE_FIX_CODES := ["E1033", "E1034", "E1041", "E1062", "E2001", "E2005", "E2009", "E6004", "E6006"]

  // ---- candidates --------------------------------------------------------------------

  predicate WellFormed(cs: seq<Candidate>) {
    forall k | 0 <= k < |cs| :: cs[k].start <= cs[k].end
  }

  function FromFix(file: string, code: string, fix: Fix): (r: Option<Candidate>)
    ensures r.Some? ==> r.value.start <= r.value.end
  {
    if fix.start.None? || fix.end.None? || fix.replacement.None? then None
    else if fix.end.value < fix.start.value || file == "" then None
    else Some(Candidate(file, fix.start.value, fix.end.value, fix.replacement.value, fix.message, code))
  }

  function FromFixes(file: string, code: string, fixes: seq<Fix>): seq<Candidate>
  {
    if fixes == [] then []
    else
      (match FromFix(file, code, fixes[0])
       case Some(c) => [c]
       case None => []) + FromFixes(file, code, fixes[1..])
  }

  function FromDiagnostic(d: Diagnostic): seq<Candidate>
  {
    if d.primaryFile.None? || d.code !in SAFE_FIX_CODES then []
    else FromFixes(d.primaryFile.value, d.code, d.fixes)
  }

  function Candidates(ds: seq<Diagnostic>): seq<Candidate>
  {
    if ds == [] then [] else FromDiagnostic(ds[0]) + Candidates(ds[1..])
  }

  lemma {:induction false} FromFixesWellFormed(file: string, code: string, fixes: seq<Fix>)
    ensures WellFormed(FromFixes(file, code, fixes))
  {
    if fixes != [] {
      FromFixesWellFormed(file, code, fixes[1..]);
    }
  }

  lemma {:induction false} CandidatesWellFormed(ds: seq<Diagnostic>)
    ensures WellFormed(Candidates(ds))
  {
    if ds != [] {
      CandidatesWellFormed(ds[1..]);
      if ds[0].primaryFile.Some? {
        FromFixesWellFormed(ds[0].primaryFile.value, ds[0].code, ds[0].fixes);
      }
    }
  }

  // ---- the sort key ------------------------------------------------------------------

  function CmpNat(a: nat, b: nat): int { if a < b then -1 else if a == b then 0 else 1 }

  function CmpStr(a: string, b: string): int {
    if a == "" && b == "" then 0
    else if a == "" then -1
    else if b == "" then 1
    else if a[0] < b[0] then -1
    else if a[0] > b[0] then 1
    else CmpStr(a[1..], b[1..])
  }

  function Then(first: int, second: int): int { if first != 0 then first else second }

  function Cmp(a: Candidate, b: Candidate): int {
    Then(CmpStr(a.file, b.file), Then(CmpNat(a.start, b.start), Then(CmpNat(a.end, b.end),
      Then(CmpStr(a.replacement, b.replacement), Then(CmpStr(a.message, b.message), CmpStr(a.code, b.code))))))
  }

  predicate Leq(a: Candidate, b: Candidate) { Cmp(a, b) <= 0 }

  lemma {:induction false} CmpStrOrder(a: string, b: string)
    ensures CmpStr(a, b) == 0 <==> a == b
    ensures CmpStr(a, b) < 0 <==> CmpStr(b, a) > 0
    ensures CmpStr(a, b) > 0 <==> CmpStr(b, a) < 0
  {
    if a != "" && b != "" && a[0] == b[0] {
      CmpStrOrder(a[1..], b[1..]);
      assert a == [a[0]] + a[1..] && b == [b[0]] + b[1..];
    }
  }

  lemma {:induction false} CmpStrTransitive(a: string, b: string, c: string)
    requires CmpStr(a, b) <= 0 && CmpStr(b, c) <= 0
    ensures CmpStr(a, c) <= 0
    ensures CmpStr(a, b) < 0 || CmpStr(b, c) < 0 ==> CmpStr(a, c) < 0
  {
    if a != "" && b != "" && c != "" && a[0] == b[0] == c[0] {
      CmpStrTransitive(a[1..], b[1..], c[1..]);
    }
  }

  lemma {:induction false} LeqOrder(a: Candidate, b: Candidate)
    ensures Leq(a, b) || Leq(b, a)
    ensures Leq(a, b) && Leq(b, a) ==> a == b
    ensures Leq(a, a)
  {
    CmpStrOrder(a.file, b.file);
    CmpStrOrder(a.replacement, b.replacement);
    CmpStrOrder(a.message, b.message);
    CmpStrOrder(a.code, b.code);
    CmpStrOrder(a.file, a.file);
    CmpStrOrder(a.replacement, a.replacement);
    CmpStrOrder(a.message, a.message);
    CmpStrOrder(a.code, a.code);
  }

  lemma {:induction false} LeqTransitive(a: Candidate, b: Candidate, c: Candidate)
    requires Leq(a, b) && Leq(b, c)
    ensures Leq(a, c)
  {
    if CmpStr(a.file, b.file) <= 0 && CmpStr(b.file, c.file) <= 0 {
      CmpStrTransitive(a.file, b.file, c.file);
    }
    if CmpStr(a.replacement, b.replacement) <= 0 && CmpStr(b.replacement, c.replacement) <= 0 {
      CmpStrTransitive(a.replacement, b.replacement, c.replacement);
    }
    if CmpStr(a.message, b.message) <= 0 && CmpStr(b.message, c.message) <= 0 {
      CmpStrTransitive(a.message, b.message, c.message);
    }
    if CmpStr(a.code, b.code) <= 0 && CmpStr(b.code, c.code) <= 0 {
      CmpStrTransitive(a.code, b.code, c.code);
    }
  }

  /** The order in which the candidates are considered. */
  function InOrder(cs: seq<Candidate>): (r: seq<Candidate>)
    ensures multiset(r) == multiset(cs)
  {
    Sorting.Sort(Leq, cs)
  }

  lemma {:induction false} LeqIsOrder()
    ensures Sorting.Preorder(Leq) && Sorting.Antisymmetric(Leq)
  {
    forall a, b ensures Leq(a, b) || Leq(b, a) {
      LeqOrder(a, b);
    }
    forall a, b | Leq(a, b) && Leq(b, a) ensures a == b {
      LeqOrder(a, b);
    }
    forall a, b, c | Leq(a, b) && Leq(b, c) ensures Leq(a, c) {
      LeqTransitive(a, b, c);
    }
  }

  /** Candidates that are the same up to order are considered in the same order. */
  lemma {:induction false} InOrderCanonical(a: seq<Candidate>, b: seq<Candidate>)
    requires multiset(a) == multiset(b)
    ensures InOrder(a) == InOrder(b)
  {
    LeqIsOrder();
    Sorting.SortOrdered(Leq, a);
    Sorting.SortOrdered(Leq, b);
    Sorting.OrderedUnique(Leq, InOrder(a), InOrder(b));
  }

  // ---- merging an effect clause with a capability clause --------------------------------

  predicate IsEffectCapabilityCode(code: string) {
    code in {"E2001", "E2005", "E2009"}
  }

  /** The replacement the accepted edit gets when the candidate is folded into it. */
  function TryMerge(existing: Candidate, candidate: Candidate): Option<string> {
    if !IsEffectCapabilityCode(existing.code) || !IsEffectCapabilityCode(candidate.code) then None
    else FixClauses.Merge(existing.replacement, candidate.replacement)
  }

  // ---- the greedy plan -----------------------------------------------------------------

  predicate SameRange(a: Candidate, c: Candidate) {
    a.file == c.file && a.start == c.start && a.end == c.end
  }

  predicate Duplicate(a: Candidate, c: Candidate) {
    SameRange(a, c) && a.replacement == c.replacement
  }

  predicate SameInsertion(a: Candidate, c: Candidate) {
    SameRange(a, c) && a.start == a.end
  }

  predicate Clash(a: Candidate, c: Candidate) {
    a.file == c.file && TextEdits.RangesConflict(a.start, a.end, c.start, c.end)
  }

  /** The first accepted edit satisfying `p`; the length when there is none. */
  function FirstIndex(accepted: seq<Candidate>, p: Candidate -> bool): (i: nat)
    ensures i <= |accepted| && (i < |accepted| ==> p(accepted[i])) && forall j | 0 <= j < i :: !p(accepted[j])
  {
    if accepted == [] || p(accepted[0]) then 0 else 1 + FirstIndex(accepted[1..], p)
  }

  function Step(plan: Plan, c: Candidate): Plan {
    var accepted := plan.accepted;
    if FirstIndex(accepted, a => Duplicate(a, c)) < |accepted| then plan
    else
      var i := FirstIndex(accepted, a => SameInsertion(a, c));
      var merged := if i < |accepted| then TryMerge(accepted[i], c) else None;
      if merged.Some? then plan.(accepted := accepted[i := accepted[i].(replacement := merged.value)])
      else
        var k := FirstIndex(accepted, a => Clash(a, c));
        if k < |accepted| then
          plan.(conflicts := plan.conflicts + [Conflict(c, accepted[k].code, accepted[k].start, accepted[k].end)])
        else plan.(accepted := accepted + [c])
  }

  function Greedy(plan: Plan, cs: seq<Candidate>): Plan
    decreases |cs|
  {
    if cs == [] then plan else Greedy(Step(plan, cs[0]), cs[1..])
  }

  function SafeFixPlan(ds: seq<Diagnostic>): Plan {
    Greedy(Plan([], []), InOrder(Candidates(ds)))
  }

  method CollectSafeFixPlan(ds: seq<Diagnostic>) returns (plan: Plan)
    ensures plan == SafeFixPlan(ds)
  {
    var sorted := InOrder(Candidates(ds));
    var accepted: seq<Candidate> := [];
    var conflicts: seq<Conflict> := [];
    assert sorted[0..] == sorted;
    for n := 0 to |sorted|
      invariant Greedy(Plan(accepted, conflicts), sorted[n..]) == SafeFixPlan(ds)
    {
      var c := sorted[n];
      assert sorted[n..][1..] == sorted[n + 1..] && sorted[n..][0] == c;
      if FirstIndex(accepted, a => Duplicate(a, c)) < |accepted| {
        continue;
      }
      var i := FirstIndex(accepted, a => SameInsertion(a, c));
      if i < |accepted| {
        var merged := TryMerge(accepted[i], c);
        if merged.Some? {
          accepted := accepted[i := accepted[i].(replacement := merged.value)];
          continue;
        }
      }
      var k := FirstIndex(accepted, a => Clash(a, c));
      if k < |accepted| {
        conflicts := conflicts + [Conflict(c, accepted[k].code, accepted[k].start, accepted[k].end)];
        continue;
      }
      accepted := accepted + [c];
    }
    assert sorted[|sorted|..] == [];
    plan := Plan(accepted, conflicts);
  }

  // ---- what the plan guarantees -----------------------------------------------------------

  predicate Overlaps(accepted: seq<Candidate>, c: Candidate) {
    exists i | 0 <= i < |accepted| :: Clash(accepted[i], c)
  }

  ghost predicate Names(accepted: seq<Candidate>, x: Conflict) {
    exists i | 0 <= i < |accepted| ::
      Clash(accepted[i], x.candidate) && accepted[i].code == x.withCode && accepted[i].start == x.withStart &&
          accepted[i].end == x.withEnd
  }

  /** The edit is one of the candidates, up to a replacement text changed by merging. */
  ghost predicate Stems(a: Candidate, seen: seq<Candidate>) {
    exists k | 0 <= k < |seen| :: a == seen[k].(replacement := a.replacement)
  }

  predicate Raised(x: Conflict, seen: seq<Candidate>) {
    x.candidate in seen
  }

  predicate PairwiseApart(accepted: seq<Candidate>) {
    forall i, j | 0 <= i < j < |accepted| :: !Clash(accepted[i], accepted[j])
  }

  /** No two accepted edits of a file conflict and each stems from a candidate; every
      conflict reported is with the accepted edit it names; every candidate overlaps an
      accepted edit, so none could be added. */
  ghost predicate Sound(plan: Plan, seen: seq<Candidate>) {
    && PairwiseApart(plan.accepted)
    && (forall i | 0 <= i < |plan.accepted| :: Stems(plan.accepted[i], seen))
    && (forall i | 0 <= i < |plan.conflicts| :: ConflictHolds(plan.conflicts[i], plan.accepted, seen))
    && (forall k | 0 <= k < |seen| :: Overlaps(plan.accepted, seen[k]))
  }

  /** The later list keeps every earlier edit up to its replacement text. */
  ghost predicate Extends(before: seq<Candidate>, after: seq<Candidate>) {
    |before| <= |after| && forall i | 0 <= i < |before| :: after[i] == before[i].(replacement := after[i].replacement)
  }

  lemma {:induction false} ExtensionKeeps(before: seq<Candidate>, after: seq<Candidate>, x: Conflict, c: Candidate)
    requires Extends(before, after)
    ensures Overlaps(before, c) ==> Overlaps(after, c)
    ensures Names(before, x) ==> Names(after, x)
  {
    forall i | 0 <= i < |before|
      ensures Clash(after[i], c) == Clash(before[i], c) &&
                Clash(after[i], x.candidate) == Clash(before[i], x.candidate)
    {
    }
    if Overlaps(before, c) {
      var i :| 0 <= i < |before| && Clash(before[i], c);
      assert Clash(after[i], c);
    }
    if Names(before, x) {
      var i :| 0 <= i < |before| && Clash(before[i], x.candidate)
        && before[i].code == x.withCode && before[i].start == x.withStart && before[i].end == x.withEnd;
      assert Clash(after[i], x.candidate);
    }
  }

  lemma {:induction false} StemsLater(a: Candidate, seen: seq<Candidate>, c: Candidate)
    ensures Stems(a, seen) ==> Stems(a, seen + [c])
    ensures a == c.(replacement := a.replacement) ==> Stems(a, seen + [c])
  {
    if Stems(a, seen) {
      var k :| 0 <= k < |seen| && a == seen[k].(replacement := a.replacement);
      assert (seen + [c])[k] == seen[k];
    }
    assert (seen + [c])[|seen|] == c;
  }

  /** What one round does to the two lists. */
  lemma {:induction false} StepShape(plan: Plan, c: Candidate)
    requires c.start <= c.end && PairwiseApart(plan.accepted)
    ensures var next := Step(plan, c);
            && Extends(plan.accepted, next.accepted) && PairwiseApart(next.accepted) && Overlaps(next.accepted, c)
            && (|next.accepted| > |plan.accepted| ==> next.accepted == plan.accepted + [c])
            && (next.conflicts == plan.conflicts || exists x ::
                  next.conflicts == plan.conflicts + [x] && x.candidate == c && Names(next.accepted, x))
  {
    var accepted := plan.accepted;
    var d := FirstIndex(accepted, a => Duplicate(a, c));
    if d < |accepted| {
      assert Clash(accepted[d], c);
    } else {
      var i := FirstIndex(accepted, a => SameInsertion(a, c));
      var merged := if i < |accepted| then TryMerge(accepted[i], c) else None;
      var k := FirstIndex(accepted, a => Clash(a, c));
      if merged.Some? {
        assert Clash(Step(plan, c).accepted[i], c);
      } else if k < |accepted| {
        assert Clash(accepted[k], c);
        var x := Conflict(c, accepted[k].code, accepted[k].start, accepted[k].end);
        assert Names(accepted, x);
      } else {
        assert Clash((accepted + [c])[|accepted|], c);
      }
    }
  }

  lemma {:induction false} StepSound(plan: Plan, seen: seq<Candidate>, c: Candidate)
    requires Sound(plan, seen) && c.start <= c.end
    ensures Sound(Step(plan, c), seen + [c])
  {
    var next, later := Step(plan, c), seen + [c];
    StepShape(plan, c);
    hide Step, Names, Overlaps, Stems, PairwiseApart, Extends, ConflictHolds, Clash;
    forall i | 0 <= i < |next.accepted| ensures Stems(next.accepted[i], later) {
      StepStems(plan, seen, c, i);
    }
    forall i | 0 <= i < |next.conflicts| ensures ConflictHolds(next.conflicts[i], next.accepted, later) {
      StepConflict(plan, seen, c, i);
    }
    forall k | 0 <= k < |later| ensures Overlaps(next.accepted, later[k]) {
      if k < |seen| {
        ExtensionKeeps(plan.accepted, next.accepted, Conflict(c, "", 0, 0), seen[k]);
      }
    }
  }

  lemma {:induction false} RaisedLater(x: Conflict, seen: seq<Candidate>, c: Candidate)
    ensures Raised(x, seen) || x.candidate == c ==> Raised(x, seen + [c])
  {
  }

  ghost predicate ConflictHolds(x: Conflict, accepted: seq<Candidate>, seen: seq<Candidate>) {
    Raised(x, seen) && Names(accepted, x)
  }

  lemma {:induction false} ConflictLater(x: Conflict, before: seq<Candidate>, after: seq<Candidate>,
                                         seen: seq<Candidate>, c: Candidate)
    requires Extends(before, after)
    ensures ConflictHolds(x, before, seen) ==> ConflictHolds(x, after, seen + [c])
    ensures x.candidate == c && Names(after, x) ==> ConflictHolds(x, after, seen + [c])
  {
    RaisedLater(x, seen, c);
    hide Raised;
    ExtensionKeeps(before, after, x, c);
  }

  lemma {:induction false} StepConflict(plan: Plan, seen: seq<Candidate>, c: Candidate, i: nat)
    requires PairwiseApart(plan.accepted) && c.start <= c.end && i < |Step(plan, c).conflicts|
    requires forall k | 0 <= k < |plan.conflicts| :: ConflictHolds(plan.conflicts[k], plan.accepted, seen)
    ensures ConflictHolds(Step(plan, c).conflicts[i], Step(plan, c).accepted, seen + [c])
  {
    hide Step, PairwiseApart, Extends, ConflictHolds, Overlaps, Names;
    var next := Step(plan, c);
    StepShape(plan, c);
    ConflictLater(next.conflicts[i], plan.accepted, next.accepted, seen, c);
  }

  lemma {:induction false} StepStems(plan: Plan, seen: seq<Candidate>, c: Candidate, i: nat)
    requires Sound(plan, seen) && c.start <= c.end && i < |Step(plan, c).accepted|
    ensures Stems(Step(plan, c).accepted[i], seen + [c])
  {
    var next := Step(plan, c).accepted;
    StepShape(plan, c);
    hide Step, Names, Overlaps, PairwiseApart;
    StemsLater(next[i], seen, c);
    if i < |plan.accepted| {
      var k :| 0 <= k < |seen| && plan.accepted[i] == seen[k].(replacement := plan.accepted[i].replacement);
      assert next[i] == seen[k].(replacement := next[i].replacement);
    }
  }

  lemma {:induction false} GreedySound(plan: Plan, seen: seq<Candidate>, cs: seq<Candidate>)
    requires Sound(plan, seen) && WellFormed(cs)
    ensures Sound(Greedy(plan, cs), seen + cs)
    decreases |cs|
  {
    hide Step, Sound;
    if cs == [] {
      assert seen + cs == seen;
    } else {
      StepSound(plan, seen, cs[0]);
      GreedySound(Step(plan, cs[0]), seen + [cs[0]], cs[1..]);
      assert seen + [cs[0]] + cs[1..] == seen + cs;
    }
  }

  lemma {:induction false} SortedPlanSound(ds: seq<Diagnostic>)
    ensures Sound(SafeFixPlan(ds), InOrder(Candidates(ds)))
    ensures forall c :: c in InOrder(Candidates(ds)) <==> c in Candidates(ds)
  {
    var cs := Candidates(ds);
    var sorted := InOrder(cs);
    CandidatesWellFormed(ds);
    forall c ensures c in sorted <==> c in cs {
      assert c in multiset(sorted) <==> c in multiset(cs);
    }
    forall k | 0 <= k < |sorted| ensures sorted[k].start <= sorted[k].end {
      assert sorted[k] in cs;
    }
    GreedySound(Plan([], []), [], sorted);
    assert [] + sorted == sorted;
  }

  // The parts of `Sound`, with members in place of positions.

  lemma {:induction false} SoundApart(plan: Plan, seen: seq<Candidate>)
    requires Sound(plan, seen)
    ensures forall i, j | 0 <= i < j < |plan.accepted| :: !Clash(plan.accepted[i], plan.accepted[j])
  {
    hide Clash, Stems, ConflictHolds, Overlaps;
  }

  lemma {:induction false} SoundStems(plan: Plan, seen: seq<Candidate>, a: Candidate)
    requires Sound(plan, seen) && a in plan.accepted
    ensures exists c <- seen :: a == c.(replacement := a.replacement)
  {
    hide PairwiseApart, ConflictHolds, Overlaps;
    var i :| 0 <= i < |plan.accepted| && plan.accepted[i] == a;
    assert Stems(plan.accepted[i], seen);
    var k :| 0 <= k < |seen| && a == seen[k].(replacement := a.replacement);
    assert seen[k] in seen;
  }

  lemma {:induction false} SoundConflict(plan: Plan, seen: seq<Candidate>, x: Conflict)
    requires Sound(plan, seen) && x in plan.conflicts
    ensures x.candidate in seen && Names(plan.accepted, x)
  {
    hide PairwiseApart, Stems, Overlaps, Names;
    var i :| 0 <= i < |plan.conflicts| && plan.conflicts[i] == x;
    assert ConflictHolds(plan.conflicts[i], plan.accepted, seen);
  }

  lemma {:induction false} SoundOverlap(plan: Plan, seen: seq<Candidate>, c: Candidate)
    requires Sound(plan, seen) && c in seen
    ensures exists a <- plan.accepted :: Clash(a, c)
  {
    hide PairwiseApart, Stems, ConflictHolds, Clash;
    var k :| 0 <= k < |seen| && seen[k] == c;
    assert Overlaps(plan.accepted, seen[k]);
    var i :| 0 <= i < |plan.accepted| && Clash(plan.accepted[i], c);
    assert plan.accepted[i] in plan.accepted;
  }

  /** The plan is conflict-free and maximal. */
  lemma {:induction false} PlanSound(ds: seq<Diagnostic>)
    ensures var plan := SafeFixPlan(ds);
            && (forall i, j | 0 <= i < j < |plan.accepted| :: !Clash(plan.accepted[i], plan.accepted[j]))
            && (forall a <- plan.accepted :: exists c <- Candidates(ds) :: a == c.(replacement := a.replacement))
            && (forall x <- plan.conflicts :: x.candidate in Candidates(ds) && Names(plan.accepted, x))
            && (forall c <- Candidates(ds) :: exists a <- plan.accepted :: Clash(a, c))
  {
    hide Sound, SafeFixPlan, Candidates, InOrder, Clash, Names;
    var plan, sorted := SafeFixPlan(ds), InOrder(Candidates(ds));
    SortedPlanSound(ds);
    SoundApart(plan, sorted);
    forall a | a in plan.accepted ensures exists c <- Candidates(ds) :: a == c.(replacement := a.replacement) {
      SoundStems(plan, sorted, a);
    }
    forall x | x in plan.conflicts ensures x.candidate in Candidates(ds) && Names(plan.accepted, x) {
      SoundConflict(plan, sorted, x);
    }
    forall c | c in Candidates(ds) ensures exists a <- plan.accepted :: Clash(a, c) {
      SoundOverlap(plan, sorted, c);
    }
  }

  // ---- the order of the diagnostics does not matter ------------------------------------------

  lemma {:induction false} CandidatesSplit(a: seq<Diagnostic>, b: seq<Diagnostic>)
    ensures Candidates(a + b) == Candidates(a) + Candidates(b)
  {
    if a == [] {
      assert a + b == b;
    } else {
      assert (a + b)[0] == a[0] && (a + b)[1..] == a[1..] + b;
      CandidatesSplit(a[1..], b);
    }
  }

  lemma {:induction false} CandidatesWithout(b: seq<Diagnostic>, d: Diagnostic) returns (rest: seq<Diagnostic>)
    requires d in multiset(b)
    ensures |rest| == |b| - 1 && multiset(rest) == multiset(b) - multiset{d}
    ensures multiset(Candidates(b)) == multiset(FromDiagnostic(d)) + multiset(Candidates(rest))
  {
    var k :| 0 <= k < |b| && b[k] == d;
    var front, back := b[..k], b[k + 1..];
    rest := front + back;
    assert b == front + ([d] + back);
    CandidatesSplit(front, back);
    CandidatesSplit(front, [d] + back);
    assert ([d] + back)[1..] == back;
  }

  lemma {:induction false} CandidatesPermute(a: seq<Diagnostic>, b: seq<Diagnostic>)
    requires multiset(a) == multiset(b)
    ensures multiset(Candidates(a)) == multiset(Candidates(b))
    decreases |a|
  {
    hide FromDiagnostic;
    if a == [] {
      assert |multiset(b)| == |b|;
    } else {
      var d := a[0];
      hide Candidates;
      assert d in multiset(a);
      var restA := CandidatesWithout(a, d);
      var restB := CandidatesWithout(b, d);
      CandidatesPermute(restA, restB);
    }
  }

  /** The plan is the same for every order of the diagnostics. */
  lemma {:induction false} PlanCanonical(a: seq<Diagnostic>, b: seq<Diagnostic>)
    requires multiset(a) == multiset(b)
    ensures SafeFixPlan(a) == SafeFixPlan(b)
  {
    CandidatesPermute(a, b);
    InOrderCanonical(Candidates(a), Candidates(b));
  }

  // ---- handing the plan to the applier ---------------------------------------------------------

  function FileEdits(accepted: seq<Candidate>, file: string, utf8: string -> TextEdits.Text): seq<TextEdits.Edit> {
    if accepted == [] then []
    else
      (if accepted[0].file == file
       then [TextEdits.Edit(accepted[0].start, accepted[0].end, utf8(accepted[0].replacement))] else [])
      + FileEdits(accepted[1..], file, utf8)
  }

  predicate Ranged(c: Candidate, file: string, e: TextEdits.Edit) {
    c.file == file && c.start == e.start && c.end == e.end
  }

  lemma {:induction false} FileEditSource(accepted: seq<Candidate>, file: string, utf8: string -> TextEdits.Text,
                                          j: nat)
    returns (k: nat)
    requires j < |FileEdits(accepted, file, utf8)|
    ensures k < |accepted| && Ranged(accepted[k], file, FileEdits(accepted, file, utf8)[j])
  {
    var skip := if accepted[0].file == file then 1 else 0;
    if j < skip {
      k := 0;
    } else {
      k := FileEditSource(accepted[1..], file, utf8, j - skip);
      k := k + 1;
    }
  }

  lemma {:induction false} ApartEditsApply(accepted: seq<Candidate>, file: string, utf8: string -> TextEdits.Text)
    requires PairwiseApart(accepted)
    ensures TextEdits.NonConflicting(FileEdits(accepted, file, utf8))
  {
    if accepted != [] {
      var rest := FileEdits(accepted[1..], file, utf8);
      ApartEditsApply(accepted[1..], file, utf8);
      if accepted[0].file == file {
        var first := TextEdits.Edit(accepted[0].start, accepted[0].end, utf8(accepted[0].replacement));
        forall j | 0 <= j < |rest| ensures !TextEdits.Conflict(first, rest[j]) {
          var k := FileEditSource(accepted[1..], file, utf8, j);
          assert !Clash(accepted[0], accepted[k + 1]);
        }
      }
    }
  }

  /** The edits a plan hands over for one file meet what the back-to-front applier needs. */
  lemma {:induction false} PlanApplies(ds: seq<Diagnostic>, file: string, utf8: string -> TextEdits.Text)
    ensures TextEdits.NonConflicting(FileEdits(SafeFixPlan(ds).accepted, file, utf8))
  {
    PlanSound(ds);
    ApartEditsApply(SafeFixPlan(ds).accepted, file, utf8);
  }
}
