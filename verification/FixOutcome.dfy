/** What becomes of all fixes suggested at one place. */
module FixOutcome {
  import opened Wrappers
  import opened FixPlan
  import FixClauses
  import FixMerging
  import FixReading
  import FixRequests
  import PrintedLexing
  import PrintedText
  import Scanner
  import Sorting
  import TextEdits

  // ---- the insertions at one place ----------------------------------------------------------

  predicate Here(c: Candidate, file: string, at: nat) {
    c.file == file && c.start == at && c.end == at
  }

  /** The insertions at one place, in the order in which they are considered. */
  function At(cs: seq<Candidate>, file: string, at: nat): (r: seq<Candidate>)
    ensures forall k | 0 <= k < |r| :: Here(r[k], file, at) && r[k] in cs
  {
    if cs == [] then []
    else
      var last := cs[|cs| - 1];
      At(cs[..|cs| - 1], file, at) + if Here(last, file, at) then [last] else []
  }

  lemma {:induction false} AtNext(seen: seq<Candidate>, c: Candidate, file: string, at: nat)
    ensures At(seen + [c], file, at) == At(seen, file, at) + if Here(c, file, at) then [c] else []
  {
    assert (seen + [c])[..|seen|] == seen;
  }

  lemma {:induction false} AtFinds(cs: seq<Candidate>, file: string, at: nat, c: Candidate)
    requires c in cs && Here(c, file, at)
    ensures c in At(cs, file, at)
  {
    if c != cs[|cs| - 1] {
      assert cs == cs[..|cs| - 1] + [cs[|cs| - 1]];
      AtFinds(cs[..|cs| - 1], file, at, c);
    }
  }

  /** The accepted insertion once the next one at its place has been considered. */
  function Taken(a: Candidate, c: Candidate): (r: Candidate)
    ensures r == a.(replacement := r.replacement)
  {
    if a.replacement == c.replacement || TryMerge(a, c).None? then a else a.(replacement := TryMerge(a, c).value)
  }

  function TakenAll(cs: seq<Candidate>): Candidate
    requires cs != []
  {
    if |cs| == 1 then cs[0] else Taken(TakenAll(cs[..|cs| - 1]), cs[|cs| - 1])
  }

  lemma {:induction false} TakenNext(cs: seq<Candidate>, c: Candidate)
    ensures TakenAll(cs + [c]) == if cs == [] then c else Taken(TakenAll(cs), c)
  {
    hide Taken;
    assert (cs + [c])[..|cs|] == cs;
  }

  // ---- an accepted insertion is all of them merged ---------------------------------------------

  /** One round leaves an accepted edit alone unless it is at the candidate's place. */
  lemma {:induction false} StepEach(plan: Plan, c: Candidate, j: nat)
    requires PairwiseApart(plan.accepted) && c.start <= c.end && j < |plan.accepted|
    ensures |plan.accepted| <= |Step(plan, c).accepted|
    ensures Step(plan, c).accepted[j]
         == if SameInsertion(plan.accepted[j], c) then Taken(plan.accepted[j], c) else plan.accepted[j]
  {
    hide TryMerge;
    var accepted := plan.accepted;
    var d := FirstIndex(accepted, a => Duplicate(a, c));
    var i := FirstIndex(accepted, a => SameInsertion(a, c));
    if SameInsertion(accepted[j], c) {
      if d < |accepted| {
        OnlyOne(accepted, c, j, d);
      } else {
        OnlyOne(accepted, c, j, i);
      }
    }
  }

  lemma {:induction false} OnlyOne(accepted: seq<Candidate>, c: Candidate, i: nat, j: nat)
    requires PairwiseApart(accepted) && i < |accepted| && j < |accepted|
    requires SameInsertion(accepted[i], c) && SameRange(accepted[j], c)
    ensures i == j
  {
    if i != j {
      assert Clash(accepted[i], accepted[j]) && Clash(accepted[j], accepted[i]);
    }
  }

  /** An accepted insertion is all insertions considered at its place, merged in order. */
  ghost predicate Merged(a: Candidate, seen: seq<Candidate>) {
    a.start == a.end ==> At(seen, a.file, a.start) != [] && a == TakenAll(At(seen, a.file, a.start))
  }

  ghost predicate AllMerged(plan: Plan, seen: seq<Candidate>) {
    forall i | 0 <= i < |plan.accepted| :: Merged(plan.accepted[i], seen)
  }

  lemma {:induction false} MergedNext(a: Candidate, seen: seq<Candidate>, c: Candidate)
    requires Merged(a, seen)
    ensures Merged(if SameInsertion(a, c) then Taken(a, c) else a, seen + [c])
  {
    hide Taken, TakenAll;
    AtNext(seen, c, a.file, a.start);
    if SameInsertion(a, c) {
      TakenNext(At(seen, a.file, a.start), c);
    } else if a.start == a.end {
      assert !Here(c, a.file, a.start);
      assert At(seen, a.file, a.start) + [] == At(seen, a.file, a.start);
    }
  }

  lemma {:induction false} SameOverlap(accepted: seq<Candidate>, x: Candidate, c: Candidate)
    requires SameRange(x, c)
    ensures Overlaps(accepted, x) <==> Overlaps(accepted, c)
  {
    assert forall i | 0 <= i < |accepted| :: Clash(accepted[i], x) <==> Clash(accepted[i], c);
  }

  /** Where a candidate is accepted as a new edit, none was considered before. */
  lemma {:induction false} FirstHere(plan: Plan, seen: seq<Candidate>, c: Candidate)
    requires Sound(plan, seen) && c.start == c.end && !Overlaps(plan.accepted, c)
    ensures At(seen, c.file, c.start) == []
  {
    hide Overlaps, PairwiseApart, Stems, ConflictHolds;
    var at := At(seen, c.file, c.start);
    if at != [] {
      var k :| 0 <= k < |seen| && seen[k] == at[0];
      SameOverlap(plan.accepted, seen[k], c);
    }
  }

  lemma {:induction false} NewOnlyIfApart(plan: Plan, c: Candidate)
    requires PairwiseApart(plan.accepted) && |Step(plan, c).accepted| > |plan.accepted|
    ensures !Overlaps(plan.accepted, c) && Step(plan, c) == plan.(accepted := plan.accepted + [c])
  {
    hide TryMerge, PairwiseApart;
  }

  lemma {:induction false} StepMerged(plan: Plan, seen: seq<Candidate>, c: Candidate)
    requires Sound(plan, seen) && AllMerged(plan, seen) && c.start <= c.end
    ensures AllMerged(Step(plan, c), seen + [c])
  {
    hide Step, Merged, Taken, Overlaps, Stems, ConflictHolds;
    var next := Step(plan, c).accepted;
    StepLength(plan, c);
    forall i | 0 <= i < |next| ensures Merged(next[i], seen + [c]) {
      if i < |plan.accepted| {
        StepEach(plan, c, i);
        MergedNext(plan.accepted[i], seen, c);
      } else {
        NewOnlyIfApart(plan, c);
        NewMerged(plan, seen, c);
      }
    }
  }

  lemma {:induction false} StepLength(plan: Plan, c: Candidate)
    ensures |plan.accepted| <= |Step(plan, c).accepted| <= |plan.accepted| + 1
  {
    hide TryMerge;
  }

  lemma {:induction false} NewMerged(plan: Plan, seen: seq<Candidate>, c: Candidate)
    requires Sound(plan, seen) && !Overlaps(plan.accepted, c)
    ensures Merged(c, seen + [c])
  {
    hide Overlaps, Sound;
    if c.start == c.end {
      FirstHere(plan, seen, c);
      AtNext(seen, c, c.file, c.start);
      assert [] + [c] == [c];
    }
  }

  function Texts(cs: seq<Candidate>): (texts: seq<string>)
    ensures |texts| == |cs| && forall k | 0 <= k < |cs| :: texts[k] == cs[k].replacement
  {
    seq(|cs|, k requires 0 <= k < |cs| => cs[k].replacement)
  }

  /** For missing effects and capabilities, the text is that of all insertions taken in one
      after the other. */
  lemma {:induction false} TakenAllFolds(cs: seq<Candidate>)
    requires cs != [] && forall k | 0 <= k < |cs| :: IsEffectCapabilityCode(cs[k].code)
    ensures TakenAll(cs) == cs[0].(replacement := FixMerging.FoldTexts(Texts(cs)))
  {
    hide FixClauses.Merge, IsEffectCapabilityCode;
    if |cs| > 1 {
      TakenAllFolds(cs[..|cs| - 1]);
      assert Texts(cs)[..|cs| - 1] == Texts(cs[..|cs| - 1]);
    }
  }

  // ---- no conflict where the compiler suggests the insertions ------------------------------------

  /** A fix for missing effects or capabilities, as the compiler writes it. */
  ghost predicate Suggested(c: Candidate) {
    c.code in {"E2001", "E2005", "E2009"} && exists r :: FixRequests.Made(r) && c.replacement == FixRequests.Written(r)
  }

  lemma {:induction false} TakenSuggested(a: Candidate, c: Candidate)
    requires Suggested(a) && Suggested(c)
    ensures Suggested(Taken(a, c)) && TryMerge(a, c).Some?
  {
    hide FixRequests.Made, FixRequests.Written, FixClauses.Merge;
    var x :| FixRequests.Made(x) && a.replacement == FixRequests.Written(x);
    var y :| FixRequests.Made(y) && c.replacement == FixRequests.Written(y);
    FixRequests.MergeWritten(x, y);
    FixRequests.CombineMade(x, y);
    assert FixRequests.Made(FixRequests.Combine(x, y));
  }

  lemma {:induction false} TakenAllSuggested(cs: seq<Candidate>)
    requires cs != [] && forall k | 0 <= k < |cs| :: Suggested(cs[k])
    ensures Suggested(TakenAll(cs))
  {
    hide Suggested, Taken;
    if |cs| > 1 {
      TakenAllSuggested(cs[..|cs| - 1]);
      TakenSuggested(TakenAll(cs[..|cs| - 1]), cs[|cs| - 1]);
    }
  }

  /** Where an insertion is accepted and all are the compiler's, none is a conflict. */
  ghost predicate Quiet(plan: Plan, seen: seq<Candidate>, file: string, at: nat) {
    (exists i | 0 <= i < |plan.accepted| :: Here(plan.accepted[i], file, at))
    && (forall k | 0 <= k < |At(seen, file, at)| :: Suggested(At(seen, file, at)[k])) ==>
      forall i | 0 <= i < |plan.conflicts| :: !Here(plan.conflicts[i].candidate, file, at)
  }

  /** A new conflict at a place where an insertion was accepted could not be merged. */
  lemma {:induction false} ConflictUnmerged(plan: Plan, c: Candidate, i: nat)
    requires PairwiseApart(plan.accepted) && c.start <= c.end && i < |plan.accepted|
    requires SameInsertion(plan.accepted[i], c) && TryMerge(plan.accepted[i], c).Some?
    ensures Step(plan, c).conflicts == plan.conflicts
  {
    hide TryMerge;
    var accepted := plan.accepted;
    var k := FirstIndex(accepted, a => SameInsertion(a, c));
    OnlyOne(accepted, c, i, k);
  }

  lemma {:induction false} StepQuiet(plan: Plan, seen: seq<Candidate>, c: Candidate, file: string, at: nat)
    requires Sound(plan, seen) && AllMerged(plan, seen) && Quiet(plan, seen, file, at) && c.start <= c.end
    ensures Quiet(Step(plan, c), seen + [c], file, at)
  {
    hide Step, Suggested, Overlaps, Stems, Merged;
    var next, later := Step(plan, c), seen + [c];
    AtNext(seen, c, file, at);
    StepLength(plan, c);
    StepShape(plan, c);
    if i :| 0 <= i < |next.accepted| && Here(next.accepted[i], file, at) {
      if forall k | 0 <= k < |At(later, file, at)| :: Suggested(At(later, file, at)[k]) {
        SuggestedBefore(seen, c, file, at);
        if i < |plan.accepted| {
          StepEach(plan, c, i);
          assert Here(plan.accepted[i], file, at);
          if Here(c, file, at) {
            QuietHere(plan, seen, c, file, at, i);
          }
        } else {
          NewOnlyIfApart(plan, c);
          FirstHere(plan, seen, c);
          NoneRaised(plan, seen, file, at);
        }
      }
    }
  }

  lemma {:induction false} SuggestedBefore(seen: seq<Candidate>, c: Candidate, file: string, at: nat)
    requires forall k | 0 <= k < |At(seen + [c], file, at)| :: Suggested(At(seen + [c], file, at)[k])
    ensures forall k | 0 <= k < |At(seen, file, at)| :: Suggested(At(seen, file, at)[k])
    ensures Here(c, file, at) ==> Suggested(c)
  {
    hide Suggested;
    AtNext(seen, c, file, at);
    var before, after := At(seen, file, at), At(seen + [c], file, at);
    forall k | 0 <= k < |before| ensures Suggested(before[k]) {
      assert after[k] == before[k];
    }
    if Here(c, file, at) {
      assert after[|before|] == c;
    }
  }

  lemma {:induction false} QuietHere(plan: Plan, seen: seq<Candidate>, c: Candidate, file: string, at: nat, i: nat)
    requires Sound(plan, seen) && AllMerged(plan, seen) && i < |plan.accepted| && Here(plan.accepted[i], file, at)
    requires (forall k | 0 <= k < |At(seen, file, at)| :: Suggested(At(seen, file, at)[k]))
    requires Here(c, file, at) && Suggested(c)
    ensures Step(plan, c).conflicts == plan.conflicts
  {
    hide Step, Suggested, Overlaps, Stems, TryMerge;
    assert Merged(plan.accepted[i], seen);
    TakenAllSuggested(At(seen, file, at));
    TakenSuggested(plan.accepted[i], c);
    ConflictUnmerged(plan, c, i);
  }

  lemma {:induction false} NoneRaised(plan: Plan, seen: seq<Candidate>, file: string, at: nat)
    requires Sound(plan, seen) && At(seen, file, at) == []
    ensures forall i | 0 <= i < |plan.conflicts| :: !Here(plan.conflicts[i].candidate, file, at)
  {
    forall i | 0 <= i < |plan.conflicts| ensures !Here(plan.conflicts[i].candidate, file, at) {
      var x := plan.conflicts[i];
      assert ConflictHolds(x, plan.accepted, seen);
      if Here(x.candidate, file, at) {
        AtFinds(seen, file, at, x.candidate);
      }
    }
  }

  lemma {:induction false} GreedyMerged(plan: Plan, seen: seq<Candidate>, cs: seq<Candidate>, file: string, at: nat)
    requires Sound(plan, seen) && AllMerged(plan, seen) && Quiet(plan, seen, file, at) && WellFormed(cs)
    ensures AllMerged(Greedy(plan, cs), seen + cs) && Quiet(Greedy(plan, cs), seen + cs, file, at)
    decreases |cs|
  {
    hide Step, Sound, AllMerged, Quiet;
    if cs == [] {
      assert seen + cs == seen;
    } else {
      StepSound(plan, seen, cs[0]);
      StepMerged(plan, seen, cs[0]);
      StepQuiet(plan, seen, cs[0], file, at);
      GreedyMerged(Step(plan, cs[0]), seen + [cs[0]], cs[1..], file, at);
      assert seen + [cs[0]] + cs[1..] == seen + cs;
    }
  }

  /** Every insertion of the plan is all insertions suggested at its place, merged in the
      order of the plan; and none of them is reported as a conflict if the compiler wrote them. */
  lemma {:induction false} InsertionIsAllMerged(ds: seq<Diagnostic>, a: Candidate)
    requires a in SafeFixPlan(ds).accepted && a.start == a.end
    ensures var here := At(InOrder(Candidates(ds)), a.file, a.start);
            && here != [] && a == TakenAll(here)
            && ((forall k | 0 <= k < |here| :: Suggested(here[k])) ==>
                  forall x <- SafeFixPlan(ds).conflicts :: !Here(x.candidate, a.file, a.start))
  {
    hide Candidates, InOrder, TakenAll, At, Suggested;
    var sorted, plan := InOrder(Candidates(ds)), SafeFixPlan(ds);
    InOrderWellFormed(ds);
    GreedyMerged(Plan([], []), [], sorted, a.file, a.start);
    assert [] + sorted == sorted;
    var i :| 0 <= i < |plan.accepted| && plan.accepted[i] == a;
    assert Merged(plan.accepted[i], sorted);
    assert Here(plan.accepted[i], a.file, a.start);
    assert Quiet(plan, sorted, a.file, a.start);
  }

  lemma {:induction false} InOrderWellFormed(ds: seq<Diagnostic>)
    ensures WellFormed(InOrder(Candidates(ds)))
  {
    var cs, sorted := Candidates(ds), InOrder(Candidates(ds));
    CandidatesWellFormed(ds);
    forall k | 0 <= k < |sorted| ensures sorted[k].start <= sorted[k].end {
      assert sorted[k] in multiset(sorted);
      assert sorted[k] in cs;
    }
  }

  // ---- what is asked for in the end --------------------------------------------------------------

  /** The candidates are the written requests. */
  predicate Requests(cs: seq<Candidate>, rs: seq<FixRequests.Request>) {
    |cs| == |rs| && forall k | 0 <= k < |cs| ::
      IsEffectCapabilityCode(cs[k].code) && FixRequests.Made(rs[k]) && cs[k].replacement == FixRequests.Written(rs[k])
  }

  lemma {:induction false} TakenWritten(a: Candidate, c: Candidate, x: FixRequests.Request, y: FixRequests.Request)
    requires IsEffectCapabilityCode(a.code) && IsEffectCapabilityCode(c.code)
    requires FixRequests.Made(x) && a.replacement == FixRequests.Written(x)
    requires FixRequests.Made(y) && c.replacement == FixRequests.Written(y)
    ensures Taken(a, c) == a.(replacement := FixRequests.Written(FixRequests.Combine(x, y)))
  {
    hide FixRequests.Made, FixRequests.Written, FixClauses.Merge;
    FixRequests.AbsorbWritten(x, y);
    FixRequests.MergeWritten(x, y);
  }

  lemma {:induction false} TakenAllWritten(cs: seq<Candidate>, rs: seq<FixRequests.Request>)
    requires cs != [] && Requests(cs, rs)
    ensures FixRequests.Made(FixRequests.CombineAll(rs))
    ensures TakenAll(cs) == cs[0].(replacement := FixRequests.Written(FixRequests.CombineAll(rs)))
  {
    hide FixRequests.Made, FixRequests.Written, Taken;
    if |cs| > 1 {
      var front, asked := cs[..|cs| - 1], rs[..|rs| - 1];
      TakenAllWritten(front, asked);
      TakenWritten(TakenAll(front), cs[|cs| - 1], FixRequests.CombineAll(asked), rs[|rs| - 1]);
      FixRequests.CombineMade(FixRequests.CombineAll(asked), rs[|rs| - 1]);
    }
  }

  lemma {:induction false} RequestsSuggested(cs: seq<Candidate>, rs: seq<FixRequests.Request>)
    requires Requests(cs, rs)
    ensures forall k | 0 <= k < |cs| :: Suggested(cs[k])
  {
    hide FixRequests.Made, FixRequests.Written;
    forall k | 0 <= k < |cs| ensures Suggested(cs[k]) {
      assert FixRequests.Made(rs[k]);
    }
  }

  /** The plan's insertion at a place asks for the last list of effects and the last list of
      capabilities suggested there, and reports no conflict there. */
  lemma {:induction false} InsertionAsks(ds: seq<Diagnostic>, a: Candidate, rs: seq<FixRequests.Request>)
    requires a in SafeFixPlan(ds).accepted && a.start == a.end
    requires Requests(At(InOrder(Candidates(ds)), a.file, a.start), rs)
    ensures rs != [] && a.replacement == FixRequests.Written(FixRequests.CombineAll(rs))
    ensures FixRequests.CombineAll(rs).effects == FixRequests.LastList(FixRequests.Effects(rs))
    ensures FixRequests.CombineAll(rs).capabilities == FixRequests.LastList(FixRequests.Capabilities(rs))
    ensures forall x <- SafeFixPlan(ds).conflicts :: !Here(x.candidate, a.file, a.start)
  {
    hide SafeFixPlan, Candidates, InOrder, At, FixRequests.Written, FixRequests.CombineAll, Suggested, Here, Requests;
    var here := At(InOrder(Candidates(ds)), a.file, a.start);
    InsertionIsAllMerged(ds, a);
    RequestsSuggested(here, rs);
    SameLength(here, rs);
    TakenAllWritten(here, rs);
    FixRequests.CombineAllLast(rs);
  }

  lemma {:induction false} SameLength(cs: seq<Candidate>, rs: seq<FixRequests.Request>)
    requires Requests(cs, rs)
    ensures |cs| == |rs|
  {
  }

  /** Every list of names is contained in the last one. */
  predicate LastHasAll(lists: seq<seq<string>>) {
    forall k | 0 <= k < |lists| :: FixRequests.Subset(lists[k], FixRequests.LastList(lists))
  }

  predicate Asks(clauses: FixReading.Clauses, rs: seq<FixRequests.Request>) {
    forall k | 0 <= k < |rs| ::
      FixRequests.Subset(rs[k].effects, clauses.effects) && FixRequests.Subset(rs[k].capabilities, clauses.capabilities)
  }

  /** From the diagnostics to the fixed source: read where the plan's insertion stands in it,
      the signature has every effect and capability suggested for the place exactly when the
      last list of effects contains all the others, and so for capabilities. */
  lemma {:induction false} NothingLostExactly(ds: seq<Diagnostic>, a: Candidate, rs: seq<FixRequests.Request>,
                                              source: string, i: nat)
    requires a in SafeFixPlan(ds).accepted && a.start == a.end
    requires Requests(At(InOrder(Candidates(ds)), a.file, a.start), rs)
    requires forall r <- rs :: (forall x <- r.effects :: PrintedText.IsIdentifier(x))
                               && forall x <- r.capabilities :: PrintedText.IsIdentifier(x)
    requires PrintedLexing.Spells(source, i, a.replacement) && i + |a.replacement| <= |source|
    requires FixReading.EndsClauses(PrintedLexing.Kinds(Scanner.LexFrom(source, i + |a.replacement|).tokens))
    ensures var clauses := FixReading.ParseClauses(PrintedLexing.Kinds(Scanner.LexFrom(source, i).tokens));
            clauses.Some? && (Asks(clauses.value, rs) <==>
                                LastHasAll(FixRequests.Effects(rs)) && LastHasAll(FixRequests.Capabilities(rs)))
  {
    hide SafeFixPlan, Candidates, InOrder, At, Requests, FixRequests.Written, FixRequests.CombineAll;
    hide PrintedText.IsIdentifier, PrintedLexing.Spells, FixReading.EndsClauses, FixReading.ParseClauses;
    hide Scanner.LexFrom, FixRequests.LastList, FixRequests.Subset;
    InsertionAsks(ds, a, rs);
    CombinedIdentifiers(rs);
    FixReading.InsertionRead(source, i, FixRequests.CombineAll(rs));
    var effects, capabilities := FixRequests.Effects(rs), FixRequests.Capabilities(rs);
    assert forall k | 0 <= k < |rs| :: effects[k] == rs[k].effects && capabilities[k] == rs[k].capabilities;
  }

  lemma {:induction false} CombinedIdentifiers(rs: seq<FixRequests.Request>)
    requires rs != []
    requires forall r <- rs :: (forall x <- r.effects :: PrintedText.IsIdentifier(x))
                               && forall x <- r.capabilities :: PrintedText.IsIdentifier(x)
    ensures forall x <- FixRequests.CombineAll(rs).effects :: PrintedText.IsIdentifier(x)
    ensures forall x <- FixRequests.CombineAll(rs).capabilities :: PrintedText.IsIdentifier(x)
  {
    hide PrintedText.IsIdentifier;
    if |rs| > 1 {
      CombinedIdentifiers(rs[..|rs| - 1]);
    }
  }

  // ---- an effect that is lost ---------------------------------------------------------------------

  const DIRECT := FixRequests.Request(["io"], [], true, false)
  const CLOSURE := FixRequests.Request(["fs", "io"], [], true, false)

  function Suggestion(code: string, file: string, at: nat, text: string, message: string): Diagnostic {
    Diagnostic(code, Some(file), [Fix(Some(at), Some(at), Some(text), message)])
  }

  lemma {:induction false} LostTexts()
    ensures FixRequests.Written(DIRECT) == " effects { io }" && FixRequests.Written(CLOSURE) == " effects { fs, io }"
    ensures FixRequests.Made(DIRECT) && FixRequests.Made(CLOSURE)
    ensures FixRequests.Combine(CLOSURE, DIRECT) == DIRECT
  {
    FixRequests.KnownArePlain();
    assert "io" == FixRequests.KNOWN_EFFECTS[0] && "fs" == FixRequests.KNOWN_EFFECTS[1];
    hide FixRequests.PlainName;
    assert FixRequests.JoinNames(["io"]) == "io";
    assert ["fs", "io"][1..] == ["io"];
    assert FixRequests.JoinNames(["fs", "io"]) == "fs" + ", " + "io";
  }

  lemma {:induction false} CmpPrefix(common: string, a: string, b: string)
    ensures CmpStr(common + a, common + b) == CmpStr(a, b)
  {
    if common == "" {
      assert "" + a == a && "" + b == b;
    } else {
      assert (common + a)[1..] == common[1..] + a && (common + b)[1..] == common[1..] + b;
      CmpPrefix(common[1..], a, b);
    }
  }

  lemma {:induction false} ClosureFirst()
    ensures CmpStr(" effects { io }", " effects { fs, io }") > 0
  {
    CmpPrefix(" effects { ", "io }", "fs, io }");
    assert " effects { " + "io }" == " effects { io }" && " effects { " + "fs, io }" == " effects { fs, io }";
  }

  /** A function that uses `io` itself and `fs` through its callees: the list of effects it
      uses itself is inserted in place of the list of all, and no conflict is reported. */
  lemma {:induction false} EffectLost(file: string, at: nat, message1: string, message2: string)
    requires file != ""
    ensures var ds := [Suggestion("E2001", file, at, " effects { io }", message1),
                       Suggestion("E2005", file, at, " effects { fs, io }", message2)];
            SafeFixPlan(ds) == Plan([Candidate(file, at, at, " effects { io }", message2, "E2005")], [])
  {
    hide FixClauses.Merge, FixRequests.Written, CmpStr;
    var direct := Candidate(file, at, at, " effects { io }", message1, "E2001");
    var all := Candidate(file, at, at, " effects { fs, io }", message2, "E2005");
    LostTexts();
    TwoCandidates(file, at, message1, message2);
    TwoSorted(direct, all);
    TwoRounds(direct, all);
  }

  lemma {:induction false} TwoCandidates(file: string, at: nat, message1: string, message2: string)
    requires file != ""
    ensures Candidates([Suggestion("E2001", file, at, " effects { io }", message1),
                        Suggestion("E2005", file, at, " effects { fs, io }", message2)])
         == [Candidate(file, at, at, " effects { io }", message1, "E2001"),
             Candidate(file, at, at, " effects { fs, io }", message2, "E2005")]
  {
    assert SAFE_FIX_CODES[4] == "E2001" && SAFE_FIX_CODES[5] == "E2005";
    hide Suggestion, FromDiagnostic;
    OneCandidate("E2001", file, at, " effects { io }", message1);
    OneCandidate("E2005", file, at, " effects { fs, io }", message2);
    FromTwo(Suggestion("E2001", file, at, " effects { io }", message1),
            Suggestion("E2005", file, at, " effects { fs, io }", message2));
  }

  lemma {:induction false} FromTwo(d: Diagnostic, e: Diagnostic)
    ensures Candidates([d, e]) == FromDiagnostic(d) + FromDiagnostic(e)
  {
    hide FromDiagnostic;
    assert [d, e][1..] == [e] && [e][1..] == [];
    assert Candidates([e]) == FromDiagnostic(e) + Candidates([]);
  }

  lemma {:induction false} TwoSorted(direct: Candidate, all: Candidate)
    requires SameRange(direct, all)
    requires direct.replacement == " effects { io }" && all.replacement == " effects { fs, io }"
    ensures InOrder([direct, all]) == [all, direct]
  {
    hide CmpStr;
    ClosureFirst();
    CmpStrOrder(direct.file, all.file);
    assert !Leq(direct, all);
    assert [direct, all][1..] == [all] && [all][1..] == [];
    assert Sorting.Sort(Leq, [all]) == [all];
    assert Sorting.Insert(Leq, direct, [all]) == [all] + Sorting.Insert(Leq, direct, []);
  }

  /** One round where the only accepted edit is an insertion at the candidate's place. */
  lemma {:induction false} OneRound(a: Candidate, c: Candidate)
    requires SameInsertion(a, c) && TryMerge(a, c).Some?
    ensures Step(Plan([], []), a) == Plan([a], [])
    ensures Step(Plan([a], []), c) == Plan([Taken(a, c)], [])
  {
    hide TryMerge;
    var accepted := [a];
    assert accepted[1..] == [];
    var d, i := FirstIndex(accepted, x => Duplicate(x, c)), FirstIndex(accepted, x => SameInsertion(x, c));
    assert i == 0 && (d == 0 <==> Duplicate(a, c));
  }

  lemma {:induction false} TwoRounds(direct: Candidate, all: Candidate)
    requires SameRange(direct, all) && direct.start == direct.end
    requires direct.code == "E2001" && all.code == "E2005"
    requires direct.replacement == FixRequests.Written(DIRECT) && all.replacement == FixRequests.Written(CLOSURE)
    requires FixRequests.Made(DIRECT) && FixRequests.Made(CLOSURE)
    requires FixRequests.Combine(CLOSURE, DIRECT) == DIRECT
    ensures Greedy(Plan([], []), [all, direct]) == Plan([all.(replacement := direct.replacement)], [])
  {
    hide FixClauses.Merge, FixRequests.Written, FixRequests.Made, Step;
    FixRequests.MergeWritten(CLOSURE, DIRECT);
    TakenWritten(all, direct, CLOSURE, DIRECT);
    OneRound(all, direct);
    var first, second := Plan([all], []), Plan([all.(replacement := direct.replacement)], []);
    assert [all, direct][1..] == [direct] && [direct][1..] == [];
    assert Greedy(second, []) == second && Greedy(first, [direct]) == Greedy(second, []);
  }

  // ---- a clause that is lost -----------------------------------------------------------------------

  /** Three insertions of the planner, the compiler's or not, of which the second hides the
      clause of the first and the third loses it. */
  lemma {:induction false} ClauseLost(file: string, at: nat, message: string)
    requires file != ""
    ensures var e, c := FixMerging.HIDING_EFFECT, FixMerging.A_CAPABILITY;
            var ds := [Suggestion("E2009", file, at, c, message), Suggestion("E2001", file, at, e, message),
                       Suggestion("E2001", file, at, e + " ", message)];
            SafeFixPlan(ds) == Plan([Candidate(file, at, at, e + " ", message, "E2009")], [])
  {
    hide Candidates, Suggestion, Greedy, InOrder, FixMerging.HIDING_EFFECT, FixMerging.A_CAPABILITY;
    var e, c := FixMerging.HIDING_EFFECT, FixMerging.A_CAPABILITY;
    ThreeCandidates(file, at, message, c, e, e + " ");
    ThreePlanned([Candidate(file, at, at, c, message, "E2009"), Candidate(file, at, at, e, message, "E2001"),
                  Candidate(file, at, at, e + " ", message, "E2001")]);
  }

  lemma {:induction false} ThreePlanned(cs: seq<Candidate>)
    requires |cs| == 3 && SameInsertion(cs[0], cs[1]) && SameInsertion(cs[1], cs[2])
    requires forall k | 0 <= k < 3 :: IsEffectCapabilityCode(cs[k].code)
    requires cs[0].replacement == FixMerging.A_CAPABILITY && cs[1].replacement == FixMerging.HIDING_EFFECT
    requires cs[2].replacement == FixMerging.HIDING_EFFECT + " "
    ensures Greedy(Plan([], []), InOrder(cs))
         == Plan([cs[0].(replacement := FixMerging.HIDING_EFFECT + " ")], [])
  {
    hide CmpStr, FixMerging.FoldTexts, FixClauses.Merge, Step, Taken, InOrder, Greedy, IsEffectCapabilityCode;
    hide FixMerging.HIDING_EFFECT, FixMerging.A_CAPABILITY, TakenAll;
    ThreeSorted(cs);
    FixMerging.ClauseForgotten();
    var e, c := FixMerging.HIDING_EFFECT, FixMerging.A_CAPABILITY;
    assert Texts(cs) == [c, e, e + " "] && Texts(cs[..2]) == [c, e, e + " "][..2];
    TakenAllFolds(cs);
    TakenAllFolds(cs[..2]);
    ThreeRounds(cs);
  }

  lemma {:induction false} ThreeCandidates(file: string, at: nat, message: string, a: string, b: string, c: string)
    requires file != ""
    ensures Candidates([Suggestion("E2009", file, at, a, message), Suggestion("E2001", file, at, b, message),
                        Suggestion("E2001", file, at, c, message)])
         == [Candidate(file, at, at, a, message, "E2009"), Candidate(file, at, at, b, message, "E2001"),
             Candidate(file, at, at, c, message, "E2001")]
  {
    assert SAFE_FIX_CODES[4] == "E2001" && SAFE_FIX_CODES[6] == "E2009";
    hide Suggestion, FromDiagnostic;
    var x, y := Suggestion("E2009", file, at, a, message), Suggestion("E2001", file, at, b, message);
    var z := Suggestion("E2001", file, at, c, message);
    OneCandidate("E2009", file, at, a, message);
    OneCandidate("E2001", file, at, b, message);
    OneCandidate("E2001", file, at, c, message);
    FromTwo(y, z);
    assert [x, y, z][1..] == [y, z];
  }

  lemma {:induction false} OneCandidate(code: string, file: string, at: nat, text: string, message: string)
    requires file != "" && code in SAFE_FIX_CODES
    ensures FromDiagnostic(Suggestion(code, file, at, text, message))
         == [Candidate(file, at, at, text, message, code)]
  {
    var fixes := Suggestion(code, file, at, text, message).fixes;
    assert fixes[1..] == [] && FromFixes(file, code, []) == [];
    assert FromFixes(file, code, fixes) == [Candidate(file, at, at, text, message, code)] + [];
  }

  lemma {:induction false} ThreeOrdered(cs: seq<Candidate>)
    requires |cs| == 3 && SameRange(cs[0], cs[1]) && SameRange(cs[1], cs[2])
    requires cs[0].replacement == FixMerging.A_CAPABILITY && cs[1].replacement == FixMerging.HIDING_EFFECT
    requires cs[2].replacement == FixMerging.HIDING_EFFECT + " "
    ensures Leq(cs[0], cs[1]) && Leq(cs[1], cs[2])
  {
    CmpStrOrder(cs[0].file, cs[0].file);
    CmpPrefix(FixMerging.HIDING_EFFECT, "", " ");
    assert FixMerging.HIDING_EFFECT + "" == FixMerging.HIDING_EFFECT;
    assert FixMerging.A_CAPABILITY[0] < FixMerging.HIDING_EFFECT[0];
    assert CmpStr("", " ") < 0;
  }

  lemma {:induction false} ThreeStay(cs: seq<Candidate>)
    requires |cs| == 3 && Leq(cs[0], cs[1]) && Leq(cs[1], cs[2])
    ensures InOrder(cs) == cs
  {
    hide Leq;
    assert cs[1..] == [cs[1], cs[2]] && cs[1..][1..] == [cs[2]] && [cs[2]][1..] == [];
    assert Sorting.Sort(Leq, [cs[2]]) == [cs[2]];
    assert Sorting.Sort(Leq, cs[1..]) == [cs[1]] + [cs[2]];
    assert Sorting.Sort(Leq, cs) == [cs[0]] + ([cs[1]] + [cs[2]]);
  }

  lemma {:induction false} ThreeSorted(cs: seq<Candidate>)
    requires |cs| == 3 && SameRange(cs[0], cs[1]) && SameRange(cs[1], cs[2])
    requires cs[0].replacement == FixMerging.A_CAPABILITY && cs[1].replacement == FixMerging.HIDING_EFFECT
    requires cs[2].replacement == FixMerging.HIDING_EFFECT + " "
    ensures InOrder(cs) == cs
  {
    hide Leq, InOrder;
    ThreeOrdered(cs);
    ThreeStay(cs);
  }

  lemma {:induction false} ThreeRounds(cs: seq<Candidate>)
    requires |cs| == 3 && SameInsertion(cs[0], cs[1]) && SameInsertion(cs[1], cs[2])
    requires TryMerge(cs[0], cs[1]).Some? && TryMerge(TakenAll(cs[..2]), cs[2]).Some?
    ensures Greedy(Plan([], []), cs) == Plan([TakenAll(cs)], [])
  {
    hide Step, TryMerge, Taken;
    var two := cs[..2];
    assert two[..1] == [cs[0]] && TakenAll([cs[0]]) == cs[0] && TakenAll(two) == Taken(cs[0], cs[1]);
    OneRound(cs[0], cs[1]);
    OneRound(TakenAll(two), cs[2]);
    assert cs[1..][1..] == [cs[2]] && [cs[2]][1..] == [];
    var last := Plan([TakenAll(cs)], []);
    assert Greedy(last, []) == last && Greedy(Plan([TakenAll(two)], []), [cs[2]]) == Greedy(last, []);
    assert Greedy(Plan([cs[0]], []), cs[1..]) == Greedy(Plan([TakenAll(two)], []), [cs[2]]);
  }
}
