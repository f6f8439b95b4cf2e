/** Text edits applied back to front, in place. */
module TextEdits {
  import opened Wrappers
  import Sorting

  /** UTF-8 text as bytes. */
  type Text = seq<Byte>

  predicate Continuation(b: Byte) {
    0x80 <= b < 0xC0
  }

  /** What every UTF-8 string satisfies and the applier relies on. */
  predicate StartsWhole(text: Text) {
    text != [] ==> !Continuation(text[0])
  }

  predicate IsCharBoundary(text: Text, i: nat) {
    i == 0 || i == |text| || (i < |text| && !Continuation(text[i]))
  }

  datatype Edit = Edit(start: nat, end: nat, replacement: Text)

  predicate RangesConflict(startA: nat, endA: nat, startB: nat, endB: nat) {
    if startA == endA && startB == endB then startA == startB
    else if startA == endA then startB <= startA < endB
    else if startB == endB then startA <= startB < endA
    else startA < endB && startB < endA
  }

  predicate Conflict(a: Edit, b: Edit) {
    RangesConflict(a.start, a.end, b.start, b.end)
  }

  predicate NonConflicting(edits: seq<Edit>) {
    forall i, j | 0 <= i < j < |edits| :: !Conflict(edits[i], edits[j])
  }

  lemma {:induction false} ConflictSymmetric(startA: nat, endA: nat, startB: nat, endB: nat)
    ensures RangesConflict(startA, endA, startB, endB) <==> RangesConflict(startB, endB, startA, endA)
  {
  }

  // ---- the order of application ----------------------------------------------------

  /** Descending by start, then by end. */
  predicate Before(a: Edit, b: Edit) {
    a.start > b.start || (a.start == b.start && a.end >= b.end)
  }

  predicate Descending(edits: seq<Edit>) {
    forall i, j | 0 <= i < j < |edits| :: Before(edits[i], edits[j])
  }

  /** The edits as they are applied. */
  function BackToFront(edits: seq<Edit>): (r: seq<Edit>)
    ensures multiset(r) == multiset(edits)
  {
    Sorting.Sort(Before, edits)
  }

  // ---- the simultaneous splice --------------------------------------------------------

  /** The edit lies inside the text at character boundaries. */
  predicate Fits(source: Text, e: Edit) {
    e.start <= e.end <= |source| && IsCharBoundary(source, e.start) && IsCharBoundary(source, e.end)
  }

  /** Ranges of a descending list follow each other down from `limit`. */
  predicate Chained(desc: seq<Edit>, limit: nat) {
    desc != [] ==> desc[0].start <= desc[0].end <= limit && Chained(desc[1..], desc[0].start)
  }

  /** `source[..limit]` with every edit replaced at once: each untouched segment of the
      source, and between them the replacements. */
  function Splice(source: Text, desc: seq<Edit>, limit: nat): Text
    requires limit <= |source| && Chained(desc, limit)
  {
    if desc == [] then source[..limit]
    else Splice(source, desc[1..], desc[0].start) + desc[0].replacement + source[desc[0].end..limit]
  }

  /** Non-conflicting, well-formed neighbours in descending order do not overlap. */
  lemma {:induction false} NeighboursChain(later: Edit, earlier: Edit)
    requires Before(later, earlier) && !Conflict(later, earlier)
    requires later.start <= later.end && earlier.start <= earlier.end
    ensures earlier.end <= later.start
  {
  }

  lemma {:induction false} FittingChained(source: Text, desc: seq<Edit>, limit: nat)
    requires Descending(desc) && NonConflicting(desc) && limit <= |source|
    requires forall e <- desc :: Fits(source, e)
    requires desc != [] ==> desc[0].end <= limit
    ensures Chained(desc, limit)
  {
    if desc != [] {
      assert Fits(source, desc[0]);
      if |desc| > 1 {
        assert Fits(source, desc[1]);
        NeighboursChain(desc[0], desc[1]);
      }
      FittingChained(source, desc[1..], desc[0].start);
    }
  }

  /** How the moving buffer answers a boundary question at or below the last edit. */
  lemma {:induction false} BoundaryUnmoved(source: Text, cut: nat, tail: Text, p: nat)
    requires p <= cut <= |source| && IsCharBoundary(source, cut) && StartsWhole(tail)
    ensures IsCharBoundary(source[..cut] + tail, p) <==> IsCharBoundary(source, p)
  {
    if p < cut {
      assert (source[..cut] + tail)[p] == source[p];
    } else if tail != [] {
      assert (source[..cut] + tail)[p] == tail[0];
    }
  }

  lemma {:induction false} TailStartsWhole(source: Text, e: Edit, cut: nat, tail: Text)
    requires StartsWhole(source) && Fits(source, e) && e.end <= cut <= |source|
    requires StartsWhole(e.replacement) && StartsWhole(tail)
    ensures StartsWhole(e.replacement + source[e.end..cut] + tail)
  {
    if e.replacement == [] {
      assert e.replacement + source[e.end..cut] + tail == source[e.end..cut] + tail;
    }
  }

  /** The checks and the replacement of one round, on the buffer as it stands. */
  method ReplaceRange(output: Text, e: Edit) returns (r: Option<Text>)
    ensures r.Some? <==> Fits(output, e)
    ensures r.Some? ==> r.value == output[..e.start] + e.replacement + output[e.end..]
  {
    if e.end < e.start || e.end > |output| {
      return None;
    }
    if !IsCharBoundary(output, e.start) || !IsCharBoundary(output, e.end) {
      return None;
    }
    r := Some(output[..e.start] + e.replacement + output[e.end..]);
  }

  /** Checking the moving buffer answers for the original text. */
  lemma {:induction false} FitsUnmoved(source: Text, cut: nat, tail: Text, e: Edit)
    requires cut <= |source| && IsCharBoundary(source, cut) && StartsWhole(tail)
    requires e.start <= e.end ==> e.end <= cut || (cut == |source| && tail == [])
    ensures Fits(source[..cut] + tail, e) <==> Fits(source, e)
    ensures Fits(source, e) ==> e.end <= cut
  {
    if e.start <= e.end <= cut {
      BoundaryUnmoved(source, cut, tail, e.start);
      BoundaryUnmoved(source, cut, tail, e.end);
    }
  }

  /** What holds of the buffer between two rounds: the source up to the last edit, then the
      text built behind it. */
  ghost predicate Spliced(source: Text, ordered: seq<Edit>, i: nat, cut: nat, tail: Text)
    requires i <= |ordered|
  {
    && cut <= |source| && IsCharBoundary(source, cut) && StartsWhole(tail)
    && (if i == 0 then cut == |source| && tail == [] else cut == ordered[i - 1].start)
    && (forall k | 0 <= k < i :: Fits(source, ordered[k]))
    && (Chained(ordered[i..], cut) ==>
          Chained(ordered, |source|) && Splice(source, ordered[i..], cut) + tail == Splice(source, ordered, |source|))
  }

  function NextTail(source: Text, e: Edit, cut: nat, tail: Text): Text
    requires e.end <= cut <= |source|
  {
    e.replacement + source[e.end..cut] + tail
  }

  /** One round keeps it. */
  lemma {:induction false} Round(source: Text, ordered: seq<Edit>, i: nat, cut: nat, tail: Text)
    requires StartsWhole(source) && Descending(ordered) && NonConflicting(ordered)
    requires i < |ordered| && StartsWhole(ordered[i].replacement) && Spliced(source, ordered, i, cut, tail)
    ensures var e, output := ordered[i], source[..cut] + tail;
            && (Fits(output, e) <==> Fits(source, e))
            && (Fits(source, e) ==>
                  && e.start <= e.end <= cut
                  && Spliced(source, ordered, i + 1, e.start, NextTail(source, e, cut, tail))
                  && output[..e.start] + e.replacement + output[e.end..]
                       == source[..e.start] + NextTail(source, e, cut, tail))
  {
    hide Splice, Chained, Conflict, IsCharBoundary, Before;
    var e := ordered[i];
    if i > 0 && e.start <= e.end {
      NeighboursChain(ordered[i - 1], e);
    }
    FitsUnmoved(source, cut, tail, e);
    if Fits(source, e) {
      TailStartsWhole(source, e, cut, tail);
      OutputStep(source, e, cut, tail);
      SpliceStep(source, ordered, i, cut, tail);
    }
  }

  lemma {:induction false} NoRound(source: Text, ordered: seq<Edit>)
    ensures Spliced(source, ordered, 0, |source|, []) && source == source[..|source|] + []
  {
    assert ordered[0..] == ordered;
  }

  /** After the last round the buffer is the splice. */
  lemma {:induction false} LastRound(source: Text, ordered: seq<Edit>, cut: nat, tail: Text)
    requires Descending(ordered) && NonConflicting(ordered) && Spliced(source, ordered, |ordered|, cut, tail)
    ensures forall k | 0 <= k < |ordered| :: Fits(source, ordered[k])
    ensures Chained(ordered, |source|) && source[..cut] + tail == Splice(source, ordered, |source|)
  {
    assert ordered[|ordered|..] == [];
  }

  /** In-place application equals the simultaneous splice. It succeeds exactly when every
      edit fits the original text, although it checks the buffer as it moves. */
  method ApplyTextEdits(source: Text, edits: seq<Edit>) returns (r: Option<Text>)
    requires StartsWhole(source) && NonConflicting(edits)
    requires forall e <- edits :: StartsWhole(e.replacement)
    ensures r.Some? <==> forall e <- edits :: Fits(source, e)
    ensures r.Some? ==> Chained(BackToFront(edits), |source|) && r.value == Splice(source, BackToFront(edits), |source|)
  {
    hide Fits, NonConflicting, Descending, Splice, Chained, Spliced, BackToFront, NextTail;
    var ordered := BackToFront(edits);
    SortDescending(edits);
    SortNonConflicting(edits);
    SameEdits(edits);
    NoRound(source, ordered);
    var output := source;
    ghost var cut: nat, tail: Text := |source|, [];
    for i := 0 to |ordered|
      invariant cut <= |source| && output == source[..cut] + tail && Spliced(source, ordered, i, cut, tail)
    {
      var e := ordered[i];
      assert e in edits;
      Round(source, ordered, i, cut, tail);
      var next := ReplaceRange(output, e);
      if next.None? {
        return None;
      }
      output := next.value;
      tail := NextTail(source, e, cut, tail);
      cut := e.start;
    }
    LastRound(source, ordered, cut, tail);
    r := Some(output);
  }

  lemma {:induction false} OutputStep(source: Text, e: Edit, cut: nat, tail: Text)
    requires Fits(source, e) && e.end <= cut <= |source|
    ensures var output := source[..cut] + tail;
            && e.start <= e.end <= |output|
            && output[..e.start] + e.replacement + output[e.end..] ==
                source[..e.start] + (e.replacement + source[e.end..cut] + tail)
    ensures IsCharBoundary(source, e.start)
  {
  }

  lemma {:induction false} SpliceStep(source: Text, desc: seq<Edit>, i: nat, cut: nat, tail: Text)
    requires i < |desc| && Fits(source, desc[i]) && desc[i].end <= cut <= |source|
    ensures desc[i].start <= desc[i].end
    ensures var e := desc[i];
            Chained(desc[i + 1..], e.start) ==>
              && Chained(desc[i..], cut)
              && Splice(source, desc[i + 1..], e.start) + (e.replacement + source[e.end..cut] + tail)
                 == Splice(source, desc[i..], cut) + tail
  {
    assert desc[i..][1..] == desc[i + 1..] && desc[i..][0] == desc[i];
  }

  // ---- sorting keeps what the applier needs ---------------------------------------------

  lemma {:induction false} SortDescending(edits: seq<Edit>)
    ensures Descending(BackToFront(edits))
  {
    Sorting.SortOrdered(Before, edits);
    assert Sorting.Ordered(Before, BackToFront(edits));
  }

  predicate Apart(a: Edit, b: Edit) {
    !Conflict(a, b)
  }

  lemma {:induction false} SortNonConflicting(edits: seq<Edit>)
    requires NonConflicting(edits)
    ensures NonConflicting(BackToFront(edits))
  {
    forall a: Edit, b: Edit ensures Apart(a, b) <==> Apart(b, a) {
      ConflictSymmetric(a.start, a.end, b.start, b.end);
    }
    assert Sorting.Symmetric(Apart);
    forall i, j | 0 <= i < j < |edits| ensures Apart(edits[i], edits[j]) {
    }
    Sorting.SortPairwise(Before, Apart, edits);
    var sorted := BackToFront(edits);
    forall i, j | 0 <= i < j < |sorted| ensures !Conflict(sorted[i], sorted[j]) {
      assert Apart(sorted[i], sorted[j]);
    }
  }

  lemma {:induction false} SameEdits(edits: seq<Edit>)
    ensures forall e :: e in BackToFront(edits) <==> e in edits
  {
    Sorting.SameElements(BackToFront(edits), edits);
  }
}
