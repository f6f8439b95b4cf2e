/** What the verdicts on a `match` mean for the arm selected. */
module MatchArms {
  import opened Wrappers
  import opened MatchUsefulness
  import opened MatchMeaning
  import opened MatchMissing
  import opened MatchLiterals
  import Scanner

  const MAX_WITNESSES: nat := 8

  datatype Arm = Arm(pat: Pat, guard: Option<Value -> bool>)

  /** At run time a literal matches by the value it stands for, not by its spelling. */
  predicate Fires(arm: Arm, v: Value) {
    Matches(Meant(arm.pat), v) && (arm.guard.Some? ==> arm.guard.value(v))
  }

  /** The first arm that fires; `|arms|` when none does. */
  function Selected(arms: seq<Arm>, v: Value): (i: nat)
    ensures i <= |arms|
    ensures i < |arms| ==> Fires(arms[i], v)
    ensures forall j | 0 <= j < i :: !Fires(arms[j], v)
  {
    if arms == [] then 0 else if Fires(arms[0], v) then 0 else 1 + Selected(arms[1..], v)
  }

  lemma {:induction false} FirstFiring(arms: seq<Arm>, v: Value, i: nat)
    requires i <= |arms| && (i < |arms| ==> Fires(arms[i], v))
    requires forall j | 0 <= j < i :: !Fires(arms[j], v)
    ensures Selected(arms, v) == i
  {
    var k := Selected(arms, v);
    assert !(k < i) && !(i < k);
  }

  /** Unguarded arms seen so far, as one-column matrix rows. */
  function Unguarded(arms: seq<Arm>): Matrix {
    if arms == [] then []
    else Unguarded(arms[..|arms| - 1]) + if arms[|arms| - 1].guard.None? then [[arms[|arms| - 1].pat]] else []
  }

  predicate Redundant(arms: seq<Arm>, i: nat, ty: Ty, types: PatternTypes)
    requires i < |arms|
  {
    !IsUseful(Unguarded(arms[..i]), [arms[i].pat], [ty], types)
  }

  lemma {:induction false} UnguardedWide(arms: seq<Arm>)
    ensures Wide(Unguarded(arms), 1)
  {
    if arms != [] {
      UnguardedWide(arms[..|arms| - 1]);
    }
  }

  lemma {:induction false} UnguardedCovers(arms: seq<Arm>, v: Value)
    ensures Covered(MeantMatrix(Unguarded(arms)), [v]) <==>
            exists arm <- arms :: arm.guard.None? && Matches(Meant(arm.pat), v)
  {
    hide Matches, Meant, Covered, MeantMatrix;
    if arms != [] {
      var front, last := arms[..|arms| - 1], arms[|arms| - 1];
      UnguardedCovers(front, v);
      assert arms == front + [last];
      assert forall arm :: arm in arms <==> arm in front || arm == last;
      if last.guard.None? {
        MeantMatrixAppend(Unguarded(front), [[last.pat]]);
        CoveredAppend(MeantMatrix(Unguarded(front)), MeantMatrix([[last.pat]]), [v]);
        OnePattern(last.pat, v);
      } else {
        assert Unguarded(arms) == Unguarded(front);
      }
    } else {
      NoRows(v);
    }
  }

  lemma {:induction false} NoRows(v: Value)
    ensures !Covered(MeantMatrix([]), [v])
  {
  }

  lemma {:induction false} OnePattern(pat: Pat, v: Value)
    ensures MatchesRow(MeantRow([pat]), [v]) <==> Matches(Meant(pat), v)
    ensures Covered(MeantMatrix([[pat]]), [v]) <==> Matches(Meant(pat), v)
  {
    hide Meant;
    assert MeantRow([pat]) == [Meant(pat)] && MeantMatrix([[pat]]) == [MeantRow([pat])];
    SingleRow([Meant(pat)], [v]);
    ConsRow([Meant(pat)], [v]);
  }

  /** An arm reported unreachable is selected by no value of the type, whatever the guards
      answer and however its literals are spelled. */
  lemma {:induction false} RedundantNeverSelected(arms: seq<Arm>, i: nat, ty: Ty, types: PatternTypes, v: Value)
    requires LiteralsOpen(types)
    requires i < |arms| && Redundant(arms, i, ty, types) && HasType(types, ty, v)
    ensures Selected(arms, v) != i
  {
    hide LiteralsOpen, Matches, Meant;
    if Matches(Meant(arms[i].pat), v) {
      UnguardedWide(arms[..i]);
      OnePattern(arms[i].pat, v);
      UselessIsCoveredMeant(Unguarded(arms[..i]), [arms[i].pat], [ty], types, [v]);
      UnguardedCovers(arms[..i], v);
      var j :| 0 <= j < i && arms[..i][j].guard.None? && Matches(Meant(arms[..i][j].pat), v);
      assert Fires(arms[j], v);
    }
  }

  /** Deleting a reported arm leaves every value with the arm it had. */
  lemma {:induction false} DeletingRedundantArm(arms: seq<Arm>, i: nat, ty: Ty, types: PatternTypes, v: Value)
    requires LiteralsOpen(types)
    requires i < |arms| && Redundant(arms, i, ty, types) && HasType(types, ty, v)
    ensures var j := Selected(arms, v);
            Selected(arms[..i] + arms[i + 1..], v) == if j < i then j else j - 1
  {
    RedundantNeverSelected(arms, i, ty, types, v);
    var rest := arms[..i] + arms[i + 1..];
    var j := Selected(arms, v);
    var expected := if j < i then j else j - 1;
    assert forall k | 0 <= k < expected :: !Fires(rest[k], v);
    assert expected < |rest| ==> Fires(rest[expected], v);
    FirstFiring(rest, v, expected);
  }

  /** The positions below `n` that are not reported. */
  function KeptBelow(arms: seq<Arm>, n: nat, ty: Ty, types: PatternTypes): (ks: seq<nat>)
    requires n <= |arms|
    ensures forall q | 0 <= q < |ks| :: ks[q] < n
  {
    if n == 0 then []
    else KeptBelow(arms, n - 1, ty, types) + if Redundant(arms, n - 1, ty, types) then [] else [n - 1]
  }

  function Kept(arms: seq<Arm>, ty: Ty, types: PatternTypes): (ks: seq<nat>)
    ensures forall q | 0 <= q < |ks| :: ks[q] < |arms|
  {
    KeptBelow(arms, |arms|, ty, types)
  }

  /** The arms at the given positions. */
  function At(arms: seq<Arm>, ks: seq<nat>): (r: seq<Arm>)
    requires forall q | 0 <= q < |ks| :: ks[q] < |arms|
    ensures |r| == |ks| && forall q | 0 <= q < |ks| :: r[q] == arms[ks[q]]
  {
    seq(|ks|, q requires 0 <= q < |ks| => arms[ks[q]])
  }

  lemma {:induction false} KeptInOrder(arms: seq<Arm>, n: nat, ty: Ty, types: PatternTypes)
    requires n <= |arms|
    ensures var ks := KeptBelow(arms, n, ty, types);
            && (forall p, q | 0 <= p < q < |ks| :: ks[p] < ks[q])
            && (forall i | 0 <= i < n :: !Redundant(arms, i, ty, types) ==> i in ks)
  {
    hide Redundant;
    if n > 0 {
      KeptInOrder(arms, n - 1, ty, types);
    }
  }

  /** Deleting every reported arm at once leaves each value with the arm it had. */
  lemma {:induction false} DeletingAllRedundantArms(arms: seq<Arm>, ty: Ty, types: PatternTypes, v: Value)
    requires LiteralsOpen(types) && HasType(types, ty, v)
    ensures var ks := Kept(arms, ty, types);
            var j := Selected(At(arms, ks), v);
            if j < |ks| then ks[j] == Selected(arms, v) else Selected(arms, v) == |arms|
  {
    var ks, i := Kept(arms, ty, types), Selected(arms, v);
    var kept := At(arms, ks);
    KeptInOrder(arms, |arms|, ty, types);
    if i < |arms| {
      if Redundant(arms, i, ty, types) {
        RedundantNeverSelected(arms, i, ty, types, v);
      }
      hide Redundant, Fires, KeptBelow;
      var q :| 0 <= q < |ks| && ks[q] == i;
      FirstFiring(kept, v, q);
    } else {
      FirstFiring(kept, v, |ks|);
    }
  }

  // ---- arms that are not reported ------------------------------------------------------

  predicate ArmsOver(arms: seq<Arm>, texts: set<string>) {
    forall i | 0 <= i < |arms| :: Over(arms[i].pat, texts)
  }

  lemma {:induction false} UnguardedOver(arms: seq<Arm>, texts: set<string>)
    requires ArmsOver(arms, texts)
    ensures MatrixOver(Unguarded(arms), texts)
  {
    hide Over;
    if arms != [] {
      var front, last := arms[..|arms| - 1], arms[|arms| - 1];
      UnguardedOver(front, texts);
      assert RowOver([last.pat], texts);
      MatrixOverAppend(Unguarded(front), if last.guard.None? then [[last.pat]] else [], texts);
    }
  }

  /** The value passes every unguarded arm before `i` by and matches the pattern of `i`. */
  ghost predicate Reaches(arms: seq<Arm>, i: nat, v: Value)
    requires i < |arms|
  {
    Matches(Meant(arms[i].pat), v) && forall j | 0 <= j < i && arms[j].guard.None? :: !Matches(Meant(arms[j].pat), v)
  }

  /** An arm not reported is selected by some typed value once the guards above it fail, if
      no value is spelled in two ways. */
  lemma {:induction false} UsefulArmSelected(arms: seq<Arm>, i: nat, ty: Ty, types: PatternTypes, family: iset<Ty>,
                                             texts: set<string>)
    returns (v: Value)
    requires i < |arms| && !Redundant(arms, i, ty, types)
    requires LiteralsOpen(types) && ArmsOver(arms, texts) && SpelledAlike(texts)
    requires Inhabited(types, family) && ty in family && PatTyped(types, ty, Meant(arms[i].pat))
    ensures HasType(types, ty, v) && Reaches(arms, i, v)
  {
    hide LiteralsOpen, SpelledAlike, Inhabited, Matches, Meant, PatTyped, HasType, Over;
    var rows, row := Unguarded(arms[..i]), [arms[i].pat];
    UnguardedWide(arms[..i]);
    MeantWide(rows, 1);
    UnguardedOver(arms[..i], texts);
    UsefulMeant(rows, row, [ty], types, texts);
    assert MeantRow(row) == [Meant(arms[i].pat)];
    var vs := UsefulHasWitness(MeantMatrix(rows), MeantRow(row), [ty], types, family);
    v := vs[0];
    assert vs == [v];
    UnguardedCovers(arms[..i], v);
    assert forall j | 0 <= j < i :: arms[j] in arms[..i];
    OnePattern(arms[i].pat, v);
  }

  /** A value that reaches the arm refutes the report. */
  lemma {:induction false} ReachedNotRedundant(arms: seq<Arm>, i: nat, ty: Ty, types: PatternTypes, v: Value)
    requires LiteralsOpen(types) && i < |arms| && HasType(types, ty, v) && Reaches(arms, i, v)
    ensures !Redundant(arms, i, ty, types)
  {
    hide LiteralsOpen, Matches, Meant;
    if Redundant(arms, i, ty, types) {
      UnguardedWide(arms[..i]);
      OnePattern(arms[i].pat, v);
      UselessIsCoveredMeant(Unguarded(arms[..i]), [arms[i].pat], [ty], types, [v]);
      UnguardedCovers(arms[..i], v);
    }
  }

  /** The report is about the values of the type: an arm is reported exactly when none
      reaches it. */
  ghost predicate ReportExact(arms: seq<Arm>, i: nat, ty: Ty, types: PatternTypes)
    requires i < |arms|
  {
    Redundant(arms, i, ty, types) <==> !exists v :: HasType(types, ty, v) && Reaches(arms, i, v)
  }

  ghost predicate Written(arms: seq<Arm>, i: nat, ty: Ty, types: PatternTypes, texts: set<string>) {
    i < |arms| && ArmsOver(arms, texts) && PatTyped(types, ty, Meant(arms[i].pat))
  }

  /** For the literals of a type with unlisted values, the report is exact on all arms written
      with them precisely when no two of them stand for one value. */
  lemma {:induction false} ReportExactIffAlike(texts: set<string>, ty: Ty, types: PatternTypes, family: iset<Ty>)
    requires LiteralsOpen(types) && Inhabited(types, family) && ty in family && types.constructors(ty).None?
    requires forall text <- texts :: Heads(types, ty, Denoted(Literal(text)))
    ensures (forall arms, i | Written(arms, i, ty, types, texts) :: ReportExact(arms, i, ty, types))
              <==> SpelledAlike(texts)
  {
    hide Inhabited, LiteralsOpen, Redundant, Reaches, Denoted, HasType, PatTyped, ArmsOver;
    if SpelledAlike(texts) {
      forall arms, i | Written(arms, i, ty, types, texts) ensures ReportExact(arms, i, ty, types) {
        if Redundant(arms, i, ty, types) {
          forall v | HasType(types, ty, v) ensures !Reaches(arms, i, v) {
            if Reaches(arms, i, v) {
              ReachedNotRedundant(arms, i, ty, types, v);
            }
          }
        } else {
          var v := UsefulArmSelected(arms, i, ty, types, family, texts);
        }
      }
    } else {
      var a, b :| a in texts && b in texts && Denoted(Literal(a)) == Denoted(Literal(b)) && a != b;
      TwoSpellings(a, b, ty, types);
      TwoSpellingsWritten(a, b, ty, types, texts);
    }
  }

  function LiteralArm(text: string): Arm {
    Arm(Con(Literal(text), []), None)
  }

  /** Of two arms with two spellings of one value, the second is not reported, and no value
      reaches it. */
  lemma {:induction false} TwoSpellings(a: string, b: string, ty: Ty, types: PatternTypes)
    requires LiteralsOpen(types) && a != b && Denoted(Literal(a)) == Denoted(Literal(b))
    ensures !Redundant([LiteralArm(a), LiteralArm(b)], 1, ty, types)
    ensures forall v :: !Reaches([LiteralArm(a), LiteralArm(b)], 1, v)
    ensures !ReportExact([LiteralArm(a), LiteralArm(b)], 1, ty, types)
  {
    hide Denoted;
    var first, second := LiteralArm(a), LiteralArm(b);
    SecondUseful(a, b, ty, types);
    assert [first, second][..1] == [first];
    forall v ensures Matches(Meant(first.pat), v) <==> Matches(Meant(second.pat), v) {
      assert MeantRow([]) == [];
    }
  }

  lemma {:induction false} SecondUseful(a: string, b: string, ty: Ty, types: PatternTypes)
    requires LiteralsOpen(types) && a != b
    ensures Unguarded([LiteralArm(a)]) == [[LiteralArm(a).pat]]
    ensures IsUseful([[LiteralArm(a).pat]], [LiteralArm(b).pat], [ty], types)
  {
    hide Denoted;
    var rows, row := [[LiteralArm(a).pat]], [LiteralArm(b).pat];
    assert Unguarded([]) == [] && [LiteralArm(a)][..0] == [];
    assert rows[1..] == [] && Specialize(rows, Literal(b), 0) == [];
    UsefulStep(rows, row, [ty], types);
    assert Pad([], 0) + row[1..] == [] && types.fieldTypes(ty, Literal(b)) + [ty][1..] == [];
  }

  lemma {:induction false} TwoSpellingsWritten(a: string, b: string, ty: Ty, types: PatternTypes, texts: set<string>)
    requires a in texts && b in texts && Heads(types, ty, Denoted(Literal(b)))
    ensures Written([LiteralArm(a), LiteralArm(b)], 1, ty, types, texts)
  {
    hide Denoted;
    assert MeantRow([]) == [];
  }

  /** `match x { 16 => .., 16i64 => .., _ => .. }`: the second arm is not reported, and it is
      selected by no value. */
  lemma {:induction false} SuffixedAgain(ty: Ty, types: PatternTypes, v: Value)
    requires LiteralsOpen(types)
    ensures var arms := [LiteralArm("16"), LiteralArm("16i64"), Arm(Wild, None)];
            !Redundant(arms, 1, ty, types) && Selected(arms, v) != 1
  {
    hide Denoted, Meant, NumberOf, LiteralsOpen;
    var arms := [LiteralArm("16"), LiteralArm("16i64"), Arm(Wild, None)];
    SameNumber();
    TwoSpellings("16", "16i64", ty, types);
    assert arms[..1] == [LiteralArm("16"), LiteralArm("16i64")][..1];
    assert !Reaches([LiteralArm("16"), LiteralArm("16i64")], 1, v);
  }

  lemma {:induction false} SameNumber()
    ensures "16" != "16i64" && Denoted(Literal("16")) == Denoted(Literal("16i64"))
  {
    Sixteen("16");
    Sixteen("16i64");
    assert |"16"| != |"16i64"|;
  }

  lemma {:induction false} Sixteen(text: string)
    requires "16" <= text && (|text| > 2 ==> !Scanner.IsDigit(text[2]))
    ensures NumberOf(text) == Some(16)
  {
    var digits := text[0..2];
    assert text[0] == '1' && text[1] == '6';
    assert Scanner.StretchEnd(text, 0, Scanner.IsDigit) == 2;
    assert digits[..1] == ['1'] && ['1'][..0] == [];
    assert Scanner.NumberValue([], 10) == 0;
    assert Scanner.NumberValue(['1'], 10) == 1;
    assert Scanner.NumberValue(digits, 10) == 16;
  }

  // ---- missing values ----------------------------------------------------------------------

  lemma {:induction false} NothingMissingCovers(matrix: Matrix, tys: seq<Ty>, types: PatternTypes, vs: seq<Value>)
    requires Wide(matrix, |tys|) && HasTypes(types, tys, vs) && Missing(matrix, tys, types) == []
    ensures Covered(matrix, vs)
  {
    if !Covered(matrix, vs) {
      var row := UncoveredHasRow(matrix, tys, types, vs);
    }
  }

  /** A match with nothing reported missing never falls through. */
  lemma {:induction false} NothingMissingNeverFallsThrough(arms: seq<Arm>, ty: Ty, types: PatternTypes, v: Value)
    requires LiteralsOpen(types) && Missing(Unguarded(arms), [ty], types) == [] && HasType(types, ty, v)
    ensures Selected(arms, v) < |arms|
  {
    hide LiteralsOpen, Matches, Meant;
    UnguardedWide(arms);
    MeantWide(Unguarded(arms), 1);
    MissingMeant(Unguarded(arms), [ty], types);
    NothingMissingCovers(MeantMatrix(Unguarded(arms)), [ty], types, [v]);
    UnguardedCovers(arms, v);
    var i :| 0 <= i < |arms| && arms[i].guard.None? && Matches(Meant(arms[i].pat), v);
    assert Fires(arms[i], v);
  }

  /** A match with something reported missing falls through on some value of the type
      that the reported pattern describes, when no guard holds. */
  lemma {:induction false} MissingFallsThrough(arms: seq<Arm>, ty: Ty, types: PatternTypes, family: iset<Ty>,
                                               row: Row)
    returns (v: Value)
    requires LiteralsOpen(types) && row in Missing(Unguarded(arms), [ty], types)
    requires Inhabited(types, family) && ty in family
    ensures |row| == 1 && HasType(types, ty, v) && Matches(row[0], v)
    ensures forall arm <- arms | arm.guard.None? :: !Matches(Meant(arm.pat), v)
  {
    hide LiteralsOpen, Inhabited, Matches, Meant;
    UnguardedWide(arms);
    MeantWide(Unguarded(arms), 1);
    MissingMeant(Unguarded(arms), [ty], types);
    var vs := RowHasUncovered(MeantMatrix(Unguarded(arms)), [ty], types, family, row);
    v := vs[0];
    assert vs == [v];
    UnguardedCovers(arms, v);
    ConsRow(row, vs);
  }

  lemma {:induction false} UnguardedNone()
    ensures Unguarded([]) == []
  {
  }

  lemma {:induction false} UnguardedNext(arms: seq<Arm>, i: nat)
    requires i < |arms|
    ensures Unguarded(arms[..i + 1]) == Unguarded(arms[..i]) + if arms[i].guard.None? then [[arms[i].pat]] else []
  {
    assert arms[..i + 1][..i] == arms[..i];
  }

  /** The checker's pass over the arms: redundant positions, then the witnesses shown. */
  method CheckMatch(arms: seq<Arm>, ty: Ty, types: PatternTypes) returns (redundant: seq<nat>, missing: Matrix)
    ensures forall i: nat :: i in redundant <==> i < |arms| && Redundant(arms, i, ty, types)
    ensures missing == Take(Missing(Unguarded(arms), [ty], types), 8)
    ensures missing == [] <==> Missing(Unguarded(arms), [ty], types) == []
  {
    hide IsUseful, Unguarded, Missing, Matches, Meant;
    var covered: Matrix := [];
    redundant := [];
    assert arms[..0] == [];
    UnguardedNone();
    for i := 0 to |arms|
      invariant covered == Unguarded(arms[..i])
      invariant forall j: nat :: j in redundant <==> j < i && Redundant(arms, j, ty, types)
    {
      if !IsUseful(covered, [arms[i].pat], [ty], types) {
        redundant := redundant + [i];
      }
      UnguardedNext(arms, i);
      if arms[i].guard.None? {
        covered := covered + [[arms[i].pat]];
      }
    }
    assert arms[..|arms|] == arms;
    missing := MissingRows(covered, [ty], types, MAX_WITNESSES);
  }
}
