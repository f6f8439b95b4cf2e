/** What patterns mean once a literal stands for its number: two spellings of one number match
    the same values, while the algorithm takes them for two constructors. Relates its verdicts
    on the spelled patterns to the meant ones. */
module MatchLiterals {
  import opened Wrappers
  import opened MatchUsefulness
  import opened MatchMeaning
  import opened MatchMissing
  import Scanner

  // ---- the number a literal spells ---------------------------------------------------

  /** The number before any suffix, in decimal or after `0x`; none for text and characters,
      which are quoted. */
  function NumberOf(text: string): Option<nat> {
    if text == "" || !Scanner.IsDigit(text[0]) then None
    else if Scanner.HexPrefix(text, 0) then
      Some(Scanner.NumberValue(text[2..Scanner.StretchEnd(text, 2, Scanner.IsHex)], 16))
    else Some(Scanner.NumberValue(text[0..Scanner.StretchEnd(text, 0, Scanner.IsDigit)], 10))
  }

  /** The constructor of the value: a number in decimal, whatever its spelling. */
  function Denoted(c: Ctor): Ctor {
    if !c.Literal? then c
    else match NumberOf(c.text)
      case Some(n) => Literal(Decimal(n))
      case None => c
  }

  /** The pattern with each literal replaced by the value it stands for. */
  function Meant(pat: Pat): Pat
    decreases pat, 1
  {
    match pat
    case Wild => Wild
    case Con(c, args) => Con(Denoted(c), MeantRow(args))
    case Or(alternatives) => Or(MeantRow(alternatives))
  }

  function MeantRow(row: Row): (r: Row)
    ensures |r| == |row| && forall i | 0 <= i < |row| :: r[i] == Meant(row[i])
    decreases row, 0
  {
    if row == [] then [] else [Meant(row[0])] + MeantRow(row[1..])
  }

  function MeantMatrix(matrix: Matrix): (r: Matrix)
    ensures |r| == |matrix| && forall i | 0 <= i < |matrix| :: r[i] == MeantRow(matrix[i])
  {
    if matrix == [] then [] else [MeantRow(matrix[0])] + MeantMatrix(matrix[1..])
  }

  /** What every type oracle of the checker does: no literal is listed as a constructor, and
      a literal has no fields. */
  ghost predicate LiteralsOpen(types: PatternTypes) {
    && (forall ty | types.constructors(ty).Some? :: forall c <- types.constructors(ty).value :: !c.Literal?)
    && forall ty, c: Ctor | c.Literal? :: types.fieldTypes(ty, c) == []
  }

  lemma {:induction false} FieldsDenoted(types: PatternTypes, ty: Ty, c: Ctor)
    requires LiteralsOpen(types)
    ensures types.fieldTypes(ty, Denoted(c)) == types.fieldTypes(ty, c)
  {
    hide NumberOf;
  }

  // ---- rows and matrices --------------------------------------------------------------

  lemma {:induction false} MeantRowAppend(a: Row, b: Row)
    ensures MeantRow(a + b) == MeantRow(a) + MeantRow(b)
  {
    hide Meant;
  }

  lemma {:induction false} MeantWilds(n: nat)
    ensures MeantRow(Wilds(n)) == Wilds(n)
  {
  }

  lemma {:induction false} MeantPad(args: Row, arity: nat, rest: Row)
    ensures MeantRow(Pad(args, arity) + rest) == Pad(MeantRow(args), arity) + MeantRow(rest)
  {
    MeantRowAppend(Pad(args, arity), rest);
    MeantWilds(if arity <= |args| then 0 else arity - |args|);
  }

  lemma {:induction false} MeantTail(row: Row)
    requires row != []
    ensures MeantRow(row)[1..] == MeantRow(row[1..])
  {
  }

  lemma {:induction false} MeantMatrixAppend(a: Matrix, b: Matrix)
    ensures MeantMatrix(a + b) == MeantMatrix(a) + MeantMatrix(b)
  {
    hide MeantRow;
  }

  lemma {:induction false} MeantWide(matrix: Matrix, width: nat)
    requires Wide(matrix, width)
    ensures Wide(MeantMatrix(matrix), width)
  {
  }

  lemma {:induction false} DefaultHeadMeant(head: Pat, rest: Row)
    ensures DefaultHead(Meant(head), MeantRow(rest)) == MeantMatrix(DefaultHead(head, rest))
    decreases head, 1
  {
    match head
    case Wild => assert MeantMatrix([rest]) == [MeantRow(rest)];
    case Con(_, _) =>
    case Or(alternatives) => DefaultAlternativesMeant(alternatives, rest);
  }

  lemma {:induction false} DefaultAlternativesMeant(alternatives: seq<Pat>, rest: Row)
    ensures DefaultAlternatives(MeantRow(alternatives), MeantRow(rest))
         == MeantMatrix(DefaultAlternatives(alternatives, rest))
    decreases alternatives, 0
  {
    hide Meant;
    if alternatives != [] {
      MeantTail(alternatives);
      DefaultHeadMeant(alternatives[0], rest);
      DefaultAlternativesMeant(alternatives[1..], rest);
      MeantMatrixAppend(DefaultHead(alternatives[0], rest), DefaultAlternatives(alternatives[1..], rest));
    }
  }

  lemma {:induction false} DefaultMeant(matrix: Matrix)
    ensures DefaultMatrix(MeantMatrix(matrix)) == MeantMatrix(DefaultMatrix(matrix))
  {
    hide Meant, DefaultHead;
    if matrix != [] {
      assert MeantMatrix(matrix)[1..] == MeantMatrix(matrix[1..]);
      DefaultMeant(matrix[1..]);
      if matrix[0] != [] {
        MeantTail(matrix[0]);
        DefaultHeadMeant(matrix[0][0], matrix[0][1..]);
      }
      MeantMatrixAppend(DefaultRow(matrix[0]), DefaultMatrix(matrix[1..]));
    }
  }

  function Images(seen: set<Ctor>): set<Ctor> {
    set c | c in seen :: Denoted(c)
  }

  lemma {:induction false} HeadsMeant(pat: Pat)
    ensures PatHeads(Meant(pat)) == Images(PatHeads(pat))
    decreases pat, 1
  {
    hide Denoted;
    match pat
    case Wild =>
    case Con(_, _) =>
    case Or(alternatives) => AlternativeHeadsMeant(alternatives);
  }

  lemma {:induction false} AlternativeHeadsMeant(alternatives: seq<Pat>)
    ensures AlternativeHeads(MeantRow(alternatives)) == Images(AlternativeHeads(alternatives))
    decreases alternatives, 0
  {
    hide Denoted, Meant;
    if alternatives != [] {
      MeantTail(alternatives);
      HeadsMeant(alternatives[0]);
      AlternativeHeadsMeant(alternatives[1..]);
    }
  }

  lemma {:induction false} HeadConstructorsMeant(matrix: Matrix)
    ensures HeadConstructors(MeantMatrix(matrix)) == Images(HeadConstructors(matrix))
  {
    hide Denoted, Meant;
    if matrix != [] {
      assert MeantMatrix(matrix)[1..] == MeantMatrix(matrix[1..]);
      HeadConstructorsMeant(matrix[1..]);
      if matrix[0] != [] {
        HeadsMeant(matrix[0][0]);
      }
    }
  }

  /** Listed constructors are no literals, so the spelling of literals does not matter. */
  lemma {:induction false} SignatureMeant(ty: Ty, matrix: Matrix, types: PatternTypes)
    requires LiteralsOpen(types)
    ensures CompleteSignature(ty, HeadConstructors(MeantMatrix(matrix)), types)
         == CompleteSignature(ty, HeadConstructors(matrix), types)
    ensures Splits(MeantMatrix(matrix), ty, types) <==> Splits(matrix, ty, types)
  {
    var seen := HeadConstructors(matrix);
    HeadConstructorsMeant(matrix);
    forall c: Ctor | !c.Literal? ensures c in Images(seen) <==> c in seen {
      if c in seen {
        assert Denoted(c) in Images(seen);
      }
    }
    if seen != {} {
      var c :| c in seen;
      assert Denoted(c) in Images(seen);
    }
  }

  // ---- specialising by a constructor ----------------------------------------------------

  /** Specialising what is meant keeps at least the rows that specialising what is spelled keeps. */
  lemma {:induction false} SpecializeHeadSub(head: Pat, rest: Row, c: Ctor, arity: nat)
    ensures Sub(MeantMatrix(SpecializeHead(head, rest, c, arity)),
              SpecializeHead(Meant(head), MeantRow(rest), Denoted(c), arity))
    decreases head, 1
  {
    hide Denoted;
    match head
    case Wild =>
      MeantRowAppend(Wilds(arity), rest);
      MeantWilds(arity);
    case Con(d, args) => MeantPad(args, arity, rest);
    case Or(alternatives) => SpecializeAlternativesSub(alternatives, rest, c, arity);
  }

  lemma {:induction false} SpecializeAlternativesSub(alternatives: seq<Pat>, rest: Row, c: Ctor, arity: nat)
    ensures Sub(MeantMatrix(SpecializeAlternatives(alternatives, rest, c, arity)),
              SpecializeAlternatives(MeantRow(alternatives), MeantRow(rest), Denoted(c), arity))
    decreases alternatives, 0
  {
    hide Denoted, Meant, SpecializeHead;
    if alternatives != [] {
      MeantTail(alternatives);
      SpecializeHeadSub(alternatives[0], rest, c, arity);
      SpecializeAlternativesSub(alternatives[1..], rest, c, arity);
      MeantMatrixAppend(SpecializeHead(alternatives[0], rest, c, arity),
                        SpecializeAlternatives(alternatives[1..], rest, c, arity));
    }
  }

  lemma {:induction false} SpecializeMeantSub(matrix: Matrix, c: Ctor, arity: nat)
    ensures Sub(MeantMatrix(Specialize(matrix, c, arity)), Specialize(MeantMatrix(matrix), Denoted(c), arity))
  {
    hide Denoted, Meant, SpecializeHead;
    if matrix != [] {
      assert MeantMatrix(matrix)[1..] == MeantMatrix(matrix[1..]);
      SpecializeMeantSub(matrix[1..], c, arity);
      if matrix[0] != [] {
        MeantTail(matrix[0]);
        SpecializeHeadSub(matrix[0][0], matrix[0][1..], c, arity);
      }
      MeantMatrixAppend(SpecializeRow(matrix[0], c, arity), Specialize(matrix[1..], c, arity));
    }
  }

  lemma {:induction false} CoveredSub(a: Matrix, b: Matrix, vs: seq<Value>)
    requires Sub(a, b) && Covered(a, vs)
    ensures Covered(b, vs)
  {
  }

  /** No other constructor among the heads stands for what `c` stands for. */
  predicate Apart(heads: set<Ctor>, c: Ctor) {
    forall d | d in heads && Denoted(d) == Denoted(c) :: d == c
  }

  lemma {:induction false} SpecializeHeadMeant(head: Pat, rest: Row, c: Ctor, arity: nat)
    requires Apart(PatHeads(head), c)
    ensures SpecializeHead(Meant(head), MeantRow(rest), Denoted(c), arity)
         == MeantMatrix(SpecializeHead(head, rest, c, arity))
    decreases head, 1
  {
    hide Denoted;
    match head
    case Wild =>
      MeantRowAppend(Wilds(arity), rest);
      MeantWilds(arity);
    case Con(d, args) => MeantPad(args, arity, rest);
    case Or(alternatives) => SpecializeAlternativesMeant(alternatives, rest, c, arity);
  }

  lemma {:induction false} SpecializeAlternativesMeant(alternatives: seq<Pat>, rest: Row, c: Ctor, arity: nat)
    requires Apart(AlternativeHeads(alternatives), c)
    ensures SpecializeAlternatives(MeantRow(alternatives), MeantRow(rest), Denoted(c), arity)
         == MeantMatrix(SpecializeAlternatives(alternatives, rest, c, arity))
    decreases alternatives, 0
  {
    hide Denoted, Meant, SpecializeHead;
    if alternatives != [] {
      MeantTail(alternatives);
      SpecializeHeadMeant(alternatives[0], rest, c, arity);
      SpecializeAlternativesMeant(alternatives[1..], rest, c, arity);
      MeantMatrixAppend(SpecializeHead(alternatives[0], rest, c, arity),
                        SpecializeAlternatives(alternatives[1..], rest, c, arity));
    }
  }

  lemma {:induction false} SpecializeMeant(matrix: Matrix, c: Ctor, arity: nat)
    requires Apart(HeadConstructors(matrix), c)
    ensures Specialize(MeantMatrix(matrix), Denoted(c), arity) == MeantMatrix(Specialize(matrix, c, arity))
  {
    hide Denoted, Meant, SpecializeHead;
    if matrix != [] {
      assert MeantMatrix(matrix)[1..] == MeantMatrix(matrix[1..]);
      SpecializeMeant(matrix[1..], c, arity);
      if matrix[0] != [] {
        MeantTail(matrix[0]);
        SpecializeHeadMeant(matrix[0][0], matrix[0][1..], c, arity);
      }
      MeantMatrixAppend(SpecializeRow(matrix[0], c, arity), Specialize(matrix[1..], c, arity));
    }
  }

  /** No literal stands for what a listed constructor stands for. */
  lemma {:induction false} ListedApart(heads: set<Ctor>, c: Ctor)
    requires !c.Literal?
    ensures Denoted(c) == c && Apart(heads, c)
  {
    hide NumberOf;
  }

  // ---- the report of missing values is about what is meant -----------------------------------

  /** The missing rows do not depend on how literals are spelled. */
  lemma {:induction false} MissingMeant(matrix: Matrix, tys: seq<Ty>, types: PatternTypes)
    requires LiteralsOpen(types)
    ensures Missing(MeantMatrix(matrix), tys, types) == Missing(matrix, tys, types)
    decreases MatrixCost(matrix), |tys| + 1, 0
  {
    hide Meant, Denoted, HeadConstructors, MeantMatrix, Specialize, DefaultMatrix;
    if tys != [] {
      SignatureMeant(tys[0], matrix, types);
      if Splits(matrix, tys[0], types) {
        MissingByCtorMeant(matrix, types.constructors(tys[0]).value, tys, types);
      } else {
        DefaultCost(matrix);
        DefaultMeant(matrix);
        MissingMeant(DefaultMatrix(matrix), tys[1..], types);
      }
    }
  }

  lemma {:induction false} MissingByCtorMeant(matrix: Matrix, ctors: seq<Ctor>, tys: seq<Ty>, types: PatternTypes)
    requires LiteralsOpen(types) && forall c <- ctors :: !c.Literal?
    requires tys != [] && HeadConstructors(matrix) != {} && HeadConstructors(MeantMatrix(matrix)) != {}
    ensures MissingByCtor(MeantMatrix(matrix), ctors, tys, types) == MissingByCtor(matrix, ctors, tys, types)
    decreases MatrixCost(matrix), |tys|, |ctors|
  {
    hide Meant, Denoted, LiteralsOpen, HeadConstructors, Specialize, Missing;
    if ctors != [] {
      var c := ctors[0];
      var fields := types.fieldTypes(tys[0], c);
      SpecializeCost(matrix, c, |fields|);
      ListedApart(HeadConstructors(matrix), c);
      SpecializeMeant(matrix, c, |fields|);
      MissingMeant(Specialize(matrix, c, |fields|), fields + tys[1..], types);
      MissingByCtorMeant(matrix, ctors[1..], tys, types);
    }
  }

  // ---- a useless row, as it is meant ----------------------------------------------------------

  /** Usefulness of a wildcard row through one constructor of its column. */
  predicate UsefulAt(matrix: Matrix, c: Ctor, rest: Row, tys: seq<Ty>, types: PatternTypes)
    requires |rest| + 1 == |tys|
  {
    var fields := types.fieldTypes(tys[0], c);
    IsUseful(Specialize(matrix, c, |fields|), Wilds(|fields|) + rest, fields + tys[1..], types)
  }

  /** The recursion of the algorithm, one step. */
  lemma {:induction false} UsefulStep(matrix: Matrix, row: Row, tys: seq<Ty>, types: PatternTypes)
    requires |row| == |tys| > 0
    ensures match row[0]
            case Con(c, args) =>
              var fields := types.fieldTypes(tys[0], c);
              IsUseful(matrix, row, tys, types) <==>
                IsUseful(Specialize(matrix, c, |fields|), Pad(args, |fields|) + row[1..], fields + tys[1..], types)
            case Or(alternatives) =>
              IsUseful(matrix, row, tys, types) <==>
                exists i | 0 <= i < |alternatives| :: IsUseful(matrix, [alternatives[i]] + row[1..], tys, types)
            case Wild =>
              && row == [Wild] + row[1..]
              && match CompleteSignature(tys[0], HeadConstructors(matrix), types)
                case None => IsUseful(matrix, row, tys, types) <==>
                      IsUseful(DefaultMatrix(matrix), row[1..], tys[1..], types)
                case Some(all) => IsUseful(matrix, row, tys, types) <==>
                      exists i | 0 <= i < |all| :: UsefulAt(matrix, all[i], row[1..], tys, types)
  {
    hide Specialize, DefaultMatrix, CompleteSignature;
    if row[0].Wild? && CompleteSignature(tys[0], HeadConstructors(matrix), types).Some? {
      UsefulStepWild(matrix, row, tys, types);
    }
  }

  lemma {:induction false} UsefulStepWild(matrix: Matrix, row: Row, tys: seq<Ty>, types: PatternTypes)
    requires |row| == |tys| > 0 && row[0].Wild?
    requires CompleteSignature(tys[0], HeadConstructors(matrix), types).Some?
    ensures var all := CompleteSignature(tys[0], HeadConstructors(matrix), types).value;
            IsUseful(matrix, row, tys, types) <==>
              exists i | 0 <= i < |all| :: UsefulAt(matrix, all[i], row[1..], tys, types)
  {
    hide Specialize, CompleteSignature;
    var all, rest := CompleteSignature(tys[0], HeadConstructors(matrix), types).value, row[1..];
    if IsUseful(matrix, row, tys, types) {
      var i :| 0 <= i < |all| && var fields := types.fieldTypes(tys[0], all[i]);
        IsUseful(Specialize(matrix, all[i], |fields|), Wilds(|fields|) + rest, fields + tys[1..], types);
      assert UsefulAt(matrix, all[i], rest, tys, types);
    }
    if i :| 0 <= i < |all| && UsefulAt(matrix, all[i], rest, tys, types) {
      var fields := types.fieldTypes(tys[0], all[i]);
      assert IsUseful(Specialize(matrix, all[i], |fields|), Wilds(|fields|) + rest, fields + tys[1..], types);
    }
  }

  /** A row judged not useful as spelled loses no value, as patterns are meant. */
  lemma {:induction false} UselessIsCoveredMeant(matrix: Matrix, row: Row, tys: seq<Ty>, types: PatternTypes,
                                                 vs: seq<Value>)
    requires LiteralsOpen(types) && |row| == |tys| && Wide(matrix, |tys|)
    requires !IsUseful(matrix, row, tys, types)
    requires HasTypes(types, tys, vs) && MatchesRow(MeantRow(row), vs)
    ensures Covered(MeantMatrix(matrix), vs)
    decreases MatrixCost(matrix) + SizeRow(row), |row|, 2
  {
    if row == [] {
      assert MatchesRow(MeantMatrix(matrix)[0], vs);
    } else {
      UselessHeadIsCoveredMeant(matrix, row, tys, types, vs);
    }
  }

  lemma {:induction false} UselessHeadIsCoveredMeant(matrix: Matrix, row: Row, tys: seq<Ty>, types: PatternTypes,
                                                     vs: seq<Value>)
    requires LiteralsOpen(types) && |row| == |tys| > 0 && Wide(matrix, |tys|)
    requires !IsUseful(matrix, row, tys, types)
    requires HasTypes(types, tys, vs) && MatchesRow(MeantRow(row), vs)
    ensures Covered(MeantMatrix(matrix), vs)
    decreases MatrixCost(matrix) + SizeRow(row), |row|, 1
  {
    hide IsUseful, LiteralsOpen, HasTypes, Covered, MatchesRow, MatrixCost, Specialize, Denoted, MeantMatrix, Wide;
    SizeUnfold(row);
    var rest := row[1..];
    HeadTyped(types, tys, vs);
    var v, ws := vs[0], vs[1..];
    MeantRowMatches(row, vs);
    UsefulStep(matrix, row, tys, types);
    match row[0]
    case Con(c, args) =>
      var fields := types.fieldTypes(tys[0], c);
      FieldsDenoted(types, tys[0], c);
      SpecializeCost(matrix, c, |fields|);
      SizePad(args, |fields|, rest);
      PadMatches(MeantRow(args), v);
      MeantPad(args, |fields|, rest);
      RowAppend(Pad(MeantRow(args), |fields|), MeantRow(rest), v.fields, ws);
      CoveredThroughMeantHead(matrix, c, Pad(args, |fields|) + rest, tys, types, v, ws);
    case Or(alternatives) =>
      var i :| 0 <= i < |alternatives| && Matches(Meant(alternatives[i]), v);
      SizeElement(alternatives, i);
      SizeAppend([alternatives[i]], rest);
      SizeUnfold([alternatives[i]]);
      MeantRowMatches([alternatives[i]] + rest, vs);
      UselessIsCoveredMeant(matrix, [alternatives[i]] + rest, tys, types, vs);
    case Wild => UselessWildIsCoveredMeant(matrix, rest, tys, types, v, ws);
  }

  lemma {:induction false} MeantRowMatches(row: Row, vs: seq<Value>)
    requires |row| == |vs| > 0
    ensures MatchesRow(MeantRow(row), vs) <==> Matches(Meant(row[0]), vs[0]) && MatchesRow(MeantRow(row[1..]), vs[1..])
    ensures row[0].Or? ==> (Matches(Meant(row[0]), vs[0]) <==>
              exists i | 0 <= i < |row[0].alternatives| :: Matches(Meant(row[0].alternatives[i]), vs[0]))
    ensures row[0].Con? && Matches(Meant(row[0]), vs[0]) ==>
              vs[0].ctor == Denoted(row[0].ctor) && Matches(Con(vs[0].ctor, MeantRow(row[0].args)), vs[0])
  {
    hide Denoted, MatchesRow;
    ConsRow(MeantRow(row), vs);
    MeantTail(row);
    if row[0].Or? {
      OrMatches(row[0].alternatives, vs[0]);
    }
  }

  lemma {:induction false} OrMatches(alternatives: seq<Pat>, v: Value)
    ensures Matches(Meant(Or(alternatives)), v) <==>
            exists i | 0 <= i < |alternatives| :: Matches(Meant(alternatives[i]), v)
  {
    var meant := MeantRow(alternatives);
    assert Meant(Or(alternatives)) == Or(meant);
    hide Meant;
    if i :| 0 <= i < |alternatives| && Matches(Meant(alternatives[i]), v) {
      assert meant[i] in meant;
    }
    if Matches(Or(meant), v) {
      var p :| p in meant && Matches(p, v);
      var i :| 0 <= i < |meant| && meant[i] == p;
      assert Matches(Meant(alternatives[i]), v);
    }
  }

  lemma {:induction false} UselessWildIsCoveredMeant(matrix: Matrix, rest: Row, tys: seq<Ty>, types: PatternTypes,
                                                     v: Value, ws: seq<Value>)
    requires LiteralsOpen(types) && |rest| + 1 == |tys| && Wide(matrix, |tys|)
    requires !IsUseful(matrix, [Wild] + rest, tys, types)
    requires HasTypes(types, tys, [v] + ws) && MatchesRow(MeantRow(rest), ws)
    ensures Covered(MeantMatrix(matrix), [v] + ws)
    decreases MatrixCost(matrix) + SizeRow([Wild] + rest), |rest| + 1, 0
  {
    SizeUnfold([Wild] + rest);
    HeadTyped(types, tys, [v] + ws);
    WildUseless(matrix, rest, tys, types, v, ws);
    assert ([Wild] + rest)[1..] == rest;
    match CompleteSignature(tys[0], HeadConstructors(matrix), types)
    case Some(all) =>
      var fields := types.fieldTypes(tys[0], v.ctor);
      SpecializeCost(matrix, v.ctor, |fields|);
      SizeAppend(Wilds(|fields|), rest);
      SizeWilds(|fields|);
      MeantRowAppend(Wilds(|fields|), rest);
      MeantWilds(|fields|);
      RowAppend(Wilds(|fields|), MeantRow(rest), v.fields, ws);
      WildsMatch(v.fields);
      ListedApart({}, v.ctor);
      CoveredThroughMeantHead(matrix, v.ctor, Wilds(|fields|) + rest, tys, types, v, ws);
    case None =>
      DefaultCost(matrix);
      DefaultWide(matrix, |ws|);
      UselessIsCoveredMeant(DefaultMatrix(matrix), rest, tys[1..], types, ws);
      DefaultMeant(matrix);
      MeantWide(matrix, |tys|);
      DefaultCovers(MeantMatrix(matrix), v, ws);
  }

  lemma {:induction false} CoveredThroughMeantHead(matrix: Matrix, c: Ctor, row: Row, tys: seq<Ty>,
                                                   types: PatternTypes, v: Value, ws: seq<Value>)
    requires LiteralsOpen(types) && tys != [] && Wide(matrix, |tys|) && |tys| == |ws| + 1
    requires HasTypes(types, tys, [v] + ws) && v.ctor == Denoted(c)
    requires |row| == |v.fields| + |ws| && MatchesRow(MeantRow(row), v.fields + ws)
    requires |types.fieldTypes(tys[0], c)| == |v.fields|
    requires var fields := types.fieldTypes(tys[0], c);
             !IsUseful(Specialize(matrix, c, |fields|), row, fields + tys[1..], types)
    ensures Covered(MeantMatrix(matrix), [v] + ws)
    decreases MatrixCost(Specialize(matrix, c, |v.fields|)) + SizeRow(row), |row|, 3
  {
    hide IsUseful, LiteralsOpen, MatchesRow, Covered, Specialize, Denoted;
    var fields := types.fieldTypes(tys[0], c);
    FieldsDenoted(types, tys[0], c);
    HeadTyped(types, tys, [v] + ws);
    TypesSplice(types, tys, v, ws);
    SpecializeWide(matrix, |ws|, c, |fields|);
    UselessIsCoveredMeant(Specialize(matrix, c, |fields|), row, fields + tys[1..], types, v.fields + ws);
    SpecializeMeantSub(matrix, c, |fields|);
    CoveredSub(MeantMatrix(Specialize(matrix, c, |fields|)), Specialize(MeantMatrix(matrix), v.ctor, |fields|),
               v.fields + ws);
    MeantWide(matrix, |tys|);
    SpecializeCovers(MeantMatrix(matrix), v, ws);
  }

  // ---- literals spelled alike --------------------------------------------------------------

  /** All literals of the pattern are among the given texts. */
  predicate Over(pat: Pat, texts: set<string>)
    decreases pat
  {
    match pat
    case Wild => true
    case Con(c, args) => CtorOver(c, texts) && forall p <- args :: Over(p, texts)
    case Or(alternatives) => forall p <- alternatives :: Over(p, texts)
  }

  predicate CtorOver(c: Ctor, texts: set<string>) {
    c.Literal? ==> c.text in texts
  }

  predicate RowOver(row: Row, texts: set<string>) {
    forall p <- row :: Over(p, texts)
  }

  predicate MatrixOver(matrix: Matrix, texts: set<string>) {
    forall row <- matrix :: RowOver(row, texts)
  }

  /** No two of the texts stand for one value. */
  predicate SpelledAlike(texts: set<string>) {
    forall a, b | a in texts && b in texts && Denoted(Literal(a)) == Denoted(Literal(b)) :: a == b
  }

  lemma {:induction false} PadOver(args: Row, arity: nat, rest: Row, texts: set<string>)
    requires RowOver(args, texts) && RowOver(rest, texts)
    ensures RowOver(Pad(args, arity) + rest, texts)
  {
  }

  lemma {:induction false} MatrixOverAppend(a: Matrix, b: Matrix, texts: set<string>)
    requires MatrixOver(a, texts) && MatrixOver(b, texts)
    ensures MatrixOver(a + b, texts)
  {
    hide RowOver;
  }

  lemma {:induction false} SpecializeHeadOver(head: Pat, rest: Row, c: Ctor, arity: nat, texts: set<string>)
    requires Over(head, texts) && RowOver(rest, texts)
    ensures MatrixOver(SpecializeHead(head, rest, c, arity), texts)
    decreases head, 1
  {
    match head
    case Wild => PadOver([], arity, rest, texts);
      assert [] + Wilds(arity) == Wilds(arity);
    case Con(_, args) => PadOver(args, arity, rest, texts);
    case Or(alternatives) => SpecializeAlternativesOver(alternatives, rest, c, arity, texts);
  }

  lemma {:induction false} SpecializeAlternativesOver(alternatives: seq<Pat>, rest: Row, c: Ctor, arity: nat,
                                                      texts: set<string>)
    requires RowOver(alternatives, texts) && RowOver(rest, texts)
    ensures MatrixOver(SpecializeAlternatives(alternatives, rest, c, arity), texts)
    decreases alternatives, 0
  {
    hide Over, SpecializeHead;
    if alternatives != [] {
      SpecializeHeadOver(alternatives[0], rest, c, arity, texts);
      SpecializeAlternativesOver(alternatives[1..], rest, c, arity, texts);
    }
  }

  lemma {:induction false} SpecializeOver(matrix: Matrix, c: Ctor, arity: nat, texts: set<string>)
    requires MatrixOver(matrix, texts)
    ensures MatrixOver(Specialize(matrix, c, arity), texts)
  {
    hide Over, SpecializeHead;
    if matrix != [] {
      var row := matrix[0];
      assert RowOver(row, texts);
      if row != [] {
        SpecializeHeadOver(row[0], row[1..], c, arity, texts);
      }
      SpecializeOver(matrix[1..], c, arity, texts);
    }
  }

  lemma {:induction false} DefaultHeadOver(head: Pat, rest: Row, texts: set<string>)
    requires RowOver(rest, texts)
    ensures MatrixOver(DefaultHead(head, rest), texts)
    decreases head, 1
  {
    match head
    case Wild =>
    case Con(_, _) =>
    case Or(alternatives) => DefaultAlternativesOver(alternatives, rest, texts);
  }

  lemma {:induction false} DefaultAlternativesOver(alternatives: seq<Pat>, rest: Row, texts: set<string>)
    requires RowOver(rest, texts)
    ensures MatrixOver(DefaultAlternatives(alternatives, rest), texts)
    decreases alternatives, 0
  {
    hide RowOver, DefaultHead;
    if alternatives != [] {
      DefaultHeadOver(alternatives[0], rest, texts);
      DefaultAlternativesOver(alternatives[1..], rest, texts);
    }
  }

  lemma {:induction false} DefaultOver(matrix: Matrix, texts: set<string>)
    requires MatrixOver(matrix, texts)
    ensures MatrixOver(DefaultMatrix(matrix), texts)
  {
    hide Over, DefaultHead;
    if matrix != [] {
      var row := matrix[0];
      assert RowOver(row, texts);
      if row != [] {
        DefaultHeadOver(row[0], row[1..], texts);
      }
      DefaultOver(matrix[1..], texts);
    }
  }

  lemma {:induction false} PatHeadsOver(pat: Pat, texts: set<string>)
    requires Over(pat, texts)
    ensures forall c <- PatHeads(pat) :: CtorOver(c, texts)
    decreases pat, 1
  {
    if pat.Or? {
      AlternativeHeadsOver(pat.alternatives, texts);
    }
  }

  lemma {:induction false} AlternativeHeadsOver(alternatives: seq<Pat>, texts: set<string>)
    requires RowOver(alternatives, texts)
    ensures forall c <- AlternativeHeads(alternatives) :: CtorOver(c, texts)
    decreases alternatives, 0
  {
    hide Over, CtorOver;
    if alternatives != [] {
      PatHeadsOver(alternatives[0], texts);
      AlternativeHeadsOver(alternatives[1..], texts);
    }
  }

  lemma {:induction false} HeadsOver(matrix: Matrix, texts: set<string>)
    requires MatrixOver(matrix, texts)
    ensures forall c <- HeadConstructors(matrix) :: CtorOver(c, texts)
  {
    hide Over, CtorOver;
    if matrix != [] {
      assert RowOver(matrix[0], texts);
      if matrix[0] != [] {
        PatHeadsOver(matrix[0][0], texts);
      }
      HeadsOver(matrix[1..], texts);
    }
  }

  lemma {:induction false} AlikeApart(matrix: Matrix, c: Ctor, texts: set<string>)
    requires SpelledAlike(texts) && MatrixOver(matrix, texts) && CtorOver(c, texts)
    ensures Apart(HeadConstructors(matrix), c)
  {
    hide NumberOf, MatrixOver;
    HeadsOver(matrix, texts);
  }

  /** For literals spelled alike, what is useful as spelled is useful as meant. */
  lemma {:induction false} UsefulMeant(matrix: Matrix, row: Row, tys: seq<Ty>, types: PatternTypes, texts: set<string>)
    requires LiteralsOpen(types) && SpelledAlike(texts) && MatrixOver(matrix, texts) && RowOver(row, texts)
    requires |row| == |tys| && IsUseful(matrix, row, tys, types)
    ensures IsUseful(MeantMatrix(matrix), MeantRow(row), tys, types)
    decreases MatrixCost(matrix) + SizeRow(row), |row|, 2
  {
    hide LiteralsOpen, SpelledAlike, MatrixOver, RowOver, Specialize, DefaultMatrix, MatrixCost, Denoted;
    if row != [] {
      UsefulHeadMeant(matrix, row, tys, types, texts);
    }
  }

  lemma {:induction false} UsefulHeadMeant(matrix: Matrix, row: Row, tys: seq<Ty>, types: PatternTypes,
                                           texts: set<string>)
    requires LiteralsOpen(types) && SpelledAlike(texts) && MatrixOver(matrix, texts) && RowOver(row, texts)
    requires |row| == |tys| > 0 && IsUseful(matrix, row, tys, types)
    ensures IsUseful(MeantMatrix(matrix), MeantRow(row), tys, types)
    decreases MatrixCost(matrix) + SizeRow(row), |row|, 1
  {
    hide IsUseful, LiteralsOpen, SpelledAlike, MatrixOver, Specialize, DefaultMatrix, MatrixCost, Denoted, MeantMatrix;
    var rest := row[1..];
    SizeUnfold(row);
    MeantTail(row);
    assert Over(row[0], texts);
    UsefulStep(matrix, row, tys, types);
    UsefulStep(MeantMatrix(matrix), MeantRow(row), tys, types);
    match row[0]
    case Con(c, args) =>
      var fields := types.fieldTypes(tys[0], c);
      FieldsDenoted(types, tys[0], c);
      SpecializeCost(matrix, c, |fields|);
      SizePad(args, |fields|, rest);
      MeantPad(args, |fields|, rest);
      AlikeApart(matrix, c, texts);
      SpecializeMeant(matrix, c, |fields|);
      SpecializeOver(matrix, c, |fields|, texts);
      PadOver(args, |fields|, rest, texts);
      UsefulMeant(Specialize(matrix, c, |fields|), Pad(args, |fields|) + rest, fields + tys[1..], types, texts);
    case Or(alternatives) =>
      var i :| 0 <= i < |alternatives| && IsUseful(matrix, [alternatives[i]] + rest, tys, types);
      SizeElement(alternatives, i);
      SizeAppend([alternatives[i]], rest);
      SizeUnfold([alternatives[i]]);
      UsefulMeant(matrix, [alternatives[i]] + rest, tys, types, texts);
      MeantRowAppend([alternatives[i]], rest);
      assert MeantRow([alternatives[i]]) == [MeantRow(alternatives)[i]];
    case Wild => UsefulWildMeant(matrix, rest, tys, types, texts);
  }

  lemma {:induction false} UsefulWildMeant(matrix: Matrix, rest: Row, tys: seq<Ty>, types: PatternTypes,
                                           texts: set<string>)
    requires LiteralsOpen(types) && SpelledAlike(texts) && MatrixOver(matrix, texts) && RowOver(rest, texts)
    requires |rest| + 1 == |tys| && IsUseful(matrix, [Wild] + rest, tys, types)
    ensures IsUseful(MeantMatrix(matrix), [Wild] + MeantRow(rest), tys, types)
    decreases MatrixCost(matrix) + SizeRow([Wild] + rest), |rest| + 1, 0
  {
    hide IsUseful, SpelledAlike, MatrixOver, Specialize, DefaultMatrix, MatrixCost, Denoted, MeantMatrix, MeantRow;
    hide HeadConstructors;
    SizeUnfold([Wild] + rest);
    assert ([Wild] + rest)[1..] == rest && ([Wild] + MeantRow(rest))[1..] == MeantRow(rest);
    UsefulStep(matrix, [Wild] + rest, tys, types);
    UsefulStep(MeantMatrix(matrix), [Wild] + MeantRow(rest), tys, types);
    SignatureMeant(tys[0], matrix, types);
    match CompleteSignature(tys[0], HeadConstructors(matrix), types)
    case Some(all) =>
      var i :| 0 <= i < |all| && UsefulAt(matrix, all[i], rest, tys, types);
      var fields := types.fieldTypes(tys[0], all[i]);
      assert all[i] in HeadConstructors(matrix);
      SpecializeCost(matrix, all[i], |fields|);
      SizeAppend(Wilds(|fields|), rest);
      SizeWilds(|fields|);
      ListedApart(HeadConstructors(matrix), all[i]);
      SpecializeMeant(matrix, all[i], |fields|);
      SpecializeOver(matrix, all[i], |fields|, texts);
      UsefulMeant(Specialize(matrix, all[i], |fields|), Wilds(|fields|) + rest, fields + tys[1..], types, texts);
      MeantRowAppend(Wilds(|fields|), rest);
      MeantWilds(|fields|);
      assert UsefulAt(MeantMatrix(matrix), all[i], MeantRow(rest), tys, types);
    case None =>
      DefaultCost(matrix);
      DefaultMeant(matrix);
      DefaultOver(matrix, texts);
      UsefulMeant(DefaultMatrix(matrix), rest, tys[1..], types, texts);
  }
}
