/** What `missing_rows` reports, and the loops that compute it. */
module MatchMissing {
  import opened Wrappers
  import opened MatchUsefulness
  import opened MatchMeaning

  lemma {:induction false} InMissingByCtor(matrix: Matrix, ctors: seq<Ctor>, tys: seq<Ty>, types: PatternTypes,
                                           row: Row)
    requires tys != [] && HeadConstructors(matrix) != {}
    ensures row in MissingByCtor(matrix, ctors, tys, types)
            <==> exists ctor <- ctors :: row in MissingFor(matrix, ctor, tys, types)
  {
    hide MissingFor, Missing, Wide;
    if ctors != [] {
      InMissingByCtor(matrix, ctors[1..], tys, types, row);
      if row in MissingFor(matrix, ctors[0], tys, types) {
        assert ctors[0] in ctors;
      } else if ctor :| ctor in ctors && row in MissingFor(matrix, ctor, tys, types) {
        assert ctor in ctors[1..];
      }
      if ctor :| ctor in ctors[1..] && row in MissingFor(matrix, ctor, tys, types) {
        assert ctor in ctors;
      }
    }
  }

  lemma {:induction false} HeadTyped(types: PatternTypes, tys: seq<Ty>, vs: seq<Value>)
    requires tys != [] && HasTypes(types, tys, vs)
    ensures |vs| == |tys| && vs == [vs[0]] + vs[1..] && HasTypes(types, tys[1..], vs[1..])
    ensures Heads(types, tys[0], vs[0].ctor) && |types.fieldTypes(tys[0], vs[0].ctor)| == |vs[0].fields|
  {
    assert HasType(types, tys[0], vs[0]);
  }

  /** With no column left, a row is reported precisely when nothing covers the empty vector. */
  lemma {:induction false} EmptyRow(matrix: Matrix, types: PatternTypes)
    requires Wide(matrix, 0)
    ensures Covered(matrix, []) <==> matrix != []
    ensures MatchesRow([], []) && ([] in Missing(matrix, [], types) <==> !Covered(matrix, []))
    ensures forall row <- Missing(matrix, [], types) :: row == []
  {
    if matrix != [] {
      assert MatchesRow(matrix[0], []);
    }
  }

  lemma {:induction false} WrappedRow(matrix: Matrix, tys: seq<Ty>, types: PatternTypes, inner: Row, v: Value,
                                      ws: seq<Value>)
    requires tys != [] && Splits(matrix, tys[0], types) && |ws| == |tys| - 1
    requires Heads(types, tys[0], v.ctor) && |types.fieldTypes(tys[0], v.ctor)| == |v.fields|
    requires var fields := types.fieldTypes(tys[0], v.ctor);
             && inner in Missing(Specialize(matrix, v.ctor, |fields|), fields + tys[1..], types)
             && MatchesRow(inner, v.fields + ws)
    ensures |v.fields| <= |inner| && var row := Wrap(v.ctor, |v.fields|, inner);
            row in Missing(matrix, tys, types) && MatchesRow(row, [v] + ws)
  {
    hide MissingByCtor, Specialize, HeadConstructors, Wrap;
    var fields := types.fieldTypes(tys[0], v.ctor);
    assert |inner| == |v.fields| + |ws|;
    WrapMatches(v.ctor, |fields|, inner, v, ws);
    assert Wrap(v.ctor, |fields|, inner) in MissingFor(matrix, v.ctor, tys, types);
    InMissingByCtor(matrix, types.constructors(tys[0]).value, tys, types, Wrap(v.ctor, |fields|, inner));
  }

  lemma {:induction false} WildRow(matrix: Matrix, tys: seq<Ty>, types: PatternTypes, inner: Row, v: Value,
                                   ws: seq<Value>)
    requires tys != [] && !Splits(matrix, tys[0], types)
    requires inner in Missing(DefaultMatrix(matrix), tys[1..], types) && MatchesRow(inner, ws)
    ensures [Wild] + inner in Missing(matrix, tys, types) && MatchesRow([Wild] + inner, [v] + ws)
  {
    hide MissingByCtor, DefaultMatrix, HeadConstructors;
    ConsRow([Wild] + inner, [v] + ws);
    assert ([Wild] + inner)[1..] == inner && ([v] + ws)[1..] == ws;
  }

  /** Every uncovered value matches a reported row, whatever the oracle. */
  lemma {:induction false} UncoveredHasRow(matrix: Matrix, tys: seq<Ty>, types: PatternTypes, vs: seq<Value>)
    returns (row: Row)
    requires Wide(matrix, |tys|) && HasTypes(types, tys, vs) && !Covered(matrix, vs)
    ensures row in Missing(matrix, tys, types) && MatchesRow(row, vs)
    decreases MatrixCost(matrix), |tys|
  {
    hide Covered, MatchesRow, HasType, Wide, Specialize, DefaultMatrix, HeadConstructors, MatrixCost, Missing;
    if tys == [] {
      row := [];
      EmptyRow(matrix, types);
    } else {
      HeadTyped(types, tys, vs);
      hide HasTypes;
      var v, ws := vs[0], vs[1..];
      if Splits(matrix, tys[0], types) {
        var fields := types.fieldTypes(tys[0], v.ctor);
        TypesSplice(types, tys, v, ws);
        SpecializeCovers(matrix, v, ws);
        SpecializeCost(matrix, v.ctor, |fields|);
        SpecializeWide(matrix, |ws|, v.ctor, |fields|);
        var inner := UncoveredHasRow(Specialize(matrix, v.ctor, |fields|), fields + tys[1..], types, v.fields + ws);
        WrappedRow(matrix, tys, types, inner, v, ws);
        row := Wrap(v.ctor, |fields|, inner);
      } else {
        DefaultCovers(matrix, v, ws);
        DefaultCost(matrix);
        DefaultWide(matrix, |ws|);
        var inner := UncoveredHasRow(DefaultMatrix(matrix), tys[1..], types, ws);
        WildRow(matrix, tys, types, inner, v, ws);
        row := [Wild] + inner;
      }
    }
  }

  /** The two ways a row gets reported, read backwards. */
  lemma {:induction false} MissingRowShape(matrix: Matrix, tys: seq<Ty>, types: PatternTypes, row: Row)
    returns (ctor: Ctor, inner: Row)
    requires tys != [] && row in Missing(matrix, tys, types)
    ensures Splits(matrix, tys[0], types) ==>
              && ctor in types.constructors(tys[0]).value
              && var fields := types.fieldTypes(tys[0], ctor);
              && inner in Missing(Specialize(matrix, ctor, |fields|), fields + tys[1..], types)
              && row == Wrap(ctor, |fields|, inner)
    ensures !Splits(matrix, tys[0], types) ==>
              inner in Missing(DefaultMatrix(matrix), tys[1..], types) && row == [Wild] + inner
  {
    if Splits(matrix, tys[0], types) {
      InMissingByCtor(matrix, types.constructors(tys[0]).value, tys, types, row);
      ctor :| ctor in types.constructors(tys[0]).value && row in MissingFor(matrix, ctor, tys, types);
      var fields := types.fieldTypes(tys[0], ctor);
      var rows := Missing(Specialize(matrix, ctor, |fields|), fields + tys[1..], types);
      var i :| 0 <= i < |rows| && row == WrapAll(ctor, |fields|, rows)[i];
      inner := rows[i];
    } else {
      var rows := Missing(DefaultMatrix(matrix), tys[1..], types);
      var i :| 0 <= i < |rows| && row == WildAll(rows)[i];
      ctor, inner := UnitCtor, rows[i];
    }
  }

  /** Every reported row matches an uncovered value. */
  lemma {:induction false} RowHasUncovered(matrix: Matrix, tys: seq<Ty>, types: PatternTypes, family: iset<Ty>,
                                           row: Row)
    returns (vs: seq<Value>)
    requires Wide(matrix, |tys|) && Inhabited(types, family) && Within(tys, family)
    requires row in Missing(matrix, tys, types)
    ensures HasTypes(types, tys, vs) && MatchesRow(row, vs) && !Covered(matrix, vs)
    decreases MatrixCost(matrix), |tys|
  {
    if tys == [] {
      vs := [];
    } else {
      var ctor, inner := MissingRowShape(matrix, tys, types, row);
      if Splits(matrix, tys[0], types) {
        var fields := types.fieldTypes(tys[0], ctor);
        SpecializeCost(matrix, ctor, |fields|);
        SpecializeWide(matrix, |tys| - 1, ctor, |fields|);
        WithinHead(types, tys, ctor, family);
        var us := RowHasUncovered(Specialize(matrix, ctor, |fields|), fields + tys[1..], types, family, inner);
        var v, ws := Regroup(types, tys, ctor, us);
        SpecializeCovers(matrix, v, ws);
        WrapMatches(ctor, |fields|, inner, v, ws);
        vs := [v] + ws;
      } else {
        DefaultCost(matrix);
        DefaultWide(matrix, |tys| - 1);
        var ws := RowHasUncovered(DefaultMatrix(matrix), tys[1..], types, family, inner);
        var v := ValueOutsideColumn(matrix, tys[0], types, family);
        DefaultCovers(matrix, v, ws);
        assert row[1..] == inner;
        vs := ConsWild(row, tys, types, v, ws);
      }
    }
  }

  lemma {:induction false} ValueOutsideColumn(matrix: Matrix, ty: Ty, types: PatternTypes, family: iset<Ty>)
    returns (v: Value)
    requires Inhabited(types, family) && ty in family && !Splits(matrix, ty, types)
    ensures HasType(types, ty, v) && v.ctor !in HeadConstructors(matrix)
  {
    if types.constructors(ty).None? {
      v := SomeValueOutside(types, ty, HeadConstructors(matrix), family);
    } else {
      v :| HasType(types, ty, v);
    }
  }

  lemma {:induction false} FiniteListed(types: PatternTypes, ty: Ty, family: iset<Ty>)
    requires Finite(types, family) && ty in family
    ensures types.constructors(ty).Some?
  {
  }

  /** Over finite types a reported row matches uncovered values only. */
  lemma {:induction false} FiniteRowIsUncovered(
      matrix: Matrix, tys: seq<Ty>, types: PatternTypes, family: iset<Ty>, row: Row, vs: seq<Value>)
    requires Wide(matrix, |tys|) && Finite(types, family) && Within(tys, family)
    requires row in Missing(matrix, tys, types)
    requires HasTypes(types, tys, vs) && MatchesRow(row, vs)
    ensures !Covered(matrix, vs)
    decreases MatrixCost(matrix), |tys|, 1
  {
    hide Covered, HasType, Missing, Finite, Wide, Specialize, DefaultMatrix, HeadConstructors, MatrixCost;
    if tys == [] {
      EmptyRow(matrix, types);
    } else {
      HeadTyped(types, tys, vs);
      var v, ws := vs[0], vs[1..];
      var ctor, inner := MissingRowShape(matrix, tys, types, row);
      ConsRow(row, vs);
      if Splits(matrix, tys[0], types) {
        SplitRowIsUncovered(matrix, tys, types, family, ctor, inner, v, ws);
      } else {
        FiniteListed(types, tys[0], family);
        DefaultCost(matrix);
        DefaultWide(matrix, |ws|);
        assert row[1..] == inner;
        FiniteRowIsUncovered(DefaultMatrix(matrix), tys[1..], types, family, inner, ws);
        DefaultCovers(matrix, v, ws);
      }
    }
  }

  lemma {:induction false} SplitRowIsUncovered(
      matrix: Matrix, tys: seq<Ty>, types: PatternTypes, family: iset<Ty>, ctor: Ctor, inner: Row, v: Value,
          ws: seq<Value>)
    requires tys != [] && Wide(matrix, |tys|) && Finite(types, family) && Within(tys, family)
    requires HeadConstructors(matrix) != {} && HasTypes(types, tys, [v] + ws)
    requires var fields := types.fieldTypes(tys[0], ctor);
             && inner in Missing(Specialize(matrix, ctor, |fields|), fields + tys[1..], types)
             && |inner| == |fields| + |ws|
             && MatchesRow(Wrap(ctor, |fields|, inner), [v] + ws)
    ensures !Covered(matrix, [v] + ws)
    decreases MatrixCost(matrix), |tys|, 0
  {
    hide Finite;
    assert HasType(types, tys[0], ([v] + ws)[0]);
    var fields := types.fieldTypes(tys[0], ctor);
    ConsRow(Wrap(ctor, |fields|, inner), [v] + ws);
    SpecializeCost(matrix, ctor, |fields|);
    SpecializeWide(matrix, |ws|, ctor, |fields|);
    WithinHead(types, tys, ctor, family);
    TypesSplice(types, tys, v, ws);
    WrapMatches(ctor, |fields|, inner, v, ws);
    FiniteRowIsUncovered(Specialize(matrix, ctor, |fields|), fields + tys[1..], types, family, inner, v.fields + ws);
    SpecializeCovers(matrix, v, ws);
  }

  /** Over finite types the reported rows describe the uncovered values precisely. */
  lemma {:induction false} MissingExactOnFinite(matrix: Matrix, tys: seq<Ty>, types: PatternTypes, family: iset<Ty>,
                                                vs: seq<Value>)
    requires Wide(matrix, |tys|) && Finite(types, family) && Within(tys, family) && HasTypes(types, tys, vs)
    ensures Covered(Missing(matrix, tys, types), vs) <==> !Covered(matrix, vs)
  {
    if Covered(Missing(matrix, tys, types), vs) {
      var row :| row in Missing(matrix, tys, types) && MatchesRow(row, vs);
      FiniteRowIsUncovered(matrix, tys, types, family, row, vs);
    }
    if !Covered(matrix, vs) {
      var row := UncoveredHasRow(matrix, tys, types, vs);
    }
  }

  // ---- agreement of the two algorithms --------------------------------------

  ghost predicate ListsNonempty(types: PatternTypes) {
    forall ty :: types.constructors(ty) != Some([])
  }

  /** Whether an all-wildcard row is useful: the exhaustiveness question. */
  predicate WildUseful(matrix: Matrix, tys: seq<Ty>, types: PatternTypes) {
    IsUseful(matrix, Wilds(|tys|), tys, types)
  }

  predicate UsefulUnder(matrix: Matrix, ctor: Ctor, tys: seq<Ty>, types: PatternTypes)
    requires tys != []
  {
    var fields := types.fieldTypes(tys[0], ctor);
    WildUseful(Specialize(matrix, ctor, |fields|), fields + tys[1..], types)
  }

  lemma {:induction false} WildUsefulUnfold(matrix: Matrix, tys: seq<Ty>, types: PatternTypes)
    requires tys != []
    ensures match CompleteSignature(tys[0], HeadConstructors(matrix), types)
            case Some(all) => WildUseful(matrix, tys, types) <==>
                exists ctor <- all :: UsefulUnder(matrix, ctor, tys, types)
            case None => WildUseful(matrix, tys, types) <==> WildUseful(DefaultMatrix(matrix), tys[1..], types)
  {
    var row := Wilds(|tys|);
    assert row[1..] == Wilds(|tys| - 1);
    forall ctor
      ensures var fields := types.fieldTypes(tys[0], ctor);
              UsefulUnder(matrix, ctor, tys, types)
              == IsUseful(Specialize(matrix, ctor, |fields|), Wilds(|fields|) + row[1..], fields + tys[1..], types)
    {
      var fields := types.fieldTypes(tys[0], ctor);
      assert Wilds(|fields|) + row[1..] == Wilds(|fields + tys[1..]|);
    }
    match CompleteSignature(tys[0], HeadConstructors(matrix), types)
    case None =>
    case Some(all) =>
      if WildUseful(matrix, tys, types) {
        var i :| 0 <= i < |all| && var fields := types.fieldTypes(tys[0], all[i]);
          IsUseful(Specialize(matrix, all[i], |fields|), Wilds(|fields|) + row[1..], fields + tys[1..], types);
        assert UsefulUnder(matrix, all[i], tys, types);
      }
      if exists ctor <- all :: UsefulUnder(matrix, ctor, tys, types) {
        var i :| 0 <= i < |all| && UsefulUnder(matrix, all[i], tys, types);
      }
  }

  lemma {:induction false} OpenColumnIncomplete(ty: Ty, types: PatternTypes)
    requires ListsNonempty(types)
    ensures CompleteSignature(ty, {}, types).None?
  {
    if types.constructors(ty).Some? {
      var all := types.constructors(ty).value;
      assert all != [] && all[0] in all;
    }
  }

  function PadAll(n: nat, rows: Matrix): (r: Matrix)
    ensures |r| == |rows|
    ensures forall i | 0 <= i < |rows| :: r[i] == Wilds(n) + rows[i]
  {
    seq(|rows|, i requires 0 <= i < |rows| => Wilds(n) + rows[i])
  }

  /** Wildcard columns in front of every row change nothing. */
  lemma {:induction false} OpenColumns(rows: Matrix, fields: seq<Ty>, tys: seq<Ty>, types: PatternTypes)
    requires ListsNonempty(types)
    ensures WildUseful(PadAll(|fields|, rows), fields + tys, types) <==> WildUseful(rows, tys, types)
  {
    if fields == [] {
      assert forall i | 0 <= i < |rows| :: Wilds(0) + rows[i] == rows[i];
      assert PadAll(0, rows) == rows;
      assert fields + tys == tys;
    } else {
      var padded, next := PadAll(|fields|, rows), PadAll(|fields| - 1, rows);
      assert forall i | 0 <= i < |rows| :: padded[i][0] == Wild && padded[i][1..] == next[i];
      AllWildColumn(padded, next);
      OpenColumnIncomplete((fields + tys)[0], types);
      WildUsefulUnfold(padded, fields + tys, types);
      assert (fields + tys)[1..] == fields[1..] + tys;
      OpenColumns(rows, fields[1..], tys, types);
    }
  }

  lemma {:induction false} AllWildColumn(padded: Matrix, next: Matrix)
    requires |padded| == |next|
    requires forall i | 0 <= i < |next| :: padded[i] != [] && padded[i][0] == Wild && padded[i][1..] == next[i]
    ensures HeadConstructors(padded) == {} && DefaultMatrix(padded) == next
  {
    if padded != [] {
      AllWildColumn(padded[1..], next[1..]);
      assert DefaultRow(padded[0]) == [next[0]];
    }
  }

  // Rows of one matrix that are all rows of another.
  ghost predicate Sub(a: Matrix, b: Matrix) {
    forall row <- a :: row in b
  }

  lemma {:induction false} SubOfNonempty(a: Matrix, b: Matrix)
    requires Sub(a, b) && a != []
    ensures b != []
  {
    assert a[0] in b;
  }

  lemma {:induction false} SpecializeMember(matrix: Matrix, row: Row, ctor: Ctor, arity: nat)
    requires row in matrix
    ensures Sub(SpecializeRow(row, ctor, arity), Specialize(matrix, ctor, arity))
  {
    if row != matrix[0] {
      assert row in matrix[1..];
      SpecializeMember(matrix[1..], row, ctor, arity);
    }
  }

  lemma {:induction false} DefaultMember(matrix: Matrix, row: Row)
    requires row in matrix
    ensures Sub(DefaultRow(row), DefaultMatrix(matrix))
  {
    if row != matrix[0] {
      assert row in matrix[1..];
      DefaultMember(matrix[1..], row);
    }
  }

  lemma {:induction false} HeadsMember(matrix: Matrix, row: Row)
    requires row in matrix && row != []
    ensures PatHeads(row[0]) <= HeadConstructors(matrix)
  {
    if row != matrix[0] {
      assert row in matrix[1..];
      HeadsMember(matrix[1..], row);
    }
  }

  lemma {:induction false} SpecializeSub(a: Matrix, b: Matrix, ctor: Ctor, arity: nat)
    requires Sub(a, b)
    ensures Sub(Specialize(a, ctor, arity), Specialize(b, ctor, arity))
  {
    if a != [] {
      SpecializeMember(b, a[0], ctor, arity);
      SpecializeSub(a[1..], b, ctor, arity);
    }
  }

  lemma {:induction false} DefaultSub(a: Matrix, b: Matrix)
    requires Sub(a, b)
    ensures Sub(DefaultMatrix(a), DefaultMatrix(b))
    ensures HeadConstructors(a) <= HeadConstructors(b)
  {
    if a != [] {
      DefaultMember(b, a[0]);
      if a[0] != [] {
        HeadsMember(b, a[0]);
      }
      DefaultSub(a[1..], b);
    }
  }

  lemma {:induction false} PadAllAppend(n: nat, a: Matrix, b: Matrix)
    ensures PadAll(n, a + b) == PadAll(n, a) + PadAll(n, b)
  {
  }

  /** The default rows, padded, are among the specialized rows; for a constructor
      that heads nothing they are all of them. */
  lemma {:induction false} DefaultInSpecializeHead(head: Pat, rest: Row, ctor: Ctor, arity: nat)
    ensures Sub(PadAll(arity, DefaultHead(head, rest)), SpecializeHead(head, rest, ctor, arity))
    ensures ctor !in PatHeads(head) ==>
              PadAll(arity, DefaultHead(head, rest)) == SpecializeHead(head, rest, ctor, arity)
    decreases head, 1
  {
    match head
    case Wild => assert PadAll(arity, [rest]) == [Wilds(arity) + rest];
    case Con(_, _) =>
    case Or(alternatives) => DefaultInSpecializeAlternatives(alternatives, rest, ctor, arity);
  }

  lemma {:induction false} DefaultInSpecializeAlternatives(alternatives: seq<Pat>, rest: Row, ctor: Ctor, arity: nat)
    ensures Sub(PadAll(arity, DefaultAlternatives(alternatives, rest)),
              SpecializeAlternatives(alternatives, rest, ctor, arity))
    ensures ctor !in AlternativeHeads(alternatives) ==>
              PadAll(arity, DefaultAlternatives(alternatives, rest)) ==
                  SpecializeAlternatives(alternatives, rest, ctor, arity)
    decreases alternatives, 0
  {
    if alternatives != [] {
      DefaultInSpecializeHead(alternatives[0], rest, ctor, arity);
      DefaultInSpecializeAlternatives(alternatives[1..], rest, ctor, arity);
      PadAllAppend(arity, DefaultHead(alternatives[0], rest), DefaultAlternatives(alternatives[1..], rest));
    }
  }

  lemma {:induction false} DefaultInSpecialize(matrix: Matrix, ctor: Ctor, arity: nat)
    ensures Sub(PadAll(arity, DefaultMatrix(matrix)), Specialize(matrix, ctor, arity))
    ensures ctor !in HeadConstructors(matrix) ==>
              PadAll(arity, DefaultMatrix(matrix)) == Specialize(matrix, ctor, arity)
  {
    if matrix != [] {
      PadAllAppend(arity, DefaultRow(matrix[0]), DefaultMatrix(matrix[1..]));
      DefaultInSpecialize(matrix[1..], ctor, arity);
      if matrix[0] != [] {
        DefaultInSpecializeHead(matrix[0][0], matrix[0][1..], ctor, arity);
      }
    }
  }

  /** Fewer rows leave a wildcard at least as useful. */
  lemma {:induction false} FewerRowsStayUseful(a: Matrix, b: Matrix, tys: seq<Ty>, types: PatternTypes)
    requires ListsNonempty(types) && Sub(a, b) && WildUseful(b, tys, types)
    ensures WildUseful(a, tys, types)
    decreases MatrixCost(b), |tys|
  {
    if tys == [] {
      if a != [] {
        SubOfNonempty(a, b);
      }
    } else {
      WildUsefulUnfold(a, tys, types);
      WildUsefulUnfold(b, tys, types);
      DefaultSub(a, b);
      if CompleteSignature(tys[0], HeadConstructors(b), types).None? {
        DefaultCost(b);
        FewerRowsStayUseful(DefaultMatrix(a), DefaultMatrix(b), tys[1..], types);
      } else {
        var all := types.constructors(tys[0]).value;
        var ctor :| ctor in all && UsefulUnder(b, ctor, tys, types);
        var fields := types.fieldTypes(tys[0], ctor);
        SpecializeCost(b, ctor, |fields|);
        SpecializeSub(a, b, ctor, |fields|);
        FewerRowsStayUseful(Specialize(a, ctor, |fields|), Specialize(b, ctor, |fields|), fields + tys[1..], types);
        if CompleteSignature(tys[0], HeadConstructors(a), types).None? {
          DefaultInSpecialize(a, ctor, |fields|);
          FewerRowsStayUseful(PadAll(|fields|, DefaultMatrix(a)), Specialize(b, ctor, |fields|),
                              fields + tys[1..], types);
          OpenColumns(DefaultMatrix(a), fields, tys[1..], types);
        }
      }
    }
  }

  lemma {:induction false} MissingByCtorNonempty(matrix: Matrix, ctors: seq<Ctor>, tys: seq<Ty>, types: PatternTypes)
    requires tys != [] && HeadConstructors(matrix) != {}
    ensures MissingByCtor(matrix, ctors, tys, types) != [] <==>
              exists ctor <- ctors :: MissingFor(matrix, ctor, tys, types) != []
  {
    hide MissingFor, Wide, MissingByCtor;
    if MissingByCtor(matrix, ctors, tys, types) != [] {
      InMissingByCtor(matrix, ctors, tys, types, MissingByCtor(matrix, ctors, tys, types)[0]);
    }
    if ctor :| ctor in ctors && MissingFor(matrix, ctor, tys, types) != [] {
      InMissingByCtor(matrix, ctors, tys, types, MissingFor(matrix, ctor, tys, types)[0]);
    }
  }

  lemma {:induction false} MissingAgrees(matrix: Matrix, tys: seq<Ty>, types: PatternTypes)
    requires ListsNonempty(types)
    ensures Missing(matrix, tys, types) != [] <==> WildUseful(matrix, tys, types)
    decreases MatrixCost(matrix), |tys|, 1
  {
    if tys != [] {
      WildUsefulUnfold(matrix, tys, types);
      DefaultCost(matrix);
      if Splits(matrix, tys[0], types) {
        SplitAgrees(matrix, tys, types);
      } else {
        OpenColumnIncomplete(tys[0], types);
        MissingAgrees(DefaultMatrix(matrix), tys[1..], types);
      }
    }
  }

  lemma {:induction false} SplitAgrees(matrix: Matrix, tys: seq<Ty>, types: PatternTypes)
    requires ListsNonempty(types) && tys != [] && Splits(matrix, tys[0], types)
    ensures Missing(matrix, tys, types) != [] <==> WildUseful(matrix, tys, types)
    decreases MatrixCost(matrix), |tys|, 0
  {
    var all, seen := types.constructors(tys[0]).value, HeadConstructors(matrix);
    WildUsefulUnfold(matrix, tys, types);
    MissingByCtorNonempty(matrix, all, tys, types);
    forall ctor | ctor in all
      ensures MissingFor(matrix, ctor, tys, types) != [] <==> UsefulUnder(matrix, ctor, tys, types)
      ensures CompleteSignature(tys[0], seen, types).None? && UsefulUnder(matrix, ctor, tys, types) ==>
                WildUseful(DefaultMatrix(matrix), tys[1..], types)
      ensures ctor !in seen && WildUseful(DefaultMatrix(matrix), tys[1..], types) ==>
                UsefulUnder(matrix, ctor, tys, types)
    {
      var fields := types.fieldTypes(tys[0], ctor);
      SpecializeCost(matrix, ctor, |fields|);
      MissingAgrees(Specialize(matrix, ctor, |fields|), fields + tys[1..], types);
      DefaultInSpecialize(matrix, ctor, |fields|);
      OpenColumns(DefaultMatrix(matrix), fields, tys[1..], types);
      if UsefulUnder(matrix, ctor, tys, types) {
        FewerRowsStayUseful(PadAll(|fields|, DefaultMatrix(matrix)), Specialize(matrix, ctor, |fields|),
                            fields + tys[1..], types);
      }
    }
  }

  /** The two algorithms agree on exhaustiveness for every matrix and every columns
      exactly when the oracle never lists a finite type with no constructor. */
  lemma {:induction false} AgreementExact(types: PatternTypes)
    ensures ListsNonempty(types) <==>
            forall matrix, tys :: Missing(matrix, tys, types) == [] <==> !WildUseful(matrix, tys, types)
  {
    if ListsNonempty(types) {
      forall matrix, tys ensures Missing(matrix, tys, types) == [] <==> !WildUseful(matrix, tys, types) {
        MissingAgrees(matrix, tys, types);
      }
    } else {
      var ty :| types.constructors(ty) == Some([]);
      EmptyListDisagrees(ty, types);
    }
  }

  /** A type listed with no constructor, such as an enum without variants, and no arm at
      all: `is_useful` says the match is exhaustive, `missing_rows` reports `_`. */
  lemma {:induction false} EmptyListDisagrees(ty: Ty, types: PatternTypes)
    requires types.constructors(ty) == Some([])
    ensures Missing([], [ty], types) == [[Wild]] && !WildUseful([], [ty], types)
  {
    WildUsefulUnfold([], [ty], types);
    assert [ty][1..] == [];
    assert Missing([], [], types) == [[]];
    assert Missing([], [ty], types) == WildAll(Missing(DefaultMatrix([]), [ty][1..], types));
    assert [Wild] + [] == [Wild];
  }

  // ---- the loops the checker runs -------------------------------------------

  method SpecializeRowLoop(row: Row, ctor: Ctor, arity: nat, out: Matrix) returns (grown: Matrix)
    ensures grown == out + SpecializeRow(row, ctor, arity)
    decreases SizeRow(row)
  {
    if row == [] {
      return out;
    }
    var rest := row[1..];
    match row[0]
    case Wild => grown := out + [Wilds(arity) + rest];
    case Con(c, args) => grown := if c == ctor then out + [Pad(args, arity) + rest] else out;
    case Or(alternatives) =>
      SizeUnfold(row);
      grown := out;
      for i := 0 to |alternatives|
        invariant grown == out + SpecializeAlternatives(alternatives[..i], rest, ctor, arity)
      {
        SizeElement(alternatives, i);
        SizeAppend([alternatives[i]], rest);
        SizeUnfold([alternatives[i]]);
        grown := SpecializeRowLoop([alternatives[i]] + rest, ctor, arity, grown);
        assert ([alternatives[i]] + rest)[1..] == rest;
        SpecializeSnoc(alternatives[..i], alternatives[i], rest, ctor, arity);
        assert alternatives[..i + 1] == alternatives[..i] + [alternatives[i]];
      }
      assert alternatives[..|alternatives|] == alternatives;
  }

  lemma {:induction false} SpecializeSnoc(alternatives: seq<Pat>, last: Pat, rest: Row, ctor: Ctor, arity: nat)
    ensures SpecializeAlternatives(alternatives + [last], rest, ctor, arity)
         == SpecializeAlternatives(alternatives, rest, ctor, arity) + SpecializeHead(last, rest, ctor, arity)
  {
    if alternatives == [] {
      assert [last][1..] == [];
      assert alternatives + [last] == [last];
    } else {
      assert (alternatives + [last])[1..] == alternatives[1..] + [last];
      SpecializeSnoc(alternatives[1..], last, rest, ctor, arity);
    }
  }

  method DefaultRowLoop(row: Row, out: Matrix) returns (grown: Matrix)
    ensures grown == out + DefaultRow(row)
    decreases SizeRow(row)
  {
    if row == [] {
      return out;
    }
    var rest := row[1..];
    match row[0]
    case Wild => grown := out + [rest];
    case Con(_, _) => grown := out;
    case Or(alternatives) =>
      SizeUnfold(row);
      grown := out;
      for i := 0 to |alternatives|
        invariant grown == out + DefaultAlternatives(alternatives[..i], rest)
      {
        SizeElement(alternatives, i);
        SizeAppend([alternatives[i]], rest);
        SizeUnfold([alternatives[i]]);
        grown := DefaultRowLoop([alternatives[i]] + rest, grown);
        assert ([alternatives[i]] + rest)[1..] == rest;
        DefaultSnoc(alternatives[..i], alternatives[i], rest);
        assert alternatives[..i + 1] == alternatives[..i] + [alternatives[i]];
      }
      assert alternatives[..|alternatives|] == alternatives;
  }

  lemma {:induction false} DefaultSnoc(alternatives: seq<Pat>, last: Pat, rest: Row)
    ensures DefaultAlternatives(alternatives + [last], rest)
         == DefaultAlternatives(alternatives, rest) + DefaultHead(last, rest)
  {
    if alternatives == [] {
      assert [last][1..] == [];
      assert alternatives + [last] == [last];
    } else {
      assert (alternatives + [last])[1..] == alternatives[1..] + [last];
      DefaultSnoc(alternatives[1..], last, rest);
    }
  }

  lemma {:induction false} SpecializeStep(matrix: Matrix, i: nat, ctor: Ctor, arity: nat, out: Matrix)
    requires i < |matrix|
    ensures out + SpecializeRow(matrix[i], ctor, arity) + Specialize(matrix[i + 1..], ctor, arity)
         == out + Specialize(matrix[i..], ctor, arity)
  {
    hide SpecializeRow;
    assert matrix[i..][1..] == matrix[i + 1..];
  }

  method SpecializeLoop(matrix: Matrix, ctor: Ctor, arity: nat) returns (out: Matrix)
    ensures out == Specialize(matrix, ctor, arity)
  {
    hide SpecializeRow;
    out := [];
    for i := 0 to |matrix|
      invariant out + Specialize(matrix[i..], ctor, arity) == Specialize(matrix, ctor, arity)
    {
      SpecializeStep(matrix, i, ctor, arity, out);
      out := SpecializeRowLoop(matrix[i], ctor, arity, out);
    }
  }

  lemma {:induction false} DefaultStep(matrix: Matrix, i: nat, out: Matrix)
    requires i < |matrix|
    ensures out + DefaultRow(matrix[i]) + DefaultMatrix(matrix[i + 1..]) == out + DefaultMatrix(matrix[i..])
  {
    hide DefaultRow;
    assert matrix[i..][1..] == matrix[i + 1..];
  }

  method DefaultMatrixLoop(matrix: Matrix) returns (out: Matrix)
    ensures out == DefaultMatrix(matrix)
  {
    hide DefaultRow;
    out := [];
    for i := 0 to |matrix|
      invariant out + DefaultMatrix(matrix[i..]) == DefaultMatrix(matrix)
    {
      DefaultStep(matrix, i, out);
      out := DefaultRowLoop(matrix[i], out);
    }
  }

  function Take(rows: Matrix, limit: nat): (r: Matrix)
    ensures |r| <= limit && r <= rows
  {
    if |rows| <= limit then rows else rows[..limit]
  }

  lemma {:induction false} ByCtorStep(matrix: Matrix, ctors: seq<Ctor>, c: nat, tys: seq<Ty>, types: PatternTypes)
    requires tys != [] && HeadConstructors(matrix) != {} && c < |ctors|
    ensures MissingByCtor(matrix, ctors[c..], tys, types)
         == MissingFor(matrix, ctors[c], tys, types) + MissingByCtor(matrix, ctors[c + 1..], tys, types)
  {
    hide Missing, MissingFor, Wide;
    assert ctors[c..][1..] == ctors[c + 1..];
  }

  lemma {:induction false} TakeRound(whole: Matrix, a: Matrix, b: Matrix, c: Matrix, limit: nat)
    requires |a| < limit && whole == a + (b + c)
    ensures var grown := a + Take(b, limit - |a|);
            if |grown| == limit then grown == Take(whole, limit) else grown + c == whole
  {
  }

  lemma {:induction false} TakeWild(rows: Matrix, limit: nat)
    ensures WildAll(Take(rows, limit)) == Take(WildAll(rows), limit)
  {
  }

  lemma {:induction false} TakeWrapped(ctor: Ctor, arity: nat, rows: Matrix, limit: nat)
    requires forall row <- rows :: arity <= |row|
    ensures forall row <- Take(rows, limit) :: arity <= |row|
    ensures WrapAll(ctor, arity, Take(rows, limit)) == Take(WrapAll(ctor, arity, rows), limit)
  {
  }

  lemma {:induction false} WrapAllSnoc(ctor: Ctor, arity: nat, rows: Matrix, r: nat)
    requires r < |rows| && forall row <- rows :: arity <= |row|
    ensures WrapAll(ctor, arity, rows)[..r + 1] == WrapAll(ctor, arity, rows)[..r] + [Wrap(ctor, arity, rows[r])]
  {
    var all := WrapAll(ctor, arity, rows);
    assert all[r] == Wrap(ctor, arity, rows[r]);
  }

  /** The inner loop: wraps witnesses under `ctor` and reports whether the limit is reached. */
  method PushWrapped(out: Matrix, ctor: Ctor, arity: nat, rows: Matrix, limit: nat) returns (grown: Matrix, full: bool)
    requires |out| < limit && |out| + |rows| <= limit
    requires forall row <- rows :: arity <= |row|
    ensures grown == out + WrapAll(ctor, arity, rows)
    ensures full <==> |grown| == limit
  {
    hide Wrap;
    ghost var all := WrapAll(ctor, arity, rows);
    grown := out;
    for r := 0 to |rows|
      invariant |out| + r < limit
      invariant grown == out + all[..r]
    {
      WrapAllSnoc(ctor, arity, rows, r);
      grown := grown + [Wrap(ctor, arity, rows[r])];
      if |grown| >= limit {
        assert r + 1 == |rows| && all[..|rows|] == all;
        return grown, true;
      }
    }
    assert all[..|rows|] == all;
    full := false;
  }

  lemma {:induction false} SplitWhole(matrix: Matrix, all: seq<Ctor>, tys: seq<Ty>, types: PatternTypes)
    requires tys != [] && Splits(matrix, tys[0], types) && all == types.constructors(tys[0]).value
    ensures [] + MissingByCtor(matrix, all[0..], tys, types) == Missing(matrix, tys, types)
    ensures MissingByCtor(matrix, all[|all|..], tys, types) == []
  {
    hide MissingFor;
    assert all[0..] == all && all[|all|..] == [];
  }

  lemma {:induction false} MissingForIs(matrix: Matrix, ctor: Ctor, tys: seq<Ty>, types: PatternTypes)
    requires tys != [] && HeadConstructors(matrix) != {}
    ensures var fields := types.fieldTypes(tys[0], ctor);
            var inner := Missing(Specialize(matrix, ctor, |fields|), fields + tys[1..], types);
            (forall row <- inner :: |fields| <= |row|) &&
                MissingFor(matrix, ctor, tys, types) == WrapAll(ctor, |fields|, inner)
  {
    hide Missing, WrapAll, Specialize;
  }

  /** One constructor's rows, cut at the limit. */
  lemma {:induction false} CutRows(matrix: Matrix, ctor: Ctor, tys: seq<Ty>, types: PatternTypes, room: nat)
    requires tys != [] && HeadConstructors(matrix) != {}
    ensures var fields := types.fieldTypes(tys[0], ctor);
            var rows := Take(Missing(Specialize(matrix, ctor, |fields|), fields + tys[1..], types), room);
            && (forall row <- rows :: |fields| <= |row|)
            && WrapAll(ctor, |fields|, rows) == Take(MissingFor(matrix, ctor, tys, types), room)
  {
    hide HeadConstructors, Missing, MissingFor, Take, WrapAll, Specialize;
    var fields := types.fieldTypes(tys[0], ctor);
    MissingForIs(matrix, ctor, tys, types);
    TakeWrapped(ctor, |fields|, Missing(Specialize(matrix, ctor, |fields|), fields + tys[1..], types), room);
  }

  /** One round of the split keeps the loop on course. */
  lemma {:induction false} SplitRound(matrix: Matrix, all: seq<Ctor>, c: nat, tys: seq<Ty>, types: PatternTypes,
                                      out: Matrix, whole: Matrix, limit: nat)
    requires tys != [] && HeadConstructors(matrix) != {} && c < |all| && |out| < limit
    requires out + MissingByCtor(matrix, all[c..], tys, types) == whole
    ensures var grown := out + Take(MissingFor(matrix, all[c], tys, types), limit - |out|);
            if |grown| == limit then grown == Take(whole, limit)
            else grown + MissingByCtor(matrix, all[c + 1..], tys, types) == whole
  {
    hide HeadConstructors, MissingByCtor, MissingFor, Take;
    ByCtorStep(matrix, all, c, tys, types);
    TakeRound(whole, out, MissingFor(matrix, all[c], tys, types), MissingByCtor(matrix, all[c + 1..], tys, types),
              limit);
  }

  /** One listed constructor: its rows are found, wrapped and appended, as far as the limit allows. */
  method PushConstructor(matrix: Matrix, ctor: Ctor, tys: seq<Ty>, types: PatternTypes, limit: nat, out: Matrix)
    returns (grown: Matrix, full: bool)
    requires |out| < limit && tys != [] && HeadConstructors(matrix) != {}
    ensures grown == out + Take(MissingFor(matrix, ctor, tys, types), limit - |out|)
    ensures full <==> |grown| == limit
    decreases MatrixCost(matrix), |tys|, 0
  {
    hide Missing, MissingFor, Take, WrapAll;
    var fields := types.fieldTypes(tys[0], ctor);
    SpecializeCost(matrix, ctor, |fields|);
    var specialized := SpecializeLoop(matrix, ctor, |fields|);
    var rows := MissingRows(specialized, fields + tys[1..], types, limit - |out|);
    CutRows(matrix, ctor, tys, types, limit - |out|);
    grown, full := PushWrapped(out, ctor, |fields|, rows, limit);
  }

  lemma {:induction false} TakeAll(out: Matrix, rest: Matrix, whole: Matrix, limit: nat)
    requires out + rest == whole && rest == [] && |out| <= limit
    ensures out == Take(whole, limit)
  {
    assert out + [] == out;
  }

  /** The split on every listed constructor, as far as the limit allows. */
  method MissingSplit(matrix: Matrix, tys: seq<Ty>, types: PatternTypes, limit: nat) returns (out: Matrix)
    requires limit > 0 && tys != [] && Splits(matrix, tys[0], types)
    ensures out == Take(Missing(matrix, tys, types), limit)
    decreases MatrixCost(matrix), |tys|, 1
  {
    hide HeadConstructors, MatrixCost, MissingByCtor, MissingFor, Missing, Take;
    var all := types.constructors(tys[0]).value;
    ghost var whole := Missing(matrix, tys, types);
    out := [];
    SplitWhole(matrix, all, tys, types);
    for c := 0 to |all|
      invariant |out| < limit
      invariant out + MissingByCtor(matrix, all[c..], tys, types) == whole
    {
      SplitRound(matrix, all, c, tys, types, out, whole, limit);
      var full: bool;
      out, full := PushConstructor(matrix, all[c], tys, types, limit, out);
      if full {
        return;
      }
    }
    TakeAll(out, MissingByCtor(matrix, all[|all|..], tys, types), whole, limit);
  }

  /** The limited search reports exactly the first `limit` rows of the whole report. */
  method MissingRows(matrix: Matrix, tys: seq<Ty>, types: PatternTypes, limit: nat) returns (out: Matrix)
    ensures out == Take(Missing(matrix, tys, types), limit)
    decreases MatrixCost(matrix), |tys|, 2
  {
    if limit == 0 {
      return [];
    }
    if tys == [] {
      return if matrix == [] then [[]] else [];
    }
    if Splits(matrix, tys[0], types) {
      out := MissingSplit(matrix, tys, types, limit);
      return;
    }
    DefaultCost(matrix);
    var defaults := DefaultMatrixLoop(matrix);
    var rows := MissingRows(defaults, tys[1..], types, limit);
    out := WildAll(rows);
    TakeWild(Missing(defaults, tys[1..], types), limit);
  }
}
