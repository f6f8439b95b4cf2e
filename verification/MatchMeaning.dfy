/** What the usefulness algorithm means for typed values. */
module MatchMeaning {
  import opened Wrappers
  import opened MatchUsefulness

  datatype Value = Value(ctor: Ctor, fields: seq<Value>)

  /** Missing arguments count as wildcards and surplus ones are ignored, as zipping does. */
  predicate Matches(pat: Pat, v: Value)
    decreases pat
  {
    match pat
    case Wild => true
    case Or(alternatives) => exists p <- alternatives :: Matches(p, v)
    case Con(ctor, args) =>
      ctor == v.ctor && forall i | 0 <= i < |args| && i < |v.fields| :: Matches(args[i], v.fields[i])
  }

  predicate MatchesRow(row: Row, vs: seq<Value>) {
    |row| == |vs| && forall i | 0 <= i < |row| :: Matches(row[i], vs[i])
  }

  predicate Covered(matrix: Matrix, vs: seq<Value>) {
    exists row <- matrix :: MatchesRow(row, vs)
  }

  // ---- typing -------------------------------------------------------------

  predicate Heads(types: PatternTypes, ty: Ty, ctor: Ctor) {
    match types.constructors(ty)
    case Some(all) => ctor in all
    case None => types.openHeads(ty, ctor)
  }

  predicate HasType(types: PatternTypes, ty: Ty, v: Value)
    decreases v
  {
    && Heads(types, ty, v.ctor)
    && var fields := types.fieldTypes(ty, v.ctor);
    && |fields| == |v.fields|
    && forall i | 0 <= i < |v.fields| :: HasType(types, fields[i], v.fields[i])
  }

  predicate HasTypes(types: PatternTypes, tys: seq<Ty>, vs: seq<Value>) {
    |tys| == |vs| && forall i | 0 <= i < |vs| :: HasType(types, tys[i], vs[i])
  }

  /** The constructors a pattern names really are constructors of its column's type. */
  predicate PatTyped(types: PatternTypes, ty: Ty, pat: Pat)
    decreases pat
  {
    match pat
    case Wild => true
    case Or(alternatives) => forall p <- alternatives :: PatTyped(types, ty, p)
    case Con(ctor, args) =>
      && Heads(types, ty, ctor)
      && var fields := types.fieldTypes(ty, ctor);
      forall i | 0 <= i < |args| && i < |fields| :: PatTyped(types, fields[i], args[i])
  }

  predicate RowTyped(types: PatternTypes, tys: seq<Ty>, row: Row) {
    |tys| == |row| && forall i | 0 <= i < |row| :: PatTyped(types, tys[i], row[i])
  }

  ghost predicate HeadOutside(types: PatternTypes, ty: Ty, seen: set<Ctor>) {
    exists ctor :: ctor !in seen && Heads(types, ty, ctor)
  }

  /** A family of types closed under fields in which every type has a value and an
      unlisted type always has a head outside any finite set. */
  ghost predicate Inhabited(types: PatternTypes, family: iset<Ty>) {
    forall ty | ty in family ::
      && (exists v :: HasType(types, ty, v))
      && (forall ctor | Heads(types, ty, ctor) :: forall f <- types.fieldTypes(ty, ctor) :: f in family)
      && (types.constructors(ty).None? ==> forall seen :: HeadOutside(types, ty, seen))
  }

  /** A family of types closed under fields whose constructors are all listed. */
  ghost predicate Finite(types: PatternTypes, family: iset<Ty>) {
    forall ty | ty in family ::
      && types.constructors(ty).Some?
      && forall ctor | Heads(types, ty, ctor) :: forall f <- types.fieldTypes(ty, ctor) :: f in family
  }

  ghost predicate Within(tys: seq<Ty>, family: iset<Ty>) {
    forall ty <- tys :: ty in family
  }

  // ---- the matrix operations against values -------------------------------

  lemma {:induction false} CoveredAppend(a: Matrix, b: Matrix, vs: seq<Value>)
    ensures Covered(a + b, vs) <==> Covered(a, vs) || Covered(b, vs)
  {
    if Covered(a, vs) {
      var row :| row in a && MatchesRow(row, vs);
      assert row in a + b;
    }
    if Covered(b, vs) {
      var row :| row in b && MatchesRow(row, vs);
      assert row in a + b;
    }
  }

  lemma {:induction false} RowAppend(a: Row, b: Row, vs: seq<Value>, ws: seq<Value>)
    requires |a| == |vs|
    ensures MatchesRow(a + b, vs + ws) <==> MatchesRow(a, vs) && MatchesRow(b, ws)
  {
    if MatchesRow(a + b, vs + ws) {
      forall i | 0 <= i < |a| ensures Matches(a[i], vs[i]) {
        assert (a + b)[i] == a[i] && (vs + ws)[i] == vs[i];
      }
      forall i | 0 <= i < |b| ensures Matches(b[i], ws[i]) {
        assert (a + b)[|a| + i] == b[i] && (vs + ws)[|a| + i] == ws[i];
      }
    }
  }

  lemma {:induction false} ConsRow(row: Row, vs: seq<Value>)
    requires |row| == |vs| > 0
    ensures MatchesRow(row, vs) <==> Matches(row[0], vs[0]) && MatchesRow(row[1..], vs[1..])
  {
    assert row == [row[0]] + row[1..] && vs == [vs[0]] + vs[1..];
    RowAppend([row[0]], row[1..], [vs[0]], vs[1..]);
    assert MatchesRow([row[0]], [vs[0]]) <==> Matches([row[0]][0], [vs[0]][0]);
  }

  lemma {:induction false} PadMatches(args: Row, v: Value)
    ensures MatchesRow(Pad(args, |v.fields|), v.fields) <==> Matches(Con(v.ctor, args), v)
  {
    if MatchesRow(Pad(args, |v.fields|), v.fields) {
      forall i | 0 <= i < |args| && i < |v.fields| ensures Matches(args[i], v.fields[i]) {
        assert Pad(args, |v.fields|)[i] == args[i];
      }
    }
  }

  lemma {:induction false} SpecializeHeadCovers(head: Pat, rest: Row, v: Value, ws: seq<Value>)
    requires |rest| == |ws|
    ensures Covered(SpecializeHead(head, rest, v.ctor, |v.fields|), v.fields + ws)
            <==> Matches(head, v) && MatchesRow(rest, ws)
    decreases head, 1
  {
    match head
    case Wild =>
      RowAppend(Wilds(|v.fields|), rest, v.fields, ws);
      assert MatchesRow(Wilds(|v.fields|), v.fields);
      SingleRow(Wilds(|v.fields|) + rest, v.fields + ws);
    case Con(c, args) =>
      if c == v.ctor {
        RowAppend(Pad(args, |v.fields|), rest, v.fields, ws);
        PadMatches(args, v);
        SingleRow(Pad(args, |v.fields|) + rest, v.fields + ws);
      }
    case Or(alternatives) => SpecializeAlternativesCovers(alternatives, rest, v, ws);
  }

  lemma {:induction false} SingleRow(row: Row, vs: seq<Value>)
    ensures Covered([row], vs) <==> MatchesRow(row, vs)
  {
    if MatchesRow(row, vs) {
      assert row in [row];
    }
  }

  lemma {:induction false} SpecializeAlternativesCovers(alternatives: seq<Pat>, rest: Row, v: Value, ws: seq<Value>)
    requires |rest| == |ws|
    ensures Covered(SpecializeAlternatives(alternatives, rest, v.ctor, |v.fields|), v.fields + ws)
            <==> (exists p <- alternatives :: Matches(p, v)) && MatchesRow(rest, ws)
    decreases alternatives, 0
  {
    if alternatives != [] {
      SpecializeHeadCovers(alternatives[0], rest, v, ws);
      SpecializeAlternativesCovers(alternatives[1..], rest, v, ws);
      CoveredAppend(SpecializeHead(alternatives[0], rest, v.ctor, |v.fields|),
                    SpecializeAlternatives(alternatives[1..], rest, v.ctor, |v.fields|), v.fields + ws);
      assert alternatives == [alternatives[0]] + alternatives[1..];
    }
  }

  lemma {:induction false} SpecializeCovers(matrix: Matrix, v: Value, ws: seq<Value>)
    requires Wide(matrix, |ws| + 1)
    ensures Covered(Specialize(matrix, v.ctor, |v.fields|), v.fields + ws) <==> Covered(matrix, [v] + ws)
  {
    if matrix != [] {
      var row := matrix[0];
      SpecializeHeadCovers(row[0], row[1..], v, ws);
      ConsRow(row, [v] + ws);
      assert ([v] + ws)[1..] == ws;
      SpecializeCovers(matrix[1..], v, ws);
      CoveredAppend(SpecializeRow(row, v.ctor, |v.fields|), Specialize(matrix[1..], v.ctor, |v.fields|), v.fields + ws);
      CoveredAppend([row], matrix[1..], [v] + ws);
      SingleRow(row, [v] + ws);
      assert matrix == [row] + matrix[1..];
    }
  }

  lemma {:induction false} DefaultHeadCovers(head: Pat, rest: Row, v: Value, ws: seq<Value>)
    requires |rest| == |ws|
    ensures Covered(DefaultHead(head, rest), ws) ==> Matches(head, v) && MatchesRow(rest, ws)
    ensures v.ctor !in PatHeads(head) && Matches(head, v) && MatchesRow(rest, ws) ==>
              Covered(DefaultHead(head, rest), ws)
    decreases head, 1
  {
    match head
    case Wild => SingleRow(rest, ws);
    case Con(_, _) =>
    case Or(alternatives) => DefaultAlternativesCovers(alternatives, rest, v, ws);
  }

  lemma {:induction false} DefaultAlternativesCovers(alternatives: seq<Pat>, rest: Row, v: Value, ws: seq<Value>)
    requires |rest| == |ws|
    ensures Covered(DefaultAlternatives(alternatives, rest), ws)
            ==> (exists p <- alternatives :: Matches(p, v)) && MatchesRow(rest, ws)
    ensures v.ctor !in AlternativeHeads(alternatives) && (exists p <- alternatives :: Matches(p, v)) &&
              MatchesRow(rest, ws)
            ==> Covered(DefaultAlternatives(alternatives, rest), ws)
    decreases alternatives, 0
  {
    if alternatives != [] {
      DefaultHeadCovers(alternatives[0], rest, v, ws);
      DefaultAlternativesCovers(alternatives[1..], rest, v, ws);
      CoveredAppend(DefaultHead(alternatives[0], rest), DefaultAlternatives(alternatives[1..], rest), ws);
      assert alternatives == [alternatives[0]] + alternatives[1..];
    }
  }

  lemma {:induction false} DefaultCovers(matrix: Matrix, v: Value, ws: seq<Value>)
    requires Wide(matrix, |ws| + 1)
    ensures Covered(DefaultMatrix(matrix), ws) ==> Covered(matrix, [v] + ws)
    ensures v.ctor !in HeadConstructors(matrix) && Covered(matrix, [v] + ws) ==> Covered(DefaultMatrix(matrix), ws)
  {
    if matrix != [] {
      var row := matrix[0];
      DefaultHeadCovers(row[0], row[1..], v, ws);
      ConsRow(row, [v] + ws);
      assert ([v] + ws)[1..] == ws;
      DefaultCovers(matrix[1..], v, ws);
      CoveredAppend(DefaultRow(row), DefaultMatrix(matrix[1..]), ws);
      CoveredAppend([row], matrix[1..], [v] + ws);
      SingleRow(row, [v] + ws);
      assert matrix == [row] + matrix[1..];
    }
  }

  lemma {:induction false} SpecializeHeadWide(head: Pat, rest: Row, ctor: Ctor, arity: nat)
    ensures Wide(SpecializeHead(head, rest, ctor, arity), arity + |rest|)
    decreases head, 1
  {
    match head
    case Wild =>
    case Con(_, _) =>
    case Or(alternatives) => SpecializeAlternativesWide(alternatives, rest, ctor, arity);
  }

  lemma {:induction false} SpecializeAlternativesWide(alternatives: seq<Pat>, rest: Row, ctor: Ctor, arity: nat)
    ensures Wide(SpecializeAlternatives(alternatives, rest, ctor, arity), arity + |rest|)
    decreases alternatives, 0
  {
    if alternatives != [] {
      SpecializeHeadWide(alternatives[0], rest, ctor, arity);
      SpecializeAlternativesWide(alternatives[1..], rest, ctor, arity);
    }
  }

  lemma {:induction false} SpecializeWide(matrix: Matrix, width: nat, ctor: Ctor, arity: nat)
    requires Wide(matrix, width + 1)
    ensures Wide(Specialize(matrix, ctor, arity), arity + width)
  {
    if matrix != [] {
      SpecializeHeadWide(matrix[0][0], matrix[0][1..], ctor, arity);
      SpecializeWide(matrix[1..], width, ctor, arity);
    }
  }

  lemma {:induction false} DefaultHeadWide(head: Pat, rest: Row)
    ensures Wide(DefaultHead(head, rest), |rest|)
    decreases head, 1
  {
    match head
    case Wild =>
    case Con(_, _) =>
    case Or(alternatives) => DefaultAlternativesWide(alternatives, rest);
  }

  lemma {:induction false} DefaultAlternativesWide(alternatives: seq<Pat>, rest: Row)
    ensures Wide(DefaultAlternatives(alternatives, rest), |rest|)
    decreases alternatives, 0
  {
    if alternatives != [] {
      DefaultHeadWide(alternatives[0], rest);
      DefaultAlternativesWide(alternatives[1..], rest);
    }
  }

  lemma {:induction false} DefaultWide(matrix: Matrix, width: nat)
    requires Wide(matrix, width + 1)
    ensures Wide(DefaultMatrix(matrix), width)
  {
    if matrix != [] {
      DefaultHeadWide(matrix[0][0], matrix[0][1..]);
      DefaultWide(matrix[1..], width);
    }
  }

  lemma {:induction false} WrapMatches(ctor: Ctor, arity: nat, row: Row, v: Value, ws: seq<Value>)
    requires arity <= |row|
    ensures |row| == |v.fields| + |ws| && |v.fields| == arity && v.ctor == ctor ==>
              (MatchesRow(Wrap(ctor, arity, row), [v] + ws) <==> MatchesRow(row, v.fields + ws))
  {
    if |row| == |v.fields| + |ws| && |v.fields| == arity && v.ctor == ctor {
      RowAppend(row[..arity], row[arity..], v.fields, ws);
      assert row == row[..arity] + row[arity..];
      RowAppend([Con(ctor, row[..arity])], row[arity..], [v], ws);
      PadMatches(row[..arity], v);
      assert Pad(row[..arity], arity) == row[..arity];
      assert MatchesRow([Con(ctor, row[..arity])], [v]) <==> Matches([Con(ctor, row[..arity])][0], [v][0]);
    }
  }

  /** Typed values regroup: a head value in front of the rest, or its fields spliced in. */
  lemma {:induction false} TypesSplice(types: PatternTypes, tys: seq<Ty>, v: Value, ws: seq<Value>)
    requires tys != []
    requires Heads(types, tys[0], v.ctor) && |types.fieldTypes(tys[0], v.ctor)| == |v.fields|
    ensures HasTypes(types, tys, [v] + ws) <==>
              HasTypes(types, types.fieldTypes(tys[0], v.ctor) + tys[1..], v.fields + ws)
  {
    var fields := types.fieldTypes(tys[0], v.ctor);
    if HasTypes(types, tys, [v] + ws) {
      assert HasType(types, tys[0], ([v] + ws)[0]);
      forall i | 0 <= i < |v.fields + ws| ensures HasType(types, (fields + tys[1..])[i], (v.fields + ws)[i]) {
        if i >= |fields| {
          assert ([v] + ws)[i - |fields| + 1] == (v.fields + ws)[i];
        }
      }
    }
    if HasTypes(types, fields + tys[1..], v.fields + ws) {
      forall i | 0 <= i < |v.fields| ensures HasType(types, fields[i], v.fields[i]) {
        assert (fields + tys[1..])[i] == fields[i] && (v.fields + ws)[i] == v.fields[i];
      }
      forall i | 0 <= i < |[v] + ws| ensures HasType(types, tys[i], ([v] + ws)[i]) {
        if i > 0 {
          assert (v.fields + ws)[|fields| + i - 1] == ([v] + ws)[i];
          assert (fields + tys[1..])[|fields| + i - 1] == tys[i];
        }
      }
    }
  }

  // ---- not useful means nothing is lost ------------------------------------

  /** The half that needs no assumption on the oracle or on the patterns. */
  lemma {:induction false} UselessIsCovered(matrix: Matrix, row: Row, tys: seq<Ty>, types: PatternTypes, vs: seq<Value>)
    requires |row| == |tys| && Wide(matrix, |tys|)
    requires !IsUseful(matrix, row, tys, types)
    requires HasTypes(types, tys, vs) && MatchesRow(row, vs)
    ensures Covered(matrix, vs)
    decreases MatrixCost(matrix) + SizeRow(row), |row|, 1
  {
    if row == [] {
      assert MatchesRow(matrix[0], vs);
    } else {
      SizeUnfold(row);
      var rest := row[1..];
      var v, ws := vs[0], vs[1..];
      assert vs == [v] + ws;
      ConsRow(row, vs);
      match row[0]
      case Con(ctor, args) =>
        var fields := types.fieldTypes(tys[0], ctor);
        SpecializeCost(matrix, ctor, |fields|);
        SizePad(args, |fields|, rest);
        PadMatches(args, v);
        RowAppend(Pad(args, |fields|), rest, v.fields, ws);
        CoveredThroughHead(matrix, Pad(args, |fields|) + rest, tys, types, v, ws);
      case Or(alternatives) =>
        var i :| 0 <= i < |alternatives| && Matches(alternatives[i], v);
        SizeElement(alternatives, i);
        SizeAppend([alternatives[i]], rest);
        SizeUnfold([alternatives[i]]);
        ConsRow([alternatives[i]] + rest, vs);
        UselessIsCovered(matrix, [alternatives[i]] + rest, tys, types, vs);
      case Wild => UselessWildIsCovered(matrix, rest, tys, types, v, ws);
    }
  }

  lemma {:induction false} UselessWildIsCovered(matrix: Matrix, rest: Row, tys: seq<Ty>, types: PatternTypes,
                                                v: Value, ws: seq<Value>)
    requires |rest| + 1 == |tys| && Wide(matrix, |tys|)
    requires !IsUseful(matrix, [Wild] + rest, tys, types)
    requires HasTypes(types, tys, [v] + ws) && MatchesRow(rest, ws)
    ensures Covered(matrix, [v] + ws)
    decreases MatrixCost(matrix) + SizeRow([Wild] + rest), |rest| + 1, 0
  {
    SizeUnfold([Wild] + rest);
    WildUseless(matrix, rest, tys, types, v, ws);
    hide IsUseful, HasTypes, Covered, MatchesRow, Specialize, DefaultMatrix, Cost, MatrixCost, HeadConstructors;
    match CompleteSignature(tys[0], HeadConstructors(matrix), types)
    case Some(all) =>
      var fields := types.fieldTypes(tys[0], v.ctor);
      SpecializeCost(matrix, v.ctor, |fields|);
      SizeAppend(Wilds(|fields|), rest);
      SizeWilds(|fields|);
      RowAppend(Wilds(|fields|), rest, v.fields, ws);
      WildsMatch(v.fields);
      CoveredThroughHead(matrix, Wilds(|fields|) + rest, tys, types, v, ws);
    case None =>
      DefaultCost(matrix);
      DefaultWide(matrix, |ws|);
      UselessIsCovered(DefaultMatrix(matrix), rest, tys[1..], types, ws);
      DefaultCovers(matrix, v, ws);
  }

  lemma {:induction false} WildsMatch(vs: seq<Value>)
    ensures MatchesRow(Wilds(|vs|), vs)
  {
  }

  /** What a useless wildcard head says about the matrices below. */
  lemma {:induction false} WildUseless(matrix: Matrix, rest: Row, tys: seq<Ty>, types: PatternTypes, v: Value,
                                       ws: seq<Value>)
    requires |rest| + 1 == |tys| && Wide(matrix, |tys|)
    requires !IsUseful(matrix, [Wild] + rest, tys, types)
    requires HasTypes(types, tys, [v] + ws)
    ensures |rest| == |ws| && |types.fieldTypes(tys[0], v.ctor)| == |v.fields|
    ensures match CompleteSignature(tys[0], HeadConstructors(matrix), types)
            case Some(_) =>
              var fields := types.fieldTypes(tys[0], v.ctor);
              && HeadConstructors(matrix) != {}
              && !IsUseful(Specialize(matrix, v.ctor, |fields|), Wilds(|fields|) + rest, fields + tys[1..], types)
            case None =>
              && HasTypes(types, tys[1..], ws)
              && !IsUseful(DefaultMatrix(matrix), rest, tys[1..], types)
  {
    var row, vs := [Wild] + rest, [v] + ws;
    assert row[0] == Wild && row[1..] == rest;
    assert vs[0] == v && vs[1..] == ws;
    match CompleteSignature(tys[0], HeadConstructors(matrix), types)
    case Some(all) =>
      var i :| 0 <= i < |all| && all[i] == v.ctor;
      assert all[i] in HeadConstructors(matrix);
    case None =>
  }

  lemma {:induction false} CoveredThroughHead(matrix: Matrix, row: Row, tys: seq<Ty>, types: PatternTypes, v: Value,
                                              ws: seq<Value>)
    requires tys != [] && Wide(matrix, |tys|) && |tys| == |ws| + 1
    requires HasTypes(types, tys, [v] + ws)
    requires |row| == |v.fields| + |ws| && MatchesRow(row, v.fields + ws)
    requires |types.fieldTypes(tys[0], v.ctor)| == |v.fields|
    requires var fields := types.fieldTypes(tys[0], v.ctor);
             !IsUseful(Specialize(matrix, v.ctor, |fields|), row, fields + tys[1..], types)
    ensures Covered(matrix, [v] + ws)
    decreases MatrixCost(Specialize(matrix, v.ctor, |v.fields|)) + SizeRow(row), |row|, 2
  {
    var fields := types.fieldTypes(tys[0], v.ctor);
    assert HasType(types, tys[0], ([v] + ws)[0]);
    TypesSplice(types, tys, v, ws);
    SpecializeWide(matrix, |ws|, v.ctor, |fields|);
    UselessIsCovered(Specialize(matrix, v.ctor, |fields|), row, fields + tys[1..], types, v.fields + ws);
    SpecializeCovers(matrix, v, ws);
  }

  // ---- useful means some value shows it -------------------------------------

  lemma {:induction false} SomeValues(types: PatternTypes, tys: seq<Ty>, family: iset<Ty>) returns (vs: seq<Value>)
    requires Inhabited(types, family) && Within(tys, family)
    ensures HasTypes(types, tys, vs)
  {
    if tys == [] {
      vs := [];
    } else {
      var rest := SomeValues(types, tys[1..], family);
      assert tys[0] in family;
      var v :| HasType(types, tys[0], v);
      vs := [v] + rest;
    }
  }

  lemma {:induction false} SomeValueOutside(types: PatternTypes, ty: Ty, seen: set<Ctor>, family: iset<Ty>)
    returns (v: Value)
    requires Inhabited(types, family) && ty in family
    requires CompleteSignature(ty, seen, types).None?
    ensures HasType(types, ty, v) && v.ctor !in seen
  {
    var ctor: Ctor;
    if types.constructors(ty).None? {
      assert HeadOutside(types, ty, seen);
      ctor :| ctor !in seen && Heads(types, ty, ctor);
    } else {
      ctor :| ctor in types.constructors(ty).value && ctor !in seen;
    }
    var fields := SomeValues(types, types.fieldTypes(ty, ctor), family);
    v := Value(ctor, fields);
  }

  lemma {:induction false} WithinHead(types: PatternTypes, tys: seq<Ty>, ctor: Ctor, family: iset<Ty>)
    requires Inhabited(types, family) || Finite(types, family)
    requires tys != [] && Within(tys, family) && Heads(types, tys[0], ctor)
    ensures Within(types.fieldTypes(tys[0], ctor) + tys[1..], family)
  {
    assert tys[0] in family;
  }

  /** A value vector split back at the fields of a head constructor. */
  lemma {:induction false} Regroup(types: PatternTypes, tys: seq<Ty>, ctor: Ctor, us: seq<Value>)
    returns (v: Value, ws: seq<Value>)
    requires tys != [] && Heads(types, tys[0], ctor)
    requires HasTypes(types, types.fieldTypes(tys[0], ctor) + tys[1..], us)
    ensures v.ctor == ctor && |v.fields| == |types.fieldTypes(tys[0], ctor)| && v.fields + ws == us
    ensures |ws| == |tys| - 1 && HasTypes(types, tys, [v] + ws)
  {
    var k := |types.fieldTypes(tys[0], ctor)|;
    v, ws := Value(ctor, us[..k]), us[k..];
    assert v.fields + ws == us;
    TypesSplice(types, tys, v, ws);
  }

  lemma {:induction false} UsefulHasWitness(matrix: Matrix, row: Row, tys: seq<Ty>, types: PatternTypes,
                                            family: iset<Ty>)
    returns (vs: seq<Value>)
    requires |row| == |tys| && Wide(matrix, |tys|)
    requires Inhabited(types, family) && Within(tys, family) && RowTyped(types, tys, row)
    requires IsUseful(matrix, row, tys, types)
    ensures HasTypes(types, tys, vs) && MatchesRow(row, vs) && !Covered(matrix, vs)
    decreases MatrixCost(matrix) + SizeRow(row), |row|, 2
  {
    if row == [] {
      vs := [];
    } else {
      SizeUnfold(row);
      var rest := row[1..];
      match row[0]
      case Con(ctor, args) =>
        var fields := types.fieldTypes(tys[0], ctor);
        assert PatTyped(types, tys[0], row[0]);
        SpecializeCost(matrix, ctor, |fields|);
        SizePad(args, |fields|, rest);
        PaddedRowTyped(types, tys, row);
        var v, ws := WitnessThroughHead(matrix, ctor, Pad(args, |fields|) + rest, tys, types, family);
        RowAppend(Pad(args, |fields|), rest, v.fields, ws);
        PadMatches(args, v);
        vs := [v] + ws;
        ConsRow(row, vs);
      case Or(alternatives) =>
        var i :| 0 <= i < |alternatives| && IsUseful(matrix, [alternatives[i]] + rest, tys, types);
        SizeElement(alternatives, i);
        SizeAppend([alternatives[i]], rest);
        SizeUnfold([alternatives[i]]);
        assert PatTyped(types, tys[0], row[0]);
        vs := UsefulHasWitness(matrix, [alternatives[i]] + rest, tys, types, family);
        ConsRow([alternatives[i]] + rest, vs);
        ConsRow(row, vs);
      case Wild => vs := WildHasWitness(matrix, row, tys, types, family);
    }
  }

  lemma {:induction false} WildHasWitness(matrix: Matrix, row: Row, tys: seq<Ty>, types: PatternTypes, family: iset<Ty>)
    returns (vs: seq<Value>)
    requires |row| == |tys| > 0 && Wide(matrix, |tys|) && row[0] == Wild
    requires Inhabited(types, family) && Within(tys, family) && RowTyped(types, tys, row)
    requires IsUseful(matrix, row, tys, types)
    ensures HasTypes(types, tys, vs) && MatchesRow(row, vs) && !Covered(matrix, vs)
    decreases MatrixCost(matrix) + SizeRow(row), |row|, 1
  {
    SizeUnfold(row);
    var seen := HeadConstructors(matrix);
    if CompleteSignature(tys[0], seen, types).Some? {
      var all := types.constructors(tys[0]).value;
      var i :| 0 <= i < |all| && var fields := types.fieldTypes(tys[0], all[i]);
        IsUseful(Specialize(matrix, all[i], |fields|), Wilds(|fields|) + row[1..], fields + tys[1..], types);
      WildColumn(matrix, all[i], row, tys, types);
      var arity := |types.fieldTypes(tys[0], all[i])|;
      var v, ws := WitnessThroughHead(matrix, all[i], Wilds(arity) + row[1..], tys, types, family);
      RowAppend(Wilds(arity), row[1..], v.fields, ws);
      vs := ConsWild(row, tys, types, v, ws);
    } else {
      DefaultCost(matrix);
      DefaultWide(matrix, |row[1..]|);
      var ws := UsefulHasWitness(DefaultMatrix(matrix), row[1..], tys[1..], types, family);
      var v := SomeValueOutside(types, tys[0], seen, family);
      DefaultCovers(matrix, v, ws);
      vs := ConsWild(row, tys, types, v, ws);
    }
  }

  lemma {:induction false} ConsWild(row: Row, tys: seq<Ty>, types: PatternTypes, v: Value, ws: seq<Value>)
    returns (vs: seq<Value>)
    requires row != [] && row[0] == Wild && MatchesRow(row[1..], ws)
    ensures vs == [v] + ws && MatchesRow(row, vs)
    ensures tys != [] && HasType(types, tys[0], v) && HasTypes(types, tys[1..], ws) ==> HasTypes(types, tys, vs)
  {
    vs := [v] + ws;
    assert vs[1..] == ws;
    ConsRow(row, vs);
    if tys != [] && HasType(types, tys[0], v) && HasTypes(types, tys[1..], ws) {
      forall i | 0 <= i < |vs| ensures HasType(types, tys[i], vs[i]) {
        assert i > 0 ==> tys[i] == tys[1..][i - 1] && vs[i] == ws[i - 1];
      }
    }
  }

  lemma {:induction false} WildColumn(matrix: Matrix, ctor: Ctor, row: Row, tys: seq<Ty>, types: PatternTypes)
    requires |row| == |tys| > 0 && row[0] == Wild
    requires ctor in HeadConstructors(matrix) && RowTyped(types, tys, row)
    ensures var fields := types.fieldTypes(tys[0], ctor);
            && MatrixCost(Specialize(matrix, ctor, |fields|)) < MatrixCost(matrix)
            && SizeRow(Wilds(|fields|) + row[1..]) == SizeRow(row)
            && RowTyped(types, fields + tys[1..], Wilds(|fields|) + row[1..])
  {
    var arity := |types.fieldTypes(tys[0], ctor)|;
    SpecializeCost(matrix, ctor, arity);
    SizeUnfold(row);
    SizeAppend(Wilds(arity), row[1..]);
    SizeWilds(arity);
  }

  lemma {:induction false} PaddedRowTyped(types: PatternTypes, tys: seq<Ty>, row: Row)
    requires row != [] && RowTyped(types, tys, row) && row[0].Con?
    ensures var fields := types.fieldTypes(tys[0], row[0].ctor);
            RowTyped(types, fields + tys[1..], Pad(row[0].args, |fields|) + row[1..])
  {
    var fields := types.fieldTypes(tys[0], row[0].ctor);
    assert PatTyped(types, tys[0], row[0]);
    forall i | 0 <= i < |fields + tys[1..]|
      ensures PatTyped(types, (fields + tys[1..])[i], (Pad(row[0].args, |fields|) + row[1..])[i])
    {
      if i >= |fields| {
        assert PatTyped(types, tys[i - |fields| + 1], row[i - |fields| + 1]);
      } else if i < |row[0].args| {
        assert Pad(row[0].args, |fields|)[i] == row[0].args[i];
      }
    }
  }

  lemma {:induction false} WitnessThroughHead(matrix: Matrix, ctor: Ctor, row: Row, tys: seq<Ty>,
                                              types: PatternTypes, family: iset<Ty>)
    returns (v: Value, ws: seq<Value>)
    requires tys != [] && Wide(matrix, |tys|) && Heads(types, tys[0], ctor)
    requires Inhabited(types, family) && Within(tys, family)
    requires RowTyped(types, types.fieldTypes(tys[0], ctor) + tys[1..], row)
    requires var fields := types.fieldTypes(tys[0], ctor);
             IsUseful(Specialize(matrix, ctor, |fields|), row, fields + tys[1..], types)
    ensures v.ctor == ctor && |v.fields| == |types.fieldTypes(tys[0], ctor)| && |ws| == |tys| - 1
    ensures HasTypes(types, tys, [v] + ws) && MatchesRow(row, v.fields + ws) && !Covered(matrix, [v] + ws)
    decreases MatrixCost(Specialize(matrix, ctor, |types.fieldTypes(tys[0], ctor)|)) + SizeRow(row), |row|, 3
  {
    var fields := types.fieldTypes(tys[0], ctor);
    SpecializeWide(matrix, |tys| - 1, ctor, |fields|);
    WithinHead(types, tys, ctor, family);
    var us := UsefulHasWitness(Specialize(matrix, ctor, |fields|), row, fields + tys[1..], types, family);
    v, ws := Regroup(types, tys, ctor, us);
    SpecializeCovers(matrix, v, ws);
  }

  /** Usefulness is exact. */
  lemma {:induction false} IsUsefulExact(matrix: Matrix, row: Row, tys: seq<Ty>, types: PatternTypes, family: iset<Ty>)
    requires |row| == |tys| && Wide(matrix, |tys|)
    requires Inhabited(types, family) && Within(tys, family) && RowTyped(types, tys, row)
    ensures IsUseful(matrix, row, tys, types)
            <==> exists vs :: HasTypes(types, tys, vs) && MatchesRow(row, vs) && !Covered(matrix, vs)
  {
    if IsUseful(matrix, row, tys, types) {
      var vs := UsefulHasWitness(matrix, row, tys, types, family);
    } else {
      forall vs | HasTypes(types, tys, vs) && MatchesRow(row, vs) ensures Covered(matrix, vs) {
        UselessIsCovered(matrix, row, tys, types, vs);
      }
    }
  }
}
