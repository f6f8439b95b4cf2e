/** The shape and the order of the reported rows. */
module MatchWitness {
  import opened Wrappers
  import opened MatchUsefulness
  import opened MatchMeaning
  import opened MatchMissing

  predicate Listed(types: PatternTypes, ty: Ty, c: Ctor) {
    types.constructors(ty).Some? && c in types.constructors(ty).value
  }

  /** A witness: wildcards, and listed constructors of the type with one argument for each
      field, at any depth. */
  predicate Formed(types: PatternTypes, ty: Ty, pat: Pat)
    decreases pat
  {
    match pat
    case Wild => true
    case Or(_) => false
    case Con(c, args) =>
      var fields := types.fieldTypes(ty, c);
      Listed(types, ty, c) && |args| == |fields| && forall i | 0 <= i < |args| :: Formed(types, fields[i], args[i])
  }

  predicate FormedRow(types: PatternTypes, tys: seq<Ty>, row: Row) {
    |row| == |tys| && forall i | 0 <= i < |row| :: Formed(types, tys[i], row[i])
  }

  lemma {:induction false} WrapFormed(types: PatternTypes, tys: seq<Ty>, c: Ctor, inner: Row)
    requires tys != [] && Listed(types, tys[0], c)
    requires FormedRow(types, types.fieldTypes(tys[0], c) + tys[1..], inner)
    ensures var arity := |types.fieldTypes(tys[0], c)|;
            arity <= |inner| && FormedRow(types, tys, Wrap(c, arity, inner))
  {
    var fields := types.fieldTypes(tys[0], c);
    var n := |fields|;
    var inners := fields + tys[1..];
    var row := Wrap(c, n, inner);
    forall i | 0 <= i < n ensures Formed(types, fields[i], inner[..n][i]) {
      assert inners[i] == fields[i];
    }
    forall i | 0 <= i < |row| ensures Formed(types, tys[i], row[i]) {
      if i > 0 {
        assert row[i] == inner[n + i - 1] && inners[n + i - 1] == tys[i];
      }
    }
  }

  lemma {:induction false} WildFormed(types: PatternTypes, tys: seq<Ty>, inner: Row)
    requires tys != [] && FormedRow(types, tys[1..], inner)
    ensures FormedRow(types, tys, [Wild] + inner)
  {
    var row := [Wild] + inner;
    forall i | 0 <= i < |row| ensures Formed(types, tys[i], row[i]) {
      if i > 0 {
        assert row[i] == inner[i - 1] && tys[1..][i - 1] == tys[i];
      }
    }
  }

  /** Every reported row is a witness of its columns' types. */
  lemma {:induction false} MissingFormed(matrix: Matrix, tys: seq<Ty>, types: PatternTypes, row: Row)
    requires row in Missing(matrix, tys, types)
    ensures FormedRow(types, tys, row)
    decreases MatrixCost(matrix), |tys|
  {
    hide FormedRow, MatrixCost, Specialize, DefaultMatrix, HeadConstructors, Missing;
    if tys == [] {
      EmptyFormed(matrix, types, row);
    } else {
      var c, inner := MissingRowShape(matrix, tys, types, row);
      if Splits(matrix, tys[0], types) {
        var fields := types.fieldTypes(tys[0], c);
        SpecializeCost(matrix, c, |fields|);
        MissingFormed(Specialize(matrix, c, |fields|), fields + tys[1..], types, inner);
        WrapFormed(types, tys, c, inner);
      } else {
        DefaultCost(matrix);
        MissingFormed(DefaultMatrix(matrix), tys[1..], types, inner);
        WildFormed(types, tys, inner);
      }
    }
  }

  lemma {:induction false} EmptyFormed(matrix: Matrix, types: PatternTypes, row: Row)
    requires row in Missing(matrix, [], types)
    ensures FormedRow(types, [], row)
  {
  }

  // ---- the order of the rows ------------------------------------------------------------------

  ghost predicate DistinctLists(types: PatternTypes) {
    forall ty | types.constructors(ty).Some? ::
      var all := types.constructors(ty).value; forall i, j | 0 <= i < j < |all| :: all[i] != all[j]
  }

  predicate ListedBefore(all: seq<Ctor>, c: Ctor, d: Ctor) {
    exists i, j | 0 <= i < j < |all| :: all[i] == c && all[j] == d
  }

  /** At the first place where the two rows differ, `a` has the constructor listed earlier. */
  predicate Earlier(types: PatternTypes, tys: seq<Ty>, a: Row, b: Row)
    decreases SizeRow(a), |a|
  {
    && |a| == |b| == |tys| > 0
    && if a[0].Wild? || b[0].Wild? then
         SizeUnfold(a);
         a[0].Wild? && b[0].Wild? && Earlier(types, tys[1..], a[1..], b[1..])
       else if a[0].Or? || b[0].Or? then false
       else if a[0].ctor != b[0].ctor then
         types.constructors(tys[0]).Some? && ListedBefore(types.constructors(tys[0]).value, a[0].ctor, b[0].ctor)
       else
         var fields := types.fieldTypes(tys[0], a[0].ctor);
         SizeUnfold(a); SizeAppend(a[0].args, a[1..]);
         |a[0].args| == |b[0].args| == |fields|
         && Earlier(types, fields + tys[1..], a[0].args + a[1..], b[0].args + b[1..])
  }

  predicate InOrder(types: PatternTypes, tys: seq<Ty>, rows: Matrix) {
    forall i, j | 0 <= i < j < |rows| :: Earlier(types, tys, rows[i], rows[j])
  }

  /** Rows of the width, headed by one of the constructors. */
  predicate HeadedIn(rows: Matrix, width: nat, ctors: seq<Ctor>) {
    forall i | 0 <= i < |rows| :: |rows[i]| == width > 0 && rows[i][0].Con? && rows[i][0].ctor in ctors
  }

  lemma {:induction false} WildEarlier(types: PatternTypes, tys: seq<Ty>, a: Row, b: Row)
    requires tys != [] && Earlier(types, tys[1..], a, b)
    ensures Earlier(types, tys, [Wild] + a, [Wild] + b)
  {
    assert ([Wild] + a)[1..] == a && ([Wild] + b)[1..] == b;
  }

  lemma {:induction false} WrapEarlier(types: PatternTypes, tys: seq<Ty>, c: Ctor, a: Row, b: Row)
    requires tys != [] && Earlier(types, types.fieldTypes(tys[0], c) + tys[1..], a, b)
    ensures var n := |types.fieldTypes(tys[0], c)|;
            n <= |a| && n <= |b| && Earlier(types, tys, Wrap(c, n, a), Wrap(c, n, b))
  {
    var n := |types.fieldTypes(tys[0], c)|;
    var x, y := Wrap(c, n, a), Wrap(c, n, b);
    assert x[1..] == a[n..] && y[1..] == b[n..];
    assert a[..n] + a[n..] == a && b[..n] + b[n..] == b;
  }

  lemma {:induction false} MissingInOrder(matrix: Matrix, tys: seq<Ty>, types: PatternTypes)
    requires DistinctLists(types)
    ensures InOrder(types, tys, Missing(matrix, tys, types))
    decreases MatrixCost(matrix), |tys|, 2, 0
  {
    hide Earlier, MatrixCost, Specialize, DefaultMatrix, HeadConstructors;
    if tys != [] {
      if Splits(matrix, tys[0], types) {
        SplitInOrder(matrix, types.constructors(tys[0]).value, 0, tys, types);
        var all := types.constructors(tys[0]).value;
        assert all[0..] == all;
      } else {
        DefaultCost(matrix);
        var rows := Missing(DefaultMatrix(matrix), tys[1..], types);
        MissingInOrder(DefaultMatrix(matrix), tys[1..], types);
        forall i, j | 0 <= i < j < |rows| ensures Earlier(types, tys, WildAll(rows)[i], WildAll(rows)[j]) {
          WildEarlier(types, tys, rows[i], rows[j]);
        }
      }
    }
  }

  /** The rows of one constructor are in order, and headed by it. */
  lemma {:induction false} ForInOrder(matrix: Matrix, c: Ctor, tys: seq<Ty>, types: PatternTypes)
    requires DistinctLists(types) && tys != [] && HeadConstructors(matrix) != {}
    ensures InOrder(types, tys, MissingFor(matrix, c, tys, types))
    ensures HeadedIn(MissingFor(matrix, c, tys, types), |tys|, [c])
    decreases MatrixCost(matrix), |tys|, 0, 0
  {
    hide Earlier, MatrixCost, Specialize, DefaultMatrix, HeadConstructors, Missing, InOrder;
    var fields := types.fieldTypes(tys[0], c);
    SpecializeCost(matrix, c, |fields|);
    MissingInOrder(Specialize(matrix, c, |fields|), fields + tys[1..], types);
    WrapAllInOrder(types, tys, c, Missing(Specialize(matrix, c, |fields|), fields + tys[1..], types));
  }

  lemma {:induction false} WrapAllInOrder(types: PatternTypes, tys: seq<Ty>, c: Ctor, rows: Matrix)
    requires tys != []
    requires var fields := types.fieldTypes(tys[0], c);
             Wide(rows, |fields + tys[1..]|) && InOrder(types, fields + tys[1..], rows)
    ensures var n := |types.fieldTypes(tys[0], c)|;
            && (forall row <- rows :: n <= |row|) && InOrder(types, tys, WrapAll(c, n, rows))
            && HeadedIn(WrapAll(c, n, rows), |tys|, [c])
  {
    hide Earlier;
    var n := |types.fieldTypes(tys[0], c)|;
    forall i, j | 0 <= i < j < |rows| ensures Earlier(types, tys, WrapAll(c, n, rows)[i], WrapAll(c, n, rows)[j]) {
      WrapEarlier(types, tys, c, rows[i], rows[j]);
    }
  }

  lemma {:induction false} SplitInOrder(matrix: Matrix, all: seq<Ctor>, k: nat, tys: seq<Ty>, types: PatternTypes)
    requires DistinctLists(types) && tys != [] && HeadConstructors(matrix) != {}
    requires k <= |all| && types.constructors(tys[0]) == Some(all)
    ensures InOrder(types, tys, MissingByCtor(matrix, all[k..], tys, types))
    ensures HeadedIn(MissingByCtor(matrix, all[k..], tys, types), |tys|, all[k..])
    decreases MatrixCost(matrix), |tys|, 1, |all| - k
  {
    hide Earlier, MatrixCost, HeadConstructors, InOrder, MissingFor, HeadedIn, DistinctLists;
    if k == |all| {
      NoRowsInOrder(types, tys, all);
    } else {
      ByCtorStep(matrix, all, k, tys, types);
      ForInOrder(matrix, all[k], tys, types);
      SplitInOrder(matrix, all, k + 1, tys, types);
      JoinInOrder(types, tys, all, k, MissingFor(matrix, all[k], tys, types),
                  MissingByCtor(matrix, all[k + 1..], tys, types));
    }
  }

  lemma {:induction false} NoRowsInOrder(types: PatternTypes, tys: seq<Ty>, all: seq<Ctor>)
    ensures InOrder(types, tys, []) && HeadedIn([], |tys|, all[|all|..])
  {
  }

  /** The rows of one constructor in front of those of the constructors listed after it. */
  lemma {:induction false} JoinInOrder(types: PatternTypes, tys: seq<Ty>, all: seq<Ctor>, k: nat, now: Matrix,
                                       later: Matrix)
    requires DistinctLists(types) && k < |all| && tys != [] && types.constructors(tys[0]) == Some(all)
    requires InOrder(types, tys, now) && HeadedIn(now, |tys|, [all[k]])
    requires InOrder(types, tys, later) && HeadedIn(later, |tys|, all[k + 1..])
    ensures InOrder(types, tys, now + later) && HeadedIn(now + later, |tys|, all[k..])
  {
    hide Earlier;
    var rows := now + later;
    forall i, j | 0 <= i < j < |rows| ensures Earlier(types, tys, rows[i], rows[j]) {
      if i < |now| <= j {
        HeadsEarlier(types, tys, all, k, rows[i], rows[j]);
      }
    }
    forall i | 0 <= i < |rows| ensures rows[i][0].Con? && rows[i][0].ctor in all[k..] {
      if i < |now| {
        assert all[k] == all[k..][0];
      } else {
        assert all[k + 1..] == all[k..][1..];
      }
    }
  }

  lemma {:induction false} HeadsEarlier(types: PatternTypes, tys: seq<Ty>, all: seq<Ctor>, k: nat, a: Row, b: Row)
    requires DistinctLists(types) && k < |all| && tys != [] && types.constructors(tys[0]) == Some(all)
    requires |a| == |b| == |tys| && a[0].Con? && b[0].Con? && a[0].ctor == all[k] && b[0].ctor in all[k + 1..]
    ensures Earlier(types, tys, a, b)
  {
    var j :| 0 <= j < |all[k + 1..]| && all[k + 1..][j] == b[0].ctor;
    assert all[k + 1 + j] == b[0].ctor;
  }

  // ---- no value is reported twice --------------------------------------------------------------

  /** No value of the types matches two rows of which one is earlier. */
  lemma {:induction false} EarlierDisjoint(types: PatternTypes, tys: seq<Ty>, a: Row, b: Row, vs: seq<Value>)
    requires Earlier(types, tys, a, b) && DistinctLists(types)
    requires HasTypes(types, tys, vs) && MatchesRow(a, vs)
    ensures !MatchesRow(b, vs)
    decreases SizeRow(a), |a|
  {
    if MatchesRow(b, vs) {
      HeadTyped(types, tys, vs);
      ConsRow(a, vs);
      ConsRow(b, vs);
      var v, ws := vs[0], vs[1..];
      SizeUnfold(a);
      if a[0].Wild? {
        EarlierDisjoint(types, tys[1..], a[1..], b[1..], ws);
      } else if a[0].ctor == b[0].ctor {
        SizeAppend(a[0].args, a[1..]);
        TypesSplice(types, tys, v, ws);
        SplicedMatches(a, v, ws);
        SplicedMatches(b, v, ws);
        EarlierDisjoint(types, types.fieldTypes(tys[0], v.ctor) + tys[1..], a[0].args + a[1..], b[0].args + b[1..],
                        v.fields + ws);
      }
    }
  }

  lemma {:induction false} SplicedMatches(row: Row, v: Value, ws: seq<Value>)
    requires row != [] && row[0].Con? && MatchesRow(row, [v] + ws) && |row[0].args| == |v.fields|
    ensures MatchesRow(row[0].args + row[1..], v.fields + ws)
  {
    ConsRow(row, [v] + ws);
    assert ([v] + ws)[1..] == ws;
    assert MatchesRow(row[0].args, v.fields);
    RowAppend(row[0].args, row[1..], v.fields, ws);
  }

  /** No value of the types matches two reported rows. */
  lemma {:induction false} MissingDisjoint(matrix: Matrix, tys: seq<Ty>, types: PatternTypes, i: nat, j: nat,
                                           vs: seq<Value>)
    requires DistinctLists(types) && HasTypes(types, tys, vs)
    requires i < j < |Missing(matrix, tys, types)|
    ensures !(MatchesRow(Missing(matrix, tys, types)[i], vs) && MatchesRow(Missing(matrix, tys, types)[j], vs))
  {
    hide Earlier, Missing, MatchesRow, HasTypes;
    MissingInOrder(matrix, tys, types);
    var rows := Missing(matrix, tys, types);
    assert Earlier(types, tys, rows[i], rows[j]);
    if MatchesRow(rows[i], vs) {
      EarlierDisjoint(types, tys, rows[i], rows[j], vs);
    }
  }
}
