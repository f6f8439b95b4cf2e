/** Pattern-match usefulness and exhaustiveness: Maranget's matrix algorithm over
    wildcards, constructors and or-patterns, parameterised by a type oracle; and the measure
    that its recursion decreases. */
module MatchUsefulness {
  import opened Wrappers

  type Ty = string

  datatype Ctor =
    | Variant(name: string)
    | BoolCtor(value: bool)
    | UnitCtor
    | TupleCtor(arity: nat)
    | StructCtor(name: string)
    | Literal(text: string)

  datatype Pat =
    | Wild
    | Con(ctor: Ctor, args: seq<Pat>)
    | Or(alternatives: seq<Pat>)

  type Row = seq<Pat>
  type Matrix = seq<Row>

  /** The oracle. `openHeads` is read by the meaning of types only: it says which
      constructors head the values of a type whose constructors are not listed. */
  datatype PatternTypes = PatternTypes(
    constructors: Ty -> Option<seq<Ctor>>,
    fieldTypes: (Ty, Ctor) -> seq<Ty>,
    openHeads: (Ty, Ctor) -> bool)

  // ---- the matrix operations ---------------------------------------------

  function Wilds(n: nat): (r: Row)
    ensures |r| == n
  {
    seq(n, _ => Wild)
  }

  function Pad(args: Row, arity: nat): (r: Row)
    ensures |r| == arity
  {
    if arity <= |args| then args[..arity] else args + Wilds(arity - |args|)
  }

  function SpecializeHead(head: Pat, rest: Row, ctor: Ctor, arity: nat): Matrix
    decreases head, 1
  {
    match head
    case Wild => [Wilds(arity) + rest]
    case Con(c, args) => if c == ctor then [Pad(args, arity) + rest] else []
    case Or(alternatives) => SpecializeAlternatives(alternatives, rest, ctor, arity)
  }

  function SpecializeAlternatives(alternatives: seq<Pat>, rest: Row, ctor: Ctor, arity: nat): Matrix
    decreases alternatives, 0
  {
    if alternatives == [] then []
    else SpecializeHead(alternatives[0], rest, ctor, arity)
         + SpecializeAlternatives(alternatives[1..], rest, ctor, arity)
  }

  function SpecializeRow(row: Row, ctor: Ctor, arity: nat): Matrix {
    if row == [] then [] else SpecializeHead(row[0], row[1..], ctor, arity)
  }

  function Specialize(matrix: Matrix, ctor: Ctor, arity: nat): Matrix {
    if matrix == [] then []
    else SpecializeRow(matrix[0], ctor, arity) + Specialize(matrix[1..], ctor, arity)
  }

  function DefaultHead(head: Pat, rest: Row): Matrix
    decreases head, 1
  {
    match head
    case Wild => [rest]
    case Con(_, _) => []
    case Or(alternatives) => DefaultAlternatives(alternatives, rest)
  }

  function DefaultAlternatives(alternatives: seq<Pat>, rest: Row): Matrix
    decreases alternatives, 0
  {
    if alternatives == [] then []
    else DefaultHead(alternatives[0], rest) + DefaultAlternatives(alternatives[1..], rest)
  }

  function DefaultRow(row: Row): Matrix {
    if row == [] then [] else DefaultHead(row[0], row[1..])
  }

  function DefaultMatrix(matrix: Matrix): Matrix {
    if matrix == [] then [] else DefaultRow(matrix[0]) + DefaultMatrix(matrix[1..])
  }

  function PatHeads(pat: Pat): set<Ctor>
    decreases pat, 1
  {
    match pat
    case Wild => {}
    case Con(ctor, _) => {ctor}
    case Or(alternatives) => AlternativeHeads(alternatives)
  }

  function AlternativeHeads(alternatives: seq<Pat>): set<Ctor>
    decreases alternatives, 0
  {
    if alternatives == [] then {}
    else PatHeads(alternatives[0]) + AlternativeHeads(alternatives[1..])
  }

  function HeadConstructors(matrix: Matrix): set<Ctor> {
    if matrix == [] then {}
    else (if matrix[0] == [] then {} else PatHeads(matrix[0][0])) + HeadConstructors(matrix[1..])
  }

  function CompleteSignature(ty: Ty, seen: set<Ctor>, types: PatternTypes): Option<seq<Ctor>> {
    match types.constructors(ty)
    case None => None
    case Some(all) => if forall c <- all :: c in seen then Some(all) else None
  }

  // ---- the termination measure -------------------------------------------

  /** Constructor and or-nodes of a row: what one call of `IsUseful` consumes of its row. */
  function Size(pat: Pat): nat
    decreases pat, 1
  {
    match pat
    case Wild => 0
    case Con(_, args) => 1 + SizeRow(args)
    case Or(alternatives) => 1 + SizeRow(alternatives)
  }

  function SizeRow(row: Row): nat
    decreases row, 0
  {
    if row == [] then 0 else Size(row[0]) + SizeRow(row[1..])
  }

  lemma {:induction false} SizeUnfold(row: Row)
    requires row != []
    ensures SizeRow(row) == Size(row[0]) + SizeRow(row[1..])
    ensures row[0].Con? ==> SizeRow(row) == 1 + SizeRow(row[0].args) + SizeRow(row[1..])
    ensures row[0].Or? ==> SizeRow(row) == 1 + SizeRow(row[0].alternatives) + SizeRow(row[1..])
  {
    assert Size(row[0]) == match row[0]
      case Wild => 0
      case Con(_, args) => 1 + SizeRow(args)
      case Or(alternatives) => 1 + SizeRow(alternatives);
  }

  lemma {:induction false} SizeAppend(a: Row, b: Row)
    ensures SizeRow(a + b) == SizeRow(a) + SizeRow(b)
  {
    if a == [] {
      assert a + b == b;
    } else {
      assert (a + b)[1..] == a[1..] + b;
      SizeAppend(a[1..], b);
    }
  }

  lemma {:induction false} SizeSlice(a: Row, i: nat, j: nat)
    requires i <= j <= |a|
    ensures SizeRow(a[i..j]) <= SizeRow(a)
  {
    assert a == a[..i] + a[i..j] + a[j..];
    SizeAppend(a[..i] + a[i..j], a[j..]);
    SizeAppend(a[..i], a[i..j]);
  }

  lemma {:induction false} SizeElement(a: Row, i: nat)
    requires i < |a|
    ensures Size(a[i]) <= SizeRow(a)
  {
    assert a[i..i + 1] == [a[i]];
    assert [a[i]][1..] == [];
    SizeSlice(a, i, i + 1);
  }

  lemma {:induction false} SizeWilds(n: nat)
    ensures SizeRow(Wilds(n)) == 0
  {
    if n > 0 {
      assert Wilds(n)[1..] == Wilds(n - 1);
      SizeWilds(n - 1);
    }
  }

  /** Pad followed by the rest of the row is never larger than the arguments were. */
  lemma {:induction false} SizePad(args: Row, arity: nat, rest: Row)
    ensures SizeRow(Pad(args, arity) + rest) <= SizeRow(args) + SizeRow(rest)
  {
    SizeAppend(Pad(args, arity), rest);
    if arity <= |args| {
      SizeSlice(args, 0, arity);
      assert args[0..arity] == args[..arity];
    } else {
      SizeAppend(args, Wilds(arity - |args|));
      SizeWilds(arity - |args|);
    }
  }

  /** Constructor nodes met on all or-expanded readings of a row, left to right. */
  function Cost(row: Row): nat
    decreases SizeRow(row), 0, |row|
  {
    if row == [] then 0
    else
      SizeUnfold(row);
      match row[0]
      case Wild => Cost(row[1..])
      case Con(_, args) => SizeAppend(args, row[1..]); 1 + Cost(args + row[1..])
      case Or(alternatives) =>
        if alternatives == [] then Cost(row[1..]) else CostAlternatives(alternatives, row[1..])
  }

  function CostAlternatives(alternatives: seq<Pat>, rest: Row): nat
    requires alternatives != []
    decreases SizeRow(alternatives) + SizeRow(rest), |alternatives|, 0
  {
    assert ([alternatives[0]] + rest)[1..] == rest;
    Cost([alternatives[0]] + rest)
    + if |alternatives| == 1 then 0 else CostAlternatives(alternatives[1..], rest)
  }

  function MatrixCost(matrix: Matrix): nat {
    if matrix == [] then 0 else Cost(matrix[0]) + MatrixCost(matrix[1..])
  }

  lemma {:induction false} MatrixCostAppend(a: Matrix, b: Matrix)
    ensures MatrixCost(a + b) == MatrixCost(a) + MatrixCost(b)
  {
    if a == [] {
      assert a + b == b;
    } else {
      assert (a + b)[1..] == a[1..] + b;
      MatrixCostAppend(a[1..], b);
    }
  }

  /** Cost is monotone in the tail of a row. */
  lemma {:induction false} CostContext(pre: Row, a: Row, b: Row)
    requires Cost(a) <= Cost(b)
    ensures Cost(pre + a) <= Cost(pre + b)
    decreases SizeRow(pre), 0, |pre|
  {
    if pre == [] {
      assert pre + a == a && pre + b == b;
    } else {
      assert (pre + a)[1..] == pre[1..] + a && (pre + b)[1..] == pre[1..] + b;
      SizeUnfold(pre);
      match pre[0]
      case Wild => CostContext(pre[1..], a, b);
      case Con(_, args) =>
        SizeAppend(args, pre[1..]);
        CostContext(args + pre[1..], a, b);
        assert args + pre[1..] + a == args + (pre[1..] + a);
        assert args + pre[1..] + b == args + (pre[1..] + b);
      case Or(alternatives) =>
        if alternatives == [] {
          CostContext(pre[1..], a, b);
        } else {
          CostContextAlternatives(alternatives, pre[1..], a, b);
        }
    }
  }

  lemma {:induction false} CostContextAlternatives(alternatives: seq<Pat>, pre: Row, a: Row, b: Row)
    requires alternatives != []
    requires Cost(a) <= Cost(b)
    ensures CostAlternatives(alternatives, pre + a) <= CostAlternatives(alternatives, pre + b)
    decreases SizeRow(alternatives) + SizeRow(pre), |alternatives|, 0
  {
    assert ([alternatives[0]] + pre)[1..] == pre;
    CostContext([alternatives[0]] + pre, a, b);
    assert [alternatives[0]] + pre + a == [alternatives[0]] + (pre + a);
    assert [alternatives[0]] + pre + b == [alternatives[0]] + (pre + b);
    if |alternatives| > 1 {
      CostContextAlternatives(alternatives[1..], pre, a, b);
    }
  }

  lemma {:induction false} CostDrop(pre: Row, rest: Row)
    ensures Cost(rest) <= Cost(pre + rest)
    decreases SizeRow(pre), |pre|
  {
    if pre == [] {
      assert pre + rest == rest;
    } else {
      assert (pre + rest)[1..] == pre[1..] + rest;
      SizeUnfold(pre);
      match pre[0]
      case Wild => CostDrop(pre[1..], rest);
      case Con(_, args) =>
        SizeAppend(args, pre[1..]);
        assert args + pre[1..] + rest == args + (pre[1..] + rest);
        CostDrop(args + pre[1..], rest);
      case Or(alternatives) =>
        if alternatives == [] {
          CostDrop(pre[1..], rest);
        } else {
          CostDrop(pre[1..], rest);
          CostDropOne(alternatives[0], pre[1..] + rest);
          assert [alternatives[0]] + (pre[1..] + rest) == [alternatives[0]] + pre[1..] + rest;
        }
    }
  }

  lemma {:induction false} CostDropOne(head: Pat, rest: Row)
    ensures Cost(rest) <= Cost([head] + rest)
    decreases Size(head), 0
  {
    assert ([head] + rest)[1..] == rest;
    match head
    case Wild =>
    case Con(_, args) => CostDrop(args, rest);
    case Or(alternatives) =>
      if alternatives != [] {
        SizeElement(alternatives, 0);
        CostDropOne(alternatives[0], rest);
      }
  }

  lemma {:induction false} CostWilds(n: nat, rest: Row)
    ensures Cost(Wilds(n) + rest) == Cost(rest)
  {
    if n == 0 {
      assert Wilds(n) + rest == rest;
    } else {
      assert (Wilds(n) + rest)[1..] == Wilds(n - 1) + rest;
      CostWilds(n - 1, rest);
    }
  }

  lemma {:induction false} CostPad(args: Row, arity: nat, rest: Row)
    ensures Cost(Pad(args, arity) + rest) <= Cost(args + rest)
  {
    if arity <= |args| {
      CostDrop(args[arity..], rest);
      CostContext(args[..arity], rest, args[arity..] + rest);
      assert args[..arity] + (args[arity..] + rest) == args + rest;
    } else {
      CostWilds(arity - |args|, rest);
      CostContext(args, Wilds(arity - |args|) + rest, rest);
      assert args + (Wilds(arity - |args|) + rest) == Pad(args, arity) + rest;
    }
  }

  lemma {:induction false} SpecializeHeadCost(head: Pat, rest: Row, ctor: Ctor, arity: nat)
    ensures MatrixCost(SpecializeHead(head, rest, ctor, arity)) <= Cost([head] + rest)
    ensures PatHeads(head) != {} ==> MatrixCost(SpecializeHead(head, rest, ctor, arity)) < Cost([head] + rest)
    decreases head, 1
  {
    assert ([head] + rest)[1..] == rest;
    match head
    case Wild => CostWilds(arity, rest);
    case Con(c, args) => CostPad(args, arity, rest);
    case Or(alternatives) =>
      assert PatHeads(head) == AlternativeHeads(alternatives);
      if alternatives == [] {
        assert AlternativeHeads(alternatives) == {};
      } else {
        SpecializeAlternativesCost(alternatives, rest, ctor, arity);
      }
  }

  lemma {:induction false} SpecializeAlternativesCost(alternatives: seq<Pat>, rest: Row, ctor: Ctor, arity: nat)
    requires alternatives != []
    ensures MatrixCost(SpecializeAlternatives(alternatives, rest, ctor, arity)) <= CostAlternatives(alternatives, rest)
    ensures AlternativeHeads(alternatives) != {} ==>
              MatrixCost(SpecializeAlternatives(alternatives, rest, ctor, arity)) < CostAlternatives(alternatives, rest)
    decreases alternatives, 0
  {
    SpecializeHeadCost(alternatives[0], rest, ctor, arity);
    MatrixCostAppend(SpecializeHead(alternatives[0], rest, ctor, arity),
                     SpecializeAlternatives(alternatives[1..], rest, ctor, arity));
    if |alternatives| > 1 {
      SpecializeAlternativesCost(alternatives[1..], rest, ctor, arity);
    } else {
      assert alternatives[1..] == [] && AlternativeHeads(alternatives[1..]) == {};
    }
  }

  /** Specializing never adds cost, and removes some once a constructor heads the column. */
  lemma {:induction false} SpecializeCost(matrix: Matrix, ctor: Ctor, arity: nat)
    ensures MatrixCost(Specialize(matrix, ctor, arity)) <= MatrixCost(matrix)
    ensures HeadConstructors(matrix) != {} ==> MatrixCost(Specialize(matrix, ctor, arity)) < MatrixCost(matrix)
  {
    if matrix != [] {
      MatrixCostAppend(SpecializeRow(matrix[0], ctor, arity), Specialize(matrix[1..], ctor, arity));
      SpecializeCost(matrix[1..], ctor, arity);
      if matrix[0] != [] {
        SpecializeHeadCost(matrix[0][0], matrix[0][1..], ctor, arity);
        assert [matrix[0][0]] + matrix[0][1..] == matrix[0];
      }
    }
  }

  lemma {:induction false} DefaultHeadCost(head: Pat, rest: Row)
    ensures MatrixCost(DefaultHead(head, rest)) <= Cost([head] + rest)
    decreases head, 1
  {
    assert ([head] + rest)[1..] == rest;
    match head
    case Wild =>
    case Con(_, _) =>
    case Or(alternatives) =>
      if alternatives != [] {
        DefaultAlternativesCost(alternatives, rest);
      }
  }

  lemma {:induction false} DefaultAlternativesCost(alternatives: seq<Pat>, rest: Row)
    requires alternatives != []
    ensures MatrixCost(DefaultAlternatives(alternatives, rest)) <= CostAlternatives(alternatives, rest)
    decreases alternatives, 0
  {
    DefaultHeadCost(alternatives[0], rest);
    MatrixCostAppend(DefaultHead(alternatives[0], rest), DefaultAlternatives(alternatives[1..], rest));
    if |alternatives| > 1 {
      DefaultAlternativesCost(alternatives[1..], rest);
    }
  }

  lemma {:induction false} DefaultCost(matrix: Matrix)
    ensures MatrixCost(DefaultMatrix(matrix)) <= MatrixCost(matrix)
  {
    if matrix != [] {
      MatrixCostAppend(DefaultRow(matrix[0]), DefaultMatrix(matrix[1..]));
      DefaultCost(matrix[1..]);
      if matrix[0] != [] {
        DefaultHeadCost(matrix[0][0], matrix[0][1..]);
        assert [matrix[0][0]] + matrix[0][1..] == matrix[0];
      }
    }
  }

  // ---- the two algorithms ------------------------------------------------

  /** Is there something left for `row` once the rows of `matrix` have had their turn? */
  function IsUseful(matrix: Matrix, row: Row, tys: seq<Ty>, types: PatternTypes): bool
    requires |row| == |tys|
    decreases MatrixCost(matrix) + SizeRow(row), |row|
  {
    if row == [] then matrix == []
    else
      SizeUnfold(row);
      var rest := row[1..];
      match row[0]
      case Con(ctor, args) =>
        var fields := types.fieldTypes(tys[0], ctor);
        SpecializeCost(matrix, ctor, |fields|);
        SizePad(args, |fields|, rest);
        IsUseful(Specialize(matrix, ctor, |fields|), Pad(args, |fields|) + rest, fields + tys[1..], types)
      case Or(alternatives) =>
        exists i | 0 <= i < |alternatives| ::
          SizeElement(alternatives, i); SizeAppend([alternatives[i]], rest); SizeUnfold([alternatives[i]]);
          IsUseful(matrix, [alternatives[i]] + rest, tys, types)
      case Wild =>
        match CompleteSignature(tys[0], HeadConstructors(matrix), types)
        case Some(all) =>
          exists i | 0 <= i < |all| ::
            var fields := types.fieldTypes(tys[0], all[i]);
            assert all[i] in HeadConstructors(matrix);
            SpecializeCost(matrix, all[i], |fields|); SizeAppend(Wilds(|fields|), rest); SizeWilds(|fields|);
            IsUseful(Specialize(matrix, all[i], |fields|), Wilds(|fields|) + rest, fields + tys[1..], types)
        case None =>
          DefaultCost(matrix);
          IsUseful(DefaultMatrix(matrix), rest, tys[1..], types)
  }

  /** A constructor put back over the first `arity` columns of a witness. */
  function Wrap(ctor: Ctor, arity: nat, row: Row): (r: Row)
    requires arity <= |row|
    ensures |r| == |row| - arity + 1
  {
    [Con(ctor, row[..arity])] + row[arity..]
  }

  function WrapAll(ctor: Ctor, arity: nat, rows: Matrix): (r: Matrix)
    requires forall row <- rows :: arity <= |row|
    ensures |r| == |rows|
    ensures forall i | 0 <= i < |rows| :: r[i] == Wrap(ctor, arity, rows[i])
  {
    seq(|rows|, i requires 0 <= i < |rows| => Wrap(ctor, arity, rows[i]))
  }

  function WildAll(rows: Matrix): (r: Matrix)
    ensures |r| == |rows|
    ensures forall i | 0 <= i < |rows| :: r[i] == [Wild] + rows[i]
  {
    seq(|rows|, i requires 0 <= i < |rows| => [Wild] + rows[i])
  }

  ghost predicate Wide(matrix: Matrix, width: nat) {
    forall row <- matrix :: |row| == width
  }

  /** Whether `missing_rows` splits this column on the listed constructors. */
  predicate Splits(matrix: Matrix, ty: Ty, types: PatternTypes) {
    types.constructors(ty).Some? && HeadConstructors(matrix) != {}
  }

  /** Every row `missing_rows` would report with no limit. */
  function Missing(matrix: Matrix, tys: seq<Ty>, types: PatternTypes): (out: Matrix)
    ensures Wide(out, |tys|)
    decreases MatrixCost(matrix), |tys| + 1, 0
  {
    if tys == [] then
      if matrix == [] then [[]] else []
    else if Splits(matrix, tys[0], types) then
      MissingByCtor(matrix, types.constructors(tys[0]).value, tys, types)
    else
      DefaultCost(matrix);
      WildAll(Missing(DefaultMatrix(matrix), tys[1..], types))
  }

  function MissingFor(matrix: Matrix, ctor: Ctor, tys: seq<Ty>, types: PatternTypes): (out: Matrix)
    requires tys != [] && HeadConstructors(matrix) != {}
    ensures Wide(out, |tys|)
    decreases MatrixCost(matrix), 0, 0
  {
    var fields := types.fieldTypes(tys[0], ctor);
    SpecializeCost(matrix, ctor, |fields|);
    WrapAll(ctor, |fields|, Missing(Specialize(matrix, ctor, |fields|), fields + tys[1..], types))
  }

  function MissingByCtor(matrix: Matrix, ctors: seq<Ctor>, tys: seq<Ty>, types: PatternTypes): (out: Matrix)
    requires tys != [] && HeadConstructors(matrix) != {}
    ensures Wide(out, |tys|)
    decreases MatrixCost(matrix), |tys|, |ctors|
  {
    if ctors == [] then []
    else MissingFor(matrix, ctors[0], tys, types) + MissingByCtor(matrix, ctors[1..], tys, types)
  }
}
