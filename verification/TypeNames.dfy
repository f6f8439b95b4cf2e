/** Types as strings, the splitter that reads them, and interning by string. */
module TypeNames {
  import opened Wrappers

  datatype TypeExpr =
    | UnitType
    | Named(name: string, args: seq<TypeExpr>)
    | DynTrait(traitName: string)
    | Hole

  function TypeRepr(ty: TypeExpr): string
    decreases ty, 1
  {
    match ty
    case UnitType => "()"
    case Named(name, args) => if args == [] then name else name + "[" + JoinReprs(args) + "]"
    case DynTrait(traitName) => "dyn " + traitName
    case Hole => "<?>"
  }

  /** The arguments' strings joined by a comma and a space. */
  function JoinReprs(args: seq<TypeExpr>): string
    decreases args, 0
  {
    if args == [] then ""
    else if |args| == 1 then TypeRepr(args[0])
    else TypeRepr(args[0]) + ", " + JoinReprs(args[1..])
  }

  // ---- taking strings apart ------------------------------------------------------

  function TrimStart(s: string): (r: string)
    ensures |r| <= |s|
  {
    if s != [] && IsWhite(s[0]) then TrimStart(s[1..]) else s
  }

  function TrimEnd(s: string): (r: string)
    ensures |r| <= |s|
  {
    if s != [] && IsWhite(s[|s| - 1]) then TrimEnd(s[..|s| - 1]) else s
  }

  function Trim(s: string): (r: string)
    ensures |r| <= |s|
  {
    TrimEnd(TrimStart(s))
  }

  /** The splitter from position `i` on, inside `depth` brackets, with the current piece
      starting at `start`. */
  function SplitFrom(s: string, i: nat, depth: int, start: nat): (r: seq<string>)
    requires start <= i <= |s|
    ensures forall piece <- r :: |piece| <= |s|
    decreases |s| - i
  {
    if i == |s| then
      var tail := Trim(s[start..]);
      if tail == "" then [] else [tail]
    else if s[i] == '[' then SplitFrom(s, i + 1, depth + 1, start)
    else if s[i] == ']' then SplitFrom(s, i + 1, depth - 1, start)
    else if s[i] == ',' && depth == 0 then [Trim(s[start..i])] + SplitFrom(s, i + 1, depth, i + 1)
    else SplitFrom(s, i + 1, depth, start)
  }

  method SplitTopLevel(input: string) returns (out: seq<string>)
    ensures out == SplitFrom(input, 0, 0, 0)
  {
    out := [];
    var depth := 0;
    var start := 0;
    for idx := 0 to |input|
      invariant start <= idx
      invariant out + SplitFrom(input, idx, depth, start) == SplitFrom(input, 0, 0, 0)
    {
      if input[idx] == '[' {
        depth := depth + 1;
      } else if input[idx] == ']' {
        depth := depth - 1;
      } else if input[idx] == ',' && depth == 0 {
        out := out + [Trim(input[start..idx])];
        start := idx + 1;
      }
    }
    var tail := Trim(input[start..]);
    if tail != "" {
      out := out + [tail];
    }
  }

  /** The position of the first bracket, or the length. */
  function FindOpen(s: string): (i: nat)
    ensures i <= |s|
    ensures (forall j | 0 <= j < i :: s[j] != '[') && (i < |s| ==> s[i] == '[')
  {
    if s == [] || s[0] == '[' then 0 else 1 + FindOpen(s[1..])
  }

  function BaseTypeName(s: string): string {
    s[..FindOpen(s)]
  }

  function ExtractGenericArgs(s: string): (r: Option<seq<string>>)
    ensures r.Some? ==> forall piece <- r.value :: |piece| < |s|
  {
    var start := FindOpen(s);
    if start == |s| || s[|s| - 1] != ']' || start + 1 >= |s| then None
    else Some(SplitFrom(s[start + 1..|s| - 1], 0, 0, 0))
  }

  /** The structure read back from a string. */
  function ReadRepr(s: string): TypeExpr
    decreases |s|, 1
  {
    if s == "()" then UnitType
    else if s == "<?>" then Hole
    else if "dyn " <= s then DynTrait(s[4..])
    else
      match ExtractGenericArgs(s)
      case None => Named(s, [])
      case Some(pieces) => Named(BaseTypeName(s), ReadAll(pieces, |s|))
  }

  function ReadAll(pieces: seq<string>, bound: nat): seq<TypeExpr>
    requires forall piece <- pieces :: |piece| < bound
    decreases bound, 0, |pieces|
  {
    if pieces == [] then [] else [ReadRepr(pieces[0])] + ReadAll(pieces[1..], bound)
  }

  // ---- the splitter inverts the printer --------------------------------------------

  /** The characters a name may hold: what identifiers and `::` paths are made of. */
  predicate NameChar(c: char) {
    'a' <= c <= 'z' || 'A' <= c <= 'Z' || '0' <= c <= '9' || c == '_' || c == ':'
  }

  predicate IsName(s: string) {
    s != "" && forall i | 0 <= i < |s| :: NameChar(s[i])
  }

  predicate WellNamed(ty: TypeExpr)
    decreases ty
  {
    match ty
    case Named(name, args) => IsName(name) && forall a <- args :: WellNamed(a)
    case DynTrait(traitName) => IsName(traitName)
    case _ => true
  }

  /** The bracket depth after `s`, or `None` at a comma outside all brackets. */
  function Walk(s: string, depth: int): Option<int> {
    if s == [] then Some(depth)
    else if s[0] == '[' then Walk(s[1..], depth + 1)
    else if s[0] == ']' then Walk(s[1..], depth - 1)
    else if s[0] == ',' && depth == 0 then None
    else Walk(s[1..], depth)
  }

  lemma {:induction false} WalkAppend(a: string, b: string, depth: int)
    ensures Walk(a + b, depth) == match Walk(a, depth)
                                  case None => None
                                  case Some(d) => Walk(b, d)
  {
    if a == [] {
      assert a + b == b;
    } else {
      assert (a + b)[1..] == a[1..] + b && (a + b)[0] == a[0];
      WalkAppend(a[1..], b, if a[0] == '[' then depth + 1 else if a[0] == ']' then depth - 1 else depth);
    }
  }

  lemma {:induction false} WalkPlain(s: string, depth: int)
    requires forall i | 0 <= i < |s| :: s[i] !in {'[', ']', ','}
    ensures Walk(s, depth) == Some(depth)
  {
    if s != [] {
      WalkPlain(s[1..], depth);
    }
  }

  lemma {:induction false} WalkRepr(ty: TypeExpr, depth: nat)
    requires WellNamed(ty)
    ensures Walk(TypeRepr(ty), depth) == Some(depth)
    decreases ty, 1
  {
    match ty
    case Named(name, args) =>
      WalkPlain(name, depth);
      if args != [] {
        WalkJoin(args, depth + 1);
        WalkPlain("", depth);
        assert Walk("]", depth + 1) == Some(depth) by { assert "]"[1..] == ""; }
        assert Walk("[", depth) == Some(depth + 1) by { assert "["[1..] == ""; }
        WalkAppend(name, "[", depth);
        WalkAppend(name + "[", JoinReprs(args), depth);
        WalkAppend(name + "[" + JoinReprs(args), "]", depth);
      }
    case DynTrait(traitName) => WalkPlain("dyn " + traitName, depth);
    case UnitType => WalkPlain("()", depth);
    case Hole => WalkPlain("<?>", depth);
  }

  lemma {:induction false} WalkJoin(args: seq<TypeExpr>, depth: nat)
    requires depth > 0 && forall a <- args :: WellNamed(a)
    ensures Walk(JoinReprs(args), depth) == Some(depth)
    decreases args, 0
  {
    if args != [] {
      WalkRepr(args[0], depth);
      if |args| > 1 {
        WalkJoin(args[1..], depth);
        assert Walk(", ", depth) == Some(depth) by {
          assert ", "[1..] == " " && " "[1..] == "";
          assert Walk(" ", depth) == Some(depth);
        }
        WalkAppend(TypeRepr(args[0]), ", ", depth);
        WalkAppend(TypeRepr(args[0]) + ", ", JoinReprs(args[1..]), depth);
      }
    }
  }

  /** The splitter passes over a stretch with no comma of its own. */
  lemma {:induction false} SplitSkips(s: string, i: nat, j: nat, depth: int, start: nat)
    requires start <= i <= j <= |s| && Walk(s[i..j], depth).Some?
    ensures SplitFrom(s, i, depth, start) == SplitFrom(s, j, Walk(s[i..j], depth).value, start)
    decreases j - i
  {
    if i < j {
      assert s[i..j][1..] == s[i + 1..j] && s[i..j][0] == s[i];
      SplitSkips(s, i + 1, j, if s[i] == '[' then depth + 1 else if s[i] == ']' then depth - 1 else depth, start);
    }
  }

  /** Strings with no space at either end. */
  predicate Tight(s: string) {
    s != "" && !IsWhite(s[0]) && !IsWhite(s[|s| - 1])
  }

  lemma {:induction false} ReprTight(ty: TypeExpr)
    requires WellNamed(ty)
    ensures Tight(TypeRepr(ty))
  {
    match ty
    case Named(name, args) => assert NameChar(name[0]) && NameChar(name[|name| - 1]);
    case DynTrait(traitName) => assert NameChar(traitName[|traitName| - 1]);
    case _ =>
  }

  lemma {:induction false} TrimLead(lead: string, s: string)
    requires lead in {"", " "} && Tight(s)
    ensures Trim(lead + s) == s
  {
    if lead == " " {
      assert (lead + s)[1..] == s && TrimStart(lead + s) == TrimStart(s);
    } else {
      assert lead + s == s;
    }
  }

  function Reprs(args: seq<TypeExpr>): seq<string> {
    if args == [] then [] else [TypeRepr(args[0])] + Reprs(args[1..])
  }

  /** The last piece of a joined list. */
  lemma {:induction false} SplitLast(s: string, start: nat, lead: string, last: TypeExpr)
    requires start <= |s| && lead in {"", " "} && WellNamed(last) && s[start..] == lead + TypeRepr(last)
    ensures SplitFrom(s, start, 0, start) == [TypeRepr(last)]
  {
    hide SplitFrom, Walk, Trim, TypeRepr, WellNamed;
    LeadingPiece(lead, last);
    assert s[start..|s|] == s[start..];
    SplitSkips(s, start, |s|, 0, start);
    SplitEnds(s, start);
  }

  /** A piece of a joined list that a comma follows. */
  lemma {:induction false} SplitFirst(s: string, start: nat, lead: string, first: TypeExpr, more: string)
    requires start <= |s| && lead in {"", " "} && WellNamed(first)
    requires s[start..] == (lead + TypeRepr(first)) + ("," + more)
    ensures var next := start + |lead + TypeRepr(first)| + 1;
            && next <= |s| && s[next..] == more
            && SplitFrom(s, start, 0, start) == [TypeRepr(first)] + SplitFrom(s, next, 0, next)
  {
    hide SplitFrom, Walk, Trim, TypeRepr, WellNamed;
    var piece := lead + TypeRepr(first);
    LeadingPiece(lead, first);
    CommaAfter(s, start, piece, more);
    SplitSkips(s, start, start + |piece|, 0, start);
    SplitCuts(s, start + |piece|, start);
  }

  /** The splitter takes a joined list apart, wherever it stands in the string. */
  lemma {:induction false} SplitJoin(s: string, start: nat, lead: string, args: seq<TypeExpr>)
    requires start <= |s| && args != [] && lead in {"", " "}
    requires forall a <- args :: WellNamed(a)
    requires s[start..] == lead + JoinReprs(args)
    ensures SplitFrom(s, start, 0, start) == Reprs(args)
    decreases |args|
  {
    hide SplitFrom, Trim, TypeRepr, WellNamed, JoinReprs, Reprs;
    ReprsUnfold(args);
    if |args| == 1 {
      SplitLast(s, start, lead, args[0]);
    } else {
      JoinUnfolds(lead, args);
      SplitFirst(s, start, lead, args[0], " " + JoinReprs(args[1..]));
      SplitJoin(s, start + |lead + TypeRepr(args[0])| + 1, " ", args[1..]);
    }
  }

  lemma {:induction false} ReprsUnfold(args: seq<TypeExpr>)
    requires args != []
    ensures if |args| == 1 then Reprs(args) == [TypeRepr(args[0])] && JoinReprs(args) == TypeRepr(args[0])
            else Reprs(args) == [TypeRepr(args[0])] + Reprs(args[1..])
  {
    hide TypeRepr;
    if |args| == 1 {
      assert Reprs(args[1..]) == [];
    }
  }

  lemma {:induction false} JoinUnfolds(lead: string, args: seq<TypeExpr>)
    requires |args| > 1
    ensures lead + JoinReprs(args) == (lead + TypeRepr(args[0])) + ("," + (" " + JoinReprs(args[1..])))
  {
    assert ", " == "," + " ";
  }

  lemma {:induction false} SplitEnds(s: string, start: nat)
    requires start <= |s| && Trim(s[start..]) != ""
    ensures SplitFrom(s, |s|, 0, start) == [Trim(s[start..])]
  {
  }

  lemma {:induction false} SplitCuts(s: string, j: nat, start: nat)
    requires start <= j < |s| && s[j] == ','
    ensures SplitFrom(s, j, 0, start) == [Trim(s[start..j])] + SplitFrom(s, j + 1, 0, j + 1)
  {
  }

  lemma {:induction false} LeadingPiece(lead: string, ty: TypeExpr)
    requires WellNamed(ty) && lead in {"", " "}
    ensures Walk(lead + TypeRepr(ty), 0) == Some(0) && Trim(lead + TypeRepr(ty)) == TypeRepr(ty) && TypeRepr(ty) != ""
  {
    WalkRepr(ty, 0);
    WalkPlain(lead, 0);
    WalkAppend(lead, TypeRepr(ty), 0);
    ReprTight(ty);
    TrimLead(lead, TypeRepr(ty));
  }

  lemma {:induction false} CommaAfter(s: string, start: nat, first: string, more: string)
    requires start <= |s| && s[start..] == first + ("," + more)
    ensures var j := start + |first|; j < |s| && s[j] == ',' && s[start..j] == first && s[j + 1..] == more
  {
    var j := start + |first|;
    assert s[j] == s[start..][|first|];
    assert s[start..j] == s[start..][..|first|];
    assert s[j + 1..] == s[start..][|first| + 1..];
  }

  lemma {:induction false} FindOpenAt(s: string, i: nat)
    requires i <= |s| && (forall k | 0 <= k < i :: s[k] != '[') && (i < |s| ==> s[i] == '[')
    ensures FindOpen(s) == i
  {
    var k := FindOpen(s);
    assert !(k < i) && !(i < k);
  }

  /** Reading inverts printing on every well-named type. */
  lemma {:induction false} ReadInvertsRepr(ty: TypeExpr)
    requires WellNamed(ty)
    ensures ReadRepr(TypeRepr(ty)) == ty
    decreases ty, 1
  {
    var s := TypeRepr(ty);
    match ty
    case UnitType =>
    case Hole =>
    case DynTrait(traitName) =>
      assert "dyn " <= s && s[4..] == traitName;
      assert s[0] == 'd';
    case Named(name, args) =>
      assert NameChar(name[0]) && s[0] == name[0];
      NamedIsNotDyn(name, s);
      if args == [] {
        FindOpenAt(s, |s|);
      } else {
        ExtractsPieces(name, args);
        ReadAllInverts(args, Reprs(args), |s|);
      }
  }

  lemma {:induction false} ExtractsPieces(name: string, args: seq<TypeExpr>)
    requires WellNamed(Named(name, args)) && args != []
    ensures var s := TypeRepr(Named(name, args));
            ExtractGenericArgs(s) == Some(Reprs(args)) && BaseTypeName(s) == name
  {
    var s, inner := TypeRepr(Named(name, args)), JoinReprs(args);
    FindOpenAt(s, |name|);
    assert s[|name| + 1..|s| - 1] == inner;
    assert inner[0..] == "" + inner;
    SplitJoin(inner, 0, "", args);
    assert s[..|name|] == name;
  }

  lemma {:induction false} NamedIsNotDyn(name: string, s: string)
    requires IsName(name) && name <= s && (|name| < |s| ==> s[|name|] == '[')
    ensures !("dyn " <= s)
  {
    assert |name| > 3 ==> NameChar(name[3]) && s[3] == name[3];
  }

  lemma {:induction false} ReadAllInverts(args: seq<TypeExpr>, pieces: seq<string>, bound: nat)
    requires (forall a <- args :: WellNamed(a)) && (forall piece <- pieces :: |piece| < bound)
    requires pieces == Reprs(args)
    ensures ReadAll(pieces, bound) == args
    decreases args, 0
  {
    if args != [] {
      ReadInvertsRepr(args[0]);
      ReadAllInverts(args[1..], pieces[1..], bound);
    }
  }

  /** Equal strings mean equal types. */
  lemma {:induction false} ReprInjective(a: TypeExpr, b: TypeExpr)
    requires WellNamed(a) && WellNamed(b)
    ensures TypeRepr(a) == TypeRepr(b) <==> a == b
  {
    ReadInvertsRepr(a);
    ReadInvertsRepr(b);
  }

  // ---- layout ---------------------------------------------------------------------

  predicate SpacedAt(s: string, i: nat)
    requires i < |s|
  {
    && (s[i] == ',' ==> i + 1 < |s| && s[i + 1] == ' ')
    && (s[i] == ' ' ==> i > 0 && (s[i - 1] == ',' || (i >= 3 && s[i - 3..i] == "dyn")))
  }

  /** A blank stands behind every comma, and otherwise only behind `dyn`. */
  predicate Spaced(s: string) {
    forall i | 0 <= i < |s| :: SpacedAt(s, i)
  }

  lemma {:induction false} SpacedInFront(a: string, b: string, i: nat)
    requires i < |a| && SpacedAt(a, i)
    ensures SpacedAt(a + b, i)
  {
    var s := a + b;
    assert s[i] == a[i];
    if a[i] == ',' {
      assert s[i + 1] == a[i + 1];
    } else if a[i] == ' ' {
      assert s[i - 1] == a[i - 1];
      assert i >= 3 ==> s[i - 3..i] == a[i - 3..i];
    }
  }

  lemma {:induction false} SpacedBehind(a: string, b: string, i: nat)
    requires i < |b| && SpacedAt(b, i)
    ensures SpacedAt(a + b, |a| + i)
  {
    var s, n := a + b, |a| + i;
    assert s[n] == b[i];
    if b[i] == ',' {
      assert s[n + 1] == b[i + 1];
    } else if b[i] == ' ' {
      assert s[n - 1] == b[i - 1];
      assert i >= 3 ==> s[n - 3..n] == b[i - 3..i];
    }
  }

  lemma {:induction false} SpacedAppend(a: string, b: string)
    requires Spaced(a) && Spaced(b)
    ensures Spaced(a + b)
  {
    hide SpacedAt;
    forall i | 0 <= i < |a + b| ensures SpacedAt(a + b, i) {
      if i < |a| {
        SpacedInFront(a, b, i);
      } else {
        SpacedBehind(a, b, i - |a|);
      }
    }
  }

  lemma {:induction false} NameSpaced(name: string)
    requires IsName(name)
    ensures Spaced(name)
  {
    assert forall i | 0 <= i < |name| :: NameChar(name[i]);
  }

  /** Every string of a type is laid out so. */
  lemma {:induction false} ReprSpaced(ty: TypeExpr)
    requires WellNamed(ty)
    ensures Spaced(TypeRepr(ty))
    decreases ty, 1
  {
    match ty
    case Named(name, args) =>
      NameSpaced(name);
      if args != [] {
        JoinSpaced(args);
        SpacedAppend(name, "[");
        SpacedAppend(name + "[", JoinReprs(args));
        SpacedAppend(name + "[" + JoinReprs(args), "]");
      }
    case DynTrait(traitName) =>
      assert "dyn "[0..3] == "dyn";
      NameSpaced(traitName);
      SpacedAppend("dyn ", traitName);
    case _ =>
  }

  lemma {:induction false} JoinSpaced(args: seq<TypeExpr>)
    requires forall a <- args :: WellNamed(a)
    ensures Spaced(JoinReprs(args))
    decreases args, 0
  {
    if args != [] {
      ReprSpaced(args[0]);
      if |args| > 1 {
        JoinSpaced(args[1..]);
        SpacedAppend(TypeRepr(args[0]), ", ");
        SpacedAppend(TypeRepr(args[0]) + ", ", JoinReprs(args[1..]));
      }
    }
  }

  // ---- interning ------------------------------------------------------------------

  datatype TypeDef = TypeDef(id: nat, repr: string)

  /** Each id names the entry of the type's own string. */
  ghost predicate Numbered(tys: seq<TypeExpr>, ids: seq<nat>, types: seq<TypeDef>) {
    && |ids| == |tys|
    && forall i | 0 <= i < |tys| :: 1 <= ids[i] <= |types| && types[ids[i] - 1] == TypeDef(ids[i], TypeRepr(tys[i]))
  }

  lemma {:induction false} NumberedNext(tys: seq<TypeExpr>, ids: seq<nat>, id: nat, before: seq<TypeDef>,
                                        after: seq<TypeDef>)
    requires |ids| < |tys| && Numbered(tys[..|ids|], ids, before) && before <= after
    requires 1 <= id <= |after| && after[id - 1] == TypeDef(id, TypeRepr(tys[|ids|]))
    ensures Numbered(tys[..|ids| + 1], ids + [id], after)
  {
    hide TypeRepr;
    forall i | 0 <= i < |ids| + 1
      ensures 1 <= (ids + [id])[i] <= |after| &&
                after[(ids + [id])[i] - 1] == TypeDef((ids + [id])[i], TypeRepr(tys[i]))
    {
      if i < |ids| {
        assert tys[..|ids|][i] == tys[i] && (ids + [id])[i] == ids[i];
        assert after[ids[i] - 1] == before[ids[i] - 1];
      }
    }
  }

  lemma {:induction false} SameIdSameType(tys: seq<TypeExpr>, ids: seq<nat>, types: seq<TypeDef>,
                                          typeMap: map<string, nat>)
    requires Numbered(tys, ids, types) && forall ty <- tys :: WellNamed(ty)
    requires forall i | 0 <= i < |types| :: types[i].repr in typeMap && typeMap[types[i].repr] == i + 1
    ensures forall i, j | 0 <= i < |tys| && 0 <= j < |tys| :: ids[i] == ids[j] <==> tys[i] == tys[j]
  {
    forall i, j | 0 <= i < |tys| && 0 <= j < |tys| ensures ids[i] == ids[j] <==> tys[i] == tys[j] {
      ReprInjective(tys[i], tys[j]);
    }
  }

  class Builder {
    var nextType: nat
    var types: seq<TypeDef>
    var typeMap: map<string, nat>

    /** Ids number the list from 1 and the map is the list read by string. */
    ghost predicate Valid()
      reads this
    {
      && nextType == |types| + 1
      && (forall i | 0 <= i < |types| :: types[i].id == i + 1)
      && (forall i | 0 <= i < |types| :: types[i].repr in typeMap && typeMap[types[i].repr] == i + 1)
      && (forall r | r in typeMap :: 1 <= typeMap[r] <= |types| && types[typeMap[r] - 1].repr == r)
    }

    constructor ()
      ensures Valid() && types == []
    {
      nextType, types, typeMap := 1, [], map[];
    }

    method LowerType(ty: TypeExpr) returns (id: nat)
      requires Valid()
      modifies this
      ensures Valid() && old(types) <= types && |types| <= |old(types)| + 1
      ensures 1 <= id <= |types| && types[id - 1] == TypeDef(id, TypeRepr(ty))
      ensures (exists i | 0 <= i < |old(types)| :: old(types)[i].repr == TypeRepr(ty)) ==> types == old(types)
    {
      var repr := TypeRepr(ty);
      if repr in typeMap {
        return typeMap[repr];
      }
      id := nextType;
      nextType := nextType + 1;
      typeMap := typeMap[repr := id];
      types := types + [TypeDef(id, repr)];
    }

    /** One builder run: equal ids for equal types and for no others. */
    method LowerAll(tys: seq<TypeExpr>) returns (ids: seq<nat>)
      requires Valid() && forall ty <- tys :: WellNamed(ty)
      modifies this
      ensures Valid() && |ids| == |tys|
      ensures forall i, j | 0 <= i < |tys| && 0 <= j < |tys| :: ids[i] == ids[j] <==> tys[i] == tys[j]
      ensures Numbered(tys, ids, types)
    {
      ids := [];
      for i := 0 to |tys|
        invariant Valid() && |ids| == i
        invariant Numbered(tys[..i], ids, types)
      {
        hide Valid, Numbered;
        ghost var before := types;
        var id := LowerType(tys[i]);
        NumberedNext(tys, ids, id, before, types);
        ids := ids + [id];
      }
      assert tys[..|tys|] == tys;
      SameIdSameType(tys, ids, types, typeMap);
    }
  }
}
