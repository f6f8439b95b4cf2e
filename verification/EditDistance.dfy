/** The two-row edit-distance program and the fewest edits it counts. */
module EditDistance {
  import opened Wrappers

  function Min(a: nat, b: nat): (m: nat)
    ensures m <= a && m <= b && (m == a || m == b)
  {
    if a <= b then a else b
  }

  function Front(s: string): string
    requires s != ""
  {
    s[..|s| - 1]
  }

  function Last(s: string): char
    requires s != ""
  {
    s[|s| - 1]
  }

  function Cost(c: char, d: char): nat { if c == d then 0 else 1 }

  /** The recurrence that the rows tabulate. */
  function Lev(a: string, b: string): nat
    decreases |a| + |b|
  {
    if a == "" then |b|
    else if b == "" then |a|
    else
      Min(Min(Lev(a, Front(b)) + 1, Lev(Front(a), b) + 1), Lev(Front(a), Front(b)) + Cost(Last(a), Last(b)))
  }

  // ---- edits -------------------------------------------------------------------------

  /** `b` is `a` with a stretch of at most one character replaced by at most one. */
  ghost predicate Edit(a: string, b: string) {
    exists u, x, y, v :: EditAt(a, b, u, x, y, v)
  }

  predicate EditAt(a: string, b: string, u: string, x: string, y: string, v: string) {
    |x| <= 1 && |y| <= 1 && a == u + x + v && b == u + y + v
  }

  /** At most `n` insertions, deletions and substitutions lead from `a` to `b`. */
  ghost predicate Edits(a: string, b: string, n: nat)
    decreases n
  {
    if n == 0 then a == b else exists mid :: Edits(a, mid, n - 1) && Edit(mid, b)
  }

  // ---- enough edits -------------------------------------------------------------------

  lemma {:induction false} OneEdit(u: string, x: string, y: string)
    requires |x| <= 1 && |y| <= 1
    ensures Edit(u + x, u + y)
  {
    assert u + x + "" == u + x && u + y + "" == u + y;
    assert EditAt(u + x, u + y, u, x, y, "");
  }

  lemma {:induction false} EditsBefore(a: string, b: string, n: nat, tail: string)
    requires Edits(a, b, n)
    ensures Edits(a + tail, b + tail, n)
    decreases n
  {
    if n > 0 {
      var mid :| Edits(a, mid, n - 1) && Edit(mid, b);
      EditsBefore(a, mid, n - 1, tail);
      var u, x, y, v :| EditAt(mid, b, u, x, y, v);
      assert u + x + v + tail == u + x + (v + tail) && u + y + v + tail == u + y + (v + tail);
      assert EditAt(mid + tail, b + tail, u, x, y, v + tail);
      assert Edit(mid + tail, b + tail);
    }
  }

  /** `Lev` edits suffice. */
  lemma {:induction false} LevSuffices(a: string, b: string)
    ensures Edits(a, b, Lev(a, b))
    decreases |a| + |b|
  {
    hide Lev, Edit;
    LevEmpty(a);
    LevEmpty(b);
    if a == "" && b == "" {
    } else if a == "" {
      LevEmpty(Front(b));
      LevSuffices(a, Front(b));
      OneEdit(Front(b), "", [Last(b)]);
      assert Front(b) + "" == Front(b) && Front(b) + [Last(b)] == b;
    } else if b == "" {
      LevEmpty(Front(a));
      LevSuffices(Front(a), b);
      EditsBefore(Front(a), b, Lev(Front(a), b), [Last(a)]);
      OneEdit("", [Last(a)], "");
      assert Front(a) + [Last(a)] == a && b + [Last(a)] == "" + [Last(a)] && "" + "" == b;
    } else {
      LevFronts(a, b);
      var frontA, frontB := Front(a), Front(b);
      assert a == frontA + [Last(a)] && b == frontB + [Last(b)];
      if Lev(a, b) == Lev(a, frontB) + 1 {
        LevSuffices(a, frontB);
        OneEdit(frontB, "", [Last(b)]);
        assert frontB + "" == frontB;
      } else if Lev(a, b) == Lev(frontA, b) + 1 {
        LevSuffices(frontA, b);
        EditsBefore(frontA, b, Lev(frontA, b), [Last(a)]);
        OneEdit(b, [Last(a)], "");
        assert b + "" == b;
      } else {
        LevSuffices(frontA, frontB);
        EditsBefore(frontA, frontB, Lev(frontA, frontB), [Last(a)]);
        OneEdit(frontB, [Last(a)], [Last(b)]);
      }
    }
  }

  // ---- no fewer edits -------------------------------------------------------------------

  lemma {:induction false} LevEmpty(a: string)
    ensures Lev(a, "") == |a| && Lev("", a) == |a|
  {
  }

  lemma {:induction false} LevFronts(a: string, b: string)
    requires a != "" && b != ""
    ensures Lev(a, b)
              == Min(Min(Lev(a, Front(b)) + 1, Lev(Front(a), b) + 1), Lev(Front(a), Front(b)) + Cost(Last(a), Last(b)))
  {
  }

  lemma {:induction false} LevSnoc(a: string, c: char, b: string, d: char)
    ensures Lev(a + [c], b + [d]) == Min(Min(Lev(a + [c], b) + 1, Lev(a, b + [d]) + 1), Lev(a, b) + Cost(c, d))
    ensures Lev(a + [c], b) <= Lev(a, b) + 1 && Lev(a, b + [d]) <= Lev(a, b) + 1
  {
    hide Lev;
    assert Front(a + [c]) == a && Front(b + [d]) == b;
    LevFronts(a + [c], b + [d]);
    if b == "" {
      LevEmpty(a + [c]);
      LevEmpty(a);
    } else {
      LevFronts(a + [c], b);
    }
    if a == "" {
      LevEmpty(b + [d]);
      LevEmpty(b);
    } else {
      LevFronts(a, b + [d]);
    }
  }

  lemma {:induction false} LevFront(a: string, b: string)
    requires b != ""
    ensures Lev(a, b) <= Lev(a, Front(b)) + 1
  {
    hide Lev;
    LevSnoc(a, 'a', Front(b), Last(b));
    assert Front(b) + [Last(b)] == b;
  }

  lemma {:induction false} LevDrop(a: string, c: char, b: string)
    ensures Lev(a, b) <= Lev(a + [c], b) + 1
    decreases |b|
  {
    hide Lev;
    if b == "" {
      LevEmpty(a);
      LevEmpty(a + [c]);
    } else {
      LevFront(a, b);
      LevDrop(a, c, Front(b));
      LevSnoc(a, c, Front(b), Last(b));
      assert Front(b) + [Last(b)] == b;
    }
  }

  lemma {:induction false} LevSwap(a: string, c: char, d: char, b: string)
    ensures Lev(a + [c], b) <= Lev(a + [d], b) + 1
    decreases |b|
  {
    hide Lev;
    if b == "" {
      LevEmpty(a + [c]);
      LevEmpty(a + [d]);
    } else {
      LevSwap(a, c, d, Front(b));
      LevSnoc(a, c, Front(b), Last(b));
      LevSnoc(a, d, Front(b), Last(b));
      assert Front(b) + [Last(b)] == b;
    }
  }

  /** An edit at the end of the first string moves the distance by at most one. */
  lemma {:induction false} LevEditEnd(u: string, x: string, y: string, b: string)
    requires |x| <= 1 && |y| <= 1
    ensures Lev(u + x, b) <= Lev(u + y, b) + 1
  {
    if x == "" && y == "" {
    } else if x == "" {
      assert u + x == u && y == [y[0]];
      LevDrop(u, y[0], b);
    } else if y == "" {
      assert u + y == u && x == [x[0]];
      LevSnoc(u, x[0], b, 'a');
    } else {
      assert x == [x[0]] && y == [y[0]];
      LevSwap(u, x[0], y[0], b);
    }
  }

  /** So does an edit anywhere. */
  lemma {:induction false} LevEdit(u: string, x: string, y: string, v: string, b: string)
    requires |x| <= 1 && |y| <= 1
    ensures Lev(u + x + v, b) <= Lev(u + y + v, b) + 1
    decreases |v|, |b|
  {
    if v == "" {
      assert u + x + v == u + x && u + y + v == u + y;
      LevEditEnd(u, x, y, b);
    } else {
      var w, c := Front(v), Last(v);
      assert u + x + v == u + x + w + [c] && u + y + v == u + y + w + [c];
      if b != "" {
        assert Front(b) + [Last(b)] == b;
        LevEdit(u, x, y, v, Front(b));
        LevEdit(u, x, y, w, b);
        LevEdit(u, x, y, w, Front(b));
        LevSnoc(u + x + w, c, Front(b), Last(b));
        LevSnoc(u + y + w, c, Front(b), Last(b));
      }
    }
  }

  lemma {:induction false} LevSelf(a: string)
    ensures Lev(a, a) == 0
  {
    if a != "" {
      LevSelf(Front(a));
    }
  }

  lemma {:induction false} EditsCross(a: string, mid: string, b: string, n: nat)
    requires Edits(a, mid, n)
    ensures Lev(a, b) <= n + Lev(mid, b)
    decreases n
  {
    if n > 0 {
      var prior :| Edits(a, prior, n - 1) && Edit(prior, mid);
      EditsCross(a, prior, b, n - 1);
      var u, x, y, v :| EditAt(prior, mid, u, x, y, v);
      LevEdit(u, x, y, v, b);
    }
  }

  /** `Lev` is the fewest insertions, deletions and substitutions. */
  lemma {:induction false} LevIsFewestEdits(a: string, b: string, n: nat)
    ensures Edits(a, b, Lev(a, b))
    ensures Edits(a, b, n) ==> Lev(a, b) <= n
  {
    LevSuffices(a, b);
    if Edits(a, b, n) {
      EditsCross(a, b, b, n);
      LevSelf(b);
    }
  }

  // ---- the two rows ------------------------------------------------------------------------

  predicate RowOf(row: seq<nat>, a: string, b: string, upto: nat) {
    upto <= |row| <= |b| + 1 && forall j | 0 <= j < upto :: row[j] == Lev(a, b[..j])
  }

  lemma {:induction false} Cell(a: string, b: string, i: nat, j: nat)
    requires i < |a| && j < |b|
    ensures Lev(a[..i + 1], b[..j + 1])
              == Min(Min(Lev(a[..i + 1], b[..j]) + 1, Lev(a[..i], b[..j + 1]) + 1),
                     Lev(a[..i], b[..j]) + Cost(a[i], b[j]))
  {
    hide Lev;
    assert a[..i + 1] == a[..i] + [a[i]] && b[..j + 1] == b[..j] + [b[j]];
    LevSnoc(a[..i], a[i], b[..j], b[j]);
  }

  /** One row from the row above it. */
  method FillRow(a: string, b: string, i: nat, prev: array<nat>, curr: array<nat>)
    requires i < |a| && prev != curr && prev.Length == curr.Length == |b| + 1
    requires RowOf(prev[..], a[..i], b, |b| + 1)
    modifies curr
    ensures RowOf(curr[..], a[..i + 1], b, |b| + 1)
  {
    hide Lev;
    curr[0] := i + 1;
    LevEmpty(a[..i + 1]);
    assert b[..0] == "";
    for j := 0 to |b|
      invariant RowOf(curr[..], a[..i + 1], b, j + 1)
      invariant RowOf(prev[..], a[..i], b, |b| + 1)
    {
      Cell(a, b, i, j);
      assert prev[j] == prev[..][j] && prev[j + 1] == prev[..][j + 1] && curr[j] == curr[..][j];
      curr[j + 1] := Min(Min(curr[j] + 1, prev[j + 1] + 1), prev[j] + (if a[i] == b[j] then 0 else 1));
    }
  }

  method LevenshteinDistance(a: string, b: string) returns (n: nat)
    ensures n == Lev(a, b)
  {
    var prev := new nat[|b| + 1](j => j);
    var curr := new nat[|b| + 1](j => 0);
    forall j | 0 <= j <= |b| ensures prev[..][j] == Lev(a[..0], b[..j]) {
    }
    for i := 0 to |a|
      invariant prev != curr && prev.Length == curr.Length == |b| + 1 && fresh(prev) && fresh(curr)
      invariant RowOf(prev[..], a[..i], b, |b| + 1)
    {
      FillRow(a, b, i, prev, curr);
      prev, curr := curr, prev;
    }
    n := prev[|b|];
    assert prev[|b|] == prev[..][|b|];
    assert a[..|a|] == a && b[..|b|] == b;
  }

  /** The copy that answers at once when a string is empty. */
  method Levenshtein(a: string, b: string) returns (n: nat)
    ensures n == Lev(a, b)
  {
    if a == "" {
      return |b|;
    }
    if b == "" {
      return |a|;
    }
    n := LevenshteinDistance(a, b);
  }

  /** No known name is within two edits, or the first of the closest is given. */
  method ClosestKnown(known: seq<string>, name: string) returns (best: Option<string>)
    ensures best.None? <==> forall k | 0 <= k < |known| :: !Edits(name, known[k], 2)
    ensures best.Some? ==> exists k | 0 <= k < |known| ::
              && known[k] == best.value && Lev(name, known[k]) <= 2
              && (forall i | 0 <= i < |known| :: Lev(name, known[k]) <= Lev(name, known[i]))
              && (forall i | 0 <= i < k :: Lev(name, known[k]) < Lev(name, known[i]))
  {
    var found: Option<(string, nat)> := None;
    ghost var at := 0;
    for i := 0 to |known|
      invariant found.None? ==> forall k | 0 <= k < i :: Lev(name, known[k]) > 2
      invariant found.Some? ==> at < i && found.value == (known[at], Lev(name, known[at])) && found.value.1 <= 2
      invariant found.Some? ==> forall k | 0 <= k < i :: found.value.1 <= Lev(name, known[k])
      invariant found.Some? ==> forall k | 0 <= k < at :: found.value.1 < Lev(name, known[k])
    {
      var distance := Levenshtein(name, known[i]);
      if distance > 2 {
        continue;
      }
      if found.Some? && found.value.1 <= distance {
        continue;
      }
      found := Some((known[i], distance));
      at := i;
    }
    forall k | 0 <= k < |known| ensures Edits(name, known[k], 2) <==> Lev(name, known[k]) <= 2 {
      WithinTwo(name, known[k]);
    }
    best := if found.Some? then Some(found.value.0) else None;
  }

  /** Edits may repeat a string, so a bound may be taken larger. */
  lemma {:induction false} EditsMore(a: string, b: string, n: nat, m: nat)
    requires Edits(a, b, n) && n <= m
    ensures Edits(a, b, m)
    decreases m
  {
    if n < m {
      EditsMore(a, b, n, m - 1);
      OneEdit(b, "", "");
      assert b + "" == b;
    }
  }

  lemma {:induction false} WithinTwo(a: string, b: string)
    ensures Edits(a, b, 2) <==> Lev(a, b) <= 2
  {
    LevIsFewestEdits(a, b, 2);
    if Lev(a, b) <= 2 {
      EditsMore(a, b, Lev(a, b), 2);
    }
  }
}
