/** The one-row wildcard program, and what a pattern may expand to. */
module Glob {
  import opened Wrappers

  const STAR: Byte := 42
  const QUESTION: Byte := 63

  /** The pieces a token of a pattern may stand for: `*` for any, `?` for one byte, any
      other byte for itself. */
  predicate StandsFor(token: Byte, piece: seq<Byte>) {
    token == STAR || (|piece| == 1 && (token == QUESTION || token == piece[0]))
  }

  function Join(pieces: seq<seq<Byte>>): seq<Byte> {
    if pieces == [] then [] else Join(pieces[..|pieces| - 1]) + pieces[|pieces| - 1]
  }

  predicate Pieces(pattern: seq<Byte>, pieces: seq<seq<Byte>>) {
    |pieces| == |pattern| && forall k | 0 <= k < |pattern| :: StandsFor(pattern[k], pieces[k])
  }

  /** The value is an expansion of the pattern. */
  ghost predicate Expands(pattern: seq<Byte>, value: seq<Byte>) {
    exists pieces :: Pieces(pattern, pieces) && Join(pieces) == value
  }

  // ---- the last token of an expansion ------------------------------------------------

  lemma {:induction false} ExpandsSnoc(pattern: seq<Byte>, token: Byte, value: seq<Byte>, piece: seq<Byte>)
    requires Expands(pattern, value) && StandsFor(token, piece)
    ensures Expands(pattern + [token], value + piece)
  {
    var pieces :| Pieces(pattern, pieces) && Join(pieces) == value;
    var more := pieces + [piece];
    assert more[..|more| - 1] == pieces;
    assert Pieces(pattern + [token], more);
  }

  lemma {:induction false} ExpandsSplit(pattern: seq<Byte>, token: Byte, value: seq<Byte>) returns (cut: nat)
    requires Expands(pattern + [token], value)
    ensures cut <= |value| && Expands(pattern, value[..cut]) && StandsFor(token, value[cut..])
  {
    var pieces :| Pieces(pattern + [token], pieces) && Join(pieces) == value;
    var front := pieces[..|pattern|];
    assert forall k | 0 <= k < |pattern| :: (pattern + [token])[k] == pattern[k];
    assert Pieces(pattern, front);
    assert (pattern + [token])[|pattern|] == token;
    cut := |Join(front)|;
    assert value[..cut] == Join(front) && value[cut..] == pieces[|pattern|];
  }

  lemma {:induction false} EmptyPattern(value: seq<Byte>)
    ensures Expands([], value) <==> value == []
  {
    assert Pieces([], []) && Join([]) == [];
    if Expands([], value) {
      var pieces :| Pieces([], pieces) && Join(pieces) == value;
      assert pieces == [];
    }
  }

  /** A final `*` takes nothing, or a last byte more. */
  lemma {:induction false} StarStep(pattern: seq<Byte>, value: seq<Byte>)
    ensures Expands(pattern + [STAR], value) <==>
              Expands(pattern, value) || (value != [] && Expands(pattern + [STAR], value[..|value| - 1]))
  {
    if Expands(pattern, value) {
      ExpandsSnoc(pattern, STAR, value, []);
      assert value + [] == value;
    }
    if value != [] && Expands(pattern + [STAR], value[..|value| - 1]) {
      var cut := ExpandsSplit(pattern, STAR, value[..|value| - 1]);
      assert value[..|value| - 1][..cut] == value[..cut];
      ExpandsSnoc(pattern, STAR, value[..cut], value[cut..]);
      assert value[..cut] + value[cut..] == value;
    }
    if Expands(pattern + [STAR], value) {
      var cut := ExpandsSplit(pattern, STAR, value);
      if cut < |value| {
        var shorter := value[..|value| - 1];
        assert shorter[..cut] == value[..cut];
        ExpandsSnoc(pattern, STAR, shorter[..cut], shorter[cut..]);
        assert shorter[..cut] + shorter[cut..] == shorter;
      } else {
        assert value[..cut] == value;
      }
    }
  }

  /** Any other final token takes exactly the last byte. */
  lemma {:induction false} ByteStep(pattern: seq<Byte>, token: Byte, value: seq<Byte>)
    requires token != STAR
    ensures Expands(pattern + [token], value) <==>
              value != [] && Expands(pattern, value[..|value| - 1])
              && (token == QUESTION || token == value[|value| - 1])
  {
    if Expands(pattern + [token], value) {
      var cut := ExpandsSplit(pattern, token, value);
      assert cut == |value| - 1;
    }
    if value != [] && Expands(pattern, value[..|value| - 1]) && (token == QUESTION || token == value[|value| - 1]) {
      var last := [value[|value| - 1]];
      ExpandsSnoc(pattern, token, value[..|value| - 1], last);
      assert value[..|value| - 1] + last == value;
    }
  }

  // ---- the one-row program ---------------------------------------------------------------

  /** Cell `k` says whether the pattern expands to the first `k` bytes. */
  ghost predicate Row(dp: seq<bool>, pattern: seq<Byte>, value: seq<Byte>, from: nat, to: nat) {
    to <= |dp| == |value| + 1 && forall k | from <= k < to :: dp[k] <==> Expands(pattern, value[..k])
  }

  /** In place, left to right: a `*` extends what already matched. */
  method StarRow(dp: array<bool>, ghost pattern: seq<Byte>, value: seq<Byte>)
    requires Row(dp[..], pattern, value, 0, |value| + 1)
    modifies dp
    ensures Row(dp[..], pattern + [STAR], value, 0, |value| + 1)
  {
    StarStep(pattern, value[..0]);
    for idx := 1 to |value| + 1
      invariant Row(dp[..], pattern + [STAR], value, 0, idx) && Row(dp[..], pattern, value, idx, |value| + 1)
    {
      assert dp[idx] == dp[..][idx] && dp[idx - 1] == dp[..][idx - 1];
      StarStep(pattern, value[..idx]);
      assert value[..idx][..idx - 1] == value[..idx - 1];
      dp[idx] := dp[idx] || dp[idx - 1];
    }
  }

  /** In place, right to left: each cell is computed from its unchanged left neighbour. */
  method ByteRow(dp: array<bool>, ghost pattern: seq<Byte>, token: Byte, value: seq<Byte>)
    requires token != STAR && Row(dp[..], pattern, value, 0, |value| + 1)
    modifies dp
    ensures Row(dp[..], pattern + [token], value, 0, |value| + 1)
  {
    for idx := |value| + 1 downto 1
      invariant Row(dp[..], pattern, value, 0, idx) && Row(dp[..], pattern + [token], value, idx, |value| + 1)
    {
      assert dp[idx] == dp[..][idx] && dp[idx - 1] == dp[..][idx - 1];
      ByteStep(pattern, token, value[..idx]);
      assert value[..idx][..idx - 1] == value[..idx - 1];
      dp[idx] := dp[idx - 1] && (token == QUESTION || token == value[idx - 1]);
    }
    ByteStep(pattern, token, value[..0]);
    dp[0] := false;
  }

  method WildcardMatch(pattern: seq<Byte>, value: seq<Byte>) returns (matches: bool)
    ensures matches <==> Expands(pattern, value)
  {
    var dp := new bool[|value| + 1](k => k == 0);
    forall k | 0 <= k <= |value| ensures dp[..][k] <==> Expands([], value[..k]) {
      EmptyPattern(value[..k]);
    }
    assert pattern[..0] == [];
    for i := 0 to |pattern|
      invariant Row(dp[..], pattern[..i], value, 0, |value| + 1)
    {
      assert pattern[..i + 1] == pattern[..i] + [pattern[i]];
      if pattern[i] == STAR {
        StarRow(dp, pattern[..i], value);
      } else {
        ByteRow(dp, pattern[..i], pattern[i], value);
      }
    }
    assert pattern[..|pattern|] == pattern && value[..|value|] == value;
    assert dp[|value|] == dp[..][|value|];
    matches := dp[|value|];
  }
}
