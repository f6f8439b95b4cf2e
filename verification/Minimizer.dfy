/** Shrinking a failing input to a 1-minimal one. */
module Minimizer {

  /** `s` with the characters from `i` to `j` taken out. */
  function Drained(s: string, i: nat, j: nat): string
    requires i <= j <= |s|
  {
    s[..i] + s[j..]
  }

  function Without(s: string, k: nat): string
    requires k < |s|
  {
    Drained(s, k, k + 1)
  }

  predicate Subsequence(a: string, b: string) {
    a == "" || (b != "" && ((a[0] == b[0] && Subsequence(a[1..], b[1..])) || Subsequence(a, b[1..])))
  }

  /** The input fails, and taking out any one character makes it pass. */
  predicate OneMinimal(fails: string -> bool, s: string) {
    fails(s) && forall k | 0 <= k < |s| :: !fails(Without(s, k))
  }

  lemma {:induction false} SubsequenceOfSelf(a: string)
    ensures Subsequence(a, a)
  {
    if a != "" {
      SubsequenceOfSelf(a[1..]);
    }
  }

  lemma {:induction false} DrainedSubsequence(a: string, b: string, i: nat, j: nat)
    requires i <= j <= |a| && Subsequence(a, b)
    ensures Subsequence(Drained(a, i, j), b)
    decreases |b|
  {
    var d := Drained(a, i, j);
    if i == j {
      assert d == a;
    } else if a[0] == b[0] && Subsequence(a[1..], b[1..]) {
      if i > 0 {
        DrainedSubsequence(a[1..], b[1..], i - 1, j - 1);
        assert d[1..] == Drained(a[1..], i - 1, j - 1);
      } else {
        DrainedSubsequence(a[1..], b[1..], 0, j - 1);
        assert d == Drained(a[1..], 0, j - 1);
      }
    } else {
      DrainedSubsequence(a, b[1..], i, j);
    }
  }

  /** No chunk of the given size, taken at a multiple of it below `index`, can be spared. */
  predicate Spared(fails: string -> bool, s: string, granularity: nat, index: nat)
    requires granularity > 0
  {
    forall k | 0 <= k < |s| && k < index && k % granularity == 0 ::
      !fails(Drained(s, k, if k + granularity < |s| then k + granularity else |s|))
  }

  /** One pass over the input at a fixed granularity. */
  method Pass(fails: string -> bool, input: string, granularity: nat) returns (bytes: string, reduced: bool)
    requires fails(input) && granularity > 0
    ensures fails(bytes) && Subsequence(bytes, input)
    ensures reduced ==> |bytes| < |input|
    ensures !reduced ==> bytes == input && Spared(fails, input, granularity, |input|)
  {
    bytes, reduced := input, false;
    SubsequenceOfSelf(input);
    var index := 0;
    while index < |bytes|
      invariant fails(bytes) && Subsequence(bytes, input)
      invariant reduced ==> |bytes| < |input|
      invariant !reduced ==> bytes == input && index % granularity == 0 && Spared(fails, input, granularity, index)
      decreases |bytes| - index
    {
      var end := if index + granularity < |bytes| then index + granularity else |bytes|;
      if end <= index {
        assert false;
        break;
      }
      var candidate := Drained(bytes, index, end);
      if fails(candidate) {
        DrainedSubsequence(bytes, input, index, end);
        bytes := candidate;
        reduced := true;
      } else {
        if !reduced {
          NextChunk(index, granularity);
        }
        index := index + granularity;
      }
    }
  }

  lemma {:induction false} SingleChunks(fails: string -> bool, s: string)
    requires fails(s) && Spared(fails, s, 1, |s|)
    ensures OneMinimal(fails, s)
  {
    forall k | 0 <= k < |s| ensures !fails(Without(s, k)) {
      assert k % 1 == 0;
    }
  }

  lemma {:induction false} NextChunk(index: nat, granularity: nat)
    requires granularity > 0 && index % granularity == 0
    ensures (index + granularity) % granularity == 0
    ensures forall k | index < k < index + granularity :: k % granularity != 0
  {
    var q := index / granularity;
    assert index == q * granularity;
    Multiple(q + 1, 0, granularity);
    forall k | index < k < index + granularity ensures k % granularity != 0 {
      Multiple(q, k - index, granularity);
    }
  }

  lemma {:induction false} Multiple(q: nat, r: nat, m: nat)
    requires r < m
    ensures (q * m + r) % m == r
  {
    var n := q * m + r;
    var d := n / m - q;
    assert n == (n / m) * m + n % m;
    assert d * m == r - n % m;
    MultipleBound(d, m);
  }

  lemma {:induction false} MultipleBound(d: int, m: nat)
    ensures d >= 1 ==> d * m >= m
    ensures d <= -1 ==> d * m + m <= 0
  {
    if d >= 1 {
      assert (d - 1) * m >= 0;
    } else if d <= -1 {
      assert (d + 1) * m <= 0;
    }
  }

  lemma {:induction false} SubsequenceTransitive(a: string, b: string, c: string)
    requires Subsequence(a, b) && Subsequence(b, c)
    ensures Subsequence(a, c)
    decreases |c|
  {
    if a != "" {
      if b[0] == c[0] && Subsequence(b[1..], c[1..]) {
        if a[0] == b[0] && Subsequence(a[1..], b[1..]) {
          SubsequenceTransitive(a[1..], b[1..], c[1..]);
        } else {
          SubsequenceTransitive(a, b[1..], c[1..]);
        }
      } else {
        SubsequenceTransitive(a, b, c[1..]);
      }
    }
  }

  /** An input that does not fail is returned as it is; one that does is shrunk, by taking
      characters out only, to one that still fails and is 1-minimal. */
  method MinimizeInput(fails: string -> bool, input: string) returns (r: string)
    ensures !fails(input) ==> r == input
    ensures fails(input) ==> Subsequence(r, input) && OneMinimal(fails, r)
  {
    SubsequenceOfSelf(input);
    if input == "" || !fails(input) {
      return input;
    }
    var bytes := input;
    var granularity: nat := if |bytes| / 2 > 1 then |bytes| / 2 else 1;
    while granularity > 0
      invariant granularity >= 1
      invariant fails(bytes) && Subsequence(bytes, input)
      decreases |bytes|, granularity
    {
      var shrunk, reduced := Pass(fails, bytes, granularity);
      SubsequenceTransitive(shrunk, bytes, input);
      bytes := shrunk;
      if !reduced {
        if granularity == 1 {
          assert OneMinimal(fails, bytes) by {
            SingleChunks(fails, bytes);
          }
          return bytes;
        }
        granularity := granularity / 2;
      }
    }
    assert false;
    r := bytes;
  }
}
