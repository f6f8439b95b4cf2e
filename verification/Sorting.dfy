/** Insertion into place as the specification of a stable sort: what it keeps, that sorted
    lists with the same members are equal, and that a sorted list is ordered between any two
    positions. */
module Sorting {

  predicate Ordered<T>(leq: (T, T) -> bool, s: seq<T>) {
    forall i, j | 0 <= i < j < |s| :: leq(s[i], s[j])
  }

  /** Any two elements compare, and comparisons chain. */
  ghost predicate Preorder<T(!new)>(leq: (T, T) -> bool) {
    && (forall a, b :: leq(a, b) || leq(b, a))
    && (forall a, b, c :: leq(a, b) && leq(b, c) ==> leq(a, c))
  }

  ghost predicate Antisymmetric<T(!new)>(leq: (T, T) -> bool) {
    forall a, b :: leq(a, b) && leq(b, a) ==> a == b
  }

  function Insert<T>(leq: (T, T) -> bool, x: T, s: seq<T>): (r: seq<T>)
    ensures multiset(r) == multiset(s) + multiset{x}
  {
    if s == [] then [x]
    else if leq(x, s[0]) then [x] + s
    else
      assert s == [s[0]] + s[1..];
      [s[0]] + Insert(leq, x, s[1..])
  }

  function Sort<T>(leq: (T, T) -> bool, s: seq<T>): (r: seq<T>)
    ensures multiset(r) == multiset(s)
  {
    if s == [] then []
    else
      assert s == [s[0]] + s[1..];
      Insert(leq, s[0], Sort(leq, s[1..]))
  }

  lemma {:induction false} InsertOrdered<T(!new)>(leq: (T, T) -> bool, x: T, s: seq<T>)
    requires Preorder(leq) && Ordered(leq, s)
    ensures Ordered(leq, Insert(leq, x, s))
  {
    if s != [] && !leq(x, s[0]) {
      InsertOrdered(leq, x, s[1..]);
      var rest := Insert(leq, x, s[1..]);
      forall j | 0 <= j < |rest| ensures leq(s[0], rest[j]) {
        assert rest[j] in multiset(rest);
        assert rest[j] == x || rest[j] in s[1..];
      }
    }
  }

  lemma {:induction false} SortOrdered<T(!new)>(leq: (T, T) -> bool, s: seq<T>)
    requires Preorder(leq)
    ensures Ordered(leq, Sort(leq, s))
  {
    if s != [] {
      SortOrdered(leq, s[1..]);
      InsertOrdered(leq, s[0], Sort(leq, s[1..]));
    }
  }

  lemma {:induction false} SameElements<T>(a: seq<T>, b: seq<T>)
    requires multiset(a) == multiset(b)
    ensures |a| == |b| && forall x :: x in a <==> x in b
  {
    assert |multiset(a)| == |a| && |multiset(b)| == |b|;
    forall x ensures x in a <==> x in b {
      assert x in a <==> x in multiset(a);
      assert x in b <==> x in multiset(b);
    }
  }

  lemma {:induction false} LeastFirst<T(!new)>(leq: (T, T) -> bool, a: seq<T>, b: seq<T>)
    requires Preorder(leq) && Ordered(leq, a) && a != [] && b != [] && multiset(a) == multiset(b)
    ensures leq(a[0], b[0])
  {
    SameElements(a, b);
    assert b[0] in a;
    var k :| 0 <= k < |a| && a[k] == b[0];
    assert leq(a[0], a[0]);
  }

  lemma {:induction false} TailMultiset<T>(a: seq<T>)
    requires a != []
    ensures multiset(a[1..]) == multiset(a) - multiset{a[0]} && a == [a[0]] + a[1..]
  {
    assert a == [a[0]] + a[1..];
  }

  /** There is one ordered arrangement of a multiset. */
  lemma {:induction false} OrderedUnique<T(!new)>(leq: (T, T) -> bool, a: seq<T>, b: seq<T>)
    requires Preorder(leq) && Antisymmetric(leq)
    requires Ordered(leq, a) && Ordered(leq, b) && multiset(a) == multiset(b)
    ensures a == b
    decreases |a|
  {
    SameElements(a, b);
    if a != [] {
      LeastFirst(leq, a, b);
      LeastFirst(leq, b, a);
      assert a[0] == b[0];
      OrderedTail(leq, a);
      OrderedTail(leq, b);
      hide Preorder, Antisymmetric, Ordered;
      TailMultiset(a);
      TailMultiset(b);
      OrderedUnique(leq, a[1..], b[1..]);
    }
  }

  lemma {:induction false} OrderedTail<T>(leq: (T, T) -> bool, a: seq<T>)
    requires Ordered(leq, a) && a != []
    ensures Ordered(leq, a[1..])
  {
  }

  // ---- relations between all pairs ---------------------------------------------------

  ghost predicate Symmetric<T(!new)>(rel: (T, T) -> bool) {
    forall a, b :: rel(a, b) <==> rel(b, a)
  }

  /** The relation holds between any two elements at different positions. */
  predicate Pairwise<T>(rel: (T, T) -> bool, s: seq<T>) {
    forall i, j | 0 <= i < j < |s| :: rel(s[i], s[j])
  }

  lemma {:induction false} InsertPairwise<T(!new)>(leq: (T, T) -> bool, rel: (T, T) -> bool, x: T, s: seq<T>)
    requires Symmetric(rel) && Pairwise(rel, s) && forall k | 0 <= k < |s| :: rel(x, s[k])
    ensures Pairwise(rel, Insert(leq, x, s))
  {
    if s != [] && !leq(x, s[0]) {
      InsertPairwise(leq, rel, x, s[1..]);
      var rest := Insert(leq, x, s[1..]);
      forall j | 0 <= j < |rest| ensures rel(s[0], rest[j]) {
        assert rest[j] in multiset(rest);
        if rest[j] != x {
          assert rest[j] in s[1..];
        }
      }
    }
  }

  /** Sorting keeps a symmetric relation between all pairs. */
  lemma {:induction false} SortPairwise<T(!new)>(leq: (T, T) -> bool, rel: (T, T) -> bool, s: seq<T>)
    requires Symmetric(rel) && Pairwise(rel, s)
    ensures Pairwise(rel, Sort(leq, s))
  {
    if s != [] {
      var rest := Sort(leq, s[1..]);
      SortPairwise(leq, rel, s[1..]);
      SameElements(rest, s[1..]);
      forall k | 0 <= k < |rest| ensures rel(s[0], rest[k]) {
        assert rest[k] in s[1..];
      }
      InsertPairwise(leq, rel, s[0], rest);
    }
  }
}
