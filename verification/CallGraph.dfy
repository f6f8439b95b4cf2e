/** Call and caller distances, closure of callers. */
module CallGraph {
  import opened Wrappers

  /** The callees of each function. */
  type Graph = map<string, seq<string>>

  type SetGraph = map<string, set<string>>

  predicate Calls(g: Graph, caller: string, callee: string) {
    caller in g && callee in g[caller]
  }

  predicate Links(s: SetGraph, x: string, y: string) {
    x in s && y in s[x]
  }

  /** A chain of exactly `n` calls leads from `from` to `to`. */
  ghost predicate Walk(g: Graph, from: string, to: string, n: nat)
    decreases n
  {
    if n == 0 then from == to
    else exists mid :: Walk(g, from, mid, n - 1) && Calls(g, mid, to)
  }

  /** `n` is the length of the shortest chain of calls. */
  ghost predicate Shortest(g: Graph, from: string, to: string, n: nat) {
    Walk(g, from, to, n) && forall k: nat | Walk(g, from, to, k) :: n <= k
  }

  /** Some chain of one to `limit` calls leads there. */
  ghost predicate Within(g: Graph, from: string, to: string, limit: nat) {
    exists n: nat :: 1 <= n <= limit && Walk(g, from, to, n)
  }

  function Callees(g: Graph): set<string> {
    set x, i | x in g && 0 <= i < |g[x]| :: g[x][i]
  }

  lemma {:induction false} CalleesExact(g: Graph)
    ensures forall f :: f in Callees(g) <==> exists caller :: Calls(g, caller, f)
  {
    forall f, caller | Calls(g, caller, f) ensures f in Callees(g) {
      var i :| 0 <= i < |g[caller]| && g[caller][i] == f;
    }
    forall f | f in Callees(g) ensures exists caller :: Calls(g, caller, f) {
      var caller, i :| caller in g && 0 <= i < |g[caller]| && g[caller][i] == f;
      assert Calls(g, caller, f);
    }
  }

  // ---- the breadth-first loop ----------------------------------------------------------

  ghost predicate Labelled(g: Graph, target: string, limit: nat, seen: map<string, nat>) {
    && seen.Keys <= Callees(g)
    && forall x | x in seen :: x != target && 1 <= seen[x] <= limit && Walk(g, target, x, seen[x])
  }

  predicate Queued(queue: seq<(string, nat)>, x: string) {
    exists i | 0 <= i < |queue| :: queue[i].0 == x
  }

  predicate InStep(seen: map<string, nat>, queue: seq<(string, nat)>) {
    forall i | 0 <= i < |queue| :: queue[i].0 in seen && seen[queue[i].0] == queue[i].1
  }

  /** The queue runs over at most two consecutive distances, in order. */
  predicate Ordered(queue: seq<(string, nat)>, low: nat) {
    && (forall i | 0 <= i < |queue| :: low <= queue[i].1 <= low + 1)
    && (forall i, j | 0 <= i < j < |queue| :: queue[i].1 <= queue[j].1)
  }

  predicate AtMost(seen: map<string, nat>, bound: nat) {
    forall x | x in seen :: seen[x] <= bound
  }

  /** Every callee of `x` but the target has a label no larger than one more than `d`. */
  ghost predicate Relaxed(g: Graph, target: string, seen: map<string, nat>, x: string, d: nat) {
    forall c | Calls(g, x, c) && c != target :: c in seen && seen[c] <= d + 1
  }

  ghost predicate Progress(g: Graph, target: string, depth: nat, seen: map<string, nat>, queue: seq<(string, nat)>) {
    && Relaxed(g, target, seen, target, 0)
    && forall x | x in seen && seen[x] < depth :: Queued(queue, x) || Relaxed(g, target, seen, x, seen[x])
  }

  predicate Grows(before: map<string, nat>, after: map<string, nat>) {
    before.Keys <= after.Keys && forall x | x in before :: after[x] == before[x]
  }

  /** What holds while the callees of a function at `distance` are being labelled. */
  ghost predicate Ring(g: Graph, target: string, limit: nat, distance: nat, seen: map<string, nat>,
                       queue: seq<(string, nat)>) {
    Labelled(g, target, limit, seen) && InStep(seen, queue) && Ordered(queue, distance) && AtMost(seen, distance + 1)
  }

  /** Everything labelled since `before` waits in the queue behind what was there. */
  ghost predicate Appended(before: map<string, nat>, front: seq<(string, nat)>, after: map<string, nat>,
                           queue: seq<(string, nat)>) {
    && Grows(before, after)
    && (after == before ==> queue == front)
    && (forall x | x in after :: x in before || Queued(queue, x))
    && (forall x | Queued(front, x) :: Queued(queue, x))
  }

  lemma {:induction false} QueuedLater(queue: seq<(string, nat)>, item: (string, nat))
    ensures Queued(queue + [item], item.0)
    ensures forall x | Queued(queue, x) :: Queued(queue + [item], x)
  {
    assert (queue + [item])[|queue|].0 == item.0;
    forall x | Queued(queue, x) ensures Queued(queue + [item], x) {
      var i :| 0 <= i < |queue| && queue[i].0 == x;
      assert (queue + [item])[i].0 == x;
    }
  }

  lemma {:induction false} LabelOne(g: Graph, target: string, limit: nat, name: string, distance: nat, callee: string,
                                    seen: map<string, nat>, queue: seq<(string, nat)>)
    requires Ring(g, target, limit, distance, seen, queue)
    requires name in seen && seen[name] == distance && distance + 1 <= limit
    requires Calls(g, name, callee) && callee != target && callee !in seen
    ensures Ring(g, target, limit, distance, seen[callee := distance + 1], queue + [(callee, distance + 1)])
  {
    assert callee in Callees(g) by {
      CalleesExact(g);
    }
    assert Walk(g, target, callee, distance + 1);
  }

  lemma {:induction false} AppendedOne(before: map<string, nat>, front: seq<(string, nat)>, seen: map<string, nat>,
                                       queue: seq<(string, nat)>, callee: string, d: nat)
    requires Appended(before, front, seen, queue) && callee !in seen
    ensures Appended(before, front, seen[callee := d], queue + [(callee, d)])
  {
    hide Queued;
    QueuedLater(queue, (callee, d));
    assert callee in seen[callee := d] && callee !in before;
  }

  lemma {:induction false} RoundDone(g: Graph, target: string, limit: nat, name: string, distance: nat,
                                     seen: map<string, nat>, queue: seq<(string, nat)>)
    requires Ring(g, target, limit, distance, seen, queue)
    requires name in g ==> forall k | 0 <= k < |g[name]| :: g[name][k] == target || g[name][k] in seen
    ensures Relaxed(g, target, seen, name, distance)
  {
  }

  /** One round: every callee of `name` not yet labelled is labelled and queued. */
  method Expand(g: Graph, target: string, limit: nat, name: string, distance: nat,
                seen0: map<string, nat>, queue0: seq<(string, nat)>)
    returns (seen: map<string, nat>, queue: seq<(string, nat)>)
    requires Ring(g, target, limit, distance, seen0, queue0)
    requires name in seen0 && seen0[name] == distance && distance + 1 <= limit
    ensures Ring(g, target, limit, distance, seen, queue) && Appended(seen0, queue0, seen, queue)
    ensures Relaxed(g, target, seen, name, distance)
  {
    hide Labelled, InStep, Ordered, Queued, Relaxed;
    seen, queue := seen0, queue0;
    if name !in g {
      RoundDone(g, target, limit, name, distance, seen, queue);
      return;
    }
    var next := g[name];
    for j := 0 to |next|
      invariant Ring(g, target, limit, distance, seen, queue) && Appended(seen0, queue0, seen, queue)
      invariant forall k | 0 <= k < j :: next[k] == target || next[k] in seen
    {
      var callee := next[j];
      if callee == target {
        continue;
      }
      var candidate := distance + 1;
      if callee !in seen || seen[callee] > candidate {
        LabelOne(g, target, limit, name, distance, callee, seen, queue);
        AppendedOne(seen0, queue0, seen, queue, callee, candidate);
        seen := seen[callee := candidate];
        queue := queue + [(callee, candidate)];
      }
    }
    RoundDone(g, target, limit, name, distance, seen, queue);
  }

  /** The labels the loop starts from: the direct callees. */
  method DirectCallees(g: Graph, target: string) returns (seen: map<string, nat>, queue: seq<(string, nat)>)
    ensures forall x :: x in seen <==> Calls(g, target, x) && x != target
    ensures forall x | x in seen :: seen[x] == 1 && Queued(queue, x)
    ensures InStep(seen, queue) && Ordered(queue, 1)
  {
    seen, queue := map[], [];
    if target in g {
      var callees := g[target];
      for j := 0 to |callees|
        invariant forall x :: x in seen <==> x in callees[..j] && x != target
        invariant forall x | x in seen :: seen[x] == 1
      {
        if callees[j] != target {
          seen := seen[callees[j] := 1];
        }
      }
      assert callees[..|callees|] == callees;
    }
    var rest := seen.Keys;
    while rest != {}
      invariant rest <= seen.Keys
      invariant InStep(seen, queue)
      invariant forall x | x in seen :: x in rest || Queued(queue, x)
    {
      var name :| name in rest;
      ghost var before := queue;
      queue := queue + [(name, seen[name])];
      rest := rest - {name};
      assert queue[|before|].0 == name;
      forall x | Queued(before, x) ensures Queued(queue, x) {
        var i :| 0 <= i < |before| && before[i].0 == x;
        assert queue[i].0 == x;
      }
    }
  }

  ghost predicate LoopHolds(g: Graph, target: string, depth: nat, seen: map<string, nat>, queue: seq<(string, nat)>) {
    && Labelled(g, target, depth, seen) && InStep(seen, queue)
    && (queue != [] ==> Ordered(queue, queue[0].1) && AtMost(seen, queue[0].1 + 1))
    && Progress(g, target, depth, seen, queue)
  }

  /** One turn of the loop: either something new is labelled or the queue gets shorter. */
  method Turn(g: Graph, target: string, depth: nat, seen0: map<string, nat>, queue0: seq<(string, nat)>)
    returns (seen: map<string, nat>, queue: seq<(string, nat)>)
    requires queue0 != [] && LoopHolds(g, target, depth, seen0, queue0)
    ensures LoopHolds(g, target, depth, seen, queue)
    ensures Callees(g) - seen.Keys < Callees(g) - seen0.Keys || (seen == seen0 && |queue| < |queue0|)
  {
    var (name, distance) := queue0[0];
    seen, queue := seen0, queue0[1..];
    assert forall i | 0 <= i < |queue| :: queue[i] == queue0[i + 1];
    if distance < depth {
      seen, queue := Expand(g, target, depth, name, distance, seen, queue);
      ProgressKept(g, target, depth, queue0, seen0, queue0[1..], seen, queue);
      GrownShrinksRest(g, seen0, seen);
    } else {
      PoppedKept(g, target, depth, queue0, seen);
    }
  }

  /** The functions other than the target within `depth` calls of it, each with the length
      of its shortest call chain. */
  method CollectCallDistances(g: Graph, target: string, depth: nat) returns (seen: map<string, nat>)
    requires depth >= 1
    ensures forall x :: x in seen <==> x != target && Within(g, target, x, depth)
    ensures forall x | x in seen :: Shortest(g, target, x, seen[x])
  {
    var queue: seq<(string, nat)>;
    seen, queue := DirectCallees(g, target);
    DirectLabelled(g, target, depth, seen);
    while queue != []
      invariant LoopHolds(g, target, depth, seen, queue)
      decreases Callees(g) - seen.Keys, |queue|
    {
      hide LoopHolds;
      seen, queue := Turn(g, target, depth, seen, queue);
    }
    LabelsComplete(g, target, depth, seen);
  }

  lemma {:induction false} DirectLabelled(g: Graph, target: string, limit: nat, seen: map<string, nat>)
    requires forall x :: x in seen <==> Calls(g, target, x) && x != target
    requires forall x | x in seen :: seen[x] == 1
    requires limit >= 1
    ensures Labelled(g, target, limit, seen)
  {
    forall x | x in seen ensures x in Callees(g) && Walk(g, target, x, 1) {
      var i :| 0 <= i < |g[target]| && g[target][i] == x;
      assert Walk(g, target, target, 0);
    }
  }

  lemma {:induction false} GrownShrinksRest(g: Graph, before: map<string, nat>, after: map<string, nat>)
    requires Grows(before, after) && after.Keys <= Callees(g)
    ensures after != before ==> Callees(g) - after.Keys < Callees(g) - before.Keys
  {
    if after.Keys == before.Keys {
      assert after == before;
    } else {
      var x :| x in after && x !in before;
      assert x in Callees(g) - before.Keys;
    }
  }

  lemma {:induction false} ProgressKept(g: Graph, target: string, depth: nat, before: seq<(string, nat)>,
                                        seen0: map<string, nat>,
                     queue0: seq<(string, nat)>, seen: map<string, nat>, queue: seq<(string, nat)>)
    requires before != [] && queue0 == before[1..] && InStep(seen0, before)
    requires Progress(g, target, depth, seen0, before)
    requires Appended(seen0, queue0, seen, queue) && Relaxed(g, target, seen, before[0].0, before[0].1)
    ensures Progress(g, target, depth, seen, queue)
  {
    forall x | x in seen && seen[x] < depth ensures Queued(queue, x) || Relaxed(g, target, seen, x, seen[x]) {
      if x in seen0 && x != before[0].0 && Queued(before, x) {
        var i :| 0 <= i < |before| && before[i].0 == x;
        assert queue0[i - 1].0 == x;
      }
    }
  }

  lemma {:induction false} PoppedKept(g: Graph, target: string, depth: nat, before: seq<(string, nat)>,
                                      seen: map<string, nat>)
    requires before != [] && InStep(seen, before) && before[0].1 >= depth
    requires Progress(g, target, depth, seen, before)
    ensures Progress(g, target, depth, seen, before[1..])
  {
    forall x | x in seen && seen[x] < depth ensures Queued(before[1..], x) || Relaxed(g, target, seen, x, seen[x]) {
      if Queued(before, x) {
        var i :| 0 <= i < |before| && before[i].0 == x;
        assert before[1..][i - 1].0 == x;
      }
    }
  }

  lemma {:induction false} LabelBounds(g: Graph, target: string, depth: nat, seen: map<string, nat>, x: string, n: nat)
    requires Progress(g, target, depth, seen, [])
    requires Walk(g, target, x, n) && x != target && n <= depth
    ensures x in seen && seen[x] <= n
    decreases n
  {
    var mid :| Walk(g, target, mid, n - 1) && Calls(g, mid, x);
    if mid == target {
      assert x in seen && seen[x] <= 0 + 1;
    } else {
      LabelBounds(g, target, depth, seen, mid, n - 1);
    }
  }

  /** Once the queue is empty the labels are the distances. */
  lemma {:induction false} LabelsComplete(g: Graph, target: string, depth: nat, seen: map<string, nat>)
    requires Labelled(g, target, depth, seen) && Progress(g, target, depth, seen, [])
    ensures forall x :: x in seen <==> x != target && Within(g, target, x, depth)
    ensures forall x | x in seen :: Shortest(g, target, x, seen[x])
  {
    forall x | x != target && Within(g, target, x, depth) ensures x in seen {
      var n: nat :| 1 <= n <= depth && Walk(g, target, x, n);
      LabelBounds(g, target, depth, seen, x, n);
    }
    forall x, k: nat | x in seen && Walk(g, target, x, k) ensures seen[x] <= k {
      if k <= depth {
        LabelBounds(g, target, depth, seen, x, k);
      }
    }
  }

  // ---- callers: the same on the inverse graph ----------------------------------------------

  function Added(s: SetGraph, x: string, y: string): (r: SetGraph)
    ensures r.Keys == s.Keys + {x}
    ensures forall u, v :: Links(r, u, v) <==> Links(s, u, v) || (u == x && v == y)
  {
    s[x := (if x in s then s[x] else {}) + {y}]
  }

  /** Every callee of `caller` gets it as a caller. */
  method AddCaller(s0: SetGraph, caller: string, callees: seq<string>) returns (s: SetGraph)
    ensures forall u, v :: Links(s, u, v) <==> Links(s0, u, v) || (u in callees && v == caller)
    ensures forall u :: u in s <==> u in s0 || u in callees
  {
    s := s0;
    for j := 0 to |callees|
      invariant forall u, v :: Links(s, u, v) <==> Links(s0, u, v) || (u in callees[..j] && v == caller)
      invariant forall u :: u in s <==> u in s0 || u in callees[..j]
    {
      s := Added(s, callees[j], caller);
      assert callees[..j + 1] == callees[..j] + [callees[j]];
    }
    assert callees[..|callees|] == callees;
  }

  /** The inverse used for caller distances: called functions only. */
  method InvertCalls(g: Graph) returns (inverse: SetGraph)
    ensures forall callee, caller :: Links(inverse, callee, caller) <==> Calls(g, caller, callee)
    ensures forall f :: f in inverse <==> f in Callees(g)
  {
    inverse := map[];
    var rest := g.Keys;
    while rest != {}
      invariant rest <= g.Keys
      invariant forall u, v :: Links(inverse, u, v) <==> Calls(g, v, u) && v !in rest
      invariant forall f :: f in inverse <==> exists v :: Calls(g, v, f) && v !in rest
    {
      var caller :| caller in rest;
      inverse := AddCaller(inverse, caller, g[caller]);
      rest := rest - {caller};
    }
    CalleesExact(g);
  }

  /** The inverse used for impact: every function that calls or is called has an entry. */
  method BuildInverseCallers(g: Graph) returns (inverse: SetGraph)
    ensures forall callee, caller :: Links(inverse, callee, caller) <==> Calls(g, caller, callee)
    ensures forall f :: f in inverse <==> f in g || f in Callees(g)
  {
    inverse := map[];
    var rest := g.Keys;
    while rest != {}
      invariant rest <= g.Keys
      invariant forall u, v :: Links(inverse, u, v) <==> Calls(g, v, u) && v !in rest
      invariant forall f :: f in inverse <==> (f in g && f !in rest) || exists v :: Calls(g, v, f) && v !in rest
    {
      var caller :| caller in rest;
      if caller !in inverse {
        inverse := inverse[caller := {}];
      }
      inverse := AddCaller(inverse, caller, g[caller]);
      rest := rest - {caller};
    }
    CalleesExact(g);
  }

  method Listing(s: set<string>) returns (q: seq<string>)
    ensures forall x :: x in q <==> x in s
  {
    q := [];
    var rest := s;
    while rest != {}
      invariant rest <= s
      invariant forall x :: x in q <==> x in s - rest
    {
      var x :| x in rest;
      q := q + [x];
      rest := rest - {x};
    }
  }

  method Listed(s: SetGraph) returns (g: Graph)
    ensures g.Keys == s.Keys && forall x, y :: Calls(g, x, y) <==> Links(s, x, y)
  {
    g := map[];
    var rest := s.Keys;
    while rest != {}
      invariant rest <= s.Keys && g.Keys == s.Keys - rest
      invariant forall x, y :: Calls(g, x, y) <==> x !in rest && Links(s, x, y)
    {
      var x :| x in rest;
      var list := Listing(s[x]);
      g := g[x := list];
      rest := rest - {x};
    }
  }

  /** Prepending a call to a chain. */
  lemma {:induction false} WalkFront(g: Graph, from: string, mid: string, to: string, n: nat)
    requires Calls(g, from, mid) && Walk(g, mid, to, n)
    ensures Walk(g, from, to, n + 1)
    decreases n
  {
    if n == 0 {
      assert Walk(g, from, from, 0);
    } else {
      var last :| Walk(g, mid, last, n - 1) && Calls(g, last, to);
      WalkFront(g, from, mid, last, n - 1);
    }
  }

  /** A chain of callers is a chain of calls read backwards. */
  lemma {:induction false} WalkReversed(g: Graph, back: Graph, x: string, y: string, n: nat)
    requires forall u, v :: Calls(back, v, u) <==> Calls(g, u, v)
    ensures Walk(back, y, x, n) <==> Walk(g, x, y, n)
    decreases n
  {
    if n > 0 {
      if Walk(back, y, x, n) {
        var mid :| Walk(back, y, mid, n - 1) && Calls(back, mid, x);
        WalkReversed(g, back, mid, y, n - 1);
        WalkFront(g, x, mid, y, n - 1);
      }
      if Walk(g, x, y, n) {
        var mid :| Walk(g, x, mid, n - 1) && Calls(g, mid, y);
        WalkReversed(g, back, x, mid, n - 1);
        WalkFront(back, y, mid, x, n - 1);
      }
    }
  }

  /** The functions other than the target that reach it within `depth` calls, each with the
      length of its shortest call chain to it. */
  method CollectCallerDistances(g: Graph, target: string, depth: nat) returns (seen: map<string, nat>)
    requires depth >= 1
    ensures forall x :: x in seen <==> x != target && Within(g, x, target, depth)
    ensures forall x | x in seen :: Shortest(g, x, target, seen[x])
  {
    var inverse := InvertCalls(g);
    var back := Listed(inverse);
    seen := CollectCallDistances(back, target, depth);
    forall u, v ensures Calls(back, v, u) <==> Calls(g, u, v) {
      assert Links(inverse, v, u) <==> Calls(g, u, v);
    }
    forall x, n: nat ensures Walk(back, target, x, n) <==> Walk(g, x, target, n) {
      WalkReversed(g, back, x, target, n);
    }
  }

  // ---- the closure of callers ------------------------------------------------------------

  /** Some chain of at least one call leads from `from` to `to`. */
  ghost predicate Reaches(g: Graph, from: string, to: string) {
    exists n: nat :: n >= 1 && Walk(g, from, to, n)
  }

  /** Every caller of a seen function is seen, unless the function still waits. */
  ghost predicate ClosedBut(inverse: SetGraph, seen: set<string>, queue: seq<string>) {
    forall x, c | x in seen && Links(inverse, x, c) :: x in queue || c in seen
  }

  /** One round: the callers of a node that are new, and the queue they join. */
  method TakeCallers(callers: set<string>, direct: set<string>, seen0: set<string>, transitive0: set<string>,
                     queue0: seq<string>)
    returns (seen: set<string>, transitive: set<string>, queue: seq<string>)
    requires transitive0 !! direct && seen0 == direct + transitive0
    ensures transitive !! direct && seen == direct + transitive && seen == seen0 + callers
    ensures forall x :: x in queue <==> x in queue0 || (x in callers && x !in seen0)
    ensures seen == seen0 ==> queue == queue0
  {
    seen, transitive, queue := seen0, transitive0, queue0;
    var rest := callers;
    while rest != {}
      invariant rest <= callers
      invariant transitive !! direct && seen == direct + transitive && seen == seen0 + (callers - rest)
      invariant forall x :: x in queue <==> x in queue0 || (x in callers - rest && x !in seen0)
      invariant seen == seen0 ==> queue == queue0
    {
      var caller :| caller in rest;
      rest := rest - {caller};
      if caller !in seen {
        seen := seen + {caller};
        queue := queue + [caller];
        if caller !in direct {
          transitive := transitive + {caller};
        }
      }
    }
  }

  method CollectTransitiveCallers(inverse: SetGraph, direct: set<string>, ghost g: Graph, ghost fn: string)
    returns (transitive: set<string>)
    requires forall callee, caller :: Links(inverse, callee, caller) <==> Calls(g, caller, callee)
    requires forall x :: x in direct <==> Calls(g, x, fn)
    ensures transitive !! direct
    ensures forall x :: x in direct + transitive <==> Reaches(g, x, fn)
  {
    var queue := Listing(direct);
    var seen := direct;
    transitive := {};
    forall x | x in direct ensures Reaches(g, x, fn) {
      assert Walk(g, x, x, 0);
      assert Walk(g, x, fn, 1);
    }
    while queue != []
      invariant transitive !! direct && seen == direct + transitive && seen <= g.Keys
      invariant forall x | x in queue :: x in seen
      invariant forall x | x in seen :: Reaches(g, x, fn)
      invariant ClosedBut(inverse, seen, queue)
      decreases g.Keys - seen, |queue|
    {
      var node := queue[0];
      ghost var seen0, queue0 := seen, queue;
      queue := queue[1..];
      assert queue0 == [node] + queue;
      if node !in inverse {
        continue;
      }
      assert node in seen;
      forall c | c in inverse[node] ensures c in g && Reaches(g, c, fn) {
        assert Links(inverse, node, c);
        ExtendReach(g, c, node, fn);
      }
      seen, transitive, queue := TakeCallers(inverse[node], direct, seen, transitive, queue);
      if seen != seen0 {
        var x :| x in seen && x !in seen0;
        assert x in g.Keys - seen0;
      }
    }
    forall x | Reaches(g, x, fn) ensures x in seen {
      var n: nat :| n >= 1 && Walk(g, x, fn, n);
      ReachersSeen(g, inverse, fn, seen, x, fn, n);
    }
  }

  lemma {:induction false} ExtendReach(g: Graph, caller: string, node: string, fn: string)
    requires Calls(g, caller, node) && Reaches(g, node, fn)
    ensures Reaches(g, caller, fn)
  {
    var n: nat :| n >= 1 && Walk(g, node, fn, n);
    WalkFront(g, caller, node, fn, n);
  }

  lemma {:induction false} ReachersSeen(g: Graph, inverse: SetGraph, fn: string, seen: set<string>, x: string,
                                        y: string, n: nat)
    requires forall callee, caller :: Links(inverse, callee, caller) <==> Calls(g, caller, callee)
    requires ClosedBut(inverse, seen, []) && forall c | Calls(g, c, fn) :: c in seen
    requires Walk(g, x, y, n) && n >= 1 && (y == fn || y in seen)
    ensures x in seen
    decreases n
  {
    var mid :| Walk(g, x, mid, n - 1) && Calls(g, mid, y);
    assert Links(inverse, y, mid);
    if n > 1 {
      ReachersSeen(g, inverse, fn, seen, x, mid, n - 1);
    }
  }

  /** Direct and transitive callers together are exactly the functions that reach `fn`. */
  method ImpactedCallers(g: Graph, fn: string) returns (direct: set<string>, transitive: set<string>)
    ensures forall x :: x in direct <==> Calls(g, x, fn)
    ensures forall x :: x in transitive <==> Reaches(g, x, fn) && !Calls(g, x, fn)
  {
    var inverse := BuildInverseCallers(g);
    direct := if fn in inverse then inverse[fn] else {};
    forall x ensures x in direct <==> Calls(g, x, fn) {
      assert Links(inverse, fn, x) <==> Calls(g, x, fn);
    }
    transitive := CollectTransitiveCallers(inverse, direct, g, fn);
    forall x ensures x in transitive <==> Reaches(g, x, fn) && !Calls(g, x, fn) {
      assert x in direct + transitive <==> Reaches(g, x, fn);
    }
  }

  // ---- merging two graphs --------------------------------------------------------------------

  method AddGraph(s0: SetGraph, g: Graph) returns (s: SetGraph)
    ensures s.Keys == s0.Keys + g.Keys
    ensures forall x, y :: Links(s, x, y) <==> Links(s0, x, y) || Calls(g, x, y)
  {
    s := s0;
    var rest := g.Keys;
    while rest != {}
      invariant rest <= g.Keys && s.Keys == s0.Keys + (g.Keys - rest)
      invariant forall x, y :: Links(s, x, y) <==> Links(s0, x, y) || (Calls(g, x, y) && x !in rest)
    {
      var caller :| caller in rest;
      var callees := g[caller];
      s := s[caller := (if caller in s then s[caller] else {}) + set c | c in callees];
      rest := rest - {caller};
    }
  }

  /** The merged graph calls what either calls. */
  method MergeCallGraphs(lhs: Graph, rhs: Graph) returns (g: Graph)
    ensures g.Keys == lhs.Keys + rhs.Keys
    ensures forall x, y :: Calls(g, x, y) <==> Calls(lhs, x, y) || Calls(rhs, x, y)
  {
    var merged := AddGraph(map[], lhs);
    merged := AddGraph(merged, rhs);
    g := Listed(merged);
  }
}
