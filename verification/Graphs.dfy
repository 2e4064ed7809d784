/** Finite directed graphs on the numbers below n: a greedy order of the nodes is complete exactly
    when there is no cycle. An edge (v, u) says that v waits for u. */
module Graphs {

  type Edges = set<(nat, nat)>

  ghost predicate Ready(n: nat, edges: Edges, done: seq<nat>, v: nat) {
    v < n && v !in done && forall u: nat :: (v, u) in edges ==> u in done
  }

  ghost predicate Distinct(s: seq<nat>, n: nat) {
    (forall i :: 0 <= i < |s| ==> s[i] < n) && forall i, j :: 0 <= i < j < |s| ==> s[i] != s[j]
  }

  /** Takes ready nodes one after the other until none is ready. */
  ghost predicate Exhausts(n: nat, edges: Edges, order: seq<nat>) {
    && Distinct(order, n)
    && (forall k :: 0 <= k < |order| ==> Ready(n, edges, order[..k], order[k]))
    && forall v: nat :: !Ready(n, edges, order, v)
  }

  ghost predicate Within(n: nat, edges: Edges) {
    forall v: nat, u: nat :: (v, u) in edges ==> v < n && u < n
  }

  // ---- Counting ----

  ghost function Below(n: nat): (r: set<nat>)
    ensures forall x: nat :: x in r <==> x < n
    ensures |r| == n
  {
    if n == 0 then {} else Below(n - 1) + {n - 1}
  }

  ghost function Elements(s: seq<nat>): (r: set<nat>)
    ensures forall x :: x in r <==> x in s
  {
    set x | x in s
  }

  lemma {:induction false} SubsetSize(a: set<nat>, b: set<nat>)
    requires a <= b
    ensures |a| <= |b|
    ensures |a| == |b| ==> a == b
  {
    if a != {} {
      var x :| x in a;
      SubsetSize(a - {x}, b - {x});
    }
  }

  lemma LastElement(s: seq<nat>, n: nat)
    requires Distinct(s, n) && s != []
    ensures var last := |s| - 1;
            && Distinct(s[..last], n) && s[last] !in Elements(s[..last])
            && Elements(s) == Elements(s[..last]) + {s[last]}
  {
    assert s == s[..|s| - 1] + [s[|s| - 1]];
  }

  lemma {:induction false} DistinctSize(s: seq<nat>, n: nat)
    requires Distinct(s, n)
    ensures |Elements(s)| == |s|
  {
    if s == [] {
      assert Elements(s) == {};
    } else {
      LastElement(s, n);
      DistinctSize(s[..|s| - 1], n);
    }
  }

  lemma DistinctCount(s: seq<nat>, n: nat)
    requires Distinct(s, n)
    ensures |Elements(s)| == |s| <= n && Elements(s) <= Below(n)
    ensures |s| == n ==> Elements(s) == Below(n)
  {
    DistinctSize(s, n);
    SubsetSize(Elements(s), Below(n));
  }

  // ---- Cycles ----

  ghost predicate IsCycle(edges: Edges, p: seq<nat>) {
    && p != []
    && (forall i :: 0 <= i < |p| - 1 ==> (p[i], p[i + 1]) in edges)
    && (p[|p| - 1], p[0]) in edges
  }

  ghost predicate HasCycle(edges: Edges) {
    exists p :: IsCycle(edges, p)
  }

  lemma CycleTurn(edges: Edges, p: seq<nat>) returns (u: nat, v: nat, w: nat)
    requires IsCycle(edges, p)
    ensures (u, v) in edges && (v, w) in edges
  {
    u, v, w := p[|p| - 1], p[0], if |p| > 1 then p[1] else p[0];
  }

  ghost predicate WaitsWithin(edges: Edges, stuck: set<nat>, v: nat) {
    exists u :: u in stuck && (v, u) in edges
  }

  /** A walk that never leaves `stuck`, where everybody waits for somebody in `stuck`. */
  lemma {:induction false} LongWalk(edges: Edges, stuck: set<nat>, start: nat, length: nat) returns (w: seq<nat>)
    requires start in stuck && forall v :: v in stuck ==> WaitsWithin(edges, stuck, v)
    ensures |w| == length + 1 && w[0] == start && forall i :: 0 <= i < |w| ==> w[i] in stuck
    ensures forall i :: 0 <= i < |w| - 1 ==> (w[i], w[i + 1]) in edges
    decreases length
  {
    w := [start];
    if length > 0 {
      assert WaitsWithin(edges, stuck, start);
      var next :| next in stuck && (start, next) in edges;
      var rest := LongWalk(edges, stuck, next, length - 1);
      w := w + rest;
    }
  }

  lemma Repeats(w: seq<nat>, n: nat) returns (i: nat, j: nat)
    requires |w| > n && forall k :: 0 <= k < |w| ==> w[k] < n
    ensures i < j < |w| && w[i] == w[j]
  {
    if Distinct(w, n) {
      DistinctCount(w, n);
      assert false;
    }
    i, j :| 0 <= i < j < |w| && w[i] == w[j];
  }

  lemma WalkHasCycle(edges: Edges, w: seq<nat>, i: nat, j: nat)
    requires i < j < |w| && w[i] == w[j]
    requires forall k :: 0 <= k < |w| - 1 ==> (w[k], w[k + 1]) in edges
    ensures IsCycle(edges, w[i..j])
  {
    var p := w[i..j];
    forall k | 0 <= k < |p| - 1 ensures (p[k], p[k + 1]) in edges { assert (w[i + k], w[i + k + 1]) in edges; }
    assert (w[j - 1], w[j]) in edges;
  }

  lemma StuckSet(n: nat, edges: Edges, order: seq<nat>) returns (stuck: set<nat>)
    requires Within(n, edges) && Exhausts(n, edges, order) && |order| < n
    ensures stuck != {} && stuck <= Below(n) && forall v :: v in stuck ==> WaitsWithin(edges, stuck, v)
  {
    stuck := Below(n) - Elements(order);
    DistinctCount(order, n);
    assert Elements(order) != Below(n);
    forall v | v in stuck ensures WaitsWithin(edges, stuck, v) {
      assert !Ready(n, edges, order, v);
      var u: nat :| (v, u) in edges && u !in order;
      assert u in stuck;
    }
  }

  /** If the order leaves a node out, there is a cycle. */
  lemma LeftOutMeansCycle(n: nat, edges: Edges, order: seq<nat>)
    requires Within(n, edges) && Exhausts(n, edges, order) && |order| < n
    ensures HasCycle(edges)
  {
    var stuck := StuckSet(n, edges, order);
    var start :| start in stuck;
    var w := LongWalk(edges, stuck, start, n);
    var i, j := Repeats(w, n);
    WalkHasCycle(edges, w, i, j);
  }

  lemma {:induction false} EarliestAmong(order: seq<nat>, p: seq<nat>, j: nat) returns (k: nat, i: nat)
    requires j < |p| && p[j] in order
    ensures k < |order| && i < |p| && order[k] == p[i]
    ensures forall j :: 0 <= j < |p| ==> p[j] !in order[..k]
    decreases |order|
  {
    var last := |order| - 1;
    assert order == order[..last] + [order[last]];
    if forall h :: 0 <= h < |p| ==> p[h] !in order[..last] {
      k, i := last, j;
    } else {
      var h :| 0 <= h < |p| && p[h] in order[..last];
      k, i := EarliestAmong(order[..last], p, h);
      assert order[..last][..k] == order[..k];
    }
  }

  /** If the order has every node, the earliest member of a closed list does not wait for its
      successor, so the list is no cycle. */
  lemma CompleteMeansAcyclic(n: nat, edges: Edges, order: seq<nat>, p: seq<nat>)
    requires Within(n, edges) && Exhausts(n, edges, order) && |order| == n
    ensures !IsCycle(edges, p)
  {
    forall i | 0 <= i < |p| ensures IsCycle(edges, p) ==> p[i] < n {
      assert IsCycle(edges, p) ==> (p[i], if i + 1 < |p| then p[i + 1] else p[0]) in edges;
    }
    if p != [] && forall i :: 0 <= i < |p| ==> p[i] < n {
      DistinctCount(order, n);
      forall i | 0 <= i < |p| ensures p[i] in order { assert p[i] in Below(n); }
      var k, i := EarliestAmong(order, p, 0);
      var next := if i + 1 < |p| then p[i + 1] else p[0];
      assert next !in order[..k] && Ready(n, edges, order[..k], order[k]);
      assert (p[i], next) !in edges;
    }
  }

  /** The exact condition for every node to be placed. */
  lemma CompleteExactlyWhenAcyclic(n: nat, edges: Edges, order: seq<nat>)
    requires Within(n, edges) && Exhausts(n, edges, order)
    ensures |order| <= n
    ensures |order| == n <==> !HasCycle(edges)
  {
    DistinctCount(order, n);
    if |order| < n {
      LeftOutMeansCycle(n, edges, order);
    } else {
      forall p ensures !IsCycle(edges, p) { CompleteMeansAcyclic(n, edges, order, p); }
    }
  }
}
