/** The in-place topological sort of environment variables. */
module TopologicalSort {
  import opened Lex
  import opened Graphs
  import opened EnvOrder

  // ---- Building the graph ----

  ghost function PredsOf(edges: Edges, v: nat): (r: set<nat>)
    ensures forall u: nat :: u in r <==> (v, u) in edges
  {
    set p | p in edges && p.0 == v :: p.1
  }

  /** `inDegree` counts, and `graph` lists, the edges found so far. */
  ghost predicate Recorded(n: nat, edges: Edges, inDegree: seq<int>, graph: seq<seq<nat>>) {
    && |inDegree| == n && |graph| == n && Within(n, edges)
    && (forall v :: 0 <= v < n ==> inDegree[v] == |PredsOf(edges, v)|)
    && (forall u :: 0 <= u < n ==> Distinct(graph[u], n))
    && (forall u: nat, v: nat :: u < n && v < n ==> (v in graph[u] <==> (v, u) in edges))
  }

  lemma PredsAfter(edges: Edges, v: nat, u: nat)
    requires (v, u) !in edges
    ensures |PredsOf(edges + {(v, u)}, v)| == |PredsOf(edges, v)| + 1
    ensures forall w: nat :: w != v ==> PredsOf(edges + {(v, u)}, w) == PredsOf(edges, w)
  {
    var next := edges + {(v, u)};
    assert PredsOf(next, v) == PredsOf(edges, v) + {u};
    forall w: nat | w != v ensures PredsOf(next, w) == PredsOf(edges, w) {}
  }

  lemma RecordEdge(n: nat, edges: Edges, inDegree: seq<int>, graph: seq<seq<nat>>, v: nat, u: nat)
    requires Recorded(n, edges, inDegree, graph) && v < n && u < n && (v, u) !in edges
    ensures Recorded(n, edges + {(v, u)}, inDegree[v := inDegree[v] + 1], graph[u := graph[u] + [v]])
  {
    PredsAfter(edges, v, u);
    var lists := graph[u := graph[u] + [v]];
    forall w | 0 <= w < n ensures Distinct(lists[w], n) {
      if w == u { assert v !in graph[u]; }
    }
    forall a: nat, b: nat | a < n && b < n ensures b in lists[a] <==> (b, a) in edges + {(v, u)} {
      assert b in graph[a] <==> (b, a) in edges;
    }
  }

  /** The edges among the pairs of indices visited before (i, j). */
  ghost function Visited(e: seq<EnvVar>, i: nat, j: nat): (r: Edges)
    ensures forall v: nat, u: nat :: (v, u) in r <==> (v, u) in Graph(e) && Earlier(v, u, i, j)
  {
    set p | p in Graph(e) && Earlier(p.0, p.1, i, j)
  }

  ghost predicate Earlier(v: nat, u: nat, i: nat, j: nat) {
    var low, high := if v <= u then v else u, if v <= u then u else v;
    low < i || (low == i && high < j)
  }

  method BuildGraph(e: seq<EnvVar>) returns (inDegree: seq<int>, graph: seq<seq<nat>>)
    ensures Recorded(|e|, Graph(e), inDegree, graph)
  {
    var n := |e|;
    inDegree, graph := seq(n, _ => 0), seq(n, _ => []);
    NothingVisited(e, inDegree, graph);
    inDegree, graph := VisitRows(e, inDegree, graph);
    AllVisited(e);
  }

  /** The outer loop. */
  method VisitRows(e: seq<EnvVar>, inDegree0: seq<int>, graph0: seq<seq<nat>>)
    returns (inDegree: seq<int>, graph: seq<seq<nat>>)
    requires Recorded(|e|, Visited(e, 0, 0), inDegree0, graph0)
    ensures Recorded(|e|, Visited(e, |e|, |e|), inDegree, graph)
  {
    inDegree, graph := inDegree0, graph0;
    for i := 0 to |e|
      invariant Recorded(|e|, Visited(e, i, i), inDegree, graph)
    {
      inDegree, graph := VisitRow(e, i, inDegree, graph);
    }
  }

  /** The inner loop. */
  method VisitRow(e: seq<EnvVar>, i: nat, inDegree0: seq<int>, graph0: seq<seq<nat>>)
    returns (inDegree: seq<int>, graph: seq<seq<nat>>)
    requires i < |e| && Recorded(|e|, Visited(e, i, i), inDegree0, graph0)
    ensures Recorded(|e|, Visited(e, i + 1, i + 1), inDegree, graph)
  {
    inDegree, graph := inDegree0, graph0;
    for j := i to |e|
      invariant Recorded(|e|, Visited(e, i, j), inDegree, graph)
    {
      inDegree, graph := Visit(e, i, j, inDegree, graph);
    }
    RowVisited(e, i);
  }

  /** The body of the double loop. */
  method Visit(e: seq<EnvVar>, i: nat, j: nat, inDegree0: seq<int>, graph0: seq<seq<nat>>)
    returns (inDegree: seq<int>, graph: seq<seq<nat>>)
    requires i <= j < |e| && Recorded(|e|, Visited(e, i, j), inDegree0, graph0)
    ensures Recorded(|e|, Visited(e, i, j + 1), inDegree, graph)
  {
    inDegree, graph := inDegree0, graph0;
    VisitPair(e, i, j);
    var forward := ScanDependsOn(e[i], e[j]);
    if forward {
      RecordEdge(|e|, Visited(e, i, j), inDegree, graph, i, j);
      graph := graph[j := graph[j] + [i]];
      inDegree := inDegree[i := inDegree[i] + 1];
    } else {
      var backward := ScanDependsOn(e[j], e[i]);
      if backward {
        RecordEdge(|e|, Visited(e, i, j), inDegree, graph, j, i);
        graph := graph[i := graph[i] + [j]];
        inDegree := inDegree[j := inDegree[j] + 1];
      }
    }
  }

  lemma NothingVisited(e: seq<EnvVar>, inDegree: seq<int>, graph: seq<seq<nat>>)
    requires inDegree == seq(|e|, _ => 0) && graph == seq(|e|, _ => [])
    ensures Recorded(|e|, Visited(e, 0, 0), inDegree, graph)
  {
    assert Visited(e, 0, 0) == {};
    assert forall v: nat :: PredsOf({}, v) == {};
  }

  lemma RowVisited(e: seq<EnvVar>, i: nat)
    requires i < |e|
    ensures Visited(e, i, |e|) == Visited(e, i + 1, i + 1)
  {
    forall v: nat, u: nat | (v, u) in Graph(e) ensures Earlier(v, u, i, |e|) <==> Earlier(v, u, i + 1, i + 1) {}
  }

  lemma AllVisited(e: seq<EnvVar>)
    ensures Visited(e, |e|, |e|) == Graph(e)
  {}

  lemma VisitPair(e: seq<EnvVar>, i: nat, j: nat)
    requires i <= j < |e|
    ensures (i, j) !in Visited(e, i, j) && (j, i) !in Visited(e, i, j)
    ensures DependsOn(e[i], e[j]) ==> Visited(e, i, j + 1) == Visited(e, i, j) + {(i, j)}
    ensures !DependsOn(e[i], e[j]) && DependsOn(e[j], e[i]) ==> Visited(e, i, j + 1) == Visited(e, i, j) + {(j, i)}
    ensures !DependsOn(e[i], e[j]) && !DependsOn(e[j], e[i]) ==> Visited(e, i, j + 1) == Visited(e, i, j)
  {
    forall v: nat, u: nat | Earlier(v, u, i, j + 1) && !Earlier(v, u, i, j)
      ensures (v == i && u == j) || (v == j && u == i) {}
  }

  // ---- The main loop ----

  /** Predecessors of v not popped yet, which is what `inDegree` counts. */
  ghost function Pending(edges: Edges, done: set<nat>, v: nat): set<nat> {
    PredsOf(edges, v) - done
  }

  ghost predicate Searching(n: nat, edges: Edges, order: seq<nat>, inDegree: seq<int>, sources: seq<nat>) {
    && Distinct(order, n) && Distinct(sources, n) && |inDegree| == n
    && (forall v: nat :: v < n ==> inDegree[v] == |Pending(edges, Elements(order), v)|)
    && (forall v: nat :: v in sources <==> v < n && v !in order && inDegree[v] == 0)
    && (forall v: nat :: v in order ==> Pending(edges, Elements(order), v) == {})
  }

  lemma SourcesAreReady(n: nat, edges: Edges, order: seq<nat>, inDegree: seq<int>, sources: seq<nat>)
    requires Searching(n, edges, order, inDegree, sources)
    ensures forall v: nat :: v in sources <==> Ready(n, edges, order, v)
  {
    forall v: nat ensures v in sources <==> Ready(n, edges, order, v) {
      if v < n && v !in order {
        assert inDegree[v] == 0 <==> Pending(edges, Elements(order), v) == {};
        assert Pending(edges, Elements(order), v) == {} <==> forall u: nat :: (v, u) in edges ==> u in order by {
          if Pending(edges, Elements(order), v) == {} {
            forall u: nat | (v, u) in edges ensures u in order { assert u !in Pending(edges, Elements(order), v); }
          }
        }
      }
    }
  }

  /** Extract-min of the name-ordered heap; which of several equal names comes out is open. */
  method PopSmallest(e: seq<EnvVar>, sources: seq<nat>) returns (v: nat, rest: seq<nat>)
    requires sources != [] && Distinct(sources, |e|)
    ensures v in sources && v < |e| && Distinct(rest, |e|)
    ensures forall u: nat :: u in sources ==> u < |e| && !Less(e[u].name, e[v].name)
    ensures forall u: nat :: u in rest <==> u in sources && u != v
  {
    var best := 0;
    LessIrreflexive(e[sources[0]].name);
    for i := 1 to |sources|
      invariant best < i
      invariant forall k :: 0 <= k < i ==> !Less(e[sources[k]].name, e[sources[best]].name)
    {
      if Less(e[sources[i]].name, e[sources[best]].name) {
        forall k | 0 <= k < i ensures !Less(e[sources[k]].name, e[sources[i]].name) {
          if Less(e[sources[k]].name, e[sources[i]].name) {
            LessTransitive(e[sources[k]].name, e[sources[i]].name, e[sources[best]].name);
          }
        }
        LessIrreflexive(e[sources[i]].name);
        best := i;
      }
    }
    v, rest := sources[best], sources[..best] + sources[best + 1..];
    assert sources == sources[..best] + [v] + sources[best + 1..];
  }

  /** In the middle of `children`: those before position j no longer count v. */
  ghost predicate Halfway(n: nat, edges: Edges, done: set<nat>, v: nat, visited: seq<nat>, inDegree: seq<int>) {
    |inDegree| == n && forall x: nat :: x < n ==>
      inDegree[x] == |Pending(edges, if x in visited then done + {v} else done, x)|
  }

  lemma PendingDrops(edges: Edges, done: set<nat>, v: nat, x: nat)
    requires v !in done
    ensures |Pending(edges, done + {v}, x)| == |Pending(edges, done, x)| - if (x, v) in edges then 1 else 0
  {
    if (x, v) in edges {
      assert Pending(edges, done, x) == Pending(edges, done + {v}, x) + {v};
    } else {
      assert Pending(edges, done, x) == Pending(edges, done + {v}, x);
    }
  }

  ghost predicate Zeros(n: nat, order: seq<nat>, v: nat, inDegree: seq<int>, sources: seq<nat>) {
    && |inDegree| == n && Distinct(sources, n)
    && forall x: nat :: x in sources <==> x < n && x !in order && x != v && inDegree[x] == 0
  }

  lemma ReleaseCounts(n: nat, edges: Edges, done: set<nat>, v: nat, visited: seq<nat>, child: nat, inDegree: seq<int>)
    requires v !in done && child < n && child !in visited && (child, v) in edges
    requires Halfway(n, edges, done, v, visited, inDegree)
    ensures Halfway(n, edges, done, v, visited + [child], inDegree[child := inDegree[child] - 1])
    ensures inDegree[child] >= 1
  {
    PendingDrops(edges, done, v, child);
    assert v in Pending(edges, done, child);
    assert forall x: nat :: x in visited + [child] <==> x in visited || x == child;
  }

  lemma ReleaseZeros(n: nat, order: seq<nat>, v: nat, child: nat, inDegree: seq<int>, sources: seq<nat>)
    requires Zeros(n, order, v, inDegree, sources) && child < n && child !in order && child != v && inDegree[child] >= 1
    ensures var next := inDegree[child := inDegree[child] - 1];
            Zeros(n, order, v, next, if next[child] == 0 then sources + [child] else sources)
  {
    assert child !in sources;
  }

  lemma ReleaseOne(edges: Edges, order: seq<nat>, v: nat, children: seq<nat>, j: nat, inDegree: seq<int>,
                   sources: seq<nat>)
    requires j < |children| && Distinct(children, |inDegree|) && v < |inDegree| && v !in order
    requires (children[j], v) in edges
    requires forall x: nat :: x in order || x == v ==> Pending(edges, Elements(order), x) == {}
    requires Halfway(|inDegree|, edges, Elements(order), v, children[..j], inDegree)
    requires Zeros(|inDegree|, order, v, inDegree, sources)
    ensures var child := children[j]; var next := inDegree[child := inDegree[child] - 1];
            && Halfway(|inDegree|, edges, Elements(order), v, children[..j + 1], next)
            && Zeros(|inDegree|, order, v, next, if next[child] == 0 then sources + [child] else sources)
  {
    var child := children[j];
    NextChild(children, j, |inDegree|);
    HasPending(edges, Elements(order), v, child);
    ReleaseCounts(|inDegree|, edges, Elements(order), v, children[..j], child, inDegree);
    ReleaseZeros(|inDegree|, order, v, child, inDegree, sources);
  }

  lemma NextChild(children: seq<nat>, j: nat, n: nat)
    requires j < |children| && Distinct(children, n)
    ensures children[j] < n && children[j] !in children[..j] && children[..j + 1] == children[..j] + [children[j]]
  {}

  /** A variable that waits for v is not popped before v, and is not v. */
  lemma HasPending(edges: Edges, done: set<nat>, v: nat, child: nat)
    requires (child, v) in edges && v !in done
    requires forall x: nat :: x in done || x == v ==> Pending(edges, done, x) == {}
    ensures child !in done && child != v
  {
    assert v in Pending(edges, done, child);
  }

  /** Counts down the children of a popped variable and pushes those that reach zero. */
  method ReleaseChildren(ghost edges: Edges, ghost order: seq<nat>, v: nat, children: seq<nat>,
                         inDegree0: seq<int>, sources0: seq<nat>)
    returns (inDegree: seq<int>, sources: seq<nat>)
    requires Distinct(children, |inDegree0|) && v < |inDegree0| && v !in order
    requires forall x: nat :: x in children ==> (x, v) in edges
    requires Halfway(|inDegree0|, edges, Elements(order), v, [], inDegree0)
    requires Zeros(|inDegree0|, order, v, inDegree0, sources0)
    requires forall x: nat :: x in order || x == v ==> Pending(edges, Elements(order), x) == {}
    ensures Halfway(|inDegree0|, edges, Elements(order), v, children, inDegree)
    ensures Zeros(|inDegree0|, order, v, inDegree, sources)
  {
    inDegree, sources := inDegree0, sources0;
    for j := 0 to |children|
      invariant Halfway(|inDegree0|, edges, Elements(order), v, children[..j], inDegree)
      invariant Zeros(|inDegree0|, order, v, inDegree, sources)
    {
      var child := children[j];
      ReleaseOne(edges, order, v, children, j, inDegree, sources);
      inDegree := inDegree[child := inDegree[child] - 1];
      if inDegree[child] == 0 {
        sources := sources + [child];
      }
    }
    assert children[..|children|] == children;
  }

  lemma PopKeepsSearching(n: nat, edges: Edges, order: seq<nat>, v: nat, children: seq<nat>,
                          inDegree: seq<int>, sources: seq<nat>)
    requires Distinct(order, n) && v < n && v !in order
    requires forall x: nat :: x < n ==> (x in children <==> (x, v) in edges)
    requires Halfway(n, edges, Elements(order), v, children, inDegree) && Zeros(n, order, v, inDegree, sources)
    requires forall x: nat :: x in order || x == v ==> Pending(edges, Elements(order), x) == {}
    ensures Searching(n, edges, order + [v], inDegree, sources)
  {
    var done := Elements(order);
    assert Elements(order + [v]) == done + {v};
    PopCounts(n, edges, done, v, children, inDegree);
    PopLeavesNonePending(edges, done, v);
    DistinctAppend(order, n, v);
  }

  lemma DistinctAppend(order: seq<nat>, n: nat, v: nat)
    requires Distinct(order, n) && v < n && v !in order
    ensures Distinct(order + [v], n) && forall x :: x in order + [v] <==> x in order || x == v
  {}

  lemma PopCounts(n: nat, edges: Edges, done: set<nat>, v: nat, children: seq<nat>, inDegree: seq<int>)
    requires v !in done && forall x: nat :: x < n ==> (x in children <==> (x, v) in edges)
    requires Halfway(n, edges, done, v, children, inDegree)
    ensures forall x: nat :: x < n ==> inDegree[x] == |Pending(edges, done + {v}, x)|
  {
    forall x: nat | x < n ensures inDegree[x] == |Pending(edges, done + {v}, x)| {
      PendingDrops(edges, done, v, x);
    }
  }

  lemma PopLeavesNonePending(edges: Edges, done: set<nat>, v: nat)
    requires forall x: nat :: x in done || x == v ==> Pending(edges, done, x) == {}
    ensures forall x: nat :: x in done || x == v ==> Pending(edges, done + {v}, x) == {}
  {
    forall x: nat | x in done || x == v ensures Pending(edges, done + {v}, x) == {} {
      assert Pending(edges, done + {v}, x) <= Pending(edges, done, x);
    }
  }

  /** One turn of the main loop: pops a smallest ready variable and releases its children. */
  method Pop(e: seq<EnvVar>, ghost edges: Edges, graph: seq<seq<nat>>, ghost order: seq<nat>,
             inDegree0: seq<int>, sources0: seq<nat>)
    returns (v: nat, inDegree: seq<int>, sources: seq<nat>)
    requires Searching(|e|, edges, order, inDegree0, sources0) && sources0 != []
    requires |graph| == |e| && forall u :: 0 <= u < |e| ==> Distinct(graph[u], |e|)
    requires forall u: nat, x: nat :: u < |e| && x < |e| ==> (x in graph[u] <==> (x, u) in edges)
    ensures SmallestReady(e, edges, order, v) && Searching(|e|, edges, order + [v], inDegree, sources)
  {
    SourcesAreReady(|e|, edges, order, inDegree0, sources0);
    var rest;
    v, rest := PopSmallest(e, sources0);
    assert Pending(edges, Elements(order), v) == {} by { assert inDegree0[v] == 0; }
    assert forall x: nat :: x in graph[v] ==> x < |e|;
    inDegree, sources := ReleaseChildren(edges, order, v, graph[v], inDegree0, rest);
    PopKeepsSearching(|e|, edges, order, v, graph[v], inDegree, sources);
  }

  ghost predicate GreedySoFar(e: seq<EnvVar>, edges: Edges, order: seq<nat>) {
    forall k :: 0 <= k < |order| ==> SmallestReady(e, edges, order[..k], order[k])
  }

  lemma GreedyStep(e: seq<EnvVar>, edges: Edges, order: seq<nat>, v: nat)
    requires GreedySoFar(e, edges, order) && SmallestReady(e, edges, order, v)
    ensures GreedySoFar(e, edges, order + [v])
  {
    var next := order + [v];
    forall k | 0 <= k < |next| ensures SmallestReady(e, edges, next[..k], next[k]) {
      assert next[..k] == order[..k];
      if k == |order| { assert next[..k] == order; }
    }
  }

  method Kahn(e: seq<EnvVar>) returns (order: seq<nat>)
    ensures Greedy(e, order)
  {
    var inDegree, graph := BuildGraph(e);
    ghost var edges := Graph(e);
    order := [];
    var sources := ZeroDegrees(inDegree);
    assert forall v: nat :: Pending(edges, Elements([]), v) == PredsOf(edges, v);
    while sources != []
      invariant Searching(|e|, edges, order, inDegree, sources) && |order| <= |e|
      invariant GreedySoFar(e, edges, order)
      decreases |e| - |order|
    {
      var v;
      v, inDegree, sources := Pop(e, edges, graph, order, inDegree, sources);
      GreedyStep(e, edges, order, v);
      order := order + [v];
      DistinctCount(order, |e|);
    }
    SourcesAreReady(|e|, edges, order, inDegree, sources);
    assert forall k :: 0 <= k < |order| ==> SmallestReady(e, edges, order[..k], order[k]);
  }

  method ZeroDegrees(inDegree: seq<int>) returns (sources: seq<nat>)
    ensures Distinct(sources, |inDegree|)
    ensures forall v: nat :: v in sources <==> v < |inDegree| && inDegree[v] == 0
  {
    sources := [];
    for i := 0 to |inDegree|
      invariant Distinct(sources, i)
      invariant forall v: nat :: v in sources <==> v < i && inDegree[v] == 0
    {
      if inDegree[i] == 0 { sources := sources + [i]; }
    }
  }

  /** The sort itself: rewrites the slice in place by a greedy order. */
  method Sort(e: array<EnvVar>)
    modifies e
    ensures exists order :: Sorted(old(e[..]), order, e[..])
  {
    var order := Kahn(e[..]);
    DistinctCount(order, e.Length);
    WriteBack(e, order);
    assert Sorted(old(e[..]), order, e[..]);
  }

  method WriteBack(e: array<EnvVar>, order: seq<nat>)
    requires |order| <= e.Length && forall k :: 0 <= k < |order| ==> order[k] < e.Length
    modifies e
    ensures e[..] == Rearranged(old(e[..]), order)
    ensures forall k :: 0 <= k < |order| ==> e[k] == old(e[..])[order[k]]
    ensures forall k :: |order| <= k < e.Length ==> e[k] == old(e[..])[k]
  {
    var oldEnv := e[..];
    for idx := 0 to |order|
      invariant forall k :: 0 <= k < idx ==> e[k] == oldEnv[order[k]]
      invariant forall k :: idx <= k < e.Length ==> e[k] == oldEnv[k]
    {
      if idx != order[idx] {
        e[idx] := oldEnv[order[idx]];
      }
    }
  }

  ghost predicate Sorted(e: seq<EnvVar>, order: seq<nat>, out: seq<EnvVar>) {
    Greedy(e, order) && |order| <= |e| && out == Rearranged(e, order)
  }
}
