/** What the topological sort guarantees: a permutation that respects dependencies, and the same one
    for every arrangement of the same variables. */
module EnvOrderLaws {
  import opened Lex
  import opened Graphs
  import opened EnvOrder

  /** The plain dependency relation, before the sort drops one of two opposite edges. */
  ghost function Dependencies(e: seq<EnvVar>): (r: Edges)
    ensures forall i: nat, j: nat :: (i, j) in r <==> i < |e| && j < |e| && DependsOn(e[i], e[j])
  {
    set i: nat, j: nat | i < |e| && j < |e| && DependsOn(e[i], e[j]) :: (i, j)
  }

  /** Nobody depends on itself, directly or through others. */
  ghost predicate Acyclic(e: seq<EnvVar>) {
    !HasCycle(Dependencies(e))
  }

  /** Without cycles no two variables depend on each other, so the sort drops no edge. */
  lemma AcyclicGraph(e: seq<EnvVar>)
    requires Acyclic(e)
    ensures Graph(e) == Dependencies(e)
  {
    forall i: nat, j: nat | (i, j) in Dependencies(e) ensures (i, j) in Graph(e) {
      assert !IsCycle(Dependencies(e), [i, j]);
    }
  }

  ghost function Position(e: seq<EnvVar>, v: EnvVar): (i: nat)
    requires v in e
    ensures i < |e| && e[i] == v
  {
    var i: nat :| i < |e| && e[i] == v;
    i
  }

  lemma CycleMembers(n: nat, edges: Edges, p: seq<nat>)
    requires Within(n, edges) && IsCycle(edges, p)
    ensures forall i :: 0 <= i < |p| ==> p[i] < n
  {
    forall i | 0 <= i < |p| ensures p[i] < n {
      assert (p[i], if i + 1 < |p| then p[i + 1] else p[0]) in edges;
    }
  }

  /** Whether there is a cycle does not depend on where the variables stand. */
  lemma AcyclicCarriesOver(e: seq<EnvVar>, f: seq<EnvVar>)
    requires Acyclic(e) && forall v :: v in f ==> v in e
    ensures Acyclic(f)
  {
    if p :| IsCycle(Dependencies(f), p) {
      CycleMembers(|f|, Dependencies(f), p);
      CycleCarriesOver(e, f, p);
    }
  }

  lemma CycleCarriesOver(e: seq<EnvVar>, f: seq<EnvVar>, p: seq<nat>)
    requires (forall v :: v in f ==> v in e) && IsCycle(Dependencies(f), p) && forall i :: 0 <= i < |p| ==> p[i] < |f|
    ensures HasCycle(Dependencies(e))
  {
    var q := seq(|p|, i requires 0 <= i < |p| => Position(e, f[p[i]]));
    forall i | 0 <= i < |q| - 1 ensures (q[i], q[i + 1]) in Dependencies(e) {
      assert (p[i], p[i + 1]) in Dependencies(f);
    }
    assert (q[|q| - 1], q[0]) in Dependencies(e);
    assert IsCycle(Dependencies(e), q);
  }

  // ---- Permutations ----

  ghost predicate IsPermutation(order: seq<nat>, n: nat) {
    Distinct(order, n) && |order| == n
  }

  lemma RemoveAt(s: seq<EnvVar>, k: nat)
    requires k < |s|
    ensures multiset(s) == multiset(s[..k] + s[k + 1..]) + multiset{s[k]}
  {
    assert s == s[..k] + [s[k]] + s[k + 1..];
  }

  /** Taking the largest index out of a permutation leaves a permutation. */
  lemma WithoutLargest(order: seq<nat>, n: nat, k: nat, rest: seq<nat>)
    requires IsPermutation(order, n) && k < n && order[k] == n - 1
    requires |rest| == n - 1 && forall i :: 0 <= i < n - 1 ==> rest[i] == order[if i < k then i else i + 1]
    ensures IsPermutation(rest, n - 1)
  {}

  lemma LargestAt(order: seq<nat>, n: nat) returns (k: nat)
    requires IsPermutation(order, n) && n > 0
    ensures k < n && order[k] == n - 1
  {
    DistinctCount(order, n);
    assert n - 1 in Elements(order);
    k :| 0 <= k < |order| && order[k] == n - 1;
  }

  ghost predicate Picked(e: seq<EnvVar>, order: seq<nat>, out: seq<EnvVar>) {
    IsPermutation(order, |e|) && |out| == |e| && forall i :: 0 <= i < |e| ==> out[i] == e[order[i]]
  }

  lemma PickedWithout(e: seq<EnvVar>, order: seq<nat>, out: seq<EnvVar>, k: nat)
    requires Picked(e, order, out) && k < |e| && order[k] == |e| - 1
    ensures Picked(e[..|e| - 1], order[..k] + order[k + 1..], out[..k] + out[k + 1..])
  {
    var last, rest, restOut := |e| - 1, order[..k] + order[k + 1..], out[..k] + out[k + 1..];
    WithoutLargest(order, |e|, k, rest);
    forall i | 0 <= i < last ensures restOut[i] == e[..last][rest[i]] {}
  }

  lemma {:induction false} PickedMultiset(e: seq<EnvVar>, order: seq<nat>, out: seq<EnvVar>)
    requires Picked(e, order, out)
    ensures multiset(out) == multiset(e)
    decreases |e|
  {
    if e != [] {
      var last := |e| - 1;
      var k := LargestAt(order, |e|);
      PickedWithout(e, order, out, k);
      PickedMultiset(e[..last], order[..k] + order[k + 1..], out[..k] + out[k + 1..]);
      RemoveAt(out, k);
      assert e == e[..last] + [e[last]];
    }
  }

  ghost predicate DependenciesFirst(out: seq<EnvVar>) {
    forall i, j :: 0 <= i < |out| && 0 <= j < |out| && DependsOn(out[i], out[j]) ==> j < i
  }

  /** The sort is correct on every acyclic list: a permutation in which every variable comes after
      all variables it depends on. */
  lemma SortRespectsDependencies(e: seq<EnvVar>, order: seq<nat>)
    requires Acyclic(e) && Greedy(e, order)
    ensures |order| == |e|
    ensures multiset(Rearranged(e, order)) == multiset(e)
    ensures DependenciesFirst(Rearranged(e, order))
  {
    CompleteExactlyWhenAcyclic(|e|, Graph(e), order);
    AcyclicGraph(e);
    var out := Rearranged(e, order);
    PickedMultiset(e, order, out);
    forall i, j | 0 <= i < |e| && 0 <= j < |e| && DependsOn(out[i], out[j]) ensures j < i {
      assert (order[i], order[j]) in Graph(e);
      assert Ready(|e|, Graph(e), order[..i], order[i]);
      assert order[j] in order[..i];
      var k :| 0 <= k < i && order[k] == order[j];
    }
  }

  lemma Descends(edges: Edges, p: seq<nat>, i: nat)
    requires IsCycle(edges, p) && (forall v: nat, u: nat :: (v, u) in edges ==> u < v) && i < |p|
    ensures p[i] <= p[0]
  {
    for k := 0 to i
      invariant p[k] <= p[0]
    {
      assert (p[k], p[k + 1]) in edges;
    }
  }

  lemma OrderedIsAcyclic(out: seq<EnvVar>)
    requires DependenciesFirst(out)
    ensures Acyclic(out)
  {
    var edges := Dependencies(out);
    if p :| IsCycle(edges, p) {
      Descends(edges, p, |p| - 1);
      assert false;
    }
  }

  /** The sort puts every variable after all it depends on if and only if there is no cycle. */
  lemma SortIsRightExactly(e: seq<EnvVar>, order: seq<nat>)
    requires Greedy(e, order)
    ensures Acyclic(e) <==> |order| == |e| && DependenciesFirst(Rearranged(e, order))
  {
    if Acyclic(e) {
      SortRespectsDependencies(e, order);
    } else if |order| == |e| && DependenciesFirst(Rearranged(e, order)) {
      var out := Rearranged(e, order);
      PickedMultiset(e, order, out);
      OrderedIsAcyclic(out);
      assert forall v :: v in e <==> v in multiset(e);
      assert forall v :: v in out <==> v in multiset(out);
      AcyclicCarriesOver(out, e);
    }
  }

  /** The exact condition for the sort to place every variable. */
  lemma SortPlacesAllExactly(e: seq<EnvVar>, order: seq<nat>)
    requires Greedy(e, order)
    ensures |order| == |e| <==> !HasCycle(Graph(e))
  {
    CompleteExactlyWhenAcyclic(|e|, Graph(e), order);
  }

  // ---- The order is canonical ----

  ghost predicate DistinctNames(e: seq<EnvVar>) {
    forall i, j :: 0 <= i < j < |e| ==> e[i].name != e[j].name
  }

  ghost predicate ValueReady(e: seq<EnvVar>, done: seq<EnvVar>, v: EnvVar) {
    v in e && v !in done && forall u :: u in e && DependsOn(v, u) ==> u in done
  }

  ghost predicate CanonicalAt(e: seq<EnvVar>, done: seq<EnvVar>, v: EnvVar) {
    ValueReady(e, done, v) && forall u :: ValueReady(e, done, u) ==> !Less(u.name, v.name)
  }

  /** Stated on values only: each variable is the ready one of smallest name. */
  ghost predicate CanonicalFrom(e: seq<EnvVar>, done: seq<EnvVar>, rest: seq<EnvVar>)
    decreases |rest|
  {
    rest == [] || (CanonicalAt(e, done, rest[0]) && CanonicalFrom(e, done + [rest[0]], rest[1..]))
  }

  ghost predicate Canonical(e: seq<EnvVar>, out: seq<EnvVar>) {
    |out| == |e| && CanonicalFrom(e, [], out)
  }

  lemma PrefixMembers(e: seq<EnvVar>, order: seq<nat>, k: nat, u: nat)
    requires IsPermutation(order, |e|) && DistinctNames(e) && k <= |e| && u < |e|
    ensures e[u] in Rearranged(e, order)[..k] <==> u in order[..k]
  {
    var out := Rearranged(e, order);
    if e[u] in out[..k] {
      var i :| 0 <= i < k && out[..k][i] == e[u];
      assert e[order[i]] == e[u];
      assert order[i] == u;
      assert order[..k][i] == u;
    }
    if u in order[..k] {
      var i :| 0 <= i < k && order[..k][i] == u;
      assert out[..k][i] == e[u];
    }
  }

  lemma ReadyValues(e: seq<EnvVar>, order: seq<nat>, k: nat, v: nat)
    requires IsPermutation(order, |e|) && DistinctNames(e) && Acyclic(e) && k <= |e| && v < |e|
    ensures ValueReady(e, Rearranged(e, order)[..k], e[v]) <==> Ready(|e|, Graph(e), order[..k], v)
  {
    AcyclicGraph(e);
    PrefixMembers(e, order, k, v);
    var done := Rearranged(e, order)[..k];
    forall u: nat | u < |e| ensures e[u] in done <==> u in order[..k] { PrefixMembers(e, order, k, u); }
    if Ready(|e|, Graph(e), order[..k], v) {
      forall u | u in e && DependsOn(e[v], u) ensures u in done {
        var i: nat :| i < |e| && e[i] == u;
        assert (v, i) in Graph(e);
      }
    }
    if ValueReady(e, done, e[v]) {
      forall u: nat | (v, u) in Graph(e) ensures u in order[..k] { assert e[u] in e; }
    }
  }

  lemma SortedAt(e: seq<EnvVar>, order: seq<nat>, k: nat)
    requires IsPermutation(order, |e|) && DistinctNames(e) && Acyclic(e) && k < |e|
    requires SmallestReady(e, Graph(e), order[..k], order[k])
    ensures CanonicalAt(e, Rearranged(e, order)[..k], Rearranged(e, order)[k])
  {
    var out := Rearranged(e, order);
    ReadyValues(e, order, k, order[k]);
    forall v | ValueReady(e, out[..k], v) ensures !Less(v.name, out[k].name) {
      var i: nat :| i < |e| && e[i] == v;
      ReadyValues(e, order, k, i);
    }
  }

  lemma {:induction false} SortedFrom(e: seq<EnvVar>, order: seq<nat>, k: nat)
    requires Acyclic(e) && DistinctNames(e) && Greedy(e, order) && IsPermutation(order, |e|) && k <= |e|
    ensures CanonicalFrom(e, Rearranged(e, order)[..k], Rearranged(e, order)[k..])
    decreases |e| - k
  {
    var out := Rearranged(e, order);
    if k < |e| {
      SortedAt(e, order, k);
      SortedFrom(e, order, k + 1);
      assert out[..k + 1] == out[..k] + [out[k]] && out[k..][1..] == out[k + 1..];
    }
  }

  lemma SortIsCanonical(e: seq<EnvVar>, order: seq<nat>)
    requires Acyclic(e) && DistinctNames(e) && Greedy(e, order)
    ensures |order| == |e| && Canonical(e, Rearranged(e, order))
  {
    SortRespectsDependencies(e, order);
    SortedFrom(e, order, 0);
    assert Rearranged(e, order)[..0] == [] && Rearranged(e, order)[0..] == Rearranged(e, order);
  }

  lemma CanonicalStep(e: seq<EnvVar>, done: seq<EnvVar>, a: EnvVar, b: EnvVar)
    requires DistinctNames(e) && CanonicalAt(e, done, a) && CanonicalAt(e, done, b)
    ensures a == b
  {
    LessTotal(a.name, b.name);
    var i :| 0 <= i < |e| && e[i] == a;
    var j :| 0 <= j < |e| && e[j] == b;
    assert i == j;
  }

  lemma {:induction false} CanonicalIsUnique(e: seq<EnvVar>, done: seq<EnvVar>, rest1: seq<EnvVar>, rest2: seq<EnvVar>)
    requires DistinctNames(e) && CanonicalFrom(e, done, rest1) && CanonicalFrom(e, done, rest2) && |rest1| == |rest2|
    ensures rest1 == rest2
    decreases |rest1|
  {
    if rest1 != [] {
      CanonicalStep(e, done, rest1[0], rest2[0]);
      CanonicalIsUnique(e, done + [rest1[0]], rest1[1..], rest2[1..]);
      assert rest1 == [rest1[0]] + rest1[1..] && rest2 == [rest2[0]] + rest2[1..];
    }
  }

  lemma {:induction false} CanonicalCarriesOver(e: seq<EnvVar>, f: seq<EnvVar>, done: seq<EnvVar>, rest: seq<EnvVar>)
    requires (forall v :: v in e <==> v in f) && CanonicalFrom(f, done, rest)
    ensures CanonicalFrom(e, done, rest)
    decreases |rest|
  {
    if rest != [] {
      assert forall v :: ValueReady(e, done, v) <==> ValueReady(f, done, v);
      CanonicalCarriesOver(e, f, done + [rest[0]], rest[1..]);
    }
  }

  /** The order is canonical: any two arrangements of the same variables sort to the same list. */
  lemma SameVariablesSameOrder(e: seq<EnvVar>, order: seq<nat>, f: seq<EnvVar>, order2: seq<nat>)
    requires multiset(e) == multiset(f) && DistinctNames(e) && DistinctNames(f) && Acyclic(e)
    requires Greedy(e, order) && Greedy(f, order2)
    ensures |order| == |e| && |order2| == |f| && Rearranged(e, order) == Rearranged(f, order2)
  {
    assert |e| == |multiset(e)| == |multiset(f)| == |f|;
    assert forall v :: v in e <==> v in multiset(e);
    assert forall v :: v in f <==> v in multiset(f);
    AcyclicCarriesOver(e, f);
    SortIsCanonical(e, order);
    SortIsCanonical(f, order2);
    var out1, out2 := Rearranged(e, order), Rearranged(f, order2);
    CanonicalCarriesOver(e, f, [], out2);
    CanonicalIsUnique(e, [], out1, out2);
  }

  // ---- References that the scan misses ----

  /** The sort puts a variable after everything it refers to, but for the references it does not see. */
  lemma SortRespectsReferences(e: seq<EnvVar>, order: seq<nat>, i: nat, j: nat)
    requires Acyclic(e) && Greedy(e, order) && i < |e| && j < |e|
    ensures |order| == |e|
    ensures RefersTo(Rearranged(e, order)[i], Rearranged(e, order)[j]) ==>
            j < i || HidesReference(Rearranged(e, order)[i], Rearranged(e, order)[j])
  {
    SortRespectsDependencies(e, order);
    ScanMissesExactly(Rearranged(e, order)[i], Rearranged(e, order)[j]);
  }

  /** `a` refers to `b`, and there is no other reference between the two. */
  ghost predicate OneReference(a: EnvVar, b: EnvVar) {
    a.name != b.name && RefersTo(a, b) && !RefersTo(b, a) && !RefersTo(a, a) && !RefersTo(b, b)
  }

  /** Of two variables, one of which refers to the other, the referenced one comes first exactly if the
      reference is seen or its name happens to be smaller. */
  lemma PairInOrderExactly(a: EnvVar, b: EnvVar, e: seq<EnvVar>, order: seq<nat>)
    requires OneReference(a, b) && (e == [a, b] || e == [b, a]) && Greedy(e, order)
    ensures |order| == |e|
    ensures !HidesReference(a, b) || Less(b.name, a.name) <==> Rearranged(e, order) == [b, a]
    ensures HidesReference(a, b) && !Less(b.name, a.name) <==> Rearranged(e, order) == [a, b]
  {
    ScanMissesExactly(a, a);
    ScanMissesExactly(a, b);
    ScanMissesExactly(b, a);
    ScanMissesExactly(b, b);
    PairIsAcyclic(a, b, e);
    PairOut(a, b, e, order);
    SortIsCanonical(e, order);
    PairSorted(a, b, e, Rearranged(e, order));
  }

  /** A variable whose value is a reference to the other comes after it, however the two are named and given. */
  lemma ReferencedComesFirst(a: EnvVar, b: EnvVar, e: seq<EnvVar>, order: seq<nat>)
    requires IsReference(a.value, b.name) && a.name != b.name && '$' !in b.value
    requires (e == [a, b] || e == [b, a]) && Greedy(e, order)
    ensures |order| == 2 && Rearranged(e, order) == [b, a]
  {
    ReferenceDependsOnName(a, a, b.name);
    ReferenceDependsOnName(a, b, b.name);
    PlainDependsOnNothing(b, a);
    PlainDependsOnNothing(b, b);
    PairInOrderExactly(a, b, e, order);
  }

  /** HOST is defined by HOST_IP and given before it: the sort turns them round. */
  lemma HostAfterAddress(order: seq<nat>, host: EnvVar, address: EnvVar)
    requires host == EnvVar("HOST", "$(HOST_IP)", "") && address == EnvVar("HOST_IP", "10.0.0.1", "")
    requires Greedy([host, address], order)
    ensures |order| == 2 && Rearranged([host, address], order) == [address, host]
  {
    ReferencedComesFirst(host, address, [host, address], order);
  }

  /** Of two variables that depend on each other the earlier one waits, so the sort turns them round. */
  lemma MutualPairTurnsRound(a: EnvVar, b: EnvVar, order: seq<nat>)
    requires DependsOn(a, b) && DependsOn(b, a) && !DependsOn(a, a) && !DependsOn(b, b)
    requires Greedy([a, b], order)
    ensures |order| == 2 && Rearranged([a, b], order) == [b, a]
  {
    var e := [a, b];
    var edges := Graph(e);
    forall i: nat, j: nat ensures (i, j) in edges <==> i == 0 && j == 1 {
      assert (i, j) in edges <==> i < 2 && j < 2 && Edge(e, i, j);
    }
    if p :| IsCycle(edges, p) {
      var u, v, w := CycleTurn(edges, p);
      assert false;
    }
    SortPlacesAllExactly(e, order);
    assert SmallestReady(e, edges, order[..0], order[0]) && (0, 1) in edges;
    assert SmallestReady(e, edges, order[..1], order[1]);
    assert order[0] == 1;
    assert Rearranged(e, order) == [e[order[0]], e[order[1]]];
  }

  lemma PairOut(a: EnvVar, b: EnvVar, e: seq<EnvVar>, order: seq<nat>)
    requires (e == [a, b] || e == [b, a]) && Acyclic(e) && Greedy(e, order)
    ensures |order| == |e| && DependenciesFirst(Rearranged(e, order))
    ensures Rearranged(e, order) == [a, b] || Rearranged(e, order) == [b, a]
  {
    SortRespectsDependencies(e, order);
    var out := Rearranged(e, order);
    assert out == [out[0], out[1]];
  }

  lemma PairSorted(a: EnvVar, b: EnvVar, e: seq<EnvVar>, out: seq<EnvVar>)
    requires a.name != b.name && (e == [a, b] || e == [b, a]) && (out == [a, b] || out == [b, a])
    requires !DependsOn(b, a) && !DependsOn(a, a) && !DependsOn(b, b)
    requires DependenciesFirst(out) && CanonicalAt(e, [], out[0])
    ensures DependsOn(a, b) || Less(b.name, a.name) ==> out == [b, a]
    ensures !DependsOn(a, b) && !Less(b.name, a.name) ==> out == [a, b]
  {
    assert !DependsOn(out[0], out[1]);
    if !DependsOn(a, b) {
      assert ValueReady(e, [], a) && ValueReady(e, [], b);
      LessTotal(a.name, b.name);
    }
  }

  lemma PairIsAcyclic(a: EnvVar, b: EnvVar, e: seq<EnvVar>)
    requires (e == [a, b] || e == [b, a]) && !DependsOn(b, a) && !DependsOn(a, a) && !DependsOn(b, b)
    ensures Acyclic(e)
  {
    var edges := Dependencies(e);
    if p :| IsCycle(edges, p) {
      var u, v, w := CycleTurn(edges, p);
      assert false;
    }
  }

  lemma ReferenceSpellsName(v: EnvVar, w: EnvVar, c: char)
    ensures RefersTo(v, w) && c in w.name ==> c in v.value
  {
    var t := Reference(w.name);
    if k, i :| 0 <= k < |w.name| && w.name[k] == c && UnescapedAt(v.value, t, i) {
      assert v.value[i..i + |t|][k + 2] == t[k + 2] == c;
    }
  }

  lemma HidingPair(a: EnvVar, b: EnvVar)
    requires a == EnvVar("A", "$$(B)$(B)", "") && b == EnvVar("B", "", "")
    ensures OneReference(a, b) && HidesReference(a, b) && !Less(b.name, a.name)
  {
    EscapedFirstHidesReference();
    ScanMissesExactly(a, b);
    ReferenceSpellsName(a, a, 'A');
    ReferenceSpellsName(b, a, 'A');
    ReferenceSpellsName(b, b, 'B');
  }

  /** A list whose sort puts A before B although A refers to B. */
  lemma HiddenReferenceComesLate(a: EnvVar, b: EnvVar, order: seq<nat>)
    requires a == EnvVar("A", "$$(B)$(B)", "") && b == EnvVar("B", "", "") && Greedy([b, a], order)
    ensures RefersTo(a, b) && |order| == 2 && Rearranged([b, a], order) == [a, b]
  {
    HidingPair(a, b);
    PairInOrderExactly(a, b, [b, a], order);
  }
}
