/** The meaning of a scale view's split of its total over its groups, apart from how it is computed.
    `IsSplit` says which maps are right, `Split` builds the one right map by handing out one replica
    at a time, and the lemmas state what the design promises of it. */
module Allocation {
  import opened Lex
  import opened Integers

  datatype ScalePolicy = ScalePolicy(group: string, priority: int, maxReplicas: Option<int>)

  function Limit(p: ScalePolicy): int {
    if p.maxReplicas.None? then MAX_INT32 else p.maxReplicas.value
  }

  /** The API server keeps `scalePolicy` a list-map keyed by group. */
  ghost predicate DistinctGroups(ps: seq<ScalePolicy>) {
    forall i, j :: 0 <= i < j < |ps| ==> ps[i].group != ps[j].group
  }

  ghost predicate NonNegativeLimits(ps: seq<ScalePolicy>) {
    forall p :: p in ps ==> Limit(p) >= 0
  }

  ghost predicate WellFormed(ps: seq<ScalePolicy>) {
    DistinctGroups(ps) && NonNegativeLimits(ps)
  }

  ghost function GroupSet(ps: seq<ScalePolicy>): set<string> {
    set p | p in ps :: p.group
  }

  /** The order in which groups of one priority are served: (maxReplicas, group). */
  predicate Before(p: ScalePolicy, q: ScalePolicy) {
    Limit(p) < Limit(q) || (Limit(p) == Limit(q) && Less(p.group, q.group))
  }

  ghost function Capacity(ps: seq<ScalePolicy>): int {
    if ps == [] then 0 else Limit(ps[0]) + Capacity(ps[1..])
  }

  ghost function Total(ps: seq<ScalePolicy>, m: map<string, int>): int
    requires GroupSet(ps) <= m.Keys
  {
    if ps == [] then 0 else Assigned(ps, m, ps[0]) + Total(ps[1..], m)
  }

  ghost function Assigned(ps: seq<ScalePolicy>, m: map<string, int>, p: ScalePolicy): int
    requires p in ps && GroupSet(ps) <= m.Keys
  {
    assert p.group in GroupSet(ps);
    m[p.group]
  }

  ghost predicate WithinLimits(ps: seq<ScalePolicy>, m: map<string, int>)
    requires GroupSet(ps) <= m.Keys
  {
    forall p :: p in ps ==> 0 <= Assigned(ps, m, p) <= Limit(p)
  }

  /** A group gets something only if every group of higher priority is full. */
  ghost predicate StrictPriority(ps: seq<ScalePolicy>, m: map<string, int>)
    requires GroupSet(ps) <= m.Keys
  {
    forall p, q :: p in ps && q in ps && p.priority > q.priority && Assigned(ps, m, q) > 0
      ==> Assigned(ps, m, p) == Limit(p)
  }

  /** Inside a class nobody gets less than a group served later unless it is full, and nobody is
      more than one ahead of a group served later. */
  ghost predicate EvenInClass(ps: seq<ScalePolicy>, m: map<string, int>)
    requires GroupSet(ps) <= m.Keys
  {
    forall p, q :: p in ps && q in ps && p.priority == q.priority && Before(p, q)
      ==> (Assigned(ps, m, p) < Assigned(ps, m, q) ==> Assigned(ps, m, p) == Limit(p))
          && Assigned(ps, m, p) <= Assigned(ps, m, q) + 1
  }

  ghost predicate IsSplit(ps: seq<ScalePolicy>, total: int, m: map<string, int>) {
    && m.Keys == GroupSet(ps)
    && WithinLimits(ps, m)
    && StrictPriority(ps, m)
    && EvenInClass(ps, m)
    && Total(ps, m) == total
  }

  // ---- Sums over a policy list ----

  lemma {:induction false} SumsAreMonotone(ps: seq<ScalePolicy>, m: map<string, int>, n: map<string, int>)
    requires GroupSet(ps) <= m.Keys && GroupSet(ps) <= n.Keys
    requires forall p :: p in ps ==> m[p.group] <= n[p.group]
    ensures Total(ps, m) <= Total(ps, n)
    ensures (exists p :: p in ps && m[p.group] < n[p.group]) ==> Total(ps, m) < Total(ps, n)
  {
    if ps != [] {
      assert ps[0] in ps && forall p :: p in ps[1..] ==> p in ps;
      SumsAreMonotone(ps[1..], m, n);
      if p :| p in ps && m[p.group] < n[p.group] {
        if p != ps[0] { assert p in ps[1..]; }
      }
    }
  }

  lemma {:induction false} TotalWithinCapacity(ps: seq<ScalePolicy>, m: map<string, int>)
    requires GroupSet(ps) <= m.Keys
    requires forall p :: p in ps ==> 0 <= m[p.group] <= Limit(p)
    ensures 0 <= Total(ps, m) <= Capacity(ps)
    ensures (exists p :: p in ps && m[p.group] < Limit(p)) <==> Total(ps, m) < Capacity(ps)
    ensures (exists p :: p in ps && m[p.group] > 0) <==> Total(ps, m) > 0
  {
    if ps != [] {
      assert ps[0] in ps && forall p :: p in ps[1..] ==> p in ps;
      assert forall p :: p in ps ==> p == ps[0] || p in ps[1..];
      TotalWithinCapacity(ps[1..], m);
    }
  }

  lemma {:induction false} TotalFrame(ps: seq<ScalePolicy>, m: map<string, int>, n: map<string, int>)
    requires GroupSet(ps) <= m.Keys && GroupSet(ps) <= n.Keys
    requires forall p :: p in ps ==> m[p.group] == n[p.group]
    ensures Total(ps, m) == Total(ps, n)
  {
    if ps != [] {
      assert ps[0] in ps && forall p :: p in ps[1..] ==> p in ps;
      TotalFrame(ps[1..], m, n);
    }
  }

  lemma {:induction false} TotalOfRaise(ps: seq<ScalePolicy>, m: map<string, int>, p: ScalePolicy)
    requires DistinctGroups(ps) && GroupSet(ps) <= m.Keys && p in ps
    ensures Total(ps, m[p.group := m[p.group] + 1]) == Total(ps, m) + 1
  {
    var n := m[p.group := m[p.group] + 1];
    assert ps == [ps[0]] + ps[1..];
    if p == ps[0] {
      TotalFrame(ps[1..], m, n);
    } else {
      assert p in ps[1..] && ps[0].group != p.group;
      TotalOfRaise(ps[1..], m, p);
    }
  }

  lemma {:induction false} TotalSplitAt(ps: seq<ScalePolicy>, k: nat, m: map<string, int>)
    requires k < |ps| && GroupSet(ps) <= m.Keys
    ensures var rest := ps[..k] + ps[k + 1..];
            GroupSet(rest) <= m.Keys && Total(ps, m) == m[ps[k].group] + Total(rest, m)
    ensures Capacity(ps) == Limit(ps[k]) + Capacity(ps[..k] + ps[k + 1..])
  {
    var rest := ps[..k] + ps[k + 1..];
    assert forall p :: p in rest ==> p in ps;
    assert ps[k] in ps;
    if k == 0 {
      assert rest == ps[1..];
    } else {
      TotalSplitAt(ps[1..], k - 1, m);
      assert ps[1..][..k - 1] + ps[1..][k..] == rest[1..];
      assert rest[0] == ps[0];
    }
  }

  lemma PermutationRest(ps: seq<ScalePolicy>, qs: seq<ScalePolicy>) returns (k: nat)
    requires multiset(ps) == multiset(qs) && ps != []
    ensures k < |qs| && qs[k] == ps[0]
    ensures multiset(ps[1..]) == multiset(qs[..k] + qs[k + 1..])
  {
    assert ps[0] in multiset(qs);
    k :| 0 <= k < |qs| && qs[k] == ps[0];
    assert ps == [ps[0]] + ps[1..];
    assert qs == qs[..k] + [qs[k]] + qs[k + 1..];
    assert multiset(ps) == multiset{ps[0]} + multiset(ps[1..]);
    assert multiset(qs) == multiset(qs[..k]) + multiset{ps[0]} + multiset(qs[k + 1..]);
    assert multiset(ps[1..]) == multiset(ps) - multiset{ps[0]};
    assert multiset(qs[..k]) + multiset(qs[k + 1..]) == multiset(qs) - multiset{ps[0]};
  }

  lemma SameMembers(ps: seq<ScalePolicy>, qs: seq<ScalePolicy>)
    requires multiset(ps) == multiset(qs)
    ensures forall p :: p in ps <==> p in qs
    ensures GroupSet(ps) == GroupSet(qs)
    ensures ps == [] ==> qs == []
  {
    assert forall p :: p in ps <==> p in multiset(ps);
    assert forall p :: p in qs <==> p in multiset(qs);
    if qs != [] { assert qs[0] in multiset(qs); }
  }

  /** Sums do not depend on the order of the list. */
  lemma {:induction false} SumsOfPermutation(ps: seq<ScalePolicy>, qs: seq<ScalePolicy>, m: map<string, int>)
    requires multiset(ps) == multiset(qs)
    requires GroupSet(ps) <= m.Keys && GroupSet(qs) <= m.Keys
    ensures Total(ps, m) == Total(qs, m)
    ensures Capacity(ps) == Capacity(qs)
    decreases |ps|
  {
    SameMembers(ps, qs);
    if ps != [] {
      var k := PermutationRest(ps, qs);
      TotalSplitAt(qs, k, m);
      SumsOfPermutation(ps[1..], qs[..k] + qs[k + 1..], m);
    }
  }

  // ---- There is at most one right answer ----

  /** The five clauses of `IsSplit` pin the map down. */
  lemma SplitIsUnique(ps: seq<ScalePolicy>, total: int, m: map<string, int>, n: map<string, int>)
    requires DistinctGroups(ps)
    requires IsSplit(ps, total, m) && IsSplit(ps, total, n)
    ensures m == n
  {
    forall p | p in ps ensures m[p.group] == n[p.group] {
      if m[p.group] < n[p.group] {
        var q := SomeoneGetsMore(ps, m, n, p);
        NoTrade(ps, m, n, p, q);
        assert false;
      } else if n[p.group] < m[p.group] {
        var q := SomeoneGetsMore(ps, n, m, p);
        NoTrade(ps, n, m, p, q);
        assert false;
      }
    }
  }

  lemma SomeoneGetsMore(ps: seq<ScalePolicy>, m: map<string, int>, n: map<string, int>, p: ScalePolicy)
    returns (q: ScalePolicy)
    requires GroupSet(ps) <= m.Keys && GroupSet(ps) <= n.Keys
    requires Total(ps, m) == Total(ps, n) && p in ps && m[p.group] < n[p.group]
    ensures q in ps && m[q.group] > n[q.group]
  {
    if forall r :: r in ps ==> m[r.group] <= n[r.group] {
      SumsAreMonotone(ps, m, n);
      assert false;
    }
    q :| q in ps && m[q.group] > n[q.group];
  }

  lemma NoTrade(ps: seq<ScalePolicy>, m: map<string, int>, n: map<string, int>, p: ScalePolicy, q: ScalePolicy)
    requires DistinctGroups(ps) && p in ps && q in ps
    requires GroupSet(ps) <= m.Keys && GroupSet(ps) <= n.Keys
    requires WithinLimits(ps, m) && StrictPriority(ps, m) && EvenInClass(ps, m)
    requires WithinLimits(ps, n) && StrictPriority(ps, n) && EvenInClass(ps, n)
    requires m[p.group] < n[p.group]
    ensures m[q.group] <= n[q.group]
  {
    assert Assigned(ps, m, p) < Assigned(ps, n, p) <= Limit(p);
    assert Assigned(ps, m, q) <= Limit(q) && Assigned(ps, n, q) <= Limit(q);
    LessTotal(p.group, q.group);
    assert p.group == q.group || p.priority != q.priority || Before(p, q) || Before(q, p);
  }

  // ---- The reference: one replica at a time ----

  /** `p` is offered the next replica before `q`. */
  predicate Preferred(m: map<string, int>, p: ScalePolicy, q: ScalePolicy)
    requires p.group in m && q.group in m
  {
    || p.priority > q.priority
    || (p.priority == q.priority && m[p.group] < m[q.group])
    || (p.priority == q.priority && m[p.group] == m[q.group] && Before(p, q))
  }

  predicate Full(m: map<string, int>, p: ScalePolicy)
    requires p.group in m
  {
    m[p.group] >= Limit(p)
  }

  lemma PreferredIsTransitive(m: map<string, int>, p: ScalePolicy, q: ScalePolicy, r: ScalePolicy)
    requires p.group in m && q.group in m && r.group in m
    requires Preferred(m, p, q) && Preferred(m, q, r)
    ensures Preferred(m, p, r)
  {
    if Less(p.group, q.group) && Less(q.group, r.group) { LessTransitive(p.group, q.group, r.group); }
  }

  lemma PreferredIsTotal(m: map<string, int>, p: ScalePolicy, q: ScalePolicy)
    requires p.group in m && q.group in m && p.group != q.group
    ensures Preferred(m, p, q) != Preferred(m, q, p)
  {
    LessTotal(p.group, q.group);
    if Less(p.group, q.group) { LessAsymmetric(p.group, q.group); } else { LessAsymmetric(q.group, p.group); }
  }

  /** The group that gets the next replica: the preferred one among those that are not full. */
  function Pick(ps: seq<ScalePolicy>, m: map<string, int>): (r: Option<ScalePolicy>)
    requires forall p :: p in ps ==> p.group in m
    ensures r.Some? ==> r.value in ps && !Full(m, r.value)
    ensures r.None? ==> forall p :: p in ps ==> Full(m, p)
  {
    if ps == [] then None
    else
      var r := Pick(ps[1..], m);
      if Full(m, ps[0]) then r
      else if r.Some? && Preferred(m, r.value, ps[0]) then r
      else Some(ps[0])
  }

  lemma {:induction false} PickIsPreferred(ps: seq<ScalePolicy>, m: map<string, int>, q: ScalePolicy)
    requires DistinctGroups(ps) && forall p :: p in ps ==> p.group in m
    requires q in ps && !Full(m, q)
    ensures Pick(ps, m).Some? && (Pick(ps, m).value == q || Preferred(m, Pick(ps, m).value, q))
  {
    var r := Pick(ps[1..], m);
    assert ps == [ps[0]] + ps[1..];
    if q in ps[1..] {
      PickIsPreferred(ps[1..], m, q);
      if !Full(m, ps[0]) && !Preferred(m, r.value, ps[0]) {
        assert r.value in ps[1..] && ps[0].group != r.value.group;
        PreferredIsTotal(m, r.value, ps[0]);
        if r.value != q { PreferredIsTransitive(m, ps[0], r.value, q); }
      }
    }
  }

  ghost function Zeros(ps: seq<ScalePolicy>): map<string, int> {
    map g | g in GroupSet(ps) :: 0
  }

  ghost function HandOut(ps: seq<ScalePolicy>, total: nat): (m: map<string, int>)
    ensures m.Keys == GroupSet(ps)
  {
    if total == 0 then Zeros(ps)
    else
      var m := HandOut(ps, total - 1);
      assert forall p :: p in ps ==> p.group in GroupSet(ps);
      match Pick(ps, m)
      case None => m
      case Some(p) => m[p.group := m[p.group] + 1]
  }

  /** What `SplitReplicas` returns; `None` is its panic. */
  ghost function Split(ps: seq<ScalePolicy>, total: int): Option<map<string, int>> {
    if 0 <= total <= Capacity(ps) then Some(HandOut(ps, total)) else None
  }

  lemma {:induction false} ZerosTotal(ps: seq<ScalePolicy>, m: map<string, int>)
    requires GroupSet(ps) <= m.Keys && forall p :: p in ps ==> m[p.group] == 0
    ensures Total(ps, m) == 0
  {
    if ps != [] {
      assert ps[0] in ps && forall p :: p in ps[1..] ==> p in ps;
      ZerosTotal(ps[1..], m);
    }
  }

  lemma RaiseKeepsClasses(ps: seq<ScalePolicy>, m: map<string, int>, p: ScalePolicy)
    requires DistinctGroups(ps) && m.Keys == GroupSet(ps) && p in ps && !Full(m, p)
    requires forall q :: q in ps && !Full(m, q) ==> q == p || Preferred(m, p, q)
    requires WithinLimits(ps, m) && StrictPriority(ps, m) && EvenInClass(ps, m)
    ensures var n := m[p.group := m[p.group] + 1];
            n.Keys == GroupSet(ps) && WithinLimits(ps, n) && StrictPriority(ps, n) && EvenInClass(ps, n)
  {
    var n := m[p.group := m[p.group] + 1];
    assert p.group in GroupSet(ps);
    assert n.Keys == GroupSet(ps);
    assert forall q :: q in ps && q != p ==> q.group != p.group;
    forall q, r | q in ps && r in ps && q.priority > r.priority && Assigned(ps, n, r) > 0
      ensures Assigned(ps, n, q) == Limit(q)
    {
      assert 0 <= Assigned(ps, m, q) <= Limit(q);
      assert r != p ==> Assigned(ps, m, r) > 0;
    }
    forall q, r | q in ps && r in ps && q.priority == r.priority && Before(q, r)
      ensures Assigned(ps, n, q) < Assigned(ps, n, r) ==> Assigned(ps, n, q) == Limit(q)
      ensures Assigned(ps, n, q) <= Assigned(ps, n, r) + 1
    {
      assert Assigned(ps, m, q) <= Limit(q) && Assigned(ps, m, r) <= Limit(r);
      LessIrreflexive(q.group);
      assert q != r;
      PreferredIsTotal(m, q, r);
      assert Limit(q) <= Limit(r);
    }
  }

  lemma PickBelowCapacity(ps: seq<ScalePolicy>, m: map<string, int>)
    requires DistinctGroups(ps) && GroupSet(ps) <= m.Keys
    requires WithinLimits(ps, m) && Total(ps, m) < Capacity(ps)
    ensures forall p :: p in ps ==> p.group in m
    ensures Pick(ps, m).Some? && IsNext(ps, m, Pick(ps, m).value)
  {
    assert forall p :: p in ps ==> 0 <= Assigned(ps, m, p) <= Limit(p);
    assert forall p :: p in ps ==> p.group in m;
    TotalWithinCapacity(ps, m);
    assert !forall p :: p in ps ==> Full(m, p);
    forall q | q in ps && !Full(m, q) ensures q == Pick(ps, m).value || Preferred(m, Pick(ps, m).value, q) {
      PickIsPreferred(ps, m, q);
    }
  }

  ghost predicate IsNext(ps: seq<ScalePolicy>, m: map<string, int>, p: ScalePolicy)
    requires GroupSet(ps) <= m.Keys
  {
    p in ps && p.group in m && !Full(m, p)
    && forall q :: q in ps && q.group in m && !Full(m, q) ==> q == p || Preferred(m, p, q)
  }

  lemma RaiseKeepsSplit(ps: seq<ScalePolicy>, total: int, m: map<string, int>, p: ScalePolicy)
    requires DistinctGroups(ps) && IsSplit(ps, total, m) && IsNext(ps, m, p)
    ensures IsSplit(ps, total + 1, m[p.group := m[p.group] + 1])
  {
    RaiseKeepsClasses(ps, m, p);
    TotalOfRaise(ps, m, p);
  }

  lemma ZerosIsSplit(ps: seq<ScalePolicy>)
    requires WellFormed(ps)
    ensures IsSplit(ps, 0, HandOut(ps, 0))
  {
    assert forall p :: p in ps ==> p.group in GroupSet(ps);
    ZerosTotal(ps, Zeros(ps));
  }

  lemma NextIsSplit(ps: seq<ScalePolicy>, total: int, m: map<string, int>, p: ScalePolicy)
    requires DistinctGroups(ps) && IsSplit(ps, total, m) && total < Capacity(ps)
    requires (forall q :: q in ps ==> q.group in m) && Pick(ps, m) == Some(p)
    ensures IsSplit(ps, total + 1, m[p.group := m[p.group] + 1])
  {
    PickBelowCapacity(ps, m);
    RaiseKeepsSplit(ps, total, m, p);
  }

  lemma HandOutStep(ps: seq<ScalePolicy>, total: nat, next: nat, m: map<string, int>, n: map<string, int>)
    requires DistinctGroups(ps) && next == total + 1 <= Capacity(ps) && IsSplit(ps, total, m)
    requires m == HandOut(ps, total) && n == HandOut(ps, next)
    ensures IsSplit(ps, next, n)
  {
    SomeoneIsNext(ps, total, m);
    NextOf(ps, total, m, n);
    RaisedIsSplit(ps, total, m, n);
  }

  lemma NextOf(ps: seq<ScalePolicy>, total: nat, m: map<string, int>, n: map<string, int>)
    requires m == HandOut(ps, total) && n == HandOut(ps, total + 1)
    ensures forall p :: p in ps ==> p.group in m
    ensures var r := Pick(ps, m); r.Some? ==> n == m[r.value.group := m[r.value.group] + 1]
  {
    HandOutNext(ps, total);
  }

  lemma RaisedIsSplit(ps: seq<ScalePolicy>, total: int, m: map<string, int>, n: map<string, int>)
    requires DistinctGroups(ps) && total < Capacity(ps) && IsSplit(ps, total, m)
    requires forall p :: p in ps ==> p.group in m
    requires var r := Pick(ps, m); r.Some? ==> n == m[r.value.group := m[r.value.group] + 1]
    ensures IsSplit(ps, total + 1, n)
  {
    SomeoneIsNext(ps, total, m);
    NextIsSplit(ps, total, m, Pick(ps, m).value);
  }

  lemma NextHandOutIsSplit(ps: seq<ScalePolicy>, total: nat)
    requires DistinctGroups(ps) && total < Capacity(ps) && IsSplit(ps, total, HandOut(ps, total))
    ensures IsSplit(ps, total + 1, HandOut(ps, total + 1))
  {
    HandOutStep(ps, total, total + 1, HandOut(ps, total), HandOut(ps, total + 1));
  }

  lemma HandOutIsSplit(ps: seq<ScalePolicy>, total: nat)
    requires WellFormed(ps) && total <= Capacity(ps)
    ensures IsSplit(ps, total, HandOut(ps, total))
  {
    ZerosIsSplit(ps);
    for k := 0 to total
      invariant IsSplit(ps, k, HandOut(ps, k))
    {
      NextHandOutIsSplit(ps, k);
    }
  }

  // ---- What the design promises ----

  /** `IsSplit` is exactly `Split`, and the panic happens exactly when the total is negative or
      above the capacity. */
  lemma SplitIsExact(ps: seq<ScalePolicy>, total: int, m: map<string, int>)
    requires WellFormed(ps)
    ensures Split(ps, total) == Some(m) <==> IsSplit(ps, total, m)
    ensures Split(ps, total).None? <==> total < 0 || total > Capacity(ps)
  {
    if 0 <= total <= Capacity(ps) {
      HandOutIsSplit(ps, total);
      if IsSplit(ps, total, m) { SplitIsUnique(ps, total, m, HandOut(ps, total)); }
    } else if IsSplit(ps, total, m) {
      assert forall p :: p in ps ==> 0 <= Assigned(ps, m, p) <= Limit(p);
      TotalWithinCapacity(ps, m);
    }
  }

  lemma HandOutNext(ps: seq<ScalePolicy>, total: nat)
    ensures forall p :: p in ps ==> p.group in HandOut(ps, total)
    ensures var m, r := HandOut(ps, total), Pick(ps, HandOut(ps, total));
            r.Some? ==> HandOut(ps, total + 1) == m[r.value.group := m[r.value.group] + 1]
  {
    forall p | p in ps ensures p.group in HandOut(ps, total) { assert p.group in GroupSet(ps); }
  }

  lemma SomeoneIsNext(ps: seq<ScalePolicy>, total: int, m: map<string, int>)
    requires DistinctGroups(ps) && IsSplit(ps, total, m) && total < Capacity(ps)
    ensures (forall p :: p in ps ==> p.group in m) && Pick(ps, m).Some?
  {
    PickBelowCapacity(ps, m);
  }

  ghost predicate OneMore(m: map<string, int>, n: map<string, int>) {
    exists g :: RaisedAt(m, n, g)
  }

  ghost predicate RaisedAt(m: map<string, int>, n: map<string, int>, g: string) {
    g in m && n == m[g := m[g] + 1]
  }

  lemma SomeoneIsPicked(ps: seq<ScalePolicy>, total: nat)
    requires WellFormed(ps) && total < Capacity(ps)
    ensures (forall p :: p in ps ==> p.group in HandOut(ps, total)) && Pick(ps, HandOut(ps, total)).Some?
  {
    HandOutIsSplit(ps, total);
    SomeoneIsNext(ps, total, HandOut(ps, total));
  }

  lemma HandOutRises(ps: seq<ScalePolicy>, total: nat)
    requires WellFormed(ps) && total < Capacity(ps)
    ensures OneMore(HandOut(ps, total), HandOut(ps, total + 1))
  {
    SomeoneIsPicked(ps, total);
    HandOutNext(ps, total);
    var g := Pick(ps, HandOut(ps, total)).value.group;
    assert RaisedAt(HandOut(ps, total), HandOut(ps, total + 1), g);
  }

  /** One more replica raises exactly one group by one and lowers none. */
  lemma SplitIsMonotone(ps: seq<ScalePolicy>, total: int)
    requires WellFormed(ps) && 0 <= total < Capacity(ps)
    ensures Split(ps, total).Some? && Split(ps, total + 1).Some?
    ensures OneMore(Split(ps, total).value, Split(ps, total + 1).value)
  {
    HandOutRises(ps, total);
  }

  /** The result depends only on which policies there are, not on their order. */
  lemma SplitIsStable(ps: seq<ScalePolicy>, qs: seq<ScalePolicy>, total: int)
    requires WellFormed(ps) && multiset(ps) == multiset(qs)
    requires DistinctGroups(qs)
    ensures Split(ps, total) == Split(qs, total)
  {
    SameMembers(ps, qs);
    if Split(ps, total).Some? {
      var m := Split(ps, total).value;
      SplitIsExact(ps, total, m);
      SumsOfPermutation(ps, qs, m);
      assert forall p :: p in qs ==> 0 <= Assigned(ps, m, p) <= Limit(p) && Assigned(qs, m, p) == Assigned(ps, m, p);
      assert IsSplit(qs, total, m);
      SplitIsExact(qs, total, m);
    } else {
      SumsOfPermutation(ps, qs, Zeros(ps));
    }
  }

  /** Max-min fairness: of two groups of one priority, the one that trails by two is full. */
  lemma SplitIsFair(ps: seq<ScalePolicy>, total: int, p: ScalePolicy, q: ScalePolicy)
    requires WellFormed(ps) && Split(ps, total).Some?
    requires p in ps && q in ps && p.priority == q.priority
    ensures p.group in Split(ps, total).value && q.group in Split(ps, total).value
    ensures var m := Split(ps, total).value; m[p.group] + 2 <= m[q.group] ==> m[p.group] == Limit(p)
  {
    var m := Split(ps, total).value;
    SplitIsExact(ps, total, m);
    assert Assigned(ps, m, p) == m[p.group] && Assigned(ps, m, q) == m[q.group];
    LessTotal(p.group, q.group);
    assert p.group == q.group || Before(p, q) || Before(q, p);
  }

  /** A group on its own gets the whole total, up to its maximum, or up to the largest int32 if it has none. */
  lemma LoneGroupTakesAll(p: ScalePolicy, total: int)
    requires p.maxReplicas.Some? ==> p.maxReplicas.value >= 0
    ensures var most := if p.maxReplicas.Some? then p.maxReplicas.value else 0x7FFF_FFFF;
            Split([p], total) == if 0 <= total <= most then Some(map[p.group := total]) else None
  {
    var m := map[p.group := total];
    assert p in [p] && p.group in GroupSet([p]);
    assert Total([p][1..], m) == 0 && Capacity([p][1..]) == 0;
    SplitIsExact([p], total, m);
    if 0 <= total <= Limit(p) {
      LessIrreflexive(p.group);
      assert IsSplit([p], total, m);
    }
  }

  lemma TieBetween(ps: seq<ScalePolicy>, m: map<string, int>, p: ScalePolicy, q: ScalePolicy)
    requires GroupSet(ps) <= m.Keys && EvenInClass(ps, m)
    requires p in ps && q in ps && p.priority == q.priority
    requires Assigned(ps, m, q) <= Limit(q) || Assigned(ps, m, q) == Assigned(ps, m, p)
    ensures p.group in m && q.group in m
    ensures Limit(p) == Limit(q) && Less(p.group, q.group) ==> m[q.group] <= m[p.group] <= m[q.group] + 1
    ensures Limit(p) < Limit(q)
            ==> m[p.group] <= m[q.group] + 1 && (m[p.group] < m[q.group] ==> m[p.group] == Limit(p))
  {
    assert Assigned(ps, m, p) == m[p.group] && Assigned(ps, m, q) == m[q.group];
  }

  /** A group gets something only if every group of higher priority has its limit. */
  lemma SplitServesHigherFirst(ps: seq<ScalePolicy>, total: int, p: ScalePolicy, q: ScalePolicy)
    requires WellFormed(ps) && Split(ps, total).Some? && p in ps && q in ps
    ensures p.group in Split(ps, total).value && q.group in Split(ps, total).value
    ensures var m := Split(ps, total).value; p.priority > q.priority && m[q.group] > 0 ==> m[p.group] == Limit(p)
    ensures 0 <= Split(ps, total).value[p.group] <= Limit(p)
  {
    var m := Split(ps, total).value;
    SplitIsExact(ps, total, m);
    assert Assigned(ps, m, p) == m[p.group] && Assigned(ps, m, q) == m[q.group];
  }

  /** Inside a class the smaller limit, and of equal limits the smaller name, comes first: it gets as much as the
      other or one more, or is full. */
  lemma SplitBreaksTies(ps: seq<ScalePolicy>, total: int, p: ScalePolicy, q: ScalePolicy)
    requires WellFormed(ps) && Split(ps, total).Some?
    requires p in ps && q in ps && p.priority == q.priority
    ensures p.group in Split(ps, total).value && q.group in Split(ps, total).value
    ensures var m := Split(ps, total).value;
            Limit(p) == Limit(q) && Less(p.group, q.group) ==> m[q.group] <= m[p.group] <= m[q.group] + 1
    ensures var m := Split(ps, total).value;
            Limit(p) < Limit(q)
            ==> m[p.group] <= m[q.group] + 1 && (m[p.group] < m[q.group] ==> m[p.group] == Limit(p))
  {
    var m := Split(ps, total).value;
    SplitIsExact(ps, total, m);
    TieBetween(ps, m, p, q);
  }
}
