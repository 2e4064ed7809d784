/** Quantitative laws of `Split`: what each priority class receives, and that a class is divided
    with the least possible variance. */
module AllocationLaws {
  import opened Allocation

  function At(ps: seq<ScalePolicy>, priority: int): (r: seq<ScalePolicy>)
    ensures forall p :: p in r <==> p in ps && p.priority == priority
    ensures |r| <= |ps|
  {
    if ps == [] then []
    else if ps[0].priority == priority then [ps[0]] + At(ps[1..], priority)
    else At(ps[1..], priority)
  }

  function Above(ps: seq<ScalePolicy>, priority: int): (r: seq<ScalePolicy>)
    ensures forall p :: p in r <==> p in ps && p.priority > priority
  {
    if ps == [] then []
    else if ps[0].priority > priority then [ps[0]] + Above(ps[1..], priority)
    else Above(ps[1..], priority)
  }

  ghost function Below(ps: seq<ScalePolicy>, priority: int): (r: seq<ScalePolicy>)
    ensures forall p :: p in r <==> p in ps && p.priority < priority
  {
    if ps == [] then []
    else if ps[0].priority < priority then [ps[0]] + Below(ps[1..], priority)
    else Below(ps[1..], priority)
  }

  lemma {:induction false} AboveKeepsDistinct(ps: seq<ScalePolicy>, k: int)
    requires DistinctGroups(ps)
    ensures DistinctGroups(Above(ps, k))
  {
    if ps != [] {
      AboveKeepsDistinct(ps[1..], k);
      var rest := Above(ps[1..], k);
      forall j | 0 <= j < |rest| ensures rest[j].group != ps[0].group {
        assert rest[j] in rest;
        assert ps == [ps[0]] + ps[1..];
      }
    }
  }

  lemma {:induction false} OccursOnce(ps: seq<ScalePolicy>, p: ScalePolicy)
    requires DistinctGroups(ps)
    ensures multiset(ps)[p] == if p in ps then 1 else 0
  {
    if ps != [] {
      assert ps == [ps[0]] + ps[1..];
      OccursOnce(ps[1..], p);
    }
  }

  lemma {:induction false} DistinctSameMembers(ps: seq<ScalePolicy>, qs: seq<ScalePolicy>)
    requires DistinctGroups(ps) && DistinctGroups(qs) && forall p :: p in ps <==> p in qs
    ensures multiset(ps) == multiset(qs)
  {
    forall p ensures multiset(ps)[p] == multiset(qs)[p] {
      OccursOnce(ps, p);
      OccursOnce(qs, p);
    }
  }

  lemma AboveOfPermutation(ps: seq<ScalePolicy>, qs: seq<ScalePolicy>, k: int)
    requires DistinctGroups(ps) && DistinctGroups(qs) && forall p :: p in ps <==> p in qs
    ensures Capacity(Above(ps, k)) == Capacity(Above(qs, k))
  {
    AboveKeepsDistinct(ps, k);
    AboveKeepsDistinct(qs, k);
    DistinctSameMembers(Above(ps, k), Above(qs, k));
    SameMembers(Above(ps, k), Above(qs, k));
    SumsOfPermutation(Above(ps, k), Above(qs, k), Zeros(Above(ps, k)));
  }

  lemma {:induction false} ClassesAddUp(ps: seq<ScalePolicy>, priority: int, m: map<string, int>)
    requires GroupSet(ps) <= m.Keys
    ensures GroupSet(Above(ps, priority)) <= m.Keys && GroupSet(At(ps, priority)) <= m.Keys
    ensures GroupSet(Below(ps, priority)) <= m.Keys
    ensures Total(ps, m)
         == Total(Above(ps, priority), m) + Total(At(ps, priority), m) + Total(Below(ps, priority), m)
    ensures Capacity(ps)
         == Capacity(Above(ps, priority)) + Capacity(At(ps, priority)) + Capacity(Below(ps, priority))
  {
    if ps != [] {
      assert forall p :: p in ps[1..] ==> p in ps;
      ClassesAddUp(ps[1..], priority, m);
    }
  }

  lemma ListBounds(ps: seq<ScalePolicy>, qs: seq<ScalePolicy>, m: map<string, int>)
    requires GroupSet(ps) <= m.Keys && WithinLimits(ps, m) && forall p :: p in qs ==> p in ps
    ensures GroupSet(qs) <= m.Keys && 0 <= Total(qs, m) <= Capacity(qs)
  {
    assert forall p :: p in ps ==> 0 <= Assigned(ps, m, p) <= Limit(p);
    TotalWithinCapacity(qs, m);
  }

  /** Conservation and strict priority: a class receives what the classes above it leave, up to its
      own capacity, and nothing is lost. */
  lemma ClassReceivesWhatIsLeft(ps: seq<ScalePolicy>, total: int, priority: int)
    requires WellFormed(ps) && Split(ps, total).Some?
    ensures GroupSet(At(ps, priority)) <= Split(ps, total).value.Keys == GroupSet(ps)
    ensures Total(ps, Split(ps, total).value) == total
    ensures var share, left := Total(At(ps, priority), Split(ps, total).value), total - Capacity(Above(ps, priority));
            && (left < 0 ==> share == 0)
            && (0 <= left <= Capacity(At(ps, priority)) ==> share == left)
            && (left > Capacity(At(ps, priority)) ==> share == Capacity(At(ps, priority)))
  {
    var m := Split(ps, total).value;
    SplitIsExact(ps, total, m);
    SharesOfClasses(ps, m, priority);
  }

  lemma SharesOfClasses(ps: seq<ScalePolicy>, m: map<string, int>, priority: int)
    requires GroupSet(ps) <= m.Keys && WithinLimits(ps, m) && StrictPriority(ps, m)
    ensures GroupSet(At(ps, priority)) <= m.Keys
    ensures var left := Total(ps, m) - Capacity(Above(ps, priority));
            && (left < 0 ==> Total(At(ps, priority), m) == 0)
            && (0 <= left <= Capacity(At(ps, priority)) ==> Total(At(ps, priority), m) == left)
            && (left > Capacity(At(ps, priority)) ==> Total(At(ps, priority), m) == Capacity(At(ps, priority)))
  {
    ClassesAddUp(ps, priority, m);
    SharesOfLists(ps, m, Above(ps, priority), At(ps, priority), Below(ps, priority));
  }

  ghost predicate HigherThan(high: seq<ScalePolicy>, low: seq<ScalePolicy>) {
    forall p, q :: p in high && q in low ==> p.priority > q.priority
  }

  lemma SharesOfLists(ps: seq<ScalePolicy>, m: map<string, int>, above: seq<ScalePolicy>, at: seq<ScalePolicy>,
                      below: seq<ScalePolicy>)
    requires GroupSet(ps) <= m.Keys && WithinLimits(ps, m) && StrictPriority(ps, m)
    requires forall p :: p in above || p in at || p in below ==> p in ps
    requires HigherThan(above, at) && HigherThan(above, below) && HigherThan(at, below)
    ensures GroupSet(above) <= m.Keys && GroupSet(at) <= m.Keys && GroupSet(below) <= m.Keys
    ensures var left := Total(above, m) + Total(at, m) + Total(below, m) - Capacity(above);
            && (left < 0 ==> Total(at, m) == 0)
            && (0 <= left <= Capacity(at) ==> Total(at, m) == left)
            && (left > Capacity(at) ==> Total(at, m) == Capacity(at))
  {
    BoundsOfLists(ps, m, above, at, below);
    ListsStarve(ps, m, above, at, below);
    ListsClamp(m, above, at, below);
  }

  lemma ListsClamp(m: map<string, int>, above: seq<ScalePolicy>, at: seq<ScalePolicy>, below: seq<ScalePolicy>)
    requires GroupSet(above) <= m.Keys && GroupSet(at) <= m.Keys && GroupSet(below) <= m.Keys
    requires 0 <= Total(above, m) <= Capacity(above) && 0 <= Total(at, m) <= Capacity(at) && 0 <= Total(below, m)
    requires Total(above, m) < Capacity(above) ==> Total(at, m) == 0 && Total(below, m) == 0
    requires Total(at, m) < Capacity(at) ==> Total(below, m) == 0
    ensures var left := Total(above, m) + Total(at, m) + Total(below, m) - Capacity(above);
            && (left < 0 ==> Total(at, m) == 0)
            && (0 <= left <= Capacity(at) ==> Total(at, m) == left)
            && (left > Capacity(at) ==> Total(at, m) == Capacity(at))
  {}

  lemma BoundsOfLists(ps: seq<ScalePolicy>, m: map<string, int>, above: seq<ScalePolicy>, at: seq<ScalePolicy>,
                      below: seq<ScalePolicy>)
    requires GroupSet(ps) <= m.Keys && WithinLimits(ps, m)
    requires forall p :: p in above || p in at || p in below ==> p in ps
    ensures GroupSet(above) <= m.Keys && GroupSet(at) <= m.Keys && GroupSet(below) <= m.Keys
    ensures 0 <= Total(above, m) <= Capacity(above) && 0 <= Total(at, m) <= Capacity(at) && 0 <= Total(below, m)
  {
    ListBounds(ps, above, m);
    ListBounds(ps, at, m);
    ListBounds(ps, below, m);
  }

  lemma ListsStarve(ps: seq<ScalePolicy>, m: map<string, int>, above: seq<ScalePolicy>, at: seq<ScalePolicy>,
                    below: seq<ScalePolicy>)
    requires GroupSet(ps) <= m.Keys && WithinLimits(ps, m) && StrictPriority(ps, m)
    requires GroupSet(above) <= m.Keys && GroupSet(at) <= m.Keys && GroupSet(below) <= m.Keys
    requires forall p :: p in above || p in at || p in below ==> p in ps
    requires HigherThan(above, at) && HigherThan(above, below) && HigherThan(at, below)
    ensures Total(above, m) < Capacity(above) ==> Total(at, m) == 0 && Total(below, m) == 0
    ensures Total(at, m) < Capacity(at) ==> Total(below, m) == 0
  {
    if Total(above, m) < Capacity(above) {
      StarvedBelow(ps, m, above, at);
      StarvedBelow(ps, m, above, below);
    }
    if Total(at, m) < Capacity(at) {
      StarvedBelow(ps, m, at, below);
    }
  }

  /** If a higher list is not full, a lower list receives nothing. */
  lemma StarvedBelow(ps: seq<ScalePolicy>, m: map<string, int>, high: seq<ScalePolicy>, low: seq<ScalePolicy>)
    requires GroupSet(ps) <= m.Keys && WithinLimits(ps, m) && StrictPriority(ps, m)
    requires forall p :: p in high + low ==> p in ps
    requires GroupSet(high) <= m.Keys && GroupSet(low) <= m.Keys
    requires HigherThan(high, low)
    requires Total(high, m) < Capacity(high)
    ensures Total(low, m) == 0
  {
    assert forall p :: p in high ==> p in high + low;
    assert forall p :: p in low ==> p in high + low;
    assert forall p :: p in ps ==> 0 <= Assigned(ps, m, p) <= Limit(p);
    TotalWithinCapacity(high, m);
    TotalWithinCapacity(low, m);
    var p :| p in high && m[p.group] < Limit(p);
    forall q | q in low ensures m[q.group] == 0 {
      assert Assigned(ps, m, p) < Limit(p) && Assigned(ps, m, q) >= 0;
    }
  }

  ghost function SumOfSquares(ps: seq<ScalePolicy>, m: map<string, int>): int
    requires GroupSet(ps) <= m.Keys
  {
    if ps == [] then 0
    else Assigned(ps, m, ps[0]) * Assigned(ps, m, ps[0]) + SumOfSquares(ps[1..], m)
  }

  lemma SquareStep(x: int, y: int, level: int)
    requires x <= level + 1
    requires y > x ==> x >= level
    ensures y * y - x * x >= (2 * level + 1) * (y - x)
  {
    var d := y - x;
    assert y * y - x * x == d * (2 * x + d) by { assert y == x + d; }
    var e := 2 * (x - level) + d - 1;
    assert d * (2 * x + d) - (2 * level + 1) * d == d * e;
    if d > 0 {
      assert e >= 0;
      assert d * e >= 0;
    } else if d < 0 {
      assert e <= 0;
      assert d * e >= 0;
    } else {
      assert d * e == 0;
    }
  }

  lemma {:induction false} SquaresAboveLevel(ps: seq<ScalePolicy>, m: map<string, int>, n: map<string, int>, level: int)
    requires GroupSet(ps) <= m.Keys && GroupSet(ps) <= n.Keys
    requires forall p :: p in ps ==> m[p.group] <= level + 1 && n[p.group] <= Limit(p)
    requires forall p :: p in ps && m[p.group] < Limit(p) ==> m[p.group] >= level
    ensures SumOfSquares(ps, n) - SumOfSquares(ps, m) >= (2 * level + 1) * (Total(ps, n) - Total(ps, m))
  {
    if ps != [] {
      var x, y := m[ps[0].group], n[ps[0].group];
      assert ps[0] in ps && forall p :: p in ps[1..] ==> p in ps;
      SquaresAboveLevel(ps[1..], m, n, level);
      SquareStep(x, y, level);
      var rest := Total(ps[1..], n) - Total(ps[1..], m);
      assert (2 * level + 1) * (y - x + rest) == (2 * level + 1) * (y - x) + (2 * level + 1) * rest;
    }
  }

  lemma {:induction false} LargestShare(ps: seq<ScalePolicy>, m: map<string, int>) returns (top: ScalePolicy)
    requires GroupSet(ps) <= m.Keys && ps != []
    ensures top in ps && forall p :: p in ps ==> m[p.group] <= m[top.group]
  {
    top := ps[0];
    assert ps[0] in ps && forall p :: p in ps[1..] ==> p in ps;
    if ps[1..] != [] {
      var other := LargestShare(ps[1..], m);
      if m[other.group] > m[top.group] { top := other; }
    }
  }

  /** RFC 0004 asks that groups of one priority get replicas of minimal variance: every other way
      to divide the class's share within the limits has at least the same sum of squares. */
  lemma ClassHasLeastVariance(ps: seq<ScalePolicy>, total: int, priority: int, n: map<string, int>)
    requires WellFormed(ps) && Split(ps, total).Some?
    requires GroupSet(At(ps, priority)) <= n.Keys
    requires forall p :: p in At(ps, priority) ==> 0 <= n[p.group] <= Limit(p)
    requires GroupSet(At(ps, priority)) <= Split(ps, total).value.Keys
    requires Total(At(ps, priority), n) == Total(At(ps, priority), Split(ps, total).value)
    ensures SumOfSquares(At(ps, priority), Split(ps, total).value) <= SumOfSquares(At(ps, priority), n)
  {
    var m, class_ := Split(ps, total).value, At(ps, priority);
    if class_ != [] {
      var top := LargestShare(class_, m);
      forall p | p in class_ && m[p.group] < Limit(p) ensures m[p.group] >= m[top.group] - 1 {
        SplitIsFair(ps, total, p, top);
      }
      SquaresAboveLevel(class_, m, n, m[top.group] - 1);
    }
  }
}
