/** The split for limits of any sign. A negative limit is a debt: its group is given the negative number
    when its class is served, and the others share what that adds to the total. Without negative limits
    this is `Allocation.Split`. */
module SignedAllocation {
  import opened Lex
  import opened Integers
  import opened Allocation
  import opened AllocationLaws

  /** Some of the classes, taken from the top, have room for the total. */
  ghost predicate Reaches(ps: seq<ScalePolicy>, total: int) {
    exists t :: Capacity(Above(ps, t)) >= total
  }

  /** However many of the classes above one takes from the top, they leave something. */
  ghost predicate Served(ps: seq<ScalePolicy>, total: int, priority: int) {
    forall t :: t >= priority ==> Capacity(Above(ps, t)) < total
  }

  /** What a group may have: nothing if its class is not served, else its limit if that is negative and
      up to its limit if not. */
  ghost predicate Allowed(ps: seq<ScalePolicy>, total: int, p: ScalePolicy, x: int) {
    && (!Served(ps, total, p.priority) ==> x == 0)
    && (Served(ps, total, p.priority) ==> if Limit(p) < 0 then x == Limit(p) else 0 <= x <= Limit(p))
  }

  ghost predicate AllAllowed(ps: seq<ScalePolicy>, total: int, done: seq<ScalePolicy>, m: map<string, int>)
    requires GroupSet(done) <= m.Keys
  {
    forall p :: p in done ==> Allowed(ps, total, p, Assigned(done, m, p))
  }

  ghost predicate IsSignedSplit(ps: seq<ScalePolicy>, total: int, m: map<string, int>) {
    && m.Keys == GroupSet(ps)
    && AllAllowed(ps, total, ps, m)
    && StrictPriority(ps, m)
    && EvenInClass(ps, m)
    && Total(ps, m) == total
  }

  // ---- At most one ----

  lemma SignedSplitIsUnique(ps: seq<ScalePolicy>, total: int, m: map<string, int>, n: map<string, int>)
    requires DistinctGroups(ps) && IsSignedSplit(ps, total, m) && IsSignedSplit(ps, total, n)
    ensures m == n
  {
    forall p | p in ps ensures m[p.group] == n[p.group] {
      if m[p.group] < n[p.group] {
        var q := SomeoneGetsMore(ps, m, n, p);
        NoSignedTrade(ps, total, m, n, p, q);
        assert false;
      } else if n[p.group] < m[p.group] {
        var q := SomeoneGetsMore(ps, n, m, p);
        NoSignedTrade(ps, total, n, m, p, q);
        assert false;
      }
    }
  }

  lemma NoSignedTrade(ps: seq<ScalePolicy>, total: int, m: map<string, int>, n: map<string, int>, p: ScalePolicy,
                      q: ScalePolicy)
    requires DistinctGroups(ps) && p in ps && q in ps
    requires GroupSet(ps) <= m.Keys && GroupSet(ps) <= n.Keys
    requires AllAllowed(ps, total, ps, m) && StrictPriority(ps, m) && EvenInClass(ps, m)
    requires AllAllowed(ps, total, ps, n) && StrictPriority(ps, n) && EvenInClass(ps, n)
    requires m[p.group] < n[p.group]
    ensures m[q.group] <= n[q.group]
  {
    assert Allowed(ps, total, p, Assigned(ps, m, p)) && Allowed(ps, total, p, Assigned(ps, n, p));
    assert Allowed(ps, total, q, Assigned(ps, m, q)) && Allowed(ps, total, q, Assigned(ps, n, q));
    LessTotal(p.group, q.group);
    assert p.group == q.group || p.priority != q.priority || Before(p, q) || Before(q, p);
  }

  // ---- At least one ----

  /** Of the policies above `t`, those with a limit that is not negative. */
  ghost function Sharers(ps: seq<ScalePolicy>, t: int): (r: seq<ScalePolicy>)
    ensures forall p :: p in r <==> p in ps && IsSharer(p, t)
  {
    if ps == [] then []
    else if IsSharer(ps[0], t) then [ps[0]] + Sharers(ps[1..], t)
    else Sharers(ps[1..], t)
  }

  predicate IsSharer(p: ScalePolicy, t: int) {
    p.priority > t && Limit(p) >= 0
  }

  /** The negative limits above `t`. */
  function DebtOf(p: ScalePolicy, t: int): int {
    if p.priority > t && Limit(p) < 0 then Limit(p) else 0
  }

  function Debts(ps: seq<ScalePolicy>, t: int): (r: int)
    ensures r <= 0
  {
    if ps == [] then 0 else DebtOf(ps[0], t) + Debts(ps[1..], t)
  }

  /** The debts, and `n` for those who share. */
  ghost function WithDebts(ps: seq<ScalePolicy>, t: int, n: map<string, int>): (m: map<string, int>)
    ensures m.Keys == GroupSet(ps)
  {
    if ps == [] then map[]
    else
      var p := ps[0];
      assert ps == [p] + ps[1..];
      assert GroupSet(ps) == GroupSet(ps[1..]) + {p.group};
      WithDebts(ps[1..], t, n)[p.group := if p.group in n then n[p.group] else DebtOf(p, t)]
  }

  lemma {:induction false} SharersAreDistinct(ps: seq<ScalePolicy>, t: int)
    requires DistinctGroups(ps)
    ensures DistinctGroups(Sharers(ps, t))
  {
    if ps != [] {
      SharersAreDistinct(ps[1..], t);
      var rest := Sharers(ps[1..], t);
      forall j | 0 <= j < |rest| ensures rest[j].group != ps[0].group {
        assert rest[j] in rest;
        assert ps == [ps[0]] + ps[1..];
      }
    }
  }

  lemma {:induction false} WithDebtsAt(ps: seq<ScalePolicy>, t: int, n: map<string, int>, p: ScalePolicy)
    requires DistinctGroups(ps) && p in ps
    ensures p.group in GroupSet(ps)
    ensures WithDebts(ps, t, n)[p.group] == if p.group in n then n[p.group] else DebtOf(p, t)
  {
    assert ps == [ps[0]] + ps[1..];
    if p != ps[0] {
      assert p in ps[1..];
      WithDebtsAt(ps[1..], t, n, p);
    }
  }

  lemma {:induction false} TotalWithDebts(ps: seq<ScalePolicy>, t: int, m: map<string, int>, n: map<string, int>)
    requires GroupSet(ps) <= m.Keys && GroupSet(Sharers(ps, t)) <= n.Keys
    requires forall p :: p in ps && IsSharer(p, t) ==> p.group in n && m[p.group] == n[p.group]
    requires forall p :: p in ps && !IsSharer(p, t) ==> m[p.group] == DebtOf(p, t)
    ensures Total(ps, m) == Total(Sharers(ps, t), n) + Debts(ps, t)
  {
    if ps != [] {
      assert ps[0] in ps && forall p :: p in ps[1..] ==> p in ps;
      assert forall p :: p in Sharers(ps[1..], t) ==> p in Sharers(ps, t);
      TotalWithDebts(ps[1..], t, m, n);
      if IsSharer(ps[0], t) { assert Sharers(ps, t)[1..] == Sharers(ps[1..], t); }
    }
  }

  lemma {:induction false} CapacityAbove(ps: seq<ScalePolicy>, t: int)
    ensures Capacity(Above(ps, t)) == Capacity(Sharers(ps, t)) + Debts(ps, t)
  {
    if ps != [] {
      CapacityAbove(ps[1..], t);
      if IsSharer(ps[0], t) { assert Sharers(ps, t)[1..] == Sharers(ps[1..], t); }
    }
  }

  lemma {:induction false} Bounds(ps: seq<ScalePolicy>) returns (low: int, high: int)
    ensures forall p :: p in ps ==> low < p.priority <= high
  {
    if ps == [] {
      low, high := 0, 0;
    } else {
      low, high := Bounds(ps[1..]);
      if ps[0].priority > high { high := ps[0].priority; }
      if ps[0].priority <= low { low := ps[0].priority - 1; }
      assert forall p :: p in ps ==> p == ps[0] || p in ps[1..];
    }
  }

  lemma {:induction false} NothingAbove(ps: seq<ScalePolicy>, t: int)
    requires forall p :: p in ps ==> p.priority <= t
    ensures Above(ps, t) == []
  {
    if ps != [] {
      assert ps[0] in ps;
      NothingAbove(ps[1..], t);
    }
  }

  lemma {:induction false} AllAbove(ps: seq<ScalePolicy>, t: int)
    requires forall p :: p in ps ==> p.priority > t
    ensures Above(ps, t) == ps
  {
    if ps != [] {
      assert ps[0] in ps;
      AllAbove(ps[1..], t);
      assert ps == [ps[0]] + ps[1..];
    }
  }

  /** The served classes are those above `t`, and they have room for the total. */
  ghost predicate IsCut(ps: seq<ScalePolicy>, total: int, t: int) {
    && Capacity(Above(ps, t)) >= total
    && forall p :: p in ps ==> (Served(ps, total, p.priority) <==> p.priority > t)
  }

  ghost predicate FallsShort(ps: seq<ScalePolicy>, total: int, t: int) {
    Capacity(Above(ps, t)) < total
  }

  lemma CutExists(ps: seq<ScalePolicy>, total: int)
    requires total >= 0 && Reaches(ps, total)
    ensures exists t :: IsCut(ps, total, t)
  {
    var low, high := Bounds(ps);
    if total == 0 {
      NothingAbove(ps, high);
      forall k | k <= high ensures !Served(ps, total, k) { assert !FallsShort(ps, total, high); }
      assert IsCut(ps, total, high);
    } else {
      var t := LastThatReaches(ps, total, high);
      forall k ensures Served(ps, total, k) <==> k > t { ServedBeyond(ps, total, t, k); }
      assert IsCut(ps, total, t);
    }
  }

  lemma ServedBeyond(ps: seq<ScalePolicy>, total: int, t: int, k: int)
    requires !FallsShort(ps, total, t) && forall u :: u > t ==> FallsShort(ps, total, u)
    ensures Served(ps, total, k) <==> k > t
  {
    if k > t {
      forall u | u >= k ensures Capacity(Above(ps, u)) < total { assert FallsShort(ps, total, u); }
    }
  }

  lemma LastThatReaches(ps: seq<ScalePolicy>, total: int, high: int) returns (t: int)
    requires total > 0 && Reaches(ps, total) && forall p :: p in ps ==> p.priority <= high
    ensures !FallsShort(ps, total, t) && forall u :: u > t ==> FallsShort(ps, total, u)
  {
    var low :| Capacity(Above(ps, low)) >= total;
    forall u | u >= high ensures FallsShort(ps, total, u) { NothingAbove(ps, u); }
    t := SearchDown(ps, total, low, high);
  }

  lemma SearchDown(ps: seq<ScalePolicy>, total: int, low: int, high: int) returns (t: int)
    requires !FallsShort(ps, total, low) && forall u :: u >= high ==> FallsShort(ps, total, u)
    ensures !FallsShort(ps, total, t) && forall u :: u > t ==> FallsShort(ps, total, u)
  {
    t := high;
    while FallsShort(ps, total, t)
      invariant t >= low && forall u :: u > t ==> FallsShort(ps, total, u)
      decreases t - low
    {
      t := t - 1;
    }
  }

  lemma SharerByGroup(ps: seq<ScalePolicy>, t: int, p: ScalePolicy)
    requires DistinctGroups(ps) && p in ps && p.group in GroupSet(Sharers(ps, t))
    ensures IsSharer(p, t)
  {
    var q :| q in Sharers(ps, t) && q.group == p.group;
    var i :| 0 <= i < |ps| && ps[i] == p;
    var j :| 0 <= j < |ps| && ps[j] == q;
    assert i == j;
  }

  lemma WithDebtsOf(ps: seq<ScalePolicy>, t: int, n: map<string, int>, p: ScalePolicy)
    requires DistinctGroups(ps) && p in ps && n.Keys == GroupSet(Sharers(ps, t))
    ensures p.group in GroupSet(ps)
    ensures IsSharer(p, t) ==>
              p in Sharers(ps, t) && Assigned(ps, WithDebts(ps, t, n), p) == Assigned(Sharers(ps, t), n, p)
    ensures !IsSharer(p, t) ==> Assigned(ps, WithDebts(ps, t, n), p) == DebtOf(p, t)
  {
    WithDebtsAt(ps, t, n, p);
    if p.group in n { SharerByGroup(ps, t, p); }
    if IsSharer(p, t) { assert p in Sharers(ps, t) && p.group in GroupSet(Sharers(ps, t)); }
  }

  /** The sharers' split, with the debts, is right for all. */
  lemma DebtsComplete(ps: seq<ScalePolicy>, total: nat, t: int, n: map<string, int>)
    requires DistinctGroups(ps) && IsCut(ps, total, t) && IsSplit(Sharers(ps, t), total - Debts(ps, t), n)
    ensures IsSignedSplit(ps, total, WithDebts(ps, t, n))
  {
    var m := WithDebts(ps, t, n);
    forall p | p in ps
      ensures IsSharer(p, t) ==> p in Sharers(ps, t) && Assigned(ps, m, p) == Assigned(Sharers(ps, t), n, p)
      ensures !IsSharer(p, t) ==> Assigned(ps, m, p) == DebtOf(p, t)
    {
      WithDebtsOf(ps, t, n, p);
    }
    DebtsKeepTotal(ps, total, t, m, n);
    DebtsKeepClauses(ps, total, t, m, n);
  }

  ghost predicate Completes(ps: seq<ScalePolicy>, t: int, m: map<string, int>, n: map<string, int>)
    requires GroupSet(ps) <= m.Keys && GroupSet(Sharers(ps, t)) <= n.Keys
  {
    && (forall p :: p in ps && IsSharer(p, t) ==>
          p in Sharers(ps, t) && Assigned(ps, m, p) == Assigned(Sharers(ps, t), n, p))
    && (forall p :: p in ps && !IsSharer(p, t) ==> Assigned(ps, m, p) == DebtOf(p, t))
  }

  lemma DebtsKeepTotal(ps: seq<ScalePolicy>, total: int, t: int, m: map<string, int>, n: map<string, int>)
    requires GroupSet(ps) <= m.Keys && GroupSet(Sharers(ps, t)) <= n.Keys && Completes(ps, t, m, n)
    requires Total(Sharers(ps, t), n) == total - Debts(ps, t)
    ensures Total(ps, m) == total
  {
    forall p | p in ps
      ensures IsSharer(p, t) ==> p.group in n && m[p.group] == n[p.group]
      ensures !IsSharer(p, t) ==> m[p.group] == DebtOf(p, t)
    {
      assert m[p.group] == Assigned(ps, m, p);
      if IsSharer(p, t) { assert p.group in GroupSet(Sharers(ps, t)); }
    }
    TotalWithDebts(ps, t, m, n);
  }

  lemma DebtsKeepClauses(ps: seq<ScalePolicy>, total: nat, t: int, m: map<string, int>, n: map<string, int>)
    requires GroupSet(ps) <= m.Keys && GroupSet(Sharers(ps, t)) <= n.Keys && Completes(ps, t, m, n)
    requires IsCut(ps, total, t)
    requires WithinLimits(Sharers(ps, t), n) && StrictPriority(Sharers(ps, t), n) && EvenInClass(Sharers(ps, t), n)
    ensures AllAllowed(ps, total, ps, m) && StrictPriority(ps, m) && EvenInClass(ps, m)
  {
    forall p | p in ps
      ensures Allowed(ps, total, p, Assigned(ps, m, p))
      ensures if IsSharer(p, t) then 0 <= Assigned(ps, m, p) <= Limit(p) else Assigned(ps, m, p) == DebtOf(p, t)
    {
      if IsSharer(p, t) { assert 0 <= Assigned(Sharers(ps, t), n, p) <= Limit(p); }
    }
    forall p, q | p in ps && q in ps && p.priority > q.priority && Assigned(ps, m, q) > 0
      ensures Assigned(ps, m, p) == Limit(p)
    {
      assert IsSharer(q, t);
    }
    forall p, q | p in ps && q in ps && p.priority == q.priority && Before(p, q)
      ensures Assigned(ps, m, p) < Assigned(ps, m, q) ==> Assigned(ps, m, p) == Limit(p)
      ensures Assigned(ps, m, p) <= Assigned(ps, m, q) + 1
    {}
  }

  ghost function SignedMap(ps: seq<ScalePolicy>, total: nat): map<string, int> {
    if exists m :: IsSignedSplit(ps, total, m) then var m :| IsSignedSplit(ps, total, m); m else Zeros(ps)
  }

  lemma SignedMapIsSplit(ps: seq<ScalePolicy>, total: nat)
    requires DistinctGroups(ps) && Reaches(ps, total)
    ensures IsSignedSplit(ps, total, SignedMap(ps, total))
  {
    CutExists(ps, total);
    var t :| IsCut(ps, total, t);
    CapacityAbove(ps, t);
    SharersAreDistinct(ps, t);
    HandOutIsSplit(Sharers(ps, t), total - Debts(ps, t));
    DebtsComplete(ps, total, t, HandOut(Sharers(ps, t), total - Debts(ps, t)));
  }

  // ---- Beyond the reach ----

  lemma {:induction false} TotalUpToCapacity(ps: seq<ScalePolicy>, m: map<string, int>)
    requires GroupSet(ps) <= m.Keys && forall p :: p in ps ==> m[p.group] <= Limit(p)
    ensures Total(ps, m) <= Capacity(ps)
    ensures (forall p :: p in ps ==> m[p.group] == Limit(p)) ==> Total(ps, m) == Capacity(ps)
  {
    if ps != [] {
      assert ps[0] in ps && forall p :: p in ps[1..] ==> p in ps;
      TotalUpToCapacity(ps[1..], m);
    }
  }

  lemma WholeFallsShort(ps: seq<ScalePolicy>, total: int)
    requires !Reaches(ps, total)
    ensures Capacity(ps) < total
  {
    var low, high := Bounds(ps);
    AllAbove(ps, low);
  }

  /** There is a split exactly for the totals that some prefix of the classes has room for. */
  lemma SignedSplitExistsExactly(ps: seq<ScalePolicy>, total: nat)
    requires DistinctGroups(ps)
    ensures Reaches(ps, total) <==> exists m :: IsSignedSplit(ps, total, m)
  {
    if Reaches(ps, total) {
      SignedMapIsSplit(ps, total);
    } else if m :| IsSignedSplit(ps, total, m) {
      WholeFallsShort(ps, total);
      forall p | p in ps ensures m[p.group] <= Limit(p) {
        assert Served(ps, total, p.priority) && Allowed(ps, total, p, Assigned(ps, m, p));
      }
      TotalUpToCapacity(ps, m);
    }
  }

  // ---- What the allocator returns ----

  /** Everybody at its limit. */
  function AtLimits(ps: seq<ScalePolicy>): map<string, int> {
    if ps == [] then map[] else AtLimits(ps[1..])[ps[0].group := Limit(ps[0])]
  }

  /** What `SplitReplicas` returns; `None` is its panic. The self-check compares int32 sums, so it lets through
      a total that is out of reach if the sum of all limits happens to wrap to it. */
  ghost function SplitSigned(ps: seq<ScalePolicy>, total: int): Option<map<string, int>> {
    if total < 0 then None
    else if Reaches(ps, total) then Some(SignedMap(ps, total))
    else if Wrap32(Capacity(ps)) == total then Some(AtLimits(ps))
    else None
  }

  lemma SplitSignedCoversGroups(ps: seq<ScalePolicy>, total: int)
    ensures SplitSigned(ps, total).Some? ==> SplitSigned(ps, total).value.Keys == GroupSet(ps)
  {
    AtLimitsGroups(ps);
  }

  lemma {:induction false} AtLimitsGroups(ps: seq<ScalePolicy>)
    ensures AtLimits(ps).Keys == GroupSet(ps)
  {
    if ps != [] {
      AtLimitsGroups(ps[1..]);
      assert forall p :: p in ps <==> p == ps[0] || p in ps[1..];
    }
  }

  lemma {:induction false} AtLimitsOf(ps: seq<ScalePolicy>, p: ScalePolicy)
    requires DistinctGroups(ps) && p in ps
    ensures p.group in AtLimits(ps) && AtLimits(ps)[p.group] == Limit(p)
  {
    assert ps == [ps[0]] + ps[1..];
    if p != ps[0] {
      assert p in ps[1..];
      AtLimitsOf(ps[1..], p);
    }
  }

  /** A map in which everybody has its limit is that one. */
  lemma AllFull(ps: seq<ScalePolicy>, m: map<string, int>)
    requires DistinctGroups(ps) && m.Keys == GroupSet(ps) && forall p :: p in ps ==> m[p.group] == Limit(p)
    ensures m == AtLimits(ps) && Total(ps, m) == Capacity(ps)
  {
    AtLimitsGroups(ps);
    forall p | p in ps ensures m[p.group] == AtLimits(ps)[p.group] { AtLimitsOf(ps, p); }
    TotalUpToCapacity(ps, m);
  }

  /** The values add up to the total as int32 numbers, and exactly to the total if and only if the total
      is within reach. */
  lemma SplitSignedAddsUp(ps: seq<ScalePolicy>, total: int)
    requires DistinctGroups(ps) && IsInt32(total) && SplitSigned(ps, total).Some?
    ensures SplitSigned(ps, total).value.Keys == GroupSet(ps)
    ensures Wrap32(Total(ps, SplitSigned(ps, total).value)) == total
    ensures Total(ps, SplitSigned(ps, total).value) == total <==> Reaches(ps, total)
  {
    SplitSignedCoversGroups(ps, total);
    Wrap32Fits(total);
    if Reaches(ps, total) {
      SignedMapIsSplit(ps, total);
    } else {
      forall p | p in ps ensures AtLimits(ps)[p.group] == Limit(p) { AtLimitsOf(ps, p); }
      AllFull(ps, AtLimits(ps));
      WholeFallsShort(ps, total);
    }
  }

  /** The allocator serves every total from zero to the largest int32 if and only if the largest is within
      reach, or the one before it is and the sum of all limits wraps to the largest. */
  lemma NeverPanicsExactly(ps: seq<ScalePolicy>)
    ensures (forall total :: 0 <= total <= MAX_INT32 ==> SplitSigned(ps, total).Some?)
            <==> Reaches(ps, MAX_INT32) || (Reaches(ps, MAX_INT32 - 1) && Wrap32(Capacity(ps)) == MAX_INT32)
  {
    if Reaches(ps, MAX_INT32) {
      forall total | 0 <= total <= MAX_INT32 ensures SplitSigned(ps, total).Some? { ReachesLess(ps, MAX_INT32, total); }
    } else if Reaches(ps, MAX_INT32 - 1) {
      forall total | 0 <= total < MAX_INT32 ensures SplitSigned(ps, total).Some? {
        ReachesLess(ps, MAX_INT32 - 1, total);
      }
      assert SplitSigned(ps, MAX_INT32).Some? <==> Wrap32(Capacity(ps)) == MAX_INT32;
    } else {
      assert SplitSigned(ps, MAX_INT32).None? || SplitSigned(ps, MAX_INT32 - 1).None?;
    }
  }

  lemma ReachesLess(ps: seq<ScalePolicy>, total: int, less: int)
    requires Reaches(ps, total) && less <= total
    ensures Reaches(ps, less)
  {
    var t :| Capacity(Above(ps, t)) >= total;
    assert Capacity(Above(ps, t)) >= less;
  }

  /** The result depends only on which policies there are, not on their order. */
  lemma SplitSignedIsStable(ps: seq<ScalePolicy>, qs: seq<ScalePolicy>, total: int)
    requires DistinctGroups(ps) && DistinctGroups(qs) && multiset(ps) == multiset(qs)
    ensures SplitSigned(ps, total) == SplitSigned(qs, total)
  {
    SameMembers(ps, qs);
    SumsOfPermutation(ps, qs, Zeros(ps));
    forall t ensures Capacity(Above(ps, t)) == Capacity(Above(qs, t)) { AboveOfPermutation(ps, qs, t); }
    if total >= 0 {
      if Reaches(ps, total) {
        SameSplit(ps, qs, total);
      } else {
        SameServed(ps, qs, total, 0);
        forall p | p in ps ensures p.group in AtLimits(qs) && AtLimits(qs)[p.group] == Limit(p) { AtLimitsOf(qs, p); }
        AtLimitsGroups(qs);
        AllFull(ps, AtLimits(qs));
      }
    }
  }

  ghost predicate SameCapacities(ps: seq<ScalePolicy>, qs: seq<ScalePolicy>) {
    forall t :: Capacity(Above(ps, t)) == Capacity(Above(qs, t))
  }

  lemma SameServed(ps: seq<ScalePolicy>, qs: seq<ScalePolicy>, total: int, k: int)
    requires SameCapacities(ps, qs)
    ensures Served(ps, total, k) <==> Served(qs, total, k)
    ensures Reaches(ps, total) <==> Reaches(qs, total)
  {
    if t :| Capacity(Above(ps, t)) >= total { assert Capacity(Above(qs, t)) >= total; }
    if t :| Capacity(Above(qs, t)) >= total { assert Capacity(Above(ps, t)) >= total; }
  }

  lemma SplitCarriesOver(ps: seq<ScalePolicy>, qs: seq<ScalePolicy>, total: int, m: map<string, int>)
    requires SameCapacities(ps, qs) && (forall p :: p in ps <==> p in qs) && GroupSet(ps) == GroupSet(qs)
    requires IsSignedSplit(ps, total, m) && Total(qs, m) == total
    ensures IsSignedSplit(qs, total, m)
  {
    forall p | p in qs ensures Allowed(qs, total, p, Assigned(qs, m, p)) && Assigned(qs, m, p) == Assigned(ps, m, p) {
      SameServed(ps, qs, total, p.priority);
      assert Allowed(ps, total, p, Assigned(ps, m, p));
    }
  }

  lemma SameSplit(ps: seq<ScalePolicy>, qs: seq<ScalePolicy>, total: nat)
    requires DistinctGroups(ps) && DistinctGroups(qs) && multiset(ps) == multiset(qs)
    requires Reaches(ps, total) && SameCapacities(ps, qs)
    ensures Reaches(qs, total) && SignedMap(ps, total) == SignedMap(qs, total)
  {
    SameMembers(ps, qs);
    SameServed(ps, qs, total, 0);
    SignedMapIsSplit(ps, total);
    SignedMapIsSplit(qs, total);
    SumsOfPermutation(ps, qs, SignedMap(ps, total));
    SplitCarriesOver(ps, qs, total, SignedMap(ps, total));
    SignedSplitIsUnique(qs, total, SignedMap(ps, total), SignedMap(qs, total));
  }

  /** A group gets something only if every group of higher priority has its limit, and nobody gets more than that
      but for groups with a negative limit that are not served: they get nothing. */
  lemma SplitSignedServesHigherFirst(ps: seq<ScalePolicy>, total: int, p: ScalePolicy, q: ScalePolicy)
    requires DistinctGroups(ps) && SplitSigned(ps, total).Some? && p in ps && q in ps
    ensures p.group in SplitSigned(ps, total).value && q.group in SplitSigned(ps, total).value
    ensures var m := SplitSigned(ps, total).value;
            p.priority > q.priority && m[q.group] > 0 ==> m[p.group] == Limit(p)
    ensures var m := SplitSigned(ps, total).value;
            if Limit(p) < 0 then m[p.group] == 0 || m[p.group] == Limit(p) else 0 <= m[p.group] <= Limit(p)
  {
    var m := SplitSigned(ps, total).value;
    SplitSignedCoversGroups(ps, total);
    if Reaches(ps, total) {
      SignedMapIsSplit(ps, total);
      HigherFirst(ps, total, m, p, q);
    } else {
      AtLimitsOf(ps, p);
      AtLimitsOf(ps, q);
    }
  }

  lemma HigherFirst(ps: seq<ScalePolicy>, total: int, m: map<string, int>, p: ScalePolicy, q: ScalePolicy)
    requires IsSignedSplit(ps, total, m) && p in ps && q in ps
    ensures p.group in m && q.group in m
    ensures p.priority > q.priority && m[q.group] > 0 ==> m[p.group] == Limit(p)
    ensures if Limit(p) < 0 then m[p.group] == 0 || m[p.group] == Limit(p) else 0 <= m[p.group] <= Limit(p)
  {
    assert Assigned(ps, m, p) == m[p.group] && Assigned(ps, m, q) == m[q.group];
    assert Allowed(ps, total, p, Assigned(ps, m, p));
  }

  lemma ServedTogether(ps: seq<ScalePolicy>, total: int, m: map<string, int>, p: ScalePolicy, q: ScalePolicy)
    requires GroupSet(ps) <= m.Keys && AllAllowed(ps, total, ps, m)
    requires p in ps && q in ps && p.priority == q.priority
    ensures Assigned(ps, m, q) <= Limit(q) || Assigned(ps, m, q) == Assigned(ps, m, p)
  {
    assert Allowed(ps, total, p, Assigned(ps, m, p)) && Allowed(ps, total, q, Assigned(ps, m, q));
  }

  /** Inside a class the smaller limit, and of equal limits the smaller name, comes first: it gets as much as the
      other or one more, or has its limit. */
  lemma SplitSignedBreaksTies(ps: seq<ScalePolicy>, total: int, p: ScalePolicy, q: ScalePolicy)
    requires DistinctGroups(ps) && SplitSigned(ps, total).Some?
    requires p in ps && q in ps && p.priority == q.priority
    ensures p.group in SplitSigned(ps, total).value && q.group in SplitSigned(ps, total).value
    ensures var m := SplitSigned(ps, total).value;
            Limit(p) == Limit(q) && Less(p.group, q.group) ==> m[q.group] <= m[p.group] <= m[q.group] + 1
    ensures var m := SplitSigned(ps, total).value;
            Limit(p) < Limit(q)
            ==> m[p.group] <= m[q.group] + 1 && (m[p.group] < m[q.group] ==> m[p.group] == Limit(p))
  {
    var m := SplitSigned(ps, total).value;
    SplitSignedCoversGroups(ps, total);
    if Reaches(ps, total) {
      SignedMapIsSplit(ps, total);
      ServedTogether(ps, total, m, p, q);
      TieBetween(ps, m, p, q);
    } else {
      AtLimitsOf(ps, p);
      AtLimitsOf(ps, q);
    }
  }

  // ---- Without negative limits ----

  lemma {:induction false} AboveIsLess(ps: seq<ScalePolicy>, t: int)
    requires NonNegativeLimits(ps)
    ensures Capacity(Above(ps, t)) <= Capacity(ps)
  {
    if ps != [] {
      assert ps[0] in ps && forall p :: p in ps[1..] ==> p in ps;
      AboveIsLess(ps[1..], t);
    }
  }

  lemma ReachIsCapacity(ps: seq<ScalePolicy>, total: int)
    requires NonNegativeLimits(ps)
    ensures Reaches(ps, total) <==> total <= Capacity(ps)
  {
    var low, high := Bounds(ps);
    AllAbove(ps, low);
    if Reaches(ps, total) {
      var t :| Capacity(Above(ps, t)) >= total;
      AboveIsLess(ps, t);
    }
  }

  lemma SignedIsSplit(ps: seq<ScalePolicy>, total: int, m: map<string, int>)
    requires NonNegativeLimits(ps) && IsSignedSplit(ps, total, m)
    ensures IsSplit(ps, total, m)
  {
    forall p | p in ps ensures 0 <= Assigned(ps, m, p) <= Limit(p) {
      assert Allowed(ps, total, p, Assigned(ps, m, p));
    }
  }

  /** Without negative limits this is the split that `Allocation` describes. */
  lemma SplitSignedIsSplit(ps: seq<ScalePolicy>, total: int)
    requires WellFormed(ps) && IsInt32(total)
    ensures SplitSigned(ps, total) == Split(ps, total)
  {
    ReachIsCapacity(ps, total);
    if total >= 0 {
      if total <= Capacity(ps) {
        SignedMapIsSplit(ps, total);
        SignedIsSplit(ps, total, SignedMap(ps, total));
        SplitIsExact(ps, total, SignedMap(ps, total));
      } else {
        CapacityIsNat(ps);
        Wrap32Fits(Capacity(ps));
      }
    }
  }

  lemma {:induction false} CapacityIsNat(ps: seq<ScalePolicy>)
    requires NonNegativeLimits(ps)
    ensures Capacity(ps) >= 0
  {
    if ps != [] {
      assert ps[0] in ps && forall p :: p in ps[1..] ==> p in ps;
      CapacityIsNat(ps[1..]);
    }
  }
}
